/** JSON texts: the tokens of a value with any blanks before each of them. Parse reads every such text, and
    what ToString prints is the one without blanks. */
module JsonText {
  import opened JsonEscape
  import opened Words
  import opened Bytes
  import opened Json

  // ----- tokens -----

  function Tokens(v: Json): seq<string>
    decreases v
  {
    match v
    case Null => ["null"]
    case Integer(i) => [Decimal(i)]
    case Text(s) => [Quoted(s)]
    case Boolean(b) => [if b then "true" else "false"]
    case Array(items) => ["["] + (ItemTokens(items, true) + ["]"])
    case Object(members) => ["{"] + (MemberTokens(members, true) + ["}"])
  }

  function ItemTokens(items: seq<Json>, first: bool): seq<string>
    decreases items, if first then 0 else 1
  {
    if items == [] then []
    else if !first then [","] + ItemTokens(items, true)
    else Tokens(items[0]) + ItemTokens(items[1..], false)
  }

  function MemberTokens(members: seq<Member>, first: bool): seq<string>
    decreases members, if first then 0 else 1
  {
    if members == [] then []
    else if !first then [","] + MemberTokens(members, true)
    else [Quoted(members[0].name)] + ([":"] + (Tokens(members[0].value) + MemberTokens(members[1..], false)))
  }

  /** A token and the blanks in front of it. */
  datatype Piece = Piece(blank: string, token: string)

  predicate Blank(s: string) {
    forall k :: 0 <= k < |s| ==> s[k] == ' ' || s[k] == '\t' || s[k] == '\r' || s[k] == '\n'
  }

  function Written(pieces: seq<Piece>): string {
    if pieces == [] then "" else pieces[0].blank + (pieces[0].token + Written(pieces[1..]))
  }

  /** The pieces have these tokens, and blanks of any kind and number before them. */
  predicate Spells(pieces: seq<Piece>, tokens: seq<string>) {
    |pieces| == |tokens| && forall k :: 0 <= k < |pieces| ==> pieces[k].token == tokens[k] && Blank(pieces[k].blank)
  }

  /** The values Parse can give: int-sized numbers, no NUL in a string; members in any order. */
  ghost predicate Parsable(v: Json)
    decreases v
  {
    match v
    case Integer(i) => INT_MIN <= i <= INT_MAX
    case Text(s) => NulFree(s)
    case Array(items) => forall k :: 0 <= k < |items| ==> Parsable(items[k])
    case Object(members) =>
      forall k :: 0 <= k < |members| ==> NulFree(members[k].name) && Parsable(members[k].value)
    case _ => true
  }

  lemma {:induction false} WrittenConcat(a: seq<Piece>, c: seq<Piece>)
    ensures Written(a + c) == Written(a) + Written(c)
  {
    if a == [] {
      assert a + c == c;
    } else {
      assert (a + c)[1..] == a[1..] + c;
      WrittenConcat(a[1..], c);
    }
  }

  lemma SpellsSplit(pieces: seq<Piece>, x: seq<string>, y: seq<string>)
    requires Spells(pieces, x + y)
    ensures |pieces| == |x| + |y| && Spells(pieces[..|x|], x) && Spells(pieces[|x|..], y)
    ensures Written(pieces) == Written(pieces[..|x|]) + Written(pieces[|x|..])
  {
    hide Blank;
    var a, c := pieces[..|x|], pieces[|x|..];
    assert pieces == a + c;
    WrittenConcat(a, c);
    forall k | 0 <= k < |x|
      ensures a[k].token == x[k] && Blank(a[k].blank)
    {
      assert (x + y)[k] == x[k] && a[k] == pieces[k];
    }
    forall k | 0 <= k < |y|
      ensures c[k].token == y[k] && Blank(c[k].blank)
    {
      assert (x + y)[|x| + k] == y[k] && c[k] == pieces[|x| + k];
    }
  }

  // ----- blanks -----

  lemma {:induction false} BlanksSkipped(b: string, blank: string, i: nat)
    requires Blank(blank) && Matches(b, blank, i)
    ensures SkipBlanks(b, i) == SkipBlanks(b, i + |blank|)
    decreases blank
  {
    if blank != "" {
      MatchesHead(b, blank, i);
      assert blank == [blank[0]] + blank[1..];
      MatchesSplit(b, [blank[0]], blank[1..], i);
      BlanksSkipped(b, blank[1..], i + 1);
    }
  }

  /** Parse goes on behind blanks as if it had begun there. */
  lemma ParseSkipsBlanks(b: string, blank: string, i: nat)
    requires Blank(blank) && Matches(b, blank, i)
    ensures i + |blank| <= |b| && ParseAt(b, i) == ParseAt(b, i + |blank|)
    ensures forall acc :: ParseItems(b, i, acc) == ParseItems(b, i + |blank|, acc)
    ensures forall state: nat, name, acc ::
      ParseMembers(b, i, state, name, acc) == ParseMembers(b, i + |blank|, state, name, acc)
  {
    BlanksSkipped(b, blank, i);
    hide SkipBlanks;
    assert TokenAt(b, i) == TokenAt(b, i + |blank|);
    hide TokenAt;
    assert ParseAt(b, i) == ParseAt(b, i + |blank|);
  }

  /** The blanks of the first piece, and its token. */
  lemma FirstPiece(b: string, pieces: seq<Piece>, x: string, y: seq<string>, i: nat)
    requires Spells(pieces, [x] + y) && Matches(b, Written(pieces), i)
    ensures |pieces| == 1 + |y|
    ensures var j, rest := i + |pieces[0].blank|, pieces[1..];
      && Spells(rest, y) && Matches(b, x + Written(rest), j) && j <= |b|
      && |Written(pieces)| == |pieces[0].blank| + |x| + |Written(rest)|
      && ParseAt(b, i) == ParseAt(b, j)
      && (forall acc :: ParseItems(b, i, acc) == ParseItems(b, j, acc))
      && (forall state: nat, name, acc ::
            ParseMembers(b, i, state, name, acc) == ParseMembers(b, j, state, name, acc))
  {
    hide Matches, Blank, ParseAt, ParseItems, ParseMembers;
    assert ([x] + y)[0] == x && pieces[0].token == x;
    var blank, rest := pieces[0].blank, pieces[1..];
    assert Written(pieces) == blank + (x + Written(rest));
    MatchesSplit(b, blank, x + Written(rest), i);
    ParseSkipsBlanks(b, blank, i);
    forall k | 0 <= k < |y|
      ensures rest[k].token == y[k] && Blank(rest[k].blank)
    {
      assert ([x] + y)[k + 1] == y[k] && rest[k] == pieces[k + 1];
    }
  }

  /** A number ends where a comma or a bracket follows, with or without blanks. */
  lemma NumberEnds(b: string, pieces: seq<Piece>, x: string, y: seq<string>, i: nat)
    requires Spells(pieces, [x] + y) && Matches(b, Written(pieces), i) && (x == "," || x == "]" || x == "}")
    ensures EndsNumber(CharAt(b, i))
  {
    assert ([x] + y)[0] == x && pieces[0].token == x;
    MatchesHead(b, Written(pieces), i);
  }

  // ----- parsing -----

  /** Where a text of the tokens of a value begins, Parse gives the value and stops behind it. */
  lemma {:induction false} ParseWritten(v: Json, pieces: seq<Piece>, b: string, i: nat)
    requires Parsable(v) && Spells(pieces, Tokens(v)) && Matches(b, Written(pieces), i)
    requires v.Integer? ==> EndsNumber(CharAt(b, i + |Written(pieces)|))
    ensures i + |Written(pieces)| <= |b| && ParseAt(b, i) == Value(Mangle(v), i + |Written(pieces)|)
    decreases v, 0
  {
    hide ParseItems, ParseMembers, Decimal, AtoI, Matches, Spells, TokenAt, Written;
    hide ItemTokens, MemberTokens;
    var x, y := Tokens(v)[0], Tokens(v)[1..];
    assert Tokens(v) == [x] + y;
    FirstPiece(b, pieces, x, y, i);
    var j, rest := i + |pieces[0].blank|, pieces[1..];
    MatchesSplit(b, x, Written(rest), j);
    match v {
      case Null => NothingWritten(rest); TokenOfWord(b, j);
      case Integer(n) => NothingWritten(rest); TokenOfDecimal(b, n, j);
      case Text(s) => NothingWritten(rest); TokenOfQuoted(b, s, j);
      case Boolean(_) => NothingWritten(rest); TokenOfWord(b, j);
      case Array(items) =>
        TokenOfDelimiter(b, '[', Written(rest), j);
        assert y == ItemTokens(items, true) + ["]"];
        ParseItemsWritten(items, true, rest, b, j + 1, []);
        assert [] + MangleItems(items) == MangleItems(items);
      case Object(members) =>
        TokenOfDelimiter(b, '{', Written(rest), j);
        assert y == MemberTokens(members, true) + ["}"];
        ParseMembersWritten(members, true, rest, b, j + 1, "", []);
    }
    MatchesFits(b, Written(pieces), i);
  }

  lemma NothingWritten(pieces: seq<Piece>)
    requires Spells(pieces, [])
    ensures Written(pieces) == ""
  {
  }

  lemma MatchesFits(b: string, x: string, i: nat)
    requires Matches(b, x, i)
    ensures i + |x| <= |b|
  {
  }

  lemma {:induction false} ParseItemsWritten(items: seq<Json>, first: bool, pieces: seq<Piece>, b: string, i: nat,
                                             acc: seq<Json>)
    requires forall k :: 0 <= k < |items| ==> Parsable(items[k])
    requires Spells(pieces, ItemTokens(items, first) + ["]"]) && Matches(b, Written(pieces), i)
    ensures i <= |b| && ParseItems(b, i, acc) == Value(Array(acc + MangleItems(items)), i + |Written(pieces)|)
    decreases items, if first then 1 else 2
  {
    hide *;
    MatchesFits(b, Written(pieces), i);
    if items == [] {
      NoItems(first);
      assert ItemTokens(items, first) + ["]"] == ["]"] + [];
      FirstPiece(b, pieces, "]", [], i);
      NothingWritten(pieces[1..]);
      ParseSeparator(b, ']', Written(pieces[1..]), i + |pieces[0].blank|, "", acc, []);
      assert acc + [] == acc;
    } else if !first {
      ItemTokensIs(items);
      var y := ItemTokens(items, true) + ["]"];
      assert ItemTokens(items, first) + ["]"] == [","] + y;
      FirstPiece(b, pieces, ",", y, i);
      var j, rest := i + |pieces[0].blank|, pieces[1..];
      ParseSeparator(b, ',', Written(rest), j, "", acc, []);
      ParseItemsWritten(items, true, rest, b, j + 1, acc);
    } else {
      ItemTokensIs(items);
      var x, y := Tokens(items[0]), ItemTokens(items[1..], false) + ["]"];
      assert ItemTokens(items, first) + ["]"] == x + y;
      SpellsSplit(pieces, x, y);
      var p, rest := pieces[..|x|], pieces[|x|..];
      MatchesSplit(b, Written(p), Written(rest), i);
      LaterTokens(items[1..], []);
      NumberEnds(b, rest, y[0], y[1..], i + |Written(p)|);
      ParseWritten(items[0], p, b, i);
      OneItem(b, i, acc);
      ParseItemsWritten(items[1..], false, rest, b, i + |Written(p)|, acc + [Mangle(items[0])]);
      MangleFirstItem(items);
      assert acc + [Mangle(items[0])] + MangleItems(items[1..]) == acc + MangleItems(items);
    }
  }

  lemma NoItems(first: bool)
    ensures ItemTokens([], first) == [] && MangleItems([]) == []
  {
  }

  lemma ItemTokensIs(items: seq<Json>)
    requires items != []
    ensures ItemTokens(items, false) == [","] + ItemTokens(items, true)
    ensures ItemTokens(items, true) == Tokens(items[0]) + ItemTokens(items[1..], false)
  {
    hide Tokens;
  }

  /** After a value comes a comma or the closing bracket. */
  lemma LaterTokens(items: seq<Json>, members: seq<Member>)
    ensures var y := ItemTokens(items, false) + ["]"]; y == [y[0]] + y[1..] && (y[0] == "," || y[0] == "]")
    ensures var y := MemberTokens(members, false) + ["}"]; y == [y[0]] + y[1..] && (y[0] == "," || y[0] == "}")
  {
    hide Tokens;
  }

  lemma OneItem(b: string, i: nat, acc: seq<Json>)
    requires i <= |b|
    ensures var o := ParseAt(b, i); o.Value? ==> ParseItems(b, i, acc) == ParseItems(b, o.next, acc + [o.v])
  {
    hide ParseAt;
  }

  lemma OneMember(b: string, i: nat, state: nat, name: string, acc: seq<Member>)
    requires i <= |b|
    ensures var o := ParseAt(b, i);
      && (o.Value? && state == 0 && o.v.Text? ==>
            ParseMembers(b, i, state, name, acc) == ParseMembers(b, o.next, 1, o.v.s, acc))
      && (o.Value? && state == 2 ==>
            ParseMembers(b, i, state, name, acc) == ParseMembers(b, o.next, 0, name, Insert(acc, name, o.v)))
      && (o.Delimiter? && state == 1 && o.c == ':' ==>
            ParseMembers(b, i, state, name, acc) == ParseMembers(b, o.next, 2, name, acc))
  {
    hide ParseAt, Insert;
  }

  lemma MemberTokensIs(members: seq<Member>)
    requires members != []
    ensures MemberTokens(members, false) == [","] + MemberTokens(members, true)
    ensures MemberTokens(members, true)
         == [Quoted(members[0].name)] + ([":"] + (Tokens(members[0].value) + MemberTokens(members[1..], false)))
  {
    hide Tokens, Quoted;
  }

  lemma NoMembers(first: bool, acc: seq<Member>)
    ensures MemberTokens([], first) == [] && MangleMembers([], acc) == acc
  {
  }

  /** A name and its colon. */
  lemma ParseName(m: Member, y: seq<string>, pieces: seq<Piece>, b: string, i: nat, name: string, acc: seq<Member>)
    requires NulFree(m.name) && Spells(pieces, [Quoted(m.name)] + ([":"] + y)) && Matches(b, Written(pieces), i)
    ensures |pieces| == 2 + |y|
    ensures var j := i + |Written(pieces)| - |Written(pieces[2..])|;
      && j >= 0 && Spells(pieces[2..], y) && Matches(b, Written(pieces[2..]), j)
      && ParseMembers(b, i, 0, name, acc) == ParseMembers(b, j, 2, Mangled(m.name), acc)
  {
    hide ParseMembers, Matches, Spells, Written, TokenAt, Quoted;
    FirstPiece(b, pieces, Quoted(m.name), [":"] + y, i);
    var j, rest := i + |pieces[0].blank|, pieces[1..];
    MatchesSplit(b, Quoted(m.name), Written(rest), j);
    TokenOfQuoted(b, m.name, j);
    var j2 := j + |Quoted(m.name)|;
    assert ParseAt(b, j) == Value(Text(Mangled(m.name)), j2);
    OneMember(b, j, 0, name, acc);
    FirstPiece(b, rest, ":", y, j2);
    var j3 := j2 + |rest[0].blank|;
    assert rest[1..] == pieces[2..];
    TokenOfDelimiter(b, ':', Written(rest[1..]), j3);
    assert ParseAt(b, j3) == Delimiter(':', j3 + 1);
    OneMember(b, j3, 1, Mangled(m.name), acc);
  }

  lemma {:induction false} ParseMembersWritten(ms: seq<Member>, first: bool, pieces: seq<Piece>, b: string, i: nat,
                                               name: string, acc: seq<Member>)
    requires forall k :: 0 <= k < |ms| ==> NulFree(ms[k].name) && Parsable(ms[k].value)
    requires Spells(pieces, MemberTokens(ms, first) + ["}"]) && Matches(b, Written(pieces), i)
    ensures i <= |b|
    ensures ParseMembers(b, i, 0, name, acc) == Value(Object(MangleMembers(ms, acc)), i + |Written(pieces)|)
    decreases ms, if first then 2 else 3
  {
    hide *;
    MatchesFits(b, Written(pieces), i);
    if ms == [] {
      NoMembers(first, acc);
      assert MemberTokens(ms, first) + ["}"] == ["}"] + [];
      FirstPiece(b, pieces, "}", [], i);
      NothingWritten(pieces[1..]);
      ParseSeparator(b, '}', Written(pieces[1..]), i + |pieces[0].blank|, name, [], acc);
    } else if !first {
      MemberTokensIs(ms);
      var y := MemberTokens(ms, true) + ["}"];
      assert MemberTokens(ms, first) + ["}"] == [","] + y;
      FirstPiece(b, pieces, ",", y, i);
      var j, rest := i + |pieces[0].blank|, pieces[1..];
      ParseSeparator(b, ',', Written(rest), j, name, [], acc);
      ParseMembersWritten(ms, true, rest, b, j + 1, name, acc);
    } else {
      ParseFirstMember(ms, pieces, b, i, name, acc);
      MangleFirstMember(ms, acc);
    }
  }

  lemma ParseFirstMember(ms: seq<Member>, pieces: seq<Piece>, b: string, i: nat, name: string, acc: seq<Member>)
    requires ms != [] && forall k :: 0 <= k < |ms| ==> NulFree(ms[k].name) && Parsable(ms[k].value)
    requires Spells(pieces, MemberTokens(ms, true) + ["}"]) && Matches(b, Written(pieces), i)
    ensures var acc' := Insert(acc, Mangled(ms[0].name), Mangle(ms[0].value));
      ParseMembers(b, i, 0, name, acc) == Value(Object(MangleMembers(ms[1..], acc')), i + |Written(pieces)|)
    decreases ms, 1
  {
    hide *;
    var m := ms[0];
    FirstName(ms, pieces, b, i, name, acc);
    var j, rest := i + |Written(pieces)| - |Written(pieces[2..])|, pieces[2..];
    var n := ParseValue(ms, rest, b, j, Mangled(m.name), acc);
    ParseMembersWritten(ms[1..], false, rest[n..], b, j + |Written(rest)| - |Written(rest[n..])|, Mangled(m.name),
                        Insert(acc, Mangled(m.name), Mangle(m.value)));
  }

  lemma FirstName(ms: seq<Member>, pieces: seq<Piece>, b: string, i: nat, name: string, acc: seq<Member>)
    requires ms != [] && NulFree(ms[0].name) && Matches(b, Written(pieces), i)
    requires Spells(pieces, MemberTokens(ms, true) + ["}"])
    ensures |pieces| >= 2
    ensures var j, rest := i + |Written(pieces)| - |Written(pieces[2..])|, pieces[2..];
      && j >= 0 && Spells(rest, Tokens(ms[0].value) + (MemberTokens(ms[1..], false) + ["}"]))
      && Matches(b, Written(rest), j)
      && ParseMembers(b, i, 0, name, acc) == ParseMembers(b, j, 2, Mangled(ms[0].name), acc)
  {
    hide *;
    var m := ms[0];
    MemberTokensIs(ms);
    var y := Tokens(m.value) + (MemberTokens(ms[1..], false) + ["}"]);
    assert MemberTokens(ms, true) + ["}"] == [Quoted(m.name)] + ([":"] + y);
    ParseName(m, y, pieces, b, i, name, acc);
  }

  /** The value of the first member, which has the first `n` pieces. */
  lemma ParseValue(ms: seq<Member>, pieces: seq<Piece>, b: string, i: nat, name: string, acc: seq<Member>)
    returns (n: nat)
    requires ms != [] && Parsable(ms[0].value) && Matches(b, Written(pieces), i)
    requires Spells(pieces, Tokens(ms[0].value) + (MemberTokens(ms[1..], false) + ["}"]))
    ensures n <= |pieces|
    ensures var j, last := i + |Written(pieces)| - |Written(pieces[n..])|, pieces[n..];
      && j >= 0 && Spells(last, MemberTokens(ms[1..], false) + ["}"]) && Matches(b, Written(last), j)
      && ParseMembers(b, i, 2, name, acc) == ParseMembers(b, j, 0, name, Insert(acc, name, Mangle(ms[0].value)))
    decreases ms, 0
  {
    hide *;
    var m := ms[0];
    var x, y := Tokens(m.value), MemberTokens(ms[1..], false) + ["}"];
    SpellsSplit(pieces, x, y);
    n := |x|;
    var p, last := pieces[..n], pieces[n..];
    MatchesSplit(b, Written(p), Written(last), i);
    LaterTokens([], ms[1..]);
    NumberEnds(b, last, y[0], y[1..], i + |Written(p)|);
    assert m in ms;
    ParseWritten(m.value, p, b, i);
    OneMember(b, i, 2, name, acc);
  }

  /** The theorem: whatever the blanks before its tokens, a text is parsed to its value, up to its end. */
  lemma ParseOfAnyLayout(v: Json, pieces: seq<Piece>, tail: string)
    requires Parsable(v) && Spells(pieces, Tokens(v))
    requires v.Integer? && tail != "" ==> EndsNumber(tail[0])
    ensures ParseText(Written(pieces) + tail) == Value(Mangle(v), |Written(pieces)|)
  {
    hide Spells, ParseAt, Written, Mangle, Tokens;
    var t := Written(pieces);
    var b := t + tail;
    assert b[0..0 + |t|] == t;
    assert tail != "" ==> b[|t|] == tail[0];
    ParseWritten(v, pieces, b, 0);
  }

  // ----- ToString -----

  /** The tokens one after the other. */
  function Joined(tokens: seq<string>): string {
    if tokens == [] then "" else tokens[0] + Joined(tokens[1..])
  }

  lemma {:induction false} JoinedConcat(a: seq<string>, c: seq<string>)
    ensures Joined(a + c) == Joined(a) + Joined(c)
  {
    if a == [] {
      assert a + c == c;
    } else {
      assert (a + c)[1..] == a[1..] + c;
      JoinedConcat(a[1..], c);
    }
  }

  lemma JoinedOne(x: string, y: seq<string>)
    ensures Joined([x] + y) == x + Joined(y) && Joined([x]) == x
  {
    assert ([x] + y)[1..] == y && [x][1..] == [];
  }

  /** What is printed is the tokens of the value, without a blank. */
  lemma {:induction false} PrintedIsTokens(v: Json)
    ensures Printed(v) == Joined(Tokens(v))
    decreases v, 0
  {
    hide Decimal, Quoted, Joined, PrintedItems, PrintedMembers, ItemTokens, MemberTokens;
    match v {
      case Null => JoinedOne("null", []);
      case Integer(i) => JoinedOne(Decimal(i), []);
      case Text(s) => JoinedOne(Quoted(s), []);
      case Boolean(b) => JoinedOne(if b then "true" else "false", []);
      case Array(items) =>
        PrintedItemsAreTokens(items, true);
        JoinedOne("[", ItemTokens(items, true) + ["]"]);
        JoinedConcat(ItemTokens(items, true), ["]"]);
        JoinedOne("]", []);
      case Object(members) =>
        PrintedMembersAreTokens(members, true);
        JoinedOne("{", MemberTokens(members, true) + ["}"]);
        JoinedConcat(MemberTokens(members, true), ["}"]);
        JoinedOne("}", []);
    }
  }

  lemma {:induction false} PrintedItemsAreTokens(items: seq<Json>, first: bool)
    ensures PrintedItems(items, first) == Joined(ItemTokens(items, first))
    decreases items, if first then 1 else 2
  {
    hide Printed, Tokens, Joined;
    if items == [] {
      assert Joined([]) == "" by { JoinedNone(); }
    } else if !first {
      PrintedItemsAreTokens(items, true);
      JoinedOne(",", ItemTokens(items, true));
    } else {
      PrintedIsTokens(items[0]);
      PrintedItemsAreTokens(items[1..], false);
      JoinedConcat(Tokens(items[0]), ItemTokens(items[1..], false));
    }
  }

  lemma JoinedNone()
    ensures Joined([]) == ""
  {
  }

  lemma {:induction false} PrintedMembersAreTokens(members: seq<Member>, first: bool)
    ensures PrintedMembers(members, first) == Joined(MemberTokens(members, first))
    decreases members, if first then 1 else 2
  {
    hide Printed, Tokens, Joined, Quoted;
    if members == [] {
      assert Joined([]) == "" by { JoinedNone(); }
    } else if !first {
      PrintedMembersAreTokens(members, true);
      JoinedOne(",", MemberTokens(members, true));
    } else {
      var m, rest := members[0], MemberTokens(members[1..], false);
      assert m in members;
      PrintedIsTokens(m.value);
      PrintedMembersAreTokens(members[1..], false);
      JoinedConcat(Tokens(m.value), rest);
      JoinedOne(":", Tokens(m.value) + rest);
      JoinedOne(Quoted(m.name), [":"] + (Tokens(m.value) + rest));
    }
  }

  /** The pieces without blanks. */
  function Bare(tokens: seq<string>): (r: seq<Piece>)
    ensures |r| == |tokens| && Spells(r, tokens)
  {
    if tokens == [] then [] else [Piece("", tokens[0])] + Bare(tokens[1..])
  }

  lemma {:induction false} WrittenBare(tokens: seq<string>)
    ensures Written(Bare(tokens)) == Joined(tokens)
  {
    if tokens != [] {
      WrittenBare(tokens[1..]);
      assert Bare(tokens)[1..] == Bare(tokens[1..]);
    }
  }

  lemma {:induction false} PrintableIsParsable(v: Json)
    requires Printable(v)
    ensures Parsable(v)
    decreases v
  {
    match v {
      case Array(items) =>
        forall k | 0 <= k < |items| ensures Parsable(items[k]) { PrintableIsParsable(items[k]); }
      case Object(members) =>
        forall k | 0 <= k < |members| ensures Parsable(members[k].value) { PrintableIsParsable(members[k].value); }
      case _ =>
    }
  }

  /** Printing and parsing back mangles the strings and changes nothing else. */
  lemma ParseOfToString(v: Json)
    requires Printable(v)
    ensures ParseText(Printed(v)) == Value(Mangle(v), |Printed(v)|)
  {
    hide Printed, Tokens, Joined, ParseText, Mangle, Bare, Written, Spells;
    PrintableIsParsable(v);
    PrintedIsTokens(v);
    WrittenBare(Tokens(v));
    ParseOfAnyLayout(v, Bare(Tokens(v)), "");
    assert Printed(v) + "" == Printed(v);
  }

  /** The round trip is the identity on exactly the clean values. */
  lemma RoundTripIffClean(v: Json)
    requires Printable(v)
    ensures ParseText(Printed(v)) == Value(v, |Printed(v)|) <==> AllClean(v)
  {
    hide ParseText, Printed, AllClean;
    ParseOfToString(v);
    MangleIsClean(v);
    if AllClean(v) { CleanIsNotMangled(v); }
  }

  /** White space does not matter: from any layout a clean value with its keys in order comes back as it is. */
  lemma AnyLayoutOfClean(v: Json, pieces: seq<Piece>)
    requires Printable(v) && AllClean(v) && Spells(pieces, Tokens(v))
    ensures ParseText(Written(pieces)) == Value(v, |Written(pieces)|)
  {
    hide ParseText, Tokens, AllClean, Spells, Written;
    PrintableIsParsable(v);
    CleanIsNotMangled(v);
    ParseOfAnyLayout(v, pieces, "");
    assert Written(pieces) + "" == Written(pieces);
  }

  // ----- keys that come more than once -----

  /** What an object has under a name: its first member of that name. */
  function Lookup(members: seq<Member>, name: string): Option<Json> {
    if members == [] then None
    else if members[0].name == name then Some(members[0].value)
    else Lookup(members[1..], name)
  }

  lemma {:induction false} LookupInserted(ms: seq<Member>, name: string, value: Json, x: string)
    ensures Lookup(Insert(ms, name, value), x) == if x == name then Some(value) else Lookup(ms, x)
  {
    if ms != [] { LookupInserted(ms[1..], name, value, x); }
  }

  /** No member has the key, as the escape routines leave it. */
  predicate NoneNamed(members: seq<Member>, x: string) {
    forall k :: 0 <= k < |members| ==> Mangled(members[k].name) != x
  }

  lemma {:induction false} OtherNamesStay(members: seq<Member>, acc: seq<Member>, x: string)
    requires NoneNamed(members, x)
    ensures Lookup(MangleMembers(members, acc), x) == Lookup(acc, x)
    decreases members
  {
    hide Mangled, Mangle, Insert, Lookup;
    if members != [] {
      var m := members[0];
      LookupInserted(acc, Mangled(m.name), Mangle(m.value), x);
      OtherNamesStay(members[1..], Insert(acc, Mangled(m.name), Mangle(m.value)), x);
    }
  }

  /** Of the members of a name the last one counts. */
  lemma {:induction false} LastOfNameWins(members: seq<Member>, acc: seq<Member>, k: nat)
    requires k < |members| && NoneNamed(members[k + 1..], Mangled(members[k].name))
    ensures Lookup(MangleMembers(members, acc), Mangled(members[k].name)) == Some(Mangle(members[k].value))
    decreases members
  {
    hide Mangled, Mangle, Insert, Lookup, NoneNamed;
    var m, rest, x := members[0], members[1..], Mangled(members[k].name);
    var acc' := Insert(acc, Mangled(m.name), Mangle(m.value));
    LookupInserted(acc, Mangled(m.name), Mangle(m.value), x);
    if k == 0 {
      OtherNamesStay(rest, acc', x);
    } else {
      assert rest[k - 1] == members[k] && rest[k..] == members[k + 1..];
      LastOfNameWins(rest, acc', k - 1);
    }
  }

  lemma {:induction false} BeforeIsTotal(a: string, b: string)
    ensures Before(a, b) || Before(b, a) || a == b
  {
    if a != "" && b != "" {
      BeforeIsTotal(a[1..], b[1..]);
      assert a == [a[0]] + a[1..] && b == [b[0]] + b[1..];
    }
  }

  lemma {:induction false} BeforeIsTransitive(a: string, b: string, c: string)
    requires Before(a, b) && Before(b, c)
    ensures Before(a, c)
  {
    if a != "" && a[0] == b[0] == c[0] { BeforeIsTransitive(a[1..], b[1..], c[1..]); }
  }

  /** The members stay in the order of their keys, no key twice. */
  lemma {:induction false} InsertKeepsOrder(ms: seq<Member>, name: string, value: Json)
    requires Sorted(ms)
    ensures var r := Insert(ms, name, value);
      Sorted(r) &&
      forall i :: 0 <= i < |r| ==> r[i].name == name || exists j :: 0 <= j < |ms| && ms[j].name == r[i].name
  {
    if ms != [] {
      var rest := Insert(ms[1..], name, value);
      InsertKeepsOrder(ms[1..], name, value);
      BeforeIsTotal(name, ms[0].name);
      forall i | 0 <= i < |rest|
        ensures rest[i].name == name || Before(ms[0].name, rest[i].name)
      {
        if rest[i].name != name {
          var j :| 0 <= j < |ms[1..]| && ms[1..][j].name == rest[i].name;
          assert ms[j + 1].name == rest[i].name;
        }
      }
      if Before(name, ms[0].name) {
        forall i | 1 <= i < |ms|
          ensures Before(name, ms[i].name)
        {
          BeforeIsTransitive(name, ms[0].name, ms[i].name);
        }
      }
    }
  }

  lemma {:induction false} KeysInOrder(members: seq<Member>, acc: seq<Member>)
    requires Sorted(acc)
    ensures Sorted(MangleMembers(members, acc))
    decreases members
  {
    hide Mangled, Mangle, Insert;
    if members != [] {
      var m := members[0];
      InsertKeepsOrder(acc, Mangled(m.name), Mangle(m.value));
      KeysInOrder(members[1..], Insert(acc, Mangled(m.name), Mangle(m.value)));
    }
  }

  // ----- delimiters out of place -----

  predicate BlankOrComma(c: char) { c == ' ' || c == '\t' || c == '\r' || c == '\n' || c == ',' }

  lemma DelimiterAt(b: string, i: nat)
    requires i < |b| && b[i] in "]},:"
    ensures ParseAt(b, i) == Delimiter(b[i], i + 1)
  {
    hide NumberEnd, StringEnd, Matches;
    var c := b[i];
    assert c == ']' || c == '}' || c == ',' || c == ':';
    assert !IsSpace(c) && SkipBlanks(b, i) == i;
    DelimiterMatchesNothing(b, i);
    assert TokenAt(b, i) == (CharToken(c), i + 1);
  }

  lemma DelimiterMatchesNothing(b: string, i: nat)
    requires i < |b| && (b[i] == ']' || b[i] == '}' || b[i] == ',' || b[i] == ':')
    ensures !Matches(b, "null", i) && !Matches(b, "true", i) && !Matches(b, "false", i)
  {
  }

  /** Between the items of an array, and in front of a name, any commas and blanks are the same as none. */
  lemma {:induction false} CommasAreOptional(b: string, i: nat, j: nat, items: seq<Json>, name: string,
                                             members: seq<Member>)
    requires i <= j <= |b| && forall k :: i <= k < j ==> BlankOrComma(b[k])
    ensures ParseItems(b, i, items) == ParseItems(b, j, items)
    ensures ParseMembers(b, i, 0, name, members) == ParseMembers(b, j, 0, name, members)
    decreases j - i
  {
    hide TokenAt, ParseAt;
    if i < j {
      if b[i] == ',' {
        assert b[i] in "]},:";
        DelimiterAt(b, i);
      } else {
        ParseSkipsBlanks(b, [b[i]], i);
      }
      CommasAreOptional(b, i + 1, j, items, name, members);
    }
  }

  /** A delimiter that does not belong there is an exception. */
  lemma WrongDelimiter(b: string, i: nat, items: seq<Json>, name: string, members: seq<Member>)
    requires i < |b|
    ensures b[i] == '}' || b[i] == ':' ==> ParseItems(b, i, items) == Failed(Thrown)
    ensures b[i] == ']' || b[i] == ':' ==> ParseMembers(b, i, 0, name, members) == Failed(Thrown)
    ensures b[i] == ']' || b[i] == '}' || b[i] == ',' ==> ParseMembers(b, i, 1, name, members) == Failed(Thrown)
    ensures b[i] in "]},:" ==> ParseMembers(b, i, 2, name, members) == Failed(Thrown)
  {
    hide TokenAt, ParseAt;
    assert forall c :: c in "]},:" <==> c == ']' || c == '}' || c == ',' || c == ':';
    if b[i] in "]},:" { DelimiterAt(b, i); }
  }
}
