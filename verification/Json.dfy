/** Json values, the text ToString prints and what Parse reads back. */
module Json {
  import opened JsonEscape
  import opened Words

  /** TYPE_REAL is not modelled; an object is the std::map in key order. */
  datatype Json =
    | Null
    | Integer(i: int)
    | Text(s: string)
    | Boolean(b: bool)
    | Array(items: seq<Json>)
    | Object(members: seq<Member>)

  datatype Member = Member(name: string, value: Json)

  const INT_MIN: int := -0x8000_0000
  const INT_MAX: int := 0x7fff_ffff

  // ----- the key order of std::map -----

  predicate Before(a: string, b: string) {
    b != "" && (a == "" || a[0] < b[0] || (a[0] == b[0] && Before(a[1..], b[1..])))
  }

  lemma {:induction false} BeforeIsStrict(a: string, b: string)
    ensures !(Before(a, b) && Before(b, a))
    ensures !Before(a, a)
  {
    if a != "" {
      BeforeIsStrict(a[1..], if b == "" then "" else b[1..]);
    }
  }

  ghost predicate Sorted(ms: seq<Member>) {
    forall i, j :: 0 <= i < j < |ms| ==> Before(ms[i].name, ms[j].name)
  }

  /** m_object[name] = value */
  function Insert(ms: seq<Member>, name: string, value: Json): seq<Member> {
    if ms == [] then [Member(name, value)]
    else if ms[0].name == name then [Member(name, value)] + ms[1..]
    else if Before(name, ms[0].name) then [Member(name, value)] + ms
    else [ms[0]] + Insert(ms[1..], name, value)
  }

  lemma {:induction false} InsertLast(ms: seq<Member>, name: string, value: Json)
    requires forall i :: 0 <= i < |ms| ==> Before(ms[i].name, name)
    ensures Insert(ms, name, value) == ms + [Member(name, value)]
  {
    if ms != [] {
      BeforeIsStrict(ms[0].name, name);
      InsertLast(ms[1..], name, value);
    }
  }

  // ----- printing -----

  /** Utility::l2string */
  function Decimal(i: int): string {
    if i < 0 then "-" + DecimalNat(-i) else DecimalNat(i)
  }

  function Quoted(s: string): string { "\"" + Encoded(s) + "\"" }

  function Printed(v: Json): string
    decreases v
  {
    match v
    case Null => "null"
    case Integer(i) => Decimal(i)
    case Text(s) => Quoted(s)
    case Boolean(b) => if b then "true" else "false"
    case Array(items) => "[" + PrintedItems(items, true) + "]"
    case Object(members) => "{" + PrintedMembers(members, true) + "}"
  }

  function PrintedItems(items: seq<Json>, first: bool): string
    decreases items, if first then 0 else 1
  {
    if items == [] then ""
    else if !first then "," + PrintedItems(items, true)
    else Printed(items[0]) + PrintedItems(items[1..], false)
  }

  function PrintedMember(m: Member): string
    decreases m
  {
    Quoted(m.name) + (":" + Printed(m.value))
  }

  function PrintedMembers(members: seq<Member>, first: bool): string
    decreases members, if first then 0 else 1
  {
    if members == [] then ""
    else if !first then "," + PrintedMembers(members, true)
    else PrintedMember(members[0]) + PrintedMembers(members[1..], false)
  }

  lemma PrintedItemsFrom(items: seq<Json>, k: nat)
    requires k < |items|
    ensures PrintedItems(items[k..], true) == Printed(items[k]) + PrintedItems(items[k + 1..], false)
    ensures PrintedItems(items[k..], false) == "," + PrintedItems(items[k..], true)
  {
    hide Printed;
    assert items[k..][1..] == items[k + 1..];
  }

  lemma PrintedMembersFrom(members: seq<Member>, k: nat)
    requires k < |members|
    ensures PrintedMembers(members[k..], true) == PrintedMember(members[k]) + PrintedMembers(members[k + 1..], false)
    ensures PrintedMembers(members[k..], false) == "," + PrintedMembers(members[k..], true)
  {
    hide PrintedMember;
    assert members[k..][1..] == members[k + 1..];
  }

  method ToString(v: Json) returns (text: string)
    ensures text == Printed(v)
    decreases v, 1
  {
    match v {
      case Null => text := "null";
      case Integer(i) => text := Decimal(i);
      case Text(s) =>
        var e := Encode(s);
        text := "\"" + e + "\"";
      case Boolean(b) => text := if b then "true" else "false";
      case Array(items) =>
        text := ArrayToString(items);
        text := "[" + text + "]";
      case Object(members) =>
        text := ObjectToString(members);
        text := "{" + text + "}";
    }
  }

  method ArrayToString(items: seq<Json>) returns (text: string)
    ensures text == PrintedItems(items, true)
    decreases items, 0
  {
    hide Printed;
    var first := true;
    text := "";
    var k := 0;
    assert items[0..] == items;
    while k < |items|
      invariant 0 <= k <= |items|
      invariant text + PrintedItems(items[k..], first) == PrintedItems(items, true)
    {
      hide PrintedItems;
      PrintedItemsFrom(items, k);
      if !first {
        text := text + ",";
      }
      var item := ToString(items[k]);
      text := text + item;
      first := false;
      k := k + 1;
    }
  }

  method ObjectToString(members: seq<Member>) returns (text: string)
    ensures text == PrintedMembers(members, true)
    decreases members, 0
  {
    var first := true;
    text := "";
    var k := 0;
    assert members[0..] == members;
    while k < |members|
      invariant 0 <= k <= |members|
      invariant text + PrintedMembers(members[k..], first) == PrintedMembers(members, true)
    {
      hide PrintedMembers, PrintedMember, Printed;
      PrintedMembersFrom(members, k);
      if !first {
        text := text + ",";
      }
      assert members[k] in members;
      var member := MemberToString(members[k]);
      text := text + member;
      first := false;
      k := k + 1;
    }
  }

  method MemberToString(m: Member) returns (text: string)
    ensures text == PrintedMember(m)
    decreases m, 0
  {
    hide Printed;
    var name := Encode(m.name);
    var value := ToString(m.value);
    text := "\"" + name + "\"" + (":" + value);
  }

  // ----- tokens -----

  function SkipBlanks(b: string, i: nat): (j: nat)
    requires i <= |b|
    ensures i <= j <= |b|
    decreases |b| - i
  {
    if IsSpace(CharAt(b, i)) then SkipBlanks(b, i + 1) else i
  }

  function NumberEnd(b: string, i: nat): (j: nat)
    requires i <= |b|
    ensures i <= j <= |b|
    decreases |b| - i
  {
    if IsDigit(CharAt(b, i)) || CharAt(b, i) == '.' then NumberEnd(b, i + 1) else i
  }

  /** Where the string scan stops: an unescaped quote, or the NUL. */
  function StringEnd(b: string, i: nat, ign: bool): (j: nat)
    requires i <= |b|
    ensures i <= j <= |b|
    decreases |b| - i
  {
    var c := CharAt(b, i);
    if c == NUL || (!ign && c == QUOTE) then i
    else StringEnd(b, i + 1, !ign && c == BACKSLASH)
  }

  datatype Token =
    | IntegerToken(ord: string)
    | RealToken(ord: string)
    | StringToken(ord: string)
    | NullToken
    | BooleanToken(b: bool)
    | CharToken(c: char)

  function TokenAt(b: string, index: nat): (r: (Token, nat))
    requires index <= |b|
    ensures index < r.1 <= |b| + 1
  {
    var i := SkipBlanks(b, index);
    var c := CharAt(b, i);
    if c == '-' || IsDigit(c) then
      var j := NumberEnd(b, if c == '-' then i + 1 else i);
      var ord := b[i..j];
      (if '.' in ord then RealToken(ord) else IntegerToken(ord), j)
    else if c == QUOTE then
      var j := StringEnd(b, i + 1, false);
      (StringToken(Decoded(b[i + 1..j])), j + 1)
    else if Matches(b, "null", i) then (NullToken, i + 4)
    else if Matches(b, "true", i) then (BooleanToken(true), i + 4)
    else if Matches(b, "false", i) then (BooleanToken(false), i + 5)
    else (CharToken(c), i + 1)
  }

  /** The digits of a number, noting whether a dot was among them. */
  method ScanNumber(buffer: string, x: nat, from: nat) returns (index: nat, dot: bool)
    requires x <= from <= |buffer| && '.' !in buffer[x..from]
    ensures index == NumberEnd(buffer, from)
    ensures dot <==> '.' in buffer[x..index]
  {
    index, dot := from, false;
    while IsDigit(CharAt(buffer, index)) || CharAt(buffer, index) == '.'
      invariant from <= index <= |buffer|
      invariant NumberEnd(buffer, index) == NumberEnd(buffer, from)
      invariant dot <==> '.' in buffer[x..index]
      decreases |buffer| - index
    {
      if CharAt(buffer, index) == '.' {
        dot := true;
      }
      assert buffer[x..index + 1] == buffer[x..index] + [buffer[index]];
      index := index + 1;
    }
  }

  /** The body of a string up to its closing quote. */
  method ScanString(buffer: string, x: nat) returns (index: nat)
    requires x <= |buffer|
    ensures index == StringEnd(buffer, x, false)
  {
    var ign := false;
    index := x;
    while CharAt(buffer, index) != NUL && (ign || CharAt(buffer, index) != QUOTE)
      invariant x <= index <= |buffer|
      invariant StringEnd(buffer, index, ign) == StringEnd(buffer, x, false)
      decreases |buffer| - index
    {
      if ign {
        ign := false;
      } else if CharAt(buffer, index) == BACKSLASH {
        ign := true;
      }
      index := index + 1;
    }
  }

  method PassBlanks(buffer: string, start: nat) returns (index: nat)
    requires start <= |buffer|
    ensures index == SkipBlanks(buffer, start)
  {
    index := start;
    while IsSpace(CharAt(buffer, index))
      invariant start <= index <= |buffer|
      invariant SkipBlanks(buffer, index) == SkipBlanks(buffer, start)
      decreases |buffer| - index
    {
      index := index + 1;
    }
  }

  method NextToken(buffer: string, start: nat) returns (token: Token, index: nat)
    requires start <= |buffer|
    ensures (token, index) == TokenAt(buffer, start)
  {
    hide SkipBlanks, NumberEnd, StringEnd, Decoded, Matches;
    index := PassBlanks(buffer, start);
    var x := index;
    var c := CharAt(buffer, index);
    if c == '-' || IsDigit(c) {
      var dot;
      index, dot := ScanNumber(buffer, x, if c == '-' then x + 1 else x);
      token := if dot then RealToken(buffer[x..index]) else IntegerToken(buffer[x..index]);
    } else if c == QUOTE {
      index := ScanString(buffer, x + 1);
      var ord := Decode(buffer[x + 1..index]);
      index := index + 1;
      token := StringToken(ord);
    } else if Matches(buffer, "null", index) {
      index := index + 4;
      token := NullToken;
    } else if Matches(buffer, "true", index) {
      index := index + 4;
      token := BooleanToken(true);
    } else if Matches(buffer, "false", index) {
      index := index + 5;
      token := BooleanToken(false);
    } else {
      token := CharToken(c);
      index := index + 1;
    }
  }

  // ----- parsing -----

  function AtoI(s: string): int {
    if s != "" && s[0] == '-' then -(DigitsValue(s[1..]) as int) else DigitsValue(s)
  }

  /** As a signed char such a byte is a negated type code, from TYPE_UNKNOWN to TYPE_BOOLEAN, and is
      taken for a value of that kind; the type itself stays unknown. */
  predicate NegatesType(c: char) { 251 as char <= c <= 255 as char }

  /** Ways a call of Parse ends without a value. Only `Thrown` is defined behaviour of the
      library; the others stand for input it does not handle or this model leaves out. */
  datatype Failure = Thrown | RealNumber | IntegerRange | PastEnd

  datatype Outcome =
    | Value(v: Json, next: nat)
    | Delimiter(c: char, next: nat)
    | Failed(why: Failure)

  ghost predicate Advances(o: Outcome, b: string, i: nat) {
    !o.Failed? ==> i < o.next <= |b| + 1
  }

  function Leaf(t: Token, next: nat): Outcome
    requires !t.CharToken?
  {
    match t
    case IntegerToken(ord) =>
      if INT_MIN <= AtoI(ord) <= INT_MAX then Value(Integer(AtoI(ord)), next) else Failed(IntegerRange)
    case RealToken(_) => Failed(RealNumber)
    case StringToken(ord) => Value(Text(ord), next)
    case NullToken => Value(Null, next)
    case BooleanToken(b) => Value(Boolean(b), next)
  }

  function ParseAt(b: string, i: nat): (o: Outcome)
    requires i <= |b| + 1
    ensures Advances(o, b, i)
    decreases |b| + 1 - i, 0
  {
    if i > |b| then Failed(PastEnd)
    else
      var (t, j) := TokenAt(b, i);
      if !t.CharToken? then Leaf(t, j)
      else if t.c == '[' then ParseItems(b, j, [])
      else if t.c == '{' then ParseMembers(b, j, 0, "", [])
      else if t.c == ']' || t.c == '}' || t.c == ',' || t.c == ':' then Delimiter(t.c, j)
      else if NegatesType(t.c) then Value(Null, j)
      else Failed(Thrown)
  }

  function ParseItems(b: string, i: nat, acc: seq<Json>): (o: Outcome)
    requires i <= |b| + 1
    ensures Advances(o, b, i)
    decreases |b| + 1 - i, 1
  {
    match ParseAt(b, i)
    case Failed(why) => Failed(why)
    case Value(v, n) => ParseItems(b, n, acc + [v])
    case Delimiter(c, n) =>
      if c == ']' then Value(Array(acc), n)
      else if c == ',' then ParseItems(b, n, acc)
      else Failed(Thrown)
  }

  /** state 0 wants a name, 1 the colon, 2 the value. */
  function ParseMembers(b: string, i: nat, state: nat, name: string, acc: seq<Member>): (o: Outcome)
    requires i <= |b| + 1
    ensures Advances(o, b, i)
    decreases |b| + 1 - i, 1
  {
    match ParseAt(b, i)
    case Failed(why) => Failed(why)
    case Value(v, n) =>
      if state == 0 && v.Text? then ParseMembers(b, n, 1, v.s, acc)
      else if state != 0 && state != 1 then ParseMembers(b, n, 0, name, Insert(acc, name, v))
      else Failed(Thrown)
    case Delimiter(c, n) =>
      if state == 0 && c == ',' then ParseMembers(b, n, 0, name, acc)
      else if state == 0 && c == '}' then Value(Object(acc), n)
      else if state == 1 && c == ':' then ParseMembers(b, n, 2, name, acc)
      else Failed(Thrown)
  }

  method Parse(buffer: string, index: nat) returns (o: Outcome)
    requires index <= |buffer| + 1
    ensures o == ParseAt(buffer, index)
    decreases |buffer| + 1 - index
  {
    if index > |buffer| {
      return Failed(PastEnd);
    }
    var token, i := NextToken(buffer, index);
    if !token.CharToken? {
      o := Leaf(token, i);
    } else if token.c == '[' {
      var items := [];
      ghost var whole := ParseItems(buffer, i, []);
      while true
        invariant index < i <= |buffer| + 1
        invariant ParseItems(buffer, i, items) == whole
        decreases |buffer| + 1 - i
      {
        var res := Parse(buffer, i);
        match res {
          case Failed(why) => return Failed(why);
          case Value(v, n) => items := items + [v]; i := n;
          case Delimiter(c, n) =>
            if c == ']' {
              return Value(Array(items), n);
            } else if c == ',' {
              i := n;
            } else {
              return Failed(Thrown);
            }
        }
      }
    } else if token.c == '{' {
      var state, name, members := 0, "", [];
      ghost var whole := ParseMembers(buffer, i, 0, "", []);
      while true
        invariant index < i <= |buffer| + 1 && 0 <= state <= 2
        invariant ParseMembers(buffer, i, state, name, members) == whole
        decreases |buffer| + 1 - i
      {
        var res := Parse(buffer, i);
        if res.Failed? {
          return res;
        }
        if state == 0 {
          if res.Delimiter? && res.c == '}' {
            return Value(Object(members), res.next);
          } else if res.Delimiter? && res.c == ',' {
          } else if res.Delimiter? || !res.v.Text? {
            return Failed(Thrown);
          } else {
            name, state := res.v.s, 1;
          }
        } else if state == 1 {
          if !(res.Delimiter? && res.c == ':') {
            return Failed(Thrown);
          }
          state := 2;
        } else {
          if res.Delimiter? {
            return Failed(Thrown);
          }
          members, state := Insert(members, name, res.v), 0;
        }
        i := res.next;
      }
    } else if token.c == ']' || token.c == '}' || token.c == ',' || token.c == ':' {
      o := Delimiter(token.c, i);
    } else if NegatesType(token.c) {
      o := Value(Null, i);
    } else {
      o := Failed(Thrown);
    }
  }

  /** No token but a single character begins here, and it is no blank and no delimiter. */
  predicate StartsNothing(b: string, i: nat)
    requires i < |b|
  {
    && !IsSpace(b[i]) && !IsDigit(b[i]) && b[i] != QUOTE
    && b[i] !in "-[]{},:"
    && !Matches(b, "null", i) && !Matches(b, "true", i) && !Matches(b, "false", i)
  }

  /** Where nothing begins Parse throws, unless the byte is a negated type code: then it is a null. */
  lemma StrayByte(b: string, i: nat)
    requires i < |b| && StartsNothing(b, i)
    ensures ParseAt(b, i) == if 251 <= b[i] as int <= 255 then Value(Null, i + 1) else Failed(Thrown)
  {
    hide Matches, NumberEnd, StringEnd;
    assert forall c :: c in "-[]{},:" <==>
      c == '-' || c == '[' || c == ']' || c == '{' || c == '}' || c == ',' || c == ':';
    assert SkipBlanks(b, i) == i;
    assert TokenAt(b, i) == (CharToken(b[i]), i + 1);
  }

  // ----- what survives printing and parsing -----

  predicate NulFree(s: string) { forall i :: 0 <= i < |s| ==> s[i] != NUL }

  /** The values the round trip is about: int-sized numbers, no NUL in a string, keys in map order. */
  ghost predicate Printable(v: Json)
    decreases v
  {
    match v
    case Integer(i) => INT_MIN <= i <= INT_MAX
    case Text(s) => NulFree(s)
    case Array(items) => forall k :: 0 <= k < |items| ==> Printable(items[k])
    case Object(members) =>
      Sorted(members) &&
      forall k :: 0 <= k < |members| ==> NulFree(members[k].name) && Printable(members[k].value)
    case _ => true
  }

  /** `v` with every string and key mangled by the escape routines; keys that collide overwrite. */
  function Mangle(v: Json): Json
    decreases v
  {
    match v
    case Text(s) => Text(Mangled(s))
    case Array(items) => Array(MangleItems(items))
    case Object(members) => Object(MangleMembers(members, []))
    case _ => v
  }

  function MangleItems(items: seq<Json>): (r: seq<Json>)
    ensures |r| == |items|
    ensures forall k :: 0 <= k < |items| ==> r[k] == Mangle(items[k])
    decreases items
  {
    if items == [] then [] else [Mangle(items[0])] + MangleItems(items[1..])
  }

  function MangleMembers(members: seq<Member>, acc: seq<Member>): seq<Member>
    decreases members
  {
    if members == [] then acc
    else MangleMembers(members[1..], Insert(acc, Mangled(members[0].name), Mangle(members[0].value)))
  }

  // -- matching pieces of the buffer

  lemma MatchesSplit(b: string, x: string, y: string, i: nat)
    requires Matches(b, x + y, i)
    ensures Matches(b, x, i) && Matches(b, y, i + |x|)
  {
    assert b[i..i + |x|] == b[i..i + |x + y|][..|x|];
    assert b[i + |x|..i + |x| + |y|] == b[i..i + |x + y|][|x|..];
    assert (x + y)[..|x|] == x && (x + y)[|x|..] == y;
  }

  lemma MatchesHead(b: string, x: string, i: nat)
    requires x != "" && Matches(b, x, i)
    ensures i < |b| && b[i] == x[0]
  {
    assert b[i] == b[i..i + |x|][0];
  }

  // -- strings

  lemma StringEndOfEscape(b: string, c: char, i: nat)
    requires c != NUL && Matches(b, Escape(c, 4), i)
    ensures StringEnd(b, i, false) == StringEnd(b, i + |Escape(c, 4)|, false)
  {
    var e := Escape(c, 4);
    assert b[i..i + |e|] == e;
    assert b[i] == e[0] && (|e| == 2 ==> b[i + 1] == e[1]);
    if |e| == 2 {
      assert StringEnd(b, i, false) == StringEnd(b, i + 1, true) == StringEnd(b, i + 2, false);
    }
  }

  /** The scan for the closing quote passes over the escaped text and stops at its end. */
  lemma {:induction false} StringEndOfEscaped(b: string, s: string, i: nat)
    requires NulFree(s) && Matches(b, Escaped(s, 4) + "\"", i)
    ensures StringEnd(b, i, false) == i + |Escaped(s, 4)|
  {
    if s == "" {
      MatchesHead(b, Escaped(s, 4) + "\"", i);
    } else {
      hide StringEnd, Matches, Escape;
      var e, t := Escape(s[0], 4), Escaped(s[1..], 4) + "\"";
      assert Escaped(s, 4) + "\"" == e + t;
      MatchesSplit(b, e, t, i);
      StringEndOfEscaped(b, s[1..], i + |e|);
      StringEndOfEscape(b, s[0], i);
    }
  }

  lemma TokenOfQuoted(b: string, s: string, i: nat)
    requires NulFree(s) && Matches(b, Quoted(s), i)
    ensures TokenAt(b, i) == (StringToken(Mangled(s)), i + |Quoted(s)|)
  {
    hide Encoded, Decoded, Mangled, Escaped, StringEnd, NumberEnd, NulFree;
    EncodedEscapesEachCharacter(s);
    DecodeAfterEncode(s);
    var e := Encoded(s);
    assert Quoted(s) == "\"" + (e + "\"");
    MatchesHead(b, Quoted(s), i);
    MatchesSplit(b, "\"", e + "\"", i);
    MatchesSplit(b, e, "\"", i + 1);
    StringEndOfEscaped(b, s, i + 1);
    assert b[i + 1..i + 1 + |e|] == e;
  }

  // -- numbers

  lemma {:induction false} NumberEndOfDigits(b: string, s: string, i: nat)
    requires Matches(b, s, i)
    requires forall k :: 0 <= k < |s| ==> IsDigit(s[k])
    requires !IsDigit(CharAt(b, i + |s|)) && CharAt(b, i + |s|) != '.'
    ensures NumberEnd(b, i) == i + |s|
  {
    if s != "" {
      MatchesHead(b, s, i);
      assert s == [s[0]] + s[1..];
      MatchesSplit(b, [s[0]], s[1..], i);
      NumberEndOfDigits(b, s[1..], i + 1);
    }
  }

  lemma TokenOfNat(b: string, n: nat, i: nat)
    requires Matches(b, DecimalNat(n), i) && EndsNumber(CharAt(b, i + |DecimalNat(n)|))
    ensures TokenAt(b, i) == (IntegerToken(DecimalNat(n)), i + |DecimalNat(n)|)
  {
    hide DecimalNat, DigitsValue, NumberEnd, StringEnd;
    var d := DecimalNat(n);
    DecimalNatIsDigits(n);
    MatchesHead(b, d, i);
    NumberEndOfDigits(b, d, i);
    assert b[i..i + |d|] == d;
  }

  lemma TokenOfNegative(b: string, n: nat, i: nat)
    requires Matches(b, "-" + DecimalNat(n), i) && EndsNumber(CharAt(b, i + 1 + |DecimalNat(n)|))
    ensures TokenAt(b, i) == (IntegerToken("-" + DecimalNat(n)), i + 1 + |DecimalNat(n)|)
  {
    hide DecimalNat, DigitsValue, NumberEnd, StringEnd;
    var d := DecimalNat(n);
    DecimalNatIsDigits(n);
    MatchesHead(b, "-" + d, i);
    MatchesSplit(b, "-", d, i);
    NumberEndOfDigits(b, d, i + 1);
    assert b[i..i + 1 + |d|] == "-" + d;
  }

  lemma AtoIOfDecimal(n: int)
    ensures AtoI(Decimal(n)) == n
  {
    hide DecimalNat, DigitsValue;
    DecimalNatIsDigits(if n < 0 then -n else n);
    if n < 0 { assert Decimal(n)[1..] == DecimalNat(-n); }
  }

  lemma TokenOfDecimal(b: string, n: int, i: nat)
    requires Matches(b, Decimal(n), i)
    requires EndsNumber(CharAt(b, i + |Decimal(n)|))
    ensures TokenAt(b, i) == (IntegerToken(Decimal(n)), i + |Decimal(n)|)
    ensures AtoI(Decimal(n)) == n
  {
    hide DecimalNat, TokenAt, AtoI, Matches, EndsNumber;
    AtoIOfDecimal(n);
    if n < 0 { TokenOfNegative(b, -n, i); } else { TokenOfNat(b, n, i); }
  }

  // -- the theorem

  predicate EndsNumber(c: char) { !IsDigit(c) && c != '.' }

  lemma NoWord(b: string, word: string, i: nat)
    requires word != "" && i < |b| && b[i] != word[0]
    ensures !Matches(b, word, i)
  {
    if i + |word| <= |b| {
      assert b[i..i + |word|][0] == b[i];
    }
  }

  lemma TokenOfWord(b: string, i: nat)
    ensures Matches(b, "null", i) ==> TokenAt(b, i) == (NullToken, i + 4)
    ensures Matches(b, "true", i) ==> TokenAt(b, i) == (BooleanToken(true), i + 4)
    ensures Matches(b, "false", i) ==> TokenAt(b, i) == (BooleanToken(false), i + 5)
  {
    forall w | w in ["null", "true", "false"] && Matches(b, w, i) ensures i < |b| && b[i] == w[0] {
      MatchesHead(b, w, i);
    }
    if i < |b| {
      forall w | w in ["null", "true", "false"] && b[i] != w[0] ensures !Matches(b, w, i) {
        NoWord(b, w, i);
      }
    }
  }

  lemma TokenOfDelimiter(b: string, c: char, rest: string, i: nat)
    requires c == '[' || c == ']' || c == '{' || c == '}' || c == ',' || c == ':'
    requires Matches(b, [c] + rest, i)
    ensures TokenAt(b, i) == (CharToken(c), i + 1)
    ensures Matches(b, rest, i + 1)
  {
    MatchesHead(b, [c] + rest, i);
    MatchesSplit(b, [c], rest, i);
    NoWord(b, "null", i);
    NoWord(b, "true", i);
    NoWord(b, "false", i);
  }

  /** A comma before the next element or member is skipped, a bracket ends the list. */
  lemma ParseSeparator(b: string, c: char, rest: string, i: nat, name: string, items: seq<Json>, members: seq<Member>)
    requires c == ',' || c == ']' || c == '}'
    requires Matches(b, [c] + rest, i)
    ensures Matches(b, rest, i + 1) && i + 1 <= |b|
    ensures c == ',' ==> ParseItems(b, i, items) == ParseItems(b, i + 1, items)
    ensures c == ',' ==> ParseMembers(b, i, 0, name, members) == ParseMembers(b, i + 1, 0, name, members)
    ensures c == ']' ==> ParseItems(b, i, items) == Value(Array(items), i + 1)
    ensures c == '}' ==> ParseMembers(b, i, 0, name, members) == Value(Object(members), i + 1)
  {
    hide TokenAt;
    TokenOfDelimiter(b, c, rest, i);
    assert ParseAt(b, i) == Delimiter(c, i + 1);
  }

  lemma MangleFirstItem(items: seq<Json>)
    requires items != []
    ensures MangleItems(items) == [Mangle(items[0])] + MangleItems(items[1..])
  {}

  lemma MangleFirstMember(ms: seq<Member>, acc: seq<Member>)
    requires ms != []
    ensures MangleMembers(ms, acc)
         == MangleMembers(ms[1..], Insert(acc, Mangled(ms[0].name), Mangle(ms[0].value)))
  {}

  /** Json::Parse on a whole text: a lone delimiter leaves the fresh object untouched. */
  function ParseText(data: string): Outcome {
    match ParseAt(data, 0)
    case Delimiter(_, n) => Value(Null, n)
    case o => o
  }

  /** Every string and key of `v` is free of backslash-r and backslash-n. */
  ghost predicate AllClean(v: Json)
    decreases v
  {
    match v
    case Text(s) => Clean(s)
    case Array(items) => forall k :: 0 <= k < |items| ==> AllClean(items[k])
    case Object(members) => forall k :: 0 <= k < |members| ==> Clean(members[k].name) && AllClean(members[k].value)
    case _ => true
  }

  ghost predicate CleanMembers(ms: seq<Member>) {
    forall k :: 0 <= k < |ms| ==> Clean(ms[k].name) && AllClean(ms[k].value)
  }

  lemma {:induction false} InsertKeepsClean(ms: seq<Member>, name: string, value: Json)
    requires CleanMembers(ms) && Clean(name) && AllClean(value)
    ensures CleanMembers(Insert(ms, name, value))
  {
    if ms != [] {
      InsertKeepsClean(ms[1..], name, value);
    }
  }

  lemma {:induction false} MangleIsClean(v: Json)
    ensures AllClean(Mangle(v))
    decreases v
  {
    match v {
      case Text(s) => MangledIsClean(s);
      case Array(items) =>
        forall k | 0 <= k < |items| ensures AllClean(Mangle(items[k])) {
          MangleIsClean(items[k]);
        }
      case Object(members) => MangleMembersIsClean(members, []);
      case _ =>
    }
  }

  lemma {:induction false} MangleMembersIsClean(ms: seq<Member>, acc: seq<Member>)
    requires CleanMembers(acc)
    ensures CleanMembers(MangleMembers(ms, acc))
    decreases ms
  {
    if ms != [] {
      assert ms[0] in ms;
      MangledIsClean(ms[0].name);
      MangleIsClean(ms[0].value);
      InsertKeepsClean(acc, Mangled(ms[0].name), Mangle(ms[0].value));
      MangleMembersIsClean(ms[1..], Insert(acc, Mangled(ms[0].name), Mangle(ms[0].value)));
    }
  }

  lemma {:induction false} CleanIsNotMangled(v: Json)
    requires Printable(v) && AllClean(v)
    ensures Mangle(v) == v
    decreases v
  {
    match v {
      case Text(s) => MangledKeepsExactlyCleanStrings(s);
      case Array(items) =>
        forall k | 0 <= k < |items| ensures Mangle(items[k]) == items[k] {
          CleanIsNotMangled(items[k]);
        }
        assert MangleItems(items) == items;
      case Object(members) =>
        CleanMembersNotMangled(members, 0);
        assert members[..0] == [] && members[0..] == members;
      case _ =>
    }
  }

  lemma {:induction false} CleanMembersNotMangled(ms: seq<Member>, n: nat)
    requires n <= |ms| && Sorted(ms) && CleanMembers(ms)
    requires forall k :: 0 <= k < |ms| ==> Printable(ms[k].value)
    ensures MangleMembers(ms[n..], ms[..n]) == ms
    decreases ms, |ms| - n
  {
    if n < |ms| {
      var m := ms[n];
      assert m in ms;
      MangledKeepsExactlyCleanStrings(m.name);
      CleanIsNotMangled(m.value);
      InsertLast(ms[..n], m.name, m.value);
      assert ms[n..][1..] == ms[n + 1..];
      assert ms[..n] + [Member(m.name, m.value)] == ms[..n + 1];
      CleanMembersNotMangled(ms, n + 1);
    } else {
      assert ms[..n] == ms && ms[n..] == [];
    }
  }
}
