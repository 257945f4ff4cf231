/** Base64: groups of three bytes as four characters, in lines of 76 if asked for. */
module Base64 {
  import opened Bytes

  const NEWLINE: byte := 10
  const RETURN: byte := 13
  const PAD: byte := 61

  /** The table bstr. */
  function Char(v: nat): (c: byte)
    requires v < 64
    ensures c < 128 && c != NEWLINE && c != RETURN && c != PAD && Value(c) == v
  {
    if v < 26 then 65 + v
    else if v < 52 then 71 + v
    else if v < 62 then v - 4
    else if v == 62 then 43 else 47
  }

  /** The table rstr. */
  function Value(c: byte): (v: nat)
    requires c < 128
    ensures v < 64
  {
    if 65 <= c <= 90 then c - 65
    else if 97 <= c <= 122 then c - 71
    else if 48 <= c <= 57 then c + 4
    else if c == 43 then 62
    else if c == 47 then 63
    else 0
  }

  const CAPITALS: string := "ABCDEFGHIJKLMNOPQRSTUVWXYZ"
  const SMALLS: string := "abcdefghijklmnopqrstuvwxyz"
  const NUMBERS: string := "0123456789"
  const ALPHABET: string := CAPITALS + SMALLS + NUMBERS + "+/"

  /** The tables hold the alphabet of RFC 4648, section 4; any other character counts as nothing. */
  lemma TableIsAlphabet(v: nat, c: byte)
    requires v < 64 && c < 128
    ensures Char(v) == ALPHABET[v] as int && Value(ALPHABET[v] as int) == v
    ensures c as char !in ALPHABET ==> Value(c) == 0
  {
    if Value(c) != 0 || c == 65 {
      assert Char(Value(c)) == c;
      LetterOf(Value(c));
    }
    LetterOf(v);
  }

  lemma LetterOf(v: nat)
    requires v < 64
    ensures Char(v) == ALPHABET[v] as int
  {
    assert forall i :: 0 <= i < 26 ==> CAPITALS[i] == 'A' + i as char && SMALLS[i] == 'a' + i as char;
    assert forall i :: 0 <= i < 10 ==> NUMBERS[i] == '0' + i as char;
  }

  function Letter(v: nat): (c: byte)
    requires v < 64
    ensures c == Char(v)
  {
    LetterOf(v);
    ALPHABET[v] as int
  }

  /** One to three bytes. */
  function Group(s: bytes): (g: bytes)
    requires 1 <= |s| <= 3
    ensures |g| == 4 && g[0] < 128 && g[1] < 128 && g[2] < 128 && g[3] < 128
    ensures forall i :: 0 <= i < 4 ==> g[i] != NEWLINE && g[i] != RETURN
    ensures (g[2] == PAD <==> |s| == 1) && (g[3] == PAD <==> |s| <= 2)
  {
    if |s| == 1 then [Char(s[0] / 4), Char(s[0] % 4 * 16), PAD, PAD]
    else if |s| == 2 then [Char(s[0] / 4), Char(s[0] % 4 * 16 + s[1] / 16), Char(s[1] % 16 * 4), PAD]
    else [Char(s[0] / 4), Char(s[0] % 4 * 16 + s[1] / 16), Char(s[1] % 16 * 4 + s[2] / 64), Char(s[2] % 64)]
  }

  /** A group of bytes, with zeros for those that are missing, as a number of 24 bits. */
  function Number(s: bytes): nat
    requires 1 <= |s| <= 3
  {
    var (a, b, c) := (s[0] as int, if |s| > 1 then s[1] as int else 0, if |s| > 2 then s[2] as int else 0);
    (a * 256 + b) * 256 + c
  }

  /** The characters of a group are the digits of its number to the base 64, as many as it needs; pads follow. */
  lemma GroupIsNumber(s: bytes, v0: nat, v1: nat, v2: nat, v3: nat)
    requires 1 <= |s| <= 3 && v0 < 64 && v1 < 64 && v2 < 64 && v3 < 64
    requires Number(s) == ((v0 * 64 + v1) * 64 + v2) * 64 + v3
    ensures var w, x, y, z := Letter(v0), Letter(v1), Letter(v2), Letter(v3);
      Group(s) == match |s|
        case 1 => [w, x, '=' as int, '=' as int]
        case 2 => [w, x, y, '=' as int]
        case _ => [w, x, y, z]
  {
    hide Char, Letter;
    DigitsOf(s[0], if |s| > 1 then s[1] else 0, if |s| > 2 then s[2] else 0, v0, v1, v2, v3);
  }

  lemma DigitsOf(a: int, b: int, c: int, v0: int, v1: int, v2: int, v3: int)
    requires 0 <= b < 256 && 0 <= c < 256 && 0 <= v1 < 64 && 0 <= v2 < 64 && 0 <= v3 < 64
    requires (a * 256 + b) * 256 + c == ((v0 * 64 + v1) * 64 + v2) * 64 + v3
    ensures v0 == a / 4 && v1 == a % 4 * 16 + b / 16 && v2 == b % 16 * 4 + c / 64 && v3 == c % 64
  {
    SameDigit((a * 256 + b) * 4 + c / 64, c % 64, (v0 * 64 + v1) * 64 + v2, v3);
    SameDigit(a * 16 + b / 16, b % 16 * 4 + c / 64, v0 * 64 + v1, v2);
    SameDigit(a / 4, a % 4 * 16 + b / 16, v0, v1);
  }

  lemma SameDigit(a: int, x: int, b: int, y: int)
    requires 0 <= x < 64 && 0 <= y < 64 && a * 64 + x == b * 64 + y
    ensures a == b && x == y
  {
  }

  function Head(s: bytes): (h: bytes)
    ensures |h| == if |s| <= 3 then |s| else 3
  {
    if |s| <= 3 then s else s[..3]
  }

  function Tail(s: bytes): (t: bytes)
    ensures |t| == if |s| <= 3 then 0 else |s| - 3
  {
    if |s| <= 3 then [] else s[3..]
  }

  /** What comes before the group that follows `o` characters. */
  function Break(o: nat, lines: bool): bytes {
    if lines && o > 0 && o % 76 == 0 then [NEWLINE] else []
  }

  function Encoded(s: bytes, o: nat, lines: bool): bytes
    decreases |s|
  {
    if s == [] then [] else Break(o, lines) + Group(Head(s)) + Encoded(Tail(s), o + 4, lines)
  }

  /** A character of a string, which has a NUL at its end; past that, or outside of the table, there
      is nothing to be read. */
  function CharAt(s: bytes, i: nat): Option<byte> {
    var c: byte := if i < |s| then s[i] else 0;
    if i <= |s| && c < 128 then Some(c) else None
  }

  /** The bytes of a group of four characters. */
  function Ungroup(a: byte, b: byte, c: byte, d: byte): (r: bytes)
    requires a < 128 && b < 128 && c < 128 && d < 128
    ensures 1 <= |r| <= 3
  {
    [Value(a) * 4 + Value(b) / 16] +
    (if c != PAD then [Value(b) % 16 * 16 + Value(c) / 4] else []) +
    (if d != PAD then [Value(c) % 4 * 64 + Value(d)] else [])
  }

  /** None if it reads what is not there. */
  function Decoded(s: bytes): Option<bytes>
    decreases |s|
  {
    if s == [] then Some([])
    else if s[0] == RETURN || s[0] == NEWLINE then Decoded(s[1..])
    else
      var a, b, c, d := CharAt(s, 0), CharAt(s, 1), CharAt(s, 2), CharAt(s, 3);
      if a.None? || b.None? || c.None? || d.None? then None
      else
        match Decoded(if |s| <= 4 then [] else s[4..])
        case None => None
        case Some(rest) => Some(Ungroup(a.value, b.value, c.value, d.value) + rest)
  }

  /** The bits that a byte shares with its neighbours. */
  lemma Bits(x: nat, y: nat)
    requires x < 256 && y < 256
    ensures x / 4 * 4 + (x % 4 * 16 + y / 16) / 16 == x
    ensures (x % 4 * 16 + y / 16) % 16 == y / 16
    ensures y / 16 * 16 + (y % 16 * 4 + x / 64) / 4 == y
    ensures (y % 16 * 4 + x / 64) % 4 == x / 64 && x / 64 * 64 + x % 64 == x
  {
  }

  lemma UngroupGroup(s: bytes)
    requires 1 <= |s| <= 3
    ensures var g := Group(s); Ungroup(g[0], g[1], g[2], g[3]) == s
  {
    hide Char, Value;
    if |s| == 1 {
      Bits(s[0], 0);
    } else if |s| == 2 {
      Bits(s[0], s[1]);
      Bits(0, s[1]);
    } else {
      Bits(s[0], s[1]);
      Bits(s[2], s[1]);
    }
  }

  lemma DecodedGroup(g: bytes, rest: bytes)
    requires |g| == 4 && g[0] < 128 && g[1] < 128 && g[2] < 128 && g[3] < 128
    requires g[0] != NEWLINE && g[0] != RETURN
    ensures Decoded(g + rest) ==
      match Decoded(rest) case None => None case Some(r) => Some(Ungroup(g[0], g[1], g[2], g[3]) + r)
  {
    hide Ungroup;
    var e := g + rest;
    assert e[0] == g[0] && e[1] == g[1] && e[2] == g[2] && e[3] == g[3];
    assert (if |e| <= 4 then [] else e[4..]) == rest;
  }

  lemma DecodedBreak(o: nat, lines: bool, e: bytes)
    ensures Decoded(Break(o, lines) + e) == Decoded(e)
  {
    if Break(o, lines) == [] {
      assert [] + e == e;
    } else {
      assert ([NEWLINE] + e)[1..] == e;
    }
  }

  /** Every byte string comes back, with or without line breaks. */
  lemma {:induction false} DecodeAfterEncode(s: bytes, o: nat, lines: bool)
    ensures Decoded(Encoded(s, o, lines)) == Some(s)
    decreases |s|
  {
    hide Group, Ungroup, Decoded, Break;
    if s == [] {
      DecodedNothing();
    } else {
      var g, rest := Group(Head(s)), Encoded(Tail(s), o + 4, lines);
      DecodeAfterEncode(Tail(s), o + 4, lines);
      UngroupGroup(Head(s));
      DecodedGroup(g, rest);
      DecodedBreak(o, lines, g + rest);
      assert Break(o, lines) + g + rest == Break(o, lines) + (g + rest);
      assert s == Head(s) + Tail(s);
    }
  }

  lemma DecodedNothing()
    ensures Decoded([]) == Some([])
  {
  }

  predicate AllBreaks(s: bytes) { forall k :: 0 <= k < |s| ==> s[k] == RETURN || s[k] == NEWLINE }

  /** The groups of a string, each behind some line breaks, and line breaks at the end. */
  function Spread(s: bytes, breaks: seq<bytes>): bytes
    decreases |s|
  {
    var here := if breaks == [] then [] else breaks[0];
    if s == [] then here
    else here + Group(Head(s)) + Spread(Tail(s), if breaks == [] then [] else breaks[1..])
  }

  lemma {:induction false} DecodedBreaks(breaks: bytes, e: bytes)
    requires AllBreaks(breaks)
    ensures Decoded(breaks + e) == Decoded(e)
    decreases |breaks|
  {
    if breaks == [] {
      assert breaks + e == e;
    } else {
      assert (breaks + e)[1..] == breaks[1..] + e;
      DecodedBreaks(breaks[1..], e);
    }
  }

  /** Line breaks of any kind and number between the groups do not matter. */
  lemma {:induction false} DecodeIgnoresBreaks(s: bytes, breaks: seq<bytes>)
    requires forall k :: 0 <= k < |breaks| ==> AllBreaks(breaks[k])
    ensures Decoded(Spread(s, breaks)) == Some(s)
    decreases |s|
  {
    hide Group, Ungroup, Decoded, AllBreaks;
    var here := if breaks == [] then [] else breaks[0];
    assert AllBreaks(here) by { NoBreaks(); }
    if s == [] {
      DecodedNothing();
      DecodedBreaks(here, []);
      assert here + [] == here;
    } else {
      var more := if breaks == [] then [] else breaks[1..];
      var g, rest := Group(Head(s)), Spread(Tail(s), more);
      DecodeIgnoresBreaks(Tail(s), more);
      UngroupGroup(Head(s));
      DecodedGroup(g, rest);
      DecodedBreaks(here, g + rest);
      assert here + g + rest == here + (g + rest);
      assert s == Head(s) + Tail(s);
    }
  }

  lemma NoBreaks()
    ensures AllBreaks([])
  {
  }

  /** Characters and line breaks before the group that follows `o` characters. */
  function Before(o: nat): nat { if o == 0 then 0 else o + (o - 1) / 76 }

  lemma BeforeNext(o: nat)
    requires o % 4 == 0
    ensures Before(o + 4) == Before(o) + |Break(o, true)| + 4
  {
  }

  /** The line break and the group after `o` characters stand where they should. */
  lemma StartColumns(o: nat, g: bytes, i: nat)
    requires o % 4 == 0 && |g| == 4 && forall j :: 0 <= j < 4 ==> g[j] != NEWLINE
    requires i < |Break(o, true) + g|
    ensures (Break(o, true) + g)[i] == NEWLINE <==> (Before(o) + i) % 77 == 76
  {
    Column(o, |Break(o, true)|, i);
  }

  /** Every line but the last has exactly 76 characters, and the last is not empty. */
  lemma {:induction false} LinesOf76(s: bytes, o: nat)
    requires o % 4 == 0
    ensures var e := Encoded(s, o, true);
      && (forall i :: 0 <= i < |e| ==> (e[i] == NEWLINE <==> (Before(o) + i) % 77 == 76))
      && (e != [] ==> e[|e| - 1] != NEWLINE)
    decreases |s|
  {
    hide Group, Before, Break;
    if s != [] {
      var g, rest := Group(Head(s)), Encoded(Tail(s), o + 4, true);
      var start := Break(o, true) + g;
      LinesOf76(Tail(s), o + 4);
      BeforeNext(o);
      forall i | 0 <= i < |start + rest|
        ensures (start + rest)[i] == NEWLINE <==> (Before(o) + i) % 77 == 76
      {
        if i < |start| {
          StartColumns(o, g, i);
        } else {
          assert (start + rest)[i] == rest[i - |start|];
        }
      }
    }
  }

  lemma Column(o: nat, n: nat, i: nat)
    requires o % 4 == 0 && n == (if o > 0 && o % 76 == 0 then 1 else 0) && i < n + 4
    ensures (Before(o) + i) % 77 == 76 <==> i < n
  {
    if o > 0 {
      var q, r := (o - 1) / 76, (o - 1) % 76;
      assert Before(o) == 77 * q + r + 1;
    }
  }

  /** Without line breaks, four characters for every three bytes, begun or complete. */
  lemma {:induction false} PlainLength(s: bytes, o: nat)
    ensures |Encoded(s, o, false)| == (|s| + 2) / 3 * 4
    decreases |s|
  {
    hide Group;
    if s != [] {
      PlainLength(Tail(s), o + 4);
    }
  }

  function DecodeLength(s: bytes): nat {
    if |s| == 0 || |s| % 4 != 0 then 0
    else
      3 * (|s| / 4 - 1) + 1 + (if s[|s| - 2] != PAD then 1 else 0) + (if s[|s| - 1] != PAD then 1 else 0)
  }

  /** The padding tells how many bytes the last group had. */
  lemma {:induction false} LastGroup(s: bytes, o: nat, lines: bool)
    requires s != []
    ensures var e := Encoded(s, o, lines);
      && |e| >= 4 && (e[|e| - 2] == PAD <==> |s| % 3 == 1) && (e[|e| - 1] == PAD <==> |s| % 3 != 0)
    decreases |s|
  {
    hide Group, Break, Encoded, Head, Tail;
    var g, rest := Group(Head(s)), Encoded(Tail(s), o + 4, lines);
    EncodedStep(s, o, lines);
    if |s| > 3 {
      LastGroup(Tail(s), o + 4, lines);
      SameThird(|s|);
      LastTwo(Break(o, lines) + g, rest);
    } else {
      LastTwo(Break(o, lines), g);
    }
  }

  lemma EncodedStep(s: bytes, o: nat, lines: bool)
    requires s != []
    ensures Encoded(s, o, lines) == Break(o, lines) + Group(Head(s)) + Encoded(Tail(s), o + 4, lines)
    ensures |s| <= 3 ==> Encoded(s, o, lines) == Break(o, lines) + Group(Head(s))
  {
  }

  lemma SameThird(n: nat)
    requires n > 3
    ensures (n - 3) % 3 == n % 3
  {
  }

  lemma LastTwo(s: bytes, t: bytes)
    requires |t| >= 2
    ensures var e := s + t; e[|e| - 2] == t[|t| - 2] && e[|e| - 1] == t[|t| - 1]
  {
  }

  /** Without line breaks decode_length is the size of what is decoded. */
  lemma DecodeLengthOfPlain(s: bytes)
    ensures DecodeLength(Encoded(s, 0, false)) == |s|
  {
    hide Encoded, DecodeLength;
    PlainLength(s, 0);
    if s == [] {
      NoLength(Encoded(s, 0, false));
    } else {
      LastGroup(s, 0, false);
      LengthByPadding(Encoded(s, 0, false), |s|);
    }
  }

  lemma NoLength(e: bytes)
    requires |e| == 0
    ensures DecodeLength(e) == 0
  {
  }

  lemma LengthByPadding(e: bytes, n: nat)
    requires n > 0 && |e| == (n + 2) / 3 * 4 && |e| >= 4
    requires (e[|e| - 2] == PAD <==> n % 3 == 1) && (e[|e| - 1] == PAD <==> n % 3 != 0)
    ensures DecodeLength(e) == n
  {
    Thirds(n, |e|);
  }

  lemma Thirds(n: nat, size: nat)
    requires n > 0 && size == (n + 2) / 3 * 4
    ensures size % 4 == 0 && n == 3 * (size / 4 - 1) + 1 + (if n % 3 != 1 then 1 else 0) + (if n % 3 == 0 then 1 else 0)
  {
  }

  lemma {:induction false} LinesLength(s: bytes, o: nat)
    requires o % 4 == 0
    ensures Before(o) + |Encoded(s, o, true)| == Before(o + (|s| + 2) / 3 * 4)
    decreases |s|
  {
    hide Group, Before, Break, Head, Tail;
    if s != [] {
      BeforeNext(o);
      LinesLength(Tail(s), o + 4);
      NextThird(|s|);
    }
  }

  lemma NextThird(n: nat)
    requires n > 0
    ensures 4 + ((if n <= 3 then 0 else n - 3) + 2) / 3 * 4 == (n + 2) / 3 * 4
  {
  }

  /** With line breaks asked for, decode_length is right exactly if there are none. */
  lemma DecodeLengthIffOneLine(s: bytes)
    ensures DecodeLength(Encoded(s, 0, true)) == |s| <==> |s| <= 57
  {
    hide Encoded, DecodeLength;
    var e := Encoded(s, 0, true);
    LinesLength(s, 0);
    if s == [] {
      NoLength(e);
    } else {
      LastGroup(s, 0, true);
      var g := (|s| + 2) / 3;
      assert |e| == 4 * g + (4 * g - 1) / 76;
      if |s| <= 57 {
        LengthByPadding(e, |s|);
      } else {
        LengthOfMore(e, |s|, g);
      }
    }
  }

  lemma LengthOfMore(e: bytes, n: nat, g: nat)
    requires n > 57 && g == (n + 2) / 3 && |e| == 4 * g + (4 * g - 1) / 76
    requires (e[|e| - 2] == PAD <==> n % 3 == 1) && (e[|e| - 1] == PAD <==> n % 3 != 0)
    ensures DecodeLength(e) != n
  {
    var k := (4 * g - 1) / 76;
    assert k >= 1;
    Thirds(n, 4 * g);
    if |e| % 4 == 0 {
      assert |e| / 4 >= g + 1;
    }
  }

  /** The rest of the input from an index that may be past its end. */
  function From(s: bytes, i: nat): bytes { if i <= |s| then s[i..] else [] }

  lemma EncodedFrom(s: bytes, i: nat, o: nat, lines: bool, output: bytes)
    requires i < |s|
    ensures output + Encoded(From(s, i), o, lines) ==
      output + Break(o, lines) + Group(Head(s[i..])) + Encoded(From(s, i + 3), o + 4, lines)
  {
    hide Group, Break;
    assert Tail(s[i..]) == From(s, i + 3) by { TailIsFrom(s, i); }
    Regroup(output, Break(o, lines), Group(Head(s[i..])), Encoded(From(s, i + 3), o + 4, lines));
  }

  lemma TailIsFrom(s: bytes, i: nat)
    requires i < |s|
    ensures Tail(s[i..]) == From(s, i + 3)
  {
  }

  lemma Regroup(x: bytes, a: bytes, b: bytes, c: bytes)
    ensures x + (a + b + c) == x + a + b + c
  {
  }

  /** One round of encode: the group of the first of the bytes that remain. */
  method AppendGroup(input: bytes, i: nat, output: bytes) returns (r: bytes)
    requires i < |input|
    ensures r == output + Group(Head(input[i..]))
  {
    hide Char;
    var remain := |input| - i;
    if remain == 1 {
      r := output + [Char(input[i] / 4)];
      r := r + [Char(input[i] % 4 * 16)];
      r := r + [PAD, PAD];
    } else if remain == 2 {
      r := output + [Char(input[i] / 4)];
      r := r + [Char(input[i] % 4 * 16 + input[i + 1] / 16)];
      r := r + [Char(input[i + 1] % 16 * 4)];
      r := r + [PAD];
    } else {
      r := output + [Char(input[i] / 4)];
      r := r + [Char(input[i] % 4 * 16 + input[i + 1] / 16)];
      r := r + [Char(input[i + 1] % 16 * 4 + input[i + 2] / 64)];
      r := r + [Char(input[i + 2] % 64)];
    }
    assert r == output + r[|output|..];
    assert r[|output|..] == Group(Head(input[i..]));
  }

  method Encode(input: bytes, addCrlf: bool) returns (output: bytes)
    ensures output == Encoded(input, 0, addCrlf)
  {
    hide Encoded, Group, Head, From;
    var i, o := 0, 0;
    output := [];
    assert From(input, 0) == input by { FromStart(input); }
    while i < |input|
      invariant output + Encoded(From(input, i), o, addCrlf) == Encoded(input, 0, addCrlf)
      decreases |input| - i
    {
      EncodedFrom(input, i, o, addCrlf, output);
      if addCrlf && o > 0 && o % 76 == 0 {
        output := output + [NEWLINE];
      }
      output := AppendGroup(input, i, output);
      o := o + 4;
      i := i + 3;
    }
    EncodedEnd(input, i, o, addCrlf);
  }

  lemma FromStart(s: bytes)
    ensures From(s, 0) == s
  {
  }

  lemma EncodedEnd(s: bytes, i: nat, o: nat, lines: bool)
    requires i >= |s|
    ensures Encoded(From(s, i), o, lines) == []
  {
  }

  lemma DecodedSkip(s: bytes, i: nat)
    requires i < |s| && (s[i] == RETURN || s[i] == NEWLINE)
    ensures Decoded(From(s, i)) == Decoded(From(s, i + 1))
  {
    assert s[i..][1..] == s[i + 1..];
  }

  lemma DecodedStep(s: bytes, i: nat)
    requires i < |s| && s[i] != RETURN && s[i] != NEWLINE
    ensures Decoded(From(s, i)) ==
      var a, b, c, d := CharAt(s, i), CharAt(s, i + 1), CharAt(s, i + 2), CharAt(s, i + 3);
      if a.None? || b.None? || c.None? || d.None? then None
      else
        match Decoded(From(s, i + 4))
        case None => None
        case Some(rest) => Some(Ungroup(a.value, b.value, c.value, d.value) + rest)
  {
    var rest := s[i..];
    assert CharAt(rest, 0) == CharAt(s, i) && CharAt(rest, 1) == CharAt(s, i + 1);
    assert CharAt(rest, 2) == CharAt(s, i + 2) && CharAt(rest, 3) == CharAt(s, i + 3);
    assert (if |rest| <= 4 then [] else rest[4..]) == From(s, i + 4);
  }

  /** What is decoded so far, followed by the rest. */
  function Joined(sofar: bytes, rest: Option<bytes>): Option<bytes> {
    if rest.None? then None else Some(sofar + rest.value)
  }

  lemma JoinedJoined(sofar: bytes, group: bytes, rest: Option<bytes>)
    ensures Joined(sofar, if rest.None? then None else Some(group + rest.value)) == Joined(sofar + group, rest)
  {
    if rest.Some? {
      assert sofar + (group + rest.value) == sofar + group + rest.value;
    }
  }

  /** Over line breaks, to the next character. */
  method SkipBreaks(input: bytes, i: nat) returns (next: nat)
    ensures i <= next && Decoded(From(input, next)) == Decoded(From(input, i))
    ensures next < |input| ==> input[next] != RETURN && input[next] != NEWLINE
    ensures next > i ==> next <= |input|
  {
    hide Decoded, From;
    next := i;
    while next < |input| && (input[next] == RETURN || input[next] == NEWLINE)
      invariant i <= next && Decoded(From(input, next)) == Decoded(From(input, i))
      invariant next > i ==> next <= |input|
    {
      DecodedSkip(input, next);
      next := next + 1;
    }
  }

  method Decode(input: bytes) returns (r: Option<bytes>)
    ensures r == Decoded(input)
  {
    hide Decoded, Ungroup, Joined, From;
    var i := 0;
    var output: bytes := [];
    FromEnds(input, i);
    while i < |input|
      invariant Joined(output, Decoded(From(input, i))) == Decoded(input)
      decreases |input| - i
    {
      i := SkipBreaks(input, i);
      if i < |input| {
        DecodedStep(input, i);
        var a, b, c, d := CharAt(input, i), CharAt(input, i + 1), CharAt(input, i + 2), CharAt(input, i + 3);
        if a.None? || b.None? || c.None? || d.None? {
          JoinedNothing(output);
          return None;
        }
        JoinedJoined(output, Ungroup(a.value, b.value, c.value, d.value), Decoded(From(input, i + 4)));
        output := output + Ungroup(a.value, b.value, c.value, d.value);
        i := i + 4;
      }
    }
    FromPast(input, i, output);
    r := Some(output);
  }

  lemma FromEnds(s: bytes, i: nat)
    requires i == 0
    ensures Joined([], Decoded(From(s, 0))) == Decoded(s)
  {
    assert s[0..] == s;
    if Decoded(s).Some? {
      assert [] + Decoded(s).value == Decoded(s).value;
    }
  }

  lemma FromPast(s: bytes, i: nat, output: bytes)
    requires i >= |s|
    ensures Joined(output, Decoded(From(s, i))) == Some(output)
  {
    assert From(s, i) == [];
    assert output + [] == output;
  }

  lemma JoinedNothing(output: bytes)
    ensures Joined(output, None) == None
  {
  }

  /** output[j] = b, if there is an output. */
  method Store(output: array?<byte>, j: nat, b: byte)
    requires output != null ==> j < output.Length
    modifies if output == null then {} else {output}
    ensures output != null ==> output[..j + 1] == old(output[..j]) + [b]
  {
    if output != null {
      output[j] := b;
    }
  }

  method StoreGroup(output: array?<byte>, j: nat, a: byte, b: byte, c: byte, d: byte) returns (next: nat)
    requires a < 128 && b < 128 && c < 128 && d < 128
    requires output != null ==> j + |Ungroup(a, b, c, d)| <= output.Length
    modifies if output == null then {} else {output}
    ensures next == j + |Ungroup(a, b, c, d)|
    ensures output != null ==> output[..next] == old(output[..j]) + Ungroup(a, b, c, d)
  {
    hide Value;
    Store(output, j, Value(a) * 4 + Value(b) / 16);
    next := j + 1;
    if c != PAD {
      Store(output, next, Value(b) % 16 * 16 + Value(c) / 4);
      next := next + 1;
    }
    if d != PAD {
      Store(output, next, Value(c) % 4 * 64 + Value(d));
      next := next + 1;
    }
  }

  /** The decoder that fills a buffer, or only counts without one. A buffer is to be large enough. */
  method DecodeTo(input: bytes, output: array?<byte>) returns (ok: bool, sz: nat)
    requires output != null ==> Decoded(input).Some? && |Decoded(input).value| <= output.Length
    modifies if output == null then {} else {output}
    ensures ok <==> Decoded(input).Some?
    ensures ok ==> sz == |Decoded(input).value| && (output != null ==> output[..sz] == Decoded(input).value)
  {
    hide Decoded, Ungroup, From;
    var i, j := 0, 0;
    ghost var sofar: bytes := [];
    FromEnds(input, i);
    while i < |input|
      invariant Joined(sofar, Decoded(From(input, i))) == Decoded(input) && |sofar| == j
      invariant output != null ==> j <= output.Length && output[..j] == sofar
      decreases |input| - i
    {
      i := SkipBreaks(input, i);
      if i < |input| {
        DecodedStep(input, i);
        var a, b, c, d := CharAt(input, i), CharAt(input, i + 1), CharAt(input, i + 2), CharAt(input, i + 3);
        if a.None? || b.None? || c.None? || d.None? {
          return false, 0;
        }
        ghost var group := Ungroup(a.value, b.value, c.value, d.value);
        JoinedJoined(sofar, group, Decoded(From(input, i + 4)));
        j := StoreGroup(output, j, a.value, b.value, c.value, d.value);
        sofar := sofar + group;
        i := i + 4;
      }
    }
    FromPast(input, i, sofar);
    return true, j;
  }
}
