/** Utility::rfc1738_encode and rfc1738_decode. */
module UrlCode {
  import opened Bytes

  const PERCENT: byte := 37
  const PLUS: byte := 43
  const SPACE: byte := 32

  /** isalnum in the C locale. */
  predicate IsAlnum(c: byte) { 48 <= c <= 57 || 65 <= c <= 90 || 97 <= c <= 122 }

  predicate IsXdigit(c: byte) { 48 <= c <= 57 || 65 <= c <= 70 || 97 <= c <= 102 }

  /** The digit of the table "0123456789ABCDEF". */
  function Hex(d: nat): (c: byte)
    requires d < 16
    ensures IsXdigit(c) && IsAlnum(c) && Digit(c) == d
  {
    if d < 10 then 48 + d else 55 + d
  }

  /** The value that the decoders give a character; chars from 128 on are negative. */
  function Digit(c: byte): int {
    c - 48 - (if 57 < c < 128 then 7 else 0) - (if 97 <= c < 128 then 32 else 0)
  }

  /** Two digits, cut down to a char. */
  function Escape(hi: byte, lo: byte): byte {
    (Digit(hi) * 16 + Digit(lo)) % 256
  }

  function EncodedChar(c: byte): bytes {
    if IsAlnum(c) then [c]
    else if c == SPACE then [PLUS]
    else [PERCENT, Hex(c / 16), Hex(c % 16)]
  }

  function Encoded(s: bytes): bytes {
    if s == [] then [] else EncodedChar(s[0]) + Encoded(s[1..])
  }

  predicate IsEscape(s: bytes) {
    |s| >= 3 && s[0] == PERCENT && IsXdigit(s[1]) && IsXdigit(s[2])
  }

  function Decoded(s: bytes): bytes {
    if s == [] then []
    else if IsEscape(s) then [Escape(s[1], s[2])] + Decoded(s[3..])
    else [if s[0] == PLUS then SPACE else s[0]] + Decoded(s[1..])
  }

  lemma {:induction false} EncodedEnd(s: bytes, c: byte)
    ensures Encoded(s + [c]) == Encoded(s) + EncodedChar(c)
  {
    if s == [] {
      assert [c][1..] == [] && EncodedChar(c) + [] == EncodedChar(c);
    } else {
      assert (s + [c])[1..] == s[1..] + [c];
      EncodedEnd(s[1..], c);
    }
  }

  /** What encoding hides: every byte string comes back. */
  lemma {:induction false} DecodeAfterEncode(s: bytes)
    ensures Decoded(Encoded(s)) == s
  {
    if s != [] {
      var c, rest := s[0], Encoded(s[1..]);
      DecodeAfterEncode(s[1..]);
      assert (EncodedChar(c) + rest)[|EncodedChar(c)|..] == rest;
      if !IsAlnum(c) && c != SPACE {
        assert IsEscape(EncodedChar(c) + rest);
      }
    }
  }

  /** An encoded string has none of the characters that a form is made of. */
  predicate Unreserved(c: byte) { IsAlnum(c) || c == PLUS || c == PERCENT }

  lemma {:induction false} EncodedIsUnreserved(s: bytes)
    ensures forall i :: 0 <= i < |Encoded(s)| ==> Unreserved(Encoded(s)[i])
  {
    if s != [] {
      EncodedIsUnreserved(s[1..]);
    }
  }

  const DIGITS: string := "0123456789ABCDEF"
  const SMALL_DIGITS: string := "0123456789abcdef"

  predicate IsDigitOf(c: byte, v: nat)
    requires v < 16
  {
    c == DIGITS[v] as int || c == SMALL_DIGITS[v] as int
  }

  /** Letters and digits are written as they are, and a space as a plus sign. */
  lemma PlainChar(c: byte)
    ensures var d := c as char; IsAlnum(c) <==> '0' <= d <= '9' || 'A' <= d <= 'Z' || 'a' <= d <= 'z'
    ensures IsAlnum(c) ==> EncodedChar(c) == [c]
    ensures EncodedChar(' ' as int) == ['+' as int] && PERCENT == '%' as int
  {
  }

  /** A plus sign is read as a space, and any other character but a percent sign as itself. */
  lemma DecodedPlain(c: byte, rest: bytes)
    requires c != '%' as int
    ensures Decoded([c] + rest) == [if c == '+' as int then ' ' as int else c] + Decoded(rest)
  {
    assert ([c] + rest)[1..] == rest;
  }

  lemma TableDigit(v: nat)
    requires v < 16
    ensures DIGITS[v] == (if v < 10 then '0' + v as char else 'A' + (v - 10) as char)
    ensures SMALL_DIGITS[v] == (if v < 10 then '0' + v as char else 'a' + (v - 10) as char)
  {
  }

  lemma DigitOfTable(c: byte, v: nat)
    requires v < 16 && IsDigitOf(c, v)
    ensures IsXdigit(c) && Digit(c) == v
  {
    TableDigit(v);
  }

  /** An escape is a percent sign and two hexadecimal digits, capital when they are written. */
  lemma EscapedChar(c: byte, hi: nat, lo: nat)
    requires hi < 16 && lo < 16 && c == 16 * hi + lo && !IsAlnum(c) && c != SPACE
    ensures EncodedChar(c) == [PERCENT, DIGITS[hi] as int, DIGITS[lo] as int]
  {
    TableDigit(hi);
    TableDigit(lo);
    assert c / 16 == hi && c % 16 == lo;
  }

  /** Reading takes digits in either case. */
  lemma DecodedEscape(a: byte, b: byte, hi: nat, lo: nat, rest: bytes)
    requires hi < 16 && lo < 16 && IsDigitOf(a, hi) && IsDigitOf(b, lo)
    ensures Decoded([PERCENT, a, b] + rest) == [16 * hi + lo] + Decoded(rest)
  {
    DigitOfTable(a, hi);
    DigitOfTable(b, lo);
    hide IsDigitOf, Digit, IsXdigit;
    var s := [PERCENT, a, b] + rest;
    assert s[0] == PERCENT && s[1] == a && s[2] == b && s[3..] == rest;
  }

  /** A percent sign without two digits behind it stands for itself. */
  lemma DecodedPercent(rest: bytes)
    requires |rest| < 2 ||
      !(exists v: nat, w: nat :: v < 16 && w < 16 && IsDigitOf(rest[0], v) && IsDigitOf(rest[1], w))
    ensures Decoded([PERCENT] + rest) == [PERCENT] + Decoded(rest)
  {
    var s := [PERCENT] + rest;
    assert s[1..] == rest;
    if IsEscape(s) {
      XdigitIsDigit(rest[0]);
      XdigitIsDigit(rest[1]);
    }
  }

  lemma XdigitIsDigit(c: byte)
    requires IsXdigit(c)
    ensures exists v: nat :: v < 16 && IsDigitOf(c, v)
  {
    var v := if c <= 57 then c - 48 else if c <= 70 then c - 55 else c - 87;
    TableDigit(v);
    assert IsDigitOf(c, v);
  }

  method Encode(src: bytes) returns (dst: bytes)
    ensures dst == Encoded(src)
  {
    dst := [];
    for i := 0 to |src|
      invariant dst == Encoded(src[..i])
    {
      var c := src[i];
      EncodedEnd(src[..i], c);
      assert src[..i + 1] == src[..i] + [c];
      if IsAlnum(c) {
        dst := dst + [c];
      } else if c == SPACE {
        dst := dst + [PLUS];
      } else {
        dst := dst + [PERCENT, Hex(c / 16), Hex(c % 16)];
      }
    }
    assert src[..|src|] == src;
  }

  lemma DecodedFrom(src: bytes, i: nat)
    requires i < |src|
    ensures Decoded(src[i..]) ==
      if IsEscape(src[i..]) then [Escape(src[i + 1], src[i + 2])] + Decoded(src[i + 3..])
      else [if src[i] == PLUS then SPACE else src[i]] + Decoded(src[i + 1..])
  {
    var rest := src[i..];
    assert rest[1..] == src[i + 1..];
    if IsEscape(rest) {
      assert rest[3..] == src[i + 3..];
    }
  }

  method Decode(src: bytes) returns (dst: bytes)
    ensures dst == Decoded(src)
  {
    hide Decoded, Escape;
    dst := [];
    var i := 0;
    assert src[0..] == src;
    while i < |src|
      invariant i <= |src| && dst + Decoded(src[i..]) == Decoded(src)
    {
      DecodedFrom(src, i);
      if IsEscape(src[i..]) {
        dst := dst + [Escape(src[i + 1], src[i + 2])];
        i := i + 3;
      } else {
        dst := dst + [if src[i] == PLUS then SPACE else src[i]];
        i := i + 1;
      }
    }
    assert src[i..] == [];
    DecodedNothing();
  }

  lemma DecodedNothing()
    ensures Decoded([]) == []
  {
  }
}
