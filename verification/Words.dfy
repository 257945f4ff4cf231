/** The word parser and the small text conversions the HTTP layer uses. Strings hold bytes. */
module Words {

  const NUL: char := '\0'

  predicate IsSpace(c: char) { c == ' ' || c == '\t' || c == '\r' || c == '\n' }

  /** The character at `i`, NUL past the end. */
  function CharAt(s: string, i: nat): char {
    if i < |s| then s[i] else NUL
  }

  /** First index from `i` on that is not white space and not in `splits`; stops at a NUL. */
  function WordStart(s: string, splits: string, i: nat): (r: nat)
    ensures i <= r && (i <= |s| ==> r <= |s|)
    decreases |s| - i
  {
    var c := CharAt(s, i);
    if c != NUL && (IsSpace(c) || c in splits) then WordStart(s, splits, i + 1) else i
  }

  function WordEnd(s: string, splits: string, i: nat): (r: nat)
    ensures i <= r && (i <= |s| ==> r <= |s|)
    decreases |s| - i
  {
    var c := CharAt(s, i);
    if c != NUL && !IsSpace(c) && c !in splits then WordEnd(s, splits, i + 1) else i
  }

  function RestStart(s: string, splits: string, i: nat): (r: nat)
    ensures i <= r && (i <= |s| ==> r <= |s|)
    decreases |s| - i
  {
    var c := CharAt(s, i);
    if c != NUL && (c == ' ' || c == '\t' || c in splits) then RestStart(s, splits, i + 1) else i
  }

  /** getword: the word and the cursor after it, which may be one past the end of the text. */
  function WordAt(s: string, splits: string, p: nat): (string, nat) {
    var x := WordStart(s, splits, p);
    var y := WordEnd(s, splits, x);
    (if x < |s| then s[x..y] else "", y + 1)
  }

  function RestAt(s: string, splits: string, p: nat): string {
    var x := RestStart(s, splits, p);
    if x < |s| then s[x..] else ""
  }

  /** The Parse class without break characters and quoting, which the HTTP parsers do not enable. */
  class Parse {
    const text: string
    const splits: string
    var ptr: nat

    constructor (text: string, splits: string)
      ensures this.text == text && this.splits == splits && ptr == 0
    {
      this.text, this.splits, ptr := text, splits, 0;
    }

    method GetWord() returns (word: string)
      modifies this
      ensures (word, ptr) == WordAt(text, splits, old(ptr))
    {
      while CharAt(text, ptr) != NUL && (IsSpace(CharAt(text, ptr)) || CharAt(text, ptr) in splits)
        invariant WordStart(text, splits, ptr) == WordStart(text, splits, old(ptr))
        decreases |text| - ptr
      {
        ptr := ptr + 1;
      }
      var x := ptr;
      while CharAt(text, ptr) != NUL && !IsSpace(CharAt(text, ptr)) && CharAt(text, ptr) !in splits
        invariant x <= ptr && (x <= |text| ==> ptr <= |text|)
        invariant WordEnd(text, splits, ptr) == WordEnd(text, splits, x)
        decreases |text| - ptr
      {
        ptr := ptr + 1;
      }
      ptr := ptr + 1;
      word := if x < |text| then text[x..ptr - 1] else "";
    }

    method GetRest() returns (rest: string)
      modifies this
      ensures rest == RestAt(text, splits, old(ptr))
    {
      while CharAt(text, ptr) != NUL &&
            (CharAt(text, ptr) == ' ' || CharAt(text, ptr) == '\t' || CharAt(text, ptr) in splits)
        invariant RestStart(text, splits, ptr) == RestStart(text, splits, old(ptr))
        decreases |text| - ptr
      {
        ptr := ptr + 1;
      }
      rest := if ptr < |text| then text[ptr..] else "";
    }
  }

  // ----- Utility -----

  function LowerChar(c: char): char {
    if 'A' <= c <= 'Z' then (c as int + 32) as char else c
  }

  function Lower(s: string): (r: string)
    ensures |r| == |s| && forall k :: 0 <= k < |s| ==> r[k] == LowerChar(s[k])
  {
    if s == "" then "" else [LowerChar(s[0])] + Lower(s[1..])
  }

  method ToLower(s: string) returns (r: string)
    ensures r == Lower(s)
  {
    r := "";
    for i := 0 to |s|
      invariant |r| == i && forall k :: 0 <= k < i ==> r[k] == LowerChar(s[k])
    {
      r := r + [LowerChar(s[i])];
    }
  }

  const UPPER: string := "ABCDEFGHIJKLMNOPQRSTUVWXYZ"
  const LOWER: string := "abcdefghijklmnopqrstuvwxyz"

  /** Each capital letter becomes its small letter, and nothing else changes. */
  lemma LowerLetters(c: char)
    ensures forall i :: 0 <= i < 26 && UPPER[i] == c ==> LowerChar(c) == LOWER[i]
    ensures c !in UPPER ==> LowerChar(c) == c
  {
    assert forall i :: 0 <= i < 26 ==> UPPER[i] == 'A' + i as char && LOWER[i] == 'a' + i as char;
    if 'A' <= c <= 'Z' { assert UPPER[(c - 'A') as int] == c; }
  }

  const TWO_32: int := 0x1_0000_0000
  const TWO_64: int := 0x1_0000_0000_0000_0000

  /** A char is signed: bytes from 128 on are negative. */
  function Signed(c: char): int { if c < 128 as char then c as int else c as int - 256 }

  /** The contribution of one character to hex2unsigned. */
  function HexDigit(c: char): int {
    var v := Signed(c);
    v - 48 - (if v >= 'A' as int then 7 else 0) - (if v >= 'a' as int then 32 else 0)
  }

  /** hex2unsigned, on unsigned 32-bit arithmetic. */
  function HexValue(s: string): (r: nat)
    ensures r < TWO_32
  {
    if s == "" then 0 else (HexValue(s[..|s| - 1]) * 16 + HexDigit(s[|s| - 1])) % TWO_32
  }

  method Hex2Unsigned(s: string) returns (r: nat)
    ensures r == HexValue(s)
  {
    r := 0;
    for i := 0 to |s|
      invariant r == HexValue(s[..i])
    {
      assert s[..i + 1][..i] == s[..i];
      r := (r * 16 + HexDigit(s[i])) % TWO_32;
    }
    assert s[..|s|] == s;
  }

  // ----- decimal numbers -----

  predicate IsDigit(c: char) { '0' <= c <= '9' }

  function Digit(d: nat): char requires d < 10 { '0' + d as char }

  function DecimalNat(n: nat): string {
    if n < 10 then [Digit(n)] else DecimalNat(n / 10) + [Digit(n % 10)]
  }

  /** What a string of digits denotes. */
  function DigitsValue(s: string): nat {
    if s == "" then 0
    else 10 * DigitsValue(s[..|s| - 1]) + (var c := s[|s| - 1]; if IsDigit(c) then (c - '0') as nat else 0)
  }

  lemma {:induction false} DecimalNatIsDigits(n: nat)
    ensures DecimalNat(n) != ""
    ensures forall k :: 0 <= k < |DecimalNat(n)| ==> IsDigit(DecimalNat(n)[k])
    ensures DigitsValue(DecimalNat(n)) == n
  {
    if n >= 10 {
      DecimalNatIsDigits(n / 10);
      assert DecimalNat(n)[..|DecimalNat(n)| - 1] == DecimalNat(n / 10);
    } else {
      assert DecimalNat(n)[..0] == "";
    }
  }

  /** What is read as a number after white space: the leading decimal digits from `i`. */
  function DigitsFrom(s: string, i: nat, acc: nat): nat
    decreases |s| - i
  {
    var c := CharAt(s, i);
    if '0' <= c <= '9' then DigitsFrom(s, i + 1, acc * 10 + (c - '0') as nat) else acc
  }

  function NumberStart(s: string, i: nat): nat
    decreases |s| - i
  {
    var c := CharAt(s, i);
    if IsSpace(c) || c == 11 as char || c == 12 as char then NumberStart(s, i + 1) else i
  }

  /** atol on a 64-bit long: out-of-range values are clamped as strtol clamps them. */
  function AtoL(s: string): int {
    var i := NumberStart(s, 0);
    var c := CharAt(s, i);
    var v := if c == '-' then -(DigitsFrom(s, i + 1, 0) as int)
             else DigitsFrom(s, if c == '+' then i + 1 else i, 0);
    if v < -TWO_64 / 2 then -TWO_64 / 2 else if v >= TWO_64 / 2 then TWO_64 / 2 - 1 else v
  }

  /** A long stored into a size_t. */
  function ToSizeT(v: int): (r: nat)
    ensures r < TWO_64
  {
    v % TWO_64
  }

  lemma {:induction false} DigitsFromPrefix(s: string, k: nat)
    requires k <= |s| && forall i :: 0 <= i < k ==> IsDigit(s[i])
    ensures DigitsFrom(s, 0, 0) == DigitsFrom(s, k, DigitsValue(s[..k]))
  {
    if k > 0 {
      DigitsFromPrefix(s, k - 1);
      assert s[..k][..k - 1] == s[..k - 1];
    }
  }

  /** atol reads back a printed length. */
  lemma AtoLOfDecimal(n: nat)
    requires n < TWO_64 / 2
    ensures ToSizeT(AtoL(DecimalNat(n))) == n
  {
    var s := DecimalNat(n);
    DecimalNatIsDigits(n);
    DigitsFromPrefix(s, |s|);
    assert s[..|s|] == s;
    assert IsDigit(s[0]);
  }

  predicate IsSpaceOfC(c: char) { c in " \t\n\r" || c == 11 as char || c == 12 as char }

  lemma {:induction false} BlanksBefore(s: string, i: nat, j: nat)
    requires i <= j <= |s| && (forall k :: i <= k < j ==> IsSpaceOfC(s[k])) && !IsSpaceOfC(CharAt(s, j))
    ensures NumberStart(s, i) == j
    decreases j - i
  {
    if i < j { BlanksBefore(s, i + 1, j); }
  }

  lemma {:induction false} DigitsAt(s: string, i: nat, k: nat)
    requires i <= k <= |s| && forall j :: i <= j < k ==> IsDigit(s[j])
    ensures DigitsFrom(s, i, 0) == DigitsFrom(s, k, DigitsValue(s[i..k]))
    decreases k
  {
    if i < k {
      DigitsAt(s, i, k - 1);
      assert s[i..k][..k - 1 - i] == s[i..k - 1];
    }
  }

  function Clamped(v: int): int {
    if v > 0x7fff_ffff_ffff_ffff then 0x7fff_ffff_ffff_ffff
    else if v < -0x8000_0000_0000_0000 then -0x8000_0000_0000_0000
    else v
  }

  predicate IsSign(sign: string) { sign == "" || sign == "+" || sign == "-" }

  /** atol: white space, a sign, and digits up to something else; no digits are zero. */
  lemma AtoLOfSpelling(blanks: string, sign: string, digits: string, rest: string)
    requires (forall k :: 0 <= k < |blanks| ==> IsSpaceOfC(blanks[k])) && IsSign(sign)
    requires forall k :: 0 <= k < |digits| ==> IsDigit(digits[k])
    requires rest != "" ==> !IsDigit(rest[0])
    requires sign + digits == "" && rest != "" ==> rest[0] != '+' && rest[0] != '-' && !IsSpaceOfC(rest[0])
    ensures AtoL(blanks + sign + digits + rest) ==
      Clamped(if sign == "-" then -(DigitsValue(digits) as int) else DigitsValue(digits))
  {
    hide DigitsFrom, DigitsValue, NumberStart, AtoL, IsDigit, IsSpaceOfC, IsSign;
    var front, behind := blanks + sign, digits + rest;
    var s, i, j := front + behind, |blanks|, |front|;
    assert blanks + sign + digits + rest == s;
    var k := j + |digits|;
    assert forall n :: 0 <= n < i ==> s[n] == blanks[n];
    var c := CharAt(s, i);
    assert c == if sign != "" then sign[0] else CharAt(behind, 0);
    NoBlank(sign, digits, rest);
    BlanksBefore(s, 0, i);
    assert s[j..k] == digits && CharAt(s, k) == CharAt(rest, 0);
    assert forall n :: j <= n < k ==> s[n] == digits[n - j];
    DigitsAt(s, j, k);
    NoMoreDigits(s, k, DigitsValue(digits));
    AtoLAt(s, i, sign, DigitsValue(digits));
  }

  lemma NoBlank(sign: string, digits: string, rest: string)
    requires IsSign(sign) && (forall k :: 0 <= k < |digits| ==> IsDigit(digits[k]))
    requires sign + digits == "" && rest != "" ==> rest[0] != '+' && rest[0] != '-' && !IsSpaceOfC(rest[0])
    ensures var c := if sign != "" then sign[0] else CharAt(digits + rest, 0);
      !IsSpaceOfC(c) && (sign == "" ==> c != '+' && c != '-')
    ensures !IsDigit(NUL)
  {
    if digits != "" { assert (digits + rest)[0] == digits[0] && IsDigit(digits[0]); }
  }

  lemma AtoLAt(s: string, i: nat, sign: string, v: nat)
    requires i == NumberStart(s, 0) && IsSign(sign) && v == DigitsFrom(s, i + |sign|, 0)
    requires if sign == "" then CharAt(s, i) != '+' && CharAt(s, i) != '-' else CharAt(s, i) == sign[0]
    ensures AtoL(s) == Clamped(if sign == "-" then -(v as int) else v)
  {
    hide DigitsFrom, NumberStart;
  }

  lemma NoMoreDigits(s: string, i: nat, acc: nat)
    requires !IsDigit(CharAt(s, i))
    ensures DigitsFrom(s, i, acc) == acc
  {
  }

  lemma DigitIs(d: nat)
    requires d < 10
    ensures Digit(d) == "0123456789"[d]
  {
  }

  /** Characters that neither end a word nor are skipped before one. */
  predicate WordChars(w: string, splits: string) {
    forall k :: 0 <= k < |w| ==> w[k] != NUL && !IsSpace(w[k]) && w[k] !in splits
  }

  predicate EndsWord(s: string, splits: string, i: nat) {
    var c := CharAt(s, i);
    c == NUL || IsSpace(c) || c in splits
  }

  lemma {:induction false} WordEndAt(s: string, splits: string, i: nat, j: nat)
    requires i <= j <= |s| && WordChars(s[i..j], splits) && EndsWord(s, splits, j)
    ensures WordEnd(s, splits, i) == j
    decreases j - i
  {
    if i < j {
      assert s[i] == s[i..j][0] && s[i + 1..j] == s[i..j][1..];
      WordEndAt(s, splits, i + 1, j);
    }
  }

  /** getword at the start of a word returns it. */
  lemma WordIs(s: string, splits: string, p: nat, w: string)
    requires w != "" && p + |w| <= |s| && s[p..p + |w|] == w
    requires WordChars(w, splits) && EndsWord(s, splits, p + |w|)
    ensures WordAt(s, splits, p) == (w, p + |w| + 1)
  {
    assert s[p] == w[0];
    WordEndAt(s, splits, p, p + |w|);
  }

  /** A word between what comes before it and something that ends it. */
  lemma WordInside(s: string, splits: string, pre: string, w: string, post: string)
    requires w != "" && WordChars(w, splits) && s == pre + w + post
    requires post == "" || IsSpace(post[0]) || post[0] in splits
    ensures WordAt(s, splits, |pre|) == (w, |pre| + |w| + 1)
  {
    assert s[|pre|..|pre| + |w|] == w;
    assert post != "" ==> s[|pre| + |w|] == post[0];
    WordIs(s, splits, |pre|, w);
  }
}
