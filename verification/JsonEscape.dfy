/** The escape and unescape passes of the Json class. Both edit a string by four
    find-and-replace sweeps; the lemmas say what the eight sweeps amount to together. */
module JsonEscape {

  const NPOS: int := -1

  /** True when `pat` occurs in `s` at position `i`. */
  predicate Matches(s: string, pat: string, i: nat) {
    i + |pat| <= |s| && s[i..i + |pat|] == pat
  }

  /** std::string::find, the first occurrence of `pat` at or after `from`. */
  method Find(s: string, pat: string, from: nat) returns (pos: int)
    ensures pos == NPOS || (from <= pos && Matches(s, pat, pos))
    ensures pos == NPOS ==> forall k :: from <= k <= |s| ==> !Matches(s, pat, k)
    ensures pos != NPOS ==> forall k :: from <= k < pos ==> !Matches(s, pat, k)
  {
    pos := from;
    while pos <= |s|
      invariant from <= pos
      invariant forall k :: from <= k < pos && k <= |s| ==> !Matches(s, pat, k)
      decreases |s| - pos
    {
      if Matches(s, pat, pos) {
        return;
      }
      pos := pos + 1;
    }
    pos := NPOS;
  }

  /** One left-to-right sweep: every occurrence of `pat` becomes `rep`, and the text put in
      is not looked at again. */
  function Swept(s: string, pat: string, rep: string): string
    requires pat != ""
  {
    if s == "" then ""
    else if pat <= s then rep + Swept(s[|pat|..], pat, rep)
    else [s[0]] + Swept(s[1..], pat, rep)
  }

  lemma MatchesShift(s: string, pat: string, d: nat, k: nat)
    requires d <= |s|
    ensures Matches(s[d..], pat, k) == Matches(s, pat, d + k)
  {
    if k + |pat| <= |s| - d {
      assert s[d..][k..k + |pat|] == s[d + k..d + k + |pat|];
    }
  }

  lemma {:induction false} SweptSkips(s: string, pat: string, rep: string, n: nat)
    requires pat != "" && n <= |s|
    requires forall k :: 0 <= k < n ==> !Matches(s, pat, k)
    ensures Swept(s, pat, rep) == s[..n] + Swept(s[n..], pat, rep)
  {
    if n == 0 {
      assert s[0..] == s;
    } else {
      assert !Matches(s, pat, 0);
      assert s[0..] == s;
      forall k | 0 <= k < n - 1 ensures !Matches(s[1..], pat, k) {
        MatchesShift(s, pat, 1, k);
      }
      SweptSkips(s[1..], pat, rep, n - 1);
      assert s[1..][n - 1..] == s[n..];
      assert s[..n] == [s[0]] + s[1..][..n - 1];
    }
  }

  lemma SweptNone(s: string, pat: string, rep: string)
    requires pat != ""
    requires forall k :: 0 <= k <= |s| ==> !Matches(s, pat, k)
    ensures Swept(s, pat, rep) == s
  {
    SweptSkips(s, pat, rep, |s|);
    assert s[..|s|] == s && s[|s|..] == "";
  }

  lemma MatchHere(s: string, pat: string, n: nat)
    requires Matches(s, pat, n)
    ensures n + |pat| <= |s| && pat <= s[n..] && s[n..][|pat|..] == s[n + |pat|..]
  {
    assert s[n..][..|pat|] == s[n..n + |pat|];
  }

  lemma SweptPrefix(s: string, pat: string, rep: string)
    requires pat != "" && pat <= s
    ensures Swept(s, pat, rep) == rep + Swept(s[|pat|..], pat, rep)
  {}

  lemma SweptFirst(s: string, pat: string, rep: string, n: nat)
    requires pat != "" && Matches(s, pat, n)
    requires forall k :: 0 <= k < n ==> !Matches(s, pat, k)
    ensures n + |pat| <= |s|
    ensures Swept(s, pat, rep) == s[..n] + rep + Swept(s[n + |pat|..], pat, rep)
  {
    hide *;
    MatchHere(s, pat, n);
    SweptSkips(s, pat, rep, n);
    SweptPrefix(s[n..], pat, rep);
  }

  /** What `pos` says about the part of the text that is still to be swept. */
  ghost predicate Found(rest: string, pat: string, from: nat, pos: int) {
    if pos == NPOS then forall k :: 0 <= k <= |rest| ==> !Matches(rest, pat, k)
    else from <= pos && Matches(rest, pat, pos - from) && forall k :: 0 <= k < pos - from ==> !Matches(rest, pat, k)
  }

  /** find from an offset, seen from the text that starts there. */
  method FindFrom(s: string, pat: string, from: nat) returns (pos: int)
    requires from <= |s|
    ensures pos == NPOS || from <= pos
    ensures Found(s[from..], pat, from, pos)
  {
    pos := Find(s, pat, from);
    forall k: nat | k <= |s| - from ensures Matches(s[from..], pat, k) == Matches(s, pat, from + k) {
      MatchesShift(s, pat, from, k);
    }
  }

  /** The loop that both encode and decode run four times, editing the string in place. */
  method Sweep(src: string, pat: string, rep: string) returns (dst: string)
    requires pat != "" && rep != ""
    ensures dst == Swept(src, pat, rep)
  {
    hide Swept, Matches;
    dst := src;
    ghost var out, rest := "", src;
    var pos := FindFrom(dst, pat, 0);
    assert dst[0..] == src;
    while pos != NPOS
      invariant dst == out + rest
      invariant Found(rest, pat, |out|, pos)
      invariant Swept(src, pat, rep) == out + Swept(rest, pat, rep)
      decreases |rest|
    {
      ghost var n := pos - |out|;
      SweptFirst(rest, pat, rep, n);
      ghost var next := rest[n + |pat|..];
      assert dst[..pos] == out + rest[..n];
      assert dst[pos + |pat|..] == next;
      dst := dst[..pos] + rep + dst[pos + |pat|..];
      assert out + (rest[..n] + rep + Swept(next, pat, rep)) == out + rest[..n] + rep + Swept(next, pat, rep);
      out := out + rest[..n] + rep;
      rest := next;
      assert dst[|out|..] == rest;
      pos := FindFrom(dst, pat, pos + |rep|);
    }
    SweptNone(rest, pat, rep);
  }

  const BACKSLASH: char := '\\'
  const QUOTE: char := '\"'

  /** The four sweeps of encode. */
  function Encoded(s: string): string {
    Swept(Swept(Swept(Swept(s, "\\", "\\\\"), "\r", "\\r"), "\n", "\\n"), "\"", "\\\"")
  }

  /** The four sweeps of decode. */
  function Decoded(s: string): string {
    Swept(Swept(Swept(Swept(s, "\\\"", "\""), "\\r", "\r"), "\\n", "\n"), "\\\\", "\\")
  }

  method Encode(src: string) returns (dst: string)
    ensures dst == Encoded(src)
  {
    dst := Sweep(src, "\\", "\\\\");
    dst := Sweep(dst, "\r", "\\r");
    dst := Sweep(dst, "\n", "\\n");
    dst := Sweep(dst, "\"", "\\\"");
  }

  method Decode(src: string) returns (dst: string)
    ensures dst == Decoded(src)
  {
    dst := Sweep(src, "\\\"", "\"");
    dst := Sweep(dst, "\\r", "\r");
    dst := Sweep(dst, "\\n", "\n");
    dst := Sweep(dst, "\\\\", "\\");
  }

  // ----- what encode computes: one escape per character -----

  /** The escape of one character once the characters named by the first `passes` sweeps are done. */
  function Escape(c: char, passes: nat): string {
    if c == '\\' && passes >= 1 then "\\\\"
    else if c == '\r' && passes >= 2 then "\\r"
    else if c == '\n' && passes >= 3 then "\\n"
    else if c == '\"' && passes >= 4 then "\\\""
    else [c]
  }

  function Escaped(s: string, passes: nat): string {
    if s == "" then "" else Escape(s[0], passes) + Escaped(s[1..], passes)
  }

  lemma {:induction false} SweptConcat2(a: char, b: char, t: string, c: char, rep: string)
    requires a != c && b != c
    ensures Swept([a, b] + t, [c], rep) == [a, b] + Swept(t, [c], rep)
  {
    var s := [a, b] + t;
    assert s[0] == a && s[1..] == [b] + t && ([b] + t)[1..] == t;
  }

  lemma {:induction false} SweepEscapes(s: string, passes: nat)
    requires passes < 4
    ensures Swept(Escaped(s, passes), ["\\", "\r", "\n", "\""][passes], ["\\\\", "\\r", "\\n", "\\\""][passes])
            == Escaped(s, passes + 1)
  {
    var pat, rep := ["\\", "\r", "\n", "\""][passes], ["\\\\", "\\r", "\\n", "\\\""][passes];
    if s != "" {
      var e, t := Escape(s[0], passes), Escaped(s[1..], passes);
      SweepEscapes(s[1..], passes);
      assert (e + t)[|e|..] == t;
      if |e| == 1 {
        assert e + t == [s[0]] + t;
        assert (pat <= e + t) == (pat[0] == s[0]);
      } else {
        assert e == [e[0], e[1]];
        SweptConcat2(e[0], e[1], t, pat[0], rep);
      }
    }
  }

  lemma {:induction false} EscapedNothing(s: string)
    ensures Escaped(s, 0) == s
  {
    if s != "" { EscapedNothing(s[1..]); }
  }

  /** The four sweeps together escape each character on its own. */
  lemma EncodedEscapesEachCharacter(s: string)
    ensures Encoded(s) == Escaped(s, 4)
  {
    EscapedNothing(s);
    SweepEscapes(s, 0);
    SweepEscapes(s, 1);
    SweepEscapes(s, 2);
    SweepEscapes(s, 3);
  }

  // ----- what decode makes of it -----

  /** `s` with each r (n) that directly follows a backslash turned into CR (LF). */
  function Mangled(s: string): string {
    if |s| >= 2 && s[0] == '\\' && s[1] == 'r' then "\\\r" + Mangled(s[2..])
    else if |s| >= 2 && s[0] == '\\' && s[1] == 'n' then "\\\n" + Mangled(s[2..])
    else if s == "" then ""
    else [s[0]] + Mangled(s[1..])
  }

  /** No backslash is directly followed by r or n. */
  predicate Clean(s: string) {
    forall i :: 0 <= i < |s| - 1 && s[i] == '\\' ==> s[i + 1] != 'r' && s[i + 1] != 'n'
  }

  /** True when `s` begins with a backslash and the letter the first `passes` sweeps turn. */
  predicate Turned(s: string, passes: nat) {
    |s| >= 2 && s[0] == '\\' && ((s[1] == 'r' && passes >= 2) || (s[1] == 'n' && passes >= 3))
  }

  function LineEnd(letter: char): char { if letter == 'r' then '\r' else '\n' }

  /** The text after the first `passes` sweeps of decode over an encoded `s`. */
  function Half(s: string, passes: nat): string
    decreases |s|
  {
    if s == "" then ""
    else if Turned(s, passes) then ['\\', LineEnd(s[1])] + Half(s[2..], passes)
    else HalfEscape(s[0], passes) + Half(s[1..], passes)
  }

  function HalfEscape(c: char, passes: nat): string {
    if c == '\"' && passes < 1 then "\\\""
    else if c == '\r' && passes < 2 then "\\r"
    else if c == '\n' && passes < 3 then "\\n"
    else if c == '\\' && passes < 4 then "\\\\"
    else [c]
  }

  lemma {:induction false} HalfZero(s: string)
    ensures Half(s, 0) == Escaped(s, 4)
  {
    if s != "" { HalfZero(s[1..]); }
  }

  lemma {:induction false} HalfFour(s: string)
    ensures Half(s, 4) == Mangled(s)
    decreases |s|
  {
    if s != "" {
      HalfFour(s[1..]);
      if |s| >= 2 { HalfFour(s[2..]); }
    }
  }

  /** How `Half` begins: enough to see that a sweep never matches across two source characters
      except for the r and n that follow a backslash. */
  lemma HalfHead(s: string, passes: nat)
    ensures s == "" ==> Half(s, passes) == ""
    ensures s != "" ==> Half(s, passes) != ""
    ensures s != "" ==> (Half(s, passes)[0] == 'r' <==> s[0] == 'r')
    ensures s != "" ==> (Half(s, passes)[0] == 'n' <==> s[0] == 'n')
    ensures s != "" && Half(s, passes)[0] == '\"' ==> s[0] == '\"' && passes >= 1
  {}

  function DecodePattern(k: nat): string requires k < 4 { ["\\\"", "\\r", "\\n", "\\\\"][k] }
  function DecodeResult(k: nat): string requires k < 4 { ["\"", "\r", "\n", "\\"][k] }

  /** Sweeping `a` followed by something, when the pattern does not start at `a`. */
  lemma SweptOne(a: char, t: string, pat: string, rep: string)
    requires |pat| == 2 && !(a == pat[0] && t != "" && t[0] == pat[1])
    ensures Swept([a] + t, pat, rep) == [a] + Swept(t, pat, rep)
  {
    assert ([a] + t)[1..] == t;
    assert !(pat <= [a] + t);
  }

  lemma SweptHit(t: string, pat: string, rep: string)
    requires |pat| == 2
    ensures Swept(pat + t, pat, rep) == rep + Swept(t, pat, rep)
  {
    assert (pat + t)[2..] == t;
  }

  lemma SweptTwo(a: char, b: char, t: string, pat: string, rep: string)
    requires |pat| == 2 && pat != [a, b] && !(b == pat[0] && t != "" && t[0] == pat[1])
    ensures Swept([a, b] + t, pat, rep) == [a, b] + Swept(t, pat, rep)
  {
    hide Swept;
    assert [a, b] + t == [a] + ([b] + t);
    SweptOne(b, t, pat, rep);
    SweptOne(a, [b] + t, pat, rep);
  }

  /** An escaped character that is not a backslash, swept once. */
  lemma SweepPlain(c: char, h: string, k: nat)
    requires k < 4 && c != '\\'
    ensures Swept(HalfEscape(c, k) + h, DecodePattern(k), DecodeResult(k))
            == HalfEscape(c, k + 1) + Swept(h, DecodePattern(k), DecodeResult(k))
  {
    hide Swept;
    var pat, rep := DecodePattern(k), DecodeResult(k);
    var letter := if c == '\r' then 'r' else if c == '\n' then 'n' else '\"';
    if HalfEscape(c, k) == [c] {
      SweptOne(c, h, pat, rep);
    } else if HalfEscape(c, k) == pat {
      SweptHit(h, pat, rep);
    } else {
      assert HalfEscape(c, k) == ['\\', letter];
      SweptTwo('\\', letter, h, pat, rep);
    }
  }

  /** A doubled backslash before text that does not complete the pattern. */
  lemma SweepBackslash(h: string, k: nat)
    requires k < 4
    requires h != "" && k < 3 ==> h[0] != DecodePattern(k)[1]
    ensures Swept("\\\\" + h, DecodePattern(k), DecodeResult(k))
            == HalfEscape('\\', k + 1) + Swept(h, DecodePattern(k), DecodeResult(k))
  {
    hide Swept;
    var pat, rep := DecodePattern(k), DecodeResult(k);
    if k == 3 {
      SweptHit(h, pat, rep);
    } else {
      SweptTwo('\\', '\\', h, pat, rep);
    }
  }

  /** A doubled backslash before the letter that completes the pattern. */
  lemma SweepMangles(u: string, k: nat)
    requires k == 1 || k == 2
    ensures Swept("\\\\" + ([DecodePattern(k)[1]] + u), DecodePattern(k), DecodeResult(k))
            == "\\" + DecodeResult(k) + Swept(u, DecodePattern(k), DecodeResult(k))
  {
    hide Swept;
    var pat, rep := DecodePattern(k), DecodeResult(k);
    assert "\\\\" + ([pat[1]] + u) == ['\\'] + (pat + u);
    SweptHit(u, pat, rep);
    SweptOne('\\', pat + u, pat, rep);
  }

  /** A backslash and the line end an earlier sweep put after it. */
  lemma SweepMangled(c: char, u: string, k: nat)
    requires (c == '\r' && 2 <= k < 4) || (c == '\n' && k == 3)
    ensures Swept(['\\', c] + u, DecodePattern(k), DecodeResult(k))
            == ['\\', c] + Swept(u, DecodePattern(k), DecodeResult(k))
  {
    hide Swept;
    var pat, rep := DecodePattern(k), DecodeResult(k);
    SweptTwo('\\', c, u, pat, rep);
  }

  lemma HalfTurned(s: string, k: nat)
    requires Turned(s, k)
    ensures Half(s, k) == ['\\', LineEnd(s[1])] + Half(s[2..], k)
  {}

  lemma HalfPlain(s: string, k: nat)
    requires s != "" && !Turned(s, k)
    ensures Half(s, k) == HalfEscape(s[0], k) + Half(s[1..], k)
  {}

  lemma {:induction false} SweepDecodes(s: string, k: nat)
    requires k < 4
    ensures Swept(Half(s, k), DecodePattern(k), DecodeResult(k)) == Half(s, k + 1)
    decreases |s|
  {
    if s == "" {
    } else if Turned(s, k) {
      SweepDecodes(s[2..], k);
      SweepDecodesTurned(s, k);
    } else if Turned(s, k + 1) {
      SweepDecodes(s[2..], k);
      SweepDecodesTurning(s, k);
    } else {
      SweepDecodes(s[1..], k);
      SweepDecodesPlain(s, k);
    }
  }

  lemma SweepDecodesTurned(s: string, k: nat)
    requires k < 4 && Turned(s, k)
    requires Swept(Half(s[2..], k), DecodePattern(k), DecodeResult(k)) == Half(s[2..], k + 1)
    ensures Swept(Half(s, k), DecodePattern(k), DecodeResult(k)) == Half(s, k + 1)
  {
    hide Swept, Half;
    HalfTurned(s, k);
    HalfTurned(s, k + 1);
    SweepMangled(LineEnd(s[1]), Half(s[2..], k), k);
  }

  lemma SweepDecodesTurning(s: string, k: nat)
    requires k < 4 && !Turned(s, k) && Turned(s, k + 1)
    requires Swept(Half(s[2..], k), DecodePattern(k), DecodeResult(k)) == Half(s[2..], k + 1)
    ensures Swept(Half(s, k), DecodePattern(k), DecodeResult(k)) == Half(s, k + 1)
  {
    hide Swept, Half;
    var u := s[2..];
    HalfPlain(s, k);
    HalfPlain(s[1..], k);
    assert s[1..][1..] == u;
    HalfTurned(s, k + 1);
    SweepMangles(Half(u, k), k);
    assert "\\" + DecodeResult(k) == ['\\', LineEnd(s[1])];
  }

  lemma SweepDecodesPlain(s: string, k: nat)
    requires k < 4 && s != "" && !Turned(s, k + 1)
    requires Swept(Half(s[1..], k), DecodePattern(k), DecodeResult(k)) == Half(s[1..], k + 1)
    ensures Swept(Half(s, k), DecodePattern(k), DecodeResult(k)) == Half(s, k + 1)
  {
    HalfHead(s[1..], k);
    hide Swept, Half;
    HalfPlain(s, k);
    HalfPlain(s, k + 1);
    if s[0] == '\\' {
      SweepBackslash(Half(s[1..], k), k);
    } else {
      SweepPlain(s[0], Half(s[1..], k), k);
    }
  }

  /** The exact law of the two escape routines, for every string. */
  lemma DecodeAfterEncode(s: string)
    ensures Decoded(Encoded(s)) == Mangled(s)
  {
    EncodedEscapesEachCharacter(s);
    HalfZero(s);
    SweepDecodes(s, 0);
    SweepDecodes(s, 1);
    SweepDecodes(s, 2);
    SweepDecodes(s, 3);
    HalfFour(s);
  }

  lemma {:induction false} MangledKeepsExactlyCleanStrings(s: string)
    ensures |Mangled(s)| == |s|
    ensures Mangled(s) == s <==> Clean(s)
    decreases |s|
  {
    if |s| >= 2 && s[0] == '\\' && (s[1] == 'r' || s[1] == 'n') {
      MangledKeepsExactlyCleanStrings(s[2..]);
      assert Mangled(s)[1] != s[1];
      assert !Clean(s);
    } else if s != "" {
      var t := s[1..];
      MangledKeepsExactlyCleanStrings(t);
      assert Mangled(s) == [s[0]] + Mangled(t);
      assert s == [s[0]] + t;
      assert Mangled(s)[1..] == Mangled(t);
      assert Clean(s) <==> Clean(t) by {
        if Clean(t) {
          forall i | 0 <= i < |s| - 1 && s[i] == '\\' ensures s[i + 1] != 'r' && s[i + 1] != 'n' {
            if i > 0 { assert s[i] == t[i - 1] && s[i + 1] == t[i]; }
          }
        }
        if Clean(s) {
          forall i | 0 <= i < |t| - 1 && t[i] == '\\' ensures t[i + 1] != 'r' && t[i + 1] != 'n' {
            assert t[i] == s[i + 1] && t[i + 1] == s[i + 2];
          }
        }
      }
    }
  }

  /** decode undoes encode on exactly the strings without a backslash before r or n. */
  lemma DecodeInvertsEncodeIffClean(s: string)
    ensures Decoded(Encoded(s)) == s <==> Clean(s)
  {
    DecodeAfterEncode(s);
    MangledKeepsExactlyCleanStrings(s);
  }

  lemma {:induction false} MangledIsClean(s: string)
    ensures Clean(Mangled(s))
    decreases |s|
  {
    var m := Mangled(s);
    if |s| >= 2 && s[0] == '\\' && (s[1] == 'r' || s[1] == 'n') {
      var u := Mangled(s[2..]);
      MangledIsClean(s[2..]);
      assert m == ['\\', m[1]] + u;
      forall i | 0 <= i < |m| - 1 && m[i] == '\\' ensures m[i + 1] != 'r' && m[i + 1] != 'n' {
        if i >= 2 { assert m[i] == u[i - 2] && m[i + 1] == u[i - 1]; }
      }
    } else if s != "" {
      var u := Mangled(s[1..]);
      MangledIsClean(s[1..]);
      assert m == [s[0]] + u;
      forall i | 0 <= i < |m| - 1 && m[i] == '\\' ensures m[i + 1] != 'r' && m[i + 1] != 'n' {
        if i >= 1 { assert m[i] == u[i - 1] && m[i + 1] == u[i]; }
      }
    }
  }

  /** The concrete string on which the pair of routines fails: backslash, n. */
  lemma BackslashNIsNotRestored()
    ensures Decoded(Encoded("\\n")) == "\\\n" != "\\n"
  {
    DecodeAfterEncode("\\n");
    assert "\\n"[2..] == "";
    assert Mangled("") == "";
    assert Mangled("\\n") == "\\\n" + Mangled("");
  }
}
