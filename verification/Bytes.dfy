/** Bytes, and what several models need of sequences. */
module Bytes {
  type byte = x: int | 0 <= x < 256
  type bytes = seq<byte>

  datatype Option<T> = None | Some(value: T)

  /** Where an element stands first, or the length. */
  function IndexOf<T(==)>(s: seq<T>, c: T): (i: nat)
    ensures i <= |s|
    ensures i < |s| ==> s[i] == c
    ensures c !in s[..i]
  {
    if s == [] || s[0] == c then 0
    else
      var i := 1 + IndexOf(s[1..], c);
      assert s[..i] == [s[0]] + s[1..][..i - 1];
      i
  }

  /** What stands before the first such element: a C string, before its NUL. */
  function UpTo<T(==)>(s: seq<T>, c: T): (r: seq<T>)
    ensures r <= s && c !in r
    ensures r == s || s[|r|] == c
  {
    s[..IndexOf(s, c)]
  }

  /** Pieces, one after the other. */
  function Concat<T>(pieces: seq<seq<T>>): seq<T> {
    if pieces == [] then [] else pieces[0] + Concat(pieces[1..])
  }

  lemma {:induction false} ConcatAppend<T>(pieces: seq<seq<T>>, x: seq<T>)
    ensures Concat(pieces + [x]) == Concat(pieces) + x
  {
    if pieces == [] {
      assert [x][1..] == [];
    } else {
      assert (pieces + [x])[1..] == pieces[1..] + [x];
      ConcatAppend(pieces[1..], x);
    }
  }

  /** memcpy: `data` with the bytes from `at` on overwritten by `s`. */
  function Copied(data: bytes, at: nat, s: bytes): (r: bytes)
    requires at + |s| <= |data|
    ensures |r| == |data|
    ensures forall i :: 0 <= i < |data| ==> r[i] == if at <= i < at + |s| then s[i - at] else data[i]
  {
    data[..at] + s + data[at + |s|..]
  }
}
