/** Bodies of connections that are not kept alive: they end with the connection, but OnDataComplete
    is to be called when the announced bytes have come. */
module ClosingBody {
  import opened Words
  import opened Bytes
  import opened SocketInput
  import opened Reads
  import opened Stream

  /** Some non-empty read ends exactly with byte `n`. */
  predicate SomeReadEndsAt(parts: seq<string>, n: int)
    decreases parts
  {
    parts != [] && ((parts[0] != "" && |parts[0]| == n) || SomeReadEndsAt(parts[1..], n - |parts[0]|))
  }

  predicate InClosingBody(s: Sock) {
    && s.kind.HttpClient? && !s.lineMode && !s.http.header && !s.http.chunked
    && (!s.http.http11 || !s.http.keepalive)
  }

  /** Without keep-alive OnDataComplete is called exactly if a read ends with the last announced
      byte: more data in the same read makes the counter wrap past zero. */
  lemma {:induction false} ClosingBodyCompletes(s: Sock, parts: seq<string>, n: int)
    requires InClosingBody(s) && Legal(parts)
    requires s.http.bodyLeft == ToSizeT(n) && -TWO_64 < n - |Concat(parts)| && n < TWO_64
    ensures var r := ReadAll(s, parts);
      && |s.trace| <= |r.trace| && r.trace[..|s.trace|] == s.trace
      && (DataComplete in r.trace[|s.trace|..] <==> SomeReadEndsAt(parts, n))
    decreases parts
  {
    if parts != [] {
      var p := parts[0];
      var s1 := Read(s, p);
      ClosingRead(s, p, n);
      hide Read, InClosingBody;
      ClosingBodyCompletes(s1, parts[1..], n - |p|);
      var r := ReadAll(s, parts);
      assert r.trace[|s.trace|..] == s1.trace[|s.trace|..] + r.trace[|s1.trace|..] by {
        assert r.trace[..|s1.trace|] == s1.trace;
      }
      assert r.trace[..|s.trace|] == r.trace[..|s1.trace|][..|s.trace|];
    }
  }

  lemma ClosingRead(s: Sock, p: string, n: int)
    requires InClosingBody(s) && |p| <= BUFSIZE_READ
    requires s.http.bodyLeft == ToSizeT(n) && -TWO_64 < n - |p| && n < TWO_64
    ensures var s1 := Read(s, p);
      && InClosingBody(s1) && s1.http.bodyLeft == ToSizeT(n - |p|)
      && |s.trace| <= |s1.trace| && s1.trace[..|s.trace|] == s.trace
      && (DataComplete in s1.trace[|s.trace|..] <==> p != "" && |p| == n)
  {
    if p == "" {
      assert s.trace[|s.trace|..] == [];
    } else {
      ModZero(n - |p|);
      SizeTSubtracts(n, |p|);
      NoCompletionInData(p);
      hide ToSizeT, DataEvents, RawRead, Scan;
      var s1 := CloseBody(s, p);
      assert Read(s, p) == s1 by { ReadRawClosing(s, p); }
      if n == |p| {
        assert s1.trace == s.trace + DataEvents(p) + [DataComplete];
        assert s1.trace[|s.trace|..] == DataEvents(p) + [DataComplete];
      } else {
        assert s1.trace == s.trace + DataEvents(p);
        assert s1.trace[|s.trace|..] == DataEvents(p);
      }
    }
  }

  lemma NoCompletionInData(p: string)
    ensures DataComplete !in DataEvents(p)
  {}

  lemma ModZero(x: int)
    requires -TWO_64 < x < TWO_64
    ensures ToSizeT(x) == 0 <==> x == 0
  {}

  lemma ReadRawClosing(s: Sock, d: string)
    requires InClosingBody(s) && 0 < |d| <= BUFSIZE_READ
    ensures Read(s, d) == CloseBody(s, d)
  {}
}
