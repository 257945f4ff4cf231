/** The byte-at-a-time machine that OnRead refines. When every byte is tame, a read of any
    size does what its bytes do one by one, so the way a stream is cut into reads is lost. */
module Stream {
  import opened Words
  import opened Bytes
  import opened SocketInput
  import opened Reads

  /** One byte. The other half of a line-end pair is swallowed in line mode and in raw mode. */
  function Step(s: Sock, b: char): Sock {
    if s.skip && IsEol(b) && b != s.c then s.(skip := false)
    else if s.lineMode then (if IsEol(b) then EndLine(s, "", b) else Commit(s, [b]))
    else RawRead(s, [b])
  }

  function Run(s: Sock, d: string): Sock
    decreases d
  {
    if d == "" then s else Run(Step(s, d[0]), d[1..])
  }

  /** Raw data that belongs to a body still being read. */
  predicate BodyOpen(s: Sock) {
    && s.kind.HttpClient? && !s.http.header && s.http.chunkState <= 4 && s.http.bodyLeft < TWO_64
    && (if s.http.chunked then
          (s.http.chunkState == 1 ==> s.http.chunkSize > 0) &&
          (s.http.chunkState == 0 || s.http.chunkState == 4 ==> !EndsCrlf(s.http.chunkLine))
        else s.http.bodyLeft > 0)
  }

  /** The bytes on which the code does not depend on where a read ended: no NUL and no line
      that is too long, no lone opposite line end after a stale m_skip_c, raw data only inside a body. */
  predicate Tame(s: Sock, b: char) {
    if s.skip && IsEol(b) && b != s.c then s.line == ""
    else if s.lineMode then IsEol(b) || (b != NUL && |s.line| + 1 < MAX_LINE)
    else !s.skip && BodyOpen(s)
  }

  predicate TameRun(s: Sock, d: string)
    decreases d
  {
    d == "" || (Tame(s, d[0]) && TameRun(Step(s, d[0]), d[1..]))
  }

  lemma {:induction false} RunConcat(s: Sock, a: string, b: string)
    ensures Run(s, a + b) == Run(Run(s, a), b)
    ensures TameRun(s, a + b) <==> TameRun(s, a) && TameRun(Run(s, a), b)
    decreases a
  {
    hide Step, Tame;
    if a == "" {
      assert a + b == b;
    } else {
      assert (a + b)[1..] == a[1..] + b;
      RunConcat(Step(s, a[0]), a[1..], b);
    }
  }

  // ----- raw data one byte at a time -----

  lemma DataEventsConcat(a: string, b: string)
    ensures DataEvents(a + b) == DataEvents(a) + DataEvents(b)
  {}

  lemma EmitDataConcat(s: Sock, a: string, b: string)
    ensures EmitData(s, a + b) == EmitData(EmitData(s, a), b)
  {
    DataEventsConcat(a, b);
  }

  /** What follows the first byte of raw data. */
  function AfterRaw(s: Sock, d: string): Sock {
    if d == "" then s else if s.lineMode then Read(s, d) else RawRead(s, d)
  }

  lemma ReadNothing(s: Sock)
    ensures Read(s, "") == s && ChunkRead(s, "") == s
  {}

  lemma TakeDataConcat(s: Sock, a: string, b: string)
    requires s.http.chunkState == 1 && |a| + |b| <= s.http.chunkSize && |a| < s.http.chunkSize
    ensures TakeData(s, a + b) == TakeData(TakeData(s, a), b)
  {
    hide EmitData;
    EmitDataConcat(s, a, b);
    EmitDataHttp(s, a, s.http);
    EmitDataHttp(EmitData(s, a), b, TakeData(s, a).http);
  }

  lemma ChunkDataCons(s: Sock, b: char, rest: string)
    requires s.http.chunkState == 1 && s.http.chunkSize > 0
    ensures ChunkRead(s, [b]) == TakeData(s, [b])
    ensures ChunkRead(s, [b] + rest) == ChunkRead(TakeData(s, [b]), rest)
  {
    var d, h := [b] + rest, s.http;
    var n := if h.chunkSize < |d| then h.chunkSize else |d|;
    var s1 := TakeData(s, [b]);
    assert s1.http.chunkSize == h.chunkSize - 1 && (s1.http.chunkSize > 0 ==> s1.http.chunkState == 1);
    hide TakeData, ChunkRead;
    assert d[0..] == d && d[0..n] == [b] + rest[..n - 1] && d[n..] == rest[n - 1..];
    assert [b][0..] == [b] && [b][0..1] == [b] && [b][1..] == "";
    ChunkTurnData(s, [b], 0);
    ReadNothing(s1);
    ChunkTurnData(s, d, 0);
    if n == 1 {
      assert d[0..n] == [b] && rest[0..] == rest;
    } else {
      TakeDataConcat(s, [b], rest[..n - 1]);
      assert rest[0..] == rest && rest[0..n - 1] == rest[..n - 1];
      ChunkTurnData(s1, rest, 0);
    }
  }

  lemma EmitDataHttp(s: Sock, d: string, h: Http)
    ensures EmitData(s.(http := h), d) == EmitData(s, d).(http := h)
    ensures EmitData(s, d).http == s.http && EmitData(s, d).lineMode == s.lineMode
  {}

  lemma LineTakeCons(line: string, b: char, rest: string)
    requires !EndsCrlf(line)
    ensures LineTake(line, [b] + rest) == 1 + LineTake(line + [b], rest)
    ensures LineTake(line, [b]) == 1
    ensures line + ([b] + rest)[..1 + LineTake(line + [b], rest)] == (line + [b]) + rest[..LineTake(line + [b], rest)]
    ensures ([b] + rest)[1 + LineTake(line + [b], rest)..] == rest[LineTake(line + [b], rest)..]
  {
    hide EndsCrlf;
    assert ([b] + rest)[1..] == rest && [b][1..] == "";
    assert LineTake(line + [b], "") == 0;
  }

  /** Taking one byte of a chunk-size or trailer line, and acting on it if it completes the line. */
  function LineByte(s: Sock, b: char): Sock { LineTaken(s, s.http.chunkLine + [b]) }

  lemma ChunkLineByte(s: Sock, b: char, d: string)
    requires s.http.chunkState == 0 || s.http.chunkState == 4
    requires d != "" && d[0] == b && LineTake(s.http.chunkLine, d) == 1
    ensures |d| == 1 || EndsCrlf(s.http.chunkLine + [b])
    ensures |d| == 1 ==> ChunkRead(s, d) == LineByte(s, b)
    ensures EndsCrlf(s.http.chunkLine + [b]) ==>
              ChunkRead(s, d) == if s.http.chunkState == 4 then Read(LineByte(s, b), d[1..])
                                 else ChunkRead(LineByte(s, b), d[1..])
  {
    hide ChunkRead, LineTake, EndsCrlf, Read, LineTaken;
    assert d[0..] == d && d[0..1] == [b];
    ChunkTurnLine(s, d, 0, 1);
    if |d| == 1 {
      assert d[1..] == "";
      ReadNothing(LineByte(s, b));
    }
  }

  lemma ChunkLineCons(s: Sock, b: char, rest: string)
    requires !s.lineMode
    requires (s.http.chunkState == 0 || s.http.chunkState == 4) && !EndsCrlf(s.http.chunkLine)
    ensures ChunkRead(s, [b]) == LineByte(s, b)
    ensures ChunkRead(s, [b] + rest)
         == if LineByte(s, b).lineMode then Read(LineByte(s, b), rest) else ChunkRead(LineByte(s, b), rest)
  {
    hide ChunkRead, LineTake, EndsCrlf, Read, ChunkStart;
    var d, h := [b] + rest, s.http;
    LineTakeCons(h.chunkLine, b, rest);
    ChunkLineByte(s, b, [b]);
    if EndsCrlf(h.chunkLine + [b]) {
      LineTakeDone(h.chunkLine + [b], rest);
      ChunkLineByte(s, b, d);
      assert d[1..] == rest;
    } else if rest == "" {
      ReadNothing(LineByte(s, b));
      assert d == [b];
    } else {
      ChunkLineLonger(s, b, rest);
    }
  }

  lemma LineByteInside(s: Sock, b: char)
    requires !EndsCrlf(s.http.chunkLine + [b])
    ensures LineByte(s, b) == s.(http := s.http.(chunkLine := s.http.chunkLine + [b]))
  {
    hide EndsCrlf;
  }

  lemma ChunkLineLonger(s: Sock, b: char, rest: string)
    requires !s.lineMode && rest != ""
    requires s.http.chunkState == 0 || s.http.chunkState == 4
    requires !EndsCrlf(s.http.chunkLine) && !EndsCrlf(s.http.chunkLine + [b])
    ensures ChunkRead(s, [b] + rest) == ChunkRead(LineByte(s, b), rest)
  {
    var d, line := [b] + rest, s.http.chunkLine;
    hide ChunkRead, LineTake, EndsCrlf, Read, LineTaken, LineByte;
    var k := LineTake(line + [b], rest);
    LineByteInside(s, b);
    LineTakeCons(line, b, rest);
    LineTakenIgnoresLine(s, line + [b], line + d[..1 + k]);
    assert d[0..] == d && d[0..1 + k] == d[..1 + k];
    assert rest[0..] == rest && rest[0..k] == rest[..k];
    ChunkTurnLine(s, d, 0, 1 + k);
    ChunkTurnLine(LineByte(s, b), rest, 0, k);
  }

  /** The first byte of raw data inside a chunked body can be split off. */
  lemma ChunkCons(s: Sock, b: char, rest: string)
    requires !s.lineMode && BodyOpen(s) && s.http.chunked
    ensures var s1 := ChunkRead(s, [b]);
      && ChunkRead(s, [b] + rest) == (if s1.lineMode then Read(s1, rest) else ChunkRead(s1, rest))
      && s1.kind == s.kind && s1.skip == s.skip && s1.line == s.line
      && (!s1.lineMode ==> s1.http.chunked && s1.http.header == s.http.header)
  {
    hide ChunkRead, LineTake, EndsCrlf, ChunkStart, Read;
    var d := [b] + rest;
    assert d[0..] == d && d[1..] == rest && [b][0..] == [b] && [b][1..] == "";
    if s.http.chunkState == 0 || s.http.chunkState == 4 {
      ChunkLineCons(s, b, rest);
    } else if s.http.chunkState == 1 {
      ChunkDataCons(s, b, rest);
    } else {
      ChunkTurnSkip(s, d, 0);
      ChunkTurnSkip(s, [b], 0);
      ReadNothing(s.(http := s.http.(chunkState := if s.http.chunkState == 2 then 3 else 0)));
    }
  }

  /** Splitting one byte off the raw data of a body. */
  lemma RawCons(s: Sock, b: char, rest: string)
    requires !s.lineMode && BodyOpen(s)
    requires var s1 := RawRead(s, [b]); rest == "" || s1.lineMode || BodyOpen(s1)
    ensures RawRead(s, [b] + rest) == AfterRaw(RawRead(s, [b]), rest)
    ensures var s1 := RawRead(s, [b]); s1.kind == s.kind && s1.skip == s.skip && s1.line == s.line
  {
    hide ChunkRead, Read, FixedBody, CloseBody, EndsCrlf;
    if rest == "" { assert [b] + rest == [b]; }
    if s.http.chunked {
      ChunkCons(s, b, rest);
      ReadNothing(ChunkRead(s, [b]));
    } else if !s.http.http11 || !s.http.keepalive {
      CloseKeeps(s, [b]);
      CloseCons(s, b, rest);
    } else {
      FixedCons(s, b, rest);
    }
  }

  lemma CloseKeeps(s: Sock, d: string)
    ensures var s1 := CloseBody(s, d);
      s1 == s.(trace := s1.trace, http := s.http.(bodyLeft := s1.http.bodyLeft))
  {}

  lemma TakeBodyConcat(s: Sock, a: string, b: string)
    requires |a| <= s.http.bodyLeft
    ensures TakeBody(s, a + b) == TakeBody(TakeBody(s, a), b)
    ensures TakeBody(s, a).http == s.http.(bodyLeft := ToSizeT(s.http.bodyLeft - |a|))
  {
    hide EmitData, ToSizeT;
    var s1 := TakeBody(s, a);
    EmitDataConcat(s, a, b);
    EmitDataHttp(s, a, s.http);
    EmitDataHttp(EmitData(s, a), b, s1.http);
    SizeTSubtracts(s.http.bodyLeft - |a|, |b|);
    assert s.http.bodyLeft - |a + b| == s.http.bodyLeft - |a| - |b|;
  }

  lemma CloseCons(s: Sock, b: char, rest: string)
    requires 0 < s.http.bodyLeft < TWO_64
    requires rest == "" || CloseBody(s, [b]).http.bodyLeft > 0
    ensures rest == "" ==> CloseBody(s, [b] + rest) == CloseBody(s, [b])
    ensures rest != "" ==> CloseBody(s, [b] + rest) == CloseBody(CloseBody(s, [b]), rest)
  {
    hide TakeBody;
    if rest == "" {
      assert [b] + rest == [b];
    } else {
      TakeBodyConcat(s, [b], rest);
    }
  }

  lemma SizeTSubtracts(n: int, k: nat)
    ensures ToSizeT(ToSizeT(n) - k) == ToSizeT(n - k)
  {
    ModShift(n - k, n / TWO_64);
  }

  lemma ModShift(x: int, q: int)
    ensures (x - q * TWO_64) % TWO_64 == x % TWO_64
  {}

  lemma FixedBodyIs(s: Sock, head: string, tail: string)
    requires |head| == if s.http.bodyLeft < |head + tail| then s.http.bodyLeft else |head + tail|
    ensures var s1 := TakeBody(s, head);
      FixedBody(s, head + tail)
      == if s1.http.bodyLeft == 0 then Read(NextMessage(Emit(s1, DataComplete)), tail) else s1
  {
    hide Read, TakeBody;
    assert (head + tail)[..|head|] == head && (head + tail)[|head|..] == tail;
  }

  lemma FixedCons(s: Sock, b: char, rest: string)
    requires 0 < s.http.bodyLeft < TWO_64
    ensures var s1 := TakeBody(s, [b]);
      && FixedBody(s, [b]) == (if s.http.bodyLeft == 1 then NextMessage(Emit(s1, DataComplete)) else s1)
      && FixedBody(s, [b] + rest)
         == if s.http.bodyLeft == 1 then Read(NextMessage(Emit(s1, DataComplete)), rest)
            else if rest == "" then s1 else FixedBody(s1, rest)
  {
    hide Read, TakeBody, FixedBody;
    var left, s1 := s.http.bodyLeft, TakeBody(s, [b]);
    assert s1.http.bodyLeft == left - 1;
    assert [b] + "" == [b];
    FixedBodyIs(s, [b], "");
    ReadNothing(NextMessage(Emit(s1, DataComplete)));
    if left == 1 {
      FixedBodyIs(s, [b], rest);
    } else if rest != "" {
      var n := if left - 1 < |rest| then left - 1 else |rest|;
      var head, tail := rest[..n], rest[n..];
      assert head + tail == rest && ([b] + head) + tail == [b] + rest;
      TakeBodyConcat(s, [b], head);
      FixedBodyIs(s, [b] + head, tail);
      FixedBodyIs(s1, head, tail);
    } else {
      assert [b] + rest == [b];
    }
  }

  // ----- a read is its bytes, one by one -----

  lemma CommitGrows(s: Sock, seg: string, b: char)
    requires NUL !in seg && b != NUL && (|s.line| + |seg| + 1 < MAX_LINE)
    ensures Commit(Commit(s, seg), [b]) == Commit(s, seg + [b])
    ensures Commit(s, seg) == s.(line := s.line + seg)
  {
    UpToPlain(seg);
    UpToPlain([b]);
    UpToPlain(seg + [b]);
    assert s.line + seg + [b] == s.line + (seg + [b]);
  }

  lemma UpToPlain(seg: string)
    requires NUL !in seg
    ensures UpTo(seg, NUL) == seg
  {
    assert forall k :: 0 <= k < |seg| ==> seg[k] in seg;
  }

  /** A piece of a line that can be kept pending without being looked at. */
  predicate Pending(s: Sock, seg: string) {
    && NUL !in seg
    && (seg == "" || |s.line| + |seg| < MAX_LINE)
  }

  lemma {:induction false} ScanIsRun(s: Sock, seg: string, rest: string)
    requires s.lineMode && Pending(s, seg) && |rest| <= BUFSIZE_READ
    requires seg == "" && rest != "" ==> !(s.skip && IsEol(rest[0]) && rest[0] != s.c)
    requires TameRun(Commit(s, seg), rest)
    ensures Scan(s, seg, rest) == Run(Commit(s, seg), rest)
    decreases |rest|, 1
  {
    var s0 := Commit(s, seg);
    if rest == "" {
    } else if !IsEol(rest[0]) {
      PendingGrows(s, seg, rest[0]);
      ScanIsRun(s, seg + [rest[0]], rest[1..]);
    } else {
      ScanEolIsRun(s, seg, rest);
    }
  }

  lemma PendingGrows(s: Sock, seg: string, b: char)
    requires s.lineMode && Pending(s, seg) && !IsEol(b) && Tame(Commit(s, seg), b)
    ensures Pending(s, seg + [b]) && Commit(s, seg + [b]) == Step(Commit(s, seg), b)
  {
    hide EndLine, RawRead;
    UpToPlain(seg);
    assert Commit(s, seg) == s.(line := s.line + seg) by { if seg == "" { assert s.line + seg == s.line; } }
    CommitGrows(s, seg, b);
  }

  lemma EndLineOfCommit(s: Sock, seg: string, b: char)
    ensures EndLine(s, seg, b) == EndLine(Commit(s, seg), "", b)
    ensures EndLine(s, seg, b).skip && EndLine(s, seg, b).c == b && EndLine(s, seg, b).line == ""
  {
    hide LineRead;
  }

  lemma ScanEolIsRun(s: Sock, seg: string, rest: string)
    requires s.lineMode && Pending(s, seg) && 0 < |rest| <= BUFSIZE_READ && IsEol(rest[0])
    requires seg == "" ==> !(s.skip && rest[0] != s.c)
    requires TameRun(Commit(s, seg), rest)
    ensures Scan(s, seg, rest) == Run(Commit(s, seg), rest)
    decreases |rest|, 0
  {
    var s0, b := Commit(s, seg), rest[0];
    EndLineOfCommit(s, seg, b);
    SwallowNeedsFreshLine(s, seg, b);
    var s1 := EndLine(s, seg, b);
    assert Step(s0, b) == s1;
    var (s2, r) := AfterEol(s, seg, rest);
    if r != rest[1..] {
      assert rest[1..][1..] == rest[2..];
      assert Step(s1, rest[1]) == s2;
    }
    assert TameRun(s2, r) && Run(s0, rest) == Run(s2, r);
    assert Commit(s2, "") == s2;
    if s2.lineMode {
      ScanIsRun(s2, "", r);
    } else if r != "" {
      RawIsRun(s2, r);
    }
  }

  /** After a commit the other half of a pair can only be due when nothing was pending. */
  lemma SwallowNeedsFreshLine(s: Sock, seg: string, b: char)
    requires s.lineMode && Pending(s, seg) && IsEol(b) && Tame(Commit(s, seg), b)
    requires seg == "" ==> !(s.skip && b != s.c)
    ensures !(Commit(s, seg).skip && b != Commit(s, seg).c)
  {
    UpToPlain(seg);
  }

  lemma {:induction false} RawIsRun(s: Sock, d: string)
    requires !s.lineMode && d != "" && |d| <= BUFSIZE_READ
    requires TameRun(s, d) && !(s.skip && IsEol(d[0]) && d[0] != s.c)
    ensures RawRead(s, d) == Run(s, d)
    decreases |d|, 2
  {
    hide RawRead, Read, BodyOpen;
    var b, rest := d[0], d[1..];
    var s1 := RawRead(s, [b]);
    assert d == [b] + rest;
    assert Step(s, b) == s1;
    if rest == "" {
      assert d == [b];
      RawCons(s, b, "");
    } else {
      assert s1.lineMode || BodyOpen(s1) by {
        RawCons(s, b, "");
        assert Tame(s1, rest[0]);
      }
      RawCons(s, b, rest);
      if s1.lineMode {
        ReadIsRun(s1, rest);
      } else {
        RawIsRun(s1, rest);
      }
    }
  }

  /** One read of tame bytes does what the bytes do one at a time, unless it starts between
      the halves of the line end that switched to raw data. */
  lemma {:induction false} ReadIsRun(s: Sock, d: string)
    requires |d| <= BUFSIZE_READ && TameRun(s, d)
    requires d == "" || s.lineMode || !s.skip
    ensures Read(s, d) == Run(s, d)
    decreases |d|, 3
  {
    if d == "" {
    } else if !s.lineMode {
      hide RawRead;
      RawIsRun(s, d);
    } else {
      hide Scan;
      assert Commit(s, "") == s;
      if s.skip && IsEol(d[0]) && d[0] != s.c {
        ScanIsRun(s.(skip := false), "", d[1..]);
      } else {
        ScanIsRun(s, "", d);
      }
    }
  }

  // ----- a sequence of reads -----

  /** No read starts between the halves of the line end that switches to raw data. */
  predicate CleanCuts(s: Sock, parts: seq<string>)
    decreases parts
  {
    parts == [] ||
    ((parts[0] == "" || s.lineMode || !s.skip) && CleanCuts(Run(s, parts[0]), parts[1..]))
  }

  /** The split-invariance theorem: on tame streams the reads do what the bytes do. */
  lemma {:induction false} ReadAllIsRun(s: Sock, parts: seq<string>)
    requires Legal(parts) && TameRun(s, Concat(parts)) && CleanCuts(s, parts)
    ensures ReadAll(s, parts) == Run(s, Concat(parts))
    decreases parts
  {
    if parts != [] {
      hide Read, Tame, Step;
      RunConcat(s, parts[0], Concat(parts[1..]));
      ReadIsRun(s, parts[0]);
      ReadAllIsRun(Read(s, parts[0]), parts[1..]);
    }
  }
}
