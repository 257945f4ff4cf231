/** The chunked transfer coding (section 7.1 of RFC 9112): what OnRawData delivers from the
    first chunked body of a connection, whatever the reads, and what becomes of a second one. */
module Chunks {
  import opened Words
  import opened Bytes
  import opened SocketInput
  import opened Reads
  import opened Stream

  // ----- hexadecimal sizes -----

  predicate IsHexDigit(c: char) { '0' <= c <= '9' || 'a' <= c <= 'f' || 'A' <= c <= 'F' }

  function HexDigitValue(c: char): nat
    requires IsHexDigit(c)
  {
    if c <= '9' then (c - '0') as nat
    else if c <= 'F' then 10 + (c - 'A') as nat
    else 10 + (c - 'a') as nat
  }

  predicate HexText(s: string) { forall k :: 0 <= k < |s| ==> IsHexDigit(s[k]) }

  /** The number a string of hexadecimal digits denotes. */
  function HexNumber(s: string): nat
    requires HexText(s)
  {
    if s == "" then 0 else 16 * HexNumber(s[..|s| - 1]) + HexDigitValue(s[|s| - 1])
  }

  /** hex2unsigned is exact on the numbers that fit. */
  lemma {:induction false} HexValueIsExact(s: string)
    requires HexText(s) && HexNumber(s) < TWO_32
    ensures HexValue(s) == HexNumber(s)
  {
    if s != "" {
      HexValueIsExact(s[..|s| - 1]);
      assert HexDigit(s[|s| - 1]) == HexDigitValue(s[|s| - 1]);
    }
  }

  // ----- the coding -----

  /** A chunk; `ext` is what follows the size on its line. */
  datatype Chunk = Chunk(size: string, ext: string, data: string)

  predicate SizeLine(size: string, ext: string) {
    && size != "" && HexText(size)
    && (ext != "" ==> ext[0] == ';' || ext[0] == ' ' || ext[0] == '\t')
    && CR !in ext && LF !in ext
  }

  predicate ChunkOk(c: Chunk) {
    SizeLine(c.size, c.ext) && HexNumber(c.size) == |c.data| && 0 < |c.data| < TWO_32
  }

  function EncodedChunk(c: Chunk): string { c.size + c.ext + CRLF + (c.data + CRLF) }

  function EncodedChunks(cs: seq<Chunk>): string {
    if cs == [] then "" else EncodedChunk(cs[0]) + EncodedChunks(cs[1..])
  }

  /** A body without trailer fields; `zero` and `ext` form the line of the last chunk. */
  function EncodedBody(cs: seq<Chunk>, zero: string, ext: string): string {
    EncodedChunks(cs) + (zero + ext + CRLF + CRLF)
  }

  function DecodedBody(cs: seq<Chunk>): string {
    if cs == [] then "" else cs[0].data + DecodedBody(cs[1..])
  }

  // ----- running through a body -----

  /** Raw data, a byte at a time; m_skip_c plays no part in it. */
  function RawRun(s: Sock, e: string): Sock
    decreases e
  {
    if e == "" then s else RawRun(RawRead(s, [e[0]]), e[1..])
  }

  /** Every byte of `e` is raw body data for the socket. */
  predicate BodyRun(s: Sock, e: string)
    decreases e
  {
    e == "" || (!s.lineMode && BodyOpen(s) && BodyRun(RawRead(s, [e[0]]), e[1..]))
  }

  lemma {:induction false} BodyRunConcat(s: Sock, a: string, b: string)
    ensures RawRun(s, a + b) == RawRun(RawRun(s, a), b)
    ensures BodyRun(s, a + b) <==> BodyRun(s, a) && BodyRun(RawRun(s, a), b)
    decreases a
  {
    hide RawRead, BodyOpen;
    if a == "" {
      assert a + b == b;
    } else {
      assert (a + b)[1..] == a[1..] + b;
      BodyRunConcat(RawRead(s, [a[0]]), a[1..], b);
    }
  }

  /** A socket in a chunked body, in the given state with the given unfinished line. */
  predicate InChunks(s: Sock, state: nat, line: string) {
    && s.kind.HttpClient? && !s.lineMode && s.line == ""
    && !s.http.header && s.http.chunked && s.http.bodyLeft < TWO_64
    && s.http.chunkState == state && s.http.chunkLine == line && state <= 4
  }

  lemma StepInChunks(s: Sock, b: char, state: nat, line: string)
    requires InChunks(s, state, line)
    ensures RawRead(s, [b]) == ChunkRead(s, [b])
  {
    hide ChunkRead;
  }

  lemma NoCrlf(line: string, b: char)
    requires b != LF
    ensures !EndsCrlf(line + [b])
  {
    if line != "" {
      assert (line + [b])[|line| - 1..][1] == b;
    }
  }

  /** One more byte of an unfinished line. */
  lemma LineByteRun(s: Sock, b: char, state: nat, line: string)
    requires InChunks(s, state, line) && (state == 0 || state == 4) && !EndsCrlf(line)
    ensures BodyOpen(s) && RawRead(s, [b]) == LineTaken(s, line + [b])
    ensures b != LF ==> !EndsCrlf(line + [b])
    ensures b != LF ==> RawRead(s, [b]) == s.(http := s.http.(chunkLine := line + [b]))
  {
    hide ChunkRead;
    StepInChunks(s, b, state, line);
    ChunkLineCons(s, b, "");
    if b != LF { NoCrlf(line, b); }
  }

  lemma {:induction false} LineBytesRun(s: Sock, t: string, state: nat, line: string)
    requires InChunks(s, state, line) && (state == 0 || state == 4) && !EndsCrlf(line) && LF !in t
    ensures BodyRun(s, t) && RawRun(s, t) == s.(http := s.http.(chunkLine := line + t))
    ensures !EndsCrlf(line + t)
    decreases t
  {
    hide RawRead, BodyOpen, EndsCrlf;
    if t == "" {
      assert line + t == line;
    } else {
      assert t[0] in t;
      LineByteRun(s, t[0], state, line);
      assert forall c :: c in t[1..] ==> c in t;
      LineBytesRun(RawRead(s, [t[0]]), t[1..], state, line + [t[0]]);
      assert line + [t[0]] + t[1..] == line + t;
    }
  }

  /** What may stand before a size line: nothing, or the LF of a blank line that a read has cut. */
  predicate Leading(pre: string) { pre == "" || pre == [LF] }

  /** A complete line of state 0 or 4, with its CRLF. */
  lemma LineRun(s: Sock, pre: string, t: string, state: nat)
    requires InChunks(s, state, pre) && Leading(pre) && (state == 0 || state == 4) && LF !in t
    ensures BodyRun(s, t + CRLF) && RawRun(s, t + CRLF) == LineTaken(s, pre + t + CRLF)
  {
    var line := t + [CR];
    assert line + [LF] == t + CRLF && pre + line + [LF] == pre + t + CRLF && !EndsCrlf(pre);
    assert LF !in line;
    hide RawRead, BodyOpen, EndsCrlf, LineTaken, RawRun, BodyRun;
    LineBytesRun(s, line, state, pre);
    var s1 := RawRun(s, line);
    LineByteRun(s1, LF, state, pre + line);
    LineTakenIgnoresLine(s, pre + line, pre + line + [LF]);
    OneByteRun(s1, LF);
    BodyRunConcat(s, line, [LF]);
  }

  lemma OneByteRun(s: Sock, b: char)
    ensures RawRun(s, [b]) == RawRead(s, [b])
    ensures BodyRun(s, [b]) <==> !s.lineMode && BodyOpen(s)
  {
    hide RawRead, BodyOpen;
    assert [b][1..] == "";
  }

  lemma SizeLineHasNoLf(size: string, ext: string)
    requires SizeLine(size, ext)
    ensures LF !in size + ext
  {
    forall k | 0 <= k < |size + ext| ensures (size + ext)[k] != LF {
      if k < |size| { assert IsHexDigit(size[k]); } else { assert (size + ext)[k] == ext[k - |size|]; }
    }
  }

  lemma SizeLineValue(pre: string, size: string, ext: string)
    requires Leading(pre) && SizeLine(size, ext) && HexNumber(size) < TWO_32
    ensures HexValue(WordAt(pre + size + ext, ";", 0).0) == HexNumber(size)
  {
    hide HexValue, HexNumber, WordEnd;
    var line := pre + size + ext;
    forall k | 0 <= k < |size| ensures size[k] != NUL && !IsSpace(size[k]) && size[k] !in ";" {
      assert IsHexDigit(size[k]);
    }
    WordInside(line, ";", pre, size, ext);
    assert WordStart(line, ";", 0) == WordStart(line, ";", |pre|);
    HexValueIsExact(size);
  }

  /** The size line of a chunk announces the length of its data. */
  lemma SizeLineRun(s: Sock, pre: string, size: string, ext: string)
    requires InChunks(s, 0, pre) && Leading(pre) && SizeLine(size, ext) && HexNumber(size) < TWO_32
    ensures var n, e := HexNumber(size), size + ext + CRLF;
      && BodyRun(s, e)
      && RawRun(s, e) == s.(http := s.http.(chunkSize := n, chunkState := if n == 0 then 4 else 1, chunkLine := ""))
  {
    hide WordAt, HexValue, HexNumber, SizeLine, RawRun, BodyRun;
    var t := size + ext;
    SizeLineHasNoLf(size, ext);
    SizeLineValue(pre, size, ext);
    LineRun(s, pre, t, 0);
    var line := pre + t + CRLF;
    assert line[|pre + t|..] == CRLF && line[..|pre + t|] == pre + t == pre + size + ext;
  }

  lemma {:induction false} DataRun(s: Sock, data: string)
    requires InChunks(s, 1, "") && s.http.chunkSize == |data| > 0
    ensures BodyRun(s, data) && RawRun(s, data) == TakeData(s, data)
    decreases data
  {
    hide ChunkRead, TakeData;
    StepInChunks(s, data[0], 1, "");
    ChunkDataCons(s, data[0], "");
    if |data| == 1 {
      assert data == [data[0]] && data[1..] == "";
    } else {
      var s1 := TakeData(s, [data[0]]);
      TakeDataGoesOn(s, data[0]);
      DataRun(s1, data[1..]);
      TakeDataConcat(s, [data[0]], data[1..]);
      assert [data[0]] + data[1..] == data;
    }
  }

  lemma TakeDataGoesOn(s: Sock, b: char)
    requires s.http.chunkSize > 1 && s.http.chunkState == 1
    ensures TakeData(s, [b]).http == s.http.(chunkSize := s.http.chunkSize - 1)
  {}

  lemma SkipRun(s: Sock)
    requires InChunks(s, 2, "")
    ensures BodyRun(s, CRLF) && RawRun(s, CRLF) == s.(http := s.http.(chunkState := 0))
  {
    hide ChunkRead, BodyRun, RawRun, RawRead;
    var s1 := s.(http := s.http.(chunkState := 3));
    assert [CR][0..] == [CR] && [CR][1..] == "" && [LF][0..] == [LF] && [LF][1..] == "";
    StepInChunks(s, CR, 2, "");
    ChunkTurnSkip(s, [CR], 0);
    ReadNothing(s1);
    StepInChunks(s1, LF, 3, "");
    ChunkTurnSkip(s1, [LF], 0);
    ReadNothing(s1.(http := s1.http.(chunkState := 0)));
    OneByteRun(s, CR);
    OneByteRun(s1, LF);
    assert CRLF == [CR] + [LF];
    BodyRunConcat(s, [CR], [LF]);
  }

  lemma ChunkRun(s: Sock, pre: string, c: Chunk)
    requires InChunks(s, 0, pre) && Leading(pre) && ChunkOk(c)
    ensures BodyRun(s, EncodedChunk(c))
    ensures InChunks(RawRun(s, EncodedChunk(c)), 0, "")
    ensures RawRun(s, EncodedChunk(c))
         == s.(trace := s.trace + DataEvents(c.data), http := s.http.(chunkSize := 0, chunkLine := ""))
  {
    hide SizeLine, HexNumber, RawRun, BodyRun;
    var e, d := c.size + c.ext + CRLF, c.data;
    SizeLineRun(s, pre, c.size, c.ext);
    var s1 := RawRun(s, e);
    DataRun(s1, d);
    EmitDataHttp(s, d, s1.http);
    var s2 := RawRun(s1, d);
    SkipRun(s2);
    BodyRunConcat(s1, d, CRLF);
    BodyRunConcat(s, e, d + CRLF);
  }

  /** The socket after a whole body: all data, one OnDataComplete, back in line mode. */
  function Finished(s: Sock, cs: seq<Chunk>): Sock {
    var s1 := s.(trace := s.trace + DataEvents(DecodedBody(cs)) + [DataComplete]);
    s1.(lineMode := true, http := s.http.(first := true, header := true, bodyLeft := 0,
        chunked := false, chunkSize := 0, chunkState := 4, chunkLine := CRLF))
  }

  predicate BodyOk(cs: seq<Chunk>, zero: string, ext: string) {
    (forall k :: 0 <= k < |cs| ==> ChunkOk(cs[k])) && SizeLine(zero, ext) && HexNumber(zero) == 0
  }

  lemma LastChunkRun(s: Sock, pre: string, zero: string, ext: string)
    requires InChunks(s, 0, pre) && Leading(pre) && SizeLine(zero, ext) && HexNumber(zero) == 0
    ensures var e := zero + ext + CRLF + CRLF; BodyRun(s, e) && RawRun(s, e) == Finished(s, [])
  {
    hide SizeLine, HexNumber, RawRun, BodyRun;
    var b := zero + ext + CRLF;
    SizeLineRun(s, pre, zero, ext);
    var s1 := RawRun(s, b);
    LineRun(s1, "", "", 4);
    assert "" + "" + CRLF == CRLF == "" + CRLF;
    BodyRunConcat(s, b, CRLF);
    assert DataEvents("") == [] && s.trace + [] + [DataComplete] == s.trace + [DataComplete];
  }

  lemma {:induction false} BodyIsRun(s: Sock, pre: string, cs: seq<Chunk>, zero: string, ext: string)
    requires InChunks(s, 0, pre) && Leading(pre) && BodyOk(cs, zero, ext)
    ensures BodyRun(s, EncodedBody(cs, zero, ext)) && RawRun(s, EncodedBody(cs, zero, ext)) == Finished(s, cs)
    decreases cs
  {
    hide SizeLine, HexNumber, RawRun, BodyRun, ChunkOk, DataEvents, EncodedChunk, InChunks;
    if cs == [] {
      LastChunkRun(s, pre, zero, ext);
      assert EncodedBody(cs, zero, ext) == zero + ext + CRLF + CRLF;
    } else {
      var e, rest, d, ds := EncodedChunk(cs[0]), EncodedBody(cs[1..], zero, ext), cs[0].data, DecodedBody(cs[1..]);
      ChunkRun(s, pre, cs[0]);
      BodyIsRun(RawRun(s, e), "", cs[1..], zero, ext);
      BodyRunConcat(s, e, rest);
      assert e + rest == EncodedBody(cs, zero, ext);
      DataEventsConcat(d, ds);
      assert s.trace + DataEvents(d) + DataEvents(ds) == s.trace + (DataEvents(d) + DataEvents(ds));
    }
  }

  // ----- reads -----

  /** The read that completes the body passes its other bytes on. */
  lemma {:induction false} RawReadPassesOn(s: Sock, e: string, rest: string)
    requires e != "" && BodyRun(s, e)
    ensures RawRead(s, e + rest) == AfterRaw(RawRun(s, e), rest) || (!RawRun(s, e).lineMode && !BodyOpen(RawRun(s, e)))
    decreases e
  {
    hide RawRead, Read, BodyOpen;
    var s1 := RawRead(s, [e[0]]);
    assert RawRead(s, [e[0]]) == s1;
    if |e| == 1 {
      assert e == [e[0]] && e[1..] == "" && RawRun(s, e) == s1;
      if s1.lineMode || BodyOpen(s1) {
        RawCons(s, e[0], rest);
      }
    } else {
      var tail := e[1..] + rest;
      assert e + rest == [e[0]] + tail && tail != "";
      RawCons(s, e[0], tail);
      RawReadPassesOn(s1, e[1..], rest);
    }
  }

  /** Once the body is complete the remaining bytes of the reads go to the line parser as they
      are, whatever they are. */
  lemma {:induction false} LeftOversReachTheLineParser(s: Sock, e: string, parts: seq<string>)
    requires BodyRun(s, e) && RawRun(s, e).lineMode && Legal(parts)
    requires e <= Concat(parts)
    ensures ReadAll(s, parts) == ReadAll(RawRun(s, e), DropBytes(parts, |e|))
    decreases parts
  {
    hide RawRead, BodyOpen;
    if parts == [] {
    } else {
      var p := parts[0];
      assert p + Concat(parts[1..]) == Concat(parts);
      if |p| <= |e| {
        var rest := e[|p|..];
        assert e == p + rest && rest <= Concat(parts[1..]) by {
          assert Concat(parts)[..|e|] == e;
          assert e[..|p|] == p;
          assert Concat(parts)[|p|..] == Concat(parts[1..]);
        }
        BodyRunConcat(s, p, rest);
        ReadBodyPart(s, p, rest);
        LeftOversReachTheLineParser(RawRun(s, p), rest, parts[1..]);
      } else if e == "" {
        assert p[0..] == p && parts == [p] + parts[1..];
      } else {
        var rest := p[|e|..];
        assert p == e + rest by { assert Concat(parts)[..|e|] == e == p[..|e|]; }
        RawReadPassesOn(s, e, rest);
        assert Read(s, p) == Read(RawRun(s, e), rest);
        var dropped := [rest] + parts[1..];
        assert dropped[1..] == parts[1..] && dropped[0] == rest;
      }
    }
  }

  /** A read that stays inside the body, or ends with it. */
  lemma ReadBodyPart(s: Sock, p: string, rest: string)
    requires BodyRun(s, p + rest) && |p| <= BUFSIZE_READ
    requires rest == "" ==> RawRun(s, p).lineMode || p == ""
    ensures Read(s, p) == RawRun(s, p)
  {
    hide RawRead, BodyOpen;
    BodyRunConcat(s, p, rest);
    if p != "" {
      assert p + "" == p;
      RawReadPassesOn(s, p, "");
    }
  }

  /** The main theorem: on a fresh chunk parser, any body, cut into reads in any way and followed
      by any bytes. The bytes of OnData are the decoded body, OnDataComplete follows once, and the
      socket then reads the following bytes as if they had come in reads of their own. */
  lemma ChunkedBodyIgnoresReads(s: Sock, cs: seq<Chunk>, zero: string, ext: string, parts: seq<string>)
    requires InChunks(s, 0, "") && BodyOk(cs, zero, ext)
    requires Legal(parts) && EncodedBody(cs, zero, ext) <= Concat(parts)
    ensures ReadAll(s, parts) == ReadAll(Finished(s, cs), DropBytes(parts, |EncodedBody(cs, zero, ext)|))
  {
    hide EncodedBody, BodyOk;
    BodyIsRun(s, "", cs, zero, ext);
    LeftOversReachTheLineParser(s, EncodedBody(cs, zero, ext), parts);
  }

  /** An LF that a cut has left in front of the body is skipped with the blanks before the first size. */
  lemma LeadingLfIsSkipped(s: Sock, cs: seq<Chunk>, zero: string, ext: string, parts: seq<string>)
    requires InChunks(s, 0, "") && BodyOk(cs, zero, ext)
    requires Legal(parts) && [LF] + EncodedBody(cs, zero, ext) <= Concat(parts)
    ensures ReadAll(s, parts) == ReadAll(Finished(s, cs), DropBytes(parts, 1 + |EncodedBody(cs, zero, ext)|))
  {
    var e := EncodedBody(cs, zero, ext);
    assert "" + [LF] == [LF] && !EndsCrlf("") && !EndsCrlf([LF]);
    LineByteRun(s, LF, 0, "");
    var s1 := s.(http := s.http.(chunkLine := [LF]));
    hide EncodedBody, BodyOk, RawRun, BodyRun, RawRead, BodyOpen, ReadAll, DropBytes;
    OneByteRun(s, LF);
    BodyIsRun(s1, [LF], cs, zero, ext);
    BodyRunConcat(s, [LF], e);
    assert Finished(s1, cs) == Finished(s, cs);
    LeftOversReachTheLineParser(s, [LF] + e, parts);
  }

  /** The state left by a chunked body completes the next one before its first byte: the whole
      second body goes to the line parser. */
  lemma CompletesAtOnce(s: Sock, d: string)
    requires InChunks(s, 4, CRLF) && 0 < |d| <= BUFSIZE_READ
    ensures Read(s, d) == Read(Spent(s), d)
  {
    ReadRawChunked(s, d);
    SpentIs(s);
    hide ChunkRead, Read, LineTaken, Spent;
    assert d[0..] == d && CRLF + d[0..0] == CRLF;
    LineTakeDone(CRLF, d);
    ChunkTurnLine(s, d, 0, 0);
  }

  /** The socket when a body was complete before it began. */
  function Spent(s: Sock): Sock { NextMessage(Emit(s, DataComplete).(http := s.http.(chunked := false))) }

  lemma SpentIs(s: Sock)
    requires InChunks(s, 4, CRLF)
    ensures EndsCrlf(CRLF) && LineTaken(s, CRLF) == Spent(s)
  {
  }

  lemma ReadRawChunked(s: Sock, d: string)
    requires !s.lineMode && s.kind.HttpClient? && !s.http.header && s.http.chunked && 0 < |d| <= BUFSIZE_READ
    ensures Read(s, d) == ChunkRead(s, d)
  {
    hide ChunkRead;
  }

  /** The same over any reads. */
  lemma {:induction false} CompletesAtOnceAcrossReads(s: Sock, parts: seq<string>)
    requires InChunks(s, 4, CRLF) && Legal(parts) && Concat(parts) != ""
    ensures ReadAll(s, parts) == ReadAll(Spent(s), parts)
    decreases parts
  {
    hide Read, InChunks, Spent;
    if parts[0] == "" {
      ReadNone(s);
      ReadNone(Spent(s));
      assert Concat(parts) == Concat(parts[1..]);
      CompletesAtOnceAcrossReads(s, parts[1..]);
    } else {
      CompletesAtOnce(s, parts[0]);
    }
  }
}
