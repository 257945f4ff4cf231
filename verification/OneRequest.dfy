/** One request on a connection, over any reads: its head, the blank line, and its body in either
    coding, with a read that starts inside the blank line and with a chunk parser that is spent. */
module OneRequest {
  import opened Words
  import opened Bytes
  import opened SocketInput
  import opened Reads
  import opened Stream
  import opened Chunks
  import opened Requests

  /** The socket before the blank line of a request. */
  function BeforeBlank(s: Sock, m: Message): Sock { AfterFields(AfterLine(s, m.start), m.lines) }

  /** At the blank line of a request whose body has been announced. */
  predicate AtBlank(s: Sock, body: Body) { InHead(s) && Announced(s.http, body) && s.http.bodyLeft < TWO_64 }

  /** A chunk parser that has not been used, and one that has had a body. */
  predicate FreshParser(h: Http) { h.chunkState == 0 && h.chunkLine == "" }

  predicate SpentParser(h: Http) { h.chunkState == 4 && h.chunkLine == CRLF }

  predicate Bodyless(m: Message) { m.body == Sized("") }

  lemma BeforeBlankIs(s: Sock, m: Message)
    requires Ready(s) && Framed(m)
    ensures var r := BeforeBlank(s, m);
      && AtBlank(r, m.body) && SameParser(r.http, s.http)
      && r.http.headerCount == s.http.headerCount + |m.lines| && r.http.maxHeaderCount == s.http.maxHeaderCount
      && r.closed == (s.closed || Exceeds(s.http, |m.lines|))
      && r.trace == s.trace + [Line(m.start), First(ParseStart(m.start))] + FieldEvents(m.lines)
  {
    hide BeforeBlank, HeadOk, Folded, ParseStart, FieldEvents, BodyOk;
    HeadIs(s, m);
  }

  /** What the fields of a head come to, whatever they are. */
  lemma HeadIs(s: Sock, m: Message)
    requires Ready(s) && HeadOk(m)
    ensures var r := BeforeBlank(s, m);
      && InHead(r) && SameFraming(r.http, Folded(HTTP11, m.lines)) && r.http.bodyLeft < TWO_64
      && SameParser(r.http, s.http)
      && r.http.headerCount == s.http.headerCount + |m.lines| && r.http.maxHeaderCount == s.http.maxHeaderCount
      && r.closed == (s.closed || Exceeds(s.http, |m.lines|))
      && r.trace == s.trace + [Line(m.start), First(ParseStart(m.start))] + FieldEvents(m.lines)
  {
    hide AfterLine, AfterFields, Folded, IsField, ParseStart, FieldEvents;
    AfterStart(s, m);
    AfterFieldsIs(AfterLine(s, m.start), HTTP11, m.lines);
  }

  /** The head of a request over any reads. */
  lemma HeadAcrossReads(s: Sock, m: Message, parts: seq<string>)
    requires Ready(s) && HeadOk(m) && Legal(parts) && Head(m) <= Concat(parts)
    ensures ReadAll(s, parts) == ReadAll(BeforeBlank(s, m), DropBytes(parts, |Head(m)|))
  {
    hide ReadAll, DropBytes, AfterLine, AfterFields, LinesText, Folded, IsField, ParseStart, LineText;
    var t, rest := m.start, LinesText(m.lines);
    assert Plain(t) && |t| < MAX_LINE by { StartPlain(m); }
    AfterStart(s, m);
    assert Head(m) == (t + CRLF) + rest && s.line + t == t;
    PrefixDrop(t + CRLF, rest, parts);
    LineAcrossReads(s, t, parts);
    FieldsAcrossReads(AfterLine(s, t), m.lines, DropBytes(parts, |t| + 2));
    DropTwice(parts, |t| + 2, |rest|);
  }

  lemma StartPlain(m: Message)
    requires HeadOk(m)
    ensures Plain(m.start) && |m.start| < MAX_LINE
  {
    hide Folded, ParseStart;
  }

  /** The blank line before a body. */
  lemma BlankBeforeBody(s: Sock, left: nat)
    requires InHead(s) && s.http.keepalive && !s.http.chunked && s.http.bodyLeft == left && 0 < left < TWO_64
    ensures var r := AfterLine(s, "");
      && InBody(r, left) && r == s.(lineMode := false, c := CR, http := r.http, trace := r.trace)
      && r.http == s.http.(header := false) && r.trace == s.trace + [Line(""), HeaderComplete]
  {
  }

  /** The blank line before a chunked body. */
  lemma BlankBeforeChunks(s: Sock)
    requires InHead(s) && s.http.keepalive && s.http.chunked && s.http.bodyLeft < TWO_64 && s.http.chunkState <= 4
    ensures var r := AfterLine(s, "");
      && InChunks(r, s.http.chunkState, s.http.chunkLine)
      && r == s.(lineMode := false, c := CR, http := r.http, trace := r.trace)
      && r.http == s.http.(header := false) && r.trace == s.trace + [Line(""), HeaderComplete]
  {
  }

  /** The socket after the blank line and a body that is read whole. Without a body it stays in the head. */
  function AfterBlank(s: Sock, body: Body): Sock {
    var s1 := AfterLine(s, "");
    match body
    case Sized(data) => if data == "" then s1 else AfterBody(s1, data)
    case Chunked(chunks, _, _) => Finished(s1, chunks)
  }

  /** The socket after a request that is read whole. */
  function AfterMessage(s: Sock, m: Message): Sock { AfterBlank(BeforeBlank(s, m), m.body) }

  lemma AfterBlankIs(s: Sock, body: Body)
    requires AtBlank(s, body) && (body.Chunked? ==> s.http.chunkState <= 4)
    ensures var r := AfterBlank(s, body);
      && (if body == Sized("") then InHead(r) && !r.http.chunked && r.http.bodyLeft == 0 else Ready(r))
      && r.trace == s.trace + [Line(""), HeaderComplete] + DataEvents(Content(body)) + [DataComplete]
      && (if body.Chunked? then SpentParser(r.http) else SameParser(r.http, s.http))
      && r.closed == s.closed && !r.skip && r.c == CR
      && r.http.headerCount == s.http.headerCount && r.http.maxHeaderCount == s.http.maxHeaderCount
  {
    hide AfterLine, DataEvents, BodyOk;
    match body {
      case Sized(data) =>
        if data == "" {
          BlankWithoutBody(s);
          NoData();
        } else {
          BlankBeforeBody(s, |data|);
        }
      case Chunked(chunks, _, _) =>
        BlankBeforeChunks(s);
    }
  }

  lemma NoData()
    ensures DataEvents("") == []
  {
  }

  lemma AfterMessageIs(s: Sock, m: Message)
    requires Ready(s) && Framed(m) && (m.body.Chunked? ==> s.http.chunkState <= 4)
    ensures var r := AfterMessage(s, m);
      && (if Bodyless(m) then InHead(r) && !r.http.chunked && r.http.bodyLeft == 0 else Ready(r))
      && r.trace == s.trace + Delivered(m)
      && (if m.body.Chunked? then SpentParser(r.http) else SameParser(r.http, s.http))
      && r.closed == (s.closed || Exceeds(s.http, |m.lines|)) && !r.skip && r.c == CR
      && r.http.headerCount == s.http.headerCount + |m.lines| && r.http.maxHeaderCount == s.http.maxHeaderCount
  {
    hide BeforeBlank, AfterBlank, Framed, HeadOk, FieldEvents, DataEvents, ParseStart, AtBlank, Ready, InHead;
    BeforeBlankIs(s, m);
    AfterBlankIs(BeforeBlank(s, m), m.body);
    Joins(s.trace, [Line(m.start), First(ParseStart(m.start))], FieldEvents(m.lines), [Line(""), HeaderComplete],
          DataEvents(Content(m.body)) + [DataComplete]);
  }

  lemma Joins(t: seq<Event>, a: seq<Event>, b: seq<Event>, c: seq<Event>, d: seq<Event>)
    ensures t + a + b + c + d == t + (a + b + c + d)
  {
  }

  /** A blank line with no body to follow: complete, and still in the head. */
  lemma BlankWithoutBody(s: Sock)
    requires InHead(s) && s.http.keepalive && !s.http.chunked && s.http.bodyLeft == 0
    ensures AfterLine(s, "") == s.(c := CR, trace := s.trace + [Line(""), HeaderComplete, DataComplete])
  {
  }

  /** A read starts between the CR and the LF of the blank line, in the reads from a request on. */
  predicate CutsBlank(m: Message, parts: seq<string>) { StartsAt(parts, |Head(m)| + 1) }

  predicate OnlyLineFeeds(body: string) { forall k :: 0 <= k < |body| ==> body[k] == LF }

  /** What is left of the reads after the head of the first request. */
  lemma HeadDropped(m: Message, parts: seq<string>)
    requires Legal(parts) && Encoded(m) <= Concat(parts)
    ensures var q := DropBytes(parts, |Head(m)|);
      && Head(m) <= Concat(parts) && Legal(q) && CRLF + Text(m.body) <= Concat(q)
      && (StartsAt(q, 1) <==> CutsBlank(m, parts))
      && DropBytes(q, |Text(m.body)| + 2) == DropBytes(parts, |Encoded(m)|)
  {
    hide DropBytes, StartsAt, Concat, Head, Text;
    assert Encoded(m) == Head(m) + (CRLF + Text(m.body));
    PrefixDrop(Head(m), CRLF + Text(m.body), parts);
    DropStarts(parts, |Head(m)|, 1);
    DropTwice(parts, |Head(m)|, |Text(m.body)| + 2);
  }

  function Shifted(body: string): string
    requires body != ""
  {
    [LF] + body[..|body| - 1]
  }

  lemma BlankWhole(s: Sock, body: Body, parts: seq<string>)
    requires AtBlank(s, body) && Legal(parts) && CRLF + Text(body) <= Concat(parts)
    requires StartsAt(parts, 1) ==> body == Sized("")
    requires body.Chunked? ==> FreshParser(s.http)
    ensures ReadAll(s, parts) == ReadAll(AfterBlank(s, body), DropBytes(parts, |Text(body)| + 2))
  {
    hide ReadAll, DropBytes, AfterLine, StartsAt, AfterBody, Concat, Finished, EncodedBody, BodyOk;
    PrefixDrop(CRLF, Text(body), parts);
    assert "" + CRLF == CRLF && s.line + "" == "";
    if body == Sized("") {
      BlankWithoutBody(s);
      LineAcrossReads(s, "", parts);
    } else {
      if body.Sized? { BlankBeforeBody(s, |body.data|); } else { BlankBeforeChunks(s); }
      LineAcrossReads(s, "", parts);
      var r, q := AfterLine(s, ""), DropBytes(parts, 2);
      match body {
        case Sized(data) => BodyAcrossReads(r, data, q);
        case Chunked(chunks, zero, ext) => ChunkedBodyIgnoresReads(r, chunks, zero, ext, q);
      }
      DropTwice(parts, 2, |Text(body)|);
    }
  }

  /** A read starts with the LF of the blank line: that line end stays pending, and the LF counts as a
      byte of the body. */
  lemma BlankCut(s: Sock, body: Body, parts: seq<string>)
    requires AtBlank(s, body) && body != Sized("") && (body.Chunked? ==> s.http.chunkState <= 4)
    requires Legal(parts) && CRLF + Text(body) <= Concat(parts) && StartsAt(parts, 1)
    ensures var r, q := AfterLine(s, "").(skip := true), DropBytes(parts, 1);
      && ReadAll(s, parts) == ReadAll(r, q) && r.c == CR && Legal(q) && [LF] + Text(body) <= Concat(q)
      && Concat(q) == Concat(parts)[1..]
      && (match body
          case Sized(data) => InBody(r, |data|)
          case Chunked(_, _, _) => InChunks(r, s.http.chunkState, s.http.chunkLine))
  {
    hide ReadAll, DropBytes, AfterLine, StartsAt, Concat, Text, BodyOk;
    PrefixDrop(CRLF, Text(body), parts);
    assert "" + CRLF == CRLF && s.line + "" == "";
    if body.Sized? { BlankBeforeBody(s, |body.data|); } else { BlankBeforeChunks(s); }
    CutLineEnd(s, "", parts);
    assert CRLF + Text(body) == [CR] + ([LF] + Text(body));
    PrefixDrop([CR], [LF] + Text(body), parts);
    DropConcat(parts, 1);
  }

  lemma WholeRequest(s: Sock, m: Message, parts: seq<string>)
    requires Ready(s) && Framed(m) && Legal(parts) && Encoded(m) <= Concat(parts)
    requires CutsBlank(m, parts) ==> Bodyless(m)
    requires m.body.Chunked? ==> FreshParser(s.http)
    ensures ReadAll(s, parts) == ReadAll(AfterMessage(s, m), DropBytes(parts, |Encoded(m)|))
  {
    hide ReadAll, DropBytes, BeforeBlank, AfterBlank, Framed, HeadOk, StartsAt, Encoded, Head, Concat, CutsBlank;
    hide InHead;
    hide Ready, Text, Announced;
    HeadDropped(m, parts);
    FramedHead(m);
    HeadAcrossReads(s, m, parts);
    BeforeBlankIs(s, m);
    BlankWhole(BeforeBlank(s, m), m.body, DropBytes(parts, |Head(m)|));
  }

  /** With a chunked body the cut is harmless: the LF is skipped before the first size. Only the line end
      stays pending. */
  lemma CutChunks(s: Sock, m: Message, parts: seq<string>)
    requires Ready(s) && FreshParser(s.http) && Framed(m) && m.body.Chunked?
    requires Legal(parts) && Encoded(m) <= Concat(parts) && CutsBlank(m, parts)
    ensures ReadAll(s, parts) == ReadAll(AfterMessage(s, m).(skip := true), DropBytes(parts, |Encoded(m)|))
  {
    hide ReadAll, DropBytes, BeforeBlank, Framed, HeadOk, StartsAt, Encoded, Head, Concat, CutsBlank, InHead, AfterLine;
    hide Ready, EncodedBody, BodyOk, DataEvents;
    HeadDropped(m, parts);
    FramedHead(m);
    HeadAcrossReads(s, m, parts);
    BeforeBlankIs(s, m);
    var s1, q, body := BeforeBlank(s, m), DropBytes(parts, |Head(m)|), m.body;
    BlankCut(s1, body, q);
    LeadingLfIsSkipped(AfterLine(s1, "").(skip := true), body.chunks, body.zero, body.ext, DropBytes(q, 1));
    DropTwice(q, 1, 1 + |Text(body)|);
  }

  /** The socket when a read has started inside the blank line. */
  function Cut(s: Sock, m: Message): Sock { AfterLine(BeforeBlank(s, m), "").(skip := true) }

  /** A body of an announced size, and something in it. */
  predicate HasData(m: Message) { m.body.Sized? && m.body.data != "" }

  lemma CutHead(s: Sock, m: Message, parts: seq<string>)
    requires Ready(s) && Framed(m) && HasData(m) && Legal(parts) && Encoded(m) <= Concat(parts) && CutsBlank(m, parts)
    ensures var q := DropBytes(parts, |Head(m)| + 1);
      && ReadAll(s, parts) == ReadAll(Cut(s, m), q) && InBody(Cut(s, m), |m.body.data|) && Cut(s, m).c == CR
      && Legal(q) && [LF] + m.body.data <= Concat(q)
  {
    hide ReadAll, DropBytes, BeforeBlank, AfterLine, Framed, HeadOk, StartsAt, Encoded, Head, Concat, CutsBlank, InHead;
    hide Ready, InBody;
    HeadDropped(m, parts);
    FramedHead(m);
    HeadAcrossReads(s, m, parts);
    BeforeBlankIs(s, m);
    BlankCut(BeforeBlank(s, m), m.body, DropBytes(parts, |Head(m)|));
    DropTwice(parts, |Head(m)|, 1);
  }

  lemma CutRequest(s: Sock, m: Message, parts: seq<string>)
    requires Ready(s) && Framed(m) && HasData(m) && Legal(parts) && Encoded(m) <= Concat(parts) && CutsBlank(m, parts)
    ensures var q := DropBytes(parts, |Encoded(m)| - 1);
      && ReadAll(s, parts) == ReadAll(AfterBody(Cut(s, m), Shifted(m.body.data)), q)
      && Legal(q) && [m.body.data[|m.body.data| - 1]] <= Concat(q) && DropBytes(q, 1) == DropBytes(parts, |Encoded(m)|)
  {
    hide ReadAll, DropBytes, Cut, Framed, HeadOk, StartsAt, Head, AfterBody, Concat, CutsBlank, InBody, Ready;
    var q, n := DropBytes(parts, |Head(m)| + 1), |m.body.data|;
    CutHead(s, m, parts);
    var last := [m.body.data[n - 1]];
    assert [LF] + m.body.data == Shifted(m.body.data) + last;
    PrefixDrop(Shifted(m.body.data), last, q);
    BodyAcrossReads(Cut(s, m), Shifted(m.body.data), q);
    DropTwice(parts, |Head(m)| + 1, n);
    DropTwice(parts, |Encoded(m)| - 1, 1);
  }

  lemma {:induction false} ShiftedIsConstant(body: string, k: nat)
    requires k < |body| && Shifted(body) == body
    ensures body[k] == LF
  {
    assert body[k] == Shifted(body)[k];
    if k > 0 { ShiftedIsConstant(body, k - 1); }
  }

  lemma ShiftedIffLineFeeds(body: string)
    requires body != ""
    ensures Shifted(body) == body <==> OnlyLineFeeds(body)
  {
    if Shifted(body) == body {
      forall k | 0 <= k < |body| ensures body[k] == LF {
        ShiftedIsConstant(body, k);
      }
    }
  }

  lemma DataEventsEqual(a: string, b: string)
    requires |a| == |b|
    ensures DataEvents(a) == DataEvents(b) <==> a == b
  {
    if DataEvents(a) == DataEvents(b) {
      forall k | 0 <= k < |a| ensures a[k] == b[k] {
        assert DataEvents(a)[k] == DataEvents(b)[k];
      }
    }
  }

  lemma TracesEqual(t: seq<Event>, a: seq<Event>, b: seq<Event>, r: seq<Event>)
    requires |a| == |b| && t + a + [DataComplete] <= r && t + b + [DataComplete] <= r
    ensures a == b
  {
    assert a == r[|t|..|t| + |a|] == b;
  }

  lemma EncodedLength(m: Message)
    ensures |Encoded(m)| == |Head(m)| + 2 + |Text(m.body)|
  {
  }

  /** A body of line feeds hides the cut: the last of them completes the line end. */
  lemma CutUnseen(s: Sock, m: Message, parts: seq<string>)
    requires Ready(s) && Framed(m) && HasData(m) && Legal(parts) && Encoded(m) <= Concat(parts)
    requires CutsBlank(m, parts) && OnlyLineFeeds(m.body.data)
    ensures ReadAll(s, parts) == ReadAll(AfterMessage(s, m), DropBytes(parts, |Encoded(m)|))
  {
    hide ReadAll, DropBytes, BeforeBlank, AfterLine, Framed, HeadOk, StartsAt, Encoded, Head, Concat, CutsBlank;
    hide InBody, Ready;
    CutRequest(s, m, parts);
    CutHead(s, m, parts);
    ShiftedIffLineFeeds(m.body.data);
    EncodedLength(m);
    var q := DropBytes(parts, |Encoded(m)| - 1);
    var r := AfterBody(Cut(s, m), m.body.data);
    assert Concat(q)[0] == LF;
    SkipLf(r, q);
    AfterLineSkip(BeforeBlank(s, m), "");
    assert r.(skip := false) == AfterMessage(s, m);
  }

  lemma AfterLineSkip(s: Sock, t: string)
    ensures !AfterLine(s, t).skip
  {
  }

  /** Any other body shows the cut: a line feed is delivered in front of it and its last byte is not
      delivered with it. */
  lemma CutSeen(s: Sock, m: Message, parts: seq<string>)
    requires Ready(s) && Framed(m) && HasData(m) && Legal(parts) && Encoded(m) <= Concat(parts)
    requires CutsBlank(m, parts) && !OnlyLineFeeds(m.body.data)
    ensures s.trace + HeadEvents(m) + DataEvents(Shifted(m.body.data)) + [DataComplete] <= ReadAll(s, parts).trace
    ensures !(s.trace + Delivered(m) <= ReadAll(s, parts).trace)
  {
    hide ReadAll, DropBytes, AfterLine, Framed, HeadOk, StartsAt, Encoded, Head, Concat, CutsBlank, FieldEvents;
    hide DataEvents;
    hide ParseStart, BeforeBlank;
    CutRequest(s, m, parts);
    BeforeBlankIs(s, m);
    BlankBeforeBody(BeforeBlank(s, m), |m.body.data|);
    EncodedLength(m);
    ReadAllGrows(AfterBody(Cut(s, m), Shifted(m.body.data)), DropBytes(parts, |Encoded(m)| - 1));
    var t := s.trace + HeadEvents(m);
    assert s.trace + [Line(m.start), First(ParseStart(m.start))] + FieldEvents(m.lines)
      + [Line(""), HeaderComplete] == t;
    if s.trace + Delivered(m) <= ReadAll(s, parts).trace {
      assert s.trace + Delivered(m) == t + DataEvents(m.body.data) + [DataComplete];
      TracesEqual(t, DataEvents(Shifted(m.body.data)), DataEvents(m.body.data), ReadAll(s, parts).trace);
      DataEventsEqual(Shifted(m.body.data), m.body.data);
      ShiftedIffLineFeeds(m.body.data);
    }
  }

  /** In the head, the first line of a request is taken for a header field. */
  lemma StartTakenForField(s: Sock, m: Message, parts: seq<string>)
    requires InHead(s) && Framed(m) && Legal(parts) && Encoded(m) <= Concat(parts)
    ensures ReadAll(s, parts) == ReadAll(AfterLine(s, m.start), DropBytes(parts, |m.start| + 2))
    ensures s.trace + FieldEvents([m.start]) <= ReadAll(s, parts).trace
    ensures !(s.trace + Delivered(m) <= ReadAll(s, parts).trace)
  {
    hide ReadAll, DropBytes, AfterLine, Framed, HeadOk, HeaderParts, IsField, Concat, Delivered, FieldEvents;
    hide LinesText, Text;
    var t, more := m.start, LinesText(m.lines) + CRLF + Text(m.body);
    StartIsField(m);
    AfterField(s, t);
    assert Encoded(m) == (t + CRLF) + more;
    PrefixDrop(t + CRLF, more, parts);
    FieldAcrossReads(s, t, parts);
    ReadAllGrows(AfterLine(s, t), DropBytes(parts, |t| + 2));
    StartIsNoField(s.trace, t, m, ReadAll(s, parts).trace);
  }

  lemma StartIsNoField(t: seq<Event>, line: string, m: Message, r: seq<Event>)
    requires t + FieldEvents([line]) <= r
    ensures |r| > |t| && !(t + Delivered(m) <= r)
  {
    hide ParseStart, HeaderParts, DataEvents, Content;
    var n, f := |t| + 1, t + FieldEvents([line]);
    assert f[n].Header? && (t + Delivered(m))[n].First?;
    assert r[n] == f[n];
  }

  lemma StartIsField(m: Message)
    requires Framed(m)
    ensures IsField(m.start) && m.start != ""
  {
    hide Folded;
  }
}
