/** Keep-alive requests, and what HTTPSocket makes of the parts of one over any reads: its lines, its
    fields, its body. */
module Requests {
  import opened Words
  import opened Bytes
  import opened SocketInput
  import opened Reads
  import opened Stream
  import opened Chunks

  /** A body of an announced size, or in chunks without trailer fields; `zero` and `ext` form the
      line of the last chunk. */
  datatype Body = Sized(data: string) | Chunked(chunks: seq<Chunk>, zero: string, ext: string)

  function Text(b: Body): string {
    match b
    case Sized(data) => data
    case Chunked(chunks, zero, ext) => EncodedBody(chunks, zero, ext)
  }

  function Content(b: Body): string {
    match b
    case Sized(data) => data
    case Chunked(chunks, _, _) => DecodedBody(chunks)
  }

  /** A request: its first line, its field lines as they stand, and its body. */
  datatype Message = Message(start: string, lines: seq<string>, body: Body)

  function LinesText(lines: seq<string>): string {
    if lines == [] then "" else lines[0] + CRLF + LinesText(lines[1..])
  }

  function Head(m: Message): string { m.start + CRLF + LinesText(m.lines) }

  function Encoded(m: Message): string { Head(m) + CRLF + Text(m.body) }

  function EncodedAll(ms: seq<Message>): string {
    if ms == [] then "" else Encoded(ms[0]) + EncodedAll(ms[1..])
  }

  // ----- what is to be delivered -----

  function FieldEvents(lines: seq<string>): seq<Event> {
    if lines == [] then []
    else
      var (key, value) := HeaderParts(lines[0]);
      [Line(lines[0]), Header(key, value)] + FieldEvents(lines[1..])
  }

  function HeadEvents(m: Message): seq<Event> {
    [Line(m.start), First(ParseStart(m.start))] + FieldEvents(m.lines) + [Line(""), HeaderComplete]
  }

  /** The callbacks for one request: its lines, its fields, its body, and one OnDataComplete. */
  function Delivered(m: Message): seq<Event> {
    HeadEvents(m) + DataEvents(Content(m.body)) + [DataComplete]
  }

  function DeliveredAll(ms: seq<Message>): seq<Event> {
    if ms == [] then [] else Delivered(ms[0]) + DeliveredAll(ms[1..])
  }

  // ----- requests that keep the connection alive -----

  predicate LineText(t: string) {
    |t| < MAX_LINE && forall k :: 0 <= k < |t| ==> t[k] != NUL && !IsEol(t[k])
  }

  /** What the fields say together. */
  function Folded(h: Http, lines: seq<string>): Http
    decreases lines
  {
    if lines == [] then h
    else
      var (key, value) := HeaderParts(lines[0]);
      Folded(HeaderEffect(h, key, value), lines[1..])
  }

  /** The framing after a request line of HTTP/1.1. */
  const HTTP11: Http := FreshHttp(0).(first := false, http11 := true, keepalive := true)

  predicate IsField(t: string) { t != "" && LineText(t) }

  /** The fields announce the body. */
  predicate Announced(h: Http, b: Body) {
    h.keepalive &&
    match b
    case Sized(data) => !h.chunked && h.bodyLeft == |data|
    case Chunked(chunks, zero, ext) => h.chunked && BodyOk(chunks, zero, ext)
  }

  /** The head of an HTTP/1.1 request. */
  predicate HeadOk(m: Message) {
    && LineText(m.start) && ParseStart(m.start).Request? && IsHttp11(ParseStart(m.start).version)
    && (forall k :: 0 <= k < |m.lines| ==> IsField(m.lines[k]))
  }

  /** An HTTP/1.1 request that keeps the connection alive and whose fields announce its body,
      which may be empty. */
  predicate Framed(m: Message) { HeadOk(m) && Announced(Folded(HTTP11, m.lines), m.body) }

  lemma FramedHead(m: Message)
    requires Framed(m)
    ensures HeadOk(m)
  {
    hide Folded, HeadOk;
  }

  predicate AllFramed(ms: seq<Message>) { forall k :: 0 <= k < |ms| ==> Framed(ms[k]) }

  /** A line end that is pending is a CR: a line may begin, as its first line end is a CR too. */
  predicate CrPending(s: Sock) { s.skip ==> s.c == CR }

  /** A socket waiting for a request line. */
  predicate Ready(s: Sock) {
    && s.kind.HttpClient? && s.lineMode && CrPending(s) && s.line == ""
    && s.http.first && s.http.header && !s.http.chunked && s.http.bodyLeft == 0
  }

  /** In the head of a request. */
  predicate InHead(s: Sock) {
    && s.kind.HttpClient? && s.lineMode && !s.skip && s.line == ""
    && !s.http.first && s.http.header && s.http.http11
  }

  // ----- a line and its CRLF, over any reads -----

  /** The socket when the line `t` and its CRLF have been read. */
  function AfterLine(s: Sock, t: string): Sock {
    LineRead(s.(line := t), t).(skip := false, c := CR, line := "")
  }

  predicate Plain(u: string) { forall k :: 0 <= k < |u| ==> u[k] != NUL && !IsEol(u[k]) }

  predicate NoEol(u: string) { forall k :: 0 <= k < |u| ==> !IsEol(u[k]) }

  lemma {:induction false} ScanInside(s: Sock, seg: string, u: string, rest: string)
    requires NoEol(u)
    ensures Scan(s, seg, u + rest) == Scan(s, seg + u, rest)
    decreases u
  {
    hide AfterEol, RawRead, Commit;
    if u == "" {
      assert u + rest == rest && seg + u == seg;
    } else {
      assert (u + rest)[1..] == u[1..] + rest && seg + [u[0]] + u[1..] == seg + u;
      ScanInside(s, seg + [u[0]], u[1..], rest);
    }
  }

  lemma CommitPlain(s: Sock, u: string)
    requires Plain(u) && |s.line| + |u| < MAX_LINE
    ensures Commit(s, u) == s.(line := s.line + u)
  {
    UpToPlain(u);
    assert s.line + "" == s.line;
  }

  /** A read inside a line, of whatever length and with or without NULs. */
  lemma ReadInside(s: Sock, u: string)
    requires s.lineMode && CrPending(s) && NoEol(u) && |u| <= BUFSIZE_READ
    ensures Read(s, u) == Commit(s, u)
  {
    hide Scan, Commit;
    if u == "" {
      CommitNone(s);
    } else {
      ScanInside(s, "", u, "");
      assert u + "" == u && "" + u == u;
      ScanDone(s, u);
    }
  }

  lemma ReadPlain(s: Sock, u: string)
    requires s.lineMode && CrPending(s) && Plain(u) && |s.line| + |u| < MAX_LINE && |u| <= BUFSIZE_READ
    ensures Read(s, u) == s.(line := s.line + u)
  {
    hide Read, Commit;
    ReadInside(s, u);
    CommitPlain(s, u);
  }

  /** The limit of a line: however it is cut into reads, its 8192nd byte closes the connection, and none before. */
  lemma {:induction false} LineLimit(s: Sock, u: string, parts: seq<string>)
    requires s.lineMode && CrPending(s) && Plain(u) && |s.line| < 8192
    requires Legal(parts) && Concat(parts) == u
    ensures var r := ReadAll(s, parts);
      && (r.closed <==> s.closed || |s.line| + |u| >= 8192) && r.trace == s.trace
      && (|s.line| + |u| < 8192 ==> r.line == s.line + u)
    decreases parts
  {
    hide Read, Commit;
    if parts == [] {
      assert s.line + u == s.line;
    } else {
      var p, rest := parts[0], Concat(parts[1..]);
      assert u == p + rest && u[..|p|] == p && u[|p|..] == rest;
      assert forall k :: 0 <= k < |p| ==> p[k] == u[k];
      assert forall k :: 0 <= k < |rest| ==> rest[k] == u[|p| + k];
      var s1 := Read(s, p);
      ReadInside(s, p);
      CommitLimit(s, p);
      LineLimit(s1, rest, parts[1..]);
      hide CrPending, Plain;
      assert s.line + p + rest == s.line + u;
    }
  }

  lemma CommitLimit(s: Sock, u: string)
    requires Plain(u) && |s.line| < 8192
    ensures Commit(s, u) == if |s.line| + |u| < 8192 then s.(line := s.line + u) else s.(closed := true)
  {
    UpToPlain(u);
    assert s.line + "" == s.line;
  }

  lemma ScanDone(s: Sock, u: string)
    ensures Scan(s, u, "") == Commit(s, u)
  {
  }

  /** The socket when the rest `u` of a line and its CRLF have been read in one piece. */
  function AfterRest(s: Sock, u: string): Sock { AfterLine(Commit(s, u), Commit(s, u).line) }

  /** A read that has the rest of a line and its CR, or its CRLF and more. */
  lemma ReadRest(s: Sock, u: string, rest: string)
    requires s.lineMode && CrPending(s) && NoEol(u)
    ensures |u| + 1 <= BUFSIZE_READ ==> Read(s, u + [CR]) == AfterRest(s, u).(skip := true)
    ensures |u + CRLF + rest| <= BUFSIZE_READ ==> Read(s, u + CRLF + rest) == Read(AfterRest(s, u), rest)
  {
    hide Scan, Commit, RawRead, LineRead;
    ScanInside(s, "", u, [CR]);
    ScanInside(s, "", u, CRLF + rest);
    assert "" + u == u && u + (CRLF + rest) == u + CRLF + rest;
    ScanCr(s, u);
    if |u + CRLF + rest| <= BUFSIZE_READ {
      ScanCrlf(s, u, rest);
    }
  }

  lemma ReadLineEnd(s: Sock, u: string, rest: string)
    requires s.lineMode && CrPending(s) && Plain(u) && |s.line| + |u| < MAX_LINE
    ensures |u| + 1 <= BUFSIZE_READ ==> Read(s, u + [CR]) == AfterLine(s, s.line + u).(skip := true)
    ensures |u + CRLF + rest| <= BUFSIZE_READ ==>
      Read(s, u + CRLF + rest) == Read(AfterLine(s, s.line + u), rest)
  {
    hide Read, Commit, LineRead;
    ReadRest(s, u, rest);
    CommitPlain(s, u);
  }

  lemma ScanCr(s: Sock, u: string)
    requires s.lineMode
    ensures Scan(s, u, [CR]) == AfterRest(s, u).(skip := true)
  {
    hide RawRead, LineRead, Commit;
    var s1 := EndLine(s, u, CR);
    assert AfterEol(s, u, [CR]) == (s1, "");
    CommitNone(s1);
  }

  lemma CommitNone(s: Sock)
    ensures Commit(s, "") == s
  {
  }

  lemma ScanCrlf(s: Sock, u: string, rest: string)
    requires s.lineMode && |rest| <= BUFSIZE_READ
    ensures Scan(s, u, CRLF + rest) == Read(AfterRest(s, u), rest)
  {
    hide RawRead, LineRead, Commit;
    var d := CRLF + rest;
    assert d[0] == CR && d[1] == LF && d[2..] == rest;
    var s1 := EndLine(s, u, CR).(skip := false);
    assert AfterEol(s, u, d) == (s1, rest);
    CommitNone(s1);
  }

  /** The LF of a CRLF that a read has cut in line mode is swallowed. */
  lemma {:induction false} SkipLf(s: Sock, parts: seq<string>)
    requires s.lineMode && s.skip && s.c == CR && Legal(parts)
    requires Concat(parts) != "" && Concat(parts)[0] == LF
    ensures ReadAll(s, parts) == ReadAll(s.(skip := false), DropBytes(parts, 1))
    decreases parts
  {
    hide Scan;
    var p := parts[0];
    if p == "" {
      assert Concat(parts) == Concat(parts[1..]);
      SkipLf(s, parts[1..]);
    } else {
      assert p[0] == Concat(parts)[0];
      var s1 := s.(skip := false);
      if p[1..] == "" {
        ScanDone(s1, "");
        CommitNone(s1);
      }
      DropInFirst(s, s1, parts, 1);
    }
  }

  lemma PrefixParts(u: string, parts: seq<string>)
    requires parts != [] && u <= Concat(parts)
    ensures |u| <= |parts[0]| ==> parts[0] == u + parts[0][|u|..]
    ensures |u| >= |parts[0]| ==> u == parts[0] + u[|parts[0]|..] && u[|parts[0]|..] <= Concat(parts[1..])
  {
    var p, all := parts[0], Concat(parts);
    assert all == p + Concat(parts[1..]) && all[..|u|] == u;
    if |u| <= |p| {
      assert p[..|u|] == u;
    } else {
      assert u[..|p|] == p && all[|p|..] == Concat(parts[1..]);
    }
  }

  /** The rest of a line and its CRLF, over any reads that do not start between the CR and the LF of
      a line that switches to raw data. */
  lemma {:induction false} LineAcrossReads(s: Sock, u: string, parts: seq<string>)
    requires s.lineMode && CrPending(s) && Plain(u) && |s.line| + |u| < MAX_LINE
    requires Legal(parts) && u + CRLF <= Concat(parts)
    requires AfterLine(s, s.line + u).lineMode || !StartsAt(parts, |u| + 1)
    ensures ReadAll(s, parts) == ReadAll(AfterLine(s, s.line + u), DropBytes(parts, |u| + 2))
    decreases parts
  {
    hide Read, LineRead;
    assert u + CRLF != "" && parts != [];
    var p, rest := parts[0], parts[1..];
    PrefixParts(u + CRLF, parts);
    if |p| <= |u| {
      assert p == (u + CRLF)[..|p|] == u[..|p|] && (u + CRLF)[|p|..] == u[|p|..] + CRLF;
      ReadPlain(s, p);
      var s1 := s.(line := s.line + p);
      assert s1.line + u[|p|..] == s.line + u;
      assert s1.(line := s.line + u) == s.(line := s.line + u);
      LineAcrossReads(s1, u[|p|..], rest);
    } else if |p| == |u| + 1 {
      assert p == (u + CRLF)[..|p|] == u + [CR] && (u + CRLF)[|p|..] == [LF];
      ReadLineEnd(s, u, "");
      assert rest != [];
      SkipLf(AfterLine(s, s.line + u).(skip := true), rest);
    } else {
      var more := p[|u| + 2..];
      assert p == u + CRLF + more;
      ReadLineEnd(s, u, more);
      DropInFirst(s, AfterLine(s, s.line + u), parts, |u| + 2);
    }
  }

  /** Any text before a CRLF, with NULs or too long for a line, ends some line. */
  lemma {:induction false} AnyLine(s: Sock, u: string, parts: seq<string>) returns (t: string, closed: bool)
    requires s.kind.HttpClient? && s.lineMode && s.http.first && CrPending(s) && NoEol(u)
    requires Legal(parts) && u + CRLF <= Concat(parts)
    ensures ReadAll(s, parts) == ReadAll(AfterLine(s.(closed := closed), t), DropBytes(parts, |u| + 2))
    decreases parts
  {
    hide Read, Commit, StartOfRequest;
    assert u + CRLF != "" && parts != [];
    var p, rest := parts[0], parts[1..];
    PrefixParts(u + CRLF, parts);
    if |p| <= |u| {
      assert p == (u + CRLF)[..|p|] == u[..|p|] && (u + CRLF)[|p|..] == u[|p|..] + CRLF;
      ReadInside(s, p);
      CommitKeeps(s, p);
      t, closed := AnyLine(Commit(s, p), u[|p|..], rest);
    } else {
      CommitKeeps(s, u);
      t, closed := Commit(s, u).line, Commit(s, u).closed;
      if |p| == |u| + 1 {
        assert p == (u + CRLF)[..|p|] == u + [CR] && (u + CRLF)[|p|..] == [LF];
        ReadRest(s, u, "");
        assert rest != [];
        SkipLf(AfterRest(s, u).(skip := true), rest);
      } else {
        var more := p[|u| + 2..];
        assert p == u + CRLF + more;
        ReadRest(s, u, more);
        DropInFirst(s, AfterRest(s, u), parts, |u| + 2);
      }
    }
  }

  lemma CommitKeeps(s: Sock, u: string)
    ensures Commit(s, u) == s.(line := Commit(s, u).line, closed := Commit(s, u).closed)
  {
  }

  /** A read that starts with the LF of a line that switches to raw data leaves the line end pending. */
  lemma {:induction false} CutLineEnd(s: Sock, u: string, parts: seq<string>)
    requires s.lineMode && CrPending(s) && Plain(u) && |s.line| + |u| < MAX_LINE
    requires Legal(parts) && u + CRLF <= Concat(parts) && StartsAt(parts, |u| + 1)
    ensures ReadAll(s, parts) == ReadAll(AfterLine(s, s.line + u).(skip := true), DropBytes(parts, |u| + 1))
    decreases parts
  {
    hide Read, LineRead;
    var p, rest := parts[0], parts[1..];
    PrefixParts(u + CRLF, parts);
    if |p| <= |u| {
      assert p == (u + CRLF)[..|p|] == u[..|p|] && (u + CRLF)[|p|..] == u[|p|..] + CRLF;
      ReadPlain(s, p);
      var s1 := s.(line := s.line + p);
      assert s1.line + u[|p|..] == s.line + u;
      assert s1.(line := s.line + u) == s.(line := s.line + u);
      CutLineEnd(s1, u[|p|..], rest);
    } else {
      assert p == (u + CRLF)[..|p|] == u + [CR];
      ReadLineEnd(s, u, "");
      DropNothing(AfterLine(s, s.line + u).(skip := true), rest);
    }
  }

  // ----- the head -----

  /** The request line begins the head. */
  lemma AfterStart(s: Sock, m: Message)
    requires Ready(s) && HeadOk(m)
    ensures var s1 := AfterLine(s, m.start);
      && InHead(s1) && SameFraming(s1.http, HTTP11) && SameParser(s1.http, s.http)
      && s1.http.headerCount == s.http.headerCount && s1.http.maxHeaderCount == s.http.maxHeaderCount
      && s1.closed == s.closed && s1.trace == s.trace + [Line(m.start), First(ParseStart(m.start))]
  {
    hide ParseStart, Folded, LineText;
  }

  /** The chunk parser is where it was. */
  predicate SameParser(g: Http, h: Http) { g.chunkState == h.chunkState && g.chunkLine == h.chunkLine }

  /** What matters for framing. */
  predicate SameFraming(g: Http, h: Http) {
    g.http11 == h.http11 && g.keepalive == h.keepalive && g.chunked == h.chunked && g.bodyLeft == h.bodyLeft
  }

  /** A field line: its callbacks, its effect on the framing, and the limit on the number of fields. */
  lemma AfterField(s: Sock, t: string)
    requires InHead(s) && t != ""
    ensures var s1 := AfterLine(s, t);
      && InHead(s1) && s1.http == HeaderEffect(s.http, HeaderParts(t).0, HeaderParts(t).1)
      && s1.closed == (s.closed || s.http.headerCount > s.http.maxHeaderCount)
      && s1.trace == s.trace + FieldEvents([t])
  {
    hide HeaderParts, HeaderEffect;
    HeaderEffectKeeps(s.http, HeaderParts(t).0, HeaderParts(t).1);
    assert [t][1..] == [];
    var (key, value) := HeaderParts(t);
    assert s.trace + [Line(t)] + [Header(key, value)] == s.trace + [Line(t), Header(key, value)];
  }

  lemma HeaderEffectKeeps(h: Http, key: string, value: string)
    ensures var r := HeaderEffect(h, key, value);
      r == h.(bodyLeft := r.bodyLeft, keepalive := r.keepalive, chunked := r.chunked, headerCount := h.headerCount + 1)
    ensures h.bodyLeft < TWO_64 ==> HeaderEffect(h, key, value).bodyLeft < TWO_64
  {
    hide Lower, AtoL;
  }

  lemma EffectsAgree(g: Http, h: Http, key: string, value: string)
    requires SameFraming(g, h)
    ensures SameFraming(HeaderEffect(g, key, value), HeaderEffect(h, key, value))
  {
    hide Lower, AtoL, ToSizeT;
  }

  /** The socket after some field lines. */
  function AfterFields(s: Sock, lines: seq<string>): Sock
    decreases lines
  {
    if lines == [] then s else AfterFields(AfterLine(s, lines[0]), lines[1..])
  }

  predicate AllFields(lines: seq<string>) { forall k :: 0 <= k < |lines| ==> IsField(lines[k]) }

  /** Past the limit: the field with number `maxHeaderCount + 2` on a connection closes it. */
  predicate Exceeds(h: Http, n: nat) { n > 0 && h.headerCount + n > h.maxHeaderCount + 1 }

  lemma {:induction false} AfterFieldsIs(s: Sock, h: Http, lines: seq<string>)
    requires InHead(s) && SameFraming(s.http, h) && h.bodyLeft < TWO_64 && AllFields(lines)
    ensures var r := AfterFields(s, lines);
      && InHead(r) && SameFraming(r.http, Folded(h, lines)) && r.http.bodyLeft < TWO_64 && SameParser(r.http, s.http)
      && r.http.headerCount == s.http.headerCount + |lines| && r.http.maxHeaderCount == s.http.maxHeaderCount
      && r.closed == (s.closed || Exceeds(s.http, |lines|))
      && r.trace == s.trace + FieldEvents(lines)
    decreases lines
  {
    hide HeaderParts, HeaderEffect, LineRead, AfterLine, LineText;
    if lines == [] {
      assert s.trace + FieldEvents(lines) == s.trace;
    } else {
      var t := lines[0];
      var (key, value) := HeaderParts(t);
      var s1, h1 := AfterLine(s, t), HeaderEffect(h, key, value);
      AfterField(s, t);
      EffectsAgree(s.http, h, key, value);
      HeaderEffectKeeps(s.http, key, value);
      HeaderEffectKeeps(h, key, value);
      AfterFieldsIs(s1, h1, lines[1..]);
      assert s.trace + FieldEvents([t]) + FieldEvents(lines[1..]) == s.trace + FieldEvents(lines);
    }
  }

  /** Field lines over any reads. */
  lemma {:induction false} FieldsAcrossReads(s: Sock, lines: seq<string>, parts: seq<string>)
    requires InHead(s) && AllFields(lines) && Legal(parts) && LinesText(lines) <= Concat(parts)
    ensures ReadAll(s, parts) == ReadAll(AfterFields(s, lines), DropBytes(parts, |LinesText(lines)|))
    decreases lines
  {
    hide Read, LineRead, AfterLine;
    if lines == [] {
      DropNothing(s, parts);
    } else {
      var t, rest := lines[0], LinesText(lines[1..]);
      assert LinesText(lines) == (t + CRLF) + rest;
      PrefixDrop(t + CRLF, rest, parts);
      AfterField(s, t);
      FieldAcrossReads(s, t, parts);
      FieldsAcrossReads(AfterLine(s, t), lines[1..], DropBytes(parts, |t| + 2));
      DropTwice(parts, |t| + 2, |rest|);
    }
  }

  lemma FieldAcrossReads(s: Sock, t: string, parts: seq<string>)
    requires InHead(s) && IsField(t) && Legal(parts) && t + CRLF <= Concat(parts)
    ensures ReadAll(s, parts) == ReadAll(AfterLine(s, t), DropBytes(parts, |t| + 2))
  {
    hide Read, LineRead, AfterLine, ReadAll, DropBytes;
    AfterField(s, t);
    assert s.line + t == t;
    LineAcrossReads(s, t, parts);
  }

  lemma PrefixDrop(u: string, v: string, parts: seq<string>)
    requires Legal(parts) && u + v <= Concat(parts)
    ensures u <= Concat(parts) && v <= Concat(DropBytes(parts, |u|)) && Legal(DropBytes(parts, |u|))
  {
    var all := Concat(parts);
    assert all[..|u + v|] == u + v;
    assert all[..|u|] == (u + v)[..|u|] == u;
    DropConcat(parts, |u|);
    assert all[|u|..][..|v|] == (u + v)[|u|..] == v;
  }

  // ----- the body -----

  /** Inside a keep-alive body with `left` bytes to come; a line end may still be pending. */
  predicate InBody(s: Sock, left: nat) {
    && s.kind.HttpClient? && !s.lineMode && s.line == ""
    && !s.http.header && s.http.http11 && s.http.keepalive && !s.http.chunked
    && s.http.bodyLeft == left && 0 < left < TWO_64
  }

  function AfterBody(s: Sock, body: string): Sock {
    NextMessage(s).(trace := s.trace + DataEvents(body) + [DataComplete])
  }

  lemma ReadKeepalive(s: Sock, d: string)
    requires !s.lineMode && s.kind.HttpClient? && !s.http.header && !s.http.chunked
    requires s.http.http11 && s.http.keepalive && 0 < |d| <= BUFSIZE_READ
    ensures Read(s, d) == FixedBody(s, d)
  {
    hide FixedBody;
  }

  lemma SizeTOfSmall(n: nat)
    requires n < TWO_64
    ensures ToSizeT(n) == n
  {
  }

  lemma BodyPartRead(s: Sock, p: string, left: nat)
    requires InBody(s, left) && |p| < left && |p| <= BUFSIZE_READ
    ensures var s1 := s.(trace := s.trace + DataEvents(p), http := s.http.(bodyLeft := left - |p|));
      Read(s, p) == s1 && InBody(s1, left - |p|)
  {
    hide DataEvents, Read, FixedBody, ToSizeT;
    SizeTOfSmall(left - |p|);
    if p == "" {
      ReadNone(s);
      assert s.trace + DataEvents(p) == s.trace;
    } else {
      ReadKeepalive(s, p);
      assert p + "" == p;
      FixedBodyIs(s, p, "");
    }
  }

  lemma BodyEndRead(s: Sock, body: string, rest: string)
    requires InBody(s, |body|) && |body + rest| <= BUFSIZE_READ
    ensures Read(s, body + rest) == Read(AfterBody(s, body), rest)
  {
    hide DataEvents, Read, FixedBody, ToSizeT;
    SizeTOfSmall(0);
    ReadKeepalive(s, body + rest);
    FixedBodyIs(s, body, rest);
    assert Emit(TakeBody(s, body), DataComplete).trace == AfterBody(s, body).trace;
  }

  /** A body over any reads. */
  lemma {:induction false} BodyAcrossReads(s: Sock, body: string, parts: seq<string>)
    requires InBody(s, |body|) && Legal(parts) && body <= Concat(parts)
    ensures ReadAll(s, parts) == ReadAll(AfterBody(s, body), DropBytes(parts, |body|))
    decreases parts
  {
    hide Read, DataEvents;
    var p, rest := parts[0], parts[1..];
    PrefixParts(body, parts);
    if |p| < |body| {
      BodyPartRead(s, p, |body|);
      var more := body[|p|..];
      BodyAcrossReads(Read(s, p), more, rest);
      DataEventsConcat(p, more);
      assert s.trace + DataEvents(p) + DataEvents(more) + [DataComplete] == s.trace + DataEvents(body) + [DataComplete];
      assert AfterBody(Read(s, p), more) == AfterBody(s, body);
    } else {
      BodyEndRead(s, body, p[|body|..]);
      DropInFirst(s, AfterBody(s, body), parts, |body|);
    }
  }
}
