/** What one read does to a line-protocol socket: the functions the methods of class
    TcpSocket are proved against. Reads are cut into lines, lines drive the HTTP parser, and
    the parser hands raw bytes and left-over bytes back and forth. */
module SocketInput {
  import opened Bytes
  import opened Words

  const MAX_LINE: nat := 8192           // TCP_LINE_SIZE
  const BUFSIZE_READ: nat := 16400      // TCP_BUFSIZE_READ

  const CR: char := '\r'
  const LF: char := '\n'
  const CRLF: string := "\r\n"

  predicate IsEol(c: char) { c == CR || c == LF }

  /** The class whose OnLine and OnRawData run: a client that only takes lines, or HTTPSocket. */
  datatype Kind = LineClient | HttpClient

  datatype StartLine =
    | NoStartLine
    | Request(method_: string, url: string, uri: string, query: string, version: string)
    | Response(version: string, status: string, text: string)

  /** The virtual callbacks, in the order they are made. Data is recorded byte by byte. */
  datatype Event =
    | Line(text: string)
    | First(start: StartLine)
    | Header(key: string, value: string)
    | HeaderComplete
    | Data(b: char)
    | DataComplete

  /** The fields of HTTPSocket. */
  datatype Http = Http(
    first: bool, header: bool, start: StartLine,
    http11: bool, keepalive: bool, chunked: bool,
    bodyLeft: nat, chunkSize: nat, chunkState: nat, chunkLine: string,
    headerCount: int, maxHeaderCount: int)

  /** A socket; `line` is the filled part of m_line, `c` is m_c, `skip` is m_skip_c. */
  datatype Sock = Sock(
    kind: Kind, lineMode: bool, skip: bool, c: char, line: string, closed: bool,
    http: Http, trace: seq<Event>)

  function FreshHttp(maxHeaderCount: int): Http {
    Http(true, true, NoStartLine, false, false, false, 0, 0, 0, "", 0, maxHeaderCount)
  }

  /** A newly created socket in line mode. */
  function Fresh(kind: Kind, maxHeaderCount: int): Sock {
    Sock(kind, true, false, NUL, "", false, FreshHttp(maxHeaderCount), [])
  }

  function Emit(s: Sock, e: Event): Sock { s.(trace := s.trace + [e]) }

  function DataEvents(d: string): (r: seq<Event>)
    ensures |r| == |d| && forall k :: 0 <= k < |d| ==> r[k] == Data(d[k])
  {
    seq(|d|, k requires 0 <= k < |d| => Data(d[k]))
  }

  function EmitData(s: Sock, d: string): (r: Sock)
    ensures r == s.(trace := r.trace)
  { s.(trace := s.trace + DataEvents(d)) }

  // ----- OnLine -----

  function ParseStart(line: string): StartLine {
    var (w, p) := WordAt(line, "", 0);
    var (w2, p2) := WordAt(line, "", p);
    if |w| > 4 && Lower(w[..5]) == "http/" then Response(w, w2, RestAt(line, "", p2))
    else
      var q := IndexOf(w2, '?');
      Request(w, w2, w2[..q], if q < |w2| then w2[q + 1..] else "", WordAt(line, "", p2).0)
  }

  function IsHttp11(version: string): bool { |version| > 4 && version[4..] == "/1.1" }

  function StartOfRequest(h: Http, line: string): Http {
    var start := ParseStart(line);
    var h' := h.(start := start, first := false);
    if start.Request? then h'.(http11 := IsHttp11(start.version), keepalive := IsHttp11(start.version)) else h'
  }

  /** The key and the value of a header line. */
  function HeaderParts(line: string): (string, string) {
    var (key, p) := WordAt(line, ":", 0);
    (key, RestAt(line, ":", p))
  }

  function HeaderEffect(h: Http, key: string, value: string): Http {
    var k := Lower(key);
    h.(bodyLeft := if k == "content-length" then ToSizeT(AtoL(value)) else h.bodyLeft,
       keepalive := if h.http11 && k == "connection" then Lower(value) != "close" else h.keepalive,
       chunked := h.chunked || (k == "transfer-encoding" && Lower(value) == "chunked"),
       headerCount := h.headerCount + 1)
  }

  /** The blank line switches to raw data when a body can follow or the connection ends with it. */
  function TakesRaw(h: Http): bool { h.bodyLeft != 0 || !h.http11 || !h.keepalive || h.chunked }

  function EndOfHeader(s: Sock): Sock {
    var s1 := if TakesRaw(s.http) then s.(lineMode := false, http := s.http.(header := false)) else s;
    var s2 := Emit(s1, HeaderComplete);
    if s2.http.bodyLeft == 0 && !s2.http.chunked then Emit(s2, DataComplete) else s2
  }

  function HeaderLine(s: Sock, line: string): Sock {
    var (key, value) := HeaderParts(line);
    var s1 := Emit(s, Header(key, value));
    s1.(http := HeaderEffect(s.http, key, value),
        closed := s.closed || s.http.headerCount > s.http.maxHeaderCount)
  }

  /** The virtual OnLine. */
  function LineRead(s: Sock, line: string): Sock {
    var s1 := Emit(s, Line(line));
    if s.kind.LineClient? then s1
    else if s.http.first then
      var h := StartOfRequest(s.http, line);
      Emit(s1.(http := h), First(h.start))
    else if line == "" then EndOfHeader(s1)
    else HeaderLine(s1, line)
  }

  // ----- the line splitter -----

  /** Append what strlen sees of a piece of the buffer to the unfinished line, or close when it gets too long. */
  function Commit(s: Sock, seg: string): Sock {
    var t := UpTo(seg, NUL);
    if t == "" then s
    else if |s.line| + |t| < MAX_LINE then s.(line := s.line + t)
    else s.(closed := true)
  }

  function EndLine(s: Sock, seg: string, eol: char): Sock {
    var s1 := Commit(s, seg);
    LineRead(s1, s1.line).(skip := true, c := eol, line := "")
  }

  /** A line ended by `rest[0]`; the other half of a CRLF or LFCR pair goes with it. */
  function AfterEol(s: Sock, seg: string, rest: string): (r: (Sock, string))
    requires rest != "" && IsEol(rest[0])
    ensures |r.1| < |rest|
  {
    var s1 := EndLine(s, seg, rest[0]);
    if |rest| > 1 && IsEol(rest[1]) && rest[1] != rest[0] then (s1.(skip := false), rest[2..])
    else (s1, rest[1..])
  }

  /** The loop of OnRead(buf, n): `seg` is the piece since the last line end, `rest` is unread. */
  function Scan(s: Sock, seg: string, rest: string): Sock
    decreases |rest|, 0
  {
    if rest == "" then Commit(s, seg)
    else if IsEol(rest[0]) then
      var (s1, r) := AfterEol(s, seg, rest);
      if s1.lineMode then Scan(s1, "", r)
      else if r == "" then s1
      else RawRead(s1, r)
    else Scan(s, seg + [rest[0]], rest[1..])
  }

  // The loop of OnRead by its indices: the piece began at `x`, the scan is at `i`.

  ghost function ScanAt(s: Sock, d: string, x: nat, i: nat): Sock
    requires x <= i <= |d|
  {
    Scan(s, d[x..i], d[i..])
  }

  ghost predicate PairAt(d: string, i: nat)
    requires i < |d|
  {
    i + 1 < |d| && IsEol(d[i + 1]) && d[i + 1] != d[i]
  }

  lemma ScanAtEnd(s: Sock, d: string, x: nat)
    requires x <= |d|
    ensures ScanAt(s, d, x, |d|) == Commit(s, d[x..])
  {
    hide Commit;
    assert d[x..|d|] == d[x..];
  }

  lemma ScanAtPlain(s: Sock, d: string, x: nat, i: nat)
    requires x <= i < |d| && !IsEol(d[i])
    ensures ScanAt(s, d, x, i) == ScanAt(s, d, x, i + 1)
  {
    hide Commit, AfterEol, RawRead;
    assert d[i..][1..] == d[i + 1..] && d[x..i] + [d[i]] == d[x..i + 1];
  }

  lemma ScanAtEol(s: Sock, d: string, x: nat, i: nat)
    requires x <= i < |d| && IsEol(d[i])
    ensures var s1 := EndLine(s, d[x..i], d[i]);
            var j := if PairAt(d, i) then i + 2 else i + 1;
            var s2 := if PairAt(d, i) then s1.(skip := false) else s1;
            ScanAt(s, d, x, i)
            == if s2.lineMode then ScanAt(s2, d, j, j) else if j < |d| then RawRead(s2, d[j..]) else s2
  {
    hide Commit, EndLine, RawRead;
    var rest := d[i..];
    assert rest[1..] == d[i + 1..];
    if PairAt(d, i) {
      assert rest[2..] == d[i + 2..];
      assert d[i + 2..i + 2] == "";
    } else {
      assert d[i + 1..i + 1] == "";
    }
  }

  /** OnRead(buf, n). */
  function Read(s: Sock, d: string): Sock
    decreases |d|, if s.lineMode then 1 else 6
  {
    if d == "" || |d| > BUFSIZE_READ then s
    else if !s.lineMode then RawRead(s, d)
    else if s.skip && IsEol(d[0]) && d[0] != s.c then Scan(s.(skip := false), "", d[1..])
    else Scan(s, "", d)
  }

  // ----- OnRawData -----

  /** Back to the line parser after a body. */
  function NextMessage(s: Sock): Sock {
    s.(lineMode := true, http := s.http.(first := true, header := true, bodyLeft := 0))
  }

  /** OnRawData(buf, len). */
  function RawRead(s: Sock, d: string): Sock
    decreases |d|, 5
  {
    if s.kind.LineClient? || s.http.header then s
    else if s.http.chunked then ChunkRead(s, d)
    else if !s.http.http11 || !s.http.keepalive then CloseBody(s, d)
    else FixedBody(s, d)
  }

  /** A keep-alive body: what is left over goes back to the line parser. */
  function FixedBody(s: Sock, d: string): Sock
    decreases |d|, 4
  {
    var n := if s.http.bodyLeft < |d| then s.http.bodyLeft else |d|;
    var s1 := TakeBody(s, d[..n]);
    if s1.http.bodyLeft == 0 then Read(NextMessage(Emit(s1, DataComplete)), d[n..]) else s1
  }

  /** A body that ends with the connection. The counter wraps when more arrives than announced. */
  function CloseBody(s: Sock, d: string): Sock {
    var s1 := TakeBody(s, d);
    if s1.http.bodyLeft == 0 then Emit(s1, DataComplete) else s1
  }

  /** Body data delivered against the content length. */
  function TakeBody(s: Sock, d: string): (r: Sock)
    ensures r == s.(trace := r.trace, http := s.http.(bodyLeft := ToSizeT(s.http.bodyLeft - |d|)))
  {
    EmitData(s, d).(http := s.http.(bodyLeft := ToSizeT(s.http.bodyLeft - |d|)))
  }

  predicate EndsCrlf(line: string): (r: bool)
    ensures r ==> |line| >= 2
  { |line| >= 2 && line[|line| - 2..] == "\r\n" }

  /** How much of `d` a chunk line takes before it ends in CRLF. */
  function LineTake(line: string, d: string): (n: nat)
    ensures n <= |d|
    decreases |d|
  {
    if d == "" || EndsCrlf(line) then 0 else 1 + LineTake(line + [d[0]], d[1..])
  }

  function ChunkLine(h: Http, d: string): string { h.chunkLine + d[..LineTake(h.chunkLine, d)] }

  lemma LineTakeDone(line: string, d: string)
    requires d == "" || EndsCrlf(line)
    ensures LineTake(line, d) == 0
  {}

  lemma LineTakeStep(line: string, d: string, i: nat)
    requires i < |d| && !EndsCrlf(line)
    ensures LineTake(line, d[i..]) == 1 + LineTake(line + [d[i]], d[i + 1..])
  {
    hide EndsCrlf;
    assert d[i..][1..] == d[i + 1..];
  }

  /** A complete chunk-size line without its CRLF. */
  function ChunkStart(h: Http, line: string): (r: Http)
    ensures r == h.(chunkSize := r.chunkSize, chunkState := r.chunkState, chunkLine := "")
    ensures r.chunkState == 1 || r.chunkState == 4
  {
    var size := HexValue(WordAt(line, ";", 0).0);
    h.(chunkSize := size, chunkState := if size == 0 then 4 else 1, chunkLine := "")
  }

  /** A chunk-size or trailer line as far as it has come, acted on when it is complete. */
  function LineTaken(s: Sock, line: string): Sock {
    var s1 := s.(http := s.http.(chunkLine := line));
    if !EndsCrlf(line) then s1
    else if s.http.chunkState == 4 then NextMessage(Emit(s1, DataComplete).(http := s1.http.(chunked := false)))
    else s1.(http := ChunkStart(s.http, line[..|line| - 2]))
  }

  lemma LineTakenIgnoresLine(s: Sock, x: string, line: string)
    ensures LineTaken(s.(http := s.http.(chunkLine := x)), line) == LineTaken(s, line)
  {
    hide ChunkStart, EndsCrlf, NextMessage, Emit;
    var h, s' := s.http, s.(http := s.http.(chunkLine := x));
    assert s'.http.(chunkLine := line) == h.(chunkLine := line);
    if EndsCrlf(line) && h.chunkState != 4 {
      ChunkStartIgnoresLine(h, x, line[..|line| - 2]);
    }
  }

  lemma ChunkStartIgnoresLine(h: Http, x: string, line: string)
    ensures ChunkStart(h.(chunkLine := x), line) == ChunkStart(h, line)
  {
    hide WordAt, HexValue;
  }

  /** Chunk data delivered in state 1. */
  function TakeData(s: Sock, d: string): (r: Sock)
    requires |d| <= s.http.chunkSize
    ensures r == s.(trace := r.trace, http := s.http.(chunkSize := r.http.chunkSize, chunkState := r.http.chunkState))
  {
    var left := s.http.chunkSize - |d|;
    EmitData(s, d).(http := s.http.(chunkSize := left, chunkState := if left == 0 then 2 else 1))
  }

  /** The loop of OnRawData for chunked transfer coding. */
  function ChunkRead(s: Sock, d: string): Sock
    decreases |d|, if s.http.chunkState == 0 then 4 else if s.http.chunkState == 1 then 3 else 2
  {
    var h := s.http;
    if d == "" then s
    else if h.chunkState == 0 || h.chunkState == 4 then
      var line := ChunkLine(h, d);
      var r := d[LineTake(h.chunkLine, d)..];
      var s1 := LineTaken(s, line);
      if !EndsCrlf(line) then s1
      else if h.chunkState == 4 then Read(s1, r)
      else ChunkRead(s1, r)
    else if h.chunkState == 1 then
      var n := if h.chunkSize < |d| then h.chunkSize else |d|;
      ChunkRead(TakeData(s, d[..n]), d[n..])
    else ChunkRead(s.(http := h.(chunkState := if h.chunkState == 2 then 3 else 0)), d[1..])
  }

  // One turn of the chunk loop with the cursor at `i`.

  /** The line of state 0 or 4 as far as `d[i..]` completes it, ending at index `j`. */
  ghost predicate LineUpTo(h: Http, d: string, i: nat, j: nat) {
    i <= j <= |d| && j == i + LineTake(h.chunkLine, d[i..])
  }

  lemma ChunkTurnLine(s: Sock, d: string, i: nat, j: nat)
    requires i < |d| && LineUpTo(s.http, d, i, j) && (s.http.chunkState == 0 || s.http.chunkState == 4)
    ensures var line := s.http.chunkLine + d[i..j];
      var s1 := LineTaken(s, line);
      ChunkRead(s, d[i..])
      == if !EndsCrlf(line) then s1 else if s.http.chunkState == 4 then Read(s1, d[j..]) else ChunkRead(s1, d[j..])
    ensures !EndsCrlf(s.http.chunkLine + d[i..j]) ==> j == |d|
  {
    hide Read, LineTaken, LineTake, EndsCrlf;
    assert d[i..][..j - i] == d[i..j] && d[i..][j - i..] == d[j..];
    LineTakeStops(s.http.chunkLine, d[i..]);
  }

  lemma {:induction false} LineTakeStops(line: string, d: string)
    ensures LineTake(line, d) == |d| || EndsCrlf(line + d[..LineTake(line, d)])
    decreases d
  {
    hide EndsCrlf;
    if d == "" {
    } else if EndsCrlf(line) {
      assert line + d[..0] == line;
    } else {
      LineTakeStops(line + [d[0]], d[1..]);
      var n := LineTake(line + [d[0]], d[1..]);
      assert line + [d[0]] + d[1..][..n] == line + d[..n + 1];
    }
  }

  lemma ChunkTurnData(s: Sock, d: string, i: nat)
    requires i < |d| && s.http.chunkState == 1
    ensures var n := if s.http.chunkSize < |d| - i then s.http.chunkSize else |d| - i;
      ChunkRead(s, d[i..]) == ChunkRead(TakeData(s, d[i..i + n]), d[i + n..])
  {
    hide Read, ChunkStart, LineTake, EndsCrlf, TakeData;
    var n := if s.http.chunkSize < |d| - i then s.http.chunkSize else |d| - i;
    assert d[i..][..n] == d[i..i + n] && d[i..][n..] == d[i + n..];
  }

  lemma LineNotDone(s: Sock)
    requires !EndsCrlf(s.http.chunkLine)
    ensures LineTaken(s, s.http.chunkLine) == s
  {}

  lemma ChunkReadNothing(s: Sock, d: string)
    ensures ChunkRead(s, d[|d|..]) == s
  {
    assert d[|d|..] == "";
  }

  lemma ChunkTurnSkip(s: Sock, d: string, i: nat)
    requires i < |d| && (s.http.chunkState == 2 || s.http.chunkState == 3)
    ensures ChunkRead(s, d[i..])
         == ChunkRead(s.(http := s.http.(chunkState := if s.http.chunkState == 2 then 3 else 0)), d[i + 1..])
  {
    hide Read, ChunkStart, LineTake, EndsCrlf, EmitData;
    assert d[i..][1..] == d[i + 1..];
  }

  /** A sequence of reads. */
  function ReadAll(s: Sock, parts: seq<string>): Sock
    decreases parts
  {
    if parts == [] then s else ReadAll(Read(s, parts[0]), parts[1..])
  }

  /** The same bytes, one per read. */
  function Singly(d: string): (r: seq<string>)
    ensures |r| == |d|
  {
    if d == "" then [] else [[d[0]]] + Singly(d[1..])
  }
}
