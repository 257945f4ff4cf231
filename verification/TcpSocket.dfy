/** The input side of TcpSocket and HTTPSocket: OnRead, OnLine and OnRawData call each other
    and update the fields in place. */
module TcpSocket {
  import opened Bytes
  import opened Words
  import opened SocketInput

  method ReadStartLine(text: string) returns (start: StartLine)
    ensures start == ParseStart(text)
  {
    hide WordAt, RestAt, Lower, IndexOf;
    var pa := new Parse(text, "");
    var str := pa.GetWord();
    var isResponse := false;
    if |str| > 4 {
      var proto := ToLower(str[..5]);
      isResponse := proto == "http/";
    }
    var second := pa.GetWord();
    if isResponse {
      var rest := pa.GetRest();
      start := Response(str, second, rest);
    } else {
      var spl := IndexOf(second, '?');
      var version := pa.GetWord();
      start := Request(str, second, second[..spl], if spl < |second| then second[spl + 1..] else "", version);
    }
  }

  method FirstWord(text: string, splits: string) returns (word: string)
    ensures word == WordAt(text, splits, 0).0
  {
    var pa := new Parse(text, splits);
    word := pa.GetWord();
  }

  method ReadHeaderLine(text: string) returns (key: string, value: string)
    ensures (key, value) == HeaderParts(text)
  {
    hide WordAt, RestAt;
    var pa := new Parse(text, ":");
    key := pa.GetWord();
    value := pa.GetRest();
  }

  /** The framing headers: content-length, connection and transfer-encoding. */
  method NoteHeader(http: Http, key: string, value: string) returns (h: Http)
    ensures h == HeaderEffect(http, key, value) && h.chunkState == http.chunkState
  {
    hide Lower, AtoL, ToSizeT;
    var k := ToLower(key);
    var v := ToLower(value);
    h := http.(headerCount := http.headerCount + 1);
    if k == "content-length" {
      h := h.(bodyLeft := ToSizeT(AtoL(value)));
    }
    if http.http11 && k == "connection" {
      h := h.(keepalive := v != "close");
    }
    if k == "transfer-encoding" && v == "chunked" {
      h := h.(chunked := true);
    }
  }

  class TcpSocket {
    const kind: Kind              // stands for the virtual OnLine and OnRawData
    var lineProtocol: bool
    var skipC: bool
    var c: char
    var line: string              // m_line up to m_line_ptr
    var closeAndDelete: bool
    var http: Http                // the fields HTTPSocket adds
    // the callbacks made so far
    ghost var trace: seq<Event>

    ghost function State(): Sock
      reads this
    {
      Sock(kind, lineProtocol, skipC, c, line, closeAndDelete, http, trace)
    }

    ghost predicate Valid()
      reads this
    {
      http.chunkState <= 4
    }

    constructor (kind: Kind, maxHeaderCount: int)
      ensures Valid()
      ensures State() == Fresh(kind, maxHeaderCount)
    {
      this.kind := kind;
      lineProtocol, skipC, c, line, closeAndDelete := true, false, NUL, "", false;
      http := FreshHttp(maxHeaderCount);
      trace := [];
    }

    method OnLine(text: string)
      requires Valid()
      modifies this
      ensures Valid() && State() == LineRead(old(State()), text)
    {
      hide StartOfRequest, HeaderLine;
      trace := trace + [Line(text)];
      if kind.LineClient? {
        return;
      }
      if http.first {
        OnFirstLine(text);
      } else if text == "" {
        if http.bodyLeft != 0 || !http.http11 || !http.keepalive || http.chunked {
          lineProtocol := false;
          http := http.(header := false);
        }
        trace := trace + [HeaderComplete];
        if http.bodyLeft == 0 && !http.chunked {
          trace := trace + [DataComplete];
        }
      } else {
        OnHeaderLine(text);
      }
    }

    method OnFirstLine(text: string)
      requires Valid()
      modifies this
      ensures Valid()
      ensures var h := StartOfRequest(old(http), text);
        State() == Emit(old(State()).(http := h), First(h.start))
    {
      hide ParseStart;
      ghost var h := StartOfRequest(http, text);
      var start := ReadStartLine(text);
      http := http.(start := start);
      if start.Request? {
        var http11 := |start.version| > 4 && start.version[4..] == "/1.1";
        http := http.(http11 := http11, keepalive := http11);
      }
      http := http.(first := false);
      assert http == h;
      trace := trace + [First(start)];
    }

    method OnHeaderLine(text: string)
      requires Valid()
      modifies this
      ensures Valid() && State() == HeaderLine(old(State()), text)
    {
      hide HeaderParts, HeaderEffect;
      var key, value := ReadHeaderLine(text);
      trace := trace + [Header(key, value)];
      if http.headerCount > http.maxHeaderCount {
        closeAndDelete := true;
      }
      http := NoteHeader(http, key, value);
    }

    /** memcpy of a piece of the read buffer onto the unfinished line. */
    method AppendToLine(seg: string)
      requires Valid()
      modifies this
      ensures Valid() && State() == Commit(old(State()), seg)
    {
      var sz := IndexOf(seg, NUL);
      if sz > 0 {
        if |line| + sz < MAX_LINE {
          line := line + seg[..sz];
        } else {
          closeAndDelete := true;
        }
      }
    }

    method EndOfLine(seg: string, eol: char)
      requires Valid()
      modifies this
      ensures Valid() && State() == EndLine(old(State()), seg, eol)
    {
      AppendToLine(seg);
      OnLine(line);
      skipC := true;
      c := eol;
      line := "";
    }

    /** One turn of the inner loop of OnRead: the line end at `i`, and the other half of a pair. */
    method TakeEol(buf: array<char>, x: nat, i: nat, n: nat, ghost d: string) returns (j: nat)
      requires Valid() && lineProtocol && x <= i < n < buf.Length && n == |d|
      requires buf[n] == NUL && IsEol(d[i]) && forall k :: x <= k < n ==> buf[k] == d[k]
      modifies this, buf
      ensures Valid() && i < j <= n
      ensures buf[n] == NUL && forall k :: j <= k < n ==> buf[k] == d[k]
      ensures old(ScanAt(State(), d, x, i))
           == if lineProtocol then ScanAt(State(), d, j, j) else if j < n then RawRead(State(), d[j..]) else State()
    {
      hide Scan, RawRead, EndLine, Commit;
      ScanAtEol(State(), d, x, i);
      var eol := buf[i];
      buf[i] := NUL;
      assert buf[x..i] == d[x..i];
      EndOfLine(buf[x..i], eol);
      j := i + 1;
      if j < n && IsEol(buf[j]) && buf[j] != eol {
        skipC := false;
        j := j + 1;
      }
    }

    /** OnRead(buf, n): the bytes read are buf[..n], and the buffer is overwritten while scanning. */
    method OnRead(buf: array<char>, n: nat)
      requires Valid() && n < buf.Length
      modifies this, buf
      ensures Valid() && State() == Read(old(State()), old(buf[..n]))
      decreases n, if lineProtocol then 1 else 6
    {
      hide Scan, RawRead, EndLine, Commit;
      ghost var d := buf[..n];
      if n == 0 || n > BUFSIZE_READ {
        return;
      }
      if !lineProtocol {
        OnRawData(buf[..n]);
        return;
      }
      buf[n] := NUL;
      var i := 0;
      if skipC && IsEol(buf[i]) && buf[i] != c {
        skipC := false;
        i := i + 1;
      }
      var x := i;
      ghost var goal := Read(old(State()), d);
      assert d[0..] == d && d[i..i] == "";
      while i < n && lineProtocol
        invariant Valid() && x <= i <= n + 1 && x <= n
        invariant buf[n] == NUL && forall k :: x <= k < n ==> buf[k] == d[k]
        invariant lineProtocol
        invariant ScanAt(State(), d, x, if i <= n then i else n) == goal
        decreases n + 1 - i
      {
        while IsEol(buf[i]) && lineProtocol
          invariant Valid() && x <= i <= n
          invariant buf[n] == NUL && forall k :: x <= k < n ==> buf[k] == d[k]
          invariant lineProtocol ==> ScanAt(State(), d, x, i) == goal
          invariant !lineProtocol ==> 0 < i && (if i < n then RawRead(State(), d[i..]) else State()) == goal
          decreases n - i
        {
          i := TakeEol(buf, x, i, n, d);
          x := i;
        }
        if !lineProtocol {
          break;
        }
        if i < n {
          ScanAtPlain(State(), d, x, i);
        }
        i := i + 1;
      }
      if !lineProtocol {
        if i < n {
          assert buf[i..n] == d[i..];
          OnRawData(buf[i..n]);
        }
      } else {
        ScanAtEnd(State(), d, x);
        assert buf[x..n] == d[x..];
        AppendToLine(buf[x..n]);
      }
    }

    method OnRawData(d: string)
      requires Valid()
      modifies this
      ensures Valid() && State() == RawRead(old(State()), d)
      decreases |d|, 5
    {
      hide Read, ChunkRead, DataEvents;
      if kind.LineClient? || http.header {
        return;
      }
      if http.chunked {
        ReadChunks(d);
      } else if !http.http11 || !http.keepalive {
        trace := trace + DataEvents(d);
        http := http.(bodyLeft := ToSizeT(http.bodyLeft - |d|));
        if http.bodyLeft == 0 {
          trace := trace + [DataComplete];
        }
      } else {
        var sz := if http.bodyLeft < |d| then http.bodyLeft else |d|;
        trace := trace + DataEvents(d[..sz]);
        http := http.(bodyLeft := ToSizeT(http.bodyLeft - sz));
        if http.bodyLeft == 0 {
          trace := trace + [DataComplete];
          lineProtocol := true;
          http := http.(first := true, header := true, bodyLeft := 0);
          HandBack(d[sz..]);
        }
      }
    }

    /** The bytes after a body are copied to a buffer of their own and read as a new block. */
    method HandBack(rest: string)
      requires Valid() && lineProtocol
      modifies this
      ensures Valid() && State() == Read(old(State()), rest)
      decreases |rest|, 2
    {
      if |rest| > 0 {
        var tmp := new char[|rest| + 1](k => if 0 <= k < |rest| then rest[k] else NUL);
        assert tmp[..|rest|] == rest;
        OnRead(tmp, |rest|);
      }
    }

    /** m_chunk_line += buf[ptr++] until it ends in CRLF. */
    method TakeChunkLine(d: string, from: nat) returns (ptr: nat)
      requires from <= |d|
      modifies this`http
      ensures LineUpTo(old(http), d, from, ptr)
      ensures http == old(http).(chunkLine := old(http).chunkLine + d[from..ptr])
    {
      hide LineTake, EndsCrlf;
      ptr := from;
      var line := http.chunkLine;
      assert line + d[from..from] == line;
      while ptr < |d| && !EndsCrlf(line)
        invariant from <= ptr <= |d|
        invariant http == old(http) && line == http.chunkLine + d[from..ptr]
        invariant from + LineTake(http.chunkLine, d[from..]) == ptr + LineTake(line, d[ptr..])
      {
        LineTakeStep(line, d, ptr);
        assert d[from..ptr + 1] == d[from..ptr] + [d[ptr]];
        line := line + [d[ptr]];
        ptr := ptr + 1;
      }
      LineTakeDone(line, d[ptr..]);
      http := http.(chunkLine := line);
    }

    /** States 0 and 4 of the chunk loop: collect a line and act on it when complete. */
    method ReadChunkLine(d: string, from: nat) returns (ptr: nat)
      requires Valid() && from < |d| && (http.chunkState == 0 || http.chunkState == 4)
      modifies this
      ensures Valid() && from <= ptr <= |d|
      ensures ChunkRead(State(), d[ptr..]) == old(ChunkRead(State(), d[from..]))
      ensures ptr == from ==> old(http).chunkState == 0 && (http.chunkState == 1 || http.chunkState == 4)
      decreases |d|, 3
    {
      hide Read, ChunkRead, LineTake, LineTaken;
      ptr := TakeChunkLine(d, from);
      ChunkTurnLine(old(State()), d, from, ptr);
      LineTakenIgnoresLine(old(State()), http.chunkLine, http.chunkLine);
      if !EndsCrlf(http.chunkLine) {
        LineNotDone(State());
        ChunkReadNothing(State(), d);
      } else if http.chunkState == 4 {
        EndChunks();
        HandBack(d[ptr..]);
        ptr := |d|;
        ChunkReadNothing(State(), d);
      } else {
        StartChunk();
      }
    }

    /** State 1: deliver chunk data. */
    method ReadChunkData(d: string, from: nat) returns (ptr: nat)
      requires Valid() && from < |d| && http.chunkState == 1
      modifies this
      ensures Valid() && from <= ptr <= |d|
      ensures ptr == from ==> http.chunkState == 2
      ensures ChunkRead(State(), d[ptr..]) == old(ChunkRead(State(), d[from..]))
    {
      hide ChunkRead, TakeData;
      ChunkTurnData(State(), d, from);
      var sz := if http.chunkSize < |d| - from then http.chunkSize else |d| - from;
      ptr := from + sz;
      DeliverChunk(d[from..ptr]);
    }

    /** OnData with chunk data, and the step to the line end after a finished chunk. */
    method DeliverChunk(data: string)
      requires Valid() && http.chunkState == 1 && |data| <= http.chunkSize
      modifies this
      ensures Valid() && State() == TakeData(old(State()), data)
      ensures data == "" && old(http).chunkSize == 0 ==> http.chunkState == 2
    {
      hide DataEvents;
      trace := trace + DataEvents(data);
      http := http.(chunkSize := http.chunkSize - |data|);
      if http.chunkSize == 0 {
        http := http.(chunkState := 2);
      }
    }

    method EndChunks()
      requires Valid() && EndsCrlf(http.chunkLine) && http.chunkState == 4
      modifies this
      ensures Valid() && lineProtocol && http.chunkState == 4
      ensures State() == LineTaken(old(State()), old(http).chunkLine)
    {
      trace := trace + [DataComplete];
      lineProtocol := true;
      http := http.(chunked := false, first := true, header := true, bodyLeft := 0);
    }

    method ReadChunks(d: string)
      requires Valid()
      modifies this
      ensures Valid() && State() == ChunkRead(old(State()), d)
      decreases |d|, 4
    {
      hide ChunkRead, DataEvents;
      var ptr := 0;
      ghost var goal := ChunkRead(State(), d);
      assert d[0..] == d;
      while ptr < |d|
        invariant Valid() && ptr <= |d|
        invariant ChunkRead(State(), d[ptr..]) == goal
        decreases |d| - ptr, if http.chunkState == 0 then 2 else if http.chunkState == 1 then 1 else 0
      {
        if http.chunkState == 0 || http.chunkState == 4 {
          ptr := ReadChunkLine(d, ptr);
        } else if http.chunkState == 1 {
          ptr := ReadChunkData(d, ptr);
          assert ChunkRead(State(), d[ptr..]) == goal;
        } else {
          ChunkTurnSkip(State(), d, ptr);
          ptr := ptr + 1;
          http := http.(chunkState := if http.chunkState == 2 then 3 else 0);
        }
      }
      ChunkReadNothing(State(), d);
    }

    method StartChunk()
      requires Valid() && EndsCrlf(http.chunkLine) && http.chunkState == 0
      modifies this`http
      ensures Valid() && (http.chunkState == 1 || http.chunkState == 4)
      ensures State() == LineTaken(old(State()), old(http).chunkLine)
    {
      hide WordAt, HexValue;
      var line := http.chunkLine[..|http.chunkLine| - 2];
      var word := FirstWord(line, ";");
      var size := Hex2Unsigned(word);
      http := http.(chunkSize := size, chunkState := if size == 0 then 4 else 1, chunkLine := "");
    }
  }
}
