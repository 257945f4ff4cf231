/** Sequences of reads: where they cut a stream, and what is left of them. */
module Reads {
  import opened Words
  import opened Bytes
  import opened SocketInput

  predicate Legal(parts: seq<string>) {
    forall k :: 0 <= k < |parts| ==> |parts[k]| <= BUFSIZE_READ
  }

  lemma LongReadIgnored(s: Sock, d: string)
    requires |d| > 16400
    ensures Read(s, d) == s
  {
  }

  /** The reads without their first `n` bytes. */
  function DropBytes(parts: seq<string>, n: nat): seq<string>
    decreases parts
  {
    if parts == [] then []
    else if |parts[0]| <= n then DropBytes(parts[1..], n - |parts[0]|)
    else [parts[0][n..]] + parts[1..]
  }

  /** Some read starts with byte `n` of the stream. */
  predicate StartsAt(parts: seq<string>, n: nat)
    decreases parts
  {
    parts != [] && (n == 0 || (n >= |parts[0]| && StartsAt(parts[1..], n - |parts[0]|)))
  }

  lemma {:induction false} DropTwice(parts: seq<string>, n: nat, m: nat)
    ensures DropBytes(DropBytes(parts, n), m) == DropBytes(parts, n + m)
    decreases parts
  {
    if parts != [] {
      if |parts[0]| <= n {
        DropTwice(parts[1..], n - |parts[0]|, m);
      } else {
        var dropped := [parts[0][n..]] + parts[1..];
        assert dropped[1..] == parts[1..];
      }
    }
  }

  lemma {:induction false} DropConcat(parts: seq<string>, n: nat)
    requires Legal(parts) && n <= |Concat(parts)|
    ensures Concat(DropBytes(parts, n)) == Concat(parts)[n..] && Legal(DropBytes(parts, n))
    decreases parts
  {
    if parts != [] {
      var all := Concat(parts);
      if |parts[0]| <= n {
        DropConcat(parts[1..], n - |parts[0]|);
        assert all[n..] == Concat(parts[1..])[n - |parts[0]|..];
      } else {
        var dropped := [parts[0][n..]] + parts[1..];
        assert dropped[1..] == parts[1..];
        assert all[n..] == parts[0][n..] + Concat(parts[1..]);
      }
    }
  }

  lemma {:induction false} DropStarts(parts: seq<string>, n: nat, k: nat)
    requires k > 0
    ensures StartsAt(DropBytes(parts, n), k) <==> StartsAt(parts, n + k)
    decreases parts
  {
    if parts != [] {
      if |parts[0]| <= n {
        DropStarts(parts[1..], n - |parts[0]|, k);
      } else {
        var dropped := [parts[0][n..]] + parts[1..];
        assert dropped[1..] == parts[1..];
      }
    }
  }

  /** Nothing is left when everything is dropped. */
  lemma {:induction false} DropAll(parts: seq<string>)
    ensures DropBytes(parts, |Concat(parts)|) == []
    decreases parts
  {
    if parts != [] {
      DropAll(parts[1..]);
    }
  }

  /** Empty reads do nothing. */
  lemma {:induction false} DropNothing(s: Sock, parts: seq<string>)
    ensures ReadAll(s, DropBytes(parts, 0)) == ReadAll(s, parts)
    decreases parts
  {
    if parts != [] {
      if parts[0] == "" {
        DropNothing(s, parts[1..]);
      } else {
        assert parts[0][0..] == parts[0] && [parts[0]] + parts[1..] == parts;
      }
    }
  }

  /** The first read, when the bytes to be dropped end in it. */
  lemma DropInFirst(s: Sock, s1: Sock, parts: seq<string>, n: nat)
    requires parts != [] && n <= |parts[0]| && Read(s, parts[0]) == Read(s1, parts[0][n..])
    ensures ReadAll(s, parts) == ReadAll(s1, DropBytes(parts, n))
  {
    hide Read;
    var rest := parts[0][n..];
    if rest == "" {
      assert Read(s1, "") == s1 by {
        ReadNone(s1);
      }
      DropNothing(s1, parts[1..]);
    } else {
      var dropped := [rest] + parts[1..];
      assert dropped[1..] == parts[1..] && dropped[0] == rest;
    }
  }

  lemma ReadNone(s: Sock)
    ensures Read(s, "") == s
  {
  }

  /** The reads of a connection end when the handler has closed it. */
  function Received(s: Sock, parts: seq<string>): Sock
    decreases parts
  {
    if parts == [] || s.closed then s else Received(Read(s, parts[0]), parts[1..])
  }

  /** The connection stays open exactly if no read of the whole stream would have closed it. */
  lemma {:induction false} ReceivedIsReadAll(s: Sock, parts: seq<string>)
    ensures Received(s, parts).closed == ReadAll(s, parts).closed
    ensures !Received(s, parts).closed ==> Received(s, parts) == ReadAll(s, parts)
    decreases parts
  {
    hide Read;
    if s.closed {
      ReadAllGrows(s, parts);
    } else if parts != [] {
      ReceivedIsReadAll(Read(s, parts[0]), parts[1..]);
    }
  }

  // ----- callbacks are never taken back, and a closed socket stays closed -----

  predicate Grows(s: Sock, r: Sock) { s.trace <= r.trace && (s.closed ==> r.closed) }

  lemma {:induction false} ReadGrows(s: Sock, d: string)
    ensures Grows(s, Read(s, d))
    decreases |d|, if s.lineMode then 1 else 6
  {
    hide Scan, RawRead;
    if d == "" || |d| > BUFSIZE_READ {
    } else if !s.lineMode {
      RawGrows(s, d);
    } else if s.skip && IsEol(d[0]) && d[0] != s.c {
      ScanGrows(s.(skip := false), "", d[1..]);
    } else {
      ScanGrows(s, "", d);
    }
  }

  lemma {:induction false} ScanGrows(s: Sock, seg: string, rest: string)
    ensures Grows(s, Scan(s, seg, rest))
    decreases |rest|, 0
  {
    hide RawRead, LineRead;
    if rest == "" {
    } else if IsEol(rest[0]) {
      var (s1, r) := AfterEol(s, seg, rest);
      LineGrows(Commit(s, seg), Commit(s, seg).line);
      if s1.lineMode {
        ScanGrows(s1, "", r);
      } else if r != "" {
        RawGrows(s1, r);
      }
    } else {
      ScanGrows(s, seg + [rest[0]], rest[1..]);
    }
  }

  lemma LineGrows(s: Sock, t: string)
    ensures Grows(s, LineRead(s, t))
  {
    hide StartOfRequest, HeaderParts, HeaderEffect;
  }

  lemma {:induction false} RawGrows(s: Sock, d: string)
    ensures Grows(s, RawRead(s, d))
    decreases |d|, 5
  {
    hide Read, ChunkRead, DataEvents, ToSizeT;
    if s.kind.LineClient? || s.http.header {
    } else if s.http.chunked {
      ChunkGrows(s, d);
    } else if s.http.http11 && s.http.keepalive {
      var n := if s.http.bodyLeft < |d| then s.http.bodyLeft else |d|;
      var s1 := TakeBody(s, d[..n]);
      if s1.http.bodyLeft == 0 {
        ReadGrows(NextMessage(Emit(s1, DataComplete)), d[n..]);
      }
    }
  }

  lemma {:induction false} ChunkGrows(s: Sock, d: string)
    ensures Grows(s, ChunkRead(s, d))
    decreases |d|, if s.http.chunkState == 0 then 4 else if s.http.chunkState == 1 then 3 else 2
  {
    hide Read, WordAt, HexValue, LineTaken, EndsCrlf, LineTake, TakeData;
    var h := s.http;
    if d == "" {
    } else if h.chunkState == 0 || h.chunkState == 4 {
      var line := ChunkLine(h, d);
      var r := d[LineTake(h.chunkLine, d)..];
      var s1 := LineTaken(s, line);
      TakenGrows(s, line, "");
      if EndsCrlf(line) {
        if h.chunkState == 4 {
          ReadGrows(s1, r);
        } else {
          ChunkGrows(s1, r);
        }
      }
    } else if h.chunkState == 1 {
      var n := if h.chunkSize < |d| then h.chunkSize else |d|;
      TakenGrows(s, "", d[..n]);
      ChunkGrows(TakeData(s, d[..n]), d[n..]);
    } else {
      ChunkGrows(s.(http := h.(chunkState := if h.chunkState == 2 then 3 else 0)), d[1..]);
    }
  }

  lemma TakenGrows(s: Sock, line: string, d: string)
    ensures Grows(s, LineTaken(s, line))
    ensures EndsCrlf(line) ==>
      if s.http.chunkState == 4 then LineTaken(s, line).lineMode
      else LineTaken(s, line).http.chunkState == 1 || LineTaken(s, line).http.chunkState == 4
    ensures |d| <= s.http.chunkSize ==>
      Grows(s, TakeData(s, d)) && TakeData(s, d).http.chunkState == if |d| == s.http.chunkSize then 2 else 1
  {
    hide ChunkStart, EndsCrlf;
  }

  lemma {:induction false} ReadAllGrows(s: Sock, parts: seq<string>)
    ensures Grows(s, ReadAll(s, parts))
    decreases parts
  {
    hide Read;
    if parts != [] {
      ReadGrows(s, parts[0]);
      ReadAllGrows(Read(s, parts[0]), parts[1..]);
    }
  }
}
