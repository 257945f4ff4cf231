/** A chunked body on a connection that has had one: the chunk parser is spent, the body is complete before
    it begins, and what is delivered is never what was sent. */
module SecondChunked {
  import opened Words
  import opened Bytes
  import opened SocketInput
  import opened Reads
  import opened Stream
  import opened Chunks
  import opened Requests
  import opened OneRequest

  /** The head and the blank line of a request whose chunk parser is spent: its body is complete before
      its first byte, however the reads cut the blank line. */
  lemma SpentRequest(s: Sock, m: Message, parts: seq<string>)
    requires Ready(s) && SpentParser(s.http) && Framed(m) && m.body.Chunked?
    requires Legal(parts) && Encoded(m) <= Concat(parts)
    ensures var e, q := Spent(AfterLine(BeforeBlank(s, m), "")), DropBytes(parts, |Head(m)| + 2);
      && ReadAll(s, parts) == ReadAll(e, q) && Ready(e) && e.trace == s.trace + HeadEvents(m) + [DataComplete]
      && Legal(q) && Concat(q) == Concat(parts)[|Head(m)| + 2..] && Text(m.body) <= Concat(q)
  {
    hide ReadAll, DropBytes, BeforeBlank, Framed, HeadOk, StartsAt, Encoded, Head, Concat, CutsBlank, InHead, Ready;
    hide AfterLine;
    hide Text, BodyOk, FieldEvents, ParseStart;
    HeadDropped(m, parts);
    FramedHead(m);
    HeadAcrossReads(s, m, parts);
    BeforeBlankIs(s, m);
    SpentBlank(BeforeBlank(s, m), m.body, DropBytes(parts, |Head(m)|));
    DropTwice(parts, |Head(m)|, 2);
    DropConcat(parts, |Head(m)|);
    HeadFits(m, Concat(parts));
    DropConcat(parts, |Head(m)| + 2);
    assert s.trace + [Line(m.start), First(ParseStart(m.start))] + FieldEvents(m.lines) + [Line(""), HeaderComplete]
      + [DataComplete] == s.trace + HeadEvents(m) + [DataComplete];
  }

  lemma HeadFits(m: Message, d: string)
    requires Encoded(m) <= d
    ensures |Head(m)| + 2 <= |d|
  {
  }

  lemma SpentBlank(s: Sock, body: Body, parts: seq<string>)
    requires AtBlank(s, body) && SpentParser(s.http) && body.Chunked?
    requires Legal(parts) && CRLF + Text(body) <= Concat(parts)
    ensures var e, q := Spent(AfterLine(s, "")), DropBytes(parts, 2);
      && ReadAll(s, parts) == ReadAll(e, q) && Ready(e)
      && e.trace == s.trace + [Line(""), HeaderComplete] + [DataComplete]
      && Legal(q) && Text(body) <= Concat(q)
  {
    hide ReadAll, DropBytes, StartsAt, Concat, AfterLine, EncodedBody, BodyOk;
    PrefixDrop(CRLF, Text(body), parts);
    BlankBeforeChunks(s);
    BodyIsSome(body.chunks, body.zero, body.ext);
    assert "" + CRLF == CRLF && s.line + "" == "";
    var r, q := AfterLine(s, ""), DropBytes(parts, 2);
    if StartsAt(parts, 1) {
      BlankCut(s, body, parts);
      var q1 := DropBytes(parts, 1);
      CompletesAtOnceAcrossReads(r.(skip := true), q1);
      assert Concat(q1)[0] == LF;
      SkipLf(Spent(r.(skip := true)), q1);
      DropTwice(parts, 1, 1);
    } else {
      LineAcrossReads(s, "", parts);
      CompletesAtOnceAcrossReads(r, q);
    }
  }

  lemma BodyIsSome(chunks: seq<Chunk>, zero: string, ext: string)
    ensures EncodedBody(chunks, zero, ext) != ""
  {
  }

  /** What a request that follows a spent parser would have to give is not what it gives. */
  lemma SpentSeen(s: Sock, m: Message, rest: seq<Message>, parts: seq<string>)
    requires Ready(s) && SpentParser(s.http) && Framed(m) && m.body.Chunked? && AllFramed(rest)
    requires Legal(parts) && Concat(parts) == Encoded(m) + EncodedAll(rest)
    ensures s.trace + HeadEvents(m) + [DataComplete] <= ReadAll(s, parts).trace
    ensures ReadAll(s, parts).trace != s.trace + Delivered(m) + DeliveredAll(rest)
  {
    hide ReadAll, DropBytes, BeforeBlank, Framed, HeadOk, Encoded, Head, Concat, Ready, AfterLine, Spent;
    hide Text, BodyOk, HeadEvents, DeliveredAll, EncodedAll, Content, DataEvents;
    SpentRequest(s, m, parts);
    var e, q := Spent(AfterLine(BeforeBlank(s, m), "")), DropBytes(parts, |Head(m)| + 2);
    ReadAllGrows(e, q);
    var r, h := ReadAll(s, parts).trace, s.trace + HeadEvents(m);
    if Content(m.body) != "" {
      DataIsNoCompletion(h, Content(m.body), DeliveredAll(rest), r);
      assert s.trace + Delivered(m) + DeliveredAll(rest)
          == h + DataEvents(Content(m.body)) + [DataComplete] + DeliveredAll(rest);
    } else {
      var z := m.body.zero + m.body.ext;
      EmptyBody(m);
      TextBehindHead(m, EncodedAll(rest));
      Phony(e, z, rest, q);
      assert DataEvents(Content(m.body)) == [] by { NoData(); }
      assert s.trace + Delivered(m) + DeliveredAll(rest) == e.trace + DeliveredAll(rest);
    }
  }

  lemma DataIsNoCompletion(h: seq<Event>, data: string, more: seq<Event>, r: seq<Event>)
    requires data != "" && h + [DataComplete] <= r
    ensures r != h + DataEvents(data) + [DataComplete] + more
  {
    assert r[|h|] == (h + [DataComplete])[|h|] == DataComplete;
    assert (h + DataEvents(data) + [DataComplete] + more)[|h|] == DataEvents(data)[0];
  }

  lemma EmptyBody(m: Message)
    requires Framed(m) && m.body.Chunked?
    ensures Content(m.body) == "" ==>
      var z := m.body.zero + m.body.ext; NoEol(z) && Text(m.body) == z + CRLF + CRLF
  {
    hide Folded, HexNumber, ParseStart, LineText, IsField;
    var body := m.body;
    SizeLineHasNoEol(body.zero, body.ext);
    if body.chunks == [] {
      assert Text(body) == "" + (body.zero + body.ext + CRLF + CRLF);
    } else {
      assert ChunkOk(body.chunks[0]);
    }
  }

  lemma SizeLineHasNoEol(size: string, ext: string)
    requires SizeLine(size, ext)
    ensures NoEol(size + ext)
  {
    forall k | 0 <= k < |size + ext| ensures !IsEol((size + ext)[k]) {
      if k < |size| { assert IsHexDigit(size[k]); } else { assert (size + ext)[k] == ext[k - |size|]; }
    }
  }

  lemma TextBehindHead(m: Message, more: string)
    ensures (Encoded(m) + more)[|Head(m)| + 2..] == Text(m.body) + more && |Head(m)| + 2 <= |Encoded(m) + more|
  {
    hide Head, Text;
    assert Encoded(m) + more == (Head(m) + CRLF) + (Text(m.body) + more);
  }

  /** The line of a last chunk that is read as a request line: no requests that follow make up for it. */
  lemma Phony(e: Sock, z: string, rest: seq<Message>, parts: seq<string>)
    requires Ready(e) && NoEol(z) && AllFramed(rest)
    requires Legal(parts) && Concat(parts) == z + CRLF + CRLF + EncodedAll(rest)
    ensures ReadAll(e, parts).trace != e.trace + DeliveredAll(rest)
  {
    hide ReadAll, DropBytes, Concat, EncodedAll, AfterLine, Framed, HeadOk;
    assert z + CRLF + CRLF + EncodedAll(rest) == (z + CRLF) + (CRLF + EncodedAll(rest));
    PrefixDrop(z + CRLF, CRLF + EncodedAll(rest), parts);
    DropConcat(parts, |z| + 2);
    var t, closed := AnyLine(e, z, parts);
    var e0 := e.(closed := closed);
    var e1, q := AfterLine(e0, t), DropBytes(parts, |z| + 2);
    FirstLine(e0, t);
    ReadAllGrows(e1, q);
    var r := ReadAll(e, parts).trace;
    assert r[|e.trace|] == e1.trace[|e.trace|] == Line(t);
    if rest != [] {
      assert DeliveredAll(rest)[0] == Line(rest[0].start);
      if rest[0].start == t {
        PhonyHead(e0, rest, q);
      }
    }
  }

  lemma FirstLine(s: Sock, t: string)
    requires Ready(s)
    ensures AfterLine(s, t).trace == s.trace + [Line(t), First(ParseStart(t))]
  {
    hide ParseStart;
  }

  /** A request line and a blank line over any reads. */
  lemma BareRequest(e: Sock, n: Message, more: string, parts: seq<string>)
    requires Ready(e) && Framed(n) && Legal(parts) && Concat(parts) == CRLF + more
    ensures var e2, q := AfterLine(AfterLine(e, n.start), ""), DropBytes(parts, 2);
      && ReadAll(AfterLine(e, n.start), parts) == ReadAll(e2, q) && InHead(e2)
      && e2.trace == e.trace + [Line(n.start), First(ParseStart(n.start)), Line(""), HeaderComplete, DataComplete]
      && Legal(q) && Concat(q) == more
  {
    hide ReadAll, DropBytes, Concat, AfterLine, Framed, HeadOk, ParseStart;
    var e1 := AfterLine(e, n.start);
    FramedHead(n);
    AfterStart(e, n);
    PrefixDrop(CRLF, more, parts);
    DropConcat(parts, 2);
    BlankWithoutBody(e1);
    assert "" + CRLF == CRLF && e1.line + "" == "";
    LineAcrossReads(e1, "", parts);
  }

  /** The phony request line is that of the next request: only then can it go on for a while. */
  lemma PhonyHead(e: Sock, rest: seq<Message>, parts: seq<string>)
    requires Ready(e) && rest != [] && AllFramed(rest)
    requires Legal(parts) && Concat(parts) == CRLF + EncodedAll(rest)
    ensures ReadAll(AfterLine(e, rest[0].start), parts).trace != e.trace + DeliveredAll(rest)
  {
    hide ReadAll, DropBytes, Concat, EncodedAll, AfterLine, Framed, HeadOk, ParseStart, Delivered, InHead, Ready;
    var n, more := rest[0], rest[1..];
    var e1, q := AfterLine(e, n.start), DropBytes(parts, 2);
    var e2 := AfterLine(e1, "");
    BareRequest(e, n, EncodedAll(rest), parts);
    ReadAllGrows(e2, q);
    assert e.trace + DeliveredAll(rest) == e.trace + Delivered(n) + DeliveredAll(more);
    if n.lines != [] {
      FieldsNotEmpty(n);
      BlankIsNoField(e.trace, n, DeliveredAll(more), ReadAll(e1, parts).trace);
    } else {
      NothingAnnounced(n);
      assert [n] + more == rest;
      PhonyRequest(e2, n, more, q);
    }
  }

  lemma BlankIsNoField(t: seq<Event>, n: Message, more: seq<Event>, r: seq<Event>)
    requires n.lines != [] && n.lines[0] != ""
    requires t + [Line(n.start), First(ParseStart(n.start)), Line(""), HeaderComplete, DataComplete] <= r
    ensures r != t + Delivered(n) + more
  {
    hide ParseStart, FieldEvents, DataEvents;
    FirstField(n.lines);
    assert r[|t| + 2] == Line("");
    assert HeadEvents(n)[2] == FieldEvents(n.lines)[0];
    assert (t + Delivered(n) + more)[|t| + 2] == HeadEvents(n)[2];
  }

  lemma FieldsNotEmpty(m: Message)
    requires Framed(m) && m.lines != []
    ensures m.lines[0] != ""
  {
    hide Folded, ParseStart;
    assert IsField(m.lines[0]);
  }

  lemma FirstField(lines: seq<string>)
    requires lines != []
    ensures FieldEvents(lines) != [] && FieldEvents(lines)[0] == Line(lines[0])
  {
  }

  lemma NothingAnnounced(m: Message)
    requires Framed(m) && m.lines == []
    ensures Bodyless(m)
    ensures Delivered(m) == [Line(m.start), First(ParseStart(m.start)), Line(""), HeaderComplete, DataComplete]
  {
    hide ParseStart;
    NoData();
  }

  lemma PhonyRequest(s: Sock, n: Message, rest: seq<Message>, parts: seq<string>)
    requires InHead(s) && AllFramed([n] + rest) && Legal(parts) && Concat(parts) == EncodedAll([n] + rest)
    ensures ReadAll(s, parts).trace != s.trace + DeliveredAll(rest)
  {
    hide ReadAll, DropBytes, AfterLine, Framed, HeadOk, Encoded, Concat, Delivered, FieldEvents;
    var all := [n] + rest;
    assert Framed(all[0]) && all[1..] == rest;
    StartTakenForField(s, n, parts);
    var r := ReadAll(s, parts).trace;
    StartIsNoField(s.trace, n.start, n, r);
    if rest != [] {
      StartIsNoField(s.trace, n.start, rest[0], r);
      assert s.trace + Delivered(rest[0]) + DeliveredAll(rest[1..]) == s.trace + DeliveredAll(rest);
      assert s.trace + Delivered(rest[0]) <= s.trace + DeliveredAll(rest);
    }
  }
}
