/** Many requests on one connection: for exactly which reads, for how many fields and for how many chunked
    bodies HTTPSocket delivers what was sent. */
module KeepAlive {
  import opened Words
  import opened Bytes
  import opened SocketInput
  import opened Reads
  import opened Stream
  import opened Chunks
  import opened Requests
  import opened OneRequest
  import opened SecondChunked

  // ----- the conditions -----

  /** A cut inside the blank line does not show: before a chunked body, and before line feeds only. */
  predicate CutHides(m: Message) { m.body.Sized? ==> OnlyLineFeeds(m.body.data) }

  /** No read of `parts` starts inside the blank line of a request, but where that does not show. */
  predicate CutsHarmless(ms: seq<Message>, parts: seq<string>) {
    forall j :: 0 <= j < |ms| ==>
      (StartsAt(parts, |EncodedAll(ms[..j])| + |Head(ms[j])| + 1) ==> CutHides(ms[j]))
  }

  /** Only the last request may be without a body. */
  predicate BodiesBetween(ms: seq<Message>) { forall j :: 0 <= j < |ms| - 1 ==> !Bodyless(ms[j]) }

  function FieldCount(ms: seq<Message>): nat {
    if ms == [] then 0 else |ms[0].lines| + FieldCount(ms[1..])
  }

  function ChunkedCount(ms: seq<Message>): nat {
    if ms == [] then 0 else (if ms[0].body.Chunked? then 1 else 0) + ChunkedCount(ms[1..])
  }

  /** How many chunked bodies the chunk parser can still take. */
  function Spare(h: Http): nat { if FreshParser(h) then 1 else 0 }

  /** As it is between requests: ready, with a chunk parser that is fresh or spent. */
  predicate Between(s: Sock) { Ready(s) && (FreshParser(s.http) || SpentParser(s.http)) }

  predicate Delivers(s: Sock, ms: seq<Message>, parts: seq<string>) {
    CutsHarmless(ms, parts) && BodiesBetween(ms) && ChunkedCount(ms) <= Spare(s.http)
  }

  lemma CutsHarmlessCons(ms: seq<Message>, parts: seq<string>)
    requires ms != []
    ensures CutsHarmless(ms, parts) <==>
      (CutsBlank(ms[0], parts) ==> CutHides(ms[0]))
      && CutsHarmless(ms[1..], DropBytes(parts, |Encoded(ms[0])|))
  {
    hide Encoded, Head, StartsAt, DropBytes, CutHides;
    var n, q, rest := |Encoded(ms[0])|, DropBytes(parts, |Encoded(ms[0])|), ms[1..];
    assert ms[..0] == [];
    forall j | 0 <= j < |rest|
      ensures StartsAt(q, |EncodedAll(rest[..j])| + |Head(rest[j])| + 1)
         <==> StartsAt(parts, |EncodedAll(ms[..j + 1])| + |Head(ms[j + 1])| + 1)
    {
      assert ms[..j + 1][1..] == rest[..j];
      DropStarts(parts, n, |EncodedAll(rest[..j])| + |Head(rest[j])| + 1);
    }
    if CutsHarmless(rest, q) && (CutsBlank(ms[0], parts) ==> CutHides(ms[0])) {
      forall j | 0 <= j < |ms| && StartsAt(parts, |EncodedAll(ms[..j])| + |Head(ms[j])| + 1)
        ensures CutHides(ms[j])
      {
        if j > 0 { assert ms[j] == rest[j - 1]; }
      }
    }
    if CutsHarmless(ms, parts) {
      assert CutsBlank(ms[0], parts) ==> CutHides(ms[0]) by {
        assert |EncodedAll(ms[..0])| + |Head(ms[0])| + 1 == |Head(ms[0])| + 1;
      }
      forall j | 0 <= j < |rest| && StartsAt(q, |EncodedAll(rest[..j])| + |Head(rest[j])| + 1)
        ensures CutHides(rest[j])
      {
        assert ms[j + 1] == rest[j];
      }
    }
  }

  lemma BodiesBetweenCons(ms: seq<Message>)
    requires ms != [] && !Bodyless(ms[0])
    ensures BodiesBetween(ms) <==> BodiesBetween(ms[1..])
  {
    var rest := ms[1..];
    assert forall j :: 0 <= j < |rest| - 1 ==> rest[j] == ms[j + 1];
    assert forall j :: 1 <= j < |ms| - 1 ==> ms[j] == rest[j - 1];
  }

  lemma NoneToCut(parts: seq<string>)
    ensures CutsHarmless([], parts)
  {
  }

  // ----- requests in a row -----

  /** The socket after requests that are read whole. */
  function AfterAll(s: Sock, ms: seq<Message>): Sock
    decreases ms
  {
    if ms == [] then s else AfterAll(AfterMessage(s, ms[0]), ms[1..])
  }

  /** Between requests, after one that had its body. */
  lemma AfterOne(s: Sock, m: Message)
    requires Between(s) && Framed(m) && !Bodyless(m)
    ensures var r := AfterMessage(s, m);
      && Between(r) && r.trace == s.trace + Delivered(m)
      && r.closed == (s.closed || Exceeds(s.http, |m.lines|)) && r.c == CR
      && r.http.headerCount == s.http.headerCount + |m.lines| && r.http.maxHeaderCount == s.http.maxHeaderCount
      && (m.body.Chunked? ==> Spare(r.http) == 0) && (m.body.Sized? ==> Spare(r.http) == Spare(s.http))
  {
    hide AfterMessage, Framed, Delivered, Ready, InHead;
    AfterMessageIs(s, m);
  }

  lemma {:induction false} AfterAllIs(s: Sock, ms: seq<Message>)
    requires Between(s) && AllFramed(ms) && BodiesBetween(ms)
    ensures var r := AfterAll(s, ms);
      && r.trace == s.trace + DeliveredAll(ms)
      && r.closed == (s.closed || Exceeds(s.http, FieldCount(ms)))
      && (if ms != [] && Bodyless(ms[|ms| - 1]) then InHead(r) else Ready(r)) && (ms != [] ==> r.c == CR)
    decreases ms
  {
    hide AfterMessage, Delivered, Framed, Ready, InHead, FreshParser, SpentParser;
    if ms == [] {
      assert s.trace + DeliveredAll(ms) == s.trace;
    } else {
      var m, rest := ms[0], ms[1..];
      assert s.trace + Delivered(m) + DeliveredAll(rest) == s.trace + DeliveredAll(ms);
      if rest == [] {
        LastIs(s, m);
        assert s.trace + Delivered(m) + DeliveredAll(rest) == s.trace + Delivered(m);
      } else {
        assert rest[|rest| - 1] == ms[|ms| - 1];
        AfterOne(s, m);
        AfterAllIs(AfterMessage(s, m), rest);
      }
    }
  }

  lemma LastIs(s: Sock, m: Message)
    requires Between(s) && Framed(m)
    ensures var r := AfterMessage(s, m);
      && r.trace == s.trace + Delivered(m) && r.closed == (s.closed || Exceeds(s.http, |m.lines|)) && r.c == CR
      && (if Bodyless(m) then InHead(r) else Ready(r))
  {
    hide AfterMessage, Framed, Delivered, Ready, InHead;
    AfterMessageIs(s, m);
  }

  /** The same socket, but for a line end that may be pending. */
  predicate Same(r: Sock, s: Sock) { r.(skip := false) == s.(skip := false) }

  lemma AfterAllSame(s: Sock, ms: seq<Message>)
    ensures Same(AfterAll(s.(skip := true), ms), AfterAll(s, ms))
  {
    hide Finished, AfterBody;
    if ms != [] {
      AfterLineSame(s, ms[0].start);
    }
  }

  lemma AfterLineSame(s: Sock, t: string)
    ensures AfterLine(s.(skip := true), t) == AfterLine(s, t)
  {
    hide StartOfRequest, HeaderLine, EndOfHeader;
    LinesSame(s.(line := t), t);
    EndSame(Emit(s.(line := t), Line(t)));
    FieldSame(Emit(s.(line := t), Line(t)), t);
  }

  lemma LinesSame(s: Sock, t: string)
    ensures Emit(s.(skip := true), Line(t)) == Emit(s, Line(t)).(skip := true)
  {
  }

  lemma EndSame(s: Sock)
    ensures Same(EndOfHeader(s.(skip := true)), EndOfHeader(s))
  {
  }

  lemma FieldSame(s: Sock, t: string)
    ensures Same(HeaderLine(s.(skip := true), t), HeaderLine(s, t))
  {
    hide HeaderParts, HeaderEffect;
  }

  /** A request that has its body, over reads that do not show. */
  lemma RequestRead(s: Sock, m: Message, parts: seq<string>)
    requires Between(s) && Framed(m) && (m.body.Chunked? ==> FreshParser(s.http))
    requires Legal(parts) && Encoded(m) <= Concat(parts) && (CutsBlank(m, parts) ==> CutHides(m))
    ensures var r, q := AfterMessage(s, m), DropBytes(parts, |Encoded(m)|);
      ReadAll(s, parts) == ReadAll(r, q) || (!Bodyless(m) && ReadAll(s, parts) == ReadAll(r.(skip := true), q))
  {
    hide ReadAll, DropBytes, AfterMessage, Framed, CutsBlank, Encoded, Concat, Ready, FreshParser;
    if !CutsBlank(m, parts) || Bodyless(m) {
      WholeRequest(s, m, parts);
    } else if m.body.Sized? {
      CutUnseen(s, m, parts);
    } else {
      CutChunks(s, m, parts);
    }
  }

  lemma BodilessIsLast(ms: seq<Message>)
    requires ms != [] && Bodyless(ms[0])
    ensures BodiesBetween(ms) <==> |ms| == 1
  {
  }

  lemma SecondIsSeen(s: Sock, m: Message, rest: seq<Message>, parts: seq<string>)
    requires Between(s) && Framed(m) && m.body.Chunked? && !FreshParser(s.http) && AllFramed(rest)
    requires Legal(parts) && Concat(parts) == Encoded(m) + EncodedAll(rest)
    ensures ReadAll(s, parts).trace != s.trace + Delivered(m) + DeliveredAll(rest)
  {
    hide ReadAll, Framed, Encoded, EncodedAll, Delivered, DeliveredAll, Concat, Ready;
    SpentSeen(s, m, rest, parts);
  }

  lemma CutIsSeen(s: Sock, m: Message, parts: seq<string>)
    requires Between(s) && Framed(m) && CutsBlank(m, parts) && !CutHides(m)
    requires Legal(parts) && Encoded(m) <= Concat(parts)
    ensures !(s.trace + Delivered(m) <= ReadAll(s, parts).trace)
  {
    hide ReadAll, Framed, Encoded, Delivered, Concat, Ready, CutsBlank;
    CutSeen(s, m, parts);
  }

  /** After a request without a body nothing but the end is delivered as sent. */
  lemma LastWithoutBody(s: Sock, rest: seq<Message>, parts: seq<string>)
    requires InHead(s) && AllFramed(rest) && Legal(parts) && Concat(parts) == EncodedAll(rest)
    ensures rest == [] ==> ReadAll(s, parts) == s && CutsHarmless(rest, parts)
    ensures rest != [] ==> ReadAll(s, parts).trace != s.trace + DeliveredAll(rest)
  {
    hide Read, Delivered, Framed, Encoded, InHead;
    if rest == [] {
      DropAll(parts);
      DropNothing(s, parts);
    } else {
      PrefixDrop(Encoded(rest[0]), EncodedAll(rest[1..]), parts);
      StartTakenForField(s, rest[0], parts);
      assert s.trace + Delivered(rest[0]) + DeliveredAll(rest[1..]) == s.trace + DeliveredAll(rest);
      assert s.trace + Delivered(rest[0]) <= s.trace + DeliveredAll(rest);
    }
  }

  /** The conditions for a list, by its first request. */
  lemma DeliversCons(s: Sock, r: Sock, ms: seq<Message>, parts: seq<string>)
    requires ms != [] && !Bodyless(ms[0])
    requires if ms[0].body.Chunked? then Spare(r.http) == 0 else Spare(r.http) == Spare(s.http)
    ensures Delivers(s, ms, parts) <==>
      && (ms[0].body.Chunked? ==> FreshParser(s.http))
      && (CutsBlank(ms[0], parts) ==> CutHides(ms[0]))
      && Delivers(r, ms[1..], DropBytes(parts, |Encoded(ms[0])|))
  {
    hide CutsHarmless, BodiesBetween, CutsBlank, CutHides, Encoded, DropBytes, FreshParser;
    CutsHarmlessCons(ms, parts);
    BodiesBetweenCons(ms);
  }

  lemma DeliversBodyless(s: Sock, ms: seq<Message>, parts: seq<string>)
    requires ms != [] && Bodyless(ms[0])
    ensures Delivers(s, ms, parts) <==> |ms| == 1
    ensures CutsBlank(ms[0], parts) ==> CutHides(ms[0])
  {
    hide CutsHarmless, BodiesBetween, CutsBlank, Encoded, DropBytes, FreshParser;
    CutsHarmlessCons(ms, parts);
    BodilessIsLast(ms);
    NoneToCut(DropBytes(parts, |Encoded(ms[0])|));
    if |ms| == 1 {
      assert ms[1..] == [] && ChunkedCount(ms[1..]) == 0 && ChunkedCount(ms) == 0;
    }
  }

  lemma DeliversNone(s: Sock, parts: seq<string>)
    ensures Delivers(s, [], parts)
  {
  }

  /** What the reads of a list of requests do: as sent exactly under the conditions. */
  lemma {:induction false} RequestsAcrossReads(s: Sock, ms: seq<Message>, parts: seq<string>)
    requires Between(s) && AllFramed(ms) && Legal(parts) && Concat(parts) == EncodedAll(ms)
    ensures ReadAll(s, parts).trace == s.trace + DeliveredAll(ms) <==> Delivers(s, ms, parts)
    ensures Delivers(s, ms, parts) ==> Same(ReadAll(s, parts), AfterAll(s, ms))
    decreases ms, 0
  {
    hide Read, ReadAll, AfterMessage, Delivered, Framed, Encoded, Head, CutHides, CutsBlank, Delivers, DropBytes;
    hide Between, Bodyless, FreshParser, Concat;
    if ms == [] {
      DeliversNone(s, parts);
      NothingRead(s, parts);
    } else {
      var m, rest := ms[0], ms[1..];
      assert Framed(m) && AllFramed(rest);
      PrefixDrop(Encoded(m), EncodedAll(rest), parts);
      assert s.trace + Delivered(m) + DeliveredAll(rest) == s.trace + DeliveredAll(ms);
      if Bodyless(m) {
        DeliversBodyless(s, ms, parts);
        BodilessAcrossReads(s, m, rest, parts);
      } else {
        AfterOne(s, m);
        DeliversCons(s, AfterMessage(s, m), ms, parts);
        if m.body.Chunked? && !FreshParser(s.http) {
          SecondIsSeen(s, m, rest, parts);
        } else if CutsBlank(m, parts) && !CutHides(m) {
          CutIsSeen(s, m, parts);
          assert s.trace + Delivered(m) <= s.trace + DeliveredAll(ms);
        } else {
          assert [m] + rest == ms;
          RestAcrossReads(s, m, rest, parts);
        }
      }
    }
  }

  lemma NothingRead(s: Sock, parts: seq<string>)
    requires Concat(parts) == ""
    ensures ReadAll(s, parts) == s && s.trace + DeliveredAll([]) == s.trace
  {
    hide Read;
    DropAll(parts);
    DropNothing(s, parts);
  }

  /** A request without a body, and what follows it. */
  lemma BodilessAcrossReads(s: Sock, m: Message, rest: seq<Message>, parts: seq<string>)
    requires Between(s) && Framed(m) && Bodyless(m) && AllFramed(rest)
    requires Legal(parts) && Concat(parts) == Encoded(m) + EncodedAll(rest) && (CutsBlank(m, parts) ==> CutHides(m))
    ensures ReadAll(s, parts).trace == s.trace + Delivered(m) + DeliveredAll(rest) <==> rest == []
    ensures rest == [] ==> ReadAll(s, parts) == AfterMessage(s, m)
  {
    hide ReadAll, AfterMessage, Delivered, Framed, Encoded, CutsBlank, CutHides, DropBytes, Between, Concat, InHead;
    PrefixDrop(Encoded(m), EncodedAll(rest), parts);
    DropConcat(parts, |Encoded(m)|);
    RequestRead(s, m, parts);
    LastIs(s, m);
    LastWithoutBody(AfterMessage(s, m), rest, DropBytes(parts, |Encoded(m)|));
    if rest == [] {
      assert s.trace + Delivered(m) + DeliveredAll(rest) == s.trace + Delivered(m);
    }
  }

  /** The requests after one that is read whole, with or without a line end pending. */
  lemma RestAcrossReads(s: Sock, m: Message, rest: seq<Message>, parts: seq<string>)
    requires Between(s) && AllFramed([m] + rest) && !Bodyless(m) && (m.body.Chunked? ==> FreshParser(s.http))
    requires Legal(parts) && Concat(parts) == Encoded(m) + EncodedAll(rest) && (CutsBlank(m, parts) ==> CutHides(m))
    ensures var r, q := AfterMessage(s, m), DropBytes(parts, |Encoded(m)|);
      && (ReadAll(s, parts).trace == s.trace + Delivered(m) + DeliveredAll(rest) <==> Delivers(r, rest, q))
      && (Delivers(r, rest, q) ==> Same(ReadAll(s, parts), AfterAll(r, rest)))
    decreases rest, 1
  {
    hide Read, ReadAll, DropBytes, AfterMessage, Delivered, Framed, Encoded, CutHides, CutsBlank, BodiesBetween;
    hide Bodyless, CutsHarmless, Ready, FreshParser, SpentParser, Concat, EncodedAll, DeliveredAll;
    assert ([m] + rest)[0] == m && ([m] + rest)[1..] == rest;
    var r, q := AfterMessage(s, m), DropBytes(parts, |Encoded(m)|);
    PrefixDrop(Encoded(m), EncodedAll(rest), parts);
    DropConcat(parts, |Encoded(m)|);
    RequestRead(s, m, parts);
    AfterOne(s, m);
    if ReadAll(s, parts) == ReadAll(r, q) {
      RequestsAcrossReads(r, rest, q);
    } else {
      PendingIsBetween(r);
      AfterAllSame(r, rest);
      RequestsAcrossReads(r.(skip := true), rest, q);
    }
  }

  lemma PendingIsBetween(s: Sock)
    requires Between(s) && s.c == CR
    ensures Between(s.(skip := true))
  {
  }

  /** The main theorem. Whatever the requests and the reads, the connection stays open and delivers
      exactly what was sent if and only if no read starts inside the blank line of a request (but
      before a chunked body or one of line feeds only), only the last request is without a body, at
      most one body is chunked (none if there was one before), and the fields of all requests together
      stay within the limit, one more than m_max_header_count. Callbacks are taken not to call Reset;
      see ResetAwaitsRequest for those that do. */
  lemma RequestsDeliveredIff(s: Sock, ms: seq<Message>, parts: seq<string>)
    requires Between(s) && !s.closed && AllFramed(ms)
    requires Legal(parts) && Concat(parts) == EncodedAll(ms)
    ensures var r := Received(s, parts);
      !r.closed && r.trace == s.trace + DeliveredAll(ms)
      <==> CutsHarmless(ms, parts) && BodiesBetween(ms) && ChunkedCount(ms) <= Spare(s.http)
           && !Exceeds(s.http, FieldCount(ms))
  {
    hide ReadAll, Received, AllFramed, Between, CutsHarmless, EncodedAll, Concat, AfterAll, BodiesBetween;
    RequestsAcrossReads(s, ms, parts);
    if CutsHarmless(ms, parts) && BodiesBetween(ms) { AfterAllIs(s, ms); }
    ReceivedIsReadAll(s, parts);
  }

  /** Over reads that deliver, the reads do not matter: the socket is closed at the limit, or it is in one
      state but for a pending line end, ready for the next request unless the last one had no body. */
  lemma RequestsIgnoreReads(s: Sock, ms: seq<Message>, parts: seq<string>)
    requires Between(s) && !s.closed && AllFramed(ms) && Delivers(s, ms, parts)
    requires Legal(parts) && Concat(parts) == EncodedAll(ms)
    ensures Received(s, parts).closed <==> Exceeds(s.http, FieldCount(ms))
    ensures !Exceeds(s.http, FieldCount(ms)) ==>
      && Same(Received(s, parts), AfterAll(s, ms))
      && (Ready(AfterAll(s, ms)) <==> ms == [] || !Bodyless(ms[|ms| - 1]))
  {
    hide ReadAll, Received, AllFramed, CutsHarmless, EncodedAll, Concat, AfterAll, BodiesBetween;
    RequestsAcrossReads(s, ms, parts);
    AfterAllIs(s, ms);
    ReceivedIsReadAll(s, parts);
  }

  predicate AllChunked(ms: seq<Message>) { forall k :: 0 <= k < |ms| ==> ms[k].body.Chunked? }

  /** A run of chunked requests over any reads at all is delivered exactly if there is at most one. */
  lemma ChunkedDeliveredIffOne(s: Sock, ms: seq<Message>, parts: seq<string>)
    requires Ready(s) && FreshParser(s.http) && AllFramed(ms) && AllChunked(ms)
    requires Legal(parts) && Concat(parts) == EncodedAll(ms)
    ensures ReadAll(s, parts).trace == s.trace + DeliveredAll(ms) <==> |ms| <= 1
  {
    hide ReadAll, AllFramed, EncodedAll, Concat, Ready, FreshParser, Head, StartsAt;
    RequestsAcrossReads(s, ms, parts);
    AllAreCounted(ms);
  }

  lemma {:induction false} AllAreCounted(ms: seq<Message>)
    requires AllChunked(ms)
    ensures ChunkedCount(ms) == |ms| && BodiesBetween(ms)
  {
    if ms != [] { AllAreCounted(ms[1..]); }
  }

  /** One chunked request over any reads is delivered exactly on a parser that has not had one. */
  lemma ChunkedDeliveredIffFresh(s: Sock, m: Message, parts: seq<string>)
    requires Between(s) && Framed(m) && m.body.Chunked? && Legal(parts) && Concat(parts) == Encoded(m)
    ensures ReadAll(s, parts).trace == s.trace + Delivered(m) <==> FreshParser(s.http)
  {
    hide ReadAll, Framed, Encoded, Concat, Ready, FreshParser, Head, StartsAt, Delivered;
    var ms := [m];
    assert AllChunked(ms) && AllFramed(ms);
    AloneIs(m);
    AllAreCounted(ms);
    RequestsAcrossReads(s, ms, parts);
  }

  lemma AloneIs(m: Message)
    ensures EncodedAll([m]) == Encoded(m) && DeliveredAll([m]) == Delivered(m)
  {
    hide Encoded, Delivered;
    assert [m][1..] == [] && Encoded(m) + "" == Encoded(m) && Delivered(m) + [] == Delivered(m);
  }

  /** After a request without a body the next request line is delivered as a header field. */
  lemma NextStartIsHeader(s: Sock, m: Message, n: Message, parts: seq<string>)
    requires Between(s) && Framed(m) && Bodyless(m) && Framed(n)
    requires Legal(parts) && Concat(parts) == Encoded(m) + Encoded(n)
    ensures var (key, value) := HeaderParts(n.start);
      s.trace + Delivered(m) + [Line(n.start), Header(key, value)] <= ReadAll(s, parts).trace
  {
    hide ReadAll, DropBytes, AfterMessage, Framed, HeaderParts, Encoded, Delivered, Ready, InHead, Concat, CutsBlank;
    PrefixDrop(Encoded(m), Encoded(n), parts);
    WholeRequest(s, m, parts);
    LastIs(s, m);
    StartTakenForField(AfterMessage(s, m), n, DropBytes(parts, |Encoded(m)|));
    assert [n.start][1..] == [];
  }

  /** HTTPSocket::Reset, which HttpdSocket and HttpBaseSocket call between requests. */
  function Reset(s: Sock): Sock {
    s.(lineMode := true, http := s.http.(first := true, header := true, start := NoStartLine, headerCount := 0))
  }

  /** With Reset after each request the main theorem applies to the next ones as to the first, also when
      there was no body: the count of fields begins anew. The chunk parser stays spent. */
  lemma ResetAwaitsRequest(s: Sock, m: Message)
    requires Between(s) && Framed(m)
    ensures var r := Reset(AfterMessage(s, m));
      && Between(r) && r.trace == s.trace + Delivered(m) && r.closed == (s.closed || Exceeds(s.http, |m.lines|))
      && (forall k: nat :: Exceeds(r.http, k) <==> k > 0 && k > s.http.maxHeaderCount + 1)
      && Spare(r.http) == if m.body.Chunked? then 0 else Spare(s.http)
  {
    hide Framed, Delivered, AfterMessage;
    AfterMessageIs(s, m);
  }
}
