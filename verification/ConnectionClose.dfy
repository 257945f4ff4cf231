/** The field Connection: the last one of a request says whether the connection is kept alive. If it is not,
    nothing behind the blank line is read as lines any more. */
module ConnectionClose {
  import opened Words
  import opened Bytes
  import opened SocketInput
  import opened Reads
  import opened Stream
  import opened Requests
  import opened OneRequest
  import opened Spelling
  import opened ClosingBody

  predicate IsConnection(f: Field) { Lower(f.name) == "connection" }

  /** The last field named Connection, if there is one, does not say close. */
  predicate KeepsAlive(fs: seq<Field>) {
    forall k :: 0 <= k < |fs| && IsConnection(fs[k]) && (forall j :: k < j < |fs| ==> !IsConnection(fs[j])) ==>
      Lower(fs[k].value) != "close"
  }

  predicate NoneCodes(fs: seq<Field>) {
    forall k :: 0 <= k < |fs| ==> !(Lower(fs[k].name) == "transfer-encoding" && Lower(fs[k].value) == "chunked")
  }

  predicate NoLength(fs: seq<Field>) { forall k :: 0 <= k < |fs| ==> Lower(fs[k].name) != "content-length" }

  predicate AllOk(fs: seq<Field>) { forall k :: 0 <= k < |fs| ==> FieldOk(fs[k]) }

  lemma {:induction false} FoldedEnd(h: Http, lines: seq<string>, t: string)
    ensures Folded(h, lines + [t]) == HeaderEffect(Folded(h, lines), HeaderParts(t).0, HeaderParts(t).1)
    decreases lines
  {
    hide HeaderParts, HeaderEffect;
    if lines == [] {
      assert [t][1..] == [] && lines + [t] == [t];
    } else {
      assert (lines + [t])[1..] == lines[1..] + [t];
      var (key, value) := HeaderParts(lines[0]);
      FoldedEnd(HeaderEffect(h, key, value), lines[1..], t);
    }
  }

  lemma KeepsAliveEnd(fs: seq<Field>, f: Field)
    ensures KeepsAlive(fs + [f]) <==> if IsConnection(f) then Lower(f.value) != "close" else KeepsAlive(fs)
  {
    hide Lower, IsConnection;
    var all, n := fs + [f], |fs|;
    assert all[n] == f && forall k :: 0 <= k < n ==> all[k] == fs[k];
    if !IsConnection(f) && KeepsAlive(all) {
      forall k | 0 <= k < n && IsConnection(fs[k]) && (forall j :: k < j < n ==> !IsConnection(fs[j]))
        ensures Lower(fs[k].value) != "close"
      {
        assert forall j :: k < j < |all| ==> !IsConnection(all[j]);
        assert IsConnection(all[k]);
      }
    }
  }

  /** What the fields say about framing. */
  lemma {:induction false} FoldedFields(fs: seq<Field>)
    requires AllOk(fs)
    ensures var h := Folded(HTTP11, Texts(fs));
      && h.http11 && (h.keepalive <==> KeepsAlive(fs))
      && (NoneCodes(fs) ==> !h.chunked) && (NoLength(fs) ==> h.bodyLeft == 0)
    decreases |fs|
  {
    hide Lower, HeaderParts, FieldText, KeepsAlive, FieldOk;
    if fs == [] {
      assert KeepsAlive(fs) by { NoFieldsKeep(); }
      assert Texts(fs) == [];
    } else {
      var init, f := fs[..|fs| - 1], fs[|fs| - 1];
      assert fs == init + [f] && Texts(fs) == Texts(init) + [FieldText(f)];
      FoldedFields(init);
      FoldedEnd(HTTP11, Texts(init), FieldText(f));
      FieldIsParsed(f);
      KeepsAliveEnd(init, f);
    }
  }

  lemma NoFieldsKeep()
    ensures KeepsAlive([])
  {
  }

  // ----- behind the blank line -----

  /** Events of a body, and nothing that comes from a line. */
  predicate BodyOnly(events: seq<Event>) {
    forall i :: 0 <= i < |events| ==> events[i].Data? || events[i].DataComplete?
  }

  predicate HasLines(events: seq<Event>) {
    exists i :: 0 <= i < |events| && (events[i].Line? || events[i].First? || events[i].Header?)
  }

  lemma {:induction false} ClosingTail(s: Sock, parts: seq<string>)
    requires InClosingBody(s) && Legal(parts)
    ensures var r := ReadAll(s, parts);
      InClosingBody(r) && s.trace <= r.trace && BodyOnly(r.trace[|s.trace|..])
    decreases parts
  {
    hide Read, InClosingBody;
    if parts != [] {
      ClosingStep(s, parts[0]);
      var s1 := Read(s, parts[0]);
      ClosingTail(s1, parts[1..]);
      var r := ReadAll(s, parts);
      assert r.trace[|s.trace|..] == s1.trace[|s.trace|..] + r.trace[|s1.trace|..];
    }
  }

  lemma ClosingStep(s: Sock, p: string)
    requires InClosingBody(s) && |p| <= BUFSIZE_READ
    ensures var r := Read(s, p); InClosingBody(r) && s.trace <= r.trace && BodyOnly(r.trace[|s.trace|..])
  {
    hide RawRead, Scan;
    if p != "" {
      ReadRawClosing(s, p);
      var r := CloseBody(s, p);
      assert r.trace == s.trace + DataEvents(p) || r.trace == s.trace + DataEvents(p) + [DataComplete];
    }
  }

  /** The blank line of a request that does not keep the connection alive. */
  lemma BlankCloses(s: Sock)
    requires InHead(s) && !s.http.keepalive && !s.http.chunked
    ensures var r := AfterLine(s, "");
      && InClosingBody(r) && InClosingBody(r.(skip := true))
      && s.trace + [Line(""), HeaderComplete] <= r.trace
      && BodyOnly(r.trace[|s.trace| + 2..])
  {
    var r := AfterLine(s, "");
    assert r.trace == s.trace + [Line(""), HeaderComplete] + if s.http.bodyLeft == 0 then [DataComplete] else [];
  }

  /** The request: its line and its fields as they are spelled. */
  function Request(verb: string, url: string, fs: seq<Field>): Message {
    Message(StartText(verb, url), Texts(fs), Sized(""))
  }

  predicate Spelled(verb: string, url: string, fs: seq<Field>) {
    && IsVerb(verb) && WordText(url) && LineText(StartText(verb, url)) && AllOk(fs) && AllLineTexts(fs)
  }

  /** The head of a spelled request over any reads, with anything behind it. */
  lemma SpelledHeadRead(s: Sock, verb: string, url: string, fs: seq<Field>, rest: string, parts: seq<string>)
    requires Ready(s) && Spelled(verb, url, fs) && NoneCodes(fs)
    requires Legal(parts) && Concat(parts) == Head(Request(verb, url, fs)) + CRLF + rest
    ensures var m := Request(verb, url, fs);
      var b, q := BeforeBlank(s, m), DropBytes(parts, |Head(m)|);
      && ReadAll(s, parts) == ReadAll(b, q) && Legal(q) && Concat(q) == CRLF + rest
      && InHead(b) && (b.http.keepalive <==> KeepsAlive(fs)) && !b.http.chunked
      && (NoLength(fs) ==> b.http.bodyLeft == 0)
      && b.trace + [Line(""), HeaderComplete] == s.trace + HeadEvents(m)
  {
    hide ReadAll, DropBytes, Concat, Head, HeadOk, BeforeBlank, StartText, Texts, KeepsAlive, NoneCodes, NoLength;
    hide Folded, FieldEvents, ParseStart, AllLineTexts, FieldOk;
    var m := Request(verb, url, fs);
    SpelledHead(verb, url, fs, Sized(""));
    assert Head(m) + CRLF + rest == Head(m) + (CRLF + rest);
    PrefixDrop(Head(m), CRLF + rest, parts);
    DropConcat(parts, |Head(m)|);
    HeadAcrossReads(s, m, parts);
    HeadIs(s, m);
    FoldedFields(fs);
    assert s.trace + [Line(m.start), First(ParseStart(m.start))] + FieldEvents(m.lines) + [Line(""), HeaderComplete]
      == s.trace + HeadEvents(m);
  }

  /** When the connection is not kept alive, the blank line leaves line mode, and no byte behind it is ever
      delivered but as data, over any reads. */
  lemma NothingButDataFollows(s: Sock, verb: string, url: string, fs: seq<Field>, rest: string, parts: seq<string>)
    requires Ready(s) && Spelled(verb, url, fs) && NoneCodes(fs) && !KeepsAlive(fs)
    requires Legal(parts) && Concat(parts) == Head(Request(verb, url, fs)) + CRLF + rest
    ensures var r, t := ReadAll(s, parts), s.trace + HeadEvents(Request(verb, url, fs));
      !r.lineMode && t <= r.trace && BodyOnly(r.trace[|t|..])
  {
    hide ReadAll, DropBytes, Concat, Head, BeforeBlank, HeadEvents, KeepsAlive, NoneCodes, NoLength, AfterLine, Spelled;
    hide StartsAt, InHead;
    var m := Request(verb, url, fs);
    SpelledHeadRead(s, verb, url, fs, rest, parts);
    var b, q, t := BeforeBlank(s, m), DropBytes(parts, |Head(m)|), s.trace + HeadEvents(m);
    BlankCloses(b);
    var e := AfterLine(b, "");
    BlankRead(b, rest, q);
    var e1 := if StartsAt(q, 1) then e.(skip := true) else e;
    var q1 := DropBytes(q, if StartsAt(q, 1) then 1 else 2);
    ClosingTail(e1, q1);
    var r := ReadAll(s, parts);
    assert r == ReadAll(e1, q1) && t <= e.trace <= r.trace;
    assert r.trace[|t|..] == e.trace[|t|..] + r.trace[|e.trace|..];
  }

  /** A blank line that leaves line mode, with a read that starts inside it or not. */
  lemma BlankRead(s: Sock, rest: string, parts: seq<string>)
    requires InHead(s) && Legal(parts) && Concat(parts) == CRLF + rest
    ensures var e := AfterLine(s, "");
      if StartsAt(parts, 1)
      then ReadAll(s, parts) == ReadAll(e.(skip := true), DropBytes(parts, 1)) && Legal(DropBytes(parts, 1))
      else ReadAll(s, parts) == ReadAll(e, DropBytes(parts, 2)) && Legal(DropBytes(parts, 2))
  {
    hide ReadAll, DropBytes, Concat, AfterLine, StartsAt;
    assert "" + CRLF == CRLF && s.line + "" == "";
    PrefixDrop(CRLF, rest, parts);
    DropConcat(parts, 1);
    if StartsAt(parts, 1) {
      CutLineEnd(s, "", parts);
    } else {
      LineAcrossReads(s, "", parts);
    }
  }

  /** A line behind a request without a body is delivered as a line if and only if the last field named
      Connection, if any, does not say close. */
  lemma LinesFollowIffKeptAlive(s: Sock, verb: string, url: string, fs: seq<Field>, t: string, more: string,
                                parts: seq<string>)
    requires Ready(s) && Spelled(verb, url, fs) && NoneCodes(fs) && NoLength(fs) && IsField(t)
    requires Legal(parts) && Concat(parts) == Head(Request(verb, url, fs)) + CRLF + (t + CRLF + more)
    ensures var r, n := ReadAll(s, parts), |s.trace + HeadEvents(Request(verb, url, fs))|;
      n <= |r.trace| && (HasLines(r.trace[n..]) <==> KeepsAlive(fs))
  {
    hide ReadAll, DropBytes, Concat, Head, BeforeBlank, HeadEvents, KeepsAlive, NoneCodes, NoLength, AfterLine, Spelled;
    hide StartsAt, InHead, IsField;
    var m, rest := Request(verb, url, fs), t + CRLF + more;
    var h := s.trace + HeadEvents(m);
    if !KeepsAlive(fs) {
      NothingButDataFollows(s, verb, url, fs, rest, parts);
    } else {
      SpelledHeadRead(s, verb, url, fs, rest, parts);
      var b, q := BeforeBlank(s, m), DropBytes(parts, |Head(m)|);
      KeptLine(b, t, more, q);
      var r := ReadAll(s, parts).trace;
      assert b.trace + [Line(""), HeaderComplete] == h && h + [DataComplete, Line(t)] <= r;
      assert r[|h|..][1] == Line(t);
    }
  }

  lemma KeptLine(b: Sock, t: string, more: string, parts: seq<string>)
    requires InHead(b) && b.http.keepalive && !b.http.chunked && b.http.bodyLeft == 0 && IsField(t)
    requires Legal(parts) && Concat(parts) == CRLF + (t + CRLF + more)
    ensures b.trace + [Line(""), HeaderComplete] + [DataComplete, Line(t)] <= ReadAll(b, parts).trace
  {
    hide ReadAll, DropBytes, Concat, AfterLine, IsField, HeaderParts;
    assert "" + CRLF == CRLF && b.line + "" == "";
    BlankWithoutBody(b);
    PrefixDrop(CRLF, t + CRLF + more, parts);
    LineAcrossReads(b, "", parts);
    var e, q := AfterLine(b, ""), DropBytes(parts, 2);
    DropConcat(parts, 2);
    PrefixDrop(t + CRLF, more, q);
    FieldAcrossReads(e, t, q);
    FieldIsSome(t);
    AfterField(e, t);
    ReadAllGrows(AfterLine(e, t), DropBytes(q, |t| + 2));
    assert FieldEvents([t])[0] == Line(t);
    assert b.trace + [Line(""), HeaderComplete] + [DataComplete, Line(t)] <= e.trace + FieldEvents([t]);
  }

  lemma FieldIsSome(t: string)
    requires IsField(t)
    ensures t != ""
  {
  }

  // ----- the version -----

  lemma {:induction false} FieldsKeepVersion(s: Sock, lines: seq<string>)
    requires s.kind.HttpClient? && !s.http.first && AllFields(lines)
    ensures var r := AfterFields(s, lines);
      r.kind.HttpClient? && !r.http.first && r.http.http11 == s.http.http11 && r.lineMode == s.lineMode
    decreases lines
  {
    hide HeaderParts, Lower, LineText;
    if lines != [] {
      assert IsField(lines[0]);
      FieldsKeepVersion(AfterLine(s, lines[0]), lines[1..]);
    }
  }

  lemma Http11Iff(name: string)
    ensures IsHttp11(name) <==> exists major :: |major| == 4 && name == major + "/1.1"
  {
    if IsHttp11(name) { assert |name[..4]| == 4 && name == name[..4] + "/1.1"; }
  }

  /** A request of another version, and any response, leaves line mode with its head, whatever its fields say. */
  lemma OtherVersionsClose(s: Sock, start: string, lines: seq<string>)
    requires s.kind.HttpClient? && s.http.first && AllFields(lines)
    requires !s.http.http11 && (ParseStart(start).Request? ==> !IsHttp11(ParseStart(start).version))
    ensures !AfterLine(AfterFields(AfterLine(s, start), lines), "").lineMode
  {
    hide ParseStart, IsHttp11, AfterFields;
    FieldsKeepVersion(AfterLine(s, start), lines);
  }
}
