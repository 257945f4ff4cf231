/** Requests as clients spell them: which request lines and fields the parsers take apart as they
    were put together, and requests whose announced length is that of their body. */
module Spelling {
  import opened Words
  import opened Bytes
  import opened SocketInput
  import opened Reads
  import opened Chunks
  import opened Requests
  import opened OneRequest
  import opened KeepAlive

  /** A field: what stands between its name and its value is a run of colons, blanks and tabs. */
  datatype Field = Field(name: string, gap: string, value: string)

  function FieldText(f: Field): string { f.name + f.gap + f.value }

  predicate InGap(c: char) { c == ':' || c == ' ' || c == '\t' }

  predicate FieldOk(f: Field) {
    && f.name != "" && WordChars(f.name, ":")
    && f.gap != "" && (forall k :: 0 <= k < |f.gap| ==> InGap(f.gap[k]))
    && (f.value != "" ==> !InGap(f.value[0]))
  }

  lemma {:induction false} GapSkipped(t: string, i: nat, j: nat)
    requires i <= j <= |t| && (forall k :: i <= k < j ==> InGap(t[k])) && (j < |t| ==> !InGap(t[j]))
    ensures RestStart(t, ":", i) == j
    decreases j - i
  {
    if i < j { GapSkipped(t, i + 1, j); }
  }

  /** A field line is taken apart into its name and its value, whatever the gap. */
  lemma FieldIsParsed(f: Field)
    requires FieldOk(f)
    ensures HeaderParts(FieldText(f)) == (f.name, f.value)
  {
    var t, n, j := FieldText(f), |f.name|, |f.name| + |f.gap|;
    assert t[0..n] == f.name && t[n] == f.gap[0] && t[j..] == f.value;
    WordIs(t, ":", 0, f.name);
    forall k | n <= k < j ensures InGap(t[k]) {
      assert t[k] == f.gap[k - n];
    }
    if f.value != "" { assert t[j] == f.value[0]; }
    GapSkipped(t, n + 1, j);
  }

  predicate WordText(w: string) { w != "" && WordChars(w, "") }

  function StartText(verb: string, url: string): string { verb + (" " + (url + " HTTP/1.1")) }

  lemma StartWords(verb: string, url: string)
    requires WordText(verb) && WordText(url)
    ensures var t, a, b := StartText(verb, url), |verb| + 1, |verb| + 2 + |url|;
      && WordAt(t, "", 0) == (verb, a)
      && WordAt(t, "", a) == (url, b)
      && WordAt(t, "", b).0 == "HTTP/1.1"
  {
    hide WordAt;
    var t, end := StartText(verb, url), " HTTP/1.1";
    assert t == "" + verb + (" " + (url + end));
    WordInside(t, "", "", verb, " " + (url + end));
    assert t == verb + " " + url + end;
    WordInside(t, "", verb + " ", url, end);
    assert t == verb + " " + url + " " + "HTTP/1.1" + "";
    WordInside(t, "", verb + " " + url + " ", "HTTP/1.1", "");
  }

  predicate IsVerb(verb: string) { WordText(verb) && !(|verb| > 4 && Lower(verb[..5]) == "http/") }

  /** A request line is taken apart into method, url, path and query. */
  lemma StartIsParsed(verb: string, url: string)
    requires IsVerb(verb) && WordText(url)
    ensures var q := IndexOf(url, '?');
      ParseStart(StartText(verb, url))
      == Request(verb, url, url[..q], if q < |url| then url[q + 1..] else "", "HTTP/1.1")
  {
    hide IndexOf, Lower, WordAt, RestAt, StartText, WordChars;
    StartWords(verb, url);
    var t := StartText(verb, url);
    assert WordAt(t, "", |verb| + 1).0 == url && WordAt(t, "", 0).0 == verb;
  }

  predicate Blanks(s: string) {
    forall k :: 0 <= k < |s| ==> s[k] == ' ' || s[k] == '\t' || s[k] == '\r' || s[k] == '\n'
  }

  lemma {:induction false} BlanksSkipped(t: string, i: nat, j: nat)
    requires i <= j <= |t| && Blanks(t[i..j]) && (j < |t| ==> !IsSpace(t[j]))
    ensures WordStart(t, "", i) == j
    decreases j - i
  {
    if i < j {
      assert t[i..j][0] == t[i] && t[i..j][1..] == t[i + 1..j];
      BlanksSkipped(t, i + 1, j);
    }
  }

  /** A word behind any run of blanks. */
  lemma WordBehindBlanks(pre: string, gap: string, w: string, post: string)
    requires Blanks(gap) && WordText(w) && (post == "" || IsSpace(post[0]))
    ensures WordAt(pre + gap + w + post, "", |pre|) == (w, |pre| + |gap| + |w| + 1)
  {
    var t, i, j := pre + gap + w + post, |pre|, |pre| + |gap|;
    assert t[i..j] == gap && t[j] == w[0] && t[j..j + |w|] == w;
    BlanksSkipped(t, i, j);
    assert post != "" ==> t[j + |w|] == post[0];
    WordEndAt(t, "", j, j + |w|);
  }

  /** getrest skips blanks and tabs only; getword has taken one character of the gap. */
  predicate BeforeRest(gap: string, text: string) {
    && (forall k :: 1 <= k < |gap| ==> gap[k] == ' ' || gap[k] == '\t')
    && (text != "" ==> text[0] != ' ' && text[0] != '\t')
  }

  /** The next word, where one character of the gap has been taken. */
  lemma NextWord(pre: string, gap: string, w: string, post: string)
    requires gap != "" && Blanks(gap) && WordText(w) && (post == "" || IsSpace(post[0]))
    ensures WordAt(pre + gap + w + post, "", |pre| + 1) == (w, |pre + gap + w| + 1)
  {
    hide WordAt;
    assert pre + gap + w + post == (pre + gap[..1]) + gap[1..] + w + post;
    WordBehindBlanks(pre + gap[..1], gap[1..], w, post);
  }

  lemma {:induction false} BlanksOfRest(t: string, i: nat, j: nat)
    requires i <= j <= |t| && (forall k :: i <= k < j ==> t[k] == ' ' || t[k] == '\t')
    requires j < |t| ==> t[j] != ' ' && t[j] != '\t'
    ensures RestStart(t, "", i) == j
    decreases j - i
  {
    if i < j { BlanksOfRest(t, i + 1, j); }
  }

  lemma RestBehind(pre: string, gap: string, text: string)
    requires gap != "" && BeforeRest(gap, text)
    ensures RestAt(pre + gap + text, "", |pre| + 1) == text
  {
    var t, i, j := pre + gap + text, |pre| + 1, |pre| + |gap|;
    assert t[j..] == text && (j < |t| ==> t[j] == text[0]);
    forall k | i <= k < j ensures t[k] == ' ' || t[k] == '\t' {
      assert t[k] == gap[k - |pre|];
    }
    BlanksOfRest(t, i, j);
  }

  /** The first two words of a line. */
  lemma FirstWords(lead: string, a: string, gap: string, b: string, rest: string)
    requires Blanks(lead) && Blanks(gap) && gap != "" && WordText(a) && WordText(b)
    requires rest == "" || IsSpace(rest[0])
    ensures var t, p := lead + a + gap + b + rest, |lead + a| + 1;
      WordAt(t, "", 0) == (a, p) && WordAt(t, "", p) == (b, |lead + a + gap + b| + 1)
  {
    hide WordAt;
    assert lead + a + gap + b + rest == "" + lead + a + (gap + b + rest);
    WordBehindBlanks("", lead, a, gap + b + rest);
    NextWord(lead + a, gap, b, rest);
  }

  lemma VerbIsWord(verb: string)
    requires IsVerb(verb)
    ensures WordText(verb)
  {
  }

  lemma RequestOfWords(t: string, verb: string, p: nat, url: string, q: nat, version: string)
    requires IsVerb(verb) && WordAt(t, "", 0) == (verb, p) && WordAt(t, "", p) == (url, q)
    requires WordAt(t, "", q).0 == version
    ensures var split := IndexOf(url, '?');
      ParseStart(t) == Request(verb, url, url[..split], if split < |url| then url[split + 1..] else "", version)
  {
    hide IndexOf, Lower, WordAt, RestAt;
  }

  /** A request line with any blanks around its three words. */
  lemma RequestIsParsed(lead: string, verb: string, gap: string, url: string, gap2: string, version: string,
                        post: string)
    requires Blanks(lead) && Blanks(gap) && Blanks(gap2) && gap != "" && gap2 != ""
    requires IsVerb(verb) && WordText(url) && WordText(version) && (post == "" || IsSpace(post[0]))
    ensures var q := IndexOf(url, '?');
      ParseStart(lead + verb + gap + url + gap2 + (version + post))
      == Request(verb, url, url[..q], if q < |url| then url[q + 1..] else "", version)
  {
    hide IndexOf, Lower, WordAt, RestAt, WordChars, ParseStart, IsVerb;
    assert WordText(verb) by { VerbIsWord(verb); }
    var head := lead + verb + gap + url;
    assert head + gap2 + (version + post) == head + (gap2 + (version + post)) == head + gap2 + version + post;
    FirstWords(lead, verb, gap, url, gap2 + (version + post));
    NextWord(head, gap2, version, post);
    RequestOfWords(head + gap2 + (version + post), verb, |lead + verb| + 1, url, |head| + 1, version);
  }

  /** The first line of a response: its version, its status and the text behind them, as it is. */
  lemma ResponseIsParsed(lead: string, version: string, gap: string, status: string, gap2: string, text: string)
    requires Blanks(lead) && Blanks(gap) && Blanks(gap2) && gap != "" && gap2 != ""
    requires WordText(version) && |version| > 4 && Lower(version[..5]) == "http/" && WordText(status)
    requires BeforeRest(gap2, text)
    ensures ParseStart(lead + version + gap + status + gap2 + text) == Response(version, status, text)
  {
    hide Lower, WordAt, RestAt, WordChars;
    var head := lead + version + gap + status;
    assert head + gap2 + text == head + (gap2 + text);
    FirstWords(lead, version, gap, status, gap2 + text);
    RestBehind(head, gap2, text);
  }

  /** A field that does not change how the body is framed. */
  predicate Harmless(f: Field) {
    && FieldOk(f)
    && Lower(f.name) != "content-length"
    && (Lower(f.name) == "connection" ==> Lower(f.value) != "close")
    && (Lower(f.name) == "transfer-encoding" ==> Lower(f.value) != "chunked")
  }

  predicate AllHarmless(fs: seq<Field>) { forall k :: 0 <= k < |fs| ==> Harmless(fs[k]) }

  /** A field that announces a body of `n` bytes, in any spelling that atol reads as `n`. */
  predicate Announces(f: Field, n: nat) {
    FieldOk(f) && Lower(f.name) == "content-length" && ToSizeT(AtoL(f.value)) == n
  }

  function Texts(fs: seq<Field>): (r: seq<string>)
    ensures |r| == |fs| && forall k :: 0 <= k < |fs| ==> r[k] == FieldText(fs[k])
  {
    seq(|fs|, k requires 0 <= k < |fs| => FieldText(fs[k]))
  }

  lemma {:induction false} FoldedHarmless(h: Http, fs: seq<Field>, more: seq<string>)
    requires AllHarmless(fs) && h.http11 && h.keepalive
    ensures exists g: Http :: SameFraming(g, h) && Folded(h, Texts(fs) + more) == Folded(g, more)
    decreases fs
  {
    hide HeaderParts, Lower, FieldText;
    if fs == [] {
      assert SameFraming(h, h) && Texts(fs) + more == more;
    } else {
      var f := fs[0];
      FieldIsParsed(f);
      var h1 := HeaderEffect(h, f.name, f.value);
      assert (Texts(fs) + more)[1..] == Texts(fs[1..]) + more;
      FoldedHarmless(h1, fs[1..], more);
    }
  }

  /** A field that announces a chunked body. */
  predicate Codes(f: Field) {
    FieldOk(f) && Lower(f.name) == "transfer-encoding" && Lower(f.value) == "chunked"
  }

  /** A field that says how the body of a request is framed. */
  predicate Frames(f: Field, body: Body) {
    match body
    case Sized(data) => Announces(f, |data|)
    case Chunked(chunks, zero, ext) => Codes(f) && BodyOk(chunks, zero, ext)
  }

  /** What the fields of such a request say together. */
  lemma SpelledFraming(before: seq<Field>, framing: Field, after: seq<Field>, body: Body)
    requires AllHarmless(before) && Frames(framing, body) && AllHarmless(after)
    ensures Announced(Folded(HTTP11, Texts(before) + [FieldText(framing)] + Texts(after)), body)
  {
    hide HeaderParts, Lower, FieldText, AtoL, ToSizeT, Texts, BodyOk;
    var mid, last := [FieldText(framing)], Texts(after);
    assert Texts(before) + mid + last == Texts(before) + (mid + last);
    assert (mid + last)[0] == FieldText(framing) && (mid + last)[1..] == last;
    FieldIsParsed(framing);
    FoldedHarmless(HTTP11, before, mid + last);
    var g :| SameFraming(g, HTTP11) && Folded(HTTP11, Texts(before) + (mid + last)) == Folded(g, mid + last);
    var h := HeaderEffect(g, framing.name, framing.value);
    assert h.http11 && Announced(h, body) by { FramingEffect(g, framing, body); }
    FoldedHarmless(h, after, []);
    assert last + [] == last;
  }

  lemma FramingEffect(g: Http, f: Field, body: Body)
    requires SameFraming(g, HTTP11) && Frames(f, body)
    ensures HeaderEffect(g, f.name, f.value).http11 && Announced(HeaderEffect(g, f.name, f.value), body)
  {
    hide Lower, AtoL, ToSizeT, BodyOk, FieldOk;
  }

  predicate AllLineTexts(fs: seq<Field>) { forall k :: 0 <= k < |fs| ==> LineText(FieldText(fs[k])) }

  lemma SpelledLines(fs: seq<Field>)
    requires AllLineTexts(fs) && forall k :: 0 <= k < |fs| ==> FieldOk(fs[k])
    ensures forall k :: 0 <= k < |fs| ==> IsField(Texts(fs)[k])
  {
    hide LineText;
  }

  /** The head of such a request. */
  lemma SpelledHead(verb: string, url: string, fs: seq<Field>, body: Body)
    requires IsVerb(verb) && WordText(url) && LineText(StartText(verb, url))
    requires AllLineTexts(fs) && forall k :: 0 <= k < |fs| ==> FieldOk(fs[k])
    ensures HeadOk(Message(StartText(verb, url), Texts(fs), body))
  {
    hide FieldText, StartText, ParseStart, WordText, LineText, FieldOk, AllLineTexts, IsVerb;
    StartIsParsed(verb, url);
    assert "HTTP/1.1"[4..] == "/1.1";
    SpelledLines(fs);
  }

  /** Such a request meets the conditions of the main theorem. */
  lemma SpelledIsFramed(verb: string, url: string, before: seq<Field>, framing: Field, after: seq<Field>, body: Body)
    requires IsVerb(verb) && WordText(url) && LineText(StartText(verb, url))
    requires AllHarmless(before) && Frames(framing, body) && AllHarmless(after)
    requires AllLineTexts(before) && AllLineTexts([framing]) && AllLineTexts(after)
    ensures Framed(Message(StartText(verb, url), Texts(before + [framing] + after), body))
  {
    hide FieldText, StartText, Announced, Frames, AtoL, ToSizeT, ParseStart, WordText, LineText, FieldOk, Folded;
    hide AllLineTexts, HeadOk, IsVerb;
    var fs := before + [framing] + after;
    assert Texts(fs) == Texts(before) + [FieldText(framing)] + Texts(after);
    SpelledFraming(before, framing, after, body);
    assert AllLineTexts(fs) by { AllLineTextsConcat(before, framing, after); }
    FramesIsField(framing, body);
    SpelledHead(verb, url, fs, body);
  }

  lemma FramesIsField(f: Field, body: Body)
    requires Frames(f, body)
    ensures FieldOk(f)
  {
  }

  lemma AllLineTextsConcat(before: seq<Field>, length: Field, after: seq<Field>)
    requires AllLineTexts(before) && AllLineTexts([length]) && AllLineTexts(after)
    ensures AllLineTexts(before + [length] + after)
  {
    hide LineText;
    assert LineText(FieldText([length][0]));
  }

  // ----- the header limit on a connection that is kept alive -----

  const MAX_HTTP_HEADER_COUNT: nat := 200

  /** A request with one field. */
  const Small: Message := Message(StartText("GET", "/"), Texts([Length]), Sized("x"))
  const Length: Field := Field("content-length", ": ", DecimalNat(1))

  function Times(m: Message, k: nat): seq<Message> { if k == 0 then [] else [m] + Times(m, k - 1) }

  lemma {:induction false} TimesIs(m: Message, k: nat)
    requires Framed(m) && !Bodyless(m)
    ensures AllFramed(Times(m, k)) && BodiesBetween(Times(m, k)) && FieldCount(Times(m, k)) == k * |m.lines|
    ensures ChunkedCount(Times(m, k)) == if m.body.Chunked? then k else 0
  {
    hide Framed;
    if k > 0 {
      var all, rest := Times(m, k), Times(m, k - 1);
      TimesIs(m, k - 1);
      assert all[0] == m && all[1..] == rest;
      assert k * |m.lines| == |m.lines| + (k - 1) * |m.lines|;
      assert AllFramed(all) by {
        forall i | 0 <= i < |all| ensures Framed(all[i]) { assert i > 0 ==> all[i] == rest[i - 1]; }
      }
      hide AllFramed;
      BodiesBetweenCons(all);
    }
  }

  lemma LengthIsOk()
    ensures Announces(Length, 1) && FieldText(Length) == "content-length: 1" && DecimalNat(1) == "1"
  {
    hide AtoL, ToSizeT, Lower;
    AtoLOfDecimal(1);
    LowerIsLower("content-length");
  }

  lemma SmallTexts()
    ensures LineText("content-length: 1") && LineText("GET / HTTP/1.1")
  {
  }

  lemma SmallStart()
    ensures IsVerb("GET") && WordText("/") && StartText("GET", "/") == "GET / HTTP/1.1"
  {
  }

  lemma SmallIsFramed()
    ensures Framed(Small) && |Small.lines| == 1
  {
    hide Framed, FieldText, LineText, StartText, Announces, IsVerb, WordText, FieldOk;
    LengthIsOk();
    SmallTexts();
    SmallStart();
    assert [] + [Length] + [] == [Length] && |"x"| == 1;
    SpelledIsFramed("GET", "/", [], Length, [], Sized("x"));
  }

  /** The count of header fields runs on from request to request: the connection is closed exactly
      from the 202nd such request on. */
  lemma LimitClosesKeepAlive(k: nat, parts: seq<string>)
    requires Legal(parts) && Concat(parts) == EncodedAll(Times(Small, k)) && CutsHarmless(Times(Small, k), parts)
    ensures Received(Fresh(HttpClient, MAX_HTTP_HEADER_COUNT), parts).closed <==> k >= 202
  {
    hide Framed, Received, AllFramed, BodiesBetween, CutsHarmless, EncodedAll, Concat;
    SmallIsFramed();
    TimesIs(Small, k);
    RequestsIgnoreReads(Fresh(HttpClient, MAX_HTTP_HEADER_COUNT), Times(Small, k), parts);
  }

  // ----- chunked requests on a connection that is kept alive -----

  /** A chunked request with one byte in its body. */
  const SmallChunked: Message := Message(StartText("GET", "/"), Texts([Coding]), Chunked([OneByte], "0", ""))
  const Coding: Field := Field("transfer-encoding", ": ", "chunked")
  const OneByte: Chunk := Chunk("1", "", "x")

  lemma CodingIsOk()
    ensures Codes(Coding) && FieldText(Coding) == "transfer-encoding: chunked"
  {
    hide Lower;
    LowerIsLower("transfer-encoding");
    LowerIsLower("chunked");
  }

  lemma LowerIsLower(s: string)
    requires forall k :: 0 <= k < |s| ==> s[k] < 'A' || s[k] > 'Z'
    ensures Lower(s) == s
  {
  }

  lemma CodingLine()
    ensures LineText("transfer-encoding: chunked")
  {
  }

  lemma SmallBodyIsOk()
    ensures BodyOk([OneByte], "0", "")
  {
    assert "1"[..0] == "" && "0"[..0] == "" && HexText("1") && HexText("0");
    assert HexNumber("1") == 16 * HexNumber("") + 1 && HexNumber("0") == 16 * HexNumber("") + 0;
  }

  lemma SmallChunkedIsFramed()
    ensures Framed(SmallChunked)
  {
    hide Framed, FieldText, LineText, StartText, Codes, IsVerb, WordText, FieldOk, BodyOk;
    CodingIsOk();
    CodingLine();
    SmallTexts();
    SmallStart();
    SmallBodyIsOk();
    assert [] + [Coding] + [] == [Coding];
    SpelledIsFramed("GET", "/", [], Coding, [], SmallChunked.body);
  }

  /** On a new connection k such requests are delivered, over any reads, exactly if there is at most one. */
  lemma SecondChunkedIsLost(k: nat, parts: seq<string>)
    requires Legal(parts) && Concat(parts) == EncodedAll(Times(SmallChunked, k))
    ensures ReadAll(Fresh(HttpClient, MAX_HTTP_HEADER_COUNT), parts).trace == DeliveredAll(Times(SmallChunked, k))
            <==> k <= 1
  {
    hide Framed, ReadAll, AllFramed, EncodedAll, DeliveredAll, Concat;
    SmallChunkedIsFramed();
    TimesIs(SmallChunked, k);
    TimesAre(SmallChunked, k);
    ChunkedDeliveredIffOne(Fresh(HttpClient, MAX_HTTP_HEADER_COUNT), Times(SmallChunked, k), parts);
    assert [] + DeliveredAll(Times(SmallChunked, k)) == DeliveredAll(Times(SmallChunked, k));
  }

  lemma {:induction false} TimesAre(m: Message, k: nat)
    ensures |Times(m, k)| == k && forall i :: 0 <= i < k ==> Times(m, k)[i] == m
  {
    if k > 0 { TimesAre(m, k - 1); }
  }
}
