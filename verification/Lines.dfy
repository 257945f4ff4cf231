/** Line protocol: exactly which streams give the same lines however they are cut into reads. */
module Lines {
  import opened Words
  import opened Bytes
  import opened SocketInput
  import opened Reads
  import opened Stream

  /** The last line end seen: none that could still pair up, one just before, or one further back. */
  datatype Ending = Paired | Just(t: char) | Stale(t: char)

  function After(e: Ending, b: char): Ending {
    if IsEol(b) then (if e.Just? && b != e.t then Paired else Just(b))
    else if e.Paired? then Paired
    else Stale(e.t)
  }

  /** A lone CR (LF) some bytes back, and now an LF (CR). */
  predicate Clash(e: Ending, b: char) {
    e.Stale? && IsEol(b) && b != e.t
  }

  /** Once a lone line end of one kind was followed by text, the next line end is of that kind. */
  predicate SplitSafe(d: string, e: Ending)
    decreases d
  {
    d == "" || (!Clash(e, d[0]) && SplitSafe(d[1..], After(e, d[0])))
  }

  predicate NulFree(d: string) { NUL !in d }

  /** No line reaches the size limit; `n` bytes of the first one came earlier. */
  predicate ShortLines(d: string, n: nat)
    decreases d
  {
    d == "" || (if IsEol(d[0]) then ShortLines(d[1..], 0) else n + 1 < MAX_LINE && ShortLines(d[1..], n + 1))
  }

  /** What m_skip_c and m_c say about the last line end. */
  function EndingOf(s: Sock): Ending {
    if !s.skip then Paired else if s.line == "" then Just(s.c) else Stale(s.c)
  }

  predicate InLines(s: Sock) {
    s.kind.LineClient? && s.lineMode && (s.skip ==> IsEol(s.c)) && !s.closed
  }

  lemma StepInLines(s: Sock, b: char)
    requires InLines(s) && b != NUL && (IsEol(b) || |s.line| + 1 < MAX_LINE) && !Clash(EndingOf(s), b)
    ensures Tame(s, b) && InLines(Step(s, b)) && EndingOf(Step(s, b)) == After(EndingOf(s), b)
    ensures |Step(s, b).line| == if IsEol(b) then 0 else |s.line| + 1
  {
    UpToPlain([b]);
  }

  lemma {:induction false} SafeIsTame(s: Sock, d: string)
    requires InLines(s) && NulFree(d) && ShortLines(d, |s.line|) && SplitSafe(d, EndingOf(s))
    ensures TameRun(s, d) && InLines(Run(s, d))
    decreases d
  {
    if d != "" {
      hide Step, Tame;
      assert d[0] in d;
      StepInLines(s, d[0]);
      assert forall c :: c in d[1..] ==> c in d;
      SafeIsTame(Step(s, d[0]), d[1..]);
    }
  }

  lemma {:induction false} SplitSafeConcat(a: string, b: string, e: Ending)
    requires SplitSafe(a + b, e)
    ensures SplitSafe(a, e)
    decreases a
  {
    if a != "" {
      assert (a + b)[1..] == a[1..] + b;
      SplitSafeConcat(a[1..], b, After(e, a[0]));
    }
  }

  lemma {:induction false} LineCutsAreClean(s: Sock, parts: seq<string>)
    requires InLines(s) && NulFree(Concat(parts)) && ShortLines(Concat(parts), |s.line|)
    requires SplitSafe(Concat(parts), EndingOf(s))
    ensures CleanCuts(s, parts)
    decreases parts
  {
    if parts != [] {
      ResumeInLines(s, parts[0], Concat(parts[1..]));
      LineCutsAreClean(Run(s, parts[0]), parts[1..]);
    }
  }

  lemma {:induction false} ResumeInLines(s: Sock, a: string, b: string)
    requires InLines(s) && NulFree(a + b) && ShortLines(a + b, |s.line|) && SplitSafe(a + b, EndingOf(s))
    ensures var s1 := Run(s, a);
      InLines(s1) && NulFree(b) && ShortLines(b, |s1.line|) && SplitSafe(b, EndingOf(s1))
    decreases a
  {
    if a == "" {
      assert a + b == b;
    } else {
      hide Step, Tame;
      assert (a + b)[0] in a + b && (a + b)[1..] == a[1..] + b;
      StepInLines(s, a[0]);
      assert forall c :: c in a[1..] + b ==> c in a + b;
      ResumeInLines(Step(s, a[0]), a[1..], b);
    }
  }

  /** On a safe stream the socket ends up in one state, whatever the reads were. */
  lemma LinesIgnoreReads(s: Sock, parts: seq<string>)
    requires InLines(s) && Legal(parts)
    requires NulFree(Concat(parts)) && ShortLines(Concat(parts), |s.line|)
    requires SplitSafe(Concat(parts), EndingOf(s))
    ensures ReadAll(s, parts) == Run(s, Concat(parts))
  {
    SafeIsTame(s, Concat(parts));
    LineCutsAreClean(s, parts);
    ReadAllIsRun(s, parts);
  }

  // ----- the lines themselves -----

  /** The lines of `seg + d` and the unfinished rest: a line end is CR, LF, CRLF or LFCR. */
  function CutLines(seg: string, d: string): (seq<string>, string)
    decreases d
  {
    if d == "" then ([], seg)
    else if !IsEol(d[0]) then CutLines(seg + [d[0]], d[1..])
    else
      var paired := |d| > 1 && IsEol(d[1]) && d[1] != d[0];
      var (lines, tail) := CutLines("", if paired then d[2..] else d[1..]);
      ([seg] + lines, tail)
  }

  function LineEvents(lines: seq<string>): seq<Event> {
    seq(|lines|, k requires 0 <= k < |lines| => Line(lines[k]))
  }

  lemma LineEventsCons(line: string, lines: seq<string>)
    ensures LineEvents([line] + lines) == [Line(line)] + LineEvents(lines)
  {}

  lemma {:induction false} RunCutsLines(s: Sock, d: string)
    requires InLines(s) && NulFree(d) && ShortLines(d, |s.line|) && SplitSafe(d, EndingOf(s))
    requires d != "" && IsEol(d[0]) ==> !EndingOf(s).Just? || d[0] == s.c
    ensures Run(s, d).trace == s.trace + LineEvents(CutLines(s.line, d).0)
    ensures Run(s, d).line == CutLines(s.line, d).1
    decreases d
  {
    hide Step, EndingOf, CutLines, Clash, LineEvents;
    if d == "" {
      assert CutLines(s.line, d) == ([], s.line) by { CutLinesIs(s.line, d); }
      assert LineEvents([]) == [] by { LineEventsNone(); }
    } else {
      var b := d[0];
      assert b in d && forall c :: c in d[1..] ==> c in d;
      SafeHead(d, EndingOf(s));
      StepInLines(s, b);
      StepEvents(s, b);
      CutLinesIs(s.line, d);
      var s1 := Step(s, b);
      if !IsEol(b) {
        EndingIsNotJust(s1);
        RunCutsLines(s1, d[1..]);
      } else {
        var paired := |d| > 1 && IsEol(d[1]) && d[1] != b;
        LineEventsCons(s.line, CutLines("", if paired then d[2..] else d[1..]).0);
        if paired {
          assert d[1] in d && d[1..][1..] == d[2..] && forall c :: c in d[2..] ==> c in d;
          PairedStep(s1, d[1], d[1..]);
          RunCutsLines(s1.(skip := false), d[2..]);
        } else {
          RunCutsLines(s1, d[1..]);
        }
      }
    }
  }

  lemma LineEventsNone()
    ensures LineEvents([]) == []
  {
  }

  lemma SafeHead(d: string, e: Ending)
    requires SplitSafe(d, e) && d != ""
    ensures !Clash(e, d[0]) && SplitSafe(d[1..], After(e, d[0]))
  {
  }

  lemma EndingIsNotJust(s: Sock)
    requires s.line != ""
    ensures !EndingOf(s).Just?
  {
  }

  /** The other half of a pair only takes back what the first half left pending. */
  lemma PairedStep(s: Sock, b: char, d: string)
    requires InLines(s) && s.skip && s.line == "" && IsEol(b) && b != s.c && d != "" && d[0] == b
    requires SplitSafe(d, EndingOf(s))
    ensures Step(s, b) == s.(skip := false) && InLines(Step(s, b)) && SplitSafe(d[1..], EndingOf(Step(s, b)))
    ensures Run(s, d) == Run(s.(skip := false), d[1..]) && !EndingOf(s.(skip := false)).Just?
  {
  }

  lemma CutLinesIs(seg: string, d: string)
    ensures d == "" ==> CutLines(seg, d) == ([], seg)
    ensures d != "" && !IsEol(d[0]) ==> CutLines(seg, d) == CutLines(seg + [d[0]], d[1..])
    ensures d != "" && IsEol(d[0]) ==>
      var r := CutLines("", if |d| > 1 && IsEol(d[1]) && d[1] != d[0] then d[2..] else d[1..]);
      CutLines(seg, d) == ([seg] + r.0, r.1)
  {
  }

  lemma StepEvents(s: Sock, b: char)
    requires InLines(s) && b != NUL && (IsEol(b) || |s.line| + 1 < MAX_LINE)
    requires IsEol(b) ==> !EndingOf(s).Just? || b == s.c
    requires !Clash(EndingOf(s), b)
    ensures !IsEol(b) ==> Step(s, b) == s.(line := s.line + [b])
    ensures IsEol(b) ==> Step(s, b) == s.(trace := s.trace + [Line(s.line)], skip := true, c := b, line := "")
  {
    UpToPlain([b]);
  }

  /** OnLine is called with the lines of the stream and GetLine gives the unfinished one. */
  lemma ReadsGiveTheLines(parts: seq<string>, max: int)
    requires Legal(parts)
    requires NulFree(Concat(parts)) && ShortLines(Concat(parts), 0) && SplitSafe(Concat(parts), Paired)
    ensures var s, (lines, tail) := ReadAll(Fresh(LineClient, max), parts), CutLines("", Concat(parts));
      s.trace == LineEvents(lines) && s.line == tail && !s.closed
  {
    var f, d := Fresh(LineClient, max), Concat(parts);
    LinesIgnoreReads(f, parts);
    SafeIsTame(f, d);
    RunCutsLines(f, d);
  }

  // ----- exactly when -----

  /** The lines and the rest agree for all reads of every beginning of `d`. */
  ghost predicate SplitInvariant(d: string, max: int) {
    forall k: nat, p: seq<string>, q: seq<string> ::
      k <= |d| && Legal(p) && Legal(q) && Concat(p) == d[..k] == Concat(q) ==>
      var a, b := ReadAll(Fresh(LineClient, max), p), ReadAll(Fresh(LineClient, max), q);
      a.trace == b.trace && a.line == b.line
  }

  lemma {:induction false} ConcatSingly(d: string)
    ensures Concat(Singly(d)) == d && Legal(Singly(d))
  {
    if d != "" { ConcatSingly(d[1..]); }
  }

  lemma {:induction false} ReadAllAppend(s: Sock, p: seq<string>, x: string)
    ensures ReadAll(s, p + [x]) == Read(ReadAll(s, p), x)
    decreases p
  {
    hide Read;
    if p == [] {
      assert [x][1..] == [];
    } else {
      assert (p + [x])[1..] == p[1..] + [x];
      ReadAllAppend(Read(s, p[0]), p[1..], x);
    }
  }

  lemma {:induction false} ShortLinesPrefix(d: string, k: nat, n: nat)
    requires k <= |d| && ShortLines(d, n)
    ensures ShortLines(d[..k], n)
    decreases d
  {
    if d != "" && k > 0 {
      assert d[..k][1..] == d[1..][..k - 1];
      ShortLinesPrefix(d[1..], k - 1, if IsEol(d[0]) then 0 else n + 1);
    }
  }

  /** The byte before the first clash, and what came before it. */
  lemma {:induction false} FirstClash(d: string, e: Ending) returns (k: nat)
    requires !SplitSafe(d, e)
    ensures k < |d| && SplitSafe(d[..k], e) && IsEol(d[k])
    ensures !SplitSafe(d[..k + 1], e)
    ensures k == 0 ==> Clash(e, d[0])
    ensures k > 0 ==> !IsEol(d[k - 1])
    decreases d
  {
    if Clash(e, d[0]) {
      k := 0;
    } else {
      var j := FirstClash(d[1..], After(e, d[0]));
      k := j + 1;
      assert d[..k][1..] == d[1..][..j] && d[..k + 1][1..] == d[1..][..j + 1];
      if j == 0 { assert Clash(After(e, d[0]), d[1]); }
    }
  }

  /** At a clash, one read of two bytes reports a line that two reads of one byte do not. */
  lemma ClashSplits(s: Sock, y: char, b: char)
    requires InLines(s) && y != NUL && !IsEol(y) && |s.line| + 1 < MAX_LINE && !Clash(EndingOf(s), y)
    requires Clash(After(EndingOf(s), y), b)
    ensures |Read(s, [y, b]).trace| == |s.trace| + 1
    ensures |Read(Read(s, [y]), [b]).trace| == |s.trace|
  {
    var s1 := s.(line := s.line + [y]);
    UpToPlain([y]);
    assert [y, b][1..] == [b] && [y][1..] == "" && [b][1..] == "";
    assert "" + [y] == [y];
    assert Read(s, [y]) == s1 by {
      assert Scan(s, "", [y]) == Scan(s, [y], "");
    }
    assert Read(s1, [b]) == s1.(skip := false) by {
      assert Commit(s1.(skip := false), "") == s1.(skip := false);
    }
    var e := AfterEol(s, [y], [b]).0;
    assert Scan(s, "", [y, b]) == Scan(s, [y], [b]);
    assert e.trace == s.trace + [Line(s1.line)];
    assert Commit(e, "") == e && Scan(e, "", "") == e;
    assert Scan(s, [y], [b]) == e;
  }

  /** An unsafe stream runs into a clash from an ordinary state. */
  lemma ReachClash(d: string, f: Sock) returns (head: string, y: char, b: char)
    requires NulFree(d) && ShortLines(d, 0) && !SplitSafe(d, Paired)
    requires InLines(f) && f.line == "" && !f.skip
    ensures |head| + 2 <= |d| && d[..|head| + 2] == head + [y, b]
    ensures ReadAll(f, Singly(head)) == Run(f, head) && InLines(Run(f, head))
    ensures y != NUL && !IsEol(y) && |Run(f, head).line| + 1 < MAX_LINE
    ensures !Clash(EndingOf(Run(f, head)), y) && Clash(After(EndingOf(Run(f, head)), y), b)
  {
    hide ReadAll, Run;
    var k := FirstClash(d, Paired);
    head, y, b := d[..k - 1], d[k - 1], d[k];
    assert d[..k] == head + [y] && d[..k + 1] == head + [y, b] == head + [y] + [b];
    ShortLinesPrefix(d, k, 0);
    ShortLinesPrefix(d, k - 1, 0);
    assert forall c :: c in head + [y] ==> c in d;
    ResumeInLines(f, head, [y]);
    SplitSafeConcat(head, [y], Paired);
    ConcatSingly(head);
    LinesIgnoreReads(f, Singly(head));
    assert y in [y];
    EndingAfter(f, head + [y], b, head, y);
  }

  lemma UnsafeIsNotInvariant(d: string, max: int)
    requires NulFree(d) && ShortLines(d, 0) && !SplitSafe(d, Paired)
    ensures !SplitInvariant(d, max)
  {
    hide Read, ReadAll, Run, SplitSafe, ShortLines, Concat;
    var f := Fresh(LineClient, max);
    var head, y, b := ReachClash(d, f);
    ClashSplits(Run(f, head), y, b);
    var p := Singly(head);
    var one, two := p + [[y, b]], p + [[y]] + [[b]];
    ConcatSingly(head);
    ConcatAppend(p, [y, b]);
    ConcatAppend(p, [y]);
    ConcatAppend(p + [[y]], [b]);
    ReadAllAppend(f, p, [y, b]);
    ReadAllAppend(f, p, [y]);
    ReadAllAppend(f, p + [[y]], [b]);
    assert head + [y] + [b] == head + [y, b];
    assert Concat(one) == d[..|head| + 2] == Concat(two);
  }

  /** The automaton over bytes and the flags of the socket agree when the clash is reached. */
  lemma {:induction false} EndingAfter(s: Sock, a: string, b: char, head: string, y: char)
    requires a == head + [y] && InLines(s) && NulFree(a) && ShortLines(a, |s.line|)
    requires SplitSafe(a, EndingOf(s)) && !SplitSafe(a + [b], EndingOf(s))
    ensures Clash(After(EndingOf(Run(s, head)), y), b)
    decreases head
  {
    hide Step, Tame;
    assert a[0] in a && (a + [b])[1..] == a[1..] + [b];
    if head == "" {
      assert a == [y] && a[1..] == "" && ([b])[1..] == "";
      assert a[1..] + [b] == [b];
      var e1 := After(EndingOf(s), y);
      assert SplitSafe([b], e1) == !Clash(e1, b);
      assert SplitSafe([y], EndingOf(s)) == !Clash(EndingOf(s), y);
    } else {
      StepInLines(s, a[0]);
      assert a[1..] == head[1..] + [y] && forall c :: c in a[1..] ==> c in a;
      EndingAfter(Step(s, a[0]), a[1..], b, head[1..], y);
    }
  }

  /** The lines are a function of the bytes, at every moment, on exactly the safe streams. */
  lemma SplitInvariantIffSafe(d: string, max: int)
    requires NulFree(d) && ShortLines(d, 0)
    ensures SplitInvariant(d, max) <==> SplitSafe(d, Paired)
  {
    if SplitSafe(d, Paired) {
      forall k: nat, p: seq<string> | k <= |d| && Legal(p) && Concat(p) == d[..k]
        ensures ReadAll(Fresh(LineClient, max), p) == Run(Fresh(LineClient, max), d[..k])
      {
        ShortLinesPrefix(d, k, 0);
        assert d == d[..k] + d[k..];
        SplitSafeConcat(d[..k], d[k..], Paired);
        LinesIgnoreReads(Fresh(LineClient, max), p);
      }
    } else {
      UnsafeIsNotInvariant(d, max);
    }
  }

  /** Streams with one kind of line end are safe. */
  predicate LfOnly(d: string) { CR !in d }

  predicate CrlfOnly(d: string) { forall i :: 0 <= i < |d| ==> CrlfAt(d, i) }

  predicate CrlfAt(d: string, i: nat)
    requires i < |d|
  {
    && (d[i] == CR ==> i + 1 == |d| || d[i + 1] == LF)
    && (d[i] == LF ==> i > 0 && d[i - 1] == CR)
  }

  lemma {:induction false} LfOnlyIsSafe(d: string, e: Ending)
    requires LfOnly(d) && (e.Paired? || e.t == LF)
    ensures SplitSafe(d, e)
    decreases d
  {
    if d != "" {
      assert d[0] in d && forall c :: c in d[1..] ==> c in d;
      LfOnlyIsSafe(d[1..], After(e, d[0]));
    }
  }

  lemma {:induction false} CrlfOnlyIsSafe(d: string, i: nat)
    requires CrlfOnly(d) && i <= |d|
    ensures SplitSafe(d[i..], if i > 0 && d[i - 1] == CR then Just(CR) else Paired)
    decreases |d| - i
  {
    if i < |d| {
      assert d[i..][0] == d[i] && d[i..][1..] == d[i + 1..];
      var e := if i > 0 && d[i - 1] == CR then Just(CR) else Paired;
      assert CrlfAt(d, i) && (i > 0 ==> CrlfAt(d, i - 1));
      CrlfOnlyIsSafe(d, i + 1);
      assert After(e, d[i]) == if d[i] == CR then Just(CR) else Paired;
    }
  }

  /** Mixed line ends: a lone LF, then a CR that starts a new read, loses the line end. */
  lemma MixedLineEndsDependOnReads(max: int)
    ensures !SplitInvariant("\nA\r", max)
  {
    assert "\nA\r"[1..] == "A\r" && "A\r"[1..] == "\r" && "\r"[1..] == "";
    assert !SplitSafe("\nA\r", Paired);
    assert ShortLines("\r", 1) && ShortLines("A\r", 0) && ShortLines("\nA\r", 0);
    UnsafeIsNotInvariant("\nA\r", max);
  }
}
