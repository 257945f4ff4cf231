/** Which thread an accepted connection goes to. */
module Dispatch {
  import opened Bytes

  const LIMIT: nat := 99999
  const ACCEPTS: nat := 10

  /** What became of a call of ListenSocket::OnRead. */
  datatype Outcome = Drained | Refused | Full | NoHandler | Enough

  /** The first of the threads with the smallest load, if that is below the limit. */
  ghost predicate IsLeastLoaded(loads: seq<nat>, choice: Option<nat>) {
    match choice
    case None => forall j :: 0 <= j < |loads| ==> loads[j] >= LIMIT
    case Some(i) =>
      && i < |loads| && loads[i] < LIMIT
      && (forall j :: 0 <= j < |loads| ==> loads[i] <= loads[j])
      && forall j :: 0 <= j < i ==> loads[i] < loads[j]
  }

  /** No load is above another by more than `gap`. */
  ghost predicate Within(loads: seq<nat>, gap: nat) {
    forall i, j :: 0 <= i < |loads| && 0 <= j < |loads| ==> loads[i] <= loads[j] + gap
  }

  function Sum(loads: seq<nat>): nat {
    if loads == [] then 0 else loads[0] + Sum(loads[1..])
  }

  lemma {:induction false} SumOneMore(loads: seq<nat>, i: nat)
    requires i < |loads|
    ensures Sum(loads[i := loads[i] + 1]) == Sum(loads) + 1
  {
    if i == 0 {
      assert loads[0 := loads[0] + 1][1..] == loads[1..];
    } else {
      assert loads[i := loads[i] + 1][1..] == loads[1..][i - 1 := loads[1..][i - 1] + 1];
      SumOneMore(loads[1..], i - 1);
    }
  }

  /** Balanced loads are the average, rounded down or up. */
  lemma BalancedIsAverage(loads: seq<nat>, i: nat)
    requires Within(loads, 1) && i < |loads|
    ensures loads[i] == Sum(loads) / |loads| || loads[i] == Sum(loads) / |loads| + 1
  {
    var low := Least(loads);
    SumBetween(loads, low);
    var n := |loads|;
    assert n * (low + 1) == n * low + n;
    Divided(Sum(loads), n, low, Sum(loads) - n * low);
  }

  lemma Divided(s: nat, n: nat, q: nat, r: nat)
    requires s == n * q + r && r < n
    ensures s / n == q
  {
    var d := s / n;
    assert n * d <= s < n * (d + 1);
    SameQuotient(s, n, d, q);
  }

  lemma SameQuotient(s: nat, n: nat, d: nat, q: nat)
    requires n * d <= s < n * (d + 1) && n * q <= s < n * (q + 1)
    ensures d == q
  {
    if d < q {
      Monotone(n, d + 1, q);
    } else if q < d {
      Monotone(n, q + 1, d);
    }
  }

  lemma Monotone(n: nat, a: nat, b: nat)
    requires a <= b
    ensures n * a <= n * b
  {
  }

  function Least(loads: seq<nat>): (m: nat)
    requires loads != []
    ensures m in loads && forall j :: 0 <= j < |loads| ==> m <= loads[j]
  {
    if |loads| == 1 then loads[0]
    else
      var m := Least(loads[1..]);
      assert forall j :: 1 <= j < |loads| ==> loads[j] == loads[1..][j - 1];
      if loads[0] < m then loads[0] else m
  }

  /** Loads of at least `low`, one of them `low` and none above the next number. */
  lemma {:induction false} SumBetween(loads: seq<nat>, low: nat)
    requires forall j :: 0 <= j < |loads| ==> low <= loads[j] <= low + 1
    ensures |loads| * low <= Sum(loads) <= |loads| * (low + 1)
    ensures low in loads ==> Sum(loads) < |loads| * (low + 1)
  {
    if loads != [] {
      assert forall j :: 0 <= j < |loads[1..]| ==> loads[1..][j] == loads[j + 1];
      SumBetween(loads[1..], low);
      assert |loads| * low == |loads[1..]| * low + low;
      assert |loads| * (low + 1) == |loads[1..]| * (low + 1) + (low + 1);
    }
  }

  function FirstOf(loads: seq<nat>, m: nat): (i: nat)
    requires m in loads
    ensures i < |loads| && loads[i] == m && forall j :: 0 <= j < i ==> loads[j] != m
  {
    if loads[0] == m then 0 else FirstOf(loads[1..], m) + 1
  }

  /** One more connection for the first of the least loaded threads. */
  function OneMore(loads: seq<nat>): (r: seq<nat>)
    requires loads != []
    ensures |r| == |loads|
  {
    var i := FirstOf(loads, Least(loads));
    loads[i := loads[i] + 1]
  }

  function Spread(loads: seq<nat>, n: nat): (r: seq<nat>)
    requires loads != []
    ensures |r| == |loads|
  {
    if n == 0 then loads else OneMore(Spread(loads, n - 1))
  }

  lemma SpreadSteps(loads: seq<nat>, n: nat)
    requires loads != []
    ensures Spread(loads, 0) == loads && Spread(loads, n + 1) == OneMore(Spread(loads, n))
  {
  }

  lemma OneMoreWithin(loads: seq<nat>, gap: nat)
    requires loads != [] && gap >= 1 && Within(loads, gap)
    ensures Within(OneMore(loads), gap) && Sum(OneMore(loads)) == Sum(loads) + 1
  {
    hide Sum, Least, FirstOf;
    SumOneMore(loads, FirstOf(loads, Least(loads)));
  }

  /** Any run of accepts without departures: loads within one of each other stay so, loads further
      apart do not come further apart, and every connection is counted once. */
  lemma {:induction false} SpreadStaysWithin(loads: seq<nat>, n: nat, gap: nat)
    requires loads != [] && gap >= 1 && Within(loads, gap)
    ensures Within(Spread(loads, n), gap) && Sum(Spread(loads, n)) == Sum(loads) + n
  {
    hide Within, Sum, OneMore;
    if n > 0 {
      SpreadStaysWithin(loads, n - 1, gap);
      OneMoreWithin(Spread(loads, n - 1), gap);
    }
  }

  /** The choice of GetRandomHandler is the first of the least loaded threads. */
  lemma LeastLoadedIsFirst(loads: seq<nat>, choice: Option<nat>)
    requires loads != [] && IsLeastLoaded(loads, choice)
    ensures choice.Some? <==> Least(loads) < LIMIT
    ensures choice.Some? ==> choice.value == FirstOf(loads, Least(loads))
  {
    var k := FirstOf(loads, Least(loads));
    assert choice.Some? ==> loads[choice.value] == loads[k];
  }

  /** GetRandomHandler. */
  method GetRandomHandler(loads: array<nat>) returns (choice: Option<nat>)
    ensures IsLeastLoaded(loads[..], choice)
  {
    var minCount := LIMIT;
    choice := None;
    for i := 0 to loads.Length
      invariant minCount <= LIMIT
      invariant choice.None? ==> minCount == LIMIT && forall j :: 0 <= j < i ==> loads[j] >= LIMIT
      invariant choice.Some? ==> choice.value < i && loads[choice.value] == minCount < LIMIT
      invariant choice.Some? ==> forall j :: 0 <= j < i ==> minCount <= loads[j]
      invariant choice.Some? ==> forall j :: 0 <= j < choice.value ==> minCount < loads[j]
    {
      if loads[i] < minCount {
        minCount := loads[i];
        choice := Some(i);
      }
    }
  }

  /** ListenSocket::OnRead on a handler with threads: at most ten of the connections that wait. Of the
      k-th one, `ok[k]` is the answer of OkToAccept. */
  method OnRead(loads: array<nat>, waiting: nat, ok: seq<bool>, count: nat, maxCount: nat)
    returns (accepted: nat, outcome: Outcome)
    requires loads.Length > 0 && |ok| >= waiting
    modifies loads
    ensures loads[..] == Spread(old(loads[..]), accepted)
    ensures accepted <= waiting && accepted <= ACCEPTS && forall k :: 0 <= k < accepted ==> ok[k]
    ensures accepted > 0 ==> count < maxCount && exists j :: 0 <= j < loads.Length && old(loads[j]) < LIMIT
    ensures match outcome
      case Enough => accepted == ACCEPTS
      case Drained => accepted == waiting
      case Refused => accepted < waiting && !ok[accepted]
      case Full => count >= maxCount && accepted == 0 && waiting > 0 && ok[0]
      case NoHandler =>
        && accepted < waiting && ok[accepted] && count < maxCount
        && forall j :: 0 <= j < loads.Length ==> loads[j] >= LIMIT
  {
    hide Least, FirstOf, Spread;
    accepted := 0;
    SpreadSteps(loads[..], 0);
    while accepted < ACCEPTS
      invariant accepted <= waiting && accepted <= ACCEPTS && forall k :: 0 <= k < accepted ==> ok[k]
      invariant accepted > 0 ==> count < maxCount && exists j :: 0 <= j < loads.Length && old(loads[j]) < LIMIT
      invariant loads[..] == Spread(old(loads[..]), accepted)
    {
      if accepted == waiting {
        return accepted, Drained;
      }
      if !ok[accepted] {
        return accepted, Refused;
      }
      if count >= maxCount {
        return accepted, Full;
      }
      var choice := GetRandomHandler(loads);
      LeastLoadedIsFirst(loads[..], choice);
      if choice.None? {
        return accepted, NoHandler;
      }
      ghost var before := loads[..];
      loads[choice.value] := loads[choice.value] + 1;
      assert loads[..] == OneMore(before);
      SpreadSteps(old(loads[..]), accepted);
      accepted := accepted + 1;
    }
    outcome := Enough;
  }
}
