/** The class around the timer queue. Callbacks run in the middle of CheckEvents and call back
    into the same object. */
module EventHandler {
  import opened Events

  lemma {:induction false} InsertedAt(events: seq<TimerEvent>, e: TimerEvent, k: nat)
    requires k <= |events| && forall i :: 0 <= i < k ==> events[i].time < e.time
    requires k < |events| ==> !(events[k].time < e.time)
    ensures Inserted(events, e) == events[..k] + [e] + events[k..]
  {
    if k > 0 {
      InsertedAt(events[1..], e, k - 1);
      assert events[..k] == [events[0]] + events[1..][..k - 1];
    }
  }

  lemma {:induction false} RemovedAt(events: seq<TimerEvent>, from: int, id: nat, k: nat)
    requires k <= |events| && forall i :: 0 <= i < k ==> !(events[i].from == from && events[i].id == id)
    requires k < |events| ==> events[k].from == from && events[k].id == id
    ensures RemovedFirst(events, from, id) == events[..k] + (if k < |events| then events[k + 1..] else [])
  {
    if k > 0 {
      RemovedAt(events[1..], from, id, k - 1);
      assert events[..k] == [events[0]] + events[1..][..k - 1];
    }
  }

  lemma {:induction false} ErasedAt(events: seq<TimerEvent>, e: TimerEvent, k: nat)
    requires k <= |events| && forall i :: 0 <= i < k ==> events[i].id != e.id
    requires k < |events| ==> events[k].id == e.id
    ensures Erased(events, e) == events[..k] + (if k < |events| then events[k + 1..] else [])
  {
    if k > 0 {
      ErasedAt(events[1..], e, k - 1);
      assert events[..k] == [events[0]] + events[1..][..k - 1];
    }
  }

  /** Clearing is not disturbed by an event of that owner having been erased already. */
  lemma {:induction false} ClearedAt(events: seq<TimerEvent>, from: int, k: nat)
    requires k <= |events| && forall i :: 0 <= i < k ==> events[i].from != from
    requires k < |events| ==> events[k].from == from
    ensures k < |events| ==> Cleared(events, from) == Cleared(events[..k] + events[k + 1..], from)
    ensures k == |events| ==> Cleared(events, from) == events
  {
    if k > 0 {
      ClearedAt(events[1..], from, k - 1);
      if k < |events| {
        var less := events[..k] + events[k + 1..];
        assert less[1..] == events[1..][..k - 1] + events[1..][k..];
      }
    } else if events != [] {
      assert events[..0] + events[1..] == events[1..];
    }
  }

  lemma ApplyNothing(q: Queue)
    ensures ApplyAll(q, []) == q
  {}

  ghost predicate IsEarliest(e: TimerEvent, events: seq<TimerEvent>) {
    forall x :: x in events ==> e.time <= x.time
  }

  /** One event has come, for that owner and time: behind all that are earlier, in front of the others. */
  ghost predicate Arrived(before: seq<TimerEvent>, after: seq<TimerEvent>, from: int, sockets: set<nat>, time: int,
                          id: nat)
  {
    exists k :: 0 <= k <= |before| && |after| == |before| + 1
      && after[..k] == before[..k] && after[k + 1..] == before[k..]
      && after[k].from == from && after[k].time == time && after[k].id == id
      && (after[k].socket <==> sockets != {}) && (after[k].socket ==> sockets == {after[k].uid})
      && (forall i :: 0 <= i < k ==> before[i].time < time) && (k < |before| ==> before[k].time >= time)
  }

  lemma ArrivedAt(events: seq<TimerEvent>, k: nat, e: TimerEvent)
    requires k <= |events| && forall i :: 0 <= i < k ==> events[i].time < e.time
    requires k < |events| ==> events[k].time >= e.time
    ensures Arrived(events, events[..k] + [e] + events[k..], e.from, if e.socket then {e.uid} else {}, e.time, e.id)
  {
    var after := events[..k] + [e] + events[k..];
    assert after[..k] == events[..k] && after[k] == e && after[k + 1..] == events[k..];
  }

  predicate Matches(e: TimerEvent, from: int, id: nat) { e.from == from && e.id == id }

  ghost predicate GoneAt(before: seq<TimerEvent>, after: seq<TimerEvent>, from: int, id: nat, k: nat)
    requires k < |before|
  {
    && Matches(before[k], from, id) && (forall i :: 0 <= i < k ==> !Matches(before[i], from, id))
    && after == before[..k] + before[k + 1..]
  }

  /** The first event with that owner and id has gone, if there was one. */
  ghost predicate Gone(before: seq<TimerEvent>, after: seq<TimerEvent>, from: int, id: nat) {
    if forall i :: 0 <= i < |before| ==> !Matches(before[i], from, id) then after == before
    else exists k :: 0 <= k < |before| && GoneAt(before, after, from, id, k)
  }

  /** The events of that owner have gone, and all others are still there. */
  ghost predicate AllGone(before: seq<TimerEvent>, after: seq<TimerEvent>, from: int) {
    forall x :: x in after <==> x in before && x.from != from
  }

  function Max(a: int, b: int): int { if a < b then b else a }

  class EventHandler {
    var events: seq<TimerEvent>
    var lastId: nat          // Event::m_unique_id
    var valid: set<nat>      // the uids SocketHandler::Valid accepts
    ghost var turns: seq<Turn>

    ghost function State(): Queue
      reads this
    {
      Queue(events, lastId, valid)
    }

    constructor ()
      ensures State() == Queue([], 0, {}) && turns == []
    {
      events, lastId, valid, turns := [], 0, {}, [];
    }

    method AddEvent(from: int, socket: bool, uid: nat, sec: int, usec: int, tick: int) returns (id: nat)
      modifies `events, `lastId
      ensures State() == Apply(old(State()), Add(from, socket, uid, sec, usec, tick)) && id == lastId
      ensures Arrived(old(events), events, from, if socket then {uid} else {}, tick + 1000000 * sec + usec, id)
      ensures id == old(lastId) + 1
    {
      hide Inserted, Arrived;
      lastId := lastId + 1;
      var e := TimerEvent(from, socket, if socket then uid else 0, tick + sec * USECS + usec, lastId);
      var it := 0;
      while it < |events| && events[it].time < e.time
        invariant 0 <= it <= |events|
        invariant forall i :: 0 <= i < it ==> events[i].time < e.time
      {
        it := it + 1;
      }
      InsertedAt(events, e, it);
      ArrivedAt(events, it, e);
      events := events[..it] + [e] + events[it..];
      id := lastId;
    }

    method RemoveEvent(from: int, eid: nat)
      modifies `events
      ensures State() == Apply(old(State()), Remove(from, eid)) && Gone(old(events), events, from, eid)
    {
      for it := 0 to |events|
        invariant events == old(events)
        invariant forall i :: 0 <= i < it ==> !(events[i].from == from && events[i].id == eid)
      {
        if events[it].from == from && events[it].id == eid {
          RemovedAt(events, from, eid, it);
          events := events[..it] + events[it + 1..];
          assert GoneAt(old(events), events, from, eid, it);
          return;
        }
      }
      RemovedAt(events, from, eid, |events|);
      assert events[..|events|] + [] == events;
    }

    method ClearEvents(from: int)
      modifies `events
      ensures State() == Apply(old(State()), Clear(from))
      ensures old(Ordered(State())) ==> Ordered(State()) && AllGone(old(events), events, from)
    {
      if Ordered(State()) { ClearedKeepsOrder(events, from, lastId); }
      var repeat := true;
      while repeat
        invariant Cleared(events, from) == Cleared(old(events), from)
        invariant !repeat ==> events == Cleared(events, from)
        decreases |events|, repeat
      {
        repeat := false;
        var it := 0;
        while it < |events| && events[it].from != from
          invariant 0 <= it <= |events|
          invariant forall i :: 0 <= i < it ==> events[i].from != from
        {
          it := it + 1;
        }
        ClearedAt(events, from, it);
        if it < |events| {
          events := events[..it] + events[it + 1..];
          repeat := true;
        }
      }
    }

    /** OnEvent of the owner: it does what its script says. */
    method OnEvent(ops: seq<Op>)
      modifies `events, `lastId, `valid
      ensures State() == ApplyAll(old(State()), ops)
    {
      var k := 0;
      assert ops[0..] == ops;
      while k < |ops|
        invariant 0 <= k <= |ops|
        invariant ApplyAll(State(), ops[k..]) == ApplyAll(old(State()), ops)
      {
        assert ops[k..][1..] == ops[k + 1..];
        match ops[k] {
          case Add(from, socket, uid, sec, usec, tick) =>
            var id := AddEvent(from, socket, uid, sec, usec, tick);
          case Remove(from, id) => RemoveEvent(from, id);
          case Clear(from) => ClearEvents(from);
          case SocketAppears(uid) => valid := valid + {uid};
          case SocketDisappears(uid) => valid := valid - {uid};
        }
        k := k + 1;
      }
    }

    /** The search for the event just handled, which its callback may have removed already. */
    method EraseEvent(e: TimerEvent)
      modifies `events
      ensures State() == old(State()).(events := Erased(old(events), e))
    {
      var it := 0;
      while it < |events| && events[it].id != e.id
        invariant 0 <= it <= |events|
        invariant forall i :: 0 <= i < it ==> events[i].id != e.id
      {
        it := it + 1;
      }
      ErasedAt(events, e, it);
      if it < |events| {
        events := events[..it] + events[it + 1..];
      } else {
        assert events[..it] + [] == events;
      }
    }

    /** One turn of the loop of CheckEvents. */
    method HandleFirst(script: seq<seq<Op>>) returns (rest: seq<seq<Op>>)
      requires events != []
      modifies `events, `lastId, `valid
      ensures State() == AfterTurn(old(State()), script) && rest == NextScript(old(State()), script)
    {
      hide ApplyAll, Erased;
      var e := events[0];
      rest := script;
      if !e.socket || e.uid in valid {
        OnEvent(if script != [] then script[0] else []);
        rest := if script != [] then script[1..] else script;
      } else {
        ApplyNothing(State());
      }
      EraseEvent(e);
    }

    /** Fires what is due. `script` holds what the callbacks do, in the order they are called. */
    method CheckEvents(now: int, script: seq<seq<Op>>)
      requires Ordered(State()) && AllPatient(script, now)
      modifies this
      ensures Ordered(State())
      ensures State() == Checked(old(State()), now, script).0
      ensures turns == old(turns) + Checked(old(State()), now, script).1
    {
      hide Ordered, AllPatient, AfterTurn, NextScript, TurnOf;
      var todo := script;
      while events != [] && events[0].time < now
        invariant Ordered(State()) && AllPatient(todo, now)
        invariant Checked(State(), now, todo).0 == Checked(old(State()), now, script).0
        invariant turns + Checked(State(), now, todo).1 == old(turns) + Checked(old(State()), now, script).1
        decreases DueIds(events, now)
      {
        CheckedStep(State(), now, todo);
        turns := turns + [TurnOf(State(), todo)];
        todo := HandleFirst(todo);
      }
    }

    /** The time to wait, at least a microsecond; false when nothing is queued. */
    method GetTimeUntilNextEvent(now: int) returns (ok: bool, sec: int, usec: int)
      requires Ordered(State())
      ensures ok <==> events != []
      ensures ok ==> sec >= 0 && 0 <= usec < 1000000
      ensures ok ==> exists e :: e in events && IsEarliest(e, events) && 1000000 * sec + usec == Max(1, e.time - now)
    {
      if events == [] {
        return false, 0, 0;
      }
      var diff := events[0].time - now;
      if diff < 1 {
        diff := 1;
      }
      ok, sec, usec := true, diff / USECS, diff % USECS;
      HeadIsEarliest(State(), now);
      assert events[0] in events;
    }
  }

  /** On an empty queue, the time to wait right after an event has been added is the time it was added for. */
  method WaitForAdded(h: EventHandler, from: int, socket: bool, uid: nat, sec: int, usec: int, tick: int)
    returns (ok: bool, s: int, u: int)
    requires h.events == [] && sec >= 0 && 0 <= usec < 1000000 && (sec > 0 || usec > 0)
    modifies h
    ensures ok && s == sec && u == usec
  {
    var id := h.AddEvent(from, socket, uid, sec, usec, tick);
    assert |h.events| == 1 && h.events[0].time == tick + 1000000 * sec + usec;
    assert Ordered(h.State()) by { AloneIsOrdered(h.State()); }
    ok, s, u := h.GetTimeUntilNextEvent(tick);
    SameTime(sec, usec, s, u);
  }

  lemma AloneIsOrdered(q: Queue)
    requires |q.events| == 1 && q.events[0].id <= q.lastId
    ensures Ordered(q)
  {
  }

  lemma SameTime(sec: int, usec: int, s: int, u: int)
    requires 1000000 * sec + usec == 1000000 * s + u && 0 <= usec < 1000000 && 0 <= u < 1000000
    ensures sec == s && usec == u
  {
  }

  /** An added event has its turn in a CheckEvents if and only if more than its seconds and microseconds have
      gone by since, unless an earlier callback takes it out. */
  lemma AddedHasItsTurn(q: Queue, from: int, socket: bool, uid: nat, sec: int, usec: int, tick: int, now: int,
                        script: seq<seq<Op>>)
    requires Ordered(q) && AllPatient(script, now) && sec >= 0 && usec >= 0
    ensures var q1 := Apply(q, Add(from, socket, uid, sec, usec, tick));
      && Ordered(q1) && (exists d :: d in q1.events && d.id == q.lastId + 1)
      && forall d :: d in q1.events && d.id == q.lastId + 1 ==>
        (HasTurn(Checked(q1, now, script).1, d) <==>
           (now - tick > 1000000 * sec + usec && !TakenOut(Checked(q1, now, script).1, d)))
  {
    var op := Add(from, socket, uid, sec, usec, tick);
    var q1, d := Apply(q, op), NewEvent(q, op);
    InsertedKeepsOrder(q.events, d, q.lastId);
    assert d in q1.events;
    var turns := Checked(q1, now, script).1;
    TurnsAreDueEvents(q1, now, script);
    if d.time < now {
      DueEventsHaveTheirTurn(q1, now, script, d);
    }
    forall x | x in q1.events && x.id == d.id
      ensures x == d
    {
      assert x == d || x in q.events;
    }
  }
}
