/** The timer queue of EventHandler. OnEvent may add, remove and clear events while the queue is
    being checked; what the callbacks do is a script, so a statement about every script is a
    statement about every callback. */
module Events {

  /** A queued event. `socket` says the owner is a Socket, whose uid is then in `uid`. */
  datatype TimerEvent = TimerEvent(from: int, socket: bool, uid: nat, time: int, id: nat)

  /** What a callback can do to the handler; `tick` is the clock when AddEvent is called. */
  datatype Op =
    | Add(from: int, socket: bool, uid: nat, sec: int, usec: int, tick: int)
    | Remove(from: int, id: nat)
    | Clear(from: int)
    | SocketAppears(uid: nat)
    | SocketDisappears(uid: nat)

  const USECS: int := 1000000

  datatype Queue = Queue(events: seq<TimerEvent>, lastId: nat, valid: set<nat>)

  // ----- the operations as functions -----

  /** Before the first event that is not earlier: of equal times the newest comes first. */
  function Inserted(events: seq<TimerEvent>, e: TimerEvent): seq<TimerEvent> {
    if events == [] || !(events[0].time < e.time) then [e] + events
    else [events[0]] + Inserted(events[1..], e)
  }

  function RemovedFirst(events: seq<TimerEvent>, from: int, id: nat): seq<TimerEvent> {
    if events == [] then []
    else if events[0].from == from && events[0].id == id then events[1..]
    else [events[0]] + RemovedFirst(events[1..], from, id)
  }

  function Cleared(events: seq<TimerEvent>, from: int): seq<TimerEvent> {
    if events == [] then []
    else if events[0].from == from then Cleared(events[1..], from)
    else [events[0]] + Cleared(events[1..], from)
  }

  /** The search by identity at the end of each turn of CheckEvents. */
  function Erased(events: seq<TimerEvent>, e: TimerEvent): seq<TimerEvent> {
    if events == [] then []
    else if events[0].id == e.id then events[1..]
    else [events[0]] + Erased(events[1..], e)
  }

  function NewEvent(q: Queue, op: Op): TimerEvent
    requires op.Add?
  {
    TimerEvent(op.from, op.socket, if op.socket then op.uid else 0, op.tick + op.sec * USECS + op.usec, q.lastId + 1)
  }

  function Apply(q: Queue, op: Op): Queue {
    match op
    case Add(_, _, _, _, _, _) => Queue(Inserted(q.events, NewEvent(q, op)), q.lastId + 1, q.valid)
    case Remove(from, id) => q.(events := RemovedFirst(q.events, from, id))
    case Clear(from) => q.(events := Cleared(q.events, from))
    case SocketAppears(uid) => q.(valid := q.valid + {uid})
    case SocketDisappears(uid) => q.(valid := q.valid - {uid})
  }

  function ApplyAll(q: Queue, ops: seq<Op>): Queue
    decreases ops
  {
    if ops == [] then q else ApplyAll(Apply(q, ops[0]), ops[1..])
  }

  // ----- order and identity -----

  ghost predicate Sorted(events: seq<TimerEvent>) {
    forall i, j :: 0 <= i < j < |events| ==> events[i].time <= events[j].time
  }

  ghost predicate DistinctIds(events: seq<TimerEvent>, lastId: nat) {
    && (forall i :: 0 <= i < |events| ==> events[i].id <= lastId)
    && (forall i, j :: 0 <= i < j < |events| ==> events[i].id != events[j].id)
  }

  ghost predicate Ordered(q: Queue) { Sorted(q.events) && DistinctIds(q.events, q.lastId) }

  /** The clock does not run back below `now` and delays are not negative. */
  predicate Patient(ops: seq<Op>, now: int) {
    forall k :: 0 <= k < |ops| ==> ops[k].Add? ==> ops[k].tick >= now && ops[k].sec >= 0 && ops[k].usec >= 0
  }

  predicate AllPatient(script: seq<seq<Op>>, now: int) {
    forall k :: 0 <= k < |script| ==> Patient(script[k], now)
  }

  lemma {:induction false} InsertedKeepsOrder(events: seq<TimerEvent>, e: TimerEvent, lastId: nat)
    requires Sorted(events) && DistinctIds(events, lastId) && e.id == lastId + 1
    ensures Sorted(Inserted(events, e)) && DistinctIds(Inserted(events, e), lastId + 1)
    ensures forall x :: x in Inserted(events, e) <==> x == e || x in events
    ensures Inserted(events, e)[0] == e || (events != [] && Inserted(events, e)[0] == events[0])
  {
    if events == [] || !(events[0].time < e.time) {
    } else {
      var rest := events[1..];
      InsertedKeepsOrder(rest, e, lastId);
      assert forall x :: x in events <==> x == events[0] || x in rest;
      HeadBefore(events, lastId);
      ConsKeepsOrder(events[0], Inserted(rest, e), lastId + 1);
    }
  }

  lemma HeadBefore(events: seq<TimerEvent>, lastId: nat)
    requires events != [] && Sorted(events) && DistinctIds(events, lastId)
    ensures forall x :: x in events[1..] ==> events[0].time <= x.time && x.id != events[0].id
    ensures events[0].id <= lastId
  {
    forall x | x in events[1..] ensures events[0].time <= x.time && x.id != events[0].id {
      var j :| 0 <= j < |events[1..]| && events[1..][j] == x;
      assert events[j + 1] == x;
    }
  }

  lemma ConsKeepsOrder(head: TimerEvent, r: seq<TimerEvent>, lastId: nat)
    requires Sorted(r) && DistinctIds(r, lastId) && head.id <= lastId
    requires forall x :: x in r ==> head.time <= x.time && x.id != head.id
    ensures Sorted([head] + r) && DistinctIds([head] + r, lastId)
  {
    assert forall k :: 0 <= k < |r| ==> r[k] in r;
  }

  lemma ShorterKeepsOrder(events: seq<TimerEvent>, r: seq<TimerEvent>, lastId: nat)
    requires events != [] && Sorted(events) && DistinctIds(events, lastId)
    requires Sorted(r) && DistinctIds(r, lastId) && forall x :: x in r ==> x in events[1..]
    ensures Sorted([events[0]] + r) && DistinctIds([events[0]] + r, lastId)
  {
    HeadBefore(events, lastId);
    ConsKeepsOrder(events[0], r, lastId);
  }

  lemma {:induction false} RemovedFirstKeepsOrder(events: seq<TimerEvent>, from: int, id: nat, lastId: nat)
    requires Sorted(events) && DistinctIds(events, lastId)
    ensures var r := RemovedFirst(events, from, id); Sorted(r) && DistinctIds(r, lastId)
    ensures forall x :: x in RemovedFirst(events, from, id) <==> x in events && !(x.from == from && x.id == id)
  {
    if events != [] {
      assert forall x :: x in events <==> x == events[0] || x in events[1..];
      if events[0].from == from && events[0].id == id {
        forall x | x in events[1..] ensures x.id != id {
          var j :| 0 <= j < |events[1..]| && events[1..][j] == x;
          assert events[j + 1] == x;
        }
      } else {
        RemovedFirstKeepsOrder(events[1..], from, id, lastId);
        ShorterKeepsOrder(events, RemovedFirst(events[1..], from, id), lastId);
      }
    }
  }

  lemma {:induction false} ErasedKeepsOrder(events: seq<TimerEvent>, e: TimerEvent, lastId: nat)
    requires Sorted(events) && DistinctIds(events, lastId)
    ensures Sorted(Erased(events, e)) && DistinctIds(Erased(events, e), lastId)
    ensures forall x :: x in Erased(events, e) <==> x in events && x.id != e.id
  {
    if events != [] {
      assert forall x :: x in events <==> x == events[0] || x in events[1..];
      if events[0].id == e.id {
        forall x | x in events[1..] ensures x.id != e.id {
          var j :| 0 <= j < |events[1..]| && events[1..][j] == x;
          assert events[j + 1] == x;
        }
      } else {
        ErasedKeepsOrder(events[1..], e, lastId);
        ShorterKeepsOrder(events, Erased(events[1..], e), lastId);
      }
    }
  }

  lemma {:induction false} ClearedKeepsOrder(events: seq<TimerEvent>, from: int, lastId: nat)
    requires Sorted(events) && DistinctIds(events, lastId)
    ensures Sorted(Cleared(events, from)) && DistinctIds(Cleared(events, from), lastId)
    ensures forall x :: x in Cleared(events, from) <==> x in events && x.from != from
  {
    if events != [] {
      assert forall x :: x in events <==> x == events[0] || x in events[1..];
      ClearedKeepsOrder(events[1..], from, lastId);
      if events[0].from != from {
        ShorterKeepsOrder(events, Cleared(events[1..], from), lastId);
      }
    }
  }

  /** Every operation keeps the queue in order, and a patient one makes nothing due. */
  lemma ApplyKeepsOrder(q: Queue, op: Op, now: int)
    requires Ordered(q) && Patient([op], now)
    ensures Ordered(Apply(q, op)) && q.lastId <= Apply(q, op).lastId
    ensures forall x :: x in Apply(q, op).events && (x.time < now || x.id <= q.lastId) ==> x in q.events
  {
    match op {
      case Add(_, _, _, _, _, _) =>
        assert [op][0] == op;
        InsertedKeepsOrder(q.events, NewEvent(q, op), q.lastId);
      case Remove(from, id) => RemovedFirstKeepsOrder(q.events, from, id, q.lastId);
      case Clear(from) => ClearedKeepsOrder(q.events, from, q.lastId);
      case _ =>
    }
  }

  lemma {:induction false} ApplyAllKeepsOrder(q: Queue, ops: seq<Op>, now: int)
    requires Ordered(q) && Patient(ops, now)
    ensures var r := ApplyAll(q, ops);
      && Ordered(r) && q.lastId <= r.lastId
      && forall x :: x in r.events && (x.time < now || x.id <= q.lastId) ==> x in q.events
    decreases ops
  {
    if ops != [] {
      hide Ordered, Apply;
      assert ops[0] == [ops[0]][0];
      ApplyKeepsOrder(q, ops[0], now);
      ApplyAllKeepsOrder(Apply(q, ops[0]), ops[1..], now);
    }
  }

  // ----- CheckEvents -----

  /** One turn: the event at the head, whether OnEvent was called for it, the socket uids valid
      at that moment, and the queue before and after the callback. */
  datatype Turn = Turn(e: TimerEvent, fired: bool, valid: set<nat>, before: seq<TimerEvent>, after: seq<TimerEvent>)

  function CountDue(events: seq<TimerEvent>, now: int): nat {
    if events == [] then 0 else (if events[0].time < now then 1 else 0) + CountDue(events[1..], now)
  }

  ghost function DueIds(events: seq<TimerEvent>, now: int): set<nat> {
    set e | e in events && e.time < now :: e.id
  }

  /** OnEvent is called unless the owner is a socket that is no longer valid. */
  predicate Fires(q: Queue, e: TimerEvent) { !e.socket || e.uid in q.valid }

  /** What the callback of this turn does. */
  function Script(q: Queue, script: seq<seq<Op>>): seq<Op>
    requires q.events != []
  {
    if Fires(q, q.events[0]) && script != [] then script[0] else []
  }

  function NextScript(q: Queue, script: seq<seq<Op>>): seq<seq<Op>>
    requires q.events != []
  {
    if Fires(q, q.events[0]) && script != [] then script[1..] else script
  }

  function TurnOf(q: Queue, script: seq<seq<Op>>): Turn
    requires q.events != []
  {
    Turn(q.events[0], Fires(q, q.events[0]), q.valid, q.events, ApplyAll(q, Script(q, script)).events)
  }

  function AfterTurn(q: Queue, script: seq<seq<Op>>): Queue
    requires q.events != []
  {
    var r := ApplyAll(q, Script(q, script));
    r.(events := Erased(r.events, q.events[0]))
  }

  /** A turn keeps the order, erases its event and makes nothing new due. */
  lemma TurnKeepsOrder(q: Queue, script: seq<seq<Op>>, now: int)
    requires Ordered(q) && AllPatient(script, now) && q.events != []
    ensures Ordered(AfterTurn(q, script)) && AllPatient(NextScript(q, script), now)
    ensures forall x :: x in AfterTurn(q, script).events <==> x in TurnOf(q, script).after && x.id != q.events[0].id
    ensures forall x :: x in TurnOf(q, script).after && x.time < now ==> x in q.events
    ensures forall x :: x in AfterTurn(q, script).events && x.time < now ==> x in q.events
  {
    ApplyAllKeepsOrder(q, Script(q, script), now);
    var r := ApplyAll(q, Script(q, script));
    ErasedKeepsOrder(r.events, q.events[0], r.lastId);
  }

  lemma TurnShrinksDue(q: Queue, script: seq<seq<Op>>, now: int)
    requires Ordered(q) && AllPatient(script, now) && q.events != [] && q.events[0].time < now
    ensures DueIds(AfterTurn(q, script).events, now) < DueIds(q.events, now)
  {
    TurnKeepsOrder(q, script, now);
    assert q.events[0].id in DueIds(q.events, now);
  }

  /** The whole of CheckEvents: the queue it leaves and its turns. */
  ghost function Checked(q: Queue, now: int, script: seq<seq<Op>>): (Queue, seq<Turn>)
    requires Ordered(q) && AllPatient(script, now)
    decreases DueIds(q.events, now)
  {
    if q.events == [] || !(q.events[0].time < now) then (q, [])
    else
      TurnKeepsOrder(q, script, now);
      TurnShrinksDue(q, script, now);
      var (r, turns) := Checked(AfterTurn(q, script), now, NextScript(q, script));
      (r, [TurnOf(q, script)] + turns)
  }

  /** A callback made for another event took `d` out of the queue. */
  ghost predicate TakenOut(turns: seq<Turn>, d: TimerEvent) {
    exists i :: 0 <= i < |turns| && turns[i].fired && turns[i].e != d && d in turns[i].before && d !in turns[i].after
  }

  ghost predicate HasTurn(turns: seq<Turn>, d: TimerEvent) {
    exists i :: 0 <= i < |turns| && turns[i].e == d
  }

  ghost predicate TurnsInOrder(turns: seq<Turn>) {
    forall i, j :: 0 <= i < j < |turns| ==> turns[i].e.time <= turns[j].e.time && turns[i].e.id != turns[j].e.id
  }

  lemma HeadIsEarliest(q: Queue, now: int)
    requires Ordered(q) && q.events != []
    ensures forall x :: x in q.events ==> q.events[0].time <= x.time
    ensures forall x :: x in q.events && x.id == q.events[0].id ==> x == q.events[0]
  {
    forall x | x in q.events ensures q.events[0].time <= x.time && (x.id == q.events[0].id ==> x == q.events[0]) {
      var k :| 0 <= k < |q.events| && q.events[k] == x;
    }
  }

  ghost predicate TurnOk(t: Turn, events: seq<TimerEvent>, now: int) {
    t.e in events && t.e.time < now && (t.fired <==> !t.e.socket || t.e.uid in t.valid)
  }

  lemma CheckedStep(q: Queue, now: int, script: seq<seq<Op>>)
    requires Ordered(q) && AllPatient(script, now) && q.events != [] && q.events[0].time < now
    ensures Ordered(AfterTurn(q, script)) && AllPatient(NextScript(q, script), now)
    ensures DueIds(AfterTurn(q, script).events, now) < DueIds(q.events, now)
    ensures Checked(q, now, script).0 == Checked(AfterTurn(q, script), now, NextScript(q, script)).0
    ensures Checked(q, now, script).1
         == [TurnOf(q, script)] + Checked(AfterTurn(q, script), now, NextScript(q, script)).1
  {
    hide Ordered, AllPatient, DueIds, AfterTurn, TurnOf, NextScript;
    TurnKeepsOrder(q, script, now);
    TurnShrinksDue(q, script, now);
  }

  lemma TurnsInOrderCons(t: Turn, later: seq<Turn>, events: seq<TimerEvent>, now: int)
    requires TurnsInOrder(later) && forall i :: 0 <= i < |later| ==> TurnOk(later[i], events, now)
    requires forall x :: x in events && x.time < now ==> t.e.time <= x.time && x.id != t.e.id
    ensures TurnsInOrder([t] + later)
  {
    forall i, j | 0 <= i < j < |[t] + later|
      ensures ([t] + later)[i].e.time <= ([t] + later)[j].e.time && ([t] + later)[i].e.id != ([t] + later)[j].e.id
    {
      assert TurnOk(later[j - 1], events, now);
    }
  }

  /** What the turns are: due at entry, in time order, no event twice, fired exactly when the owner
      was valid. */
  lemma {:induction false} TurnsAreDueEvents(q: Queue, now: int, script: seq<seq<Op>>)
    requires Ordered(q) && AllPatient(script, now)
    ensures var turns := Checked(q, now, script).1;
      TurnsInOrder(turns) && forall i :: 0 <= i < |turns| ==> TurnOk(turns[i], q.events, now)
    decreases DueIds(q.events, now)
  {
    if q.events != [] && q.events[0].time < now {
      var q1, t := AfterTurn(q, script), TurnOf(q, script);
      HeadIsEarliest(q, now);
      TurnKeepsOrder(q, script, now);
      CheckedStep(q, now, script);
      var later := Checked(q1, now, NextScript(q, script)).1;
      assert TurnOk(t, q.events, now);
      hide Checked, Ordered, AfterTurn, AllPatient, TurnsInOrder;
      TurnsAreDueEvents(q1, now, NextScript(q, script));
      TurnsInOrderCons(t, later, q1.events, now);
      forall i | 0 <= i < |[t] + later| ensures TurnOk(([t] + later)[i], q.events, now) {
        if i > 0 { assert TurnOk(later[i - 1], q1.events, now); }
      }
    }
  }

  /** The queue afterwards: in order, nothing due, nothing that was due survives. */
  lemma {:induction false} NothingDueIsLeft(q: Queue, now: int, script: seq<seq<Op>>)
    requires Ordered(q) && AllPatient(script, now)
    ensures var r := Checked(q, now, script).0;
      Ordered(r) && forall x :: x in r.events ==> x.time >= now
    decreases DueIds(q.events, now)
  {
    if q.events == [] {
    } else if !(q.events[0].time < now) {
      HeadIsEarliest(q, now);
    } else {
      TurnKeepsOrder(q, script, now);
      TurnShrinksDue(q, script, now);
      NothingDueIsLeft(AfterTurn(q, script), now, NextScript(q, script));
    }
  }

  /** Each event due at entry gets its turn, unless an earlier callback took it out of the queue. */
  lemma {:induction false} DueEventsHaveTheirTurn(q: Queue, now: int, script: seq<seq<Op>>, d: TimerEvent)
    requires Ordered(q) && AllPatient(script, now) && d in q.events && d.time < now
    ensures var turns := Checked(q, now, script).1; HasTurn(turns, d) <==> !TakenOut(turns, d)
    decreases DueIds(q.events, now)
  {
    var t, q1, rest := TurnOf(q, script), AfterTurn(q, script), NextScript(q, script);
    assert t.e == q.events[0] && t.before == q.events;
    HeadIsEarliest(q, now);
    TurnKeepsOrder(q, script, now);
    CheckedStep(q, now, script);
    UnfiredTakesNothing(q, script);
    hide Checked, Ordered, AfterTurn, AllPatient, TurnOf, HasTurn, TakenOut;
    var later := Checked(q1, now, rest).1;
    ConsTurn(t, later, d);
    if t.e == d || d !in t.after {
      GoneHasNoTurn(q1, now, rest, d);
    } else {
      DueEventsHaveTheirTurn(q1, now, rest, d);
    }
  }

  lemma UnfiredTakesNothing(q: Queue, script: seq<seq<Op>>)
    requires q.events != []
    ensures var t := TurnOf(q, script); !t.fired ==> t.after == q.events
  {}

  lemma ConsTurn(t: Turn, later: seq<Turn>, d: TimerEvent)
    ensures HasTurn([t] + later, d) <==> t.e == d || HasTurn(later, d)
    ensures TakenOut([t] + later, d)
       <==> (t.fired && t.e != d && d in t.before && d !in t.after) || TakenOut(later, d)
  {
    var turns := [t] + later;
    assert turns[0] == t;
    assert forall i :: 0 <= i < |later| ==> turns[i + 1] == later[i];
    assert forall i :: 1 <= i < |turns| ==> turns[i] == later[i - 1];
  }

  /** An event that is no longer queued has no turn, is not taken out later and stays away. */
  lemma {:induction false} GoneHasNoTurn(q: Queue, now: int, script: seq<seq<Op>>, d: TimerEvent)
    requires Ordered(q) && AllPatient(script, now) && d !in q.events && (d.time < now || d.id <= q.lastId)
    ensures var (r, turns) := Checked(q, now, script);
      !HasTurn(turns, d) && !TakenOut(turns, d) && (d.id <= q.lastId ==> d !in r.events)
    decreases DueIds(q.events, now)
  {
    if q.events != [] && q.events[0].time < now {
      TurnKeepsOrder(q, script, now);
      TurnShrinksDue(q, script, now);
      ApplyAllKeepsOrder(q, Script(q, script), now);
      GoneHasNoTurn(AfterTurn(q, script), now, NextScript(q, script), d);
      ConsTurn(TurnOf(q, script), Checked(AfterTurn(q, script), now, NextScript(q, script)).1, d);
    }
  }

  /** An event that is not due stays queued unless a callback takes it out. */
  lemma {:induction false} OtherEventsStay(q: Queue, now: int, script: seq<seq<Op>>, d: TimerEvent)
    requires Ordered(q) && AllPatient(script, now) && d in q.events && d.time >= now
    ensures var (r, turns) := Checked(q, now, script); d in r.events <==> !TakenOut(turns, d)
    decreases DueIds(q.events, now)
  {
    var k :| 0 <= k < |q.events| && q.events[k] == d;
    if q.events[0].time < now {
      var t, q1, rest := TurnOf(q, script), AfterTurn(q, script), NextScript(q, script);
      HeadIsEarliest(q, now);
      TurnKeepsOrder(q, script, now);
      CheckedStep(q, now, script);
      UnfiredTakesNothing(q, script);
      ApplyAllKeepsOrder(q, Script(q, script), now);
      var (r, later) := Checked(q1, now, rest);
      ConsTurn(t, later, d);
      if d !in t.after {
        GoneHasNoTurn(q1, now, rest, d);
      } else {
        OtherEventsStay(q1, now, rest, d);
      }
    }
  }
}
