/** Delivery of an event while the receivers' callbacks subscribe, unsubscribe and destroy
    receivers, of this and of other families.
  */
module DispatcherEmit {
  import opened Wrappers
  import opened SignalSpec
  import opened DispatcherCore
  import opened DispatcherAgreement

  function RingOf(s: State, f: Family): Ring { SigOf(s.handlers, f).ring }

  // ----------------------------------------------- operations seen from one ring

  /** What an operation does to the ring of family `f`. */
  function Actions(s: State, op: Op, f: Family): seq<Action>
  {
    match EffectOf(s, op, f)
    case Nothing => []
    case Link(_) => [Connect(true)]
    case Unlink(r) => if r in s.tables && f in s.tables[r] then [Disconnect(s.tables[r][f])] else []
  }

  function ActionsAll(s: State, ops: seq<Op>, f: Family): seq<Action>
    decreases |ops|
  {
    if ops == [] then [] else Actions(s, ops[0], f) + ActionsAll(Do(s, ops[0]), ops[1..], f)
  }

  lemma {:induction false} ActionsEffect(s: State, ops: seq<Op>, f: Family)
    ensures RingOf(DoAll(s, ops), f) == ApplyAll(RingOf(s, f), ActionsAll(s, ops, f))
    ensures ConnectsIn(ActionsAll(s, ops, f)) <= |ops|
    decreases |ops|
  {
    if ops != [] {
      var a, rest := Actions(s, ops[0], f), ActionsAll(Do(s, ops[0]), ops[1..], f);
      ActionsEffect(Do(s, ops[0]), ops[1..], f);
      SignalEffect(s, ops[0], f);
      OneAction(RingOf(s, f), a);
      ApplyAllAppend(RingOf(s, f), a, rest);
      ConnectsAppend(a, rest);
    }
  }

  lemma OneAction(r: Ring, a: seq<Action>)
    requires |a| <= 1
    ensures ApplyAll(r, a) == if a == [] then r else Apply(r, a[0])
    ensures ConnectsIn(a) <= 1
  {
    if a != [] {
      assert a[1..] == [];
    }
  }

  lemma {:induction false} ConnectsAppend(a: seq<Action>, b: seq<Action>)
    ensures ConnectsIn(a + b) == ConnectsIn(a) + ConnectsIn(b)
  {
    if a == [] {
      assert a + b == b;
    } else {
      assert (a + b)[1..] == a[1..] + b;
      ConnectsAppend(a[1..], b);
    }
  }

  lemma {:induction false} StaysMute(r: Ring, acts: seq<Action>)
    requires forall a :: a in acts ==> a == Connect(true) || a.Disconnect?
    ensures ApplyAll(r, acts).mute == r.mute
    decreases |acts|
  {
    if acts != [] {
      assert acts[0] in acts;
      StaysMute(Apply(r, acts[0]), acts[1..]);
    }
  }

  lemma {:induction false} ActionsCallable(s: State, ops: seq<Op>, f: Family)
    ensures forall a :: a in ActionsAll(s, ops, f) ==> a == Connect(true) || a.Disconnect?
    decreases |ops|
  {
    if ops != [] {
      ActionsCallable(Do(s, ops[0]), ops[1..], f);
    }
  }

  // ------------------------------------------------------------------- delivery

  /** The emission has arrived at the node `id`, whose callback then does `ops`. */
  datatype Arrival = Arrival(state: State, id: nat, ops: seq<Op>)

  datatype Delivery = Delivery(state: State, arrivals: seq<Arrival>, ending: Ending)

  ghost predicate Ready(s: State, f: Family, cur: nat)
  {
    && WellFormed(RingOf(s, f)) && RingOf(s, f).mute == {0}
    && cur < RingOf(s, f).nextId && (cur == 0 || cur in RingOf(s, f).ids)
  }

  function Operations(scripts: seq<seq<Op>>): nat
  {
    if scripts == [] then 0 else |scripts[0]| + Operations(scripts[1..])
  }

  /** What the callback at `cur` does: the first script, or nothing at the head of the ring. */
  function ScriptAt(cur: nat, scripts: seq<seq<Op>>): seq<Op>
  {
    if cur == 0 || scripts == [] then [] else scripts[0]
  }

  function ScriptsAfter(cur: nat, scripts: seq<seq<Op>>): seq<seq<Op>>
  {
    if cur == 0 || scripts == [] then scripts else scripts[1..]
  }

  function CursorAfter(s: State, f: Family, cur: nat, ops: seq<Op>): Cursor
  {
    ActAll(Cursor(RingOf(s, f), cur, None), ActionsAll(s, ops, f))
  }

  lemma CursorAfterOk(s: State, f: Family, cur: nat, ops: seq<Op>)
    requires Ready(s, f, cur)
    ensures var c := CursorAfter(s, f, cur, ops);
            && CursorOk(c) && c.ring == RingOf(DoAll(s, ops), f) && c.ring.mute == {0}
            && c.cur == cur && RingOf(s, f).nextId <= c.ring.nextId <= RingOf(s, f).nextId + |ops|
            && (Target(c) in c.ring.ids ==> Ready(DoAll(s, ops), f, Target(c)) && Target(c) > cur)
  {
    ActAllOk(Cursor(RingOf(s, f), cur, None), ActionsAll(s, ops, f));
    ActionsEffect(s, ops, f);
    ActionsCallable(s, ops, f);
    StaysMute(RingOf(s, f), ActionsAll(s, ops, f));
  }

  /** The loop of `emit` in terms of the dispatcher: the callbacks are called in ring order and
      each may do anything to the dispatcher before the loop moves on. */
  function Deliver(s: State, f: Family, cur: nat, scripts: seq<seq<Op>>): Delivery
    requires Ready(s, f, cur)
    decreases RingOf(s, f).nextId + Operations(scripts) - cur
  {
    var ops := ScriptAt(cur, scripts);
    CursorAfterOk(s, f, cur, ops);
    var next := Target(CursorAfter(s, f, cur, ops));
    var s' := DoAll(s, ops);
    var here := [Arrival(s, cur, ops)];
    if next == 0 then Delivery(s', here, Completed)
    else if next !in RingOf(s', f).ids then Delivery(s', here, Dangling)
    else
      var rest := Deliver(s', f, next, ScriptsAfter(cur, scripts));
      Delivery(rest.state, here + rest.arrivals, rest.ending)
  }

  /** `emit` on a family, which creates the signal if it does not exist. */
  function EmitEvent(s: State, f: Family, scripts: seq<seq<Op>>): Delivery
    requires Agree(s)
  {
    var s0 := s.(handlers := SignalFor(s.handlers, f));
    assert FamilyOk(SigOf(s.handlers, f), View(s.tables, f));
    Deliver(s0, f, 0, scripts)
  }

  // --------------------------------------- the delivery is an emission of the ring

  function Turns(arrivals: seq<Arrival>, f: Family): seq<Turn>
  {
    if arrivals == [] then [] else
      [Turn(ActionsAll(arrivals[0].state, arrivals[0].ops, f), true)] + Turns(arrivals[1..], f)
  }

  function Visits(arrivals: seq<Arrival>, f: Family): (vs: seq<Visit>)
    ensures |vs| == |arrivals|
    ensures forall i :: 0 <= i < |vs| ==> vs[i] == Visit(RingOf(arrivals[i].state, f), arrivals[i].id)
  {
    if arrivals == [] then [] else
      [Visit(RingOf(arrivals[0].state, f), arrivals[0].id)] + Visits(arrivals[1..], f)
  }

  lemma {:induction false} ConnectsShift(t: Turn, turns: seq<Turn>, k: nat)
    ensures Connects([t] + turns, k + 1) == Connects(turns, k)
    decreases |turns| - k
  {
    if k < |turns| {
      ConnectsShift(t, turns, k + 1);
    }
  }

  /** Emission from turn `k + 1` does not depend on the turns before. */
  lemma {:induction false} EmissionShift(r: Ring, cur: nat, t: Turn, turns: seq<Turn>, k: nat)
    requires WellFormed(r) && cur < r.nextId && (cur == 0 || cur in r.ids)
    ensures Emission(r, cur, [t] + turns, k + 1) == Emission(r, cur, turns, k)
    decreases r.nextId + Connects(turns, k) - cur
  {
    assert TurnAt([t] + turns, k + 1) == TurnAt(turns, k);
    var turn := TurnOf(Visit(r, cur), turns, k);
    var c := ActAll(Cursor(r, cur, None), turn.actions);
    ActAllOk(Cursor(r, cur, None), turn.actions);
    if turn.goOn && Target(c) != 0 && Target(c) in c.ring.ids {
      EmissionShift(c.ring, Target(c), t, turns, k + 1);
    }
  }

  /** The turn of a visit at the front of the list. */
  lemma FirstTurn(r: Ring, cur: nat, t: Turn, turns: seq<Turn>)
    requires t.goOn && (cur in r.mute ==> t.actions == [])
    ensures TurnOf(Visit(r, cur), [t] + turns, 0) == t
  {
  }

  /** An emission that ends at its first node. */
  lemma EmissionEnds(r: Ring, cur: nat, t: Turn)
    requires WellFormed(r) && cur < r.nextId && (cur == 0 || cur in r.ids)
    requires t.goOn && (cur in r.mute ==> t.actions == [])
    requires var c := ActAll(Cursor(r, cur, None), t.actions); Target(c) == 0 || Target(c) !in c.ring.ids
    ensures var c := ActAll(Cursor(r, cur, None), t.actions);
            Emission(r, cur, [t], 0) == Outcome(c.ring, [Visit(r, cur)], if Target(c) == 0 then Completed else Dangling)
  {
    assert [t] + [] == [t];
    FirstTurn(r, cur, t, []);
  }

  /** One step of an emission that goes on, with the remaining turns counted from zero again. */
  lemma EmissionGoesOn(r: Ring, cur: nat, t: Turn, turns: seq<Turn>, ring: Ring, next: nat)
    requires WellFormed(r) && cur < r.nextId && (cur == 0 || cur in r.ids)
    requires t.goOn && (cur in r.mute ==> t.actions == [])
    requires var c := ActAll(Cursor(r, cur, None), t.actions); CursorOk(c) && c.ring == ring && Target(c) == next
    requires next != 0 && next in ring.ids
    ensures next < ring.nextId
    ensures var rest := Emission(ring, next, turns, 0);
            Emission(r, cur, [t] + turns, 0) == Outcome(rest.ring, [Visit(r, cur)] + rest.visits, rest.ending)
  {
    FirstTurn(r, cur, t, turns);
    EmissionNext(r, cur, [t] + turns, 0);
    EmissionShift(ring, next, t, turns, 0);
  }

  /** The delivery of an event is an emission of the family's signal: same nodes, same ring, same
      ending. */
  lemma {:induction false} DeliverIsEmission(s: State, f: Family, cur: nat, scripts: seq<seq<Op>>)
    requires Ready(s, f, cur)
    ensures var d := Deliver(s, f, cur, scripts);
            Emission(RingOf(s, f), cur, Turns(d.arrivals, f), 0)
            == Outcome(RingOf(d.state, f), Visits(d.arrivals, f), d.ending)
    decreases RingOf(s, f).nextId + Operations(scripts) - cur
  {
    var ops := ScriptAt(cur, scripts);
    var t := Turn(ActionsAll(s, ops, f), true);
    CursorAfterOk(s, f, cur, ops);
    var next, s' := Target(CursorAfter(s, f, cur, ops)), DoAll(s, ops);
    if next != 0 && next in RingOf(s', f).ids {
      DeliverIsEmission(s', f, next, ScriptsAfter(cur, scripts));
      var rest := Deliver(s', f, next, ScriptsAfter(cur, scripts));
      TurnsAndVisits(Arrival(s, cur, ops), rest.arrivals, f);
      EmissionGoesOn(RingOf(s, f), cur, t, Turns(rest.arrivals, f), RingOf(s', f), next);
    } else {
      TurnsAndVisits(Arrival(s, cur, ops), [], f);
      EmissionEnds(RingOf(s, f), cur, t);
    }
  }

  lemma TurnsAndVisits(a: Arrival, rest: seq<Arrival>, f: Family)
    ensures Turns([a] + rest, f) == [Turn(ActionsAll(a.state, a.ops, f), true)] + Turns(rest, f)
    ensures Visits([a] + rest, f) == [Visit(RingOf(a.state, f), a.id)] + Visits(rest, f)
    ensures [a] + [] == [a]
  {
    assert ([a] + rest)[1..] == rest;
  }

  // -------------------------------------------------------------- who is reached

  /** Every callback of the delivery subscribes politely. */
  predicate PoliteDelivery(arrivals: seq<Arrival>)
  {
    forall i :: 0 <= i < |arrivals| ==> AllPolite(arrivals[i].state, arrivals[i].ops)
  }

  /** The receiver called at an arrival exists, and is subscribed through the node reached. */
  ghost predicate CallsSubscriber(a: Arrival, f: Family)
  {
    var sig := SigOf(a.state.handlers, f);
    && a.id in sig.owner
    && var r := sig.owner[a.id];
       r in a.state.tables && f in a.state.tables[r] && a.state.tables[r][f] == a.id
  }

  lemma {:induction false} RunAgree(s: State, ops: seq<Op>)
    requires Agree(s) && AllPolite(s, ops)
    ensures Agree(DoAll(s, ops))
  {
    RunAgrees(s, ops, 0);
  }

  ghost predicate CallsSubscribers(arrivals: seq<Arrival>, f: Family)
  {
    forall i :: 0 <= i < |arrivals| && arrivals[i].id != 0 ==> CallsSubscriber(arrivals[i], f)
  }

  lemma CallsCons(a: Arrival, rest: seq<Arrival>, f: Family)
    requires (a.id != 0 ==> CallsSubscriber(a, f)) && CallsSubscribers(rest, f)
    ensures CallsSubscribers([a] + rest, f)
  {
  }

  lemma PoliteCons(a: Arrival, rest: seq<Arrival>)
    requires PoliteDelivery([a] + rest)
    ensures AllPolite(a.state, a.ops) && PoliteDelivery(rest)
  {
    var all := [a] + rest;
    assert all[0] == a;
    assert forall i :: 0 <= i < |rest| ==> rest[i] == all[i + 1];
  }

  /** Whatever the callbacks do to the dispatcher, a receiver is called only while it exists and
      is subscribed, and tables and rings still agree at the end. */
  lemma {:induction false} OnlySubscribersCalled(s: State, f: Family, cur: nat, scripts: seq<seq<Op>>)
    requires Ready(s, f, cur) && Agree(s) && PoliteDelivery(Deliver(s, f, cur, scripts).arrivals)
    ensures var d := Deliver(s, f, cur, scripts); Agree(d.state) && CallsSubscribers(d.arrivals, f)
    decreases RingOf(s, f).nextId + Operations(scripts) - cur
  {
    var ops := ScriptAt(cur, scripts);
    var a := Arrival(s, cur, ops);
    CursorAfterOk(s, f, cur, ops);
    assert FamilyOk(SigOf(s.handlers, f), View(s.tables, f));
    var next, s' := Target(CursorAfter(s, f, cur, ops)), DoAll(s, ops);
    if next != 0 && next in RingOf(s', f).ids {
      var rest := Deliver(s', f, next, ScriptsAfter(cur, scripts));
      PoliteCons(a, rest.arrivals);
      RunAgree(s, ops);
      OnlySubscribersCalled(s', f, next, ScriptsAfter(cur, scripts));
      CallsCons(a, rest.arrivals, f);
    } else {
      PoliteCons(a, []);
      RunAgree(s, ops);
      CallsCons(a, [], f);
    }
  }

  predicate Reached(arrivals: seq<Arrival>, id: nat) { exists i :: 0 <= i < |arrivals| && arrivals[i].id == id }

  /** The node is linked after every callback that comes before it. */
  predicate StillLinked(arrivals: seq<Arrival>, f: Family, id: nat)
  {
    forall i :: 0 <= i < |arrivals| && arrivals[i].id < id ==> LinkedAfter(arrivals[i], f, id)
  }

  predicate LinkedAfter(a: Arrival, f: Family, id: nat) { id in RingOf(DoAll(a.state, a.ops), f).ids }

  /** The delivery does not end before the node. */
  predicate NotCutShort(d: Delivery, id: nat)
  {
    d.ending == Completed || (d.arrivals != [] && id <= d.arrivals[|d.arrivals| - 1].id)
  }

  lemma ReachedCons(a: Arrival, rest: seq<Arrival>, id: nat)
    ensures Reached([a] + rest, id) <==> a.id == id || Reached(rest, id)
  {
    var all := [a] + rest;
    assert all[0] == a;
    assert forall i :: 0 <= i < |rest| ==> rest[i] == all[i + 1];
  }

  lemma LinkedCons(a: Arrival, rest: seq<Arrival>, f: Family, id: nat)
    ensures StillLinked([a] + rest, f, id) <==> (a.id < id ==> LinkedAfter(a, f, id)) && StillLinked(rest, f, id)
  {
    var all := [a] + rest;
    assert all[0] == a;
    assert forall i :: 0 <= i < |rest| ==> rest[i] == all[i + 1];
  }

  lemma LastCons(a: Arrival, d: Delivery, id: nat)
    requires d.arrivals != []
    ensures NotCutShort(d.(arrivals := [a] + d.arrivals), id) <==> NotCutShort(d, id)
  {
  }

  lemma OnlyArrival(a: Arrival, f: Family, id: nat)
    requires a.id < id
    ensures !Reached([a], id) && (StillLinked([a], f, id) <==> LinkedAfter(a, f, id))
  {
    assert [a][0] == a;
  }

  lemma ArrivalOrder(s: State, f: Family, cur: nat, scripts: seq<seq<Op>>)
    requires Ready(s, f, cur)
    ensures var arrivals := Deliver(s, f, cur, scripts).arrivals;
            && arrivals != [] && arrivals[0].id == cur
            && forall i, j :: 0 <= i < j < |arrivals| ==> arrivals[i].id < arrivals[j].id
  {
    var d := Deliver(s, f, cur, scripts);
    DeliverIsEmission(s, f, cur, scripts);
    VisitOrder(RingOf(s, f), cur, Turns(d.arrivals, f), 0);
    var vs := Visits(d.arrivals, f);
    assert forall i :: 0 <= i < |d.arrivals| ==> vs[i].id == d.arrivals[i].id;
  }

  lemma NotReached(s: State, f: Family, cur: nat, scripts: seq<seq<Op>>, id: nat)
    requires Ready(s, f, cur)
    requires id != cur && id != 0 && id !in RingOf(s, f).ids && id < RingOf(s, f).nextId
    ensures !Reached(Deliver(s, f, cur, scripts).arrivals, id)
  {
    var d := Deliver(s, f, cur, scripts);
    DeliverIsEmission(s, f, cur, scripts);
    UnlinkedNotVisited(RingOf(s, f), cur, Turns(d.arrivals, f), 0, id);
    var vs := Visits(d.arrivals, f);
    CallsAreVisits(vs, id);
    assert forall i :: 0 <= i < |d.arrivals| ==> vs[i].id == d.arrivals[i].id;
  }

  /** The loop does not step past a linked node. */
  lemma NextNotPast(s: State, f: Family, cur: nat, ops: seq<Op>, id: nat)
    requires Ready(s, f, cur) && id in RingOf(s, f).ids && id > cur
    ensures var c := CursorAfter(s, f, cur, ops);
            && id < RingOf(DoAll(s, ops), f).nextId
            && (LinkedAfter(Arrival(s, cur, ops), f, id) ==> cur < Target(c) <= id)
  {
    CursorAfterOk(s, f, cur, ops);
    ActionsEffect(s, ops, f);
    StaysLinked(RingOf(s, f), ActionsAll(s, ops, f), id);
    if LinkedAfter(Arrival(s, cur, ops), f, id) {
      TargetNotPast(Cursor(RingOf(s, f), cur, None), ActionsAll(s, ops, f), id);
    }
  }

  /** A node linked when the delivery is at `cur` is reached exactly if the callbacks before it
      leave it linked and the delivery does not end before it. */
  lemma {:induction false} ReachedExact(s: State, f: Family, cur: nat, scripts: seq<seq<Op>>, id: nat)
    requires Ready(s, f, cur) && id in RingOf(s, f).ids && id >= cur
    ensures var d := Deliver(s, f, cur, scripts);
            Reached(d.arrivals, id) <==> StillLinked(d.arrivals, f, id) && NotCutShort(d, id)
    decreases RingOf(s, f).nextId + Operations(scripts) - cur
  {
    if id == cur {
      FirstReached(s, f, cur, scripts);
    } else {
      var ops := ScriptAt(cur, scripts);
      var a := Arrival(s, cur, ops);
      CursorAfterOk(s, f, cur, ops);
      NextNotPast(s, f, cur, ops, id);
      var next, s' := Target(CursorAfter(s, f, cur, ops)), DoAll(s, ops);
      if next != 0 && next in RingOf(s', f).ids {
        var rest := Deliver(s', f, next, ScriptsAfter(cur, scripts));
        ArrivalOrder(s', f, next, ScriptsAfter(cur, scripts));
        ReachedCons(a, rest.arrivals, id);
        LinkedCons(a, rest.arrivals, f, id);
        LastCons(a, rest, id);
        if LinkedAfter(a, f, id) {
          ReachedExact(s', f, next, ScriptsAfter(cur, scripts), id);
        } else {
          NotReached(s', f, next, ScriptsAfter(cur, scripts), id);
        }
      } else {
        OnlyArrival(a, f, id);
      }
    }
  }

  lemma FirstReached(s: State, f: Family, cur: nat, scripts: seq<seq<Op>>)
    requires Ready(s, f, cur)
    ensures var d := Deliver(s, f, cur, scripts);
            Reached(d.arrivals, cur) && StillLinked(d.arrivals, f, cur) && NotCutShort(d, cur)
  {
    ArrivalOrder(s, f, cur, scripts);
  }

}
