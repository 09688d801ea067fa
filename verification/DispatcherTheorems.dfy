/** What an `emit` of the dispatcher reaches. */
module DispatcherTheorems {
  import opened SignalSpec
  import opened DispatcherCore
  import opened DispatcherAgreement
  import opened DispatcherEmit

  // ------------------------------------------------- a subscription, by its receiver

  predicate Entry(s: State, r: Rid, f: Family, id: nat)
  {
    r in s.tables && f in s.tables[r] && s.tables[r][f] == id
  }

  predicate OwnedBy(s: State, f: Family, id: nat, r: Rid)
  {
    var sig := SigOf(s.handlers, f);
    id < sig.ring.nextId && id in sig.owner && sig.owner[id] == r
  }

  lemma {:induction false} OwnerKept(s: State, ops: seq<Op>, f: Family, id: nat, r: Rid)
    requires OwnedBy(s, f, id, r)
    ensures OwnedBy(DoAll(s, ops), f, id, r)
    decreases |ops|
  {
    if ops != [] {
      SignalEffect(s, ops[0], f);
      OwnerKept(Do(s, ops[0]), ops[1..], f, id, r);
    }
  }

  /** A node is linked exactly while the table of its receiver has the entry. */
  lemma LinkedIffEntered(s: State, f: Family, id: nat, r: Rid)
    requires Agree(s) && OwnedBy(s, f, id, r)
    ensures id in RingOf(s, f).ids <==> Entry(s, r, f, id)
  {
    var view := View(s.tables, f);
    assert FamilyOk(SigOf(s.handlers, f), view);
    if Entry(s, r, f, id) {
      assert r in view && view[r] == id;
    }
  }

  /** No callback before the node removes the receiver's subscription, by unsubscribing it or by
      destroying the receiver. */
  predicate StillSubscribed(arrivals: seq<Arrival>, f: Family, r: Rid, id: nat)
  {
    forall i :: 0 <= i < |arrivals| && arrivals[i].id < id ==>
      Entry(DoAll(arrivals[i].state, arrivals[i].ops), r, f, id)
  }

  lemma SubscribedCons(a: Arrival, rest: seq<Arrival>, f: Family, r: Rid, id: nat)
    ensures StillSubscribed([a] + rest, f, r, id) <==>
              (a.id < id ==> Entry(DoAll(a.state, a.ops), r, f, id)) && StillSubscribed(rest, f, r, id)
  {
    var all := [a] + rest;
    assert all[0] == a;
    assert forall i :: 0 <= i < |rest| ==> rest[i] == all[i + 1];
  }

  lemma {:induction false} LinkedIffSubscribed(s: State, f: Family, cur: nat, scripts: seq<seq<Op>>, id: nat, r: Rid)
    requires Ready(s, f, cur) && Agree(s) && OwnedBy(s, f, id, r)
    requires PoliteDelivery(Deliver(s, f, cur, scripts).arrivals)
    ensures var arrivals := Deliver(s, f, cur, scripts).arrivals;
            StillLinked(arrivals, f, id) <==> StillSubscribed(arrivals, f, r, id)
    decreases RingOf(s, f).nextId + Operations(scripts) - cur
  {
    var ops := ScriptAt(cur, scripts);
    var a := Arrival(s, cur, ops);
    CursorAfterOk(s, f, cur, ops);
    var next, s' := Target(CursorAfter(s, f, cur, ops)), DoAll(s, ops);
    var more := if next == 0 || next !in RingOf(s', f).ids then [] else
                  Deliver(s', f, next, ScriptsAfter(cur, scripts)).arrivals;
    assert Deliver(s, f, cur, scripts).arrivals == [a] + more;
    PoliteCons(a, more);
    RunAgree(s, ops);
    OwnerKept(s, ops, f, id, r);
    LinkedIffEntered(s', f, id, r);
    SubscribedCons(a, more, f, r, id);
    LinkedCons(a, more, f, id);
    if more != [] {
      LinkedIffSubscribed(s', f, next, ScriptsAfter(cur, scripts), id, r);
    }
  }

  // ------------------------------------------------------------------ main results

  lemma EmitReady(s: State, f: Family)
    requires Agree(s)
    ensures var s0 := s.(handlers := SignalFor(s.handlers, f));
            Agree(s0) && Ready(s0, f, 0) && SigOf(s0.handlers, f) == SigOf(s.handlers, f)
  {
    var s0 := s.(handlers := SignalFor(s.handlers, f));
    forall g
      ensures FamilyOk(SigOf(s0.handlers, g), View(s0.tables, g))
    {
      assert FamilyOk(SigOf(s.handlers, g), View(s.tables, g));
    }
    assert FamilyOk(SigOf(s0.handlers, f), View(s0.tables, f));
  }

  /** `emit`, with callbacks that do anything politely: receivers are called in the order of their
      connections, each call goes to a receiver that exists and is subscribed at that moment, and
      a receiver subscribed at the start is called exactly if no earlier callback unsubscribes or
      destroys it and the delivery is not cut short. */
  lemma EmitReaches(s: State, f: Family, scripts: seq<seq<Op>>, r: Rid)
    requires Agree(s) && PoliteDelivery(EmitEvent(s, f, scripts).arrivals)
    ensures var d := EmitEvent(s, f, scripts);
            && Agree(d.state) && CallsSubscribers(d.arrivals, f)
            && (forall i, j :: 0 <= i < j < |d.arrivals| ==> d.arrivals[i].id < d.arrivals[j].id)
            && (r in s.tables && f in s.tables[r] ==>
                  var id := s.tables[r][f];
                  Reached(d.arrivals, id) <==> StillSubscribed(d.arrivals, f, r, id) && NotCutShort(d, id))
  {
    EmitReady(s, f);
    var s0 := s.(handlers := SignalFor(s.handlers, f));
    OnlySubscribersCalled(s0, f, 0, scripts);
    ArrivalOrder(s0, f, 0, scripts);
    if r in s.tables && f in s.tables[r] {
      var id := s.tables[r][f];
      assert FamilyOk(SigOf(s.handlers, f), View(s.tables, f)) && View(s.tables, f)[r] == id;
      ReachedExact(s0, f, 0, scripts, id);
      LinkedIffSubscribed(s0, f, 0, scripts, id, r);
    }
  }

  /** From `from` on, the callbacks do what the scripts say, one script each, and each starts with the
      dispatcher as the one before leaves it. */
  predicate DoesScripts(arrivals: seq<Arrival>, scripts: seq<seq<Op>>, from: State, to: State)
    decreases |arrivals|
  {
    if arrivals == [] then from == to
    else
      var a, silent := arrivals[0], arrivals[0].id == 0 || scripts == [];
      && a.state == from && a.ops == (if silent then [] else scripts[0])
      && DoesScripts(arrivals[1..], if silent then scripts else scripts[1..], DoAll(from, a.ops), to)
  }

  lemma {:induction false} DeliverDoesScripts(s: State, f: Family, cur: nat, scripts: seq<seq<Op>>)
    requires Ready(s, f, cur)
    ensures var d := Deliver(s, f, cur, scripts); DoesScripts(d.arrivals, scripts, s, d.state)
    decreases RingOf(s, f).nextId + Operations(scripts) - cur
  {
    var ops := ScriptAt(cur, scripts);
    CursorAfterOk(s, f, cur, ops);
    var next, s' := Target(CursorAfter(s, f, cur, ops)), DoAll(s, ops);
    var d := Deliver(s, f, cur, scripts);
    if next != 0 && next in RingOf(s', f).ids {
      DeliverDoesScripts(s', f, next, ScriptsAfter(cur, scripts));
      assert d.arrivals[1..] == Deliver(s', f, next, ScriptsAfter(cur, scripts)).arrivals;
    } else {
      assert d.arrivals == [Arrival(s, cur, ops)] && d.arrivals[1..] == [];
    }
  }

  /** `emit` changes nothing but what the callbacks change; at most a signal is created. */
  lemma EmitDoesScripts(s: State, f: Family, scripts: seq<seq<Op>>)
    requires Agree(s)
    ensures var d := EmitEvent(s, f, scripts);
            DoesScripts(d.arrivals, scripts, s.(handlers := SignalFor(s.handlers, f)), d.state)
  {
    EmitReady(s, f);
    DeliverDoesScripts(s.(handlers := SignalFor(s.handlers, f)), f, 0, scripts);
  }

  /** What the callback of an arrival does to its own signal. */
  function OwnActions(a: Arrival, f: Family): seq<Action> { ActionsAll(a.state, a.ops, f) }

  /** The callback unlinks its own node and afterwards the successor the node had then. */
  ghost predicate Reckless(a: Arrival, f: Family)
  {
    UnlinksFrozenSuccessor(RingOf(a.state, f), a.id, OwnActions(a, f))
  }

  /** The delivery steps to a deleted node exactly if some callback unsubscribes its own receiver
      and afterwards the one that followed it then. */
  lemma EmitSafe(s: State, f: Family, scripts: seq<seq<Op>>)
    requires Agree(s)
    ensures var d := EmitEvent(s, f, scripts);
            d.ending == Dangling <==>
              exists i :: 0 <= i < |d.arrivals| && Reckless(d.arrivals[i], f)
  {
    EmitReady(s, f);
    var s0 := s.(handlers := SignalFor(s.handlers, f));
    DeliverSafe(s0, f, 0, scripts);
  }

  lemma {:induction false} DeliverSafe(s: State, f: Family, cur: nat, scripts: seq<seq<Op>>)
    requires Ready(s, f, cur)
    ensures var d := Deliver(s, f, cur, scripts);
            d.ending == Dangling <==> exists i :: 0 <= i < |d.arrivals| && Reckless(d.arrivals[i], f)
    decreases RingOf(s, f).nextId + Operations(scripts) - cur
  {
    var ops := ScriptAt(cur, scripts);
    var a := Arrival(s, cur, ops);
    CursorAfterOk(s, f, cur, ops);
    DanglingExact(RingOf(s, f), cur, ActionsAll(s, ops, f));
    var next, s' := Target(CursorAfter(s, f, cur, ops)), DoAll(s, ops);
    if next != 0 && next in RingOf(s', f).ids {
      DeliverSafe(s', f, next, ScriptsAfter(cur, scripts));
      RecklessCons(a, Deliver(s', f, next, ScriptsAfter(cur, scripts)).arrivals, f);
    } else {
      RecklessCons(a, [], f);
    }
  }

  lemma RecklessCons(a: Arrival, rest: seq<Arrival>, f: Family)
    ensures (exists i :: 0 <= i < |[a] + rest| && Reckless(([a] + rest)[i], f)) <==>
              Reckless(a, f) || exists i :: 0 <= i < |rest| && Reckless(rest[i], f)
  {
    var all := [a] + rest;
    assert all[0] == a;
    assert forall i :: 0 <= i < |rest| ==> rest[i] == all[i + 1];
  }

  /** Two unsubscriptions of different receivers, seen from the ring. */
  lemma UnsubscribeTwo(s: State, f: Family, r1: Rid, r2: Rid)
    requires r1 != r2 && r1 in s.tables && f in s.tables[r1] && r2 in s.tables && f in s.tables[r2]
    ensures ActionsAll(s, [Unsubscribe(r1, f), Unsubscribe(r2, f)], f) ==
            [Disconnect(s.tables[r1][f]), Disconnect(s.tables[r2][f])]
  {
    var ops := [Unsubscribe(r1, f), Unsubscribe(r2, f)];
    var s1 := Do(s, ops[0]);
    assert ops[1..] == [Unsubscribe(r2, f)] && ops[1..][1..] == [];
    assert Actions(s, ops[0], f) == [Disconnect(s.tables[r1][f])];
    assert Actions(s1, ops[1], f) == [Disconnect(s.tables[r2][f])];
    assert ActionsAll(s1, ops[1..], f) == Actions(s1, ops[1], f) + ActionsAll(Do(s1, ops[1]), [], f);
    assert ActionsAll(Do(s1, ops[1]), [], f) == [];
  }

  /** That happens as soon as a family has two subscribers: the first unsubscribes itself and then
      the second. */
  lemma SelfThenNextDangles(s: State, f: Family, r1: Rid, r2: Rid)
    requires Agree(s) && |Subscribers(s, f)| >= 2 && Subscribers(s, f)[0] == r1 && Subscribers(s, f)[1] == r2
    ensures EmitEvent(s, f, [[Unsubscribe(r1, f), Unsubscribe(r2, f)]]).ending == Dangling
  {
    assert FamilyOk(SigOf(s.handlers, f), View(s.tables, f));
    EmitReady(s, f);
    var s0, script := s.(handlers := SignalFor(s.handlers, f)), [Unsubscribe(r1, f), Unsubscribe(r2, f)];
    var ids := RingOf(s, f).ids;
    FirstTwo(ids);
    assert ids[0] in ids && ids[1] in ids;
    UnsubscribeTwo(s0, f, r1, r2);
    UnlinkTwo(RingOf(s0, f), ids[0], ids[1]);
    SecondDangles(s0, f, ids[0], script);
    assert ScriptAt(0, [script]) == [] && ActionsAll(s0, [], f) == [];
    assert Deliver(s0, f, 0, [script]).ending == Deliver(s0, f, ids[0], [script]).ending;
  }

  /** The delivery ends at a callback that leaves it with a deleted target. */
  lemma SecondDangles(s: State, f: Family, cur: nat, script: seq<Op>)
    requires Ready(s, f, cur) && cur != 0
    requires var c := CursorAfter(s, f, cur, script); Target(c) != 0 && Target(c) !in c.ring.ids
    ensures Deliver(s, f, cur, [script]).ending == Dangling
  {
    CursorAfterOk(s, f, cur, script);
  }

  lemma FourOps(s: State, a: Op, b: Op, c: Op, d: Op)
    ensures DoAll(s, [a, b, c, d]) == Do(Do(Do(Do(s, a), b), c), d)
    ensures AllPolite(s, [a, b, c, d]) <==>
              Polite(s, a) && Polite(Do(s, a), b) && Polite(Do(Do(s, a), b), c) && Polite(Do(Do(Do(s, a), b), c), d)
  {
    var ops, s2 := [a, b, c, d], Do(Do(s, a), b);
    assert ops[1..] == [b, c, d] && [b, c, d][1..] == [c, d] && [c, d][1..] == [d] && [d][1..] == [];
    assert DoAll(s2, [c, d]) == DoAll(Do(s2, c), [d]) == Do(Do(s2, c), d);
    assert AllPolite(s2, [c, d]) <==> Polite(s2, c) && AllPolite(Do(s2, c), [d]);
    assert AllPolite(Do(s2, c), [d]) <==> Polite(Do(s2, c), d);
  }

  lemma TwoSubscribers(s: State, f: Family, r1: Rid, r2: Rid)
    requires Agree(s) && r1 != r2 && r1 in s.tables && f !in s.tables[r1] && r2 in s.tables && f !in s.tables[r2]
    ensures var s1 := Do(s, Subscribe(r1, f));
            var s2 := Do(s1, Subscribe(r2, f));
            && Polite(s, Subscribe(r1, f)) && Polite(s1, Subscribe(r2, f))
            && Agree(s2) && Subscribers(s2, f) == Subscribers(s, f) + [r1] + [r2]
  {
    StepSubscribers(s, Subscribe(r1, f), f);
    StepSubscribers(Do(s, Subscribe(r1, f)), Subscribe(r2, f), f);
  }

  lemma TwoReceivers(f: Family)
    ensures var s := Do(Do(EMPTY, Create(1)), Create(2));
            Agree(s) && s == State([], map[1 := map[], 2 := map[]]) && Subscribers(s, f) == []
  {
    EmptyAgrees();
    StepAgree(EMPTY, Create(1));
    StepAgree(Do(EMPTY, Create(1)), Create(2));
  }

  /** Two receivers that subscribe once each bring that about. */
  lemma TwoSubscribersDangle(f: Family)
    ensures var history := [Create(1), Create(2), Subscribe(1, f), Subscribe(2, f)];
            && AllPolite(EMPTY, history) && Agree(DoAll(EMPTY, history))
            && EmitEvent(DoAll(EMPTY, history), f, [[Unsubscribe(1, f), Unsubscribe(2, f)]]).ending == Dangling
  {
    FourOps(EMPTY, Create(1), Create(2), Subscribe(1, f), Subscribe(2, f));
    TwoReceivers(f);
    var s := Do(Do(EMPTY, Create(1)), Create(2));
    TwoSubscribers(s, f, 1, 2);
    SelfThenNextDangles(Do(Do(s, Subscribe(1, f)), Subscribe(2, f)), f, 1, 2);
  }

  // ------------------------------------------------- callbacks that only look

  /** The receivers called, in order. */
  function Called(arrivals: seq<Arrival>, f: Family): seq<Rid>
    requires CallsSubscribersHere(arrivals, f)
  {
    if arrivals == [] then [] else
      (if arrivals[0].id == 0 then [] else [SigOf(arrivals[0].state.handlers, f).owner[arrivals[0].id]])
      + Called(arrivals[1..], f)
  }

  predicate CallsSubscribersHere(arrivals: seq<Arrival>, f: Family)
  {
    forall i :: 0 <= i < |arrivals| && arrivals[i].id != 0 ==>
      arrivals[i].id in SigOf(arrivals[i].state.handlers, f).owner
  }

  /** The ids from `c` on. */
  function From(ids: seq<nat>, c: nat): (r: seq<nat>)
    ensures forall x :: x in r ==> x in ids
  {
    if ids == [] || ids[0] >= c then ids else From(ids[1..], c)
  }

  lemma {:induction false} FromNext(ids: seq<nat>, c: nat)
    requires Increasing(ids) && (forall x :: x in ids ==> x >= 1) && (c == 0 || c in ids)
    ensures var n := NextAfter(ids, c);
            From(ids, c) == (if c == 0 then [] else [c]) + (if n == 0 then [] else From(ids, n))
  {
    if ids != [] {
      assert ids[0] in ids && forall x :: x in ids[1..] ==> x in ids;
      assert forall x :: x in ids[1..] ==> x > ids[0];
      if c > ids[0] {
        FromNext(ids[1..], c);
      } else if c == ids[0] {
        FromFirst(ids[1..], c);
        assert ids == [c] + ids[1..];
      }
    }
  }

  lemma FromFirst(ids: seq<nat>, c: nat)
    requires Increasing(ids) && forall x :: x in ids ==> x > c
    ensures NextAfter(ids, c) == if ids == [] then 0 else ids[0]
    ensures ids != [] ==> From(ids, ids[0]) == ids
  {
    if ids != [] {
      assert ids[0] in ids;
    }
  }

  lemma OwnersAppend(a: seq<nat>, b: seq<nat>, owner: map<nat, Rid>)
    ensures Owners(a + b, owner) == Owners(a, owner) + Owners(b, owner)
  {
  }

  lemma CalledCons(a: Arrival, rest: seq<Arrival>, f: Family)
    requires CallsSubscribersHere(rest, f) && (a.id != 0 ==> a.id in SigOf(a.state.handlers, f).owner)
    ensures CallsSubscribersHere([a] + rest, f)
    ensures Called([a] + rest, f) ==
            (if a.id == 0 then [] else [SigOf(a.state.handlers, f).owner[a.id]]) + Called(rest, f)
  {
    assert ([a] + rest)[1..] == rest;
  }

  lemma {:induction false} QuietDeliver(s: State, f: Family, cur: nat)
    requires Ready(s, f, cur) && forall id :: id in RingOf(s, f).ids ==> id in SigOf(s.handlers, f).owner
    ensures var d := Deliver(s, f, cur, []);
            && CallsSubscribersHere(d.arrivals, f) && d.ending == Completed && d.state == s
            && Called(d.arrivals, f) == Owners(From(RingOf(s, f).ids, cur), SigOf(s.handlers, f).owner)
    decreases RingOf(s, f).nextId - cur
  {
    var ids, owner := RingOf(s, f).ids, SigOf(s.handlers, f).owner;
    var a := Arrival(s, cur, []);
    CursorAfterOk(s, f, cur, []);
    var next := NextAfter(ids, cur);
    assert Target(CursorAfter(s, f, cur, [])) == next;
    FromNext(ids, cur);
    if next == 0 {
      CalledCons(a, [], f);
      assert [a] + [] == [a];
    } else {
      QuietDeliver(s, f, next);
      CalledCons(a, Deliver(s, f, next, []).arrivals, f);
      OwnersAppend(if cur == 0 then [] else [cur], From(ids, next), owner);
      assert Deliver(s, f, cur, []).arrivals == [a] + Deliver(s, f, next, []).arrivals;
    }
  }

  lemma QuietEmit(s: State, f: Family)
    requires Agree(s)
    ensures var d := EmitEvent(s, f, []);
            CallsSubscribersHere(d.arrivals, f) && Called(d.arrivals, f) == Subscribers(s, f)
  {
    assert FamilyOk(SigOf(s.handlers, f), View(s.tables, f));
    EmitReady(s, f);
    QuietDeliver(s.(handlers := SignalFor(s.handlers, f)), f, 0);
    FromStart(RingOf(s, f).ids);
  }

  lemma FromStart(ids: seq<nat>)
    ensures From(ids, 0) == ids
  {
  }

  /** After any polite history, an event whose callbacks leave the dispatcher alone is delivered to
      exactly the subscribers of its family, each once, in the order of subscription. */
  lemma EventReachesSubscribers(ops: seq<Op>, f: Family)
    requires AllPolite(EMPTY, ops)
    ensures Agree(DoAll(EMPTY, ops))
    ensures var d := EmitEvent(DoAll(EMPTY, ops), f, []);
            CallsSubscribersHere(d.arrivals, f) && Called(d.arrivals, f) == ListedAll([], {}, ops, f)
  {
    EmptyAgrees();
    RunAgrees(EMPTY, ops, f);
    NobodyYet(f);
    QuietEmit(DoAll(EMPTY, ops), f);
  }

  lemma NobodyYet(f: Family)
    ensures Subscribers(EMPTY, f) == [] && EMPTY.tables.Keys == {}
  {
  }
}
