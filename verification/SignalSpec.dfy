/** Emission of a signal whose callbacks connect and disconnect handlers, on values.

    A node is named by its connection id.  The head of the ring has id 0; `connect` hands out
    increasing ids, so connection order is the order of ids (network/msgbus/msg_signal.hpp).
  */
module SignalSpec {
  import opened Wrappers

  /** The linked nodes after the head, the next id to hand out, and the ids of nodes that hold
      no function (`function == 0`). */
  datatype Ring = Ring(ids: seq<nat>, nextId: nat, mute: set<nat>)

  predicate Increasing(ids: seq<nat>) { forall i, j :: 0 <= i < j < |ids| ==> ids[i] < ids[j] }

  ghost predicate WellFormed(r: Ring)
  {
    && r.nextId >= 1 && Increasing(r.ids)
    && (forall i :: 0 <= i < |r.ids| ==> 1 <= r.ids[i] < r.nextId)
    && (forall m :: m in r.mute ==> m < r.nextId)
  }

  /** What a callback may do to the signal that is calling it. */
  datatype Action = Connect(callable: bool) | Disconnect(id: nat)

  /** One callback invocation: its actions in order, and whether the collector goes on. */
  datatype Turn = Turn(actions: seq<Action>, goOn: bool)

  function Without(ids: seq<nat>, id: nat): (r: seq<nat>)
    ensures forall x :: x in r <==> x in ids && x != id
    ensures Increasing(ids) ==> Increasing(r)
  {
    if ids == [] then [] else
      var rest := Without(ids[1..], id);
      assert forall x :: x in ids <==> x == ids[0] || x in ids[1..];
      assert Increasing(ids) ==> Increasing(ids[1..]);
      assert Increasing(ids) ==> forall i :: 0 <= i < |rest| ==> rest[i] in ids[1..] && ids[0] < rest[i];
      if ids[0] == id then rest else [ids[0]] + rest
  }

  function Apply(r: Ring, a: Action): Ring
  {
    match a
    case Connect(callable) =>
      Ring(r.ids + [r.nextId], r.nextId + 1, if callable then r.mute else r.mute + {r.nextId})
    case Disconnect(id) => r.(ids := Without(r.ids, id))
  }

  function ApplyAll(r: Ring, acts: seq<Action>): Ring
    decreases |acts|
  {
    if acts == [] then r else ApplyAll(Apply(r, acts[0]), acts[1..])
  }

  /** The id that follows `c` in the ring, 0 for the head. */
  function NextAfter(ids: seq<nat>, c: nat): (r: nat)
    ensures r != 0 ==> r in ids && r > c
    ensures Increasing(ids) && r != 0 ==> forall x :: x in ids && x > c ==> r <= x
    ensures r == 0 ==> forall x :: x in ids ==> x <= c
  {
    if ids == [] then 0 else
      assert forall x :: x in ids <==> x == ids[0] || x in ids[1..];
      if ids[0] > c then ids[0] else NextAfter(ids[1..], c)
  }

  /** The position of an emission: the current node, and its frozen successor once the node has
      been unlinked (`unlink` leaves `next` intact). */
  datatype Cursor = Cursor(ring: Ring, cur: nat, frozen: Option<nat>)

  function Act(c: Cursor, a: Action): Cursor
  {
    Cursor(Apply(c.ring, a), c.cur,
           if a == Disconnect(c.cur) && c.cur in c.ring.ids then Some(NextAfter(c.ring.ids, c.cur)) else c.frozen)
  }

  function ActAll(c: Cursor, acts: seq<Action>): Cursor
    decreases |acts|
  {
    if acts == [] then c else ActAll(Act(c, acts[0]), acts[1..])
  }

  /** Where `link->next` leads. */
  function Target(c: Cursor): nat
  {
    if c.frozen.Some? then c.frozen.value else NextAfter(c.ring.ids, c.cur)
  }

  function TurnAt(turns: seq<Turn>, k: nat): Turn { if k < |turns| then turns[k] else Turn([], true) }

  /** A handler the emission arrived at, with the ring as it was then. */
  datatype Visit = Visit(ring: Ring, id: nat)

  datatype Ending = Completed | Stopped | Dangling

  /** `Dangling` is the ending in which the loop steps to a node that has been deleted. */
  datatype Outcome = Outcome(ring: Ring, visits: seq<Visit>, ending: Ending)

  function Connects(turns: seq<Turn>, k: nat): nat
    decreases |turns| - k
  {
    if k >= |turns| then 0 else ConnectsIn(turns[k].actions) + Connects(turns, k + 1)
  }

  function ConnectsIn(acts: seq<Action>): nat
  {
    if acts == [] then 0 else (if acts[0].Connect? then 1 else 0) + ConnectsIn(acts[1..])
  }

  lemma ApplyWellFormed(r: Ring, a: Action)
    requires WellFormed(r)
    ensures WellFormed(Apply(r, a))
  {
    if a.Disconnect? {
      forall i | 0 <= i < |Without(r.ids, a.id)|
        ensures 1 <= Without(r.ids, a.id)[i] < r.nextId
      {
        assert Without(r.ids, a.id)[i] in r.ids;
      }
    }
  }

  /** Facts about a cursor during one callback. */
  ghost predicate CursorOk(c: Cursor)
  {
    && WellFormed(c.ring) && c.cur < c.ring.nextId
    && (c.frozen.None? ==> c.cur == 0 || c.cur in c.ring.ids)
    && (c.frozen.Some? ==> c.cur !in c.ring.ids && (c.frozen.value == 0 || c.cur < c.frozen.value < c.ring.nextId))
  }

  lemma ActOk(c: Cursor, a: Action)
    requires CursorOk(c)
    ensures CursorOk(Act(c, a))
  {
    ApplyWellFormed(c.ring, a);
  }

  lemma {:induction false} ActAllOk(c: Cursor, acts: seq<Action>)
    requires CursorOk(c)
    ensures CursorOk(ActAll(c, acts))
    ensures ActAll(c, acts).cur == c.cur
    ensures ActAll(c, acts).ring == ApplyAll(c.ring, acts)
    ensures ActAll(c, acts).ring.nextId == c.ring.nextId + ConnectsIn(acts)
    decreases |acts|
  {
    if acts != [] {
      ActOk(c, acts[0]);
      ActAllOk(Act(c, acts[0]), acts[1..]);
    }
  }

  /** The loop of `emit` from the node with id `cur`; turn `k` belongs to the k-th visit. */
  function Emission(r: Ring, cur: nat, turns: seq<Turn>, k: nat): Outcome
    requires WellFormed(r) && cur < r.nextId && (cur == 0 || cur in r.ids)
    decreases r.nextId + Connects(turns, k) - cur
  {
    var start := Cursor(r, cur, None);
    var turn := if cur in r.mute then Turn([], true) else TurnAt(turns, k);
    ActAllOk(start, turn.actions);
    var c := ActAll(start, turn.actions);
    var here := [Visit(r, cur)];
    var next := Target(c);
    if !turn.goOn then Outcome(c.ring, here, Stopped)
    else if next == 0 then Outcome(c.ring, here, Completed)
    else if next !in c.ring.ids then Outcome(c.ring, here, Dangling)
    else
      var rest := Emission(c.ring, next, turns, k + 1);
      Outcome(rest.ring, here + rest.visits, rest.ending)
  }

  /** `emit` on the whole signal. */
  function Emit(r: Ring, turns: seq<Turn>): Outcome
    requires WellFormed(r)
  {
    Emission(r, 0, turns, 0)
  }

  // ---------------------------------------------------------------- safety

  /** The callback unlinks its own node `cur` and afterwards the successor `cur` had then. */
  ghost predicate UnlinksFrozenSuccessor(r: Ring, cur: nat, acts: seq<Action>)
  {
    cur in r.ids &&
    exists i, j :: 0 <= i < j < |acts| && FirstUnlink(cur, acts, i) &&
      acts[j] == Disconnect(NextAfter(ApplyAll(r, acts[..i]).ids, cur)) &&
      NextAfter(ApplyAll(r, acts[..i]).ids, cur) != 0
  }

  predicate FirstUnlink(cur: nat, acts: seq<Action>, i: nat)
    requires i < |acts|
  {
    acts[i] == Disconnect(cur) && forall m :: 0 <= m < i ==> acts[m] != Disconnect(cur)
  }

  lemma {:induction false} ApplyAllAppend(r: Ring, acts: seq<Action>, more: seq<Action>)
    ensures ApplyAll(r, acts + more) == ApplyAll(ApplyAll(r, acts), more)
    decreases |acts|
  {
    if acts == [] {
      assert acts + more == more;
    } else {
      assert (acts + more)[1..] == acts[1..] + more;
      ApplyAllAppend(Apply(r, acts[0]), acts[1..], more);
    }
  }

  lemma {:induction false} ActAllAppend(c: Cursor, acts: seq<Action>, more: seq<Action>)
    ensures ActAll(c, acts + more) == ActAll(ActAll(c, acts), more)
    decreases |acts|
  {
    if acts == [] {
      assert acts + more == more;
    } else {
      assert (acts + more)[1..] == acts[1..] + more;
      ActAllAppend(Act(c, acts[0]), acts[1..], more);
    }
  }

  /** An id below `nextId` stays linked until some action disconnects it. */
  lemma {:induction false} StaysLinked(r: Ring, acts: seq<Action>, h: nat)
    requires h < r.nextId
    ensures h in ApplyAll(r, acts).ids <==> h in r.ids && Disconnect(h) !in acts
    decreases |acts|
  {
    if acts != [] {
      StaysLinked(Apply(r, acts[0]), acts[1..], h);
    }
  }

  /** While the node is linked nothing is frozen ... */
  lemma {:induction false} NotFrozen(c: Cursor, acts: seq<Action>)
    requires Disconnect(c.cur) !in acts
    ensures ActAll(c, acts).frozen == c.frozen && ActAll(c, acts).cur == c.cur
    decreases |acts|
  {
    if acts != [] {
      NotFrozen(Act(c, acts[0]), acts[1..]);
    }
  }

  /** ... and once it is unlinked its successor no longer changes. */
  lemma {:induction false} StaysFrozen(c: Cursor, acts: seq<Action>)
    requires CursorOk(c) && c.frozen.Some?
    ensures ActAll(c, acts).frozen == c.frozen
    decreases |acts|
  {
    if acts != [] {
      ActOk(c, acts[0]);
      StaysFrozen(Act(c, acts[0]), acts[1..]);
    }
  }

  lemma {:induction false} FindFirstUnlink(cur: nat, acts: seq<Action>) returns (i: nat)
    requires Disconnect(cur) in acts
    ensures i < |acts| && FirstUnlink(cur, acts, i)
  {
    i := 0;
    while acts[i] != Disconnect(cur)
      invariant i < |acts| && forall m :: 0 <= m < i ==> acts[m] != Disconnect(cur)
      decreases |acts| - i
    {
      i := i + 1;
    }
  }

  /** The cursor once the callback has unlinked its own node at action `i`. */
  lemma AtUnlink(r: Ring, cur: nat, head: seq<Action>)
    requires WellFormed(r) && cur in r.ids && Disconnect(cur) !in head
    ensures var c := ActAll(Cursor(r, cur, None), head + [Disconnect(cur)]);
            && CursorOk(c) && c.cur == cur && c.frozen == Some(NextAfter(ApplyAll(r, head).ids, cur))
            && c.ring == Apply(ApplyAll(r, head), Disconnect(cur))
  {
    var c0 := Cursor(r, cur, None);
    ActAllOk(c0, head);
    NotFrozen(c0, head);
    StaysLinked(r, head, cur);
    ActAllAppend(c0, head, [Disconnect(cur)]);
    var c1 := ActAll(c0, head);
    assert [Disconnect(cur)][1..] == [];
    assert ActAll(c1, [Disconnect(cur)]) == Act(c1, Disconnect(cur));
    ActOk(c1, Disconnect(cur));
  }

  /** What the cursor looks like after a callback that unlinks its own node at action `i`. */
  lemma AfterUnlink(r: Ring, cur: nat, acts: seq<Action>, i: nat)
    requires WellFormed(r) && cur in r.ids && i < |acts| && FirstUnlink(cur, acts, i)
    ensures var s := NextAfter(ApplyAll(r, acts[..i]).ids, cur);
            var c := ActAll(Cursor(r, cur, None), acts);
            c.frozen == Some(s) && (s != 0 ==> (s in c.ring.ids <==> Disconnect(s) !in acts[i + 1..]))
  {
    var head, tail := acts[..i] + [Disconnect(cur)], acts[i + 1..];
    AtUnlink(r, cur, acts[..i]);
    var c := ActAll(Cursor(r, cur, None), head);
    assert acts == head + tail;
    ActAllAppend(Cursor(r, cur, None), head, tail);
    StaysFrozen(c, tail);
    ActAllOk(c, tail);
    var s := c.frozen.value;
    if s != 0 {
      assert s in c.ring.ids;
      StaysLinked(c.ring, tail, s);
    }
  }

  /** One step of the loop reaches a deleted node exactly for such a callback. */
  lemma DanglingExact(r: Ring, cur: nat, acts: seq<Action>)
    requires WellFormed(r) && (cur == 0 || cur in r.ids)
    ensures var c := ActAll(Cursor(r, cur, None), acts);
            (Target(c) != 0 && Target(c) !in c.ring.ids) <==> UnlinksFrozenSuccessor(r, cur, acts)
  {
    var c := ActAll(Cursor(r, cur, None), acts);
    ActAllOk(Cursor(r, cur, None), acts);
    if cur in r.ids && Disconnect(cur) in acts {
      var i := FindFirstUnlink(cur, acts);
      AfterUnlink(r, cur, acts, i);
      var s := NextAfter(ApplyAll(r, acts[..i]).ids, cur);
      if s != 0 && s !in c.ring.ids {
        var j0 :| 0 <= j0 < |acts[i + 1..]| && acts[i + 1..][j0] == Disconnect(s);
        assert acts[i + 1 + j0] == Disconnect(s);
      }
      if UnlinksFrozenSuccessor(r, cur, acts) {
        var i', j :| 0 <= i' < j < |acts| && FirstUnlink(cur, acts, i') &&
          acts[j] == Disconnect(NextAfter(ApplyAll(r, acts[..i']).ids, cur)) &&
          NextAfter(ApplyAll(r, acts[..i']).ids, cur) != 0;
        assert i' == i;
        assert acts[i + 1..][j - i - 1] == acts[j];
      }
    } else {
      if cur in r.ids {
        NotFrozen(Cursor(r, cur, None), acts);
      } else {
        HeadNeverFrozen(Cursor(r, cur, None), acts);
      }
    }
  }

  lemma {:induction false} HeadNeverFrozen(c: Cursor, acts: seq<Action>)
    requires CursorOk(c) && c.cur == 0 && c.frozen.None?
    ensures ActAll(c, acts).frozen.None?
    decreases |acts|
  {
    if acts != [] {
      ActOk(c, acts[0]);
      HeadNeverFrozen(Act(c, acts[0]), acts[1..]);
    }
  }

  /** The actions the k-th visited node runs (none if it holds no function). */
  function TurnOf(v: Visit, turns: seq<Turn>, k: nat): Turn
  {
    if v.id in v.ring.mute then Turn([], true) else TurnAt(turns, k)
  }

  /** The first visit of an emission that goes on, and the rest. */
  lemma EmissionNext(r: Ring, cur: nat, turns: seq<Turn>, k: nat)
    requires WellFormed(r) && cur < r.nextId && (cur == 0 || cur in r.ids)
    requires var turn := TurnOf(Visit(r, cur), turns, k);
             var c := ActAll(Cursor(r, cur, None), turn.actions);
             turn.goOn && Target(c) != 0 && Target(c) in c.ring.ids
    ensures var c := ActAll(Cursor(r, cur, None), TurnOf(Visit(r, cur), turns, k).actions);
            CursorOk(c) &&
            var rest := Emission(c.ring, Target(c), turns, k + 1);
            Emission(r, cur, turns, k) == Outcome(rest.ring, [Visit(r, cur)] + rest.visits, rest.ending)
  {
    ActAllOk(Cursor(r, cur, None), TurnOf(Visit(r, cur), turns, k).actions);
  }

  ghost predicate Reckless(v: Visit, turn: Turn)
  {
    turn.goOn && UnlinksFrozenSuccessor(v.ring, v.id, turn.actions)
  }

  /** Some visit of the list, whose first element is visit `k`, is reckless. */
  ghost predicate AnyReckless(visits: seq<Visit>, turns: seq<Turn>, k: nat)
    decreases |visits|
  {
    visits != [] && (Reckless(visits[0], TurnOf(visits[0], turns, k)) || AnyReckless(visits[1..], turns, k + 1))
  }

  lemma {:induction false} AnyRecklessExists(visits: seq<Visit>, turns: seq<Turn>, k: nat)
    ensures AnyReckless(visits, turns, k) <==>
            exists i :: 0 <= i < |visits| && Reckless(visits[i], TurnOf(visits[i], turns, k + i))
    decreases |visits|
  {
    if visits != [] {
      var rest := visits[1..];
      AnyRecklessExists(rest, turns, k + 1);
      if i :| 0 <= i < |rest| && Reckless(rest[i], TurnOf(rest[i], turns, k + 1 + i)) {
        assert Reckless(visits[i + 1], TurnOf(visits[i + 1], turns, k + (i + 1)));
      }
      if i :| 0 <= i < |visits| && Reckless(visits[i], TurnOf(visits[i], turns, k + i)) {
        if i > 0 {
          assert Reckless(rest[i - 1], TurnOf(rest[i - 1], turns, k + 1 + (i - 1)));
        }
      }
    }
  }

  lemma {:induction false} EmissionSafe(r: Ring, cur: nat, turns: seq<Turn>, k: nat)
    requires WellFormed(r) && cur < r.nextId && (cur == 0 || cur in r.ids)
    ensures var o := Emission(r, cur, turns, k);
            o.ending == Dangling <==> AnyReckless(o.visits, turns, k)
    decreases r.nextId + Connects(turns, k) - cur
  {
    var o := Emission(r, cur, turns, k);
    var turn := TurnOf(Visit(r, cur), turns, k);
    var c := ActAll(Cursor(r, cur, None), turn.actions);
    ActAllOk(Cursor(r, cur, None), turn.actions);
    DanglingExact(r, cur, turn.actions);
    if turn.goOn && Target(c) != 0 && Target(c) in c.ring.ids {
      EmissionSafe(c.ring, Target(c), turns, k + 1);
      assert o.visits[1..] == Emission(c.ring, Target(c), turns, k + 1).visits;
    } else {
      assert o.visits[1..] == [];
    }
  }

  /** `emit` steps to a deleted node if and only if some callback it made unlinks its own node
      and then that node's frozen successor, and the collector goes on. */
  lemma EmitSafeExact(r: Ring, turns: seq<Turn>)
    requires WellFormed(r)
    ensures var o := Emit(r, turns);
            o.ending == Dangling <==>
              exists i :: 0 <= i < |o.visits| && Reckless(o.visits[i], TurnOf(o.visits[i], turns, i))
  {
    var o := Emit(r, turns);
    EmissionSafe(r, 0, turns, 0);
    AnyRecklessExists(o.visits, turns, 0);
    assert forall i :: 0 <= i < |o.visits| ==> TurnOf(o.visits[i], turns, 0 + i) == TurnOf(o.visits[i], turns, i);
  }

  /** A callback that unlinks its own node `a` and then its successor `b` leaves the emission with a
      deleted target. */
  lemma UnlinkTwo(r: Ring, a: nat, b: nat)
    requires a in r.ids && NextAfter(r.ids, a) == b != 0
    ensures var c := ActAll(Cursor(r, a, None), [Disconnect(a), Disconnect(b)]);
            Target(c) == b && b !in c.ring.ids
  {
    var acts := [Disconnect(a), Disconnect(b)];
    assert acts[1..] == [Disconnect(b)] && acts[1..][1..] == [];
    var c1 := Act(Cursor(r, a, None), acts[0]);
    assert ActAll(c1, acts[1..]) == Act(c1, Disconnect(b));
  }

  lemma FirstTwo(ids: seq<nat>)
    requires Increasing(ids) && |ids| >= 2 && ids[0] >= 1
    ensures NextAfter(ids, 0) == ids[0] && NextAfter(ids, ids[0]) == ids[1]
  {
  }

  /** That happens in every signal with two handlers: the first disconnects itself and then the
      second. */
  lemma SelfThenNextDangles(r: Ring)
    requires WellFormed(r) && |r.ids| >= 2 && r.ids[0] !in r.mute
    ensures Emit(r, [Turn([], true), Turn([Disconnect(r.ids[0]), Disconnect(r.ids[1])], true)]).ending == Dangling
  {
    var a, b := r.ids[0], r.ids[1];
    var turns := [Turn([], true), Turn([Disconnect(a), Disconnect(b)], true)];
    FirstTwo(r.ids);
    UnlinkTwo(r, a, b);
    assert TurnAt(turns, 0) == Turn([], true) && TurnAt(turns, 1).actions == [Disconnect(a), Disconnect(b)];
    assert Emission(r, a, turns, 1).ending == Dangling;
  }

  // ------------------------------------------------------ who is called, when

  predicate VisitsId(visits: seq<Visit>, h: nat)
  {
    visits != [] && (visits[0].id == h || VisitsId(visits[1..], h))
  }

  /** An earlier visit of the list, whose first element is visit `k`, disconnected `h`. */
  predicate DisconnectedBefore(visits: seq<Visit>, turns: seq<Turn>, k: nat, h: nat)
    decreases |visits|
  {
    visits != [] && visits[0].id < h &&
    (Disconnect(h) in TurnOf(visits[0], turns, k).actions || DisconnectedBefore(visits[1..], turns, k + 1, h))
  }

  /** What all visits of the list did, in order. */
  function Executed(visits: seq<Visit>, turns: seq<Turn>, k: nat): seq<Action>
    decreases |visits|
  {
    if visits == [] then [] else TurnOf(visits[0], turns, k).actions + Executed(visits[1..], turns, k + 1)
  }

  lemma {:induction false} TargetNotPast(c: Cursor, acts: seq<Action>, h: nat)
    requires CursorOk(c) && h in c.ring.ids && h > c.cur && Disconnect(h) !in acts
    requires c.frozen.Some? ==> 0 != c.frozen.value <= h
    ensures var c' := ActAll(c, acts); h in c'.ring.ids && c.cur < Target(c') <= h
    decreases |acts|
  {
    ActAllOk(c, acts);
    if acts != [] {
      ActOk(c, acts[0]);
      TargetNotPast(Act(c, acts[0]), acts[1..], h);
    }
  }

  /** Ids only go up, and every node but the first is linked when the emission arrives. */
  predicate InOrder(vs: seq<Visit>)
  {
    && vs != []
    && (forall i, j :: 0 <= i < j < |vs| ==> vs[i].id < vs[j].id)
    && (forall i :: 0 < i < |vs| ==> vs[i].id in vs[i].ring.ids)
  }

  lemma InOrderCons(v: Visit, rest: seq<Visit>)
    requires InOrder(rest) && v.id < rest[0].id && rest[0].id in rest[0].ring.ids
    ensures InOrder([v] + rest)
  {
    var vs := [v] + rest;
    assert forall i :: 0 < i < |vs| ==> vs[i] == rest[i - 1];
  }

  lemma {:induction false} VisitOrder(r: Ring, cur: nat, turns: seq<Turn>, k: nat)
    requires WellFormed(r) && cur < r.nextId && (cur == 0 || cur in r.ids)
    ensures var vs := Emission(r, cur, turns, k).visits; InOrder(vs) && vs[0] == Visit(r, cur)
    decreases r.nextId + Connects(turns, k) - cur
  {
    var turn := TurnOf(Visit(r, cur), turns, k);
    var c := ActAll(Cursor(r, cur, None), turn.actions);
    ActAllOk(Cursor(r, cur, None), turn.actions);
    if turn.goOn && Target(c) != 0 && Target(c) in c.ring.ids {
      VisitOrder(c.ring, Target(c), turns, k + 1);
      InOrderCons(Visit(r, cur), Emission(c.ring, Target(c), turns, k + 1).visits);
    }
  }

  lemma {:induction false} UnlinkedNotVisited(r: Ring, cur: nat, turns: seq<Turn>, k: nat, h: nat)
    requires WellFormed(r) && cur < r.nextId && (cur == 0 || cur in r.ids)
    requires h != cur && h != 0 && h !in r.ids && h < r.nextId
    ensures !VisitsId(Emission(r, cur, turns, k).visits, h)
    decreases r.nextId + Connects(turns, k) - cur
  {
    var turn := TurnOf(Visit(r, cur), turns, k);
    var c := ActAll(Cursor(r, cur, None), turn.actions);
    ActAllOk(Cursor(r, cur, None), turn.actions);
    var vs := Emission(r, cur, turns, k).visits;
    if turn.goOn && Target(c) != 0 && Target(c) in c.ring.ids {
      StaysLinked(r, turn.actions, h);
      UnlinkedNotVisited(c.ring, Target(c), turns, k + 1, h);
      assert vs[1..] == Emission(c.ring, Target(c), turns, k + 1).visits;
    } else {
      assert vs[1..] == [];
    }
  }

  /** A node linked ahead of the emission is visited exactly unless an earlier visit disconnects
      it or the emission ends before reaching it. */
  ghost predicate VisitedIff(o: Outcome, turns: seq<Turn>, k: nat, h: nat)
  {
    && o.visits != []
    && (VisitsId(o.visits, h) <==>
          !DisconnectedBefore(o.visits, turns, k, h)
          && (o.ending == Completed || h <= o.visits[|o.visits| - 1].id))
  }

  /** `VisitedIff` carries over one visit of another node. */
  lemma VisitedIffStep(o: Outcome, rest: Outcome, first: Visit, turns: seq<Turn>, k: nat, h: nat)
    requires o == Outcome(rest.ring, [first] + rest.visits, rest.ending) && first.id < h
    requires Disconnect(h) !in TurnOf(first, turns, k).actions && VisitedIff(rest, turns, k + 1, h)
    ensures VisitedIff(o, turns, k, h)
  {
    assert o.visits[1..] == rest.visits;
    assert o.visits[|o.visits| - 1] == rest.visits[|rest.visits| - 1];
  }

  lemma {:induction false} VisitedExact(r: Ring, cur: nat, turns: seq<Turn>, k: nat, h: nat)
    requires WellFormed(r) && cur < r.nextId && (cur == 0 || cur in r.ids)
    requires h in r.ids && h >= cur
    ensures VisitedIff(Emission(r, cur, turns, k), turns, k, h)
    decreases r.nextId + Connects(turns, k) - cur
  {
    var o := Emission(r, cur, turns, k);
    var turn := TurnOf(Visit(r, cur), turns, k);
    var c := ActAll(Cursor(r, cur, None), turn.actions);
    ActAllOk(Cursor(r, cur, None), turn.actions);
    if h == cur {
      VisitOrder(r, cur, turns, k);
    } else if Disconnect(h) in turn.actions {
      DisconnectedNotVisited(r, cur, turns, k, h);
    } else {
      StaysLinked(r, turn.actions, h);
      TargetNotPast(Cursor(r, cur, None), turn.actions, h);
      if turn.goOn && Target(c) in c.ring.ids {
        VisitedExact(c.ring, Target(c), turns, k + 1, h);
        VisitedIffStep(o, Emission(c.ring, Target(c), turns, k + 1), Visit(r, cur), turns, k, h);
      } else {
        assert o.visits[1..] == [];
      }
    }
  }

  lemma DisconnectedNotVisited(r: Ring, cur: nat, turns: seq<Turn>, k: nat, h: nat)
    requires WellFormed(r) && cur < r.nextId && (cur == 0 || cur in r.ids)
    requires h in r.ids && h > cur && Disconnect(h) in TurnOf(Visit(r, cur), turns, k).actions
    ensures VisitedIff(Emission(r, cur, turns, k), turns, k, h)
  {
    var o := Emission(r, cur, turns, k);
    var turn := TurnOf(Visit(r, cur), turns, k);
    var c := ActAll(Cursor(r, cur, None), turn.actions);
    ActAllOk(Cursor(r, cur, None), turn.actions);
    StaysLinked(r, turn.actions, h);
    if turn.goOn && Target(c) != 0 && Target(c) in c.ring.ids {
      UnlinkedNotVisited(c.ring, Target(c), turns, k + 1, h);
      assert o.visits[1..] == Emission(c.ring, Target(c), turns, k + 1).visits;
    } else {
      assert o.visits[1..] == [];
    }
  }

  /** Only the callbacks' own actions change the ring. */
  lemma {:induction false} EmissionRing(r: Ring, cur: nat, turns: seq<Turn>, k: nat)
    requires WellFormed(r) && cur < r.nextId && (cur == 0 || cur in r.ids)
    ensures var o := Emission(r, cur, turns, k);
            WellFormed(o.ring) && o.ring == ApplyAll(r, Executed(o.visits, turns, k))
    decreases r.nextId + Connects(turns, k) - cur
  {
    var o := Emission(r, cur, turns, k);
    var turn := TurnOf(Visit(r, cur), turns, k);
    var c := ActAll(Cursor(r, cur, None), turn.actions);
    ActAllOk(Cursor(r, cur, None), turn.actions);
    if turn.goOn && Target(c) != 0 && Target(c) in c.ring.ids {
      EmissionRing(c.ring, Target(c), turns, k + 1);
      assert o.visits[1..] == Emission(c.ring, Target(c), turns, k + 1).visits;
      ApplyAllAppend(r, turn.actions, Executed(o.visits[1..], turns, k + 1));
    } else {
      assert o.visits[1..] == [];
      assert turn.actions + [] == turn.actions;
    }
  }

  /** The ids of the handlers whose function ran, in order. */
  function Calls(visits: seq<Visit>): seq<nat>
  {
    if visits == [] then []
    else (if visits[0].id in visits[0].ring.mute then [] else [visits[0].id]) + Calls(visits[1..])
  }

  lemma {:induction false} CallsAreVisits(visits: seq<Visit>, h: nat)
    ensures h in Calls(visits) <==> exists i :: 0 <= i < |visits| && visits[i].id == h && h !in visits[i].ring.mute
    ensures VisitsId(visits, h) <==> exists i :: 0 <= i < |visits| && visits[i].id == h
  {
    if visits != [] {
      CallsAreVisits(visits[1..], h);
      assert forall i :: 1 <= i < |visits| ==> visits[i] == visits[1..][i - 1];
    }
  }

  lemma {:induction false} CallsIncrease(visits: seq<Visit>)
    requires forall i, j :: 0 <= i < j < |visits| ==> visits[i].id < visits[j].id
    ensures Increasing(Calls(visits))
  {
    if visits != [] {
      CallsIncrease(visits[1..]);
      forall h | h in Calls(visits[1..])
        ensures visits[0].id < h
      {
        CallsAreVisits(visits[1..], h);
      }
      var rest := Calls(visits[1..]);
      assert forall j :: 0 <= j < |rest| ==> rest[j] in rest;
    }
  }

  lemma {:induction false} MuteFixed(r: Ring, acts: seq<Action>, h: nat)
    requires h < r.nextId
    ensures h in ApplyAll(r, acts).mute <==> h in r.mute
    decreases |acts|
  {
    if acts != [] {
      MuteFixed(Apply(r, acts[0]), acts[1..], h);
    }
  }

  lemma {:induction false} VisitsKeepMute(r: Ring, cur: nat, turns: seq<Turn>, k: nat, h: nat)
    requires WellFormed(r) && cur < r.nextId && (cur == 0 || cur in r.ids) && h < r.nextId
    ensures forall v :: v in Emission(r, cur, turns, k).visits ==> (h in v.ring.mute <==> h in r.mute)
    decreases r.nextId + Connects(turns, k) - cur
  {
    var turn := TurnOf(Visit(r, cur), turns, k);
    var c := ActAll(Cursor(r, cur, None), turn.actions);
    ActAllOk(Cursor(r, cur, None), turn.actions);
    MuteFixed(r, turn.actions, h);
    if turn.goOn && Target(c) != 0 && Target(c) in c.ring.ids {
      VisitsKeepMute(c.ring, Target(c), turns, k + 1, h);
    }
  }

  /** Which handlers one emission calls.  Calls follow connection order and never repeat; a handler
      connected at the start is called exactly if it holds a function, no earlier callback
      disconnects it, and the emission is not ended before its turn; every handler called is
      still connected when its turn comes. */
  lemma EmitCallsExactly(r: Ring, turns: seq<Turn>)
    requires WellFormed(r)
    ensures var o := Emit(r, turns);
            && o.visits != []
            && Increasing(Calls(o.visits))
            && (forall i :: 0 < i < |o.visits| ==> o.visits[i].id in o.visits[i].ring.ids)
            && (forall h :: h in r.ids ==>
                  (h in Calls(o.visits) <==>
                     h !in r.mute && !DisconnectedBefore(o.visits, turns, 0, h)
                     && (o.ending == Completed || h <= o.visits[|o.visits| - 1].id)))
    ensures WellFormed(Emit(r, turns).ring)
    ensures var o := Emit(r, turns); o.ring == ApplyAll(r, Executed(o.visits, turns, 0))
  {
    var o := Emit(r, turns);
    VisitOrder(r, 0, turns, 0);
    CallsIncrease(o.visits);
    EmissionRing(r, 0, turns, 0);
    forall h | h in r.ids
      ensures h in Calls(o.visits) <==>
                h !in r.mute && !DisconnectedBefore(o.visits, turns, 0, h)
                && (o.ending == Completed || h <= o.visits[|o.visits| - 1].id)
    {
      VisitedExact(r, 0, turns, 0, h);
      CallsAreVisits(o.visits, h);
      VisitsKeepMute(r, 0, turns, 0, h);
    }
  }

  /** From `from` on, the visits do what their turns say, each from the ring the one before leaves, and the
      last leaves `to`; all but the last let the emission go on. */
  predicate DoesTurns(visits: seq<Visit>, turns: seq<Turn>, k: nat, from: Ring, to: Ring)
    decreases |visits|
  {
    if visits == [] then from == to
    else
      && visits[0].ring == from && (|visits| > 1 ==> TurnOf(visits[0], turns, k).goOn)
      && DoesTurns(visits[1..], turns, k + 1, ApplyAll(from, TurnOf(visits[0], turns, k).actions), to)
  }

  lemma DoesTurnsCons(v: Visit, rest: seq<Visit>, turns: seq<Turn>, k: nat, to: Ring)
    requires rest != [] && TurnOf(v, turns, k).goOn
    requires DoesTurns(rest, turns, k + 1, ApplyAll(v.ring, TurnOf(v, turns, k).actions), to)
    ensures DoesTurns([v] + rest, turns, k, v.ring, to)
  {
    assert ([v] + rest)[1..] == rest;
  }

  lemma OneDoesTurn(v: Visit, turns: seq<Turn>, k: nat)
    ensures DoesTurns([v], turns, k, v.ring, ApplyAll(v.ring, TurnOf(v, turns, k).actions))
  {
    assert [v][1..] == [];
  }

  /** The emission ends at the first visit. */
  lemma LastVisit(r: Ring, cur: nat, turns: seq<Turn>, k: nat)
    requires WellFormed(r) && cur < r.nextId && (cur == 0 || cur in r.ids)
    requires var turn := TurnOf(Visit(r, cur), turns, k);
             var c := ActAll(Cursor(r, cur, None), turn.actions);
             !(turn.goOn && Target(c) != 0 && Target(c) in c.ring.ids)
    ensures var o := Emission(r, cur, turns, k);
            && o.visits == [Visit(r, cur)]
            && o.ring == ApplyAll(r, TurnOf(Visit(r, cur), turns, k).actions)
            && (o.ending == Stopped <==> !TurnOf(Visit(r, cur), turns, k).goOn)
  {
    ActAllOk(Cursor(r, cur, None), TurnOf(Visit(r, cur), turns, k).actions);
  }

  lemma {:induction false} EmissionDoesTurns(r: Ring, cur: nat, turns: seq<Turn>, k: nat)
    requires WellFormed(r) && cur < r.nextId && (cur == 0 || cur in r.ids)
    ensures var o := Emission(r, cur, turns, k);
            o.visits != [] && DoesTurns(o.visits, turns, k, r, o.ring)
    decreases r.nextId + Connects(turns, k) - cur
  {
    var v := Visit(r, cur);
    var c := ActAll(Cursor(r, cur, None), TurnOf(v, turns, k).actions);
    ActAllOk(Cursor(r, cur, None), TurnOf(v, turns, k).actions);
    if TurnOf(v, turns, k).goOn && Target(c) != 0 && Target(c) in c.ring.ids {
      EmissionNext(r, cur, turns, k);
      EmissionDoesTurns(c.ring, Target(c), turns, k + 1);
      var rest := Emission(c.ring, Target(c), turns, k + 1);
      DoesTurnsCons(v, rest.visits, turns, k, rest.ring);
    } else {
      LastVisit(r, cur, turns, k);
      OneDoesTurn(v, turns, k);
    }
  }

  lemma {:induction false} StoppedAtLast(r: Ring, cur: nat, turns: seq<Turn>, k: nat)
    requires WellFormed(r) && cur < r.nextId && (cur == 0 || cur in r.ids)
    ensures var o := Emission(r, cur, turns, k);
            && o.visits != []
            && (o.ending == Stopped <==> !TurnOf(o.visits[|o.visits| - 1], turns, k + |o.visits| - 1).goOn)
    decreases r.nextId + Connects(turns, k) - cur
  {
    var v := Visit(r, cur);
    var c := ActAll(Cursor(r, cur, None), TurnOf(v, turns, k).actions);
    ActAllOk(Cursor(r, cur, None), TurnOf(v, turns, k).actions);
    if TurnOf(v, turns, k).goOn && Target(c) != 0 && Target(c) in c.ring.ids {
      EmissionNext(r, cur, turns, k);
      StoppedAtLast(c.ring, Target(c), turns, k + 1);
    } else {
      LastVisit(r, cur, turns, k);
    }
  }

  /** The callbacks do what their turns say, one after the other, and the collector ends the emission exactly
      at the first turn that says so. */
  lemma EmitDoesTurns(r: Ring, turns: seq<Turn>)
    requires WellFormed(r)
    ensures var o := Emit(r, turns);
            && o.visits != [] && DoesTurns(o.visits, turns, 0, r, o.ring)
            && (o.ending == Stopped <==> !TurnOf(o.visits[|o.visits| - 1], turns, |o.visits| - 1).goOn)
  {
    EmissionDoesTurns(r, 0, turns, 0);
    StoppedAtLast(r, 0, turns, 0);
  }
}
