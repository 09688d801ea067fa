/** The receivers' tables and the signals' rings agree after any sequence of operations. */
module DispatcherAgreement {
  import opened Wrappers
  import opened SignalSpec
  import opened DispatcherCore

  /** One dispatcher and the receivers that exist. */
  datatype State = State(handlers: Handlers, tables: map<Rid, Table>)

  const EMPTY := State([], map[])

  datatype Op =
    | Create(r: Rid)
    | Subscribe(r: Rid, f: Family)
    | Unsubscribe(r: Rid, f: Family)
    | UnsubscribeAll(r: Rid)
    | Destroy(r: Rid)

  /** An operation on a receiver that does not exist is not possible and changes nothing. */
  function Do(s: State, op: Op): State
  {
    if op.Create? then if op.r in s.tables then s else s.(tables := s.tables[op.r := map[]])
    else if op.r !in s.tables then s
    else
      var t := s.tables[op.r];
      match op
      case Subscribe(r, f) => State(Subscribed(s.handlers, r, f), s.tables[r := Entered(s.handlers, t, f)])
      case Unsubscribe(r, f) => State(Cut(s.handlers, t, f), s.tables[r := t - {f}])
      case UnsubscribeAll(r) => State(CutAll(s.handlers, t), s.tables[r := map[]])
      case Destroy(r) => State(CutAll(s.handlers, t), s.tables - {r})
  }

  function DoAll(s: State, ops: seq<Op>): State
    decreases |ops|
  {
    if ops == [] then s else DoAll(Do(s, ops[0]), ops[1..])
  }

  /** Each receiver subscribes at most once per family before unsubscribing. */
  predicate Polite(s: State, op: Op)
  {
    op.Subscribe? && op.r in s.tables ==> op.f !in s.tables[op.r]
  }

  predicate AllPolite(s: State, ops: seq<Op>)
    decreases |ops|
  {
    ops == [] || (Polite(s, ops[0]) && AllPolite(Do(s, ops[0]), ops[1..]))
  }

  function SigOf(hs: Handlers, f: Family): Sig { if f < |hs| && hs[f].Some? then hs[f].value else NEW_SIGNAL }

  /** The column of family `f` in the tables. */
  function View(tables: map<Rid, Table>, f: Family): map<Rid, nat>
  {
    map r | r in tables && f in tables[r] :: tables[r][f]
  }

  /** The nodes of the ring are the entries of the column. */
  ghost predicate FamilyOk(s: Sig, view: map<Rid, nat>)
  {
    && WellFormed(s.ring) && s.ring.mute == {0}
    && (forall id :: id in s.ring.ids ==> id in s.owner && s.owner[id] in view && view[s.owner[id]] == id)
    && (forall r :: r in view ==> view[r] in s.ring.ids && view[r] in s.owner && s.owner[view[r]] == r)
  }

  ghost predicate Agree(s: State) { forall f :: FamilyOk(SigOf(s.handlers, f), View(s.tables, f)) }

  // ------------------------------------------------ what an operation does to one family

  lemma ViewUpdate(tables: map<Rid, Table>, r: Rid, t: Table, f: Family)
    ensures View(tables[r := t], f) == if f in t then View(tables, f)[r := t[f]] else View(tables, f) - {r}
  {
  }

  lemma ViewRemove(tables: map<Rid, Table>, r: Rid, f: Family)
    ensures View(tables - {r}, f) == View(tables, f) - {r}
  {
  }

  /** The effect of an operation on a family. */
  datatype Effect = Nothing | Link(r: Rid) | Unlink(r: Rid)

  function EffectOf(s: State, op: Op, f: Family): Effect
  {
    if op.r !in s.tables then Nothing
    else if op.Subscribe? && op.f == f then Link(op.r)
    else if f !in s.tables[op.r] then Nothing
    else if (op.Unsubscribe? && op.f == f) || op.UnsubscribeAll? || op.Destroy? then Unlink(op.r)
    else Nothing
  }

  /** An operation changes the ring of a family by its effect and nothing else. */
  lemma SignalEffect(s: State, op: Op, f: Family)
    ensures var sig, sig' := SigOf(s.handlers, f), SigOf(Do(s, op).handlers, f);
            match EffectOf(s, op, f)
            case Nothing => sig' == sig
            case Link(r) => sig' == Linked(sig, r)
            case Unlink(r) => sig' == Unlinked(sig, s.tables[r][f])
  {
    if op.r in s.tables && !op.Create? && !(f < |s.handlers| && s.handlers[f].Some?) && f in s.tables[op.r] {
      assert Unlinked(NEW_SIGNAL, s.tables[op.r][f]) == NEW_SIGNAL;
    }
  }

  lemma ViewEffect(s: State, op: Op, f: Family)
    requires Polite(s, op)
    ensures var view, view' := View(s.tables, f), View(Do(s, op).tables, f);
            match EffectOf(s, op, f)
            case Nothing => view' == view
            case Link(r) => r !in view && view' == view[r := SigOf(s.handlers, f).ring.nextId]
            case Unlink(r) => r in view && view[r] == s.tables[r][f] && view' == view - {r}
  {
    var view := View(s.tables, f);
    if op.r in s.tables && !op.Create? {
      var t := s.tables[op.r];
      ViewUpdate(s.tables, op.r, t, f);
      assert s.tables[op.r := t] == s.tables;
      match op
      case Subscribe(r, g) => ViewUpdate(s.tables, r, Entered(s.handlers, t, g), f);
      case Unsubscribe(r, g) => ViewUpdate(s.tables, r, t - {g}, f);
      case UnsubscribeAll(r) => ViewUpdate(s.tables, r, map[], f);
      case Destroy(r) => ViewRemove(s.tables, r, f);
    } else if op.Create? && op.r !in s.tables {
      ViewUpdate(s.tables, op.r, map[], f);
      assert op.r !in view;
    }
  }

  lemma LinkOk(s: Sig, view: map<Rid, nat>, r: Rid)
    requires FamilyOk(s, view) && r !in view
    ensures FamilyOk(Linked(s, r), view[r := s.ring.nextId])
  {
    ApplyWellFormed(s.ring, Connect(true));
    assert forall id :: id in s.ring.ids ==> id < s.ring.nextId;
  }

  lemma UnlinkOk(s: Sig, view: map<Rid, nat>, r: Rid)
    requires FamilyOk(s, view) && r in view
    ensures FamilyOk(Unlinked(s, view[r]), view - {r})
  {
    ApplyWellFormed(s.ring, Disconnect(view[r]));
  }

  lemma StepAgree(s: State, op: Op)
    requires Agree(s) && Polite(s, op)
    ensures Agree(Do(s, op))
  {
    forall f
      ensures FamilyOk(SigOf(Do(s, op).handlers, f), View(Do(s, op).tables, f))
    {
      var sig, view := SigOf(s.handlers, f), View(s.tables, f);
      assert FamilyOk(sig, view);
      SignalEffect(s, op, f);
      ViewEffect(s, op, f);
      match EffectOf(s, op, f)
      case Nothing =>
      case Link(r) => LinkOk(sig, view, r);
      case Unlink(r) => UnlinkOk(sig, view, r);
    }
  }

  /** A second subscription to the same family breaks the agreement, and nothing else does. */
  lemma SubscribeExact(s: State, r: Rid, f: Family)
    requires Agree(s) && r in s.tables
    ensures Agree(Do(s, Subscribe(r, f))) <==> f !in s.tables[r]
  {
    if f !in s.tables[r] {
      StepAgree(s, Subscribe(r, f));
    } else {
      var sig, view := SigOf(s.handlers, f), View(s.tables, f);
      assert FamilyOk(sig, view);
      var s' := Do(s, Subscribe(r, f));
      var sig', view' := SigOf(s'.handlers, f), View(s'.tables, f);
      SignalEffect(s, Subscribe(r, f), f);
      ViewUpdate(s.tables, r, s.tables[r], f);
      var id := sig.ring.nextId;
      assert sig'.ring.ids[|sig.ring.ids|] == id && sig'.owner[id] == r;
      assert view'[r] == view[r] && view[r] in sig.ring.ids;
      assert view'[r] != id;
      assert !FamilyOk(sig', view');
    }
  }

  // ---------------------------------------------------- the subscribers, in order

  function Owners(ids: seq<nat>, owner: map<nat, Rid>): (rs: seq<Rid>)
    ensures |rs| == |ids| && forall i :: 0 <= i < |ids| ==> rs[i] == OwnerOf(owner, ids[i])
  {
    if ids == [] then [] else [OwnerOf(owner, ids[0])] + Owners(ids[1..], owner)
  }

  /** Every linked node has an owner while rings and tables agree. */
  function OwnerOf(owner: map<nat, Rid>, id: nat): Rid { if id in owner then owner[id] else 0 }

  /** The receivers subscribed to a family, in the order of their connections. */
  function Subscribers(s: State, f: Family): seq<Rid>
  {
    Owners(SigOf(s.handlers, f).ring.ids, SigOf(s.handlers, f).owner)
  }

  /** The same list, kept by hand: subscribing appends, unsubscribing and destroying remove. */
  function Listed(rs: seq<Rid>, alive: set<Rid>, op: Op, f: Family): seq<Rid>
  {
    match op
    case Create(_) => rs
    case Subscribe(r, g) => if g == f && r in alive then rs + [r] else rs
    case Unsubscribe(r, g) => if g == f then Without(rs, r) else rs
    case UnsubscribeAll(r) => Without(rs, r)
    case Destroy(r) => Without(rs, r)
  }

  function ListedAll(rs: seq<Rid>, alive: set<Rid>, ops: seq<Op>, f: Family): seq<Rid>
    decreases |ops|
  {
    if ops == [] then rs
    else ListedAll(Listed(rs, alive, ops[0], f), AliveAfter(alive, ops[0]), ops[1..], f)
  }

  function AliveAfter(alive: set<Rid>, op: Op): set<Rid>
  {
    if op.Create? then alive + {op.r} else if op.Destroy? then alive - {op.r} else alive
  }

  lemma {:induction false} WithoutOther(rs: seq<Rid>, r: Rid)
    requires r !in rs
    ensures Without(rs, r) == rs
  {
    if rs != [] {
      assert forall x :: x in rs[1..] ==> x in rs;
      WithoutOther(rs[1..], r);
    }
  }

  /** Removing a connection id removes its owner, when owners are distinct. */
  lemma {:induction false} OwnersWithout(ids: seq<nat>, owner: map<nat, Rid>, id: nat)
    requires id in owner && forall x :: x in ids ==> x in owner && (owner[x] == owner[id] ==> x == id)
    ensures Owners(Without(ids, id), owner) == Without(Owners(ids, owner), owner[id])
  {
    if ids != [] {
      assert ids[0] in ids && forall x :: x in ids[1..] ==> x in ids;
      OwnersWithout(ids[1..], owner, id);
      assert Owners(ids, owner)[1..] == Owners(ids[1..], owner);
      if ids[0] != id {
        assert Without(ids, id)[1..] == Without(ids[1..], id);
      }
    }
  }

  lemma OwnersLinked(s: Sig, r: Rid)
    requires WellFormed(s.ring) && forall id :: id in s.ring.ids ==> id in s.owner
    ensures forall id :: id in Linked(s, r).ring.ids ==> id in Linked(s, r).owner
    ensures Owners(Linked(s, r).ring.ids, Linked(s, r).owner) == Owners(s.ring.ids, s.owner) + [r]
  {
  }

  lemma NotListed(s: Sig, view: map<Rid, nat>, r: Rid)
    requires FamilyOk(s, view) && r !in view
    ensures Without(Owners(s.ring.ids, s.owner), r) == Owners(s.ring.ids, s.owner)
  {
    var rs := Owners(s.ring.ids, s.owner);
    forall i | 0 <= i < |rs|
      ensures rs[i] != r
    {
      assert s.ring.ids[i] in s.ring.ids;
    }
    WithoutOther(rs, r);
  }

  function ListAfter(rs: seq<Rid>, e: Effect): seq<Rid>
  {
    match e
    case Nothing => rs
    case Link(r) => rs + [r]
    case Unlink(r) => Without(rs, r)
  }

  /** What the list kept by hand does, in terms of the effect. */
  lemma ListedEffect(s: State, op: Op, f: Family, rs: seq<Rid>)
    requires FamilyOk(SigOf(s.handlers, f), View(s.tables, f))
    requires rs == Owners(SigOf(s.handlers, f).ring.ids, SigOf(s.handlers, f).owner)
    ensures Listed(rs, s.tables.Keys, op, f) == ListAfter(rs, EffectOf(s, op, f))
  {
    if op.r !in View(s.tables, f) {
      NotListed(SigOf(s.handlers, f), View(s.tables, f), op.r);
    }
  }

  lemma StepSubscribers(s: State, op: Op, f: Family)
    requires Agree(s) && Polite(s, op)
    ensures Agree(Do(s, op))
    ensures Subscribers(Do(s, op), f) == Listed(Subscribers(s, f), s.tables.Keys, op, f)
  {
    StepAgree(s, op);
    var sig, view := SigOf(s.handlers, f), View(s.tables, f);
    assert FamilyOk(sig, view);
    SignalEffect(s, op, f);
    ListedEffect(s, op, f, Subscribers(s, f));
    match EffectOf(s, op, f)
    case Nothing =>
    case Link(r) => OwnersLinked(sig, r);
    case Unlink(r) =>
      assert view[r] == s.tables[r][f];
      OwnersWithout(sig.ring.ids, sig.owner, view[r]);
  }

  lemma EmptyAgrees()
    ensures Agree(EMPTY)
  {
    forall f
      ensures FamilyOk(SigOf(EMPTY.handlers, f), View(EMPTY.tables, f))
    {
      assert View(map[], f) == map[];
    }
  }

  /** After any polite sequence of operations the live nodes of every signal are exactly the
      entries of the tables, and stand in the order of subscription. */
  lemma {:induction false} RunAgrees(s: State, ops: seq<Op>, f: Family)
    requires Agree(s) && AllPolite(s, ops)
    ensures Agree(DoAll(s, ops))
    ensures Subscribers(DoAll(s, ops), f) == ListedAll(Subscribers(s, f), s.tables.Keys, ops, f)
    decreases |ops|
  {
    if ops != [] {
      StepSubscribers(s, ops[0], f);
      assert Do(s, ops[0]).tables.Keys == AliveAfter(s.tables.Keys, ops[0]);
      RunAgrees(Do(s, ops[0]), ops[1..], f);
    }
  }
}
