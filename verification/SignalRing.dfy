/** The ring of `network/msgbus/msg_signal.hpp` on the heap, with any number of emissions running
    inside each other's callbacks.

    `nodes` lists the linked nodes, head first, and `frames` the node of each running emission,
    outermost first; `mem` is the abstract value of both.  `deleted` marks a node on which
    `delete this` has run: every method finds it unset before it reads a node.
  */
module SignalRing {
  import S = SignalSpec
  import opened NestedEmission

  class SignalLink {
    /** Stands for the address, which `connect` returns as the connection id. */
    const id: nat
    var next: SignalLink?
    var prev: SignalLink?
    var callable: bool
    var refCount: int
    ghost var deleted: bool

    constructor (id: nat, callable: bool)
      ensures this.id == id && this.callable == callable && refCount == 1 && !deleted
      ensures next == null && prev == null
    {
      this.id := id;
      this.callable := callable;
      next, prev := null, null;
      refCount := 1;
      deleted := false;
    }

    method IncRef()
      requires !deleted && refCount >= 0
      modifies this`refCount
      ensures refCount == old(refCount) + 1
    {
      refCount := refCount + 1;
      assert refCount > 0;
    }

    method DecRef()
      requires !deleted && refCount > 0
      modifies this`refCount, this`deleted
      ensures refCount == old(refCount) - 1
      ensures deleted <==> refCount == 0
    {
      refCount := refCount - 1;
      if refCount == 0 {
        deleted := true;
      }
    }

    method Unlink()
      requires !deleted && refCount > 0
      requires next != null && prev != null && next != this && prev != this
      requires !next.deleted && !prev.deleted
      modifies this`callable, this`refCount, this`deleted, next`prev, prev`next
      ensures !callable && refCount == old(refCount) - 1 && (deleted <==> refCount == 0)
      ensures next.prev == prev && prev.next == next
    {
      callable := false;
      next.prev := prev;
      prev.next := next;
      DecRef();
    }

    method AddBefore(id: nat, callable: bool) returns (link: SignalLink)
      requires !deleted && prev != null && !prev.deleted
      modifies this`prev, prev`next
      ensures fresh(link) && link.id == id && link.callable == callable && link.refCount == 1 && !link.deleted
      ensures link.prev == old(prev) && link.next == this && old(prev).next == link && prev == link
    {
      link := new SignalLink(id, callable);
      link.prev := prev;
      link.next := this;
      prev.next := link;
      prev := link;
    }
  }

  /** `ns` is a doubly linked ring in this order. */
  ghost predicate LinkedRing(ns: seq<SignalLink>)
    requires |ns| > 0
    reads ns`next, ns`prev
  {
    && (forall i {:trigger ns[i].next} :: 0 <= i < |ns| - 1 ==> ns[i].next == ns[i + 1])
    && ns[|ns| - 1].next == ns[0]
    && (forall i {:trigger ns[i].prev} :: 1 <= i < |ns| ==> ns[i].prev == ns[i - 1])
    && ns[0].prev == ns[|ns| - 1]
  }

  ghost predicate IdsMatch(ns: seq<SignalLink>, ids: seq<nat>)
  {
    && |ids| + 1 == |ns| && ns[0].id == 0
    && forall i {:trigger ns[i]} :: 1 <= i < |ns| ==> ns[i].id == ids[i - 1]
  }

  ghost predicate FramesMatch(fs: seq<SignalLink>, ids: seq<nat>)
  {
    |fs| == |ids| && forall i {:trigger fs[i]} :: 0 <= i < |fs| ==> fs[i].id == ids[i]
  }

  ghost predicate Unique(owned: set<SignalLink>)
  {
    forall a, b {:trigger SameId(a, b)} :: a in owned && b in owned && SameId(a, b) ==> a == b
  }

  predicate SameId(a: SignalLink, b: SignalLink) { a.id == b.id }

  /** The number of running emissions at a node. */
  ghost function Refs(fs: seq<SignalLink>, m: SignalLink): nat
  {
    if fs == [] then 0 else (if fs[|fs| - 1] == m then 1 else 0) + Refs(fs[..|fs| - 1], m)
  }

  /** The ring holds two references to its head and one to every other linked node, a running emission
      one to the node it is at, and a node is deleted exactly if nothing refers to it. */
  ghost predicate Counted(m: SignalLink, ns: seq<SignalLink>, fs: seq<SignalLink>)
    requires |ns| > 0
    reads m`refCount, m`deleted
  {
    && m.refCount == (if m == ns[0] then 2 else if m in ns then 1 else 0) + Refs(fs, m)
    && (m.deleted <==> m.refCount == 0)
  }

  /** A linked node has a function or not; an unlinked node that is held has none and keeps its
      successor. */
  ghost predicate Shown(m: SignalLink, ns: seq<SignalLink>, fs: seq<SignalLink>, owned: set<SignalLink>, mem: Mem)
    reads m`callable, m`next
  {
    && m.next != null && m.next in owned
    && (m in ns ==> (m.callable <==> m.id !in mem.ring.mute))
    && (m !in ns && m in fs ==> !m.callable && m.id in mem.stale && m.next.id == mem.stale[m.id])
  }

  ghost predicate AllCounted(ns: seq<SignalLink>, fs: seq<SignalLink>, owned: set<SignalLink>)
    requires |ns| > 0
    reads owned
  {
    forall m {:trigger Counted(m, ns, fs)} :: m in owned ==> Counted(m, ns, fs)
  }

  /** All but the reference counts. */
  ghost predicate Shape(ns: seq<SignalLink>, fs: seq<SignalLink>, owned: set<SignalLink>, mem: Mem)
    reads owned, ns
  {
    && |ns| > 0 && LinkedRing(ns) && IdsMatch(ns, mem.ring.ids) && FramesMatch(fs, mem.frames)
    && Owned(ns, fs, owned, mem)
    && forall m {:trigger Shown(m, ns, fs, owned, mem)} :: m in owned ==> Shown(m, ns, fs, owned, mem)
  }

  /** The nodes `owned`, of which `ns` are linked and `fs` held, represent `mem`. */
  ghost predicate Represents(ns: seq<SignalLink>, fs: seq<SignalLink>, owned: set<SignalLink>, mem: Mem)
    reads owned, ns
  {
    Shape(ns, fs, owned, mem) && AllCounted(ns, fs, owned)
  }

  ghost predicate Owned(ns: seq<SignalLink>, fs: seq<SignalLink>, owned: set<SignalLink>, mem: Mem)
  {
    && (forall i :: 0 <= i < |ns| ==> ns[i] in owned) && (forall i :: 0 <= i < |fs| ==> fs[i] in owned)
    && Unique(owned) && forall m :: m in owned ==> m.id < mem.ring.nextId
  }

  // ------------------------------------------------------------------ nodes and ids

  lemma LinkedById(ns: seq<SignalLink>, fs: seq<SignalLink>, owned: set<SignalLink>, mem: Mem, m: SignalLink)
    requires IdsMatch(ns, mem.ring.ids) && Owned(ns, fs, owned, mem) && m in owned
    ensures m in ns <==> m.id == 0 || m.id in mem.ring.ids
    ensures m == ns[0] <==> m.id == 0
  {
    if m.id in mem.ring.ids {
      var i :| 0 <= i < |mem.ring.ids| && mem.ring.ids[i] == m.id;
      assert SameId(ns[i + 1], m);
    }
    assert SameId(ns[0], m) <==> m.id == 0;
  }

  lemma HeldById(ns: seq<SignalLink>, fs: seq<SignalLink>, owned: set<SignalLink>, mem: Mem, m: SignalLink)
    requires FramesMatch(fs, mem.frames) && Owned(ns, fs, owned, mem) && m in owned
    ensures m in fs <==> m.id in mem.frames
  {
    if m.id in mem.frames {
      var i :| 0 <= i < |mem.frames| && mem.frames[i] == m.id;
      assert SameId(fs[i], m);
    }
  }

  lemma {:induction false} RefsIn(fs: seq<SignalLink>, m: SignalLink)
    ensures Refs(fs, m) > 0 <==> m in fs
  {
    if fs != [] {
      RefsIn(fs[..|fs| - 1], m);
    }
  }

  lemma RefsSnoc(fs: seq<SignalLink>, f: SignalLink, m: SignalLink)
    ensures Refs(fs + [f], m) == Refs(fs, m) + if f == m then 1 else 0
  {
    assert (fs + [f])[..|fs|] == fs;
  }

  lemma DistinctNodes(ns: seq<SignalLink>, ids: seq<nat>)
    requires IdsMatch(ns, ids) && S.Increasing(ids) && forall i :: 0 <= i < |ids| ==> ids[i] >= 1
    ensures forall i, j :: 0 <= i < j < |ns| ==> ns[i] != ns[j]
  {
  }

  /** A node that the abstract memory counts as alive has not been deleted. */
  lemma AliveNotDeleted(ns: seq<SignalLink>, fs: seq<SignalLink>, owned: set<SignalLink>, mem: Mem, m: SignalLink)
    requires Represents(ns, fs, owned, mem) && MemOk(mem) && m in owned
    ensures Alive(mem, m.id) <==> !m.deleted
    ensures Alive(mem, m.id) ==> m in ns || m in fs
  {
    LinkedById(ns, fs, owned, mem, m);
    HeldById(ns, fs, owned, mem, m);
    RefsIn(fs, m);
    assert Shown(m, ns, fs, owned, mem) && Counted(m, ns, fs);
    if m.id in mem.stale {
      assert StaleOk(mem, m.id);
    }
  }

  /** `next` of a linked or held node leads where the abstract memory says. */
  lemma NextById(ns: seq<SignalLink>, fs: seq<SignalLink>, owned: set<SignalLink>, mem: Mem, m: SignalLink)
    requires Represents(ns, fs, owned, mem) && MemOk(mem) && m in owned && (m in ns || m in fs)
    ensures m.next != null && m.next in owned && m.next.id == NextOf(mem, m.id)
  {
    LinkedById(ns, fs, owned, mem, m);
    forall c | c in mem.stale ensures c != 0 && c !in mem.ring.ids { assert StaleOk(mem, c); }
    assert Shown(m, ns, fs, owned, mem) && Counted(m, ns, fs);
    if m in ns {
      var j :| 0 <= j < |ns| && ns[j] == m;
      assert m.next == ns[if j + 1 < |ns| then j + 1 else 0];
      NextAt(mem.ring.ids, j);
    }
  }

  lemma NextAt(ids: seq<nat>, i: nat)
    requires S.Increasing(ids) && i <= |ids| && forall j :: 0 <= j < |ids| ==> ids[j] >= 1
    ensures S.NextAfter(ids, if i == 0 then 0 else ids[i - 1]) == if i < |ids| then ids[i] else 0
  {
    var c := if i == 0 then 0 else ids[i - 1];
    var r := S.NextAfter(ids, c);
    if i < |ids| {
      assert ids[i] in ids && ids[i] > c;
      assert r in ids && r > c;
    }
  }

  // ------------------------------------------------------------------ the signal

  /** No handlers; the head of the ring has a function or not. */
  function NewMem(nextId: nat, hasDefault: bool): Mem
  {
    Mem(S.Ring([], nextId, if hasDefault then {} else {0}), map[], [], [])
  }

  lemma NewMemOk(nextId: nat, hasDefault: bool)
    requires nextId >= 1
    ensures MemOk(NewMem(nextId, hasDefault))
  {
  }

  lemma NewRing(head: SignalLink, nextId: nat, hasDefault: bool)
    requires head.id == 0 && head.next == head && head.prev == head && nextId >= 1
    requires head.refCount == 2 && !head.deleted && head.callable == hasDefault
    ensures Represents([head], [], {head}, NewMem(nextId, hasDefault))
  {
    assert Shown(head, [head], [], {head}, NewMem(nextId, hasDefault)) && Counted(head, [head], []);
  }

  /** The last of the references `fs + [link]` is given back. */
  method DropRef(link: SignalLink, ghost ns: seq<SignalLink>, ghost fs: seq<SignalLink>, ghost owned: set<SignalLink>)
    requires |ns| > 0 && link in owned && AllCounted(ns, fs + [link], owned)
    modifies link`refCount, link`deleted
    ensures AllCounted(ns, fs, owned)
  {
    assert Counted(link, ns, fs + [link]);
    RefsSnoc(fs, link, link);
    link.DecRef();
    forall m | m in owned
      ensures Counted(m, ns, fs)
    {
      assert old(Counted(m, ns, fs + [link]));
      RefsSnoc(fs, link, m);
    }
  }

  /** A reference to a node that has not been deleted is taken, before the last one of `fs`. */
  method TakeRef(next: SignalLink, ghost ns: seq<SignalLink>, ghost fs: seq<SignalLink>, ghost fs': seq<SignalLink>,
        ghost owned: set<SignalLink>)
    requires |ns| > 0 && next in owned && !next.deleted && AllCounted(ns, fs, owned)
    requires forall m :: m in owned ==> Refs(fs', m) == Refs(fs, m) + if m == next then 1 else 0
    modifies next`refCount
    ensures AllCounted(ns, fs', owned)
  {
    assert Counted(next, ns, fs);
    next.IncRef();
    forall m | m in owned
      ensures Counted(m, ns, fs')
    {
      assert old(Counted(m, ns, fs));
    }
  }

  /** `link->incref(); old->decref()`. */
  method ShiftRef(link: SignalLink, next: SignalLink, ghost ns: seq<SignalLink>, ghost fs: seq<SignalLink>,
        ghost owned: set<SignalLink>)
    requires |ns| > 0 && link in owned && next in owned && !next.deleted && AllCounted(ns, fs + [link], owned)
    modifies next`refCount, link`refCount, link`deleted
    ensures AllCounted(ns, fs + [next], owned)
  {
    RefsBetween(fs, next, link, owned);
    TakeRef(next, ns, fs + [link], fs + [next] + [link], owned);
    DropRef(link, ns, fs + [next], owned);
  }

  /** Taking node `i` out leaves the other nodes linked. */
  method UnlinkAt(link: SignalLink, ghost ns: seq<SignalLink>, ghost i: nat)
    requires 1 <= i < |ns| && ns[i] == link && LinkedRing(ns)
    requires forall j, k :: 0 <= j < k < |ns| ==> ns[j] != ns[k]
    requires forall m :: m in ns ==> !m.deleted && m.refCount > 0
    modifies link`callable, link`refCount, link`deleted, link.next`prev, link.prev`next
    ensures LinkedRing(ns[..i] + ns[i + 1..])
    ensures !link.callable && link.refCount == old(link.refCount) - 1 && (link.deleted <==> link.refCount == 0)
    ensures link.next == old(link.next)
    ensures old(link.next) in ns && old(link.prev) in ns && old(link.prev).next == link.next
  {
    ghost var after := if i + 1 < |ns| then i + 1 else 0;
    assert link.next == ns[after] && link.prev == ns[i - 1];
    link.Unlink();
    assert forall j {:trigger ns[j].next} :: 0 <= j < |ns| && j != i - 1 ==> ns[j].next == old(ns[j].next);
    assert forall j {:trigger ns[j].prev} :: 0 <= j < |ns| && j != after ==> ns[j].prev == old(ns[j].prev);
    RingWithout(ns, i);
  }

  /** The ring without node `i` represents `mem`, if the other nodes show what they should and the
      node, if it is held, has the successor `mem` says. */
  method CutOut(link: SignalLink, ghost ns: seq<SignalLink>, ghost i: nat, ghost rest: seq<SignalLink>,
        ghost fs: seq<SignalLink>, ghost owned: set<SignalLink>, ghost mem: Mem)
    requires 1 <= i < |ns| && ns[i] == link && LinkedRing(ns) && rest == ns[..i] + ns[i + 1..]
    requires forall j, k :: 0 <= j < k < |ns| ==> ns[j] != ns[k]
    requires forall m :: m in ns ==> m in owned && !m.deleted && m.refCount > 0
    requires IdsMatch(rest, mem.ring.ids) && FramesMatch(fs, mem.frames) && Owned(rest, fs, owned, mem)
    requires forall m :: m in owned && m != link ==> Shown(m, rest, fs, owned, mem)
    requires link in fs ==> link.id in mem.stale && link.next != null && link.next.id == mem.stale[link.id]
    requires AllCounted(ns, fs, owned)
    modifies link`callable, link`refCount, link`deleted, link.next`prev, link.prev`next
    ensures Represents(rest, fs, owned, mem)
  {
    InRest(ns, i);
    UnlinkAt(link, ns, i);
    forall m | m in owned
      ensures Shown(m, rest, fs, owned, mem) && Counted(m, rest, fs)
    {
      assert m != link ==> old(Shown(m, rest, fs, owned, mem));
      assert old(Counted(m, ns, fs));
    }
  }

  lemma InRest(ns: seq<SignalLink>, i: nat)
    requires 1 <= i < |ns| && forall j, k :: 0 <= j < k < |ns| ==> ns[j] != ns[k]
    ensures var rest := ns[..i] + ns[i + 1..];
            rest[0] == ns[0] && forall m :: m in rest <==> m in ns && m != ns[i]
  {
    var rest := ns[..i] + ns[i + 1..];
    assert forall j :: 0 <= j < |rest| ==> rest[j] == ns[if j < i then j else j + 1];
  }

  class ProtoSignal {
    var callbackRing: SignalLink?
    var nextId: nat
    ghost var nodes: seq<SignalLink>
    ghost var frames: seq<SignalLink>
    ghost var mem: Mem
    /** Every node this signal ever allocated. */
    ghost var owned: set<SignalLink>

    ghost predicate Valid()
      reads this, owned, nodes
    {
      && MemOk(mem) && nextId == mem.ring.nextId
      && if callbackRing == null then
           nodes == [] && frames == [] && owned == {} && mem == NewMem(nextId, false)
         else
           |nodes| > 0 && nodes[0] == callbackRing && Represents(nodes, frames, owned, mem)
    }

    method EnsureRing()
      requires Valid()
      modifies this
      ensures Valid() && callbackRing != null && mem == old(mem)
      ensures old(callbackRing) != null ==>
                callbackRing == old(callbackRing) && nodes == old(nodes) && frames == old(frames) && owned == old(owned)
      ensures old(callbackRing) == null ==>
                && fresh(callbackRing) && nodes == [callbackRing] && frames == [] && owned == {callbackRing}
                && callbackRing.id == 0 && callbackRing.refCount == 2 && !callbackRing.deleted
                && callbackRing.next == callbackRing == callbackRing.prev
    {
      if callbackRing == null {
        callbackRing := new SignalLink(0, false);
        callbackRing.IncRef();
        callbackRing.next := callbackRing;
        callbackRing.prev := callbackRing;
        nodes := [callbackRing];
        owned := {callbackRing};
        NewRing(callbackRing, nextId, false);
      }
    }

    /** `hasDefault` tells whether a default callback is given. */
    constructor (hasDefault: bool)
      ensures Valid() && fresh(owned) && mem == NewMem(1, hasDefault)
    {
      callbackRing := null;
      nextId := 1;
      nodes, frames, owned := [], [], {};
      mem := NewMem(1, false);
      new;
      NewMemOk(1, false);
      if hasDefault {
        EnsureRing();
        callbackRing.callable := true;
        mem := NewMem(1, true);
        NewMemOk(1, true);
        NewRing(callbackRing, 1, true);
      }
    }

    lemma LinkedNotDeleted()
      requires Valid() && callbackRing != null
      ensures forall m :: m in nodes ==> m in owned && !m.deleted && m.refCount > 0
    {
      forall m | m in nodes
        ensures m in owned && !m.deleted && m.refCount > 0
      {
        assert Counted(m, nodes, frames);
        RefsIn(frames, m);
      }
    }

    /** Links a new node in front of the head. */
    method AppendNode(callable: bool) returns (link: SignalLink)
      requires callbackRing != null && |nodes| > 0 && nodes[0] == callbackRing && LinkedRing(nodes)
      requires IdsMatch(nodes, mem.ring.ids) && MemOk(mem) && forall m :: m in nodes ==> !m.deleted
      modifies callbackRing`prev, callbackRing.prev`next
      ensures fresh(link) && link.id == nextId && link.callable == callable && link.refCount == 1 && !link.deleted
      ensures link.next == callbackRing && LinkedRing(nodes + [link])
      ensures old(callbackRing.prev) in nodes && old(callbackRing.prev).next == link
    {
      DistinctNodes(nodes, mem.ring.ids);
      assert callbackRing.prev == nodes[|nodes| - 1];
      link := callbackRing.AddBefore(nextId, callable);
      ghost var more := nodes + [link];
      assert more[|nodes|] == link && forall i :: 0 <= i < |nodes| ==> more[i] == nodes[i];
    }

    /** The value side of a node linked in front of the head. */
    lemma Grown(link: SignalLink)
      requires MemOk(mem) && IdsMatch(nodes, mem.ring.ids) && FramesMatch(frames, mem.frames)
      requires Owned(nodes, frames, owned, mem) && link !in owned && link.id == mem.ring.nextId
      ensures var ns, os, mem' := nodes + [link], owned + {link}, Perform(mem, S.Connect(link.callable));
              && MemOk(mem') && IdsMatch(ns, mem'.ring.ids) && FramesMatch(frames, mem'.frames)
              && Owned(ns, frames, os, mem')
    {
      PerformOk(mem, S.Connect(link.callable));
      forall a, b | a in owned + {link} && b in owned + {link} && SameId(a, b)
        ensures a == b
      {
        assert a in owned ==> a.id < link.id;
        assert b in owned ==> b.id < link.id;
      }
    }

    /** The heap part of `Append`. */
    method Attach(callable: bool) returns (link: SignalLink)
      requires Valid() && callbackRing != null
      modifies owned
      ensures fresh(link) && link.id == nextId
      ensures var mem' := Perform(mem, S.Connect(callable));
              MemOk(mem') && Represents(nodes + [link], frames, owned + {link}, mem')
    {
      LinkedNotDeleted();
      link := AppendNode(callable);
      Grown(link);
      ghost var ns, os, mem' := nodes + [link], owned + {link}, Perform(mem, S.Connect(callable));
      forall m | m in os
        ensures Shown(m, ns, frames, os, mem') && Counted(m, ns, frames)
      {
        if m in owned {
          assert old(Shown(m, nodes, frames, owned, mem)) && old(Counted(m, nodes, frames));
        }
        RefsIn(frames, m);
      }
    }

    method Append(callable: bool) returns (link: SignalLink)
      requires Valid() && callbackRing != null
      modifies this, owned
      ensures Valid() && mem == Perform(old(mem), S.Connect(callable))
      ensures callbackRing == old(callbackRing) && frames == old(frames)
      ensures fresh(link) && link.id == old(nextId) && owned == old(owned) + {link}
    {
      link := Attach(callable);
      nextId := nextId + 1;
      nodes, owned, mem := nodes + [link], owned + {link}, Perform(mem, S.Connect(callable));
    }

    /** `connect`, inside callbacks as well. */
    method Connect(callable: bool) returns (id: nat)
      requires Valid()
      modifies this, owned
      ensures Valid() && callbackRing != null && mem == Perform(old(mem), S.Connect(callable))
      ensures id == old(nextId) && frames == old(frames)
      ensures old(callbackRing) != null ==> callbackRing == old(callbackRing)
      ensures old(owned) <= owned && fresh(owned - old(owned))
    {
      if callbackRing == null {
        EnsureRing();
      }
      var link := Append(callable);
      id := link.id;
    }

    /** Node `i` can be cut out. */
    lemma Removable(link: SignalLink, i: nat)
      requires Valid() && callbackRing != null && 1 <= i < |nodes| && nodes[i] == link
      ensures LinkedRing(nodes) && AllCounted(nodes, frames, owned)
      ensures forall j, k :: 0 <= j < k < |nodes| ==> nodes[j] != nodes[k]
      ensures forall m :: m in nodes ==> m in owned && !m.deleted && m.refCount > 0
      ensures link.next != null && link.next in owned && link.prev != null && link.prev in owned
      ensures var rest, mem' := nodes[..i] + nodes[i + 1..], Perform(mem, S.Disconnect(link.id));
              && IdsMatch(rest, mem'.ring.ids) && FramesMatch(frames, mem'.frames) && Owned(rest, frames, owned, mem')
              && (forall m :: m in owned && m != link ==> Shown(m, rest, frames, owned, mem'))
              && (link in frames ==> link.id in mem'.stale && link.next.id == mem'.stale[link.id])
    {
      LinkedNotDeleted();
      Shrunk(nodes, frames, owned, mem, i);
      ShownRest(nodes, frames, owned, mem, i);
      Keeps(nodes, frames, owned, mem, i);
      DistinctNodes(nodes, mem.ring.ids);
      assert link.prev == nodes[i - 1];
    }

    /** The heap part of `Remove`. */
    method Detach(link: SignalLink, ghost i: nat)
      requires Valid() && callbackRing != null && 1 <= i < |nodes| && nodes[i] == link
      modifies owned
      ensures Represents(nodes[..i] + nodes[i + 1..], frames, owned, Perform(mem, S.Disconnect(link.id)))
    {
      Removable(link, i);
      ghost var rest := nodes[..i] + nodes[i + 1..];
      CutOut(link, nodes, i, rest, frames, owned, Perform(mem, S.Disconnect(link.id)));
    }

    /** Unlinks node `i` of the ring. */
    method Remove(link: SignalLink, ghost i: nat)
      requires Valid() && callbackRing != null && 1 <= i < |nodes| && nodes[i] == link
      modifies this`nodes, this`mem, owned
      ensures Valid() && mem == Perform(old(mem), S.Disconnect(link.id))
      ensures |nodes| == |old(nodes)| - 1
    {
      Detach(link, i);
      PerformOk(mem, S.Disconnect(link.id));
      nodes, mem := nodes[..i] + nodes[i + 1..], Perform(mem, S.Disconnect(link.id));
    }

    /** The search loop of `remove_sibling`. */
    method Find(id: nat) returns (link: SignalLink, ghost i: nat)
      requires Valid() && callbackRing != null
      ensures i < |nodes| && link == nodes[i] && (i == 0 <==> link == callbackRing)
      ensures i == 0 <==> id !in mem.ring.ids
      ensures i != 0 ==> link.id == id
    {
      LinkedNotDeleted();
      DistinctNodes(nodes, mem.ring.ids);
      assert !callbackRing.deleted;
      link := callbackRing.next;
      i := if |nodes| > 1 then 1 else 0;
      while link != callbackRing && id != link.id
        invariant 0 <= i < |nodes| && link == nodes[i] && (i == 0 <==> link == callbackRing)
        invariant forall j :: 0 <= j < (if i == 0 then |mem.ring.ids| else i - 1) ==> mem.ring.ids[j] != id
        decreases if i == 0 then 0 else |nodes| - i
      {
        assert !link.deleted;
        link := link.next;
        i := if i + 1 < |nodes| then i + 1 else 0;
      }
      if link != callbackRing {
        assert mem.ring.ids[i - 1] == id;
      }
    }

    /** `disconnect`, inside callbacks as well. */
    method Disconnect(id: nat) returns (ok: bool)
      requires Valid()
      modifies this, owned
      ensures Valid() && mem == Perform(old(mem), S.Disconnect(id))
      ensures ok <==> id in old(mem).ring.ids
      ensures callbackRing == old(callbackRing) && frames == old(frames) && owned == old(owned)
    {
      WithoutAbsentOr(mem.ring.ids, id);
      if callbackRing == null {
        return false;
      }
      var link, i := Find(id);
      if link != callbackRing {
        Remove(link, i);
        return true;
      } else {
        return false;
      }
    }

    // ---------------------------------------------------------------- references

    /** The reference an emission takes on the head before its loop. */
    method Hold() returns (link: SignalLink)
      requires Valid() && callbackRing != null
      modifies this`frames, this`mem, owned
      ensures Valid() && mem == Push(old(mem))
      ensures link == callbackRing && frames == old(frames) + [link]
    {
      link := callbackRing;
      HoldNode(link);
      PushOk(mem);
      frames, mem := frames + [link], Push(mem);
    }

    method HoldNode(link: SignalLink)
      requires Valid() && callbackRing != null && link == callbackRing
      modifies link`refCount
      ensures Represents(nodes, frames + [link], owned, Push(mem))
    {
      LinkedNotDeleted();
      PushShape(nodes, frames, owned, mem);
      RefsPlus(frames, link, owned);
      TakeRef(link, nodes, frames, frames + [link], owned);
    }

    /** The emission gives back its reference; an unlinked node is deleted if that was the last. */
    method Release(link: SignalLink)
      requires Valid() && callbackRing != null && frames != [] && link == frames[|frames| - 1]
      modifies this`frames, this`mem, owned
      ensures Valid() && mem == Pop(old(mem))
      ensures frames == old(frames)[..|old(frames)| - 1]
    {
      ReleaseNode(link);
      PopOk(mem);
      frames, mem := frames[..|frames| - 1], Pop(mem);
    }

    method ReleaseNode(link: SignalLink)
      requires Valid() && callbackRing != null && frames != [] && link == frames[|frames| - 1]
      modifies link`refCount, link`deleted
      ensures Represents(nodes, frames[..|frames| - 1], owned, Pop(mem))
    {
      ghost var fs := frames[..|frames| - 1];
      assert frames == fs + [link];
      PopShape(nodes, frames, owned, mem);
      DropRef(link, nodes, fs, owned);
    }

    /** The node the innermost emission would step to has been deleted exactly if the abstract memory
        does not count it as alive. */
    lemma DeletedIffDead(link: SignalLink)
      requires Valid() && callbackRing != null && frames != [] && link == frames[|frames| - 1]
      ensures link.next != null && (link.next.deleted <==> !Alive(mem, NextOf(mem, Top(mem))))
    {
      NextById(nodes, frames, owned, mem, link);
      AliveNotDeleted(nodes, frames, owned, mem, link.next);
    }

    /** `old = link; link = old->next; link->incref(); old->decref()`. */
    method Advance(link: SignalLink) returns (next: SignalLink)
      requires Valid() && callbackRing != null && frames != [] && link == frames[|frames| - 1]
      requires Alive(mem, NextOf(mem, Top(mem)))
      modifies this`frames, this`mem, owned
      ensures Valid() && mem == Move(old(mem), next.id) && next.id == NextOf(old(mem), Top(old(mem)))
      ensures frames == old(frames)[..|old(frames)| - 1] + [next]
      ensures next in owned && (next == callbackRing <==> next.id == 0)
    {
      next := AdvanceNode(link);
      LinkedById(nodes, frames[..|frames| - 1] + [next], owned, Move(mem, next.id), next);
      NextOk(mem);
      MoveOk(mem, next.id);
      frames, mem := frames[..|frames| - 1] + [next], Move(mem, next.id);
    }

    method AdvanceNode(link: SignalLink) returns (next: SignalLink)
      requires Valid() && callbackRing != null && frames != [] && link == frames[|frames| - 1]
      requires Alive(mem, NextOf(mem, Top(mem)))
      modifies owned
      ensures next in owned && next.id == NextOf(mem, Top(mem))
      ensures Represents(nodes, frames[..|frames| - 1] + [next], owned, Move(mem, next.id))
    {
      ghost var fs := frames[..|frames| - 1];
      assert frames == fs + [link];
      NextById(nodes, frames, owned, mem, link);
      CallableHere(nodes, frames, owned, mem, link);
      assert !link.deleted;
      next := link.next;
      AliveNotDeleted(nodes, frames, owned, mem, next);
      MoveShape(nodes, frames, owned, mem, next);
      ShiftRef(link, next, nodes, fs, owned);
    }

    // ------------------------------------------------------------------ emission

    /** The innermost emission starts an invocation whose collector will go on or not. */
    ghost method Mark(goOn: bool)
      requires Valid() && callbackRing != null && frames != []
      modifies this`mem
      ensures Valid() && mem == Marked(old(mem), goOn)
    {
      MarkedOk(mem, goOn);
      MarkShape(nodes, frames, owned, mem, goOn);
      mem := Marked(mem, goOn);
    }

    /** What a callback does, action by action. */
    method RunActs(acts: seq<Act>)
      requires Valid() && callbackRing != null && Acts(mem, acts).ok
      modifies this, owned
      ensures Valid() && callbackRing == old(callbackRing)
      ensures mem == Acts(old(mem), acts).mem && frames == old(frames)
      ensures old(owned) <= owned && fresh(owned - old(owned))
      decreases acts, 0
    {
      if acts != [] {
        RunAct(acts[0]);
        RunActs(acts[1..]);
      }
    }

    method RunAct(act: Act)
      requires Valid() && callbackRing != null && One(mem, act).ok
      modifies this, owned
      ensures Valid() && callbackRing == old(callbackRing)
      ensures mem == One(old(mem), act).mem && frames == old(frames)
      ensures old(owned) <= owned && fresh(owned - old(owned))
      decreases act, 0
    {
      match act
      case Do(a) =>
        match a {
          case Connect(callable) => var id := Connect(callable);
          case Disconnect(id) => var ok := Disconnect(id);
        }
      case Emit(turns) =>
        var calls := Emit(turns);
    }

    /** Calls the handler of `link`, if it has one; turn `k` tells what it does. */
    method CallHandler(link: SignalLink, turns: seq<Turn>, k: nat) returns (called: bool, stop: bool, k': nat)
      requires Valid() && callbackRing != null && frames != [] && link == frames[|frames| - 1]
      requires k <= |turns| && Visit(mem, turns[k..]).ok
      modifies this, owned
      ensures Valid() && callbackRing == old(callbackRing)
      ensures mem == Visit(old(mem), turns[k..]).mem && frames == old(frames)
      ensures called <==> Callable(old(mem), Top(old(mem)))
      ensures stop <==> Stops(old(mem), turns[k..])
      ensures k' == if Called(old(mem), turns[k..]) then k + 1 else k
      ensures old(owned) <= owned && fresh(owned - old(owned))
      decreases turns, 1
    {
      CallableHere(nodes, frames, owned, mem, link);
      assert !link.deleted;
      called, stop, k' := link.callable, false, k;
      if called && k < |turns| {
        Mark(turns[k].goOn);
        RunActs(turns[k].acts);
        stop, k' := !turns[k].goOn, k + 1;
      }
    }

    /** The innermost emission is at `link`, the others at `outer`. */
    ghost predicate At(outer: seq<SignalLink>, link: SignalLink)
      reads this, owned, nodes
    {
      Valid() && callbackRing != null && frames == outer + [link] && link in owned
    }

    /** After a visit that the collector did not end the emission at: on to the next node. */
    method MoveOn(link: SignalLink, calls: seq<nat>, ghost outer: seq<SignalLink>,
          ghost m: Mem, ghost rest: seq<Turn>, ghost whole: Run) returns (link': SignalLink, done: bool)
      requires At(outer, link) && MemOk(m) && m.frames != [] && Remains(whole, Loop(m, rest), calls)
      requires !Stops(m, rest) && Visit(m, rest).ok && mem == Visit(m, rest).mem && link.id == Top(m) == Top(mem)
      modifies this`frames, this`mem, owned
      ensures At(outer, link') && Emitting(mem, done, TurnsAfter(m, rest), CallsAfter(m, calls), whole)
      ensures !done ==> link'.id > link.id
    {
      LoopMoves(m, rest, calls, whole);
      link' := Advance(link);
      done := link' == callbackRing;
    }

    /** One turn of the loop of `emit`: calls the handler and moves on. */
    method VisitNode(link: SignalLink, turns: seq<Turn>, k: nat, calls: seq<nat>,
          ghost outer: seq<SignalLink>, ghost whole: Run)
        returns (link': SignalLink, calls': seq<nat>, k': nat, done: bool)
      requires At(outer, link) && k <= |turns| && Emitting(mem, false, turns[k..], calls, whole)
      modifies this, owned
      ensures At(outer, link') && callbackRing == old(callbackRing)
      ensures k <= k' <= |turns| && Emitting(mem, done, turns[k'..], calls', whole)
      ensures !done && k' == k ==> nextId == old(nextId) && nextId > link'.id > link.id
      ensures old(owned) <= owned && fresh(owned - old(owned))
      decreases turns, 2
    {
      ghost var m, rest := mem, turns[k..];
      assert IsRest(Loop(m, rest), m, rest);
      VisitOk(m, rest, calls, whole);
      TurnsFrom(m, turns, k);
      var called, stop;
      called, stop, k' := CallHandler(link, turns, k);
      calls' := if called then calls + [link.id] else calls;
      if stop {
        LoopStops(m, rest, calls, whole);
        link', done := link, true;
      } else {
        link', done := MoveOn(link, calls, outer, m, rest, whole);
      }
    }

    /** The loop of `emit`, from the head to the node at which it ends. */
    method Walk(link: SignalLink, turns: seq<Turn>, ghost outer: seq<SignalLink>, ghost whole: Run)
        returns (last: SignalLink, calls: seq<nat>)
      requires At(outer, link) && Emitting(mem, false, turns, [], whole)
      modifies this, owned
      ensures At(outer, last) && callbackRing == old(callbackRing) && Emitting(mem, true, [], calls, whole)
      ensures old(owned) <= owned && fresh(owned - old(owned))
      decreases turns, 3
    {
      last, calls := link, [];
      var k, done := 0, false;
      assert turns[0..] == turns;
      while !done
        invariant 0 <= k <= |turns| && At(outer, last) && callbackRing == old(callbackRing)
        invariant Emitting(mem, done, turns[k..], calls, whole)
        invariant old(owned) <= owned && fresh(owned - old(owned))
        decreases !done, |turns| - k, if last.id < nextId then nextId - last.id else 0
      {
        last, calls, k, done := VisitNode(last, turns, k, calls, outer, whole);
      }
    }

    method EmitRing(turns: seq<Turn>) returns (calls: seq<nat>)
      requires Valid() && callbackRing != null && Emitted(mem, turns).ok
      modifies this, owned
      ensures Valid() && callbackRing == old(callbackRing) && frames == old(frames)
      ensures mem == Emitted(old(mem), turns).mem && calls == CalledIds(Emitted(old(mem), turns).own)
      ensures old(owned) <= owned && fresh(owned - old(owned))
      decreases turns, 4
    {
      var link := Hold();
      link, calls := Walk(link, turns, old(frames), Loop(mem, turns));
      Release(link);
    }

    /** `emit`, from outside or inside a callback. */
    method Emit(turns: seq<Turn>) returns (calls: seq<nat>)
      requires Valid() && Emitted(mem, turns).ok
      modifies this, owned
      ensures Valid() && callbackRing == old(callbackRing) && frames == old(frames)
      ensures mem == Emitted(old(mem), turns).mem && calls == CalledIds(Emitted(old(mem), turns).own)
      ensures old(owned) <= owned && fresh(owned - old(owned))
      decreases turns, 5
    {
      if callbackRing == null {
        NothingToCall(nextId, turns);
        calls := [];
      } else {
        calls := EmitRing(turns);
      }
    }

    // ------------------------------------------------------------------ destruction

    /** Unlinks the first handler. */
    method RemoveFirst()
      requires Valid() && callbackRing != null && callbackRing.next != callbackRing
      modifies this`nodes, this`mem, owned
      ensures Valid() && |nodes| < |old(nodes)|
    {
      LinkedNotDeleted();
      assert !callbackRing.deleted;
      assert callbackRing.next == nodes[if |nodes| > 1 then 1 else 0];
      Remove(callbackRing.next, 1);
    }

    /** Drops both references to a head that is alone. */
    method DropHead()
      requires Valid() && callbackRing != null && callbackRing.next == callbackRing && frames == []
      modifies callbackRing
      ensures forall m :: m in owned ==> m.deleted
    {
      DistinctNodes(nodes, mem.ring.ids);
      assert nodes[0].next == nodes[if |nodes| > 1 then 1 else 0];
      forall m | m in owned
        ensures if m == callbackRing then m.refCount == 2 && !m.deleted else m.deleted
      {
        assert Counted(m, nodes, frames);
      }
      assert callbackRing.refCount >= 2;
      callbackRing.DecRef();
      callbackRing.DecRef();
    }

    /** The destructor, outside every emission: unlinks all handlers, then drops both references to the
        head. */
    method Destroy()
      requires Valid() && frames == []
      modifies this, owned
      ensures owned == old(owned) && forall m :: m in owned ==> m.deleted
    {
      if callbackRing == null {
        return;
      }
      while callbackRing.next != callbackRing
        invariant Valid() && callbackRing != null && owned == old(owned) && frames == []
        decreases |nodes|
      {
        RemoveFirst();
      }
      DropHead();
    }
  }

  /** Of the emission `whole`, `calls` have been made and `rest` is left. */
  ghost predicate Remains(whole: Run, rest: Run, calls: seq<nat>)
  {
    rest.ok && rest.mem == whole.mem && CalledIds(whole.own) == calls + CalledIds(rest.own)
  }

  /** Where the loop of `emit` stands before a visit, or after its last one. */
  ghost predicate Emitting(m: Mem, done: bool, rest: seq<Turn>, calls: seq<nat>, whole: Run)
    requires MemOk(m) && Framed(m)
  {
    if done then Pop(m) == whole.mem && calls == CalledIds(whole.own)
    else forall r {:trigger IsRest(r, m, rest)} :: IsRest(r, m, rest) ==> Remains(whole, r, calls)
  }

  ghost predicate IsRest(r: Run, m: Mem, rest: seq<Turn>)
    requires MemOk(m) && Framed(m)
  {
    r == Loop(m, rest)
  }

  lemma CallableHere(ns: seq<SignalLink>, fs: seq<SignalLink>, owned: set<SignalLink>, mem: Mem, link: SignalLink)
    requires Represents(ns, fs, owned, mem) && MemOk(mem) && fs != [] && link == fs[|fs| - 1]
    ensures link.id == Top(mem) && (link.callable <==> Callable(mem, link.id)) && !link.deleted
  {
    assert Shown(link, ns, fs, owned, mem) && Counted(link, ns, fs);
    RefsIn(fs, link);
    LinkedById(ns, fs, owned, mem, link);
    forall c | c in mem.stale ensures c != 0 && c !in mem.ring.ids { assert StaleOk(mem, c); }
  }

  lemma VisitOk(m: Mem, rest: seq<Turn>, calls: seq<nat>, whole: Run)
    requires MemOk(m) && m.frames != [] && Remains(whole, Loop(m, rest), calls)
    ensures Visit(m, rest).ok && Top(Visit(m, rest).mem) == Top(m)
  {
  }

  lemma TurnsFrom(m: Mem, turns: seq<Turn>, k: nat)
    requires m.frames != [] && k <= |turns|
    ensures Called(m, turns[k..]) ==> k < |turns|
    ensures TurnsAfter(m, turns[k..]) == turns[if Called(m, turns[k..]) then k + 1 else k..]
  {
  }

  function CallsAfter(m: Mem, calls: seq<nat>): seq<nat>
    requires m.frames != []
  {
    if Callable(m, Top(m)) then calls + [Top(m)] else calls
  }

  /** The collector ends the emission after a visit. */
  lemma LoopStops(m: Mem, rest: seq<Turn>, calls: seq<nat>, whole: Run)
    requires MemOk(m) && m.frames != [] && Remains(whole, Loop(m, rest), calls) && Stops(m, rest)
    ensures Pop(Visit(m, rest).mem) == whole.mem && CallsAfter(m, calls) == CalledIds(whole.own)
  {
    HereIds(m, Visit(m, rest).mem);
  }

  /** It does not, and the next node is the head, at which the loop ends; */
  lemma LoopReturns(m: Mem, rest: seq<Turn>, calls: seq<nat>, whole: Run)
    requires MemOk(m) && m.frames != [] && Remains(whole, Loop(m, rest), calls) && !Stops(m, rest)
    requires NextOf(Visit(m, rest).mem, Top(m)) == 0
    ensures Pop(Move(Visit(m, rest).mem, 0)) == whole.mem && CallsAfter(m, calls) == CalledIds(whole.own)
  {
    HereIds(m, Visit(m, rest).mem);
    MoveThenPop(Visit(m, rest).mem);
  }

  /** or a node that has not been deleted, at which it goes on. */
  lemma LoopGoesOn(m: Mem, rest: seq<Turn>, calls: seq<nat>, whole: Run)
    requires MemOk(m) && m.frames != [] && Remains(whole, Loop(m, rest), calls) && !Stops(m, rest)
    requires NextOf(Visit(m, rest).mem, Top(m)) != 0
    ensures var mem := Visit(m, rest).mem;
            var next := NextOf(mem, Top(m));
            && Alive(mem, next) && MemOk(Move(mem, next)) && Framed(Move(mem, next)) && next > Top(m)
            && Remains(whole, Loop(Move(mem, next), TurnsAfter(m, rest)), CallsAfter(m, calls))
  {
    var v := Visit(m, rest);
    assert Advances(m, rest, v);
    var on := After(m, rest, v);
    var left := Loop(on, TurnsAfter(m, rest));
    assert Loop(m, rest) == Joined(v, Here(m, v.mem), left);
    CallsJoined(m, v, left, calls);
  }

  lemma LoopMoves(m: Mem, rest: seq<Turn>, calls: seq<nat>, whole: Run)
    requires MemOk(m) && m.frames != [] && Remains(whole, Loop(m, rest), calls) && !Stops(m, rest)
    ensures var mem := Visit(m, rest).mem;
            var next := NextOf(mem, Top(m));
            && Alive(mem, next) && MemOk(Move(mem, next)) && Framed(Move(mem, next)) && (next == 0 || next > Top(m))
            && Emitting(Move(mem, next), next == 0, TurnsAfter(m, rest), CallsAfter(m, calls), whole)
  {
    var mem := Visit(m, rest).mem;
    if NextOf(mem, Top(m)) == 0 {
      MoveOk(mem, 0);
      LoopReturns(m, rest, calls, whole);
    } else {
      LoopGoesOn(m, rest, calls, whole);
    }
  }

  lemma CallsJoined(m: Mem, v: Run, left: Run, calls: seq<nat>)
    requires m.frames != []
    ensures calls + CalledIds(Joined(v, Here(m, v.mem), left).own) == CallsAfter(m, calls) + CalledIds(left.own)
  {
    HereIds(m, v.mem);
    CalledIdsAppend(Here(m, v.mem), left.own);
  }

  /** The step back to the head, at which the loop ends, changes nothing. */
  lemma MoveThenPop(m: Mem)
    requires MemOk(m) && m.frames != []
    ensures Framed(Move(m, 0)) && Pop(Move(m, 0)) == Pop(m)
  {
    forall c | c in m.stale ensures c != 0 { assert StaleOk(m, c); }
    HeadThenPop(m);
  }

  lemma HeadThenPop(m: Mem)
    requires Framed(m) && 0 !in m.stale
    ensures Framed(Move(m, 0)) && Pop(Move(m, 0)) == Pop(m)
  {
    var n, m' := |m.frames| - 1, Move(m, 0);
    assert m'.frames[..n] == m.frames[..n] && m'.going[..n] == m.going[..n];
    var fs := m.frames[..n];
    assert Top(m) in m'.frames <==> Top(m) in fs || Top(m) == 0;
    assert Pop(m').stale == Pop(m).stale;
  }

  /** Without a ring there is nobody to call. */
  lemma NothingToCall(nextId: nat, turns: seq<Turn>)
    requires nextId >= 1
    ensures var m := NewMem(nextId, false);
            MemOk(m) && Emitted(m, turns).ok && Emitted(m, turns).mem == m && Emitted(m, turns).own == []
  {
    NewMemOk(nextId, false);
    var m := NewMem(nextId, false);
    PushOk(m);
    var m1 := Push(m);
    assert !Called(m1, turns) && NextOf(m1, 0) == 0;
    assert Pop(m1) == m;
  }

  /** The ids without node `i`. */
  lemma Shrunk(ns: seq<SignalLink>, fs: seq<SignalLink>, owned: set<SignalLink>, mem: Mem, i: nat)
    requires S.WellFormed(mem.ring) && IdsMatch(ns, mem.ring.ids) && FramesMatch(fs, mem.frames)
    requires Owned(ns, fs, owned, mem) && 1 <= i < |ns|
    ensures var rest, mem' := ns[..i] + ns[i + 1..], Perform(mem, S.Disconnect(ns[i].id));
            IdsMatch(rest, mem'.ring.ids) && FramesMatch(fs, mem'.frames) && Owned(rest, fs, owned, mem')
  {
    assert ns[i].id == mem.ring.ids[i - 1];
    WithoutAt(mem.ring.ids, i - 1);
    IdsWithout(ns, mem.ring.ids, i);
    OwnedRest(ns, owned, i);
  }

  lemma OwnedRest(ns: seq<SignalLink>, owned: set<SignalLink>, i: nat)
    requires 1 <= i < |ns| && forall j :: 0 <= j < |ns| ==> ns[j] in owned
    ensures var rest := ns[..i] + ns[i + 1..]; forall j :: 0 <= j < |rest| ==> rest[j] in owned
  {
    var rest := ns[..i] + ns[i + 1..];
    assert forall j :: 0 <= j < |rest| ==> rest[j] == ns[if j < i then j else j + 1];
  }

  /** What the other nodes show does not change when node `i` is taken out ... */
  lemma ShownRest(ns: seq<SignalLink>, fs: seq<SignalLink>, owned: set<SignalLink>, mem: Mem, i: nat)
    requires Shape(ns, fs, owned, mem) && MemOk(mem) && 1 <= i < |ns|
    ensures var rest, mem' := ns[..i] + ns[i + 1..], Perform(mem, S.Disconnect(ns[i].id));
            forall m :: m in owned && m != ns[i] ==> Shown(m, rest, fs, owned, mem')
  {
    var rest, mem' := ns[..i] + ns[i + 1..], Perform(mem, S.Disconnect(ns[i].id));
    forall m | m in owned && m != ns[i]
      ensures Shown(m, rest, fs, owned, mem')
    {
      assert Shown(m, ns, fs, owned, mem);
      assert !SameId(m, ns[i]);
    }
  }

  /** ... and if that node is held, it keeps its successor. */
  lemma Keeps(ns: seq<SignalLink>, fs: seq<SignalLink>, owned: set<SignalLink>, mem: Mem, i: nat)
    requires Represents(ns, fs, owned, mem) && MemOk(mem) && 1 <= i < |ns|
    ensures var link, mem' := ns[i], Perform(mem, S.Disconnect(ns[i].id));
            && link.next != null && link.next in owned
            && (link in fs ==> link.id in mem'.stale && link.next.id == mem'.stale[link.id])
  {
    var link := ns[i];
    NextById(ns, fs, owned, mem, link);
    HeldById(ns, fs, owned, mem, link);
    assert link.id == mem.ring.ids[i - 1];
    forall c | c in mem.stale ensures c !in mem.ring.ids { assert StaleOk(mem, c); }
  }

  lemma RefsPlus(fs: seq<SignalLink>, f: SignalLink, owned: set<SignalLink>)
    ensures forall m :: m in owned ==> Refs(fs + [f], m) == Refs(fs, m) + if m == f then 1 else 0
  {
    forall m | m in owned
      ensures Refs(fs + [f], m) == Refs(fs, m) + if m == f then 1 else 0
    {
      RefsSnoc(fs, f, m);
    }
  }

  lemma RefsBetween(fs: seq<SignalLink>, next: SignalLink, link: SignalLink, owned: set<SignalLink>)
    ensures forall m :: m in owned ==>
              Refs(fs + [next] + [link], m) == Refs(fs + [link], m) + if m == next then 1 else 0
  {
    RefsPlus(fs, next, owned);
    RefsPlus(fs, link, owned);
    RefsPlus(fs + [next], link, owned);
  }

  lemma PushShape(ns: seq<SignalLink>, fs: seq<SignalLink>, owned: set<SignalLink>, mem: Mem)
    requires Shape(ns, fs, owned, mem)
    ensures Shape(ns, fs + [ns[0]], owned, Push(mem))
  {
    var fs' := fs + [ns[0]];
    forall m | m in owned
      ensures Shown(m, ns, fs', owned, Push(mem))
    {
      assert Shown(m, ns, fs, owned, mem);
    }
  }

  lemma MarkShape(ns: seq<SignalLink>, fs: seq<SignalLink>, owned: set<SignalLink>, mem: Mem, goOn: bool)
    requires Shape(ns, fs, owned, mem) && Framed(mem)
    ensures Shape(ns, fs, owned, Marked(mem, goOn))
  {
    forall m | m in owned
      ensures Shown(m, ns, fs, owned, Marked(mem, goOn))
    {
      assert Shown(m, ns, fs, owned, mem);
    }
  }

  lemma PopShape(ns: seq<SignalLink>, fs: seq<SignalLink>, owned: set<SignalLink>, mem: Mem)
    requires Shape(ns, fs, owned, mem) && MemOk(mem) && fs != []
    ensures Shape(ns, fs[..|fs| - 1], owned, Pop(mem))
  {
    PopMatches(ns, fs, owned, mem);
    forall m | m in owned
      ensures Shown(m, ns, fs[..|fs| - 1], owned, Pop(mem))
    {
      ShownPop(ns, fs, owned, mem, m);
    }
  }

  lemma MoveShape(ns: seq<SignalLink>, fs: seq<SignalLink>, owned: set<SignalLink>, mem: Mem, next: SignalLink)
    requires Shape(ns, fs, owned, mem) && MemOk(mem) && fs != [] && next in owned && (next in ns || next in fs)
    ensures Shape(ns, fs[..|fs| - 1] + [next], owned, Move(mem, next.id))
  {
    MoveMatches(ns, fs, owned, mem, next);
    forall m | m in owned
      ensures Shown(m, ns, fs[..|fs| - 1] + [next], owned, Move(mem, next.id))
    {
      ShownMove(ns, fs, owned, mem, next, m);
    }
  }

  lemma PopMatches(ns: seq<SignalLink>, fs: seq<SignalLink>, owned: set<SignalLink>, mem: Mem)
    requires FramesMatch(fs, mem.frames) && Owned(ns, fs, owned, mem) && Framed(mem)
    ensures FramesMatch(fs[..|fs| - 1], Pop(mem).frames) && Owned(ns, fs[..|fs| - 1], owned, Pop(mem))
    ensures Pop(mem).ring == mem.ring
  {
  }

  lemma MoveMatches(ns: seq<SignalLink>, fs: seq<SignalLink>, owned: set<SignalLink>, mem: Mem, next: SignalLink)
    requires FramesMatch(fs, mem.frames) && Owned(ns, fs, owned, mem) && Framed(mem) && next in owned
    ensures var fs', mem' := fs[..|fs| - 1] + [next], Move(mem, next.id);
            FramesMatch(fs', mem'.frames) && Owned(ns, fs', owned, mem') && mem'.ring == mem.ring
  {
  }

  lemma ShownPop(ns: seq<SignalLink>, fs: seq<SignalLink>, owned: set<SignalLink>, mem: Mem, m: SignalLink)
    requires Shape(ns, fs, owned, mem) && Framed(mem) && fs != [] && m in owned
    ensures Shown(m, ns, fs[..|fs| - 1], owned, Pop(mem))
  {
    var n := |fs| - 1;
    assert Shown(m, ns, fs, owned, mem);
    if m in fs[..n] {
      var i :| 0 <= i < n && fs[i] == m;
      assert mem.frames[..n][i] == m.id;
    }
  }

  lemma ShownMove(ns: seq<SignalLink>, fs: seq<SignalLink>, owned: set<SignalLink>, mem: Mem,
        next: SignalLink, m: SignalLink)
    requires Shape(ns, fs, owned, mem) && Framed(mem) && fs != [] && m in owned
    requires next in ns || next in fs
    ensures Shown(m, ns, fs[..|fs| - 1] + [next], owned, Move(mem, next.id))
  {
    var n, fs' := |fs| - 1, fs[..|fs| - 1] + [next];
    var mem' := Move(mem, next.id);
    assert Shown(m, ns, fs, owned, mem);
    if m in fs' {
      var i :| 0 <= i <= n && fs'[i] == m;
      assert mem'.frames[i] == m.id;
    }
  }

  /** `ns` is a ring in which node `i` is bypassed in both directions. */
  lemma RingWithout(ns: seq<SignalLink>, i: nat)
    requires 1 <= i < |ns|
    requires forall j {:trigger ns[j].next} :: 0 <= j < |ns| && j != i - 1 ==>
               ns[j].next == ns[if j + 1 < |ns| then j + 1 else 0]
    requires forall j {:trigger ns[j].prev} :: 0 <= j < |ns| && j != (if i + 1 < |ns| then i + 1 else 0) ==>
               ns[j].prev == ns[if j == 0 then |ns| - 1 else j - 1]
    requires var after := if i + 1 < |ns| then i + 1 else 0;
             ns[i - 1].next == ns[after] && ns[after].prev == ns[i - 1]
    ensures LinkedRing(ns[..i] + ns[i + 1..])
  {
    var rest := ns[..i] + ns[i + 1..];
    assert forall j :: 0 <= j < i ==> rest[j] == ns[j];
    assert forall j :: i <= j < |rest| ==> rest[j] == ns[j + 1];
  }

  lemma IdsWithout(ns: seq<SignalLink>, ids: seq<nat>, i: nat)
    requires IdsMatch(ns, ids) && 1 <= i < |ns|
    ensures IdsMatch(ns[..i] + ns[i + 1..], ids[..i - 1] + ids[i..])
  {
    var rest := ns[..i] + ns[i + 1..];
    assert forall j :: 0 <= j < i ==> rest[j] == ns[j];
    assert forall j :: i <= j < |rest| ==> rest[j] == ns[j + 1];
  }

  lemma WithoutAbsentOr(ids: seq<nat>, id: nat)
    ensures id in ids || S.Without(ids, id) == ids
  {
    if id !in ids {
      WithoutAbsent(ids, id);
    }
  }

  lemma {:induction false} WithoutAbsent(ids: seq<nat>, id: nat)
    requires id !in ids
    ensures S.Without(ids, id) == ids
  {
    if ids != [] {
      assert ids[0] in ids;
      WithoutAbsent(ids[1..], id);
    }
  }

  lemma {:induction false} WithoutAt(ids: seq<nat>, i: nat)
    requires S.Increasing(ids) && i < |ids|
    ensures S.Without(ids, ids[i]) == ids[..i] + ids[i + 1..]
  {
    if i == 0 {
      WithoutAbsent(ids[1..], ids[0]);
    } else {
      var rest := ids[1..];
      WithoutAt(rest, i - 1);
      assert rest[i - 1] == ids[i] && ids[0] < ids[i];
      assert ids[..i] + ids[i + 1..] == [ids[0]] + (rest[..i - 1] + rest[i..]);
    }
  }
}
