/** The event dispatcher and the receivers' connection tables (network/msgbus/event.hpp).  A signal
    is represented by the ring of `SignalSpec` and the receiver each connected wrapper calls.
  */
module DispatcherCore {
  import opened Wrappers
  import opened SignalSpec

  type Rid = nat
  type Family = nat

  /** `connections_`: family to connection id. */
  type Table = map<Family, nat>

  datatype Sig = Sig(ring: Ring, owner: map<nat, Rid>)

  const NEW_SIGNAL := Sig(Ring([], 1, {0}), map[])

  type Handlers = seq<Option<Sig>>

  /** `signal_for`: the handler list grows as needed and gets a signal on first use. */
  function SignalFor(hs: Handlers, f: Family): (r: Handlers)
    ensures f < |r| && |r| >= |hs| && r[f].Some?
    ensures forall g :: 0 <= g < |r| && g != f ==> r[g] == if g < |hs| then hs[g] else None
    ensures r[f] == if f < |hs| && hs[f].Some? then hs[f] else Some(NEW_SIGNAL)
  {
    var grown := if f < |hs| then hs else hs + seq(f + 1 - |hs|, _ => None);
    if grown[f].Some? then grown else grown[f := Some(NEW_SIGNAL)]
  }

  function Linked(s: Sig, r: Rid): Sig
  {
    Sig(Apply(s.ring, Connect(true)), s.owner[s.ring.nextId := r])
  }

  function Unlinked(s: Sig, id: nat): Sig { s.(ring := Apply(s.ring, Disconnect(id))) }

  function Subscribed(hs: Handlers, r: Rid, f: Family): Handlers
  {
    var grown := SignalFor(hs, f);
    grown[f := Some(Linked(grown[f].value, r))]
  }

  /** `connections_.insert` keeps an entry that is already there. */
  function Entered(hs: Handlers, t: Table, f: Family): Table
  {
    if f in t then t else t[f := SignalFor(hs, f)[f].value.ring.nextId]
  }

  /** The connection of family `f` in `t`, if any, is cut. */
  function Cut(hs: Handlers, t: Table, f: Family): (r: Handlers)
    ensures |r| == |hs|
  {
    if f in t && f < |hs| && hs[f].Some? then hs[f := Some(Unlinked(hs[f].value, t[f]))] else hs
  }

  function CutAll(hs: Handlers, t: Table): (r: Handlers)
    ensures |r| == |hs|
  {
    seq(|hs|, f requires 0 <= f < |hs| => if f in t && hs[f].Some? then Some(Unlinked(hs[f].value, t[f])) else hs[f])
  }

  class BaseReceiver {
    const rid: Rid
    var connections: Table

    constructor (rid: Rid)
      ensures this.rid == rid && connections == map[]
    {
      this.rid := rid;
      connections := map[];
    }

    /** The destructor. */
    method Destroy(d: MsgDispatcher)
      modifies d
      ensures d.handlers == CutAll(old(d.handlers), connections)
    {
      d.DisconnectAll(connections);
    }
  }

  class MsgDispatcher {
    var handlers: Handlers

    constructor ()
      ensures handlers == []
    {
      handlers := [];
    }

    method Ensure(f: Family)
      modifies this
      ensures handlers == SignalFor(old(handlers), f)
    {
      if f >= |handlers| {
        handlers := handlers + seq(f + 1 - |handlers|, _ => None);
      }
      if handlers[f].None? {
        handlers := handlers[f := Some(NEW_SIGNAL)];
      }
    }

    method Subscribe(r: BaseReceiver, f: Family)
      modifies this, r
      ensures handlers == Subscribed(old(handlers), r.rid, f)
      ensures r.connections == Entered(old(handlers), old(r.connections), f)
    {
      Ensure(f);
      var sig := handlers[f].value;
      var connection := sig.ring.nextId;
      handlers := handlers[f := Some(Linked(sig, r.rid))];
      if f !in r.connections {
        r.connections := r.connections[f := connection];
      }
    }

    /** Without a subscription the source asserts; with assertions off nothing happens. */
    method Unsubscribe(r: BaseReceiver, f: Family)
      modifies this, r
      ensures handlers == Cut(old(handlers), old(r.connections), f)
      ensures r.connections == old(r.connections) - {f}
    {
      if f in r.connections {
        if f < |handlers| && handlers[f].Some? {
          handlers := handlers[f := Some(Unlinked(handlers[f].value, r.connections[f]))];
        }
      }
      r.connections := r.connections - {f};
    }

    method UnsubscribeAll(r: BaseReceiver)
      modifies this, r
      ensures handlers == CutAll(old(handlers), old(r.connections)) && r.connections == map[]
    {
      DisconnectAll(r.connections);
      r.connections := map[];
    }

    /** The loop over a table, in the order of the hash map, whatever that is. */
    method DisconnectAll(t: Table)
      modifies this
      ensures handlers == CutAll(old(handlers), t)
    {
      var todo := t.Keys;
      while todo != {}
        invariant todo <= t.Keys && |handlers| == |old(handlers)|
        invariant forall f :: 0 <= f < |handlers| ==>
                    handlers[f] == if f in todo then old(handlers)[f] else CutAll(old(handlers), t)[f]
        decreases todo
      {
        var f :| f in todo;
        if f < |handlers| && handlers[f].Some? {
          handlers := handlers[f := Some(Unlinked(handlers[f].value, t[f]))];
        }
        todo := todo - {f};
      }
    }
  }
}
