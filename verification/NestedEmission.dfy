/** Emissions inside callbacks of emissions (network/msgbus/msg_signal.hpp), on values.

    Any number of emissions can be under way at once, each holding a reference to the node it is
    at.  A node that is unlinked while held stays allocated with its `next` as it was.
  */
module NestedEmission {
  import opened Wrappers
  import S = SignalSpec

  /** What a callback does: connect, disconnect, or emit again; `turns` are then the callback
      invocations of that emission, in order. */
  datatype Act = Do(action: S.Action) | Emit(turns: seq<Turn>)
  datatype Turn = Turn(acts: seq<Act>, goOn: bool)

  /** `frames` holds the node of each running emission, outermost first, and `going` whether its
      collector lets it go on after the invocation under way; `stale` holds the unlinked nodes
      among the frames, with their `next`. */
  datatype Mem = Mem(ring: S.Ring, stale: map<nat, nat>, frames: seq<nat>, going: seq<bool>)

  /** The node has not been deleted. */
  predicate Alive(m: Mem, x: nat) { x == 0 || x in m.ring.ids || x in m.stale }

  function NextOf(m: Mem, x: nat): nat
  {
    if x in m.stale then m.stale[x] else S.NextAfter(m.ring.ids, x)
  }

  predicate StaleOk(m: Mem, c: nat)
    requires c in m.stale
  {
    && c in m.frames && c !in m.ring.ids && 1 <= c < m.ring.nextId
    && (m.stale[c] == 0 || c < m.stale[c] < m.ring.nextId)
  }

  /** The held nodes are allocated, and no unlinked node is allocated unless it is held. */
  ghost predicate MemOk(m: Mem)
  {
    && S.WellFormed(m.ring) && |m.going| == |m.frames|
    && (forall i :: 0 <= i < |m.frames| ==> m.frames[i] < m.ring.nextId && Alive(m, m.frames[i]))
    && (forall c :: c in m.stale ==> StaleOk(m, c))
  }

  function Perform(m: Mem, a: S.Action): Mem
  {
    var ring := S.Apply(m.ring, a);
    if a.Disconnect? && a.id in m.ring.ids && a.id in m.frames then
      m.(ring := ring, stale := m.stale[a.id := S.NextAfter(m.ring.ids, a.id)])
    else m.(ring := ring)
  }

  function Top(m: Mem): nat
    requires m.frames != []
  {
    m.frames[|m.frames| - 1]
  }

  /** An unlinked node that is no longer held is deleted. */
  function Collected(m: Mem, c: nat): Mem
  {
    if c in m.frames then m else m.(stale := m.stale - {c})
  }

  /** Some emission is running. */
  predicate Framed(m: Mem) { m.frames != [] && |m.going| == |m.frames| }

  function Push(m: Mem): Mem { m.(frames := m.frames + [0], going := m.going + [true]) }

  function Pop(m: Mem): Mem
    requires Framed(m)
  {
    var n := |m.frames| - 1;
    Collected(m.(frames := m.frames[..n], going := m.going[..n]), Top(m))
  }

  /** `link = old->next; link->incref(); old->decref()`. */
  function Move(m: Mem, next: nat): Mem
    requires Framed(m)
  {
    var n := |m.frames| - 1;
    Collected(m.(frames := m.frames[..n] + [next], going := m.going[..n] + [true]), Top(m))
  }

  /** The innermost emission starts an invocation after which its collector goes on or not. */
  function Marked(m: Mem, goOn: bool): Mem
    requires Framed(m)
  {
    m.(going := m.going[..|m.going| - 1] + [goOn])
  }

  /** The node's function would be invoked. */
  predicate Callable(m: Mem, x: nat) { x !in m.stale && x !in m.ring.mute }

  lemma PerformOk(m: Mem, a: S.Action)
    requires MemOk(m)
    ensures MemOk(Perform(m, a))
    ensures Perform(m, a).ring.nextId >= m.ring.nextId
  {
    S.ApplyWellFormed(m.ring, a);
    var m' := Perform(m, a);
    forall c | c in m'.stale
      ensures StaleOk(m', c)
    {
      assert c in m.stale ==> StaleOk(m, c);
      if c !in m.stale {
        var n := S.NextAfter(m.ring.ids, c);
        assert n != 0 ==> n in m.ring.ids;
      }
    }
  }

  lemma PushOk(m: Mem)
    requires MemOk(m)
    ensures MemOk(Push(m)) && Top(Push(m)) == 0 && TopGoes(Push(m))
  {
    forall c | c in m.stale ensures StaleOk(Push(m), c) { assert StaleOk(m, c); }
  }

  /** The innermost emission will go on. */
  predicate TopGoes(m: Mem) { Framed(m) && m.going[|m.going| - 1] }

  lemma MarkedOk(m: Mem, goOn: bool)
    requires MemOk(m) && m.frames != []
    ensures MemOk(Marked(m, goOn)) && (TopGoes(Marked(m, goOn)) <==> goOn)
    ensures Marked(m, goOn).going[..|m.frames| - 1] == m.going[..|m.frames| - 1]
  {
    forall c | c in m.stale ensures StaleOk(Marked(m, goOn), c) { assert StaleOk(m, c); }
    forall i | 0 <= i < |m.frames| ensures Alive(Marked(m, goOn), m.frames[i]) { assert Alive(m, m.frames[i]); }
  }

  lemma PopOk(m: Mem)
    requires MemOk(m) && m.frames != []
    ensures MemOk(Pop(m)) && Pop(m).frames == m.frames[..|m.frames| - 1] && Pop(m).going == m.going[..|m.frames| - 1]
  {
    var n := |m.frames| - 1;
    assert forall x :: x in m.frames <==> x in m.frames[..n] || x == m.frames[n];
    forall c | c in Pop(m).stale ensures StaleOk(Pop(m), c) { assert StaleOk(m, c); }
    forall i | 0 <= i < n
      ensures m.frames[i] < m.ring.nextId && Alive(Pop(m), m.frames[i])
    {
      assert m.frames[i] in m.frames[..n];
    }
  }

  lemma MoveOk(m: Mem, next: nat)
    requires MemOk(m) && m.frames != [] && Alive(m, next) && next < m.ring.nextId
    ensures MemOk(Move(m, next)) && |Move(m, next).frames| == |m.frames| && Top(Move(m, next)) == next
    ensures Move(m, next).frames[..|m.frames| - 1] == m.frames[..|m.frames| - 1]
    ensures Move(m, next).going[..|m.frames| - 1] == m.going[..|m.frames| - 1] && TopGoes(Move(m, next))
  {
    var n := |m.frames| - 1;
    var m' := Move(m, next);
    assert forall x :: x in m.frames <==> x in m.frames[..n] || x == m.frames[n];
    forall c | c in m'.stale ensures StaleOk(m', c) { assert StaleOk(m, c); }
    forall i | 0 <= i <= n
      ensures m'.frames[i] < m'.ring.nextId && Alive(m', m'.frames[i])
    {
      if i < n {
        assert m.frames[i] in m'.frames;
      }
    }
  }

  // ------------------------------------------------------------------ runs

  /** A node and the memory at some moment. */
  datatype Stamp = Stamp(mem: Mem, id: nat)

  /** The invocation of a node's function, with the memory before and after it. */
  datatype Invocation = Invocation(before: Mem, after: Mem, id: nat)

  /** `cuts` lists the `disconnect` calls; `own` the invocations the emission itself made.  `stopped`
      says that its collector ended it; `ok` is false when it, or one inside it, stepped to a
      deleted node. */
  datatype Run = Run(mem: Mem, cuts: seq<Stamp>, own: seq<Invocation>, stopped: bool, ok: bool)

  predicate SameFrames(m: Mem, m': Mem) { m.frames == m'.frames && m.going == m'.going }

  ghost function Acts(m: Mem, acts: seq<Act>): (r: Run)
    requires MemOk(m)
    ensures r.ok ==> MemOk(r.mem) && SameFrames(r.mem, m) && r.mem.ring.nextId >= m.ring.nextId
    decreases acts, 0
  {
    if acts == [] then Run(m, [], [], false, true)
    else
      var first := One(m, acts[0]);
      if !first.ok then first
      else
        var rest := Acts(first.mem, acts[1..]);
        Run(rest.mem, first.cuts + rest.cuts, [], false, rest.ok)
  }

  ghost function One(m: Mem, act: Act): (r: Run)
    requires MemOk(m)
    ensures r.ok ==> MemOk(r.mem) && SameFrames(r.mem, m) && r.mem.ring.nextId >= m.ring.nextId
    decreases act, 0
  {
    match act
    case Do(a) =>
      PerformOk(m, a);
      Run(Perform(m, a), if a.Disconnect? then [Stamp(m, a.id)] else [], [], false, true)
    case Emit(turns) =>
      PushOk(m);
      var r := Loop(Push(m), turns);
      assert r.ok ==> SameFrames(r.mem, m);
      r.(own := [], stopped := false)
  }

  /** A run that leaves the emissions at their nodes and the collectors of the outer ones alone. */
  ghost predicate Returns(m: Mem, r: Run)
    requires MemOk(m) && m.frames != []
  {
    r.ok ==>
      && MemOk(r.mem) && r.mem.frames == m.frames && r.mem.ring.nextId >= m.ring.nextId
      && r.mem.going[..|m.frames| - 1] == m.going[..|m.frames| - 1]
  }

  /** The invocation at the top node, if it has a function and a turn is left. */
  ghost function Visit(m: Mem, turns: seq<Turn>): (r: Run)
    requires MemOk(m) && m.frames != []
    ensures Returns(m, r)
    ensures r.ok && TopGoes(m) ==> (TopGoes(r.mem) <==> !Stops(m, turns))
    ensures !Called(m, turns) ==> r == Run(m, [], [], false, true)
    decreases turns, 0
  {
    if Called(m, turns) then
      MarkedOk(m, turns[0].goOn);
      Acts(Marked(m, turns[0].goOn), turns[0].acts)
    else Run(m, [], [], false, true)
  }

  /** A turn is used up; once all are, callbacks do nothing. */
  predicate Called(m: Mem, turns: seq<Turn>)
    requires m.frames != []
  {
    Callable(m, Top(m)) && turns != []
  }

  function TurnsAfter(m: Mem, turns: seq<Turn>): seq<Turn>
    requires m.frames != []
  {
    if Called(m, turns) then turns[1..] else turns
  }

  /** The invocation at the top node, if it has a function. */
  function Here(m: Mem, after: Mem): seq<Invocation>
    requires m.frames != []
  {
    if Callable(m, Top(m)) then [Invocation(m, after, Top(m))] else []
  }

  lemma NextOk(m: Mem)
    requires MemOk(m) && m.frames != []
    ensures var next := NextOf(m, Top(m)); next == 0 || Top(m) < next < m.ring.nextId
  {
    if Top(m) in m.stale {
      assert StaleOk(m, Top(m));
    }
  }

  /** After a visit that kept the frames, the innermost emission can move on. */
  lemma GoesOn(m: Mem, m': Mem, next: nat)
    requires MemOk(m') && m.frames != [] && m'.frames == m.frames
    requires next == NextOf(m', Top(m)) && next != 0 && Alive(m', next)
    ensures next > Top(m) == Top(m') && next < m'.ring.nextId
    ensures var on := Move(m', next);
            && MemOk(on) && |on.frames| == |m.frames| && Top(on) == next && on.ring.nextId == m'.ring.nextId
            && on.frames[..|m.frames| - 1] == m.frames[..|m.frames| - 1] && TopGoes(on)
            && on.going[..|m.frames| - 1] == m'.going[..|m.frames| - 1]
  {
    NextOk(m');
    MoveOk(m', next);
  }

  /** The collector ends the emission after this visit. */
  predicate Stops(m: Mem, turns: seq<Turn>)
    requires m.frames != []
  {
    Called(m, turns) && !turns[0].goOn
  }

  function Joined(v: Run, here: seq<Invocation>, rest: Run): Run
  {
    Run(rest.mem, v.cuts + rest.cuts, here + rest.own, rest.stopped, rest.ok)
  }

  /** The loop goes round again after the visit `v`. */
  ghost predicate Advances(m: Mem, turns: seq<Turn>, v: Run)
    requires m.frames != []
  {
    v.ok && !Stops(m, turns) && NextOf(v.mem, Top(m)) != 0 && Alive(v.mem, NextOf(v.mem, Top(m)))
  }

  /** It does not: the visit failed, it was the last, or the next node is deleted. */
  ghost function Halted(m: Mem, turns: seq<Turn>, v: Run): (r: Run)
    requires MemOk(m) && m.frames != [] && Returns(m, v) && !Advances(m, turns, v)
    ensures r.ok ==> MemOk(r.mem) && r.mem.frames == m.frames[..|m.frames| - 1] && r.mem.ring.nextId >= m.ring.nextId
    ensures r.ok ==> r.mem.going == m.going[..|m.frames| - 1]
  {
    if v.ok && (Stops(m, turns) || NextOf(v.mem, Top(m)) == 0) then
      PopOk(v.mem);
      Run(Pop(v.mem), v.cuts, Here(m, v.mem), Stops(m, turns), true)
    else Run(v.mem, v.cuts, Here(m, v.mem), false, false)
  }

  /** The memory when the loop arrives at the next node. */
  ghost function After(m: Mem, turns: seq<Turn>, v: Run): (on: Mem)
    requires MemOk(m) && m.frames != [] && Returns(m, v) && Advances(m, turns, v)
    ensures MemOk(on) && TopGoes(on) && |on.frames| == |m.frames| && Top(on) == NextOf(v.mem, Top(m)) > Top(m)
    ensures on.frames[..|m.frames| - 1] == m.frames[..|m.frames| - 1]
    ensures on.going[..|m.frames| - 1] == m.going[..|m.frames| - 1]
    ensures on.ring.nextId == v.mem.ring.nextId && on == Move(v.mem, NextOf(v.mem, Top(m)))
  {
    GoesOn(m, v.mem, NextOf(v.mem, Top(m)));
    Move(v.mem, NextOf(v.mem, Top(m)))
  }

  /** The loop of the innermost emission, from its current node on. */
  ghost function Loop(m: Mem, turns: seq<Turn>): (r: Run)
    requires MemOk(m) && m.frames != []
    ensures r.ok ==> MemOk(r.mem) && r.mem.frames == m.frames[..|m.frames| - 1] && r.mem.ring.nextId >= m.ring.nextId
    ensures r.ok ==> r.mem.going == m.going[..|m.frames| - 1]
    decreases turns, 1, m.ring.nextId - Top(m)
  {
    var v := Visit(m, turns);
    if Advances(m, turns, v) then Joined(v, Here(m, v.mem), Loop(After(m, turns, v), TurnsAfter(m, turns)))
    else Halted(m, turns, v)
  }

  // ------------------------------------------------------------------ safety

  /** Where an emission with the emissions `outer` outside it arrives from an unlinked node whose
      `next` is `x`: it passes over unlinked nodes as long as the outer ones keep them allocated. */
  function Landing(m: Mem, outer: seq<nat>, x: nat): nat
    decreases m.ring.nextId - x
  {
    if x in m.stale && x in outer && x < m.stale[x] < m.ring.nextId then Landing(m, outer, m.stale[x])
    else if x in m.stale && x in outer then 0
    else x
  }

  /** Emission `i` will go on from an unlinked node and arrive at a node that will be gone. */
  predicate DoomedAt(m: Mem, i: nat)
  {
    && i < |m.frames| && i < |m.going| && m.going[i] && m.frames[i] in m.stale
    && Gone(m, Landing(m, m.frames[..i], m.stale[m.frames[i]]))
  }

  predicate Gone(m: Mem, x: nat) { x != 0 && x !in m.ring.ids }

  predicate Doomed(m: Mem) { exists i :: 0 <= i < |m.frames| && DoomedAt(m, i) }

  /** Emission `i` will go on from an unlinked node and would arrive at the node about to be
      disconnected, at which no emission outside `i` is. */
  predicate HazardAt(c: Stamp, i: nat)
  {
    && i < |c.mem.frames| && i < |c.mem.going| && c.mem.going[i] && c.mem.frames[i] in c.mem.stale
    && Landing(c.mem, c.mem.frames[..i], c.mem.stale[c.mem.frames[i]]) == c.id
    && c.id !in c.mem.frames[..i]
  }

  predicate Hazard(c: Stamp)
  {
    c.id in c.mem.ring.ids && exists i :: 0 <= i < |c.mem.frames| && HazardAt(c, i)
  }

  predicate AnyHazard(cuts: seq<Stamp>) { exists k :: 0 <= k < |cuts| && Hazard(cuts[k]) }

  lemma AnyHazardAppend(a: seq<Stamp>, b: seq<Stamp>)
    ensures AnyHazard(a + b) <==> AnyHazard(a) || AnyHazard(b)
  {
    var c := a + b;
    assert forall k :: 0 <= k < |a| ==> c[k] == a[k];
    assert forall k :: 0 <= k < |b| ==> c[|a| + k] == b[k];
    if AnyHazard(c) {
      var k :| 0 <= k < |c| && Hazard(c[k]);
      assert if k < |a| then c[k] == a[k] else c[k] == b[k - |a|];
    }
  }

  lemma AnyHazardOne(c: Stamp)
    ensures AnyHazard([c]) <==> Hazard(c)
  {
    assert [c][0] == c;
  }

  /** The landing is 0, linked, or not kept by the outer emissions. */
  lemma {:induction false} LandingEnds(m: Mem, outer: seq<nat>, x: nat)
    ensures var l := Landing(m, outer, x); l == 0 || l !in m.stale || l !in outer
    ensures x < m.ring.nextId ==> Landing(m, outer, x) < m.ring.nextId
    decreases m.ring.nextId - x
  {
    if x in m.stale && x in outer && x < m.stale[x] < m.ring.nextId {
      LandingEnds(m, outer, m.stale[x]);
    }
  }

  /** The landing depends only on the unlinked nodes that the outer emissions are at. */
  lemma {:induction false} LandingSame(m: Mem, m': Mem, outer: seq<nat>, x: nat)
    requires m'.ring.nextId == m.ring.nextId
    requires forall y :: y in outer ==>
               (y in m.stale <==> y in m'.stale) && (y in m.stale ==> m.stale[y] == m'.stale[y])
    ensures Landing(m', outer, x) == Landing(m, outer, x)
    decreases m.ring.nextId - x
  {
    if x in m.stale && x in outer && x < m.stale[x] < m.ring.nextId {
      LandingSame(m, m', outer, m.stale[x]);
    }
  }

  /** What a connect or disconnect does to a landing: it moves only if the node itself is unlinked
      while an outer emission is at it. */
  lemma {:induction false} LandingPerform(m: Mem, a: S.Action, outer: seq<nat>, x: nat)
    requires MemOk(m) && (forall y :: y in outer ==> y in m.frames) && x < m.ring.nextId
    ensures var l, m' := Landing(m, outer, x), Perform(m, a);
            Landing(m', outer, x) ==
            if a == S.Disconnect(l) && l in m.ring.ids && l in outer then S.NextAfter(m.ring.ids, l) else l
    decreases m.ring.nextId - x
  {
    PerformOk(m, a);
    if x in m.stale {
      assert StaleOk(m, x);
      if x in outer && m.stale[x] != 0 {
        LandingPerform(m, a, outer, m.stale[x]);
      }
    } else if a == S.Disconnect(x) && x in m.ring.ids && x in outer {
      var n := S.NextAfter(m.ring.ids, x);
      assert n != 0 ==> n in m.ring.ids && n !in Perform(m, a).stale;
    }
  }

  lemma PerformDoomed(m: Mem, a: S.Action, i: nat)
    requires MemOk(m) && DoomedAt(m, i)
    ensures DoomedAt(Perform(m, a), i)
  {
    var x := m.stale[m.frames[i]];
    assert StaleOk(m, m.frames[i]);
    LandingEnds(m, m.frames[..i], x);
    LandingPerform(m, a, m.frames[..i], x);
  }

  lemma PerformSafe(m: Mem, a: S.Action, i: nat)
    requires MemOk(m) && i < |m.frames| && !DoomedAt(m, i)
    ensures DoomedAt(Perform(m, a), i) <==> a.Disconnect? && a.id in m.ring.ids && HazardAt(Stamp(m, a.id), i)
  {
    var c, m' := m.frames[i], Perform(m, a);
    PerformOk(m, a);
    if c in m.stale {
      assert StaleOk(m, c);
      assert c in m'.stale && m'.stale[c] == m.stale[c];
      LandingPerform(m, a, m.frames[..i], m.stale[c]);
      if m.going[i] {
        LandingKept(m, a, m.frames[..i], m.stale[c]);
      }
    } else if c in m'.stale {
      NewlyStale(m, a, m.frames[..i], c);
    }
  }

  /** A safe landing is gone after the action exactly if the action disconnects it and no outer
      emission is at it. */
  lemma LandingKept(m: Mem, a: S.Action, outer: seq<nat>, x: nat)
    requires MemOk(m) && (forall y :: y in outer ==> y in m.frames) && x < m.ring.nextId
    requires !Gone(m, Landing(m, outer, x))
    ensures var l := Landing(m, outer, x);
            Gone(Perform(m, a), Landing(Perform(m, a), outer, x)) <==>
              a == S.Disconnect(l) && l in m.ring.ids && l !in outer
  {
    var l := Landing(m, outer, x);
    LandingPerform(m, a, outer, x);
    if a == S.Disconnect(l) && l in m.ring.ids && l in outer {
      var n := S.NextAfter(m.ring.ids, l);
      assert n != 0 ==> n in m.ring.ids && n != l;
    }
  }

  /** A node unlinked just now leads to a linked one. */
  lemma NewlyStale(m: Mem, a: S.Action, outer: seq<nat>, c: nat)
    requires MemOk(m) && c !in m.stale && c in Perform(m, a).stale
    ensures var m' := Perform(m, a); !Gone(m', Landing(m', outer, m'.stale[c]))
  {
    var m' := Perform(m, a);
    PerformOk(m, a);
    var n := S.NextAfter(m.ring.ids, c);
    assert m'.stale[c] == n && (n != 0 ==> n in m'.ring.ids);
    forall x | x in m'.stale ensures x !in m'.ring.ids { assert StaleOk(m', x); }
  }

  lemma PerformExact(m: Mem, a: S.Action)
    requires MemOk(m) && !Doomed(m)
    ensures Doomed(Perform(m, a)) <==> a.Disconnect? && Hazard(Stamp(m, a.id))
  {
    forall i | 0 <= i < |m.frames|
      ensures DoomedAt(Perform(m, a), i) <==> a.Disconnect? && a.id in m.ring.ids && HazardAt(Stamp(m, a.id), i)
    {
      PerformSafe(m, a, i);
    }
  }

  /** The prospects of emission `i` depend on the emissions up to `i` and on what they are at. */
  lemma DoomedSame(m: Mem, m': Mem, i: nat)
    requires i < |m.frames| && i < |m'.frames| && m'.frames[..i + 1] == m.frames[..i + 1]
    requires i < |m.going| && i < |m'.going| && m'.going[i] == m.going[i] && m'.ring == m.ring
    requires forall y :: y in m.frames[..i + 1] ==>
               (y in m.stale <==> y in m'.stale) && (y in m.stale ==> m.stale[y] == m'.stale[y])
    ensures DoomedAt(m', i) <==> DoomedAt(m, i)
  {
    assert m'.frames[i] == m'.frames[..i + 1][i] == m.frames[..i + 1][i] == m.frames[i];
    assert m'.frames[..i] == m'.frames[..i + 1][..i] == m.frames[..i + 1][..i] == m.frames[..i];
    assert forall y :: y in m.frames[..i] ==> y in m.frames[..i + 1];
    assert m.frames[i] in m.frames[..i + 1];
    if m.frames[i] in m.stale {
      LandingSame(m, m', m.frames[..i], m.stale[m.frames[i]]);
    }
  }

  lemma PushDoomed(m: Mem)
    requires MemOk(m)
    ensures forall i :: 0 <= i < |m.frames| ==> (DoomedAt(Push(m), i) <==> DoomedAt(m, i))
    ensures !DoomedAt(Push(m), |m.frames|)
  {
    forall c | c in m.stale ensures c != 0 { assert StaleOk(m, c); }
    forall i | 0 <= i < |m.frames|
      ensures DoomedAt(Push(m), i) <==> DoomedAt(m, i)
    {
      assert Push(m).frames[..i + 1] == m.frames[..i + 1];
      DoomedSame(m, Push(m), i);
    }
  }

  lemma MarkedDoomed(m: Mem, goOn: bool)
    requires MemOk(m) && m.frames != []
    ensures forall i :: 0 <= i < |m.frames| - 1 ==> (DoomedAt(Marked(m, goOn), i) <==> DoomedAt(m, i))
  {
    forall i | 0 <= i < |m.frames| - 1
      ensures DoomedAt(Marked(m, goOn), i) <==> DoomedAt(m, i)
    {
      DoomedSame(m, Marked(m, goOn), i);
    }
  }

  /** Leaving a node does not change the prospects of the emissions outside. */
  lemma LeaveDoomed(m: Mem, m': Mem, i: nat)
    requires Framed(m) && i < |m.frames| - 1 && |m'.frames| > i && m'.frames[..i + 1] == m.frames[..i + 1]
    requires |m'.going| > i && m'.going[i] == m.going[i] && m'.ring == m.ring
    requires m'.stale == m.stale || (m'.stale == m.stale - {Top(m)} && Top(m) !in m'.frames)
    ensures DoomedAt(m', i) <==> DoomedAt(m, i)
  {
    forall y | y in m.frames[..i + 1]
      ensures y in m'.frames
    {
      assert y in m'.frames[..i + 1];
    }
    DoomedSame(m, m', i);
  }

  lemma PopDoomed(m: Mem)
    requires MemOk(m) && m.frames != []
    ensures forall i :: 0 <= i < |m.frames| - 1 ==> (DoomedAt(Pop(m), i) <==> DoomedAt(m, i))
  {
    PopOk(m);
    forall i | 0 <= i < |m.frames| - 1
      ensures DoomedAt(Pop(m), i) <==> DoomedAt(m, i)
    {
      assert Pop(m).frames[..i + 1] == m.frames[..i + 1];
      LeaveDoomed(m, Pop(m), i);
    }
  }

  lemma MoveDoomed(m: Mem, next: nat)
    requires MemOk(m) && m.frames != [] && Alive(m, next) && next < m.ring.nextId && next != Top(m)
    ensures forall i :: 0 <= i < |m.frames| - 1 ==> (DoomedAt(Move(m, next), i) <==> DoomedAt(m, i))
  {
    MoveOk(m, next);
    forall i | 0 <= i < |m.frames| - 1
      ensures DoomedAt(Move(m, next), i) <==> DoomedAt(m, i)
    {
      assert Move(m, next).frames[..i + 1] == m.frames[..i + 1];
      LeaveDoomed(m, Move(m, next), i);
    }
  }

  lemma HeldOutside(m: Mem, x: nat)
    requires m.frames != [] && x in m.frames && x != Top(m)
    ensures x in m.frames[..|m.frames| - 1]
  {
    var j :| 0 <= j < |m.frames| && m.frames[j] == x;
    assert m.frames[..|m.frames| - 1][j] == x;
  }

  /** Moving on from an unlinked node to another one, the innermost emission keeps its landing. */
  lemma LandingMoves(m: Mem, next: nat)
    requires MemOk(m) && m.frames != [] && next < m.ring.nextId && next != Top(m) && next in m.stale
    ensures var m' := Move(m, next); var outer := m.frames[..|m.frames| - 1];
            && next in m'.stale && m'.frames[..|m.frames| - 1] == outer
            && Landing(m', outer, m'.stale[next]) == Landing(m, outer, next)
  {
    var n, m' := |m.frames| - 1, Move(m, next);
    MoveOk(m, next);
    assert StaleOk(m, next);
    HeldOutside(m, next);
    assert forall y :: y in m.frames[..n] ==> y in m'.frames;
    LandingSame(m, m', m.frames[..n], m.stale[next]);
    forall c | c in m.stale ensures c != 0 { assert StaleOk(m, c); }
  }

  /** An emission that moves to an unlinked node keeps its prospects. */
  lemma MoveSafe(m: Mem, next: nat)
    requires MemOk(m) && TopGoes(m) && next == NextOf(m, Top(m)) && next != 0 && Alive(m, next)
    requires next < m.ring.nextId && next != Top(m) && !Doomed(m)
    ensures !Doomed(Move(m, next))
  {
    var n, m' := |m.frames| - 1, Move(m, next);
    MoveOk(m, next);
    MoveDoomed(m, next);
    if next in m.stale {
      assert StaleOk(m, next);
      assert !DoomedAt(m, n);
      LandingMoves(m, next);
    }
    forall i | 0 <= i < |m'.frames|
      ensures !DoomedAt(m', i)
    {
      assert i < n ==> !DoomedAt(m, i);
    }
  }

  /** So does a doomed one: it can only move to another unlinked node. */
  lemma MoveStillDoomed(m: Mem, next: nat)
    requires MemOk(m) && m.frames != [] && DoomedAt(m, |m.frames| - 1)
    requires next == NextOf(m, Top(m)) && next != 0 && Alive(m, next) && next < m.ring.nextId && next != Top(m)
    ensures DoomedAt(Move(m, next), |m.frames| - 1)
  {
    MoveOk(m, next);
    if next in m.stale {
      LandingMoves(m, next);
    }
  }

  lemma DoomedNotHead(m: Mem)
    requires MemOk(m) && m.frames != [] && DoomedAt(m, |m.frames| - 1)
    ensures NextOf(m, Top(m)) != 0
  {
    forall c | c in m.stale ensures c != 0 { assert StaleOk(m, c); }
  }

  lemma SafeLives(m: Mem)
    requires MemOk(m) && TopGoes(m) && !DoomedAt(m, |m.frames| - 1)
    ensures Alive(m, NextOf(m, Top(m)))
  {
    var x := NextOf(m, Top(m));
    assert x !in m.stale ==> Landing(m, m.frames[..|m.frames| - 1], x) == x;
  }

  /** A doomed emission stays doomed whatever the callbacks it waits for do. */
  lemma {:induction false} ActsStayDoomed(m: Mem, acts: seq<Act>, i: nat)
    requires MemOk(m) && DoomedAt(m, i)
    ensures Acts(m, acts).ok ==> DoomedAt(Acts(m, acts).mem, i)
    decreases acts, 0
  {
    if acts != [] {
      OneStaysDoomed(m, acts[0], i);
      var first := One(m, acts[0]);
      if first.ok {
        ActsStayDoomed(first.mem, acts[1..], i);
      }
    }
  }

  lemma {:induction false} OneStaysDoomed(m: Mem, act: Act, i: nat)
    requires MemOk(m) && DoomedAt(m, i)
    ensures One(m, act).ok ==> DoomedAt(One(m, act).mem, i)
    decreases act, 0
  {
    match act
    case Do(a) => PerformDoomed(m, a, i);
    case Emit(turns) =>
      PushOk(m);
      PushDoomed(m);
      LoopStaysDoomed(Push(m), turns, i);
  }

  lemma {:induction false} VisitStaysDoomed(m: Mem, turns: seq<Turn>, i: nat)
    requires MemOk(m) && m.frames != [] && DoomedAt(m, i)
    ensures Visit(m, turns).ok ==> DoomedAt(Visit(m, turns).mem, i)
    decreases turns, 0
  {
    if Called(m, turns) {
      MarkedOk(m, turns[0].goOn);
      MarkedDoomed(m, turns[0].goOn);
      ActsStayDoomed(Marked(m, turns[0].goOn), turns[0].acts, i);
    }
  }

  /** A doomed emission ends at a deleted node; one outside stays doomed. */
  lemma {:induction false} LoopStaysDoomed(m: Mem, turns: seq<Turn>, i: nat)
    requires MemOk(m) && TopGoes(m) && DoomedAt(m, i)
    ensures Loop(m, turns).ok ==> i < |m.frames| - 1 && DoomedAt(Loop(m, turns).mem, i)
    decreases turns, 1, m.ring.nextId - Top(m), 1
  {
    VisitStaysDoomed(m, turns, i);
    if Visit(m, turns).ok {
      RestStaysDoomed(m, turns, i);
    }
  }

  /** The same for an emission doomed by the visit. */
  lemma {:induction false} RestStaysDoomed(m: Mem, turns: seq<Turn>, i: nat)
    requires MemOk(m) && TopGoes(m) && Visit(m, turns).ok && DoomedAt(Visit(m, turns).mem, i)
    ensures Loop(m, turns).ok ==> i < |m.frames| - 1 && DoomedAt(Loop(m, turns).mem, i)
    decreases turns, 1, m.ring.nextId - Top(m), 0
  {
    var v := Visit(m, turns);
    if Advances(m, turns, v) {
      AfterStaysDoomed(m, turns, i);
      LoopStaysDoomed(After(m, turns, v), TurnsAfter(m, turns), i);
    } else {
      HaltedDoomed(m, turns, i);
    }
  }

  /** Moving on saves no emission. */
  lemma AfterStaysDoomed(m: Mem, turns: seq<Turn>, i: nat)
    requires MemOk(m) && m.frames != [] && Advances(m, turns, Visit(m, turns)) && DoomedAt(Visit(m, turns).mem, i)
    ensures DoomedAt(After(m, turns, Visit(m, turns)), i)
  {
    var mem := Visit(m, turns).mem;
    assert Top(mem) == Top(m);
    MoveStaysDoomed(mem, NextOf(mem, Top(mem)), i);
  }

  lemma MoveStaysDoomed(m: Mem, next: nat, i: nat)
    requires MemOk(m) && m.frames != [] && DoomedAt(m, i) && next == NextOf(m, Top(m)) && next != 0 && Alive(m, next)
    ensures DoomedAt(Move(m, next), i)
  {
    NextOk(m);
    if i == |m.frames| - 1 {
      MoveStillDoomed(m, next);
    } else {
      MoveDoomed(m, next);
    }
  }

  /** A doomed emission does not end well, and the end of one inside does not save it. */
  lemma HaltedDoomed(m: Mem, turns: seq<Turn>, i: nat)
    requires MemOk(m) && TopGoes(m) && Visit(m, turns).ok && DoomedAt(Visit(m, turns).mem, i)
    requires !Advances(m, turns, Visit(m, turns))
    ensures var r := Halted(m, turns, Visit(m, turns)); r.ok ==> i < |m.frames| - 1 && DoomedAt(r.mem, i)
  {
    var mem := Visit(m, turns).mem;
    assert Top(mem) == Top(m);
    if Stops(m, turns) || NextOf(mem, Top(mem)) == 0 {
      PopStaysDoomed(mem, i);
    }
  }

  lemma PopStaysDoomed(m: Mem, i: nat)
    requires MemOk(m) && m.frames != [] && DoomedAt(m, i) && (!TopGoes(m) || NextOf(m, Top(m)) == 0)
    ensures i < |m.frames| - 1 && DoomedAt(Pop(m), i)
  {
    PopDoomed(m);
    if i == |m.frames| - 1 {
      DoomedNotHead(m);
    }
  }

  /** A run that goes well has met a hazard exactly if it leaves a running emission doomed; one that
      does not go well has met a hazard. */
  predicate Consistent(r: Run) { if r.ok then Doomed(r.mem) <==> AnyHazard(r.cuts) else AnyHazard(r.cuts) }

  lemma {:induction false} ActsExact(m: Mem, acts: seq<Act>)
    requires MemOk(m) && !Doomed(m)
    ensures Consistent(Acts(m, acts))
    decreases acts, 0
  {
    if acts != [] {
      OneExact(m, acts[0]);
      var first := One(m, acts[0]);
      if first.ok {
        var rest := Acts(first.mem, acts[1..]);
        AnyHazardAppend(first.cuts, rest.cuts);
        if Doomed(first.mem) {
          var i :| 0 <= i < |first.mem.frames| && DoomedAt(first.mem, i);
          ActsStayDoomed(first.mem, acts[1..], i);
        } else {
          ActsExact(first.mem, acts[1..]);
        }
      }
    }
  }

  lemma {:induction false} OneExact(m: Mem, act: Act)
    requires MemOk(m) && !Doomed(m)
    ensures Consistent(One(m, act))
    decreases act, 0
  {
    match act
    case Do(a) =>
      PerformExact(m, a);
      AnyHazardOne(Stamp(m, if a.Disconnect? then a.id else 0));
    case Emit(turns) =>
      PushOk(m);
      PushDoomed(m);
      LoopExact(Push(m), turns);
  }

  lemma {:induction false} VisitExact(m: Mem, turns: seq<Turn>)
    requires MemOk(m) && TopGoes(m) && !Doomed(m)
    ensures Consistent(Visit(m, turns))
    decreases turns, 0
  {
    if Called(m, turns) {
      var m1 := Marked(m, turns[0].goOn);
      MarkedOk(m, turns[0].goOn);
      MarkedDoomed(m, turns[0].goOn);
      forall i | 0 <= i < |m1.frames|
        ensures !DoomedAt(m1, i)
      {
        assert !DoomedAt(m, i);
      }
      ActsExact(m1, turns[0].acts);
    }
  }

  lemma {:induction false} LoopExact(m: Mem, turns: seq<Turn>)
    requires MemOk(m) && TopGoes(m) && !Doomed(m)
    ensures Consistent(Loop(m, turns))
    decreases turns, 1, m.ring.nextId - Top(m)
  {
    VisitExact(m, turns);
    var v := Visit(m, turns);
    if v.ok && Doomed(v.mem) {
      DoomedVisit(m, turns);
    } else if v.ok {
      SafeVisit(m, turns);
      if Advances(m, turns, v) {
        LoopExact(After(m, turns, v), TurnsAfter(m, turns));
        JoinedConsistent(v, Here(m, v.mem), Loop(After(m, turns, v), TurnsAfter(m, turns)));
      }
    }
  }

  lemma JoinedConsistent(v: Run, here: seq<Invocation>, rest: Run)
    requires !AnyHazard(v.cuts) && Consistent(rest)
    ensures Consistent(Joined(v, here, rest))
  {
    AnyHazardAppend(v.cuts, rest.cuts);
  }

  lemma DoomedVisit(m: Mem, turns: seq<Turn>)
    requires MemOk(m) && TopGoes(m) && Visit(m, turns).ok && Doomed(Visit(m, turns).mem)
    requires AnyHazard(Visit(m, turns).cuts)
    ensures Consistent(Loop(m, turns))
  {
    var mem := Visit(m, turns).mem;
    var i :| 0 <= i < |mem.frames| && DoomedAt(mem, i);
    HazardKept(m, turns);
    RestStaysDoomed(m, turns, i);
  }

  /** After a visit that left no emission doomed, the loop goes on or ends safely. */
  lemma SafeVisit(m: Mem, turns: seq<Turn>)
    requires MemOk(m) && TopGoes(m) && Visit(m, turns).ok && !Doomed(Visit(m, turns).mem)
    ensures var v := Visit(m, turns);
            if Advances(m, turns, v) then !Doomed(After(m, turns, v))
            else Halted(m, turns, v).ok && !Doomed(Halted(m, turns, v).mem)
  {
    var v := Visit(m, turns);
    assert Top(v.mem) == Top(m);
    if Advances(m, turns, v) {
      GoesOn(m, v.mem, NextOf(v.mem, Top(m)));
      MoveSafe(v.mem, NextOf(v.mem, Top(m)));
    } else {
      if !Stops(m, turns) {
        SafeLives(v.mem);
      }
      SafeEnd(v.mem);
    }
  }

  lemma SafeEnd(m: Mem)
    requires MemOk(m) && m.frames != [] && !Doomed(m)
    ensures !Doomed(Pop(m))
  {
    PopOk(m);
    PopDoomed(m);
    forall i | 0 <= i < |Pop(m).frames|
      ensures !DoomedAt(Pop(m), i)
    {
      assert !DoomedAt(m, i);
    }
  }

  lemma HazardKept(m: Mem, turns: seq<Turn>)
    requires MemOk(m) && m.frames != [] && Visit(m, turns).ok && AnyHazard(Visit(m, turns).cuts)
    ensures AnyHazard(Loop(m, turns).cuts)
  {
    var v := Visit(m, turns);
    if Advances(m, turns, v) {
      AnyHazardAppend(v.cuts, Loop(After(m, turns, v), TurnsAfter(m, turns)).cuts);
    }
  }

  // ------------------------------------------------------------------ calls

  predicate Increasing(own: seq<Invocation>) { forall i, j :: 0 <= i < j < |own| ==> own[i].id < own[j].id }

  /** The node was linked, or the head, and had a function when it was invoked. */
  predicate Rightful(c: Invocation)
  {
    (c.id == 0 || c.id in c.before.ring.ids) && c.id !in c.before.ring.mute
  }

  /** One emission invokes functions in connection order, and only of nodes then linked. */
  lemma {:induction false} OwnInOrder(m: Mem, turns: seq<Turn>)
    requires MemOk(m) && m.frames != []
    ensures InOrder(Loop(m, turns).own, Top(m))
    decreases turns, 1, m.ring.nextId - Top(m)
  {
    assert Alive(m, m.frames[|m.frames| - 1]);
    var v := Visit(m, turns);
    if Advances(m, turns, v) {
      var on := After(m, turns, v);
      OwnInOrder(on, TurnsAfter(m, turns));
      OrderFrom(Loop(on, TurnsAfter(m, turns)).own, Top(m) + 1, Top(on));
      OrderJoined(Here(m, v.mem), Loop(on, TurnsAfter(m, turns)).own, Top(m));
    } else {
      OrderJoined(Here(m, v.mem), [], Top(m));
      assert Here(m, v.mem) + [] == Here(m, v.mem);
    }
  }

  /** In order, from `from` on, and each rightful. */
  predicate InOrder(own: seq<Invocation>, from: nat)
  {
    Increasing(own) && forall i :: 0 <= i < |own| ==> own[i].id >= from && Rightful(own[i])
  }

  lemma OrderJoined(here: seq<Invocation>, rest: seq<Invocation>, top: nat)
    requires |here| <= 1 && (here != [] ==> here[0].id == top && Rightful(here[0]))
    requires InOrder(rest, top + 1)
    ensures InOrder(here + rest, top)
  {
  }

  lemma OrderFrom(own: seq<Invocation>, a: nat, b: nat)
    requires InOrder(own, b) && a <= b
    ensures InOrder(own, a)
  {
  }

  /** If `h` is linked in `m'` it was linked before, and what `Passes` and `Apart` say still holds. */
  predicate OnlyLost(m: Mem, m': Mem, h: nat, base: set<nat>)
  {
    && (h in m'.ring.ids ==> h in m.ring.ids)
    && (h in m'.ring.mute <==> h in m.ring.mute)
    && (h in m'.ring.ids && Passes(m, h, base) ==> Passes(m', h, base))
    && (Apart(m, base) ==> Apart(m', base))
  }

  /** No node unlinked since those of `base` leads past `h` ... */
  predicate Passes(m: Mem, h: nat, base: set<nat>)
  {
    forall c :: c in m.stale && c !in base && c < h ==> 0 < m.stale[c] <= h
  }

  /** ... or to one of them. */
  predicate Apart(m: Mem, base: set<nat>)
  {
    && (forall c :: c in base ==> 0 < c < m.ring.nextId && c !in m.ring.ids)
    && forall c :: c in m.stale && c !in base ==> m.stale[c] !in base
  }

  lemma PerformLoses(m: Mem, a: S.Action, h: nat, base: set<nat>)
    requires MemOk(m) && h < m.ring.nextId
    ensures OnlyLost(m, Perform(m, a), h, base)
  {
  }

  lemma PopLoses(m: Mem, h: nat, base: set<nat>)
    requires Framed(m)
    ensures OnlyLost(m, Pop(m), h, base)
  {
  }

  lemma MoveLoses(m: Mem, next: nat, h: nat, base: set<nat>)
    requires Framed(m)
    ensures OnlyLost(m, Move(m, next), h, base)
  {
  }

  lemma LosesOn(m: Mem, m1: Mem, m2: Mem, h: nat, base: set<nat>)
    requires OnlyLost(m, m1, h, base) && OnlyLost(m1, m2, h, base)
    ensures OnlyLost(m, m2, h, base)
  {
  }

  lemma {:induction false} ActsLose(m: Mem, acts: seq<Act>, h: nat, base: set<nat>)
    requires MemOk(m) && h < m.ring.nextId
    ensures Acts(m, acts).ok ==> OnlyLost(m, Acts(m, acts).mem, h, base)
    decreases acts, 0
  {
    if acts != [] {
      OneLoses(m, acts[0], h, base);
      if Acts(m, acts).ok {
        ActsLose(One(m, acts[0]).mem, acts[1..], h, base);
        LosesOn(m, One(m, acts[0]).mem, Acts(m, acts).mem, h, base);
      }
    }
  }

  lemma {:induction false} OneLoses(m: Mem, act: Act, h: nat, base: set<nat>)
    requires MemOk(m) && h < m.ring.nextId
    ensures One(m, act).ok ==> OnlyLost(m, One(m, act).mem, h, base)
    decreases act, 0
  {
    match act
    case Do(a) => PerformLoses(m, a, h, base);
    case Emit(turns) =>
      PushOk(m);
      LoopLoses(Push(m), turns, h, base);
  }

  lemma {:induction false} VisitLoses(m: Mem, turns: seq<Turn>, h: nat, base: set<nat>)
    requires MemOk(m) && m.frames != [] && h < m.ring.nextId
    ensures Visit(m, turns).ok ==> OnlyLost(m, Visit(m, turns).mem, h, base)
    decreases turns, 0
  {
    if Called(m, turns) {
      MarkedOk(m, turns[0].goOn);
      ActsLose(Marked(m, turns[0].goOn), turns[0].acts, h, base);
    }
  }

  lemma AfterLoses(m: Mem, turns: seq<Turn>, h: nat, base: set<nat>)
    requires MemOk(m) && m.frames != [] && Advances(m, turns, Visit(m, turns))
    requires OnlyLost(m, Visit(m, turns).mem, h, base)
    ensures OnlyLost(m, After(m, turns, Visit(m, turns)), h, base)
  {
    var mem := Visit(m, turns).mem;
    MoveLoses(mem, NextOf(mem, Top(m)), h, base);
    LosesOn(m, mem, Move(mem, NextOf(mem, Top(m))), h, base);
  }

  lemma {:induction false} LoopLoses(m: Mem, turns: seq<Turn>, h: nat, base: set<nat>)
    requires MemOk(m) && m.frames != [] && h < m.ring.nextId
    ensures Loop(m, turns).ok ==> OnlyLost(m, Loop(m, turns).mem, h, base)
    decreases turns, 1, m.ring.nextId - Top(m)
  {
    var v := Visit(m, turns);
    VisitLoses(m, turns, h, base);
    if Advances(m, turns, v) {
      AfterLoses(m, turns, h, base);
      LoopLoses(After(m, turns, v), TurnsAfter(m, turns), h, base);
      if Loop(m, turns).ok {
        LosesOn(m, After(m, turns, v), Loop(m, turns).mem, h, base);
      }
    } else if Loop(m, turns).ok {
      PopLoses(v.mem, h, base);
      LosesOn(m, v.mem, Pop(v.mem), h, base);
    }
  }

  predicate Invoked(own: seq<Invocation>, h: nat) { exists i :: 0 <= i < |own| && own[i].id == h }

  lemma InvokedJoined(here: seq<Invocation>, rest: seq<Invocation>, h: nat)
    ensures Invoked(here + rest, h) <==> Invoked(here, h) || Invoked(rest, h)
  {
    var all := here + rest;
    assert forall i :: 0 <= i < |here| ==> all[i] == here[i];
    assert forall i :: 0 <= i < |rest| ==> all[|here| + i] == rest[i];
    if Invoked(all, h) {
      var i :| 0 <= i < |all| && all[i].id == h;
      assert if i < |here| then all[i] == here[i] else all[i] == rest[i - |here|];
    }
  }

  /** A linked node ahead is not stepped over. */
  lemma NextNotPast(m: Mem, h: nat, base: set<nat>)
    requires MemOk(m) && m.frames != [] && h in m.ring.ids && h > Top(m)
    requires Passes(m, h, base) && Apart(m, base) && Top(m) !in base
    ensures 0 < NextOf(m, Top(m)) <= h && NextOf(m, Top(m)) !in base
  {
    var next := S.NextAfter(m.ring.ids, Top(m));
    assert next != 0 ==> next in m.ring.ids;
  }

  /** The node is linked after every invocation that comes before it. */
  predicate StillLinked(own: seq<Invocation>, h: nat)
  {
    forall i :: 0 <= i < |own| && own[i].id < h ==> h in own[i].after.ring.ids
  }

  lemma StillLinkedJoined(here: seq<Invocation>, rest: seq<Invocation>, h: nat)
    ensures StillLinked(here + rest, h) <==> StillLinked(here, h) && StillLinked(rest, h)
  {
    var all := here + rest;
    assert forall i :: 0 <= i < |here| ==> all[i] == here[i];
    assert forall i :: 0 <= i < |rest| ==> all[|here| + i] == rest[i];
    assert forall i :: |here| <= i < |all| ==> all[i] == rest[i - |here|];
  }

  /** The collector does not end the emission before the node. */
  predicate NotCutShort(r: Run, h: nat)
  {
    r.stopped ==> r.own != [] && h <= r.own[|r.own| - 1].id
  }

  lemma {:induction false} StopsAtCall(m: Mem, turns: seq<Turn>)
    requires MemOk(m) && m.frames != []
    ensures Loop(m, turns).stopped ==> Loop(m, turns).own != []
    decreases turns, 1, m.ring.nextId - Top(m)
  {
    var v := Visit(m, turns);
    if Advances(m, turns, v) {
      StopsAtCall(After(m, turns, v), TurnsAfter(m, turns));
    }
  }

  /** The ids of the handlers invoked, in order. */
  function CalledIds(own: seq<Invocation>): seq<nat>
  {
    if own == [] then [] else [own[0].id] + CalledIds(own[1..])
  }

  lemma {:induction false} CalledIdsAppend(a: seq<Invocation>, b: seq<Invocation>)
    ensures CalledIds(a + b) == CalledIds(a) + CalledIds(b)
  {
    if a == [] {
      assert a + b == b;
    } else {
      assert (a + b)[1..] == a[1..] + b;
      CalledIdsAppend(a[1..], b);
    }
  }

  lemma HereIds(m: Mem, after: Mem)
    requires m.frames != []
    ensures CalledIds(Here(m, after)) == if Callable(m, Top(m)) then [Top(m)] else []
  {
    var here := Here(m, after);
    assert here != [] ==> here[1..] == [];
  }

  /** A node that is not linked is not invoked any more. */
  lemma {:induction false} GoneNotInvoked(m: Mem, turns: seq<Turn>, h: nat)
    requires MemOk(m) && m.frames != [] && 0 < h < m.ring.nextId && h !in m.ring.ids
    ensures !Invoked(Loop(m, turns).own, h)
    decreases turns, 1, m.ring.nextId - Top(m)
  {
    OnlyLinkedHere(m, turns, h);
    var v := Visit(m, turns);
    if Advances(m, turns, v) {
      VisitLoses(m, turns, h, {});
      AfterLoses(m, turns, h, {});
      GoneNotInvoked(After(m, turns, v), TurnsAfter(m, turns), h);
      InvokedJoined(Here(m, v.mem), Loop(After(m, turns, v), TurnsAfter(m, turns)).own, h);
    }
  }

  lemma OnlyLinkedHere(m: Mem, turns: seq<Turn>, h: nat)
    requires MemOk(m) && m.frames != [] && 0 < h && h !in m.ring.ids
    ensures !Invoked(Here(m, Visit(m, turns).mem), h)
  {
    assert Alive(m, m.frames[|m.frames| - 1]);
  }

  lemma {:induction false} MuteNotInvoked(m: Mem, turns: seq<Turn>, h: nat)
    requires MemOk(m) && m.frames != [] && h < m.ring.nextId && h in m.ring.mute
    ensures !Invoked(Loop(m, turns).own, h)
    decreases turns, 1, m.ring.nextId - Top(m)
  {
    var v := Visit(m, turns);
    assert !Invoked(Here(m, v.mem), h);
    if Advances(m, turns, v) {
      VisitLoses(m, turns, h, {});
      AfterLoses(m, turns, h, {});
      MuteNotInvoked(After(m, turns, v), TurnsAfter(m, turns), h);
      InvokedJoined(Here(m, v.mem), Loop(After(m, turns, v), TurnsAfter(m, turns)).own, h);
    }
  }

  /** An invocation that leaves `h` ahead linked changes nothing about `h`. */
  lemma JoinedExact(v: Run, here: seq<Invocation>, rest: Run, h: nat)
    requires forall i :: 0 <= i < |here| ==> here[i].id < h && h in here[i].after.ring.ids
    requires rest.stopped ==> rest.own != []
    ensures Invoked(Joined(v, here, rest).own, h) <==> Invoked(rest.own, h)
    ensures StillLinked(Joined(v, here, rest).own, h) <==> StillLinked(rest.own, h)
    ensures NotCutShort(Joined(v, here, rest), h) <==> NotCutShort(rest, h)
  {
    InvokedJoined(here, rest.own, h);
    StillLinkedJoined(here, rest.own, h);
  }

  /** A handler linked ahead of the emission is invoked exactly if the invocations before it leave it
      linked and the collector does not end the emission before it. */
  lemma {:induction false} OwnExact(m: Mem, turns: seq<Turn>, h: nat, base: set<nat>)
    requires MemOk(m) && m.frames != [] && Loop(m, turns).ok
    requires h in m.ring.ids && h >= Top(m) && h !in m.ring.mute
    requires Passes(m, h, base) && Apart(m, base) && Top(m) !in base
    ensures var r := Loop(m, turns); Invoked(r.own, h) <==> StillLinked(r.own, h) && NotCutShort(r, h)
    decreases turns, 1, m.ring.nextId - Top(m)
  {
    VisitLoses(m, turns, h, base);
    var v := Visit(m, turns);
    if h == Top(m) {
      FirstInvoked(m, turns);
    } else if Stops(m, turns) {
      assert Here(m, v.mem) == [Invocation(m, v.mem, Top(m))];
    } else if h in v.mem.ring.ids {
      OwnStep(m, turns, h, base);
      OwnExact(After(m, turns, v), TurnsAfter(m, turns), h, base);
      OwnJoined(m, turns, h);
    } else {
      GoneAfterVisit(m, turns, h);
    }
  }

  /** What holds of the rest of the emission holds of the whole, if the visit leaves `h` ahead linked. */
  lemma OwnJoined(m: Mem, turns: seq<Turn>, h: nat)
    requires MemOk(m) && m.frames != [] && h > Top(m) && h in Visit(m, turns).mem.ring.ids
    requires Advances(m, turns, Visit(m, turns))
    ensures var r, rest := Loop(m, turns), Loop(After(m, turns, Visit(m, turns)), TurnsAfter(m, turns));
            && (Invoked(r.own, h) <==> Invoked(rest.own, h)) && (StillLinked(r.own, h) <==> StillLinked(rest.own, h))
            && (NotCutShort(r, h) <==> NotCutShort(rest, h))
  {
    var v := Visit(m, turns);
    var on := After(m, turns, v);
    StopsAtCall(on, TurnsAfter(m, turns));
    JoinedExact(v, Here(m, v.mem), Loop(on, TurnsAfter(m, turns)), h);
  }

  /** The loop moves towards a node that the visit left linked. */
  lemma OwnStep(m: Mem, turns: seq<Turn>, h: nat, base: set<nat>)
    requires MemOk(m) && m.frames != [] && Loop(m, turns).ok && !Stops(m, turns)
    requires h in m.ring.ids && h > Top(m) && h !in m.ring.mute && h in Visit(m, turns).mem.ring.ids
    requires Passes(m, h, base) && Apart(m, base) && Top(m) !in base
    ensures var v := Visit(m, turns);
            Advances(m, turns, v) &&
            var on := After(m, turns, v);
            && Top(on) <= h && h in on.ring.ids && h !in on.ring.mute
            && Passes(on, h, base) && Apart(on, base) && Top(on) !in base
  {
    VisitLoses(m, turns, h, base);
    var mem := Visit(m, turns).mem;
    assert Top(mem) == Top(m);
    NextNotPast(mem, h, base);
    MoveLoses(mem, NextOf(mem, Top(m)), h, base);
  }

  lemma FirstInvoked(m: Mem, turns: seq<Turn>)
    requires MemOk(m) && m.frames != [] && Top(m) in m.ring.ids && Top(m) !in m.ring.mute
    ensures var r := Loop(m, turns);
            Invoked(r.own, Top(m)) && StillLinked(r.own, Top(m)) && NotCutShort(r, Top(m))
  {
    var v := Visit(m, turns);
    forall c | c in m.stale ensures c !in m.ring.ids { assert StaleOk(m, c); }
    assert Here(m, v.mem) == [Invocation(m, v.mem, Top(m))];
    FirstOwn(m, turns);
    OwnInOrder(m, turns);
  }

  lemma FirstOwn(m: Mem, turns: seq<Turn>)
    requires MemOk(m) && m.frames != [] && Callable(m, Top(m))
    ensures var own := Loop(m, turns).own; own != [] && own[0] == Invocation(m, Visit(m, turns).mem, Top(m))
  {
  }

  /** A handler that the visit disconnects is not invoked. */
  lemma GoneAfterVisit(m: Mem, turns: seq<Turn>, h: nat)
    requires MemOk(m) && m.frames != [] && Loop(m, turns).ok && !Stops(m, turns)
    requires h in m.ring.ids && h > Top(m) && h !in Visit(m, turns).mem.ring.ids
    ensures var r := Loop(m, turns); !Invoked(r.own, h) && !StillLinked(r.own, h)
  {
    FirstOwn(m, turns);
    var v := Visit(m, turns);
    assert Loop(m, turns).own[0].after == v.mem;
    if Advances(m, turns, v) {
      var on := After(m, turns, v);
      GoneNotInvoked(on, TurnsAfter(m, turns), h);
      InvokedJoined(Here(m, v.mem), Loop(on, TurnsAfter(m, turns)).own, h);
    }
  }

  // ------------------------------------------------------------------ main results

  /** `emit` from outside any callback. */
  ghost function Outermost(r: S.Ring, turns: seq<Turn>): Run
    requires S.WellFormed(r)
  {
    Loop(Mem(r, map[], [0], [true]), turns)
  }

  /** An emission and the emissions inside it stay clear of deleted nodes exactly if no callback
      disconnects the node at which some running emission, now at an unlinked node and going on,
      would arrive next, unless an emission outside that one is at it. */
  lemma NestedSafeExact(r: S.Ring, turns: seq<Turn>)
    requires S.WellFormed(r)
    ensures Outermost(r, turns).ok <==> !AnyHazard(Outermost(r, turns).cuts)
  {
    LoopExact(Mem(r, map[], [0], [true]), turns);
  }

  /** No callback, at any depth, disconnects anything. */
  predicate RemovesNothing(turns: seq<Turn>)
    decreases turns
  {
    turns == [] || (ActsRemoveNothing(turns[0].acts) && RemovesNothing(turns[1..]))
  }

  predicate ActsRemoveNothing(acts: seq<Act>)
    decreases acts
  {
    acts == [] || (ActRemovesNothing(acts[0]) && ActsRemoveNothing(acts[1..]))
  }

  predicate ActRemovesNothing(act: Act)
    decreases act
  {
    match act
    case Do(a) => !a.Disconnect?
    case Emit(turns) => RemovesNothing(turns)
  }

  lemma {:induction false} ActsWithoutCuts(m: Mem, acts: seq<Act>)
    requires MemOk(m) && ActsRemoveNothing(acts)
    ensures Acts(m, acts).cuts == []
    decreases acts, 0
  {
    if acts != [] {
      OneWithoutCuts(m, acts[0]);
      var first := One(m, acts[0]);
      if first.ok {
        ActsWithoutCuts(first.mem, acts[1..]);
      }
    }
  }

  lemma {:induction false} OneWithoutCuts(m: Mem, act: Act)
    requires MemOk(m) && ActRemovesNothing(act)
    ensures One(m, act).cuts == []
    decreases act, 0
  {
    if act.Emit? {
      PushOk(m);
      LoopWithoutCuts(Push(m), act.turns);
    }
  }

  lemma {:induction false} LoopWithoutCuts(m: Mem, turns: seq<Turn>)
    requires MemOk(m) && m.frames != [] && RemovesNothing(turns)
    ensures Loop(m, turns).cuts == []
    decreases turns, 1, m.ring.nextId - Top(m)
  {
    if Called(m, turns) {
      MarkedOk(m, turns[0].goOn);
      ActsWithoutCuts(Marked(m, turns[0].goOn), turns[0].acts);
    }
    var v := Visit(m, turns);
    if Advances(m, turns, v) {
      LoopWithoutCuts(After(m, turns, v), TurnsAfter(m, turns));
    }
  }

  /** Emitting inside callbacks is safe as long as no callback disconnects a handler. */
  lemma RecursionAloneSafe(r: S.Ring, turns: seq<Turn>)
    requires S.WellFormed(r) && RemovesNothing(turns)
    ensures Outermost(r, turns).ok
  {
    LoopWithoutCuts(Mem(r, map[], [0], [true]), turns);
    NestedSafeExact(r, turns);
  }

  /** Afterwards nothing is held, every unlinked node has been deleted, the ring is intact, and no
      node that was not linked before has been linked again. */
  lemma NestedNoLeak(r: S.Ring, turns: seq<Turn>)
    requires S.WellFormed(r) && Outermost(r, turns).ok
    ensures var m := Outermost(r, turns).mem;
            && m.frames == [] && m.stale == map[] && S.WellFormed(m.ring)
            && forall h :: h in m.ring.ids && h < r.nextId ==> h in r.ids
  {
    var m := Outermost(r, turns).mem;
    assert forall c :: c in m.stale ==> c in m.frames;
    forall h | h in m.ring.ids && h < r.nextId
      ensures h in r.ids
    {
      LoopLoses(Mem(r, map[], [0], [true]), turns, h, {});
    }
  }

  /** `emit` at any moment, inside callbacks of any number of running emissions or outside. */
  ghost function Emitted(m: Mem, turns: seq<Turn>): Run
    requires MemOk(m)
  {
    PushOk(m);
    Loop(Push(m), turns)
  }

  /** Outside every callback that is the outermost emission. */
  lemma FromOutside(r: S.Ring, turns: seq<Turn>)
    requires S.WellFormed(r)
    ensures MemOk(Mem(r, map[], [], [])) && Emitted(Mem(r, map[], [], []), turns) == Outermost(r, turns)
  {
    assert Push(Mem(r, map[], [], [])) == Mem(r, map[], [0], [true]);
  }

  /** Connection order, each handler at most once and only while linked; of the handlers `r` connects at
      the start exactly those that have a function, that the invocations before leave connected, and
      before which the collector does not end the emission. */
  predicate CallsOf(o: Run, r: S.Ring)
  {
    && Increasing(o.own) && (forall i :: 0 <= i < |o.own| ==> Rightful(o.own[i]))
    && forall h :: h in r.ids ==>
         (Invoked(o.own, h) <==> h !in r.mute && StillLinked(o.own, h) && NotCutShort(o, h))
  }

  /** That is what every emission does, however deep inside callbacks of others it is made. */
  lemma EmissionCalls(m: Mem, turns: seq<Turn>)
    requires MemOk(m) && Emitted(m, turns).ok
    ensures CallsOf(Emitted(m, turns), m.ring)
  {
    PushOk(m);
    var p, o, base := Push(m), Emitted(m, turns), m.stale.Keys;
    OwnInOrder(p, turns);
    forall c | c in m.stale ensures 0 < c < m.ring.nextId && c !in m.ring.ids { assert StaleOk(m, c); }
    forall h | h in m.ring.ids
      ensures Invoked(o.own, h) <==> h !in m.ring.mute && StillLinked(o.own, h) && NotCutShort(o, h)
    {
      if h in m.ring.mute {
        MuteNotInvoked(p, turns, h);
      } else {
        OwnExact(p, turns, h, base);
      }
    }
  }

  /** The outermost emission, whatever is nested in it. */
  lemma NestedCalls(r: S.Ring, turns: seq<Turn>)
    requires S.WellFormed(r) && Outermost(r, turns).ok
    ensures CallsOf(Outermost(r, turns), r)
  {
    FromOutside(r, turns);
    EmissionCalls(Mem(r, map[], [], []), turns);
  }

  // ------------------------------------------- what callbacks and emissions do, in order

  /** `first`, and then `rest`, which starts with the memory `first` leaves. */
  function Then(first: Run, rest: Run): Run
  {
    Run(rest.mem, first.cuts + rest.cuts, [], false, rest.ok)
  }

  /** A callback's acts are done one after another. */
  lemma {:induction false} ActsAppend(m: Mem, a: seq<Act>, b: seq<Act>)
    requires MemOk(m)
    ensures var first := Acts(m, a);
            Acts(m, a + b) == if first.ok then Then(first, Acts(first.mem, b)) else first
    decreases |a|
  {
    if a == [] {
      assert a + b == b;
      RunShape(m, b);
    } else {
      assert (a + b)[0] == a[0] && (a + b)[1..] == a[1..] + b;
      var first := One(m, a[0]);
      if first.ok {
        var rest := Acts(first.mem, a[1..]);
        ActsAppend(first.mem, a[1..], b);
        if rest.ok {
          var last := Acts(rest.mem, b);
          assert first.cuts + (rest.cuts + last.cuts) == (first.cuts + rest.cuts) + last.cuts;
        }
      }
    }
  }

  lemma RunShape(m: Mem, acts: seq<Act>)
    requires MemOk(m)
    ensures Acts(m, acts) == Then(Run(m, [], [], false, true), Acts(m, acts))
  {
    if acts != [] {
      var first := One(m, acts[0]);
      assert first.own == [] && !first.stopped;
    }
  }

  lemma OneAct(m: Mem, act: Act)
    requires MemOk(m)
    ensures Acts(m, [act]).ok == One(m, act).ok && Acts(m, [act]).mem == One(m, act).mem
    ensures Acts(m, [act]).cuts == One(m, act).cuts
  {
    assert [act][1..] == [];
  }

  /** An emission anywhere in a callback takes place: it starts with the memory the acts before it leave,
      makes the calls an emission from there makes, and the acts after it start with the memory it
      leaves. */
  lemma EmissionInside(m: Mem, a: seq<Act>, turns: seq<Turn>, b: seq<Act>)
    requires MemOk(m) && Acts(m, a + [Emit(turns)] + b).ok
    ensures var before := Acts(m, a);
            && before.ok && MemOk(before.mem)
            && var inner := Emitted(before.mem, turns);
               && inner.ok && MemOk(inner.mem) && SameFrames(inner.mem, before.mem)
               && CallsOf(inner, before.mem.ring)
               && Acts(m, a + [Emit(turns)] + b).mem == Acts(inner.mem, b).mem
               && Acts(m, a + [Emit(turns)] + b).cuts == before.cuts + inner.cuts + Acts(inner.mem, b).cuts
  {
    var before := Acts(m, a);
    ActsAppend(m, a + [Emit(turns)], b);
    ActsAppend(m, a, [Emit(turns)]);
    OneAct(before.mem, Emit(turns));
    EmissionCalls(before.mem, turns);
  }

  /** So does a connect or disconnect. */
  lemma ActionInside(m: Mem, a: seq<Act>, action: S.Action, b: seq<Act>)
    requires MemOk(m) && Acts(m, a + [Do(action)] + b).ok
    ensures var before := Acts(m, a);
            && before.ok && MemOk(before.mem) && MemOk(Perform(before.mem, action))
            && Acts(m, a + [Do(action)] + b).mem == Acts(Perform(before.mem, action), b).mem
  {
    var before := Acts(m, a);
    ActsAppend(m, a + [Do(action)], b);
    ActsAppend(m, a, [Do(action)]);
    OneAct(before.mem, Do(action));
    PerformOk(before.mem, action);
  }

  /** The i-th invocation of an emission does what the i-th turn says, and between invocations nothing
      happens to the ring. */
  ghost predicate DoesTurns(own: seq<Invocation>, turns: seq<Turn>, from: S.Ring, to: S.Ring)
  {
    if own == [] then from == to
    else
      && own[0].before.ring == from && MemOk(own[0].before) && own[0].before.frames != []
      && own[0].id == Top(own[0].before)
      && own[0].after == (if turns == [] then own[0].before
                          else Acts(Marked(own[0].before, turns[0].goOn), turns[0].acts).mem)
      && (own[1..] != [] && turns != [] ==> turns[0].goOn)
      && DoesTurns(own[1..], if turns == [] then [] else turns[1..], own[0].after.ring, to)
  }

  lemma DoesTurnsStep(m: Mem, turns: seq<Turn>, rest: seq<Invocation>, from: S.Ring, to: S.Ring)
    requires MemOk(m) && m.frames != [] && Visit(m, turns).ok && from == Visit(m, turns).mem.ring
    requires DoesTurns(rest, TurnsAfter(m, turns), from, to) && (rest != [] ==> !Stops(m, turns))
    ensures DoesTurns(Here(m, Visit(m, turns).mem) + rest, turns, m.ring, to)
  {
    var here := Here(m, Visit(m, turns).mem);
    if Callable(m, Top(m)) {
      assert (here + rest)[0] == here[0] && (here + rest)[1..] == rest;
      VisitRuns(m, turns);
    } else {
      assert here + rest == rest;
    }
  }

  lemma VisitRuns(m: Mem, turns: seq<Turn>)
    requires MemOk(m) && m.frames != [] && Callable(m, Top(m))
    ensures MemOk(Marked(m, true)) && (turns != [] ==> MemOk(Marked(m, turns[0].goOn)))
    ensures Visit(m, turns).mem == if turns == [] then m else Acts(Marked(m, turns[0].goOn), turns[0].acts).mem
  {
    MarkedOk(m, true);
    if turns != [] {
      MarkedOk(m, turns[0].goOn);
    }
  }

  /** An emission does what its turns say, one after the other, and nothing else. */
  lemma {:induction false} LoopDoesTurns(m: Mem, turns: seq<Turn>)
    requires MemOk(m) && m.frames != [] && Loop(m, turns).ok
    ensures DoesTurns(Loop(m, turns).own, turns, m.ring, Loop(m, turns).mem.ring)
    decreases turns, 1, m.ring.nextId - Top(m)
  {
    var v := Visit(m, turns);
    if Advances(m, turns, v) {
      var rest := Loop(After(m, turns, v), TurnsAfter(m, turns));
      LoopDoesTurns(After(m, turns, v), TurnsAfter(m, turns));
      DoesTurnsStep(m, turns, rest.own, v.mem.ring, rest.mem.ring);
    } else {
      DoesTurnsStep(m, turns, [], v.mem.ring, v.mem.ring);
      assert Here(m, v.mem) + [] == Here(m, v.mem);
    }
  }

  /** The turn of the last invocation lets the collector end the emission. */
  predicate LastStops(own: seq<Invocation>, turns: seq<Turn>)
  {
    0 < |own| <= |turns| && !turns[|own| - 1].goOn
  }

  lemma LastStopsStep(m: Mem, turns: seq<Turn>, after: Mem, rest: seq<Invocation>)
    requires m.frames != [] && !Stops(m, turns)
    ensures LastStops(Here(m, after) + rest, turns) <==> LastStops(rest, TurnsAfter(m, turns))
  {
    var own := Here(m, after) + rest;
    if Called(m, turns) {
      assert rest != [] && |rest| <= |turns[1..]| ==> turns[|own| - 1] == turns[1..][|rest| - 1];
    }
  }

  /** The collector has ended an emission exactly if the turn of the last invocation says so. */
  lemma {:induction false} StoppedExact(m: Mem, turns: seq<Turn>)
    requires MemOk(m) && m.frames != [] && Loop(m, turns).ok
    ensures Loop(m, turns).stopped <==> LastStops(Loop(m, turns).own, turns)
    decreases turns, 1, m.ring.nextId - Top(m)
  {
    var v := Visit(m, turns);
    if Advances(m, turns, v) {
      StoppedExact(After(m, turns, v), TurnsAfter(m, turns));
      LastStopsStep(m, turns, v.mem, Loop(After(m, turns, v), TurnsAfter(m, turns)).own);
    } else if !Stops(m, turns) {
      LastStopsStep(m, turns, v.mem, []);
      assert Here(m, v.mem) + [] == Here(m, v.mem);
    }
  }

  lemma EmissionDoesTurns(m: Mem, turns: seq<Turn>)
    requires MemOk(m) && Emitted(m, turns).ok
    ensures var o := Emitted(m, turns);
            && DoesTurns(o.own, turns, m.ring, o.mem.ring)
            && (o.stopped <==> LastStops(o.own, turns))
  {
    PushOk(m);
    LoopDoesTurns(Push(m), turns);
    StoppedExact(Push(m), turns);
  }

  // ------------------------------------------- callbacks that do not emit

  function Lifted(acts: seq<S.Action>): seq<Act>
  {
    if acts == [] then [] else [Do(acts[0])] + Lifted(acts[1..])
  }

  /** The turns of the visits to nodes with a function. */
  function Used(visits: seq<S.Visit>, turns: seq<S.Turn>, k: nat): seq<Turn>
    decreases |visits|
  {
    if visits == [] then [] else
      (if visits[0].id in visits[0].ring.mute then []
       else [Turn(Lifted(S.TurnAt(turns, k).actions), S.TurnAt(turns, k).goOn)])
      + Used(visits[1..], turns, k + 1)
  }

  /** The memory of a single emission. */
  function MemOf(c: S.Cursor, goOn: bool): Mem
  {
    Mem(c.ring, if c.frozen.Some? then map[c.cur := c.frozen.value] else map[], [c.cur], [goOn])
  }

  ghost predicate CursorFits(c: S.Cursor) { S.CursorOk(c) && (c.cur == 0 ==> c.frozen.None?) }

  lemma MemOfOk(c: S.Cursor, goOn: bool)
    requires CursorFits(c)
    ensures MemOk(MemOf(c, goOn)) && NextOf(MemOf(c, goOn), c.cur) == S.Target(c)
  {
  }

  lemma MemOfAct(c: S.Cursor, a: S.Action, goOn: bool)
    requires CursorFits(c)
    ensures CursorFits(S.Act(c, a)) && Perform(MemOf(c, goOn), a) == MemOf(S.Act(c, a), goOn)
  {
    S.ActOk(c, a);
  }

  lemma {:induction false} FlatActs(c: S.Cursor, acts: seq<S.Action>, goOn: bool)
    requires CursorFits(c)
    ensures CursorFits(S.ActAll(c, acts)) && MemOk(MemOf(c, goOn))
    ensures var r := Acts(MemOf(c, goOn), Lifted(acts)); r.ok && r.mem == MemOf(S.ActAll(c, acts), goOn)
    decreases |acts|
  {
    MemOfOk(c, goOn);
    if acts != [] {
      MemOfAct(c, acts[0], goOn);
      assert Lifted(acts)[1..] == Lifted(acts[1..]);
      FlatActs(S.Act(c, acts[0]), acts[1..], goOn);
    }
  }

  /** One visit. */
  lemma FlatVisit(r: S.Ring, cur: nat, t: S.Turn, turns: seq<Turn>)
    requires CursorFits(S.Cursor(r, cur, None))
    requires if cur in r.mute then t == S.Turn([], true)
             else turns != [] && turns[0] == Turn(Lifted(t.actions), t.goOn)
    ensures var c, m := S.ActAll(S.Cursor(r, cur, None), t.actions), MemOf(S.Cursor(r, cur, None), true);
            && CursorFits(c) && c.cur == cur && MemOk(m) && (Stops(m, turns) <==> !t.goOn)
            && Visit(m, turns).ok && Visit(m, turns).mem == MemOf(c, t.goOn)
            && TurnsAfter(m, turns) == (if cur in r.mute then turns else turns[1..])
            && CalledIds(Here(m, Visit(m, turns).mem)) == (if cur in r.mute then [] else [cur])
  {
    var start := S.Cursor(r, cur, None);
    FlatActs(start, t.actions, t.goOn);
    MemOfOk(start, true);
    S.ActAllOk(start, t.actions);
    var m := MemOf(start, true);
    assert Marked(m, t.goOn) == MemOf(start, t.goOn);
    HereIds(m, Visit(m, turns).mem);
  }

  /** From a node that the callback may have unlinked to the next one. */
  lemma FlatMove(c: S.Cursor, next: nat)
    requires CursorFits(c) && next == S.Target(c)
    ensures var m := MemOf(c, true);
            && (Alive(m, next) <==> next == 0 || next in c.ring.ids)
            && (next in c.ring.ids ==> Move(m, next) == MemOf(S.Cursor(c.ring, next, None), true))
            && Pop(m) == Mem(c.ring, map[], [], [])
  {
    var m := MemOf(c, true);
    MemOfOk(c, true);
    assert Pop(m).stale == map[];
    if next in c.ring.ids {
      assert Move(m, next).stale == map[];
    }
  }

  lemma FlatAdvances(m: Mem, turns: seq<Turn>, c: S.Cursor)
    requires MemOk(m) && m.frames == [c.cur] && CursorFits(c) && !Stops(m, turns)
    requires Visit(m, turns).ok && Visit(m, turns).mem == MemOf(c, true)
    requires S.Target(c) != 0 && S.Target(c) in c.ring.ids
    ensures Advances(m, turns, Visit(m, turns))
    ensures After(m, turns, Visit(m, turns)) == MemOf(S.Cursor(c.ring, S.Target(c), None), true)
  {
    MemOfOk(c, true);
    FlatMove(c, S.Target(c));
  }

  /** What the two models say of the same emission. */
  ghost predicate Agree(n: Run, o: S.Outcome)
  {
    && (n.ok <==> o.ending != S.Dangling)
    && (n.ok ==> n.mem == Mem(o.ring, map[], [], []) && CalledIds(n.own) == S.Calls(o.visits)
                 && (n.stopped <==> o.ending == S.Stopped))
  }

  /** The first visit of an emission and the others. */
  lemma UsedStep(r: S.Ring, cur: nat, turns: seq<S.Turn>, k: nat)
    requires S.WellFormed(r) && cur < r.nextId && (cur == 0 || cur in r.ids)
    ensures var t := S.TurnOf(S.Visit(r, cur), turns, k);
            var c, o := S.ActAll(S.Cursor(r, cur, None), t.actions), S.Emission(r, cur, turns, k);
            var used := Used(o.visits, turns, k);
            && S.CursorOk(c)
            && (if cur in r.mute then t == S.Turn([], true)
                else used != [] && used[0] == Turn(Lifted(t.actions), t.goOn))
            && (t.goOn && S.Target(c) != 0 && S.Target(c) in c.ring.ids ==>
                  var rest := S.Emission(c.ring, S.Target(c), turns, k + 1);
                  && o == S.Outcome(rest.ring, [S.Visit(r, cur)] + rest.visits, rest.ending)
                  && Used(rest.visits, turns, k + 1) == (if cur in r.mute then used else used[1..]))
  {
    var t := S.TurnOf(S.Visit(r, cur), turns, k);
    var c, o := S.ActAll(S.Cursor(r, cur, None), t.actions), S.Emission(r, cur, turns, k);
    S.ActAllOk(S.Cursor(r, cur, None), t.actions);
    if t.goOn && S.Target(c) != 0 && S.Target(c) in c.ring.ids {
      assert o.visits[1..] == S.Emission(c.ring, S.Target(c), turns, k + 1).visits;
    }
  }

  /** If the others agree, all do. */
  lemma AgreeStep(m: Mem, turns: seq<Turn>, here: S.Visit, rest: S.Outcome)
    requires MemOk(m) && m.frames != [] && Advances(m, turns, Visit(m, turns))
    requires CalledIds(Here(m, Visit(m, turns).mem)) == (if here.id in here.ring.mute then [] else [here.id])
    requires Agree(Loop(After(m, turns, Visit(m, turns)), TurnsAfter(m, turns)), rest)
    ensures Agree(Loop(m, turns), S.Outcome(rest.ring, [here] + rest.visits, rest.ending))
  {
    var v := Visit(m, turns);
    assert ([here] + rest.visits)[1..] == rest.visits;
    CalledIdsAppend(Here(m, v.mem), Loop(After(m, turns, v), TurnsAfter(m, turns)).own);
  }

  /** An emission that ends at its first node. */
  lemma AgreeEnd(r: S.Ring, cur: nat, turns: seq<S.Turn>, k: nat, used: seq<Turn>)
    requires S.WellFormed(r) && cur < r.nextId && (cur == 0 || cur in r.ids)
    requires var t := S.TurnOf(S.Visit(r, cur), turns, k);
             var c, m := S.ActAll(S.Cursor(r, cur, None), t.actions), MemOf(S.Cursor(r, cur, None), true);
             && CursorFits(c) && MemOk(m) && Visit(m, used).ok && Visit(m, used).mem == MemOf(c, t.goOn)
             && (Stops(m, used) <==> !t.goOn) && !(t.goOn && S.Target(c) != 0 && S.Target(c) in c.ring.ids)
             && CalledIds(Here(m, Visit(m, used).mem)) == (if cur in r.mute then [] else [cur])
    ensures Agree(Loop(MemOf(S.Cursor(r, cur, None), true), used), S.Emission(r, cur, turns, k))
  {
    var t, o := S.TurnOf(S.Visit(r, cur), turns, k), S.Emission(r, cur, turns, k);
    var c := S.ActAll(S.Cursor(r, cur, None), t.actions);
    MemOfOk(c, t.goOn);
    FlatMove(c, S.Target(c));
    assert o.visits == [S.Visit(r, cur)] && o.visits[1..] == [];
  }

  /** The node `S.Emission` visits next, 0 if none. */
  function NextVisit(r: S.Ring, cur: nat, t: S.Turn): nat
  {
    var c := S.ActAll(S.Cursor(r, cur, None), t.actions);
    if t.goOn && S.Target(c) in c.ring.ids then S.Target(c) else 0
  }

  lemma FlatStep(r: S.Ring, cur: nat, turns: seq<S.Turn>, k: nat)
    requires S.WellFormed(r) && cur < r.nextId && (cur == 0 || cur in r.ids)
    requires NextVisit(r, cur, S.TurnOf(S.Visit(r, cur), turns, k)) != 0
    ensures var t, m := S.TurnOf(S.Visit(r, cur), turns, k), MemOf(S.Cursor(r, cur, None), true);
            var next, ring := NextVisit(r, cur, t), S.ActAll(S.Cursor(r, cur, None), t.actions).ring;
            var used := Used(S.Emission(r, cur, turns, k).visits, turns, k);
            && MemOk(m) && S.WellFormed(ring) && cur < next < ring.nextId && Advances(m, used, Visit(m, used))
            && ring.nextId + S.Connects(turns, k + 1) <= r.nextId + S.Connects(turns, k)
            && After(m, used, Visit(m, used)) == MemOf(S.Cursor(ring, next, None), true)
            && TurnsAfter(m, used) == Used(S.Emission(ring, next, turns, k + 1).visits, turns, k + 1)
            && CalledIds(Here(m, Visit(m, used).mem)) == (if cur in r.mute then [] else [cur])
  {
    var t, m := S.TurnOf(S.Visit(r, cur), turns, k), MemOf(S.Cursor(r, cur, None), true);
    var c := S.ActAll(S.Cursor(r, cur, None), t.actions);
    var used := Used(S.Emission(r, cur, turns, k).visits, turns, k);
    UsedStep(r, cur, turns, k);
    FlatVisit(r, cur, t, used);
    S.ActAllOk(S.Cursor(r, cur, None), t.actions);
    FlatAdvances(m, used, c);
  }

  lemma FlatEnd(r: S.Ring, cur: nat, turns: seq<S.Turn>, k: nat)
    requires S.WellFormed(r) && cur < r.nextId && (cur == 0 || cur in r.ids)
    requires NextVisit(r, cur, S.TurnOf(S.Visit(r, cur), turns, k)) == 0
    ensures var o, m := S.Emission(r, cur, turns, k), MemOf(S.Cursor(r, cur, None), true);
            MemOk(m) && Agree(Loop(m, Used(o.visits, turns, k)), o)
  {
    var used := Used(S.Emission(r, cur, turns, k).visits, turns, k);
    UsedStep(r, cur, turns, k);
    FlatVisit(r, cur, S.TurnOf(S.Visit(r, cur), turns, k), used);
    AgreeEnd(r, cur, turns, k, used);
  }

  lemma {:induction false} FlatLoop(r: S.Ring, cur: nat, turns: seq<S.Turn>, k: nat)
    requires S.WellFormed(r) && cur < r.nextId && (cur == 0 || cur in r.ids)
    ensures var o, m := S.Emission(r, cur, turns, k), MemOf(S.Cursor(r, cur, None), true);
            MemOk(m) && Agree(Loop(m, Used(o.visits, turns, k)), o)
    decreases r.nextId + S.Connects(turns, k) - cur
  {
    var t := S.TurnOf(S.Visit(r, cur), turns, k);
    var next := NextVisit(r, cur, t);
    if next == 0 {
      FlatEnd(r, cur, turns, k);
    } else {
      var m, ring := MemOf(S.Cursor(r, cur, None), true), S.ActAll(S.Cursor(r, cur, None), t.actions).ring;
      S.EmissionNext(r, cur, turns, k);
      FlatStep(r, cur, turns, k);
      FlatLoop(ring, next, turns, k + 1);
      var used := Used(S.Emission(r, cur, turns, k).visits, turns, k);
      AgreeStep(m, used, S.Visit(r, cur), S.Emission(ring, next, turns, k + 1));
    }
  }

  /** With callbacks that only connect and disconnect, this is the emission of `SignalSpec`: same calls,
      same ring, same ending. */
  lemma FlatIsEmission(r: S.Ring, turns: seq<S.Turn>)
    requires S.WellFormed(r)
    ensures Agree(Outermost(r, Used(S.Emit(r, turns).visits, turns, 0)), S.Emit(r, turns))
  {
    FlatLoop(r, 0, turns, 0);
  }

  // ------------------------------------------- the smallest unsafe nesting

  function Two(a: nat, b: nat): S.Ring { S.Ring([a, b], b + 1, {0}) }

  function LastOnly(a: nat, b: nat): S.Ring { Two(a, b).(ids := [b]) }

  function Neither(a: nat, b: nat): S.Ring { Two(a, b).(ids := []) }

  function RemoveSelf(x: nat): Turn { Turn([Do(S.Disconnect(x))], true) }

  /** Each of the two handlers disconnects itself; the first then emits again. */
  function FirstTurn(a: nat, b: nat): Turn { Turn([Do(S.Disconnect(a)), Emit([RemoveSelf(b)])], true) }

  /** An invocation with a collector that goes on. */
  lemma VisitGoesOn(m: Mem, turns: seq<Turn>)
    requires MemOk(m) && TopGoes(m) && Called(m, turns) && turns[0].goOn
    ensures Visit(m, turns) == Acts(m, turns[0].acts)
  {
    assert Marked(m, true).going == m.going;
  }

  lemma Single(m: Mem, a: S.Action)
    requires MemOk(m)
    ensures Acts(m, [Do(a)]).ok && Acts(m, [Do(a)]).mem == Perform(m, a)
  {
    assert [Do(a)][1..] == [];
    PerformOk(m, a);
  }

  lemma Removals(a: nat, b: nat)
    requires 1 <= a < b
    ensures S.Without([a, b], a) == [b] && S.Without([b], b) == []
    ensures S.NextAfter([a, b], 0) == a && S.NextAfter([a, b], a) == b
    ensures S.NextAfter([b], 0) == b && S.NextAfter([b], b) == 0
  {
    assert [a, b][1..] == [b] && [b][1..] == [];
    assert S.Without([], a) == [] && S.Without([], b) == [];
    assert S.Without([b], a) == [b] + [] == [b];
  }

  /** The memory while the second node is removed by the inner emission and left. */
  lemma SecondRemoved(a: nat, b: nat)
    requires 1 <= a < b
    ensures var m := Mem(LastOnly(a, b), map[a := b], [a, b], [true, true]);
            var m' := Mem(Neither(a, b), map[a := b, b := 0], [a, b], [true, true]);
            && MemOk(m) && Callable(m, b) && Perform(m, S.Disconnect(b)) == m' && NextOf(m', b) == 0
            && Pop(m') == Mem(Neither(a, b), map[a := b], [a], [true])
  {
    var m := Mem(LastOnly(a, b), map[a := b], [a, b], [true, true]);
    var m' := Mem(Neither(a, b), map[a := b, b := 0], [a, b], [true, true]);
    Removals(a, b);
    assert StaleOk(m, a);
    assert [a, b][..1] == [a];
    assert Pop(m').stale == map[a := b];
  }

  /** The inner emission at the second node, which removes it. */
  lemma InnerAtSecond(a: nat, b: nat)
    requires 1 <= a < b
    ensures var m := Mem(LastOnly(a, b), map[a := b], [a, b], [true, true]);
            MemOk(m) && Loop(m, [RemoveSelf(b)]).ok
            && Loop(m, [RemoveSelf(b)]).mem == Mem(Neither(a, b), map[a := b], [a], [true])
  {
    var m, turns := Mem(LastOnly(a, b), map[a := b], [a, b], [true, true]), [RemoveSelf(b)];
    SecondRemoved(a, b);
    Single(m, S.Disconnect(b));
    assert Called(m, turns);
    VisitGoesOn(m, turns);
  }

  /** The step of an emission from the head to the first linked node. */
  lemma FromHead(m: Mem, x: nat, turns: seq<Turn>)
    requires MemOk(m) && TopGoes(m) && Top(m) == 0 && 0 !in m.stale && 0 in m.ring.mute
    requires m.ring.ids != [] && m.ring.ids[0] == x
    ensures !Called(m, turns) && Visit(m, turns) == Run(m, [], [], false, true)
    ensures NextOf(m, 0) == x && x != 0 && Alive(m, x)
    ensures Move(m, x) == m.(frames := m.frames[..|m.frames| - 1] + [x]) || 0 in m.frames[..|m.frames| - 1]
  {
    assert x in m.ring.ids;
    assert m.stale - {0} == m.stale;
    assert m.going[..|m.frames| - 1] + [true] == m.going;
  }

  /** The memory while the inner emission moves to the second node. */
  lemma ToSecond(a: nat, b: nat)
    requires 1 <= a < b
    ensures var m := Mem(LastOnly(a, b), map[a := b], [a, 0], [true, true]);
            && MemOk(m) && NextOf(m, 0) == b && Alive(m, b) && Visit(m, [RemoveSelf(b)]) == Run(m, [], [], false, true)
            && Move(m, b) == Mem(LastOnly(a, b), map[a := b], [a, b], [true, true]) && !Called(m, [RemoveSelf(b)])
  {
    var m := Mem(LastOnly(a, b), map[a := b], [a, 0], [true, true]);
    assert StaleOk(m, a);
    FromHead(m, b, [RemoveSelf(b)]);
    assert [a, 0][..1] + [b] == [a, b] && 0 !in [a, 0][..1];
  }

  /** A node without a function is left for the next one. */
  lemma LoopAdvances(m: Mem, turns: seq<Turn>, next: nat)
    requires MemOk(m) && m.frames != [] && !Called(m, turns)
    requires next == NextOf(m, Top(m)) && next != 0 && Alive(m, next)
    ensures MemOk(Move(m, next)) && Move(m, next).frames != []
    ensures Loop(m, turns).ok == Loop(Move(m, next), turns).ok && Loop(m, turns).mem == Loop(Move(m, next), turns).mem
  {
    assert Advances(m, turns, Visit(m, turns));
    assert After(m, turns, Visit(m, turns)) == Move(m, next);
  }

  /** The inner emission from its start. */
  lemma InnerRuns(a: nat, b: nat)
    requires 1 <= a < b
    ensures var m := Mem(LastOnly(a, b), map[a := b], [a, 0], [true, true]);
            MemOk(m) && Loop(m, [RemoveSelf(b)]).ok
            && Loop(m, [RemoveSelf(b)]).mem == Mem(Neither(a, b), map[a := b], [a], [true])
  {
    InnerAtSecond(a, b);
    ToSecond(a, b);
    LoopAdvances(Mem(LastOnly(a, b), map[a := b], [a, 0], [true, true]), [RemoveSelf(b)], b);
  }

  /** The memory when the first handler has removed itself and emits again. */
  lemma FirstRemoved(a: nat, b: nat)
    requires 1 <= a < b
    ensures var m, m1 := Mem(Two(a, b), map[], [a], [true]), Mem(LastOnly(a, b), map[a := b], [a], [true]);
            && MemOk(m) && MemOk(m1) && Perform(m, S.Disconnect(a)) == m1
            && Push(m1) == Mem(LastOnly(a, b), map[a := b], [a, 0], [true, true])
  {
    var m := Mem(Two(a, b), map[], [a], [true]);
    Removals(a, b);
    PerformOk(m, S.Disconnect(a));
  }

  /** The callback of the first handler. */
  lemma FirstCallback(a: nat, b: nat)
    requires 1 <= a < b
    ensures var m := Mem(Two(a, b), map[], [a], [true]);
            var r := Acts(m, FirstTurn(a, b).acts);
            MemOk(m) && r.ok && r.mem == Mem(Neither(a, b), map[a := b], [a], [true])
  {
    FirstRemoved(a, b);
    InnerRuns(a, b);
    TwoActs(Mem(Two(a, b), map[], [a], [true]), S.Disconnect(a), [RemoveSelf(b)]);
  }

  lemma TwoActs(m: Mem, a: S.Action, turns: seq<Turn>)
    requires MemOk(m) && MemOk(Perform(m, a)) && MemOk(Push(Perform(m, a))) && Loop(Push(Perform(m, a)), turns).ok
    ensures Acts(m, [Do(a), Emit(turns)]).ok
    ensures Acts(m, [Do(a), Emit(turns)]).mem == Loop(Push(Perform(m, a)), turns).mem
  {
    var acts, m1 := [Do(a), Emit(turns)], Perform(m, a);
    assert acts[1..] == [Emit(turns)] && [Emit(turns)][1..] == [];
    assert One(m1, Emit(turns)).ok && One(m1, Emit(turns)).mem == Loop(Push(m1), turns).mem;
    assert Acts(m1, acts[1..]).ok && Acts(m1, acts[1..]).mem == One(m1, Emit(turns)).mem;
  }

  /** The outer emission at the first node. */
  lemma OuterAtFirst(a: nat, b: nat)
    requires 1 <= a < b
    ensures var m := Mem(Two(a, b), map[], [a], [true]); MemOk(m) && !Loop(m, [FirstTurn(a, b)]).ok
  {
    var m, turns := Mem(Two(a, b), map[], [a], [true]), [FirstTurn(a, b)];
    FirstCallback(a, b);
    assert Called(m, turns);
    VisitGoesOn(m, turns);
  }

  /** Although every callback removes only its own handler, the outer emission steps to the second
      node after the inner one has deleted it. */
  lemma OneShotsCollide(a: nat, b: nat)
    requires 1 <= a < b
    ensures S.WellFormed(Two(a, b)) && !Outermost(Two(a, b), [FirstTurn(a, b)]).ok
  {
    var m, turns := Mem(Two(a, b), map[], [0], [true]), [FirstTurn(a, b)];
    OuterAtFirst(a, b);
    FromHead(m, a, turns);
    assert [0][..0] + [a] == [a] && 0 !in [0][..0];
    LoopAdvances(m, turns, a);
  }
}
