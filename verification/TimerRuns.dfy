/** The timer manager and its event loop as a transition system: the program's calls, the expiry of
    waits and the execution of queued completions happen in any order.  A timer is named by its
    index, one less than its id; closed timers live on while completions refer to them.
  */
module TimerRuns {
  import opened TimerCore

  /** `listed` is the domain of `timers_`; `now` is what the clock reads. */
  datatype State = State(infos: seq<Info>, listed: set<nat>, now: int)

  const EMPTY := State([], {}, 1)

  /** What the program can do.  `invoke` runs the callback at once, so that its operations are
      simply the program's own. */
  datatype Op =
    | SetTimer(ms: int)
    | SetFixed(ms: int)
    | Start(i: nat)
    | AutoStart(i: nat)    // a proxy that was never started, stopped or closed is destroyed
    | Stop(i: nat)
    | Close(i: nat)
    | StopAll
    | Clock(now: int)

  function Created(s: State, info: Info): State
  {
    s.(infos := s.infos + [info], listed := s.listed + {|s.infos|})
  }

  function StopListed(infos: seq<Info>, listed: set<nat>): (r: seq<Info>)
    ensures |r| == |infos|
    ensures forall i :: 0 <= i < |infos| ==> r[i] == if i in listed then Stopped(infos[i]) else infos[i]
  {
    seq(|infos|, i requires 0 <= i < |infos| => if i in listed then Stopped(infos[i]) else infos[i])
  }

  function StartAt(s: State, i: nat): State
    requires i < |s.infos|
  {
    s.(infos := s.infos[i := Started(s.infos[i], s.now)])
  }

  function Do(s: State, op: Op): (r: State)
    ensures |r.infos| >= |s.infos|
  {
    match op
    case SetTimer(ms) => Created(s, Info(true, ms, 0, 0, []))
    case SetFixed(ms) => Created(s, Info(true, ms, s.now + ms, 0, []))
    case Start(i) => if i in s.listed && i < |s.infos| then StartAt(s, i) else s
    case AutoStart(i) => if i in s.listed && i < |s.infos| && s.infos[i].ok then StartAt(s, i) else s
    case Stop(i) =>
      if i in s.listed && i < |s.infos| then s.(infos := s.infos[i := Stopped(s.infos[i])]) else s
    case Close(i) =>
      if i in s.listed && i < |s.infos| then State(s.infos[i := Stopped(s.infos[i])], s.listed - {i}, s.now) else s
    case StopAll => s.(infos := StopListed(s.infos, s.listed))
    case Clock(t) => s.(now := t)
  }

  function DoAll(s: State, ops: seq<Op>): (r: State)
    ensures |r.infos| >= |s.infos|
    decreases |ops|
  {
    if ops == [] then s else DoAll(Do(s, ops[0]), ops[1..])
  }

  datatype Event =
    | Call(op: Op)
    | Expire(i: nat)
    | Run(i: nat, k: nat, script: seq<Op>, goOn: bool)   // the k-th queued completion of timer i

  predicate Enabled(s: State, e: Event)
  {
    match e
    case Call(_) => true
    case Expire(i) => i < |s.infos| && s.infos[i].armed > 0
    case Run(i, k, _, _) => i < |s.infos| && k < |s.infos[i].queued|
  }

  function Dropped(q: seq<bool>, k: nat): seq<bool>
    requires k < |q|
  {
    q[..k] + q[k + 1..]
  }

  function Dequeued(s: State, i: nat, k: nat): State
    requires i < |s.infos| && k < |s.infos[i].queued|
  {
    s.(infos := s.infos[i := s.infos[i].(queued := Dropped(s.infos[i].queued, k))])
  }

  /** The event runs the callback of timer `i` from its completion handler. */
  predicate Fires(s: State, e: Event, i: nat)
    requires Enabled(s, e)
  {
    e.Run? && e.i == i && s.infos[i].queued[e.k] && s.infos[i].ok
  }

  /** After the callback, before the handler decides whether to go on. */
  function AfterCallback(s: State, e: Event): State
    requires e.Run? && Enabled(s, e)
  {
    DoAll(Dequeued(s, e.i, e.k), e.script)
  }

  function Step(s: State, e: Event): (r: State)
    requires Enabled(s, e)
    ensures |r.infos| >= |s.infos|
  {
    match e
    case Call(op) => Do(s, op)
    case Expire(i) =>
      s.(infos := s.infos[i := s.infos[i].(armed := 0, queued := s.infos[i].queued + seq(s.infos[i].armed, _ => true))])
    case Run(i, k, script, goOn) =>
      if Fires(s, e, i) then
        var s' := AfterCallback(s, e);
        if goOn || s'.infos[i].nextTime > 0 then StartAt(s', i) else s'
      else Dequeued(s, i, k)
  }

  predicate Runnable(s: State, es: seq<Event>)
    decreases |es|
  {
    es == [] || (Enabled(s, es[0]) && Runnable(Step(s, es[0]), es[1..]))
  }

  function Exec(s: State, es: seq<Event>): State
    requires Runnable(s, es)
    decreases |es|
  {
    if es == [] then s else Exec(Step(s, es[0]), es[1..])
  }

  /** Some event of the run fires timer `i`. */
  predicate FiresIn(s: State, es: seq<Event>, i: nat)
    requires Runnable(s, es)
    decreases |es|
  {
    es != [] && (Fires(s, es[0], i) || FiresIn(Step(s, es[0]), es[1..], i))
  }

  // ------------------------------------------------------------------ one wait at a time

  ghost predicate Inv(s: State)
  {
    && (forall i :: i in s.listed ==> i < |s.infos|)
    && forall i :: 0 <= i < |s.infos| ==> s.infos[i].armed <= 1 && (!s.infos[i].ok ==> s.infos[i].armed == 0)
  }

  lemma DoInv(s: State, op: Op)
    requires Inv(s)
    ensures Inv(Do(s, op))
  {
  }

  lemma {:induction false} DoAllInv(s: State, ops: seq<Op>)
    requires Inv(s)
    ensures Inv(DoAll(s, ops))
    decreases |ops|
  {
    if ops != [] {
      DoInv(s, ops[0]);
      DoAllInv(Do(s, ops[0]), ops[1..]);
    }
  }

  lemma StepInv(s: State, e: Event)
    requires Inv(s) && Enabled(s, e)
    ensures Inv(Step(s, e))
  {
    match e
    case Call(op) => DoInv(s, op);
    case Expire(_) =>
    case Run(i, k, script, _) => DoAllInv(Dequeued(s, i, k), script);
  }

  lemma {:induction false} RunInv(s: State, es: seq<Event>)
    requires Inv(s) && Runnable(s, es)
    ensures Inv(Exec(s, es))
    decreases |es|
  {
    if es != [] {
      StepInv(s, es[0]);
      RunInv(Step(s, es[0]), es[1..]);
    }
  }

  /** After any run each timer has at most one armed wait, and a stopped one none. */
  lemma OneWait(es: seq<Event>)
    requires Runnable(EMPTY, es)
    ensures forall i :: 0 <= i < |Exec(EMPTY, es).infos| ==>
              Exec(EMPTY, es).infos[i].armed <= if Exec(EMPTY, es).infos[i].ok then 1 else 0
  {
    RunInv(EMPTY, es);
  }

  // ------------------------------------------------------------------ stopping

  predicate NoStart(ops: seq<Op>, i: nat) { Start(i) !in ops }

  predicate NoStartIn(es: seq<Event>, i: nat)
  {
    forall e :: e in es ==> (e.Call? ==> e.op != Start(i)) && (e.Run? ==> NoStart(e.script, i))
  }

  /** Not started, not created anew: whatever else the program does, the timer stays off. */
  ghost predicate Off(s: State, i: nat) { i < |s.infos| && !s.infos[i].ok }

  lemma {:induction false} OpsStayOff(s: State, ops: seq<Op>, i: nat)
    requires Off(s, i) && (NoStart(ops, i) || i !in s.listed)
    ensures Off(DoAll(s, ops), i) && (i !in s.listed ==> i !in DoAll(s, ops).listed)
    decreases |ops|
  {
    if ops != [] {
      assert ops[0] in ops;
      OpsStayOff(Do(s, ops[0]), ops[1..], i);
    }
  }

  /** A timer that is off fires no more until it is started, and never if it is not listed. */
  lemma {:induction false} Silent(s: State, es: seq<Event>, i: nat)
    requires Off(s, i) && Runnable(s, es) && (NoStartIn(es, i) || i !in s.listed)
    ensures !FiresIn(s, es, i) && Off(Exec(s, es), i)
    decreases |es|
  {
    if es != [] {
      var e := es[0];
      assert e in es;
      match e {
        case Call(op) =>
          assert [op][1..] == [] && DoAll(s, [op]) == Do(s, op);
          OpsStayOff(s, [op], i);
        case Expire(_) =>
        case Run(j, k, script, _) =>
          if Fires(s, e, j) {
            OpsStayOff(Dequeued(s, j, k), script, i);
          }
      }
      Silent(Step(s, e), es[1..], i);
    }
  }

  /** The operation turns the listed timer `i` off. */
  predicate TurnsOff(op: Op, i: nat) { op == Stop(i) || op == Close(i) || op == StopAll }

  /** A stop, a close or `stop_all_timer` outside every callback is followed by no handler-driven call
      until the next start, whatever was already queued. */
  lemma StopIsFinal(s: State, op: Op, es: seq<Event>, i: nat)
    requires i in s.listed && i < |s.infos| && TurnsOff(op, i)
    requires Runnable(Step(s, Call(op)), es) && NoStartIn(es, i)
    ensures !FiresIn(Step(s, Call(op)), es, i)
  {
    Silent(Step(s, Call(op)), es, i);
  }

  /** A close is followed by none at all. */
  lemma CloseIsFinal(s: State, es: seq<Event>, i: nat)
    requires i in s.listed && i < |s.infos|
    requires Runnable(Step(s, Call(Close(i))), es)
    ensures !FiresIn(Step(s, Call(Close(i))), es, i)
  {
    Silent(Step(s, Call(Close(i))), es, i);
  }

  /** Operations of which number `n` turns the timer off and no later one starts it again. */
  lemma {:induction false} OpsTurnOff(s: State, ops: seq<Op>, n: nat, i: nat)
    requires n < |ops| && TurnsOff(ops[n], i)
    requires i in DoAll(s, ops[..n]).listed && i < |DoAll(s, ops[..n]).infos|
    requires ops[n] == Close(i) || NoStart(ops[n + 1..], i)
    ensures Off(DoAll(s, ops), i) && (ops[n] == Close(i) ==> i !in DoAll(s, ops).listed)
    decreases n
  {
    if n == 0 {
      OpsStayOff(Do(s, ops[0]), ops[1..], i);
    } else {
      assert ops[..n][1..] == ops[1..][..n - 1] && ops[1..][n..] == ops[n + 1..];
      OpsTurnOff(Do(s, ops[0]), ops[1..], n - 1, i);
    }
  }

  /** The completion handler runs a callback of another timer whose operation `n` turns timer `i`
      off. */
  predicate TurnedOffBy(s: State, e: Event, n: nat, i: nat)
    requires e.Run? && Enabled(s, e)
  {
    && Fires(s, e, e.i) && e.i != i && n < |e.script| && TurnsOff(e.script[n], i)
    && var s1 := DoAll(Dequeued(s, e.i, e.k), e.script[..n]); i in s1.listed && i < |s1.infos|
  }

  /** A stop inside another timer's callback is as final as one outside. */
  lemma StopInCallbackIsFinal(s: State, e: Event, n: nat, es: seq<Event>, i: nat)
    requires e.Run? && Enabled(s, e) && TurnedOffBy(s, e, n, i) && NoStart(e.script[n + 1..], i)
    requires Runnable(Step(s, e), es) && NoStartIn(es, i)
    ensures !FiresIn(Step(s, e), es, i)
  {
    OpsTurnOff(Dequeued(s, e.i, e.k), e.script, n, i);
    Silent(Step(s, e), es, i);
  }

  /** So is a close, even if the timer is started afterwards. */
  lemma CloseInCallbackIsFinal(s: State, e: Event, n: nat, es: seq<Event>, i: nat)
    requires e.Run? && Enabled(s, e) && TurnedOffBy(s, e, n, i) && e.script[n] == Close(i)
    requires Runnable(Step(s, e), es)
    ensures !FiresIn(Step(s, e), es, i)
  {
    OpsTurnOff(Dequeued(s, e.i, e.k), e.script, n, i);
    Silent(Step(s, e), es, i);
  }

  /** From `s` on, timer `i` is never called by its handler unless it is started again. */
  ghost predicate SilentFrom(s: State, i: nat)
  {
    forall es :: Runnable(s, es) && NoStartIn(es, i) ==> !FiresIn(s, es, i)
  }

  /** Inside its own callback a stop or close holds exactly if the callback then returns false and
      the timer is not a fixed one: otherwise the handler arms it again, listed or not. */
  lemma OwnCallbackExact(s: State, e: Event)
    requires Inv(s) && e.Run? && Enabled(s, e) && Fires(s, e, e.i) && Off(AfterCallback(s, e), e.i)
    ensures SilentFrom(Step(s, e), e.i) <==> !(e.goOn || AfterCallback(s, e).infos[e.i].nextTime > 0)
  {
    var i, s' := e.i, Step(s, e);
    if e.goOn || AfterCallback(s, e).infos[i].nextTime > 0 {
      var s1 := Step(s', Expire(i));
      var last := Run(i, |s1.infos[i].queued| - 1, [], false);
      assert Enabled(s', Expire(i)) && Enabled(s1, last) && Fires(s1, last, i);
      var es := [Expire(i), last];
      assert es[1..] == [last] && [last][1..] == [];
      assert Runnable(s1, [last]) && FiresIn(s1, [last], i);
      assert Runnable(s', es) && NoStartIn(es, i) && FiresIn(s', es, i);
    } else {
      forall es | Runnable(s', es) && NoStartIn(es, i)
        ensures !FiresIn(s', es, i)
      {
        Silent(s', es, i);
      }
    }
  }

  // ------------------------------------------------------------------ going on

  /** The timer is on, and a wait or a successful completion will call it. */
  predicate Ticking(s: State, i: nat)
  {
    i < |s.infos| && s.infos[i].ok && (s.infos[i].armed == 1 || true in s.infos[i].queued)
  }

  predicate SparesOp(op: Op, i: nat) { op != Stop(i) && op != Close(i) && !op.StopAll? }

  predicate Spares(ops: seq<Op>, i: nat) { forall j :: 0 <= j < |ops| ==> SparesOp(ops[j], i) }

  /** The event neither stops timer `i` nor lets its callback end it. */
  predicate Harmless(e: Event, i: nat)
  {
    && (e.Call? ==> SparesOp(e.op, i))
    && (e.Run? ==> Spares(e.script, i) && (e.i == i ==> e.goOn))
  }

  lemma {:induction false} OpsKeepTicking(s: State, ops: seq<Op>, i: nat)
    requires i < |s.infos| && s.infos[i].ok && Spares(ops, i)
    ensures DoAll(s, ops).infos[i].ok
    ensures Ticking(s, i) ==> Ticking(DoAll(s, ops), i)
    decreases |ops|
  {
    if ops != [] {
      assert SparesOp(ops[0], i);
      AppendKeeps(s.infos[i].queued, Aborted(s.infos[i].armed));
      OpsKeepTicking(Do(s, ops[0]), ops[1..], i);
    }
  }

  lemma AppendKeeps(q: seq<bool>, r: seq<bool>)
    ensures true in q ==> true in q + r
  {
  }

  lemma DropKeeps(q: seq<bool>, k: nat)
    requires k < |q| && !q[k]
    ensures true in q ==> true in Dropped(q, k)
  {
    if true in q {
      var j :| 0 <= j < |q| && q[j];
      assert Dropped(q, k)[if j < k then j else j - 1];
    }
  }

  lemma TickingStep(s: State, e: Event, i: nat)
    requires Inv(s) && Ticking(s, i) && Enabled(s, e) && Harmless(e, i)
    ensures Ticking(Step(s, e), i)
  {
    match e
    case Call(op) =>
      assert [op][1..] == [] && DoAll(s, [op]) == Do(s, op);
      OpsKeepTicking(s, [op], i);
    case Expire(j) =>
      if j == i {
        var q := Step(s, e).infos[i].queued;
        assert q[|q| - 1];
      }
    case Run(j, k, script, goOn) =>
      if Fires(s, e, j) {
        OpsKeepTicking(Dequeued(s, j, k), script, i);
      } else if j == i {
        DropKeeps(s.infos[i].queued, k);
      }
  }

  /** A started timer whose callback asks to go on is never forgotten: as long as nobody stops it,
      every state of every run has a wait armed or a successful completion queued for it. */
  lemma {:induction false} KeepsTicking(s: State, es: seq<Event>, i: nat)
    requires Inv(s) && Ticking(s, i) && Runnable(s, es) && forall e :: e in es ==> Harmless(e, i)
    ensures Ticking(Exec(s, es), i)
    decreases |es|
  {
    if es != [] {
      assert es[0] in es;
      TickingStep(s, es[0], i);
      StepInv(s, es[0]);
      KeepsTicking(Step(s, es[0]), es[1..], i);
    }
  }

  // ------------------------------------------------------------------ starting

  /** Everything but timer `i` is as before. */
  predicate OnlyTimer(s: State, s': State, i: nat)
  {
    && |s'.infos| == |s.infos| && s'.listed == s.listed && s'.now == s.now
    && forall j :: 0 <= j < |s.infos| && j != i ==> s'.infos[j] == s.infos[j]
  }

  /** Exactly one wait of timer `i` is armed, and those armed before have been aborted. */
  predicate FreshlyArmed(s: State, s': State, i: nat)
    requires i < |s.infos| && i < |s'.infos|
  {
    && s'.infos[i].ok && s'.infos[i].armed == 1 && s'.infos[i].ms == s.infos[i].ms
    && s.infos[i].queued <= s'.infos[i].queued && |s'.infos[i].queued| == |s.infos[i].queued| + s.infos[i].armed
    && (forall k :: |s.infos[i].queued| <= k < |s'.infos[i].queued| ==> !s'.infos[i].queued[k])
    && (s.infos[i].nextTime == 0 ==> s'.infos[i].nextTime == 0)
    && (s.infos[i].nextTime != 0 ==>
          s'.infos[i].nextTime >= s.now && s'.infos[i].nextTime >= s.infos[i].nextTime + s.infos[i].ms
          && (s'.infos[i].nextTime == s.now || s'.infos[i].nextTime == s.infos[i].nextTime + s.infos[i].ms))
  }

  /** Starting a listed timer, stopped or not, arms one wait; starting any other does nothing. */
  lemma StartStarts(s: State, i: nat)
    requires Inv(s)
    ensures var s' := Step(s, Call(Start(i)));
            if i in s.listed then
              i < |s.infos| && OnlyTimer(s, s', i) && FreshlyArmed(s, s', i) && Ticking(s', i) && Enabled(s', Expire(i))
            else s' == s
  {
  }

  /** A proxy that goes out of scope starts its timer exactly if that is listed and has not been stopped. */
  lemma AutoStartExact(s: State, i: nat)
    requires Inv(s)
    ensures var s' := Step(s, Call(AutoStart(i)));
            if i in s.listed && i < |s.infos| && s.infos[i].ok then
              OnlyTimer(s, s', i) && FreshlyArmed(s, s', i) && Ticking(s', i) && Enabled(s', Expire(i))
            else s' == s
  {
  }

  /** A started timer whose callback asks to go on always has a wait armed or a successful completion
      queued, as long as nobody stops it. */
  lemma StartedKeepsTicking(s: State, es: seq<Event>, i: nat)
    requires Inv(s) && i in s.listed && Runnable(Step(s, Call(Start(i))), es) && forall e :: e in es ==> Harmless(e, i)
    ensures Ticking(Exec(Step(s, Call(Start(i))), es), i)
  {
    StartStarts(s, i);
    StepInv(s, Call(Start(i)));
    KeepsTicking(Step(s, Call(Start(i))), es, i);
  }

  /** From there on the callback can be called: its wait may expire, and its completion be run. */
  lemma TickingFires(s: State, i: nat) returns (es: seq<Event>)
    requires Inv(s) && Ticking(s, i)
    ensures Runnable(s, es) && FiresIn(s, es, i) && |es| <= 2
  {
    if true in s.infos[i].queued {
      var k :| 0 <= k < |s.infos[i].queued| && s.infos[i].queued[k];
      es := [Run(i, k, [], false)];
      assert es[1..] == [] && Fires(s, es[0], i);
    } else {
      var s1 := Step(s, Expire(i));
      var last := Run(i, |s1.infos[i].queued| - 1, [], false);
      assert Enabled(s1, last) && Fires(s1, last, i);
      es := [Expire(i), last];
      assert es[1..] == [last] && [last][1..] == [];
      assert Runnable(s1, [last]) && FiresIn(s1, [last], i);
    }
  }

  /** A new timer is listed and idle; one from `set_fix_timer` is due a period from now, one from
      `set_timer` has no due time. */
  lemma CreatedTimer(s: State, op: Op)
    requires op.SetTimer? || op.SetFixed?
    ensures var s', i := Step(s, Call(op)), |s.infos|;
            && |s'.infos| == i + 1 && s'.infos[..i] == s.infos && s'.listed == s.listed + {i} && s'.now == s.now
            && s'.infos[i].ok && s'.infos[i].ms == op.ms && s'.infos[i].armed == 0 && s'.infos[i].queued == []
            && s'.infos[i].nextTime == if op.SetFixed? then s.now + op.ms else 0
  {
  }

  /** The clock is the environment's: it reads what it was set to last. */
  lemma ClockReads(s: State, op: Op)
    ensures var s' := Step(s, Call(op));
            if op.Clock? then s' == s.(now := op.now) else s'.now == s.now
  {
  }

  /** The waits of timer `i` have been aborted and it is off; its period and due time stay. */
  predicate SwitchedOff(s: State, s': State, i: nat)
    requires i < |s.infos| && i < |s'.infos|
  {
    && !s'.infos[i].ok && s'.infos[i].armed == 0
    && s'.infos[i].ms == s.infos[i].ms && s'.infos[i].nextTime == s.infos[i].nextTime
    && s.infos[i].queued <= s'.infos[i].queued && |s'.infos[i].queued| == |s.infos[i].queued| + s.infos[i].armed
    && forall k :: |s.infos[i].queued| <= k < |s'.infos[i].queued| ==> !s'.infos[i].queued[k]
  }

  /** Stopping a listed timer switches off that timer and nothing else, and leaves it listed, so that it can
      be started again. */
  lemma StopStops(s: State, i: nat)
    requires Inv(s)
    ensures var s' := Step(s, Call(Stop(i)));
            if i in s.listed then i < |s.infos| && OnlyTimer(s, s', i) && SwitchedOff(s, s', i) else s' == s
  {
  }

  /** Closing one also takes it, and no other, off the list. */
  lemma CloseCloses(s: State, i: nat)
    requires Inv(s)
    ensures var s' := Step(s, Call(Close(i)));
            if i in s.listed then
              && i < |s.infos| && SwitchedOff(s, s', i) && s'.listed == s.listed - {i} && s'.now == s.now
              && |s'.infos| == |s.infos| && forall j :: 0 <= j < |s.infos| && j != i ==> s'.infos[j] == s.infos[j]
            else s' == s
  {
  }

  /** `stop_all_timer` switches off exactly the listed timers. */
  lemma StopAllStops(s: State)
    requires Inv(s)
    ensures var s' := Step(s, Call(StopAll));
            && |s'.infos| == |s.infos| && s'.listed == s.listed && s'.now == s.now
            && forall i :: 0 <= i < |s.infos| ==>
                 if i in s.listed then SwitchedOff(s, s', i) else s'.infos[i] == s.infos[i]
  {
  }

  /** The operation is on timer `i`, or on all. */
  predicate Concerns(op: Op, i: nat)
  {
    op == Start(i) || op == AutoStart(i) || op == Stop(i) || op == Close(i) || op == StopAll
  }

  /** Operations on other timers do not touch timer `i`. */
  lemma {:induction false} OpsIndependent(s: State, ops: seq<Op>, i: nat)
    requires i < |s.infos| && forall op :: op in ops ==> !Concerns(op, i)
    ensures DoAll(s, ops).infos[i] == s.infos[i] && (i in DoAll(s, ops).listed <==> i in s.listed)
    decreases |ops|
  {
    if ops != [] {
      assert ops[0] in ops;
      OpsIndependent(Do(s, ops[0]), ops[1..], i);
    }
  }

  /** Nor do the waits and callbacks of other timers, unless such a callback operates on it. */
  lemma StepIndependent(s: State, e: Event, i: nat)
    requires i < |s.infos| && Enabled(s, e)
    requires match e
             case Call(op) => !Concerns(op, i)
             case Expire(j) => j != i
             case Run(j, _, script, _) => j != i && forall op :: op in script ==> !Concerns(op, i)
    ensures Step(s, e).infos[i] == s.infos[i] && (i in Step(s, e).listed <==> i in s.listed)
  {
    match e
    case Call(op) =>
      assert [op][1..] == [] && DoAll(s, [op]) == Do(s, op);
      OpsIndependent(s, [op], i);
    case Expire(_) =>
    case Run(j, k, script, _) => OpsIndependent(Dequeued(s, j, k), script, i);
  }

  // ------------------------------------------------------------------ no call too many

  function Successes(q: seq<bool>): nat { if q == [] then 0 else (if q[0] then 1 else 0) + Successes(q[1..]) }

  lemma {:induction false} SuccessesAppend(q: seq<bool>, r: seq<bool>)
    ensures Successes(q + r) == Successes(q) + Successes(r)
  {
    if q == [] {
      assert q + r == r;
    } else {
      assert (q + r)[1..] == q[1..] + r;
      SuccessesAppend(q[1..], r);
    }
  }

  lemma {:induction false} NoSuccess(q: seq<bool>)
    requires true !in q
    ensures Successes(q) == 0
  {
    if q != [] {
      assert q[0] in q && forall x :: x in q[1..] ==> x in q;
      NoSuccess(q[1..]);
    }
  }

  lemma {:induction false} SuccessesDropped(q: seq<bool>, k: nat)
    requires k < |q|
    ensures Successes(q) == Successes(Dropped(q, k)) + if q[k] then 1 else 0
  {
    if k == 0 {
      assert Dropped(q, 0) == q[1..];
    } else {
      assert Dropped(q, k)[1..] == Dropped(q[1..], k - 1);
      SuccessesDropped(q[1..], k - 1);
    }
  }

  /** The successful completions of timer `i` that are queued. */
  function Due(s: State, i: nat): nat { if i < |s.infos| then Successes(s.infos[i].queued) else 0 }

  lemma OpKeepsDue(s: State, op: Op, i: nat)
    ensures Due(Do(s, op), i) == Due(s, i)
  {
    if i < |s.infos| {
      SuccessesAppend(s.infos[i].queued, Aborted(s.infos[i].armed));
      NoSuccess(Aborted(s.infos[i].armed));
    }
  }

  lemma {:induction false} OpsKeepDue(s: State, ops: seq<Op>, i: nat)
    ensures Due(DoAll(s, ops), i) == Due(s, i)
    decreases |ops|
  {
    if ops != [] {
      OpKeepsDue(s, ops[0], i);
      OpsKeepDue(Do(s, ops[0]), ops[1..], i);
    }
  }

  /** How often the handler calls timer `i` in a run, and how often a wait of it expires. */
  function Calls(s: State, es: seq<Event>, i: nat): nat
    requires Runnable(s, es)
    decreases |es|
  {
    if es == [] then 0 else (if Fires(s, es[0], i) then 1 else 0) + Calls(Step(s, es[0]), es[1..], i)
  }

  function Expiries(es: seq<Event>, i: nat): nat
  {
    if es == [] then 0 else (if es[0] == Expire(i) then 1 else 0) + Expiries(es[1..], i)
  }

  lemma StepDue(s: State, e: Event, i: nat)
    requires Inv(s) && Enabled(s, e)
    ensures Due(Step(s, e), i) + (if Fires(s, e, i) then 1 else 0) <= Due(s, i) + if e == Expire(i) then 1 else 0
  {
    match e
    case Call(op) => OpKeepsDue(s, op, i);
    case Expire(j) =>
      if j == i {
        SuccessesAppend(s.infos[i].queued, [true]);
        assert [true][1..] == [];
        assert Step(s, e).infos[i].queued == s.infos[i].queued + [true];
      }
    case Run(j, k, script, goOn) =>
      SuccessesDropped(s.infos[j].queued, k);
      if Fires(s, e, j) {
        OpsKeepDue(Dequeued(s, j, k), script, i);
        var s1 := AfterCallback(s, e);
        SuccessesAppend(s1.infos[j].queued, Aborted(s1.infos[j].armed));
        NoSuccess(Aborted(s1.infos[j].armed));
      }
  }

  lemma {:induction false} RunDue(s: State, es: seq<Event>, i: nat)
    requires Inv(s) && Runnable(s, es)
    ensures Due(Exec(s, es), i) + Calls(s, es, i) <= Due(s, i) + Expiries(es, i)
    decreases |es|
  {
    if es != [] {
      StepInv(s, es[0]);
      StepDue(s, es[0], i);
      RunDue(Step(s, es[0]), es[1..], i);
    }
  }

  /** Every call is paid for by a wait that expired: waits that were aborted by a start or a stop never
      lead to one. */
  lemma CallsNeedExpiries(es: seq<Event>, i: nat)
    requires Runnable(EMPTY, es)
    ensures Calls(EMPTY, es, i) + Due(Exec(EMPTY, es), i) <= Expiries(es, i)
  {
    RunDue(EMPTY, es, i);
  }
}
