/** What every run of a channel guarantees. */
module ChannelTheorems {
  import opened Wrappers
  import opened ChannelCore
  import opened ChannelRuns

  // ------------------------------------------------------------------ safety

  /** Conservation, order and capacity: what was dequeued is a prefix of what was enqueued,
      the rest is the queue, and the queue exceeds `n` by at most one element. */
  lemma FifoAndCapacity(n: nat, s: State)
    requires Reachable(n, s)
    ensures s.sent == s.received + s.chan.queue
    ensures |s.chan.queue| <= n + 1
    ensures |s.sent| - |s.received| <= n + 1
  {
    ReachableInv(n, s);
  }

  predicate InFlight(p: Pc) { p.SendNotify? || p.AckEntry? || p.AckWait? || p.AckWoken? }

  predicate Receiving(p: Pc) { p.RecvWait? || p.RecvWoken? }

  lemma {:induction false} CountUnique(ts: seq<Pc>, ks: set<Kind>, i: nat, j: nat)
    requires Count(ts, ks) <= 1 && i < |ts| && j < |ts|
    requires KindOf(ts[i]) in ks && KindOf(ts[j]) in ks
    ensures i == j
  {
    if i == 0 && j > 0 {
      CountPositive(ts[1..], j - 1, ks);
    } else if j == 0 && i > 0 {
      CountPositive(ts[1..], i - 1, ks);
    } else if i > 0 && j > 0 {
      CountUnique(ts[1..], ks, i - 1, j - 1);
    }
  }

  /** The two "done" flags say exactly what the comments of the source claim. */
  lemma FlagMeaning(n: nat, s: State)
    requires Reachable(n, s)
    ensures !s.chan.sendDone <==> exists t :: 0 <= t < |s.threads| && InFlight(s.threads[t])
    ensures forall t, u :: 0 <= t < |s.threads| && 0 <= u < |s.threads| ==>
              InFlight(s.threads[t]) && InFlight(s.threads[u]) ==> t == u
    ensures s.chan.sendDone || s.chan.trySendDone
    ensures IsFull(n, s.chan) ==> !s.chan.sendDone || !s.chan.trySendDone
    ensures !s.chan.trySendDone ==>
              IsFull(n, s.chan) && exists t :: 0 <= t < |s.threads| && Receiving(s.threads[t])
    ensures s.chan.recvReady ==> exists t :: 0 <= t < |s.threads| && Receiving(s.threads[t])
  {
    ReachableInv(n, s);
    var ts := s.threads;
    if Count(ts, IN_FLIGHT) >= 1 {
      var t := CountWitness(ts, IN_FLIGHT);
      assert InFlight(ts[t]);
    } else {
      NobodyIn(ts, IN_FLIGHT);
    }
    if Count(ts, RECEIVERS) >= 1 {
      var t := CountWitness(ts, RECEIVERS);
      assert Receiving(ts[t]);
    }
    forall t, u | 0 <= t < |ts| && 0 <= u < |ts| && InFlight(ts[t]) && InFlight(ts[u])
      ensures t == u
    {
      CountUnique(ts, IN_FLIGHT, t, u);
    }
  }

  /** The event dequeues an element. */
  predicate Pops(s: State, e: Event)
  {
    (e.Recv? || e.RecvResume? || e.TryRecvCall?) && s.chan.queue != []
  }

  /** The assertions on queue size and done flags in the section run by `e`:
      lines 91-97 and 710-722 for a dequeue, 671-677 for a successful try_send. */
  predicate AssertsHold(n: nat, s: State, e: Event)
    requires Enabled(s, e)
  {
    && (Pops(s, e) ==>
          && (!IsFull(n, s.chan) || !s.chan.sendDone || !s.chan.trySendDone)
          && (s.chan.trySendDone || s.chan.sendDone)
          && !IsFull(n, Step(n, s, e).chan))
    && (e.TrySendCall? && !TrySendRefused(n, s.chan) ==>
          Step(n, s, e).chan.trySendDone || s.chan.recvReady)
  }

  lemma AssertsNeverFire(n: nat, s: State, e: Event)
    requires Reachable(n, s) && Enabled(s, e)
    ensures AssertsHold(n, s, e)
  {
    ReachableInv(n, s);
  }

  /** The buffered-channel rule: when the send of the k-th enqueued element is about to
      return, at least k - n elements have been dequeued; on a synchronous channel that
      includes the sender's own element. */
  lemma SendReturnsAfterReceives(n: nat, s: State, t: nat)
    requires Reachable(n, s) && t < |s.threads| && s.threads[t].AckNotify?
    ensures var k := s.threads[t].k;
            1 <= k <= |s.sent| && s.sent[k - 1].sender == t && k - n <= |s.received|
    ensures n == 0 ==> var k := s.threads[t].k;
            k <= |s.received| && s.received[k - 1] == s.sent[k - 1]
  {
    ReachableInv(n, s);
    assert TicketOk(n, s, t);
  }

  // ------------------------------------------------- thread identity assertion

  /** `assert(!is_full() || this_thread::get_id() != pair.first)` for a dequeue by `e.t`. */
  predicate IdentityAssert(n: nat, s: State, e: Event)
  {
    Pops(s, e) ==> !IsFull(n, s.chan) || s.chan.queue[0].sender != e.t
  }

  lemma {:induction false} ExecAppend(n: nat, s: State, es: seq<Event>, e: Event)
    requires Runnable(n, s, es) && Enabled(Exec(n, s, es), e)
    ensures Runnable(n, s, es + [e]) && Exec(n, s, es + [e]) == Step(n, Exec(n, s, es), e)
    decreases |es|
  {
    if es == [] {
      assert [e][1..] == [];
    } else {
      ExecAppend(n, Step(n, s, es[0]), es[1..], e);
      assert (es + [e])[1..] == es[1..] + [e];
    }
  }

  /** One more event keeps a state reachable. */
  lemma Extend(n: nat, threads: nat, es: seq<Event>, s: State, e: Event)
    requires Runnable(n, Init(threads), es) && Exec(n, Init(threads), es) == s && Enabled(s, e)
    ensures Runnable(n, Init(threads), es + [e]) && Exec(n, Init(threads), es + [e]) == Step(n, s, e)
    ensures Reachable(n, Step(n, s, e))
  {
    ExecAppend(n, Init(threads), es, e);
  }

  lemma ReachableNext(n: nat, s: State, e: Event)
    requires Reachable(n, s) && Enabled(s, e)
    ensures Reachable(n, Step(n, s, e))
  {
    var threads: nat, es: seq<Event> :|
      Runnable(n, Init(threads), es) && Exec(n, Init(threads), es) == s;
    Extend(n, threads, es, s, e);
  }

  /** The event is no try_recv unless those are allowed, and no try_send unless those are. */
  predicate Allowed(e: Event, tryRecv: bool, trySend: bool)
  {
    (e.TryRecvCall? ==> tryRecv) && (e.TrySendCall? ==> trySend)
  }

  predicate AllAllowed(es: seq<Event>, tryRecv: bool, trySend: bool)
  {
    forall e :: e in es ==> Allowed(e, tryRecv, trySend)
  }

  lemma AllowedMore(es: seq<Event>, tryRecv: bool, trySend: bool)
    requires AllAllowed(es, false, trySend)
    ensures AllAllowed(es, tryRecv, trySend) && AllAllowed(es, tryRecv, true)
  {
    forall e | e in es
      ensures Allowed(e, tryRecv, trySend) && Allowed(e, tryRecv, true)
    {
      assert Allowed(e, false, trySend);
    }
  }

  lemma AllowedAppend(es: seq<Event>, e: Event, tryRecv: bool, trySend: bool)
    requires AllAllowed(es, tryRecv, trySend) && Allowed(e, tryRecv, trySend)
    ensures AllAllowed(es + [e], tryRecv, trySend)
  {
  }

  /** On a synchronous channel the assertion holds whenever the element came from `send`. */
  lemma SynchronousSenderIsAnother(s: State, e: Event)
    requires Inv(0, s) && Enabled(s, e) && s.chan.trySendDone
    ensures IdentityAssert(0, s, e)
  {
    if Pops(s, e) {
      var t := CountWitness(s.threads, IN_FLIGHT);
      assert TicketOk(0, s, t);
      assert s.sent[|s.sent| - 1] == s.chan.queue[|s.chan.queue| - 1];
    }
  }

  lemma {:induction false} TrySendFlagStaysUp(n: nat, s: State, es: seq<Event>)
    requires Runnable(n, s, es) && AllAllowed(es, true, false) && s.chan.trySendDone
    ensures Exec(n, s, es).chan.trySendDone
    decreases |es|
  {
    if es != [] {
      assert es[0] in es && Allowed(es[0], true, false);
      TrySendFlagStaysUp(n, Step(n, s, es[0]), es[1..]);
    }
  }

  /** Two idle threads and a queue of elements that all came from thread 0. */
  predicate Filled(s: State, k: nat)
  {
    && s.threads == [Idle, Idle] && s.received == [] && s.sent == s.chan.queue
    && s.chan == EmptyChan.(queue := s.chan.queue)
    && |s.chan.queue| == k && forall i :: 0 <= i < k ==> s.chan.queue[i].sender == 0
  }

  /** Thread 0 starts one more send ... */
  lemma FillOneFirstHalf(n: nat, es: seq<Event>) returns (es': seq<Event>)
    requires Runnable(n, Init(2), es) && AllAllowed(es, false, false)
    requires exists k: nat :: k < n && Filled(Exec(n, Init(2), es), k)
    ensures Runnable(n, Init(2), es') && AllAllowed(es', false, false)
    ensures var s, s' := Exec(n, Init(2), es), Exec(n, Init(2), es');
            var k := |s.chan.queue|;
            s' == State(Enqueue(s.chan, Item(0, 0)), [AckEntry(k + 1), Idle], s.sent + [Item(0, 0)], [])
  {
    var s := Exec(n, Init(2), es);
    Extend(n, 2, es, s, Send(0, 0));
    var s1 := Step(n, s, Send(0, 0));
    assert s1.threads == [SendNotify(|s.sent| + 1), Idle];
    Extend(n, 2, es + [Send(0, 0)], s1, NotifyRecv(0, None));
    es' := es + [Send(0, 0)] + [NotifyRecv(0, None)];
    AllowedAppend(es, Send(0, 0), false, false);
    AllowedAppend(es + [Send(0, 0)], NotifyRecv(0, None), false, false);
    assert Step(n, s1, NotifyRecv(0, None)).threads == [AckEntry(|s.sent| + 1), Idle];
  }

  /** ... and returns from it. */
  lemma FillSecondHalf(n: nat, k: nat, s: State, s2: State)
    requires k < n && Filled(s, k)
    requires s2 == State(Enqueue(s.chan, Item(0, 0)), [AckEntry(k + 1), Idle], s.sent + [Item(0, 0)], [])
    ensures Enabled(s2, AckArrive(0)) && Enabled(Step(n, s2, AckArrive(0)), NotifyBegin(0, None))
    ensures Filled(Step(n, Step(n, s2, AckArrive(0)), NotifyBegin(0, None)), k + 1)
  {
    var s3 := Step(n, s2, AckArrive(0));
    assert s3.threads == [AckNotify(k + 1), Idle];
    assert Step(n, s3, NotifyBegin(0, None)).threads == [Idle, Idle];
  }

  lemma FillOne(n: nat, k: nat, es: seq<Event>) returns (es': seq<Event>)
    requires k < n && Runnable(n, Init(2), es) && AllAllowed(es, false, false) && Filled(Exec(n, Init(2), es), k)
    ensures Runnable(n, Init(2), es') && AllAllowed(es', false, false) && Filled(Exec(n, Init(2), es'), k + 1)
  {
    var es2 := FillOneFirstHalf(n, es);
    var s2 := Exec(n, Init(2), es2);
    FillSecondHalf(n, k, Exec(n, Init(2), es), s2);
    Extend(n, 2, es2, s2, AckArrive(0));
    Extend(n, 2, es2 + [AckArrive(0)], Step(n, s2, AckArrive(0)), NotifyBegin(0, None));
    es' := es2 + [AckArrive(0)] + [NotifyBegin(0, None)];
    AllowedAppend(es2, AckArrive(0), false, false);
    AllowedAppend(es2 + [AckArrive(0)], NotifyBegin(0, None), false, false);
  }

  lemma {:induction false} FillUp(n: nat, k: nat) returns (es: seq<Event>)
    requires k <= n
    ensures Runnable(n, Init(2), es) && AllAllowed(es, false, false) && Filled(Exec(n, Init(2), es), k)
  {
    if k == 0 {
      es := [];
      assert Init(2).threads == [Idle, Idle];
    } else {
      var fewer := FillUp(n, k - 1);
      es := FillOne(n, k - 1, fewer);
    }
  }

  /** Thread 0 fills the buffer, thread 1 sends one element more, thread 0 dequeues its own. */
  lemma IdentityAssertFailsWithBuffer(n: nat) returns (es: seq<Event>)
    requires n >= 1
    ensures Runnable(n, Init(2), es) && AllAllowed(es, false, false)
    ensures Enabled(Exec(n, Init(2), es), Recv(0)) && !IdentityAssert(n, Exec(n, Init(2), es), Recv(0))
  {
    var fill := FillUp(n, n);
    var s := Exec(n, Init(2), fill);
    Extend(n, 2, fill, s, Send(1, 0));
    es := fill + [Send(1, 0)];
    AllowedAppend(fill, Send(1, 0), false, false);
  }

  /** A waiting receiver, an element handed over by try_send, and the receiver woken. */
  lemma HandedOver(s1: State, s2: State, s3: State)
    requires s1 == Step(0, Init(2), Recv(0))
    requires Enabled(s1, TrySendCall(1, 0)) ==> s2 == Step(0, s1, TrySendCall(1, 0))
    requires Enabled(s2, NotifyRecv(1, Some(0))) ==> s3 == Step(0, s2, NotifyRecv(1, Some(0)))
    ensures Enabled(s1, TrySendCall(1, 0)) && Enabled(s2, NotifyRecv(1, Some(0)))
    ensures Enabled(s3, Recv(1)) && !IdentityAssert(0, s3, Recv(1))
  {
    assert s1.threads == [RecvWait, Idle];
    assert s2.threads == [RecvWait, TryNotify] && s2.chan.queue == [Item(1, 0)];
    assert s3.threads == [RecvWoken, Idle];
  }

  /** Without a buffer it fails after a try_send: thread 1 hands an element to the waiting thread 0,
      and takes it back itself before thread 0 has run. */
  lemma IdentityAssertFailsWithTrySend() returns (es: seq<Event>)
    ensures Runnable(0, Init(2), es) && AllAllowed(es, false, true)
    ensures Enabled(Exec(0, Init(2), es), Recv(1)) && !IdentityAssert(0, Exec(0, Init(2), es), Recv(1))
  {
    var a, b, c := Recv(0), TrySendCall(1, 0), NotifyRecv(1, Some(0));
    var s1 := Step(0, Init(2), a);
    var s2 := if Enabled(s1, b) then Step(0, s1, b) else s1;
    var s3 := if Enabled(s2, c) then Step(0, s2, c) else s2;
    HandedOver(s1, s2, s3);
    Extend(0, 2, [], Init(2), a);
    Extend(0, 2, [] + [a], s1, b);
    Extend(0, 2, [] + [a] + [b], s2, c);
    es := [] + [a] + [b] + [c];
    assert AllAllowed([], false, true);
    AllowedAppend([], a, false, true);
    AllowedAppend([] + [a], b, false, true);
    AllowedAppend([] + [a] + [b], c, false, true);
  }

  /** The assertion holds at every dequeue of every run over the allowed operations. */
  ghost predicate IdentityAlwaysHolds(n: nat, tryRecv: bool, trySend: bool)
  {
    forall threads: nat, es: seq<Event>, e: Event ::
      Runnable(n, Init(threads), es) && AllAllowed(es, tryRecv, trySend)
      && Enabled(Exec(n, Init(threads), es), e) && Allowed(e, tryRecv, trySend) ==>
        IdentityAssert(n, Exec(n, Init(threads), es), e)
  }

  /** The assertion can never fail exactly when the channel has no buffer and try_send is not used;
      whether try_recv is used does not matter. */
  lemma IdentityAssertExact(n: nat, tryRecv: bool, trySend: bool)
    ensures IdentityAlwaysHolds(n, tryRecv, trySend) <==> n == 0 && !trySend
  {
    if n == 0 && !trySend {
      forall threads: nat, es: seq<Event>, e: Event |
        Runnable(n, Init(threads), es) && AllAllowed(es, tryRecv, trySend)
        && Enabled(Exec(n, Init(threads), es), e) && Allowed(e, tryRecv, trySend)
        ensures IdentityAssert(n, Exec(n, Init(threads), es), e)
      {
        InitInv(n, threads);
        RunInv(n, Init(threads), es);
        TrySendFlagStaysUp(n, Init(threads), es);
        SynchronousSenderIsAnother(Exec(n, Init(threads), es), e);
      }
    } else if n == 0 {
      var es := IdentityAssertFailsWithTrySend();
      AllowedMore(es, tryRecv, true);
      assert AllAllowed(es, tryRecv, trySend) && Allowed(Recv(1), tryRecv, trySend);
      assert Enabled(Exec(n, Init(2), es), Recv(1));
    } else {
      var es := IdentityAssertFailsWithBuffer(n);
      AllowedMore(es, tryRecv, false);
      assert AllAllowed(es, tryRecv, trySend) && Allowed(Recv(0), tryRecv, trySend);
      assert Enabled(Exec(n, Init(2), es), Recv(0));
    }
  }

  // ------------------------------------------------------- try-ready assertion

  /** `assert(!is_try_ready())` at entry to try_send, before an enqueue by send, and after
      the wait of a blocking receive. */
  predicate TryReadyAssert(n: nat, s: State, e: Event)
  {
    match e
    case TrySendCall(_, _) => !s.chan.tryRecvReady
    case Send(_, _) => CanEnqueue(n, s.chan) ==> !IsTryReady(s.chan)
    case SendResume(_) => CanEnqueue(n, s.chan) ==> !IsTryReady(s.chan)
    case Recv(_) => s.chan.queue != [] ==> !IsTryReady(s.chan)
    case RecvResume(_) => s.chan.queue != [] ==> !IsTryReady(s.chan)
    case _ => true
  }

  lemma {:induction false} TryFlagsStayDown(n: nat, s: State, es: seq<Event>)
    requires Runnable(n, s, es)
    ensures !s.chan.tryRecvReady && (forall e :: e in es ==> !e.TryRecvCall?) ==>
              !Exec(n, s, es).chan.tryRecvReady
    ensures !s.chan.trySendReady && (forall e :: e in es ==> !e.TrySendCall?) ==>
              !Exec(n, s, es).chan.trySendReady
    decreases |es|
  {
    if es != [] {
      TryFlagsStayDown(n, Step(n, s, es[0]), es[1..]);
    }
  }

  /** If at most one of the two ends is used from a select, these assertions hold. */
  lemma TryReadyHolds(n: nat, threads: nat, es: seq<Event>, e: Event, tryRecv: bool, trySend: bool)
    requires Runnable(n, Init(threads), es) && Enabled(Exec(n, Init(threads), es), e)
    requires AllAllowed(es, tryRecv, trySend) && Allowed(e, tryRecv, trySend) && !(tryRecv && trySend)
    ensures TryReadyAssert(n, Exec(n, Init(threads), es), e)
  {
    assert forall x :: x in es ==> Allowed(x, tryRecv, trySend);
    TryFlagsStayDown(n, Init(threads), es);
  }

  /** With both ends in a select it fails in a run that uses try_recv on an empty channel and then
      try_send. */
  lemma TryReadyCanFail(n: nat) returns (es: seq<Event>, e: Event)
    ensures es == [TryRecvCall(0)] && e == TrySendCall(1, 0)
    ensures Runnable(n, Init(2), es) && Enabled(Exec(n, Init(2), es), e)
    ensures !TryReadyAssert(n, Exec(n, Init(2), es), e)
  {
    es, e := [] + [TryRecvCall(0)], TrySendCall(1, 0);
    Extend(n, 2, [], Init(2), TryRecvCall(0));
  }

  /** These assertions hold at every event of every run over the allowed operations. */
  ghost predicate TryReadyAlwaysHolds(n: nat, tryRecv: bool, trySend: bool)
  {
    forall threads: nat, es: seq<Event>, e: Event ::
      Runnable(n, Init(threads), es) && AllAllowed(es, tryRecv, trySend)
      && Enabled(Exec(n, Init(threads), es), e) && Allowed(e, tryRecv, trySend) ==>
        TryReadyAssert(n, Exec(n, Init(threads), es), e)
  }

  /** They can never fail exactly when not both try operations are used on the channel. */
  lemma TryReadyExact(n: nat, tryRecv: bool, trySend: bool)
    ensures TryReadyAlwaysHolds(n, tryRecv, trySend) <==> !(tryRecv && trySend)
  {
    if tryRecv && trySend {
      var es, e := TryReadyCanFail(n);
      assert AllAllowed(es, true, true) && Allowed(e, true, true);
    } else {
      forall threads: nat, es: seq<Event>, e: Event |
        Runnable(n, Init(threads), es) && AllAllowed(es, tryRecv, trySend)
        && Enabled(Exec(n, Init(threads), es), e) && Allowed(e, tryRecv, trySend)
        ensures TryReadyAssert(n, Exec(n, Init(threads), es), e)
      {
        TryReadyHolds(n, threads, es, e, tryRecv, trySend);
      }
    }
  }

  // ---------------------------------------------------------------- progress

  /** No lost wakeups. */
  lemma NoLostWakeup(n: nat, s: State)
    requires Reachable(n, s)
    ensures Count(s.threads, RECV_BLOCKED) == 0 || |s.chan.queue| <= Count(s.threads, RECV_SERVED)
    ensures Count(s.threads, BEGIN_BLOCKED) > 0 && CanEnqueue(n, s.chan) ==> Count(s.threads, BEGIN_SERVED) >= 1
    ensures Count(s.threads, END_BLOCKED) > 0 && !IsFull(n, s.chan) ==> Count(s.threads, END_SERVED) >= 1
  {
    ReachableInv(n, s);
  }

  /** Steps the system takes on its own: no new operation, no spurious wakeup. */
  predicate Internal(e: Event)
  {
    e.SendResume? || e.AckArrive? || e.AckResume? || e.RecvResume? || e.NotifyRecv? || e.NotifyBegin? || e.NotifyEnd?
  }

  predicate Resting(p: Pc) { p.Idle? || p.SendWait? || p.AckWait? || p.RecvWait? }

  /** No thread can run and no notification is outstanding. */
  predicate Quiescent(s: State)
  {
    forall t :: 0 <= t < |s.threads| ==> Resting(s.threads[t])
  }

  /** Quiescent states are exactly those where the system has no step of its own. */
  lemma QuiescentIffStuck(s: State)
    ensures Quiescent(s) <==> !exists e :: Internal(e) && Enabled(s, e)
  {
    if !Quiescent(s) {
      var t :| 0 <= t < |s.threads| && !Resting(s.threads[t]);
      var e := NextOf(s, t);
    }
  }

  /** Some waiter of the given kind if there is one. */
  lemma SomeWaiter(ts: seq<Pc>, waiting: Kind) returns (w: Option<nat>)
    ensures Chooses(ts, w, waiting)
  {
    if i: nat :| i < |ts| && KindOf(ts[i]) == waiting {
      w := Some(i);
    } else {
      w := None;
    }
  }

  lemma NextOf(s: State, t: nat) returns (e: Event)
    requires t < |s.threads| && !Resting(s.threads[t])
    ensures Internal(e) && Enabled(s, e)
  {
    var toRecv := SomeWaiter(s.threads, KRecvWait);
    var toBegin := SomeWaiter(s.threads, KSendWait);
    var toEnd := SomeWaiter(s.threads, KAckWait);
    match s.threads[t]
    case SendWoken(_) => e := SendResume(t);
    case SendNotify(_) => e := NotifyRecv(t, toRecv);
    case AckEntry(_) => e := AckArrive(t);
    case AckWoken(_) => e := AckResume(t);
    case AckNotify(_) => e := NotifyBegin(t, toBegin);
    case RecvWoken => e := RecvResume(t);
    case RecvNotifyBegin => e := NotifyBegin(t, toBegin);
    case RecvNotifyEnd => e := NotifyEnd(t, toEnd);
    case TryNotify => e := NotifyRecv(t, toRecv);
  }

  /** Deadlock freedom: at rest, blocked receivers mean an empty channel without any blocked
      sender; blocked senders mean a full queue whose last element belongs to the one sender
      that waits for its acknowledgement. */
  lemma NoDeadlock(n: nat, s: State)
    requires Reachable(n, s) && Quiescent(s)
    ensures Count(s.threads, RECV_BLOCKED) > 0 ==>
              s.chan.queue == [] && Count(s.threads, BEGIN_BLOCKED) == 0 && Count(s.threads, END_BLOCKED) == 0
    ensures Count(s.threads, BEGIN_BLOCKED) > 0 ==>
              |s.chan.queue| == n + 1 && Count(s.threads, END_BLOCKED) == 1
    ensures Count(s.threads, END_BLOCKED) > 0 ==> |s.chan.queue| == n + 1
  {
    ReachableInv(n, s);
    var ts := s.threads;
    CountZero(ts, RECV_SERVED);
    CountZero(ts, BEGIN_SERVED);
    CountZero(ts, END_SERVED);
    CountSplit(ts, IN_FLIGHT, END_BLOCKED, {KSendNotify, KAckEntry, KAckWoken});
    CountZero(ts, {KSendNotify, KAckEntry, KAckWoken});
    CountSplit(ts, RECEIVERS, RECV_BLOCKED, {KRecvWoken});
    CountZero(ts, {KRecvWoken});
  }

  lemma {:induction false} CountSplit(ts: seq<Pc>, ks: set<Kind>, a: set<Kind>, b: set<Kind>)
    requires ks == a + b && a !! b
    ensures Count(ts, ks) == Count(ts, a) + Count(ts, b)
  {
    if ts != [] {
      CountSplit(ts[1..], ks, a, b);
    }
  }

  /** Bound on the steps a thread and its notification can still cause. */
  function Weight(p: Pc): nat
  {
    match p
    case Idle => 0
    case SendWait(_) => 7
    case SendWoken(_) => 8
    case SendNotify(_) => 6
    case AckEntry(_) => 4
    case AckWait(_) => 3
    case AckWoken(_) => 4
    case AckNotify(_) => 2
    case RecvWait => 3
    case RecvWoken => 4
    case RecvNotifyBegin => 2
    case RecvNotifyEnd => 2
    case TryNotify => 2
  }

  function Energy(ts: seq<Pc>): nat
  {
    if ts == [] then 0 else Weight(ts[0]) + Energy(ts[1..])
  }

  lemma {:induction false} EnergyUpdate(ts: seq<Pc>, i: nat, p: Pc)
    requires i < |ts|
    ensures Energy(ts[i := p]) == Energy(ts) - Weight(ts[i]) + Weight(p)
  {
    if i == 0 {
      assert ts[i := p][1..] == ts[1..];
    } else {
      assert ts[i := p][1..] == ts[1..][i - 1 := p];
      EnergyUpdate(ts[1..], i - 1, p);
    }
  }

  lemma {:induction false} EnergyBound(ts: seq<Pc>)
    ensures Energy(ts) <= 8 * |ts|
  {
    if ts != [] {
      EnergyBound(ts[1..]);
    }
  }

  lemma WakeWeight(p: Pc)
    requires KindOf(p) in {KRecvWait, KSendWait, KAckWait}
    ensures Weight(Wake(p)) == Weight(p) + 1
  {
  }

  lemma NotifyEnergy(ts: seq<Pc>, t: nat, p: Pc, w: Option<nat>)
    requires t < |ts|
    requires w.Some? ==> w.value < |ts| && w.value != t && KindOf(ts[w.value]) in {KRecvWait, KSendWait, KAckWait}
    ensures Energy(Notify(ts, t, p, w)) <= Energy(ts) - Weight(ts[t]) + Weight(p) + 1
  {
    EnergyUpdate(ts, t, p);
    match w
    case None =>
    case Some(i) =>
      WakeWeight(ts[i]);
      EnergyUpdate(ts[t := p], i, Wake(ts[i]));
  }

  lemma NotifyDrops(n: nat, s: State, e: Event)
    requires Enabled(s, e) && (e.NotifyRecv? || e.NotifyBegin? || e.NotifyEnd?)
    ensures Energy(Step(n, s, e).threads) < Energy(s.threads)
  {
    match e
    case NotifyRecv(t, w) =>
      NotifyEnergy(s.threads, t, if s.threads[t].SendNotify? then AckEntry(s.threads[t].k) else Idle, w);
    case NotifyBegin(t, w) => NotifyEnergy(s.threads, t, Idle, w);
    case NotifyEnd(t, w) => NotifyEnergy(s.threads, t, Idle, w);
  }

  lemma ResumeDrops(n: nat, s: State, e: Event)
    requires Enabled(s, e) && (e.SendResume? || e.AckArrive? || e.AckResume? || e.RecvResume?)
    ensures Energy(Step(n, s, e).threads) < Energy(s.threads)
  {
    var p := Step(n, s, e).threads[e.t];
    assert Step(n, s, e).threads == s.threads[e.t := p];
    EnergyUpdate(s.threads, e.t, p);
  }

  lemma EnergyDrops(n: nat, s: State, e: Event)
    requires Internal(e) && Enabled(s, e)
    ensures Energy(Step(n, s, e).threads) < Energy(s.threads)
  {
    if e.NotifyRecv? || e.NotifyBegin? || e.NotifyEnd? {
      NotifyDrops(n, s, e);
    } else {
      ResumeDrops(n, s, e);
    }
  }

  /** Left alone, a channel settles: no schedule takes more than eight steps per thread. */
  lemma {:induction false} Settles(n: nat, s: State, es: seq<Event>)
    requires Runnable(n, s, es) && forall e :: e in es ==> Internal(e)
    ensures |es| + Energy(Exec(n, s, es).threads) <= Energy(s.threads) <= 8 * |s.threads|
    decreases |es|
  {
    EnergyBound(s.threads);
    if es != [] {
      EnergyDrops(n, s, es[0]);
      Settles(n, Step(n, s, es[0]), es[1..]);
    }
  }

  lemma {:induction false} ReachableStep(n: nat, s: State, es: seq<Event>)
    requires Reachable(n, s) && Runnable(n, s, es)
    ensures Reachable(n, Exec(n, s, es))
    decreases |es|
  {
    if es != [] {
      ReachableNext(n, s, es[0]);
      ReachableStep(n, Step(n, s, es[0]), es[1..]);
    }
  }

  /** Progress: from any reachable state every maximal schedule of internal steps ends, and
      where it ends there is never both a blocked receiver and a blocked sender. */
  lemma Progress(n: nat, s: State, es: seq<Event>)
    requires Reachable(n, s) && Runnable(n, s, es)
    requires forall e :: e in es ==> Internal(e)
    ensures |es| <= 8 * |s.threads|
    ensures var s' := Exec(n, s, es);
            (!exists e :: Internal(e) && Enabled(s', e)) ==>
              Count(s'.threads, RECV_BLOCKED) == 0
              || Count(s'.threads, BEGIN_BLOCKED) + Count(s'.threads, END_BLOCKED) == 0
  {
    Settles(n, s, es);
    var s' := Exec(n, s, es);
    ReachableStep(n, s, es);
    if !exists e :: Internal(e) && Enabled(s', e) {
      QuiescentIffStuck(s');
      NoDeadlock(n, s');
    }
  }
}
