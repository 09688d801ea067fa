/** Threads using one channel, as a transition system.

    A state holds the channel, a program counter for each of any number of threads, and
    the history of enqueued and dequeued items.  Each critical section is one step; each
    `notify_one` is a later step of its own; a blocked thread may also wake spuriously.
  */
module ChannelRuns {
  import opened Wrappers
  import opened ChannelCore

  datatype Pc =
    | Idle
    | SendWait(x: Item)       // blocked on m_send_begin_cv
    | SendWoken(x: Item)      // woken there, has not relocked the mutex
    | SendNotify(k: nat)      // enqueued the k-th item, m_recv_cv.notify_one() to come
    | AckEntry(k: nat)        // about to lock the mutex for the second section
    | AckWait(k: nat)         // blocked on m_send_end_cv
    | AckWoken(k: nat)
    | AckNotify(k: nat)       // acknowledged, m_send_begin_cv.notify_one() to come
    | RecvWait                // blocked on m_recv_cv
    | RecvWoken
    | RecvNotifyBegin         // dequeued, m_send_begin_cv.notify_one() to come
    | RecvNotifyEnd           // dequeued, m_send_end_cv.notify_one() to come
    | TryNotify               // try_send succeeded, m_recv_cv.notify_one() to come

  datatype Kind =
    | KIdle | KSendWait | KSendWoken | KSendNotify | KAckEntry | KAckWait | KAckWoken | KAckNotify
    | KRecvWait | KRecvWoken | KRecvNotifyBegin | KRecvNotifyEnd | KTryNotify

  function KindOf(p: Pc): Kind
  {
    match p
    case Idle => KIdle
    case SendWait(_) => KSendWait
    case SendWoken(_) => KSendWoken
    case SendNotify(_) => KSendNotify
    case AckEntry(_) => KAckEntry
    case AckWait(_) => KAckWait
    case AckWoken(_) => KAckWoken
    case AckNotify(_) => KAckNotify
    case RecvWait => KRecvWait
    case RecvWoken => KRecvWoken
    case RecvNotifyBegin => KRecvNotifyBegin
    case RecvNotifyEnd => KRecvNotifyEnd
    case TryNotify => KTryNotify
  }

  datatype State = State(chan: Chan, threads: seq<Pc>, sent: seq<Item>, received: seq<Item>)

  function Init(threads: nat): State
  {
    State(EmptyChan, seq(threads, _ => Idle), [], [])
  }

  /** Who acts, and for a notification whom it wakes. */
  datatype Event =
    | Send(t: nat, v: Payload)
    | SendResume(t: nat)
    | AckArrive(t: nat)
    | AckResume(t: nat)
    | Recv(t: nat)
    | RecvResume(t: nat)
    | TrySendCall(t: nat, v: Payload)
    | TryRecvCall(t: nat)
    | NotifyRecv(t: nat, w: Option<nat>)
    | NotifyBegin(t: nat, w: Option<nat>)
    | NotifyEnd(t: nat, w: Option<nat>)
    | Spurious(t: nat)

  /** `notify_one` wakes some thread blocked on the variable if there is one. */
  predicate Chooses(ts: seq<Pc>, w: Option<nat>, waiting: Kind)
  {
    match w
    case Some(i) => i < |ts| && KindOf(ts[i]) == waiting
    case None => forall i :: 0 <= i < |ts| ==> KindOf(ts[i]) != waiting
  }

  predicate Enabled(s: State, e: Event)
  {
    var ts := s.threads;
    e.t < |ts| &&
    match e
    case Send(t, _) => ts[t].Idle?
    case SendResume(t) => ts[t].SendWoken?
    case AckArrive(t) => ts[t].AckEntry?
    case AckResume(t) => ts[t].AckWoken?
    case Recv(t) => ts[t].Idle?
    case RecvResume(t) => ts[t].RecvWoken?
    case TrySendCall(t, _) => ts[t].Idle?
    case TryRecvCall(t) => ts[t].Idle?
    case NotifyRecv(t, w) => (ts[t].SendNotify? || ts[t].TryNotify?) && Chooses(ts, w, KRecvWait)
    case NotifyBegin(t, w) => (ts[t].AckNotify? || ts[t].RecvNotifyBegin?) && Chooses(ts, w, KSendWait)
    case NotifyEnd(t, w) => ts[t].RecvNotifyEnd? && Chooses(ts, w, KAckWait)
    case Spurious(t) => ts[t].SendWait? || ts[t].AckWait? || ts[t].RecvWait?
  }

  function Wake(p: Pc): Pc
  {
    match p
    case SendWait(x) => SendWoken(x)
    case AckWait(k) => AckWoken(k)
    case RecvWait => RecvWoken
    case _ => p
  }

  /** Thread `t` moves to `p`, then the chosen waiter (if any) is woken. */
  function Notify(ts: seq<Pc>, t: nat, p: Pc, w: Option<nat>): (r: seq<Pc>)
    requires t < |ts| && (w.Some? ==> w.value < |ts|)
    ensures |r| == |ts|
  {
    var moved := ts[t := p];
    if w.Some? then moved[w.value := Wake(moved[w.value])] else moved
  }

  function TryEnqueue(n: nat, s: State, t: nat, x: Item): State
    requires t < |s.threads|
  {
    if CanEnqueue(n, s.chan) then
      State(Enqueue(s.chan, x), s.threads[t := SendNotify(|s.sent| + 1)], s.sent + [x], s.received)
    else s.(threads := s.threads[t := SendWait(x)])
  }

  function TryAcknowledge(n: nat, s: State, t: nat, k: nat): State
    requires t < |s.threads|
  {
    if !IsFull(n, s.chan) then s.(chan := Acknowledge(s.chan), threads := s.threads[t := AckNotify(k)])
    else s.(threads := s.threads[t := AckWait(k)])
  }

  /** The condition variable a dequeue will notify. */
  function AfterPop(c: Chan): Pc { if c.sendDone then RecvNotifyBegin else RecvNotifyEnd }

  /** Where `m_recv_cv.notify_one()` leads: `_send` goes on to its second section. */
  function AfterNotifyRecv(p: Pc): Pc { if p.SendNotify? then AckEntry(p.k) else Idle }

  function TryPop(s: State, t: nat): State
    requires t < |s.threads|
  {
    if s.chan.queue != [] then
      State(PostBlockingRecv(s.chan), s.threads[t := AfterPop(s.chan)], s.sent,
            s.received + [s.chan.queue[0]])
    else s.(threads := s.threads[t := RecvWait])
  }

  function Step(n: nat, s: State, e: Event): State
    requires Enabled(s, e)
  {
    var ts := s.threads;
    match e
    case Send(t, v) => TryEnqueue(n, s, t, Item(t, v))
    case SendResume(t) => TryEnqueue(n, s, t, ts[t].x)
    case AckArrive(t) => TryAcknowledge(n, s, t, ts[t].k)
    case AckResume(t) => TryAcknowledge(n, s, t, ts[t].k)
    case Recv(t) => TryPop(s.(chan := PreBlockingRecv(s.chan)), t)
    case RecvResume(t) => TryPop(s, t)
    case TrySendCall(t, v) =>
      var x := Item(t, v);
      if TrySendRefused(n, s.chan) then s.(chan := TrySend(n, s.chan, x))
      else State(TrySend(n, s.chan, x), ts[t := TryNotify], s.sent + [x], s.received)
    case TryRecvCall(t) =>
      if s.chan.queue == [] then s.(chan := TryRecv(s.chan))
      else State(TryRecv(s.chan), ts[t := AfterPop(s.chan)], s.sent, s.received + [s.chan.queue[0]])
    case NotifyRecv(t, w) =>
      s.(threads := Notify(ts, t, AfterNotifyRecv(ts[t]), w))
    case NotifyBegin(t, w) => s.(threads := Notify(ts, t, Idle, w))
    case NotifyEnd(t, w) => s.(threads := Notify(ts, t, Idle, w))
    case Spurious(t) => s.(threads := ts[t := Wake(ts[t])])
  }

  /** `es` can happen in this order from `s`. */
  predicate Runnable(n: nat, s: State, es: seq<Event>)
    decreases |es|
  {
    es == [] || (Enabled(s, es[0]) && Runnable(n, Step(n, s, es[0]), es[1..]))
  }

  function Exec(n: nat, s: State, es: seq<Event>): State
    requires Runnable(n, s, es)
    decreases |es|
  {
    if es == [] then s else Exec(n, Step(n, s, es[0]), es[1..])
  }

  /** Number of threads whose program counter has one of the given kinds. */
  function Count(ts: seq<Pc>, ks: set<Kind>): nat
  {
    if ts == [] then 0 else (if KindOf(ts[0]) in ks then 1 else 0) + Count(ts[1..], ks)
  }

  const IN_FLIGHT := {KSendNotify, KAckEntry, KAckWait, KAckWoken}
  const RECEIVERS := {KRecvWait, KRecvWoken}
  const RECV_BLOCKED := {KRecvWait}
  const RECV_SERVED := {KSendNotify, KTryNotify, KRecvWoken}
  const BEGIN_BLOCKED := {KSendWait}
  const BEGIN_SERVED := {KAckNotify, KRecvNotifyBegin, KSendWoken}
  const END_BLOCKED := {KAckWait}
  const END_SERVED := {KRecvNotifyEnd, KAckWoken}

  /** Flags agree with the threads. */
  ghost predicate FlagsInv(n: nat, s: State)
  {
    && FlagsOk(n, s.chan)
    && Count(s.threads, IN_FLIGHT) == (if s.chan.sendDone then 0 else 1)
    && (!s.chan.trySendDone ==> Count(s.threads, RECEIVERS) >= 1)
    && (s.chan.recvReady ==> Count(s.threads, RECEIVERS) >= 1)
  }

  ghost predicate RecvOk(s: State)
  {
    Count(s.threads, RECV_BLOCKED) == 0 || |s.chan.queue| <= Count(s.threads, RECV_SERVED)
  }

  ghost predicate BeginOk(n: nat, s: State)
  {
    Count(s.threads, BEGIN_BLOCKED) > 0 && CanEnqueue(n, s.chan) ==> Count(s.threads, BEGIN_SERVED) >= 1
  }

  ghost predicate EndOk(n: nat, s: State)
  {
    Count(s.threads, END_BLOCKED) > 0 && !IsFull(n, s.chan) ==> Count(s.threads, END_SERVED) >= 1
  }

  /** Nobody sleeps through a condition that holds, on any of the three condition variables. */
  ghost predicate WakeupInv(n: nat, s: State) { RecvOk(s) && BeginOk(n, s) && EndOk(n, s) }

  /** What is known of the send operation of thread `t`. */
  predicate TicketOk(n: nat, s: State, t: nat)
    requires t < |s.threads|
  {
    match s.threads[t]
    case SendNotify(k) => k == |s.sent| && 1 <= k && s.sent[k - 1].sender == t
    case AckEntry(k) => k == |s.sent| && 1 <= k && s.sent[k - 1].sender == t
    case AckWait(k) => k == |s.sent| && 1 <= k && s.sent[k - 1].sender == t
    case AckWoken(k) => k == |s.sent| && 1 <= k && s.sent[k - 1].sender == t
    case AckNotify(k) => 1 <= k <= |s.sent| && s.sent[k - 1].sender == t && k <= |s.received| + n
    case SendWait(x) => x.sender == t
    case SendWoken(x) => x.sender == t
    case _ => true
  }

  ghost predicate HistoryInv(n: nat, s: State)
  {
    && s.sent == s.received + s.chan.queue
    && forall t :: 0 <= t < |s.threads| ==> TicketOk(n, s, t)
  }

  ghost predicate Inv(n: nat, s: State)
  {
    FlagsInv(n, s) && WakeupInv(n, s) && HistoryInv(n, s)
  }

  lemma {:induction false} CountUpdate(ts: seq<Pc>, i: nat, p: Pc, ks: set<Kind>)
    requires i < |ts|
    ensures Count(ts[i := p], ks) ==
            Count(ts, ks) - (if KindOf(ts[i]) in ks then 1 else 0) + (if KindOf(p) in ks then 1 else 0)
  {
    if i == 0 {
      assert ts[i := p][1..] == ts[1..];
    } else {
      assert ts[i := p][1..] == ts[1..][i - 1 := p];
      CountUpdate(ts[1..], i - 1, p, ks);
    }
  }

  lemma {:induction false} CountPositive(ts: seq<Pc>, i: nat, ks: set<Kind>)
    requires i < |ts| && KindOf(ts[i]) in ks
    ensures Count(ts, ks) >= 1
  {
    if i > 0 {
      CountPositive(ts[1..], i - 1, ks);
    }
  }

  lemma {:induction false} CountZero(ts: seq<Pc>, ks: set<Kind>)
    requires forall i :: 0 <= i < |ts| ==> KindOf(ts[i]) !in ks
    ensures Count(ts, ks) == 0
  {
    if ts != [] {
      CountZero(ts[1..], ks);
    }
  }

  lemma {:induction false} CountWitness(ts: seq<Pc>, ks: set<Kind>) returns (i: nat)
    requires Count(ts, ks) >= 1
    ensures i < |ts| && KindOf(ts[i]) in ks
  {
    if KindOf(ts[0]) in ks {
      i := 0;
    } else {
      var j := CountWitness(ts[1..], ks);
      i := j + 1;
    }
  }

  function One(p: Pc, ks: set<Kind>): nat { if KindOf(p) in ks then 1 else 0 }

  predicate Counted(ts: seq<Pc>, i: nat, p: Pc, ks: set<Kind>)
    requires i < |ts|
  {
    Count(ts[i := p], ks) == Count(ts, ks) - One(ts[i], ks) + One(p, ks)
  }

  /** `CountUpdate` for the sets the flags speak of. */
  lemma FlagCounts(ts: seq<Pc>, i: nat, p: Pc)
    requires i < |ts|
    ensures Counted(ts, i, p, IN_FLIGHT) && Counted(ts, i, p, RECEIVERS)
  {
    CountUpdate(ts, i, p, IN_FLIGHT);
    CountUpdate(ts, i, p, RECEIVERS);
  }

  /** And for those of the condition variables. */
  lemma WakeupCounts(ts: seq<Pc>, i: nat, p: Pc)
    requires i < |ts|
    ensures Counted(ts, i, p, RECV_BLOCKED) && Counted(ts, i, p, RECV_SERVED)
    ensures Counted(ts, i, p, BEGIN_BLOCKED) && Counted(ts, i, p, BEGIN_SERVED)
    ensures Counted(ts, i, p, END_BLOCKED) && Counted(ts, i, p, END_SERVED)
  {
    RecvCounts(ts, i, p);
    BeginCounts(ts, i, p);
    EndCounts(ts, i, p);
  }

  lemma RecvCounts(ts: seq<Pc>, i: nat, p: Pc)
    requires i < |ts|
    ensures Counted(ts, i, p, RECV_BLOCKED) && Counted(ts, i, p, RECV_SERVED)
  {
    CountUpdate(ts, i, p, RECV_BLOCKED);
    CountUpdate(ts, i, p, RECV_SERVED);
  }

  lemma BeginCounts(ts: seq<Pc>, i: nat, p: Pc)
    requires i < |ts|
    ensures Counted(ts, i, p, BEGIN_BLOCKED) && Counted(ts, i, p, BEGIN_SERVED)
  {
    CountUpdate(ts, i, p, BEGIN_BLOCKED);
    CountUpdate(ts, i, p, BEGIN_SERVED);
  }

  lemma EndCounts(ts: seq<Pc>, i: nat, p: Pc)
    requires i < |ts|
    ensures Counted(ts, i, p, END_BLOCKED) && Counted(ts, i, p, END_SERVED)
  {
    CountUpdate(ts, i, p, END_BLOCKED);
    CountUpdate(ts, i, p, END_SERVED);
  }

  predicate NotifyCounted(ts: seq<Pc>, t: nat, p: Pc, w: Option<nat>, ks: set<Kind>)
    requires t < |ts| && (w.Some? ==> w.value < |ts|)
  {
    Count(Notify(ts, t, p, w), ks) ==
    Count(ts, ks) - One(ts[t], ks) + One(p, ks)
    + (if w.Some? then One(Wake(ts[w.value]), ks) - One(ts[w.value], ks) else 0)
  }

  lemma NotifyCount(ts: seq<Pc>, t: nat, p: Pc, w: Option<nat>, ks: set<Kind>)
    requires t < |ts| && (w.Some? ==> w.value < |ts| && w.value != t)
    ensures NotifyCounted(ts, t, p, w, ks)
  {
    CountUpdate(ts, t, p, ks);
    if w.Some? {
      CountUpdate(ts[t := p], w.value, Wake(ts[w.value]), ks);
    }
  }

  lemma NotifyFlagCounts(ts: seq<Pc>, t: nat, p: Pc, w: Option<nat>)
    requires t < |ts| && (w.Some? ==> w.value < |ts| && w.value != t)
    ensures NotifyCounted(ts, t, p, w, IN_FLIGHT) && NotifyCounted(ts, t, p, w, RECEIVERS)
  {
    NotifyCount(ts, t, p, w, IN_FLIGHT);
    NotifyCount(ts, t, p, w, RECEIVERS);
  }

  /** Neither the notifying thread nor the one woken matters for the counts of `ks`. */
  predicate Apart(ts: seq<Pc>, t: nat, p: Pc, w: Option<nat>, ks: set<Kind>)
    requires t < |ts| && (w.Some? ==> w.value < |ts|)
  {
    && KindOf(ts[t]) !in ks && KindOf(p) !in ks
    && (w.Some? ==> KindOf(ts[w.value]) !in ks && KindOf(Wake(ts[w.value])) !in ks)
  }

  /** A notification of one condition variable does not concern the threads at the others. */
  lemma NotifyKeepsRecv(s: State, t: nat, p: Pc, w: Option<nat>)
    requires RecvOk(s) && t < |s.threads| && (w.Some? ==> w.value < |s.threads| && w.value != t)
    requires Apart(s.threads, t, p, w, RECV_BLOCKED) && Apart(s.threads, t, p, w, RECV_SERVED)
    ensures RecvOk(s.(threads := Notify(s.threads, t, p, w)))
  {
    NotifyCount(s.threads, t, p, w, RECV_BLOCKED);
    NotifyCount(s.threads, t, p, w, RECV_SERVED);
  }

  lemma NotifyKeepsBegin(n: nat, s: State, t: nat, p: Pc, w: Option<nat>)
    requires BeginOk(n, s) && t < |s.threads| && (w.Some? ==> w.value < |s.threads| && w.value != t)
    requires Apart(s.threads, t, p, w, BEGIN_BLOCKED) && Apart(s.threads, t, p, w, BEGIN_SERVED)
    ensures BeginOk(n, s.(threads := Notify(s.threads, t, p, w)))
  {
    NotifyCount(s.threads, t, p, w, BEGIN_BLOCKED);
    NotifyCount(s.threads, t, p, w, BEGIN_SERVED);
  }

  lemma NotifyKeepsEnd(n: nat, s: State, t: nat, p: Pc, w: Option<nat>)
    requires EndOk(n, s) && t < |s.threads| && (w.Some? ==> w.value < |s.threads| && w.value != t)
    requires Apart(s.threads, t, p, w, END_BLOCKED) && Apart(s.threads, t, p, w, END_SERVED)
    ensures EndOk(n, s.(threads := Notify(s.threads, t, p, w)))
  {
    NotifyCount(s.threads, t, p, w, END_BLOCKED);
    NotifyCount(s.threads, t, p, w, END_SERVED);
  }

  /** A notification that finds nobody finds a count of zero. */
  lemma NobodyFound(ts: seq<Pc>, t: nat, p: Pc, waiting: Kind)
    requires t < |ts| && Chooses(ts, None, waiting) && KindOf(p) != waiting
    ensures Count(Notify(ts, t, p, None), {waiting}) == 0
  {
    CountZero(ts[t := p], {waiting});
  }

  lemma InitInv(n: nat, threads: nat)
    ensures Inv(n, Init(threads))
  {
    var ts := Init(threads).threads;
    CountZero(ts, IN_FLIGHT);
    CountZero(ts, RECV_BLOCKED);
    CountZero(ts, BEGIN_BLOCKED);
    CountZero(ts, END_BLOCKED);
  }

  lemma {:induction false} CountSubset(ts: seq<Pc>, ks: set<Kind>, ks': set<Kind>)
    requires ks <= ks'
    ensures Count(ts, ks) <= Count(ts, ks')
  {
    if ts != [] {
      CountSubset(ts[1..], ks, ks');
    }
  }

  lemma NobodyIn(ts: seq<Pc>, ks: set<Kind>)
    requires Count(ts, ks) == 0
    ensures forall i :: 0 <= i < |ts| ==> KindOf(ts[i]) !in ks
  {
    forall i | 0 <= i < |ts| && KindOf(ts[i]) in ks
      ensures false
    {
      CountPositive(ts, i, ks);
    }
  }

  /** Appending to the history keeps every ticket while no send is in flight. */
  lemma TicketsGrow(n: nat, s: State, s': State, t: nat)
    requires HistoryInv(n, s) && t < |s.threads| && Count(s.threads, IN_FLIGHT) == 0
    requires |s'.threads| == |s.threads| && s.sent <= s'.sent && |s.received| <= |s'.received|
    requires forall i :: 0 <= i < |s.threads| && i != t ==> s'.threads[i] == s.threads[i]
    ensures forall i :: 0 <= i < |s.threads| && i != t ==> TicketOk(n, s', i)
  {
    NobodyIn(s.threads, IN_FLIGHT);
    forall i | 0 <= i < |s.threads| && i != t
      ensures TicketOk(n, s', i)
    {
      assert TicketOk(n, s, i);
    }
  }

  /** So does dequeuing or a flag change, in flight or not. */
  lemma TicketsStay(n: nat, s: State, s': State, t: nat)
    requires HistoryInv(n, s)
    requires |s'.threads| == |s.threads| && s.sent == s'.sent && |s.received| <= |s'.received|
    requires forall i :: 0 <= i < |s.threads| && i != t ==> s'.threads[i] == s.threads[i]
    ensures forall i :: 0 <= i < |s.threads| && i != t ==> TicketOk(n, s', i)
  {
    forall i | 0 <= i < |s.threads| && i != t
      ensures TicketOk(n, s', i)
    {
      assert TicketOk(n, s, i);
    }
  }

  lemma SendStep(n: nat, s: State, t: nat, x: Item)
    requires Inv(n, s) && t < |s.threads| && x.sender == t
    requires s.threads[t].Idle? || s.threads[t] == SendWoken(x)
    ensures Inv(n, TryEnqueue(n, s, t, x))
  {
    var s' := TryEnqueue(n, s, t, x);
    FlagCounts(s.threads, t, s'.threads[t]);
    WakeupCounts(s.threads, t, s'.threads[t]);
    if CanEnqueue(n, s.chan) {
      TicketsGrow(n, s, s', t);
    } else {
      TicketsStay(n, s, s', t);
    }
  }

  lemma AckStep(n: nat, s: State, t: nat, k: nat)
    requires Inv(n, s) && t < |s.threads|
    requires s.threads[t] == AckEntry(k) || s.threads[t] == AckWoken(k)
    ensures Inv(n, TryAcknowledge(n, s, t, k))
  {
    var s' := TryAcknowledge(n, s, t, k);
    CountPositive(s.threads, t, IN_FLIGHT);
    assert TicketOk(n, s, t);
    TicketsStay(n, s, s', t);
    if !IsFull(n, s.chan) {
      FlagCounts(s.threads, t, AckNotify(k));
      WakeupCounts(s.threads, t, AckNotify(k));
      CountSubset(s'.threads, END_BLOCKED, IN_FLIGHT);
      CountPositive(s'.threads, t, BEGIN_SERVED);
    } else {
      FlagCounts(s.threads, t, AckWait(k));
      WakeupCounts(s.threads, t, AckWait(k));
    }
  }

  /** `s` as a blocking receiver finds it when it is about to test the queue: `recv` first does
      `_pre_blocking_recv`, a woken receiver has done so before. */
  function AboutToPop(s: State, t: nat): State
    requires t < |s.threads|
  {
    if s.threads[t].Idle? then s.(chan := PreBlockingRecv(s.chan)) else s
  }

  lemma PopFlags(n: nat, s: State, t: nat)
    requires Inv(n, s) && t < |s.threads|
    requires s.threads[t].Idle? || s.threads[t].RecvWoken?
    ensures FlagsInv(n, TryPop(AboutToPop(s, t), t))
  {
    var s' := TryPop(AboutToPop(s, t), t);
    FlagCounts(s.threads, t, s'.threads[t]);
    if s.chan.queue == [] {
      CountPositive(s'.threads, t, RECEIVERS);
    }
  }

  lemma PopRecv(n: nat, s: State, t: nat)
    requires Inv(n, s) && t < |s.threads|
    requires s.threads[t].Idle? || s.threads[t].RecvWoken?
    ensures RecvOk(TryPop(AboutToPop(s, t), t))
  {
    RecvCounts(s.threads, t, TryPop(AboutToPop(s, t), t).threads[t]);
  }

  lemma PopBegin(n: nat, s: State, t: nat)
    requires Inv(n, s) && t < |s.threads|
    requires s.threads[t].Idle? || s.threads[t].RecvWoken?
    ensures BeginOk(n, TryPop(AboutToPop(s, t), t))
  {
    var s' := TryPop(AboutToPop(s, t), t);
    BeginCounts(s.threads, t, s'.threads[t]);
    if s.chan.queue != [] && s.chan.sendDone {
      CountPositive(s'.threads, t, BEGIN_SERVED);
    }
  }

  lemma PopEnd(n: nat, s: State, t: nat)
    requires Inv(n, s) && t < |s.threads|
    requires s.threads[t].Idle? || s.threads[t].RecvWoken?
    ensures EndOk(n, TryPop(AboutToPop(s, t), t))
  {
    var s' := TryPop(AboutToPop(s, t), t);
    EndCounts(s.threads, t, s'.threads[t]);
    if s.chan.queue != [] {
      if s.chan.sendDone {
        FlagCounts(s.threads, t, s'.threads[t]);
        CountSubset(s'.threads, END_BLOCKED, IN_FLIGHT);
      } else {
        CountPositive(s'.threads, t, END_SERVED);
      }
    }
  }

  lemma PopStep(n: nat, s: State, t: nat)
    requires Inv(n, s) && t < |s.threads|
    requires s.threads[t].Idle? || s.threads[t].RecvWoken?
    ensures Inv(n, TryPop(AboutToPop(s, t), t))
  {
    TicketsStay(n, s, TryPop(AboutToPop(s, t), t), t);
    PopFlags(n, s, t);
    PopRecv(n, s, t);
    PopBegin(n, s, t);
    PopEnd(n, s, t);
  }

  lemma TrySendStep(n: nat, s: State, t: nat, v: Payload)
    requires Inv(n, s) && Enabled(s, TrySendCall(t, v))
    ensures Inv(n, Step(n, s, TrySendCall(t, v)))
  {
    var s' := Step(n, s, TrySendCall(t, v));
    if TrySendRefused(n, s.chan) {
      TicketsStay(n, s, s', t);
    } else {
      FlagCounts(s.threads, t, TryNotify);
      WakeupCounts(s.threads, t, TryNotify);
      TicketsGrow(n, s, s', t);
    }
  }

  lemma TryRecvFlags(n: nat, s: State, t: nat)
    requires Inv(n, s) && Enabled(s, TryRecvCall(t))
    ensures FlagsInv(n, Step(n, s, TryRecvCall(t)))
  {
    FlagCounts(s.threads, t, Step(n, s, TryRecvCall(t)).threads[t]);
  }

  lemma TryRecvWakeups(n: nat, s: State, t: nat)
    requires Inv(n, s) && Enabled(s, TryRecvCall(t))
    ensures WakeupInv(n, Step(n, s, TryRecvCall(t)))
  {
    var s' := Step(n, s, TryRecvCall(t));
    WakeupCounts(s.threads, t, s'.threads[t]);
    if s.chan.queue != [] {
      CountPositive(s'.threads, t, if s.chan.sendDone then BEGIN_SERVED else END_SERVED);
      if s.chan.sendDone {
        FlagCounts(s.threads, t, s'.threads[t]);
        CountSubset(s'.threads, END_BLOCKED, IN_FLIGHT);
      }
    }
  }

  lemma TryRecvStep(n: nat, s: State, t: nat)
    requires Inv(n, s) && Enabled(s, TryRecvCall(t))
    ensures Inv(n, Step(n, s, TryRecvCall(t)))
  {
    TicketsStay(n, s, Step(n, s, TryRecvCall(t)), t);
    TryRecvFlags(n, s, t);
    TryRecvWakeups(n, s, t);
  }

  /** A notification moves nobody's ticket. */
  lemma NotifyTickets(n: nat, s: State, t: nat, p: Pc, w: Option<nat>)
    requires HistoryInv(n, s) && t < |s.threads| && (w.Some? ==> w.value < |s.threads| && w.value != t)
    requires p.Idle? || (s.threads[t].SendNotify? && p == AckEntry(s.threads[t].k))
    ensures HistoryInv(n, s.(threads := Notify(s.threads, t, p, w)))
  {
    var s' := s.(threads := Notify(s.threads, t, p, w));
    forall i | 0 <= i < |s.threads|
      ensures TicketOk(n, s', i)
    {
      assert TicketOk(n, s, i);
    }
  }

  lemma NotifyRecvFlags(n: nat, s: State, t: nat, w: Option<nat>)
    requires Inv(n, s) && Enabled(s, NotifyRecv(t, w))
    ensures FlagsInv(n, Step(n, s, NotifyRecv(t, w)))
  {
    NotifyFlagCounts(s.threads, t, AfterNotifyRecv(s.threads[t]), w);
    if w.Some? {
      assert s.threads[w.value] == RecvWait;
    }
  }

  lemma NotifyRecvWakeups(n: nat, s: State, t: nat, w: Option<nat>)
    requires Inv(n, s) && Enabled(s, NotifyRecv(t, w))
    ensures WakeupInv(n, Step(n, s, NotifyRecv(t, w)))
  {
    var p := AfterNotifyRecv(s.threads[t]);
    NotifyKeepsBegin(n, s, t, p, w);
    NotifyKeepsEnd(n, s, t, p, w);
    NotifyCount(s.threads, t, p, w, RECV_BLOCKED);
    NotifyCount(s.threads, t, p, w, RECV_SERVED);
    if w.None? {
      NobodyFound(s.threads, t, p, KRecvWait);
    }
  }

  lemma NotifyRecvStep(n: nat, s: State, t: nat, w: Option<nat>)
    requires Inv(n, s) && Enabled(s, NotifyRecv(t, w))
    ensures Inv(n, Step(n, s, NotifyRecv(t, w)))
  {
    NotifyTickets(n, s, t, AfterNotifyRecv(s.threads[t]), w);
    NotifyRecvFlags(n, s, t, w);
    NotifyRecvWakeups(n, s, t, w);
  }

  lemma NotifyBeginWakeups(n: nat, s: State, t: nat, w: Option<nat>)
    requires Inv(n, s) && Enabled(s, NotifyBegin(t, w))
    ensures WakeupInv(n, Step(n, s, NotifyBegin(t, w)))
  {
    NotifyKeepsRecv(s, t, Idle, w);
    NotifyKeepsEnd(n, s, t, Idle, w);
    if w.Some? {
      CountPositive(Notify(s.threads, t, Idle, w), w.value, BEGIN_SERVED);
    } else {
      NobodyFound(s.threads, t, Idle, KSendWait);
    }
  }

  lemma NotifyBeginStep(n: nat, s: State, t: nat, w: Option<nat>)
    requires Inv(n, s) && Enabled(s, NotifyBegin(t, w))
    ensures Inv(n, Step(n, s, NotifyBegin(t, w)))
  {
    NotifyFlagCounts(s.threads, t, Idle, w);
    NotifyBeginWakeups(n, s, t, w);
    NotifyTickets(n, s, t, Idle, w);
  }

  lemma NotifyEndWakeups(n: nat, s: State, t: nat, w: Option<nat>)
    requires Inv(n, s) && Enabled(s, NotifyEnd(t, w))
    ensures WakeupInv(n, Step(n, s, NotifyEnd(t, w)))
  {
    NotifyKeepsRecv(s, t, Idle, w);
    NotifyKeepsBegin(n, s, t, Idle, w);
    if w.Some? {
      CountPositive(Notify(s.threads, t, Idle, w), w.value, END_SERVED);
    } else {
      NobodyFound(s.threads, t, Idle, KAckWait);
    }
  }

  lemma NotifyEndStep(n: nat, s: State, t: nat, w: Option<nat>)
    requires Inv(n, s) && Enabled(s, NotifyEnd(t, w))
    ensures Inv(n, Step(n, s, NotifyEnd(t, w)))
  {
    NotifyFlagCounts(s.threads, t, Idle, w);
    NotifyEndWakeups(n, s, t, w);
    NotifyTickets(n, s, t, Idle, w);
  }

  lemma SpuriousStep(n: nat, s: State, t: nat)
    requires Inv(n, s) && Enabled(s, Spurious(t))
    ensures Inv(n, Step(n, s, Spurious(t)))
  {
    var s' := Step(n, s, Spurious(t));
    FlagCounts(s.threads, t, Wake(s.threads[t]));
    WakeupCounts(s.threads, t, Wake(s.threads[t]));
    assert TicketOk(n, s, t);
    TicketsStay(n, s, s', t);
  }

  lemma StepInv(n: nat, s: State, e: Event)
    requires Inv(n, s) && Enabled(s, e)
    ensures Inv(n, Step(n, s, e))
  {
    assert TicketOk(n, s, e.t);
    match e
    case Send(t, v) => SendStep(n, s, t, Item(t, v));
    case SendResume(t) => SendStep(n, s, t, s.threads[t].x);
    case AckArrive(t) => AckStep(n, s, t, s.threads[t].k);
    case AckResume(t) => AckStep(n, s, t, s.threads[t].k);
    case Recv(t) => PopStep(n, s, t);
    case RecvResume(t) => PopStep(n, s, t);
    case TrySendCall(t, v) => TrySendStep(n, s, t, v);
    case TryRecvCall(t) => TryRecvStep(n, s, t);
    case NotifyRecv(t, w) => NotifyRecvStep(n, s, t, w);
    case NotifyBegin(t, w) => NotifyBeginStep(n, s, t, w);
    case NotifyEnd(t, w) => NotifyEndStep(n, s, t, w);
    case Spurious(t) => SpuriousStep(n, s, t);
  }

  lemma {:induction false} RunInv(n: nat, s: State, es: seq<Event>)
    requires Inv(n, s) && Runnable(n, s, es)
    ensures Inv(n, Exec(n, s, es))
    decreases |es|
  {
    if es != [] {
      StepInv(n, s, es[0]);
      RunInv(n, Step(n, s, es[0]), es[1..]);
    }
  }

  /** Every state some run reaches from a fresh channel and idle threads. */
  ghost predicate Reachable(n: nat, s: State)
  {
    exists threads: nat, es: seq<Event> ::
      Runnable(n, Init(threads), es) && Exec(n, Init(threads), es) == s
  }

  /** The flag, wakeup and history invariants hold in every reachable state. */
  lemma ReachableInv(n: nat, s: State)
    requires Reachable(n, s)
    ensures Inv(n, s)
  {
    var threads: nat, es: seq<Event> :|
      Runnable(n, Init(threads), es) && Exec(n, Init(threads), es) == s;
    InitInv(n, threads);
    RunInv(n, Init(threads), es);
  }
}
