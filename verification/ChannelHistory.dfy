/** What a run of the channel delivers, in terms of the calls that were made. */
module ChannelHistory {
  import opened ChannelCore
  import opened ChannelRuns

  // ------------------------------------------------------- the values that are sent

  /** The values of thread `t` in a history, in order. */
  function Values(xs: seq<Item>, t: nat): seq<Payload>
  {
    if xs == [] then [] else Values(xs[..|xs| - 1], t) + (if xs[|xs| - 1].sender == t then [xs[|xs| - 1].value] else [])
  }

  /** The call `try_send` of this event is going to return true. */
  predicate Accepted(n: nat, s: State, e: Event)
    requires Enabled(s, e)
  {
    e.TrySendCall? && Step(n, s, e).threads[e.t].TryNotify?
  }

  /** The argument of the event, if it is a `send` or an accepted `try_send` of thread `t`. */
  function Argument(n: nat, s: State, e: Event, t: nat): seq<Payload>
    requires Enabled(s, e)
  {
    if e.t == t && e.Send? then [e.v]
    else if e.t == t && e.TrySendCall? && Accepted(n, s, e) then [e.v]
    else []
  }

  /** The arguments thread `t` passed during a run, in order. */
  function Arguments(n: nat, s: State, es: seq<Event>, t: nat): seq<Payload>
    requires Runnable(n, s, es)
    decreases |es|
  {
    if es == [] then [] else Argument(n, s, es[0], t) + Arguments(n, Step(n, s, es[0]), es[1..], t)
  }

  /** The value a blocked or woken sender is still waiting to enqueue. */
  function Pending(p: Pc): seq<Payload>
  {
    match p
    case SendWait(x) => [x.value]
    case SendWoken(x) => [x.value]
    case _ => []
  }

  function Delivered(s: State, t: nat): seq<Payload>
    requires t < |s.threads|
  {
    Values(s.sent, t) + Pending(s.threads[t])
  }

  lemma ValuesSnoc(xs: seq<Item>, x: Item, t: nat)
    ensures Values(xs + [x], t) == Values(xs, t) + (if x.sender == t then [x.value] else [])
  {
    assert (xs + [x])[..|xs|] == xs;
  }

  lemma {:induction false} ValuesAppend(xs: seq<Item>, ys: seq<Item>, t: nat)
    ensures Values(xs + ys, t) == Values(xs, t) + Values(ys, t)
  {
    if ys == [] {
      assert xs + ys == xs;
    } else {
      var n := |ys| - 1;
      assert xs + ys == (xs + ys[..n]) + [ys[n]];
      ValuesSnoc(xs + ys[..n], ys[n], t);
      ValuesAppend(xs, ys[..n], t);
    }
  }

  /** Testing the queue moves the item from the sender to the history or keeps it pending. */
  lemma EnqueueDelivers(n: nat, s: State, i: nat, x: Item, t: nat)
    requires i < |s.threads| && t < |s.threads| && x.sender == i
    ensures Delivered(TryEnqueue(n, s, i, x), t) ==
            if i == t then Values(s.sent, t) + [x.value] else Delivered(s, t)
  {
    ValuesSnoc(s.sent, x, t);
  }

  lemma SendDelivers(n: nat, s: State, e: Event, t: nat)
    requires HistoryInv(n, s) && Enabled(s, e) && t < |s.threads| && (e.Send? || e.SendResume?)
    ensures Delivered(Step(n, s, e), t) == Delivered(s, t) + Argument(n, s, e, t)
  {
    assert TicketOk(n, s, e.t);
    EnqueueDelivers(n, s, e.t, if e.Send? then Item(e.t, e.v) else s.threads[e.t].x, t);
  }

  lemma TrySendDelivers(n: nat, s: State, e: Event, t: nat)
    requires Enabled(s, e) && t < |s.threads| && e.TrySendCall?
    ensures Delivered(Step(n, s, e), t) == Delivered(s, t) + Argument(n, s, e, t)
  {
    var s' := Step(n, s, e);
    ValuesSnoc(s.sent, Item(e.t, e.v), t);
    if TrySendRefused(n, s.chan) {
      assert s'.sent == s.sent && s'.threads == s.threads;
    } else {
      assert s'.sent == s.sent + [Item(e.t, e.v)] && s'.threads[e.t] == TryNotify;
      assert e.t == t ==> Pending(s.threads[t]) == [] == Pending(s'.threads[t]);
    }
  }

  /** Waking a thread does not touch what it wants to send. */
  lemma OthersKeep(n: nat, s: State, e: Event, t: nat)
    requires Enabled(s, e) && t < |s.threads| && !e.Send? && !e.SendResume? && !e.TrySendCall?
    ensures Step(n, s, e).sent == s.sent && Pending(Step(n, s, e).threads[t]) == Pending(s.threads[t])
    ensures Argument(n, s, e, t) == []
  {
  }

  lemma StepDelivers(n: nat, s: State, e: Event, t: nat)
    requires HistoryInv(n, s) && Enabled(s, e) && t < |s.threads|
    ensures Delivered(Step(n, s, e), t) == Delivered(s, t) + Argument(n, s, e, t)
  {
    if e.Send? || e.SendResume? {
      SendDelivers(n, s, e, t);
    } else if e.TrySendCall? {
      TrySendDelivers(n, s, e, t);
    } else {
      OthersKeep(n, s, e, t);
    }
  }

  lemma Regroup(a: seq<Payload>, b: seq<Payload>, c: seq<Payload>)
    ensures (a + b) + c == a + (b + c)
  {
  }

  lemma SameThreads(n: nat, s: State, e: Event)
    requires Enabled(s, e)
    ensures |Step(n, s, e).threads| == |s.threads|
  {
  }

  lemma {:induction false} RunDelivers(n: nat, s: State, es: seq<Event>, t: nat)
    requires Inv(n, s) && Runnable(n, s, es) && t < |s.threads|
    ensures |Exec(n, s, es).threads| == |s.threads|
    ensures Delivered(Exec(n, s, es), t) == Delivered(s, t) + Arguments(n, s, es, t)
    decreases |es|
  {
    if es != [] {
      var s1 := Step(n, s, es[0]);
      StepInv(n, s, es[0]);
      SameThreads(n, s, es[0]);
      StepDelivers(n, s, es[0], t);
      RunDelivers(n, s1, es[1..], t);
      Regroup(Delivered(s, t), Argument(n, s, es[0], t), Arguments(n, s1, es[1..], t));
    }
  }

  /** In every run the values enqueued for a thread, followed by the one it is still waiting to enqueue,
      are the arguments of its `send` calls and accepted `try_send` calls, in order. */
  lemma SentExactly(n: nat, threads: nat, es: seq<Event>, t: nat)
    requires Runnable(n, Init(threads), es) && t < threads
    ensures var s := Exec(n, Init(threads), es);
            t < |s.threads| && Values(s.sent, t) + Pending(s.threads[t]) == Arguments(n, Init(threads), es, t)
  {
    InitInv(n, threads);
    RunDelivers(n, Init(threads), es, t);
  }

  /** The values received from a thread are a prefix of its arguments: none is lost, altered, repeated or
      overtaken; those still to come are in the queue or pending. */
  lemma ReceivedInOrder(n: nat, threads: nat, es: seq<Event>, t: nat)
    requires Runnable(n, Init(threads), es) && t < threads
    ensures var s := Exec(n, Init(threads), es);
            t < |s.threads| && Arguments(n, Init(threads), es, t)
                               == Values(s.received, t) + Values(s.chan.queue, t) + Pending(s.threads[t])
  {
    SentExactly(n, threads, es, t);
    InitInv(n, threads);
    RunInv(n, Init(threads), es);
    var s := Exec(n, Init(threads), es);
    ValuesAppend(s.received, s.chan.queue, t);
  }

  /** Nothing else is ever enqueued. */
  lemma {:induction false} OnlyThreadsSend(n: nat, threads: nat, es: seq<Event>)
    requires Runnable(n, Init(threads), es)
    ensures forall x :: x in Exec(n, Init(threads), es).sent ==> x.sender < threads
  {
    InitInv(n, threads);
    SendersKnown(n, Init(threads), es);
  }

  lemma {:induction false} SendersKnown(n: nat, s: State, es: seq<Event>)
    requires Inv(n, s) && Runnable(n, s, es) && forall x :: x in s.sent ==> x.sender < |s.threads|
    ensures forall x :: x in Exec(n, s, es).sent ==> x.sender < |s.threads|
    decreases |es|
  {
    if es != [] {
      StepInv(n, s, es[0]);
      if es[0].SendResume? {
        assert TicketOk(n, s, es[0].t);
      }
      SendersKnown(n, Step(n, s, es[0]), es[1..]);
    }
  }

  // --------------------------------------------------- when an operation goes through

  /** `try_send` succeeds exactly if no blocking send is between its two sections and there is room, or
      exactly the last slot is left and a receiver has announced itself. */
  lemma TrySendExact(n: nat, s: State, t: nat, v: Payload)
    requires Reachable(n, s) && Enabled(s, TrySendCall(t, v))
    ensures Accepted(n, s, TrySendCall(t, v)) <==>
              Count(s.threads, IN_FLIGHT) == 0 && (|s.chan.queue| < n || (|s.chan.queue| == n && s.chan.recvReady))
    ensures Accepted(n, s, TrySendCall(t, v)) ==> Step(n, s, TrySendCall(t, v)).sent == s.sent + [Item(t, v)]
  {
    ReachableInv(n, s);
  }

  predicate Dequeues(e: Event) { e.Recv? || e.RecvResume? || e.TryRecvCall? }

  /** An attempt to receive takes the front element exactly if there is one. */
  lemma DequeueExact(n: nat, s: State, e: Event)
    requires Enabled(s, e) && Dequeues(e)
    ensures var s' := Step(n, s, e);
            if s.chan.queue == [] then s'.received == s.received && s'.chan.queue == []
            else s'.received == s.received + [s.chan.queue[0]] && s'.chan.queue == s.chan.queue[1..]
  {
  }

  // ------------------------------------------------------------- what the flags record

  predicate Took(n: nat, s: State, e: Event)
    requires Enabled(s, e)
  {
    |Step(n, s, e).received| > |s.received|
  }

  /** Since the last element was taken, or `start` if none was, there has been a `try_recv`. */
  predicate TriedRecv(n: nat, s: State, es: seq<Event>, start: bool)
    requires Runnable(n, s, es)
    decreases |es|
  {
    if es == [] then start
    else TriedRecv(n, Step(n, s, es[0]), es[1..], !Took(n, s, es[0]) && (es[0].TryRecvCall? || start))
  }

  /** The same for `try_send`. */
  predicate TriedSend(n: nat, s: State, es: seq<Event>, start: bool)
    requires Runnable(n, s, es)
    decreases |es|
  {
    if es == [] then start
    else TriedSend(n, Step(n, s, es[0]), es[1..], !Took(n, s, es[0]) && (es[0].TrySendCall? || start))
  }

  /** Since a blocking receiver last took an element, one has arrived. */
  predicate Announced(n: nat, s: State, es: seq<Event>, start: bool)
    requires Runnable(n, s, es)
    decreases |es|
  {
    if es == [] then start
    else
      var took := Took(n, s, es[0]) && !es[0].TryRecvCall?;
      Announced(n, Step(n, s, es[0]), es[1..], !took && (es[0].Recv? || start))
  }

  lemma {:induction false} FlagsRecord(n: nat, s: State, es: seq<Event>)
    requires Runnable(n, s, es)
    ensures var c := Exec(n, s, es).chan;
            && c.tryRecvReady == TriedRecv(n, s, es, s.chan.tryRecvReady)
            && c.trySendReady == TriedSend(n, s, es, s.chan.trySendReady)
            && c.recvReady == Announced(n, s, es, s.chan.recvReady)
    decreases |es|
  {
    if es != [] {
      FlagsRecord(n, Step(n, s, es[0]), es[1..]);
    }
  }

  /** The three flags that record what receivers and try operations did, for every run. */
  lemma FlagsRecordRun(n: nat, threads: nat, es: seq<Event>)
    requires Runnable(n, Init(threads), es)
    ensures var s := Init(threads);
            var c := Exec(n, s, es).chan;
            && (c.tryRecvReady <==> TriedRecv(n, s, es, false)) && (c.trySendReady <==> TriedSend(n, s, es, false))
            && (c.recvReady <==> Announced(n, s, es, false))
  {
    FlagsRecord(n, Init(threads), es);
  }
}
