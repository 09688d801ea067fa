/** What holds of every run of the thread pool. */
module PoolTheorems {
  import opened PoolCore
  import opened PoolRuns

  lemma {:induction false} NumConcat<T>(a: seq<T>, b: seq<T>, x: T)
    ensures Num(a + b, x) == Num(a, x) + Num(b, x)
  {
    if a == [] {
      assert a + b == b;
    } else {
      assert (a + b)[1..] == a[1..] + b;
      NumConcat(a[1..], b, x);
    }
  }

  lemma {:induction false} NumIsMultiplicity<T>(ts: seq<T>, x: T)
    ensures Num(ts, x) == multiset(ts)[x]
  {
    if ts != [] {
      assert ts == [ts[0]] + ts[1..];
      NumIsMultiplicity(ts[1..], x);
    }
  }

  /** Tasks are taken in the order in which they were accepted, and every accepted task is
      completed, being run by a worker, or queued: none is lost and none is run twice, across any
      number of `init` and `close` cycles. */
  lemma OrderAndConservation(s: State)
    requires Reachable(s)
    ensures s.accepted == s.taken + s.pool.tasks
    ensures forall t :: multiset(s.accepted)[t] ==
                        multiset(s.completed)[t] + multiset(s.workers)[Running(t)] + multiset(s.pool.tasks)[t]
  {
    ReachableInv(s);
    forall t
      ensures multiset(s.accepted)[t] ==
              multiset(s.completed)[t] + multiset(s.workers)[Running(t)] + multiset(s.pool.tasks)[t]
    {
      NumConcat(s.taken, s.pool.tasks, t);
      NumIsMultiplicity(s.accepted, t);
      NumIsMultiplicity(s.completed, t);
      NumIsMultiplicity(s.workers, Running(t));
      NumIsMultiplicity(s.pool.tasks, t);
      assert Num(s.taken, t) == Num(s.completed, t) + Num(s.workers, Running(t));
    }
  }

  lemma {:induction false} NumPositive<T>(ts: seq<T>, x: T)
    requires Num(ts, x) > 0
    ensures x in ts
  {
    if ts[0] != x {
      NumPositive(ts[1..], x);
    }
  }

  predicate Awake(w: Worker) { w.Entry? || w.Woken? || w.Running? }

  /** Queued tasks never wait for nobody: with a worker in the pool, one is awake or a client
      still owes its notification; and no more workers sleep through than there are wake-ups. */
  lemma NoLostTask(s: State)
    requires Reachable(s) && s.workers != [] && s.pool.tasks != []
    ensures (exists w :: w in s.workers && Awake(w)) || Notifying in s.clients
    ensures Blocked in s.workers ==> |s.pool.tasks| <= Num(s.clients, Notifying) + Num(s.workers, Woken)
  {
    ReachableInv(s);
    var w := s.workers[0];
    if w.Blocked? {
      if Num(s.clients, Notifying) > 0 {
        NumPositive(s.clients, Notifying);
      } else {
        NumPositive(s.workers, Woken);
        assert Awake(Woken);
      }
    } else {
      assert w in s.workers;
      assert Awake(w);
    }
  }

  // ------------------------------------------------------------------ shutdown

  predicate AllCompleted(s: State) { multiset(s.completed) == multiset(s.accepted) }

  predicate Closing(s: State) { s.control == Joining(|s.workers|) }

  lemma AccountedFor(s: State)
    requires Inv(s) && s.pool.tasks == [] && forall i :: 0 <= i < |s.workers| ==> !s.workers[i].Running?
    ensures AllCompleted(s)
  {
    assert s.accepted == s.taken;
    forall t
      ensures multiset(s.completed)[t] == multiset(s.accepted)[t]
    {
      NumNone(s.workers, Running(t));
      NumIsMultiplicity(s.completed, t);
      NumIsMultiplicity(s.accepted, t);
      assert Num(s.taken, t) == Num(s.completed, t) + Num(s.workers, Running(t));
    }
  }

  /** When `close` has joined the last worker, everything accepted has been completed. */
  lemma CloseCompletes(s: State)
    requires Reachable(s) && Closing(s) && s.workers != []
    ensures s.pool.tasks == [] && AllCompleted(s)
  {
    ReachableInv(s);
    assert s.workers[0] in s.workers;
    AccountedFor(s);
  }

  /** A worker has exited only after `stop` with an empty queue, and from then on nothing is
      accepted until the next `init`. */
  lemma {:induction false} ClosedMeansClosed(s: State, es: seq<Event>)
    requires Reachable(s) && Exited in s.workers && Runnable(s, es)
    requires forall e :: e in es ==> !e.InitCall?
    ensures s.pool == Pool(true, []) && Exec(s, es).pool == Pool(true, [])
    ensures Exec(s, es).accepted == s.accepted
  {
    ReachableInv(s);
    StaysStopped(s, es);
  }

  lemma {:induction false} StaysStopped(s: State, es: seq<Event>)
    requires Runnable(s, es) && s.pool == Pool(true, []) && forall e :: e in es ==> !e.InitCall?
    ensures Exec(s, es).pool == Pool(true, []) && Exec(s, es).accepted == s.accepted
    decreases |es|
  {
    if es != [] {
      assert es[0] in es;
      StaysStopped(Step(s, es[0]), es[1..]);
    }
  }

  lemma {:induction false} ExecAppend(s: State, es: seq<Event>, e: Event)
    requires Runnable(s, es) && Enabled(Exec(s, es), e)
    ensures Runnable(s, es + [e]) && Exec(s, es + [e]) == Step(Exec(s, es), e)
    decreases |es|
  {
    if es == [] {
      assert [] + [e] == [e] && [e][1..] == [];
      assert Runnable(Step(s, e), []);
    } else {
      assert (es + [e])[1..] == es[1..] + [e];
      ExecAppend(Step(s, es[0]), es[1..], e);
    }
  }

  lemma ReachableNext(s: State, e: Event)
    requires Reachable(s) && Enabled(s, e)
    ensures Reachable(Step(s, e))
  {
    var clients: nat, es: seq<Event> :| Runnable(Init(clients), es) && Exec(Init(clients), es) == s;
    ExecAppend(Init(clients), es, e);
  }

  lemma ReachableInit(clients: nat)
    ensures Reachable(Init(clients))
  {
    assert Runnable(Init(clients), []) && Exec(Init(clients), []) == Init(clients);
  }

  /** A client has passed the unlocked tests and is on its way to the lock. */
  lemma StartingPool() returns (s: State)
    ensures Reachable(s) && s == State(Pool(false, []), [Entry], [Away], Spawning(0), [], [], [])
  {
    ReachableInit(1);
    s := Init(1);
    assert s == State(Pool(true, []), [], [Away], Resting, [], [], []);
    ReachableNext(s, InitCall(1));
    s := Step(s, InitCall(1));
    ReachableNext(s, Spawn);
    s := Step(s, Spawn);
  }

  lemma CheckedClient() returns (s: State)
    ensures Reachable(s) && s == State(Pool(false, []), [Entry], [Checked], Resting, [], [], [])
  {
    s := StartingPool();
    ReachableNext(s, Spawn);
    s := Step(s, Spawn);
    ReachableNext(s, ReadStop(0));
    s := Step(s, ReadStop(0));
    assert s == State(Pool(false, []), [Entry], [SawRunning], Resting, [], [], []);
    ReachableNext(s, ReadWorkers(0));
    s := Step(s, ReadWorkers(0));
  }

  /** The pool is closed before the client gets there. */
  lemma ClosingClient() returns (s: State)
    ensures Reachable(s) && s == State(Pool(true, []), [Exited], [Checked], CloseNotify, [], [], [])
  {
    s := CheckedClient();
    ReachableNext(s, CloseCall);
    s := Step(s, CloseCall);
    ReachableNext(s, CloseLock);
    s := Step(s, CloseLock);
    assert s == State(Pool(true, []), [Entry], [Checked], CloseNotify, [], [], []);
    ReachableNext(s, Event.Turn(0));
    s := Step(s, Event.Turn(0));
  }

  lemma StaleClient() returns (s: State)
    ensures Reachable(s) && s == State(Pool(true, []), [], [Checked], Resting, [], [], [])
  {
    s := ClosingClient();
    ReachableNext(s, NotifyAll);
    s := Step(s, NotifyAll);
    assert s == State(Pool(true, []), [Exited], [Checked], Joining(0), [], [], []);
    ReachableNext(s, Join);
    s := Step(s, Join);
    ReachableNext(s, Leave);
    s := Step(s, Leave);
  }

  /** It can hand its task to a cycle without workers, where `close` returns before the task ran. */
  lemma EmptyCycleReturnsEarly() returns (s: State)
    ensures Reachable(s) && Closing(s) && |s.workers| == 0 && !AllCompleted(s)
  {
    s := StaleClient();
    ReachableNext(s, InitCall(0));
    s := Step(s, InitCall(0));
    ReachableNext(s, Spawn);
    s := Step(s, Spawn);
    ReachableNext(s, Enqueue(0, 7));
    s := Step(s, Enqueue(0, 7));
    ReachableNext(s, CloseCall);
    s := Step(s, CloseCall);
    ReachableNext(s, CloseLock);
    s := Step(s, CloseLock);
    ReachableNext(s, NotifyAll);
    s := Step(s, NotifyAll);
    assert s.accepted == [7] && s.completed == [];
    assert |multiset(s.accepted)| == 1;
  }

  /** `close` waits for every accepted task exactly in the cycles that have a worker. */
  lemma CloseExact(threads: nat)
    ensures threads >= 1 <==> forall s :: Reachable(s) && Closing(s) && |s.workers| == threads ==> AllCompleted(s)
  {
    if threads >= 1 {
      forall s | Reachable(s) && Closing(s) && |s.workers| == threads
        ensures AllCompleted(s)
      {
        CloseCompletes(s);
      }
    } else {
      var s := EmptyCycleReturnsEarly();
    }
  }

  // ------------------------------------------------------------------ progress

  /** Everything but a new request and a spurious wake-up. */
  predicate Internal(e: Event) { !e.ReadStop? && !e.InitCall? && !e.CloseCall? && !e.Spurious? }

  function WorkerWeight(w: Worker): nat { if w.Running? then 2 else if Awake(w) then 1 else 0 }

  function ClientWeight(c: Client): nat
  {
    match c
    case Away => 0
    case SawRunning => 6
    case Checked => 5
    case Notifying => 2
  }

  function ControlWeight(c: Control, workers: nat): nat
  {
    match c
    case Resting => 0
    case Spawning(k) => 2 * k + 1
    case CloseEntry => 2 * workers + 3
    case CloseNotify => 2 * workers + 2
    case Joining(i) => if i <= workers then workers - i + 1 else 0
  }

  function Workers(ws: seq<Worker>): nat { if ws == [] then 0 else WorkerWeight(ws[0]) + Workers(ws[1..]) }

  function Clients(cs: seq<Client>): nat { if cs == [] then 0 else ClientWeight(cs[0]) + Clients(cs[1..]) }

  /** A bound on the number of internal steps that can still happen. */
  function Energy(s: State): nat
  {
    Workers(s.workers) + Clients(s.clients) + ControlWeight(s.control, |s.workers|) + 2 * |s.pool.tasks|
  }

  lemma {:induction false} WorkersUpdate(ws: seq<Worker>, i: nat, w: Worker)
    requires i < |ws|
    ensures Workers(ws[i := w]) == Workers(ws) - WorkerWeight(ws[i]) + WorkerWeight(w)
  {
    if i == 0 {
      assert ws[i := w][1..] == ws[1..];
    } else {
      assert ws[i := w][1..] == ws[1..][i - 1 := w];
      WorkersUpdate(ws[1..], i - 1, w);
    }
  }

  lemma {:induction false} ClientsUpdate(cs: seq<Client>, i: nat, c: Client)
    requires i < |cs|
    ensures Clients(cs[i := c]) == Clients(cs) - ClientWeight(cs[i]) + ClientWeight(c)
  {
    if i == 0 {
      assert cs[i := c][1..] == cs[1..];
    } else {
      assert cs[i := c][1..] == cs[1..][i - 1 := c];
      ClientsUpdate(cs[1..], i - 1, c);
    }
  }

  lemma {:induction false} WorkersAppend(ws: seq<Worker>)
    ensures Workers(ws + [Entry]) == Workers(ws) + 1
  {
    if ws == [] {
      assert ([] + [Entry])[1..] == [];
    } else {
      assert (ws + [Entry])[1..] == ws[1..] + [Entry];
      WorkersAppend(ws[1..]);
    }
  }

  lemma {:induction false} WorkersWoken(ws: seq<Worker>)
    ensures Workers(WakeAll(ws)) <= Workers(ws) + |ws|
  {
    if ws != [] {
      assert WakeAll(ws)[1..] == WakeAll(ws[1..]);
      WorkersWoken(ws[1..]);
    }
  }

  lemma EnergyDrops(s: State, e: Event)
    requires Enabled(s, e) && Internal(e)
    ensures Energy(Step(s, e)) < Energy(s)
  {
    var s' := Step(s, e);
    match e
    case ReadWorkers(c) => ClientsUpdate(s.clients, c, s'.clients[c]);
    case Enqueue(c, _) => ClientsUpdate(s.clients, c, s'.clients[c]);
    case NotifyNobody(c) => ClientsUpdate(s.clients, c, Away);
    case NotifyOne(c, w) =>
      ClientsUpdate(s.clients, c, Away);
      WorkersUpdate(s.workers, w, Woken);
    case Turn(w) => WorkersUpdate(s.workers, w, s'.workers[w]);
    case Finish(w) => WorkersUpdate(s.workers, w, Entry);
    case Spawn => if s.control.left > 0 { WorkersAppend(s.workers); }
    case NotifyAll => WorkersWoken(s.workers);
    case _ =>
  }

  lemma {:induction false} Settles(s: State, es: seq<Event>)
    requires Runnable(s, es) && forall e :: e in es ==> Internal(e)
    ensures |es| + Energy(Exec(s, es)) <= Energy(s)
    decreases |es|
  {
    if es != [] {
      assert es[0] in es;
      EnergyDrops(s, es[0]);
      Settles(Step(s, es[0]), es[1..]);
    }
  }

  /** Nothing but a new request or a spurious wake-up can happen. */
  ghost predicate Quiet(s: State) { forall e :: Internal(e) ==> !Enabled(s, e) }

  /** Joining never waits for a worker that sleeps. */
  lemma JoinOpen(s: State)
    requires Inv(s) && s.control.Joining?
    requires forall i :: 0 <= i < |s.workers| ==> s.workers[i].Blocked? || s.workers[i].Exited?
    ensures Enabled(s, Join) || Enabled(s, Leave)
  {
    if s.control.next < |s.workers| {
      assert s.workers[s.control.next] in s.workers;
    }
  }

  lemma QuietWorkers(s: State)
    requires Reachable(s) && Quiet(s)
    ensures s.control.Resting? && Notifying !in s.clients
    ensures forall i :: 0 <= i < |s.workers| ==> s.workers[i].Blocked?
  {
    ReachableInv(s);
    forall i | 0 <= i < |s.workers|
      ensures s.workers[i].Blocked? || s.workers[i].Exited?
    {
      assert !Enabled(s, Event.Turn(i)) && !Enabled(s, Finish(i));
    }
    forall i | 0 <= i < |s.clients|
      ensures s.clients[i] != Notifying
    {
      assert !Enabled(s, NotifyNobody(i));
      if Blocked in s.workers {
        var j :| 0 <= j < |s.workers| && s.workers[j] == Blocked;
        assert !Enabled(s, NotifyOne(i, j));
      }
    }
    if s.control.Joining? {
      JoinOpen(s);
    }
    assert !Enabled(s, Spawn) && !Enabled(s, CloseLock) && !Enabled(s, NotifyAll);
    assert !Enabled(s, Join) && !Enabled(s, Leave);
  }

  /** When the pool has come to rest no `init` or `close` is under way, and with at least one
      worker every accepted task is completed. */
  lemma QuietMeansDone(s: State)
    requires Reachable(s) && Quiet(s)
    ensures s.control.Resting?
    ensures s.workers != [] ==> s.pool.tasks == [] && AllCompleted(s)
  {
    ReachableInv(s);
    QuietWorkers(s);
    if s.workers != [] {
      assert s.workers[0] in s.workers;
      NumNone(s.clients, Notifying);
      NumNone(s.workers, Woken);
      AccountedFor(s);
    }
  }

  lemma {:induction false} ReachableRun(s: State, es: seq<Event>)
    requires Reachable(s) && Runnable(s, es)
    ensures Reachable(Exec(s, es))
    decreases |es|
  {
    if es != [] {
      ReachableNext(s, es[0]);
      ReachableRun(Step(s, es[0]), es[1..]);
    }
  }

  /** However the threads are scheduled, after boundedly many steps without a new request the pool
      rests: `close` has returned, and the tasks are done if there is a worker. */
  lemma Progress(s: State, es: seq<Event>)
    requires Reachable(s) && Runnable(s, es) && forall e :: e in es ==> Internal(e)
    ensures |es| <= Energy(s)
    ensures var s' := Exec(s, es);
            Quiet(s') ==> s'.control.Resting? && (s'.workers != [] ==> s'.pool.tasks == [] && AllCompleted(s'))
  {
    Settles(s, es);
    ReachableRun(s, es);
    if Quiet(Exec(s, es)) {
      QuietMeansDone(Exec(s, es));
    }
  }
}
