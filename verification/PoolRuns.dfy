/** A thread pool with any number of workers, any number of enqueuing clients and one controlling
    thread that calls `init` and `close`, as a transition system.  Each critical section, each
    unlocked read, each notification, each thread start and each join is a step of its own.
  */
module PoolRuns {
  import opened PoolCore

  datatype Worker =
    | Entry                // about to lock and test the wait predicate
    | Blocked
    | Woken                // woken, has not relocked the mutex
    | Running(task: Task)
    | Exited

  datatype Client =
    | Away
    | SawRunning           // read `stop` as false without the lock
    | Checked              // then found `workers` not empty, about to lock
    | Notifying            // task accepted, notify_one to come

  datatype Control =
    | Resting
    | Spawning(left: nat)
    | CloseEntry           // about to lock in `close`
    | CloseNotify          // stop set, notify_all to come
    | Joining(next: nat)

  datatype State = State(
    pool: Pool, workers: seq<Worker>, clients: seq<Client>, control: Control,
    accepted: seq<Task>, taken: seq<Task>, completed: seq<Task>)

  function Init(clients: nat): State
  {
    State(Pool(true, []), [], seq(clients, _ => Away), Resting, [], [], [])
  }

  datatype Event =
    | ReadStop(c: nat)
    | ReadWorkers(c: nat)
    | Enqueue(c: nat, t: Task)
    | NotifyOne(c: nat, w: nat)
    | NotifyNobody(c: nat)
    | Turn(w: nat)
    | Finish(w: nat)
    | Spurious(w: nat)
    | InitCall(threads: nat)
    | Spawn
    | CloseCall
    | CloseLock
    | NotifyAll
    | Join
    | Leave

  predicate Enabled(s: State, e: Event)
  {
    match e
    case ReadStop(c) => c < |s.clients| && s.clients[c].Away?
    case ReadWorkers(c) => c < |s.clients| && s.clients[c].SawRunning?
    case Enqueue(c, _) => c < |s.clients| && s.clients[c].Checked?
    case NotifyOne(c, w) => c < |s.clients| && s.clients[c].Notifying? && w < |s.workers| && s.workers[w].Blocked?
    case NotifyNobody(c) => c < |s.clients| && s.clients[c].Notifying? && Blocked !in s.workers
    case Turn(w) => w < |s.workers| && (s.workers[w].Entry? || s.workers[w].Woken?)
    case Finish(w) => w < |s.workers| && s.workers[w].Running?
    case Spurious(w) => w < |s.workers| && s.workers[w].Blocked?
    case InitCall(_) => s.control.Resting?
    case Spawn => s.control.Spawning?
    case CloseCall => s.control.Resting?
    case CloseLock => s.control.CloseEntry?
    case NotifyAll => s.control.CloseNotify?
    case Join => s.control.Joining? && s.control.next < |s.workers| && s.workers[s.control.next].Exited?
    case Leave => s.control.Joining? && s.control.next == |s.workers|
  }

  function AfterTurn(turn: PoolCore.Turn): Worker
  {
    match turn
    case Block => Blocked
    case Exit => Exited
    case Take(t) => Running(t)
  }

  function WakeAll(ws: seq<Worker>): (r: seq<Worker>)
    ensures |r| == |ws|
    ensures forall i :: 0 <= i < |ws| ==> r[i] == if ws[i].Blocked? then Woken else ws[i]
  {
    seq(|ws|, i requires 0 <= i < |ws| => if ws[i].Blocked? then Woken else ws[i])
  }

  function Step(s: State, e: Event): State
    requires Enabled(s, e)
  {
    match e
    case ReadStop(c) => s.(clients := s.clients[c := if s.pool.stop then Away else SawRunning])
    case ReadWorkers(c) => s.(clients := s.clients[c := if s.workers == [] then Away else Checked])
    case Enqueue(c, t) =>
      if s.pool.stop then s.(clients := s.clients[c := Away])
      else s.(pool := Push(s.pool, t), clients := s.clients[c := Notifying], accepted := s.accepted + [t])
    case NotifyOne(c, w) => s.(clients := s.clients[c := Away], workers := s.workers[w := Woken])
    case NotifyNobody(c) => s.(clients := s.clients[c := Away])
    case Turn(w) =>
      var turn := TurnOf(s.pool);
      s.(pool := PoolCore.AfterTurn(s.pool), workers := s.workers[w := AfterTurn(turn)],
         taken := if turn.Take? then s.taken + [turn.task] else s.taken)
    case Finish(w) => s.(workers := s.workers[w := Entry], completed := s.completed + [s.workers[w].task])
    case Spurious(w) => s.(workers := s.workers[w := Woken])
    case InitCall(k) => if s.pool.stop then s.(pool := s.pool.(stop := false), control := Spawning(k)) else s
    case Spawn =>
      if s.control.left == 0 then s.(control := Resting)
      else s.(workers := s.workers + [Entry], control := Spawning(s.control.left - 1))
    case CloseCall => if s.pool.stop then s else s.(control := CloseEntry)
    case CloseLock => s.(pool := s.pool.(stop := true), control := CloseNotify)
    case NotifyAll => s.(workers := WakeAll(s.workers), control := Joining(0))
    case Join => s.(control := Joining(s.control.next + 1))
    case Leave => s.(workers := [], control := Resting)
  }

  predicate Runnable(s: State, es: seq<Event>)
    decreases |es|
  {
    es == [] || (Enabled(s, es[0]) && Runnable(Step(s, es[0]), es[1..]))
  }

  function Exec(s: State, es: seq<Event>): State
    requires Runnable(s, es)
    decreases |es|
  {
    if es == [] then s else Exec(Step(s, es[0]), es[1..])
  }

  // ---------------------------------------------------------------- counting

  function Num<T(==)>(ts: seq<T>, x: T): nat
  {
    if ts == [] then 0 else (if ts[0] == x then 1 else 0) + Num(ts[1..], x)
  }

  lemma {:induction false} NumUpdate<T>(ts: seq<T>, i: nat, y: T, x: T)
    requires i < |ts|
    ensures Num(ts[i := y], x) == Num(ts, x) - (if ts[i] == x then 1 else 0) + (if y == x then 1 else 0)
  {
    if i == 0 {
      assert ts[i := y][1..] == ts[1..];
    } else {
      assert ts[i := y][1..] == ts[1..][i - 1 := y];
      NumUpdate(ts[1..], i - 1, y, x);
    }
  }

  lemma {:induction false} NumAppend<T>(ts: seq<T>, y: T, x: T)
    ensures Num(ts + [y], x) == Num(ts, x) + (if y == x then 1 else 0)
  {
    if ts == [] {
      assert ([] + [y])[1..] == [];
    } else {
      assert (ts + [y])[1..] == ts[1..] + [y];
      NumAppend(ts[1..], y, x);
    }
  }

  lemma {:induction false} NumNone<T>(ts: seq<T>, x: T)
    requires x !in ts
    ensures Num(ts, x) == 0
  {
    if ts != [] {
      NumNone(ts[1..], x);
    }
  }

  /** Waking or moving workers that run nothing changes no count of running tasks. */
  lemma {:induction false} NumSame(ws: seq<Worker>, us: seq<Worker>, t: Task)
    requires |ws| == |us| && forall i :: 0 <= i < |ws| ==> us[i] == ws[i] || (!ws[i].Running? && !us[i].Running?)
    ensures Num(ws, Running(t)) == Num(us, Running(t))
  {
    if ws != [] {
      NumSame(ws[1..], us[1..], t);
    }
  }

  // --------------------------------------------------------------- invariants

  /** Every task taken from the queue is completed or being run, as often as it was taken. */
  ghost predicate Accounted(taken: seq<Task>, completed: seq<Task>, ws: seq<Worker>)
  {
    forall t :: Num(taken, t) == Num(completed, t) + Num(ws, Running(t))
  }

  /** Tasks are taken in the order of acceptance, and every accepted task is completed, running
      or queued. */
  ghost predicate HistoryInv(s: State)
  {
    && s.accepted == s.taken + s.pool.tasks
    && Accounted(s.taken, s.completed, s.workers)
  }

  /** No worker sleeps while there are more tasks than wake-ups under way. */
  ghost predicate WakeupInv(s: State)
  {
    Blocked in s.workers ==> |s.pool.tasks| <= Num(s.clients, Notifying) + Num(s.workers, Woken)
  }

  ghost predicate ControlInv(s: State)
  {
    && (Exited in s.workers ==> s.pool == Pool(true, []))
    && match s.control
       case Resting => s.pool.stop ==> s.workers == []
       case Spawning(_) => !s.pool.stop
       case CloseEntry => !s.pool.stop
       case CloseNotify => s.pool.stop
       case Joining(i) =>
         && s.pool.stop && Blocked !in s.workers && i <= |s.workers|
         && forall j :: 0 <= j < i ==> s.workers[j].Exited?
  }

  ghost predicate Inv(s: State) { HistoryInv(s) && WakeupInv(s) && ControlInv(s) }

  lemma TakeAccounted(taken: seq<Task>, completed: seq<Task>, ws: seq<Worker>, w: nat, x: Task)
    requires Accounted(taken, completed, ws) && w < |ws| && !ws[w].Running?
    ensures Accounted(taken + [x], completed, ws[w := Running(x)])
  {
    forall t
      ensures Num(taken + [x], t) == Num(completed, t) + Num(ws[w := Running(x)], Running(t))
    {
      NumAppend(taken, x, t);
      NumUpdate(ws, w, Running(x), Running(t));
    }
  }

  lemma FinishAccounted(taken: seq<Task>, completed: seq<Task>, ws: seq<Worker>, w: nat)
    requires Accounted(taken, completed, ws) && w < |ws| && ws[w].Running?
    ensures Accounted(taken, completed + [ws[w].task], ws[w := Entry])
  {
    forall t
      ensures Num(taken, t) == Num(completed + [ws[w].task], t) + Num(ws[w := Entry], Running(t))
    {
      NumAppend(completed, ws[w].task, t);
      NumUpdate(ws, w, Entry, Running(t));
    }
  }

  lemma SameAccounted(taken: seq<Task>, completed: seq<Task>, ws: seq<Worker>, us: seq<Worker>)
    requires Accounted(taken, completed, ws)
    requires |ws| == |us| && forall i :: 0 <= i < |ws| ==> us[i] == ws[i] || (!ws[i].Running? && !us[i].Running?)
    ensures Accounted(taken, completed, us)
  {
    forall t
      ensures Num(taken, t) == Num(completed, t) + Num(us, Running(t))
    {
      NumSame(ws, us, t);
    }
  }

  lemma SpawnAccounted(taken: seq<Task>, completed: seq<Task>, ws: seq<Worker>)
    requires Accounted(taken, completed, ws)
    ensures Accounted(taken, completed, ws + [Entry])
  {
    forall t
      ensures Num(taken, t) == Num(completed, t) + Num(ws + [Entry], Running(t))
    {
      NumAppend(ws, Entry, Running(t));
    }
  }

  lemma LeaveAccounted(taken: seq<Task>, completed: seq<Task>, ws: seq<Worker>)
    requires Accounted(taken, completed, ws) && forall i :: 0 <= i < |ws| ==> ws[i].Exited?
    ensures Accounted(taken, completed, [])
  {
    forall t
      ensures Num(taken, t) == Num(completed, t) + Num<Worker>([], Running(t))
    {
      NumNone(ws, Running(t));
    }
  }

  lemma TakeOrder(accepted: seq<Task>, taken: seq<Task>, tasks: seq<Task>)
    requires accepted == taken + tasks && tasks != []
    ensures accepted == taken + [tasks[0]] + tasks[1..]
  {
  }

  lemma OrderStep(s: State, e: Event)
    requires HistoryInv(s) && Enabled(s, e)
    ensures Step(s, e).accepted == Step(s, e).taken + Step(s, e).pool.tasks
  {
    match e
    case Enqueue(_, t) => assert s.accepted + [t] == s.taken + (s.pool.tasks + [t]);
    case Turn(w) => if TurnOf(s.pool).Take? { TakeOrder(s.accepted, s.taken, s.pool.tasks); }
    case _ =>
  }

  lemma AccountStep(s: State, e: Event)
    requires HistoryInv(s) && ControlInv(s) && Enabled(s, e)
    ensures var s' := Step(s, e); Accounted(s'.taken, s'.completed, s'.workers)
  {
    var s' := Step(s, e);
    match e
    case Turn(w) =>
      if TurnOf(s.pool).Take? {
        TakeAccounted(s.taken, s.completed, s.workers, w, s.pool.tasks[0]);
      } else {
        SameAccounted(s.taken, s.completed, s.workers, s'.workers);
      }
    case Finish(w) => FinishAccounted(s.taken, s.completed, s.workers, w);
    case NotifyOne(_, _) => SameAccounted(s.taken, s.completed, s.workers, s'.workers);
    case Spurious(_) => SameAccounted(s.taken, s.completed, s.workers, s'.workers);
    case NotifyAll => SameAccounted(s.taken, s.completed, s.workers, s'.workers);
    case Spawn => SpawnAccounted(s.taken, s.completed, s.workers);
    case Leave => LeaveAccounted(s.taken, s.completed, s.workers);
    case _ =>
  }

  /** Replacing a worker adds no other kind of worker. */
  lemma StillThere(ws: seq<Worker>, i: nat, w: Worker)
    requires i < |ws|
    ensures forall x :: x in ws[i := w] ==> x == w || x in ws
  {
  }

  lemma WakeupStep(s: State, e: Event)
    requires Inv(s) && Enabled(s, e)
    ensures WakeupInv(Step(s, e))
  {
    var s' := Step(s, e);
    match e
    case Turn(w) => WorkerWakeup(s, w, s'.workers[w]);
    case Finish(w) => WorkerWakeup(s, w, Entry);
    case Spurious(w) => WorkerWakeup(s, w, Woken);
    case NotifyOne(c, w) =>
      WorkerWakeup(s, w, Woken);
      NumUpdate(s.clients, c, Away, Notifying);
    case Spawn => NumAppend(s.workers, Entry, Woken);
    case NotifyAll => NobodyBlocked(s.workers);
    case ReadStop(c) => NumUpdate(s.clients, c, s'.clients[c], Notifying);
    case ReadWorkers(c) => NumUpdate(s.clients, c, s'.clients[c], Notifying);
    case Enqueue(c, _) => NumUpdate(s.clients, c, s'.clients[c], Notifying);
    case _ =>
  }

  lemma WorkerWakeup(s: State, i: nat, w: Worker)
    requires i < |s.workers|
    ensures Num(s.workers[i := w], Woken) == Num(s.workers, Woken) - One(s.workers[i]) + One(w)
    ensures Blocked in s.workers[i := w] ==> w == Blocked || Blocked in s.workers
  {
    NumUpdate(s.workers, i, w, Woken);
    StillThere(s.workers, i, w);
  }

  function One(w: Worker): nat { if w.Woken? then 1 else 0 }

  lemma NobodyBlocked(ws: seq<Worker>)
    ensures Blocked !in WakeAll(ws)
    ensures Exited in WakeAll(ws) ==> Exited in ws
  {
  }

  lemma ControlStep(s: State, e: Event)
    requires Inv(s) && Enabled(s, e)
    ensures ControlInv(Step(s, e))
  {
    var s' := Step(s, e);
    match e
    case Turn(w) => StillThere(s.workers, w, s'.workers[w]);
    case Finish(w) => StillThere(s.workers, w, Entry);
    case Spurious(w) => StillThere(s.workers, w, Woken);
    case NotifyOne(_, w) => StillThere(s.workers, w, Woken);
    case NotifyAll => NobodyBlocked(s.workers);
    case _ =>
  }

  lemma StepInv(s: State, e: Event)
    requires Inv(s) && Enabled(s, e)
    ensures Inv(Step(s, e))
  {
    OrderStep(s, e);
    AccountStep(s, e);
    WakeupStep(s, e);
    ControlStep(s, e);
  }

  lemma {:induction false} RunInv(s: State, es: seq<Event>)
    requires Inv(s) && Runnable(s, es)
    ensures Inv(Exec(s, es))
    decreases |es|
  {
    if es != [] {
      StepInv(s, es[0]);
      RunInv(Step(s, es[0]), es[1..]);
    }
  }

  ghost predicate Reachable(s: State)
  {
    exists clients: nat, es: seq<Event> :: Runnable(Init(clients), es) && Exec(Init(clients), es) == s
  }

  lemma ReachableInv(s: State)
    requires Reachable(s)
    ensures Inv(s)
  {
    var clients: nat, es: seq<Event> :| Runnable(Init(clients), es) && Exec(Init(clients), es) == s;
    RunInv(Init(clients), es);
  }
}
