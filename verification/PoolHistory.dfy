/** What a run of the thread pool does, in terms of the calls that were made. */
module PoolHistory {
  import opened PoolCore
  import opened PoolRuns

  // ------------------------------------------------------------- accepted tasks

  /** This call of `enqueue` returns true. */
  predicate Accepts(s: State, e: Event)
    requires Enabled(s, e)
  {
    e.Enqueue? && Step(s, e).clients[e.c].Notifying?
  }

  /** The tasks passed to the accepted calls of a run, in order. */
  function Arguments(s: State, es: seq<Event>): seq<Task>
    requires Runnable(s, es)
    decreases |es|
  {
    if es == [] then []
    else (if Accepts(s, es[0]) then [es[0].t] else []) + Arguments(Step(s, es[0]), es[1..])
  }

  lemma {:induction false} AcceptedGrows(s: State, es: seq<Event>)
    requires Runnable(s, es)
    ensures Exec(s, es).accepted == s.accepted + Arguments(s, es)
    decreases |es|
  {
    if es != [] {
      AcceptedGrows(Step(s, es[0]), es[1..]);
    }
  }

  /** The tasks the pool answers for are those that were passed to it. */
  lemma AcceptedExactly(clients: nat, es: seq<Event>)
    requires Runnable(Init(clients), es)
    ensures Exec(Init(clients), es).accepted == Arguments(Init(clients), es)
  {
    AcceptedGrows(Init(clients), es);
  }

  /** A whole call of `enqueue` up to its notification, if nothing interrupts it. */
  function Attempt(s: State, c: nat, t: Task): State
    requires c < |s.clients| && s.clients[c].Away?
  {
    var s1 := Step(s, ReadStop(c));
    if s1.clients[c].Away? then s1
    else
      var s2 := Step(s1, ReadWorkers(c));
      if s2.clients[c].Away? then s2 else Step(s2, Enqueue(c, t))
  }

  /** It is accepted exactly if the pool has been started, not closed since, and has workers; the task then
      stands at the back of the queue, and otherwise nothing has changed. */
  lemma EnqueueExact(s: State, c: nat, t: Task)
    requires c < |s.clients| && s.clients[c].Away?
    ensures var s' := Attempt(s, c, t);
            if !s.pool.stop && s.workers != [] then
              s' == s.(pool := s.pool.(tasks := s.pool.tasks + [t]), clients := s.clients[c := Notifying],
                       accepted := s.accepted + [t])
            else s' == s
  {
    assert s.clients[c := SawRunning][c := Checked][c := Notifying] == s.clients[c := Notifying];
    assert s.clients[c := Away] == s.clients && s.clients[c := SawRunning][c := Away] == s.clients;
  }

  // ------------------------------------------------------------- number of workers

  /** The argument of the last `init` of the run that found the pool stopped. */
  function Wanted(s: State, es: seq<Event>, last: nat): nat
    requires Runnable(s, es)
    decreases |es|
  {
    if es == [] then last
    else Wanted(Step(s, es[0]), es[1..], if es[0].InitCall? && s.pool.stop then es[0].threads else last)
  }

  /** `init` is still starting workers, has started all of them, or `close` has removed them. */
  predicate Staffed(s: State, wanted: nat)
  {
    match s.control
    case Spawning(left) => |s.workers| + left == wanted
    case Resting => if s.pool.stop then s.workers == [] else |s.workers| == wanted
    case CloseEntry => |s.workers| == wanted
    case CloseNotify => |s.workers| == wanted
    case Joining(_) => |s.workers| == wanted
  }

  /** Whether the pool accepts tasks agrees with what the controlling thread is doing. */
  predicate StopFits(s: State)
  {
    match s.control
    case Spawning(_) => !s.pool.stop
    case Resting => true
    case CloseEntry => !s.pool.stop
    case CloseNotify => s.pool.stop
    case Joining(_) => s.pool.stop
  }

  lemma StaffStep(s: State, e: Event, wanted: nat)
    requires Enabled(s, e) && Staffed(s, wanted) && StopFits(s)
    ensures Staffed(Step(s, e), if e.InitCall? && s.pool.stop then e.threads else wanted) && StopFits(Step(s, e))
  {
  }

  lemma {:induction false} StaffRun(s: State, es: seq<Event>, wanted: nat)
    requires Runnable(s, es) && Staffed(s, wanted) && StopFits(s)
    ensures Staffed(Exec(s, es), Wanted(s, es, wanted)) && StopFits(Exec(s, es))
    decreases |es|
  {
    if es != [] {
      StaffStep(s, es[0], wanted);
      StaffRun(Step(s, es[0]), es[1..], if es[0].InitCall? && s.pool.stop then es[0].threads else wanted);
    }
  }

  /** In every run, once `init(k)` on a stopped pool has finished the pool runs with k workers, until
      `close` has joined them; a stopped pool at rest has none. */
  lemma WorkersExactly(clients: nat, es: seq<Event>)
    requires Runnable(Init(clients), es)
    ensures var s := Exec(Init(clients), es);
            && Staffed(s, Wanted(Init(clients), es, 0))
            && (s.control.Resting? && !s.pool.stop ==> |s.workers| == Wanted(Init(clients), es, 0))
            && (s.control.Resting? && s.pool.stop ==> s.workers == [])
  {
    StaffRun(Init(clients), es, 0);
  }

  /** The starting is never stuck: `init(k)` can run to its end at once. */
  lemma {:induction false} SpawnRun(s: State, left: nat)
    requires s.control == Spawning(left)
    ensures var es := seq(left + 1, _ => Spawn);
            Runnable(s, es) && Exec(s, es).control == Resting && |Exec(s, es).workers| == |s.workers| + left
            && Exec(s, es).pool == s.pool
    decreases left
  {
    var es := seq(left + 1, _ => Spawn);
    if left == 0 {
      assert es[1..] == [];
    } else {
      assert es[1..] == seq(left, _ => Spawn);
      SpawnRun(Step(s, Spawn), left - 1);
    }
  }
}
