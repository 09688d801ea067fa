/** The thread pool's shared state and its critical sections (network/thread/thread_pool.hpp). */
module PoolCore {

  type Task = nat

  datatype Pool = Pool(stop: bool, tasks: seq<Task>)

  /** What a worker does once its wait predicate has been evaluated under the lock. */
  datatype Turn = Block | Exit | Take(task: Task)

  predicate Ready(p: Pool) { p.stop || p.tasks != [] }

  function TurnOf(p: Pool): Turn
  {
    if !Ready(p) then Block else if p.stop && p.tasks == [] then Exit else Take(p.tasks[0])
  }

  function AfterTurn(p: Pool): Pool { if TurnOf(p).Take? then p.(tasks := p.tasks[1..]) else p }

  /** The second `stop` test of `enqueue` refuses; otherwise the task goes to the back. */
  function Push(p: Pool, t: Task): Pool { if p.stop then p else p.(tasks := p.tasks + [t]) }

  class ThreadPool {
    var stop: bool
    var tasks: seq<Task>

    ghost function View(): Pool
      reads this
    {
      Pool(stop, tasks)
    }

    constructor ()
      ensures View() == Pool(true, [])
    {
      stop := true;
      tasks := [];
    }

    /** The worker's section: one evaluation of the wait predicate, and the take. */
    method WorkerSection() returns (turn: Turn)
      modifies this
      ensures turn == TurnOf(old(View())) && View() == AfterTurn(old(View()))
    {
      if !(stop || tasks != []) {
        return Block;
      }
      if stop && tasks == [] {
        return Exit;
      }
      turn := Take(tasks[0]);
      tasks := tasks[1..];
    }

    method EnqueueSection(t: Task) returns (accepted: bool)
      modifies this
      ensures View() == Push(old(View()), t) && (accepted <==> !old(stop))
    {
      if stop {
        return false;
      }
      tasks := tasks + [t];
      accepted := true;
    }

    method CloseSection()
      modifies this`stop
      ensures View() == old(View()).(stop := true)
    {
      stop := true;
    }
  }
}
