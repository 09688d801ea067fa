/** One timer of the timer manager (network/timer/timer_manager.hpp) with its deadline timer
    (network/timer/schedule_timer.hpp), and the drift-correcting arithmetic of fixed timers.

    Changing the expiry of a deadline timer, or cancelling it, completes its pending waits with an
    error; completions that are already queued are not affected.
  */
module TimerCore {

  /** `armed` counts pending waits; `queued` holds the completions not yet run, true for success. */
  datatype Info = Info(ok: bool, ms: int, nextTime: int, armed: nat, queued: seq<bool>)

  function Aborted(n: nat): seq<bool> { seq(n, _ => false) }

  function Cancelled(i: Info): Info { i.(armed := 0, queued := i.queued + Aborted(i.armed)) }

  function Max(a: int, b: int): int { if a < b then b else a }

  /** `calc_next_time`. */
  function Next(nextTime: int, ms: int, now: int): int
  {
    if nextTime + ms < now then now else nextTime + ms
  }

  function Started(i: Info, now: int): Info
  {
    Cancelled(i).(ok := true, armed := 1, nextTime := if i.nextTime != 0 then Next(i.nextTime, i.ms, now) else 0)
  }

  function Stopped(i: Info): Info { Cancelled(i).(ok := false) }

  class TimerInfo {
    var ok: bool
    const ms: int
    var nextTime: int
    var armed: nat
    var queued: seq<bool>

    ghost function View(): Info
      reads this
    {
      Info(ok, ms, nextTime, armed, queued)
    }

    constructor (ms: int, nextTime: int)
      ensures View() == Info(true, ms, nextTime, 0, [])
    {
      ok := true;
      this.ms := ms;
      this.nextTime := nextTime;
      armed := 0;
      queued := [];
    }

    /** `deadline_timer::cancel`, which `expires_at` and `expires_from_now` include. */
    method Cancel()
      modifies this
      ensures View() == Cancelled(old(View()))
    {
      queued := queued + Aborted(armed);
      armed := 0;
    }

    method CalcNextTime(now: int)
      modifies this`nextTime
      ensures nextTime == Next(old(nextTime), ms, now)
    {
      nextTime := nextTime + ms;
      if nextTime < now {
        nextTime := now;
      }
    }

    method Start(now: int)
      modifies this
      ensures View() == Started(old(View()), now)
    {
      ok := true;
      if nextTime != 0 {
        CalcNextTime(now);
      }
      Cancel();
      armed := armed + 1;
    }

    method Stop()
      modifies this
      ensures View() == Stopped(old(View()))
    {
      Cancel();
      ok := false;
    }
  }

  // ------------------------------------------------------------- fixed schedules

  /** `next_time` after starts at the clock readings `cs`. */
  function NextAfter(base: int, ms: int, cs: seq<int>): int
  {
    if cs == [] then base else Next(NextAfter(base, ms, cs[..|cs| - 1]), ms, cs[|cs| - 1])
  }

  /** The length of `n` periods. */
  function Periods(n: nat, ms: int): int { if n == 0 then 0 else Periods(n - 1, ms) + ms }

  lemma {:induction false} PeriodsProduct(n: nat, ms: int)
    ensures Periods(n, ms) == n * ms
  {
    if n > 0 {
      PeriodsProduct(n - 1, ms);
      assert n * ms == (n - 1) * ms + ms;
    }
  }

  /** The latest of the times the schedule and the first `j` readings ask for. */
  function Latest(base: int, ms: int, cs: seq<int>, j: nat): int
    requires j <= |cs|
  {
    if j == 0 then base + Periods(|cs|, ms) else Max(Latest(base, ms, cs, j - 1), cs[j - 1] + Periods(|cs| - j, ms))
  }

  lemma {:induction false} LatestShift(base: int, ms: int, cs: seq<int>, c: int, j: nat)
    requires j <= |cs|
    ensures Latest(base, ms, cs + [c], j) == Latest(base, ms, cs, j) + ms
  {
    if j > 0 {
      LatestShift(base, ms, cs, c, j - 1);
      assert (cs + [c])[j - 1] == cs[j - 1];
    }
  }

  /** After n starts a fixed timer is due at the maximum of the undisturbed schedule and, for each
      start, its clock reading advanced by the periods since. */
  lemma {:induction false} FixedSchedule(base: int, ms: int, cs: seq<int>)
    ensures NextAfter(base, ms, cs) == Latest(base, ms, cs, |cs|)
    decreases |cs|
  {
    if cs != [] {
      var n := |cs| - 1;
      assert cs == cs[..n] + [cs[n]];
      FixedSchedule(base, ms, cs[..n]);
      LatestShift(base, ms, cs[..n], cs[n], n);
    }
  }

  lemma {:induction false} LatestBounds(base: int, ms: int, cs: seq<int>, j: nat)
    requires j <= |cs|
    ensures Latest(base, ms, cs, j) >= base + Periods(|cs|, ms)
    ensures forall i :: 0 <= i < j ==> Latest(base, ms, cs, j) >= cs[i] + Periods(|cs| - (i + 1), ms)
    ensures Latest(base, ms, cs, j) == base + Periods(|cs|, ms) <==>
              forall i :: 0 <= i < j ==> cs[i] + Periods(|cs| - (i + 1), ms) <= base + Periods(|cs|, ms)
  {
    if j > 0 {
      LatestBounds(base, ms, cs, j - 1);
    }
  }

  lemma {:induction false} PeriodsAdd(a: nat, b: nat, ms: int)
    ensures Periods(a + b, ms) == Periods(a, ms) + Periods(b, ms)
  {
    if b > 0 {
      PeriodsAdd(a, b - 1, ms);
    }
  }

  /** No start is later than the undisturbed schedule. */
  predicate InTime(base: int, ms: int, cs: seq<int>)
  {
    forall i :: 0 <= i < |cs| ==> cs[i] <= base + (i + 1) * ms
  }

  /** A fixed timer is never armed behind the clock, never moves back, and keeps the undisturbed
      schedule exactly as long as no start was late on it. */
  lemma NoDrift(base: int, ms: int, cs: seq<int>)
    ensures InTime(base, ms, cs) <==> NextAfter(base, ms, cs) == base + |cs| * ms
    ensures cs != [] ==> NextAfter(base, ms, cs) >= cs[|cs| - 1]
    ensures cs != [] && ms >= 0 ==> NextAfter(base, ms, cs) >= NextAfter(base, ms, cs[..|cs| - 1])
  {
    FixedSchedule(base, ms, cs);
    LatestBounds(base, ms, cs, |cs|);
    PeriodsProduct(|cs|, ms);
    forall i | 0 <= i < |cs|
      ensures cs[i] <= base + (i + 1) * ms <==> cs[i] + Periods(|cs| - (i + 1), ms) <= base + Periods(|cs|, ms)
    {
      PeriodsProduct(i + 1, ms);
      PeriodsAdd(i + 1, |cs| - (i + 1), ms);
    }
  }

  function StartedAll(i: Info, cs: seq<int>): Info
  {
    if cs == [] then i else Started(StartedAll(i, cs[..|cs| - 1]), cs[|cs| - 1])
  }

  /** A timer created with a first due time follows that schedule, whatever happens to its waits:
      it stays a fixed timer because the clock reads positive times. */
  lemma {:induction false} FixedTimerRun(i: Info, cs: seq<int>)
    requires i.nextTime != 0 && forall j :: 0 <= j < |cs| ==> cs[j] > 0
    ensures StartedAll(i, cs).nextTime == NextAfter(i.nextTime, i.ms, cs) != 0
    ensures cs != [] ==> StartedAll(i, cs).ok && StartedAll(i, cs).armed == 1
    ensures StartedAll(i, cs).ms == i.ms
    decreases |cs|
  {
    if cs != [] {
      FixedTimerRun(i, cs[..|cs| - 1]);
    }
  }
}
