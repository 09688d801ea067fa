/** `select::try_once` and `select::wait` (network/base/channel.h): which cases are tried.  Whether
    an attempt succeeds is up to the other threads, so the outcomes are a parameter.
  */
module Select {

  const SIZE_T := 0x1_0000_0000_0000_0000
  const RANDOM := 0x1_0000_0000

  predicate Distinct(s: seq<nat>) { forall i, j :: 0 <= i < j < |s| ==> s[i] != s[j] }

  /** Every case below `n` is in the list. */
  predicate Covers(s: seq<nat>, n: nat) { forall c :: 0 <= c < n ==> c in s }

  /** The outcomes of the attempts made: all but the last one failed. */
  predicate OnlyLastSucceeds(outcome: nat -> bool, attempts: nat, ok: bool)
  {
    && (forall j :: 0 <= j < attempts - 1 ==> !outcome(j))
    && (attempts > 0 ==> outcome(attempts - 1) == ok)
    && (attempts == 0 ==> !ok)
  }

  lemma SmallMultiple(n: int, d: int)
    requires n > 0 && -n < n * d < n
    ensures d == 0
  {
    if d >= 1 {
      assert n * d == n + n * (d - 1);
      NonNegative(n, d - 1);
    } else if d <= -1 {
      assert n * -d == n + n * (-d - 1);
      NonNegative(n, -d - 1);
    }
  }

  lemma NonNegative(a: int, b: int)
    requires a >= 0 && b >= 0
    ensures a * b >= 0
  {
  }

  lemma DivMod(y: int, n: int)
    requires n > 0
    ensures y == n * (y / n) + y % n && 0 <= y % n < n
  {
  }

  /** The remainder is determined by any quotient. */
  lemma Wraps(x: nat, n: nat, q: int)
    requires x < n
    ensures (n * q + x) % n == x
  {
    var y := n * q + x;
    DivMod(y, n);
    assert n * (y / n - q) == n * (y / n) - n * q;
    SmallMultiple(n, y / n - q);
  }

  /** Equal remainders are a multiple of the divisor apart. */
  lemma SameRemainder(a: nat, b: nat, n: nat)
    requires n > 0 && a <= b < a + n && a % n == b % n
    ensures a == b
  {
    DivMod(a, n);
    DivMod(b, n);
    assert n * (b / n - a / n) == n * (b / n) - n * (a / n);
    SmallMultiple(n, b / n - a / n);
  }

  /** `n` consecutive indices modulo `n` are all different and hit every case. */
  lemma Consecutive(start: nat, n: nat, trace: seq<nat>)
    requires n > 0 && |trace| <= n && forall j :: 0 <= j < |trace| ==> trace[j] == (start + j) % n
    ensures Distinct(trace)
    ensures |trace| == n ==> Covers(trace, n)
  {
    forall i, j | 0 <= i < j < |trace|
      ensures trace[i] != trace[j]
    {
      if (start + i) % n == (start + j) % n {
        SameRemainder(start + i, start + j, n);
      }
    }
    if |trace| == n {
      forall c | 0 <= c < n
        ensures c in trace
      {
        Hit(start, n, c);
        var j := (c + n - start % n) % n;
        assert trace[j] == c;
      }
    }
  }

  lemma Hit(start: nat, n: nat, c: nat)
    requires c < n
    ensures (start + (c + n - start % n) % n) % n == c
  {
    var r, q := start % n, start / n;
    DivMod(start, n);
    if c >= r {
      Wraps(c - r, n, 1);
      Wraps(c, n, q);
      assert start + (c - r) == n * q + c;
    } else {
      Wraps(c + n - r, n, 0);
      Wraps(c, n, q + 1);
      assert n * (q + 1) == n * q + n;
      assert start + (c + n - r) == n * (q + 1) + c;
    }
  }

  /** `i + j` is computed in `size_t`; the random start is a 32-bit number. */
  method TryOnce(n: nat, i: nat, outcome: nat -> bool) returns (ok: bool, trace: seq<nat>)
    requires i < RANDOM && n <= SIZE_T - RANDOM
    ensures Distinct(trace) && forall c :: c in trace ==> c < n
    ensures forall k :: 0 <= k < |trace| ==> n > 0 && trace[k] == (i + k) % n
    ensures OnlyLastSucceeds(outcome, |trace|, ok)
    ensures !ok ==> |trace| == n && Covers(trace, n)
  {
    trace := [];
    var j := 0;
    while j < n
      invariant 0 <= j <= n && |trace| == j
      invariant forall k :: 0 <= k < j ==> trace[k] == (i + k) % n
      invariant forall k :: 0 <= k < j ==> !outcome(k)
    {
      var c := (i + j) % SIZE_T % n;
      trace := trace + [c];
      if outcome(j) {
        Consecutive(i, n, trace);
        return true, trace;
      }
      j := j + 1;
    }
    ok := false;
    if n > 0 {
      Consecutive(i, n, trace);
    }
  }

  /** Any `n` attempts in a row try every case, in `wait` as well. */
  predicate EveryWindow(trace: seq<nat>, n: nat)
  {
    forall a :: 0 <= a <= |trace| - n ==> FullRound(trace, a, n)
  }

  predicate FullRound(trace: seq<nat>, a: nat, n: nat)
    requires a + n <= |trace|
  {
    Covers(trace[a..a + n], n) && Distinct(trace[a..a + n])
  }

  lemma Windows(start: nat, n: nat, trace: seq<nat>)
    requires n > 0 && forall j :: 0 <= j < |trace| ==> trace[j] == (start + j) % n
    ensures EveryWindow(trace, n)
  {
    forall a | 0 <= a <= |trace| - n
      ensures FullRound(trace, a, n)
    {
      var w := trace[a..a + n];
      assert forall j :: 0 <= j < n ==> w[j] == trace[a + j] == (start + a + j) % n;
      Consecutive(start + a, n, w);
    }
  }

  lemma NextRemainder(x: nat, n: nat)
    requires n > 0
    ensures (x % n + 1) % n == (x + 1) % n
  {
    var r, q := x % n, x / n;
    DivMod(x, n);
    if r + 1 < n {
      Wraps(r + 1, n, q);
      Wraps(r + 1, n, 0);
    } else {
      assert n * q + n == n * (q + 1);
      Wraps(0, n, q + 1);
      Wraps(0, n, 1);
    }
  }

  /** The loop ends when an attempt succeeds; `last` is one that would. */
  method Wait(n: nat, start: nat, outcome: nat -> bool, ghost last: nat) returns (trace: seq<nat>)
    requires 0 < n < SIZE_T && start < RANDOM && outcome(last)
    ensures OnlyLastSucceeds(outcome, |trace|, true) && |trace| <= last + 1
    ensures EveryWindow(trace, n)
    ensures forall k :: 0 <= k < |trace| ==> trace[k] == (start + 1 + k) % n
  {
    var i: nat := start;
    trace := [];
    while true
      invariant |trace| <= last && i < SIZE_T - 1 && i % n == (start + |trace|) % n
      invariant forall k :: 0 <= k < |trace| ==> trace[k] == (start + 1 + k) % n && !outcome(k)
      decreases last - |trace|
    {
      Advance(i, start + |trace|, n);
      i := (i + 1) % SIZE_T % n;
      trace := trace + [i];
      if outcome(|trace| - 1) {
        Windows(start + 1, n, trace);
        break;
      }
    }
  }

  /** Indices that agree modulo `n` still agree one further. */
  lemma Advance(i: nat, x: nat, n: nat)
    requires n > 0 && i % n == x % n
    ensures (i + 1) % n == (x + 1) % n == (x + 1) % n % n
  {
    NextRemainder(i, n);
    NextRemainder(x, n);
    DivMod(x + 1, n);
    Wraps((x + 1) % n, n, 0);
  }
}
