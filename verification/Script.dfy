/** The command-script interpreter (network/cmder/execute_cmder_service.hpp) and the repeating
    commands (network/cmder/base_repeat_cmder.hpp).  `status(k)` is what the k-th command line, or
    the k-th call of `process`, returns; sleeping is left out.
  */
module Script {

  /** `lines` counts the lines of `cmdStr` that are neither blank nor comments; `blank` says that
      the whole of `cmdStr` is empty or white space. */
  datatype Node = Node(name: string, blank: bool, lines: nat, times: int, next: string, nextWhenFailed: string)

  // --------------------------------------------------------------- one node

  /** The number of command lines the node asks for. */
  function Work(node: Node): nat { if node.blank || node.times <= 0 then 0 else node.times * node.lines }

  /** `status` after running up to `n` commands from the k-th on, stopping at the first failure. */
  predicate FirstFailure(status: nat -> int, k: nat, n: nat, end: nat, ret: int)
  {
    && k <= end <= k + n
    && (ret == 0 ==> end == k + n && forall j :: k <= j < end ==> status(j) == 0)
    && (ret != 0 ==> end > k && status(end - 1) == ret && forall j :: k <= j < end - 1 ==> status(j) == 0)
  }

  lemma FailureJoin(status: nat -> int, k: nat, n: nat, mid: nat, m: nat, end: nat, ret: int)
    requires FirstFailure(status, k, n, mid, 0) && FirstFailure(status, mid, m, end, ret)
    ensures FirstFailure(status, k, n + m, end, ret)
  {
  }

  lemma FailureStays(status: nat -> int, k: nat, n: nat, m: nat, end: nat, ret: int)
    requires ret != 0 && FirstFailure(status, k, n, end, ret)
    ensures FirstFailure(status, k, n + m, end, ret)
  {
  }

  /** `execute_cmd_string`. */
  method RunLines(lines: nat, status: nat -> int, k: nat) returns (ret: int, end: nat)
    ensures FirstFailure(status, k, lines, end, ret)
  {
    end := k;
    var i := 0;
    while i < lines
      invariant 0 <= i <= lines && FirstFailure(status, k, i, end, 0)
    {
      ret := status(end);
      end := end + 1;
      if ret != 0 {
        return;
      }
      i := i + 1;
    }
    ret := 0;
  }

  /** `execute_node` without the jump: the lines are run `times` times, and the first failing line
      ends the node with its status. */
  method RunNode(node: Node, status: nat -> int, k: nat) returns (ret: int, end: nat)
    ensures FirstFailure(status, k, Work(node), end, ret)
    ensures node.blank || node.times <= 0 ==> ret == 0 && end == k
    ensures !node.blank && node.times > 0 ==> FirstFailure(status, k, node.times * node.lines, end, ret)
  {
    ret, end := 0, k;
    if !node.blank && node.times > 0 {
      var t := 0;
      while t < node.times
        invariant 0 <= t <= node.times && FirstFailure(status, k, t * node.lines, end, 0)
      {
        ghost var before := end;
        ret, end := RunLines(node.lines, status, end);
        assert (t + 1) * node.lines == t * node.lines + node.lines;
        FailureJoin(status, k, t * node.lines, before, node.lines, end, ret);
        if ret != 0 {
          Fits(t + 1, node.times, node.lines);
          FailureStays(status, k, (t + 1) * node.lines, (node.times - (t + 1)) * node.lines, end, ret);
          return;
        }
        t := t + 1;
      }
      ret := 0;
    }
  }

  lemma Fits(t: nat, times: nat, lines: nat)
    requires t <= times
    ensures (times - t) * lines >= 0 && t * lines + (times - t) * lines == times * lines
  {
  }

  // --------------------------------------------------------------- jumps

  /** Node `i` is the last one of that name. */
  predicate LastNamed(nodes: seq<Node>, i: nat, name: string)
  {
    i < |nodes| && nodes[i].name == name && forall j :: i < j < |nodes| ==> nodes[j].name != name
  }

  /** After node `u` has ended well or not the script goes on with node `v`: the following one, if it ended
      well and names no successor, and otherwise the last node that bears the name given for the case. */
  predicate JumpsTo(nodes: seq<Node>, u: nat, success: bool, v: nat)
    requires u < |nodes|
  {
    if success && nodes[u].next == "" then v == u + 1
    else if success then LastNamed(nodes, v, nodes[u].next)
    else nodes[u].nextWhenFailed != "" && LastNamed(nodes, v, nodes[u].nextWhenFailed)
  }

  /** No node of the script follows. */
  predicate JumpsOut(nodes: seq<Node>, u: nat, success: bool)
    requires u < |nodes|
  {
    forall v: nat :: v < |nodes| ==> !JumpsTo(nodes, u, success, v)
  }

  /** `cmd_map_`: the last node of that name, if any; unnamed nodes are not entered. */
  function IndexOf(nodes: seq<Node>, name: string): (i: int)
    ensures -1 <= i < |nodes|
    ensures i >= 0 ==> name != "" && LastNamed(nodes, i, name)
    ensures i < 0 ==> name == "" || forall j :: 0 <= j < |nodes| ==> nodes[j].name != name
  {
    var n := |nodes| - 1;
    if n < 0 then -1
    else if nodes[n].name == name && name != "" then n
    else IndexOf(nodes[..n], name)
  }

  /** `get_next_cmd_node_index`. */
  function Next(nodes: seq<Node>, cur: nat, success: bool): (i: int)
    requires cur < |nodes|
    ensures i >= -1
  {
    var name := if success then nodes[cur].next else nodes[cur].nextWhenFailed;
    if name == "" && success then cur + 1 else if name != "" then IndexOf(nodes, name) else -1
  }

  /** `get_next_cmd_node_index` finds that node, or leads out of the script. */
  lemma NextJumps(nodes: seq<Node>, cur: nat, success: bool)
    requires cur < |nodes|
    ensures var i := Next(nodes, cur, success);
            if 0 <= i < |nodes| then JumpsTo(nodes, cur, success, i) else JumpsOut(nodes, cur, success)
  {
  }

  /** There is at most one. */
  lemma JumpUnique(nodes: seq<Node>, u: nat, success: bool, v: nat, w: nat)
    requires u < |nodes| && JumpsTo(nodes, u, success, v) && JumpsTo(nodes, u, success, w)
    ensures v == w
  {
  }

  /** Every jump to a node goes to a later one. */
  predicate Forward(nodes: seq<Node>)
  {
    forall i :: 0 <= i < |nodes| ==> JumpsForward(nodes, i)
  }

  predicate JumpsForward(nodes: seq<Node>, i: nat)
    requires i < |nodes|
  {
    forall v: nat :: v < |nodes| && (JumpsTo(nodes, i, true, v) || JumpsTo(nodes, i, false, v)) ==> v > i
  }

  /** One executed node: which, the commands it ran, its status. */
  datatype Visit = Visit(node: nat, start: nat, end: nat, ret: int)

  /** The visit ran the commands of its node up to the first failure. */
  predicate RanNode(nodes: seq<Node>, status: nat -> int, v: Visit)
  {
    v.node < |nodes| && FirstFailure(status, v.start, Work(nodes[v.node]), v.end, v.ret)
  }

  /** The jump from `u` leads to `v`, which goes on with the next command. */
  predicate LeadsTo(nodes: seq<Node>, u: Visit, v: Visit)
  {
    v.start == u.end && u.node < |nodes| && JumpsTo(nodes, u.node, u.ret == 0, v.node)
  }

  predicate Chained(nodes: seq<Node>, status: nat -> int, vs: seq<Visit>)
  {
    && (forall i :: 0 <= i < |vs| ==> RanNode(nodes, status, vs[i]))
    && (forall i :: 0 < i < |vs| ==> LeadsTo(nodes, vs[i - 1], vs[i]))
    && (vs != [] ==> vs[0].start == 0)
  }

  /** One more visit continues the chain. */
  lemma ChainGrows(nodes: seq<Node>, status: nat -> int, vs: seq<Visit>, v: Visit)
    requires Chained(nodes, status, vs) && RanNode(nodes, status, v)
    requires if vs == [] then v.start == 0 else LeadsTo(nodes, vs[|vs| - 1], v)
    ensures Chained(nodes, status, vs + [v])
  {
  }

  class ExecuteCmderService {
    const nodes: seq<Node>
    var cur: int

    constructor (nodes: seq<Node>)
      ensures this.nodes == nodes && cur == 0
    {
      this.nodes := nodes;
      cur := 0;
    }

    /** A script whose jumps go forward ends, runs each node at most once, and returns the status
        of the last node it ran. */
    method Execute(status: nat -> int) returns (ret: int, visits: seq<Visit>)
      requires Forward(nodes)
      modifies this
      ensures Chained(nodes, status, visits)
      ensures forall i, j :: 0 <= i < j < |visits| ==> visits[i].node < visits[j].node
      ensures ret == if visits == [] then 0 else visits[|visits| - 1].ret
      ensures 0 <= old(cur) < |nodes| ==> visits != [] && visits[0].node == old(cur)
      ensures visits != [] ==> cur == Next(nodes, visits[|visits| - 1].node, ret == 0)
      ensures visits != [] ==> JumpsOut(nodes, visits[|visits| - 1].node, ret == 0)
      ensures visits == [] ==> cur == old(cur)
      ensures !(0 <= cur < |nodes|)
    {
      ret, visits := 0, [];
      var k := 0;
      while 0 <= cur < |nodes|
        invariant Chained(nodes, status, visits)
        invariant visits == [] ==> cur == old(cur) && ret == 0 && k == 0
        invariant visits != [] ==> var last := visits[|visits| - 1];
                    ret == last.ret && k == last.end && cur == Next(nodes, last.node, ret == 0)
        invariant visits != [] && cur >= 0 ==> visits[|visits| - 1].node < cur
        invariant visits != [] ==> visits[0].node == old(cur)
        invariant forall i, j :: 0 <= i < j < |visits| ==> visits[i].node < visits[j].node
        decreases if cur < 0 then 0 else |nodes| - cur
      {
        if visits != [] {
          NextJumps(nodes, visits[|visits| - 1].node, ret == 0);
        }
        var start := k;
        ret, k := RunNode(nodes[cur], status, start);
        ChainGrows(nodes, status, visits, Visit(cur, start, k, ret));
        visits := visits + [Visit(cur, start, k, ret)];
        assert JumpsForward(nodes, cur);
        NextJumps(nodes, cur, ret == 0);
        cur := Next(nodes, cur, ret == 0);
      }
      if visits != [] {
        NextJumps(nodes, visits[|visits| - 1].node, ret == 0);
      }
    }
  }

  // ----------------------------------------------------- repeating commands

  /** The attempts one repetition may make. */
  function Allowance(retry: bool, retryTimes: int): nat { if retry && retryTimes > 1 then retryTimes else 1 }

  /** The calls numbered from `k` up to `end` are one repetition: failures, until one succeeds or
      the allowance is used up. */
  predicate Repetition(status: nat -> int, k: nat, end: nat, allowance: nat, ret: int)
  {
    && k < end <= k + allowance && status(end - 1) == ret
    && (forall j :: k <= j < end - 1 ==> status(j) != 0)
    && (ret != 0 ==> end == k + allowance)
  }

  method RetryExecute(retry: bool, retryTimes: int, status: nat -> int, k: nat) returns (ret: int, end: nat)
    ensures Repetition(status, k, end, Allowance(retry, retryTimes), ret)
    ensures !retry || retryTimes <= 1 ==> end == k + 1
    ensures retry && retryTimes > 1 ==> end <= k + retryTimes && (ret != 0 ==> end == k + retryTimes)
  {
    ret := status(k);
    var current := 1;
    while retry && ret != 0 && current < retryTimes
      invariant 1 <= current <= Allowance(retry, retryTimes) && ret == status(k + current - 1)
      invariant forall j :: k <= j < k + current - 1 ==> status(j) != 0
      decreases retryTimes - current
    {
      ret := status(k + current);
      current := current + 1;
    }
    end := k + current;
  }

  function Successes(status: nat -> int, k: nat, end: nat): nat
    requires k <= end
    decreases end - k
  {
    if k == end then 0 else Successes(status, k, end - 1) + (if status(end - 1) == 0 then 1 else 0)
  }

  lemma {:induction false} NoSuccess(status: nat -> int, k: nat, from: nat, end: nat)
    requires k <= from <= end && forall j :: from <= j < end ==> status(j) != 0
    ensures Successes(status, k, end) == Successes(status, k, from)
    decreases end
  {
    if from < end {
      NoSuccess(status, k, from, end - 1);
    }
  }

  /** The calls before `ends[0]`, those from there up to `ends[1]` and so on are repetitions, all of
      them successful but the last, which has the status `ret`. */
  predicate Repetitions(status: nat -> int, ends: seq<nat>, allowance: nat, ret: int)
  {
    forall i :: 0 <= i < |ends| ==> RepetitionAt(status, ends, i, allowance, ret)
  }

  predicate RepetitionAt(status: nat -> int, ends: seq<nat>, i: nat, allowance: nat, ret: int)
    requires i < |ends|
  {
    var start := if i == 0 then 0 else ends[i - 1];
    Repetition(status, start, ends[i], allowance, if i < |ends| - 1 then 0 else ret)
  }

  lemma OneMoreRepetition(status: nat -> int, ends: seq<nat>, end: nat, allowance: nat, ret: int)
    requires Repetitions(status, ends, allowance, 0)
    requires Repetition(status, if ends == [] then 0 else ends[|ends| - 1], end, allowance, ret)
    ensures Repetitions(status, ends + [end], allowance, ret)
  {
    var more := ends + [end];
    forall i | 0 <= i < |more|
      ensures RepetitionAt(status, more, i, allowance, ret)
    {
      if i < |ends| {
        assert RepetitionAt(status, ends, i, allowance, 0);
      }
    }
  }

  /** `repeat_execute` returns 0 exactly if all repetitions asked for succeeded; otherwise it ends with
      the first that failed, which used up its allowance.  `ends` tells after how many calls each
      repetition ended. */
  method RepeatExecute(times: int, retry: bool, retryTimes: int, status: nat -> int)
      returns (ret: int, calls: nat, ends: seq<nat>)
    ensures Repetitions(status, ends, Allowance(retry, retryTimes), ret)
    ensures calls == if ends == [] then 0 else ends[|ends| - 1]
    ensures |ends| <= if times < 0 then 0 else times
    ensures ret == 0 ==> |ends| == if times < 0 then 0 else times
    ensures ret != 0 ==> ends != []
    ensures times >= 0 ==> calls <= times * Allowance(retry, retryTimes)
    ensures Successes(status, 0, calls) <= if times < 0 then 0 else times
    ensures ret == 0 <==> Successes(status, 0, calls) == if times < 0 then 0 else times
  {
    calls, ret, ends := 0, 0, [];
    var current := 0;
    ghost var a := Allowance(retry, retryTimes);
    while current < times
      invariant 0 <= current == |ends| && (current <= times || current == 0)
      invariant Repetitions(status, ends, a, 0) && calls == if ends == [] then 0 else ends[|ends| - 1]
      invariant calls <= current * a && Successes(status, 0, calls) == current
    {
      ghost var before := calls;
      ret, calls := RetryExecute(retry, retryTimes, status, calls);
      NoSuccess(status, 0, before, calls - 1);
      OneMoreRepetition(status, ends, calls, a, ret);
      ends := ends + [calls];
      assert (current + 1) * a == current * a + a;
      if ret != 0 {
        Fits(current + 1, times, a);
        return;
      }
      current := current + 1;
    }
    ret := 0;
  }
}
