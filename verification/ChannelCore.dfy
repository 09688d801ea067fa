/** The critical sections of `internal::_channel<T, N>` (network/base/channel.h).

    Every function below is the effect of one stretch of code that runs while
    `m_mutex` is held, on the value of the queue and of the five flags.  The class
    `Channel` performs the same stretches on mutable fields, with the assertions of
    the source in place, and is proved to have exactly these effects.
  */
module ChannelCore {
  import opened Wrappers

  /** Stand-in for the element type `T`; no operation looks inside a payload. */
  type Payload = int

  /** A queued pair: the enqueuing thread and the value. */
  datatype Item = Item(sender: nat, value: Payload)

  datatype Chan = Chan(
    queue: seq<Item>,
    sendDone: bool,
    trySendDone: bool,
    recvReady: bool,
    trySendReady: bool,
    tryRecvReady: bool)

  const EmptyChan := Chan([], true, true, false, false, false)

  predicate IsFull(n: nat, c: Chan) { |c.queue| > n }

  predicate IsTryReady(c: Chan) { c.tryRecvReady && c.trySendReady }

  /** The wait predicate of `m_send_begin_cv`. */
  predicate CanEnqueue(n: nat, c: Chan) { c.sendDone && c.trySendDone && !IsFull(n, c) }

  /** First critical section of `_send`, after its wait. */
  function Enqueue(c: Chan, x: Item): Chan
  {
    c.(queue := c.queue + [x], sendDone := false)
  }

  /** Second critical section of `_send`, after its wait for `!is_full()`. */
  function Acknowledge(c: Chan): Chan { c.(sendDone := true) }

  function PreBlockingRecv(c: Chan): Chan { c.(recvReady := true) }

  function PostBlockingRecv(c: Chan): Chan
    requires c.queue != []
  {
    Chan(c.queue[1..], c.sendDone, true, false, false, false)
  }

  predicate TrySendRefused(n: nat, c: Chan)
  {
    !c.sendDone || !c.trySendDone || IsFull(n, c) || (n - |c.queue| == 0 && !c.recvReady)
  }

  function TrySend(n: nat, c: Chan, x: Item): Chan
  {
    if TrySendRefused(n, c) then c.(trySendReady := true)
    else c.(trySendReady := true, trySendDone := 0 < n - |c.queue|, queue := c.queue + [x])
  }

  function TryRecv(c: Chan): Chan
  {
    if c.queue == [] then c.(tryRecvReady := true)
    else Chan(c.queue[1..], c.sendDone, true, c.recvReady, false, false)
  }

  /** What the mutex protects between critical sections. */
  predicate FlagsOk(n: nat, c: Chan)
  {
    && |c.queue| <= n + 1
    && (c.sendDone || c.trySendDone)
    && (IsFull(n, c) ==> !c.sendDone || !c.trySendDone)
    && (!c.trySendDone ==> IsFull(n, c))
  }

  class Channel {
    const n: nat
    var queue: seq<Item>
    var isSendDone: bool
    var isTrySendDone: bool
    var isRecvReady: bool
    var isTrySendReady: bool
    var isTryRecvReady: bool

    ghost function Contents(): Chan
      reads this
    {
      Chan(queue, isSendDone, isTrySendDone, isRecvReady, isTrySendReady, isTryRecvReady)
    }

    ghost predicate Valid()
      reads this
    {
      FlagsOk(n, Contents())
    }

    constructor (n: nat)
      ensures Valid() && this.n == n && Contents() == EmptyChan
    {
      this.n := n;
      queue := [];
      isSendDone, isTrySendDone := true, true;
      isRecvReady, isTrySendReady, isTryRecvReady := false, false, false;
    }

    method SendEnqueue(x: Item)
      requires Valid() && CanEnqueue(n, Contents())
      modifies this
      ensures Valid() && Contents() == Enqueue(old(Contents()), x)
    {
      assert isSendDone;
      assert isTrySendDone;
      assert !IsFull(n, Contents());
      queue := queue + [x];
      isSendDone := false;
    }

    method SendAcknowledge()
      requires Valid() && !IsFull(n, Contents())
      modifies this
      ensures Valid() && Contents() == Acknowledge(old(Contents()))
    {
      isSendDone := true;
    }

    method RecvPrepare()
      requires Valid()
      modifies this
      ensures Valid() && Contents() == PreBlockingRecv(old(Contents()))
    {
      isRecvReady := true;
    }

    /** Takes the front element; `toEnd` selects the condition variable to notify. */
    method RecvFinish() returns (x: Item, toEnd: bool)
      requires Valid() && queue != []
      modifies this
      ensures Valid() && Contents() == PostBlockingRecv(old(Contents()))
      ensures x == old(queue)[0] && toEnd == !old(isSendDone)
    {
      x := queue[0];
      assert !IsFull(n, Contents()) || !isSendDone || !isTrySendDone;
      assert isTrySendDone || isSendDone;
      queue := queue[1..];
      assert !IsFull(n, Contents());
      isTrySendDone := true;
      isRecvReady := false;
      isTryRecvReady := false;
      isTrySendReady := false;
      toEnd := !isSendDone;
    }

    method TrySendLocked(x: Item) returns (ok: bool)
      requires Valid()
      modifies this
      ensures Valid() && Contents() == TrySend(n, old(Contents()), x)
      ensures ok == !TrySendRefused(n, old(Contents()))
    {
      isTrySendReady := true;
      if !isSendDone || !isTrySendDone || |queue| > n || (n - |queue| == 0 && !isRecvReady) {
        return false;
      }
      assert isSendDone;
      assert isTrySendDone;
      assert !IsFull(n, Contents());
      isTrySendDone := 0 < n - |queue|;
      assert isTrySendDone || isRecvReady;
      queue := queue + [x];
      return true;
    }

    method TryRecvLocked() returns (x: Option<Item>, toEnd: bool)
      requires Valid()
      modifies this
      ensures Valid() && Contents() == TryRecv(old(Contents()))
      ensures x == if old(queue) == [] then None else Some(old(queue)[0])
      ensures x.Some? ==> toEnd == !old(isSendDone)
    {
      isTryRecvReady := true;
      if queue == [] {
        return None, false;
      }
      assert !IsFull(n, Contents()) || !isSendDone || !isTrySendDone;
      assert isTrySendDone || isSendDone;
      x := Some(queue[0]);
      queue := queue[1..];
      assert !IsFull(n, Contents());
      isTrySendDone := true;
      isTryRecvReady := false;
      isTrySendReady := false;
      toEnd := !isSendDone;
    }
  }
}
