# Verification of the network library's core

A Dafny model of the parts of the library that hold protocol state or give meaning to bytes and text,
with proofs of what they promise. Each component has a specification on values (functions and step
relations), the code's own imperative form proved against it (classes and methods with loops), and
theorems over all inputs, all runs or all reachable states.

| component | files | source |
|---|---|---|
| Go-style channel | `ChannelCore`, `ChannelRuns`, `ChannelTheorems`, `ChannelHistory`, `Select` | `network/base/channel.h` |
| Signal ring | `SignalSpec`, `SignalRing`, `NestedEmission` | `network/msgbus/msg_signal.hpp` |
| Event dispatcher | `DispatcherCore`, `DispatcherAgreement`, `DispatcherEmit`, `DispatcherTheorems` | `network/msgbus/event.hpp` |
| Binary (gos) serialization | `GosCodec`, `GosWire`, `GosRoundTrip`, `GosShape`, `GosForeign`, `GosKeyless`, `GosStream` | `network/serialize/serializer.hpp`, `gos_adapter.hpp`, `network/base/memory_stream.hpp` |
| Thread pool | `PoolCore`, `PoolRuns`, `PoolTheorems`, `PoolHistory` | `network/thread/thread_pool.hpp` |
| Timer manager | `TimerCore`, `TimerRuns` | `network/timer/timer_manager.hpp` |
| SQL conditions | `SqlCondition` | `network/orm/expr.hpp`, `smart_db.hpp` |
| Command scripts | `Script` | `network/cmder/execute_cmder_service.hpp`, `base_repeat_cmder.hpp` |

`dafny verify dfyconfig.toml` checks the whole project.

How the parts are modelled:

- **Concurrency.** A thread is a program counter. A critical section is one atomic step, every
  `notify_one` or `notify_all` a later step of its own, a blocked thread may wake spuriously, and any
  number of threads interleave in any way. A class performs each critical section on mutable fields
  and is proved to have exactly the effect the step relation uses.
- **The signal ring** is a ring of heap objects with reference counts; deletion is a mark that every
  method must find unset before it reads a node. Callbacks are arbitrary finite scripts of connects,
  disconnects and further emissions; in every state each node ever allocated has exactly the
  references of the ring and of the emissions that are at it, and is deleted exactly if there are
  none. `NestedEmission` is the same on values; `SignalSpec` is its special case in which callbacks
  do not emit (`NestedEmission.FlatIsEmission`), and the one the dispatcher uses.
- **Serialization** works on explicit type descriptors and values; `Encode` and `Decode` are what
  `WriteObject` and `ReadObject` do, down to the bytes and the quirks of the stream.
- **Environment.** A timer's wait may expire at any moment. Clock readings, the outcome of a try, the
  status of a command and the behaviour of callbacks are parameters over which every theorem
  quantifies.

Where the code and what is said about it differ, the code is kept, the difference is shown by a
concrete case, and the exact condition under which the promise holds is proved:

- `msg_signal.hpp` lines 250-252 say that callbacks may be removed during an emission and that
  recursive `emit` calls are safe. A callback that unlinks itself and then its successor sends the
  emission to a deleted node: this can happen in every signal with two handlers
  (`SignalSpec.SelfThenNextDangles`) and to every event with two subscribers
  (`DispatcherTheorems.SelfThenNextDangles`, reached in `TwoSubscribersDangle`);
  `SignalSpec.EmitSafeExact` and `DispatcherTheorems.EmitSafe` say exactly when it does. With nested
  emissions two handlers that each remove only themselves are enough
  (`NestedEmission.OneShotsCollide`); `NestedEmission.NestedSafeExact` gives the exact condition, for
  any collectors. Connecting and emitting without disconnecting is always safe
  (`NestedEmission.RecursionAloneSafe`).
- The thread-identity assertion of the channel holds in every run exactly when the channel has no
  buffer and `try_send` is not used (`ChannelTheorems.IdentityAssertExact`); without a buffer it fails
  in the run of `ChannelTheorems.IdentityAssertFailsWithTrySend`.
- The try-handshake assertion of the channel holds in every run exactly when not both try operations
  are used (`ChannelTheorems.TryReadyExact`); `ChannelTheorems.TryReadyCanFail` gives a run.
- `subscribe` twice for one family leaves a connection that no table knows
  (`DispatcherAgreement.SubscribeExact`).
- Pairs and maps keep their keys in the binary format exactly in the well-shaped types
  (`GosShape.ShapeExact`). Inside a container they lose them (`GosKeyless.PairsLoseKeys`), and of a map
  no more than the first value is left (`GosKeyless.MapsCollapse`).
- Texts survive exactly without a zero byte, and up to the first one otherwise
  (`GosRoundTrip.TextExact`).
- An empty text at the very end of a stream is read but not consumed
  (`GosRoundTrip.EmptyTextUnread`); reading leaves exactly what followed in all other cases
  (`GosRoundTrip.ConsumesExact`, `GosShape.InjectionConsumesExact`).
- `thread_pool::close` can return before an accepted task has run, exactly in cycles started with no
  worker (`PoolTheorems.CloseExact`).
- `stop` or `close` inside a timer's own callback holds exactly if the callback then returns false and
  the timer is not a fixed one (`TimerRuns.OwnCallbackExact`).

## Model

| member | source | states |
|---|---|---|
| ChannelCore.Channel.SendEnqueue | network/base/channel.h:744-765 | first critical section of a blocking send: with the wait predicate true the three asserts hold, and the new queue and flags are those of the step relation |
| ChannelCore.Channel.SendAcknowledge | network/base/channel.h:766-786 | second critical section, after the receiver has made room |
| ChannelCore.Channel.RecvPrepare | network/base/channel.h:69-76 | a blocking receiver announces itself before it waits |
| ChannelCore.Channel.RecvFinish | network/base/channel.h:83-144 | takes the oldest element, resets the flags, chooses the condition variable to notify; the asserts inside hold |
| ChannelCore.Channel.TrySendLocked | network/base/channel.h:653-693 | succeeds exactly when not refused, with the flag effects in both cases |
| ChannelCore.Channel.TryRecvLocked | network/base/channel.h:695-742 | returns the oldest element or none, with the flag effects in both cases |
| ChannelRuns.StepInv | network/base/channel.h:69-144 | every step of every thread keeps the flag, wake-up and history invariants |
| ChannelRuns.ReachableInv | network/base/channel.h:653-831 | the invariants hold in every reachable state, for any capacity, any number of threads and any mix of operations |
| ChannelTheorems.FifoAndCapacity | network/base/channel.h:53-56 | sent history is received history followed by the queue; the queue never exceeds N+1; what the sent history is, `ChannelHistory.SentExactly` says |
| ChannelHistory.SentExactly | network/base/channel.h:744-831 | in every run the values enqueued for a thread, followed by the one it still waits to enqueue, are exactly the arguments of its `send` calls and of its `try_send` calls that return true, in order |
| ChannelHistory.ReceivedInOrder | network/base/channel.h:83-144 | what has been received from a thread, then what is queued, then what is pending is exactly the list of its arguments: nothing is lost, altered, repeated or overtaken |
| ChannelHistory.OnlyThreadsSend | network/base/channel.h:744-765 | every item enqueued belongs to one of the threads |
| ChannelHistory.TrySendExact | network/base/channel.h:653-693 | in every reachable state `try_send` succeeds iff no send is under way and fewer than N elements are queued, or exactly N and a receiver has announced itself; it then enqueues its argument |
| ChannelHistory.DequeueExact | network/base/channel.h:83-144 | an attempt to receive takes the front element and nothing else iff there is one |
| ChannelHistory.FlagsRecordRun | network/base/channel.h:53-76 | in every run the three ready flags say which calls there were since an element was last taken |
| ChannelTheorems.FlagMeaning | network/base/channel.h:744-786 | exactly one sender is between enqueue and acknowledgement iff `m_is_send_done` is false; the done flags are never both false; a full queue implies one is; the receiver flags imply a receiver |
| ChannelTheorems.AssertsNeverFire | network/base/channel.h:83-144 | the flag asserts of every critical section hold whenever it can be entered in any reachable state |
| ChannelTheorems.SendReturnsAfterReceives | network/base/channel.h:766-786 | the send of the k-th value returns only after k-N values were received; without a buffer, only after its own value was taken |
| ChannelTheorems.IdentityAssertExact | network/base/channel.h:788-831 | over the runs that use the allowed try operations, the receiver-is-another-thread assert can never fail iff N = 0 and `try_send` is not allowed |
| ChannelTheorems.IdentityAssertFailsWithTrySend | network/base/channel.h:788-831 | without a buffer it fails in a concrete run with one `try_send` |
| ChannelTheorems.TryReadyExact | network/base/channel.h:58-62 | over the runs that use the allowed try operations, the try-handshake assert can never fail iff not both are allowed |
| ChannelTheorems.TryReadyCanFail | network/base/channel.h:58-62 | it fails in a concrete run of one `try_recv` followed by one `try_send`, for every capacity |
| ChannelTheorems.NoLostWakeup | network/base/channel.h:119-143 | blocked receivers imply enough notifications or woken receivers for the queue; a sender blocked with its predicate true implies one for its variable |
| ChannelTheorems.NoDeadlock | network/base/channel.h:655-786 | when nothing can run and nothing is owed, receivers are blocked only on an empty channel without blocked senders, and senders only on a full one |
| ChannelTheorems.QuiescentIffStuck | network/base/channel.h:655-786 | that state is exactly the one in which no internal step is enabled |
| ChannelTheorems.Progress | network/base/channel.h:655-786 | from any reachable state at most 8 internal steps per thread lead, in any order, to a state without deadlock |
| Select.TryOnce | network/base/channel.h:589-598 | tries distinct cases, from the random one on and cyclically; false only after all n failed; true when exactly the last one tried succeeded |
| Select.Wait | network/base/channel.h:600-610 | goes on cyclically from the case after the random one and stops at the first success; any n attempts in a row try all n cases |
| SignalRing.SignalLink.Unlink | network/msgbus/msg_signal.hpp:97-103 | neighbours are joined, one reference is given back, the node is deleted iff that was the last |
| SignalRing.SignalLink.AddBefore | network/msgbus/msg_signal.hpp:104-112 | a new node with one reference stands between the node and its predecessor |
| SignalRing.ProtoSignal.EnsureRing | network/msgbus/msg_signal.hpp:139-147 | creates a head with two references when there is none |
| SignalRing.ProtoSignal.constructor | network/msgbus/msg_signal.hpp:151-156 | an empty ring, with a callable head iff a default callback is given |
| SignalRing.ProtoSignal.Connect | network/msgbus/msg_signal.hpp:169-172 | appends a handler in connection order and returns its id, inside any number of emissions as well; every reference count stays exact |
| SignalRing.ProtoSignal.Disconnect | network/msgbus/msg_signal.hpp:126-134 | true iff the id is a linked handler; that node alone leaves the ring, is deleted unless an emission is at it, and keeps its successor then |
| SignalRing.ProtoSignal.Advance | network/msgbus/msg_signal.hpp:190-193 | the reference of the innermost emission moves to the next node, and the old node is deleted iff it was unlinked and no other emission is at it |
| SignalRing.ProtoSignal.DeletedIffDead | network/msgbus/msg_signal.hpp:190-193 | the node an emission would step to is a deleted object iff the model on values counts it as gone |
| SignalRing.ProtoSignal.Emit | network/msgbus/msg_signal.hpp:180-198 | with callbacks that connect, disconnect and emit again to any depth, makes the calls and leaves the ring of `NestedEmission.Emitted` (which `EmissionCalls` and `EmissionInside` describe), restores every reference count, leaks nothing, touches no deleted node |
| NestedEmission.FromOutside | network/msgbus/msg_signal.hpp:180-198 | outside every callback the emission of `SignalRing.ProtoSignal.Emit` is the outermost emission of `NestedEmission` |
| SignalRing.ProtoSignal.Destroy | network/msgbus/msg_signal.hpp:158-166 | every node ever allocated is deleted |
| SignalSpec.EmitSafeExact | network/msgbus/msg_signal.hpp:97-103 | an emission steps to a deleted node iff some callback unlinks its own node and then that node's frozen successor, and the collector goes on |
| SignalSpec.EmitCallsExactly | network/msgbus/msg_signal.hpp:180-198 | calls follow connection order without repetition; a handler present at the start is called iff it has a function, no earlier callback disconnects it and the emission gets there; the final ring is the start ring after all actions |
| SignalSpec.EmitDoesTurns | network/msgbus/msg_signal.hpp:180-198 | the callbacks do what their turns say, each on the ring the one before leaves, and the collector ends the emission iff the turn of the last visit says so |
| SignalSpec.SelfThenNextDangles | network/msgbus/msg_signal.hpp:250-252 | in every signal with two handlers, the first of which has a function, there are callbacks that send the emission to a deleted node |
| NestedEmission.NestedSafeExact | network/msgbus/msg_signal.hpp:250-252 | with emissions nested to any depth and any collectors, no deleted node is reached iff no callback disconnects the node at which a running emission, now at an unlinked node and going on, would arrive next, unless an emission further out is at that node |
| NestedEmission.RecursionAloneSafe | network/msgbus/msg_signal.hpp:250-252 | emissions nested in any way whose callbacks disconnect nothing never reach a deleted node |
| NestedEmission.EmissionCalls | network/msgbus/msg_signal.hpp:180-198 | every emission, at whatever depth it is made, calls handlers in connection order, at most once and only while linked; of the handlers connected when it starts exactly those that have a function, that the calls before leave connected and before which its collector does not stop it |
| NestedEmission.NestedCalls | network/msgbus/msg_signal.hpp:180-198 | the same for the outermost emission |
| NestedEmission.ActsAppend | network/msgbus/msg_signal.hpp:180-198 | what a callback does is what its acts do one after the other, each from the memory the ones before leave |
| NestedEmission.EmissionInside | network/msgbus/msg_signal.hpp:180-198 | an emission anywhere in a callback takes place: it starts with the memory the acts before it leave, makes the calls `EmissionCalls` says, and the acts after it start with the memory it leaves |
| NestedEmission.ActionInside | network/msgbus/msg_signal.hpp:180-198 | so does a connect or disconnect anywhere in a callback |
| NestedEmission.EmissionDoesTurns | network/msgbus/msg_signal.hpp:180-198 | the invocations of an emission do what its turns say, one after the other, nothing else happens to the ring, and the collector ends it iff the turn of the last invocation says so |
| NestedEmission.FlatIsEmission | network/msgbus/msg_signal.hpp:180-198 | with callbacks that do not emit, nested emission and the single emission of `SignalSpec` have the same calls, ring and ending |
| NestedEmission.NestedNoLeak | network/msgbus/msg_signal.hpp:180-198 | after it nothing is held, every unlinked node is deleted and none comes back |
| NestedEmission.OneShotsCollide | network/msgbus/msg_signal.hpp:250-252 | two handlers that each remove themselves, the first emitting again, make the outer emission reach a deleted node |
| DispatcherCore.MsgDispatcher.Subscribe | network/msgbus/event.hpp:118-126 | connects a wrapper and enters the connection unless the family is entered already |
| DispatcherCore.MsgDispatcher.Unsubscribe | network/msgbus/event.hpp:134-146 | cuts the entered connection and erases the entry |
| DispatcherCore.MsgDispatcher.UnsubscribeAll | network/msgbus/event.hpp:148-166 | cuts every entered connection, in whatever order the table is walked |
| DispatcherCore.BaseReceiver.Destroy | network/msgbus/event.hpp:56-63 | so does the destructor |
| DispatcherCore.MsgDispatcher.Ensure | network/msgbus/event.hpp:227-233 | the handler list grows to the family and gets a signal on first use; all others stay |
| DispatcherAgreement.RunAgrees | network/msgbus/event.hpp:118-166 | after any history in which receivers subscribe at most once per family, ring nodes are exactly table entries, and stand in subscription order as a list kept by hand |
| DispatcherAgreement.SubscribeExact | network/msgbus/event.hpp:118-126 | subscribing keeps the agreement iff the receiver is not subscribed to that family |
| DispatcherEmit.DeliverIsEmission | network/msgbus/event.hpp:168-182 | delivering an event, with callbacks that change the dispatcher, is an emission of the family's ring |
| DispatcherEmit.OnlySubscribersCalled | network/msgbus/event.hpp:168-182 | every receiver called exists and is subscribed at that moment |
| DispatcherTheorems.EmitReaches | network/msgbus/event.hpp:168-182 | a receiver subscribed at the start is called iff no earlier callback unsubscribes or destroys it and the delivery is not cut short |
| DispatcherTheorems.EmitDoesScripts | network/msgbus/event.hpp:168-182 | the callbacks of a delivery run their scripts, one after the other, each on the state the one before leaves, and nothing else happens, except that the event's signal is created if there is none |
| DispatcherTheorems.EmitSafe | network/msgbus/event.hpp:168-182 | the delivery reaches a deleted node iff a callback unsubscribes its own receiver and then the next one |
| DispatcherTheorems.SelfThenNextDangles | network/msgbus/event.hpp:168-182 | whenever a family has two subscribers, the first can send the delivery to a deleted node by unsubscribing itself and then the second |
| DispatcherTheorems.TwoSubscribersDangle | network/msgbus/event.hpp:118-182 | two receivers that subscribe once each bring that about |
| DispatcherTheorems.EventReachesSubscribers | network/msgbus/event.hpp:168-182 | after any polite history an event reaches exactly the family's subscribers, each once, in subscription order |
| GosWire.WireExact | network/serialize/serializer.hpp:38-204 | bytes are the encoding of a value iff they are laid out as the format says: a number as its object bytes, a text after its length in two bytes lowest first, an optional after a flag that is 1 iff it is null, a container after its count, and fields, items, elements and entries in order |
| GosWire.CountExact | network/serialize/gos_adapter.hpp:22 | four bytes are a written count n iff they add up to n with weights 1, 256, 65536 and 16777216 from the first on, or from the last on in a big-endian adapter |
| GosWire.TextExactly | network/base/memory_stream.hpp:234-243 | bytes are a written text iff the first two add up to its length with weights 1 and 256 and the text follows |
| GosRoundTrip.RoundTrip | network/serialize/gos_adapter.hpp:188-401 | for every well-shaped type and value, reading what was written gives the value and leaves what followed, except for an empty text at the very end, for both endianness settings |
| GosRoundTrip.ConsumesExact | network/serialize/gos_adapter.hpp:107 | exactly what followed is left iff something followed or what was written does not end with an empty text |
| GosRoundTrip.EmptyTextUnread | network/serialize/gos_adapter.hpp:107 | an empty text alone is read back and leaves its two length bytes |
| GosRoundTrip.TextExact | network/base/memory_stream.hpp:317-340 | a text of legal length comes back up to its first zero byte, so that it survives iff it holds none |
| GosRoundTrip.LengthBack | network/serialize/gos_adapter.hpp:82-88 | element counts survive under both byte orders |
| GosShape.ShapeExact | network/serialize/serializer.hpp:186-198 | the well-shaped types are exactly those all of whose values survive |
| GosKeyless.PairsLoseKeys | network/serialize/gos_adapter.hpp:257-261 | a list of pairs comes back with the second halves in order and with value-initialized first ones |
| GosKeyless.MapsCollapse | network/serialize/gos_adapter.hpp:389-394 | a map inside a container comes back with no more than its first value, under the value-initialized key, a multimap with all of them |
| GosKeyless.DefaultInitial | network/serialize/gos_adapter.hpp:241-243 | a value-initialized object has zero numbers, empty texts and containers and no optionals, in all its parts |
| GosForeign.ListAsSet | network/serialize/gos_adapter.hpp:263-278 | a list read as a set keeps each element once, in the order of first occurrence |
| GosForeign.ListAsMultiset | network/serialize/gos_adapter.hpp:263-278 | read as a multiset it keeps all |
| GosForeign.MultimapAsMap | network/serialize/gos_adapter.hpp:227-247 | a multimap read as a map keeps exactly the first entry of each key |
| GosForeign.CountRead | network/serialize/gos_adapter.hpp:82-88 | any four bytes are read as a signed int in the adapter's byte order and converted to `size_t` modulo 2^64 |
| GosForeign.FlagRead | network/serialize/gos_adapter.hpp:365-377 | an optional is read iff its flag byte is 0 |
| GosForeign.TooShort | network/base/memory_stream.hpp:179-186 | a stream that ends too early leaves a number or a text as it was and keeps its bytes |
| GosForeign.Exhausted | network/serialize/gos_adapter.hpp:82-88 | from an exhausted stream every container reads as empty, and an optional as present |
| GosShape.Injection | network/serialize/gos_adapter.hpp:147-186 | a handler gets the packed arguments in order at its wire parameters and the side values at the others; the packed list is consumed, except for an empty text at the very end |
| GosShape.InjectionByType | network/traits/traits.hpp:310-340 | which parameters are side values is decided by their types: each gets the first side value of its type, if there is one, and otherwise the client's next argument |
| GosShape.InjectionConsumesExact | network/serialize/gos_adapter.hpp:147-186 | exactly the packed list is consumed iff something follows it or it does not end with an empty text |
| GosStream.MemoryStream.ReadString | network/serialize/gos_adapter.hpp:107 | reads a text as the specification says, including the unread empty text at the end |
| GosStream.Serializer.Serialize | network/serialize/serializer.hpp:29-35 | appends exactly the encoding to the stream, which is laid out as `GosWire.WireExact` says |
| GosStream.Serializer.WriteObject | network/serialize/serializer.hpp:38-204 | so does every overload, in the mode it is given |
| GosStream.Serializer.WriteOnlyArray | network/serialize/serializer.hpp:141-150 | the loop over the elements writes them one after another |
| GosStream.Serializer.WriteEntries | network/serialize/serializer.hpp:77-91 | the loop over the entries of a map |
| GosStream.Deserializer.ReadObject | network/serialize/gos_adapter.hpp:188-401 | every overload yields the decoded value and advances the stream to what is left |
| GosStream.Deserializer.ReadArray | network/serialize/gos_adapter.hpp:280-347 | the counted loop reads as many elements as announced |
| GosStream.Deserializer.ReadSet | network/serialize/gos_adapter.hpp:263-278 | the counted loop inserts what it reads, into a set or a multiset |
| GosStream.Deserializer.ReadMap | network/serialize/gos_adapter.hpp:227-247 | the counted loop inserts each entry, into a map unless its key is present |
| GosStream.Deserializer.GetTuple | network/serialize/gos_adapter.hpp:147-186 | builds the handler's arguments from the stream and, by type, from the side tuple |
| GosStream.Transfer | network/serialize/serializer.hpp:29-35 | a value of a well-shaped type written to a stream and read back is the same value |
| GosStream.Call | network/serialize/gos_adapter.hpp:147-186 | arguments packed by a client reach the handler in their places, side values go where their types stand, and what stays unread is nothing but a final empty text |
| PoolCore.ThreadPool.WorkerSection | network/thread/thread_pool.hpp:57-68 | a worker blocks, exits or takes the front task, exactly as the wait predicate and queue say |
| PoolCore.ThreadPool.EnqueueSection | network/thread/thread_pool.hpp:88-94 | accepts at the back of the queue iff not stopped |
| PoolCore.ThreadPool.CloseSection | network/thread/thread_pool.hpp:103-106 | sets `stop` and nothing else |
| PoolRuns.StepInv | network/thread/thread_pool.hpp:48-111 | every step keeps history, wake-up and control invariants |
| PoolTheorems.OrderAndConservation | network/thread/thread_pool.hpp:57-97 | tasks are taken in acceptance order, and accepted = completed + running + queued with multiplicities, over any number of init/close cycles |
| PoolHistory.AcceptedExactly | network/thread/thread_pool.hpp:75-97 | in every run the accepted tasks are exactly those passed to the calls of `enqueue` that return, in order |
| PoolHistory.EnqueueExact | network/thread/thread_pool.hpp:75-97 | an uninterrupted `enqueue` is accepted iff the pool is started and has workers; its task then stands at the back of the queue, and otherwise nothing changes |
| PoolHistory.WorkersExactly | network/thread/thread_pool.hpp:48-111 | in every run, once `init(k)` on a stopped pool has finished the pool runs with exactly k workers until `close`, which leaves none |
| PoolHistory.SpawnRun | network/thread/thread_pool.hpp:53-71 | `init(k)` can always run to its end, with k more workers |
| PoolTheorems.NoLostTask | network/thread/thread_pool.hpp:75-97 | with a worker and queued tasks, some worker is awake or a notification is owed |
| PoolTheorems.CloseCompletes | network/thread/thread_pool.hpp:99-111 | when `close` has joined the workers every accepted task is completed |
| PoolTheorems.CloseExact | network/thread/thread_pool.hpp:75-111 | that holds in all runs iff the cycle has at least one worker |
| PoolTheorems.ClosedMeansClosed | network/thread/thread_pool.hpp:61-65 | once a worker has exited nothing is accepted until the next `init` |
| PoolTheorems.Progress | network/thread/thread_pool.hpp:48-111 | without new requests the pool comes to rest after boundedly many steps, `close` has returned and the tasks are done |
| TimerCore.TimerInfo.Start | network/timer/timer_manager.hpp:218-231 | pending waits end with an error, one wait is armed, a fixed timer's due time moves on |
| TimerCore.TimerInfo.Stop | network/timer/timer_manager.hpp:233-238 | pending waits end with an error and the status is canceled |
| TimerCore.TimerInfo.CalcNextTime | network/timer/timer_manager.hpp:267-275 | adds the period, but not behind the clock |
| TimerCore.FixedSchedule | network/timer/timer_manager.hpp:267-275 | after n starts the due time is the maximum of the undisturbed schedule and of each clock reading advanced by the periods since |
| TimerCore.NoDrift | network/timer/timer_manager.hpp:267-275 | never behind the clock, never backwards, and on the undisturbed schedule iff no start was late on it |
| TimerCore.FixedTimerRun | network/timer/timer_manager.hpp:126-132 | a timer created with a due time follows that schedule through any number of starts |
| TimerRuns.OneWait | network/timer/timer_manager.hpp:218-238 | in every run each timer has at most one armed wait, a stopped one none |
| TimerRuns.StopIsFinal | network/timer/timer_manager.hpp:158-195 | a stop, a close or `stop_all_timer` outside every callback is followed by no handler-driven call until the next start, whatever is queued |
| TimerRuns.StopInCallbackIsFinal | network/timer/timer_manager.hpp:158-195 | so is one inside the callback of another timer |
| TimerRuns.CloseIsFinal | network/timer/timer_manager.hpp:207-216 | a close is followed by none at all |
| TimerRuns.CloseInCallbackIsFinal | network/timer/timer_manager.hpp:207-216 | so is a close inside the callback of another timer |
| TimerRuns.OwnCallbackExact | network/timer/timer_manager.hpp:248-265 | inside the own callback a stop or close holds iff the callback returns false and the timer is not fixed |
| TimerRuns.KeepsTicking | network/timer/timer_manager.hpp:248-265 | a ticking timer that nobody stops and whose callback goes on always has a wait armed or a successful completion queued |
| TimerRuns.CreatedTimer | network/timer/timer_manager.hpp:119-132 | a new timer is listed, idle and has its period; one from `set_fix_timer` is due at now + ms, one from `set_timer` has no due time |
| TimerRuns.ClockReads | network/timer/timer_manager.hpp:267-275 | the clock reads what the environment set it to last; no operation of the program moves it |
| TimerRuns.StartStarts | network/timer/timer_manager.hpp:177-231 | starting a listed timer, stopped or not, aborts its waits, arms exactly one, which may expire, and makes it tick; nothing else changes; starting any other does nothing |
| TimerRuns.AutoStartExact | network/timer/timer_manager.hpp:167-175 | a proxy that goes out of scope does the same iff the timer is listed and not canceled |
| TimerRuns.StartedKeepsTicking | network/timer/timer_manager.hpp:218-265 | after a start, as long as nobody stops the timer and its callback goes on, it keeps ticking through every run |
| TimerRuns.TickingFires | network/timer/timer_manager.hpp:248-265 | from every state in which a timer ticks, its callback can run within two events |
| TimerRuns.CallsNeedExpiries | network/timer/timer_manager.hpp:248-265 | in every run a timer is called at most as often as waits of it have expired: aborted ones never lead to a call |
| TimerRuns.StopStops | network/timer/timer_manager.hpp:187-195 | stopping a listed timer switches off that timer and nothing else and leaves it listed |
| TimerRuns.CloseCloses | network/timer/timer_manager.hpp:207-216 | closing one also takes it, and no other, off the list |
| TimerRuns.StopAllStops | network/timer/timer_manager.hpp:158-165 | `stop_all_timer` switches off exactly the listed timers |
| TimerRuns.StepIndependent | network/timer/timer_manager.hpp:158-265 | operations, waits and callbacks of other timers do not touch a timer, unless such a callback operates on it |
| SqlCondition.ReadBack | network/orm/expr.hpp:270-292 | the tokens of a condition read back, under SQL precedence, as the same tree |
| SqlCondition.PrintedApart | network/orm/expr.hpp:270-292 | different conditions have different tokens |
| SqlCondition.Balanced | network/orm/expr.hpp:282-292 | parentheses are balanced |
| SqlCondition.Proxy.Where | network/orm/smart_db.hpp:24-31 | chains a further condition to the clause |
| SqlCondition.Query | network/orm/smart_db.hpp:88-95 | any number of calls build the chained clause |
| SqlCondition.WhereSelects | network/orm/smart_db.hpp:88-95 | the clause has the three-valued truth value of the disjunction, so a row is selected iff one condition is true of it |
| SqlCondition.ConnectivesSelect | network/orm/expr.hpp:270-292 | the printed conjunction selects a row iff both operands do, the printed disjunction iff one does |
| SqlCondition.ComparisonSelects | network/orm/expr.hpp:270-292 | a printed comparison selects a row iff it is true of it |
| Script.RunNode | network/cmder/execute_cmder_service.hpp:71-120 | a node that is not blank runs its lines `times` times and ends with the first failing line's status, or 0 if none of the `times * lines` fails; a blank one runs nothing |
| Script.ExecuteCmderService.Execute | network/cmder/execute_cmder_service.hpp:53-63 | a script with forward jumps ends, runs each node at most once and returns the status of the last; after success it goes on with the following node or, if `next` is set, with the last node of that name, after failure with the last node named by `nextWhenFailed`, and it ends iff there is no such node |
| Script.NextJumps | network/cmder/execute_cmder_service.hpp:138-155 | the index found is the node described in terms of the fields and names of the nodes, and leads out of the script iff there is none |
| Script.JumpUnique | network/cmder/execute_cmder_service.hpp:138-155 | at most one node is so described |
| Script.RetryExecute | network/cmder/base_repeat_cmder.hpp:60-76 | repeats failures and stops at a success, after at most `retryTimes` calls if retrying and one otherwise, all of which are used up on failure |
| Script.RepeatExecute | network/cmder/base_repeat_cmder.hpp:34-58 | the calls split into at most `times` repetitions within their allowance, all successful but perhaps the last; 0 iff every repetition asked for succeeded |

## Left out

- The unlocked reads of `stop` and `workers` in the thread pool are single atomic reads in the model; that they are data races in C++ is not expressed.
- Exceptions, moves and copies of elements, real time, and the timed variants of the channel and of `select::wait`.
- Channel: a run that ends because the channel object is destroyed while threads wait.
- Select.TryOnce: `size_t` has 64 bits; with 32 bits the random start plus the index may wrap around and skip cases.
- Signal: `size()` and `empty()`, which need an existing ring and do not give back their last reference; `deactivate`, which compares function objects and is not used.
- Signal: connection ids are fresh numbers; an address that is reused after a node was deleted is not modelled.
- SignalRing.ProtoSignal.Emit: says nothing of an emission that reaches a deleted node; `NestedEmission.NestedSafeExact` tells when that happens.
- Signal: a callback that disconnects itself destroys the function object it runs in (`function = nullptr` in `unlink`); the model lets it go on harmlessly.
- Dispatcher: its signals are the ring values of `SignalSpec`; the two class models are not joined on the heap.
- Dispatcher: several dispatchers for one receiver, and a dispatcher destroyed before its receivers (its weak pointers expire).
- Dispatcher: an emission inside a callback of the dispatcher.
- Serialization: the xml, json, csv and bpo formats, `date_time`, `char[N]`, `enum_with_str`, and containers read through `ReadArray` without `push_back`.
- Serialization: texts longer than a short, counts beyond an int, and lengths that lead outside the received data; the model yields an empty text for the last.
- Serialization: iteration order of unordered containers; a map or set is the sequence of its entries in iteration order.
- GosStream.Call: a side value inside a nested tuple or class member is not modelled, only at the top level of the handler's parameters.
- Thread pool: tasks that themselves call `enqueue` or `close`, and more than one controlling thread.
- Timer manager: a timer is a class, while the table `timers_` and the event loop around it are modelled on values, as steps.
- Thread pool: the critical sections are a class, while the worker loop, `init`, `close` and the thread list are modelled on values, as program counters.
- Timers: `timer_proxy` moves, the wrap-around of 32-bit ids, and handlers that outlive the manager; `io_service` runs on one thread.
- SQL: quoting and escaping of literals, order, grouping, limits, inserts and updates; `query_proxy`'s move constructor, which moves members from themselves.
- Script.ExecuteCmderService.Execute: scripts with backward jumps, which may run for ever.
- Scripts: parsing of lines, comments and aliases; `lines` counts those that reach a command. Sleeping.
- RPC clients and servers, sockets, the database connection, logging, reflection macros.
