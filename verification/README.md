# Models of the SDL automated test framework

A Dafny model of the parts of the automated test framework that carry a protocol or state, with proofs of what they promise.

| file | models |
|---|---|
| `Dispatcher.dfy`, `Text.dfy` | the parallel test dispatcher: any number of worker processes sharing a queue file, an id file and a lock file |
| `SessionQueue.dfy` | the inbound queue of a websocket session at the granularity of its lock |
| `Connection.dfy`, `Broker.dfy` | the message broker as a state machine of calls and callbacks: one connection with its context, pending queue and record, and all of them, epoch after epoch |
| `Answers.dfy` | what the broker answers, and its records against the history of calls and callbacks |
| `Ordering.dfy`, `Displacement.dfy` | when a connection keeps the order of what is sent, and when the test-then-assign of `GetSession` displaces a session |
| `Lifecycle.dfy` | opening and closing step by step, with exit signals, threads in and out of the event loop, and interleaved callbacks |
| `CallsAlone.dfy` | what these steps come to when a call is not disturbed, and the codes of all calls |
| `MessageBroker.dfy` | the broker as an object that updates itself in place |
| `HmiClient.dfy`, `EndToEnd.dfy` | the HMI adapter client, and client and broker together |
| `Transfer.dfy` | chunked file transfer between remote client and server |
| `Registry.dfy`, `DynamicObject.dfy` | the dynamic signal/slot tables: runs over all objects, and the objects on the heap |
| `Signature.dfy` | the two splitters of signatures |
| `FolderDelete.dfy`, `Backup.dfy` | recursive deletion, backup and restore of files |
| `Xml.dfy`, `ApiLoader.dfy`, `ApiDocument.dfy` | the XML child filter, the API table built with it, and what the table says about the document |
| `ErrorMessage.dfy` | the bounded assembly of XML error messages |
| `Arguments.dfy`, `StartOptions.dfy` | command line and configuration precedence of `start.sh`, for any table of options, and its own options |

Concurrency is modelled by state machines: each shell line of a worker, each step of `GetMessage`, each step of opening and closing a connection, the test of `GetSession` and the rest of each request, and each I/O callback is one atomic step, and theorems quantify over every sequence of steps. Handlers of the broker are serial because the server runs one worker (`src/remote_adapter/remote_adapter_server/main.cc:127`). The outcome of everything outside the model (a write, an open flag, a failing system call, a lost reply, a thread that does not start, the text `tonumber` understands) is a parameter, so the theorems hold for every outcome.

## Where the code and its promises differ

- Delivery over a connection is not first-in first-out: a direct `Send` does not flush what is pending. `Ordering.FifoIffNeverOvertaken` and, for what the peer receives, `Ordering.PeerOrderIff` give the exact conditions, `Ordering.OvertakingHappens` a run.
- A connection that comes up while a request is inside `GetSession` is lost: the request replaces the session by a dummy, nothing is sent and nothing received from then on (`Displacement.DisplacedIff`, `Displacement.NothingStrandedIff`, `Displacement.DisplacingHappens`).
- Closing a connection can hang for ever, because a thread looks at the exit signal only when nothing is outstanding: a refused connection is tried again without a look at the signal, and a read ends only when the peer lets it (`Lifecycle.CallsCompleteIff`, `Lifecycle.BlockedIff`, `Lifecycle.CloseHangs`).
- A blank line in the queue file stops all workers, and a left-over lock file blocks them for ever (`Dispatcher.WholeQueueRunIffNoBlankLine`, `Dispatcher.StaleLockBlocks`).
- Ports are taken modulo 65536, so two port numbers can name one endpoint; `Connection.SameEndpointIff` says when.
- The client converts a received text through a C string, so it shows the part before the first NUL: `EndToEnd.ShownInFullIff` says when it shows everything.
- The client can be disconnected a second time only after its listener thread failed to start (`HmiClient.FailedStartAllowsAnother`).
- A transfer of more than 2^31 bytes fails because the offset travels in 32 bits (`Transfer.FetchFile`); with chunks of 2^32 bytes and more it could report success with a wrong file, exactly as `Transfer.WrongSuccessIff` says.
- The two signature splitters disagree on empty items (`Signature.SameCountIffNoEmptyItem`).
- Backup of an empty file works but is reported as a failure; restoring without a backup empties the file; a restore that cannot open its target deletes the backup all the same, and with it the saved content (`Backup.RestoreUndoesChanges`, `Backup.RestoreWithoutBackupEmpties`, `Backup.SavedSurvivesIff`).
- The documentation of priorities does not mention that a variable inherited from the environment counts as given when its option is absent: `Arguments.EnvironmentBeatsConfig` gives the inputs and `Arguments.DocumentedPrioritiesIff` the exact condition; a boolean flag swallows a following target (`Arguments.FlagSwallowsTarget`).

## Model

| member | source | states |
|---|---|---|
| `Dispatcher.MutualExclusion` | atf_parallels/loop.sh:45-60 | For every queue file, number of workers and interleaving, two workers inside the locked region are the same worker. |
| `Dispatcher.IssuedInOrder` | atf_parallels/loop.sh:42-64 | In every reachable state the issued (id, script) pairs are a prefix of the queue's usable lines numbered consecutively from the id file's value plus one; the queue file is exactly the rest; whenever the lock is free, pairs issued plus lines left is the initial length and the id file has counted each. |
| `Dispatcher.StopsOnlyAtEnd` | atf_parallels/loop.sh:49-58 | A worker stops only when the front of the queue is missing or blank, all usable lines were issued by then, and no continuation takes another line. |
| `Dispatcher.IssuedIsFirstWord` | atf_parallels/loop.sh:48-56 | In every interleaving issue number k is the number in the id file, 0 without one, plus k + 1, with the first stretch of line k that has no space and no tab, wherever in the line it stands. |
| `Dispatcher.StoppedAtBlankLine` | atf_parallels/loop.sh:48-58 | Once all workers have stopped, the queue is empty or its front has nothing but spaces and tabs, and no line that was taken was of that kind. |
| `Dispatcher.AllStoppedMeansAllRun` | atf_parallels/loop.sh:78-102 | Once all workers have stopped, the multiset of runs is the expected list, the queue is what is left behind the usable lines, the lock is gone and the id counter has moved by the number of usable lines. |
| `Dispatcher.EachPairRunOnce` | atf_parallels/loop.sh:92-98 | In no schedule is a numbered script run twice. |
| `Dispatcher.WholeQueueRunIffNoBlankLine` | atf_parallels/loop.sh:48-49 | After all workers stopped, as many scripts were run as the queue had lines if and only if no line was blank: a blank line ends every worker. |
| `Dispatcher.BoundedWork` | atf_parallels/loop.sh:45-63 | Completed lock sections never exceed queue length plus number of workers, and effective steps twelve times that. |
| `Dispatcher.SomeoneCanMove` | atf_parallels/loop.sh:81-101 | No deadlock: starting from a free lock, while a worker has not stopped some worker has a step that changes something. |
| `Dispatcher.CanAlwaysFinish` | atf_parallels/loop.sh:81-101 | From every reachable state some continuation stops every worker. |
| `Dispatcher.StaleLockBlocks` | atf_parallels/loop.sh:45 | A lock file left from an earlier run blocks every worker for ever: no schedule changes the state. |
| `Dispatcher.EchoedRowParses` | atf_parallels/loop.sh:92-93 | The row `pop` prints splits back, by awk fields, into the id and the script name it was made of. |
| `Dispatcher.SharedFiles.Pop` | atf_parallels/loop.sh:42-64 | `pop` as one undisturbed call: result 1 iff the lock exists, 2 iff the first line is missing or blank, else the line is removed, the id counted and both are fields of the printed row. |
| `Dispatcher.SharedFiles.RunAlone` | atf_parallels/loop.sh:78-102 | `main` of one undisturbed worker runs exactly the expected list in order: the simple form the interleaved runs refine. |
| `Dispatcher.UndisturbedStepsArePop` | atf_parallels/loop.sh:45-60 | The ten atomic steps of a worker, taken without interruption, are one `Pop`. |
| `Dispatcher.UndisturbedStepsAreEmptyPop` | atf_parallels/loop.sh:45-60 | With a missing or blank front line, the four atomic steps are the `Pop` that ends with result 2: files and lock are as before and the worker stops. |
| `Text.FirstFieldIs` | atf_parallels/loop.sh:48 | The first field of a line is the first stretch without spaces and tabs, behind any of these and before any of these or the end. |
| `Text.SecondFieldIs` | atf_parallels/loop.sh:93 | The second field likewise. |
| `Text.NoFieldIff` | atf_parallels/loop.sh:48-49 | A line has no field if and only if it has nothing but spaces and tabs. |
| `Text.DecimalReadsBack` | atf_parallels/loop.sh:53-56 | A printed id reads back as the number, by place value, with digits only and no leading zero. |
| `Text.FieldsOfTwoWords` | atf_parallels/loop.sh:56-93 | Two words joined by a space are the first and second awk field of the line. |
| `Text.DecimalInjective` | atf_parallels/loop.sh:53-56 | Printed ids are equal only for equal numbers. |
| `SessionQueue.OneConsumerDeliversInOrder` | src/remote_adapter/remote_adapter_server/plugins/transport/message_broker.cpp:98-176 | With `GetMessage` split into unlocked check, lock, pop and unlock, one consumer and one outstanding read: in every interleaving no pop on an empty queue, delivered plus in-hand plus queued are the enqueued messages in order, and empty replies are exactly the empty checks. |
| `SessionQueue.OneConsumerIsAtomic` | src/remote_adapter/remote_adapter_server/plugins/transport/message_broker.cpp:107-176 | With one consumer the split steps refine atomic operations: in every interleaving queue, pushed messages and replies (with that of a call about to return) are those of a run of whole pushes and takes, each performed within its call. |
| `SessionQueue.ActsOfConnection` | src/remote_adapter/remote_adapter_server/plugins/transport/message_broker.cpp:107-176 | The atomic take and push are what `GetMessage` returns and removes, and what `OnRead` adds, in the state machine of calls and callbacks. |
| `SessionQueue.TwoConsumersPopEmpty` | src/remote_adapter/remote_adapter_server/plugins/transport/message_broker.cpp:162-176 | With two or more consumers some interleaving pops an empty queue. |
| `SessionQueue.SafeIffOneConsumer` | src/remote_adapter/remote_adapter_server/plugins/transport/message_broker.cpp:162-176 | The unlocked check is safe in all interleavings if and only if at most one thread calls it. |
| `Connection.MakeEndpoint` | src/remote_adapter/remote_adapter_server/plugins/transport/message_broker.cpp:561-570 | The port of the endpoint is the given one modulo 65536. |
| `Connection.SameEndpointIff` | src/remote_adapter/remote_adapter_server/plugins/transport/message_broker.cpp:561-570 | Two calls mean the same connection if and only if the addresses agree and the ports do modulo 65536. |
| `Connection.StepGood` | src/remote_adapter/remote_adapter_server/plugins/transport/message_broker.cpp:107-254 | Every request, test of `GetSession` and callback keeps the ledger of its connection balanced and its context in order, and leaves its identity. |
| `Broker.Run` | src/remote_adapter/remote_adapter_server/plugins/transport/message_broker.cpp:380-559 | The invariant holds after every sequence of calls and callbacks: pending keys are among context keys, sessions and logs are consistent with each epoch. |
| `Broker.ApplyKeepsInv` | src/remote_adapter/remote_adapter_server/plugins/transport/message_broker.cpp:380-559 | Each single call or callback keeps that invariant. |
| `Connection.Successes` | src/remote_adapter/remote_adapter_server/plugins/transport/message_broker.cpp:517-522 | The flush writes the longest prefix of the queue whose writes all succeed. |
| `Broker.OutboundConservation` | src/remote_adapter/remote_adapter_server/plugins/transport/message_broker.cpp:454-523 | Every payload sent on an existing connection is in exactly one of: written at once, failed at its own write, written by a flush, pending, dropped at close; the direct stream and the queued stream each keep send order. |
| `Answers.RecordsAreHistory` | src/remote_adapter/remote_adapter_server/plugins/transport/message_broker.cpp:107-129 | In every run the record of an epoch has exactly the payloads of the calls of `Send` that met it, whole and in order, and the non-empty messages of the reads that met it; both lists are taken from the events. |
| `Answers.PayloadPlaces` | src/remote_adapter/remote_adapter_server/plugins/transport/message_broker.cpp:454-523 | In every run the payload of each call is in exactly one of the five places. |
| `Answers.BroughtPlaces` | src/remote_adapter/remote_adapter_server/plugins/transport/message_broker.cpp:107-254 | In every run the messages that reads brought are, in order, those handed out, held, lost at close and stranded. |
| `Answers.SendTable` | src/remote_adapter/remote_adapter_server/plugins/transport/message_broker.cpp:453-474 | The whole of `Send` from the state before: an open real session writes the payload as given and pops the front message, SUCCESS or WRITE_FAILURE by the write alone; anything else queues it and answers an empty WRITE_FAILURE. |
| `Answers.ReceiveTable` | src/remote_adapter/remote_adapter_server/plugins/transport/message_broker.cpp:477-523 | The whole of `Receive` likewise: the longest prefix of pending payloads whose writes succeed moves to the written ones, on an open session only; the reply is the front message with SUCCESS. |
| `Answers.SendCodes` | src/remote_adapter/remote_adapter_server/plugins/transport/message_broker.cpp:453-474 | In every reachable state `Send` answers NO_CONNECTION if and only if the endpoint has no context, and then changes nothing; SUCCESS if and only if an open session wrote; else WRITE_FAILURE. |
| `Answers.ReceiveCodes` | src/remote_adapter/remote_adapter_server/plugins/transport/message_broker.cpp:477-494 | In every reachable state `Receive` answers NO_CONNECTION if and only if the endpoint has no context, and then changes nothing; else SUCCESS. |
| `Broker.EpochIsolation` | src/remote_adapter/remote_adapter_server/plugins/transport/message_broker.cpp:419-450 | Whatever is written, pending or dropped in a connection epoch was sent in that epoch. |
| `Broker.InboundConservation` | src/remote_adapter/remote_adapter_server/plugins/transport/message_broker.cpp:107-254 | Arrived messages are, in order, those handed out, those held, those lost at close and those read by a displaced session; live epochs lost nothing and closed ones hold nothing. |
| `Broker.EndpointIsolation` | src/remote_adapter/remote_adapter_server/plugins/transport/message_broker.cpp:544-559 | An event for one endpoint changes nothing of any other endpoint. |
| `Broker.ClosedIsFinal` | src/remote_adapter/remote_adapter_server/plugins/transport/message_broker.cpp:418-450 | The record of a closed epoch never changes again, also when the endpoint is reopened. |
| `Displacement.RealSessionStaysIff` | src/remote_adapter/remote_adapter_server/plugins/transport/message_broker.cpp:217-254 | While its context lives a real session is replaced exactly when a request that had seen no session goes on after the resolve has connected: then by a dummy with an empty queue; otherwise it stays and its queue only loses its front. |
| `Displacement.DisplacedIff` | src/remote_adapter/remote_adapter_server/plugins/transport/message_broker.cpp:217-254 | In every run a session of an epoch was displaced if and only if a resolve connected between the test and the assignment in `GetSession` of some request. |
| `Displacement.NothingStrandedIff` | src/remote_adapter/remote_adapter_server/plugins/transport/message_broker.cpp:107-254 | In every run the arrived messages are those handed out, held and lost if and only if that never happened or nothing arrived; after it nothing is handed out or written. |
| `Displacement.RealSessionKeptIff` | src/remote_adapter/remote_adapter_server/plugins/transport/message_broker.cpp:217-254 | In every run a live epoch whose resolve has connected has a real session if and only if that never happened. |
| `Displacement.DisplacingHappens` | src/remote_adapter/remote_adapter_server/plugins/transport/message_broker.cpp:239-254 | A concrete run: a request sees no session, the resolve connects, the request assigns its dummy; what arrives then reaches nobody and what is sent stays pending. |
| `Broker.SendHands` | src/remote_adapter/remote_adapter_server/plugins/transport/message_broker.cpp:453-474 | `Send` hands out exactly the message it returns, in the current epoch only. |
| `Broker.ReceiveHands` | src/remote_adapter/remote_adapter_server/plugins/transport/message_broker.cpp:477-494 | `Receive` hands out exactly the message it returns, in the current epoch only. |
| `Broker.OthersHandNothing` | src/remote_adapter/remote_adapter_server/plugins/transport/message_broker.cpp:107-254 | No other event hands out a message. |
| `Ordering.SendOrder` | src/remote_adapter/remote_adapter_server/plugins/transport/message_broker.cpp:467-473 | A `Send` keeps the line of its connection in send order if and only if it does not write past an older pending payload. |
| `Ordering.ReceiveOrder` | src/remote_adapter/remote_adapter_server/plugins/transport/message_broker.cpp:477-523 | A `Receive` leaves the line of written and pending payloads as it is, whatever the flush manages to write. |
| `Ordering.CloseOrder` | src/remote_adapter/remote_adapter_server/plugins/transport/message_broker.cpp:445-447 | Closing leaves the line as it is: what was pending is what was dropped. |
| `Ordering.OrderKeptUnlessOvertaken` | src/remote_adapter/remote_adapter_server/plugins/transport/message_broker.cpp:454-523 | The same if-and-only-if for every event and every epoch, live or closed. |
| `Ordering.FifoIffNeverOvertaken` | src/remote_adapter/remote_adapter_server/plugins/transport/message_broker.cpp:454-523 | In every run the line of every connection, live or closed (what it wrote, then what is pending or was dropped at the close), is in send order if and only if no `Send` ever wrote successfully while an older payload was pending. |
| `Ordering.PeerOrderIff` | src/remote_adapter/remote_adapter_server/plugins/transport/message_broker.cpp:454-523 | In every run what the peer of a connection received is in send order if and only if no `Receive` got a pending payload written after one had been overtaken; an overtaken payload that is dropped at the close does no harm. |
| `Ordering.OvertakingHappens` | src/remote_adapter/remote_adapter_server/plugins/transport/message_broker.cpp:467-472 | A concrete run in which the second payload is written before the first: overall FIFO is false. |
| `Lifecycle.Exec` | src/remote_adapter/remote_adapter_server/plugins/transport/message_broker.cpp:379-450 | After any steps of the worker, the I/O threads and the callbacks, from any state that satisfies it, the invariant of contexts, signals, threads and maps holds. |
| `Lifecycle.SignalAtMostOnce` | src/remote_adapter/remote_adapter_server/plugins/transport/message_broker.cpp:437 | In every interleaving the exit signal of an epoch is set at most once. |
| `Lifecycle.ErasedMeansJoined` | src/remote_adapter/remote_adapter_server/plugins/transport/message_broker.cpp:437-447 | In every interleaving a context that is gone from the map had its signal set once, its listener stopped and every thread joined, for any number of threads. |
| `Lifecycle.NoCallbackAfterErasure` | src/remote_adapter/remote_adapter_server/plugins/transport/message_broker.cpp:406-447 | In every interleaving no callback ever runs for a destroyed context; after the erasure of an epoch its context and its record never change again and a callback of it does nothing. |
| `Lifecycle.OpenNeverRefused` | src/remote_adapter/remote_adapter_server/plugins/transport/message_broker.cpp:386-397 | In no interleaving is ALREADY_EXISTS answered. |
| `Lifecycle.StepsRefineCalls` | src/remote_adapter/remote_adapter_server/plugins/transport/message_broker.cpp:107-237 | What any interleaving of single steps, with resolves and reads completing in the middle of a close or between the test and the assignment of `GetSession`, does to the maps and records is a run of whole calls and callbacks, so all theorems about those apply. |
| `Lifecycle.ArrivalsAccountedFor` | src/remote_adapter/remote_adapter_server/plugins/transport/message_broker.cpp:107-129 | A message that arrives while its connection is being closed is handed out, held, lost or stranded with the others. |
| `Lifecycle.CallsCompleteIff` | src/remote_adapter/remote_adapter_server/plugins/transport/message_broker.cpp:405-450 | From every reachable state the worker and the threads can bring the call in progress to its end by themselves if and only if it is not a close of a context that has a thread in the event loop and an operation outstanding. |
| `Lifecycle.BlockedIff` | src/remote_adapter/remote_adapter_server/plugins/transport/message_broker.cpp:199-237 | Once the listener is stopped such a close stays blocked, whatever happens, exactly until a resolve has ended other than by a refused connection, a read that was or became outstanding has failed, and the asynchronous close is done. |
| `Lifecycle.CloseHangs` | src/remote_adapter/remote_adapter_server/plugins/transport/message_broker.cpp:217-237 | A close hangs for ever: as long as connections are refused, or the read does not fail, or the close is not answered, a close that waits for that operation has not ended. |
| `Lifecycle.ClosedWhileResolving` | src/remote_adapter/remote_adapter_server/plugins/transport/message_broker.cpp:405-443 | A concrete run into such a close: open, a thread enters the event loop, close while the resolve and its connection attempt are going on. |
| `CallsAlone.CloseAlone` | src/remote_adapter/remote_adapter_server/plugins/transport/message_broker.cpp:418-450 | A close while only worker and threads move: nothing is closed until it is over, and then all of it at once, with SUCCESS if and only if there was a connection, else NO_CONNECTION. |
| `CallsAlone.OpenAlone` | src/remote_adapter/remote_adapter_server/plugins/transport/message_broker.cpp:379-416 | An open likewise: old connection closed, new one made, as many threads as asked for (one for 0, none for a negative number), SUCCESS. |
| `CallsAlone.RequestAlone` | src/remote_adapter/remote_adapter_server/plugins/transport/message_broker.cpp:453-494 | A request is its test for a session followed by the call itself. |
| `CallsAlone.CodeGiven` | src/remote_adapter/remote_adapter_server/plugins/transport/message_broker.cpp:396-450 | In every state and whatever moves, NO_CONNECTION is answered exactly by a close without a connection, and every other call that ends answers SUCCESS. |
| `CallsAlone.StopStartsClose` | src/remote_adapter/remote_adapter_server/plugins/transport/message_broker.cpp:199-205 | Stopping the listener leaves an asynchronous close outstanding if and only if the session is a real one and the event loop has not run out of operations. |
| `BrokerObject.MessageBroker.SetValue` | src/remote_adapter/remote_adapter_server/plugins/transport/message_broker.cpp:437 | Sets the signal of a promise that was not set before, which the next phase of the close needs. |
| `BrokerObject.MessageBroker.StopListener` | src/remote_adapter/remote_adapter_server/plugins/transport/message_broker.cpp:199-205 | Stops the listener, which starts to close a real session unless its event loop has run out of operations. |
| `BrokerObject.MessageBroker.JoinThread` | src/remote_adapter/remote_adapter_server/plugins/transport/message_broker.cpp:441-443 | Joins one thread that is not joined yet, after the signal, and no other. |
| `BrokerObject.MessageBroker.JoinThreads` | src/remote_adapter/remote_adapter_server/plugins/transport/message_broker.cpp:440-443 | The loop joins every thread of the context and touches no other context. |
| `BrokerObject.MessageBroker.EraseContext` | src/remote_adapter/remote_adapter_server/plugins/transport/message_broker.cpp:445-447 | Only a context whose signal is set and whose threads are all joined is erased, with its pending queue. |
| `BrokerObject.MessageBroker.StartThreads` | src/remote_adapter/remote_adapter_server/plugins/transport/message_broker.cpp:405-413 | The loop starts the requested number of threads, one for 0 and none for a negative number. |
| `BrokerObject.MessageBroker.CloseConnection` | src/remote_adapter/remote_adapter_server/plugins/transport/message_broker.cpp:418-450 | NO_CONNECTION iff there is no context; otherwise context and pending queue are gone as specified, through signal, stop, joins and erasure in that order, each step needing the one before. |
| `BrokerObject.MessageBroker.MakeContext` | src/remote_adapter/remote_adapter_server/plugins/transport/message_broker.cpp:524-542 | Insertion fails iff the endpoint has a context, and then changes nothing. |
| `BrokerObject.MessageBroker.OpenConnection` | src/remote_adapter/remote_adapter_server/plugins/transport/message_broker.cpp:379-416 | Always SUCCESS, ALREADY_EXISTS is unreachable; an existing epoch is closed first. |
| `BrokerObject.MessageBroker.GetSession` | src/remote_adapter/remote_adapter_server/plugins/transport/message_broker.cpp:239-254 | Leaves an existing session; without one the context has a dummy. |
| `BrokerObject.MessageBroker.GetMessage` | src/remote_adapter/remote_adapter_server/plugins/transport/message_broker.cpp:162-176 | Returns and removes the front of the session's queue, or the empty string. |
| `BrokerObject.MessageBroker.Send` | src/remote_adapter/remote_adapter_server/plugins/transport/message_broker.cpp:453-474 | The in-place object does what the specification of `Send` says, reply included. |
| `BrokerObject.MessageBroker.FlushPendingMsg` | src/remote_adapter/remote_adapter_server/plugins/transport/message_broker.cpp:496-523 | The popping loop removes exactly the prefix that was written. |
| `BrokerObject.MessageBroker.Receive` | src/remote_adapter/remote_adapter_server/plugins/transport/message_broker.cpp:477-494 | Flush, then front of the inbox; SUCCESS on every existing context. |
| `HmiClient.EventTable` | src/remote_adapter/remote_adapter_client/hmi_adapter/hmi_adapter_client.cc:44-132 | Signals, calls, flag, listener and result of every event, from flag, listener and the server's answer alone. |
| `HmiClient.FlagChangesIff` | src/remote_adapter/remote_adapter_client/hmi_adapter/hmi_adapter_client.cc:44-132 | An event raises the flag if and only if it is a `connect` answered SUCCESS with neither flag nor listener up, and lowers it if and only if the answer to a `send` or `receive` is NO_CONNECTION. |
| `HmiClient.ConnectedPerAcceptance` | src/remote_adapter/remote_adapter_client/hmi_adapter/hmi_adapter_client.cc:44-60 | In every run `connected` was emitted as often as a `connect` was answered SUCCESS. |
| `HmiClient.NothingWithoutAcceptance` | src/remote_adapter/remote_adapter_client/hmi_adapter/hmi_adapter_client.cc:44-124 | In every run without such an answer the client is not connected, emits nothing and calls neither send nor receive. |
| `HmiClient.SizesAreAccepted` | src/remote_adapter/remote_adapter_client/hmi_adapter/hmi_adapter_client.cc:86-95 | In every run `bytesWritten` announced, in order, the sizes of exactly the payloads sent while connected and answered SUCCESS. |
| `HmiClient.AtMostOneSession` | src/remote_adapter/remote_adapter_client/hmi_adapter/hmi_adapter_client.cc:44-132 | In every run the flag was raised once per failed start plus once if a listener runs, and `disconnected` was emitted once per raise except for a session that is up; without failed starts both happen at most once. |
| `HmiClient.FailedStartAllowsAnother` | src/remote_adapter/remote_adapter_client/hmi_adapter/hmi_adapter_client.cc:59-83 | A concrete run with a failed thread start in which `disconnected` is emitted twice. |
| `HmiClient.LostIsFinal` | src/remote_adapter/remote_adapter_client/hmi_adapter/hmi_adapter_client.cc:44-132 | A client that has a listener and is not connected never gets beyond `connected` signals and open calls, whatever it is asked. |
| `HmiClient.NothingAfterDisconnected` | src/remote_adapter/remote_adapter_client/hmi_adapter/hmi_adapter_client.cc:44-132 | In every run without failed starts nothing but `connected` follows a `disconnected`, and no call of `send` or `receive` reaches the server, even after a successful `connect`. |
| `HmiObject.HmiAdapterClient.Connect` | src/remote_adapter/remote_adapter_client/hmi_adapter/hmi_adapter_client.cc:44-84 | The object's `connect` is the specified transition on its two fields and its signals. |
| `HmiObject.HmiAdapterClient.ConnectionLost` | src/remote_adapter/remote_adapter_client/hmi_adapter/hmi_adapter_client.cc:126-132 | Emits `disconnected` and lowers the flag iff it was up. |
| `HmiObject.HmiAdapterClient.Send` | src/remote_adapter/remote_adapter_client/hmi_adapter/hmi_adapter_client.cc:86-106 | The object's `send` is the specified transition and returns the server's code, or NO_CONNECTION without a call. |
| `HmiObject.HmiAdapterClient.Receive` | src/remote_adapter/remote_adapter_client/hmi_adapter/hmi_adapter_client.cc:108-124 | Likewise for `receive`. |
| `EndToEnd.DisconnectedIffNoContext` | src/remote_adapter/remote_adapter_client/hmi_adapter/hmi_adapter_client.cc:86-132 | In every run a delivered `Send` or `Receive` of a connected client leaves it connected if and only if the server has a context for the endpoint; if not, `disconnected` is emitted once and the server is unchanged. |
| `EndToEnd.ReceiveShowsFirstHeld` | src/remote_adapter/remote_adapter_client/hmi_adapter/hmi_adapter_client.cc:108-116 | In every run a delivered `Receive` of a connected client shows the first message the session holds, and nothing when it holds none. |
| `EndToEnd.ConnectOpens` | src/remote_adapter/remote_adapter_client/hmi_adapter/hmi_adapter_client.cc:44-60 | In every run a `connect` whose request arrives gives the endpoint a context of a new epoch, also when the answer is lost; `connected` is emitted if and only if the answer comes back. |
| `EndToEnd.ArrivedIsAccountedFor` | src/remote_adapter/remote_adapter_client/hmi_adapter/hmi_adapter_client.cc:86-124 | Client against broker, every run and epoch: the messages that arrived are, in order, those popped for the client, those held, those lost at close and those read by a displaced session; the last are none if and only if no session was displaced or nothing arrived. |
| `EndToEnd.PoppedBySteps` | src/remote_adapter/remote_adapter_client/hmi_adapter/hmi_adapter_client.cc:86-124 | Each popped message comes from one `Send` or `Receive` step of the run, in increasing order. |
| `EndToEnd.ShownIsPoppedNotWithheld` | src/remote_adapter/remote_adapter_client/hmi_adapter/hmi_adapter_client.cc:86-124 | In every run the texts emitted are, in order, the messages popped by all steps except the `Send`s whose write failed and the calls whose reply was lost. |
| `EndToEnd.OnlyFailedWritesHide` | src/remote_adapter/remote_adapter_server/plugins/transport/message_broker.cpp:467-469 | When every reply comes back, the emissions are the popped messages minus exactly those popped by a `Send` whose write failed. |
| `EndToEnd.ShownInFullIff` | src/remote_adapter/remote_adapter_client/hmi_adapter/hmi_adapter_client.cc:95-97 | The emitted texts are the popped messages themselves if and only if none of those has a NUL. |
| `Text.CStringIsWholeIff` | src/remote_adapter/remote_adapter_client/hmi_adapter/hmi_adapter_client.cc:96 | A text survives the conversion through a C string if and only if it has no NUL. |
| `Transfer.Narrow` | src/remote_adapter/remote_adapter_server/plugins/utils/utils_manager.cc:309-312 | The reply's offset is the 64-bit one reduced to 32-bit two's complement. |
| `Transfer.GetFileContent` | src/remote_adapter/remote_adapter_server/plugins/utils/utils_manager.cc:546-588 | A missing file gives FAILED; otherwise the content is a prefix of the rest, within the limit, and the code is 0 iff the file is exhausted, else the next offset. |
| `Transfer.CallsOfChunk` | src/remote_adapter/remote_adapter_client/remote_client/remote_client.cc:75-91 | For every chunk that fits an int the number of calls is max(1, ceil(size / chunk)), stated by its bounds. |
| `Transfer.ServeCall` | src/remote_adapter/remote_adapter_server/plugins/utils/utils_manager.cc:558-581 | The reply to call i for any chunk size: the rest of the file with code 0 when it fits the chunk; otherwise one full chunk with the next offset, a negative code when that does not fit an int, or a stride that is not positive. |
| `Transfer.NextOffset` | src/remote_adapter/remote_adapter_server/plugins/utils/utils_manager.cc:309-312 | From an offset that fits, a full chunk moves the offset the client sees by the chunk reduced to an int, or makes it negative. |
| `Transfer.OutcomeIsFileIff` | src/remote_adapter/remote_adapter_client/remote_client/remote_client.cc:75-94 | A completed transfer has the right content if and only if the file fits one chunk or the chunk an int. |
| `Transfer.WrongSuccessIff` | src/remote_adapter/remote_adapter_client/remote_client/remote_client.cc:75-94 | Success with a wrong file happens if and only if the file is larger than a chunk of at least 2^32 bytes and that chunk reduces to 0, or to a positive number one of whose multiples below 2^31 reaches the last chunk. |
| `Transfer.WideChunkLooksFinished` | src/remote_adapter/remote_adapter_server/plugins/utils/utils_manager.cc:309-312 | The simplest such input: a chunk of 2^32 bytes, which reduces to 0. |
| `Transfer.DefaultChunkLimit` | src/remote_adapter/common/constants.h:25 | With the 1 MiB chunk a transfer completes if and only if the file has at most 2^31 bytes. |
| `Transfer.OneShotRead` | src/remote_adapter/remote_adapter_server/plugins/utils/utils_manager.cc:562-581 | A read without limit returns the whole file with code 0. |
| `Transfer.FileCall` | src/remote_adapter/remote_adapter_client/remote_client/remote_client.cc:41-103 | For every chunk of at least 1: SUCCESS iff connected, file present, temp file creatable, no call failed and the transfer completes; then the temp file is the outcome after the expected number of calls, for every chunk that fits an int the one-shot read; else the exact negative code and no partial file of this transfer. |
| `Transfer.ReceiveChunks` | src/remote_adapter/remote_adapter_client/remote_client/remote_client.cc:75-91 | The do-while loop: it ends with the last reply, all chunks before it written and no call failed, or with a failure, the file removed, and then the transfer cannot succeed. |
| `Transfer.ReceiveRest` | src/remote_adapter/remote_adapter_client/remote_client/remote_client.cc:75-94 | From the first reply on: succeeds iff no call fails and the transfer completes, with its outcome; failure removes the file. |
| `Transfer.FetchFile` | src/remote_adapter/remote_adapter_client/remote_client/remote_client.cc:41-103 | With the built-in chunk and no faults: SUCCESS with the whole file iff size is at most 2^31 bytes, otherwise FAILED with the temp file removed. |
| `Registry.IndicesAreBijections` | src/qtdynamic.cc:54-153 | After any run of the connect operations, sender equal to receiver included, each object's slot indices are a bijection onto its slot list's positions and its signal indices onto 0..n-1. |
| `Registry.IndicesNeverChange` | src/qtdynamic.cc:73-144 | An assigned index, and the slot object at it, never changes. |
| `Registry.LinkMatchesIff` | src/qtdynamic.cc:80-152 | A recorded connection leaves a given source if and only if it was made for that source: index offsets never confuse two signals. |
| `Registry.LinkInvokes` | src/qtdynamic.cc:155-164 | `qt_metacall` on a connection's slot id invokes what the request named: the static slot, or the first slot object registered under the signature. |
| `Registry.EmitInvokesConnected` | src/qtdynamic.cc:166-177 | Emitting a dynamic signal succeeds iff some connect named it, and invokes exactly the slots connected to it, in order. |
| `Registry.InvokedLater` | src/qtdynamic.cc:155-164 | A connection invokes the same slot object in every later world, whatever was connected since. |
| `Registry.DeliveryIsEmission` | src/qtdynamic.cc:80-177 | Connections are queued: what is emitted at some point of a run invokes the slots connected by name by then, in order, however many further connections are made before each single event is delivered. |
| `Registry.StaticSignalInvokesConnected` | src/qtlua.cc:68-180 | The same for static signals, over the four combinations of dynamic and static ends. |
| `DynamicObjects.DynamicObject.SlotIndex` | src/qtdynamic.cc:73-78 | First use of a signature appends the slot; later uses return the same index and keep the first slot. |
| `DynamicObjects.DynamicObject.SignalIndex` | src/qtdynamic.cc:105-109 | First use of a signal signature gets the next index; later uses return it. |
| `DynamicObjects.DynamicObject.ConnectDynamicSlot` | src/qtdynamic.cc:54-85 | Refusals leave the tables alone; otherwise the slot is registered and, if the link is made, recorded with shifted index. |
| `DynamicObjects.DynamicObject.ConnectDynamicSignal` | src/qtdynamic.cc:87-114 | Likewise for a dynamic signal and a static slot. |
| `DynamicObjects.DynamicObject.ConnectDynamicSignalToDynamicSlot` | src/qtdynamic.cc:116-153 | Both tables are extended; when sender and receiver are one object it gets both entries. |
| `Signature.MarshallingTypes` | src/marshal.cc:14-31 | The pointer loop computes the comma split of the argument text. |
| `Signature.CopyItem` | src/marshal.cc:22-26 | The inner loop copies exactly one item into the buffer. |
| `Signature.SkipName` | src/marshal.cc:20 | The first loop stops behind the opening parenthesis, or at the end. |
| `Signature.TypesFromString` | src/qtdynamic.cc:15-28 | The pointer loop computes the list of pieces. |
| `Signature.ScanPiece` | src/qtdynamic.cc:22-24 | The inner loop advances over one piece with its comma. |
| `Signature.ArgTextIs` | src/marshal.cc:14-21 | The argument text of a signature is what stands between its first parenthesis and the next closing one. |
| `Signature.ItemsHaveNoComma` | src/marshal.cc:22-30 | No type name has a comma. |
| `Signature.SplitJoins` | src/marshal.cc:22-30 | The type names joined by commas are the argument text again, up to a final comma. |
| `Signature.SameCountIffNoEmptyItem` | src/qtdynamic.cc:15-28 | Both splitters give equally many types if and only if no item is empty; otherwise `typesFromString` gives fewer. |
| `Signature.PiecesAreItems` | src/qtdynamic.cc:15-28 | Without empty items each piece is the item, followed by the comma that was behind it. |
| `Signature.PiecesConcatIffNoEmptyItem` | src/qtdynamic.cc:15-28 | The pieces concatenate back to the text if and only if no item is empty. |
| `Signature.SlotTypesArePrefix` | src/qtdynamic.cc:189-208 | If the slot's argument text is a comma-boundary prefix of the signal's, its types are a prefix of the signal's, so a call reads only supplied arguments. |
| `FolderDelete.Delete` | src/remote_adapter/remote_adapter_server/plugins/utils/utils_manager.cc:597-642 | For every tree and pattern of failing operations it terminates; 0 iff the folder exists and nothing needed on it or below fails, and then exactly the subtree is gone; otherwise the folder is still there, only descendants may be missing and nothing outside changed. |
| `FolderDelete.DeleteEntry` | src/remote_adapter/remote_adapter_server/plugins/utils/utils_manager.cc:608-635 | The same for one entry of a folder: file or subfolder. |
| `FolderDelete.RemoveDir` | src/remote_adapter/remote_adapter_server/plugins/utils/utils_manager.cc:637-641 | rmdir succeeds iff the folder exists, is empty and does not fail. |
| `FolderDelete.EntryStep` | src/remote_adapter/remote_adapter_server/plugins/utils/utils_manager.cc:608-635 | Deleting one entry leaves the subtrees of the others as they were and strictly shrinks the work. |
| `Backup.Storage.FileBackup` | src/remote_adapter/remote_adapter_server/plugins/utils/utils_manager.cc:490-501 | The backup holds the file's content, or nothing for a missing file; SUCCESS iff the content is non-empty and the target opens. |
| `Backup.Storage.FileRestore` | src/remote_adapter/remote_adapter_server/plugins/utils/utils_manager.cc:503-516 | The file gets the backup's content if it opens, and the backup goes even if it does not; SUCCESS iff that content is non-empty and the target opens; the result of the deletion is ignored. |
| `Backup.Storage.FileDelete` | src/remote_adapter/remote_adapter_server/plugins/utils/utils_manager.cc:537-544 | SUCCESS iff the file existed and the removal works; then exactly it is gone. |
| `Backup.JoinedPath` | src/remote_adapter/remote_adapter_server/plugins/utils/utils_manager.cc:864-874 | A path is folder, one slash and name, whether or not the folder is given with its slash. |
| `Backup.SuffixCommutes` | src/remote_adapter/remote_adapter_server/plugins/utils/utils_manager.cc:864-874 | For a non-empty folder path the two ways of building the backup's path coincide, and it is not the file's own path. |
| `Backup.BackupPathInjective` | src/remote_adapter/remote_adapter_server/plugins/utils/utils_manager.cc:864-874 | Backups of different files of one folder have different paths. |
| `Backup.RestoreUndoesChanges` | src/remote_adapter/remote_adapter_server/plugins/utils/utils_manager.cc:490-516 | Backup, any changes sparing the backup, restore: the file has its content back, the backup is gone, the rest is as the changes left it, and both calls succeed iff the file existed and was not empty. |
| `Backup.OthersUntouched` | src/remote_adapter/remote_adapter_server/plugins/utils/utils_manager.cc:490-516 | For every other file the cycle is as if neither call had been made. |
| `Backup.CycleIsIdentityIff` | src/remote_adapter/remote_adapter_server/plugins/utils/utils_manager.cc:490-516 | With nothing in between, the cycle changes nothing if and only if the file existed and no file had the backup's name. |
| `Backup.SavedSurvivesIff` | src/remote_adapter/remote_adapter_server/plugins/utils/utils_manager.cc:503-516 | After backup, changes sparing it and restore, the saved content is in the file or the backup if and only if the target opened, or the deletion failed, or the file still had it. |
| `Backup.RestoreWithoutBackupEmpties` | src/remote_adapter/remote_adapter_server/plugins/utils/utils_manager.cc:503-516 | Restoring without a backup empties the file and reports failure. |
| `Xml.NodeChildren` | src/luaxml/lua_xml.cc:324-353 | The walk over siblings returns the matching element children; a node that is not an element has no list. |
| `Xml.MatchingIsDenseAndOrdered` | src/luaxml/lua_xml.cc:324-353 | The returned list enumerates, at increasing places, exactly the matching children. |
| `Xml.NodeHasPlace` | modules/api_loader.lua:149-151 | The search for interfaces goes through every node of the document: each stands in document order at its place, behind its ancestors and behind everything below earlier siblings. |
| `Xml.PlaceHasNode` | modules/api_loader.lua:149-151 | And through nothing else. |
| `ApiLoader.LoadElements` | modules/api_loader.lua:77-87 | The inner enum loop fails iff an element lacks a name; otherwise the table holds each element's number, last occurrence winning. |
| `ApiLoader.NumberCounts` | modules/api_loader.lua:77-87 | An element's number is the value of the closest valued element at or before it plus the distance, and k + 1 for position k when there is none. |
| `ApiLoader.UnvaluedNumbersDiffer` | modules/api_loader.lua:77-87 | Without explicit values numbers strictly increase. |
| `ApiLoader.LoadResultCodes` | modules/api_loader.lua:21-30 | Result codes by position; an element without a name leaves a hole. |
| `ApiLoader.LoadParams` | modules/api_loader.lua:100-103 | The parameter loop fails iff a parameter lacks a name; otherwise last occurrence wins. |
| `ApiLoader.ApiTable.LoadInterfaces` | modules/api_loader.lua:149-167 | Fails iff an interface lacks name or version; otherwise the last interface of a name wins. |
| `ApiLoader.ApiTable.LoadEnums` | modules/api_loader.lua:72-90 | In whatever order interfaces are visited: fails iff some body has a malformed enum; otherwise every interface gets exactly its own enums. |
| `ApiLoader.ApiTable.LoadStructs` | modules/api_loader.lua:93-108 | Likewise for structs. |
| `ApiLoader.ApiTable.LoadFunctions` | modules/api_loader.lua:112-130 | Likewise for functions, including a message type outside the three known ones as an error. |
| `ApiLoader.FunctionEntered` | modules/api_loader.lua:127 | A function is entered in the table of its own message type only. |
| `ApiLoader.Init` | modules/api_loader.lua:175-189 | Succeeds iff the document is loadable, and then returns the one table the document determines, independent of the visiting order. |
| `ApiLoader.TableIsLastWins` | modules/api_loader.lua:72-167 | Entering values one by one answers every name with its last entry, and knows exactly the names entered. |
| `ApiLoader.LastWinsDetermines` | modules/api_loader.lua:72-167 | That search determines the table. |
| `ApiLoader.InterfaceSearch` | modules/api_loader.lua:149-167 | The loaded table has exactly the interfaces of the document, each the last of its name in document order. |
| `ApiLoader.BodySearch` | modules/api_loader.lua:72-130 | Enums, structs and, per message type, functions of an interface agree with a last-wins search of its body. |
| `ApiLoader.EnumSearch` | modules/api_loader.lua:77-87 | An enum's table agrees with a last-wins search of its elements. |
| `ApiLoader.ParamSearch` | modules/api_loader.lua:100-124 | A parameter table agrees with a last-wins search. |
| `ApiLoader.LoadableIff` | modules/api_loader.lua:73-129 | Loading succeeds iff every interface has name and version and the body of each last one is well-formed; bodies of replaced interfaces do not matter. |
| `ApiDocument.InterfaceFound` | modules/api_loader.lua:149-167 | The last interface of a name in document order is the one loaded, with its version. |
| `ApiDocument.EnumOfDocument` | modules/api_loader.lua:72-90 | From the root to an element: last interface, last enum and last element of the name, by tag and attribute `name`; an element with a numeric `value` has that number. |
| `ApiDocument.StructOfDocument` | modules/api_loader.lua:93-108 | From the root to a parameter of a struct likewise, with the data its attributes give. |
| `ApiDocument.FunctionOfDocument` | modules/api_loader.lua:112-130 | From the root to a parameter of a function likewise; functions of another message type do not matter. |
| `ApiDocument.EnumFound` | modules/api_loader.lua:77-87 | The number of an element is that of its place among the elements of its enum. |
| `ApiDocument.ParamAnswers` | modules/api_loader.lua:35-71 | Every field of a parameter from its own attribute: defaults true and false, the seven bounds where they are numbers, result codes only for a parameter `resultCode` of type `Result`. |
| `ApiDocument.BodyFineIff` | modules/api_loader.lua:72-130 | A body is read without error if and only if enums, structs, functions, their elements and parameters have names and every function one of the three message types. |
| `ErrorMessage.Snprintf` | src/luaxml/lua_xml.cc:39-50 | Writes what fits, terminates it, leaves the rest of the buffer and returns the untruncated length. |
| `ErrorMessage.AppendIfPresent` | src/luaxml/lua_xml.cc:52-76 | A guarded append keeps the buffer equal to the cut-off form of the text so far, also once it is full. |
| `ErrorMessage.StructuredErrorHandler` | src/luaxml/lua_xml.cc:32-79 | For parts of any length the string handed to Lua is the first 1023 characters of the full concatenation. |
| `ErrorMessage.MessageWrittenOut` | src/luaxml/lua_xml.cc:39-76 | The full message is the heading of the domain and the parts that are there, each with its punctuation, in order; the line number reads back. |
| `ErrorMessage.BufferReads` | src/luaxml/lua_xml.cc:77 | A C reader of such a buffer finds exactly the cut-off text. |
| `Arguments.Shell.ParseArguments` | start.sh:100-208 | No arguments, help and unknown keys end the script with the codes 0, 0 and 1; otherwise every variable has its value from its last item, and the test target is the first nameless one. |
| `Arguments.Shell.ReadItem` | start.sh:121-145 | Key, value and whether the next argument is consumed, for the four forms of an argument. |
| `Arguments.ParsedIffNoStop` | start.sh:187-196 | The script reads on if and only if no item asks for help or is unknown. |
| `Arguments.OutcomeIsFirstStop` | start.sh:187-196 | Otherwise the first such item decides the exit code. |
| `Arguments.LastItemWins` | start.sh:147-201 | The last item that sets a variable decides its value, even an empty one. |
| `Arguments.Shell.SetParam` | start.sh:268-274 | A parameter is filled only when empty and only with a non-empty value. |
| `Arguments.Shell.BuildParameters` | start.sh:276-308 | Each parameter ends as the first non-empty of its value, the specific configuration's (if one is named) and the base configuration's; all else stays. |
| `Arguments.Shell.Start` | start.sh:268-308 | Parsing and building in order give every parameter of the configurations its final value and leave the others as the command line does; the outcome is that of the parsing. |
| `StartOptions.SetsIff` | start.sh:147-191 | An item sets a variable if and only if its key is an option of that variable, each written out, and to the item's value, or "true" for the two flags. |
| `StartOptions.OptionDecides` | start.sh:110-191 | For every option: with its word anywhere on the command line and no later option for the variable, the variable gets the word ("true" for the flags) and keeps it against every environment and configuration unless it is empty. |
| `StartOptions.OptionSparesOthers` | start.sh:110-191 | An option with its word changes no other variable. |
| `StartOptions.ParametersOfConfigurations` | start.sh:276-308 | The seven parameters a configuration can fill, and the two of them that have no option. |
| `StartOptions.ParsedIffReadsThrough` | start.sh:147-201 | The script reads a command line to its end if and only if it has known options, no help option, and nameless words. |
| `StartOptions.EndsScript` | start.sh:187-196 | Behind such a beginning a help option ends the script with 0 and an unknown option with 1, whatever follows. |
| `Arguments.Precedence` | README.md:106-114 | For a parameter set on the command line: last occurrence over specific over base configuration; an empty value hands over to the configurations and hides an inherited one. |
| `Arguments.DocumentedPrioritiesIff` | README.md:106-116 | For every command line and environment: the final value is the documented one for all configurations if and only if the parameter is set on the command line or not inherited, and the same holds for the name of the configuration or the command line decides anyway. |
| `Arguments.EnvironmentBeatsConfig` | start.sh:273 | The failing inputs: with no option for the parameter, an inherited value beats the configured one that the documented order calls for. |
| `Arguments.ScriptAloneSetsNothing` | start.sh:140-145 | Such a command line: a script alone. |
| `Arguments.NoOptionFor` | README.md:96-104 | The binary's name and the remote switch cannot be set on the command line. |
| `Arguments.AttachedFormIff` | start.sh:123-133 | `key=value` yields the key and value of `key value` if and only if the value does not start with a dash and has no `=` and no newline. |
| `Arguments.AttachedIsSpacedIff` | start.sh:110-145 | The two forms give the same items, anywhere on the command line and whatever surrounds them, if and only if the value is of that kind. |
| `Arguments.TargetIsFirstPositional` | start.sh:203-206 | The test target is the first argument that neither starts with a dash nor follows a dash argument without `=`. |
| `Arguments.StartKeysDashed` | start.sh:123-192 | Every key the script knows, and every key it cuts off a dash argument, starts with a dash, so the statements on nameless arguments apply to it. |
| `Arguments.FlagSwallowsTarget` | start.sh:130-133 | A flag swallows a target written behind it; written before the flag it is taken. |

## Left out

- Signals in `atf_parallels/loop.sh` (lines 46, 61, 66-76): a handler removes the lock whoever holds it, so the theorems are for runs without signals.
- Wrap-around of the shell counter at 2^63, and an id file whose content is not a number.
- Data races in the C++ memory model on `is_connected_`, `session_` and the unlocked `empty()`: single accesses are atomic.
- A session object that is destroyed while a request still uses a reference to it, which a resolve that replaces a dummy in the middle of the request causes; what the request then does is undefined, and the model lets it finish first.
- The cancellation of a resolve by `Stop`: it ends a resolve whose handler is not queued yet, while one that is at its `connect`, or about to be, goes on and after a refusal starts anew; the model has one outstanding resolve, which may end in any of these ways.
- Invalid addresses, for which `make_address` throws, and the parameter checks in the two `Bind` methods.
- The destructors: that of the message broker erases from the map it iterates over; that of the client joins the listener and closes the connection.
- `fwrite` and `fread` failures in the chunked transfer, and a file that changes during a transfer.
- Transfer.GetFileContent: an offset behind the end of the file is excluded, because the C code then computes a wrapped length and returns an uninitialised buffer; the client never asks for one.
- `handle_rpc_error` (`src/remote_adapter/remote_adapter_client/remote_client/rpc_connection_impl.cc:47-55`) itself throws when the error object is not a pair of an int and a string; the exception then leaves `file_call` with the partial temporary file in place.
- Dispatcher.EchoedRowParses: pathname expansion is not modelled; the script prints the row unquoted, so a queue line with `*`, `?` or `[` that matches a file name would be replaced by it.
- Signature.MarshallingTypes: type names of 80 characters or more are excluded, because they overflow the buffer; the lookup of a marshaller by name is not modelled.
- Emission with more than seven arguments, the Lua stack and registry handling in `src/qtlua.cc`, and Qt's own connection table, normalisation and argument check, which appear as parameters or as a list of links.
- DynamicObjects.DynamicObject.ConnectDynamicSlot: the lookup of a static signal by name is a parameter.
- Symbolic links and entries appearing during a recursive deletion; the order in which entries are read is arbitrary.
- Write errors that a stream reports only when it is closed, and paths that name directories, in backup and restore; an empty folder path, for which `JoinPath` reads outside the string.
- The three parts of an interface's version text, global variables the loader leaks, rounding of numbers, and whether an XPath query without results gives an empty list or none (taken as empty).
- Error messages whose parts together exceed the range of a C int.
- Looking a parameter up in a configuration file with sed, grep and awk: a configuration is the map it yields; the checks of arguments between parsing and building, and a SKIP_NEXT inherited from the environment.
- Arguments.Shell.ParseArguments: the texts printed by help and by an unknown option are not modelled, only the exit codes.
- OpenSSL, network, timer and date wrappers, plugin loading, process control and Lua registration code: single calls into other libraries.
