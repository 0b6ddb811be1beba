# NETCONF negotiation, keepalive and facade core, in Dafny

This project models four pieces of the OpenDaylight NETCONF repository and
proves properties of each.

- **`HelloDecoder`** (`hello_decoder.dfy`) models the Netty decoder that
  guards a NETCONF session under negotiation (`NetconfXMLToHelloMessageDecoder`).
  - A frame may begin with an additional header (`[user;address;...]`, then a
    newline). The decoder splits that header off and parses the rest as XML.
  - It passes the first `<hello>` on, refuses a second hello, and refuses a
    non-hello before the hello.
  - Non-hello messages after the hello are held back in arrival order.
  - The byte-search helpers are imperative loops. Each is proved equal to a
    recursive reference function, and the lemmas about those functions give
    their meaning.
- **`KeepaliveResponseWaiting`** (`keepalive.dfy`) models the keepalive
  suppression rule of the device facade, as the response-waiting test class
  fixes it.
  - The test's objects are classes: the mocked device RPC service, the
    executor wrapper that records keepalive tasks, the local facade with its
    RPC helpers, and the keepalive facade.
  - Each method of those classes is proved to perform one step of a pure
    state machine (`World`, `Step`). `Inv` is the invariant every step keeps.
  - Each of the five tests is a method whose `ensures` are the test's
    assertions.
- **`SlaveMount`** (`slave_sal_facade.dfy`) models `SlaveSalFacade`.
  - An `AtomicBoolean` guards registration and close.
  - The mount instance receives connected and disconnected notifications
    strictly alternating, starting with connected.
- **`RestconfFields`** (`fields_param.dfy`) models the RESTCONF `fields`
  query parameter (section 4.8.3 of RFC 8040).
  - It covers the non-emptiness checks of `NodeSelector` and `FieldsParam`,
    `parse`, the accessors, and the `toString` forms.
- **`Wrappers`** (`wrappers.dfy`) holds `Option`, `Result` and `Outcome`.
  A Java exception is modelled as a `Failure`/`Fail` value naming the
  exception.

Foreign code is passed in as functions. This covers the XML parser, the hello
classifier, the `fields` grammar and the printing of an api-identifier.
Time in the keepalive tests becomes explicit events: the timer firing, a
future being set, and the keepalive reply.

The facade's implementation file, `KeepaliveSalFacade.java`, is not part of
this model. The keepalive rule is the one the test assertions fix:
- a keepalive task that fires while an RPC is outstanding sends nothing and
  schedules nothing;
- the next task is scheduled when the last outstanding RPC completes
  (test lines 247-268);
- a firing with nothing outstanding sends one `get-config` carrying the
  keepalive payload, and that keepalive's reply schedules the next task.

A suppressed firing does not reschedule itself. Rescheduling there would
contradict the test, which asserts that no other task is scheduled until the
replies arrive (test lines 250-253), and the model follows the test. The two
rules about an idle firing and the keepalive reply are the facade's keepalive
cycle, which these tests do not exercise.

`findByteSequence`, as written, does not look at a byte again after it breaks
a partial match. It can therefore miss an occurrence that begins on that byte:
`]]\n` holds `]\n` at offset 1, yet the search returns -1. The model keeps
that behaviour, and `HelloDecoder.FindMissesOverlap` exhibits it. Through it the frame `[]]\n` keeps its header: nothing is split off, as `HelloDecoder.SplitMissesOverlappingEnd` shows.

## Model

Source paths are relative to the repository root.

| member | source | states |
|---|---|---|
| HelloDecoder.Scan | netconf/netconf-netty-util/src/main/java/org/opendaylight/netconf/nettyutil/handler/NetconfXMLToHelloMessageDecoder.java:146-157 | The search loop fails exactly when the sequence is empty and bytes remain, and then with an out-of-bounds read. Any non-negative result is an offset where the sequence occurs. |
| HelloDecoder.Find | netconf/netconf-netty-util/src/main/java/org/opendaylight/netconf/nettyutil/handler/NetconfXMLToHelloMessageDecoder.java:135-158 | Throws IllegalArgument exactly when the sequence is longer than the array. Equally long inputs give 0 exactly when they are equal, else -1. A non-negative result is an occurrence. An empty sequence against a longer array throws IndexOutOfBounds, from the read of `sequence[index]`. No other input throws. |
| HelloDecoder.FindByteSequence | netconf/netconf-netty-util/src/main/java/org/opendaylight/netconf/nettyutil/handler/NetconfXMLToHelloMessageDecoder.java:135-158 | The imperative findByteSequence loop returns exactly what Find says, exceptions included. |
| HelloDecoder.FindMissesOverlap | netconf/netconf-netty-util/src/main/java/org/opendaylight/netconf/nettyutil/handler/NetconfXMLToHelloMessageDecoder.java:146-157 | `]\n` occurs in `]]\n` at offset 1, yet the search returns -1: resetting the partial match skips the byte that broke it. |
| HelloDecoder.MatchStart | netconf/netconf-netty-util/src/main/java/org/opendaylight/netconf/nettyutil/handler/NetconfXMLToHelloMessageDecoder.java:169-178 | The inner comparison answers true exactly when the start is a prefix of the bytes. It throws IndexOutOfBounds exactly when the bytes are shorter than the start and agree with it as far as they go. |
| HelloDecoder.HeaderStartMeaning | netconf/netconf-netty-util/src/main/java/org/opendaylight/netconf/nettyutil/handler/NetconfXMLToHelloMessageDecoder.java:167-182 | startsWithAdditionalHeader is true exactly when the frame begins with `[`, `\r\n[` or `\n[`. It throws IndexOutOfBounds exactly on the frames that are empty, `\r`, `\r\n` or `\n`. |
| HelloDecoder.HeaderStart | netconf/netconf-netty-util/src/main/java/org/opendaylight/netconf/nettyutil/handler/NetconfXMLToHelloMessageDecoder.java:167-182 | What startsWithAdditionalHeader returns or throws. It has no contract of its own; HeaderStartMeaning gives its meaning. |
| HelloDecoder.StartsWithAdditionalHeader | netconf/netconf-netty-util/src/main/java/org/opendaylight/netconf/nettyutil/handler/NetconfXMLToHelloMessageDecoder.java:167-182 | The nested loops over POSSIBLE_STARTS return exactly HeaderStart, so HeaderStartMeaning describes them. |
| HelloDecoder.HeaderEndFrom | netconf/netconf-netty-util/src/main/java/org/opendaylight/netconf/nettyutil/handler/NetconfXMLToHelloMessageDecoder.java:123-133 | A result is -1 or a position within the frame. A position other than -1 is just past one of the candidate ends. |
| HelloDecoder.HeaderEnd | netconf/netconf-netty-util/src/main/java/org/opendaylight/netconf/nettyutil/handler/NetconfXMLToHelloMessageDecoder.java:123-133 | What getAdditionalHeaderEndIndex returns or throws. It has no contract of its own; HeaderEndMeaning gives its meaning, for both candidate ends. |
| HelloDecoder.HeaderEndMeaning | netconf/netconf-netty-util/src/main/java/org/opendaylight/netconf/nettyutil/handler/NetconfXMLToHelloMessageDecoder.java:123-133 | Throws IllegalArgument exactly on frames shorter than 2, and on 2-byte frames other than `]\n`. A found end is just past `]\n` or `]\r\n`. A `]\n` found anywhere wins, giving its offset + 2. -1 means both searches returned -1. When `]\n` is not found and `]\r\n` is found at offset j, the result is j + 3. Two -1 searches give -1. |
| HelloDecoder.HeaderEndFailure | netconf/netconf-netty-util/src/main/java/org/opendaylight/netconf/nettyutil/handler/NetconfXMLToHelloMessageDecoder.java:123-144 | getAdditionalHeaderEndIndex throws exactly on frames shorter than 2, and on 2-byte frames other than `]\n`, and then always IllegalArgument. |
| HelloDecoder.HeaderEndFound | netconf/netconf-netty-util/src/main/java/org/opendaylight/netconf/nettyutil/handler/NetconfXMLToHelloMessageDecoder.java:123-133 | A found end lies just past `]\n` or `]\r\n`. |
| HelloDecoder.HeaderEndPrefersFirst | netconf/netconf-netty-util/src/main/java/org/opendaylight/netconf/nettyutil/handler/NetconfXMLToHelloMessageDecoder.java:123-133 | A `]\n` that the search finds wins, giving its offset + 2. |
| HelloDecoder.HeaderEndNone | netconf/netconf-netty-util/src/main/java/org/opendaylight/netconf/nettyutil/handler/NetconfXMLToHelloMessageDecoder.java:123-133 | -1 means both searches returned -1. |
| HelloDecoder.HeaderEndSecondCandidate | netconf/netconf-netty-util/src/main/java/org/opendaylight/netconf/nettyutil/handler/NetconfXMLToHelloMessageDecoder.java:123-133 | When `]\n` is not found, `]\r\n` decides: its offset + 3 when found, and -1 when it is not found either. |
| HelloDecoder.GetAdditionalHeaderEndIndex | netconf/netconf-netty-util/src/main/java/org/opendaylight/netconf/nettyutil/handler/NetconfXMLToHelloMessageDecoder.java:123-133 | The loop over POSSIBLE_ENDS returns exactly HeaderEnd. |
| HelloDecoder.SplitFrame | netconf/netconf-netty-util/src/main/java/org/opendaylight/netconf/nettyutil/handler/NetconfXMLToHelloMessageDecoder.java:79-89 | The header/body split of decode, or the exception a helper throws. It has no contract of its own; SplitFrameMeaning gives its meaning. |
| HelloDecoder.SplitFrameMeaning | netconf/netconf-netty-util/src/main/java/org/opendaylight/netconf/nettyutil/handler/NetconfXMLToHelloMessageDecoder.java:79-89 | When the start check holds and an end above -1 is found, the frame is cut there: the bytes before the end are the header and the rest is the body. When the start check is false, or it holds and the end search returns -1, nothing is split off and the body is the whole frame. These are the only cases with no header. A split-off header followed by the body is the whole frame. Such a header follows a successful start check and ends with `]\n` or `]\r\n`. Without a header the body is the whole frame. Splitting fails exactly when the start check throws, or the start holds and the end search throws. |
| HelloDecoder.SplitMissesOverlappingEnd | netconf/netconf-netty-util/src/main/java/org/opendaylight/netconf/nettyutil/handler/NetconfXMLToHelloMessageDecoder.java:81-88 | The frame `[]]\n` ends with `]\n`, yet decode splits off no header and parses the whole frame, because findByteSequence misses the overlapping `]\n`. |
| HelloDecoder.GetNetconfMessage | netconf/netconf-netty-util/src/main/java/org/opendaylight/netconf/nettyutil/handler/NetconfXMLToHelloMessageDecoder.java:110-121 | The message wraps the document. It is a hello exactly when the classifier says so, and a hello carries the additional header it came with. |
| HelloDecoder.Message | netconf/netconf-netty-util/src/main/java/org/opendaylight/netconf/nettyutil/handler/NetconfXMLToHelloMessageDecoder.java:79-93 | The message a frame carries, or the exception raised on the way to it. It has no contract of its own; MessageMeaning gives its meaning. |
| HelloDecoder.MessageMeaning | netconf/netconf-netty-util/src/main/java/org/opendaylight/netconf/nettyutil/handler/NetconfXMLToHelloMessageDecoder.java:79-93 | A frame yields no message exactly when its split throws or its body is not XML. A split exception propagates unchanged and a bad body is an XmlParse error. A message wraps the parsed body, is a hello exactly when the classifier says so, and a hello carries the split-off header. |
| HelloDecoder.DecodeFrame | netconf/netconf-netty-util/src/main/java/org/opendaylight/netconf/nettyutil/handler/NetconfXMLToHelloMessageDecoder.java:61-108 | An empty buffer changes nothing. An exception leaves the state unchanged and emits nothing. At most one message is emitted. An emitted message is a hello, arriving before any hello, and it sets helloReceived. helloReceived ends true exactly when it was true or a message was emitted. The held-back list is unchanged, or gains exactly one non-hello appended after the hello. A frame that yields no message is covered by DecodeRefusesBadFrame. |
| HelloDecoder.HelloBarrier | netconf/netconf-netty-util/src/main/java/org/opendaylight/netconf/nettyutil/handler/NetconfXMLToHelloMessageDecoder.java:93-104 | There are four cases for a parsed message. The first hello is passed on. A second hello raises IllegalState. A non-hello before the hello raises IllegalState. A non-hello after the hello is appended to nonHelloMessages and not passed on. |
| HelloDecoder.DecodeRefusesBadFrame | netconf/netconf-netty-util/src/main/java/org/opendaylight/netconf/nettyutil/handler/NetconfXMLToHelloMessageDecoder.java:79-91 | A non-empty frame whose split throws (startsWithAdditionalHeader, getAdditionalHeaderEndIndex) or whose body does not parse makes decode throw that exception, with nothing added to `out` and the state unchanged. |
| HelloDecoder.DecodeRefusesShortFrame | netconf/netconf-netty-util/src/main/java/org/opendaylight/netconf/nettyutil/handler/NetconfXMLToHelloMessageDecoder.java:81 | The frames `\r`, `\r\n` and `\n` make decode throw IndexOutOfBounds from startsWithAdditionalHeader, with nothing added to `out` and the state unchanged. |
| HelloDecoder.Run | netconf/netconf-netty-util/src/main/java/org/opendaylight/netconf/nettyutil/handler/NetconfXMLToHelloMessageDecoder.java:61-108 | decode applied to frames in order. It has no contract of its own; RunPassesOneHello gives its meaning. |
| HelloDecoder.RunPassesOneHello | netconf/netconf-netty-util/src/main/java/org/opendaylight/netconf/nettyutil/handler/NetconfXMLToHelloMessageDecoder.java:93-104 | Over any sequence of frames, only hellos are passed on. Exactly one is passed on when helloReceived goes from false to true, and none otherwise. Held-back messages are only appended, are all non-hello, and are held only once the hello has arrived. |
| HelloDecoder.NetconfXMLToHelloMessageDecoder.constructor | netconf/netconf-netty-util/src/main/java/org/opendaylight/netconf/nettyutil/handler/NetconfXMLToHelloMessageDecoder.java:56-57 | A new decoder has received no hello and holds no messages. |
| HelloDecoder.NetconfXMLToHelloMessageDecoder.Decode | netconf/netconf-netty-util/src/main/java/org/opendaylight/netconf/nettyutil/handler/NetconfXMLToHelloMessageDecoder.java:61-108 | decode's new fields, what it adds to `out` and the exception it throws are those of DecodeFrame. The buffer is left with nothing readable, and the decoder's invariant holds. |
| HelloDecoder.NetconfXMLToHelloMessageDecoder.DecodeBytes | netconf/netconf-netty-util/src/main/java/org/opendaylight/netconf/nettyutil/handler/NetconfXMLToHelloMessageDecoder.java:74-104 | The try block on the bytes it has read performs DecodeFrame. |
| HelloDecoder.NetconfXMLToHelloMessageDecoder.GetPostHelloNetconfMessages | netconf/netconf-netty-util/src/main/java/org/opendaylight/netconf/nettyutil/handler/NetconfXMLToHelloMessageDecoder.java:193-195 | Returns the held-back messages. All are non-hello, and there are some only after the hello. |
| KeepaliveResponseWaiting.KeepaliveHandles | plugins/sal-netconf-connector/src/test/java/org/opendaylight/netconf/sal/connect/netconf/sal/KeepaliveSalFacadeResponseWaitingTest.java:364-378 | The wrapper records handles of scheduled tasks only, each of a KeepaliveTask command, in strictly increasing scheduling order. |
| KeepaliveResponseWaiting.HandlesAppend | plugins/sal-netconf-connector/src/test/java/org/opendaylight/netconf/sal/connect/netconf/sal/KeepaliveSalFacadeResponseWaitingTest.java:371-378 | Scheduling a task extends the record by its handle exactly when it is a KeepaliveTask. |
| KeepaliveResponseWaiting.HandlesFollowCommands | plugins/sal-netconf-connector/src/test/java/org/opendaylight/netconf/sal/connect/netconf/sal/KeepaliveSalFacadeResponseWaitingTest.java:371-378 | The record depends only on the commands scheduled, not on which tasks are done. |
| KeepaliveResponseWaiting.ScheduleTimeout | plugins/sal-netconf-connector/src/test/java/org/opendaylight/netconf/sal/connect/netconf/sal/KeepaliveSalFacadeResponseWaitingTest.java:371-378 | Scheduling a request timeout keeps the record sound and leaves the pending keepalive task as it was. |
| KeepaliveResponseWaiting.ScheduleKeepalive | plugins/sal-netconf-connector/src/test/java/org/opendaylight/netconf/sal/connect/netconf/sal/KeepaliveSalFacadeResponseWaitingTest.java:371-378 | Scheduling a keepalive task when none is pending keeps the record sound, and the new task is the pending one. |
| KeepaliveResponseWaiting.FinishPending | plugins/sal-netconf-connector/src/test/java/org/opendaylight/netconf/sal/connect/netconf/sal/KeepaliveSalFacadeResponseWaitingTest.java:110-111 | Once the pending task is done, no task is pending and the record stays sound. |
| KeepaliveResponseWaiting.InvokeAll | plugins/sal-netconf-connector/src/test/java/org/opendaylight/netconf/sal/connect/netconf/sal/KeepaliveSalFacadeResponseWaitingTest.java:336-341 | A success callback issuing RPCs through the facade adds exactly those calls, in order, to the device's log. Each adds one outstanding RPC, one unset future and one task, and earlier futures and tasks are kept. The keepalive record and the flags do not change. |
| KeepaliveResponseWaiting.InitialInv | plugins/sal-netconf-connector/src/test/java/org/opendaylight/netconf/sal/connect/netconf/sal/KeepaliveSalFacadeResponseWaitingTest.java:67-74 | The fixture after setUp satisfies the invariant. |
| KeepaliveResponseWaiting.Forward | plugins/sal-netconf-connector/src/test/java/org/opendaylight/netconf/sal/connect/netconf/sal/KeepaliveSalFacadeResponseWaitingTest.java:94-99 | The facade's wrapped invokeRpc: count the RPC, forward it, schedule its timeout. It has no contract of its own; ForwardInv and KeepaliveSalFacade.InvokeRpc give its meaning. |
| KeepaliveResponseWaiting.ForwardInv | plugins/sal-netconf-connector/src/test/java/org/opendaylight/netconf/sal/connect/netconf/sal/KeepaliveSalFacadeResponseWaitingTest.java:94-99 | Forwarding one RPC, with its timeout scheduled, keeps the invariant. |
| KeepaliveResponseWaiting.InvokeAllInv | plugins/sal-netconf-connector/src/test/java/org/opendaylight/netconf/sal/connect/netconf/sal/KeepaliveSalFacadeResponseWaitingTest.java:336-341 | A callback issuing several RPCs keeps the invariant. |
| KeepaliveResponseWaiting.AttachCallback | plugins/sal-netconf-connector/src/test/java/org/opendaylight/netconf/sal/connect/netconf/sal/KeepaliveSalFacadeResponseWaitingTest.java:310-325 | Futures.addCallback on the future just returned. It has no contract of its own; CallReachesDeviceOnce and KeepaliveSalFacade.AddCallback give its meaning. |
| KeepaliveResponseWaiting.Settle | plugins/sal-netconf-connector/src/test/java/org/opendaylight/netconf/sal/connect/netconf/sal/KeepaliveSalFacadeResponseWaitingTest.java:255-268 | The facade's completion listener. It has no contract of its own; SettleInv and CompleteRpc give its meaning. |
| KeepaliveResponseWaiting.SettleInv | plugins/sal-netconf-connector/src/test/java/org/opendaylight/netconf/sal/connect/netconf/sal/KeepaliveSalFacadeResponseWaitingTest.java:255-268 | The facade's completion listener keeps the invariant. |
| KeepaliveResponseWaiting.Step | plugins/sal-netconf-connector/src/test/java/org/opendaylight/netconf/sal/connect/netconf/sal/KeepaliveSalFacadeResponseWaitingTest.java:84-111 | The facade's rule for every event. It has no contract of its own; StepInv, ConnectSchedulesOneTask, FireWhileBusy, FireWhileIdle, KeepaliveReplySchedulesNext, CallReachesDeviceOnce, CompleteRpc, DisconnectClears and KeepaliveOnlyWhenIdle give its meaning. |
| KeepaliveResponseWaiting.StepInv | plugins/sal-netconf-connector/src/test/java/org/opendaylight/netconf/sal/connect/netconf/sal/KeepaliveSalFacadeResponseWaitingTest.java:227-269 | Every event keeps the invariant. The local facade holds the RPC reference exactly while connected. The counter equals the number of unset futures. The record is sound. A suppressed firing implies outstanding RPCs. While connected the keepalive cycle is in exactly one phase (task pending, firing suppressed, or keepalive awaiting reply); while disconnected it is in none. |
| KeepaliveResponseWaiting.RunInv | plugins/sal-netconf-connector/src/test/java/org/opendaylight/netconf/sal/connect/netconf/sal/KeepaliveSalFacadeResponseWaitingTest.java:227-269 | Every sequence of events keeps the invariant. |
| KeepaliveResponseWaiting.ConnectSchedulesOneTask | plugins/sal-netconf-connector/src/test/java/org/opendaylight/netconf/sal/connect/netconf/sal/KeepaliveSalFacadeResponseWaitingTest.java:91-92 | Connecting hands the RPC reference down and records exactly one new keepalive task, which is the pending one. Nothing is sent to the device. |
| KeepaliveResponseWaiting.FireWhileBusy | plugins/sal-netconf-connector/src/test/java/org/opendaylight/netconf/sal/connect/netconf/sal/KeepaliveSalFacadeResponseWaitingTest.java:104-111 | A firing while an RPC is outstanding sends nothing. The fired task is done, no task is pending or newly scheduled, and the firing is marked suppressed. |
| KeepaliveResponseWaiting.FireWhileIdle | plugins/sal-netconf-connector/src/test/java/org/opendaylight/netconf/sal/connect/netconf/sal/KeepaliveSalFacadeResponseWaitingTest.java:104-106 | A firing with nothing outstanding sends exactly one get-config with the keepalive payload. It schedules no task yet and awaits the reply. |
| KeepaliveResponseWaiting.KeepaliveReplySchedulesNext | plugins/sal-netconf-connector/src/test/java/org/opendaylight/netconf/sal/connect/netconf/sal/KeepaliveSalFacadeResponseWaitingTest.java:104-106 | The keepalive's reply records exactly one new keepalive task, which is pending. |
| KeepaliveResponseWaiting.CallReachesDeviceOnce | plugins/sal-netconf-connector/src/test/java/org/opendaylight/netconf/sal/connect/netconf/sal/KeepaliveSalFacadeResponseWaitingTest.java:299-361 | With the reference present, a helper's first RPC reaches the device exactly once, its callback's RPCs wait in the new future, and one more RPC is outstanding. With the reference absent, the helper changes nothing. |
| KeepaliveResponseWaiting.CompleteRpc | plugins/sal-netconf-connector/src/test/java/org/opendaylight/netconf/sal/connect/netconf/sal/KeepaliveSalFacadeResponseWaitingTest.java:255-268 | Setting a future issues its callback's RPCs, in order, only on success, and earlier tasks are untouched. One new, not-done keepalive task is recorded exactly when a firing was suppressed and this was the last outstanding RPC; otherwise the record is unchanged. |
| KeepaliveResponseWaiting.DisconnectClears | plugins/sal-netconf-connector/src/test/java/org/opendaylight/netconf/sal/connect/netconf/sal/KeepaliveSalFacadeResponseWaitingTest.java:282-285 | Disconnecting clears the local facade's reference, as its onDeviceDisconnected does. Its other clauses (no task pending, no suppressed firing, no keepalive in flight, nothing sent) are assumed behaviour of the keepalive facade; see "## Left out". |
| KeepaliveResponseWaiting.KeepaliveOnlyWhenIdle | plugins/sal-netconf-connector/src/test/java/org/opendaylight/netconf/sal/connect/netconf/sal/KeepaliveSalFacadeResponseWaitingTest.java:104-106 | The count of keepalive get-configs in the device log grows by one exactly on a firing of a pending task with nothing outstanding, and otherwise stays the same. |
| KeepaliveResponseWaiting.DeviceRpc.constructor | plugins/sal-netconf-connector/src/test/java/org/opendaylight/netconf/sal/connect/netconf/sal/KeepaliveSalFacadeResponseWaitingTest.java:61-62 | The mock starts with no calls and no futures. |
| KeepaliveResponseWaiting.ScheduledExecutorServiceWrapper.constructor | plugins/sal-netconf-connector/src/test/java/org/opendaylight/netconf/sal/connect/netconf/sal/KeepaliveSalFacadeResponseWaitingTest.java:364-369 | The wrapper starts with no tasks and an empty keepaliveTasks list. |
| KeepaliveResponseWaiting.LocalNetconfSalFacade.constructor | plugins/sal-netconf-connector/src/test/java/org/opendaylight/netconf/sal/connect/netconf/sal/KeepaliveSalFacadeResponseWaitingTest.java:271-272 | The local facade starts without an RPC reference. |
| KeepaliveResponseWaiting.DeviceRpc.InvokeRpc | plugins/sal-netconf-connector/src/test/java/org/opendaylight/netconf/sal/connect/netconf/sal/KeepaliveSalFacadeResponseWaitingTest.java:88-89 | The mock records the call and hands out a new unset future. |
| KeepaliveResponseWaiting.DeviceRpc.InvokeKeepalive | plugins/sal-netconf-connector/src/test/java/org/opendaylight/netconf/sal/connect/netconf/sal/KeepaliveSalFacadeResponseWaitingTest.java:105-106 | The mock records get-config with the keepalive payload. |
| KeepaliveResponseWaiting.DeviceRpc.AddCallback | plugins/sal-netconf-connector/src/test/java/org/opendaylight/netconf/sal/connect/netconf/sal/KeepaliveSalFacadeResponseWaitingTest.java:314-323 | The callback joins the most recent future; the call log is unchanged. |
| KeepaliveResponseWaiting.DeviceRpc.SetFuture | plugins/sal-netconf-connector/src/test/java/org/opendaylight/netconf/sal/connect/netconf/sal/KeepaliveSalFacadeResponseWaitingTest.java:136 | Setting the k-th future removes it from the unset ones and returns it with its callback. |
| KeepaliveResponseWaiting.ScheduledExecutorServiceWrapper.Schedule | plugins/sal-netconf-connector/src/test/java/org/opendaylight/netconf/sal/connect/netconf/sal/KeepaliveSalFacadeResponseWaitingTest.java:371-378 | Every command becomes a new, not-done task. Its handle is added to keepaliveTasks exactly when it is a KeepaliveTask. |
| KeepaliveResponseWaiting.ScheduledExecutorServiceWrapper.Finish | plugins/sal-netconf-connector/src/test/java/org/opendaylight/netconf/sal/connect/netconf/sal/KeepaliveSalFacadeResponseWaitingTest.java:111 | That task, and only that one, becomes done. |
| KeepaliveResponseWaiting.LocalNetconfSalFacade.OnDeviceConnected | plugins/sal-netconf-connector/src/test/java/org/opendaylight/netconf/sal/connect/netconf/sal/KeepaliveSalFacadeResponseWaitingTest.java:274-280 | Stores the RPC service it is handed. |
| KeepaliveResponseWaiting.LocalNetconfSalFacade.OnDeviceDisconnected | plugins/sal-netconf-connector/src/test/java/org/opendaylight/netconf/sal/connect/netconf/sal/KeepaliveSalFacadeResponseWaitingTest.java:282-285 | Clears the reference. |
| KeepaliveResponseWaiting.LocalNetconfSalFacade.InvokeNullRpc | plugins/sal-netconf-connector/src/test/java/org/opendaylight/netconf/sal/connect/netconf/sal/KeepaliveSalFacadeResponseWaitingTest.java:299-304 | Through the reference, when present, performs the Call step of invokeRpc(null, null). |
| KeepaliveResponseWaiting.LocalNetconfSalFacade.PerformCommit | plugins/sal-netconf-connector/src/test/java/org/opendaylight/netconf/sal/connect/netconf/sal/KeepaliveSalFacadeResponseWaitingTest.java:310-325 | Performs the Call step: commit now, unlock in the success callback. |
| KeepaliveResponseWaiting.LocalNetconfSalFacade.PerformCommitWithError | plugins/sal-netconf-connector/src/test/java/org/opendaylight/netconf/sal/connect/netconf/sal/KeepaliveSalFacadeResponseWaitingTest.java:331-347 | Performs the Call step: commit now, discard-changes then unlock in the success callback. |
| KeepaliveResponseWaiting.LocalNetconfSalFacade.InvokeGetRpc | plugins/sal-netconf-connector/src/test/java/org/opendaylight/netconf/sal/connect/netconf/sal/KeepaliveSalFacadeResponseWaitingTest.java:349-354 | Performs the Call step of get. |
| KeepaliveResponseWaiting.LocalNetconfSalFacade.InvokeGetConfigRpc | plugins/sal-netconf-connector/src/test/java/org/opendaylight/netconf/sal/connect/netconf/sal/KeepaliveSalFacadeResponseWaitingTest.java:356-361 | Performs the Call step of get-config. |
| KeepaliveResponseWaiting.KeepaliveSalFacade.constructor | plugins/sal-netconf-connector/src/test/java/org/opendaylight/netconf/sal/connect/netconf/sal/KeepaliveSalFacadeResponseWaitingTest.java:72 | The fixture starts in the initial World, invariant included. |
| KeepaliveResponseWaiting.KeepaliveSalFacade.OnDeviceConnected | plugins/sal-netconf-connector/src/test/java/org/opendaylight/netconf/sal/connect/netconf/sal/KeepaliveSalFacadeResponseWaitingTest.java:91-92 | Performs the Connect step and keeps the invariant. |
| KeepaliveResponseWaiting.KeepaliveSalFacade.OnDeviceDisconnected | plugins/sal-netconf-connector/src/test/java/org/opendaylight/netconf/sal/connect/netconf/sal/KeepaliveSalFacadeResponseWaitingTest.java:282-285 | Performs the Disconnect step and keeps the invariant. |
| KeepaliveResponseWaiting.KeepaliveSalFacade.InvokeRpc | plugins/sal-netconf-connector/src/test/java/org/opendaylight/netconf/sal/connect/netconf/sal/KeepaliveSalFacadeResponseWaitingTest.java:94-98 | Counts the RPC, forwards it to the device and schedules its request timeout, keeping the invariant. |
| KeepaliveResponseWaiting.KeepaliveSalFacade.AddCallback | plugins/sal-netconf-connector/src/test/java/org/opendaylight/netconf/sal/connect/netconf/sal/KeepaliveSalFacadeResponseWaitingTest.java:314-323 | Attaches the caller's success callback to the last future. |
| KeepaliveResponseWaiting.KeepaliveSalFacade.CompleteRpc | plugins/sal-netconf-connector/src/test/java/org/opendaylight/netconf/sal/connect/netconf/sal/KeepaliveSalFacadeResponseWaitingTest.java:255-268 | Performs the Complete step (the facade's listener, then the caller's callback on success) and keeps the invariant. |
| KeepaliveResponseWaiting.KeepaliveSalFacade.SettleRpc | plugins/sal-netconf-connector/src/test/java/org/opendaylight/netconf/sal/connect/netconf/sal/KeepaliveSalFacadeResponseWaitingTest.java:255-268 | The facade's listener: uncounts the RPC and, after a suppressed firing, schedules the next task when the last RPC completes. It returns the set future. |
| KeepaliveResponseWaiting.KeepaliveSalFacade.IssueAll | plugins/sal-netconf-connector/src/test/java/org/opendaylight/netconf/sal/connect/netconf/sal/KeepaliveSalFacadeResponseWaitingTest.java:336-341 | Its loop issues the callback's RPCs in order, as InvokeAll says. |
| KeepaliveResponseWaiting.KeepaliveSalFacade.RunKeepaliveTask | plugins/sal-netconf-connector/src/test/java/org/opendaylight/netconf/sal/connect/netconf/sal/KeepaliveSalFacadeResponseWaitingTest.java:247-253 | Performs the Fire step and keeps the invariant. |
| KeepaliveResponseWaiting.KeepaliveSalFacade.OnKeepaliveReply | plugins/sal-netconf-connector/src/test/java/org/opendaylight/netconf/sal/connect/netconf/sal/KeepaliveSalFacadeResponseWaitingTest.java:104-106 | Performs the KeepaliveReply step and keeps the invariant. |
| KeepaliveResponseWaiting.SetUp | plugins/sal-netconf-connector/src/test/java/org/opendaylight/netconf/sal/connect/netconf/sal/KeepaliveSalFacadeResponseWaitingTest.java:67-74 | Builds fresh, wired objects in the initial World. |
| KeepaliveResponseWaiting.TraceResponseWaiting | plugins/sal-netconf-connector/src/test/java/org/opendaylight/netconf/sal/connect/netconf/sal/KeepaliveSalFacadeResponseWaitingTest.java:84-112 | The exact World after connecting, invoking the null RPC and firing: one call, one keepalive task, done, suppressed. |
| KeepaliveResponseWaiting.TraceCommitAndUnlock | plugins/sal-netconf-connector/src/test/java/org/opendaylight/netconf/sal/connect/netconf/sal/KeepaliveSalFacadeResponseWaitingTest.java:118-147 | The call log is commit and then commit, unlock. The final World has one keepalive task, not done. |
| KeepaliveResponseWaiting.TraceCommitWithError | plugins/sal-netconf-connector/src/test/java/org/opendaylight/netconf/sal/connect/netconf/sal/KeepaliveSalFacadeResponseWaitingTest.java:164-171 | The exact World after connecting and performCommitWithError. |
| KeepaliveResponseWaiting.TraceCommitWithErrorSet | plugins/sal-netconf-connector/src/test/java/org/opendaylight/netconf/sal/connect/netconf/sal/KeepaliveSalFacadeResponseWaitingTest.java:172-178 | Setting the commit future issues discard-changes and unlock. |
| KeepaliveResponseWaiting.TraceDiscardAndUnlockSet | plugins/sal-netconf-connector/src/test/java/org/opendaylight/netconf/sal/connect/netconf/sal/KeepaliveSalFacadeResponseWaitingTest.java:179-186 | Setting both futures leaves one keepalive task, not done, and nothing outstanding. |
| KeepaliveResponseWaiting.TraceParallel | plugins/sal-netconf-connector/src/test/java/org/opendaylight/netconf/sal/connect/netconf/sal/KeepaliveSalFacadeResponseWaitingTest.java:201-211 | The exact World after get and get-config are issued in parallel. |
| KeepaliveResponseWaiting.TraceParallelReplies | plugins/sal-netconf-connector/src/test/java/org/opendaylight/netconf/sal/connect/netconf/sal/KeepaliveSalFacadeResponseWaitingTest.java:213-220 | Both replies before the firing leave one keepalive task, not done. |
| KeepaliveResponseWaiting.TraceParallelFire | plugins/sal-netconf-connector/src/test/java/org/opendaylight/netconf/sal/connect/netconf/sal/KeepaliveSalFacadeResponseWaitingTest.java:247-253 | A firing with both outstanding marks the task done, suppressed, with nothing new scheduled. |
| KeepaliveResponseWaiting.TraceParallelLateReply | plugins/sal-netconf-connector/src/test/java/org/opendaylight/netconf/sal/connect/netconf/sal/KeepaliveSalFacadeResponseWaitingTest.java:255-260 | The first reply schedules nothing. |
| KeepaliveResponseWaiting.TraceParallelLastReply | plugins/sal-netconf-connector/src/test/java/org/opendaylight/netconf/sal/connect/netconf/sal/KeepaliveSalFacadeResponseWaitingTest.java:262-268 | The second reply schedules a second keepalive task, not done, while the first stays done. |
| KeepaliveResponseWaiting.TestKeepaliveSalResponseWaiting | plugins/sal-netconf-connector/src/test/java/org/opendaylight/netconf/sal/connect/netconf/sal/KeepaliveSalFacadeResponseWaitingTest.java:84-112 | The device saw only the null RPC and no keepalive, and exactly one keepalive task was scheduled, now done. |
| KeepaliveResponseWaiting.TestKeepaliveSalWithRpcCommitAndRpcUnlock | plugins/sal-netconf-connector/src/test/java/org/opendaylight/netconf/sal/connect/netconf/sal/KeepaliveSalFacadeResponseWaitingTest.java:118-147 | Commit before the future is set, then commit and unlock. One keepalive task, not done. |
| KeepaliveResponseWaiting.TestKeepaliveSalWithRpcCommitErrorRpcDiscardChangesRpcUnlock | plugins/sal-netconf-connector/src/test/java/org/opendaylight/netconf/sal/connect/netconf/sal/KeepaliveSalFacadeResponseWaitingTest.java:153-187 | Commit, then commit, discard-changes and unlock. One keepalive task, not done. |
| KeepaliveResponseWaiting.TestKeepaliveSalWithParallelRpcGetRpcGetConfig | plugins/sal-netconf-connector/src/test/java/org/opendaylight/netconf/sal/connect/netconf/sal/KeepaliveSalFacadeResponseWaitingTest.java:193-221 | Get and get-config each reach the device once. One keepalive task, not done. |
| KeepaliveResponseWaiting.TestKeepaliveSalWithParallelRpcGetRpcGetConfigAndLongerWaitForReply | plugins/sal-netconf-connector/src/test/java/org/opendaylight/netconf/sal/connect/netconf/sal/KeepaliveSalFacadeResponseWaitingTest.java:227-269 | One task, done, after the firing and after the first reply. Two tasks after the last reply, the first done and the second not. |
| SlaveMount.Connected | netconf/netconf-topology-singleton/src/main/java/org/opendaylight/netconf/topology/singleton/impl/SlaveSalFacade.java:49-55 | The connected notification carries the schema and services, plus both proxies built from the id, the master actor and the timeout. |
| SlaveMount.Apply | netconf/netconf-topology-singleton/src/main/java/org/opendaylight/netconf/topology/singleton/impl/SlaveSalFacade.java:43-68 | The flag ends set exactly after a registration call. A registration while unregistered appends one connected notification. A close while registered appends one disconnected notification. A registration while registered, or a close while unregistered, changes nothing. |
| SlaveMount.AlternatingBalance | netconf/netconf-topology-singleton/src/main/java/org/opendaylight/netconf/topology/singleton/impl/SlaveSalFacade.java:43-68 | In an alternating log, connects minus disconnects is the log's length mod 2. |
| SlaveMount.ApplyConsistent | netconf/netconf-topology-singleton/src/main/java/org/opendaylight/netconf/topology/singleton/impl/SlaveSalFacade.java:43-68 | Every call keeps the flag consistent with an alternating log. |
| SlaveMount.ReplayConsistent | netconf/netconf-topology-singleton/src/main/java/org/opendaylight/netconf/topology/singleton/impl/SlaveSalFacade.java:43-68 | Any call sequence on a new facade ends consistent. |
| SlaveMount.ReplayAlternates | netconf/netconf-topology-singleton/src/main/java/org/opendaylight/netconf/topology/singleton/impl/SlaveSalFacade.java:43-68 | Over any call sequence, the mount instance's notifications alternate starting with connected. Connects outnumber disconnects by one exactly when the facade is registered, and are equal otherwise. |
| SlaveMount.ReRegisterAfterClose | netconf/netconf-topology-singleton/src/main/java/org/opendaylight/netconf/topology/singleton/impl/SlaveSalFacade.java:60-65 | Close followed by a registration appends disconnected and then connected. |
| SlaveMount.AtomicBoolean.CompareAndSet | netconf/netconf-topology-singleton/src/main/java/org/opendaylight/netconf/topology/singleton/impl/SlaveSalFacade.java:45 | Succeeds exactly when the value was the expected one, and then stores the update; otherwise the value is unchanged. |
| SlaveMount.SlaveSalFacade.constructor | netconf/netconf-topology-singleton/src/main/java/org/opendaylight/netconf/topology/singleton/impl/SlaveSalFacade.java:31-41 | The facade starts unregistered, with nothing notified. |
| SlaveMount.SlaveSalFacade.RegisterSlaveMountPoint | netconf/netconf-topology-singleton/src/main/java/org/opendaylight/netconf/topology/singleton/impl/SlaveSalFacade.java:43-58 | The new state is Apply of the registration, and the consistency invariant is kept. |
| SlaveMount.SlaveSalFacade.Close | netconf/netconf-topology-singleton/src/main/java/org/opendaylight/netconf/topology/singleton/impl/SlaveSalFacade.java:60-68 | The new state is Apply of the close, and the consistency invariant is kept. |
| RestconfFields.NewNodeSelector | restconf/restconf-nb-rfc8040/src/main/java/org/opendaylight/restconf/nb/rfc8040/FieldsParam.java:38-42 | Builds a selector exactly when the path is non-empty, keeping both lists; otherwise throws IllegalArgument "At least path segment is required". |
| RestconfFields.NewLeafSelector | restconf/restconf-nb-rfc8040/src/main/java/org/opendaylight/restconf/nb/rfc8040/FieldsParam.java:44-46 | Builds a selector with no sub-selectors exactly when the path is non-empty, and otherwise throws the same IllegalArgument. |
| RestconfFields.Path | restconf/restconf-nb-rfc8040/src/main/java/org/opendaylight/restconf/nb/rfc8040/FieldsParam.java:48-55 | The path has at least one element. |
| RestconfFields.SubSelectors | restconf/restconf-nb-rfc8040/src/main/java/org/opendaylight/restconf/nb/rfc8040/FieldsParam.java:57-65 | Every nested selector has a non-empty path too. |
| RestconfFields.SelectorRoundTrip | restconf/restconf-nb-rfc8040/src/main/java/org/opendaylight/restconf/nb/rfc8040/FieldsParam.java:38-65 | The constructor applied to a selector's path and subSelectors gives the selector back. |
| RestconfFields.NewFieldsParam | restconf/restconf-nb-rfc8040/src/main/java/org/opendaylight/restconf/nb/rfc8040/FieldsParam.java:85-89 | Builds a parameter exactly when there is a selector, keeping the selectors and the text; otherwise throws IllegalArgument "At least one selector is required". |
| RestconfFields.Parse | restconf/restconf-nb-rfc8040/src/main/java/org/opendaylight/restconf/nb/rfc8040/FieldsParam.java:98-100 | Succeeds exactly when the parser finds a non-empty list; the result then holds that list and the unchanged text. A parser failure becomes a ParseException. An empty list becomes IllegalArgument. |
| RestconfFields.NodeSelectors | restconf/restconf-nb-rfc8040/src/main/java/org/opendaylight/restconf/nb/rfc8040/FieldsParam.java:116-123 | A parameter has at least one selector. |
| RestconfFields.ParseRoundTrip | restconf/restconf-nb-rfc8040/src/main/java/org/opendaylight/restconf/nb/rfc8040/FieldsParam.java:98-128 | Parsing a parameter's own value, with a parser that finds its selectors there, gives the parameter back. |
| RestconfFields.ParamValue | restconf/restconf-nb-rfc8040/src/main/java/org/opendaylight/restconf/nb/rfc8040/FieldsParam.java:125-128 | paramValue returns the stored text. It has no contract of its own; ParseKeepsValue gives its meaning. |
| RestconfFields.ParseKeepsValue | restconf/restconf-nb-rfc8040/src/main/java/org/opendaylight/restconf/nb/rfc8040/FieldsParam.java:125-128 | After a successful parse, paramValue is the text given and nodeSelectors is what the parser found. |
| RestconfFields.ParamName | restconf/restconf-nb-rfc8040/src/main/java/org/opendaylight/restconf/nb/rfc8040/FieldsParam.java:107-110 | The query-parameter name is `fields`. |
| RestconfFields.CapabilityUri | restconf/restconf-nb-rfc8040/src/main/java/org/opendaylight/restconf/nb/rfc8040/FieldsParam.java:80 | The capability is `urn:ietf:params:restconf:capability:fields:1.0`. |
| RestconfFields.SelectorString | restconf/restconf-nb-rfc8040/src/main/java/org/opendaylight/restconf/nb/rfc8040/FieldsParam.java:67-74 | NodeSelector.toString. It has no contract of its own; SelectorStringShape gives its meaning. |
| RestconfFields.SelectorStringShape | restconf/restconf-nb-rfc8040/src/main/java/org/opendaylight/restconf/nb/rfc8040/FieldsParam.java:67-74 | `NodeSelector{path=[...]}` without sub-selectors; `NodeSelector{path=[...], subSelectors=[...]}` with them. |
| RestconfFields.FieldsString | restconf/restconf-nb-rfc8040/src/main/java/org/opendaylight/restconf/nb/rfc8040/FieldsParam.java:130-133 | FieldsParam.toString. It has no contract of its own; FieldsStringShape gives its meaning. |
| RestconfFields.FieldsStringShape | restconf/restconf-nb-rfc8040/src/main/java/org/opendaylight/restconf/nb/rfc8040/FieldsParam.java:130-133 | `FieldsParam{nodeSelectors=[...]}`; the parameter's text is not printed. |

## Left out

- XML parsing, `HelloMessage.isHelloMessage`, the `fields` grammar (`FieldsParameterParser`) and `ApiIdentifier.toString` are foreign code. They are parameters of the model; nothing is assumed about them.
- HelloDecoder.DecodeFrame keeps the additional header as raw bytes. Its UTF-8 decoding and `NetconfHelloMessageAdditionalHeader.fromString`, including any exception that may raise, are not modelled.
- HelloDecoder.NetconfXMLToHelloMessageDecoder.GetPostHelloNetconfMessages returns a copy of the held messages. Java returns the live `nonHelloMessages` list, which later decodes keep changing. That aliasing is not modelled.
- Logging, `hexDump` and `logMessage` have no effect on state and are left out.
- Of Netty's `ByteBuf`, only "every readable byte is consumed" is modelled. `markReaderIndex` and the reader index itself are not.
- Java's `int` width is not modelled. Array indices stay below 2^31, so no search index can overflow.
- The keepalive facade's implementation (`KeepaliveSalFacade.java`) is not part of this model. The rule is taken from the test assertions and the test's own comments, and it is stated on the event level. Disconnecting is the exception, described next.
- KeepaliveResponseWaiting.Step's Disconnect case and KeepaliveResponseWaiting.DisconnectClears are assumed behaviour of the facade. The tests never call the keepalive facade's `onDeviceDisconnected`. Only the cleared reference of the local facade is backed by its own handler. Cancelling the pending keepalive task, clearing the suppressed firing and the keepalive in flight, and keeping the outstanding count and the unset futures are not fixed by any test.
- KeepaliveResponseWaiting.Step's Complete case and KeepaliveResponseWaiting.CompleteRpc assume that the facade's listener runs before the caller's success callback. This holds if the facade returns the device's own future and listeners run in the order they were added. No test fixes that order: the commit traces never fire a keepalive task, and the parallel test's RPCs have no callbacks. The order matters only when the last RPC outstanding after a suppressed firing has a callback that issues more RPCs. The model then schedules the next keepalive task while RPCs are outstanding again. The opposite order would schedule none.
- Real time, `TimeUnit.sleep`, Mockito's `after(2500)` and the executor's threads are replaced by explicit events. Concurrency between the timer and RPC completions is not modelled.
- The request timeout is scheduled for every forwarded RPC, but never fires. The tests never let it, and the keepalive-failure path (`onDeviceFailed`) is not modelled.
- The tests' `onFailure` callbacks are empty. A failed future therefore only settles the RPC.
- `setListener`, `tearDown`/`shutdown`, and LocalNetconfSalFacade's empty `onDeviceFailed`, `onNotification` and `close` have no effect on the tested state and are left out.
- The `instanceOf` assertion in LocalNetconfSalFacade's `onDeviceConnected` is left out, because the model has only one RPC service type.
- Calling connect twice without a disconnect has no effect in the model.
- SlaveSalFacade's actor system, the dispatcher, `NetconfDeviceSalProvider` and the mount-point service are replaced by the log of calls the mount instance receives. A proxy is recorded by the arguments it is built from. Its log line is left out.
- SlaveMount.AtomicBoolean.CompareAndSet is modelled sequentially. Atomicity under concurrent callers is not modelled.
- Java nulls (`requireNonNull`) cannot occur in the model, and `javaClass()` has no counterpart.
