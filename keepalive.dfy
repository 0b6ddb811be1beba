/**
 * The keepalive suppression rule of the NETCONF device facade, as the
 * response-waiting tests pin it down.
 *
 * Connecting schedules one keepalive task. A task that fires while any RPC
 * is outstanding sends nothing and schedules nothing; the next task is then
 * scheduled when the last outstanding RPC completes. A task that fires with
 * nothing outstanding sends one keepalive get-config, and its reply schedules
 * the next task.
 *
 * Real time is replaced by explicit events: the timer firing the pending task
 * (Fire), a future being set (Complete), the keepalive reply (KeepaliveReply).
 * World is the state of the whole test fixture; Step gives the effect of each
 * event and Inv is what every event preserves. The classes below are the
 * test's objects, and each of their methods is proved to perform one Step.
 */
module KeepaliveResponseWaiting {
  import opened Wrappers

  /** The RPCs the tests issue; NullRpc is invokeRpc(null, null). */
  datatype RpcName = NullRpc | Commit | DiscardChanges | Unlock | Get | GetConfig

  /** The input of an RPC: none, or the keepalive's get-config filter. */
  datatype RpcInput = NoInput | KeepalivePayload

  /** One invokeRpc call received by the device's RPC service. */
  datatype DeviceCall = DeviceCall(name: RpcName, input: RpcInput)

  /** The keepalive RPC: get-config with KEEPALIVE_PAYLOAD. */
  const KEEPALIVE_CALL := DeviceCall(GetConfig, KeepalivePayload)

  /** What the facade hands to the executor: the keepalive task, or the timeout of one RPC. */
  datatype Command = KeepaliveTask | RequestTimeoutTask

  /** A ScheduledFuture: its command and whether it is done (ran or was cancelled). */
  datatype ScheduledTask = ScheduledTask(command: Command, done: bool)

  /** A future of a forwarded RPC that is not set yet, and the RPCs its caller's success callback issues. */
  datatype PendingRpc = PendingRpc(name: RpcName, onSuccess: seq<RpcName>)

  /** The invoke helpers of LocalNetconfSalFacade. */
  datatype Helper = InvokeNullRpc | PerformCommit | PerformCommitWithError | InvokeGetRpc | InvokeGetConfigRpc

  /** The RPC a helper issues at once. */
  function HelperRpc(h: Helper): RpcName
  {
    match h
    case InvokeNullRpc => NullRpc
    case PerformCommit => Commit
    case PerformCommitWithError => Commit
    case InvokeGetRpc => Get
    case InvokeGetConfigRpc => GetConfig
  }

  /** The RPCs a helper's callback issues when its first RPC succeeds. */
  function HelperCallback(h: Helper): seq<RpcName>
  {
    match h
    case PerformCommit => [Unlock]
    case PerformCommitWithError => [DiscardChanges, Unlock]
    case _ => []
  }

  /** What can happen to the fixture. */
  datatype Event =
    | Connect                            // onDeviceConnected
    | Disconnect                         // onDeviceDisconnected
    | Call(helper: Helper)               // a LocalNetconfSalFacade helper
    | Complete(k: nat, success: bool)    // the k-th unset future is set (or fails)
    | Fire                               // the pending keepalive task runs
    | KeepaliveReply                     // the keepalive RPC answers

  /**
   * The fixture's state: LocalNetconfSalFacade's rpcs reference (present or
   * not), the keepalive facade's counters and flags, the device mock's call
   * log and unset futures, and the executor wrapper's tasks and keepaliveTasks
   * (handles, that is indices into tasks).
   */
  datatype World = World(
    rpcs: bool,
    connected: bool,
    outstanding: int,
    suppressed: bool,
    keepaliveInFlight: bool,
    deviceCalls: seq<DeviceCall>,
    futures: seq<PendingRpc>,
    tasks: seq<ScheduledTask>,
    keepaliveTasks: seq<nat>)

  /** The fixture after setUp. */
  const Initial := World(false, false, 0, false, false, [], [], [], [])

  // ------------------------------------------------------------------
  // The executor wrapper

  /** The handles ScheduledExecutorServiceWrapper records: those of KeepaliveTask commands, in scheduling order. */
  function KeepaliveHandles(tasks: seq<ScheduledTask>): (hs: seq<nat>)
    ensures forall j :: 0 <= j < |hs| ==> hs[j] < |tasks| && tasks[hs[j]].command == KeepaliveTask
    ensures forall j, j' :: 0 <= j < j' < |hs| ==> hs[j] < hs[j']
    decreases |tasks|
  {
    if tasks == [] then []
    else
      var prefix := tasks[..|tasks| - 1];
      var last := |tasks| - 1;
      assert forall h :: 0 <= h < last ==> tasks[h] == prefix[h];
      KeepaliveHandles(prefix) + (if tasks[last].command == KeepaliveTask then [last] else [])
  }

  /** Appending a task extends the recorded handles by that task's handle exactly when it is a keepalive task. */
  lemma HandlesAppend(tasks: seq<ScheduledTask>, t: ScheduledTask)
    ensures KeepaliveHandles(tasks + [t]) == KeepaliveHandles(tasks) + (if t.command == KeepaliveTask then [|tasks|] else [])
  {
    assert (tasks + [t])[..|tasks|] == tasks;
  }

  /** The recorded handles depend only on the commands, not on which tasks are done. */
  lemma {:induction false} HandlesFollowCommands(a: seq<ScheduledTask>, b: seq<ScheduledTask>)
    requires |a| == |b|
    requires forall i :: 0 <= i < |a| ==> a[i].command == b[i].command
    ensures KeepaliveHandles(a) == KeepaliveHandles(b)
    decreases |a|
  {
    if a != [] {
      var last := |a| - 1;
      HandlesFollowCommands(a[..last], b[..last]);
    }
  }

  /** schedule: the task joins the executor; the wrapper records its handle only for a KeepaliveTask. */
  function Schedule(w: World, c: Command): World
  {
    w.(tasks := w.tasks + [ScheduledTask(c, false)],
       keepaliveTasks := if c == KeepaliveTask then w.keepaliveTasks + [|w.tasks|] else w.keepaliveTasks)
  }

  /** A task just scheduled. */
  function Waiting(c: Command): (t: ScheduledTask)
    ensures t.command == c && !t.done
  {
    ScheduledTask(c, false)
  }

  /** The task with handle h is done. */
  function Finish(w: World, h: nat): World
    requires h < |w.tasks|
  {
    w.(tasks := w.tasks[h := w.tasks[h].(done := true)])
  }

  /** The keepalive task waiting to fire: the last recorded one, if it is not done. */
  function PendingTask(w: World): (r: Option<nat>)
    ensures r.Some? ==> r.value < |w.tasks| && !w.tasks[r.value].done && w.keepaliveTasks != []
    ensures r.Some? ==> r.value == w.keepaliveTasks[|w.keepaliveTasks| - 1]
  {
    Pending(w.tasks, w.keepaliveTasks)
  }

  /** The last recorded handle, if its task is not done. */
  function Pending(tasks: seq<ScheduledTask>, keepaliveTasks: seq<nat>): (r: Option<nat>)
    ensures r.Some? ==> r.value < |tasks| && !tasks[r.value].done && keepaliveTasks != []
    ensures r.Some? ==> r.value == keepaliveTasks[|keepaliveTasks| - 1]
  {
    if keepaliveTasks == [] then None
    else
      var h := keepaliveTasks[|keepaliveTasks| - 1];
      if h < |tasks| && !tasks[h].done then Some(h) else None
  }

  /** The wrapper records exactly the keepalive handles, and every recorded task but the last is done. */
  ghost predicate TasksInv(w: World)
  {
    && w.keepaliveTasks == KeepaliveHandles(w.tasks)
    && forall j :: 0 <= j < |w.keepaliveTasks| - 1 ==> w.tasks[w.keepaliveTasks[j]].done
  }

  lemma ScheduleTimeout(w: World)
    requires TasksInv(w)
    ensures TasksInv(Schedule(w, RequestTimeoutTask))
    ensures PendingTask(Schedule(w, RequestTimeoutTask)) == PendingTask(w)
  {
    HandlesAppend(w.tasks, ScheduledTask(RequestTimeoutTask, false));
  }

  lemma ScheduleKeepalive(w: World)
    requires TasksInv(w) && PendingTask(w).None?
    ensures TasksInv(Schedule(w, KeepaliveTask))
    ensures PendingTask(Schedule(w, KeepaliveTask)) == Some(|w.tasks|)
  {
    HandlesAppend(w.tasks, ScheduledTask(KeepaliveTask, false));
    var w' := Schedule(w, KeepaliveTask);
    forall j | 0 <= j < |w'.keepaliveTasks| - 1
      ensures w'.tasks[w'.keepaliveTasks[j]].done
    {
      assert w'.keepaliveTasks[j] == w.keepaliveTasks[j];
      assert w'.tasks[w.keepaliveTasks[j]] == w.tasks[w.keepaliveTasks[j]];
    }
  }

  lemma FinishPending(w: World, h: nat)
    requires TasksInv(w) && PendingTask(w) == Some(h)
    ensures TasksInv(Finish(w, h))
    ensures PendingTask(Finish(w, h)).None?
  {
    HandlesFollowCommands(Finish(w, h).tasks, w.tasks);
  }

  // ------------------------------------------------------------------
  // The facade, its RPC wrapper and the device mock

  /** The facade's wrapped invokeRpc: count the RPC, forward it to the device, schedule its timeout. */
  function Forward(w: World, name: RpcName): World
  {
    Schedule(w.(outstanding := w.outstanding + 1,
                deviceCalls := w.deviceCalls + [DeviceCall(name, NoInput)],
                futures := w.futures + [PendingRpc(name, [])]),
             RequestTimeoutTask)
  }

  /** Futures.addCallback on the future just returned: its success callback issues `names`. */
  function AttachCallback(w: World, names: seq<RpcName>): World
  {
    if w.futures == [] then w
    else
      var last := w.futures[|w.futures| - 1];
      w.(futures := w.futures[|w.futures| - 1 := last.(onSuccess := last.onSuccess + names)])
  }

  /** The device calls of RPCs issued without input. */
  function UserCalls(names: seq<RpcName>): (r: seq<DeviceCall>)
    ensures |r| == |names|
    ensures forall i :: 0 <= i < |r| ==> r[i] == DeviceCall(names[i], NoInput)
  {
    if names == [] then [] else [DeviceCall(names[0], NoInput)] + UserCalls(names[1..])
  }

  /** A completion callback issuing `names`, one after the other, through the facade. */
  function InvokeAll(w: World, names: seq<RpcName>): (r: World)
    ensures r.deviceCalls == w.deviceCalls + UserCalls(names)
    ensures r.outstanding == w.outstanding + |names|
    ensures |r.futures| == |w.futures| + |names| && r.futures[..|w.futures|] == w.futures
    ensures r.keepaliveTasks == w.keepaliveTasks
    ensures |r.tasks| == |w.tasks| + |names| && r.tasks[..|w.tasks|] == w.tasks
    ensures r.rpcs == w.rpcs && r.connected == w.connected
    ensures r.suppressed == w.suppressed && r.keepaliveInFlight == w.keepaliveInFlight
    decreases |names|
  {
    if names == [] then w
    else
      var w1 := Forward(w, names[0]);
      var r := InvokeAll(w1, names[1..]);
      assert r.futures[..|w.futures|] == r.futures[..|w1.futures|][..|w.futures|];
      assert r.tasks[..|w.tasks|] == r.tasks[..|w1.tasks|][..|w.tasks|];
      assert UserCalls(names) == [DeviceCall(names[0], NoInput)] + UserCalls(names[1..]);
      r
  }

  /** The facade's listener on the k-th future: uncount it; if a firing was suppressed and it was the last, schedule the next task. */
  function Settle(w: World, k: nat): World
    requires k < |w.futures|
  {
    var w1 := w.(futures := w.futures[..k] + w.futures[k + 1..], outstanding := w.outstanding - 1);
    if w1.outstanding == 0 && w1.suppressed then Schedule(w1.(suppressed := false), KeepaliveTask)
    else w1
  }

  /** The effect of one event. */
  function Step(w: World, e: Event): World
  {
    match e
    case Connect =>
      if w.connected then w
      else Schedule(w.(connected := true, rpcs := true), KeepaliveTask)
    case Disconnect =>
      if !w.connected then w
      else
        var w1 := match PendingTask(w) case None => w case Some(h) => Finish(w, h);
        w1.(connected := false, rpcs := false, suppressed := false, keepaliveInFlight := false)
    case Call(h) =>
      if !w.rpcs then w
      else
        var w1 := Forward(w, HelperRpc(h));
        if HelperCallback(h) == [] then w1 else AttachCallback(w1, HelperCallback(h))
    case Complete(k, success) =>
      if k >= |w.futures| then w
      else
        var callback := w.futures[k].onSuccess;
        var w1 := Settle(w, k);
        if success then InvokeAll(w1, callback) else w1
    case Fire =>
      (match PendingTask(w)
       case None => w
       case Some(h) =>
         var w1 := Finish(w, h);
         if w.outstanding > 0 then w1.(suppressed := true)
         else w1.(deviceCalls := w1.deviceCalls + [KEEPALIVE_CALL], keepaliveInFlight := true))
    case KeepaliveReply =>
      if !w.keepaliveInFlight then w
      else Schedule(w.(keepaliveInFlight := false), KeepaliveTask)
  }

  /** The events applied in order. */
  function Run(w: World, events: seq<Event>): World
    decreases |events|
  {
    if events == [] then w else Run(Step(w, events[0]), events[1..])
  }

  // ------------------------------------------------------------------
  // The invariant

  /** How many of the three keepalive phases hold: a task pending, a firing suppressed, a keepalive awaiting its reply. */
  function Phases(w: World): nat
  {
    (if PendingTask(w).Some? then 1 else 0) + (if w.suppressed then 1 else 0) + (if w.keepaliveInFlight then 1 else 0)
  }

  /**
   * The local facade holds the RPC reference exactly while the facade is
   * connected; the counter is the number of unset futures; the wrapper's
   * record is sound; a suppressed firing implies outstanding RPCs; and while
   * connected the keepalive cycle is in exactly one phase (never lost,
   * never doubled), while disconnected in none.
   */
  ghost predicate Inv(w: World)
  {
    && w.rpcs == w.connected
    && w.outstanding == |w.futures|
    && TasksInv(w)
    && (w.suppressed ==> w.outstanding > 0)
    && Phases(w) == (if w.connected then 1 else 0)
  }

  lemma InitialInv()
    ensures Inv(Initial)
  {
  }

  lemma ForwardInv(w: World, name: RpcName)
    requires Inv(w)
    ensures Inv(Forward(w, name))
  {
    ScheduleTimeout(w.(outstanding := w.outstanding + 1,
                       deviceCalls := w.deviceCalls + [DeviceCall(name, NoInput)],
                       futures := w.futures + [PendingRpc(name, [])]));
  }

  lemma {:induction false} InvokeAllInv(w: World, names: seq<RpcName>)
    requires Inv(w)
    ensures Inv(InvokeAll(w, names))
    decreases |names|
  {
    if names != [] {
      ForwardInv(w, names[0]);
      InvokeAllInv(Forward(w, names[0]), names[1..]);
    }
  }

  lemma SettleInv(w: World, k: nat)
    requires Inv(w) && k < |w.futures|
    ensures Inv(Settle(w, k))
  {
    var w1 := w.(futures := w.futures[..k] + w.futures[k + 1..], outstanding := w.outstanding - 1);
    if w1.outstanding == 0 && w1.suppressed {
      ScheduleKeepalive(w1.(suppressed := false));
    }
  }

  /** Every event preserves the invariant. */
  lemma StepInv(w: World, e: Event)
    requires Inv(w)
    ensures Inv(Step(w, e))
  {
    match e
    case Connect => ConnectInv(w);
    case Disconnect => DisconnectInv(w);
    case Call(h) =>
      if w.rpcs {
        ForwardInv(w, HelperRpc(h));
      }
    case Complete(k, success) => CompleteInv(w, k, success);
    case Fire => FireInv(w);
    case KeepaliveReply =>
      if w.keepaliveInFlight {
        ScheduleKeepalive(w.(keepaliveInFlight := false));
      }
  }

  lemma ConnectInv(w: World)
    requires Inv(w)
    ensures Inv(Step(w, Connect))
  {
    if !w.connected {
      ScheduleKeepalive(w.(connected := true, rpcs := true));
    }
  }

  lemma DisconnectInv(w: World)
    requires Inv(w)
    ensures Inv(Step(w, Disconnect))
  {
    if w.connected && PendingTask(w).Some? {
      FinishPending(w, PendingTask(w).value);
    }
  }

  lemma CompleteInv(w: World, k: nat, success: bool)
    requires Inv(w)
    ensures Inv(Step(w, Complete(k, success)))
  {
    if k < |w.futures| {
      SettleInv(w, k);
      InvokeAllInv(Settle(w, k), w.futures[k].onSuccess);
    }
  }

  lemma FireInv(w: World)
    requires Inv(w)
    ensures Inv(Step(w, Fire))
  {
    if PendingTask(w).Some? {
      FinishPending(w, PendingTask(w).value);
    }
  }

  /** Any sequence of events from setUp keeps the invariant. */
  lemma {:induction false} RunInv(w: World, events: seq<Event>)
    requires Inv(w)
    ensures Inv(Run(w, events))
    decreases |events|
  {
    if events != [] {
      StepInv(w, events[0]);
      RunInv(Step(w, events[0]), events[1..]);
    }
  }

  // ------------------------------------------------------------------
  // The rule, event by event

  /** Connecting hands the RPC reference down and schedules exactly one keepalive task, which is pending. */
  lemma ConnectSchedulesOneTask(w: World)
    requires Inv(w) && !w.connected
    ensures var w' := Step(w, Connect);
      && w'.rpcs && w'.connected
      && w'.keepaliveTasks == w.keepaliveTasks + [|w.tasks|]
      && PendingTask(w') == Some(|w.tasks|)
      && w'.deviceCalls == w.deviceCalls
  {
    ScheduleKeepalive(w.(connected := true, rpcs := true));
  }

  /**
   * A task that fires while an RPC is outstanding sends nothing, is done,
   * and leaves no task pending and none newly scheduled.
   */
  lemma FireWhileBusy(w: World)
    requires Inv(w) && w.outstanding > 0 && PendingTask(w).Some?
    ensures var w' := Step(w, Fire);
      && w'.deviceCalls == w.deviceCalls
      && w'.keepaliveTasks == w.keepaliveTasks && |w'.tasks| == |w.tasks|
      && w'.tasks[PendingTask(w).value].done
      && PendingTask(w').None? && w'.suppressed
  {
    FinishPending(w, PendingTask(w).value);
  }

  /** A task that fires with nothing outstanding sends exactly one keepalive and schedules nothing yet. */
  lemma FireWhileIdle(w: World)
    requires Inv(w) && w.outstanding == 0 && PendingTask(w).Some?
    ensures var w' := Step(w, Fire);
      && w'.deviceCalls == w.deviceCalls + [KEEPALIVE_CALL]
      && w'.keepaliveTasks == w.keepaliveTasks && |w'.tasks| == |w.tasks|
      && PendingTask(w').None? && w'.keepaliveInFlight
  {
    FinishPending(w, PendingTask(w).value);
  }

  /** The keepalive's reply schedules exactly one new task, which is pending. */
  lemma KeepaliveReplySchedulesNext(w: World)
    requires Inv(w) && w.keepaliveInFlight
    ensures var w' := Step(w, KeepaliveReply);
      w'.keepaliveTasks == w.keepaliveTasks + [|w.tasks|] && PendingTask(w') == Some(|w.tasks|)
  {
    ScheduleKeepalive(w.(keepaliveInFlight := false));
  }

  /**
   * Every helper call while the reference is present reaches the device
   * exactly once, as its first RPC only: its callback's RPCs wait in the
   * future. While the reference is absent a helper changes nothing.
   */
  lemma CallReachesDeviceOnce(w: World, h: Helper)
    requires Inv(w)
    ensures var w' := Step(w, Call(h));
      w.rpcs ==>
        && w'.deviceCalls == w.deviceCalls + [DeviceCall(HelperRpc(h), NoInput)]
        && w'.futures == w.futures + [PendingRpc(HelperRpc(h), HelperCallback(h))]
        && w'.outstanding == w.outstanding + 1
        && w'.keepaliveTasks == w.keepaliveTasks
    ensures !w.rpcs ==> Step(w, Call(h)) == w
  {
    if w.rpcs && HelperCallback(h) != [] {
      var w1 := Forward(w, HelperRpc(h));
      assert w1.futures == w.futures + [PendingRpc(HelperRpc(h), [])];
      assert [] + HelperCallback(h) == HelperCallback(h);
    }
  }

  /**
   * Setting a future issues its callback's RPCs, in order, only if it
   * succeeded; it schedules a keepalive task only when it was the last
   * outstanding RPC after a suppressed firing, and then exactly one.
   */
  lemma CompleteRpc(w: World, k: nat, success: bool)
    requires Inv(w) && k < |w.futures|
    ensures var w' := Step(w, Complete(k, success));
      && w'.deviceCalls == w.deviceCalls + (if success then UserCalls(w.futures[k].onSuccess) else [])
      && w'.outstanding == w.outstanding - 1 + (if success then |w.futures[k].onSuccess| else 0)
      && w'.tasks[..|w.tasks|] == w.tasks
      && (if w.suppressed && w.outstanding == 1
          then w'.keepaliveTasks == w.keepaliveTasks + [|w.tasks|] && !w'.tasks[|w.tasks|].done && !w'.suppressed
          else w'.keepaliveTasks == w.keepaliveTasks)
  {
    var w1 := w.(futures := w.futures[..k] + w.futures[k + 1..], outstanding := w.outstanding - 1);
    var w2 := Settle(w, k);
    assert w2.tasks[..|w.tasks|] == w.tasks;
    var w' := Step(w, Complete(k, success));
    if success {
      assert w'.tasks[..|w.tasks|] == w'.tasks[..|w2.tasks|][..|w.tasks|];
      if w.suppressed && w.outstanding == 1 {
        assert w'.tasks[|w.tasks|] == w'.tasks[..|w2.tasks|][|w.tasks|];
      }
    }
  }

  /** Disconnecting clears the reference, leaves no task pending and drops the keepalive phase. */
  lemma DisconnectClears(w: World)
    requires Inv(w) && w.connected
    ensures var w' := Step(w, Disconnect);
      && !w'.rpcs && !w'.connected && PendingTask(w').None?
      && !w'.suppressed && !w'.keepaliveInFlight
      && w'.deviceCalls == w.deviceCalls && w'.keepaliveTasks == w.keepaliveTasks
  {
    if PendingTask(w).Some? {
      FinishPending(w, PendingTask(w).value);
    }
  }

  /** A keepalive get-config is sent only by a firing that finds nothing outstanding, once per such firing. */
  lemma KeepaliveOnlyWhenIdle(w: World, e: Event)
    requires Inv(w)
    ensures multiset(Step(w, e).deviceCalls)[KEEPALIVE_CALL] ==
      multiset(w.deviceCalls)[KEEPALIVE_CALL] + (if e == Fire && PendingTask(w).Some? && w.outstanding == 0 then 1 else 0)
  {
    match e
    case Complete(k, success) =>
      if k < |w.futures| && success {
        var calls := UserCalls(w.futures[k].onSuccess);
        assert KEEPALIVE_CALL !in calls;
        assert multiset(calls)[KEEPALIVE_CALL] == 0;
      }
    case _ =>
  }

  // ------------------------------------------------------------------
  // The test's objects

  /** The mocked device RPC service: the calls it received and the futures it returned that are not set yet. */
  class DeviceRpc {
    var calls: seq<DeviceCall>
    var futures: seq<PendingRpc>

    constructor()
      ensures calls == [] && futures == []
    {
      calls := [];
      futures := [];
    }

    /** invokeRpc(name, null): record the call and hand out an unset future. */
    method InvokeRpc(name: RpcName)
      modifies this
      ensures calls == old(calls) + [DeviceCall(name, NoInput)]
      ensures futures == old(futures) + [PendingRpc(name, [])]
    {
      calls := calls + [DeviceCall(name, NoInput)];
      futures := futures + [PendingRpc(name, [])];
    }

    /** invokeRpc(get-config, KEEPALIVE_PAYLOAD): record the call; its reply is awaited by the keepalive task. */
    method InvokeKeepalive()
      modifies this
      ensures calls == old(calls) + [KEEPALIVE_CALL] && futures == old(futures)
    {
      calls := calls + [KEEPALIVE_CALL];
    }

    /** Futures.addCallback on the future handed out last. */
    method AddCallback(names: seq<RpcName>)
      modifies this
      ensures calls == old(calls)
      ensures old(futures) == [] ==> futures == old(futures)
      ensures old(futures) != [] ==>
        (var last := old(futures)[|old(futures)| - 1];
         futures == old(futures)[|old(futures)| - 1 := last.(onSuccess := last.onSuccess + names)])
    {
      if futures != [] {
        var last := futures[|futures| - 1];
        futures := futures[|futures| - 1 := last.(onSuccess := last.onSuccess + names)];
      }
    }

    /** SettableFuture.set on the k-th unset future: it is set from now on. */
    method SetFuture(k: nat) returns (f: PendingRpc)
      requires k < |futures|
      modifies this
      ensures f == old(futures)[k]
      ensures calls == old(calls) && futures == old(futures)[..k] + old(futures)[k + 1..]
    {
      f := futures[k];
      futures := futures[..k] + futures[k + 1..];
    }
  }

  /** ScheduledExecutorServiceWrapper: the pool's scheduled futures, and the handles of the keepalive tasks among them. */
  class ScheduledExecutorServiceWrapper {
    var tasks: seq<ScheduledTask>
    var keepaliveTasks: seq<nat>

    constructor()
      ensures tasks == [] && keepaliveTasks == []
    {
      tasks := [];
      keepaliveTasks := [];
    }

    /** schedule (KeepaliveSalFacadeResponseWaitingTest.java:371-378): every command is scheduled, only a KeepaliveTask is recorded, the handle is returned. */
    method Schedule(command: Command) returns (handle: nat)
      modifies this
      ensures handle == |old(tasks)|
      ensures tasks == old(tasks) + [ScheduledTask(command, false)]
      ensures keepaliveTasks == if command == KeepaliveTask then old(keepaliveTasks) + [handle] else old(keepaliveTasks)
    {
      handle := |tasks|;
      tasks := tasks + [ScheduledTask(command, false)];
      if command == KeepaliveTask {
        keepaliveTasks := keepaliveTasks + [handle];
      }
    }

    /** The task with this handle has run, or has been cancelled. */
    method Finish(handle: nat)
      requires handle < |tasks|
      modifies this
      ensures tasks == old(tasks)[handle := old(tasks)[handle].(done := true)]
      ensures keepaliveTasks == old(keepaliveTasks)
    {
      tasks := tasks[handle := tasks[handle].(done := true)];
    }
  }

  /** LocalNetconfSalFacade: the handler under the keepalive facade; rpcs is the RPC service it was handed. */
  class LocalNetconfSalFacade {
    var rpcs: KeepaliveSalFacade?

    constructor()
      ensures rpcs == null
    {
      rpcs := null;
    }

    method OnDeviceConnected(services: KeepaliveSalFacade)
      modifies this
      ensures rpcs == services
    {
      rpcs := services;
    }

    method OnDeviceDisconnected()
      modifies this
      ensures rpcs == null
    {
      rpcs := null;
    }

    /** The objects a helper may change: those of the service it holds, if any. */
    ghost function Footprint(): set<object>
      reads this
    {
      if rpcs == null then {} else rpcs.Repr()
    }

    /** The service held, if any, is the keepalive facade over this handler, in a valid state. */
    ghost predicate Wired()
      reads this, Footprint(), if rpcs == null then {} else {rpcs.underlying}
    {
      rpcs != null ==> rpcs.underlying == this && rpcs.Valid()
    }

    /** invokeNullRpc (KeepaliveSalFacadeResponseWaitingTest.java:299-304). */
    method InvokeNullRpc()
      requires Wired()
      modifies Footprint()
      ensures rpcs == old(rpcs) && Wired()
      ensures rpcs != null ==> rpcs.Abs() == Step(old(rpcs.Abs()), Call(Helper.InvokeNullRpc))
    {
      var local := rpcs;
      if local != null {
        local.InvokeRpc(NullRpc);
      }
    }

    /** performCommit (KeepaliveSalFacadeResponseWaitingTest.java:310-325): commit, and unlock from its success callback. */
    method PerformCommit()
      requires Wired()
      modifies Footprint()
      ensures rpcs == old(rpcs) && Wired()
      ensures rpcs != null ==> rpcs.Abs() == Step(old(rpcs.Abs()), Call(Helper.PerformCommit))
    {
      var local := rpcs;
      if local != null {
        ghost var w := local.Abs();
        local.InvokeRpc(Commit);
        local.AddCallback([Unlock]);
        assert local.Abs() == AttachCallback(Forward(w, Commit), [Unlock]);
      }
    }

    /** performCommitWithError (KeepaliveSalFacadeResponseWaitingTest.java:331-347): commit, and discard-changes then unlock from its success callback. */
    method PerformCommitWithError()
      requires Wired()
      modifies Footprint()
      ensures rpcs == old(rpcs) && Wired()
      ensures rpcs != null ==> rpcs.Abs() == Step(old(rpcs.Abs()), Call(Helper.PerformCommitWithError))
    {
      var local := rpcs;
      if local != null {
        ghost var w := local.Abs();
        local.InvokeRpc(Commit);
        local.AddCallback([DiscardChanges, Unlock]);
        assert local.Abs() == AttachCallback(Forward(w, Commit), [DiscardChanges, Unlock]);
      }
    }

    /** invokeGetRpc (KeepaliveSalFacadeResponseWaitingTest.java:349-354). */
    method InvokeGetRpc()
      requires Wired()
      modifies Footprint()
      ensures rpcs == old(rpcs) && Wired()
      ensures rpcs != null ==> rpcs.Abs() == Step(old(rpcs.Abs()), Call(Helper.InvokeGetRpc))
    {
      var local := rpcs;
      if local != null {
        local.InvokeRpc(Get);
      }
    }

    /** invokeGetConfigRpc (KeepaliveSalFacadeResponseWaitingTest.java:356-361). */
    method InvokeGetConfigRpc()
      requires Wired()
      modifies Footprint()
      ensures rpcs == old(rpcs) && Wired()
      ensures rpcs != null ==> rpcs.Abs() == Step(old(rpcs.Abs()), Call(Helper.InvokeGetConfigRpc))
    {
      var local := rpcs;
      if local != null {
        local.InvokeRpc(GetConfig);
      }
    }
  }

  /**
   * The keepalive facade as the tests observe it. It is also the RPC service
   * it hands to the handler below it: calls made through it are counted.
   */
  class KeepaliveSalFacade {
    const device: DeviceRpc
    const underlying: LocalNetconfSalFacade
    const executor: ScheduledExecutorServiceWrapper
    var connected: bool
    var outstanding: int
    var suppressed: bool
    var keepaliveInFlight: bool

    ghost function Repr(): set<object>
    {
      {this, device, executor}
    }

    ghost function Abs(): World
      reads this, device, underlying, executor
    {
      World(underlying.rpcs != null, connected, outstanding, suppressed, keepaliveInFlight,
            device.calls, device.futures, executor.tasks, executor.keepaliveTasks)
    }

    ghost predicate Valid()
      reads this, device, underlying, executor
    {
      (underlying.rpcs == null || underlying.rpcs == this) && Inv(Abs())
    }

    /** new KeepaliveSalFacade(id, underlying, executor, ...) over a fresh fixture. */
    constructor(device: DeviceRpc, underlying: LocalNetconfSalFacade, executor: ScheduledExecutorServiceWrapper)
      requires device.calls == [] && device.futures == [] && underlying.rpcs == null
      requires executor.tasks == [] && executor.keepaliveTasks == []
      ensures this.device == device && this.underlying == underlying && this.executor == executor
      ensures Valid() && Abs() == Initial
    {
      this.device := device;
      this.underlying := underlying;
      this.executor := executor;
      connected := false;
      outstanding := 0;
      suppressed := false;
      keepaliveInFlight := false;
    }

    /** onDeviceConnected: hand the RPC service down, then schedule the first keepalive task. */
    method OnDeviceConnected()
      requires Valid()
      modifies this, underlying, executor
      ensures Valid() && Abs() == Step(old(Abs()), Connect)
    {
      ghost var w := Abs();
      ConnectInv(w);
      if connected {
        return;
      }
      connected := true;
      underlying.OnDeviceConnected(this);
      var _ := executor.Schedule(KeepaliveTask);
      assert Abs() == Step(w, Connect);
    }

    /** onDeviceDisconnected: cancel the pending task, drop the RPC service, pass the call down. */
    method OnDeviceDisconnected()
      requires Valid()
      modifies this, underlying, executor
      ensures Valid() && Abs() == Step(old(Abs()), Disconnect)
    {
      ghost var w := Abs();
      DisconnectInv(w);
      if !connected {
        return;
      }
      var pending := Pending(executor.tasks, executor.keepaliveTasks);
      if pending.Some? {
        executor.Finish(pending.value);
      }
      connected := false;
      suppressed := false;
      keepaliveInFlight := false;
      underlying.OnDeviceDisconnected();
      assert Abs() == Step(w, Disconnect);
    }

    /** The wrapped invokeRpc(name, null): count, forward, schedule the request timeout. */
    method InvokeRpc(name: RpcName)
      requires Valid()
      modifies this, device, executor
      ensures Valid() && Abs() == Forward(old(Abs()), name)
    {
      ghost var w := Abs();
      ForwardInv(w, name);
      outstanding := outstanding + 1;
      device.InvokeRpc(name);
      var _ := executor.Schedule(RequestTimeoutTask);
      assert Abs() == Forward(w, name);
    }

    /** A callback added by the caller to the future just returned. */
    method AddCallback(names: seq<RpcName>)
      requires Valid()
      modifies device
      ensures Valid() && Abs() == AttachCallback(old(Abs()), names)
    {
      device.AddCallback(names);
    }

    /** The k-th unset future is set: the facade's listener runs, then, on success, the caller's callback. */
    method CompleteRpc(k: nat, success: bool)
      requires Valid()
      modifies this, device, executor
      ensures Valid() && Abs() == Step(old(Abs()), Complete(k, success))
    {
      if k >= |device.futures| {
        return;
      }
      var f := SettleRpc(k);
      if success {
        IssueAll(f.onSuccess);
      }
    }

    /** The facade's listener on the k-th future, which is now set. */
    method SettleRpc(k: nat) returns (f: PendingRpc)
      requires Valid() && k < |device.futures|
      modifies this, device, executor
      ensures f == old(device.futures)[k]
      ensures Valid() && Abs() == Settle(old(Abs()), k)
    {
      ghost var w := Abs();
      SettleInv(w, k);
      f := device.SetFuture(k);
      outstanding := outstanding - 1;
      if outstanding == 0 && suppressed {
        suppressed := false;
        var _ := executor.Schedule(KeepaliveTask);
      }
      assert Abs() == Settle(w, k);
    }

    /** The caller's success callback: the RPCs, in order, through this facade. */
    method IssueAll(names: seq<RpcName>)
      requires Valid()
      modifies this, device, executor
      ensures Valid() && Abs() == InvokeAll(old(Abs()), names)
    {
      var i := 0;
      while i < |names|
        invariant 0 <= i <= |names|
        invariant Valid()
        invariant InvokeAll(Abs(), names[i..]) == InvokeAll(old(Abs()), names)
      {
        assert names[i..][0] == names[i] && names[i..][1..] == names[i + 1..];
        InvokeRpc(names[i]);
        i := i + 1;
      }
      assert names[i..] == [];
    }

    /** KeepaliveTask.run: the pending task fires; it sends a keepalive only if nothing is outstanding. */
    method RunKeepaliveTask()
      requires Valid()
      modifies this, device, executor
      ensures Valid() && Abs() == Step(old(Abs()), Fire)
    {
      ghost var w := Abs();
      FireInv(w);
      var pending := Pending(executor.tasks, executor.keepaliveTasks);
      if pending.None? {
        return;
      }
      executor.Finish(pending.value);
      if outstanding > 0 {
        suppressed := true;
      } else {
        device.InvokeKeepalive();
        keepaliveInFlight := true;
      }
      assert Abs() == Step(w, Fire);
    }

    /** The keepalive RPC answers: schedule the next task. */
    method OnKeepaliveReply()
      requires Valid()
      modifies this, executor
      ensures Valid() && Abs() == Step(old(Abs()), KeepaliveReply)
    {
      StepInv(Abs(), KeepaliveReply);
      if !keepaliveInFlight {
        return;
      }
      keepaliveInFlight := false;
      var _ := executor.Schedule(KeepaliveTask);
    }
  }

  // ------------------------------------------------------------------
  // The tests: each builds the fixture of setUp, drives it, and returns what
  // its assertions observe. Where a test waits for the keepalive delay to
  // pass, the pending task fires.

  /** setUp: a fresh executor wrapper, local facade and device mock under a new keepalive facade. */
  method SetUp() returns (device: DeviceRpc, underlying: LocalNetconfSalFacade,
                          executor: ScheduledExecutorServiceWrapper, facade: KeepaliveSalFacade)
    ensures fresh(device) && fresh(underlying) && fresh(executor) && fresh(facade)
    ensures facade.device == device && facade.underlying == underlying && facade.executor == executor
    ensures facade.Valid() && facade.Abs() == Initial
  {
    device := new DeviceRpc();
    underlying := new LocalNetconfSalFacade();
    executor := new ScheduledExecutorServiceWrapper();
    facade := new KeepaliveSalFacade(device, underlying, executor);
  }

  /** The states the connect-and-invoke traces of the tests pass through. */
  lemma TraceResponseWaiting(w1: World, w2: World, w3: World)
    requires w1 == Step(Initial, Connect) && w2 == Step(w1, Call(InvokeNullRpc)) && w3 == Step(w2, Fire)
    ensures w3 == World(true, true, 1, true, false,
        [DeviceCall(NullRpc, NoInput)],
        [PendingRpc(NullRpc, [])],
        [ScheduledTask(KeepaliveTask, true), Waiting(RequestTimeoutTask)], [0])
  {
    assert w1 == World(true, true, 0, false, false,
        [],
        [],
        [Waiting(KeepaliveTask)], [0]);
    assert w2 == World(true, true, 1, false, false,
        [DeviceCall(NullRpc, NoInput)],
        [PendingRpc(NullRpc, [])],
        [Waiting(KeepaliveTask), Waiting(RequestTimeoutTask)], [0]);
  }

  lemma TraceCommitAndUnlock(w1: World, w2: World, w3: World, w4: World)
    requires w1 == Step(Initial, Connect) && w2 == Step(w1, Call(PerformCommit))
    requires w3 == Step(w2, Complete(0, true)) && w4 == Step(w3, Complete(0, true))
    ensures w2.deviceCalls == [DeviceCall(Commit, NoInput)]
    ensures w3.deviceCalls == [DeviceCall(Commit, NoInput), DeviceCall(Unlock, NoInput)]
    ensures w4 == World(true, true, 0, false, false,
        [DeviceCall(Commit, NoInput), DeviceCall(Unlock, NoInput)],
        [],
        [Waiting(KeepaliveTask), Waiting(RequestTimeoutTask), Waiting(RequestTimeoutTask)], [0])
  {
    TraceCommit(w1, w2);
    TraceCommitSet(w2, w3);
  }

  lemma TraceCommit(w1: World, w2: World)
    requires w1 == Step(Initial, Connect) && w2 == Step(w1, Call(PerformCommit))
    ensures w2 == World(true, true, 1, false, false,
        [DeviceCall(Commit, NoInput)],
        [PendingRpc(Commit, [Unlock])],
        [Waiting(KeepaliveTask), Waiting(RequestTimeoutTask)], [0])
  {
    assert w1 == World(true, true, 0, false, false,
        [],
        [],
        [Waiting(KeepaliveTask)], [0]);
    assert [] + [Unlock] == [Unlock];
  }

  lemma TraceCommitSet(w2: World, w3: World)
    requires w2 == World(true, true, 1, false, false,
        [DeviceCall(Commit, NoInput)],
        [PendingRpc(Commit, [Unlock])],
        [Waiting(KeepaliveTask), Waiting(RequestTimeoutTask)], [0])
    requires w3 == Step(w2, Complete(0, true))
    ensures w3 == World(true, true, 1, false, false,
        [DeviceCall(Commit, NoInput), DeviceCall(Unlock, NoInput)],
        [PendingRpc(Unlock, [])],
        [Waiting(KeepaliveTask), Waiting(RequestTimeoutTask), Waiting(RequestTimeoutTask)], [0])
  {
    assert [Unlock][1..] == [];
  }

  lemma TraceCommitWithError(w1: World, w2: World)
    requires w1 == Step(Initial, Connect) && w2 == Step(w1, Call(PerformCommitWithError))
    ensures w2 == World(true, true, 1, false, false,
        [DeviceCall(Commit, NoInput)],
        [PendingRpc(Commit, [DiscardChanges, Unlock])],
        [Waiting(KeepaliveTask), Waiting(RequestTimeoutTask)], [0])
  {
    assert w1 == World(true, true, 0, false, false, [], [], [Waiting(KeepaliveTask)], [0]);
    assert [] + [DiscardChanges, Unlock] == [DiscardChanges, Unlock];
  }

  lemma TraceCommitWithErrorSet(w2: World, w3: World)
    requires w2 == World(true, true, 1, false, false,
        [DeviceCall(Commit, NoInput)],
        [PendingRpc(Commit, [DiscardChanges, Unlock])],
        [Waiting(KeepaliveTask), Waiting(RequestTimeoutTask)], [0])
    requires w3 == Step(w2, Complete(0, true))
    ensures w3 == World(true, true, 2, false, false,
        [DeviceCall(Commit, NoInput), DeviceCall(DiscardChanges, NoInput), DeviceCall(Unlock, NoInput)],
        [PendingRpc(DiscardChanges, []), PendingRpc(Unlock, [])],
        [Waiting(KeepaliveTask), Waiting(RequestTimeoutTask), Waiting(RequestTimeoutTask), Waiting(RequestTimeoutTask)], [0])
  {
    var settled := Settle(w2, 0);
    assert settled == World(true, true, 0, false, false, [DeviceCall(Commit, NoInput)], [], [Waiting(KeepaliveTask), Waiting(RequestTimeoutTask)], [0]);
    assert [DiscardChanges, Unlock][1..] == [Unlock] && [Unlock][1..] == [];
    var after := Forward(settled, DiscardChanges);
    assert w3 == InvokeAll(after, [Unlock]);
    assert w3 == InvokeAll(Forward(after, Unlock), []);
  }

  lemma TraceDiscardAndUnlockSet(w3: World, w4: World, w5: World)
    requires w3 == World(true, true, 2, false, false,
        [DeviceCall(Commit, NoInput), DeviceCall(DiscardChanges, NoInput), DeviceCall(Unlock, NoInput)],
        [PendingRpc(DiscardChanges, []), PendingRpc(Unlock, [])],
        [Waiting(KeepaliveTask), Waiting(RequestTimeoutTask), Waiting(RequestTimeoutTask), Waiting(RequestTimeoutTask)], [0])
    requires w4 == Step(w3, Complete(0, true)) && w5 == Step(w4, Complete(0, true))
    ensures w5 == World(true, true, 0, false, false,
        [DeviceCall(Commit, NoInput), DeviceCall(DiscardChanges, NoInput), DeviceCall(Unlock, NoInput)],
        [],
        [Waiting(KeepaliveTask), Waiting(RequestTimeoutTask), Waiting(RequestTimeoutTask), Waiting(RequestTimeoutTask)], [0])
  {
    assert w4 == World(true, true, 1, false, false,
        [DeviceCall(Commit, NoInput), DeviceCall(DiscardChanges, NoInput), DeviceCall(Unlock, NoInput)],
        [PendingRpc(Unlock, [])],
        [Waiting(KeepaliveTask), Waiting(RequestTimeoutTask), Waiting(RequestTimeoutTask), Waiting(RequestTimeoutTask)], [0]);
  }

  lemma TraceParallel(w1: World, w2: World, w3: World)
    requires w1 == Step(Initial, Connect) && w2 == Step(w1, Call(InvokeGetRpc)) && w3 == Step(w2, Call(InvokeGetConfigRpc))
    ensures w3 == World(true, true, 2, false, false,
        [DeviceCall(Get, NoInput), DeviceCall(GetConfig, NoInput)],
        [PendingRpc(Get, []), PendingRpc(GetConfig, [])],
        [Waiting(KeepaliveTask), Waiting(RequestTimeoutTask), Waiting(RequestTimeoutTask)], [0])
  {
    TraceConnect(w1);
    TraceParallelGet(w1, w2);
    TraceParallelGetConfig(w2, w3);
  }

  /** The fixture just after connecting. */
  lemma TraceConnect(w1: World)
    requires w1 == Step(Initial, Connect)
    ensures w1 == World(true, true, 0, false, false, [], [], [Waiting(KeepaliveTask)], [0])
  {
  }

  lemma TraceParallelGetConfig(w2: World, w3: World)
    requires w2 == World(true, true, 1, false, false,
        [DeviceCall(Get, NoInput)],
        [PendingRpc(Get, [])],
        [Waiting(KeepaliveTask), Waiting(RequestTimeoutTask)], [0])
    requires w3 == Step(w2, Call(InvokeGetConfigRpc))
    ensures w3 == World(true, true, 2, false, false,
        [DeviceCall(Get, NoInput), DeviceCall(GetConfig, NoInput)],
        [PendingRpc(Get, []), PendingRpc(GetConfig, [])],
        [Waiting(KeepaliveTask), Waiting(RequestTimeoutTask), Waiting(RequestTimeoutTask)], [0])
  {
  }

  lemma TraceParallelGet(w1: World, w2: World)
    requires w1 == World(true, true, 0, false, false, [], [], [Waiting(KeepaliveTask)], [0])
    requires w2 == Step(w1, Call(InvokeGetRpc))
    ensures w2 == World(true, true, 1, false, false,
        [DeviceCall(Get, NoInput)],
        [PendingRpc(Get, [])],
        [Waiting(KeepaliveTask), Waiting(RequestTimeoutTask)], [0])
  {
  }

  lemma TraceParallelReplies(w3: World, w4: World, w5: World)
    requires w3 == World(true, true, 2, false, false,
        [DeviceCall(Get, NoInput), DeviceCall(GetConfig, NoInput)],
        [PendingRpc(Get, []), PendingRpc(GetConfig, [])],
        [Waiting(KeepaliveTask), Waiting(RequestTimeoutTask), Waiting(RequestTimeoutTask)], [0])
    requires w4 == Step(w3, Complete(0, true)) && w5 == Step(w4, Complete(0, true))
    ensures w5 == World(true, true, 0, false, false,
        [DeviceCall(Get, NoInput), DeviceCall(GetConfig, NoInput)],
        [],
        [Waiting(KeepaliveTask), Waiting(RequestTimeoutTask), Waiting(RequestTimeoutTask)], [0])
  {
    assert w4 == World(true, true, 1, false, false,
        [DeviceCall(Get, NoInput), DeviceCall(GetConfig, NoInput)],
        [PendingRpc(GetConfig, [])],
        [Waiting(KeepaliveTask), Waiting(RequestTimeoutTask), Waiting(RequestTimeoutTask)], [0]);
  }

  lemma TraceParallelFire(w3: World, w4: World)
    requires w3 == World(true, true, 2, false, false,
        [DeviceCall(Get, NoInput), DeviceCall(GetConfig, NoInput)],
        [PendingRpc(Get, []), PendingRpc(GetConfig, [])],
        [Waiting(KeepaliveTask), Waiting(RequestTimeoutTask), Waiting(RequestTimeoutTask)], [0])
    requires w4 == Step(w3, Fire)
    ensures w4 == World(true, true, 2, true, false,
        [DeviceCall(Get, NoInput), DeviceCall(GetConfig, NoInput)],
        [PendingRpc(Get, []), PendingRpc(GetConfig, [])],
        [ScheduledTask(KeepaliveTask, true), Waiting(RequestTimeoutTask), Waiting(RequestTimeoutTask)], [0])
  {
  }

  lemma TraceParallelLateReply(w4: World, w5: World)
    requires w4 == World(true, true, 2, true, false,
        [DeviceCall(Get, NoInput), DeviceCall(GetConfig, NoInput)],
        [PendingRpc(Get, []), PendingRpc(GetConfig, [])],
        [ScheduledTask(KeepaliveTask, true), Waiting(RequestTimeoutTask), Waiting(RequestTimeoutTask)], [0])
    requires w5 == Step(w4, Complete(0, true))
    ensures w5 == World(true, true, 1, true, false,
        [DeviceCall(Get, NoInput), DeviceCall(GetConfig, NoInput)],
        [PendingRpc(GetConfig, [])],
        [ScheduledTask(KeepaliveTask, true), Waiting(RequestTimeoutTask), Waiting(RequestTimeoutTask)], [0])
  {
  }

  lemma TraceParallelLastReply(w5: World, w6: World)
    requires w5 == World(true, true, 1, true, false,
        [DeviceCall(Get, NoInput), DeviceCall(GetConfig, NoInput)],
        [PendingRpc(GetConfig, [])],
        [ScheduledTask(KeepaliveTask, true), Waiting(RequestTimeoutTask), Waiting(RequestTimeoutTask)], [0])
    requires w6 == Step(w5, Complete(0, true))
    ensures w6 == World(true, true, 0, false, false,
        [DeviceCall(Get, NoInput), DeviceCall(GetConfig, NoInput)],
        [],
        [ScheduledTask(KeepaliveTask, true), Waiting(RequestTimeoutTask), Waiting(RequestTimeoutTask), Waiting(KeepaliveTask)], [0, 3])
  {
  }

  /**
   * testKeepaliveSalResponseWaiting: an RPC whose future is never set keeps
   * the keepalive from being sent; the one task that fired is done and no
   * other is scheduled.
   */
  method TestKeepaliveSalResponseWaiting() returns (calls: seq<DeviceCall>, taskCount: nat, firstDone: bool)
    ensures calls == [DeviceCall(NullRpc, NoInput)]
    ensures taskCount == 1 && firstDone
  {
    var device, underlying, executor, facade := SetUp();
    facade.OnDeviceConnected();
    ghost var w1 := facade.Abs();
    underlying.InvokeNullRpc();
    ghost var w2 := facade.Abs();
    facade.RunKeepaliveTask();
    TraceResponseWaiting(w1, w2, facade.Abs());
    calls := device.calls;
    taskCount := |executor.keepaliveTasks|;
    firstDone := executor.tasks[executor.keepaliveTasks[0]].done;
  }

  /**
   * testKeepaliveSalWithRpcCommitAndRpcUnlock: unlock is issued from the
   * commit's callback, only once the commit is set, and when both are set
   * before the delay the first task is still pending and alone.
   */
  method TestKeepaliveSalWithRpcCommitAndRpcUnlock()
    returns (callsBefore: seq<DeviceCall>, callsAfter: seq<DeviceCall>, taskCount: nat, firstDone: bool)
    ensures callsBefore == [DeviceCall(Commit, NoInput)]
    ensures callsAfter == [DeviceCall(Commit, NoInput), DeviceCall(Unlock, NoInput)]
    ensures taskCount == 1 && !firstDone
  {
    var device, underlying, executor, facade := SetUp();
    facade.OnDeviceConnected();
    ghost var w1 := facade.Abs();
    underlying.PerformCommit();
    ghost var w2 := facade.Abs();
    callsBefore := device.calls;
    facade.CompleteRpc(0, true);
    ghost var w3 := facade.Abs();
    callsAfter := device.calls;
    facade.CompleteRpc(0, true);
    TraceCommitAndUnlock(w1, w2, w3, facade.Abs());
    taskCount := |executor.keepaliveTasks|;
    firstDone := executor.tasks[executor.keepaliveTasks[0]].done;
  }

  /**
   * testKeepaliveSalWithRpcCommitErrorRpcDiscardChangesRpcUnlock:
   * discard-changes and unlock are both issued from the commit's callback.
   */
  method TestKeepaliveSalWithRpcCommitErrorRpcDiscardChangesRpcUnlock()
    returns (callsBefore: seq<DeviceCall>, callsAfter: seq<DeviceCall>, taskCount: nat, firstDone: bool)
    ensures callsBefore == [DeviceCall(Commit, NoInput)]
    ensures callsAfter == [DeviceCall(Commit, NoInput), DeviceCall(DiscardChanges, NoInput), DeviceCall(Unlock, NoInput)]
    ensures taskCount == 1 && !firstDone
  {
    var device, underlying, executor, facade := SetUp();
    facade.OnDeviceConnected();
    ghost var w1 := facade.Abs();
    underlying.PerformCommitWithError();
    ghost var w2 := facade.Abs();
    TraceCommitWithError(w1, w2);
    callsBefore := device.calls;
    facade.CompleteRpc(0, true);
    ghost var w3 := facade.Abs();
    TraceCommitWithErrorSet(w2, w3);
    callsAfter := device.calls;
    facade.CompleteRpc(0, true);
    ghost var w4 := facade.Abs();
    facade.CompleteRpc(0, true);
    TraceDiscardAndUnlockSet(w3, w4, facade.Abs());
    taskCount := |executor.keepaliveTasks|;
    firstDone := executor.tasks[executor.keepaliveTasks[0]].done;
  }

  /** testKeepaliveSalWithParallelRpcGetRpcGetConfig: two RPCs in parallel, both set before the delay. */
  method TestKeepaliveSalWithParallelRpcGetRpcGetConfig()
    returns (calls: seq<DeviceCall>, taskCount: nat, firstDone: bool)
    ensures calls == [DeviceCall(Get, NoInput), DeviceCall(GetConfig, NoInput)]
    ensures taskCount == 1 && !firstDone
  {
    var device, underlying, executor, facade := SetUp();
    facade.OnDeviceConnected();
    ghost var w1 := facade.Abs();
    underlying.InvokeGetRpc();
    ghost var w2 := facade.Abs();
    underlying.InvokeGetConfigRpc();
    ghost var w3 := facade.Abs();
    TraceParallel(w1, w2, w3);
    calls := device.calls;
    facade.CompleteRpc(0, true);
    ghost var w4 := facade.Abs();
    facade.CompleteRpc(0, true);
    TraceParallelReplies(w3, w4, facade.Abs());
    taskCount := |executor.keepaliveTasks|;
    firstDone := executor.tasks[executor.keepaliveTasks[0]].done;
  }

  /**
   * testKeepaliveSalWithParallelRpcGetRpcGetConfigAndLongerWaitForReply:
   * the task fires while both RPCs are outstanding and sends nothing; setting
   * the first schedules nothing; setting the last schedules exactly one new
   * task, which is pending.
   */
  method TestKeepaliveSalWithParallelRpcGetRpcGetConfigAndLongerWaitForReply()
    returns (calls: seq<DeviceCall>, countAfterFire: nat, doneAfterFire: bool,
             countAfterGet: nat, doneAfterGet: bool,
             countAfterGetConfig: nat, firstDone: bool, secondDone: bool)
    ensures calls == [DeviceCall(Get, NoInput), DeviceCall(GetConfig, NoInput)]
    ensures countAfterFire == 1 && doneAfterFire
    ensures countAfterGet == 1 && doneAfterGet
    ensures countAfterGetConfig == 2 && firstDone && !secondDone
  {
    var device, underlying, executor, facade := SetUp();
    facade.OnDeviceConnected();
    ghost var w1 := facade.Abs();
    underlying.InvokeGetRpc();
    ghost var w2 := facade.Abs();
    underlying.InvokeGetConfigRpc();
    ghost var w3 := facade.Abs();
    TraceParallel(w1, w2, w3);
    facade.RunKeepaliveTask();
    TraceParallelFire(w3, facade.Abs());
    calls := device.calls;
    countAfterFire := |executor.keepaliveTasks|;
    doneAfterFire := executor.tasks[executor.keepaliveTasks[0]].done;
    ghost var w4 := facade.Abs();
    facade.CompleteRpc(0, true);
    TraceParallelLateReply(w4, facade.Abs());
    countAfterGet := |executor.keepaliveTasks|;
    doneAfterGet := executor.tasks[executor.keepaliveTasks[0]].done;
    ghost var w5 := facade.Abs();
    facade.CompleteRpc(0, true);
    TraceParallelLastReply(w5, facade.Abs());
    countAfterGetConfig := |executor.keepaliveTasks|;
    firstDone := executor.tasks[executor.keepaliveTasks[0]].done;
    secondDone := executor.tasks[executor.keepaliveTasks[1]].done;
  }
}
