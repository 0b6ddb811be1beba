/**
 * The slave mount point of a clustered NETCONF topology node.
 *
 * A slave registers its mount point once the master's schema and RPC services
 * are known, and removes it on close. The `registered` AtomicBoolean is
 * flipped by compareAndSet, so that a register while registered and a close
 * while unregistered do nothing, and the mount instance sees connected and
 * disconnected notifications strictly alternating, starting with connected.
 *
 * The mount instance is replaced by a log of the calls it receives; the
 * proxies built for a registration are recorded by the arguments they are
 * built from.
 */
module SlaveMount {

  /** Opaque handles for the arguments passed through to the mount instance. */
  type ModelContext = nat
  type ActorRef = nat
  type DeviceServices = nat

  /** The proxies a registration builds to reach the master: both carry the device id, the master actor and the ask timeout. */
  datatype Proxy =
    | ProxyDOMDataBroker(id: string, master: ActorRef, timeout: nat)
    | ProxyNetconfDataTreeService(id: string, master: ActorRef, timeout: nat)

  /** A call received by the mount instance. */
  datatype MountCall =
    | TopologyDeviceConnected(schema: ModelContext, services: DeviceServices, dataBroker: Proxy, netconfService: Proxy)
    | TopologyDeviceDisconnected

  /** A call made on the facade. */
  datatype FacadeCall =
    | RegisterSlaveMountPoint(schema: ModelContext, master: ActorRef, services: DeviceServices)
    | Close

  /** The facade's state: its flag and what the mount instance has received. */
  datatype Slave = Slave(registered: bool, mountCalls: seq<MountCall>)

  /** The mount instance's notification for a registration with these arguments. */
  function Connected(id: string, timeout: nat, schema: ModelContext, master: ActorRef, services: DeviceServices): (m: MountCall)
    ensures m.TopologyDeviceConnected? && m.schema == schema && m.services == services
    ensures m.dataBroker == ProxyDOMDataBroker(id, master, timeout)
    ensures m.netconfService == ProxyNetconfDataTreeService(id, master, timeout)
  {
    TopologyDeviceConnected(schema, services, ProxyDOMDataBroker(id, master, timeout),
                            ProxyNetconfDataTreeService(id, master, timeout))
  }

  /**
   * One facade call on a slave with this id and timeout: a registration
   * while unregistered sets the flag and notifies connected once; a close
   * while registered clears it and notifies disconnected once; anything
   * else changes nothing.
   */
  function Apply(id: string, timeout: nat, st: Slave, c: FacadeCall): (r: Slave)
    ensures r.registered == c.RegisterSlaveMountPoint?
    ensures c.RegisterSlaveMountPoint? && !st.registered ==>
      r.mountCalls == st.mountCalls + [Connected(id, timeout, c.schema, c.master, c.services)]
    ensures c.Close? && st.registered ==> r.mountCalls == st.mountCalls + [TopologyDeviceDisconnected]
    ensures (c.RegisterSlaveMountPoint? == st.registered) ==> r == st
  {
    match c
    case RegisterSlaveMountPoint(schema, master, services) =>
      if st.registered then st
      else Slave(true, st.mountCalls + [Connected(id, timeout, schema, master, services)])
    case Close =>
      if !st.registered then st
      else Slave(false, st.mountCalls + [TopologyDeviceDisconnected])
  }

  /** A new facade after a sequence of calls. */
  function Replay(id: string, timeout: nat, calls: seq<FacadeCall>): Slave
    decreases |calls|
  {
    if calls == [] then Slave(false, [])
    else Apply(id, timeout, Replay(id, timeout, calls[..|calls| - 1]), calls[|calls| - 1])
  }

  /** Connected notifications at the even positions of the log, disconnected ones at the odd positions. */
  predicate Alternating(log: seq<MountCall>)
  {
    forall i :: 0 <= i < |log| ==> (log[i].TopologyDeviceConnected? <==> i % 2 == 0)
  }

  function Connects(log: seq<MountCall>): nat
    decreases |log|
  {
    if log == [] then 0
    else Connects(log[..|log| - 1]) + (if log[|log| - 1].TopologyDeviceConnected? then 1 else 0)
  }

  function Disconnects(log: seq<MountCall>): nat
    decreases |log|
  {
    if log == [] then 0
    else Disconnects(log[..|log| - 1]) + (if log[|log| - 1].TopologyDeviceDisconnected? then 1 else 0)
  }

  /** The flag and the log agree: the log alternates, and the flag is set exactly when the log's length is odd. */
  predicate Consistent(st: Slave)
  {
    Alternating(st.mountCalls) && st.registered == (|st.mountCalls| % 2 == 1)
  }

  /** In an alternating log, connects outnumber disconnects by one when its length is odd, else they are equal. */
  lemma {:induction false} AlternatingBalance(log: seq<MountCall>)
    requires Alternating(log)
    ensures Connects(log) - Disconnects(log) == |log| % 2
    decreases |log|
  {
    if log != [] {
      var prefix := log[..|log| - 1];
      assert Alternating(prefix) by {
        forall i | 0 <= i < |prefix|
          ensures prefix[i].TopologyDeviceConnected? <==> i % 2 == 0
        {
          assert prefix[i] == log[i];
        }
      }
      AlternatingBalance(prefix);
    }
  }

  /** Every call keeps the flag and the log consistent. */
  lemma ApplyConsistent(id: string, timeout: nat, st: Slave, c: FacadeCall)
    requires Consistent(st)
    ensures Consistent(Apply(id, timeout, st, c))
  {
    var r := Apply(id, timeout, st, c);
    if r != st {
      forall i | 0 <= i < |r.mountCalls|
        ensures r.mountCalls[i].TopologyDeviceConnected? <==> i % 2 == 0
      {
        if i < |st.mountCalls| {
          assert r.mountCalls[i] == st.mountCalls[i];
        }
      }
    }
  }

  /**
   * Over any sequence of calls on a new facade, the mount instance's
   * notifications alternate starting with connected, and connects minus
   * disconnects is 1 exactly when the facade is registered, else 0.
   */
  lemma {:induction false} ReplayAlternates(id: string, timeout: nat, calls: seq<FacadeCall>)
    ensures var st := Replay(id, timeout, calls);
      && Alternating(st.mountCalls)
      && Connects(st.mountCalls) - Disconnects(st.mountCalls) == (if st.registered then 1 else 0)
    decreases |calls|
  {
    ReplayConsistent(id, timeout, calls);
    AlternatingBalance(Replay(id, timeout, calls).mountCalls);
  }

  lemma {:induction false} ReplayConsistent(id: string, timeout: nat, calls: seq<FacadeCall>)
    ensures Consistent(Replay(id, timeout, calls))
    decreases |calls|
  {
    if calls != [] {
      ReplayConsistent(id, timeout, calls[..|calls| - 1]);
      ApplyConsistent(id, timeout, Replay(id, timeout, calls[..|calls| - 1]), calls[|calls| - 1]);
    }
  }

  /** After a close, registering again is allowed and notifies connected again. */
  lemma ReRegisterAfterClose(id: string, timeout: nat, st: Slave, schema: ModelContext, master: ActorRef, services: DeviceServices)
    requires st.registered
    ensures var r := Apply(id, timeout, Apply(id, timeout, st, Close), RegisterSlaveMountPoint(schema, master, services));
      r.registered && r.mountCalls == st.mountCalls + [TopologyDeviceDisconnected, Connected(id, timeout, schema, master, services)]
  {
  }

  /** java.util.concurrent.atomic.AtomicBoolean, sequentially. */
  class AtomicBoolean {
    var value: bool

    constructor(initial: bool)
      ensures value == initial
    {
      value := initial;
    }

    /** Set to `update` if the value is `expected`; report whether it was. */
    method CompareAndSet(expected: bool, update: bool) returns (ok: bool)
      modifies this
      ensures ok == (old(value) == expected)
      ensures value == if ok then update else old(value)
    {
      ok := value == expected;
      if ok {
        value := update;
      }
    }
  }

  /** SlaveSalFacade: the registration flag and the calls its mount instance has received. */
  class SlaveSalFacade {
    const id: string
    const actorResponseWaitTime: nat
    const registered: AtomicBoolean
    var mountCalls: seq<MountCall>

    ghost function State(): Slave
      reads this, registered
    {
      Slave(registered.value, mountCalls)
    }

    ghost predicate Valid()
      reads this, registered
    {
      Consistent(State())
    }

    /** A new facade is unregistered, and its mount instance has received nothing. */
    constructor(id: string, actorResponseWaitTime: nat)
      ensures this.id == id && this.actorResponseWaitTime == actorResponseWaitTime && fresh(registered)
      ensures State() == Slave(false, []) && Valid()
    {
      this.id := id;
      this.actorResponseWaitTime := actorResponseWaitTime;
      registered := new AtomicBoolean(false);
      mountCalls := [];
    }

    method RegisterSlaveMountPoint(schema: ModelContext, master: ActorRef, services: DeviceServices)
      requires Valid()
      modifies this, registered
      ensures Valid()
      ensures State() == Apply(id, actorResponseWaitTime, old(State()), FacadeCall.RegisterSlaveMountPoint(schema, master, services))
    {
      ApplyConsistent(id, actorResponseWaitTime, State(), FacadeCall.RegisterSlaveMountPoint(schema, master, services));
      var ok := registered.CompareAndSet(false, true);
      if !ok {
        return;
      }
      var dataBroker := ProxyDOMDataBroker(id, master, actorResponseWaitTime);
      var netconfService := ProxyNetconfDataTreeService(id, master, actorResponseWaitTime);
      mountCalls := mountCalls + [TopologyDeviceConnected(schema, services, dataBroker, netconfService)];
    }

    method Close()
      requires Valid()
      modifies this, registered
      ensures Valid()
      ensures State() == Apply(id, actorResponseWaitTime, old(State()), FacadeCall.Close)
    {
      ApplyConsistent(id, actorResponseWaitTime, State(), FacadeCall.Close);
      var ok := registered.CompareAndSet(true, false);
      if !ok {
        return;
      }
      mountCalls := mountCalls + [TopologyDeviceDisconnected];
    }
  }
}
