/** The stack's mutable state and its poll cycle (gravital-stack, stack.rs).

    smoltcp's part of a poll arrives as arguments; the sockets' data path is not modelled. */
module Inner {
  import opened Bytes
  import opened Rewrite
  import opened Nat
  import opened Stack

  const PENDING_CAP := 128
  const IFACE_IP: Octets4 := [10, 0, 2, 2]

  type Handle = nat

  /** A `VirtualConnection`: the listening address and the remote the application asked for. */
  datatype Connection = Connection(local: SocketAddr, remote: SocketAddr)

  /** The part of the state that tracks smoltcp sockets; `sockets` holds each one's endpoint. */
  datatype Listeners = Listeners(
    sockets: map<Handle, SocketAddr>, active: map<Handle, SocketAddr>, pending: seq<Connection>)

  /** The endpoint a listener for `vport` is given. */
  function Endpoint(vport: u16): SocketAddr { SocketAddr(V4(IFACE_IP), vport) }

  /** Exactly the existing sockets are tracked, and no two of them serve the same remote. */
  ghost predicate Tracked(l: Listeners) {
    && l.sockets.Keys == l.active.Keys
    && (forall g <- l.active, h <- l.active :: l.active[g] == l.active[h] ==> g == h)
    && |l.pending| <= PENDING_CAP
  }

  /** Every tracked socket listens on the port of a known flow to the remote it serves, and every
      connection that waits to be accepted names such a port and that flow's remote. */
  ghost predicate Served(l: Listeners, t: Table) {
    && (forall h <- l.active ::
          h in l.sockets && l.sockets[h] == Endpoint(l.sockets[h].port)
          && l.sockets[h].port in t.reverse && t.reverse[l.sockets[h].port].dst == l.active[h])
    && (forall c <- l.pending :: Routes(c, t))
  }

  /** The connection's local address leads back to its remote. */
  predicate Routes(c: Connection, t: Table) {
    && c.local == SocketAddr(V4([10, 0, 2, 2]), c.local.port)
    && c.local.port in t.reverse && t.reverse[c.local.port].dst == c.remote
  }

  /** `m` is `l` with one new socket listening on `vport` for `remote`. */
  ghost predicate Opened(l: Listeners, m: Listeners, h: Handle, vport: u16, remote: SocketAddr) {
    && h !in l.sockets
    && m.sockets == l.sockets[h := Endpoint(vport)]
    && m.active == l.active[h := remote]
    && m.pending == if |l.pending| < PENDING_CAP
                    then l.pending + [Connection(Endpoint(vport), remote)]
                    else l.pending
  }

  ghost predicate OpenedOne(l: Listeners, m: Listeners, vport: u16, remote: SocketAddr) {
    exists h: Handle :: Opened(l, m, h, vport, remote)
  }

  /** The packet calls for a listener: an admitted SYN whose remote is not served yet, on a port
      smoltcp agrees to listen on. */
  predicate WantsListener(t: Table, l: Listeners, raw: Packet, listens: u16 -> bool)
    requires InRange(t.next)
  {
    && IsTcp4(raw) && IsTcpSyn(raw)
    && var f := ExtractTcpAddrs(raw).value;
       var port := InsertFlow(t, f).port;
       port.Some? && f.dst !in l.active.Values && listens(port.value)
  }

  /** What one inbound packet does to the listeners. */
  ghost predicate ListenerStep(t: Table, l: Listeners, m: Listeners, raw: Packet, listens: u16 -> bool)
    requires InRange(t.next)
  {
    if WantsListener(t, l, raw, listens)
    then
      var f := ExtractTcpAddrs(raw).value;
      OpenedOne(l, m, InsertFlow(t, f).port.value, f.dst)
    else m == l
  }

  /** What draining the TUN queue does to the listeners; only the handles are not determined. */
  ghost predicate ListenerRun(c: Core, l: Listeners, m: Listeners, listens: u16 -> bool)
    requires Inv(c)
    decreases |c.tunRx|
  {
    if c.tunRx == [] then m == l
    else
      var c0 := c.(tunRx := c.tunRx[1..]);
      AdmitKeeps(c0, c.tunRx[0]);
      exists l1 ::
        ListenerStep(c0.table, l, l1, c.tunRx[0], listens) && ListenerRun(Admit(c0, c.tunRx[0]), l1, m, listens)
  }

  lemma ListenerRunStep(c: Core, l: Listeners, l1: Listeners, m: Listeners, listens: u16 -> bool)
    requires Inv(c) && c.tunRx != [] && Inv(c.(tunRx := c.tunRx[1..])) && Feedable(c.tunRx[0])
    requires Inv(Admit(c.(tunRx := c.tunRx[1..]), c.tunRx[0]))
    requires ListenerStep(c.table, l, l1, c.tunRx[0], listens)
    requires ListenerRun(Admit(c.(tunRx := c.tunRx[1..]), c.tunRx[0]), l1, m, listens)
    ensures ListenerRun(c, l, m, listens)
  {
    hide Inv, Admit, Feedable, ListenerStep;
  }

  // ---------------------------------------------------------------- who is heard

  /** Some socket listens on the port. */
  ghost predicate Heard(l: Listeners, vport: u16) {
    exists h <- l.sockets :: l.sockets[h] == Endpoint(vport)
  }

  /** A SYN of a new flow finds a listener on the port it is given exactly when no socket serves its
      remote yet and smoltcp agrees to listen. */
  lemma NewFlowHeardIff(t: Table, l: Listeners, m: Listeners, raw: Packet, listens: u16 -> bool)
    requires Valid(t) && Tracked(l) && Served(l, t) && ListenerStep(t, l, m, raw, listens)
    requires IsTcp4(raw) && IsTcpSyn(raw) && ExtractTcpAddrs(raw).value !in t.forward && !Full(t)
    ensures var f := ExtractTcpAddrs(raw).value;
            var port := InsertFlow(t, f).port;
            port.Some? && (Heard(m, port.value) <==> f.dst !in l.active.Values && listens(port.value))
  {
    hide InsertFlow, Full;
    var f := ExtractTcpAddrs(raw).value;
    InsertRefines(t, f);
    var v := InsertFlow(t, f).port.value;
    if WantsListener(t, l, raw, listens) {
      var h: Handle :| Opened(l, m, h, v, f.dst);
      assert h in m.sockets && m.sockets[h] == Endpoint(v);
    }
  }

  /** Of all flows to one remote at most one has a listening socket. */
  lemma OneFlowPerRemoteIsHeard(t: Table, l: Listeners, f: Flow, g: Flow)
    requires Valid(t) && Tracked(l) && Served(l, t)
    requires f in t.forward && g in t.forward && f.dst == g.dst
    requires Heard(l, t.forward[f]) && Heard(l, t.forward[g])
    ensures f == g
  {
    var i :| i in l.sockets && l.sockets[i] == Endpoint(t.forward[f]);
    var j :| j in l.sockets && l.sockets[j] == Endpoint(t.forward[g]);
    assert i in l.active && j in l.active;
    assert l.active[i] == f.dst && l.active[j] == g.dst;
  }

  /** Two connections to one server, nobody serving it before: the first one's port gets a listener,
      the second one's does not. */
  lemma SecondConnectionIsDeaf(t: Table, l: Listeners, m: Listeners, n: Listeners,
                               first: Packet, second: Packet, listens: u16 -> bool)
    requires Valid(t) && Tracked(l) && Served(l, t) && |t.forward| < PORT_RANGE - 1
    requires IsTcp4(first) && IsTcpSyn(first) && IsTcp4(second) && IsTcpSyn(second)
    requires var f, g := ExtractTcpAddrs(first).value, ExtractTcpAddrs(second).value;
             && f !in t.forward && g !in t.forward && f != g && f.dst == g.dst && f.dst !in l.active.Values
             && InsertFlow(t, f).port.Some? && listens(InsertFlow(t, f).port.value)
             && Valid(InsertFlow(t, f).table)
             && ListenerStep(t, l, m, first, listens)
             && ListenerStep(InsertFlow(t, f).table, m, n, second, listens)
    ensures var f, g := ExtractTcpAddrs(first).value, ExtractTcpAddrs(second).value;
            var u := InsertFlow(t, f);
            var w := InsertFlow(u.table, g);
            w.port.Some? && Heard(n, u.port.value) && !Heard(n, w.port.value)
  {
    hide InsertFlow, IsTcp4, IsTcpSyn, Tracked, Served, Full, Heard, OpenedOne;
    var f, g := ExtractTcpAddrs(first).value, ExtractTcpAddrs(second).value;
    var u := InsertFlow(t, f);
    RoomForTwo(t, f, g);
    StepKeepsListeners(t, l, m, first, listens);
    RemoteIsServed(l, m, u.port.value, f.dst);
    NewFlowHeardIff(t, l, m, first, listens);
    NewFlowHeardIff(u.table, m, n, second, listens);
  }

  const NOBODY := Listeners(map[], map[], [])

  /** The case at hand on a new stack: a client opens two connections to 8.8.8.8:443. */
  lemma TwoConnectionsToOneServer(m: Listeners, n: Listeners, listens: u16 -> bool)
    requires listens(10_000) && InRange(EMPTY.next) && ListenerStep(EMPTY, NOBODY, m, SynPacket(1), listens)
    requires ListenerStep(AfterFirst(), m, n, SynPacket(2), listens)
    ensures Heard(n, 10_000) && !Heard(n, 10_001)
  {
    hide SynPacket, ListenerStep, Heard, InsertFlow;
    SynPacketIs(1);
    SynPacketIs(2);
    var f, g := ExtractTcpAddrs(SynPacket(1)).value, ExtractTcpAddrs(SynPacket(2)).value;
    FirstPorts(f, g);
    SecondConnectionIsDeaf(EMPTY, NOBODY, m, n, SynPacket(1), SynPacket(2), listens);
  }

  /** The table once the first of the two connections is known. */
  ghost function AfterFirst(): (t: Table)
    ensures InRange(t.next) && Valid(t)
  {
    SynPacketIs(1);
    InsertRefines(EMPTY, ExtractTcpAddrs(SynPacket(1)).value);
    InsertFlow(EMPTY, ExtractTcpAddrs(SynPacket(1)).value).table
  }

  lemma FirstPorts(f: Flow, g: Flow)
    requires f != g
    ensures InsertFlow(EMPTY, f).port == Some(10_000) && InRange(InsertFlow(EMPTY, f).table.next)
    ensures InsertFlow(InsertFlow(EMPTY, f).table, g).port == Some(10_001)
  {
    assert Scan(map[], 10_000, PORT_RANGE) == Some(10_000);
    var t := InsertFlow(EMPTY, f).table;
    assert t == Table(map[f := 10_000], map[10_000 := f], 10_001);
    assert Scan(t.reverse, 10_001, PORT_RANGE) == Some(10_001);
  }

  lemma RoomForTwo(t: Table, f: Flow, g: Flow)
    requires Valid(t) && |t.forward| < PORT_RANGE - 1 && f !in t.forward && g !in t.forward && f != g
    ensures !Full(t) && Valid(InsertFlow(t, f).table) && !Full(InsertFlow(t, f).table)
    ensures g !in InsertFlow(t, f).table.forward
  {
    hide InsertFlow, Full;
    InsertRefines(t, f);
    FullIffCapacity(t);
    var u := InsertFlow(t, f).table;
    assert u.forward.Keys == t.forward.Keys + {f};
    FullIffCapacity(u);
  }

  lemma RemoteIsServed(l: Listeners, m: Listeners, vport: u16, remote: SocketAddr)
    requires OpenedOne(l, m, vport, remote)
    ensures remote in m.active.Values
  {
    var h: Handle :| Opened(l, m, h, vport, remote);
    assert h in m.active && m.active[h] == remote;
  }

  lemma StepKeepsListeners(t: Table, l: Listeners, m: Listeners, raw: Packet, listens: u16 -> bool)
    requires Valid(t) && Tracked(l) && Served(l, t) && ListenerStep(t, l, m, raw, listens)
    requires IsTcp4(raw)
    ensures Tracked(m) && Served(m, InsertFlow(t, ExtractTcpAddrs(raw).value).table) && Grown(l, m)
  {
    hide InsertFlow, IsTcp4, IsTcpSyn, Tracked, OpenedOne;
    var f := ExtractTcpAddrs(raw).value;
    InsertRemembers(t, f);
    if WantsListener(t, l, raw, listens) {
      OpenedKeepsListeners(t, l, m, f);
    }
  }

  lemma OpenedKeepsListeners(t: Table, l: Listeners, m: Listeners, f: Flow)
    requires Valid(t) && Tracked(l) && Served(l, t) && f.dst !in l.active.Values
    requires InsertFlow(t, f).port.Some? && OpenedOne(l, m, InsertFlow(t, f).port.value, f.dst)
    ensures Tracked(m) && Served(m, InsertFlow(t, f).table) && Grown(l, m)
  {
    hide InsertFlow, Tracked, Served, Opened;
    InsertRemembers(t, f);
    var r := InsertFlow(t, f);
    var h: Handle :| Opened(l, m, h, r.port.value, f.dst);
    OpenKeepsTracked(l, m, h, r.port.value, f.dst);
    OpenKeepsServed(l, m, h, r.port.value, f.dst, t, r.table);
  }

  lemma OpenKeepsTracked(l: Listeners, m: Listeners, h: Handle, vport: u16, remote: SocketAddr)
    requires Tracked(l) && remote !in l.active.Values && Opened(l, m, h, vport, remote)
    ensures Tracked(m) && Grown(l, m)
  {
    assert forall g <- l.active :: l.active[g] in l.active.Values;
  }

  lemma OpenKeepsServed(l: Listeners, m: Listeners, h: Handle, vport: u16, remote: SocketAddr, t: Table, u: Table)
    requires Served(l, t) && Opened(l, m, h, vport, remote)
    requires Remembers(t, u) && vport in u.reverse && u.reverse[vport].dst == remote
    ensures Served(m, u)
  {
  }

  /** `m` keeps everything in `l`: sockets, what they serve, and the connections queued. */
  ghost predicate Grown(l: Listeners, m: Listeners) {
    && (forall h <- l.sockets :: h in m.sockets && m.sockets[h] == l.sockets[h])
    && (forall h <- l.active :: h in m.active && m.active[h] == l.active[h])
    && l.pending <= m.pending
  }

  lemma FreshHandle(s: set<Handle>)
    ensures exists h: Handle :: h !in s
  {
    var h := Above(s);
    assert h !in s;
  }

  ghost function Above(s: set<Handle>): (h: Handle)
    ensures forall g <- s :: g < h
  {
    if s == {} then 0
    else
      var g :| g in s;
      var h := Above(s - {g});
      assert s == s - {g} + {g};
      if g < h then h else g + 1
  }

  class Inner {
    const natTable: NatTable
    /** Whether smoltcp agrees to listen on a port. */
    const listens: u16 -> bool
    var sockets: map<Handle, SocketAddr>
    var active: map<Handle, SocketAddr>
    var pending: seq<Connection>
    var tunTx: seq<Packet>
    var tunRx: seq<Packet>
    var rx: seq<Packet>
    var tx: seq<Packet>
    ghost var inLog: seq<Crossing>
    ghost var outLog: seq<Crossing>

    ghost function State(): Core
      reads this, natTable
    {
      Core(natTable.Model(), tunRx, rx, tx, tunTx, inLog, outLog)
    }

    ghost function Sockets(): Listeners
      reads this
    {
      Listeners(sockets, active, pending)
    }

    ghost predicate Consistent()
      reads this, natTable
    {
      Inv(State()) && Tracked(Sockets()) && Served(Sockets(), natTable.Model())
    }

    constructor (listens: u16 -> bool)
      ensures State() == START && Consistent() && fresh(natTable) && this.listens == listens
    {
      this.listens := listens;
      natTable := new NatTable();
      sockets, active, pending := map[], map[], [];
      tunTx, tunRx, rx, tx, inLog, outLog := [], [], [], [], [], [];
    }

    method FeedInbound(p: Packet)
      requires Consistent() && Feedable(p)
      modifies this
      ensures Consistent() && State() == Step(old(State()), Feed(p)) && Sockets() == old(Sockets())
      ensures tunRx == old(tunRx) + [p] && rx == old(rx) && tx == old(tx) && tunTx == old(tunTx)
    {
      StepKeeps(State(), Feed(p));
      tunRx := tunRx + [p];
    }

    method DrainOutbound() returns (p: Option<Packet>)
      requires Consistent()
      modifies this
      ensures Consistent() && State() == Step(old(State()), Drain) && Sockets() == old(Sockets())
      ensures old(tunTx) == (if p.Some? then [p.value] else []) + tunTx
      ensures p.None? ==> tunTx == []
      ensures tunRx == old(tunRx) && rx == old(rx) && tx == old(tx)
    {
      StepKeeps(State(), Drain);
      if tunTx == [] { return None; }
      p := Some(tunTx[0]);
      tunTx := tunTx[1..];
    }

    method Accept() returns (c: Option<Connection>)
      requires Consistent()
      modifies this`pending
      ensures Consistent() && State() == old(State())
      ensures old(pending) == (if c.Some? then [c.value] else []) + pending
      ensures c.None? ==> pending == []
      ensures c.Some? ==> Routes(c.value, natTable.Model())
    {
      if pending == [] { return None; }
      c := Some(pending[0]);
      pending := pending[1..];
    }

    /** `create_listener`; when smoltcp refuses to listen nothing is tracked. */
    method CreateListener(vport: u16, remote: SocketAddr)
      requires Tracked(Sockets()) && remote !in active.Values
      modifies this`sockets, this`active, this`pending
      ensures if listens(vport) then OpenedOne(old(Sockets()), Sockets(), vport, remote)
              else Sockets() == old(Sockets())
      ensures old(pending) <= pending
              && (|pending| > |old(pending)| <==> listens(vport) && |old(pending)| < 128)
      ensures |pending| > |old(pending)| ==>
                |pending| == |old(pending)| + 1
                && pending[|old(pending)|].local == SocketAddr(V4([10, 0, 2, 2]), vport)
                && pending[|old(pending)|].remote == remote
    {
      if !listens(vport) { return; }
      FreshHandle(sockets.Keys);
      var handle: Handle :| handle !in sockets;
      var local := SocketAddr(V4(IFACE_IP), vport);
      sockets := sockets[handle := local];
      active := active[handle := remote];
      if |pending| < PENDING_CAP {
        pending := pending + [Connection(local, remote)];
      }
      assert Opened(old(Sockets()), Sockets(), handle, vport, remote);
    }

    /** The SYN branch of `process_inbound`. */
    method AdmitSyn(f: Flow) returns (port: Option<u16>)
      requires Tracked(Sockets()) && Valid(natTable.Model()) && Served(Sockets(), natTable.Model())
      modifies natTable, this`sockets, this`active, this`pending
      ensures InsertFlow(old(natTable.Model()), f) == Inserted(natTable.Model(), port)
      ensures Tracked(Sockets()) && Served(Sockets(), natTable.Model()) && Grown(old(Sockets()), Sockets())
      ensures if port.Some? && f.dst !in old(active).Values && listens(port.value)
              then OpenedOne(old(Sockets()), Sockets(), port.value, f.dst)
              else Sockets() == old(Sockets())
    {
      hide InsertFlow, Tracked, OpenedOne;
      ghost var t, l := natTable.Model(), Sockets();
      InsertRemembers(t, f);
      port := natTable.Insert(f.src, f.dst);
      if port.Some? && f.dst !in active.Values {
        CreateListener(port.value, f.dst);
        if listens(port.value) { OpenedKeepsListeners(t, l, Sockets(), f); }
      }
    }

    method PushInbound(raw: Packet, vport: u16)
      requires WellFormed(raw)
      modifies this`rx, this`inLog
      ensures State() == Push(old(State()), raw, vport)
    {
      hide Inbound;
      var pkt := new byte[|raw|](i requires 0 <= i < |raw| => raw[i]);
      assert pkt[..] == raw;
      var ok := RewriteInbound(pkt, vport);
      if ok {
        rx := rx + [pkt[..]];
        inLog := inLog + [Crossing(raw, pkt[..])];
      }
    }

    /** `process_inbound` */
    method ProcessInbound(raw: Packet)
      requires Consistent() && Feedable(raw)
      modifies this, natTable
      ensures Consistent() && State() == Admit(old(State()), raw)
      ensures Grown(old(Sockets()), Sockets())
      ensures ListenerStep(old(natTable.Model()), old(Sockets()), Sockets(), raw, listens)
    {
      hide InsertFlow, Inbound, Routed, Returned, Emittable, Tracked, Served, OpenedOne;
      AdmitKeeps(State(), raw);
      var addrs := ExtractTcpAddrs(raw);
      if addrs.None? { return; }
      FeedableIsWellFormed(raw);
      var r: Option<u16>;
      if IsTcpSyn(raw) {
        r := AdmitSyn(addrs.value);
      } else {
        r := natTable.LookupForward(addrs.value.src, addrs.value.dst);
      }
      if r.None? { return; }
      PushInbound(raw, r.value);
    }

    /** `vport_of_handle`: the lowest port whose flow has the handle's remote. */
    method VportOfHandle(handle: Handle) returns (port: Option<u16>)
      ensures handle !in active ==> port == None
      ensures handle in active && port.None? ==>
                forall p: u16 :: InRange(p) && p in natTable.reverse ==> natTable.reverse[p].dst != active[handle]
      ensures port.Some? ==>
                && handle in active && InRange(port.value)
                && port.value in natTable.reverse && natTable.reverse[port.value].dst == active[handle]
                && forall p: u16 :: BASE_PORT <= p < port.value && p in natTable.reverse
                                    ==> natTable.reverse[p].dst != active[handle]
    {
      if handle !in active { return None; }
      var remote := active[handle];
      for vport := 10_000 to 60_000
        invariant forall p: u16 :: BASE_PORT <= p < vport && p in natTable.reverse ==> natTable.reverse[p].dst != remote
      {
        var r := natTable.LookupReverse(vport);
        if r.Some? && r.value.dst == remote { return Some(vport); }
      }
      return None;
    }

    method ReleasePort(port: Option<u16>)
      requires Valid(natTable.Model())
      modifies natTable
      ensures natTable.Model() ==
                if port.Some? then RemovePort(old(natTable.Model()), port.value) else old(natTable.Model())
    {
      if port.Some? { natTable.RemoveByVport(port.value); }
    }

    /** What `poll` does for a closed socket. The handle leaves `active` before its port is
        looked up there, so the lookup finds nothing and no table entry is released. */
    method CloseSocket(handle: Handle)
      requires Consistent() && handle in active
      modifies this`active, this`sockets, natTable
      ensures Consistent() && State() == old(State())
      ensures active == old(active) - {handle} && sockets == old(sockets) - {handle}
    {
      hide Routed, Returned;
      active := active - {handle};
      var vport := VportOfHandle(handle);
      ReleasePort(vport);
      assert handle in sockets;
      sockets := sockets - {handle};
    }

    /** The third phase of `poll`, over the tracked sockets in any order. */
    method ServiceSockets(closed: set<Handle>, progress: bool) returns (needMore: bool)
      requires Consistent()
      modifies this`active, this`sockets, natTable
      ensures Consistent() && State() == old(State())
      ensures active == old(active) - closed && pending == old(pending)
      ensures sockets == old(sockets) - (closed * old(active).Keys)
      ensures needMore == (progress || closed * old(active).Keys != {})
    {
      hide Inv, Tracked, Served;
      var handles := active.Keys;
      ghost var removed: set<Handle> := {};
      needMore := progress;
      while handles != {}
        invariant Consistent() && State() == old(State())
        invariant handles <= old(active).Keys && removed == closed * (old(active).Keys - handles)
        invariant active == old(active) - removed && sockets == old(sockets) - removed
        invariant needMore == (progress || removed != {})
        decreases handles
      {
        var handle :| handle in handles;
        if handle in closed {
          CloseSocket(handle);
          removed := removed + {handle};
          needMore := true;
        }
        handles := handles - {handle};
      }
    }

    /** The first phase of `poll`. */
    method AdmitQueue()
      requires Consistent()
      modifies this, natTable
      ensures Consistent() && State() == AdmitAll(old(State()))
      ensures ListenerRun(old(State()), old(Sockets()), Sockets(), listens)
      ensures Grown(old(Sockets()), Sockets())
    {
      hide Routed, Returned, Valid, Admit, Emittable, Tracked, Served, ListenerStep;
      ghost var c0, l0 := State(), Sockets();
      while tunRx != []
        invariant Consistent() && AdmitAll(State()) == AdmitAll(c0)
        invariant Grown(l0, Sockets())
        invariant forall m :: ListenerRun(State(), Sockets(), m, listens) ==> ListenerRun(c0, l0, m, listens)
        decreases |tunRx|
      {
        ghost var c, l := State(), Sockets();
        var raw := tunRx[0];
        tunRx := tunRx[1..];
        assert State() == c.(tunRx := c.tunRx[1..]);
        ProcessInbound(raw);
        assert tunRx == c.tunRx[1..];
        forall m | ListenerRun(State(), Sockets(), m, listens) ensures ListenerRun(c0, l0, m, listens) {
          ListenerRunStep(c, l, Sockets(), m, listens);
        }
      }
      assert ListenerRun(State(), Sockets(), Sockets(), listens);
    }

    /** The last phase of `poll`. */
    method EmitQueue()
      requires Consistent()
      modifies this`tx, this`tunTx, this`outLog
      ensures Consistent() && State() == EmitAll(old(State()))
    {
      hide Routed, Returned, Valid, Emit, Feedable, Tracked;
      while tx != []
        invariant Consistent() && EmitAll(State()) == EmitAll(old(State()))
        decreases |tx|
      {
        ghost var c := State();
        var p := tx[0];
        tx := tx[1..];
        assert State() == c.(tx := c.tx[1..]);
        EmitOne(p);
        assert tx == c.tx[1..];
      }
    }

    /** `poll`: drain the TUN queue, let smoltcp run, service sockets, rewrite what it sent. `mid`
        is what the listeners were when the sockets were serviced. */
    method Poll(taken: nat, emitted: seq<Packet>, closed: set<Handle>, progress: bool)
      returns (needMore: bool, ghost mid: Listeners)
      requires Consistent() && forall p <- emitted :: Emittable(p)
      modifies this, natTable
      ensures Consistent() && State() == Step(old(State()), Event.Poll(taken, emitted))
      ensures tunRx == [] && tx == [] && Delivered(old(State()), old(tunRx), State(), taken)
      ensures ListenerRun(old(State()), old(Sockets()), mid, listens) && Grown(old(Sockets()), mid)
      ensures Sockets() == Listeners(mid.sockets - closed, mid.active - closed, mid.pending)
      ensures needMore == (progress || closed * mid.active.Keys != {})
    {
      hide Inv, AdmitAll, EmitAll, Emittable, Served, ListenerRun, Grown, Delivered;
      PollDelivers(State(), taken, emitted);
      PollDrains(State(), taken, emitted);
      AdmitAllKeeps(State());
      AdmitQueue();
      mid := Sockets();
      EnvironmentKeeps(State(), taken, emitted);
      EmitAllKeeps(Environment(State(), taken, emitted));
      rx, tx := rx[Min(taken, |rx|)..], tx + emitted;
      needMore := ServiceSockets(closed, progress);
      assert mid.sockets - (closed * mid.active.Keys) == mid.sockets - closed;
      EmitQueue();
    }

    /** One turn of the drain loop. */
    method EmitOne(p: Packet)
      requires Consistent() && Emittable(p)
      modifies this`tunTx, this`outLog
      ensures Consistent() && State() == Emit(old(State()), p)
    {
      hide Outbound, Routed, Returned, Feedable, Tracked, Valid, Served;
      EmitKeeps(State(), p);
      var v := OutboundSrcPort(p);
      if v.None? { return; }
      var flow := natTable.LookupReverse(v.value);
      if flow.None? { return; }
      var remote := flow.value.dst;
      var pkt := new byte[|p|](i requires 0 <= i < |p| => p[i]);
      assert pkt[..] == p;
      if remote.ip.V4? {
        var _ := RewriteOutbound(pkt, remote.ip.v4, remote.port);
      }
      tunTx := tunTx + [pkt[..]];
      outLog := outLog + [Crossing(p, pkt[..])];
    }
  }
}
