/** What the userspace stack does to packets over whole runs (gravital-stack, stack.rs).

    `Core` is the part of the stack's state that decides where packets go. smoltcp is the
    environment: a poll lets it take any number of packets from `rx` and add any packets
    to `tx`. `inLog` and `outLog` are history: every packet that ever crossed, before and after. */
module Stack {
  import opened Bytes
  import opened Ipv4
  import opened Rewrite
  import opened Nat

  datatype Crossing = Crossing(before: Packet, after: Packet)

  datatype Core = Core(
    table: Table,
    tunRx: seq<Packet>, rx: seq<Packet>, tx: seq<Packet>, tunTx: seq<Packet>,
    inLog: seq<Crossing>, outLog: seq<Crossing>)

  const START := Core(EMPTY, [], [], [], [], [], [])

  /** What the TUN reader may feed: an accepted TCP packet of datagram length. */
  predicate Feedable(p: Packet) { FedToStack(p) && |p| <= 0xFFFF }

  /** What smoltcp may emit: anything, as long as a TCP packet has a proper IPv4 header. */
  predicate Emittable(p: Packet) { IsTcp4(p) ==> WellFormed(p) }

  lemma FeedableIsWellFormed(p: Packet)
    requires Feedable(p) && IsTcp4(p)
    ensures WellFormed(p)
  {
  }

  // ---------------------------------------------------------------- one packet

  function Push(c: Core, raw: Packet, vport: u16): Core
    requires WellFormed(raw)
  {
    var after := Inbound(raw, vport);
    c.(rx := c.rx + [after], inLog := c.inLog + [Crossing(raw, after)])
  }

  /** `process_inbound` */
  function Admit(c: Core, raw: Packet): (d: Core)
    requires Inv(c) && Feedable(raw)
    ensures d.tunRx == c.tunRx && d.tx == c.tx && d.tunTx == c.tunTx
  {
    if !IsTcp4(raw) then c
    else
      var f := ExtractTcpAddrs(raw).value;
      if IsTcpSyn(raw) then
        var r := InsertFlow(c.table, f);
        if r.port.None? then c.(table := r.table) else Push(c.(table := r.table), raw, r.port.value)
      else if f in c.table.forward then Push(c, raw, c.table.forward[f])
      else c
  }

  /** `outbound_src_port`, which asks for less than the rewrite does. */
  function OutboundSrcPort(p: Packet): Option<u16> {
    if |p| < 20 || Version(p) != 4 || p[9] != 6 || |p| < Ihl(p) + 4 then None
    else Some(U16At(p, Ihl(p)))
  }

  /** What is written for an emitted packet that belongs to a flow with the given remote. */
  function Disguised(p: Packet, remote: SocketAddr): Packet
    requires Emittable(p)
  {
    if remote.ip.V4? && IsTcp4(p) then
      StampedIsFixable(p, remote.ip.v4, remote.port);
      Outbound(p, remote.ip.v4, remote.port)
    else p
  }

  /** One turn of the loop that drains smoltcp's transmit queue. */
  function Emit(c: Core, p: Packet): (d: Core)
    requires Emittable(p)
    ensures d.tx == c.tx && d.table == c.table
  {
    match OutboundSrcPort(p)
    case None => c
    case Some(v) =>
      if v !in c.table.reverse then c
      else
        var after := Disguised(p, c.table.reverse[v].dst);
        c.(tunTx := c.tunTx + [after], outLog := c.outLog + [Crossing(p, after)])
  }

  // ---------------------------------------------------------------- runs

  /** The first phase of `poll`: pop and admit until the TUN queue is empty. */
  function AdmitAll(c: Core): Core
    requires Inv(c)
    decreases |c.tunRx|
  {
    if c.tunRx == [] then c
    else
      var c0 := c.(tunRx := c.tunRx[1..]);
      AdmitKeeps(c0, c.tunRx[0]);
      AdmitAll(Admit(c0, c.tunRx[0]))
  }

  /** The last phase of `poll`: pop and rewrite until smoltcp's queue is empty. */
  function EmitAll(c: Core): Core
    requires forall p <- c.tx :: Emittable(p)
    decreases |c.tx|
  {
    if c.tx == [] then c else EmitAll(Emit(c.(tx := c.tx[1..]), c.tx[0]))
  }

  /** smoltcp takes some packets from the front of `rx` and appends to `tx`. */
  function Environment(c: Core, taken: nat, emitted: seq<Packet>): Core {
    c.(rx := c.rx[Min(taken, |c.rx|)..], tx := c.tx + emitted)
  }

  datatype Event =
    | Feed(packet: Packet)
    | Poll(taken: nat, emitted: seq<Packet>)
    | Drain

  predicate Possible(e: Event) {
    match e
    case Feed(p) => Feedable(p)
    case Poll(_, emitted) => forall p <- emitted :: Emittable(p)
    case Drain => true
  }

  function Step(c: Core, e: Event): Core
    requires Inv(c) && Possible(e)
  {
    match e
    case Feed(p) => c.(tunRx := c.tunRx + [p])
    case Drain => if c.tunTx == [] then c else c.(tunTx := c.tunTx[1..])
    case Poll(taken, emitted) =>
      AdmitAllKeeps(c);
      EmitAll(Environment(AdmitAll(c), taken, emitted))
  }

  function Run(c: Core, es: seq<Event>): Core
    requires Inv(c) && forall e <- es :: Possible(e)
    decreases |es|
  {
    if es == [] then c
    else
      StepKeeps(c, es[0]);
      Run(Step(c, es[0]), es[1..])
  }

  // ---------------------------------------------------------------- invariant

  /** `x` was rewritten to the port the table holds for its own flow. */
  predicate Routed(t: Table, x: Crossing) {
    && WellFormed(x.before)
    && ExtractTcpAddrs(x.before).value in t.forward
    && x.after == Inbound(x.before, t.forward[ExtractTcpAddrs(x.before).value])
  }

  /** `x` left through a port of the table and was disguised as that flow's remote. */
  predicate Returned(t: Table, x: Crossing) {
    && Emittable(x.before)
    && OutboundSrcPort(x.before).Some?
    && OutboundSrcPort(x.before).value in t.reverse
    && x.after == Disguised(x.before, t.reverse[OutboundSrcPort(x.before).value].dst)
  }

  /** `queue` is what remains of everything that was ever appended to it. */
  predicate IsTail(queue: seq<Packet>, log: seq<Crossing>) {
    && |queue| <= |log|
    && forall k :: 0 <= k < |queue| ==> queue[k] == log[|log| - |queue| + k].after
  }

  predicate AllV4(t: Table) { forall f <- t.forward :: f.src.ip.V4? && f.dst.ip.V4? }

  ghost predicate Inv(c: Core) {
    && Valid(c.table) && AllV4(c.table)
    && (forall p <- c.tunRx :: Feedable(p))
    && (forall p <- c.tx :: Emittable(p))
    && (forall x <- c.inLog :: Routed(c.table, x))
    && (forall x <- c.outLog :: Returned(c.table, x))
    && IsTail(c.rx, c.inLog) && IsTail(c.tunTx, c.outLog)
  }

  /** `u` remembers every flow of `t` under the same port. */
  predicate Remembers(t: Table, u: Table) {
    && (forall f <- t.forward :: f in u.forward && u.forward[f] == t.forward[f])
    && (forall p <- t.reverse :: p in u.reverse && u.reverse[p] == t.reverse[p])
  }

  /** `d` is a later state of `c`: no flow and no logged crossing is lost or altered. */
  predicate Later(c: Core, d: Core) {
    && Remembers(c.table, d.table)
    && c.inLog <= d.inLog && c.outLog <= d.outLog
  }

  lemma InsertRemembers(t: Table, f: Flow)
    requires Valid(t)
    ensures Remembers(t, InsertFlow(t, f).table) && Valid(InsertFlow(t, f).table)
    ensures var r := InsertFlow(t, f);
            r.port.Some? ==> f in r.table.forward && r.table.forward[f] == r.port.value
  {
    hide Scan, Distance, Succ;
    InsertRefines(t, f);
  }

  lemma LogsSurvive(c: Core, t: Table)
    requires Inv(c) && Remembers(c.table, t) && Valid(t) && AllV4(t)
    ensures Inv(c.(table := t))
  {
    hide Inbound, Disguised, Valid, Feedable, Emittable, OutboundSrcPort, WellFormed;
    forall x <- c.inLog ensures Routed(t, x) { assert Routed(c.table, x); }
    forall x <- c.outLog ensures Returned(t, x) { assert Returned(c.table, x); }
  }

  lemma PushKeeps(c: Core, raw: Packet)
    requires Inv(c) && WellFormed(raw) && ExtractTcpAddrs(raw).value in c.table.forward
    ensures var d := Push(c, raw, c.table.forward[ExtractTcpAddrs(raw).value]); Inv(d) && Later(c, d)
  {
    hide Inbound, Disguised, Valid, Feedable, Emittable, OutboundSrcPort, WellFormed;
  }

  lemma AdmitKeeps(c: Core, raw: Packet)
    requires Inv(c) && Feedable(raw)
    ensures Inv(Admit(c, raw)) && Later(c, Admit(c, raw))
  {
    hide InsertFlow, Inbound, Disguised, OutboundSrcPort;
    if IsTcp4(raw) {
      FeedableIsWellFormed(raw);
      var f := ExtractTcpAddrs(raw).value;
      if IsTcpSyn(raw) {
        var r := InsertFlow(c.table, f);
        InsertRemembers(c.table, f);
        InsertKeepsV4(c.table, f);
        LogsSurvive(c, r.table);
        if r.port.Some? { PushKeeps(c.(table := r.table), raw); }
      } else if f in c.table.forward {
        PushKeeps(c, raw);
      }
    }
  }

  lemma InsertKeepsV4(t: Table, f: Flow)
    requires Valid(t) && AllV4(t) && f.src.ip.V4? && f.dst.ip.V4?
    ensures AllV4(InsertFlow(t, f).table)
  {
    hide Scan, Distance, Succ;
    InsertRefines(t, f);
  }

  lemma {:induction false} AdmitAllKeeps(c: Core)
    requires Inv(c)
    ensures Inv(AdmitAll(c)) && Later(c, AdmitAll(c))
    decreases |c.tunRx|
  {
    hide Routed, Returned, Admit, Feedable, Emittable, Valid;
    if c.tunRx != [] {
      var c0 := c.(tunRx := c.tunRx[1..]);
      AdmitKeeps(c0, c.tunRx[0]);
      AdmitAllKeeps(Admit(c0, c.tunRx[0]));
    }
  }

  lemma EmitKeeps(c: Core, p: Packet)
    requires Inv(c) && Emittable(p)
    ensures Inv(Emit(c, p)) && Later(c, Emit(c, p))
  {
    hide Inbound, Disguised, Valid, Feedable, Emittable, WellFormed, OutboundSrcPort;
  }

  lemma {:induction false} EmitAllKeeps(c: Core)
    requires Inv(c)
    ensures Inv(EmitAll(c)) && Later(c, EmitAll(c))
    decreases |c.tx|
  {
    hide Routed, Returned, Emit, Feedable, Emittable, Valid;
    if c.tx != [] {
      var c0 := c.(tx := c.tx[1..]);
      EmitKeeps(c0, c.tx[0]);
      EmitAllKeeps(Emit(c0, c.tx[0]));
    }
  }

  lemma EnvironmentKeeps(c: Core, taken: nat, emitted: seq<Packet>)
    requires Inv(c) && forall p <- emitted :: Emittable(p)
    ensures var d := Environment(c, taken, emitted); Inv(d) && Later(c, d)
  {
    hide Routed, Returned, Feedable, Emittable, Valid;
  }

  lemma StepKeeps(c: Core, e: Event)
    requires Inv(c) && Possible(e)
    ensures Inv(Step(c, e)) && Later(c, Step(c, e))
  {
    hide Routed, Returned, Feedable, Emittable, Valid, Admit, Emit;
    match e
    case Feed(_) =>
    case Drain =>
    case Poll(taken, emitted) =>
      AdmitAllKeeps(c);
      EnvironmentKeeps(AdmitAll(c), taken, emitted);
      EmitAllKeeps(Environment(AdmitAll(c), taken, emitted));
  }

  /** Safety over whole runs: the invariant holds in every reachable state, and no step of any
      run forgets a flow or rewrites history. */
  lemma {:induction false} RunKeeps(c: Core, es: seq<Event>)
    requires Inv(c) && forall e <- es :: Possible(e)
    ensures Inv(Run(c, es)) && Later(c, Run(c, es))
    decreases |es|
  {
    hide Inv, Step, Possible;
    if es != [] {
      StepKeeps(c, es[0]);
      RunKeeps(Step(c, es[0]), es[1..]);
    }
  }

  // ---------------------------------------------------------------- theorems

  ghost predicate Reachable(c: Core) {
    exists es: seq<Event> :: (forall e <- es :: Possible(e)) && c == Run(START, es)
  }

  lemma StartInv()
    ensures Inv(START)
  {
  }

  lemma ReachableInv(c: Core)
    requires Reachable(c)
    ensures Inv(c)
  {
    hide Inv, Run, Possible;
    StartInv();
    var es: seq<Event> :| (forall e <- es :: Possible(e)) && c == Run(START, es);
    RunKeeps(START, es);
  }

  function FlowOf(x: Crossing): Flow
    requires IsTcp4(x.before)
  {
    ExtractTcpAddrs(x.before).value
  }

  /** Whether a packet crosses when the flows in `known` are known: its flow is one of them, or it is
      a SYN and there is room for one more. */
  predicate Passes(known: set<Flow>, p: Packet) {
    IsTcp4(p) && (ExtractTcpAddrs(p).value in known || (IsTcpSyn(p) && |known| < 50_000))
  }

  /** Nothing is dropped that should cross: a packet reaches smoltcp, on its own flow's port and at
      the end of the queue, exactly when its flow is known or it is a SYN and a port is left;
      otherwise the state does not change at all. */
  lemma AdmittedIff(c: Core, raw: Packet)
    requires Inv(c) && Feedable(raw)
    ensures var d := Admit(c, raw);
            if Passes(c.table.forward.Keys, raw) then
              var f := ExtractTcpAddrs(raw).value;
              && |raw| <= 0xFFFF && d.table.forward.Keys == c.table.forward.Keys + {f}
              && var after := Inbound(raw, d.table.forward[f]);
                 && d.rx == c.rx + [after]
                 && d.inLog == c.inLog + [Crossing(raw, after)] && d.outLog == c.outLog
            else d == c
  {
    hide InsertFlow, Inbound, Routed, Returned, Emittable, IsTcpSyn, Valid;
    if IsTcp4(raw) { InsertAdmits(c.table, ExtractTcpAddrs(raw).value); }
  }

  /** Insertion learns a flow exactly when it is known or fewer than 50,000 are. */
  lemma InsertAdmits(t: Table, f: Flow)
    requires Valid(t)
    ensures var r := InsertFlow(t, f);
            if f in t.forward.Keys || |t.forward.Keys| < 50_000
            then r.port.Some? && r.table.forward.Keys == t.forward.Keys + {f} && r.table.forward[f] == r.port.value
            else r == Inserted(t, None)
  {
    hide InsertFlow, Full;
    FullIffCapacity(t);
    assert |t.forward.Keys| == |t.forward|;
    InsertRefines(t, f);
  }

  /** A packet of an unknown flow, by its flag bits: it is admitted exactly when SYN is set, ACK is
      clear and fewer than 50,000 flows are known, whatever the other six bits say. A segment from the
      middle of an unknown connection leaves no trace. */
  lemma UnknownFlowAdmittedIff(c: Core, raw: Packet, flags: Flags)
    requires Inv(c) && Feedable(raw) && IsTcp4(raw) && ExtractTcpAddrs(raw).value !in c.table.forward
    requires raw[Ihl(raw) + 13] == FlagByte(flags)
    ensures var d := Admit(c, raw);
            if flags.syn && !flags.ack && |c.table.forward| < 50_000
            then ExtractTcpAddrs(raw).value in d.table.forward && |d.rx| == |c.rx| + 1 && |d.inLog| == |c.inLog| + 1
            else d == c
  {
    hide Admit, Inv, Feedable, IsTcpSyn, Inbound, FlagByte;
    IsTcpSynIff(raw, flags);
    AdmittedIff(c, raw);
    assert |c.table.forward.Keys| == |c.table.forward|;
  }

  /** The engine feeds TCP over IPv6 too; the stack drops it. */
  lemma Ipv6IsDropped(c: Core, raw: Packet)
    requires Inv(c) && Feedable(raw) && raw[0] / 16 == 6
    ensures Admit(c, raw) == c
  {
  }

  // ---------------------------------------------------------------- nothing is lost on the way in

  function Befores(log: seq<Crossing>): (r: seq<Packet>)
    ensures |r| == |log| && forall k :: 0 <= k < |r| ==> r[k] == log[k].before
  {
    seq(|log|, k requires 0 <= k < |log| => log[k].before)
  }

  function Afters(log: seq<Crossing>): (r: seq<Packet>)
    ensures |r| == |log| && forall k :: 0 <= k < |r| ==> r[k] == log[k].after
  {
    seq(|log|, k requires 0 <= k < |log| => log[k].after)
  }

  /** Which of `ps`, taken in turn, cross when `known` is known before the first. A reference that
      counts flows and knows nothing of ports, tables or cursors. */
  function Crossers(known: set<Flow>, ps: seq<Packet>): seq<Packet>
    decreases |ps|
  {
    if ps == [] then []
    else if Passes(known, ps[0])
    then [ps[0]] + Crossers(Learned(known, ps[0]), ps[1..])
    else Crossers(known, ps[1..])
  }

  /** The flows known after one packet. */
  function Learned(known: set<Flow>, p: Packet): set<Flow> {
    if Passes(known, p) then known + {ExtractTcpAddrs(p).value} else known
  }

  /** The flows known after all of `ps`. */
  function KnownAfter(known: set<Flow>, ps: seq<Packet>): set<Flow>
    decreases |ps|
  {
    if ps == [] then known
    else KnownAfter(Learned(known, ps[0]), ps[1..])
  }

  /** `d` is `c` after the packets `ps` have been admitted in turn: exactly those that should cross
      did, in order, each on the port of its own flow, and all of them are at the end of the queue. */
  ghost predicate Delivered(c: Core, ps: seq<Packet>, d: Core, taken: nat) {
    && c.inLog <= d.inLog
    && var crossed := d.inLog[|c.inLog|..];
       && Befores(crossed) == Crossers(c.table.forward.Keys, ps)
       && (forall x <- crossed :: Routed(d.table, x))
       && d.rx == (c.rx + Afters(crossed))[Min(taken, |c.rx| + |crossed|)..]
       && d.table.forward.Keys == KnownAfter(c.table.forward.Keys, ps)
  }

  /** What a log gained in two stretches. */
  lemma LogsChain(a: seq<Crossing>, b: seq<Crossing>, c: seq<Crossing>)
    requires a <= b <= c
    ensures c[|a|..] == b[|a|..] + c[|b|..]
    ensures Befores(c[|a|..]) == Befores(b[|a|..]) + Befores(c[|b|..])
    ensures Afters(c[|a|..]) == Afters(b[|a|..]) + Afters(c[|b|..])
  {
    assert c[|a|..] == b[|a|..] + c[|b|..];
  }

  lemma OneEntry(a: seq<Crossing>, b: seq<Crossing>)
    requires a <= b && |b| == |a| + 1
    ensures Befores(b[|a|..]) == [b[|a|].before] && Afters(b[|a|..]) == [b[|a|].after]
  {
  }

  lemma {:induction false} AdmitAllDelivers(c: Core)
    requires Inv(c)
    ensures Delivered(c, c.tunRx, AdmitAll(c), 0)
    decreases |c.tunRx|
  {
    hide Routed, Returned, Admit, Feedable, Emittable, Valid, Passes, Inbound, IsTcp4, ExtractTcpAddrs;
    AdmitAllKeeps(c);
    if c.tunRx != [] {
      var raw := c.tunRx[0];
      var c0 := c.(tunRx := c.tunRx[1..]);
      AdmitKeeps(c0, raw);
      AdmittedIff(c0, raw);
      var c1 := Admit(c0, raw);
      AdmitAllDelivers(c1);
      DeliveredStep(c, c1, AdmitAll(c1), raw);
    }
  }

  lemma DeliveredStep(c: Core, c1: Core, d: Core, raw: Packet)
    requires c.tunRx != [] && c.tunRx[0] == raw && c1.tunRx == c.tunRx[1..]
    requires Delivered(c1, c1.tunRx, d, 0)
    requires if Passes(c.table.forward.Keys, raw)
             then |c1.inLog| == |c.inLog| + 1 && c1.inLog[..|c.inLog|] == c.inLog
                  && c1.inLog[|c.inLog|].before == raw && c1.rx == c.rx + [c1.inLog[|c.inLog|].after]
                  && c1.table.forward.Keys == c.table.forward.Keys + {ExtractTcpAddrs(raw).value}
             else c1.inLog == c.inLog && c1.rx == c.rx && c1.table == c.table
    requires forall x <- d.inLog :: Routed(d.table, x)
    ensures Delivered(c, c.tunRx, d, 0)
  {
    hide Routed, IsTcpSyn, IsTcp4, Befores, Afters;
    if Passes(c.table.forward.Keys, raw) {
      LogsChain(c.inLog, c1.inLog, d.inLog);
      OneEntry(c.inLog, c1.inLog);
      assert c.rx + Afters(d.inLog[|c.inLog|..]) == c1.rx + Afters(d.inLog[|c1.inLog|..]);
    }
  }

  /** What a poll makes of the TUN queue: exactly the packets that should cross do, in order, and all
      of them are in smoltcp's receive queue behind what was there, less what smoltcp took. */
  lemma PollDelivers(c: Core, taken: nat, emitted: seq<Packet>)
    requires Inv(c) && forall p <- emitted :: Emittable(p)
    ensures Delivered(c, c.tunRx, Step(c, Poll(taken, emitted)), taken)
  {
    hide Inv, Routed, AdmitAll, EmitAll, Emittable, Crossers, KnownAfter;
    AdmitAllKeeps(c);
    AdmitAllDelivers(c);
    var c1 := AdmitAll(c);
    EnvironmentKeeps(c1, taken, emitted);
    QueuedIsEmittable(Environment(c1, taken, emitted));
    EmitAllWrites(Environment(c1, taken, emitted));
  }

  /** `d` is `c` with only the outbound side changed, and with what was logged there written. */
  predicate Written(c: Core, d: Core) {
    && d.inLog == c.inLog && d.rx == c.rx && d.table == c.table && c.outLog <= d.outLog
    && d.tunTx == c.tunTx + Afters(d.outLog[|c.outLog|..])
  }

  lemma {:induction false} EmitAllWrites(c: Core)
    requires forall p <- c.tx :: Emittable(p)
    ensures Written(c, EmitAll(c))
    decreases |c.tx|
  {
    hide Emittable, Emit, Written;
    if c.tx == [] {
      NothingWritten(c);
    } else {
      var c1 := Emit(c.(tx := c.tx[1..]), c.tx[0]);
      EmitWrites(c);
      EmitAllWrites(c1);
      WrittenChain(c, c1, EmitAll(c1));
    }
  }

  lemma NothingWritten(c: Core)
    ensures Written(c, c)
  {
    assert c.outLog[|c.outLog|..] == [];
  }

  lemma EmitWrites(c: Core)
    requires c.tx != [] && Emittable(c.tx[0])
    ensures Written(c, Emit(c.(tx := c.tx[1..]), c.tx[0]))
  {
    hide Disguised, OutboundSrcPort, Emittable;
  }

  lemma WrittenChain(a: Core, b: Core, c: Core)
    requires Written(a, b) && Written(b, c)
    ensures Written(a, c)
  {
    hide Afters;
    LogsChain(a.outLog, b.outLog, c.outLog);
    Regroup(a.tunTx, Afters(b.outLog[|a.outLog|..]), Afters(c.outLog[|b.outLog|..]));
  }

  lemma Regroup(x: seq<Packet>, y: seq<Packet>, z: seq<Packet>)
    ensures x + y + z == x + (y + z)
  {
  }

  // ---------------------------------------------------------------- queues over whole runs

  /** Everything fed in a run. */
  function Fed(es: seq<Event>): seq<Packet>
    decreases |es|
  {
    if es == [] then [] else (if es[0].Feed? then [es[0].packet] else []) + Fed(es[1..])
  }

  /** How many packets smoltcp was ready to take in a run. */
  function Taken(es: seq<Event>): nat
    decreases |es|
  {
    if es == [] then 0 else (if es[0].Poll? then es[0].taken else 0) + Taken(es[1..])
  }

  /** What an event hands to the TUN writer. */
  function Popped(c: Core, e: Event): seq<Packet> {
    if e.Drain? && c.tunTx != [] then [c.tunTx[0]] else []
  }

  /** Everything drained in a run that starts in `c`. */
  function Drained(c: Core, es: seq<Event>): seq<Packet>
    requires Inv(c) && forall e <- es :: Possible(e)
    decreases |es|
  {
    if es == [] then []
    else
      StepKeeps(c, es[0]);
      Popped(c, es[0]) + Drained(Step(c, es[0]), es[1..])
  }

  lemma {:induction false} CrossersAppend(known: set<Flow>, a: seq<Packet>, b: seq<Packet>)
    ensures Crossers(known, a + b) == Crossers(known, a) + Crossers(KnownAfter(known, a), b)
    ensures KnownAfter(known, a + b) == KnownAfter(KnownAfter(known, a), b)
    decreases |a|
  {
    hide Passes, Learned;
    if a == [] {
      assert a + b == b;
    } else {
      assert (a + b)[1..] == a[1..] + b;
      NotLearned(known, a[0]);
      CrossersAppend(Learned(known, a[0]), a[1..], b);
    }
  }

  lemma NotLearned(known: set<Flow>, p: Packet)
    ensures !Passes(known, p) ==> Learned(known, p) == known
  {
  }

  /** Of the packets `ps` that a run had before it the first have been polled and the rest wait in the
      TUN queue. Those that should cross did, in order, and no more have left smoltcp's queue than
      smoltcp took. */
  ghost predicate Admitted(c: Core, ps: seq<Packet>, d: Core, taken: nat) {
    && |d.tunRx| <= |ps| && c.inLog <= d.inLog
    && var polled := |ps| - |d.tunRx|;
       && ps[polled..] == d.tunRx
       && Befores(d.inLog[|c.inLog|..]) == Crossers(c.table.forward.Keys, ps[..polled])
       && d.table.forward.Keys == KnownAfter(c.table.forward.Keys, ps[..polled])
       && |d.inLog| - |d.rx| <= |c.inLog| - |c.rx| + taken
  }

  lemma {:induction false} RunAdmits(c: Core, es: seq<Event>)
    requires Inv(c) && forall e <- es :: Possible(e)
    ensures Admitted(c, c.tunRx + Fed(es), Run(c, es), Taken(es))
    decreases |es|
  {
    hide Inv, Step, Possible, Crossers, KnownAfter, Admitted;
    if es == [] {
      NothingAdmitted(c);
    } else {
      var c1 := Step(c, es[0]);
      StepKeeps(c, es[0]);
      RunAdmits(c1, es[1..]);
      AdmittedStep(c, es[0], Fed(es[1..]), Run(c1, es[1..]), Taken(es[1..]));
    }
  }

  lemma NothingAdmitted(c: Core)
    ensures Admitted(c, c.tunRx + [], c, 0)
  {
    assert c.tunRx + [] == c.tunRx;
    assert c.tunRx[..0] == [];
  }

  lemma AdmittedStep(c: Core, e: Event, later: seq<Packet>, d: Core, taken: nat)
    requires Inv(c) && Possible(e)
    requires Admitted(Step(c, e), Step(c, e).tunRx + later, d, taken)
    ensures Admitted(c, c.tunRx + ((if e.Feed? then [e.packet] else []) + later), d,
                     (if e.Poll? then e.taken else 0) + taken)
  {
    hide Inv, Feedable, Emittable, AdmitAll, EmitAll, Crossers, KnownAfter;
    match e
    case Feed(p) => assert c.tunRx + ([p] + later) == c.tunRx + [p] + later;
    case Drain => assert c.tunRx + ([] + later) == c.tunRx + later;
    case Poll(n, emitted) => PollThenAdmitted(c, n, emitted, later, d, taken);
  }

  lemma PollThenAdmitted(c: Core, n: nat, emitted: seq<Packet>, later: seq<Packet>, d: Core, taken: nat)
    requires Inv(c) && forall p <- emitted :: Emittable(p)
    requires Admitted(Step(c, Poll(n, emitted)), Step(c, Poll(n, emitted)).tunRx + later, d, taken)
    ensures Admitted(c, c.tunRx + ([] + later), d, n + taken)
  {
    hide Inv, Step, Emittable, Admitted, Delivered;
    PollDelivers(c, n, emitted);
    PollDrains(c, n, emitted);
    assert [] + later == later;
    DeliveredThenAdmitted(c, n, Step(c, Poll(n, emitted)), later, d, taken);
  }

  lemma DeliveredThenAdmitted(c: Core, n: nat, c1: Core, later: seq<Packet>, d: Core, taken: nat)
    requires Delivered(c, c.tunRx, c1, n) && Admitted(c1, later, d, taken)
    ensures Admitted(c, c.tunRx + later, d, n + taken)
  {
    hide Crossers, KnownAfter, Routed, Befores, Afters;
    var k := |later| - |d.tunRx|;
    assert (c.tunRx + later)[|c.tunRx| + k..] == later[k..];
    assert (c.tunRx + later)[..|c.tunRx| + k] == c.tunRx + later[..k];
    CrossersAppend(c.table.forward.Keys, c.tunRx, later[..k]);
    LogsChain(c.inLog, c1.inLog, d.inLog);
  }

  /** Nothing is lost on the way in, over every run of a new stack: of everything ever fed the first
      packets have been polled and the rest wait, in order. Exactly those of the polled ones that
      should cross have crossed, in order. smoltcp's queue holds the last of them, and no more are gone
      than it took. */
  lemma NothingLostInbound(es: seq<Event>)
    requires forall e <- es :: Possible(e)
    ensures Inv(START)
    ensures var d := Run(START, es);
            && |d.tunRx| <= |Fed(es)|
            && var polled := |Fed(es)| - |d.tunRx|;
               && Fed(es)[polled..] == d.tunRx
               && Befores(d.inLog) == Crossers({}, Fed(es)[..polled])
               && d.table.forward.Keys == KnownAfter({}, Fed(es)[..polled])
               && |d.inLog| - |d.rx| <= Taken(es) && IsTail(d.rx, d.inLog)
  {
    hide Run, Crossers, KnownAfter, Possible, Routed, Returned, Valid, Feedable, Emittable, Befores;
    StartInv();
    RunAdmits(START, es);
    RunKeeps(START, es);
    var d := Run(START, es);
    assert [] + Fed(es) == Fed(es);
    assert d.inLog[0..] == d.inLog;
    assert START.table.forward.Keys == {};
  }

  /** Nothing is lost on the way out: what a run has drained, followed by what still waits, is what
      was waiting before followed by everything written since, in order. */
  lemma {:induction false} NothingLostOutbound(c: Core, es: seq<Event>)
    requires Inv(c) && forall e <- es :: Possible(e)
    ensures var d := Run(c, es);
            && c.outLog <= d.outLog
            && Drained(c, es) + d.tunTx == c.tunTx + Afters(d.outLog[|c.outLog|..])
    decreases |es|
  {
    hide Inv, Step, Possible, Afters;
    if es == [] {
      assert c.outLog[|c.outLog|..] == [];
      assert [] + c.tunTx == c.tunTx + [];
    } else {
      var c1 := Step(c, es[0]);
      StepKeeps(c, es[0]);
      NothingLostOutbound(c1, es[1..]);
      StepWrites(c, es[0]);
      var d := Run(c1, es[1..]);
      LogsChain(c.outLog, c1.outLog, d.outLog);
      QueueChain(Popped(c, es[0]), c1.tunTx, c.tunTx, Afters(c1.outLog[|c.outLog|..]),
                 Drained(c1, es[1..]), d.tunTx, Afters(d.outLog[|c1.outLog|..]));
    }
  }

  /** Two stretches of pops and pushes on a queue make one. */
  lemma QueueChain(x: seq<Packet>, t1: seq<Packet>, t0: seq<Packet>, a: seq<Packet>,
                   y: seq<Packet>, t2: seq<Packet>, b: seq<Packet>)
    requires x + t1 == t0 + a && y + t2 == t1 + b
    ensures x + y + t2 == t0 + (a + b)
  {
    Regroup(x, y, t2);
    Regroup(x, t1, b);
    Regroup(t0, a, b);
  }

  lemma StepWrites(c: Core, e: Event)
    requires Inv(c) && Possible(e)
    ensures var d := Step(c, e);
            && c.outLog <= d.outLog
            && Popped(c, e) + d.tunTx == c.tunTx + Afters(d.outLog[|c.outLog|..])
  {
    hide Inv, AdmitAll, EmitAll, Emittable;
    if e.Poll? {
      AdmitAllKeeps(c);
      AdmitAllDrains(c);
      EnvironmentKeeps(AdmitAll(c), e.taken, e.emitted);
      QueuedIsEmittable(Environment(AdmitAll(c), e.taken, e.emitted));
      EmitAllWrites(Environment(AdmitAll(c), e.taken, e.emitted));
    } else {
      assert c.outLog[|c.outLog|..] == [];
    }
  }

  /** The packets of `ps` that belong to a known flow, in order, each disguised as its remote. */
  function Forwarded(t: Table, ps: seq<Packet>): seq<Packet>
    requires forall p <- ps :: Emittable(p)
    decreases |ps|
  {
    if ps == [] then []
    else
      var v := OutboundSrcPort(ps[0]);
      (if v.Some? && v.value in t.reverse then [Disguised(ps[0], t.reverse[v.value].dst)] else [])
      + Forwarded(t, ps[1..])
  }

  /** A poll leaves nothing behind: the TUN queue and smoltcp's transmit queue are empty after it,
      and everything smoltcp sent that belongs to a known flow is in the output, in order. */
  lemma PollDrains(c: Core, taken: nat, emitted: seq<Packet>)
    requires Inv(c) && forall p <- emitted :: Emittable(p)
    ensures var d := Step(c, Poll(taken, emitted));
            && d.tunRx == [] && d.tx == []
            && Inv(AdmitAll(c)) && (forall p <- c.tx + emitted :: Emittable(p))
            && d.tunTx == c.tunTx + Forwarded(d.table, c.tx + emitted)
  {
    hide Inv, Admit, Emit, Emittable, Forwarded, EmitAll;
    AdmitAllKeeps(c);
    AdmitAllDrains(c);
    var c1 := AdmitAll(c);
    EnvironmentKeeps(c1, taken, emitted);
    QueuedIsEmittable(c);
    EmitAllForwards(Environment(c1, taken, emitted));
  }

  lemma {:induction false} AdmitAllDrains(c: Core)
    requires Inv(c)
    ensures AdmitAll(c).tunRx == [] && AdmitAll(c).tunTx == c.tunTx && AdmitAll(c).tx == c.tx
    ensures AdmitAll(c).outLog == c.outLog
    decreases |c.tunRx|
  {
    hide Routed, Returned, Feedable, Emittable, Valid, InsertFlow, Inbound;
    if c.tunRx != [] {
      var c0 := c.(tunRx := c.tunRx[1..]);
      AdmitKeeps(c0, c.tunRx[0]);
      AdmitAllDrains(Admit(c0, c.tunRx[0]));
    }
  }

  lemma {:induction false} EmitAllForwards(c: Core)
    requires forall p <- c.tx :: Emittable(p)
    ensures var d := EmitAll(c);
            && d.tx == [] && d.tunRx == c.tunRx && d.table == c.table
            && d.tunTx == c.tunTx + Forwarded(c.table, c.tx)
    decreases |c.tx|
  {
    hide Emittable, Disguised, OutboundSrcPort;
    if c.tx != [] {
      EmitAllForwards(Emit(c.(tx := c.tx[1..]), c.tx[0]));
    }
  }

  /** Demultiplexing: over a whole run two packets reach smoltcp on the same port exactly when
      they belong to the same flow, and that port leads back to the flow. */
  lemma Demultiplexing(c: Core, x: Crossing, y: Crossing)
    requires Reachable(c) && x in c.inLog && y in c.inLog
    ensures IsTcp4(x.before) && IsTcp4(x.after) && IsTcp4(y.before) && IsTcp4(y.after)
    ensures DstPort(x.after) in c.table.reverse && c.table.reverse[DstPort(x.after)] == FlowOf(x)
    ensures DstPort(x.after) == DstPort(y.after) <==> FlowOf(x) == FlowOf(y)
  {
    hide Inbound;
    ReachableInv(c);
    assert Routed(c.table, x) && Routed(c.table, y);
    InboundFrame(x.before, c.table.forward[FlowOf(x)]);
    InboundFrame(y.before, c.table.forward[FlowOf(y)]);
  }

  /** End-to-end transparency: once a packet S -> D has crossed inwards, then in every later
      state whatever smoltcp sends from its port to S is written to the TUN device as a packet
      D -> S with both checksums right and no byte changed outside the source and checksums. */
  lemma Transparency(c: Core, x: Crossing, es: seq<Event>, p: Packet)
    requires Reachable(c) && x in c.inLog && forall e <- es :: Possible(e)
    requires WellFormed(p) && IsTcp4(x.before) && IsTcp4(x.after)
    requires SrcPort(p) == DstPort(x.after)
    requires SocketAddr(V4(DstIp(p)), DstPort(p)) == FlowOf(x).src
    ensures Inv(c)
    ensures var d := Run(c, es);
            && |Emit(d, p).tunTx| == |d.tunTx| + 1
            && var out := Emit(d, p).tunTx[|d.tunTx|];
               && WellFormed(out) && ChecksumsHold(out) && |out| == |p|
               && ExtractTcpAddrs(out) == Some(Flow(FlowOf(x).dst, FlowOf(x).src))
               && (forall k | 0 <= k < |p| && !ChecksumByte(p, k)
                              && !(12 <= k < 16) && !(Ihl(p) <= k < Ihl(p) + 2) :: out[k] == p[k])
               && (U16At(p, 2) == |p| ==> Delimited(out) && ReceiverAccepts(out))
  {
    hide Inbound, Outbound, Stamped, Run, ChecksumsHold, Possible, ReceiverAccepts;
    ReachableInv(c);
    Demultiplexing(c, x, x);
    RunKeeps(c, es);
    var remote := FlowOf(x).dst;
    OutboundFrame(p, remote.ip.v4, remote.port);
    OutboundChecksumsHold(p, remote.ip.v4, remote.port);
    if U16At(p, 2) == |p| { OutboundAcceptedIff(p, remote.ip.v4, remote.port); }
  }

  /** The same for the traffic of a run as it was logged: whatever left from a flow's port to the
      flow's source was written as a packet from the flow's remote. */
  lemma LoggedTransparency(c: Core, x: Crossing, y: Crossing)
    requires Reachable(c) && x in c.inLog && y in c.outLog
    requires IsTcp4(x.before) && IsTcp4(x.after) && IsTcp4(y.before)
    requires SrcPort(y.before) == DstPort(x.after)
    requires SocketAddr(V4(DstIp(y.before)), DstPort(y.before)) == FlowOf(x).src
    ensures WellFormed(y.after) && ChecksumsHold(y.after)
    ensures ExtractTcpAddrs(y.after) == Some(Flow(FlowOf(x).dst, FlowOf(x).src))
  {
    hide Inbound, Outbound, Stamped, ChecksumsHold;
    ReachableInv(c);
    Demultiplexing(c, x, x);
    assert Returned(c.table, y);
    var remote := FlowOf(x).dst;
    OutboundFrame(y.before, remote.ip.v4, remote.port);
    OutboundChecksumsHold(y.before, remote.ip.v4, remote.port);
  }

  /** The drain loop tests less than the rewrite: an emitted packet is written exactly when it is
      IPv4/TCP, has a port pair and comes from a port in use, and it is then disguised as that flow's
      remote exactly when a whole TCP header is there; otherwise it goes out as smoltcp left it. */
  lemma DisguisedIff(c: Core, p: Packet)
    requires Inv(c) && Emittable(p)
    ensures if |p| >= 20 && p[0] / 16 == 4 && p[9] == 6 && |p| >= Ihl(p) + 4 && U16At(p, Ihl(p)) in c.table.reverse
            then
              var remote := c.table.reverse[U16At(p, Ihl(p))].dst;
              && Emit(c, p).tunTx[..|c.tunTx|] == c.tunTx && |Emit(c, p).tunTx| == |c.tunTx| + 1
              && var out := Emit(c, p).tunTx[|c.tunTx|];
                 && out == Disguised(p, remote)
                 && (ExtractTcpAddrs(out).Some? <==> |p| >= Ihl(p) + 20)
                 && (ExtractTcpAddrs(out).Some? ==> ExtractTcpAddrs(out).value.src == remote)
                 && (|p| < Ihl(p) + 20 ==> out == p)
            else Emit(c, p) == c
  {
    hide Outbound, Stamped;
    if IsTcp4(p) && U16At(p, Ihl(p)) in c.table.reverse {
      var remote := c.table.reverse[U16At(p, Ihl(p))].dst;
      OutboundFrame(p, remote.ip.v4, remote.port);
    }
  }

  /** No release on close: once 50,000 flows have been seen the table never changes again, and
      only those flows ever reach smoltcp, however many connections have closed since. */
  lemma {:induction false} ExhaustionIsPermanent(c: Core, es: seq<Event>)
    requires Inv(c) && |c.table.forward| == 50_000 && forall e <- es :: Possible(e)
    ensures Run(c, es).table == c.table
    ensures forall x <- Run(c, es).inLog :: IsTcp4(x.before) && FlowOf(x) in c.table.forward
  {
    hide Run, Possible, Inbound;
    RunKeeps(c, es);
    var d := Run(c, es);
    FullIffCapacity(c.table);
    FullTableIsFixed(c, es);
    forall x <- d.inLog ensures IsTcp4(x.before) && FlowOf(x) in c.table.forward {
      assert Routed(d.table, x);
    }
  }

  lemma {:induction false} FullTableIsFixed(c: Core, es: seq<Event>)
    requires Inv(c) && Full(c.table) && forall e <- es :: Possible(e)
    ensures Run(c, es).table == c.table
    decreases |es|
  {
    hide Inv, Step, Possible, Full;
    if es != [] {
      StepKeeps(c, es[0]);
      FullStep(c, es[0]);
      FullTableIsFixed(Step(c, es[0]), es[1..]);
    }
  }

  lemma FullStep(c: Core, e: Event)
    requires Inv(c) && Full(c.table) && Possible(e)
    ensures Step(c, e).table == c.table
  {
    hide Inv, Admit, Emit, Emittable, Full;
    if e.Poll? {
      AdmitAllKeeps(c);
      FullAdmitAll(c);
      EnvironmentKeeps(AdmitAll(c), e.taken, e.emitted);
      QueuedIsEmittable(Environment(AdmitAll(c), e.taken, e.emitted));
      EmitAllKeepsTable(Environment(AdmitAll(c), e.taken, e.emitted));
    }
  }

  lemma QueuedIsEmittable(c: Core)
    requires Inv(c)
    ensures forall p <- c.tx :: Emittable(p)
  {
  }

  lemma {:induction false} FullAdmitAll(c: Core)
    requires Inv(c) && Full(c.table)
    ensures AdmitAll(c).table == c.table
    decreases |c.tunRx|
  {
    hide Routed, Returned, Admit, Feedable, Emittable, Valid, Full;
    if c.tunRx != [] {
      var c0 := c.(tunRx := c.tunRx[1..]);
      AdmitKeeps(c0, c.tunRx[0]);
      FullAdmit(c0, c.tunRx[0]);
      FullAdmitAll(Admit(c0, c.tunRx[0]));
    }
  }

  lemma FullAdmit(c: Core, raw: Packet)
    requires Inv(c) && Full(c.table) && Feedable(raw)
    ensures Admit(c, raw).table == c.table
  {
    hide InsertFlow, Inbound;
    if IsTcp4(raw) { InsertRefines(c.table, ExtractTcpAddrs(raw).value); }
  }

  lemma {:induction false} EmitAllKeepsTable(c: Core)
    requires forall p <- c.tx :: Emittable(p)
    ensures EmitAll(c).table == c.table
    decreases |c.tx|
  {
    hide Emittable, Emit;
    if c.tx != [] { EmitAllKeepsTable(Emit(c.(tx := c.tx[1..]), c.tx[0])); }
  }

  // ---------------------------------------------------------------- exhaustion is reached

  /** Feed the packets one by one, with a poll after each. */
  function Feeding(ps: seq<Packet>): seq<Event>
    decreases |ps|
  {
    if ps == [] then [] else Feeding(ps[..|ps| - 1]) + [Feed(ps[|ps| - 1]), Poll(0, [])]
  }

  /** SYNs of pairwise different flows. */
  predicate DistinctSyns(ps: seq<Packet>) {
    && (forall p <- ps :: Feedable(p) && IsTcp4(p) && IsTcpSyn(p))
    && forall i, j :: 0 <= i < j < |ps| ==> ExtractTcpAddrs(ps[i]) != ExtractTcpAddrs(ps[j])
  }

  lemma {:induction false} FeedingIsPossible(ps: seq<Packet>)
    requires forall p <- ps :: Feedable(p)
    ensures forall e <- Feeding(ps) :: Possible(e)
    decreases |ps|
  {
    hide Feedable;
    if ps != [] {
      FeedingIsPossible(ps[..|ps| - 1]);
      assert ps[|ps| - 1] in ps;
    }
  }

  lemma {:induction false} RunAppend(c: Core, a: seq<Event>, b: seq<Event>)
    requires Inv(c) && (forall e <- a :: Possible(e)) && (forall e <- b :: Possible(e))
    ensures (forall e <- a + b :: Possible(e)) && Inv(Run(c, a))
    ensures Run(c, a + b) == Run(Run(c, a), b)
    decreases |a|
  {
    hide Inv, Step, Possible;
    RunKeeps(c, a);
    if a == [] {
      assert a + b == b;
    } else {
      StepKeeps(c, a[0]);
      assert (a + b)[1..] == a[1..] + b;
      RunAppend(Step(c, a[0]), a[1..], b);
    }
  }

  /** One SYN of a new flow, fed and polled, adds that flow and nothing else. */
  lemma FeedOne(c: Core, p: Packet)
    requires Inv(c) && c.tunRx == [] && c.tx == [] && Feedable(p) && IsTcp4(p) && IsTcpSyn(p)
    requires ExtractTcpAddrs(p).value !in c.table.forward && !Full(c.table)
    ensures Possible(Feed(p)) && Possible(Poll(0, []))
    ensures var es := [Feed(p), Poll(0, [])];
            var d := Run(c, es);
            d.tunRx == [] && d.tx == [] && d.table.forward.Keys == c.table.forward.Keys + {ExtractTcpAddrs(p).value}
  {
    hide Inv, Admit, Emit, Feedable, Full;
    var es := [Feed(p), Poll(0, [])];
    var c1 := Step(c, es[0]);
    StepKeeps(c, es[0]);
    assert es[1..] == [Poll(0, [])] && es[1..][1..] == [];
    assert c1.(tunRx := c1.tunRx[1..]) == c && c1.tunRx[0] == p;
    AdmitAddsFlow(c, p);
    var c2 := Admit(c, p);
    assert AdmitAll(c1) == c2;
    StepKeeps(c1, es[1]);
    assert Environment(c2, 0, []) == c2;
    assert Step(c1, es[1]) == c2;
    assert Run(Step(c1, es[1]), []) == c2;
  }

  lemma AdmitAddsFlow(c: Core, p: Packet)
    requires Inv(c) && Feedable(p) && IsTcp4(p) && IsTcpSyn(p)
    requires ExtractTcpAddrs(p).value !in c.table.forward && !Full(c.table)
    ensures Inv(Admit(c, p))
    ensures Admit(c, p).table.forward.Keys == c.table.forward.Keys + {ExtractTcpAddrs(p).value}
    ensures Admit(c, p).tunRx == c.tunRx && Admit(c, p).tx == c.tx
  {
    hide InsertFlow, Inbound, Full;
    AdmitKeeps(c, p);
    InsertRefines(c.table, ExtractTcpAddrs(p).value);
  }

  predicate AllTcp4(ps: seq<Packet>) { forall k :: 0 <= k < |ps| ==> IsTcp4(ps[k]) }

  function Flows(ps: seq<Packet>): set<Flow>
    requires AllTcp4(ps)
    decreases |ps|
  {
    if ps == [] then {}
    else Flows(ps[..|ps| - 1]) + {ExtractTcpAddrs(ps[|ps| - 1]).value}
  }

  lemma {:induction false} NotAmongFlows(ps: seq<Packet>, f: Flow)
    requires AllTcp4(ps) && forall k :: 0 <= k < |ps| ==> ExtractTcpAddrs(ps[k]) != Some(f)
    ensures f !in Flows(ps)
    decreases |ps|
  {
    hide IsTcp4, ExtractTcpAddrs;
    if ps != [] {
      assert ExtractTcpAddrs(ps[|ps| - 1]) != Some(f);
      SomeFlow(ps[|ps| - 1]);
      NotAmongFlows(ps[..|ps| - 1], f);
    }
  }

  lemma SomeFlow(p: Packet)
    requires IsTcp4(p)
    ensures ExtractTcpAddrs(p) == Some(ExtractTcpAddrs(p).value)
  {
  }

  /** Any SYNs of different flows, up to 50,000, are all in the table when they have been fed, and
      nothing else is. */
  lemma {:induction false} DistinctSynsFill(ps: seq<Packet>)
    requires DistinctSyns(ps) && AllTcp4(ps) && |ps| <= PORT_RANGE
    ensures Inv(START) && forall e <- Feeding(ps) :: Possible(e)
    ensures var d := Run(START, Feeding(ps));
            d.tunRx == [] && d.tx == [] && d.table.forward.Keys == Flows(ps) && |Flows(ps)| == |ps|
    decreases |ps|
  {
    hide Feedable, Valid, Full, Run, Inv, IsTcpSyn, IsTcp4, ExtractTcpAddrs, Possible;
    StartInv();
    assert forall p <- ps :: Feedable(p);
    FeedingIsPossible(ps);
    if ps == [] {
      RunNothing(START);
    } else {
      var n := |ps| - 1;
      var init, p := ps[..n], ps[n];
      DistinctSynsFill(init);
      assert p in ps && init + [p] == ps;
      NewFlow(init, p);
      RunKeeps(START, Feeding(init));
      HasRoom(Run(START, Feeding(init)), |init|);
      FeedLast(Feeding(init), p);
    }
  }

  lemma NewFlow(init: seq<Packet>, p: Packet)
    requires DistinctSyns(init + [p]) && AllTcp4(init) && IsTcp4(p)
    ensures ExtractTcpAddrs(p).value !in Flows(init)
  {
    hide Feedable, IsTcpSyn, IsTcp4, ExtractTcpAddrs, Flows;
    SomeFlow(p);
    var ps, f := init + [p], ExtractTcpAddrs(p).value;
    forall k | 0 <= k < |init| ensures ExtractTcpAddrs(init[k]) != Some(f) {
      assert ExtractTcpAddrs(ps[k]) != ExtractTcpAddrs(ps[|init|]);
    }
    NotAmongFlows(init, f);
  }

  lemma HasRoom(c: Core, n: nat)
    requires Inv(c) && |c.table.forward.Keys| == n < PORT_RANGE
    ensures !Full(c.table)
  {
    hide Full;
    FullIffCapacity(c.table);
  }

  lemma FeedLast(a: seq<Event>, p: Packet)
    requires Inv(START) && forall e <- a :: Possible(e)
    requires Run(START, a).tunRx == [] && Run(START, a).tx == [] && !Full(Run(START, a).table)
    requires Feedable(p) && IsTcp4(p) && IsTcpSyn(p)
    requires ExtractTcpAddrs(p).value !in Run(START, a).table.forward
    ensures forall e <- a + [Feed(p), Poll(0, [])] :: Possible(e)
    ensures var d := Run(START, a + [Feed(p), Poll(0, [])]);
            && d.tunRx == [] && d.tx == []
            && d.table.forward.Keys == Run(START, a).table.forward.Keys + {ExtractTcpAddrs(p).value}
  {
    hide Feedable, Full, Run, Inv, IsTcpSyn, IsTcp4, ExtractTcpAddrs, Possible;
    var c := Run(START, a);
    RunKeeps(START, a);
    FeedOne(c, p);
    RunAppend(START, a, [Feed(p), Poll(0, [])]);
  }

  lemma RunNothing(c: Core)
    requires Inv(c)
    ensures Run(c, []) == c
  {
  }

  /** One SYN from each of 50,000 source ports. */
  function PortSweep(n: nat): (ps: seq<Packet>)
    requires n <= PORT_RANGE
    ensures |ps| == n && forall i :: 0 <= i < n ==> ps[i] == SynPacket(i)
  {
    seq(n, i requires 0 <= i < n => SynPacket(i))
  }

  /** One client talking to one server from 50,000 ports in turn exhausts the table for good. */
  lemma ExhaustionIsReached()
    ensures Inv(START) && forall e <- Feeding(PortSweep(PORT_RANGE)) :: Possible(e)
    ensures |Run(START, Feeding(PortSweep(PORT_RANGE))).table.forward| == 50_000
  {
    hide Inv, Run, SynPacket, Feeding, FedToStack;
    var ps := PortSweep(PORT_RANGE);
    forall i | 0 <= i < |ps|
      ensures Feedable(ps[i]) && IsTcp4(ps[i]) && IsTcpSyn(ps[i])
      ensures ExtractTcpAddrs(ps[i]).value.src.port == i
    {
      SynPacketIs(i);
    }
    DistinctSynsFill(ps);
    assert |Run(START, Feeding(ps)).table.forward.Keys| == |ps|;
  }
}
