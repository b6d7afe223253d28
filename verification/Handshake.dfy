/** The SOCKS5 handshake as two processes and two byte streams (client.rs, server.rs).

    A read waits until its bytes are there, or fails when the other side has gone. Either side
    may run at any time, and each may relay data as soon as its own half of the handshake
    is over, so the streams can hold relayed data before the other side is ready for it. */
module Handshake {
  import opened Bytes
  import opened Socks

  const GREETING: seq<byte> := [5, 1, NO_AUTH]

  function ConnectRequest(target: Addr, port: u16): seq<byte> {
    [5, 1, 0] + EncodeAddress(target, port)
  }

  /** The rest of a reply after its four-byte header. */
  function BoundBytes(bound: SocketAddr): seq<byte> {
    EncodeAddress(AddrOf(bound.ip), bound.port)[1..]
  }

  const ZERO := SocketAddr(V4([0, 0, 0, 0]), 0)

  datatype ClientAt =
    | Greet
    | AwaitMethod
    | AwaitReply
    | AwaitBound(atyp: byte)
    | ClientRelay
    | ClientFailed(error: SocksError)

  datatype ServerAt =
    | AwaitGreeting
    | AwaitRequest
    | Dialing(request: Request)
    | ServerRelay(request: Request, bound: SocketAddr)
    | Refused(request: Request, rep: byte)
    | Dropped

  /** What the operating system says of a connection that could not be made. */
  datatype Cause = ConnectionRefused | TimedOut | OtherCause

  /** The reply code for it (section 6 of RFC 1928). */
  function Rep(cause: Cause): byte {
    match cause
    case ConnectionRefused => 5
    case TimedOut => 6
    case OtherCause => 4
  }

  /** How dialing the target ends: connected, not connected, or given up before, as when the name
      does not resolve. */
  datatype Dial = Reached(local: SocketAddr) | Rejected(cause: Cause) | GivenUp(error: SocksError)

  /** `up` and `down` are bytes in flight. The other sequences are history: everything each side ever
      wrote, what it gave the relay to send, and what the relay on each side has received. */
  datatype Net = Net(
    client: ClientAt, server: ServerAt, up: seq<byte>, down: seq<byte>,
    wroteUp: seq<byte>, wroteDown: seq<byte>,
    clientSent: seq<byte>, serverSent: seq<byte>, clientGot: seq<byte>, serverGot: seq<byte>)

  const START := Net(Greet, AwaitGreeting, [], [], [], [], [], [], [], [])

  function ClientWrites(n: Net, data: seq<byte>): Net {
    n.(up := n.up + data, wroteUp := n.wroteUp + data)
  }

  function ServerWrites(n: Net, data: seq<byte>): Net {
    n.(down := n.down + data, wroteDown := n.wroteDown + data)
  }

  datatype Action =
    | ClientMove
    | ServerMove
    | ServerDials(outcome: Dial)
    | ClientSends(data: seq<byte>)
    | ServerSends(data: seq<byte>)
    | ClientReads(n: nat)
    | ServerReads(n: nat)

  predicate ServerGone(n: Net) { n.server.Refused? || n.server.Dropped? }

  /** `SocksClient::connect`, one blocking read at a time. */
  function ClientStep(n: Net, target: Addr, port: u16): Option<Net> {
    match n.client
    case Greet => Some(ClientWrites(n.(client := AwaitMethod), GREETING))
    case AwaitMethod =>
      if |n.down| < 2 then Starved(n)
      else if n.down[0] != 5 then Some(n.(client := ClientFailed(InvalidVersion(n.down[0])), down := n.down[2..]))
      else if n.down[1] != NO_AUTH then Some(n.(client := ClientFailed(AuthRejected), down := n.down[2..]))
      else Some(ClientWrites(n.(client := AwaitReply, down := n.down[2..]), ConnectRequest(target, port)))
    case AwaitReply =>
      if |n.down| < 4 then Starved(n)
      else if n.down[1] != 0 then Some(n.(client := ClientFailed(ServerReply(n.down[1])), down := n.down[4..]))
      else Some(n.(client := AwaitBound(n.down[3]), down := n.down[4..]))
    case AwaitBound(atyp) =>
      (match BoundLength(n.down, atyp)
       case Fail(_) => Starved(n)
       case Parsed(_, used) => Some(n.(client := ClientRelay, down := n.down[used..])))
    case _ => None
  }

  /** A read without enough bytes: end of file if the server is gone, otherwise it waits. */
  function Starved(n: Net): Option<Net> {
    if ServerGone(n) then Some(n.(client := ClientFailed(PrematureEof))) else None
  }

  /** `handle_connection` up to the request; the server here never sees the client leave. */
  function ServerStep(n: Net, auth: bool): Option<Net> {
    match n.server
    case AwaitGreeting =>
      (match ParseGreeting(n.up, auth)
       case Parsed(m, used) => Some(ServerWrites(n.(server := AwaitRequest, up := n.up[used..]), [VERSION, m]))
       case Fail(e) =>
         if e.PrematureEof? then None
         else if e.NoAcceptableMethod? then Some(ServerWrites(n.(server := Dropped), [VERSION, NONE_ACCEPTABLE]))
         else Some(n.(server := Dropped)))
    case AwaitRequest =>
      (match ParseRequest(n.up)
       case Parsed(q, used) => Some(n.(server := Dialing(q), up := n.up[used..]))
       case Fail(e) => if e.PrematureEof? then None else Some(n.(server := Dropped)))
    case _ => None
  }

  /** `handle_connect`, and the refusal of BIND; this client never asks for a UDP association. */
  function DialStep(n: Net, outcome: Dial): Option<Net> {
    if !n.server.Dialing? || n.server.request.cmd.UdpAssociate? then None
    else
      var q := n.server.request;
      if q.cmd.Bind? then Some(ServerWrites(n.(server := Refused(q, 7)), EncodeReply(7, ZERO)))
      else
        match outcome
        case Reached(local) => Some(ServerWrites(n.(server := ServerRelay(q, local)), EncodeReply(0, local)))
        case Rejected(cause) =>
          Some(ServerWrites(n.(server := Refused(q, Rep(cause))), EncodeReply(Rep(cause), ZERO)))
        case GivenUp(_) => Some(n.(server := Dropped))
  }

  function Do(n: Net, a: Action, target: Addr, port: u16, auth: bool): Option<Net> {
    match a
    case ClientMove => ClientStep(n, target, port)
    case ServerMove => ServerStep(n, auth)
    case ServerDials(outcome) => DialStep(n, outcome)
    case ClientSends(d) =>
      if n.client.ClientRelay? then Some(ClientWrites(n, d).(clientSent := n.clientSent + d)) else None
    case ServerSends(d) =>
      if n.server.ServerRelay? then Some(ServerWrites(n, d).(serverSent := n.serverSent + d)) else None
    case ClientReads(k) =>
      if n.client.ClientRelay? && k <= |n.down|
      then Some(n.(down := n.down[k..], clientGot := n.clientGot + n.down[..k])) else None
    case ServerReads(k) =>
      if n.server.ServerRelay? && k <= |n.up|
      then Some(n.(up := n.up[k..], serverGot := n.serverGot + n.up[..k])) else None
  }

  function Run(n: Net, actions: seq<Action>, target: Addr, port: u16, auth: bool): Option<Net>
    decreases |actions|
  {
    if actions == [] then Some(n)
    else
      match Do(n, actions[0], target, port, auth)
      case None => None
      case Some(m) => Run(m, actions[1..], target, port, auth)
  }

  // ---------------------------------------------------------------- invariant

  /** What is in flight for every pair of positions the two sides can be in at once. */
  predicate Inv(n: Net, target: Addr, port: u16) {
    var q := Request(Connect, target, port);
    && (n.client != ClientRelay ==> n.clientSent == [] && n.clientGot == [])
    && (!n.server.ServerRelay? ==> n.serverSent == [] && n.serverGot == [])
    && match n.server
       case AwaitGreeting =>
         && n.down == []
         && ((n.client == Greet && n.up == []) || (n.client == AwaitMethod && n.up == GREETING))
       case AwaitRequest =>
         || (n.client == AwaitMethod && n.up == [] && n.down == [VERSION, NO_AUTH])
         || (n.client == AwaitReply && n.up == ConnectRequest(target, port) && n.down == [])
       case Dialing(r) => r == q && n.client == AwaitReply && n.up == [] && n.down == []
       case Refused(r, rep) =>
         && r == q && rep in {4, 5, 6} && n.up == []
         && ((n.client == AwaitReply && n.down == EncodeReply(rep, ZERO))
             || (n.client == ClientFailed(ServerReply(rep))))
       case Dropped =>
         n.up == [] && n.down == [] && (n.client == AwaitReply || n.client == ClientFailed(PrematureEof))
       case ServerRelay(r, bound) =>
         && r == q
         && n.serverGot + n.up == n.clientSent
         && ((n.client == AwaitReply && n.down == EncodeReply(0, bound) + n.serverSent)
             || (n.client == AwaitBound(EncodeReply(0, bound)[3]) && n.down == BoundBytes(bound) + n.serverSent)
             || (n.client == ClientRelay && n.clientGot + n.down == n.serverSent))
  }

  /** The server recovers the client's request, and stops right behind it, exactly when the
      target's name fits its length byte. */
  lemma RequestRecoveredIff(target: Addr, port: u16, rest: seq<byte>)
    ensures var s := ConnectRequest(target, port);
            ParseRequest(s + rest) == Parsed(Request(Connect, target, port), |s|) <==> Encodable(target)
  {
    hide EncodeAddress, DecodeAddress;
    var s := ConnectRequest(target, port);
    assert (s + rest)[3..] == EncodeAddress(target, port) + rest;
    DecodeInvertsEncodeIff(target, port, rest);
    AddressIsNotEmpty(target, port);
  }

  lemma RequestParses(target: Addr, port: u16)
    requires Encodable(target)
    ensures var s := ConnectRequest(target, port);
            ParseRequest(s) == Parsed(Request(Connect, target, port), |s|)
  {
    RequestRecoveredIff(target, port, []);
    assert ConnectRequest(target, port) + [] == ConnectRequest(target, port);
  }

  lemma AddressIsNotEmpty(a: Addr, port: u16)
    ensures |EncodeAddress(a, port)| >= 4
  {
  }

  lemma ReplySplits(rep: byte, bound: SocketAddr, rest: seq<byte>)
    ensures var r := EncodeReply(rep, bound);
            && |r| >= 4 && r[1] == rep && (r + rest)[..4] == r[..4] && (r + rest)[4..] == BoundBytes(bound) + rest
            && BoundLength(BoundBytes(bound) + rest, r[3]) == Parsed((), |BoundBytes(bound)|)
            && (BoundBytes(bound) + rest)[|BoundBytes(bound)|..] == rest
  {
  }

  lemma ClientStepKeeps(n: Net, target: Addr, port: u16)
    requires Inv(n, target, port) && ClientStep(n, target, port).Some?
    ensures Inv(ClientStep(n, target, port).value, target, port)
  {
    hide Inv, ClientStep;
    match n.server
    case ServerRelay(_, _) => ClientStepInRelay(n, target, port);
    case Refused(_, _) => ClientStepWhenRefused(n, target, port);
    case _ => ClientStepBeforeReply(n, target, port);
  }

  lemma ClientStepWhenRefused(n: Net, target: Addr, port: u16)
    requires Inv(n, target, port) && n.server.Refused? && ClientStep(n, target, port).Some?
    ensures Inv(ClientStep(n, target, port).value, target, port)
  {
    hide EncodeReply, BoundLength, ConnectRequest, BoundBytes;
    ReplySplits(n.server.rep, ZERO, []);
  }

  lemma ClientStepBeforeReply(n: Net, target: Addr, port: u16)
    requires Inv(n, target, port) && !n.server.Refused? && !n.server.ServerRelay?
    requires ClientStep(n, target, port).Some?
    ensures Inv(ClientStep(n, target, port).value, target, port)
  {
    hide EncodeReply, BoundLength, ConnectRequest, BoundBytes;
  }

  lemma ClientStepInRelay(n: Net, target: Addr, port: u16)
    requires Inv(n, target, port) && n.server.ServerRelay? && ClientStep(n, target, port).Some?
    ensures Inv(ClientStep(n, target, port).value, target, port)
  {
    hide EncodeReply, BoundLength, ConnectRequest, BoundBytes;
    var r, d := EncodeReply(0, n.server.bound), n.serverSent;
    ReplySplits(0, n.server.bound, d);
    match n.client
    case AwaitReply =>
      assert n.down == r + d;
      assert n.down[1] == r[1] && n.down[3] == r[3];
      assert n.down[4..] == BoundBytes(n.server.bound) + d;
    case AwaitBound(_) =>
      assert [] + n.down[|BoundBytes(n.server.bound)|..] == d;
    case _ =>
  }

  lemma GreetingParses(auth: bool)
    ensures ParseGreeting(GREETING, auth) == Parsed(NO_AUTH, 3)
  {
    assert NO_AUTH in GREETING[2..3] by { assert GREETING[2..3][0] == NO_AUTH; }
  }

  lemma ServerStepKeeps(n: Net, target: Addr, port: u16, auth: bool)
    requires Encodable(target) && Inv(n, target, port) && ServerStep(n, auth).Some?
    ensures Inv(ServerStep(n, auth).value, target, port)
  {
    hide EncodeReply, ConnectRequest, ParseRequest, ParseGreeting, BoundBytes;
    RequestParses(target, port);
    GreetingParses(auth);
    NothingParses(auth);
  }

  lemma NothingParses(auth: bool)
    ensures ParseGreeting([], auth) == Fail(PrematureEof) && ParseRequest([]) == Fail(PrematureEof)
  {
  }

  lemma DialKeeps(n: Net, outcome: Dial, target: Addr, port: u16)
    requires Inv(n, target, port) && DialStep(n, outcome).Some?
    ensures Inv(DialStep(n, outcome).value, target, port)
  {
    hide EncodeReply, ConnectRequest, BoundBytes;
  }

  lemma RelayKeeps(n: Net, a: Action, target: Addr, port: u16, auth: bool)
    requires !a.ClientMove? && !a.ServerMove? && !a.ServerDials?
    requires Inv(n, target, port) && Do(n, a, target, port, auth).Some?
    ensures Inv(Do(n, a, target, port, auth).value, target, port)
  {
    hide EncodeReply, ConnectRequest, BoundBytes, ClientStep, ServerStep, DialStep;
    match a
    case ClientSends(d) => Shift(n.serverGot, n.up, d);
    case ServerSends(d) =>
      Shift(n.clientGot, n.down, d);
      Shift(EncodeReply(0, n.server.bound), n.serverSent, d);
      Shift(BoundBytes(n.server.bound), n.serverSent, d);
    case ClientReads(k) => Rejoin(n.clientGot, n.down, k);
    case ServerReads(k) => Rejoin(n.serverGot, n.up, k);
  }

  lemma Shift(a: seq<byte>, b: seq<byte>, c: seq<byte>)
    ensures a + (b + c) == a + b + c
  {
  }

  lemma Rejoin(a: seq<byte>, b: seq<byte>, k: nat)
    requires k <= |b|
    ensures a + b[..k] + b[k..] == a + b
  {
  }

  lemma DoKeeps(n: Net, a: Action, target: Addr, port: u16, auth: bool)
    requires Encodable(target) && Inv(n, target, port) && Do(n, a, target, port, auth).Some?
    ensures Inv(Do(n, a, target, port, auth).value, target, port)
  {
    hide Inv, ClientStep, ServerStep, DialStep;
    match a
    case ClientMove => ClientStepKeeps(n, target, port);
    case ServerMove => ServerStepKeeps(n, target, port, auth);
    case ServerDials(outcome) => DialKeeps(n, outcome, target, port);
    case _ => RelayKeeps(n, a, target, port, auth);
  }

  lemma {:induction false} RunKeeps(n: Net, actions: seq<Action>, target: Addr, port: u16, auth: bool)
    requires Encodable(target) && Inv(n, target, port)
    ensures var r := Run(n, actions, target, port, auth); r.Some? ==> Inv(r.value, target, port)
    decreases |actions|
  {
    hide Inv, Do;
    if actions != [] && Do(n, actions[0], target, port, auth).Some? {
      DoKeeps(n, actions[0], target, port, auth);
      RunKeeps(Do(n, actions[0], target, port, auth).value, actions[1..], target, port, auth);
    }
  }

  // ---------------------------------------------------------------- theorems

  /** In every interleaving, whatever the server's authentication setting: the server only ever
      dials the client's own target; once both sides relay, what the server's relay has read plus
      what is in flight is exactly what the client's relay sent, and the other way round, so both
      streams stood at the first byte of relayed data; and the client fails only with the
      server's own refusal or because the server dropped the connection. */
  lemma HandshakeAgreement(actions: seq<Action>, target: Addr, port: u16, auth: bool)
    requires Encodable(target) && Run(START, actions, target, port, auth).Some?
    ensures var n := Run(START, actions, target, port, auth).value;
            && (n.server.Dialing? || n.server.ServerRelay? || n.server.Refused? ==>
                  n.server.request == Request(Connect, target, port))
            && (n.client.ClientRelay? ==>
                  && n.server.ServerRelay?
                  && n.serverGot + n.up == n.clientSent && n.clientGot + n.down == n.serverSent)
            && (n.client.ClientFailed? ==>
                  || (n.server.Refused? && n.client.error == ServerReply(n.server.rep))
                  || (n.server.Dropped? && n.client.error == PrematureEof))
  {
    hide Run, EncodeReply, ConnectRequest, BoundBytes;
    RunKeeps(START, actions, target, port, auth);
  }

  predicate Settled(n: Net) {
    n.client.ClientFailed? || (n.client.ClientRelay? && n.server.ServerRelay?)
  }

  /** How many handshake moves are still to come at most. */
  function Remaining(n: Net): nat {
    (match n.client
     case Greet => 4 case AwaitMethod => 3 case AwaitReply => 2 case AwaitBound(_) => 1 case _ => 0)
    + (match n.server case AwaitGreeting => 3 case AwaitRequest => 2 case Dialing(_) => 1 case _ => 0)
  }

  /** No deadlock: until both sides relay or the client has failed, one of them can move, however
      the dialing ends. */
  lemma SomeoneCanMove(n: Net, target: Addr, port: u16, auth: bool, outcome: Dial)
    requires Encodable(target) && Inv(n, target, port) && !Settled(n)
    ensures || Do(n, ClientMove, target, port, auth).Some?
            || Do(n, ServerMove, target, port, auth).Some?
            || Do(n, ServerDials(outcome), target, port, auth).Some?
  {
    hide EncodeReply, ConnectRequest, ParseRequest, ParseGreeting, BoundBytes, BoundLength;
    RequestParses(target, port);
    GreetingParses(auth);
    match n.server
    case ServerRelay(_, bound) => ReplySplits(0, bound, n.serverSent);
    case Refused(_, rep) => ReplySplits(rep, ZERO, []);
    case _ =>
  }

  predicate IsMove(a: Action) { a.ClientMove? || a.ServerMove? || a.ServerDials? }

  function Moves(actions: seq<Action>): nat
    decreases |actions|
  {
    if actions == [] then 0 else (if IsMove(actions[0]) then 1 else 0) + Moves(actions[1..])
  }

  lemma MovesMakeProgress(n: Net, a: Action, target: Addr, port: u16, auth: bool)
    requires Do(n, a, target, port, auth).Some?
    ensures var m := Do(n, a, target, port, auth).value;
            if IsMove(a) then Remaining(m) < Remaining(n) else Remaining(m) == Remaining(n)
  {
    hide EncodeReply, ConnectRequest, BoundLength, ParseRequest, ParseGreeting;
    match a
    case ClientMove => ClientMakesProgress(n, target, port);
    case _ =>
  }

  lemma ClientMakesProgress(n: Net, target: Addr, port: u16)
    requires ClientStep(n, target, port).Some?
    ensures Remaining(ClientStep(n, target, port).value) < Remaining(n)
  {
    hide ConnectRequest, BoundLength;
  }

  /** Termination: no run makes more than seven handshake moves, relaying never puts the end off,
      and with the lemma above a run that stops early and is not settled can be continued. */
  lemma {:induction false} AtMostSevenMoves(n: Net, actions: seq<Action>, target: Addr, port: u16, auth: bool)
    requires Run(n, actions, target, port, auth).Some?
    ensures Moves(actions) + Remaining(Run(n, actions, target, port, auth).value) <= Remaining(n) <= 7
    decreases |actions|
  {
    hide Do;
    if actions != [] {
      MovesMakeProgress(n, actions[0], target, port, auth);
      AtMostSevenMoves(Do(n, actions[0], target, port, auth).value, actions[1..], target, port, auth);
    }
  }

  // ---------------------------------------------------------------- the code

  /** What `connect` makes of everything the server sends. */
  function ClientOutcome(s: seq<byte>): (r: Parsed<()>)
    ensures r.Parsed? ==> r.used <= |s|
  {
    if |s| < 2 then Fail(PrematureEof)
    else if s[0] != 5 then Fail(InvalidVersion(s[0]))
    else if s[1] != NO_AUTH then Fail(AuthRejected)
    else if |s| < 6 then Fail(PrematureEof)
    else if s[3] != 0 then Fail(ServerReply(s[3]))
    else
      match BoundLength(s[6..], s[5])
      case Fail(e) => Fail(e)
      case Parsed(_, used) => Parsed((), 6 + used)
  }

  /** `SocksClient::connect` after the TCP connection is up. */
  method ClientConnect(s: Stream, target: Addr, port: u16) returns (r: Result<()>)
    modifies s
    ensures match ClientOutcome(old(s.input))
            case Fail(e) => r == Err(e)
            case Parsed(_, used) => r == Ok(()) && s.input == old(s.input)[used..]
    ensures s.output == old(s.output) + [5, 1, 0]
              + (if old(s.input)[..Min(2, |old(s.input)|)] == [5, 0]
                 then [5, 1, 0] + EncodeAddress(target, port) else [])
  {
    ghost var whole := s.input;
    s.WriteAll(GREETING);
    var resp := s.ReadExact(2);
    if resp.Err? { return Err(resp.error); }
    assert resp.value == whole[..2];
    if resp.value[0] != 5 { return Err(InvalidVersion(resp.value[0])); }
    if resp.value[1] != NO_AUTH { return Err(AuthRejected); }
    assert resp.value == [VERSION, NO_AUTH];
    var request: seq<byte> := [5, 1, 0] + EncodeAddress(target, port);
    s.WriteAll(request);
    var hdr := s.ReadExact(4);
    if hdr.Err? { return Err(hdr.error); }
    assert s.input == whole[6..];
    if hdr.value[1] != 0 { return Err(ServerReply(hdr.value[1])); }
    r := SkipBoundAddress(s, hdr.value[3]);
  }

  /** On a successful reply the client returns with its stream at the first relayed byte. */
  lemma ClientStopsAtData(bound: SocketAddr, data: seq<byte>)
    ensures var s := [VERSION, NO_AUTH] + EncodeReply(0, bound) + data;
            ClientOutcome(s).Parsed? && s[ClientOutcome(s).used..] == data
  {
    hide BoundLength, EncodeReply;
    var r := EncodeReply(0, bound);
    var s := [VERSION, NO_AUTH] + r + data;
    ReplySplits(0, bound, data);
    assert s[2..] == r + data;
    assert s[6..] == (r + data)[4..];
    assert s[3] == r[1] && s[5] == r[3];
  }

  /** What the client makes of every answer to its greeting and of every reply: a wrong version or a
      chosen method other than 0 is fatal, a code other than 0 is reported, whatever the reply's own
      version byte, and after code 0 everything behind the bound address is data. */
  lemma ClientReadsReply(version: byte, choice: byte, second: byte, rep: byte, bound: Addr, port: u16, data: seq<byte>)
    requires Encodable(bound)
    ensures var e := EncodeAddress(bound, port);
            var s := [version, choice, second, rep, 0] + e + data;
            var r := ClientOutcome(s);
            if version != 5 then r == Fail(InvalidVersion(version))
            else if choice != 0 then r == Fail(AuthRejected)
            else if rep != 0 then r == Fail(ServerReply(rep))
            else r == Parsed((), 5 + |e|) && s[r.used..] == data
  {
    hide EncodeAddress, BoundLength;
    var e := EncodeAddress(bound, port);
    AddressLayout(bound, port);
    BoundIsSkipped(bound, port, data);
    var s := [version, choice, second, rep, 0] + e + data;
    assert s[5] == e[0] && s[6..] == e[1..] + data;
  }

  /** A reply cut off anywhere is a premature end. */
  lemma TruncatedReplyFails(second: byte, bound: Addr, port: u16, k: nat)
    requires Encodable(bound) && k < 5 + |EncodeAddress(bound, port)|
    ensures ClientOutcome(([5, 0, second, 0, 0] + EncodeAddress(bound, port))[..k]) == Fail(PrematureEof)
  {
    hide EncodeAddress, BoundLength;
    var e := EncodeAddress(bound, port);
    var s := ([5, 0, second, 0, 0] + e)[..k];
    if k >= 6 {
      assert s[5] == e[0] && s[6..] == e[1..k - 5];
      TruncatedBoundFails(bound, port, k - 5);
    }
  }

  /** `handle_connection` up to the point where relaying starts, whatever the command; `request` is
      what it understood the client to ask for. */
  method ServerHandle(s: Stream, auth: bool, outcome: Dial) returns (r: Result<()>, request: Option<Request>)
    modifies s
    ensures match ParseGreeting(old(s.input), auth)
            case Fail(e) =>
              r == Err(e) && request == None
              && s.output == old(s.output) + (if e.NoAcceptableMethod? then [VERSION, NONE_ACCEPTABLE] else [])
            case Parsed(m, u) =>
              match ParseRequest(old(s.input)[u..])
              case Fail(e) => r == Err(e) && request == None && s.output == old(s.output) + [VERSION, m]
              case Parsed(q, v) =>
                r == ResultFor(q.cmd, outcome) && request == Some(q) && s.input == old(s.input)[u..][v..]
                && s.output == old(s.output) + [VERSION, m] + ReplyFor(q.cmd, outcome)
  {
    hide ParseGreeting, ParseRequest, EncodeReply, ReplyFor, ResultFor;
    var m := NegotiateMethod(s, auth);
    if m.Err? { return Err(m.error), None; }
    var q := ReadRequest(s);
    if q.Err? { return Err(q.error), None; }
    request := Some(q.value);
    r := Respond(s, q.value.cmd, outcome);
  }

  /** The branches of `handle_connection` and `handle_connect` behind the request. */
  method Respond(s: Stream, cmd: Cmd, outcome: Dial) returns (r: Result<()>)
    modifies s`output
    ensures r == ResultFor(cmd, outcome) && s.output == old(s.output) + ReplyFor(cmd, outcome)
  {
    hide EncodeReply;
    match cmd {
      case Bind =>
        s.WriteAll(EncodeReply(7, ZERO));
        r := Ok(());
      case Connect =>
        match outcome {
          case Reached(local) =>
            s.WriteAll(EncodeReply(0, local));
            r := Ok(());
          case Rejected(cause) =>
            var rep: byte := match cause
              case ConnectionRefused => 5
              case TimedOut => 6
              case OtherCause => 4;
            s.WriteAll(EncodeReply(rep, ZERO));
            r := Err(Upstream);
          case GivenUp(e) =>
            r := Err(e);
        }
      case UdpAssociate =>
        if outcome.Reached? {
          s.WriteAll(EncodeReply(0, outcome.local));
          r := Ok(());
        } else {
          r := Err(if outcome.GivenUp? then outcome.error else Io);
        }
    }
  }

  /** The reply written for a request. For CONNECT the outcome is that of dialing, and a target given
      up gets no reply; for a UDP association it is that of binding a socket, and a failure gets no
      reply either. */
  function ReplyFor(cmd: Cmd, outcome: Dial): seq<byte> {
    match (cmd, outcome)
    case (Bind, _) => EncodeReply(7, ZERO)
    case (UdpAssociate, Reached(local)) => EncodeReply(0, local)
    case (UdpAssociate, _) => []
    case (Connect, Reached(local)) => EncodeReply(0, local)
    case (Connect, Rejected(cause)) => EncodeReply(Rep(cause), ZERO)
    case (Connect, GivenUp(_)) => []
  }

  /** How the connection ends, as far as the handshake decides it: a refused BIND is no error, a
      target that cannot be reached is one. */
  function ResultFor(cmd: Cmd, outcome: Dial): Result<()> {
    match (cmd, outcome)
    case (Bind, _) => Ok(())
    case (_, Reached(_)) => Ok(())
    case (_, GivenUp(e)) => Err(e)
    case (Connect, Rejected(_)) => Err(Upstream)
    case (UdpAssociate, Rejected(_)) => Err(Io)
  }

  /** A reply on bytes (section 6 of RFC 1928). */
  lemma ReplyOnBytes(rep: byte, bound: SocketAddr)
    ensures EncodeReply(rep, bound)
         == [5, rep, 0] + (match bound.ip case V4(ip) => [1] + ip case V6(ip) => [4] + ip)
            + [bound.port / 256, bound.port % 256]
  {
    var ip := match bound.ip case V4(ip) => [1] + ip case V6(ip) => [4] + ip;
    Shift([5, rep, 0], ip, BE16(bound.port));
  }

  lemma RefusalOnBytes(rep: byte)
    ensures EncodeReply(rep, ZERO) == [5, rep, 0, 1, 0, 0, 0, 0, 0, 0]
  {
    hide EncodeReply;
    ReplyOnBytes(rep, ZERO);
  }

  /** What is answered, and how the connection ends: BIND is refused with code 7 and a UDP association
      or a connection that came about is granted with the address it was given, all without an error;
      a connection that did not come about is refused with 5, 6 or 4 by its cause. */
  lemma AnswerIs(cmd: Cmd, outcome: Dial)
    ensures var reply, result := ReplyFor(cmd, outcome), ResultFor(cmd, outcome);
            if cmd.Bind? then reply == [5, 7, 0, 1, 0, 0, 0, 0, 0, 0] && result == Ok(())
            else
              match outcome
              case Reached(local) =>
                && reply == [5, 0, 0] + (match local.ip case V4(ip) => [1] + ip case V6(ip) => [4] + ip)
                            + [local.port / 256, local.port % 256]
                && result == Ok(())
              case GivenUp(e) => reply == [] && result == Err(e)
              case Rejected(cause) =>
                if cmd.UdpAssociate? then reply == [] && result == Err(Io)
                else
                  var code := if cause.ConnectionRefused? then 5 else if cause.TimedOut? then 6 else 4;
                  reply == [5, code, 0, 1, 0, 0, 0, 0, 0, 0] && result == Err(Upstream)
  {
    hide EncodeReply;
    RefusalOnBytes(7);
    match outcome
    case Reached(local) => ReplyOnBytes(0, local);
    case Rejected(cause) => RefusalOnBytes(Rep(cause));
    case GivenUp(_) =>
  }

  // ---------------------------------------------------------------- the automaton is the code

  /** Everything the client has written, for every position it can be in. */
  predicate WroteUp(n: Net, target: Addr, port: u16) {
    n.wroteUp == (match n.client
                  case Greet => []
                  case AwaitMethod => GREETING
                  case _ => GREETING + ConnectRequest(target, port) + n.clientSent)
  }

  /** Everything the server has written, for every position it can be in. */
  predicate WroteDown(n: Net) {
    n.wroteDown == (match n.server
                    case AwaitGreeting => []
                    case ServerRelay(q, bound) => [VERSION, NO_AUTH] + ReplyFor(q.cmd, Reached(bound)) + n.serverSent
                    case Refused(q, rep) => [VERSION, NO_AUTH] + EncodeReply(rep, ZERO)
                    case _ => [VERSION, NO_AUTH])
  }

  predicate Wrote(n: Net, target: Addr, port: u16) { WroteUp(n, target, port) && WroteDown(n) }

  lemma ClientStepKeepsWrote(n: Net, target: Addr, port: u16)
    requires Inv(n, target, port) && Wrote(n, target, port) && ClientStep(n, target, port).Some?
    ensures Wrote(ClientStep(n, target, port).value, target, port)
  {
    hide Inv, WroteUp, ConnectRequest, BoundLength, ReplyFor, EncodeReply;
    ClientStepKeepsWroteUp(n, target, port);
  }

  lemma ClientStepKeepsWroteUp(n: Net, target: Addr, port: u16)
    requires Inv(n, target, port) && WroteUp(n, target, port) && ClientStep(n, target, port).Some?
    ensures WroteUp(ClientStep(n, target, port).value, target, port)
  {
    hide Inv, ConnectRequest, BoundLength;
    BeforeRelay(n, target, port);
    match n.client
    case Greet => assert [] + GREETING == GREETING;
    case AwaitMethod => NothingSentYet(GREETING, ConnectRequest(target, port), n.clientSent);
    case _ =>
  }

  lemma NothingSentYet(a: seq<byte>, b: seq<byte>, c: seq<byte>)
    requires c == []
    ensures a + b + c == a + b
  {
  }

  lemma BeforeRelay(n: Net, target: Addr, port: u16)
    requires Inv(n, target, port)
    ensures n.client != ClientRelay ==> n.clientSent == []
    ensures n.client == AwaitMethod && |n.down| >= 2 ==> n.down == [5, NO_AUTH]
    ensures n.client == AwaitMethod ==> !ServerGone(n)
  {
    hide EncodeReply, ConnectRequest, BoundBytes;
  }

  lemma ServerStepKeepsWrote(n: Net, target: Addr, port: u16, auth: bool)
    requires Encodable(target) && Inv(n, target, port) && Wrote(n, target, port) && ServerStep(n, auth).Some?
    ensures Wrote(ServerStep(n, auth).value, target, port)
  {
    hide EncodeReply, ConnectRequest, BoundBytes, ParseRequest, ParseGreeting, ReplyFor;
    RequestParses(target, port);
    GreetingParses(auth);
    NothingParses(auth);
  }

  lemma DoKeepsWrote(n: Net, a: Action, target: Addr, port: u16, auth: bool)
    requires Encodable(target) && Inv(n, target, port) && Wrote(n, target, port)
    requires Do(n, a, target, port, auth).Some?
    ensures Wrote(Do(n, a, target, port, auth).value, target, port)
  {
    hide EncodeReply, ConnectRequest, BoundBytes, ClientStep, ServerStep;
    match a
    case ClientMove => ClientStepKeepsWrote(n, target, port);
    case ServerMove => ServerStepKeepsWrote(n, target, port, auth);
    case ClientSends(d) => Shift(GREETING + ConnectRequest(target, port), n.clientSent, d);
    case ServerSends(d) => Shift([VERSION, NO_AUTH] + EncodeReply(0, n.server.bound), n.serverSent, d);
    case _ =>
  }

  lemma {:induction false} RunKeepsWrote(n: Net, actions: seq<Action>, target: Addr, port: u16, auth: bool)
    requires Encodable(target) && Inv(n, target, port) && Wrote(n, target, port)
    ensures var r := Run(n, actions, target, port, auth); r.Some? ==> Wrote(r.value, target, port)
    decreases |actions|
  {
    hide Inv, Do, Wrote;
    if actions != [] && Do(n, actions[0], target, port, auth).Some? {
      DoKeeps(n, actions[0], target, port, auth);
      DoKeepsWrote(n, actions[0], target, port, auth);
      RunKeepsWrote(Do(n, actions[0], target, port, auth).value, actions[1..], target, port, auth);
    }
  }

  /** The client's position says how far `ClientConnect` is with everything the server wrote: which
      of it has been consumed, what was found there, and in the end its result. */
  predicate ClientIsCode(n: Net) {
    match n.client
    case Greet => n.down == n.wroteDown
    case AwaitMethod => n.down == n.wroteDown
    case AwaitReply =>
      |n.wroteDown| >= 2 && n.wroteDown[..2] == [VERSION, NO_AUTH] && n.wroteDown[2..] == n.down
    case AwaitBound(atyp) =>
      && |n.wroteDown| >= 6 && n.wroteDown[..2] == [VERSION, NO_AUTH]
      && n.wroteDown[3] == 0 && n.wroteDown[5] == atyp && n.wroteDown[6..] == n.down
    case ClientRelay =>
      && ClientOutcome(n.wroteDown).Parsed?
      && n.wroteDown[ClientOutcome(n.wroteDown).used..] == n.clientGot + n.down
    case ClientFailed(e) => ClientOutcome(n.wroteDown) == Fail(e)
  }

  /** The server's position says how far `ServerHandle` is with everything the client wrote. */
  predicate ServerIsCode(n: Net, target: Addr, port: u16, auth: bool) {
    if n.server.AwaitGreeting? then n.up == n.wroteUp
    else
      && ParseGreeting(n.wroteUp, auth) == Parsed(NO_AUTH, 3) && |n.wroteUp| >= 3
      && if n.server.AwaitRequest? then n.up == n.wroteUp[3..]
         else
           var r := ParseRequest(n.wroteUp[3..]);
           && r.Parsed? && r.value == Request(Connect, target, port)
           && (n.server.Dropped? || n.server.request == r.value)
           && n.wroteUp[3..][r.used..] == n.serverGot + n.up
  }

  /** In every interleaving both sides of the automaton are where the two methods are on the bytes
      written, and have written what those methods write. */
  lemma AutomatonIsCode(actions: seq<Action>, target: Addr, port: u16, auth: bool)
    requires Encodable(target) && Run(START, actions, target, port, auth).Some?
    ensures var n := Run(START, actions, target, port, auth).value;
            Wrote(n, target, port) && ClientIsCode(n) && ServerIsCode(n, target, port, auth)
  {
    hide Run, ClientIsCode, ServerIsCode, Inv, Wrote;
    assert Inv(START, target, port) && Wrote(START, target, port) by { StartHolds(target, port); }
    RunKeeps(START, actions, target, port, auth);
    RunKeepsWrote(START, actions, target, port, auth);
    var n := Run(START, actions, target, port, auth).value;
    ClientMatches(n, target, port);
    ServerMatches(n, target, port, auth);
  }

  lemma StartHolds(target: Addr, port: u16)
    ensures Inv(START, target, port) && Wrote(START, target, port)
  {
  }

  lemma ClientMatches(n: Net, target: Addr, port: u16)
    requires Inv(n, target, port) && Wrote(n, target, port)
    ensures ClientIsCode(n)
  {
    hide Inv, Wrote, ClientIsCode;
    match n.client
    case Greet => BeforeMethodMatches(n, target, port);
    case AwaitMethod => BeforeMethodMatches(n, target, port);
    case AwaitReply => AwaitReplyMatches(n, target, port);
    case AwaitBound(_) => AwaitBoundMatches(n, target, port);
    case ClientRelay => RelayMatches(n, target, port);
    case ClientFailed(_) => FailureMatches(n, target, port);
  }

  lemma BeforeMethodMatches(n: Net, target: Addr, port: u16)
    requires Inv(n, target, port) && Wrote(n, target, port) && (n.client.Greet? || n.client.AwaitMethod?)
    ensures ClientIsCode(n)
  {
    hide EncodeReply, BoundBytes, ConnectRequest, ClientOutcome;
  }

  lemma AwaitReplyMatches(n: Net, target: Addr, port: u16)
    requires Inv(n, target, port) && Wrote(n, target, port) && n.client.AwaitReply?
    ensures ClientIsCode(n)
  {
    hide EncodeReply, BoundBytes, ConnectRequest, ClientOutcome;
    if n.server.ServerRelay? {
      Shift([VERSION, NO_AUTH], EncodeReply(0, n.server.bound), n.serverSent);
    }
    assert n.wroteDown == [VERSION, NO_AUTH] + n.down;
  }

  lemma RelayMatches(n: Net, target: Addr, port: u16)
    requires Inv(n, target, port) && Wrote(n, target, port) && n.client.ClientRelay?
    ensures ClientIsCode(n)
  {
    hide EncodeReply, BoundBytes, ConnectRequest, ClientOutcome;
    ClientStopsAtData(n.server.bound, n.serverSent);
  }

  lemma FailureMatches(n: Net, target: Addr, port: u16)
    requires Inv(n, target, port) && Wrote(n, target, port) && n.client.ClientFailed?
    ensures ClientIsCode(n)
  {
    hide EncodeReply, BoundBytes, ConnectRequest, ClientOutcome;
    if n.server.Refused? { ClientSeesRefusal(n.server.rep); } else { ClientSeesDrop(); }
  }

  lemma AwaitBoundMatches(n: Net, target: Addr, port: u16)
    requires Inv(n, target, port) && Wrote(n, target, port) && n.client.AwaitBound?
    ensures ClientIsCode(n)
  {
    hide EncodeReply, BoundLength, BoundBytes, ConnectRequest, ClientOutcome;
    var r, d := EncodeReply(0, n.server.bound), n.serverSent;
    ReplySplits(0, n.server.bound, d);
    HeaderThenReply(r, d);
  }

  lemma HeaderThenReply(r: seq<byte>, d: seq<byte>)
    requires |r| >= 4
    ensures var w := [VERSION, NO_AUTH] + r + d;
            w[..2] == [VERSION, NO_AUTH] && w[3] == r[1] && w[5] == r[3] && w[6..] == (r + d)[4..]
  {
  }

  lemma ClientSeesRefusal(rep: byte)
    requires rep != 0
    ensures ClientOutcome([VERSION, NO_AUTH] + EncodeReply(rep, ZERO)) == Fail(ServerReply(rep))
  {
    hide EncodeReply, BoundLength, BoundBytes;
    var r := EncodeReply(rep, ZERO);
    assert |r| >= 4 && r[1] == rep by { ReplySplits(rep, ZERO, []); }
    var s := [VERSION, NO_AUTH] + r;
    assert s[0] == VERSION && s[1] == NO_AUTH && s[3] == r[1];
  }

  lemma ClientSeesDrop()
    ensures ClientOutcome([VERSION, NO_AUTH]) == Fail(PrematureEof)
  {
  }

  lemma ServerMatches(n: Net, target: Addr, port: u16, auth: bool)
    requires Encodable(target) && Inv(n, target, port) && Wrote(n, target, port)
    ensures ServerIsCode(n, target, port, auth)
  {
    hide EncodeReply, ConnectRequest, ParseRequest, ParseGreeting, BoundBytes;
    var q := ConnectRequest(target, port);
    GreetingParses(auth);
    assert GREETING[3..] == [];
    GreetingPrefixParses(auth, q + n.clientSent);
    RequestRecoveredIff(target, port, n.clientSent);
    assert GREETING + (q + n.clientSent) == GREETING + q + n.clientSent;
    assert (GREETING + q + n.clientSent)[3..] == q + n.clientSent;
    assert (q + n.clientSent)[|q|..] == n.clientSent;
  }

  lemma GreetingPrefixParses(auth: bool, rest: seq<byte>)
    ensures ParseGreeting(GREETING + rest, auth) == Parsed(NO_AUTH, 3)
  {
    var s := GREETING + rest;
    assert s[2..3][0] == NO_AUTH;
  }
}
