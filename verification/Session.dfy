/** The session automaton (gravital-engine, session.rs). */
module Session {
  import opened Bytes

  datatype Mode = Client | Server

  datatype StopReason = UserRequest | FatalStop | ShutdownStop

  datatype FailureKind =
    | PermissionDenied | ConfigInvalid | ProxyUnreachable | DnsResolveFailed
    | TunOpenFailed | EngineCrashed | UpstreamVpnDown | Unknown

  predicate IsRecoverable(k: FailureKind) { k == ProxyUnreachable || k == DnsResolveFailed }

  datatype State =
    | Idle
    | Preparing(mode: Mode)
    | Connecting(mode: Mode, attempt: u32)
    | Connected(mode: Mode, peer: SocketAddr)
    | Reconnecting(mode: Mode, attempt: u32, lastError: Option<string>)
    | Stopping(mode: Mode, reason: StopReason)
    | Failed(mode: Mode, error: FailureKind, recoverable: bool)

  datatype Event =
    | UserStart(requested: Mode) | UserStop | UserAcknowledge
    | EnginePrepared | EngineReady | EngineStopped
    | ProxyConnected(peer: SocketAddr) | ProxyDisconnected(cause: Option<string>)
    | NetworkLost | NetworkRestored
    | FatalError(kind: FailureKind) | Shutdown

  datatype Outcome = Ok(state: State) | InvalidTransition

  function ModeOrClient(s: State): Mode { if s.Idle? then Client else s.mode }

  /** `transition` */
  function Transition(s: State, e: Event): Outcome {
    match (s, e)
    case (_, FatalError(kind)) => Ok(Failed(ModeOrClient(s), kind, IsRecoverable(kind)))
    case (_, Shutdown) => Ok(Stopping(ModeOrClient(s), ShutdownStop))
    case (Idle, UserStart(mode)) => Ok(Preparing(mode))
    case (Preparing(mode), EngineReady) => Ok(Connecting(mode, 1))
    case (Preparing(mode), EnginePrepared) => Ok(Preparing(mode))
    case (Connecting(mode, _), ProxyConnected(peer)) => Ok(Connected(mode, peer))
    case (Connecting(mode, attempt), NetworkLost) => Ok(Reconnecting(mode, attempt, None))
    case (Connecting(mode, attempt), ProxyDisconnected(_)) => Ok(Reconnecting(mode, attempt, None))
    case (Connected(mode, _), NetworkLost) => Ok(Reconnecting(mode, 1, None))
    case (Connected(mode, _), ProxyDisconnected(_)) => Ok(Reconnecting(mode, 1, None))
    case (Connected(mode, _), UserStop) => Ok(Stopping(mode, UserRequest))
    case (Reconnecting(mode, _, _), ProxyConnected(peer)) => Ok(Connected(mode, peer))
    case (Reconnecting(mode, _, _), UserStop) => Ok(Stopping(mode, UserRequest))
    case (Stopping(_, _), EngineStopped) => Ok(Idle)
    case (Failed(_, _, _), UserAcknowledge) => Ok(Idle)
    case _ => InvalidTransition
  }

  // ---------------------------------------------------------------- the documented table

  datatype StateKind = KIdle | KPreparing | KConnecting | KConnected | KReconnecting | KStopping | KFailed

  function KindOf(s: State): StateKind {
    match s
    case Idle => KIdle
    case Preparing(_) => KPreparing
    case Connecting(_, _) => KConnecting
    case Connected(_, _) => KConnected
    case Reconnecting(_, _, _) => KReconnecting
    case Stopping(_, _) => KStopping
    case Failed(_, _, _) => KFailed
  }

  /** The rows of the transition table in docs/02-architecture/05-session-state-machine.md. */
  function Documented(s: StateKind, e: Event): Option<StateKind> {
    match (s, e)
    case (_, Shutdown) => Some(KStopping)
    case (KIdle, UserStart(_)) => Some(KPreparing)
    case (KPreparing, EngineReady) => Some(KConnecting)
    case (KPreparing, FatalError(_)) => Some(KFailed)
    case (KConnecting, ProxyConnected(_)) => Some(KConnected)
    case (KConnecting, NetworkLost) => Some(KReconnecting)
    case (KConnecting, FatalError(_)) => Some(KFailed)
    case (KConnected, NetworkLost) => Some(KReconnecting)
    case (KConnected, UserStop) => Some(KStopping)
    case (KConnected, FatalError(_)) => Some(KFailed)
    case (KReconnecting, ProxyConnected(_)) => Some(KConnected)
    case (KReconnecting, UserStop) => Some(KStopping)
    case (KReconnecting, FatalError(_)) => Some(KFailed)
    case (KStopping, EngineStopped) => Some(KIdle)
    case (KFailed, UserAcknowledge) => Some(KIdle)
    case _ => None
  }

  /** The transitions the code makes although the table does not list them. */
  predicate Undocumented(s: StateKind, e: Event) {
    || (s == KPreparing && e.EnginePrepared?)
    || ((s == KConnecting || s == KConnected) && e.ProxyDisconnected?)
    || ((s == KIdle || s == KStopping || s == KFailed) && e.FatalError?)
  }

  /** Every listed pair makes the listed transition, and a pair that is not listed is rejected
      unless it is one of the undocumented ones. */
  lemma TransitionFollowsTable(s: State, e: Event)
    ensures match Documented(KindOf(s), e)
            case Some(k) => Transition(s, e).Ok? && KindOf(Transition(s, e).state) == k
            case None => Transition(s, e).Ok? <==> Undocumented(KindOf(s), e)
    ensures Transition(s, e).Ok? && !s.Idle? && !Transition(s, e).state.Idle? ==>
              Transition(s, e).state.mode == s.mode
  {
  }

  /** A fatal error is accepted in every state and keeps the mode; only an unreachable proxy and a failed
      resolution count as recoverable. */
  lemma FatalErrorFromAnyState(s: State, kind: FailureKind)
    ensures var mode := if s.Idle? then Client else s.mode;
            Transition(s, FatalError(kind)) ==
              match kind
              case PermissionDenied => Ok(Failed(mode, PermissionDenied, false))
              case ConfigInvalid => Ok(Failed(mode, ConfigInvalid, false))
              case ProxyUnreachable => Ok(Failed(mode, ProxyUnreachable, true))
              case DnsResolveFailed => Ok(Failed(mode, DnsResolveFailed, true))
              case TunOpenFailed => Ok(Failed(mode, TunOpenFailed, false))
              case EngineCrashed => Ok(Failed(mode, EngineCrashed, false))
              case UpstreamVpnDown => Ok(Failed(mode, UpstreamVpnDown, false))
              case Unknown => Ok(Failed(mode, Unknown, false))
  {
  }

  /** What a sequential `dispatch` leaves behind: a rejected event changes nothing. */
  function Next(s: State, e: Event): State {
    match Transition(s, e)
    case Ok(t) => t
    case InvalidTransition => s
  }

  function After(s: State, es: seq<Event>): State
    decreases |es|
  {
    if es == [] then s else Next(After(s, es[..|es| - 1]), es[|es| - 1])
  }

  // ---------------------------------------------------------------- reachable states

  ghost predicate Reachable(s: State) { exists es: seq<Event> :: After(Idle, es) == s }

  /** The states the automaton can be in, read off their fields. */
  predicate Coherent(s: State) {
    match s
    case Connecting(_, attempt) => attempt == 1
    case Reconnecting(_, attempt, lastError) => attempt == 1 && lastError == None
    case Stopping(_, reason) => reason != FatalStop
    case Failed(_, error, recoverable) => recoverable == IsRecoverable(error)
    case _ => true
  }

  lemma {:induction false} AfterIsCoherent(es: seq<Event>)
    ensures Coherent(After(Idle, es))
    decreases |es|
  {
    if es != [] { AfterIsCoherent(es[..|es| - 1]); }
  }

  lemma Extend(es: seq<Event>, e: Event)
    ensures After(Idle, es + [e]) == Next(After(Idle, es), e)
  {
    assert (es + [e])[..|es + [e]| - 1] == es;
  }

  /** A sequential run that ends in the given coherent state. */
  function Witness(s: State): (es: seq<Event>)
    requires Coherent(s)
  {
    match s
    case Idle => []
    case Preparing(m) => [UserStart(m)]
    case Connecting(m, _) => [UserStart(m), EngineReady]
    case Connected(m, peer) => [UserStart(m), EngineReady, ProxyConnected(peer)]
    case Reconnecting(m, _, _) => [UserStart(m), EngineReady, NetworkLost]
    case Stopping(m, reason) =>
      [UserStart(m), EngineReady, NetworkLost, if reason == UserRequest then UserStop else Shutdown]
    case Failed(m, error, _) => [UserStart(m), FatalError(error)]
  }

  lemma WitnessWorks(s: State)
    requires Coherent(s)
    ensures After(Idle, Witness(s)) == s
  {
    hide After;
    var es := Witness(s);
    assert After(Idle, []) == Idle by { EmptyRun(); }
    if |es| >= 1 { Extend([], es[0]); assert [] + [es[0]] == es[..1]; }
    if |es| >= 2 { Extend(es[..1], es[1]); assert es[..1] + [es[1]] == es[..2]; }
    if |es| >= 3 { Extend(es[..2], es[2]); assert es[..2] + [es[2]] == es[..3]; }
    if |es| >= 4 { Extend(es[..3], es[3]); assert es[..3] + [es[3]] == es[..4]; }
    assert es[..|es|] == es;
  }

  lemma EmptyRun()
    ensures After(Idle, []) == Idle
  {
  }

  /** The reachable states are exactly the coherent ones. */
  lemma ReachableIffCoherent(s: State)
    ensures Reachable(s) <==> Coherent(s)
  {
    if Reachable(s) {
      var es: seq<Event> :| After(Idle, es) == s;
      AfterIsCoherent(es);
    }
    if Coherent(s) { WitnessWorks(s); }
  }

  // ---------------------------------------------------------------- history since Idle

  /** The events accepted since the automaton last stood in Idle. */
  function History(es: seq<Event>): seq<Event>
    decreases |es|
  {
    if es == [] then []
    else
      var s := After(Idle, es[..|es| - 1]);
      var e := es[|es| - 1];
      match Transition(s, e)
      case InvalidTransition => History(es[..|es| - 1])
      case Ok(t) => if t.Idle? then [] else History(es[..|es| - 1]) + [e]
  }

  predicate IsPrepared(h: seq<Event>, from: nat, to: nat)
    requires from <= to <= |h|
  {
    forall k :: from <= k < to ==> h[k].EnginePrepared?
  }

  /** `h` starts a session of mode `m`: UserStart, some EnginePrepared, EngineReady at `r`. */
  predicate Opens(h: seq<Event>, m: Mode, r: nat) {
    && 1 <= r < |h| && h[0] == UserStart(m) && IsPrepared(h, 1, r) && h[r] == EngineReady
  }

  /** Between `from` and `to` the session only went up and down. */
  predicate OnlyLinkEvents(h: seq<Event>, from: nat, to: nat)
    requires from <= to <= |h|
  {
    forall k :: from <= k < to ==>
      h[k].ProxyConnected? || h[k].ProxyDisconnected? || h[k].NetworkLost?
  }

  /** What the accepted events since Idle must have been for the automaton to stand in `s`. */
  ghost predicate Explains(h: seq<Event>, s: State) {
    match s
    case Idle => h == []
    case Preparing(m) => h != [] && h[0] == UserStart(m) && IsPrepared(h, 1, |h|)
    case Connecting(m, _) => exists r: nat :: Opens(h, m, r) && r == |h| - 1
    case Connected(m, peer) =>
      exists r: nat :: Opens(h, m, r) && r < |h| - 1 && OnlyLinkEvents(h, r + 1, |h|)
                       && h[|h| - 1] == ProxyConnected(peer)
    case Reconnecting(m, _, _) =>
      exists r: nat :: Opens(h, m, r) && r < |h| - 1 && OnlyLinkEvents(h, r + 1, |h|)
                       && !h[|h| - 1].ProxyConnected?
    case Stopping(m, reason) =>
      StartedAs(h, m) && h[|h| - 1] == (if reason.UserRequest? then UserStop else Shutdown)
    case Failed(m, error, _) => StartedAs(h, m) && h[|h| - 1] == FatalError(error)
  }

  /** The session's mode is the one the user started, or Client when none was started. */
  predicate StartedAs(h: seq<Event>, m: Mode) {
    h != [] && m == if h[0].UserStart? then h[0].requested else Client
  }

  /** In every sequential run the current state is explained by the events accepted since Idle:
      Connected needs a UserStart of its own mode, then EngineReady, and its peer is the one of
      the last accepted event. */
  lemma {:induction false} HistoryExplainsState(es: seq<Event>)
    ensures Explains(History(es), After(Idle, es))
    decreases |es|
  {
    if es != [] {
      var init, e := es[..|es| - 1], es[|es| - 1];
      HistoryExplainsState(init);
      ExplainsStep(History(init), After(Idle, init), e);
    }
  }

  lemma ExplainsStep(h: seq<Event>, s: State, e: Event)
    requires Explains(h, s)
    ensures match Transition(s, e)
            case InvalidTransition => true
            case Ok(t) => Explains(if t.Idle? then [] else h + [e], t)
  {
    var k := h + [e];
    match s
    case Preparing(m) =>
      if e.EngineReady? { assert Opens(k, m, |h|); }
    case Connecting(m, _) =>
      var r: nat :| Opens(h, m, r) && r == |h| - 1;
      assert Opens(k, m, r);
    case Connected(m, _) =>
      var r: nat :| Opens(h, m, r) && r < |h| - 1 && OnlyLinkEvents(h, r + 1, |h|);
      assert Opens(k, m, r);
    case Reconnecting(m, _, _) =>
      var r: nat :| Opens(h, m, r) && r < |h| - 1 && OnlyLinkEvents(h, r + 1, |h|);
      assert Opens(k, m, r);
    case _ =>
  }

  /** The mode never changes between leaving Idle and the next Idle. */
  lemma {:induction false} ModeIsConstantAwayFromIdle(s: State, es: seq<Event>)
    requires !s.Idle? && forall k :: 0 <= k <= |es| ==> !After(s, es[..k]).Idle?
    ensures !After(s, es).Idle? && After(s, es).mode == s.mode
    decreases |es|
  {
    assert es[..|es|] == es;
    if es != [] {
      var init := es[..|es| - 1];
      forall k | 0 <= k <= |init| ensures !After(s, init[..k]).Idle? { assert init[..k] == es[..k]; }
      ModeIsConstantAwayFromIdle(s, init);
    }
  }

  /** After a failure or a stop, Connected is reached only through Idle. */
  lemma {:induction false} ConnectedOnlyThroughIdle(s: State, es: seq<Event>)
    requires s.Failed? || s.Stopping?
    requires forall k :: 0 <= k <= |es| ==> !After(s, es[..k]).Idle?
    ensures After(s, es).Failed? || After(s, es).Stopping?
    decreases |es|
  {
    assert es[..|es|] == es;
    if es != [] {
      var init := es[..|es| - 1];
      forall k | 0 <= k <= |init| ensures !After(s, init[..k]).Idle? { assert init[..k] == es[..k]; }
      ConnectedOnlyThroughIdle(s, init);
    }
  }
}
