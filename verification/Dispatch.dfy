/** `Session` with its listeners, and the engine's use of it (session.rs and runner.rs),
    when calls do not overlap. */
module Dispatch {
  import opened Bytes
  import S = Session

  /** The session's state and, for each listener, everything it has been told. */
  datatype Cell = Cell(state: S.State, logs: seq<seq<S.State>>)

  const NEW := Cell(S.Idle, [])

  function Told(logs: seq<seq<S.State>>, s: S.State): (r: seq<seq<S.State>>)
    ensures |r| == |logs| && forall k :: 0 <= k < |r| ==> r[k] == logs[k] + [s]
  {
    seq(|logs|, k requires 0 <= k < |logs| => logs[k] + [s])
  }

  function DispatchTo(c: Cell, e: S.Event): Cell {
    var next := S.Next(c.state, e);
    if next == c.state then c else Cell(next, Told(c.logs, next))
  }

  class Session {
    var state: S.State
    var logs: seq<seq<S.State>>

    ghost function View(): Cell
      reads this
    {
      Cell(state, logs)
    }

    constructor ()
      ensures View() == NEW
    {
      state, logs := S.Idle, [];
    }

    method AddListener()
      modifies this
      ensures View() == Cell(old(state), old(logs) + [[]])
    {
      logs := logs + [[]];
    }

    /** `force_idle`: silent. */
    method ForceIdle()
      modifies this
      ensures View() == Cell(S.Idle, old(logs))
    {
      state := S.Idle;
    }

    /** `dispatch`: compute from a copy of the state, store only a change, then tell everyone. */
    method Dispatch(e: S.Event) returns (accepted: bool)
      modifies this
      ensures accepted <==> S.Transition(old(state), e).Ok?
      ensures View() == DispatchTo(old(View()), e)
    {
      var current := state;
      var r := S.Transition(current, e);
      if r.InvalidTransition? { return false; }
      var next := r.state;
      if next != current {
        state := next;
        var i := 0;
        while i < |logs|
          invariant 0 <= i <= |logs| == |old(logs)| && state == next
          invariant forall k :: 0 <= k < i ==> logs[k] == old(logs)[k] + [next]
          invariant forall k :: i <= k < |logs| ==> logs[k] == old(logs)[k]
        {
          logs := logs[i := logs[i] + [next]];
          i := i + 1;
        }
        assert logs == Told(old(logs), next);
      }
      accepted := true;
    }
  }

  // ---------------------------------------------------------------- the listener log

  /** The states a sequential run passes through, without repetitions. */
  function Changes(s: S.State, es: seq<S.Event>): seq<S.State>
    decreases |es|
  {
    if es == [] then []
    else
      var before := S.After(s, es[..|es| - 1]);
      var after := S.After(s, es);
      Changes(s, es[..|es| - 1]) + (if after == before then [] else [after])
  }

  function DispatchAll(c: Cell, es: seq<S.Event>): Cell
    decreases |es|
  {
    if es == [] then c else DispatchTo(DispatchAll(c, es[..|es| - 1]), es[|es| - 1])
  }

  /** Every listener is told exactly the stutter-free history since it was registered. */
  lemma {:induction false} ListenersSeeHistory(c: Cell, es: seq<S.Event>)
    ensures DispatchAll(c, es).state == S.After(c.state, es)
    ensures |DispatchAll(c, es).logs| == |c.logs|
    ensures forall k :: 0 <= k < |c.logs| ==>
              DispatchAll(c, es).logs[k] == c.logs[k] + Changes(c.state, es)
    decreases |es|
  {
    if es != [] { ListenersSeeHistory(c, es[..|es| - 1]); }
  }

  /** The log alone shows every step: no two neighbours in it are equal, and it ends in the
      current state unless nothing has changed. */
  lemma {:induction false} ChangesAreStutterFree(s: S.State, es: seq<S.Event>)
    ensures var h := Changes(s, es);
            && (forall k :: 0 <= k < |h| - 1 ==> h[k] != h[k + 1])
            && (h == [] ==> S.After(s, es) == s)
            && (h != [] ==> h[|h| - 1] == S.After(s, es) && h[0] != s)
    decreases |es|
  {
    if es != [] { ChangesAreStutterFree(s, es[..|es| - 1]); }
  }

  // ---------------------------------------------------------------- the engine

  /** What happens to the engine: calls from outside, and the events of its spawned tasks. */
  datatype Call =
    | StartServer
    | StartClient(tunFd: int)
    | Stop
    | ShutDown
    | TaskConnected(peer: SocketAddr)
    | TaskFailed
    | TaskStopped

  function Start(c: Cell, mode: S.Mode): Cell {
    var idle := Cell(S.Idle, c.logs);
    DispatchTo(DispatchTo(idle, S.UserStart(mode)), S.EngineReady)
  }

  function EngineStep(c: Cell, call: Call): Cell {
    match call
    case StartServer => Start(c, S.Server)
    case StartClient(fd) => if fd < 0 then c else Start(c, S.Client)
    case Stop => DispatchTo(c, S.UserStop)
    case ShutDown => c
    case TaskConnected(peer) => DispatchTo(c, S.ProxyConnected(peer))
    case TaskFailed => DispatchTo(c, S.FatalError(S.TunOpenFailed))
    case TaskStopped => DispatchTo(c, S.EngineStopped)
  }

  function EngineRun(c: Cell, calls: seq<Call>): Cell
    decreases |calls|
  {
    if calls == [] then c else EngineStep(EngineRun(c, calls[..|calls| - 1]), calls[|calls| - 1])
  }

  /** The one listener the engine registers knows the current state. */
  predicate Informed(c: Cell) {
    |c.logs| == 1
    && if c.logs[0] == [] then c.state == S.Idle else c.logs[0][|c.logs[0]| - 1] == c.state
  }

  /** Every listener of `c` was told exactly `news` on the way to `d`, in order. */
  predicate Heard(c: Cell, d: Cell, news: seq<S.State>) {
    |d.logs| == |c.logs| && forall k :: 0 <= k < |c.logs| ==> d.logs[k] == c.logs[k] + news
  }

  /** A valid start from any state ends in Connecting of the requested mode, attempt 1, and every
      listener was told of both steps although the reset to Idle before them is silent. */
  lemma StartFromAnyState(c: Cell, mode: S.Mode)
    ensures Start(c, mode).state == S.Connecting(mode, 1)
    ensures Heard(c, Start(c, mode), [S.Preparing(mode), S.Connecting(mode, 1)])
  {
    var idle := Cell(S.Idle, c.logs);
    var d := DispatchTo(idle, S.UserStart(mode));
    assert d == Cell(S.Preparing(mode), Told(c.logs, S.Preparing(mode)));
    forall k | 0 <= k < |c.logs|
      ensures Start(c, mode).logs[k] == c.logs[k] + [S.Preparing(mode), S.Connecting(mode, 1)]
    {
      assert c.logs[k] + [S.Preparing(mode)] + [S.Connecting(mode, 1)]
          == c.logs[k] + [S.Preparing(mode), S.Connecting(mode, 1)];
    }
  }

  /** The states announced when the call is made in state `s`: a start always ends in Connecting of
      its own mode, a stop needs a link that is up or coming back, a task's success needs one that is
      being made, a task's failure is a TUN device that could not be opened and cannot be recovered
      from, its end counts only while stopping, and a shutdown is not told to the session at all. */
  function Announced(s: S.State, call: Call): seq<S.State> {
    match call
    case StartServer => [S.Preparing(S.Server), S.Connecting(S.Server, 1)]
    case StartClient(fd) => if fd < 0 then [] else [S.Preparing(S.Client), S.Connecting(S.Client, 1)]
    case Stop => if s.Connected? || s.Reconnecting? then [S.Stopping(s.mode, S.UserRequest)] else []
    case ShutDown => []
    case TaskConnected(peer) => if s.Connecting? || s.Reconnecting? then [S.Connected(s.mode, peer)] else []
    case TaskFailed =>
      var failed := S.Failed(if s.Idle? then S.Client else s.mode, S.TunOpenFailed, false);
      if s == failed then [] else [failed]
    case TaskStopped => if s.Stopping? then [S.Idle] else []
  }

  /** Every call and task event announces exactly those states and leaves the last of them. */
  lemma EngineStepAnnounces(c: Cell, call: Call)
    ensures var d, news := EngineStep(c, call), Announced(c.state, call);
            && Heard(c, d, news)
            && d.state == (if news == [] then c.state else news[|news| - 1])
  {
    hide Start;
    StartFromAnyState(c, S.Server);
    StartFromAnyState(c, S.Client);
  }

  /** After any sequence of calls and task events the last notified state is the current one,
      and the current state is one a sequential run of the automaton can reach. */
  lemma {:induction false} EngineKeepsListenerInformed(calls: seq<Call>)
    ensures Informed(EngineRun(Cell(S.Idle, [[]]), calls))
    ensures S.Coherent(EngineRun(Cell(S.Idle, [[]]), calls).state)
    decreases |calls|
  {
    hide EngineStep;
    if calls != [] {
      var c := EngineRun(Cell(S.Idle, [[]]), calls[..|calls| - 1]);
      EngineKeepsListenerInformed(calls[..|calls| - 1]);
      EngineStepInforms(c, calls[|calls| - 1]);
    }
  }

  lemma EngineStepInforms(c: Cell, call: Call)
    requires Informed(c) && S.Coherent(c.state)
    ensures Informed(EngineStep(c, call)) && S.Coherent(EngineStep(c, call).state)
  {
    hide Start;
    StartFromAnyState(c, S.Server);
    StartFromAnyState(c, S.Client);
  }

  function LastOr(h: seq<S.State>): S.State { if h == [] then S.Idle else h[|h| - 1] }

  /** What the engine's listener hears of a sequence of calls; what it heard last stands for the state. */
  function Story(calls: seq<Call>): seq<S.State>
    decreases |calls|
  {
    if calls == [] then []
    else
      var h := Story(calls[..|calls| - 1]);
      h + Announced(LastOr(h), calls[|calls| - 1])
  }

  /** Over every sequence of calls and task events the listener's log is that story, and the state is
      its last entry: the log alone determines what every later call does. */
  lemma {:induction false} EngineLogIsStory(calls: seq<Call>)
    ensures EngineRun(Cell(S.Idle, [[]]), calls) == Cell(LastOr(Story(calls)), [Story(calls)])
    decreases |calls|
  {
    hide EngineStep, Announced;
    if calls != [] {
      var init, call := calls[..|calls| - 1], calls[|calls| - 1];
      EngineLogIsStory(init);
      EngineStepAnnounces(EngineRun(Cell(S.Idle, [[]]), init), call);
    }
  }

  class Engine {
    const session: Session

    constructor ()
      ensures session.View() == Cell(S.Idle, [[]]) && fresh(session)
    {
      var s := new Session();
      s.AddListener();
      session := s;
    }

    /** The session calls of `start_server` and `start_client`. */
    method StartMode(mode: S.Mode) returns (ok: bool)
      modifies session
      ensures ok && session.View() == Start(old(session.View()), mode)
    {
      if session.state != S.Idle {
        session.ForceIdle();
      }
      ok := session.Dispatch(S.UserStart(mode));
      if ok {
        ok := session.Dispatch(S.EngineReady);
      }
    }

    /** `start_server` */
    method StartServerNow() returns (ok: bool)
      modifies session
      ensures ok && session.View() == EngineStep(old(session.View()), StartServer)
      ensures session.state == S.Connecting(S.Server, 1)
      ensures Heard(old(session.View()), session.View(), [S.Preparing(S.Server), S.Connecting(S.Server, 1)])
    {
      EngineStepAnnounces(session.View(), StartServer);
      ok := StartMode(S.Server);
    }

    /** `start_client` */
    method StartClientOn(tunFd: int) returns (ok: bool)
      modifies session
      ensures ok <==> tunFd >= 0
      ensures session.View() == EngineStep(old(session.View()), StartClient(tunFd))
      ensures tunFd < 0 ==> session.View() == old(session.View())
      ensures tunFd >= 0 ==>
                session.state == S.Connecting(S.Client, 1)
                && Heard(old(session.View()), session.View(), [S.Preparing(S.Client), S.Connecting(S.Client, 1)])
    {
      EngineStepAnnounces(session.View(), StartClient(tunFd));
      if tunFd < 0 { return false; }
      ok := StartMode(S.Client);
    }

    /** `stop`: refused, with the session untouched, unless it is Connected or Reconnecting. */
    method StopSession() returns (ok: bool)
      modifies session
      ensures ok <==> old(session.state).Connected? || old(session.state).Reconnecting?
      ensures session.View() == EngineStep(old(session.View()), Stop)
      ensures if ok
              then session.state == S.Stopping(old(session.state).mode, S.UserRequest)
                   && Heard(old(session.View()), session.View(), [session.state])
              else session.View() == old(session.View())
    {
      EngineStepAnnounces(session.View(), Stop);
      ok := session.Dispatch(S.UserStop);
    }

    /** A start task that has reached its proxy, or is its own proxy; the outcome is ignored. */
    method TaskConnects(peer: SocketAddr)
      modifies session
      ensures session.View() == EngineStep(old(session.View()), TaskConnected(peer))
      ensures if old(session.state).Connecting? || old(session.state).Reconnecting?
              then session.state == S.Connected(old(session.state).mode, peer)
                   && Heard(old(session.View()), session.View(), [session.state])
              else session.View() == old(session.View())
    {
      EngineStepAnnounces(session.View(), TaskConnected(peer));
      var _ := session.Dispatch(S.ProxyConnected(peer));
    }

    /** A client task that cannot open its TUN device or stack. */
    method TaskFails()
      modifies session
      ensures session.View() == EngineStep(old(session.View()), TaskFailed)
      ensures session.state ==
                S.Failed(if old(session.state).Idle? then S.Client else old(session.state).mode, S.TunOpenFailed, false)
      ensures Heard(old(session.View()), session.View(),
                    if session.state == old(session.state) then [] else [session.state])
    {
      EngineStepAnnounces(session.View(), TaskFailed);
      var _ := session.Dispatch(S.FatalError(S.TunOpenFailed));
    }

    /** A start task whose relay has ended. */
    method TaskStops()
      modifies session
      ensures session.View() == EngineStep(old(session.View()), TaskStopped)
      ensures if old(session.state).Stopping?
              then session.state == S.Idle && Heard(old(session.View()), session.View(), [S.Idle])
              else session.View() == old(session.View())
    {
      EngineStepAnnounces(session.View(), TaskStopped);
      var _ := session.Dispatch(S.EngineStopped);
    }
  }
}
