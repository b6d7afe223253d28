/** `dispatch` as it runs under concurrency (session.rs): the read lock is released before the
    write lock is taken, and listeners are told after the write, so other calls may come between. */
module Interleaving {
  import opened Bytes
  import opened Session
  import Dispatch

  type Thread = nat

  /** Where a dispatcher stands: about to store, or about to announce the store with its ticket. */
  datatype Phase =
    | ToWrite(event: Event, seen: State, next: State)
    | ToNotify(told: State, ticket: nat)

  datatype Store = Dispatched(event: Event, next: State) | Forced

  /** `done` and `announced` are history: every store, and the ticket (its position in `done`) of
      every announcement. */
  datatype Shared = Shared(
    state: State, log: seq<State>, threads: map<Thread, Phase>, done: seq<Store>, announced: seq<nat>)

  datatype Step =
    | Read(thread: Thread, event: Event)
    | Write(thread: Thread)
    | Notify(thread: Thread)
    | ForceIdle

  predicate Enabled(c: Shared, a: Step) {
    match a
    case Read(t, _) => t !in c.threads
    case Write(t) => t in c.threads && c.threads[t].ToWrite?
    case Notify(t) => t in c.threads && c.threads[t].ToNotify?
    case ForceIdle => true
  }

  /** A rejected event and an event that changes nothing end the call at the read. */
  function Do(c: Shared, a: Step): Shared
    requires Enabled(c, a)
  {
    match a
    case Read(t, e) =>
      var r := Transition(c.state, e);
      if r.InvalidTransition? || r.state == c.state then c
      else c.(threads := c.threads[t := ToWrite(e, c.state, r.state)])
    case Write(t) =>
      var w := c.threads[t];
      c.(state := w.next, threads := c.threads[t := ToNotify(w.next, |c.done|)],
         done := c.done + [Dispatched(w.event, w.next)])
    case Notify(t) =>
      var w := c.threads[t];
      c.(log := c.log + [w.told], threads := c.threads - {t}, announced := c.announced + [w.ticket])
    case ForceIdle =>
      c.(state := Idle, done := c.done + [Forced])
  }

  const START := Shared(Idle, [], map[], [], [])

  /** Where a sequence of steps leads, or None when one of them is not enabled in its turn. */
  function Perform(c: Shared, steps: seq<Step>): Option<Shared>
    decreases |steps|
  {
    if steps == [] then Some(c)
    else if Enabled(c, steps[0]) then Perform(Do(c, steps[0]), steps[1..])
    else None
  }

  // ---------------------------------------------------------------- invariant

  function StoredBy(s: Store): State { if s.Forced? then Idle else s.next }

  /** Every phase is coherent and was computed by the automaton. */
  ghost predicate SanePhases(c: Shared) {
    forall t <- c.threads ::
      match c.threads[t]
      case ToWrite(e, seen, next) =>
        Coherent(seen) && Coherent(next) && Transition(seen, e) == Ok(next) && next != seen
      case ToNotify(told, k) => k < |c.done| && c.done[k].Dispatched? && c.done[k].next == told
  }

  ghost predicate SaneHistory(c: Shared) {
    && c.state == (if c.done == [] then Idle else StoredBy(c.done[|c.done| - 1]))
    && (forall s <- c.done :: Coherent(StoredBy(s)))
    && |c.log| == |c.announced|
    && forall k :: 0 <= k < |c.announced| ==> AnnouncesStore(c, k)
  }

  predicate AnnouncesStore(c: Shared, k: nat)
    requires k < |c.announced| && |c.log| == |c.announced|
  {
    c.announced[k] < |c.done| && c.done[c.announced[k]].Dispatched? && c.done[c.announced[k]].next == c.log[k]
  }

  /** The stores that wait to be announced. */
  function Waiting(c: Shared): set<nat> {
    set t | t in c.threads && c.threads[t].ToNotify? :: c.threads[t].ticket
  }

  /** Every dispatched store waits in exactly one thread or has been announced, and only once. */
  ghost predicate Accounted(c: Shared) {
    && (forall i :: 0 <= i < |c.done| && c.done[i].Dispatched? ==> i in c.announced || i in Waiting(c))
    && (forall i <- Waiting(c) :: i !in c.announced && i < |c.done|)
    && (forall t <- c.threads, u <- c.threads ::
          c.threads[t].ToNotify? && c.threads[u].ToNotify? && c.threads[t].ticket == c.threads[u].ticket ==> t == u)
    && (forall i, j :: 0 <= i < j < |c.announced| ==> c.announced[i] != c.announced[j])
  }

  ghost predicate Sane(c: Shared) {
    Coherent(c.state) && SanePhases(c) && SaneHistory(c) && Accounted(c)
  }

  lemma TransitionIsCoherent(s: State, e: Event)
    requires Coherent(s) && Transition(s, e).Ok?
    ensures Coherent(Transition(s, e).state)
  {
  }

  lemma WaitingAfter(c: Shared, a: Step)
    requires Enabled(c, a) && SanePhases(c) && Accounted(c)
    ensures Waiting(Do(c, a)) ==
              (match a
               case Read(_, _) => Waiting(c)
               case Write(_) => Waiting(c) + {|c.done|}
               case Notify(t) => Waiting(c) - {c.threads[t].ticket}
               case ForceIdle => Waiting(c))
  {
    hide Transition, Coherent;
    var d := Do(c, a);
    match a
    case Write(t) =>
      assert d.threads[t].ticket == |c.done|;
      forall k <- Waiting(c) ensures k in Waiting(d) {
        var u :| u in c.threads && c.threads[u].ToNotify? && c.threads[u].ticket == k;
        assert d.threads[u] == c.threads[u];
      }
    case Notify(t) =>
      forall k <- Waiting(c) | k != c.threads[t].ticket ensures k in Waiting(d) {
        var u :| u in c.threads && c.threads[u].ToNotify? && c.threads[u].ticket == k;
        assert d.threads[u] == c.threads[u];
      }
    case Read(t, _) =>
      forall k <- Waiting(c) ensures k in Waiting(d) {
        var u :| u in c.threads && c.threads[u].ToNotify? && c.threads[u].ticket == k;
        assert d.threads[u] == c.threads[u];
      }
    case ForceIdle =>
  }

  lemma DoKeepsPhases(c: Shared, a: Step)
    requires Enabled(c, a) && Coherent(c.state) && SanePhases(c) && SaneHistory(c)
    ensures SanePhases(Do(c, a))
  {
    hide Coherent, Transition, SaneHistory;
    if a.Read? && Transition(c.state, a.event).Ok? { TransitionIsCoherent(c.state, a.event); }
  }

  lemma DoKeepsHistory(c: Shared, a: Step)
    requires Enabled(c, a) && Coherent(c.state) && SanePhases(c) && SaneHistory(c)
    ensures SaneHistory(Do(c, a)) && Coherent(Do(c, a).state)
  {
    hide Coherent, Transition;
    assert Coherent(Idle) by { IdleIsCoherent(); }
    var d := Do(c, a);
    forall k | 0 <= k < |d.announced| ensures AnnouncesStore(d, k) {
      if k < |c.announced| { assert AnnouncesStore(c, k); }
    }
  }

  lemma IdleIsCoherent()
    ensures Coherent(Idle)
  {
  }

  lemma DoKeepsAccounts(c: Shared, a: Step)
    requires Enabled(c, a) && SanePhases(c) && SaneHistory(c) && Accounted(c)
    ensures Accounted(Do(c, a))
  {
    hide Coherent, Transition, Waiting;
    WaitingAfter(c, a);
    if a.Notify? { TicketIsWaiting(c, a.thread); }
    forall k | 0 <= k < |c.announced| ensures c.announced[k] < |c.done| { assert AnnouncesStore(c, k); }
  }

  lemma TicketIsWaiting(c: Shared, t: Thread)
    requires t in c.threads && c.threads[t].ToNotify?
    ensures c.threads[t].ticket in Waiting(c)
  {
  }

  lemma DoKeepsSane(c: Shared, a: Step)
    requires Sane(c) && Enabled(c, a)
    ensures Sane(Do(c, a))
  {
    hide Coherent, SanePhases, SaneHistory, Accounted, Do;
    DoKeepsPhases(c, a);
    DoKeepsHistory(c, a);
    DoKeepsAccounts(c, a);
  }

  lemma StartIsSane()
    ensures Sane(START)
  {
  }

  lemma {:induction false} RunIsSane(c: Shared, steps: seq<Step>)
    requires Sane(c)
    ensures Perform(c, steps).Some? ==> Sane(Perform(c, steps).value)
    decreases |steps|
  {
    hide Sane, Do, Enabled;
    if steps != [] && Enabled(c, steps[0]) {
      DoKeepsSane(c, steps[0]);
      RunIsSane(Do(c, steps[0]), steps[1..]);
    }
  }

  // ---------------------------------------------------------------- what is stored

  /** However many dispatchers and resets overlap, every state ever stored and every state ever
      announced is one that a sequential run from Idle reaches. */
  lemma StoredStatesAreReachable(steps: seq<Step>)
    requires Perform(START, steps).Some?
    ensures var d := Perform(START, steps).value;
            && Reachable(d.state)
            && (forall s <- d.done :: Reachable(StoredBy(s)))
            && (forall s <- d.log :: Reachable(s))
  {
    hide Reachable, Perform, Coherent, SanePhases, Accounted;
    StartIsSane();
    RunIsSane(START, steps);
    var d := Perform(START, steps).value;
    ReachableIffCoherent(d.state);
    forall s <- d.done ensures Reachable(StoredBy(s)) { ReachableIffCoherent(StoredBy(s)); }
    forall s <- d.log ensures Reachable(s) {
      var k :| 0 <= k < |d.log| && d.log[k] == s;
      assert AnnouncesStore(d, k);
      assert StoredBy(d.done[d.announced[k]]) == s;
      ReachableIffCoherent(s);
    }
  }

  /** The same phase of the life of a session, for the purposes of the event `e`. */
  predicate Interchangeable(s: State, t: State, e: Event) {
    match e
    case FatalError(_) => ModeOrClient(s) == ModeOrClient(t)
    case Shutdown => ModeOrClient(s) == ModeOrClient(t)
    case UserStart(_) => t.Idle?
    case EngineReady => t.Preparing? && t.mode == ModeOrClient(s)
    case ProxyConnected(_) => (t.Connecting? || t.Reconnecting?) && t.mode == ModeOrClient(s)
    case NetworkLost => (t.Connecting? || t.Connected?) && t.mode == ModeOrClient(s)
    case ProxyDisconnected(_) => (t.Connecting? || t.Connected?) && t.mode == ModeOrClient(s)
    case UserStop => (t.Connected? || t.Reconnecting?) && t.mode == ModeOrClient(s)
    case EngineStopped => t.Stopping?
    case UserAcknowledge => t.Failed?
    case _ => false
  }

  /** The guard under which a store computed from `seen` may overwrite `now`: the two are
      interchangeable for the event, or the state to be stored is already there. */
  predicate Harmless(seen: State, now: State, e: Event, next: State) {
    Interchangeable(seen, now, e) || now == next
  }

  /** A store computed from `seen` leaves what a sequential dispatch on `now` would leave exactly
      when it is harmless. */
  lemma StoreIsSequentialIff(seen: State, now: State, e: Event, next: State)
    requires Coherent(seen) && Coherent(now)
    requires Transition(seen, e) == Ok(next) && next != seen
    ensures Next(now, e) == next <==> Harmless(seen, now, e, next)
  {
  }

  /** The state a sequential run of the stores' own events leaves. */
  function Replay(done: seq<Store>): State
    decreases |done|
  {
    if done == [] then Idle
    else
      match done[|done| - 1]
      case Forced => Idle
      case Dispatched(e, _) => Next(Replay(done[..|done| - 1]), e)
  }

  /** Every store of the run met the guard when it was made. */
  predicate Guarded(c: Shared, steps: seq<Step>)
    requires Perform(c, steps).Some?
    decreases |steps|
  {
    steps == []
    || (&& (steps[0].Write? ==>
              var w := c.threads[steps[0].thread]; Harmless(w.seen, c.state, w.event, w.next))
        && Guarded(Do(c, steps[0]), steps[1..]))
  }

  /** After every prefix of the run the state is the one a sequential run of the events leaves. */
  predicate SequentialThroughout(c: Shared, steps: seq<Step>)
    requires Perform(c, steps).Some?
  {
    forall k | 0 <= k <= |steps| ::
      && Perform(c, steps[..k]).Some?
      && Perform(c, steps[..k]).value.state == Replay(Perform(c, steps[..k]).value.done)
  }

  /** No update is ever lost exactly when every store was harmless at its own time. */
  lemma NothingLostIff(steps: seq<Step>)
    requires Perform(START, steps).Some?
    ensures SequentialThroughout(START, steps) <==> Guarded(START, steps)
  {
    hide Guarded, SequentialThroughout, Perform;
    StartIsSane();
    SequentialIffGuarded(START, steps);
  }

  lemma {:induction false} SequentialIffGuarded(c: Shared, steps: seq<Step>)
    requires Sane(c) && c.state == Replay(c.done) && Perform(c, steps).Some?
    ensures SequentialThroughout(c, steps) <==> Guarded(c, steps)
    decreases |steps|
  {
    hide Sane, Do, Enabled, Harmless, Replay, SequentialThroughout;
    ThroughoutUnfolds(c, steps);
    if steps != [] {
      var d := Do(c, steps[0]);
      DoKeepsSane(c, steps[0]);
      StepIsSequentialIff(c, steps[0]);
      if d.state == Replay(d.done) {
        SequentialIffGuarded(d, steps[1..]);
      } else {
        ThroughoutUnfolds(d, steps[1..]);
      }
    }
  }

  lemma StepIsSequentialIff(c: Shared, a: Step)
    requires Sane(c) && c.state == Replay(c.done) && Enabled(c, a)
    ensures Do(c, a).state == Replay(Do(c, a).done)
        <==> (a.Write? ==> var w := c.threads[a.thread]; Harmless(w.seen, c.state, w.event, w.next))
  {
    hide Coherent, Transition, Harmless, SaneHistory, Accounted;
    var d := Do(c, a);
    if a.Write? || a.ForceIdle? { assert d.done[..|d.done| - 1] == c.done; }
    if a.Write? {
      var w := c.threads[a.thread];
      StoreIsSequentialIff(w.seen, c.state, w.event, w.next);
    }
  }

  lemma ThroughoutUnfolds(c: Shared, steps: seq<Step>)
    requires Perform(c, steps).Some?
    ensures SequentialThroughout(c, steps)
        <==> c.state == Replay(c.done) && (steps == [] || SequentialThroughout(Do(c, steps[0]), steps[1..]))
  {
    hide Do, Replay, Enabled;
    assert Perform(c, steps[..0]) == Some(c);
    if steps != [] {
      var d, rest := Do(c, steps[0]), steps[1..];
      forall k | 0 <= k <= |rest| ensures Perform(c, steps[..k + 1]) == Perform(d, rest[..k]) {
        assert steps[..k + 1][1..] == rest[..k];
      }
      if SequentialThroughout(d, rest) && c.state == Replay(c.done) {
        forall k | 0 <= k <= |steps|
          ensures Perform(c, steps[..k]).Some?
          ensures Perform(c, steps[..k]).value.state == Replay(Perform(c, steps[..k]).value.done)
        {
          if k > 0 { assert Perform(c, steps[..k - 1 + 1]) == Perform(d, rest[..k - 1]); }
        }
      }
      if SequentialThroughout(c, steps) {
        forall k | 0 <= k <= |rest|
          ensures Perform(d, rest[..k]).Some?
          ensures Perform(d, rest[..k]).value.state == Replay(Perform(d, rest[..k]).value.done)
        {
          assert Perform(c, steps[..k + 1]).Some?;
        }
      }
    }
  }

  // ---------------------------------------------------------------- what is announced

  /** The listener has heard something, and the last it heard is the current state. */
  predicate Informed(c: Shared) { c.log != [] && c.log[|c.log| - 1] == c.state }

  /** An announcement settles whether the state it tells of is still the current one. */
  predicate Tells(c: Shared, a: Step, ok: bool)
    requires Enabled(c, a)
  {
    if a.Notify? then c.threads[a.thread].told == c.state else ok
  }

  /** Whether the last announcement of the run was made while the state it told of was still the
      current one; `ok` is the answer for what went before. */
  predicate ToldCurrentLast(c: Shared, steps: seq<Step>, ok: bool)
    requires Perform(c, steps).Some?
    decreases |steps|
  {
    if steps == [] then ok else ToldCurrentLast(Do(c, steps[0]), steps[1..], Tells(c, steps[0], ok))
  }

  /** Nobody waits to announce, and the last store was a dispatched one. */
  predicate AllAnnounced(c: Shared) {
    Waiting(c) == {} && c.done != [] && c.done[|c.done| - 1].Dispatched?
  }

  lemma {:induction false} ToldCurrentLastIff(c: Shared, steps: seq<Step>, ok: bool)
    requires Sane(c) && Perform(c, steps).Some?
    requires AllAnnounced(c) ==> (ok <==> Informed(c))
    ensures var d := Perform(c, steps).value;
            AllAnnounced(d) ==> (ToldCurrentLast(c, steps, ok) <==> Informed(d))
    decreases |steps|
  {
    hide Sane, Do, Enabled, AllAnnounced, Informed, Tells;
    if steps != [] {
      DoKeepsSane(c, steps[0]);
      AnnouncedAfter(c, steps[0], ok);
      ToldCurrentLastIff(Do(c, steps[0]), steps[1..], Tells(c, steps[0], ok));
    }
  }

  lemma AnnouncedAfter(c: Shared, a: Step, ok: bool)
    requires Sane(c) && Enabled(c, a) && (AllAnnounced(c) ==> (ok <==> Informed(c)))
    ensures AllAnnounced(Do(c, a)) ==> (Tells(c, a, ok) <==> Informed(Do(c, a)))
  {
    hide Coherent, Transition, Waiting, Accounted;
    SaneParts(c);
    WaitingAfter(c, a);
    assert a.Write? ==> |c.done| in Waiting(Do(c, a));
  }

  /** At rest after a dispatched store, the last announced state is the current one exactly when the
      last announcement was made while the state it told of was still the current one. */
  lemma LastAnnouncedIsCurrentIff(steps: seq<Step>)
    requires Perform(START, steps).Some?
    requires var d := Perform(START, steps).value;
             d.threads == map[] && d.done != [] && d.done[|d.done| - 1].Dispatched?
    ensures Informed(Perform(START, steps).value) <==> ToldCurrentLast(START, steps, false)
  {
    hide Perform, ToldCurrentLast;
    StartIsSane();
    ToldCurrentLastIff(START, steps, false);
  }

  /** The same with the silent reset taken into account: after it the listener is right only if Idle
      is what it heard last. */
  predicate Leaves(c: Shared, a: Step, ok: bool)
    requires Enabled(c, a)
  {
    if a.ForceIdle? then c.log != [] && c.log[|c.log| - 1].Idle? else Tells(c, a, ok)
  }

  predicate ToldCurrent(c: Shared, steps: seq<Step>, ok: bool)
    requires Perform(c, steps).Some?
    decreases |steps|
  {
    if steps == [] then ok else ToldCurrent(Do(c, steps[0]), steps[1..], Leaves(c, steps[0], ok))
  }

  lemma {:induction false} ToldCurrentIff(c: Shared, steps: seq<Step>, ok: bool)
    requires Sane(c) && Perform(c, steps).Some?
    requires Waiting(c) == {} ==> (ok <==> Informed(c))
    ensures var d := Perform(c, steps).value;
            Waiting(d) == {} ==> (ToldCurrent(c, steps, ok) <==> Informed(d))
    decreases |steps|
  {
    hide Sane, Do, Enabled, Waiting, Informed, Leaves;
    if steps != [] {
      DoKeepsSane(c, steps[0]);
      InformedAfter(c, steps[0], ok);
      ToldCurrentIff(Do(c, steps[0]), steps[1..], Leaves(c, steps[0], ok));
    }
  }

  lemma InformedAfter(c: Shared, a: Step, ok: bool)
    requires Sane(c) && Enabled(c, a) && (Waiting(c) == {} ==> (ok <==> Informed(c)))
    ensures Waiting(Do(c, a)) == {} ==> (Leaves(c, a, ok) <==> Informed(Do(c, a)))
  {
    hide Coherent, Transition, Waiting, Accounted;
    SaneParts(c);
    WaitingAfter(c, a);
    assert a.Write? ==> |c.done| in Waiting(Do(c, a));
  }

  /** At rest after any run, resets included: a listener that has heard nothing has missed nothing but
      resets, for the state is Idle; otherwise the last it heard is the current state exactly when the
      last announcement told of the state current then and every later reset found Idle heard last. */
  lemma ListenerIsRightIff(steps: seq<Step>)
    requires Perform(START, steps).Some? && Perform(START, steps).value.threads == map[]
    ensures var d := Perform(START, steps).value;
            && (Informed(d) <==> ToldCurrent(START, steps, false))
            && (d.log == [] ==> d.state == Idle)
  {
    hide Perform, ToldCurrent, Coherent, SanePhases;
    StartIsSane();
    RunIsSane(START, steps);
    ToldCurrentIff(START, steps, false);
    var d := Perform(START, steps).value;
    assert Waiting(d) == {};
    if d.log == [] && d.done != [] {
      var k := |d.done| - 1;
      assert d.done[k].Dispatched? ==> k in d.announced;
    }
  }

  predicate Increasing(s: seq<nat>) { forall i, j :: 0 <= i < j < |s| ==> s[i] < s[j] }

  /** Every announcement was made for the oldest store that waited. */
  predicate OldestFirst(c: Shared, steps: seq<Step>)
    requires Perform(c, steps).Some?
    decreases |steps|
  {
    steps == []
    || (&& (steps[0].Notify? ==> forall k <- Waiting(c) :: c.threads[steps[0].thread].ticket <= k)
        && OldestFirst(Do(c, steps[0]), steps[1..]))
  }

  /** Announced so far in the order of the stores, with nothing older left waiting. */
  predicate InOrder(c: Shared) {
    && Increasing(c.announced)
    && (c.announced != [] ==> forall k <- Waiting(c) :: c.announced[|c.announced| - 1] < k)
  }

  lemma StepInOrderIff(c: Shared, a: Step)
    requires Sane(c) && Enabled(c, a)
    ensures InOrder(Do(c, a))
        <==> InOrder(c) && (a.Notify? ==> forall k <- Waiting(c) :: c.threads[a.thread].ticket <= k)
  {
    hide Coherent, Transition, Waiting, SanePhases;
    assert SanePhases(c);
    WaitingAfter(c, a);
    forall k | 0 <= k < |c.announced| ensures c.announced[k] < |c.done| { assert AnnouncesStore(c, k); }
    if a.Notify? {
      TicketIsWaiting(c, a.thread);
      NotifyInOrderIff(c, a.thread);
    }
  }

  lemma NotifyInOrderIff(c: Shared, t: Thread)
    requires Sane(c) && Enabled(c, Notify(t))
    requires Waiting(Do(c, Notify(t))) == Waiting(c) - {c.threads[t].ticket}
    requires c.threads[t].ticket in Waiting(c)
    ensures InOrder(Do(c, Notify(t)))
        <==> InOrder(c) && forall k <- Waiting(c) :: c.threads[t].ticket <= k
  {
    hide Coherent, Waiting, SanePhases, SaneHistory;
    var x, n := c.threads[t].ticket, |c.announced|;
    var d := Do(c, Notify(t));
    assert d.announced == c.announced + [x];
    if InOrder(d) {
      forall i, j | 0 <= i < j < n ensures c.announced[i] < c.announced[j] {
        assert d.announced[i] < d.announced[j];
      }
      assert n > 0 ==> d.announced[n - 1] < d.announced[n];
      forall k <- Waiting(c) ensures x <= k && (n > 0 ==> c.announced[n - 1] < k) {
        if k != x { assert k in Waiting(d); }
      }
    }
  }

  lemma {:induction false} InOrderIff(c: Shared, steps: seq<Step>)
    requires Sane(c) && Perform(c, steps).Some?
    ensures InOrder(Perform(c, steps).value) <==> InOrder(c) && OldestFirst(c, steps)
    decreases |steps|
  {
    hide Sane, Do, Enabled, InOrder, Waiting;
    if steps != [] {
      StepInOrderIff(c, steps[0]);
      DoKeepsSane(c, steps[0]);
      InOrderIff(Do(c, steps[0]), steps[1..]);
    }
  }

  /** The dispatched stores' tickets and states, in the order they were made. */
  function Tickets(done: seq<Store>): seq<nat>
    decreases |done|
  {
    if done == [] then []
    else
      Tickets(done[..|done| - 1]) + if done[|done| - 1].Forced? then [] else [|done| - 1]
  }

  function DispatchedStates(done: seq<Store>): seq<State>
    decreases |done|
  {
    if done == [] then []
    else
      DispatchedStates(done[..|done| - 1])
      + if done[|done| - 1].Forced? then [] else [done[|done| - 1].next]
  }

  lemma {:induction false} TicketsContain(done: seq<Store>, i: nat)
    ensures i in Tickets(done) <==> i < |done| && done[i].Dispatched?
    decreases |done|
  {
    if done != [] { TicketsContain(done[..|done| - 1], i); }
  }

  lemma {:induction false} TicketsIncrease(done: seq<Store>)
    ensures Increasing(Tickets(done))
    decreases |done|
  {
    if done != [] {
      var init := done[..|done| - 1];
      TicketsIncrease(init);
      forall k | 0 <= k < |Tickets(init)| ensures Tickets(init)[k] < |init| {
        TicketsContain(init, Tickets(init)[k]);
      }
    }
  }

  lemma {:induction false} TicketsName(done: seq<Store>, k: nat)
    requires k < |Tickets(done)|
    ensures |Tickets(done)| == |DispatchedStates(done)|
    ensures Tickets(done)[k] < |done| && StoredBy(done[Tickets(done)[k]]) == DispatchedStates(done)[k]
    decreases |done|
  {
    var init := done[..|done| - 1];
    SameLength(init);
    if k < |Tickets(init)| { TicketsName(init, k); }
  }

  lemma {:induction false} SameLength(done: seq<Store>)
    ensures |Tickets(done)| == |DispatchedStates(done)|
    decreases |done|
  {
    if done != [] { SameLength(done[..|done| - 1]); }
  }

  lemma EmptyIff(s: seq<nat>)
    ensures s == [] <==> forall x :: x !in s
  {
    if s != [] { assert s[0] in s; }
  }

  lemma {:induction false} IncreasingIsUnique(a: seq<nat>, b: seq<nat>)
    requires Increasing(a) && Increasing(b) && forall x :: x in a <==> x in b
    ensures a == b
    decreases |a|
  {
    EmptyIff(a);
    EmptyIff(b);
    if a != [] {
      var m, n := |a| - 1, |b| - 1;
      assert a[m] in b;
      assert b[n] in a;
      assert a[m] == b[n];
      forall x ensures x in a[..m] <==> x in b[..n] {
        if x in a[..m] { assert x in b && x != b[n]; }
        if x in b[..n] { assert x in a && x != a[m]; }
      }
      IncreasingIsUnique(a[..m], b[..n]);
    }
  }

  /** At rest the stores were announced in the order they were made, each once, exactly when every
      announcement was made for the oldest store waiting; and then the log is the history of
      dispatched states. */
  lemma AnnouncedInOrderIff(steps: seq<Step>)
    requires Perform(START, steps).Some? && Perform(START, steps).value.threads == map[]
    ensures var d := Perform(START, steps).value;
            && (d.announced == Tickets(d.done) <==> OldestFirst(START, steps))
            && (OldestFirst(START, steps) ==> d.log == DispatchedStates(d.done))
  {
    hide Perform, OldestFirst, Coherent, SanePhases;
    StartIsSane();
    RunIsSane(START, steps);
    InOrderIff(START, steps);
    var d := Perform(START, steps).value;
    TicketsIncrease(d.done);
    assert Waiting(d) == {};
    forall x: nat ensures x in d.announced <==> x in Tickets(d.done) {
      TicketsContain(d.done, x);
      if x in d.announced {
        var k :| 0 <= k < |d.announced| && d.announced[k] == x;
        assert AnnouncesStore(d, k);
      }
    }
    if OldestFirst(START, steps) {
      IncreasingIsUnique(d.announced, Tickets(d.done));
      SameLength(d.done);
      forall k | 0 <= k < |d.log| ensures d.log[k] == DispatchedStates(d.done)[k] {
        assert AnnouncesStore(d, k);
        TicketsName(d.done, k);
      }
    }
  }

  /** What a caller can arrange: nobody stores while an announcement is still to be made. */
  predicate Undisturbed(c: Shared, steps: seq<Step>)
    requires Perform(c, steps).Some?
    decreases |steps|
  {
    steps == []
    || ((steps[0].Write? ==> Waiting(c) == {}) && Undisturbed(Do(c, steps[0]), steps[1..]))
  }

  lemma {:induction false} UndisturbedIsOldestFirst(c: Shared, steps: seq<Step>)
    requires Sane(c) && Perform(c, steps).Some? && Undisturbed(c, steps)
    requires forall i <- Waiting(c), j <- Waiting(c) :: i == j
    ensures OldestFirst(c, steps)
    decreases |steps|
  {
    hide Sane, Do, Waiting;
    if steps != [] {
      DoKeepsSane(c, steps[0]);
      assert SanePhases(c) && Accounted(c) by { SaneParts(c); }
      WaitingAfter(c, steps[0]);
      if steps[0].Notify? { TicketIsWaiting(c, steps[0].thread); }
      UndisturbedIsOldestFirst(Do(c, steps[0]), steps[1..]);
    }
  }

  lemma SaneParts(c: Shared)
    requires Sane(c)
    ensures SanePhases(c) && Accounted(c)
  {
  }

  /** If no store is made while another call has still to announce its own, then at rest the log is
      exactly the sequence of dispatched stores. */
  lemma UndisturbedLogIsHistory(steps: seq<Step>)
    requires Perform(START, steps).Some? && Perform(START, steps).value.threads == map[]
    requires Undisturbed(START, steps)
    ensures var d := Perform(START, steps).value; d.log == DispatchedStates(d.done)
  {
    hide Perform, OldestFirst, Undisturbed;
    StartIsSane();
    assert Waiting(START) == {};
    UndisturbedIsOldestFirst(START, steps);
    AnnouncedInOrderIff(steps);
  }

  // ---------------------------------------------------------------- runs written out

  lemma FirstStep(c: Shared, a: Step, rest: seq<Step>)
    requires Enabled(c, a)
    ensures Perform(c, [a] + rest) == Perform(Do(c, a), rest)
  {
    assert ([a] + rest)[1..] == rest;
  }

  lemma Nothing(c: Shared)
    ensures Perform(c, []) == Some(c)
  {
  }

  /** The steps of a call that nobody disturbs; one that changes nothing ends at its read. */
  function Solo(c: Shared, t: Thread, e: Event): seq<Step> {
    if Next(c.state, e) == c.state then [Read(t, e)] + [] else [Read(t, e)] + ([Write(t)] + ([Notify(t)] + []))
  }

  /** Undisturbed, the separate steps are the sequential `dispatch`. */
  lemma SoloIsDispatch(c: Shared, t: Thread, e: Event)
    requires t !in c.threads
    ensures var d := Perform(c, Solo(c, t, e));
            && d.Some? && d.value.threads == c.threads
            && Dispatch.DispatchTo(Dispatch.Cell(c.state, [c.log]), e) == Dispatch.Cell(d.value.state, [d.value.log])
  {
    hide Perform, Transition;
    if Next(c.state, e) == c.state {
      FirstStep(c, Read(t, e), []);
      Nothing(c);
    } else {
      FirstStep(c, Read(t, e), [Write(t)] + ([Notify(t)] + []));
      var c1 := Do(c, Read(t, e));
      FirstStep(c1, Write(t), [Notify(t)] + []);
      var c2 := Do(c1, Write(t));
      FirstStep(c2, Notify(t), []);
      var c3 := Do(c2, Notify(t));
      Nothing(c3);
      assert c3.threads == c.threads;
      assert Dispatch.Told([c.log], c3.state) == [c3.log];
    }
  }

  /** Two start tasks read; the first reports its connection; the user stops; the second reports. */
  function StopRace(a: Thread, b: Thread, u: Thread, p: SocketAddr, q: SocketAddr): seq<Step> {
    [Read(a, ProxyConnected(p))] + ([Read(b, ProxyConnected(q))] + ([Write(a)] + ([Notify(a)]
    + ([Read(u, UserStop)] + ([Write(u)] + ([Notify(u)] + ([Write(b)] + ([Notify(b)] + []))))))))
  }

  /** A lost update, open in every Connecting state with the events the engine sends: when two start
      tasks are under way, the user's stop is accepted, stored and announced, and then overwritten
      by the second task's connection, which was computed before it. */
  lemma StopCanBeLost(c: Shared, a: Thread, b: Thread, u: Thread, p: SocketAddr, q: SocketAddr)
    requires c.state.Connecting? && a != b && a != u && b != u
    requires a !in c.threads && b !in c.threads && u !in c.threads
    ensures var m := c.state.mode;
            var stop := Stopping(m, UserRequest);
            var d := Perform(c, StopRace(a, b, u, p, q));
            && d.Some? && d.value.threads == c.threads
            && d.value.done == c.done + [Dispatched(ProxyConnected(p), Connected(m, p)),
                                         Dispatched(UserStop, stop),
                                         Dispatched(ProxyConnected(q), Connected(m, q))]
            && d.value.log == c.log + [Connected(m, p), stop, Connected(m, q)]
            && d.value.state == Connected(m, q) && Next(stop, ProxyConnected(q)) == stop
  {
    hide Perform;
    var s8 := [Notify(b)] + [];
    var s7 := [Write(b)] + s8;
    var s6 := [Notify(u)] + s7;
    var s5 := [Write(u)] + s6;
    var s4 := [Read(u, UserStop)] + s5;
    var s3 := [Notify(a)] + s4;
    var s2 := [Write(a)] + s3;
    FirstStep(c, Read(a, ProxyConnected(p)), [Read(b, ProxyConnected(q))] + s2);
    var c1 := Do(c, Read(a, ProxyConnected(p)));
    FirstStep(c1, Read(b, ProxyConnected(q)), s2);
    var c2 := Do(c1, Read(b, ProxyConnected(q)));
    FirstStep(c2, Write(a), s3);
    var c3 := Do(c2, Write(a));
    FirstStep(c3, Notify(a), s4);
    var c4 := Do(c3, Notify(a));
    FirstStep(c4, Read(u, UserStop), s5);
    var c5 := Do(c4, Read(u, UserStop));
    FirstStep(c5, Write(u), s6);
    var c6 := Do(c5, Write(u));
    FirstStep(c6, Notify(u), s7);
    var c7 := Do(c6, Notify(u));
    FirstStep(c7, Write(b), s8);
    var c8 := Do(c7, Write(b));
    FirstStep(c8, Notify(b), []);
    var c9 := Do(c8, Notify(b));
    Nothing(c9);
    assert c9.threads == c.threads;
  }

  /** The user stops a connection before its task has announced it. */
  function MisleadingRun(a: Thread, u: Thread, p: SocketAddr): seq<Step> {
    [Read(a, ProxyConnected(p))] + ([Write(a)] + ([Read(u, UserStop)] + ([Write(u)]
    + ([Notify(u)] + ([Notify(a)] + [])))))
  }

  /** Announcements are not ordered with stores: from every Connecting state, with the events the
      engine sends, the last state a listener hears of can be Connected although the session is
      already stopping. */
  lemma ListenerCanBeMisled(c: Shared, a: Thread, u: Thread, p: SocketAddr)
    requires c.state.Connecting? && a != u && a !in c.threads && u !in c.threads
    ensures var m := c.state.mode;
            var d := Perform(c, MisleadingRun(a, u, p));
            && d.Some? && d.value.threads == c.threads
            && d.value.log == c.log + [Stopping(m, UserRequest), Connected(m, p)]
            && d.value.state == Stopping(m, UserRequest) && !Informed(d.value)
  {
    hide Perform;
    var s5 := [Notify(a)] + [];
    var s4 := [Notify(u)] + s5;
    var s3 := [Write(u)] + s4;
    var s2 := [Read(u, UserStop)] + s3;
    FirstStep(c, Read(a, ProxyConnected(p)), [Write(a)] + s2);
    var c1 := Do(c, Read(a, ProxyConnected(p)));
    FirstStep(c1, Write(a), s2);
    var c2 := Do(c1, Write(a));
    FirstStep(c2, Read(u, UserStop), s3);
    var c3 := Do(c2, Read(u, UserStop));
    FirstStep(c3, Write(u), s4);
    var c4 := Do(c3, Write(u));
    FirstStep(c4, Notify(u), s5);
    var c5 := Do(c4, Notify(u));
    FirstStep(c5, Notify(a), []);
    var c6 := Do(c5, Notify(a));
    Nothing(c6);
    assert c6.threads == c.threads;
  }
}
