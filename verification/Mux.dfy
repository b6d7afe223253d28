/** The udpgw association table under interleaved callers (gravital-udpgw, mux.rs).

    `allocate_id` is two atomic steps: a wrapping fetch-and-add, then an insert under a lock. */
module Mux {
  import opened Bytes

  const IDS := 0x1_0000_0000

  /** One call of `allocate_id`: its client, and whether its insert has been made. */
  datatype Ticket = Ticket(addr: SocketAddr, inserted: bool)

  /** `tickets` (one per call, in the order of their fetch-and-adds), `owner` (the call whose insert
      an entry comes from) and the counters are history. */
  datatype State = State(
    nextId: u32, associations: map<u32, SocketAddr>,
    tickets: seq<Ticket>, owner: map<u32, nat>, inserts: nat, overwrites: nat, effectiveReleases: nat)

  const START := State(1, map[], [], map[], 0, 0, 0)

  /** The identifier the `k`-th fetch-and-add returns. */
  function Id(k: nat): u32 { (k + 1) % IDS }

  datatype Step =
    | FetchAdd(addr: SocketAddr)
    | Insert(ticket: nat)
    | Release(id: u32)

  predicate Enabled(m: State, a: Step) {
    a.Insert? ==> a.ticket < |m.tickets| && !m.tickets[a.ticket].inserted
  }

  function Do(m: State, a: Step): State
    requires Enabled(m, a)
  {
    match a
    case FetchAdd(addr) =>
      m.(nextId := (m.nextId + 1) % IDS, tickets := m.tickets + [Ticket(addr, false)])
    case Insert(k) =>
      m.(associations := m.associations[Id(k) := m.tickets[k].addr],
         tickets := m.tickets[k := m.tickets[k].(inserted := true)],
         owner := m.owner[Id(k) := k],
         inserts := m.inserts + 1,
         overwrites := m.overwrites + if Id(k) in m.associations then 1 else 0)
    case Release(id) =>
      m.(associations := m.associations - {id},
         owner := m.owner - {id},
         effectiveReleases := m.effectiveReleases + if id in m.associations then 1 else 0)
  }

  function Perform(m: State, steps: seq<Step>): Option<State>
    decreases |steps|
  {
    if steps == [] then Some(m)
    else if Enabled(m, steps[0]) then Perform(Do(m, steps[0]), steps[1..])
    else None
  }

  /** Two calls get the same identifier exactly when their fetch-and-adds are a multiple of
      2^32 apart, so the first 2^32 identifiers are pairwise distinct and the next one is not. */
  lemma SameIdIff(j: nat, k: nat)
    ensures Id(j) == Id(k) <==> (j - k) % 0x1_0000_0000 == 0
  {
    var a, b := (j + 1) / IDS, (k + 1) / IDS;
    assert j - k == IDS * (a - b) + (Id(j) - Id(k));
  }

  /** The call's association is in the table. */
  predicate Live(m: State, k: nat) { Id(k) in m.owner && m.owner[Id(k)] == k }

  /** Every entry is the own address of the completed call that made it. */
  ghost predicate Owned(m: State) {
    && m.owner.Keys == m.associations.Keys
    && forall id <- m.owner ::
         && m.owner[id] < |m.tickets| && m.tickets[m.owner[id]].inserted
         && Id(m.owner[id]) == id && m.associations[id] == m.tickets[m.owner[id]].addr
  }

  ghost predicate Inv(m: State) {
    && m.nextId == Id(|m.tickets|) && Owned(m)
    && |m.associations| + m.effectiveReleases + m.overwrites == m.inserts
  }

  lemma NextId(k: nat)
    ensures (Id(k) + 1) % IDS == Id(k + 1)
  {
  }

  lemma NextIs(m: State)
    requires Inv(m)
    ensures m.nextId == Id(|m.tickets|)
  {
  }

  lemma FetchAddKeeps(m: State, addr: SocketAddr)
    requires Inv(m)
    ensures Inv(Do(m, FetchAdd(addr)))
  {
    hide Id;
    NextId(|m.tickets|);
  }

  lemma InsertKeeps(m: State, k: nat)
    requires Inv(m) && Enabled(m, Insert(k))
    ensures Inv(Do(m, Insert(k)))
  {
    hide Id;
    UpdateSize(m.associations, Id(k), m.tickets[k].addr);
    var d := Do(m, Insert(k));
    forall id <- d.owner
      ensures d.owner[id] < |d.tickets| && d.tickets[d.owner[id]].inserted
      ensures Id(d.owner[id]) == id && d.associations[id] == d.tickets[d.owner[id]].addr
    {
      if id != Id(k) { assert d.owner[id] == m.owner[id]; }
    }
  }

  lemma ReleaseKeeps(m: State, id: u32)
    requires Inv(m)
    ensures Inv(Do(m, Release(id)))
  {
    hide Id, Owned;
    RemovalSize(m.associations, id);
    ReleaseKeepsOwned(m, id);
  }

  lemma ReleaseKeepsOwned(m: State, id: u32)
    requires Owned(m)
    ensures Owned(Do(m, Release(id)))
  {
    hide Id;
    var d := Do(m, Release(id));
    forall i <- d.owner
      ensures d.owner[i] < |d.tickets| && d.tickets[d.owner[i]].inserted
      ensures Id(d.owner[i]) == i && d.associations[i] == d.tickets[d.owner[i]].addr
    {
      assert i in m.owner && d.owner[i] == m.owner[i];
    }
  }

  lemma DoKeeps(m: State, a: Step)
    requires Inv(m) && Enabled(m, a)
    ensures Inv(Do(m, a))
  {
    hide Inv, Do;
    match a
    case FetchAdd(addr) => FetchAddKeeps(m, addr);
    case Insert(k) => InsertKeeps(m, k);
    case Release(id) => ReleaseKeeps(m, id);
  }

  lemma RemovalSize(m: map<u32, SocketAddr>, id: u32)
    ensures |m - {id}| == |m| - if id in m then 1 else 0
  {
    assert (m - {id}).Keys == m.Keys - {id};
  }

  lemma UpdateSize(m: map<u32, SocketAddr>, id: u32, addr: SocketAddr)
    ensures |m[id := addr]| == |m| + if id in m then 0 else 1
  {
    assert m[id := addr].Keys == m.Keys + {id};
  }

  /** In every interleaving of any number of allocations and releases each entry of the table is the
      own address of the call that made it, and the table's size is the inserts minus the releases
      that removed something and the inserts that overwrote something. */
  lemma {:induction false} RunKeeps(m: State, steps: seq<Step>)
    requires Inv(m) && Perform(m, steps).Some?
    ensures Inv(Perform(m, steps).value)
    decreases |steps|
  {
    hide Inv, Do, Enabled;
    if steps != [] {
      DoKeeps(m, steps[0]);
      RunKeeps(Do(m, steps[0]), steps[1..]);
    }
  }

  /** An insert overwrites an association exactly when one is live whose allocation lies a non-zero
      multiple of 2^32 away. */
  lemma InsertOverwritesIff(m: State, k: nat)
    requires Inv(m) && Enabled(m, Insert(k))
    ensures Do(m, Insert(k)).overwrites > m.overwrites
        <==> exists j: nat :: Live(m, j) && j != k && (j - k) % 0x1_0000_0000 == 0
  {
    hide Id;
    if Id(k) in m.owner {
      var j := m.owner[Id(k)];
      SameIdIff(j, k);
      assert Live(m, j);
    }
    forall j: nat | Live(m, j) && (j - k) % IDS == 0 ensures Id(k) in m.owner { SameIdIff(j, k); }
  }

  /** The first `n` allocations of one client, one after the other. */
  function Calls(addr: SocketAddr, n: nat): seq<Step> {
    if n == 0 then [] else Calls(addr, n - 1) + [FetchAdd(addr), Insert(n - 1)]
  }

  lemma {:induction false} PerformAppend(m: State, a: seq<Step>, b: seq<Step>)
    requires Perform(m, a).Some?
    ensures Perform(m, a + b) == Perform(Perform(m, a).value, b)
    decreases |a|
  {
    hide Do, Enabled;
    if a == [] {
      assert a + b == b;
    } else {
      assert (a + b)[1..] == a[1..] + b;
      PerformAppend(Do(m, a[0]), a[1..], b);
    }
  }

  /** Where two steps lead. */
  lemma TwoSteps(m: State, a: Step, b: Step)
    requires Enabled(m, a) && Enabled(Do(m, a), b)
    ensures Perform(m, [a, b]) == Some(Do(Do(m, a), b))
  {
    hide Do, Enabled;
    assert [a, b][1..] == [b] && [b][1..] == [];
    assert Perform(Do(Do(m, a), b), []) == Some(Do(Do(m, a), b));
  }

  lemma {:induction false} CallsRun(addr: SocketAddr, n: nat)
    ensures var m := Perform(START, Calls(addr, n));
            && m.Some? && Inv(m.value) && |m.value.tickets| == n
            && (n > 0 ==> Id(0) in m.value.associations)
  {
    hide Id;
    if n == 0 {
      StartHolds();
    } else {
      CallsRun(addr, n - 1);
      var m := Perform(START, Calls(addr, n - 1)).value;
      CallOnce(m, addr);
      PerformAppend(START, Calls(addr, n - 1), [FetchAdd(addr), Insert(n - 1)]);
    }
  }

  lemma StartHolds()
    ensures Inv(START) && Perform(START, []) == Some(START)
  {
  }

  lemma CallOnce(m: State, addr: SocketAddr)
    requires Inv(m)
    ensures var n := |m.tickets|;
            var d := Perform(m, [FetchAdd(addr), Insert(n)]);
            && d.Some? && Inv(d.value) && |d.value.tickets| == n + 1
            && d.value.associations.Keys == m.associations.Keys + {Id(n)}
            && d.value.overwrites == m.overwrites + if Id(n) in m.associations then 1 else 0
  {
    hide Id, Inv, Perform;
    var n := |m.tickets|;
    DoKeeps(m, FetchAdd(addr));
    DoKeeps(Do(m, FetchAdd(addr)), Insert(n));
    TwoSteps(m, FetchAdd(addr), Insert(n));
  }

  lemma CallsStep(addr: SocketAddr, n: nat)
    ensures Calls(addr, n + 1) == Calls(addr, n) + [FetchAdd(addr), Insert(n)]
  {
  }

  /** One more call after any multiple of 2^32 overwrites the first association. */
  lemma CallAfterWrap(addr: SocketAddr, n: nat)
    requires n > 0 && (0 - n) % IDS == 0
    ensures var m := Perform(START, Calls(addr, n + 1));
            m.Some? && Inv(m.value) && m.value.overwrites > 0
  {
    hide Id, Perform, Calls, Inv;
    CallsRun(addr, n);
    var m := Perform(START, Calls(addr, n)).value;
    SameIdIff(0, n);
    CallOnce(m, addr);
    CallsStep(addr, n);
    PerformAppend(START, Calls(addr, n), [FetchAdd(addr), Insert(n)]);
  }

  /** The wrap-around is reached: a client that allocates 2^32 + 1 times and releases nothing
      overwrites its own first association, and the active count falls behind. */
  lemma WrapOverwrites(addr: SocketAddr)
    ensures var m := Perform(START, Calls(addr, 0x1_0000_0000 + 1));
            m.Some? && m.value.overwrites > 0 && |m.value.associations| < m.value.inserts
  {
    hide Perform, Calls, Owned;
    CallAfterWrap(addr, IDS);
  }

  /** Up to 2^32 allocations nothing is overwritten. */
  lemma {:induction false} NoOverwritesBeforeWrap(m: State, steps: seq<Step>)
    requires Inv(m) && m.overwrites == 0 && Perform(m, steps).Some?
    requires |Perform(m, steps).value.tickets| <= IDS
    ensures Perform(m, steps).value.overwrites == 0
    decreases |steps|
  {
    hide Inv, Do;
    if steps != [] {
      DoKeeps(m, steps[0]);
      TicketsGrow(Do(m, steps[0]), steps[1..]);
      StepOverwritesNothing(m, steps[0]);
      NoOverwritesBeforeWrap(Do(m, steps[0]), steps[1..]);
    }
  }

  lemma StepOverwritesNothing(m: State, a: Step)
    requires Inv(m) && Enabled(m, a) && |Do(m, a).tickets| <= IDS
    ensures Do(m, a).overwrites == m.overwrites
  {
    hide Id;
    if a.Insert? && Id(a.ticket) in m.associations {
      SameIdIff(m.owner[Id(a.ticket)], a.ticket);
      assert false;
    }
  }

  lemma {:induction false} TicketsGrow(m: State, steps: seq<Step>)
    requires Perform(m, steps).Some?
    ensures |m.tickets| <= |Perform(m, steps).value.tickets|
    decreases |steps|
  {
    if steps != [] { TicketsGrow(Do(m, steps[0]), steps[1..]); }
  }

  /** The active count is the completed inserts minus the effective releases and the overwrites, and
      up to 2^32 allocations there are no overwrites. */
  lemma ActiveCountIsConserved(steps: seq<Step>)
    requires Perform(START, steps).Some?
    ensures var m := Perform(START, steps).value;
            && |m.associations| == m.inserts - m.effectiveReleases - m.overwrites
            && (|m.tickets| <= 0x1_0000_0000 ==> m.overwrites == 0)
  {
    hide Perform;
    RunKeeps(START, steps);
    if |Perform(START, steps).value.tickets| <= IDS { NoOverwritesBeforeWrap(START, steps); }
  }

  /** The step takes call `k`'s association away: its identifier is released, or inserted again by a
      call a non-zero multiple of 2^32 away. */
  predicate Displaces(a: Step, k: nat) {
    a == Release(Id(k)) || (a.Insert? && a.ticket != k && (a.ticket - k) % 0x1_0000_0000 == 0)
  }

  /** A live association stays live, and is found with its own address, through any step of any
      caller, exactly unless that step displaces it. */
  lemma StaysLiveIff(m: State, a: Step, k: nat)
    requires Inv(m) && Live(m, k) && Enabled(m, a)
    ensures Live(Do(m, a), k) <==> !Displaces(a, k)
    ensures !Displaces(a, k) ==>
              Id(k) in Do(m, a).associations && Do(m, a).associations[Id(k)] == m.tickets[k].addr
  {
    hide Id;
    if a.Insert? { SameIdIff(a.ticket, k); }
  }

  lemma {:induction false} LookupUntilDisplaced(m: State, steps: seq<Step>, k: nat)
    requires Inv(m) && Live(m, k) && k < |m.tickets| && Perform(m, steps).Some?
    requires forall i :: 0 <= i < |steps| ==> !Displaces(steps[i], k)
    ensures var d := Perform(m, steps).value;
            Id(k) in d.associations && d.associations[Id(k)] == m.tickets[k].addr
    decreases |steps|
  {
    hide Inv, Do, Displaces, Live, Id;
    if steps == [] {
      LiveIsFound(m, k);
    } else {
      DoKeeps(m, steps[0]);
      StaysLiveIff(m, steps[0], k);
      TicketStays(m, steps[0], k);
      LookupUntilDisplaced(Do(m, steps[0]), steps[1..], k);
    }
  }

  lemma LiveIsFound(m: State, k: nat)
    requires Inv(m) && Live(m, k)
    ensures k < |m.tickets| && Id(k) in m.associations && m.associations[Id(k)] == m.tickets[k].addr
  {
  }

  lemma TicketStays(m: State, a: Step, k: nat)
    requires Enabled(m, a) && k < |m.tickets|
    ensures k < |Do(m, a).tickets| && Do(m, a).tickets[k].addr == m.tickets[k].addr
  {
  }

  class UdpGwMux {
    var nextId: u32
    var associations: map<u32, SocketAddr>

    constructor ()
      ensures nextId == 1 && associations == map[]
    {
      nextId, associations := 1, map[];
    }

    /** `allocate_id` when nobody else runs: a fetch-and-add followed by its insert. */
    method AllocateId(addr: SocketAddr, ghost m: State) returns (id: u32)
      requires Inv(m) && m.nextId == nextId && m.associations == associations
      modifies this
      ensures Enabled(Do(m, FetchAdd(addr)), Insert(|m.tickets|))
      ensures var d := Do(Do(m, FetchAdd(addr)), Insert(|m.tickets|));
              Inv(d) && Live(d, |m.tickets|) && d.nextId == nextId && d.associations == associations
      ensures id == Id(|m.tickets|) == old(nextId) && nextId == (id + 1) % 0x1_0000_0000
      ensures associations == old(associations)[id := addr]
    {
      hide Id, Inv;
      ghost var m1 := Do(m, FetchAdd(addr));
      DoKeeps(m, FetchAdd(addr));
      DoKeeps(m1, Insert(|m.tickets|));
      assert nextId == Id(|m.tickets|) by { NextIs(m); }
      id := nextId;
      nextId := (nextId + 1) % IDS;
      associations := associations[id := addr];
    }

    method Lookup(id: u32) returns (r: Option<SocketAddr>)
      ensures r == if id in associations then Some(associations[id]) else None
    {
      r := if id in associations then Some(associations[id]) else None;
    }

    method ReleaseId(id: u32)
      modifies this`associations
      ensures associations == old(associations) - {id}
    {
      associations := associations - {id};
    }
  }
}
