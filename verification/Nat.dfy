/** The virtual-port table (gravital-stack, nat.rs): two maps and a wrap-around cursor. */
module Nat {
  import opened Bytes
  import opened Rewrite

  const BASE_PORT: u16 := 10_000
  const PORT_RANGE: u16 := 50_000

  datatype Table = Table(forward: map<Flow, u16>, reverse: map<u16, Flow>, next: u16)

  const EMPTY := Table(map[], map[], BASE_PORT)

  predicate InRange(p: int) { BASE_PORT <= p < BASE_PORT + PORT_RANGE }

  /** The two maps are mutually inverse and every port, the cursor too, is in range. */
  ghost predicate Valid(t: Table) {
    && InRange(t.next)
    && (forall p <- t.reverse :: InRange(p))
    && (forall f <- t.forward :: t.forward[f] in t.reverse && t.reverse[t.forward[f]] == f)
    && (forall p <- t.reverse :: t.reverse[p] in t.forward && t.forward[t.reverse[p]] == p)
  }

  // ---------------------------------------------------------------- the cyclic scan

  function Succ(p: u16): u16
    requires InRange(p)
  {
    BASE_PORT + (p - BASE_PORT + 1) % PORT_RANGE
  }

  /** How far the cursor travels from `from` until it stands on `to`. */
  function Distance(from: u16, to: u16): nat
    requires InRange(from) && InRange(to)
  {
    if from <= to then to - from else to - from + PORT_RANGE
  }

  /** The first of `n` ports from `p` on that is not a key of `taken`. */
  function Scan(taken: map<u16, Flow>, p: u16, n: nat): Option<u16>
    requires InRange(p)
    decreases n
  {
    if n == 0 then None
    else if p !in taken then Some(p)
    else Scan(taken, Succ(p), n - 1)
  }

  lemma DistanceStep(from: u16, to: u16)
    requires InRange(from) && InRange(to)
    ensures InRange(Succ(from))
    ensures from != to ==> Distance(Succ(from), to) == Distance(from, to) - 1
    ensures Distance(from, to) < PORT_RANGE && (Distance(from, to) == 0 <==> from == to)
  {
    assert Succ(from) == if from == 59_999 then 10_000 else from + 1;
  }

  /** The scan is cyclically minimal: it finds the free port the cursor would meet first, and
      fails only when every port within reach is taken. */
  lemma {:induction false} ScanIsCyclicallyFirst(taken: map<u16, Flow>, p: u16, n: nat)
    requires InRange(p) && n <= PORT_RANGE
    ensures match Scan(taken, p, n)
            case Some(v) =>
              && InRange(v) && v !in taken && Distance(p, v) < n
              && forall q: u16 :: InRange(q) && Distance(p, q) < Distance(p, v) ==> q in taken
            case None =>
              forall q: u16 :: InRange(q) && Distance(p, q) < n ==> q in taken
    decreases n
  {
    hide Succ, Distance;
    if n > 0 {
      DistanceStep(p, p);
      forall q: u16 | InRange(q)
        ensures q != p ==> Distance(Succ(p), q) == Distance(p, q) - 1
        ensures Distance(p, q) == 0 <==> p == q
      {
        DistanceStep(p, q);
      }
      if p in taken { ScanIsCyclicallyFirst(taken, Succ(p), n - 1); }
    }
  }

  // ---------------------------------------------------------------- operations

  datatype Inserted = Inserted(table: Table, port: Option<u16>)

  function InsertFlow(t: Table, f: Flow): Inserted
    requires InRange(t.next)
  {
    if f in t.forward then Inserted(t, Some(t.forward[f]))
    else
      match Scan(t.reverse, t.next, PORT_RANGE)
      case None => Inserted(t, None)
      case Some(v) =>
        ScanIsCyclicallyFirst(t.reverse, t.next, PORT_RANGE);
        Inserted(Table(t.forward[f := v], t.reverse[v := f], Succ(v)), Some(v))
  }

  function RemovePort(t: Table, p: u16): Table {
    if p !in t.reverse then t
    else t.(forward := t.forward - {t.reverse[p]}, reverse := t.reverse - {p})
  }

  /** Every one of the 50,000 ports is taken. */
  ghost predicate Full(t: Table) {
    forall p: u16 :: InRange(p) ==> p in t.reverse
  }

  /** `InsertFlow` refines the abstract injective map: it keeps the bijection, never disturbs another
      flow, returns the known port of a known flow, and otherwise the cyclically first free port,
      refusing exactly when all ports are taken and then leaving the cursor where it was. */
  lemma InsertRefines(t: Table, f: Flow)
    requires Valid(t)
    ensures var r := InsertFlow(t, f);
            && Valid(r.table)
            && (r.port.None? <==> f !in t.forward && Full(t))
            && (r.port.None? || f in t.forward ==> r.table == t)
            && (r.port.Some? ==> r.table.forward == t.forward[f := r.port.value])
            && (f !in t.forward && r.port.Some? ==>
                  && 10_000 <= r.port.value <= 59_999 && r.port.value !in t.reverse
                  && (forall q: u16 :: InRange(q) && Distance(t.next, q) < Distance(t.next, r.port.value)
                                       ==> q in t.reverse)
                  && r.table.next == Succ(r.port.value))
  {
    hide Scan, Distance, Succ;
    ScanIsCyclicallyFirst(t.reverse, t.next, PORT_RANGE);
    forall q: u16 | InRange(q) ensures Distance(t.next, q) < PORT_RANGE { DistanceStep(t.next, q); }
    var r := InsertFlow(t, f);
    if f !in t.forward && r.port.Some? {
      DistanceStep(r.port.value, r.port.value);
    }
  }

  /** `RemovePort` deletes exactly one pair and keeps the bijection. */
  lemma RemoveRefines(t: Table, p: u16)
    requires Valid(t)
    ensures Valid(RemovePort(t, p))
    ensures RemovePort(t, p).reverse == t.reverse - {p}
    ensures forall f :: f in RemovePort(t, p).forward <==> f in t.forward && t.forward[f] != p
    ensures forall f <- RemovePort(t, p).forward :: RemovePort(t, p).forward[f] == t.forward[f]
    ensures RemovePort(t, p).next == t.next
  {
  }

  /** Removing a freshly inserted flow gives back both maps; only the cursor has moved. */
  lemma RemoveUndoesInsert(t: Table, f: Flow)
    requires Valid(t) && f !in t.forward && !Full(t)
    ensures var r := InsertFlow(t, f);
            && r.port.Some?
            && RemovePort(r.table, r.port.value) == t.(next := r.table.next)
  {
    hide Scan, Distance, Succ;
    InsertRefines(t, f);
    var r := InsertFlow(t, f);
    var v := r.port.value;
    assert t.forward[f := v] - {f} == t.forward;
    assert t.reverse[v := f] - {v} == t.reverse;
  }

  // ---------------------------------------------------------------- capacity

  /** The table is full exactly when it holds 50,000 flows. */
  lemma FullIffCapacity(t: Table)
    requires Valid(t)
    ensures |t.forward| == |t.reverse| <= 50_000
    ensures Full(t) <==> |t.forward| == 50_000
  {
    BijectionSize(t);
    var ports := Ports(BASE_PORT, BASE_PORT + PORT_RANGE);
    SubsetSize(t.reverse.Keys, ports);
    if Full(t) {
      assert t.reverse.Keys == ports;
    }
  }

  /** The integers from `lo` up to and not including `hi`. */
  function Ports(lo: nat, hi: nat): (r: set<int>)
    requires lo <= hi
    ensures |r| == hi - lo && forall p :: p in r <==> lo <= p < hi
    decreases hi
  {
    if lo == hi then {} else Ports(lo, hi - 1) + {hi - 1}
  }

  lemma SubsetSize<T>(a: set<T>, b: set<T>)
    requires a <= b
    ensures |a| <= |b| && (|a| == |b| ==> a == b)
  {
    assert |b| == |a| + |b - a| by { assert b == a + (b - a); }
  }

  lemma {:induction false} BijectionSize(t: Table)
    requires Valid(t)
    ensures |t.forward| == |t.reverse|
    decreases |t.reverse|
  {
    if p :| p in t.reverse {
      RemoveRefines(t, p);
      var u := RemovePort(t, p);
      assert u.reverse.Keys == t.reverse.Keys - {p};
      assert u.forward.Keys == t.forward.Keys - {t.reverse[p]};
      BijectionSize(u);
    } else {
      assert t.reverse.Keys == {} && t.forward.Keys == {};
    }
  }

  // ---------------------------------------------------------------- the code

  class NatTable {
    var forward: map<Flow, u16>
    var reverse: map<u16, Flow>
    var next: u16

    ghost function Model(): Table
      reads this
    {
      Table(forward, reverse, next)
    }

    constructor ()
      ensures Model() == EMPTY && Valid(Model())
    {
      forward, reverse, next := map[], map[], BASE_PORT;
    }

    /** `insert`: the scan loop, which advances the cursor before it tests a port and gives up
        when the cursor is back where it started. */
    method Insert(src: SocketAddr, realDst: SocketAddr) returns (port: Option<u16>)
      requires Valid(Model())
      modifies this
      ensures InsertFlow(old(Model()), Flow(src, realDst)) == Inserted(Model(), port)
      ensures Valid(Model())
    {
      hide Distance, Full;
      var key := Flow(src, realDst);
      InsertRefines(Model(), key);
      if key in forward { return Some(forward[key]); }
      var start := next;
      ghost var i := 0;
      while true
        invariant i < PORT_RANGE && InRange(next) && next == Ahead(start, i)
        invariant forward == old(forward) && reverse == old(reverse)
        invariant Scan(reverse, start, PORT_RANGE) == Scan(reverse, next, PORT_RANGE - i)
        decreases PORT_RANGE - i
      {
        var vp := next;
        next := BASE_PORT + (next - BASE_PORT + 1) % PORT_RANGE;
        if vp !in reverse {
          forward := forward[key := vp];
          reverse := reverse[vp := key];
          return Some(vp);
        }
        AheadStep(start, i);
        if next == start { return None; }
        i := i + 1;
      }
    }

    method LookupForward(src: SocketAddr, realDst: SocketAddr) returns (port: Option<u16>)
      ensures port.Some? <==> Flow(src, realDst) in forward
      ensures port.Some? ==> port.value == forward[Flow(src, realDst)]
    {
      var key := Flow(src, realDst);
      port := if key in forward then Some(forward[key]) else None;
    }

    method LookupReverse(vport: u16) returns (flow: Option<Flow>)
      ensures flow.Some? <==> vport in reverse
      ensures flow.Some? ==> flow.value == reverse[vport]
    {
      flow := if vport in reverse then Some(reverse[vport]) else None;
    }

    /** `remove_by_vport` */
    method RemoveByVport(vport: u16)
      requires Valid(Model())
      modifies this
      ensures Model() == RemovePort(old(Model()), vport) && Valid(Model())
    {
      RemoveRefines(Model(), vport);
      if vport in reverse {
        var key := reverse[vport];
        reverse := reverse - {vport};
        forward := forward - {key};
      }
    }
  }

  /** The port `i` steps after `start`. */
  function Ahead(start: u16, i: nat): u16
    requires InRange(start) && i <= PORT_RANGE
  {
    if start + i < BASE_PORT + PORT_RANGE then start + i else start + i - PORT_RANGE
  }

  lemma AheadStep(start: u16, i: nat)
    requires InRange(start) && i < PORT_RANGE
    ensures InRange(Ahead(start, i)) && Succ(Ahead(start, i)) == Ahead(start, i + 1)
    ensures Ahead(start, i + 1) == start <==> i + 1 == PORT_RANGE
  {
  }
}
