// The reference count of an entry over a run of traffic: it is the number of MARK events
// minus the number of drops since the entry was inserted, and it decides when the entry goes.

module Refcount {
  import opened Word32
  import opened TcIds
  import opened Model
  import opened Ownership
  import opened Allocation
  import opened Discipline
  import opened Runs

  /** A DESTROY event of the address, or its deletion by hand. */
  predicate Drops(op: Op, ip: Ip) {
    match op
    case EventOp(ev) => ev.destroy && About(ev.conn, ip)
    case DelHashOp(a) => a == ip
    case _ => false
  }

  /** A MARK event of the address. */
  predicate Marks(op: Op, ip: Ip) {
    op.EventOp? && !op.event.destroy && op.event.markChanged && About(op.event.conn, ip)
  }

  function CountMarks(ops: seq<Op>, ip: Ip): nat {
    if ops == [] then 0
    else CountMarks(ops[..|ops| - 1], ip) + if Marks(ops[|ops| - 1], ip) then 1 else 0
  }

  function CountDrops(ops: seq<Op>, ip: Ip): nat {
    if ops == [] then 0
    else CountDrops(ops[..|ops| - 1], ip) + if Drops(ops[|ops| - 1], ip) then 1 else 0
  }

  function Balance(ops: seq<Op>, ip: Ip): int { CountMarks(ops, ip) - CountDrops(ops, ip) }

  /** What one step of traffic does to the entry of one address. */
  lemma EntryStep(s: State, op: Op, ip: Ip)
    requires Own(s) && Callable(s, op) && IsTraffic(op) && ip in s.table
    ensures var e, t' := s.table[ip], Step(s, op).state.table;
            if Drops(op, ip) && e.count <= 1 then ip !in t'
            else ip in t' && t'[ip] == e.(count := e.count + if Marks(op, ip) then 1 else if Drops(op, ip) then -1 else 0)
  {
    match op
    case PacketOp(a, id, nodeOk) =>
      LiveMarkNonzero(s, a);
      if a !in s.table {
        Granted(s, a, id, nodeOk);
        if AllocAuto(s, a, id, nodeOk).code != OK { RefusalChangesNothing(s, a, id, nodeOk); }
      }
    case EventOp(ev) =>
      match Subject(ev.conn) {
        case None =>
        case Some(a) => ReleaseEntry(s, a, ip);
      }
    case DelHashOp(a) => ReleaseEntry(s, a, ip);
  }

  lemma ReleaseEntry(s: State, a: Ip, ip: Ip)
    requires Structural(s) && ip in s.table
    ensures var e, t' := s.table[ip], Release(s, a).state.table;
            if a == ip && e.count <= 1 then ip !in t'
            else ip in t' && t'[ip] == e.(count := e.count + if a == ip then -1 else 0)
  {
  }

  /** An entry appears only by a successful packet of its address, and starts with count 0. */
  lemma EntryAppears(s: State, op: Op, ip: Ip)
    requires Own(s) && Callable(s, op) && IsTraffic(op) && ip !in s.table
    ensures var o := Step(s, op);
            if op.PacketOp? && op.ip == ip && o.code == OK
            then ip in o.state.table && o.state.table[ip] == Entry(op.id, o.mark, 0)
            else ip !in o.state.table
  {
    match op
    case PacketOp(a, id, nodeOk) =>
      LiveMarkNonzero(s, a);
      if a !in s.table {
        Granted(s, a, id, nodeOk);
        if AllocAuto(s, a, id, nodeOk).code != OK { RefusalChangesNothing(s, a, id, nodeOk); }
      }
    case EventOp(ev) =>
      match Subject(ev.conn) {
        case None =>
        case Some(a) => ReleaseAbsent(s, a, ip);
      }
    case DelHashOp(a) => ReleaseAbsent(s, a, ip);
  }

  lemma ReleaseAbsent(s: State, a: Ip, ip: Ip)
    requires Structural(s) && ip !in s.table
    ensures ip !in Release(s, a).state.table
  {
  }

  /** The step is a packet of ip that is given a mark, and its entry starts with count 0. */
  ghost predicate Inserts(s: State, op: Op, s': State, ip: Ip) {
    && StepsTo(s, op, s') && op.PacketOp? && op.ip == ip && Step(s, op).code == OK
    && ip in s'.table && s'.table[ip] == Entry(op.id, Step(s, op).mark, 0)
  }

  function Change(op: Op, ip: Ip): int { if Marks(op, ip) then 1 else if Drops(op, ip) then -1 else 0 }

  /** How the entry of one address moves in one step of traffic. */
  ghost predicate Moves(s: State, op: Op, s': State, ip: Ip) {
    if ip in s.table then
      if Drops(op, ip) && s.table[ip].count <= 1 then ip !in s'.table
      else ip in s'.table && s'.table[ip] == s.table[ip].(count := s.table[ip].count + Change(op, ip))
    else ip in s'.table ==> Inserts(s, op, s', ip)
  }

  ghost predicate Moving(tr: seq<State>, ops: seq<Op>, ip: Ip) {
    |tr| == |ops| + 1 && forall i | 0 <= i < |ops| :: Moves(tr[i], ops[i], tr[i + 1], ip)
  }

  lemma TrafficMoves(tr: seq<State>, ops: seq<Op>, ip: Ip)
    requires IsRun(tr, ops) && Own(tr[0]) && forall op | op in ops :: IsTraffic(op)
    ensures Moving(tr, ops, ip)
  {
    TrafficOwn(tr, ops);
    forall i | 0 <= i < |ops| ensures Moves(tr[i], ops[i], tr[i + 1], ip) {
      assert StepsTo(tr[i], ops[i], tr[i + 1]) && IsTraffic(ops[i]);
      if ip in tr[i].table { EntryStep(tr[i], ops[i], ip); } else { EntryAppears(tr[i], ops[i], ip); }
    }
  }

  // -- lifetime --

  /** At the first n steps, every drop of ip leaves at least one reference. */
  predicate DropsCovered(start: int, ops: seq<Op>, ip: Ip, n: nat)
    requires n <= |ops|
  {
    forall i | 0 <= i < n && Drops(ops[i], ip) :: start + Balance(ops[..i + 1], ip) > 0
  }

  lemma {:induction false} StaysWhileCovered(tr: seq<State>, ops: seq<Op>, ip: Ip, n: nat)
    requires Moving(tr, ops, ip) && ip in tr[0].table && n < |tr|
    ensures (forall i | 0 <= i <= n :: ip in tr[i].table) <==> DropsCovered(tr[0].table[ip].count, ops, ip, n)
    ensures DropsCovered(tr[0].table[ip].count, ops, ip, n) ==>
              ip in tr[n].table && tr[n].table[ip] == tr[0].table[ip].(count := tr[0].table[ip].count + Balance(ops[..n], ip))
    decreases n
  {
    if n == 0 {
    } else {
      StaysWhileCovered(tr, ops, ip, n - 1);
      assert Moves(tr[n - 1], ops[n - 1], tr[n], ip);
      BalanceBetween(ops, 0, n - 1, ip);
    }
  }

  /**
   * The lifetime of an entry. In any run of traffic it stays, with its rule and its mark, exactly as
   * long as every drop is covered by earlier references; all along, its count is its initial count
   * plus the MARKs minus the drops.
   */
  lemma StaysIff(tr: seq<State>, ops: seq<Op>, ip: Ip, n: nat)
    requires IsRun(tr, ops) && Own(tr[0]) && (forall op | op in ops :: IsTraffic(op)) && n < |tr|
    requires ip in tr[0].table
    ensures (forall i | 0 <= i <= n :: ip in tr[i].table) <==> DropsCovered(tr[0].table[ip].count, ops, ip, n)
    ensures DropsCovered(tr[0].table[ip].count, ops, ip, n) ==>
              ip in tr[n].table && tr[n].table[ip] == tr[0].table[ip].(count := tr[0].table[ip].count + Balance(ops[..n], ip))
  {
    TrafficMoves(tr, ops, ip);
    StaysWhileCovered(tr, ops, ip, n);
  }

  /** The first drop that leaves no reference removes the entry at once, and nothing else does. */
  lemma GoesOnLastDrop(tr: seq<State>, ops: seq<Op>, ip: Ip, n: nat)
    requires IsRun(tr, ops) && Own(tr[0]) && (forall op | op in ops :: IsTraffic(op)) && n < |ops|
    requires ip in tr[0].table && DropsCovered(tr[0].table[ip].count, ops, ip, n)
    ensures ip !in tr[n + 1].table <==>
            Drops(ops[n], ip) && tr[0].table[ip].count + Balance(ops[..n + 1], ip) <= 0
  {
    TrafficMoves(tr, ops, ip);
    StaysWhileCovered(tr, ops, ip, n);
    assert Moves(tr[n], ops[n], tr[n + 1], ip);
    BalanceBetween(ops, 0, n, ip);
  }

  /**
   * The history of a count. In any run of traffic, an entry that was not there at the start was
   * inserted by a packet of its address at some step k, has been there since, still has the rule and
   * the mark it got then, and counts the MARKs minus the drops after step k, never below 0.
   */
  lemma CountHistory(tr: seq<State>, ops: seq<Op>, ip: Ip, n: nat) returns (k: nat)
    requires IsRun(tr, ops) && Own(tr[0]) && (forall op | op in ops :: IsTraffic(op)) && n < |tr|
    requires ip !in tr[0].table && ip in tr[n].table
    ensures k < n && ip !in tr[k].table && Inserts(tr[k], ops[k], tr[k + 1], ip)
    ensures forall i | k < i <= n :: ip in tr[i].table
    ensures tr[n].table[ip] == tr[k + 1].table[ip].(count := Balance(ops[k + 1..n], ip))
    ensures Balance(ops[k + 1..n], ip) >= 0
  {
    TrafficMoves(tr, ops, ip);
    k := InsertionPoint(tr, ops, ip, n);
    CountSince(tr, ops, ip, k + 1, n);
    TrafficOwn(tr, ops);
    assert EntryOk(tr[n], ip);
  }

  lemma {:induction false} InsertionPoint(tr: seq<State>, ops: seq<Op>, ip: Ip, n: nat) returns (k: nat)
    requires Moving(tr, ops, ip) && ip !in tr[0].table && n < |tr| && ip in tr[n].table
    ensures k < n && ip !in tr[k].table && Inserts(tr[k], ops[k], tr[k + 1], ip)
    ensures forall i | k < i <= n :: ip in tr[i].table
    decreases n
  {
    assert Moves(tr[n - 1], ops[n - 1], tr[n], ip);
    if ip in tr[n - 1].table {
      k := InsertionPoint(tr, ops, ip, n - 1);
    } else {
      k := n - 1;
    }
  }

  /** While an entry stays, only its count moves, by the MARKs minus the drops. */
  lemma {:induction false} CountSince(tr: seq<State>, ops: seq<Op>, ip: Ip, m: nat, n: nat)
    requires Moving(tr, ops, ip) && m <= n < |tr| && forall i | m <= i <= n :: ip in tr[i].table
    ensures tr[n].table[ip] == tr[m].table[ip].(count := tr[m].table[ip].count + Balance(ops[m..n], ip))
    decreases n
  {
    if m < n {
      CountSince(tr, ops, ip, m, n - 1);
      assert Moves(tr[n - 1], ops[n - 1], tr[n], ip);
      BalanceBetween(ops, m, n - 1, ip);
    } else {
      assert ops[m..n] == [];
    }
  }

  lemma BalanceBetween(ops: seq<Op>, m: nat, n: nat, ip: Ip)
    requires m <= n < |ops|
    ensures Balance(ops[m..n + 1], ip) == Balance(ops[m..n], ip) + Change(ops[n], ip)
    ensures m == 0 ==> ops[m..n] == ops[..n] && ops[m..n + 1] == ops[..n + 1]
  {
    assert ops[m..n + 1][..n - m] == ops[m..n];
  }
}
