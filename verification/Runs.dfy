// Whole runs: ownership along every run, what a reset guarantees until it is lifted,
// and marks that are stale and therefore never read.

module Runs {
  import opened Word32
  import opened TcIds
  import opened Model
  import opened Ownership
  import opened Allocation
  import opened Discipline

  ghost predicate StepsTo(s: State, op: Op, s': State) {
    Structural(s) && Callable(s, op) && s' == Step(s, op).state
  }

  /** tr lists the states of a run that performs ops in order. */
  ghost predicate IsRun(tr: seq<State>, ops: seq<Op>) {
    && |tr| == |ops| + 1
    && Structural(tr[0])
    && forall i | 0 <= i < |ops| :: StepsTo(tr[i], ops[i], tr[i + 1])
  }

  ghost predicate DisciplinedRun(tr: seq<State>, ops: seq<Op>)
    requires IsRun(tr, ops)
  {
    forall i | 0 <= i < |ops| :: StepsTo(tr[i], ops[i], tr[i + 1]) && Disciplined(tr[i], ops[i])
  }

  lemma {:induction false} OwnUpTo(tr: seq<State>, ops: seq<Op>, n: nat)
    requires IsRun(tr, ops) && Own(tr[0]) && DisciplinedRun(tr, ops) && n < |tr|
    ensures forall i | 0 <= i <= n :: Own(tr[i])
    decreases n
  {
    if n == 0 {
    } else {
      OwnUpTo(tr, ops, n - 1);
      assert StepsTo(tr[n - 1], ops[n - 1], tr[n]);
      StepOwnIff(tr[n - 1], ops[n - 1]);
    }
  }

  /** The ownership invariant holds all along a run if and only if every step of it is disciplined. */
  lemma OwnThroughoutIff(tr: seq<State>, ops: seq<Op>)
    requires IsRun(tr, ops) && Own(tr[0])
    ensures (forall i | 0 <= i < |tr| :: Own(tr[i])) <==> DisciplinedRun(tr, ops)
  {
    if DisciplinedRun(tr, ops) {
      OwnUpTo(tr, ops, |ops|);
    }
    if forall i | 0 <= i < |tr| :: Own(tr[i]) {
      forall i | 0 <= i < |ops| ensures StepsTo(tr[i], ops[i], tr[i + 1]) && Disciplined(tr[i], ops[i]) {
        assert StepsTo(tr[i], ops[i], tr[i + 1]);
        StepOwnIff(tr[i], ops[i]);
      }
    }
  }

  /** Packets, conntrack events and deletions from the hash: the traffic of a running module. */
  predicate IsTraffic(op: Op) { op.PacketOp? || op.EventOp? || op.DelHashOp? }

  lemma TrafficOwn(tr: seq<State>, ops: seq<Op>)
    requires IsRun(tr, ops) && Own(tr[0]) && forall op | op in ops :: IsTraffic(op)
    ensures DisciplinedRun(tr, ops)
    ensures forall i | 0 <= i < |tr| :: Own(tr[i])
  {
    forall i | 0 <= i < |ops| ensures StepsTo(tr[i], ops[i], tr[i + 1]) && Disciplined(tr[i], ops[i]) {
      assert StepsTo(tr[i], ops[i], tr[i + 1]);
      assert IsTraffic(ops[i]);
      if ops[i].PacketOp? { LiveMarkNonzero(tr[i], ops[i].ip); }
    }
    OwnUpTo(tr, ops, |ops|);
  }

  // -- reset --

  /** Everything but lifting the reset, and handing out raw marks. */
  predicate IsQuiet(op: Op) {
    match op
    case ResetOp(flag) => flag != 0
    case SetSpecOp(ipSpec, _) => 1 <= ipSpec < MAX_SPEC
    case AllocMarkOp => false
    case _ => true
  }

  ghost predicate Idle(s: State) { Own(s) && s.table == map[] && s.reset }

  lemma QuietStep(s: State, op: Op)
    requires Idle(s) && Callable(s, op) && IsQuiet(op)
    ensures Idle(Step(s, op).state)
  {
    OwnOfEmpty(s);
    StepOwnIff(s, op);
    if op.PacketOp? {
      LiveMarkNonzero(s, op.ip);
    }
  }

  /**
   * A reset recovers: from any structural state, whatever was done to live rules before, it
   * re-establishes ownership with an empty table, and no packet, event or operator call puts an
   * entry back until the reset is lifted.
   */
  lemma {:induction false} ResetRecovers(tr: seq<State>, ops: seq<Op>, n: nat)
    requires IsRun(tr, ops) && 0 < n < |tr| && |tr[0].bits| < MAX_SPEC
    requires ops[0].ResetOp? && ops[0].flag != 0
    requires forall i | 0 <= i < n :: IsQuiet(ops[i])
    ensures Idle(tr[n])
    decreases n
  {
    assert StepsTo(tr[n - 1], ops[n - 1], tr[n]);
    if n == 1 {
      ResetOwn(tr[0], ops[0].flag);
    } else {
      ResetRecovers(tr, ops, n - 1);
      QuietStep(tr[n - 1], ops[n - 1]);
    }
  }

  // -- stale marks --

  /** Equal rules, but for a mark that the next allocation would not read. */
  predicate SameRule(r1: Rule, r2: Rule) {
    r1 == r2.(mark := r1.mark) && (!IsPrivate(r1) && r1.count != 0 ==> r1.mark == r2.mark)
  }

  /** Equal states, but for stale marks in the rule table. */
  ghost predicate SameButStale(s1: State, s2: State) {
    && s1.bits == s2.bits && s1.table == s2.table && s1.reset == s2.reset
    && |s1.rules| == |s2.rules|
    && forall k | 0 <= k < |s1.rules| :: SameRule(s1.rules[k], s2.rules[k])
  }

  /** Traffic, resets and rule changes that wait for the rule's last entry. */
  predicate IsCareful(s: State, op: Op) {
    match op
    case PacketOp(ip, id, _) => ip in s.table || IsRule(s, id)
    case EventOp(_) => true
    case CheckHashOp(_) => true
    case DelHashOp(_) => true
    case ResetOp(_) => true
    case SetSpecOp(ipSpec, _) => 1 <= ipSpec < MAX_SPEC
    case AddRuleOp(id, r) => IsRule(s, id) && (s.rules[id - 1].count == 0 || IsPrivate(s.rules[id - 1]) == IsPrivate(r))
    case DelRuleOp(id) => IsRule(s, id) && s.rules[id - 1].count == 0
    case _ => false
  }

  /** Ownership does not depend on stale marks. */
  lemma StaleOwn(s1: State, s2: State)
    requires Own(s1) && SameButStale(s1, s2)
    ensures Own(s2)
  {
    assert Structural(s2);
    assert forall k | 0 <= k < |s1.rules| :: s1.rules[k].mode == s2.rules[k].mode && s1.rules[k].count == s2.rules[k].count;
    forall p, q | p in s2.table && q in s2.table ensures Apart(s2, p, q) { assert Apart(s1, p, q); }
    forall k | IsRule(s2, k) ensures CountOk(s2, k) { assert CountOk(s1, k); }
    forall p | p in s2.table ensures EntryOk(s2, p) {
      var id := s1.table[p].id;
      assert EntryOk(s1, p) && CountOk(s1, id) && p in Members(s1.table, id);
      assert SameRule(s1.rules[id - 1], s2.rules[id - 1]);
    }
  }

  lemma StaleGranted(s1: State, s2: State, ip: Ip, id: nat)
    requires SameButStale(s1, s2) && IsRule(s1, id)
    requires NeedsFresh(s1, id) ==> FirstZero(s1.bits, 0) < |s1.bits|
    ensures GrantedMark(s1, id) == GrantedMark(s2, id)
    ensures SameButStale(Inserted(s1, ip, id), Inserted(s2, ip, id))
    ensures AddMsgs(Inserted(s1, ip, id).rules[id - 1], GrantedMark(s1, id))
         == AddMsgs(Inserted(s2, ip, id).rules[id - 1], GrantedMark(s2, id))
  {
  }

  lemma StalePacket(s1: State, s2: State, ip: Ip, id: nat, nodeOk: bool)
    requires Own(s1) && Own(s2) && SameButStale(s1, s2) && (ip in s1.table || IsRule(s1, id))
    ensures PacketOk(s1, ip, id) && PacketOk(s2, ip, id)
    ensures var o1, o2 := Packet(s1, ip, id, nodeOk), Packet(s2, ip, id, nodeOk);
            && SameButStale(o1.state, o2.state) && o1.code == o2.code && o1.msgs == o2.msgs
            && (o1.code == OK ==> o1.mark == o2.mark)
  {
    LiveMarkNonzero(s1, ip);
    if ip !in s1.table {
      assert SameRule(s1.rules[id - 1], s2.rules[id - 1]);
      Granted(s1, ip, id, nodeOk);
      Granted(s2, ip, id, nodeOk);
      if AllocAuto(s1, ip, id, nodeOk).code == OK {
        StaleGranted(s1, s2, ip, id);
      } else {
        RefusalChangesNothing(s1, ip, id, nodeOk);
        RefusalChangesNothing(s2, ip, id, nodeOk);
        StaleUntouched(s1, AllocAuto(s1, ip, id, nodeOk).state, id, s2, AllocAuto(s2, ip, id, nodeOk).state);
      }
    }
  }

  lemma StaleUntouched(s1: State, s1': State, id: nat, s2: State, s2': State)
    requires SameButStale(s1, s2) && IsRule(s1, id) && Untouched(s1, s1', id) && Untouched(s2, s2', id)
    ensures SameButStale(s1', s2')
  {
  }

  lemma StaleRelease(s1: State, s2: State, ip: Ip)
    requires Own(s1) && Own(s2) && SameButStale(s1, s2)
    ensures var o1, o2 := Release(s1, ip), Release(s2, ip);
            && SameButStale(o1.state, o2.state) && o1.code == o2.code && o1.msgs == o2.msgs && o1.mark == o2.mark
  {
    if ip in s1.table && s1.table[ip].count <= 1 {
      ReleaseRemoves(s1, ip);
      ReleaseRemoves(s2, ip);
      StaleRemoved(s1, s2, ip);
    }
  }

  lemma StaleRemoved(s1: State, s2: State, ip: Ip)
    requires Own(s1) && Structural(s2) && SameButStale(s1, s2) && ip in s1.table
    ensures SameButStale(Removed(s1, ip), Removed(s2, ip))
    ensures FreesMark(s1, ip) == FreesMark(s2, ip)
    ensures DelMsgs(s1.rules[s1.table[ip].id - 1], s1.table[ip].mark)
         == DelMsgs(s2.rules[s2.table[ip].id - 1], s2.table[ip].mark)
  {
    var id := s1.table[ip].id;
    assert SameRule(s1.rules[id - 1], s2.rules[id - 1]);
    assert CountOk(s1, id) && ip in Members(s1.table, id);
  }

  lemma StaleEvent(s1: State, s2: State, ev: ConnEvent)
    requires Own(s1) && Own(s2) && SameButStale(s1, s2)
    ensures var o1, o2 := Event(s1, ev), Event(s2, ev);
            && SameButStale(o1.state, o2.state) && o1.code == o2.code && o1.msgs == o2.msgs && o1.mark == o2.mark
  {
    match Subject(ev.conn)
    case None =>
    case Some(ip) => StaleRelease(s1, s2, ip);
  }

  /**
   * A stale mark left behind in the rule table is never read: states that differ only there answer
   * every careful call alike, send the same tc messages, and stay alike.
   */
  lemma StaleMarksUnread(s1: State, s2: State, op: Op)
    requires Own(s1) && SameButStale(s1, s2) && IsCareful(s1, op)
    ensures Own(s2) && Callable(s1, op) && Callable(s2, op)
    ensures var o1, o2 := Step(s1, op), Step(s2, op);
            && SameButStale(o1.state, o2.state) && o1.code == o2.code && o1.msgs == o2.msgs
            && (o1.code == OK ==> o1.mark == o2.mark)
  {
    StaleOwn(s1, s2);
    match op
    case PacketOp(ip, id, nodeOk) => StalePacket(s1, s2, ip, id, nodeOk);
    case EventOp(ev) => StaleEvent(s1, s2, ev);
    case DelHashOp(ip) => StaleRelease(s1, s2, ip);
    case AddRuleOp(id, r) => assert SameRule(s1.rules[id - 1], s2.rules[id - 1]);
    case _ =>
  }
}
