// What each call answers and what it leaves behind, read off the states before and after it, in
// the numbers of kmod/qos_marktbl_main.c.

module Answers {
  import opened Word32
  import opened TcIds
  import opened Model
  import opened Ownership
  import opened Allocation
  import opened Discipline
  import opened Runs

  // -- dropping a reference --

  /**
   * What dropping one reference to ip leaves: the entry counts one less, or goes; with it goes one
   * from its rule's count, and its bit and the rule's mark are cleared if the rule is private or had
   * no other entry. No other address and no other rule is touched.
   */
  ghost predicate OneLess(s: State, s': State, ip: Ip)
    requires Structural(s)
  {
    && s'.reset == s.reset && s'.table - {ip} == s.table - {ip}
    && if ip !in s.table then s' == s
       else
         var e := s.table[ip];
         var r := s.rules[e.id - 1];
         if e.count > 1 then
           ip in s'.table && s'.table[ip] == Entry(e.id, e.mark, e.count - 1) && s'.bits == s.bits && s'.rules == s.rules
         else if r.mode == 0 || r.count == 1 then
           && ip !in s'.table && s'.bits == s.bits[e.mark / 2048 - 1 := false]
           && s'.rules == s.rules[e.id - 1 := r.(count := r.count - 1, mark := 0)]
         else
           ip !in s'.table && s'.bits == s.bits && s'.rules == s.rules[e.id - 1 := r.(count := r.count - 1)]
  }

  /** Whether dropping a reference to ip gives its mark back. */
  predicate LastOfMark(s: State, ip: Ip)
    requires ip in s.table && IsRule(s, s.table[ip].id)
  {
    s.table[ip].count <= 1 && (s.rules[s.table[ip].id - 1].mode == 0 || s.rules[s.table[ip].id - 1].count == 1)
  }

  lemma ReleaseLeaves(s: State, ip: Ip)
    requires Structural(s)
    ensures OneLess(s, Release(s, ip).state, ip)
    ensures Release(s, ip).msgs == if ip in s.table && LastOfMark(s, ip) then DelMsgs(s.rules[s.table[ip].id - 1], s.table[ip].mark) else []
  {
    if ip in s.table && s.table[ip].count <= 1 {
      ReleaseRemoves(s, ip);
      assert s.table - {ip} - {ip} == s.table - {ip};
    } else if ip in s.table {
      KeptOne(s, ip);
    }
  }

  lemma KeptOne(s: State, ip: Ip)
    requires Structural(s) && ip in s.table && s.table[ip].count > 1
    ensures Release(s, ip).state == AddToEntry(s, ip, -1) && Release(s, ip).msgs == []
    ensures AddToEntry(s, ip, -1).table - {ip} == s.table - {ip}
  {
  }

  /**
   * The deletion by hand reports success, with the mark of the entry, exactly when the address had an
   * entry and has none afterwards; in all other cases it reports ERROR and no mark. It tells tc nothing.
   */
  lemma DelHashAnswers(s: State, ip: Ip)
    requires Structural(s)
    ensures var o := Step(s, DelHashOp(ip));
            && (o.code == OK <==> ip in s.table && ip !in o.state.table)
            && (if o.code == OK then o.mark == s.table[ip].mark else o.code == ERROR && o.mark == 0)
            && o.msgs == [] && OneLess(s, o.state, ip)
  {
    ReleaseLeaves(s, ip);
    if ip in s.table && s.table[ip].count <= 1 { ReleaseRemoves(s, ip); }
  }

  // -- looking up --

  lemma CheckHashAnswers(s: State, ip: Ip)
    requires Structural(s)
    ensures var o := Step(s, CheckHashOp(ip));
            && o.state == s && o.msgs == []
            && (if ip in s.table then o.code == OK && o.mark == s.table[ip].mark != 0 else o.code == NO_EXIST && o.mark == 0)
  {
    LiveMarkNonzero(s, ip);
  }

  // -- a packet --

  /** Row id gains an entry, and in share mode holds the mark. */
  predicate OneMore(rules: seq<Rule>, rules': seq<Rule>, id: nat, mark: uint32)
    requires 1 <= id <= |rules|
  {
    var r := rules[id - 1];
    rules' == rules[id - 1 := r.(count := r.count + 1, mark := if r.mode == 0 then r.mark else mark)]
  }

  /** z is the least clear bit. */
  predicate LeastClear(bits: seq<bool>, z: nat) { z < |bits| && !bits[z] && forall k | 0 <= k < z :: bits[k] }

  /** The mark of the least clear bit, which is taken. */
  ghost predicate TookLeast(bits: seq<bool>, bits': seq<bool>, mark: uint32) {
    exists z: nat :: LeastClear(bits, z) && bits' == bits[z := true] && mark == 2048 * (z + 1)
  }

  /**
   * A packet of an address without an entry is granted a mark unless a reset is on, the table is full
   * or memory is short. A private rule, or a share rule without entries, takes the least clear bit; a
   * share rule with entries gives the mark that all of them have. The new entry starts with count 0, its
   * rule counts one more, and nothing else changes. A refusal changes nothing, unless a fresh mark was
   * taken and given back: then the mark in the rule, which nobody reads, is 0.
   */
  lemma NewPacketAnswers(s: State, ip: Ip, id: nat, nodeOk: bool)
    requires Own(s) && IsRule(s, id) && ip !in s.table
    ensures PacketOk(s, ip, id)
    ensures var o, r := Packet(s, ip, id, nodeOk), s.rules[id - 1];
            if s.reset || |s.table| == |s.bits| || !nodeOk then
              && o.code == ERROR && o.msgs == []
              && o.state == if s.reset || (r.mode != 0 && r.count != 0) || (forall k | 0 <= k < |s.bits| :: s.bits[k]) then s
                            else s.(rules := s.rules[id - 1 := r.(mark := 0)])
            else
              && o.code == OK && o.state.reset == s.reset
              && o.state.table == s.table[ip := Entry(id, o.mark, 0)]
              && OneMore(s.rules, o.state.rules, id, o.mark)
              && o.msgs == AddMsgs(o.state.rules[id - 1], o.mark)
              && (if r.mode == 0 || r.count == 0 then TookLeast(s.bits, o.state.bits, o.mark)
                  else o.state.bits == s.bits && forall p | p in s.table && s.table[p].id == id :: s.table[p].mark == o.mark)
  {
    LiveMarkNonzero(s, ip);
    Granted(s, ip, id, nodeOk);
    if s.reset || |s.table| == |s.bits| || !nodeOk {
      RefusedCode(s, ip, id, nodeOk);
      RefusedState(s, ip, id, nodeOk);
    } else {
      GrantedFacts(s, id);
      if NeedsFresh(s, id) {
        TookFirst(s, id);
      } else {
        forall p | p in s.table && s.table[p].id == id ensures s.table[p].mark == s.rules[id - 1].mark { assert EntryOk(s, p); }
      }
    }
  }

  lemma TookFirst(s: State, id: nat)
    requires IsRule(s, id) && NeedsFresh(s, id) && |s.bits| < MAX_SPEC && FirstZero(s.bits, 0) < |s.bits|
    ensures TookLeast(s.bits, Marked(s, id).bits, GrantedMark(s, id))
  {
    var z := FirstZero(s.bits, 0);
    assert LeastClear(s.bits, z);
    assert GrantedMark(s, id) == 2048 * (z + 1);
  }

  lemma RefusedState(s: State, ip: Ip, id: nat, nodeOk: bool)
    requires Structural(s) && IsRule(s, id) && ShareMarkUsable(s, id) && |s.bits| < MAX_SPEC
    requires AllocAuto(s, ip, id, nodeOk).code != OK
    ensures var r := s.rules[id - 1];
            AllocAuto(s, ip, id, nodeOk).state ==
              if s.reset || (r.mode != 0 && r.count != 0) || (forall k | 0 <= k < |s.bits| :: s.bits[k]) then s
              else s.(rules := s.rules[id - 1 := r.(mark := 0)])
  {
    if !s.reset && NeedsFresh(s, id) {
      if FirstZero(s.bits, 0) < |s.bits| {
        Taken(s, id);
        var s1, mark := Marked(s, id), GrantedMark(s, id);
        assert !s.bits[FirstZero(s.bits, 0)];
        assert TableAdd(s1, ip, id, mark, nodeOk).0 == s1;
        assert FreeMark(s1.bits, mark) == s.bits;
        assert ClearShareMark(s1, id).rules == s.rules[id - 1 := s.rules[id - 1].(mark := 0)];
      }
    } else if !s.reset {
      SharedRefused(s, ip, id, nodeOk);
    }
  }

  lemma SharedRefused(s: State, ip: Ip, id: nat, nodeOk: bool)
    requires Structural(s) && IsRule(s, id) && ShareMarkUsable(s, id) && !NeedsFresh(s, id)
    requires AllocAuto(s, ip, id, nodeOk).code != OK
    ensures AllocAuto(s, ip, id, nodeOk).state == s
  {
  }

  lemma RefusedCode(s: State, ip: Ip, id: nat, nodeOk: bool)
    requires Structural(s) && IsRule(s, id) && ShareMarkUsable(s, id)
    ensures AllocAuto(s, ip, id, nodeOk).code == OK || AllocAuto(s, ip, id, nodeOk).code == ERROR
  {
  }

  /** A packet of an address with an entry gets its mark and changes nothing. */
  lemma KnownPacketAnswers(s: State, ip: Ip, id: nat, nodeOk: bool)
    requires Structural(s) && ip in s.table
    ensures PacketOk(s, ip, id) && Packet(s, ip, id, nodeOk) == Outcome(s, OK, s.table[ip].mark, [])
  {
    LiveMarkNonzero(s, ip);
  }

  // -- marks and entries by hand --

  /** The raw allocation takes the least clear bit, and fails only when there is none. */
  lemma AllocMarkAnswers(s: State)
    requires Structural(s) && |s.bits| < MAX_SPEC
    ensures var o := Step(s, AllocMarkOp);
            && o.msgs == [] && o.state == s.(bits := o.state.bits)
            && (if forall i | 0 <= i < |s.bits| :: s.bits[i] then o == Outcome(s, ERROR, 0, [])
                else o.code == OK && TookLeast(s.bits, o.state.bits, o.mark))
  {
    var z := FirstZero(s.bits, 0);
    if z < |s.bits| {
      assert LeastClear(s.bits, z);
      MarkRoundTrip(z + 1);
    }
  }

  lemma FreeMarkAnswers(s: State, mark: uint32)
    requires Structural(s) && 2048 <= mark < 2048 * (|s.bits| + 1)
    ensures Callable(s, FreeMarkOp(mark))
    ensures Step(s, FreeMarkOp(mark)) == Outcome(s.(bits := s.bits[mark / 2048 - 1 := false]), OK, 0, [])
  {
  }

  /**
   * The raw insertion: ERROR for a mark whose bit is clear, OVER_MAX for a full table even if the address
   * is known, one more reference for a known address, and otherwise a new entry with count 0.
   */
  lemma AddHashAnswers(s: State, ip: Ip, id: nat, mark: uint32, nodeOk: bool)
    requires Structural(s) && IsRule(s, id) && 2048 <= mark < 2048 * (|s.bits| + 1)
    ensures Callable(s, AddHashOp(ip, id, mark, nodeOk))
    ensures var o, r := Step(s, AddHashOp(ip, id, mark, nodeOk)), s.rules[id - 1];
            && o.mark == mark && o.msgs == []
            && if !s.bits[mark / 2048 - 1] then o.state == s && o.code == ERROR
               else if |s.table| == |s.bits| then o.state == s && o.code == OVER_MAX
               else if ip in s.table then
                 o.code == OK && o.state == s.(table := s.table[ip := s.table[ip].(count := s.table[ip].count + 1)])
               else if !nodeOk then o.state == s && o.code == ALLOC_FAIL
               else
                 && o.code == OK
                 && o.state == s.(table := s.table[ip := Entry(id, mark, 0)],
                                  rules := s.rules[id - 1 := r.(count := r.count + 1)])
  {
  }

  // -- rules, sizes, resets --

  /** A row of zeros. */
  predicate Zero(r: Rule) {
    && r.mode == 0 && r.mark == 0 && r.count == 0 && !r.on && r.devid == 0
    && r.rate == 0 && r.rateMate == 0 && r.rateMin == 0 && r.rateMinMate == 0
  }

  /** The settings of a row, without the mark and the count that the module keeps in it. */
  predicate SetTo(row: Rule, r: Rule) {
    && row.on && row.mode == r.mode && row.devid == r.devid
    && row.rate == r.rate && row.rateMate == r.rateMate && row.rateMin == r.rateMin && row.rateMinMate == r.rateMinMate
  }

  /** All rows but one are as before. */
  predicate OtherRowsKept(s: State, s': State, id: nat) {
    |s'.rules| == |s.rules| && forall k | 0 <= k < |s.rules| && k != id - 1 :: s'.rules[k] == s.rules[k]
  }

  lemma RuleCallsAnswer(s: State, id: nat, r: Rule)
    requires Structural(s) && IsRule(s, id)
    ensures var o, row := Step(s, AddRuleOp(id, r)), s.rules[id - 1];
            && o.code == OK && o.msgs == [] && OtherRowsKept(s, o.state, id) && o.state == s.(rules := o.state.rules)
            && SetTo(o.state.rules[id - 1], r)
            && o.state.rules[id - 1].mark == row.mark && o.state.rules[id - 1].count == row.count
    ensures var o := Step(s, DelRuleOp(id));
            && o.code == OK && o.msgs == [] && OtherRowsKept(s, o.state, id) && o.state == s.(rules := o.state.rules)
            && Zero(o.state.rules[id - 1])
  {
  }

  /** n clear bits, and m rows of zeros. */
  predicate Blank(bits: seq<bool>, n: nat) { |bits| == n && forall i | 0 <= i < n :: !bits[i] }

  predicate BlankRows(rules: seq<Rule>, m: nat) { |rules| == m && forall k | 0 <= k < m :: Zero(rules[k]) }

  lemma SetSpecAnswers(s: State, n: nat, m: nat)
    requires Structural(s) && 1 <= n < W32 - 1
    ensures var o := Step(s, SetSpecOp(n, m));
            && o.code == OK && o.msgs == [] && o.state.reset == s.reset
            && Blank(o.state.bits, n) && o.state.table == map[] && BlankRows(o.state.rules, m)
  {
  }

  lemma InitialIs()
    ensures Blank(Initial().bits, 4096) && Initial().table == map[] && BlankRows(Initial().rules, 128) && !Initial().reset
  {
  }

  /** Any flag but 0 wipes everything but the settings and the marks of the rules; 0 only lifts the reset. */
  lemma ResetAnswers(s: State, flag: uint32)
    requires Structural(s)
    ensures var o := Step(s, ResetOp(flag));
            && o.code == OK && o.msgs == []
            && if flag == 0 then o.state == s.(reset := false)
               else
                 && o.state.reset && Blank(o.state.bits, |s.bits|) && o.state.table == map[] && |o.state.rules| == |s.rules|
                 && forall k | 0 <= k < |s.rules| :: o.state.rules[k] == s.rules[k].(count := 0)
  {
  }

  lemma FlushesAnswer(s: State)
    requires Structural(s)
    ensures var o := Step(s, FlushRuleOp);
            o.code == OK && o.msgs == [] && o.state == s.(rules := o.state.rules) && BlankRows(o.state.rules, |s.rules|)
    ensures Step(s, FlushHashOp) == Outcome(s.(table := map[]), OK, 0, [])
    ensures var o := Step(s, FlushMarkOp);
            o.code == OK && o.msgs == [] && o.state == s.(bits := o.state.bits) && Blank(o.state.bits, |s.bits|)
  {
  }

  // -- capacity along runs --

  lemma StepKeepsSizes(s: State, op: Op)
    requires Structural(s) && Callable(s, op) && !op.SetSpecOp?
    ensures |Step(s, op).state.bits| == |s.bits| && |Step(s, op).state.rules| == |s.rules|
  {
    match op
    case EventOp(ev) =>
      match Subject(ev.conn) {
        case None =>
        case Some(ip) => ReleaseLeaves(s, ip);
      }
    case DelHashOp(ip) => ReleaseLeaves(s, ip);
    case PacketOp(ip, id, nodeOk) => PacketKeepsSizes(s, ip, id, nodeOk);
    case AddHashOp(ip, id, mark, nodeOk) => AddHashAnswers(s, ip, id, mark, nodeOk);
    case _ =>
  }

  lemma PacketKeepsSizes(s: State, ip: Ip, id: nat, nodeOk: bool)
    requires Structural(s) && PacketOk(s, ip, id)
    ensures |Packet(s, ip, id, nodeOk).state.bits| == |s.bits| && |Packet(s, ip, id, nodeOk).state.rules| == |s.rules|
  {
    if FindMark(s, ip) == 0 { TakeMarkStructural(s, id); }
  }

  predicate HasSizes(s: State, n: nat, m: nat) { |s.bits| == n && |s.rules| == m }

  /** The call sets these sizes, or leaves them as they are. */
  lemma SizesAfter(s: State, op: Op, s': State, n: nat, m: nat)
    requires StepsTo(s, op, s')
    requires op == SetSpecOp(n, m) || (!op.SetSpecOp? && HasSizes(s, n, m))
    ensures HasSizes(s', n, m)
  {
    if op.SetSpecOp? { SetSpecAnswers(s, n, m); } else { StepKeepsSizes(s, op); }
  }

  /** The run sets these sizes at step j, and not again before step i. */
  ghost predicate SizesSet(ops: seq<Op>, n: nat, m: nat, j: nat, i: nat) {
    j < i <= |ops| && ops[j] == SetSpecOp(n, m) && forall k | j < k < i :: !ops[k].SetSpecOp?
  }

  lemma {:induction false} SizesAlong(tr: seq<State>, ops: seq<Op>, n: nat, m: nat, j: nat, i: nat)
    requires IsRun(tr, ops) && SizesSet(ops, n, m, j, i)
    ensures HasSizes(tr[i], n, m)
    decreases i
  {
    var s, op, s' := tr[i - 1], ops[i - 1], tr[i];
    assert StepsTo(s, op, s');
    if i == j + 1 {
      SizesAfter(s, op, s', n, m);
    } else {
      SizesAlong(tr, ops, n, m, j, i - 1);
      SizesAfter(s, op, s', n, m);
    }
  }

  /**
   * The sizes set last are what the module can hold: whenever ownership holds, packets may name the rules
   * 1 to m, and an address without an entry gets one exactly while there are fewer than n, no reset is on
   * and memory suffices.
   */
  lemma Capacity(tr: seq<State>, ops: seq<Op>, n: nat, m: nat, j: nat, i: nat, ip: Ip, id: nat, nodeOk: bool)
    requires IsRun(tr, ops) && SizesSet(ops, n, m, j, i)
    requires Own(tr[i]) && ip !in tr[i].table
    ensures Callable(tr[i], PacketOp(ip, id, nodeOk)) <==> 1 <= id <= m
    ensures 1 <= id <= m ==>
              var o := Step(tr[i], PacketOp(ip, id, nodeOk));
              && (ip in o.state.table <==> |tr[i].table| < n && !tr[i].reset && nodeOk)
              && (o.code == OK <==> ip in o.state.table)
  {
    SizesAlong(tr, ops, n, m, j, i);
    LiveMarkNonzero(tr[i], ip);
    if 1 <= id <= m { NewPacketAnswers(tr[i], ip, id, nodeOk); }
  }
}
