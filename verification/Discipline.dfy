// Exactly which calls keep ownership. Disciplined can be checked before each call;
// StepOwnIff shows that it is the weakest such condition, for every entry point.

module Discipline {
  import opened Word32
  import opened TcIds
  import opened Model
  import opened Ownership
  import opened Allocation
  import Finite

  ghost predicate Disciplined(s: State, op: Op)
    requires Structural(s)
  {
    match op
    case PacketOp(ip, id, _) => ip in s.table || IsRule(s, id)
    case EventOp(_) => true
    case DelHashOp(_) => true
    case ResetOp(_) => true
    case SetSpecOp(ipSpec, _) => 1 <= ipSpec < MAX_SPEC
    case AddRuleOp(id, r) => IsRule(s, id) && ModeChangeOk(s, id, r)
    case DelRuleOp(id) => IsRule(s, id) && s.rules[id - 1].count == 0
    case FlushRuleOp => s.table == map[]
    case FlushHashOp => s.table == map[]
    case FlushMarkOp => s.table == map[]
    case CheckHashOp(_) => true
    case AllocMarkOp => FirstZero(s.bits, 0) == |s.bits|
    case FreeMarkOp(mark) => OffsetInRange(|s.bits|, mark) && !TestMark(s.bits, mark)
    case AddHashOp(ip, id, mark, nodeOk) =>
      && IsRule(s, id) && OffsetInRange(|s.bits|, mark)
      && (|| !TestMark(s.bits, mark) || OverLimit(s) || ip in s.table || !nodeOk
          || (!NeedsFresh(s, id) && mark == s.rules[id - 1].mark))
  }

  /** Rewriting a rule is harmless without entries, or when the mode class stays; otherwise the
      entries must already have the marks that the new mode calls for. */
  ghost predicate ModeChangeOk(s: State, id: nat, r: Rule)
    requires IsRule(s, id)
  {
    var current := s.rules[id - 1];
    || current.count == 0
    || IsPrivate(current) == IsPrivate(r)
    || (IsPrivate(r) && current.count == 1)
    || (!IsPrivate(r) && forall p | p in Members(s.table, id) :: s.table[p].mark == current.mark)
  }

  // -- lookups --

  lemma LiveMarkNonzero(s: State, ip: Ip)
    requires Structural(s)
    ensures FindMark(s, ip) != 0 <==> ip in s.table
  {
  }

  // -- refused allocations --

  lemma UntouchedOwn(s: State, s': State, id: nat)
    requires Own(s) && IsRule(s, id) && Untouched(s, s', id)
    ensures Own(s')
  {
    assert Structural(s');
    assert forall k | 0 <= k < |s.rules| :: s'.rules[k].mode == s.rules[k].mode && s'.rules[k].count == s.rules[k].count;
    forall p, q | p in s'.table && q in s'.table ensures Apart(s', p, q) { assert Apart(s, p, q); }
    forall k | IsRule(s', k) ensures CountOk(s', k) { assert CountOk(s, k); }
    forall p | p in s'.table ensures EntryOk(s', p) { UntouchedEntryOk(s, s', id, p); }
  }

  lemma UntouchedEntryOk(s: State, s': State, id: nat, p: Ip)
    requires Structural(s) && EntriesOk(s) && Counted(s) && IsRule(s, id) && Untouched(s, s', id)
    requires Structural(s') && p in s.table
    ensures EntryOk(s', p)
  {
    assert EntryOk(s, p) && CountOk(s, id);
    assert s.table[p].id == id ==> p in Members(s.table, id);
  }

  // -- rules --

  /** What ownership asks of row id of the rule table, given the entries of that rule. */
  ghost predicate RowFits(s: State, id: nat, r: Rule) {
    var m := Members(s.table, id);
    && r.count == |m|
    && (!IsPrivate(r) ==> forall p | p in m :: s.table[p].mark == r.mark)
    && (IsPrivate(r) ==> forall p, q | p in m && q in m && p != q :: s.table[p].mark != s.table[q].mark)
  }

  /** Own only looks at a rule's mode, mark and count. */
  lemma RuleOwnIff(s: State, id: nat, r: Rule)
    requires Own(s) && IsRule(s, id)
    ensures Own(WithRule(s, id, r)) <==> RowFits(s, id, r)
  {
    assert Structural(WithRule(s, id, r));
    if Own(WithRule(s, id, r)) { RowOfOwn(WithRule(s, id, r), id); }
    if RowFits(s, id, r) { OwnOfRow(s, id, r); }
  }

  lemma RowOfOwn(s: State, id: nat)
    requires Own(s) && IsRule(s, id)
    ensures RowFits(s, id, s.rules[id - 1])
  {
    var m := Members(s.table, id);
    assert CountOk(s, id);
    assert forall p | p in m :: EntryOk(s, p);
    forall p, q | p in m && q in m && p != q && IsPrivate(s.rules[id - 1])
      ensures s.table[p].mark != s.table[q].mark
    {
      assert Apart(s, p, q);
    }
  }

  lemma OwnOfRow(s: State, id: nat, r: Rule)
    requires Own(s) && IsRule(s, id) && RowFits(s, id, r)
    ensures Own(WithRule(s, id, r))
  {
    var s' := WithRule(s, id, r);
    forall p, q | p in s'.table && q in s'.table ensures Apart(s', p, q) { RowApart(s, id, r, p, q); }
    forall k | IsRule(s', k) ensures CountOk(s', k) { assert CountOk(s, k); }
    forall p | p in s'.table ensures EntryOk(s', p) { RowEntryOk(s, id, r, p); }
  }

  lemma RowApart(s: State, id: nat, r: Rule, p: Ip, q: Ip)
    requires Structural(s) && Exclusive(s) && IsRule(s, id) && RowFits(s, id, r) && p in s.table && q in s.table
    ensures Structural(WithRule(s, id, r)) && Apart(WithRule(s, id, r), p, q)
  {
    assert Apart(s, p, q);
    assert p in Members(s.table, id) <==> s.table[p].id == id;
    assert q in Members(s.table, id) <==> s.table[q].id == id;
  }

  lemma RowEntryOk(s: State, id: nat, r: Rule, p: Ip)
    requires Structural(s) && EntriesOk(s) && IsRule(s, id) && RowFits(s, id, r) && p in s.table
    ensures Structural(WithRule(s, id, r)) && EntryOk(WithRule(s, id, r), p)
  {
    assert EntryOk(s, p);
    assert p in Members(s.table, id) <==> s.table[p].id == id;
  }

  lemma AddRuleOwnIff(s: State, id: nat, r: Rule)
    requires Own(s) && IsRule(s, id)
    ensures Own(AddRule(s, id, r)) <==> ModeChangeOk(s, id, r)
  {
    var current := s.rules[id - 1];
    RuleOwnIff(s, id, r.(mark := current.mark, count := current.count, on := true));
    RowOfOwn(s, id);
    assert CountOk(s, id);
    var m := Members(s.table, id);
    if IsPrivate(r) && !IsPrivate(current) && |m| > 1 {
      var p, q := Finite.TwoElements(m);
      assert EntryOk(s, p) && EntryOk(s, q);
    } else if |m| == 1 {
      var p :| p in m;
      Finite.OneElement(m, p);
    }
  }

  lemma DelRuleOwnIff(s: State, id: nat)
    requires Own(s) && IsRule(s, id)
    ensures Own(DelRule(s, id)) <==> s.rules[id - 1].count == 0
  {
    assert CountOk(s, id);
    RuleOwnIff(s, id, EMPTY_RULE);
  }

  // -- wiping one structure but not the others --

  lemma EmptyOwn(s: State)
    requires 1 <= |s.bits| < MAX_SPEC && s.table == map[]
    requires forall i | 0 <= i < |s.bits| :: !s.bits[i]
    requires forall k | 0 <= k < |s.rules| :: s.rules[k].count == 0
    ensures Own(s)
  {
  }

  /** An empty table under ownership: no bit is set and every count is 0. */
  lemma OwnOfEmpty(s: State)
    requires Own(s) && s.table == map[]
    ensures forall i | 0 <= i < |s.bits| :: !s.bits[i]
    ensures forall k | 0 <= k < |s.rules| :: s.rules[k].count == 0
  {
    forall k | 0 <= k < |s.rules| ensures s.rules[k].count == 0 {
      assert CountOk(s, k + 1);
      assert Members(s.table, k + 1) == {};
    }
  }

  lemma FlushRuleOwnIff(s: State)
    requires Own(s)
    ensures Own(FlushRule(s)) <==> s.table == map[]
  {
    if s.table == map[] {
      OwnOfEmpty(s);
      EmptyOwn(FlushRule(s));
    } else {
      var p :| p in s.table;
      assert CountOk(s, s.table[p].id) && p in Members(s.table, s.table[p].id);
      assert !CountOk(FlushRule(s), s.table[p].id);
    }
  }

  lemma FlushHashOwnIff(s: State)
    requires Own(s)
    ensures Own(FlushHash(s)) <==> s.table == map[]
  {
    if s.table != map[] {
      var p :| p in s.table;
      assert s.bits[OffsetOf(s.table[p].mark) - 1] by { assert OffsetOf(s.table[p].mark) in Live(s.table); }
    } else {
      assert FlushHash(s) == s;
    }
  }

  lemma FlushMarkOwnIff(s: State)
    requires Own(s)
    ensures Own(FlushMark(s)) <==> s.table == map[]
  {
    if s.table == map[] {
      OwnOfEmpty(s);
      EmptyOwn(FlushMark(s));
    } else {
      var p :| p in s.table;
      assert OffsetOf(s.table[p].mark) in Live(s.table);
      assert !FlushMark(s).bits[OffsetOf(s.table[p].mark) - 1];
    }
  }

  // -- raw bitmap and table calls --

  lemma AllocMarkOwnIff(s: State)
    requires Own(s)
    ensures Own(s.(bits := AllocMark(s.bits).0)) <==> FirstZero(s.bits, 0) == |s.bits|
  {
    var z := FirstZero(s.bits, 0);
    if z < |s.bits| {
      assert s.bits[z := true][z] != s.bits[z];
    } else {
      assert s.(bits := s.bits) == s;
    }
  }

  lemma FreeMarkOwnIff(s: State, mark: uint32)
    requires Own(s) && OffsetInRange(|s.bits|, mark)
    ensures Own(s.(bits := FreeMark(s.bits, mark))) <==> !TestMark(s.bits, mark)
  {
    var i := OffsetOf(mark) - 1;
    if s.bits[i] {
      assert s.bits[i := false][i] != s.bits[i];
    } else {
      assert s.bits[i := false] == s.bits;
      assert s.(bits := s.bits) == s;
    }
  }

  lemma AddHashOwnIff(s: State, ip: Ip, id: nat, mark: uint32, nodeOk: bool)
    requires Own(s) && IsRule(s, id) && OffsetInRange(|s.bits|, mark)
    ensures Own(TableAdd(s, ip, id, mark, nodeOk).0) <==> Disciplined(s, AddHashOp(ip, id, mark, nodeOk))
  {
    if TestMark(s.bits, mark) && !OverLimit(s) {
      if ip in s.table {
        assert EntryOk(s, ip);
        RecountOwn(s, ip, 1);
      } else if nodeOk {
        InsertedRawOwnIff(s, ip, id, mark);
      }
    }
  }

  lemma InsertedRawOwnIff(s: State, ip: Ip, id: nat, mark: uint32)
    requires Own(s) && IsRule(s, id) && OffsetInRange(|s.bits|, mark) && TestMark(s.bits, mark)
    requires ip !in s.table && |s.table| < |s.bits|
    ensures var s' := AddToRule(s.(table := s.table[ip := Entry(id, mark, 0)]), id, 1);
            Own(s') <==> !NeedsFresh(s, id) && mark == s.rules[id - 1].mark
  {
    var s' := AddToRule(s.(table := s.table[ip := Entry(id, mark, 0)]), id, 1);
    if !NeedsFresh(s, id) && mark == s.rules[id - 1].mark {
      assert s' == Inserted(s, ip, id);
      InsertedOwn(s, ip, id);
    }
    if Own(s') {
      var q :| q in s.table && OffsetOf(s.table[q].mark) == OffsetOf(mark);
      assert EntryOk(s', ip) && EntryOk(s', q) && Apart(s', ip, q);
      assert CountOk(s, id) && q in Members(s.table, id);
    }
  }

  // -- every entry point --

  lemma PacketOwn(s: State, ip: Ip, id: nat, nodeOk: bool)
    requires Own(s) && (ip in s.table || IsRule(s, id))
    ensures PacketOk(s, ip, id) && Own(Packet(s, ip, id, nodeOk).state)
  {
    LiveMarkNonzero(s, ip);
    if ip !in s.table {
      Granted(s, ip, id, nodeOk);
      if AllocAuto(s, ip, id, nodeOk).code == OK {
        InsertedOwn(s, ip, id);
      } else {
        RefusalChangesNothing(s, ip, id, nodeOk);
        UntouchedOwn(s, AllocAuto(s, ip, id, nodeOk).state, id);
      }
    }
  }

  lemma EventOwn(s: State, ev: ConnEvent)
    requires Own(s)
    ensures Own(Event(s, ev).state)
  {
    match Subject(ev.conn)
    case None =>
    case Some(ip) =>
      if ev.destroy {
        ReleaseOwn(s, ip);
      } else if ip in s.table {
        assert EntryOk(s, ip);
        RecountOwn(s, ip, 1);
      }
  }

  /** A reset restores ownership from any structural state, whatever was done to live rules. */
  lemma ResetOwn(s: State, flag: uint32)
    requires Structural(s) && |s.bits| < MAX_SPEC && flag != 0
    ensures Own(Reset(s, flag)) && Reset(s, flag).table == map[] && Reset(s, flag).reset
  {
  }

  lemma ResumeOwn(s: State)
    requires Own(s)
    ensures Own(Reset(s, 0))
  {
    var s' := Reset(s, 0);
    forall p, q | p in s'.table && q in s'.table ensures Apart(s', p, q) { assert Apart(s, p, q); }
    forall p | p in s'.table ensures EntryOk(s', p) { assert EntryOk(s, p); }
    forall k | IsRule(s', k) ensures CountOk(s', k) { assert CountOk(s, k); }
  }

  /** The steps that keep ownership are exactly the disciplined ones. */
  lemma StepOwnIff(s: State, op: Op)
    requires Own(s) && Callable(s, op)
    ensures Own(Step(s, op).state) <==> Disciplined(s, op)
  {
    match op
    case PacketOp(ip, id, nodeOk) =>
      LiveMarkNonzero(s, ip);
      PacketOwn(s, ip, id, nodeOk);
    case EventOp(ev) => EventOwn(s, ev);
    case DelHashOp(ip) => ReleaseOwn(s, ip);
    case ResetOp(flag) => if flag == 0 { ResumeOwn(s); } else { ResetOwn(s, flag); }
    case SetSpecOp(ipSpec, ruleSpec) => if ipSpec < MAX_SPEC { EmptyOwn(SetSpec(s, ipSpec, ruleSpec)); }
    case AddRuleOp(id, r) => AddRuleOwnIff(s, id, r);
    case DelRuleOp(id) => DelRuleOwnIff(s, id);
    case FlushRuleOp => FlushRuleOwnIff(s);
    case FlushHashOp => FlushHashOwnIff(s);
    case FlushMarkOp => FlushMarkOwnIff(s);
    case CheckHashOp(_) =>
    case AllocMarkOp => AllocMarkOwnIff(s);
    case FreeMarkOp(mark) => FreeMarkOwnIff(s, mark);
    case AddHashOp(ip, id, mark, nodeOk) => AddHashOwnIff(s, ip, id, mark, nodeOk);
  }

  /** A disciplined step stays inside the module's arrays and keeps ownership. */
  lemma StepOwn(s: State, op: Op)
    requires Own(s) && Disciplined(s, op)
    ensures Callable(s, op) && Own(Step(s, op).state)
  {
    if op.PacketOp? { PacketOwn(s, op.ip, op.id, op.nodeOk); }
    StepOwnIff(s, op);
  }

  lemma InitialOwn()
    ensures Own(Initial())
  {
  }
}
