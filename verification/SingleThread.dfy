// One packet thread, with events, deletions and resets in between. Share rules are then safe as long as
// no mark is looked for outside the bitmap and found set; the thread itself may get that far.

module SingleThread {
  import opened Word32
  import opened TcIds
  import opened Model
  import opened Ownership
  import opened Allocation
  import opened Discipline
  import opened Concurrent
  import opened Races

  /** The mark was taken and is not stored yet; everything else is in order. */
  ghost predicate Pending(s: State, mark: uint32) {
    OffsetInRange(|s.bits|, mark) && mark % 0x800 == 0 && TestMark(s.bits, mark) && Own(Freed(s, mark))
  }

  /** The mark names no bit, or a clear one. */
  predicate Absent(bits: seq<bool>, mark: uint32) { OffsetInRange(|bits|, mark) ==> !TestMark(bits, mark) }

  /** The mark was given back or wiped since the thread got it. */
  ghost predicate Spent(s: State, mark: uint32) { Own(s) && Absent(s.bits, mark) }

  /** The mark of the share rule as read earlier: still in use, or gone since. */
  ghost predicate Borrowed(s: State, id: nat, mark: uint32)
    requires IsRule(s, id)
  {
    var r := s.rules[id - 1];
    (Own(s) && !IsPrivate(r) && r.count > 0 && r.mark == mark) || Spent(s, mark)
  }

  /** A share rule that is in use, or whose mark is gone. */
  predicate InUseOrGone(r: Rule, bits: seq<bool>) { !IsPrivate(r) && (r.count > 0 || Absent(bits, r.mark)) }

  /** What holds while the one thread is at this point. */
  ghost predicate At1(s: State, pc: Pc) {
    && RuleExists(s, pc)
    && (pc.Missed? || pc.Passed? || pc.Wants? || pc.Shares? || pc.Fresh? || pc.Ready? ==> pc.ip !in s.table)
    && match pc
       case Wants(_, id) => Own(s) && NeedsFresh(s, id)
       case Shares(_, id) => Own(s) && InUseOrGone(s.rules[id - 1], s.bits)
       case Fresh(_, id, mark) =>
         !IsPrivate(s.rules[id - 1]) && s.rules[id - 1].count == 0 && (Pending(s, mark) || Spent(s, mark))
       case Ready(_, id, mark) => Held1(s, id, mark) || Borrowed(s, id, mark)
       case Refused(id, mark) => (Pending(s, mark) && NeedsFresh(s, id)) || Borrowed(s, id, mark)
       case Giving(_, mark) => Own(Freed(s, mark))
       case _ => Own(s)
  }

  /** A fresh mark, published if the rule is a share rule. */
  ghost predicate Held1(s: State, id: nat, mark: uint32)
    requires IsRule(s, id)
  {
    var r := s.rules[id - 1];
    Pending(s, mark) && (IsPrivate(r) || (r.count == 0 && r.mark == mark))
  }

  ghost predicate Inv1(c: System) {
    |c.pcs| <= 1 && (if c.pcs == [] then Own(c.s) else At1(c.s, c.pcs[0]))
  }

  // -- safety --

  lemma OwnSafe(s: State)
    requires Own(s)
    ensures Safe(s)
  {
    forall p | p in s.table ensures TestMark(s.bits, s.table[p].mark) {
      assert OffsetOf(s.table[p].mark) in Live(s.table);
    }
    forall p, q | p in s.table && q in s.table && p != q
      ensures s.table[p].mark == s.table[q].mark <==> s.table[p].id == s.table[q].id && !IsPrivate(s.rules[s.table[p].id - 1])
    {
      assert EntryOk(s, p) && EntryOk(s, q) && Apart(s, p, q);
    }
  }

  /** A bit more does no harm to safety. */
  lemma WithoutSafe(s: State, mark: uint32)
    requires Own(Freed(s, mark))
    ensures Safe(s)
  {
    OwnSafe(Freed(s, mark));
    MoreBitsSafe(Freed(s, mark), s);
  }

  lemma MoreBitsSafe(s0: State, s: State)
    requires Safe(s0) && s0.table == s.table && s0.rules == s.rules && |s0.bits| == |s.bits|
    requires forall i | 0 <= i < |s.bits| :: s0.bits[i] ==> s.bits[i]
    ensures Safe(s)
  {
  }

  lemma Inv1Safe(c: System)
    requires Inv1(c)
    ensures Safe(c.s)
  {
    if c.pcs == [] {
      OwnSafe(c.s);
    } else {
      var pc := c.pcs[0];
      if Holds(pc) && Own(Freed(c.s, pc.mark)) {
        WithoutSafe(c.s, pc.mark);
      } else {
        OwnSafe(c.s);
      }
    }
  }

  // -- the thread's own steps --

  lemma TakePending(s: State)
    requires Own(s) && FirstZero(s.bits, 0) < |s.bits|
    ensures var z := FirstZero(s.bits, 0);
            MarkOf(z + 1) != 0 && Pending(s.(bits := s.bits[z := true]), MarkOf(z + 1))
  {
    var z := FirstZero(s.bits, 0);
    FreshOffset(z + 1);
    var s' := s.(bits := s.bits[z := true]);
    assert FreeMark(s'.bits, MarkOf(z + 1)) == s.bits;
    assert Freed(s', MarkOf(z + 1)) == s;
  }

  lemma TakeInv1(s: State, ip: Ip, id: nat)
    requires At1(s, Wants(ip, id))
    ensures var r := AllocMark(s.bits);
            var s' := s.(bits := r.0);
            if r.1 == 0 then At1(s', Idle)
            else At1(s', if IsPrivate(s.rules[id - 1]) then Ready(ip, id, r.1) else Fresh(ip, id, r.1))
  {
    if FirstZero(s.bits, 0) < |s.bits| { TakePending(s); } else { assert s.(bits := s.bits) == s; }
  }

  /** Rewriting the mark of a rule without entries, or of a private rule. */
  lemma RewriteMark(s: State, id: nat, mark: uint32)
    requires Own(s) && IsRule(s, id) && NeedsFresh(s, id)
    ensures Own(WithRule(s, id, s.rules[id - 1].(mark := mark)))
  {
    RowOfOwn(s, id);
    RuleOwnIff(s, id, s.rules[id - 1].(mark := mark));
    assert CountOk(s, id);
  }

  lemma PublishInv1(s: State, ip: Ip, id: nat, mark: uint32)
    requires At1(s, Fresh(ip, id, mark))
    ensures At1(WithRule(s, id, s.rules[id - 1].(mark := mark)), Ready(ip, id, mark))
  {
    var s' := WithRule(s, id, s.rules[id - 1].(mark := mark));
    if Pending(s, mark) {
      RewriteMark(Freed(s, mark), id, mark);
      assert Freed(s', mark) == WithRule(Freed(s, mark), id, s.rules[id - 1].(mark := mark));
    } else {
      RewriteMark(s, id, mark);
    }
  }

  /** Freeing what is not there changes nothing. */
  lemma FreedAbsent(s: State, mark: uint32)
    requires Absent(s.bits, mark)
    ensures Freed(s, mark) == s
  {
    if OffsetInRange(|s.bits|, mark) { assert FreeMark(s.bits, mark) == s.bits; }
  }

  lemma UndoInv1(s: State, id: nat, mark: uint32)
    requires At1(s, Refused(id, mark))
    ensures if NeedsFresh(s, id) then At1(ClearShareMark(s, id), Giving(id, mark)) else At1(s, Idle)
  {
    if NeedsFresh(s, id) {
      if Spent(s, mark) { FreedAbsent(s, mark); }
      RewriteMark(Freed(s, mark), id, 0);
      assert Freed(ClearShareMark(s, id), mark) == ClearShareMark(Freed(s, mark), id);
    }
  }

  /** The entry under a fresh mark. */
  function Stored(s: State, ip: Ip, id: nat, mark: uint32): State
    requires IsRule(s, id)
  {
    State(s.bits, s.table[ip := Entry(id, mark, 0)], Recounted(s.rules, id, 1), s.reset)
  }

  lemma StoredStructural(s: State, ip: Ip, id: nat, mark: uint32)
    requires Structural(s) && IsRule(s, id) && ip !in s.table && |s.table| < |s.bits| && OffsetInRange(|s.bits|, mark)
    ensures Structural(Stored(s, ip, id, mark))
    ensures forall k | 0 <= k < |s.rules| ::
              Stored(s, ip, id, mark).rules[k].mode == s.rules[k].mode && Stored(s, ip, id, mark).rules[k].mark == s.rules[k].mark
  {
  }

  lemma StoredOwn(s: State, ip: Ip, id: nat, mark: uint32)
    requires IsRule(s, id) && Held1(s, id, mark) && ip !in s.table && |s.table| < |s.bits|
    ensures Own(Stored(s, ip, id, mark))
  {
    var s0, s' := Freed(s, mark), Stored(s, ip, id, mark);
    StoredStructural(s, ip, id, mark);
    StoredBits(s, ip, id, mark);
    forall p, q | p in s'.table && q in s'.table ensures Apart(s', p, q) { StoredApart(s, ip, id, mark, p, q); }
    forall p | p in s'.table ensures EntryOk(s', p) { assert p != ip ==> EntryOk(s0, p); }
    forall k | IsRule(s, k) ensures CountOk(s, k) { assert CountOk(s0, k); }
    StoredCounted(s, ip, id, mark);
  }

  lemma StoredBits(s: State, ip: Ip, id: nat, mark: uint32)
    requires IsRule(s, id) && Pending(s, mark) && ip !in s.table
    ensures BitsAreLive(Stored(s, ip, id, mark))
  {
    var s0, off := Freed(s, mark), OffsetOf(mark);
    InsertEntry(s.table, ip, Entry(id, mark, 0));
    SetBit(s0.bits, Live(s.table), off);
    assert s0.bits[off - 1 := true] == s.bits;
  }

  lemma StoredApart(s: State, ip: Ip, id: nat, mark: uint32, p: Ip, q: Ip)
    requires IsRule(s, id) && Held1(s, id, mark) && ip !in s.table && Structural(Stored(s, ip, id, mark))
    requires p in Stored(s, ip, id, mark).table && q in Stored(s, ip, id, mark).table
    ensures Apart(Stored(s, ip, id, mark), p, q)
  {
    var s0 := Freed(s, mark);
    assert !s0.bits[OffsetOf(mark) - 1];
    if p != ip && q != ip {
      assert Apart(s0, p, q);
    } else if p != q {
      var o := if p == ip then q else p;
      assert OffsetOf(s.table[o].mark) in Live(s.table);
    }
  }

  lemma StoredCounted(s: State, ip: Ip, id: nat, mark: uint32)
    requires Counted(s) && IsRule(s, id) && ip !in s.table
    ensures Counted(Stored(s, ip, id, mark))
  {
    var s' := Stored(s, ip, id, mark);
    InsertEntry(s.table, ip, s'.table[ip]);
    forall k | IsRule(s', k) ensures CountOk(s', k) {
      assert CountOk(s, k);
      if k != id { assert Members(s'.table, k) == Members(s.table, k); }
    }
  }

  /** A second entry under the mark that the share rule has in use. */
  lemma JoinedOwn(s: State, ip: Ip, id: nat, mark: uint32)
    requires IsRule(s, id) && Borrowed(s, id, mark) && !Absent(s.bits, mark)
    requires ip !in s.table && |s.table| < |s.bits|
    ensures Own(Stored(s, ip, id, mark))
  {
    InsertedOwn(s, ip, id);
    assert Stored(s, ip, id, mark) == Inserted(s, ip, id);
  }

  lemma InsertInv1(s: State, ip: Ip, id: nat, mark: uint32, nodeOk: bool, stray: bool)
    requires At1(s, Ready(ip, id, mark)) && (stray ==> OffsetInRange(|s.bits|, mark))
    ensures var r := TryInsert(s, ip, id, mark, nodeOk, stray);
            At1(r.0, if r.1 == OK then Added(id, mark) else Refused(id, mark))
  {
    var r := TryInsert(s, ip, id, mark, nodeOk, stray);
    if r.1 == OK {
      assert r.0 == Stored(s, ip, id, mark);
      if Held1(s, id, mark) { StoredOwn(s, ip, id, mark); } else { JoinedOwn(s, ip, id, mark); }
    } else {
      assert r.0 == s;
    }
  }

  // -- events and deletions in between --

  /** The reference dropped is the last one of an entry. */
  predicate Last(s: State, ip: Ip) { ip in s.table && s.table[ip].count <= 1 }

  /** What dropping a reference leaves alone. */
  lemma ReleaseFrame(s: State, ip: Ip)
    requires Structural(s)
    ensures var s' := Release(s, ip).state;
            && Structural(s') && |s'.bits| == |s.bits| && |s'.rules| == |s.rules|
            && (forall p | p in s'.table :: p in s.table)
            && (forall i | 0 <= i < |s.bits| && s'.bits[i] :: s.bits[i])
            && (forall k | 0 <= k < |s.rules| :: s'.rules[k].mode == s.rules[k].mode)
            && (forall k | 0 <= k < |s.rules| && !(Last(s, ip) && s.table[ip].id == k + 1) :: s'.rules[k] == s.rules[k])
  {
    ReleaseStructural(s, ip);
    if Last(s, ip) { ReleaseRemoves(s, ip); }
  }

  lemma ReleaseWithout(s: State, ip: Ip, mark: uint32)
    requires Structural(s)
    ensures Release(Freed(s, mark), ip).state == Freed(Release(s, ip).state, mark)
  {
    var s0 := Freed(s, mark);
    if Last(s, ip) {
      ReleaseRemoves(s, ip);
      ReleaseRemoves(s0, ip);
      if OffsetInRange(|s.bits|, mark) { ClearTwice(s.bits, mark, s.table[ip].mark); }
    }
  }

  lemma ClearTwice(bits: seq<bool>, m1: uint32, m2: uint32)
    requires OffsetInRange(|bits|, m1) && OffsetInRange(|bits|, m2)
    ensures FreeMark(FreeMark(bits, m1), m2) == FreeMark(FreeMark(bits, m2), m1)
  {
  }

  lemma ReleasePending(s: State, ip: Ip, mark: uint32)
    requires Structural(s) && Pending(s, mark)
    ensures Pending(Release(s, ip).state, mark)
  {
    ReleaseOwn(Freed(s, mark), ip);
    ReleaseWithout(s, ip, mark);
    if Last(s, ip) {
      ReleaseRemoves(s, ip);
      OtherOffset(Freed(s, mark), ip, mark);
    }
  }

  /** An entry's bit is set. */
  lemma OtherOffset(s: State, ip: Ip, mark: uint32)
    requires Structural(s) && BitsAreLive(s) && ip in s.table && OffsetInRange(|s.bits|, mark) && !TestMark(s.bits, mark)
    ensures OffsetOf(s.table[ip].mark) != OffsetOf(mark)
  {
    assert OffsetOf(s.table[ip].mark) in Live(s.table);
  }

  /** A rule without entries is not touched. */
  lemma ReleaseIdleRule(s: State, ip: Ip, id: nat)
    requires Structural(s) && Counted(s) && IsRule(s, id) && s.rules[id - 1].count == 0
    ensures IsRule(Release(s, ip).state, id) && Release(s, ip).state.rules[id - 1] == s.rules[id - 1]
  {
    ReleaseFrame(s, ip);
    assert CountOk(s, id);
    assert ip in s.table && s.table[ip].id == id ==> ip in Members(s.table, id);
  }

  lemma CountedWithout(s: State, mark: uint32)
    requires Own(Freed(s, mark))
    ensures Structural(s) && Counted(s)
  {
    forall k | IsRule(s, k) ensures CountOk(s, k) { assert CountOk(Freed(s, mark), k); }
  }

  /** The share rule's mark: still in use, or given back and cleared. */
  lemma ReleaseRuleMark(s: State, ip: Ip, id: nat)
    requires Own(s) && IsRule(s, id) && !IsPrivate(s.rules[id - 1]) && s.rules[id - 1].count > 0
    ensures var s' := Release(s, ip).state;
            && IsRule(s', id)
            && (if s'.rules[id - 1].count > 0 then s'.rules[id - 1].mark == s.rules[id - 1].mark
                else s'.rules[id - 1].mark == 0 && OffsetInRange(|s'.bits|, s.rules[id - 1].mark)
                     && !TestMark(s'.bits, s.rules[id - 1].mark))
  {
    ReleaseFrame(s, ip);
    if Last(s, ip) && s.table[ip].id == id {
      ReleaseRemoves(s, ip);
      assert EntryOk(s, ip);
    }
  }

  lemma ReleaseSpent(s: State, ip: Ip, mark: uint32)
    requires Spent(s, mark)
    ensures Spent(Release(s, ip).state, mark)
  {
    ReleaseFrame(s, ip);
    ReleaseOwn(s, ip);
  }

  lemma ReleaseBorrowed(s: State, ip: Ip, id: nat, mark: uint32)
    requires IsRule(s, id) && Borrowed(s, id, mark)
    ensures IsRule(Release(s, ip).state, id) && Borrowed(Release(s, ip).state, id, mark)
  {
    ReleaseFrame(s, ip);
    if Spent(s, mark) {
      ReleaseSpent(s, ip, mark);
    } else {
      ReleaseOwn(s, ip);
      ReleaseRuleMark(s, ip, id);
      assert CountOk(Release(s, ip).state, id);
    }
  }

  lemma ReleaseHeld1(s: State, ip: Ip, id: nat, mark: uint32)
    requires IsRule(s, id) && Held1(s, id, mark)
    ensures IsRule(Release(s, ip).state, id) && Held1(Release(s, ip).state, id, mark)
  {
    CountedWithout(s, mark);
    ReleaseFrame(s, ip);
    ReleasePending(s, ip, mark);
    if s.rules[id - 1].count == 0 { ReleaseIdleRule(s, ip, id); }
  }

  lemma ReleaseRefused(s: State, ip: Ip, id: nat, mark: uint32)
    requires IsRule(s, id) && Pending(s, mark) && NeedsFresh(s, id)
    ensures IsRule(Release(s, ip).state, id) && Pending(Release(s, ip).state, mark) && NeedsFresh(Release(s, ip).state, id)
  {
    CountedWithout(s, mark);
    ReleaseFrame(s, ip);
    ReleasePending(s, ip, mark);
    if s.rules[id - 1].count == 0 { ReleaseIdleRule(s, ip, id); }
  }

  lemma ReleaseSharesRule(s: State, ip: Ip, id: nat)
    requires Own(s) && IsRule(s, id) && InUseOrGone(s.rules[id - 1], s.bits)
    ensures IsRule(Release(s, ip).state, id) && InUseOrGone(Release(s, ip).state.rules[id - 1], Release(s, ip).state.bits)
  {
    ReleaseFrame(s, ip);
    assert CountOk(s, id);
    if s.rules[id - 1].count > 0 { ReleaseRuleMark(s, ip, id); } else { ReleaseIdleRule(s, ip, id); }
  }

  lemma ReleaseShares(s: State, ip: Ip, pc: Pc)
    requires pc.Shares? && At1(s, pc)
    ensures At1(Release(s, ip).state, pc)
  {
    ReleaseFrame(s, ip);
    ReleaseOwn(s, ip);
    ReleaseSharesRule(s, ip, pc.id);
  }

  lemma At1Structural(s: State, pc: Pc)
    requires At1(s, pc)
    ensures Structural(s)
  {
    if Holds(pc) && Own(Freed(s, pc.mark)) { CountedWithout(s, pc.mark); }
  }

  lemma ReleaseWants(s: State, ip: Ip, pc: Pc)
    requires pc.Wants? && At1(s, pc)
    ensures At1(Release(s, ip).state, pc)
  {
    ReleaseFrame(s, ip);
    ReleaseOwn(s, ip);
    if s.rules[pc.id - 1].count == 0 { ReleaseIdleRule(s, ip, pc.id); }
  }

  lemma ReleaseFresh(s: State, ip: Ip, pc: Pc)
    requires pc.Fresh? && At1(s, pc)
    ensures Structural(s) && At1(Release(s, ip).state, pc)
  {
    if Pending(s, pc.mark) {
      CountedWithout(s, pc.mark);
      ReleasePending(s, ip, pc.mark);
    } else {
      ReleaseSpent(s, ip, pc.mark);
    }
    ReleaseFrame(s, ip);
    ReleaseIdleRule(s, ip, pc.id);
  }

  lemma ReleaseGiving(s: State, ip: Ip, pc: Pc)
    requires pc.Giving? && At1(s, pc)
    ensures Structural(s) && At1(Release(s, ip).state, pc)
  {
    CountedWithout(s, pc.mark);
    ReleaseFrame(s, ip);
    ReleaseOwn(Freed(s, pc.mark), ip);
    ReleaseWithout(s, ip, pc.mark);
  }

  lemma ReleaseInv1(s: State, pc: Pc, ip: Ip)
    requires At1(s, pc)
    ensures Structural(s) && At1(Release(s, ip).state, pc)
  {
    At1Structural(s, pc);
    match pc
    case Wants(_, _) => ReleaseWants(s, ip, pc);
    case Shares(_, _) => ReleaseShares(s, ip, pc);
    case Fresh(_, _, _) => ReleaseFresh(s, ip, pc);
    case Giving(_, _) => ReleaseGiving(s, ip, pc);
    case Ready(_, id, mark) =>
      ReleaseFrame(s, ip);
      if Held1(s, id, mark) { ReleaseHeld1(s, ip, id, mark); } else { ReleaseBorrowed(s, ip, id, mark); }
    case Refused(id, mark) =>
      ReleaseFrame(s, ip);
      if Borrowed(s, id, mark) { ReleaseBorrowed(s, ip, id, mark); } else { ReleaseRefused(s, ip, id, mark); }
    case _ =>
      ReleaseFrame(s, ip);
      ReleaseOwn(s, ip);
  }

  lemma CountUpWithout(s: State, ip: Ip, mark: uint32)
    requires Structural(s) && ip in s.table
    ensures AddToEntry(Freed(s, mark), ip, 1) == Freed(AddToEntry(s, ip, 1), mark)
    ensures Own(Freed(s, mark)) ==> Own(Freed(AddToEntry(s, ip, 1), mark))
  {
    if Own(Freed(s, mark)) {
      assert EntryOk(Freed(s, mark), ip);
      RecountOwn(Freed(s, mark), ip, 1);
    }
  }

  lemma CountUpInv1(s: State, pc: Pc, ip: Ip)
    requires At1(s, pc) && ip in s.table
    ensures At1(AddToEntry(s, ip, 1), pc)
  {
    At1Structural(s, pc);
    if Own(s) {
      assert EntryOk(s, ip);
      RecountOwn(s, ip, 1);
    }
    if Holds(pc) { CountUpWithout(s, ip, pc.mark); }
  }

  lemma EventInv1(s: State, pc: Pc, ev: ConnEvent)
    requires At1(s, pc)
    ensures Structural(s) && At1(Event(s, ev).state, pc)
  {
    At1Structural(s, pc);
    match Subject(ev.conn)
    case None =>
    case Some(ip) =>
      if ev.destroy {
        ReleaseInv1(s, pc, ip);
      } else if ev.markChanged && ip in s.table {
        CountUpInv1(s, pc, ip);
      }
  }

  // -- resets in between --

  lemma FlagOwn(s: State, flag: bool)
    requires Own(s)
    ensures Own(s.(reset := flag))
  {
    var s' := s.(reset := flag);
    forall p, q | p in s'.table && q in s'.table ensures Apart(s', p, q) { assert Apart(s, p, q); }
    forall p | p in s'.table ensures EntryOk(s', p) { assert EntryOk(s, p); }
    forall id | IsRule(s', id) ensures CountOk(s', id) { assert CountOk(s, id); }
  }

  lemma FlagInv1(s: State, pc: Pc, flag: bool)
    requires At1(s, pc)
    ensures At1(s.(reset := flag), pc)
  {
    if Own(s) { FlagOwn(s, flag); }
    if Holds(pc) && Own(Freed(s, pc.mark)) {
      FlagOwn(Freed(s, pc.mark), flag);
      assert Freed(s.(reset := flag), pc.mark) == Freed(s, pc.mark).(reset := flag);
    }
  }

  /** A wipe leaves nothing in use; a mark that the thread holds across it is spent. */
  lemma WipeInv1(s: State, pc: Pc)
    requires At1(s, pc)
    ensures At1(Wiped(s), pc)
  {
    var s' := Wiped(s);
    At1Bits(s, pc);
    EmptyOwn(s');
    if Holds(pc) { FreedAbsent(s', pc.mark); }
  }

  lemma At1Bits(s: State, pc: Pc)
    requires At1(s, pc)
    ensures 1 <= |s.bits| < MAX_SPEC
  {
    At1Structural(s, pc);
  }

  lemma ResetInv1(c: System, a: Act)
    requires Inv1(c) && Structural(c.s) && Enabled(c, a) && IsReset(a)
    ensures Inv1(Next(c, a))
  {
    if c.pcs == [] {
      if a.Wipe? { EmptyOwn(Wiped(c.s)); } else { FlagOwn(c.s, a.Raise?); }
    } else {
      if a.Wipe? { WipeInv1(c.s, c.pcs[0]); } else { FlagInv1(c.s, c.pcs[0], a.Raise?); }
    }
  }

  // -- steps and runs --

  lemma FindInv1(s: State, ip: Ip, id: nat)
    requires Own(s) && IsRule(s, id)
    ensures FindMark(s, ip) == 0 ==> At1(s, Missed(ip, id))
  {
    LiveMarkNonzero(s, ip);
  }

  lemma ReadRuleInv1(s: State, ip: Ip, id: nat)
    requires At1(s, Passed(ip, id))
    ensures At1(s, if NeedsFresh(s, id) then Wants(ip, id) else Shares(ip, id))
  {
    assert CountOk(s, id);
  }

  /** The thread looks something up, or is done. */
  lemma LookInv1(c: System, a: Act)
    requires Inv1(c) && Structural(c.s) && Enabled(c, a)
    requires a.Find? || a.CheckReset? || a.ReadRule? || a.ReadMark? || a.Announce?
    ensures Inv1(Next(c, a))
  {
    match a
    case Find(_, ip, id) => FindInv1(c.s, ip, id);
    case ReadRule(_) => ReadRuleStep1(c, a);
    case ReadMark(_) => ReadMarkStep1(c, a);
    case CheckReset(_) =>
    case Announce(_) =>
  }

  lemma ReadRuleStep1(c: System, a: Act)
    requires Inv1(c) && Structural(c.s) && Enabled(c, a) && a.ReadRule?
    ensures Inv1(Next(c, a))
  {
    ReadRuleInv1(c.s, c.pcs[0].ip, c.pcs[0].id);
  }

  lemma ReadMarkStep1(c: System, a: Act)
    requires Inv1(c) && Structural(c.s) && Enabled(c, a) && a.ReadMark?
    ensures Inv1(Next(c, a))
  {
  }

  lemma InsertStep1(c: System, a: Act)
    requires Inv1(c) && Structural(c.s) && Enabled(c, a) && a.Insert? && StrayClear(c, a)
    ensures Inv1(Next(c, a))
  {
    var pc := c.pcs[0];
    InsertInv1(c.s, pc.ip, pc.id, pc.mark, a.nodeOk, a.stray);
  }

  lemma TakeStep1(c: System, a: Act)
    requires Inv1(c) && Structural(c.s) && Enabled(c, a) && a.Take?
    ensures Inv1(Next(c, a))
  {
    TakeInv1(c.s, c.pcs[0].ip, c.pcs[0].id);
  }

  /** The thread publishes, withdraws or frees a mark. */
  lemma RestStep1(c: System, a: Act)
    requires Inv1(c) && Structural(c.s) && Enabled(c, a) && (a.Publish? || a.Undo? || a.Free?)
    ensures Inv1(Next(c, a))
  {
    var s, pc := c.s, c.pcs[0];
    match a
    case Publish(_) => PublishInv1(s, pc.ip, pc.id, pc.mark);
    case Undo(_) => UndoInv1(s, pc.id, pc.mark);
    case _ =>
  }

  lemma BetweenInv1(c: System, a: Act)
    requires Inv1(c) && Structural(c.s) && Enabled(c, a) && (a.Conntrack? || a.Delete?)
    ensures Inv1(Next(c, a))
  {
    match a
    case Conntrack(ev) => if c.pcs == [] { EventOwn(c.s, ev); } else { EventInv1(c.s, c.pcs[0], ev); }
    case Delete(ip) => if c.pcs == [] { ReleaseOwn(c.s, ip); } else { ReleaseInv1(c.s, c.pcs[0], ip); }
  }

  lemma StepInv1(c: System, a: Act)
    requires Inv1(c) && Structural(c.s) && Enabled(c, a) && StrayClear(c, a)
    ensures Inv1(Next(c, a))
  {
    if IsReset(a) {
      ResetInv1(c, a);
    } else if a.Conntrack? || a.Delete? {
      BetweenInv1(c, a);
    } else if a.Insert? {
      InsertStep1(c, a);
    } else if a.Take? {
      TakeStep1(c, a);
    } else if a.Publish? || a.Undo? || a.Free? {
      RestStep1(c, a);
    } else {
      LookInv1(c, a);
    }
  }

  lemma {:induction false} RunInv1(c: System, acts: seq<Act>)
    requires Inv1(c) && CanRun(c, acts) && StraysClear(c, acts)
    ensures Inv1(After(c, acts))
    decreases |acts|
  {
    if acts == [] {
    } else {
      StepInv1(c, acts[0]);
      RunInv1(Next(c, acts[0]), acts[1..]);
    }
  }

  /**
   * At most one packet thread, in every mode and with resets at any moment: safe up to the first insertion
   * that looks for its mark's bit outside the bitmap and finds it set.
   */
  lemma SafeUntilStray(c: System, acts: seq<Act>)
    requires Start(c) && |c.pcs| <= 1 && CanRun(c, acts) && StraysClear(c, acts)
    ensures Safe(After(c, acts).s)
  {
    EmptyOwn(c.s);
    RunInv1(c, acts);
    Inv1Safe(After(c, acts));
  }

  /**
   * Without resets, and as long as no bit outside the bitmap is found set: every interleaving is safe if
   * and only if there is at most one packet thread, or no share rule, or the reset flag blocks all
   * allocation. Races.SafeIff says what is left of this when such a bit can be set.
   */
  lemma SafeUntilStrayIff(c: System)
    requires Start(c)
    ensures (forall acts | CanRun(c, acts) && NoReset(acts) && StraysClear(c, acts) :: Safe(After(c, acts).s))
            <==> |c.pcs| <= 1 || AllPrivate(c.s) || c.s.reset
  {
    if |c.pcs| <= 1 || AllPrivate(c.s) || c.s.reset {
      forall acts | CanRun(c, acts) && NoReset(acts) && StraysClear(c, acts) ensures Safe(After(c, acts).s) {
        if |c.pcs| <= 1 { SafeUntilStray(c, acts); } else { NoResetSafe(c, acts); }
      }
    } else {
      var id := ShareRule(c.s);
      var acts := ShareRaces(c, id);
      PlainStrays(c, acts);
    }
  }
}
