// qmark_alloc_mark_auto: when it refuses, what a refusal leaves behind, and that a
// success keeps ownership.

module Allocation {
  import opened Word32
  import opened TcIds
  import opened Model
  import opened Ownership
  import Finite

  /** The mark a successful allocation hands out. */
  function GrantedMark(s: State, id: nat): uint32
    requires IsRule(s, id)
  {
    if NeedsFresh(s, id) then MarkOf(FirstZero(s.bits, 0) + 1) else s.rules[id - 1].mark
  }

  /** The state once the mark is chosen, before the entry is inserted. */
  function Marked(s: State, id: nat): State
    requires IsRule(s, id) && (NeedsFresh(s, id) ==> FirstZero(s.bits, 0) < |s.bits|)
  {
    var r := s.rules[id - 1];
    if NeedsFresh(s, id) then
      State(s.bits[FirstZero(s.bits, 0) := true], s.table,
            if IsPrivate(r) then s.rules else s.rules[id - 1 := r.(mark := GrantedMark(s, id))], s.reset)
    else s
  }

  /** The state after a successful allocation for a new address. */
  function Inserted(s: State, ip: Ip, id: nat): State
    requires IsRule(s, id) && (NeedsFresh(s, id) ==> FirstZero(s.bits, 0) < |s.bits|)
  {
    var s1 := Marked(s, id);
    var r := s1.rules[id - 1];
    State(s1.bits, s1.table[ip := Entry(id, GrantedMark(s, id), 0)],
          s1.rules[id - 1 := r.(count := r.count + 1)], s1.reset)
  }

  /** The allocator either takes the first clear bit and reports its mark, or does nothing, unless
      the mark is truncated to 0: then the bit is taken and the call still reports failure. */
  lemma AllocMarkLosesBitIff(bits: seq<bool>)
    ensures AllocMark(bits).1 == 0 && AllocMark(bits).0 != bits <==>
            FirstZero(bits, 0) < |bits| && MarkOf(FirstZero(bits, 0) + 1) == 0
  {
  }

  /** The offsets whose mark is truncated to 0. */
  lemma MarkZeroIff(offset: nat)
    ensures MarkOf(offset) == 0 <==> offset % 0x20_0000 == 0
  {
  }

  // -- all or nothing --

  /** Nothing changed, except that the unused mark of rule id may have been zeroed. */
  predicate Untouched(s: State, s': State, id: nat)
    requires IsRule(s, id)
  {
    && s'.bits == s.bits && s'.table == s.table && s'.reset == s.reset
    && (s'.rules == s.rules
        || (NeedsFresh(s, id) && s'.rules == s.rules[id - 1 := s.rules[id - 1].(mark := 0)]))
  }

  /**
   * A refused allocation changes nothing that is in use, for whatever reason it is refused and
   * in either mode. This needs no ownership: any structural state within the mark width will do.
   */
  lemma RefusalChangesNothing(s: State, ip: Ip, id: nat, nodeOk: bool)
    requires Structural(s) && IsRule(s, id) && ShareMarkUsable(s, id) && |s.bits| < MAX_SPEC
    requires AllocAuto(s, ip, id, nodeOk).code != OK
    ensures Untouched(s, AllocAuto(s, ip, id, nodeOk).state, id)
    ensures AllocAuto(s, ip, id, nodeOk).msgs == []
  {
    if !s.reset && (NeedsFresh(s, id) ==> FirstZero(s.bits, 0) < |s.bits|) {
      Taken(s, id);
      var s1, mark := Marked(s, id), GrantedMark(s, id);
      assert TableAdd(s1, ip, id, mark, nodeOk).0 == s1;
      if NeedsFresh(s, id) {
        assert FreeMark(s1.bits, mark) == s.bits;
        assert ClearShareMark(s1, id).rules == s.rules[id - 1 := s.rules[id - 1].(mark := 0)];
      }
    }
  }

  lemma Taken(s: State, id: nat)
    requires IsRule(s, id) && ShareMarkUsable(s, id) && |s.bits| < MAX_SPEC
    requires NeedsFresh(s, id) ==> FirstZero(s.bits, 0) < |s.bits|
    ensures TakeMark(s, id) == (Marked(s, id), GrantedMark(s, id))
    ensures GrantedMark(s, id) != 0 && OffsetInRange(|s.bits|, GrantedMark(s, id))
    ensures NeedsFresh(s, id) ==> OffsetOf(GrantedMark(s, id)) == FirstZero(s.bits, 0) + 1
  {
  }

  // -- when it refuses --

  lemma {:induction false} LiveSize(t: map<Ip, Entry>)
    ensures |Live(t)| <= |t|
    decreases |t|
  {
    if t.Keys == {} {
      assert Live(t) == {};
    } else {
      var ip :| ip in t;
      assert |(t - {ip}).Keys| < |t.Keys| by { assert (t - {ip}).Keys == t.Keys - {ip}; }
      LiveSize(t - {ip});
      RemoveEntry(t, ip);
      assert |t| == |t - {ip}| + 1 by { assert (t - {ip}).Keys == t.Keys - {ip}; }
    }
  }

  /** Pigeonhole: while the table has room the bitmap has a clear bit, shared marks or not. */
  lemma RoomMeansClearBit(s: State)
    requires Own(s) && |s.table| < |s.bits|
    ensures FirstZero(s.bits, 0) < |s.bits|
  {
    if FirstZero(s.bits, 0) == |s.bits| {
      forall k | 1 <= k <= |s.bits| ensures k in Live(s.table) {
        assert s.bits[k - 1];
      }
      Finite.CoversRange(Live(s.table), |s.bits|);
      LiveSize(s.table);
    }
  }

  /** The mark of a share rule that has entries is theirs, so its bit is set. */
  lemma ShareMarkLive(s: State, id: nat) returns (p: Ip)
    requires Own(s) && IsRule(s, id) && !NeedsFresh(s, id)
    ensures OffsetInRange(|s.bits|, s.rules[id - 1].mark)
    ensures TestMark(s.bits, s.rules[id - 1].mark)
    ensures p in s.table && s.table[p].id == id && s.table[p].mark == s.rules[id - 1].mark
  {
    assert CountOk(s, id);
    p :| p in Members(s.table, id);
    assert EntryOk(s, p);
    assert OffsetOf(s.table[p].mark) in Live(s.table);
  }

  /**
   * The exact refusal condition. For an address without an entry the allocation fails if and only
   * if the module is being reset, the table is full, or the node cannot be allocated. Running out
   * of marks is never the reason, even with private and share rules mixed.
   */
  lemma RefusedIff(s: State, ip: Ip, id: nat, nodeOk: bool)
    requires Own(s) && IsRule(s, id) && ip !in s.table
    ensures ShareMarkUsable(s, id)
    ensures AllocAuto(s, ip, id, nodeOk).code != OK <==> s.reset || |s.table| == |s.bits| || !nodeOk
  {
    Granted(s, ip, id, nodeOk);
  }

  lemma Granted(s: State, ip: Ip, id: nat, nodeOk: bool)
    requires Own(s) && IsRule(s, id) && ip !in s.table
    ensures ShareMarkUsable(s, id)
    ensures var o := AllocAuto(s, ip, id, nodeOk);
            if s.reset || |s.table| == |s.bits| || !nodeOk then o.code != OK
            else
              && (NeedsFresh(s, id) ==> FirstZero(s.bits, 0) < |s.bits|)
              && o == Outcome(Inserted(s, ip, id), OK, GrantedMark(s, id),
                              AddMsgs(Inserted(s, ip, id).rules[id - 1], GrantedMark(s, id)))
  {
    if |s.table| < |s.bits| { RoomMeansClearBit(s); }
    if !NeedsFresh(s, id) {
      var p := ShareMarkLive(s, id);
    }
    if NeedsFresh(s, id) ==> FirstZero(s.bits, 0) < |s.bits| {
      Taken(s, id);
      AddMarked(s, ip, id, nodeOk);
    }
  }

  /** Inserting a mark whose bit is set fails only for want of room or of memory. */
  lemma AddMarked(s: State, ip: Ip, id: nat, nodeOk: bool)
    requires IsRule(s, id) && ip !in s.table && |s.table| <= |s.bits| < MAX_SPEC
    requires NeedsFresh(s, id) ==> FirstZero(s.bits, 0) < |s.bits|
    requires OffsetInRange(|s.bits|, GrantedMark(s, id)) && TestMark(Marked(s, id).bits, GrantedMark(s, id))
    ensures var mark := GrantedMark(s, id);
            var o := AddAllocated(Marked(s, id), ip, id, mark, nodeOk);
            if |s.table| == |s.bits| || !nodeOk then o.code != OK
            else o == Outcome(Inserted(s, ip, id), OK, mark, AddMsgs(Inserted(s, ip, id).rules[id - 1], mark))
  {
    if |s.table| < |s.bits| && nodeOk {
      assert TableAdd(Marked(s, id), ip, id, GrantedMark(s, id), nodeOk) == (Inserted(s, ip, id), OK);
    }
  }

  // -- a success keeps ownership --

  lemma InsertedOwn(s: State, ip: Ip, id: nat)
    requires Own(s) && IsRule(s, id) && ip !in s.table && |s.table| < |s.bits|
    requires NeedsFresh(s, id) ==> FirstZero(s.bits, 0) < |s.bits|
    ensures Own(Inserted(s, ip, id))
  {
    var s' := Inserted(s, ip, id);
    InsertedBits(s, ip, id);
    GrantedFacts(s, id);
    InsertedStructural(s, ip, id);
    forall p, q | p in s'.table && q in s'.table ensures Apart(s', p, q) { InsertedApart(s, ip, id, p, q); }
    forall p | p in s'.table ensures EntryOk(s', p) { InsertedEntryOk(s, ip, id, p); }
    InsertedCounted(s, ip, id);
  }

  lemma InsertedStructural(s: State, ip: Ip, id: nat)
    requires Structural(s) && IsRule(s, id) && ip !in s.table && |s.table| < |s.bits|
    requires NeedsFresh(s, id) ==> FirstZero(s.bits, 0) < |s.bits|
    requires OffsetInRange(|s.bits|, GrantedMark(s, id))
    ensures Structural(Inserted(s, ip, id))
    ensures forall k | 0 <= k < |s.rules| :: Inserted(s, ip, id).rules[k].mode == s.rules[k].mode
  {
  }

  lemma InsertedCounted(s: State, ip: Ip, id: nat)
    requires Counted(s) && IsRule(s, id) && ip !in s.table
    requires NeedsFresh(s, id) ==> FirstZero(s.bits, 0) < |s.bits|
    ensures Counted(Inserted(s, ip, id))
  {
    var s' := Inserted(s, ip, id);
    InsertEntry(s.table, ip, s'.table[ip]);
    forall k | IsRule(s', k) ensures CountOk(s', k) {
      assert CountOk(s, k);
      if k != id { assert Members(s'.table, k) == Members(s.table, k); }
    }
  }

  lemma InsertedApart(s: State, ip: Ip, id: nat, p: Ip, q: Ip)
    requires Own(s) && IsRule(s, id) && ip !in s.table && |s.table| < |s.bits|
    requires NeedsFresh(s, id) ==> FirstZero(s.bits, 0) < |s.bits|
    requires Structural(Inserted(s, ip, id))
    requires p in Inserted(s, ip, id).table && q in Inserted(s, ip, id).table
    ensures Apart(Inserted(s, ip, id), p, q)
  {
    if p != ip && q != ip {
      assert Apart(s, p, q);
    } else if p != q {
      NewcomerApart(s, ip, id, if p == ip then q else p);
    }
  }

  lemma InsertedBits(s: State, ip: Ip, id: nat)
    requires Own(s) && IsRule(s, id) && ip !in s.table
    requires NeedsFresh(s, id) ==> FirstZero(s.bits, 0) < |s.bits|
    ensures BitsAreLive(Inserted(s, ip, id))
  {
    var e := Entry(id, GrantedMark(s, id), 0);
    InsertEntry(s.table, ip, e);
    GrantedFacts(s, id);
    if NeedsFresh(s, id) {
      SetBit(s.bits, Live(s.table), OffsetOf(e.mark));
    }
  }

  lemma GrantedFacts(s: State, id: nat)
    requires Own(s) && IsRule(s, id)
    requires NeedsFresh(s, id) ==> FirstZero(s.bits, 0) < |s.bits|
    ensures OffsetInRange(|s.bits|, GrantedMark(s, id)) && GrantedMark(s, id) % 0x800 == 0
    ensures NeedsFresh(s, id) ==> OffsetOf(GrantedMark(s, id)) == FirstZero(s.bits, 0) + 1
    ensures NeedsFresh(s, id) <==> OffsetOf(GrantedMark(s, id)) !in Live(s.table)
  {
    if NeedsFresh(s, id) {
      FreshOffset(FirstZero(s.bits, 0) + 1);
    } else {
      var p := ShareMarkLive(s, id);
      assert EntryOk(s, p);
      assert OffsetOf(s.table[p].mark) in Live(s.table);
    }
  }

  lemma FreshOffset(off: nat)
    requires 1 <= off < MAX_SPEC
    ensures OffsetOf(MarkOf(off)) == off && MarkOf(off) % 0x800 == 0
  {
  }

  /** The new entry meets an old one on a mark only inside one share rule. */
  lemma NewcomerApart(s: State, ip: Ip, id: nat, q: Ip)
    requires Own(s) && IsRule(s, id) && ip !in s.table && q in s.table
    requires NeedsFresh(s, id) ==> FirstZero(s.bits, 0) < |s.bits|
    ensures s.table[q].mark == GrantedMark(s, id) ==> s.table[q].id == id && !IsPrivate(s.rules[id - 1])
  {
    if NeedsFresh(s, id) {
      GrantedFacts(s, id);
      assert OffsetOf(s.table[q].mark) in Live(s.table);
    } else {
      var p := ShareMarkLive(s, id);
      assert Apart(s, p, q);
    }
  }

  lemma InsertedEntryOk(s: State, ip: Ip, id: nat, p: Ip)
    requires Own(s) && IsRule(s, id) && ip !in s.table && (p in s.table || p == ip)
    requires NeedsFresh(s, id) ==> FirstZero(s.bits, 0) < |s.bits|
    requires Structural(Inserted(s, ip, id))
    ensures EntryOk(Inserted(s, ip, id), p)
  {
    GrantedFacts(s, id);
    if p != ip {
      assert EntryOk(s, p);
      assert CountOk(s, id);
      assert s.table[p].id == id ==> p in Members(s.table, id);
    }
  }
}
