// The packet path as many threads run it. qmark_alloc_mark_auto is not one critical
// section: the lookup, the reads of the reset flag and of the rule, the allocation, the
// insertion, the undoing and the tc call are separate steps, and conntrack events, deletions
// and resets come in between. A reset sets the flag without the lock and wipes the tables under
// it. Rule modes are fixed during a run.
//
// A mark that was read from a share rule may be 0, whose offset names no bit of the bitmap. The
// insertion then goes by a bit from elsewhere in memory, which can be anything, and freeing such
// a mark changes no bit of the bitmap.

module Concurrent {
  import opened Word32
  import opened TcIds
  import opened Model
  import opened Ownership
  import opened Allocation
  import Finite

  /** Where a thread is in qmark_handle. */
  datatype Pc =
    | Idle
    | Missed(ip: Ip, id: nat)               // the lookup found no mark
    | Passed(ip: Ip, id: nat)               // the reset flag was clear
    | Wants(ip: Ip, id: nat)                // private, or the rule's count was 0
    | Shares(ip: Ip, id: nat)               // the share rule's count was not 0
    | Fresh(ip: Ip, id: nat, mark: uint32)  // a mark for a share rule, not yet published
    | Ready(ip: Ip, id: nat, mark: uint32)  // about to insert
    | Refused(id: nat, mark: uint32)        // the insertion failed
    | Giving(id: nat, mark: uint32)         // about to free the mark
    | Added(id: nat, mark: uint32)          // about to send the tc messages

  /** lost: the offsets of marks that were taken but never stored; wiping: the resets between flag and wipe. */
  datatype System = System(s: State, pcs: seq<Pc>, lost: set<nat>, wiping: nat)

  /** stray is the bit that an insertion finds when its mark names none. */
  datatype Act =
    | Find(t: nat, ip: Ip, id: nat)
    | CheckReset(t: nat)
    | ReadRule(t: nat)
    | Take(t: nat)
    | Publish(t: nat)
    | ReadMark(t: nat)
    | Insert(t: nat, nodeOk: bool, stray: bool)
    | Undo(t: nat)
    | Free(t: nat)
    | Announce(t: nat)
    | Conntrack(event: ConnEvent)
    | Delete(ip: Ip)
    | Raise
    | Wipe
    | Lower

  /** The step of a packet thread. */
  predicate OfThread(a: Act) { !a.Conntrack? && !a.Delete? && !IsReset(a) }

  /** A part of qmark_reset. */
  predicate IsReset(a: Act) { a.Raise? || a.Wipe? || a.Lower? }

  function At(c: System, t: nat, pc: Pc): System
    requires t < |c.pcs|
  {
    c.(pcs := c.pcs[t := pc])
  }

  /** The thread of the action has come to that point of the code. */
  predicate AtStep(c: System, a: Act) {
    match a
    case Find(t, _, id) => t < |c.pcs| && c.pcs[t].Idle? && IsRule(c.s, id)
    case CheckReset(t) => t < |c.pcs| && c.pcs[t].Missed?
    case ReadRule(t) => t < |c.pcs| && c.pcs[t].Passed?
    case Take(t) => t < |c.pcs| && c.pcs[t].Wants?
    case Publish(t) => t < |c.pcs| && c.pcs[t].Fresh?
    case ReadMark(t) => t < |c.pcs| && c.pcs[t].Shares?
    case Insert(t, _, _) => t < |c.pcs| && c.pcs[t].Ready?
    case Undo(t) => t < |c.pcs| && c.pcs[t].Refused?
    case Free(t) => t < |c.pcs| && c.pcs[t].Giving?
    case Announce(t) => t < |c.pcs| && c.pcs[t].Added?
    case Wipe => c.wiping > 0
    case _ => true
  }

  /** The rule of a packet under way exists. */
  predicate RuleExists(s: State, pc: Pc) { !pc.Idle? ==> IsRule(s, pc.id) }

  predicate Enabled(c: System, a: Act) {
    AtStep(c, a) && (OfThread(a) ==> RuleExists(c.s, c.pcs[a.t]))
  }

  /** qmark_add_hash for any mark. */
  function TryInsert(s: State, ip: Ip, id: nat, mark: uint32, nodeOk: bool, stray: bool): (State, Code)
    requires IsRule(s, id)
  {
    if OffsetInRange(|s.bits|, mark) then TableAdd(s, ip, id, mark, nodeOk)
    else if stray then HashAdd(s, ip, id, mark, nodeOk)
    else (s, ERROR)
  }

  /** qmark_free_mark for any mark. */
  function Freed(s: State, mark: uint32): State {
    if OffsetInRange(|s.bits|, mark) then s.(bits := FreeMark(s.bits, mark)) else s
  }

  /** The locked part of qmark_reset. */
  function Wiped(s: State): State { FlushHash(FlushMark(s)).(rules := ZeroCounts(s.rules)) }

  /** One step; what is done under the lock in the code is one step here. */
  function Next(c: System, a: Act): System
    requires Structural(c.s) && Enabled(c, a)
  {
    match a
    case Find(t, ip, id) => if FindMark(c.s, ip) == 0 then At(c, t, Missed(ip, id)) else c
    case CheckReset(t) => At(c, t, if c.s.reset then Idle else Passed(c.pcs[t].ip, c.pcs[t].id))
    case ReadRule(t) =>
      var pc := c.pcs[t];
      At(c, t, if NeedsFresh(c.s, pc.id) then Wants(pc.ip, pc.id) else Shares(pc.ip, pc.id))
    case Take(t) =>
      var pc := c.pcs[t];
      var r := AllocMark(c.s.bits);
      var c1 := c.(s := c.s.(bits := r.0));
      if r.1 == 0 then At(c1, t, Idle)
      else At(c1, t, if IsPrivate(c.s.rules[pc.id - 1]) then Ready(pc.ip, pc.id, r.1) else Fresh(pc.ip, pc.id, r.1))
    case Publish(t) =>
      var pc := c.pcs[t];
      At(c.(s := WithRule(c.s, pc.id, c.s.rules[pc.id - 1].(mark := pc.mark))), t, Ready(pc.ip, pc.id, pc.mark))
    case ReadMark(t) =>
      var pc := c.pcs[t];
      At(c, t, Ready(pc.ip, pc.id, c.s.rules[pc.id - 1].mark))
    case Insert(t, nodeOk, stray) =>
      var pc := c.pcs[t];
      var r := TryInsert(c.s, pc.ip, pc.id, pc.mark, nodeOk, stray);
      var lost := if r.1 == OK && pc.ip in c.s.table && IsPrivate(c.s.rules[pc.id - 1]) then c.lost + {OffsetOf(pc.mark)} else c.lost;
      At(c.(s := r.0, lost := lost), t, if r.1 == OK then Added(pc.id, pc.mark) else Refused(pc.id, pc.mark))
    case Undo(t) =>
      var pc := c.pcs[t];
      if NeedsFresh(c.s, pc.id) then At(c.(s := ClearShareMark(c.s, pc.id)), t, Giving(pc.id, pc.mark)) else At(c, t, Idle)
    case Free(t) => At(c.(s := Freed(c.s, c.pcs[t].mark)), t, Idle)
    case Announce(t) => At(c, t, Idle)
    case Conntrack(ev) => c.(s := Event(c.s, ev).state)
    case Delete(ip) => c.(s := Release(c.s, ip).state)
    case Raise => c.(s := c.s.(reset := true), wiping := c.wiping + 1)
    case Wipe => c.(s := Wiped(c.s), lost := {}, wiping := c.wiping - 1)
    case Lower => c.(s := c.s.(reset := false))
  }

  /** Live entries: their bits are set, and they have one mark exactly when one share rule owns them. */
  ghost predicate Safe(s: State) {
    && Structural(s)
    && (forall p | p in s.table :: TestMark(s.bits, s.table[p].mark))
    && forall p, q | p in s.table && q in s.table && p != q ::
         s.table[p].mark == s.table[q].mark <==> s.table[p].id == s.table[q].id && !IsPrivate(s.rules[s.table[p].id - 1])
  }

  // -- private rules: every set bit has one owner --

  /** The threads that hold a mark no entry carries yet. */
  predicate Holds(pc: Pc) { pc.Fresh? || pc.Ready? || pc.Refused? || pc.Giving? }

  datatype Owner = InTable(ip: Ip) | InFlight(t: nat) | Lost

  ghost predicate Owns(c: System, o: Owner, off: nat) {
    match o
    case InTable(ip) => ip in c.s.table && OffsetOf(c.s.table[ip].mark) == off
    case InFlight(t) => t < |c.pcs| && Holds(c.pcs[t]) && OffsetOf(c.pcs[t].mark) == off
    case Lost => off in c.lost
  }

  /** No two owners of one offset. */
  ghost predicate Single(c: System) {
    forall o1, o2, off {:trigger Owns(c, o1, off), Owns(c, o2, off)} :: Owns(c, o1, off) && Owns(c, o2, off) ==> o1 == o2
  }

  ghost function Held(pcs: seq<Pc>): set<nat> {
    set t | 0 <= t < |pcs| && Holds(pcs[t]) :: OffsetOf(pcs[t].mark)
  }

  ghost function Used(c: System): set<nat> { Live(c.s.table) + Held(c.pcs) + c.lost }

  ghost predicate PcOk(s: State, pc: Pc) {
    && !pc.Shares? && !pc.Fresh?
    && (!pc.Idle? ==> IsRule(s, pc.id))
    && (Holds(pc) ==> pc.mark % 0x800 == 0 && OffsetInRange(|s.bits|, pc.mark))
  }

  /** What does not depend on who owns what. */
  ghost predicate Static(c: System) {
    && Structural(c.s) && |c.s.bits| < MAX_SPEC && AllPrivate(c.s)
    && (forall p | p in c.s.table :: c.s.table[p].mark % 0x800 == 0)
    && (forall t {:trigger c.pcs[t]} | 0 <= t < |c.pcs| :: PcOk(c.s, c.pcs[t]))
    && (forall off | off in c.lost :: 1 <= off <= |c.s.bits|)
  }

  ghost predicate AllPrivate(s: State) { forall k | 0 <= k < |s.rules| :: IsPrivate(s.rules[k]) }

  /** The set bits are the used offsets, and each has a single owner. */
  ghost predicate Owned(c: System) { Matches(c.s.bits, Used(c)) && Single(c) }

  ghost predicate Inv(c: System) { Static(c) && Owned(c) }

  lemma UsedOwned(c: System, off: nat)
    ensures off in Used(c) <==> exists o :: Owns(c, o, off)
  {
    if off in Live(c.s.table) {
      var ip :| ip in c.s.table && OffsetOf(c.s.table[ip].mark) == off;
      assert Owns(c, InTable(ip), off);
    } else if off in Held(c.pcs) {
      var t :| 0 <= t < |c.pcs| && Holds(c.pcs[t]) && OffsetOf(c.pcs[t].mark) == off;
      assert Owns(c, InFlight(t), off);
    } else if off in c.lost {
      assert Owns(c, Lost, off);
    }
  }

  /** Every set bit has exactly one owner: an entry, a thread in flight, or nobody any more. */
  lemma OneOwner(c: System, off: nat)
    requires Inv(c) && 1 <= off <= |c.s.bits|
    ensures c.s.bits[off - 1] <==> exists o :: Owns(c, o, off)
    ensures forall o1, o2 | Owns(c, o1, off) && Owns(c, o2, off) :: o1 == o2
  {
    UsedOwned(c, off);
  }

  lemma InvSafe(c: System)
    requires Inv(c)
    ensures Safe(c.s)
  {
    forall p | p in c.s.table ensures TestMark(c.s.bits, c.s.table[p].mark) {
      assert OffsetOf(c.s.table[p].mark) in Live(c.s.table);
    }
    forall p, q | p in c.s.table && q in c.s.table && p != q ensures c.s.table[p].mark != c.s.table[q].mark {
      assert Owns(c, InTable(p), OffsetOf(c.s.table[p].mark));
      assert Owns(c, InTable(q), OffsetOf(c.s.table[q].mark));
    }
  }

  // -- ownership moves --

  lemma AllUsedOwned(c: System)
    ensures forall off {:trigger off in Used(c)} :: off in Used(c) <==> exists o :: Owns(c, o, off)
  {
    forall off ensures off in Used(c) <==> exists o :: Owns(c, o, off) { UsedOwned(c, off); }
  }

  lemma SameOwners(c: System, c': System)
    requires Single(c) && forall o, off {:trigger Owns(c', o, off)} :: Owns(c', o, off) <==> Owns(c, o, off)
    ensures Single(c') && Used(c') == Used(c)
  {
    AllUsedOwned(c);
    AllUsedOwned(c');
    forall off ensures off in Used(c') <==> off in Used(c) {
      if off in Used(c) {
        var o :| Owns(c, o, off);
        assert Owns(c', o, off);
      }
    }
  }

  /** One owner hands an offset to another, or to nobody in particular. */
  lemma Moved(c: System, c': System, from: Owner, to: Owner, off0: nat)
    requires Single(c) && Owns(c, from, off0) && from != to
    requires forall o, off {:trigger Owns(c', o, off)} ::
               Owns(c', o, off) <==> (Owns(c, o, off) && !(o == from && off == off0)) || (o == to && off == off0)
    ensures Single(c') && Used(c') == Used(c)
  {
    AllUsedOwned(c);
    AllUsedOwned(c');
    assert Owns(c', to, off0);
    forall off ensures off in Used(c') <==> off in Used(c) {
      if off in Used(c) && off != off0 {
        var o :| Owns(c, o, off);
        assert Owns(c', o, off);
      }
    }
  }

  lemma Dropped(c: System, c': System, from: Owner, off0: nat)
    requires Single(c) && Owns(c, from, off0)
    requires forall o, off {:trigger Owns(c', o, off)} :: Owns(c', o, off) <==> Owns(c, o, off) && !(o == from && off == off0)
    ensures Single(c') && Used(c) == Used(c') + {off0} && off0 !in Used(c')
  {
    AllUsedOwned(c);
    AllUsedOwned(c');
    forall off ensures off in Used(c) <==> off in Used(c') || off == off0 {
      if off in Used(c) && off != off0 {
        var o :| Owns(c, o, off);
        assert Owns(c', o, off);
      }
    }
    forall o ensures !Owns(c', o, off0) {}
  }

  lemma Gained(c: System, c': System, to: Owner, off0: nat)
    requires Single(c) && off0 !in Used(c)
    requires forall o, off {:trigger Owns(c', o, off)} :: Owns(c', o, off) <==> Owns(c, o, off) || (o == to && off == off0)
    ensures Single(c') && Used(c') == Used(c) + {off0}
  {
    AllUsedOwned(c);
    AllUsedOwned(c');
    assert Owns(c', to, off0);
    forall off ensures off in Used(c') <==> off in Used(c) || off == off0 {
      if off in Used(c) {
        var o :| Owns(c, o, off);
        assert Owns(c', o, off);
      }
    }
  }

  // -- every step keeps the static part, resets at any moment included --

  lemma ThreadOk(c: System, t: nat)
    requires Static(c) && t < |c.pcs|
    ensures PcOk(c.s, c.pcs[t])
  {
  }

  /** A thread moves on, and the table stays. */
  lemma MoveStatic(c: System, t: nat, pc: Pc)
    requires Static(c) && t < |c.pcs| && PcOk(c.s, pc)
    ensures Static(At(c, t, pc))
  {
  }

  /** The thread's state may change with the table, as long as sizes and modes do not. */
  lemma StateStatic(c: System, s': State)
    requires Static(c) && Structural(s') && |s'.bits| == |c.s.bits| && |s'.rules| == |c.s.rules| && AllPrivate(s')
    requires forall p | p in s'.table :: s'.table[p].mark % 0x800 == 0
    ensures Static(c.(s := s'))
  {
    forall t {:trigger c.pcs[t]} | 0 <= t < |c.pcs| ensures PcOk(s', c.pcs[t]) { ThreadOk(c, t); }
  }

  lemma TakeStatic(c: System, t: nat)
    requires Static(c) && Enabled(c, Take(t))
    ensures Static(Next(c, Take(t)))
  {
    var z, pc := FirstZero(c.s.bits, 0), c.pcs[t];
    StateStatic(c, c.s.(bits := AllocMark(c.s.bits).0));
    if z < |c.s.bits| {
      FreshOffset(z + 1);
      MoveStatic(c.(s := c.s.(bits := AllocMark(c.s.bits).0)), t, Ready(pc.ip, pc.id, MarkOf(z + 1)));
    } else {
      MoveStatic(c.(s := c.s.(bits := AllocMark(c.s.bits).0)), t, Idle);
    }
  }

  lemma InsertStatic(c: System, t: nat, nodeOk: bool, stray: bool)
    requires Static(c) && Enabled(c, Insert(t, nodeOk, stray))
    ensures Static(Next(c, Insert(t, nodeOk, stray)))
  {
    var pc := c.pcs[t];
    ThreadOk(c, t);
    var r := TryInsert(c.s, pc.ip, pc.id, pc.mark, nodeOk, stray);
    AddStatic(c, pc.ip, pc.id, pc.mark, nodeOk);
    var c1 := c.(s := r.0, lost := Next(c, Insert(t, nodeOk, stray)).lost);
    MoveStatic(c1, t, if r.1 == OK then Added(pc.id, pc.mark) else Refused(pc.id, pc.mark));
  }

  lemma AddStatic(c: System, ip: Ip, id: nat, mark: uint32, nodeOk: bool)
    requires Static(c) && IsRule(c.s, id) && OffsetInRange(|c.s.bits|, mark) && mark % 0x800 == 0
    ensures Static(c.(s := TableAdd(c.s, ip, id, mark, nodeOk).0))
  {
    HashAddStructural(c.s, ip, id, mark, nodeOk);
    StateStatic(c, TableAdd(c.s, ip, id, mark, nodeOk).0);
  }

  lemma UndoStatic(c: System, t: nat)
    requires Static(c) && Enabled(c, Undo(t))
    ensures Static(Next(c, Undo(t)))
  {
    var pc := c.pcs[t];
    ThreadOk(c, t);
    StateStatic(c, ClearShareMark(c.s, pc.id));
    MoveStatic(c.(s := ClearShareMark(c.s, pc.id)), t, Giving(pc.id, pc.mark));
  }

  lemma FreeStatic(c: System, t: nat)
    requires Static(c) && Enabled(c, Free(t))
    ensures Static(Next(c, Free(t)))
  {
    StateStatic(c, Freed(c.s, c.pcs[t].mark));
    MoveStatic(c.(s := Freed(c.s, c.pcs[t].mark)), t, Idle);
  }

  lemma ReleaseStatic(c: System, ip: Ip)
    requires Static(c)
    ensures Static(c.(s := Release(c.s, ip).state))
  {
    ReleaseStructural(c.s, ip);
    if ip in c.s.table && c.s.table[ip].count <= 1 { ReleaseRemoves(c.s, ip); }
    StateStatic(c, Release(c.s, ip).state);
  }

  lemma EventStatic(c: System, ev: ConnEvent)
    requires Static(c)
    ensures Static(c.(s := Event(c.s, ev).state))
  {
    match Subject(ev.conn)
    case None =>
    case Some(ip) =>
      if ev.destroy {
        ReleaseStatic(c, ip);
      } else if ev.markChanged && ip in c.s.table {
        RecountKeepsStructural(c.s, ip, 1);
        StateStatic(c, AddToEntry(c.s, ip, 1));
      }
  }

  lemma ResetStatic(c: System, a: Act)
    requires Static(c) && Enabled(c, a) && IsReset(a)
    ensures Static(Next(c, a))
  {
    StateStatic(c, Next(c, a).s);
  }

  /** A thread looks something up, or is done. */
  lemma LookStatic(c: System, a: Act)
    requires Static(c) && Enabled(c, a) && (a.Find? || a.CheckReset? || a.ReadRule? || a.Announce?)
    ensures Static(Next(c, a))
  {
    match a
    case Find(t, ip, id) => MoveStatic(c, t, Missed(ip, id));
    case CheckReset(t) => MoveStatic(c, t, if c.s.reset then Idle else Passed(c.pcs[t].ip, c.pcs[t].id));
    case ReadRule(t) => MoveStatic(c, t, Wants(c.pcs[t].ip, c.pcs[t].id));
    case Announce(t) => MoveStatic(c, t, Idle);
  }

  lemma NobodyShares(c: System)
    requires Static(c)
    ensures forall t {:trigger c.pcs[t]} | 0 <= t < |c.pcs| :: !c.pcs[t].Shares? && !c.pcs[t].Fresh?
  {
  }

  /** A thread takes, stores, withdraws or frees a mark. */
  lemma WorkStatic(c: System, a: Act)
    requires Static(c) && Enabled(c, a) && (a.Take? || a.Insert? || a.Undo? || a.Free?)
    ensures Static(Next(c, a))
  {
    match a
    case Take(t) => TakeStatic(c, t);
    case Insert(t, nodeOk, stray) => InsertStatic(c, t, nodeOk, stray);
    case Undo(t) => UndoStatic(c, t);
    case Free(t) => FreeStatic(c, t);
  }

  lemma StepStatic(c: System, a: Act)
    requires Static(c) && Enabled(c, a)
    ensures Static(Next(c, a))
  {
    if a.Publish? || a.ReadMark? {
      NobodyShares(c);
      assert false;
    } else if IsReset(a) {
      ResetStatic(c, a);
    } else if a.Conntrack? {
      EventStatic(c, a.event);
    } else if a.Delete? {
      ReleaseStatic(c, a.ip);
    } else if a.Take? || a.Insert? || a.Undo? || a.Free? {
      WorkStatic(c, a);
    } else {
      LookStatic(c, a);
    }
  }

  // -- every step keeps ownership, wipes without a mark in flight included --

  /** No thread holds a mark. */
  predicate Quiet(c: System) { forall t | 0 <= t < |c.pcs| :: !Holds(c.pcs[t]) }

  /** A thread moves on without taking, storing or freeing a mark. */
  lemma QuietMove(c: System, t: nat, pc: Pc)
    requires Owned(c) && t < |c.pcs|
    requires Holds(pc) == Holds(c.pcs[t]) && (Holds(pc) ==> pc.mark == c.pcs[t].mark)
    ensures Owned(At(c, t, pc))
  {
    SameOwners(c, At(c, t, pc));
  }

  lemma TakeOwned(c: System, t: nat)
    requires Inv(c) && Enabled(c, Take(t))
    ensures Owned(Next(c, Take(t)))
  {
    if FirstZero(c.s.bits, 0) < |c.s.bits| {
      TakeFirstOwned(c, t);
    } else {
      QuietMove(c, t, Idle);
      assert Next(c, Take(t)) == At(c, t, Idle);
    }
  }

  lemma TakeFirstOwned(c: System, t: nat)
    requires Inv(c) && Enabled(c, Take(t)) && FirstZero(c.s.bits, 0) < |c.s.bits|
    ensures Owned(Next(c, Take(t)))
  {
    var z, c' := FirstZero(c.s.bits, 0), Next(c, Take(t));
    TakeIs(c, t);
    FreshOffset(z + 1);
    Gained(c, c', InFlight(t), z + 1);
    SetBit(c.s.bits, Used(c), z + 1);
  }

  lemma TakeIs(c: System, t: nat)
    requires Static(c) && Enabled(c, Take(t)) && FirstZero(c.s.bits, 0) < |c.s.bits|
    ensures var z, pc, c' := FirstZero(c.s.bits, 0), c.pcs[t], Next(c, Take(t));
            && c'.pcs == c.pcs[t := Ready(pc.ip, pc.id, MarkOf(z + 1))] && c'.lost == c.lost
            && c'.s == c.s.(bits := c.s.bits[z := true])
  {
    MarkRoundTrip(FirstZero(c.s.bits, 0) + 1);
  }

  /** A thread's bit is set, and by pigeonhole the table has room for its mark: OVER_MAX cannot happen. */
  lemma RoomForReady(c: System, t: nat)
    requires Inv(c) && t < |c.pcs| && Holds(c.pcs[t])
    ensures TestMark(c.s.bits, c.pcs[t].mark)
    ensures |c.s.table| < |c.s.bits|
  {
    var off := OffsetOf(c.pcs[t].mark);
    assert Owns(c, InFlight(t), off);
    assert off in Held(c.pcs);
    forall p | p in c.s.table ensures OffsetOf(c.s.table[p].mark) != off {
      assert Owns(c, InTable(p), OffsetOf(c.s.table[p].mark));
    }
    EntriesApart(c);
    Finite.FullRange(Live(c.s.table) + {off}, |c.s.bits|);
  }

  lemma {:induction false} LiveExactly(t: map<Ip, Model.Entry>)
    requires forall p, q | p in t && q in t && p != q :: OffsetOf(t[p].mark) != OffsetOf(t[q].mark)
    ensures |Live(t)| == |t|
    decreases |t|
  {
    if t.Keys == {} {
      assert Live(t) == {};
    } else {
      var ip :| ip in t;
      var t1 := t - {ip};
      assert t1.Keys == t.Keys - {ip};
      LiveExactly(t1);
      RemoveEntry(t, ip);
      assert OffsetOf(t[ip].mark) !in Live(t1);
    }
  }

  /** The insertion of a thread in flight fails only for want of memory. */
  lemma InsertOutcome(c: System, t: nat, nodeOk: bool, stray: bool)
    requires Inv(c) && Enabled(c, Insert(t, nodeOk, stray))
    ensures var pc := c.pcs[t];
            TryInsert(c.s, pc.ip, pc.id, pc.mark, nodeOk, stray).1 == if pc.ip in c.s.table || nodeOk then OK else ALLOC_FAIL
  {
    RoomForReady(c, t);
    ThreadOk(c, t);
  }

  /** The address has an entry by now: the thread's mark is stored nowhere. */
  lemma InsertAgainOwned(c: System, t: nat, nodeOk: bool, stray: bool)
    requires Inv(c) && Enabled(c, Insert(t, nodeOk, stray)) && c.pcs[t].ip in c.s.table
    ensures Owned(Next(c, Insert(t, nodeOk, stray)))
  {
    var pc, c' := c.pcs[t], Next(c, Insert(t, nodeOk, stray));
    RoomForReady(c, t);
    ThreadOk(c, t);
    assert Owns(c, InFlight(t), OffsetOf(pc.mark));
    Moved(c, c', InFlight(t), Lost, OffsetOf(pc.mark));
  }

  lemma InsertNewOwned(c: System, t: nat, stray: bool)
    requires Inv(c) && Enabled(c, Insert(t, true, stray)) && c.pcs[t].ip !in c.s.table
    ensures Owned(Next(c, Insert(t, true, stray)))
  {
    var pc, c' := c.pcs[t], Next(c, Insert(t, true, stray));
    RoomForReady(c, t);
    ThreadOk(c, t);
    assert Owns(c, InFlight(t), OffsetOf(pc.mark));
    Moved(c, c', InFlight(t), InTable(pc.ip), OffsetOf(pc.mark));
  }

  lemma InsertOwned(c: System, t: nat, nodeOk: bool, stray: bool)
    requires Inv(c) && Enabled(c, Insert(t, nodeOk, stray))
    ensures Owned(Next(c, Insert(t, nodeOk, stray)))
  {
    var pc := c.pcs[t];
    if pc.ip in c.s.table {
      InsertAgainOwned(c, t, nodeOk, stray);
    } else if nodeOk {
      InsertNewOwned(c, t, stray);
    } else {
      RoomForReady(c, t);
      ThreadOk(c, t);
      QuietMove(c, t, Refused(pc.id, pc.mark));
    }
  }

  lemma UndoOwned(c: System, t: nat)
    requires Inv(c) && Enabled(c, Undo(t))
    ensures Owned(Next(c, Undo(t)))
  {
    ThreadOk(c, t);
    SameOwners(c, Next(c, Undo(t)));
  }

  lemma FreeOwned(c: System, t: nat)
    requires Inv(c) && Enabled(c, Free(t))
    ensures Owned(Next(c, Free(t)))
  {
    var c', off := Next(c, Free(t)), OffsetOf(c.pcs[t].mark);
    ThreadOk(c, t);
    assert Owns(c, InFlight(t), off);
    Dropped(c, c', InFlight(t), off);
    ClearBit(c.s.bits, Used(c'), off);
  }

  lemma ReleaseLastOwned(c: System, ip: Ip)
    requires Inv(c) && ip in c.s.table && c.s.table[ip].count <= 1
    ensures Owned(c.(s := Release(c.s, ip).state))
  {
    var c', off := c.(s := Release(c.s, ip).state), OffsetOf(c.s.table[ip].mark);
    ReleaseRemoves(c.s, ip);
    assert Owns(c, InTable(ip), off);
    Dropped(c, c', InTable(ip), off);
    ClearBit(c.s.bits, Used(c'), off);
  }

  lemma ReleaseOwned(c: System, ip: Ip)
    requires Inv(c)
    ensures Owned(c.(s := Release(c.s, ip).state))
  {
    if ip in c.s.table && c.s.table[ip].count <= 1 {
      ReleaseLastOwned(c, ip);
    } else {
      SameOwners(c, c.(s := Release(c.s, ip).state));
    }
  }

  lemma EventOwned(c: System, ev: ConnEvent)
    requires Inv(c)
    ensures Owned(c.(s := Event(c.s, ev).state))
  {
    match Subject(ev.conn)
    case None =>
    case Some(ip) =>
      if ev.destroy {
        ReleaseOwned(c, ip);
      } else if ev.markChanged && ip in c.s.table {
        SameOwners(c, c.(s := Event(c.s, ev).state));
      }
  }

  /** A wipe that no thread holds a mark across leaves nothing in use. */
  lemma WipeOwned(c: System)
    requires Structural(c.s) && Enabled(c, Wipe) && Quiet(c)
    ensures Owned(Next(c, Wipe))
  {
    var c' := Next(c, Wipe);
    forall o, off ensures !Owns(c', o, off) {}
    AllUsedOwned(c');
  }

  lemma LookOwned(c: System, a: Act)
    requires Inv(c) && Enabled(c, a) && (a.Find? || a.CheckReset? || a.ReadRule? || a.Announce? || a.Raise? || a.Lower?)
    ensures Owned(Next(c, a))
  {
    match a
    case Find(t, ip, id) => QuietMove(c, t, Missed(ip, id));
    case CheckReset(t) => QuietMove(c, t, if c.s.reset then Idle else Passed(c.pcs[t].ip, c.pcs[t].id));
    case ReadRule(t) => QuietMove(c, t, Next(c, a).pcs[t]);
    case Announce(t) => QuietMove(c, t, Idle);
    case Raise => SameOwners(c, Next(c, a));
    case Lower => SameOwners(c, Next(c, a));
  }

  lemma WorkOwned(c: System, a: Act)
    requires Inv(c) && Enabled(c, a) && (a.Take? || a.Insert? || a.Undo? || a.Free?)
    ensures Owned(Next(c, a))
  {
    match a
    case Take(t) => TakeOwned(c, t);
    case Insert(t, nodeOk, stray) => InsertOwned(c, t, nodeOk, stray);
    case Undo(t) => UndoOwned(c, t);
    case Free(t) => FreeOwned(c, t);
  }

  lemma StepOwned(c: System, a: Act)
    requires Inv(c) && Enabled(c, a) && (a.Wipe? ==> Quiet(c))
    ensures Owned(Next(c, a))
  {
    if a.Publish? || a.ReadMark? {
      NobodyShares(c);
      assert false;
    } else if a.Wipe? {
      WipeOwned(c);
    } else if a.Conntrack? {
      EventOwned(c, a.event);
    } else if a.Delete? {
      ReleaseOwned(c, a.ip);
    } else if a.Take? || a.Insert? || a.Undo? || a.Free? {
      WorkOwned(c, a);
    } else {
      LookOwned(c, a);
    }
  }

  lemma StepInv(c: System, a: Act)
    requires Inv(c) && Enabled(c, a) && (a.Wipe? ==> Quiet(c))
    ensures Inv(Next(c, a))
  {
    StepStatic(c, a);
    StepOwned(c, a);
  }

  // -- whole runs --

  ghost predicate CanRun(c: System, acts: seq<Act>)
    decreases |acts|
  {
    acts == [] || (Structural(c.s) && Enabled(c, acts[0]) && CanRun(Next(c, acts[0]), acts[1..]))
  }

  ghost function After(c: System, acts: seq<Act>): System
    requires CanRun(c, acts)
    decreases |acts|
  {
    if acts == [] then c else After(Next(c, acts[0]), acts[1..])
  }

  /** No thread holds a mark when a reset wipes the tables. */
  ghost predicate QuietWipes(c: System, acts: seq<Act>)
    requires CanRun(c, acts)
    decreases |acts|
  {
    acts == [] || ((acts[0].Wipe? ==> Quiet(c)) && QuietWipes(Next(c, acts[0]), acts[1..]))
  }

  /** The insertion of a fresh mark for an address that got an entry in the meantime. */
  predicate Repeat(c: System, a: Act) {
    a.Insert? && AtStep(c, a) && c.pcs[a.t].ip in c.s.table
  }

  /** The repeated insertions since the last wipe, on top of n earlier ones. */
  ghost function Repeats(c: System, acts: seq<Act>, n: nat): nat
    requires CanRun(c, acts)
    decreases |acts|
  {
    if acts == [] then n
    else Repeats(Next(c, acts[0]), acts[1..], if acts[0].Wipe? then 0 else if Repeat(c, acts[0]) then n + 1 else n)
  }

  /** Nothing in use, no entry, no thread under way. */
  ghost predicate Start(c: System) {
    && 1 <= |c.s.bits| < MAX_SPEC && c.s.table == map[] && c.lost == {} && c.wiping == 0
    && (forall k | 0 <= k < |c.s.bits| :: !c.s.bits[k])
    && (forall k | 0 <= k < |c.s.rules| :: c.s.rules[k].count == 0)
    && (forall t | 0 <= t < |c.pcs| :: c.pcs[t].Idle?)
  }

  lemma StartInv(c: System)
    requires Start(c) && AllPrivate(c.s)
    ensures Inv(c)
  {
    forall o, off ensures !Owns(c, o, off) {}
    AllUsedOwned(c);
  }

  /** A mark is lost exactly when a fresh mark is inserted for an address that already has an entry. */
  lemma LosesIff(c: System, a: Act)
    requires Inv(c) && Enabled(c, a) && !a.Wipe?
    ensures if Repeat(c, a) then OffsetOf(c.pcs[a.t].mark) !in c.lost && Next(c, a).lost == c.lost + {OffsetOf(c.pcs[a.t].mark)}
            else Next(c, a).lost == c.lost
  {
    if a.Insert? {
      InsertOutcome(c, a.t, a.nodeOk, a.stray);
      ThreadOk(c, a.t);
      NotLost(c, a.t);
    }
  }

  lemma NotLost(c: System, t: nat)
    requires Single(c) && t < |c.pcs| && Holds(c.pcs[t])
    ensures OffsetOf(c.pcs[t].mark) !in c.lost
  {
    var off := OffsetOf(c.pcs[t].mark);
    assert Owns(c, InFlight(t), off) && !Owns(c, Lost, off);
  }

  lemma {:induction false} RunInv(c: System, acts: seq<Act>)
    requires Inv(c) && CanRun(c, acts) && QuietWipes(c, acts)
    ensures Inv(After(c, acts))
    ensures |After(c, acts).lost| == Repeats(c, acts, |c.lost|)
    decreases |acts|
  {
    if acts == [] {
    } else {
      StepInv(c, acts[0]);
      LostOne(c, acts[0]);
      RunInv(Next(c, acts[0]), acts[1..]);
    }
  }

  lemma LostOne(c: System, a: Act)
    requires Inv(c) && Enabled(c, a)
    ensures |Next(c, a).lost| == if a.Wipe? then 0 else if Repeat(c, a) then |c.lost| + 1 else |c.lost|
  {
    if !a.Wipe? { LosesIff(c, a); }
  }

  lemma {:induction false} RunStatic(c: System, acts: seq<Act>)
    requires Static(c) && CanRun(c, acts)
    ensures Static(After(c, acts))
    decreases |acts|
  {
    if acts == [] {
    } else {
      StepStatic(c, acts[0]);
      RunStatic(Next(c, acts[0]), acts[1..]);
    }
  }

  // -- conservation --

  ghost function SetBits(bits: seq<bool>): set<nat> { set i | 0 <= i < |bits| && bits[i] :: i + 1 }

  /** The threads in flight. */
  ghost function Flying(pcs: seq<Pc>): set<nat> { set t: nat | t < |pcs| && Holds(pcs[t]) }

  lemma HeldNext(pcs: seq<Pc>, pc: Pc)
    ensures Held(pcs + [pc]) == if Holds(pc) then Held(pcs) + {OffsetOf(pc.mark)} else Held(pcs)
    ensures Flying(pcs + [pc]) == if Holds(pc) then Flying(pcs) + {|pcs|} else Flying(pcs)
  {
    var more := pcs + [pc];
    assert forall t | 0 <= t < |pcs| :: more[t] == pcs[t];
    assert more[|pcs|] == pc;
  }

  lemma {:induction false} HeldExactly(pcs: seq<Pc>)
    requires forall t, u | 0 <= t < u < |pcs| && Holds(pcs[t]) && Holds(pcs[u]) :: OffsetOf(pcs[t].mark) != OffsetOf(pcs[u].mark)
    ensures |Held(pcs)| == |Flying(pcs)|
    decreases |pcs|
  {
    if |pcs| == 0 {
      assert Held(pcs) == {} && Flying(pcs) == {};
    } else {
      var n := |pcs| - 1;
      var rest, last := pcs[..n], pcs[n];
      assert pcs == rest + [last];
      HeldExactly(rest);
      HeldNext(rest, last);
      assert Holds(last) ==> OffsetOf(last.mark) !in Held(rest) && n !in Flying(rest);
    }
  }

  lemma EntriesApart(c: System)
    requires Single(c)
    ensures |Live(c.s.table)| == |c.s.table|
  {
    forall p | p in c.s.table ensures Owns(c, InTable(p), OffsetOf(c.s.table[p].mark)) {}
    LiveExactly(c.s.table);
  }

  lemma ThreadsApart(c: System)
    requires Single(c)
    ensures |Held(c.pcs)| == |Flying(c.pcs)|
  {
    forall t: nat | t < |c.pcs| && Holds(c.pcs[t]) ensures Owns(c, InFlight(t), OffsetOf(c.pcs[t].mark)) {}
    HeldExactly(c.pcs);
  }

  lemma OwnersApart(c: System)
    requires Single(c)
    ensures Live(c.s.table) !! Held(c.pcs) && (Live(c.s.table) + Held(c.pcs)) !! c.lost
  {
    forall p | p in c.s.table ensures Owns(c, InTable(p), OffsetOf(c.s.table[p].mark)) {}
    forall t: nat | t < |c.pcs| && Holds(c.pcs[t]) ensures Owns(c, InFlight(t), OffsetOf(c.pcs[t].mark)) {}
    forall off | off in c.lost ensures Owns(c, Lost, off) {}
  }

  /** The set bits are as many as the entries, the marks in flight and the lost marks together. */
  lemma BitsConserved(c: System)
    requires Inv(c)
    ensures |SetBits(c.s.bits)| == |c.s.table| + |Flying(c.pcs)| + |c.lost|
  {
    EntriesApart(c);
    ThreadsApart(c);
    OwnersApart(c);
    SetBitsUsed(c);
  }

  lemma SetBitsUsed(c: System)
    requires Inv(c)
    ensures SetBits(c.s.bits) == Used(c)
  {
    forall t: nat | t < |c.pcs| ensures PcOk(c.s, c.pcs[t]) { ThreadOk(c, t); }
    forall off | off in Used(c) ensures off in SetBits(c.s.bits) {
      var i := off - 1;
      assert 0 <= i < |c.s.bits| && c.s.bits[i];
    }
  }

  /**
   * With private rules, after any run in which no thread holds a mark across a wipe: safe, and the bits
   * in use are those of the entries, those of the threads under way, and one for every fresh mark that
   * came too late for its address since the last wipe.
   */
  lemma PrivateRun(c: System, acts: seq<Act>)
    requires Start(c) && AllPrivate(c.s) && CanRun(c, acts) && QuietWipes(c, acts)
    ensures var c' := After(c, acts);
            Safe(c'.s) && |SetBits(c'.s.bits)| == |c'.s.table| + |Flying(c'.pcs)| + Repeats(c, acts, 0)
  {
    StartInv(c);
    RunInv(c, acts);
    InvSafe(After(c, acts));
    BitsConserved(After(c, acts));
  }

  // -- putting runs together --

  lemma {:induction false} RunThen(c: System, acts: seq<Act>, a: Act)
    requires CanRun(c, acts) && Structural(After(c, acts).s) && Enabled(After(c, acts), a)
    ensures CanRun(c, acts + [a]) && After(c, acts + [a]) == Next(After(c, acts), a)
    decreases |acts|
  {
    var more := acts + [a];
    if acts == [] {
      assert more[0] == a && more[1..] == [];
    } else {
      RunThen(Next(c, acts[0]), acts[1..], a);
      assert more[0] == acts[0] && more[1..] == acts[1..] + [a];
    }
  }

  lemma {:induction false} RunBoth(c: System, a: seq<Act>, b: seq<Act>)
    requires CanRun(c, a) && CanRun(After(c, a), b)
    ensures CanRun(c, a + b) && After(c, a + b) == After(After(c, a), b)
    decreases |b|
  {
    if b == [] {
      assert a + b == a;
    } else {
      RunThen(c, a, b[0]);
      RunBoth(c, a + [b[0]], b[1..]);
      assert a + b == a + [b[0]] + b[1..];
    }
  }

  lemma OneMore(c: System, acts: seq<Act>, a: Act) returns (acts': seq<Act>)
    requires CanRun(c, acts) && Structural(After(c, acts).s) && Enabled(After(c, acts), a)
    ensures acts' == acts + [a] && CanRun(c, acts') && After(c, acts') == Next(After(c, acts), a)
  {
    acts' := acts + [a];
    RunThen(c, acts, a);
  }
}
