// What goes wrong with share rules when packets interleave, and exactly when nothing does.
// The code reads a share rule's count and mark without the lock, so the last entry can go, and
// the mark with it, between the two reads or before the mark is used.

module Races {
  import opened Word32
  import opened TcIds
  import opened Model
  import opened Ownership
  import opened Allocation
  import opened Concurrent

  // -- runs of the model are the runs of the code --

  ghost predicate RulesExist(c: System) { forall t | 0 <= t < |c.pcs| :: RuleExists(c.s, c.pcs[t]) }

  lemma StepSizes(c: System, a: Act)
    requires Structural(c.s) && Enabled(c, a)
    ensures |Next(c, a).pcs| == |c.pcs| && |Next(c, a).s.rules| == |c.s.rules| && |Next(c, a).s.bits| == |c.s.bits|
  {
    match a
    case Insert(t, nodeOk, stray) => InsertSizes(c.s, c.pcs[t], nodeOk, stray);
    case Conntrack(ev) => EventSizes(c.s, ev);
    case Delete(ip) => ReleaseSizes(c.s, ip);
    case _ => RestSizes(c, a);
  }

  lemma InsertSizes(s: State, pc: Pc, nodeOk: bool, stray: bool)
    requires pc.Ready? && IsRule(s, pc.id)
    ensures var s' := TryInsert(s, pc.ip, pc.id, pc.mark, nodeOk, stray).0; |s'.rules| == |s.rules| && |s'.bits| == |s.bits|
  {
  }

  lemma ReleaseSizes(s: State, ip: Ip)
    requires Structural(s)
    ensures |Release(s, ip).state.rules| == |s.rules| && |Release(s, ip).state.bits| == |s.bits|
  {
    if ip in s.table && s.table[ip].count <= 1 { ReleaseRemoves(s, ip); }
  }

  lemma EventSizes(s: State, ev: ConnEvent)
    requires Structural(s)
    ensures |Event(s, ev).state.rules| == |s.rules| && |Event(s, ev).state.bits| == |s.bits|
  {
    var subject := Subject(ev.conn);
    if subject.Some? { ReleaseSizes(s, subject.value); }
  }

  lemma RestSizes(c: System, a: Act)
    requires Structural(c.s) && Enabled(c, a) && !a.Insert? && !a.Conntrack? && !a.Delete?
    ensures |Next(c, a).pcs| == |c.pcs| && |Next(c, a).s.rules| == |c.s.rules| && |Next(c, a).s.bits| == |c.s.bits|
  {
  }

  lemma StepRules(c: System, a: Act)
    requires Structural(c.s) && Enabled(c, a) && RulesExist(c)
    ensures RulesExist(Next(c, a))
  {
    StepSizes(c, a);
    if OfThread(a) {
      ThreadRules(c, a);
    }
  }

  lemma ThreadRules(c: System, a: Act)
    requires Structural(c.s) && Enabled(c, a) && OfThread(a)
    ensures forall u | 0 <= u < |c.pcs| && u != a.t :: Next(c, a).pcs[u] == c.pcs[u]
    ensures !Next(c, a).pcs[a.t].Idle? ==> IsRule(c.s, Next(c, a).pcs[a.t].id)
  {
  }

  lemma {:induction false} RunSizes(c: System, acts: seq<Act>)
    requires CanRun(c, acts) && RulesExist(c)
    ensures RulesExist(After(c, acts))
    ensures |After(c, acts).pcs| == |c.pcs| && |After(c, acts).s.rules| == |c.s.rules| && |After(c, acts).s.bits| == |c.s.bits|
    decreases |acts|
  {
    if acts == [] {
    } else {
      StepSizes(c, acts[0]);
      StepRules(c, acts[0]);
      RunSizes(Next(c, acts[0]), acts[1..]);
    }
  }

  /** Whatever step a thread comes to, it takes: a run ends early only in a state that is not safe. */
  lemma NothingDropped(c: System, acts: seq<Act>, a: Act)
    requires Start(c) && CanRun(c, acts) && AtStep(After(c, acts), a)
    ensures Enabled(After(c, acts), a)
    ensures Structural(After(c, acts).s) ==> CanRun(c, acts + [a])
  {
    RunSizes(c, acts);
    if Structural(After(c, acts).s) { RunThen(c, acts, a); }
  }

  // -- kinds of runs --

  /** No part of a reset in the run. */
  predicate NoReset(acts: seq<Act>) { forall a | a in acts :: !IsReset(a) }

  /** Neither that, nor a bit set where a mark names no bit of the bitmap. */
  predicate Plain(acts: seq<Act>) { forall a | a in acts :: !IsReset(a) && (a.Insert? ==> !a.stray) }

  /** Whenever an insertion looks for a bit outside the bitmap, it finds it clear. */
  ghost predicate StraysClear(c: System, acts: seq<Act>)
    requires CanRun(c, acts)
    decreases |acts|
  {
    acts == [] || (StrayClear(c, acts[0]) && StraysClear(Next(c, acts[0]), acts[1..]))
  }

  predicate StrayClear(c: System, a: Act)
    requires AtStep(c, a)
  {
    a.Insert? && a.stray ==> OffsetInRange(|c.s.bits|, c.pcs[a.t].mark)
  }

  lemma {:induction false} PlainStrays(c: System, acts: seq<Act>)
    requires CanRun(c, acts) && Plain(acts)
    ensures StraysClear(c, acts)
    decreases |acts|
  {
    if acts == [] {
    } else {
      PlainStrays(Next(c, acts[0]), acts[1..]);
    }
  }

  lemma Go(c: System, acts: seq<Act>, a: Act) returns (acts': seq<Act>)
    requires CanRun(c, acts) && Plain(acts) && Structural(After(c, acts).s) && Enabled(After(c, acts), a)
    requires !IsReset(a) && (a.Insert? ==> !a.stray)
    ensures CanRun(c, acts') && Plain(acts') && After(c, acts') == Next(After(c, acts), a)
  {
    acts' := OneMore(c, acts, a);
  }

  // -- share rules are not safe under interleaving --

  /** Nothing is in use, and rule id is a share rule; mark is what is left of an earlier use. */
  ghost predicate Fallow(s: State, id: nat) {
    && Structural(s) && s.table == map[] && !s.reset && !s.bits[0]
    && IsRule(s, id) && !IsPrivate(s.rules[id - 1]) && s.rules[id - 1].count == 0
  }

  /** One entry, of a share rule, with the first mark. */
  function Serving(s: State, ip: Ip, id: nat): State
    requires IsRule(s, id) && |s.bits| >= 1
  {
    State(s.bits[0 := true], map[ip := Entry(id, 0x800, 0)], s.rules[id - 1 := s.rules[id - 1].(mark := 0x800, count := 1)], s.reset)
  }

  /** The first bit is taken for the rule. */
  function Taken0(s: State): State
    requires |s.bits| >= 1
  {
    s.(bits := s.bits[0 := true])
  }

  lemma AtAt(c: System, t: nat, p: Pc, q: Pc)
    requires t < |c.pcs|
    ensures At(At(c, t, p), t, q) == At(c, t, q)
  {
  }

  /** A thread that finds no entry, no reset and an unused share rule goes for a fresh mark. */
  lemma GoesForFresh(c: System, acts: seq<Act>, t: nat, ip: Ip, id: nat) returns (acts': seq<Act>)
    requires CanRun(c, acts) && Plain(acts)
    requires var c1 := After(c, acts); Fallow(c1.s, id) && t < |c1.pcs| && c1.pcs[t].Idle?
    ensures CanRun(c, acts') && Plain(acts') && After(c, acts') == At(After(c, acts), t, Wants(ip, id))
  {
    var c1 := After(c, acts);
    acts' := Go(c, acts, Find(t, ip, id));
    acts' := Go(c, acts', CheckReset(t));
    AtAt(c1, t, Missed(ip, id), Passed(ip, id));
    acts' := Go(c, acts', ReadRule(t));
    AtAt(c1, t, Passed(ip, id), Wants(ip, id));
  }

  lemma TakeFirst(c: System, t: nat, ip: Ip, id: nat)
    requires Fallow(c.s, id) && t < |c.pcs|
    ensures var c1 := At(c, t, Wants(ip, id));
            Enabled(c1, Take(t)) && Next(c1, Take(t)) == At(c.(s := Taken0(c.s)), t, Fresh(ip, id, 0x800))
  {
  }

  lemma PublishFirst(c: System, s: State, t: nat, ip: Ip, id: nat)
    requires Fallow(s, id) && c.s == Taken0(s) && t < |c.pcs|
    ensures var c1 := At(c, t, Fresh(ip, id, 0x800));
            && Structural(c1.s) && Enabled(c1, Publish(t))
            && Next(c1, Publish(t)) == At(c.(s := WithRule(c.s, id, c.s.rules[id - 1].(mark := 0x800))), t, Ready(ip, id, 0x800))
  {
  }

  lemma InsertFirst(c: System, s: State, t: nat, ip: Ip, id: nat)
    requires Fallow(s, id) && c.s == WithRule(Taken0(s), id, s.rules[id - 1].(mark := 0x800)) && t < |c.pcs|
    ensures var c1 := At(c, t, Ready(ip, id, 0x800));
            && Structural(c1.s) && Enabled(c1, Insert(t, true, false))
            && Next(c1, Insert(t, true, false)) == At(c.(s := Serving(s, ip, id)), t, Added(id, 0x800))
  {
  }

  /** An undisturbed packet of the first address of a share rule. */
  lemma FirstPacket(c: System, acts: seq<Act>, t: nat, ip: Ip, id: nat) returns (acts': seq<Act>)
    requires CanRun(c, acts) && Plain(acts)
    requires var c1 := After(c, acts); Fallow(c1.s, id) && t < |c1.pcs| && c1.pcs[t].Idle?
    ensures CanRun(c, acts') && Plain(acts')
    ensures After(c, acts') == At(After(c, acts).(s := Serving(After(c, acts).s, ip, id)), t, Idle)
  {
    var c1 := After(c, acts);
    var s := c1.s;
    acts' := GoesForFresh(c, acts, t, ip, id);
    TakeFirst(c1, t, ip, id);
    acts' := Go(c, acts', Take(t));
    PublishFirst(c1.(s := Taken0(s)), s, t, ip, id);
    acts' := Go(c, acts', Publish(t));
    InsertFirst(c1.(s := WithRule(Taken0(s), id, s.rules[id - 1].(mark := 0x800))), s, t, ip, id);
    acts' := Go(c, acts', Insert(t, true, false));
    acts' := Go(c, acts', Announce(t));
    AtAt(c1.(s := Serving(s, ip, id)), t, Added(id, 0x800), Idle);
  }

  /** A second address of the rule finds the rule in use. */
  lemma GoesForShared(c: System, acts: seq<Act>, s: State, t: nat, p: Ip, q: Ip, id: nat) returns (acts': seq<Act>)
    requires CanRun(c, acts) && Plain(acts) && p != q && Fallow(s, id)
    requires var c1 := After(c, acts); c1.s == Serving(s, p, id) && t < |c1.pcs| && c1.pcs[t].Idle?
    ensures CanRun(c, acts') && Plain(acts') && After(c, acts') == At(After(c, acts), t, Shares(q, id))
  {
    var c1 := After(c, acts);
    acts' := Go(c, acts, Find(t, q, id));
    acts' := Go(c, acts', CheckReset(t));
    AtAt(c1, t, Missed(q, id), Passed(q, id));
    acts' := Go(c, acts', ReadRule(t));
    AtAt(c1, t, Passed(q, id), Shares(q, id));
  }

  /** It reads the shared mark, but is not yet inserted. */
  lemma SecondPacket(c: System, acts: seq<Act>, s: State, t: nat, p: Ip, q: Ip, id: nat) returns (acts': seq<Act>)
    requires CanRun(c, acts) && Plain(acts) && p != q && Fallow(s, id)
    requires var c1 := After(c, acts); c1.s == Serving(s, p, id) && t < |c1.pcs| && c1.pcs[t].Idle?
    ensures CanRun(c, acts') && Plain(acts') && After(c, acts') == At(After(c, acts), t, Ready(q, id, 0x800))
  {
    acts' := GoesForShared(c, acts, s, t, p, q, id);
    acts' := Go(c, acts', ReadMark(t));
    AtAt(After(c, acts), t, Shares(q, id), Ready(q, id, 0x800));
  }

  lemma FirstGoes(c: System, s: State, p: Ip, id: nat)
    requires Fallow(s, id) && c.s == Serving(s, p, id)
    ensures Structural(c.s) && Next(c, Delete(p)).pcs == c.pcs && Fallow(Next(c, Delete(p)).s, id)
    ensures Next(c, Delete(p)).s.rules[id - 1].mark == 0
  {
  }

  /** The first address goes, with the mark; the second is refused and is about to free the mark once more. */
  lemma TooLate(c: System, acts: seq<Act>, s: State, t: nat, p: Ip, q: Ip, id: nat) returns (acts': seq<Act>)
    requires CanRun(c, acts) && Plain(acts) && p != q && Fallow(s, id)
    requires var c1 := After(c, acts); c1.s == Serving(s, p, id) && t < |c1.pcs| && c1.pcs[t] == Ready(q, id, 0x800)
    ensures CanRun(c, acts') && Plain(acts') && Fallow(After(c, acts').s, id)
    ensures After(c, acts').pcs == After(c, acts).pcs[t := Giving(id, 0x800)]
  {
    FirstGoes(After(c, acts), s, p, id);
    acts' := Go(c, acts, Delete(p));
    var c1 := After(c, acts');
    RefusedAgain(c1, t, q, id);
    acts' := Go(c, acts', Insert(t, true, false));
    acts' := Go(c, acts', Undo(t));
    AtAt(c1.(s := ClearShareMark(c1.s, id)), t, Refused(id, 0x800), Giving(id, 0x800));
  }

  /** The mark's bit is clear, and nobody uses the rule any more. */
  lemma RefusedAgain(c: System, t: nat, q: Ip, id: nat)
    requires Fallow(c.s, id) && t < |c.pcs| && c.pcs[t] == Ready(q, id, 0x800)
    ensures var c1 := At(c, t, Refused(id, 0x800));
            && Enabled(c, Insert(t, true, false)) && Next(c, Insert(t, true, false)) == c1 && Enabled(c1, Undo(t))
            && Next(c1, Undo(t)) == At(At(c.(s := ClearShareMark(c.s, id)), t, Refused(id, 0x800)), t, Giving(id, 0x800))
    ensures Fallow(ClearShareMark(c.s, id), id)
  {
  }

  /** A run that ends with a live entry whose bit is clear. */
  lemma ShareRaces(c: System, id: nat) returns (acts: seq<Act>)
    requires Start(c) && Structural(c.s) && Fallow(c.s, id) && |c.pcs| >= 2
    ensures CanRun(c, acts) && Plain(acts) && !Safe(After(c, acts).s)
  {
    acts := FirstPacket(c, [], 0, 1, id);
    acts := SecondPacket(c, acts, c.s, 1, 1, 2, id);
    acts := TooLate(c, acts, c.s, 1, 1, 2, id);
    acts := FirstPacket(c, acts, 0, 1, id);
    var s := After(c, acts).s;
    acts := Go(c, acts, Free(1));
    assert After(c, acts).s.table[1].mark == 0x800;
  }

  // -- marks outside the bitmap --

  /** A thread that is about to test or free its mark finds the mark's bit in the bitmap. */
  predicate InBounds(s: State, pc: Pc) { pc.Ready? || pc.Giving? ==> OffsetInRange(|s.bits|, pc.mark) }

  ghost predicate Steady(c: System) { forall t | 0 <= t < |c.pcs| :: InBounds(c.s, c.pcs[t]) }

  /** A run of one thread that reads mark 0 from a rule whose last entry has just gone. */
  lemma ShareReadsZero(c: System, id: nat) returns (acts: seq<Act>)
    requires Start(c) && Structural(c.s) && Fallow(c.s, id) && |c.pcs| >= 1
    ensures CanRun(c, acts) && Plain(acts) && !Steady(After(c, acts))
    ensures Fallow(After(c, acts).s, id) && |After(c, acts).pcs| == |c.pcs| && After(c, acts).pcs[0] == Ready(2, id, 0)
  {
    acts := FirstPacket(c, [], 0, 1, id);
    acts := GoesForShared(c, acts, c.s, 0, 1, 2, id);
    FirstGoes(After(c, acts), c.s, 1, id);
    acts := Go(c, acts, Delete(1));
    acts := Go(c, acts, ReadMark(0));
    assert !InBounds(After(c, acts).s, After(c, acts).pcs[0]);
  }

  /** If the bit it finds then is set, the thread stores mark 0. */
  lemma ZeroStored(c: System, id: nat) returns (acts: seq<Act>)
    requires Start(c) && Structural(c.s) && Fallow(c.s, id) && |c.pcs| >= 1
    ensures CanRun(c, acts) && NoReset(acts) && !Safe(After(c, acts).s)
  {
    acts := ShareReadsZero(c, id);
    acts := OneMore(c, acts, Insert(0, true, true));
    assert 2 in After(c, acts).s.table && After(c, acts).s.table[2].mark == 0;
  }

  /** If it is clear, the thread goes on to free mark 0. */
  lemma ZeroFreed(c: System, id: nat) returns (acts: seq<Act>)
    requires Start(c) && Structural(c.s) && Fallow(c.s, id) && |c.pcs| >= 1
    ensures CanRun(c, acts) && Plain(acts)
    ensures |After(c, acts).pcs| == |c.pcs| && After(c, acts).pcs[0] == Giving(id, 0)
  {
    acts := ShareReadsZero(c, id);
    acts := Go(c, acts, Insert(0, true, false));
    acts := Go(c, acts, Undo(0));
  }

  // -- runs in which nothing is inserted --

  ghost predicate Blocked(c: System) {
    && Structural(c.s) && c.s.table == map[] && c.s.reset
    && forall t | 0 <= t < |c.pcs| :: c.pcs[t].Idle? || (c.pcs[t].Missed? && IsRule(c.s, c.pcs[t].id))
  }

  lemma {:induction false} BlockedRun(c: System, acts: seq<Act>)
    requires Blocked(c) && CanRun(c, acts) && NoReset(acts)
    ensures Blocked(After(c, acts))
    decreases |acts|
  {
    if acts == [] {
    } else {
      assert !IsReset(acts[0]);
      BlockedRun(Next(c, acts[0]), acts[1..]);
    }
  }

  lemma {:induction false} NoThreadRun(c: System, acts: seq<Act>)
    requires Structural(c.s) && c.s.table == map[] && c.pcs == [] && CanRun(c, acts)
    ensures Structural(After(c, acts).s) && After(c, acts).s.table == map[] && After(c, acts).pcs == []
    decreases |acts|
  {
    if acts == [] {
    } else {
      NoThreadRun(Next(c, acts[0]), acts[1..]);
    }
  }

  lemma {:induction false} NoResetQuiet(c: System, acts: seq<Act>)
    requires CanRun(c, acts) && NoReset(acts)
    ensures QuietWipes(c, acts)
    decreases |acts|
  {
    if acts == [] {
    } else {
      assert !IsReset(acts[0]);
      NoResetQuiet(Next(c, acts[0]), acts[1..]);
    }
  }

  /** No reset, and no share rule or nothing allocated: safe. */
  lemma NoResetSafe(c: System, acts: seq<Act>)
    requires Start(c) && CanRun(c, acts) && NoReset(acts) && (|c.pcs| == 0 || AllPrivate(c.s) || c.s.reset)
    ensures Safe(After(c, acts).s)
  {
    if |c.pcs| == 0 {
      NoThreadRun(c, acts);
    } else if AllPrivate(c.s) {
      NoResetQuiet(c, acts);
      PrivateRun(c, acts);
    } else {
      BlockedRun(c, acts);
    }
  }

  lemma ShareRule(s: State) returns (id: nat)
    requires !AllPrivate(s)
    ensures IsRule(s, id) && !IsPrivate(s.rules[id - 1])
  {
    var k :| 0 <= k < |s.rules| && !IsPrivate(s.rules[k]);
    id := k + 1;
  }

  /**
   * Without resets: every interleaving of packets, events and deletions keeps each entry's bit set, one
   * mark per share rule and all other marks different, if and only if there is no packet thread, or no
   * share rule, or the reset flag blocks all allocation.
   */
  lemma SafeIff(c: System)
    requires Start(c)
    ensures (forall acts | CanRun(c, acts) && NoReset(acts) :: Safe(After(c, acts).s))
            <==> |c.pcs| == 0 || AllPrivate(c.s) || c.s.reset
  {
    if |c.pcs| == 0 || AllPrivate(c.s) || c.s.reset {
      forall acts | CanRun(c, acts) && NoReset(acts) ensures Safe(After(c, acts).s) { NoResetSafe(c, acts); }
    } else {
      var id := ShareRule(c.s);
      var acts := ZeroStored(c, id);
    }
  }

  /**
   * In every interleaving, resets included, every bit that a thread tests or frees is in the bitmap, if
   * and only if there is no packet thread or no share rule.
   */
  lemma InBoundsIff(c: System)
    requires Start(c)
    ensures (forall acts | CanRun(c, acts) :: Steady(After(c, acts))) <==> |c.pcs| == 0 || AllPrivate(c.s)
  {
    if |c.pcs| == 0 || AllPrivate(c.s) {
      forall acts | CanRun(c, acts) ensures Steady(After(c, acts)) { SteadyRun(c, acts); }
    } else {
      var id := ShareRule(c.s);
      var c1 := Next(c, Lower);
      assert CanRun(c, [Lower]) && After(c, [Lower]) == c1;
      var acts := ShareReadsZero(c1, id);
      RunBoth(c, [Lower], acts);
    }
  }

  lemma SteadyRun(c: System, acts: seq<Act>)
    requires Start(c) && CanRun(c, acts) && (|c.pcs| == 0 || AllPrivate(c.s))
    ensures Steady(After(c, acts))
  {
    RunSizes(c, acts);
    if AllPrivate(c.s) {
      StartInv(c);
      RunStatic(c, acts);
      forall t: nat | t < |After(c, acts).pcs| ensures InBounds(After(c, acts).s, After(c, acts).pcs[t]) {
        ThreadOk(After(c, acts), t);
      }
    }
  }
}
