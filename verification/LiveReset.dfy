// Resets of a live module. The reset flag is read without the lock, so a packet thread may hold a
// mark while a reset wipes the bitmap under it. With private rules that is the only danger.

module LiveReset {
  import opened Word32
  import opened TcIds
  import opened Model
  import opened Ownership
  import opened Allocation
  import opened Concurrent
  import opened Races
  import SingleThread
  import Finite

  /** No further wipe; the flag may be raised and lowered. */
  predicate NoWipe(acts: seq<Act>) { forall a | a in acts :: !a.Wipe? }

  lemma {:induction false} NoWipeQuiet(c: System, acts: seq<Act>)
    requires CanRun(c, acts) && NoWipe(acts)
    ensures QuietWipes(c, acts)
    decreases |acts|
  {
    if acts == [] {
    } else {
      assert !acts[0].Wipe?;
      NoWipeQuiet(Next(c, acts[0]), acts[1..]);
    }
  }

  lemma Step1(c: System, acts: seq<Act>, a: Act) returns (acts': seq<Act>)
    requires CanRun(c, acts) && NoWipe(acts) && Structural(After(c, acts).s) && Enabled(After(c, acts), a) && !a.Wipe?
    ensures CanRun(c, acts') && NoWipe(acts') && After(c, acts') == Next(After(c, acts), a)
  {
    acts' := OneMore(c, acts, a);
  }

  // -- a thread gives its mark back --

  /** Equal but for the marks of private rules, which nobody reads. */
  ghost predicate SameRules(s: State, s': State) {
    |s'.rules| == |s.rules| && AllPrivate(s') && forall k | 0 <= k < |s.rules| :: s'.rules[k].count == s.rules[k].count
  }

  /** Thread t is done, its mark's bit is clear, and everything else is as before. */
  ghost predicate GivenBack(c: System, c': System, t: nat, mark: uint32)
    requires t < |c.pcs|
  {
    && c'.pcs == c.pcs[t := Idle] && c'.s.table == c.s.table && c'.s.reset == c.s.reset && SameRules(c.s, c'.s)
    && c'.s.bits == Freed(c.s, mark).bits && Static(c')
  }

  lemma GiveMark(c: System, acts: seq<Act>, t: nat) returns (acts': seq<Act>)
    requires CanRun(c, acts) && NoWipe(acts)
    requires var c1 := After(c, acts); Static(c1) && t < |c1.pcs| && c1.pcs[t].Giving?
    ensures CanRun(c, acts') && NoWipe(acts') && GivenBack(After(c, acts), After(c, acts'), t, After(c, acts).pcs[t].mark)
  {
    var c1 := After(c, acts);
    ThreadOk(c1, t);
    StepStatic(c1, Free(t));
    acts' := Step1(c, acts, Free(t));
  }

  lemma GiveRefused(c: System, acts: seq<Act>, t: nat) returns (acts': seq<Act>)
    requires CanRun(c, acts) && NoWipe(acts)
    requires var c1 := After(c, acts); Static(c1) && t < |c1.pcs| && c1.pcs[t].Refused?
    ensures CanRun(c, acts') && NoWipe(acts') && GivenBack(After(c, acts), After(c, acts'), t, After(c, acts).pcs[t].mark)
  {
    var c1 := After(c, acts);
    UndoIs(c1, t);
    acts' := Step1(c, acts, Undo(t));
    var c2 := After(c, acts');
    acts' := GiveMark(c, acts', t);
    GivenBackFrom(c1, c2, After(c, acts'), t);
  }

  lemma UndoIs(c: System, t: nat)
    requires Static(c) && t < |c.pcs| && c.pcs[t].Refused?
    ensures Enabled(c, Undo(t)) && Static(Next(c, Undo(t)))
    ensures Withdrawn(c, Next(c, Undo(t)), t)
  {
    ThreadOk(c, t);
    UndoStatic(c, t);
  }

  /** The thread is about to free its mark, and only rule marks may have changed. */
  ghost predicate Withdrawn(c: System, c': System, t: nat)
    requires t < |c.pcs| && Holds(c.pcs[t])
  {
    && c'.pcs == c.pcs[t := Giving(c.pcs[t].id, c.pcs[t].mark)] && SameRules(c.s, c'.s)
    && c'.s.table == c.s.table && c'.s.reset == c.s.reset && c'.s.bits == c.s.bits
  }

  lemma GivenBackFrom(c: System, c1: System, c2: System, t: nat)
    requires t < |c.pcs| && Holds(c.pcs[t]) && Withdrawn(c, c1, t) && GivenBack(c1, c2, t, c.pcs[t].mark)
    ensures GivenBack(c, c2, t, c.pcs[t].mark)
  {
    assert c.pcs[t := c1.pcs[t]][t := Idle] == c.pcs[t := Idle];
  }

  /** Without memory for a node nothing is inserted. */
  lemma GiveReady(c: System, acts: seq<Act>, t: nat) returns (acts': seq<Act>)
    requires CanRun(c, acts) && NoWipe(acts)
    requires var c1 := After(c, acts); Static(c1) && t < |c1.pcs| && c1.pcs[t].Ready? && c1.pcs[t].ip !in c1.s.table
    ensures CanRun(c, acts') && NoWipe(acts') && GivenBack(After(c, acts), After(c, acts'), t, After(c, acts).pcs[t].mark)
  {
    var c1 := After(c, acts);
    var pc := c1.pcs[t];
    ThreadOk(c1, t);
    StepStatic(c1, Insert(t, false, false));
    var acts1 := Step1(c, acts, Insert(t, false, false));
    assert After(c, acts1) == At(c1, t, Refused(pc.id, pc.mark));
    acts' := GiveRefused(c, acts1, t);
    assert c1.pcs[t := Refused(pc.id, pc.mark)][t := Idle] == c1.pcs[t := Idle];
  }

  lemma GiveBack(c: System, acts: seq<Act>, t: nat) returns (acts': seq<Act>)
    requires CanRun(c, acts) && NoWipe(acts)
    requires var c1 := After(c, acts);
             Static(c1) && t < |c1.pcs| && Holds(c1.pcs[t]) && (c1.pcs[t].Ready? ==> c1.pcs[t].ip !in c1.s.table)
    ensures CanRun(c, acts') && NoWipe(acts') && GivenBack(After(c, acts), After(c, acts'), t, After(c, acts).pcs[t].mark)
  {
    var pc := After(c, acts).pcs[t];
    ThreadOk(After(c, acts), t);
    if pc.Ready? {
      acts' := GiveReady(c, acts, t);
    } else if pc.Refused? {
      acts' := GiveRefused(c, acts, t);
    } else {
      acts' := GiveMark(c, acts, t);
    }
  }

  // -- a thread comes to rest in a wiped module --

  /** Nothing in use but what threads hold from before. */
  ghost predicate Blank(c: System) {
    && Static(c) && c.s.table == map[] && !c.s.reset
    && (forall i | 0 <= i < |c.s.bits| :: !c.s.bits[i])
    && (forall k | 0 <= k < |c.s.rules| :: c.s.rules[k].count == 0)
  }

  /** Thread t looks for a mark for the address, and will get the first clear one. */
  ghost predicate Looks(c: System, t: nat, ip: Ip, id: nat) {
    && Static(c) && t < |c.pcs| && !c.s.reset && FirstZero(c.s.bits, 0) < |c.s.bits| && IsRule(c.s, id)
    && (c.pcs[t] == Missed(ip, id) || c.pcs[t] == Passed(ip, id) || c.pcs[t] == Wants(ip, id))
  }

  /** From the lookup on to a fresh mark. */
  lemma GoOn(c: System, acts: seq<Act>, t: nat, ip: Ip, id: nat) returns (acts': seq<Act>)
    requires CanRun(c, acts) && NoWipe(acts) && Looks(After(c, acts), t, ip, id)
    ensures CanRun(c, acts') && NoWipe(acts') && After(c, acts') == WithFirst(After(c, acts), t, ip, id)
  {
    var c1 := After(c, acts);
    acts' := acts;
    if c1.pcs[t].Missed? {
      acts' := Step1(c, acts', CheckReset(t));
      GoOnOne(c1, t, ip, id, Passed(ip, id));
    }
    var c2 := After(c, acts');
    if c2.pcs[t].Passed? {
      acts' := Step1(c, acts', ReadRule(t));
      GoOnOne(c2, t, ip, id, Wants(ip, id));
    }
    TakesFirst(After(c, acts'), t, ip, id);
    acts' := Step1(c, acts', Take(t));
  }

  lemma GoOnOne(c: System, t: nat, ip: Ip, id: nat, pc: Pc)
    requires Looks(c, t, ip, id) && (pc == Passed(ip, id) || pc == Wants(ip, id))
    ensures Looks(At(c, t, pc), t, ip, id) && WithFirst(At(c, t, pc), t, ip, id) == WithFirst(c, t, ip, id)
  {
    MoveStatic(c, t, pc);
    AtAt(Took(c), t, pc, Ready(ip, id, MarkOf(FirstZero(c.s.bits, 0) + 1)));
  }

  lemma TakesFirst(c: System, t: nat, ip: Ip, id: nat)
    requires Looks(c, t, ip, id) && c.pcs[t].Wants?
    ensures Next(c, Take(t)) == WithFirst(c, t, ip, id)
  {
    MarkRoundTrip(FirstZero(c.s.bits, 0) + 1);
  }

  /** The thread has taken the first clear mark. */
  function WithFirst(c: System, t: nat, ip: Ip, id: nat): System
    requires t < |c.pcs|
  {
    At(Took(c), t, Ready(ip, id, MarkOf(FirstZero(c.s.bits, 0) + 1)))
  }

  /** The first clear bit is taken. */
  function Took(c: System): System { c.(s := c.s.(bits := AllocMark(c.s.bits).0)) }

  lemma RestLooking(c: System, acts: seq<Act>, t: nat, ip: Ip, id: nat) returns (acts': seq<Act>)
    requires CanRun(c, acts) && NoWipe(acts) && Blank(After(c, acts)) && Looks(After(c, acts), t, ip, id)
    ensures CanRun(c, acts') && NoWipe(acts') && Blank(After(c, acts')) && After(c, acts').pcs == After(c, acts).pcs[t := Idle]
    ensures |After(c, acts').s.bits| == |After(c, acts).s.bits| && |After(c, acts').s.rules| == |After(c, acts).s.rules|
  {
    var c1 := After(c, acts);
    var acts1 := GoOn(c, acts, t, ip, id);
    TookStatic(c1, t, ip, id);
    acts' := GiveReady(c, acts1, t);
    TakenAndBack(c1, t, ip, id, After(c, acts'));
  }

  lemma TakenAndBack(c: System, t: nat, ip: Ip, id: nat, c': System)
    requires Blank(c) && t < |c.pcs| && GivenBack(WithFirst(c, t, ip, id), c', t, MarkOf(FirstZero(c.s.bits, 0) + 1))
    ensures Blank(c') && c'.pcs == c.pcs[t := Idle]
    ensures |c'.s.bits| == |c.s.bits| && |c'.s.rules| == |c.s.rules|
  {
    FirstZeroIs(c.s.bits, 0);
    FreshOffset(1);
    AtAt(c, t, Ready(ip, id, MarkOf(1)), Idle);
  }

  lemma TookStatic(c: System, t: nat, ip: Ip, id: nat)
    requires Static(c) && t < |c.pcs| && FirstZero(c.s.bits, 0) < |c.s.bits| && IsRule(c.s, id)
    ensures Static(At(Took(c), t, Ready(ip, id, MarkOf(FirstZero(c.s.bits, 0) + 1))))
  {
    FreshOffset(FirstZero(c.s.bits, 0) + 1);
    StateStatic(c, Took(c).s);
    MoveStatic(Took(c), t, Ready(ip, id, MarkOf(FirstZero(c.s.bits, 0) + 1)));
  }

  lemma Rest(c: System, acts: seq<Act>, t: nat) returns (acts': seq<Act>)
    requires CanRun(c, acts) && NoWipe(acts) && Blank(After(c, acts)) && t < |After(c, acts).pcs|
    ensures CanRun(c, acts') && NoWipe(acts') && Blank(After(c, acts')) && After(c, acts').pcs == After(c, acts).pcs[t := Idle]
    ensures |After(c, acts').s.bits| == |After(c, acts).s.bits| && |After(c, acts').s.rules| == |After(c, acts).s.rules|
  {
    var c1 := After(c, acts);
    var pc := c1.pcs[t];
    ThreadOk(c1, t);
    if pc.Idle? {
      acts' := acts;
      assert c1.pcs[t := Idle] == c1.pcs;
    } else if pc.Added? {
      acts' := Step1(c, acts, Announce(t));
      MoveStatic(c1, t, Idle);
    } else if Holds(pc) {
      acts' := GiveBack(c, acts, t);
    } else {
      FirstZeroIs(c1.s.bits, 0);
      acts' := RestLooking(c, acts, t, pc.ip, pc.id);
    }
  }

  // -- one thread fills the table up to a given mark --

  /** The first k marks are in use, and nothing else is. */
  ghost predicate Filled(c: System, k: nat, avoid: Ip) {
    && Static(c) && !c.s.reset && avoid !in c.s.table && |c.s.table| == k <= |c.s.bits|
    && (forall i | 0 <= i < |c.s.bits| :: c.s.bits[i] <==> i < k)
    && (forall off | 1 <= off <= k :: off in Live(c.s.table))
  }

  lemma FreeAddress(used: set<Ip>, avoid: Ip) returns (ip: Ip)
    requires |used| < MAX_SPEC
    ensures ip !in used && ip != avoid
  {
    var n := |used| + 2;
    if forall k: nat | 1 <= k <= n :: k in used + {avoid} {
      var all: set<nat> := set x: nat | x in used + {avoid};
      assert all == used + {avoid};
      Finite.CoversRange(all, n);
      assert false;
    }
    var k: nat :| 1 <= k <= n && k !in used + {avoid};
    ip := k;
  }

  lemma FillOne(c: System, acts: seq<Act>, t: nat, id: nat, k: nat, avoid: Ip) returns (acts': seq<Act>)
    requires CanRun(c, acts) && NoWipe(acts)
    requires var c1 := After(c, acts); Filled(c1, k, avoid) && k < |c1.s.bits| && t < |c1.pcs| && c1.pcs[t].Idle? && IsRule(c1.s, id)
    ensures CanRun(c, acts') && NoWipe(acts')
    ensures Filled(After(c, acts'), k + 1, avoid) && After(c, acts').pcs == After(c, acts).pcs
    ensures |After(c, acts').s.bits| == |After(c, acts).s.bits| && |After(c, acts').s.rules| == |After(c, acts).s.rules|
  {
    var c1 := After(c, acts);
    assert |c1.s.table.Keys| == |c1.s.table|;
    var ip := FreeAddress(c1.s.table.Keys, avoid);
    FirstZeroIs(c1.s.bits, k);
    acts' := FillTake(c, acts, t, ip, id, k, avoid);
    GrownInsert(c1, t, ip, id, k);
    acts' := Step1(c, acts', Insert(t, true, false));
    acts' := Step1(c, acts', Announce(t));
    AtAt(Grown(c1, ip, id, k), t, Added(id, MarkOf(k + 1)), Idle);
    AtIdle(Grown(c1, ip, id, k), t);
    GrownFilled(c1, ip, id, k, avoid);
  }

  lemma FillTake(c: System, acts: seq<Act>, t: nat, ip: Ip, id: nat, k: nat, avoid: Ip) returns (acts': seq<Act>)
    requires CanRun(c, acts) && NoWipe(acts)
    requires var c1 := After(c, acts); Filled(c1, k, avoid) && k < |c1.s.bits| && t < |c1.pcs| && c1.pcs[t].Idle? && IsRule(c1.s, id)
    requires ip !in After(c, acts).s.table
    ensures CanRun(c, acts') && NoWipe(acts') && After(c, acts') == At(Took(After(c, acts)), t, Ready(ip, id, MarkOf(k + 1)))
  {
    var c1 := After(c, acts);
    StartsToLook(c1, t, ip, id, k, avoid);
    acts' := Step1(c, acts, Find(t, ip, id));
    acts' := GoOn(c, acts', t, ip, id);
  }

  lemma StartsToLook(c: System, t: nat, ip: Ip, id: nat, k: nat, avoid: Ip)
    requires Filled(c, k, avoid) && k < |c.s.bits| && t < |c.pcs| && c.pcs[t].Idle? && IsRule(c.s, id) && ip !in c.s.table
    ensures Next(c, Find(t, ip, id)) == At(c, t, Missed(ip, id)) && Looks(At(c, t, Missed(ip, id)), t, ip, id)
    ensures WithFirst(At(c, t, Missed(ip, id)), t, ip, id) == At(Took(c), t, Ready(ip, id, MarkOf(k + 1)))
  {
    FirstZeroIs(c.s.bits, k);
    MoveStatic(c, t, Missed(ip, id));
    AtAt(Took(c), t, Missed(ip, id), Ready(ip, id, MarkOf(k + 1)));
  }

  lemma AtIdle(c: System, t: nat)
    requires t < |c.pcs| && c.pcs[t].Idle?
    ensures At(c, t, Idle) == c
  {
    assert c.pcs[t := Idle] == c.pcs;
  }

  lemma FirstZeroIs(bits: seq<bool>, k: nat)
    requires k < |bits| && !bits[k] && forall i | 0 <= i < k :: bits[i]
    ensures FirstZero(bits, 0) == k
  {
    assert bits[k] == false && FirstZero(bits, 0) <= k;
  }

  /** One more entry, with the first clear mark. */
  function Grown(c: System, ip: Ip, id: nat, k: nat): System
    requires k < |c.s.bits| && IsRule(c.s, id)
  {
    c.(s := State(c.s.bits[k := true], c.s.table[ip := Entry(id, MarkOf(k + 1), 0)], Recounted(c.s.rules, id, 1), c.s.reset))
  }

  lemma GrownInsert(c: System, t: nat, ip: Ip, id: nat, k: nat)
    requires Static(c) && t < |c.pcs| && IsRule(c.s, id) && ip !in c.s.table && |c.s.table| < |c.s.bits|
    requires k < |c.s.bits| && FirstZero(c.s.bits, 0) == k
    ensures var c2 := At(Took(c), t, Ready(ip, id, MarkOf(k + 1)));
            && Structural(c2.s) && Enabled(c2, Insert(t, true, false))
            && Next(c2, Insert(t, true, false)) == At(Grown(c, ip, id, k), t, Added(id, MarkOf(k + 1)))
    ensures Static(At(Grown(c, ip, id, k), t, Added(id, MarkOf(k + 1))))
  {
    GrownIs(c, t, ip, id, k);
    GrownStatic(c, ip, id, k);
    MoveStatic(Grown(c, ip, id, k), t, Added(id, MarkOf(k + 1)));
    AtAt(Grown(c, ip, id, k), t, Ready(ip, id, MarkOf(k + 1)), Added(id, MarkOf(k + 1)));
  }

  lemma GrownIs(c: System, t: nat, ip: Ip, id: nat, k: nat)
    requires Static(c) && t < |c.pcs| && IsRule(c.s, id) && ip !in c.s.table && |c.s.table| < |c.s.bits|
    requires k < |c.s.bits| && FirstZero(c.s.bits, 0) == k
    ensures Structural(Took(c).s) && TryInsert(Took(c).s, ip, id, MarkOf(k + 1), true, false) == (Grown(c, ip, id, k).s, OK)
  {
    FreshOffset(k + 1);
  }

  lemma GrownFilled(c: System, ip: Ip, id: nat, k: nat, avoid: Ip)
    requires Filled(c, k, avoid) && k < |c.s.bits| && IsRule(c.s, id) && ip !in c.s.table && ip != avoid
    ensures Filled(Grown(c, ip, id, k), k + 1, avoid)
  {
    GrownLive(c.s.table, ip, id, k);
    GrownStatic(c, ip, id, k);
  }

  lemma GrownLive(t: map<Ip, Model.Entry>, ip: Ip, id: nat, k: nat)
    requires ip !in t && k + 1 < MAX_SPEC && forall off | 1 <= off <= k :: off in Live(t)
    ensures var t' := t[ip := Entry(id, MarkOf(k + 1), 0)]; forall off | 1 <= off <= k + 1 :: off in Live(t')
  {
    FreshOffset(k + 1);
    InsertEntry(t, ip, Entry(id, MarkOf(k + 1), 0));
  }

  lemma GrownStatic(c: System, ip: Ip, id: nat, k: nat)
    requires Static(c) && k < |c.s.bits| && |c.s.table| < |c.s.bits| && IsRule(c.s, id) && ip !in c.s.table
    ensures Static(Grown(c, ip, id, k))
  {
    FreshOffset(k + 1);
    StateStatic(c, Grown(c, ip, id, k).s);
  }

  lemma {:induction false} FillUp(c: System, acts: seq<Act>, t: nat, id: nat, k: nat, avoid: Ip) returns (acts': seq<Act>)
    requires CanRun(c, acts) && NoWipe(acts)
    requires var c1 := After(c, acts); Filled(c1, 0, avoid) && k <= |c1.s.bits| && t < |c1.pcs| && c1.pcs[t].Idle? && IsRule(c1.s, id)
    ensures CanRun(c, acts') && NoWipe(acts')
    ensures Filled(After(c, acts'), k, avoid) && After(c, acts').pcs == After(c, acts).pcs
    ensures |After(c, acts').s.bits| == |After(c, acts).s.bits| && |After(c, acts').s.rules| == |After(c, acts).s.rules|
    decreases k
  {
    if k == 0 {
      acts' := acts;
    } else {
      var acts1 := FillUp(c, acts, t, id, k - 1, avoid);
      acts' := FillOne(c, acts1, t, id, k - 1, avoid);
    }
  }

  // -- when resets are safe --

  /** The module right after a wipe, with the reset lifted. */
  lemma WipedBlank(c: System) returns (acts: seq<Act>)
    requires Static(c) && Enabled(c, Wipe)
    ensures var c1 := Next(c, Wipe);
            && CanRun(c1, acts) && NoWipe(acts) && Blank(After(c1, acts)) && After(c1, acts).pcs == c.pcs
            && |After(c1, acts).s.bits| == |c.s.bits| && |After(c1, acts).s.rules| == |c.s.rules|
  {
    var c1 := Next(c, Wipe);
    StepStatic(c, Wipe);
    StepStatic(c1, Lower);
    acts := Step1(c1, [], Lower);
  }

  /** A thread that holds a mark across a wipe can free it when it belongs to somebody else. */
  lemma HeldAcrossWipe(c: System, u: nat, t: nat) returns (acts: seq<Act>)
    requires Static(c) && Enabled(c, Wipe) && u < |c.pcs| && t < |c.pcs| && t != u && Holds(c.pcs[u])
    ensures var c1 := Next(c, Wipe); CanRun(c1, acts) && NoWipe(acts) && !Safe(After(c1, acts).s)
  {
    ThreadOk(c, u);
    var c1, pc := Next(c, Wipe), c.pcs[u];
    var off, avoid := OffsetOf(pc.mark), if pc.Ready? then pc.ip else 0;
    acts := WipedBlank(c);
    acts := Rest(c1, acts, t);
    assert Filled(After(c1, acts), 0, avoid);
    acts := FillUp(c1, acts, t, pc.id, off, avoid);
    acts := FreesLive(c1, acts, u, off, avoid);
  }

  lemma FreesLive(c: System, acts: seq<Act>, u: nat, off: nat, avoid: Ip) returns (acts': seq<Act>)
    requires CanRun(c, acts) && NoWipe(acts) && off >= 1
    requires var c1 := After(c, acts);
             && Filled(c1, off, avoid) && u < |c1.pcs| && Holds(c1.pcs[u]) && OffsetOf(c1.pcs[u].mark) == off
             && (c1.pcs[u].Ready? ==> c1.pcs[u].ip == avoid)
    ensures CanRun(c, acts') && NoWipe(acts') && !Safe(After(c, acts').s)
  {
    var c1 := After(c, acts);
    acts' := GiveBack(c, acts, u);
    assert off in Live(c1.s.table);
    var p :| p in c1.s.table && OffsetOf(c1.s.table[p].mark) == off;
    assert !TestMark(After(c, acts').s.bits, c1.s.table[p].mark);
  }

  /**
   * A wipe with private rules and two threads or more: every interleaving that follows, up to the next
   * wipe, is safe if and only if no thread holds a mark when it happens.
   */
  lemma WipeSafeIff(c: System)
    requires Inv(c) && Enabled(c, Wipe) && |c.pcs| >= 2
    ensures (forall acts | CanRun(Next(c, Wipe), acts) && NoWipe(acts) :: Safe(After(Next(c, Wipe), acts).s)) <==> Quiet(c)
  {
    var c1 := Next(c, Wipe);
    if Quiet(c) {
      StepInv(c, Wipe);
      forall acts | CanRun(c1, acts) && NoWipe(acts) ensures Safe(After(c1, acts).s) {
        NoWipeQuiet(c1, acts);
        RunInv(c1, acts);
        InvSafe(After(c1, acts));
      }
    } else {
      var u :| 0 <= u < |c.pcs| && Holds(c.pcs[u]);
      var acts := HeldAcrossWipe(c, u, if u == 0 then 1 else 0);
    }
  }

  /** With private rules: at most one packet thread, or no thread holds a mark across a wipe. */
  lemma PrivateSafe(c: System, acts: seq<Act>)
    requires Start(c) && AllPrivate(c.s) && CanRun(c, acts) && (|c.pcs| <= 1 || QuietWipes(c, acts))
    ensures Safe(After(c, acts).s)
  {
    StartInv(c);
    if |c.pcs| <= 1 {
      StraysOfPrivate(c, acts);
      SingleThread.SafeUntilStray(c, acts);
    } else {
      PrivateRun(c, acts);
    }
  }

  /** With private rules no insertion looks outside the bitmap. */
  lemma {:induction false} StraysOfPrivate(c: System, acts: seq<Act>)
    requires Static(c) && CanRun(c, acts)
    ensures StraysClear(c, acts)
    decreases |acts|
  {
    if acts == [] {
    } else {
      StepStatic(c, acts[0]);
      if acts[0].Insert? { ThreadOk(c, acts[0].t); }
      StraysOfPrivate(Next(c, acts[0]), acts[1..]);
    }
  }

  /** From the start, thread 0 looks for a mark for address 1 and rule 1. */
  lemma BeginsToLook(c: System) returns (acts: seq<Act>)
    requires Start(c) && AllPrivate(c.s) && |c.pcs| >= 2 && |c.s.rules| > 0
    ensures CanRun(c, acts) && |After(c, acts).pcs| == |c.pcs| && Looks(After(c, acts), 0, 1, 1)
  {
    StartInv(c);
    StepStatic(c, Lower);
    acts := OneMore(c, [], Lower);
    var c1 := After(c, acts);
    FirstZeroIs(c1.s.bits, 0);
    acts := OneMore(c, acts, Find(0, 1, 1));
    MoveStatic(c1, 0, Missed(1, 1));
  }

  /** It takes a mark, and a reset is about to wipe the tables. */
  lemma TakesBeforeWipe(c: System) returns (acts: seq<Act>)
    requires Start(c) && AllPrivate(c.s) && |c.pcs| >= 2 && |c.s.rules| > 0
    ensures CanRun(c, acts)
    ensures var c' := After(c, acts); Static(c') && |c'.pcs| >= 2 && Holds(c'.pcs[0]) && c'.wiping > 0
  {
    acts := BeginsToLook(c);
    var c1 := After(c, acts);
    var more := GoOn(c1, [], 0, 1, 1);
    RunBoth(c, acts, more);
    acts := acts + more;
    TookStatic(c1, 0, 1, 1);
    var c2 := After(c, acts);
    StepStatic(c2, Raise);
    acts := OneMore(c, acts, Raise);
  }

  /** Two threads, one of which takes a mark and holds it across a reset. */
  lemma ResetRaces(c: System) returns (acts: seq<Act>)
    requires Start(c) && AllPrivate(c.s) && |c.pcs| >= 2 && |c.s.rules| > 0
    ensures CanRun(c, acts) && !Safe(After(c, acts).s)
  {
    var before := TakesBeforeWipe(c);
    var c1 := After(c, before);
    var upTo := OneMore(c, before, Wipe);
    var rest := HeldAcrossWipe(c1, 0, 1);
    RunBoth(c, upTo, rest);
    acts := upTo + rest;
  }

  /**
   * With resets at any moment: every interleaving is safe if and only if there is no packet thread, or no
   * rule at all, or one packet thread and no share rule.
   */
  lemma SafeIff(c: System)
    requires Start(c)
    ensures (forall acts | CanRun(c, acts) :: Safe(After(c, acts).s))
            <==> |c.pcs| == 0 || |c.s.rules| == 0 || (|c.pcs| == 1 && AllPrivate(c.s))
  {
    if |c.pcs| == 0 || |c.s.rules| == 0 || (|c.pcs| == 1 && AllPrivate(c.s)) {
      forall acts | CanRun(c, acts) ensures Safe(After(c, acts).s) { SafeRun(c, acts); }
    } else if AllPrivate(c.s) {
      var acts := ResetRaces(c);
    } else {
      var id := ShareRule(c.s);
      var c1 := Next(c, Lower);
      assert CanRun(c, [Lower]) && After(c, [Lower]) == c1;
      var acts := ZeroStored(c1, id);
      RunBoth(c, [Lower], acts);
    }
  }

  lemma SafeRun(c: System, acts: seq<Act>)
    requires Start(c) && CanRun(c, acts)
    requires |c.pcs| == 0 || |c.s.rules| == 0 || (|c.pcs| == 1 && AllPrivate(c.s))
    ensures Safe(After(c, acts).s)
  {
    if |c.pcs| == 0 {
      NoThreadRun(c, acts);
    } else if |c.s.rules| == 0 {
      NoRuleRun(c, acts);
    } else {
      PrivateSafe(c, acts);
    }
  }

  lemma {:induction false} NoRuleRun(c: System, acts: seq<Act>)
    requires Structural(c.s) && c.s.table == map[] && c.s.rules == [] && RulesExist(c) && CanRun(c, acts)
    ensures Structural(After(c, acts).s) && After(c, acts).s.table == map[]
    decreases |acts|
  {
    if acts == [] {
    } else {
      StepSizes(c, acts[0]);
      StepRules(c, acts[0]);
      NoRuleRun(Next(c, acts[0]), acts[1..]);
    }
  }
}
