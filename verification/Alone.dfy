// The steps of the interleaved model, put together: a packet thread that is not interrupted does what the
// packet does as one step, and the two parts of a reset do what the reset does.

module Alone {
  import opened Word32
  import opened TcIds
  import opened Model
  import opened Allocation
  import opened Concurrent
  import opened TcThreads

  /** The tc messages of a run. */
  ghost function Sent(c: System, acts: seq<Act>): seq<TcMsg>
    requires CanRun(c, acts)
    decreases |acts|
  {
    if acts == [] then [] else Msgs(c, acts[0]) + Sent(Next(c, acts[0]), acts[1..])
  }

  /** All steps are of thread t, and its insertion finds memory or not as told. */
  predicate ByThread(acts: seq<Act>, t: nat, nodeOk: bool) {
    forall a | a in acts :: OfThread(a) && a.t == t && (a.Insert? ==> a.nodeOk == nodeOk)
  }

  /** The run is one of thread t alone, and leaves the thread idle, the state of the outcome and its messages. */
  ghost predicate Yields(c: System, acts: seq<Act>, t: nat, nodeOk: bool, o: Outcome) {
    && CanRun(c, acts) && ByThread(acts, t, nodeOk) && t < |c.pcs|
    && After(c, acts) == At(c.(s := o.state), t, Idle) && Sent(c, acts) == o.msgs
  }

  /** One step, and then the rest. */
  lemma First(c: System, a: Act, rest: seq<Act>, t: nat, nodeOk: bool, o: Outcome) returns (acts: seq<Act>)
    requires Structural(c.s) && Enabled(c, a) && OfThread(a) && a.t == t && (a.Insert? ==> a.nodeOk == nodeOk)
    requires Yields(Next(c, a), rest, t, nodeOk, o) && Next(c, a).lost == c.lost && Msgs(c, a) == []
    ensures acts == [a] + rest && Yields(c, acts, t, nodeOk, o)
  {
    acts := [a] + rest;
    assert acts[1..] == rest;
    assert forall b | b in acts :: b == a || b in rest;
    StepPcs(c, a);
  }

  lemma StepPcs(c: System, a: Act)
    requires Structural(c.s) && Enabled(c, a) && OfThread(a)
    ensures Next(c, a).wiping == c.wiping && |Next(c, a).pcs| == |c.pcs|
    ensures forall p :: At(Next(c, a), a.t, p).pcs == At(c, a.t, p).pcs
  {
  }

  /** The last step. */
  lemma Last(c: System, a: Act, t: nat, nodeOk: bool, o: Outcome)
    requires Structural(c.s) && Enabled(c, a) && OfThread(a) && a.t == t && (a.Insert? ==> a.nodeOk == nodeOk)
    requires Next(c, a) == At(c.(s := o.state), t, Idle) && Msgs(c, a) == o.msgs
    ensures Yields(c, [a], t, nodeOk, o)
  {
    assert [a][1..] == [];
    assert Sent(c, [a]) == Msgs(c, a) + [];
  }

  /** The mark was refused: it is given back if nobody uses it. */
  lemma FromRefused(c: System, t: nat, id: nat, mark: uint32, nodeOk: bool) returns (acts: seq<Act>)
    requires Structural(c.s) && t < |c.pcs| && c.pcs[t] == Refused(id, mark)
    requires IsRule(c.s, id) && OffsetInRange(|c.s.bits|, mark)
    ensures Yields(c, acts, t, nodeOk, Settle(c.s, id, mark, ERROR))
  {
    var o := Settle(c.s, id, mark, ERROR);
    if NeedsFresh(c.s, id) {
      var c1 := Next(c, Undo(t));
      assert Enabled(c1, Free(t)) && Structural(c1.s);
      Last(c1, Free(t), t, nodeOk, o);
      acts := First(c, Undo(t), [Free(t)], t, nodeOk, o);
    } else {
      Last(c, Undo(t), t, nodeOk, o);
      acts := [Undo(t)];
    }
  }

  /** A thread with a mark inserts it and announces it, or takes it back. */
  lemma FromReady(c: System, t: nat, ip: Ip, id: nat, mark: uint32, nodeOk: bool) returns (acts: seq<Act>)
    requires Structural(c.s) && t < |c.pcs| && c.pcs[t] == Ready(ip, id, mark) && ip !in c.s.table
    requires IsRule(c.s, id) && OffsetInRange(|c.s.bits|, mark)
    ensures Yields(c, acts, t, nodeOk, AddAllocated(c.s, ip, id, mark, nodeOk))
  {
    var r := TableAdd(c.s, ip, id, mark, nodeOk);
    var a := Insert(t, nodeOk, false);
    var c1 := Next(c, a);
    HashAddStructural(c.s, ip, id, mark, nodeOk);
    var rest;
    if r.1 == OK {
      rest := [Announce(t)];
      Last(c1, Announce(t), t, nodeOk, AddAllocated(c.s, ip, id, mark, nodeOk));
    } else {
      rest := FromRefused(c1, t, id, mark, nodeOk);
      assert Settle(r.0, id, mark, r.1) == Settle(r.0, id, mark, ERROR);
    }
    acts := First(c, a, rest, t, nodeOk, AddAllocated(c.s, ip, id, mark, nodeOk));
  }

  /** What is left of qmark_alloc_mark_auto once the reset flag was found clear. */
  function Chosen(s: State, ip: Ip, id: nat, nodeOk: bool): Outcome
    requires Structural(s) && IsRule(s, id) && ShareMarkUsable(s, id)
  {
    TakeMarkStructural(s, id);
    var (s1, mark) := TakeMark(s, id);
    if mark == 0 then Outcome(s1, ERROR, 0, []) else AddAllocated(s1, ip, id, mark, nodeOk)
  }

  lemma FromWants(c: System, t: nat, ip: Ip, id: nat, nodeOk: bool) returns (acts: seq<Act>)
    requires Structural(c.s) && t < |c.pcs| && c.pcs[t] == Wants(ip, id) && ip !in c.s.table
    requires IsRule(c.s, id) && NeedsFresh(c.s, id)
    ensures Yields(c, acts, t, nodeOk, Chosen(c.s, ip, id, nodeOk))
  {
    var (s1, mark) := TakeMark(c.s, id);
    var o := Chosen(c.s, ip, id, nodeOk);
    TakeMarkStructural(c.s, id);
    var c1 := Next(c, Take(t));
    if mark == 0 {
      Last(c, Take(t), t, nodeOk, o);
      acts := [Take(t)];
    } else if IsPrivate(c.s.rules[id - 1]) {
      var rest := FromReady(c1, t, ip, id, mark, nodeOk);
      acts := First(c, Take(t), rest, t, nodeOk, o);
    } else {
      var rest := FromFresh(c1, s1, t, ip, id, mark, nodeOk);
      acts := First(c, Take(t), rest, t, nodeOk, o);
    }
  }

  lemma FromFresh(c: System, s1: State, t: nat, ip: Ip, id: nat, mark: uint32, nodeOk: bool) returns (acts: seq<Act>)
    requires Structural(c.s) && t < |c.pcs| && c.pcs[t] == Fresh(ip, id, mark) && ip !in c.s.table
    requires IsRule(c.s, id) && OffsetInRange(|c.s.bits|, mark) && s1 == WithRule(c.s, id, c.s.rules[id - 1].(mark := mark))
    ensures Yields(c, acts, t, nodeOk, AddAllocated(s1, ip, id, mark, nodeOk))
  {
    var c1 := Next(c, Publish(t));
    var rest := FromReady(c1, t, ip, id, mark, nodeOk);
    acts := First(c, Publish(t), rest, t, nodeOk, AddAllocated(s1, ip, id, mark, nodeOk));
  }

  lemma FromShares(c: System, t: nat, ip: Ip, id: nat, nodeOk: bool) returns (acts: seq<Act>)
    requires Structural(c.s) && t < |c.pcs| && c.pcs[t] == Shares(ip, id) && ip !in c.s.table
    requires IsRule(c.s, id) && !NeedsFresh(c.s, id) && ShareMarkUsable(c.s, id)
    ensures Yields(c, acts, t, nodeOk, Chosen(c.s, ip, id, nodeOk))
  {
    var mark := c.s.rules[id - 1].mark;
    var c1 := Next(c, ReadMark(t));
    var rest := FromReady(c1, t, ip, id, mark, nodeOk);
    acts := First(c, ReadMark(t), rest, t, nodeOk, Chosen(c.s, ip, id, nodeOk));
  }

  lemma FromPassed(c: System, t: nat, ip: Ip, id: nat, nodeOk: bool) returns (acts: seq<Act>)
    requires Structural(c.s) && t < |c.pcs| && c.pcs[t] == Passed(ip, id) && ip !in c.s.table
    requires IsRule(c.s, id) && ShareMarkUsable(c.s, id)
    ensures Yields(c, acts, t, nodeOk, Chosen(c.s, ip, id, nodeOk))
  {
    var c1 := Next(c, ReadRule(t));
    var rest;
    if NeedsFresh(c.s, id) { rest := FromWants(c1, t, ip, id, nodeOk); } else { rest := FromShares(c1, t, ip, id, nodeOk); }
    acts := First(c, ReadRule(t), rest, t, nodeOk, Chosen(c.s, ip, id, nodeOk));
  }

  lemma FromMissed(c: System, t: nat, ip: Ip, id: nat, nodeOk: bool) returns (acts: seq<Act>)
    requires Structural(c.s) && t < |c.pcs| && c.pcs[t] == Missed(ip, id) && ip !in c.s.table
    requires IsRule(c.s, id) && ShareMarkUsable(c.s, id)
    ensures Yields(c, acts, t, nodeOk, AllocAuto(c.s, ip, id, nodeOk))
  {
    var o := AllocAuto(c.s, ip, id, nodeOk);
    if c.s.reset {
      Last(c, CheckReset(t), t, nodeOk, o);
      acts := [CheckReset(t)];
    } else {
      var rest := FromPassed(Next(c, CheckReset(t)), t, ip, id, nodeOk);
      acts := First(c, CheckReset(t), rest, t, nodeOk, o);
    }
  }

  /**
   * A thread that nobody interrupts, from the look-up on, leaves the state and sends the messages of the
   * packet as one step, for every state, address, rule and luck with memory.
   */
  lemma AloneIsPacket(c: System, t: nat, ip: Ip, id: nat, nodeOk: bool) returns (acts: seq<Act>)
    requires Structural(c.s) && t < |c.pcs| && c.pcs[t].Idle? && IsRule(c.s, id) && PacketOk(c.s, ip, id)
    ensures acts != [] && acts[0] == Find(t, ip, id) && Yields(c, acts, t, nodeOk, Packet(c.s, ip, id, nodeOk))
  {
    var o := Packet(c.s, ip, id, nodeOk);
    if FindMark(c.s, ip) == 0 {
      var rest := FromMissed(Next(c, Find(t, ip, id)), t, ip, id, nodeOk);
      acts := First(c, Find(t, ip, id), rest, t, nodeOk, o);
    } else {
      assert c.pcs[t := Idle] == c.pcs;
      Last(c, Find(t, ip, id), t, nodeOk, o);
      acts := [Find(t, ip, id)];
    }
  }

  /** The flag and then the wipe are the reset, and the flag's fall is its end. */
  lemma AloneIsReset(c: System, flag: uint32)
    requires Structural(c.s)
    ensures flag != 0 ==> CanRun(c, [Raise, Wipe]) && After(c, [Raise, Wipe]).s == Reset(c.s, flag) && After(c, [Raise, Wipe]).pcs == c.pcs
    ensures flag == 0 ==> CanRun(c, [Lower]) && After(c, [Lower]) == c.(s := Reset(c.s, flag))
  {
    var c1 := Next(c, Raise);
    assert [Raise, Wipe][1..] == [Wipe] && [Wipe][1..] == [] && [Lower][1..] == [];
    assert Structural(c1.s) && Enabled(c1, Wipe);
    assert CanRun(Next(c1, Wipe), []) && CanRun(c1, [Wipe]);
    assert CanRun(Next(c, Lower), []);
    assert Wiped(c1.s).rules == ZeroCounts(c.s.rules);
  }
}
