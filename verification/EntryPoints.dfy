// The ways into the mark table: the packet handler of xt_kmod/xt_qmark.c, and all entry points
// together, which perform exactly the steps whose runs the other modules reason about.

module EntryPoints {
  import opened Word32
  import opened TcIds
  import opened Model
  import opened MarkTable
  import opened Ownership
  import opened Discipline
  import opened Runs
  import opened PacketMark

  /** The parts of a packet that the handler looks at. */
  class SkBuff {
    const saddr: Ip
    const daddr: Ip
    var mark: uint32

    constructor (saddr: Ip, daddr: Ip, mark: uint32)
      ensures this.saddr == saddr && this.daddr == daddr && this.mark == mark
    {
      this.saddr, this.daddr, this.mark := saddr, daddr, mark;
    }
  }

  /** xt_qmark_tginfo */
  datatype TargetInfo = TargetInfo(mask: uint32, id: nat, dir: uint32)

  function AddressOf(info: TargetInfo, saddr: Ip, daddr: Ip): Ip { if info.dir == 0 then saddr else daddr }

  /** The last statement of qmark_handle; the table is a different object. */
  method SetMark(m: QosMark, skb: SkBuff, mask: uint32, mark: uint32)
    requires m.Valid() && skb !in m.head.Repr
    modifies skb`mark
    ensures skb.mark == Merge(old(skb.mark), mask, mark)
    ensures m.Valid() && m.View() == old(m.View()) && m.sent == old(m.sent) && m.head == old(m.head) && m.head.Repr == old(m.head.Repr)
  {
    skb.mark := Merge(skb.mark, mask, mark);
    m.Untouched();
  }

  /** qmark_handle */
  method Handle(m: QosMark, skb: SkBuff, info: TargetInfo, nodeOk: bool)
    requires m.Valid() && skb !in m.Repr()
    requires PacketOk(m.View(), AddressOf(info, skb.saddr, skb.daddr), info.id)
    modifies m.bitmap, m.rules, m.head.Repr, m`sent, skb`mark
    ensures m.Valid() && m.Grown()
    ensures var o := Packet(old(m.View()), AddressOf(info, skb.saddr, skb.daddr), info.id, nodeOk);
            && m.View() == o.state && m.sent == old(m.sent) + o.msgs
            && skb.mark == Handled(old(skb.mark), info.mask, o)
  {
    var ip := if info.dir == 0 then skb.saddr else skb.daddr;
    var ret, mark := m.Packet(ip, info.id, nodeOk);
    if ret != OK {
      return;
    }
    SetMark(m, skb, info.mask, mark);
  }

  /**
   * What a caller sees of qmark_handle with the mask of the scripts: an address that has an entry
   * afterwards gets its nonzero mark into the masked field, with the rest of the packet's mark as it
   * was, and any other packet passes unchanged.
   */
  method HandleMasked(m: QosMark, skb: SkBuff, id: nat, dir: uint32, len: nat, nodeOk: bool)
    requires m.Valid() && skb !in m.Repr() && Own(m.View())
    requires len <= 21 && m.bitmap.Length < Pow2(len)
    requires PacketOk(m.View(), AddressOf(TargetInfo(FieldMask(len), id, dir), skb.saddr, skb.daddr), id)
    modifies m.bitmap, m.rules, m.head.Repr, m`sent, skb`mark
    ensures m.Valid() && m.Grown() && Own(m.View())
    ensures var ip, mask, t := if dir == 0 then skb.saddr else skb.daddr, FieldMask(len), m.View().table;
            if ip in t then Field(skb.mark, mask) == t[ip].mark != 0 && SameRest(skb.mark, old(skb.mark), mask)
            else skb.mark == old(skb.mark)
  {
    ghost var ip := if dir == 0 then skb.saddr else skb.daddr;
    PacketMerged(m.View(), ip, id, nodeOk, skb.mark, len);
    PacketGrants(m.View(), ip, id, nodeOk);
    Handle(m, skb, TargetInfo(FieldMask(len), id, dir), nodeOk);
  }

  /** The calls that drop or count a reference to one address. */
  method PerformOne(m: QosMark, op: Op) returns (ret: Code, mark: uint32)
    requires m.Valid() && Callable(m.View(), op) && (op.EventOp? || op.DelHashOp?)
    modifies m.Repr()
    ensures m.Valid() && m.Grown()
    ensures var o := Step(old(m.View()), op);
            m.View() == o.state && ret == o.code && mark == o.mark && m.sent == old(m.sent) + o.msgs
  {
    ret, mark := OK, 0;
    match op
    case EventOp(ev) => m.ConntrackEvent(ev);
    case DelHashOp(ip) => ret, mark := m.DelHash(ip);
  }

  /** The operator's calls on rules and single marks. */
  method PerformRaw(m: QosMark, op: Op) returns (ret: Code, mark: uint32)
    requires m.Valid() && Callable(m.View(), op)
    requires op.AddRuleOp? || op.DelRuleOp? || op.AllocMarkOp? || op.FreeMarkOp? || op.AddHashOp?
    modifies m.Repr()
    ensures m.Valid() && m.Grown()
    ensures var o := Step(old(m.View()), op);
            m.View() == o.state && ret == o.code && mark == o.mark && m.sent == old(m.sent) + o.msgs
  {
    ret, mark := OK, 0;
    match op
    case AddRuleOp(id, r) => m.AddRule(id, r);
    case DelRuleOp(id) => m.DelRule(id);
    case AllocMarkOp => ret, mark := m.AllocMarkOut();
    case FreeMarkOp(k) => m.FreeMarkOut(k);
    case AddHashOp(ip, id, k, nodeOk) =>
      ret := m.AddHash(ip, id, k, nodeOk);
      mark := k;
  }

  /** The operator's calls on whole tables. */
  method PerformBulk(m: QosMark, op: Op)
    requires m.Valid() && Callable(m.View(), op)
    requires op.ResetOp? || op.SetSpecOp? || op.FlushRuleOp? || op.FlushHashOp? || op.FlushMarkOp?
    modifies m.Repr()
    ensures m.Valid() && m.Grown()
    ensures Outcome(m.View(), OK, 0, []) == Step(old(m.View()), op) && m.sent == old(m.sent)
  {
    match op
    case ResetOp(flag) => m.Reset(flag);
    case SetSpecOp(ipSpec, ruleSpec) => m.SetSpec(ipSpec, ruleSpec);
    case FlushRuleOp => m.FlushRule();
    case FlushHashOp => m.FlushHash();
    case FlushMarkOp => m.FlushMark();
  }

  /** Every entry point of the module performs its step: on the state, in what it returns, in what it sends. */
  method Perform(m: QosMark, op: Op) returns (ret: Code, mark: uint32)
    requires m.Valid() && Callable(m.View(), op)
    modifies m.Repr()
    ensures m.Valid() && m.Grown()
    ensures var o := Step(old(m.View()), op);
            m.View() == o.state && ret == o.code && mark == o.mark && m.sent == old(m.sent) + o.msgs
  {
    if op.PacketOp? {
      ret, mark := m.Packet(op.ip, op.id, op.nodeOk);
    } else if op.CheckHashOp? {
      ret, mark := m.FindMark(op.ip);
    } else if op.EventOp? || op.DelHashOp? {
      ret, mark := PerformOne(m, op);
    } else if op.AddRuleOp? || op.DelRuleOp? || op.AllocMarkOp? || op.FreeMarkOp? || op.AddHashOp? {
      ret, mark := PerformRaw(m, op);
    } else {
      PerformBulk(m, op);
      ret, mark := OK, 0;
    }
  }

  /** The caller respects the arrays of the module at every one of the calls. */
  ghost predicate AllCallable(s: State, ops: seq<Op>)
    decreases |ops|
  {
    ops == [] || (Structural(s) && Callable(s, ops[0]) && AllCallable(Step(s, ops[0]).state, ops[1..]))
  }

  /**
   * Calls one after the other: the object goes through a run of the model, so that whatever is proved
   * about runs holds of the object.
   */
  method PerformAll(m: QosMark, ops: seq<Op>) returns (ghost tr: seq<State>)
    requires m.Valid() && AllCallable(m.View(), ops)
    modifies m.Repr()
    ensures m.Valid() && m.Grown()
    ensures IsRun(tr, ops) && tr[0] == old(m.View()) && tr[|ops|] == m.View()
  {
    tr := [m.View()];
    NoneDone(ops, m.View());
    var i := 0;
    while i < |ops|
      invariant m.Valid() && m.Grown()
      invariant SoFar(tr, ops, i, old(m.View()), m.View())
    {
      tr := PerformNext(m, ops, i, old(m.View()), tr);
      i := i + 1;
    }
    AllDone(tr, ops, old(m.View()), m.View());
  }

  /** The call at position i. */
  method PerformNext(m: QosMark, ops: seq<Op>, i: nat, ghost s0: State, ghost tr: seq<State>) returns (ghost tr': seq<State>)
    requires m.Valid() && SoFar(tr, ops, i, s0, m.View()) && i < |ops|
    modifies m.Repr()
    ensures m.Valid() && m.Grown()
    ensures SoFar(tr', ops, i + 1, s0, m.View())
  {
    RunOn(tr, ops, i, s0, m.View());
    var _, _ := Perform(m, ops[i]);
    tr' := tr + [m.View()];
  }

  lemma AllDone(tr: seq<State>, ops: seq<Op>, s0: State, s: State)
    requires SoFar(tr, ops, |ops|, s0, s)
    ensures IsRun(tr, ops) && tr[0] == s0 && tr[|ops|] == s
  {
    assert ops[..|ops|] == ops;
  }

  /** Every call meets the condition that keeps ownership. */
  ghost predicate AllDisciplined(s: State, ops: seq<Op>)
    decreases |ops|
  {
    ops == [] || (Structural(s) && Callable(s, ops[0]) && Disciplined(s, ops[0]) && AllDisciplined(Step(s, ops[0]).state, ops[1..]))
  }

  lemma {:induction false} DisciplinedCallable(s: State, ops: seq<Op>)
    requires Own(s) && AllDisciplined(s, ops)
    ensures AllCallable(s, ops)
    decreases |ops|
  {
    if ops == [] {
    } else {
      StepOwn(s, ops[0]);
      DisciplinedCallable(Step(s, ops[0]).state, ops[1..]);
    }
  }

  lemma {:induction false} DisciplinedOwn(tr: seq<State>, ops: seq<Op>)
    requires IsRun(tr, ops) && Own(tr[0]) && AllDisciplined(tr[0], ops)
    ensures Own(tr[|ops|])
    decreases |ops|
  {
    if ops == [] {
    } else {
      RunRest(tr, ops);
      StepOwn(tr[0], ops[0]);
      DisciplinedOwn(tr[1..], ops[1..]);
    }
  }

  lemma RunRest(tr: seq<State>, ops: seq<Op>)
    requires IsRun(tr, ops) && ops != []
    ensures StepsTo(tr[0], ops[0], tr[1]) && IsRun(tr[1..], ops[1..])
  {
    assert StepsTo(tr[0], ops[0], tr[1]);
    StepStructural(tr[0], ops[0]);
    forall i | 0 <= i < |ops[1..]| ensures StepsTo(tr[1..][i], ops[1..][i], tr[1..][i + 1]) {
      assert StepsTo(tr[i + 1], ops[i + 1], tr[i + 2]);
    }
  }

  /** The object keeps ownership through any disciplined calls. */
  method PerformDisciplined(m: QosMark, ops: seq<Op>)
    requires m.Valid() && Own(m.View()) && AllDisciplined(m.View(), ops)
    modifies m.Repr()
    ensures m.Valid() && m.Grown() && Own(m.View())
  {
    DisciplinedCallable(m.View(), ops);
    ghost var tr := PerformAll(m, ops);
    DisciplinedOwn(tr, ops);
  }

  /** After i calls tr is the run from s0 to s, and the rest can still be called. */
  ghost predicate SoFar(tr: seq<State>, ops: seq<Op>, i: nat, s0: State, s: State) {
    i <= |ops| && IsRun(tr, ops[..i]) && tr[0] == s0 && tr[i] == s && AllCallable(s, ops[i..])
  }

  lemma NoneDone(ops: seq<Op>, s: State)
    requires Structural(s) && AllCallable(s, ops)
    ensures SoFar([s], ops, 0, s, s)
  {
    assert ops[0..] == ops;
  }

  lemma RunOn(tr: seq<State>, ops: seq<Op>, i: nat, s0: State, s: State)
    requires SoFar(tr, ops, i, s0, s) && i < |ops|
    ensures Structural(s) && Callable(s, ops[i])
    ensures var s' := Step(s, ops[i]).state; SoFar(tr + [s'], ops, i + 1, s0, s')
  {
    var s' := Step(s, ops[i]).state;
    var tr', done := tr + [s'], ops[..i + 1];
    assert done == ops[..i] + [ops[i]] && ops[i..][1..] == ops[i + 1..];
    forall k | 0 <= k < |done| ensures StepsTo(tr'[k], done[k], tr'[k + 1]) {
      if k < i { assert StepsTo(tr[k], ops[..i][k], tr[k + 1]); }
    }
  }
}
