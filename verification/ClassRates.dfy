// The rates in the traffic-control tree: the class of a mark has, on each device, the rates that its rule
// was last given before the mark was announced, and keeps them until the mark goes.

module ClassRates {
  import opened Word32
  import opened TcIds
  import opened Model
  import opened Ownership
  import opened Allocation
  import opened Discipline
  import opened Runs
  import opened Answers
  import opened TcTree

  // -- the settings of a rule along a run --

  /** The call rewrites the settings of rule id. */
  predicate Sets(op: Op, id: nat) {
    match op
    case AddRuleOp(k, _) => k == id
    case DelRuleOp(k) => k == id
    case FlushRuleOp => true
    case SetSpecOp(_, _) => true
    case _ => false
  }

  predicate SameSettings(r: Rule, r': Rule) { r' == r.(mark := r'.mark, count := r'.count) }

  /** Nothing but these calls touches the settings of a rule. */
  lemma StepKeepsSettings(s: State, op: Op, id: nat)
    requires Structural(s) && Callable(s, op) && IsRule(s, id) && !Sets(op, id)
    ensures IsRule(Step(s, op).state, id) && SameSettings(s.rules[id - 1], Step(s, op).state.rules[id - 1])
  {
    match op
    case EventOp(ev) => EventKeepsSettings(s, ev, id);
    case DelHashOp(ip) => ReleaseLeaves(s, ip);
    case PacketOp(ip, k, nodeOk) => PacketKeepsSettings(s, ip, k, nodeOk, id);
    case AddRuleOp(k, r) => RuleCallsAnswer(s, k, r);
    case DelRuleOp(k) => RuleCallsAnswer(s, k, EMPTY_RULE);
    case _ =>
  }

  lemma EventKeepsSettings(s: State, ev: ConnEvent, id: nat)
    requires Structural(s) && IsRule(s, id)
    ensures IsRule(Event(s, ev).state, id) && SameSettings(s.rules[id - 1], Event(s, ev).state.rules[id - 1])
  {
    match Subject(ev.conn)
    case None =>
    case Some(ip) => ReleaseLeaves(s, ip);
  }

  lemma PacketKeepsSettings(s: State, ip: Ip, k: nat, nodeOk: bool, id: nat)
    requires Structural(s) && PacketOk(s, ip, k) && IsRule(s, id)
    ensures IsRule(Packet(s, ip, k, nodeOk).state, id)
    ensures SameSettings(s.rules[id - 1], Packet(s, ip, k, nodeOk).state.rules[id - 1])
  {
    if FindMark(s, ip) == 0 && !s.reset {
      TakeMarkStructural(s, k);
      var (s1, mark) := TakeMark(s, k);
      TakeKeepsSettings(s, k, id);
      if mark != 0 { AddKeepsSettings(s1, ip, k, mark, nodeOk, id); }
    }
  }

  lemma TakeKeepsSettings(s: State, k: nat, id: nat)
    requires IsRule(s, k) && IsRule(s, id)
    ensures IsRule(TakeMark(s, k).0, id) && SameSettings(s.rules[id - 1], TakeMark(s, k).0.rules[id - 1])
  {
  }

  lemma AddKeepsSettings(s: State, ip: Ip, k: nat, mark: uint32, nodeOk: bool, id: nat)
    requires IsRule(s, k) && OffsetInRange(|s.bits|, mark) && IsRule(s, id)
    ensures var o := AddAllocated(s, ip, k, mark, nodeOk); IsRule(o.state, id) && SameSettings(s.rules[id - 1], o.state.rules[id - 1])
  {
  }

  /** Along a run, a rule has the settings of the last call that set it, field by field. */
  lemma {:induction false} LastSettings(tr: seq<State>, ops: seq<Op>, id: nat, r: Rule, j: nat, i: nat)
    requires IsRun(tr, ops) && j < i <= |ops| && ops[j] == AddRuleOp(id, r)
    requires forall k | j < k < i :: !Sets(ops[k], id)
    ensures IsRule(tr[i], id) && SetTo(tr[i].rules[id - 1], r)
    decreases i
  {
    assert StepsTo(tr[i - 1], ops[i - 1], tr[i]);
    if i == j + 1 {
      RuleCallsAnswer(tr[j], id, r);
    } else {
      LastSettings(tr, ops, id, r, j, i - 1);
      StepKeepsSettings(tr[i - 1], ops[i - 1], id);
    }
  }

  // -- messages leave the class of a mark alone --

  predicate OnlyAdds(msgs: seq<TcMsg>) { forall k | 0 <= k < |msgs| :: !msgs[k].DelClass? && !msgs[k].DelFilter? }

  predicate OnlyDeletes(msgs: seq<TcMsg>) { forall k | 0 <= k < |msgs| :: msgs[k].DelClass? || msgs[k].DelFilter? }

  /** The mark has a filter, and its class is there. */
  predicate Shown(t: Tree, mark: uint32) { mark in t.filters && t.filters[mark] in t.classes }

  function ClassOf(t: Tree, mark: uint32): Class
    requires Shown(t, mark)
  {
    t.classes[t.filters[mark]]
  }

  predicate SameClass(t: Tree, t': Tree, mark: uint32)
    requires Shown(t, mark)
  {
    Shown(t', mark) && t'.filters[mark] == t.filters[mark] && ClassOf(t', mark) == ClassOf(t, mark)
  }

  lemma {:induction false} AddsKeepClass(dev: Dev, t: Tree, msgs: seq<TcMsg>, mark: uint32, k: nat)
    requires k <= |msgs| && OnlyAdds(msgs) && Shown(t, mark)
    ensures SameClass(t, TreeAt(dev, t, msgs, k), mark)
    decreases k
  {
    if k == 0 {
    } else {
      AddsKeepClass(dev, t, msgs, mark, k - 1);
    }
  }

  /** A filter that is there in the end was there all the time. */
  lemma {:induction false} DeletesKeepFilter(dev: Dev, t: Tree, msgs: seq<TcMsg>, mark: uint32, k: nat)
    requires k <= |msgs| && OnlyDeletes(msgs) && mark in TreeAt(dev, t, msgs, |msgs|).filters
    ensures mark in TreeAt(dev, t, msgs, k).filters
    decreases |msgs| - k
  {
    if k == |msgs| {
    } else {
      DeletesKeepFilter(dev, t, msgs, mark, k + 1);
      assert TreeAt(dev, t, msgs, k + 1) == Apply(dev, TreeAt(dev, t, msgs, k), msgs[k]);
    }
  }

  lemma {:induction false} DeletesKeepClass(dev: Dev, t: Tree, msgs: seq<TcMsg>, mark: uint32, k: nat)
    requires k <= |msgs| && OnlyDeletes(msgs) && Shown(t, mark)
    requires SafeThroughout(dev, t, msgs) && mark in TreeAt(dev, t, msgs, |msgs|).filters
    ensures SameClass(t, TreeAt(dev, t, msgs, k), mark)
    decreases k
  {
    if k == 0 {
    } else {
      DeletesKeepClass(dev, t, msgs, mark, k - 1);
      DeletesKeepFilter(dev, t, msgs, mark, k);
      var t1 := TreeAt(dev, t, msgs, k - 1);
      if msgs[k - 1].DelClass? && msgs[k - 1].dev == dev {
        assert t1.filters[mark] in t1.filters.Values;
      }
    }
  }

  lemma StepMsgsUniform(s: State, op: Op)
    requires Structural(s) && Callable(s, op)
    ensures OnlyAdds(Step(s, op).msgs) || OnlyDeletes(Step(s, op).msgs)
  {
    match op
    case EventOp(ev) =>
      match Subject(ev.conn) {
        case None =>
        case Some(ip) => ReleaseLeaves(s, ip);
      }
    case _ =>
  }

  ghost predicate Lives(s: State, mark: uint32) { exists p :: p in s.table && s.table[p].mark == mark }

  lemma LiveShown(s: State, t: Tree, inner: map<uint32, Class>, mark: uint32)
    requires Agrees(s, t, inner) && Lives(s, mark)
    ensures Shown(t, mark)
  {
    var p :| p in s.table && s.table[p].mark == mark;
    assert TagTracked(Tags(s)[p], |s.bits|, t, inner);
  }

  /** A step that leaves a mark in use leaves its class alone. */
  lemma StepKeepsClass(s: State, op: Op, dev: Dev, t: Tree, inner: map<uint32, Class>, mark: uint32)
    requires Agrees(s, t, inner) && TcOk(s, op, inner) && Lives(s, mark)
    ensures Callable(s, op)
    ensures Lives(Step(s, op).state, mark) ==>
              Shown(t, mark) && SameClass(t, TreeAt(dev, t, Step(s, op).msgs, |Step(s, op).msgs|), mark)
  {
    var t' := TrackStep(s, op, dev, t, inner);
    var msgs := Step(s, op).msgs;
    StepMsgsUniform(s, op);
    LiveShown(s, t, inner, mark);
    if Lives(Step(s, op).state, mark) {
      LiveShown(Step(s, op).state, t', inner, mark);
      if OnlyAdds(msgs) { AddsKeepClass(dev, t, msgs, mark, |msgs|); } else { DeletesKeepClass(dev, t, msgs, mark, |msgs|); }
    }
  }

  // -- a new class --

  /** The rates of a rule on a device: the mate's on the LAN device, the rule's own on the WAN device. */
  predicate HasRates(dev: Dev, r: Rule, c: Class) {
    && (dev == Lan ==> c.rate == r.rateMinMate && c.ceil == r.rateMate)
    && (dev == Wan ==> c.rate == r.rateMin && c.ceil == r.rate)
  }

  /** A packet that takes a fresh mark puts a class with the rule's rates into the tree. */
  lemma FreshClass(s: State, ip: Ip, id: nat, nodeOk: bool, dev: Dev, t: Tree, inner: map<uint32, Class>)
    requires Agrees(s, t, inner) && TcOk(s, PacketOp(ip, id, nodeOk), inner) && ip !in s.table
    requires s.rules[id - 1].mode == 0 || s.rules[id - 1].count == 0
    ensures PacketOk(s, ip, id)
    ensures var o := Packet(s, ip, id, nodeOk);
            o.code == OK ==>
              var t' := TreeAt(dev, t, o.msgs, |o.msgs|); Shown(t', o.mark) && HasRates(dev, s.rules[id - 1], ClassOf(t', o.mark))
  {
    LiveMarkNonzero(s, ip);
    Granted(s, ip, id, nodeOk);
    if Packet(s, ip, id, nodeOk).code == OK {
      var mark, r := GrantedMark(s, id), Inserted(s, ip, id).rules[id - 1];
      GrantedFacts(s, id);
      FreshTags(s, mark);
      ShowMore(Tags(s), |s.bits|, dev, t, inner, ip, r, mark);
    }
  }

  // -- whole runs --

  /** The run starts with tree and table in agreement, and makes no call that tears them apart. */
  ghost predicate Tracked(tr: seq<State>, ops: seq<Op>, t: Tree, inner: map<uint32, Class>) {
    && IsRun(tr, ops) && Agrees(tr[0], t, inner)
    && forall i | 0 <= i < |ops| :: Structural(tr[i]) && TcOk(tr[i], ops[i], inner)
  }

  /** The class of the mark has the rates of this rule. */
  ghost predicate Rated(dev: Dev, t: Tree, mark: uint32, r: Rule) { Shown(t, mark) && HasRates(dev, r, ClassOf(t, mark)) }

  /** The tree after one step more. */
  lemma TreeNext(tr: seq<State>, ops: seq<Op>, dev: Dev, t: Tree, inner: map<uint32, Class>, n: nat)
    requires Tracked(tr, ops, t, inner) && n < |ops|
    ensures Structural(tr[n]) && Callable(tr[n], ops[n]) && tr[n + 1] == Step(tr[n], ops[n]).state
    ensures Agrees(tr[n], TreeAlong(tr, ops, dev, t, n), inner) && TcOk(tr[n], ops[n], inner)
    ensures var msgs := Step(tr[n], ops[n]).msgs;
            TreeAlong(tr, ops, dev, t, n + 1) == TreeAt(dev, TreeAlong(tr, ops, dev, t, n), msgs, |msgs|)
  {
    TrackRun(tr, ops, dev, t, inner, n);
    assert StepsTo(tr[n], ops[n], tr[n + 1]);
  }

  lemma FreshAlong(tr: seq<State>, ops: seq<Op>, dev: Dev, t: Tree, inner: map<uint32, Class>, id: nat, ip: Ip, i: nat)
    requires Tracked(tr, ops, t, inner) && i < |ops|
    requires ops[i].PacketOp? && ops[i].ip == ip && ops[i].id == id && ip !in tr[i].table && ip in tr[i + 1].table
    requires IsRule(tr[i], id) && (tr[i].rules[id - 1].mode == 0 || tr[i].rules[id - 1].count == 0)
    ensures Rated(dev, TreeAlong(tr, ops, dev, t, i + 1), tr[i + 1].table[ip].mark, tr[i].rules[id - 1])
  {
    TreeNext(tr, ops, dev, t, inner, i);
    FreshClass(tr[i], ip, id, ops[i].nodeOk, dev, TreeAlong(tr, ops, dev, t, i), inner);
    MarkStored(tr[i], ip, id, ops[i].nodeOk);
  }

  lemma {:induction false} KeptAlong(tr: seq<State>, ops: seq<Op>, dev: Dev, t: Tree, inner: map<uint32, Class>,
                                     r: Rule, mark: uint32, i: nat, n: nat)
    requires Tracked(tr, ops, t, inner) && i < n <= |ops| && Rated(dev, TreeAlong(tr, ops, dev, t, i + 1), mark, r)
    requires forall k | i < k <= n :: Lives(tr[k], mark)
    ensures Rated(dev, TreeAlong(tr, ops, dev, t, n), mark, r)
    decreases n
  {
    if n == i + 1 {
    } else {
      KeptAlong(tr, ops, dev, t, inner, r, mark, i, n - 1);
      TreeNext(tr, ops, dev, t, inner, n - 1);
      StepKeepsClass(tr[n - 1], ops[n - 1], dev, TreeAlong(tr, ops, dev, t, n - 1), inner, mark);
    }
  }

  /**
   * A rule is set at step j, and not again before step i, in which a packet of a new address takes a fresh
   * mark: the rule is private or has no entry. As long after that as the mark is in use, whatever happens
   * to the rule, its class has on the LAN device the rates of the mate, and on the WAN device the rates of
   * the rule, as they were set at step j.
   */
  lemma RatesAlong(tr: seq<State>, ops: seq<Op>, dev: Dev, t: Tree, inner: map<uint32, Class>,
                   id: nat, r: Rule, ip: Ip, j: nat, i: nat, n: nat)
    requires Tracked(tr, ops, t, inner) && j < i < n <= |ops|
    requires ops[j] == AddRuleOp(id, r) && forall k | j < k < i :: !Sets(ops[k], id)
    requires ops[i].PacketOp? && ops[i].ip == ip && ops[i].id == id && ip !in tr[i].table && ip in tr[i + 1].table
    requires r.mode == 0 || (IsRule(tr[i], id) && tr[i].rules[id - 1].count == 0)
    requires forall k | i < k <= n :: Lives(tr[k], tr[i + 1].table[ip].mark)
    ensures var tree, mark := TreeAlong(tr, ops, dev, t, n), tr[i + 1].table[ip].mark;
            && Shown(tree, mark)
            && (dev == Lan ==> ClassOf(tree, mark).rate == r.rateMinMate && ClassOf(tree, mark).ceil == r.rateMate)
            && (dev == Wan ==> ClassOf(tree, mark).rate == r.rateMin && ClassOf(tree, mark).ceil == r.rate)
  {
    LastSettings(tr, ops, id, r, j, i);
    FreshAlong(tr, ops, dev, t, inner, id, ip, i);
    KeptAlong(tr, ops, dev, t, inner, tr[i].rules[id - 1], tr[i + 1].table[ip].mark, i, n);
  }

  lemma MarkStored(s: State, ip: Ip, id: nat, nodeOk: bool)
    requires Own(s) && IsRule(s, id) && ip !in s.table
    ensures PacketOk(s, ip, id)
    ensures var o := Packet(s, ip, id, nodeOk); ip in o.state.table ==> o.code == OK && o.state.table[ip].mark == o.mark
  {
    NewPacketAnswers(s, ip, id, nodeOk);
  }
}
