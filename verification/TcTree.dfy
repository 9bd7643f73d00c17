// The traffic-control tree of one device under the messages that the module sends, and
// its agreement with the mark table (kmod/qos_marktbl_tc.c). Sends are taken to succeed.

module TcTree {
  import opened Word32
  import opened TcIds
  import opened Model
  import opened Ownership
  import opened Allocation
  import opened Discipline
  import opened Runs
  import Finite

  /** A class below another one, with its guaranteed rate and its ceiling in kbit/s. */
  datatype Class = Class(parent: uint32, rate: uint32, ceil: uint32)

  /** Classes, queues by the class they hang below, filters from mark to class. */
  datatype Tree = Tree(classes: map<uint32, Class>, queues: map<uint32, uint32>, filters: map<uint32, uint32>)

  /** One message on one device. Additions are exclusive: what exists already stays as it is. */
  function Apply(dev: Dev, t: Tree, m: TcMsg): Tree {
    if m.dev != dev then t
    else match m
      case NewClass(_, handle, parent, rate, ceil) =>
        if handle in t.classes || parent !in t.classes then t else t.(classes := t.classes[handle := Class(parent, rate, ceil)])
      case DelClass(_, handle, _) => t.(classes := t.classes - {handle}, queues := t.queues - {handle})
      case NewQdisc(_, handle, parent) =>
        if parent !in t.classes || parent in t.queues || handle in t.queues.Values then t else t.(queues := t.queues[parent := handle])
      case NewFilter(_, mark, flowid) =>
        if mark in t.filters then t else t.(filters := t.filters[mark := flowid])
      case DelFilter(_, mark, _) => t.(filters := t.filters - {mark})
  }

  /** The tree after the first k messages. */
  function TreeAt(dev: Dev, t: Tree, msgs: seq<TcMsg>, k: nat): Tree
    requires k <= |msgs|
    decreases k
  {
    if k == 0 then t else Apply(dev, TreeAt(dev, t, msgs, k - 1), msgs[k - 1])
  }

  /** Every filter points to an existing class. */
  predicate Safe(t: Tree) { forall m | m in t.filters :: t.filters[m] in t.classes }

  /** After every single message the tree is safe, and no class is deleted while a filter points to it. */
  ghost predicate SafeThroughout(dev: Dev, t: Tree, msgs: seq<TcMsg>) {
    && (forall k | 0 <= k <= |msgs| :: Safe(TreeAt(dev, t, msgs, k)))
    && (forall k | 0 <= k < |msgs| && msgs[k].DelClass? && msgs[k].dev == dev ::
          msgs[k].handle !in TreeAt(dev, t, msgs, k).filters.Values)
  }

  // -- the effect of the two message sequences --

  /** The leaf class of a rule on a device. */
  function LeafClass(dev: Dev, r: Rule): Class {
    if dev == Lan then Class(ParentId(r.devid), r.rateMinMate, r.rateMate) else Class(ParentId(r.devid), r.rateMin, r.rate)
  }

  function WithLeaf(t: Tree, devid: uint32, mark: uint32, c: Class): Tree {
    var leaf := LeafId(devid, mark);
    Tree(t.classes[leaf := c], t.queues[leaf := QueueId(devid, mark)], t.filters[mark := leaf])
  }

  function WithoutLeaf(t: Tree, devid: uint32, mark: uint32): Tree {
    var leaf := LeafId(devid, mark);
    Tree(t.classes - {leaf}, t.queues - {leaf}, t.filters - {mark})
  }

  lemma AddNewMark(dev: Dev, t: Tree, r: Rule, mark: uint32)
    requires Safe(t) && ParentId(r.devid) in t.classes
    requires LeafId(r.devid, mark) !in t.classes && LeafId(r.devid, mark) !in t.queues && mark !in t.filters
    requires QueueId(r.devid, mark) !in t.queues.Values
    ensures TreeAt(dev, t, AddMsgs(r, mark), 6) == WithLeaf(t, r.devid, mark, LeafClass(dev, r))
    ensures SafeThroughout(dev, t, AddMsgs(r, mark))
  {
    var leaf := LeafId(r.devid, mark);
    var t1 := t.(classes := t.classes[leaf := LeafClass(dev, r)]);
    var t2 := t1.(queues := t1.queues[leaf := QueueId(r.devid, mark)]);
    var ms := AddMsgs(r, mark);
    assert TreeAt(dev, t, ms, 1) == if dev == Lan then t1 else t;
    assert TreeAt(dev, t, ms, 2) == t1;
    assert TreeAt(dev, t, ms, 3) == if dev == Lan then t2 else t1;
    assert TreeAt(dev, t, ms, 4) == t2;
    assert TreeAt(dev, t, ms, 5) == if dev == Lan then WithLeaf(t, r.devid, mark, LeafClass(dev, r)) else t2;
    assert TreeAt(dev, t, ms, 6) == WithLeaf(t, r.devid, mark, LeafClass(dev, r));
    forall k | 0 <= k <= 6 ensures Safe(TreeAt(dev, t, ms, k)) {
      assert k == 0 || k == 1 || k == 2 || k == 3 || k == 4 || k == 5 || k == 6;
    }
  }

  /** Announcing a shared mark again changes nothing, not even in between. */
  lemma AddKnownMark(dev: Dev, t: Tree, r: Rule, mark: uint32, k: nat)
    requires Safe(t) && k <= 6
    requires LeafId(r.devid, mark) in t.classes && LeafId(r.devid, mark) in t.queues && mark in t.filters
    ensures TreeAt(dev, t, AddMsgs(r, mark), k) == t
    decreases k
  {
  }

  lemma DelMark(dev: Dev, t: Tree, r: Rule, mark: uint32)
    requires Safe(t)
    requires forall m | m in t.filters && m != mark :: t.filters[m] != LeafId(r.devid, mark)
    ensures TreeAt(dev, t, DelMsgs(r, mark), 4) == WithoutLeaf(t, r.devid, mark)
    ensures SafeThroughout(dev, t, DelMsgs(r, mark))
  {
  }

  // -- agreement with the table --

  /** The fixed inner classes suit a device number: its parent is there, and no leaf collides with one. */
  predicate Suits(devid: uint32, n: nat, inner: map<uint32, Class>) {
    && devid <= 13 && n <= TC_MAX_IP_CNT && ParentId(devid) in inner
    && forall off | 1 <= off <= n :: Major1(LeafMinor(devid, off)) !in inner
  }

  /** What the tree needs to know about an entry: its mark and the device number of its rule. */
  datatype Tag = Tag(devid: uint32, mark: uint32) {
    function Leaf(): uint32 { LeafId(devid, mark) }
  }

  function TagOf(s: State, ip: Ip): Tag
    requires ip in s.table && IsRule(s, s.table[ip].id)
  {
    Tag(s.rules[s.table[ip].id - 1].devid, s.table[ip].mark)
  }

  ghost function Tags(s: State): map<Ip, Tag>
    requires Structural(s)
  {
    map ip | ip in s.table :: TagOf(s, ip)
  }

  /** What the tree holds for one entry. */
  ghost predicate TagTracked(g: Tag, n: nat, t: Tree, inner: map<uint32, Class>) {
    && g.mark in t.filters && t.filters[g.mark] == g.Leaf()
    && g.Leaf() in t.classes && t.classes[g.Leaf()].parent == ParentId(g.devid)
    && g.Leaf() in t.queues && t.queues[g.Leaf()] == QueueId(g.devid, g.mark)
    && Suits(g.devid, n, inner) && OffsetInRange(n, g.mark)
  }

  ghost predicate HasMark(tags: map<Ip, Tag>, mark: uint32) { exists ip :: ip in tags && tags[ip].mark == mark }

  ghost predicate HasLeaf(tags: map<Ip, Tag>, leaf: uint32) { exists ip :: ip in tags && tags[ip].Leaf() == leaf }

  /** The device's tree holds exactly what the live entries call for, next to the inner classes. */
  ghost predicate Tracks(tags: map<Ip, Tag>, n: nat, t: Tree, inner: map<uint32, Class>) {
    && (forall ip {:trigger TagTracked(tags[ip], n, t, inner)} | ip in tags :: TagTracked(tags[ip], n, t, inner))
    && (forall m {:trigger HasMark(tags, m)} | m in t.filters :: HasMark(tags, m))
    && (forall c {:trigger HasLeaf(tags, c)} | c in t.classes && c !in inner :: HasLeaf(tags, c))
    && (forall c {:trigger HasLeaf(tags, c)} | c in t.queues :: HasLeaf(tags, c))
    && (forall c | c in inner :: c in t.classes && t.classes[c] == inner[c])
  }

  /** A tracked tree is safe: filters point to leaves of live entries. */
  lemma TracksSafe(tags: map<Ip, Tag>, n: nat, t: Tree, inner: map<uint32, Class>)
    requires Tracks(tags, n, t, inner)
    ensures Safe(t)
  {
    forall m | m in t.filters ensures t.filters[m] in t.classes {
      assert HasMark(tags, m);
      var ip :| ip in tags && tags[ip].mark == m;
      assert TagTracked(tags[ip], n, t, inner);
    }
  }

  // -- one entry more --

  lemma TracksNewMark(tags: map<Ip, Tag>, n: nat, t: Tree, inner: map<uint32, Class>, ip: Ip, g: Tag, cl: Class)
    requires cl.parent == ParentId(g.devid)
    requires Tracks(tags, n, t, inner) && ip !in tags && Suits(g.devid, n, inner) && OffsetInRange(n, g.mark)
    requires forall p | p in tags :: OffsetOf(tags[p].mark) != OffsetOf(g.mark)
    ensures g.Leaf() !in t.classes && g.Leaf() !in t.queues && g.mark !in t.filters && ParentId(g.devid) in t.classes
    ensures QueueId(g.devid, g.mark) !in t.queues.Values
    ensures Tracks(tags[ip := g], n, WithLeaf(t, g.devid, g.mark, cl), inner)
  {
    NewMarkIsNew(tags, n, t, inner, g);
    forall p | p in tags ensures TagTracked(tags[p], n, WithLeaf(t, g.devid, g.mark, cl), inner) {
      OldTagTracked(tags, n, t, inner, p, g, cl);
    }
    NewTagTracked(tags, n, t, inner, ip, g, cl);
    BackedMore(tags, n, t, inner, ip, g, cl);
  }

  lemma NewTagTracked(tags: map<Ip, Tag>, n: nat, t: Tree, inner: map<uint32, Class>, ip: Ip, g: Tag, cl: Class)
    requires cl.parent == ParentId(g.devid)
    requires Suits(g.devid, n, inner) && OffsetInRange(n, g.mark)
    requires forall p | p in tags :: TagTracked(tags[p], n, WithLeaf(t, g.devid, g.mark, cl), inner)
    ensures var tags', t' := tags[ip := g], WithLeaf(t, g.devid, g.mark, cl);
            forall p {:trigger TagTracked(tags'[p], n, t', inner)} | p in tags' :: TagTracked(tags'[p], n, t', inner)
  {
  }

  lemma BackedMore(tags: map<Ip, Tag>, n: nat, t: Tree, inner: map<uint32, Class>, ip: Ip, g: Tag, cl: Class)
    requires Tracks(tags, n, t, inner) && ip !in tags
    ensures var t', tags' := WithLeaf(t, g.devid, g.mark, cl), tags[ip := g];
            && (forall m | m in t'.filters :: HasMark(tags', m))
            && (forall c | c in t'.classes && c !in inner :: HasLeaf(tags', c))
            && (forall c | c in t'.queues :: HasLeaf(tags', c))
  {
    var tags', t' := tags[ip := g], WithLeaf(t, g.devid, g.mark, cl);
    MoreTags(tags, ip, g);
    assert tags'[ip] == g;
    forall m | m in t'.filters ensures HasMark(tags', m) {
      assert if m in t.filters then HasMark(tags, m) else m == g.mark;
    }
    forall c | c in t'.classes && c !in inner ensures HasLeaf(tags', c) {
      assert if c in t.classes then HasLeaf(tags, c) else c == g.Leaf();
    }
    forall c | c in t'.queues ensures HasLeaf(tags', c) {
      assert if c in t.queues then HasLeaf(tags, c) else c == g.Leaf();
    }
  }

  lemma OldTagTracked(tags: map<Ip, Tag>, n: nat, t: Tree, inner: map<uint32, Class>, p: Ip, g: Tag, cl: Class)
    requires Tracks(tags, n, t, inner) && p in tags && Suits(g.devid, n, inner) && OffsetInRange(n, g.mark)
    requires OffsetOf(tags[p].mark) != OffsetOf(g.mark)
    ensures TagTracked(tags[p], n, WithLeaf(t, g.devid, g.mark, cl), inner)
  {
    assert TagTracked(tags[p], n, t, inner);
    NewLeaf(tags[p], g, n, inner);
  }

  lemma NewMarkIsNew(tags: map<Ip, Tag>, n: nat, t: Tree, inner: map<uint32, Class>, g: Tag)
    requires Tracks(tags, n, t, inner) && Suits(g.devid, n, inner) && OffsetInRange(n, g.mark)
    requires forall p | p in tags :: OffsetOf(tags[p].mark) != OffsetOf(g.mark)
    ensures g.Leaf() !in t.classes && g.Leaf() !in t.queues && g.mark !in t.filters && ParentId(g.devid) in t.classes
    ensures QueueId(g.devid, g.mark) !in t.queues.Values
  {
    NewQueue(tags, n, t, inner, g);
    assert Major1(LeafMinor(g.devid, OffsetOf(g.mark))) !in inner;
    forall p | p in tags ensures tags[p].Leaf() != g.Leaf() {
      assert TagTracked(tags[p], n, t, inner);
      NewLeaf(tags[p], g, n, inner);
    }
    assert !HasLeaf(tags, g.Leaf()) && !HasMark(tags, g.mark);
  }

  /** No queue of the device has the handle of the new one. */
  lemma NewQueue(tags: map<Ip, Tag>, n: nat, t: Tree, inner: map<uint32, Class>, g: Tag)
    requires Tracks(tags, n, t, inner) && Suits(g.devid, n, inner) && OffsetInRange(n, g.mark)
    requires forall p | p in tags :: OffsetOf(tags[p].mark) != OffsetOf(g.mark)
    ensures QueueId(g.devid, g.mark) !in t.queues.Values
  {
    forall c | c in t.queues ensures t.queues[c] != QueueId(g.devid, g.mark) {
      assert HasLeaf(tags, c);
      var p :| p in tags && tags[p].Leaf() == c;
      assert TagTracked(tags[p], n, t, inner);
      NewHandle(tags[p], g, n, inner);
    }
  }

  /** Different offsets have different queue handles. */
  lemma NewHandle(a: Tag, b: Tag, n: nat, inner: map<uint32, Class>)
    requires Suits(a.devid, n, inner) && Suits(b.devid, n, inner)
    requires OffsetInRange(n, a.mark) && OffsetInRange(n, b.mark) && OffsetOf(a.mark) != OffsetOf(b.mark)
    ensures QueueId(a.devid, a.mark) != QueueId(b.devid, b.mark)
  {
    if QueueId(a.devid, a.mark) == QueueId(b.devid, b.mark) {
      QueueIdInjective(a.devid, OffsetOf(a.mark), b.devid, OffsetOf(b.mark));
    }
  }

  /** Spells out what backs the contents of a tracked tree. */
  lemma Backed(tags: map<Ip, Tag>, n: nat, t: Tree, inner: map<uint32, Class>)
    requires Tracks(tags, n, t, inner)
    ensures forall m | m in t.filters :: HasMark(tags, m)
    ensures forall l | l in t.classes && l !in inner :: HasLeaf(tags, l)
    ensures forall l | l in t.queues :: HasLeaf(tags, l)
  {
  }

  /** Different offsets have different leaves. */
  lemma NewLeaf(a: Tag, b: Tag, n: nat, inner: map<uint32, Class>)
    requires Suits(a.devid, n, inner) && Suits(b.devid, n, inner)
    requires OffsetInRange(n, a.mark) && OffsetInRange(n, b.mark) && OffsetOf(a.mark) != OffsetOf(b.mark)
    ensures a.Leaf() != b.Leaf()
  {
    if a.Leaf() == b.Leaf() { LeafIdInjective(a.devid, OffsetOf(a.mark), b.devid, OffsetOf(b.mark)); }
  }

  lemma MoreTags(tags: map<Ip, Tag>, ip: Ip, g: Tag)
    requires ip !in tags
    ensures forall m :: HasMark(tags[ip := g], m) <==> HasMark(tags, m) || m == g.mark
    ensures forall l :: HasLeaf(tags[ip := g], l) <==> HasLeaf(tags, l) || l == g.Leaf()
  {
    var tags' := tags[ip := g];
    assert tags'[ip] == g;
    forall m | HasMark(tags, m) ensures HasMark(tags', m) {
      var p :| p in tags && tags[p].mark == m;
      assert p in tags' && tags'[p].mark == m;
    }
    forall l | HasLeaf(tags, l) ensures HasLeaf(tags', l) {
      var p :| p in tags && tags[p].Leaf() == l;
      assert p in tags' && tags'[p].Leaf() == l;
    }
  }

  lemma TracksSharedMark(tags: map<Ip, Tag>, n: nat, t: Tree, inner: map<uint32, Class>, ip: Ip, q: Ip)
    requires Tracks(tags, n, t, inner) && ip !in tags && q in tags
    ensures tags[q].Leaf() in t.classes && tags[q].Leaf() in t.queues && tags[q].mark in t.filters
    ensures Tracks(tags[ip := tags[q]], n, t, inner)
  {
    var tags' := tags[ip := tags[q]];
    assert TagTracked(tags[q], n, t, inner);
    MoreTags(tags, ip, tags[q]);
    forall p | p in tags' ensures TagTracked(tags'[p], n, t, inner) {
      if p != ip { assert TagTracked(tags[p], n, t, inner); }
    }
    Backed(tags, n, t, inner);
  }

  // -- one entry less --

  lemma TracksFreed(tags: map<Ip, Tag>, n: nat, t: Tree, inner: map<uint32, Class>, ip: Ip)
    requires Tracks(tags, n, t, inner) && ip in tags
    requires forall p | p in tags && p != ip :: OffsetOf(tags[p].mark) != OffsetOf(tags[ip].mark)
    ensures forall m | m in t.filters && m != tags[ip].mark :: t.filters[m] != tags[ip].Leaf()
    ensures Tracks(tags - {ip}, n, WithoutLeaf(t, tags[ip].devid, tags[ip].mark), inner)
  {
    var g, tags' := tags[ip], tags - {ip};
    var t' := WithoutLeaf(t, g.devid, g.mark);
    assert TagTracked(g, n, t, inner);
    assert Major1(LeafMinor(g.devid, OffsetOf(g.mark))) !in inner;
    forall p | p in tags' ensures TagTracked(tags'[p], n, t', inner) && tags[p].Leaf() != g.Leaf() {
      assert TagTracked(tags[p], n, t, inner);
      NewLeaf(tags[p], g, n, inner);
    }
    forall m | m in t.filters && m != g.mark ensures t.filters[m] != g.Leaf() {
      assert HasMark(tags, m);
      var p :| p in tags && tags[p].mark == m;
      assert TagTracked(tags[p], n, t, inner) && p in tags';
    }
    MoreTags(tags', ip, g);
    assert tags'[ip := g] == tags;
    Backed(tags, n, t, inner);
  }

  lemma TracksStillShared(tags: map<Ip, Tag>, n: nat, t: Tree, inner: map<uint32, Class>, ip: Ip, q: Ip)
    requires Tracks(tags, n, t, inner) && ip in tags && q in tags && q != ip && tags[q] == tags[ip]
    ensures Tracks(tags - {ip}, n, t, inner)
  {
    var tags' := tags - {ip};
    forall p | p in tags' ensures TagTracked(tags'[p], n, t, inner) { assert TagTracked(tags[p], n, t, inner); }
    MoreTags(tags', ip, tags[ip]);
    assert tags'[ip := tags[ip]] == tags;
    assert tags'[q] == tags[ip];
    assert HasMark(tags', tags[ip].mark) && HasLeaf(tags', tags[ip].Leaf());
    Backed(tags, n, t, inner);
  }

  // -- the steps of a run --

  /** Packets and events, and rule changes that leave the devices and modes of rules in use alone. */
  ghost predicate TcOk(s: State, op: Op, inner: map<uint32, Class>)
    requires Structural(s)
  {
    match op
    case PacketOp(ip, id, _) => ip in s.table || (IsRule(s, id) && Suits(s.rules[id - 1].devid, |s.bits|, inner))
    case EventOp(_) => true
    case CheckHashOp(_) => true
    case AddRuleOp(id, r) =>
      && IsRule(s, id)
      && (s.rules[id - 1].count == 0
          || (IsPrivate(r) == IsPrivate(s.rules[id - 1]) && r.devid == s.rules[id - 1].devid))
    case DelRuleOp(id) => IsRule(s, id) && s.rules[id - 1].count == 0
    case _ => false
  }

  /** The tree after the messages of one step, and safe after every single one of them. */
  ghost predicate Follows(dev: Dev, t: Tree, msgs: seq<TcMsg>, t': Tree) {
    t' == TreeAt(dev, t, msgs, |msgs|) && SafeThroughout(dev, t, msgs)
  }

  /** Ownership holds and the tree agrees with the table. */
  ghost predicate Agrees(s: State, t: Tree, inner: map<uint32, Class>) {
    Own(s) && Tracks(Tags(s), |s.bits|, t, inner)
  }

  lemma SameTags(s: State, s': State)
    requires Structural(s) && Structural(s') && s'.table.Keys == s.table.Keys
    requires forall p | p in s.table :: TagOf(s', p) == TagOf(s, p)
    ensures Tags(s') == Tags(s)
  {
  }

  lemma NoMessages(dev: Dev, t: Tree)
    requires Safe(t)
    ensures Follows(dev, t, [], t)
  {
  }

  /** The six messages put an entry under a new mark into the tree. */
  lemma ShowMore(tags: map<Ip, Tag>, n: nat, dev: Dev, t: Tree, inner: map<uint32, Class>, p: Ip, r: Rule, mark: uint32)
    requires Tracks(tags, n, t, inner) && p !in tags && Suits(r.devid, n, inner) && OffsetInRange(n, mark)
    requires forall q | q in tags :: OffsetOf(tags[q].mark) != OffsetOf(mark)
    ensures TreeAt(dev, t, AddMsgs(r, mark), 6) == WithLeaf(t, r.devid, mark, LeafClass(dev, r))
    ensures SafeThroughout(dev, t, AddMsgs(r, mark))
    ensures Tracks(tags[p := Tag(r.devid, mark)], n, WithLeaf(t, r.devid, mark, LeafClass(dev, r)), inner)
  {
    TracksSafe(tags, n, t, inner);
    TracksNewMark(tags, n, t, inner, p, Tag(r.devid, mark), LeafClass(dev, r));
    AddNewMark(dev, t, r, mark);
  }

  /** A step that changes nothing of what the tree depends on, and sends nothing. */
  lemma TrackSame(s: State, s': State, dev: Dev, t: Tree, inner: map<uint32, Class>)
    requires Agrees(s, t, inner) && Own(s') && |s'.bits| == |s.bits| && s'.table.Keys == s.table.Keys
    requires forall p | p in s.table :: TagOf(s', p) == TagOf(s, p)
    ensures Agrees(s', t, inner) && Follows(dev, t, [], t)
  {
    SameTags(s, s');
    TracksSafe(Tags(s), |s.bits|, t, inner);
    NoMessages(dev, t);
  }

  lemma TrackPacket(s: State, ip: Ip, id: nat, nodeOk: bool, dev: Dev, t: Tree, inner: map<uint32, Class>) returns (t': Tree)
    requires Agrees(s, t, inner) && TcOk(s, PacketOp(ip, id, nodeOk), inner)
    ensures PacketOk(s, ip, id)
    ensures var o := Packet(s, ip, id, nodeOk);
            Agrees(o.state, t', inner) && Follows(dev, t, o.msgs, t')
  {
    LiveMarkNonzero(s, ip);
    if ip in s.table {
      TracksSafe(Tags(s), |s.bits|, t, inner);
      NoMessages(dev, t);
      t' := t;
    } else {
      t' := TrackAlloc(s, ip, id, nodeOk, dev, t, inner);
    }
  }

  lemma TrackAlloc(s: State, ip: Ip, id: nat, nodeOk: bool, dev: Dev, t: Tree, inner: map<uint32, Class>) returns (t': Tree)
    requires Agrees(s, t, inner) && ip !in s.table && IsRule(s, id) && Suits(s.rules[id - 1].devid, |s.bits|, inner)
    ensures ShareMarkUsable(s, id)
    ensures var o := AllocAuto(s, ip, id, nodeOk);
            Agrees(o.state, t', inner) && Follows(dev, t, o.msgs, t')
  {
    Granted(s, ip, id, nodeOk);
    if AllocAuto(s, ip, id, nodeOk).code == OK {
      InsertedOwn(s, ip, id);
      t' := TrackInsert(s, ip, id, dev, t, inner);
    } else {
      TrackRefused(s, ip, id, nodeOk, dev, t, inner);
      t' := t;
    }
  }

  lemma TrackRefused(s: State, ip: Ip, id: nat, nodeOk: bool, dev: Dev, t: Tree, inner: map<uint32, Class>)
    requires Agrees(s, t, inner) && IsRule(s, id) && ShareMarkUsable(s, id)
    requires AllocAuto(s, ip, id, nodeOk).code != OK
    ensures var o := AllocAuto(s, ip, id, nodeOk);
            Agrees(o.state, t, inner) && Follows(dev, t, o.msgs, t)
  {
    var s' := AllocAuto(s, ip, id, nodeOk).state;
    RefusalChangesNothing(s, ip, id, nodeOk);
    UntouchedOwn(s, s', id);
    UntouchedTags(s, s', id);
    TrackSame(s, s', dev, t, inner);
  }

  lemma UntouchedTags(s: State, s': State, id: nat)
    requires Structural(s) && IsRule(s, id) && Untouched(s, s', id)
    ensures |s'.bits| == |s.bits| && s'.table == s.table && |s'.rules| == |s.rules|
    ensures forall p | p in s.table :: TagOf(s', p) == TagOf(s, p)
  {
  }

  lemma TrackInsert(s: State, ip: Ip, id: nat, dev: Dev, t: Tree, inner: map<uint32, Class>) returns (t': Tree)
    requires Agrees(s, t, inner) && IsRule(s, id) && ip !in s.table && |s.table| < |s.bits|
    requires NeedsFresh(s, id) ==> FirstZero(s.bits, 0) < |s.bits|
    requires Suits(s.rules[id - 1].devid, |s.bits|, inner)
    ensures Structural(Inserted(s, ip, id)) && Tracks(Tags(Inserted(s, ip, id)), |s.bits|, t', inner)
    ensures Follows(dev, t, AddMsgs(Inserted(s, ip, id).rules[id - 1], GrantedMark(s, id)), t')
  {
    var mark, r := GrantedMark(s, id), Inserted(s, ip, id).rules[id - 1];
    InsertedOwn(s, ip, id);
    InsertedTags(s, ip, id);
    GrantedFacts(s, id);
    if NeedsFresh(s, id) {
      FreshTags(s, mark);
      ShowMore(Tags(s), |s.bits|, dev, t, inner, ip, r, mark);
      t' := WithLeaf(t, r.devid, mark, LeafClass(dev, r));
    } else {
      var q := ShareMarkLive(s, id);
      ShowAgain(Tags(s), |s.bits|, dev, t, inner, ip, q, r);
      t' := t;
    }
  }

  lemma FreshTags(s: State, mark: uint32)
    requires Structural(s) && OffsetOf(mark) !in Live(s.table)
    ensures forall p | p in Tags(s) :: OffsetOf(Tags(s)[p].mark) != OffsetOf(mark)
  {
    forall p | p in Tags(s) ensures OffsetOf(Tags(s)[p].mark) != OffsetOf(mark) {
      assert OffsetOf(s.table[p].mark) in Live(s.table);
    }
  }

  /** The six messages again, for a further entry under a shared mark. */
  lemma ShowAgain(tags: map<Ip, Tag>, n: nat, dev: Dev, t: Tree, inner: map<uint32, Class>, ip: Ip, q: Ip, r: Rule)
    requires Tracks(tags, n, t, inner) && ip !in tags && q in tags && r.devid == tags[q].devid
    ensures Tracks(tags[ip := tags[q]], n, t, inner) && Follows(dev, t, AddMsgs(r, tags[q].mark), t)
  {
    TracksSafe(tags, n, t, inner);
    TracksSharedMark(tags, n, t, inner, ip, q);
    forall k | 0 <= k <= 6 ensures TreeAt(dev, t, AddMsgs(r, tags[q].mark), k) == t { AddKnownMark(dev, t, r, tags[q].mark, k); }
  }

  lemma InsertedTags(s: State, ip: Ip, id: nat)
    requires Structural(s) && IsRule(s, id) && ip !in s.table
    requires NeedsFresh(s, id) ==> FirstZero(s.bits, 0) < |s.bits|
    requires Structural(Inserted(s, ip, id))
    ensures Tags(Inserted(s, ip, id)) == Tags(s)[ip := Tag(Inserted(s, ip, id).rules[id - 1].devid, GrantedMark(s, id))]
  {
  }

  lemma TrackRelease(s: State, ip: Ip, dev: Dev, t: Tree, inner: map<uint32, Class>) returns (t': Tree)
    requires Agrees(s, t, inner)
    ensures var o := Release(s, ip);
            Agrees(o.state, t', inner) && Follows(dev, t, o.msgs, t')
  {
    if ip in s.table && s.table[ip].count <= 1 {
      ReleaseRemoves(s, ip);
      RemoveOwn(s, ip);
      t' := TrackRemove(s, ip, dev, t, inner);
    } else {
      TrackKept(s, ip, dev, t, inner);
      t' := t;
    }
  }

  lemma TrackKept(s: State, ip: Ip, dev: Dev, t: Tree, inner: map<uint32, Class>)
    requires Agrees(s, t, inner) && (ip in s.table ==> s.table[ip].count > 1)
    ensures var o := Release(s, ip);
            Agrees(o.state, t, inner) && Follows(dev, t, o.msgs, t)
  {
    ReleaseOwn(s, ip);
    TrackSame(s, Release(s, ip).state, dev, t, inner);
  }

  lemma TrackRemove(s: State, ip: Ip, dev: Dev, t: Tree, inner: map<uint32, Class>) returns (t': Tree)
    requires Agrees(s, t, inner) && ip in s.table
    ensures Structural(Removed(s, ip)) && Tracks(Tags(Removed(s, ip)), |s.bits|, t', inner)
    ensures Follows(dev, t, if FreesMark(s, ip) then DelMsgs(s.rules[s.table[ip].id - 1], s.table[ip].mark) else [], t')
  {
    RemovedTags(s, ip);
    if FreesMark(s, ip) {
      OthersApart(s, ip);
      t' := TakeDown(Tags(s), |s.bits|, dev, t, inner, ip, s.rules[s.table[ip].id - 1]);
    } else {
      var q := StillShared(s, ip);
      TracksStillShared(Tags(s), |s.bits|, t, inner, ip, q);
      TracksSafe(Tags(s), |s.bits|, t, inner);
      NoMessages(dev, t);
      t' := t;
    }
  }

  lemma OthersApart(s: State, ip: Ip)
    requires Own(s) && ip in s.table && FreesMark(s, ip)
    ensures forall p | p in Tags(s) && p != ip :: OffsetOf(Tags(s)[p].mark) != OffsetOf(Tags(s)[ip].mark)
  {
    forall p | p in Tags(s) && p != ip ensures OffsetOf(Tags(s)[p].mark) != OffsetOf(Tags(s)[ip].mark) { FreedIsAlone(s, ip, p); }
  }

  lemma TakeDown(tags: map<Ip, Tag>, n: nat, dev: Dev, t: Tree, inner: map<uint32, Class>, ip: Ip, r: Rule) returns (t': Tree)
    requires Tracks(tags, n, t, inner) && ip in tags && r.devid == tags[ip].devid
    requires forall p | p in tags && p != ip :: OffsetOf(tags[p].mark) != OffsetOf(tags[ip].mark)
    ensures Tracks(tags - {ip}, n, t', inner) && Follows(dev, t, DelMsgs(r, tags[ip].mark), t')
  {
    ShowLess(tags, n, dev, t, inner, ip, r);
    t' := WithoutLeaf(t, r.devid, tags[ip].mark);
  }

  /** The four messages of a last drop take the entry out of the tree. */
  lemma ShowLess(tags: map<Ip, Tag>, n: nat, dev: Dev, t: Tree, inner: map<uint32, Class>, ip: Ip, r: Rule)
    requires Tracks(tags, n, t, inner) && ip in tags && r.devid == tags[ip].devid
    requires forall p | p in tags && p != ip :: OffsetOf(tags[p].mark) != OffsetOf(tags[ip].mark)
    ensures TreeAt(dev, t, DelMsgs(r, tags[ip].mark), 4) == WithoutLeaf(t, r.devid, tags[ip].mark)
    ensures Tracks(tags - {ip}, n, WithoutLeaf(t, r.devid, tags[ip].mark), inner)
    ensures SafeThroughout(dev, t, DelMsgs(r, tags[ip].mark))
  {
    TracksSafe(tags, n, t, inner);
    TracksFreed(tags, n, t, inner, ip);
    DelMark(dev, t, r, tags[ip].mark);
  }

  lemma RemovedTags(s: State, ip: Ip)
    requires Structural(s) && ip in s.table
    ensures Structural(Removed(s, ip)) && Tags(Removed(s, ip)) == Tags(s) - {ip}
  {
  }

  /**
   * qmark_del_hash sends nothing to tc: the tree of before still agrees with the table of after if and
   * only if the deletion gives no mark back.
   */
  lemma DelHashTracksIff(s: State, ip: Ip, t: Tree, inner: map<uint32, Class>)
    requires Agrees(s, t, inner)
    ensures Agrees(Release(s, ip).state, t, inner) <==> !(ip in s.table && s.table[ip].count <= 1 && FreesMark(s, ip))
  {
    if ip in s.table && s.table[ip].count <= 1 {
      ReleaseRemoves(s, ip);
      if FreesMark(s, ip) {
        FreedMarkLingers(s, ip, t, inner);
      } else {
        RemoveOwn(s, ip);
        var t' := TrackRemove(s, ip, Lan, t, inner);
      }
    } else {
      TrackKept(s, ip, Lan, t, inner);
    }
  }

  /** The filter of a freed mark has no entry behind it any more. */
  lemma FreedMarkLingers(s: State, ip: Ip, t: Tree, inner: map<uint32, Class>)
    requires Agrees(s, t, inner) && ip in s.table && FreesMark(s, ip)
    ensures Structural(Removed(s, ip)) && !Tracks(Tags(Removed(s, ip)), |s.bits|, t, inner)
  {
    var mark, tags' := s.table[ip].mark, Tags(s) - {ip};
    RemovedTags(s, ip);
    assert TagTracked(Tags(s)[ip], |s.bits|, t, inner);
    assert mark in t.filters;
    forall p | p in tags' ensures tags'[p].mark != mark { FreedIsAlone(s, ip, p); }
    assert !HasMark(tags', mark);
  }

  /** When a mark is freed, no other entry has its offset. */
  lemma FreedIsAlone(s: State, ip: Ip, q: Ip)
    requires Own(s) && ip in s.table && q in s.table && q != ip && FreesMark(s, ip)
    ensures OffsetOf(s.table[q].mark) != OffsetOf(s.table[ip].mark)
  {
    var id := s.table[ip].id;
    assert Apart(s, ip, q) && CountOk(s, id) && EntryOk(s, ip) && EntryOk(s, q);
    if s.table[q].mark == s.table[ip].mark {
      Finite.SubsetSize({ip, q}, Members(s.table, id));
    }
  }

  /** When it is not freed, another entry of the same share rule has it. */
  lemma StillShared(s: State, ip: Ip) returns (q: Ip)
    requires Own(s) && ip in s.table && !FreesMark(s, ip)
    ensures q in s.table && q != ip && s.table[q].id == s.table[ip].id && s.table[q].mark == s.table[ip].mark
  {
    var id := s.table[ip].id;
    assert CountOk(s, id) && ip in Members(s.table, id);
    assert |Members(s.table, id)| != 0;
    var p, p' := Finite.TwoElements(Members(s.table, id));
    q := if p == ip then p' else p;
    assert EntryOk(s, ip) && EntryOk(s, q);
  }

  lemma TrackRules(s: State, op: Op, dev: Dev, t: Tree, inner: map<uint32, Class>)
    requires Agrees(s, t, inner) && TcOk(s, op, inner) && (op.AddRuleOp? || op.DelRuleOp?)
    ensures Callable(s, op)
    ensures var o := Step(s, op);
            Agrees(o.state, t, inner) && Follows(dev, t, o.msgs, t)
  {
    TracksSafe(Tags(s), |s.bits|, t, inner);
    NoMessages(dev, t);
    StepOwnIff(s, op);
    RulesKeepTags(s, op, inner);
  }

  lemma RulesKeepTags(s: State, op: Op, inner: map<uint32, Class>)
    requires Structural(s) && Counted(s) && TcOk(s, op, inner) && (op.AddRuleOp? || op.DelRuleOp?)
    requires Structural(Step(s, op).state)
    ensures Tags(Step(s, op).state) == Tags(s)
  {
    var s' := Step(s, op).state;
    assert CountOk(s, op.id);
    forall p | p in s.table ensures TagOf(s', p) == TagOf(s, p) {
      if s.table[p].id == op.id { assert p in Members(s.table, op.id); }
    }
  }

  lemma TrackEvent(s: State, ev: ConnEvent, dev: Dev, t: Tree, inner: map<uint32, Class>) returns (t': Tree)
    requires Agrees(s, t, inner)
    ensures var o := Event(s, ev);
            Agrees(o.state, t', inner) && Follows(dev, t, o.msgs, t')
  {
    if Subject(ev.conn).Some? && ev.destroy {
      t' := TrackRelease(s, Subject(ev.conn).value, dev, t, inner);
    } else {
      EventOwn(s, ev);
      TrackSame(s, Event(s, ev).state, dev, t, inner);
      t' := t;
    }
  }

  /** One step of a run keeps the tree and the table in agreement, and the tree safe in between. */
  lemma TrackStep(s: State, op: Op, dev: Dev, t: Tree, inner: map<uint32, Class>) returns (t': Tree)
    requires Agrees(s, t, inner) && TcOk(s, op, inner)
    ensures Callable(s, op)
    ensures var o := Step(s, op);
            Agrees(o.state, t', inner) && Follows(dev, t, o.msgs, t')
  {
    match op
    case PacketOp(ip, id, nodeOk) => t' := TrackPacket(s, ip, id, nodeOk, dev, t, inner);
    case EventOp(ev) => t' := TrackEvent(s, ev, dev, t, inner);
    case CheckHashOp(_) =>
      TracksSafe(Tags(s), |s.bits|, t, inner);
      NoMessages(dev, t);
      t' := t;
    case _ =>
      TrackRules(s, op, dev, t, inner);
      t' := t;
  }

  // -- runs --

  /** The messages of the i-th step of a run. */
  function SentAt(tr: seq<State>, ops: seq<Op>, i: nat): seq<TcMsg>
    requires i < |ops| && |tr| == |ops| + 1 && Structural(tr[i]) && Callable(tr[i], ops[i])
  {
    Step(tr[i], ops[i]).msgs
  }

  /** The tree of the device after the first n steps of a run. */
  ghost function TreeAlong(tr: seq<State>, ops: seq<Op>, dev: Dev, t: Tree, n: nat): Tree
    requires IsRun(tr, ops) && n <= |ops|
    decreases n
  {
    if n == 0 then t
    else
      assert StepsTo(tr[n - 1], ops[n - 1], tr[n]);
      TreeAt(dev, TreeAlong(tr, ops, dev, t, n - 1), SentAt(tr, ops, n - 1), |SentAt(tr, ops, n - 1)|)
  }

  /**
   * The tree tracks the table over every run of packets, events and harmless rule changes: after every
   * step it holds exactly what the live entries call for, and within each step it is safe after every
   * single message.
   */
  lemma {:induction false} TrackRun(tr: seq<State>, ops: seq<Op>, dev: Dev, t: Tree, inner: map<uint32, Class>, n: nat)
    requires IsRun(tr, ops) && Agrees(tr[0], t, inner) && n <= |ops|
    requires forall i | 0 <= i < |ops| :: Structural(tr[i]) && TcOk(tr[i], ops[i], inner)
    ensures Agrees(tr[n], TreeAlong(tr, ops, dev, t, n), inner)
    ensures n < |ops| ==>
              && Structural(tr[n]) && Callable(tr[n], ops[n])
              && SafeThroughout(dev, TreeAlong(tr, ops, dev, t, n), SentAt(tr, ops, n))
    decreases n
  {
    if n == 0 {
    } else {
      TrackRun(tr, ops, dev, t, inner, n - 1);
      assert StepsTo(tr[n - 1], ops[n - 1], tr[n]);
      var t' := TrackStep(tr[n - 1], ops[n - 1], dev, TreeAlong(tr, ops, dev, t, n - 1), inner);
      assert t' == TreeAlong(tr, ops, dev, t, n);
    }
    if n < |ops| {
      assert StepsTo(tr[n], ops[n], tr[n + 1]);
      var t'' := TrackStep(tr[n], ops[n], dev, TreeAlong(tr, ops, dev, t, n), inner);
    }
  }

  /** In a tracked tree the filters are exactly the live marks, each pointing to the class of its rule's device. */
  lemma TracksMeans(s: State, t: Tree, inner: map<uint32, Class>, mark: uint32, flowid: uint32)
    requires Agrees(s, t, inner)
    ensures mark in t.filters && t.filters[mark] == flowid <==>
            exists ip :: ip in s.table && s.table[ip].mark == mark && LeafId(s.rules[s.table[ip].id - 1].devid, mark) == flowid
  {
    var tags := Tags(s);
    if mark in t.filters {
      assert HasMark(tags, mark);
      var ip :| ip in tags && tags[ip].mark == mark;
      assert TagTracked(tags[ip], |s.bits|, t, inner);
      assert ip in s.table && s.table[ip].mark == mark;
    }
    forall ip | ip in s.table && s.table[ip].mark == mark
      ensures mark in t.filters && t.filters[mark] == LeafId(s.rules[s.table[ip].id - 1].devid, mark)
    {
      assert TagTracked(tags[ip], |s.bits|, t, inner);
    }
  }

  /** When the table is empty nothing of it is left in the tree, and the bitmap is zero. */
  lemma EmptyLeavesNothing(s: State, t: Tree, inner: map<uint32, Class>)
    requires Agrees(s, t, inner) && s.table == map[]
    ensures t == Tree(inner, map[], map[])
    ensures forall i | 0 <= i < |s.bits| :: !s.bits[i]
  {
    OwnOfEmpty(s);
    var tags := Tags(s);
    assert tags == map[];
    Backed(tags, |s.bits|, t, inner);
    assert t.classes == inner;
  }

  /** The inner classes set up for two device numbers and the root suit one of them, unless it is number 0
      and the other is not: there the leaf of offset p is the inner class of p. */
  lemma SuitsIff(d: uint32, p: uint32, n: nat, inner: map<uint32, Class>)
    requires d <= 13 && p <= 13 && 1 <= n <= TC_MAX_IP_CNT
    requires inner.Keys == {ParentId(0), ParentId(d), ParentId(p)}
    ensures Suits(d, n, inner) <==> !(d == 0 && 1 <= p <= n)
  {
    forall off | 1 <= off <= n ensures Major1(LeafMinor(d, off)) in inner <==> d == 0 && p > 0 && off == p {
      LeafInInner(d, p, off);
      assert Major1(LeafMinor(d, off)) in inner <==> Major1(LeafMinor(d, off)) in inner.Keys;
    }
    assert ParentId(d) in inner.Keys;
    if d == 0 && 1 <= p <= n { assert Major1(LeafMinor(d, p)) in inner; }
  }

  lemma LeafInInner(d: uint32, p: uint32, off: nat)
    requires d <= 13 && p <= 13 && 1 <= off <= TC_MAX_IP_CNT
    ensures Major1(LeafMinor(d, off)) == ParentId(0) || Major1(LeafMinor(d, off)) == ParentId(d) || Major1(LeafMinor(d, off)) == ParentId(p)
            <==> d == 0 && p > 0 && off == p
  {
    LeafMinorReserved(d, off);
    LeafIsParentIff(d, off, 0);
    LeafIsParentIff(d, off, d);
    LeafIsParentIff(d, off, p);
  }

  lemma LeafIsParentIff(d: uint32, off: nat, p: uint32)
    requires d <= 13 && p <= 13 && 1 <= off <= TC_MAX_IP_CNT && Major1(LeafMinor(d, off)) == 0x1_0000 + LeafMinor(d, off)
    ensures Major1(LeafMinor(d, off)) == ParentId(p) <==> d == 0 && p > 0 && off == p
  {
    LeafIsInnerIff(d, off, p);
    assert ParentId(p) == 0x1_0000 + ParentMinor(p);
  }
}
