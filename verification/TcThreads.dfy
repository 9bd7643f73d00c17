// The traffic-control tree while packet threads interleave, with private rules. A thread drops the lock
// between inserting its entry and announcing it, so the tree lags behind the table, and events can come
// in between. This says exactly which steps let the tree and the table drift apart.

module TcThreads {
  import opened Word32
  import opened TcIds
  import opened Model
  import opened Ownership
  import opened Concurrent
  import opened TcTree

  /** The tc messages of one step, sent under the lock. */
  function Msgs(c: System, a: Act): seq<TcMsg>
    requires Structural(c.s) && Enabled(c, a)
  {
    match a
    case Announce(t) => AddMsgs(c.s.rules[c.pcs[t].id - 1], c.pcs[t].mark)
    case Conntrack(ev) => Event(c.s, ev).msgs
    case _ => []
  }

  /** The tree of a device after the messages of one step. */
  function TreeAfter(c: System, a: Act, dev: Dev, tree: Tree): Tree
    requires Structural(c.s) && Enabled(c, a)
  {
    TreeAt(dev, tree, Msgs(c, a), |Msgs(c, a)|)
  }

  /** Thread t has inserted the mark and not announced it yet. */
  predicate Announcing(c: System, t: nat, mark: uint32) { t < |c.pcs| && c.pcs[t].Added? && c.pcs[t].mark == mark }

  ghost predicate Unannounced(c: System, mark: uint32) { exists t :: Announcing(c, t, mark) }

  /** The entries that have been announced, with what the tree needs to know of them. */
  ghost function Shown(c: System): map<Ip, Tag>
    requires Structural(c.s)
  {
    map p | p in c.s.table && !Unannounced(c, c.s.table[p].mark) :: TagOf(c.s, p)
  }

  ghost predicate Shows(c: System, tree: Tree, inner: map<uint32, Class>) {
    Structural(c.s) && Tracks(Shown(c), |c.s.bits|, tree, inner)
  }

  /** The tree tracks the announced entries now, and after any one of the pending announcements. */
  ghost predicate Faithful(c: System, dev: Dev, tree: Tree, inner: map<uint32, Class>) {
    && Shows(c, tree, inner)
    && forall t {:trigger c.pcs[t]} | 0 <= t < |c.pcs| && c.pcs[t].Added? && Enabled(c, Announce(t)) ::
         Shows(Next(c, Announce(t)), TreeAfter(c, Announce(t), dev, tree), inner)
  }

  // -- the invariant --

  /** The thread's mark is the mark of an entry of its rule. */
  ghost predicate Carries(c: System, p: Ip, t: nat)
    requires t < |c.pcs| && c.pcs[t].Added?
  {
    p in c.s.table && c.s.table[p].mark == c.pcs[t].mark && c.s.table[p].id == c.pcs[t].id
  }

  ghost predicate Carried(c: System, t: nat)
    requires t < |c.pcs| && c.pcs[t].Added?
  {
    exists p :: Carries(c, p, t)
  }

  ghost predicate AllCarried(c: System) {
    && (forall t {:trigger c.pcs[t]} | 0 <= t < |c.pcs| && c.pcs[t].Added? :: Carried(c, t))
    && forall t, u {:trigger c.pcs[t], c.pcs[u]} | 0 <= t < u < |c.pcs| && c.pcs[t].Added? && c.pcs[u].Added? ::
         c.pcs[t].mark != c.pcs[u].mark
  }

  ghost predicate Suited(s: State, inner: map<uint32, Class>) {
    forall k | 0 <= k < |s.rules| :: Suits(s.rules[k].devid, |s.bits|, inner)
  }

  ghost predicate TcInv(c: System, tree: Tree, inner: map<uint32, Class>) {
    Inv(c) && Suited(c.s, inner) && AllCarried(c) && Shows(c, tree, inner)
  }

  lemma MarksApart(c: System, p: Ip, q: Ip)
    requires Inv(c) && p in c.s.table && q in c.s.table && p != q
    ensures OffsetOf(c.s.table[p].mark) != OffsetOf(c.s.table[q].mark)
  {
    assert Owns(c, InTable(p), OffsetOf(c.s.table[p].mark)) && Owns(c, InTable(q), OffsetOf(c.s.table[q].mark));
  }

  /** Marks are encoded offsets, so equal offsets are equal marks. */
  lemma MarkOfEntry(c: System, p: Ip)
    requires Static(c) && p in c.s.table
    ensures c.s.table[p].mark == 0x800 * OffsetOf(c.s.table[p].mark)
  {
  }

  // -- announcing --

  lemma AnnounceShown(c: System, t: nat, p: Ip)
    requires Inv(c) && AllCarried(c) && t < |c.pcs| && c.pcs[t].Added? && Carries(c, p, t)
    ensures p !in Shown(c) && Shown(Next(c, Announce(t))) == Shown(c)[p := TagOf(c.s, p)]
  {
    var c' := Next(c, Announce(t));
    assert Announcing(c, t, c.s.table[p].mark);
    forall q | q in c.s.table ensures Unannounced(c', c.s.table[q].mark) <==> q != p && Unannounced(c, c.s.table[q].mark) {
      AnnouncedOne(c, t, p, q);
    }
  }

  lemma AnnouncedOne(c: System, t: nat, p: Ip, q: Ip)
    requires Inv(c) && AllCarried(c) && t < |c.pcs| && c.pcs[t].Added? && Carries(c, p, t) && q in c.s.table
    ensures Unannounced(Next(c, Announce(t)), c.s.table[q].mark) <==> q != p && Unannounced(c, c.s.table[q].mark)
  {
    var c', mark := Next(c, Announce(t)), c.s.table[q].mark;
    if q != p { MarksApart(c, p, q); }
    if u: nat :| Announcing(c', u, mark) {
      assert Announcing(c, u, mark) && u != t;
      assert c.pcs[u].mark != c.pcs[t].mark;
    }
    if q != p && Unannounced(c, mark) {
      var u :| Announcing(c, u, mark);
      assert Announcing(c', u, mark);
    }
  }

  lemma AnnounceTracks(c: System, t: nat, dev: Dev, tree: Tree, inner: map<uint32, Class>)
    requires TcInv(c, tree, inner) && t < |c.pcs| && c.pcs[t].Added?
    ensures Enabled(c, Announce(t)) && Shows(Next(c, Announce(t)), TreeAfter(c, Announce(t), dev, tree), inner)
    ensures SafeThroughout(dev, tree, Msgs(c, Announce(t)))
  {
    ThreadOk(c, t);
    assert Carried(c, t);
    var p :| Carries(c, p, t);
    AnnounceShown(c, t, p);
    ShownApart(c, p);
    AnnounceTree(c, t, p, Shown(c), dev, tree, inner);
  }

  lemma AnnounceTree(c: System, t: nat, p: Ip, tags: map<Ip, Tag>, dev: Dev, tree: Tree, inner: map<uint32, Class>)
    requires Structural(c.s) && Enabled(c, Announce(t)) && Carries(c, p, t) && p !in tags
    requires Tracks(tags, |c.s.bits|, tree, inner) && Suits(c.s.rules[c.s.table[p].id - 1].devid, |c.s.bits|, inner)
    requires forall q | q in tags :: OffsetOf(tags[q].mark) != OffsetOf(c.s.table[p].mark)
    ensures Tracks(tags[p := TagOf(c.s, p)], |c.s.bits|, TreeAfter(c, Announce(t), dev, tree), inner)
    ensures SafeThroughout(dev, tree, Msgs(c, Announce(t)))
  {
    var n, r, mark := |c.s.bits|, c.s.rules[c.s.table[p].id - 1], c.s.table[p].mark;
    AnnounceMsgs(c, t, dev, tree);
    ShowAll(tags, n, dev, tree, inner, p, r, mark, Msgs(c, Announce(t)), TagOf(c.s, p));
  }

  lemma ShowAll(tags: map<Ip, Tag>, n: nat, dev: Dev, tree: Tree, inner: map<uint32, Class>, p: Ip, r: Rule, mark: uint32,
                msgs: seq<TcMsg>, g: Tag)
    requires Tracks(tags, n, tree, inner) && p !in tags && Suits(r.devid, n, inner) && OffsetInRange(n, mark)
    requires forall q | q in tags :: OffsetOf(tags[q].mark) != OffsetOf(mark)
    requires msgs == AddMsgs(r, mark) && g == Tag(r.devid, mark)
    ensures Tracks(tags[p := g], n, TreeAt(dev, tree, msgs, 6), inner) && SafeThroughout(dev, tree, msgs)
  {
    ShowMore(tags, n, dev, tree, inner, p, r, mark);
  }

  lemma AnnounceMsgs(c: System, t: nat, dev: Dev, tree: Tree)
    requires Structural(c.s) && Enabled(c, Announce(t))
    ensures Msgs(c, Announce(t)) == AddMsgs(c.s.rules[c.pcs[t].id - 1], c.pcs[t].mark)
    ensures TreeAfter(c, Announce(t), dev, tree) == TreeAt(dev, tree, AddMsgs(c.s.rules[c.pcs[t].id - 1], c.pcs[t].mark), 6)
  {
  }

  lemma ShownApart(c: System, p: Ip)
    requires Inv(c) && p in c.s.table && p !in Shown(c)
    ensures forall q | q in Shown(c) :: OffsetOf(Shown(c)[q].mark) != OffsetOf(c.s.table[p].mark)
  {
    forall q | q in Shown(c) ensures OffsetOf(Shown(c)[q].mark) != OffsetOf(c.s.table[p].mark) { MarksApart(c, p, q); }
  }

  lemma AnnounceCarried(c: System, t: nat)
    requires Static(c) && AllCarried(c) && t < |c.pcs| && c.pcs[t].Added?
    ensures Enabled(c, Announce(t)) && AllCarried(Next(c, Announce(t)))
  {
    ThreadOk(c, t);
    var c' := Next(c, Announce(t));
    forall u | 0 <= u < |c'.pcs| && c'.pcs[u].Added? ensures Carried(c', u) {
      assert Carried(c, u);
      var p :| Carries(c, p, u);
      assert Carries(c', p, u);
    }
  }

  lemma InvFaithful(c: System, dev: Dev, tree: Tree, inner: map<uint32, Class>)
    requires TcInv(c, tree, inner)
    ensures Faithful(c, dev, tree, inner)
  {
    forall t | 0 <= t < |c.pcs| && c.pcs[t].Added? && Enabled(c, Announce(t))
      ensures Shows(Next(c, Announce(t)), TreeAfter(c, Announce(t), dev, tree), inner)
    {
      AnnounceTracks(c, t, dev, tree, inner);
    }
  }

  // -- steps that neither add nor remove an entry --

  /** The same threads are about to announce the same marks. */
  predicate AddedAlike(c: System, c': System) {
    && |c'.pcs| == |c.pcs|
    && forall t {:trigger c.pcs[t]} {:trigger c'.pcs[t]} | 0 <= t < |c.pcs| ::
         (c'.pcs[t].Added? <==> c.pcs[t].Added?) && (c.pcs[t].Added? ==> c'.pcs[t] == c.pcs[t])
  }

  /** The same entries, but for their counts, under rules of the same device numbers. */
  predicate TableAlike(s: State, s': State) {
    && s'.table.Keys == s.table.Keys && |s'.rules| == |s.rules| && |s'.bits| == |s.bits|
    && (forall p | p in s.table :: s'.table[p].mark == s.table[p].mark && s'.table[p].id == s.table[p].id)
    && forall k | 0 <= k < |s.rules| :: s'.rules[k].devid == s.rules[k].devid
  }

  lemma AlikeUnannounced(c: System, c': System, mark: uint32)
    requires AddedAlike(c, c')
    ensures Unannounced(c', mark) <==> Unannounced(c, mark)
  {
    if Unannounced(c, mark) {
      var t :| Announcing(c, t, mark);
      assert Announcing(c', t, mark);
    }
    if Unannounced(c', mark) {
      var t :| Announcing(c', t, mark);
      assert Announcing(c, t, mark);
    }
  }

  lemma AlikeShown(c: System, c': System)
    requires Structural(c.s) && Structural(c'.s) && AddedAlike(c, c') && TableAlike(c.s, c'.s)
    ensures Shown(c') == Shown(c)
  {
    forall p: Ip ensures ShownAlike(c, c', p) {
      if p in c.s.table { AlikeUnannounced(c, c', c.s.table[p].mark); }
    }
    SameShown(c, c');
  }

  ghost predicate ShownAlike(c: System, c': System, p: Ip)
    requires Structural(c.s) && Structural(c'.s)
  {
    (p in Shown(c') <==> p in Shown(c)) && (p in Shown(c) ==> p in Shown(c') && Shown(c')[p] == Shown(c)[p])
  }

  lemma SameShown(c: System, c': System)
    requires Structural(c.s) && Structural(c'.s) && forall p: Ip :: ShownAlike(c, c', p)
    ensures Shown(c') == Shown(c)
  {
    var tags, tags' := Shown(c), Shown(c');
    forall p: Ip ensures (p in tags' <==> p in tags) && (p in tags ==> p in tags' && tags'[p] == tags[p]) {
      assert ShownAlike(c, c', p);
    }
  }

  lemma AlikeCarried(c: System, c': System)
    requires AllCarried(c) && AddedAlike(c, c') && TableAlike(c.s, c'.s)
    ensures AllCarried(c')
  {
    forall t | 0 <= t < |c'.pcs| && c'.pcs[t].Added? ensures Carried(c', t) {
      assert c.pcs[t].Added? && Carried(c, t);
      var p :| Carries(c, p, t);
      assert Carries(c', p, t);
    }
    forall t, u | 0 <= t < u < |c'.pcs| && c'.pcs[t].Added? && c'.pcs[u].Added? ensures c'.pcs[t].mark != c'.pcs[u].mark {
      assert c.pcs[t].Added? && c.pcs[u].Added?;
    }
  }

  lemma AlikeInv(c: System, c': System, tree: Tree, inner: map<uint32, Class>)
    requires TcInv(c, tree, inner) && Inv(c') && AddedAlike(c, c') && TableAlike(c.s, c'.s)
    ensures TcInv(c', tree, inner)
  {
    AlikeShown(c, c');
    AlikeCarried(c, c');
  }

  // -- an entry more --

  lemma InsertShown(c: System, t: nat, stray: bool)
    requires Inv(c) && AllCarried(c) && Enabled(c, Insert(t, true, stray)) && c.pcs[t].ip !in c.s.table
    ensures Structural(Next(c, Insert(t, true, stray)).s)
    ensures Shown(Next(c, Insert(t, true, stray))) == Shown(c)
  {
    var c', pc := Next(c, Insert(t, true, stray)), c.pcs[t];
    StepStatic(c, Insert(t, true, stray));
    forall p: Ip ensures ShownAlike(c, c', p) { InsertShownAt(c, t, stray, p); }
    SameShown(c, c');
  }

  lemma InsertShownAt(c: System, t: nat, stray: bool, p: Ip)
    requires Inv(c) && Enabled(c, Insert(t, true, stray)) && c.pcs[t].ip !in c.s.table
    requires Structural(Next(c, Insert(t, true, stray)).s)
    ensures ShownAlike(c, Next(c, Insert(t, true, stray)), p)
  {
    var c', pc := Next(c, Insert(t, true, stray)), c.pcs[t];
    InsertedTable(c, t, stray);
    if p == pc.ip {
      assert Announcing(c', t, pc.mark);
    } else if p in c.s.table {
      HeldApart(c, t, p);
      InsertUnannounced(c, t, stray, c.s.table[p].mark);
      assert TagOf(c'.s, p) == TagOf(c.s, p);
    }
  }

  lemma InsertedTable(c: System, t: nat, stray: bool)
    requires Inv(c) && Enabled(c, Insert(t, true, stray)) && c.pcs[t].ip !in c.s.table
    ensures var c', pc := Next(c, Insert(t, true, stray)), c.pcs[t];
            && c'.pcs == c.pcs[t := Added(pc.id, pc.mark)] && c'.s.table == c.s.table[pc.ip := Entry(pc.id, pc.mark, 0)]
            && |c'.s.rules| == |c.s.rules| && forall k | 0 <= k < |c.s.rules| :: c'.s.rules[k].devid == c.s.rules[k].devid
  {
    InsertOutcome(c, t, true, stray);
    ThreadOk(c, t);
  }

  lemma HeldApart(c: System, t: nat, p: Ip)
    requires Inv(c) && t < |c.pcs| && Holds(c.pcs[t]) && p in c.s.table
    ensures c.s.table[p].mark != c.pcs[t].mark
  {
    assert Owns(c, InTable(p), OffsetOf(c.s.table[p].mark)) && Owns(c, InFlight(t), OffsetOf(c.pcs[t].mark));
  }

  lemma InsertUnannounced(c: System, t: nat, stray: bool, mark: uint32)
    requires Structural(c.s) && Enabled(c, Insert(t, true, stray)) && mark != c.pcs[t].mark
    ensures Unannounced(Next(c, Insert(t, true, stray)), mark) <==> Unannounced(c, mark)
  {
    var c' := Next(c, Insert(t, true, stray));
    if Unannounced(c, mark) {
      var u :| Announcing(c, u, mark);
      assert Announcing(c', u, mark);
    }
    if Unannounced(c', mark) {
      var u :| Announcing(c', u, mark);
      assert Announcing(c, u, mark);
    }
  }

  lemma InsertCarried(c: System, t: nat, stray: bool)
    requires Inv(c) && AllCarried(c) && Enabled(c, Insert(t, true, stray)) && c.pcs[t].ip !in c.s.table
    ensures AllCarried(Next(c, Insert(t, true, stray)))
  {
    var c', pc := Next(c, Insert(t, true, stray)), c.pcs[t];
    InsertOutcome(c, t, true, stray);
    ThreadOk(c, t);
    forall u | 0 <= u < |c'.pcs| && c'.pcs[u].Added? ensures Carried(c', u) && (u != t ==> c'.pcs[u].mark != pc.mark) {
      if u == t {
        assert Carries(c', pc.ip, t);
      } else {
        assert Carried(c, u);
        var p :| Carries(c, p, u);
        HeldApart(c, t, p);
        assert Carries(c', p, u);
      }
    }
  }

  // -- an entry less --

  /** The reference dropped is the last one of an entry. */
  predicate LastOf(c: System, ip: Ip) { ip in c.s.table && c.s.table[ip].count <= 1 }

  function Without(c: System, ip: Ip): System
    requires Structural(c.s)
  {
    c.(s := Release(c.s, ip).state)
  }

  /** With private rules the last drop takes the entry and its mark away, and nothing else. */
  lemma LastDrop(c: System, ip: Ip)
    requires Static(c) && LastOf(c, ip)
    ensures Static(Without(c, ip)) && Without(c, ip).s.table == c.s.table - {ip} && |Without(c, ip).s.rules| == |c.s.rules|
    ensures |Without(c, ip).s.bits| == |c.s.bits|
    ensures forall k | 0 <= k < |c.s.rules| :: Without(c, ip).s.rules[k].devid == c.s.rules[k].devid
    ensures Release(c.s, ip).msgs == DelMsgs(c.s.rules[c.s.table[ip].id - 1], c.s.table[ip].mark)
  {
    ReleaseStatic(c, ip);
    ReleaseRemoves(c.s, ip);
  }

  lemma DropShown(c: System, ip: Ip)
    requires Static(c) && LastOf(c, ip)
    ensures Structural(Without(c, ip).s) && Shown(Without(c, ip)) == Shown(c) - {ip}
  {
    var c' := Without(c, ip);
    LastDrop(c, ip);
    forall p | p in c'.s.table ensures Unannounced(c', c.s.table[p].mark) <==> Unannounced(c, c.s.table[p].mark) {
      SameThreads(c, c', c.s.table[p].mark);
    }
    DropTags(c, c', ip);
  }

  lemma SameThreads(c: System, c': System, mark: uint32)
    requires c'.pcs == c.pcs
    ensures Unannounced(c', mark) <==> Unannounced(c, mark)
  {
    AlikeUnannounced(c, c', mark);
  }

  lemma DropTags(c: System, c': System, ip: Ip)
    requires Structural(c.s) && Structural(c'.s) && c'.s.table == c.s.table - {ip} && |c'.s.rules| == |c.s.rules|
    requires forall k | 0 <= k < |c.s.rules| :: c'.s.rules[k].devid == c.s.rules[k].devid
    requires forall p | p in c'.s.table :: Unannounced(c', c.s.table[p].mark) <==> Unannounced(c, c.s.table[p].mark)
    ensures Shown(c') == Shown(c) - {ip}
  {
    forall p: Ip ensures DroppedAlike(c, c', ip, p) { DropTag(c, c', ip, p); }
    var tags, tags' := Shown(c) - {ip}, Shown(c');
    forall p: Ip ensures (p in tags' <==> p in tags) && (p in tags ==> p in tags' && tags'[p] == tags[p]) {
      assert DroppedAlike(c, c', ip, p);
    }
  }

  ghost predicate DroppedAlike(c: System, c': System, ip: Ip, p: Ip)
    requires Structural(c.s) && Structural(c'.s)
  {
    && (p in Shown(c') <==> p in Shown(c) && p != ip)
    && (p in Shown(c') && p in Shown(c) ==> Shown(c')[p] == Shown(c)[p])
  }

  lemma DropTag(c: System, c': System, ip: Ip, p: Ip)
    requires Structural(c.s) && Structural(c'.s) && c'.s.table == c.s.table - {ip} && |c'.s.rules| == |c.s.rules|
    requires forall k | 0 <= k < |c.s.rules| :: c'.s.rules[k].devid == c.s.rules[k].devid
    requires p in c'.s.table ==> (Unannounced(c', c.s.table[p].mark) <==> Unannounced(c, c.s.table[p].mark))
    ensures DroppedAlike(c, c', ip, p)
  {
    if p in c'.s.table { assert c'.s.table[p] == c.s.table[p]; }
  }

  lemma DropCarried(c: System, ip: Ip)
    requires Static(c) && AllCarried(c) && LastOf(c, ip) && !Unannounced(c, c.s.table[ip].mark)
    ensures AllCarried(Without(c, ip))
  {
    var c' := Without(c, ip);
    LastDrop(c, ip);
    forall t | 0 <= t < |c'.pcs| && c'.pcs[t].Added? ensures Carried(c', t) {
      assert Carried(c, t);
      var p :| Carries(c, p, t);
      assert Announcing(c, t, c.s.table[p].mark);
      assert Carries(c', p, t);
    }
  }

  lemma DropTracks(c: System, ip: Ip, dev: Dev, tree: Tree, inner: map<uint32, Class>)
    requires TcInv(c, tree, inner) && LastOf(c, ip) && !Unannounced(c, c.s.table[ip].mark)
    ensures var msgs := Release(c.s, ip).msgs;
            Shows(Without(c, ip), TreeAt(dev, tree, msgs, |msgs|), inner) && SafeThroughout(dev, tree, msgs)
  {
    LastDrop(c, ip);
    DropShown(c, ip);
    forall p | p in Shown(c) && p != ip ensures OffsetOf(Shown(c)[p].mark) != OffsetOf(Shown(c)[ip].mark) { MarksApart(c, p, ip); }
    ShowLess(Shown(c), |c.s.bits|, dev, tree, inner, ip, c.s.rules[c.s.table[ip].id - 1]);
  }

  // -- what goes wrong --

  /** The thread is about to announce a mark that no entry carries. */
  ghost predicate Orphan(c: System, t: nat) {
    && t < |c.pcs| && c.pcs[t].Added? && OffsetInRange(|c.s.bits|, c.pcs[t].mark) && c.pcs[t].mark % 0x800 == 0
    && forall p | p in c.s.table :: c.s.table[p].mark != c.pcs[t].mark
  }

  lemma ShownMarks(c: System, mark: uint32)
    requires Structural(c.s) && forall p | p in c.s.table :: c.s.table[p].mark != mark
    ensures !HasMark(Shown(c), mark)
  {
  }

  lemma OrphanAnnounced(c: System, t: nat, tags: map<Ip, Tag>, dev: Dev, tree: Tree, inner: map<uint32, Class>)
    requires Structural(c.s) && Enabled(c, Announce(t)) && Tracks(tags, |c.s.bits|, tree, inner)
    requires OffsetInRange(|c.s.bits|, c.pcs[t].mark) && Suits(c.s.rules[c.pcs[t].id - 1].devid, |c.s.bits|, inner)
    requires forall p | p in tags :: OffsetOf(tags[p].mark) != OffsetOf(c.pcs[t].mark)
    ensures c.pcs[t].mark in TreeAfter(c, Announce(t), dev, tree).filters
  {
    var r, mark := c.s.rules[c.pcs[t].id - 1], c.pcs[t].mark;
    TracksSafe(tags, |c.s.bits|, tree, inner);
    NewMarkIsNew(tags, |c.s.bits|, tree, inner, Tag(r.devid, mark));
    AddNewMark(dev, tree, r, mark);
    AnnounceMsgs(c, t, dev, tree);
  }

  /** Its announcement leaves a filter without an entry. */
  lemma OrphanBreaks(c: System, t: nat, dev: Dev, tree: Tree, inner: map<uint32, Class>)
    requires Static(c) && Suited(c.s, inner) && Orphan(c, t)
    ensures !Faithful(c, dev, tree, inner)
  {
    ThreadOk(c, t);
    if Shows(c, tree, inner) {
      var c', tree' := Next(c, Announce(t)), TreeAfter(c, Announce(t), dev, tree);
      forall p | p in Shown(c) ensures OffsetOf(Shown(c)[p].mark) != OffsetOf(c.pcs[t].mark) { MarkOfEntry(c, p); }
      OrphanAnnounced(c, t, Shown(c), dev, tree, inner);
      ShownMarks(c', c.pcs[t].mark);
      assert !Shows(c', tree', inner);
    }
  }

  lemma RepeatOrphan(c: System, t: nat, nodeOk: bool, stray: bool)
    requires Inv(c) && Enabled(c, Insert(t, nodeOk, stray)) && c.pcs[t].ip in c.s.table
    ensures Orphan(Next(c, Insert(t, nodeOk, stray)), t)
  {
    InsertOutcome(c, t, nodeOk, stray);
    ThreadOk(c, t);
    forall p | p in c.s.table ensures c.s.table[p].mark != c.pcs[t].mark { HeldApart(c, t, p); }
  }

  lemma DropOrphan(c: System, ip: Ip, t: nat)
    requires Inv(c) && LastOf(c, ip) && Announcing(c, t, c.s.table[ip].mark)
    ensures Orphan(Without(c, ip), t)
  {
    LastDrop(c, ip);
    forall p | p in c.s.table && p != ip ensures c.s.table[p].mark != c.s.table[ip].mark { MarksApart(c, p, ip); }
  }

  /** A silent deletion leaves the filter behind. */
  lemma SilentDrop(c: System, ip: Ip, tree: Tree, inner: map<uint32, Class>)
    requires TcInv(c, tree, inner) && LastOf(c, ip) && !Unannounced(c, c.s.table[ip].mark)
    ensures !Shows(Without(c, ip), tree, inner)
  {
    LastDrop(c, ip);
    ShownFiltered(Shown(c), |c.s.bits|, tree, inner, ip);
    forall p | p in c.s.table && p != ip ensures c.s.table[p].mark != c.s.table[ip].mark { MarksApart(c, p, ip); }
    ShownMarks(Without(c, ip), c.s.table[ip].mark);
  }

  lemma ShownFiltered(tags: map<Ip, Tag>, n: nat, tree: Tree, inner: map<uint32, Class>, ip: Ip)
    requires Tracks(tags, n, tree, inner) && ip in tags
    ensures tags[ip].mark in tree.filters
  {
    assert TagTracked(tags[ip], n, tree, inner);
  }

  // -- which steps keep tree and table together --

  /** The step drops the last reference of this address. */
  predicate DropsLast(c: System, a: Act, ip: Ip) {
    LastOf(c, ip) && (a == Delete(ip) || (a.Conntrack? && a.event.destroy && About(a.event.conn, ip)))
  }

  /**
   * No mark is announced that came too late for its address, no entry goes before it is announced, and no
   * entry is deleted by hand with its last reference.
   */
  ghost predicate Orderly(c: System, a: Act) {
    && !Repeat(c, a)
    && forall ip {:trigger DropsLast(c, a, ip)} | DropsLast(c, a, ip) :: !a.Delete? && !Unannounced(c, c.s.table[ip].mark)
  }

  /** A step after which the same entries are there and the same threads are about to announce. */
  lemma QuietStep(c: System, a: Act, tree: Tree, inner: map<uint32, Class>)
    requires TcInv(c, tree, inner) && Enabled(c, a) && !a.Wipe?
    requires AddedAlike(c, Next(c, a)) && TableAlike(c.s, Next(c, a).s)
    ensures TcInv(Next(c, a), tree, inner)
  {
    StepInv(c, a);
    AlikeInv(c, Next(c, a), tree, inner);
  }

  lemma SilentThread(c: System, a: Act, tree: Tree, inner: map<uint32, Class>)
    requires TcInv(c, tree, inner) && Enabled(c, a) && !a.Wipe? && !a.Insert? && !a.Announce? && !a.Conntrack? && !a.Delete?
    ensures TcInv(Next(c, a), tree, inner)
  {
    if a.Publish? || a.ReadMark? {
      NobodyShares(c);
      assert false;
    } else {
      SilentAlike(c, a);
      QuietStep(c, a, tree, inner);
    }
  }

  lemma SilentAlike(c: System, a: Act)
    requires Static(c) && Enabled(c, a) && !a.Publish? && !a.ReadMark?
    requires !a.Wipe? && !a.Insert? && !a.Announce? && !a.Conntrack? && !a.Delete?
    ensures AddedAlike(c, Next(c, a)) && TableAlike(c.s, Next(c, a).s)
  {
    SilentPcs(c, a);
    SilentTable(c, a);
  }

  lemma SilentPcs(c: System, a: Act)
    requires Structural(c.s) && Enabled(c, a)
    requires !a.Wipe? && !a.Insert? && !a.Announce? && !a.Conntrack? && !a.Delete?
    ensures AddedAlike(c, Next(c, a))
  {
  }

  lemma SilentTable(c: System, a: Act)
    requires Structural(c.s) && Enabled(c, a)
    requires !a.Wipe? && !a.Insert? && !a.Announce? && !a.Conntrack? && !a.Delete?
    ensures TableAlike(c.s, Next(c, a).s)
  {
    if a.Publish? || a.Undo? {
      RuleTable(c, a);
    } else {
      BitTable(c, a);
    }
  }

  lemma RuleTable(c: System, a: Act)
    requires Structural(c.s) && Enabled(c, a) && (a.Publish? || a.Undo?)
    ensures TableAlike(c.s, Next(c, a).s)
  {
  }

  lemma BitTable(c: System, a: Act)
    requires Structural(c.s) && Enabled(c, a) && !a.Publish? && !a.Undo?
    requires !a.Wipe? && !a.Insert? && !a.Announce? && !a.Conntrack? && !a.Delete?
    ensures Next(c, a).s.table == c.s.table && Next(c, a).s.rules == c.s.rules && |Next(c, a).s.bits| == |c.s.bits|
  {
  }

  lemma InsertStep(c: System, a: Act, tree: Tree, inner: map<uint32, Class>)
    requires TcInv(c, tree, inner) && Enabled(c, a) && a.Insert? && !Repeat(c, a)
    ensures TcInv(Next(c, a), tree, inner)
  {
    StepInv(c, a);
    InsertOutcome(c, a.t, a.nodeOk, a.stray);
    if a.nodeOk {
      InsertShown(c, a.t, a.stray);
      InsertCarried(c, a.t, a.stray);
      InsertSuited(c, a, inner);
    } else {
      InsertRefused(c, a);
      QuietStep(c, a, tree, inner);
    }
  }

  lemma InsertSuited(c: System, a: Act, inner: map<uint32, Class>)
    requires Inv(c) && Suited(c.s, inner) && Enabled(c, a) && a.Insert?
    ensures Suited(Next(c, a).s, inner) && |Next(c, a).s.bits| == |c.s.bits|
  {
    ThreadOk(c, a.t);
  }

  lemma InsertRefused(c: System, a: Act)
    requires Inv(c) && Enabled(c, a) && a.Insert? && !a.nodeOk && !Repeat(c, a)
    ensures AddedAlike(c, Next(c, a)) && TableAlike(c.s, Next(c, a).s)
  {
    InsertOutcome(c, a.t, a.nodeOk, a.stray);
    ThreadOk(c, a.t);
  }

  lemma AnnounceStep(c: System, t: nat, dev: Dev, tree: Tree, inner: map<uint32, Class>)
    requires TcInv(c, tree, inner) && Enabled(c, Announce(t))
    ensures TcInv(Next(c, Announce(t)), TreeAfter(c, Announce(t), dev, tree), inner)
    ensures SafeThroughout(dev, tree, Msgs(c, Announce(t)))
  {
    StepInv(c, Announce(t));
    AnnounceTracks(c, t, dev, tree, inner);
    AnnounceCarried(c, t);
  }

  lemma DropStep(c: System, ip: Ip, dev: Dev, tree: Tree, inner: map<uint32, Class>)
    requires TcInv(c, tree, inner) && LastOf(c, ip) && !Unannounced(c, c.s.table[ip].mark)
    ensures var msgs := Release(c.s, ip).msgs;
            TcInv(Without(c, ip), TreeAt(dev, tree, msgs, |msgs|), inner) && SafeThroughout(dev, tree, msgs)
  {
    StepInv(c, Delete(ip));
    LastDrop(c, ip);
    DropTracks(c, ip, dev, tree, inner);
    DropCarried(c, ip);
  }

  /** Dropping a reference that is not the last, or counting one more. */
  lemma KeptStep(c: System, a: Act, tree: Tree, inner: map<uint32, Class>)
    requires TcInv(c, tree, inner) && (a.Conntrack? || a.Delete?) && forall ip :: !DropsLast(c, a, ip)
    ensures TcInv(Next(c, a), tree, inner) && Msgs(c, a) == []
  {
    if a.Delete? {
      assert !DropsLast(c, a, a.ip);
      KeptDrop(c, a.ip);
    } else {
      KeptEvent(c, a);
    }
    QuietStep(c, a, tree, inner);
  }

  lemma KeptDrop(c: System, ip: Ip)
    requires Structural(c.s) && !LastOf(c, ip)
    ensures TableAlike(c.s, Release(c.s, ip).state) && Release(c.s, ip).msgs == []
  {
  }

  lemma KeptEvent(c: System, a: Act)
    requires Structural(c.s) && a.Conntrack? && forall ip :: !DropsLast(c, a, ip)
    ensures TableAlike(c.s, Event(c.s, a.event).state) && Event(c.s, a.event).msgs == []
  {
    var subject := Subject(a.event.conn);
    if subject.Some? {
      assert !DropsLast(c, a, subject.value);
      if a.event.destroy { KeptDrop(c, subject.value); }
    }
  }

  lemma BetweenStep(c: System, a: Act, dev: Dev, tree: Tree, inner: map<uint32, Class>)
    requires TcInv(c, tree, inner) && (a.Conntrack? || a.Delete?) && Orderly(c, a)
    ensures TcInv(Next(c, a), TreeAfter(c, a, dev, tree), inner) && SafeThroughout(dev, tree, Msgs(c, a))
  {
    if ip :| DropsLast(c, a, ip) {
      DropIs(c, a, ip);
      DropStep(c, ip, dev, tree, inner);
    } else {
      KeptStep(c, a, tree, inner);
      NothingSent(c, a, dev, tree, inner);
    }
  }

  lemma DropIs(c: System, a: Act, ip: Ip)
    requires Structural(c.s) && DropsLast(c, a, ip) && a.Conntrack?
    ensures Next(c, a) == Without(c, ip) && Msgs(c, a) == Release(c.s, ip).msgs
  {
  }

  lemma NothingSent(c: System, a: Act, dev: Dev, tree: Tree, inner: map<uint32, Class>)
    requires Shows(c, tree, inner) && Enabled(c, a) && Msgs(c, a) == []
    ensures TreeAfter(c, a, dev, tree) == tree && SafeThroughout(dev, tree, Msgs(c, a))
  {
    TracksSafe(Shown(c), |c.s.bits|, tree, inner);
    NoMessages(dev, tree);
  }

  lemma OrderlyKeeps(c: System, a: Act, dev: Dev, tree: Tree, inner: map<uint32, Class>)
    requires TcInv(c, tree, inner) && Enabled(c, a) && !a.Wipe? && Orderly(c, a)
    ensures TcInv(Next(c, a), TreeAfter(c, a, dev, tree), inner) && SafeThroughout(dev, tree, Msgs(c, a))
  {
    if a.Announce? {
      AnnounceStep(c, a.t, dev, tree, inner);
    } else if a.Conntrack? || a.Delete? {
      BetweenStep(c, a, dev, tree, inner);
    } else {
      if a.Insert? { InsertStep(c, a, tree, inner); } else { SilentThread(c, a, tree, inner); }
      NothingSent(c, a, dev, tree, inner);
    }
  }

  lemma DisorderBreaks(c: System, a: Act, dev: Dev, tree: Tree, inner: map<uint32, Class>)
    requires TcInv(c, tree, inner) && Enabled(c, a) && !a.Wipe? && !Orderly(c, a)
    ensures !Faithful(Next(c, a), dev, TreeAfter(c, a, dev, tree), inner)
  {
    if Repeat(c, a) {
      StepInv(c, a);
      RepeatOrphan(c, a.t, a.nodeOk, a.stray);
      InsertSuited(c, a, inner);
      OrphanBreaks(Next(c, a), a.t, dev, TreeAfter(c, a, dev, tree), inner);
    } else {
      var ip :| DropsLast(c, a, ip) && (a.Delete? || Unannounced(c, c.s.table[ip].mark));
      assert Next(c, a) == Without(c, ip);
      if Unannounced(c, c.s.table[ip].mark) {
        EarlyDrop(c, ip, dev, tree, TreeAfter(c, a, dev, tree), inner);
      } else {
        SilentDrop(c, ip, tree, inner);
      }
    }
  }

  lemma EarlyDrop(c: System, ip: Ip, dev: Dev, tree: Tree, tree': Tree, inner: map<uint32, Class>)
    requires TcInv(c, tree, inner) && LastOf(c, ip) && Unannounced(c, c.s.table[ip].mark)
    ensures !Faithful(Without(c, ip), dev, tree', inner)
  {
    var t :| Announcing(c, t, c.s.table[ip].mark);
    LastDrop(c, ip);
    DropOrphan(c, ip, t);
    OrphanBreaks(Without(c, ip), t, dev, tree', inner);
  }

  /**
   * One step of any thread, event or deletion: the tree still tracks the announced entries, now and after
   * the next announcement, if and only if the step is orderly.
   */
  lemma FaithfulIff(c: System, a: Act, dev: Dev, tree: Tree, inner: map<uint32, Class>)
    requires TcInv(c, tree, inner) && Enabled(c, a) && !a.Wipe?
    ensures Faithful(Next(c, a), dev, TreeAfter(c, a, dev, tree), inner) <==> Orderly(c, a)
  {
    if Orderly(c, a) {
      OrderlyKeeps(c, a, dev, tree, inner);
      InvFaithful(Next(c, a), dev, TreeAfter(c, a, dev, tree), inner);
    } else {
      DisorderBreaks(c, a, dev, tree, inner);
    }
  }

  // -- whole runs --

  ghost predicate OrderlyRun(c: System, acts: seq<Act>)
    requires CanRun(c, acts)
    decreases |acts|
  {
    acts == [] || (!acts[0].Wipe? && Orderly(c, acts[0]) && OrderlyRun(Next(c, acts[0]), acts[1..]))
  }

  ghost function RunTree(c: System, acts: seq<Act>, dev: Dev, tree: Tree): Tree
    requires CanRun(c, acts)
    decreases |acts|
  {
    if acts == [] then tree else RunTree(Next(c, acts[0]), acts[1..], dev, TreeAfter(c, acts[0], dev, tree))
  }

  lemma {:induction false} RunTracks(c: System, acts: seq<Act>, dev: Dev, tree: Tree, inner: map<uint32, Class>)
    requires TcInv(c, tree, inner) && CanRun(c, acts) && OrderlyRun(c, acts)
    ensures TcInv(After(c, acts), RunTree(c, acts, dev, tree), inner)
    decreases |acts|
  {
    if acts == [] {
    } else {
      OrderlyKeeps(c, acts[0], dev, tree, inner);
      RunTracks(Next(c, acts[0]), acts[1..], dev, TreeAfter(c, acts[0], dev, tree), inner);
    }
  }

  lemma StartTracks(c: System, inner: map<uint32, Class>)
    requires Start(c) && AllPrivate(c.s) && Suited(c.s, inner)
    ensures TcInv(c, Tree(inner, map[], map[]), inner)
  {
    StartInv(c);
    assert Shown(c) == map[];
  }

  /** With no announcement pending, every entry is on show. */
  lemma AllShown(c: System)
    requires Structural(c.s) && forall t | 0 <= t < |c.pcs| :: !c.pcs[t].Added?
    ensures Shown(c) == Tags(c.s)
  {
    forall p | p in c.s.table ensures !Unannounced(c, c.s.table[p].mark) {}
  }

  /**
   * After any orderly run from the start, and whenever no announcement is pending, the tree holds exactly
   * what the table calls for; with an empty table nothing but the inner classes is left.
   */
  lemma OrderlyTracks(c: System, acts: seq<Act>, dev: Dev, inner: map<uint32, Class>)
    requires Start(c) && AllPrivate(c.s) && Suited(c.s, inner) && CanRun(c, acts) && OrderlyRun(c, acts)
    ensures var c', tree := After(c, acts), RunTree(c, acts, dev, Tree(inner, map[], map[]));
            && Faithful(c', dev, tree, inner)
            && ((forall t | 0 <= t < |c'.pcs| :: !c'.pcs[t].Added?) ==>
                  && Structural(c'.s) && Tracks(Tags(c'.s), |c'.s.bits|, tree, inner)
                  && (c'.s.table == map[] ==> tree == Tree(inner, map[], map[])))
  {
    var c', tree := After(c, acts), RunTree(c, acts, dev, Tree(inner, map[], map[]));
    StartTracks(c, inner);
    RunTracks(c, acts, dev, Tree(inner, map[], map[]), inner);
    InvFaithful(c', dev, tree, inner);
    if forall t | 0 <= t < |c'.pcs| :: !c'.pcs[t].Added? {
      AllShown(c');
      if c'.s.table == map[] { BareTree(Tags(c'.s), |c'.s.bits|, tree, inner); }
    }
  }

  lemma BareTree(tags: map<Ip, Tag>, n: nat, tree: Tree, inner: map<uint32, Class>)
    requires Tracks(tags, n, tree, inner) && tags == map[]
    ensures tree == Tree(inner, map[], map[])
  {
    Backed(tags, n, tree, inner);
    assert tree.classes == inner;
  }
}
