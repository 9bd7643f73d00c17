// Who owns a mark. Nothing in the module stores the owner of a bit: it follows from
// the modes and counts of the rules and from the entries of the hash table. Own says
// what that implicit ownership is, and every well-behaved step keeps it.

module Ownership {
  import opened Word32
  import opened TcIds
  import opened Model

  const MAX_SPEC: nat := 0x20_0000  // offsets from here on do not fit above MARK_BASE

  /** The offsets of the marks of live entries. */
  ghost function Live(t: map<Ip, Entry>): set<nat> { set ip | ip in t :: OffsetOf(t[ip].mark) }

  /** The addresses that hold an entry of rule id. */
  ghost function Members(t: map<Ip, Entry>, id: nat): set<Ip> { set ip | ip in t && t[ip].id == id }

  /** Bit i is set exactly when offset i + 1 is in use. */
  ghost predicate Matches(bits: seq<bool>, used: set<nat>) {
    forall i | 0 <= i < |bits| :: bits[i] <==> i + 1 in used
  }

  /** The set bits are exactly the offsets of live marks: no leak, no dangling mark. */
  ghost predicate BitsAreLive(s: State) { Matches(s.bits, Live(s.table)) }

  /** p and q carry one mark only when they belong to one share rule. */
  ghost predicate Apart(s: State, p: Ip, q: Ip)
    requires Structural(s) && p in s.table && q in s.table
  {
    p != q && s.table[p].mark == s.table[q].mark ==>
      s.table[p].id == s.table[q].id && !IsPrivate(s.rules[s.table[p].id - 1])
  }

  /** A private entry's mark is its own, and different rules never share a mark. */
  ghost predicate Exclusive(s: State)
    requires Structural(s)
  {
    forall p, q {:trigger Apart(s, p, q)} | p in s.table && q in s.table :: Apart(s, p, q)
  }

  /** The mark is an encoded offset, the rule's own in share mode; the count is not negative. */
  ghost predicate EntryOk(s: State, p: Ip)
    requires Structural(s) && p in s.table
  {
    var e := s.table[p];
    var r := s.rules[e.id - 1];
    e.mark % 0x800 == 0 && e.count >= 0 && (!IsPrivate(r) ==> e.mark == r.mark)
  }

  ghost predicate EntriesOk(s: State)
    requires Structural(s)
  {
    forall p {:trigger EntryOk(s, p)} | p in s.table :: EntryOk(s, p)
  }

  /** A rule's count is its number of live entries. */
  ghost predicate CountOk(s: State, id: nat)
    requires IsRule(s, id)
  {
    s.rules[id - 1].count == |Members(s.table, id)|
  }

  ghost predicate Counted(s: State) {
    forall id {:trigger CountOk(s, id)} | IsRule(s, id) :: CountOk(s, id)
  }

  ghost predicate Own(s: State) {
    && Structural(s)
    && |s.bits| < MAX_SPEC
    && BitsAreLive(s)
    && Exclusive(s)
    && EntriesOk(s)
    && Counted(s)
  }

  // -- how Live and Members change with the table --

  lemma InsertEntry(t: map<Ip, Entry>, ip: Ip, e: Entry)
    requires ip !in t
    ensures Live(t[ip := e]) == Live(t) + {OffsetOf(e.mark)}
    ensures forall id :: Members(t[ip := e], id) == if id == e.id then Members(t, id) + {ip} else Members(t, id)
    ensures |Members(t[ip := e], e.id)| == |Members(t, e.id)| + 1
  {
    var t1 := t[ip := e];
    forall o | o in Live(t) + {OffsetOf(e.mark)} ensures o in Live(t1) {
      if o != OffsetOf(e.mark) {
        var p :| p in t && OffsetOf(t[p].mark) == o;
        assert t1[p] == t[p];
      } else {
        assert t1[ip] == e;
      }
    }
    assert Members(t1, e.id) == Members(t, e.id) + {ip};
  }

  lemma RecountEntry(t: map<Ip, Entry>, ip: Ip, e: Entry)
    requires ip in t && e.id == t[ip].id && e.mark == t[ip].mark
    ensures Live(t[ip := e]) == Live(t)
    ensures forall id :: Members(t[ip := e], id) == Members(t, id)
  {
    var t1 := t[ip := e];
    assert forall p | p in t :: t1[p].mark == t[p].mark && t1[p].id == t[p].id;
    forall o | o in Live(t) ensures o in Live(t1) {
      var p :| p in t && OffsetOf(t[p].mark) == o;
      assert p in t1 && OffsetOf(t1[p].mark) == o;
    }
  }

  lemma RemoveEntry(t: map<Ip, Entry>, ip: Ip)
    requires ip in t
    ensures Live(t) == Live(t - {ip}) + {OffsetOf(t[ip].mark)}
    ensures forall id :: Members(t - {ip}, id) == Members(t, id) - {ip}
    ensures |Members(t - {ip}, t[ip].id)| == |Members(t, t[ip].id)| - 1
  {
    var t1 := t - {ip};
    forall o | o in Live(t) && o != OffsetOf(t[ip].mark) ensures o in Live(t1) {
      var p :| p in t && OffsetOf(t[p].mark) == o;
      assert p in t1;
    }
    assert Members(t1, t[ip].id) == Members(t, t[ip].id) - {ip};
  }

  lemma SetBit(bits: seq<bool>, used: set<nat>, off: nat)
    requires Matches(bits, used) && 1 <= off <= |bits|
    ensures Matches(bits[off - 1 := true], used + {off})
  {
  }

  lemma ClearBit(bits: seq<bool>, used: set<nat>, off: nat)
    requires Matches(bits, used + {off}) && off !in used && 1 <= off <= |bits|
    ensures Matches(bits[off - 1 := false], used)
  {
  }

  // -- each step keeps ownership --

  lemma RecountOwn(s: State, ip: Ip, d: int)
    requires Own(s) && ip in s.table && s.table[ip].count + d >= 0
    ensures Own(AddToEntry(s, ip, d))
  {
    var s' := AddToEntry(s, ip, d);
    RecountEntry(s.table, ip, s'.table[ip]);
    RecountKeepsStructural(s, ip, d);
    forall p, q | p in s'.table && q in s'.table ensures Apart(s', p, q) { assert Apart(s, p, q); }
    forall p | p in s'.table ensures EntryOk(s', p) { assert EntryOk(s, p); }
    forall id | IsRule(s', id) ensures CountOk(s', id) { assert CountOk(s, id); }
  }

  lemma ReleaseOwn(s: State, ip: Ip)
    requires Own(s)
    ensures Own(Release(s, ip).state)
  {
    if ip in s.table {
      if s.table[ip].count > 1 {
        RecountOwn(s, ip, -1);
      } else {
        ReleaseRemoves(s, ip);
        RemoveOwn(s, ip);
      }
    }
  }

  /** Whether dropping this entry gives its mark back. */
  predicate FreesMark(s: State, ip: Ip)
    requires ip in s.table && IsRule(s, s.table[ip].id)
  {
    var r := s.rules[s.table[ip].id - 1];
    IsPrivate(r) || r.count == 1
  }

  /** The state after the last reference to ip is dropped. */
  function Removed(s: State, ip: Ip): State
    requires Structural(s) && ip in s.table
  {
    var e := s.table[ip];
    var r := s.rules[e.id - 1];
    var t := s.table - {ip};
    if FreesMark(s, ip) then
      State(FreeMark(s.bits, e.mark), t, s.rules[e.id - 1 := r.(count := r.count - 1, mark := 0)], s.reset)
    else State(s.bits, t, s.rules[e.id - 1 := r.(count := r.count - 1)], s.reset)
  }

  /**
   * The inner delete cannot fail: once the count has reached 0 the node is there and is
   * unlinked, so Release is exactly Removed and frees the entry's own mark.
   */
  lemma ReleaseRemoves(s: State, ip: Ip)
    requires Structural(s) && ip in s.table && s.table[ip].count <= 1
    ensures HashRemove(AddToEntry(s, ip, -1), ip).1 == OK
    ensures HashRemove(AddToEntry(s, ip, -1), ip).2 == s.table[ip].mark
    ensures Release(s, ip).code == OK && Release(s, ip).mark == s.table[ip].mark
    ensures Release(s, ip).state == Removed(s, ip)
    ensures Release(s, ip).msgs == if FreesMark(s, ip) then DelMsgs(s.rules[s.table[ip].id - 1], s.table[ip].mark) else []
  {
  }

  lemma RemovedStructural(s: State, ip: Ip)
    requires Structural(s) && ip in s.table
    ensures Structural(Removed(s, ip))
    ensures forall k | 0 <= k < |s.rules| :: Removed(s, ip).rules[k].mode == s.rules[k].mode
  {
  }

  lemma RemoveOwn(s: State, ip: Ip)
    requires Own(s) && ip in s.table
    ensures Own(Removed(s, ip))
  {
    var s' := Removed(s, ip);
    RemovedStructural(s, ip);
    RemovedBits(s, ip);
    RemovedCounted(s, ip);
    forall p, q | p in s'.table && q in s'.table ensures Apart(s', p, q) { assert Apart(s, p, q); }
    forall p | p in s'.table ensures EntryOk(s', p) { RemovedEntryOk(s, ip, p); }
  }

  lemma RemovedCounted(s: State, ip: Ip)
    requires Structural(s) && Counted(s) && ip in s.table
    ensures Counted(Removed(s, ip))
  {
    var s', id0 := Removed(s, ip), s.table[ip].id;
    RemoveEntry(s.table, ip);
    forall id | IsRule(s', id) ensures CountOk(s', id) {
      assert CountOk(s, id);
      if id != id0 {
        assert Members(s'.table, id) == Members(s.table, id);
      }
    }
  }

  lemma RemovedEntryOk(s: State, ip: Ip, p: Ip)
    requires Structural(s) && EntriesOk(s) && Counted(s) && ip in s.table && p in s.table && p != ip
    ensures Structural(Removed(s, ip)) && EntryOk(Removed(s, ip), p)
  {
    RemovedStructural(s, ip);
    assert EntryOk(s, p);
    assert CountOk(s, s.table[ip].id);
    if s.table[p].id == s.table[ip].id {
      RemoveEntry(s.table, ip);
      assert p in Members(s.table - {ip}, s.table[ip].id);
    }
  }

  /** The mark's bit is cleared exactly when no other entry carries the mark. */
  lemma RemovedBits(s: State, ip: Ip)
    requires Own(s) && ip in s.table
    ensures BitsAreLive(Removed(s, ip))
  {
    var e, t1 := s.table[ip], s.table - {ip};
    var off := OffsetOf(e.mark);
    RemoveEntry(s.table, ip);
    assert CountOk(s, e.id) && EntryOk(s, ip);
    if FreesMark(s, ip) {
      forall q | q in t1 ensures OffsetOf(t1[q].mark) != off {
        assert EntryOk(s, q) && Apart(s, q, ip);
        assert s.table[q].id == e.id ==> q in Members(t1, e.id);
      }
      ClearBit(s.bits, Live(t1), off);
    } else {
      var q :| q in Members(t1, e.id);
      assert EntryOk(s, q);
      assert OffsetOf(t1[q].mark) == off;
    }
  }
}
