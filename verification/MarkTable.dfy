// The module's global state and its functions, in place: kmod/qos_marktbl_main.c and the
// table's part of the packet handler of xt_kmod/xt_qmark.c. Every method is proved equal to
// the function of the same name in Model, on the state that View reads off the heap.

module MarkTable {
  import opened Word32
  import opened TcIds
  import opened Model
  import opened Buckets
  import opened MarkHead

  /** qmark_del_hash leaves the tc objects alone; the event handler takes them down. */
  function Told(viaEvent: bool, msgs: seq<TcMsg>): seq<TcMsg> { if viaEvent then msgs else [] }

  class QosMark {
    var bitmap: array<bool>
    var rules: array<Rule>
    var head: Head
    var resetFlag: bool
    var sent: seq<TcMsg>  // the tc messages sent so far

    ghost function Repr(): set<object>
      reads this, head
    {
      {this, bitmap, rules} + head.Repr
    }

    /** The objects of the module were its own before, or are new. */
    twostate predicate Grown()
      reads this, head
    {
      forall o | o in Repr() :: o in old(Repr()) || fresh(o)
    }

    ghost function View(): State
      reads this, bitmap, rules, head
    {
      State(bitmap[..], head.table, rules[..], resetFlag)
    }

    /** The parts are separate objects, the table is well laid out, and all sizes agree. */
    ghost predicate Apart()
      reads this, head, head.Repr
    {
      && head.Valid() && this !in head.Repr && bitmap !in head.Repr && rules !in head.Repr
      && head.size == bitmap.Length
    }

    ghost predicate Valid()
      reads this, bitmap, rules, head, head.Repr
    {
      Apart() && Structural(View())
    }

    twostate lemma Untouched()
      requires old(Valid()) && unchanged(this) && unchanged(bitmap) && unchanged(rules) && unchanged(head) && unchanged(head.Repr)
      ensures Valid() && View() == old(View()) && Repr() == old(Repr())
    {
      head.Untouched();
    }

    /** The state right after module init. */
    constructor ()
      ensures Valid() && fresh(Repr())
      ensures View() == Initial() && sent == []
    {
      bitmap := new bool[TC_MAX_IP_CNT](_ => false);
      rules := new Rule[TC_MAX_RULE_CNT](_ => EMPTY_RULE);
      head := new Head(TC_MAX_IP_CNT);
      resetFlag, sent := false, [];
      new;
      assert View() == Initial();
    }

    // -- the bitmap --

    /** alloc_mark */
    method AllocMark() returns (mark: uint32)
      modifies bitmap
      ensures (bitmap[..], mark) == Model.AllocMark(old(bitmap[..]))
    {
      var i := 0;
      while i < bitmap.Length && bitmap[i]
        invariant i <= bitmap.Length && bitmap[..] == old(bitmap[..])
        invariant FirstZero(bitmap[..], 0) == FirstZero(bitmap[..], i)
      {
        i := i + 1;
      }
      if i >= bitmap.Length {
        return 0;
      }
      bitmap[i] := true;
      return MarkOf(i + 1);
    }

    /** free_mark */
    method FreeMark(mark: uint32)
      requires OffsetInRange(bitmap.Length, mark)
      modifies bitmap
      ensures bitmap[..] == Model.FreeMark(old(bitmap[..]), mark)
    {
      bitmap[OffsetOf(mark) - 1] := false;
    }

    /** test_mark */
    method TestMark(mark: uint32) returns (taken: bool)
      requires OffsetInRange(bitmap.Length, mark)
      ensures taken == Model.TestMark(bitmap[..], mark)
    {
      taken := bitmap[OffsetOf(mark) - 1];
    }

    // -- the rule table --

    /** atomic_inc or atomic_dec on the count of a rule. */
    method AddToRuleCount(id: nat, d: int)
      requires Apart() && 1 <= id <= rules.Length
      modifies rules
      ensures Apart() && rules[..] == Recounted(old(rules[..]), id, d)
    {
      rules[id - 1] := rules[id - 1].(count := rules[id - 1].count + d);
      head.Untouched();
    }

    method SetRuleMark(id: nat, mark: uint32)
      requires 1 <= id <= rules.Length
      modifies rules
      ensures rules[..] == old(rules[..])[id - 1 := old(rules[id - 1]).(mark := mark)]
    {
      rules[id - 1] := rules[id - 1].(mark := mark);
    }

    // -- the hash table --

    /** marktbl_hash_add */
    method HashAdd(ip: Ip, id: nat, mark: uint32, nodeOk: bool) returns (ret: Code)
      requires Valid() && 1 <= id <= rules.Length && OffsetInRange(bitmap.Length, mark)
      modifies rules, head.Repr
      ensures Apart() && Grown()
      ensures var r := Model.HashAdd(old(View()), ip, id, mark, nodeOk); View() == r.0 && ret == r.1
    {
      ghost var s := View();
      head.ElemNum();
      if (head.elemNum + 1) % 0x1_0000_0000 > bitmap.Length {
        return OVER_MAX;
      }
      var inserted;
      ret, inserted := head.Add(ip, id, mark, nodeOk);
      if inserted {
        AddToRuleCount(id, 1);
      }
      HashAddIs(s, ip, id, mark, nodeOk, View());
    }

    /** The call of marktbl_hash_remove: only the table changes. */
    method Unhash(ip: Ip) returns (ret: Code, id: nat, mark: uint32)
      requires Valid()
      modifies head.Repr
      ensures Apart() && head.Repr == old(head.Repr)
      ensures ret == if ip !in old(View()).table then NO_EXIST else if old(View()).table[ip].count > 0 then COUNT_NOZERO else OK
      ensures if ret == OK then id == old(View()).table[ip].id && mark == old(View()).table[ip].mark && IsRule(View(), id) else mark == 0
      ensures View() == old(View()).(table := if ret == OK then old(View()).table - {ip} else old(View()).table)
    {
      ghost var s := View();
      assert ip in s.table ==> IsRule(s, s.table[ip].id);
      ret, id, mark := head.Remove(ip);
    }

    /** marktbl_hash_remove, and the mark of the unlinked node. */
    method HashRemove(ip: Ip) returns (ret: Code, mark: uint32)
      requires Valid()
      modifies rules, head.Repr
      ensures Apart() && head.Repr == old(head.Repr)
      ensures (View(), ret, mark) == Model.HashRemove(old(View()), ip)
    {
      ghost var s := View();
      var id;
      ret, id, mark := Unhash(ip);
      if ret == OK {
        AddToRuleCount(id, -1);
      }
      HashRemoveIs(s, ip, View());
    }

    /** qos_marktbl_hashtbl_add */
    method TableAdd(ip: Ip, id: nat, mark: uint32, nodeOk: bool) returns (ret: Code)
      requires Valid() && 1 <= id <= rules.Length && OffsetInRange(bitmap.Length, mark)
      modifies rules, head.Repr
      ensures Apart() && Grown()
      ensures var r := Model.TableAdd(old(View()), ip, id, mark, nodeOk); View() == r.0 && ret == r.1
    {
      var taken := TestMark(mark);
      if !taken {
        return ERROR;
      }
      ret := HashAdd(ip, id, mark, nodeOk);
    }

    /** qos_marktbl_hashtbl_get */
    method FindMark(ip: Ip) returns (ret: Code, mark: uint32)
      requires Valid()
      ensures mark == Model.FindMark(View(), ip) && (ret == if ip in View().table then OK else NO_EXIST)
    {
      var entry := head.Get(ip);
      if entry != null {
        return OK, entry.mark;
      }
      return NO_EXIST, 0;
    }

    // -- traffic control --

    /** tc_htb_class_modify, first the LAN device and then the WAN device. */
    method TcClass(isNew: bool, r: Rule, mark: uint32)
      modifies this`sent
      ensures sent == old(sent) + if isNew then AddMsgs(r, mark)[..2] else DelMsgs(r, mark)[2..]
    {
      ghost var msgs := if isNew then AddMsgs(r, mark)[..2] else DelMsgs(r, mark)[2..];
      for i := 0 to 2
        invariant sent == old(sent) + msgs[..i]
      {
        assert msgs[..i + 1] == msgs[..i] + [msgs[i]];
        var dev := if i == 0 then Lan else Wan;
        var offset := OffsetOf(mark);
        var handle, parent;
        if r.devid == 0 {
          handle, parent := Major1((offset + 1) % 0x1_0000_0000), Major1(1);
        } else {
          handle, parent := Major1(((r.devid + 1) * 4096 + offset) % 0x1_0000_0000), Major1((r.devid + 1) % 0x1_0000_0000);
        }
        if isNew {
          sent := sent + [if i == 0 then NewClass(dev, handle, parent, r.rateMinMate, r.rateMate)
                          else NewClass(dev, handle, parent, r.rateMin, r.rate)];
        } else {
          sent := sent + [DelClass(dev, handle, parent)];
        }
      }
    }

    /** tc_pfifo_qdisc_modify */
    method TcQdisc(r: Rule, mark: uint32)
      modifies this`sent
      ensures sent == old(sent) + AddMsgs(r, mark)[2..4]
    {
      ghost var msgs := AddMsgs(r, mark)[2..4];
      for i := 0 to 2
        invariant sent == old(sent) + msgs[..i]
      {
        assert msgs[..i + 1] == msgs[..i] + [msgs[i]];
        var dev := if i == 0 then Lan else Wan;
        var offset := OffsetOf(mark);
        var minor;
        if r.devid == 0 {
          minor := (offset + 1) % 0x1_0000_0000;
        } else {
          minor := ((r.devid + 1) * 4096 + offset) % 0x1_0000_0000;
        }
        sent := sent + [NewQdisc(dev, minor * 0x1_0000 % 0x1_0000_0000, Major1(minor))];
      }
    }

    /** tc_fw_filter_modify */
    method TcFilter(isNew: bool, r: Rule, mark: uint32)
      modifies this`sent
      ensures sent == old(sent) + if isNew then AddMsgs(r, mark)[4..] else DelMsgs(r, mark)[..2]
    {
      ghost var msgs := if isNew then AddMsgs(r, mark)[4..] else DelMsgs(r, mark)[..2];
      for i := 0 to 2
        invariant sent == old(sent) + msgs[..i]
      {
        assert msgs[..i + 1] == msgs[..i] + [msgs[i]];
        var dev := if i == 0 then Lan else Wan;
        var offset := OffsetOf(mark);
        var flowid;
        if r.devid == 0 {
          flowid := Major1((offset + 1) % 0x1_0000_0000);
        } else {
          flowid := Major1(((r.devid + 1) * 4096 + offset) % 0x1_0000_0000);
        }
        sent := sent + [if isNew then NewFilter(dev, mark, flowid) else DelFilter(dev, mark, flowid)];
      }
    }

    /** qmark_tc_add_rule */
    method TcAddRule(r: Rule, mark: uint32)
      modifies this`sent
      ensures sent == old(sent) + AddMsgs(r, mark)
    {
      TcClass(true, r, mark);
      TcQdisc(r, mark);
      TcFilter(true, r, mark);
    }

    /** qmark_tc_del_rule */
    method TcDelRule(r: Rule, mark: uint32)
      modifies this`sent
      ensures sent == old(sent) + DelMsgs(r, mark)
    {
      TcFilter(false, r, mark);
      TcClass(false, r, mark);
    }

    // -- dropping references --

    /** What qmark_del_hash and the DESTROY case of the event handler have in common. */
    method DropReference(ip: Ip, viaEvent: bool) returns (ret: Code, mark: uint32)
      requires Valid()
      modifies bitmap, rules, head.Repr, this`sent
      ensures Apart() && head.Repr == old(head.Repr)
      ensures var o := Release(old(View()), ip);
              && View() == o.state && ret == o.code && mark == o.mark
              && sent == old(sent) + Told(viaEvent, o.msgs)
    {
      ghost var s := View();
      var entry := head.Get(ip);
      if entry == null {
        return ERROR, 0;
      }
      head.AddToCount(ip, entry, -1);
      RecountIs(s, ip, -1, View());
      if entry.count > 0 {
        return ERROR, 0;
      }
      ret, mark := Drop(ip, entry.id, viaEvent);
    }

    /** The count is down to 0: delete the entry, and give its mark back when nobody else uses it. */
    method Drop(ip: Ip, id: nat, viaEvent: bool) returns (ret: Code, mark: uint32)
      requires Valid() && ip in View().table && View().table[ip].count <= 0 && id == View().table[ip].id
      modifies bitmap, rules, head.Repr, this`sent
      ensures Apart() && head.Repr == old(head.Repr)
      ensures var o := DropEntry(old(View()), ip);
              && View() == o.state && ret == o.code && mark == o.mark
              && sent == old(sent) + Told(viaEvent, o.msgs)
    {
      assert IsRule(View(), id) && OffsetInRange(bitmap.Length, View().table[ip].mark);
      ret, mark := HashRemove(ip);
      GiveBackIfIdle(id, mark, viaEvent);
    }

    /** If nobody uses the mark: clears the rule's mark, takes the tc objects down and frees the bit. */
    method GiveBackIfIdle(id: nat, mark: uint32, viaEvent: bool)
      requires Apart() && 1 <= id <= rules.Length && OffsetInRange(bitmap.Length, mark)
      modifies bitmap, rules, this`sent
      ensures Apart()
      ensures var o := Retire(old(View()), id, mark); View() == o.state && sent == old(sent) + Told(viaEvent, o.msgs)
    {
      if rules[id - 1].mode == PRIV_MODE || rules[id - 1].count == 0 {
        rules[id - 1] := rules[id - 1].(mark := 0);
        if viaEvent {
          TcDelRule(rules[id - 1], mark);
        }
        FreeMark(mark);
        head.Untouched();
      }
    }

    /** qmark_del_hash */
    method DelHash(ip: Ip) returns (ret: Code, mark: uint32)
      requires Valid()
      modifies bitmap, rules, head.Repr, this`sent
      ensures Valid() && Grown() && head.Repr == old(head.Repr)
      ensures Outcome(View(), ret, mark, []) == Step(old(View()), DelHashOp(ip)) && sent == old(sent)
    {
      ReleaseStructural(View(), ip);
      ret, mark := DropReference(ip, false);
    }

    /** qmark_conntrack_event */
    method ConntrackEvent(ev: ConnEvent)
      requires Valid()
      modifies bitmap, rules, head.Repr, this`sent
      ensures Valid() && Grown() && head.Repr == old(head.Repr)
      ensures View() == Event(old(View()), ev).state && sent == old(sent) + Event(old(View()), ev).msgs
    {
      StepStructural(View(), EventOp(ev));
      if ev.conn.NoConn? || !ev.conn.ipv4 || ev.conn.untracked {
        return;
      }
      if ev.conn.ctMark / 0x800 % 0x2000 == 0 {
        return;
      }
      var ip := if ev.conn.origDst == ev.conn.replySrc then ev.conn.origSrc else ev.conn.replySrc;
      if ev.destroy {
        var _, _ := DropReference(ip, true);
      } else if ev.markChanged {
        CountMark(ip);
      }
    }

    /** The MARK case of the event handler. */
    method CountMark(ip: Ip)
      requires Valid()
      modifies head.Repr
      ensures Apart() && head.Repr == old(head.Repr)
      ensures View() == if ip in old(View()).table then AddToEntry(old(View()), ip, 1) else old(View())
    {
      ghost var s := View();
      var entry := head.Get(ip);
      if entry != null {
        head.AddToCount(ip, entry, 1);
        RecountIs(s, ip, 1, View());
      }
    }

    // -- allocation --

    /** The first half of qmark_alloc_mark_auto. */
    method TakeMark(id: nat) returns (mark: uint32)
      requires 1 <= id <= rules.Length
      modifies bitmap, rules
      ensures var r := Model.TakeMark(old(View()), id); View() == r.0 && mark == r.1
    {
      if rules[id - 1].mode == PRIV_MODE {
        mark := AllocMark();
      } else if rules[id - 1].count == 0 {
        mark := AllocMark();
        if mark != 0 {
          SetRuleMark(id, mark);
        }
      } else {
        mark := rules[id - 1].mark;
      }
    }

    /** The second half of qmark_alloc_mark_auto: insert, and undo on failure. */
    method AddAllocated(ip: Ip, id: nat, mark: uint32, nodeOk: bool) returns (ret: Code)
      requires Valid() && 1 <= id <= rules.Length && OffsetInRange(bitmap.Length, mark)
      modifies bitmap, rules, head.Repr, this`sent
      ensures Apart() && Grown()
      ensures var o := Model.AddAllocated(old(View()), ip, id, mark, nodeOk);
              View() == o.state && ret == o.code && sent == old(sent) + o.msgs
    {
      var code := TableAdd(ip, id, mark, nodeOk);
      ret := Settle(id, mark, code);
    }

    /** After the insertion: announce the mark, or take it back. */
    method Settle(id: nat, mark: uint32, code: Code) returns (ret: Code)
      requires Apart() && 1 <= id <= rules.Length && OffsetInRange(bitmap.Length, mark)
      modifies bitmap, rules, this`sent
      ensures Apart()
      ensures var o := Model.Settle(old(View()), id, mark, code);
              View() == o.state && ret == o.code && sent == old(sent) + o.msgs
    {
      if code != OK {
        ret := ERROR;
        GiveBackIfIdle(id, mark, false);
      } else {
        ret := OK;
        TcAddRule(rules[id - 1], mark);
        head.Untouched();
      }
    }

    /** qmark_alloc_mark_auto */
    method AllocAuto(ip: Ip, id: nat, nodeOk: bool) returns (ret: Code, mark: uint32)
      requires Valid() && IsRule(View(), id) && ShareMarkUsable(View(), id)
      modifies bitmap, rules, head.Repr, this`sent
      ensures Valid() && Grown()
      ensures var o := Model.AllocAuto(old(View()), ip, id, nodeOk);
              View() == o.state && ret == o.code && mark == o.mark && sent == old(sent) + o.msgs
    {
      ghost var s := View();
      AllocStructural(s, ip, id, nodeOk);
      if resetFlag {
        return ERROR, 0;
      }
      TakeMarkStructural(s, id);
      mark := TakeMark(id);
      head.Untouched();
      if mark == 0 {
        return ERROR, 0;
      }
      ret := AddAllocated(ip, id, mark, nodeOk);
    }

    /** The table's part of qmark_handle: find the mark of the address, or allocate one. */
    method Packet(ip: Ip, id: nat, nodeOk: bool) returns (ret: Code, mark: uint32)
      requires Valid() && PacketOk(View(), ip, id)
      modifies bitmap, rules, head.Repr, this`sent
      ensures Valid() && Grown()
      ensures var o := Model.Packet(old(View()), ip, id, nodeOk);
              View() == o.state && ret == o.code && mark == o.mark && sent == old(sent) + o.msgs
    {
      ret, mark := FindMark(ip);
      if mark == 0 {
        ret, mark := AllocAuto(ip, id, nodeOk);
      } else {
        ret := OK;
      }
    }

    // -- the operator's entry points --

    /** qmark_add_rule */
    method AddRule(id: nat, r: Rule)
      requires Valid() && 1 <= id <= rules.Length
      modifies rules
      ensures Valid() && Grown() && View() == Model.AddRule(old(View()), id, r)
    {
      var row := rules[id - 1];
      row := row.(on := true);
      row := row.(mode := r.mode, devid := r.devid);
      row := row.(rate := r.rate, rateMate := r.rateMate, rateMin := r.rateMin, rateMinMate := r.rateMinMate);
      rules[id - 1] := row;
      head.Untouched();
    }

    /** qmark_del_rule */
    method DelRule(id: nat)
      requires Valid() && 1 <= id <= rules.Length
      modifies rules
      ensures Valid() && Grown() && View() == Model.DelRule(old(View()), id)
    {
      rules[id - 1] := EMPTY_RULE;
      head.Untouched();
    }

    /** qmark_flush_rule */
    method FlushRule()
      requires Valid()
      modifies this`rules
      ensures Valid() && Grown() && fresh(rules) && View() == Model.FlushRule(old(View()))
    {
      NewRows(rules.Length);
      head.Untouched();
    }

    /** qos_ruletbl_init */
    method NewRows(n: nat)
      modifies this`rules
      ensures fresh(rules) && rules[..] == seq(n, _ => EMPTY_RULE)
    {
      rules := new Rule[n](_ => EMPTY_RULE);
    }

    /** flush_mark */
    method FlushMark()
      requires Valid()
      modifies bitmap
      ensures Valid() && Grown() && View() == Model.FlushMark(old(View()))
    {
      forall i | 0 <= i < bitmap.Length { bitmap[i] := false; }
      head.Untouched();
      assert bitmap[..] == Model.FlushMark(old(View())).bits;
    }

    /** qmark_alloc_mark */
    method AllocMarkOut() returns (ret: Code, mark: uint32)
      requires Valid()
      modifies bitmap
      ensures Valid() && Grown() && Outcome(View(), ret, mark, []) == Step(old(View()), AllocMarkOp)
    {
      StepStructural(View(), AllocMarkOp);
      mark := AllocMark();
      head.Untouched();
      ret := if mark == 0 then ERROR else OK;
    }

    /** qmark_free_mark */
    method FreeMarkOut(mark: uint32)
      requires Valid() && OffsetInRange(bitmap.Length, mark)
      modifies bitmap
      ensures Valid() && Grown() && View() == old(View()).(bits := Model.FreeMark(old(bitmap[..]), mark))
    {
      FreeMark(mark);
      head.Untouched();
    }

    /** qmark_add_hash */
    method AddHash(ip: Ip, id: nat, mark: uint32, nodeOk: bool) returns (ret: Code)
      requires Valid() && 1 <= id <= rules.Length && OffsetInRange(bitmap.Length, mark)
      modifies rules, head.Repr
      ensures Valid() && Grown()
      ensures Outcome(View(), ret, mark, []) == Step(old(View()), AddHashOp(ip, id, mark, nodeOk))
    {
      StepStructural(View(), AddHashOp(ip, id, mark, nodeOk));
      ret := TableAdd(ip, id, mark, nodeOk);
    }

    /** The body of qmark_flush_hash: tear the table down and set up a new one. */
    method FlushHash()
      requires Valid()
      modifies this`head, head.Repr
      ensures Valid() && Grown() && fresh(head.Repr) && View() == Model.FlushHash(old(View()))
    {
      head.Clean();
      head := new Head(bitmap.Length);
    }

    /** qmark_set_spec */
    method SetSpec(ipSpec: nat, ruleSpec: nat)
      requires Valid() && 1 <= ipSpec < W32 - 1
      modifies this, head.Repr
      ensures Valid() && Grown() && fresh(bitmap) && fresh(rules) && fresh(head.Repr)
      ensures View() == Model.SetSpec(old(View()), ipSpec, ruleSpec) && sent == old(sent)
    {
      head.Clean();
      NewTables(ipSpec, ruleSpec);
    }

    /** mark_bitmap_init, qos_ruletbl_init and qos_marktbl_hashtbl_init */
    method NewTables(ipSpec: nat, ruleSpec: nat)
      requires 1 <= ipSpec < W32 - 1
      modifies this`bitmap, this`rules, this`head
      ensures Valid() && fresh(bitmap) && fresh(rules) && fresh(head.Repr)
      ensures View() == State(seq(ipSpec, _ => false), map[], seq(ruleSpec, _ => EMPTY_RULE), resetFlag)
    {
      bitmap := new bool[ipSpec](_ => false);
      NewRows(ruleSpec);
      head := new Head(ipSpec);
    }

    /** qmark_reset */
    method Reset(flag: uint32)
      requires Valid()
      modifies this, bitmap, rules, head.Repr
      ensures Valid() && Grown() && bitmap == old(bitmap) && rules == old(rules)
      ensures (head == old(head) && head.Repr == old(head.Repr)) || fresh(head.Repr)
      ensures View() == Model.Reset(old(View()), flag) && sent == old(sent)
    {
      resetFlag := flag != 0;
      head.Untouched();
      if flag != 0 {
        Wipe();
      }
    }

    /** The locked part of qmark_reset, with the body of qmark_flush_hash inlined. */
    method Wipe()
      requires Valid()
      modifies this`head, bitmap, rules, head.Repr
      ensures Valid() && fresh(head.Repr)
      ensures View() == Model.FlushHash(Model.FlushMark(old(View()))).(rules := ZeroCounts(old(rules[..])))
    {
      FlushMark();
      FlushHash();
      ZeroRules();
    }

    static lemma Zeroed(before: seq<Rule>, after: seq<Rule>)
      requires |after| == |before| && forall k | 0 <= k < |before| :: after[k] == before[k].(count := 0)
      ensures after == ZeroCounts(before)
    {
    }

    /** The loop of qmark_reset over the rule table. */
    method ZeroRules()
      requires Valid()
      modifies rules
      ensures Valid() && View() == old(View()).(rules := ZeroCounts(old(rules[..])))
    {
      ZeroRows();
      head.Untouched();
    }

    method ZeroRows()
      modifies rules
      ensures rules[..] == ZeroCounts(old(rules[..]))
    {
      for i := 0 to rules.Length
        invariant forall k | 0 <= k < i :: rules[k] == old(rules[k]).(count := 0)
        invariant forall k | i <= k < rules.Length :: rules[k] == old(rules[k])
      {
        rules[i] := rules[i].(count := 0);
      }
      Zeroed(old(rules[..]), rules[..]);
    }
  }
}
