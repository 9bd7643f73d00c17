// The mark table as a value: what every entry point of kmod/qos_marktbl_main.c
// does to the bitmap, the hash table and the rule table. MarkTable.dfy proves the
// in-place code equal to these functions; the other modules reason about them.

module Model {
  import opened Word32
  import opened TcIds

  type Ip = uint32

  const PRIV_MODE: uint32 := 0
  const TC_MAX_RULE_CNT: nat := 128

  datatype Code = OK | ERROR | COUNT_NOZERO | NO_EXIST | OVER_MAX | ALLOC_FAIL

  datatype Option<+T> = None | Some(value: T)

  /** A node of the hash table, without its key. */
  datatype Entry = Entry(id: nat, mark: uint32, count: int)

  /** bits[i] says that offset i + 1 is taken; |bits| is max_ip_cnt and |rules| is max_rule_cnt. */
  datatype State = State(bits: seq<bool>, table: map<Ip, Entry>, rules: seq<Rule>, reset: bool)

  /** What a call returns, next to the new state and the tc messages it sends. */
  datatype Outcome = Outcome(state: State, code: Code, mark: uint32, msgs: seq<TcMsg>)

  const EMPTY_RULE := Rule(PRIV_MODE, 0, 0, false, 0, 0, 0, 0, 0)

  function Initial(): State {
    SetSpec(State([], map[], [], false), TC_MAX_IP_CNT, TC_MAX_RULE_CNT)
  }

  predicate IsRule(s: State, id: nat) { 1 <= id <= |s.rules| }

  predicate IsPrivate(r: Rule) { r.mode == PRIV_MODE }

  predicate OffsetInRange(n: nat, mark: uint32) { 1 <= OffsetOf(mark) <= n }

  /** What every entry point keeps, whatever the operator does. */
  ghost predicate Structural(s: State) {
    && 1 <= |s.bits| < W32 - 1
    && |s.table| <= |s.bits|
    && forall ip | ip in s.table ::
         IsRule(s, s.table[ip].id) && OffsetInRange(|s.bits|, s.table[ip].mark)
  }

  // -- the bitmap --

  /** find_first_zero_bit, from bit i on; |bits| when there is none. */
  function FirstZero(bits: seq<bool>, i: nat): (z: nat)
    requires i <= |bits|
    ensures i <= z <= |bits|
    ensures forall k | i <= k < z :: bits[k]
    ensures z < |bits| ==> !bits[z]
    decreases |bits| - i
  {
    if i == |bits| || !bits[i] then i else FirstZero(bits, i + 1)
  }

  /** alloc_mark: the mark of the first clear bit, or 0. */
  function AllocMark(bits: seq<bool>): (r: (seq<bool>, uint32))
    ensures |r.0| == |bits|
  {
    var z := FirstZero(bits, 0);
    if z >= |bits| then (bits, 0) else (bits[z := true], MarkOf(z + 1))
  }

  function FreeMark(bits: seq<bool>, mark: uint32): seq<bool>
    requires OffsetInRange(|bits|, mark)
  {
    bits[OffsetOf(mark) - 1 := false]
  }

  function TestMark(bits: seq<bool>, mark: uint32): bool
    requires OffsetInRange(|bits|, mark)
  {
    bits[OffsetOf(mark) - 1]
  }

  // -- the hash table --

  function WithRule(s: State, id: nat, r: Rule): State
    requires IsRule(s, id)
  {
    s.(rules := s.rules[id - 1 := r])
  }

  function Recounted(rules: seq<Rule>, id: nat, d: int): seq<Rule>
    requires 1 <= id <= |rules|
  {
    rules[id - 1 := rules[id - 1].(count := rules[id - 1].count + d)]
  }

  function AddToRule(s: State, id: nat, d: int): State
    requires IsRule(s, id)
  {
    s.(rules := Recounted(s.rules, id, d))
  }

  function ClearShareMark(s: State, id: nat): State
    requires IsRule(s, id)
  {
    WithRule(s, id, s.rules[id - 1].(mark := 0))
  }

  function AddToEntry(s: State, ip: Ip, d: int): State
    requires ip in s.table
  {
    s.(table := s.table[ip := s.table[ip].(count := s.table[ip].count + d)])
  }

  /** elem_over_limit */
  predicate OverLimit(s: State) { (|s.table| + 1) % 0x1_0000_0000 > |s.bits| }

  /** marktbl_hash_add; nodeOk is whether the node could be allocated. */
  function HashAdd(s: State, ip: Ip, id: nat, mark: uint32, nodeOk: bool): (State, Code)
    requires IsRule(s, id)
  {
    if OverLimit(s) then (s, OVER_MAX)
    else if ip in s.table then (AddToEntry(s, ip, 1), OK)
    else if !nodeOk then (s, ALLOC_FAIL)
    else (AddToRule(s.(table := s.table[ip := Entry(id, mark, 0)]), id, 1), OK)
  }

  /** marktbl_hash_remove, with the mark of the unlinked node. */
  function HashRemove(s: State, ip: Ip): (State, Code, uint32)
    requires Structural(s)
  {
    if ip !in s.table then (s, NO_EXIST, 0)
    else if s.table[ip].count > 0 then (s, COUNT_NOZERO, 0)
    else (AddToRule(s.(table := s.table - {ip}), s.table[ip].id, -1), OK, s.table[ip].mark)
  }

  /** qos_marktbl_hashtbl_add */
  function TableAdd(s: State, ip: Ip, id: nat, mark: uint32, nodeOk: bool): (State, Code)
    requires IsRule(s, id) && OffsetInRange(|s.bits|, mark)
  {
    if !TestMark(s.bits, mark) then (s, ERROR) else HashAdd(s, ip, id, mark, nodeOk)
  }

  /** qos_marktbl_hashtbl_get, reduced to the mark: 0 when there is no entry. */
  function FindMark(s: State, ip: Ip): uint32 {
    if ip in s.table then s.table[ip].mark else 0
  }

  /** Private, or without entries: the rule's own mark does not count. */
  predicate NeedsFresh(s: State, id: nat)
    requires IsRule(s, id)
  {
    IsPrivate(s.rules[id - 1]) || s.rules[id - 1].count == 0
  }

  // -- dropping one reference: qmark_del_hash, and the DESTROY case of the event handler --

  function Release(s: State, ip: Ip): Outcome
    requires Structural(s)
  {
    if ip !in s.table then Outcome(s, ERROR, 0, [])
    else
      var s1 := AddToEntry(s, ip, -1);
      RecountKeepsStructural(s, ip, -1);
      if s1.table[ip].count > 0 then Outcome(s1, ERROR, 0, []) else DropEntry(s1, ip)
  }

  /** Delete the entry, and give its mark back when nobody else uses it. */
  function DropEntry(s: State, ip: Ip): Outcome
    requires Structural(s) && ip in s.table && s.table[ip].count <= 0
  {
    var r := HashRemove(s, ip);
    Retire(r.0, s.table[ip].id, r.2)
  }

  /** What becomes of the mark of a removed entry. */
  function Retire(s: State, id: nat, mark: uint32): Outcome
    requires IsRule(s, id) && OffsetInRange(|s.bits|, mark)
  {
    if NeedsFresh(s, id) then Outcome(GiveBack(s, id, mark), OK, mark, DelMsgs(s.rules[id - 1], mark))
    else Outcome(s, OK, mark, [])
  }

  /** Clear the rule's mark and free the bit. */
  function GiveBack(s: State, id: nat, mark: uint32): State
    requires IsRule(s, id) && OffsetInRange(|s.bits|, mark)
  {
    ClearShareMark(s, id).(bits := FreeMark(s.bits, mark))
  }

  // -- allocation --

  /** A share mark that is about to be read names a bit of the bitmap. */
  predicate ShareMarkUsable(s: State, id: nat)
    requires IsRule(s, id)
  {
    NeedsFresh(s, id) || OffsetInRange(|s.bits|, s.rules[id - 1].mark)
  }

  /** The second half of qmark_alloc_mark_auto: insert, and undo on failure. */
  function AddAllocated(s: State, ip: Ip, id: nat, mark: uint32, nodeOk: bool): Outcome
    requires IsRule(s, id) && OffsetInRange(|s.bits|, mark)
  {
    var r := TableAdd(s, ip, id, mark, nodeOk);
    Settle(r.0, id, mark, r.1)
  }

  function Settle(s: State, id: nat, mark: uint32, code: Code): Outcome
    requires IsRule(s, id) && OffsetInRange(|s.bits|, mark)
  {
    if code == OK then Outcome(s, OK, mark, AddMsgs(s.rules[id - 1], mark))
    else Outcome(if NeedsFresh(s, id) then GiveBack(s, id, mark) else s, ERROR, mark, [])
  }

  /** The first half of qmark_alloc_mark_auto: the mark to insert, 0 when none is left. */
  function TakeMark(s: State, id: nat): (State, uint32)
    requires IsRule(s, id)
  {
    var r := s.rules[id - 1];
    if !NeedsFresh(s, id) then (s, r.mark)
    else
      var (bits, mark) := AllocMark(s.bits);
      var s1 := s.(bits := bits);
      (if IsPrivate(r) || mark == 0 then s1 else WithRule(s1, id, r.(mark := mark)), mark)
  }

  /** qmark_alloc_mark_auto */
  function AllocAuto(s: State, ip: Ip, id: nat, nodeOk: bool): Outcome
    requires Structural(s) && IsRule(s, id) && ShareMarkUsable(s, id)
  {
    if s.reset then Outcome(s, ERROR, 0, [])
    else
      var (s1, mark) := TakeMark(s, id);
      if mark == 0 then Outcome(s1, ERROR, 0, []) else AddAllocated(s1, ip, id, mark, nodeOk)
  }

  predicate PacketOk(s: State, ip: Ip, id: nat) {
    FindMark(s, ip) == 0 ==> IsRule(s, id) && ShareMarkUsable(s, id)
  }

  /** The table's part of qmark_handle: look the address up, allocate on a miss. */
  function Packet(s: State, ip: Ip, id: nat, nodeOk: bool): Outcome
    requires Structural(s) && PacketOk(s, ip, id)
  {
    if FindMark(s, ip) == 0 then AllocAuto(s, ip, id, nodeOk)
    else Outcome(s, OK, FindMark(s, ip), [])
  }

  // -- conntrack events --

  datatype Conn =
    | NoConn
    | Conn(ipv4: bool, untracked: bool, ctMark: uint32, origSrc: Ip, origDst: Ip, replySrc: Ip)

  datatype ConnEvent = ConnEvent(destroy: bool, markChanged: bool, conn: Conn)

  /** The address an event is about, if it is about any; 0xfff800 keeps bits 11..23 of the mark. */
  function Subject(c: Conn): Option<Ip> {
    if c.NoConn? || !c.ipv4 || c.untracked || c.ctMark / 0x800 % 0x2000 == 0 then None
    else if c.origDst == c.replySrc then Some(c.origSrc)
    else Some(c.replySrc)
  }

  /**
   * The connection counts for this address: it is a tracked IPv4 connection whose mark has one of the
   * bits 11..23, and the address is the source of its original direction if the reply comes from where
   * the original direction went, and else the source of its reply.
   */
  predicate About(c: Conn, ip: Ip) {
    && c.Conn? && c.ipv4 && !c.untracked && c.ctMark / 0x800 % 0x2000 != 0
    && (c.origDst == c.replySrc ==> c.origSrc == ip)
    && (c.origDst != c.replySrc ==> c.replySrc == ip)
  }

  /** qmark_conntrack_event */
  function Event(s: State, ev: ConnEvent): Outcome
    requires Structural(s)
  {
    match Subject(ev.conn)
    case None => Outcome(s, OK, 0, [])
    case Some(ip) =>
      if ev.destroy then
        var o := Release(s, ip);
        Outcome(o.state, OK, 0, o.msgs)
      else if ev.markChanged && ip in s.table then Outcome(AddToEntry(s, ip, 1), OK, 0, [])
      else Outcome(s, OK, 0, [])
  }

  // -- the operator's entry points --

  function AddRule(s: State, id: nat, r: Rule): State
    requires IsRule(s, id)
  {
    WithRule(s, id, r.(mark := s.rules[id - 1].mark, count := s.rules[id - 1].count, on := true))
  }

  function DelRule(s: State, id: nat): State
    requires IsRule(s, id)
  {
    WithRule(s, id, EMPTY_RULE)
  }

  function FlushRule(s: State): State { s.(rules := seq(|s.rules|, _ => EMPTY_RULE)) }

  function FlushHash(s: State): State { s.(table := map[]) }

  function FlushMark(s: State): State { s.(bits := seq(|s.bits|, _ => false)) }

  function SetSpec(s: State, ipSpec: nat, ruleSpec: nat): State {
    State(seq(ipSpec, _ => false), map[], seq(ruleSpec, _ => EMPTY_RULE), s.reset)
  }

  function ZeroCounts(rules: seq<Rule>): seq<Rule> {
    seq(|rules|, i requires 0 <= i < |rules| => rules[i].(count := 0))
  }

  function Reset(s: State, flag: uint32): State {
    if flag == 0 then s.(reset := false)
    else FlushHash(FlushMark(s)).(rules := ZeroCounts(s.rules), reset := true)
  }

  // -- every entry point as one step --

  datatype Op =
    | PacketOp(ip: Ip, id: nat, nodeOk: bool)
    | EventOp(event: ConnEvent)
    | DelHashOp(ip: Ip)
    | ResetOp(flag: uint32)
    | SetSpecOp(ipSpec: nat, ruleSpec: nat)
    | AddRuleOp(id: nat, rule: Rule)
    | DelRuleOp(id: nat)
    | FlushRuleOp
    | FlushHashOp
    | AllocMarkOp
    | FreeMarkOp(mark: uint32)
    | FlushMarkOp
    | CheckHashOp(ip: Ip)
    | AddHashOp(ip: Ip, id: nat, mark: uint32, nodeOk: bool)

  /** What the code demands of the caller: indices that stay inside its arrays. */
  predicate Callable(s: State, op: Op) {
    match op
    case PacketOp(ip, id, _) => PacketOk(s, ip, id)
    case SetSpecOp(ipSpec, _) => 1 <= ipSpec < W32 - 1
    case AddRuleOp(id, _) => IsRule(s, id)
    case DelRuleOp(id) => IsRule(s, id)
    case FreeMarkOp(mark) => OffsetInRange(|s.bits|, mark)
    case AddHashOp(_, id, mark, _) => IsRule(s, id) && OffsetInRange(|s.bits|, mark)
    case _ => true
  }

  function Step(s: State, op: Op): Outcome
    requires Structural(s) && Callable(s, op)
  {
    match op
    case PacketOp(ip, id, nodeOk) => Packet(s, ip, id, nodeOk)
    case EventOp(ev) => Event(s, ev)
    case DelHashOp(ip) => Release(s, ip).(msgs := [])
    case ResetOp(flag) => Outcome(Reset(s, flag), OK, 0, [])
    case SetSpecOp(ipSpec, ruleSpec) => Outcome(SetSpec(s, ipSpec, ruleSpec), OK, 0, [])
    case AddRuleOp(id, r) => Outcome(AddRule(s, id, r), OK, 0, [])
    case DelRuleOp(id) => Outcome(DelRule(s, id), OK, 0, [])
    case FlushRuleOp => Outcome(FlushRule(s), OK, 0, [])
    case FlushHashOp => Outcome(FlushHash(s), OK, 0, [])
    case AllocMarkOp =>
      var (bits, mark) := AllocMark(s.bits);
      Outcome(s.(bits := bits), if mark == 0 then ERROR else OK, mark, [])
    case FreeMarkOp(mark) => Outcome(s.(bits := FreeMark(s.bits, mark)), OK, 0, [])
    case FlushMarkOp => Outcome(FlushMark(s), OK, 0, [])
    case CheckHashOp(ip) => Outcome(s, if ip in s.table then OK else NO_EXIST, FindMark(s, ip), [])
    case AddHashOp(ip, id, mark, nodeOk) =>
      var (s1, code) := TableAdd(s, ip, id, mark, nodeOk);
      Outcome(s1, code, mark, [])
  }

  /** The structural invariant is kept by every entry point. */
  lemma StepStructural(s: State, op: Op)
    requires Structural(s) && Callable(s, op)
    ensures Structural(Step(s, op).state)
  {
    match op
    case PacketOp(ip, id, nodeOk) =>
      if FindMark(s, ip) == 0 { AllocStructural(s, ip, id, nodeOk); }
    case EventOp(ev) =>
      match Subject(ev.conn) {
        case None =>
        case Some(ip) => ReleaseStructural(s, ip);
      }
    case DelHashOp(ip) => ReleaseStructural(s, ip);
    case AddHashOp(ip, id, mark, nodeOk) => HashAddStructural(s, ip, id, mark, nodeOk);
    case _ =>
  }

  lemma ReleaseStructural(s: State, ip: Ip)
    requires Structural(s)
    ensures Structural(Release(s, ip).state)
  {
  }

  /** The state in which marktbl_hash_remove leaves the table, component by component. */
  lemma HashRemoveIs(s: State, ip: Ip, s': State)
    requires Structural(s) && s'.bits == s.bits && s'.reset == s.reset
    requires var gone := ip in s.table && s.table[ip].count <= 0;
             && s'.table == (if gone then s.table - {ip} else s.table)
             && s'.rules == if gone then Recounted(s.rules, s.table[ip].id, -1) else s.rules
    ensures HashRemove(s, ip) == (s', if ip !in s.table then NO_EXIST else if s.table[ip].count > 0 then COUNT_NOZERO else OK,
                                  if ip in s.table && s.table[ip].count <= 0 then s.table[ip].mark else 0)
  {
  }

  /** The state in which marktbl_hash_add leaves the table below its limit, component by component. */
  lemma HashAddIs(s: State, ip: Ip, id: nat, mark: uint32, nodeOk: bool, s': State)
    requires Structural(s) && IsRule(s, id) && OffsetInRange(|s.bits|, mark) && !OverLimit(s)
    requires s'.bits == s.bits && s'.reset == s.reset
    requires s'.table == if ip in s.table then s.table[ip := s.table[ip].(count := s.table[ip].count + 1)]
                         else if nodeOk then s.table[ip := Entry(id, mark, 0)]
                         else s.table
    requires s'.rules == if ip in s.table || !nodeOk then s.rules
                         else Recounted(s.rules, id, 1)
    ensures HashAdd(s, ip, id, mark, nodeOk) == (s', if ip in s.table || nodeOk then OK else ALLOC_FAIL)
  {
  }

  lemma RecountIs(s: State, ip: Ip, d: int, s': State)
    requires Structural(s) && ip in s.table
    requires s'.bits == s.bits && s'.reset == s.reset && s'.rules == s.rules
    requires s'.table == s.table[ip := s.table[ip].(count := s.table[ip].count + d)]
    ensures s' == AddToEntry(s, ip, d) && Structural(s')
  {
  }

  lemma RecountKeepsStructural(s: State, ip: Ip, d: int)
    requires Structural(s) && ip in s.table
    ensures Structural(AddToEntry(s, ip, d))
  {
  }

  lemma HashAddStructural(s: State, ip: Ip, id: nat, mark: uint32, nodeOk: bool)
    requires Structural(s) && IsRule(s, id) && OffsetInRange(|s.bits|, mark)
    ensures Structural(HashAdd(s, ip, id, mark, nodeOk).0)
  {
  }

  lemma AllocStructural(s: State, ip: Ip, id: nat, nodeOk: bool)
    requires Structural(s) && IsRule(s, id) && ShareMarkUsable(s, id)
    ensures Structural(AllocAuto(s, ip, id, nodeOk).state)
  {
    var (s1, mark) := TakeMark(s, id);
    TakeMarkStructural(s, id);
    if !s.reset && mark != 0 {
      HashAddStructural(s1, ip, id, mark, nodeOk);
    }
  }

  lemma TakeMarkStructural(s: State, id: nat)
    requires Structural(s) && IsRule(s, id) && ShareMarkUsable(s, id)
    ensures Structural(TakeMark(s, id).0) && |TakeMark(s, id).0.rules| == |s.rules|
    ensures TakeMark(s, id).1 != 0 ==> OffsetInRange(|s.bits|, TakeMark(s, id).1)
  {
  }
}
