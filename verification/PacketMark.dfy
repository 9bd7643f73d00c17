// What qmark_handle writes into a packet: the mark of the address, merged under the mask
// (xt_kmod/xt_qmark.c). The scripts configure the mask (2^L - 1) << 11.

module PacketMark {
  import opened Word32
  import opened TcIds
  import opened Model
  import opened Ownership
  import opened Allocation
  import opened Discipline
  import opened Runs
  import opened Refcount

  /** (skb->mark & ~mask) ^ mark */
  function Merge(skbMark: uint32, mask: uint32, mark: uint32): uint32 {
    Pow2Of32();
    Xor(32, And(32, skbMark, Not(32, mask)), mark)
  }

  /** The bits that the mask selects. */
  function Field(x: uint32, mask: uint32): uint32 {
    Pow2Of32();
    And(32, x, mask)
  }

  /** The mark of a packet after qmark_handle, given what the table answered. */
  function Handled(skbMark: uint32, mask: uint32, o: Outcome): uint32 {
    if o.code == OK then Merge(skbMark, mask, o.mark) else skbMark
  }

  /** Every bit of the mark lies under the mask. */
  predicate Under(mark: uint32, mask: uint32) {
    forall k | 0 <= k < 32 && Bit(mask, k) == 0 :: Bit(mark, k) == 0
  }

  /** x and y agree on every bit outside the mask. */
  predicate SameRest(x: uint32, y: uint32, mask: uint32) {
    forall k | 0 <= k < 32 && Bit(mask, k) == 0 :: Bit(x, k) == Bit(y, k)
  }

  lemma MergeBit(skbMark: uint32, mask: uint32, mark: uint32, k: nat)
    requires k < 32
    ensures Bit(Merge(skbMark, mask, mark), k) ==
            if Bit(mask, k) == 1 then Bit(mark, k) else (Bit(skbMark, k) + Bit(mark, k)) % 2
  {
    MaskedXorBit(32, skbMark, mask, mark, k);
  }

  lemma MaskedXorBit(w: nat, x: nat, m: nat, y: nat, k: nat)
    requires k < w
    ensures Bit(Xor(w, And(w, x, Not(w, m)), y), k) == if Bit(m, k) == 1 then Bit(y, k) else (Bit(x, k) + Bit(y, k)) % 2
  {
    XorBit(w, And(w, x, Not(w, m)), y, k);
    AndBit(w, x, Not(w, m), k);
    NotBit(w, m, k);
    BitSum(Bit(x, k), Bit(m, k), Bit(y, k));
  }

  lemma BitSum(x: nat, m: nat, y: nat)
    requires x < 2 && m < 2 && y < 2
    ensures ((if x == 1 && 1 - m == 1 then 1 else 0) + y) % 2 == if m == 1 then y else (x + y) % 2
  {
  }

  /** The merge leaves the other bits of a packet's mark alone exactly when the mark lies under the mask. */
  lemma MergeKeepsRestIff(skbMark: uint32, mask: uint32, mark: uint32)
    ensures SameRest(Merge(skbMark, mask, mark), skbMark, mask) <==> Under(mark, mask)
  {
    forall k | 0 <= k < 32
      ensures Bit(Merge(skbMark, mask, mark), k) ==
              if Bit(mask, k) == 1 then Bit(mark, k) else (Bit(skbMark, k) + Bit(mark, k)) % 2
    {
      MergeBit(skbMark, mask, mark, k);
    }
    SameRestIff(Merge(skbMark, mask, mark), skbMark, mask, mark);
  }

  lemma SameRestIff(m: uint32, skbMark: uint32, mask: uint32, mark: uint32)
    requires forall k | 0 <= k < 32 ::
               Bit(m, k) == if Bit(mask, k) == 1 then Bit(mark, k) else (Bit(skbMark, k) + Bit(mark, k)) % 2
    ensures SameRest(m, skbMark, mask) <==> Under(mark, mask)
  {
  }

  /** The masked field of the merged mark is the mark itself. */
  lemma MergeField(skbMark: uint32, mask: uint32, mark: uint32)
    requires Under(mark, mask)
    ensures Field(Merge(skbMark, mask, mark), mask) == mark
  {
    Pow2Of32();
    var m := Merge(skbMark, mask, mark);
    forall k | 0 <= k < 32 ensures Bit(Field(m, mask), k) == Bit(mark, k) {
      AndBit(32, m, mask, k);
      MergeBit(skbMark, mask, mark, k);
    }
    SameBits(32, Field(m, mask), mark);
  }

  // -- the configured mask --

  /** ((1 << len) - 1) << 11 */
  function FieldMask(len: nat): uint32
    requires len <= 21
  {
    Pow2Monotone(len, 21);
    Pow2Of21();
    (Pow2(len) - 1) * 0x800
  }

  lemma {:induction false} Pow2Monotone(m: nat, n: nat)
    requires m <= n
    ensures Pow2(m) <= Pow2(n)
    decreases n
  {
    if m == n {
    } else {
      Pow2Monotone(m, n - 1);
    }
  }

  lemma {:induction false} OnesBit(len: nat, k: nat)
    ensures Bit(Pow2(len) - 1, k) == if k < len then 1 else 0
    decreases len
  {
    if len == 0 {
      HighBitsZero(0, 0, k);
    } else {
      var half := Pow2(len - 1) - 1;
      assert Pow2(len) - 1 == 2 * half + 1;
      if k > 0 { OnesBit(len - 1, k - 1); }
    }
  }

  /** Multiplying by 2^11 moves every bit up by 11. */
  lemma {:induction false} ScaledBit(x: nat, n: nat, k: nat)
    ensures Bit(x * Pow2(n), k) == if k < n then 0 else Bit(x, k - n)
    decreases n
  {
    if n == 0 {
    } else {
      assert x * Pow2(n) == 2 * (x * Pow2(n - 1));
      if k > 0 { ScaledBit(x, n - 1, k - 1); }
    }
  }

  lemma FieldMaskBit(len: nat, k: nat)
    requires len <= 21
    ensures Bit(FieldMask(len), k) == if 11 <= k < 11 + len then 1 else 0
  {
    Pow2Of21();
    ScaledBit(Pow2(len) - 1, 11, k);
    if k >= 11 { OnesBit(len, k - 11); }
  }

  lemma MarkBit(offset: nat, k: nat)
    requires offset < 0x20_0000
    ensures Bit(MarkOf(offset), k) == if k < 11 then 0 else Bit(offset, k - 11)
  {
    Pow2Of21();
    assert MarkOf(offset) == offset * Pow2(11);
    ScaledBit(offset, 11, k);
  }

  /** The top set bit of a number that does not fit len bits. */
  lemma {:induction false} HasHighBit(x: nat, len: nat, w: nat) returns (k: nat)
    requires Pow2(len) <= x < Pow2(w)
    ensures len <= k < w && Bit(x, k) == 1
    decreases w
  {
    if w > 0 {
      if len == 0 && x == 1 {
        k := 0;
      } else {
        k := HasHighBit(x / 2, if len == 0 then 0 else len - 1, w - 1);
        k := k + 1;
      }
    }
  }

  /** A mark lies under the configured mask exactly when its offset fits the mask's length. */
  lemma MarkUnderIff(offset: nat, len: nat)
    requires offset < 0x20_0000 && len <= 21
    ensures Under(MarkOf(offset), FieldMask(len)) <==> offset < Pow2(len)
  {
    if offset < Pow2(len) {
      forall k | 0 <= k < 32 && Bit(FieldMask(len), k) == 0 ensures Bit(MarkOf(offset), k) == 0 {
        FieldMaskBit(len, k);
        MarkBit(offset, k);
        if k >= 11 { HighBitsZero(offset, len, k - 11); }
      }
    } else {
      Pow2Of21();
      var k := HasHighBit(offset, len, 21);
      FieldMaskBit(len, k + 11);
      MarkBit(offset, k + 11);
    }
  }

  /** Every mark the allocator can issue lies under the mask exactly when max_ip_cnt < 2^L. */
  lemma AllMarksUnderIff(n: nat, len: nat)
    requires n < MAX_SPEC && len <= 21
    ensures (forall i | 1 <= i <= n :: Under(MarkOf(i), FieldMask(len))) <==> n < Pow2(len)
  {
    forall i | 1 <= i <= n ensures Under(MarkOf(i), FieldMask(len)) <==> i < Pow2(len) { MarkUnderIff(i, len); }
    if n >= Pow2(len) {
      assert !Under(MarkOf(n), FieldMask(len));
    }
  }

  // -- the mask of the module: 0xfff800, for connection marks and for the tc filters --

  lemma {:induction false} ModBit(x: nat, len: nat, k: nat)
    ensures Bit(x % Pow2(len), k) == if k < len then Bit(x, k) else 0
    decreases len
  {
    if len == 0 {
      HighBitsZero(0, 0, k);
    } else {
      var r := x / 2 % Pow2(len - 1);
      ModHalf(x, Pow2(len - 1));
      if k > 0 { ModBit(x / 2, len - 1, k - 1); }
    }
  }

  lemma ModHalf(x: nat, n: nat)
    requires n > 0
    ensures x % (2 * n) == 2 * (x / 2 % n) + x % 2
  {
    var q, r := x / 2 / n, x / 2 % n;
    assert x / 2 == n * q + r;
    assert x == (2 * n) * q + (2 * r + x % 2);
    DivUnique(x, 2 * n, q, 2 * r + x % 2);
  }

  lemma DivUnique(x: nat, d: nat, q: nat, r: nat)
    requires x == d * q + r && r < d
    ensures x / d == q && x % d == r
  {
    var k := q - x / d;
    assert x == d * (x / d) + x % d;
    assert d * k == d * q - d * (x / d);
    if k >= 1 { AtLeast(d, k); }
    if k <= -1 { AtLeast(d, -k); }
  }

  lemma AtLeast(d: nat, k: int)
    requires k >= 1
    ensures d * k >= d
  {
  }

  /** The field under the mask, as a number. */
  lemma FieldValue(x: uint32, len: nat)
    requires len <= 21
    ensures Field(x, FieldMask(len)) == Shr(x, 11) % Pow2(len) * 0x800
  {
    Pow2Of32();
    Pow2Of21();
    Pow2Monotone(len, 21);
    var v := Shr(x, 11) % Pow2(len);
    forall k | 0 <= k < 32 ensures Bit(Field(x, FieldMask(len)), k) == Bit(v * 0x800, k) { FieldBit(x, len, k); }
    SameBits(32, Field(x, FieldMask(len)), v * 0x800);
  }

  lemma FieldBit(x: uint32, len: nat, k: nat)
    requires len <= 21 && k < 32
    ensures Bit(Field(x, FieldMask(len)), k) == Bit(Shr(x, 11) % Pow2(len) * 0x800, k)
  {
    Pow2Of21();
    AndBit(32, x, FieldMask(len), k);
    FieldMaskBit(len, k);
    ScaledBit(Shr(x, 11) % Pow2(len), 11, k);
    if k >= 11 {
      ModBit(Shr(x, 11), len, k - 11);
      ShrBit(x, 11, k - 11);
    }
  }

  lemma {:induction false} ShrQuotient(x: nat, n: nat) returns (r: nat)
    ensures x == Shr(x, n) * Pow2(n) + r && r < Pow2(n)
    decreases n
  {
    if n == 0 {
      r := 0;
    } else {
      r := ShrQuotient(x / 2, n - 1);
      assert Shr(x, n) * Pow2(n) == 2 * (Shr(x / 2, n - 1) * Pow2(n - 1));
      r := 2 * r + x % 2;
    }
  }

  lemma ShrEleven(x: nat)
    ensures Shr(x, 11) == x / 0x800
  {
    var r := ShrQuotient(x, 11);
    Pow2Of21();
    assert Pow2(11) == 0x800;
  }

  lemma ModuleMask()
    ensures FieldMask(13) == 0xfff800
  {
  }

  /** The test of the conntrack handler: no bit of the connection's mark under 0xfff800 is set. */
  lemma EventMask(ctMark: uint32)
    ensures Field(ctMark, 0xfff800) == 0 <==> ctMark / 0x800 % 0x2000 == 0
  {
    ModuleMask();
    FieldValue(ctMark, 13);
    ShrEleven(ctMark);
    assert Pow2(13) == 0x2000;
  }

  /** The conntrack handler looks at the connection, as far as it is the mark that decides. */
  ghost predicate Seen(c: Conn, mark: uint32) {
    c.Conn? && c.ipv4 && !c.untracked && c.ctMark == mark ==> exists ip :: About(c, ip)
  }

  /** The handler sees the connections of every mark the allocator can issue exactly when max_ip_cnt < 2^13. */
  lemma AllMarksSeenIff(n: nat)
    requires n < MAX_SPEC
    ensures (forall off, c {:trigger Seen(c, MarkOf(off))} | 1 <= off <= n :: Seen(c, MarkOf(off))) <==> n < 0x2000
  {
    forall off, c | 1 <= off <= n && n < 0x2000 ensures Seen(c, MarkOf(off)) {
      MarkRoundTrip(off);
      if c.Conn? && c.ipv4 && !c.untracked && c.ctMark == MarkOf(off) {
        assert About(c, if c.origDst == c.replySrc then c.origSrc else c.replySrc);
      }
    }
    if n >= 0x2000 {
      MarkRoundTrip(0x2000);
      assert !Seen(Conn(true, false, MarkOf(0x2000), 0, 0, 0), MarkOf(0x2000));
    }
  }

  // -- packets --

  lemma PacketGrants(s: State, ip: Ip, id: nat, nodeOk: bool)
    requires Own(s) && PacketOk(s, ip, id)
    ensures var o := Packet(s, ip, id, nodeOk);
            o.code == OK <==> ip in o.state.table
    ensures var o := Packet(s, ip, id, nodeOk);
            o.code == OK ==> o.mark == o.state.table[ip].mark
    ensures Own(Packet(s, ip, id, nodeOk).state)
  {
    LiveMarkNonzero(s, ip);
    PacketOwn(s, ip, id, nodeOk);
    if ip !in s.table {
      Granted(s, ip, id, nodeOk);
      if AllocAuto(s, ip, id, nodeOk).code != OK { RefusalChangesNothing(s, ip, id, nodeOk); }
    }
  }

  /**
   * A packet step: on success the masked field of the packet is the nonzero mark that the table now
   * holds for the address and the other bits are untouched; on refusal the packet is unchanged.
   */
  lemma PacketMerged(s: State, ip: Ip, id: nat, nodeOk: bool, skbMark: uint32, len: nat)
    requires Own(s) && PacketOk(s, ip, id) && len <= 21 && |s.bits| < Pow2(len)
    ensures var o, mask := Packet(s, ip, id, nodeOk), FieldMask(len);
            var m := Handled(skbMark, mask, o);
            if o.code == OK then
              && ip in o.state.table && Field(m, mask) == o.state.table[ip].mark != 0
              && SameRest(m, skbMark, mask)
            else m == skbMark
  {
    var o, mask := Packet(s, ip, id, nodeOk), FieldMask(len);
    PacketGrants(s, ip, id, nodeOk);
    StepStructural(s, PacketOp(ip, id, nodeOk));
    if o.code == OK {
      EntryMarkUnder(o.state, ip, len);
      MergeField(skbMark, mask, o.mark);
      MergeKeepsRestIff(skbMark, mask, o.mark);
    }
  }

  lemma EntryMarkUnder(s: State, ip: Ip, len: nat)
    requires Own(s) && ip in s.table && len <= 21 && |s.bits| < Pow2(len)
    ensures Under(s.table[ip].mark, FieldMask(len))
  {
    var off := OffsetOf(s.table[ip].mark);
    assert EntryOk(s, ip);
    assert s.table[ip].mark == MarkOf(off);
    MarkUnderIff(off, len);
  }

  /** Packets of two live addresses get one field value exactly when one share rule owns both addresses. */
  lemma FieldsAgreeIff(s: State, p: Ip, q: Ip, skb1: uint32, skb2: uint32, len: nat)
    requires Own(s) && p in s.table && q in s.table && len <= 21 && |s.bits| < Pow2(len)
    ensures var mask := FieldMask(len);
            Field(Merge(skb1, mask, s.table[p].mark), mask) == Field(Merge(skb2, mask, s.table[q].mark), mask)
            <==> p == q || (s.table[p].id == s.table[q].id && !IsPrivate(s.rules[s.table[p].id - 1]))
  {
    EntryMarkUnder(s, p, len);
    EntryMarkUnder(s, q, len);
    MergeField(skb1, FieldMask(len), s.table[p].mark);
    MergeField(skb2, FieldMask(len), s.table[q].mark);
    MarksAgreeIff(s, p, q);
  }

  lemma MarksAgreeIff(s: State, p: Ip, q: Ip)
    requires Own(s) && p in s.table && q in s.table
    ensures s.table[p].mark == s.table[q].mark
            <==> p == q || (s.table[p].id == s.table[q].id && !IsPrivate(s.rules[s.table[p].id - 1]))
  {
    assert EntryOk(s, p) && EntryOk(s, q) && Apart(s, p, q);
  }

  /** Along a run, every packet of an address gets the same mark for as long as its entry stays. */
  lemma MarkStable(tr: seq<State>, ops: seq<Op>, ip: Ip, i: nat, j: nat)
    requires IsRun(tr, ops) && Own(tr[0]) && (forall op | op in ops :: IsTraffic(op)) && i < j < |ops|
    requires ops[i].PacketOp? && ops[i].ip == ip && ops[j].PacketOp? && ops[j].ip == ip
    requires forall k | i < k <= j :: ip in tr[k].table
    ensures StepsTo(tr[i], ops[i], tr[i + 1]) && StepsTo(tr[j], ops[j], tr[j + 1])
    ensures Step(tr[i], ops[i]).code == OK && Step(tr[j], ops[j]).code == OK
    ensures Step(tr[i], ops[i]).mark == Step(tr[j], ops[j]).mark
  {
    TrafficOwn(tr, ops);
    TrafficMoves(tr, ops, ip);
    assert StepsTo(tr[i], ops[i], tr[i + 1]) && StepsTo(tr[j], ops[j], tr[j + 1]);
    PacketGrants(tr[i], ip, ops[i].id, ops[i].nodeOk);
    PacketGrants(tr[j], ip, ops[j].id, ops[j].nodeOk);
    MarkKept(tr, ops, ip, i + 1, j);
    LiveMarkNonzero(tr[j], ip);
  }

  lemma {:induction false} MarkKept(tr: seq<State>, ops: seq<Op>, ip: Ip, i: nat, j: nat)
    requires Moving(tr, ops, ip) && i <= j < |tr|
    requires forall k | i <= k <= j :: ip in tr[k].table
    ensures tr[j].table[ip].mark == tr[i].table[ip].mark && tr[j].table[ip].id == tr[i].table[ip].id
    decreases j
  {
    if i == j {
    } else {
      MarkKept(tr, ops, ip, i, j - 1);
      assert Moves(tr[j - 1], ops[j - 1], tr[j], ip);
    }
  }
}
