// Identifiers of traffic-control objects, and the messages sent for one rule
// (kmod/qos_marktbl_tc.c). A handle is 16 bits of major number and 16 of minor.

module TcIds {
  import opened Word32

  const TC_MAX_IP_CNT: nat := 4096

  /** mark_offset << MARK_BASE, that is 11, truncated to 32 bits */
  function MarkOf(offset: nat): uint32 { offset * 0x800 % 0x1_0000_0000 }

  /** mark >> MARK_BASE */
  function OffsetOf(mark: uint32): nat { mark / 0x800 }

  /** (1 << 16) | x */
  function Major1(x: uint32): uint32 {
    if x / 0x1_0000 % 2 == 1 then x else (x + 0x1_0000) % 0x1_0000_0000
  }

  /** The minor number of the leaf class of a mark. */
  function LeafMinor(devid: uint32, offset: nat): uint32 {
    if devid == 0 then (offset + 1) % 0x1_0000_0000 else ((devid + 1) * 4096 + offset) % 0x1_0000_0000
  }

  /** The minor number of the inner class above the leaves of a device. */
  function ParentMinor(devid: uint32): uint32 {
    if devid == 0 then 1 else (devid + 1) % 0x1_0000_0000
  }

  function LeafId(devid: uint32, mark: uint32): uint32 { Major1(LeafMinor(devid, OffsetOf(mark))) }

  function ParentId(devid: uint32): uint32 { Major1(ParentMinor(devid)) }

  /** The handle of the queue below the leaf: the leaf's minor as a major number. */
  function QueueId(devid: uint32, mark: uint32): uint32 {
    LeafMinor(devid, OffsetOf(mark)) * 0x1_0000 % 0x1_0000_0000
  }

  // -- messages --

  datatype Dev = Lan | Wan

  datatype TcMsg =
    | NewClass(dev: Dev, handle: uint32, parent: uint32, rate: uint32, ceil: uint32)
    | DelClass(dev: Dev, handle: uint32, parent: uint32)
    | NewQdisc(dev: Dev, handle: uint32, parent: uint32)
    | NewFilter(dev: Dev, mark: uint32, flowid: uint32)
    | DelFilter(dev: Dev, mark: uint32, flowid: uint32)

  /** A row of the rule table; mode 0 is private, any other mode is share. */
  datatype Rule = Rule(mode: uint32, mark: uint32, count: int, on: bool, devid: uint32,
                       rate: uint32, rateMate: uint32, rateMin: uint32, rateMinMate: uint32)

  /** qmark_tc_add_rule: class, queue, filter; each on the LAN device and then on the WAN device. */
  function AddMsgs(r: Rule, mark: uint32): seq<TcMsg> {
    var leaf, parent := LeafId(r.devid, mark), ParentId(r.devid);
    [NewClass(Lan, leaf, parent, r.rateMinMate, r.rateMate),
     NewClass(Wan, leaf, parent, r.rateMin, r.rate),
     NewQdisc(Lan, QueueId(r.devid, mark), leaf),
     NewQdisc(Wan, QueueId(r.devid, mark), leaf),
     NewFilter(Lan, mark, leaf),
     NewFilter(Wan, mark, leaf)]
  }

  /** qmark_tc_del_rule: the filters go before the classes they point to. */
  function DelMsgs(r: Rule, mark: uint32): seq<TcMsg> {
    var leaf, parent := LeafId(r.devid, mark), ParentId(r.devid);
    [DelFilter(Lan, mark, leaf),
     DelFilter(Wan, mark, leaf),
     DelClass(Lan, leaf, parent),
     DelClass(Wan, leaf, parent)]
  }

  /** y is x with bit 16 set. */
  predicate WithBit16(x: uint32, y: uint32) {
    y % 65536 == x % 65536 && y / 65536 % 2 == 1 && y / 131072 == x / 131072
  }

  lemma Major1Sets(x: uint32)
    ensures WithBit16(x, Major1(x))
  {
  }

  /** The number of the leaf of a mark below a device, and of the class above the leaves, in 32 bits. */
  function LeafNumber(devid: uint32, mark: uint32): uint32 {
    if devid == 0 then mark / 2048 + 1 else ((devid + 1) * 4096 + mark / 2048) % 0x1_0000_0000
  }

  function ParentNumber(devid: uint32): uint32 { if devid == 0 then 1 else (devid + 1) % 0x1_0000_0000 }

  /**
   * An announcement is class, queue and filter, each on the LAN and then on the WAN device. The class hangs
   * below the class of its device number; the queue below the class, with the leaf's number as its major
   * number; the filter sends the mark to the class. LAN classes have the rates of the mate.
   */
  lemma AnnouncementReads(r: Rule, mark: uint32)
    ensures var ms, leaf, parent := AddMsgs(r, mark), LeafId(r.devid, mark), ParentId(r.devid);
            var queue := 65536 * (LeafNumber(r.devid, mark) % 65536);
            && WithBit16(LeafNumber(r.devid, mark), leaf) && WithBit16(ParentNumber(r.devid), parent)
            && |ms| == 6
            && ms[0] == NewClass(Lan, leaf, parent, r.rateMinMate, r.rateMate)
            && ms[1] == NewClass(Wan, leaf, parent, r.rateMin, r.rate)
            && ms[2] == NewQdisc(Lan, queue, leaf) && ms[3] == NewQdisc(Wan, queue, leaf)
            && ms[4] == NewFilter(Lan, mark, leaf) && ms[5] == NewFilter(Wan, mark, leaf)
  {
    Major1Sets(LeafNumber(r.devid, mark));
    Major1Sets(ParentNumber(r.devid));
    ShiftDrops(LeafNumber(r.devid, mark));
    LeafNumberIs(r.devid, mark);
  }

  lemma LeafNumberIs(devid: uint32, mark: uint32)
    ensures LeafNumber(devid, mark) == LeafMinor(devid, OffsetOf(mark)) && ParentNumber(devid) == ParentMinor(devid)
  {
  }

  lemma ShiftDrops(x: uint32)
    ensures x * 0x1_0000 % 0x1_0000_0000 == 65536 * (x % 65536)
  {
    assert x == 65536 * (x / 65536) + x % 65536;
    assert x * 0x1_0000 == 0x1_0000_0000 * (x / 65536) + 65536 * (x % 65536);
  }

  /** Taking a mark down names the same filter and the same class, the filters first. */
  lemma RemovalReads(r: Rule, mark: uint32)
    ensures var ms, added := DelMsgs(r, mark), AddMsgs(r, mark);
            && |ms| == 4
            && ms[0] == DelFilter(Lan, mark, added[4].flowid) && ms[1] == DelFilter(Wan, mark, added[5].flowid)
            && ms[2] == DelClass(Lan, added[0].handle, added[0].parent) && ms[3] == DelClass(Wan, added[1].handle, added[1].parent)
  {
  }

  // -- marks --

  /** Below 2^21 the encoding of offsets as marks loses nothing and never yields 0. */
  lemma MarkRoundTrip(offset: nat)
    requires 1 <= offset < 0x20_0000
    ensures OffsetOf(MarkOf(offset)) == offset && MarkOf(offset) != 0
  {
  }

  /**
   * The allocator's marks 1..n are all nonzero and distinct exactly when n < 2^21.
   * Offset 2^21 would be truncated to mark 0, which the callers read as a failure.
   */
  lemma MarksDistinctIff(n: nat)
    ensures n < 0x20_0000 <==>
            && (forall i | 1 <= i <= n :: MarkOf(i) != 0)
            && (forall i, j | 1 <= i < j <= n :: MarkOf(i) != MarkOf(j))
  {
    if n < 0x20_0000 {
      forall i | 1 <= i <= n ensures OffsetOf(MarkOf(i)) == i && MarkOf(i) != 0 {
        MarkRoundTrip(i);
      }
    } else {
      assert MarkOf(0x20_0000) == 0;
    }
  }

  // -- identifiers --

  /** On the specified range a leaf id determines the device number and the offset. */
  lemma LeafIdInjective(d1: uint32, o1: nat, d2: uint32, o2: nat)
    requires d1 <= 13 && d2 <= 13 && 1 <= o1 <= TC_MAX_IP_CNT && 1 <= o2 <= TC_MAX_IP_CNT
    requires Major1(LeafMinor(d1, o1)) == Major1(LeafMinor(d2, o2))
    ensures d1 == d2 && o1 == o2
  {
    LeafMinorReserved(d1, o1);
    LeafMinorReserved(d2, o2);
    assert LeafMinor(d1, o1) == LeafMinor(d2, o2);
    if d1 != 0 && d2 != 0 {
      assert (d1 + 1) * TC_MAX_IP_CNT + o1 == (d2 + 1) * TC_MAX_IP_CNT + o2;
    }
  }

  /** The handle of a queue determines the device number and the offset, too. */
  lemma QueueIdInjective(d1: uint32, o1: nat, d2: uint32, o2: nat)
    requires d1 <= 13 && d2 <= 13 && 1 <= o1 <= TC_MAX_IP_CNT && 1 <= o2 <= TC_MAX_IP_CNT
    requires LeafMinor(d1, o1) * 0x1_0000 % 0x1_0000_0000 == LeafMinor(d2, o2) * 0x1_0000 % 0x1_0000_0000
    ensures d1 == d2 && o1 == o2
  {
    LeafMinorReserved(d1, o1);
    LeafMinorReserved(d2, o2);
    SmallProduct(LeafMinor(d1, o1));
    SmallProduct(LeafMinor(d2, o2));
    LeafIdInjective(d1, o1, d2, o2);
  }

  lemma SmallProduct(x: nat)
    requires x < 0x1_0000
    ensures x * 0x1_0000 % 0x1_0000_0000 == x * 0x1_0000
  {
  }

  /** A leaf minor fits 16 bits and is neither the root class 1 nor the default class 0xffff. */
  lemma LeafMinorReserved(d: uint32, o: nat)
    requires d <= 13 && 1 <= o <= TC_MAX_IP_CNT
    ensures 1 < LeafMinor(d, o) < 0xffff
    ensures Major1(LeafMinor(d, o)) == 0x1_0000 + LeafMinor(d, o)
  {
  }

  /** The ids of all leaves with device numbers 0..13 and offsets 1..n are distinct exactly when n <= 4096. */
  lemma LeafIdsDistinctIff(n: nat)
    ensures n <= TC_MAX_IP_CNT <==>
            forall d1: uint32, o1, d2: uint32, o2 ::
              d1 <= 13 && d2 <= 13 && 1 <= o1 <= n && 1 <= o2 <= n && (d1 != d2 || o1 != o2)
              ==> Major1(LeafMinor(d1, o1)) != Major1(LeafMinor(d2, o2))
  {
    if n <= TC_MAX_IP_CNT {
      forall d1: uint32, o1, d2: uint32, o2 |
        d1 <= 13 && d2 <= 13 && 1 <= o1 <= n && 1 <= o2 <= n &&
        Major1(LeafMinor(d1, o1)) == Major1(LeafMinor(d2, o2))
        ensures d1 == d2 && o1 == o2
      {
        LeafIdInjective(d1, o1, d2, o2);
      }
    } else {
      assert Major1(LeafMinor(1, 4097)) == Major1(LeafMinor(2, 1));
    }
  }

  /**
   * A leaf never carries the minor of an inner class, except below device number 0:
   * there offset p-1 falls on the inner class of device number p-1.
   */
  lemma LeafIsInnerIff(d: uint32, o: nat, p: uint32)
    requires d <= 13 && 1 <= o <= TC_MAX_IP_CNT && p <= 13
    ensures LeafMinor(d, o) == ParentMinor(p) <==> d == 0 && p > 0 && o == p
  {
  }
}
