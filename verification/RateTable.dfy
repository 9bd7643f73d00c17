// The rate tables of an HTB class: qmark_tc_calc_rtable and tc_htb_opt_parse of
// kmod/qos_marktbl_tc.c, in 32-bit unsigned arithmetic. ticks is the number of scheduler
// ticks in a millisecond, PSCHED_NS2TICKS(NSEC_PER_MSEC).

module RateTable {
  import opened Word32

  const ENTRIES: nat := 256
  const DEFAULT_MTU: uint32 := 2047
  const MIN_RATE: uint32 := 125
  const MAX_CEIL: uint32 := 125000000

  /** The packet size that entry i stands for, without truncation. */
  function CellSize(i: nat, cellLog: nat): nat { (i + 1) * Pow2(cellLog) }

  /** An entry as computed: every product is truncated to 32 bits. */
  function Entry(sz: uint32, ticks: uint32, bps: uint32): uint32
    requires bps >= 10
  {
    (100 * sz % 0x1_0000_0000) * ticks % 0x1_0000_0000 / (bps / 10)
  }

  /** An entry in exact arithmetic. */
  function ExactEntry(sz: nat, ticks: nat, bps: nat): nat
    requires bps >= 10
  {
    100 * sz * ticks / (bps / 10)
  }

  /** The loop that picks the cell size: the least shift that brings the mtu to at most 255. */
  method PickCellLog(mtu: uint32) returns (cellLog: nat)
    ensures IsCellLog(mtu, cellLog) && cellLog <= 24
  {
    cellLog := 0;
    Pow2Of32();
    while Shr(mtu, cellLog) > 255
      invariant forall j | 0 <= j < cellLog :: Shr(mtu, j) > 255
      invariant cellLog <= 24
      decreases 24 - cellLog
    {
      ShrSmall(mtu, cellLog);
      cellLog := cellLog + 1;
    }
  }

  lemma {:induction false} ShrBound(x: nat, n: nat, k: nat)
    requires x < Pow2(n) && k <= n
    ensures Shr(x, k) < Pow2(n - k)
    decreases k
  {
    if k == 0 {
    } else {
      ShrBound(x / 2, n - 1, k - 1);
    }
  }

  lemma ShrSmall(mtu: uint32, k: nat)
    requires Shr(mtu, k) > 255 && k <= 24
    ensures k < 24
  {
    Pow2Of32();
    assert Pow2(8) == 256;
    ShrBound(mtu, 32, k);
  }

  /** cellLog is the least shift that brings the mtu to at most 255. */
  predicate IsCellLog(mtu: uint32, cellLog: nat) {
    Shr(mtu, cellLog) <= 255 && forall j | 0 <= j < cellLog :: Shr(mtu, j) > 255
  }

  /** The packet size that the loop charges for entry i. */
  function ChargedSize(i: nat, cellLog: nat, mpu: uint32): uint32 {
    var sz := CellSize(i, cellLog) % 0x1_0000_0000;
    if sz < mpu then mpu else sz
  }

  function EffectiveMtu(mtu: uint32): uint32 { if mtu == 0 then DEFAULT_MTU else mtu }

  lemma QuotientFits(x: nat, d: nat)
    requires d > 0
    ensures 0 <= x / d <= x
  {
    var q := x / d;
    assert x == d * q + x % d;
    MulLe(1, d, q);
  }

  /** qmark_tc_calc_rtable with no cell size given. */
  method CalcRtable(rtab: array<uint32>, bps: uint32, mpu: uint32, mtu0: uint32, ticks: uint32) returns (cellLog: nat)
    requires rtab.Length == ENTRIES && bps >= 10
    modifies rtab
    ensures IsCellLog(EffectiveMtu(mtu0), cellLog)
    ensures forall i | 0 <= i < ENTRIES :: rtab[i] == Entry(ChargedSize(i, cellLog, mpu), ticks, bps)
  {
    var mtu := mtu0;
    if mtu == 0 {
      mtu := DEFAULT_MTU;
    }
    cellLog := PickCellLog(mtu);
    var i := 0;
    while i < ENTRIES
      invariant i <= ENTRIES
      invariant forall k | 0 <= k < i :: rtab[k] == Entry(ChargedSize(k, cellLog, mpu), ticks, bps)
    {
      var sz := CellSize(i, cellLog) % 0x1_0000_0000;
      if sz < mpu {
        sz := mpu;
      }
      QuotientFits((100 * sz % 0x1_0000_0000) * ticks % 0x1_0000_0000, bps / 10);
      rtab[i] := (100 * sz % 0x1_0000_0000) * ticks % 0x1_0000_0000 / (bps / 10);
      i := i + 1;
    }
  }

  // -- when nothing overflows --

  lemma ProductWraps(a: nat, t: nat)
    ensures (a % 0x1_0000_0000) * t % 0x1_0000_0000 == a * t % 0x1_0000_0000
  {
    var q, r := a / 0x1_0000_0000, a % 0x1_0000_0000;
    assert a * t == 0x1_0000_0000 * (q * t) + r * t;
    ModShift(r * t, q * t);
  }

  lemma ModShift(x: int, k: int)
    ensures (x + 0x1_0000_0000 * k) % 0x1_0000_0000 == x % 0x1_0000_0000
  {
  }

  lemma ExactIff(i: nat, cellLog: nat, ticks: uint32)
    requires i < ENTRIES
    ensures Exact(i, cellLog, ticks) <==> 100 * CellSize(i, cellLog) * ticks < W32
    ensures 100 * CellSize(i, cellLog) * ticks <= 100 * CellSize(255, cellLog) * ticks
  {
    var sz, last := CellSize(i, cellLog), CellSize(255, cellLog);
    ProductWraps(100 * sz, ticks);
    MulLe(i + 1, 256, Pow2(cellLog));
    MulLe(100 * sz, 100 * last, ticks);
  }

  /** The truncated products are the exact ones for all 256 entries exactly when the last one fits 32 bits. */
  lemma NoOverflowIff(cellLog: nat, ticks: uint32)
    ensures (forall i | 0 <= i < ENTRIES :: Exact(i, cellLog, ticks)) <==> 100 * CellSize(255, cellLog) * ticks < W32
  {
    forall i | 0 <= i < ENTRIES
      ensures Exact(i, cellLog, ticks) <==> 100 * CellSize(i, cellLog) * ticks < W32
      ensures 100 * CellSize(i, cellLog) * ticks <= 100 * CellSize(255, cellLog) * ticks
    {
      ExactIff(i, cellLog, ticks);
    }
    assert Exact(255, cellLog, ticks) <==> 100 * CellSize(255, cellLog) * ticks < W32;
  }

  predicate Exact(i: nat, cellLog: nat, ticks: uint32) {
    (100 * CellSize(i, cellLog) % 0x1_0000_0000) * ticks % 0x1_0000_0000 == 100 * CellSize(i, cellLog) * ticks
  }

  lemma MulLe(a: nat, b: nat, c: nat)
    requires a <= b
    ensures a * c <= b * c
  {
  }

  // -- what a table without overflow says --

  /** The last entry covers the mtu. */
  lemma CoversMtu(mtu: uint32, cellLog: nat)
    requires Shr(mtu, cellLog) <= 255
    ensures mtu < CellSize(255, cellLog)
  {
  }

  lemma {:induction false} ShrLower(x: nat, k: nat)
    ensures x < (Shr(x, k) + 1) * Pow2(k)
    decreases k
  {
    if k == 0 {
    } else {
      ShrLower(x / 2, k - 1);
      assert (Shr(x, k) + 1) * Pow2(k) == 2 * ((Shr(x / 2, k - 1) + 1) * Pow2(k - 1));
    }
  }

  /** Entries never decrease with the packet size. */
  lemma Monotone(sz1: nat, sz2: nat, ticks: nat, bps: nat)
    requires bps >= 10 && sz1 <= sz2
    ensures ExactEntry(sz1, ticks, bps) <= ExactEntry(sz2, ticks, bps)
  {
    MulLe(100 * sz1, 100 * sz2, ticks);
    DivLe(100 * sz1 * ticks, 100 * sz2 * ticks, bps / 10);
  }

  lemma DivLe(x: nat, y: nat, d: nat)
    requires x <= y && d > 0
    ensures x / d <= y / d
  {
    var q, r := x / d, y / d;
    assert x == q * d + x % d && y == r * d + y % d;
    assert (r + 1) * d == r * d + d;
    if q > r { MulLe(r + 1, q, d); }
  }

  /**
   * Against the ideal transmission time 1000 * sz * ticks / bps, an entry is short by less than one
   * tick and long by at most the factor bps / (bps - 9), both stated without division.
   */
  lemma Accuracy(sz: nat, ticks: nat, bps: nat)
    requires bps >= 10
    ensures 1000 * sz * ticks < (ExactEntry(sz, ticks, bps) + 1) * bps
    ensures ExactEntry(sz, ticks, bps) * (bps - 9) <= 1000 * sz * ticks
  {
    var x, d := 100 * sz * ticks, bps / 10;
    var e := x / d;
    assert x == e * d + x % d;
    assert 10 * d <= bps <= 10 * d + 9;
    assert 1000 * sz * ticks == 10 * x;
    assert (e + 1) * d == e * d + d;
    MulLe(10 * d, bps, e + 1);
    assert (10 * d) * (e + 1) == 10 * ((e + 1) * d);
    assert bps * (e + 1) == (e + 1) * bps;
    MulLe(bps - 9, 10 * d, e);
    assert (bps - 9) * e == e * (bps - 9);
    assert (10 * d) * e == 10 * (e * d);
  }

  // -- rates --

  /** kbit/s to bytes per second, truncated like the C product; 0 stands for a default. */
  function Bps(kbit: uint32, fallback: uint32): uint32 {
    var b := kbit * 1000 % 0x1_0000_0000 / 8;
    if b == 0 then fallback else b
  }

  /** Up to 4294967 kbit/s the product does not overflow, and the divisor of the table is at least 12. */
  lemma RateInRange(kbit: uint32)
    requires kbit <= 4294967
    ensures kbit > 0 ==> Bps(kbit, MIN_RATE) == 125 * kbit
    ensures Bps(kbit, MIN_RATE) / 10 >= 12 && Bps(kbit, MAX_CEIL) / 10 >= 12
  {
  }

  /** The divisor of a table is zero exactly when the truncated product leaves 1 to 9 bytes per second. */
  lemma DivisorZeroIff(kbit: uint32, fallback: uint32)
    requires fallback >= 10
    ensures Bps(kbit, fallback) / 10 == 0 <==> 8 <= kbit * 1000 % 0x1_0000_0000 < 80
  {
  }

  /** Such a rate exists: this one is truncated to one byte per second. */
  lemma DivisorZeroInput()
    ensures Bps(115964117, MIN_RATE) / 10 == 0 && Bps(115964117, MAX_CEIL) / 10 == 0
  {
  }

  // -- the tables of a class --

  /** A correct rate table: exact, non-decreasing, within a tick below and a factor above the ideal times. */
  ghost predicate GoodTable(rtab: seq<uint32>, cellLog: nat, mtu: uint32, ticks: uint32, bps: nat)
    requires bps >= 10
  {
    && |rtab| == ENTRIES && mtu < CellSize(255, cellLog)
    && (forall i, j | 0 <= i <= j < ENTRIES :: rtab[i] <= rtab[j])
    && forall i | 0 <= i < ENTRIES ::
         && 1000 * CellSize(i, cellLog) * ticks < (rtab[i] + 1) * bps
         && rtab[i] * (bps - 9) <= 1000 * CellSize(i, cellLog) * ticks
  }

  /**
   * The entry for a packet size is the quotient of the product 100 * size * ticks, cut to 32 bits, by a
   * tenth of the rate, rounded down.
   */
  ghost predicate IsQuotient(e: nat, size: nat, ticks: nat, bps: nat) {
    e * (bps / 10) <= 100 * size * ticks % 0x1_0000_0000 < (e + 1) * (bps / 10)
  }

  /** That is so for any cell size and any number of ticks, overflow or not; sizes below the minimum are charged as that. */
  lemma EntryIsQuotient(i: nat, cellLog: nat, mpu: uint32, ticks: uint32, bps: uint32)
    requires bps >= 10
    ensures var size := (i + 1) * Pow2(cellLog);
            IsQuotient(Entry(ChargedSize(i, cellLog, mpu), ticks, bps), if size % 0x1_0000_0000 < mpu then mpu else size, ticks, bps)
  {
    var sz := CellSize(i, cellLog);
    ProductWraps(100 * ChargedSize(i, cellLog, mpu), ticks);
    SizeWraps(sz, ticks);
    Quotient(100 * ChargedSize(i, cellLog, mpu) * ticks % 0x1_0000_0000, bps / 10);
  }

  lemma SizeWraps(sz: nat, ticks: nat)
    ensures 100 * (sz % 0x1_0000_0000) * ticks % 0x1_0000_0000 == 100 * sz * ticks % 0x1_0000_0000
  {
    var q, r := sz / 0x1_0000_0000, sz % 0x1_0000_0000;
    assert 100 * sz * ticks == 100 * r * ticks + 0x1_0000_0000 * (100 * q * ticks) by {
      assert sz == 0x1_0000_0000 * q + r;
    }
    ModShift(100 * r * ticks, 100 * q * ticks);
  }

  lemma Quotient(x: nat, d: nat)
    requires d > 0
    ensures x / d * d <= x < (x / d + 1) * d
  {
    assert x == x / d * d + x % d;
    assert (x / d + 1) * d == x / d * d + d;
  }

  /** The cell size is the least power of two of which 256 are more than the mtu. */
  predicate LeastCell(mtu: uint32, cellLog: nat) {
    mtu < 256 * Pow2(cellLog) && (cellLog > 0 ==> 256 * Pow2(cellLog - 1) <= mtu)
  }

  lemma CellIsLeast(mtu: uint32, cellLog: nat)
    requires IsCellLog(mtu, cellLog)
    ensures LeastCell(mtu, cellLog)
  {
    CoversMtu(mtu, cellLog);
    if cellLog > 0 {
      assert Shr(mtu, cellLog - 1) > 255;
      ShrUpper(mtu, cellLog - 1);
      MulLe(256, Shr(mtu, cellLog - 1), Pow2(cellLog - 1));
    }
  }

  lemma {:induction false} ShrUpper(x: nat, k: nat)
    ensures Shr(x, k) * Pow2(k) <= x
    decreases k
  {
    if k == 0 {
    } else {
      ShrUpper(x / 2, k - 1);
      assert Shr(x, k) * Pow2(k) == 2 * (Shr(x / 2, k - 1) * Pow2(k - 1));
    }
  }

  /** As long as the last product fits 32 bits the table is correct, for any mtu. */
  lemma TableIsGood(rtab: seq<uint32>, cellLog: nat, mtu: uint32, ticks: uint32, bps: uint32)
    requires |rtab| == ENTRIES && bps >= 10 && IsCellLog(mtu, cellLog)
    requires 100 * CellSize(255, cellLog) * ticks < W32
    requires forall i | 0 <= i < ENTRIES :: rtab[i] == Entry(ChargedSize(i, cellLog, 0), ticks, bps)
    ensures GoodTable(rtab, cellLog, mtu, ticks, bps)
  {
    CoversMtu(mtu, cellLog);
    forall i | 0 <= i < ENTRIES ensures rtab[i] == ExactEntry(CellSize(i, cellLog), ticks, bps) {
      EntryIsExact(i, cellLog, ticks, bps);
    }
    forall i | 0 <= i < ENTRIES
      ensures 1000 * CellSize(i, cellLog) * ticks < (rtab[i] + 1) * bps
      ensures rtab[i] * (bps - 9) <= 1000 * CellSize(i, cellLog) * ticks
    {
      Accuracy(CellSize(i, cellLog), ticks, bps);
    }
    forall i, j | 0 <= i <= j < ENTRIES ensures rtab[i] <= rtab[j] {
      MulLe(i + 1, j + 1, Pow2(cellLog));
      Monotone(CellSize(i, cellLog), CellSize(j, cellLog), ticks, bps);
    }
  }

  lemma EntryIsExact(i: nat, cellLog: nat, ticks: uint32, bps: uint32)
    requires i < ENTRIES && bps >= 10 && 100 * CellSize(255, cellLog) * ticks < W32
    ensures Entry(ChargedSize(i, cellLog, 0), ticks, bps) == ExactEntry(CellSize(i, cellLog), ticks, bps)
  {
    ExactIff(i, cellLog, ticks);
    if ticks > 0 {
      CellFits(i, cellLog, ticks);
    } else {
      NoTicks(ChargedSize(i, cellLog, 0), CellSize(i, cellLog), bps);
    }
  }

  lemma CellFits(i: nat, cellLog: nat, ticks: nat)
    requires ticks > 0 && 100 * CellSize(i, cellLog) * ticks < W32
    ensures ChargedSize(i, cellLog, 0) == CellSize(i, cellLog)
  {
    Factor(100 * CellSize(i, cellLog), ticks);
  }

  lemma NoTicks(sz: uint32, exact: nat, bps: uint32)
    requires bps >= 10
    ensures Entry(sz, 0, bps) == 0 && ExactEntry(exact, 0, bps) == 0
  {
  }

  lemma Factor(a: nat, b: nat)
    requires b > 0
    ensures a <= a * b
  {
  }

  /** With the default mtu, or any smaller one, that is the case up to 20971 ticks in a millisecond. */
  lemma SmallMtuFits(mtu: uint32, cellLog: nat, ticks: uint32)
    requires IsCellLog(mtu, cellLog) && mtu <= DEFAULT_MTU && 100 * 2048 * ticks < W32
    ensures 100 * CellSize(255, cellLog) * ticks < W32
  {
    assert Pow2(11) == 2048;
    ShrBound(mtu, 11, 3);
    assert Pow2(8) == 256;
    assert Shr(mtu, 3) <= 255;
    assert Pow2(3) == 8 && Pow2(2) == 4 && Pow2(1) == 2 && Pow2(0) == 1;
    MulLe(100 * CellSize(255, cellLog), 100 * 2048, ticks);
  }

  /** The numeric part of tc_htb_opt_parse: the rates, the two tables, their cell size and the token buffers. */
  method HtbOptions(kbit: uint32, ceilKbit: uint32, mtu: uint32, ticks: uint32)
    returns (rate: uint32, ceil: uint32, rtab: array<uint32>, ctab: array<uint32>, cellLog: nat, buffer: uint32)
    requires Bps(kbit, MIN_RATE) >= 10 && Bps(ceilKbit, MAX_CEIL) >= 10
    ensures fresh(rtab) && fresh(ctab) && rtab.Length == ctab.Length == ENTRIES
    ensures rate == Bps(kbit, MIN_RATE) && ceil == Bps(ceilKbit, MAX_CEIL) && buffer == 20 * ticks % 0x1_0000_0000
    ensures IsCellLog(EffectiveMtu(mtu), cellLog)
    ensures forall i | 0 <= i < ENTRIES :: IsQuotient(rtab[i], (i + 1) * Pow2(cellLog), ticks, rate)
    ensures forall i | 0 <= i < ENTRIES :: IsQuotient(ctab[i], (i + 1) * Pow2(cellLog), ticks, ceil)
    ensures 100 * CellSize(255, cellLog) * ticks < W32 ==>
              && GoodTable(rtab[..], cellLog, EffectiveMtu(mtu), ticks, rate)
              && GoodTable(ctab[..], cellLog, EffectiveMtu(mtu), ticks, ceil)
  {
    rate := kbit * 1000 % 0x1_0000_0000 / 8;
    ceil := ceilKbit * 1000 % 0x1_0000_0000 / 8;
    if rate == 0 {
      rate := MIN_RATE;
    }
    if ceil == 0 {
      ceil := MAX_CEIL;
    }
    rtab, ctab := new uint32[ENTRIES](_ => 0), new uint32[ENTRIES](_ => 0);
    cellLog := CalcRtable(rtab, rate, 0, mtu, ticks);
    buffer := 20 * ticks % 0x1_0000_0000;
    var ccellLog := CalcRtable(ctab, ceil, 0, mtu, ticks);
    CellLogUnique(EffectiveMtu(mtu), cellLog, ccellLog);
    forall i | 0 <= i < ENTRIES
      ensures IsQuotient(rtab[i], (i + 1) * Pow2(cellLog), ticks, rate)
      ensures IsQuotient(ctab[i], (i + 1) * Pow2(cellLog), ticks, ceil)
    {
      EntryIsQuotient(i, cellLog, 0, ticks, rate);
      EntryIsQuotient(i, cellLog, 0, ticks, ceil);
    }
    if 100 * CellSize(255, cellLog) * ticks < W32 {
      TableIsGood(rtab[..], cellLog, EffectiveMtu(mtu), ticks, rate);
      TableIsGood(ctab[..], cellLog, EffectiveMtu(mtu), ticks, ceil);
    }
  }

  lemma CellLogUnique(mtu: uint32, k1: nat, k2: nat)
    requires IsCellLog(mtu, k1) && IsCellLog(mtu, k2)
    ensures k1 == k2
  {
  }
}
