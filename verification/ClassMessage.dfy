// The whole class message: tc_htb_opt_parse of kmod/qos_marktbl_tc.c computes the rate tables and
// packs them, and what a reader of the message finds in it.

module ClassMessage {
  import opened Word32
  import opened Model
  import opened Netlink
  import opened RateTable

  /** struct tc_ratespec without overhead and minimum packet size, after qmark_tc_calc_rtable. */
  function RateSpec(cellLog: uint8, rate: uint32): (b: seq<uint8>)
    ensures |b| == 12
  {
    [cellLog, 1, 0, 0, 0xff, 0xff, 0, 0] + LeBytes(rate)
  }

  /** struct tc_htb_opt */
  function HtbOpt(cellLog: uint8, rate: uint32, ceil: uint32, buffer: uint32): (b: seq<uint8>)
    ensures |b| == HTB_OPT_SIZE
  {
    RateSpec(cellLog, rate) + RateSpec(cellLog, ceil) + LeBytes(buffer) + LeBytes(buffer) + Bytes32([0, 0, 0])
  }

  /** What a reader finds in the parameters: cell size, link layer and cell alignment of both rates, the rates, the buffers, and zeros. */
  ghost predicate HoldsParms(opt: seq<uint8>, cellLog: nat, rate: nat, ceil: nat, buffer: nat) {
    && |opt| == 44
    && opt[0] == opt[12] == cellLog && opt[1] == opt[13] == 1
    && opt[2] == opt[3] == opt[14] == opt[15] == 0 && opt[4] == opt[5] == opt[16] == opt[17] == 0xff
    && opt[6] == opt[7] == opt[18] == opt[19] == 0
    && WordAt(opt, 8) == rate && WordAt(opt, 20) == ceil && WordAt(opt, 24) == WordAt(opt, 28) == buffer
    && WordAt(opt, 32) == WordAt(opt, 36) == WordAt(opt, 40) == 0
  }

  lemma HtbOptRead(cellLog: uint8, rate: uint32, ceil: uint32, buffer: uint32)
    ensures HoldsParms(HtbOpt(cellLog, rate, ceil, buffer), cellLog, rate, ceil, buffer)
  {
    var opt := HtbOpt(cellLog, rate, ceil, buffer);
    SameWord(opt, 8, LeBytes(rate));
    SameWord(opt, 20, LeBytes(ceil));
    SameWord(opt, 24, LeBytes(buffer));
    SameWord(opt, 28, LeBytes(buffer));
    ZeroWords();
    SameWord(opt, 32, LeBytes(0));
    SameWord(opt, 36, LeBytes(0));
    SameWord(opt, 40, LeBytes(0));
  }

  lemma ZeroWords()
    ensures Bytes32([0, 0, 0]) == LeBytes(0) + LeBytes(0) + LeBytes(0)
  {
    assert [0, 0, 0][..2] == [0, 0] && [0, 0][..1] == [0] && [0][..0] == [];
    assert Bytes32([0]) == LeBytes(0) && Bytes32([0, 0]) == LeBytes(0) + LeBytes(0);
  }

  lemma SameWord(b: seq<uint8>, i: nat, word: seq<uint8>)
    requires |word| == 4 && i + 4 <= |b| && b[i..i + 4] == word
    ensures WordAt(b, i) == WordAt(word, 0)
  {
    assert b[i] == word[0] && b[i + 1] == word[1] && b[i + 2] == word[2] && b[i + 3] == word[3];
  }

  /** A rate in kbit/s in bytes per second, as far as the product with 1000 fits 32 bits; 0 stands for a default. */
  function BytesPerSecond(kbit: nat, default: nat): nat {
    if kbit * 1000 % 0x1_0000_0000 < 8 then default else kbit * 1000 % 0x1_0000_0000 / 8
  }

  /** Word i of a table. */
  function Word(b: seq<uint8>, i: nat): uint32
    requires 4 * i + 4 <= |b|
  {
    WordAt(b, 4 * i)
  }

  /**
   * 256 words: the times that packets of up to (i + 1) * 2^cellLog bytes take at this rate, in ticks, by the
   * 32-bit arithmetic of the code.
   */
  ghost predicate IsTable(b: seq<uint8>, cellLog: nat, ticks: nat, bps: nat) {
    |b| == 1024 && forall i | 0 <= i < 256 :: IsQuotient(Word(b, i), (i + 1) * Pow2(cellLog), ticks, bps)
  }

  /** The words do not decrease, and are less than a tick below the real times and at most a factor above them. */
  ghost predicate IsGood(b: seq<uint8>, cellLog: nat, ticks: nat, bps: nat) {
    && |b| == 1024
    && (forall i, j | 0 <= i <= j < 256 :: Word(b, i) <= Word(b, j))
    && forall i | 0 <= i < 256 ::
         && 1000 * ((i + 1) * Pow2(cellLog)) * ticks < (Word(b, i) + 1) * bps
         && Word(b, i) * (bps - 9) <= 1000 * ((i + 1) * Pow2(cellLog)) * ticks
  }

  lemma TableRead(b: seq<uint8>, ws: seq<uint32>, cellLog: nat, ticks: nat, bps: nat)
    requires HoldsWords(b, ws) && |ws| == 256
    requires forall i | 0 <= i < 256 :: IsQuotient(ws[i], (i + 1) * Pow2(cellLog), ticks, bps)
    ensures IsTable(b, cellLog, ticks, bps)
  {
  }

  lemma GoodRead(b: seq<uint8>, ws: seq<uint32>, cellLog: nat, mtu: uint32, ticks: uint32, bps: nat)
    requires HoldsWords(b, ws) && bps >= 10 && GoodTable(ws, cellLog, mtu, ticks, bps)
    ensures IsGood(b, cellLog, ticks, bps)
  {
    forall i | 0 <= i < 256
      ensures 1000 * ((i + 1) * Pow2(cellLog)) * ticks < (Word(b, i) + 1) * bps
      ensures Word(b, i) * (bps - 9) <= 1000 * ((i + 1) * Pow2(cellLog)) * ticks
    {
      assert CellSize(i, cellLog) == (i + 1) * Pow2(cellLog) && Word(b, i) == ws[i];
    }
  }

  /**
   * tc_htb_class_modify for a new class, with tc_htb_opt_parse, on one device. A reader finds the kind
   * under type 1 and a nest under type 2, and in the nest the parameters under type 1, the table of the
   * ceil under type 3 and the table of the rate under type 4.
   */
  method BuildNewClass(kbit: uint32, ceilKbit: uint32, mtu: uint32, ticks: uint32) returns (r: Request, cellLog: uint8)
    requires Bps(kbit, MIN_RATE) >= 10 && Bps(ceilKbit, MAX_CEIL) >= 10
    ensures r.Valid() && Read(r.Body(), 1) == [0x68, 0x74, 0x62, 0]
    ensures LeastCell(if mtu == 0 then 2047 else mtu, cellLog)
    ensures var nest, rate, ceil := Read(r.Body(), 2), BytesPerSecond(kbit, 125), BytesPerSecond(ceilKbit, 125000000);
            && HoldsParms(Read(nest, 1), cellLog, rate, ceil, 20 * ticks % 0x1_0000_0000)
            && IsTable(Read(nest, 4), cellLog, ticks, rate) && IsTable(Read(nest, 3), cellLog, ticks, ceil)
            && (100 * (256 * Pow2(cellLog)) * ticks < 0x1_0000_0000 ==>
                  IsGood(Read(nest, 4), cellLog, ticks, rate) && IsGood(Read(nest, 3), cellLog, ticks, ceil))
  {
    var rate, ceil, rates, ceils, log, buffer := HtbOptions(kbit, ceilKbit, mtu, ticks);
    CellLogSmall(EffectiveMtu(mtu), log);
    CellIsLeast(EffectiveMtu(mtu), log);
    cellLog := log;
    HtbOptRead(cellLog, rate, ceil, buffer);
    r := BuildClass(true, HtbOpt(cellLog, rate, ceil, buffer), rates[..], ceils[..]);
    ghost var nest := Read(r.Body(), 2);
    TableRead(Read(nest, 4), rates[..], log, ticks, rate);
    TableRead(Read(nest, 3), ceils[..], log, ticks, ceil);
    if 100 * CellSize(255, log) * ticks < W32 {
      GoodRead(Read(nest, 4), rates[..], log, EffectiveMtu(mtu), ticks, rate);
      GoodRead(Read(nest, 3), ceils[..], log, EffectiveMtu(mtu), ticks, ceil);
    }
  }

  lemma CellLogSmall(mtu: uint32, cellLog: nat)
    requires IsCellLog(mtu, cellLog)
    ensures cellLog <= 24
  {
    if cellLog > 24 { ShrSmall(mtu, 24); }
  }
}
