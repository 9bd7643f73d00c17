// The value of hash_fn (kmod/qos_marktbl_main.c) in numbers and bits, without the operators of Hash.

module HashValue {
  import opened Word32
  import opened Hash

  /** Every bit of y is the sum modulo 2 of the bit of x at its place and of the one n places higher. */
  predicate Folded(x: uint32, n: nat, y: uint32) {
    forall k | 0 <= k < 32 :: Bit(y, k) == (Bit(x, k) + Bit(x, k + n)) % 2
  }

  /** The six stages that take x to h, one after the other. */
  predicate Stages(x: uint32, a1: uint32, a2: uint32, a3: uint32, a4: uint32, a5: uint32, h: uint32) {
    && a1 == (x - 32768 * x - 1) % 0x1_0000_0000 && Folded(a1, 10, a2)
    && a3 == 9 * a2 % 0x1_0000_0000 && Folded(a3, 6, a4)
    && a5 == (a4 - 2048 * a4 - 1) % 0x1_0000_0000 && Folded(a5, 16, h)
  }

  /** h is the mixture of x. */
  ghost predicate Mixed(x: uint32, h: uint32) {
    exists a1: uint32, a2: uint32, a3: uint32, a4: uint32, a5: uint32 :: Stages(x, a1, a2, a3, a4, a5, h)
  }

  lemma AddNotShlValue(a: uint32)
    ensures AddNotShl(a, 15) == (a - 32768 * a - 1) % 0x1_0000_0000
    ensures AddNotShl(a, 11) == (a - 2048 * a - 1) % 0x1_0000_0000
  {
    Powers();
    var q := AddNotShlQuotient(a, 15);
    WrapUnique(AddNotShl(a, 15), a - 32768 * a - 1, q);
    var p := AddNotShlQuotient(a, 11);
    WrapUnique(AddNotShl(a, 11), a - 2048 * a - 1, p);
  }

  lemma AddShlValue(a: uint32)
    ensures AddShl(a, 3) == 9 * a % 0x1_0000_0000
  {
    Powers();
    var q := AddShlQuotient(a, 3);
    WrapUnique(AddShl(a, 3), 9 * a, q);
  }

  lemma Powers()
    ensures Pow2(2) == 4 && Pow2(10) == 1024 && Pow2(14) == 16384
  {
  }

  lemma WrapUnique(r: uint32, x: int, q: int)
    requires r == x + W32 * q
    ensures r == x % 0x1_0000_0000
  {
  }

  lemma XorShrFolds(a: uint32, n: nat)
    ensures Folded(a, n, XorShr(a, n))
  {
    forall k | 0 <= k < 32 ensures Bit(XorShr(a, n), k) == (Bit(a, k) + Bit(a, k + n)) % 2 {
      XorShrBit(a, n, k);
      if n + k >= 32 {
        Pow2Of32();
        HighBitsZero(a, 32, n + k);
      }
    }
  }

  lemma ScrambleStages(x: uint32) returns (a1: uint32, a2: uint32, a3: uint32, a4: uint32, a5: uint32)
    ensures Stages(x, a1, a2, a3, a4, a5, Scramble(x))
  {
    a1 := AddNotShl(x, 15);
    a2 := XorShr(a1, 10);
    a3 := AddShl(a2, 3);
    a4 := XorShr(a3, 6);
    a5 := AddNotShl(a4, 11);
    AddNotShlValue(x);
    XorShrFolds(a1, 10);
    AddShlValue(a2);
    XorShrFolds(a3, 6);
    AddNotShlValue(a4);
    XorShrFolds(a5, 16);
  }

  /** The little-endian number of the four bytes from position i on. */
  function Number(key: seq<uint8>, i: nat): nat
    requires i + 4 <= |key|
  {
    var b0: nat, b1: nat, b2: nat, b3: nat := key[i], key[i + 1], key[i + 2], key[i + 3];
    b0 + 256 * b1 + 65536 * b2 + 16777216 * b3
  }

  /** n times the byte b. */
  function Times(n: nat, b: uint8): nat {
    var x: nat := b;
    n * x
  }

  lemma NumberIs(key: seq<uint8>, i: nat)
    requires i + 4 <= |key|
    ensures Number(key, i) == WordAt(key, i)
  {
  }

  /** The hash of four bytes. */
  lemma FourByteHash(key: seq<uint8>)
    requires |key| == 4
    ensures Mixed((4 + Number(key, 0)) % 0x1_0000_0000, HashSpec(key))
  {
    NumberIs(key, 0);
    HashOneWord(key);
    MixedSum(4, WordAt(key, 0), HashSpec(key));
  }

  lemma MixedSum(a: uint32, w: uint32, h: uint32)
    requires h == Mix(a, w)
    ensures Mixed((a + w) % 0x1_0000_0000, h)
  {
    var a1, a2, a3, a4, a5 := ScrambleStages(Add(a, w));
  }

  /** The bucket hash of an address, whose bytes are in memory from the lowest to the highest. */
  lemma AddressHash(ip: uint32)
    ensures Mixed((4 + ip) % 0x1_0000_0000, HashIp(ip))
  {
    HashIpIsScramble(ip);
    var a1, a2, a3, a4, a5 := ScrambleStages(Add(4, ip));
  }

  // -- keys of any length --

  /** States of the loop: from the length of the key on, each word is added and the sum is mixed. */
  ghost predicate Rounds(key: seq<uint8>, st: seq<uint32>) {
    && |st| == |key| / 4 + 1 && st[0] == |key|
    && forall i | 0 <= i < |key| / 4 :: Round(key, st, i)
  }

  ghost predicate Round(key: seq<uint8>, st: seq<uint32>, i: nat)
    requires 4 * i + 4 <= |key| && i + 1 < |st|
  {
    Mixed((st[i] + Number(key, 4 * i)) % 0x1_0000_0000, st[i + 1])
  }

  /** x and y differ at the bits of 256 * b. */
  predicate Flipped(x: uint32, b: uint8, y: uint32) {
    forall k | 0 <= k < 32 :: Bit(y, k) == (Bit(x, k) + Bit(Times(256, b), k)) % 2
  }

  /**
   * The last 0 to 3 bytes, taken at position t: the third is added two bytes up, the second flips bits one
   * byte up, the first is added.
   */
  ghost predicate Finished(a: uint32, key: seq<uint8>, t: nat, r: nat, h: uint32)
    requires r < 4 && t + r <= |key|
  {
    if r == 0 then h == a
    else if r == 1 then h == (a + Times(1, key[t])) % 0x1_0000_0000
    else
      var a3 := if r == 3 then (a + Times(65536, key[t + 2])) % 0x1_0000_0000 else a;
      TwoLast(a3, key[t + 1], key[t], h)
  }

  ghost predicate TwoLast(a: uint32, second: uint8, first: uint8, h: uint32) {
    exists b: uint32 :: Flipped(a, second, b) && h == (b + Times(1, first)) % 0x1_0000_0000
  }

  /**
   * The hash of a key of any length: as many rounds as it has whole words, and the switch on what is left.
   * A key of less than 4 bytes is read from its start; a longer one from the start of its last whole word,
   * since the key pointer is not moved past that word.
   */
  lemma HashRounds(key: seq<uint8>) returns (st: seq<uint32>)
    requires |key| < 0x8000_0000
    ensures Rounds(key, st)
    ensures if |key| < 4 then Finished(st[0], key, 0, |key|, HashSpec(key))
            else Finished(st[|key| / 4], key, 4 * (|key| / 4 - 1), |key| % 4, HashSpec(key))
  {
    st := LoopStates(key);
    AllRounds(key);
    TailFinishes(st[|key| / 4], key, TailStart(|key|), |key| % 4);
  }

  function LoopStates(key: seq<uint8>): (st: seq<uint32>)
    requires |key| < 0x8000_0000
    ensures |st| == |key| / 4 + 1
    ensures forall i | 0 <= i <= |key| / 4 :: st[i] == FoldMix(|key|, Words(key, i))
  {
    seq(|key| / 4 + 1, i requires 0 <= i <= |key| / 4 => FoldMix(|key|, Words(key, i)))
  }

  lemma AllRounds(key: seq<uint8>)
    requires |key| < 0x8000_0000
    ensures Rounds(key, LoopStates(key))
  {
    forall i | 0 <= i < |key| / 4 ensures Round(key, LoopStates(key), i) {
      LoopStep(key, i);
      RoundOf(key, LoopStates(key), i, LoopStates(key)[i], WordAt(key, 4 * i), LoopStates(key)[i + 1]);
    }
  }

  lemma RoundOf(key: seq<uint8>, st: seq<uint32>, i: nat, a: uint32, w: uint32, b: uint32)
    requires 4 * i + 4 <= |key| && i + 1 < |st| && a == st[i] && b == st[i + 1]
    requires w == WordAt(key, 4 * i) && b == Mix(a, w)
    ensures Round(key, st, i)
  {
    NumberIs(key, 4 * i);
    MixedSum(a, w, b);
  }

  lemma LoopStep(key: seq<uint8>, i: nat)
    requires 4 * i + 4 <= |key| < 0x8000_0000
    ensures LoopStates(key)[i + 1] == Mix(LoopStates(key)[i], WordAt(key, 4 * i))
  {
    FoldSnoc(|key|, key, i);
  }

  lemma TailFinishes(a: uint32, key: seq<uint8>, t: nat, r: nat)
    requires r < 4 && t + r <= |key|
    ensures Finished(a, key, t, r, Tail(a, key, t, r))
  {
    if r >= 2 {
      var a3 := if r == 3 then Add(a, Lane(key[t + 2], 2)) else a;
      XorFlips(a3, key[t + 1]);
      FinishedBy(a, key, t, r, a3, Xor32(a3, Lane(key[t + 1], 1)));
    }
  }

  lemma FinishedBy(a: uint32, key: seq<uint8>, t: nat, r: nat, a3: uint32, a2: uint32)
    requires 2 <= r < 4 && t + r <= |key| && Flipped(a3, key[t + 1], a2)
    requires a3 == if r == 3 then (a + Times(65536, key[t + 2])) % 0x1_0000_0000 else a
    ensures Finished(a, key, t, r, Add(a2, key[t]))
  {
  }

  lemma XorFlips(a: uint32, b: uint8)
    ensures Flipped(a, b, Xor32(a, Lane(b, 1)))
  {
    Pow2Of32();
    forall k | 0 <= k < 32 ensures Bit(Xor32(a, Lane(b, 1)), k) == (Bit(a, k) + Bit(Times(256, b), k)) % 2 {
      XorBit(32, a, Times(256, b), k);
    }
  }
}
