// The hash of the mark table: hash_fn of kmod/qos_marktbl_main.c.
//
// The C loop is software-pipelined: the bytes of word k+1 are loaded while word k
// is being mixed, and the last word is mixed after the loop. HashSpec is the plain
// reading: a left fold of one mixing step over the little-endian words of the key,
// started from the key's length.

module Hash {
  import opened Word32
  import Finite

  // -- one mixing step, stage by stage, on 32-bit words --

  function Add(a: uint32, b: uint32): uint32 { (a + b) % 0x1_0000_0000 }

  function Xor32(a: uint32, b: uint32): uint32 {
    Pow2Of32();
    Xor(32, a, b)
  }

  /** a + ~(a << n) */
  function AddNotShl(a: uint32, n: nat): uint32 {
    Pow2Of32();
    Add(a, Not(32, Shl(32, a, n)))
  }

  /** a + (a << n) */
  function AddShl(a: uint32, n: nat): uint32 {
    Pow2Of32();
    ShlValue(32, a, n);
    Add(a, Shl(32, a, n))
  }

  /** a ^ (a >> n) */
  function XorShr(a: uint32, n: nat): uint32 { Xor32(a, Shr(a, n)) }

  function Scramble(a: uint32): uint32 {
    XorShr(AddNotShl(XorShr(AddShl(XorShr(AddNotShl(a, 15), 10), 3), 6), 11), 16)
  }

  function Mix(a: uint32, w: uint32): uint32 { Scramble(Add(a, w)) }

  // -- keys --

  /** The first n little-endian words of the key. */
  function Words(key: seq<uint8>, n: nat): (ws: seq<uint32>)
    requires 4 * n <= |key|
    ensures |ws| == n
    ensures forall i | 0 <= i < n :: ws[i] == WordAt(key, 4 * i)
  {
    if n == 0 then [] else Words(key, n - 1) + [WordAt(key, 4 * (n - 1))]
  }

  function FoldMix(a: uint32, ws: seq<uint32>): uint32 {
    if ws == [] then a else Mix(FoldMix(a, ws[..|ws| - 1]), ws[|ws| - 1])
  }

  /** The final switch, whose cases fall through: r bytes found at offset t. */
  function Tail(a: uint32, key: seq<uint8>, t: nat, r: nat): uint32
    requires r < 4 && t + r <= |key|
  {
    var a3 := if r == 3 then Add(a, Lane(key[t + 2], 2)) else a;
    var a2 := if r >= 2 then Xor32(a3, Lane(key[t + 1], 1)) else a3;
    if r >= 1 then Add(a2, key[t]) else a2
  }

  /**
   * Where the final switch reads. The key pointer is not advanced past the last
   * whole word, so on a key of 4 bytes or more this is the start of that word.
   */
  function TailStart(len: nat): nat {
    if len < 4 then 0 else 4 * (len / 4 - 1)
  }

  function HashSpec(key: seq<uint8>): uint32
    requires |key| < 0x8000_0000
  {
    Tail(FoldMix(|key|, Words(key, |key| / 4)), key, TailStart(|key|), |key| % 4)
  }

  /** hash_fn: the pipelined loop; key + pos is the moving key pointer. */
  method HashFn(key: seq<uint8>) returns (a: uint32)
    requires |key| < 0x8000_0000
    ensures a == HashSpec(key)
  {
    a := |key|;
    var b: uint32 := 0;
    var len, pos := |key|, 0;
    if len >= 4 {
      b := WordAt(key, 0);
    }
    ghost var k := 0;
    while len >= 8
      invariant pos == 4 * k && pos + len == |key|
      invariant if |key| < 4 then k == 0 else len >= 4 && b == WordAt(key, 4 * k)
      invariant a == FoldMix(|key|, Words(key, k))
    {
      FoldSnoc(|key|, key, k);
      a, b := MixAndLoad(a, b, key, pos + 4);
      pos := pos + 4;
      len := len - 4;
      k := k + 1;
    }
    if len >= 4 {
      FoldSnoc(|key|, key, k);
      a := MixLast(a, b);
      len := len - 4;
      k := k + 1;
    }
    WholeWords(|key|, k, len);
    a := MixTail(a, key, pos, len);
  }

  /** One turn of the loop: mix the loaded word, load the next, interleaved as in C. */
  method MixAndLoad(a0: uint32, b0: uint32, key: seq<uint8>, pos: nat) returns (a: uint32, b: uint32)
    requires pos + 4 <= |key|
    ensures a == Mix(a0, b0)
    ensures b == WordAt(key, pos)
  {
    a := Add(a0, b0);
    a := AddNotShl(a, 15);
    a := XorShr(a, 10);
    b := Lane(key[pos], 0);
    a := AddShl(a, 3);
    b := b + Lane(key[pos + 1], 1);
    a := XorShr(a, 6);
    b := b + Lane(key[pos + 2], 2);
    a := AddNotShl(a, 11);
    b := b + Lane(key[pos + 3], 3);
    a := XorShr(a, 16);
  }

  /** The word that the loop leaves over. */
  method MixLast(a0: uint32, b: uint32) returns (a: uint32)
    ensures a == Mix(a0, b)
  {
    a := Add(a0, b);
    a := AddNotShl(a, 15);
    a := XorShr(a, 10);
    a := AddShl(a, 3);
    a := XorShr(a, 6);
    a := AddNotShl(a, 11);
    a := XorShr(a, 16);
  }

  /** The switch on the remaining length. */
  method MixTail(a0: uint32, key: seq<uint8>, pos: nat, len: nat) returns (a: uint32)
    requires len < 4 && pos + len <= |key|
    ensures a == Tail(a0, key, pos, len)
  {
    a := a0;
    if len == 3 {
      a := Add(a, Lane(key[pos + 2], 2));
    }
    if len >= 2 {
      a := Xor32(a, Lane(key[pos + 1], 1));
    }
    if len >= 1 {
      a := Add(a, key[pos]);
    }
  }

  lemma WholeWords(n: nat, k: nat, rest: nat)
    requires n == 4 * k + rest && rest < 4
    ensures k == n / 4 && rest == n % 4
    ensures TailStart(n) == if k == 0 then 0 else 4 * (k - 1)
  {
  }

  lemma FoldSnoc(a: uint32, key: seq<uint8>, n: nat)
    requires 4 * n + 4 <= |key|
    ensures FoldMix(a, Words(key, n + 1)) == Mix(FoldMix(a, Words(key, n)), WordAt(key, 4 * n))
  {
  }

  // -- the trailing bytes --

  /**
   * On a key of 4 bytes or more, the bytes after the last whole word never reach
   * the hash: the switch reads the last whole word a second time instead.
   */
  lemma TrailingBytesIgnored(k1: seq<uint8>, k2: seq<uint8>)
    requires 4 <= |k1| == |k2| < 0x8000_0000
    requires k1[..|k1| - |k1| % 4] == k2[..|k1| - |k1| % 4]
    ensures HashSpec(k1) == HashSpec(k2)
  {
    var n := |k1|;
    WordsOfPrefix(k1, k2, n / 4);
    TailInWords(n);
    SameTail(FoldMix(n, Words(k1, n / 4)), k1, k2, TailStart(n), n % 4, n - n % 4);
  }

  /** The bytes that the switch reads lie in the last whole word. */
  lemma TailInWords(n: nat)
    requires n >= 4
    ensures TailStart(n) + n % 4 <= n - n % 4 == 4 * (n / 4)
  {
  }

  lemma SameTail(a: uint32, k1: seq<uint8>, k2: seq<uint8>, t: nat, r: nat, end: nat)
    requires r < 4 && t + r <= end <= |k1| == |k2| && k1[..end] == k2[..end]
    ensures Tail(a, k1, t, r) == Tail(a, k2, t, r)
  {
    assert forall i | 0 <= i < end :: k1[i] == k1[..end][i] == k2[..end][i] == k2[i];
  }

  lemma WordsOfPrefix(k1: seq<uint8>, k2: seq<uint8>, n: nat)
    requires 4 * n <= |k1| == |k2|
    requires k1[..4 * n] == k2[..4 * n]
    ensures Words(k1, n) == Words(k2, n)
    ensures n > 0 ==> k1[4 * n - 4..4 * n] == k2[4 * n - 4..4 * n]
  {
    assert forall i | 0 <= i < 4 * n :: k1[i] == k1[..4 * n][i] == k2[i];
  }

  // -- four-byte keys: the hash is a permutation of the 32-bit words --

  /** An address stands for the word that hash_fn loads from its four bytes. */
  function HashIp(ip: uint32): uint32 { HashSpec(LeBytes(ip)) }

  lemma HashIpIsScramble(ip: uint32)
    ensures HashIp(ip) == Scramble(Add(4, ip))
  {
    HashOneWord(LeBytes(ip));
  }

  lemma HashOneWord(key: seq<uint8>)
    requires |key| == 4
    ensures HashSpec(key) == Mix(4, WordAt(key, 0))
  {
    FoldSnoc(4, key, 0);
    assert Words(key, 0) == [];
  }

  lemma AddInjective(a: uint32, b: uint32, c: uint32)
    requires Add(c, a) == Add(c, b)
    ensures a == b
  {
  }

  lemma XorShrInjective(a: uint32, b: uint32, n: nat)
    requires n > 0 && XorShr(a, n) == XorShr(b, n)
    ensures a == b
  {
    Pow2Of32();
    XorShrBits(a, b, n, 0);
    SameBits(32, a, b);
  }

  /** Recovers the bits of a from those of a ^ (a >> n), from the top bit down to bit j. */
  lemma {:induction false} XorShrBits(a: uint32, b: uint32, n: nat, j: nat)
    requires n > 0 && XorShr(a, n) == XorShr(b, n)
    ensures forall k | j <= k < 32 :: Bit(a, k) == Bit(b, k)
    decreases 32 - j
  {
    if j >= 32 {
    } else {
      XorShrBits(a, b, n, j + 1);
      XorShrBit(a, n, j);
      XorShrBit(b, n, j);
    }
  }

  lemma XorShrBit(a: uint32, n: nat, j: nat)
    requires j < 32
    ensures Bit(XorShr(a, n), j) == (Bit(a, j) + (if n + j < 32 then Bit(a, n + j) else 0)) % 2
  {
    XorBit(32, a, Shr(a, n), j);
    ShrBit(a, n, j);
    if n + j >= 32 {
      Pow2Of32();
      HighBitsZero(a, 32, n + j);
    }
  }

  lemma AddShlInjective(a: uint32, b: uint32, n: nat)
    requires n > 0 && AddShl(a, n) == AddShl(b, n)
    ensures a == b
  {
    var p := AddShlQuotient(a, n);
    var q := AddShlQuotient(b, n);
    ScaleInjective(a, b, Pow2(n - 1), p - q);
  }

  lemma AddNotShlInjective(a: uint32, b: uint32, n: nat)
    requires n > 0 && AddNotShl(a, n) == AddNotShl(b, n)
    ensures a == b
  {
    var h: int := Pow2(n - 1);
    var p := AddNotShlQuotient(a, n);
    var q := AddNotShlQuotient(b, n);
    NegatedFactor(a, h);
    NegatedFactor(b, h);
    ScaleInjective(a, b, -h, p - q);
  }

  lemma NegatedFactor(a: int, h: int)
    ensures a * (2 * -h) == -(a * (2 * h))
  {
  }

  lemma AddShlQuotient(a: uint32, n: nat) returns (q: int)
    requires n > 0
    ensures AddShl(a, n) == a + a * (2 * Pow2(n - 1)) + W32 * q
  {
    Pow2Of32();
    var q0 := ShlQuotient(a, n);
    q := q0 - (a + Shl(32, a, n)) / 0x1_0000_0000;
  }

  lemma AddNotShlQuotient(a: uint32, n: nat) returns (q: int)
    requires n > 0
    ensures AddNotShl(a, n) == a - a * (2 * Pow2(n - 1)) - 1 + W32 * q
  {
    Pow2Of32();
    var s := Shl(32, a, n);
    NotValue(32, s);
    var q0 := ShlQuotient(a, n);
    q := 1 - q0 - (a + (W32 - 1 - s)) / 0x1_0000_0000;
  }

  lemma ShlQuotient(a: uint32, n: nat) returns (q: int)
    requires n > 0
    ensures Shl(32, a, n) == a * (2 * Pow2(n - 1)) + W32 * q
  {
    Pow2Of32();
    ShlValue(32, a, n);
    q := -(a * Pow2(n) / 0x1_0000_0000);
  }

  /** Multiplication by an odd number 1 + 2h is injective on 32-bit words. */
  lemma ScaleInjective(a: uint32, b: uint32, h: int, q: int)
    requires a + a * (2 * h) + W32 * q == b + b * (2 * h)
    ensures a == b
  {
    Pow2Of32();
    OddFactor(a, b, h);
    var e := OddCancel(32, h, b - a, q);
  }

  lemma OddFactor(a: int, b: int, h: int)
    ensures (2 * h + 1) * (b - a) == (b + b * (2 * h)) - (a + a * (2 * h))
  {
  }

  lemma ScrambleInjective(a: uint32, b: uint32)
    requires Scramble(a) == Scramble(b)
    ensures a == b
  {
    var a1, b1 := AddNotShl(a, 15), AddNotShl(b, 15);
    var a2, b2 := XorShr(a1, 10), XorShr(b1, 10);
    var a3, b3 := AddShl(a2, 3), AddShl(b2, 3);
    var a4, b4 := XorShr(a3, 6), XorShr(b3, 6);
    var a5, b5 := AddNotShl(a4, 11), AddNotShl(b4, 11);
    XorShrInjective(a5, b5, 16);
    AddNotShlInjective(a4, b4, 11);
    XorShrInjective(a3, b3, 6);
    AddShlInjective(a2, b2, 3);
    XorShrInjective(a1, b1, 10);
    AddNotShlInjective(a, b, 15);
  }

  /** Distinct addresses have distinct hashes: they can only meet in a bucket modulo its size. */
  lemma HashIpInjective(a: uint32, b: uint32)
    requires HashIp(a) == HashIp(b)
    ensures a == b
  {
    HashIpIsScramble(a);
    HashIpIsScramble(b);
    ScrambleInjective(Add(4, a), Add(4, b));
    AddInjective(a, b, 4);
  }

  lemma InjectionOnto(f: uint32 -> uint32, h: uint32) returns (a: uint32)
    requires forall x: uint32, y: uint32 :: f(x) == f(y) ==> x == y
    ensures f(a) == h
  {
    var g := (x: nat) => if x < W32 then f(x) else 0;
    forall x1, x2 | 0 <= x1 < x2 < W32 ensures g(x1) != g(x2) {
      var w1: uint32, w2: uint32 := x1, x2;
      assert f(w1) == f(w2) ==> w1 == w2;
    }
    a := Finite.InjectionOnto(g, W32, h);
  }

  /** The hash is a permutation of the addresses: every word is the hash of exactly one of them. */
  lemma HashIpPermutes(h: uint32) returns (a: uint32)
    ensures HashIp(a) == h
    ensures forall b: uint32 {:trigger HashIp(b)} :: HashIp(b) == h ==> b == a
  {
    var f: uint32 -> uint32 := HashIp;
    forall x: uint32, y: uint32 | f(x) == f(y) ensures x == y { HashIpInjective(x, y); }
    a := InjectionOnto(f, h);
    forall b: uint32 | HashIp(b) == h ensures b == a { HashIpInjective(a, b); }
  }
}
