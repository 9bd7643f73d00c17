// Unsigned machine words as naturals: bits, shifts and the bitwise operators.
// All operators take the width of the word, so that nothing depends on 32.

module Word32 {

  const W32: nat := 0x1_0000_0000

  type uint32 = x: nat | x < W32

  type uint8 = x: nat | x < 256

  function Pow2(n: nat): (p: nat)
    ensures p >= 1
  {
    if n == 0 then 1 else 2 * Pow2(n - 1)
  }

  /** Bit k of x. */
  function Bit(x: nat, k: nat): (b: nat)
    ensures b < 2
    decreases k
  {
    if k == 0 then x % 2 else Bit(x / 2, k - 1)
  }

  /** x >> n */
  function Shr(x: nat, n: nat): (r: nat)
    ensures r <= x
    decreases n, x
  {
    if n == 0 then x else Shr(x / 2, n - 1)
  }

  /** x << n on w-bit words: the bits shifted out are dropped. */
  function Shl(w: nat, x: nat, n: nat): (r: nat)
    ensures r < Pow2(w)
    decreases n, x
  {
    if n == 0 then x % Pow2(w) else Shl(w, 2 * x, n - 1)
  }

  /** x ^ y on w-bit words */
  function Xor(w: nat, x: nat, y: nat): (r: nat)
    ensures r < Pow2(w)
    decreases w, x
  {
    if w == 0 then 0 else 2 * Xor(w - 1, x / 2, y / 2) + (x % 2 + y % 2) % 2
  }

  /** x & y on w-bit words */
  function And(w: nat, x: nat, y: nat): (r: nat)
    ensures r < Pow2(w)
    decreases w, x
  {
    if w == 0 then 0 else 2 * And(w - 1, x / 2, y / 2) + if x % 2 == 1 && y % 2 == 1 then 1 else 0
  }

  /** ~x on w-bit words */
  function Not(w: nat, x: nat): (r: nat)
    ensures r < Pow2(w)
    decreases w, x
  {
    if w == 0 then 0 else 2 * Not(w - 1, x / 2) + (1 - x % 2)
  }

  lemma {:induction false} XorBit(w: nat, x: nat, y: nat, k: nat)
    requires k < w
    ensures Bit(Xor(w, x, y), k) == (Bit(x, k) + Bit(y, k)) % 2
    decreases k
  {
    var rest, low := Xor(w - 1, x / 2, y / 2), (x % 2 + y % 2) % 2;
    assert Xor(w, x, y) == 2 * rest + low;
    if k == 0 {
      assert Bit(2 * rest + low, 0) == low;
    } else {
      assert Bit(2 * rest + low, k) == Bit(rest, k - 1);
      XorBit(w - 1, x / 2, y / 2, k - 1);
    }
  }

  lemma {:induction false} AndBit(w: nat, x: nat, y: nat, k: nat)
    requires k < w
    ensures Bit(And(w, x, y), k) == if Bit(x, k) == 1 && Bit(y, k) == 1 then 1 else 0
    decreases k
  {
    if k == 0 {
    } else {
      AndBit(w - 1, x / 2, y / 2, k - 1);
    }
  }

  lemma {:induction false} NotBit(w: nat, x: nat, k: nat)
    requires k < w
    ensures Bit(Not(w, x), k) == 1 - Bit(x, k)
    decreases k
  {
    if k == 0 {
    } else {
      NotBit(w - 1, x / 2, k - 1);
    }
  }

  lemma {:induction false} ShrBit(x: nat, n: nat, k: nat)
    ensures Bit(Shr(x, n), k) == Bit(x, n + k)
    decreases n
  {
    if n == 0 {
    } else {
      ShrBit(x / 2, n - 1, k);
    }
  }

  lemma {:induction false} HighBitsZero(x: nat, n: nat, k: nat)
    requires x < Pow2(n) && n <= k
    ensures Bit(x, k) == 0
    decreases k
  {
    if k == 0 {
    } else {
      HighBitsZero(x / 2, if n == 0 then 0 else n - 1, k - 1);
    }
  }

  /** A w-bit word is determined by its bits. */
  lemma {:induction false} SameBits(w: nat, x: nat, y: nat)
    requires x < Pow2(w) && y < Pow2(w)
    requires forall k | 0 <= k < w :: Bit(x, k) == Bit(y, k)
    ensures x == y
    decreases w
  {
    if w == 0 {
    } else {
      assert Bit(x, 0) == Bit(y, 0);
      forall k | 0 <= k < w - 1 ensures Bit(x / 2, k) == Bit(y / 2, k) {
        assert Bit(x, k + 1) == Bit(y, k + 1);
      }
      SameBits(w - 1, x / 2, y / 2);
    }
  }

  lemma {:induction false} NotValue(w: nat, x: nat)
    requires x < Pow2(w)
    ensures Not(w, x) == Pow2(w) - 1 - x
    decreases w
  {
    if w == 0 {
    } else {
      NotValue(w - 1, x / 2);
    }
  }

  lemma {:induction false} ShlValue(w: nat, x: nat, n: nat)
    ensures Shl(w, x, n) == x * Pow2(n) % Pow2(w)
    decreases n
  {
    if n == 0 {
    } else {
      ShlValue(w, 2 * x, n - 1);
      assert 2 * x * Pow2(n - 1) == x * Pow2(n);
    }
  }

  /** An odd factor can be cancelled modulo a power of two. */
  lemma {:induction false} OddCancel(w: nat, h: int, d: int, q: int) returns (e: int)
    requires (2 * h + 1) * d == Pow2(w) * q
    ensures d == Pow2(w) * e
    decreases w
  {
    if w == 0 {
      e := d;
    } else {
      var p := Pow2(w - 1);
      var d' := p * q - h * d;
      assert d == 2 * d' by {
        assert (2 * h + 1) * d == 2 * (h * d) + d;
        assert Pow2(w) * q == 2 * (p * q);
      }
      assert (2 * h + 1) * d' == p * q by {
        assert 2 * ((2 * h + 1) * d') == (2 * h + 1) * d;
        assert Pow2(w) * q == 2 * (p * q);
      }
      e := OddCancel(w - 1, h, d', q);
      assert Pow2(w) * e == 2 * (p * e);
    }
  }

  lemma Pow2Of32()
    ensures Pow2(32) == W32
  {
    assert Pow2(8) == 256;
    assert Pow2(16) == 0x1_0000;
    assert Pow2(24) == 0x100_0000;
  }

  lemma Pow2Of21()
    ensures Pow2(11) == 0x800 && Pow2(21) == 0x20_0000
  {
  }

  // -- little-endian bytes --

  /** b << 8 * n, for the n-th byte of a word */
  function Lane(b: uint8, n: nat): uint32
    requires n < 4
  {
    var x: nat := b;
    if n == 0 then x else if n == 1 then x * 0x100 else if n == 2 then x * 0x1_0000 else x * 0x100_0000
  }

  /** The little-endian word at offset i. */
  function WordAt(key: seq<uint8>, i: nat): uint32
    requires i + 4 <= |key|
  {
    Lane(key[i], 0) + Lane(key[i + 1], 1) + Lane(key[i + 2], 2) + Lane(key[i + 3], 3)
  }

  /** The four bytes of a word, lowest first. */
  function LeBytes(x: uint32): (key: seq<uint8>)
    ensures |key| == 4 && WordAt(key, 0) == x
  {
    var q1 := x / 0x100;
    var q2 := q1 / 0x100;
    var q3 := q2 / 0x100;
    [x % 0x100, q1 % 0x100, q2 % 0x100, q3]
  }
}
