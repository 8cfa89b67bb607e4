/** Blocks as bytes: the bits of the free map and the little-endian words of an
    indirect block. */
module FsBytes {
  import opened Params

  const BSIZE: nat := 512
  /** Bits in a block. */
  const BPB: nat := 8 * BSIZE
  const NINDIRECT: nat := BSIZE / 4

  type Block = b: seq<byte> | |b| == BSIZE witness seq(BSIZE, _ => 0)

  function Zeros(): (b: Block)
    ensures forall i :: 0 <= i < BSIZE ==> b[i] == 0
  {
    seq(BSIZE, _ => 0 as byte)
  }

  // ---- bits

  /** x & (1 << k) */
  predicate Bit(x: nat, k: nat) {
    if k == 0 then x % 2 == 1 else Bit(x / 2, k - 1)
  }

  /** x | (1 << k) when `on`, x & ~(1 << k) when not. */
  function WithBit(x: nat, k: nat, on: bool): (y: nat)
    ensures x < 256 && k < 8 ==> y < 256
  {
    Pow2Of8();
    if x < 256 && k < 8 then WithBitRange(x, k, on, 8); PutBit(x, k, on) else PutBit(x, k, on)
  }

  function PutBit(x: nat, k: nat, on: bool): nat {
    if k == 0 then x - x % 2 + (if on then 1 else 0)
    else 2 * PutBit(x / 2, k - 1, on) + x % 2
  }

  function Pow2(n: nat): nat {
    if n == 0 then 1 else 2 * Pow2(n - 1)
  }

  lemma {:induction false} WithBitRange(x: nat, k: nat, on: bool, n: nat)
    requires x < Pow2(n) && k < n
    ensures PutBit(x, k, on) < Pow2(n)
  {
    var p := Pow2(n - 1);
    assert Pow2(n) == 2 * p;
    var h := x / 2;
    assert x == 2 * h + x % 2 && h < p;
    if k > 0 {
      WithBitRange(h, k - 1, on, n - 1);
      assert PutBit(x, k, on) == 2 * PutBit(h, k - 1, on) + x % 2;
    } else {
      assert PutBit(x, k, on) == 2 * h + if on then 1 else 0;
    }
  }

  lemma Pow2Of8()
    ensures Pow2(8) == 256
  {
    assert Pow2(4) == 16;
  }

  /** Only the bit named changes. */
  lemma {:induction false} BitPut(x: nat, k: nat, on: bool, l: nat)
    ensures Bit(WithBit(x, k, on), l) == if l == k then on else Bit(x, l)
  {
    if k > 0 && l > 0 {
      BitPut(x / 2, k - 1, on, l - 1);
      assert PutBit(x, k, on) / 2 == PutBit(x / 2, k - 1, on);
    }
  }

  /** Bit k has the weight 2^k. */
  lemma {:induction false} BitWeight(x: nat, k: nat)
    ensures Pow2(k) > 0 && (Bit(x, k) <==> x / Pow2(k) % 2 == 1)
  {
    if k > 0 {
      BitWeight(x / 2, k - 1);
      Halved(x, Pow2(k - 1));
    }
  }

  lemma Halved(x: nat, p: nat)
    requires p > 0
    ensures x / (2 * p) == x / 2 / p
  {
    var q, r := x / 2 / p, x / 2 % p;
    assert x / 2 == p * q + r;
    assert x == 2 * p * q + (2 * r + x % 2) && 2 * r + x % 2 < 2 * p;
    Quotient(x, 2 * p, q, 2 * r + x % 2);
  }

  lemma Quotient(x: int, d: int, q: int, r: int)
    requires x == d * q + r && 0 <= r < d
    ensures x / d == q
  {
    var e := x / d - q;
    assert x == d * (x / d) + x % d;
    assert d * e == r - x % d;
    assert -d < d * e < d;
    assert e == 0 by { Small(d, e); }
  }

  lemma Small(d: int, e: int)
    requires -d < d * e < d
    ensures e == 0
  {
    assert e >= 1 ==> d * e >= d * 1;
    assert e <= -1 ==> d * e <= d * -1;
  }

  lemma {:induction false} ZeroBits(k: nat)
    ensures !Bit(0, k)
  {
    if k > 0 { ZeroBits(k - 1); }
  }

  /** The bit of the free map that stands for the n-th block of a map block. */
  predicate MapBit(b: Block, n: nat)
    requires n < BPB
  {
    Bit(b[n / 8], n % 8)
  }

  function WithMapBit(b: Block, n: nat, on: bool): (r: Block)
    requires n < BPB
  {
    b[n / 8 := WithBit(b[n / 8], n % 8, on)]
  }

  lemma MapBitPut(b: Block, n: nat, on: bool, m: nat)
    requires n < BPB && m < BPB
    ensures MapBit(WithMapBit(b, n, on), m) == if m == n then on else MapBit(b, m)
  {
    if m / 8 == n / 8 { BitPut(b[n / 8], n % 8, on, m % 8); }
  }

  // ---- words

  /** ((uint*)data)[j] */
  function Word(b: Block, j: nat): (w: nat)
    requires j < NINDIRECT
    ensures w < UINT
  {
    var b0: int, b1: int, b2: int, b3: int := b[4 * j], b[4 * j + 1], b[4 * j + 2], b[4 * j + 3];
    b0 + 0x100 * b1 + 0x1_0000 * b2 + 0x100_0000 * b3
  }

  function WithWord(b: Block, j: nat, w: nat): (r: Block)
    requires j < NINDIRECT && w < UINT
  {
    b[4 * j := w % 0x100][4 * j + 1 := w / 0x100 % 0x100]
     [4 * j + 2 := w / 0x1_0000 % 0x100][4 * j + 3 := w / 0x100_0000]
  }

  /** The byte at the lowest address is the lowest of its word. */
  lemma WordBytes(b: Block, j: nat)
    requires j < NINDIRECT
    ensures b[4 * j] == Word(b, j) % 0x100 && b[4 * j + 1] == Word(b, j) / 0x100 % 0x100
    ensures b[4 * j + 2] == Word(b, j) / 0x1_0000 % 0x100 && b[4 * j + 3] == Word(b, j) / 0x100_0000
  {
    LowToHigh(b[4 * j], b[4 * j + 1], b[4 * j + 2], b[4 * j + 3]);
  }

  lemma LowToHigh(b0: byte, b1: byte, b2: byte, b3: byte)
    ensures var x0: int, x1: int, x2: int, x3: int := b0, b1, b2, b3;
            var w := x0 + 0x100 * x1 + 0x1_0000 * x2 + 0x100_0000 * x3;
            w % 0x100 == b0 && w / 0x100 % 0x100 == b1 && w / 0x1_0000 % 0x100 == b2 && w / 0x100_0000 == b3
  {
    var x0: int, x1: int, x2: int, x3: int := b0, b1, b2, b3;
    var h3 := x2 + 0x100 * x3;
    var h2 := x1 + 0x100 * h3;
    var w := x0 + 0x100 * h2;
    assert w % 0x100 == x0 && w / 0x100 == h2;
    assert h2 % 0x100 == x1 && h2 / 0x100 == h3;
    assert h3 % 0x100 == x2 && h3 / 0x100 == x3;
    assert w / 0x1_0000 == w / 0x100 / 0x100 && w / 0x100_0000 == w / 0x1_0000 / 0x100;
  }

  lemma WordSplit(w: nat)
    requires w < UINT
    ensures w % 0x100 + 0x100 * (w / 0x100 % 0x100) + 0x1_0000 * (w / 0x1_0000 % 0x100)
              + 0x100_0000 * (w / 0x100_0000) == w
  {
    var w1, w2 := w / 0x100, w / 0x1_0000;
    assert w1 / 0x100 == w2 && w2 / 0x100 == w / 0x100_0000;
  }

  lemma WordPut(b: Block, j: nat, w: nat, i: nat)
    requires j < NINDIRECT && i < NINDIRECT && w < UINT
    ensures Word(WithWord(b, j, w), i) == if i == j then w else Word(b, i)
  {
    var r := WithWord(b, j, w);
    if i == j {
      WordSplit(w);
    } else {
      assert 4 * i + 3 < 4 * j || 4 * j + 3 < 4 * i;
      assert forall k :: 4 * i <= k < 4 * i + 4 ==> r[k] == b[k];
    }
  }

  lemma ZeroWords(j: nat)
    requires j < NINDIRECT
    ensures Word(Zeros(), j) == 0
  {
  }
}
