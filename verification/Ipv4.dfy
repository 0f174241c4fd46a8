/** IPv4 addresses and CIDR prefixes (section 3.1 of RFC 4632). */
module Ipv4 {
  import opened Basics

  type Addr = a: nat | a < 0x1_0000_0000

  datatype Cidr = Cidr(base: Addr, bits: nat)

  type Prefix = c: Cidr | c.bits <= 32 witness Cidr(0, 0)

  /** The number of addresses a prefix covers. */
  function Size(p: Prefix): (r: nat)
    ensures r > 0
  {
    Pow2(32 - p.bits)
  }

  /** An address is covered when it agrees with the prefix in its leading bits. */
  predicate Covers(p: Prefix, a: Addr) {
    a / Size(p) == p.base / Size(p)
  }

  /** 10.b.c.d as a number. */
  function Ten(b: nat, c: nat, d: nat): (a: Addr)
    requires b < 256 && c < 256 && d < 256
  {
    10 * 0x100_0000 + b * 0x1_0000 + c * 0x100 + d
  }

  // ---------- Arithmetic of blocks ----------

  lemma MulMonotone(x: int, y: int, d: nat)
    requires x <= y
    ensures x * d <= y * d
  {
  }

  lemma MulShuffle(q: int, m: int, r: int, s: int)
    ensures (q * m + r) * s == q * (s * m) + r * s
  {
  }

  lemma DivUnique(a: nat, d: nat, q: nat, r: nat)
    requires r < d && a == q * d + r
    ensures a / d == q
  {
    var k := a / d;
    assert k * d <= a < (k + 1) * d;
    if k + 1 <= q {
      MulMonotone(k + 1, q, d);
    } else if q + 1 <= k {
      MulMonotone(q + 1, k, d);
    }
  }

  lemma DivMod(a: nat, d: nat)
    requires d > 0
    ensures a == a / d * d + a % d && a % d < d && 0 <= a / d * d <= a
  {
    MulMonotone(0, a / d, d);
  }

  lemma DivOfParts(a: nat, b: nat, q: nat, m: nat, r: nat, s: nat, t: nat)
    requires r < m && t < s && b == q * m + r && a == b * s + t
    ensures s * m > 0 && a / (s * m) == q
  {
    MulMonotone(r + 1, m, s);
    MulShuffle(q, m, r, s);
    DivUnique(a, s * m, q, r * s + t);
  }

  lemma DivDiv(a: nat, s: nat, m: nat)
    requires s > 0 && m > 0
    ensures s * m > 0 && a / (s * m) == a / s / m
  {
    var b := a / s;
    DivMod(a, s);
    DivMod(b, m);
    DivOfParts(a, b, b / m, m, b % m, s, a % s);
  }

  /** Two numbers are in the same block of size s exactly when one is in the other's block range. */
  lemma SameBlock(a: nat, b: nat, s: nat)
    requires s > 0
    ensures a / s == b / s <==> b / s * s <= a < b / s * s + s
  {
    var q := b / s;
    assert a == (a / s) * s + a % s;
    if q * s <= a < q * s + s {
      DivUnique(a, s, q, a - q * s);
    }
  }

  /** A block of a size that divides the whole space does not stick out of it. */
  lemma BlockInside(b: nat, s: nat, n: nat)
    requires s > 0 && b < n * s
    ensures b / s * s + s <= n * s
  {
    var q := b / s;
    assert q * s <= b;
    if n <= q {
      MulMonotone(n, q, s);
    }
    MulMonotone(q + 1, n, s);
    assert (q + 1) * s == q * s + s;
  }

  lemma {:induction false} Pow2Split(n: nat, k: nat)
    requires k <= n
    ensures Pow2(n) == Pow2(n - k) * Pow2(k)
  {
    if k > 0 {
      Pow2Split(n, k - 1);
      assert Pow2(n - k + 1) == 2 * Pow2(n - k);
      MulShuffle(0, 0, Pow2(n - k), 2 * Pow2(k - 1));
    }
  }

  lemma Pow2Values()
    ensures Pow2(0) == 1 && Pow2(8) == 256 && Pow2(16) == 65536 && Pow2(32) == 0x1_0000_0000
  {
    assert Pow2(4) == 16;
    Pow2Split(8, 4);
    Pow2Split(16, 8);
    Pow2Split(32, 16);
  }

  /** A prefix covers the Size(p) consecutive addresses from Low(p) on. */
  function Low(p: Prefix): (low: nat)
    ensures low <= p.base
  {
    DivMod(p.base, Size(p));
    p.base / Size(p) * Size(p)
  }

  lemma MaskedIsLow(p: Prefix)
    ensures Low(p) == p.base - p.base % Size(p)
  {
    DivMod(p.base, Size(p));
  }

  lemma CoversRange(p: Prefix, a: Addr)
    ensures Covers(p, a) <==> Low(p) <= a < Low(p) + Size(p)
  {
    SameBlock(a, p.base, Size(p));
  }

  lemma BlockFits(p: Prefix)
    ensures Low(p) + Size(p) <= 0x1_0000_0000
  {
    Pow2Values();
    Pow2Split(32, 32 - p.bits);
    BlockInside(p.base, Size(p), Pow2(p.bits));
  }

  /** Halving a prefix: a shorter prefix is at least twice as large as a longer one. */
  lemma ShorterIsLarger(p: Prefix, bits: nat)
    requires p.bits < bits <= 32
    ensures Size(p) >= 2 * Pow2(32 - bits)
  {
    Pow2Split(32 - p.bits, 32 - bits);
    assert Pow2(bits - p.bits) == 2 * Pow2(bits - p.bits - 1);
    MulMonotone(2, Pow2(bits - p.bits), Pow2(32 - bits));
  }

  /** A prefix whose base is a multiple of its size covers exactly the addresses from there on. */
  lemma CoversFrom(p: Prefix, q: nat, a: Addr)
    requires p.base == q * Size(p)
    ensures Covers(p, a) <==> p.base <= a < p.base + Size(p)
  {
    DivUnique(p.base, Size(p), q, 0);
    CoversRange(p, a);
  }

  /** 10.128.0.0/9 is 10.128.0.0 to 10.255.255.255. */
  lemma ScenarioSpan(a: Addr)
    ensures Covers(Cidr(Ten(128, 0, 0), 9), a) <==> Ten(128, 0, 0) <= a <= Ten(255, 255, 255)
  {
    Pow2Values();
    Pow2Split(23, 16);
    assert Pow2(7) == 128;
    CoversFrom(Cidr(Ten(128, 0, 0), 9), 21, a);
  }

  /** 10.x.0.0/16 is 10.x.0.0 to 10.x.255.255. */
  lemma SixteenSpan(x: nat, a: Addr)
    requires x < 256
    ensures Covers(Cidr(Ten(x, 0, 0), 16), a) <==> Ten(x, 0, 0) <= a <= Ten(x, 255, 255)
  {
    Pow2Values();
    CoversFrom(Cidr(Ten(x, 0, 0), 16), 2560 + x, a);
  }

  /** A /24 based at a multiple of 256 is the 256 addresses from there on. */
  lemma TwentyFourSpan(base: Addr, a: Addr)
    requires base % 256 == 0
    ensures Covers(Cidr(base, 24), a) <==> base <= a <= base + 255
  {
    Pow2Values();
    CoversFrom(Cidr(base, 24), base / 256, a);
  }
}
