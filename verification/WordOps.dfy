/**
 Unsigned 32-bit arithmetic on integers: the operators of qa/src/keycache2.c, and what they do to
 the bits of a word.
 */
module WordOps {
  import opened Basics

  // All arithmetic is modulo MOD32.
  type Word = x: int | 0 <= x < MOD32

  function Add(x: Word, y: int): Word { (x + y) % MOD32 }

  function Plus(x: Word, y: Word): Word { if x + y < MOD32 then x + y else x + y - MOD32 }

  function Minus(x: Word, y: Word): Word { if x >= y then x - y else x - y + MOD32 }

  function Pow2(n: nat): (r: nat)
    ensures r > 0
  {
    if n == 0 then 1 else 2 * Pow2(n - 1)
  }

  /** Exclusive or of the low n bits. */
  function XorBits(n: nat, x: nat, y: nat): (r: nat)
    ensures r < Pow2(n)
  {
    if n == 0 then 0 else (x % 2 + y % 2) % 2 + 2 * XorBits(n - 1, x / 2, y / 2)
  }

  function Xor(x: Word, y: Word): Word {
    Pow2Is32();
    XorBits(32, x, y)
  }

  /** x << 1 */
  function Twice(x: Word): Word { if x < MOD32 / 2 then 2 * x else 2 * x - MOD32 }

  /** x << n */
  function Left(x: Word, n: nat): Word
    decreases n
  {
    if n == 0 then x else Left(Twice(x), n - 1)
  }

  /** x >> n */
  function Right(x: Word, n: nat): Word { if n == 0 then x else Right(x / 2, n - 1) }

  lemma Pow2Is32()
    ensures Pow2(32) == MOD32
  {
    assert Pow2(8) == 256;
    assert Pow2(16) == 65536;
    assert Pow2(24) == 16777216;
  }

  /** Addition and subtraction are modulo MOD32. */
  lemma ModularArithmetic(x: Word, y: Word)
    ensures Plus(x, y) == (x + y) % MOD32 && Minus(x, y) == (x - y) % MOD32
  {
  }

  // ---------- bits ----------

  /** Bit i, counted from the low end. */
  function Bit(x: nat, i: nat): nat { if i == 0 then x % 2 else Bit(x / 2, i - 1) }

  /** A word is determined by its bits. */
  lemma {:induction false} BitsDetermine(n: nat, x: nat, y: nat)
    requires x < Pow2(n) && y < Pow2(n) && forall i :: 0 <= i < n ==> Bit(x, i) == Bit(y, i)
    ensures x == y
  {
    if n > 0 {
      forall i | 0 <= i < n - 1 ensures Bit(x / 2, i) == Bit(y / 2, i) {
        assert Bit(x, i + 1) == Bit(y, i + 1);
      }
      BitsDetermine(n - 1, x / 2, y / 2);
      assert Bit(x, 0) == Bit(y, 0);
    }
  }

  lemma {:induction false} BitIsBit(x: nat, i: nat)
    ensures Bit(x, i) < 2
    decreases i
  {
    if i > 0 {
      BitIsBit(x / 2, i - 1);
    }
  }

  lemma BitAndRest(b: nat, q: nat)
    requires b < 2
    ensures (b + 2 * q) % 2 == b && (b + 2 * q) / 2 == q
  {
  }

  lemma {:induction false} XorBitAt(n: nat, x: nat, y: nat, i: nat)
    requires i < n
    ensures Bit(XorBits(n, x, y), i) == if Bit(x, i) == Bit(y, i) then 0 else 1
    decreases n
  {
    BitAndRest((x % 2 + y % 2) % 2, XorBits(n - 1, x / 2, y / 2));
    if i > 0 {
      XorBitAt(n - 1, x / 2, y / 2, i - 1);
    }
  }

  lemma {:induction false} RightBit(x: Word, n: nat, i: nat)
    ensures Bit(Right(x, n), i) == Bit(x, n + i)
    decreases n
  {
    if n > 0 {
      RightBit(x / 2, n - 1, i);
    }
  }

  /** Adding a power of two leaves the bits below it alone. */
  lemma {:induction false} BitBelow(x: nat, m: nat, i: nat)
    requires i < m
    ensures Bit(x + Pow2(m), i) == Bit(x, i)
    decreases m
  {
    if i > 0 {
      assert (x + Pow2(m)) / 2 == x / 2 + Pow2(m - 1);
      BitBelow(x / 2, m - 1, i - 1);
    }
  }

  lemma TwiceBit(x: Word, i: nat)
    requires i < 32
    ensures Bit(Twice(x), i) == if i == 0 then 0 else Bit(x, i - 1)
  {
    if i > 0 && x >= MOD32 / 2 {
      Pow2Is32();
      assert Pow2(32) == 2 * Pow2(31);
      BitBelow(x - MOD32 / 2, 31, i - 1);
    }
  }

  lemma {:induction false} LeftBit(x: Word, n: nat, i: nat)
    requires i < 32
    ensures Bit(Left(x, n), i) == if i < n then 0 else Bit(x, i - n)
    decreases n
  {
    if n > 0 {
      LeftBit(Twice(x), n - 1, i);
      if i >= n - 1 {
        TwiceBit(x, i - (n - 1));
      }
    }
  }

  /** What the bitwise operators of the hash do to each bit of a word. */
  lemma BitwiseOperators(x: Word, y: Word, n: nat, i: nat)
    requires i < 32
    ensures Bit(Xor(x, y), i) == if Bit(x, i) == Bit(y, i) then 0 else 1
    ensures Bit(Right(x, n), i) == Bit(x, n + i)
    ensures Bit(Left(x, n), i) == if i < n then 0 else Bit(x, i - n)
  {
    XorBitAt(32, x, y, i);
    RightBit(x, n, i);
    LeftBit(x, n, i);
  }

  /** A right shift divides by a power of two and drops the remainder. */
  lemma {:induction false} RightDivides(x: Word, n: nat)
    ensures 0 <= x - Right(x, n) * Pow2(n) < Pow2(n)
    decreases n
  {
    if n > 0 {
      RightDivides(x / 2, n - 1);
      assert Right(x, n) * Pow2(n) == 2 * (Right(x / 2, n - 1) * Pow2(n - 1));
    }
  }

  // ---------- exclusive or ----------

  lemma BitTwice(x: nat, y: nat)
    ensures ((x % 2 + y % 2) % 2 + y % 2) % 2 == x % 2
  {
  }

  lemma {:induction false} XorTwice(n: nat, x: nat, y: nat)
    requires x < Pow2(n)
    ensures XorBits(n, XorBits(n, x, y), y) == x
  {
    if n > 0 {
      XorTwice(n - 1, x / 2, y / 2);
      var bit, rest := (x % 2 + y % 2) % 2, XorBits(n - 1, x / 2, y / 2);
      BitAndRest(bit, rest);
      assert XorBits(n, x, y) == bit + 2 * rest;
      BitTwice(x, y);
    }
  }

  lemma XorInverse(x: Word, s: Word)
    ensures Xor(Xor(x, s), s) == x
  {
    Pow2Is32();
    XorTwice(32, x, s);
  }

  /** x moved up by m bits. */
  function Up(x: nat, m: nat): nat { if m == 0 then x else 2 * Up(x, m - 1) }

  lemma {:induction false} UpMultiplies(x: nat, m: nat)
    ensures Up(x, m) == Pow2(m) * x
  {
    if m > 0 {
      UpMultiplies(x, m - 1);
    }
  }

  /** The high and the low bits are independent of each other. */
  lemma {:induction false} XorJoined(n: nat, m: nat, p: nat, q: nat, x: nat, y: nat)
    requires p < Pow2(m) && q < Pow2(m)
    ensures XorBits(n + m, p + Up(x, m), q + Up(y, m)) == XorBits(m, p, q) + Up(XorBits(n, x, y), m)
    decreases m
  {
    if m > 0 {
      var u, v := p / 2 + Up(x, m - 1), q / 2 + Up(y, m - 1);
      BitAndRest(p % 2, u);
      BitAndRest(q % 2, v);
      assert p + Up(x, m) == p % 2 + 2 * u && q + Up(y, m) == q % 2 + 2 * v;
      XorJoined(n, m - 1, p / 2, q / 2, x, y);
    }
  }

  /** Three cases in which the result is plain to see. */
  predicate Plain(x: nat, y: nat, z: nat) {
    (x == 0 && z == y) || (y == 0 && z == x) || (x == y && z == 0)
  }

  lemma {:induction false} XorPlain(n: nat, x: nat, y: nat, z: nat)
    requires x < Pow2(n) && y < Pow2(n) && Plain(x, y, z)
    ensures XorBits(n, x, y) == z
  {
    if n > 0 {
      XorPlain(n - 1, x / 2, y / 2, z / 2);
    }
  }

  lemma XorOfTwo(n: nat, m: nat, p: nat, q: nat, r: nat, x: nat, y: nat, z: nat)
    requires p < Pow2(m) && q < Pow2(m) && Plain(p, q, r) && XorBits(n, x, y) == z
    ensures XorBits(n + m, p + Up(x, m), q + Up(y, m)) == r + Up(z, m)
  {
    XorJoined(n, m, p, q, x, y);
    XorPlain(m, p, q, r);
  }

  /** A word of three parts, the lowest first, with i, j and k bits. */
  datatype Parts = Parts(low: nat, mid: nat, high: nat)

  function Upper(p: Parts, j: nat): nat { p.mid + Up(p.high, j) }

  function Whole(p: Parts, i: nat, j: nat): nat { p.low + Up(Upper(p, j), i) }

  predicate Fits(p: Parts, i: nat, j: nat, k: nat) {
    p.low < Pow2(i) && p.mid < Pow2(j) && p.high < Pow2(k)
  }

  /** The result from parts in which it is plain to see. */
  lemma XorOfParts(i: nat, j: nat, k: nat, p: Parts, q: Parts, r: Parts)
    requires Fits(p, i, j, k) && Fits(q, i, j, k)
    requires Plain(p.low, q.low, r.low) && Plain(p.mid, q.mid, r.mid) && Plain(p.high, q.high, r.high)
    ensures XorBits(k + j + i, Whole(p, i, j), Whole(q, i, j)) == Whole(r, i, j)
  {
    var n, x, y, z := k + j, Upper(p, j), Upper(q, j), Upper(r, j);
    assert XorBits(n, x, y) == z by {
      XorPlain(k, p.high, q.high, r.high);
      XorOfTwo(k, j, p.mid, q.mid, r.mid, p.high, q.high, r.high);
    }
    XorOfTwo(n, i, p.low, q.low, r.low, x, y, z);
  }

  lemma XorOfWholes(x: Word, y: Word, z: Word, i: nat, j: nat, k: nat, p: Parts, q: Parts, r: Parts)
    requires i + j + k == 32 && Fits(p, i, j, k) && Fits(q, i, j, k)
    requires Plain(p.low, q.low, r.low) && Plain(p.mid, q.mid, r.mid) && Plain(p.high, q.high, r.high)
    requires x == Whole(p, i, j) && y == Whole(q, i, j) && z == Whole(r, i, j)
    ensures Xor(x, y) == z
  {
    XorOfParts(i, j, k, p, q, r);
  }

  lemma WholeIs(p: Parts, i: nat, j: nat, d: nat, e: nat)
    requires Pow2(i) == d && Pow2(j) == e
    ensures Whole(p, i, j) == p.low + d * (p.mid + e * p.high)
  {
    UpMultiplies(p.high, j);
    UpMultiplies(Upper(p, j), i);
  }

  /** The same with the powers of two worked out. */
  lemma XorIs(x: Word, y: Word, z: Word, i: nat, j: nat, k: nat, d: nat, e: nat, f: nat, p: Parts, q: Parts, r: Parts)
    requires i + j + k == 32 && Pow2(i) == d && Pow2(j) == e && Pow2(k) == f
    requires p.low < d && p.mid < e && p.high < f && q.low < d && q.mid < e && q.high < f
    requires Plain(p.low, q.low, r.low) && Plain(p.mid, q.mid, r.mid) && Plain(p.high, q.high, r.high)
    requires x == p.low + d * (p.mid + e * p.high)
    requires y == q.low + d * (q.mid + e * q.high)
    requires z == r.low + d * (r.mid + e * r.high)
    ensures Xor(x, y) == z
  {
    assert x == Whole(p, i, j) by { WholeIs(p, i, j, d, e); }
    assert y == Whole(q, i, j) by { WholeIs(q, i, j, d, e); }
    assert z == Whole(r, i, j) by { WholeIs(r, i, j, d, e); }
    XorOfWholes(x, y, z, i, j, k, p, q, r);
  }

  // ---------- shifts ----------

  lemma Apart(d: nat, q: nat, r: nat)
    ensures q < r ==> q * d + d <= r * d
  {
    if q < r {
      var k := r - q - 1;
      assert r * d == q * d + d + k * d && k * d >= 0;
    }
  }

  /** There is one quotient only. */
  lemma OneQuotient(x: nat, d: nat, q: nat, r: nat)
    requires q * d <= x < q * d + d && r * d <= x < r * d + d
    ensures q == r
  {
    Apart(d, q, r);
    Apart(d, r, q);
  }

  /** The quotient is the right shift. */
  lemma RightIs(x: Word, n: nat, d: nat, r: nat)
    requires Pow2(n) == d && r * d <= x < r * d + d
    ensures Right(x, n) == r
  {
    RightDivides(x, n);
    OneQuotient(x, d, Right(x, n), r);
  }

  lemma Carried(x: nat, t: nat, d: nat, l: nat, q: nat)
    requires t * d == l + q * MOD32
    ensures t == 2 * x ==> x * (2 * d) == l + q * MOD32
    ensures t == 2 * x - MOD32 ==> x * (2 * d) == l + (q + d) * MOD32
  {
    assert x * (2 * d) == (2 * x) * d;
    if t == 2 * x - MOD32 {
      assert (2 * x) * d == (t + MOD32) * d == t * d + MOD32 * d;
    }
  }

  lemma {:induction false} LeftMultiplies(x: Word, n: nat) returns (q: nat)
    ensures x * Pow2(n) == Left(x, n) + q * MOD32
    decreases n
  {
    q := 0;
    if n > 0 {
      q := LeftMultiplies(Twice(x), n - 1);
      Carried(x, Twice(x), Pow2(n - 1), Left(x, n), q);
      q := if x < MOD32 / 2 then q else q + Pow2(n - 1);
    }
  }

  /** The remainder of the product is the left shift. */
  lemma LeftIs(x: Word, n: nat, d: nat, y: Word, q: nat)
    requires Pow2(n) == d && x * d == y + q * MOD32
    ensures Left(x, n) == y
  {
    var p := LeftMultiplies(x, n);
  }
}
