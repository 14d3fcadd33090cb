/**
 The lookup2 hash of qa/src/keycache2.c on 32-bit words.

 The hash reports only c, so collisions are expected; what is proved is that nothing is lost
 on the way to the final 96-bit state (a, b, c).
 */
module Jenkins {
  import opened Basics
  import opened WordOps

  datatype State = State(a: Word, b: Word, c: Word)

  // ---------- mix is a bijection ----------

  /** One line of the mix macro: x -= y; x -= z; x ^= s. */
  function Stir(x: Word, y: Word, z: Word, s: Word): Word { Xor(Minus(Minus(x, y), z), s) }

  function Unstir(x: Word, y: Word, z: Word, s: Word): Word { Plus(Plus(Xor(x, s), z), y) }

  lemma StirInverse(x: Word, y: Word, z: Word, s: Word)
    ensures Unstir(Stir(x, y, z, s), y, z, s) == x
    ensures Stir(Unstir(x, y, z, s), y, z, s) == x
  {
    XorInverse(Minus(Minus(x, y), z), s);
    XorInverse(x, s);
  }

  /** Three consecutive lines of mix, with their shift distances. */
  function Round(w: State, p: nat, q: nat, r: nat): State {
    var a := Stir(w.a, w.b, w.c, Right(w.c, p));
    var b := Stir(w.b, w.c, a, Left(a, q));
    var c := Stir(w.c, a, b, Right(b, r));
    State(a, b, c)
  }

  function Unround(w: State, p: nat, q: nat, r: nat): State {
    var c := Unstir(w.c, w.a, w.b, Right(w.b, r));
    var b := Unstir(w.b, c, w.a, Left(w.a, q));
    var a := Unstir(w.a, b, c, Right(c, p));
    State(a, b, c)
  }

  lemma RoundInverse(w: State, p: nat, q: nat, r: nat)
    ensures Unround(Round(w, p, q, r), p, q, r) == w
    ensures Round(Unround(w, p, q, r), p, q, r) == w
  {
    var v := Round(w, p, q, r);
    StirInverse(w.c, v.a, v.b, Right(v.b, r));
    StirInverse(w.b, w.c, v.a, Left(v.a, q));
    StirInverse(w.a, w.b, w.c, Right(w.c, p));
    var u := Unround(w, p, q, r);
    StirInverse(w.c, w.a, w.b, Right(w.b, r));
    StirInverse(w.b, u.c, w.a, Left(w.a, q));
    StirInverse(w.a, u.b, u.c, Right(u.c, p));
  }

  /** The mix macro, lines 327-338. */
  function Mix(w: State): State {
    Round(Round(Round(w, 13, 8, 13), 12, 16, 5), 3, 10, 15)
  }

  function Unmix(w: State): State {
    Unround(Unround(Unround(w, 3, 10, 15), 12, 16, 5), 13, 8, 13)
  }

  /** Mixing is reversible, as the comment on mix promises. */
  lemma MixInverse(w: State)
    ensures Unmix(Mix(w)) == w
    ensures Mix(Unmix(w)) == w
  {
    var w1 := Round(w, 13, 8, 13);
    var w2 := Round(w1, 12, 16, 5);
    RoundInverse(w, 13, 8, 13);
    RoundInverse(w1, 12, 16, 5);
    RoundInverse(w2, 3, 10, 15);
    var u2 := Unround(w, 3, 10, 15);
    var u1 := Unround(u2, 12, 16, 5);
    RoundInverse(w, 3, 10, 15);
    RoundInverse(u2, 12, 16, 5);
    RoundInverse(u1, 13, 8, 13);
  }

  /** The nine lines of the macro on its three variables. */
  method MixLines(a0: Word, b0: Word, c0: Word) returns (a: Word, b: Word, c: Word)
    ensures State(a, b, c) == Mix(State(a0, b0, c0))
  {
    a, b, c := a0, b0, c0;
    a := Minus(a, b); a := Minus(a, c); a := Xor(a, Right(c, 13));
    b := Minus(b, c); b := Minus(b, a); b := Xor(b, Left(a, 8));
    c := Minus(c, a); c := Minus(c, b); c := Xor(c, Right(b, 13));
    a := Minus(a, b); a := Minus(a, c); a := Xor(a, Right(c, 12));
    b := Minus(b, c); b := Minus(b, a); b := Xor(b, Left(a, 16));
    c := Minus(c, a); c := Minus(c, b); c := Xor(c, Right(b, 5));
    a := Minus(a, b); a := Minus(a, c); a := Xor(a, Right(c, 3));
    b := Minus(b, c); b := Minus(b, a); b := Xor(b, Left(a, 10));
    c := Minus(c, a); c := Minus(c, b); c := Xor(c, Right(b, 15));
  }

  // ---------- a state and what becomes of it ----------

  lemma Powers()
    ensures Pow2(0) == 1 && Pow2(1) == 2 && Pow2(3) == 8 && Pow2(4) == 0x10 && Pow2(5) == 0x20
    ensures Pow2(7) == 0x80 && Pow2(8) == 0x100 && Pow2(9) == 0x200 && Pow2(10) == 0x400 && Pow2(11) == 0x800
    ensures Pow2(12) == 0x1000 && Pow2(13) == 0x2000 && Pow2(14) == 0x4000 && Pow2(15) == 0x8000 && Pow2(16) == 0x10000
    ensures Pow2(18) == 0x40000 && Pow2(21) == 0x200000 && Pow2(22) == 0x400000
    ensures Pow2(25) == 0x2000000 && Pow2(28) == 0x10000000
  {
    assert Pow2(8) == 0x100 && Pow2(16) == 0x10000 && Pow2(24) == 0x1000000;
  }

  lemma Line1(x: Word, y: Word, z: Word)
    requires x == 0xf90d8042 && y == 0xf904c100 && z == 0x84300
    ensures Stir(x, y, z, Right(z, 13)) == 0x7c00
  {
    Powers();
    RightIs(z, 13, 0x2000, 0x42);
    XorIs(Minus(Minus(x, y), z), Right(z, 13), 0x7c00,
          10, 0, 22, 0x400, 1, 0x400000, Parts(0x42, 0, 0x1f), Parts(0x42, 0, 0), Parts(0, 0, 0x1f));
  }

  lemma Line2(x: Word, y: Word, z: Word)
    requires x == 0xf904c100 && y == 0x84300 && z == 0x7c00
    ensures Stir(x, y, z, Left(z, 8)) == 0xf8800200
  {
    Powers();
    LeftIs(z, 8, 0x100, 0x7c0000, 0);
    XorIs(Minus(Minus(x, y), z), Left(z, 8), 0xf8800200,
          18, 5, 9, 0x40000, 0x20, 0x200, Parts(0x200, 0x1f, 0x1f1), Parts(0, 0x1f, 0), Parts(0x200, 0, 0x1f1));
  }

  lemma Line3(x: Word, y: Word, z: Word)
    requires x == 0x84300 && y == 0x7c00 && z == 0xf8800200
    ensures Stir(x, y, z, Right(z, 13)) == 0x7800100
  {
    Powers();
    RightIs(z, 13, 0x2000, 0x7c400);
    XorIs(Minus(Minus(x, y), z), Right(z, 13), 0x7800100,
          10, 13, 9, 0x400, 0x2000, 0x200, Parts(0x100, 0x1f1, 0xf), Parts(0, 0x1f1, 0), Parts(0x100, 0, 0xf));
  }

  lemma Line4(x: Word, y: Word, z: Word)
    requires x == 0x7c00 && y == 0xf8800200 && z == 0x7800100
    ensures Stir(x, y, z, Right(z, 12)) == 0x100
  {
    Powers();
    RightIs(z, 12, 0x1000, 0x7800);
    XorIs(Minus(Minus(x, y), z), Right(z, 12), 0x100,
          11, 0, 21, 0x800, 1, 0x200000, Parts(0x100, 0, 0xf), Parts(0, 0, 0xf), Parts(0x100, 0, 0));
  }

  lemma Line5(x: Word, y: Word, z: Word)
    requires x == 0xf8800200 && y == 0x7800100 && z == 0x100
    ensures Stir(x, y, z, Left(z, 16)) == 0xf0000000
  {
    Powers();
    LeftIs(z, 16, 0x10000, 0x1000000, 0);
    XorIs(Minus(Minus(x, y), z), Left(z, 16), 0xf0000000,
          28, 0, 4, 0x10000000, 1, 0x10, Parts(0x1000000, 0, 0xf), Parts(0x1000000, 0, 0), Parts(0, 0, 0xf));
  }

  lemma Line6(x: Word, y: Word, z: Word)
    requires x == 0x7800100 && y == 0x100 && z == 0xf0000000
    ensures Stir(x, y, z, Right(z, 5)) == 0x10000000
  {
    Powers();
    RightIs(z, 5, 0x20, 0x7800000);
    XorIs(Minus(Minus(x, y), z), Right(z, 5), 0x10000000,
          28, 0, 4, 0x10000000, 1, 0x10, Parts(0x7800000, 0, 1), Parts(0x7800000, 0, 0), Parts(0, 0, 1));
  }

  lemma Line7(x: Word, y: Word, z: Word)
    requires x == 0x100 && y == 0xf0000000 && z == 0x10000000
    ensures Stir(x, y, z, Right(z, 3)) == 0x2000100
  {
    Powers();
    RightIs(z, 3, 8, 0x2000000);
    XorIs(Minus(Minus(x, y), z), Right(z, 3), 0x2000100,
          25, 0, 7, 0x2000000, 1, 0x80, Parts(0x100, 0, 0), Parts(0, 0, 1), Parts(0x100, 0, 1));
  }

  lemma Line8(x: Word, y: Word, z: Word)
    requires x == 0xf0000000 && y == 0x10000000 && z == 0x2000100
    ensures Stir(x, y, z, Left(z, 10)) == 0xddfbff00
  {
    Powers();
    LeftIs(z, 10, 0x400, 0x40000, 8);
    XorIs(Minus(Minus(x, y), z), Left(z, 10), 0xddfbff00,
          18, 1, 13, 0x40000, 2, 0x2000, Parts(0x3ff00, 1, 0x1bbf), Parts(0, 1, 0), Parts(0x3ff00, 0, 0x1bbf));
  }

  lemma Line9(x: Word, y: Word, z: Word)
    requires x == 0x10000000 && y == 0x2000100 && z == 0xddfbff00
    ensures Stir(x, y, z, Right(z, 15)) == 0x3005bbf7
  {
    Powers();
    RightIs(z, 15, 0x8000, 0x1bbf7);
    XorIs(Minus(Minus(x, y), z), Right(z, 15), 0x3005bbf7,
          18, 0, 14, 0x40000, 1, 0x4000, Parts(0, 0, 0xc01), Parts(0x1bbf7, 0, 0), Parts(0x1bbf7, 0, 0xc01));
  }

  lemma RoundIs(w: State, p: nat, q: nat, r: nat, v: State)
    requires Stir(w.a, w.b, w.c, Right(w.c, p)) == v.a
    requires Stir(w.b, w.c, v.a, Left(v.a, q)) == v.b
    requires Stir(w.c, v.a, v.b, Right(v.b, r)) == v.c
    ensures Round(w, p, q, r) == v
  {
  }

  lemma Lines1to3(w: State, v: State)
    requires w == State(0xf90d8042, 0xf904c100, 0x84300) && v == State(0x7c00, 0xf8800200, 0x7800100)
    ensures Round(w, 13, 8, 13) == v
  {
    Line1(w.a, w.b, w.c);
    Line2(w.b, w.c, v.a);
    Line3(w.c, v.a, v.b);
    RoundIs(w, 13, 8, 13, v);
  }

  lemma Lines4to6(w: State, v: State)
    requires w == State(0x7c00, 0xf8800200, 0x7800100) && v == State(0x100, 0xf0000000, 0x10000000)
    ensures Round(w, 12, 16, 5) == v
  {
    Line4(w.a, w.b, w.c);
    Line5(w.b, w.c, v.a);
    Line6(w.c, v.a, v.b);
    RoundIs(w, 12, 16, 5, v);
  }

  lemma Lines7to9(w: State, v: State)
    requires w == State(0x100, 0xf0000000, 0x10000000) && v == State(0x2000100, 0xddfbff00, 0x3005bbf7)
    ensures Round(w, 3, 10, 15) == v
  {
    Line7(w.a, w.b, w.c);
    Line8(w.b, w.c, v.a);
    Line9(w.c, v.a, v.b);
    RoundIs(w, 3, 10, 15, v);
  }

  /** One state and what it is mixed to; each of the nine shift distances matters for it. */
  lemma MixedState()
    ensures Mix(State(0xf90d8042, 0xf904c100, 0x84300)) == State(0x2000100, 0xddfbff00, 0x3005bbf7)
  {
    var w1, w2 := State(0x7c00, 0xf8800200, 0x7800100), State(0x100, 0xf0000000, 0x10000000);
    Lines1to3(State(0xf90d8042, 0xf904c100, 0x84300), w1);
    Lines4to6(w1, w2);
    Lines7to9(w2, State(0x2000100, 0xddfbff00, 0x3005bbf7));
  }

  // ---------- absorbing the key ----------

  /** The char values of a platform: 256 consecutive integers from lo, -128 or 0 in practice. */
  predicate Chars(lo: int, k: seq<int>) {
    forall i :: 0 <= i < |k| ==> lo <= k[i] < lo + 256
  }

  /** Byte i of the key, or nothing past its end. */
  function At(k: seq<int>, i: nat): int { if i < |k| then k[i] else 0 }

  /** k[i] + (k[i+1]<<8) + (k[i+2]<<16) + (k[i+3]<<24), before reduction modulo MOD32. */
  function Quad(k: seq<int>, i: nat): int {
    At(k, i) + 256 * At(k, i + 1) + 65536 * At(k, i + 2) + 16777216 * At(k, i + 3)
  }

  /** What is added to c: a key word, or the length with a key word shifted above it. */
  function Feed(k: seq<int>, top: int, w: State): State {
    State(Add(w.a, Quad(k, 0)), Add(w.b, Quad(k, 4)), Add(w.c, top))
  }

  /** The mixing step is a parameter from here on: the results below hold for every reversible one. */
  type Mixer = State -> State

  ghost predicate Reversible(f: Mixer) {
    forall w, v :: f(w) == f(v) ==> w == v
  }

  /** Lines 381-387 for one 12-byte block. */
  function Absorb(f: Mixer, k: seq<int>, w: State): State {
    f(Feed(k, Quad(k, 8), w))
  }

  /** The loop of lines 379-389. */
  function Blocks(f: Mixer, k: seq<int>, w: State): State {
    if |k| < 12 then w else Blocks(f, k[12..], Absorb(f, k[..12], w))
  }

  /** The bytes the loop leaves over. */
  function Tail(k: seq<int>): (t: seq<int>)
    ensures |t| < 12
  {
    if |k| < 12 then k else Tail(k[12..])
  }

  /** Lines 392-408 for the last 11 bytes; the low byte of c takes the length instead of a key byte. */
  function Last(k: seq<int>, length: nat, w: State): State
    requires |k| < 12
  {
    Feed(k, length + 256 * Quad(k, 8), w)
  }

  /** The golden ratio, line 375. */
  const GOLDEN: Word := 0x9e3779b9

  /** The state after the mix of line 409, from which the hash reports c. */
  function Final(f: Mixer, k: seq<int>, initval: Word): State {
    f(Last(Tail(k), |k|, Blocks(f, k, State(GOLDEN, GOLDEN, initval))))
  }

  lemma AddAdd(x: Word, y: int, z: int)
    ensures Add(Add(x, y), z) == Add(x, y + z)
  {
  }

  /** Lines 392-408: the length, then the switch in which every case falls through. */
  method FallThrough(k: seq<int>, length: nat, a0: Word, b0: Word, c0: Word) returns (a: Word, b: Word, c: Word)
    requires |k| < 12
    ensures a == Add(a0, Quad(k, 0)) && b == Add(b0, Quad(k, 4)) && c == Add(c0, length + 256 * Quad(k, 8))
  {
    a, b, c := a0, b0, Add(c0, length);
    ghost var x, y, z := 0, 0, length as int;  // what has been added to each
    if |k| >= 11 { AddAdd(c0, z, 16777216 * k[10]); c, z := Add(c, 16777216 * k[10]), z + 16777216 * k[10]; }
    if |k| >= 10 { AddAdd(c0, z, 65536 * k[9]); c, z := Add(c, 65536 * k[9]), z + 65536 * k[9]; }
    if |k| >= 9 { AddAdd(c0, z, 256 * k[8]); c, z := Add(c, 256 * k[8]), z + 256 * k[8]; }
    if |k| >= 8 { AddAdd(b0, y, 16777216 * k[7]); b, y := Add(b, 16777216 * k[7]), y + 16777216 * k[7]; }
    if |k| >= 7 { AddAdd(b0, y, 65536 * k[6]); b, y := Add(b, 65536 * k[6]), y + 65536 * k[6]; }
    if |k| >= 6 { AddAdd(b0, y, 256 * k[5]); b, y := Add(b, 256 * k[5]), y + 256 * k[5]; }
    if |k| >= 5 { AddAdd(b0, y, k[4]); b, y := Add(b, k[4]), y + k[4]; }
    if |k| >= 4 { AddAdd(a0, x, 16777216 * k[3]); a, x := Add(a, 16777216 * k[3]), x + 16777216 * k[3]; }
    if |k| >= 3 { AddAdd(a0, x, 65536 * k[2]); a, x := Add(a, 65536 * k[2]), x + 65536 * k[2]; }
    if |k| >= 2 { AddAdd(a0, x, 256 * k[1]); a, x := Add(a, 256 * k[1]), x + 256 * k[1]; }
    if |k| >= 1 { AddAdd(a0, x, k[0]); a, x := Add(a, k[0]), x + k[0]; }
    assert x == Quad(k, 0) && y == Quad(k, 4) && z == length + 256 * Quad(k, 8);
  }

  /** The hash function, for any mixing step. */
  method HashWith(f: Mixer, k: seq<int>, initval: Word) returns (h: Word)
    ensures h == Final(f, k, initval).c
  {
    var a, b, c: Word := GOLDEN, GOLDEN, initval;
    var rest := k;
    while |rest| >= 12
      invariant Tail(rest) == Tail(k)
      invariant Blocks(f, rest, State(a, b, c)) == Blocks(f, k, State(GOLDEN, GOLDEN, initval))
    {
      ghost var w0 := State(a, b, c);
      var block := rest[..12];
      a := Add(a, Quad(block, 0));
      b := Add(b, Quad(block, 4));
      c := Add(c, Quad(block, 8));
      var w := f(State(a, b, c));
      assert w == Absorb(f, block, w0);
      a, b, c := w.a, w.b, w.c;
      rest := rest[12..];
    }
    a, b, c := FallThrough(rest, |k|, a, b, c);
    h := f(State(a, b, c)).c;
  }

  /** The hash function with the mix of the source. */
  method Hash(k: seq<int>, initval: Word) returns (h: Word)
    ensures h == Final(Mix, k, initval).c
  {
    h := HashWith(Mix, k, initval);
  }

  // ---------- nothing is lost ----------

  lemma MixIsReversible()
    ensures Reversible(Mix)
  {
    forall w, v | Mix(w) == Mix(v) ensures w == v {
      MixInverse(w);
      MixInverse(v);
    }
  }

  /** Two sums agree modulo MOD32; so do what was added, if the words added to are the same. */
  lemma AddSame(x: Word, y: int, z: int)
    requires Add(x, y) == Add(x, z)
    ensures (y - z) % MOD32 == 0
  {
  }

  lemma AddInjective(x: Word, v: Word, y: int)
    requires Add(x, y) == Add(v, y)
    ensures x == v
  {
  }

  lemma SmallMultiple(d: int, e: int)
    requires -256 < d < 256 && (d + 256 * e) % 256 == 0
    ensures d == 0
  {
  }

  /** Base 256 with digits that may be negative: a multiple of MOD32 made of four small differences is zero throughout. */
  lemma Digits(d0: int, d1: int, d2: int, d3: int)
    requires -256 < d0 < 256 && -256 < d1 < 256 && -256 < d2 < 256 && -256 < d3 < 256
    requires (d0 + 256 * d1 + 65536 * d2 + 16777216 * d3) % MOD32 == 0
    ensures d0 == 0 && d1 == 0 && d2 == 0 && d3 == 0
  {
    var q := (d0 + 256 * d1 + 65536 * d2 + 16777216 * d3) / MOD32;
    assert d0 + 256 * (d1 + 256 * d2 + 65536 * d3 - 16777216 * q) == 0;
    SmallMultiple(d0, d1 + 256 * d2 + 65536 * d3 - 16777216 * q);
    SmallMultiple(d1, d2 + 256 * d3 - 65536 * q);
    SmallMultiple(d2, d3 - 256 * q);
    SmallMultiple(d3, -q);
  }

  /** A word determines its four chars, sign extension notwithstanding. */
  lemma QuadInjective(lo: int, k: seq<int>, j: seq<int>, i: nat, x: Word)
    requires Chars(lo, k) && Chars(lo, j) && |k| == |j|
    requires Add(x, Quad(k, i)) == Add(x, Quad(j, i))
    ensures forall n :: i <= n < i + 4 && n < |k| ==> k[n] == j[n]
  {
    AddSame(x, Quad(k, i), Quad(j, i));
    Digits(At(k, i) - At(j, i), At(k, i + 1) - At(j, i + 1), At(k, i + 2) - At(j, i + 2), At(k, i + 3) - At(j, i + 3));
  }

  lemma FeedInjectiveInState(k: seq<int>, top: int, w: State, v: State)
    requires Feed(k, top, w) == Feed(k, top, v)
    ensures w == v
  {
    AddInjective(w.a, v.a, Quad(k, 0));
    AddInjective(w.b, v.b, Quad(k, 4));
    AddInjective(w.c, v.c, top);
  }

  lemma FeedInjectiveInKey(lo: int, k: seq<int>, j: seq<int>, top: int, bottom: int, w: State)
    requires Chars(lo, k) && Chars(lo, j) && |k| == |j|
    requires Feed(k, top, w) == Feed(j, bottom, w)
    ensures forall n :: 0 <= n < 8 && n < |k| ==> k[n] == j[n]
    ensures (top - bottom) % MOD32 == 0
  {
    QuadInjective(lo, k, j, 0, w.a);
    QuadInjective(lo, k, j, 4, w.b);
    AddSame(w.c, top, bottom);
  }

  lemma AbsorbInjectiveInKey(f: Mixer, lo: int, k: seq<int>, j: seq<int>, w: State)
    requires Reversible(f) && Chars(lo, k) && Chars(lo, j) && |k| == |j| == 12
    requires Absorb(f, k, w) == Absorb(f, j, w)
    ensures k == j
  {
    FeedInjectiveInKey(lo, k, j, Quad(k, 8), Quad(j, 8), w);
    QuadInjective(lo, k, j, 8, w.c);
  }

  lemma AbsorbInjectiveInState(f: Mixer, k: seq<int>, w: State, v: State)
    requires Reversible(f) && Absorb(f, k, w) == Absorb(f, k, v)
    ensures w == v
  {
    FeedInjectiveInState(k, Quad(k, 8), w, v);
  }

  lemma LastInjectiveInState(k: seq<int>, length: nat, w: State, v: State)
    requires |k| < 12 && Last(k, length, w) == Last(k, length, v)
    ensures w == v
  {
    FeedInjectiveInState(k, length + 256 * Quad(k, 8), w, v);
  }

  lemma LastInjectiveInKey(lo: int, k: seq<int>, j: seq<int>, length: nat, w: State)
    requires Chars(lo, k) && Chars(lo, j) && |k| == |j| < 12
    requires Last(k, length, w) == Last(j, length, w)
    ensures k == j
  {
    FeedInjectiveInKey(lo, k, j, length + 256 * Quad(k, 8), length + 256 * Quad(j, 8), w);
    TopInjective(lo, k, j);
  }

  lemma TopInjective(lo: int, k: seq<int>, j: seq<int>)
    requires Chars(lo, k) && Chars(lo, j) && |k| == |j| < 12
    requires (256 * Quad(k, 8) - 256 * Quad(j, 8)) % MOD32 == 0
    ensures forall n :: 8 <= n < |k| ==> k[n] == j[n]
  {
    TopDigits(At(k, 8) - At(j, 8), At(k, 9) - At(j, 9), At(k, 10) - At(j, 10));
  }

  lemma TopDigits(d0: int, d1: int, d2: int)
    requires -256 < d0 < 256 && -256 < d1 < 256 && -256 < d2 < 256
    requires (256 * (d0 + 256 * d1 + 65536 * d2)) % MOD32 == 0
    ensures d0 == 0 && d1 == 0 && d2 == 0
  {
    Digits(0, d0, d1, d2);
  }

  /** The low byte of c carries the length, so no key byte can disguise it. */
  lemma LengthInLowByte(n: nat, m: nat, e: int)
    requires n < 256 && m < 256 && (n - m + 256 * e) % MOD32 == 0
    ensures n == m
  {
    var q := (n - m + 256 * e) / MOD32;
    assert n - m + 256 * (e - 16777216 * q) == 0;
    SmallMultiple(n - m, e - 16777216 * q);
  }

  lemma LastInjectiveInLength(k: seq<int>, j: seq<int>, w: State)
    requires |k| < 12 && |j| < 12 && Last(k, |k|, w) == Last(j, |j|, w)
    ensures |k| == |j|
  {
    AddSame(w.c, |k| + 256 * Quad(k, 8), |j| + 256 * Quad(j, 8));
    LengthInLowByte(|k|, |j|, Quad(k, 8) - Quad(j, 8));
  }

  /** With the same key, different states stay different. */
  lemma {:induction false} BlocksInjectiveInState(f: Mixer, k: seq<int>, w: State, v: State)
    requires Reversible(f) && Blocks(f, k, w) == Blocks(f, k, v)
    ensures w == v
    decreases |k|
  {
    if |k| >= 12 {
      BlocksInjectiveInState(f, k[12..], Absorb(f, k[..12], w), Absorb(f, k[..12], v));
      AbsorbInjectiveInState(f, k[..12], w, v);
    }
  }

  /** Keys that agree outside block i and leave the loop in the same state agree inside it. */
  lemma {:induction false} BlocksTellBlocksApart(f: Mixer, lo: int, k: seq<int>, j: seq<int>, i: nat, w: State)
    requires Reversible(f) && Chars(lo, k) && Chars(lo, j) && |k| == |j| && 12 * (i + 1) <= |k|
    requires k[..12 * i] == j[..12 * i] && k[12 * (i + 1)..] == j[12 * (i + 1)..]
    ensures Tail(k) == Tail(j)
    ensures Blocks(f, k, w) == Blocks(f, j, w) ==> k == j
    decreases i
  {
    assert k == k[..12] + k[12..] && j == j[..12] + j[12..];
    if i == 0 {
      if Blocks(f, k, w) == Blocks(f, j, w) {
        BlocksInjectiveInState(f, k[12..], Absorb(f, k[..12], w), Absorb(f, j[..12], w));
        AbsorbInjectiveInKey(f, lo, k[..12], j[..12], w);
      }
    } else {
      assert k[..12] == k[..12 * i][..12] && j[..12] == j[..12 * i][..12];
      assert k[12..][..12 * (i - 1)] == k[..12 * i][12..] && j[12..][..12 * (i - 1)] == j[..12 * i][12..];
      assert k[12..][12 * i..] == k[12 * (i + 1)..] && j[12..][12 * i..] == j[12 * (i + 1)..];
      BlocksTellBlocksApart(f, lo, k[12..], j[12..], i - 1, Absorb(f, k[..12], w));
    }
  }

  /**
   Two keys of the same length that agree outside one 12-byte block reach the same final state
   only if they agree inside it.
   */
  lemma OneBlockNeverCollides(f: Mixer, lo: int, k: seq<int>, j: seq<int>, i: nat, initval: Word)
    requires Reversible(f) && Chars(lo, k) && Chars(lo, j) && |k| == |j| && 12 * (i + 1) <= |k|
    requires k[..12 * i] == j[..12 * i] && k[12 * (i + 1)..] == j[12 * (i + 1)..]
    ensures Final(f, k, initval) == Final(f, j, initval) <==> k == j
  {
    var w := State(GOLDEN, GOLDEN, initval);
    BlocksTellBlocksApart(f, lo, k, j, i, w);
    if Final(f, k, initval) == Final(f, j, initval) {
      LastInjectiveInState(Tail(k), |k|, Blocks(f, k, w), Blocks(f, j, w));
    }
  }

  /** The loop sees only the whole blocks, the switch only the rest. */
  lemma {:induction false} SplitAtTail(f: Mixer, k: seq<int>, j: seq<int>, m: nat, w: State)
    requires |k| == |j| && 12 * m <= |k| < 12 * m + 12 && k[..12 * m] == j[..12 * m]
    ensures Tail(k) == k[12 * m..] && Tail(j) == j[12 * m..]
    ensures Blocks(f, k, w) == Blocks(f, j, w)
    decreases m
  {
    if m > 0 {
      assert k[..12] == k[..12 * m][..12] && j[..12] == j[..12 * m][..12];
      assert k[12..][..12 * (m - 1)] == k[..12 * m][12..] && j[12..][..12 * (m - 1)] == j[..12 * m][12..];
      assert k[12..][12 * (m - 1)..] == k[12 * m..] && j[12..][12 * (m - 1)..] == j[12 * m..];
      SplitAtTail(f, k[12..], j[12..], m - 1, Absorb(f, k[..12], w));
    }
  }

  /** The same for keys that agree on all m whole blocks. */
  lemma TailNeverCollides(f: Mixer, lo: int, k: seq<int>, j: seq<int>, m: nat, initval: Word)
    requires Reversible(f) && Chars(lo, k) && Chars(lo, j) && |k| == |j| && 12 * m <= |k| < 12 * m + 12
    requires k[..12 * m] == j[..12 * m]
    ensures Final(f, k, initval) == Final(f, j, initval) <==> k == j
  {
    var w := State(GOLDEN, GOLDEN, initval);
    SplitAtTail(f, k, j, m, w);
    assert k == k[..12 * m] + k[12 * m..] && j == j[..12 * m] + j[12 * m..];
    if Final(f, k, initval) == Final(f, j, initval) {
      LastInjectiveInKey(lo, Tail(k), Tail(j), |k|, Blocks(f, k, w));
    }
  }

  /** Keys of at most 11 bytes, whatever their lengths, never collide. */
  lemma ShortKeysNeverCollide(f: Mixer, lo: int, k: seq<int>, j: seq<int>, initval: Word)
    requires Reversible(f) && Chars(lo, k) && Chars(lo, j) && |k| < 12 && |j| < 12
    ensures Final(f, k, initval) == Final(f, j, initval) <==> k == j
  {
    var w := State(GOLDEN, GOLDEN, initval);
    if Final(f, k, initval) == Final(f, j, initval) {
      LastInjectiveInLength(k, j, w);
      LastInjectiveInKey(lo, k, j, |k|, w);
    }
  }

  /** Keys that agree except inside block i. */
  predicate AgreeOutsideBlock(k: seq<int>, j: seq<int>, i: nat) {
    |k| == |j| && 12 * (i + 1) <= |k| && k[..12 * i] == j[..12 * i] && k[12 * (i + 1)..] == j[12 * (i + 1)..]
  }

  /** Keys that agree on all their m whole blocks. */
  predicate AgreeOnBlocks(k: seq<int>, j: seq<int>, m: nat) {
    |k| == |j| && 12 * m <= |k| < 12 * m + 12 && k[..12 * m] == j[..12 * m]
  }

  /** The three results for the mix of the source. */
  lemma FinalStateTellsKeysApart(lo: int, k: seq<int>, j: seq<int>, initval: Word)
    requires Chars(lo, k) && Chars(lo, j) && Final(Mix, k, initval) == Final(Mix, j, initval)
    ensures |k| < 12 && |j| < 12 ==> k == j
    ensures forall i: nat :: AgreeOutsideBlock(k, j, i) ==> k == j
    ensures forall m: nat :: AgreeOnBlocks(k, j, m) ==> k == j
  {
    MixIsReversible();
    if |k| < 12 && |j| < 12 { ShortKeysNeverCollide(Mix, lo, k, j, initval); }
    forall i: nat | AgreeOutsideBlock(k, j, i) ensures k == j { OneBlockNeverCollides(Mix, lo, k, j, i, initval); }
    forall m: nat | AgreeOnBlocks(k, j, m) ensures k == j { TailNeverCollides(Mix, lo, k, j, m, initval); }
  }

  // ---------- where the bytes of a key go ----------

  /** Byte j of a word, counted from the low end. */
  function ByteOf(x: nat, j: nat): nat { if j == 0 then x % 256 else ByteOf(x / 256, j - 1) }

  lemma LowByte(d: nat, rest: nat)
    requires d < 256
    ensures (d + 256 * rest) % 256 == d && (d + 256 * rest) / 256 == rest
  {
  }

  /** Four bytes fill a word from its low end. */
  lemma QuadFills(k: seq<int>, i: nat)
    requires Chars(0, k)
    ensures var x := Quad(k, i);
      && 0 <= x < MOD32
      && ByteOf(x, 0) == At(k, i) && ByteOf(x, 1) == At(k, i + 1)
      && ByteOf(x, 2) == At(k, i + 2) && ByteOf(x, 3) == At(k, i + 3)
  {
    var d0, d1, d2, d3 := At(k, i), At(k, i + 1), At(k, i + 2), At(k, i + 3);
    LowByte(d0, d1 + 256 * d2 + 65536 * d3);
    LowByte(d1, d2 + 256 * d3);
    LowByte(d2, d3);
    var x := Quad(k, i);
    assert x == d0 + 256 * (d1 + 256 * d2 + 65536 * d3) && x / 256 == d1 + 256 * (d2 + 256 * d3);
    assert x / 256 / 256 == d2 + 256 * d3 && x / 256 / 256 / 256 == d3;
    assert ByteOf(x, 2) == ByteOf(x / 256, 1) == ByteOf(x / 256 / 256, 0);
    assert ByteOf(x, 3) == ByteOf(x / 256, 2) == ByteOf(x / 256 / 256, 1) == ByteOf(x / 256 / 256 / 256, 0);
  }

  /** Whole blocks are absorbed one after the other, and only the bytes behind them are left. */
  lemma {:induction false} BlocksInTurn(f: Mixer, a: seq<int>, b: seq<int>, w: State)
    requires |a| % 12 == 0
    ensures Blocks(f, a + b, w) == Blocks(f, b, Blocks(f, a, w)) && Tail(a + b) == Tail(b)
    decreases |a|
  {
    if a == [] {
      assert a + b == b;
    } else {
      assert (a + b)[..12] == a[..12] && (a + b)[12..] == a[12..] + b;
      BlocksInTurn(f, a[12..], b, Absorb(f, a[..12], w));
    }
  }

  /** In place of mixing, a count of how often it is done. */
  function Count(w: State): State { State(Add(w.a, 1), w.b, w.c) }

  lemma QuadBehind(k: seq<int>, i: nat)
    requires 12 <= |k|
    ensures Quad(k[12..], i) == Quad(k, 12 + i) && (i <= 8 ==> Quad(k[..12], i) == Quad(k, i))
  {
  }

  /** A short key is added to the start values, its length below its last bytes, and mixed once. */
  lemma ShortKeyAdded(k: seq<int>, initval: Word)
    requires |k| < 12
    ensures Final(Count, k, initval) ==
      State((0x9e3779b9 + Quad(k, 0) + 1) % MOD32, (0x9e3779b9 + Quad(k, 4)) % MOD32,
            (initval + |k| + 256 * Quad(k, 8)) % MOD32)
  {
    AddAdd(GOLDEN, Quad(k, 0), 1);
    assert initval + (|k| + 256 * Quad(k, 8)) == initval + |k| + 256 * Quad(k, 8);
  }

  /** A key of one block and a rest is added up, with the length of the whole key, and mixed twice. */
  lemma LongerKeyAdded(k: seq<int>, initval: Word)
    requires 12 <= |k| < 24
    ensures Final(Count, k, initval) ==
      State((0x9e3779b9 + Quad(k, 0) + 1 + Quad(k, 12) + 1) % MOD32, (0x9e3779b9 + Quad(k, 4) + Quad(k, 16)) % MOD32,
            (initval + Quad(k, 8) + |k| + 256 * Quad(k, 20)) % MOD32)
  {
    QuadBehind(k, 0);
    QuadBehind(k, 4);
    QuadBehind(k, 8);
    AddAdd(GOLDEN, Quad(k, 0), 1);
    AddAdd(GOLDEN, Quad(k, 0) + 1, Quad(k, 12));
    AddAdd(GOLDEN, Quad(k, 0) + 1 + Quad(k, 12), 1);
    AddAdd(GOLDEN, Quad(k, 4), Quad(k, 16));
    AddAdd(initval, Quad(k, 8), |k| + 256 * Quad(k, 20));
    var w := Absorb(Count, k[..12], State(GOLDEN, GOLDEN, initval));
    assert Blocks(Count, k[12..], w) == w && Tail(k) == k[12..];
  }

  lemma KeyOfEight(f: Mixer, k: seq<int>)
    requires k == [0x89, 0x06, 0xd6, 0x5a, 0x47, 0x47, 0xcd, 0x5a]
    ensures Final(f, k, 0x842f8) == f(State(0xf90d8042, 0xf904c100, 0x84300))
  {
    assert Quad(k, 0) == 0x5ad60689 && Quad(k, 4) == 0x5acd4747 && Quad(k, 8) == 0;
  }

  /** The hash of a key of eight bytes. */
  lemma HashedKey(k: seq<int>)
    requires k == [0x89, 0x06, 0xd6, 0x5a, 0x47, 0x47, 0xcd, 0x5a]
    ensures Final(Mix, k, 0x842f8).c == 0x3005bbf7
  {
    KeyOfEight(Mix, k);
    MixedState();
  }
}
