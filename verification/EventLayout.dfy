/**
 Packed arrays of event records: the layout built by qa/src/unpack.c and the walk of
 pmUnpackEventRecords (src/libpcp/src/events.c:166-439) over it.
 */
module EventLayout {
  import opened Basics

  /**
   Memory: a cell per byte.  A 32-bit field is kept whole in the first of its four cells, so that
   byte order plays no part; all fields lie at multiples of four.
   */
  type Cells = seq<int>

  const LEN_LIMIT := 0x100_0000
  const MISSED := 0x8000_0000

  /** The nine value types; 6 to 8 are string and aggregates, of any length. */
  datatype Param = Param(pmid: int, kind: int, value: Cells)

  predicate IsParam(x: Param) {
    && 0 <= x.pmid < MOD32 && 0 <= x.kind <= 8
    && (x.kind < 6 ==> |x.value| == FixedSize(x.kind))
  }

  function FixedSize(kind: int): nat {
    if kind == 2 || kind == 3 || kind == 5 then 8 else 4
  }

  /** An event, or a record of `missed` lost events, which has flags MISSED and no parameters. */
  datatype Event = Event(sec: int, usec: int, flags: int, params: seq<Param>, missed: int)

  /** A record as it stands in the buffer: with the count stored in its header. */
  datatype Stored = Stored(rec: Event, count: int)

  predicate IsStored(s: Stored) {
    && 0 <= s.rec.sec < MOD32 && 0 <= s.rec.usec < MOD32 && 0 <= s.rec.flags < MOD32 && 0 <= s.count
    && forall i :: 0 <= i < |s.rec.params| ==> IsParam(s.rec.params[i])
  }

  /** Rounded up to a whole number of words. */
  function Padded(n: nat): (r: nat)
    ensures n <= r < n + 4
  {
    (n + 3) / 4 * 4
  }

  function ParamSize(x: Param): (n: nat)
    ensures 8 <= n
  {
    8 + Padded(|x.value|)
  }

  /** 32-bit values and floats take a word, 64-bit values and doubles two, others as many as they need. */
  lemma ParamSizes(x: Param)
    requires IsParam(x)
    ensures x.kind in {0, 1, 4} ==> |x.value| == 4 && ParamSize(x) == 12
    ensures x.kind in {2, 3, 5} ==> |x.value| == 8 && ParamSize(x) == 16
    ensures ParamSize(x) % 4 == 0 && 8 + |x.value| <= ParamSize(x) < 8 + |x.value| + 4
  {
  }

  function ParamsSize(xs: seq<Param>): nat {
    if xs == [] then 0 else ParamsSize(xs[..|xs| - 1]) + ParamSize(xs[|xs| - 1])
  }

  function RecSize(s: Stored): (n: nat)
    ensures 16 <= n
  {
    16 + ParamsSize(s.rec.params)
  }

  function RecsSize(ss: seq<Stored>): nat {
    if ss == [] then 0 else RecsSize(ss[..|ss| - 1]) + RecSize(ss[|ss| - 1])
  }

  lemma {:induction false} ParamsAligned(xs: seq<Param>)
    ensures ParamsSize(xs) % 4 == 0
  {
    if xs != [] {
      ParamsAligned(xs[..|xs| - 1]);
    }
  }

  /** Every record, and so every field, starts at a multiple of four. */
  lemma {:induction false} RecsAligned(ss: seq<Stored>)
    ensures (8 + RecsSize(ss)) % 4 == 0
  {
    if ss != [] {
      RecsAligned(ss[..|ss| - 1]);
      ParamsAligned(ss[|ss| - 1].rec.params);
    }
  }

  /** Type and length share a word; only 24 bits of the length are kept. */
  function TypeLen(x: Param): (n: int)
    requires IsParam(x)
    ensures 0 <= n < MOD32
  {
    x.kind * LEN_LIMIT + (4 + |x.value|) % LEN_LIMIT
  }

  predicate FieldIs(b: Cells, p: nat, n: int) {
    p + 4 <= |b| && b[p] == n
  }

  predicate ParamAt(b: Cells, p: nat, x: Param) {
    && IsParam(x)
    && FieldIs(b, p, x.pmid) && FieldIs(b, p + 4, TypeLen(x))
    && p + ParamSize(x) <= |b| && b[p + 8..p + 8 + |x.value|] == x.value
  }

  /** Parameter i of a run of parameters that starts at p. */
  predicate ParamIn(b: Cells, p: nat, xs: seq<Param>, i: nat)
    requires i < |xs|
  {
    ParamAt(b, p + ParamsSize(xs[..i]), xs[i])
  }

  predicate ParamsAt(b: Cells, p: nat, xs: seq<Param>) {
    forall i :: 0 <= i < |xs| ==> ParamIn(b, p, xs, i)
  }

  predicate RecAt(b: Cells, p: nat, s: Stored) {
    && FieldIs(b, p, s.rec.sec) && FieldIs(b, p + 4, s.rec.usec) && FieldIs(b, p + 8, s.rec.flags)
    && FieldIs(b, p + 12, s.count)
    && ParamsAt(b, p + 16, s.rec.params)
  }

  predicate RecIn(b: Cells, p: nat, ss: seq<Stored>, i: nat)
    requires i < |ss|
  {
    RecAt(b, p + RecsSize(ss[..i]), ss[i])
  }

  predicate RecsAt(b: Cells, p: nat, ss: seq<Stored>) {
    forall i :: 0 <= i < |ss| ==> RecIn(b, p, ss, i)
  }

  // ---------- a walk over consecutive items ----------

  datatype Found<X> = Nothing | Found(item: X, next: nat)

  datatype Walked<X> = Failed | Walked(items: seq<X>, next: nat)

  function Walk<X>(f: nat -> Found<X>, p: nat, n: nat): Walked<X>
    decreases n
  {
    if n == 0 then Walked([], p)
    else if f(p).Nothing? then Failed
    else
      var rest := Walk(f, f(p).next, n - 1);
      if rest.Failed? then Failed else Walked([f(p).item] + rest.items, rest.next)
  }

  predicate Hit<X(==)>(f: nat -> Found<X>, p: nat, x: X, q: nat) { f(p) == Found(x, q) }

  predicate Miss<X(==)>(f: nat -> Found<X>, p: nat, x: X) { f(p).Found? ==> f(p).item != x }

  predicate HitFrom<X(==)>(f: nat -> Found<X>, ps: seq<nat>, xs: seq<X>, k: nat)
    requires |ps| == |xs| + 1
  {
    forall i :: k <= i < |xs| ==> Hit(f, ps[i], xs[i], ps[i + 1])
  }

  predicate HitOrMiss<X(==)>(f: nat -> Found<X>, ps: seq<nat>, xs: seq<X>)
    requires |ps| == |xs| + 1
  {
    forall i :: 0 <= i < |xs| ==> Hit(f, ps[i], xs[i], ps[i + 1]) || Miss(f, ps[i], xs[i])
  }

  /** A walk gives back the items laid out at the positions ps iff it hits every one of them. */
  lemma {:induction false} WalkIff<X>(f: nat -> Found<X>, ps: seq<nat>, xs: seq<X>, k: nat)
    requires |ps| == |xs| + 1 && k <= |xs| && HitOrMiss(f, ps, xs)
    ensures HitFrom(f, ps, xs, k) ==> Walk(f, ps[k], |xs| - k) == Walked(xs[k..], ps[|xs|])
    ensures !HitFrom(f, ps, xs, k) ==>
      Walk(f, ps[k], |xs| - k).Failed? || Walk(f, ps[k], |xs| - k).items != xs[k..]
    decreases |xs| - k
  {
    if k < |xs| {
      WalkIff(f, ps, xs, k + 1);
      assert xs[k..] == [xs[k]] + xs[k + 1..];
      assert HitFrom(f, ps, xs, k) <==> Hit(f, ps[k], xs[k], ps[k + 1]) && HitFrom(f, ps, xs, k + 1);
      var w := Walk(f, ps[k], |xs| - k);
      if Hit(f, ps[k], xs[k], ps[k + 1]) {
        assert w.Walked? ==> w.items[1..] == Walk(f, ps[k + 1], |xs| - k - 1).items;
      } else {
        assert w.Walked? ==> w.items[0] == f(ps[k]).item;
      }
    }
  }

  predicate HitAs<X(==)>(f: nat -> Found<X>, p: nat, x: X, q: nat, ok: bool) {
    if ok then Hit(f, p, x, q) else Miss(f, p, x)
  }

  /** Item i is hit if ok[i], and missed otherwise. */
  predicate HitsAt<X(==)>(f: nat -> Found<X>, ps: seq<nat>, xs: seq<X>, ok: seq<bool>)
    requires |ps| == |xs| + 1 && |ok| == |xs|
  {
    forall i :: 0 <= i < |xs| ==> HitAs(f, ps[i], xs[i], ps[i + 1], ok[i])
  }

  lemma WalkChoice<X>(f: nat -> Found<X>, ps: seq<nat>, xs: seq<X>, ok: seq<bool>)
    requires |ps| == |xs| + 1 && |ok| == |xs| && HitsAt(f, ps, xs, ok)
    ensures false !in ok ==> Walk(f, ps[0], |xs|) == Walked(xs, ps[|xs|])
    ensures false in ok ==> Walk(f, ps[0], |xs|).Failed? || Walk(f, ps[0], |xs|).items != xs
  {
    assert HitOrMiss(f, ps, xs);
    WalkIff(f, ps, xs, 0);
    assert xs[0..] == xs;
    if i :| 0 <= i < |xs| && !ok[i] {
      assert !Hit(f, ps[i], xs[i], ps[i + 1]);
    }
  }

  lemma {:induction false} WalkLength<X>(f: nat -> Found<X>, p: nat, n: nat)
    ensures Walk(f, p, n).Walked? ==> |Walk(f, p, n).items| == n
    decreases n
  {
    if n > 0 && f(p).Found? {
      WalkLength(f, f(p).next, n - 1);
    }
  }

  // ---------- unpacking ----------

  /** One parameter at p; Nothing is an error return. */
  function OneParam(b: Cells, p: nat): Found<Param> {
    if p + 8 > |b| then Nothing
    else
      ParamOf(b, p, b[p], b[p + 4] / LEN_LIMIT, b[p + 4] % LEN_LIMIT)
  }

  function ParamOf(b: Cells, p: nat, pmid: int, kind: int, len: nat): Found<Param> {
    var size := if kind < 6 then FixedSize(kind) else len - 4;
    if p + 4 + Padded(len) > |b| || !(0 <= kind <= 8) || size < 0 || p + 8 + size > |b| then Nothing
    else Found(Param(pmid, kind, b[p + 8..p + 8 + size]), p + 4 + Padded(len))
  }

  function ParamReader(b: Cells): nat -> Found<Param> {
    (q: nat) => OneParam(b, q)
  }

  function DecodeParams(b: Cells, p: nat, n: nat): Walked<Param> {
    Walk(ParamReader(b), p, n)
  }

  /** One record at p; a missed-events record has a count but no parameters. */
  function OneRec(b: Cells, p: nat): Found<Event> {
    if p + 16 > |b| then Nothing
    else
      var flags, count := b[p + 8], b[p + 12];
      if !(0 <= flags <= MISSED) then Nothing
      else
        var params := DecodeParams(b, p + 16, if flags == MISSED || count < 0 then 0 else count);
        if params.Failed? then Nothing
        else Found(Event(b[p], b[p + 4], flags, params.items, if flags == MISSED then count else 0), params.next)
  }

  function RecReader(b: Cells): nat -> Found<Event> {
    (q: nat) => OneRec(b, q)
  }

  /** The whole array: the record count is the second word. */
  function Decode(b: Cells): Walked<Event> {
    if |b| < 8 || b[4] < 0 then Failed else Walk(RecReader(b), 8, b[4])
  }

  // ---------- round trip ----------

  predicate Short(x: Param) { 4 + |x.value| < LEN_LIMIT }

  predicate AllShort(xs: seq<Param>) { forall i :: 0 <= i < |xs| ==> Short(xs[i]) }

  /** A missed-events record has no other flag and no parameters, no other record counts missed events; values are short. */
  predicate Sensible(r: Event) {
    && r.flags <= MISSED && (if r.flags == MISSED then r.params == [] else r.missed == 0)
    && AllShort(r.params)
  }

  /** What the count in the header should be. */
  predicate CountRight(s: Stored) {
    s.count == if s.rec.flags == MISSED then s.rec.missed else |s.rec.params|
  }

  predicate Decodable(s: Stored) { Sensible(s.rec) && CountRight(s) }

  predicate AllDecodable(ss: seq<Stored>) { forall i :: 0 <= i < |ss| ==> Decodable(ss[i]) }

  function Recs(ss: seq<Stored>): seq<Event> { seq(|ss|, i requires 0 <= i < |ss| => ss[i].rec) }

  lemma TypeLenParts(x: Param)
    requires IsParam(x)
    ensures TypeLen(x) / LEN_LIMIT == x.kind && TypeLen(x) % LEN_LIMIT == (4 + |x.value|) % LEN_LIMIT
    ensures Short(x) ==> (4 + |x.value|) % LEN_LIMIT == 4 + |x.value|
    ensures !Short(x) ==> (4 + |x.value|) % LEN_LIMIT < 4 + |x.value|
  {
  }

  lemma ParamOfIff(b: Cells, p: nat, x: Param, len: nat)
    requires IsParam(x) && p + ParamSize(x) <= |b| && b[p + 8..p + 8 + |x.value|] == x.value
    requires if Short(x) then len == 4 + |x.value| else len < 4 + |x.value|
    ensures Short(x) ==> ParamOf(b, p, x.pmid, x.kind, len) == Found(x, p + ParamSize(x))
    ensures !Short(x) ==> ParamOf(b, p, x.pmid, x.kind, len).Found? ==> ParamOf(b, p, x.pmid, x.kind, len).item != x
  {
    assert Padded(4 + |x.value|) == 4 + Padded(|x.value|);
  }

  lemma OneParamIff(b: Cells, p: nat, x: Param)
    requires ParamAt(b, p, x)
    ensures Short(x) ==> OneParam(b, p) == Found(x, p + ParamSize(x))
    ensures !Short(x) ==> OneParam(b, p).Found? ==> OneParam(b, p).item != x
  {
    TypeLenParts(x);
    ParamOfIff(b, p, x, (4 + |x.value|) % LEN_LIMIT);
  }

  lemma ParamHit(b: Cells, p: nat, xs: seq<Param>, i: nat)
    requires ParamsAt(b, p, xs) && i < |xs|
    ensures HitAs(ParamReader(b), p + ParamsSize(xs[..i]), xs[i], p + ParamsSize(xs[..i + 1]), Short(xs[i]))
  {
    assert ParamIn(b, p, xs, i);
    OneParamIff(b, p + ParamsSize(xs[..i]), xs[i]);
    assert xs[..i + 1][..i] == xs[..i];
  }

  function ParamStarts(p: nat, xs: seq<Param>): seq<nat> {
    seq(|xs| + 1, i requires 0 <= i <= |xs| => p + ParamsSize(xs[..i]))
  }

  function Shorts(xs: seq<Param>): seq<bool> {
    seq(|xs|, i requires 0 <= i < |xs| => Short(xs[i]))
  }

  lemma ShortsAll(xs: seq<Param>, ok: seq<bool>)
    requires ok == Shorts(xs)
    ensures AllShort(xs) <==> false !in ok
  {
    assert forall i :: 0 <= i < |xs| ==> ok[i] == Short(xs[i]);
    if !AllShort(xs) {
      var i :| 0 <= i < |xs| && !Short(xs[i]);
      assert ok[i] == false;
    }
  }

  lemma ParamEnds(p: nat, xs: seq<Param>, ps: seq<nat>)
    requires ps == ParamStarts(p, xs)
    ensures ps[0] == p && ps[|xs|] == p + ParamsSize(xs)
  {
    assert xs[..0] == [] && xs[..|xs|] == xs;
  }

  lemma ParamHits(f: nat -> Found<Param>, b: Cells, p: nat, xs: seq<Param>, ps: seq<nat>, ok: seq<bool>)
    requires f == ParamReader(b) && ParamsAt(b, p, xs) && ps == ParamStarts(p, xs) && ok == Shorts(xs)
    ensures HitsAt(f, ps, xs, ok)
  {
    forall i | 0 <= i < |xs| ensures HitAs(f, ps[i], xs[i], ps[i + 1], ok[i]) {
      ParamHit(b, p, xs, i);
    }
  }

  lemma ParamsIff(b: Cells, p: nat, xs: seq<Param>)
    requires ParamsAt(b, p, xs)
    ensures AllShort(xs) ==> DecodeParams(b, p, |xs|) == Walked(xs, p + ParamsSize(xs))
    ensures !AllShort(xs) ==> DecodeParams(b, p, |xs|).Failed? || DecodeParams(b, p, |xs|).items != xs
  {
    var f, ps, ok := ParamReader(b), ParamStarts(p, xs), Shorts(xs);
    ParamHits(f, b, p, xs, ps, ok);
    WalkChoice(f, ps, xs, ok);
    ParamEnds(p, xs, ps);
    ShortsAll(xs, ok);
  }

  lemma OneRecIff(b: Cells, p: nat, s: Stored)
    requires RecAt(b, p, s) && IsStored(s)
    ensures Decodable(s) ==> OneRec(b, p) == Found(s.rec, p + RecSize(s))
    ensures !Decodable(s) ==> OneRec(b, p).Found? ==> OneRec(b, p).item != s.rec
  {
    ParamsIff(b, p + 16, s.rec.params);
    WalkLength(ParamReader(b), p + 16, s.count);
  }

  lemma RecHit(b: Cells, ss: seq<Stored>, i: nat)
    requires RecsAt(b, 8, ss) && i < |ss| && IsStored(ss[i])
    ensures HitAs(RecReader(b), 8 + RecsSize(ss[..i]), ss[i].rec, 8 + RecsSize(ss[..i + 1]), Decodable(ss[i]))
  {
    assert RecIn(b, 8, ss, i);
    OneRecIff(b, 8 + RecsSize(ss[..i]), ss[i]);
    assert ss[..i + 1][..i] == ss[..i];
  }

  function RecStarts(ss: seq<Stored>): seq<nat> {
    seq(|ss| + 1, i requires 0 <= i <= |ss| => 8 + RecsSize(ss[..i]))
  }

  function Decodables(ss: seq<Stored>): seq<bool> {
    seq(|ss|, i requires 0 <= i < |ss| => Decodable(ss[i]))
  }

  predicate AllStored(ss: seq<Stored>) { forall i :: 0 <= i < |ss| ==> IsStored(ss[i]) }

  lemma DecodablesAll(ss: seq<Stored>, ok: seq<bool>)
    requires ok == Decodables(ss)
    ensures AllDecodable(ss) <==> false !in ok
  {
    assert forall i :: 0 <= i < |ss| ==> ok[i] == Decodable(ss[i]);
    if !AllDecodable(ss) {
      var i :| 0 <= i < |ss| && !Decodable(ss[i]);
      assert ok[i] == false;
    }
  }

  lemma RecHits(f: nat -> Found<Event>, b: Cells, ss: seq<Stored>, ps: seq<nat>, rs: seq<Event>, ok: seq<bool>)
    requires RecsAt(b, 8, ss) && AllStored(ss)
    requires f == RecReader(b) && ps == RecStarts(ss) && rs == Recs(ss) && ok == Decodables(ss)
    ensures HitsAt(f, ps, rs, ok)
  {
    forall i | 0 <= i < |ss| ensures HitAs(f, ps[i], rs[i], ps[i + 1], ok[i]) {
      RecHit(b, ss, i);
    }
  }

  lemma RecsIff(b: Cells, ss: seq<Stored>)
    requires RecsAt(b, 8, ss) && AllStored(ss)
    ensures AllDecodable(ss) <==> var w := Walk(RecReader(b), 8, |ss|); w.Walked? && w.items == Recs(ss)
  {
    var f, ps, rs, ok := RecReader(b), RecStarts(ss), Recs(ss), Decodables(ss);
    RecHits(f, b, ss, ps, rs, ok);
    WalkChoice(f, ps, rs, ok);
    DecodablesAll(ss, ok);
    assert ss[..0] == [] && ps[0] == 8;
  }

  /**
   Unpacking gives back the records that were written if and only if the stored counts are right,
   every value length fits its 24 bits, and a missed-events record has no parameters of its own.
   */
  lemma UnpackIff(b: Cells, n: int, ss: seq<Stored>)
    requires FieldIs(b, 4, n) && RecsAt(b, 8, ss) && AllStored(ss)
    ensures Decode(b).Walked? && Decode(b).items == Recs(ss) <==> n == |ss| && AllDecodable(ss)
  {
    RecsIff(b, ss);
    if n >= 0 {
      WalkLength(RecReader(b), 8, n);
    }
  }
}
