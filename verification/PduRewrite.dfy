/**
 rewrite_pdu of qa/pmlogconv/logio.c: a pmResult record is walked and its version 1 error codes
 are replaced by version 2 codes, in place. Words are in host order; ntohl and htonl are inverse
 to each other and are left out.
 */
module PduRewrite {

  const BASE1: int := 1000
  const BASE2: int := 12345  // src/include/pcp/pmapi.h line 133

  // ---------- error codes ----------

  /** A 32-bit int. */
  predicate Int32(x: int) { -0x8000_0000 <= x < 0x8000_0000 }

  function Wrap(x: int): int { (x + 0x8000_0000) % 0x1_0000_0000 - 0x8000_0000 }

  /** XLATE_ERR_1TO2 over the integers, for any second base. */
  function Xlate(base2: int, e: int): int {
    if e <= -BASE1 then e + BASE1 - base2 else e
  }

  /** Translation keeps the sign, loses no code, and leaves the codes below the first base alone. */
  lemma XlateProperties(base2: int, e: int, f: int)
    requires base2 >= BASE1
    ensures Xlate(base2, e) < 0 <==> e < 0
    ensures Xlate(base2, e) == Xlate(base2, f) <==> e == f
    ensures -BASE1 < e ==> Xlate(base2, e) == e
    ensures e <= -BASE1 ==> Xlate(base2, e) <= -base2
  {
  }

  /** Version 1 codes start at -1000 and version 2 codes at -12345; the errors of the system in front of them stay. */
  lemma TranslatedCodes(k: nat)
    ensures Xlate(BASE2, -1000 - k) == -12345 - k
    ensures k < 999 ==> Xlate(BASE2, -1 - k) == -1 - k
  {
  }

  /** Arithmetic in an int: the one value in its range that differs by a multiple of 2 to the 32. */
  lemma WrapIsModular(x: int)
    ensures -0x8000_0000 <= Wrap(x) < 0x8000_0000 && (Wrap(x) - x) % 0x1_0000_0000 == 0
  {
  }

  /** What the int arithmetic of the source gives, with wrap-around; the lowest codes become positive. */
  lemma WrapKeepsSign(e: int)
    requires Int32(e) && e < 0
    ensures Wrap(Xlate(BASE2, e)) < 0 <==> e >= -0x8000_0000 + BASE2 - BASE1
    ensures Wrap(Xlate(BASE2, e)) < 0 <==> Wrap(Xlate(BASE2, e)) == Xlate(BASE2, e)
  {
  }

  // ---------- the record as values ----------

  datatype ValueSet =
    | Failed(pmid: int, code: int)
    | Empty(pmid: int)
    | Values(pmid: int, format: int, pairs: seq<(int, int)>)

  predicate ValidSet(v: ValueSet) {
    match v
    case Failed(_, code) => code < 0
    case Empty(_) => true
    case Values(_, _, pairs) => pairs != []
  }

  predicate ValidSets(vs: seq<ValueSet>) { forall i :: 0 <= i < |vs| ==> ValidSet(vs[i]) }

  function EncodePairs(ps: seq<(int, int)>): (w: seq<int>)
    ensures |w| == 2 * |ps|
  {
    if ps == [] then [] else [ps[0].0, ps[0].1] + EncodePairs(ps[1..])
  }

  function EncodeSet(v: ValueSet): seq<int> {
    match v
    case Failed(pmid, code) => [pmid, code]
    case Empty(pmid) => [pmid, 0]
    case Values(pmid, format, pairs) => [pmid, |pairs|, format] + EncodePairs(pairs)
  }

  function Chunks(vs: seq<ValueSet>): seq<seq<int>> {
    seq(|vs|, i requires 0 <= i < |vs| => EncodeSet(vs[i]))
  }

  function Flat(cs: seq<seq<int>>): seq<int> {
    if cs == [] then [] else cs[0] + Flat(cs[1..])
  }

  function Encode(vs: seq<ValueSet>): seq<int> { Flat(Chunks(vs)) }

  /** The intended effect on one value set. */
  function Translate(v: ValueSet): ValueSet {
    if v.Failed? then v.(code := Xlate(BASE2, v.code)) else v
  }

  function TranslateAll(vs: seq<ValueSet>): seq<ValueSet> {
    seq(|vs|, i requires 0 <= i < |vs| => Translate(vs[i]))
  }

  // ---------- the walk over the words ----------

  /** Words taken by a value set with this count, lines 252-254. */
  function Size(numval: int): nat { if numval > 0 then 3 + 2 * numval else 2 }

  /** n value sets lie at the front of w; anything may follow them. */
  predicate Fits(w: seq<int>, n: int)
    decreases |w|
  {
    n <= 0 || (2 <= |w| && Size(w[1]) <= |w| && Fits(w[Size(w[1])..], n - 1))
  }

  /** The word written back for a count. */
  function NewCount(numval: int): int { if numval < 0 then Wrap(Xlate(BASE2, numval)) else numval }

  function Rewrite(w: seq<int>, n: int): (w': seq<int>)
    requires Fits(w, n)
    ensures |w'| == |w|
    decreases |w|
  {
    if n <= 0 then w
    else
      var k := Size(w[1]);
      w[..k][1 := NewCount(w[1])] + Rewrite(w[k..], n - 1)
  }

  /** In the middle of the walk: b is done up to `at`, as was from there on, and m sets are left. */
  predicate Midway(was: seq<int>, b: seq<int>, at: nat, m: int) {
    && |b| == |was| && 4 <= at <= |b|
    && Fits(was[4..], was[3]) && Fits(was[at..], m)
    && b[..4] == was[..4] && b[at..] == was[at..]
    && b[4..at] + Rewrite(was[at..], m) == Rewrite(was[4..], was[3])
  }

  lemma WalkStep(was: seq<int>, b: seq<int>, at: nat, m: int)
    requires Midway(was, b, at, m) && m > 0
    ensures at + 2 <= |b| && at + Size(b[at + 1]) <= |b|
    ensures Midway(was, b[at + 1 := NewCount(b[at + 1])], at + Size(b[at + 1]), m - 1)
  {
    var w := was[at..];
    Slices(was, b, at, Size(w[1]), NewCount(w[1]));
    RewriteStep(b[4..at], w, m);
  }

  lemma RewriteStep(done: seq<int>, w: seq<int>, n: int)
    requires n > 0 && Fits(w, n)
    ensures var k := Size(w[1]);
            done + Rewrite(w, n) == (done + w[..k][1 := NewCount(w[1])]) + Rewrite(w[k..], n - 1)
  {
  }

  /** Overwriting the second word of the stretch at..at+k. */
  lemma Slices(was: seq<int>, b: seq<int>, at: nat, k: nat, x: int)
    requires 4 <= at && 2 <= k && at + k <= |b| == |was| && b[..4] == was[..4] && b[at..] == was[at..]
    ensures b[at + 1] == was[at..][1] && was[at..][k..] == was[at + k..]
    ensures var b' := b[at + 1 := x];
            && b'[..4] == was[..4]
            && b'[4..at + k] == b[4..at] + was[at..][..k][1 := x]
            && b'[at + k..] == was[at + k..]
  {
    assert b[at + 1] == b[at..][1];
    assert b[at + k..] == b[at..][k..] && was[at + k..] == was[at..][k..];
    assert b[at..at + k] == b[at..][..k];
    assert b[at + 1 := x][4..at + k] == b[4..at] + b[at..at + k][1 := x];
  }

  lemma WalkEnd(was: seq<int>, b: seq<int>, at: nat, m: int)
    requires Midway(was, b, at, m) && m <= 0
    ensures b[4..] == Rewrite(was[4..], was[3])
  {
    assert b[4..at] + b[at..] == b[4..];
  }

  /** Lines 251-256: the count of the value set at `at`, replaced by its translation where it is an error code. */
  method Recount(pb: array<int>, at: nat) returns (numval: int)
    requires at + 1 < pb.Length
    modifies pb
    ensures numval == old(pb[at + 1]) && pb[..] == old(pb[..])[at + 1 := NewCount(numval)]
  {
    numval := pb[at + 1];
    if numval < 0 {
      pb[at + 1] := Wrap(Xlate(BASE2, numval));
    }
  }

  /** The loop of lines 247-257 on the record buffer; word 3 is numpmid, the value sets start at word 4. */
  method RewritePdu(pb: array<int>)
    requires pb.Length >= 4 && Fits(pb[4..], pb[3])
    modifies pb
    ensures pb[..4] == old(pb[..4])
    ensures pb[4..] == Rewrite(old(pb[4..]), old(pb[3]))
  {
    ghost var was := pb[..];
    var numpmid := pb[3];
    var at, i := 4, 0;
    assert was[4..] == pb[4..];
    while i < numpmid
      invariant 4 <= at && Midway(was, pb[..], at, numpmid - i)
    {
      WalkStep(was, pb[..], at, numpmid - i);
      var numval := Recount(pb, at);
      at := at + Size(numval);
      i := i + 1;
    }
    WalkEnd(was, pb[..], at, numpmid - i);
    assert pb[..][4..] == pb[4..] && pb[..][..4] == pb[..4];
  }

  // ---------- the walk cuts a record into chunks ----------

  /** The words of one value set. */
  predicate Chunk(c: seq<int>) { 2 <= |c| && Size(c[1]) == |c| }

  predicate AllChunks(cs: seq<seq<int>>) { forall i :: 0 <= i < |cs| ==> Chunk(cs[i]) }

  function Cut(w: seq<int>, n: int): (cs: seq<seq<int>>)
    requires Fits(w, n)
    decreases |w|
  {
    if n <= 0 then [] else [w[..Size(w[1])]] + Cut(w[Size(w[1])..], n - 1)
  }

  /** What the loop does to one chunk. */
  function Recode(c: seq<int>): seq<int>
    requires Chunk(c)
  {
    c[1 := NewCount(c[1])]
  }

  function RecodeAll(cs: seq<seq<int>>): seq<seq<int>>
    requires AllChunks(cs)
  {
    seq(|cs|, i requires 0 <= i < |cs| => Recode(cs[i]))
  }

  lemma TakeDrop(a: seq<int>, b: seq<int>, w: seq<int>)
    requires w == a + b
    ensures w[..|a|] == a && w[|a|..] == b && forall i :: 0 <= i < |a| ==> w[i] == a[i]
  {
  }

  /** Cutting finds the chunks a record was made of, and rewriting recodes each of them and nothing else. */
  lemma {:induction false} WalkOverChunks(cs: seq<seq<int>>, rest: seq<int>, w: seq<int>)
    requires AllChunks(cs) && w == Flat(cs) + rest
    ensures Fits(w, |cs|) && Cut(w, |cs|) == cs
    ensures Rewrite(w, |cs|) == Flat(RecodeAll(cs)) + rest
    decreases |cs|
  {
    if cs == [] {
      assert RecodeAll(cs) == [];
    } else {
      var c, tail := cs[0], Flat(cs[1..]) + rest;
      assert w == c + tail;
      TakeDrop(c, tail, w);
      WalkOverChunks(cs[1..], rest, tail);
      assert RecodeAll(cs)[1..] == RecodeAll(cs[1..]);
      assert Recode(c) + (Flat(RecodeAll(cs[1..])) + rest) == (Recode(c) + Flat(RecodeAll(cs[1..]))) + rest;
    }
  }

  lemma ChunkInFront(c: seq<int>, cs: seq<seq<int>>, rest: seq<int>)
    requires Chunk(c) && AllChunks(cs)
    ensures AllChunks([c] + cs) && c + (Flat(cs) + rest) == Flat([c] + cs) + rest
  {
    assert ([c] + cs)[1..] == cs;
  }

  /** Every record that can be walked is made of chunks, and something behind them. */
  lemma {:induction false} CutIsComplete(w: seq<int>, n: int) returns (rest: seq<int>)
    requires Fits(w, n)
    ensures AllChunks(Cut(w, n)) && |Cut(w, n)| == (if n > 0 then n else 0)
    ensures w == Flat(Cut(w, n)) + rest
    decreases |w|
  {
    if n <= 0 {
      rest := w;
    } else {
      var k := Size(w[1]);
      rest := CutIsComplete(w[k..], n - 1);
      ChunkInFront(w[..k], Cut(w[k..], n - 1), rest);
      assert w == w[..k] + w[k..];
    }
  }

  /** Chunk lists of matching sizes are equal exactly when the words are. */
  lemma {:induction false} FlatInjective(a: seq<seq<int>>, b: seq<seq<int>>, rest: seq<int>)
    requires |a| == |b| && forall i :: 0 <= i < |a| ==> |a[i]| == |b[i]|
    ensures Flat(a) + rest == Flat(b) + rest <==> a == b
    decreases |a|
  {
    if a != [] {
      var x, y := Flat(a[1..]) + rest, Flat(b[1..]) + rest;
      assert Flat(a) + rest == a[0] + x && Flat(b) + rest == b[0] + y;
      SameParts(a[0], x, b[0], y);
      FlatInjective(a[1..], b[1..], rest);
      assert a == [a[0]] + a[1..] && b == [b[0]] + b[1..];
    }
  }

  lemma SameParts(a: seq<int>, b: seq<int>, c: seq<int>, d: seq<int>)
    requires |a| == |c|
    ensures a + b == c + d <==> a == c && b == d
  {
    if a + b == c + d {
      TakeDrop(a, b, a + b);
      TakeDrop(c, d, c + d);
    }
  }

  // ---------- what the rewrite means ----------

  function DecodePairs(w: seq<int>, n: nat): (ps: seq<(int, int)>)
    requires |w| == 2 * n
    ensures |ps| == n
  {
    if n == 0 then [] else [(w[0], w[1])] + DecodePairs(w[2..], n - 1)
  }

  function DecodeSet(c: seq<int>): (v: ValueSet)
    requires Chunk(c)
  {
    if c[1] < 0 then Failed(c[0], c[1])
    else if c[1] == 0 then Empty(c[0])
    else Values(c[0], c[2], DecodePairs(c[3..], c[1]))
  }

  /** The value sets that chunks stand for. */
  function DecodeAll(cs: seq<seq<int>>): seq<ValueSet>
    requires AllChunks(cs)
  {
    seq(|cs|, i requires 0 <= i < |cs| => DecodeSet(cs[i]))
  }

  lemma {:induction false} PairsRoundTrip(w: seq<int>, n: nat)
    requires |w| == 2 * n
    ensures EncodePairs(DecodePairs(w, n)) == w
  {
    if n > 0 {
      PairsRoundTrip(w[2..], n - 1);
      var ps := DecodePairs(w, n);
      assert ps[1..] == DecodePairs(w[2..], n - 1) && w == [w[0], w[1]] + w[2..];
    }
  }

  lemma {:induction false} PairsRoundTripBack(ps: seq<(int, int)>)
    ensures DecodePairs(EncodePairs(ps), |ps|) == ps
  {
    if ps != [] {
      PairsRoundTripBack(ps[1..]);
      assert EncodePairs(ps)[2..] == EncodePairs(ps[1..]);
    }
  }

  /** Encoding and decoding of a set are inverse. */
  lemma SetRoundTrip(v: ValueSet)
    requires ValidSet(v)
    ensures Chunk(EncodeSet(v)) && DecodeSet(EncodeSet(v)) == v
  {
    if v.Values? {
      PairsRoundTripBack(v.pairs);
      assert EncodeSet(v)[3..] == EncodePairs(v.pairs);
    }
  }

  lemma SetRoundTripBack(c: seq<int>)
    requires Chunk(c)
    ensures ValidSet(DecodeSet(c)) && EncodeSet(DecodeSet(c)) == c
  {
    if c[1] > 0 {
      PairsRoundTrip(c[3..], c[1]);
      assert c == [c[0], c[1], c[2]] + c[3..];
    }
  }

  /** Every record that can be walked is the encoding of the value sets it decodes to, and something behind them. */
  lemma RecordRoundTrip(w: seq<int>, n: int) returns (vs: seq<ValueSet>, rest: seq<int>)
    requires Fits(w, n)
    ensures AllChunks(Cut(w, n)) && vs == DecodeAll(Cut(w, n)) && ValidSets(vs)
    ensures w == Encode(vs) + rest
  {
    rest := CutIsComplete(w, n);
    var cs := Cut(w, n);
    vs := DecodeAll(cs);
    forall i | 0 <= i < |cs| ensures ValidSet(vs[i]) && EncodeSet(vs[i]) == cs[i] { SetRoundTripBack(cs[i]); }
    assert Chunks(vs) == cs;
  }

  /** Translation of this code stays inside an int. */
  predicate InRange(v: ValueSet) {
    v.Failed? ==> v.code >= -0x8000_0000 + BASE2 - BASE1
  }

  /** Recoding the words of one set is encoding its translation, unless the code leaves the range of int. */
  lemma SetRewrite(v: ValueSet)
    requires ValidSet(v) && (v.Failed? ==> Int32(v.code))
    ensures Chunk(EncodeSet(v)) && |EncodeSet(Translate(v))| == |EncodeSet(v)|
    ensures Recode(EncodeSet(v)) == EncodeSet(Translate(v)) <==> InRange(v)
  {
    SetRoundTrip(v);
    if v.Failed? {
      WrapKeepsSign(v.code);
      assert Recode(EncodeSet(v))[1] == NewCount(v.code);
    }
  }

  /** A record as version 1 archives hold them: error codes are ints. */
  predicate Codes32(vs: seq<ValueSet>) { forall i :: 0 <= i < |vs| && vs[i].Failed? ==> Int32(vs[i].code) }

  /**
   The in-place rewrite refines decode, translate, encode: pmids, formats, values, order, sizes and
   whatever follows the value sets are unchanged. It does so exactly for records without an error
   code so low that its translation leaves the range of int.
   */
  lemma RewriteRefines(vs: seq<ValueSet>, rest: seq<int>, w: seq<int>)
    requires ValidSets(vs) && Codes32(vs) && w == Encode(vs) + rest
    ensures Fits(w, |vs|)
    ensures Rewrite(w, |vs|) == Encode(TranslateAll(vs)) + rest <==> forall i :: 0 <= i < |vs| ==> InRange(vs[i])
  {
    var cs, tcs := Chunks(vs), Chunks(TranslateAll(vs));
    forall i | 0 <= i < |vs|
      ensures Chunk(cs[i]) && |tcs[i]| == |cs[i]| && (Recode(cs[i]) == tcs[i] <==> InRange(vs[i]))
    {
      SetRewrite(vs[i]);
    }
    WalkOverChunks(cs, rest, w);
    FlatInjective(RecodeAll(cs), tcs, rest);
    assert RecodeAll(cs) == tcs <==> forall i :: 0 <= i < |cs| ==> Recode(cs[i]) == tcs[i];
  }

  /** The walk over the rewritten record finds the same number of sets, cut at the same places, translated. */
  lemma RewrittenDecodes(vs: seq<ValueSet>, rest: seq<int>, w: seq<int>)
    requires ValidSets(vs) && Codes32(vs) && w == Encode(vs) + rest
    requires forall i :: 0 <= i < |vs| ==> InRange(vs[i])
    ensures Fits(w, |vs|) && Fits(Rewrite(w, |vs|), |vs|)
    ensures Cut(Rewrite(w, |vs|), |vs|) == Chunks(TranslateAll(vs))
    ensures forall i :: 0 <= i < |vs| ==> |Chunks(TranslateAll(vs))[i]| == |Chunks(vs)[i]|
  {
    RewriteRefines(vs, rest, w);
    var tcs := Chunks(TranslateAll(vs));
    forall i | 0 <= i < |vs| ensures Chunk(tcs[i]) && |tcs[i]| == |Chunks(vs)[i]| {
      XlateProperties(BASE2, if vs[i].Failed? then vs[i].code else 0, 0);
      SetRewrite(vs[i]);
      SetRoundTrip(TranslateAll(vs)[i]);
    }
    WalkOverChunks(tcs, rest, Rewrite(w, |vs|));
  }
}
