/**
 The growing buffer in which qa/src/unpack.c packs event records: check_buf, reset, add_record
 and add_param.
 */
module EventBuffer {
  import opened Basics
  import opened EventLayout

  /** b and b' hold the same bytes from lo to hi. */
  predicate Agree(b: Cells, b': Cells, lo: nat, hi: nat) {
    lo <= hi <= |b| && hi <= |b'| && forall i :: lo <= i < hi ==> b[i] == b'[i]
  }

  lemma FieldFrame(b: Cells, b': Cells, lo: nat, hi: nat, p: nat, n: int)
    requires FieldIs(b, p, n) && Agree(b, b', lo, hi) && lo <= p && p + 4 <= hi
    ensures FieldIs(b', p, n)
  {
    assert b[p..p + 4] == b'[p..p + 4];
  }

  lemma ParamFrame(b: Cells, b': Cells, lo: nat, hi: nat, p: nat, x: Param)
    requires ParamAt(b, p, x) && Agree(b, b', lo, hi) && lo <= p && p + ParamSize(x) <= hi
    ensures ParamAt(b', p, x)
  {
    FieldFrame(b, b', lo, hi, p, x.pmid);
    FieldFrame(b, b', lo, hi, p + 4, TypeLen(x));
    assert b[p + 8..p + 8 + |x.value|] == b'[p + 8..p + 8 + |x.value|];
  }

  lemma {:induction false} ParamFits(xs: seq<Param>, i: nat)
    requires i < |xs|
    ensures ParamsSize(xs[..i]) + ParamSize(xs[i]) <= ParamsSize(xs)
    decreases |xs|
  {
    var n := |xs| - 1;
    if i < n {
      ParamFits(xs[..n], i);
      assert xs[..n][..i] == xs[..i];
    }
  }

  lemma {:induction false} RecFits(ss: seq<Stored>, i: nat)
    requires i < |ss|
    ensures RecsSize(ss[..i]) + RecSize(ss[i]) <= RecsSize(ss)
    decreases |ss|
  {
    var n := |ss| - 1;
    if i < n {
      RecFits(ss[..n], i);
      assert ss[..n][..i] == ss[..i];
    }
  }

  lemma ParamInFrame(b: Cells, b': Cells, lo: nat, hi: nat, p: nat, xs: seq<Param>, i: nat)
    requires i < |xs| && ParamIn(b, p, xs, i) && Agree(b, b', lo, hi) && lo <= p && p + ParamsSize(xs) <= hi
    ensures ParamIn(b', p, xs, i)
  {
    ParamFits(xs, i);
    ParamFrame(b, b', lo, hi, p + ParamsSize(xs[..i]), xs[i]);
  }

  lemma ParamsFrame(b: Cells, b': Cells, lo: nat, hi: nat, p: nat, xs: seq<Param>)
    requires ParamsAt(b, p, xs) && Agree(b, b', lo, hi) && lo <= p && p + ParamsSize(xs) <= hi
    ensures ParamsAt(b', p, xs)
  {
    forall i | 0 <= i < |xs| ensures ParamIn(b', p, xs, i) {
      ParamInFrame(b, b', lo, hi, p, xs, i);
    }
  }

  lemma RecFrame(b: Cells, b': Cells, lo: nat, hi: nat, p: nat, s: Stored)
    requires RecAt(b, p, s) && Agree(b, b', lo, hi) && lo <= p && p + RecSize(s) <= hi
    ensures RecAt(b', p, s)
  {
    FieldFrame(b, b', lo, hi, p, s.rec.sec);
    FieldFrame(b, b', lo, hi, p + 4, s.rec.usec);
    FieldFrame(b, b', lo, hi, p + 8, s.rec.flags);
    FieldFrame(b, b', lo, hi, p + 12, s.count);
    ParamsFrame(b, b', lo, hi, p + 16, s.rec.params);
  }

  lemma RecInFrame(b: Cells, b': Cells, hi: nat, ss: seq<Stored>, i: nat)
    requires i < |ss| && RecIn(b, 8, ss, i) && Agree(b, b', 8, hi) && 8 + RecsSize(ss) <= hi
    ensures RecIn(b', 8, ss, i)
  {
    RecFits(ss, i);
    RecFrame(b, b', 8, hi, 8 + RecsSize(ss[..i]), ss[i]);
  }

  lemma RecsFrame(b: Cells, b': Cells, hi: nat, ss: seq<Stored>)
    requires RecsAt(b, 8, ss) && Agree(b, b', 8, hi) && 8 + RecsSize(ss) <= hi
    ensures RecsAt(b', 8, ss)
  {
    forall i | 0 <= i < |ss| ensures RecIn(b', 8, ss, i) {
      RecInFrame(b, b', hi, ss, i);
    }
  }

  lemma RecsSnoc(b: Cells, ss: seq<Stored>, s: Stored)
    ensures RecsAt(b, 8, ss + [s]) <==> RecsAt(b, 8, ss) && RecAt(b, 8 + RecsSize(ss), s)
    ensures RecsSize(ss + [s]) == RecsSize(ss) + RecSize(s)
  {
    var all := ss + [s];
    assert all[..|ss|] == ss;
    forall i | 0 <= i < |ss| ensures RecIn(b, 8, all, i) <==> RecIn(b, 8, ss, i) {
      assert all[..i] == ss[..i] && all[i] == ss[i];
    }
    assert RecIn(b, 8, all, |ss|) <==> RecAt(b, 8 + RecsSize(ss), s);
    if RecsAt(b, 8, all) {
      forall i | 0 <= i < |ss| ensures RecIn(b, 8, ss, i) {
        assert RecIn(b, 8, all, i);
      }
    }
  }

  lemma ParamsSnoc(b: Cells, p: nat, xs: seq<Param>, x: Param)
    requires ParamsAt(b, p, xs) && ParamAt(b, p + ParamsSize(xs), x)
    ensures ParamsAt(b, p, xs + [x]) && ParamsSize(xs + [x]) == ParamsSize(xs) + ParamSize(x)
  {
    var all := xs + [x];
    assert all[..|xs|] == xs;
    forall i | 0 <= i < |all| ensures ParamIn(b, p, all, i) {
      if i < |xs| {
        assert ParamIn(b, p, xs, i);
        assert all[..i] == xs[..i] && all[i] == xs[i];
      }
    }
  }

  /** A record with one more parameter, and with another count. */
  function WithParam(s: Stored, x: Param): Stored { s.(rec := s.rec.(params := s.rec.params + [x])) }

  lemma RecExtended(b: Cells, e: nat, s: Stored, x: Param)
    requires RecAt(b, e, s) && ParamAt(b, e + RecSize(s), x)
    ensures RecAt(b, e, WithParam(s, x)) && RecSize(WithParam(s, x)) == RecSize(s) + ParamSize(x)
  {
    ParamsSnoc(b, e + 16, s.rec.params, x);
  }

  /** Overwriting the count of a record changes nothing else. */
  lemma CountChanged(b: Cells, b': Cells, e: nat, s: Stored, c: int)
    requires RecAt(b, e, s) && e + RecSize(s) <= |b| == |b'|
    requires Agree(b, b', 0, e + 12) && Agree(b, b', e + 16, |b|) && FieldIs(b', e + 12, c)
    ensures RecAt(b', e, s.(count := c))
  {
    FieldFrame(b, b', 0, e + 12, e, s.rec.sec);
    FieldFrame(b, b', 0, e + 12, e + 4, s.rec.usec);
    FieldFrame(b, b', 0, e + 12, e + 8, s.rec.flags);
    ParamsFrame(b, b', e + 16, |b|, e + 16, s.rec.params);
  }

  // ---------- writes into the buffer ----------

  method PutWord(a: array<int>, p: nat, n: int)
    requires p + 4 <= a.Length
    modifies a
    ensures forall i :: 0 <= i < a.Length && !(p <= i < p + 4) ==> a[i] == old(a[i])
    ensures a[p] == n
  {
    a[p], a[p + 1], a[p + 2], a[p + 3] := n, 0, 0, 0;
  }

  /** Add one to the word at p. */
  method Increment(a: array<int>, p: nat)
    requires p + 4 <= a.Length
    modifies a
    ensures forall i :: 0 <= i < a.Length && i != p ==> a[i] == old(a[i])
    ensures a[p] == old(a[p]) + 1
  {
    a[p] := a[p] + 1;
  }

  method PutBytes(a: array<int>, p: nat, v: Cells)
    requires p + |v| <= a.Length
    modifies a
    ensures forall i :: 0 <= i < p ==> a[i] == old(a[i])
    ensures a[p..p + |v|] == v
  {
    forall i | 0 <= i < |v| {
      a[p + i] := v[i];
    }
  }

  method PutParam(a: array<int>, p: nat, x: Param)
    requires IsParam(x) && p + ParamSize(x) <= a.Length
    modifies a
    ensures forall i :: 0 <= i < p ==> a[i] == old(a[i])
    ensures ParamAt(a[..p + ParamSize(x)], p, x)
  {
    PutWord(a, p, x.pmid);
    PutWord(a, p + 4, TypeLen(x));
    PutBytes(a, p + 8, x.value);
    assert a[..p + ParamSize(x)][p + 8..p + 8 + |x.value|] == a[p + 8..p + 8 + |x.value|];
  }

  method PutRecord(a: array<int>, p: nat, s: Stored)
    requires s.rec.params == [] && p + 16 <= a.Length
    modifies a
    ensures forall i :: 0 <= i < p ==> a[i] == old(a[i])
    ensures RecAt(a[..p + 16], p, s)
  {
    PutWord(a, p, s.rec.sec);
    PutWord(a, p + 4, s.rec.usec);
    PutWord(a, p + 12, s.count);
    PutWord(a, p + 8, s.rec.flags);
  }

  // ---------- the buffer ----------

  predicate CountLow(s: Stored) { s.rec.flags == MISSED || s.count <= |s.rec.params| }

  predicate AllLow(ss: seq<Stored>) { forall i :: 0 <= i < |ss| ==> CountLow(ss[i]) }

  /** The bytes b hold the records front and, at erp, the record last that can still grow. */
  predicate Laid(b: Cells, erp: nat, front: seq<Stored>, last: Stored) {
    && erp == 8 + RecsSize(front) && |b| == erp + RecSize(last)
    && RecsAt(b, 8, front) && RecAt(b, erp, last)
  }

  /** n is the record count; no count exceeds what it counts. */
  predicate Counted(n: int, front: seq<Stored>, last: Stored) {
    n <= |front| + 1 && AllStored(front) && IsStored(last) && AllLow(front) && CountLow(last)
  }

  /** All the records in the buffer. */
  function All(front: seq<Stored>, last: Stored): seq<Stored> { front + [last] }

  lemma LaidRecordCount(b: Cells, b': Cells, erp: nat, front: seq<Stored>, last: Stored)
    requires Laid(b, erp, front, last) && |b'| == |b| && Agree(b, b', 8, |b|)
    ensures Laid(b', erp, front, last)
  {
    RecsFrame(b, b', |b|, front);
    RecFrame(b, b', 8, |b|, erp, last);
  }

  lemma LaidGrows(b: Cells, b': Cells, erp: nat, front: seq<Stored>, last: Stored)
    requires Laid(b, erp, front, last) && b <= b'
    ensures RecsAt(b', 8, front) && RecAt(b', erp, last)
  {
    assert Agree(b, b', 8, |b|);
    RecsFrame(b, b', |b|, front);
    RecFrame(b, b', 8, |b|, erp, last);
  }

  lemma Joined(b: Cells, erp: nat, front: seq<Stored>, last: Stored)
    requires RecsAt(b, 8, front) && RecAt(b, erp, last) && erp == 8 + RecsSize(front)
    ensures RecsAt(b, 8, All(front, last)) && 8 + RecsSize(All(front, last)) == erp + RecSize(last)
  {
    RecsSnoc(b, front, last);
  }

  lemma LaidRecord(b: Cells, b': Cells, erp: nat, front: seq<Stored>, last: Stored, s: Stored)
    requires Laid(b, erp, front, last) && b <= b' && |b'| == |b| + RecSize(s) && RecAt(b', |b|, s)
    ensures Laid(b', |b|, All(front, last), s)
  {
    LaidGrows(b, b', erp, front, last);
    Joined(b', erp, front, last);
  }

  lemma LaidParam(b: Cells, b': Cells, erp: nat, front: seq<Stored>, last: Stored, x: Param)
    requires Laid(b, erp, front, last) && b <= b' && |b'| == |b| + ParamSize(x) && ParamAt(b', |b|, x)
    ensures Laid(b', erp, front, WithParam(last, x))
  {
    LaidGrows(b, b', erp, front, last);
    RecExtended(b', erp, last, x);
  }

  lemma LaidParamCount(b: Cells, b': Cells, erp: nat, front: seq<Stored>, last: Stored, c: int)
    requires Laid(b, erp, front, last) && |b'| == |b|
    requires Agree(b, b', 0, erp + 12) && Agree(b, b', erp + 16, |b|) && FieldIs(b', erp + 12, c)
    ensures Laid(b', erp, front, last.(count := c))
  {
    RecsFrame(b, b', erp, front);
    CountChanged(b, b', erp, last, c);
  }

  function Recounted(s: Stored, c: int): Stored { s.(count := c) }

  // ---------- operations on the array, without its bytes ----------

  /** add_record, add_param, and the store of a missed count in the last record (unpack.c:339). */
  datatype Op = Record(sec: int, usec: int, flags: int) | Parameter(x: Param) | MissedCount(k: int)

  predicate IsOp(op: Op) {
    match op
    case Record(sec, usec, flags) => 0 <= sec < MOD32 && 0 <= usec < MOD32 && 0 <= flags < MOD32
    case Parameter(x) => IsParam(x)
    case MissedCount(k) => 0 <= k
  }

  /**
   n is the stored record count, last the record that can still grow, size and cap are the bytes
   used and allocated; eap and erp say whether the two pointers still lead into the buffer.
   */
  datatype State = State(n: int, front: seq<Stored>, last: Option<Stored>, size: nat, cap: nat, eap: bool, erp: bool)

  function Empty(cap: nat): State { State(0, [], None, 8, cap, true, false) }

  function Opened(sec: int, usec: int, flags: int): Stored { Stored(Event(sec, usec, flags, [], 0), 0) }

  /** Doubling until `limit` is in front of the last byte. */
  function Doubled(cap: nat, limit: nat): (r: nat)
    requires cap > 0
    ensures cap <= r && limit < r - 1
    decreases if limit >= cap - 1 then limit + 2 - cap else 0
  {
    if limit >= cap - 1 then Doubled(2 * cap, limit) else cap
  }

  function Power(k: nat): nat { if k == 0 then 1 else 2 * Power(k - 1) }

  /** The capacity is doubled k times, and once less would not have been enough. */
  lemma {:induction false} DoubledLeast(cap: nat, limit: nat) returns (k: nat)
    requires cap > 0
    ensures Doubled(cap, limit) == cap * Power(k)
    ensures k > 0 ==> limit >= cap * Power(k - 1) - 1
    decreases if limit >= cap - 1 then limit + 2 - cap else 0
  {
    k := 0;
    if limit >= cap - 1 {
      var j := DoubledLeast(2 * cap, limit);
      k := j + 1;
      assert 2 * cap * Power(j) == cap * Power(k);
      assert j > 0 ==> 2 * cap * Power(j - 1) == cap * Power(j);
    }
  }

  /** check_buf: pointers are lost when the buffer grows and moves. */
  function Roomy(s: State, need: nat, moves: bool): State
    requires s.cap > 0
  {
    var cap := Doubled(s.cap, s.size + need);
    var lost := cap != s.cap && moves;
    s.(cap := cap, eap := s.eap && !lost, erp := s.erp && !lost)
  }

  function WithHeader(r: State, s: Stored): State {
    r.(n := r.n + (if r.eap then 1 else 0), front := Held(r), last := Some(s), size := r.size + 16, erp := true)
  }

  function WithLastParam(r: State, x: Param): State
    requires r.last.Some?
  {
    var last := WithParam(r.last.value, x);
    r.(last := Some(if r.erp then Recounted(last, last.count + 1) else last), size := r.size + ParamSize(x))
  }

  function WithMissed(r: State, k: int): State
    requires r.last.Some?
  {
    var last := r.last.value.(rec := r.last.value.rec.(missed := k));
    r.(last := Some(if r.erp then Recounted(last, k) else last))
  }

  function Next(s: State, op: Op, moves: bool): State
    requires s.cap > 0 && (op.Record? || s.last.Some?)
  {
    match op
    case Record(sec, usec, flags) => WithHeader(Roomy(s, 16, moves), Opened(sec, usec, flags))
    case Parameter(x) => WithLastParam(Roomy(s, ParamSize(x), moves), x)
    case MissedCount(k) => WithMissed(s, k)
  }

  lemma OneMoreFits(s: Stored, x: Param)
    requires CountLow(s)
    ensures CountLow(Recounted(WithParam(s, x), WithParam(s, x).count + 1))
  {
  }

  /** The records held, oldest first. */
  function Held(s: State): seq<Stored> {
    if s.last.Some? then All(s.front, s.last.value) else []
  }

  /**
   The pointers eap and erp are kept as offsets; a flag says whether each still points into the
   buffer, which it does not once realloc has moved the buffer.
   */
  class Buffer {
    var ebuf: array<int>
    var eptr: nat
    var eapLive: bool
    var erp: nat
    var erpLive: bool
    ghost var n: int
    ghost var front: seq<Stored>
    ghost var last: Option<Stored>

    ghost predicate Valid() reads this, ebuf {
      && 8 <= eptr <= ebuf.Length && FieldIs(ebuf[..eptr], 4, n)
      && match last
         case None => eptr == 8 && n == 0 && front == []
         case Some(s) => Laid(ebuf[..eptr], erp, front, s) && Counted(n, front, s)
    }

    /** check_buf; `moves` says whether a realloc moves the buffer. */
    method CheckBuf(need: nat, moves: bool)
      requires 0 < ebuf.Length && eptr <= ebuf.Length
      modifies this`ebuf, this`eapLive, this`erpLive
      ensures eptr + need < ebuf.Length - 1
      ensures ebuf[..eptr] == old(ebuf[..eptr])
      ensures ebuf == old(ebuf) || fresh(ebuf)
      ensures eapLive == (old(eapLive) && (ebuf == old(ebuf) || !moves))
      ensures erpLive == (old(erpLive) && (ebuf == old(ebuf) || !moves))
      ensures ebuf.Length == Doubled(old(ebuf.Length), eptr + need)
      ensures ebuf == old(ebuf) <==> ebuf.Length == old(ebuf.Length)
    {
      while eptr + need >= ebuf.Length - 1
        invariant 0 < ebuf.Length && eptr <= ebuf.Length && ebuf[..eptr] == old(ebuf[..eptr])
        invariant ebuf == old(ebuf) || fresh(ebuf)
        invariant ebuf == old(ebuf) ==> eapLive == old(eapLive) && erpLive == old(erpLive)
        invariant ebuf == old(ebuf) <==> ebuf.Length == old(ebuf.Length)
        invariant old(ebuf.Length) <= ebuf.Length
        invariant Doubled(ebuf.Length, eptr + need) == Doubled(old(ebuf.Length), eptr + need)
        invariant ebuf != old(ebuf) ==> eapLive == (old(eapLive) && !moves) && erpLive == (old(erpLive) && !moves)
        decreases eptr + need + 1 - ebuf.Length
      {
        var bigger := new int[2 * ebuf.Length];
        forall i | 0 <= i < ebuf.Length {
          bigger[i] := ebuf[i];
        }
        assert bigger[..eptr] == ebuf[..eptr];
        ebuf := bigger;
        if moves {
          eapLive, erpLive := false, false;
        }
      }
    }
  
    /** Everything about the buffer but its bytes. */
    ghost function View(): State reads this {
      State(n, front, last, eptr, ebuf.Length, eapLive, erpLive)
    }

    /** Room for `need` more bytes, everything else being kept. */
    method MakeRoom(need: nat, moves: bool)
      requires Valid()
      modifies this`ebuf, this`eapLive, this`erpLive
      ensures Valid() && eptr + need <= ebuf.Length && (ebuf == old(ebuf) || fresh(ebuf))
      ensures View() == Roomy(old(View()), need, moves)
    {
      CheckBuf(need, moves);
    }

    constructor ()
      ensures Valid() && fresh(ebuf) && View() == Empty(512)
    {
      ebuf := new int[512];
      eptr, eapLive, erp, erpLive := 8, true, 0, false;
      n, front, last := 0, [], None;
      new;
      Reset();
    }

    /** reset: an empty array of records. */
    method Reset()
      requires 8 <= ebuf.Length
      modifies this, ebuf
      ensures Valid() && ebuf == old(ebuf) && View() == Empty(ebuf.Length)
    {
      eapLive, erpLive := true, false;
      PutWord(ebuf, 4, 0);
      eptr := 8;
      n, front, last := 0, [], None;
    }

    /** Count one more record, if the header can still be reached. */
    method CountRecord()
      requires Valid() && last.Some? && n <= |front|
      modifies ebuf, this`n
      ensures Valid() && n == old(n) + (if eapLive then 1 else 0)
    {
      if eapLive {
        ghost var b := ebuf[..eptr];
        Increment(ebuf, 4);
        LaidRecordCount(b, ebuf[..eptr], erp, front, last.value);
        n := n + 1;
      }
    }

    /** Put a record header behind what is there. */
    method AppendRecord(s: Stored)
      requires Valid() && eptr + 16 <= ebuf.Length
      requires IsStored(s) && s.rec.params == [] && s.count == 0
      modifies this`eptr, this`erp, this`erpLive, this`front, this`last, ebuf
      ensures Valid()
      ensures View() == old(View()).(front := old(Held(View())), last := Some(s), size := old(eptr) + 16, erp := true)
      ensures n <= |front|
    {
      ghost var b := ebuf[..eptr];
      PutRecord(ebuf, eptr, s);
      ghost var b' := ebuf[..eptr + 16];
      FieldFrame(b, b', 0, |b|, 4, n);
      if last.Some? {
        LaidRecord(b, b', erp, front, last.value, s);
        front := All(front, last.value);
      }
      erp, erpLive := eptr, true;
      eptr := eptr + 16;
      last := Some(s);
    }

    /** A new record, counted. */
    method PutHeader(s: Stored)
      requires Valid() && eptr + 16 <= ebuf.Length
      requires IsStored(s) && s.rec.params == [] && s.count == 0
      modifies this`eptr, this`erp, this`erpLive, this`front, this`last, this`n, ebuf
      ensures Valid() && View() == WithHeader(old(View()), s)
    {
      AppendRecord(s);
      CountRecord();
    }

    /** add_record; `moves` says whether a realloc on the way moves the buffer. */
    method AddRecord(sec: int, usec: int, flags: int, moves: bool)
      requires Valid() && IsOp(Record(sec, usec, flags))
      modifies this, ebuf
      ensures Valid() && (ebuf == old(ebuf) || fresh(ebuf))
      ensures View() == Next(old(View()), Record(sec, usec, flags), moves)
    {
      MakeRoom(16, moves);
      PutHeader(Opened(sec, usec, flags));
    }

    /** Put a parameter behind what is there, without counting it. */
    method AppendParam(x: Param)
      requires Valid() && last.Some? && IsParam(x) && eptr + ParamSize(x) <= ebuf.Length
      modifies this`eptr, this`last, ebuf
      ensures Valid() && eptr == old(eptr) + ParamSize(x) && last == Some(WithParam(old(last.value), x))
    {
      ghost var b := ebuf[..eptr];
      PutParam(ebuf, eptr, x);
      ghost var b' := ebuf[..eptr + ParamSize(x)];
      FieldFrame(b, b', 0, |b|, 4, n);
      LaidParam(b, b', erp, front, last.value, x);
      eptr := eptr + ParamSize(x);
      last := Some(WithParam(last.value, x));
    }

    /** Store a count in the header of the last record, if that can still be reached. */
    method SetCount(c: int)
      requires Valid() && last.Some? && 0 <= c && CountLow(Recounted(last.value, c))
      modifies ebuf, this`last
      ensures Valid() && last == Some(if erpLive then Recounted(old(last.value), c) else old(last.value))
    {
      if erpLive {
        ghost var b := ebuf[..eptr];
        ebuf[erp + 12] := c;
        ghost var b' := ebuf[..eptr];
        FieldFrame(b, b', 0, 8, 4, n);
        LaidParamCount(b, b', erp, front, last.value, c);
        last := Some(Recounted(last.value, c));
      }
    }

    /** erp->er_nparams++ */
    method CountParam()
      requires Valid() && last.Some? && CountLow(Recounted(last.value, last.value.count + 1))
      modifies ebuf, this`last
      ensures Valid()
      ensures last == Some(if erpLive then Recounted(old(last.value), old(last.value.count) + 1) else old(last.value))
    {
      if erpLive {
        assert ebuf[erp + 12] == ebuf[..eptr][erp + 12];
        SetCount(ebuf[erp + 12] + 1);
      }
    }

    /** A parameter of the last record, counted. */
    method PutLastParam(x: Param)
      requires Valid() && last.Some? && IsParam(x) && eptr + ParamSize(x) <= ebuf.Length
      modifies this`eptr, this`last, ebuf
      ensures Valid() && View() == WithLastParam(old(View()), x)
    {
      ghost var s := last.value;
      OneMoreFits(s, x);
      AppendParam(x);
      assert last == Some(WithParam(s, x));
      CountParam();
    }

    /** add_param; the record it belongs to is the last one added. */
    method AddParam(x: Param, moves: bool)
      requires Valid() && last.Some? && IsParam(x)
      modifies this, ebuf
      ensures Valid() && (ebuf == old(ebuf) || fresh(ebuf))
      ensures View() == Next(old(View()), Parameter(x), moves)
    {
      MakeRoom(ParamSize(x), moves);
      PutLastParam(x);
    }

    /** The driver's own store for a missed-events record: erp->er_nparams = k. */
    method SetMissed(k: int)
      requires Valid() && last.Some? && last.value.rec.flags == MISSED && 0 <= k
      modifies ebuf, this`last
      ensures Valid() && View() == Next(old(View()), MissedCount(k), false)
    {
      last := Some(last.value.(rec := last.value.rec.(missed := k)));
      SetCount(k);
    }
  }
}
