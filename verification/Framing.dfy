/**
 Record framing of archive files: _pmLogGet and _pmLogPut of qa/pmlogconv/logio.c, and the
 filter of qa/src/stripmark.c. A record is a byte string whose first and last four bytes hold
 its length, most significant byte first.
 */
module Framing {
  import opened Basics

  /** A label record: length, label structure, length. */
  const LABEL_SIZE := 132

  // types of metadata records
  const TYPE_DESC := 1
  const TYPE_INDOM := 2

  // ---------- 32-bit integers in network order ----------

  function Put32(n: int): (b: Bytes)
    requires 0 <= n < MOD32
    ensures |b| == 4
  {
    [n / 256 / 256 / 256, n / 256 / 256 % 256, n / 256 % 256, n % 256]
  }

  function Get32(b: Bytes): (n: int)
    requires |b| == 4
    ensures 0 <= n < MOD32
  {
    ((b[0] as int * 256 + b[1]) * 256 + b[2]) * 256 + b[3]
  }

  lemma Put32RoundTrip(n: int)
    requires 0 <= n < MOD32
    ensures Get32(Put32(n)) == n
  {
  }

  lemma Get32RoundTrip(b: Bytes)
    requires |b| == 4
    ensures Put32(Get32(b)) == b
  {
    var two := b[0] as int * 256 + b[1];
    var three := two * 256 + b[2];
    assert Get32(b) / 256 == three && three / 256 == two && two / 256 == b[0];
  }

  // ---------- records ----------

  /** The head word gives the length; an int must be able to count the bytes after it. */
  predicate Headed(r: Bytes) {
    4 <= |r| < 0x8000_0004 && r[..4] == Put32(|r|)
  }

  predicate Framed(r: Bytes) {
    Headed(r) && r[|r| - 4..] == r[..4]
  }

  predicate AllHeaded(rs: seq<Bytes>) { forall i :: 0 <= i < |rs| ==> Headed(rs[i]) }

  predicate AllFramed(rs: seq<Bytes>) { forall i :: 0 <= i < |rs| ==> Framed(rs[i]) }

  function Concat(rs: seq<Bytes>): Bytes {
    if rs == [] then [] else rs[0] + Concat(rs[1..])
  }

  lemma Associative(a: Bytes, b: Bytes, c: Bytes)
    ensures a + (b + c) == (a + b) + c
  {
  }

  lemma {:induction false} ConcatAppend(a: seq<Bytes>, b: seq<Bytes>)
    ensures Concat(a + b) == Concat(a) + Concat(b)
  {
    if a == [] {
      assert a + b == b;
    } else {
      ConcatAppend(a[1..], b);
      assert (a + b)[0] == a[0] && (a + b)[1..] == a[1..] + b;
      Associative(a[0], Concat(a[1..]), Concat(b));
    }
  }

  // ---------- _pmLogGet ----------

  /** PM_ERR_EOL, PM_ERR_LOGREC, and a negated errno. */
  datatype Got = Rec(bytes: Bytes) | Eol | LogRec | Errno

  /**
   One data volume, behind its label. `opens` says whether it can be opened and has a good label,
   `seen` whether its label has been checked before (l_seen).
   */
  datatype Volume = Volume(data: Bytes, opens: bool, seen: bool)

  datatype Place = Place(vols: seq<Volume>, cur: nat, pos: nat)

  predicate ValidPlace(p: Place) { p.cur < |p.vols| }

  /** Lines 82-118: the record at pos, where a head word has been read; `offset` is where to go back to. */
  function GetBody(p: Place, offset: nat): (Got, Place)
    requires ValidPlace(p) && p.pos + 4 <= |p.vols[p.cur].data|
  {
    var data := p.vols[p.cur].data;
    var n := Get32(data[p.pos..p.pos + 4]);
    if n < 4 || p.pos + n > |data| then
      // the second fread comes up short; with n < 4 it asks for a huge count
      if p.pos + 4 == |data| then (Eol, p.(pos := offset)) else (LogRec, p.(pos := |data|))
    else if n - 4 >= 0x8000_0000 then (Errno, p.(pos := p.pos + n))
    else
      var r := data[p.pos..p.pos + n];
      (if r[n - 4..] == r[..4] then Rec(r) else LogRec, p.(pos := p.pos + n))
  }

  /**
   _pmLogGet from line 53 on. __pmLogChangeVol returns 0 only for a volume whose label has been
   checked before; for a volume visited for the first time it returns the archive version
   (qa/pmlogconv/libpcp.c line 148), and the caller then reports the end of the log.
   */
  function GetFrom(p: Place, offset: nat): (Got, Place)
    requires ValidPlace(p)
    decreases |p.vols| - p.cur
  {
    var avail := |p.vols[p.cur].data| - p.pos;
    if avail >= 4 then GetBody(p, offset)
    else if avail > 0 then (LogRec, p.(pos := |p.vols[p.cur].data|))
    else if p.cur + 1 < |p.vols| && p.vols[p.cur + 1].opens then
      if p.vols[p.cur + 1].seen then GetFrom(Place(p.vols, p.cur + 1, 0), offset)
      else (Eol, Place(p.vols[p.cur + 1 := p.vols[p.cur + 1].(seen := true)], p.cur + 1, 0))
    else (Eol, p.(pos := offset))
  }

  class LogFile {
    var place: Place

    ghost predicate Valid() reads this { ValidPlace(place) }

    constructor (vols: seq<Volume>)
      requires vols != []
      ensures Valid() && place == Place(vols, 0, 0)
    {
      place := Place(vols, 0, 0);
    }

    /** Lines 82-118: a head word has been read at the place. */
    method GetRecord(offset: nat) returns (got: Got)
      requires Valid() && place.pos + 4 <= |place.vols[place.cur].data|
      modifies this
      ensures Valid() && (got, place) == GetBody(old(place), offset)
    {
      var data := place.vols[place.cur].data;
      var n := Get32(data[place.pos..place.pos + 4]);
      if n < 4 || place.pos + n > |data| {
        if place.pos + 4 == |data| {
          place := place.(pos := offset);
          return Eol;
        }
        place := place.(pos := |data|);
        return LogRec;
      }
      if n - 4 >= 0x8000_0000 {
        place := place.(pos := place.pos + n);
        return Errno;
      }
      var r := data[place.pos..place.pos + n];
      place := place.(pos := place.pos + n);
      got := if r[n - 4..] == r[..4] then Rec(r) else LogRec;
    }

    /** _pmLogGet; the jump back to `again` is the loop. */
    method Get() returns (got: Got)
      requires Valid()
      modifies this
      ensures Valid()
      ensures (got, place) == GetFrom(old(place), old(place).pos)
    {
      var offset := place.pos;
      while |place.vols[place.cur].data| <= place.pos
        invariant Valid()
        invariant GetFrom(place, offset) == GetFrom(old(place), offset)
        decreases |place.vols| - place.cur
      {
        place := place.(pos := offset);
        if place.cur + 1 < |place.vols| && place.vols[place.cur + 1].opens {
          var next := place.cur + 1;
          var before := place.vols[next].seen;
          ghost var vols := place.vols;
          place := Place(place.vols[next := place.vols[next].(seen := true)], next, 0);
          if !before { return Eol; }
          assert place.vols == vols;
        } else {
          return Eol;
        }
      }
      if |place.vols[place.cur].data| - place.pos < 4 {
        place := place.(pos := |place.vols[place.cur].data|);
        return LogRec;
      }
      got := GetRecord(offset);
    }
  }

  // ---------- reading a whole archive ----------

  /** Calling _pmLogGet |rs| times at p returns the records rs and leads to q. */
  predicate Reads(p: Place, rs: seq<Bytes>, q: Place)
    decreases |rs|
  {
    if rs == [] then p == q
    else ValidPlace(p) && GetFrom(p, p.pos).0 == Rec(rs[0]) && Reads(GetFrom(p, p.pos).1, rs[1..], q)
  }

  /** Calling it until it fails returns rs, and then the end of the log. */
  ghost predicate ReadsAll(p: Place, rs: seq<Bytes>) {
    exists q :: Reads(p, rs, q) && ValidPlace(q) && GetFrom(q, q.pos).0 == Eol
  }

  /** There is only one such rs. */
  lemma {:induction false} ReadsAllOnce(p: Place, a: seq<Bytes>, b: seq<Bytes>, q: Place, q': Place)
    requires Reads(p, a, q) && ValidPlace(q) && GetFrom(q, q.pos).0 == Eol
    requires Reads(p, b, q') && ValidPlace(q') && GetFrom(q', q'.pos).0 == Eol
    ensures a == b
    decreases |a|
  {
    if a != [] && b != [] {
      ReadsAllOnce(GetFrom(p, p.pos).1, a[1..], b[1..], q, q');
      assert a == [a[0]] + a[1..] && b == [b[0]] + b[1..];
    }
  }

  lemma {:induction false} ReadsMore(p: Place, a: seq<Bytes>, m: Place, b: seq<Bytes>, q: Place)
    requires Reads(p, a, m) && Reads(m, b, q)
    ensures Reads(p, a + b, q)
    decreases |a|
  {
    if a == [] {
      assert a + b == b;
    } else {
      ReadsMore(GetFrom(p, p.pos).1, a[1..], m, b, q);
      assert (a + b)[1..] == a[1..] + b;
    }
  }

  /** The end of volume cur. */
  function EndOf(vols: seq<Volume>, cur: nat): Place
    requires cur < |vols|
  {
    Place(vols, cur, |vols[cur].data|)
  }

  /** A framed record at pos is read as it is. */
  lemma GetsFramed(p: Place, r: Bytes, rest: Bytes)
    requires ValidPlace(p) && p.pos <= |p.vols[p.cur].data| && Framed(r)
    requires p.vols[p.cur].data[p.pos..] == r + rest
    ensures p.pos + |r| <= |p.vols[p.cur].data| && p.vols[p.cur].data[p.pos + |r|..] == rest
    ensures GetFrom(p, p.pos) == (Rec(r), p.(pos := p.pos + |r|))
  {
    var data := p.vols[p.cur].data;
    assert data[p.pos..p.pos + |r|] == data[p.pos..][..|r|] == r;
    assert data[p.pos..p.pos + 4] == r[..4];
    assert data[p.pos + |r|..] == data[p.pos..][|r|..];
    Put32RoundTrip(|r|);
  }

  /** Only framed records are ever returned, and each is what lies in front of the place left behind. */
  lemma {:induction false} OnlyFramed(p: Place, offset: nat)
    requires ValidPlace(p) && GetFrom(p, offset).0.Rec?
    ensures var (got, q) := GetFrom(p, offset);
      && Framed(got.bytes) && q.vols == p.vols && p.cur <= q.cur < |q.vols|
      && |got.bytes| <= q.pos <= |q.vols[q.cur].data|
      && q.vols[q.cur].data[q.pos - |got.bytes|..q.pos] == got.bytes
    decreases |p.vols| - p.cur
  {
    var data := p.vols[p.cur].data;
    if |data| - p.pos >= 4 {
      FramedBody(p, offset);
    } else {
      OnlyFramed(Place(p.vols, p.cur + 1, 0), offset);
    }
  }

  lemma FramedBody(p: Place, offset: nat)
    requires ValidPlace(p) && p.pos + 4 <= |p.vols[p.cur].data| && GetBody(p, offset).0.Rec?
    ensures var (got, q) := GetBody(p, offset);
      && Framed(got.bytes) && q == p.(pos := p.pos + |got.bytes|) && q.pos <= |p.vols[p.cur].data|
      && p.vols[p.cur].data[p.pos..q.pos] == got.bytes
  {
    var data := p.vols[p.cur].data;
    var head := data[p.pos..p.pos + 4];
    Get32RoundTrip(head);
    assert GetBody(p, offset).0.bytes[..4] == head;
  }

  lemma ReadsCons(p: Place, p': Place, rs: seq<Bytes>, q: Place)
    requires ValidPlace(p) && rs != [] && GetFrom(p, p.pos) == (Rec(rs[0]), p') && Reads(p', rs[1..], q)
    ensures Reads(p, rs, q)
  {
  }

  /** The records still to come in a volume are read up to its end. */
  lemma {:induction false} ReadsVolume(p: Place, rs: seq<Bytes>)
    requires ValidPlace(p) && p.pos <= |p.vols[p.cur].data|
    requires p.vols[p.cur].data[p.pos..] == Concat(rs) && AllFramed(rs)
    ensures Reads(p, rs, EndOf(p.vols, p.cur))
    decreases |rs|
  {
    if rs != [] {
      var first, rest := rs[0], rs[1..];
      var p' := p.(pos := p.pos + |first|);
      GetsFramed(p, first, Concat(rest));
      ReadsVolume(p', rest);
      ReadsCons(p, p', rs, EndOf(p.vols, p.cur));
    }
  }

  /** The offset to go back to does not influence what is read. */
  lemma {:induction false} OffsetOnlyMattersOnFailure(p: Place, a: nat, b: nat)
    requires ValidPlace(p)
    ensures GetFrom(p, a).0 == GetFrom(p, b).0
    ensures GetFrom(p, a).0.Rec? ==> GetFrom(p, a) == GetFrom(p, b)
    decreases |p.vols| - p.cur
  {
    if |p.vols[p.cur].data| <= p.pos && p.cur + 1 < |p.vols| && p.vols[p.cur + 1].opens && p.vols[p.cur + 1].seen {
      OffsetOnlyMattersOnFailure(Place(p.vols, p.cur + 1, 0), a, b);
    }
  }

  /** Volume v may be entered without ending the log. */
  predicate Ready(vols: seq<Volume>, v: nat) {
    v < |vols| && vols[v].opens && vols[v].seen
  }

  /** The end of a volume is as good as the start of the next one, if that is ready. */
  lemma EntersNext(vols: seq<Volume>, cur: nat, rs: seq<Bytes>)
    requires cur < |vols| && Ready(vols, cur + 1) && ReadsAll(Place(vols, cur + 1, 0), rs)
    ensures ReadsAll(EndOf(vols, cur), rs)
  {
    var p, n := EndOf(vols, cur), Place(vols, cur + 1, 0);
    OffsetOnlyMattersOnFailure(n, p.pos, 0);
    var q :| Reads(n, rs, q) && ValidPlace(q) && GetFrom(q, q.pos).0 == Eol;
    if rs == [] { assert Reads(p, rs, p); } else { assert Reads(p, rs, q); }
  }

  /**
   In front of a volume whose label has not been checked the end is reported too early: a further
   call goes on with that volume's records.
   */
  lemma ReadsOnAfterTheEnd(vols: seq<Volume>, cur: nat, rs: seq<Bytes>)
    requires cur + 1 < |vols| && vols[cur + 1] == Volume(Concat(rs), true, false) && AllFramed(rs)
    ensures var (got, q) := GetFrom(EndOf(vols, cur), |vols[cur].data|);
      && got == Eol && q.vols == vols[cur + 1 := Volume(Concat(rs), true, true)]
      && Reads(q, rs, EndOf(q.vols, cur + 1))
  {
    var q := Place(vols[cur + 1 := Volume(Concat(rs), true, true)], cur + 1, 0);
    assert GetFrom(EndOf(vols, cur), |vols[cur].data|) == (Eol, q);
    assert q.vols[q.cur].data[q.pos..] == Concat(rs);
    ReadsVolume(q, rs);
  }

  lemma BodyEnd(p: Place, offset: nat)
    requires ValidPlace(p) && p.pos + 4 <= |p.vols[p.cur].data| && GetBody(p, offset).0 == Eol
    ensures GetBody(p, offset).1 == p.(pos := offset)
  {
  }

  /** At the end of the last volume that can be entered the place stays, so that nothing written later is missed. */
  lemma EndIsStable(p: Place, offset: nat)
    requires ValidPlace(p) && GetFrom(p, offset).0 == Eol && !(p.cur + 1 < |p.vols| && p.vols[p.cur + 1].opens)
    ensures GetFrom(p, offset).1 == p.(pos := offset)
  {
    if |p.vols[p.cur].data| - p.pos >= 4 {
      BodyEnd(p, offset);
    }
  }

  /** A bad record is never read twice: the place is behind all of it, or at the end of its volume. */
  lemma BadRecordIsPassed(p: Place)
    requires ValidPlace(p) && p.pos < |p.vols[p.cur].data| && GetFrom(p, p.pos).0 in {LogRec, Errno}
    ensures var q, data := GetFrom(p, p.pos).1, p.vols[p.cur].data;
      && q == p.(pos := q.pos) && p.pos < q.pos <= |data|
      && (q.pos < |data| ==> q.pos == p.pos + Get32(data[p.pos..p.pos + 4]))
  {
  }

  /** Where reading from volume cur comes to an end: in front of the first volume that is not ready. */
  function Reach(vols: seq<Volume>, cur: nat): (k: nat)
    requires cur < |vols|
    ensures cur < k <= |vols|
    decreases |vols| - cur
  {
    if Ready(vols, cur + 1) then Reach(vols, cur + 1) else cur + 1
  }

  function Flatten(rss: seq<seq<Bytes>>): seq<Bytes> {
    if rss == [] then [] else rss[0] + Flatten(rss[1..])
  }

  /** Volume by volume, the files hold these framed records. */
  predicate Holds(vols: seq<Volume>, rss: seq<seq<Bytes>>) {
    && |vols| == |rss|
    && forall i :: 0 <= i < |rss| ==> vols[i].data == Concat(rss[i]) && AllFramed(rss[i])
  }

  lemma {:induction false} ReadsFrom(vols: seq<Volume>, rss: seq<seq<Bytes>>, cur: nat)
    requires cur < |vols| && Holds(vols, rss)
    ensures ReadsAll(Place(vols, cur, 0), Flatten(rss[cur..Reach(vols, cur)]))
    decreases |vols| - cur
  {
    var p, k := Place(vols, cur, 0), Reach(vols, cur);
    var rest := Flatten(rss[cur + 1..k]);
    if k > cur + 1 {
      ReadsFrom(vols, rss, cur + 1);
      EntersNext(vols, cur, rest);
    } else {
      assert Reads(EndOf(vols, cur), rest, EndOf(vols, cur));
    }
    var q :| Reads(EndOf(vols, cur), rest, q) && ValidPlace(q) && GetFrom(q, q.pos).0 == Eol;
    assert vols[cur].data[0..] == vols[cur].data;
    ReadsVolume(p, rss[cur]);
    ReadsMore(p, rss[cur], EndOf(vols, cur), rest, q);
    assert rss[cur..k][0] == rss[cur] && rss[cur..k][1..] == rss[cur + 1..k];
  }

  /** What a reader of a multi-volume archive gets, whatever the state of its volumes. */
  lemma ReadsVolumes(vols: seq<Volume>, rss: seq<seq<Bytes>>)
    requires vols != [] && Holds(vols, rss)
    ensures ReadsAll(Place(vols, 0, 0), Flatten(rss[..Reach(vols, 0)]))
  {
    ReadsFrom(vols, rss, 0);
    assert rss[0..Reach(vols, 0)] == rss[..Reach(vols, 0)];
  }

  lemma {:induction false} FlattenSplit(rss: seq<seq<Bytes>>, k: nat)
    requires k <= |rss|
    ensures Flatten(rss) == Flatten(rss[..k]) + Flatten(rss[k..])
  {
    if k == 0 {
      assert rss[..0] == [] && rss[0..] == rss;
    } else {
      FlattenSplit(rss[1..], k - 1);
      assert rss[..k][1..] == rss[1..][..k - 1] && rss[k..] == rss[1..][k - 1..];
      assert rss[0] + (Flatten(rss[1..][..k - 1]) + Flatten(rss[1..][k - 1..]))
          == (rss[0] + Flatten(rss[1..][..k - 1])) + Flatten(rss[1..][k - 1..]);
    }
  }

  lemma {:induction false} FlattenEmpty(rss: seq<seq<Bytes>>)
    ensures Flatten(rss) == [] <==> forall i :: 0 <= i < |rss| ==> rss[i] == []
  {
    if rss != [] {
      FlattenEmpty(rss[1..]);
      assert forall i :: 1 <= i < |rss| ==> rss[i] == rss[1..][i - 1];
      assert forall i :: 0 <= i < |rss| - 1 ==> rss[1..][i] == rss[i + 1];
    }
  }

  /**
   The archive reads as the concatenation of its volumes exactly when no record lies in a volume
   at or behind the first one that cannot be opened or is entered for the first time.
   */
  lemma ArchiveIsConcatenation(vols: seq<Volume>, rss: seq<seq<Bytes>>)
    requires vols != [] && Holds(vols, rss)
    ensures ReadsAll(Place(vols, 0, 0), Flatten(rss)) <==> forall i :: Reach(vols, 0) <= i < |rss| ==> rss[i] == []
  {
    var p, k := Place(vols, 0, 0), Reach(vols, 0);
    var got := Flatten(rss[..k]);
    ReadsVolumes(vols, rss);
    if ReadsAll(p, Flatten(rss)) {
      var q :| Reads(p, got, q) && ValidPlace(q) && GetFrom(q, q.pos).0 == Eol;
      var q' :| Reads(p, Flatten(rss), q') && ValidPlace(q') && GetFrom(q', q'.pos).0 == Eol;
      ReadsAllOnce(p, got, Flatten(rss), q, q');
    }
    NothingBehind(rss, k);
  }

  lemma NothingBehind(rss: seq<seq<Bytes>>, k: nat)
    requires k <= |rss|
    ensures Flatten(rss) == Flatten(rss[..k]) <==> forall i :: k <= i < |rss| ==> rss[i] == []
  {
    FlattenSplit(rss, k);
    FlattenEmpty(rss[k..]);
    assert forall i :: k <= i < |rss| ==> rss[i] == rss[k..][i - k];
    assert forall i :: 0 <= i < |rss| - k ==> rss[k..][i] == rss[k + i];
    assert |Flatten(rss)| == |Flatten(rss[..k])| + |Flatten(rss[k..])|;
  }

  /** One volume of framed records reads as those records. */
  lemma ReadsOneVolume(rs: seq<Bytes>)
    requires AllFramed(rs)
    ensures ReadsAll(Place([Volume(Concat(rs), true, true)], 0, 0), rs)
  {
    ReadsVolumes([Volume(Concat(rs), true, true)], [rs]);
    assert [rs][..1] == [rs] && [rs][1..] == [];
    assert Flatten([rs]) == rs + [] == rs;
  }

  lemma TwoVolumes(vols: seq<Volume>, a: seq<Bytes>, b: seq<Bytes>)
    requires AllFramed(a) && AllFramed(b) && |vols| == 2 && vols[0] == Volume(Concat(a), true, true)
    requires vols[1].opens && vols[1].data == Concat(b)
    ensures ReadsAll(Place(vols, 0, 0), if vols[1].seen then a + b else a)
  {
    assert Reach(vols, 1) == 2;
    FlattenTwo(a, b);
    ReadsVolumes(vols, [a, b]);
  }

  /** A fresh context has checked the label of its first volume only: the second volume is then lost. */
  lemma SecondVolume(a: seq<Bytes>, b: seq<Bytes>, seen: bool)
    requires AllFramed(a) && AllFramed(b)
    ensures ReadsAll(Place([Volume(Concat(a), true, true), Volume(Concat(b), true, seen)], 0, 0),
                     if seen then a + b else a)
  {
    TwoVolumes([Volume(Concat(a), true, true), Volume(Concat(b), true, seen)], a, b);
  }

  lemma FlattenTwo(a: seq<Bytes>, b: seq<Bytes>)
    ensures Flatten([a, b][..1]) == a && Flatten([a, b][..2]) == a + b
  {
    assert [a, b][..1] == [a] && [a, b][..2] == [a, b] && [a, b][1..] == [b] && [a][1..] == [] && [b][1..] == [];
    assert a + [] == a && b + [] == b;
  }

  // ---------- _pmLogPut ----------

  /** Appends as many bytes of the buffer as its head word says. */
  function Put(file: Bytes, pb: Bytes): Bytes
    requires |pb| >= 4 && Get32(pb[..4]) <= |pb|
  {
    file + pb[..Get32(pb[..4])]
  }

  /** Records written one after another are read back unchanged. */
  lemma PutThenGet(rs: seq<Bytes>, r: Bytes)
    requires Framed(r) && AllFramed(rs)
    ensures Get32(r[..4]) == |r|
    ensures ReadsAll(Place([Volume(Put(Concat(rs), r), true, true)], 0, 0), rs + [r])
  {
    Put32RoundTrip(|r|);
    assert r[..|r|] == r;
    ConcatSnoc(rs, r, []);
    assert Concat(rs) + (r + []) == Put(Concat(rs), r);
    assert Concat(rs + [r]) + [] == Concat(rs + [r]);
    ReadsOneVolume(rs + [r]);
  }

  // ---------- stripmark ----------

  /** A mark record is a head, a timestamp, a zero count and a tail: 12 - 4 + 8 + 4 bytes, line 67. */
  const MARK: nat := 20

  function Kept(rs: seq<Bytes>): seq<Bytes> {
    if rs == [] then [] else (if |rs[0]| > MARK then [rs[0]] else []) + Kept(rs[1..])
  }

  /** The bytes at the front of the input that make a record with a head, if there are any. */
  function FirstRecord(input: Bytes): (n: nat)
    ensures n > 0 ==> 4 <= n <= |input| && Headed(input[..n])
  {
    if |input| < 4 then 0
    else
      var n := Get32(input[..4]);
      Get32RoundTrip(input[..4]);
      assert n >= 4 && n <= |input| ==> input[..n][..4] == input[..4];
      if n < 4 || n > |input| || n - 4 >= 0x8000_0000 then 0 else n
  }

  /** The file is a sequence of records. */
  ghost predicate Splits(input: Bytes) {
    exists rs: seq<Bytes> :: AllHeaded(rs) && input == Concat(rs)
  }

  /** What a successful stripmark does to a file. */
  ghost predicate Strips(input: Bytes, out: Bytes) {
    exists rs: seq<Bytes> :: AllHeaded(rs) && input == Concat(rs) && out == Concat(Kept(rs))
  }

  /**
   The loop of lines 42-76. The input splits into the records rs that were read and, when the
   program gives up, a rest that does not start with a record; of rs those longer than a mark
   record are written, in order. It gives up exactly on a file that is not a sequence of records.
   */
  method StripMarks(input: Bytes) returns (out: Bytes, ok: bool, ghost rs: seq<Bytes>, ghost bad: Bytes)
    ensures AllHeaded(rs) && input == Concat(rs) + bad
    ensures out == Concat(Kept(rs))
    ensures if ok then bad == [] else bad != [] && FirstRecord(bad) == 0
    ensures ok <==> Splits(input)
    ensures ok ==> Strips(input, out)
  {
    out, rs := [], [];
    var rest := input;
    while rest != []
      invariant AllHeaded(rs) && input == Concat(rs) + rest
      invariant out == Concat(Kept(rs))
      decreases |rest|
    {
      var n := FirstRecord(rest);
      if n == 0 {
        NotAllRecords(input, rs, rest);
        return out, false, rs, rest;
      }
      var r := rest[..n];
      ConcatSnoc(rs, r, rest[n..]);
      KeptSnoc(rs, r);
      if n > MARK { out := out + r; }
      rs := rs + [r];
      rest := rest[n..];
    }
    ok, bad := true, [];
    assert input == Concat(rs);
  }

  lemma NotAllRecords(input: Bytes, rs: seq<Bytes>, bad: Bytes)
    requires AllHeaded(rs) && input == Concat(rs) + bad && bad != [] && FirstRecord(bad) == 0
    ensures !Splits(input)
  {
    forall qs: seq<Bytes> | AllHeaded(qs) ensures input != Concat(qs) {
      if input == Concat(qs) {
        assert Concat(qs) + [] == Concat(qs);
        SplitIsUnique(rs, bad, qs, []);
        assert false;
      }
    }
  }

  lemma ConcatSnoc(rs: seq<Bytes>, r: Bytes, rest: Bytes)
    ensures Concat(rs) + (r + rest) == Concat(rs + [r]) + rest
  {
    ConcatAppend(rs, [r]);
    assert Concat([r]) == r;
  }

  /** What is kept is the records of more than 20 bytes; a mark record has no more than that. */
  lemma {:induction false} KeptAreLonger(rs: seq<Bytes>, r: Bytes)
    ensures r in Kept(rs) <==> r in rs && |r| > 20
  {
    if rs != [] {
      KeptAreLonger(rs[1..], r);
      assert rs == [rs[0]] + rs[1..];
    }
  }

  lemma {:induction false} KeptAppend(a: seq<Bytes>, b: seq<Bytes>)
    ensures Kept(a + b) == Kept(a) + Kept(b)
  {
    if a == [] {
      assert a + b == b;
    } else {
      KeptAppend(a[1..], b);
      assert (a + b)[0] == a[0] && (a + b)[1..] == a[1..] + b;
      var first := if |a[0]| > MARK then [a[0]] else [];
      assert first + (Kept(a[1..]) + Kept(b)) == (first + Kept(a[1..])) + Kept(b);
    }
  }

  lemma KeptSnoc(rs: seq<Bytes>, r: Bytes)
    ensures Concat(Kept(rs + [r])) == Concat(Kept(rs)) + if |r| > MARK then r else []
  {
    KeptAppend(rs, [r]);
    ConcatAppend(Kept(rs), Kept([r]));
    assert Kept([r]) == if |r| > MARK then [r] else [];
    assert Concat([r]) == r;
  }

  /** The record at the front of a file is determined by the bytes, and so is the whole split. */
  lemma FirstIsUnique(r: Bytes, rest: Bytes)
    requires Headed(r)
    ensures FirstRecord(r + rest) == |r|
  {
    assert (r + rest)[..4] == r[..4];
    Put32RoundTrip(|r|);
  }

  lemma {:induction false} SplitIsUnique(a: seq<Bytes>, x: Bytes, b: seq<Bytes>, y: Bytes)
    requires AllHeaded(a) && AllHeaded(b) && Concat(a) + x == Concat(b) + y
    requires (x == [] || FirstRecord(x) == 0) && (y == [] || FirstRecord(y) == 0)
    ensures a == b && x == y
    decreases |a|
  {
    if a != [] { Peel(a, x); }
    if b != [] { Peel(b, y); }
    assert (a == [] ==> Concat(a) + x == x) && (b == [] ==> Concat(b) + y == y);
    if a != [] && b != [] {
      SplitIsUnique(a[1..], x, b[1..], y);
      assert a == [a[0]] + a[1..] && b == [b[0]] + b[1..];
    }
  }

  lemma Peel(a: seq<Bytes>, x: Bytes)
    requires AllHeaded(a) && a != []
    ensures var all := Concat(a) + x;
            var n := |a[0]|;
            n <= |all| && FirstRecord(all) == n && all[..n] == a[0] && all[n..] == Concat(a[1..]) + x
  {
    assert Concat(a) + x == a[0] + (Concat(a[1..]) + x);
    FirstIsUnique(a[0], Concat(a[1..]) + x);
  }

  lemma {:induction false} KeptHeaded(rs: seq<Bytes>)
    requires AllHeaded(rs)
    ensures AllHeaded(Kept(rs))
    ensures Kept(Kept(rs)) == Kept(rs)
  {
    if rs != [] {
      KeptHeaded(rs[1..]);
      if |rs[0]| > MARK { assert Kept(rs)[1..] == Kept(rs[1..]); } else { assert Kept(rs) == Kept(rs[1..]); }
    }
  }

  /** What has been stripped can be stripped again, and that changes nothing. */
  lemma StripIdempotent(input: Bytes, out: Bytes)
    requires Strips(input, out)
    ensures Strips(out, out) && forall again :: Strips(out, again) ==> again == out
  {
    var rs :| AllHeaded(rs) && input == Concat(rs) && out == Concat(Kept(rs));
    KeptHeaded(rs);
    forall again | Strips(out, again) ensures again == out {
      var ks :| AllHeaded(ks) && out == Concat(ks) && again == Concat(Kept(ks));
      assert Concat(ks) + [] == Concat(Kept(rs)) + [];
      SplitIsUnique(ks, [], Kept(rs), []);
    }
  }
}
