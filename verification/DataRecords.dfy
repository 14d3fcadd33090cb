/**
 The data records a conversion reads and what it writes for them: rewrite_pdu followed by
 _pmLogPut (qa/pmlogconv/pmlogconv.c:290-297, qa/pmlogconv/logio.c:168-260).
 */
module DataRecords {
  import opened Basics
  import opened Framing
  import opened Merge
  import opened ArchiveOutput
  import P = PduRewrite

  /**
   The words of a record as they are read, the length first and last and a timestamp and a count
   behind the first; the value sets the count promises lie in front of the last word.
   */
  type Record = pb: seq<int> | Walkable(pb) witness [20, 0, 0, 0, 20]

  predicate Walkable(pb: seq<int>) {
    5 <= |pb| && P.Fits(pb[4..|pb| - 1], pb[3])
  }

  /** What rewrite_pdu makes of the words. */
  function Rewritten(r: Record): (w: seq<int>)
    ensures |w| == |r|
  {
    var n := |r| - 1;
    r[..4] + P.Rewrite(r[4..n], r[3]) + [r[n]]
  }

  /** Words in network order. */
  function Image(w: seq<int>): (b: Bytes)
    ensures |b| == 4 * |w|
  {
    if w == [] then [] else Put32(w[0] % MOD32) + Image(w[1..])
  }

  function StampOf(r: Record): Stamp { Stamp(r[1] % MOD32, r[2] % MOD32) }

  /** The record as it is written. */
  function Converted(r: Record): Data { Data(StampOf(r), Image(Rewritten(r))) }

  function AllWritten<R>(written: R -> Data, rs: seq<R>): (ds: seq<Data>)
    ensures |ds| == |rs|
  {
    if rs == [] then [] else [written(rs[0])] + AllWritten(written, rs[1..])
  }

  lemma {:induction false} WrittenAt<R>(written: R -> Data, rs: seq<R>, i: nat)
    requires i < |rs|
    ensures AllWritten(written, rs)[i] == written(rs[i])
  {
    if i > 0 {
      WrittenAt(written, rs[1..], i - 1);
    }
  }

  function AllConverted(rs: seq<Record>): seq<Data> { AllWritten(Converted, rs) }

  /** The walk over the value sets does not touch what lies behind them. */
  lemma {:induction false} RewriteKeepsRest(w: seq<int>, rest: seq<int>, n: int)
    requires P.Fits(w, n)
    ensures P.Fits(w + rest, n) && P.Rewrite(w + rest, n) == P.Rewrite(w, n) + rest
    decreases |w|
  {
    if n > 0 {
      var k := P.Size(w[1]);
      RewriteKeepsRest(w[k..], rest, n - 1);
      var all := w + rest;
      assert all[1] == w[1] && all[..k] == w[..k] && all[k..] == w[k..] + rest;
    }
  }

  lemma RewrittenWhole(r: Record)
    ensures P.Fits(r[4..], r[3]) && r[..4] + P.Rewrite(r[4..], r[3]) == Rewritten(r)
  {
    var n := |r| - 1;
    var sets, last := r[4..n], [r[n]];
    assert r[4..] == sets + last;
    RewriteKeepsRest(sets, last, r[3]);
    assert r[..4] + (P.Rewrite(sets, r[3]) + last) == r[..4] + P.Rewrite(sets, r[3]) + last;
  }

  /** Word i of the record is bytes 4i to 4i+4 of what is written. */
  lemma {:induction false} ImageAt(w: seq<int>, i: nat)
    requires i < |w|
    ensures Image(w)[4 * i..4 * i + 4] == Put32(w[i] % MOD32)
  {
    var head, rest := Put32(w[0] % MOD32), Image(w[1..]);
    if i == 0 {
      assert (head + rest)[0..4] == head;
    } else {
      ImageAt(w[1..], i - 1);
      assert (head + rest)[4 * i..4 * i + 4] == rest[4 * (i - 1)..4 * (i - 1) + 4];
    }
  }

  /** The bytes of data records carry their times: seconds behind the length, then microseconds. */
  predicate Timed(d: Data) {
    12 <= |d.bytes| && Get32(d.bytes[4..8]) == d.stamp.sec && Get32(d.bytes[8..12]) == d.stamp.usec
  }

  lemma WordCarried(w: seq<int>, i: nat)
    requires i < |w|
    ensures Get32(Image(w)[4 * i..4 * i + 4]) == w[i] % MOD32
  {
    ImageAt(w, i);
    Put32RoundTrip(w[i] % MOD32);
  }

  /** The time by which a record is merged is the one that is written with it, and the one it was read with. */
  lemma TimeIsCarried(r: Record)
    ensures Timed(Converted(r))
    ensures Get32(Image(r)[4..8]) == Converted(r).stamp.sec && Get32(Image(r)[8..12]) == Converted(r).stamp.usec
  {
    var w := Rewritten(r);
    assert w[1] == r[1] && w[2] == r[2];
    WordCarried(w, 1);
    WordCarried(w, 2);
    WordCarried(r, 1);
    WordCarried(r, 2);
  }

  /** rewrite_pdu in the record buffer, and what is then written. */
  method RewriteRecord(r: Record) returns (d: Data)
    ensures d == Converted(r) && Timed(d)
  {
    RewrittenWhole(r);
    TimeIsCarried(r);
    var pb := new int[|r|](i requires 0 <= i < |r| => r[i]);
    assert pb[..] == r;
    assert pb[4..] == r[4..] && pb[..4] == r[..4];
    P.RewritePdu(pb);
    assert pb[..] == pb[..4] + pb[4..];
    d := Data(StampOf(r), Image(pb[..]));
  }

  // ---------- metadata records ----------

  /** The words of a metadata record, its length first and last and its type second. */
  type MetaRecord = pb: seq<int> | 5 <= |pb| witness [20, 2, 0, 0, 20]

  /**
   What nextrec takes a metadata record for, and what is written for it: an instance domain goes
   out as it is, a descriptor as `described` says, with a name added.
   */
  function MetaOf(described: MetaRecord -> Bytes, m: MetaRecord): Meta {
    if m[1] == TYPE_DESC then Desc(m[2], described(m)) else InDom(Stamp(m[2] % MOD32, m[3] % MOD32), Image(m))
  }

  function AllMeta(described: MetaRecord -> Bytes, ms: seq<MetaRecord>): (r: seq<Meta>)
    ensures |r| == |ms|
  {
    if ms == [] then [] else [MetaOf(described, ms[0])] + AllMeta(described, ms[1..])
  }

  lemma {:induction false} MetaAt(described: MetaRecord -> Bytes, ms: seq<MetaRecord>, i: nat)
    requires i < |ms|
    ensures AllMeta(described, ms)[i] == MetaOf(described, ms[i])
  {
    if i > 0 {
      MetaAt(described, ms[1..], i - 1);
    }
  }

  /** The bytes written for an instance domain carry the time by which it is merged. */
  lemma InDomTimeIsCarried(described: MetaRecord -> Bytes, m: MetaRecord)
    requires MetaOf(described, m).InDom?
    ensures var r := MetaOf(described, m);
      16 <= |r.bytes| && Get32(r.bytes[8..12]) == r.stamp.sec && Get32(r.bytes[12..16]) == r.stamp.usec
  {
    WordCarried(m, 2);
    WordCarried(m, 3);
  }

  lemma PlainWord(n: int)
    requires 0 <= n < MOD32
    ensures n % MOD32 == n
  {
  }

  /** Descriptors are the records whose second word is 1. */
  lemma DescIsRecognised(described: MetaRecord -> Bytes, m: MetaRecord)
    requires 0 <= m[1] < MOD32
    ensures MetaOf(described, m).Desc? <==> Get32(Image(m)[4..8]) == 1
  {
    WordCarried(m, 1);
    PlainWord(m[1]);
  }

  /** The third word of a descriptor is its identifier. */
  lemma DescIdentifier(described: MetaRecord -> Bytes, m: MetaRecord)
    requires 0 <= m[2] < MOD32 && MetaOf(described, m).Desc?
    ensures MetaOf(described, m).pmid == Get32(Image(m)[8..12])
  {
    WordCarried(m, 2);
    PlainWord(m[2]);
  }

  // ---------- the written volume can be read ----------

  /** A record whose first and last word give its length. */
  predicate Proper(r: Record) {
    4 * |r| < 0x8000_0000 && r[0] == r[|r| - 1] == 4 * |r|
  }

  lemma {:induction false} ImageEnds(w: seq<int>)
    requires w != []
    ensures Image(w)[..4] == Put32(w[0] % MOD32)
    ensures Image(w)[4 * |w| - 4..] == Put32(w[|w| - 1] % MOD32)
  {
    if |w| == 1 {
      assert Image(w) == Put32(w[0] % MOD32) + [];
    } else {
      ImageEnds(w[1..]);
      var rest := Image(w[1..]);
      assert Image(w)[4 * |w| - 4..] == rest[4 * |w| - 8..];
    }
  }

  lemma HasFrame(b: Bytes, n: nat)
    requires 4 <= |b| == n < 0x8000_0000 && b[..4] == Put32(n) && b[n - 4..] == Put32(n)
    ensures Framed(b)
  {
  }

  lemma FramedImage(w: seq<int>, n: nat)
    requires w != [] && 4 * |w| == n < 0x8000_0000 && w[0] % MOD32 == n && w[|w| - 1] % MOD32 == n
    ensures Framed(Image(w))
  {
    ImageEnds(w);
    HasFrame(Image(w), n);
  }

  lemma RewritingKeepsEnds(r: Record)
    ensures Rewritten(r)[0] == r[0] && Rewritten(r)[|r| - 1] == r[|r| - 1]
  {
  }

  /** Rewriting keeps the frame of a record. */
  lemma WrittenIsFramed(r: Record)
    requires Proper(r)
    ensures Framed(Converted(r).bytes) && |Converted(r).bytes| == 4 * |r|
  {
    RewritingKeepsEnds(r);
    FramedImage(Rewritten(r), 4 * |r|);
  }

  function BytesOf(ds: seq<Data>): seq<Bytes> {
    seq(|ds|, i requires 0 <= i < |ds| => ds[i].bytes)
  }

  lemma {:induction false} DatasSnoc(es: seq<Event>, e: Event)
    ensures Datas(es + [e]) == Datas(es) + (if e.D? then [e.data] else [])
  {
    if es == [] {
      assert [] + [e] == [e] && [e][1..] == [];
    } else {
      DatasSnoc(es[1..], e);
      assert (es + [e])[0] == es[0] && (es + [e])[1..] == es[1..] + [e];
    }
  }

  lemma ConcatSnocBytes(ds: seq<Data>, d: Data)
    ensures Concat(BytesOf(ds + [d])) == Concat(BytesOf(ds)) + d.bytes
  {
    ConcatAppend(BytesOf(ds), [d.bytes]);
    assert BytesOf(ds + [d]) == BytesOf(ds) + [d.bytes];
    assert Concat([d.bytes]) == d.bytes + Concat([]) == d.bytes;
  }

  /** A label and the records behind it. */
  function VolumeOf(ds: seq<Data>): Bytes {
    if ds == [] then [] else Label(VOL_DATA, ds[0].stamp) + Concat(BytesOf(ds))
  }

  lemma VolumeSnoc(ds: seq<Data>, d: Data)
    ensures VolumeOf(ds + [d]) == (if VolumeOf(ds) == [] then Label(VOL_DATA, d.stamp) else VolumeOf(ds)) + d.bytes
  {
    ConcatSnocBytes(ds, d);
    if ds == [] {
      assert BytesOf(ds) == [];
    } else {
      var l, c := Label(VOL_DATA, ds[0].stamp), Concat(BytesOf(ds));
      assert (ds + [d])[0] == ds[0] && l + (c + d.bytes) == (l + c) + d.bytes;
    }
  }

  /** The data volume is its label and the records written, in order. */
  lemma {:induction false} VolumeIs(es: seq<Event>)
    ensures LogImage(es) == VolumeOf(Datas(es))
  {
    if es != [] {
      var front, e := es[..|es| - 1], es[|es| - 1];
      VolumeIs(front);
      DatasSnoc(front, e);
      assert es == front + [e];
      if e.D? {
        VolumeSnoc(Datas(front), e.data);
      } else {
        assert Datas(es) == Datas(front);
      }
    }
  }

  predicate AllProper(rs: seq<Record>) { forall i :: 0 <= i < |rs| ==> Proper(rs[i]) }

  /** Behind its label the volume reads back as these records, in order, and then ends. */
  ghost predicate ReadsAs(volume: Bytes, ds: seq<Data>) {
    ReadsAll(Place([Volume(volume, true, true)], 0, LABEL_SIZE), BytesOf(ds))
  }

  lemma WrittenVolumeReads(rs: seq<Record>, es: seq<Event>)
    requires rs != [] && AllProper(rs) && Datas(es) == AllConverted(rs)
    ensures ReadsAs(LogImage(es), AllConverted(rs))
  {
    VolumeIs(es);
    var v := Volume(LogImage(es), true, true);
    var bs := BytesOf(AllConverted(rs));
    forall i | 0 <= i < |bs| ensures Framed(bs[i]) {
      WrittenAt(Converted, rs, i);
      WrittenIsFramed(rs[i]);
    }
    assert v.data[LABEL_SIZE..] == Concat(bs);
    ReadsVolume(Place([v], 0, LABEL_SIZE), bs);
    assert GetFrom(EndOf([v], 0), EndOf([v], 0).pos).0 == Eol;
  }
}
