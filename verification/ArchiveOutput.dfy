/**
 The three files pmlogconv writes (qa/pmlogconv/pmlogconv.c:264-351): the data volume, the
 metadata file and the temporal index, with the stream positions the program moves about.
 */
module ArchiveOutput {
  import opened Basics
  import opened Framing
  import opened Merge

  /** A stream: the bytes of the file and the position of the next write. */
  datatype File = File(data: Bytes, pos: nat)

  /** A write at the current position: it overwrites, extends, and fills a gap with zero bytes. */
  function Append(f: File, b: Bytes): File {
    var front := if f.pos <= |f.data| then f.data[..f.pos] else f.data + seq(f.pos - |f.data|, _ => 0);
    var end := f.pos + |b|;
    File(front + b + (if end <= |f.data| then f.data[end..] else []), end)
  }

  /** A temporal index entry: a time with the offsets in the metadata and the data file. */
  datatype Entry = Entry(stamp: Stamp, meta: nat, log: nat)

  /** `tiLabel` and `ti` are the index file; `start` is the start time in the label kept in memory. */
  datatype Out = Out(log: File, meta: File, tiLabel: Bytes, ti: seq<Entry>, needti: bool, start: Stamp)

  const VOL_DATA: nat := 0
  const VOL_META: nat := MOD32 - 1
  const VOL_TI: nat := MOD32 - 2

  /** A label record; the fields that never change during a run are left at zero. */
  function Label(vol: nat, start: Stamp): (r: Bytes)
    requires vol < MOD32
    ensures |r| == LABEL_SIZE
  {
    Put32(LABEL_SIZE) + seq(8, _ => 0) + Put32(start.sec % MOD32) + Put32(start.usec % MOD32) + Put32(vol)
    + seq(104, _ => 0) + Put32(LABEL_SIZE)
  }

  /** A label is framed by its length and carries the start time and the volume number. */
  lemma LabelCarries(vol: nat, start: Stamp)
    requires vol < MOD32
    ensures var l := Label(vol, start);
      && Framed(l) && Get32(l[12..16]) == start.sec % MOD32 && Get32(l[16..20]) == start.usec % MOD32
      && Get32(l[20..24]) == vol
  {
    var l, front := Label(vol, start), Put32(132) + seq(8, _ => 0);
    var sec, usec := Put32(start.sec % MOD32), Put32(start.usec % MOD32);
    assert l == front + sec + usec + Put32(vol) + seq(104, _ => 0) + Put32(132);
    assert l[12..16] == sec && l[16..20] == usec && l[20..24] == Put32(vol);
    Put32RoundTrip(start.sec % MOD32);
    Put32RoundTrip(start.usec % MOD32);
    Put32RoundTrip(vol);
  }

  /** The three files are numbered 0, -1 and -2 in their labels. */
  lemma VolumeNumbers(start: Stamp)
    ensures Get32(Label(VOL_DATA, start)[20..24]) == 0
    ensures Get32(Label(VOL_META, start)[20..24]) == 0xffff_ffff
    ensures Get32(Label(VOL_TI, start)[20..24]) == 0xffff_fffe
  {
    LabelCarries(VOL_DATA, start);
    LabelCarries(VOL_META, start);
    LabelCarries(VOL_TI, start);
  }

  /** Where the metadata stream is put back after an index entry: the code, and what is wanted. */
  datatype Restore = AsWritten | AsMeant

  function PutIndex(r: Restore, o: Out, stamp: Stamp, oldLog: nat, oldMeta: nat): Out {
    var back := if r == AsWritten then o.log.pos else o.meta.pos;
    o.(ti := o.ti + [Entry(stamp, oldMeta, oldLog)], needti := false, meta := o.meta.(pos := back))
  }

  function PutLabel(o: Out, stamp: Stamp): Out {
    if o.log.pos == 0
    then o.(log := Append(o.log, Label(VOL_DATA, stamp)), needti := true, start := stamp)
    else o
  }

  /** One pass through the body of the main loop. */
  function Emit(r: Restore, o: Out, e: Event): Out {
    match e
    case D(d) =>
      var o1 := PutLabel(o, d.stamp);
      var o2 := o1.(log := Append(o1.log, d.bytes));
      if o2.needti then PutIndex(r, o2, d.stamp, o1.log.pos, o.meta.pos) else o2
    case M(m) =>
      o.(meta := Append(o.meta, m.bytes), needti := o.needti || m.InDom?)
  }

  function Start(start: Stamp): Out {
    Out(File([], 0), Append(File([], 0), Label(VOL_META, start)), Label(VOL_TI, start), [], false, start)
  }

  function Run(r: Restore, start: Stamp, es: seq<Event>): Out {
    if es == [] then Start(start) else Emit(r, Run(r, start, es[..|es| - 1]), es[|es| - 1])
  }

  /** The labels of metadata and index are rewritten with the final start time. */
  function Finish(o: Out): Out {
    o.(meta := Append(o.meta.(pos := 0), Label(VOL_META, o.start)), tiLabel := Label(VOL_TI, o.start))
  }

  // ---------- what the files should hold ----------

  /** The data volume up to where the next record goes: the label comes with the first record. */
  function LogBefore(es: seq<Event>, stamp: Stamp): Bytes
    decreases |es|, 1
  {
    if LogImage(es) == [] then Label(VOL_DATA, stamp) else LogImage(es)
  }

  function LogImage(es: seq<Event>): Bytes
    decreases |es|, 0
  {
    if es == [] then []
    else
      var es', e := es[..|es| - 1], es[|es| - 1];
      if e.D? then LogBefore(es', e.data.stamp) + e.data.bytes else LogImage(es')
  }

  function MetaImage(start: Stamp, es: seq<Event>): Bytes {
    if es == [] then Label(VOL_META, start)
    else
      var es', e := es[..|es| - 1], es[|es| - 1];
      MetaImage(start, es') + (if e.M? then e.meta.bytes else [])
  }

  /** The start time in the final labels: that of the first data record. */
  function FirstTime(start: Stamp, es: seq<Event>): Stamp {
    if es == [] then start
    else
      var es', e := es[..|es| - 1], es[|es| - 1];
      if e.D? && LogImage(es') == [] then e.data.stamp else FirstTime(start, es')
  }

  /** An index entry is due: nothing has been logged, or an instance domain since the last record. */
  predicate Due(es: seq<Event>) {
    es == [] || (es[|es| - 1].M? && (es[|es| - 1].meta.InDom? || Due(es[..|es| - 1])))
  }

  function Index(start: Stamp, es: seq<Event>): seq<Entry> {
    if es == [] then []
    else
      var es', e := es[..|es| - 1], es[|es| - 1];
      if e.D? && Due(es')
      then Index(start, es') + [Entry(e.data.stamp, |MetaImage(start, es')|, |LogBefore(es', e.data.stamp)|)]
      else Index(start, es')
  }

  /** Both streams stand at the end of their files. */
  predicate AtEnd(o: Out) {
    o.log.pos == |o.log.data| && o.meta.pos == |o.meta.data|
  }

  predicate Sound(o: Out, start: Stamp, es: seq<Event>) {
    && AtEnd(o)
    && o.log.data == LogImage(es)
    && o.meta.data == MetaImage(start, es)
    && o.ti == Index(start, es)
    && o.start == FirstTime(start, es)
    && (o.needti || LogImage(es) == [] <==> Due(es))
  }

  /** The two files have the same length when an entry is added after e. */
  predicate LevelAt(start: Stamp, es: seq<Event>, e: Event) {
    e.D? && Due(es) ==> |LogBefore(es, e.data.stamp)| + |e.data.bytes| == |MetaImage(start, es)|
  }

  predicate Level(start: Stamp, es: seq<Event>) {
    forall i :: 0 <= i < |es| ==> LevelAt(start, es[..i], es[i])
  }

  lemma PutAtEnd(f: File, b: Bytes)
    requires f.pos == |f.data|
    ensures Append(f, b) == File(f.data + b, |f.data| + |b|)
  {
    assert f.data[..f.pos] == f.data;
  }

  lemma StepMeta(r: Restore, o: Out, start: Stamp, es: seq<Event>, e: Event)
    requires Sound(o, start, es) && e.M?
    ensures Sound(Emit(r, o, e), start, es + [e])
  {
    PutAtEnd(o.meta, e.meta.bytes);
    assert (es + [e])[..|es|] == es;
  }

  lemma StepData(r: Restore, o: Out, start: Stamp, es: seq<Event>, e: Event)
    requires Sound(o, start, es) && e.D?
    ensures Sound(Emit(AsMeant, o, e), start, es + [e])
    ensures LevelAt(start, es, e) ==> Emit(AsWritten, o, e) == Emit(AsMeant, o, e)
    ensures !LevelAt(start, es, e) ==> !AtEnd(Emit(AsWritten, o, e))
  {
    assert (es + [e])[..|es|] == es;
    PutAtEnd(o.log, Label(VOL_DATA, e.data.stamp));
    var o1 := PutLabel(o, e.data.stamp);
    assert o1.log.data == LogBefore(es, e.data.stamp);
    PutAtEnd(o1.log, e.data.bytes);
  }

  lemma StartSound(start: Stamp)
    ensures Sound(Start(start), start, [])
  {
    PutAtEnd(File([], 0), Label(VOL_META, start));
    assert [] + Label(VOL_META, start) == Label(VOL_META, start);
  }

  /** With the metadata stream put back where it was, the three files are right after any run. */
  lemma {:induction false} MeantIsSound(start: Stamp, es: seq<Event>)
    ensures Sound(Run(AsMeant, start, es), start, es)
  {
    if es == [] {
      StartSound(start);
    } else {
      var es', e := es[..|es| - 1], es[|es| - 1];
      MeantIsSound(start, es');
      assert es == es' + [e];
      if e.M? {
        StepMeta(AsMeant, Run(AsMeant, start, es'), start, es', e);
      } else {
        StepData(AsMeant, Run(AsMeant, start, es'), start, es', e);
      }
    }
  }

  lemma {:induction false} WrittenIsSound(start: Stamp, es: seq<Event>)
    requires Level(start, es)
    ensures Sound(Run(AsWritten, start, es), start, es)
  {
    if es == [] {
      StartSound(start);
    } else {
      var es', e := es[..|es| - 1], es[|es| - 1];
      assert forall i :: 0 <= i < |es'| ==> es[..i] == es'[..i];
      WrittenIsSound(start, es');
      assert es == es' + [e] && LevelAt(start, es', e);
      if e.M? {
        StepMeta(AsWritten, Run(AsWritten, start, es'), start, es', e);
      } else {
        StepData(AsWritten, Run(AsWritten, start, es'), start, es', e);
      }
    }
  }

  predicate AlwaysAtEnd(start: Stamp, es: seq<Event>) {
    forall n :: 0 <= n <= |es| ==> AtEnd(Run(AsWritten, start, es[..n]))
  }

  lemma LastAtEnd(start: Stamp, es: seq<Event>, e: Event)
    requires Level(start, es)
    ensures AtEnd(Run(AsWritten, start, es + [e])) <==> LevelAt(start, es, e)
  {
    WrittenIsSound(start, es);
    assert (es + [e])[..|es|] == es;
    if e.M? {
      StepMeta(AsWritten, Run(AsWritten, start, es), start, es, e);
    } else {
      StepData(AsWritten, Run(AsWritten, start, es), start, es, e);
    }
  }

  lemma LevelSnoc(start: Stamp, es: seq<Event>, e: Event)
    ensures Level(start, es + [e]) <==> Level(start, es) && LevelAt(start, es, e)
  {
    var all := es + [e];
    assert all[..|es|] == es && all[|es|] == e;
    assert forall i :: 0 <= i < |es| ==> all[..i] == es[..i] && all[i] == es[i];
  }

  lemma AlwaysAtEndSnoc(start: Stamp, es: seq<Event>, e: Event)
    ensures AlwaysAtEnd(start, es + [e]) <==> AlwaysAtEnd(start, es) && AtEnd(Run(AsWritten, start, es + [e]))
  {
    var all := es + [e];
    assert all[..|all|] == all;
    assert forall n :: 0 <= n <= |es| ==> all[..n] == es[..n];
  }

  /**
   The code puts the metadata stream at the offset of the data stream.  The streams stay at the
   ends of their files throughout exactly when the two files are equally long at every entry.
   */
  lemma {:induction false} AtEndIffLevel(start: Stamp, es: seq<Event>)
    ensures Level(start, es) <==> AlwaysAtEnd(start, es)
  {
    if es == [] {
      StartSound(start);
      assert es[..0] == [];
    } else {
      var es', e := es[..|es| - 1], es[|es| - 1];
      assert es == es' + [e];
      AtEndIffLevel(start, es');
      LevelSnoc(start, es', e);
      AlwaysAtEndSnoc(start, es', e);
      if Level(start, es') {
        LastAtEnd(start, es', e);
      }
    }
  }

  /** The two ways of restoring differ in the metadata stream and the metadata offsets of the index only. */
  predicate AgreeElsewhere(a: Out, b: Out) {
    && a.log == b.log && a.tiLabel == b.tiLabel && a.needti == b.needti && a.start == b.start && |a.ti| == |b.ti|
    && forall k :: 0 <= k < |a.ti| ==> a.ti[k].stamp == b.ti[k].stamp && a.ti[k].log == b.ti[k].log
  }

  /**
   Whatever becomes of the metadata, after every run the code as it stands has the data volume,
   the label time, and the times and data offsets of the index right.
   */
  lemma {:induction false} WrittenAgreesElsewhere(start: Stamp, es: seq<Event>)
    ensures AgreeElsewhere(Run(AsWritten, start, es), Run(AsMeant, start, es))
  {
    if es != [] {
      WrittenAgreesElsewhere(start, es[..|es| - 1]);
    }
  }

  /**
   Metadata written after the first data record lands as many bytes beyond the end of its file as
   that record is long.
   */
  lemma MisplacedMetadata(start: Stamp, d: Data, m: Meta)
    requires d.bytes != []
    ensures Run(AsWritten, start, [D(d), M(m)]).meta.data
         == Label(VOL_META, start) + seq(|d.bytes|, _ => 0) + m.bytes
    ensures Run(AsMeant, start, [D(d), M(m)]).meta.data == Label(VOL_META, start) + m.bytes
  {
    var es := [D(d), M(m)];
    assert es[..1] == [D(d)] && es[..1][..0] == [];
    StartSound(start);
    MeantIsSound(start, []);
    assert Run(AsWritten, start, []) == Start(start);
    StepData(AsWritten, Start(start), start, [], D(d));
    assert [] + [D(d)] == es[..1];
    MeantIsSound(start, es);
    var o := Run(AsWritten, start, es[..1]);
    assert o.meta.data == Label(VOL_META, start) && o.meta.pos == LABEL_SIZE + |d.bytes|;
  }

  /** The closing rewrite gives both labels the time of the first data record and changes nothing else. */
  lemma {:induction false} FinalMetadata(start: Stamp, es: seq<Event>, o: Out)
    requires Sound(o, start, es)
    ensures Finish(o).meta.data == MetaImage(FirstTime(start, es), es)
    ensures Finish(o).tiLabel == Label(VOL_TI, FirstTime(start, es))
    ensures Finish(o).(meta := o.meta, tiLabel := o.tiLabel) == o
  {
    Relabel(start, FirstTime(start, es), es);
  }

  lemma {:induction false} Relabel(s: Stamp, t: Stamp, es: seq<Event>)
    ensures LABEL_SIZE <= |MetaImage(s, es)|
    ensures MetaImage(t, es) == Label(VOL_META, t) + MetaImage(s, es)[LABEL_SIZE..]
  {
    if es != [] {
      Relabel(s, t, es[..|es| - 1]);
    }
  }

  // ---------- what the index means ----------

  /** Entry x was made for the data record es[i]. */
  predicate MadeFor(start: Stamp, es: seq<Event>, x: Entry, i: int) {
    && 0 <= i < |es| && es[i].D? && Due(es[..i])
    && x == Entry(es[i].data.stamp, |MetaImage(start, es[..i])|, |LogBefore(es[..i], es[i].data.stamp)|)
  }

  /** There is an entry for a record exactly when one is due, and no other entry. */
  lemma {:induction false} IndexIsExact(start: Stamp, es: seq<Event>, x: Entry)
    ensures x in Index(start, es) <==> exists i :: MadeFor(start, es, x, i)
  {
    if es != [] {
      var n := |es| - 1;
      var es' := es[..n];
      IndexIsExact(start, es', x);
      assert forall i :: 0 <= i < n ==> es[..i] == es'[..i] && es[i] == es'[i];
      assert forall i :: i < n ==> (MadeFor(start, es, x, i) <==> MadeFor(start, es', x, i));
      if MadeFor(start, es, x, n) {
        assert x in Index(start, es);
      }
    }
  }

  /** The offsets of an entry lead to its record and to the end of the metadata written before it. */
  lemma {:induction false} EntryLeadsToRecord(start: Stamp, es: seq<Event>, x: Entry, i: nat)
    requires MadeFor(start, es, x, i)
    ensures x.log + |es[i].data.bytes| <= |LogImage(es)|
    ensures LogImage(es)[x.log..x.log + |es[i].data.bytes|] == es[i].data.bytes
    ensures x.meta <= |MetaImage(start, es)|
    ensures MetaImage(start, es)[..x.meta] == MetaImage(start, es[..i])
  {
    var n := |es| - 1;
    var es' := es[..n];
    if i < n {
      assert es[..i] == es'[..i] && es[i] == es'[i];
      EntryLeadsToRecord(start, es', x, i);
      assert LogImage(es') <= LogImage(es);
    }
  }

  predicate DataInOrder(es: seq<Event>) {
    forall i, j :: 0 <= i < j < |es| && es[i].D? && es[j].D? ==> Leq(es[i].data.stamp, es[j].data.stamp)
  }

  /** The entries are in time order when the data records are. */
  lemma {:induction false} IndexInOrder(start: Stamp, es: seq<Event>)
    requires DataInOrder(es)
    ensures forall k, l :: 0 <= k < l < |Index(start, es)| ==>
              Leq(Index(start, es)[k].stamp, Index(start, es)[l].stamp)
  {
    if es != [] {
      var n := |es| - 1;
      var es' := es[..n];
      IndexInOrder(start, es');
      forall x | x in Index(start, es')
        ensures exists i :: 0 <= i < n && es[i].D? && x.stamp == es[i].data.stamp
      {
        IndexIsExact(start, es', x);
      }
    }
  }

  /**
   For a time-ordered archive: the metadata in front of an entry's offset holds the instance
   domains up to the entry's time and no later one.
   */
  lemma EntrySeparatesMetadata(start: Stamp, log: seq<Data>, meta: seq<Meta>, x: Entry)
    requires SortedLog(log) && SortedMeta(meta)
    requires x in Index(start, Plan(log, meta, ZERO))
    ensures exists i ::
      && MadeFor(start, Plan(log, meta, ZERO), x, i)
      && Metas(Plan(log, meta, ZERO)[..i]) <= meta
      && forall k :: 0 <= k < |meta| && meta[k].InDom? ==>
           (k < |Metas(Plan(log, meta, ZERO)[..i])| <==> Leq(meta[k].stamp, x.stamp))
  {
    var es := Plan(log, meta, ZERO);
    IndexIsExact(start, es, x);
    var i :| MadeFor(start, es, x, i);
    MetadataIsUpToDate(log, meta, ZERO, i);
    forall k | 0 <= k < |meta| && meta[k].InDom?
      ensures k < |Metas(es[..i])| <==> Leq(meta[k].stamp, x.stamp)
    {
      ExactlyTheEarlierInDoms(log, meta, ZERO, i, k);
    }
  }
}
