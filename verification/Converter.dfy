/**
 The archive converter itself (qa/pmlogconv/pmlogconv.c): nextrec and the main loop over their
 global state, proved against the merge plan and the output model.
 */
module Converter {
  import opened Basics
  import opened Merge
  import opened ArchiveOutput
  import opened DataRecords

  datatype Status = Fine | EndOfLog | Exit

  lemma {:induction false} PlanWithoutMeta(log: seq<Data>, cur: Stamp)
    ensures |Plan(log, [], cur)| == |log|
  {
    if log != [] {
      PlanWithoutMeta(log[1..], log[0].stamp);
    }
  }

  predicate IsDesc(e: Event, pmid: int) {
    e.M? && e.meta.Desc? && e.meta.pmid == pmid
  }

  predicate DescsDiffer(es: seq<Event>) {
    forall i, j :: 0 <= i < j < |es| && es[i].M? && es[i].meta.Desc? ==> !IsDesc(es[j], es[i].meta.pmid)
  }

  /** The event a choice leads to, and the records left behind it. */
  function Chosen(log: seq<Data>, meta: seq<Meta>, cur: Stamp): Event
    requires Choose(log, meta, cur) != Nothing
  {
    if Choose(log, meta, cur) == PickData then D(log[0]) else M(meta[0])
  }

  /** Taking the chosen record away leaves the rest of the plan. */
  lemma PlanStep(log: seq<Data>, meta: seq<Meta>, cur: Stamp, log': seq<Data>, meta': seq<Meta>)
    requires Choose(log, meta, cur) != Nothing
    requires var e := Chosen(log, meta, cur);
      && log == (if e.D? then [e.data] else []) + log'
      && meta == (if e.M? then [e.meta] else []) + meta'
    ensures Plan(log, meta, cur) == [Chosen(log, meta, cur)] + Plan(log', meta', NewCurrent(log, meta, cur))
    ensures |log| + |meta| == 1 + |log'| + |meta'|
  {
    if Chosen(log, meta, cur).D? {
      assert log[1..] == log' && meta == meta';
    } else {
      assert log == log' && meta[1..] == meta';
    }
  }

  /** The events written, the records left and the descriptors seen, part way through a conversion. */
  ghost predicate Midway(all: seq<Event>, total: nat, events: seq<Event>,
                         log: seq<Data>, meta: seq<Meta>, cur: Stamp, done: set<int>) {
    && all == events + Plan(log, meta, cur)
    && total == |events| + |log| + |meta|
    && DescsDiffer(events)
    && forall p :: p in done <==> exists i :: 0 <= i < |events| && IsDesc(events[i], p)
  }

  lemma Onwards(all: seq<Event>, total: nat, events: seq<Event>,
                log: seq<Data>, meta: seq<Meta>, cur: Stamp, done: set<int>,
                e: Event, log': seq<Data>, meta': seq<Meta>, cur': Stamp, done': set<int>)
    requires Midway(all, total, events, log, meta, cur, done)
    requires Plan(log, meta, cur) == [e] + Plan(log', meta', cur')
    requires |log| + |meta| == 1 + |log'| + |meta'|
    requires forall p :: p in done' <==> p in done || IsDesc(e, p)
    requires forall p :: IsDesc(e, p) ==> p !in done
    ensures Midway(all, total, events + [e], log', meta', cur', done')
  {
    var es := events + [e];
    assert events + ([e] + Plan(log', meta', cur')) == es + Plan(log', meta', cur');
    assert forall i :: 0 <= i < |events| ==> es[i] == events[i];
    forall p ensures p in done' <==> exists i :: 0 <= i < |es| && IsDesc(es[i], p) {
      if IsDesc(e, p) {
        assert IsDesc(es[|events|], p);
      }
      if p in done {
        var i :| 0 <= i < |events| && IsDesc(events[i], p);
        assert IsDesc(es[i], p);
      }
    }
    forall i, j | 0 <= i < j < |es| && es[i].M? && es[i].meta.Desc?
      ensures !IsDesc(es[j], es[i].meta.pmid)
    {
      assert IsDesc(events[i], es[i].meta.pmid);
    }
  }

  /** Why the conversion stops early. */
  lemma ExitReason(all: seq<Event>, total: nat, events: seq<Event>,
                   log: seq<Data>, meta: seq<Meta>, cur: Stamp, done: set<int>)
    requires Midway(all, total, events, log, meta, cur, done)
    ensures meta == [] ==> |all| == total
    ensures meta != [] && meta[0].Desc? && meta[0].pmid in done ==> !DescsDiffer(all)
  {
    if meta == [] {
      PlanWithoutMeta(log, cur);
    } else if meta[0].Desc? && meta[0].pmid in done {
      var i :| 0 <= i < |events| && IsDesc(events[i], meta[0].pmid);
      assert all[i] == events[i];
      assert IsDesc(all[|events|], all[i].meta.pmid);
    }
  }

  /**
   The converter's state over records of any kind: `written` gives the data record that a record
   read is written as.
   */
  class Archives<R> {
    const written: R -> Data
    // the input archive: records not read yet, and whether reading on after them is an error
    var log: seq<R>
    var meta: seq<Meta>
    const logBad: bool
    const metaBad: bool
    // inarch
    var pbLog: Option<R>
    var pbMeta: Option<Meta>
    var eofLog: bool
    var eofMeta: bool
    var pickLog: bool
    var pickMeta: Pick
    var current: Stamp
    var pmidDone: set<int>
    // logctl
    var mfp: File
    var mdfp: File
    var tiLabel: Bytes
    var ti: seq<Entry>
    var needti: bool
    var start: Stamp

    ghost function Raws(): seq<R> reads this {
      if pbLog.Some? then [pbLog.value] + log else log
    }

    /** The data records still to be written, as they will be written. */
    ghost function LogRest(): seq<Data> reads this { AllWritten(written, Raws()) }

    ghost function MetaRest(): seq<Meta> reads this {
      if pbMeta.Some? then [pbMeta.value] + meta else meta
    }

    ghost function Output(): Out reads this {
      Out(mfp, mdfp, tiLabel, ti, needti, start)
    }

    ghost predicate Valid() reads this {
      && (eofLog ==> LogRest() == [] && !logBad)
      && (eofMeta ==> MetaRest() == [] && !metaBad)
    }

    /** Reading on fails, or a descriptor comes a second time. */
    ghost predicate Stuck(log: seq<Data>, meta: seq<Meta>, done: set<int>) {
      (meta == [] && metaBad) || (log == [] && logBad) || (meta != [] && meta[0].Desc? && meta[0].pmid in done)
    }

    ghost predicate Idle() reads this {
      Valid() && !pickLog && pickMeta == Nothing
    }

    constructor (written: R -> Data, log: seq<R>, logBad: bool, meta: seq<Meta>, metaBad: bool, start: Stamp)
      ensures Idle() && LogRest() == AllWritten(written, log) && MetaRest() == meta
      ensures this.written == written && this.logBad == logBad && this.metaBad == metaBad
      ensures current == ZERO && pmidDone == {} && Output() == Start(start)
    {
      this.written := written;
      this.log, this.logBad, this.meta, this.metaBad := log, logBad, meta, metaBad;
      pbLog, pbMeta, eofLog, eofMeta, pickLog, pickMeta := None, None, false, false, false, Nothing;
      current, pmidDone := ZERO, {};
      mfp, mdfp, ti, needti := File([], 0), Append(File([], 0), Label(VOL_META, start)), [], false;
      tiLabel := Label(VOL_TI, start);
      this.start := start;
    }

    /** Fill the two buffers; false stands for a read error. */
    method Refill() returns (ok: bool)
      requires Idle()
      modifies this`pbMeta, this`meta, this`eofMeta, this`pbLog, this`log, this`eofLog
      ensures ok <==> !(MetaRest() == [] && metaBad) && !(LogRest() == [] && logBad)
      ensures MetaRest() == old(MetaRest()) && LogRest() == old(LogRest())
      ensures ok ==> Idle() && eofMeta == !pbMeta.Some? && eofLog == !pbLog.Some?
    {
      if !eofMeta && pbMeta.None? {
        if meta != [] {
          pbMeta, meta := Some(meta[0]), meta[1..];
        } else {
          eofMeta := true;
          if metaBad {
            return false;
          }
        }
      }
      if !eofLog && pbLog.None? {
        if log != [] {
          pbLog, log := Some(log[0]), log[1..];
        } else {
          eofLog := true;
          if logBad {
            return false;
          }
        }
      }
      return true;
    }

    /** nextrec: decide which record to write next. */
    method NextRec() returns (sts: Status)
      requires Idle()
      modifies this`pbMeta, this`meta, this`eofMeta, this`pbLog, this`log, this`eofLog,
               this`pickLog, this`pickMeta, this`current, this`pmidDone
      ensures MetaRest() == old(MetaRest()) && LogRest() == old(LogRest())
      ensures sts == Exit <==> Stuck(LogRest(), MetaRest(), old(pmidDone))
      ensures sts != Exit ==>
        && Valid() && eofMeta == !pbMeta.Some? && eofLog == !pbLog.Some?
        && var c := Choose(LogRest(), MetaRest(), old(current));
        && (sts == EndOfLog <==> c == Nothing)
        && pickLog == (c == PickData)
        && pickMeta == (if c == PickData then Nothing else c)
        && current == NewCurrent(LogRest(), MetaRest(), old(current))
        && pmidDone == old(pmidDone) + (if c == PickDesc then {MetaRest()[0].pmid} else {})
    {
      var ok := Refill();
      if !ok {
        return Exit;
      }
      sts := EndOfLog;
      if !eofMeta && pbMeta.value.Desc? {
        if pbMeta.value.pmid in pmidDone {
          return Exit;
        }
        pmidDone := pmidDone + {pbMeta.value.pmid};
        pickMeta := PickDesc;
        return Fine;
      }
      if !eofLog {
        pickLog := true;
        sts := Fine;
        current := written(pbLog.value).stamp;
      }
      if !eofMeta && Leq(pbMeta.value.stamp, current) {
        pickLog := false;
        pickMeta := PickInDom;
        sts := Fine;
        current := pbMeta.value.stamp;
      }
    }

    /** Add an index entry with the given offsets and put the streams back. */
    method AddIndex(oldLog: nat, oldMeta: nat)
      modifies this`mfp, this`mdfp, this`ti, this`needti
      ensures Output() == PutIndex(AsWritten, old(Output()), current, oldLog, oldMeta)
    {
      var newLog := mfp.pos;
      mfp, mdfp := mfp.(pos := oldLog), mdfp.(pos := oldMeta);
      ti := ti + [Entry(current, mdfp.pos, mfp.pos)];
      mfp := mfp.(pos := newLog);
      mdfp := mdfp.(pos := newLog);
      needti := false;
    }

    /** Write a data record, the label and an index entry in front of it where they are due. */
    method PutData(d: Data)
      requires current == d.stamp
      modifies this`mfp, this`mdfp, this`ti, this`needti, this`start
      ensures Output() == Emit(AsWritten, old(Output()), D(d))
    {
      var oldLog, oldMeta := mfp.pos, mdfp.pos;
      if oldLog == 0 {
        start := current;
        mfp := Append(mfp, Label(VOL_DATA, start));
        oldLog := mfp.pos;
        needti := true;
      }
      assert Output() == PutLabel(old(Output()), current) && oldLog == mfp.pos;
      mfp := Append(mfp, d.bytes);
      if needti {
        AddIndex(oldLog, oldMeta);
      }
    }

    method WriteData()
      requires Valid() && pickLog && pbLog.Some?
      requires current == written(pbLog.value).stamp
      modifies this`pbLog, this`pickLog, this`mfp, this`mdfp, this`ti, this`needti, this`start
      ensures Valid() && !pickLog
      ensures old(LogRest()) == [written(old(pbLog.value))] + LogRest() && MetaRest() == old(MetaRest())
      ensures Output() == Emit(AsWritten, old(Output()), D(written(old(pbLog.value))))
    {
      PutData(written(pbLog.value));
      pbLog, pickLog := None, false;
    }

    method WriteMeta()
      requires Valid() && pbMeta.Some?
      requires pickMeta == if pbMeta.value.Desc? then PickDesc else PickInDom
      modifies this`pbMeta, this`pickMeta, this`mdfp, this`needti
      ensures Valid() && pickMeta == Nothing
      ensures old(MetaRest()) == [old(pbMeta.value)] + MetaRest() && LogRest() == old(LogRest())
      ensures Output() == Emit(AsWritten, old(Output()), M(old(pbMeta.value)))
    {
      mdfp := Append(mdfp, pbMeta.value.bytes);
      if pickMeta != PickDesc {
        needti := true;
      }
      pbMeta, pickMeta := None, Nothing;
    }

    ghost predicate Picked(e: Event) reads this {
      && Valid() && pickLog == e.D?
      && (e.D? ==> pbLog.Some? && e.data == written(pbLog.value) && current == e.data.stamp && pickMeta == Nothing)
      && (e.M? ==> pbMeta.Some? && e.meta == pbMeta.value && pickMeta == if e.meta.Desc? then PickDesc else PickInDom)
    }

    /** nextrec, and the event it leads to. */
    method PickNext() returns (sts: Status, ghost e: Event)
      requires Idle()
      modifies this`pbMeta, this`meta, this`eofMeta, this`pbLog, this`log, this`eofLog,
               this`pickLog, this`pickMeta, this`current, this`pmidDone
      ensures MetaRest() == old(MetaRest()) && LogRest() == old(LogRest())
      ensures sts == Exit <==> Stuck(old(LogRest()), old(MetaRest()), old(pmidDone))
      ensures sts == EndOfLog ==> Choose(LogRest(), MetaRest(), old(current)) == Nothing
      ensures sts == Fine ==>
        && Choose(LogRest(), MetaRest(), old(current)) != Nothing
        && e == Chosen(LogRest(), MetaRest(), old(current)) && Picked(e)
        && current == NewCurrent(LogRest(), MetaRest(), old(current))
        && (forall p :: p in pmidDone <==> p in old(pmidDone) || IsDesc(e, p))
        && (forall p :: IsDesc(e, p) ==> p !in old(pmidDone))
    {
      sts := NextRec();
      e := D(Data(ZERO, []));
      if sts == Fine {
        e := Chosen(LogRest(), MetaRest(), old(current));
      }
    }

    method WritePicked(ghost e: Event)
      requires Picked(e)
      modifies this`pbLog, this`pbMeta, this`pickLog, this`pickMeta, this`mfp, this`mdfp, this`ti, this`needti, this`start
      ensures Idle() && Output() == Emit(AsWritten, old(Output()), e)
      ensures old(LogRest()) == (if e.D? then [e.data] else []) + LogRest()
      ensures old(MetaRest()) == (if e.M? then [e.meta] else []) + MetaRest()
    {
      if pickLog {
        WriteData();
      }
      if pickMeta != Nothing {
        WriteMeta();
      }
    }

    /** One pass through the main loop: pick a record and write it. */
    method Step(ghost first: Stamp, ghost events: seq<Event>) returns (sts: Status, ghost e: Event)
      requires Idle() && Output() == Run(AsWritten, first, events)
      modifies this
      ensures sts == Exit <==> Stuck(old(LogRest()), old(MetaRest()), old(pmidDone))
      ensures sts == EndOfLog ==> Plan(old(LogRest()), old(MetaRest()), old(current)) == []
      ensures sts != Fine ==> Output() == old(Output())
      ensures sts == Fine ==>
        && Idle() && Output() == Run(AsWritten, first, events + [e])
        && Plan(old(LogRest()), old(MetaRest()), old(current)) == [e] + Plan(LogRest(), MetaRest(), current)
        && |old(LogRest())| + |old(MetaRest())| == 1 + |LogRest()| + |MetaRest()|
        && (forall p :: p in pmidDone <==> p in old(pmidDone) || IsDesc(e, p))
        && (forall p :: IsDesc(e, p) ==> p !in old(pmidDone))
    {
      ghost var log, meta := LogRest(), MetaRest();
      sts, e := PickNext();
      if sts == Fine {
        WritePicked(e);
        PlanStep(log, meta, old(current), LogRest(), MetaRest());
        assert (events + [e])[..|events|] == events;
      }
    }

    ghost predicate Going(first: Stamp, all: seq<Event>, total: nat, events: seq<Event>) reads this {
      && Idle()
      && Midway(all, total, events, LogRest(), MetaRest(), current, pmidDone)
      && Output() == Run(AsWritten, first, events)
    }

    /** The same pass, seen from the whole conversion. */
    method Pass(ghost first: Stamp, ghost all: seq<Event>, ghost total: nat, ghost events: seq<Event>)
      returns (sts: Status, ghost events': seq<Event>)
      requires Going(first, all, total, events)
      modifies this
      ensures events' <= all && Output() == Run(AsWritten, first, events')
      ensures sts == Fine ==>
        Going(first, all, total, events') && |LogRest()| + |MetaRest()| < old(|LogRest()| + |MetaRest()|)
      ensures sts == EndOfLog ==> events' == all && DescsDiffer(all) && !logBad && !(metaBad && |all| == total)
      ensures sts == Exit ==> logBad || (metaBad && |all| == total) || !DescsDiffer(all)
    {
      ghost var logRest, metaRest, cur, done := LogRest(), MetaRest(), current, pmidDone;
      ExitReason(all, total, events, logRest, metaRest, cur, done);
      ghost var e;
      sts, e := Step(first, events);
      events' := events;
      if sts == Fine {
        Onwards(all, total, events, logRest, metaRest, cur, done, e, LogRest(), MetaRest(), current, pmidDone);
        events' := events + [e];
      }
    }

    /** The main loop. */
    method Loop(ghost first: Stamp, ghost all: seq<Event>, ghost total: nat) returns (ok: bool, ghost events: seq<Event>)
      requires Going(first, all, total, [])
      modifies this
      ensures events <= all && Output() == Run(AsWritten, first, events)
      ensures ok <==> !logBad && !(metaBad && |all| == total) && DescsDiffer(all)
      ensures ok ==> events == all
    {
      events := [];
      var sts: Status := Fine;
      while sts == Fine
        invariant events <= all && Output() == Run(AsWritten, first, events)
        invariant sts == Fine ==> Going(first, all, total, events)
        invariant sts == EndOfLog ==> events == all && DescsDiffer(all) && !logBad && !(metaBad && |all| == total)
        invariant sts == Exit ==> logBad || (metaBad && |all| == total) || !DescsDiffer(all)
        decreases if sts == Fine then 1 + |LogRest()| + |MetaRest()| else 0
      {
        sts, events := Pass(first, all, total, events);
      }
      ok := sts == EndOfLog;
    }

    /** Rewrite the labels of the metadata and the index with the time of the first data record. */
    method Close()
      modifies this`mdfp, this`tiLabel
      ensures Output() == Finish(old(Output()))
    {
      mdfp := Append(mdfp.(pos := 0), Label(VOL_META, start));
      tiLabel := Label(VOL_TI, start);
    }

    /**
     The whole conversion.  It succeeds exactly when no read error is met and no descriptor is
     written twice, and then everything planned has been written; otherwise a prefix has.
     */
    method Convert(ghost first: Stamp) returns (ok: bool, ghost events: seq<Event>)
      requires Idle() && current == ZERO && pmidDone == {} && Output() == Start(first)
      modifies this
      ensures events <= Plan(old(LogRest()), old(MetaRest()), ZERO)
      ensures ok <==>
        && !logBad
        && !(metaBad && |Plan(old(LogRest()), old(MetaRest()), ZERO)| == |old(LogRest())| + |old(MetaRest())|)
        && DescsDiffer(Plan(old(LogRest()), old(MetaRest()), ZERO))
      ensures ok ==> events == Plan(old(LogRest()), old(MetaRest()), ZERO)
      ensures Output() == if ok then Finish(Run(AsWritten, first, events)) else Run(AsWritten, first, events)
    {
      ghost var all := Plan(LogRest(), MetaRest(), ZERO);
      ghost var total := |LogRest()| + |MetaRest()|;
      assert Midway(all, total, [], LogRest(), MetaRest(), current, pmidDone);
      ok, events := Loop(first, all, total);
      if ok {
        Close();
      }
    }
  }

  lemma DataVolumeReads(first: Stamp, rs: seq<Record>, meta: seq<Meta>)
    requires rs != [] && AllProper(rs)
    ensures ReadsAs(Finish(Run(AsWritten, first, Plan(AllConverted(rs), meta, ZERO))).log.data, AllConverted(rs))
  {
    var es := Plan(AllConverted(rs), meta, ZERO);
    NothingLostOrInvented(AllConverted(rs), meta, ZERO);
    WrittenVolumeReads(rs, es);
    WrittenAgreesElsewhere(first, es);
    MeantIsSound(first, es);
  }

  /**
   The conversion of an archive.  Whenever it succeeds, the data volume it has written reads back
   as the rewritten data records, all of them and in order.
   */
  method ConvertArchive(log: seq<Record>, logBad: bool, meta: seq<MetaRecord>, metaBad: bool,
                        described: MetaRecord -> Bytes, first: Stamp)
    returns (ok: bool, out: Archives<Record>)
    ensures var plan := Plan(AllConverted(log), AllMeta(described, meta), ZERO);
      && (ok <==> !logBad && !(metaBad && |plan| == |log| + |meta|) && DescsDiffer(plan))
      && (ok ==> out.Output() == Finish(Run(AsWritten, first, plan)))
    ensures ok && log != [] && AllProper(log) ==> ReadsAs(out.mfp.data, AllConverted(log))
  {
    var metas := AllMeta(described, meta);
    out := new Archives(Converted, log, logBad, metas, metaBad, first);
    ghost var events;
    ok, events := out.Convert(first);
    if log != [] && AllProper(log) {
      DataVolumeReads(first, log, metas);
    }
  }
}
