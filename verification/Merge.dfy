/**
 The order in which pmlogconv (qa/pmlogconv/pmlogconv.c) writes the records of an archive: the
 choice made by nextrec, and what follows for a whole conversion.
 */
module Merge {
  import opened Basics

  /** A timestamp; nextrec compares the two words as unsigned numbers. */
  datatype Stamp = Stamp(sec: nat, usec: nat)

  const ZERO: Stamp := Stamp(0, 0)

  predicate Leq(a: Stamp, b: Stamp) {
    a.sec < b.sec || (a.sec == b.sec && a.usec <= b.usec)
  }

  /** `bytes` is what is written to the output archive for the record. */
  datatype Data = Data(stamp: Stamp, bytes: Bytes)

  /** Every metadata record that is not a descriptor is treated as an instance domain. */
  datatype Meta = Desc(pmid: int, bytes: Bytes) | InDom(stamp: Stamp, bytes: Bytes)

  datatype Event = D(data: Data) | M(meta: Meta)

  /** What nextrec picks, with the unread records in front of it; None is PM_ERR_EOL. */
  datatype Pick = PickDesc | PickInDom | PickData | Nothing

  function Choose(log: seq<Data>, meta: seq<Meta>, cur: Stamp): Pick {
    if meta != [] && meta[0].Desc? then PickDesc
    else if meta != [] && Leq(meta[0].stamp, if log != [] then log[0].stamp else cur) then PickInDom
    else if log != [] then PickData
    else Nothing
  }

  /** The value nextrec leaves in `current`. */
  function NewCurrent(log: seq<Data>, meta: seq<Meta>, cur: Stamp): Stamp {
    match Choose(log, meta, cur)
    case PickInDom => meta[0].stamp
    case PickData => log[0].stamp
    case _ => cur
  }

  /** Everything a conversion writes, in order. */
  function Plan(log: seq<Data>, meta: seq<Meta>, cur: Stamp): seq<Event>
    decreases |log| + |meta|
  {
    var cur' := NewCurrent(log, meta, cur);
    match Choose(log, meta, cur)
    case PickDesc => [M(meta[0])] + Plan(log, meta[1..], cur')
    case PickInDom => [M(meta[0])] + Plan(log, meta[1..], cur')
    case PickData => [D(log[0])] + Plan(log[1..], meta, cur')
    case Nothing => []
  }

  function Datas(es: seq<Event>): seq<Data> {
    if es == [] then [] else (if es[0].D? then [es[0].data] else []) + Datas(es[1..])
  }

  function Metas(es: seq<Event>): seq<Meta> {
    if es == [] then [] else (if es[0].M? then [es[0].meta] else []) + Metas(es[1..])
  }

  // ---------- conservation ----------

  /** Every data record is written once, in order; the metadata written is a prefix of the input. */
  lemma {:induction false} NothingLostOrInvented(log: seq<Data>, meta: seq<Meta>, cur: Stamp)
    ensures Datas(Plan(log, meta, cur)) == log
    ensures Metas(Plan(log, meta, cur)) <= meta
    decreases |log| + |meta|
  {
    match Choose(log, meta, cur)
    case PickData =>
      NothingLostOrInvented(log[1..], meta, log[0].stamp);
      assert log == [log[0]] + log[1..];
    case Nothing =>
    case _ =>
      NothingLostOrInvented(log, meta[1..], NewCurrent(log, meta, cur));
      assert meta == [meta[0]] + meta[1..];
  }

  /** Unread metadata is exhausted, or starts with an instance domain later than t. */
  predicate Behind(meta: seq<Meta>, t: Stamp) {
    meta == [] || (meta[0].InDom? && !Leq(meta[0].stamp, t))
  }

  /**
   When data stamped t is written, the metadata still unread is exhausted or starts with an
   instance domain later than t, whatever the order of the input.
   */
  lemma {:induction false} MetadataIsUpToDate(log: seq<Data>, meta: seq<Meta>, cur: Stamp, i: nat)
    requires i < |Plan(log, meta, cur)| && Plan(log, meta, cur)[i].D?
    ensures Metas(Plan(log, meta, cur)[..i]) <= meta
    ensures Behind(meta[|Metas(Plan(log, meta, cur)[..i])|..], Plan(log, meta, cur)[i].data.stamp)
    decreases i
  {
    var p := Plan(log, meta, cur);
    if i > 0 {
      assert p[..i][1..] == p[1..][..i - 1];
      if p[0].D? {
        MetadataIsUpToDate(log[1..], meta, NewCurrent(log, meta, cur), i - 1);
      } else {
        MetadataIsUpToDate(log, meta[1..], NewCurrent(log, meta, cur), i - 1);
        assert meta == [meta[0]] + meta[1..];
      }
    }
  }

  // ---------- order ----------

  predicate SortedLog(log: seq<Data>) {
    forall i, j :: 0 <= i < j < |log| ==> Leq(log[i].stamp, log[j].stamp)
  }

  predicate SortedMeta(meta: seq<Meta>) {
    forall i, j :: 0 <= i < j < |meta| && meta[i].InDom? && meta[j].InDom? ==>
      Leq(meta[i].stamp, meta[j].stamp)
  }

  predicate Stamped(e: Event) {
    e.D? || e.meta.InDom?
  }

  function Time(e: Event): Stamp
    requires Stamped(e)
  {
    if e.D? then e.data.stamp else e.meta.stamp
  }

  lemma {:induction false} FromTheInput(log: seq<Data>, meta: seq<Meta>, cur: Stamp, i: nat)
    requires i < |Plan(log, meta, cur)|
    ensures match Plan(log, meta, cur)[i]
            case D(d) => d in log
            case M(m) => m in meta
    decreases i
  {
    if i > 0 {
      if Plan(log, meta, cur)[0].D? {
        FromTheInput(log[1..], meta, NewCurrent(log, meta, cur), i - 1);
      } else {
        FromTheInput(log, meta[1..], NewCurrent(log, meta, cur), i - 1);
      }
    }
  }

  /** The timestamp of the last stamped record written, as left in `current`. */
  function LastTime(es: seq<Event>, cur: Stamp): Stamp {
    if es == [] then cur else LastTime(es[1..], if Stamped(es[0]) then Time(es[0]) else cur)
  }

  /** What is left unread is nothing, or starts with an instance domain later than all that was written last. */
  lemma {:induction false} LeftoverIsLater(log: seq<Data>, meta: seq<Meta>, cur: Stamp)
    ensures Metas(Plan(log, meta, cur)) <= meta
    ensures Behind(meta[|Metas(Plan(log, meta, cur))|..], LastTime(Plan(log, meta, cur), cur))
    decreases |log| + |meta|
  {
    var cur' := NewCurrent(log, meta, cur);
    if Choose(log, meta, cur) == PickData {
      LeftoverIsLater(log[1..], meta, cur');
    } else if Choose(log, meta, cur) != Nothing {
      LeftoverIsLater(log, meta[1..], cur');
      assert meta == [meta[0]] + meta[1..];
    }
  }

  /**
   A time-ordered archive comes out in time order, and where an instance domain and a data record
   carry the same timestamp the instance domain comes first.
   */
  lemma {:induction false} TimeOrder(log: seq<Data>, meta: seq<Meta>, cur: Stamp, i: nat, j: nat)
    requires SortedLog(log) && SortedMeta(meta)
    requires i < j < |Plan(log, meta, cur)|
    requires Stamped(Plan(log, meta, cur)[i]) && Stamped(Plan(log, meta, cur)[j])
    ensures Leq(Time(Plan(log, meta, cur)[i]), Time(Plan(log, meta, cur)[j]))
    ensures Plan(log, meta, cur)[i].D? && Plan(log, meta, cur)[j].M? ==>
              Time(Plan(log, meta, cur)[i]) != Time(Plan(log, meta, cur)[j])
    decreases i
  {
    var cur' := NewCurrent(log, meta, cur);
    if Plan(log, meta, cur)[0].D? {
      if i > 0 {
        TimeOrder(log[1..], meta, cur', i - 1, j - 1);
      } else {
        FromTheInput(log[1..], meta, cur', j - 1);
      }
    } else {
      if i > 0 {
        TimeOrder(log, meta[1..], cur', i - 1, j - 1);
      } else {
        FromTheInput(log, meta[1..], cur', j - 1);
      }
    }
  }

  /**
   In a time-ordered archive the instance domains written before a data record are exactly those
   whose timestamp is not later than the record's.
   */
  lemma {:induction false} ExactlyTheEarlierInDoms(log: seq<Data>, meta: seq<Meta>, cur: Stamp, i: nat, k: nat)
    requires SortedLog(log) && SortedMeta(meta)
    requires i < |Plan(log, meta, cur)| && Plan(log, meta, cur)[i].D?
    requires k < |meta| && meta[k].InDom?
    ensures k < |Metas(Plan(log, meta, cur)[..i])|
       <==> Leq(meta[k].stamp, Plan(log, meta, cur)[i].data.stamp)
    decreases i
  {
    var p := Plan(log, meta, cur);
    var cur' := NewCurrent(log, meta, cur);
    if i > 0 {
      assert p[..i][1..] == p[1..][..i - 1];
      if p[0].D? {
        ExactlyTheEarlierInDoms(log[1..], meta, cur', i - 1, k);
      } else if k > 0 {
        ExactlyTheEarlierInDoms(log, meta[1..], cur', i - 1, k - 1);
      } else {
        FromTheInput(log, meta[1..], cur', i - 1);
      }
    }
  }

  // ---------- completeness ----------

  predicate NoneAfter(meta: seq<Meta>, t: Stamp) {
    forall m :: m in meta && m.InDom? ==> Leq(m.stamp, t)
  }

  lemma {:induction false} CompleteWithData(log: seq<Data>, meta: seq<Meta>, cur: Stamp)
    requires SortedLog(log) && log != []
    ensures Metas(Plan(log, meta, cur)) == meta <==> NoneAfter(meta, log[|log| - 1].stamp)
    decreases |log| + |meta|
  {
    var cur' := NewCurrent(log, meta, cur);
    if Choose(log, meta, cur) != PickData {
      CompleteWithData(log, meta[1..], cur');
      assert meta == [meta[0]] + meta[1..];
    } else if |log| > 1 {
      CompleteWithData(log[1..], meta, cur');
    }
  }

  lemma {:induction false} CompleteWithoutData(meta: seq<Meta>)
    ensures Metas(Plan([], meta, ZERO)) == meta <==> NoneAfter(meta, ZERO)
  {
    if Choose([], meta, ZERO) != Nothing {
      assert NewCurrent([], meta, ZERO) == ZERO;
      CompleteWithoutData(meta[1..]);
      assert meta == [meta[0]] + meta[1..];
    }
  }

  /**
   A conversion copies all the metadata exactly when no instance domain is later than the last
   data record; records behind one that is later are left unread.
   */
  lemma AllMetadataCopied(log: seq<Data>, meta: seq<Meta>)
    requires SortedLog(log)
    ensures Metas(Plan(log, meta, ZERO)) == meta
       <==> NoneAfter(meta, if log == [] then ZERO else log[|log| - 1].stamp)
  {
    if log == [] {
      CompleteWithoutData(meta);
    } else {
      CompleteWithData(log, meta, ZERO);
    }
  }
}
