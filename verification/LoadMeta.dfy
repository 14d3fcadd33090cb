/**
 Loading an archive's metadata file: __pmLogLoadMeta and addindom of qa/pmlogconv/libpcp.c.
 */
module LoadMeta {
  import opened Basics
  import opened Framing

  const MAXPATHLEN := 4096

  /** A 32-bit word read as a signed int. */
  function Signed(n: int): int
    requires 0 <= n < MOD32
  {
    if n < MOD32 / 2 then n else n - MOD32
  }

  /** The word at position p, most significant byte first. */
  function Word(f: Bytes, p: nat): int
    requires p + 4 <= |f|
  {
    Signed(((f[p] as int * 256 + f[p + 1]) * 256 + f[p + 2]) * 256 + f[p + 3])
  }

  /** A loaded instance domain: instance numbers, and names as offsets into the record buffer. */
  datatype InDom = InDom(sec: int, usec: int, indom: int, numinst: int, instlist: seq<int>,
                         namelist: seq<int>, buf: Bytes)

  datatype Item = ADesc(pmid: int, attrs: Bytes, names: seq<Bytes>) | AnInDom(value: InDom) | Skipped

  /** Overrun stands for what the code leaves undefined: it would read or write outside a buffer. */
  datatype Outcome = Done | BadRecord | NoMemory | Overrun

  /** `entered` is what has already gone into the tables when loading stops at a record. */
  datatype Step = Got(item: Item, next: nat) | Stop(outcome: Outcome, entered: seq<Item>)

  /** The record body after the header, or None where the lists do not fit in it. */
  function ParseInDom(b: Bytes): Option<InDom> {
    if |b| < 16 then None
    else
      var n := Word(b, 12);
      if n <= 0 then Some(InDom(Word(b, 0), Word(b, 4), Word(b, 8), n, [], [], b))
      else if 16 + 8 * n > |b| then None
      else Some(InDom(Word(b, 0), Word(b, 4), Word(b, 8), n,
                      InstList(b, n), NameList(b, n), b))
  }

  function InstList(b: Bytes, n: nat): seq<int>
    requires 16 + 8 * n <= |b|
  {
    seq(n, i requires 0 <= i < n => Word(b, 16 + 4 * i))
  }

  function NameList(b: Bytes, n: nat): seq<int>
    requires 16 + 8 * n <= |b|
  {
    seq(n, i requires 0 <= i < n => 16 + 8 * n + Word(b, 16 + 4 * n + 4 * i))
  }

  datatype Names = Names(list: seq<Bytes>, next: nat) | NoNames(outcome: Outcome, list: seq<Bytes>)

  datatype NameStep = AName(name: Bytes, next: nat) | BadName(outcome: Outcome)

  /** One name, with its length in front, at position p. */
  function NameAt(f: Bytes, p: nat): NameStep {
    if p + 4 > |f| then BadName(BadRecord)
    else
      var len := Word(f, p);
      if len < 0 || len >= MAXPATHLEN then BadName(Overrun)
      else if p + 4 + len > |f| then BadName(BadRecord)
      else AName(f[p + 4..p + 4 + len], p + 4 + len)
  }

  /** Names of up to 4095 bytes are read whole; a longer or negative length overruns the buffer. */
  lemma NameLimit(f: Bytes, p: nat)
    requires p + 4 <= |f|
    ensures var len := Word(f, p);
      && (NameAt(f, p) == BadName(Overrun) <==> !(0 <= len < 4096))
      && (0 <= len < 4096 && p + 4 + len <= |f| ==> NameAt(f, p) == AName(f[p + 4..p + 4 + len], p + 4 + len))
  {
  }

  function NameReader(f: Bytes): nat -> NameStep { (q: nat) => NameAt(f, q) }

  function NamesWith(g: nat -> NameStep, p: nat, n: int): Names
    decreases n
  {
    if n <= 0 then Names([], p)
    else match g(p)
      case BadName(outcome) => NoNames(outcome, [])
      case AName(name, next) => WithFront([name], NamesWith(g, next, n - 1))
  }

  function ParseNames(f: Bytes, p: nat, n: int): Names { NamesWith(NameReader(f), p, n) }

  function WithFront(front: seq<Bytes>, r: Names): Names {
    r.(list := front + r.list)
  }

  lemma FrontsJoin(a: seq<Bytes>, b: seq<Bytes>, r: Names)
    ensures WithFront(a, WithFront(b, r)) == WithFront(a + b, r)
  {
    assert a + (b + r.list) == (a + b) + r.list;
  }

  lemma OneMoreName(g: nat -> NameStep, q: nat, n: int, list: seq<Bytes>)
    requires n > 0
    ensures WithFront(list, NamesWith(g, q, n)) ==
      match g(q)
      case BadName(outcome) => NoNames(outcome, list)
      case AName(name, next) => WithFront(list + [name], NamesWith(g, next, n - 1))
  {
    match g(q)
    case BadName(_) => assert list + [] == list;
    case AName(name, next) => FrontsJoin(list, [name], NamesWith(g, next, n - 1));
  }

  /** The names of a version 2 descriptor start at p. */
  function ParseDescNames(f: Bytes, p: nat, version2: bool): Names {
    if !version2 then Names([], p)
    else if p + 4 > |f| then NoNames(BadRecord, [])
    else ParseNames(f, p + 4, Word(f, p))
  }

  /** Everything of a record between its header and its trailer. */
  function Body(f: Bytes, p: nat, len: int, kind: int, version2: bool): Step
    requires 4 <= p && p + 8 <= |f| && len > 0
  {
    var rlen := len - 12;
    if kind == TYPE_DESC then
      if p + 28 > |f| then Stop(BadRecord, [])
      else
        var names := ParseDescNames(f, p + 28, version2);
        var desc := ADesc(Word(f, p + 8), f[p + 12..p + 28], names.list);
        if names.NoNames? then Stop(names.outcome, [desc]) else Got(desc, names.next)
    else if kind == TYPE_INDOM then
      if rlen < 0 then Stop(NoMemory, [])
      else if p + 8 + rlen > |f| then Stop(BadRecord, [])
      else
        var d := ParseInDom(f[p + 8..p + 8 + rlen]);
        if d.None? then Stop(Overrun, []) else Got(AnInDom(d.value), p + 8 + rlen)
    else Got(Skipped, p + 8 + rlen)
  }

  /** One pass through the loading loop with the file at position p. */
  function Next(f: Bytes, p: nat, version2: bool): Step
    requires 4 <= p
  {
    if p + 8 > |f| then Stop(Done, [])
    else if Word(f, p) <= 0 then Stop(BadRecord, [])
    else
      var len := Word(f, p);
      var body := Body(f, p, len, Word(f, p + 4), version2);
      if body.Stop? then body
      else if body.next + 4 > |f| || Word(f, body.next) != len then Stop(BadRecord, [body.item])
      else Got(body.item, body.next + 4)
  }

  lemma {:induction false} NamesGoForward(f: Bytes, p: nat, n: int)
    ensures ParseNames(f, p, n).Names? ==> p <= ParseNames(f, p, n).next
    decreases n
  {
    if n > 0 && NameAt(f, p).AName? {
      assert NameReader(f)(p) == NameAt(f, p);
      NamesGoForward(f, NameAt(f, p).next, n - 1);
    }
  }

  lemma NextGoesForward(f: Bytes, p: nat, version2: bool)
    requires 4 <= p && Next(f, p, version2).Got?
    ensures p < Next(f, p, version2).next <= |f|
  {
    if Word(f, p + 4) == TYPE_DESC && version2 && p + 32 <= |f| {
      NamesGoForward(f, p + 32, Word(f, p + 28));
    }
  }

  datatype Loaded = Loaded(items: seq<Item>, outcome: Outcome, entered: seq<Item>)

  /** All the records from position p on, up to where loading stops, and what was entered of the one it stops at. */
  function Scan(f: Bytes, p: nat, version2: bool): Loaded
    requires 4 <= p
    decreases |f| - p
  {
    var s := Next(f, p, version2);
    if s.Stop? then Loaded([], s.outcome, s.entered)
    else
      NextGoesForward(f, p, version2);
      Prefixed([s.item], Scan(f, s.next, version2))
  }

  function Prefixed(items: seq<Item>, l: Loaded): Loaded { l.(items := items + l.items) }

  lemma PrefixedTwice(a: seq<Item>, x: Item, l: Loaded)
    ensures Prefixed(a, Prefixed([x], l)) == Prefixed(a + [x], l)
  {
    assert a + ([x] + l.items) == (a + [x]) + l.items;
  }

  // ---------- the hash chains ----------

  predicate IsFor(x: Item, d: int) {
    x.AnInDom? && x.value.indom == d
  }

  /** The records of instance domain d, latest in the file first. */
  function ChainOf(items: seq<Item>, d: int): seq<InDom> {
    if items == [] then []
    else
      var x := items[|items| - 1];
      (if IsFor(x, d) then [x.value] else []) + ChainOf(items[..|items| - 1], d)
  }

  function Descs(items: seq<Item>): seq<Item> {
    if items == [] then []
    else
      var x := items[|items| - 1];
      Descs(items[..|items| - 1]) + (if x.ADesc? then [x] else [])
  }

  /** The descriptors are those among the items. */
  lemma {:induction false} DescsOf(items: seq<Item>, x: Item)
    ensures Descs([x]) == if x.ADesc? then [x] else []
    ensures x in Descs(items) <==> x in items && x.ADesc?
  {
    assert [x][..0] == [];
    if items != [] {
      DescsOf(items[..|items| - 1], x);
    }
  }

  /** They are in the order of the items, each as often as it occurs. */
  lemma {:induction false} DescsAppend(a: seq<Item>, b: seq<Item>)
    ensures Descs(a + b) == Descs(a) + Descs(b)
  {
    if b == [] {
      assert a + b == a;
    } else {
      var n := |b| - 1;
      DescsAppend(a, b[..n]);
      assert (a + b)[..|a| + n] == a + b[..n] && (a + b)[|a| + n] == b[n];
    }
  }

  /** The records of instance domain d in file order. */
  function Selected(items: seq<Item>, d: int): seq<InDom> {
    if items == [] then []
    else (if IsFor(items[0], d) then [items[0].value] else []) + Selected(items[1..], d)
  }

  lemma {:induction false} SelectedSnoc(items: seq<Item>, x: Item, d: int)
    ensures Selected(items + [x], d) == Selected(items, d) + (if IsFor(x, d) then [x.value] else [])
  {
    if items != [] {
      SelectedSnoc(items[1..], x, d);
      assert (items + [x])[1..] == items[1..] + [x];
    }
  }

  /** A chain holds exactly the domain's records, in reverse file order. */
  lemma {:induction false} ChainIsReversed(items: seq<Item>, d: int)
    ensures |ChainOf(items, d)| == |Selected(items, d)|
    ensures forall k :: 0 <= k < |ChainOf(items, d)| ==>
              ChainOf(items, d)[k] == Selected(items, d)[|Selected(items, d)| - 1 - k]
  {
    if items != [] {
      var n := |items| - 1;
      ChainIsReversed(items[..n], d);
      SelectedSnoc(items[..n], items[n], d);
      assert items[..n] + [items[n]] == items;
    }
  }

  predicate NotAfter(a: InDom, b: InDom) {
    a.sec < b.sec || (a.sec == b.sec && a.usec <= b.usec)
  }

  predicate TimeOrdered(items: seq<Item>) {
    forall i, j :: 0 <= i < j < |items| && items[i].AnInDom? && items[j].AnInDom? ==>
      NotAfter(items[i].value, items[j].value)
  }

  lemma {:induction false} ChainElement(items: seq<Item>, d: int, k: nat)
    requires k < |ChainOf(items, d)|
    ensures exists i :: 0 <= i < |items| && items[i] == AnInDom(ChainOf(items, d)[k])
  {
    var n := |items| - 1;
    if IsFor(items[n], d) && k == 0 {
      assert items[n] == AnInDom(ChainOf(items, d)[k]);
    } else {
      ChainElement(items[..n], d, if IsFor(items[n], d) then k - 1 else k);
    }
  }

  /** Every chain of a time-ordered file is newest first. */
  lemma {:induction false} ChainsNewestFirst(items: seq<Item>, d: int)
    requires TimeOrdered(items)
    ensures forall k, l :: 0 <= k < l < |ChainOf(items, d)| ==>
              NotAfter(ChainOf(items, d)[l], ChainOf(items, d)[k])
  {
    if items != [] {
      var n := |items| - 1;
      ChainsNewestFirst(items[..n], d);
      var tail := ChainOf(items[..n], d);
      forall l | 0 <= l < |tail| && items[n].AnInDom?
        ensures NotAfter(tail[l], items[n].value)
      {
        ChainElement(items[..n], d, l);
      }
    }
  }

  // ---------- the loader ----------

  class LogCtl {
    var hashIndom: map<int, seq<InDom>>
    var hashPmid: seq<Item>

    constructor ()
      ensures hashIndom == map[] && hashPmid == []
    {
      hashIndom, hashPmid := map[], [];
    }

    ghost function Chain(d: int): seq<InDom> reads this {
      if d in hashIndom then hashIndom[d] else []
    }

    /** addindom: put a record at the front of its domain's chain. */
    method AddInDom(x: InDom)
      modifies this`hashIndom
      ensures Chain(x.indom) == [x] + old(Chain(x.indom))
      ensures forall d :: d != x.indom ==> Chain(d) == old(Chain(d))
    {
      if x.indom in hashIndom {
        hashIndom := hashIndom[x.indom := [x] + hashIndom[x.indom]];
      } else {
        hashIndom := hashIndom[x.indom := [x]];
      }
    }

    /** The tables hold the records of items. */
    ghost predicate Holds(items: seq<Item>) reads this {
      && (forall d :: Chain(d) == ChainOf(items, d))
      && hashPmid == Descs(items)
    }

    method Add(ghost items: seq<Item>, x: Item)
      requires Holds(items)
      modifies this
      ensures Holds(items + [x])
    {
      assert (items + [x])[..|items|] == items;
      if x.AnInDom? {
        AddInDom(x.value);
      } else if x.ADesc? {
        hashPmid := hashPmid + [x];
      }
    }

    /** One pass through the loop.  A record goes into the tables before its names or trailer are looked at. */
    method LoadOne(f: Bytes, p: nat, version2: bool, ghost items: seq<Item>) returns (s: Step)
      requires 4 <= p && Holds(items)
      modifies this
      ensures s == Next(f, p, version2) && (s.Got? ==> p < s.next <= |f|)
      ensures Holds(items + if s.Got? then [s.item] else s.entered)
    {
      assert items + [] == items;
      if p + 8 > |f| {
        return Stop(Done, []);
      }
      var len := Word(f, p);
      if len <= 0 {
        return Stop(BadRecord, []);
      }
      s := ReadBody(f, p, len, Word(f, p + 4), version2);
      if s.Stop? {
        if s.entered != [] {
          Add(items, s.entered[0]);
          assert [s.entered[0]] == s.entered;
        }
      } else {
        Add(items, s.item);
        if s.next + 4 > |f| || Word(f, s.next) != len {
          s := Stop(BadRecord, [s.item]);
        } else {
          NextGoesForward(f, p, version2);
          s := Got(s.item, s.next + 4);
        }
      }
    }

    /** __pmLogLoadMeta: the tables end up holding exactly what the file makes it enter. */
    method Load(f: Bytes, version2: bool) returns (outcome: Outcome)
      requires hashIndom == map[] && hashPmid == []
      modifies this
      ensures var l := Scan(f, LABEL_SIZE, version2);
        outcome == l.outcome && Holds(l.items + l.entered)
    {
      ghost var items: seq<Item> := [];
      ghost var all := Scan(f, LABEL_SIZE, version2);
      var p: nat := LABEL_SIZE;
      var s: Step := Got(Skipped, p);
      while s.Got?
        invariant 4 <= p <= |f| + LABEL_SIZE
        invariant s.Got? ==> Holds(items)
        invariant s.Got? ==> all == Prefixed(items, Scan(f, p, version2))
        invariant s.Stop? ==> all == Loaded(items, s.outcome, s.entered) && Holds(items + s.entered)
        decreases if s.Got? then 1 + |f| + LABEL_SIZE - p else 0
      {
        s := LoadOne(f, p, version2, items);
        if s.Got? {
          PrefixedTwice(items, s.item, Scan(f, s.next, version2));
          items := items + [s.item];
          p := s.next;
        }
      }
      outcome := s.outcome;
    }
  }

  /** The loop that swaps the instance list and turns string offsets into pointers. */
  method DecodeInDom(b: Bytes) returns (r: Option<InDom>)
    ensures r == ParseInDom(b)
  {
    if |b| < 16 {
      return None;
    }
    var n := Word(b, 12);
    if n > 0 && 16 + 8 * n > |b| {
      return None;
    }
    if n <= 0 {
      return Some(InDom(Word(b, 0), Word(b, 4), Word(b, 8), n, [], [], b));
    }
    var instlist: seq<int>, namelist: seq<int> := [], [];
    var i := 0;
    while i < n
      invariant 0 <= i <= n && |instlist| == |namelist| == i
      invariant forall k :: 0 <= k < i ==> instlist[k] == Word(b, 16 + 4 * k)
      invariant forall k :: 0 <= k < i ==> namelist[k] == 16 + 8 * n + Word(b, 16 + 4 * n + 4 * k)
    {
      instlist := instlist + [Word(b, 16 + 4 * i)];
      namelist := namelist + [16 + 8 * n + Word(b, 16 + 4 * n + 4 * i)];
      i := i + 1;
    }
    assert instlist == InstList(b, n) && namelist == NameList(b, n);
    r := Some(InDom(Word(b, 0), Word(b, 4), Word(b, 8), n, instlist, namelist, b));
  }

  /** One pass through the loop over the names of a descriptor. */
  method ReadName(f: Bytes, q: nat) returns (r: NameStep)
    ensures r == NameAt(f, q)
  {
    if q + 4 > |f| {
      return BadName(BadRecord);
    }
    var len := Word(f, q);
    if len < 0 || len >= MAXPATHLEN {
      return BadName(Overrun);
    }
    if q + 4 + len > |f| {
      return BadName(BadRecord);
    }
    r := AName(f[q + 4..q + 4 + len], q + 4 + len);
  }

  method NextName(f: Bytes, q: nat, ghost g: nat -> NameStep) returns (r: NameStep)
    requires g == NameReader(f)
    ensures r == g(q)
  {
    r := ReadName(f, q);
  }

  /** The loop over the names of a descriptor. */
  method NamesLoop(f: Bytes, p: nat, n: int, ghost g: nat -> NameStep) returns (r: Names)
    requires g == NameReader(f)
    ensures r == NamesWith(g, p, n)
  {
    var q: nat, m := p, n;
    var list: seq<Bytes> := [];
    while m > 0
      invariant NamesWith(g, p, n) == WithFront(list, NamesWith(g, q, m))
    {
      OneMoreName(g, q, m, list);
      var s := NextName(f, q, g);
      if s.BadName? {
        return NoNames(s.outcome, list);
      }
      list := list + [s.name];
      q, m := s.next, m - 1;
    }
    r := Names(list, q);
  }

  method ReadNames(f: Bytes, p: nat, n: int) returns (r: Names)
    ensures r == ParseNames(f, p, n)
  {
    r := NamesLoop(f, p, n, NameReader(f));
  }

  /** Everything of a record between its header and its trailer. */
  method ReadBody(f: Bytes, p: nat, len: int, kind: int, version2: bool) returns (r: Step)
    requires 4 <= p && p + 8 <= |f| && len > 0
    ensures r == Body(f, p, len, kind, version2)
  {
    var rlen := len - 12;
    if kind == TYPE_DESC {
      if p + 28 > |f| {
        return Stop(BadRecord, []);
      }
      var names := Names([], p + 28);
      if version2 {
        if p + 32 > |f| {
          return Stop(BadRecord, [ADesc(Word(f, p + 8), f[p + 12..p + 28], [])]);
        }
        names := ReadNames(f, p + 32, Word(f, p + 28));
      }
      var desc := ADesc(Word(f, p + 8), f[p + 12..p + 28], names.list);
      r := if names.NoNames? then Stop(names.outcome, [desc]) else Got(desc, names.next);
    } else if kind == TYPE_INDOM {
      if rlen < 0 {
        return Stop(NoMemory, []);
      }
      if p + 8 + rlen > |f| {
        return Stop(BadRecord, []);
      }
      var d := DecodeInDom(f[p + 8..p + 8 + rlen]);
      r := if d.None? then Stop(Overrun, []) else Got(AnInDom(d.value), p + 8 + rlen);
    } else {
      r := Got(Skipped, p + 8 + rlen);
    }
  }
}
