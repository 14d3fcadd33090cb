/**
 The index of compiled help text: its sorting in src/newhelp/newhelp.c, the lookups of
 src/libpcp_pmda/src/help.c and the enumerator `next` of src/newhelp/chkhelp.c; and the way from
 the lines of a help source to the texts that are found.
 */
module HelpLookup {
  import opened Basics
  import opened HelpAssembler
  import opened HelpBuffer
  import opened HelpIndex

  // ---------- the sorted index ----------

  const FLAG := 0x8000_0000

  /** The disambiguating top bit: 0 for a metric, 1 for an instance domain. */
  function Flag(key: int): int { key / FLAG }

  function Serial(key: int): int { key % 0x40_0000 }

  predicate IsKey(key: int) { 0 <= key < MOD32 }

  function IdComp(a: Slot, b: Slot): int {
    if Flag(a.key) == Flag(b.key) then Serial(a.key) - Serial(b.key)
    else if Flag(a.key) == 0 then -1 else 1
  }

  /** idcomp is a consistent ordering: the sign flips with the arguments and it is transitive. */
  lemma IdCompIsAnOrder(a: Slot, b: Slot, c: Slot)
    requires IsKey(a.key) && IsKey(b.key) && IsKey(c.key)
    ensures IdComp(a, b) < 0 <==> IdComp(b, a) > 0
    ensures IdComp(a, b) <= 0 && IdComp(b, c) <= 0 ==> IdComp(a, c) <= 0
  {
  }

  /** What qsort promises. */
  predicate IsSorted(slots: seq<Slot>, sorted: seq<Slot>) {
    && multiset(sorted) == multiset(slots)
    && forall i, j :: 0 <= i < j < |sorted| ==> IdComp(sorted[i], sorted[j]) <= 0
  }

  predicate AllKeys(slots: seq<Slot>) {
    forall i :: 0 <= i < |slots| ==> IsKey(slots[i].key)
  }

  /** All metrics come before all instance domains. */
  lemma MetricsFirst(slots: seq<Slot>, sorted: seq<Slot>, i: nat, j: nat)
    requires IsSorted(slots, sorted) && AllKeys(slots)
    requires i < |sorted| && j < |sorted| && Flag(sorted[i].key) == 0 && Flag(sorted[j].key) != 0
    ensures i < j
  {
    assert sorted[i] in multiset(sorted) && sorted[j] in multiset(sorted);
  }

  /** Within each of the two kinds the serial numbers ascend. */
  lemma SerialsAscend(slots: seq<Slot>, sorted: seq<Slot>, i: nat, j: nat)
    requires IsSorted(slots, sorted) && i < j < |sorted| && Flag(sorted[i].key) == Flag(sorted[j].key)
    ensures sorted[i].key % 0x40_0000 <= sorted[j].key % 0x40_0000
  {
    assert IdComp(sorted[i], sorted[j]) <= 0;
  }

  lemma SlotLeadsBack(page: string, slots: seq<Slot>, kept: seq<Kept>, sorted: seq<Slot>, i: nat)
    requires Indexed(page, slots, kept) && multiset(sorted) == multiset(slots) && i < |sorted|
    ensures exists j :: 0 <= j < |kept| && LeadsTo(page, sorted[i], kept[j])
  {
    assert sorted[i] in multiset(slots);
    var j :| 0 <= j < |slots| && slots[j] == sorted[i];
    assert LeadsTo(page, slots[j], kept[j]);
  }

  lemma EntryHasSlot(page: string, slots: seq<Slot>, kept: seq<Kept>, sorted: seq<Slot>, j: nat)
    requires Indexed(page, slots, kept) && multiset(sorted) == multiset(slots) && j < |kept|
    ensures exists i :: 0 <= i < |sorted| && LeadsTo(page, sorted[i], kept[j])
  {
    assert LeadsTo(page, slots[j], kept[j]);
    assert slots[j] in multiset(sorted);
    var i :| 0 <= i < |sorted| && sorted[i] == slots[j];
  }

  /** After sorting, every slot still leads to the texts of an entry with its key, and every entry has a slot. */
  lemma SortedIndexLeadsBack(page: string, slots: seq<Slot>, kept: seq<Kept>, sorted: seq<Slot>)
    requires Indexed(page, slots, kept) && IsSorted(slots, sorted)
    ensures |sorted| == |kept|
    ensures forall i :: 0 <= i < |sorted| ==> exists j :: 0 <= j < |kept| && LeadsTo(page, sorted[i], kept[j])
    ensures forall j :: 0 <= j < |kept| ==> exists i :: 0 <= i < |sorted| && LeadsTo(page, sorted[i], kept[j])
  {
    assert |multiset(sorted)| == |multiset(slots)|;
    forall i | 0 <= i < |sorted| {
      SlotLeadsBack(page, slots, kept, sorted, i);
    }
    forall j | 0 <= j < |kept| {
      EntryHasSlot(page, slots, kept, sorted, j);
    }
  }

  // ---------- a sort that meets the contract ----------

  predicate InOrder(sorted: seq<Slot>) {
    forall i, j :: 0 <= i < j < |sorted| ==> IdComp(sorted[i], sorted[j]) <= 0
  }

  function Insert(s: Slot, sorted: seq<Slot>): (r: seq<Slot>)
    ensures multiset(r) == multiset(sorted) + multiset{s}
  {
    if sorted == [] then [s]
    else
      assert sorted == [sorted[0]] + sorted[1..];
      if IdComp(s, sorted[0]) <= 0 then [s] + sorted else [sorted[0]] + Insert(s, sorted[1..])
  }

  predicate Below(s: Slot, r: seq<Slot>) {
    forall j :: 0 <= j < |r| ==> IdComp(s, r[j]) <= 0
  }

  lemma Prepended(s: Slot, r: seq<Slot>)
    requires InOrder(r) && Below(s, r)
    ensures InOrder([s] + r)
  {
  }

  /** Every slot not above the head of an ordered list is below all of it. */
  lemma BelowAll(s: Slot, sorted: seq<Slot>)
    requires InOrder(sorted) && AllKeys(sorted) && IsKey(s.key) && sorted != [] && IdComp(s, sorted[0]) <= 0
    ensures Below(s, sorted)
  {
    forall j | 0 <= j < |sorted| ensures IdComp(s, sorted[j]) <= 0 {
      IdCompIsAnOrder(s, sorted[0], sorted[j]);
    }
  }

  lemma {:induction false} InsertKeeps(s: Slot, sorted: seq<Slot>, head: Slot)
    requires IdComp(head, s) <= 0 && Below(head, sorted)
    ensures Below(head, Insert(s, sorted))
  {
    if sorted != [] {
      InsertKeeps(s, sorted[1..], head);
    }
  }

  lemma {:induction false} InsertInOrder(s: Slot, sorted: seq<Slot>)
    requires InOrder(sorted) && AllKeys(sorted) && IsKey(s.key)
    ensures InOrder(Insert(s, sorted))
  {
    if sorted != [] {
      var head, rest := sorted[0], sorted[1..];
      if IdComp(s, head) <= 0 {
        BelowAll(s, sorted);
        Prepended(s, sorted);
      } else {
        IdCompIsAnOrder(s, head, head);
        InsertInOrder(s, rest);
        InsertKeeps(s, rest, head);
        Prepended(head, Insert(s, rest));
      }
    }
  }

  lemma {:induction false} InsertKeys(s: Slot, sorted: seq<Slot>)
    requires AllKeys(sorted) && IsKey(s.key)
    ensures AllKeys(Insert(s, sorted))
  {
    if sorted != [] {
      InsertKeys(s, sorted[1..]);
    }
  }

  /** Stands in for qsort, whose choice among equal elements is its own. */
  method Sort(slots: seq<Slot>) returns (sorted: seq<Slot>)
    requires AllKeys(slots)
    ensures IsSorted(slots, sorted)
  {
    sorted := [];
    var i := 0;
    while i < |slots|
      invariant 0 <= i <= |slots| && InOrder(sorted) && AllKeys(sorted)
      invariant multiset(sorted) == multiset(slots[..i])
    {
      InsertInOrder(slots[i], sorted);
      InsertKeys(slots[i], sorted);
      assert slots[..i + 1] == slots[..i] + [slots[i]];
      sorted := Insert(slots[i], sorted);
      i := i + 1;
    }
    assert slots[..i] == slots;
  }

  // ---------- reading ----------

  /** pmdaGetHelp: the first slot with the key, slot 0 being the header. */
  method FindForward(index: seq<Slot>, key: int) returns (r: Option<nat>)
    requires index != []
    ensures r.Some? ==> 1 <= r.value < |index| && index[r.value].key == key
    ensures forall i :: 1 <= i < (if r.Some? then r.value else |index|) ==> index[i].key != key
  {
    var i := 1;
    while i < |index|
      invariant 1 <= i <= |index| && forall k :: 1 <= k < i ==> index[k].key != key
    {
      if index[i].key == key {
        return Some(i);
      }
      i := i + 1;
    }
    return None;
  }

  /** pmdaGetInDomHelp: the last slot with the key: the search goes from the end, for the key with the flag set. */
  method FindBackward(index: seq<Slot>, indom: int) returns (r: Option<nat>)
    requires index != [] && IsKey(indom)
    ensures r.Some? ==> 1 <= r.value < |index| && index[r.value].key == FLAG + indom % FLAG
    ensures forall i :: (if r.Some? then r.value else 0) < i < |index| ==> index[i].key != FLAG + indom % FLAG
  {
    var key := FLAG + indom % FLAG;
    var i := |index| - 1;
    while i >= 1
      invariant 0 <= i < |index| && forall k :: i < k < |index| ==> index[k].key != key
    {
      if index[i].key == key {
        return Some(i);
      }
      i := i - 1;
    }
    return None;
  }

  predicate DistinctKeys(kept: seq<Kept>) {
    forall i, j :: 0 <= i < j < |kept| ==> kept[i].key != kept[j].key
  }

  /** With distinct keys, whatever slot a search finds leads to the texts of that key's one entry. */
  lemma LookupFindsEntry(page: string, slots: seq<Slot>, kept: seq<Kept>, sorted: seq<Slot>, hdr: Slot, r: nat, j: nat)
    requires Indexed(page, slots, kept) && IsSorted(slots, sorted) && DistinctKeys(kept)
    requires 1 <= r < |[hdr] + sorted| && j < |kept| && ([hdr] + sorted)[r].key == kept[j].key
    ensures LeadsTo(page, ([hdr] + sorted)[r], kept[j])
  {
    SortedIndexLeadsBack(page, slots, kept, sorted);
    var i :| 0 <= i < |kept| && LeadsTo(page, sorted[r - 1], kept[i]);
    assert i == j;
  }

  datatype Ident = Ident(ident: int, kind: int)

  /** The type recovered from the flag, and the flag cleared. */
  function IdentOf(key: int): Ident {
    if Flag(key) == 0 then Ident(key, 1) else Ident(key - FLAG, 2)
  }

  /** The key that is searched for. */
  function KeyOf(id: Ident): int { if id.kind == 1 then id.ident else FLAG + id.ident % FLAG }

  /** Clearing the flag loses nothing, since the type is given back beside it. */
  lemma IdentTellsKeysApart(a: int, b: int)
    requires IsKey(a) && IsKey(b)
    ensures IdentOf(a) == IdentOf(b) <==> a == b
    ensures IdentOf(a).ident == a % 0x8000_0000 && IdentOf(a).kind == (if a < 0x8000_0000 then 1 else 2)
    ensures KeyOf(IdentOf(a)) == a
  {
  }

  class Enumerator {
    const index: seq<Slot>
    var nextidx: nat

    constructor (index: seq<Slot>)
      requires index != []
      ensures this.index == index && nextidx == 1
    {
      this.index, nextidx := index, 1;
    }

    method Next() returns (r: Option<Ident>)
      requires 1 <= nextidx
      modifies this`nextidx
      ensures old(nextidx) >= |index| ==> r == None && nextidx == old(nextidx)
      ensures old(nextidx) < |index| ==> r == Some(IdentOf(index[old(nextidx)].key)) && nextidx == old(nextidx) + 1
    {
      if nextidx >= |index| {
        return None;
      }
      var key := index[nextidx].key;
      nextidx := nextidx + 1;
      if Flag(key) == 0 {
        r := Some(Ident(key, 1));
      } else {
        r := Some(Ident(key - FLAG, 2));
      }
    }

    /** Calling Next until it gives nothing yields every slot once, in order. */
    method All() returns (ids: seq<Ident>)
      requires nextidx == 1 <= |index|
      modifies this`nextidx
      ensures |ids| == |index| - 1
      ensures forall i :: 0 <= i < |ids| ==> ids[i] == IdentOf(index[i + 1].key)
    {
      ids := [];
      var r := Next();
      while r.Some?
        invariant 1 <= nextidx <= |index|
        invariant |ids| == (if r.Some? then nextidx - 2 else nextidx - 1)
        invariant r.Some? ==> nextidx >= 2 && r.value == IdentOf(index[nextidx - 1].key)
        invariant r.None? ==> nextidx == |index|
        invariant forall i :: 0 <= i < |ids| ==> ids[i] == IdentOf(index[i + 1].key)
        decreases |index| - nextidx, r.Some?
      {
        ids := ids + [r.value];
        r := Next();
      }
    }
  }

  // ---------- from source lines to help text ----------

  datatype Texts = Texts(oneline: string, text: string)

  method Find(index: seq<Slot>, id: Ident) returns (r: Option<nat>)
    requires index != [] && IsKey(id.ident)
    ensures r.Some? ==> 1 <= r.value < |index| && index[r.value].key == KeyOf(id)
    ensures r.None? ==> forall i :: 1 <= i < |index| ==> index[i].key != KeyOf(id)
  {
    if id.kind == 1 {
      r := FindForward(index, id.ident);
    } else {
      r := FindBackward(index, id.ident);
    }
  }

  /** What the enumerator lists can be searched for, and leads to a slot with the same key. */
  method ListAndFind(index: seq<Slot>) returns (ids: seq<Ident>, found: seq<nat>)
    requires index != [] && AllKeys(index)
    ensures |ids| == |found| == |index| - 1
    ensures forall i :: 0 <= i < |ids| ==> ids[i].kind == if index[i + 1].key < 0x8000_0000 then 1 else 2
    ensures forall i :: 0 <= i < |ids| ==> 1 <= found[i] < |index| && index[found[i]].key == index[i + 1].key
  {
    var e := new Enumerator(index);
    ids := e.All();
    found := [];
    var i := 0;
    while i < |ids|
      invariant 0 <= i <= |ids| == |index| - 1 && |found| == i
      invariant forall k :: 0 <= k < |ids| ==> ids[k] == IdentOf(index[k + 1].key)
      invariant forall k :: 0 <= k < i ==> 1 <= found[k] < |index| && index[found[k]].key == index[k + 1].key
    {
      IdentTellsKeysApart(index[i + 1].key, index[i + 1].key);
      var r := Find(index, ids[i]);
      found := found + [r.value];
      i := i + 1;
    }
    forall k | 0 <= k < |ids| ensures ids[k].kind == if index[k + 1].key < 0x8000_0000 then 1 else 2 {
      IdentTellsKeysApart(index[k + 1].key, index[k + 1].key);
    }
  }

  /** The C string at an offset of the page. */
  method ReadString(page: string, off: nat, ghost s: string) returns (r: string)
    requires StringIs(page, off, s)
    ensures r == s
  {
    var p := off;
    while page[p] != NUL
      invariant off <= p <= off + |s|
      invariant p < off + |s| ==> page[p] == page[off..off + |s|][p - off]
      decreases off + |s| - p
    {
      p := p + 1;
    }
    r := page[off..p];
  }

  ghost predicate KeysInRange(keyOf: string -> Option<int>) {
    forall name :: keyOf(name).Some? ==> IsKey(keyOf(name).value)
  }

  lemma KeptInRange(page: string, slots: seq<Slot>, parts: seq<Parts>, keyOf: string -> Option<int>)
    requires KeysInRange(keyOf) && Indexed(page, slots, KeepAll(parts, keyOf))
    ensures AllKeys(slots)
  {
    var kept := KeepAll(parts, keyOf);
    forall i | 0 <= i < |slots| ensures IsKey(slots[i].key) {
      assert LeadsTo(page, slots[i], kept[i]);
      KeptIsFromRun(parts, keyOf, kept[i]);
    }
  }

  /** The texts t are those of entry i, which has the key. */
  predicate TextsOf(parts: seq<Parts>, keyOf: string -> Option<int>, key: int, i: int, t: Texts) {
    0 <= i < |parts| && keyOf(parts[i].name) == Some(key) && t == Texts(parts[i].oneline, parts[i].text)
  }

  lemma {:induction false} FirstExists(parts: seq<Parts>, keyOf: string -> Option<int>, key: int, i: nat) returns (f: nat)
    requires i < |parts| && keyOf(parts[i].name) == Some(key)
    ensures FirstWith(parts, keyOf, key, f)
    decreases i
  {
    if j :| 0 <= j < i && keyOf(parts[j].name) == Some(key) {
      f := FirstExists(parts, keyOf, key, j);
    } else {
      f := i;
    }
  }

  lemma OnlyOneKept(parts: seq<Parts>, keyOf: string -> Option<int>, a: Kept, b: Kept)
    requires AllCaught(Known(parts, keyOf)) && a in KeepAll(parts, keyOf) && b in KeepAll(parts, keyOf) && a.key == b.key
    ensures a == b
  {
    DistinctIffCaught(Known(parts, keyOf));
    KeepAllKeys(parts, keyOf);
    var k := KeepAll(parts, keyOf);
    var i :| 0 <= i < |k| && k[i] == a;
    var j :| 0 <= j < |k| && k[j] == b;
    assert KeysOf(k)[i] == KeysOf(k)[j];
  }

  /** t is the texts of an entry with the key, and of the first one when every repetition is caught. */
  ghost predicate IsHelpFor(parts: seq<Parts>, keyOf: string -> Option<int>, key: int, t: Texts) {
    && (exists i :: TextsOf(parts, keyOf, key, i, t))
    && (AllCaught(Known(parts, keyOf)) ==> exists i :: FirstWith(parts, keyOf, key, i) && TextsOf(parts, keyOf, key, i, t))
  }

  lemma {:induction false} KeptTexts(parts: seq<Parts>, keyOf: string -> Option<int>, k: Kept)
    requires k in KeepAll(parts, keyOf)
    ensures IsHelpFor(parts, keyOf, k.key, Texts(k.parts.oneline, k.parts.text))
  {
    KeptIsFromRun(parts, keyOf, k);
    var i :| 0 <= i < |parts| && parts[i] == k.parts && keyOf(parts[i].name) == Some(k.key);
    assert TextsOf(parts, keyOf, k.key, i, Texts(k.parts.oneline, k.parts.text));
    if AllCaught(Known(parts, keyOf)) {
      var f := FirstExists(parts, keyOf, k.key, i);
      FirstIsKept(parts, keyOf, k.key, f);
      OnlyOneKept(parts, keyOf, k, Kept(k.key, parts[f]));
      assert TextsOf(parts, keyOf, k.key, f, Texts(k.parts.oneline, k.parts.text));
    }
  }

  lemma {:induction false} NotKept(page: string, slots: seq<Slot>, sorted: seq<Slot>, parts: seq<Parts>, keyOf: string -> Option<int>, key: int)
    requires Indexed(page, slots, KeepAll(parts, keyOf)) && IsSorted(slots, sorted)
    requires forall i :: 0 <= i < |sorted| ==> sorted[i].key != key
    ensures forall i :: 0 <= i < |parts| ==> keyOf(parts[i].name) != Some(key)
  {
    var kept := KeepAll(parts, keyOf);
    KnownHas(parts, keyOf, key);
    NoKeyLost(Known(parts, keyOf), key);
    KeepAllKeys(parts, keyOf);
    forall j | 0 <= j < |kept| ensures KeysOf(kept)[j] != key {
      EntryHasSlot(page, slots, kept, sorted, j);
    }
  }

  /** The texts slot i of the sorted index leads to. */
  method ReadTexts(page: string, ghost slots: seq<Slot>, sorted: seq<Slot>, i: nat,
                   ghost parts: seq<Parts>, ghost keyOf: string -> Option<int>) returns (found: Option<Texts>)
    requires Indexed(page, slots, KeepAll(parts, keyOf)) && multiset(sorted) == multiset(slots) && i < |sorted|
    ensures found.Some? && IsHelpFor(parts, keyOf, sorted[i].key, found.value)
  {
    ghost var kept := KeepAll(parts, keyOf);
    SlotLeadsBack(page, slots, kept, sorted, i);
    ghost var j :| 0 <= j < |kept| && LeadsTo(page, sorted[i], kept[j]);
    var oneline := ReadString(page, sorted[i].oneline, kept[j].parts.oneline);
    var text := ReadString(page, sorted[i].text, kept[j].parts.text);
    KeptTexts(parts, keyOf, kept[j]);
    found := Some(Texts(oneline, text));
  }

  method Lookup(page: string, slots: seq<Slot>, id: Ident, ghost parts: seq<Parts>, ghost keyOf: string -> Option<int>)
    returns (found: Option<Texts>)
    requires IsKey(id.ident) && KeysInRange(keyOf) && Indexed(page, slots, KeepAll(parts, keyOf))
    ensures found.None? <==> forall i :: 0 <= i < |parts| ==> keyOf(parts[i].name) != Some(KeyOf(id))
    ensures found.Some? ==> IsHelpFor(parts, keyOf, KeyOf(id), found.value)
  {
    KeptInRange(page, slots, parts, keyOf);
    var sorted := Sort(slots);
    var index := [Slot(0x5063_5068, 0x3132_0000, |sorted|)] + sorted;
    var r := Find(index, id);
    if r.None? {
      assert forall i :: 0 <= i < |sorted| ==> sorted[i] == index[i + 1];
      NotKept(page, slots, sorted, parts, keyOf, KeyOf(id));
      return None;
    }
    found := ReadTexts(page, slots, sorted, r.value - 1, parts, keyOf);
  }

  /**
   The whole way: assemble the lines, compile the entries, sort the index, search it, read the page.
   Something is found exactly when an entry has the key, and then it is the texts of such an entry,
   of the first one where every repetition is caught.  The entries are the simple splitter's
   exactly for an intact file.
   */
  method HelpText(buf: array<char>, lines: seq<string>, keyOf: string -> Option<int>, id: Ident)
    returns (found: Option<Texts>, ghost entries: seq<string>, ghost parts: seq<Parts>, ghost seps: seq<string>, ghost rests: seq<string>)
    requires Chunks(lines) && SIZE < buf.Length && IsKey(id.ident) && KeysInRange(keyOf)
    modifies buf
    ensures (entries == Split(lines) <==> Intact(lines)) && AllSplit(entries, parts, seps, rests)
    ensures found.None? <==> forall i :: 0 <= i < |parts| ==> keyOf(parts[i].name) != Some(KeyOf(id))
    ensures found.Some? ==> IsHelpFor(parts, keyOf, KeyOf(id), found.value)
  {
    var es := Assemble(buf, lines);
    EmittedAreEntries(lines);
    SplitterIffIntact(lines);
    var file := new HelpFile();
    entries := es;
    parts, seps, rests := file.Compile(es, keyOf);
    found := Lookup(file.page, file.hindex, id, parts, keyOf);
  }
}
