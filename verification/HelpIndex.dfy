/**
 The page file and index of compiled help text: newentry of src/newhelp/newhelp.c.
 */
module HelpIndex {
  import opened Basics
  import opened HelpAssembler
  import opened HelpBuffer

  // ---------- the parts of an entry ----------

  datatype Parts = Parts(name: string, oneline: string, text: string)

  predicate NoSpace(s: string) { forall i :: 0 <= i < |s| ==> !IsSpace(s[i]) }

  /** White space within a line. */
  predicate Blank(s: string) { forall i :: 0 <= i < |s| ==> IsSpace(s[i]) && s[i] != '\n' }

  /** What newentry is called with: C strings that start with a name and have a first line. */
  predicate IsEntry(e: string) {
    NUL !in e && '\n' in e && !IsSpace(e[0])
  }

  /** e is a name, the rest of its first line, and further lines whose trailing newlines are dropped. */
  predicate Splits(e: string, x: Parts, sep: string, rest: string) {
    && e == x.name + sep + x.oneline + "\n" + rest
    && NoSpace(x.name) && Blank(sep) && '\n' !in x.oneline
    && (x.oneline != [] ==> sep != [] && !IsSpace(x.oneline[0]))
    && x.text == TrimEnd(rest)
  }

  /** Skip over the name, up to white space. */
  method NameEnd(e: string, ghost nl: nat) returns (p: nat)
    requires nl < |e| && e[nl] == '\n'
    ensures p <= nl && IsSpace(e[p]) && NoSpace(e[..p])
  {
    p := 0;
    while e[p] != '\n' && !IsSpace(e[p])
      invariant p <= nl && NoSpace(e[..p])
      decreases nl - p
    {
      p := p + 1;
    }
  }

  /** Skip white space to the start of the one-line text. */
  method OneLineStart(e: string, start: nat, ghost nl: nat) returns (p: nat)
    requires start <= nl < |e| && e[nl] == '\n' && IsSpace(e[start])
    ensures start <= p <= nl && Blank(e[start..p])
    ensures e[p] == '\n' || (start < p && !IsSpace(e[p]))
  {
    p := start;
    if e[p] != '\n' {
      p := p + 1;
    }
    while e[p] != '\n' && IsSpace(e[p])
      invariant start <= p <= nl && (forall i :: start <= i < p ==> IsSpace(e[i]) && e[i] != '\n')
      invariant p == start ==> e[p] == '\n'
      decreases nl - p
    {
      p := p + 1;
    }
  }

  method LineEnd(e: string, start: nat, ghost nl: nat) returns (p: nat)
    requires start <= nl < |e| && e[nl] == '\n'
    ensures start <= p <= nl && e[p] == '\n' && '\n' !in e[start..p]
  {
    p := start;
    while e[p] != '\n'
      invariant start <= p <= nl && (forall i :: start <= i < p ==> e[i] != '\n')
      decreases nl - p
    {
      p := p + 1;
    }
  }

  /** Step back over trailing newlines. */
  method TextEnd(e: string, start: nat) returns (p: nat)
    requires start <= |e|
    ensures start <= p <= |e| && e[start..p] == TrimEnd(e[start..])
  {
    p := |e|;
    while p > start && e[p - 1] == '\n'
      invariant start <= p <= |e| && (forall i :: p <= i < |e| ==> e[i] == '\n')
    {
      p := p - 1;
    }
    var rest := e[start..];
    TrimmedAt(rest, p - start);
    assert rest[..p - start] == e[start..p];
    assert rest[p - start..] == e[p..];
  }

  method ParseEntry(e: string) returns (x: Parts, ghost sep: string, ghost rest: string)
    requires IsEntry(e)
    ensures Splits(e, x, sep, rest)
    ensures NUL !in x.oneline && NUL !in x.text
  {
    ghost var nl :| 0 <= nl < |e| && e[nl] == '\n';
    var a := NameEnd(e, nl);
    var b := OneLineStart(e, a, nl);
    var c := LineEnd(e, b, nl);
    var d := TextEnd(e, c + 1);
    x := Parts(e[..a], e[b..c], e[c + 1..d]);
    sep, rest := e[a..b], e[c + 1..];
    assert e == e[..a] + e[a..b] + e[b..c] + "\n" + rest;
  }

  lemma TrimmedAt(s: string, k: nat)
    requires k <= |s| && (k == 0 || s[k - 1] != '\n')
    ensures AllNewlines(s[k..]) ==> TrimEnd(s) == s[..k]
  {
    if AllNewlines(s[k..]) {
      TrimNewlines(s[..k], s[k..]);
      assert s == s[..k] + s[k..];
    }
  }

  // ---------- what the assembler hands on can be parsed ----------

  lemma {:induction false} TailIsClean(cs: seq<string>)
    requires Chunks(cs)
    ensures NUL !in Tail(cs)
  {
    if cs != [] {
      TailIsClean(cs[1..]);
    }
  }

  lemma BodyIsEntry(cs: seq<string>)
    requires Chunks(cs) && StartsEntry(cs)
    ensures var b := Body(cs); NUL !in b && b != [] && !IsSpace(b[0])
  {
    assert NUL !in cs[0][1..];
    SkipKeeps(cs[0][1..]);
    TailIsClean(cs[1..]);
  }

  lemma CollapsedIsEntry(b: string)
    requires NUL !in b && b != [] && !IsSpace(b[0])
    ensures IsEntry(Collapsed(b)) && (|b| > MAXENTRY ==> IsEntry(Cut(b)))
  {
    TrimPrefix(b);
    var t := TrimEnd(b);
    assert b[..|t|] == t;
    assert Collapsed(b)[|t|] == '\n';
    if |b| > MAXENTRY {
      assert Cut(b)[MAXENTRY - 2] == '\n';
    }
  }

  /** Every entry the assembler hands on is one newentry can take apart. */
  lemma {:induction false} EmittedAreEntries(cs: seq<string>)
    requires Chunks(cs)
    ensures forall i :: 0 <= i < |Emitted(cs)| ==> IsEntry(Emitted(cs)[i])
    decreases |cs|
  {
    if cs != [] {
      if StartsEntry(cs) {
        BodyIsEntry(cs);
        CollapsedIsEntry(Body(cs));
        EmittedAreEntries(AfterNext(cs[1..]));
      }
      EmittedAreEntries(cs[1..]);
    }
  }

  // ---------- writing ----------

  datatype Slot = Slot(key: int, oneline: nat, text: nat)

  datatype Kept = Kept(key: int, parts: Parts)

  /** The offsets of a slot lead to the two strings of an entry with the same key. */
  predicate LeadsTo(page: string, s: Slot, k: Kept) {
    s.key == k.key && StringIs(page, s.oneline, k.parts.oneline) && StringIs(page, s.text, k.parts.text)
  }

  predicate Indexed(page: string, slots: seq<Slot>, kept: seq<Kept>) {
    |slots| == |kept| && forall i :: 0 <= i < |slots| ==> LeadsTo(page, slots[i], kept[i])
  }

  lemma StillLeadsTo(page: string, more: string, s: Slot, k: Kept)
    requires LeadsTo(page, s, k)
    ensures LeadsTo(page + more, s, k)
  {
    var all := page + more;
    assert all[s.oneline..s.oneline + |k.parts.oneline|] == page[s.oneline..s.oneline + |k.parts.oneline|];
    assert all[s.text..s.text + |k.parts.text|] == page[s.text..s.text + |k.parts.text|];
  }

  lemma StringWritten(head: string, s: string, more: string)
    requires NUL !in s
    ensures StringIs(head + (s + [NUL]) + more, |head|, s)
  {
    var all := head + (s + [NUL]) + more;
    assert all[|head|..|head| + |s|] == s;
  }

  lemma IndexedAppend(page: string, more: string, slots: seq<Slot>, kept: seq<Kept>, s: Slot, k: Kept)
    requires Indexed(page, slots, kept) && LeadsTo(page + more, s, k)
    ensures Indexed(page + more, slots + [s], kept + [k])
  {
    forall i | 0 <= i < |slots| ensures LeadsTo(page + more, slots[i], kept[i]) {
      StillLeadsTo(page, more, slots[i], kept[i]);
    }
  }

  /** What an entry adds to the page file. */
  function Written(x: Parts): string {
    ("\n@ " + x.name + " ") + ((x.oneline + [NUL]) + (x.text + [NUL]))
  }

  lemma EntryWritten(page: string, slots: seq<Slot>, kept: seq<Kept>, key: int, x: Parts)
    requires Indexed(page, slots, kept) && NUL !in x.oneline && NUL !in x.text
    ensures var at := |page| + |x.name| + 4;
      Indexed(page + Written(x), slots + [Slot(key, at, at + |x.oneline| + 1)], kept + [Kept(key, x)])
  {
    var head := page + ("\n@ " + x.name + " ");
    var line := x.oneline + [NUL];
    var all := page + Written(x);
    StringWritten(head, x.oneline, x.text + [NUL]);
    assert all == head + line + (x.text + [NUL]);
    StringWritten(head + line, x.text, []);
    assert all == (head + line) + (x.text + [NUL]) + [];
    IndexedAppend(page, Written(x), slots, kept, Slot(key, |head|, |head + line|), Kept(key, x));
  }

  /** The key is compared with the latest one only, and not even that while there is just one. */
  predicate Accepted(keys: seq<int>, key: int) {
    !(|keys| >= 2 && keys[|keys| - 1] == key)
  }

  class HelpFile {
    var page: string
    var hindex: seq<Slot>
    ghost var kept: seq<Kept>

    ghost predicate Valid() reads this {
      Indexed(page, hindex, kept)
    }

    constructor ()
      ensures Valid() && kept == [] && page == "PcPh22\n"
    {
      page, hindex, kept := "PcPh22\n", [], [];
    }

    method Duplicate(key: int) returns (dup: bool)
      ensures dup <==> !Accepted(Keys(hindex), key)
    {
      var i := 0;
      while i < |hindex| - 1
        invariant 0 <= i && (|hindex| <= 1 ==> i == 0)
        invariant i > 0 ==> hindex[|hindex| - 1].key != key
      {
        if hindex[|hindex| - 1].key == key {
          return true;
        }
        i := i + 1;
      }
      return false;
    }

    method Write(key: int, x: Parts)
      requires Valid() && NUL !in x.oneline && NUL !in x.text
      modifies this
      ensures Valid() && kept == old(kept) + [Kept(key, x)]
      ensures page == old(page) + Written(x)
    {
      EntryWritten(page, hindex, kept, key, x);
      var was := page;
      page := page + ("\n@ " + x.name + " ");
      var oneline := |page|;
      page := page + (x.oneline + [NUL]);
      hindex := hindex + [Slot(key, oneline, |page|)];
      page := page + (x.text + [NUL]);
      assert page == was + Written(x);
      kept := kept + [Kept(key, x)];
    }

    /** newentry; keyOf is what a name or number stands for, if anything. */
    method NewEntry(e: string, keyOf: string -> Option<int>) returns (x: Parts, ghost sep: string, ghost rest: string)
      requires Valid() && IsEntry(e)
      modifies this
      ensures Valid() && Splits(e, x, sep, rest)
      ensures kept == KeepNext(old(kept), x, keyOf(x.name))
      ensures page == old(page) + if kept == old(kept) then [] else Written(x)
    {
      x, sep, rest := ParseEntry(e);
      var key := keyOf(x.name);
      if key.None? {
        return;
      }
      var dup := Duplicate(key.value);
      KeysAreKept(page, hindex, kept);
      if !dup {
        Write(key.value, x);
      }
    }

    /**
     All the entries of a run: the index holds, in order, those the duplicate check lets through,
     and every slot leads to the texts of its entry.
     */
    method Compile(es: seq<string>, keyOf: string -> Option<int>)
      returns (ghost parts: seq<Parts>, ghost seps: seq<string>, ghost rests: seq<string>)
      requires Valid() && kept == [] && forall i :: 0 <= i < |es| ==> IsEntry(es[i])
      modifies this
      ensures Valid() && kept == KeepAll(parts, keyOf)
      ensures AllSplit(es, parts, seps, rests)
    {
      parts, seps, rests := [], [], [];
      var i := 0;
      while i < |es|
        invariant 0 <= i <= |es| && Valid() && kept == KeepAll(parts, keyOf)
        invariant AllSplit(es[..i], parts, seps, rests)
      {
        var x, sep, rest := NewEntry(es[i], keyOf);
        assert (parts + [x])[..|parts|] == parts;
        parts, seps, rests := parts + [x], seps + [sep], rests + [rest];
        i := i + 1;
      }
      assert es[..i] == es;
    }
  }

  /** Entry i has parts[i]. */
  predicate AllSplit(es: seq<string>, parts: seq<Parts>, seps: seq<string>, rests: seq<string>) {
    && |parts| == |seps| == |rests| == |es|
    && forall i :: 0 <= i < |es| ==> Splits(es[i], parts[i], seps[i], rests[i])
  }

  function Keys(slots: seq<Slot>): seq<int> {
    seq(|slots|, i requires 0 <= i < |slots| => slots[i].key)
  }

  function KeysOf(kept: seq<Kept>): seq<int> {
    seq(|kept|, i requires 0 <= i < |kept| => kept[i].key)
  }

  lemma KeysAreKept(page: string, slots: seq<Slot>, kept: seq<Kept>)
    requires Indexed(page, slots, kept)
    ensures Keys(slots) == KeysOf(kept)
  {
  }

  /** What is kept after one more entry, with the key found for its name. */
  function KeepNext(kept: seq<Kept>, x: Parts, key: Option<int>): seq<Kept> {
    if key.Some? && Accepted(KeysOf(kept), key.value) then kept + [Kept(key.value, x)] else kept
  }

  /** What is kept of a run of entries. */
  function KeepAll(parts: seq<Parts>, keyOf: string -> Option<int>): seq<Kept> {
    if parts == [] then []
    else
      var x := parts[|parts| - 1];
      KeepNext(KeepAll(parts[..|parts| - 1], keyOf), x, keyOf(x.name))
  }

  /** The keys of those entries whose name or number was understood. */
  function Known(parts: seq<Parts>, keyOf: string -> Option<int>): seq<int> {
    if parts == [] then []
    else
      var k := keyOf(parts[|parts| - 1].name);
      Known(parts[..|parts| - 1], keyOf) + (if k.Some? then [k.value] else [])
  }

  lemma {:induction false} KeepAllKeys(parts: seq<Parts>, keyOf: string -> Option<int>)
    ensures KeysOf(KeepAll(parts, keyOf)) == KeptKeys(Known(parts, keyOf))
  {
    if parts != [] {
      var front, x := parts[..|parts| - 1], parts[|parts| - 1];
      KeepAllKeys(front, keyOf);
      if keyOf(x.name).Some? {
        var all := Known(parts, keyOf);
        assert all[..|all| - 1] == Known(front, keyOf);
        var k := KeepAll(front, keyOf);
        assert KeysOf(k + [Kept(keyOf(x.name).value, x)]) == KeysOf(k) + [keyOf(x.name).value];
      } else {
        assert Known(parts, keyOf) == Known(front, keyOf);
      }
    }
  }

  // ---------- duplicate keys ----------

  /** The keys kept out of a run of entries. */
  function KeptKeys(keys: seq<int>): seq<int> {
    if keys == [] then []
    else
      var k, key := KeptKeys(keys[..|keys| - 1]), keys[|keys| - 1];
      if Accepted(k, key) then k + [key] else k
  }

  /** A repeated key follows its own kind directly, with some other key further back. */
  predicate CaughtAt(keys: seq<int>, j: nat)
    requires j < |keys|
  {
    keys[j] in keys[..j] ==> keys[j] == keys[j - 1] && exists i :: 0 <= i < j && keys[i] != keys[j]
  }

  predicate AllCaught(keys: seq<int>) {
    forall j :: 0 <= j < |keys| ==> CaughtAt(keys, j)
  }

  lemma CaughtSnoc(keys: seq<int>, key: int)
    ensures AllCaught(keys + [key]) <==> AllCaught(keys) && CaughtAt(keys + [key], |keys|)
  {
    var all := keys + [key];
    forall j | 0 <= j < |keys| ensures CaughtAt(all, j) <==> CaughtAt(keys, j) {
      assert all[..j] == keys[..j];
      assert forall i :: 0 <= i <= j ==> all[i] == keys[i];
    }
  }

  /** What is kept of keys whose repetitions are all caught. */
  ghost predicate Faithful(keys: seq<int>, k: seq<int>) {
    && Distinct(k)
    && (forall x :: x in k <==> x in keys)
    && (keys != [] ==> k != [] && k[|k| - 1] == keys[|keys| - 1])
  }

  lemma StepKept(keys: seq<int>, k: seq<int>, key: int)
    requires Faithful(keys, k)
    ensures var k' := if Accepted(k, key) then k + [key] else k;
      if CaughtAt(keys + [key], |keys|) then Faithful(keys + [key], k') else !Distinct(k')
  {
    var all := keys + [key];
    assert all[..|keys|] == keys;
    assert |k| < 2 || k[0] != k[1];
    if key in keys {
      assert key in k;
      var h :| 0 <= h < |k| && k[h] == key;
      assert (k + [key])[h] == (k + [key])[|k|];
      if key == keys[|keys| - 1] {
        if exists i :: 0 <= i < |keys| && all[i] != key {
          var i :| 0 <= i < |keys| && all[i] != key;
          assert keys[i] in k;
          assert |k| >= 2;
        } else {
          assert forall i :: 0 <= i < |k| ==> k[i] in keys;
          assert forall i :: 0 <= i < |keys| ==> all[i] == keys[i] == key;
        }
      }
    }
  }

  /** The kept keys are distinct exactly when every repetition comes in a form the check catches. */
  lemma {:induction false} DistinctIffCaught(keys: seq<int>)
    ensures Distinct(KeptKeys(keys)) <==> AllCaught(keys)
    ensures AllCaught(keys) ==> Faithful(keys, KeptKeys(keys))
  {
    if keys != [] {
      var ks, key := keys[..|keys| - 1], keys[|keys| - 1];
      assert keys == ks + [key];
      DistinctIffCaught(ks);
      CaughtSnoc(ks, key);
      if AllCaught(ks) {
        StepKept(ks, KeptKeys(ks), key);
      } else {
        assert KeptKeys(ks) <= KeptKeys(keys);
      }
    }
  }

  /** Neither the second of two equal entries at the start nor a later repetition is noticed. */
  lemma RepetitionsKept(a: int, b: int)
    requires a != b
    ensures KeptKeys([a, a]) == [a, a]
    ensures KeptKeys([a, b, a]) == [a, b, a]
    ensures KeptKeys([a, b, b]) == [a, b]
  {
    assert [a][..0] == [] && KeptKeys([a]) == [a];
    assert [a, a][..1] == [a] && [a, b][..1] == [a] && KeptKeys([a, b]) == [a, b];
    assert [a, b, a][..2] == [a, b] && [a, b, b][..2] == [a, b];
  }

  // ---------- which entries are kept ----------

  /** Entry i is the first one with the key. */
  predicate FirstWith(parts: seq<Parts>, keyOf: string -> Option<int>, key: int, i: int) {
    && 0 <= i < |parts| && keyOf(parts[i].name) == Some(key)
    && forall j :: 0 <= j < i ==> keyOf(parts[j].name) != Some(key)
  }

  /** Every kept entry is one of the run, under its own key. */
  lemma {:induction false} KeptIsFromRun(parts: seq<Parts>, keyOf: string -> Option<int>, k: Kept)
    requires k in KeepAll(parts, keyOf)
    ensures exists i :: 0 <= i < |parts| && parts[i] == k.parts && keyOf(parts[i].name) == Some(k.key)
  {
    var n := |parts| - 1;
    if k in KeepAll(parts[..n], keyOf) {
      KeptIsFromRun(parts[..n], keyOf, k);
    } else {
      assert parts[n] == k.parts;
    }
  }

  lemma {:induction false} KnownHas(parts: seq<Parts>, keyOf: string -> Option<int>, key: int)
    ensures key in Known(parts, keyOf) <==> exists i :: 0 <= i < |parts| && keyOf(parts[i].name) == Some(key)
  {
    if parts != [] {
      var n := |parts| - 1;
      KnownHas(parts[..n], keyOf, key);
      assert forall i :: 0 <= i < n ==> parts[..n][i] == parts[i];
      if i :| 0 <= i < |parts| && keyOf(parts[i].name) == Some(key) && i < n {
        assert keyOf(parts[..n][i].name) == Some(key);
      }
    }
  }

  /** The check never loses a key altogether. */
  lemma {:induction false} NoKeyLost(keys: seq<int>, key: int)
    ensures key in KeptKeys(keys) <==> key in keys
  {
    if keys != [] {
      NoKeyLost(keys[..|keys| - 1], key);
    }
  }

  /** Where every repetition is caught, the first entry of each key is the one that is kept. */
  lemma {:induction false} FirstIsKept(parts: seq<Parts>, keyOf: string -> Option<int>, key: int, i: nat)
    requires AllCaught(Known(parts, keyOf)) && FirstWith(parts, keyOf, key, i)
    ensures Kept(key, parts[i]) in KeepAll(parts, keyOf)
    decreases |parts|
  {
    var n := |parts| - 1;
    var front, x := parts[..n], parts[n];
    if keyOf(x.name).Some? {
      CaughtSnoc(Known(front, keyOf), keyOf(x.name).value);
    } else {
      assert Known(parts, keyOf) == Known(front, keyOf);
    }
    if i < n {
      FirstIsKept(front, keyOf, key, i);
    } else {
      KnownHas(front, keyOf, key);
      NoKeyLost(Known(front, keyOf), key);
      KeepAllKeys(front, keyOf);
      var k := KeepAll(front, keyOf);
      assert forall j :: 0 <= j < |k| ==> KeysOf(k)[j] == k[j].key;
    }
  }
}
