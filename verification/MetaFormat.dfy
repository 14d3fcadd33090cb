/**
 The layout of metadata records, and that loading gives back what was written in that layout.
 */
module MetaFormat {
  import opened Basics
  import opened Framing
  import opened LoadMeta

  predicate InInt(n: int) { -MOD32 / 2 <= n < MOD32 / 2 }

  function PutInt(n: int): (b: Bytes)
    requires InInt(n)
    ensures |b| == 4 && Signed(Get32(b)) == n
  {
    var u := if n < 0 then n + MOD32 else n;
    Put32RoundTrip(u);
    Put32(u)
  }

  predicate AllInt(ns: seq<int>) { forall i :: 0 <= i < |ns| ==> InInt(ns[i]) }

  function Words(ns: seq<int>): (b: Bytes)
    requires AllInt(ns)
    ensures |b| == 4 * |ns|
  {
    if ns == [] then [] else PutInt(ns[0]) + Words(ns[1..])
  }

  /** Strings packed one behind the other, each with its NUL. */
  function Strings(names: seq<Bytes>): Bytes {
    if names == [] then [] else names[0] + [0] + Strings(names[1..])
  }

  /** Reading from p up to a NUL byte gives name. */
  predicate IsString(b: Bytes, p: int, name: Bytes) {
    0 <= p && p + |name| < |b| && b[p..p + |name|] == name && b[p + |name|] == 0 && 0 !in name
  }

  lemma {:induction false} StringAt(head: Bytes, names: seq<Bytes>, i: nat)
    requires i < |names| && 0 !in names[i]
    ensures IsString(head + Strings(names), |head| + |Strings(names[..i])|, names[i])
    ensures |Strings(names[..i])| < |Strings(names)|
    decreases i
  {
    if i == 0 {
      assert names[..0] == [];
    } else {
      var head' := head + names[0] + [0];
      StringAt(head', names[1..], i - 1);
      assert head' + Strings(names[1..]) == head + Strings(names);
      assert names[..i][1..] == names[1..][..i - 1] && names[..i][0] == names[0];
    }
  }

  function Offsets(names: seq<Bytes>): seq<int> {
    seq(|names|, i requires 0 <= i < |names| => |Strings(names[..i])|)
  }

  datatype Rec =
    | DescRec(pmid: int, attrs: Bytes, names: seq<Bytes>)
    | InDomRec(sec: int, usec: int, indom: int, numinst: int, ids: seq<int>, names: seq<Bytes>)
    | OtherRec(kind: int, body: Bytes)

  predicate GoodInDom(r: Rec) {
    && r.InDomRec? && AllInt([r.sec, r.usec, r.indom, r.numinst]) && AllInt(r.ids)
    && |r.ids| == |r.names| == (if r.numinst > 0 then r.numinst else 0)
    && |Strings(r.names)| < MOD32 / 2
    && forall i :: 0 <= i < |r.names| ==> 0 !in r.names[i]
  }

  lemma OffsetsFit(r: Rec)
    requires GoodInDom(r)
    ensures AllInt(Offsets(r.names))
  {
    forall i | 0 <= i < |r.names| ensures InInt(Offsets(r.names)[i]) {
      StringAt([], r.names, i);
    }
  }

  function InDomBody(r: Rec): Bytes
    requires GoodInDom(r)
  {
    OffsetsFit(r);
    Words([r.sec, r.usec, r.indom, r.numinst]) + (Words(r.ids) + (Words(Offsets(r.names)) + Strings(r.names)))
  }

  predicate GoodNames(names: seq<Bytes>) {
    forall i :: 0 <= i < |names| ==> |names[i]| < MAXPATHLEN
  }

  function NamesSize(names: seq<Bytes>): nat {
    if names == [] then 0 else 4 + |names[0]| + NamesSize(names[1..])
  }

  /** Names with their lengths, as in a version 2 descriptor. */
  function NameBytes(names: seq<Bytes>): (b: Bytes)
    requires GoodNames(names)
    ensures |b| == NamesSize(names)
  {
    if names == [] then [] else PutInt(|names[0]|) + names[0] + NameBytes(names[1..])
  }

  predicate Good(r: Rec, version2: bool) {
    match r
    case DescRec(pmid, attrs, names) =>
      && InInt(pmid) && |attrs| == 16 && GoodNames(names) && InInt(|names|) && (version2 || names == [])
    case InDomRec(_, _, _, _, _, _) => GoodInDom(r)
    case OtherRec(kind, _) => InInt(kind) && kind != TYPE_DESC && kind != TYPE_INDOM
  }

  function Kind(r: Rec): int {
    match r
    case DescRec(_, _, _) => TYPE_DESC
    case InDomRec(_, _, _, _, _, _) => TYPE_INDOM
    case OtherRec(kind, _) => kind
  }

  function RecBody(r: Rec, version2: bool): Bytes
    requires Good(r, version2)
  {
    match r
    case DescRec(pmid, attrs, names) =>
      PutInt(pmid) + attrs + (if version2 then PutInt(|names|) + NameBytes(names) else [])
    case InDomRec(_, _, _, _, _, _) => InDomBody(r)
    case OtherRec(_, body) => body
  }

  predicate Writable(r: Rec, version2: bool) {
    Good(r, version2) && InInt(12 + |RecBody(r, version2)|)
  }

  function Encode(r: Rec, version2: bool): Bytes
    requires Writable(r, version2)
  {
    var body := RecBody(r, version2);
    PutInt(12 + |body|) + (PutInt(Kind(r)) + (body + PutInt(12 + |body|)))
  }

  // ---------- the layout, field by field ----------

  /** The bytes s stand in f at position p. */
  predicate At(f: Bytes, p: nat, s: Bytes) {
    p + |s| <= |f| && f[p..p + |s|] == s
  }

  /** The word at position p of f is n. */
  predicate WordIs(f: Bytes, p: nat, n: int) {
    p + 4 <= |f| && Word(f, p) == n
  }

  predicate WordsAre(f: Bytes, p: nat, ns: seq<int>) {
    forall i :: 0 <= i < |ns| ==> WordIs(f, p + 4 * i, ns[i])
  }

  predicate InDomLayout(b: Bytes, r: Rec)
    requires r.InDomRec?
  {
    var n := |r.ids|;
    && WordIs(b, 0, r.sec) && WordIs(b, 4, r.usec) && WordIs(b, 8, r.indom) && WordIs(b, 12, r.numinst)
    && WordsAre(b, 16, r.ids) && WordsAre(b, 16 + 4 * n, Offsets(r.names))
    && 16 + 8 * n <= |b| && b[16 + 8 * n..] == Strings(r.names)
  }

  predicate NamesLayout(f: Bytes, p: nat, names: seq<Bytes>)
    decreases |names|
  {
    names != [] ==>
      && WordIs(f, p, |names[0]|) && At(f, p + 4, names[0])
      && NamesLayout(f, p + 4 + |names[0]|, names[1..])
  }

  predicate DescLayout(f: Bytes, p: nat, r: Rec, version2: bool)
    requires r.DescRec?
  {
    && WordIs(f, p, r.pmid) && At(f, p + 4, r.attrs)
    && (version2 ==> WordIs(f, p + 20, |r.names|) && NamesLayout(f, p + 24, r.names))
  }

  predicate FrameLayout(f: Bytes, p: nat, kind: int, len: int) {
    12 <= len && WordIs(f, p, len) && WordIs(f, p + 4, kind) && WordIs(f, p + len - 4, len)
  }

  // ---------- written records have the layout ----------

  lemma SplitAt(f: Bytes, p: nat, a: Bytes, b: Bytes)
    requires At(f, p, a + b)
    ensures At(f, p, a) && At(f, p + |a|, b)
  {
    var s := f[p..p + |a| + |b|];
    assert s[..|a|] == a && s[|a|..] == b;
  }

  lemma PutWordIs(f: Bytes, p: nat, n: int)
    requires InInt(n) && At(f, p, PutInt(n))
    ensures WordIs(f, p, n)
  {
    var w := PutInt(n);
    assert f[p..p + 4] == w;
    assert f[p] == w[0] && f[p + 1] == w[1] && f[p + 2] == w[2] && f[p + 3] == w[3];
  }

  lemma WordsAreCons(f: Bytes, p: nat, ns: seq<int>)
    requires ns != [] && WordIs(f, p, ns[0]) && WordsAre(f, p + 4, ns[1..])
    ensures WordsAre(f, p, ns)
  {
    forall i | 0 < i < |ns| ensures WordIs(f, p + 4 * i, ns[i]) {
      assert WordIs(f, p + 4 + 4 * (i - 1), ns[1..][i - 1]);
    }
  }

  lemma {:induction false} PutWordsAre(f: Bytes, p: nat, ns: seq<int>)
    requires AllInt(ns) && At(f, p, Words(ns))
    ensures WordsAre(f, p, ns)
    decreases |ns|
  {
    if ns != [] {
      SplitAt(f, p, PutInt(ns[0]), Words(ns[1..]));
      PutWordIs(f, p, ns[0]);
      PutWordsAre(f, p + 4, ns[1..]);
      WordsAreCons(f, p, ns);
    }
  }

  lemma SplitFour(b: Bytes, w: Bytes, x: Bytes, y: Bytes, z: Bytes)
    requires b == w + (x + (y + z))
    ensures At(b, 0, w) && At(b, |w|, x) && At(b, |w| + |x|, y) && b[|w| + |x| + |y|..] == z
  {
  }

  lemma HeadWords(b: Bytes, r: Rec)
    requires r.InDomRec? && AllInt([r.sec, r.usec, r.indom, r.numinst])
    requires At(b, 0, Words([r.sec, r.usec, r.indom, r.numinst]))
    ensures WordIs(b, 0, r.sec) && WordIs(b, 4, r.usec) && WordIs(b, 8, r.indom) && WordIs(b, 12, r.numinst)
  {
    PutWordsAre(b, 0, [r.sec, r.usec, r.indom, r.numinst]);
    FourWords(b, r.sec, r.usec, r.indom, r.numinst);
  }

  lemma InDomHasLayout(r: Rec)
    requires GoodInDom(r)
    ensures InDomLayout(InDomBody(r), r)
  {
    OffsetsFit(r);
    var b, offs := InDomBody(r), Offsets(r.names);
    SplitFour(b, Words([r.sec, r.usec, r.indom, r.numinst]), Words(r.ids), Words(offs), Strings(r.names));
    HeadWords(b, r);
    PutWordsAre(b, 16, r.ids);
    PutWordsAre(b, 16 + 4 * |r.ids|, offs);
  }

  lemma FourWords(b: Bytes, w: int, x: int, y: int, z: int)
    requires WordsAre(b, 0, [w, x, y, z])
    ensures WordIs(b, 0, w) && WordIs(b, 4, x) && WordIs(b, 8, y) && WordIs(b, 12, z)
  {
    var ns := [w, x, y, z];
    assert WordIs(b, 0 + 4 * 0, ns[0]) && WordIs(b, 0 + 4 * 1, ns[1]);
    assert WordIs(b, 0 + 4 * 2, ns[2]) && WordIs(b, 0 + 4 * 3, ns[3]);
  }

  lemma {:induction false} NamesHaveLayout(f: Bytes, p: nat, names: seq<Bytes>)
    requires GoodNames(names) && At(f, p, NameBytes(names))
    ensures NamesLayout(f, p, names)
    decreases |names|
  {
    if names != [] {
      var len := PutInt(|names[0]|);
      SplitAt(f, p, len + names[0], NameBytes(names[1..]));
      SplitAt(f, p, len, names[0]);
      PutWordIs(f, p, |names[0]|);
      NamesHaveLayout(f, p + 4 + |names[0]|, names[1..]);
    }
  }

  lemma CountedNamesHaveLayout(f: Bytes, p: nat, names: seq<Bytes>)
    requires GoodNames(names) && InInt(|names|) && At(f, p, PutInt(|names|) + NameBytes(names))
    ensures WordIs(f, p, |names|) && NamesLayout(f, p + 4, names)
  {
    SplitAt(f, p, PutInt(|names|), NameBytes(names));
    PutWordIs(f, p, |names|);
    NamesHaveLayout(f, p + 4, names);
  }

  lemma DescHasLayout(f: Bytes, p: nat, r: Rec, version2: bool)
    requires r.DescRec? && Good(r, version2) && At(f, p, RecBody(r, version2))
    ensures DescLayout(f, p, r, version2)
  {
    var head, tail := PutInt(r.pmid), if version2 then PutInt(|r.names|) + NameBytes(r.names) else [];
    SplitAt(f, p, head + r.attrs, tail);
    SplitAt(f, p, head, r.attrs);
    PutWordIs(f, p, r.pmid);
    if version2 {
      CountedNamesHaveLayout(f, p + 20, r.names);
    }
  }

  lemma HasFraming(f: Bytes, p: nat, kind: int, body: Bytes)
    requires InInt(12 + |body|) && InInt(kind)
    requires At(f, p, PutInt(12 + |body|) + (PutInt(kind) + (body + PutInt(12 + |body|))))
    ensures At(f, p + 8, body) && FrameLayout(f, p, kind, 12 + |body|)
  {
    var len := PutInt(12 + |body|);
    SplitAt(f, p, len, PutInt(kind) + (body + len));
    SplitAt(f, p + 4, PutInt(kind), body + len);
    SplitAt(f, p + 8, body, len);
    PutWordIs(f, p, 12 + |body|);
    PutWordIs(f, p + 4, kind);
    PutWordIs(f, p + 8 + |body|, 12 + |body|);
  }

  // ---------- what has the layout is read back ----------

  /** The loaded form of an instance domain holds what the record was made from. */
  predicate SameInDom(d: InDom, r: Rec)
    requires r.InDomRec?
  {
    && d.sec == r.sec && d.usec == r.usec && d.indom == r.indom && d.numinst == r.numinst
    && d.instlist == r.ids
    && |d.namelist| == |r.names|
    && forall i :: 0 <= i < |r.names| ==> IsString(d.buf, d.namelist[i], r.names[i])
  }

  lemma NameOffset(b: Bytes, r: Rec, n: nat, i: nat)
    requires GoodInDom(r) && InDomLayout(b, r) && i < n == |r.ids|
    ensures NameList(b, n)[i] == 16 + 8 * n + |Strings(r.names[..i])|
  {
    assert WordIs(b, 16 + 4 * n + 4 * i, Offsets(r.names)[i]);
  }

  lemma StringIn(b: Bytes, base: nat, names: seq<Bytes>, i: nat)
    requires base <= |b| && b[base..] == Strings(names) && i < |names| && 0 !in names[i]
    ensures IsString(b, base + |Strings(names[..i])|, names[i])
  {
    StringAt(b[..base], names, i);
    assert b == b[..base] + Strings(names);
  }

  lemma ReadsIds(b: Bytes, r: Rec, n: nat)
    requires GoodInDom(r) && n == |r.ids| && 16 + 8 * n <= |b| && WordsAre(b, 16, r.ids)
    ensures InstList(b, n) == r.ids
  {
    forall i | 0 <= i < n ensures InstList(b, n)[i] == r.ids[i] {
      assert WordIs(b, 16 + 4 * i, r.ids[i]);
    }
  }

  lemma ReadsInstanceNames(b: Bytes, r: Rec, n: nat)
    requires GoodInDom(r) && InDomLayout(b, r) && n == |r.ids|
    ensures forall i :: 0 <= i < n ==> IsString(b, NameList(b, n)[i], r.names[i])
  {
    forall i | 0 <= i < n ensures IsString(b, NameList(b, n)[i], r.names[i]) {
      NameOffset(b, r, n, i);
      StringIn(b, 16 + 8 * n, r.names, i);
    }
  }

  /** Instance numbers and names come back from the record buffer. */
  lemma ReadsInDom(b: Bytes, r: Rec)
    requires GoodInDom(r) && InDomLayout(b, r)
    ensures ParseInDom(b).Some? && SameInDom(ParseInDom(b).value, r)
  {
    ReadsIds(b, r, |r.ids|);
    ReadsInstanceNames(b, r, |r.ids|);
  }

  /** Steps g give the names one behind the other. */
  predicate Gives(g: nat -> NameStep, p: nat, names: seq<Bytes>)
    decreases |names|
  {
    names != [] ==>
      var q := p + 4 + |names[0]|;
      g(p) == AName(names[0], q) && Gives(g, q, names[1..])
  }

  lemma {:induction false} GivenNames(g: nat -> NameStep, p: nat, names: seq<Bytes>)
    requires Gives(g, p, names)
    ensures NamesWith(g, p, |names|) == Names(names, p + NamesSize(names))
    decreases |names|
  {
    if names != [] {
      GivenNames(g, p + 4 + |names[0]|, names[1..]);
      assert [names[0]] + names[1..] == names;
    }
  }

  lemma {:induction false} LayoutGives(f: Bytes, p: nat, names: seq<Bytes>)
    requires GoodNames(names) && NamesLayout(f, p, names)
    ensures Gives(NameReader(f), p, names)
    decreases |names|
  {
    if names != [] {
      assert NameAt(f, p) == AName(names[0], p + 4 + |names[0]|);
      LayoutGives(f, p + 4 + |names[0]|, names[1..]);
    }
  }

  lemma ReadsNames(f: Bytes, p: nat, names: seq<Bytes>)
    requires GoodNames(names) && NamesLayout(f, p, names)
    ensures ParseNames(f, p, |names|) == Names(names, p + NamesSize(names))
  {
    LayoutGives(f, p, names);
    GivenNames(NameReader(f), p, names);
  }

  lemma ReadsDesc(f: Bytes, p: nat, r: Rec, len: int, version2: bool)
    requires r.DescRec? && Good(r, version2) && 4 <= p && p + 8 <= |f| && len > 0
    requires DescLayout(f, p + 8, r, version2)
    ensures Body(f, p, len, TYPE_DESC, version2)
         == Got(ADesc(r.pmid, r.attrs, r.names), p + 8 + |RecBody(r, version2)|)
  {
    if version2 {
      ReadsNames(f, p + 32, r.names);
    }
  }

  lemma ReadsFramed(f: Bytes, p: nat, kind: int, len: int, item: Item, version2: bool)
    requires 4 <= p && FrameLayout(f, p, kind, len)
    requires Body(f, p, len, kind, version2) == Got(item, p + len - 4)
    ensures Next(f, p, version2) == Got(item, p + len)
  {
  }

  predicate Same(x: Item, r: Rec) {
    match r
    case DescRec(pmid, attrs, names) => x == ADesc(pmid, attrs, names)
    case InDomRec(_, _, _, _, _, _) => x.AnInDom? && SameInDom(x.value, r)
    case OtherRec(_, _) => x == Skipped
  }

  lemma ReadsBody(f: Bytes, p: nat, r: Rec, body: Bytes, version2: bool) returns (item: Item)
    requires Good(r, version2) && body == RecBody(r, version2)
    requires 4 <= p && p + 8 <= |f| && At(f, p + 8, body)
    ensures Body(f, p, 12 + |body|, Kind(r), version2) == Got(item, p + 8 + |body|) && Same(item, r)
  {
    match r
    case DescRec(pmid, attrs, names) =>
      DescHasLayout(f, p + 8, r, version2);
      ReadsDesc(f, p, r, 12 + |body|, version2);
      item := ADesc(pmid, attrs, names);
    case InDomRec(_, _, _, _, _, _) =>
      InDomHasLayout(r);
      ReadsInDom(body, r);
      item := AnInDom(ParseInDom(body).value);
    case OtherRec(_, _) =>
      item := Skipped;
  }

  /** A record written in this layout is read back whole. */
  lemma ReadsBack(f: Bytes, p: nat, r: Rec, version2: bool)
    requires 4 <= p && Writable(r, version2) && At(f, p, Encode(r, version2))
    ensures var s := Next(f, p, version2);
            s.Got? && s.next == p + |Encode(r, version2)| && Same(s.item, r)
  {
    var body := RecBody(r, version2);
    HasFraming(f, p, Kind(r), body);
    var item := ReadsBody(f, p, r, body, version2);
    ReadsFramed(f, p, Kind(r), 12 + |body|, item, version2);
  }

  predicate AllWritable(rs: seq<Rec>, version2: bool) {
    forall i :: 0 <= i < |rs| ==> Writable(rs[i], version2)
  }

  /** The bytes of each record, and of all of them one behind the other. */
  function Encodings(rs: seq<Rec>, version2: bool): seq<Bytes>
    requires AllWritable(rs, version2)
  {
    seq(|rs|, i requires 0 <= i < |rs| => Encode(rs[i], version2))
  }

  function EncodeAll(rs: seq<Rec>, version2: bool): Bytes
    requires AllWritable(rs, version2)
  {
    Concat(Encodings(rs, version2))
  }

  predicate AllSame(items: seq<Item>, rs: seq<Rec>) {
    |items| == |rs| && forall i :: 0 <= i < |rs| ==> Same(items[i], rs[i])
  }

  /** The steps of the loading loop on f, as a function of the position alone. */
  function Reader(f: Bytes, version2: bool): nat -> Step {
    (q: nat) => if 4 <= q then Next(f, q, version2) else Stop(Done, [])
  }

  /** All that steps g find from p on; a reader's steps go forward and stay inside the file. */
  function ScanWith(g: nat -> Step, end: nat, p: nat): Loaded
    decreases if p <= end then end - p else 0
  {
    var s := g(p);
    if s.Stop? then Loaded([], s.outcome, s.entered)
    else if !(p < s.next <= end) then Loaded([], Done, [])
    else Prefixed([s.item], ScanWith(g, end, s.next))
  }

  lemma {:induction false} ScanIsWith(f: Bytes, p: nat, version2: bool)
    requires 4 <= p
    ensures Scan(f, p, version2) == ScanWith(Reader(f, version2), |f|, p)
    decreases |f| - p
  {
    var s := Next(f, p, version2);
    assert Reader(f, version2)(p) == s;
    if s.Got? {
      NextGoesForward(f, p, version2);
      ScanIsWith(f, s.next, version2);
    }
  }

  /** Steps g find at p a record that r was written as, ending at q. */
  predicate Finds(g: nat -> Step, p: nat, r: Rec, q: nat) {
    p < q && g(p).Got? && g(p).next == q && Same(g(p).item, r)
  }

  lemma ReaderFinds(f: Bytes, p: nat, r: Rec, version2: bool)
    requires 4 <= p && Writable(r, version2) && At(f, p, Encode(r, version2))
    ensures Finds(Reader(f, version2), p, r, p + |Encode(r, version2)|)
  {
    ReadsBack(f, p, r, version2);
    NextGoesForward(f, p, version2);
  }

  /** Wherever the bytes e stand in f, steps g find r there. */
  ghost predicate FindsWherever(g: nat -> Step, f: Bytes, e: Bytes, r: Rec) {
    forall p: nat :: 4 <= p && At(f, p, e) ==> Finds(g, p, r, p + |e|)
  }

  lemma ReaderFindsWherever(f: Bytes, r: Rec, version2: bool)
    requires Writable(r, version2)
    ensures FindsWherever(Reader(f, version2), f, Encode(r, version2), r)
  {
    forall p: nat | 4 <= p && At(f, p, Encode(r, version2))
      ensures Finds(Reader(f, version2), p, r, p + |Encode(r, version2)|)
    {
      ReaderFinds(f, p, r, version2);
    }
  }

  predicate FindsAt(g: nat -> Step, ps: seq<nat>, rs: seq<Rec>, i: nat)
    requires |ps| == |rs| + 1 && i < |rs|
  {
    Finds(g, ps[i], rs[i], ps[i + 1]) && ps[i + 1] <= ps[|rs|]
  }

  /** A scan whose steps find all of rs finds them all. */
  lemma {:induction false} ScanFinds(g: nat -> Step, ps: seq<nat>, rs: seq<Rec>)
    requires |ps| == |rs| + 1 && g(ps[|rs|]) == Stop(Done, [])
    requires forall i :: 0 <= i < |rs| ==> FindsAt(g, ps, rs, i)
    ensures var l := ScanWith(g, ps[|rs|], ps[0]); l.outcome == Done && l.entered == [] && AllSame(l.items, rs)
    decreases |rs|
  {
    if rs != [] {
      forall i | 0 <= i < |rs| - 1 ensures FindsAt(g, ps[1..], rs[1..], i) {
        assert FindsAt(g, ps, rs, i + 1);
      }
      ScanFinds(g, ps[1..], rs[1..]);
      assert FindsAt(g, ps, rs, 0);
    }
  }

  function Starts(p: nat, es: seq<Bytes>): seq<nat> {
    seq(|es| + 1, i requires 0 <= i <= |es| => p + |Concat(es[..i])|)
  }

  lemma ChunkAt(f: Bytes, p: nat, es: seq<Bytes>, i: nat)
    requires At(f, p, Concat(es)) && i < |es|
    ensures At(f, p + |Concat(es[..i])|, es[i])
    ensures Concat(es[..i + 1]) == Concat(es[..i]) + es[i] && |Concat(es[..i + 1])| <= |Concat(es)|
  {
    ConcatAppend(es[..i], es[i..]);
    ConcatAppend(es[..i], [es[i]]);
    assert es == es[..i] + es[i..] && es[..i + 1] == es[..i] + [es[i]];
    assert Concat([es[i]]) == es[i] + Concat([]) == es[i];
    assert es[i..][1..] == es[i + 1..];
    SplitAt(f, p, Concat(es[..i]), Concat(es[i..]));
    SplitAt(f, p + |Concat(es[..i])|, es[i], Concat(es[i + 1..]));
  }

  lemma ChunkFound(g: nat -> Step, f: Bytes, p: nat, es: seq<Bytes>, i: nat, r: Rec)
    requires 4 <= p && At(f, p, Concat(es)) && i < |es| && FindsWherever(g, f, es[i], r)
    ensures Finds(g, Starts(p, es)[i], r, Starts(p, es)[i + 1])
    ensures Starts(p, es)[i + 1] <= p + |Concat(es)|
  {
    ChunkAt(f, p, es, i);
  }

  lemma StartEnds(p: nat, es: seq<Bytes>, ps: seq<nat>)
    requires ps == Starts(p, es)
    ensures ps[0] == p && ps[|es|] == p + |Concat(es)|
  {
    assert es[..0] == [] && es[..|es|] == es;
  }

  // ---------- the chains after loading ----------

  /** The written records of instance domain d, in order. */
  function RecsOf(rs: seq<Rec>, d: int): seq<Rec> {
    if rs == [] then []
    else (if rs[0].InDomRec? && rs[0].indom == d then [rs[0]] else []) + RecsOf(rs[1..], d)
  }

  lemma {:induction false} SelectedMatches(items: seq<Item>, rs: seq<Rec>, d: int)
    requires AllSame(items, rs)
    ensures |Selected(items, d)| == |RecsOf(rs, d)|
    ensures forall k :: 0 <= k < |RecsOf(rs, d)| ==>
      RecsOf(rs, d)[k].InDomRec? && SameInDom(Selected(items, d)[k], RecsOf(rs, d)[k])
  {
    if rs != [] {
      assert AllSame(items[1..], rs[1..]) && Same(items[0], rs[0]);
      SelectedMatches(items[1..], rs[1..], d);
    }
  }

  /** The chain c is the written records q in reverse order, each with its own instances and names. */
  predicate Reversed(c: seq<InDom>, q: seq<Rec>) {
    && |c| == |q|
    && forall k :: 0 <= k < |c| ==> q[|q| - 1 - k].InDomRec? && SameInDom(c[k], q[|q| - 1 - k])
  }

  lemma ChainsMatch(items: seq<Item>, rs: seq<Rec>, d: int)
    requires AllSame(items, rs)
    ensures Reversed(ChainOf(items, d), RecsOf(rs, d))
  {
    SelectedMatches(items, rs, d);
    ChainIsReversed(items, d);
  }

  /** The descriptors written, as they are entered. */
  function DescTable(rs: seq<Rec>): seq<Item> {
    if rs == [] then []
    else (if rs[0].DescRec? then [ADesc(rs[0].pmid, rs[0].attrs, rs[0].names)] else []) + DescTable(rs[1..])
  }

  lemma {:induction false} DescsMatch(items: seq<Item>, rs: seq<Rec>)
    requires AllSame(items, rs)
    ensures Descs(items) == DescTable(rs)
  {
    if rs != [] {
      assert AllSame(items[1..], rs[1..]) && Same(items[0], rs[0]);
      DescsMatch(items[1..], rs[1..]);
      DescsAppend([items[0]], items[1..]);
      DescsOf([], items[0]);
      assert items == [items[0]] + items[1..];
    }
  }

  /** Everything a successful load of the records rs leaves behind. */
  ghost predicate LoadedFrom(l: Loaded, rs: seq<Rec>) {
    && l.outcome == Done && l.entered == [] && AllSame(l.items, rs)
    && Descs(l.items) == DescTable(rs)
    && forall d :: Reversed(ChainOf(l.items, d), RecsOf(rs, d))
  }

  lemma ScanReadsBack(g: nat -> Step, f: Bytes, p: nat, es: seq<Bytes>, rs: seq<Rec>)
    requires 4 <= p && |es| == |rs| && (forall i :: 0 <= i < |rs| ==> FindsWherever(g, f, es[i], rs[i]))
    requires At(f, p, Concat(es)) && p + |Concat(es)| == |f| && g(|f|) == Stop(Done, [])
    ensures LoadedFrom(ScanWith(g, |f|, p), rs)
  {
    var ps := Starts(p, es);
    StartEnds(p, es, ps);
    forall i | 0 <= i < |rs| ensures FindsAt(g, ps, rs, i) {
      ChunkFound(g, f, p, es, i, rs[i]);
    }
    ScanFinds(g, ps, rs);
    DescsMatch(ScanWith(g, |f|, p).items, rs);
    forall d ensures Reversed(ChainOf(ScanWith(g, |f|, p).items, d), RecsOf(rs, d)) {
      ChainsMatch(ScanWith(g, |f|, p).items, rs, d);
    }
  }

  /**
   Loading a file that holds these records from p to its end succeeds and finds all of them, in
   order; the chain of every domain is then its records in reverse.
   */
  lemma LoadReadsBack(f: Bytes, p: nat, rs: seq<Rec>, version2: bool)
    requires 4 <= p && AllWritable(rs, version2)
    requires At(f, p, EncodeAll(rs, version2)) && p + |EncodeAll(rs, version2)| == |f|
    ensures LoadedFrom(Scan(f, p, version2), rs)
  {
    var g, es := Reader(f, version2), Encodings(rs, version2);
    forall i | 0 <= i < |rs| ensures FindsWherever(g, f, es[i], rs[i]) {
      ReaderFindsWherever(f, rs[i], version2);
    }
    ScanReadsBack(g, f, p, es, rs);
    ScanIsWith(f, p, version2);
  }

  /**
   Loading a file of these records behind a label: the descriptor table holds every descriptor once
   and in file order, and the chain of every domain its records in reverse.
   */
  method LoadWritten(front: Bytes, rs: seq<Rec>, version2: bool) returns (outcome: Outcome, ctl: LogCtl)
    requires |front| == LABEL_SIZE && AllWritable(rs, version2)
    ensures outcome == Done && ctl.hashPmid == DescTable(rs)
    ensures forall d :: Reversed(ctl.Chain(d), RecsOf(rs, d))
  {
    var records := EncodeAll(rs, version2);
    var f := front + records;
    assert f[LABEL_SIZE..LABEL_SIZE + |records|] == records;
    LoadReadsBack(f, LABEL_SIZE, rs, version2);
    ctl := new LogCtl();
    outcome := ctl.Load(f, version2);
    ghost var items := Scan(f, LABEL_SIZE, version2).items;
    assert items + [] == items;
  }
}
