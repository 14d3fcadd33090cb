/**
 The assembler loop as it runs in its character buffer (src/newhelp/newhelp.c:368-433), proved
 against the model in HelpAssembler.
 */
module HelpBuffer {
  import opened HelpAssembler

  const SIZE := MAXENTRY + MAXLINE

  /** The C string s stands in b at position p. */
  predicate StringIs(b: seq<char>, p: nat, s: string) {
    p + |s| < |b| && b[p..p + |s|] == s && b[p + |s|] == NUL && NUL !in s
  }

  predicate GoodText(t: string) {
    0 < |t| <= MAXENTRY && NUL !in t && !IsSpace(t[0]) && t[|t| - 1] == '\n'
  }

  /** The buffer b, the cursor bp and the flag skip represent mode m; the cursor is at most MAXENTRY. */
  predicate Holds(b: seq<char>, bp: nat, skip: int, m: Mode) {
    match m
    case Idle => bp == 0 && skip == 1
    case Open(t) => bp == |t| <= |b| && skip == 0 && GoodText(t) && b[..bp] == t
    case Full(t) => bp == MAXENTRY <= |b| && skip == 1 && |t| == MAXENTRY - 1 && StringIs(b, 0, t)
  }

  /** A full-length line without a newline that meets a cursor at MAXENTRY needs one cell more. */
  predicate Spills(m: Mode, c: string) {
    IsChunk(c) && m.Open? && |m.text| == MAXENTRY && |c| == MAXLINE - 1 && c[|c| - 1] != '\n'
    && c[0] != '@' && c[0] != '#'
  }

  function Cursor(m: Mode): nat {
    match m
    case Idle => 0
    case Open(t) => |t|
    case Full(_) => MAXENTRY
  }

  /** The highest cell one pass writes: it holds a NUL afterwards. */
  function Highest(m: Mode, c: string): nat
    requires IsChunk(c)
  {
    if m.Open? && c[0] != '@' && c[0] != '#' then |m.text| + |Ended(c)| else Cursor(m) + |c|
  }

  predicate Bounded(m: Mode) { m.Open? ==> |m.text| <= MAXENTRY }

  /** A pass goes beyond the buffer, and then by one cell, exactly when it spills. */
  lemma BeyondIffSpills(m: Mode, c: string)
    requires IsChunk(c) && Bounded(m)
    ensures Highest(m, c) <= SIZE
    ensures Highest(m, c) == SIZE <==> Spills(m, c)
  {
  }

  method Fgets(buf: array<char>, bp: nat, c: string)
    requires bp + |c| < buf.Length
    modifies buf
    ensures buf[..bp] == old(buf[..bp])
    ensures buf[bp..bp + |c|] == c && buf[bp + |c|] == NUL
    ensures forall i :: bp + |c| < i < buf.Length ==> buf[i] == old(buf[i])
  {
    forall i | 0 <= i < |c| {
      buf[bp + i] := c[i];
    }
    buf[bp + |c|] := NUL;
  }

  /** for (p = bp; *p; p++) */
  method StringEnd(buf: array<char>, p: nat, ghost s: string) returns (q: nat)
    requires StringIs(buf[..], p, s)
    ensures q == p + |s|
  {
    q := p;
    while buf[q] != NUL
      invariant p <= q <= p + |s|
      invariant q < p + |s| ==> buf[q] == buf[..][p..p + |s|][q - p]
      decreases p + |s| - q
    {
      q := q + 1;
    }
  }

  /** The string newentry is called with. */
  method Entry(buf: array<char>, ghost s: string) returns (e: string)
    requires StringIs(buf[..], 0, s)
    ensures e == s
  {
    var q := StringEnd(buf, 0, s);
    e := buf[..q];
    assert buf[..][0..q] == buf[..q];
  }

  lemma TrimIs(t: string, k: nat)
    requires 0 < k <= |t| && t[k - 1] != '\n' && AllNewlines(t[k..])
    ensures TrimEnd(t) == t[..k]
  {
    TrimNewlines(t[..k], t[k..]);
    assert t == t[..k] + t[k..];
  }

  /** The last character in front of the cursor that is kept. */
  method LastKept(buf: array<char>, bp: nat, skip: int, ghost m: Mode) returns (p: nat)
    requires bp > 0 && Holds(buf[..], bp, skip, m)
    ensures p < bp && (m.Full? ==> p == bp - 1)
    ensures m.Open? ==> p + 1 < bp && TrimEnd(m.text) == m.text[..p + 1]
  {
    p := bp - 1;
    ghost var t := m.text;
    assert m.Full? ==> buf[..][p] == NUL;
    assert m.Open? ==> forall i :: 0 <= i < bp ==> buf[i] == buf[..][..bp][i];
    while p > 0 && buf[p] == '\n'
      invariant 0 <= p < bp
      invariant m.Open? ==> AllNewlines(t[p + 1..])
      invariant m.Full? ==> p == bp - 1
    {
      p := p - 1;
    }
    if m.Open? {
      TrimIs(t, p + 1);
    }
  }

  lemma Closed(b: seq<char>, bp: nat, skip: int, m: Mode, p: nat, b': seq<char>)
    requires Holds(b, bp, skip, m) && p < bp < |b| - 1
    requires m.Open? ==> TrimEnd(m.text) == m.text[..p + 1]
    requires m.Full? ==> p == bp - 1
    requires b' == b[p + 1 := '\n'][p + 2 := NUL]
    ensures StringIs(b', 0, if m.Open? then Collapsed(m.text) else m.text)
  {
    if m.Open? {
      var t := m.text;
      assert b'[0..p + 1] == b[..bp][..p + 1] == t[..p + 1];
      assert b'[0..p + 2] == b'[0..p + 1] + ['\n'];
    } else {
      assert b'[0..bp - 1] == b[0..bp - 1];
    }
  }

  /** Close the entry in front of the cursor and hand it on. */
  method CloseEntry(buf: array<char>, bp: nat, skip: int, ghost m: Mode) returns (e: string)
    requires bp > 0 && bp + 1 < buf.Length && Holds(buf[..], bp, skip, m)
    modifies buf
    ensures [e] == Flush(m)
    ensures forall i :: bp + 2 <= i < buf.Length ==> buf[i] == old(buf[i])
    ensures buf[bp + 1] == if m.Full? then NUL else old(buf[bp + 1])
  {
    var p := LastKept(buf, bp, skip, m);
    ghost var b := buf[..];
    buf[p + 1] := '\n';
    buf[p + 2] := NUL;
    Closed(b, bp, skip, m, p, buf[..]);
    e := Entry(buf, if m.Open? then Collapsed(m.text) else m.text);
  }

  lemma StringTail(b: seq<char>, p: nat, s: string)
    requires StringIs(b, p, s) && s != []
    ensures b[p] == s[0] && b[p] != NUL && StringIs(b, p + 1, s[1..])
  {
    assert b[p..p + |s|][0] == b[p];
    assert b[p + 1..p + |s|] == b[p..p + |s|][1..];
  }

  /** while (*bp && isspace(*bp)) bp++ */
  method SkipBlanks(buf: array<char>, bp: nat, ghost s: string) returns (q: nat, ghost rest: string)
    requires StringIs(buf[..], bp, s)
    ensures rest == SkipSpace(s) && StringIs(buf[..], q, rest)
  {
    q, rest := bp, s;
    if s != [] {
      StringTail(buf[..], bp, s);
    }
    while buf[q] != NUL && IsSpace(buf[q])
      invariant SkipSpace(rest) == SkipSpace(s)
      invariant StringIs(buf[..], q, rest) && (rest != [] ==> buf[q] == rest[0] != NUL)
      decreases |rest|
    {
      StringTail(buf[..], q, rest);
      q, rest := q + 1, rest[1..];
      if rest != [] {
        StringTail(buf[..], q, rest);
      }
    }
  }

  /** Give the string from the cursor's line on a newline if it has none; the new cursor. */
  method EndLine(buf: array<char>, bp: nat, ghost t: string) returns (q: nat)
    requires t != [] && StringIs(buf[..], 0, t) && bp <= |t|
    requires |Ended(t)| < buf.Length
    modifies buf
    ensures q == |Ended(t)| && StringIs(buf[..], 0, Ended(t))
    ensures forall i :: |Ended(t)| < i < buf.Length ==> buf[i] == old(buf[i])
  {
    assert buf[..][bp..|t|] == t[bp..] && StringIs(buf[..], bp, t[bp..]);
    var p := StringEnd(buf, bp, t[bp..]);
    assert buf[p - 1] == buf[..][0..|t|][p - 1];
    if buf[p - 1] != '\n' {
      ghost var b := buf[..];
      buf[p] := '\n';
      p := p + 1;
      buf[p] := NUL;
      assert buf[..][0..p] == b[0..p - 1] + ['\n'];
    }
    q := p;
  }

  /** memmove(buf, bp, p - bp + 1) */
  method MoveToStart(buf: array<char>, p: nat, end: nat, ghost s: string)
    requires StringIs(buf[..], p, s) && end == p + |s|
    modifies buf
    ensures StringIs(buf[..], 0, s)
    ensures forall i :: |s| < i < buf.Length ==> buf[i] == old(buf[i])
  {
    ghost var b := buf[..];
    forall i | 0 <= i <= end - p {
      buf[i] := buf[p + i];
    }
    assert buf[..][0..|s|] == b[p..p + |s|];
  }

  lemma {:induction false} SkipKeeps(s: string)
    requires NUL !in s
    ensures NUL !in SkipSpace(s)
  {
    if s != [] && IsSpace(s[0]) {
      SkipKeeps(s[1..]);
    }
  }

  /** Move the entry's first line to the start of the buffer, or drop it when it is blank. */
  method OpenEntry(buf: array<char>, bp: nat, ghost s: string) returns (q: nat, skip: int)
    requires StringIs(buf[..], bp, s) && |s| < MAXLINE && SIZE <= buf.Length
    modifies buf
    ensures Holds(buf[..], q, skip, if SkipSpace(s) == [] then Idle else Open(Ended(SkipSpace(s))))
    ensures forall i :: |s| + 1 < i < buf.Length ==> buf[i] == old(buf[i])
    ensures |s| + 1 < buf.Length && old(buf[|s| + 1]) == NUL ==> buf[|s| + 1] == NUL
  {
    var p, rest := SkipBlanks(buf, bp, s);
    if rest != [] {
      StringTail(buf[..], p, rest);
    }
    if buf[p] == NUL {
      return 0, 1;
    }
    SkipKeeps(s);
    var end := StringEnd(buf, p, rest);
    MoveToStart(buf, p, end, rest);
    q := StringEnd(buf, 0, rest);
    q := EndLine(buf, q, rest);
    assert buf[..][..q] == buf[..][0..q];
    skip := 0;
  }

  /** A text line read behind the text t. */
  method AddLine(buf: array<char>, bp: nat, ghost t: string, ghost c: string) returns (q: nat, skip: int)
    requires GoodText(t) && bp == |t| && IsChunk(c) && StringIs(buf[..], 0, t + c)
    requires SIZE <= buf.Length && |t + Ended(c)| < buf.Length
    modifies buf
    ensures Holds(buf[..], q, skip, if |t + Ended(c)| > MAXENTRY then Full(Cut(t + Ended(c))) else Open(t + Ended(c)))
    ensures forall i :: |t + Ended(c)| < i < buf.Length ==> buf[i] == old(buf[i])
    ensures buf[|t + Ended(c)|] == NUL
  {
    ghost var u := t + Ended(c);
    assert Ended(t + c) == u;
    q := EndLine(buf, bp, t + c);
    skip := 0;
    ghost var b := buf[..];
    assert buf[..q] == b[0..q];
    if q > MAXENTRY {
      q := MAXENTRY;
      buf[q - 1] := NUL;
      buf[q - 2] := '\n';
      skip := 1;
      assert buf[..][0..q - 1] == b[0..q - 2] + ['\n'];
      assert b[0..q - 2] == b[0..|u|][..q - 2];
    }
  }

  /** Nothing behind the cursor matters. */
  lemma StillHolds(b: seq<char>, b': seq<char>, bp: nat, skip: int, m: Mode)
    requires Holds(b, bp, skip, m) && bp <= |b| && bp <= |b'| && b'[..bp] == b[..bp]
    ensures Holds(b', bp, skip, m)
  {
    if m.Full? {
      assert b'[0..bp - 1] == b'[..bp][..bp - 1] == b[..bp][..bp - 1] == b[0..bp - 1];
      assert b'[bp - 1] == b'[..bp][bp - 1] == b[..bp][bp - 1] == b[bp - 1];
    }
  }

  lemma SameBehind(b: seq<char>, b': seq<char>, p: nat, s: string)
    requires |b'| == |b| && (forall i :: p <= i < |b| ==> b'[i] == b[i]) && StringIs(b, p, s)
    ensures StringIs(b', p, s)
  {
    assert b'[p..p + |s|] == b[p..p + |s|];
  }

  /** Close the entry in front of an @ line; behind a truncated one the NUL falls on the line itself. */
  method CloseIfOpen(buf: array<char>, bp: nat, skip: int, ghost m: Mode, ghost c: string) returns (es: seq<string>)
    requires Holds(buf[..], bp, skip, m) && IsChunk(c) && StringIs(buf[..], bp + 1, c[1..])
    requires SIZE <= buf.Length
    modifies buf
    ensures es == Flush(m)
    ensures StringIs(buf[..], bp + 1, if m.Full? then [] else c[1..])
    ensures forall i :: bp + 2 <= i < buf.Length ==> buf[i] == old(buf[i])
    ensures |c| == 1 ==> buf[bp + 1] == NUL
  {
    ghost var line := buf[..];
    es := [];
    if bp > 0 {
      var e := CloseEntry(buf, bp, skip, m);
      es := [e];
    }
    if !m.Full? {
      SameBehind(line, buf[..], bp + 1, c[1..]);
    }
  }

  /** The @ line c has been read at the cursor: close the entry in front of it and open a new one. */
  method AtLine(buf: array<char>, bp: nat, skip: int, ghost m: Mode, ghost c: string)
    returns (q: nat, skip': int, es: seq<string>)
    requires Holds(buf[..], bp, skip, m) && IsChunk(c) && c[0] == '@' && StringIs(buf[..], bp, c)
    requires SIZE <= buf.Length
    modifies buf
    ensures Holds(buf[..], q, skip', Next(m, c))
    ensures es == Flush(m)
    ensures forall i :: bp + |c| < i < buf.Length ==> buf[i] == old(buf[i])
    ensures buf[bp + |c|] == NUL
  {
    StringTail(buf[..], bp, c);
    es := CloseIfOpen(buf, bp, skip, m, c);
    q, skip' := OpenEntry(buf, bp + 1, if m.Full? then [] else c[1..]);
  }

  /** The next line is read at the cursor; what is in front of it stays. */
  method FetchLine(buf: array<char>, bp: nat, skip: int, ghost m: Mode, c: string)
    requires Holds(buf[..], bp, skip, m) && IsChunk(c) && SIZE < buf.Length
    modifies buf
    ensures Holds(buf[..], bp, skip, m) && StringIs(buf[..], bp, c) && buf[bp] == c[0]
    ensures m.Open? ==> StringIs(buf[..], 0, m.text + c)
    ensures forall i :: bp + |c| < i < buf.Length ==> buf[i] == old(buf[i])
  {
    ghost var b := buf[..];
    Fgets(buf, bp, c);
    assert buf[..][..bp] == b[..bp];
    StillHolds(b, buf[..], bp, skip, m);
    assert StringIs(buf[..], bp, c);
    StringTail(buf[..], bp, c);
    assert m.Open? ==> buf[..][0..bp + |c|] == buf[..bp] + buf[bp..bp + |c|];
  }

  /** A line that is neither a comment nor an @ line has been read at the cursor. */
  method TextLine(buf: array<char>, bp: nat, skip: int, ghost m: Mode, ghost c: string) returns (q: nat, skip': int)
    requires Holds(buf[..], bp, skip, m) && StringIs(buf[..], bp, c) && (m.Open? ==> StringIs(buf[..], 0, m.text + c))
    requires IsChunk(c) && c[0] != '@' && c[0] != '#' && SIZE < buf.Length
    modifies buf
    ensures Holds(buf[..], q, skip', Next(m, c))
    ensures Highest(m, c) <= SIZE && buf[Highest(m, c)] == NUL
    ensures forall i :: Highest(m, c) < i < buf.Length ==> buf[i] == old(buf[i])
  {
    q, skip' := bp, skip;
    if skip == 0 {
      q, skip' := AddLine(buf, bp, m.text, c);
    }
  }

  /** One pass through the loop. */
  method ReadLine(buf: array<char>, bp: nat, skip: int, ghost m: Mode, c: string)
    returns (q: nat, skip': int, es: seq<string>)
    requires Holds(buf[..], bp, skip, m) && IsChunk(c) && SIZE < buf.Length
    modifies buf
    ensures Holds(buf[..], q, skip', Next(m, c))
    ensures es == if c[0] == '@' then Flush(m) else []
    ensures Highest(m, c) <= SIZE && buf[Highest(m, c)] == NUL
    ensures forall i :: Highest(m, c) < i < buf.Length ==> buf[i] == old(buf[i])
  {
    assert bp == Cursor(m) <= MAXENTRY;
    FetchLine(buf, bp, skip, m, c);
    q, skip', es := bp, skip, [];
    if buf[bp] == '#' {
      return;
    }
    if buf[bp] == '@' {
      q, skip', es := AtLine(buf, bp, skip, m, c);
      return;
    }
    q, skip' := TextLine(buf, bp, skip, m, c);
  }

  /** Some line on the way needs the extra cell. */
  predicate SpillsOnTheWay(m: Mode, cs: seq<string>)
    requires Chunks(cs)
    decreases |cs|
  {
    cs != [] && (Spills(m, cs[0]) || SpillsOnTheWay(Next(m, cs[0]), cs[1..]))
  }

  /** A file whose lines fit in one read never needs it. */
  lemma {:induction false} ShortLinesFit(m: Mode, cs: seq<string>)
    requires Chunks(cs)
    requires forall i :: 0 <= i < |cs| ==> cs[i][|cs[i]| - 1] == '\n'
    ensures !SpillsOnTheWay(m, cs)
    decreases |cs|
  {
    if cs != [] {
      ShortLinesFit(Next(m, cs[0]), cs[1..]);
    }
  }

  /** At end of file an @ is put at the cursor to close the last entry. */
  method EndOfFile(buf: array<char>, bp: nat, skip: int, ghost m: Mode) returns (es: seq<string>)
    requires Holds(buf[..], bp, skip, m) && SIZE <= buf.Length
    modifies buf
    ensures es == Flush(m)
    ensures forall i :: MAXENTRY + 2 <= i < buf.Length ==> buf[i] == old(buf[i])
  {
    ghost var b := buf[..];
    buf[bp] := '@';
    assert buf[..][..bp] == b[..bp];
    StillHolds(b, buf[..], bp, skip, m);
    es := [];
    if bp > 0 {
      var e := CloseEntry(buf, bp, skip, m);
      es := [e];
    }
  }

  lemma RunStep(m: Mode, cs: seq<string>, i: nat)
    requires Chunks(cs) && i < |cs|
    ensures Run(m, cs[i..]) == (if cs[i][0] == '@' then Flush(m) else []) + Run(Next(m, cs[i]), cs[i + 1..])
    ensures SpillsOnTheWay(m, cs[i..]) <==> Spills(m, cs[i]) || SpillsOnTheWay(Next(m, cs[i]), cs[i + 1..])
  {
    assert cs[i..][1..] == cs[i + 1..];
  }

  /** For a whole file: the highest cell written by any of its passes. */
  function HighestOnTheWay(m: Mode, cs: seq<string>): nat
    requires Chunks(cs)
    decreases |cs|
  {
    if cs == [] then 0
    else
      var h, rest := Highest(m, cs[0]), HighestOnTheWay(Next(m, cs[0]), cs[1..]);
      if h > rest then h else rest
  }

  lemma {:induction false} FileBeyondIffSpills(m: Mode, cs: seq<string>)
    requires Chunks(cs) && Bounded(m)
    ensures HighestOnTheWay(m, cs) <= SIZE
    ensures HighestOnTheWay(m, cs) == SIZE <==> SpillsOnTheWay(m, cs)
    decreases |cs|
  {
    if cs != [] {
      BeyondIffSpills(m, cs[0]);
      FileBeyondIffSpills(Next(m, cs[0]), cs[1..]);
    }
  }

  /** What has been written behind the buffer since it was b. */
  predicate CellBehind(b: seq<char>, b': seq<char>, spilled: bool) {
    && |b'| == |b| > SIZE
    && b'[SIZE] == (if spilled then NUL else b[SIZE])
    && forall i :: SIZE < i < |b| ==> b'[i] == b[i]
  }

  lemma CellBehindStep(b: seq<char>, b1: seq<char>, b2: seq<char>, spilled: bool, m: Mode, c: string)
    requires CellBehind(b, b1, spilled) && |b2| == |b1| && IsChunk(c) && Bounded(m)
    requires Highest(m, c) <= SIZE && b2[Highest(m, c)] == NUL
    requires forall i :: Highest(m, c) < i < |b1| ==> b2[i] == b1[i]
    ensures CellBehind(b, b2, spilled || Spills(m, c))
  {
    BeyondIffSpills(m, c);
  }

  method Pass(buf: array<char>, bp: nat, skip: int, ghost m: Mode, c: string, ghost b: seq<char>, ghost spilled: bool)
    returns (q: nat, skip': int, es: seq<string>)
    requires Holds(buf[..], bp, skip, m) && IsChunk(c) && CellBehind(b, buf[..], spilled)
    modifies buf
    ensures Holds(buf[..], q, skip', Next(m, c)) && q <= MAXENTRY
    ensures es == if c[0] == '@' then Flush(m) else []
    ensures CellBehind(b, buf[..], spilled || Spills(m, c))
  {
    ghost var b1 := buf[..];
    q, skip', es := ReadLine(buf, bp, skip, m, c);
    CellBehindStep(b, b1, buf[..], spilled, m, c);
  }

  lemma Regroup(a: seq<string>, b: seq<string>, c: seq<string>)
    ensures a + (b + c) == (a + b) + c
  {
  }

  /** The loop up to end of file. */
  method ReadLines(buf: array<char>, lines: seq<string>)
    returns (entries: seq<string>, bp: nat, skip: int, ghost m: Mode)
    requires Chunks(lines) && SIZE < buf.Length
    modifies buf
    ensures Holds(buf[..], bp, skip, m) && Run(Idle, lines) == entries + Flush(m)
    ensures CellBehind(old(buf[..]), buf[..], SpillsOnTheWay(Idle, lines))
  {
    entries, bp, skip, m := [], 0, 1, Idle;
    ghost var b, spilled := buf[..], false;
    var i := 0;
    while i < |lines|
      invariant 0 <= i <= |lines|
      invariant Holds(buf[..], bp, skip, m) && bp <= MAXENTRY
      invariant Run(Idle, lines) == entries + Run(m, lines[i..])
      invariant SpillsOnTheWay(Idle, lines) <==> spilled || SpillsOnTheWay(m, lines[i..])
      invariant CellBehind(b, buf[..], spilled)
    {
      RunStep(m, lines, i);
      var es;
      bp, skip, es := Pass(buf, bp, skip, m, lines[i], b, spilled);
      Regroup(entries, es, Run(Next(m, lines[i]), lines[i + 1..]));
      entries := entries + es;
      spilled := spilled || Spills(m, lines[i]);
      m := Next(m, lines[i]);
      i := i + 1;
    }
  }

  /**
   The whole loop over one input file, the lines being those fgets delivers.  The source's buffer
   is the first SIZE cells; the cell behind it is overwritten exactly when the file spills.
   */
  method Assemble(buf: array<char>, lines: seq<string>) returns (entries: seq<string>)
    requires Chunks(lines) && SIZE < buf.Length
    modifies buf
    ensures entries == Emitted(lines)
    ensures CellBehind(old(buf[..]), buf[..], SpillsOnTheWay(Idle, lines))
  {
    var es, bp, skip, m := ReadLines(buf, lines);
    var last := EndOfFile(buf, bp, skip, m);
    entries := es + last;
    RunIsEmitted(lines);
  }

  // ---------- a file that spills ----------

  /** 127 characters without a newline. */
  function LongChunk(): (c: string)
    ensures IsChunk(c) && |c| == MAXLINE - 1 && (forall i :: 0 <= i < |c| ==> c[i] == 'a')
  {
    seq(MAXLINE - 1, _ => 'a')
  }

  /** k long chunks, a newline, and one more long chunk. */
  function LongLines(k: nat): (cs: seq<string>)
    ensures Chunks(cs) && cs != []
  {
    if k == 0 then ["\n", LongChunk()] else [LongChunk()] + LongLines(k - 1)
  }

  lemma {:induction false} LongLinesSpill(t: string, k: nat)
    requires |t| + 128 * k + 1 == MAXENTRY
    ensures SpillsOnTheWay(Open(t), LongLines(k))
    decreases k
  {
    if k == 0 {
      var cs := LongLines(0);
      assert cs[1..] == [LongChunk()];
      assert Next(Open(t), "\n") == Open(t + "\n");
      assert Spills(Open(t + "\n"), LongChunk());
    } else {
      var c := LongChunk();
      assert LongLines(k)[0] == c && LongLines(k)[1..] == LongLines(k - 1);
      assert Next(Open(t), c) == Open(t + Ended(c));
      LongLinesSpill(t + Ended(c), k - 1);
    }
  }

  /** An @ line of 127 characters, seven long chunks, a newline and another long chunk. */
  lemma SpillingFile()
    ensures var cs := ["@" + LongChunk()[1..]] + LongLines(7);
      Chunks(cs) && SpillsOnTheWay(Idle, cs)
  {
    var c := "@" + LongChunk()[1..];
    var cs := [c] + LongLines(7);
    assert c[1..] == LongChunk()[1..] && Head(c) == c[1..];
    assert Next(Idle, c) == Open(Ended(Head(c))) && cs[1..] == LongLines(7);
    LongLinesSpill(Ended(Head(c)), 7);
  }
}
