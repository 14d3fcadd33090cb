/**
 The line assembler of the help text compiler (src/newhelp/newhelp.c:368-433): lines are read
 into the buffer behind the text collected so far, and entries are handed on from its start.
 */
module HelpAssembler {

  const MAXENTRY := 1024
  const MAXLINE := 128
  const NUL: char := '\0'

  predicate IsSpace(c: char) {
    c == ' ' || (9 as char <= c <= 13 as char)
  }

  /** The six characters of isspace in the C locale: blank, tab, newline, vertical tab, form feed, carriage return. */
  lemma SpaceCharacters(c: char)
    ensures IsSpace(c) <==> c in [' ', '\t', '\n', 11 as char, 12 as char, '\r']
  {
  }

  /** What one fgets call can deliver: at least one and fewer than MAXLINE characters. */
  predicate IsChunk(c: string) {
    0 < |c| < MAXLINE && NUL !in c
  }

  predicate Chunks(cs: seq<string>) {
    forall i :: 0 <= i < |cs| ==> IsChunk(cs[i])
  }

  function SkipSpace(s: string): (r: string)
    ensures r == [] || !IsSpace(r[0])
    ensures |r| <= |s|
  {
    if s == [] || !IsSpace(s[0]) then s else SkipSpace(s[1..])
  }

  function TrimEnd(s: string): string {
    if s != [] && s[|s| - 1] == '\n' then TrimEnd(s[..|s| - 1]) else s
  }

  /** Trailing newlines collapsed to one. */
  function Collapsed(s: string): string { TrimEnd(s) + "\n" }

  /** A line that did not end in a newline gets one. */
  function Ended(s: string): string {
    if s != [] && s[|s| - 1] == '\n' then s else s + "\n"
  }

  // ---------- the simple splitter ----------

  function Head(c: string): string
    requires c != []
  {
    SkipSpace(c[1..])
  }

  /** The text lines in front of the next @ line, comments dropped. */
  function Tail(cs: seq<string>): string
    requires Chunks(cs)
  {
    if cs == [] || cs[0][0] == '@' then []
    else (if cs[0][0] == '#' then [] else Ended(cs[0])) + Tail(cs[1..])
  }

  function Body(cs: seq<string>): string
    requires Chunks(cs) && cs != []
  {
    Ended(Head(cs[0])) + Tail(cs[1..])
  }

  predicate StartsEntry(cs: seq<string>)
    requires Chunks(cs)
  {
    cs != [] && cs[0][0] == '@' && Head(cs[0]) != []
  }

  /** Comments, text before the first @ line and null entries are dropped. */
  function Split(cs: seq<string>): seq<string>
    requires Chunks(cs)
  {
    if cs == [] then []
    else (if StartsEntry(cs) then [Collapsed(Body(cs))] else []) + Split(cs[1..])
  }

  // ---------- what the loop does ----------

  /** Nothing collected; text being collected; an entry that has been truncated. */
  datatype Mode = Idle | Open(text: string) | Full(text: string)

  function Cut(s: string): string
    requires |s| > MAXENTRY
  {
    s[..MAXENTRY - 2] + "\n"
  }

  function Flush(m: Mode): seq<string> {
    match m
    case Idle => []
    case Open(t) => [Collapsed(t)]
    case Full(t) => [t]
  }

  function Next(m: Mode, c: string): Mode
    requires IsChunk(c)
  {
    if c[0] == '#' then m
    else if c[0] == '@' then
      if m.Full? || Head(c) == [] then Idle else Open(Ended(Head(c)))
    else if m.Open? then
      var t := m.text + Ended(c);
      if |t| > MAXENTRY then Full(Cut(t)) else Open(t)
    else m
  }

  function Run(m: Mode, cs: seq<string>): seq<string>
    requires Chunks(cs)
    decreases |cs|
  {
    if cs == [] then Flush(m)
    else (if cs[0][0] == '@' then Flush(m) else []) + Run(Next(m, cs[0]), cs[1..])
  }

  /** The lines behind the next @ line. */
  function AfterNext(cs: seq<string>): (r: seq<string>)
    requires Chunks(cs)
    ensures Chunks(r) && |r| <= |cs|
  {
    if cs == [] then [] else if cs[0][0] == '@' then cs[1..] else AfterNext(cs[1..])
  }

  /** The entries handed on: a truncated entry takes the @ line behind it along. */
  function Emitted(cs: seq<string>): seq<string>
    requires Chunks(cs)
    decreases |cs|
  {
    if cs == [] then []
    else if !StartsEntry(cs) then Emitted(cs[1..])
    else if |Body(cs)| <= MAXENTRY then [Collapsed(Body(cs))] + Emitted(cs[1..])
    else [Cut(Body(cs))] + Emitted(AfterNext(cs[1..]))
  }

  lemma {:induction false} FullRun(u: string, cs: seq<string>)
    requires Chunks(cs)
    ensures Run(Full(u), cs) == [u] + Run(Idle, AfterNext(cs))
  {
    if cs != [] && cs[0][0] != '@' {
      FullRun(u, cs[1..]);
    }
  }

  lemma {:induction false} OpenRun(t: string, cs: seq<string>)
    requires Chunks(cs) && |t| <= MAXENTRY
    ensures |t + Tail(cs)| <= MAXENTRY ==> Run(Open(t), cs) == [Collapsed(t + Tail(cs))] + Run(Idle, cs)
    ensures |t + Tail(cs)| > MAXENTRY ==> Run(Open(t), cs) == [Cut(t + Tail(cs))] + Run(Idle, AfterNext(cs))
    decreases |cs|
  {
    if cs == [] || cs[0][0] == '@' {
      assert t + Tail(cs) == t;
    } else if cs[0][0] == '#' {
      OpenRun(t, cs[1..]);
      assert Tail(cs) == Tail(cs[1..]) && Run(Idle, cs) == Run(Idle, cs[1..]);
      assert Run(Open(t), cs) == Run(Open(t), cs[1..]);
    } else {
      var t' := t + Ended(cs[0]);
      assert t + Tail(cs) == t' + Tail(cs[1..]);
      assert Run(Idle, cs) == Run(Idle, cs[1..]);
      assert Run(Open(t), cs) == Run(Next(Open(t), cs[0]), cs[1..]);
      if |t'| <= MAXENTRY {
        OpenRun(t', cs[1..]);
      } else {
        FullRun(Cut(t'), cs[1..]);
        assert Cut(t + Tail(cs)) == Cut(t');
      }
    }
  }

  /** The loop hands on exactly these entries. */
  lemma {:induction false} RunIsEmitted(cs: seq<string>)
    requires Chunks(cs)
    ensures Run(Idle, cs) == Emitted(cs)
    decreases |cs|
  {
    if cs != [] {
      RunIsEmitted(cs[1..]);
      if StartsEntry(cs) {
        OpenRun(Ended(Head(cs[0])), cs[1..]);
        RunIsEmitted(AfterNext(cs[1..]));
      }
    }
  }

  // ---------- when truncation does no harm ----------

  predicate AllNewlines(s: string) {
    forall i :: 0 <= i < |s| ==> s[i] == '\n'
  }

  /** The next @ line, if there is one, is a null entry. */
  predicate NextIsNull(cs: seq<string>)
    requires Chunks(cs)
  {
    cs == [] || (if cs[0][0] == '@' then Head(cs[0]) == [] else NextIsNull(cs[1..]))
  }

  /** Only surplus newlines are cut off, and the @ line that is lost was a null entry. */
  predicate Harmless(cs: seq<string>)
    requires Chunks(cs)
  {
    StartsEntry(cs) && |Body(cs)| > MAXENTRY ==>
      && Body(cs)[MAXENTRY - 3] != '\n' && AllNewlines(Body(cs)[MAXENTRY - 2..])
      && NextIsNull(cs[1..])
  }

  predicate Intact(cs: seq<string>)
    requires Chunks(cs)
  {
    cs == [] || (Harmless(cs) && Intact(cs[1..]))
  }

  lemma {:induction false} TrimNewlines(a: string, b: string)
    requires AllNewlines(b)
    ensures TrimEnd(a + b) == TrimEnd(a)
    decreases |b|
  {
    if b == [] {
      assert a + b == a;
    } else {
      var b' := b[..|b| - 1];
      TrimNewlines(a, b');
      assert (a + b)[..|a + b| - 1] == a + b';
    }
  }

  lemma {:induction false} TrimPrefix(s: string)
    ensures TrimEnd(s) <= s && AllNewlines(s[|TrimEnd(s)|..])
    ensures TrimEnd(s) == [] || TrimEnd(s)[|TrimEnd(s)| - 1] != '\n'
  {
    if s != [] && s[|s| - 1] == '\n' {
      TrimPrefix(s[..|s| - 1]);
    }
  }

  lemma CutIsCollapsed(s: string)
    requires |s| > MAXENTRY
    ensures Cut(s) == Collapsed(s) <==> s[MAXENTRY - 3] != '\n' && AllNewlines(s[MAXENTRY - 2..])
  {
    var n := MAXENTRY - 2;
    assert s == s[..n] + s[n..];
    if s[n - 1] != '\n' && AllNewlines(s[n..]) {
      TrimNewlines(s[..n], s[n..]);
      assert TrimEnd(s[..n]) == s[..n];
    }
    if Cut(s) == Collapsed(s) {
      TrimPrefix(s);
      assert |TrimEnd(s)| == n;
      assert Cut(s)[..n] == s[..n] && Collapsed(s)[..n] == TrimEnd(s);
    }
  }

  lemma {:induction false} SplitSkips(cs: seq<string>)
    requires Chunks(cs)
    ensures NextIsNull(cs) ==> Split(cs) == Split(AfterNext(cs))
    ensures !NextIsNull(cs) ==> |Split(cs)| == 1 + |Split(AfterNext(cs))|
    ensures Intact(cs) ==> Intact(AfterNext(cs))
  {
    if cs != [] && cs[0][0] != '@' {
      SplitSkips(cs[1..]);
    }
  }

  lemma {:induction false} NeverMore(cs: seq<string>)
    requires Chunks(cs)
    ensures |Emitted(cs)| <= |Split(cs)|
    decreases |cs|
  {
    if cs != [] {
      NeverMore(cs[1..]);
      if StartsEntry(cs) && |Body(cs)| > MAXENTRY {
        NeverMore(AfterNext(cs[1..]));
        SplitSkips(cs[1..]);
      }
    }
  }

  lemma {:induction false} IntactSuffices(cs: seq<string>)
    requires Chunks(cs) && Intact(cs)
    ensures Emitted(cs) == Split(cs)
    decreases |cs|
  {
    if cs != [] {
      if StartsEntry(cs) && |Body(cs)| > MAXENTRY {
        SplitSkips(cs[1..]);
        IntactSuffices(AfterNext(cs[1..]));
        CutIsCollapsed(Body(cs));
      } else {
        IntactSuffices(cs[1..]);
      }
    }
  }

  /**
   The assembler hands on exactly the splitter's entries if and only if every entry that is too
   long loses only surplus newlines and is not followed by a proper entry.
   */
  lemma {:induction false} SplitterIffIntact(cs: seq<string>)
    requires Chunks(cs)
    ensures Emitted(cs) == Split(cs) <==> Intact(cs)
    decreases |cs|
  {
    if Intact(cs) {
      IntactSuffices(cs);
    } else if !(StartsEntry(cs) && |Body(cs)| > MAXENTRY) {
      SplitterIffIntact(cs[1..]);
      if StartsEntry(cs) {
        assert Emitted(cs)[1..] == Emitted(cs[1..]) && Split(cs)[1..] == Split(cs[1..]);
      }
    } else {
      var rest := AfterNext(cs[1..]);
      SplitSkips(cs[1..]);
      NeverMore(rest);
      CutIsCollapsed(Body(cs));
      if Emitted(cs) == Split(cs) {
        assert Emitted(cs)[0] == Cut(Body(cs)) && Split(cs)[0] == Collapsed(Body(cs));
        assert Emitted(cs)[1..] == Emitted(rest) && Split(cs)[1..] == Split(cs[1..]);
        assert Emitted(rest) == Split(rest);
        SplitterIffIntact(rest);
        IntactAfterNull(cs[1..]);
      }
    }
  }

  lemma {:induction false} IntactAfterNull(cs: seq<string>)
    requires Chunks(cs) && NextIsNull(cs) && Intact(AfterNext(cs))
    ensures Intact(cs)
  {
    if cs != [] && cs[0][0] != '@' {
      IntactAfterNull(cs[1..]);
    }
  }

  /** An entry of more than MAXENTRY characters swallows a proper entry behind it. */
  lemma LostEntry(cs: seq<string>)
    requires Chunks(cs) && StartsEntry(cs) && |Body(cs)| > MAXENTRY && !NextIsNull(cs[1..])
    ensures |Emitted(cs)| < |Split(cs)|
  {
    SplitSkips(cs[1..]);
    NeverMore(AfterNext(cs[1..]));
  }
}
