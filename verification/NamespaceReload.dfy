/**
 qa/src/multithread3.c: one thread looks names up while another unloads, rewrites and
 reloads the namespace. Nothing but the barrier keeps them apart.

 The two programs are lists of operations; a wait runs the steps of module Barrier, and
 every other operation has a begin and an end so that overlaps would be visible.
 */
module NamespaceReload {
  import opened Basics
  import opened Barrier

  /** What is loaded: nothing, or the namespace described by a text. */
  datatype Namespace = Unloaded | Loaded(text: string)

  datatype Op =
    | Wait
    | Look(round: int)  // round -1 is the dump before the loop
    | Unload
    | Rewrite           // edit the text, write the file
    | Load
    | Exit

  const LOOKER: nat := 0
  const LOADER: nat := 1

  /** func1 (lines 63-104) and func2 (lines 115-167). */
  function Program(t: nat, at: nat): Op {
    if t == LOOKER then
      if at == 1 then Look(-1)
      else if at == 3 then Look(0)
      else if at == 6 then Look(1)
      else if at == 9 then Look(2)
      else if at == 12 then Look(3)
      else if at == 15 then Look(4)
      else if at < 17 then Wait else Exit
    else
      if at == 3 || at == 9 then Unload
      else if at == 6 || at == 11 then Load
      else if at == 10 then Rewrite
      else if at < 16 then Wait else Exit
  }

  /** The barrier calls in front of position `at`. */
  function Waits(t: nat, at: nat): nat {
    if t == LOOKER then
      if at < 1 then 0 else if at < 3 then 1 else if at < 5 then 2 else if at < 6 then 3
      else if at < 8 then 4 else if at < 9 then 5 else if at < 11 then 6 else if at < 12 then 7
      else if at < 14 then 8 else if at < 15 then 9 else if at < 17 then 10 else 11
    else
      if at < 3 then at else if at < 5 then 3 else if at < 6 then 4 else if at < 8 then 5
      else if at < 9 then 6 else if at < 13 then 7 else if at < 16 then at - 5 else 11
  }

  /** Lines 136-146: the first 'u' and the five characters after it become "define". */
  function Edited(text: string): string
  {
    if text == "" then ""
    else if text[0] != 'u' then [text[0]] + Edited(text[1..])
    else if |text| < 6 then text
    else "define" + text[6..]
  }

  datatype World = World(b: State, at: seq<nat>, busy: seq<bool>, ns: Namespace, file: string, seen: seq<(int, Namespace)>)

  predicate CanStep(w: World, t: nat) {
    && |w.at| == |w.busy| == |w.b.threads| == 2 && t < 2
    && (w.b.threads[t].pc == Outside ==> Program(t, w.at[t]) != Exit)
    && Enabled(w.b, t)
  }

  /** One step of thread t: a step inside wait, or the begin or end of another operation. */
  function Step(w: World, t: nat): World
    requires CanStep(w, t)
  {
    var op := Program(t, w.at[t]);
    if w.b.threads[t].pc != Outside || op == Wait then
      var b' := Do(w.b, t);
      w.(b := b', at := if b'.threads[t].pc == Outside then w.at[t := w.at[t] + 1] else w.at)
    else if !w.busy[t] then
      w.(busy := w.busy[t := true])
    else
      var w' := w.(busy := w.busy[t := false], at := w.at[t := w.at[t] + 1]);
      match op
      case Look(i) => w'.(seen := w.seen + [(i, w.ns)])
      case Unload => w'.(ns := Unloaded)
      case Rewrite => w'.(file := Edited(w.file))
      case Load => w'.(ns := Loaded(w.file))
      case _ => w'
  }

  predicate Possible(w: World, sched: seq<nat>)
    decreases |sched|
  {
    sched == [] || (CanStep(w, sched[0]) && Possible(Step(w, sched[0]), sched[1..]))
  }

  function Run(w: World, sched: seq<nat>): World
    requires Possible(w, sched)
    decreases |sched|
  {
    if sched == [] then w else Run(Step(w, sched[0]), sched[1..])
  }

  function Start(text: string): World {
    World(Init(2, 2).value, [0, 0], [false, false], Loaded(text), text, [])
  }

  // ---------- what every step keeps ----------

  /** The namespace once the loader has finished the operations in front of `at`. */
  function NsAt(text: string, at: nat): Namespace {
    if at <= 3 then Loaded(text)
    else if at <= 6 then Unloaded
    else if at <= 9 then Loaded(text)
    else if at <= 11 then Unloaded
    else Loaded(Edited(text))
  }

  function FileAt(text: string, at: nat): string {
    if at <= 10 then text else Edited(text)
  }

  /** What lookup round i must see. */
  function Expected(text: string, i: int): Namespace {
    if i == 1 then Unloaded
    else if i >= 3 then Loaded(Edited(text))
    else Loaded(text)
  }

  /** All lookups with what they must see. */
  function Report(text: string): seq<(int, Namespace)> {
    [(-1, Loaded(text)), (0, Loaded(text)), (1, Unloaded), (2, Loaded(text)),
     (3, Loaded(Edited(text))), (4, Loaded(Edited(text)))]
  }

  /** How many lookups the looker has finished in front of `at`. */
  function Looks(at: nat): nat {
    if at < 2 then 0 else if at < 4 then 1 else if at < 7 then 2 else if at < 10 then 3
    else if at < 13 then 4 else if at < 16 then 5 else 6
  }

  predicate Placed(w: World, t: nat)
    requires |w.at| == |w.busy| == |w.b.threads| == 2 && t < 2
  {
    && w.at[t] <= 17 - t
    && |w.b.threads[t].rets| == Waits(t, w.at[t])
    && (w.b.threads[t].pc != Outside ==> Program(t, w.at[t]) == Wait)
    && (w.busy[t] ==> w.b.threads[t].pc == Outside && Program(t, w.at[t]) !in {Wait, Exit})
  }

  predicate Placements(w: World) {
    |w.at| == |w.busy| == |w.b.threads| == 2 && Placed(w, 0) && Placed(w, 1)
  }

  predicate Contents(text: string, w: World)
    requires |w.at| == 2
  {
    && w.ns == NsAt(text, w.at[LOADER])
    && w.file == FileAt(text, w.at[LOADER])
    && w.seen == Report(text)[..Looks(w.at[LOOKER])]
  }

  ghost predicate Ordered(text: string, w: World) {
    Inv(w.b) && Placements(w) && Contents(text, w)
  }

  /** Waits counts the Wait operations. */
  lemma WaitsCounts(t: nat, at: nat)
    requires t < 2 && at < 17 - t
    ensures Waits(t, 0) == 0
    ensures Waits(t, at + 1) == Waits(t, at) + if Program(t, at) == Wait then 1 else 0
  {
  }

  /** The two are never busy together, and a busy looker has the namespace of its round in front of it. */
  lemma Exclusion(text: string, w: World)
    requires Ordered(text, w)
    ensures !(w.busy[LOOKER] && w.busy[LOADER])
    ensures w.busy[LOOKER] ==> w.ns == Expected(text, Program(LOOKER, w.at[LOOKER]).round)
  {
    if w.busy[LOOKER] {
      NextToOutside(w.b, LOOKER, LOADER);
      Apart(w, text);
    }
  }

  /** The same, from the positions alone. */
  lemma Apart(w: World, text: string)
    requires Placements(w) && Contents(text, w) && w.busy[LOOKER]
    requires var a, b := w.b.threads[LOOKER], w.b.threads[LOADER];
             |b.rets| == |a.rets| || (b.pc != Outside && |b.rets| + 1 == |a.rets|)
    ensures !w.busy[LOADER]
    ensures w.ns == Expected(text, Program(LOOKER, w.at[LOOKER]).round)
  {
  }

  /** Does thread t's next step belong to a wait? */
  predicate AtWait(w: World, t: nat)
    requires |w.at| == |w.b.threads| == 2 && t < 2
  {
    w.b.threads[t].pc != Outside || Program(t, w.at[t]) == Wait
  }

  lemma WaitStep(text: string, w: World, t: nat)
    requires Placements(w) && Contents(text, w) && CanStep(w, t) && AtWait(w, t)
    ensures Placements(Step(w, t)) && Contents(text, Step(w, t))
  {
    DoFrame(w.b, t);
  }

  lemma OpStep(text: string, w: World, t: nat)
    requires Placements(w) && Contents(text, w) && CanStep(w, t) && !AtWait(w, t)
    requires w.busy[LOOKER] ==> w.ns == Expected(text, Program(LOOKER, w.at[LOOKER]).round)
    ensures Placements(Step(w, t)) && Contents(text, Step(w, t))
  {
  }

  lemma StepKeepsOrder(text: string, w: World, t: nat)
    requires Ordered(text, w) && CanStep(w, t)
    ensures Ordered(text, Step(w, t))
  {
    if AtWait(w, t) {
      StepInv(w.b, t);
      WaitStep(text, w, t);
    } else {
      Exclusion(text, w);
      OpStep(text, w, t);
    }
  }

  lemma {:induction false} RunKeepsOrder(text: string, w: World, sched: seq<nat>)
    requires Ordered(text, w) && Possible(w, sched)
    ensures Ordered(text, Run(w, sched))
    decreases |sched|
  {
    if sched != [] {
      StepKeepsOrder(text, w, sched[0]);
      RunKeepsOrder(text, Step(w, sched[0]), sched[1..]);
    }
  }

  /**
   In every interleaving no load, unload or rewrite overlaps a lookup, and the lookups done
   so far saw exactly what their round is meant to see.
   */
  lemma LookupsSeeTheirNamespace(text: string, sched: seq<nat>)
    requires Possible(Start(text), sched)
    ensures var w := Run(Start(text), sched);
            && |w.busy| == |w.at| == 2
            && !(w.busy[LOOKER] && w.busy[LOADER])
            && w.seen == Report(text)[..Looks(w.at[LOOKER])]
  {
    InitInv(2);
    RunKeepsOrder(text, Start(text), sched);
    Exclusion(text, Run(Start(text), sched));
  }

  // ---------- everybody finishes ----------

  /** Work left for thread t. */
  function Work(w: World, t: nat): nat
    requires |w.at| == |w.busy| == |w.b.threads| == 2 && t < 2 && w.at[t] <= 17
  {
    20 * (17 - w.at[t]) + (if w.b.threads[t].pc == Outside then 10 else Rank(w.b.threads[t].pc)) + if w.busy[t] then 0 else 1
  }

  lemma StepDoesWork(w: World, t: nat)
    requires Placements(w) && CanStep(w, t) && Placements(Step(w, t))
    ensures Work(Step(w, t), 0) + Work(Step(w, t), 1) < Work(w, 0) + Work(w, 1)
  {
    if AtWait(w, t) {
      DoFrame(w.b, t);
      StepRank(w.b, t);
    }
  }

  lemma {:induction false} RunsAreBounded(text: string, w: World, sched: seq<nat>)
    requires Ordered(text, w) && Possible(w, sched)
    ensures Ordered(text, Run(w, sched))
    ensures |sched| + Work(Run(w, sched), 0) + Work(Run(w, sched), 1) <= Work(w, 0) + Work(w, 1)
    decreases |sched|
  {
    if sched != [] {
      StepKeepsOrder(text, w, sched[0]);
      StepDoesWork(w, sched[0]);
      RunsAreBounded(text, Step(w, sched[0]), sched[1..]);
    }
  }

  /** Nobody is stuck at a barrier: a world in which no thread can step has both threads at their exit. */
  lemma StuckMeansDone(text: string, w: World)
    requires Ordered(text, w) && !CanStep(w, 0) && !CanStep(w, 1)
    ensures w.at == [17, 16]
  {
    forall u: nat ensures !CanGoOn(w.b, u) {
      assert CanGoOn(w.b, u) ==> CanStep(w, u);
    }
    StuckShape(w.b);
    var t: nat :| t < 2 && w.b.threads[t].pc == Outside;
    NextToOutside(w.b, t, 1 - t);
  }

  lemma CompleteFrom(text: string, w: World, sched: seq<nat>)
    requires Ordered(text, w) && Possible(w, sched)
    requires !CanStep(Run(w, sched), 0) && !CanStep(Run(w, sched), 1)
    ensures |sched| <= Work(w, 0) + Work(w, 1) && Run(w, sched).seen == Report(text)
  {
    RunsAreBounded(text, w, sched);
    StuckMeansDone(text, Run(w, sched));
    assert Report(text)[..6] == Report(text);
  }

  /** Every complete run is finite and reports rounds -1, 0, .., 4 with the namespaces meant for them. */
  lemma CompleteRuns(text: string, sched: seq<nat>)
    requires Possible(Start(text), sched)
    requires !CanStep(Run(Start(text), sched), 0) && !CanStep(Run(Start(text), sched), 1)
    ensures |sched| <= 702
    ensures Run(Start(text), sched).seen ==
            [(-1, Loaded(text)), (0, Loaded(text)), (1, Unloaded), (2, Loaded(text)),
             (3, Loaded(Edited(text))), (4, Loaded(Edited(text)))]
  {
    InitInv(2);
    CompleteFrom(text, Start(text), sched);
  }

  // ---------- the edit of the namespace text ----------

  /** The loop of lines 136-146 on the text buffer. */
  method EditInPlace(pmns: array<char>)
    requires forall i :: 0 <= i < pmns.Length && pmns[i] == 'u' && (forall j :: 0 <= j < i ==> pmns[j] != 'u') ==> i + 6 <= pmns.Length
    modifies pmns
    ensures pmns[..] == Edited(old(pmns[..]))
  {
    ghost var was := pmns[..];
    var p := 0;
    while p < pmns.Length && pmns[p] != 'u'
      invariant 0 <= p <= pmns.Length
      invariant forall j :: 0 <= j < p ==> pmns[j] != 'u'
    {
      p := p + 1;
    }
    EditedAt(was, p);
    if p < pmns.Length {
      pmns[p], pmns[p + 1], pmns[p + 2], pmns[p + 3], pmns[p + 4], pmns[p + 5] := 'd', 'e', 'f', 'i', 'n', 'e';
      assert pmns[..] == was[..p] + "define" + was[p + 6..];
    } else {
      assert was[..p] == was;
    }
  }

  lemma {:induction false} EditedAt(text: string, p: nat)
    requires p <= |text| && (forall j :: 0 <= j < p ==> text[j] != 'u')
    requires p < |text| ==> text[p] == 'u' && p + 6 <= |text|
    ensures Edited(text) == text[..p] + if p < |text| then "define" + text[p + 6..] else ""
  {
    if p > 0 {
      EditedAt(text[1..], p - 1);
      assert text[..p] == [text[0]] + text[1..][..p - 1];
    }
  }

  /** The test's text switches EXTRA from undefined to defined and changes nothing else. */
  lemma EditDefinesExtra(rest: string)
    ensures Edited("#undef  EXTRA\n" + rest) == "#define EXTRA\n" + rest
  {
    var text := "#undef  EXTRA\n" + rest;
    EditedAt(text, 1);
    assert text[7..] == " EXTRA\n" + rest;
  }
}
