/**
 qa/src/multithread1.c: two threads run the same sequence of library calls in lockstep and
 leave early when a shared result is missing. If only one of them left, the other would wait
 at the barrier for ever.

 What a library call returns is chosen by the scheduler, separately for every call.
 pmUseContext depends on the handle alone (src/libpcp/src/context.c lines 719-741), so it is
 a predicate `usable`.
 */
module EarlyExits {
  import opened Basics
  import opened Barrier

  datatype Shared = Shared(ctx: int, pmid: int, desc: int, instance: int, rp: int)

  datatype Op =
    | NewContext | Wait | UseContext | DupContext
    | LookupName | TestPmid | LookupDesc | TestDesc | GetInDom | TestInstance | Fetch | TestResult | Store
    | Gone

  /** func1 and func2 (lines 132-175), then func (lines 30-130). */
  function Program(t: nat, at: nat): Op {
    if at == 0 then (if t == 0 then NewContext else Wait)
    else if at == 1 then (if t == 0 then Wait else NewContext)
    else if at == 3 || at == 5 then UseContext
    else if at == 4 then DupContext
    else if at == 6 then LookupName
    else if at == 8 then TestPmid
    else if at == 9 then LookupDesc
    else if at == 11 then TestDesc
    else if at == 12 then GetInDom
    else if at == 14 then TestInstance
    else if at == 15 then Fetch
    else if at == 17 then TestResult
    else if at == 18 then Store
    else if at < 18 then Wait
    else Gone
  }

  /** Barrier calls in front of position `at`. */
  function Waits(t: nat, at: nat): nat {
    if at <= 1 then (if t == 0 then 0 else at)
    else if at <= 2 then 1
    else if at <= 7 then 2 else if at <= 10 then 3 else if at <= 13 then 4 else if at <= 16 then 5 else 6
  }

  /** Why a thread left: lines 37-54, 66, 87, 102, 122, or the end of func. */
  datatype Reason = NoContext | NoPmid | NoDesc | NoInstance | NoResult | Finished

  datatype World = World(b: State, at: seq<nat>, left: seq<Option<Reason>>, shared: Shared)

  predicate Shape(w: World) {
    |w.at| == |w.left| == |w.b.threads| == 2
  }

  predicate CanStep(w: World, t: nat) {
    Shape(w) && t < 2 && w.left[t].None? && Enabled(w.b, t)
  }

  /** What operation op leaves in the shared variables when its library call stores v, or nothing. */
  function Stored(op: Op, sh: Shared, v: Option<int>): Shared {
    if v.None? then sh
    else match op
      case NewContext => sh.(ctx := v.value)
      case LookupName => sh.(pmid := v.value)
      case LookupDesc => sh.(desc := v.value)
      case GetInDom => sh.(instance := v.value)
      case Fetch => sh.(rp := v.value)
      case _ => sh
  }

  /** Does the thread leave at op, and why? */
  function Leaves(usable: int -> bool, op: Op, sh: Shared): Option<Reason> {
    match op
    case UseContext => if usable(sh.ctx) then None else Some(NoContext)
    case TestPmid => if sh.pmid != 0 then None else Some(NoPmid)
    case TestDesc => if sh.desc != 0 then None else Some(NoDesc)
    case TestInstance => if sh.instance != 0 then None else Some(NoInstance)
    case TestResult => if sh.rp != 0 then None else Some(NoResult)
    case Store => Some(Finished)
    case _ => None
  }

  predicate AtWait(w: World, t: nat)
    requires Shape(w) && t < 2
  {
    w.b.threads[t].pc != Outside || Program(t, w.at[t]) == Wait
  }

  /** One step of thread t; v is what the library call stores, if it stores anything. */
  function Step(usable: int -> bool, w: World, t: nat, v: Option<int>): World
    requires CanStep(w, t)
  {
    if AtWait(w, t) then
      var b' := Do(w.b, t);
      w.(b := b', at := if b'.threads[t].pc == Outside then w.at[t := w.at[t] + 1] else w.at)
    else
      var op := Program(t, w.at[t]);
      var why := Leaves(usable, op, w.shared);
      if why.Some? then w.(left := w.left[t := why])
      else w.(at := w.at[t := w.at[t] + 1], shared := Stored(op, w.shared, v))
  }

  datatype Choice = Choice(t: nat, v: Option<int>)

  predicate Possible(usable: int -> bool, w: World, sched: seq<Choice>)
    decreases |sched|
  {
    sched == [] ||
    (CanStep(w, sched[0].t) && Possible(usable, Step(usable, w, sched[0].t, sched[0].v), sched[1..]))
  }

  function Run(usable: int -> bool, w: World, sched: seq<Choice>): World
    requires Possible(usable, w, sched)
    decreases |sched|
  {
    if sched == [] then w else Run(usable, Step(usable, w, sched[0].t, sched[0].v), sched[1..])
  }

  function Start(): World {
    World(Init(2, 2).value, [0, 0], [None, None], Shared(-1, 0, 0, 0, 0))
  }

  // ---------- what every step keeps ----------

  /** The exit that the shared variables call for. */
  function Verdict(usable: int -> bool, sh: Shared): Reason {
    if !usable(sh.ctx) then NoContext
    else if sh.pmid == 0 then NoPmid
    else if sh.desc == 0 then NoDesc
    else if sh.instance == 0 then NoInstance
    else if sh.rp == 0 then NoResult
    else Finished
  }

  /** Where a thread that leaves for this reason stands. */
  function ExitAt(why: Reason): set<nat> {
    match why
    case NoContext => {3, 5}
    case NoPmid => {8}
    case NoDesc => {11}
    case NoInstance => {14}
    case NoResult => {17}
    case Finished => {18}
  }

  predicate Placed(t: nat, at: nat, left: Option<Reason>, th: Thread) {
    && at <= 18
    && |th.rets| == Waits(t, at)
    && (th.pc != Outside ==> Program(t, at) == Wait && left.None?)
    && (left.Some? ==> at in ExitAt(left.value))
  }

  /** The tests a thread at `at` has passed still hold, and the one it failed still fails. */
  predicate Passed(usable: int -> bool, at: nat, left: Option<Reason>, sh: Shared) {
    && (at > 3 ==> usable(sh.ctx))
    && (at > 8 ==> sh.pmid != 0)
    && (at > 11 ==> sh.desc != 0)
    && (at > 14 ==> sh.instance != 0)
    && (at > 17 ==> sh.rp != 0)
    && (left.Some? ==> left.value == Verdict(usable, sh))
  }

  predicate Agreed(usable: int -> bool, w: World) {
    && Shape(w)
    && Placed(0, w.at[0], w.left[0], w.b.threads[0]) && Placed(1, w.at[1], w.left[1], w.b.threads[1])
    && Passed(usable, w.at[0], w.left[0], w.shared) && Passed(usable, w.at[1], w.left[1], w.shared)
  }

  lemma WaitStep(usable: int -> bool, w: World, t: nat, v: Option<int>)
    requires Agreed(usable, w) && CanStep(w, t) && AtWait(w, t)
    ensures Agreed(usable, Step(usable, w, t, v))
  {
    DoFrame(w.b, t);
  }

  /** A store by thread t disturbs no test that a thread no further along has passed or failed. */
  lemma StoreDisturbsNothing(usable: int -> bool, t: nat, at: nat, u: nat, at': nat, left': Option<Reason>, sh: Shared, v: Option<int>)
    requires t < 2 && u == 1 - t && at <= 18 && at' <= 18
    requires Passed(usable, at, None, sh) && Passed(usable, at', left', sh)
    requires left'.Some? ==> at' in ExitAt(left'.value)
    requires Waits(u, at') <= Waits(t, at)
    ensures Passed(usable, at', left', Stored(Program(t, at), sh, v))
  {
  }

  /** A thread leaves with the verdict, or goes on having passed one test more. */
  lemma OwnStep(usable: int -> bool, t: nat, at: nat, sh: Shared, v: Option<int>)
    requires t < 2 && at <= 18 && Passed(usable, at, None, sh) && Program(t, at) != Wait
    ensures var why := Leaves(usable, Program(t, at), sh);
            if why.Some? then why.value == Verdict(usable, sh) && at in ExitAt(why.value)
            else at < 18 && Waits(t, at + 1) == Waits(t, at) && Passed(usable, at + 1, None, Stored(Program(t, at), sh, v))
  {
  }

  lemma OpStep(usable: int -> bool, w: World, t: nat, v: Option<int>)
    requires Agreed(usable, w) && CanStep(w, t) && !AtWait(w, t)
    requires |w.b.threads[1 - t].rets| <= |w.b.threads[t].rets|
    ensures Agreed(usable, Step(usable, w, t, v))
  {
    OwnStep(usable, t, w.at[t], w.shared, v);
    StoreDisturbsNothing(usable, t, w.at[t], 1 - t, w.at[1 - t], w.left[1 - t], w.shared, v);
  }

  lemma {:induction false} RunAgreed(usable: int -> bool, w: World, sched: seq<Choice>)
    requires Inv(w.b) && Agreed(usable, w) && Possible(usable, w, sched)
    ensures Inv(Run(usable, w, sched).b) && Agreed(usable, Run(usable, w, sched))
    ensures |sched| + Work(Run(usable, w, sched), 0) + Work(Run(usable, w, sched), 1) <= Work(w, 0) + Work(w, 1)
    decreases |sched|
  {
    if sched != [] {
      var t, v := sched[0].t, sched[0].v;
      StepAgreed(usable, w, t, v);
      StepDoesWork(usable, w, t, v);
      RunAgreed(usable, Step(usable, w, t, v), sched[1..]);
    }
  }

  lemma StepAgreed(usable: int -> bool, w: World, t: nat, v: Option<int>)
    requires Inv(w.b) && Agreed(usable, w) && CanStep(w, t)
    ensures Inv(Step(usable, w, t, v).b) && Agreed(usable, Step(usable, w, t, v))
  {
    if AtWait(w, t) {
      StepInv(w.b, t);
      WaitStep(usable, w, t, v);
    } else {
      NextToOutside(w.b, t, 1 - t);
      OpStep(usable, w, t, v);
    }
  }

  /** Work left for thread t. */
  function Work(w: World, t: nat): nat
    requires Shape(w) && t < 2 && w.at[t] <= 18
  {
    if w.left[t].Some? then 0
    else 20 * (18 - w.at[t]) + (if w.b.threads[t].pc == Outside then 10 else Rank(w.b.threads[t].pc))
  }

  lemma StepDoesWork(usable: int -> bool, w: World, t: nat, v: Option<int>)
    requires Shape(w) && CanStep(w, t) && w.at[0] <= 18 && w.at[1] <= 18
    requires var w' := Step(usable, w, t, v); w'.at[0] <= 18 && w'.at[1] <= 18
    ensures var w' := Step(usable, w, t, v); Work(w', 0) + Work(w', 1) < Work(w, 0) + Work(w, 1)
  {
    if AtWait(w, t) {
      DoFrame(w.b, t);
      StepRank(w.b, t);
    }
  }

  // ---------- the theorems ----------

  /** In every interleaving, whatever the library calls return, two threads that left did so for the same reason. */
  lemma SameExit(usable: int -> bool, sched: seq<Choice>)
    requires Possible(usable, Start(), sched)
    ensures var w := Run(usable, Start(), sched);
            |w.left| == 2 && (w.left[0].Some? && w.left[1].Some? ==> w.left[0] == w.left[1])
  {
    InitInv(2);
    RunAgreed(usable, Start(), sched);
  }

  /** No thread waits for ever: runs are bounded, and when no thread can step both have left. */
  lemma NobodyStranded(usable: int -> bool, sched: seq<Choice>)
    requires Possible(usable, Start(), sched)
    ensures |sched| <= 740
    ensures var w := Run(usable, Start(), sched);
            !CanStep(w, 0) && !CanStep(w, 1) ==> |w.left| == 2 && w.left[0].Some? && w.left[0] == w.left[1]
  {
    InitInv(2);
    RunAgreed(usable, Start(), sched);
    var w := Run(usable, Start(), sched);
    if !CanStep(w, 0) && !CanStep(w, 1) { StuckMeansGone(usable, w); }
  }

  lemma StuckMeansGone(usable: int -> bool, w: World)
    requires Inv(w.b) && Agreed(usable, w) && !CanStep(w, 0) && !CanStep(w, 1)
    ensures w.left[0].Some? && w.left[0] == w.left[1]
  {
    forall u: nat ensures !CanGoOn(w.b, u) {
      assert CanGoOn(w.b, u) ==> CanStep(w, u);
    }
    StuckShape(w.b);
    var t: nat :| t < 2 && w.b.threads[t].pc == Outside;
    NextToOutside(w.b, t, 1 - t);
    SleeperRefuted(usable, w, t);
  }

  /** A thread cannot sleep at a barrier that the other one, having left, will not reach. */
  lemma SleeperRefuted(usable: int -> bool, w: World, t: nat)
    requires Agreed(usable, w) && t < 2 && w.left[t].Some?
    requires |w.b.threads[1 - t].rets| == |w.b.threads[t].rets|
    ensures w.b.threads[1 - t].pc == Outside
  {
  }

  // ---------- which exit a run takes ----------

  /** A value that a library call has put into a shared variable. */
  datatype Write = Write(op: Op, value: int)

  predicate Writes(op: Op) { op in {NewContext, LookupName, LookupDesc, GetInDom, Fetch} }

  /** The write made by one choice, if it makes one. */
  function Made(w: World, c: Choice): seq<Write>
    requires CanStep(w, c.t)
  {
    var op := Program(c.t, w.at[c.t]);
    if !AtWait(w, c.t) && Writes(op) && c.v.Some? then [Write(op, c.v.value)] else []
  }

  /** All the writes of a run, in order. */
  function Trace(usable: int -> bool, w: World, sched: seq<Choice>): seq<Write>
    requires Possible(usable, w, sched)
    decreases |sched|
  {
    if sched == [] then []
    else
      Made(w, sched[0]) + Trace(usable, Step(usable, w, sched[0].t, sched[0].v), sched[1..])
  }

  /** The value the last of these calls has stored, or what there was before. */
  function LastOf(trace: seq<Write>, op: Op, before: int): int {
    if trace == [] then before
    else LastOf(trace[1..], op, if trace[0].op == op then trace[0].value else before)
  }

  predicate Remembers(sh: Shared, trace: seq<Write>, sh': Shared) {
    && sh'.ctx == LastOf(trace, NewContext, sh.ctx)
    && sh'.pmid == LastOf(trace, LookupName, sh.pmid)
    && sh'.desc == LastOf(trace, LookupDesc, sh.desc)
    && sh'.instance == LastOf(trace, GetInDom, sh.instance)
    && sh'.rp == LastOf(trace, Fetch, sh.rp)
  }

  lemma RemembersMade(usable: int -> bool, w: World, c: Choice, trace: seq<Write>, sh': Shared)
    requires CanStep(w, c.t) && Remembers(Step(usable, w, c.t, c.v).shared, trace, sh')
    ensures Remembers(w.shared, Made(w, c) + trace, sh')
  {
    var made := Made(w, c);
    if made == [] {
      assert made + trace == trace;
    } else {
      assert (made + trace)[0] == made[0] && (made + trace)[1..] == trace;
    }
  }

  /** After every run each shared variable holds what the last call of its kind has stored. */
  lemma {:induction false} RunRemembers(usable: int -> bool, w: World, sched: seq<Choice>)
    requires Possible(usable, w, sched)
    ensures Remembers(w.shared, Trace(usable, w, sched), Run(usable, w, sched).shared)
    decreases |sched|
  {
    if sched != [] {
      var w' := Step(usable, w, sched[0].t, sched[0].v);
      RunRemembers(usable, w', sched[1..]);
      RemembersMade(usable, w, sched[0], Trace(usable, w', sched[1..]), Run(usable, w', sched[1..]).shared);
    }
  }

  /** The exit called for by the writes of a run: the first result that is missing decides. */
  predicate CalledFor(usable: int -> bool, trace: seq<Write>, why: Reason) {
    var context := usable(LastOf(trace, NewContext, -1));
    var pmid := context && LastOf(trace, LookupName, 0) != 0;
    var desc := pmid && LastOf(trace, LookupDesc, 0) != 0;
    var instance := desc && LastOf(trace, GetInDom, 0) != 0;
    var result := instance && LastOf(trace, Fetch, 0) != 0;
    && (why == NoContext <==> !context)
    && (why == NoPmid <==> context && !pmid)
    && (why == NoDesc <==> pmid && !desc)
    && (why == NoInstance <==> desc && !instance)
    && (why == NoResult <==> instance && !result)
    && (why == Finished <==> result)
  }

  predicate Complete(usable: int -> bool, sched: seq<Choice>) {
    && Possible(usable, Start(), sched)
    && var w := Run(usable, Start(), sched); !CanStep(w, 0) && !CanStep(w, 1)
  }

  predicate BothLeft(w: World, why: Reason) { w.left == [Some(why), Some(why)] }

  lemma VerdictIsCalledFor(usable: int -> bool, trace: seq<Write>, sh: Shared)
    requires Remembers(Shared(-1, 0, 0, 0, 0), trace, sh)
    ensures CalledFor(usable, trace, Verdict(usable, sh))
  {
  }

  lemma CompleteMeansVerdict(usable: int -> bool, sched: seq<Choice>)
    requires Complete(usable, sched)
    ensures var w := Run(usable, Start(), sched);
      Agreed(usable, w) && BothLeft(w, Verdict(usable, w.shared))
  {
    InitInv(2);
    RunAgreed(usable, Start(), sched);
    StuckMeansGone(usable, Run(usable, Start(), sched));
  }

  /** Every complete run ends with both threads gone for the reason its library calls give. */
  lemma ExitIsCalledFor(usable: int -> bool, sched: seq<Choice>) returns (why: Reason)
    requires Complete(usable, sched)
    ensures BothLeft(Run(usable, Start(), sched), why)
    ensures CalledFor(usable, Trace(usable, Start(), sched), why)
  {
    var w := Run(usable, Start(), sched);
    why := Verdict(usable, w.shared);
    CompleteMeansVerdict(usable, sched);
    RunRemembers(usable, Start(), sched);
    VerdictIsCalledFor(usable, Trace(usable, Start(), sched), w.shared);
  }

  // ---------- runs in which every call succeeds ----------

  /** What a thread past its own calls can rely on when they all succeed. */
  predicate Supplied(at: nat, sh: Shared) {
    && (at > 6 ==> sh.pmid != 0) && (at > 9 ==> sh.desc != 0)
    && (at > 12 ==> sh.instance != 0) && (at > 15 ==> sh.rp != 0)
  }

  predicate BothSupplied(w: World) {
    Shape(w) && Supplied(w.at[0], w.shared) && Supplied(w.at[1], w.shared)
  }

  predicate Succeeds(c: Choice) { c.v.Some? && c.v.value != 0 }

  lemma SuppliedStep(usable: int -> bool, w: World, c: Choice)
    requires Agreed(usable, w) && CanStep(w, c.t) && Succeeds(c) && BothSupplied(w)
    ensures BothSupplied(Step(usable, w, c.t, c.v))
  {
    if AtWait(w, c.t) {
      DoFrame(w.b, c.t);
    }
  }

  lemma {:induction false} RunSupplied(usable: int -> bool, w: World, sched: seq<Choice>)
    requires Inv(w.b) && Agreed(usable, w) && Possible(usable, w, sched) && BothSupplied(w)
    requires forall i :: 0 <= i < |sched| ==> Succeeds(sched[i])
    ensures BothSupplied(Run(usable, w, sched))
    decreases |sched|
  {
    if sched != [] {
      SuppliedStep(usable, w, sched[0]);
      StepAgreed(usable, w, sched[0].t, sched[0].v);
      RunSupplied(usable, Step(usable, w, sched[0].t, sched[0].v), sched[1..]);
    }
  }

  /** Where thread t makes its call of this kind. */
  function CallAt(t: nat, op: Op): nat
    requires Writes(op)
  {
    match op
    case NewContext => t
    case LookupName => 6
    case LookupDesc => 9
    case GetInDom => 12
    case Fetch => 15
  }

  /** How many of the two threads are past their call. */
  function Past(w: World, op: Op): nat
    requires Shape(w) && Writes(op)
  {
    (if w.at[0] > CallAt(0, op) then 1 else 0) + (if w.at[1] > CallAt(1, op) then 1 else 0)
  }

  function CountOf(trace: seq<Write>, op: Op): nat {
    if trace == [] then 0 else (if trace[0].op == op then 1 else 0) + CountOf(trace[1..], op)
  }

  lemma PastStep(usable: int -> bool, w: World, c: Choice, op: Op)
    requires Agreed(usable, w) && CanStep(w, c.t) && Succeeds(c) && Writes(op)
    ensures var w' := Step(usable, w, c.t, c.v); Shape(w') && Past(w', op) == Past(w, op) + CountOf(Made(w, c), op)
  {
    if AtWait(w, c.t) {
      DoFrame(w.b, c.t);
    }
  }

  lemma CountMade(made: seq<Write>, trace: seq<Write>, op: Op)
    requires |made| <= 1
    ensures CountOf(made + trace, op) == CountOf(made, op) + CountOf(trace, op)
  {
    if made == [] {
      assert made + trace == trace;
    } else {
      assert (made + trace)[0] == made[0] && (made + trace)[1..] == trace;
    }
  }

  /** Every call is made once by every thread that gets past it. */
  lemma {:induction false} RunCounts(usable: int -> bool, w: World, sched: seq<Choice>, op: Op)
    requires Inv(w.b) && Agreed(usable, w) && Possible(usable, w, sched) && Writes(op)
    requires forall i :: 0 <= i < |sched| ==> Succeeds(sched[i])
    ensures Shape(Run(usable, w, sched))
    ensures CountOf(Trace(usable, w, sched), op) + Past(w, op) == Past(Run(usable, w, sched), op)
    decreases |sched|
  {
    if sched != [] {
      var w' := Step(usable, w, sched[0].t, sched[0].v);
      StepAgreed(usable, w, sched[0].t, sched[0].v);
      RunCounts(usable, w', sched[1..], op);
      PastStep(usable, w, sched[0], op);
      CountMade(Made(w, sched[0]), Trace(usable, w', sched[1..]), op);
    }
  }

  lemma SuppliedFinishes(usable: int -> bool, w: World)
    requires Agreed(usable, w) && BothSupplied(w) && usable(w.shared.ctx) && BothLeft(w, Verdict(usable, w.shared))
    ensures BothLeft(w, Finished)
  {
  }

  /**
   If every context is usable and every call stores something, both threads get through to pmStore,
   having made each of the five calls once.
   */
  lemma SuccessGetsThrough(usable: int -> bool, sched: seq<Choice>, op: Op)
    requires Complete(usable, sched) && (forall x :: usable(x)) && forall i :: 0 <= i < |sched| ==> Succeeds(sched[i])
    requires Writes(op)
    ensures BothLeft(Run(usable, Start(), sched), Finished)
    ensures CountOf(Trace(usable, Start(), sched), op) == 2
  {
    CompleteMeansVerdict(usable, sched);
    InitInv(2);
    RunSupplied(usable, Start(), sched);
    SuppliedFinishes(usable, Run(usable, Start(), sched));
    RunCounts(usable, Start(), sched, op);
  }
}
