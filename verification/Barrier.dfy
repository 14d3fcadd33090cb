/**
 The reusable barrier of qa/src/pthread_barrier.h as a concurrent protocol.

 Every source line that touches shared state is one atomic step, and the steps of
 different threads interleave freely. A schedule says which thread moves next, so
 a statement about all schedules is a statement about all interleavings.

 pthread_cond_wait (line 82) is not inside a predicate loop. IEEE Std 1003.1-2008
 allows it to return without a signal; such a return is the separate choice
 `Spurious`, so that the assumption "no spurious wakeup" is visible.
 */
module Barrier {
  import opened Basics

  /** Where a thread stands in pthread_barrier_wait; each name is the step it takes next. */
  datatype Pc =
    | Outside      // not in the call
    | AtLock       // line 71, wants the mutex
    | Bump         // line 72
    | Test         // line 73
    | Reset        // line 75
    | Broadcast    // line 76
    | UnlockLast   // lines 77-78, will return 1
    | CondWait     // line 82, about to release the mutex and sleep
    | Asleep       // line 82, sleeping, not yet signalled
    | Woken        // line 82, signalled, wants the mutex back
    | UnlockOther  // lines 83-84, will return 0

  /** `rets` holds what the completed calls of the thread returned, oldest first. */
  datatype Thread = Thread(pc: Pc, rets: seq<int>)

  /** `winners[k]` is the thread that tripped round k; it is history, no step reads it. */
  datatype State = State(trip: nat, count: nat, owner: Option<nat>, threads: seq<Thread>, winners: seq<nat>)

  /** pthread_barrier_init for `count`, used by `n` threads; None is the EINVAL return. */
  function Init(count: nat, n: nat): Option<State>
  {
    if count == 0 then None
    else Some(State(count, 0, None, seq(n, i => Thread(Outside, [])), []))
  }

  predicate Holds(pc: Pc) {
    pc in {Bump, Test, Reset, Broadcast, UnlockLast, CondWait, UnlockOther}
  }

  /** Can thread t take its next step? Sleepers cannot; lockers need a free mutex. */
  predicate Enabled(s: State, t: nat) {
    t < |s.threads| &&
    match s.threads[t].pc
    case AtLock => s.owner.None?
    case Woken => s.owner.None?
    case Asleep => false
    case _ => true
  }

  function Goto(s: State, t: nat, pc: Pc): State
    requires t < |s.threads|
  {
    s.(threads := s.threads[t := s.threads[t].(pc := pc)])
  }

  function Return(s: State, t: nat, v: int): State
    requires t < |s.threads|
  {
    s.(owner := None, threads := s.threads[t := Thread(Outside, s.threads[t].rets + [v])])
  }

  function Signal(th: Thread): Thread {
    if th.pc == Asleep then th.(pc := Woken) else th
  }

  /** The step thread t takes. */
  function Do(s: State, t: nat): (s': State)
    requires Enabled(s, t)
    ensures |s'.threads| == |s.threads| && s'.trip == s.trip
  {
    match s.threads[t].pc
    case Outside => Goto(s, t, AtLock)
    case AtLock => Goto(s, t, Bump).(owner := Some(t))
    case Bump => Goto(s, t, Test).(count := s.count + 1)
    case Test => Goto(s, t, if s.count >= s.trip then Reset else CondWait)
    case Reset => Goto(s, t, Broadcast).(count := 0, winners := s.winners + [t])
    case Broadcast =>
      Goto(s.(threads := seq(|s.threads|, i requires 0 <= i < |s.threads| => Signal(s.threads[i]))), t, UnlockLast)
    case UnlockLast => Return(s, t, 1)
    case CondWait => Goto(s, t, Asleep).(owner := None)
    case Woken => Goto(s, t, UnlockOther).(owner := Some(t))
    case UnlockOther => Return(s, t, 0)
  }

  /** A scheduler choice: thread t moves, or sleeping thread t wakes for no reason. */
  datatype Choice = Move(t: nat) | Spurious(t: nat)

  predicate Legal(s: State, c: Choice) {
    match c
    case Move(t) => Enabled(s, t)
    case Spurious(t) => t < |s.threads| && s.threads[t].pc == Asleep
  }

  function Apply(s: State, c: Choice): State
    requires Legal(s, c)
  {
    match c
    case Move(t) => Do(s, t)
    case Spurious(t) => Goto(s, t, Woken)
  }

  /** The states a schedule passes through; None when it asks for an impossible move. */
  function Exec(s: State, sched: seq<Choice>): Option<State>
    decreases |sched|
  {
    if sched == [] then Some(s)
    else if Legal(s, sched[0]) then Exec(Apply(s, sched[0]), sched[1..])
    else None
  }

  predicate NoSpurious(sched: seq<Choice>) {
    forall i :: 0 <= i < |sched| ==> sched[i].Move?
  }

  // ---------- the inductive invariant ----------

  /** Completed rounds. */
  function Rounds(s: State): nat { |s.winners| }

  /** Calls of wait that thread th has begun. */
  function Entered(th: Thread): nat {
    |th.rets| + if th.pc == Outside then 0 else 1
  }

  /** The window between lines 75 and 76: round closed, sleepers not yet signalled. */
  predicate Closing(s: State) {
    s.owner.Some? && s.owner.value < |s.threads| && s.threads[s.owner.value].pc == Broadcast
  }

  /** Has th been counted in the round that is still open? */
  predicate Counted(th: Thread, rounds: nat) {
    th.pc in {Test, Reset, CondWait, Asleep} && |th.rets| == rounds
  }

  ghost function CountedSet(s: State): set<nat> {
    set t: nat | t < |s.threads| && Counted(s.threads[t], Rounds(s))
  }

  /** How many calls th has completed, given where it stands. */
  predicate InStep(s: State, th: Thread) {
    match th.pc
    case Outside => |th.rets| == Rounds(s)
    case AtLock => |th.rets| == Rounds(s)
    case Bump => |th.rets| == Rounds(s)
    case Test => |th.rets| == Rounds(s)
    case Reset => |th.rets| == Rounds(s) && s.count == s.trip
    case CondWait => |th.rets| == Rounds(s) && s.count < s.trip
    case Asleep => |th.rets| == if Closing(s) then Rounds(s) - 1 else Rounds(s)
    case _ => |th.rets| == Rounds(s) - 1
  }

  /** The results recorded for thread t name it as winner exactly where it got 1. */
  predicate RetsOk(s: State, t: nat, th: Thread) {
    && |th.rets| <= Rounds(s)
    && (forall k :: 0 <= k < |th.rets| ==> th.rets[k] == if s.winners[k] == t then 1 else 0)
    && (|th.rets| < Rounds(s) ==> (th.pc in {Broadcast, UnlockLast} <==> s.winners[|th.rets|] == t))
  }

  /** Mutex, positions and counter agree. */
  ghost predicate Core(s: State) {
    && 0 < s.trip == |s.threads|
    && (s.owner.Some? ==> s.owner.value < |s.threads|)
    && (forall t :: 0 <= t < |s.threads| ==> (Holds(s.threads[t].pc) <==> s.owner == Some(t)))
    && (forall t :: 0 <= t < |s.threads| ==> InStep(s, s.threads[t]))
    && (Closing(s) ==> forall t :: 0 <= t < |s.threads| && s.owner != Some(t) ==> s.threads[t].pc == Asleep)
    && s.count == |CountedSet(s)|
    && (s.count == s.trip ==> s.owner.Some? && s.threads[s.owner.value].pc in {Test, Reset})
  }

  /** Results and winners agree. */
  predicate Record(s: State) {
    && (forall t :: 0 <= t < |s.threads| ==> RetsOk(s, t, s.threads[t]))
    && (forall k :: 0 <= k < Rounds(s) ==> s.winners[k] < |s.threads|)
  }

  ghost predicate Inv(s: State) {
    Core(s) && Record(s)
  }

  lemma InitInv(n: nat)
    requires 0 < n
    ensures Inv(Init(n, n).value)
  {
    var s := Init(n, n).value;
    assert CountedSet(s) == {};
  }

  /** A subset of 0..n-1 with n elements is all of it. */
  lemma {:induction false} FullSet(a: set<nat>, n: nat)
    requires forall t :: t in a ==> t < n
    ensures |a| <= n
    ensures |a| == n ==> forall t: nat :: t < n ==> t in a
  {
    if n > 0 {
      var b := a - {n - 1};
      FullSet(b, n - 1);
      if n - 1 in a { assert a == b + {n - 1}; } else { assert a == b; }
    } else {
      assert a == {};
    }
  }

  /** And a subset of 0..n-1 that is all of it has n elements. */
  lemma {:induction false} WholeSet(a: set<nat>, n: nat)
    requires forall t: nat :: t in a <==> t < n
    ensures |a| == n
  {
    if n > 0 {
      WholeSet(a - {n - 1}, n - 1);
    } else {
      assert a == {};
    }
  }

  /** Steps that neither count nor close a round leave the counted set alone. */
  lemma SameCounted(s: State, s': State)
    requires |s.threads| == |s'.threads| && Rounds(s) == Rounds(s')
    requires forall t :: 0 <= t < |s.threads| ==> (Counted(s.threads[t], Rounds(s)) <==> Counted(s'.threads[t], Rounds(s)))
    ensures CountedSet(s) == CountedSet(s')
  {
    forall t: nat ensures t in CountedSet(s) <==> t in CountedSet(s') { }
  }

  lemma BumpCounted(s: State, t: nat)
    requires Enabled(s, t) && s.threads[t].pc == Bump && |s.threads[t].rets| == Rounds(s)
    ensures CountedSet(Do(s, t)) == CountedSet(s) + {t} && t !in CountedSet(s)
  {
    var s' := Do(s, t);
    forall u: nat ensures u in CountedSet(s') <==> u in CountedSet(s) + {t} { }
  }

  lemma BumpCore(s: State, t: nat)
    requires Core(s) && Enabled(s, t) && s.threads[t].pc == Bump
    ensures Core(Do(s, t))
  {
    BumpCounted(s, t);
    FullSet(CountedSet(Do(s, t)), s.trip);
  }

  lemma ResetCore(s: State, t: nat)
    requires Core(s) && Enabled(s, t) && s.threads[t].pc == Reset
    ensures Core(Do(s, t))
  {
    var s' := Do(s, t);
    FullSet(CountedSet(s), s.trip);
    forall u: nat | u < s.trip ensures Counted(s.threads[u], Rounds(s)) {
      assert u in CountedSet(s);
    }
    assert CountedSet(s') == {};
  }

  lemma BroadcastCore(s: State, t: nat)
    requires Core(s) && Enabled(s, t) && s.threads[t].pc == Broadcast
    ensures Core(Do(s, t))
  {
    var s' := Do(s, t);
    SameCounted(s, s');
  }

  /** Calling wait and taking the mutex change nothing that is counted. */
  lemma LockCore(s: State, t: nat)
    requires Core(s) && Enabled(s, t) && s.threads[t].pc in {Outside, AtLock, Woken}
    ensures Core(Do(s, t))
  {
    SameCounted(s, Do(s, t));
  }

  lemma TestCore(s: State, t: nat)
    requires Core(s) && Enabled(s, t) && s.threads[t].pc == Test
    ensures Core(Do(s, t))
  {
    SameCounted(s, Do(s, t));
    FullSet(CountedSet(s), s.trip);
  }

  lemma SleepCore(s: State, t: nat)
    requires Core(s) && Enabled(s, t) && s.threads[t].pc == CondWait
    ensures Core(Do(s, t))
  {
    SameCounted(s, Do(s, t));
  }

  lemma ReturnCore(s: State, t: nat)
    requires Core(s) && Enabled(s, t) && s.threads[t].pc in {UnlockLast, UnlockOther}
    ensures Core(Do(s, t))
  {
    SameCounted(s, Do(s, t));
  }

  lemma StepCore(s: State, t: nat)
    requires Core(s) && Enabled(s, t)
    ensures Core(Do(s, t))
  {
    match s.threads[t].pc
    case Bump => BumpCore(s, t);
    case Reset => ResetCore(s, t);
    case Broadcast => BroadcastCore(s, t);
    case UnlockLast => ReturnCore(s, t);
    case UnlockOther => ReturnCore(s, t);
    case Test => TestCore(s, t);
    case CondWait => SleepCore(s, t);
    case _ => LockCore(s, t);
  }

  /** Closing a round: all threads are one result short, and only the closing one stands at Broadcast. */
  lemma ResetRecord(s: State, t: nat)
    requires Inv(s) && Enabled(s, t) && s.threads[t].pc == Reset
    ensures Record(Do(s, t))
  {
    FullSet(CountedSet(s), s.trip);
    forall u: nat | u < s.trip ensures Counted(s.threads[u], Rounds(s)) {
      assert u in CountedSet(s);
    }
  }

  lemma StepRecord(s: State, t: nat)
    requires Inv(s) && Enabled(s, t) && s.threads[t].pc != Reset
    ensures Record(Do(s, t))
  {
    assert InStep(s, s.threads[t]) && RetsOk(s, t, s.threads[t]);
    var s' := Do(s, t);
    forall u | 0 <= u < |s'.threads| ensures RetsOk(s', u, s'.threads[u]) {
      assert RetsOk(s, u, s.threads[u]);
      assert InStep(s, s.threads[u]);
    }
  }

  lemma StepInv(s: State, t: nat)
    requires Inv(s) && Enabled(s, t)
    ensures Inv(Do(s, t))
  {
    StepCore(s, t);
    if s.threads[t].pc == Reset { ResetRecord(s, t); } else { StepRecord(s, t); }
  }

  /** A step of t leaves the results of others, and whether they are in the call, alone. */
  lemma DoFrame(s: State, t: nat)
    requires Enabled(s, t)
    ensures forall u :: 0 <= u < |s.threads| && u != t ==>
              && Do(s, t).threads[u].rets == s.threads[u].rets
              && (Do(s, t).threads[u].pc == Outside <==> s.threads[u].pc == Outside)
    ensures var a, z := s.threads[t], Do(s, t).threads[t];
            if a.pc != Outside && z.pc == Outside then |z.rets| == |a.rets| + 1 else z.rets == a.rets && z.pc != Outside
  {
  }

  lemma {:induction false} RunInv(s: State, sched: seq<Choice>)
    requires Inv(s) && NoSpurious(sched) && Exec(s, sched).Some?
    ensures Inv(Exec(s, sched).value)
    decreases |sched|
  {
    if sched != [] {
      StepInv(s, sched[0].t);
      RunInv(Do(s, sched[0].t), sched[1..]);
    }
  }

  // ---------- safety over all interleavings ----------

  /** No thread is back from its k-th wait unless every thread has begun its k-th wait. */
  predicate NoEarlyReturn(s: State) {
    forall t, u :: 0 <= t < |s.threads| && 0 <= u < |s.threads| ==> |s.threads[t].rets| <= Entered(s.threads[u])
  }

  /** Both the calls begun and the calls completed differ by at most one between threads. */
  predicate Lockstep(s: State) {
    forall t, u :: 0 <= t < |s.threads| && 0 <= u < |s.threads| ==>
      && Entered(s.threads[t]) <= Entered(s.threads[u]) + 1
      && |s.threads[t].rets| <= |s.threads[u].rets| + 1
  }

  lemma InvSafe(s: State)
    requires Inv(s)
    ensures NoEarlyReturn(s) && Lockstep(s)
  {
  }

  /** Next to a thread that is outside, another has completed as many calls, or one less and is still inside. */
  lemma NextToOutside(s: State, t: nat, u: nat)
    requires Inv(s) && t < |s.threads| && u < |s.threads| && s.threads[t].pc == Outside
    ensures || |s.threads[u].rets| == |s.threads[t].rets|
            || (s.threads[u].pc !in {Outside, Asleep} && |s.threads[u].rets| + 1 == |s.threads[t].rets|)
  {
    assert InStep(s, s.threads[t]) && InStep(s, s.threads[u]);
  }

  lemma BarrierSafety(n: nat, sched: seq<Choice>)
    requires 0 < n && NoSpurious(sched)
    requires Exec(Init(n, n).value, sched).Some?
    ensures NoEarlyReturn(Exec(Init(n, n).value, sched).value)
    ensures Lockstep(Exec(Init(n, n).value, sched).value)
  {
    InitInv(n);
    RunInv(Init(n, n).value, sched);
    InvSafe(Exec(Init(n, n).value, sched).value);
  }

  // ---------- the counter, the sleepers and the winners ----------

  /** Times thread th has executed line 72. */
  function Arrivals(th: Thread): nat {
    |th.rets| + if th.pc in {Outside, AtLock, Bump} then 0 else 1
  }

  function TotalArrivals(ths: seq<Thread>): nat {
    if ths == [] then 0 else TotalArrivals(ths[..|ths| - 1]) + Arrivals(ths[|ths| - 1])
  }

  ghost function Sleepers(s: State): set<nat> {
    set t: nat | t < |s.threads| && s.threads[t].pc == Asleep
  }

  /** Threads that have arrived r times each, plus once if counted, have arrived r * |ths| times plus the counted. */
  lemma {:induction false} SumArrivals(ths: seq<Thread>, r: nat, counted: set<nat>)
    requires forall t :: 0 <= t < |ths| ==> Arrivals(ths[t]) == r + if t in counted then 1 else 0
    requires forall t :: t in counted ==> t < |ths|
    ensures TotalArrivals(ths) == r * |ths| + |counted|
  {
    if ths == [] {
      assert counted == {};
    } else {
      var m := |ths| - 1;
      SumArrivals(ths[..m], r, counted - {m});
      assert m in counted ==> counted == (counted - {m}) + {m};
      Distribute(r, m);
    }
  }

  lemma Distribute(r: nat, m: nat)
    ensures r * (m + 1) == r * m + r
  {
  }

  /** What is true of the barrier whenever its mutex is free. */
  lemma FreeMutex(n: nat, sched: seq<Choice>)
    requires 0 < n && NoSpurious(sched)
    requires Exec(Init(n, n).value, sched).Some?
    ensures var s := Exec(Init(n, n).value, sched).value;
            s.owner.None? ==>
              && s.count < n
              && TotalArrivals(s.threads) == Rounds(s) * n + s.count
              && |Sleepers(s)| == s.count
              && exists t: nat :: t < n && t < |s.threads| && s.threads[t].pc != Asleep
  {
    InitInv(n);
    RunInv(Init(n, n).value, sched);
    var s := Exec(Init(n, n).value, sched).value;
    TripFixed(Init(n, n).value, sched);
    FullSet(CountedSet(s), n);
    if s.owner.None? {
      assert Sleepers(s) == CountedSet(s);
      SumArrivals(s.threads, Rounds(s), CountedSet(s));
      if forall t: nat :: t < n ==> s.threads[t].pc == Asleep { WholeSet(CountedSet(s), n); }
    }
  }

  lemma {:induction false} TripFixed(s: State, sched: seq<Choice>)
    requires Exec(s, sched).Some?
    ensures Exec(s, sched).value.trip == s.trip && |Exec(s, sched).value.threads| == |s.threads|
    decreases |sched|
  {
    if sched != [] { TripFixed(Apply(s, sched[0]), sched[1..]); }
  }

  /** In each completed round one thread gets 1 and every other thread that is back got 0. */
  lemma OneWinnerPerRound(n: nat, sched: seq<Choice>, k: nat)
    requires 0 < n && NoSpurious(sched)
    requires Exec(Init(n, n).value, sched).Some?
    requires k < Rounds(Exec(Init(n, n).value, sched).value)
    ensures exists w: nat :: w < n && OnlyWinner(Exec(Init(n, n).value, sched).value, k, w)
  {
    InitInv(n);
    RunInv(Init(n, n).value, sched);
    TripFixed(Init(n, n).value, sched);
    var s := Exec(Init(n, n).value, sched).value;
    assert OnlyWinner(s, k, s.winners[k]);
  }

  predicate OnlyWinner(s: State, k: nat, w: nat) {
    forall t :: 0 <= t < |s.threads| && k < |s.threads[t].rets| ==> s.threads[t].rets[k] == if t == w then 1 else 0
  }

  // ---------- progress ----------

  /** Steps left before a thread is out of the call, or asleep with nobody to wake it. */
  function Rank(pc: Pc): nat {
    match pc
    case Outside => 0
    case UnlockOther => 1
    case UnlockLast => 1
    case Woken => 2
    case Asleep => 3
    case CondWait => 4
    case Broadcast => 2
    case Reset => 3
    case Test => 5
    case Bump => 6
    case AtLock => 7
  }

  function TotalRank(ths: seq<Thread>): nat {
    if ths == [] then 0 else Rank(ths[0].pc) + TotalRank(ths[1..])
  }

  lemma {:induction false} RankDrops(a: seq<Thread>, b: seq<Thread>, t: nat)
    requires |a| == |b| && t < |a|
    requires forall i :: 0 <= i < |a| ==> Rank(b[i].pc) <= Rank(a[i].pc)
    requires Rank(b[t].pc) < Rank(a[t].pc)
    ensures TotalRank(b) < TotalRank(a)
  {
    if t > 0 { RankDrops(a[1..], b[1..], t - 1); } else { RankLeq(a[1..], b[1..]); }
  }

  lemma {:induction false} RankLeq(a: seq<Thread>, b: seq<Thread>)
    requires |a| == |b|
    requires forall i :: 0 <= i < |a| ==> Rank(b[i].pc) <= Rank(a[i].pc)
    ensures TotalRank(b) <= TotalRank(a)
  {
    if a != [] { RankLeq(a[1..], b[1..]); }
  }

  /** Thread t can move without starting a new call. */
  predicate CanGoOn(s: State, t: nat) {
    Enabled(s, t) && s.threads[t].pc != Outside
  }

  /** A schedule that only finishes calls already begun. */
  predicate NoNewCalls(s: State, sched: seq<nat>)
    decreases |sched|
  {
    sched == [] || (CanGoOn(s, sched[0]) && NoNewCalls(Do(s, sched[0]), sched[1..]))
  }

  function Finish(s: State, sched: seq<nat>): State
    requires NoNewCalls(s, sched)
    decreases |sched|
  {
    if sched == [] then s else Finish(Do(s, sched[0]), sched[1..])
  }

  /** A step inside the call lowers the rank of its thread and raises nobody's. */
  lemma StepRank(s: State, t: nat)
    requires Enabled(s, t)
    ensures s.threads[t].pc != Outside ==> Rank(Do(s, t).threads[t].pc) < Rank(s.threads[t].pc)
    ensures forall u :: 0 <= u < |s.threads| && u != t ==> Rank(Do(s, t).threads[u].pc) <= Rank(s.threads[u].pc)
    ensures forall u :: 0 <= u < |s.threads| && s.threads[u].pc != Outside ==> Entered(Do(s, t).threads[u]) == Entered(s.threads[u])
    ensures forall u :: 0 <= u < |s.threads| && u != t ==> Entered(Do(s, t).threads[u]) == Entered(s.threads[u])
  {
  }

  lemma StepFinishes(s: State, t: nat)
    requires CanGoOn(s, t)
    ensures TotalRank(Do(s, t).threads) < TotalRank(s.threads)
    ensures forall u :: 0 <= u < |s.threads| ==> Entered(Do(s, t).threads[u]) == Entered(s.threads[u])
  {
    StepRank(s, t);
    RankDrops(s.threads, Do(s, t).threads, t);
  }

  /** Finishing calls takes boundedly many steps, whoever is scheduled. */
  lemma {:induction false} FinishBounded(s: State, sched: seq<nat>)
    requires Inv(s) && NoNewCalls(s, sched)
    ensures |sched| + TotalRank(Finish(s, sched).threads) <= TotalRank(s.threads)
    ensures Inv(Finish(s, sched)) && |Finish(s, sched).threads| == |s.threads|
    ensures forall t :: 0 <= t < |s.threads| ==> Entered(Finish(s, sched).threads[t]) == Entered(s.threads[t])
    decreases |sched|
  {
    if sched != [] {
      var s1 := Do(s, sched[0]);
      StepInv(s, sched[0]);
      StepFinishes(s, sched[0]);
      FinishBounded(s1, sched[1..]);
    }
  }

  /** When nobody inside can move, only sleepers are inside, and then somebody is still outside. */
  lemma StuckShape(s: State)
    requires Inv(s) && forall t: nat :: !CanGoOn(s, t)
    ensures s.owner.None?
    ensures forall t :: 0 <= t < |s.threads| ==> s.threads[t].pc in {Outside, Asleep}
    ensures exists t :: 0 <= t < |s.threads| && s.threads[t].pc == Outside
  {
    assert s.owner.Some? ==> CanGoOn(s, s.owner.value);
    forall t | 0 <= t < |s.threads| ensures s.threads[t].pc in {Outside, Asleep} {
      assert !CanGoOn(s, t);
    }
    if forall t :: 0 <= t < |s.threads| ==> s.threads[t].pc == Asleep {
      WholeSet(CountedSet(s), s.trip);
    }
  }

  /**
   If every thread has begun k calls then, however the calls are finished, nobody is left
   behind: the schedule is bounded, and once no further step is possible all are outside
   with k results each.
   */
  lemma EveryoneReturns(s: State, k: nat, sched: seq<nat>)
    requires Inv(s) && NoNewCalls(s, sched)
    requires forall t :: 0 <= t < |s.threads| ==> Entered(s.threads[t]) == k
    requires forall t: nat :: !CanGoOn(Finish(s, sched), t)
    ensures |sched| <= TotalRank(s.threads)
    ensures forall t :: 0 <= t < |s.threads| ==>
              t < |Finish(s, sched).threads| && Finish(s, sched).threads[t].pc == Outside && |Finish(s, sched).threads[t].rets| == k
  {
    FinishBounded(s, sched);
    StuckShape(Finish(s, sched));
  }

  // ---------- the assumption about spurious wakeups ----------

  lemma SoloNeverSleeps(s: State)
    requires Inv(s) && s.trip == 1
    ensures s.threads[0].pc != Asleep
  {
    assert 0 in CountedSet(s) ==> CountedSet(s) == {0};
  }

  lemma {:induction false} SoloRunInv(s: State, sched: seq<Choice>)
    requires Inv(s) && s.trip == 1 && Exec(s, sched).Some?
    ensures Inv(Exec(s, sched).value)
    decreases |sched|
  {
    if sched != [] {
      SoloNeverSleeps(s);
      StepInv(s, sched[0].t);
      SoloRunInv(Do(s, sched[0].t), sched[1..]);
    }
  }

  function EarlySchedule(): seq<Choice> {
    [Move(0), Move(0), Move(0), Move(0), Move(0), Spurious(0), Move(0), Move(0)]
  }

  /** Thread 0 stands at pc with results rets; every other thread has done nothing yet. */
  function Alone(n: nat, count: nat, owner: Option<nat>, pc: Pc, rets: seq<int>): State
    requires 0 < n
  {
    State(n, count, owner, seq(n, i => if i == 0 then Thread(pc, rets) else Thread(Outside, [])), [])
  }

  lemma AloneSteps(n: nat)
    requires 1 < n
    ensures Init(n, n).value == Alone(n, 0, None, Outside, [])
    ensures Do(Alone(n, 0, None, Outside, []), 0) == Alone(n, 0, None, AtLock, [])
    ensures Do(Alone(n, 0, None, AtLock, []), 0) == Alone(n, 0, Some(0), Bump, [])
    ensures Do(Alone(n, 0, Some(0), Bump, []), 0) == Alone(n, 1, Some(0), Test, [])
    ensures Do(Alone(n, 1, Some(0), Test, []), 0) == Alone(n, 1, Some(0), CondWait, [])
    ensures Do(Alone(n, 1, Some(0), CondWait, []), 0) == Alone(n, 1, None, Asleep, [])
    ensures Goto(Alone(n, 1, None, Asleep, []), 0, Woken) == Alone(n, 1, None, Woken, [])
    ensures Do(Alone(n, 1, None, Woken, []), 0) == Alone(n, 1, Some(0), UnlockOther, [])
    ensures Do(Alone(n, 1, Some(0), UnlockOther, []), 0) == Alone(n, 1, None, Outside, [0])
  {
    assert [] + [0] == [0];
  }

  /** Thread 0 sleeps, wakes spuriously and returns although thread 1 has not called wait. */
  lemma SpuriousCounterexample(n: nat)
    requires 1 < n
    ensures Exec(Init(n, n).value, EarlySchedule()).Some?
    ensures !NoEarlyReturn(Exec(Init(n, n).value, EarlySchedule()).value)
  {
    AloneSteps(n);
    var c := EarlySchedule();
    ExecTwo(Alone(n, 0, None, Outside, []), c);
    ExecTwo(Alone(n, 0, Some(0), Bump, []), c[2..]);
    ExecTwo(Alone(n, 1, Some(0), CondWait, []), c[4..]);
    ExecTwo(Alone(n, 1, None, Woken, []), c[6..]);
    var s8 := Alone(n, 1, None, Outside, [0]);
    assert |s8.threads[0].rets| > Entered(s8.threads[1]);
  }

  lemma ExecTwo(s: State, c: seq<Choice>)
    requires |c| >= 2 && Legal(s, c[0]) && Legal(Apply(s, c[0]), c[1])
    ensures Exec(s, c) == Exec(Apply(Apply(s, c[0]), c[1]), c[2..])
  {
    assert c[1..][1..] == c[2..];
  }

  /** Tolerating spurious wakeups costs the barrier its guarantee exactly when there is company. */
  lemma SpuriousWakeupsMatter(n: nat)
    requires 0 < n
    ensures (forall sched: seq<Choice> :: Exec(Init(n, n).value, sched).Some? ==>
               NoEarlyReturn(Exec(Init(n, n).value, sched).value))
            <==> n == 1
  {
    if n == 1 {
      forall sched: seq<Choice> | Exec(Init(n, n).value, sched).Some?
        ensures NoEarlyReturn(Exec(Init(n, n).value, sched).value)
      {
        InitInv(1);
        SoloRunInv(Init(1, 1).value, sched);
        InvSafe(Exec(Init(1, 1).value, sched).value);
      }
    } else {
      SpuriousCounterexample(n);
    }
  }
}
