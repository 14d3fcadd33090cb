/**
 qa/src/multithread7.c: three threads fetch through one, two or three host contexts while
 changing the instance profiles of those contexts. Library calls are atomic and each thread
 has its own current context; mymutex is taken only where the source takes it.
 */
module ProfiledFetch {

  // ---------- instance profiles (src/libpcp/src/profile.c) ----------

  /** Include: all but `insts`. Exclude: none but `insts`. */
  datatype Entry = Include(insts: set<int>) | Exclude(insts: set<int>)

  /** Per instance domain; a missing domain is in the default state, all instances. */
  type Profile = map<int, Entry>

  /** pmAddProfile; an empty list means every instance. */
  function AddProfile(p: Profile, indom: int, insts: set<int>): Profile {
    if insts == {} then p[indom := Include({})]
    else
      var e := if indom in p then p[indom] else Exclude({});
      p[indom := match e
                 case Include(xs) => Include(xs - insts)
                 case Exclude(xs) => Exclude(xs + insts)]
  }

  /** pmDelProfile; an empty list means every instance. */
  function DelProfile(p: Profile, indom: int, insts: set<int>): Profile {
    if insts == {} then p[indom := Exclude({})]
    else
      var e := if indom in p then p[indom] else Exclude({});
      p[indom := match e
                 case Include(xs) => Include(xs + insts)
                 case Exclude(xs) => Exclude(xs - insts)]
  }

  /** __pmInProfile */
  predicate InProfile(p: Profile, indom: int, inst: int) {
    if indom !in p then true
    else match p[indom]
      case Include(xs) => inst !in xs
      case Exclude(xs) => inst in xs
  }

  /** After pmAddProfile the instances listed are selected, with those selected before in a domain already touched. */
  lemma AddSelects(p: Profile, indom: int, insts: set<int>, d: int, i: int)
    ensures InProfile(AddProfile(p, indom, insts), d, i) <==>
      if d != indom then InProfile(p, d, i)
      else insts == {} || i in insts || (indom in p && InProfile(p, d, i))
  {
  }

  /** After pmDelProfile the instances listed are not selected, nor is any other in a domain not touched before. */
  lemma DelSelects(p: Profile, indom: int, insts: set<int>, d: int, i: int)
    ensures InProfile(DelProfile(p, indom, insts), d, i) <==>
      if d != indom then InProfile(p, d, i)
      else insts != {} && i !in insts && indom in p && InProfile(p, d, i)
  {
  }

  lemma {:induction false} Outside(s: set<int>) returns (i: int)
    ensures forall x :: x in s ==> x < i
  {
    if x :| x in s {
      var above := Outside(s - {x});
      i := if x < above then above else x + 1;
      forall y | y in s ensures y < i {
        assert y == x || y in s - {x};
      }
    } else {
      i := 0;
    }
  }

  ghost predicate RemovesTheList(p: Profile, indom: int, insts: set<int>) {
    forall d, i :: InProfile(DelProfile(p, indom, insts), d, i) <==> InProfile(p, d, i) && !(d == indom && i in insts)
  }

  /**
   pmDelProfile with a list removes that list and nothing else exactly when the domain has been in a
   profile call before: the entry made for a new domain starts out empty instead of full.
   */
  lemma RemovesTheListIffTouched(p: Profile, indom: int, insts: set<int>)
    requires insts != {}
    ensures RemovesTheList(p, indom, insts) <==> indom in p
  {
    var i := Outside(insts);
    DelSelects(p, indom, insts, indom, i);
    if indom in p {
      forall d, j ensures InProfile(DelProfile(p, indom, insts), d, j) <==> InProfile(p, d, j) && !(d == indom && j in insts) {
        DelSelects(p, indom, insts, d, j);
      }
    }
  }

  // ---------- the threads ----------

  datatype Op = Lock | Unlock | Add(indom: int, insts: set<int>) | Del(indom: int, insts: set<int>) | Fetch

  /** `hosts` contexts are in use; the domains of pmcd.control.register and sampledso.bin. */
  datatype Setup = Setup(hosts: nat, register: int, bin: int, locking: bool)

  predicate Valid(c: Setup) { 1 <= c.hosts <= 3 }

  /** The context of thread t, lines 248-275. */
  function Ctx(c: Setup, t: nat): nat {
    if t == 0 then 0
    else if t == 1 then (if c.hosts >= 2 then 1 else 0)
    else if c.hosts == 3 then 2 else if c.hosts == 2 then 1 else 0
  }

  const SOME: set<int> := {0, 1, 2, 4, 8}
  const ENDS: set<int> := {100, 900}

  /** The loop body of func1, func2 and func3; it is repeated any number of times. */
  function Body(c: Setup, t: nat): (ops: seq<Op>) {
    if t == 0 then [Fetch]
    else if t == 1 then
      if Ctx(c, 1) != Ctx(c, 0) then [Lock, Del(c.register, {}), Add(c.register, SOME), Fetch, Unlock]
      else [Fetch]
    else if Ctx(c, 2) != Ctx(c, 1) then
      [Add(c.bin, {}), Del(c.bin, ENDS), Fetch,
       Add(c.bin, {}), Del(c.bin, ENDS), Fetch,
       Add(c.bin, {}), Del(c.bin, ENDS), Fetch, Fetch, Fetch]
    else
      [Lock, Add(c.register, {}), Fetch, Unlock]
  }

  /** `owner` is 0 when the mutex is free and t + 1 when thread t holds it. */
  datatype State = State(profiles: seq<Profile>, owner: nat, pc: seq<nat>, log: seq<(nat, Profile)>)

  predicate CanStep(c: Setup, s: State, t: nat) {
    && |s.profiles| == |s.pc| == 3 && t < 3 && s.pc[t] < |Body(c, t)|
    && (Body(c, t)[s.pc[t]] == Lock && c.locking ==> s.owner == 0)
  }

  function Step(c: Setup, s: State, t: nat): State
    requires Valid(c) && CanStep(c, s, t)
  {
    var x := Ctx(c, t);
    var on := s.(pc := s.pc[t := if s.pc[t] + 1 == |Body(c, t)| then 0 else s.pc[t] + 1]);
    match Body(c, t)[s.pc[t]]
    case Lock => if c.locking then on.(owner := t + 1) else on
    case Unlock => if c.locking then on.(owner := 0) else on
    case Add(d, xs) => on.(profiles := s.profiles[x := AddProfile(s.profiles[x], d, xs)])
    case Del(d, xs) => on.(profiles := s.profiles[x := DelProfile(s.profiles[x], d, xs)])
    case Fetch => on.(log := s.log + [(t, s.profiles[x])])
  }

  function Start(): State {
    State([map[], map[], map[]], 0, [0, 0, 0], [])
  }

  predicate Possible(c: Setup, s: State, sched: seq<nat>)
    requires Valid(c)
    decreases |sched|
  {
    sched == [] || (CanStep(c, s, sched[0]) && Possible(c, Step(c, s, sched[0]), sched[1..]))
  }

  function Run(c: Setup, s: State, sched: seq<nat>): State
    requires Valid(c) && Possible(c, s, sched)
    decreases |sched|
  {
    if sched == [] then s else Run(c, Step(c, s, sched[0]), sched[1..])
  }

  // ---------- what each thread means to fetch ----------

  /** The instances thread t selects: five of the register, all but two of the bins, or everything. */
  predicate Wanted(c: Setup, t: nat, indom: int, inst: int) {
    if t == 1 && c.hosts >= 2 && indom == c.register then inst in SOME
    else if t == 2 && c.hosts == 3 && indom == c.bin then inst !in ENDS
    else true
  }

  ghost predicate FetchOk(c: Setup, t: nat, p: Profile) {
    forall indom, inst :: InProfile(p, indom, inst) <==> Wanted(c, t, indom, inst)
  }

  ghost predicate LogOk(c: Setup, s: State) {
    forall i :: 0 <= i < |s.log| ==> FetchOk(c, s.log[i].0, s.log[i].1)
  }

  // ---------- what every step keeps ----------

  /** Nothing deselected. */
  predicate Full(p: Profile) {
    forall d :: d in p ==> p[d] == Include({})
  }

  /** Only domain d is touched, and it is in state e. */
  predicate Only(p: Profile, d: int, e: Entry) {
    p.Keys == {d} && p[d] == e
  }

  predicate Mutex(c: Setup, s: State)
    requires Valid(c) && |s.profiles| == |s.pc| == 3
  {
    && (c.hosts >= 2 ==> (s.pc[1] > 0 <==> s.owner == 2))
    && (c.hosts <= 2 ==> (s.pc[2] > 0 <==> s.owner == 3))
    && (s.owner in {0, 2, 3}) && (c.hosts == 1 ==> s.owner != 2) && (c.hosts == 3 ==> s.owner != 3)
  }

  predicate Profiles(c: Setup, s: State)
    requires Valid(c) && |s.profiles| == |s.pc| == 3
  {
    && (c.hosts == 1 ==> Full(s.profiles[0]))
    && (c.hosts >= 2 ==> s.profiles[0] == map[])
    && (c.hosts == 2 ==> s.profiles[1].Keys <= {c.register})
    && (c.hosts == 3 ==> s.profiles[1].Keys <= {c.register} && s.profiles[2].Keys <= {c.bin})
    && (c.hosts >= 2 && s.pc[1] == 2 ==> Only(s.profiles[1], c.register, Exclude({})))
    && (c.hosts >= 2 && s.pc[1] == 3 ==> Only(s.profiles[1], c.register, Exclude(SOME)))
    && (c.hosts == 2 && s.pc[2] == 2 ==> Only(s.profiles[1], c.register, Include({})))
    && (c.hosts == 3 && s.pc[2] in {1, 4, 7} ==> Only(s.profiles[2], c.bin, Include({})))
    && (c.hosts == 3 && s.pc[2] in {2, 5, 8, 9, 10} ==> Only(s.profiles[2], c.bin, Include(ENDS)))
  }

  ghost predicate Inv(c: Setup, s: State) {
    && Valid(c)
    && |s.profiles| == |s.pc| == 3
    && (forall t :: 0 <= t < 3 ==> s.pc[t] < |Body(c, t)|)
    && (c.locking ==> Mutex(c, s))
    && Profiles(c, s)
    && LogOk(c, s)
  }

  /** Where a fetch stands, the profile is the one its thread means. */
  lemma FetchSeesOwnProfile(c: Setup, s: State, t: nat)
    requires Valid(c) && |s.profiles| == |s.pc| == 3 && Profiles(c, s)
    requires t < 3 && s.pc[t] < |Body(c, t)| && Body(c, t)[s.pc[t]] == Fetch
    ensures FetchOk(c, t, s.profiles[Ctx(c, t)])
  {
  }

  /** The four profile changes the threads make to a profile that touches domain d at most. */
  lemma ProfileSteps(p: Profile, d: int)
    requires p.Keys <= {d}
    ensures Only(AddProfile(p, d, {}), d, Include({}))
    ensures Only(DelProfile(p, d, {}), d, Exclude({}))
    ensures Only(p, d, Exclude({})) ==> Only(AddProfile(p, d, SOME), d, Exclude(SOME))
    ensures Only(p, d, Include({})) ==> Only(DelProfile(p, d, ENDS), d, Include(ENDS))
  {
    assert {} + SOME == SOME && {} + ENDS == ENDS;
  }

  lemma Step0(c: Setup, s: State)
    requires Inv(c, s) && CanStep(c, s, 0)
    ensures Inv(c, Step(c, s, 0))
  {
    FetchSeesOwnProfile(c, s, 0);
  }

  lemma Step1(c: Setup, s: State)
    requires Inv(c, s) && CanStep(c, s, 1) && (c.locking || c.hosts != 2)
    ensures Inv(c, Step(c, s, 1))
  {
    if c.hosts >= 2 { ProfileSteps(s.profiles[1], c.register); }
    if Body(c, 1)[s.pc[1]] == Fetch { FetchSeesOwnProfile(c, s, 1); }
  }

  lemma Step2Shared(c: Setup, s: State)
    requires Inv(c, s) && CanStep(c, s, 2) && c.hosts < 3 && (c.locking || c.hosts != 2)
    ensures Inv(c, Step(c, s, 2))
  {
    if c.hosts == 2 { ProfileSteps(s.profiles[1], c.register); }
    if Body(c, 2)[s.pc[2]] == Fetch { FetchSeesOwnProfile(c, s, 2); }
  }

  lemma Step2Own(c: Setup, s: State)
    requires Inv(c, s) && CanStep(c, s, 2) && c.hosts == 3
    ensures Inv(c, Step(c, s, 2))
  {
    ProfileSteps(s.profiles[2], c.bin);
    if Body(c, 2)[s.pc[2]] == Fetch { FetchSeesOwnProfile(c, s, 2); }
  }

  lemma StepInv(c: Setup, s: State, t: nat)
    requires Inv(c, s) && CanStep(c, s, t) && (c.locking || c.hosts != 2)
    ensures Inv(c, Step(c, s, t))
  {
    if t == 0 { Step0(c, s); }
    else if t == 1 { Step1(c, s); }
    else if c.hosts < 3 { Step2Shared(c, s); }
    else { Step2Own(c, s); }
  }

  lemma {:induction false} RunInv(c: Setup, s: State, sched: seq<nat>)
    requires Inv(c, s) && Possible(c, s, sched) && (c.locking || c.hosts != 2)
    ensures Inv(c, Run(c, s, sched))
    decreases |sched|
  {
    if sched != [] {
      StepInv(c, s, sched[0]);
      RunInv(c, Step(c, s, sched[0]), sched[1..]);
    }
  }

  /** With the mutex used as written, every fetch of every interleaving sees its own thread's profile. */
  lemma FetchesAreIsolated(c: Setup, sched: seq<nat>)
    requires Valid(c) && c.locking && Possible(c, Start(), sched)
    ensures LogOk(c, Run(c, Start(), sched))
  {
    RunInv(c, Start(), sched);
  }

  lemma RunCons(c: Setup, s: State, t: nat, rest: seq<nat>)
    requires Valid(c) && CanStep(c, s, t) && Possible(c, Step(c, s, t), rest)
    ensures Possible(c, s, [t] + rest) && Run(c, s, [t] + rest) == Run(c, Step(c, s, t), rest)
  {
    assert ([t] + rest)[1..] == rest;
  }

  function Interference(): seq<nat> { [1] + ([1] + ([1] + ([2] + ([2] + ([1] + []))))) }

  /** Two threads on one context without the mutex: thread 2 resets what thread 1 has just installed. */
  lemma UnlockedCounterexample(c: Setup)
    requires c.hosts == 2 && !c.locking
    ensures Possible(c, Start(), Interference())
    ensures !LogOk(c, Run(c, Start(), Interference()))
  {
    var s1 := Step(c, Start(), 1);
    var s2 := Step(c, s1, 1);
    var s3 := Step(c, s2, 1);
    var s4 := Step(c, s3, 2);
    var s5 := Step(c, s4, 2);
    var s6 := Step(c, s5, 1);
    RunCons(c, s5, 1, []);
    RunCons(c, s4, 2, [1] + []);
    RunCons(c, s3, 2, [2] + ([1] + []));
    RunCons(c, s2, 1, [2] + ([2] + ([1] + [])));
    RunCons(c, s1, 1, [1] + ([2] + ([2] + ([1] + []))));
    RunCons(c, Start(), 1, [1] + ([1] + ([2] + ([2] + ([1] + [])))));
    assert s6.log[0] == (1, s5.profiles[1]);
    assert InProfile(s6.log[0].1, c.register, 3) && !Wanted(c, 1, c.register, 3);
  }

  /** The mutex is needed exactly where the source says so: when two hosts are given. */
  lemma LockingNeededForTwoHosts(c: Setup)
    requires Valid(c)
    ensures (forall sched: seq<nat> :: Possible(c, Start(), sched) ==> LogOk(c, Run(c, Start(), sched)))
            <==> (c.locking || c.hosts != 2)
  {
    if c.locking || c.hosts != 2 {
      forall sched: seq<nat> | Possible(c, Start(), sched) ensures LogOk(c, Run(c, Start(), sched)) {
        RunInv(c, Start(), sched);
      }
    } else {
      UnlockedCounterexample(c);
    }
  }

  // ---------- nobody is kept out ----------

  /** A thread that cannot go on stands in front of the mutex, and the thread that holds it can. */
  lemma OnlyTheMutexBlocks(c: Setup, s: State, t: nat)
    requires Inv(c, s) && t < 3
    ensures CanStep(c, s, t) || (c.locking && Body(c, t)[s.pc[t]] == Lock && s.owner in {2, 3} && CanStep(c, s, s.owner - 1))
  {
  }

  lemma OwnerStep(c: Setup, s: State, t: nat)
    requires Inv(c, s) && c.locking && t < 3 && s.owner == t + 1
    ensures CanStep(c, s, t)
    ensures var s', last := Step(c, s, t), s.pc[t] + 1 == |Body(c, t)|;
      s'.pc == s.pc[t := if last then 0 else s.pc[t] + 1] && s'.owner == if last then 0 else t + 1
  {
  }

  /** Going on alone, the thread that holds the mutex gives it back at the end of its loop body. */
  lemma {:induction false} OwnerFrees(c: Setup, s: State, t: nat) returns (rest: seq<nat>)
    requires Inv(c, s) && c.locking && t < 3 && s.owner == t + 1
    ensures |rest| == |Body(c, t)| - s.pc[t] && forall i :: 0 <= i < |rest| ==> rest[i] == t
    ensures Possible(c, s, rest) && Run(c, s, rest).owner == 0 && Run(c, s, rest).pc == s.pc[t := 0]
    ensures |Run(c, s, rest).profiles| == 3
    decreases |Body(c, t)| - s.pc[t]
  {
    OwnerStep(c, s, t);
    var s' := Step(c, s, t);
    rest := [];
    if s.pc[t] + 1 < |Body(c, t)| {
      StepInv(c, s, t);
      rest := OwnerFrees(c, s', t);
      assert s'.pc[t := 0] == s.pc[t := 0];
    }
    RunCons(c, s, t, rest);
    rest := [t] + rest;
  }

  /** At every point of every run, a thread that cannot go on can do so once the holder of the mutex has gone on alone. */
  lemma NobodyIsKeptOut(c: Setup, sched: seq<nat>, t: nat) returns (rest: seq<nat>)
    requires Valid(c) && (c.locking || c.hosts != 2) && Possible(c, Start(), sched) && t < 3
    ensures var s := Run(c, Start(), sched);
      && Possible(c, s, rest) && CanStep(c, Run(c, s, rest), t)
      && forall i :: 0 <= i < |rest| ==> rest[i] == s.owner - 1
  {
    RunInv(c, Start(), sched);
    var s := Run(c, Start(), sched);
    OnlyTheMutexBlocks(c, s, t);
    rest := [];
    if !CanStep(c, s, t) {
      rest := OwnerFrees(c, s, s.owner - 1);
    }
  }
}
