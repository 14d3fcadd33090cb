/**
 Whole runs of the event packer (qa/src/unpack.c): when the records of a run can be unpacked
 again, given which of its reallocs move the buffer.
 */
module EventRuns {
  import opened Basics
  import opened EventLayout
  import opened EventBuffer

  /** The flags of the record that is open after ops. */
  function OpenFlags(ops: seq<Op>): Option<int> {
    if ops == [] then None
    else
      var op := ops[|ops| - 1];
      if op.Record? then Some(op.flags) else OpenFlags(ops[..|ops| - 1])
  }

  /**
   What a caller can see to: a record comes first, parameters go to events and missed counts to
   missed-events records, and values are short.
   */
  predicate Fits(open: Option<int>, op: Op) {
    && IsOp(op)
    && match op
       case Record(_, _, flags) => flags <= MISSED
       case Parameter(x) => Short(x) && open.Some? && open.value != MISSED
       case MissedCount(k) => open == Some(MISSED)
  }

  predicate IsRun(ops: seq<Op>) {
    ops != [] ==>
      var n := |ops| - 1;
      IsRun(ops[..n]) && Fits(OpenFlags(ops[..n]), ops[n])
  }

  /** The records a run describes. */
  function Events(ops: seq<Op>): (r: seq<Event>)
    requires IsRun(ops)
    ensures OpenFlags(ops).Some? ==> r != [] && r[|r| - 1].flags == OpenFlags(ops).value
  {
    if ops == [] then []
    else
      Extended(Events(ops[..|ops| - 1]), ops[|ops| - 1])
  }

  function Extended(rs: seq<Event>, op: Op): seq<Event>
    requires op.Record? || rs != []
  {
    match op
    case Record(sec, usec, flags) => rs + [Event(sec, usec, flags, [], 0)]
    case Parameter(x) => rs[|rs| - 1 := rs[|rs| - 1].(params := rs[|rs| - 1].params + [x])]
    case MissedCount(k) => rs[|rs| - 1 := rs[|rs| - 1].(missed := k)]
  }

  function Need(op: Op): nat {
    match op
    case Record(_, _, _) => 16
    case Parameter(x) => ParamSize(x)
    case MissedCount(_) => 0
  }

  /** The bytes in use after ops. */
  function Size(ops: seq<Op>): nat {
    if ops == [] then 8 else Size(ops[..|ops| - 1]) + Need(ops[|ops| - 1])
  }

  /** The bytes allocated after ops, starting from cap. */
  function Capacity(cap: nat, ops: seq<Op>): (r: nat)
    requires cap > 0
    ensures r > 0
  {
    if ops == [] then cap
    else
      Enlarged(Capacity(cap, ops[..|ops| - 1]), Size(ops[..|ops| - 1]), ops[|ops| - 1])
  }

  function Enlarged(cap: nat, size: nat, op: Op): (r: nat)
    requires cap > 0
    ensures r > 0
  {
    if op.MissedCount? then cap else Doubled(cap, size + Need(op))
  }

  predicate TooSmall(cap: nat, size: nat, op: Op) {
    !op.MissedCount? && size + Need(op) >= cap - 1
  }

  /** Operation k makes the buffer grow. */
  predicate Grows(cap: nat, ops: seq<Op>, k: nat)
    requires cap > 0 && k < |ops|
  {
    TooSmall(Capacity(cap, ops[..k]), Size(ops[..k]), ops[k])
  }

  /** No realloc that takes place moves the buffer. */
  predicate StaysPut(cap: nat, ops: seq<Op>, moves: seq<bool>)
    requires cap > 0 && |moves| == |ops|
  {
    forall k :: 0 <= k < |ops| && Grows(cap, ops, k) ==> !moves[k]
  }

  lemma StaysPutSnoc(cap: nat, ops: seq<Op>, moves: seq<bool>, op: Op, m: bool)
    requires cap > 0 && |moves| == |ops|
    ensures StaysPut(cap, ops + [op], moves + [m]) <==>
      StaysPut(cap, ops, moves) && (Grows(cap, ops + [op], |ops|) ==> !m)
  {
    var all := ops + [op];
    forall k | 0 <= k < |ops| ensures Grows(cap, all, k) <==> Grows(cap, ops, k) {
      assert all[..k] == ops[..k];
    }
    if StaysPut(cap, all, moves + [m]) {
      forall k | 0 <= k < |ops| && Grows(cap, ops, k) ensures !moves[k] {
        assert Grows(cap, all, k) && (moves + [m])[k] == moves[k];
      }
    }
  }

  // ---------- the state after a run ----------

  function After(cap: nat, ops: seq<Op>, moves: seq<bool>): (s: State)
    requires cap > 0 && |moves| == |ops| && IsRun(ops)
    ensures s.cap > 0 && (OpenFlags(ops).Some? ==> s.last.Some?)
  {
    if ops == [] then Empty(cap)
    else
      var n := |ops| - 1;
      Next(After(cap, ops[..n], moves[..n]), ops[n], moves[n])
  }

  /** Every count is what it should be. */
  predicate Right(s: State) {
    s.n == |Held(s)| && AllRight(Held(s))
  }

  predicate AllRight(ss: seq<Stored>) { forall i :: 0 <= i < |ss| ==> CountRight(ss[i]) }

  lemma RightSnoc(ss: seq<Stored>, s: Stored)
    ensures AllRight(ss + [s]) <==> AllRight(ss) && CountRight(s)
    ensures Recs(ss + [s]) == Recs(ss) + [s.rec]
  {
    var all := ss + [s];
    assert forall i :: 0 <= i < |ss| ==> all[i] == ss[i];
    assert all[|ss|] == s;
  }

  /** A record is counted exactly when the array header can be reached. */
  lemma AfterRecord(s: State, sec: int, usec: int, flags: int, m: bool)
    requires s.cap > 0 && s.n <= |Held(s)|
    ensures var s' := Next(s, Record(sec, usec, flags), m);
      && Recs(Held(s')) == Recs(Held(s)) + [Event(sec, usec, flags, [], 0)]
      && s'.n <= |Held(s')|
      && (Right(s') <==> Right(s) && s'.eap)
  {
    RightSnoc(Held(s), Opened(sec, usec, flags));
  }

  /** A parameter is counted exactly when its record can be reached. */
  lemma AfterParam(s: State, x: Param, m: bool)
    requires s.cap > 0 && s.last.Some? && s.last.value.rec.flags != MISSED && CountLow(s.last.value)
    ensures var s' := Next(s, Parameter(x), m);
      && Recs(Held(s')) == Recs(s.front) + [s.last.value.rec.(params := s.last.value.rec.params + [x])]
      && CountLow(s'.last.value)
      && (Right(s') <==> Right(s) && s'.erp)
  {
    var s' := Next(s, Parameter(x), m);
    RightSnoc(s.front, s.last.value);
    RightSnoc(s.front, s'.last.value);
  }

  lemma AfterMissed(s: State, k: int, m: bool)
    requires s.cap > 0 && s.last.Some? && s.last.value.rec.flags == MISSED && s.erp && CountRight(s.last.value)
    ensures var s' := Next(s, MissedCount(k), m);
      && Recs(Held(s')) == Recs(s.front) + [s.last.value.rec.(missed := k)]
      && CountRight(s'.last.value)
      && (Right(s') <==> Right(s))
  {
    var s' := Next(s, MissedCount(k), m);
    RightSnoc(s.front, s.last.value);
    RightSnoc(s.front, s'.last.value);
  }

  /** The state s is as it should be in everything but the counts. */
  predicate Follows(s: State, size: nat, cap: nat, rs: seq<Event>, open: Option<int>) {
    && s.size == size && s.cap == cap > 0
    && Recs(Held(s)) == rs && s.n <= |Held(s)|
    && (s.last.Some? <==> open.Some?)
    && (s.last.Some? ==> s.last.value.rec.flags == open.value && CountLow(s.last.value))
    && (open == Some(MISSED) ==> s.erp && CountRight(s.last.value))
  }

  /** The counts are right, and the pointers good, exactly as long as the buffer has stayed put. */
  predicate Tracks(s: State, put: bool) {
    && (Right(s) <==> put)
    && (put ==> s.eap && (s.last.Some? ==> s.erp))
  }

  lemma StepRecord(s: State, size: nat, cap: nat, rs: seq<Event>, open: Option<int>, put: bool, op: Op, m: bool)
    requires Follows(s, size, cap, rs, open) && Tracks(s, put) && Fits(open, op) && op.Record?
    ensures var s' := Next(s, op, m);
      && Follows(s', size + 16, Doubled(cap, size + 16), rs + [Event(op.sec, op.usec, op.flags, [], 0)], Some(op.flags))
      && Tracks(s', put && !(size + 16 >= cap - 1 && m))
  {
    AfterRecord(s, op.sec, op.usec, op.flags, m);
  }

  lemma LastEvent(s: State, rs: seq<Event>)
    requires s.last.Some? && Recs(Held(s)) == rs
    ensures rs != [] && rs[|rs| - 1] == s.last.value.rec
    ensures forall r :: rs[|rs| - 1 := r] == Recs(s.front) + [r]
  {
    RightSnoc(s.front, s.last.value);
  }

  lemma StepParam(s: State, size: nat, cap: nat, rs: seq<Event>, open: Option<int>, put: bool, op: Op, m: bool)
    requires Follows(s, size, cap, rs, open) && Tracks(s, put) && Fits(open, op) && op.Parameter?
    ensures rs != []
    ensures var s', need := Next(s, op, m), ParamSize(op.x);
      && Follows(s', size + need, Doubled(cap, size + need), Extended(rs, op), open)
      && Tracks(s', put && !(size + need >= cap - 1 && m))
  {
    LastEvent(s, rs);
    AfterParam(s, op.x, m);
  }

  lemma StepMissed(s: State, size: nat, cap: nat, rs: seq<Event>, open: Option<int>, put: bool, op: Op, m: bool)
    requires Follows(s, size, cap, rs, open) && Tracks(s, put) && Fits(open, op) && op.MissedCount?
    ensures rs != []
    ensures var s' := Next(s, op, m); Follows(s', size, cap, Extended(rs, op), open) && Tracks(s', put)
  {
    LastEvent(s, rs);
    AfterMissed(s, op.k, m);
  }

  lemma StepAny(s: State, size: nat, cap: nat, rs: seq<Event>, open: Option<int>, put: bool, op: Op, m: bool)
    requires Follows(s, size, cap, rs, open) && Tracks(s, put) && Fits(open, op)
    ensures op.Record? || rs != []
    ensures var s', open' := Next(s, op, m), if op.Record? then Some(op.flags) else open;
      && Follows(s', size + Need(op), Enlarged(cap, size, op), Extended(rs, op), open')
      && Tracks(s', put && !(TooSmall(cap, size, op) && m))
  {
    match op
    case Record(_, _, _) => StepRecord(s, size, cap, rs, open, put, op, m);
    case Parameter(_) => StepParam(s, size, cap, rs, open, put, op, m);
    case MissedCount(_) => StepMissed(s, size, cap, rs, open, put, op, m);
  }

  /** After every run: everything but the counts is right, and the counts are exactly if the buffer stayed put. */
  lemma {:induction false} RunFollows(cap: nat, ops: seq<Op>, moves: seq<bool>)
    requires cap > 0 && |moves| == |ops| && IsRun(ops)
    ensures Follows(After(cap, ops, moves), Size(ops), Capacity(cap, ops), Events(ops), OpenFlags(ops))
    ensures Tracks(After(cap, ops, moves), StaysPut(cap, ops, moves))
  {
    if ops != [] {
      var n := |ops| - 1;
      var front, op, ms, m := ops[..n], ops[n], moves[..n], moves[n];
      RunFollows(cap, front, ms);
      StaysPutSnoc(cap, front, ms, op, m);
      assert ops == front + [op] && moves == ms + [m];
      var s, put := After(cap, front, ms), StaysPut(cap, front, ms);
      StepAny(s, Size(front), Capacity(cap, front), Events(front), OpenFlags(front), put, op, m);
    }
  }

  // ---------- unpacking after a run ----------

  predicate AllSensible(rs: seq<Event>) { forall i :: 0 <= i < |rs| ==> Sensible(rs[i]) }

  lemma {:induction false} RunsAreSensible(ops: seq<Op>)
    requires IsRun(ops)
    ensures AllSensible(Events(ops))
  {
    if ops != [] {
      RunsAreSensible(ops[..|ops| - 1]);
    }
  }

  predicate Unpacks(b: Cells, rs: seq<Event>) {
    Decode(b).Walked? && Decode(b).items == rs
  }

  /** Sensible records come back exactly when every count is right. */
  lemma UnpacksIffRight(b: Cells, erp: nat, n: int, front: seq<Stored>, last: Stored)
    requires Laid(b, erp, front, last) && Counted(n, front, last) && FieldIs(b, 4, n)
    requires AllSensible(Recs(All(front, last)))
    ensures Unpacks(b, Recs(All(front, last))) <==> n == |front| + 1 && AllRight(All(front, last))
  {
    var ss := All(front, last);
    Joined(b, erp, front, last);
    assert forall i :: 0 <= i < |ss| ==> IsStored(ss[i]) && Recs(ss)[i] == ss[i].rec;
    UnpackIff(b, n, ss);
    assert forall i :: 0 <= i < |ss| ==> (Decodable(ss[i]) <==> CountRight(ss[i]));
  }

  method Apply(buf: Buffer, op: Op, moves: bool)
    requires buf.Valid() && IsOp(op) && (op.Record? || buf.last.Some?)
    requires op.MissedCount? ==> buf.last.value.rec.flags == MISSED
    modifies buf, buf.ebuf
    ensures buf.Valid() && (buf.ebuf == old(buf.ebuf) || fresh(buf.ebuf))
    ensures buf.View() == Next(old(buf.View()), op, moves)
  {
    match op
    case Record(sec, usec, flags) => buf.AddRecord(sec, usec, flags, moves);
    case Parameter(x) => buf.AddParam(x, moves);
    case MissedCount(k) => buf.SetMissed(k);
  }

  lemma ReadyFor(cap: nat, ops: seq<Op>, moves: seq<bool>, i: nat, s: State)
    requires cap > 0 && |moves| == |ops| && IsRun(ops) && i < |ops|
    requires IsRun(ops[..i]) && s == After(cap, ops[..i], moves[..i])
    ensures IsOp(ops[i]) && (ops[i].Record? || s.last.Some?) && s.cap > 0
    ensures ops[i].MissedCount? ==> s.last.value.rec.flags == MISSED
    ensures IsRun(ops[..i + 1]) && After(cap, ops[..i + 1], moves[..i + 1]) == Next(s, ops[i], moves[i])
  {
    RunPrefix(ops, i + 1);
    assert ops[..i + 1][..i] == ops[..i] && moves[..i + 1][..i] == moves[..i];
    RunFollows(cap, ops[..i], moves[..i]);
  }

  method Perform(buf: Buffer, ops: seq<Op>, moves: seq<bool>)
    requires 8 <= buf.ebuf.Length && |moves| == |ops| && IsRun(ops)
    modifies buf, buf.ebuf
    ensures buf.Valid() && buf.View() == After(old(buf.ebuf.Length), ops, moves)
  {
    buf.Reset();
    ghost var cap := buf.ebuf.Length;
    var i := 0;
    assert ops[..0] == [];
    while i < |ops|
      invariant 0 <= i <= |ops| && buf.Valid() && (buf.ebuf == old(buf.ebuf) || fresh(buf.ebuf))
      invariant IsRun(ops[..i]) && buf.View() == After(cap, ops[..i], moves[..i])
    {
      ReadyFor(cap, ops, moves, i, buf.View());
      Apply(buf, ops[i], moves[i]);
      i := i + 1;
    }
    assert ops[..i] == ops && moves[..i] == moves;
  }

  lemma RunSnoc(ops: seq<Op>, op: Op)
    requires IsRun(ops) && Fits(OpenFlags(ops), op)
    ensures IsRun(ops + [op]) && Size(ops + [op]) == Size(ops) + Need(op)
    ensures (op.Record? || Events(ops) != []) && Events(ops + [op]) == Extended(Events(ops), op)
    ensures OpenFlags(ops + [op]) == if op.Record? then Some(op.flags) else OpenFlags(ops)
  {
    assert (ops + [op])[..|ops|] == ops;
  }

  lemma {:induction false} RunPrefix(ops: seq<Op>, i: nat)
    requires IsRun(ops) && i <= |ops|
    ensures IsRun(ops[..i])
    decreases |ops|
  {
    if i == |ops| {
      assert ops[..i] == ops;
    } else {
      RunPrefix(ops[..|ops| - 1], i);
      assert ops[..|ops| - 1][..i] == ops[..i];
    }
  }

  /**
   From reset on, any run of records, parameters and missed counts: its records can be unpacked
   again if and only if no realloc on the way moves the buffer.
   */
  method Pack(buf: Buffer, ops: seq<Op>, moves: seq<bool>)
    requires 8 <= buf.ebuf.Length && |moves| == |ops| && IsRun(ops)
    modifies buf, buf.ebuf
    ensures buf.Valid() && buf.eptr == Size(ops)
    ensures Unpacks(buf.ebuf[..buf.eptr], Events(ops)) <==> StaysPut(old(buf.ebuf.Length), ops, moves)
  {
    Perform(buf, ops, moves);
    RunFollows(old(buf.ebuf.Length), ops, moves);
    RunsAreSensible(ops);
    if buf.last.Some? {
      UnpacksIffRight(buf.ebuf[..buf.eptr], buf.erp, buf.n, buf.front, buf.last.value);
    }
  }

  // ---------- a realloc that always moves ----------

  lemma {:induction false} NeverGrows(cap: nat, ops: seq<Op>)
    requires cap > 0 && ops != [] && IsRun(ops)
    ensures (forall k :: 0 <= k < |ops| ==> !Grows(cap, ops, k)) <==> Size(ops) < cap - 1
    ensures Size(ops) < cap - 1 ==> Capacity(cap, ops) == cap
  {
    var n := |ops| - 1;
    var front := ops[..n];
    forall k | 0 <= k < n ensures Grows(cap, ops, k) <==> Grows(cap, front, k) {
      assert front[..k] == ops[..k];
    }
    if n > 0 {
      NeverGrows(cap, front);
    }
    if forall k :: 0 <= k < |ops| ==> !Grows(cap, ops, k) {
      assert forall k :: 0 <= k < n ==> Grows(cap, front, k) == Grows(cap, ops, k);
      assert !Grows(cap, ops, n);
    }
  }

  /** If every realloc moves the buffer, the records come back exactly when they fit without one. */
  lemma AlwaysMoving(cap: nat, ops: seq<Op>, moves: seq<bool>)
    requires cap > 0 && ops != [] && IsRun(ops) && |moves| == |ops| && forall k :: 0 <= k < |ops| ==> moves[k]
    ensures StaysPut(cap, ops, moves) <==> Size(ops) < cap - 1
  {
    NeverGrows(cap, ops);
  }

  lemma LosingOps(x: Param)
    requires IsParam(x) && Short(x) && ParamSize(x) >= 487
    ensures var ops := [Record(0, 0, 0), Parameter(x)];
      && IsRun(ops) && Events(ops) == [Event(0, 0, 0, [x], 0)]
      && !StaysPut(512, ops, [true, true])
  {
    var record := [Record(0, 0, 0)];
    assert [] + [Record(0, 0, 0)] == record && record + [Parameter(x)] == [Record(0, 0, 0), Parameter(x)];
    RunSnoc([], Record(0, 0, 0));
    assert Events(record) == [Event(0, 0, 0, [], 0)];
    RunSnoc(record, Parameter(x));
    var none: seq<Param> := [];
    assert none + [x] == [x];
    AlwaysMoving(512, record + [Parameter(x)], [true, true]);
  }

  /** One record with a long string in the initial buffer, every realloc moving it: the string is lost. */
  method LosingRun(x: Param) returns (buf: Buffer)
    requires IsParam(x) && Short(x) && ParamSize(x) >= 487
    ensures buf.Valid() && fresh(buf)
    ensures !Unpacks(buf.ebuf[..buf.eptr], [Event(0, 0, 0, [x], 0)])
  {
    buf := new Buffer();
    LosingOps(x);
    Pack(buf, [Record(0, 0, 0), Parameter(x)], [true, true]);
  }
}
