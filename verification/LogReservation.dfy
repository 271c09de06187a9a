// begin_op, log_write, end_op and commit of kernel/log.c as steps of concurrent file
// system calls, each step one critical section under log.lock: does the reservation
// made by begin_op keep log_write from its panic?
module LogReservation {
  import opened Blocks

  // ops[i] holds the blocks the ith outstanding operation has log_written so far;
  // lh the block numbers in the in-memory header.
  datatype State = State(ops: seq<set<nat>>, lh: set<nat>, committing: bool, panicked: bool)

  datatype Step =
    | Begin                        // some process calls begin_op
    | LogWrite(i: nat, b: nat)     // outstanding operation i logs block b
    | End(i: nat)                  // outstanding operation i calls end_op
    | CommitDone                   // commit() returns

  const INIT := State([], {}, false, false)

  // log_write refuses before it looks for the block.
  predicate LogFull(size: nat, s: State) {
    |s.lh| >= LOGSIZE || |s.lh| >= size - 1
  }

  function Next(size: nat, s: State, step: Step): State {
    match step
    case Begin =>
      // otherwise the caller sleeps on the log
      if s.committing || |s.lh| + (|s.ops| + 1) * MAXOPBLOCKS > LOGSIZE then s
      else s.(ops := s.ops + [{}])
    case LogWrite(i, b) =>
      if i >= |s.ops| then s
      else if LogFull(size, s) then s.(panicked := true)
      else s.(ops := s.ops[i := s.ops[i] + {b}], lh := s.lh + {b})
    case End(i) =>
      if i >= |s.ops| then s
      else if s.committing then s.(panicked := true)
      else s.(ops := s.ops[..i] + s.ops[i + 1..], committing := |s.ops| == 1)
    case CommitDone =>
      if s.committing then s.(lh := {}, committing := false) else s
  }

  function Run(size: nat, steps: seq<Step>): State {
    if steps == [] then INIT else Next(size, Run(size, steps[..|steps| - 1]), steps[|steps| - 1])
  }

  lemma RunLast(size: nat, steps: seq<Step>, step: Step)
    ensures Run(size, steps + [step]) == Next(size, Run(size, steps), step)
  {
    assert (steps + [step])[..|steps|] == steps;
  }

  // Every operation logs at most MAXOPBLOCKS different blocks.
  predicate WithinLimit(s: State) {
    forall i :: 0 <= i < |s.ops| ==> |s.ops[i]| <= MAXOPBLOCKS
  }

  // Is the step a log_write by which an operation exceeds MAXOPBLOCKS different blocks?
  predicate Overspends(s: State, step: Step) {
    step.LogWrite? && step.i < |s.ops| && |s.ops[step.i] + {step.b}| > MAXOPBLOCKS
  }

  predicate Budgeted(size: nat, steps: seq<Step>) {
    forall k :: 0 <= k < |steps| ==> !Overspends(Run(size, steps[..k]), steps[k])
  }

  // Is it a log_write, of any block, by an operation that has logged MAXOPBLOCKS blocks?
  predicate Lingers(s: State, step: Step) {
    step.LogWrite? && step.i < |s.ops| && |s.ops[step.i]| >= MAXOPBLOCKS
  }

  // The stricter budget: an operation stops logging at its last block.
  predicate Frugal(size: nat, steps: seq<Step>) {
    forall k :: 0 <= k < |steps| ==> !Lingers(Run(size, steps[..k]), steps[k])
  }

  // What the outstanding operations may still add.
  function Remaining(ops: seq<set<nat>>): int {
    if ops == [] then 0 else Remaining(ops[..|ops| - 1]) + MAXOPBLOCKS - |ops[|ops| - 1]|
  }

  lemma {:induction false} RemainingSplit(a: seq<set<nat>>, b: seq<set<nat>>)
    ensures Remaining(a + b) == Remaining(a) + Remaining(b)
    decreases |b|
  {
    if b == [] {
      assert a + b == a;
    } else {
      assert (a + b)[..|a + b| - 1] == a + b[..|b| - 1];
      RemainingSplit(a, b[..|b| - 1]);
    }
  }

  lemma {:induction false} RemainingBounds(ops: seq<set<nat>>)
    requires forall i :: 0 <= i < |ops| ==> |ops[i]| <= MAXOPBLOCKS
    ensures 0 <= Remaining(ops) <= |ops| * MAXOPBLOCKS
    decreases |ops|
  {
    if ops != [] { RemainingBounds(ops[..|ops| - 1]); }
  }

  lemma RemainingOne(x: set<nat>)
    ensures Remaining([x]) == MAXOPBLOCKS - |x|
  {
    assert [x][..0] == [];
  }

  lemma RemainingAt(ops: seq<set<nat>>, i: nat, x: set<nat>)
    requires i < |ops|
    ensures Remaining(ops[i := x]) == Remaining(ops) + |ops[i]| - |x|
    ensures Remaining(ops[..i] + ops[i + 1..]) == Remaining(ops) - (MAXOPBLOCKS - |ops[i]|)
  {
    assert ops == ops[..i] + ([ops[i]] + ops[i + 1..]);
    assert ops[i := x] == ops[..i] + ([x] + ops[i + 1..]);
    RemainingSplit(ops[..i], [ops[i]] + ops[i + 1..]);
    RemainingSplit([ops[i]], ops[i + 1..]);
    RemainingSplit(ops[..i], [x] + ops[i + 1..]);
    RemainingSplit([x], ops[i + 1..]);
    RemainingSplit(ops[..i], ops[i + 1..]);
    RemainingOne(ops[i]);
    RemainingOne(x);
  }

  // The log has room for everything the outstanding operations may still add, they have
  // only logged blocks that are in it, and none is outstanding during a commit.
  ghost predicate Reserved(s: State) {
    && WithinLimit(s)
    && |s.lh| + Remaining(s.ops) <= LOGSIZE
    && (forall i :: 0 <= i < |s.ops| ==> s.ops[i] <= s.lh)
    && (s.committing ==> s.ops == [])
  }

  lemma ReservedLogWrite(size: nat, s: State, i: nat, b: nat)
    requires Reserved(s) && i < |s.ops| && |s.ops[i] + {b}| <= MAXOPBLOCKS && !LogFull(size, s)
    ensures Reserved(Next(size, s, LogWrite(i, b)))
  {
    var t := Next(size, s, LogWrite(i, b));
    RemainingAt(s.ops, i, s.ops[i] + {b});
    if b in s.ops[i] {
      assert s.lh + {b} == s.lh && s.ops[i] + {b} == s.ops[i];
    }
    forall j | 0 <= j < |t.ops| ensures t.ops[j] <= t.lh && |t.ops[j]| <= MAXOPBLOCKS {
      assert s.ops[j] <= s.lh;
    }
  }

  lemma ReservedEnd(size: nat, s: State, i: nat)
    requires Reserved(s) && i < |s.ops|
    ensures Reserved(Next(size, s, End(i)))
  {
    var t := Next(size, s, End(i));
    RemainingAt(s.ops, i, {});
    forall j | 0 <= j < |t.ops| ensures t.ops[j] <= t.lh && |t.ops[j]| <= MAXOPBLOCKS {
      assert t.ops[j] == s.ops[if j < i then j else j + 1];
    }
  }

  lemma ReservedStep(size: nat, s: State, step: Step)
    requires Reserved(s) && !Overspends(s, step)
    ensures Reserved(Next(size, s, step))
  {
    match step
    case Begin =>
      RemainingBounds(s.ops);
      RemainingSplit(s.ops, [{}]);
      RemainingOne({});
    case LogWrite(i, b) =>
      if i < |s.ops| && !LogFull(size, s) {
        ReservedLogWrite(size, s, i, b);
      }
    case End(i) =>
      if i < |s.ops| {
        ReservedEnd(size, s, i);
      }
    case CommitDone =>
      RemainingBounds(s.ops);
  }

  // Over every interleaving of operations that keep to MAXOPBLOCKS different blocks each.
  lemma {:induction false} ReservationHolds(size: nat, steps: seq<Step>)
    requires Budgeted(size, steps)
    ensures Reserved(Run(size, steps)) && |Run(size, steps).lh| <= LOGSIZE
    decreases |steps|
  {
    if steps == [] {
      RemainingBounds([]);
    } else {
      var n := |steps| - 1;
      BudgetedInit(size, steps);
      ReservationHolds(size, steps[..n]);
      ReservedStep(size, Run(size, steps[..n]), steps[n]);
    }
    RemainingBounds(Run(size, steps).ops);
  }

  lemma BudgetedInit(size: nat, steps: seq<Step>)
    requires Budgeted(size, steps) && steps != []
    ensures Budgeted(size, steps[..|steps| - 1])
    ensures !Overspends(Run(size, steps[..|steps| - 1]), steps[|steps| - 1])
  {
    var init := steps[..|steps| - 1];
    forall k | 0 <= k < |init| ensures !Overspends(Run(size, init[..k]), init[k]) {
      assert init[..k] == steps[..k];
      assert !Overspends(Run(size, steps[..k]), steps[k]);
    }
  }

  lemma FrugalIsBudgeted(size: nat, steps: seq<Step>)
    requires Frugal(size, steps)
    ensures Budgeted(size, steps)
    ensures steps != [] ==>
      Frugal(size, steps[..|steps| - 1]) && !Lingers(Run(size, steps[..|steps| - 1]), steps[|steps| - 1])
  {
    forall k | 0 <= k < |steps| ensures !Overspends(Run(size, steps[..k]), steps[k]) {
      assert !Lingers(Run(size, steps[..k]), steps[k]);
    }
    if steps != [] {
      var init := steps[..|steps| - 1];
      forall k | 0 <= k < |init| ensures !Lingers(Run(size, init[..k]), init[k]) {
        assert init[..k] == steps[..k];
        assert !Lingers(Run(size, steps[..k]), steps[k]);
      }
    }
  }

  // In a log area with more than LOGSIZE blocks, the only log_write within the budget that
  // panics is of a block its operation has logged already, when it has logged MAXOPBLOCKS.
  lemma PanicOnlyAgain(size: nat, steps: seq<Step>, i: nat, b: nat)
    requires size > LOGSIZE && Budgeted(size, steps)
    ensures var s := Run(size, steps);
      i < |s.ops| && !Overspends(s, LogWrite(i, b)) && LogFull(size, s) ==>
        |s.lh| == LOGSIZE && |s.ops[i]| == MAXOPBLOCKS && b in s.ops[i]
  {
    ReservationHolds(size, steps);
    var s := Run(size, steps);
    if i < |s.ops| {
      RemainingAt(s.ops, i, {});
      RemainingBounds(s.ops[..i] + s.ops[i + 1..]);
      if b !in s.ops[i] {
        assert |s.ops[i] + {b}| == |s.ops[i]| + 1;
      }
    }
  }

  lemma EndDoesNotPanic(size: nat, steps: seq<Step>)
    requires Budgeted(size, steps)
    ensures Run(size, steps).ops != [] ==> !Run(size, steps).committing
  {
    ReservationHolds(size, steps);
  }

  // So nothing panics while operations stop logging at their last block.
  lemma {:induction false} LargeLogNeverPanics(size: nat, steps: seq<Step>)
    requires size > LOGSIZE && Frugal(size, steps)
    ensures !Run(size, steps).panicked
    decreases |steps|
  {
    if steps != [] {
      var n := |steps| - 1;
      FrugalIsBudgeted(size, steps);
      FrugalIsBudgeted(size, steps[..n]);
      LargeLogNeverPanics(size, steps[..n]);
      EndDoesNotPanic(size, steps[..n]);
      if steps[n].LogWrite? {
        BudgetedInit(size, steps);
        PanicOnlyAgain(size, steps[..n], steps[n].i, steps[n].b);
      }
    }
  }

  // ---- the bound is exact ----

  // Three operations, the jth log_write being the (j / MAXOPBLOCKS)th operation's.
  function FillSteps(k: nat): seq<Step> {
    [Begin, Begin, Begin] + seq(k, j requires j >= 0 => LogWrite(j / MAXOPBLOCKS, j))
  }

  // The block numbers from a up to b.
  function Below(a: nat, b: nat): (r: set<nat>)
    requires a <= b
    ensures forall j: nat :: j in r <==> a <= j < b
    ensures |r| == b - a
    decreases b
  {
    if a == b then {} else Below(a, b - 1) + {b - 1}
  }

  function Min(a: nat, b: nat): nat { if a < b then a else b }

  function FilledOp(k: nat, i: nat): set<nat> {
    Below(Min(i * MAXOPBLOCKS, k), Min((i + 1) * MAXOPBLOCKS, k))
  }

  function Filled(k: nat): State {
    State([FilledOp(k, 0), FilledOp(k, 1), FilledOp(k, 2)], Below(0, k), false, false)
  }

  lemma FillStart(size: nat)
    ensures Run(size, FillSteps(0)) == Filled(0)
  {
    hide Run, Filled, Below;
    FilledNone(size);
    RunLast(size, [], Begin);
    RunLast(size, [Begin], Begin);
    RunLast(size, [Begin, Begin], Begin);
    assert FillSteps(0) == [Begin, Begin] + [Begin];
    assert [Begin, Begin] == [Begin] + [Begin] && [Begin] == [] + [Begin];
  }

  lemma FilledNone(size: nat)
    ensures Filled(0) == State([{}, {}, {}], {}, false, false) && Run(size, []) == INIT
  {
  }

  lemma FillStep(size: nat, k: nat)
    requires k < LOGSIZE && k < size - 1
    ensures Next(size, Filled(k), LogWrite(k / MAXOPBLOCKS, k)) == Filled(k + 1)
  {
    hide Below, FilledOp;
    assert Below(0, k + 1) == Below(0, k) + {k};
    FillOp(k, 0);
    FillOp(k, 1);
    FillOp(k, 2);
  }

  lemma FillOp(k: nat, i: nat)
    ensures FilledOp(k + 1, i) == if i == k / MAXOPBLOCKS then FilledOp(k, i) + {k} else FilledOp(k, i)
  {
    assert i == k / MAXOPBLOCKS <==> i * MAXOPBLOCKS <= k < (i + 1) * MAXOPBLOCKS;
  }

  lemma FillLast(size: nat, k: nat)
    ensures Run(size, FillSteps(k + 1)) == Next(size, Run(size, FillSteps(k)), LogWrite(k / MAXOPBLOCKS, k))
  {
    assert FillSteps(k + 1) == FillSteps(k) + [LogWrite(k / MAXOPBLOCKS, k)];
    RunLast(size, FillSteps(k), LogWrite(k / MAXOPBLOCKS, k));
  }

  lemma {:induction false} FillRun(size: nat, k: nat)
    requires k <= LOGSIZE && k <= size - 1
    ensures Run(size, FillSteps(k)) == Filled(k)
    decreases k
  {
    hide Run, Next, Filled, FillSteps;
    if k == 0 {
      FillStart(size);
    } else {
      FillRun(size, k - 1);
      FillStep(size, k - 1);
      FillLast(size, k - 1);
    }
  }

  lemma FillFrugal(size: nat, k: nat)
    requires 0 < k <= LOGSIZE && k - 1 <= size - 1
    ensures Frugal(size, FillSteps(k))
  {
    hide Run, Next, Below;
    var steps := FillSteps(k);
    forall n | 0 <= n < |steps| ensures !Lingers(Run(size, steps[..n]), steps[n]) {
      if n >= 3 {
        var j := n - 3;
        assert steps[..n] == FillSteps(j);
        FillRun(size, j);
        var i := j / MAXOPBLOCKS;
        assert Filled(j).ops[i] == FilledOp(j, i) && i * MAXOPBLOCKS <= j < (i + 1) * MAXOPBLOCKS;
      }
    }
  }

  // With size <= LOGSIZE, as the superblock written by mkfs has it, three operations
  // within their limits reach the panic.
  lemma SmallLogPanics(size: nat)
    requires 1 <= size <= LOGSIZE
    ensures Frugal(size, FillSteps(size)) && Run(size, FillSteps(size)).panicked
  {
    hide Run, FillSteps, Below, FilledOp;
    FillFrugal(size, size);
    FillRun(size, size - 1);
    FillLast(size, size - 1);
  }

  // The reservation protects every run in which operations stop at their last block exactly
  // when the log area is larger than LOGSIZE.
  lemma ReservationIsExact(size: nat)
    requires size >= 1
    ensures (forall steps :: Frugal(size, steps) ==> !Run(size, steps).panicked) <==> size > LOGSIZE
  {
    if size > LOGSIZE {
      forall steps | Frugal(size, steps) ensures !Run(size, steps).panicked {
        LargeLogNeverPanics(size, steps);
      }
    } else {
      SmallLogPanics(size);
    }
  }

  // Without that, no size is enough.  The check comes before absorption, so a full log also
  // refuses a block it holds: the first operation logs one of its ten blocks once more.
  lemma FullLogRefusesKnownBlock(size: nat)
    requires size > LOGSIZE
    ensures var steps := FillSteps(LOGSIZE) + [LogWrite(0, 0)];
      Budgeted(size, steps) && Run(size, steps).panicked
  {
    hide Run, FillSteps, Below;
    var fill, last := FillSteps(LOGSIZE), LogWrite(0, 0);
    FillRun(size, LOGSIZE);
    FillFrugal(size, LOGSIZE);
    FrugalIsBudgeted(size, fill);
    RunLast(size, fill, last);
    assert FilledOp(LOGSIZE, 0) + {0} == FilledOp(LOGSIZE, 0);
    forall k | 0 <= k <= |fill| ensures !Overspends(Run(size, (fill + [last])[..k]), (fill + [last])[k]) {
      assert (fill + [last])[..k] == fill[..k] && fill[..|fill|] == fill;
      assert k < |fill| ==> !Overspends(Run(size, fill[..k]), fill[k]);
    }
  }

  // No operation is outstanding during a commit, and with none the log is empty after it.
  predicate Between(s: State) {
    (s.committing ==> s.ops == []) && (s.ops == [] && !s.committing ==> s.lh == {})
  }

  lemma {:induction false} RunBetween(size: nat, steps: seq<Step>)
    ensures Between(Run(size, steps))
  {
    if steps != [] {
      RunBetween(size, steps[..|steps| - 1]);
    }
  }

  // The step that brings the log nearer to the next begin_op, and what that finds.
  function Drain(s: State): Step {
    if s.committing then CommitDone else End(0)
  }

  lemma DrainStep(size: nat, s: State)
    requires Between(s)
    ensures s.ops == [] && !s.committing ==> |Next(size, s, Begin).ops| == |s.ops| + 1
    ensures s.ops != [] || s.committing ==>
      var s' := Next(size, s, Drain(s));
      |s'.ops| < |s.ops| || (s'.ops == s.ops && s.committing && !s'.committing)
  {
  }

  // Nobody waits in begin_op for ever: from every state of every run there is a way on, by
  // operations ending and commits returning, after which begin_op lets a caller in.
  lemma {:induction false} BeginAdmitted(size: nat, steps: seq<Step>) returns (more: seq<Step>)
    ensures forall k :: 0 <= k < |more| ==> more[k].End? || more[k].CommitDone?
    ensures |Run(size, steps + more + [Begin]).ops| == |Run(size, steps + more).ops| + 1
    decreases |Run(size, steps).ops|, Run(size, steps).committing
  {
    hide Run, Next, Between;
    RunBetween(size, steps);
    var s := Run(size, steps);
    DrainStep(size, s);
    if s.ops == [] && !s.committing {
      more := [];
      assert steps + more == steps;
      RunLast(size, steps, Begin);
    } else {
      var step := Drain(s);
      RunLast(size, steps, step);
      var rest := BeginAdmitted(size, steps + [step]);
      more := [step] + rest;
      assert steps + more == steps + [step] + rest;
    }
  }
}
