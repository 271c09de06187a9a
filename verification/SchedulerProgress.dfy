// What the scheduler, sleep and wakeup can still do from every reachable state: a RUNNABLE
// process can be brought to run, and a sleeper that a scan of wakeup has still to come to
// can be brought back from sleep with its spinlock, whatever the other CPUs are at.
//
// The schedules are built from plain steps: a thread that can be interrupted is, one inside a
// spinlock leaves, and every other one goes on.  No such step waits for a lock while it holds
// the lock of a process, so such a lock can always be freed first.
module SchedulerProgress {
  import opened Wrappers
  import opened SleepWakeup

  // ---- schedules ----

  // s' is the state after some schedule from s.
  ghost predicate Leads(s: State, s': State) {
    exists run :: Exec(s, run) == s'
  }

  lemma LeadsSelf(s: State)
    ensures Leads(s, s)
  {
    assert Exec(s, []) == s;
  }

  lemma LeadsStep(s: State, s': State, c: nat, what: Choice)
    requires Leads(s, s')
    ensures Leads(s, Step(s', c, what))
  {
    hide Step;
    var run :| Exec(s, run) == s';
    var more := run + [(c, what)];
    assert more[..|more| - 1] == run;
    assert Exec(s, more) == Step(s', c, what);
  }

  lemma {:induction false} ExecConcat(s: State, run: seq<(nat, Choice)>, more: seq<(nat, Choice)>)
    ensures Exec(s, run + more) == Exec(Exec(s, run), more)
    decreases |more|
  {
    hide Step;
    if more == [] {
      assert run + more == run;
    } else {
      var init := more[..|more| - 1];
      assert (run + more)[..|run + more| - 1] == run + init;
      ExecConcat(s, run, init);
    }
  }

  lemma LeadsTrans(s: State, s1: State, s2: State)
    requires Leads(s, s1) && Leads(s1, s2)
    ensures Leads(s, s2)
  {
    hide Exec;
    var run :| Exec(s, run) == s1;
    var more :| Exec(s1, more) == s2;
    ExecConcat(s, run, more);
  }

  // ---- the plain step of a CPU ----

  function Plan(s: State, c: nat): Choice
    requires c < |s.cpus|
  {
    if s.cpus[c].ctx.Run? && s.cpus[c].ctx.p < |s.procs| then
      var pc := s.procs[s.cpus[c].ctx.p].pc;
      if NoSpinlock(pc) then Interrupt else if pc.Inside? then Leave else Go
    else Go
  }

  function Plain(s: State, c: nat): State
    requires c < |s.cpus|
  {
    Step(s, c, Plan(s, c))
  }

  // The process lock the next step of CPU c takes.
  function Wants(s: State, c: nat): Option<nat>
    requires c < |s.cpus|
  {
    match s.cpus[c].ctx
    case Pick(i) => Some(i)
    case Run(p) =>
      if p >= |s.procs| then None else
      (match s.procs[p].pc
       case LockSelf(_, _) => Some(p)
       case YieldLock(_) => Some(p)
       case ScanLock(_, i, lk) => if lk.Some? && i < |s.procs| then Some(i) else None
       case _ => None)
    case _ => None
  }

  // How many plain steps a thread is from the scheduler of its CPU, in a system of n processes.
  function PcDistance(pc: Pc, n: nat): nat {
    if NoSpinlock(pc) then 6 else
    match pc
    case ScanLock(_, i, _) => if i <= n then 8 + 3 * (n - i) else 8
    case ScanTest(_, i, _) => if i < n then 7 + 3 * (n - i) else 8
    case ScanUnlock(_, i, _) => if i < n then 6 + 3 * (n - i) else 8
    case Awake(_, _) => 8
    case KillSet(_) => 8
    case LockSelf(_, _) => 6
    case YieldLock(_) => 5
    case UnlockLk(_, _) => 5
    case YieldSet(_) => 4
    case SetChan(_, _) => 4
    case YieldSched(_) => 3
    case Sched(_, _) => 3
    case _ => 7
  }

  function Distance(s: State, c: nat): nat
    requires c < |s.cpus|
  {
    match s.cpus[c].ctx
    case Pick(_) => 0
    case Drop(_) => 1
    case Back(_) => 2
    case Check(_) => 10
    case Run(p) => if p < |s.procs| then PcDistance(s.procs[p].pc, |s.procs|) else 0
  }

  // Where the scheduler of CPU c goes on.
  function Target(s: State, c: nat): nat
    requires c < |s.cpus|
  {
    var k := s.cpus[c].ctx;
    if k.Pick? then k.i
    else
      var i := if k.Run? then k.p else k.i;
      if i + 1 < |s.procs| then i + 1 else 0
  }

  lemma PlainInv(s: State, c: nat)
    requires Inv(s) && c < |s.cpus|
    ensures Inv(Plain(s, c)) && |Plain(s, c).cpus| == |s.cpus| && |Plain(s, c).procs| == |s.procs|
  {
    StepInv(s, c, Plan(s, c));
  }

  // The point after the plain step of a thread that does not wait, and the one at which it
  // switches away.
  function Next(pc: Pc, n: nat): Pc {
    if NoSpinlock(pc) then YieldLock(pc) else
    match pc
    case LockSelf(ch, k) => UnlockLk(ch, k)
    case UnlockLk(ch, k) => SetChan(ch, k)
    case SetChan(ch, k) => Pc.Sched(ch, k)
    case Sched(ch, k) => Awake(ch, k)
    case Awake(ch, k) => UnlockSelf(ch, k)
    case UnlockSelf(ch, k) => Relock(ch, k)
    case ScanLock(ch, i, lk) => if i < n then ScanTest(ch, i, lk) else if lk.Some? then Inside(lk.value) else User
    case ScanTest(ch, i, lk) => ScanUnlock(ch, i, lk)
    case ScanUnlock(ch, i, lk) => ScanLock(ch, i + 1, lk)
    case YieldLock(b) => YieldSet(b)
    case YieldSet(b) => YieldSched(b)
    case YieldSched(b) => YieldUnlock(b)
    case YieldUnlock(b) => b
    case KillSet(q) => KillUnlock(q)
    case _ => User
  }

  // A step of p that keeps it on its CPU: no other thread moves, no condition changes, and
  // nobody but p falls asleep.
  ghost predicate Advance(s: State, s': State, p: nat, pc: Pc) {
    && p < |s.procs| == |s'.procs| && s'.cpus == s.cpus && s'.chans == s.chans && |s'.lks| == |s.lks|
    && s'.procs[p].pc == pc
    && (forall x: nat :: x < |s.procs| ==>
          && s'.procs[x].on == s.procs[x].on && (x != p ==> s'.procs[x].pc == s.procs[x].pc)
          && (s.procs[x].state != SLEEPING ==> s'.procs[x].state != SLEEPING || (x == p && s.procs[p].pc.SetChan?)))
    && (forall l: nat :: l < |s.lks| ==> s'.lks[l] == s.lks[l] || s'.lks[l] == None)
  }

  ghost predicate Free(s: State, c: nat)
    requires c < |s.cpus|
  {
    var w := Wants(s, c); w.Some? && w.value < |s.plock| ==> s.plock[w.value] == None
  }

  lemma UserPlain(s: State, c: nat, p: nat)
    requires Ready(s, c, p) && Function(s.procs[p].pc).InUser? && !NoSpinlock(s.procs[p].pc)
    ensures Advance(s, UserStep(s, c, p, Plan(s, c)), p, Next(s.procs[p].pc, |s.procs|))
    ensures Moves(s, UserStep(s, c, p, Plan(s, c)), c, p)
  {
    UserMoves(s, c, p, Plan(s, c));
    hide Inv, WaitOk, Moves;
  }

  lemma SleepPlain(s: State, c: nat, p: nat)
    requires Ready(s, c, p) && Function(s.procs[p].pc).InSleep? && !NoSpinlock(s.procs[p].pc)
    requires !s.procs[p].pc.Sched? && Free(s, c)
    ensures Advance(s, SleepStep(s, c, p), p, Next(s.procs[p].pc, |s.procs|)) && Moves(s, SleepStep(s, c, p), c, p)
  {
    SleepMoves(s, c, p);
    hide Inv, WaitOk, Moves;
  }

  lemma WakeupPlain(s: State, c: nat, p: nat)
    requires Ready(s, c, p) && Function(s.procs[p].pc).InWakeup?
    requires var pc := s.procs[p].pc; pc.ScanLock? && pc.i < |s.procs| ==> s.plock[pc.i] == None
    ensures var pc := s.procs[p].pc;
      Advance(s, WakeupStep(s, c, p), p,
              if pc.ScanLock? && pc.i < |s.procs| then ScanTest(pc.ch, pc.i, pc.lk)
              else if pc.ScanLock? then if pc.lk.Some? then Inside(pc.lk.value) else User
              else if pc.ScanTest? then ScanUnlock(pc.ch, pc.i, pc.lk) else ScanLock(pc.ch, pc.i + 1, pc.lk))
    ensures Moves(s, WakeupStep(s, c, p), c, p)
  {
    WakeupMoves(s, c, p);
    hide Inv, WaitOk, Moves;
  }

  lemma YieldPlain(s: State, c: nat, p: nat)
    requires Ready(s, c, p) && Function(s.procs[p].pc).InYield? && !s.procs[p].pc.YieldSched? && Free(s, c)
    ensures Advance(s, YieldStep(s, c, p), p, Next(s.procs[p].pc, |s.procs|)) && Moves(s, YieldStep(s, c, p), c, p)
  {
    YieldMoves(s, c, p);
    hide Inv, WaitOk, Moves;
  }

  lemma KillPlain(s: State, c: nat, p: nat)
    requires Ready(s, c, p) && Function(s.procs[p].pc).InKill? && !NoSpinlock(s.procs[p].pc)
    ensures Advance(s, KillStep(s, c, p), p, Next(s.procs[p].pc, |s.procs|)) && Moves(s, KillStep(s, c, p), c, p)
  {
    KillMoves(s, c, p);
    hide Inv, WaitOk, Moves;
  }

  lemma InterruptPlain(s: State, c: nat, p: nat)
    requires Ready(s, c, p) && NoSpinlock(s.procs[p].pc)
    ensures var s' := AtPc(s, p, YieldLock(s.procs[p].pc));
      Advance(s, s', p, YieldLock(s.procs[p].pc)) && Moves(s, s', c, p)
  {
    InterruptGood(s, c, p);
    hide Inv, WaitOk, Moves;
  }

  lemma PlainThread(s: State, c: nat, p: nat)
    requires Ready(s, c, p) && !Switching(s.procs[p].pc) && Free(s, c)
    ensures Advance(s, Plain(s, c), p, Next(s.procs[p].pc, |s.procs|)) && Moves(s, Plain(s, c), c, p)
  {
    assert |s.plock| == |s.procs|;
    hide Inv, WaitOk, ProcOk, Moves, UserStep, SleepStep, WakeupStep, YieldStep, KillStep, Advance, AtPc;
    var pc := s.procs[p].pc;
    if NoSpinlock(pc) {
      InterruptPlain(s, c, p);
    } else {
      match Function(pc)
      case InUser => UserPlain(s, c, p);
      case InSleep => SleepPlain(s, c, p);
      case InWakeup => WakeupPlain(s, c, p);
      case InYield => YieldPlain(s, c, p);
      case InKill => KillPlain(s, c, p);
    }
  }

  // ---- what plain steps keep ----

  // Where a thread that has given up its CPU, or is about to, goes on without a spinlock.
  function Core(pc: Pc): Pc {
    match pc
    case Sched(ch, k) => Relock(ch, k)
    case Awake(ch, k) => Relock(ch, k)
    case UnlockSelf(ch, k) => Relock(ch, k)
    case ForkRet => User
    case YieldLock(b) => b
    case YieldSet(b) => b
    case YieldSched(b) => b
    case YieldUnlock(b) => b
    case _ => pc
  }

  lemma NextFacts(pc: Pc, n: nat, lks: nat, chans: seq<Chan>)
    requires PcOk(n, lks, chans, pc)
    ensures NoSpinlock(Core(pc)) ==> Core(Next(pc, n)) == Core(pc) && !pc.SetChan?
    ensures Switching(pc) || PcDistance(Next(pc, n), n) < PcDistance(pc, n)
  {
  }

  // Processes other than w do not move past the point they go on from, or fall asleep.
  ghost predicate Steady(s: State, s': State, w: int) {
    && |s'.procs| == |s.procs| && |s'.cpus| == |s.cpus| && |s'.lks| == |s.lks| && s'.chans == s.chans
    && (forall l: nat :: l < |s.lks| ==> s'.lks[l] == s.lks[l] || s'.lks[l] == None)
    && forall x: nat :: x < |s.procs| && x != w && NoSpinlock(Core(s.procs[x].pc)) ==>
         && Core(s'.procs[x].pc) == Core(s.procs[x].pc)
         && (s.procs[x].state != SLEEPING ==> s'.procs[x].state != SLEEPING)
  }

  lemma SteadyTrans(s: State, s1: State, s2: State, w: int)
    requires Steady(s, s1, w) && Steady(s1, s2, w)
    ensures Steady(s, s2, w)
  {
    hide Core;
  }

  // CPU e and the thread on it are where they were.
  predicate Same(s: State, s': State, e: nat)
    requires e < |s.cpus| == |s'.cpus| && |s'.procs| == |s.procs|
  {
    && s'.cpus[e] == s.cpus[e]
    && var k := s.cpus[e].ctx;
       k.Run? && k.p < |s.procs| ==> s'.procs[k.p].pc == s.procs[k.p].pc && s'.procs[k.p].on == s.procs[k.p].on
  }

  ghost predicate Apart(s: State, s': State, c: nat) {
    && |s'.procs| == |s.procs| && |s'.cpus| == |s.cpus|
    && forall e: nat :: e < |s.cpus| && e != c ==> Same(s, s', e)
  }

  lemma PlainSwitch(s: State, c: nat, p: nat)
    requires Inv(s) && c < |s.cpus| && s.cpus[c].ctx == Run(p) && p < |s.procs| && Switching(s.procs[p].pc)
    ensures Plain(s, c) == SwitchOut(s, c, p, Next(s.procs[p].pc, |s.procs|))
    ensures Steady(s, Plain(s, c), -1) && Apart(s, Plain(s, c), c)
  {
    hide PLocks, LLocks, WaitOk;
    assert ProcOk(s, p);
    forall e: nat | e < |s.cpus| && e != c ensures Same(s, Plain(s, c), e) {
      assert CpuOk(s, e) && CpuOk(s, c);
    }
  }

  lemma PlainScheduler(s: State, c: nat)
    requires Inv(s) && c < |s.cpus| && !s.cpus[c].ctx.Run? && Free(s, c)
    ensures Steady(s, Plain(s, c), -1) && Apart(s, Plain(s, c), c)
    ensures !s.cpus[c].ctx.Pick? ==>
      Distance(Plain(s, c), c) < Distance(s, c) && Target(Plain(s, c), c) == Target(s, c)
  {
    hide LLocks, WaitOk;
    assert CpuOk(s, c);
    if s.cpus[c].ctx.Check? {
      var i := s.cpus[c].ctx.i;
      assert ProcOk(s, i) && (s.plock[i] == Some(c) <==> CpuHoldsP(s, c, i));
      if s.procs[i].state == RUNNABLE && s.procs[i].on.Some? {
        HolderP(s, i, i);
      }
    }
    forall e: nat | e < |s.cpus| && e != c ensures Same(s, Plain(s, c), e) {
      assert CpuOk(s, e);
    }
  }

  // A plain step of CPU c, for the rest of the system.
  lemma PlainSteady(s: State, c: nat)
    requires Inv(s) && c < |s.cpus| && Free(s, c)
    ensures Steady(s, Plain(s, c), -1) && Apart(s, Plain(s, c), c)
    ensures !s.cpus[c].ctx.Pick? ==>
      Distance(Plain(s, c), c) < Distance(s, c) && Target(Plain(s, c), c) == Target(s, c)
  {
    hide PLocks, LLocks, WaitOk, ThreadStep;
    assert CpuOk(s, c);
    if s.cpus[c].ctx.Run? {
      var p := s.cpus[c].ctx.p;
      assert ProcOk(s, p);
      NextFacts(s.procs[p].pc, |s.procs|, |s.lks|, s.chans);
      if Switching(s.procs[p].pc) {
        PlainSwitch(s, c, p);
      } else {
        GetReady(s, c, p);
        PlainThread(s, c, p);
        forall e: nat | e < |s.cpus| && e != c ensures Same(s, Plain(s, c), e) {
          assert CpuOk(s, e);
        }
      }
    } else {
      PlainScheduler(s, c);
    }
  }

  // ---- a process lock can be freed ----

  // Points at which a thread holds no process lock, and CPUs that hold none.
  predicate NoP(pc: Pc) {
    NoSpinlock(pc) || pc.Inside? || pc.LockSelf? || pc.YieldLock? || pc.ScanLock?
  }

  predicate Quiet(s: State, e: nat)
    requires e < |s.cpus|
  {
    var k := s.cpus[e].ctx;
    k.Pick? || (k.Run? && k.p < |s.procs| && NoP(s.procs[k.p].pc))
  }

  lemma HoldsNext(pc: Pc, p: nat, q: nat, n: nat, lks: nat, chans: seq<Chan>)
    requires HoldsP(pc, p, q) && PcOk(n, lks, chans, pc)
    ensures !NoP(pc) && (HoldsP(Next(pc, n), p, q) || NoP(Next(pc, n)))
  {
  }

  // A CPU that holds a process lock does not wait; its plain step keeps the lock, or gives it
  // up and holds none.
  lemma PlainHolds(s: State, d: nat, q: nat)
    requires Inv(s) && d < |s.cpus| && q < |s.procs| && s.plock[q] == Some(d)
    ensures Wants(s, d) == None && !s.cpus[d].ctx.Pick?
    ensures |Plain(s, d).cpus| == |s.cpus| && |Plain(s, d).plock| == |s.plock|
    ensures Plain(s, d).plock[q] == Some(d) || (Plain(s, d).plock[q] == None && Quiet(Plain(s, d), d))
  {
    hide LLocks, WaitOk, ThreadStep;
    assert CpuOk(s, d) && (s.plock[q] == Some(d) <==> CpuHoldsP(s, d, q));
    if s.cpus[d].ctx.Run? {
      var p := s.cpus[d].ctx.p;
      assert ProcOk(s, p);
      HoldsNext(s.procs[p].pc, p, q, |s.procs|, |s.lks|, s.chans);
      if Switching(s.procs[p].pc) {
        PlainSwitch(s, d, p);
      } else {
        GetReady(s, d, p);
        PlainThread(s, d, p);
      }
    }
  }

  // Points of a thread that has just been switched to.
  predicate Resuming(pc: Pc) {
    pc.Awake? || pc.UnlockSelf? || pc.ForkRet? || pc.YieldUnlock?
  }

  // x is on no CPU, or can be interrupted, or d is resuming it.
  predicate Calm(s: State, x: nat)
    requires x < |s.procs|
  {
    s.procs[x].on.None? || NoSpinlock(s.procs[x].pc)
  }

  predicate CalmOr(s: State, x: nat, d: nat)
    requires x < |s.procs|
  {
    Calm(s, x) || (s.procs[x].on == Some(d) && Resuming(s.procs[x].pc))
  }

  lemma PlainCalm(s: State, d: nat, q: nat, x: nat)
    requires Inv(s) && d < |s.cpus| && q < |s.procs| && s.plock[q] == Some(d) && x < |s.procs| && CalmOr(s, x, d)
    ensures |Plain(s, d).procs| == |s.procs| && CalmOr(Plain(s, d), x, d)
  {
    hide LLocks, WaitOk, ThreadStep;
    PlainHolds(s, d, q);
    assert CpuOk(s, d) && ProcOk(s, x) && (s.plock[q] == Some(d) <==> CpuHoldsP(s, d, q));
    if s.cpus[d].ctx.Run? {
      var p := s.cpus[d].ctx.p;
      assert ProcOk(s, p);
      HoldsNext(s.procs[p].pc, p, q, |s.procs|, |s.lks|, s.chans);
      if Switching(s.procs[p].pc) {
        PlainSwitch(s, d, p);
      } else {
        GetReady(s, d, p);
        PlainThread(s, d, p);
      }
    }
  }

  ghost predicate Freeing(s: State, s': State, d: nat) {
    && Leads(s, s') && Inv(s') && Steady(s, s', -1) && Apart(s, s', d)
    && forall x: nat :: x < |s.procs| && CalmOr(s, x, d) ==> CalmOr(s', x, d)
  }

  lemma PlainFreeing(s: State, d: nat, q: nat)
    requires Inv(s) && d < |s.cpus| && q < |s.procs| && s.plock[q] == Some(d)
    ensures Freeing(s, Plain(s, d), d) && Distance(Plain(s, d), d) < Distance(s, d)
  {
    hide Inv, Steady, Apart, CalmOr, Step, Leads;
    PlainHolds(s, d, q);
    PlainInv(s, d);
    PlainSteady(s, d);
    LeadsSelf(s);
    LeadsStep(s, s, d, Plan(s, d));
    forall x: nat | x < |s.procs| && CalmOr(s, x, d) ensures CalmOr(Plain(s, d), x, d) {
      PlainCalm(s, d, q, x);
    }
  }

  lemma FreeingTrans(s: State, s1: State, s2: State, d: nat)
    requires Freeing(s, s1, d) && Freeing(s1, s2, d)
    ensures Freeing(s, s2, d)
  {
    hide Inv, Leads, CalmOr, Steady;
    LeadsTrans(s, s1, s2);
    SteadyTrans(s, s1, s2, -1);
    forall e: nat | e < |s.cpus| && e != d ensures Same(s, s2, e) {
      assert Same(s, s1, e) && Same(s1, s2, e);
    }
    forall x: nat | x < |s.procs| && CalmOr(s, x, d) ensures CalmOr(s2, x, d) {
      assert CalmOr(s1, x, d);
    }
  }

  lemma {:induction false} FreeFrom(s: State, d: nat, q: nat) returns (s': State)
    requires Inv(s) && d < |s.cpus| && q < |s.procs| && s.plock[q] == Some(d)
    ensures Freeing(s, s', d) && |s'.plock| == |s.plock| && s'.plock[q] == None && |s'.cpus| == |s.cpus|
    ensures Quiet(s', d)
    decreases Distance(s, d)
  {
    hide Freeing, Step, Quiet;
    PlainHolds(s, d, q);
    PlainInv(s, d);
    PlainFreeing(s, d, q);
    s' := Plain(s, d);
    if s'.plock[q] != None {
      var s1 := s';
      s' := FreeFrom(s1, d, q);
      FreeingTrans(s, s1, s', d);
    }
  }

  // The lock of process q is freed, at the cost of steps of the CPU that holds it alone.
  ghost predicate Freed(s: State, s': State) {
    && Leads(s, s') && Inv(s') && Steady(s, s', -1)
    && (forall e: nat :: e < |s.cpus| && Quiet(s, e) ==> Same(s, s', e))
    && forall x: nat :: x < |s.procs| && Calm(s, x) ==> Calm(s', x)
  }

  lemma Freely(s: State, q: nat) returns (s': State)
    requires Inv(s) && q < |s.procs|
    ensures Freed(s, s') && |s'.plock| == |s.plock| && s'.plock[q] == None
  {
    hide Leads, Steady;
    s' := s;
    LeadsSelf(s);
    SteadySelf(s);
    if s.plock[q].Some? {
      var d := s.plock[q].value;
      s' := FreeFrom(s, d, q);
      forall e: nat | e < |s.cpus| && Quiet(s, e) ensures Same(s, s', e) {
        assert s.plock[q] == Some(d) <==> CpuHoldsP(s, d, q);
      }
      forall x: nat | x < |s.procs| && Calm(s, x) ensures Calm(s', x) {
        assert CalmOr(s, x, d) && ProcOk(s', x);
      }
    }
  }

  lemma SteadySelf(s: State)
    ensures Steady(s, s, -1)
  {
  }

  // ---- a CPU can be brought back to its scheduler ----

  // x is on no CPU, on CPU c, or can be interrupted.
  predicate Settled(s: State, x: nat, c: nat)
    requires x < |s.procs|
  {
    Calm(s, x) || s.procs[x].on == Some(c)
  }

  ghost predicate Driven(s: State, s': State, c: nat) {
    && Leads(s, s') && Inv(s') && Steady(s, s', -1)
    && (forall e: nat :: e < |s.cpus| && e != c && Quiet(s, e) ==> Same(s, s', e))
    && forall x: nat :: x < |s.procs| && Settled(s, x, c) ==> Settled(s', x, c)
  }

  lemma DrivenSelf(s: State, c: nat)
    requires Inv(s)
    ensures Driven(s, s, c)
  {
    LeadsSelf(s);
    hide Leads;
  }

  lemma DrivenTrans(s: State, s1: State, s2: State, c: nat)
    requires Driven(s, s1, c) && Driven(s1, s2, c)
    ensures Driven(s, s2, c)
  {
    hide Inv, Leads, Steady, Settled;
    LeadsTrans(s, s1, s2);
    SteadyTrans(s, s1, s2, -1);
    SteadySizes(s, s1, -1);
    SteadySizes(s1, s2, -1);
    forall e: nat | e < |s.cpus| && e != c && Quiet(s, e) ensures Same(s, s2, e) {
      assert Same(s, s1, e) && Quiet(s1, e) && Same(s1, s2, e);
    }
    forall x: nat | x < |s.procs| && Settled(s, x, c) ensures Settled(s2, x, c) {
      assert Settled(s1, x, c);
    }
  }

  lemma SteadySizes(s: State, s': State, w: int)
    requires Steady(s, s', w)
    ensures |s'.procs| == |s.procs| && |s'.cpus| == |s.cpus| && |s'.lks| == |s.lks| && s'.chans == s.chans
  {
  }

  lemma PlainDriven(s: State, c: nat)
    requires Inv(s) && c < |s.cpus| && Free(s, c)
    ensures Driven(s, Plain(s, c), c)
  {
    hide PLocks, LLocks, WaitOk, Step, Steady, Leads;
    PlainInv(s, c);
    PlainSteady(s, c);
    LeadsSelf(s);
    LeadsStep(s, s, c, Plan(s, c));
    var s' := Plain(s, c);
    forall x: nat | x < |s.procs| && Settled(s, x, c) ensures Settled(s', x, c) {
      assert ProcOk(s, x) && ProcOk(s', x);
      if s'.procs[x].on.Some? && s'.procs[x].on != Some(c) {
        assert Same(s, s', s'.procs[x].on.value) && CpuOk(s, s'.procs[x].on.value);
      }
    }
  }

  // Freeing a lock that CPU c waits for.
  lemma FreedDriven(s: State, s': State, c: nat)
    requires Inv(s) && c < |s.cpus| && Quiet(s, c) && Freed(s, s')
    ensures Driven(s, s', c) && Same(s, s', c)
  {
    hide PLocks, LLocks, WaitOk, Leads;
    forall x: nat | x < |s.procs| && Settled(s, x, c) ensures Settled(s', x, c) {
      assert ProcOk(s, x);
    }
  }

  // The lock CPU c wants is made free.
  lemma Unblock(s: State, c: nat) returns (s': State)
    requires Inv(s) && c < |s.cpus|
    ensures Driven(s, s', c) && |s'.cpus| == |s.cpus| && |s'.procs| == |s.procs| && Free(s', c)
    ensures Same(s, s', c) || s' == s
  {
    hide Driven, Freed, PLocks, LLocks, WaitOk, Same;
    DrivenSelf(s, c);
    s' := s;
    var w := Wants(s, c);
    assert CpuOk(s, c);
    if w.Some? && w.value < |s.plock| {
      s' := Freely(s, w.value);
      FreedDriven(s, s', c);
      FreedSizes(s, s');
      SameWants(s, s', c);
    }
  }

  lemma FreedSizes(s: State, s': State)
    requires Freed(s, s')
    ensures |s'.procs| == |s.procs| && |s'.cpus| == |s.cpus| && Inv(s')
  {
  }

  lemma SameWants(s: State, s': State, c: nat)
    requires c < |s.cpus| == |s'.cpus| && |s'.procs| == |s.procs| && Same(s, s', c)
    ensures Wants(s', c) == Wants(s, c) && Distance(s', c) == Distance(s, c) && Target(s', c) == Target(s, c)
  {
  }

  lemma {:induction false} DriveOff(s: State, c: nat) returns (s': State)
    requires Inv(s) && c < |s.cpus|
    ensures Driven(s, s', c) && |s'.cpus| == |s.cpus| && |s'.procs| == |s.procs|
    ensures s'.cpus[c].ctx == Pick(Target(s, c))
    decreases Distance(s, c)
  {
    hide Driven, Inv, Step, Free, PcDistance;
    if s.cpus[c].ctx.Pick? {
      DrivenSelf(s, c);
      s' := s;
    } else {
      var s1 := Unblock(s, c);
      if s1 != s {
        SameWants(s, s1, c);
      }
      DrivenInv(s, s1, c);
      PlainInv(s1, c);
      PlainSteady(s1, c);
      PlainDriven(s1, c);
      var s2 := Plain(s1, c);
      s' := DriveOff(s2, c);
      DrivenTrans(s1, s2, s', c);
      DrivenTrans(s, s1, s', c);
    }
  }

  lemma DrivenInv(s: State, s': State, c: nat)
    requires Driven(s, s', c)
    ensures Inv(s') && Steady(s, s', -1) && Leads(s, s')
  {
  }

  // ---- a process that is not asleep can be brought to run ----

  // x is on a CPU, at the point it goes on from.
  ghost predicate Running(s: State, x: nat) {
    x < |s.procs| && s.procs[x].on.Some? && s.procs[x].state == RUNNING && NoSpinlock(s.procs[x].pc)
  }

  ghost predicate Onward(s: State, s': State) {
    Leads(s, s') && Inv(s') && Steady(s, s', -1)
  }

  lemma OnwardTrans(s: State, s1: State, s2: State)
    requires Onward(s, s1) && Onward(s1, s2)
    ensures Onward(s, s2)
  {
    hide Inv, Leads, Steady;
    LeadsTrans(s, s1, s2);
    SteadyTrans(s, s1, s2, -1);
  }

  lemma DrivenOnward(s: State, s': State, c: nat)
    requires Driven(s, s', c)
    ensures Onward(s, s') && |s'.procs| == |s.procs| && |s'.cpus| == |s.cpus|
    ensures forall x: nat :: x < |s.procs| && Settled(s, x, c) ==> Settled(s', x, c)
  {
    hide Inv, Leads;
  }

  // A process that can be interrupted is RUNNING.
  lemma CalmRuns(s: State, x: nat)
    requires Inv(s) && x < |s.procs| && Calm(s, x) && s.procs[x].on.Some?
    ensures Running(s, x)
  {
    assert ProcOk(s, x);
  }

  // Once switched to, x goes on to the point where it holds no spinlock.
  lemma {:induction false} Resume(s: State, c: nat, x: nat) returns (s': State)
    requires Inv(s) && c < |s.cpus| && s.cpus[c].ctx == Run(x) && x < |s.procs| && Resuming(s.procs[x].pc)
    ensures Onward(s, s') && Running(s', x)
    decreases PcDistance(s.procs[x].pc, |s.procs|)
  {
    hide Inv, Step, Steady, Leads, Moves, WaitOk, Running;
    GetReady(s, c, x);
    PlainThread(s, c, x);
    PlainInv(s, c);
    PlainSteady(s, c);
    LeadsSelf(s);
    LeadsStep(s, s, c, Plan(s, c));
    s' := Plain(s, c);
    assert Onward(s, s');
    if Resuming(s'.procs[x].pc) {
      var s1 := s';
      s' := Resume(s1, c, x);
      OnwardTrans(s, s1, s');
    } else {
      CalmRuns(s', x);
    }
  }

  // How many processes the scheduler looks at before x.
  function Before(j: nat, x: nat, n: nat): nat
    requires j < n && x < n
  {
    if j <= x then x - j else n - j + x
  }

  // x is not asleep, and on no CPU or interruptible.
  ghost predicate Waits(s: State, x: nat) {
    x < |s.procs| && s.procs[x].state != SLEEPING && NoSpinlock(Core(s.procs[x].pc)) && Calm(s, x)
  }

  lemma StillWaits(s: State, s': State, c: nat, x: nat)
    requires Inv(s) && Waits(s, x) && Driven(s, s', c) && c < |s'.cpus| && !s'.cpus[c].ctx.Run?
    ensures Waits(s', x)
  {
    hide PLocks, LLocks, WaitOk, Leads, CpuOk;
    assert Settled(s, x, c) && Settled(s', x, c) && ProcOk(s', x);
  }

  // The scheduler of CPU c takes the lock of process j, and switches to it if it is x.
  lemma PickNext(s: State, c: nat, x: nat) returns (s': State)
    requires Inv(s) && c < |s.cpus| && s.cpus[c].ctx.Pick? && Waits(s, x) && s.procs[x].on.None? && Free(s, c)
    requires s.cpus[c].ctx.i < |s.procs|
    ensures Driven(s, s', c) && |s'.cpus| == |s.cpus| && |s'.procs| == |s.procs|
    ensures s.cpus[c].ctx.i != x ==> s'.cpus[c].ctx == Check(s.cpus[c].ctx.i) && Waits(s', x)
    ensures s.cpus[c].ctx.i == x ==> s'.cpus[c].ctx == Run(x) && Resuming(s'.procs[x].pc)
  {
    hide PLocks, LLocks, WaitOk, Driven;
    assert CpuOk(s, c) && ProcOk(s, x);
    PlainInv(s, c);
    PlainDriven(s, c);
    s' := Plain(s, c);
    if s.cpus[c].ctx.i == x {
      var s1 := s';
      PlainInv(s1, c);
      PlainDriven(s1, c);
      s' := Plain(s1, c);
      DrivenTrans(s, s1, s', c);
    }
  }

  // The scheduler of CPU c comes to x, unless another CPU runs x before.
  lemma {:induction false} ScanTo(s: State, c: nat, x: nat) returns (s': State)
    requires Inv(s) && c < |s.cpus| && s.cpus[c].ctx.Pick? && s.cpus[c].ctx.i < |s.procs| && Waits(s, x)
    ensures Onward(s, s') && Running(s', x)
    decreases Before(s.cpus[c].ctx.i, x, |s.procs|)
  {
    hide Inv, Step, Onward, Running, Driven, Free, Calm, Core, Same, NoSpinlock;
    var j, n := s.cpus[c].ctx.i, |s.procs|;
    var s1 := Unblock(s, c);
    SamePick(s, s1, c);
    StillWaits(s, s1, c, x);
    DrivenOnward(s, s1, c);
    DrivenInv(s, s1, c);
    if s1.procs[x].on.Some? {
      CalmRuns(s1, x);
      s' := s1;
      return;
    }
    var s2 := PickNext(s1, c, x);
    DrivenOnward(s1, s2, c);
    DrivenInv(s1, s2, c);
    OnwardTrans(s, s1, s2);
    var s3 := s2;
    if j == x {
      s3 := Resume(s2, c, x);
      s' := s3;
    } else {
      s3 := DriveOff(s2, c);
      StillWaits(s2, s3, c, x);
      DrivenOnward(s2, s3, c);
      DrivenInv(s2, s3, c);
      s' := ScanTo(s3, c, x);
      OnwardTrans(s2, s3, s');
    }
    OnwardTrans(s, s2, s');
  }

  lemma SamePick(s: State, s': State, c: nat)
    requires c < |s.cpus| == |s'.cpus| && |s'.procs| == |s.procs| && (Same(s, s', c) || s' == s)
    ensures s'.cpus[c] == s.cpus[c]
  {
  }

  // From every state with a CPU, a process that is not asleep can be brought to the point it
  // goes on from.
  lemma CanRun(s: State, x: nat) returns (s': State)
    requires Inv(s) && |s.cpus| > 0 && x < |s.procs| && s.procs[x].state != SLEEPING
      && NoSpinlock(Core(s.procs[x].pc))
    ensures Onward(s, s') && Running(s', x) && s'.procs[x].pc == Core(s.procs[x].pc)
  {
    hide PLocks, LLocks, WaitOk, Step, Leads, Driven;
    assert ProcOk(s, x);
    var c := if s.procs[x].on.Some? then s.procs[x].on.value else 0;
    assert CpuOk(s, c);
    if Calm(s, x) && s.procs[x].on.Some? {
      s' := s;
      LeadsSelf(s);
      SteadySelf(s);
    } else {
      var s1 := DriveOff(s, c);
      DrivenOnward(s, s1, c);
      assert Settled(s, x, c);
      assert ProcOk(s1, x) && CpuOk(s1, c);
      s' := ScanTo(s1, c, x);
      OnwardTrans(s, s1, s');
    }
  }

  // ---- a sleeper that wakeup has still to come to can be brought back ----

  ghost predicate Toward(s: State, s': State, w: int) {
    Leads(s, s') && Inv(s') && Steady(s, s', w)
  }

  lemma TowardTrans(s: State, s1: State, s2: State, w: int)
    requires Toward(s, s1, w) && Toward(s1, s2, w)
    ensures Toward(s, s2, w)
  {
    hide Inv, Leads, Steady;
    LeadsTrans(s, s1, s2);
    SteadyTrans(s, s1, s2, w);
  }

  lemma OnwardToward(s: State, s': State, w: int)
    requires Onward(s, s')
    ensures Toward(s, s', w)
  {
    hide Inv, Leads, Core;
  }

  function AfterScan(pc: Pc, n: nat): Pc {
    if pc.ScanLock? && pc.i < n then ScanTest(pc.ch, pc.i, pc.lk)
    else if pc.ScanTest? then ScanUnlock(pc.ch, pc.i, pc.lk)
    else if pc.ScanUnlock? then ScanLock(pc.ch, pc.i + 1, pc.lk) else User
  }

  // One step of wakeup by w on CPU c.
  lemma GoScan(s: State, c: nat, w: nat, p: nat) returns (s': State)
    requires Ready(s, c, w) && Function(s.procs[w].pc).InWakeup? && p < |s.procs| && p != w
    requires var pc := s.procs[w].pc; pc.i < |s.procs| && (pc.ScanLock? ==> s.plock[pc.i] == None)
    ensures Toward(s, s', w) && s'.cpus == s.cpus && |s'.procs| == |s.procs|
    ensures s'.procs[w].pc == AfterScan(s.procs[w].pc, |s.procs|)
    ensures var pc := s.procs[w].pc;
      pc.ScanTest? && pc.i == p && s.procs[p].chan == Some(pc.ch) ==> s'.procs[p].state != SLEEPING
  {
    WakeupPlain(s, c, w);
    StepInv(s, c, Go);
    LeadsSelf(s);
    LeadsStep(s, s, c, Go);
    hide Inv, WaitOk, ProcOk, Moves, Leads, Core;
    s' := Step(s, c, Go);
    assert s' == WakeupStep(s, c, w);
  }

  // p sleeps on ch, or has been woken up and has not returned from sleep.
  ghost predicate InSleep(s: State, p: nat, ch: nat) {
    && p < |s.procs| && ch < |s.chans|
    && Core(s.procs[p].pc) == Relock(ch, s.chans[ch].guard)
  }

  lemma SleepsOn(s: State, p: nat, ch: nat)
    requires Inv(s) && p < |s.procs| && s.procs[p].state == SLEEPING
    ensures s.procs[p].chan == Some(ch) ==> InSleep(s, p, ch)
    ensures InSleep(s, p, ch) ==> s.procs[p].chan == Some(ch)
  {
    assert ProcOk(s, p);
  }

  lemma StillInSleep(s: State, s': State, w: int, p: nat, ch: nat)
    requires InSleep(s, p, ch) && Steady(s, s', w) && p != w
    ensures InSleep(s', p, ch) && (s.procs[p].state != SLEEPING ==> s'.procs[p].state != SLEEPING)
  {
  }

  function ScanDistance(pc: Pc, p: nat): nat {
    if !(pc.ScanLock? || pc.ScanTest? || pc.ScanUnlock?) || pc.i > p then 0
    else 3 * (p - pc.i) + if pc.ScanLock? then 2 else if pc.ScanTest? then 1 else 0
  }

  // The scan of w on CPU c goes on until it has woken p up, or someone else has.
  lemma {:induction false} ScanPast(s: State, c: nat, w: nat, p: nat, ch: nat) returns (s': State)
    requires Inv(s) && c < |s.cpus| && s.cpus[c].ctx == Run(w) && w < |s.procs| && p != w
    requires p < |s.procs| && InSleep(s, p, ch) && StillToWake(s.procs[w].pc, ch, p)
    ensures Toward(s, s', w) && InSleep(s', p, ch) && s'.procs[p].state != SLEEPING
    decreases ScanDistance(s.procs[w].pc, p)
  {
    hide Inv, Step, Toward, Steady, Leads, Moves, WaitOk, ProcOk, InSleep, Same;
    s' := s;
    TowardSelf(s, w);
    if s.procs[p].state != SLEEPING {
      return;
    }
    var s1 := MakeWay(s, c, w, p, ch);
    GetReady(s1, c, w);
    var s2 := GoScan(s1, c, w, p);
    TowardTrans(s, s1, s2, w);
    TowardFacts(s1, s2, w, p, ch);
    s' := s2;
    if s2.procs[p].state == SLEEPING {
      SleepsOn(s1, p, ch);
      s' := ScanPast(s2, c, w, p, ch);
      TowardTrans(s, s2, s', w);
    }
  }

  lemma TowardSelf(s: State, w: int)
    requires Inv(s)
    ensures Toward(s, s, w)
  {
    LeadsSelf(s);
    hide Leads;
  }

  lemma TowardFacts(s: State, s': State, w: int, p: nat, ch: nat)
    requires Toward(s, s', w) && InSleep(s, p, ch) && p != w
    ensures Inv(s') && InSleep(s', p, ch) && |s'.procs| == |s.procs| && |s'.cpus| == |s.cpus|
    ensures s.procs[p].state != SLEEPING ==> s'.procs[p].state != SLEEPING
  {
    StillInSleep(s, s', w, p, ch);
  }

  // The process lock that the scan wants next is made free.
  lemma MakeWay(s: State, c: nat, w: nat, p: nat, ch: nat) returns (s': State)
    requires Inv(s) && c < |s.cpus| && s.cpus[c].ctx == Run(w) && w < |s.procs| && p != w
    requires InSleep(s, p, ch) && StillToWake(s.procs[w].pc, ch, p)
    ensures Toward(s, s', w) && Inv(s') && InSleep(s', p, ch) && |s'.procs| == |s.procs| == |s'.plock|
    ensures |s'.cpus| == |s.cpus| && s'.cpus[c].ctx == Run(w) && s'.procs[w].pc == s.procs[w].pc
    ensures var pc := s.procs[w].pc; pc.i < |s.procs| && (pc.ScanLock? ==> s'.plock[pc.i] == None)
  {
    hide PLocks, LLocks, WaitOk, Leads, Freed;
    assert ProcOk(s, w);
    s' := s;
    TowardSelf(s, w);
    if s.procs[w].pc.ScanLock? {
      s' := Freely(s, s.procs[w].pc.i);
      FreedFacts(s, s', c, w);
      TowardFacts(s, s', w, p, ch);
    }
  }

  lemma FreedFacts(s: State, s': State, c: nat, w: int)
    requires Freed(s, s') && c < |s.cpus| && Quiet(s, c)
    ensures Toward(s, s', w) && |s'.cpus| == |s.cpus| && |s'.procs| == |s.procs| && Same(s, s', c)
  {
    hide Inv, Leads, Core;
  }

  // p is back from sleep, inside its spinlock.
  ghost predicate Returned(s: State, p: nat, ch: nat) {
    && p < |s.procs| && ch < |s.chans| && s.procs[p].state == RUNNING && s.procs[p].on.Some?
    && s.procs[p].pc == Inside(s.chans[ch].guard)
  }

  // The spinlock k is free, with p where it was.
  lemma FreeSpinlock(s: State, p: nat, k: nat) returns (s': State)
    requires Inv(s) && Running(s, p) && k < |s.lks|
    ensures Onward(s, s') && |s'.procs| == |s.procs| && |s'.lks| == |s.lks| && s'.lks[k] == None
    ensures s'.procs[p].pc == s.procs[p].pc && s'.procs[p].on == s.procs[p].on
  {
    hide PLocks, WaitOk, Leads;
    assert ProcOk(s, p);
    var e := s.procs[p].on.value;
    s' := s;
    LeadsSelf(s);
    SteadySelf(s);
    if s.lks[k].Some? {
      var d := s.lks[k].value;
      assert (s.lks[k] == Some(d) <==> CpuHoldsL(s, d, k)) && (s.lks[k] == Some(e) <==> CpuHoldsL(s, e, k));
      s' := DriveOff(s, d);
      assert Same(s, s', e);
      assert s'.lks[k] == Some(d) <==> CpuHoldsL(s', d, k);
    }
  }

  lemma Return(s: State, p: nat, ch: nat) returns (s': State)
    requires Inv(s) && |s.cpus| > 0 && InSleep(s, p, ch) && s.procs[p].state != SLEEPING
    ensures Leads(s, s') && Inv(s') && s'.chans == s.chans && Returned(s', p, ch)
  {
    hide PLocks, LLocks, WaitOk, Leads, Step, Steady;
    assert ProcOk(s, p);
    var s1 := CanRun(s, p);
    SteadySizes(s, s1, -1);
    assert ProcOk(s1, p);
    var k := s.chans[ch].guard;
    var s2 := FreeSpinlock(s1, p, k);
    SteadySizes(s1, s2, -1);
    LeadsTrans(s, s1, s2);
    var e := s2.procs[p].on.value;
    assert ProcOk(s2, p);
    StepInv(s2, e, Go);
    LeadsStep(s, s2, e, Go);
    s' := Step(s2, e, Go);
    Relocks(s2, e, p);
  }

  lemma Relocks(s: State, e: nat, p: nat)
    requires Inv(s) && p < |s.procs| && s.procs[p].pc.Relock? && s.procs[p].on == Some(e)
    requires s.procs[p].pc.k < |s.lks| && s.lks[s.procs[p].pc.k] == None
    ensures var s' := Step(s, e, Go);
      && |s'.procs| == |s.procs| && s'.chans == s.chans
      && s'.procs[p] == s.procs[p].(pc := Inside(s.procs[p].pc.k)) && s'.procs[p].state == RUNNING
  {
    hide PLocks, LLocks, WaitOk;
    assert ProcOk(s, p);
  }

  // The thread w of a scan is brought to the scan, if it has been interrupted.
  lemma ToScan(s: State, w: nat, p: nat, ch: nat) returns (s': State, c: nat)
    requires Inv(s) && |s.cpus| > 0 && w < |s.procs| && InSleep(s, p, ch) && p != w
    requires StillToWake(Base(s.procs[w].pc), ch, p)
    ensures Leads(s, s') && Inv(s') && s'.chans == s.chans && |s'.procs| == |s.procs| && |s'.cpus| == |s.cpus|
    ensures InSleep(s', p, ch) && c < |s'.cpus| && s'.cpus[c].ctx == Run(w) && StillToWake(s'.procs[w].pc, ch, p)
  {
    hide PLocks, LLocks, WaitOk, Leads;
    assert ProcOk(s, w);
    if Base(s.procs[w].pc) == s.procs[w].pc {
      s' := s;
      LeadsSelf(s);
    } else {
      s' := CanRun(s, w);
      assert ProcOk(s', w);
      StillInSleep(s, s', -1, p, ch);
    }
    c := s'.procs[w].on.value;
  }

  lemma SleeperBack(s: State, p: nat, w: nat, ch: nat) returns (s': State)
    requires Inv(s) && |s.cpus| > 0 && p < |s.procs| && w < |s.procs|
    requires s.procs[p].state == SLEEPING && s.procs[p].chan == Some(ch) && StillToWake(Base(s.procs[w].pc), ch, p)
    ensures Leads(s, s') && Inv(s') && s'.chans == s.chans && Returned(s', p, ch)
  {
    hide Leads, Inv, Steady, InSleep, StillToWake, Returned;
    SleepsOn(s, p, ch);
    NotSelf(s, p, w, ch);
    var s1, c := ToScan(s, w, p, ch);
    var s2 := ScanPast(s1, c, w, p, ch);
    TowardSizes(s1, s2, w);
    s' := Return(s2, p, ch);
    LeadsTrans(s, s1, s2);
    LeadsTrans(s, s2, s');
  }

  lemma TowardSizes(s: State, s': State, w: int)
    requires Toward(s, s', w)
    ensures Leads(s, s') && Inv(s') && |s'.cpus| == |s.cpus| && |s'.procs| == |s.procs| && s'.chans == s.chans
  {
  }

  lemma NotSelf(s: State, p: nat, w: nat, ch: nat)
    requires Inv(s) && p < |s.procs| && w < |s.procs| && s.procs[p].state == SLEEPING
    requires StillToWake(Base(s.procs[w].pc), ch, p)
    ensures p != w
  {
    assert ProcOk(s, p);
  }

  // ---- the main results ----

  // The scheduler switches to the RUNNABLE process it finds, and the kill of a process leaves
  // it killed and not asleep.
  lemma NextStep(b: Setup, run: seq<(nat, Choice)>, c: nat, p: nat)
    requires b.Valid()
    ensures var s, s' := Exec(Boot(b), run), Exec(Boot(b), run + [(c, Go)]);
      && (c < |s.cpus| && p < |s.procs| && s.cpus[c].ctx == Check(p) && s.procs[p].state == RUNNABLE ==>
            c < |s'.cpus| && p < |s'.procs| && s'.cpus[c] == Cpu(Some(p), Run(p)) && s'.procs[p].state == RUNNING)
      && (forall w: nat :: c < |s.cpus| && w < |s.procs| && s.cpus[c].ctx == Run(w) && s.procs[w].pc == KillSet(p) ==>
            p < |s'.procs| && s'.procs[p].killed && s'.procs[p].state != SLEEPING)
  {
    hide Step, Inv;
    Reachable(b, run);
    ExecStep(b, run, c, Go);
    var s := Exec(Boot(b), run);
    if c < |s.cpus| && p < |s.procs| && s.cpus[c].ctx == Check(p) && s.procs[p].state == RUNNABLE {
      Dispatches(s, c, p);
    }
    forall w: nat | c < |s.cpus| && w < |s.procs| && s.cpus[c].ctx == Run(w) && s.procs[w].pc == KillSet(p)
      ensures var s' := Step(s, c, Go); p < |s'.procs| && s'.procs[p].killed && s'.procs[p].state != SLEEPING
    {
      Kills(s, c, w, p);
    }
  }

  lemma ExecStep(b: Setup, run: seq<(nat, Choice)>, c: nat, what: Choice)
    ensures Exec(Boot(b), run + [(c, what)]) == Step(Exec(Boot(b), run), c, what)
  {
    hide Step, Boot;
    var more := run + [(c, what)];
    assert more[..|more| - 1] == run;
  }

  lemma Dispatches(s: State, c: nat, p: nat)
    requires c < |s.cpus| && p < |s.procs| && s.cpus[c].ctx == Check(p) && s.procs[p].state == RUNNABLE
    ensures var s' := Step(s, c, Go);
      c < |s'.cpus| && p < |s'.procs| && s'.cpus[c] == Cpu(Some(p), Run(p)) && s'.procs[p].state == RUNNING
  {
    hide ThreadStep;
  }

  lemma Kills(s: State, c: nat, w: nat, p: nat)
    requires Inv(s) && c < |s.cpus| && w < |s.procs| && s.cpus[c].ctx == Run(w) && s.procs[w].pc == KillSet(p)
    ensures var s' := Step(s, c, Go); p < |s'.procs| && s'.procs[p].killed && s'.procs[p].state != SLEEPING
  {
    hide PLocks, LLocks, WaitOk;
    assert ProcOk(s, w);
  }

  // From every reachable state, every RUNNABLE process can still be brought to run.
  lemma RunnableRuns(b: Setup, run: seq<(nat, Choice)>, p: nat)
    requires b.Valid() && b.cpus > 0
    ensures var s := Exec(Boot(b), run);
      p < |s.procs| && s.procs[p].state == RUNNABLE ==>
        exists more :: var s' := Exec(Boot(b), run + more); p < |s'.procs| && s'.procs[p].state == RUNNING
  {
    hide PLocks, LLocks, WaitOk, Step;
    Reachable(b, run);
    var s := Exec(Boot(b), run);
    SizesStay(b, run);
    if p < |s.procs| && s.procs[p].state == RUNNABLE {
      assert ProcOk(s, p);
      var s' := CanRun(s, p);
      var more := Continue(b, run, s');
    }
  }

  lemma Continue(b: Setup, run: seq<(nat, Choice)>, s': State) returns (more: seq<(nat, Choice)>)
    requires Leads(Exec(Boot(b), run), s')
    ensures Exec(Boot(b), run + more) == s'
  {
    hide Exec;
    more :| Exec(Exec(Boot(b), run), more) == s';
    ExecConcat(Boot(b), run, more);
  }

  ghost predicate SameSizes(s: State, s': State) {
    |s'.cpus| == |s.cpus| && |s'.procs| == |s.procs|
  }

  lemma UserSizes(s: State, c: nat, p: nat, what: Choice)
    requires c < |s.cpus| && p < |s.procs|
    ensures SameSizes(s, UserStep(s, c, p, what)) && SameSizes(s, KillStep(s, c, p))
  {
  }

  lemma SleepSizes(s: State, c: nat, p: nat)
    requires c < |s.cpus| && p < |s.procs|
    ensures SameSizes(s, SleepStep(s, c, p)) && SameSizes(s, WakeupStep(s, c, p)) && SameSizes(s, YieldStep(s, c, p))
  {
  }

  lemma ThreadSizes(s: State, c: nat, p: nat, what: Choice)
    requires c < |s.cpus| && p < |s.procs|
    ensures SameSizes(s, ThreadStep(s, c, p, what))
  {
    UserSizes(s, c, p, what);
    SleepSizes(s, c, p);
    hide UserStep, KillStep, SleepStep, WakeupStep, YieldStep;
  }

  lemma StepSizes(s: State, c: nat, what: Choice)
    ensures |Step(s, c, what).cpus| == |s.cpus| && |Step(s, c, what).procs| == |s.procs|
  {
    hide ThreadStep;
    if c < |s.cpus| && s.cpus[c].ctx.Run? && s.cpus[c].ctx.p < |s.procs| {
      ThreadSizes(s, c, s.cpus[c].ctx.p, what);
    }
  }

  lemma {:induction false} SizesStay(b: Setup, run: seq<(nat, Choice)>)
    ensures |Exec(Boot(b), run).cpus| == b.cpus && |Exec(Boot(b), run).procs| == b.procs
  {
    hide Step;
    if run != [] {
      var last := run[|run| - 1];
      SizesStay(b, run[..|run| - 1]);
      StepSizes(Exec(Boot(b), run[..|run| - 1]), last.0, last.1);
    }
  }

  // From every reachable state, a sleeper on a channel that some wakeup is scanning for, and
  // has still to come to, can still be brought back from sleep, with no condition changed.
  lemma SleeperReturns(b: Setup, run: seq<(nat, Choice)>, p: nat, w: nat, ch: nat)
    requires b.Valid() && b.cpus > 0
    ensures var s := Exec(Boot(b), run);
      && p < |s.procs| && w < |s.procs| && s.procs[p].state == SLEEPING && s.procs[p].chan == Some(ch)
      && StillToWake(Base(s.procs[w].pc), ch, p) ==>
        exists more :: var s' := Exec(Boot(b), run + more); Returned(s', p, ch) && s'.chans == s.chans
  {
    hide Step, Inv, StillToWake, Returned;
    Reachable(b, run);
    SizesStay(b, run);
    var s := Exec(Boot(b), run);
    if p < |s.procs| && w < |s.procs| && s.procs[p].state == SLEEPING && s.procs[p].chan == Some(ch)
      && StillToWake(Base(s.procs[w].pc), ch, p) {
      var s' := SleeperBack(s, p, w, ch);
      var more := Continue(b, run, s');
    }
  }

  // And if the channel is a sleep-lock that is free, the sleeper can be made its holder.
  lemma WaiterAcquires(b: Setup, run: seq<(nat, Choice)>, p: nat, w: nat, l: nat)
    requires b.Valid() && b.cpus > 0
    ensures var s := Exec(Boot(b), run);
      && p < |s.procs| && w < |s.procs| && s.procs[p].state == SLEEPING && s.procs[p].chan == Some(l)
      && StillToWake(Base(s.procs[w].pc), l, p) && l < |s.chans| && s.chans[l].sleepLock && s.chans[l].cond ==>
        exists more ::
          var s' := Exec(Boot(b), run + more);
          && p < |s'.procs| && l in s'.procs[p].held && s'.procs[p].state == RUNNING
          && l < |s'.chans| && s'.chans[l].owner == Some(p) && !s'.chans[l].cond
  {
    hide Inv, StillToWake;
    Reachable(b, run);
    SizesStay(b, run);
    var s := Exec(Boot(b), run);
    if p < |s.procs| && w < |s.procs| && s.procs[p].state == SLEEPING && s.procs[p].chan == Some(l)
      && StillToWake(Base(s.procs[w].pc), l, p) && l < |s.chans| && s.chans[l].sleepLock && s.chans[l].cond {
      var s1 := SleeperBack(s, p, w, l);
      var e := s1.procs[p].on.value;
      LeadsStep(s, s1, e, Reset(l));
      Acquires(s1, e, p, l);
      var more := Continue(b, run, Step(s1, e, Reset(l)));
    }
  }

  lemma Acquires(s: State, e: nat, p: nat, l: nat)
    requires Inv(s) && Returned(s, p, l) && s.procs[p].on == Some(e) && s.chans[l].sleepLock && s.chans[l].cond
    ensures var s' := Step(s, e, Reset(l));
      && p < |s'.procs| && l in s'.procs[p].held && s'.procs[p].state == RUNNING
      && l < |s'.chans| && s'.chans[l].owner == Some(p) && !s'.chans[l].cond
  {
    hide PLocks, LLocks, WaitOk;
    assert ProcOk(s, p);
  }

  // releasesleep inside the spinlock: the sleep-lock is free, and its wakeup has everyone
  // still to look at.
  lemma ReleaseSteps(s: State, c: nat, w: nat, l: nat)
    requires Inv(s) && c < |s.cpus| && s.cpus[c].ctx == Run(w) && w < |s.procs| && l < |s.chans|
    requires s.procs[w].pc == Inside(s.chans[l].guard) && l in s.procs[w].held
    ensures var s' := Step(Step(s, c, Set(l)), c, WakeUp(l));
      && |s'.procs| == |s.procs| && |s'.chans| == |s.chans|
      && (forall x: nat :: x < |s.procs| && x != w ==> s'.procs[x] == s.procs[x])
      && s'.chans[l] == Chan(s.chans[l].guard, true, true, w, None) && l !in s'.procs[w].held
      && (forall x: nat :: StillToWake(Base(s'.procs[w].pc), l, x))
  {
    hide PLocks, LLocks, WaitOk;
    assert ProcOk(s, w);
  }

  // From every reachable state in which w holds a sleep-lock that p waits for, and is inside
  // its spinlock, the sleep-lock can pass from w to p.
  lemma HandOver(b: Setup, run: seq<(nat, Choice)>, c: nat, p: nat, w: nat, l: nat)
    requires b.Valid()
    ensures var s := Exec(Boot(b), run);
      && p < |s.procs| && s.procs[p].state == SLEEPING && s.procs[p].chan == Some(l)
      && c < |s.cpus| && s.cpus[c].ctx == Run(w) && w < |s.procs| && l < |s.chans|
      && s.procs[w].pc == Inside(s.chans[l].guard) && l in s.procs[w].held ==>
        exists more ::
          var s' := Exec(Boot(b), run + more);
          && p < |s'.procs| && l in s'.procs[p].held && s'.procs[p].state == RUNNING
          && w < |s'.procs| && l !in s'.procs[w].held
  {
    hide Inv, StillToWake, Step;
    Reachable(b, run);
    SizesStay(b, run);
    var s := Exec(Boot(b), run);
    if p < |s.procs| && s.procs[p].state == SLEEPING && s.procs[p].chan == Some(l)
      && c < |s.cpus| && s.cpus[c].ctx == Run(w) && w < |s.procs| && l < |s.chans|
      && s.procs[w].pc == Inside(s.chans[l].guard) && l in s.procs[w].held {
      ReleaseSteps(s, c, w, l);
      RunsInside(s, c, w, p);
      LeadsSelf(s);
      LeadsStep(s, s, c, Set(l));
      LeadsStep(s, Step(s, c, Set(l)), c, WakeUp(l));
      var first := Continue(b, run, Step(Step(s, c, Set(l)), c, WakeUp(l)));
      WaiterAcquires(b, run + first, p, w, l);
      var rest :|
        var s' := Exec(Boot(b), run + first + rest);
        && p < |s'.procs| && l in s'.procs[p].held && s'.procs[p].state == RUNNING
        && l < |s'.chans| && s'.chans[l].owner == Some(p) && !s'.chans[l].cond;
      assert run + first + rest == run + (first + rest);
      SleepLockExclusive(b, run + first + rest, p, w, l);
      SizesStay(b, run + first + rest);
    }
  }

  // From every reachable state, a process that is outside of sleep, wakeup and kill and holds no
  // spinlock can get every spinlock, and one that waits for a spinlock can get that.
  lemma SpinlockTaken(b: Setup, run: seq<(nat, Choice)>, p: nat, k: nat)
    requires b.Valid() && b.cpus > 0
    ensures var s := Exec(Boot(b), run);
      && p < |s.procs| && k < |s.lks| && s.procs[p].state != SLEEPING
      && (Core(s.procs[p].pc) == User || Core(s.procs[p].pc) == Enter(k)) ==>
        exists more ::
          var s' := Exec(Boot(b), run + more);
          && p < |s'.procs| && s'.procs[p].state == RUNNING && s'.procs[p].pc == Inside(k) && s'.chans == s.chans
          && k < |s'.lks| && s'.lks[k].Some? && s'.lks[k] == s'.procs[p].on
  {
    hide Step, Inv;
    Reachable(b, run);
    SizesStay(b, run);
    var s := Exec(Boot(b), run);
    if p < |s.procs| && k < |s.lks| && s.procs[p].state != SLEEPING
      && (Core(s.procs[p].pc) == User || Core(s.procs[p].pc) == Enter(k)) {
      var s' := GetSpinlock(s, p, k);
      var more := Continue(b, run, s');
    }
  }

  lemma GetSpinlock(s: State, p: nat, k: nat) returns (s': State)
    requires Inv(s) && |s.cpus| > 0 && p < |s.procs| && s.procs[p].state != SLEEPING && k < |s.lks|
    requires Core(s.procs[p].pc) == User || Core(s.procs[p].pc) == Enter(k)
    ensures Leads(s, s') && Inv(s') && s'.chans == s.chans && |s'.procs| == |s.procs| && |s'.lks| == |s.lks|
    ensures s'.procs[p].state == RUNNING && s'.procs[p].pc == Inside(k)
    ensures s'.lks[k].Some? && s'.lks[k] == s'.procs[p].on
  {
    hide PLocks, LLocks, WaitOk, Leads, Step, Steady;
    var s1 := CanRun(s, p);
    SteadySizes(s, s1, -1);
    var s2 := s1;
    if s1.procs[p].pc == User {
      var e := s1.procs[p].on.value;
      Approaches(s1, e, p, k);
      LeadsStep(s, s1, e, Take(k));
      StepInv(s1, e, Take(k));
      s2 := Step(s1, e, Take(k));
    }
    assert ProcOk(s2, p);
    var s3 := FreeSpinlock(s2, p, k);
    SteadySizes(s2, s3, -1);
    LeadsTrans(s, s2, s3);
    var e := s3.procs[p].on.value;
    Enters(s3, e, p, k);
    LeadsStep(s, s3, e, Go);
    StepInv(s3, e, Go);
    s' := Step(s3, e, Go);
    assert ProcOk(s', p);
  }

  lemma Approaches(s: State, e: nat, p: nat, k: nat)
    requires Inv(s) && p < |s.procs| && s.procs[p].pc == User && s.procs[p].on == Some(e) && k < |s.lks|
    ensures Step(s, e, Take(k)) == AtPc(s, p, Enter(k))
  {
    hide PLocks, LLocks, WaitOk;
    assert ProcOk(s, p);
  }

  lemma Enters(s: State, e: nat, p: nat, k: nat)
    requires Inv(s) && p < |s.procs| && s.procs[p].pc == Enter(k) && s.procs[p].on == Some(e)
    requires k < |s.lks| && s.lks[k] == None
    ensures Step(s, e, Go) == AtPc(s, p, Inside(k)).(lks := s.lks[k := Some(e)])
  {
    hide PLocks, LLocks, WaitOk;
    assert ProcOk(s, p);
  }

  // From every reachable state, a thread inside the spinlock of a channel whose condition is
  // false can fall asleep on it.
  lemma CanSleep(b: Setup, run: seq<(nat, Choice)>, p: nat, ch: nat)
    requires b.Valid()
    ensures var s := Exec(Boot(b), run);
      && p < |s.procs| && ch < |s.chans| && s.procs[p].pc == Inside(s.chans[ch].guard) && !s.chans[ch].cond ==>
        exists more ::
          var s' := Exec(Boot(b), run + more);
          p < |s'.procs| && s'.procs[p].state == SLEEPING && s'.procs[p].chan == Some(ch) && s'.chans == s.chans
  {
    hide Step, Inv;
    Reachable(b, run);
    var s := Exec(Boot(b), run);
    if p < |s.procs| && ch < |s.chans| && s.procs[p].pc == Inside(s.chans[ch].guard) && !s.chans[ch].cond {
      var s' := FallAsleep(s, p, ch);
      var more := Continue(b, run, s');
    }
  }

  lemma BeginsSleep(s: State, e: nat, p: nat, ch: nat)
    requires Inv(s) && p < |s.procs| && ch < |s.chans| && s.procs[p].pc == Inside(s.chans[ch].guard)
    requires !s.chans[ch].cond && s.procs[p].on == Some(e)
    ensures Step(s, e, Wait(ch)) == AtPc(s, p, LockSelf(ch, s.chans[ch].guard))
  {
    hide PLocks, LLocks, WaitOk;
    assert ProcOk(s, p);
  }

  lemma FallAsleep(s: State, p: nat, ch: nat) returns (s': State)
    requires Inv(s) && p < |s.procs| && ch < |s.chans| && s.procs[p].pc == Inside(s.chans[ch].guard)
    requires !s.chans[ch].cond
    ensures Leads(s, s') && Inv(s') && s'.chans == s.chans && |s'.procs| == |s.procs|
    ensures s'.procs[p].state == SLEEPING && s'.procs[p].chan == Some(ch)
  {
    hide Inv, Ready, Leads, Step, Steady, Driven, Free, Same, HoldsP, HoldsL;
    var e := InsideOn(s, p);
    BeginsSleep(s, e, p, ch);
    LeadsSelf(s);
    LeadsStep(s, s, e, Wait(ch));
    StepInv(s, e, Wait(ch));
    var s1 := Step(s, e, Wait(ch));
    var s2 := Unblock(s1, e);
    DrivenInv(s1, s2, e);
    SteadySizes(s1, s2, -1);
    SameRun(s1, s2, e);
    LeadsTrans(s, s1, s2);
    GetReady(s2, e, p);
    var s3 := OneMore(s, s2, e, p);
    var s4 := OneMore(s, s3, e, p);
    s' := OneMore(s, s4, e, p);
    AtSched(s', e, p);
  }

  lemma InsideOn(s: State, p: nat) returns (e: nat)
    requires Inv(s) && p < |s.procs| && s.procs[p].pc.Inside?
    ensures s.procs[p].on == Some(e) && e < |s.cpus| && s.cpus[e].ctx == Run(p)
  {
    assert ProcOk(s, p);
    e := s.procs[p].on.value;
  }

  lemma SameRun(s: State, s': State, e: nat)
    requires e < |s.cpus| == |s'.cpus| && |s'.procs| == |s.procs| && (Same(s, s', e) || s' == s)
    ensures s'.cpus[e].ctx == s.cpus[e].ctx
    ensures var k := s.cpus[e].ctx; k.Run? && k.p < |s.procs| ==> s'.procs[k.p].pc == s.procs[k.p].pc
  {
  }

  lemma AtSched(s: State, e: nat, p: nat)
    requires Ready(s, e, p) && s.procs[p].pc.Sched?
    ensures Inv(s) && s.procs[p].state == SLEEPING && s.procs[p].chan == Some(s.procs[p].pc.ch)
  {
  }

  lemma OneMore(s0: State, s: State, e: nat, p: nat) returns (s': State)
    requires Leads(s0, s) && Ready(s, e, p) && Free(s, e)
    requires s.procs[p].pc.LockSelf? || s.procs[p].pc.UnlockLk? || s.procs[p].pc.SetChan?
    ensures Leads(s0, s') && Ready(s', e, p) && Free(s', e) && s'.chans == s.chans && |s'.procs| == |s.procs|
    ensures s'.procs[p].pc == Next(s.procs[p].pc, |s.procs|)
  {
    hide Leads, Step, Moves, Inv, ProcOk, WaitOk;
    PlainThread(s, e, p);
    PlainInv(s, e);
    LeadsStep(s0, s, e, Plan(s, e));
    s' := Plain(s, e);
    GetReady(s', e, p);
  }

  // From every reachable state, a wakeup starts with every process still to look at, with a
  // spinlock or without; and kill can be brought to its end.
  lemma WakeupBegins(b: Setup, run: seq<(nat, Choice)>, c: nat, w: nat, ch: nat)
    requires b.Valid()
    ensures var s, s' := Exec(Boot(b), run), Exec(Boot(b), run + [(c, WakeUp(ch))]);
      && c < |s.cpus| && s.cpus[c].ctx == Run(w) && w < |s.procs| && ch < |s.chans|
      && (s.procs[w].pc.User? || s.procs[w].pc.Inside?) ==>
        && w < |s'.procs| && (forall x: nat :: StillToWake(s'.procs[w].pc, ch, x)) && ch !in s'.procs[w].owes
  {
    hide Step, StillToWake;
    ExecStep(b, run, c, WakeUp(ch));
    var s := Exec(Boot(b), run);
    if c < |s.cpus| && s.cpus[c].ctx == Run(w) && w < |s.procs| && ch < |s.chans|
      && (s.procs[w].pc.User? || s.procs[w].pc.Inside?) {
      Begins(s, c, w, ch);
    }
  }

  lemma Begins(s: State, c: nat, w: nat, ch: nat)
    requires c < |s.cpus| && s.cpus[c].ctx == Run(w) && w < |s.procs| && ch < |s.chans|
    requires s.procs[w].pc.User? || s.procs[w].pc.Inside?
    ensures var s' := Step(s, c, WakeUp(ch));
      w < |s'.procs| && (forall x: nat :: StillToWake(s'.procs[w].pc, ch, x)) && ch !in s'.procs[w].owes
  {
  }

  lemma CanKill(b: Setup, run: seq<(nat, Choice)>, p: nat, q: nat)
    requires b.Valid() && b.cpus > 0
    ensures var s := Exec(Boot(b), run);
      p < |s.procs| && q < |s.procs| && s.procs[p].state != SLEEPING && Core(s.procs[p].pc) == User ==>
        exists more ::
          var s' := Exec(Boot(b), run + more); q < |s'.procs| && s'.procs[q].killed && s'.procs[q].state != SLEEPING
  {
    hide Step, Inv;
    Reachable(b, run);
    SizesStay(b, run);
    var s := Exec(Boot(b), run);
    if p < |s.procs| && q < |s.procs| && s.procs[p].state != SLEEPING && Core(s.procs[p].pc) == User {
      var s' := KillFrom(s, p, q);
      var more := Continue(b, run, s');
    }
  }

  lemma KillFrom(s: State, p: nat, q: nat) returns (s': State)
    requires Inv(s) && |s.cpus| > 0 && p < |s.procs| && q < |s.procs| && s.procs[p].state != SLEEPING
    requires Core(s.procs[p].pc) == User
    ensures Leads(s, s') && |s'.procs| == |s.procs| && s'.procs[q].killed && s'.procs[q].state != SLEEPING
  {
    hide PLocks, LLocks, WaitOk, Leads, Step, Steady, Freed;
    var s1 := CanRun(s, p);
    SteadySizes(s, s1, -1);
    var e := s1.procs[p].on.value;
    assert ProcOk(s1, p);
    KillSteps(s1, e, p, q);
    LeadsStep(s, s1, e, KillProc(q));
    StepInv(s1, e, KillProc(q));
    var s2 := Step(s1, e, KillProc(q));
    var s3 := Freely(s2, q);
    FreedFacts(s2, s3, e, -1);
    LeadsTrans(s, s2, s3);
    KillSteps(s3, e, p, q);
    LeadsStep(s, s3, e, Go);
    LeadsStep(s, Step(s3, e, Go), e, Go);
    s' := Step(Step(s3, e, Go), e, Go);
  }

  lemma KillSteps(s: State, e: nat, p: nat, q: nat)
    requires Inv(s) && p < |s.procs| && q < |s.procs| && e < |s.cpus| && s.cpus[e].ctx == Run(p)
    ensures s.procs[p].pc == User ==> Step(s, e, KillProc(q)) == AtPc(s, p, KillLock(q))
    ensures s.procs[p].pc == KillLock(q) && s.plock[q] == None ==>
      var s' := Step(Step(s, e, Go), e, Go);
      |s'.procs| == |s.procs| && s'.procs[q].killed && s'.procs[q].state != SLEEPING
  {
    hide PLocks, LLocks, WaitOk;
  }

  lemma RunsInside(s: State, c: nat, w: nat, p: nat)
    requires Inv(s) && c < |s.cpus| && s.cpus[c].ctx == Run(w) && w < |s.procs| && s.procs[w].pc.Inside?
    requires p < |s.procs| && s.procs[p].state == SLEEPING
    ensures p != w
  {
    assert CpuOk(s, c) && ProcOk(s, w);
  }
}
