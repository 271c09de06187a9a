// sleep, wakeup and the scheduler (kernel/proc.c) as a system of interleaved steps.  One
// step is what one CPU does between two points where another CPU can interfere: taking or
// giving up one spinlock, or an access to data that a lock protects.
//
// A channel stands for a condition that a spinlock guards.  A thread inside the spinlock may
// change the condition, sleep on the channel while the condition is false, and wake the
// channel up; it may also wake it up after it has left.  Sleep-locks (kernel/sleeplock.c) are
// channels whose condition only the holder makes true.
module SleepWakeup {
  import opened Wrappers

  datatype RunState = RUNNABLE | RUNNING | SLEEPING

  // Where the kernel thread of a process is.  k is a spinlock and ch a channel.
  datatype Pc =
    | User                                        // holds no spinlock, runs anything
    | ForkRet                                     // before its first release of p->lock
    | Enter(k: nat) | Inside(k: nat)              // between acquire(k) and release(k)
    // sleep(ch, k)
    | LockSelf(ch: nat, k: nat) | UnlockLk(ch: nat, k: nat) | SetChan(ch: nat, k: nat) | Sched(ch: nat, k: nat)
    | Awake(ch: nat, k: nat) | UnlockSelf(ch: nat, k: nat) | Relock(ch: nat, k: nat)
    // wakeup(ch) at process i, called inside the spinlock lk or without one
    | ScanLock(ch: nat, i: nat, lk: Option<nat>) | ScanTest(ch: nat, i: nat, lk: Option<nat>)
    | ScanUnlock(ch: nat, i: nat, lk: Option<nat>)
    // yield, from a point where no spinlock is held
    | YieldLock(back: Pc) | YieldSet(back: Pc) | YieldSched(back: Pc) | YieldUnlock(back: Pc)
    // kill of process q
    | KillLock(q: nat) | KillSet(q: nat) | KillUnlock(q: nat)

  // owes: the channels whose condition the thread has made true and not yet woken up.  held:
  // the sleep-locks it holds.  on: the CPU that executes the thread.
  datatype Proc = Proc(state: RunState, chan: Option<nat>, killed: bool, pc: Pc, owes: set<nat>, held: set<nat>,
                       on: Option<nat>)

  // The scheduler loop of a CPU at process i, or the process it has switched to.
  datatype Context = Pick(i: nat) | Check(i: nat) | Back(i: nat) | Drop(i: nat) | Run(p: nat)

  datatype Cpu = Cpu(proc: Option<nat>, ctx: Context)

  // A condition, the spinlock that guards it, and who made it true last.  Of a sleep-lock the
  // condition is that it is free.
  datatype Chan = Chan(guard: nat, sleepLock: bool, cond: bool, setter: nat, owner: Option<nat>)

  // plock and lks name the CPU that holds the spinlock.
  datatype State = State(cpus: seq<Cpu>, procs: seq<Proc>, plock: seq<Option<nat>>, lks: seq<Option<nat>>,
                         chans: seq<Chan>)

  // What a thread does next when it is free to choose.
  datatype Choice = Go | Take(k: nat) | Leave | Set(ch: nat) | Reset(ch: nat) | Wait(ch: nat) | WakeUp(ch: nat)
    | KillProc(q: nat) | Interrupt

  predicate NoSpinlock(pc: Pc) {
    pc.User? || pc.Enter? || pc.Relock? || pc.KillLock? || (pc.ScanLock? && pc.lk == None)
  }

  // The spinlocks a thread holds.
  predicate HoldsP(pc: Pc, p: nat, q: nat) {
    match pc
    case ForkRet => q == p
    case UnlockLk(_, _) => q == p
    case SetChan(_, _) => q == p
    case Sched(_, _) => q == p
    case Awake(_, _) => q == p
    case UnlockSelf(_, _) => q == p
    case YieldSet(_) => q == p
    case YieldSched(_) => q == p
    case YieldUnlock(_) => q == p
    case ScanTest(_, i, _) => q == i
    case ScanUnlock(_, i, _) => q == i
    case KillSet(k) => q == k
    case KillUnlock(k) => q == k
    case _ => false
  }

  predicate HoldsL(pc: Pc, l: nat) {
    match pc
    case Inside(k) => k == l
    case LockSelf(_, k) => k == l
    case UnlockLk(_, k) => k == l
    case ScanLock(_, _, lk) => lk == Some(l)
    case ScanTest(_, _, lk) => lk == Some(l)
    case ScanUnlock(_, _, lk) => lk == Some(l)
    case _ => false
  }

  function AtPc(s: State, p: nat, pc: Pc): State
    requires p < |s.procs|
  {
    s.(procs := s.procs[p := s.procs[p].(pc := pc)])
  }

  // acquire and release of a process lock and of another spinlock.
  function TakeP(s: State, c: nat, p: nat, q: nat, pc: Pc): State
    requires p < |s.procs|
  {
    if q < |s.plock| && s.plock[q] == None then AtPc(s, p, pc).(plock := s.plock[q := Some(c)]) else s
  }

  function DropP(s: State, p: nat, q: nat, pc: Pc): State
    requires p < |s.procs|
  {
    if q < |s.plock| then AtPc(s, p, pc).(plock := s.plock[q := None]) else s
  }

  function TakeL(s: State, c: nat, p: nat, l: nat, pc: Pc): State
    requires p < |s.procs|
  {
    if l < |s.lks| && s.lks[l] == None then AtPc(s, p, pc).(lks := s.lks[l := Some(c)]) else s
  }

  function DropL(s: State, p: nat, l: nat, pc: Pc): State
    requires p < |s.procs|
  {
    if l < |s.lks| then AtPc(s, p, pc).(lks := s.lks[l := None]) else s
  }

  // swtch back to the scheduler of CPU c.
  function SwitchOut(s: State, c: nat, p: nat, pc: Pc): State
    requires c < |s.cpus| && p < |s.procs|
  {
    s.(procs := s.procs[p := s.procs[p].(pc := pc, on := None)], cpus := s.cpus[c := s.cpus[c].(ctx := Back(p))])
  }

  // wakeup(ch) begins.
  function BeginScan(s: State, p: nat, ch: nat, lk: Option<nat>): State
    requires p < |s.procs|
  {
    if ch < |s.chans| then
        s.(procs := s.procs[p := s.procs[p].(pc := ScanLock(ch, 0, lk), owes := s.procs[p].owes - {ch})]) else s
  }

  // The steps of the thread of process p on CPU c, by the function it is in.  A step that
  // must wait for a spinlock leaves the state as it is.
  function UserStep(s: State, c: nat, p: nat, what: Choice): State
    requires c < |s.cpus| && p < |s.procs|
  {
    match s.procs[p].pc
    case User =>
      (match what
       case Take(k) => if k < |s.lks| then AtPc(s, p, Enter(k)) else s
       case WakeUp(ch) => BeginScan(s, p, ch, None)
       case KillProc(q) => AtPc(s, p, KillLock(q))
       case _ => s)
    case ForkRet => DropP(s, p, p, User)
    case Enter(k) => TakeL(s, c, p, k, Inside(k))
    case Inside(k) =>
      (match what
       case Leave => DropL(s, p, k, User)
       case WakeUp(ch) => BeginScan(s, p, ch, Some(k))
       case Wait(ch) => if ch < |s.chans| && s.chans[ch].guard == k
           && !s.chans[ch].cond then AtPc(s, p, LockSelf(ch, k)) else s
       case Set(ch) => if ch < |s.chans| && s.chans[ch].guard == k then SetCond(s, p, ch) else s
       case Reset(ch) => if ch < |s.chans| && s.chans[ch].guard == k then ResetCond(s, p, ch) else s
       case _ => s)
    case _ => s
  }

  // Making a condition true; of a sleep-lock, releasing it.
  function SetCond(s: State, p: nat, ch: nat): State
    requires p < |s.procs| && ch < |s.chans|
  {
    var me, k := s.procs[p], s.chans[ch];
    if k.cond || (k.sleepLock && ch !in me.held) then s
    else s.(procs := s.procs[p := me.(owes := me.owes + {ch}, held := me.held - {ch})],
            chans := s.chans[ch := k.(cond := true, setter := p, owner := None)])
  }

  // Making a condition false; of a sleep-lock, acquiring it.
  function ResetCond(s: State, p: nat, ch: nat): State
    requires p < |s.procs| && ch < |s.chans|
  {
    var me, k := s.procs[p], s.chans[ch];
    if !k.cond then s
    else s.(procs := s.procs[p := me.(held := if k.sleepLock then me.held + {ch} else me.held)],
            chans := s.chans[ch := k.(cond := false, owner := if k.sleepLock then Some(p) else None)])
  }

  function SleepStep(s: State, c: nat, p: nat): State
    requires c < |s.cpus| && p < |s.procs|
  {
    var me := s.procs[p];
    match me.pc
    case LockSelf(ch, k) => TakeP(s, c, p, p, UnlockLk(ch, k))
    case UnlockLk(ch, k) => DropL(s, p, k, SetChan(ch, k))
    case SetChan(ch, k) => s.(procs := s.procs[p := me.(pc := Pc.Sched(ch, k), chan := Some(ch), state := SLEEPING)])
    case Sched(ch, k) => SwitchOut(s, c, p, Awake(ch, k))
    case Awake(ch, k) => s.(procs := s.procs[p := me.(pc := UnlockSelf(ch, k), chan := None)])
    case UnlockSelf(ch, k) => DropP(s, p, p, Relock(ch, k))
    case Relock(_, k) => TakeL(s, c, p, k, Inside(k))
    case _ => s
  }

  function WakeupStep(s: State, c: nat, p: nat): State
    requires c < |s.cpus| && p < |s.procs|
  {
    match s.procs[p].pc
    case ScanLock(ch, i, lk) =>
      if i < |s.procs| then TakeP(s, c, p, i, ScanTest(ch, i, lk))
          else AtPc(s, p, if lk.Some? then Inside(lk.value) else User)
    case ScanTest(ch, i, lk) =>
      if i < |s.procs| && s.procs[i].state == SLEEPING && s.procs[i].chan == Some(ch)
      then var s1 := s.(procs := s.procs[i := s.procs[i].(state := RUNNABLE)]); AtPc(s1, p, ScanUnlock(ch, i, lk))
      else AtPc(s, p, ScanUnlock(ch, i, lk))
    case ScanUnlock(ch, i, lk) => DropP(s, p, i, ScanLock(ch, i + 1, lk))
    case _ => s
  }

  function YieldStep(s: State, c: nat, p: nat): State
    requires c < |s.cpus| && p < |s.procs|
  {
    match s.procs[p].pc
    case YieldLock(b) => TakeP(s, c, p, p, YieldSet(b))
    case YieldSet(b) => s.(procs := s.procs[p := s.procs[p].(pc := YieldSched(b), state := RUNNABLE)])
    case YieldSched(b) => SwitchOut(s, c, p, YieldUnlock(b))
    case YieldUnlock(b) => DropP(s, p, p, b)
    case _ => s
  }

  function KillStep(s: State, c: nat, p: nat): State
    requires c < |s.cpus| && p < |s.procs|
  {
    match s.procs[p].pc
    case KillLock(q) => if q < |s.procs| then TakeP(s, c, p, q, KillSet(q)) else AtPc(s, p, User)
    case KillSet(q) =>
      if q >= |s.procs| then s
      else
        var t := s.procs[q];
        var s1 := s.(procs :=
                     s.procs[q := t.(killed := true, state := if t.state == SLEEPING then RUNNABLE else t.state)]);
        AtPc(s1, p, KillUnlock(q))
    case KillUnlock(q) => DropP(s, p, q, User)
    case _ => s
  }

  datatype Where = InUser | InSleep | InWakeup | InYield | InKill

  function Function(pc: Pc): Where {
    match pc
    case User => InUser
    case ForkRet => InUser
    case Enter(_) => InUser
    case Inside(_) => InUser
    case ScanLock(_, _, _) => InWakeup
    case ScanTest(_, _, _) => InWakeup
    case ScanUnlock(_, _, _) => InWakeup
    case YieldLock(_) => InYield
    case YieldSet(_) => InYield
    case YieldSched(_) => InYield
    case YieldUnlock(_) => InYield
    case KillLock(_) => InKill
    case KillSet(_) => InKill
    case KillUnlock(_) => InKill
    case _ => InSleep
  }

  function ThreadStep(s: State, c: nat, p: nat, what: Choice): State
    requires c < |s.cpus| && p < |s.procs|
  {
    var pc := s.procs[p].pc;
    if NoSpinlock(pc) && what.Interrupt? then AtPc(s, p, YieldLock(pc)) else
    match Function(pc)
    case InUser => UserStep(s, c, p, what)
    case InSleep => SleepStep(s, c, p)
    case InWakeup => WakeupStep(s, c, p)
    case InYield => YieldStep(s, c, p)
    case InKill => KillStep(s, c, p)
  }

  // One step of CPU c.
  function Step(s: State, c: nat, what: Choice): State {
    if c >= |s.cpus| then s else
    match s.cpus[c].ctx
    case Run(p) => if p < |s.procs| then ThreadStep(s, c, p, what) else s
    case Pick(i) =>
      if i < |s.plock| && s.plock[i] == None
      then s.(plock := s.plock[i := Some(c)], cpus := s.cpus[c := Cpu(None, Check(i))]) else s
    case Check(i) =>
      if i < |s.procs| && s.procs[i].state == RUNNABLE
      then s.(procs := s.procs[i := s.procs[i].(state := RUNNING, on := Some(c))],
              cpus := s.cpus[c := Cpu(Some(i), Run(i))])
      else s.(cpus := s.cpus[c := s.cpus[c].(ctx := Drop(i))])
    case Back(i) => s.(cpus := s.cpus[c := Cpu(None, Drop(i))])
    case Drop(i) =>
      if i < |s.plock|
      then s.(plock := s.plock[i := None],
              cpus := s.cpus[c := s.cpus[c].(ctx := Pick(if i + 1 < |s.procs| then i + 1 else 0))]) else s
  }

  // ---- the invariant ----

  // Only CPUs hold spinlocks.
  ghost predicate Shape(s: State) {
    && |s.plock| == |s.procs| > 0
    && (forall q: nat :: q < |s.plock| && s.plock[q].Some? ==> s.plock[q].value < |s.cpus|)
    && (forall l: nat :: l < |s.lks| && s.lks[l].Some? ==> s.lks[l].value < |s.cpus|)
  }

  predicate CpuHoldsP(s: State, c: nat, q: nat)
    requires c < |s.cpus|
  {
    match s.cpus[c].ctx
    case Run(p) => p < |s.procs| && HoldsP(s.procs[p].pc, p, q)
    case Pick(_) => false
    case Check(i) => q == i
    case Back(i) => q == i
    case Drop(i) => q == i
  }

  predicate CpuHoldsL(s: State, c: nat, l: nat)
    requires c < |s.cpus|
  {
    match s.cpus[c].ctx
    case Run(p) => p < |s.procs| && HoldsL(s.procs[p].pc, l)
    case _ => false
  }

  // A spinlock is held by the CPU that is at a point where the code holds it.
  ghost predicate PLocks(s: State) {
    forall c: nat, q: nat :: c < |s.cpus| && q < |s.plock| ==> (s.plock[q] == Some(c) <==> CpuHoldsP(s, c, q))
  }

  ghost predicate LLocks(s: State) {
    forall c: nat, l: nat :: c < |s.cpus| && l < |s.lks| ==> (s.lks[l] == Some(c) <==> CpuHoldsL(s, c, l))
  }

  // Indices are in range, and c->proc is the process CPU c runs or has just run.
  predicate CpuOk(s: State, c: nat)
    requires c < |s.cpus|
  {
    var k := s.cpus[c];
    match k.ctx
    case Run(p) => p < |s.procs| && s.procs[p].on == Some(c) && k.proc == Some(p)
    case Back(i) => i < |s.procs| && s.procs[i].on == None && k.proc == Some(i)
    case Pick(i) => i < |s.procs| && k.proc == None
    case Check(i) => i < |s.procs| && k.proc == None
    case Drop(i) => i < |s.procs| && k.proc == None
  }

  // Indices are in range, and a sleeper's spinlock is the one of its channel.
  predicate PcOk(n: nat, lks: nat, chans: seq<Chan>, pc: Pc) {
    match pc
    case User => true
    case ForkRet => true
    case Enter(k) => k < lks
    case Inside(k) => k < lks
    case ScanLock(ch, i, lk) => ch < |chans| && i <= n && (lk.Some? ==> lk.value < lks)
    case ScanTest(ch, i, lk) => ch < |chans| && i < n && (lk.Some? ==> lk.value < lks)
    case ScanUnlock(ch, i, lk) => ch < |chans| && i < n && (lk.Some? ==> lk.value < lks)
    case YieldLock(b) => NoSpinlock(b) && PcOk(n, lks, chans, b)
    case YieldSet(b) => NoSpinlock(b) && PcOk(n, lks, chans, b)
    case YieldSched(b) => NoSpinlock(b) && PcOk(n, lks, chans, b)
    case YieldUnlock(b) => NoSpinlock(b) && PcOk(n, lks, chans, b)
    case KillLock(_) => true
    case KillSet(q) => q < n
    case KillUnlock(q) => q < n
    case _ => pc.k < lks && pc.ch < |chans| && chans[pc.ch].guard == pc.k
  }

  // A thread on a CPU is RUNNING unless it is about to switch away; a thread on no CPU is
  // at a point where it can be resumed.
  predicate ProcOk(s: State, p: nat)
    requires p < |s.procs|
  {
    var me := s.procs[p];
    && PcOk(|s.procs|, |s.lks|, s.chans, me.pc)
    && (match me.on
        case Some(c) =>
          && c < |s.cpus| && s.cpus[c].ctx == Run(p)
          && me.state == (if me.pc.Sched? then SLEEPING else if me.pc.YieldSched? then RUNNABLE else RUNNING)
        case None =>
          && (me.pc.Awake? || me.pc.YieldUnlock? || me.pc.ForkRet?)
          && (me.state == RUNNABLE || (me.state == SLEEPING && me.pc.Awake?)))
    && me.chan == (if me.pc.Sched? || me.pc.Awake? then Some(me.pc.ch) else None)
    && (forall l :: l in me.held ==>
        l < |s.chans| && s.chans[l].sleepLock && !s.chans[l].cond && s.chans[l].owner == Some(p))
  }

  // The point a thread returns to after a yield.
  function Base(pc: Pc): Pc {
    match pc
    case YieldLock(b) => b
    case YieldSet(b) => b
    case YieldSched(b) => b
    case YieldUnlock(b) => b
    case _ => pc
  }

  // A thread at pc is in wakeup(ch) and has still to look at process p.
  predicate StillToWake(pc: Pc, ch: nat, p: nat) {
    match pc
    case ScanLock(m, i, _) => m == ch && i <= p
    case ScanTest(m, i, _) => m == ch && i <= p
    case ScanUnlock(m, i, _) => m == ch && i < p
    case _ => false
  }

  // w has still to wake p up from ch.
  predicate Owes(w: Proc, ch: nat, p: nat) {
    ch in w.owes || StillToWake(Base(w.pc), ch, p)
  }

  // p has found the condition false and is going to sleep, or sleeps.
  predicate Waiting(me: Proc) {
    me.pc.SetChan? || me.pc.Sched? || (me.pc.Awake? && me.state == SLEEPING)
  }

  predicate WaitOk(s: State, p: nat)
    requires p < |s.procs|
  {
    var me := s.procs[p];
    && (me.pc.LockSelf? || me.pc.UnlockLk? ==> me.pc.ch < |s.chans| && !s.chans[me.pc.ch].cond)
    && (Waiting(me) ==>
          && me.pc.ch < |s.chans|
          && var k := s.chans[me.pc.ch]; k.cond ==> k.setter < |s.procs| && Owes(s.procs[k.setter], me.pc.ch, p))
  }

  ghost predicate Inv(s: State) {
    && Shape(s) && PLocks(s) && LLocks(s)
    && (forall c: nat :: c < |s.cpus| ==> CpuOk(s, c))
    && (forall p: nat :: p < |s.procs| ==> ProcOk(s, p) && WaitOk(s, p))
  }

  // ---- consequences of the invariant ----

  // Two threads do not hold the same spinlock.
  lemma HolderL(s: State, x: nat, l: nat)
    requires Inv(s) && x < |s.procs| && l < |s.lks| && HoldsL(s.procs[x].pc, l)
    ensures s.procs[x].on.Some? && s.lks[l] == s.procs[x].on
  {
    assert ProcOk(s, x);
    var c := s.procs[x].on.value;
    assert s.lks[l] == Some(c) <==> CpuHoldsL(s, c, l);
  }

  lemma HolderP(s: State, x: nat, q: nat)
    requires Inv(s) && x < |s.procs| && q < |s.procs| && HoldsP(s.procs[x].pc, x, q) && s.procs[x].on.Some?
    ensures s.plock[q] == s.procs[x].on
  {
    assert ProcOk(s, x);
    var c := s.procs[x].on.value;
    assert s.plock[q] == Some(c) <==> CpuHoldsP(s, c, q);
  }

  // ---- spinlocks under a step of a thread ----

  // p, on CPU c, has taken or given up exactly the spinlocks its two points say.
  ghost predicate PMove(s: State, s': State, c: nat, p: nat)
    requires p < |s.procs| == |s'.procs|
  {
    && |s'.plock| == |s.plock|
    && forall q: nat :: q < |s.plock| ==>
         var a, b := HoldsP(s.procs[p].pc, p, q), HoldsP(s'.procs[p].pc, p, q);
         && (b && !a ==> s.plock[q] == None && s'.plock[q] == Some(c))
         && (a && !b ==> s'.plock[q] == None)
         && (a == b ==> s'.plock[q] == s.plock[q])
  }

  ghost predicate LMove(s: State, s': State, c: nat, p: nat)
    requires p < |s.procs| == |s'.procs|
  {
    && |s'.lks| == |s.lks|
    && forall l: nat :: l < |s.lks| ==>
         var a, b := HoldsL(s.procs[p].pc, l), HoldsL(s'.procs[p].pc, l);
         && (b && !a ==> s.lks[l] == None && s'.lks[l] == Some(c))
         && (a && !b ==> s'.lks[l] == None)
         && (a == b ==> s'.lks[l] == s.lks[l])
  }

  // Of the other threads, neither the point nor what they owe and hold has changed.
  ghost predicate OtherPcs(s: State, s': State, p: nat) {
    && |s'.procs| == |s.procs|
    && forall x: nat :: x < |s.procs| && x != p ==>
         s'.procs[x].pc == s.procs[x].pc && s'.procs[x].owes == s.procs[x].owes && s'.procs[x].held == s.procs[x].held
  }

  lemma MoveLocks(s: State, s': State, c: nat, p: nat)
    requires Inv(s) && c < |s.cpus| && p < |s.procs| && s.cpus[c].ctx == Run(p) && Moves(s, s', c, p)
    ensures Shape(s') && PLocks(s') && LLocks(s')
  {
    hide HoldsP, HoldsL, ProcOk, WaitOk;
    assert CpuOk(s, c);
    forall d: nat, q: nat | d < |s'.cpus| && q < |s'.plock| ensures s'.plock[q] == Some(d) <==> CpuHoldsP(s', d, q) {
      assert CpuOk(s, d);
      assert s.plock[q] == Some(d) <==> CpuHoldsP(s, d, q);
      assert s.plock[q] == Some(c) <==> CpuHoldsP(s, c, q);
    }
    forall d: nat, l: nat | d < |s'.cpus| && l < |s'.lks| ensures s'.lks[l] == Some(d) <==> CpuHoldsL(s', d, l) {
      assert CpuOk(s, d);
      assert s.lks[l] == Some(d) <==> CpuHoldsL(s, d, l);
      assert s.lks[l] == Some(c) <==> CpuHoldsL(s, c, l);
    }
  }

  predicate Switching(pc: Pc) {
    pc.Sched? || pc.YieldSched?
  }

  ghost predicate Moves(s: State, s': State, c: nat, p: nat) {
    s'.cpus == s.cpus && p < |s.procs| && OtherPcs(s, s', p) && PMove(s, s', c, p) && LMove(s, s', c, p)
  }

  // What a step of p on CPU c has to establish, besides what MoveLocks derives.
  ghost predicate Good(s: State, s': State, c: nat, p: nat) {
    && Moves(s, s', c, p)
    && forall x: nat :: x < |s.procs| ==> s'.procs[x].on == s.procs[x].on && ProcOk(s', x) && WaitOk(s', x)
  }

  // What p on CPU c knows.
  ghost predicate Ready(s: State, c: nat, p: nat) {
    && Inv(s) && c < |s.cpus| && p < |s.procs| && s.cpus[c].ctx == Run(p) && s.procs[p].on == Some(c)
    && ProcOk(s, p) && WaitOk(s, p)
    && (forall q: nat :: q < |s.plock| ==> (s.plock[q] == Some(c) <==> HoldsP(s.procs[p].pc, p, q)))
    && (forall l: nat :: l < |s.lks| ==> (s.lks[l] == Some(c) <==> HoldsL(s.procs[p].pc, l)))
  }

  lemma GetReady(s: State, c: nat, p: nat)
    requires Inv(s) && c < |s.cpus| && s.cpus[c].ctx == Run(p)
    ensures Ready(s, c, p)
  {
    hide HoldsP, HoldsL, ProcOk, WaitOk;
    assert CpuOk(s, c);
    forall q: nat | q < |s.plock| ensures s.plock[q] == Some(c) <==> HoldsP(s.procs[p].pc, p, q) {
      assert s.plock[q] == Some(c) <==> CpuHoldsP(s, c, q);
    }
    forall l: nat | l < |s.lks| ensures s.lks[l] == Some(c) <==> HoldsL(s.procs[p].pc, l) {
      assert s.lks[l] == Some(c) <==> CpuHoldsL(s, c, l);
    }
  }

  lemma OkAt(s: State, x: nat)
    requires Inv(s) && x < |s.procs|
    ensures ProcOk(s, x) && WaitOk(s, x)
  {
  }

  // A process that a step of p leaves alone, and that p owes a wakeup if it did before.
  lemma OtherOk(s: State, s': State, c: nat, p: nat, x: nat)
    requires Ready(s, c, p) && x < |s.procs| && x != p && Moves(s, s', c, p)
    requires s'.procs[x] == s.procs[x] && s'.chans == s.chans
    requires forall ch: nat :: Waiting(s.procs[x]) && s.procs[x].pc.ch == ch && Owes(s.procs[p], ch, x) ==>
      Owes(s'.procs[p], ch, x)
    ensures ProcOk(s', x) && WaitOk(s', x)
  {
    hide Owes, PcOk, HoldsP, HoldsL;
    OkAt(s, x);
    if Waiting(s.procs[x]) && s.chans[s.procs[x].pc.ch].cond && s.chans[s.procs[x].pc.ch].setter != p {
      OwesKept(s, s', s.chans[s.procs[x].pc.ch].setter, s.procs[x].pc.ch, x, p);
    }
  }

  lemma OwesKept(s: State, s': State, w: nat, ch: nat, x: nat, p: nat)
    requires w < |s.procs| && w != p && OtherPcs(s, s', p) && Owes(s.procs[w], ch, x)
    ensures Owes(s'.procs[w], ch, x)
  {
  }

  // A thread that takes or drops one spinlock, or none.
  ghost predicate SameL(before: Pc, pc: Pc) {
    forall l: nat :: HoldsL(pc, l) <==> HoldsL(before, l)
  }

  ghost predicate SameP(before: Pc, pc: Pc, p: nat) {
    forall q: nat :: HoldsP(pc, p, q) <==> HoldsP(before, p, q)
  }

  lemma TakePMoves(s: State, c: nat, p: nat, q: nat, pc: Pc)
    requires p < |s.procs| && SameL(s.procs[p].pc, pc) && !HoldsP(s.procs[p].pc, p, q)
    requires forall x: nat :: HoldsP(pc, p, x) <==> x == q || HoldsP(s.procs[p].pc, p, x)
    ensures Moves(s, TakeP(s, c, p, q, pc), c, p)
  {
    hide HoldsP, HoldsL;
  }

  lemma DropPMoves(s: State, c: nat, p: nat, q: nat, pc: Pc)
    requires p < |s.procs| && SameL(s.procs[p].pc, pc) && HoldsP(s.procs[p].pc, p, q)
    requires forall x: nat :: HoldsP(pc, p, x) <==> x != q && HoldsP(s.procs[p].pc, p, x)
    ensures Moves(s, DropP(s, p, q, pc), c, p)
  {
    hide HoldsP, HoldsL;
  }

  lemma TakeLMoves(s: State, c: nat, p: nat, l: nat, pc: Pc)
    requires p < |s.procs| && SameP(s.procs[p].pc, pc, p) && !HoldsL(s.procs[p].pc, l)
    requires forall x: nat :: HoldsL(pc, x) <==> x == l || HoldsL(s.procs[p].pc, x)
    ensures Moves(s, TakeL(s, c, p, l, pc), c, p)
  {
    hide HoldsP, HoldsL;
  }

  lemma DropLMoves(s: State, c: nat, p: nat, l: nat, pc: Pc)
    requires p < |s.procs| && SameP(s.procs[p].pc, pc, p) && HoldsL(s.procs[p].pc, l)
    requires forall x: nat :: HoldsL(pc, x) <==> x != l && HoldsL(s.procs[p].pc, x)
    ensures Moves(s, DropL(s, p, l, pc), c, p)
  {
    hide HoldsP, HoldsL;
  }

  lemma StayMoves(s: State, s': State, c: nat, p: nat)
    requires p < |s.procs| && OtherPcs(s, s', p) && s'.cpus == s.cpus && s'.plock == s.plock && s'.lks == s.lks
    requires SameP(s.procs[p].pc, s'.procs[p].pc, p) && SameL(s.procs[p].pc, s'.procs[p].pc)
    ensures Moves(s, s', c, p)
  {
    hide HoldsP, HoldsL;
  }

  predicate Changes(pc: Pc, what: Choice) {
    pc.Inside? && (what.Set? || what.Reset?)
  }

  lemma UserMoves(s: State, c: nat, p: nat, what: Choice)
    requires Ready(s, c, p) && Function(s.procs[p].pc).InUser?
    ensures Moves(s, UserStep(s, c, p, what), c, p)
  {
    hide Inv, WaitOk, ProcOk, Moves;
    var s' := UserStep(s, c, p, what);
    var pc := s.procs[p].pc;
    if pc.ForkRet? {
      DropPMoves(s, c, p, p, User);
    } else if pc.Enter? {
      TakeLMoves(s, c, p, pc.k, Inside(pc.k));
    } else if pc.Inside? {
      if what.Leave? {
        DropLMoves(s, c, p, pc.k, User);
      } else {
        StayMoves(s, s', c, p);
      }
    } else {
      StayMoves(s, s', c, p);
    }
  }

  lemma UserSelf(s: State, c: nat, p: nat, what: Choice)
    requires Ready(s, c, p) && Function(s.procs[p].pc).InUser? && !Changes(s.procs[p].pc, what)
    ensures var s' := UserStep(s, c, p, what);
      |s'.procs| == |s.procs| && s'.procs[p].on == s.procs[p].on && ProcOk(s', p) && WaitOk(s', p)
  {
    hide Inv, HoldsP, HoldsL;
  }

  lemma UserGood(s: State, c: nat, p: nat, what: Choice)
    requires Ready(s, c, p) && Function(s.procs[p].pc).InUser? && !Changes(s.procs[p].pc, what)
    ensures Good(s, UserStep(s, c, p, what), c, p)
  {
    hide Inv, Moves, ProcOk, WaitOk;
    UserMoves(s, c, p, what);
    UserSelf(s, c, p, what);
    var s' := UserStep(s, c, p, what);
    forall x: nat | x < |s.procs| ensures s'.procs[x].on == s.procs[x].on && ProcOk(s', x) && WaitOk(s', x) {
      if x != p {
        OtherOk(s, s', c, p, x);
      }
    }
  }

  lemma InterruptGood(s: State, c: nat, p: nat)
    requires Ready(s, c, p) && NoSpinlock(s.procs[p].pc)
    ensures Good(s, AtPc(s, p, YieldLock(s.procs[p].pc)), c, p)
  {
    hide Inv;
    var s' := AtPc(s, p, YieldLock(s.procs[p].pc));
    forall x: nat | x < |s.procs| ensures s'.procs[x].on == s.procs[x].on && ProcOk(s', x) && WaitOk(s', x) {
      if x != p {
        OtherOk(s, s', c, p, x);
      }
    }
  }

  // Where p holds the spinlock l, no other thread does.
  lemma OtherHolds(s: State, c: nat, p: nat, x: nat, l: nat)
    requires Ready(s, c, p) && x < |s.procs| && x != p && l < |s.lks| && HoldsL(s.procs[p].pc, l)
    ensures !HoldsL(s.procs[x].pc, l)
  {
    hide HoldsL, WaitOk;
    assert ProcOk(s, x);
    if HoldsL(s.procs[x].pc, l) {
      HolderL(s, x, l);
    }
  }

  // p changes the condition of ch: whoever waits for it has seen it false, and is owed a
  // wakeup by p from now on if it is true.
  lemma ChangeGood(s: State, c: nat, p: nat, what: Choice)
    requires Ready(s, c, p) && Changes(s.procs[p].pc, what)
    ensures Good(s, UserStep(s, c, p, what), c, p)
  {
    hide Inv, Moves;
    UserMoves(s, c, p, what);
    var s', k := UserStep(s, c, p, what), s.procs[p].pc.k;
    forall x: nat | x < |s.procs| ensures s'.procs[x].on == s.procs[x].on && ProcOk(s', x) && WaitOk(s', x) {
      OkAt(s, x);
      SamePcOk(s, s', s.procs[x].pc);
      if x != p {
        OtherHolds(s, c, p, x, k);
      }
      assert s'.procs[x].pc == s.procs[x].pc;
    }
  }

  // Guards do not change.
  lemma SamePcOk(s: State, s': State, pc: Pc)
    requires |s'.procs| == |s.procs| && |s'.lks| == |s.lks| && |s'.chans| == |s.chans|
    requires forall i :: 0 <= i < |s.chans| ==> s'.chans[i].guard == s.chans[i].guard
    ensures PcOk(|s'.procs|, |s'.lks|, s'.chans, pc) == PcOk(|s.procs|, |s.lks|, s.chans, pc)
  {
  }

  lemma SleepMoves(s: State, c: nat, p: nat)
    requires Ready(s, c, p) && Function(s.procs[p].pc).InSleep? && !s.procs[p].pc.Sched?
    ensures Moves(s, SleepStep(s, c, p), c, p)
  {
    hide Inv, WaitOk, ProcOk, Moves;
    var pc := s.procs[p].pc;
    if pc.LockSelf? {
      TakePMoves(s, c, p, p, UnlockLk(pc.ch, pc.k));
    } else if pc.UnlockLk? {
      DropLMoves(s, c, p, pc.k, SetChan(pc.ch, pc.k));
    } else if pc.UnlockSelf? {
      DropPMoves(s, c, p, p, Relock(pc.ch, pc.k));
    } else if pc.Relock? {
      TakeLMoves(s, c, p, pc.k, Inside(pc.k));
    } else {
      StayMoves(s, SleepStep(s, c, p), c, p);
    }
  }

  lemma SleepGood(s: State, c: nat, p: nat)
    requires Ready(s, c, p) && Function(s.procs[p].pc).InSleep? && !s.procs[p].pc.Sched?
    ensures Good(s, SleepStep(s, c, p), c, p)
  {
    hide Inv, Moves;
    SleepMoves(s, c, p);
    var s' := SleepStep(s, c, p);
    forall x: nat | x < |s.procs| ensures s'.procs[x].on == s.procs[x].on && ProcOk(s', x) && WaitOk(s', x) {
      if x != p {
        OtherOk(s, s', c, p, x);
      }
    }
  }

  lemma WakeupMoves(s: State, c: nat, p: nat)
    requires Ready(s, c, p) && Function(s.procs[p].pc).InWakeup?
    ensures Moves(s, WakeupStep(s, c, p), c, p)
  {
    hide Inv, WaitOk, ProcOk, Moves;
    var pc := s.procs[p].pc;
    if pc.ScanLock? {
      if pc.i < |s.procs| {
        TakePMoves(s, c, p, pc.i, ScanTest(pc.ch, pc.i, pc.lk));
      } else {
        StayMoves(s, WakeupStep(s, c, p), c, p);
      }
    } else if pc.ScanUnlock? {
      DropPMoves(s, c, p, pc.i, ScanLock(pc.ch, pc.i + 1, pc.lk));
    } else {
      StayMoves(s, WakeupStep(s, c, p), c, p);
    }
  }

  lemma WakeupGood(s: State, c: nat, p: nat)
    requires Ready(s, c, p) && Function(s.procs[p].pc).InWakeup? && !s.procs[p].pc.ScanTest?
    ensures Good(s, WakeupStep(s, c, p), c, p)
  {
    hide Inv, Moves;
    WakeupMoves(s, c, p);
    var s' := WakeupStep(s, c, p);
    forall x: nat | x < |s.procs| ensures s'.procs[x].on == s.procs[x].on && ProcOk(s', x) && WaitOk(s', x) {
      if x != p {
        OtherOk(s, s', c, p, x);
      }
    }
  }

  // Where p holds the lock of process i, i is not about to switch away.
  lemma TargetOff(s: State, c: nat, p: nat, i: nat)
    requires Ready(s, c, p) && i < |s.procs| && i != p && HoldsP(s.procs[p].pc, p, i)
    ensures !s.procs[i].pc.SetChan? && !s.procs[i].pc.Sched? && (s.procs[i].state == SLEEPING ==> s.procs[i].on == None)
  {
    assert ProcOk(s, i) && s.plock[i] == Some(c);
    if s.procs[i].on.Some? && (s.procs[i].pc.SetChan? || s.procs[i].pc.Sched?) {
      HolderP(s, i, i);
    }
  }

  // A process that wakeup or kill makes RUNNABLE was asleep on no CPU.
  lemma WokenOk(s: State, s': State, c: nat, p: nat, i: nat)
    requires Ready(s, c, p) && i < |s.procs| && i != p && HoldsP(s.procs[p].pc, p, i) && Moves(s, s', c, p)
    requires s'.chans == s.chans
    requires s'.procs[i] == s.procs[i].(state := s'.procs[i].state, killed := s'.procs[i].killed)
    requires s'.procs[i].state == if s.procs[i].state == SLEEPING then RUNNABLE else s.procs[i].state
    ensures ProcOk(s', i) && WaitOk(s', i)
  {
    hide PLocks, LLocks, Owes;
    OkAt(s, i);
    TargetOff(s, c, p, i);
  }

  lemma ScanTestSelf(s: State, c: nat, p: nat)
    requires Ready(s, c, p) && s.procs[p].pc.ScanTest?
    ensures var s' := WakeupStep(s, c, p);
      |s'.procs| == |s.procs| && s'.procs[p].on == s.procs[p].on && ProcOk(s', p) && WaitOk(s', p)
  {
    hide Inv, HoldsP, HoldsL;
  }

  lemma ScanTestGood(s: State, c: nat, p: nat)
    requires Ready(s, c, p) && s.procs[p].pc.ScanTest?
    ensures Good(s, WakeupStep(s, c, p), c, p)
  {
    hide Inv, Moves, WaitOk;
    WakeupMoves(s, c, p);
    ScanTestSelf(s, c, p);
    var s', i := WakeupStep(s, c, p), s.procs[p].pc.i;
    forall x: nat | x < |s.procs| ensures s'.procs[x].on == s.procs[x].on && ProcOk(s', x) && WaitOk(s', x) {
      if x == i && x != p {
        OkAt(s, i);
        TargetOff(s, c, p, i);
      }
      if x == i && x != p && s'.procs[x] != s.procs[x] {
        WokenOk(s, s', c, p, i);
      } else if x != p {
        OtherOk(s, s', c, p, x);
      }
    }
  }

  lemma YieldMoves(s: State, c: nat, p: nat)
    requires Ready(s, c, p) && Function(s.procs[p].pc).InYield? && !s.procs[p].pc.YieldSched?
    ensures Moves(s, YieldStep(s, c, p), c, p)
  {
    hide Inv, WaitOk, Moves;
    var pc := s.procs[p].pc;
    if pc.YieldLock? {
      TakePMoves(s, c, p, p, YieldSet(pc.back));
    } else if pc.YieldUnlock? {
      DropPMoves(s, c, p, p, pc.back);
    } else {
      StayMoves(s, YieldStep(s, c, p), c, p);
    }
  }

  lemma YieldGood(s: State, c: nat, p: nat)
    requires Ready(s, c, p) && Function(s.procs[p].pc).InYield? && !s.procs[p].pc.YieldSched?
    ensures Good(s, YieldStep(s, c, p), c, p)
  {
    hide Inv, Moves;
    YieldMoves(s, c, p);
    var s' := YieldStep(s, c, p);
    forall x: nat | x < |s.procs| ensures s'.procs[x].on == s.procs[x].on && ProcOk(s', x) && WaitOk(s', x) {
      if x != p {
        OtherOk(s, s', c, p, x);
      }
    }
  }

  lemma KillMoves(s: State, c: nat, p: nat)
    requires Ready(s, c, p) && Function(s.procs[p].pc).InKill?
    ensures Moves(s, KillStep(s, c, p), c, p)
  {
    hide Inv, WaitOk, ProcOk, Moves;
    var pc := s.procs[p].pc;
    if pc.KillLock? {
      if pc.q < |s.procs| {
        TakePMoves(s, c, p, pc.q, KillSet(pc.q));
      } else {
        StayMoves(s, KillStep(s, c, p), c, p);
      }
    } else if pc.KillUnlock? {
      DropPMoves(s, c, p, pc.q, User);
    } else {
      StayMoves(s, KillStep(s, c, p), c, p);
    }
  }

  lemma KillSelf(s: State, c: nat, p: nat)
    requires Ready(s, c, p) && Function(s.procs[p].pc).InKill?
    ensures var s' := KillStep(s, c, p);
      |s'.procs| == |s.procs| && s'.procs[p].on == s.procs[p].on && ProcOk(s', p) && WaitOk(s', p)
  {
    hide Inv, HoldsP, HoldsL;
  }

  lemma KillGood(s: State, c: nat, p: nat)
    requires Ready(s, c, p) && Function(s.procs[p].pc).InKill?
    ensures Good(s, KillStep(s, c, p), c, p)
  {
    hide Inv, Moves, WaitOk;
    KillMoves(s, c, p);
    KillSelf(s, c, p);
    var s' := KillStep(s, c, p);
    forall x: nat | x < |s.procs| ensures s'.procs[x].on == s.procs[x].on && ProcOk(s', x) && WaitOk(s', x) {
      if s.procs[p].pc.KillSet? && x == s.procs[p].pc.q && x != p {
        WokenOk(s, s', c, p, x);
      } else if x != p {
        OtherOk(s, s', c, p, x);
      }
    }
  }

  predicate Parts(pc: Pc, next: Pc) {
    (pc.Sched? && next == Awake(pc.ch, pc.k)) || (pc.YieldSched? && next == YieldUnlock(pc.back))
  }

  // p, about to switch away, gives CPU c and its own lock back to the scheduler.
  lemma SwitchLocks(s: State, c: nat, p: nat, pc: Pc)
    requires Ready(s, c, p) && Parts(s.procs[p].pc, pc)
    ensures var s' := SwitchOut(s, c, p, pc);
      Shape(s') && PLocks(s') && LLocks(s') && forall d: nat :: d < |s'.cpus| ==> CpuOk(s', d)
  {
    hide WaitOk, PcOk, ProcOk;
    var s' := SwitchOut(s, c, p, pc);
    forall d: nat | d < |s'.cpus| ensures CpuOk(s', d) {
      assert CpuOk(s, d);
    }
    forall d: nat, q: nat | d < |s'.cpus| && q < |s'.plock| ensures s'.plock[q] == Some(d) <==> CpuHoldsP(s', d, q) {
      assert CpuOk(s, d) && (s.plock[q] == Some(d) <==> CpuHoldsP(s, d, q));
    }
    forall d: nat, l: nat | d < |s'.cpus| && l < |s'.lks| ensures s'.lks[l] == Some(d) <==> CpuHoldsL(s', d, l) {
      assert CpuOk(s, d) && (s.lks[l] == Some(d) <==> CpuHoldsL(s, d, l));
    }
  }

  lemma SwitchGood(s: State, c: nat, p: nat, pc: Pc)
    requires Ready(s, c, p) && Parts(s.procs[p].pc, pc)
    ensures Inv(SwitchOut(s, c, p, pc))
  {
    hide PLocks, LLocks, HoldsP, HoldsL, Shape;
    SwitchLocks(s, c, p, pc);
    var s' := SwitchOut(s, c, p, pc);
    forall x: nat | x < |s'.procs| ensures ProcOk(s', x) && WaitOk(s', x) {
      assert ProcOk(s, x) && WaitOk(s, x);
    }
  }

  lemma GoodInv(s: State, s': State, c: nat, p: nat)
    requires Ready(s, c, p) && Good(s, s', c, p)
    ensures Inv(s')
  {
    hide HoldsP, HoldsL, ProcOk, WaitOk;
    MoveLocks(s, s', c, p);
    forall d: nat | d < |s'.cpus| ensures CpuOk(s', d) {
      assert CpuOk(s, d);
    }
  }

  lemma ThreadInv(s: State, c: nat, p: nat, what: Choice)
    requires Ready(s, c, p)
    ensures Inv(ThreadStep(s, c, p, what))
  {
    hide Inv, Good, WaitOk, ProcOk, AtPc, SwitchOut, UserStep, WakeupStep, KillStep;
    var pc := s.procs[p].pc;
    var s' := ThreadStep(s, c, p, what);
    if pc.Sched? {
      SwitchGood(s, c, p, Awake(pc.ch, pc.k));
    } else if pc.YieldSched? {
      SwitchGood(s, c, p, YieldUnlock(pc.back));
    } else {
      if NoSpinlock(pc) && what.Interrupt? {
        InterruptGood(s, c, p);
      } else {
        match Function(pc) {
          case InUser =>
            if Changes(pc, what) {
              ChangeGood(s, c, p, what);
            } else {
              UserGood(s, c, p, what);
            }
          case InSleep => SleepGood(s, c, p);
          case InWakeup =>
            if pc.ScanTest? {
              ScanTestGood(s, c, p);
            } else {
              WakeupGood(s, c, p);
            }
          case InYield => YieldGood(s, c, p);
          case InKill => KillGood(s, c, p);
        }
      }
      GoodInv(s, s', c, p);
    }
  }

  // The scheduler of CPU c, which holds the lock of the process it looks at.
  lemma SchedulerInv(s: State, c: nat, what: Choice)
    requires Inv(s) && c < |s.cpus| && !s.cpus[c].ctx.Run? && !s.cpus[c].ctx.Check?
    ensures Inv(Step(s, c, what))
  {
    hide HoldsP, HoldsL, PcOk;
    var s' := Step(s, c, what);
    assert CpuOk(s, c);
    forall d: nat | d < |s'.cpus| ensures CpuOk(s', d) {
      assert CpuOk(s, d);
    }
    forall d: nat, q: nat | d < |s'.cpus| && q < |s'.plock| ensures s'.plock[q] == Some(d) <==> CpuHoldsP(s', d, q) {
      assert s.plock[q] == Some(d) <==> CpuHoldsP(s, d, q);
      assert s.plock[q] == Some(c) <==> CpuHoldsP(s, c, q);
    }
    forall d: nat, l: nat | d < |s'.cpus| && l < |s'.lks| ensures s'.lks[l] == Some(d) <==> CpuHoldsL(s', d, l) {
      assert s.lks[l] == Some(d) <==> CpuHoldsL(s, d, l);
    }
    forall x: nat | x < |s'.procs| ensures ProcOk(s', x) && WaitOk(s', x) {
      assert ProcOk(s, x) && WaitOk(s, x);
    }
  }

  // Switching to a RUNNABLE process: it is on no CPU, at a point that holds its own lock.
  lemma DispatchLocks(s: State, c: nat, what: Choice)
    requires Inv(s) && c < |s.cpus| && s.cpus[c].ctx.Check?
    ensures var s', i := Step(s, c, what), s.cpus[c].ctx.i;
      && Shape(s') && PLocks(s') && LLocks(s') && i < |s.procs|
      && (s.procs[i].state == RUNNABLE ==> s.procs[i].on.None?)
  {
    hide WaitOk, PcOk;
    var s', i := Step(s, c, what), s.cpus[c].ctx.i;
    assert CpuOk(s, c) && ProcOk(s, i);
    assert s.plock[i] == Some(c) <==> CpuHoldsP(s, c, i);
    if s.procs[i].state == RUNNABLE && s.procs[i].on.Some? {
      HolderP(s, i, i);
    }
    forall d: nat, q: nat | d < |s'.cpus| && q < |s'.plock| ensures s'.plock[q] == Some(d) <==> CpuHoldsP(s', d, q) {
      assert CpuOk(s, d);
      assert s.plock[q] == Some(d) <==> CpuHoldsP(s, d, q);
    }
    forall d: nat, l: nat | d < |s'.cpus| && l < |s'.lks| ensures s'.lks[l] == Some(d) <==> CpuHoldsL(s', d, l) {
      assert CpuOk(s, d);
      assert s.lks[l] == Some(d) <==> CpuHoldsL(s, d, l);
    }
  }

  lemma DispatchInv(s: State, c: nat, what: Choice)
    requires Inv(s) && c < |s.cpus| && s.cpus[c].ctx.Check?
    ensures Inv(Step(s, c, what))
  {
    hide LLocks, HoldsP, HoldsL;
    DispatchLocks(s, c, what);
    var s', i := Step(s, c, what), s.cpus[c].ctx.i;
    assert CpuOk(s, c) && ProcOk(s, i);
    assert s.plock[i] == Some(c) <==> CpuHoldsP(s, c, i);
    forall d: nat | d < |s'.cpus| ensures CpuOk(s', d) {
      assert CpuOk(s, d);
      assert s.plock[i] == Some(d) <==> CpuHoldsP(s, d, i);
    }
    forall x: nat | x < |s'.procs| ensures ProcOk(s', x) && WaitOk(s', x) {
      assert ProcOk(s, x) && WaitOk(s, x);
    }
  }

  lemma StepInv(s: State, c: nat, what: Choice)
    requires Inv(s)
    ensures Inv(Step(s, c, what))
  {
    hide ThreadStep, ProcOk, WaitOk, PLocks, LLocks;
    if c < |s.cpus| {
      assert CpuOk(s, c);
      if s.cpus[c].ctx.Run? {
        GetReady(s, c, s.cpus[c].ctx.p);
        ThreadInv(s, c, s.cpus[c].ctx.p, what);
      } else if s.cpus[c].ctx.Check? {
        DispatchInv(s, c, what);
      } else {
        SchedulerInv(s, c, what);
      }
    }
  }

  // ---- runs ----

  // What the channels are: the spinlock of each, and whether it is a sleep-lock.
  datatype Setup = Setup(procs: nat, cpus: nat, lks: nat, guards: seq<(nat, bool)>) {
    predicate Valid() {
      procs > 0 && forall i :: 0 <= i < |guards| ==> guards[i].0 < lks
    }
  }

  // Every process is about to run for the first time, every lock is free, and the other
  // conditions are false.
  function Boot(b: Setup): State {
    State(seq(b.cpus, _ => Cpu(None, Pick(0))),
          seq(b.procs, _ => Proc(RUNNABLE, None, false, ForkRet, {}, {}, None)),
          seq(b.procs, _ => None),
          seq(b.lks, _ => None),
          seq(|b.guards|, i requires 0 <= i < |b.guards| => Chan(b.guards[i].0, b.guards[i].1, b.guards[i].1, 0, None)))
  }

  // The state after the CPUs have taken the steps of a schedule.
  function Exec(s: State, run: seq<(nat, Choice)>): State {
    if run == [] then s
    else var last := run[|run| - 1]; Step(Exec(s, run[..|run| - 1]), last.0, last.1)
  }

  lemma {:induction false} Reachable(b: Setup, run: seq<(nat, Choice)>)
    requires b.Valid()
    ensures Inv(Exec(Boot(b), run))
  {
    hide Step, ProcOk, WaitOk, PLocks, LLocks;
    if run == [] {
      BootInv(b);
    } else {
      Reachable(b, run[..|run| - 1]);
      var last := run[|run| - 1];
      StepInv(Exec(Boot(b), run[..|run| - 1]), last.0, last.1);
    }
  }

  lemma BootInv(b: Setup)
    requires b.Valid()
    ensures Inv(Boot(b))
  {
  }

  // A RUNNING process is the current process of exactly one CPU.
  lemma OneCpuPerProcess(b: Setup, run: seq<(nat, Choice)>, p: nat)
    requires b.Valid()
    ensures var s := Exec(Boot(b), run);
      p < |s.procs| && s.procs[p].state == RUNNING ==>
        && (exists c: nat :: c < |s.cpus| && s.cpus[c] == Cpu(Some(p), Run(p)))
        && (forall c: nat, d: nat ::
              c < |s.cpus| && d < |s.cpus| && s.cpus[c].proc == Some(p) && s.cpus[d].proc == Some(p) ==> c == d)
  {
    Reachable(b, run);
    var s := Exec(Boot(b), run);
    if p < |s.procs| && s.procs[p].state == RUNNING {
      assert ProcOk(s, p);
      assert CpuOk(s, s.procs[p].on.value);
      forall c: nat | c < |s.cpus| && s.cpus[c].proc == Some(p) ensures Some(c) == s.procs[p].on {
        assert CpuOk(s, c);
      }
    }
  }

  // A process that sleeps on a channel whose condition is true is owed a wakeup by the
  // thread that made it true: that thread has still to call wakeup, or its scan has still to
  // come to the process.  So once nobody owes and nobody scans, nobody sleeps in vain.
  lemma NoLostWakeup(b: Setup, run: seq<(nat, Choice)>, p: nat, ch: nat)
    requires b.Valid()
    ensures var s := Exec(Boot(b), run);
      p < |s.procs| && s.procs[p].state == SLEEPING && s.procs[p].chan == Some(ch) ==>
        && ch < |s.chans|
        && (s.chans[ch].cond ==>
              && s.chans[ch].setter < |s.procs|
              && var w := s.procs[s.chans[ch].setter]; ch in w.owes || StillToWake(Base(w.pc), ch, p))
  {
    Reachable(b, run);
    var s := Exec(Boot(b), run);
    if p < |s.procs| {
      assert ProcOk(s, p) && WaitOk(s, p);
    }
  }

  // At most one process holds a sleep-lock, and only while it is not free.
  lemma SleepLockExclusive(b: Setup, run: seq<(nat, Choice)>, p: nat, q: nat, l: nat)
    requires b.Valid()
    ensures var s := Exec(Boot(b), run);
      && (p < |s.procs| && l in s.procs[p].held ==> l < |s.chans| && s.chans[l].sleepLock && !s.chans[l].cond)
      && (p < |s.procs| && q < |s.procs| && l in s.procs[p].held && l in s.procs[q].held ==> p == q)
  {
    Reachable(b, run);
    var s := Exec(Boot(b), run);
    if p < |s.procs| && q < |s.procs| {
      assert ProcOk(s, p) && ProcOk(s, q);
    } else if p < |s.procs| {
      assert ProcOk(s, p);
    }
  }

  // The panics of sched cannot happen: a thread that switches away holds its own lock and
  // no other spinlock, and is not RUNNING.
  lemma SchedDoesNotPanic(b: Setup, run: seq<(nat, Choice)>, c: nat, p: nat)
    requires b.Valid()
    ensures var s := Exec(Boot(b), run);
      c < |s.cpus| && p < |s.procs| && s.cpus[c].ctx == Run(p) && Switching(s.procs[p].pc) ==>
        && s.procs[p].state != RUNNING
        && (forall q: nat :: q < |s.plock| ==> (s.plock[q] == Some(c) <==> q == p))
        && (forall l: nat :: l < |s.lks| ==> s.lks[l] != Some(c))
  {
    Reachable(b, run);
    var s := Exec(Boot(b), run);
    if c < |s.cpus| && p < |s.procs| && s.cpus[c].ctx == Run(p) {
      GetReady(s, c, p);
    }
  }
}
