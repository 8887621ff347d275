/** Several CPUs under one big kernel lock: trap entry, scheduling, environments and IPC, as a state
    machine whose steps are those that other CPUs can observe.  What a CPU does in the kernel
    between taking and releasing the lock is cut at the points where the code branches.
  */
module Sched {
  import opened EnvIds

  const NIL := -1

  datatype Status = Free | Dying | Runnable | Running | NotRunnable

  datatype Env = Env(status: Status, id: int, parent: int, recving: bool, from: int, value: int, perm: int)

  datatype CpuStatus = Unused | Started | CpuHalted

  // Where spin_lock returns to: i386_init, mp_main, trap's first call (for a halted CPU), its second
  datatype Cont = ToBoot | ToSched | ToCheck(user: bool) | ToEntered

  /** Where a CPU is.  Checking: before trap's test for user mode, with or without the lock.  Entered
      to Sleeping, and Boot and Monitor, hold the lock. */
  datatype Phase =
    | Off | User | Idle
    | Trapped(user: bool) | Spinning(cont: Cont) | Checking(user: bool, held: bool)
    | Boot | Entered | Dispatching | Returning | Scheduling | Leaving | Sleeping | Monitor

  // cur: the index of curenv, or NIL.  taken: how often the CPU has got the lock since it was started
  // or last trapped.
  datatype Cpu = Cpu(phase: Phase, cur: int, status: CpuStatus, taken: nat)

  datatype State = State(locked: bool, holder: int, envs: seq<Env>, free: seq<int>, cpus: seq<Cpu>)

  // How the page argument of sys_ipc_try_send turns out
  datatype PageArg = NoPage | BadPage | NoMemory | PageSent(perm: int)

  // What a trap asks for.  Simple: any call that only returns; Fault: a trap that destroys curenv;
  // Resume: sys_env_resume, ok if there is such a snapshot and memory
  datatype Call =
    | Simple | Yield | Fault
    | Recv(aligned: bool) | Send(to: int, value: int, page: PageArg)
    | Exofork(memory: bool) | Destroy(id: int) | SetStatus(id: int, status: Status) | Resume(id: int, ok: bool)

  // ---------------------------------------------------------------- env.c

  function CurStatus(s: State, c: int): Status
    requires 0 <= c < |s.cpus|
  {
    var e := s.cpus[c].cur;
    if 0 <= e < |s.envs| then s.envs[e].status else Free
  }

  function SetPhase(s: State, c: int, phase: Phase): State
    requires 0 <= c < |s.cpus|
  {
    s.(cpus := s.cpus[c := s.cpus[c].(phase := phase)])
  }

  function SetCur(s: State, c: int, e: int): State
    requires 0 <= c < |s.cpus|
  {
    s.(cpus := s.cpus[c := s.cpus[c].(cur := e)])
  }

  function SetEnv(s: State, e: int, env: Env): State {
    if 0 <= e < |s.envs| then s.(envs := s.envs[e := env]) else s
  }

  function SetEnvStatus(s: State, e: int, status: Status): State {
    if 0 <= e < |s.envs| then SetEnv(s, e, s.envs[e].(status := status)) else s
  }

  // env_free, of the part that concerns envs[]
  function EnvFree(s: State, e: int): State {
    SetEnvStatus(s, e, Free).(free := [e] + s.free)
  }

  // env_alloc, when memory suffices; the ipc fields keep what the slot's last owner left there.
  function EnvAlloc(s: State, parent: int): State {
    if s.free == [] || !(0 <= s.free[0] < |s.envs|) then s
    else
      var e := s.free[0];
      SetEnv(s, e,
        s.envs[e].(status := Runnable, id := NextId(s.envs[e].id, e), parent := parent)).(free := s.free[1..])
  }

  function Idents(envs: seq<Env>): (r: seq<Ident>)
    ensures |r| == |envs| && forall i :: 0 <= i < |envs| ==>
      r[i] == Ident(envs[i].id, envs[i].status == Free, envs[i].parent)
  {
    seq(|envs|, i requires 0 <= i < |envs| => Ident(envs[i].id, envs[i].status == Free, envs[i].parent))
  }

  // The index envid2env finds for CPU c's curenv, or NIL
  function Resolve(s: State, c: int, id: int, checkperm: bool): (e: int)
    requires 0 <= c < |s.cpus|
    ensures e != NIL ==> 0 <= e < |s.envs| && (e == s.cpus[c].cur || s.envs[e].status != Free)
  {
    if |s.envs| != NENV || !(0 <= s.cpus[c].cur < NENV) then NIL
    else match Envid2Env(id, Idents(s.envs), s.cpus[c].cur, checkperm)
      case Found(e) => e
      case BadEnv => NIL
  }

  // env_run up to unlock_kernel
  function EnvRun(s: State, c: int, e: int): State
    requires 0 <= c < |s.cpus|
  {
    var s1 :=
      if s.cpus[c].cur == e then s
      else
        var s0 := if CurStatus(s, c) == Running then SetEnvStatus(s, s.cpus[c].cur, Runnable) else s;
        SetEnvStatus(SetCur(s0, c, e), e, Running);
    SetPhase(s1, c, Leaving)
  }

  // env_destroy, from a call that returns to trap() if curenv lives
  function EnvDestroy(s: State, c: int, e: int): State
    requires 0 <= c < |s.cpus| && 0 <= e < |s.envs|
  {
    if s.envs[e].status == Running && s.cpus[c].cur != e then SetPhase(SetEnvStatus(s, e, Dying), c, Returning)
    else if s.cpus[c].cur == e then SetPhase(SetCur(EnvFree(s, e), c, NIL), c, Scheduling)
    else SetPhase(EnvFree(s, e), c, Returning)
  }

  // ---------------------------------------------------------------- sched.c

  // May CPU with curenv `cur` pick environment e?
  predicate Eligible(envs: seq<Env>, cur: int, e: int) {
    0 <= e < |envs| && ((e == cur && envs[e].status == Running) || envs[e].status == Runnable)
  }

  // The search loop of sched_yield from index i to last
  function PickFrom(envs: seq<Env>, cur: int, i: int, last: int): int
    decreases last - i
  {
    if i > last then NIL
    else if Eligible(envs, cur, i % 1024) then i % 1024
    else PickFrom(envs, cur, i + 1, last)
  }

  function Pick(envs: seq<Env>, cur: int): int {
    PickFrom(envs, cur, if cur != NIL then cur + 1 else 0, if cur != NIL then cur + NENV else NENV - 1)
  }

  predicate AnyAlive(envs: seq<Env>) {
    exists e :: 0 <= e < |envs| && (envs[e].status == Runnable || envs[e].status == Running || envs[e].status == Dying)
  }

  // sched_halt up to unlock_kernel
  function SchedHalt(s: State, c: int): State
    requires 0 <= c < |s.cpus|
  {
    if !AnyAlive(s.envs) then SetPhase(s, c, Monitor)
    else s.(cpus := s.cpus[c := s.cpus[c].(phase := Sleeping, cur := NIL, status := CpuHalted)])
  }

  function SchedYield(s: State, c: int): State
    requires 0 <= c < |s.cpus|
  {
    var idle := Pick(s.envs, s.cpus[c].cur);
    if idle == NIL then SchedHalt(s, c) else EnvRun(s, c, idle)
  }

  // ---------------------------------------------------------------- syscall.c

  function IpcRecv(s: State, c: int, aligned: bool): State
    requires 0 <= c < |s.cpus|
  {
    var e := s.cpus[c].cur;
    if !aligned || !(0 <= e < |s.envs|) then SetPhase(s, c, Returning)
    else SetPhase(SetEnv(s, e, s.envs[e].(status := NotRunnable, value := 0, perm := 0, from := 0, recving := true)), c,
      Scheduling)
  }

  // Whether sys_ipc_try_send succeeds, and to whom
  function SendTarget(s: State, c: int, to: int, page: PageArg): (e: int)
    requires 0 <= c < |s.cpus|
    ensures e != NIL ==> 0 <= e < |s.envs| && s.envs[e].recving
  {
    var e := Resolve(s, c, to, false);
    if e == NIL || !s.envs[e].recving || page == BadPage || page == NoMemory then NIL else e
  }

  function SentPerm(page: PageArg): int { if page.PageSent? then page.perm else 0 }

  function IpcTrySend(s: State, c: int, to: int, value: int, page: PageArg): State
    requires 0 <= c < |s.cpus|
  {
    var e := SendTarget(s, c, to, page);
    if e == NIL || !(0 <= s.cpus[c].cur < |s.envs|) then SetPhase(s, c, Returning)
    else
      SetPhase(SetEnv(s, e, s.envs[e].(perm := SentPerm(page), value := value, from := s.envs[s.cpus[c].cur].id,
        recving := false, status := Runnable)), c, Returning)
  }

  function ExoforkCall(s: State, c: int, memory: bool): State
    requires 0 <= c < |s.cpus|
  {
    if s.free == [] || !memory || !(0 <= s.cpus[c].cur < |s.envs|) then SetPhase(s, c, Returning)
    else SetPhase(SetEnvStatus(EnvAlloc(s, s.envs[s.cpus[c].cur].id), s.free[0], NotRunnable), c, Returning)
  }

  function DestroyCall(s: State, c: int, id: int): State
    requires 0 <= c < |s.cpus|
  {
    var e := Resolve(s, c, id, true);
    if e == NIL then SetPhase(s, c, Returning) else EnvDestroy(s, c, e)
  }

  function SetStatusCall(s: State, c: int, id: int, status: Status): State
    requires 0 <= c < |s.cpus|
  {
    var e := Resolve(s, c, id, true);
    if (status != Runnable && status != NotRunnable) || e == NIL then SetPhase(s, c, Returning)
    else SetPhase(SetEnvStatus(s, e, status), c, Returning)
  }

  // sys_env_resume leaves curenv RUNNING and makes another environment RUNNABLE.
  function ResumeCall(s: State, c: int, id: int, ok: bool): State
    requires 0 <= c < |s.cpus|
  {
    var e := Resolve(s, c, id, true);
    if e == NIL || !ok then SetPhase(s, c, Returning)
    else SetPhase(SetEnvStatus(s, e, if e == s.cpus[c].cur then Running else Runnable), c, Returning)
  }

  // ---------------------------------------------------------------- trap.c

  // trap_dispatch.  A CPU woken from hlt has no curenv and can only have had a timer interrupt.
  function Dispatch(s: State, c: int, call: Call): State
    requires 0 <= c < |s.cpus|
  {
    if s.cpus[c].cur == NIL then SetPhase(s, c, Scheduling)
    else match call
      case Simple => SetPhase(s, c, Returning)
      case Yield => SetPhase(s, c, Scheduling)
      case Fault => if 0 <= s.cpus[c].cur < |s.envs| then EnvDestroy(s, c, s.cpus[c].cur) else s
      case Recv(aligned) => IpcRecv(s, c, aligned)
      case Send(to, value, page) => IpcTrySend(s, c, to, value, page)
      case Exofork(memory) => ExoforkCall(s, c, memory)
      case Destroy(id) => DestroyCall(s, c, id)
      case SetStatus(id, status) => SetStatusCall(s, c, id, status)
      case Resume(id, ok) => ResumeCall(s, c, id, ok)
  }

  // After the second lock_kernel: an environment destroyed meanwhile by another CPU is freed.
  function Enter(s: State, c: int): State
    requires 0 <= c < |s.cpus|
  {
    if CurStatus(s, c) == Dying then SetPhase(SetCur(EnvFree(s, s.cpus[c].cur), c, NIL), c, Scheduling)
    else SetPhase(s, c, Dispatching)
  }

  // The end of trap()
  function Return(s: State, c: int): State
    requires 0 <= c < |s.cpus|
  {
    if CurStatus(s, c) == Running then EnvRun(s, c, s.cpus[c].cur) else SetPhase(s, c, Scheduling)
  }

  // ---------------------------------------------------------------- spinlock.c

  function After(cont: Cont): Phase {
    match cont
    case ToBoot => Boot
    case ToSched => Scheduling
    case ToCheck(user) => Checking(user, true)
    case ToEntered => Entered
  }

  // One xchg of spin_lock's loop
  function TryLock(s: State, c: int): State
    requires 0 <= c < |s.cpus| && s.cpus[c].phase.Spinning?
  {
    if s.locked then s
    else
      s.(locked := true, holder := c,
         cpus := s.cpus[c := s.cpus[c].(phase := After(s.cpus[c].phase.cont), taken := s.cpus[c].taken + 1)])
  }

  // spin_unlock, and on to user mode or hlt
  function Unlock(s: State, c: int): State
    requires 0 <= c < |s.cpus|
  {
    SetPhase(s, c, if s.cpus[c].phase == Leaving then User else Idle).(locked := false, holder := NIL)
  }

  // ---------------------------------------------------------------- the machine

  // Interrupt: a trap from user mode or an interrupt that ends hlt.  Advance: the next step of the
  // kernel code CPU c is in, call being what the trap asks for if that matters.
  datatype Step =
    | Interrupt(c: int)
    | Advance(c: int, call: Call)
    | StartAp(c: int, ap: int)
    | Create(c: int)

  function Advanced(s: State, c: int, call: Call): State
    requires 0 <= c < |s.cpus|
  {
    var cpu := s.cpus[c];
    match cpu.phase
    case Trapped(user) =>
      s.(cpus := s.cpus[c := cpu.(status := Started,
        phase := if cpu.status == CpuHalted then Spinning(ToCheck(user)) else Checking(user, false))])
    case Spinning(_) => TryLock(s, c)
    case Checking(user, held) => SetPhase(s, c, if user then Spinning(ToEntered) else Dispatching)
    case Boot => SetPhase(s, c, Scheduling)
    case Entered => Enter(s, c)
    case Dispatching => Dispatch(s, c, call)
    case Returning => Return(s, c)
    case Scheduling => SchedYield(s, c)
    case Leaving => Unlock(s, c)
    case Sleeping => Unlock(s, c)
    case _ => s
  }

  function Next(s: State, step: Step): State {
    match step
    case Interrupt(c) =>
      if 0 <= c < |s.cpus| && (s.cpus[c].phase == User || s.cpus[c].phase == Idle) then
        s.(cpus := s.cpus[c := s.cpus[c].(phase := Trapped(s.cpus[c].phase == User), taken := 0)])
      else s
    case Advance(c, call) => if 0 <= c < |s.cpus| then Advanced(s, c, call) else s
    case StartAp(c, ap) =>
      if 0 <= c < |s.cpus| && s.cpus[c].phase == Boot && 0 <= ap < |s.cpus| && s.cpus[ap].phase == Off then
        s.(cpus := s.cpus[ap := Cpu(Spinning(ToSched), NIL, Started, 0)])
      else s
    case Create(c) =>
      if 0 <= c < |s.cpus| && s.cpus[c].phase == Boot then EnvAlloc(s, 0) else s
  }

  // The boot CPU is about to call lock_kernel in i386_init; the others are not running yet.
  function Init(ncpu: nat, boot: int): State
    requires 0 <= boot < ncpu
  {
    State(false, NIL, seq(NENV, _ => Env(Free, 0, 0, false, 0, 0, 0)), seq(NENV, i => i),
          seq(ncpu, c => if c == boot then Cpu(Spinning(ToBoot), NIL, Started, 0) else Cpu(Off, NIL, Unused, 0)))
  }

  // Another environment than cur could be run.
  predicate OtherRunnable(envs: seq<Env>, cur: int) {
    exists e :: 0 <= e < |envs| && e != cur && envs[e].status == Runnable
  }

  // Environment e may be made RUNNABLE by another: no CPU runs it, and no send will take it for one
  // that waits in sys_ipc_recv.
  predicate MayStart(s: State, e: int)
    requires 0 <= e < |s.envs|
  {
    !Active(s.envs[e].status) && !s.envs[e].recving
  }

  // May CPU c's curenv set environment e to status?
  predicate MaySetStatus(s: State, c: int, e: int, status: Status)
    requires 0 <= c < |s.cpus| && 0 <= e < |s.envs|
  {
    if e == s.cpus[c].cur then status == NotRunnable || OtherRunnable(s.envs, e)
    else if status == Runnable then MayStart(s, e)
    else !Active(s.envs[e].status)
  }

  /** What a call must respect for the machine to be safe, and no more: see GuardExact.  Another
      environment must not be set RUNNABLE or resumed while it is running, dying or receiving, set
      NOT_RUNNABLE while it is running or dying, or destroyed while it is dying; an environment must
      not set itself RUNNABLE when no other is. */
  predicate GuardedCall(s: State, c: int, call: Call)
    requires 0 <= c < |s.cpus|
  {
    match call
    case Destroy(id) =>
      var e := Resolve(s, c, id, true);
      e != NIL ==> s.envs[e].status != Dying
    case SetStatus(id, status) =>
      var e := Resolve(s, c, id, true);
      e != NIL && (status == Runnable || status == NotRunnable) ==> MaySetStatus(s, c, e, status)
    case Resume(id, ok) =>
      var e := Resolve(s, c, id, true);
      e != NIL && e != s.cpus[c].cur && ok ==> MayStart(s, e)
    case _ => true
  }

  predicate Guarded(s: State, step: Step) {
    step.Advance? && 0 <= step.c < |s.cpus| && s.cpus[step.c].phase == Dispatching ==> GuardedCall(s, step.c, step.call)
  }

  ghost function Run(s: State, steps: seq<Step>): State
    decreases |steps|
  {
    if steps == [] then s else Run(Next(s, steps[0]), steps[1..])
  }

  ghost predicate GuardedRun(s: State, steps: seq<Step>)
    decreases |steps|
  {
    steps != [] ==> Guarded(s, steps[0]) && GuardedRun(Next(s, steps[0]), steps[1..])
  }

  // ---------------------------------------------------------------- the invariant

  predicate InKernel(cpu: Cpu) {
    match cpu.phase
    case Boot => true
    case Entered => true
    case Dispatching => true
    case Returning => true
    case Scheduling => true
    case Leaving => true
    case Sleeping => true
    case Monitor => true
    case Checking(_, held) => held
    case _ => false
  }

  // In user mode or on the way from there into the kernel
  predicate FromUser(cpu: Cpu) {
    match cpu.phase
    case User => true
    case Trapped(user) => user
    case Spinning(cont) => cont == ToEntered
    case Checking(user, _) => user
    case Entered => true
    case _ => false
  }

  predicate Active(status: Status) { status == Running || status == Dying }

  // What is true of a CPU by itself
  predicate PhaseOk(cpu: Cpu) {
    && (cpu.cur == NIL || 0 <= cpu.cur < NENV)
    && (FromUser(cpu) || cpu.phase == Leaving ==> cpu.cur != NIL)
    && match cpu.phase
       case Off => cpu == Cpu(Off, NIL, Unused, 0)
       case User => cpu.status == Started && cpu.taken == 1
       case Idle => cpu.status == CpuHalted && cpu.taken == 1 && cpu.cur == NIL
       case Trapped(user) => cpu.taken == 0
         && (if user then cpu.status == Started else cpu.status == CpuHalted && cpu.cur == NIL)
       case Spinning(cont) => cpu.taken == 0 && cpu.status == Started && (cont != ToEntered ==> cpu.cur == NIL)
         && cont != ToCheck(true)
       case Checking(user, held) => cpu.status == Started && user == !held && cpu.taken == (if held then 1 else 0)
         && (held ==> cpu.cur == NIL)
       case Sleeping => cpu.status == CpuHalted && cpu.taken == 1 && cpu.cur == NIL
       case Boot => cpu.status == Started && cpu.taken == 1 && cpu.cur == NIL
       case _ => cpu.status == Started && cpu.taken == 1
  }

  // The status of curenv, by phase
  predicate CurOk(s: State, c: int)
    requires 0 <= c < |s.cpus|
  {
    var cpu := s.cpus[c];
    cpu.cur != NIL ==>
      && 0 <= cpu.cur < |s.envs|
      && (FromUser(cpu) ==> Active(s.envs[cpu.cur].status))
      && (cpu.phase in {Dispatching, Leaving} ==> s.envs[cpu.cur].status == Running)
      && (cpu.phase in {Returning, Scheduling} ==>
            || s.envs[cpu.cur].status == Running || s.envs[cpu.cur].status == NotRunnable
            || (s.envs[cpu.cur].status == Runnable && OtherRunnable(s.envs, cpu.cur)))
      && (cpu.phase == Monitor ==> s.envs[cpu.cur].status == NotRunnable)
  }

  ghost predicate OnCpu(cpus: seq<Cpu>, e: int) {
    exists c :: 0 <= c < |cpus| && cpus[c].cur == e
  }

  ghost predicate EnvOk(s: State, e: int)
    requires 0 <= e < |s.envs|
  {
    && (Active(s.envs[e].status) ==> OnCpu(s.cpus, e))
    && (s.envs[e].recving ==> s.envs[e].status == NotRunnable || s.envs[e].status == Free)
  }

  // On the way to, or in, i386_init, where the first environments are created
  predicate Booting(cpu: Cpu) { cpu.phase == Boot || cpu.phase == Spinning(ToBoot) }

  // While a CPU boots no environment has run yet, and no other CPU is past its first lock_kernel, nor
  // even started until the booting one has the lock.
  ghost predicate BootOk(s: State, c: int)
    requires 0 <= c < |s.cpus|
  {
    Booting(s.cpus[c]) ==>
      && (forall e :: 0 <= e < |s.envs| ==> !s.envs[e].recving)
      && (forall d :: 0 <= d < |s.cpus| && d != c ==>
            s.cpus[d].phase == Off || (s.cpus[d].phase == Spinning(ToSched) && s.cpus[c].phase == Boot))
  }

  ghost predicate FreeListOk(envs: seq<Env>, free: seq<int>) {
    && (forall j :: 0 <= j < |free| ==> 0 <= free[j] < |envs| && envs[free[j]].status == Free)
    && (forall j, l :: 0 <= j < l < |free| ==> free[j] != free[l])
    && (forall e :: 0 <= e < |envs| && envs[e].status == Free ==> e in free)
  }

  ghost predicate LockOk(locked: bool, holder: int, cpus: seq<Cpu>) {
    && (locked ==> 0 <= holder < |cpus| && InKernel(cpus[holder]))
    && (forall c :: 0 <= c < |cpus| && InKernel(cpus[c]) ==> locked && holder == c)
  }

  ghost predicate CursDiffer(cpus: seq<Cpu>) {
    forall c, d :: 0 <= c < |cpus| && 0 <= d < |cpus| && c != d && cpus[c].cur != NIL ==> cpus[c].cur != cpus[d].cur
  }

  ghost predicate Inv(s: State) {
    && |s.envs| == NENV
    && FreeListOk(s.envs, s.free)
    && LockOk(s.locked, s.holder, s.cpus)
    && CursDiffer(s.cpus)
    && (forall c :: 0 <= c < |s.cpus| ==> PhaseOk(s.cpus[c]) && CurOk(s, c))
    && (forall e :: 0 <= e < |s.envs| ==> EnvOk(s, e))
    && (forall c :: 0 <= c < |s.cpus| ==> BootOk(s, c))
  }

  // ---------------------------------------------------------------- steps keep the invariant

  // While c is in the kernel, every other CPU has no curenv or is between user mode and the lock.
  lemma OtherCpu(s: State, c: int, d: int)
    requires Inv(s) && 0 <= c < |s.cpus| && InKernel(s.cpus[c]) && 0 <= d < |s.cpus| && d != c
    ensures !InKernel(s.cpus[d])
    ensures s.cpus[d].cur != NIL ==> FromUser(s.cpus[d]) && Active(s.envs[s.cpus[d].cur].status)
  {
    assert PhaseOk(s.cpus[d]) && CurOk(s, d);
  }

  /** What CPU c must respect in the kernel for the invariant: from s to s' it only moves itself,
      stays in the kernel, takes no environment that runs elsewhere, leaves those active, and makes
      none active but its own curenv. */
  ghost predicate KernelMove(s: State, s': State, c: int)
    requires 0 <= c < |s.cpus| == |s'.cpus|
  {
    var cpu, cpu' := s.cpus[c], s'.cpus[c];
    && s'.locked == s.locked && s'.holder == s.holder && s'.cpus == s.cpus[c := cpu'] && |s'.envs| == |s.envs|
    && InKernel(cpu') && PhaseOk(cpu') && CurOk(s', c)
    && (cpu'.cur == cpu.cur || cpu'.cur == NIL || (0 <= cpu'.cur < |s.envs| && !Active(s.envs[cpu'.cur].status)))
    && (forall e :: 0 <= e < |s.envs| && Active(s'.envs[e].status) ==>
      e == cpu'.cur || (Active(s.envs[e].status) && e != cpu.cur))
    && (forall e :: 0 <= e < |s.envs| && Active(s.envs[e].status) && e != cpu.cur ==> Active(s'.envs[e].status))
    && (forall e :: 0 <= e < |s.envs| && s'.envs[e].recving ==>
      s'.envs[e].status == NotRunnable || s'.envs[e].status == Free)
    && (Booting(cpu') ==> Booting(cpu) && forall e :: 0 <= e < |s.envs| ==> s'.envs[e].recving == s.envs[e].recving)
    && FreeListOk(s'.envs, s'.free)
  }

  lemma KernelMoveKeeps(s: State, s': State, c: int)
    requires Inv(s) && 0 <= c < |s.cpus| == |s'.cpus| && InKernel(s.cpus[c]) && KernelMove(s, s', c)
    ensures Inv(s')
  {
    forall d | 0 <= d < |s.cpus| && d != c
      ensures CurOk(s', d) && !InKernel(s'.cpus[d]) && (s.cpus[d].cur != NIL ==> s.cpus[d].cur != s'.cpus[c].cur)
    {
      OtherCpu(s, c, d);
      assert CurOk(s, d) && PhaseOk(s.cpus[d]);
    }
    forall d | 0 <= d < |s.cpus| ensures BootOk(s', d) {
      assert BootOk(s, d) && BootOk(s, c);
    }
    forall e | 0 <= e < |s.envs| ensures EnvOk(s', e) {
      assert EnvOk(s, e);
      if Active(s'.envs[e].status) {
        if e == s'.cpus[c].cur {
          assert OnCpu(s'.cpus, e);
        } else {
          var d :| 0 <= d < |s.cpus| && s.cpus[d].cur == e;
          assert s'.cpus[d].cur == e;
        }
      }
    }
  }

  // Statuses other than Free may change freely, as far as the free list is concerned.
  lemma FreeListSet(envs: seq<Env>, free: seq<int>, e: int, env: Env)
    requires FreeListOk(envs, free) && 0 <= e < |envs| && envs[e].status != Free && env.status != Free
    ensures FreeListOk(envs[e := env], free)
  {
  }

  lemma FreeListPush(envs: seq<Env>, free: seq<int>, e: int, env: Env)
    requires FreeListOk(envs, free) && 0 <= e < |envs| && envs[e].status != Free && env.status == Free
    ensures FreeListOk(envs[e := env], [e] + free)
  {
    forall x | 0 <= x < |envs| && envs[e := env][x].status == Free ensures x in [e] + free {
      assert x != e ==> x in free;
    }
  }

  lemma FreeListPop(envs: seq<Env>, free: seq<int>, env: Env)
    requires FreeListOk(envs, free) && free != [] && env.status != Free
    ensures FreeListOk(envs[free[0] := env], free[1..])
  {
    forall x | 0 <= x < |envs| && envs[free[0] := env][x].status == Free ensures x in free[1..] {
      assert x in free && x != free[0];
    }
  }

  // A CPU that moves along in the kernel without touching envs[]
  lemma PhaseKeeps(s: State, c: int, phase: Phase)
    requires Inv(s) && 0 <= c < |s.cpus| && InKernel(s.cpus[c])
    requires var s' := SetPhase(s, c, phase); InKernel(s'.cpus[c]) && PhaseOk(s'.cpus[c]) && CurOk(s', c)
    requires phase != Boot
    ensures Inv(SetPhase(s, c, phase))
  {
    CurStays(s, c);
    KernelMoveKeeps(s, SetPhase(s, c, phase), c);
  }

  // An active environment that is not c's curenv
  lemma CurStays(s: State, c: int)
    requires Inv(s) && 0 <= c < |s.cpus|
    ensures forall e :: 0 <= e < |s.envs| && s.envs[e].recving ==>
      s.envs[e].status == NotRunnable || s.envs[e].status == Free
    ensures s.cpus[c].cur != NIL ==> 0 <= s.cpus[c].cur < |s.envs|
    ensures PhaseOk(s.cpus[c]) && CurOk(s, c) && BootOk(s, c)
  {
    forall e | 0 <= e < |s.envs|
      ensures s.envs[e].recving ==> s.envs[e].status == NotRunnable || s.envs[e].status == Free
    {
      assert EnvOk(s, e);
    }
  }

  // ---------------------------------------------------------------- the search

  // How far environment e is ahead of curenv in the search, from 1 (next) to NENV (curenv itself)
  function Ahead(cur: int, e: int): int {
    if cur == NIL then e + 1 else if e > cur then e - cur else e - cur + NENV
  }

  lemma {:induction false} PickFromSpec(envs: seq<Env>, cur: int, i: int, last: int)
    requires i <= last + 1
    ensures var p := PickFrom(envs, cur, i, last);
      && (p == NIL ==> forall j :: i <= j <= last ==> !Eligible(envs, cur, j % 1024))
      && (p != NIL ==> exists k :: i <= k <= last && p == k % 1024 && Eligible(envs, cur, p)
                         && forall j :: i <= j < k ==> !Eligible(envs, cur, j % 1024))
    decreases last - i
  {
    if i <= last && !Eligible(envs, cur, i % 1024) {
      PickFromSpec(envs, cur, i + 1, last);
    }
  }

  // The loop index at which the search looks at e
  function Index(cur: int, e: int): int {
    if cur == NIL || e > cur then e else e + NENV
  }

  lemma IndexOf(cur: int, e: int)
    requires (cur == NIL || 0 <= cur < NENV) && 0 <= e < NENV
    ensures Index(cur, e) % 1024 == e
    ensures cur == NIL ==> 0 <= Index(cur, e) <= NENV - 1
    ensures cur != NIL ==> cur + 1 <= Index(cur, e) <= cur + NENV
    ensures Ahead(cur, e) == Index(cur, e) - (if cur == NIL then -1 else cur)
  {
  }

  lemma IndexUnique(cur: int, k: int)
    requires cur == NIL || 0 <= cur < NENV
    requires if cur == NIL then 0 <= k <= NENV - 1 else cur + 1 <= k <= cur + NENV
    ensures Index(cur, k % 1024) == k
  {
  }

  /** sched_yield's choice: the first eligible environment in circular order after curenv, and none
      only if none is eligible. */
  lemma PickSpec(envs: seq<Env>, cur: int)
    requires |envs| == NENV && (cur == NIL || 0 <= cur < NENV)
    ensures var p := Pick(envs, cur);
      && (p != NIL ==> Eligible(envs, cur, p))
      && (forall e :: Eligible(envs, cur, e) ==> p != NIL && Ahead(cur, p) <= Ahead(cur, e))
  {
    var lo, hi := if cur != NIL then cur + 1 else 0, if cur != NIL then cur + NENV else NENV - 1;
    PickFromSpec(envs, cur, lo, hi);
    var p := Pick(envs, cur);
    forall e | Eligible(envs, cur, e) ensures p != NIL && Ahead(cur, p) <= Ahead(cur, e) {
      IndexOf(cur, e);
      var j := Index(cur, e);
      assert lo <= j <= hi && Eligible(envs, cur, j % 1024);
      if p != NIL {
        var k :| lo <= k <= hi && p == k % 1024 && Eligible(envs, cur, p) && forall j :: lo <= j < k ==>
          !Eligible(envs, cur, j % 1024);
        IndexUnique(cur, k);
        IndexOf(cur, p);
      }
    }
  }

  // ---------------------------------------------------------------- kernel code keeps the invariant

  lemma EnvRunKeeps(s: State, c: int, e: int)
    requires Inv(s) && 0 <= c < |s.cpus| && (s.cpus[c].phase == Scheduling || s.cpus[c].phase == Returning)
    requires 0 <= e < |s.envs| && s.envs[e].status == (if e == s.cpus[c].cur then Running else Runnable)
    ensures Inv(EnvRun(s, c, e))
  {
    CurStays(s, c);
    if s.cpus[c].cur == e {
      PhaseKeeps(s, c, Leaving);
    } else {
      EnvSwitch(s, c, e);
      KernelMoveKeeps(s, EnvRun(s, c, e), c);
    }
  }

  lemma EnvSwitch(s: State, c: int, e: int)
    requires Inv(s) && 0 <= c < |s.cpus| && (s.cpus[c].phase == Scheduling || s.cpus[c].phase == Returning)
    requires 0 <= e < |s.envs| && s.envs[e].status == Runnable && e != s.cpus[c].cur
    ensures |EnvRun(s, c, e).cpus| == |s.cpus| && KernelMove(s, EnvRun(s, c, e), c)
  {
    CurStays(s, c);
    EnvRunList(s, c, e);
    EnvRunEnvs(s, c, e);
  }

  // What env_run does to the environments
  lemma EnvRunEnvs(s: State, c: int, e: int)
    requires 0 <= c < |s.cpus| && 0 <= e < |s.envs| && e != s.cpus[c].cur
    ensures var cur, envs' := s.cpus[c].cur, EnvRun(s, c, e).envs;
      && |envs'| == |s.envs| && envs'[e] == s.envs[e].(status := Running)
      && (0 <= cur < |s.envs| ==> envs'[cur] == if s.envs[cur].status == Running then s.envs[cur].(status := Runnable)
        else s.envs[cur])
      && forall x :: 0 <= x < |s.envs| && x != e && x != cur ==> envs'[x] == s.envs[x]
  {
  }

  lemma EnvRunList(s: State, c: int, e: int)
    requires FreeListOk(s.envs, s.free) && 0 <= c < |s.cpus| && 0 <= e < |s.envs| && s.envs[e].status != Free
    ensures FreeListOk(EnvRun(s, c, e).envs, EnvRun(s, c, e).free)
  {
    var cur := s.cpus[c].cur;
    if cur != e {
      var s0 := if CurStatus(s, c) == Running then SetEnvStatus(s, cur, Runnable) else s;
      if CurStatus(s, c) == Running {
        FreeListSet(s.envs, s.free, cur, s.envs[cur].(status := Runnable));
      }
      FreeListSet(s0.envs, s0.free, e, s0.envs[e].(status := Running));
    }
  }

  // curenv comes last in the search: it is picked only if it is RUNNING.
  lemma PickOther(s: State, c: int)
    requires Inv(s) && 0 <= c < |s.cpus| && s.cpus[c].phase == Scheduling && Pick(s.envs, s.cpus[c].cur) != NIL
    ensures var e := Pick(s.envs, s.cpus[c].cur);
      0 <= e < |s.envs| && s.envs[e].status == (if e == s.cpus[c].cur then Running else Runnable)
  {
    CurStays(s, c);
    var cur := s.cpus[c].cur;
    PickSpec(s.envs, cur);
    if cur != NIL && OtherRunnable(s.envs, cur) {
      var x :| 0 <= x < |s.envs| && x != cur && s.envs[x].status == Runnable;
      assert Eligible(s.envs, cur, x);
    }
  }

  lemma SchedYieldKeeps(s: State, c: int)
    requires Inv(s) && 0 <= c < |s.cpus| && s.cpus[c].phase == Scheduling
    ensures Inv(SchedYield(s, c))
  {
    CurStays(s, c);
    var cur := s.cpus[c].cur;
    PickSpec(s.envs, cur);
    if Pick(s.envs, cur) != NIL {
      PickOther(s, c);
      EnvRunKeeps(s, c, Pick(s.envs, cur));
    } else if AnyAlive(s.envs) {
      assert cur != NIL ==> !Eligible(s.envs, cur, cur);
      KernelMoveKeeps(s, SchedHalt(s, c), c);
    } else {
      PhaseKeeps(s, c, Monitor);
    }
  }

  lemma ReturnKeeps(s: State, c: int)
    requires Inv(s) && 0 <= c < |s.cpus| && s.cpus[c].phase == Returning
    ensures Inv(Return(s, c))
  {
    CurStays(s, c);
    if CurStatus(s, c) == Running {
      EnvRunKeeps(s, c, s.cpus[c].cur);
    } else {
      PhaseKeeps(s, c, Scheduling);
    }
  }

  // c's own environment is freed.
  lemma FreeOwnKeeps(s: State, c: int)
    requires Inv(s) && 0 <= c < |s.cpus| && (s.cpus[c].phase == Entered || s.cpus[c].phase == Dispatching)
      && s.cpus[c].cur != NIL
    ensures Inv(SetPhase(SetCur(EnvFree(s, s.cpus[c].cur), c, NIL), c, Scheduling))
  {
    CurStays(s, c);
    var e := s.cpus[c].cur;
    assert EnvOk(s, e);
    FreeListPush(s.envs, s.free, e, s.envs[e].(status := Free));
    KernelMoveKeeps(s, SetPhase(SetCur(EnvFree(s, e), c, NIL), c, Scheduling), c);
  }

  lemma EnterKeeps(s: State, c: int)
    requires Inv(s) && 0 <= c < |s.cpus| && s.cpus[c].phase == Entered
    ensures Inv(Enter(s, c))
  {
    CurStays(s, c);
    if CurStatus(s, c) == Dying {
      FreeOwnKeeps(s, c);
    } else {
      PhaseKeeps(s, c, Dispatching);
    }
  }

  // One environment that is not active, and not c's, changes to another such state (not Free).
  lemma PassiveKeeps(s: State, c: int, e: int, env: Env)
    requires Inv(s) && 0 <= c < |s.cpus| && s.cpus[c].phase == Dispatching && s.cpus[c].cur != NIL && 0 <= e < |s.envs|
      && e != s.cpus[c].cur
    requires !Active(s.envs[e].status) && s.envs[e].status != Free && !Active(env.status) && env.status != Free
      && (env.recving ==> env.status == NotRunnable)
    ensures Inv(SetPhase(SetEnv(s, e, env), c, Returning))
  {
    CurStays(s, c);
    FreeListSet(s.envs, s.free, e, env);
    KernelMoveKeeps(s, SetPhase(SetEnv(s, e, env), c, Returning), c);
  }

  lemma RecvKeeps(s: State, c: int, aligned: bool)
    requires Inv(s) && 0 <= c < |s.cpus| && s.cpus[c].phase == Dispatching && s.cpus[c].cur != NIL
    ensures Inv(IpcRecv(s, c, aligned))
  {
    CurStays(s, c);
    if aligned {
      var e := s.cpus[c].cur;
      FreeListSet(s.envs, s.free, e,
        s.envs[e].(status := NotRunnable, value := 0, perm := 0, from := 0, recving := true));
      KernelMoveKeeps(s, IpcRecv(s, c, aligned), c);
    } else {
      PhaseKeeps(s, c, Returning);
    }
  }

  lemma SendKeeps(s: State, c: int, to: int, value: int, page: PageArg)
    requires Inv(s) && 0 <= c < |s.cpus| && s.cpus[c].phase == Dispatching && s.cpus[c].cur != NIL
    ensures Inv(IpcTrySend(s, c, to, value, page))
  {
    CurStays(s, c);
    var e := SendTarget(s, c, to, page);
    if e == NIL {
      PhaseKeeps(s, c, Returning);
    } else {
      assert EnvOk(s, e);
      PassiveKeeps(s, c, e,
        s.envs[e].(perm := SentPerm(page), value := value, from := s.envs[s.cpus[c].cur].id, recving := false,
        status := Runnable));
    }
  }

  lemma AllocKeepsList(s: State, parent: int, status: Status)
    requires Inv(s) && s.free != [] && status != Free
    ensures var s' := SetEnvStatus(EnvAlloc(s, parent), s.free[0], status);
      && FreeListOk(s'.envs, s'.free) && s'.cpus == s.cpus && s'.locked == s.locked && s'.holder == s.holder
      && 0 <= s.free[0] < |s.envs| && s.envs[s.free[0]].status == Free
      && s'.envs == s.envs[s.free[0] := s'.envs[s.free[0]]] && s'.envs[s.free[0]].status == status
      && s'.envs[s.free[0]].recving == s.envs[s.free[0]].recving
  {
    var e := s.free[0];
    assert EnvOk(s, e);
    var s' := SetEnvStatus(EnvAlloc(s, parent), e, status);
    FreeListPop(s.envs, s.free, s'.envs[e]);
    assert s'.envs == s.envs[e := s'.envs[e]];
  }

  lemma ExoforkKeeps(s: State, c: int, memory: bool)
    requires Inv(s) && 0 <= c < |s.cpus| && s.cpus[c].phase == Dispatching && s.cpus[c].cur != NIL
    ensures Inv(ExoforkCall(s, c, memory))
  {
    CurStays(s, c);
    if s.free == [] || !memory {
      PhaseKeeps(s, c, Returning);
    } else {
      AllocKeepsList(s, s.envs[s.cpus[c].cur].id, NotRunnable);
      KernelMoveKeeps(s, ExoforkCall(s, c, memory), c);
    }
  }

  lemma DestroyKeeps(s: State, c: int, e: int)
    requires Inv(s) && 0 <= c < |s.cpus| && s.cpus[c].phase == Dispatching && s.cpus[c].cur != NIL
    requires 0 <= e < |s.envs| && s.envs[e].status != Free && s.envs[e].status != Dying
    ensures Inv(EnvDestroy(s, c, e))
  {
    CurStays(s, c);
    if e == s.cpus[c].cur {
      FreeOwnKeeps(s, c);
    } else {
      if s.envs[e].status == Running {
        FreeListSet(s.envs, s.free, e, s.envs[e].(status := Dying));
      } else {
        FreeListPush(s.envs, s.free, e, s.envs[e].(status := Free));
      }
      assert EnvOk(s, e);
      KernelMoveKeeps(s, EnvDestroy(s, c, e), c);
    }
  }

  // curenv sets its own status.
  lemma OwnStatusKeeps(s: State, c: int, status: Status)
    requires Inv(s) && 0 <= c < |s.cpus| && s.cpus[c].phase == Dispatching && s.cpus[c].cur != NIL
    requires status == NotRunnable || (status == Runnable && OtherRunnable(s.envs, s.cpus[c].cur))
    ensures Inv(SetPhase(SetEnvStatus(s, s.cpus[c].cur, status), c, Returning))
  {
    CurStays(s, c);
    var e := s.cpus[c].cur;
    var s' := SetPhase(SetEnvStatus(s, e, status), c, Returning);
    FreeListSet(s.envs, s.free, e, s.envs[e].(status := status));
    if status == Runnable {
      var x :| 0 <= x < |s.envs| && x != e && s.envs[x].status == Runnable;
      assert s'.envs[x].status == Runnable;
    }
    KernelMoveKeeps(s, s', c);
  }

  lemma SetStatusKeeps(s: State, c: int, e: int, status: Status)
    requires Inv(s) && 0 <= c < |s.cpus| && s.cpus[c].phase == Dispatching && s.cpus[c].cur != NIL
    requires 0 <= e < |s.envs| && s.envs[e].status != Free && (status == Runnable || status == NotRunnable)
      && MaySetStatus(s, c, e, status)
    ensures Inv(SetPhase(SetEnvStatus(s, e, status), c, Returning))
  {
    CurStays(s, c);
    if e == s.cpus[c].cur {
      OwnStatusKeeps(s, c, status);
    } else {
      PassiveKeeps(s, c, e, s.envs[e].(status := status));
    }
  }

  lemma ResumeKeeps(s: State, c: int, id: int, ok: bool)
    requires Inv(s) && 0 <= c < |s.cpus| && s.cpus[c].phase == Dispatching && s.cpus[c].cur != NIL
    requires GuardedCall(s, c, Call.Resume(id, ok))
    ensures Inv(ResumeCall(s, c, id, ok))
  {
    CurStays(s, c);
    var e := Resolve(s, c, id, true);
    if e == NIL || !ok {
      PhaseKeeps(s, c, Returning);
    } else if e == s.cpus[c].cur {
      assert s.envs[e := s.envs[e].(status := Running)] == s.envs;
      PhaseKeeps(s, c, Returning);
    } else {
      PassiveKeeps(s, c, e, s.envs[e].(status := Runnable));
    }
  }

  lemma DispatchKeeps(s: State, c: int, call: Call)
    requires Inv(s) && 0 <= c < |s.cpus| && s.cpus[c].phase == Dispatching && GuardedCall(s, c, call)
    ensures Inv(Dispatch(s, c, call))
  {
    CurStays(s, c);
    if s.cpus[c].cur == NIL {
      PhaseKeeps(s, c, Scheduling);
    } else {
      match call
      case Simple => PhaseKeeps(s, c, Returning);
      case Yield => PhaseKeeps(s, c, Scheduling);
      case Fault => FreeOwnKeeps(s, c);
      case Recv(aligned) => RecvKeeps(s, c, aligned);
      case Send(to, value, page) => SendKeeps(s, c, to, value, page);
      case Exofork(memory) => ExoforkKeeps(s, c, memory);
      case Destroy(id) =>
        var e := Resolve(s, c, id, true);
        if e == NIL {
          PhaseKeeps(s, c, Returning);
        } else {
          DestroyKeeps(s, c, e);
        }
      case SetStatus(id, status) =>
        var e := Resolve(s, c, id, true);
        if e == NIL || (status != Runnable && status != NotRunnable) {
          PhaseKeeps(s, c, Returning);
        } else {
          SetStatusKeeps(s, c, e, status);
        }
      case Resume(id, ok) => ResumeKeeps(s, c, id, ok);
    }
  }

  // ---------------------------------------------------------------- lock and traps

  // c moves outside the kernel.
  lemma OutsideKeeps(s: State, c: int, cpu: Cpu)
    requires Inv(s) && 0 <= c < |s.cpus| && !InKernel(s.cpus[c]) && !InKernel(cpu) && cpu.cur == s.cpus[c].cur
      && PhaseOk(cpu)
    requires CurOk(s.(cpus := s.cpus[c := cpu]), c)
    requires !Booting(cpu) && s.cpus[c].phase != Spinning(ToSched)
      && (s.cpus[c].phase == Off ==> cpu.phase == Spinning(ToSched))
    requires s.cpus[c].phase == Off ==> forall d :: 0 <= d < |s.cpus| ==> s.cpus[d].phase != Spinning(ToBoot)
    ensures Inv(s.(cpus := s.cpus[c := cpu]))
  {
    var s' := s.(cpus := s.cpus[c := cpu]);
    forall d | 0 <= d < |s.cpus| && d != c ensures CurOk(s', d) && PhaseOk(s'.cpus[d]) {
      assert CurOk(s, d) && PhaseOk(s.cpus[d]);
    }
    forall d | 0 <= d < |s.cpus| ensures BootOk(s', d) {
      assert BootOk(s, d);
    }
    SameCurs(s, s');
  }

  // Who runs where does not depend on the phases.
  lemma {:induction false} SameCurs(s: State, s': State)
    requires Inv(s) && s'.envs == s.envs && |s'.cpus| == |s.cpus| && forall d :: 0 <= d < |s.cpus| ==>
      s'.cpus[d].cur == s.cpus[d].cur
    ensures forall e :: 0 <= e < |s.envs| ==> EnvOk(s', e)
    ensures CursDiffer(s'.cpus)
  {
    forall e | 0 <= e < |s.envs| ensures EnvOk(s', e) {
      assert EnvOk(s, e);
      if Active(s.envs[e].status) {
        var d :| 0 <= d < |s.cpus| && s.cpus[d].cur == e;
        assert s'.cpus[d].cur == e;
      }
    }
  }

  lemma TryLockKeeps(s: State, c: int)
    requires Inv(s) && 0 <= c < |s.cpus| && s.cpus[c].phase.Spinning?
    ensures Inv(TryLock(s, c))
  {
    var s' := TryLock(s, c);
    assert PhaseOk(s.cpus[c]) && CurOk(s, c);
    forall d | 0 <= d < |s.cpus| ensures CurOk(s', d) && PhaseOk(s'.cpus[d]) && BootOk(s', d) {
      assert CurOk(s, d) && PhaseOk(s.cpus[d]) && BootOk(s, d) && BootOk(s, c);
    }
    SameCurs(s, s');
  }

  lemma UnlockKeeps(s: State, c: int)
    requires Inv(s) && 0 <= c < |s.cpus| && (s.cpus[c].phase == Leaving || s.cpus[c].phase == Sleeping)
    ensures Inv(Unlock(s, c))
  {
    var s' := Unlock(s, c);
    forall d | 0 <= d < |s.cpus| ensures CurOk(s', d) && PhaseOk(s'.cpus[d]) && BootOk(s', d) {
      assert CurOk(s, d) && PhaseOk(s.cpus[d]) && BootOk(s, d);
    }
    SameCurs(s, s');
  }

  lemma CreateKeeps(s: State, c: int)
    requires Inv(s) && 0 <= c < |s.cpus| && s.cpus[c].phase == Boot
    ensures Inv(EnvAlloc(s, 0))
  {
    CurStays(s, c);
    if s.free != [] {
      AllocKeepsList(s, 0, Runnable);
      KernelMoveKeeps(s, EnvAlloc(s, 0), c);
    }
  }

  lemma StartApKeeps(s: State, c: int, ap: int)
    requires Inv(s) && 0 <= c < |s.cpus| && s.cpus[c].phase == Boot && 0 <= ap < |s.cpus| && s.cpus[ap].phase == Off
    ensures Inv(s.(cpus := s.cpus[ap := Cpu(Spinning(ToSched), NIL, Started, 0)]))
  {
    assert PhaseOk(s.cpus[ap]) && BootOk(s, c);
    OutsideKeeps(s, ap, Cpu(Spinning(ToSched), NIL, Started, 0));
  }

  lemma AdvancedKeeps(s: State, c: int, call: Call)
    requires Inv(s) && 0 <= c < |s.cpus| && (s.cpus[c].phase == Dispatching ==> GuardedCall(s, c, call))
    ensures Inv(Advanced(s, c, call))
  {
    var cpu := s.cpus[c];
    CurStays(s, c);
    match cpu.phase
    case Trapped(user) => OutsideKeeps(s, c, Advanced(s, c, call).cpus[c]);
    case Spinning(_) => TryLockKeeps(s, c);
    case Checking(user, held) =>
      if held {
        PhaseKeeps(s, c, Dispatching);
      } else {
        OutsideKeeps(s, c, Advanced(s, c, call).cpus[c]);
      }
    case Boot => PhaseKeeps(s, c, Scheduling);
    case Entered => EnterKeeps(s, c);
    case Dispatching => DispatchKeeps(s, c, call);
    case Returning => ReturnKeeps(s, c);
    case Scheduling => SchedYieldKeeps(s, c);
    case Leaving => UnlockKeeps(s, c);
    case Sleeping => UnlockKeeps(s, c);
    case _ =>
  }

  /** Every guarded step keeps the invariant. */
  lemma NextKeeps(s: State, step: Step)
    requires Inv(s) && Guarded(s, step)
    ensures Inv(Next(s, step))
  {
    match step
    case Interrupt(c) =>
      if 0 <= c < |s.cpus| && (s.cpus[c].phase == User || s.cpus[c].phase == Idle) {
        CurStays(s, c);
        OutsideKeeps(s, c, Next(s, step).cpus[c]);
      }
    case Advance(c, call) =>
      if 0 <= c < |s.cpus| {
        AdvancedKeeps(s, c, call);
      }
    case StartAp(c, ap) =>
      if 0 <= c < |s.cpus| && s.cpus[c].phase == Boot && 0 <= ap < |s.cpus| && s.cpus[ap].phase == Off {
        StartApKeeps(s, c, ap);
      }
    case Create(c) =>
      if 0 <= c < |s.cpus| && s.cpus[c].phase == Boot {
        CreateKeeps(s, c);
      }
  }

  lemma {:induction false} RunKeeps(s: State, steps: seq<Step>)
    requires Inv(s) && GuardedRun(s, steps)
    ensures Inv(Run(s, steps))
    decreases |steps|
  {
    if steps != [] {
      NextKeeps(s, steps[0]);
      RunKeeps(Next(s, steps[0]), steps[1..]);
    }
  }

  lemma InitInv(ncpu: nat, boot: int)
    requires 0 <= boot < ncpu
    ensures Inv(Init(ncpu, boot))
  {
    var s := Init(ncpu, boot);
    forall e | 0 <= e < NENV ensures e in s.free && EnvOk(s, e) {
      assert s.free[e] == e;
    }
  }
}
