/** What the machine of `Sched` guarantees over every run, and that its guards are the weakest ones that
    give it. */
module Smp {
  import opened EnvIds
  import opened Sched

  /** User-mode CPUs run pairwise distinct environments, each RUNNING or DYING, and every RUNNING or
      DYING environment is the curenv of some CPU.  A CPU that has trapped and waits for the lock
      counts as running its environment still. */
  ghost predicate Safe(s: State) {
    && (forall c, d :: 0 <= c < d < |s.cpus| && FromUser(s.cpus[c]) && FromUser(s.cpus[d]) ==>
      s.cpus[c].cur != s.cpus[d].cur)
    && (forall c :: 0 <= c < |s.cpus| && FromUser(s.cpus[c]) ==> RunsActive(s, c))
    && (forall e :: 0 <= e < |s.envs| && Active(s.envs[e].status) ==> OnCpu(s.cpus, e))
  }

  predicate RunsActive(s: State, c: int)
    requires 0 <= c < |s.cpus|
  {
    0 <= s.cpus[c].cur < |s.envs| && Active(s.envs[s.cpus[c].cur].status)
  }

  /** The big kernel lock: at most one CPU is in kernel code, and it holds the lock; a CPU about to
      call spin_lock does not hold it; one that leaves the kernel does. */
  ghost predicate LockSound(s: State) {
    && (forall c, d :: 0 <= c < |s.cpus| && 0 <= d < |s.cpus| && InKernel(s.cpus[c]) && InKernel(s.cpus[d]) ==> c == d)
    && (forall c :: 0 <= c < |s.cpus| && InKernel(s.cpus[c]) ==> s.locked && s.holder == c)
    && (forall c :: 0 <= c < |s.cpus| && s.cpus[c].phase.Spinning? ==> !(s.locked && s.holder == c))
    && (s.locked ==> 0 <= s.holder < |s.cpus| && InKernel(s.cpus[s.holder]))
  }

  // Past trap's test for user mode
  predicate InHandler(cpu: Cpu) {
    cpu.phase in {Entered, Dispatching, Returning, Scheduling, Leaving, Sleeping}
  }

  /** However a CPU came into the kernel, it has taken the lock exactly once since. */
  ghost predicate LockedOnce(s: State) {
    forall c :: 0 <= c < |s.cpus| && InHandler(s.cpus[c]) ==> s.cpus[c].taken == 1
  }

  /** In every guarded run from start-up, no environment runs on two CPUs and the lock is sound. */
  lemma NoEnvOnTwoCpus(ncpu: nat, boot: int, steps: seq<Step>)
    requires 0 <= boot < ncpu && GuardedRun(Init(ncpu, boot), steps)
    ensures var s := Run(Init(ncpu, boot), steps); Safe(s) && LockSound(s) && LockedOnce(s)
  {
    InitInv(ncpu, boot);
    RunKeeps(Init(ncpu, boot), steps);
    InvSafe(Run(Init(ncpu, boot), steps));
  }

  lemma InvSafe(s: State)
    requires Inv(s)
    ensures Safe(s) && LockSound(s) && LockedOnce(s)
  {
    forall c | 0 <= c < |s.cpus|
      ensures PhaseOk(s.cpus[c]) && CurOk(s, c)
      ensures FromUser(s.cpus[c]) ==> RunsActive(s, c)
      ensures s.cpus[c].phase.Spinning? ==> !InKernel(s.cpus[c])
      ensures InHandler(s.cpus[c]) ==> s.cpus[c].taken == 1
    {
      CurStays(s, c);
    }
    forall e | 0 <= e < |s.envs| && Active(s.envs[e].status) ensures OnCpu(s.cpus, e) {
      assert EnvOk(s, e);
    }
  }

  // ---------------------------------------------------------------- the lock, counted

  // How often CPU c gets the lock in a run, from the last time on that it is started, interrupted in
  // user mode or woken from hlt; n: how often before the run.
  ghost function Acquisitions(s: State, steps: seq<Step>, c: int, n: nat): nat
    decreases |steps|
  {
    if steps == [] then n else Acquisitions(Next(s, steps[0]), steps[1..], c, AcquiredBy(s, steps[0], c, n))
  }

  function AcquiredBy(s: State, step: Step, c: int, n: nat): nat {
    match step
    case Interrupt(d) => if d == c && 0 <= c < |s.cpus| && s.cpus[c].phase in {User, Idle} then 0 else n
    case Advance(d, _) => if d == c && 0 <= c < |s.cpus| && s.cpus[c].phase.Spinning? && !s.locked then n + 1 else n
    case StartAp(_, ap) => if ap == c && 0 <= c < |s.cpus| && s.cpus[c].phase == Off then 0 else n
    case Create(_) => n
  }

  lemma OthersTaken(s: State, d: int, call: Call, c: int)
    requires 0 <= c < |s.cpus| && 0 <= d < |s.cpus| && !(c == d && s.cpus[c].phase.Spinning?)
    ensures |Advanced(s, d, call).cpus| == |s.cpus| && Advanced(s, d, call).cpus[c].taken == s.cpus[c].taken
  {
    match s.cpus[d].phase
    case Dispatching => DispatchTaken(s, d, call, c);
    case _ =>
  }

  lemma DispatchTaken(s: State, d: int, call: Call, c: int)
    requires 0 <= c < |s.cpus| && 0 <= d < |s.cpus|
    ensures |Dispatch(s, d, call).cpus| == |s.cpus| && Dispatch(s, d, call).cpus[c].taken == s.cpus[c].taken
  {
    match call
    case Fault =>
    case Destroy(_) =>
    case _ =>
  }

  lemma TakenStep(s: State, step: Step, c: int)
    requires Inv(s) && 0 <= c < |s.cpus|
    ensures |Next(s, step).cpus| == |s.cpus| && Next(s, step).cpus[c].taken == AcquiredBy(s, step, c, s.cpus[c].taken)
  {
    assert PhaseOk(s.cpus[c]);
    if step.Advance? && 0 <= step.c < |s.cpus| && !(step.c == c && s.cpus[c].phase.Spinning?) {
      OthersTaken(s, step.c, step.call, c);
    }
  }

  lemma {:induction false} TakenCounts(s: State, steps: seq<Step>, c: int)
    requires Inv(s) && GuardedRun(s, steps) && 0 <= c < |s.cpus|
    ensures |Run(s, steps).cpus| == |s.cpus|
      && Run(s, steps).cpus[c].taken == Acquisitions(s, steps, c, s.cpus[c].taken)
    decreases |steps|
  {
    if steps != [] {
      TakenStep(s, steps[0], c);
      NextKeeps(s, steps[0]);
      TakenCounts(Next(s, steps[0]), steps[1..], c);
    }
  }

  /** Over every interleaving: however a CPU has come into the kernel, from user mode, from hlt or at
      start-up, it has got the lock exactly once by the time it handles its trap or schedules. */
  lemma LocksOncePerEntry(ncpu: nat, boot: int, steps: seq<Step>, c: int)
    requires 0 <= boot < ncpu && 0 <= c < ncpu && GuardedRun(Init(ncpu, boot), steps)
    ensures var s := Run(Init(ncpu, boot), steps);
      |s.cpus| == ncpu && (InHandler(s.cpus[c]) ==> Acquisitions(Init(ncpu, boot), steps, c, 0) == 1)
  {
    InitInv(ncpu, boot);
    TakenCounts(Init(ncpu, boot), steps, c);
    RunKeeps(Init(ncpu, boot), steps);
    InvSafe(Run(Init(ncpu, boot), steps));
  }

  // ---------------------------------------------------------------- runs that go on

  // From s the machine can come to s'.
  ghost predicate Reaches(s: State, s': State) {
    exists steps :: GuardedRun(s, steps) && Run(s, steps) == s'
  }

  // Whatever happens from s on, the machine is safe.
  ghost predicate SafeEver(s: State) {
    forall steps :: GuardedRun(s, steps) ==> Safe(Run(s, steps))
  }

  lemma {:induction false} RunSnoc(s: State, steps: seq<Step>, step: Step)
    requires GuardedRun(s, steps) && Guarded(Run(s, steps), step)
    ensures GuardedRun(s, steps + [step]) && Run(s, steps + [step]) == Next(Run(s, steps), step)
    decreases |steps|
  {
    if steps == [] {
      RunOne(s, step);
    } else {
      RunSnoc(Next(s, steps[0]), steps[1..], step);
      assert (steps + [step])[1..] == steps[1..] + [step];
    }
  }

  lemma RunOne(s: State, step: Step)
    requires Guarded(s, step)
    ensures GuardedRun(s, [] + [step]) && Run(s, [] + [step]) == Next(s, step)
  {
    assert ([] + [step])[1..] == [];
  }

  lemma ReachesSelf(s: State)
    ensures Reaches(s, s)
  {
    assert GuardedRun(s, []) && Run(s, []) == s;
  }

  lemma ReachesNext(s0: State, s: State, step: Step)
    requires Reaches(s0, s) && Guarded(s, step)
    ensures Reaches(s0, Next(s, step))
  {
    var steps :| GuardedRun(s0, steps) && Run(s0, steps) == s;
    RunSnoc(s0, steps, step);
  }

  // A step of CPU c outside trap_dispatch
  lemma ReachesAdvance(s0: State, s: State, c: int, s': State)
    requires Reaches(s0, s) && 0 <= c < |s.cpus| && s.cpus[c].phase != Dispatching && s' == Advanced(s, c, Simple)
    ensures Reaches(s0, s')
  {
    ReachesNext(s0, s, Advance(c, Simple));
  }

  lemma ReachesUnsafe(s0: State, s: State)
    requires Reaches(s0, s) && !Safe(s)
    ensures !SafeEver(s0)
  {
    var steps :| GuardedRun(s0, steps) && Run(s0, steps) == s;
  }

  // ---------------------------------------------------------------- why the guards

  // Only the status of e changes, and c goes on in the kernel as before.
  lemma OneStatusSafe(s: State, s': State, c: int, e: int)
    requires Inv(s) && 0 <= c < |s.cpus| && s.cpus[c].phase == Dispatching && 0 <= e < |s.envs| && e != s.cpus[c].cur
    requires |s'.cpus| == |s.cpus| && s'.cpus == s.cpus[c := s'.cpus[c]] && !FromUser(s'.cpus[c])
      && s'.cpus[c].cur == s.cpus[c].cur
    requires |s'.envs| == |s.envs| && s'.envs == s.envs[e := s'.envs[e]] && !Active(s'.envs[e].status)
    ensures Safe(s') <==> !Active(s.envs[e].status)
  {
    InvSafe(s);
    assert EnvOk(s, e);
    if Active(s.envs[e].status) {
      var d :| 0 <= d < |s.cpus| && s.cpus[d].cur == e;
      OtherCpu(s, c, d);
      assert FromUser(s'.cpus[d]) && !RunsActive(s', d);
    } else {
      forall d | 0 <= d < |s'.cpus| && FromUser(s'.cpus[d]) ensures RunsActive(s', d) {
        assert RunsActive(s, d);
      }
      forall x | 0 <= x < |s'.envs| && Active(s'.envs[x].status) ensures OnCpu(s'.cpus, x) {
        assert OnCpu(s.cpus, x);
        var d :| 0 <= d < |s.cpus| && s.cpus[d].cur == x;
        assert s'.cpus[d].cur == x;
      }
    }
  }

  // CPU c is in the kernel, in phase `phase`, for environment e.
  ghost predicate At(s: State, c: int, phase: Phase, e: int) {
    && |s.envs| == NENV && 0 <= e < NENV && 0 <= c < |s.cpus| && s.locked && s.holder == c
    && s.cpus[c].phase == phase && s.cpus[c].cur == e && s.cpus[c].status == Started
  }

  // CPU c at trap_dispatch for its curenv, having trapped and taken the lock once more
  function AtDispatch(s: State, c: int): State
    requires 0 <= c < |s.cpus|
  {
    s.(locked := true, holder := c, cpus := s.cpus[c := Cpu(Dispatching, s.cpus[c].cur, Started, 1)])
  }

  // Out to user mode, and back by the next trap
  lemma TurnReaches(s0: State, s: State, c: int, e: int)
    requires Reaches(s0, s) && At(s, c, Leaving, e) && s.envs[e].status == Running
    ensures Reaches(s0, AtDispatch(s, c)) && At(AtDispatch(s, c), c, Dispatching, e)
  {
    var cpus := s.cpus;
    var s1 := s.(locked := false, holder := NIL, cpus := cpus[c := cpus[c].(phase := User)]);
    ReachesAdvance(s0, s, c, s1);
    var s2 := s1.(cpus := cpus[c := cpus[c].(phase := Trapped(true), taken := 0)]);
    ReachesNext(s0, s1, Interrupt(c));
    assert Next(s1, Interrupt(c)) == s2;
    TurnBack(s0, s2, c, e);
  }

  lemma TurnBack(s0: State, s: State, c: int, e: int)
    requires Reaches(s0, s) && |s.envs| == NENV && 0 <= e < NENV && 0 <= c < |s.cpus| && !s.locked
    requires s.cpus[c] == Cpu(Trapped(true), e, Started, 0) && s.envs[e].status == Running
    ensures Reaches(s0, AtDispatch(s, c))
  {
    var cpus := s.cpus;
    var s1 := s.(cpus := cpus[c := Cpu(Checking(true, false), e, Started, 0)]);
    ReachesAdvance(s0, s, c, s1);
    var s2 := s.(cpus := cpus[c := Cpu(Spinning(ToEntered), e, Started, 0)]);
    ReachesAdvance(s0, s1, c, s2);
    var s3 := s.(locked := true, holder := c, cpus := cpus[c := Cpu(Entered, e, Started, 1)]);
    ReachesAdvance(s0, s2, c, s3);
    ReachesAdvance(s0, s3, c, AtDispatch(s, c));
  }

  lemma PickRunnable(envs: seq<Env>, cur: int)
    requires |envs| == NENV && 0 <= cur < NENV && OtherRunnable(envs, cur)
    ensures 0 <= Pick(envs, cur) < NENV && Pick(envs, cur) != cur && envs[Pick(envs, cur)].status == Runnable
  {
    PickSpec(envs, cur);
    var x :| 0 <= x < |envs| && x != cur && envs[x].status == Runnable;
    assert Eligible(envs, cur, x);
  }

  lemma PickSelf(envs: seq<Env>, cur: int)
    requires |envs| == NENV && 0 <= cur < NENV && !OtherRunnable(envs, cur) && envs[cur].status == Runnable
    ensures Pick(envs, cur) == cur
  {
    PickSpec(envs, cur);
    assert Eligible(envs, cur, cur);
  }

  // An environment that made itself RUNNABLE, with no other to run, is picked again and runs without
  // being marked RUNNING, so that another CPU may pick it too.
  lemma SelfRunnable(s0: State, s: State, c: int, e: int)
    requires Reaches(s0, s) && At(s, c, Returning, e) && s.envs[e].status == Runnable && !OtherRunnable(s.envs, e)
    ensures !SafeEver(s0)
  {
    var s1 := SetPhase(s, c, Scheduling);
    ReachesAdvance(s0, s, c, s1);
    PickSelf(s.envs, e);
    var s2 := SetPhase(s, c, Leaving);
    assert s2.cpus == s1.cpus[c := s1.cpus[c].(phase := Leaving)];
    ReachesAdvance(s0, s1, c, s2);
    var s3 := Unlock(s2, c);
    ReachesAdvance(s0, s2, c, s3);
    assert FromUser(s3.cpus[c]) && !RunsActive(s3, c);
    ReachesUnsafe(s0, s3);
  }

  // The environments but e that could be run
  ghost function Waiting(envs: seq<Env>, e: int): set<int> {
    set x | 0 <= x < |envs| && x != e && envs[x].status == Runnable
  }

  /** CPU c dispatches a call of its curenv x, and e, marked as receiving although it never blocked, is
      running (as x) or could be run. */
  ghost predicate Misled(s: State, c: int, x: int, e: int) {
    && At(s, c, Dispatching, x) && s.envs[x].status == Running && 0 <= e < NENV && s.envs[e].recving
    && (x != e ==> s.envs[e].status == Runnable)
  }

  // x blocks in sys_ipc_recv, and the next environment runs.
  lemma BlockReaches(s0: State, s: State, c: int, x: int, e: int) returns (s': State, y: int)
    requires Reaches(s0, s) && Misled(s, c, x, e) && x != e
    ensures Reaches(s0, s') && Misled(s', c, y, e)
    ensures Waiting(s'.envs, e) == if y == e then Waiting(s.envs, e) else Waiting(s.envs, e) - {y}
    ensures y != e ==> y in Waiting(s.envs, e)
  {
    var s1 := IpcRecv(s, c, true);
    ReachesNext(s0, s, Advance(c, Recv(true)));
    assert s1.envs[e].status == Runnable;
    s', y := SwitchReaches(s0, s1, c, x);
  }

  // The scheduler switches to another environment, which makes a call.
  lemma SwitchReaches(s0: State, s: State, c: int, x: int) returns (s': State, y: int)
    requires Reaches(s0, s) && At(s, c, Scheduling, x) && OtherRunnable(s.envs, x)
    ensures Reaches(s0, s') && At(s', c, Dispatching, y) && y != x && s.envs[y].status == Runnable
    ensures |s'.envs| == NENV && s'.envs[y] == s.envs[y].(status := Running)
    ensures s'.envs[x] == if s.envs[x].status == Running then s.envs[x].(status := Runnable) else s.envs[x]
    ensures forall e :: 0 <= e < NENV && e != x && e != y ==> s'.envs[e] == s.envs[e]
  {
    PickRunnable(s.envs, x);
    y := Pick(s.envs, x);
    EnvRunEnvs(s, c, y);
    var s1 := EnvRun(s, c, y);
    ReachesAdvance(s0, s, c, s1);
    TurnReaches(s0, s1, c, y);
    s' := AtDispatch(s1, c);
  }

  // e yields to another.
  lemma YieldReaches(s0: State, s: State, c: int, e: int) returns (s': State, y: int)
    requires Reaches(s0, s) && Misled(s, c, e, e) && OtherRunnable(s.envs, e)
    ensures Reaches(s0, s') && Misled(s', c, y, e) && y != e
    ensures y in Waiting(s.envs, e) && Waiting(s'.envs, e) == Waiting(s.envs, e) - {y}
  {
    var s1 := SetPhase(s, c, Scheduling);
    ReachesNext(s0, s, Advance(c, Yield));
    s', y := SwitchReaches(s0, s1, c, e);
  }

  // e, the only environment left, sends itself a message, which makes it RUNNABLE.
  lemma SendToSelf(s0: State, s: State, c: int, e: int)
    requires Reaches(s0, s) && Misled(s, c, e, e) && !OtherRunnable(s.envs, e)
    ensures !SafeEver(s0)
  {
    var call := Send(0, 0, NoPage);
    assert Resolve(s, c, 0, false) == e;
    var s1 := Dispatch(s, c, call);
    ReachesNext(s0, s, Advance(c, call));
    SelfRunnable(s0, s1, c, e);
  }

  /** An environment that could be run while it is marked as receiving makes the machine unsafe in the
      end, even with one CPU: the others block, and it sends itself a message. */
  lemma {:induction false} MisledUnsafe(s0: State, s: State, c: int, x: int, e: int)
    requires Reaches(s0, s) && Misled(s, c, x, e)
    ensures !SafeEver(s0)
    decreases |Waiting(s.envs, e)|, if x == e then 0 else 1
  {
    if x != e {
      var s', y := BlockReaches(s0, s, c, x, e);
      if y != e {
        OneLess(Waiting(s.envs, e), y);
      }
      MisledUnsafe(s0, s', c, y, e);
    } else if OtherRunnable(s.envs, e) {
      var s', y := YieldReaches(s0, s, c, e);
      OneLess(Waiting(s.envs, e), y);
      MisledUnsafe(s0, s', c, y, e);
    } else {
      SendToSelf(s0, s, c, e);
    }
  }

  lemma OneLess(S: set<int>, y: int)
    requires y in S
    ensures |S - {y}| < |S|
  {
  }

  // CPU c's call has made e, marked as receiving, RUNNABLE.
  lemma StartMisled(s: State, c: int, x: int, e: int)
    requires At(s, c, Returning, x) && s.envs[x].status == Running && 0 <= e < NENV && e != x
    requires s.envs[e].status == Runnable && s.envs[e].recving
    ensures !SafeEver(s)
  {
    ReachesSelf(s);
    var s1 := SetPhase(s, c, Leaving);
    ReachesAdvance(s, s, c, s1);
    TurnReaches(s, s1, c, x);
    MisledUnsafe(s, AtDispatch(s1, c), c, x, e);
  }

  // ---------------------------------------------------------------- the guards are exact

  lemma UnsafeNow(s: State)
    requires !Safe(s)
    ensures !SafeEver(s)
  {
    ReachesSelf(s);
    ReachesUnsafe(s, s);
  }

  ghost predicate AtCall(s: State, c: int) {
    Inv(s) && 0 <= c < |s.cpus| && s.cpus[c].phase == Dispatching && s.cpus[c].cur != NIL
  }

  lemma AtCallFacts(s: State, c: int)
    requires AtCall(s, c)
    ensures At(s, c, Dispatching, s.cpus[c].cur) && s.envs[s.cpus[c].cur].status == Running
  {
    CurStays(s, c);
  }

  // Making another environment RUNNABLE that may not be started
  lemma StartUnsafe(s: State, c: int, e: int)
    requires AtCall(s, c) && 0 <= e < |s.envs| && e != s.cpus[c].cur && s.envs[e].status != Free && !MayStart(s, e)
    ensures !SafeEver(SetPhase(SetEnvStatus(s, e, Runnable), c, Returning))
  {
    AtCallFacts(s, c);
    var s' := SetPhase(SetEnvStatus(s, e, Runnable), c, Returning);
    if Active(s.envs[e].status) {
      OneStatusSafe(s, s', c, e);
      UnsafeNow(s');
    } else {
      StartMisled(s', c, s.cpus[c].cur, e);
    }
  }

  lemma SetStatusUnsafe(s: State, c: int, e: int, status: Status)
    requires AtCall(s, c) && 0 <= e < |s.envs| && (e == s.cpus[c].cur || s.envs[e].status != Free)
    requires (status == Runnable || status == NotRunnable) && !MaySetStatus(s, c, e, status)
    ensures !SafeEver(SetPhase(SetEnvStatus(s, e, status), c, Returning))
  {
    AtCallFacts(s, c);
    var s' := SetPhase(SetEnvStatus(s, e, status), c, Returning);
    if e == s.cpus[c].cur {
      ReachesSelf(s');
      assert !OtherRunnable(s'.envs, e);
      SelfRunnable(s', s', c, e);
    } else if status == Runnable {
      StartUnsafe(s, c, e);
    } else {
      OneStatusSafe(s, s', c, e);
      UnsafeNow(s');
    }
  }

  lemma DestroyUnsafe(s: State, c: int, e: int)
    requires AtCall(s, c) && 0 <= e < |s.envs| && s.envs[e].status == Dying
    ensures !SafeEver(EnvDestroy(s, c, e))
  {
    AtCallFacts(s, c);
    OneStatusSafe(s, EnvDestroy(s, c, e), c, e);
    UnsafeNow(EnvDestroy(s, c, e));
  }

  lemma UnguardedUnsafe(s: State, c: int, call: Call)
    requires AtCall(s, c) && !GuardedCall(s, c, call)
    ensures !SafeEver(Dispatch(s, c, call))
  {
    match call
    case Destroy(id) => DestroyUnsafe(s, c, Resolve(s, c, id, true));
    case SetStatus(id, status) => SetStatusUnsafe(s, c, Resolve(s, c, id, true), status);
    case Resume(id, ok) => StartUnsafe(s, c, Resolve(s, c, id, true));
    case _ =>
  }

  lemma InvSafeEver(s: State)
    requires Inv(s)
    ensures SafeEver(s)
  {
    forall steps | GuardedRun(s, steps) ensures Safe(Run(s, steps)) {
      RunKeeps(s, steps);
      InvSafe(Run(s, steps));
    }
  }

  /** The guards are exact: after a call the machine stays safe in every guarded continuation if and
      only if the call respects its guard. */
  lemma GuardExact(s: State, c: int, call: Call)
    requires AtCall(s, c)
    ensures GuardedCall(s, c, call) <==> SafeEver(Dispatch(s, c, call))
  {
    if GuardedCall(s, c, call) {
      DispatchKeeps(s, c, call);
      InvSafeEver(Dispatch(s, c, call));
    } else {
      UnguardedUnsafe(s, c, call);
    }
  }

  /** sys_env_set_status does not look at the target's state.  Another environment can be made RUNNABLE
      if and only if no CPU runs it and it is not receiving, NOT_RUNNABLE if and only if no CPU runs
      it; the caller itself can always be made NOT_RUNNABLE, and RUNNABLE if and only if another
      environment is. */
  lemma StatusStepSafe(s: State, c: int, id: int, status: Status, e: int)
    requires AtCall(s, c) && Resolve(s, c, id, true) == e != NIL && (status == Runnable || status == NotRunnable)
    ensures var safe := SafeEver(Dispatch(s, c, Call.SetStatus(id, status)));
      && (e != s.cpus[c].cur && status == Runnable ==> (safe <==> !Active(s.envs[e].status) && !s.envs[e].recving))
      && (e != s.cpus[c].cur && status == NotRunnable ==> (safe <==> !Active(s.envs[e].status)))
      && (e == s.cpus[c].cur && status == Runnable ==> (safe <==> OtherRunnable(s.envs, e)))
      && (e == s.cpus[c].cur && status == NotRunnable ==> safe)
  {
    GuardExact(s, c, Call.SetStatus(id, status));
  }

  /** env_destroy frees a DYING environment at once, although a CPU still runs it: destroying an
      environment is safe if and only if it is not dying. */
  lemma DestroyStepSafe(s: State, c: int, id: int)
    requires AtCall(s, c) && Resolve(s, c, id, true) != NIL
    ensures SafeEver(Dispatch(s, c, Destroy(id))) <==> s.envs[Resolve(s, c, id, true)].status != Dying
  {
    GuardExact(s, c, Destroy(id));
  }

  /** env_alloc does not clear env_ipc_recving: the child that sys_exofork makes in a slot can be
      started if and only if the slot's last owner was not destroyed while it was receiving. */
  lemma StaleReceiver(s: State, c: int, s1: State, id: int, e: int)
    requires AtCall(s, c) && s.free != [] && e == s.free[0]
    requires s1 == AtDispatch(Dispatch(s, c, Exofork(true)), c) && Resolve(s1, c, id, true) == e
    ensures SafeEver(Dispatch(s1, c, Call.SetStatus(id, Runnable))) <==> !s.envs[e].recving
  {
    DispatchKeeps(s, c, Exofork(true));
    var s2 := Dispatch(s, c, Exofork(true));
    AtCallFacts(s, c);
    AllocKeepsList(s, s.envs[s.cpus[c].cur].id, NotRunnable);
    PhaseKeepsAt(s2, c);
    StatusStepSafe(s1, c, id, Runnable, e);
  }

  lemma PhaseKeepsAt(s: State, c: int)
    requires Inv(s) && 0 <= c < |s.cpus| && At(s, c, Returning, s.cpus[c].cur)
      && s.envs[s.cpus[c].cur].status == Running && s.cpus[c].taken == 1
    ensures Inv(AtDispatch(s, c))
  {
    assert AtDispatch(s, c) == SetPhase(s, c, Dispatching);
    PhaseKeeps(s, c, Dispatching);
  }

  /** A send to an environment that is running but still marked as receiving makes it RUNNABLE under
      the CPU that runs it. */
  lemma SendToRunningReceiver(s: State, c: int, d: int, to: int, value: int, page: PageArg)
    requires |s.envs| == NENV && 0 <= c < |s.cpus| && 0 <= d < |s.cpus| && c != d
    requires s.cpus[c].phase == Dispatching && 0 <= s.cpus[c].cur < NENV
    requires s.cpus[d].phase == User && s.cpus[d].cur == SendTarget(s, c, to, page) != NIL
    ensures !Safe(Dispatch(s, c, Send(to, value, page)))
  {
    assert !RunsActive(Dispatch(s, c, Send(to, value, page)), d);
  }
}
