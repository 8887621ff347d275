/** Whole traps of the machine of `Sched`: the way into the kernel and out again, start-up, and what
    becomes of a dying environment over every run. */
module Traps {
  import opened EnvIds
  import opened Sched
  import opened Smp
  import opened Effects

  // ---------------------------------------------------------------- one CPU on its own

  lemma RunCons(s: State, step: Step, steps: seq<Step>)
    ensures Run(s, [step] + steps) == Run(Next(s, step), steps)
  {
    assert ([step] + steps)[1..] == steps;
  }

  // CPU c has just taken the lock, for the trap of its curenv.
  function AtEntry(s: State, c: int): State
    requires 0 <= c < |s.cpus|
  {
    s.(locked := true, holder := c, cpus := s.cpus[c := Cpu(Entered, s.cpus[c].cur, Started, 1)])
  }

  function TrapSteps(c: int): seq<Step> {
    [Interrupt(c), Advance(c, Simple), Advance(c, Simple), Advance(c, Simple)]
  }

  lemma RunFour(s: State, a: Step, b: Step, c: Step, d: Step, rest: seq<Step>)
    ensures Run(s, [a, b, c, d] + rest) == Run(Next(Next(Next(Next(s, a), b), c), d), rest)
  {
    assert [a, b, c, d] + rest == [a, b] + ([c, d] + rest);
    RunTwo(s, a, b, [c, d] + rest);
    RunTwo(Next(Next(s, a), b), c, d, rest);
  }

  lemma RunTwo(s: State, a: Step, b: Step, rest: seq<Step>)
    ensures Run(s, [a, b] + rest) == Run(Next(Next(s, a), b), rest)
  {
    assert [a, b] + rest == [a] + ([b] + rest);
    RunAfter(s, a, [b] + rest, Next(s, a));
    RunAfter(Next(s, a), b, rest, Next(Next(s, a), b));
  }

  lemma RunAfter(s: State, step: Step, steps: seq<Step>, s1: State)
    requires Next(s, step) == s1
    ensures Run(s, [step] + steps) == Run(s1, steps)
  {
    RunCons(s, step, steps);
  }

  /** A trap from user mode, when the lock is free: in four steps the CPU holds it, with the same
      environment, and no other part of the machine has changed. */
  lemma TrapIn(s: State, c: int, rest: seq<Step>)
    requires Inv(s) && 0 <= c < |s.cpus| && s.cpus[c].phase == User && !s.locked
    ensures Run(s, TrapSteps(c) + rest) == Run(AtEntry(s, c), rest)
  {
    var A := Advance(c, Simple);
    assert PhaseOk(s.cpus[c]);
    RunFour(s, Interrupt(c), A, A, A, rest);
    var cur := s.cpus[c].cur;
    var s1 := Next(s, Interrupt(c));
    assert s1 == s.(cpus := s.cpus[c := Cpu(Trapped(true), cur, Started, 0)]);
    var s2 := Next(s1, A);
    assert s2.cpus == s.cpus[c := Cpu(Checking(true, false), cur, Started, 0)];
    var s3 := Next(s2, A);
    assert s3.cpus == s.cpus[c := Cpu(Spinning(ToEntered), cur, Started, 0)];
    assert Next(s3, A).cpus == AtEntry(s, c).cpus;
  }

  /** A CPU woken from hlt takes the lock and goes to the scheduler, whatever the interrupt was. */
  lemma WakeUp(s: State, c: int, call: Call, rest: seq<Step>)
    requires Inv(s) && 0 <= c < |s.cpus| && s.cpus[c].phase == Idle && !s.locked
    ensures Run(s, TrapSteps(c) + ([Advance(c, call)] + rest))
         == Run(s.(locked := true, holder := c, cpus := s.cpus[c := Cpu(Scheduling, NIL, Started, 1)]), rest)
  {
    assert PhaseOk(s.cpus[c]);
    RunFour(s, Interrupt(c), Advance(c, Simple), Advance(c, Simple), Advance(c, Simple), [Advance(c, call)] + rest);
    Awake(s, c);
    var s4 := s.(locked := true, holder := c, cpus := s.cpus[c := Cpu(Dispatching, NIL, Started, 1)]);
    RunCons(s4, Advance(c, call), rest);
    assert Next(s4, Advance(c, call)).cpus == s.cpus[c := Cpu(Scheduling, NIL, Started, 1)];
  }

  lemma Awake(s: State, c: int)
    requires 0 <= c < |s.cpus| && s.cpus[c] == Cpu(Idle, NIL, CpuHalted, 1) && !s.locked
    ensures var A := Advance(c, Simple);
      Next(Next(Next(Next(s, Interrupt(c)), A), A), A)
        == s.(locked := true, holder := c, cpus := s.cpus[c := Cpu(Dispatching, NIL, Started, 1)])
  {
    var A := Advance(c, Simple);
    var s1 := Next(s, Interrupt(c));
    assert s1 == s.(cpus := s.cpus[c := Cpu(Trapped(false), NIL, CpuHalted, 0)]);
    var s2 := Next(s1, A);
    assert s2.cpus == s.cpus[c := Cpu(Spinning(ToCheck(false)), NIL, Started, 0)];
    var s3 := Next(s2, A);
    assert s3 == s.(locked := true, holder := c, cpus := s.cpus[c := Cpu(Checking(false, true), NIL, Started, 1)]);
    assert Next(s3, A).cpus == s.cpus[c := Cpu(Dispatching, NIL, Started, 1)];
  }

  /** A call that only returns: the environment is back in user mode, and the machine is as before. */
  lemma SimpleTrap(s: State, c: int)
    requires Inv(s) && 0 <= c < |s.cpus| && s.cpus[c].phase == User && !s.locked
      && s.envs[s.cpus[c].cur].status == Running
    ensures var A := Advance(c, Simple); Run(s, TrapSteps(c) + [A, A, A, A]) == s.(holder := NIL)
  {
    var A := Advance(c, Simple);
    assert PhaseOk(s.cpus[c]) && CurOk(s, c);
    TrapIn(s, c, [A, A, A, A]);
    RunFour(AtEntry(s, c), A, A, A, A, []);
    assert [A, A, A, A] + [] == [A, A, A, A];
    SimpleOut(s, c, s.cpus[c].cur);
  }

  lemma SimpleOut(s: State, c: int, e: int)
    requires 0 <= c < |s.cpus| && !s.locked && s.cpus[c] == Cpu(User, e, Started, 1)
    requires 0 <= e < |s.envs| && s.envs[e].status == Running
    ensures var A := Advance(c, Simple); Next(Next(Next(Next(AtEntry(s, c), A), A), A), A) == s.(holder := NIL)
  {
    var A := Advance(c, Simple);
    var s1 := Next(AtEntry(s, c), A);
    assert s1.cpus == s.cpus[c := Cpu(Dispatching, e, Started, 1)];
    var s2 := Next(s1, A);
    assert s2.cpus == s.cpus[c := Cpu(Returning, e, Started, 1)];
    var s3 := Next(s2, A);
    assert s3.cpus == s.cpus[c := Cpu(Leaving, e, Started, 1)];
    assert Next(s3, A).cpus == s.cpus;
  }

  /** sys_yield: curenv waits its turn, and the nearest environment that can be run is in user mode on
      the CPU, the lock free again. */
  lemma YieldTrap(s: State, c: int, e: int)
    requires Inv(s) && 0 <= c < |s.cpus| && s.cpus[c].phase == User && !s.locked
      && s.envs[s.cpus[c].cur].status == Running
    requires 0 <= e < |s.envs| && e != s.cpus[c].cur && s.envs[e].status == Runnable
    ensures Yielded(s, Run(s, TrapSteps(c) + [Advance(c, Simple), Advance(c, Yield), Advance(c, Simple),
      Advance(c, Simple)]), c, s.cpus[c].cur, e)
  {
    var A, x := Advance(c, Simple), s.cpus[c].cur;
    assert PhaseOk(s.cpus[c]) && CurOk(s, c);
    TrapIn(s, c, [A, Advance(c, Yield), A, A]);
    RunFour(AtEntry(s, c), A, Advance(c, Yield), A, A, []);
    assert [A, Advance(c, Yield), A, A] + [] == [A, Advance(c, Yield), A, A];
    YieldIn(s, c, x);
    var s2 := s.(locked := true, holder := c, cpus := s.cpus[c := Cpu(Scheduling, x, Started, 1)]);
    SchedulingInv(s, s2, c);
    assert Eligible(s2.envs, x, e);
    YieldOut(s, s2, c, x, e);
  }

  // From s to s' CPU c has switched from x to the nearest environment, which is no farther than e.
  ghost predicate Yielded(s: State, s': State, c: int, x: int, e: int)
    requires 0 <= c < |s.cpus|
  {
    && |s'.cpus| == |s.cpus| && |s'.envs| == |s.envs| && !s'.locked && s'.free == s.free
    && var p := s'.cpus[c].cur;
    && 0 <= p < |s.envs| && p != x && s.envs[p].status == Runnable && Ahead(x, p) <= Ahead(x, e)
    && s'.cpus == s.cpus[c := s.cpus[c].(cur := p)]
    && forall f {:trigger s'.envs[f]} :: 0 <= f < |s.envs| ==> Switched(s.envs[f], s'.envs[f], f, x, p)
  }

  lemma YieldIn(s: State, c: int, x: int)
    requires 0 <= c < |s.cpus| && s.cpus[c].cur == x && 0 <= x < |s.envs| && s.envs[x].status == Running
    ensures Next(Next(AtEntry(s, c), Advance(c, Simple)), Advance(c, Yield))
         == s.(locked := true, holder := c, cpus := s.cpus[c := Cpu(Scheduling, x, Started, 1)])
  {
    var s1 := Next(AtEntry(s, c), Advance(c, Simple));
    assert s1.cpus == s.cpus[c := Cpu(Dispatching, x, Started, 1)];
    assert Next(s1, Advance(c, Yield)).cpus == s.cpus[c := Cpu(Scheduling, x, Started, 1)];
  }

  // The picked environment is another than curenv, which comes last in the search.
  lemma YieldOut(s: State, s2: State, c: int, x: int, e: int)
    requires Inv(s2) && 0 <= c < |s.cpus| && s.cpus[c] == Cpu(User, x, Started, 1) && 0 <= x < NENV
    requires s2 == s.(locked := true, holder := c, cpus := s.cpus[c := Cpu(Scheduling, x, Started, 1)])
    requires s.envs[x].status == Running && Eligible(s2.envs, x, e) && e != x
    ensures Yielded(s, Next(Next(s2, Advance(c, Simple)), Advance(c, Simple)), c, x, e)
  {
    YieldRuns(s2, c);
    var s3 := SchedYield(s2, c);
    assert Next(s3, Advance(c, Simple)).cpus == s.cpus[c := Cpu(User, s3.cpus[c].cur, Started, 1)];
  }

  lemma SchedulingInv(s: State, s2: State, c: int)
    requires Inv(s) && 0 <= c < |s.cpus| && s.cpus[c].phase == User && !s.locked
      && s.envs[s.cpus[c].cur].status == Running
    requires s2 == s.(locked := true, holder := c, cpus := s.cpus[c := Cpu(Scheduling, s.cpus[c].cur, Started, 1)])
    ensures Inv(s2)
  {
    forall d | 0 <= d < |s.cpus| ensures CurOk(s2, d) && PhaseOk(s2.cpus[d]) && BootOk(s2, d) {
      assert CurOk(s, d) && PhaseOk(s.cpus[d]) && BootOk(s, d);
    }
    SameCurs(s, s2);
  }

  /** A CPU that finds nothing to run goes to sleep without a curenv and lets the lock go; if no environment
      is alive it enters the monitor, and keeps the lock for good. */
  lemma NothingToRun(s: State, c: int)
    requires Inv(s) && 0 <= c < |s.cpus| && s.cpus[c].phase == Scheduling
    requires forall e :: !Eligible(s.envs, s.cpus[c].cur, e)
    ensures var A := Advance(c, Simple);
      Next(Next(s, A), A) ==
        if exists e :: 0 <= e < |s.envs| && s.envs[e].status in {Runnable, Running, Dying}
        then s.(locked := false, holder := NIL, cpus := s.cpus[c := s.cpus[c].(phase := Idle, cur := NIL,
          status := CpuHalted)])
        else s.(cpus := s.cpus[c := s.cpus[c].(phase := Monitor)])
  {
    YieldHalts(s, c);
    var s1 := Next(s, Advance(c, Simple));
    if s1.cpus[c].phase == Sleeping {
      assert Next(s1, Advance(c, Simple)).cpus
          == s.cpus[c := s.cpus[c].(phase := Idle, cur := NIL, status := CpuHalted)];
    }
  }

  // ---------------------------------------------------------------- dying environments

  /** Environment e is marked as dying, CPU d runs it, in user mode or on the way into the kernel, and no
      other CPU does. */
  ghost predicate DyingOn(s: State, e: int, d: int) {
    && 0 <= e < |s.envs| && s.envs[e].status == Dying && 0 <= d < |s.cpus| && s.cpus[d].cur == e
    && FromUser(s.cpus[d]) && forall c :: 0 <= c < |s.cpus| && s.cpus[c].cur == e ==> c == d
  }

  // Every dying environment is in that state.
  lemma DyingSomewhere(s: State, e: int) returns (d: int)
    requires Inv(s) && 0 <= e < |s.envs| && s.envs[e].status == Dying
    ensures DyingOn(s, e, d)
  {
    assert EnvOk(s, e);
    d :| 0 <= d < |s.cpus| && s.cpus[d].cur == e;
    OnlyFromUser(s, e, d);
  }

  lemma OnlyFromUser(s: State, e: int, d: int)
    requires Inv(s) && 0 <= e < |s.envs| && s.envs[e].status == Dying && 0 <= d < |s.cpus| && s.cpus[d].cur == e
    ensures DyingOn(s, e, d)
  {
    CurStays(s, d);
    forall c | 0 <= c < |s.cpus| && s.cpus[c].cur == e ensures c == d {
    }
  }

  // The CPU has got the lock and frees e.
  predicate Reaps(s: State, step: Step, d: int) {
    0 <= d < |s.cpus| && step.Advance? && step.c == d && s.cpus[d].phase == Entered
  }

  // e is freed, and d without a curenv about to schedule.
  ghost predicate Reaped(s: State, s': State, e: int, d: int)
    requires 0 <= e < |s.envs| && 0 <= d < |s.cpus|
  {
    s' == s.(envs := s.envs[e := s.envs[e].(status := Free)], free := [e] + s.free,
             cpus := s.cpus[d := s.cpus[d].(cur := NIL, phase := Scheduling)])
  }

  lemma DyingCall(s: State, c: int, call: Call, e: int)
    requires Inv(s) && 0 <= c < |s.cpus| && s.cpus[c].phase == Dispatching && GuardedCall(s, c, call)
    requires 0 <= e < |s.envs| && s.envs[e].status == Dying
    ensures var s' := Dispatch(s, c, call); |s'.envs| == |s.envs| && s'.envs[e].status == Dying
  {
    CurStays(s, c);
    assert EnvOk(s, e);
  }

  lemma DyingKernel(s: State, c: int, call: Call, e: int, d: int)
    requires Inv(s) && 0 <= c < |s.cpus| && s.cpus[c].phase != Dispatching && c != d && DyingOn(s, e, d)
    ensures var s' := Advanced(s, c, call); |s'.envs| == |s.envs| && s'.envs[e].status == Dying
  {
    CurStays(s, c);
    if s.cpus[c].phase == Scheduling && Pick(s.envs, s.cpus[c].cur) != NIL {
      PickOther(s, c);
    }
  }

  lemma DyingOwn(s: State, call: Call, e: int, d: int)
    requires Inv(s) && DyingOn(s, e, d)
    ensures var s' := Advanced(s, d, call);
      if s.cpus[d].phase == Entered then Reaped(s, s', e, d)
      else |s'.envs| == |s.envs| && s'.envs[e].status == Dying && |s'.cpus| == |s.cpus| && s'.cpus[d].cur == e
  {
    CurStays(s, d);
  }

  lemma OtherCur(s: State, c: int, call: Call, d: int)
    requires 0 <= c < |s.cpus| && 0 <= d < |s.cpus| && c != d
    ensures |Advanced(s, c, call).cpus| == |s.cpus| && Advanced(s, c, call).cpus[d].cur == s.cpus[d].cur
  {
    if s.cpus[c].phase == Dispatching {
      DispatchCpus(s, c, call, d);
    }
  }

  lemma DispatchCpus(s: State, c: int, call: Call, d: int)
    requires 0 <= c < |s.cpus| && 0 <= d < |s.cpus| && c != d
    ensures |Dispatch(s, c, call).cpus| == |s.cpus| && Dispatch(s, c, call).cpus[d].cur == s.cpus[d].cur
  {
    match call
    case Fault =>
    case Destroy(_) =>
    case _ =>
  }

  /** A dying environment is never dispatched again: whatever happens, its CPU runs it on or is on the way
      into the kernel with it, until that CPU has the lock; then it is freed. */
  lemma DyingStep(s: State, step: Step, e: int, d: int)
    requires Inv(s) && Guarded(s, step) && DyingOn(s, e, d)
    ensures if Reaps(s, step, d) then Reaped(s, Next(s, step), e, d) else DyingOn(Next(s, step), e, d)
  {
    NextKeeps(s, step);
    var s' := Next(s, step);
    if step.Advance? && 0 <= step.c < |s.cpus| {
      if step.c == d {
        DyingOwn(s, step.call, e, d);
      } else {
        OtherCur(s, step.c, step.call, d);
        if s.cpus[step.c].phase == Dispatching {
          DyingCall(s, step.c, step.call, e);
        } else {
          DyingKernel(s, step.c, step.call, e, d);
        }
      }
    } else {
      DyingElse(s, step, e, d);
    }
    if !Reaps(s, step, d) {
      OnlyFromUser(s', e, d);
    }
  }

  lemma DyingElse(s: State, step: Step, e: int, d: int)
    requires Inv(s) && DyingOn(s, e, d) && !(step.Advance? && 0 <= step.c < |s.cpus|)
    ensures var s' := Next(s, step);
      |s'.envs| == |s.envs| && s'.envs[e].status == Dying && |s'.cpus| == |s.cpus| && s'.cpus[d].cur == e
  {
    CurStays(s, d);
    if step.Create? && s.free != [] {
      assert s.envs[s.free[0]].status == Free;
    }
  }

  // All along the run, up to the step that frees it, e is dying on d.
  ghost predicate DyingUntilReaped(s: State, steps: seq<Step>, e: int, d: int)
    decreases |steps|
  {
    DyingOn(s, e, d) && (steps != [] ==>
      if Reaps(s, steps[0], d) then Reaped(s, Next(s, steps[0]), e, d)
      else DyingUntilReaped(Next(s, steps[0]), steps[1..], e, d))
  }

  /** So it is over every guarded run. */
  lemma {:induction false} DyingRun(s: State, steps: seq<Step>, e: int, d: int)
    requires Inv(s) && GuardedRun(s, steps) && DyingOn(s, e, d)
    ensures DyingUntilReaped(s, steps, e, d)
    decreases |steps|
  {
    if steps != [] {
      DyingStep(s, steps[0], e, d);
      if !Reaps(s, steps[0], d) {
        NextKeeps(s, steps[0]);
        DyingRun(Next(s, steps[0]), steps[1..], e, d);
      }
    }
  }

  /** And it does come to its end: the next trap of its CPU, when the lock is free, frees it. */
  lemma DyingTrap(s: State, e: int, d: int)
    requires Inv(s) && DyingOn(s, e, d) && s.cpus[d].phase == User && !s.locked
    ensures Reaped(AtEntry(s, d), Run(s, TrapSteps(d) + [Advance(d, Simple)]), e, d)
  {
    TrapIn(s, d, [Advance(d, Simple)]);
    RunCons(AtEntry(s, d), Advance(d, Simple), []);
    assert [Advance(d, Simple)] + [] == [Advance(d, Simple)];
  }

  // ---------------------------------------------------------------- start-up

  /** From start-up: the boot CPU takes the lock, creates an environment and runs it. */
  lemma FirstEnv(ncpu: nat, boot: int)
    requires 0 <= boot < ncpu
    ensures var A, s0 := Advance(boot, Simple), Init(ncpu, boot);
      var s := Run(s0, [A, Create(boot), A, A] + [A]);
      && s.envs == s0.envs[0 := Env(Running, 4096, 0, false, 0, 0, 0)] && s.free == s0.free[1..] && !s.locked
      && s.cpus == s0.cpus[boot := Cpu(User, 0, Started, 1)]
  {
    var A, s0 := Advance(boot, Simple), Init(ncpu, boot);
    RunFour(s0, A, Create(boot), A, A, [A]);
    FirstBoot(s0, boot);
    var s3 := Next(Next(Next(s0, A), Create(boot)), A);
    RunCons(Next(s3, A), A, []);
    assert [A] + [] == [A];
    FirstRun(s3, boot, Env(Runnable, 4096, 0, false, 0, 0, 0));
    assert s3.cpus[boot := Cpu(User, 0, Started, 1)] == s0.cpus[boot := Cpu(User, 0, Started, 1)];
    assert s3.envs[0 := Env(Running, 4096, 0, false, 0, 0, 0)] == s0.envs[0 := Env(Running, 4096, 0, false, 0, 0, 0)];
  }

  lemma FirstRun(s: State, c: int, env: Env)
    requires |s.envs| == NENV && s.envs[0] == env && env.status == Runnable && 0 <= c < |s.cpus|
      && s.cpus[c] == Cpu(Scheduling, NIL, Started, 1)
    ensures var A := Advance(c, Simple);
      Next(Next(s, A), A) == s.(locked := false, holder := NIL, envs := s.envs[0 := env.(status := Running)],
        cpus := s.cpus[c := Cpu(User, 0, Started, 1)])
  {
    FirstPick(s.envs);
    var s1 := Next(s, Advance(c, Simple));
    assert s1 == s.(envs := s.envs[0 := env.(status := Running)], cpus := s.cpus[c := Cpu(Leaving, 0, Started, 1)]);
    assert Next(s1, Advance(c, Simple)).cpus == s.cpus[c := Cpu(User, 0, Started, 1)];
  }

  /** A CPU that the boot CPU starts spins for the lock, and schedules once it gets it. */
  lemma ApStarts(s: State, boot: int, ap: int)
    requires 0 <= boot < |s.cpus| && 0 <= ap < |s.cpus| && s.cpus[boot].phase == Boot && s.cpus[ap].phase == Off
    ensures var s' := Next(s, StartAp(boot, ap));
      && s' == s.(cpus := s.cpus[ap := Cpu(Spinning(ToSched), NIL, Started, 0)])
      && Next(s'.(locked := false), Advance(ap, Simple))
           == s.(locked := true, holder := ap, cpus := s.cpus[ap := Cpu(Scheduling, NIL, Started, 1)])
      && (s.locked ==> Next(s', Advance(ap, Simple)) == s')
  {
    var s' := Next(s, StartAp(boot, ap));
    assert Next(s'.(locked := false), Advance(ap, Simple)).cpus == s.cpus[ap := Cpu(Scheduling, NIL, Started, 1)];
  }

  lemma FirstBoot(s0: State, boot: int)
    requires 0 <= boot < |s0.cpus| && s0 == Init(|s0.cpus|, boot)
    ensures var A := Advance(boot, Simple);
      Next(Next(Next(s0, A), Create(boot)), A)
        == s0.(locked := true, holder := boot, envs := s0.envs[0 := Env(Runnable, 4096, 0, false, 0, 0, 0)],
               free := s0.free[1..], cpus := s0.cpus[boot := Cpu(Scheduling, NIL, Started, 1)])
  {
    FirstSlot();
    AtStart(s0, boot);
    BootTakes(s0, boot, s0.cpus);
  }

  lemma FirstSlot()
    ensures NextId(0, 0) == 4096
  {
    FirstId(0);
    assert IdAfter(1, 0) == NextId(IdAfter(0, 0), 0) && IdAfter(0, 0) == 0;
  }

  lemma AtStart(s: State, boot: int)
    requires 0 <= boot < |s.cpus| && s == Init(|s.cpus|, boot)
    ensures s.cpus[boot] == Cpu(Spinning(ToBoot), NIL, Started, 0) && !s.locked
    ensures |s.free| == |s.envs| == NENV && s.free[0] == 0 && s.envs[0] == Env(Free, 0, 0, false, 0, 0, 0)
  {
  }

  // Lock, create, schedule: from the state in which nothing has happened
  lemma BootTakes(s: State, boot: int, cpus: seq<Cpu>)
    requires 0 <= boot < |cpus| && s.cpus == cpus && cpus[boot] == Cpu(Spinning(ToBoot), NIL, Started, 0) && !s.locked
    requires s.free != [] && s.free[0] == 0 && s.envs != [] && s.envs[0] == Env(Free, 0, 0, false, 0, 0, 0)
      && NextId(0, 0) == 4096
    ensures var A := Advance(boot, Simple);
      Next(Next(Next(s, A), Create(boot)), A)
        == s.(locked := true, holder := boot, envs := s.envs[0 := Env(Runnable, 4096, 0, false, 0, 0, 0)],
              free := s.free[1..], cpus := cpus[boot := Cpu(Scheduling, NIL, Started, 1)])
  {
    var A := Advance(boot, Simple);
    var s1 := Next(s, A);
    assert s1 == s.(locked := true, holder := boot, cpus := cpus[boot := Cpu(Boot, NIL, Started, 1)]);
    var s2 := Next(s1, Create(boot));
    assert s2 == s1.(envs := s.envs[0 := Env(Runnable, 4096, 0, false, 0, 0, 0)], free := s.free[1..]);
    assert Next(s2, A).cpus == cpus[boot := Cpu(Scheduling, NIL, Started, 1)];
  }

  lemma FirstPick(envs: seq<Env>)
    requires |envs| == NENV && envs[0].status == Runnable
    ensures Pick(envs, NIL) == 0
  {
    PickSpec(envs, NIL);
    assert Eligible(envs, NIL, 0);
  }
}
