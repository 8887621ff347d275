/** The scheduler, traps and IPC as the kernel runs them, on envs[], cpus[] and the lock, in place.
    Every step of every CPU is one of the machine of `Sched` and keeps its invariant; so whole runs are
    safe. */
module Machine {
  import opened EnvIds
  import opened Sched
  import opened Smp

  class Host {
    var locked: bool
    var holder: int
    const envs: array<Env>
    const cpus: array<Cpu>
    var free: seq<int>        // env_free_list

    ghost function State(): Sched.State
      reads this, envs, cpus
    {
      Sched.State(locked, holder, envs[..], free, cpus[..])
    }

    ghost predicate Shape(c: int)
      reads this, envs, cpus
    {
      envs.Length == NENV && 0 <= c < cpus.Length && (cpus[c].cur == NIL || 0 <= cpus[c].cur < NENV)
    }

    /** i386_init's and env_init's state: no environments, one CPU started */
    constructor (ncpu: nat, boot: int)
      requires 0 <= boot < ncpu
      ensures State() == Init(ncpu, boot) && Inv(State())
    {
      locked, holder := false, NIL;
      envs := new Env[NENV](_ => Env(Free, 0, 0, false, 0, 0, 0));
      cpus := new Cpu[ncpu](c => if c == boot then Cpu(Spinning(ToBoot), NIL, Started, 0)
        else Cpu(Off, NIL, Unused, 0));
      free := seq(NENV, i => i);
      new;
      InitInv(ncpu, boot);
      assert envs[..] == Init(ncpu, boot).envs && cpus[..] == Init(ncpu, boot).cpus && free == Init(ncpu, boot).free;
    }

    method MovePhase(c: int, phase: Phase)
      requires 0 <= c < cpus.Length
      modifies cpus
      ensures State() == SetPhase(old(State()), c, phase)
    {
      cpus[c] := cpus[c].(phase := phase);
    }

    method MoveCur(c: int, e: int)
      requires 0 <= c < cpus.Length
      modifies cpus
      ensures State() == SetCur(old(State()), c, e)
    {
      cpus[c] := cpus[c].(cur := e);
    }

    method PutStatus(e: int, status: Status)
      requires 0 <= e < envs.Length
      modifies envs
      ensures State() == SetEnvStatus(old(State()), e, status)
    {
      envs[e] := envs[e].(status := status);
    }

    // ---------------------------------------------------------------- spinlock.c

    /** One turn of spin_lock's loop around xchg */
    method LockOnce(c: int)
      requires 0 <= c < cpus.Length && cpus[c].phase.Spinning?
      modifies this, cpus
      ensures State() == TryLock(old(State()), c)
    {
      var was := locked;
      locked := true;
      if !was {
        holder := c;
        cpus[c] := cpus[c].(phase := After(cpus[c].phase.cont), taken := cpus[c].taken + 1);
      }
    }

    /** spin_unlock at the end of env_run and sched_halt: the CPU that gets here holds the lock, so
        the panic of the debugging lock cannot fire. */
    method Release(c: int)
      requires Inv(State()) && 0 <= c < cpus.Length && (cpus[c].phase == Leaving || cpus[c].phase == Sleeping)
      modifies this, cpus
      ensures State() == Unlock(old(State()), c)
    {
      assert locked && holder == c;
      holder := NIL;
      cpus[c] := cpus[c].(phase := if cpus[c].phase == Leaving then User else Idle);
      locked := false;
    }

    // ---------------------------------------------------------------- env.c and sched.c

    /** env_run up to unlock_kernel */
    method EnvRun(c: int, e: int)
      requires Shape(c) && 0 <= e < NENV
      modifies envs, cpus
      ensures State() == Sched.EnvRun(old(State()), c, e)
    {
      var cur := cpus[c].cur;
      if cur != e {
        if cur != NIL && envs[cur].status == Running {
          PutStatus(cur, Runnable);
        }
        MoveCur(c, e);
        PutStatus(e, Running);
      }
      MovePhase(c, Leaving);
    }

    /** sched_halt up to unlock_kernel */
    method SchedHalt(c: int)
      requires Shape(c)
      modifies cpus
      ensures State() == Sched.SchedHalt(old(State()), c)
    {
      var i := 0;
      while i < NENV && envs[i].status != Runnable && envs[i].status != Running && envs[i].status != Dying
        invariant 0 <= i <= NENV
        invariant forall e :: 0 <= e < i ==> (envs[e].status != Runnable && envs[e].status != Running
          && envs[e].status != Dying)
      {
        i := i + 1;
      }
      if i == NENV {
        assert !AnyAlive(envs[..]);
        MovePhase(c, Monitor);
      } else {
        assert envs[..][i] == envs[i];
        cpus[c] := cpus[c].(phase := Sleeping, cur := NIL, status := CpuHalted);
      }
    }

    /** sched_yield's search: the first eligible environment in circular order after curenv */
    method Search(c: int) returns (idle: int)
      requires Shape(c)
      ensures idle == Pick(envs[..], cpus[c].cur)
      ensures idle == NIL ==> forall e :: !Eligible(envs[..], cpus[c].cur, e)
      ensures idle != NIL ==> Eligible(envs[..], cpus[c].cur, idle)
      ensures forall e :: Eligible(envs[..], cpus[c].cur, e) ==> Ahead(cpus[c].cur, idle) <= Ahead(cpus[c].cur, e)
    {
      var curenv := cpus[c].cur;
      PickSpec(envs[..], curenv);
      var start := if curenv != NIL then curenv + 1 else 0;
      var end := if curenv != NIL then curenv + NENV else NENV - 1;
      idle := NIL;
      var i := start;
      while i <= end
        invariant start <= i <= end + 1
        invariant PickFrom(envs[..], curenv, i, end) == Pick(envs[..], curenv)
      {
        var cur := i % NENV;
        if (cur == curenv && envs[cur].status == Running) || envs[cur].status == Runnable {
          idle := cur;
          break;
        }
        i := i + 1;
      }
    }

    /** sched_yield */
    method SchedYield(c: int)
      requires Shape(c)
      modifies envs, cpus
      ensures State() == Sched.SchedYield(old(State()), c)
    {
      var idle := Search(c);
      if idle == NIL {
        SchedHalt(c);
      } else {
        EnvRun(c, idle);
      }
    }

    /** env_free, of the part that concerns envs[] */
    method EnvFree(e: int)
      requires 0 <= e < envs.Length
      modifies this, envs
      ensures State() == Sched.EnvFree(old(State()), e)
    {
      PutStatus(e, Free);
      free := [e] + free;
    }

    /** env_alloc; NIL when there is no free environment */
    method EnvAlloc(parent: int) returns (e: int)
      requires forall j :: 0 <= j < |free| ==> 0 <= free[j] < envs.Length
      modifies this, envs
      ensures State() == Sched.EnvAlloc(old(State()), parent)
      ensures e == if old(free) == [] then NIL else old(free[0])
    {
      if free == [] {
        return NIL;
      }
      e := free[0];
      envs[e] := envs[e].(status := Runnable, id := NextId(envs[e].id, e), parent := parent);
      free := free[1..];
    }

    /** env_destroy */
    method EnvDestroy(c: int, e: int)
      requires Shape(c) && 0 <= e < NENV
      modifies this, envs, cpus
      ensures State() == Sched.EnvDestroy(old(State()), c, e)
    {
      if envs[e].status == Running && cpus[c].cur != e {
        PutStatus(e, Dying);
        MovePhase(c, Returning);
        return;
      }
      EnvFree(e);
      if cpus[c].cur == e {
        MoveCur(c, NIL);
        MovePhase(c, Scheduling);
      } else {
        MovePhase(c, Returning);
      }
    }

    /** envid2env; NIL for an error */
    method Lookup(c: int, envid: int, checkperm: bool) returns (e: int)
      requires Shape(c) && cpus[c].cur != NIL
      ensures e == Resolve(State(), c, envid, checkperm)
    {
      var cur := cpus[c].cur;
      if envid == 0 {
        return cur;
      }
      e := EnvX(envid);
      if envs[e].status == Free || envs[e].id != envid {
        return NIL;
      }
      if checkperm && e != cur && envs[e].parent != envs[cur].id {
        return NIL;
      }
    }

    // ---------------------------------------------------------------- syscall.c

    /** sys_ipc_recv */
    method IpcRecv(c: int, aligned: bool)
      requires Shape(c) && cpus[c].cur != NIL
      modifies envs, cpus
      ensures State() == Sched.IpcRecv(old(State()), c, aligned)
    {
      if !aligned {
        MovePhase(c, Returning);
        return;
      }
      var e := cpus[c].cur;
      envs[e] := envs[e].(status := NotRunnable, value := 0, perm := 0, from := 0, recving := true);
      MovePhase(c, Scheduling);
    }

    /** sys_ipc_try_send */
    method IpcTrySend(c: int, to: int, value: int, page: PageArg)
      requires Shape(c) && cpus[c].cur != NIL
      modifies envs, cpus
      ensures State() == Sched.IpcTrySend(old(State()), c, to, value, page)
    {
      var e := Lookup(c, to, false);
      if e != NIL && envs[e].recving && page != BadPage && page != NoMemory {
        envs[e] := envs[e].(perm := SentPerm(page), value := value, from := envs[cpus[c].cur].id);
        envs[e] := envs[e].(recving := false, status := Runnable);
      }
      MovePhase(c, Returning);
    }

    /** sys_exofork */
    method Exofork(c: int, memory: bool)
      requires Shape(c) && cpus[c].cur != NIL && forall j :: 0 <= j < |free| ==> 0 <= free[j] < envs.Length
      modifies this, envs, cpus
      ensures State() == ExoforkCall(old(State()), c, memory)
    {
      if memory {
        var e := EnvAlloc(envs[cpus[c].cur].id);
        if e != NIL {
          PutStatus(e, NotRunnable);
        }
      }
      MovePhase(c, Returning);
    }

    /** sys_env_destroy */
    method DestroyById(c: int, id: int)
      requires Shape(c) && cpus[c].cur != NIL
      modifies this, envs, cpus
      ensures State() == DestroyCall(old(State()), c, id)
    {
      var e := Lookup(c, id, true);
      if e == NIL {
        MovePhase(c, Returning);
      } else {
        EnvDestroy(c, e);
      }
    }

    /** sys_env_set_status */
    method SetStatusById(c: int, id: int, status: Status)
      requires Shape(c) && cpus[c].cur != NIL
      modifies envs, cpus
      ensures State() == SetStatusCall(old(State()), c, id, status)
    {
      if status == Runnable || status == NotRunnable {
        var e := Lookup(c, id, true);
        if e != NIL {
          PutStatus(e, status);
        }
      }
      MovePhase(c, Returning);
    }

    // sys_env_resume, of what concerns envs[]
    method ResumeById(c: int, id: int, ok: bool)
      requires Shape(c) && cpus[c].cur != NIL
      modifies envs, cpus
      ensures State() == ResumeCall(old(State()), c, id, ok)
    {
      if ok {
        var e := Lookup(c, id, true);
        if e != NIL {
          PutStatus(e, if e == cpus[c].cur then Running else Runnable);
        }
      }
      MovePhase(c, Returning);
    }

    // ---------------------------------------------------------------- trap.c

    /** trap_dispatch */
    method TrapDispatch(c: int, call: Call)
      requires Shape(c) && forall j :: 0 <= j < |free| ==> 0 <= free[j] < envs.Length
      modifies this, envs, cpus
      ensures State() == Dispatch(old(State()), c, call)
    {
      if cpus[c].cur == NIL {
        MovePhase(c, Scheduling);
        return;
      }
      match call
      case Simple => MovePhase(c, Returning);
      case Yield => MovePhase(c, Scheduling);
      case Fault => EnvDestroy(c, cpus[c].cur);
      case Recv(aligned) => IpcRecv(c, aligned);
      case Send(to, value, page) => IpcTrySend(c, to, value, page);
      case Exofork(memory) => Exofork(c, memory);
      case Destroy(id) => DestroyById(c, id);
      case SetStatus(id, status) => SetStatusById(c, id, status);
      case Resume(id, ok) => ResumeById(c, id, ok);
    }

    /** trap(), after the second lock_kernel */
    method EnterKernel(c: int)
      requires Shape(c)
      modifies this, envs, cpus
      ensures State() == Enter(old(State()), c)
    {
      var e := cpus[c].cur;
      if e != NIL && envs[e].status == Dying {
        EnvFree(e);
        MoveCur(c, NIL);
        MovePhase(c, Scheduling);
      } else {
        MovePhase(c, Dispatching);
      }
    }

    /** The end of trap() */
    method TrapReturn(c: int)
      requires Shape(c)
      modifies envs, cpus
      ensures State() == Return(old(State()), c)
    {
      var e := cpus[c].cur;
      if e != NIL && envs[e].status == Running {
        EnvRun(c, e);
      } else {
        MovePhase(c, Scheduling);
      }
    }

    // trap(), up to where it waits for the lock: cpu_status, then the test for user mode
    method BeginTrap(c: int, user: bool)
      requires 0 <= c < cpus.Length && cpus[c].phase == Trapped(user)
      modifies cpus
      ensures State() == Advanced(old(State()), c, Simple)
    {
      var was := cpus[c].status;
      cpus[c] := cpus[c].(status := Started, phase := if was == CpuHalted then Spinning(ToCheck(user))
        else Checking(user, false));
    }

    // ---------------------------------------------------------------- runs

    lemma ShapeOk(c: int)
      requires Inv(State()) && 0 <= c < cpus.Length
      ensures Shape(c) && forall j :: 0 <= j < |free| ==> 0 <= free[j] < envs.Length
    {
      CurStays(State(), c);
    }

    // The next step of CPU c's kernel code
    method StepKernel(c: int, call: Call)
      requires Inv(State()) && 0 <= c < cpus.Length && Guarded(State(), Advance(c, call))
      modifies this, envs, cpus
      ensures State() == Advanced(old(State()), c, call)
    {
      ShapeOk(c);
      match cpus[c].phase
      case Trapped(user) => BeginTrap(c, user);
      case Spinning(_) => LockOnce(c);
      case Checking(user, held) => MovePhase(c, if user then Spinning(ToEntered) else Dispatching);
      case Boot => MovePhase(c, Scheduling);
      case Entered => EnterKernel(c);
      case Dispatching => TrapDispatch(c, call);
      case Returning => TrapReturn(c);
      case Scheduling => SchedYield(c);
      case Leaving => Release(c);
      case Sleeping => Release(c);
      case _ =>
    }

    // An interrupt, or an application processor started by the boot one
    method SetCpu(c: int, cpu: Cpu)
      requires 0 <= c < cpus.Length
      modifies cpus
      ensures State() == old(State()).(cpus := old(State()).cpus[c := cpu])
    {
      cpus[c] := cpu;
    }

    /** One step of the machine, in place: it does what the model's step does, and keeps the invariant. */
    method Perform(step: Step)
      requires Inv(State()) && Guarded(State(), step)
      modifies this, envs, cpus
      ensures State() == Next(old(State()), step) && Inv(State())
    {
      NextKeeps(State(), step);
      match step
      case Interrupt(c) =>
        if 0 <= c < cpus.Length && (cpus[c].phase == User || cpus[c].phase == Idle) {
          SetCpu(c, cpus[c].(phase := Trapped(cpus[c].phase == User), taken := 0));
        }
      case Advance(c, call) =>
        if 0 <= c < cpus.Length {
          StepKernel(c, call);
        }
      case StartAp(c, ap) =>
        if 0 <= c < cpus.Length && cpus[c].phase == Boot && 0 <= ap < cpus.Length && cpus[ap].phase == Off {
          SetCpu(ap, Cpu(Spinning(ToSched), NIL, Started, 0));
        }
      case Create(c) =>
        if 0 <= c < cpus.Length && cpus[c].phase == Boot {
          ShapeOk(c);
          var e := EnvAlloc(0);
        }
    }

    /** Any guarded run, step by step: the state is that of the model, no environment runs on two CPUs,
        and the lock is sound. */
    method Schedule(steps: seq<Step>)
      requires Inv(State()) && GuardedRun(State(), steps)
      modifies this, envs, cpus
      ensures State() == Run(old(State()), steps) && Inv(State())
      ensures Safe(State()) && LockSound(State()) && LockedOnce(State())
    {
      ghost var s0 := State();
      var i := 0;
      assert steps[0..] == steps;
      while i < |steps|
        invariant 0 <= i <= |steps| && Inv(State()) && GuardedRun(State(), steps[i..])
        invariant Run(State(), steps[i..]) == Run(s0, steps)
      {
        assert steps[i..][1..] == steps[i + 1..];
        Perform(steps[i]);
        i := i + 1;
      }
      InvSafe(State());
    }
  }
}
