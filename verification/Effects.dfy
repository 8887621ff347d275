/** What calls and traps do to envs[], said on its fields alone: which environment an id names, over whole
    runs; what each call leaves behind; and what becomes of an environment marked as dying. */
module Effects {
  import opened EnvIds
  import opened Sched
  import opened Smp

  // ---------------------------------------------------------------- whom an id names

  /** Every slot has no id yet, and is free, or an id that carries the slot. */
  ghost predicate IdsOk(s: State) {
    forall e {:trigger s.envs[e]} :: 0 <= e < |s.envs| ==>
      (s.envs[e].id == 0 && s.envs[e].status == Free) || IdOk(s.envs[e].id, e)
  }

  // Ids stay, and a slot in use was in use.
  ghost predicate KeepsIds(s: State, s': State) {
    |s'.envs| == |s.envs| && forall e {:trigger s'.envs[e]} :: 0 <= e < |s.envs| ==>
      s'.envs[e].id == s.envs[e].id && (s'.envs[e].status != Free ==> s.envs[e].status != Free)
  }

  lemma DispatchIds(s: State, c: int, call: Call)
    requires Inv(s) && 0 <= c < |s.cpus| && s.cpus[c].phase == Dispatching && !call.Exofork?
    ensures KeepsIds(s, Dispatch(s, c, call))
  {
    CurStays(s, c);
  }

  lemma KernelIds(s: State, c: int, call: Call)
    requires Inv(s) && 0 <= c < |s.cpus| && s.cpus[c].phase != Dispatching
    ensures KeepsIds(s, Advanced(s, c, call))
  {
    CurStays(s, c);
    if s.cpus[c].phase == Scheduling && Pick(s.envs, s.cpus[c].cur) != NIL {
      PickOther(s, c);
    }
  }

  lemma AllocIds(s: State, parent: int, status: Status)
    requires Inv(s) && IdsOk(s) && s.free != []
    ensures IdsOk(SetEnvStatus(EnvAlloc(s, parent), s.free[0], status)) && IdsOk(EnvAlloc(s, parent))
  {
    NextIdOk(s.envs[s.free[0]].id, s.free[0]);
  }

  /** Every step keeps ids in their slots. */
  lemma NextIds(s: State, step: Step)
    requires Inv(s) && IdsOk(s)
    ensures IdsOk(Next(s, step))
  {
    match step
    case Advance(c, call) =>
      if 0 <= c < |s.cpus| {
        if s.cpus[c].phase != Dispatching {
          KernelIds(s, c, call);
        } else if !call.Exofork? {
          DispatchIds(s, c, call);
        } else {
          if s.free != [] {
            AllocIds(s, CurId(s, c), NotRunnable);
          }
        }
      }
    case Create(c) =>
      if s.free != [] {
        AllocIds(s, 0, Runnable);
      }
    case _ =>
  }

  function CurId(s: State, c: int): int
    requires 0 <= c < |s.cpus|
  {
    if 0 <= s.cpus[c].cur < |s.envs| then s.envs[s.cpus[c].cur].id else 0
  }

  lemma {:induction false} RunIds(s: State, steps: seq<Step>)
    requires Inv(s) && IdsOk(s) && GuardedRun(s, steps)
    ensures IdsOk(Run(s, steps))
    decreases |steps|
  {
    if steps != [] {
      NextIds(s, steps[0]);
      NextKeeps(s, steps[0]);
      RunIds(Next(s, steps[0]), steps[1..]);
    }
  }

  /** So it is in every guarded run from start-up. */
  lemma IdsInPlace(ncpu: nat, boot: int, steps: seq<Step>)
    requires 0 <= boot < ncpu && GuardedRun(Init(ncpu, boot), steps)
    ensures IdsOk(Run(Init(ncpu, boot), steps))
  {
    InitInv(ncpu, boot);
    RunIds(Init(ncpu, boot), steps);
  }

  // The id names environment e: 0 is the caller, any other id the environment in use that has it.
  predicate Names(s: State, c: int, id: int, e: int)
    requires 0 <= c < |s.cpus|
  {
    0 <= e < |s.envs| && if id == 0 then e == s.cpus[c].cur else (s.envs[e].id == id && s.envs[e].status != Free)
  }

  // The caller may change environment e: itself, or a child of its own.
  predicate Controls(s: State, c: int, e: int)
    requires 0 <= c < |s.cpus| && 0 <= s.cpus[c].cur < |s.envs| && 0 <= e < |s.envs|
  {
    e == s.cpus[c].cur || s.envs[e].parent == s.envs[s.cpus[c].cur].id
  }

  /** A call may change e if it names it and the caller controls it (or need not). */
  predicate MayCall(s: State, c: int, id: int, checkperm: bool, e: int)
    requires 0 <= c < |s.cpus| && 0 <= s.cpus[c].cur < |s.envs|
  {
    Names(s, c, id, e) && (checkperm ==> Controls(s, c, e))
  }

  lemma CallerInRange(s: State, c: int)
    requires AtCall(s, c)
    ensures |s.envs| == NENV && 0 <= s.cpus[c].cur < NENV && s.envs[s.cpus[c].cur].status == Running
  {
    AtCallFacts(s, c);
  }

  /** What envid2env finds is the environment that the id names and that the caller may change, and an
      error means there is none. */
  lemma ResolveExact(s: State, c: int, id: int, checkperm: bool, e: int)
    requires AtCall(s, c) && IdsOk(s) && 0 <= e < NENV && 0 <= s.cpus[c].cur < |s.envs|
    ensures Resolve(s, c, id, checkperm) == e <==> MayCall(s, c, id, checkperm, e)
    ensures Resolve(s, c, id, checkperm) == NIL ==> !MayCall(s, c, id, checkperm, e)
  {
    CallerInRange(s, c);
    LookupExact(id, Idents(s.envs), s.cpus[c].cur, checkperm, e);
  }

  // ---------------------------------------------------------------- what a call leaves behind

  // From s to s' environment e becomes env, CPU c goes on as cpu, and nothing else changes but, if it
  // is freed, the free list.
  ghost predicate Becomes(s: State, s': State, c: int, e: int, env: Env, freed: bool, cpu: Cpu)
    requires 0 <= c < |s.cpus| && 0 <= e < |s.envs|
  {
    s' == s.(envs := s.envs[e := env], cpus := s.cpus[c := cpu], free := if freed then [e] + s.free else s.free)
  }

  ghost predicate NothingDone(s: State, s': State, c: int)
    requires 0 <= c < |s.cpus|
  {
    s' == s.(cpus := s.cpus[c := s.cpus[c].(phase := Returning)])
  }

  lemma SameEnv(s: State, e: int)
    requires 0 <= e < |s.envs|
    ensures s.envs[e := s.envs[e]] == s.envs
  {
  }

  /** sys_env_destroy marks an environment that another CPU runs as dying; any other it frees at once,
      the caller itself too, whose CPU then schedules.  It fails exactly if there is none to destroy. */
  lemma DestroyEffect(s: State, c: int, id: int, e: int)
    requires AtCall(s, c) && IdsOk(s) && 0 <= s.cpus[c].cur < |s.envs|
    ensures var s', x, cpu := Dispatch(s, c, Destroy(id)), s.cpus[c].cur, s.cpus[c];
      && (MayCall(s, c, id, true, e) && e == x ==>
            Becomes(s, s', c, e, s.envs[e].(status := Free), true, cpu.(cur := NIL, phase := Scheduling)))
      && (MayCall(s, c, id, true, e) && e != x && s.envs[e].status == Running ==>
            Becomes(s, s', c, e, s.envs[e].(status := Dying), false, cpu.(phase := Returning)))
      && (MayCall(s, c, id, true, e) && e != x && s.envs[e].status != Running ==>
            Becomes(s, s', c, e, s.envs[e].(status := Free), true, cpu.(phase := Returning)))
      && ((forall f :: !MayCall(s, c, id, true, f)) ==> NothingDone(s, s', c))
  {
    CallerInRange(s, c);
    if 0 <= e < NENV {
      ResolveExact(s, c, id, true, e);
    }
    NobodyFound(s, c, id, true);
  }

  lemma NobodyFound(s: State, c: int, id: int, checkperm: bool)
    requires AtCall(s, c) && IdsOk(s) && 0 <= s.cpus[c].cur < |s.envs|
    ensures (forall f :: !MayCall(s, c, id, checkperm, f)) ==> Resolve(s, c, id, checkperm) == NIL
  {
    var f := Resolve(s, c, id, checkperm);
    CallerInRange(s, c);
    if f != NIL {
      ResolveExact(s, c, id, checkperm, f);
    }
  }

  /** sys_env_set_status gives the environment the status asked for, and nothing else; other statuses
      than RUNNABLE and NOT_RUNNABLE are refused. */
  lemma SetStatusEffect(s: State, c: int, id: int, status: Status, e: int)
    requires AtCall(s, c) && IdsOk(s) && 0 <= s.cpus[c].cur < |s.envs|
    ensures var s', cpu, valid := Dispatch(s, c, Call.SetStatus(id, status)), s.cpus[c].(phase := Returning),
        status == Runnable || status == NotRunnable;
      && (MayCall(s, c, id, true, e) && valid ==> Becomes(s, s', c, e, s.envs[e].(status := status), false, cpu))
      && (!valid || (forall f :: !MayCall(s, c, id, true, f)) ==> NothingDone(s, s', c))
  {
    CallerInRange(s, c);
    if 0 <= e < NENV {
      ResolveExact(s, c, id, true, e);
    }
    NobodyFound(s, c, id, true);
  }

  /** sys_env_resume makes another environment RUNNABLE and leaves the caller RUNNING. */
  lemma ResumeEffect(s: State, c: int, id: int, ok: bool, e: int)
    requires AtCall(s, c) && IdsOk(s) && 0 <= s.cpus[c].cur < |s.envs|
    ensures var s', cpu := Dispatch(s, c, Call.Resume(id, ok)), s.cpus[c].(phase := Returning);
      && (MayCall(s, c, id, true, e) && ok ==>
            Becomes(s, s', c, e, s.envs[e].(status := if e == s.cpus[c].cur then Running else Runnable), false, cpu))
      && (!ok || (forall f :: !MayCall(s, c, id, true, f)) ==> NothingDone(s, s', c))
  {
    CallerInRange(s, c);
    if 0 <= e < NENV {
      ResolveExact(s, c, id, true, e);
    }
    NobodyFound(s, c, id, true);
  }

  /** sys_exofork makes a child in the first free slot, NOT_RUNNABLE, with the slot's next id and the
      caller for a parent; it fails exactly without a free slot or memory. */
  lemma ExoforkEffect(s: State, c: int, memory: bool)
    requires AtCall(s, c) && 0 <= s.cpus[c].cur < |s.envs|
    ensures var s', cpu := Dispatch(s, c, Exofork(memory)), s.cpus[c].(phase := Returning);
      && (!memory || (forall f :: 0 <= f < |s.envs| ==> s.envs[f].status != Free) ==> NothingDone(s, s', c))
      && (memory && s.free != [] ==>
            var e := s.free[0];
            && 0 <= e < |s.envs| && s.envs[e].status == Free
            && s'.envs == s.envs[e := s.envs[e].(status := NotRunnable, id := NextId(s.envs[e].id, e),
                 parent := s.envs[s.cpus[c].cur].id)]
            && s'.free == s.free[1..] && s'.cpus == s.cpus[c := cpu] && s'.locked == s.locked && s'.holder == s.holder)
  {
    CallerInRange(s, c);
    assert s.free != [] ==> s.envs[s.free[0]].status == Free;
  }

  /** sys_ipc_recv blocks the caller, with its last message forgotten; with a misaligned address it
      fails. */
  lemma RecvEffect(s: State, c: int, aligned: bool)
    requires AtCall(s, c) && 0 <= s.cpus[c].cur < |s.envs|
    ensures var s', x := Dispatch(s, c, Recv(aligned)), s.cpus[c].cur;
      if aligned then
        Becomes(s, s', c, x, Env(NotRunnable, s.envs[x].id, s.envs[x].parent, true, 0, 0, 0), false,
          s.cpus[c].(phase := Scheduling))
      else NothingDone(s, s', c)
  {
    CallerInRange(s, c);
  }

  /** A trap that is no call destroys the caller; sys_yield goes to the scheduler with the caller as it
      is; any other call just returns. */
  lemma PlainEffect(s: State, c: int)
    requires AtCall(s, c) && 0 <= s.cpus[c].cur < |s.envs|
    ensures var x, cpu := s.cpus[c].cur, s.cpus[c];
      && Becomes(s, Dispatch(s, c, Fault), c, x, s.envs[x].(status := Free), true,
           cpu.(cur := NIL, phase := Scheduling))
      && Dispatch(s, c, Yield) == s.(cpus := s.cpus[c := cpu.(phase := Scheduling)])
      && NothingDone(s, Dispatch(s, c, Call.Simple), c)
  {
    CallerInRange(s, c);
  }

  // The page argument stops a send.
  predicate BadPageArg(page: PageArg) { page == BadPage || page == NoMemory }

  function PermOf(page: PageArg): int {
    match page
    case PageSent(perm) => perm
    case _ => 0
  }

  /** sys_ipc_try_send needs no permission: any environment may send to any other that waits.  The
      receiver becomes RUNNABLE with the sender's id, the value and the page's permissions; the send
      fails exactly if there is no such environment, it is not receiving, or the page is no good. */
  lemma SendEffect(s: State, c: int, to: int, value: int, page: PageArg, e: int)
    requires AtCall(s, c) && IdsOk(s) && 0 <= s.cpus[c].cur < |s.envs|
    ensures var s', x := Dispatch(s, c, Send(to, value, page)), s.cpus[c].cur;
      && (Names(s, c, to, e) && s.envs[e].recving && !BadPageArg(page) ==>
            Becomes(s, s', c, e,
              s.envs[e].(status := Runnable, recving := false, from := s.envs[x].id, value := value,
                perm := PermOf(page)), false, s.cpus[c].(phase := Returning)))
      && ((forall f :: !(Names(s, c, to, f) && s.envs[f].recving)) || BadPageArg(page) ==> NothingDone(s, s', c))
  {
    CallerInRange(s, c);
    if 0 <= e < NENV {
      ResolveExact(s, c, to, false, e);
    }
    var f := Resolve(s, c, to, false);
    if f != NIL {
      ResolveExact(s, c, to, false, f);
    }
  }

  // ---------------------------------------------------------------- scheduling

  // What a switch from curenv x to p does to environment e
  predicate Switched(env: Env, env': Env, e: int, x: int, p: int) {
    env' == if e == p then env.(status := Running)
            else if e == x && env.status == Running then env.(status := Runnable) else env
  }

  /** sched_yield, where an environment can be run: the nearest one is RUNNING on this CPU, which leaves
      the kernel, and curenv, if it was RUNNING and is another, is RUNNABLE. */
  lemma YieldRuns(s: State, c: int)
    requires Inv(s) && 0 <= c < |s.cpus| && s.cpus[c].phase == Scheduling
    ensures var s', x := SchedYield(s, c), s.cpus[c].cur;
      (exists e :: Eligible(s.envs, x, e)) ==>
        var p := s'.cpus[c].cur;
        && Eligible(s.envs, x, p) && (forall e :: Eligible(s.envs, x, e) ==> Ahead(x, p) <= Ahead(x, e))
        && s'.cpus == s.cpus[c := s.cpus[c].(cur := p, phase := Leaving)]
        && s'.free == s.free && s'.locked == s.locked && s'.holder == s.holder && |s'.envs| == |s.envs|
        && forall e {:trigger s'.envs[e]} :: 0 <= e < |s.envs| ==> Switched(s.envs[e], s'.envs[e], e, x, p)
  {
    CurStays(s, c);
    var x := s.cpus[c].cur;
    PickSpec(s.envs, x);
    var p := Pick(s.envs, x);
    if p != NIL {
      PickOther(s, c);
      if p != x {
        EnvRunEnvs(s, c, p);
      }
    }
  }

  /** Where none can, the CPU halts without a curenv, or the monitor is entered if no environment is
      alive. */
  lemma YieldHalts(s: State, c: int)
    requires Inv(s) && 0 <= c < |s.cpus| && s.cpus[c].phase == Scheduling
    requires forall e :: !Eligible(s.envs, s.cpus[c].cur, e)
    ensures var s' := SchedYield(s, c);
      s' == s.(cpus := s.cpus[c := if exists e :: 0 <= e < |s.envs| && s.envs[e].status in {Runnable, Running, Dying}
        then s.cpus[c].(phase := Sleeping, cur := NIL, status := CpuHalted) else s.cpus[c].(phase := Monitor)])
  {
    CurStays(s, c);
    PickSpec(s.envs, s.cpus[c].cur);
    if e :| 0 <= e < |s.envs| && s.envs[e].status in {Runnable, Running, Dying} {
      assert AnyAlive(s.envs);
    }
  }
}
