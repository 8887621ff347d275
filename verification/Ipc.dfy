/** IPC over runs of the machine of `Sched`: a blocked receiver gets exactly one message. */
module Ipc {
  import opened EnvIds
  import opened Sched
  import opened Smp
  import opened Effects

  // Blocked in sys_ipc_recv
  predicate Blocked(s: State, e: int) {
    0 <= e < |s.envs| && s.envs[e].recving && s.envs[e].status == NotRunnable
  }

  datatype Mail = Mail(from: int, value: int, perm: int)

  predicate Delivered(s: State, e: int, mail: Mail) {
    && 0 <= e < |s.envs| && !s.envs[e].recving
    && Mail(s.envs[e].from, s.envs[e].value, s.envs[e].perm) == mail
  }

  // Is step a sys_ipc_try_send that names e, which is receiving, and with no page or a good one?
  predicate SendsTo(s: State, step: Step, e: int) {
    && step.Advance? && step.call.Send? && 0 <= step.c < |s.cpus| && s.cpus[step.c].phase == Dispatching
    && 0 <= s.cpus[step.c].cur < |s.envs|
    && Names(s, step.c, step.call.to, e) && s.envs[e].recving && !BadPageArg(step.call.page)
  }

  // What such a step sends
  function Sent(s: State, step: Step, e: int): Mail
    requires SendsTo(s, step, e)
  {
    Mail(s.envs[s.cpus[step.c].cur].id, step.call.value, PermOf(step.call.page))
  }

  // The messages that reach e in a run
  ghost function Inbox(s: State, steps: seq<Step>, e: int): seq<Mail>
    decreases |steps|
  {
    if steps == [] then []
    else (if SendsTo(s, steps[0], e) then [Sent(s, steps[0], e)] else []) + Inbox(Next(s, steps[0]), steps[1..], e)
  }

  // e does not run before any of the steps, and is not destroyed.
  ghost predicate Parked(s: State, steps: seq<Step>, e: int)
    decreases |steps|
  {
    && 0 <= e < |s.envs| && s.envs[e].status != Free
    && (steps != [] ==> s.envs[e].status != Running && Parked(Next(s, steps[0]), steps[1..], e))
  }

  // An environment that is not running and not free is no CPU's curenv while c dispatches a call.
  lemma NotCurrent(s: State, c: int, e: int)
    requires Inv(s) && 0 <= c < |s.cpus| && s.cpus[c].phase in {Dispatching, Entered} && 0 <= e < |s.envs|
      && !Active(s.envs[e].status)
    ensures s.cpus[c].cur != e
  {
    assert CurOk(s, c);
  }

  lemma WaitingCall(s: State, c: int, call: Call, e: int)
    requires Inv(s) && IdsOk(s) && Blocked(s, e) && 0 <= c < |s.cpus| && s.cpus[c].phase == Dispatching
      && GuardedCall(s, c, call)
    requires Dispatch(s, c, call).envs[e].status != Free
    ensures var s', step := Dispatch(s, c, call), Advance(c, call);
      if SendsTo(s, step, e) then Delivered(s', e, Sent(s, step, e)) && s'.envs[e].status == Runnable
      else s'.envs[e] == s.envs[e]
  {
    NotCurrent(s, c, e);
    CurStays(s, c);
    if call.Send? && s.cpus[c].cur != NIL {
      SendHits(s, c, call, e);
    }
  }

  // A send finds e exactly if it names it.
  lemma SendHits(s: State, c: int, call: Call, e: int)
    requires AtCall(s, c) && IdsOk(s) && call.Send? && 0 <= e < |s.envs|
    ensures SendTarget(s, c, call.to, call.page) == e <==> SendsTo(s, Advance(c, call), e)
  {
    CallerInRange(s, c);
    ResolveExact(s, c, call.to, false, e);
  }

  // Code that does not touch envs[]
  lemma QuietAdvance(s: State, c: int, call: Call)
    requires 0 <= c < |s.cpus| && s.cpus[c].phase !in {Dispatching, Scheduling, Entered, Returning}
    ensures Advanced(s, c, call).envs == s.envs
  {
  }

  lemma WaitingKernel(s: State, c: int, call: Call, e: int)
    requires Inv(s) && Blocked(s, e) && 0 <= c < |s.cpus| && s.cpus[c].phase in {Scheduling, Entered, Returning}
    ensures var s' := Advanced(s, c, call); |s'.envs| == |s.envs| && s'.envs[e] == s.envs[e]
  {
    CurStays(s, c);
    match s.cpus[c].phase
    case Scheduling => PickSpec(s.envs, s.cpus[c].cur);
    case Entered => NotCurrent(s, c, e);
    case _ =>
  }

  lemma WaitingAdvance(s: State, c: int, call: Call, e: int)
    requires Inv(s) && IdsOk(s) && Blocked(s, e) && 0 <= c < |s.cpus| && Guarded(s, Advance(c, call))
    requires e < |Advanced(s, c, call).envs| && Advanced(s, c, call).envs[e].status != Free
    ensures var s', step := Advanced(s, c, call), Advance(c, call);
      |s'.envs| == |s.envs| && if SendsTo(s, step, e) then Delivered(s', e, Sent(s, step, e))
        && s'.envs[e].status == Runnable
      else s'.envs[e] == s.envs[e]
  {
    if s.cpus[c].phase == Dispatching {
      WaitingCall(s, c, call, e);
      DispatchSize(s, c, call);
    } else if s.cpus[c].phase in {Scheduling, Entered, Returning} {
      WaitingKernel(s, c, call, e);
    } else {
      QuietAdvance(s, c, call);
    }
  }

  lemma DispatchSize(s: State, c: int, call: Call)
    requires 0 <= c < |s.cpus|
    ensures |Dispatch(s, c, call).envs| == |s.envs|
  {
  }

  /** While e waits, a step that does not destroy it either delivers a message to it and makes it
      runnable, or leaves it entirely alone; in particular a send that fails does. */
  lemma WaitingStep(s: State, step: Step, e: int)
    requires Inv(s) && IdsOk(s) && Guarded(s, step) && Blocked(s, e)
    requires e < |Next(s, step).envs| && Next(s, step).envs[e].status != Free
    ensures var s' := Next(s, step);
      |s'.envs| == |s.envs| && if SendsTo(s, step, e) then Delivered(s', e, Sent(s, step, e))
        && s'.envs[e].status == Runnable
      else s'.envs[e] == s.envs[e]
  {
    match step
    case Advance(c, call) =>
      if 0 <= c < |s.cpus| {
        WaitingAdvance(s, c, call, e);
      }
    case _ =>
  }

  lemma DeliveredCall(s: State, c: int, call: Call, e: int, mail: Mail)
    requires Inv(s) && IdsOk(s) && Delivered(s, e, mail) && !Active(s.envs[e].status) && s.envs[e].status != Free
    requires 0 <= c < |s.cpus| && s.cpus[c].phase == Dispatching && GuardedCall(s, c, call)
    ensures Delivered(Dispatch(s, c, call), e, mail) && !SendsTo(s, Advance(c, call), e)
      && Dispatch(s, c, call).envs[e].status != Dying
  {
    NotCurrent(s, c, e);
    CurStays(s, c);
    if call.Send? && s.cpus[c].cur != NIL {
      SendHits(s, c, call, e);
    }
  }

  lemma DeliveredAdvance(s: State, c: int, call: Call, e: int, mail: Mail)
    requires Inv(s) && Delivered(s, e, mail) && !Active(s.envs[e].status) && s.envs[e].status != Free
    requires 0 <= c < |s.cpus| && s.cpus[c].phase != Dispatching
    ensures Delivered(Advanced(s, c, call), e, mail) && Advanced(s, c, call).envs[e].status != Dying
  {
    CurStays(s, c);
    if s.cpus[c].phase == Entered {
      NotCurrent(s, c, e);
    }
  }

  lemma DeliveredStep(s: State, step: Step, e: int, mail: Mail)
    requires Inv(s) && IdsOk(s) && Guarded(s, step) && Delivered(s, e, mail) && !Active(s.envs[e].status)
      && s.envs[e].status != Free
    ensures Delivered(Next(s, step), e, mail) && !SendsTo(s, step, e)
    ensures Next(s, step).envs[e].status != Dying
  {
    if step.Advance? && 0 <= step.c < |s.cpus| {
      if s.cpus[step.c].phase == Dispatching {
        DeliveredCall(s, step.c, step.call, e, mail);
      } else {
        DeliveredAdvance(s, step.c, step.call, e, mail);
      }
    }
  }

  // From delivery on nothing more arrives.
  lemma {:induction false} DeliveredRun(s: State, steps: seq<Step>, e: int, mail: Mail)
    requires Inv(s) && IdsOk(s) && GuardedRun(s, steps) && Delivered(s, e, mail) && s.envs[e].status != Dying
      && Parked(s, steps, e)
    ensures Delivered(Run(s, steps), e, mail) && Inbox(s, steps, e) == []
    decreases |steps|
  {
    if steps != [] {
      DeliveredStep(s, steps[0], e, mail);
      NextKeeps(s, steps[0]);
      NextIds(s, steps[0]);
      DeliveredRun(Next(s, steps[0]), steps[1..], e, mail);
    }
  }

  /** IPC delivery is exactly once.  From a state in which e is blocked in sys_ipc_recv, until e runs
      again (and is not destroyed): no message has arrived and e waits untouched, or exactly one has,
      and e holds its sender's id, its value and its permissions.  When e runs, one has. */
  lemma {:induction false} ExactlyOnce(s: State, steps: seq<Step>, e: int)
    requires Inv(s) && IdsOk(s) && GuardedRun(s, steps) && Blocked(s, e) && Parked(s, steps, e)
    ensures var s', inbox := Run(s, steps), Inbox(s, steps, e);
      && Inv(s')
      && (inbox == [] ==> s'.envs[e] == s.envs[e])
      && (inbox != [] ==> |inbox| == 1 && Delivered(s', e, inbox[0]))
      && (s'.envs[e].status == Running ==> |inbox| == 1)
    decreases |steps|
  {
    RunKeeps(s, steps);
    if steps != [] {
      WaitingStep(s, steps[0], e);
      NextKeeps(s, steps[0]);
      NextIds(s, steps[0]);
      var s1 := Next(s, steps[0]);
      if SendsTo(s, steps[0], e) {
        DeliveredRun(s1, steps[1..], e, Sent(s, steps[0], e));
        assert Inbox(s, steps, e) == [Sent(s, steps[0], e)] + [];
      } else {
        ExactlyOnce(s1, steps[1..], e);
        assert Inbox(s, steps, e) == [] + Inbox(s1, steps[1..], e) == Inbox(s1, steps[1..], e);
      }
    }
  }
}
