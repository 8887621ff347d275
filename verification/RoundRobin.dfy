/** Round-robin scheduling over runs of the machine of `Sched`: bounded waiting. */
module RoundRobin {
  import opened EnvIds
  import opened Sched

  predicate IsYield(s: State, step: Step, c: int) {
    step.Advance? && step.c == c && 0 <= c < |s.cpus| && s.cpus[c].phase == Scheduling
  }

  // How often CPU c goes through sched_yield in a run
  ghost function Yields(s: State, steps: seq<Step>, c: int): nat
    decreases |steps|
  {
    if steps == [] then 0
    else (if IsYield(s, steps[0], c) then 1 else 0) + Yields(Next(s, steps[0]), steps[1..], c)
  }

  predicate StillWaiting(s: State, c: int, t: int) {
    0 <= c < |s.cpus| && s.cpus[c].cur != NIL && 0 <= t < |s.envs| && s.envs[t].status == Runnable
  }

  // All along the run CPU c has a curenv, and t is RUNNABLE and not run.
  ghost predicate Unserved(s: State, steps: seq<Step>, c: int, t: int)
    decreases |steps|
  {
    StillWaiting(s, c, t) && (steps != [] ==> Unserved(Next(s, steps[0]), steps[1..], c, t))
  }

  lemma AheadAdds(cur: int, p: int, t: int)
    requires 0 <= cur < NENV && 0 <= p < NENV && 0 <= t < NENV && t != cur && p != t && Ahead(cur, p) <= Ahead(cur, t)
    ensures Ahead(p, t) == Ahead(cur, t) - Ahead(cur, p) < Ahead(cur, t)
  {
  }

  /** A yield that does not run t brings the CPU strictly closer to t. */
  lemma YieldCloser(s: State, step: Step, c: int, t: int)
    requires Inv(s) && IsYield(s, step, c) && StillWaiting(s, c, t) && StillWaiting(Next(s, step), c, t)
    ensures Ahead(Next(s, step).cpus[c].cur, t) < Ahead(s.cpus[c].cur, t)
  {
    CurStays(s, c);
    var cur, p := s.cpus[c].cur, Pick(s.envs, s.cpus[c].cur);
    PickSpec(s.envs, cur);
    assert Eligible(s.envs, cur, t);
    PickOther(s, c);
    if t != cur {
      AheadAdds(cur, p, t);
    }
  }

  lemma OwnStep(s: State, c: int, call: Call)
    requires 0 <= c < |s.cpus| && s.cpus[c].phase != Scheduling && s.cpus[c].phase != Dispatching
    ensures |Advanced(s, c, call).cpus| == |s.cpus|
    ensures Advanced(s, c, call).cpus[c].cur == s.cpus[c].cur || Advanced(s, c, call).cpus[c].cur == NIL
  {
  }

  lemma OwnCall(s: State, c: int, call: Call)
    requires 0 <= c < |s.cpus| && s.cpus[c].phase == Dispatching
    ensures |Dispatch(s, c, call).cpus| == |s.cpus|
    ensures Dispatch(s, c, call).cpus[c].cur == s.cpus[c].cur || Dispatch(s, c, call).cpus[c].cur == NIL
  {
  }

  // No CPU but a booting one touches another.
  lemma OthersCall(s: State, d: int, call: Call, c: int)
    requires 0 <= c < |s.cpus| && 0 <= d < |s.cpus| && c != d
    ensures |Dispatch(s, d, call).cpus| == |s.cpus| && Dispatch(s, d, call).cpus[c] == s.cpus[c]
  {
    match call
    case Fault =>
    case Destroy(_) =>
    case _ =>
  }

  lemma OthersYield(s: State, d: int, c: int)
    requires 0 <= c < |s.cpus| && 0 <= d < |s.cpus| && c != d
    ensures |SchedYield(s, d).cpus| == |s.cpus| && SchedYield(s, d).cpus[c] == s.cpus[c]
  {
  }

  lemma OthersStep(s: State, d: int, call: Call, c: int)
    requires 0 <= c < |s.cpus| && 0 <= d < |s.cpus| && c != d
    ensures |Advanced(s, d, call).cpus| == |s.cpus| && Advanced(s, d, call).cpus[c] == s.cpus[c]
  {
    match s.cpus[d].phase
    case Dispatching => OthersCall(s, d, call, c);
    case Scheduling => OthersYield(s, d, c);
    case _ =>
  }

  // Any other step leaves c's curenv alone, or takes it away.
  lemma OtherStep(s: State, step: Step, c: int, t: int)
    requires Inv(s) && !IsYield(s, step, c) && StillWaiting(s, c, t) && StillWaiting(Next(s, step), c, t)
    ensures Next(s, step).cpus[c].cur == s.cpus[c].cur
  {
    assert PhaseOk(s.cpus[c]);
    if step.Advance? && step.c == c {
      if s.cpus[c].phase == Dispatching {
        OwnCall(s, c, step.call);
      } else {
        OwnStep(s, c, step.call);
      }
    } else if step.Advance? && 0 <= step.c < |s.cpus| {
      OthersStep(s, step.c, step.call, c);
    }
  }

  /** Waiting is bounded: while t stays RUNNABLE, CPU c can go through sched_yield fewer times than
      t is places ahead of its curenv without running t; so at most NENV - 1 times. */
  lemma {:induction false} BoundedWait(s: State, steps: seq<Step>, c: int, t: int)
    requires Inv(s) && GuardedRun(s, steps) && Unserved(s, steps, c, t)
    ensures Yields(s, steps, c) < Ahead(s.cpus[c].cur, t) <= NENV
    decreases |steps|
  {
    CurStays(s, c);
    if steps != [] {
      var s1 := Next(s, steps[0]);
      NextKeeps(s, steps[0]);
      BoundedWait(s1, steps[1..], c, t);
      if IsYield(s, steps[0], c) {
        YieldCloser(s, steps[0], c, t);
      } else {
        OtherStep(s, steps[0], c, t);
      }
    }
  }
}
