/** Copy-on-write refines eager copying: over every run of forks, loads and stores by any number of
    environments, interleaved between any two duppage calls, every load returns what it would if fork
    copied every page at once. */
module Refine {
  import opened Mmu
  import opened Phys
  import opened Vm
  import opened Syscalls
  import opened EnvVm
  import opened Cow

  // Operations of environment e: the next step of fork(), and accesses to word k of page v of its
  // image or stack
  datatype Op = Fork(e: int) | Load(e: int, v: int, k: int) | Store(e: int, v: int, k: int, x: int)

  // Refused: a call failed for want of memory or of valid permissions, or e cannot act; Fault: the
  // access is not allowed; Going: a step of fork other than the one at which fork takes effect
  datatype Out = Value(x: int) | Done | Fault | Refused | Going

  // Steps that are none of the eager machine
  predicate Silent(out: Out) { out == Refused || out == Going }

  // ---------------------------------------------------------------- the eager machine

  type Space = map<int, Page>

  // Every environment owns its pages outright, and fork copies them all.
  ghost function EagerStep(es: seq<Space>, op: Op): (seq<Space>, Out) {
    if !(0 <= op.e < |es|) then (es, Fault)
    else
      var pages := es[op.e];
      match op
      case Fork(e) => (es + [pages], Done)
      case Load(e, v, k) => if v in pages then (es, Value(At(pages[v].content, k))) else (es, Fault)
      case Store(e, v, k, x) =>
        if v in pages && pages[v].writable then
          (es[e := pages[v := Page(Upd(pages[v].content, k, x), true)]], Done)
        else (es, Fault)
  }

  // ---------------------------------------------------------------- the machine as it is

  /** How far an environment is in fork(): the page-fault handler is set; the child has address space
      cd and the pages below `next`; the child, environment c, has all pages; it has an exception
      stack too. */
  datatype Progress = Idle | Handled | Copying(cd: int, next: int) | Mapped(c: int) | Ready(c: int)

  /** An environment: its page directory, whether it has set its page-fault handler and so has an
      exception stack, whether it has been started, and its fork. */
  datatype Proc = Proc(dir: int, handler: bool, started: bool, fork: Progress)

  // halted: the kernel has stopped
  datatype World = World(m: Mem, procs: seq<Proc>, halted: bool)

  ghost function SetFork(w: World, e: int, fork: Progress): World
    requires 0 <= e < |w.procs|
  {
    w.(procs := w.procs[e := w.procs[e].(fork := fork)])
  }

  // A call of fork's has failed.  The half-built child is left behind, not runnable.
  ghost function Failed(w: World, e: int, m: Mem, rc: Rc): (World, Out)
    requires 0 <= e < |w.procs|
  {
    (SetFork(w, e, Idle).(m := m, halted := rc == Halt), Refused)
  }

  // set_pgfault_handler allocates the exception stack the first time.
  ghost function HandlerStep(w: World, e: int): (World, Out)
    requires 0 <= e < |w.procs|
  {
    var p := w.procs[e];
    if p.handler then (SetFork(w, e, Handled), Going)
    else
      var (m1, rc) := SysPageAlloc(w.m, p.dir, UXSTACK_PN, PERM_RW);
      if rc != Ok then Failed(w, e, m1, rc)
      else (w.(m := m1, procs := w.procs[e := p.(handler := true, fork := Handled)]), Going)
  }

  // sys_exofork
  ghost function ExoforkStep(w: World, e: int, kern: Frame): (World, Out)
    requires 0 <= e < |w.procs|
  {
    if w.m.free == [] then Failed(w, e, w.m, NoMem)
    else (SetFork(w, e, Copying(w.m.free[0], UTEXT_PN)).(m := SetupVm(w.m, kern).0), Going)
  }

  // One turn of fork's loop
  ghost function PageStep(w: World, e: int, cd: int, next: int): (World, Out)
    requires 0 <= e < |w.procs|
  {
    var (m1, rc) := DupMapped(w.m, w.procs[e].dir, cd, next);
    if rc != Ok then Failed(w, e, m1, rc) else (SetFork(w, e, Copying(cd, next + 1)).(m := m1), Going)
  }

  // duppage of the stack: the step at which fork takes effect.  The child is not started yet.
  ghost function StackStep(w: World, e: int, cd: int): (World, Out)
    requires 0 <= e < |w.procs|
  {
    var (m1, rc) := Dup(w.m, w.procs[e].dir, cd, USTACK_PN);
    if rc != Ok then Failed(w, e, m1, rc)
    else
      var w1 := SetFork(w, e, Mapped(|w.procs|));
      (World(m1, w1.procs + [Proc(cd, true, false, Idle)], w.halted), Done)
  }

  // sys_page_alloc of the child's exception stack
  ghost function XStackStep(w: World, e: int, c: int): (World, Out)
    requires 0 <= e < |w.procs| && 0 <= c < |w.procs|
  {
    var (m1, rc) := SysPageAlloc(w.m, w.procs[c].dir, UXSTACK_PN, PERM_RW);
    if rc != Ok then Failed(w, e, m1, rc) else (SetFork(w, e, Ready(c)).(m := m1), Going)
  }

  // sys_env_set_pgfault_upcall and sys_env_set_status
  ghost function StartStep(w: World, e: int, c: int): (World, Out)
    requires 0 <= e < |w.procs| && 0 <= c < |w.procs|
  {
    var w1 := SetFork(w, e, Idle);
    (w1.(procs := w1.procs[c := w1.procs[c].(started := true)]), Going)
  }

  /** The next step of fork() by environment e: one of its calls of the kernel, or one duppage. */
  ghost function ForkStep(w: World, e: int, kern: Frame, last: int): (World, Out)
    requires 0 <= e < |w.procs|
  {
    match w.procs[e].fork
    case Idle => HandlerStep(w, e)
    case Handled => ExoforkStep(w, e, kern)
    case Copying(cd, next) => if next < last then PageStep(w, e, cd, next) else StackStep(w, e, cd)
    case Mapped(c) => if 0 <= c < |w.procs| then XStackStep(w, e, c) else (w, Refused)
    case Ready(c) => if 0 <= c < |w.procs| then StartStep(w, e, c) else (w, Refused)
  }

  // A store by a program: through the mapping, or through pgfault first if the page is
  // copy-on-write.  Without an exception stack the kernel destroys the environment instead.
  ghost function StoreStep(m: Mem, d: int, v: int, k: int, x: int): (Mem, Rc) {
    var t := Xlate(m.tree, d, v);
    if W(t) then (Cow.Store(m, d, v, k, x), Ok)
    else if !Present(Xlate(m.tree, d, UXSTACK_PN)) then (m, Inval)
    else
      var (m1, rc) := PgFault(m, d, v);
      if rc != Ok then (m1, rc) else (Cow.Store(m1, d, v, k, x), Ok)
  }

  // A page of the image that a fork under way has copied already.  fork's own code stores to
  // nothing but its stack, which is copied last; see StoreToCopied.
  predicate CopiedAlready(fork: Progress, v: int) { fork.Copying? && UTEXT_PN <= v < fork.next }

  ghost function Step(w: World, op: Op, kern: Frame, last: int): (World, Out) {
    if w.halted then (w, Refused)
    else if !(0 <= op.e < |w.procs|) then (w, Fault)
    else if !w.procs[op.e].started then (w, Refused)
    else
      var d := w.procs[op.e].dir;
      match op
      case Fork(e) => ForkStep(w, e, kern, last)
      case Load(e, v, k) =>
        var t := Xlate(w.m.tree, d, v);
        if Image(v, last) && Present(t) && U(t) then (w, Value(At(Content(w.m.tree, PteFrame(t)), k)))
        else (w, Fault)
      case Store(e, v, k, x) =>
        var t := Xlate(w.m.tree, d, v);
        if CopiedAlready(w.procs[e].fork, v) then (w, Refused)
        else if Image(v, last) && Present(t) && U(t) && (W(t) || C(t)) then
          var (m', rc) := StoreStep(w.m, d, v, k, x);
          (w.(m := m', halted := rc == Halt), if rc == Ok then Done else Refused)
        else (w, Fault)
  }

  // ---------------------------------------------------------------- the invariant and the abstraction

  ghost predicate Stacked(t: Tree, p: Proc) {
    && (p.handler ==> Present(Xlate(t, p.dir, UXSTACK_PN)))
    && (!p.handler ==> forall v {:trigger Xlate(t, p.dir, v)} ::
          PnOk(v) && Present(Xlate(t, p.dir, v)) ==> !C(Xlate(t, p.dir, v)))
  }

  // The child's address space cd has nothing at the pages still to be copied, and shows at the
  // others what the parent's shows.
  ghost predicate HalfCopied(t: Tree, pd: int, cd: int, next: int, last: int) {
    && Unmapped(t, cd, next, last)
    && forall v {:trigger View(t, cd, v)} :: UTEXT_PN <= v < next ==> View(t, cd, v) == View(t, pd, v)
  }

  // Environment c is not started and does nothing.
  ghost predicate Unborn(procs: seq<Proc>, c: int) {
    0 <= c < |procs| && !procs[c].started && procs[c].fork == Idle && procs[c].handler
  }

  ghost predicate NoProc(procs: seq<Proc>, cd: int) {
    forall f :: 0 <= f < |procs| ==> procs[f].dir != cd
  }

  ghost predicate ForkOk(t: Tree, procs: seq<Proc>, p: Proc, last: int) {
    match p.fork
    case Idle => true
    case Handled => p.handler
    case Copying(cd, next) =>
      p.handler && cd in t.dirs && NoProc(procs, cd) && UTEXT_PN <= next <= last && HalfCopied(t, p.dir, cd, next, last)
    case Mapped(c) => p.handler && Unborn(procs, c)
    case Ready(c) => p.handler && Unborn(procs, c) && Present(Xlate(t, procs[c].dir, UXSTACK_PN))
  }

  ghost predicate ProcOk(t: Tree, procs: seq<Proc>, e: int, last: int)
    requires 0 <= e < |procs|
  {
    (procs[e].started ==> Stacked(t, procs[e])) && ForkOk(t, procs, procs[e], last)
  }

  // The environment that a fork has made, or -1
  function ChildOf(fork: Progress): int {
    match fork
    case Mapped(c) => c
    case Ready(c) => c
    case _ => -1
  }

  // No two forks build the same child.
  ghost predicate ForksApart(p: Proc, q: Proc) {
    && (p.fork.Copying? && q.fork.Copying? ==> p.fork.cd != q.fork.cd)
    && (ChildOf(p.fork) >= 0 ==> ChildOf(p.fork) != ChildOf(q.fork))
  }

  ghost predicate DirsOk(t: Tree, procs: seq<Proc>) {
    && (forall e :: 0 <= e < |procs| ==> procs[e].dir in t.dirs)
    && (forall e, f :: 0 <= e < f < |procs| ==> procs[e].dir != procs[f].dir)
  }

  ghost predicate ProcsOk(t: Tree, procs: seq<Proc>, last: int) {
    && (forall e :: 0 <= e < |procs| ==> ProcOk(t, procs, e, last))
    && (forall e, f :: 0 <= e < |procs| && 0 <= f < |procs| && e != f ==> ForksApart(procs[e], procs[f]))
  }

  ghost predicate WorldOk(w: World, last: int) {
    && Inv(w.m) && DirsOk(w.m.tree, w.procs)
    && (!w.halted ==> CowOk(w.m.tree) && ProcsOk(w.m.tree, w.procs, last))
  }

  // What the environment with directory d sees of its image and stack
  ghost function AbsSpace(t: Tree, d: int, last: int): Space {
    map v | 0 <= v < UTOP_PN && Image(v, last) && View(t, d, v).Some? :: View(t, d, v).value
  }

  ghost function Abs(w: World, last: int): (es: seq<Space>)
    ensures |es| == |w.procs|
  {
    seq(|w.procs|, e requires 0 <= e < |w.procs| => AbsSpace(w.m.tree, w.procs[e].dir, last))
  }

  lemma SameAbsSpace(t: Tree, t': Tree, d: int, last: int)
    requires d in t.dirs && last <= USTACK_PN
    requires forall v {:trigger View(t', d, v)} :: PnOk(v) && Image(v, last) ==> View(t', d, v) == View(t, d, v)
    ensures AbsSpace(t', d, last) == AbsSpace(t, d, last)
  {
    forall v | 0 <= v < UTOP_PN && Image(v, last) ensures View(t', d, v) == View(t, d, v) {
    }
  }

  // The same environments, or more of them, see what they saw.
  ghost predicate KeepsAbs(w: World, w': World, last: int) {
    && |w.procs| <= |w'.procs| && (forall e :: 0 <= e < |w.procs| ==> w'.procs[e].dir == w.procs[e].dir)
    && forall d, v {:trigger View(w'.m.tree, d, v)} :: (UserPage(w.m.tree, d, v) && Image(v, last)
      && !NoProc(w.procs, d)) ==>
         View(w'.m.tree, d, v) == View(w.m.tree, d, v)
  }

  lemma SameAbs(w: World, w': World, last: int)
    requires DirsOk(w.m.tree, w.procs) && UTEXT_PN <= last <= USTACK_PN && KeepsAbs(w, w', last)
    ensures Abs(w', last)[..|w.procs|] == Abs(w, last)
  {
    forall e | 0 <= e < |w.procs|
      ensures AbsSpace(w'.m.tree, w.procs[e].dir, last) == AbsSpace(w.m.tree, w.procs[e].dir, last)
    {
      SameAbsSpace(w.m.tree, w'.m.tree, w.procs[e].dir, last);
    }
  }

  // ---------------------------------------------------------------- what a step leaves alone

  // Only the address spaces d and cd may change.
  ghost predicate OnlySpaces(t: Tree, t': Tree, d: int, cd: int) {
    && t.dirs <= t'.dirs
    && (forall d', v {:trigger Xlate(t', d', v)} :: UserPage(t, d', v) && d' != d && d' != cd ==>
          Xlate(t', d', v) == Xlate(t, d', v))
    && (forall d', v {:trigger View(t', d', v)} :: UserPage(t, d', v) && d' != d && d' != cd ==>
          View(t', d', v) == View(t, d', v))
  }

  // Environment f and what its fork builds keep away from d and cd.
  ghost predicate AwayFrom(procs: seq<Proc>, f: int, d: int, cd: int)
    requires 0 <= f < |procs|
  {
    var p := procs[f];
    && p.dir != d && p.dir != cd && (p.fork.Copying? ==> p.fork.cd != d && p.fork.cd != cd)
    && (p.fork.Ready? && 0 <= p.fork.c < |procs| ==> procs[p.fork.c].dir != d && procs[p.fork.c].dir != cd)
  }

  // Nothing in procs' bears on environment f differently.
  ghost predicate SameFor(procs: seq<Proc>, procs': seq<Proc>, f: int)
    requires 0 <= f < |procs|
  {
    var c := ChildOf(procs[f].fork);
    && |procs| <= |procs'| && procs'[f] == procs[f] && (0 <= c < |procs| ==> procs'[c] == procs[c])
    && (procs[f].fork.Copying? ==> NoProc(procs', procs[f].fork.cd))
  }

  lemma StackedKept(t: Tree, t': Tree, p: Proc)
    requires Stacked(t, p) && p.dir in t.dirs
    requires forall v {:trigger Xlate(t', p.dir, v)} :: PnOk(v) ==> Xlate(t', p.dir, v) == Xlate(t, p.dir, v)
    ensures Stacked(t', p)
  {
  }

  lemma OtherProc(t: Tree, t': Tree, procs: seq<Proc>, procs': seq<Proc>, f: int, d: int, cd: int, last: int)
    requires UTEXT_PN <= last <= USTACK_PN && DirsOk(t, procs) && 0 <= f < |procs| && ProcOk(t, procs, f, last)
    requires OnlySpaces(t, t', d, cd) && AwayFrom(procs, f, d, cd) && SameFor(procs, procs', f)
    ensures ProcOk(t', procs', f, last)
  {
    var p := procs[f];
    forall v | PnOk(v) ensures Xlate(t', p.dir, v) == Xlate(t, p.dir, v) {
      assert UserPage(t, p.dir, v);
    }
    if p.started {
      StackedKept(t, t', p);
    }
    match p.fork
    case Copying(cd', next) => OtherHalfCopied(t, t', p.dir, cd', next, d, cd, last);
    case Ready(c) => assert UserPage(t, procs[c].dir, UXSTACK_PN);
    case _ =>
  }

  lemma OtherHalfCopied(t: Tree, t': Tree, pd: int, cd': int, next: int, d: int, cd: int, last: int)
    requires HalfCopied(t, pd, cd', next, last) && UTEXT_PN <= next <= last <= USTACK_PN && pd in t.dirs
      && cd' in t.dirs
    requires OnlySpaces(t, t', d, cd) && pd != d && pd != cd && cd' != d && cd' != cd
    ensures HalfCopied(t', pd, cd', next, last)
  {
    forall v | next <= v < last ensures !Present(Xlate(t', cd', v)) {
      assert UserPage(t, cd', v);
    }
    forall v | UTEXT_PN <= v < next ensures View(t', cd', v) == View(t', pd, v) {
      assert UserPage(t, cd', v) && UserPage(t, pd, v);
      assert View(t, cd', v) == View(t, pd, v);
    }
  }

  // cd is what environment e's step may change beside its own space: nothing, or its child's space.
  ghost predicate OwnSpace(procs: seq<Proc>, e: int, cd: int)
    requires 0 <= e < |procs|
  {
    var p := procs[e];
    cd == p.dir || (p.fork.Copying? && cd == p.fork.cd)
      || (0 <= ChildOf(p.fork) < |procs| && cd == procs[ChildOf(p.fork)].dir)
  }

  lemma AwayOthers(w: World, e: int, cd: int, f: int, last: int)
    requires WorldOk(w, last) && !w.halted && 0 <= e < |w.procs| && w.procs[e].started && OwnSpace(w.procs, e, cd)
    requires 0 <= f < |w.procs| && f != e && f != ChildOf(w.procs[e].fork)
    ensures AwayFrom(w.procs, f, w.procs[e].dir, cd) && ProcOk(w.m.tree, w.procs, f, last)
  {
    assert ProcOk(w.m.tree, w.procs, e, last) && ProcOk(w.m.tree, w.procs, f, last);
    assert ForksApart(w.procs[e], w.procs[f]) && ForksApart(w.procs[f], w.procs[e]);
  }

  /** What a step of environment e does to the environments: it moves e on, may start e's child, may
      add a new environment with address space cd; and no two forks get the same child. */
  ghost predicate Moves(procs: seq<Proc>, procs': seq<Proc>, e: int, cd: int)
    requires 0 <= e < |procs|
  {
    && |procs| <= |procs'| <= |procs| + 1 && procs'[e].dir == procs[e].dir
    && (forall f :: 0 <= f < |procs| && f != e && f != ChildOf(procs[e].fork) ==> procs'[f] == procs[f])
    && (forall f :: 0 <= f < |procs| && f == ChildOf(procs[e].fork) && f != e ==>
          procs'[f] == procs[f] || procs'[f] == procs[f].(started := true))
    && (|procs'| > |procs| ==> (procs[e].fork.Copying? && cd == procs[e].fork.cd
      && procs'[|procs|] == Proc(cd, true, false, Idle)))
    && (forall f :: 0 <= f < |procs'| && f != e ==> ForksApart(procs'[e], procs'[f]))
  }

  lemma SameForOthers(w: World, procs': seq<Proc>, e: int, cd: int, f: int, last: int)
    requires WorldOk(w, last) && !w.halted && 0 <= e < |w.procs| && w.procs[e].started && Moves(w.procs, procs', e, cd)
    requires 0 <= f < |w.procs| && f != e && f != ChildOf(w.procs[e].fork)
    ensures SameFor(w.procs, procs', f)
  {
    assert ProcOk(w.m.tree, w.procs, e, last) && ProcOk(w.m.tree, w.procs, f, last);
    assert ForksApart(w.procs[e], w.procs[f]) && ForksApart(w.procs[f], w.procs[e]);
  }

  lemma MovedDirs(w: World, t': Tree, procs': seq<Proc>, e: int, cd: int, last: int)
    requires WorldOk(w, last) && !w.halted && 0 <= e < |w.procs| && w.procs[e].started && Moves(w.procs, procs', e, cd)
    requires w.m.tree.dirs <= t'.dirs
    ensures DirsOk(t', procs')
    ensures forall f :: 0 <= f < |w.procs| ==> procs'[f].dir == w.procs[f].dir
  {
    assert ProcOk(w.m.tree, w.procs, e, last);
  }

  // The child of e's fork, before and after
  lemma ChildKept(w: World, t': Tree, procs': seq<Proc>, e: int, cd: int, last: int)
    requires WorldOk(w, last) && !w.halted && 0 <= e < |w.procs| && w.procs[e].started && Moves(w.procs, procs', e, cd)
    requires 0 <= ChildOf(w.procs[e].fork) < |w.procs|
    requires procs'[ChildOf(w.procs[e].fork)].started ==> Stacked(t', procs'[ChildOf(w.procs[e].fork)])
    ensures ChildOf(w.procs[e].fork) != e && ProcOk(t', procs', ChildOf(w.procs[e].fork), last)
  {
    assert ProcOk(w.m.tree, w.procs, e, last);
  }

  lemma ForksKept(w: World, procs': seq<Proc>, e: int, cd: int, last: int)
    requires WorldOk(w, last) && !w.halted && 0 <= e < |w.procs| && w.procs[e].started && Moves(w.procs, procs', e, cd)
    ensures forall f, g :: 0 <= f < |procs'| && 0 <= g < |procs'| && f != g ==> ForksApart(procs'[f], procs'[g])
  {
    assert ProcOk(w.m.tree, w.procs, e, last);
    forall f, g | 0 <= f < |procs'| && 0 <= g < |procs'| && f != g ensures ForksApart(procs'[f], procs'[g]) {
      if f == e {
        assert ForksApart(procs'[e], procs'[g]);
      } else if g == e {
        assert ForksApart(procs'[e], procs'[f]);
      } else if f < |w.procs| && g < |w.procs| {
        assert ForksApart(w.procs[f], w.procs[g]);
        assert procs'[f].fork == w.procs[f].fork && procs'[g].fork == w.procs[g].fork;
      }
    }
  }

  /** A step of environment e's that changes only its own space and its child's keeps the invariant,
      if it does as far as e itself and its child are concerned. */
  lemma Kept(w: World, w': World, e: int, cd: int, last: int)
    requires WorldOk(w, last) && !w.halted && UTEXT_PN <= last <= USTACK_PN && 0 <= e < |w.procs| && w.procs[e].started
    requires Moves(w.procs, w'.procs, e, cd) && OwnSpace(w.procs, e, cd)
    requires OnlySpaces(w.m.tree, w'.m.tree, w.procs[e].dir, cd) && Inv(w'.m) && CowOk(w'.m.tree)
    requires ProcOk(w'.m.tree, w'.procs, e, last)
    requires 0 <= ChildOf(w.procs[e].fork) < |w.procs| ==>
      (w'.procs[ChildOf(w.procs[e].fork)].started ==> Stacked(w'.m.tree, w'.procs[ChildOf(w.procs[e].fork)]))
    ensures WorldOk(w', last)
  {
    var t', procs' := w'.m.tree, w'.procs;
    MovedDirs(w, t', procs', e, cd, last);
    ForksKept(w, procs', e, cd, last);
    forall f | 0 <= f < |procs'| ensures ProcOk(t', procs', f, last) {
      if f == e || f >= |w.procs| {
      } else if f == ChildOf(w.procs[e].fork) {
        ChildKept(w, t', procs', e, cd, last);
      } else {
        AwayOthers(w, e, cd, f, last);
        SameForOthers(w, procs', e, cd, f, last);
        OtherProc(w.m.tree, t', w.procs, procs', f, w.procs[e].dir, cd, last);
      }
    }
  }

  // ---------------------------------------------------------------- fork, step by step

  // A new, empty address space
  ghost predicate NewSpace(m: Mem, m': Mem, cd: int) {
    && Inv(m') && m'.tree.dirs == m.tree.dirs + {cd} && cd !in m.tree.dirs
    && (forall v {:trigger Xlate(m'.tree, cd, v)} :: PnOk(v) ==> Xlate(m'.tree, cd, v) == 0)
    && (forall d, v {:trigger Xlate(m'.tree, d, v)} :: UserPage(m.tree, d, v) ==>
      Xlate(m'.tree, d, v) == Xlate(m.tree, d, v))
    && KeepsFrames(m, m')
  }

  lemma SetupNewSpace(m: Mem, kern: Frame)
    requires Inv(m) && m.free != []
    ensures NewSpace(m, SetupVm(m, kern).0, m.free[0])
  {
    SetupSpec(m, kern);
  }

  // It leaves copy-on-write sharing as it is.
  lemma NewSpaceCowOk(t: Tree, t': Tree, cd: int)
    requires CowOk(t) && t'.dirs == t.dirs + {cd}
    requires forall v {:trigger Xlate(t', cd, v)} :: PnOk(v) ==> Xlate(t', cd, v) == 0
    requires forall d, v {:trigger Xlate(t', d, v)} :: UserPage(t, d, v) ==> Xlate(t', d, v) == Xlate(t, d, v)
    ensures CowOk(t')
  {
    forall d, v | UserPage(t', d, v) ensures WExclusive(t', d, v) {
      if d == cd {
        assert Xlate(t', d, v) == 0;
      } else {
        assert WExclusive(t, d, v);
        forall d2, v2 | UserPage(t', d2, v2) && Present(Xlate(t', d2, v2))
          ensures Xlate(t', d2, v2) == Xlate(t, d2, v2) && d2 in t.dirs
        {
          assert d2 == cd ==> Xlate(t', d2, v2) == 0;
        }
      }
    }
  }

  lemma NewSpaceViews(m: Mem, m': Mem, cd: int)
    requires Inv(m) && NewSpace(m, m', cd)
    ensures forall d, v {:trigger View(m'.tree, d, v)} :: UserPage(m.tree, d, v) ==>
      View(m'.tree, d, v) == View(m.tree, d, v)
  {
    forall d, v | UserPage(m.tree, d, v) ensures View(m'.tree, d, v) == View(m.tree, d, v) {
      ViewKeeps(m, m', d, v);
    }
  }

  // A call of fork's that fails: nobody's pages change.
  lemma FailedOk(w: World, e: int, m1: Mem, rc: Rc, cd: int, last: int)
    requires WorldOk(w, last) && !w.halted && UTEXT_PN <= last <= USTACK_PN && 0 <= e < |w.procs| && w.procs[e].started
    requires OwnSpace(w.procs, e, cd) && OnlySpaces(w.m.tree, m1.tree, w.procs[e].dir, cd) && Inv(m1)
    requires rc != Halt ==> CowOk(m1.tree) && Stacked(m1.tree, w.procs[e])
    requires forall d, v {:trigger View(m1.tree, d, v)} :: (UserPage(w.m.tree, d, v) && Image(v, last)
      && !NoProc(w.procs, d)) ==>
      View(m1.tree, d, v) == View(w.m.tree, d, v)
    ensures var w' := Failed(w, e, m1, rc).0; WorldOk(w', last) && Abs(w', last) == Abs(w, last)
  {
    var w' := Failed(w, e, m1, rc).0;
    SameAbs(w, w', last);
    assert ProcOk(w.m.tree, w.procs, e, last);
    MovedDirs(w, m1.tree, w'.procs, e, cd, last);
    if rc != Halt {
      Kept(w, w', e, cd, last);
    }
  }

  // What a step keeps, and what it makes of the environments' pages
  ghost predicate Refined(w: World, w': World, out: Out, e: int, last: int) {
    && WorldOk(w', last) && (out == Refused || out == Going || out == Done)
    && (out != Done ==> Abs(w', last) == Abs(w, last))
    && (out == Done ==> 0 <= e < |w.procs| && Abs(w', last) == Abs(w, last) + [Abs(w, last)[e]])
  }

  lemma UxStackNew(w: World, m1: Mem, d: int, rc: Rc, last: int)
    requires AllocPage1(w.m, m1, d, UXSTACK_PN, rc) && UTEXT_PN <= last <= USTACK_PN
    ensures OnlySpaces(w.m.tree, m1.tree, d, d)
    ensures forall d', v {:trigger View(m1.tree, d', v)} :: UserPage(w.m.tree, d', v) && Image(v, last) ==>
      View(m1.tree, d', v) == View(w.m.tree, d', v)
    ensures rc == Ok ==> Present(Xlate(m1.tree, d, UXSTACK_PN))
  {
    if rc == Ok {
      PermBits(w.m.free[0]);
      assert UserPage(w.m.tree, d, UXSTACK_PN);
      assert Xlate(m1.tree, d, UXSTACK_PN) == MkPte(w.m.free[0], PERM_RW);
    }
  }

  // Another environment's exception stack is where it was, and so is everybody's if the call fails.
  lemma UxStackOther(m: Mem, m1: Mem, d: int, rc: Rc, p: Proc)
    requires AllocPage1(m, m1, d, UXSTACK_PN, rc) && p.dir in m.tree.dirs && Stacked(m.tree, p)
      && (rc != Ok || p.dir != d)
    ensures Stacked(m1.tree, p)
  {
    forall v | PnOk(v) ensures Xlate(m1.tree, p.dir, v) == Xlate(m.tree, p.dir, v) {
      assert UserPage(m.tree, p.dir, v);
    }
    StackedKept(m.tree, m1.tree, p);
  }

  // A page allocated at v for space d
  ghost predicate AllocPage1(m: Mem, m1: Mem, d: int, v: int, rc: Rc) {
    && UserPage(m.tree, d, v) && Inv(m1) && CowOk(m1.tree) && ViewsBut(m.tree, m1.tree, d, v)
    && XlateOutside(m.tree, m1.tree, d, d, v, v + 1)
    && (rc == Ok ==> m.free != [] && OneChange(m.tree, m1.tree, d, v, MkPte(m.free[0], PERM_RW)))
    && (rc != Ok ==> SameSpaces(m.tree, m1.tree))
  }

  // Only what e's fork says changes about the environments.
  lemma MovesFork(w: World, e: int, handler: bool, fork: Progress, cd: int, last: int)
    requires WorldOk(w, last) && !w.halted && 0 <= e < |w.procs| && w.procs[e].started
    requires fork.Copying? ==> forall f :: 0 <= f < |w.procs| && f != e && w.procs[f].fork.Copying? ==>
      w.procs[f].fork.cd != fork.cd
    requires ChildOf(fork) >= 0 ==> ChildOf(fork) == ChildOf(w.procs[e].fork)
    ensures Moves(w.procs, w.procs[e := w.procs[e].(handler := handler, fork := fork)], e, cd)
  {
    var procs' := w.procs[e := w.procs[e].(handler := handler, fork := fork)];
    forall f | 0 <= f < |procs'| && f != e ensures ForksApart(procs'[e], procs'[f]) {
      assert ForksApart(w.procs[e], w.procs[f]);
    }
  }

  lemma HandlerRefines(w: World, e: int, last: int)
    requires WorldOk(w, last) && !w.halted && UTEXT_PN <= last <= USTACK_PN && 0 <= e < |w.procs| && w.procs[e].started
    requires w.procs[e].fork == Idle
    ensures var (w', out) := HandlerStep(w, e); Refined(w, w', out, e, last)
  {
    var p := w.procs[e];
    var (w', out) := HandlerStep(w, e);
    assert ProcOk(w.m.tree, w.procs, e, last);
    MovesFork(w, e, true, Handled, p.dir, last);
    if p.handler {
      assert w'.procs == w.procs[e := p.(handler := true, fork := Handled)];
      Kept(w, w', e, p.dir, last);
    } else {
      AllocPage(w.m, p.dir, UXSTACK_PN);
      var (m1, rc) := SysPageAlloc(w.m, p.dir, UXSTACK_PN, PERM_RW);
      UxStackNew(w, m1, p.dir, rc, last);
      if rc == Ok {
        Kept(w, w', e, p.dir, last);
      } else {
        UxStackOther(w.m, m1, p.dir, rc, p);
        FailedOk(w, e, m1, rc, p.dir, last);
      }
    }
    SameAbs(w, w', last);
  }

  lemma ExoforkRefines(w: World, e: int, kern: Frame, last: int)
    requires WorldOk(w, last) && !w.halted && UTEXT_PN <= last <= USTACK_PN && 0 <= e < |w.procs| && w.procs[e].started
    requires w.procs[e].fork == Handled
    ensures var (w', out) := ExoforkStep(w, e, kern); Refined(w, w', out, e, last)
  {
    var p := w.procs[e];
    var (w', out) := ExoforkStep(w, e, kern);
    assert ProcOk(w.m.tree, w.procs, e, last);
    if w.m.free == [] {
      FailedOk(w, e, w.m, NoMem, p.dir, last);
    } else {
      var cd := w.m.free[0];
      SetupNewSpace(w.m, kern);
      NewSpaceCowOk(w.m.tree, w'.m.tree, cd);
      NewSpaceViews(w.m, w'.m, cd);
      ExoforkApart(w, e, cd, last);
      MovesFork(w, e, p.handler, Copying(cd, UTEXT_PN), p.dir, last);
      assert w'.procs == w.procs[e := p.(handler := p.handler, fork := Copying(cd, UTEXT_PN))];
      NewHalfCopied(w.m, w'.m, p.dir, cd, last);
      StackedKept(w.m.tree, w'.m.tree, p);
      Kept(w, w', e, p.dir, last);
      SameAbs(w, w', last);
    }
  }

  lemma ExoforkApart(w: World, e: int, cd: int, last: int)
    requires WorldOk(w, last) && !w.halted && cd !in w.m.tree.dirs
    ensures NoProc(w.procs, cd)
    ensures forall f :: 0 <= f < |w.procs| && f != e && w.procs[f].fork.Copying? ==> w.procs[f].fork.cd != cd
  {
    forall f | 0 <= f < |w.procs| && w.procs[f].fork.Copying? ensures w.procs[f].fork.cd in w.m.tree.dirs {
      assert ProcOk(w.m.tree, w.procs, f, last);
    }
  }

  lemma NewHalfCopied(m: Mem, m': Mem, pd: int, cd: int, last: int)
    requires NewSpace(m, m', cd) && UTEXT_PN <= last <= USTACK_PN
    ensures HalfCopied(m'.tree, pd, cd, UTEXT_PN, last)
  {
    forall v | UTEXT_PN <= v < last ensures !Present(Xlate(m'.tree, cd, v)) {
      assert PnOk(v) && Xlate(m'.tree, cd, v) == 0;
    }
  }

  // A stretch of pages copied: only the two spaces change, and of what the environments see nothing.
  lemma CopiedOnly(m: Mem, m1: Mem, rc: Rc, pd: int, cd: int, lo: int, hi: int)
    requires Copied(m, m1, rc, pd, cd, lo, hi)
    ensures OnlySpaces(m.tree, m1.tree, pd, cd)
    ensures forall d, v {:trigger View(m1.tree, d, v)} :: UserPage(m.tree, d, v) && d != cd ==>
      View(m1.tree, d, v) == View(m.tree, d, v)
  {
  }

  lemma CopiedStacked(m: Mem, m1: Mem, rc: Rc, p: Proc, cd: int, lo: int, hi: int)
    requires Copied(m, m1, rc, p.dir, cd, lo, hi) && hi <= UXSTACK_PN && p.dir in m.tree.dirs && p.handler
      && Stacked(m.tree, p)
    ensures Stacked(m1.tree, p)
  {
    assert UserPage(m.tree, p.dir, UXSTACK_PN);
  }

  lemma CopiedMore(m: Mem, m1: Mem, pd: int, cd: int, next: int, last: int)
    requires pd in m.tree.dirs && cd in m.tree.dirs && pd != cd && UTEXT_PN <= next < last <= USTACK_PN
    requires HalfCopied(m.tree, pd, cd, next, last) && Copied(m, m1, Ok, pd, cd, next, next + 1)
      && Unmapped(m1.tree, cd, next + 1, last)
    ensures HalfCopied(m1.tree, pd, cd, next + 1, last)
  {
    forall v | UTEXT_PN <= v < next + 1 ensures View(m1.tree, cd, v) == View(m1.tree, pd, v) {
      assert UserPage(m.tree, cd, v) && UserPage(m.tree, pd, v);
      assert View(m1.tree, pd, v) == View(m.tree, pd, v);
      assert v < next ==> View(m.tree, cd, v) == View(m.tree, pd, v) && View(m1.tree, cd, v) == View(m.tree, cd, v);
    }
  }

  lemma PageRefines(w: World, e: int, cd: int, next: int, last: int)
    requires WorldOk(w, last) && !w.halted && UTEXT_PN <= last <= USTACK_PN && 0 <= e < |w.procs| && w.procs[e].started
    requires w.procs[e].fork == Copying(cd, next) && next < last
    ensures var (w', out) := PageStep(w, e, cd, next); Refined(w, w', out, e, last)
  {
    var p := w.procs[e];
    var (w', out) := PageStep(w, e, cd, next);
    assert ProcOk(w.m.tree, w.procs, e, last);
    DupOne(w.m, p.dir, cd, next, last);
    var (m1, rc) := DupMapped(w.m, p.dir, cd, next);
    var hi := if rc == Ok then next + 1 else last;
    CopiedOnly(w.m, m1, rc, p.dir, cd, next, hi);
    CopiedStacked(w.m, m1, rc, p, cd, next, hi);
    if rc == Ok {
      CopiedMore(w.m, m1, p.dir, cd, next, last);
      CopyingApart(w, e, cd, last);
      MovesFork(w, e, p.handler, Copying(cd, next + 1), cd, last);
      assert w'.procs == w.procs[e := p.(handler := p.handler, fork := Copying(cd, next + 1))];
      Kept(w, w', e, cd, last);
      SameAbs(w, w', last);
    } else {
      FailedOk(w, e, m1, rc, cd, last);
    }
  }

  lemma CopyingApart(w: World, e: int, cd: int, last: int)
    requires WorldOk(w, last) && !w.halted && 0 <= e < |w.procs| && w.procs[e].fork.Copying? && w.procs[e].fork.cd == cd
    ensures forall f :: 0 <= f < |w.procs| && f != e && w.procs[f].fork.Copying? ==> w.procs[f].fork.cd != cd
  {
    forall f | 0 <= f < |w.procs| && f != e ensures ForksApart(w.procs[e], w.procs[f]) {
    }
  }

  lemma DuppedOnly(m: Mem, m1: Mem, rc: Rc, pd: int, cd: int, pn: int)
    requires Dupped(m, m1, rc, pd, cd, pn)
    ensures OnlySpaces(m.tree, m1.tree, pd, cd)
    ensures forall d, v {:trigger View(m1.tree, d, v)} :: UserPage(m.tree, d, v) && d != cd ==>
      View(m1.tree, d, v) == View(m.tree, d, v)
  {
  }

  // The stack is copied: the child's pages are all there.
  lemma ChildSpace(m: Mem, m1: Mem, pd: int, cd: int, last: int)
    requires pd in m.tree.dirs && cd in m.tree.dirs && pd != cd && UTEXT_PN <= last <= USTACK_PN
    requires HalfCopied(m.tree, pd, cd, last, last) && Dupped(m, m1, Ok, pd, cd, USTACK_PN)
    ensures AbsSpace(m1.tree, cd, last) == AbsSpace(m.tree, pd, last)
  {
    forall v | 0 <= v < UTOP_PN && Image(v, last) ensures View(m1.tree, cd, v) == View(m.tree, pd, v) {
      assert UserPage(m.tree, cd, v);
      assert v != USTACK_PN ==> (View(m.tree, cd, v) == View(m.tree, pd, v)
        && View(m1.tree, cd, v) == View(m.tree, cd, v));
    }
  }

  lemma StackRefines(w: World, e: int, cd: int, last: int)
    requires WorldOk(w, last) && !w.halted && UTEXT_PN <= last <= USTACK_PN && 0 <= e < |w.procs| && w.procs[e].started
    requires w.procs[e].fork == Copying(cd, last)
    ensures var (w', out) := StackStep(w, e, cd); Refined(w, w', out, e, last)
  {
    var p := w.procs[e];
    var (w', out) := StackStep(w, e, cd);
    assert ProcOk(w.m.tree, w.procs, e, last);
    DupSpec(w.m, p.dir, cd, USTACK_PN);
    var (m1, rc) := Dup(w.m, p.dir, cd, USTACK_PN);
    DuppedOnly(w.m, m1, rc, p.dir, cd, USTACK_PN);
    DuppedStacked(w.m, m1, rc, p, cd);
    if rc == Ok {
      ChildSpace(w.m, m1, p.dir, cd, last);
      MovesBirth(w, e, cd, last);
      Kept(w, w', e, cd, last);
      SameAbs(w, w', last);
      BirthAbs(w, w', e, last);
    } else {
      FailedOk(w, e, m1, rc, cd, last);
    }
  }

  lemma DuppedStacked(m: Mem, m1: Mem, rc: Rc, p: Proc, cd: int)
    requires Dupped(m, m1, rc, p.dir, cd, USTACK_PN) && p.dir in m.tree.dirs && p.handler && Stacked(m.tree, p)
    ensures Stacked(m1.tree, p)
  {
    assert UserPage(m.tree, p.dir, UXSTACK_PN);
  }

  lemma BirthAbs(w: World, w': World, e: int, last: int)
    requires 0 <= e < |w.procs| && |w'.procs| == |w.procs| + 1 && Abs(w', last)[..|w.procs|] == Abs(w, last)
    requires AbsSpace(w'.m.tree, w'.procs[|w.procs|].dir, last) == AbsSpace(w.m.tree, w.procs[e].dir, last)
    ensures Abs(w', last) == Abs(w, last) + [Abs(w, last)[e]]
  {
    var n := |w.procs|;
    assert Abs(w', last) == Abs(w', last)[..n] + [Abs(w', last)[n]];
  }

  lemma MovesBirth(w: World, e: int, cd: int, last: int)
    requires WorldOk(w, last) && !w.halted && 0 <= e < |w.procs| && w.procs[e].started
    requires w.procs[e].fork.Copying? && w.procs[e].fork.cd == cd
    ensures Moves(w.procs, SetFork(w, e, Mapped(|w.procs|)).procs + [Proc(cd, true, false, Idle)], e, cd)
  {
    var procs' := SetFork(w, e, Mapped(|w.procs|)).procs + [Proc(cd, true, false, Idle)];
    forall f | 0 <= f < |procs'| && f != e ensures ForksApart(procs'[e], procs'[f]) {
      if f < |w.procs| {
        assert ProcOk(w.m.tree, w.procs, f, last);
      }
    }
  }

  lemma XStackDone(w: World, e: int, c: int, m1: Mem, last: int)
    requires WorldOk(w, last) && !w.halted && UTEXT_PN <= last <= USTACK_PN && 0 <= e < |w.procs| && w.procs[e].started
    requires w.procs[e].fork == Mapped(c) && 0 <= c < |w.procs|
    requires OnlySpaces(w.m.tree, m1.tree, w.procs[c].dir, w.procs[c].dir) && Inv(m1) && CowOk(m1.tree)
      && m1.tree.dirs == w.m.tree.dirs
    requires Present(Xlate(m1.tree, w.procs[c].dir, UXSTACK_PN)) && Stacked(m1.tree, w.procs[e])
    requires forall d, v {:trigger View(m1.tree, d, v)} :: UserPage(w.m.tree, d, v) && Image(v, last) ==>
      View(m1.tree, d, v) == View(w.m.tree, d, v)
    ensures var w' := SetFork(w, e, Ready(c)).(m := m1); WorldOk(w', last) && Abs(w', last) == Abs(w, last)
  {
    var p, w' := w.procs[e], SetFork(w, e, Ready(c)).(m := m1);
    assert ProcOk(w.m.tree, w.procs, e, last);
    MovesFork(w, e, p.handler, Ready(c), w.procs[c].dir, last);
    assert w'.procs == w.procs[e := p.(handler := p.handler, fork := Ready(c))];
    Kept(w, w', e, w.procs[c].dir, last);
    SameAbs(w, w', last);
  }

  lemma XStackRefines(w: World, e: int, c: int, last: int)
    requires WorldOk(w, last) && !w.halted && UTEXT_PN <= last <= USTACK_PN && 0 <= e < |w.procs| && w.procs[e].started
    requires w.procs[e].fork == Mapped(c) && 0 <= c < |w.procs|
    ensures var (w', out) := XStackStep(w, e, c); Refined(w, w', out, e, last)
  {
    var p := w.procs[e];
    var (w', out) := XStackStep(w, e, c);
    assert ProcOk(w.m.tree, w.procs, e, last);
    var cd := w.procs[c].dir;
    AllocPage(w.m, cd, UXSTACK_PN);
    var (m1, rc) := SysPageAlloc(w.m, cd, UXSTACK_PN, PERM_RW);
    UxStackNew(w, m1, cd, rc, last);
    UxStackOther(w.m, m1, cd, rc, p);
    if rc == Ok {
      XStackDone(w, e, c, m1, last);
    } else {
      FailedOk(w, e, m1, rc, cd, last);
    }
  }

  lemma StartRefines(w: World, e: int, c: int, last: int)
    requires WorldOk(w, last) && !w.halted && UTEXT_PN <= last <= USTACK_PN && 0 <= e < |w.procs| && w.procs[e].started
    requires w.procs[e].fork == Ready(c) && 0 <= c < |w.procs|
    ensures var (w', out) := StartStep(w, e, c); Refined(w, w', out, e, last)
  {
    var p := w.procs[e];
    var (w', out) := StartStep(w, e, c);
    assert ProcOk(w.m.tree, w.procs, e, last);
    forall f | 0 <= f < |w'.procs| && f != e ensures ForksApart(w'.procs[e], w'.procs[f]) {
    }
    Kept(w, w', e, p.dir, last);
    SameAbs(w, w', last);
  }

  /** The next step of a fork: if it is the duppage of the stack and succeeds, it does what copying
      all pages at once would do; every other step, and every step that fails, changes nobody's
      pages. */
  lemma ForkRefines(w: World, e: int, kern: Frame, last: int)
    requires WorldOk(w, last) && !w.halted && UTEXT_PN <= last <= USTACK_PN && 0 <= e < |w.procs| && w.procs[e].started
    ensures var (w', out) := ForkStep(w, e, kern, last); Refined(w, w', out, e, last)
  {
    assert ProcOk(w.m.tree, w.procs, e, last);
    match w.procs[e].fork
    case Idle => HandlerRefines(w, e, last);
    case Handled => ExoforkRefines(w, e, kern, last);
    case Copying(cd, next) =>
      if next < last {
        PageRefines(w, e, cd, next, last);
      } else {
        StackRefines(w, e, cd, last);
      }
    case Mapped(c) => XStackRefines(w, e, c, last);
    case Ready(c) => StartRefines(w, e, c, last);
  }

  // ---------------------------------------------------------------- loads and stores

  // A store that goes through: one environment's page changes.
  lemma StoredAbs(w: World, m1: Mem, e: int, v: int, k: int, x: int, last: int)
    requires DirsOk(w.m.tree, w.procs) && 0 <= e < |w.procs| && UTEXT_PN <= last <= USTACK_PN && Image(v, last)
      && 0 <= k < NPTENTRIES
    requires Inv(m1) && CowOk(m1.tree) && m1.tree.dirs == w.m.tree.dirs
    requires Present(Xlate(m1.tree, w.procs[e].dir, v)) && W(Xlate(m1.tree, w.procs[e].dir, v))
    requires forall d', v' {:trigger View(m1.tree, d', v')} :: UserPage(w.m.tree, d', v') && Image(v', last) ==>
      View(m1.tree, d', v') == View(w.m.tree, d', v')
    ensures var m2, es := Cow.Store(m1, w.procs[e].dir, v, k, x), Abs(w, last);
      && Inv(m2) && CowOk(m2.tree) && SameSpaces(m1.tree, m2.tree)
      && v in es[e] && es[e][v].writable
      && Abs(w.(m := m2), last) == es[e := es[e][v := Page(Upd(es[e][v].content, k, x), true)]]
      && forall d', v' {:trigger View(m2.tree, d', v')} :: (UserPage(w.m.tree, d', v') && Image(v', last)
        && !(d' == w.procs[e].dir && v' == v)) ==>
           View(m2.tree, d', v') == View(w.m.tree, d', v')
  {
    var d, m2 := w.procs[e].dir, Cow.Store(m1, w.procs[e].dir, v, k, x);
    StoreSpec(m1, d, v, k, x);
    assert View(m1.tree, d, v) == View(w.m.tree, d, v);
    assert Abs(w, last)[e] == AbsSpace(w.m.tree, d, last);
    var page := Page(Upd(Abs(w, last)[e][v].content, k, x), true);
    forall d', v' | UserPage(w.m.tree, d', v') && Image(v', last) && !(d' == d && v' == v)
      ensures View(m2.tree, d', v') == View(w.m.tree, d', v')
    {
      assert View(m1.tree, d', v') == View(w.m.tree, d', v');
    }
    StoredSpaces(w, m2, e, v, page, last);
  }

  // Page v of environment e becomes page, and nothing else changes.
  lemma StoredSpaces(w: World, m2: Mem, e: int, v: int, page: Page, last: int)
    requires DirsOk(w.m.tree, w.procs) && 0 <= e < |w.procs| && UTEXT_PN <= last <= USTACK_PN && Image(v, last)
    requires forall d', v' {:trigger View(m2.tree, d', v')} ::
      UserPage(w.m.tree, d', v') && Image(v', last) && !(d' == w.procs[e].dir && v' == v) ==>
        View(m2.tree, d', v') == View(w.m.tree, d', v')
    requires View(m2.tree, w.procs[e].dir, v) == Some(page)
    ensures Abs(w.(m := m2), last) == Abs(w, last)[e := Abs(w, last)[e][v := page]]
  {
    var es := Abs(w, last);
    forall f | 0 <= f < |w.procs| ensures AbsSpace(m2.tree, w.procs[f].dir, last) == es[e := es[e][v := page]][f] {
      assert f != e ==> w.procs[f].dir != w.procs[e].dir;
      StoredSpace(w.m.tree, m2.tree, w.procs[f].dir, f == e, v, page, last);
      assert es[f] == AbsSpace(w.m.tree, w.procs[f].dir, last);
    }
    assert Abs(w.(m := m2), last) == es[e := es[e][v := page]];
  }

  // The space of one environment after a store to its page v, or another's
  lemma StoredSpace(t: Tree, t': Tree, d: int, own: bool, v: int, page: Page, last: int)
    requires d in t.dirs && UTEXT_PN <= last <= USTACK_PN && Image(v, last)
    requires forall v' {:trigger View(t', d, v')} :: PnOk(v') && Image(v', last) && !(own && v' == v) ==>
      View(t', d, v') == View(t, d, v')
    requires own ==> View(t', d, v) == Some(page)
    ensures AbsSpace(t', d, last) == if own then AbsSpace(t, d, last)[v := page] else AbsSpace(t, d, last)
  {
    if !own {
      SameAbsSpace(t, t', d, last);
    }
  }

  // What a store to page v of space d may change, its page fault included: (d, v), not to
  // copy-on-write, PFTEMP of d, and what (d, v) shows
  ghost predicate StoreEffect(t: Tree, t': Tree, d: int, v: int, last: int) {
    && t'.dirs == t.dirs
    && (forall d', v' {:trigger Xlate(t', d', v')} :: (UserPage(t, d', v')
      && !(d' == d && (v' == v || v' == PFTEMP_PN))) ==>
          Xlate(t', d', v') == Xlate(t, d', v'))
    && (forall v' {:trigger Xlate(t', d, v')} :: v' == v || v' == PFTEMP_PN ==>
          !C(Xlate(t', d, v')) || Xlate(t', d, v') == Xlate(t, d, v'))
    && (forall d', v' {:trigger View(t', d', v')} :: (UserPage(t, d', v')
      && !(d' == d && (v' == v || v' == PFTEMP_PN))) ==>
          View(t', d', v') == View(t, d', v'))
  }

  lemma StoredStacked(t: Tree, t': Tree, p: Proc, v: int, last: int)
    requires Stacked(t, p) && p.dir in t.dirs && StoreEffect(t, t', p.dir, v, last) && Image(v, last)
      && last <= USTACK_PN
    ensures Stacked(t', p)
  {
    forall v' | PnOk(v') && !(v' == v || v' == PFTEMP_PN) ensures Xlate(t', p.dir, v') == Xlate(t, p.dir, v') {
      assert UserPage(t, p.dir, v');
    }
  }

  // The half-built child of e is as before, and so are the pages it has of e.
  lemma StoredFork(t: Tree, t': Tree, procs: seq<Proc>, e: int, v: int, last: int)
    requires DirsOk(t, procs) && 0 <= e < |procs| && procs[e].started && ForkOk(t, procs, procs[e], last)
    requires StoreEffect(t, t', procs[e].dir, v, last)
    requires UTEXT_PN <= last <= USTACK_PN && Image(v, last) && !CopiedAlready(procs[e].fork, v)
    ensures ForkOk(t', procs, procs[e], last)
  {
    var d := procs[e].dir;
    match procs[e].fork
    case Copying(cd, next) =>
      forall u | next <= u < last ensures !Present(Xlate(t', cd, u)) {
        assert UserPage(t, cd, u);
      }
      forall u | UTEXT_PN <= u < next ensures View(t', cd, u) == View(t', d, u) {
        assert UserPage(t, cd, u) && UserPage(t, d, u);
        assert View(t, cd, u) == View(t, d, u);
      }
    case Ready(c) => assert UserPage(t, procs[c].dir, UXSTACK_PN);
    case _ =>
  }

  lemma StoreKeeps(w: World, m': Mem, e: int, v: int, last: int)
    requires WorldOk(w, last) && !w.halted && 0 <= e < |w.procs| && w.procs[e].started
    requires UTEXT_PN <= last <= USTACK_PN && Image(v, last) && !CopiedAlready(w.procs[e].fork, v)
    requires Inv(m') && CowOk(m'.tree) && StoreEffect(w.m.tree, m'.tree, w.procs[e].dir, v, last)
    ensures WorldOk(w.(m := m'), last)
  {
    var d := w.procs[e].dir;
    assert ProcOk(w.m.tree, w.procs, e, last);
    StoredStacked(w.m.tree, m'.tree, w.procs[e], v, last);
    StoredFork(w.m.tree, m'.tree, w.procs, e, v, last);
    forall f | 0 <= f < |w.procs| && f != e ensures ForksApart(w.procs[e], w.procs[f]) {
    }
    Kept(w, w.(m := m'), e, d, last);
  }

  // Through a writable mapping
  lemma StoreDirect(w: World, e: int, v: int, k: int, x: int, last: int)
    requires WorldOk(w, last) && !w.halted && 0 <= e < |w.procs| && w.procs[e].started && UTEXT_PN <= last <= USTACK_PN
    requires Image(v, last) && 0 <= k < NPTENTRIES && !CopiedAlready(w.procs[e].fork, v)
    requires Present(Xlate(w.m.tree, w.procs[e].dir, v)) && W(Xlate(w.m.tree, w.procs[e].dir, v))
    ensures var w', es := w.(m := Cow.Store(w.m, w.procs[e].dir, v, k, x)), Abs(w, last);
      && WorldOk(w', last) && v in es[e] && es[e][v].writable
      && Abs(w', last) == es[e := es[e][v := Page(Upd(es[e][v].content, k, x), true)]]
  {
    StoredAbs(w, w.m, e, v, k, x, last);
    StoreSpec(w.m, w.procs[e].dir, v, k, x);
    StoreKeeps(w, Cow.Store(w.m, w.procs[e].dir, v, k, x), e, v, last);
  }

  // Through pgfault, once it has succeeded
  lemma StoreFaulted(w: World, m1: Mem, e: int, v: int, k: int, x: int, last: int)
    requires WorldOk(w, last) && !w.halted && 0 <= e < |w.procs| && w.procs[e].started && UTEXT_PN <= last <= USTACK_PN
    requires Image(v, last) && 0 <= k < NPTENTRIES && !CopiedAlready(w.procs[e].fork, v)
    requires Faulted(w.m, m1, w.procs[e].dir, v)
    ensures var w', es := w.(m := Cow.Store(m1, w.procs[e].dir, v, k, x)), Abs(w, last);
      && WorldOk(w', last) && v in es[e] && es[e][v].writable
      && Abs(w', last) == es[e := es[e][v := Page(Upd(es[e][v].content, k, x), true)]]
  {
    StoredAbs(w, m1, e, v, k, x, last);
    StoreSpec(m1, w.procs[e].dir, v, k, x);
    FaultedThenStored(w.m, m1, Cow.Store(m1, w.procs[e].dir, v, k, x).tree, w.procs[e].dir, v, last);
    StoreKeeps(w, Cow.Store(m1, w.procs[e].dir, v, k, x), e, v, last);
  }

  lemma FaultedThenStored(m: Mem, m1: Mem, t2: Tree, d: int, v: int, last: int)
    requires d in m.tree.dirs && Image(v, last) && UTEXT_PN <= last <= USTACK_PN
    requires Faulted(m, m1, d, v) && SameSpaces(m1.tree, t2) && ViewsBut(m1.tree, t2, d, v)
    ensures StoreEffect(m.tree, t2, d, v, last)
  {
    forall d', v' | UserPage(m.tree, d', v') && !(d' == d && (v' == v || v' == PFTEMP_PN))
      ensures Xlate(t2, d', v') == Xlate(m.tree, d', v') && View(t2, d', v') == View(m.tree, d', v')
    {
      assert Xlate(m1.tree, d', v') == Xlate(m.tree, d', v');
      assert View(m1.tree, d', v') == View(m.tree, d', v');
    }
    assert UserPage(m1.tree, d, v) && UserPage(m1.tree, d, PFTEMP_PN);
    assert Xlate(t2, d, v) == Xlate(m1.tree, d, v);
    assert Xlate(t2, d, PFTEMP_PN) == 0;
  }

  predicate ValidOp(op: Op, last: int) {
    match op
    case Fork(e) => true
    case Load(e, v, k) => Image(v, last) && 0 <= k < NPTENTRIES
    case Store(e, v, k, x) => Image(v, last) && 0 <= k < NPTENTRIES
  }

  lemma NoStoreKeeps(w: World, m1: Mem, rc: Rc, e: int, v: int, last: int)
    requires WorldOk(w, last) && !w.halted && UTEXT_PN <= last <= USTACK_PN && 0 <= e < |w.procs| && w.procs[e].started
    requires Inv(m1) && ViewsBut(w.m.tree, m1.tree, w.procs[e].dir, PFTEMP_PN) && rc != Ok
    requires rc != Halt ==> CowOk(m1.tree) && SameSpaces(w.m.tree, m1.tree)
    requires Image(v, last) && !CopiedAlready(w.procs[e].fork, v)
    ensures var w' := w.(m := m1, halted := rc == Halt); WorldOk(w', last) && Abs(w', last) == Abs(w, last)
  {
    var w' := w.(m := m1, halted := rc == Halt);
    SameAbs(w, w', last);
    if rc != Halt {
      StoreKeeps(w, m1, e, v, last);
    }
  }

  lemma StoreRefines(w: World, e: int, v: int, k: int, x: int, last: int)
    requires WorldOk(w, last) && !w.halted && 0 <= e < |w.procs| && w.procs[e].started && UTEXT_PN <= last <= USTACK_PN
    requires Image(v, last) && 0 <= k < NPTENTRIES && !CopiedAlready(w.procs[e].fork, v)
    requires var t := Xlate(w.m.tree, w.procs[e].dir, v); Present(t) && (W(t) || C(t))
    ensures var (m', rc) := StoreStep(w.m, w.procs[e].dir, v, k, x);
      var w', es := w.(m := m', halted := rc == Halt), Abs(w, last);
      && WorldOk(w', last) && rc != Inval && v in es[e] && es[e][v].writable
      && Abs(w', last) == if rc == Ok then es[e := es[e][v := Page(Upd(es[e][v].content, k, x), true)]] else es
  {
    var d := w.procs[e].dir;
    if W(Xlate(w.m.tree, d, v)) {
      StoreDirect(w, e, v, k, x, last);
    } else {
      assert ProcOk(w.m.tree, w.procs, e, last) && WExclusive(w.m.tree, d, v);
      PgFaultSpec(w.m, d, v);
      var (m1, rc) := PgFault(w.m, d, v);
      assert View(w.m.tree, d, v).Some?;
      if rc == Ok {
        StoreFaulted(w, m1, e, v, k, x, last);
      } else {
        NoStoreKeeps(w, m1, rc, e, v, last);
      }
    }
  }

  lemma StoreStepRefines(w: World, e: int, v: int, k: int, x: int, kern: Frame, last: int)
    requires WorldOk(w, last) && !w.halted && 0 <= e < |w.procs| && w.procs[e].started && UTEXT_PN <= last <= USTACK_PN
    requires Image(v, last) && 0 <= k < NPTENTRIES
    ensures var op := Op.Store(e, v, k, x);
      var (w', out) := Step(w, op, kern, last);
      && WorldOk(w', last)
      && (!Silent(out) ==> EagerStep(Abs(w, last), op) == (Abs(w', last), out))
      && (Silent(out) ==> Abs(w', last) == Abs(w, last))
  {
    var d := w.procs[e].dir;
    assert Abs(w, last)[e] == AbsSpace(w.m.tree, d, last);
    var t := Xlate(w.m.tree, d, v);
    if Present(t) && U(t) && (W(t) || C(t)) && !CopiedAlready(w.procs[e].fork, v) {
      StoreRefines(w, e, v, k, x, last);
    }
  }

  /** One step of the machine is one step of the eager machine, with the same outcome, or changes
      nothing that any program sees. */
  lemma StepRefines(w: World, op: Op, kern: Frame, last: int)
    requires WorldOk(w, last) && UTEXT_PN <= last <= USTACK_PN && ValidOp(op, last)
    ensures var (w', out) := Step(w, op, kern, last);
      && WorldOk(w', last)
      && (!Silent(out) ==> EagerStep(Abs(w, last), op) == (Abs(w', last), out))
      && (Silent(out) ==> Abs(w', last) == Abs(w, last))
  {
    if !w.halted && 0 <= op.e < |w.procs| && w.procs[op.e].started {
      var d := w.procs[op.e].dir;
      match op
      case Fork(e) =>
        ForkRefines(w, e, kern, last);
      case Load(e, v, k) =>
        assert Abs(w, last)[e] == AbsSpace(w.m.tree, d, last);
      case Store(e, v, k, x) =>
        StoreStepRefines(w, e, v, k, x, kern, last);
    }
  }

  /** A store to a page the program sees as writable is refused only for want of memory: it goes
      through if and only if the page is not copy-on-write or there is a page for the copy and,
      unless PFTEMP has a page table already, one for that. */
  lemma StoreGoesThrough(w: World, e: int, v: int, k: int, x: int, kern: Frame, last: int)
    requires WorldOk(w, last) && !w.halted && 0 <= e < |w.procs| && w.procs[e].started && UTEXT_PN <= last <= USTACK_PN
    requires Image(v, last) && 0 <= k < NPTENTRIES && !CopiedAlready(w.procs[e].fork, v)
    requires v in Abs(w, last)[e] && Abs(w, last)[e][v].writable
    ensures Step(w, Op.Store(e, v, k, x), kern, last).1 == Done <==>
      || W(Xlate(w.m.tree, w.procs[e].dir, v))
      || (w.m.free != [] && (HasTable(w.m.tree, w.procs[e].dir, PFTEMP_PN) || |w.m.free| >= 2))
  {
    var d := w.procs[e].dir;
    assert Abs(w, last)[e] == AbsSpace(w.m.tree, d, last);
    if !W(Xlate(w.m.tree, d, v)) {
      assert ProcOk(w.m.tree, w.procs, e, last);
      PgFaultOutcome(w.m, d, v);
    }
  }

  // Environment e can act.
  ghost predicate Able(w: World, e: int) { !w.halted && 0 <= e < |w.procs| && w.procs[e].started }

  /** A load is never refused: it answers with the word the program sees, or is not allowed, just as on
      the eager machine, and changes nothing. */
  lemma LoadAnswers(w: World, e: int, v: int, k: int, kern: Frame, last: int)
    requires WorldOk(w, last) && Able(w, e) && UTEXT_PN <= last <= USTACK_PN && Image(v, last) && 0 <= k < NPTENTRIES
    ensures Step(w, Op.Load(e, v, k), kern, last) == (w, EagerStep(Abs(w, last), Op.Load(e, v, k)).1)
  {
    assert Abs(w, last)[e] == AbsSpace(w.m.tree, w.procs[e].dir, last);
  }

  /** The operations that may not be silent: any load, and any store but one to a page that the program
      is just copying, or to a copy-on-write page when there is no memory for a copy. */
  ghost predicate MustShow(w: World, op: Op, last: int) {
    match op
    case Fork(_) => false
    case Load(e, v, k) => Able(w, e)
    case Store(e, v, k, x) =>
      && Able(w, e) && !CopiedAlready(w.procs[e].fork, v)
      && (v in Abs(w, last)[e] && Abs(w, last)[e][v].writable && !W(Xlate(w.m.tree, w.procs[e].dir, v)) ==>
            w.m.free != [] && (HasTable(w.m.tree, w.procs[e].dir, PFTEMP_PN) || |w.m.free| >= 2))
  }

  lemma ShowsUp(w: World, op: Op, kern: Frame, last: int)
    requires WorldOk(w, last) && UTEXT_PN <= last <= USTACK_PN && ValidOp(op, last) && MustShow(w, op, last)
    ensures !Silent(Step(w, op, kern, last).1)
  {
    match op
    case Load(e, v, k) => LoadAnswers(w, e, v, k, kern, last);
    case Store(e, v, k, x) =>
      assert Abs(w, last)[e] == AbsSpace(w.m.tree, w.procs[e].dir, last);
      if v in Abs(w, last)[e] && Abs(w, last)[e][v].writable {
        StoreGoesThrough(w, e, v, k, x, kern, last);
      }
  }

  /** Why a forking program must not store to a page it has copied: the store goes through, but the
      child keeps the old page, so that the two agree on it if and only if nothing was changed.  A
      fork that copied all pages at once would give the child the page as it is when the fork takes
      effect. */
  lemma StoreToCopied(w: World, e: int, v: int, k: int, x: int, last: int)
    requires WorldOk(w, last) && !w.halted && 0 <= e < |w.procs| && w.procs[e].started && UTEXT_PN <= last <= USTACK_PN
    requires CopiedAlready(w.procs[e].fork, v) && 0 <= k < NPTENTRIES
    requires var t := Xlate(w.m.tree, w.procs[e].dir, v); Present(t) && U(t) && (W(t) || C(t))
    requires StoreStep(w.m, w.procs[e].dir, v, k, x).1 == Ok
    ensures var t' := StoreStep(w.m, w.procs[e].dir, v, k, x).0.tree;
      View(t', w.procs[e].fork.cd, v) == View(t', w.procs[e].dir, v) <==>
        At(View(w.m.tree, w.procs[e].dir, v).value.content, k) == x
  {
    var d, cd := w.procs[e].dir, w.procs[e].fork.cd;
    assert ProcOk(w.m.tree, w.procs, e, last);
    assert View(w.m.tree, cd, v) == View(w.m.tree, d, v);
    assert UserPage(w.m.tree, cd, v) && UserPage(w.m.tree, d, v) && WExclusive(w.m.tree, d, v);
    XlateTarget(w.m, d, v);
    var m1 := if W(Xlate(w.m.tree, d, v)) then w.m else PgFault(w.m, d, v).0;
    if !W(Xlate(w.m.tree, d, v)) {
      PgFaultSpec(w.m, d, v);
    }
    assert View(m1.tree, cd, v) == View(w.m.tree, cd, v) && View(m1.tree, d, v) == View(w.m.tree, d, v);
    StoreSpec(m1, d, v, k, x);
    UpdSame(View(w.m.tree, d, v).value.content, k, x);
  }

  lemma UpdSame(c: Frame, k: int, x: int)
    requires 0 <= k < |c|
    ensures Upd(c, k, x) == c <==> At(c, k) == x
  {
    assert Upd(c, k, x)[k] == x;
  }

  // ---------------------------------------------------------------- whole runs

  ghost function Steps(w: World, ops: seq<Op>, kern: Frame, last: int): (r: (World, seq<Out>))
    ensures |r.1| == |ops|
    decreases |ops|
  {
    if ops == [] then (w, [])
    else
      var (w1, out) := Step(w, ops[0], kern, last);
      var (w2, outs) := Steps(w1, ops[1..], kern, last);
      (w2, [out] + outs)
  }

  ghost function EagerSteps(es: seq<Space>, ops: seq<Op>): (seq<Space>, seq<Out>)
    decreases |ops|
  {
    if ops == [] then (es, [])
    else
      var (es1, out) := EagerStep(es, ops[0]);
      var (es2, outs) := EagerSteps(es1, ops[1..]);
      (es2, [out] + outs)
  }

  // No operation that may not be silent is, all along the run.
  ghost predicate NoneDropped(w: World, ops: seq<Op>, kern: Frame, last: int)
    decreases |ops|
  {
    ops != [] ==>
      && (MustShow(w, ops[0], last) ==> !Silent(Step(w, ops[0], kern, last).1))
      && NoneDropped(Step(w, ops[0], kern, last).0, ops[1..], kern, last)
  }

  // The operations that are steps of the eager machine, and their outcomes
  function Visible(ops: seq<Op>, outs: seq<Out>): seq<Op>
    requires |ops| == |outs|
  {
    if ops == [] then []
    else (if Silent(outs[0]) then [] else [ops[0]]) + Visible(ops[1..], outs[1..])
  }

  function Outcomes(outs: seq<Out>): seq<Out> {
    if outs == [] then [] else (if Silent(outs[0]) then [] else [outs[0]]) + Outcomes(outs[1..])
  }

  // One operation in front of a run
  lemma EagerCons(es: seq<Space>, es1: seq<Space>, esN: seq<Space>, op: Op, rest: seq<Op>, out: Out, outs: seq<Out>)
    requires |rest| == |outs|
    requires !Silent(out) ==> EagerStep(es, op) == (es1, out)
    requires Silent(out) ==> es1 == es
    requires EagerSteps(es1, Visible(rest, outs)) == (esN, Outcomes(outs))
    ensures EagerSteps(es, Visible([op] + rest, [out] + outs)) == (esN, Outcomes([out] + outs))
  {
    assert ([op] + rest)[1..] == rest && ([out] + outs)[1..] == outs;
    var tail := Visible(rest, outs);
    if !Silent(out) {
      assert Visible([op] + rest, [out] + outs) == [op] + tail;
      assert ([op] + tail)[1..] == tail;
    } else {
      assert Visible([op] + rest, [out] + outs) == [] + tail == tail;
      assert Outcomes([out] + outs) == [] + Outcomes(outs) == Outcomes(outs);
    }
  }

  /** Copy-on-write refines eager copying.  In every interleaving of the steps of any number of forks
      with loads and stores of all environments, the operations have, in order, the outcomes they
      have on the eager machine, on which fork copies all pages at once, when it takes effect; and
      every environment ends up with the same pages.  No load is left out, and no store for any other
      reason than those MustShow names. */
  lemma {:induction false} CowRefinesEager(w: World, ops: seq<Op>, kern: Frame, last: int)
    requires WorldOk(w, last) && UTEXT_PN <= last <= USTACK_PN && forall i :: 0 <= i < |ops| ==> ValidOp(ops[i], last)
    ensures var (w', outs) := Steps(w, ops, kern, last);
      && WorldOk(w', last)
      && EagerSteps(Abs(w, last), Visible(ops, outs)) == (Abs(w', last), Outcomes(outs))
    ensures NoneDropped(w, ops, kern, last)
    decreases |ops|
  {
    if ops != [] {
      StepRefines(w, ops[0], kern, last);
      if MustShow(w, ops[0], last) {
        ShowsUp(w, ops[0], kern, last);
      }
      var (w1, out) := Step(w, ops[0], kern, last);
      CowRefinesEager(w1, ops[1..], kern, last);
      var (w2, outs) := Steps(w1, ops[1..], kern, last);
      EagerCons(Abs(w, last), Abs(w1, last), Abs(w2, last), ops[0], ops[1..], out, outs);
      assert ops == [ops[0]] + ops[1..];
    }
  }
}
