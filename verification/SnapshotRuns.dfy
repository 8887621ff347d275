/** Snapshot, any kernel activity, resume: the round trip over whole runs. */
module SnapshotRuns {
  import opened Mmu
  import opened Phys
  import opened Vm
  import opened Syscalls
  import opened EnvVm
  import opened Held
  import opened Snapshots

  // What may happen in the kernel between two points in time, to any address space: the page
  // system calls, a page sent by sys_ipc_try_send, stores by programs, env_setup_vm, env_free,
  // snapshots of any environment taken, resumed and freed page by page.  fork and pgfault are made
  // of these.
  datatype KOp =
    | KAlloc(d: int, v: int, perm: int)
    | KMap(sd: int, sv: int, dd: int, dv: int, perm: int)
    | KSend(sd: int, v: int, dd: int, perm: int)
    | KUnmap(d: int, v: int)
    | KStore(d: int, v: int, k: int, x: int)
    | KNew(kern: Frame)
    | KFree(d: int)
    | KSnapshot(d: int)
    | KResume(d: int, s: Snapshot, tf: TrapFrame)
    | KDrop(p: int)

  // The page that sys_ipc_try_send passes on goes to the address it has at the sender's.
  ghost function SendPage(m: Mem, sd: int, v: int, dd: int, perm: int): (Mem, Rc) {
    SysPageMap(m, sd, v, dd, v, perm)
  }

  /** A page that is sent arrives at the sender's address for it, with the permissions asked for, and no
      other translation changes.  The address the receiver gave to sys_ipc_recv, page w, is not looked
      at: the page is there only if it is the sender's or the page was there before. */
  lemma SendPageSpec(m: Mem, sd: int, v: int, dd: int, perm: int, w: int)
    requires Inv(m) && UserPage(m.tree, sd, v) && Present(Xlate(m.tree, sd, v)) && dd in m.tree.dirs && PnOk(w)
    ensures var (m', rc) := SendPage(m, sd, v, dd, perm);
      var e := MkPte(PteFrame(Xlate(m.tree, sd, v)), perm);
      && (rc == Ok ==> OneChange(m.tree, m'.tree, dd, v, e))
      && (rc == Ok ==> (Xlate(m'.tree, dd, w) == e <==> w == v || Xlate(m.tree, dd, w) == e))
      && (rc != Ok ==> SameSpaces(m.tree, m'.tree))
      && (rc == Inval <==> !(GoodPerm(perm) && (HasW(perm) ==> HasW(PteFlags(Xlate(m.tree, sd, v))))))
      && (rc == NoMem ==> !HasTable(m.tree, dd, v) && m.free == [])
  {
    XlateTarget(m, sd, v);
    SysPageMapSpec(m, sd, v, dd, v, perm);
  }

  ghost predicate CanResume(m: Mem, d: int, s: Snapshot, tf: TrapFrame) {
    && d in m.tree.dirs && DistinctPages(s.pages) && (forall j :: 0 <= j < |s.pages| ==> HeldPage(m, s.pages[j].p))
    && Resume(m, d, s, tf).2 == Ok
  }

  // A step whose guard fails does nothing.  keep: pages that hold a snapshot that is not freed.
  ghost function KStep(m: Mem, op: KOp, keep: set<int>): Mem {
    match op
    case KAlloc(d, v, perm) => if d in m.tree.dirs then SysPageAlloc(m, d, v, perm).0 else m
    case KMap(sd, sv, dd, dv, perm) =>
      if sd in m.tree.dirs && dd in m.tree.dirs && PnOk(sv) && Present(Xlate(m.tree, sd, sv)) then
        SysPageMap(m, sd, sv, dd, dv, perm).0
      else m
    case KSend(sd, v, dd, perm) =>
      if sd in m.tree.dirs && dd in m.tree.dirs && PnOk(v)
        && Present(Xlate(m.tree, sd, v)) then SendPage(m, sd, v, dd, perm).0
      else m
    case KUnmap(d, v) => if UserPage(m.tree, d, v) && Present(Xlate(m.tree, d, v)) then Unmap(m, d, v) else m
    case KStore(d, v, k, x) =>
      if UserPage(m.tree, d, v) && Present(Xlate(m.tree, d, v)) then
        var p := PteFrame(Xlate(m.tree, d, v));
        Fill(m, p, Upd(Content(m.tree, p), k, x))
      else m
    case KNew(kern) => SetupVm(m, kern).0
    case KFree(d) => if d in m.tree.dirs then FreeSpace(m, d) else m
    case KSnapshot(d) =>
      var (m1, saved, ok) := SaveFrom(m, d, UTEXT_PN);
      if d in m.tree.dirs && ok then m1 else m
    case KResume(d, s, tf) => if CanResume(m, d, s, tf) then Resume(m, d, s, tf).0 else m
    case KDrop(p) => if HeldPage(m, p) && p !in keep then Free(m, p) else m
  }

  ghost function KSteps(m: Mem, ops: seq<KOp>, keep: set<int>): Mem
    decreases |ops|
  {
    if ops == [] then m else KSteps(KStep(m, ops[0], keep), ops[1..], keep)
  }

  lemma PageMapKeeps(m: Mem, sd: int, sv: int, dd: int, dv: int, perm: int)
    requires Inv(m) && UserPage(m.tree, sd, sv) && dd in m.tree.dirs && Present(Xlate(m.tree, sd, sv))
    ensures Inv(SysPageMap(m, sd, sv, dd, dv, perm).0) && KeepsHeld(m, SysPageMap(m, sd, sv, dd, dv, perm).0)
  {
    if MapArgs(m.tree, sd, sv, dv, perm) {
      MapKeepsHeld(m, sd, sv, dd, dv, perm, PteFrame(Xlate(m.tree, sd, sv)));
    }
  }

  // Every step but the freeing of a snapshot's page leaves all held pages alone.
  lemma KStepKeepsHeld(m: Mem, op: KOp, keep: set<int>)
    requires Inv(m) && !op.KDrop?
    ensures Inv(KStep(m, op, keep)) && KeepsHeld(m, KStep(m, op, keep))
  {
    match op
    case KAlloc(d, v, perm) =>
      if d in m.tree.dirs {
        AllocKeepsHeld(m, d, v, perm);
      }
    case KMap(sd, sv, dd, dv, perm) =>
      if sd in m.tree.dirs && dd in m.tree.dirs && PnOk(sv) && Present(Xlate(m.tree, sd, sv)) {
        PageMapKeeps(m, sd, sv, dd, dv, perm);
      }
    case KSend(sd, v, dd, perm) =>
      if sd in m.tree.dirs && dd in m.tree.dirs && PnOk(v) && Present(Xlate(m.tree, sd, v)) {
        PageMapKeeps(m, sd, v, dd, v, perm);
      }
    case KUnmap(d, v) =>
      if UserPage(m.tree, d, v) && Present(Xlate(m.tree, d, v)) {
        UnmapKeepsHeld(m, d, v);
      }
    case KStore(d, v, k, x) =>
      if UserPage(m.tree, d, v) && Present(Xlate(m.tree, d, v)) {
        StoreKeepsHeld(m, d, v, k, x, PteFrame(Xlate(m.tree, d, v)));
      }
    case KNew(kern) =>
      if m.free != [] {
        SetupKeepsHeld(m, kern);
      }
    case KFree(d) =>
      if d in m.tree.dirs {
        FreeKeepsHeld(m, d);
      }
    case KSnapshot(d) =>
      if d in m.tree.dirs {
        SaveSpec(m, d, UTEXT_PN);
      }
    case KResume(d, s, tf) =>
      if CanResume(m, d, s, tf) {
        ResumeKeepsHeld(m, d, s, tf);
      }
  }

  /** Every kernel step keeps the invariant and the held pages, those apart that are freed. */
  lemma KStepKeeps(m: Mem, op: KOp, keep: set<int>)
    requires Inv(m)
    ensures Inv(KStep(m, op, keep)) && KeepsHeldIn(m, KStep(m, op, keep), keep)
  {
    if op.KDrop? {
      if HeldPage(m, op.p) {
        FreeHeld(m, op.p);
      }
    } else {
      KStepKeepsHeld(m, op, keep);
    }
  }

  // What a step does when nothing is in its way
  ghost predicate KDone(m: Mem, op: KOp, keep: set<int>, m': Mem) {
    var t, t' := m.tree, m'.tree;
    match op
    case KAlloc(d, v, perm) =>
      d in t.dirs && SysPageAlloc(m, d, v, perm).1 == Ok ==>
        m.free != [] && OneChange(t, t', d, v, MkPte(m.free[0], perm))
    case KMap(sd, sv, dd, dv, perm) =>
      Shown(t, sd, sv) && dd in t.dirs && SysPageMap(m, sd, sv, dd, dv, perm).1 == Ok ==>
        OneChange(t, t', dd, dv, MkPte(PteFrame(Xlate(t, sd, sv)), perm))
    case KSend(sd, v, dd, perm) =>
      Shown(t, sd, v) && dd in t.dirs && SendPage(m, sd, v, dd, perm).1 == Ok ==>
        OneChange(t, t', dd, v, MkPte(PteFrame(Xlate(t, sd, v)), perm))
    case KUnmap(d, v) => Shown(t, d, v) ==> OneChange(t, t', d, v, 0)
    case KStore(d, v, k, x) =>
      Shown(t, d, v) ==>
        var p := PteFrame(Xlate(t, d, v)); SameSpaces(t, t') && Content(t', p) == Upd(Content(t, p), k, x)
    case KNew(_) => m.free != [] ==> t'.dirs == t.dirs + {m.free[0]}
    case KFree(d) => d in t.dirs ==> t'.dirs == t.dirs - {d}
    case KSnapshot(d) => d in t.dirs && SaveFrom(m, d, UTEXT_PN).2 ==> m' == SaveFrom(m, d, UTEXT_PN).0
    case KResume(d, s, tf) => CanResume(m, d, s, tf) ==> m' == Resume(m, d, s, tf).0
    case KDrop(p) => HeldPage(m, p) && p !in keep ==> p in m'.free
  }

  ghost predicate Shown(t: Tree, d: int, v: int) { UserPage(t, d, v) && Present(Xlate(t, d, v)) }

  lemma KCallDone(m: Mem, op: KOp, keep: set<int>)
    requires Inv(m) && (op.KAlloc? || op.KMap? || op.KSend? || op.KUnmap?)
    ensures KDone(m, op, keep, KStep(m, op, keep))
  {
    match op
    case KAlloc(d, v, perm) =>
      if d in m.tree.dirs {
        SysPageAllocSpec(m, d, v, perm);
      }
    case KMap(sd, sv, dd, dv, perm) =>
      if Shown(m.tree, sd, sv) && dd in m.tree.dirs {
        SysPageMapSpec(m, sd, sv, dd, dv, perm);
      }
    case KSend(sd, v, dd, perm) =>
      if Shown(m.tree, sd, v) && dd in m.tree.dirs {
        SendPageSpec(m, sd, v, dd, perm, v);
      }
    case KUnmap(d, v) =>
      if Shown(m.tree, d, v) {
        UnmapSpec(m, d, v);
      }
  }

  /** Each step of a run does what it stands for. */
  lemma KStepDone(m: Mem, op: KOp, keep: set<int>)
    requires Inv(m)
    ensures KDone(m, op, keep, KStep(m, op, keep))
  {
    if op.KAlloc? || op.KMap? || op.KSend? || op.KUnmap? {
      KCallDone(m, op, keep);
    } else if op.KStore? && Shown(m.tree, op.d, op.v) {
      var p := PteFrame(Xlate(m.tree, op.d, op.v));
      XlateTarget(m, op.d, op.v);
      FillXlate(m, p, Upd(Content(m.tree, p), op.k, op.x));
    } else if op.KNew? && m.free != [] {
      SetupSpec(m, op.kern);
    } else if op.KFree? && op.d in m.tree.dirs {
      FreeSpaceSpec(m, op.d);
    }
  }

  lemma {:induction false} KStepsKeep(m: Mem, ops: seq<KOp>, keep: set<int>)
    requires Inv(m)
    ensures Inv(KSteps(m, ops, keep)) && KeepsHeldIn(m, KSteps(m, ops, keep), keep)
    decreases |ops|
  {
    if ops != [] {
      KStepKeeps(m, ops[0], keep);
      KStepsKeep(KStep(m, ops[0], keep), ops[1..], keep);
    }
  }

  /** Snapshot and resume are a round trip: take a snapshot of environment d in state m0, let the
      kernel do anything but free the snapshot, other environments' snapshots included, resume.
      Every page of [UTEXT, UTOP) present in m0 is back, with its flags and its content, in a frame
      that is not the snapshot's; the registers are back; and the snapshot is as good as before, so
      the same holds of any later resume. */
  lemma SnapshotRoundTrip(m0: Mem, d: int, tf0: TrapFrame, ops: seq<KOp>, m2: Mem, tf: TrapFrame, v: int)
    requires Inv(m0) && d in m0.tree.dirs && UTEXT_PN <= v < UTOP_PN && Present(Xlate(m0.tree, d, v))
    requires var (m1, s, ok) := TakeSnapshot(m0, d, tf0); ok && m2 == KSteps(m1, ops, SavedFrames(s.pages))
    requires d in m2.tree.dirs && Resume(m2, d, TakeSnapshot(m0, d, tf0).1, tf).2 == Ok
    ensures var s := TakeSnapshot(m0, d, tf0).1;
      var (m3, tf3, _) := Resume(m2, d, s, tf);
      var e, e' := Xlate(m0.tree, d, v), Xlate(m3.tree, d, v);
      && Present(e') && PteFlags(e') == PteFlags(e)
      && Content(m3.tree, PteFrame(e')) == Content(m0.tree, PteFrame(e))
      && (forall j :: 0 <= j < |s.pages| ==> s.pages[j].p != PteFrame(e'))
      && tf3 == TrapFrame(tf0.regs, tf0.eip, tf0.esp, tf0.eflags, tf.rest)
      && Inv(m3) && Records(m3, m0.tree, d, UTEXT_PN, s.pages)
  {
    SaveSpec(m0, d, UTEXT_PN);
    var (m1, s, _) := TakeSnapshot(m0, d, tf0);
    KStepsKeep(m1, ops, SavedFrames(s.pages));
    RecordsSurvive(m1, m2, m0.tree, d, UTEXT_PN, s.pages);
    ResumeOfPresentPage(m2, m0.tree, d, s, tf, v);
    ResumeSpec(m2, m0.tree, d, s, tf);
  }
}
