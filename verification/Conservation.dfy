/** Conservation of pages over all environments together: any number of them is made, shares pages
    with the others and is freed, in any order. */
module Conservation {
  import opened Mmu
  import opened Phys
  import opened Vm
  import opened Syscalls
  import opened EnvVm
  import opened Lifetime

  // env_setup_vm, the page system calls between any two address spaces, env_free
  datatype EnvOp =
    | New(kern: Frame)
    | AllocFor(d: int, v: int, perm: int)
    | MapFrom(sd: int, sv: int, dd: int, dv: int, perm: int)
    | UnmapFor(d: int, v: int)
    | FreeEnv(d: int)

  // One call; one that names no address space does nothing.  MapFrom and UnmapFor of an absent page are
  // left out, as in Lifetime, and after a Halt nothing more happens.
  ghost function EnvStep(r: Run, op: EnvOp): Run {
    if r.rc == Halt then r
    else match op
      case New(kern) => r.(m := SetupVm(r.m, kern).0)
      case AllocFor(d, v, perm) => if d in r.m.tree.dirs then Lifetime.Step(r, d, AllocAt(v, perm)) else r
      case MapFrom(sd, sv, dd, dv, perm) =>
        if sd !in r.m.tree.dirs || dd !in r.m.tree.dirs || (PnOk(sv) && !Present(Xlate(r.m.tree, sd, sv))) then r
        else
          var (m', rc) := SysPageMap(r.m, sd, sv, dd, dv, perm);
          r.(m := m', rc := rc)
      case UnmapFor(d, v) => if d in r.m.tree.dirs then Lifetime.Step(r, d, UnmapAt(v)) else r
      case FreeEnv(d) => if d in r.m.tree.dirs then r.(m := FreeSpace(r.m, d)) else r
  }

  ghost function EnvSteps(r: Run, ops: seq<EnvOp>): Run
    decreases |ops|
  {
    if ops == [] then r else EnvSteps(EnvStep(r, ops[0]), ops[1..])
  }

  // Where frame i can be, if free0 were the free pages to begin with: such a page is free, lost, in a
  // tree or mapped; any other is none of these.
  ghost predicate Known(free0: seq<int>, m: Mem, leaked: set<int>, i: int) {
    if i in free0 then
      && (i in leaked ==> i !in m.free && Plain(m.tree, i) && Refs(m.tree, i) == {})
      && (i in m.free || i in leaked || !Plain(m.tree, i) || Refs(m.tree, i) != {})
      && At(m.pins, i) == (if i in m.tree.dirs then 1 else 0)
    else
      i !in m.free && i !in leaked && Plain(m.tree, i) && Refs(m.tree, i) == {}
  }

  // m0: the memory to begin with
  ghost predicate Accounted(m0: Mem, m: Mem, leaked: set<int>) {
    && |m.tree.frames| == |m0.tree.frames|
    && forall i {:trigger Known(m0.free, m, leaked, i)} :: 0 <= i < |m.tree.frames| ==> Known(m0.free, m, leaked, i)
  }

  // The kernel before its first environment
  lemma NoEnvsYet(m: Mem)
    requires Inv(m) && m.tree.dirs == {} && forall i :: i in m.free ==> At(m.pins, i) == 0
    ensures Accounted(m, m, {})
  {
    NoTrees(m.tree);
  }

  lemma NoTrees(t: Tree)
    requires TreeOk(t) && t.dirs == {}
    ensures forall i :: i !in t.owner && Refs(t, i) == {}
  {
    forall f ensures f !in t.owner {
      assert f in t.owner ==> OwnerOk(t, f);
    }
  }

  // ---------------------------------------------------------------- one step

  // A free page, and one that is mapped
  lemma FreeKnown(m0: Mem, m: Mem, leaked: set<int>, p: int)
    requires Inv(m) && Accounted(m0, m, leaked) && p in m.free
    ensures p in m0.free && p !in leaked && Plain(m.tree, p) && Refs(m.tree, p) == {}
  {
    FreeUnreferenced(m, p);
    assert Known(m0.free, m, leaked, p);
  }

  lemma MappedKnown(m0: Mem, m: Mem, leaked: set<int>, d: int, v: int, q: int)
    requires Inv(m) && Accounted(m0, m, leaked) && UserPage(m.tree, d, v) && Present(Xlate(m.tree, d, v))
      && q == PteFrame(Xlate(m.tree, d, v))
    ensures q in m0.free && q !in leaked && Plain(m.tree, q) && q !in m.free
  {
    XlateTarget(m, d, v);
    assert Known(m0.free, m, leaked, q);
  }

  lemma NewKnown(m0: Mem, m: Mem, leaked: set<int>, kern: Frame)
    requires Inv(m) && Accounted(m0, m, leaked) && m.free != []
    ensures Inv(SetupVm(m, kern).0) && Accounted(m0, SetupVm(m, kern).0, leaked)
  {
    SetupSpec(m, kern);
    var p, m' := m.free[0], SetupVm(m, kern).0;
    FreeKnown(m0, m, leaked, p);
    assert m.free == [p] + m.free[1..];
    forall i | 0 <= i < |m'.tree.frames| ensures Known(m0.free, m', leaked, i) {
      assert Known(m0.free, m, leaked, i);
    }
  }

  lemma AllocKnown(m0: Mem, m: Mem, leaked: set<int>)
    requires Inv(m) && Accounted(m0, m, leaked) && m.free != []
    ensures Inv(Alloc(m)) && Accounted(m0, Alloc(m), leaked + {m.free[0]})
  {
    AllocKeeps(m);
    FreeKnown(m0, m, leaked, m.free[0]);
    forall i | 0 <= i < |m.tree.frames| ensures Known(m0.free, Alloc(m), leaked + {m.free[0]}, i) {
      assert Known(m0.free, m, leaked, i);
    }
  }

  // What page_insert of p does to frame i
  lemma InsertedAt(free0: seq<int>, m: Mem, d: int, held: set<int>, p: int, v: int, m': Mem, i: int)
    requires Inserted(m, m', d, p, v) && Known(free0, m, held, i) && (HasTable(m.tree, d, v) || m.free != [])
    requires m.free != [] ==> m.free[0] in free0 && Plain(m.tree, m.free[0]) && m.free[0] !in held
    requires p in free0 && p !in m'.free && Plain(m.tree, p) && p !in m.free
    requires (i in m.free ==> Refs(m.tree, i) == {}) && (i in m.tree.dirs ==> Refs(m.tree, i) == {})
    ensures Known(free0, m', held - {p}, i)
  {
    LessOne(Refs(m.tree, i), InsertSlot(m, d, v));
  }

  lemma WalkedKnownAt(free0: seq<int>, m: Mem, m1: Mem, d: int, held: set<int>, v: int, i: int)
    requires Walked(m, m1, d, v) && Known(free0, m, held, i)
    requires m.free != [] ==> m.free[0] in free0 && Plain(m.tree, m.free[0]) && m.free[0] !in held
    ensures Known(free0, m1, held, i)
  {
  }

  lemma InsertKnown(m0: Mem, m: Mem, d: int, held: set<int>, p: int, v: int, perm: int)
    requires Inv(m) && Accounted(m0, m, held) && UserPage(m.tree, d, v) && IsFlags(perm)
    requires p in m0.free && p !in m.free && Plain(m.tree, p)
    ensures var (m', rc) := Insert(m, d, p, v, perm);
      Inv(m') && Accounted(m0, m', if rc == Ok then held - {p} else held)
  {
    InsertSpec(m, d, p, v, perm);
    var (m', rc) := Insert(m, d, p, v, perm);
    if m.free != [] {
      FreeKnown(m0, m, held, m.free[0]);
    }
    if rc == Ok {
      InsertRefs(m, d, p, v, perm);
      forall i | 0 <= i < |m'.tree.frames| ensures Known(m0.free, m', held - {p}, i) {
        assert Known(m0.free, m, held, i);
        RefTarget(m.tree, i);
        if i in m.free {
          FreeUnreferenced(m, i);
        }
        InsertedAt(m0.free, m, d, held, p, v, m', i);
      }
    } else if rc == Halt {
      WalkSpec(m, d, v);
      WalkRefs(m, d, v);
      forall i | 0 <= i < |m'.tree.frames| ensures Known(m0.free, m', held, i) {
        assert Known(m0.free, m, held, i);
        WalkedKnownAt(m0.free, m, m', d, held, v, i);
      }
    }
  }

  lemma AllocForKnown(m0: Mem, m: Mem, d: int, leaked: set<int>, v: int, perm: int)
    requires Inv(m) && Accounted(m0, m, leaked) && UserPage(m.tree, d, v) && GoodPerm(perm) && m.free != []
    ensures var (m', rc) := Insert(Alloc(m), d, m.free[0], v, perm);
      Inv(m') && Accounted(m0, m', if rc == NoMem then leaked + {m.free[0]} else leaked)
  {
    var p := m.free[0];
    FreeKnown(m0, m, leaked, p);
    AllocKnown(m0, m, leaked);
    AllocKeeps(m);
    GoodPermFlags(perm);
    AllocNoHalt(m, d, v, perm);
    assert leaked + {p} - {p} == leaked;
    InsertKnown(m0, Alloc(m), d, leaked + {p}, p, v, perm);
  }

  lemma MapKnown(m0: Mem, m: Mem, leaked: set<int>, sd: int, sv: int, dd: int, dv: int, perm: int, q: int)
    requires Inv(m) && Accounted(m0, m, leaked) && UserPage(m.tree, sd, sv) && UserPage(m.tree, dd, dv)
      && GoodPerm(perm) && Present(Xlate(m.tree, sd, sv)) && q == PteFrame(Xlate(m.tree, sd, sv))
    ensures var (m', rc) := Insert(m, dd, q, dv, perm); Inv(m') && Accounted(m0, m', leaked)
  {
    MappedKnown(m0, m, leaked, sd, sv, q);
    GoodPermFlags(perm);
    assert leaked - {q} == leaked;
    InsertKnown(m0, m, dd, leaked, q, dv, perm);
  }

  lemma AllDropped(r: set<(int, int)>, S: set<(int, int)>)
    ensures r - S == {} ==> r <= S
  {
    if r - S == {} {
      forall s | s in r ensures s in S {
        assert s !in r - S;
      }
    }
  }

  lemma DroppedAt(free0: seq<int>, m: Mem, m': Mem, leaked: set<int>, S: set<(int, int)>, i: int)
    requires Dropped(m, m', S) && m'.tree.dirs == m.tree.dirs && m'.tree.owner == m.tree.owner
      && |m'.tree.frames| == |m.tree.frames|
    requires Known(free0, m, leaked, i) && (i in m.tree.dirs ==> Refs(m.tree, i) == {})
    ensures Known(free0, m', leaked, i)
  {
    AllDropped(Refs(m.tree, i), S);
  }

  lemma UnmapKnown(m0: Mem, m: Mem, leaked: set<int>, d: int, v: int)
    requires Inv(m) && Accounted(m0, m, leaked) && UserPage(m.tree, d, v) && Present(Xlate(m.tree, d, v))
    ensures Inv(Unmap(m, d, v)) && Accounted(m0, Unmap(m, d, v), leaked)
  {
    UnmapSpec(m, d, v);
    UnmapDropped(m, d, v);
    var m' := Unmap(m, d, v);
    forall i | 0 <= i < |m'.tree.frames| ensures Known(m0.free, m', leaked, i) {
      assert Known(m0.free, m, leaked, i);
      RefTarget(m.tree, i);
      DroppedAt(m0.free, m, m', leaked, {(Table(m.tree, d, v), Ptx(v))}, i);
    }
  }

  // env_free gives back the directory, its tables, and the pages that nobody else maps.
  lemma FreedAt(free0: seq<int>, m: Mem, m': Mem, d: int, leaked: set<int>, i: int)
    requires Freed(m, m', d) && |m'.tree.frames| == |m.tree.frames| == |m.pins| && 0 <= i < |m.tree.frames|
    requires Known(free0, m, leaked, i) && d in m.tree.dirs && d in free0
    requires i in m.tree.dirs ==> Refs(m.tree, i) == {}
    requires i in m.tree.owner ==> i !in m.tree.dirs && Refs(m.tree, i) == {m.tree.owner[i]}
    requires i in m.tree.owner && m.tree.owner[i].0 == d ==> m.tree.owner[i] in SpaceSlots(m.tree, d, 0, UTOP_PDX)
    ensures Known(free0, m', leaked, i)
  {
    var S := SpaceSlots(m.tree, d, 0, UTOP_PDX);
    AllDropped(Refs(m.tree, i), S);
  }

  lemma FreeEnvKnown(m0: Mem, m: Mem, leaked: set<int>, d: int)
    requires Inv(m) && Accounted(m0, m, leaked) && d in m.tree.dirs
    ensures Inv(FreeSpace(m, d)) && Accounted(m0, FreeSpace(m, d), leaked)
  {
    FreeSpaceSpec(m, d);
    var m' := FreeSpace(m, d);
    assert Known(m0.free, m, leaked, d);
    forall i | 0 <= i < |m'.tree.frames| ensures Known(m0.free, m', leaked, i) {
      assert Known(m0.free, m, leaked, i);
      RefTarget(m.tree, i);
      if i in m.tree.owner {
        assert OwnerOk(m.tree, i);
      }
      FreedAt(m0.free, m, m', d, leaked, i);
    }
  }

  lemma EnvStepKnown(m0: Mem, r: Run, op: EnvOp)
    requires Inv(r.m) && Accounted(m0, r.m, r.leaked)
    ensures var r' := EnvStep(r, op); Inv(r'.m) && Accounted(m0, r'.m, r'.leaked)
  {
    if r.rc != Halt {
      match op
      case New(kern) =>
        if r.m.free != [] {
          NewKnown(m0, r.m, r.leaked, kern);
        }
      case AllocFor(d, v, perm) =>
        if d in r.m.tree.dirs && PnOk(v) && GoodPerm(perm) && r.m.free != [] {
          AllocForKnown(m0, r.m, d, r.leaked, v, perm);
        }
      case MapFrom(sd, sv, dd, dv, perm) =>
        if sd in r.m.tree.dirs && dd in r.m.tree.dirs && MapArgs(r.m.tree, sd, sv, dv, perm)
          && Present(Xlate(r.m.tree, sd, sv)) {
          MapKnown(m0, r.m, r.leaked, sd, sv, dd, dv, perm, PteFrame(Xlate(r.m.tree, sd, sv)));
        }
      case UnmapFor(d, v) =>
        if d in r.m.tree.dirs && PnOk(v) && Present(Xlate(r.m.tree, d, v)) {
          UnmapKnown(m0, r.m, r.leaked, d, v);
        }
      case FreeEnv(d) =>
        if d in r.m.tree.dirs {
          FreeEnvKnown(m0, r.m, r.leaked, d);
        }
    }
  }

  // What a call does to the address spaces
  ghost predicate Done(m: Mem, op: EnvOp, m': Mem, rc: Rc) {
    var t, t' := m.tree, m'.tree;
    match op
    case New(_) =>
      if m.free == [] then SameSpaces(t, t')
      else t'.dirs == t.dirs + {m.free[0]} && NoPages(t', m.free[0]) && SameIn(t, t', t.dirs)
    case AllocFor(d, v, perm) =>
      d in t.dirs ==>
        if rc == Ok then m.free != [] && OneChange(t, t', d, v, MkPte(m.free[0], perm)) else SameSpaces(t, t')
    case MapFrom(sd, sv, dd, dv, perm) =>
      UserPage(t, sd, sv) && dd in t.dirs && Present(Xlate(t, sd, sv)) ==>
        if rc == Ok then OneChange(t, t', dd, dv, MkPte(PteFrame(Xlate(t, sd, sv)), perm)) else SameSpaces(t, t')
    case UnmapFor(d, v) => UserPage(t, d, v) && Present(Xlate(t, d, v)) ==> rc == Ok && OneChange(t, t', d, v, 0)
    case FreeEnv(d) => d in t.dirs ==> t'.dirs == t.dirs - {d} && SameIn(t, t', t.dirs - {d})
  }

  ghost predicate NoPages(t: Tree, d: int) { forall v :: PnOk(v) ==> Xlate(t, d, v) == 0 }

  // The address spaces of these directories are the same.
  ghost predicate SameIn(t: Tree, t': Tree, dirs: set<int>) {
    forall d, v {:trigger Xlate(t', d, v)} :: d in dirs && PnOk(v) ==> Xlate(t', d, v) == Xlate(t, d, v)
  }

  lemma PageCallDone(r: Run, op: EnvOp)
    requires Inv(r.m) && r.rc != Halt && (op.AllocFor? || op.MapFrom? || op.UnmapFor?)
    ensures Done(r.m, op, EnvStep(r, op).m, EnvStep(r, op).rc)
  {
    match op
    case AllocFor(d, v, perm) =>
      if d in r.m.tree.dirs {
        SysPageAllocSpec(r.m, d, v, perm);
      }
    case MapFrom(sd, sv, dd, dv, perm) =>
      if UserPage(r.m.tree, sd, sv) && dd in r.m.tree.dirs && Present(Xlate(r.m.tree, sd, sv)) {
        SysPageMapSpec(r.m, sd, sv, dd, dv, perm);
      }
    case UnmapFor(d, v) =>
      if UserPage(r.m.tree, d, v) && Present(Xlate(r.m.tree, d, v)) {
        SysPageUnmapSpec(r.m, d, v);
      }
  }

  lemma NewDone(r: Run, op: EnvOp)
    requires Inv(r.m) && r.rc != Halt && op.New?
    ensures Done(r.m, op, EnvStep(r, op).m, EnvStep(r, op).rc)
  {
    if r.m.free != [] {
      SetupSpec(r.m, op.kern);
    }
  }

  lemma FreeDone(r: Run, op: EnvOp)
    requires Inv(r.m) && r.rc != Halt && op.FreeEnv?
    ensures Done(r.m, op, EnvStep(r, op).m, EnvStep(r, op).rc)
  {
    if op.d in r.m.tree.dirs {
      FreedOthers(r.m, op.d);
    }
  }

  lemma FreedOthers(m: Mem, d: int)
    requires Inv(m) && d in m.tree.dirs
    ensures var t' := FreeSpace(m, d).tree; t'.dirs == m.tree.dirs - {d} && SameIn(m.tree, t', m.tree.dirs - {d})
  {
    FreeSpaceSpec(m, d);
  }

  /** Each call of a run does what it is called for. */
  lemma CallDone(r: Run, op: EnvOp)
    requires Inv(r.m) && r.rc != Halt
    ensures Done(r.m, op, EnvStep(r, op).m, EnvStep(r, op).rc)
  {
    if op.New? {
      NewDone(r, op);
    } else if op.FreeEnv? {
      FreeDone(r, op);
    } else {
      PageCallDone(r, op);
    }
  }

  /** At every moment of every run each page that was free to begin with is free, lost by a failed
      sys_page_alloc, a directory, a page table or mapped, and no other page is any of these. */
  lemma {:induction false} PagesAccounted(m0: Mem, r: Run, ops: seq<EnvOp>)
    requires Inv(r.m) && Accounted(m0, r.m, r.leaked)
    ensures var r' := EnvSteps(r, ops); Inv(r'.m) && Accounted(m0, r'.m, r'.leaked)
    decreases |ops|
  {
    if ops != [] {
      EnvStepKnown(m0, r, ops[0]);
      PagesAccounted(m0, EnvStep(r, ops[0]), ops[1..]);
    }
  }

  /** From a kernel without environments on, every page is accounted for at every moment.  Once all
      environments are freed, however they shared their pages, the free pages are those there were
      before the first of them, except the pages that failed sys_page_alloc calls dropped. */
  lemma AllFreed(m0: Mem, ops: seq<EnvOp>, i: int)
    requires Inv(m0) && m0.tree.dirs == {} && 0 <= i < |m0.tree.frames|
    ensures var r := EnvSteps(Run(m0, {}, Ok), ops);
      && Inv(r.m) && Known(m0.free, r.m, r.leaked, i)
      && (r.m.tree.dirs == {} ==> (i in r.m.free <==> i in m0.free && i !in r.leaked))
  {
    forall p | p in m0.free ensures At(m0.pins, p) == 0 {
      FreeUnreferenced(m0, p);
    }
    NoEnvsYet(m0);
    PagesAccounted(m0, Run(m0, {}, Ok), ops);
    var r := EnvSteps(Run(m0, {}, Ok), ops);
    if r.m.tree.dirs == {} {
      NoTrees(r.m.tree);
      assert Known(m0.free, r.m, r.leaked, i);
    }
  }
}
