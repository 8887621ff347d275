/** Conservation of pages over the life of an environment: env_setup_vm, then any run of the page
    system calls on its address space, then env_free. */
module Lifetime {
  import opened Mmu
  import opened Phys
  import opened Vm
  import opened Syscalls
  import opened EnvVm

  // The page system calls an environment makes on its own address space
  datatype VmOp = AllocAt(v: int, perm: int) | MapAt(src: int, dst: int, perm: int) | UnmapAt(v: int)

  // leaked: the pages of those sys_page_alloc calls that failed after page_alloc
  datatype Run = Run(m: Mem, leaked: set<int>, rc: Rc)

  // One call.  MapAt and UnmapAt of an absent page are left out: see MapOfAbsentPage and
  // UnmapOfAbsentPage in Syscalls.  After a Halt nothing more happens.
  ghost function Step(r: Run, d: int, op: VmOp): Run {
    if r.rc == Halt then r
    else match op
      case AllocAt(v, perm) =>
        var (m', rc) := SysPageAlloc(r.m, d, v, perm);
        Run(m', if rc == NoMem && r.m.free != [] then r.leaked + {r.m.free[0]} else r.leaked, rc)
      case MapAt(src, dst, perm) =>
        if PnOk(src) && !Present(Xlate(r.m.tree, d, src)) then r
        else
          var (m', rc) := SysPageMap(r.m, d, src, d, dst, perm);
          r.(m := m', rc := rc)
      case UnmapAt(v) =>
        if PnOk(v) && !Present(Xlate(r.m.tree, d, v)) then r
        else
          var (m', rc) := SysPageUnmap(r.m, d, v);
          r.(m := m', rc := rc)
  }

  ghost function Steps(r: Run, d: int, ops: seq<VmOp>): Run
    decreases |ops|
  {
    if ops == [] then r else Steps(Step(r, d, ops[0]), d, ops[1..])
  }

  // Frame i belongs to address space d: its directory, one of its page tables, or a page that
  // it and nothing else maps.
  ghost predicate Mine(m: Mem, d: int, i: int) {
    || i == d
    || (i in m.tree.owner && m.tree.owner[i].0 == d)
    || (Plain(m.tree, i) && Refs(m.tree, i) != {} && forall s :: s in Refs(m.tree, i) ==>
      s.0 in m.tree.owner && m.tree.owner[s.0].0 == d)
  }

  // Frame i is as it was in m0.
  ghost predicate Untouched(m0: Mem, m: Mem, i: int) {
    && i !in m.free && (i in m.tree.dirs <==> i in m0.tree.dirs)
    && (i in m.tree.owner <==> i in m0.tree.owner) && (i in m.tree.owner ==> m.tree.owner[i] == m0.tree.owner[i])
    && Refs(m.tree, i) == Refs(m0.tree, i) && At(m.pins, i) == At(m0.pins, i)
  }

  // Where a page that was free in m0 can be: still free, leaked, or part of address space d
  ghost predicate Located(m: Mem, d: int, leaked: set<int>, i: int) {
    && (i in leaked ==> i !in m.free && Plain(m.tree, i) && Refs(m.tree, i) == {})
    && (i in m.free || i in leaked || Mine(m, d, i))
    && At(m.pins, i) == (if i == d then 1 else 0)
  }

  ghost predicate Borrowed(m0: Mem, m: Mem, d: int, leaked: set<int>) {
    && d in m.tree.dirs && d in m0.free && |m.tree.frames| == |m0.tree.frames|
    && (forall i :: i in leaked ==> i in m0.free)
    && (forall i :: i in m0.free ==> Located(m, d, leaked, i))
    && (forall i :: 0 <= i < |m0.tree.frames| && i !in m0.free ==> Untouched(m0, m, i))
  }

  lemma BorrowedInit(m0: Mem, kern: Frame)
    requires Inv(m0) && m0.free != []
    ensures var m1 := SetupVm(m0, kern).0; Inv(m1) && Borrowed(m0, m1, m0.free[0], {})
  {
    SetupSpec(m0, kern);
    assert m0.free == [m0.free[0]] + m0.free[1..];
    forall i | i in m0.free ensures Located(SetupVm(m0, kern).0, m0.free[0], {}, i) {
      FreeUnreferenced(m0, i);
    }
  }

  // A page table of d came from the free list of m0, and no entry of m0 lies in it.
  lemma TableIsMine(m0: Mem, m: Mem, d: int, leaked: set<int>, f: int)
    requires Inv(m0) && TreeOk(m.tree) && Borrowed(m0, m, d, leaked) && f in m.tree.owner && m.tree.owner[f].0 == d
    ensures f in m0.free
  {
    assert OwnerOk(m.tree, f);
    FreeUnreferenced(m0, d);
    assert f !in m0.free ==> Untouched(m0, m, f);
    assert f in m0.tree.owner ==> OwnerOk(m0.tree, f);
  }

  lemma NoSlotInFreePage(m0: Mem, f: int, k: int, i: int)
    requires Inv(m0) && f in m0.free
    ensures (f, k) !in Refs(m0.tree, i)
  {
    FreeUnreferenced(m0, f);
  }

  lemma RefdIsMine(m0: Mem, m: Mem, d: int, leaked: set<int>, f: int, k: int, q: int)
    requires Inv(m0) && Borrowed(m0, m, d, leaked) && f in m0.free && (f, k) in Refs(m.tree, q)
      && 0 <= q < |m.tree.frames|
    ensures q in m0.free && q !in leaked
  {
    NoSlotInFreePage(m0, f, k, q);
    assert q !in m0.free ==> Untouched(m0, m, q);
    assert q in m0.free ==> Located(m, d, leaked, q);
  }

  lemma MappedSlot(m: Mem, d: int, v: int, f: int, q: int)
    requires Inv(m) && UserPage(m.tree, d, v) && Present(Xlate(m.tree, d, v))
    requires f == Table(m.tree, d, v) && q == PteFrame(Xlate(m.tree, d, v))
    ensures f in m.tree.owner && m.tree.owner[f].0 == d && (f, Ptx(v)) in Refs(m.tree, q) && Plain(m.tree, q)
      && q !in m.free
  {
    XlateTarget(m, d, v);
    TableOk(m.tree, d, v);
  }

  // A page that d maps came from the free list of m0.
  lemma MappedIsMine(m0: Mem, m: Mem, d: int, leaked: set<int>, v: int, q: int)
    requires Inv(m0) && Inv(m) && Borrowed(m0, m, d, leaked) && UserPage(m.tree, d, v) && Present(Xlate(m.tree, d, v))
    requires q == PteFrame(Xlate(m.tree, d, v))
    ensures q in m0.free && q !in leaked
  {
    var f := Table(m.tree, d, v);
    MappedSlot(m, d, v, f, q);
    TableIsMine(m0, m, d, leaked, f);
    RefdIsMine(m0, m, d, leaked, f, Ptx(v), q);
  }

  // Inserting p, a page from m0's free list, keeps every page accounted for.
  lemma InsertBorrowed(m0: Mem, m: Mem, d: int, held: set<int>, p: int, v: int, m': Mem)
    requires Inv(m0) && Inv(m) && TreeOk(m'.tree) && Borrowed(m0, m, d, held) && PnOk(v)
    requires Inserted(m, m', d, p, v) && (HasTable(m.tree, d, v) || m.free != [])
    requires p in m0.free && p !in m.free && Plain(m.tree, p) && p !in m'.free
    ensures Borrowed(m0, m', d, held - {p})
  {
    var s, grows := InsertSlot(m, d, v), !HasTable(m.tree, d, v) && m.free != [];
    SlotIsMine(m0, m, d, held, v);
    if m.free != [] {
      FreeUnreferenced(m, m.free[0]);
    }
    forall i | i in m0.free ensures Located(m', d, held - {p}, i) {
      assert Located(m, d, held, i);
      if i in m.free {
        FreeUnreferenced(m, i);
      }
      InsertLocated(m, d, held, p, v, m', i);
    }
    forall i | 0 <= i < |m0.tree.frames| && i !in m0.free ensures Untouched(m0, m', i) {
      assert Untouched(m0, m, i);
      NoSlotInFreePage(m0, s.0, s.1, i);
      InsertUntouched(m0, m, d, p, v, m', i);
    }
  }

  lemma InsertUntouched(m0: Mem, m: Mem, d: int, p: int, v: int, m': Mem, i: int)
    requires Inserted(m, m', d, p, v) && Untouched(m0, m, i) && i != p && (HasTable(m.tree, d, v) || m.free != [])
    requires InsertSlot(m, d, v) !in Refs(m0.tree, i)
    ensures Untouched(m0, m', i)
  {
    var s := InsertSlot(m, d, v);
    assert Refs(m.tree, i) - {s} == Refs(m.tree, i);
  }

  // The entry written lies in a page table of d.
  lemma SlotIsMine(m0: Mem, m: Mem, d: int, held: set<int>, v: int)
    requires Inv(m0) && Inv(m) && Borrowed(m0, m, d, held) && PnOk(v) && (HasTable(m.tree, d, v) || m.free != [])
    ensures InsertSlot(m, d, v).0 in m0.free
    ensures HasTable(m.tree, d, v) ==> (InsertSlot(m, d, v).0 in m.tree.owner
      && m.tree.owner[InsertSlot(m, d, v).0].0 == d)
  {
    if HasTable(m.tree, d, v) {
      TableOk(m.tree, d, v);
      TableIsMine(m0, m, d, held, Table(m.tree, d, v));
    } else {
      FreeUnreferenced(m, m.free[0]);
      assert m.free[0] !in m0.free ==> Untouched(m0, m, m.free[0]);
    }
  }

  lemma InsertLocated(m: Mem, d: int, held: set<int>, p: int, v: int, m': Mem, i: int)
    requires Inserted(m, m', d, p, v) && Located(m, d, held, i) && (HasTable(m.tree, d, v) || m.free != [])
    requires HasTable(m.tree, d, v) ==> (InsertSlot(m, d, v).0 in m.tree.owner
      && m.tree.owner[InsertSlot(m, d, v).0].0 == d)
    requires m.free != [] ==> m.free[0] !in m.tree.owner && m.free[0] !in m.tree.dirs
    requires i in m.free ==> Refs(m.tree, i) == {}
    requires p !in m.free && Plain(m.tree, p) && p !in m'.free
    ensures Located(m', d, held - {p}, i)
  {
    var s, r := InsertSlot(m, d, v), Refs(m.tree, i);
    assert s.0 in m'.tree.owner && m'.tree.owner[s.0].0 == d;
    LessOne(r, s);
  }

  lemma LessOne(r: set<(int, int)>, s: (int, int))
    ensures r - {s} == {} <==> r == {} || r == {s}
    ensures r == {} ==> r - {s} == {} && r != {s}
  {
    if r - {s} == {} {
      forall x | x in r ensures x == s { assert x !in r - {s}; }
    }
  }

  // Dropping the entry behind v
  lemma UnmapBorrowed(m0: Mem, m: Mem, d: int, leaked: set<int>, v: int)
    requires Inv(m0) && Inv(m) && Borrowed(m0, m, d, leaked) && UserPage(m.tree, d, v) && Present(Xlate(m.tree, d, v))
    ensures Inv(Unmap(m, d, v)) && Borrowed(m0, Unmap(m, d, v), d, leaked)
  {
    UnmapSpec(m, d, v);
    TableOk(m.tree, d, v);
    MappedIsMine(m0, m, d, leaked, v, PteFrame(Xlate(m.tree, d, v)));
    var m', q, s := Unmap(m, d, v), PteFrame(Xlate(m.tree, d, v)), (Table(m.tree, d, v), Ptx(v));
    forall i | i in m0.free ensures Located(m', d, leaked, i) {
      assert Located(m, d, leaked, i);
      UnmapLocated(m, m', d, leaked, q, s, i);
    }
    forall i | 0 <= i < |m0.tree.frames| && i !in m0.free ensures Untouched(m0, m', i) {
      assert Untouched(m0, m, i);
    }
  }

  lemma UnmapLocated(m: Mem, m': Mem, d: int, leaked: set<int>, q: int, s: (int, int), i: int)
    requires m'.pins == m.pins && KeepsPlain(m.tree, m'.tree) && Located(m, d, leaked, i)
    requires forall i :: Refs(m'.tree, i) == if i == q then Refs(m.tree, i) - {s} else Refs(m.tree, i)
    requires m'.free == (if Refs(m.tree, q) == {s} && At(m.pins, q) == 0 then [q] + m.free else m.free)
    requires q !in leaked
    ensures Located(m', d, leaked, i)
  {
    LessOne(Refs(m.tree, i), s);
  }

  lemma AllocBorrowed(m0: Mem, m: Mem, d: int, leaked: set<int>)
    requires Inv(m0) && Inv(m) && Borrowed(m0, m, d, leaked) && m.free != []
    ensures Inv(Alloc(m)) && Borrowed(m0, Alloc(m), d, leaked + {m.free[0]}) && m.free[0] in m0.free
      && m.free[0] !in leaked
  {
    AllocKeeps(m);
    var p := m.free[0];
    assert p !in m0.free ==> Untouched(m0, m, p);
    assert p in m0.free ==> Located(m, d, leaked, p);
    forall i | i in m0.free ensures Located(Alloc(m), d, leaked + {p}, i) {
      assert Located(m, d, leaked, i);
    }
    forall i | 0 <= i < |m0.tree.frames| && i !in m0.free ensures Untouched(m0, Alloc(m), i) {
      assert Untouched(m0, m, i);
    }
  }

  // When page_insert gives up at the bound on pp_ref, it may have made a page table.
  lemma WalkBorrowed(m0: Mem, m: Mem, d: int, held: set<int>, v: int)
    requires Inv(m0) && Inv(m) && Borrowed(m0, m, d, held) && PnOk(v) && (HasTable(m.tree, d, v) || m.free != [])
    ensures Inv(Walk(m, d, v)) && Borrowed(m0, Walk(m, d, v), d, held)
  {
    WalkSpec(m, d, v);
    WalkRefs(m, d, v);
    SlotIsMine(m0, m, d, held, v);
    var m1 := Walk(m, d, v);
    if m.free != [] {
      FreeUnreferenced(m, m.free[0]);
    }
    forall i | i in m0.free ensures Located(m1, d, held, i) {
      assert Located(m, d, held, i);
      WalkLocated(m, m1, d, held, v, i);
    }
    forall i | 0 <= i < |m0.tree.frames| && i !in m0.free ensures Untouched(m0, m1, i) {
      assert Untouched(m0, m, i);
    }
  }

  lemma WalkLocated(m: Mem, m1: Mem, d: int, held: set<int>, v: int, i: int)
    requires Walked(m, m1, d, v) && Located(m, d, held, i)
    requires m.free != [] ==> m.free[0] !in m.tree.owner && m.free[0] !in m.tree.dirs
    ensures Located(m1, d, held, i)
  {
  }

  // ---------------------------------------------------------------- the whole run

  lemma InsertAnyBorrowed(m0: Mem, m: Mem, d: int, held: set<int>, p: int, v: int, perm: int)
    requires Inv(m0) && Inv(m) && Borrowed(m0, m, d, held) && PnOk(v) && IsFlags(perm)
    requires p in m0.free && p !in m.free && Plain(m.tree, p)
    ensures var (m', rc) := Insert(m, d, p, v, perm);
      Inv(m') && Borrowed(m0, m', d, if rc == Ok then held - {p} else held)
  {
    InsertSpec(m, d, p, v, perm);
    var (m', rc) := Insert(m, d, p, v, perm);
    if rc == Ok {
      InsertRefs(m, d, p, v, perm);
      InsertBorrowed(m0, m, d, held, p, v, m');
    } else if rc == Halt {
      WalkBorrowed(m0, m, d, held, v);
    }
  }

  lemma AllocStepBorrowed(m0: Mem, m: Mem, d: int, leaked: set<int>, v: int, perm: int)
    requires Inv(m0) && Inv(m) && Borrowed(m0, m, d, leaked) && PnOk(v) && GoodPerm(perm) && m.free != []
    ensures var (m', rc) := Insert(Alloc(m), d, m.free[0], v, perm);
      Inv(m') && Borrowed(m0, m', d, if rc == NoMem then leaked + {m.free[0]} else leaked)
  {
    var p := m.free[0];
    AllocBorrowed(m0, m, d, leaked);
    GoodPermFlags(perm);
    AllocNoHalt(m, d, v, perm);
    assert leaked + {p} - {p} == leaked;
    InsertAnyBorrowed(m0, Alloc(m), d, leaked + {p}, p, v, perm);
  }

  lemma MapStepBorrowed(m0: Mem, m: Mem, d: int, leaked: set<int>, src: int, dst: int, perm: int, q: int)
    requires Inv(m0) && Inv(m) && Borrowed(m0, m, d, leaked) && UserPage(m.tree, d, src) && PnOk(dst) && GoodPerm(perm)
    requires Present(Xlate(m.tree, d, src)) && q == PteFrame(Xlate(m.tree, d, src))
    ensures var (m', rc) := Insert(m, d, q, dst, perm); Inv(m') && Borrowed(m0, m', d, leaked)
  {
    MappedIsMine(m0, m, d, leaked, src, q);
    XlateTarget(m, d, src);
    GoodPermFlags(perm);
    InsertAnyBorrowed(m0, m, d, leaked, q, dst, perm);
    assert leaked - {q} == leaked;
  }

  lemma StepBorrowed(m0: Mem, r: Run, d: int, op: VmOp)
    requires Inv(m0) && Inv(r.m) && Borrowed(m0, r.m, d, r.leaked)
    ensures var r' := Step(r, d, op); Inv(r'.m) && Borrowed(m0, r'.m, d, r'.leaked)
  {
    if r.rc != Halt {
      match op
      case AllocAt(v, perm) =>
        if PnOk(v) && GoodPerm(perm) && r.m.free != [] {
          AllocStepBorrowed(m0, r.m, d, r.leaked, v, perm);
        }
      case MapAt(src, dst, perm) =>
        if MapArgs(r.m.tree, d, src, dst, perm) && Present(Xlate(r.m.tree, d, src)) {
          MapStepBorrowed(m0, r.m, d, r.leaked, src, dst, perm, PteFrame(Xlate(r.m.tree, d, src)));
        }
      case UnmapAt(v) =>
        if PnOk(v) && Present(Xlate(r.m.tree, d, v)) {
          UnmapBorrowed(m0, r.m, d, r.leaked, v);
        }
    }
  }

  lemma {:induction false} StepsBorrowed(m0: Mem, r: Run, d: int, ops: seq<VmOp>)
    requires Inv(m0) && Inv(r.m) && Borrowed(m0, r.m, d, r.leaked)
    ensures var r' := Steps(r, d, ops); Inv(r'.m) && Borrowed(m0, r'.m, d, r'.leaked)
    decreases |ops|
  {
    if ops != [] {
      StepBorrowed(m0, r, d, ops[0]);
      StepsBorrowed(m0, Step(r, d, ops[0]), d, ops[1..]);
    }
  }

  lemma FreedAll(m0: Mem, m: Mem, d: int, leaked: set<int>, i: int)
    requires Inv(m0) && Inv(m) && Borrowed(m0, m, d, leaked) && 0 <= i < |m0.tree.frames|
    ensures i in FreeSpace(m, d).free <==> i in m0.free && i !in leaked
  {
    FreeSpaceSpec(m, d);
    var S, r := SpaceSlots(m.tree, d, 0, UTOP_PDX), Refs(m.tree, i);
    RefTarget(m.tree, i);
    if i in m0.free {
      assert Located(m, d, leaked, i);
      if i != d && i !in m.free && i !in leaked {
        forall s | s in r ensures s in S {
          if i in m.tree.owner {
            assert OwnerOk(m.tree, i);
          } else {
            assert OwnerOk(m.tree, s.0);
          }
        }
      }
    } else {
      assert Untouched(m0, m, i);
      forall s | s in r ensures s !in S {
        if s.0 in m.tree.owner && m.tree.owner[s.0].0 == d {
          TableIsMine(m0, m, d, leaked, s.0);
        }
        if s.0 in m0.free {
          NoSlotInFreePage(m0, s.0, s.1, i);
        }
      }
    }
  }

  /** An environment gives back every page it took: for every run of page system calls on a new
      address space, after env_free the free pages are those there were before env_setup_vm,
      except the pages that failed sys_page_alloc calls dropped. */
  lemma LifetimeConserves(m0: Mem, kern: Frame, ops: seq<VmOp>, i: int)
    requires Inv(m0) && m0.free != [] && 0 <= i < |m0.tree.frames|
    ensures var d := m0.free[0];
      var r := Steps(Run(SetupVm(m0, kern).0, {}, Ok), d, ops);
      && Inv(FreeSpace(r.m, d))
      && (i in FreeSpace(r.m, d).free <==> i in m0.free && i !in r.leaked)
  {
    var d := m0.free[0];
    BorrowedInit(m0, kern);
    StepsBorrowed(m0, Run(SetupVm(m0, kern).0, {}, Ok), d, ops);
    var r := Steps(Run(SetupVm(m0, kern).0, {}, Ok), d, ops);
    FreeSpaceSpec(r.m, d);
    FreedAll(m0, r.m, d, r.leaked, i);
  }
}
