/** Pages the kernel has taken from the free list and maps nowhere (a snapshot's saved pages), and
    the kernel calls that leave them alone. */
module Held {
  import opened Mmu
  import opened Phys
  import opened Vm
  import opened Syscalls
  import opened EnvVm

  ghost predicate HeldPage(m: Mem, i: int) {
    Plain(m.tree, i) && i !in m.free && Refs(m.tree, i) == {} && At(m.pins, i) == 0
  }

  // Every held page but p is still held, with the same content.
  ghost predicate KeepsHeldBut(m: Mem, m': Mem, p: int) {
    forall i {:trigger Content(m'.tree, i)} {:trigger HeldPage(m', i)} :: HeldPage(m, i) && i != p ==>
      HeldPage(m', i) && Content(m'.tree, i) == Content(m.tree, i)
  }

  ghost predicate KeepsHeld(m: Mem, m': Mem) {
    forall i {:trigger Content(m'.tree, i)} {:trigger HeldPage(m', i)} :: HeldPage(m, i) ==>
      HeldPage(m', i) && Content(m'.tree, i) == Content(m.tree, i)
  }

  lemma InsertedKeepsHeld(m: Mem, m': Mem, d: int, p: int, v: int, i: int)
    requires Inserted(m, m', d, p, v) && KeepsFrames(m, m') && HeldPage(m, i) && i != p
    ensures HeldPage(m', i) && Content(m'.tree, i) == Content(m.tree, i)
  {
    assert Refs(m'.tree, i) == {};
  }

  lemma WalkedKeepsHeld(m: Mem, m': Mem, d: int, v: int, i: int)
    requires Walked(m, m', d, v) && KeepsFrames(m, m') && HeldPage(m, i)
    ensures HeldPage(m', i) && Content(m'.tree, i) == Content(m.tree, i)
  {
  }

  lemma InsertKeepsHeld(m: Mem, d: int, p: int, v: int, perm: int)
    requires Inv(m) && UserPage(m.tree, d, v) && Plain(m.tree, p) && p !in m.free && IsFlags(perm)
    ensures KeepsHeldBut(m, Insert(m, d, p, v, perm).0, p)
  {
    InsertSpec(m, d, p, v, perm);
    var (m', rc) := Insert(m, d, p, v, perm);
    if rc == Ok {
      InsertRefs(m, d, p, v, perm);
      forall i | HeldPage(m, i) && i != p ensures HeldPage(m', i) && Content(m'.tree, i) == Content(m.tree, i) {
        InsertedKeepsHeld(m, m', d, p, v, i);
      }
    } else if rc == Halt {
      WalkRefs(m, d, v);
      forall i | HeldPage(m, i) && i != p ensures HeldPage(m', i) && Content(m'.tree, i) == Content(m.tree, i) {
        WalkedKeepsHeld(m, m', d, v, i);
      }
    }
  }

  // page_alloc: one more held page
  lemma AllocHeld(m: Mem)
    requires Inv(m) && m.free != []
    ensures Inv(Alloc(m)) && HeldPage(Alloc(m), m.free[0]) && KeepsHeld(m, Alloc(m)) && !HeldPage(m, m.free[0])
  {
    AllocKeeps(m);
  }

  // Filling a frame leaves all other held pages alone.
  lemma FillHeld(m: Mem, p: int, content: Frame)
    requires Inv(m) && Plain(m.tree, p) && p !in m.free && |content| == NPTENTRIES
    ensures Inv(Fill(m, p, content)) && KeepsHeldBut(m, Fill(m, p, content), p)
    ensures HeldPage(m, p) ==> HeldPage(Fill(m, p, content), p) && Content(Fill(m, p, content).tree, p) == content
  {
    FillKeeps(m, p, content);
  }

  lemma DroppedKeepsHeld(m: Mem, m': Mem, S: set<(int, int)>)
    requires Dropped(m, m', S)
    requires forall i {:trigger Content(m'.tree, i)} :: Plain(m.tree, i) ==>
      Plain(m'.tree, i) && Content(m'.tree, i) == Content(m.tree, i)
    ensures KeepsHeld(m, m')
  {
  }

  // page_free of a held page
  lemma FreeHeld(m: Mem, p: int)
    requires Inv(m) && HeldPage(m, p)
    ensures Inv(Free(m, p)) && KeepsHeldBut(m, Free(m, p), p)
  {
    assert Counted(m.pages, m.tree, m.pins, p);
    PushFree(m.pages, m.head, m.free, p);
    SameCounts(m.pages, m.tree, SetLink(m.pages, p, m.head), m.tree, m.pins);
  }

  // ---------------------------------------------------------------- what kernel calls leave alone

  lemma MapKeepsHeld(m: Mem, sd: int, sv: int, dd: int, dv: int, perm: int, q: int)
    requires Inv(m) && UserPage(m.tree, sd, sv) && dd in m.tree.dirs && Present(Xlate(m.tree, sd, sv))
      && q == PteFrame(Xlate(m.tree, sd, sv))
    requires MapArgs(m.tree, sd, sv, dv, perm)
    ensures Inv(Insert(m, dd, q, dv, perm).0) && KeepsHeld(m, Insert(m, dd, q, dv, perm).0)
  {
    XlateTarget(m, sd, sv);
    GoodPermFlags(perm);
    InsertSpec(m, dd, q, dv, perm);
    InsertKeepsHeld(m, dd, q, dv, perm);
    assert !HeldPage(m, q);
  }

  lemma AllocKeepsHeld(m: Mem, d: int, v: int, perm: int)
    requires Inv(m) && d in m.tree.dirs
    ensures Inv(SysPageAlloc(m, d, v, perm).0) && KeepsHeld(m, SysPageAlloc(m, d, v, perm).0)
  {
    SysPageAllocSpec(m, d, v, perm);
    if PnOk(v) && GoodPerm(perm) && m.free != [] {
      AllocHeld(m);
      GoodPermFlags(perm);
      InsertKeepsHeld(Alloc(m), d, m.free[0], v, perm);
    }
  }

  lemma UnmapKeepsHeld(m: Mem, d: int, v: int)
    requires Inv(m) && UserPage(m.tree, d, v) && Present(Xlate(m.tree, d, v))
    ensures Inv(Unmap(m, d, v)) && KeepsHeld(m, Unmap(m, d, v))
  {
    UnmapSpec(m, d, v);
    UnmapDropped(m, d, v);
    var m' := Unmap(m, d, v);
    assert KeepsPlain(m.tree, m'.tree);
    forall i | Plain(m.tree, i) ensures Plain(m'.tree, i) && Content(m'.tree, i) == Content(m.tree, i) {
    }
    DroppedKeepsHeld(m, m', {(Table(m.tree, d, v), Ptx(v))});
  }

  lemma StoreKeepsHeld(m: Mem, d: int, v: int, k: int, x: int, p: int)
    requires Inv(m) && UserPage(m.tree, d, v) && Present(Xlate(m.tree, d, v)) && p == PteFrame(Xlate(m.tree, d, v))
    ensures Inv(Fill(m, p, Upd(Content(m.tree, p), k, x))) && KeepsHeld(m, Fill(m, p, Upd(Content(m.tree, p), k, x)))
  {
    XlateTarget(m, d, v);
    FillHeld(m, p, Upd(Content(m.tree, p), k, x));
    assert !HeldPage(m, p);
  }

  lemma SetupKeepsHeld(m: Mem, kern: Frame)
    requires Inv(m) && m.free != []
    ensures Inv(SetupVm(m, kern).0) && KeepsHeld(m, SetupVm(m, kern).0)
  {
    SetupSpec(m, kern);
  }

  lemma FreeKeepsHeld(m: Mem, d: int)
    requires Inv(m) && d in m.tree.dirs
    ensures Inv(FreeSpace(m, d)) && KeepsHeld(m, FreeSpace(m, d))
  {
    FreeSpaceSpec(m, d);
  }
}
