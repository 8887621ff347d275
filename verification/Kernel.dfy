/** env.c, syscall.c and fork.c carried out in place on the kernel's memory: each method does what
    the function of the same operation on `Mem` says, and keeps the invariant. */
module Kernel {
  import opened Mmu
  import opened Phys
  import opened Vm
  import opened Pmap
  import opened Syscalls
  import opened EnvVm
  import opened Cow
  import opened Snapshots

  // ---------------------------------------------------------------- env.c

  lemma SetupKeeps(m: Mem, kern: Frame)
    requires Inv(m) && m.free != []
    ensures Inv(SetupVm(m, kern).0)
  {
    SetupSpec(m, kern);
  }

  lemma FillTwice(m: Mem, p: int, c0: Frame, c: Frame)
    ensures Fill(Fill(m, p, c0), p, c) == Fill(m, p, c)
  {
    assert Upd(Upd(m.tree.frames, p, c0), p, c) == Upd(m.tree.frames, p, c);
  }

  /** env_setup_vm; kern is kern_pgdir.  The directory is NIL when no page is left. */
  method EnvSetupVm(k: PhysMem, kern: Frame) returns (d: int, rc: Rc)
    requires k.Valid() && |kern| == NPTENTRIES
    modifies k, k.pages, k.frames
    ensures k.Valid() && (k.State(), rc) == SetupVm(old(k.State()), kern)
    ensures d == if rc == Ok then old(k.State()).free[0] else NIL
  {
    ghost var was := k.State();
    d := k.PageAlloc(true);
    if d == NIL {
      return NIL, NoMem;
    }
    SetupKeeps(was, kern);
    CloneDir(k, d, kern);
    assert k.State() == Fill(Alloc(was), d, DirContent(kern, d)) by {
      FillTwice(Alloc(was), d, ZeroFrame(), DirContent(kern, d));
    }
    AdoptDir(k, d);
    return d, Ok;
  }

  // env_pgdir takes its reference to the directory.
  method AdoptDir(k: PhysMem, d: int)
    requires 0 <= d < k.pages.Length
    modifies k, k.pages
    ensures k.State() == Pin(old(k.State()), d).(tree := old(k.State()).tree.(dirs := old(k.dirs) + {d}))
  {
    k.BumpRef(d, 1);
    k.pins := Upd(k.pins, d, At(k.pins, d) + 1);
    k.dirs := k.dirs + {d};
  }

  // The memcpy of env_setup_vm, and the UVPT entry
  method CloneDir(k: PhysMem, d: int, kern: Frame)
    requires 0 <= d < k.frames.Length && k.frames[d] == ZeroFrame() && |kern| == NPTENTRIES
    modifies k.frames
    ensures k.State() == Fill(old(k.State()), d, DirContent(kern, d))
  {
    k.frames[d] := k.frames[d][..UTOP_PDX] + kern[UTOP_PDX..NPTENTRIES - 1] + k.frames[d][NPTENTRIES - 1..];
    k.frames[d] := k.frames[d][UVPT_PDX := MkPte(d, PTE_P + PTE_U)];
    assert k.frames[d] == DirContent(kern, d);
    assert k.frames[..] == Upd(old(k.frames[..]), d, DirContent(kern, d));
  }

  lemma EntryXlate(t: Tree, d: int, c: int, j: int)
    requires TreeOk(t) && d in t.dirs && 0 <= c < UTOP_PDX && 0 <= j < NPTENTRIES && Present(Entry(t, d, c))
    ensures UserPage(t, d, Pn(c, j)) && HasTable(t, d, Pn(c, j)) && Table(t, d, Pn(c, j)) == PteFrame(Entry(t, d, c))
    ensures 0 <= PteFrame(Entry(t, d, c)) < |t.frames|
    ensures Xlate(t, d, Pn(c, j)) == Entry(t, PteFrame(Entry(t, d, c)), j)
  {
    PnParts(c, j);
    TableOk(t, d, Pn(c, j));
  }

  // d is a directory whose entry c has value e.
  ghost predicate DirEntry(m: Mem, d: int, c: int, e: int) {
    d in m.tree.dirs && 0 <= c < UTOP_PDX && Entry(m.tree, d, c) == e
  }

  lemma UnmapKeepsDir(m: Mem, d: int, c: int, e: int, j: int)
    requires Inv(m) && DirEntry(m, d, c, e) && 0 <= j < NPTENTRIES && Present(e) && Present(Xlate(m.tree, d, Pn(c, j)))
    ensures var m' := Unmap(m, d, Pn(c, j)); Inv(m') && DirEntry(m', d, c, e)
  {
    EntryXlate(m.tree, d, c, j);
    UnmapSpec(m, d, Pn(c, j));
    assert Content(Unmap(m, d, Pn(c, j)).tree, d) == Content(m.tree, d);
  }

  // The body of env_flush_addr_space's inner loop; pt is the page table behind directory entry pdeno.
  method FlushEntry(k: PhysMem, d: int, pdeno: int, pteno: int, pt: int, ghost e: int)
    requires k.Valid() && DirEntry(k.State(), d, pdeno, e) && Present(e) && pt == PteFrame(e) && 0 <= pteno < NPTENTRIES
    modifies k, k.pages, k.frames
    ensures k.Valid() && DirEntry(k.State(), d, pdeno, e)
    ensures FlushEntries(k.State(), d, pdeno, pteno + 1) == FlushEntries(old(k.State()), d, pdeno, pteno)
  {
    ghost var m := k.State();
    EntryXlate(m.tree, d, pdeno, pteno);
    if Present(k.frames[pt][pteno]) {
      UnmapKeepsDir(m, d, pdeno, e, pteno);
      k.PageRemove(d, Pn(pdeno, pteno));
    }
  }

  lemma FlushedTable(m: Mem, d: int, c: int)
    requires Inv(m) && d in m.tree.dirs && 0 <= c < UTOP_PDX && Present(Entry(m.tree, d, c))
    ensures var m' := DropTable(FlushEntries(m, d, c, 0), d, c); Inv(m') && d in m'.tree.dirs
    ensures 0 <= PteFrame(Entry(m.tree, d, c)) < |m.tree.frames|
  {
    EntryXlate(m.tree, d, c, 0);
    EnvVm.FlushTable(m, d, c);
  }

  // env_flush_addr_space's inner loop
  method FlushPageTable(k: PhysMem, d: int, pdeno: int, pt: int, ghost e: int)
    requires k.Valid() && DirEntry(k.State(), d, pdeno, e) && Present(e) && pt == PteFrame(e)
    modifies k, k.pages, k.frames
    ensures k.Valid() && DirEntry(k.State(), d, pdeno, e)
    ensures k.State() == FlushEntries(old(k.State()), d, pdeno, 0)
  {
    ghost var was := k.State();
    for pteno := 0 to NPTENTRIES
      invariant k.Valid() && DirEntry(k.State(), d, pdeno, e)
      invariant FlushEntries(k.State(), d, pdeno, pteno) == FlushEntries(was, d, pdeno, 0)
    {
      FlushEntry(k, d, pdeno, pteno, pt, e);
    }
  }

  // The body of the outer loop, for a present directory entry
  method FlushDirEntry(k: PhysMem, d: int, pdeno: int)
    requires k.Valid() && d in k.dirs && 0 <= pdeno < UTOP_PDX && Present(Entry(k.State().tree, d, pdeno))
    modifies k, k.pages, k.frames
    ensures k.Valid() && d in k.dirs && k.State() == DropTable(FlushEntries(old(k.State()), d, pdeno, 0), d, pdeno)
  {
    FlushedTable(k.State(), d, pdeno);
    var pt := PteFrame(k.frames[d][pdeno]);
    FlushPageTable(k, d, pdeno, pt, k.frames[d][pdeno]);
    DropDirEntry(k, d, pdeno, pt);
  }

  // Freeing a page table
  method DropDirEntry(k: PhysMem, d: int, pdeno: int, pt: int)
    requires k.pages.Length == k.frames.Length && 0 <= d < k.frames.Length && |k.frames[d]| == NPTENTRIES
      && 0 <= pdeno < NPTENTRIES
    requires pt == PteFrame(k.frames[d][pdeno]) && 0 <= pt < k.pages.Length
      && (k.pages[pt].refs == 1 ==> k.pages[pt].link == NIL)
    modifies k, k.pages, k.frames
    ensures k.State() == DropTable(old(k.State()), d, pdeno)
  {
    k.StoreEntry(d, pdeno, 0);
    k.owner := k.owner - {pt};
    k.PageDecref(pt);
  }

  /** env_flush_addr_space */
  method EnvFlushAddrSpace(k: PhysMem, d: int)
    requires k.Valid() && d in k.dirs
    modifies k, k.pages, k.frames
    ensures k.Valid() && d in k.dirs && k.State() == FlushFrom(old(k.State()), d, 0)
  {
    ghost var was := k.State();
    for pdeno := 0 to UTOP_PDX
      invariant k.Valid() && d in k.dirs
      invariant FlushFrom(k.State(), d, pdeno) == FlushFrom(was, d, 0)
    {
      if Present(k.frames[d][pdeno]) {
        FlushDirEntry(k, d, pdeno);
      }
    }
  }

  lemma FreeSpaceKeeps(m: Mem, d: int)
    requires Inv(m) && d in m.tree.dirs
    ensures Inv(FreeSpace(m, d))
  {
    FreeSpaceSpec(m, d);
  }

  /** The end of env_free: the address space and its directory */
  method EnvFreeSpace(k: PhysMem, d: int)
    requires k.Valid() && d in k.dirs
    modifies k, k.pages, k.frames
    ensures k.Valid() && k.State() == FreeSpace(old(k.State()), d)
  {
    FreeSpaceKeeps(k.State(), d);
    EnvFlushAddrSpace(k, d);
    ReleaseDir(k, d);
  }

  // env_pgdir lets go of the directory.
  method ReleaseDir(k: PhysMem, d: int)
    requires 0 <= d < k.pages.Length && (k.pages[d].refs == 1 ==> k.pages[d].link == NIL)
    modifies k, k.pages
    ensures k.State() == FreeDir(old(k.State()), d)
  {
    k.dirs := k.dirs - {d};
    k.pins := Upd(k.pins, d, At(k.pins, d) - 1);
    k.PageDecref(d);
  }
}
