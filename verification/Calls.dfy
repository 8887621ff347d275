/** syscall.c's page calls and snapshots, and fork.c on top of them, carried out in place: each
    method does what the function of the same operation on `Mem` says. */
module Calls {
  import opened Mmu
  import opened Phys
  import opened Vm
  import opened Pmap
  import opened Kernel
  import opened Syscalls
  import opened EnvVm
  import opened Cow
  import opened Snapshots
  import opened Held

  // ---------------------------------------------------------------- page calls

  /** sys_page_alloc */
  method PageAllocCall(k: PhysMem, d: int, v: int, perm: int) returns (rc: Rc)
    requires k.Valid() && d in k.dirs
    modifies k, k.pages, k.frames
    ensures k.Valid() && (k.State(), rc) == SysPageAlloc(old(k.State()), d, v, perm)
  {
    if !PnOk(v) || !GoodPerm(perm) {
      return Inval;
    }
    var p := k.PageAlloc(false);
    if p == NIL {
      var f := k.PgdirWalk(d, v, true);
      return if f == NIL then NoMem else Halt;
    }
    rc := k.PageInsert(d, p, v, perm);
  }

  /** sys_page_map of a present page */
  method PageMapCall(k: PhysMem, sd: int, sv: int, dd: int, dv: int, perm: int) returns (rc: Rc)
    requires k.Valid() && sd in k.dirs && dd in k.dirs
    requires MapArgs(k.State().tree, sd, sv, dv, perm) ==> Present(Xlate(k.State().tree, sd, sv))
    modifies k, k.pages, k.frames
    ensures k.Valid() && (k.State(), rc) == SysPageMap(old(k.State()), sd, sv, dd, dv, perm)
  {
    if !PnOk(sv) || !PnOk(dv) || !GoodPerm(perm) {
      return Inval;
    }
    var p, f := k.PageLookup(sd, sv);
    if f == NIL {
      return Inval;
    }
    TableOk(k.State().tree, sd, sv);
    if HasW(perm) && !HasW(PteFlags(k.frames[f][Ptx(sv)])) {
      return Inval;
    }
    XlateTarget(k.State(), sd, sv);
    GoodPermFlags(perm);
    rc := k.PageInsert(dd, p, dv, perm);
  }

  /** sys_page_unmap */
  method PageUnmapCall(k: PhysMem, d: int, v: int) returns (rc: Rc)
    requires k.Valid() && d in k.dirs && k.pages.Length > 0
    modifies k, k.pages, k.frames
    ensures (k.State(), rc) == SysPageUnmap(old(k.State()), d, v)
  {
    if !PnOk(v) {
      return Inval;
    }
    k.PageRemove(d, v);
    return Ok;
  }

  // ---------------------------------------------------------------- fork.c

  // uvpt[v], read through uvpd
  method ReadPte(k: PhysMem, d: int, v: int) returns (e: int)
    requires k.Valid() && UserPage(k.State().tree, d, v)
    ensures e == Xlate(k.State().tree, d, v)
  {
    if !Present(k.frames[d][Pdx(v)]) {
      return 0;
    }
    TableOk(k.State().tree, d, v);
    return k.frames[PteFrame(k.frames[d][Pdx(v)])][Ptx(v)];
  }

  lemma MapKeepsDirs(m: Mem, sd: int, sv: int, dd: int, dv: int, perm: int)
    requires Inv(m) && sd in m.tree.dirs && dd in m.tree.dirs && (PnOk(sv) ==> Present(Xlate(m.tree, sd, sv)))
    ensures var (m', rc) := SysPageMap(m, sd, sv, dd, dv, perm);
      && m'.tree.dirs == m.tree.dirs
      && (rc == Ok && PnOk(sv) ==> Present(Xlate(m'.tree, sd, sv)))
  {
    SysPageMapSpec(m, sd, sv, dd, dv, perm);
    if PnOk(sv) {
      var (m', rc) := SysPageMap(m, sd, sv, dd, dv, perm);
      if rc == Ok {
        GoodPermFlags(perm);
        MkPteParts(PteFrame(Xlate(m.tree, sd, sv)), perm);
        assert UserPage(m.tree, sd, sv);
        assert Xlate(m'.tree, sd, sv) == if sd == dd && sv == dv then MkPte(PteFrame(Xlate(m.tree, sd, sv)), perm)
          else Xlate(m.tree, sd, sv);
      }
    }
  }

  // An absent entry has no permissions to ask for.
  lemma AbsentRefused(m: Mem, d: int, v: int, dv: int)
    requires Inv(m) && UserPage(m.tree, d, v) && !Present(Xlate(m.tree, d, v))
    ensures !GoodPerm(PteFlags(Xlate(m.tree, d, v))) && !W(Xlate(m.tree, d, v)) && !C(Xlate(m.tree, d, v))
  {
    XlateZeroOrPresent(m.tree, d, v);
  }

  /** duppage */
  method DupPage(k: PhysMem, pd: int, cd: int, pn: int) returns (rc: Rc)
    requires k.Valid() && pd in k.dirs && cd in k.dirs && PnOk(pn)
    modifies k, k.pages, k.frames
    ensures k.Valid() && k.dirs == old(k.dirs) && (k.State(), rc) == Dup(old(k.State()), pd, cd, pn)
  {
    ghost var m := k.State();
    var pte := ReadPte(k, pd, pn);
    if !Present(pte) {
      AbsentRefused(m, pd, pn, pn);
    } else if W(pte) || C(pte) {
      MapKeepsDirs(m, pd, pn, cd, pn, PERM_COW);
      rc := PageMapCall(k, pd, pn, cd, pn, PERM_COW);
      if rc != Ok {
        return;
      }
      MapKeepsDirs(k.State(), pd, pn, pd, pn, PERM_COW);
      rc := PageMapCall(k, pd, pn, pd, pn, PERM_COW);
      return;
    } else {
      MapKeepsDirs(m, pd, pn, cd, pn, PteFlags(pte));
    }
    rc := PageMapCall(k, pd, pn, cd, pn, PteFlags(pte));
  }

  // What fork's loop comes to, page by page from pn0 on; the i-th turn goes from path[i] to path[i+1].
  ghost predicate DupStep(path: seq<(Mem, Rc)>, pd: int, cd: int, pn0: int, i: int) {
    0 <= i < |path| - 1 ==> path[i].1 == Ok && path[i + 1] == DupMapped(path[i].0, pd, cd, pn0 + i)
  }

  // The path leads to page `last` or to the first failure.
  ghost predicate DupPath(path: seq<(Mem, Rc)>, pd: int, cd: int, pn0: int, last: int) {
    && 1 <= |path| <= last - pn0 + 1 && (|path| == last - pn0 + 1 || path[|path| - 1].1 != Ok)
    && forall i :: DupStep(path, pd, cd, pn0, i)
  }

  lemma PathCons(first: (Mem, Rc), rest: seq<(Mem, Rc)>, pd: int, cd: int, pn0: int, last: int)
    requires DupPath(rest, pd, cd, pn0 + 1, last) && first.1 == Ok && rest[0] == DupMapped(first.0, pd, cd, pn0)
    ensures DupPath([first] + rest, pd, cd, pn0, last)
  {
    var path := [first] + rest;
    forall i ensures DupStep(path, pd, cd, pn0, i) {
      StepCons(first, rest, pd, cd, pn0, i);
    }
  }

  lemma StepCons(first: (Mem, Rc), rest: seq<(Mem, Rc)>, pd: int, cd: int, pn0: int, i: int)
    requires rest != [] && first.1 == Ok && rest[0] == DupMapped(first.0, pd, cd, pn0)
      && DupStep(rest, pd, cd, pn0 + 1, i - 1)
    ensures DupStep([first] + rest, pd, cd, pn0, i)
  {
    if 0 < i < |rest| {
      assert ([first] + rest)[i] == rest[i - 1] && ([first] + rest)[i + 1] == rest[i];
      assert pn0 + 1 + (i - 1) == pn0 + i;
    }
  }

  // The end of the loop, and the end at a failure
  lemma PathEnd(end: (Mem, Rc), pd: int, cd: int, pn0: int, last: int)
    requires pn0 == last || (pn0 < last && end.1 != Ok)
    ensures DupPath([end], pd, cd, pn0, last)
  {
    forall i ensures DupStep([end], pd, cd, pn0, i) {
    }
  }

  lemma DupRangeTurn(m: Mem, pd: int, cd: int, pn: int, last: int, next: (Mem, Rc))
    requires pn < last && DupMapped(m, pd, cd, pn) == next
    ensures DupRange(m, pd, cd, pn, last) == if next.1 == Ok then DupRange(next.0, pd, cd, pn + 1, last) else next
  {
  }

  lemma {:induction false} DupRangePath(m: Mem, pd: int, cd: int, pn0: int, last: int)
      returns (path: seq<(Mem, Rc)>)
    requires pn0 <= last
    ensures DupPath(path, pd, cd, pn0, last) && path[0] == (m, Ok)
    ensures path[|path| - 1] == DupRange(m, pd, cd, pn0, last)
    decreases last - pn0
  {
    if pn0 == last {
      PathEnd((m, Ok), pd, cd, pn0, last);
      return [(m, Ok)];
    }
    var next := DupMapped(m, pd, cd, pn0);
    DupRangeTurn(m, pd, cd, pn0, last, next);
    path := [next];
    if next.1 == Ok {
      path := DupRangePath(next.0, pd, cd, pn0 + 1, last);
    } else if pn0 + 1 <= last {
      PathEnd(next, pd, cd, pn0 + 1, last);
    }
    PathCons((m, Ok), path, pd, cd, pn0, last);
    path := [(m, Ok)] + path;
  }

  // One turn of fork's loop
  method DupTurn(k: PhysMem, pd: int, cd: int, pn: int) returns (rc: Rc)
    requires k.Valid() && pd in k.dirs && cd in k.dirs && PnOk(pn)
    modifies k, k.pages, k.frames
    ensures k.Valid() && k.dirs == old(k.dirs) && (k.State(), rc) == DupMapped(old(k.State()), pd, cd, pn)
  {
    var pte := ReadPte(k, pd, pn);
    if Present(pte) {
      rc := DupPage(k, pd, cd, pn);
    } else {
      rc := Ok;
    }
  }

  // ... along the path
  method DupNext(k: PhysMem, pd: int, cd: int, i: int, last: int, ghost path: seq<(Mem, Rc)>) returns (rc: Rc)
    requires k.Valid() && pd in k.dirs && cd in k.dirs && 0 <= i < last - UTEXT_PN && last <= UTOP_PN
    requires DupPath(path, pd, cd, UTEXT_PN, last) && i < |path| && path[i] == (k.State(), Ok)
    modifies k, k.pages, k.frames
    ensures k.Valid() && k.dirs == old(k.dirs) && i + 1 < |path| && path[i + 1] == (k.State(), rc)
    ensures rc != Ok ==> i + 1 == |path| - 1
  {
    assert DupStep(path, pd, cd, UTEXT_PN, i) && DupStep(path, pd, cd, UTEXT_PN, i + 1);
    rc := DupTurn(k, pd, cd, UTEXT_PN + i);
  }

  // The loop
  method DupLoop(k: PhysMem, pd: int, cd: int, last: int, ghost path: seq<(Mem, Rc)>) returns (rc: Rc)
    requires k.Valid() && pd in k.dirs && cd in k.dirs && UTEXT_PN <= last <= UTOP_PN
      && DupPath(path, pd, cd, UTEXT_PN, last) && path[0] == (k.State(), Ok)
    modifies k, k.pages, k.frames
    ensures k.Valid() && k.dirs == old(k.dirs) && (k.State(), rc) == path[|path| - 1]
  {
    for pn := UTEXT_PN to last
      invariant k.Valid() && k.dirs == old(k.dirs)
      invariant pn - UTEXT_PN < |path| && path[pn - UTEXT_PN] == (k.State(), Ok)
    {
      rc := DupNext(k, pd, cd, pn - UTEXT_PN, last, path);
      if rc != Ok {
        return;
      }
    }
    return Ok;
  }

  /** fork's loop over the program image */
  method DupImage(k: PhysMem, pd: int, cd: int, last: int) returns (rc: Rc)
    requires k.Valid() && pd in k.dirs && cd in k.dirs && UTEXT_PN <= last <= UTOP_PN
    modifies k, k.pages, k.frames
    ensures k.Valid() && k.dirs == old(k.dirs) && (k.State(), rc) == DupRange(old(k.State()), pd, cd, UTEXT_PN, last)
  {
    ghost var path := DupRangePath(k.State(), pd, cd, UTEXT_PN, last);
    rc := DupLoop(k, pd, cd, last, path);
  }

  /** fork, from sys_exofork to sys_env_set_pgfault_upcall */
  method ForkSpace(k: PhysMem, pd: int, cd: int, last: int) returns (rc: Rc)
    requires k.Valid() && pd in k.dirs && cd in k.dirs && UTEXT_PN <= last <= UTOP_PN
    modifies k, k.pages, k.frames
    ensures k.Valid() && (k.State(), rc) == CopySpace(old(k.State()), pd, cd, last)
  {
    rc := DupImage(k, pd, cd, last);
    if rc != Ok {
      return;
    }
    rc := DupPage(k, pd, cd, USTACK_PN);
    if rc != Ok {
      return;
    }
    rc := PageAllocCall(k, cd, UXSTACK_PN, PERM_RW);
  }

  // memmove(PFTEMP, addr, PGSIZE)
  method CopyFrame(k: PhysMem, to: int, from: int)
    requires 0 <= to < k.frames.Length && 0 <= from < k.frames.Length
    modifies k.frames
    ensures k.State() == Fill(old(k.State()), to, old(Content(k.State().tree, from)))
  {
    k.frames[to] := k.frames[from];
    assert k.frames[..] == Upd(old(k.frames[..]), to, old(k.frames[from]));
  }

  // After pgfault's sys_page_alloc, both PFTEMP and the faulting page are mapped.
  lemma FaultAlloc(m: Mem, d: int, pn: int)
    requires Inv(m) && d in m.tree.dirs && PnOk(pn) && C(Xlate(m.tree, d, pn))
    ensures var (m1, rc) := SysPageAlloc(m, d, PFTEMP_PN, PERM_RW);
      rc == Ok ==> (Inv(m1) && d in m1.tree.dirs && Present(Xlate(m1.tree, d, PFTEMP_PN))
        && Present(Xlate(m1.tree, d, pn)))
  {
    CowPresent(m, d, pn);
    SysPageAllocSpec(m, d, PFTEMP_PN, PERM_RW);
    var (m1, rc) := SysPageAlloc(m, d, PFTEMP_PN, PERM_RW);
    if rc == Ok {
      ChangeKeepsPresent(m.tree, m1.tree, d, PFTEMP_PN, m.free[0], pn);
    }
  }

  lemma CowPresent(m: Mem, d: int, v: int)
    requires Inv(m) && UserPage(m.tree, d, v) && C(Xlate(m.tree, d, v))
    ensures Present(Xlate(m.tree, d, v))
  {
    XlateZeroOrPresent(m.tree, d, v);
  }

  lemma ChangeKeepsPresent(t: Tree, t': Tree, d: int, v: int, p: int, pn: int)
    requires OneChange(t, t', d, v, MkPte(p, PERM_RW)) && UserPage(t, d, v) && UserPage(t, d, pn)
      && Present(Xlate(t, d, pn))
    ensures Present(Xlate(t', d, v)) && Present(Xlate(t', d, pn))
  {
    PermBits(p);
    assert Xlate(t', d, v) == MkPte(p, PERM_RW);
    assert v != pn ==> Xlate(t', d, pn) == Xlate(t, d, pn);
  }

  lemma FaultStart(m1: Mem, d: int, pn: int)
    requires Inv(m1) && d in m1.tree.dirs && PnOk(pn) && Present(Xlate(m1.tree, d, PFTEMP_PN))
      && Present(Xlate(m1.tree, d, pn))
    ensures var p, q := PteFrame(Xlate(m1.tree, d, PFTEMP_PN)), PteFrame(Xlate(m1.tree, d, pn));
      && 0 <= p < |m1.tree.frames| && 0 <= q < |m1.tree.frames|
      && FaultFilled(m1, Fill(m1, p, Content(m1.tree, q)), d)
  {
    XlateTarget(m1, d, pn);
    XlateTarget(m1, d, PFTEMP_PN);
    FillXlate(m1, PteFrame(Xlate(m1.tree, d, PFTEMP_PN)), Content(m1.tree, PteFrame(Xlate(m1.tree, d, pn))));
  }

  ghost predicate FaultFilled(m1: Mem, m2: Mem, d: int) {
    && Inv(m2) && d in m2.tree.dirs && Xlate(m2.tree, d, PFTEMP_PN) == Xlate(m1.tree, d, PFTEMP_PN)
  }

  /** pgfault, for a write fault at page pn */
  method PgFaultHandler(k: PhysMem, d: int, pn: int) returns (rc: Rc)
    requires k.Valid() && d in k.dirs && PnOk(pn)
    modifies k, k.pages, k.frames
    ensures (k.State(), rc) == PgFault(old(k.State()), d, pn)
  {
    ghost var m := k.State();
    var pte := ReadPte(k, d, pn);
    if !C(pte) {
      return Inval;
    }
    FaultAlloc(m, d, pn);
    rc := PageAllocCall(k, d, PFTEMP_PN, PERM_RW);
    if rc != Ok {
      return;
    }
    FaultStart(k.State(), d, pn);
    var from := ReadPte(k, d, pn);
    var to := ReadPte(k, d, PFTEMP_PN);
    CopyFrame(k, PteFrame(to), PteFrame(from));
    MapKeepsDirs(k.State(), d, PFTEMP_PN, d, pn, PERM_RW);
    rc := PageMapCall(k, d, PFTEMP_PN, d, pn, PERM_RW);
    if rc != Ok {
      return;
    }
    rc := PageUnmapCall(k, d, PFTEMP_PN);
  }

  // ---------------------------------------------------------------- snapshots

  lemma SaveOneKeeps(m: Mem, d: int, v: int)
    requires Inv(m) && UserPage(m.tree, d, v) && m.free != []
    ensures var q, p := PteFrame(Xlate(m.tree, d, v)), m.free[0];
      && Inv(SaveOne(m, d, v)) && SaveOne(m, d, v).tree.dirs == m.tree.dirs
      && 0 <= q < |m.tree.frames| && 0 <= p < |m.tree.frames|
  {
    FrameInRange(m, d, v);
    TakePage(m, Content(m.tree, PteFrame(Xlate(m.tree, d, v))));
  }

  /** The body of sys_env_snapshot's loop, for a page that a page table covers */
  method SavePage(k: PhysMem, d: int, va: int) returns (s: SavedPage, ok: bool)
    requires k.Valid() && UserPage(k.State().tree, d, va) && HasTable(k.State().tree, d, va)
    modifies k, k.pages, k.frames
    ensures k.Valid() && k.dirs == old(k.dirs) && (ok <==> old(k.State()).free != [])
    ensures k.State() == if ok then SaveOne(old(k.State()), d, va) else old(k.State())
    ensures ok ==> s == SavedPage(va, PteFlags(Xlate(old(k.State()).tree, d, va)), old(k.State()).free[0])
  {
    ghost var m := k.State();
    var pte := ReadPte(k, d, va);
    var p := k.PageAlloc(false);
    s, ok := SavedPage(va, PteFlags(pte), p), p != NIL;
    if ok {
      SaveOneKeeps(m, d, va);
      CopyFrame(k, p, PteFrame(pte));
    }
  }

  // The snapshot of m0 is what has been saved so far, and that of the rest.
  ghost predicate SavedSoFar(m0: Mem, m: Mem, d: int, va: int, saved: seq<SavedPage>) {
    var (m2, rest, ok) := SaveFrom(m, d, va);
    (m2, saved + rest, ok) == SaveFrom(m0, d, UTEXT_PN)
  }

  lemma SaveTurn(m0: Mem, m: Mem, d: int, va: int, saved: seq<SavedPage>)
    requires SavedSoFar(m0, m, d, va, saved) && va < UTOP_PN && HasTable(m.tree, d, va)
    ensures m.free == [] ==> SaveFrom(m0, d, UTEXT_PN) == (m, saved, false)
    ensures m.free != [] ==>
      SavedSoFar(m0, SaveOne(m, d, va), d, va + 1, saved + [SavedPage(va, PteFlags(Xlate(m.tree, d, va)), m.free[0])])
  {
    if m.free == [] {
      assert saved + [] == saved;
    } else {
      var s, rest := SavedPage(va, PteFlags(Xlate(m.tree, d, va)), m.free[0]), SaveFrom(SaveOne(m, d, va), d, va + 1).1;
      assert saved + ([s] + rest) == (saved + [s]) + rest;
    }
  }

  lemma SaveSkip(m0: Mem, m: Mem, d: int, va: int, saved: seq<SavedPage>)
    requires SavedSoFar(m0, m, d, va, saved) && va < UTOP_PN && !HasTable(m.tree, d, va)
    ensures SavedSoFar(m0, m, d, va + 1, saved)
  {
  }

  // One turn of the loop
  method SaveNext(k: PhysMem, d: int, va: int, saved0: seq<SavedPage>, ghost m0: Mem)
          returns (saved: seq<SavedPage>, ok: bool)
    requires k.Valid() && d in k.dirs && 0 <= va < UTOP_PN && SavedSoFar(m0, k.State(), d, va, saved0)
    modifies k, k.pages, k.frames
    ensures k.Valid() && k.dirs == old(k.dirs)
    ensures if ok then SavedSoFar(m0, k.State(), d, va + 1, saved)
      else (k.State(), saved, false) == SaveFrom(m0, d, UTEXT_PN)
  {
    saved, ok := saved0, true;
    var p, f := k.PageLookup(d, va);
    if f != NIL {
      SaveTurn(m0, k.State(), d, va, saved0);
      var s: SavedPage;
      s, ok := SavePage(k, d, va);
      if ok {
        saved := saved + [s];
      }
    } else {
      SaveSkip(m0, k.State(), d, va, saved0);
    }
  }

  lemma SaveStart(m: Mem, d: int)
    ensures SavedSoFar(m, m, d, UTEXT_PN, [])
  {
    assert [] + SaveFrom(m, d, UTEXT_PN).1 == SaveFrom(m, d, UTEXT_PN).1;
  }

  lemma SaveEnd(m0: Mem, m: Mem, d: int, saved: seq<SavedPage>)
    requires SavedSoFar(m0, m, d, UTOP_PN, saved)
    ensures (m, saved, true) == SaveFrom(m0, d, UTEXT_PN)
  {
    assert saved + [] == saved;
  }

  /** sys_env_snapshot's loop: the list of saved pages, and whether there was memory for it */
  method SaveSpace(k: PhysMem, d: int) returns (saved: seq<SavedPage>, ok: bool)
    requires k.Valid() && d in k.dirs
    modifies k, k.pages, k.frames
    ensures k.Valid() && (k.State(), saved, ok) == SaveFrom(old(k.State()), d, UTEXT_PN)
  {
    ghost var m := k.State();
    saved := [];
    SaveStart(m, d);
    for va := UTEXT_PN to UTOP_PN
      invariant k.Valid() && d in k.dirs && SavedSoFar(m, k.State(), d, va, saved)
    {
      saved, ok := SaveNext(k, d, va, saved, m);
      if !ok {
        return;
      }
    }
    SaveEnd(m, k.State(), d, saved);
    return saved, true;
  }

  // ---------------------------------------------------------------- sys_env_resume

  lemma CopyOneKeeps(m: Mem, q: int)
    requires Inv(m) && HeldPage(m, q) && m.free != []
    ensures var m1 := Fill(Alloc(m), m.free[0], Content(m.tree, q));
      && Inv(m1) && m1.tree.dirs == m.tree.dirs && KeepsHeld(m, m1) && 0 <= q < |m.tree.frames|
  {
    TakePage(m, Content(m.tree, q));
  }

  // The copies of all pages are those made so far, and those of the rest.
  ghost predicate CopiedSoFar(m0: Mem, m: Mem, saved: seq<SavedPage>, i: int, copies: seq<int>) {
    && 0 <= i <= |saved|
    && var (m2, rest, ok) := CopyAll(m, saved[i..]);
       (m2, copies + rest, ok) == CopyAll(m0, saved)
  }

  lemma CopyTurn(m0: Mem, m: Mem, saved: seq<SavedPage>, i: int, copies: seq<int>)
    requires CopiedSoFar(m0, m, saved, i, copies) && i < |saved|
    ensures m.free == [] ==> CopyAll(m0, saved) == (m, copies, false)
    ensures m.free != [] ==>
      CopiedSoFar(m0, Fill(Alloc(m), m.free[0], Content(m.tree, saved[i].p)), saved, i + 1, copies + [m.free[0]])
  {
    assert saved[i..][0] == saved[i] && saved[i..][1..] == saved[i + 1..];
    if m.free == [] {
      assert copies + [] == copies;
    } else {
      var rest := CopyAll(Fill(Alloc(m), m.free[0], Content(m.tree, saved[i].p)), saved[i + 1..]).1;
      assert copies + ([m.free[0]] + rest) == (copies + [m.free[0]]) + rest;
    }
  }

  lemma CopyEnds(m0: Mem, m: Mem, saved: seq<SavedPage>, copies: seq<int>)
    ensures CopiedSoFar(m0, m0, saved, 0, [])
    ensures CopiedSoFar(m0, m, saved, |saved|, copies) ==> (m, copies, true) == CopyAll(m0, saved)
  {
    assert saved[0..] == saved && [] + CopyAll(m0, saved).1 == CopyAll(m0, saved).1;
    assert saved[|saved|..] == [] && copies + [] == copies;
  }

  ghost predicate AllHeld(m: Mem, saved: seq<SavedPage>) {
    forall j :: 0 <= j < |saved| ==> HeldPage(m, saved[j].p)
  }

  // One turn of the loop
  method CopyNext(k: PhysMem, saved: seq<SavedPage>, i: int, copies0: seq<int>, ghost m0: Mem)
          returns (copies: seq<int>, ok: bool)
    requires k.Valid() && AllHeld(k.State(), saved) && i < |saved| && CopiedSoFar(m0, k.State(), saved, i, copies0)
    modifies k, k.pages, k.frames
    ensures k.Valid() && k.dirs == old(k.dirs)
    ensures if ok then AllHeld(k.State(), saved) && CopiedSoFar(m0, k.State(), saved, i + 1, copies)
            else (k.State(), copies, false) == CopyAll(m0, saved)
  {
    ghost var m := k.State();
    CopyTurn(m0, m, saved, i, copies0);
    var p := k.PageAlloc(false);
    copies, ok := copies0, p != NIL;
    if ok {
      assert HeldPage(m, saved[i].p);
      CopyOneKeeps(m, saved[i].p);
      CopyFrame(k, p, saved[i].p);
      copies := copies + [p];
    }
  }

  /** The first loop of sys_env_resume: fresh copies of the saved pages */
  method CopyPages(k: PhysMem, saved: seq<SavedPage>) returns (copies: seq<int>, ok: bool)
    requires k.Valid() && AllHeld(k.State(), saved)
    modifies k, k.pages, k.frames
    ensures k.Valid() && k.dirs == old(k.dirs) && (k.State(), copies, ok) == CopyAll(old(k.State()), saved)
  {
    ghost var m := k.State();
    copies := [];
    CopyEnds(m, m, saved, copies);
    for i := 0 to |saved|
      invariant k.Valid() && k.dirs == old(k.dirs)
      invariant AllHeld(k.State(), saved) && CopiedSoFar(m, k.State(), saved, i, copies)
    {
      copies, ok := CopyNext(k, saved, i, copies, m);
      if !ok {
        return;
      }
    }
    CopyEnds(m, k.State(), saved, copies);
    return copies, true;
  }

  // Copies still to be inserted
  ghost predicate Waiting(m: Mem, copies: seq<int>, i: int) {
    && (forall j :: i <= j < |copies| && 0 <= j ==> HeldPage(m, copies[j]))
    && (forall j, l :: 0 <= j < l < |copies| ==> copies[j] != copies[l])
  }

  lemma InsertOneKeeps(m: Mem, d: int, saved: seq<SavedPage>, copies: seq<int>, i: int)
    requires Inv(m) && d in m.tree.dirs && DistinctPages(saved) && 0 <= i < |saved| == |copies| && Waiting(m, copies, i)
    ensures var (m1, rc) := Insert(m, d, copies[i], saved[i].v, saved[i].perm);
      Inv(m1) && d in m1.tree.dirs && (rc == Ok ==> Waiting(m1, copies, i + 1))
  {
    var p := copies[i];
    assert HeldPage(m, p);
    InsertSpec(m, d, p, saved[i].v, saved[i].perm);
    InsertKeepsHeld(m, d, p, saved[i].v, saved[i].perm);
  }

  /** The second loop of sys_env_resume: page_insert of the copies */
  method InsertCopies(k: PhysMem, d: int, saved: seq<SavedPage>, copies: seq<int>) returns (rc: Rc)
    requires k.Valid() && d in k.dirs && DistinctPages(saved) && |saved| == |copies| && Waiting(k.State(), copies, 0)
    modifies k, k.pages, k.frames
    ensures k.Valid() && (k.State(), rc) == InsertAll(old(k.State()), d, saved, copies)
  {
    ghost var m := k.State();
    assert saved[0..] == saved && copies[0..] == copies;
    for i := 0 to |saved|
      invariant k.Valid() && d in k.dirs && Waiting(k.State(), copies, i)
      invariant InsertAll(k.State(), d, saved[i..], copies[i..]) == InsertAll(m, d, saved, copies)
    {
      InsertOneKeeps(k.State(), d, saved, copies, i);
      assert HeldPage(k.State(), copies[i]);
      rc := k.PageInsert(d, copies[i], saved[i].v, saved[i].perm);
      if rc != Ok {
        return;
      }
      assert saved[i..][1..] == saved[i + 1..] && copies[i..][1..] == copies[i + 1..];
    }
    return Ok;
  }

  lemma {:induction false} CopiesWait(m: Mem, d: int, saved: seq<SavedPage>)
    requires Inv(m) && d in m.tree.dirs && forall j :: 0 <= j < |saved| ==> HeldPage(m, saved[j].p)
    ensures var (m1, copies, ok) := CopyAll(m, saved);
      ok ==> |copies| == |saved| && Inv(m1) && d in m1.tree.dirs && Waiting(FlushFrom(m1, d, 0), copies, 0)
  {
    CopyAllSpec(m, saved);
    var (m1, copies, ok) := CopyAll(m, saved);
    if ok {
      FlushHeld(m1, d);
      forall j | 0 <= j < |copies| ensures HeldPage(FlushFrom(m1, d, 0), copies[j]) {
        assert HeldPage(m1, copies[j]);
      }
    }
  }

  // Resume, by its parts
  lemma {:induction false} ResumeParts(m: Mem, d: int, s: Snapshot, tf: TrapFrame, m1: Mem, copies: seq<int>, ok: bool)
    requires CopyAll(m, s.pages) == (m1, copies, ok) && (ok ==> |copies| == |s.pages|)
    ensures !ok ==> Resume(m, d, s, tf) == (m1, tf, NoMem)
    ensures ok ==> Resume(m, d, s, tf) == (InsertAll(FlushFrom(m1, d, 0), d, s.pages, copies).0,
                                           tf.(regs := s.regs, eip := s.eip, esp := s.esp, eflags := s.eflags),
                                           InsertAll(FlushFrom(m1, d, 0), d, s.pages, copies).1)
  {
  }

  /** sys_env_resume of a snapshot of the environment's address space, with the trap frame it leaves */
  method ResumeSpace(k: PhysMem, d: int, s: Snapshot, tf: TrapFrame) returns (tf': TrapFrame, rc: Rc)
    requires k.Valid() && d in k.dirs && DistinctPages(s.pages)
    requires forall j :: 0 <= j < |s.pages| ==> HeldPage(k.State(), s.pages[j].p)
    modifies k, k.pages, k.frames
    ensures k.Valid() && (k.State(), rc) == (Resume(old(k.State()), d, s, tf).0, Resume(old(k.State()), d, s, tf).2)
    ensures rc == Ok ==> tf' == Resume(old(k.State()), d, s, tf).1
  {
    ghost var m := k.State();
    CopiesWait(m, d, s.pages);
    var copies, ok := CopyPages(k, s.pages);
    ResumeParts(m, d, s, tf, k.State(), copies, ok);
    if !ok {
      return tf, NoMem;
    }
    EnvFlushAddrSpace(k, d);
    rc := InsertCopies(k, d, s.pages, copies);
    tf' := tf.(regs := s.regs, eip := s.eip, esp := s.esp, eflags := s.eflags);
  }
}
