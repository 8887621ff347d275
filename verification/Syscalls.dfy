/** The page system calls, from the point where envid2env has found the environments: their
    address spaces are given by directory. */
module Syscalls {
  import opened Mmu
  import opened Phys
  import opened Vm

  // perm has PTE_U and PTE_P and nothing outside PTE_SYSCALL
  predicate GoodPerm(perm: int) { SyscallFlags(perm) && HasU(perm) && HasP(perm) }

  /** sys_page_alloc.  page_alloc's result is passed on without a test: with an empty free list
      page_insert gives up before it looks at the null page if it must make a page table, and
      dereferences it if there is one.  When page_insert fails the page it was given stays allocated. */
  ghost function SysPageAlloc(m: Mem, d: int, v: int, perm: int): (Mem, Rc) {
    if !PnOk(v) || !GoodPerm(perm) then (m, Inval)
    else if m.free == [] then (m, if HasTable(m.tree, d, v) then Halt else NoMem)
    else Insert(Alloc(m), d, m.free[0], v, perm)
  }

  // The tests of sys_page_map, all answered by E_INVAL.  page_lookup returns a page whenever there
  // is a page table, present or not.
  ghost predicate MapArgs(t: Tree, sd: int, sv: int, dv: int, perm: int) {
    && PnOk(sv) && PnOk(dv) && GoodPerm(perm)
    && HasTable(t, sd, sv) && (HasW(perm) ==> HasW(PteFlags(Xlate(t, sd, sv))))
  }

  /** sys_page_map */
  ghost function SysPageMap(m: Mem, sd: int, sv: int, dd: int, dv: int, perm: int): (Mem, Rc) {
    if !MapArgs(m.tree, sd, sv, dv, perm) then (m, Inval)
    else Insert(m, dd, PteFrame(Xlate(m.tree, sd, sv)), dv, perm)
  }

  /** sys_page_unmap, through page_remove and page_lookup, which do not test PTE_P either. */
  ghost function SysPageUnmap(m: Mem, d: int, v: int): (Mem, Rc) {
    if !PnOk(v) then (m, Inval)
    else if !HasTable(m.tree, d, v) then (m, Ok)
    else (Unmap(m, d, v), Ok)
  }

  /** PTE_U and PTE_P are set, PTE_W may be, and besides these only the PTE_AVAIL bits, 9 to 11. */
  lemma GoodPermValues(perm: int, avail: int, low: int)
    requires perm == 512 * avail + low && 0 <= low < 512
    ensures GoodPerm(perm) <==> 0 <= avail < 8 && (low == PTE_P + PTE_U || low == PTE_P + PTE_U + PTE_W)
  {
    PermParts(perm, avail, low);
    if low < 8 {
      assert GoodPerm(perm) <==> 0 <= avail < 8 && HasU(low) && HasP(low);
    }
  }

  lemma PermParts(perm: int, avail: int, low: int)
    requires perm == 512 * avail + low && 0 <= low < 512
    ensures perm / 8 % 64 == low / 8 && HasU(perm) == HasU(low) && HasP(perm) == HasP(low)
  {
    Eighth(perm, 64 * avail + low / 8);
    Quarter(perm, 128 * avail + low / 4);
    Rest64(64 * avail + low / 8, avail);
    SameParity(64 * avail, low / 4);
    SameParity(256 * avail, low);
  }

  lemma Eighth(n: int, q: int)
    requires 8 * q <= n < 8 * q + 8
    ensures n / 8 == q
  {
  }

  lemma Quarter(n: int, q: int)
    requires 4 * q <= n < 4 * q + 4
    ensures n / 4 == q
  {
  }

  lemma Rest64(n: int, q: int)
    requires 64 * q <= n < 64 * q + 64
    ensures n % 64 == n - 64 * q
  {
  }

  lemma SameParity(a: int, x: int)
    ensures (2 * a + x) % 2 == x % 2
  {
  }

  lemma GoodPermFlags(perm: int)
    requires GoodPerm(perm)
    ensures IsFlags(perm) && OrP(perm) == perm
  {
  }

  // ---------------------------------------------------------------- what they promise

  lemma AllocAndInsert(m: Mem, d: int, v: int, perm: int)
    requires Inv(m) && UserPage(m.tree, d, v) && GoodPerm(perm) && m.free != []
    ensures var (m', rc) := Insert(Alloc(m), d, m.free[0], v, perm);
      && Inv(m') && KeepsFrames(m, m') && m'.pins == m.pins && rc != Inval
      && Plain(m'.tree, m.free[0]) && m.free[0] !in m'.free
      && (rc == Ok ==> OneChange(m.tree, m'.tree, d, v, MkPte(m.free[0], perm)))
      && (rc != Ok ==> SameSpaces(m.tree, m'.tree))
  {
    AllocKeeps(m);
    GoodPermFlags(perm);
    InsertSpec(Alloc(m), d, m.free[0], v, perm);
  }

  // A page fresh from the list has no references yet, so its count cannot overflow.
  lemma AllocNoHalt(m: Mem, d: int, v: int, perm: int)
    requires Inv(m) && UserPage(m.tree, d, v) && m.free != []
    ensures var p, r := m.free[0], Insert(Alloc(m), d, m.free[0], v, perm);
      && (r.1 == Ok || r == (Alloc(m), NoMem))
      && (r.1 == NoMem <==> !HasTable(m.tree, d, v) && |m.free| == 1)
      && p !in Alloc(m).free && Plain(Alloc(m).tree, p)
  {
    AllocKeeps(m);
    assert HasTable(Alloc(m).tree, d, v) == HasTable(m.tree, d, v);
    if HasTable(Alloc(m).tree, d, v) || Alloc(m).free != [] {
      WalkSpec(Alloc(m), d, v);
    }
  }

  /** sys_page_alloc maps a page that no entry referred to, and changes no other translation and
      no frame in use; when it fails, no translation changes.  It fails for want of memory exactly
      when there is no page table and not two pages, and the kernel halts exactly when there is a
      page table and no page. */
  lemma SysPageAllocSpec(m: Mem, d: int, v: int, perm: int)
    requires Inv(m) && d in m.tree.dirs
    ensures var (m', rc) := SysPageAlloc(m, d, v, perm);
      && Inv(m') && KeepsFrames(m, m') && m'.pins == m.pins
      && (rc == Ok ==> PnOk(v) && m.free != [] && OneChange(m.tree, m'.tree, d, v, MkPte(m.free[0], perm)))
      && (rc != Ok ==> SameSpaces(m.tree, m'.tree))
      && (rc == Ok ==> Plain(m'.tree, m.free[0]) && m.free[0] !in m'.free)
      && (rc == Inval <==> !PnOk(v) || !GoodPerm(perm))
      && (rc == NoMem <==> PnOk(v) && GoodPerm(perm) && !HasTable(m.tree, d, v) && |m.free| <= 1)
      && (rc == Halt <==> PnOk(v) && GoodPerm(perm) && HasTable(m.tree, d, v) && m.free == [])
  {
    if PnOk(v) && GoodPerm(perm) && m.free != [] {
      AllocAndInsert(m, d, v, perm);
      AllocNoHalt(m, d, v, perm);
    }
  }

  /** sys_page_map of a present page makes the destination name the same frame.  It fails for want of
      memory exactly when the destination has no page table and there is no page for one, and the
      kernel halts exactly when the frame's count is at its limit. */
  lemma SysPageMapSpec(m: Mem, sd: int, sv: int, dd: int, dv: int, perm: int)
    requires Inv(m) && sd in m.tree.dirs && dd in m.tree.dirs
    requires PnOk(sv) ==> Present(Xlate(m.tree, sd, sv))
    ensures var (m', rc) := SysPageMap(m, sd, sv, dd, dv, perm);
      && Inv(m') && KeepsFrames(m, m') && m'.pins == m.pins
      && (rc == Ok ==> OneChange(m.tree, m'.tree, dd, dv, MkPte(PteFrame(Xlate(m.tree, sd, sv)), perm)))
      && (rc != Ok ==> SameSpaces(m.tree, m'.tree))
      && (rc == Inval <==> !MapArgs(m.tree, sd, sv, dv, perm))
      && (rc == NoMem <==> MapArgs(m.tree, sd, sv, dv, perm) && !HasTable(m.tree, dd, dv) && m.free == [])
      && (rc == Halt <==> (MapArgs(m.tree, sd, sv, dv, perm) && (HasTable(m.tree, dd, dv) || m.free != [])
            && Info(m, PteFrame(Xlate(m.tree, sd, sv))).refs >= MAX_REF))
  {
    if MapArgs(m.tree, sd, sv, dv, perm) {
      XlateTarget(m, sd, sv);
      GoodPermFlags(perm);
      InsertSpec(m, dd, PteFrame(Xlate(m.tree, sd, sv)), dv, perm);
    }
  }

  /** sys_page_unmap of a present page clears its entry; the frame is freed exactly when no other
      entry and no pin refers to it. */
  lemma SysPageUnmapSpec(m: Mem, d: int, v: int)
    requires Inv(m) && UserPage(m.tree, d, v) && Present(Xlate(m.tree, d, v))
    ensures var (m', rc) := SysPageUnmap(m, d, v);
      && rc == Ok && Inv(m') && OneChange(m.tree, m'.tree, d, v, 0) && KeepsFrames(m, m') && m'.pins == m.pins
      && (PteFrame(Xlate(m.tree, d, v)) in m'.free <==>
            Refs(m.tree, PteFrame(Xlate(m.tree, d, v))) == {(Table(m.tree, d, v), Ptx(v))}
              && At(m.pins, PteFrame(Xlate(m.tree, d, v))) == 0)
  {
    UnmapSpec(m, d, v);
  }

  /** "If no page is mapped, the function silently succeeds" does not hold of sys_page_unmap: on an
      absent page it changes the kernel's state (it takes a reference from physical page 0)
      exactly when a page table covers the address. */
  lemma UnmapOfAbsentPage(m: Mem, d: int, v: int)
    requires Inv(m) && UserPage(m.tree, d, v) && !Present(Xlate(m.tree, d, v)) && |m.pages| > 0
    ensures SysPageUnmap(m, d, v).0 == m <==> !HasTable(m.tree, d, v)
    ensures HasTable(m.tree, d, v) ==> Info(SysPageUnmap(m, d, v).0, 0).refs == m.pages[0].refs - 1
  {
    if HasTable(m.tree, d, v) {
      XlateZeroOrPresent(m.tree, d, v);
      TableOk(m.tree, d, v);
    }
  }

  /** "-E_INVAL if srcva is not mapped" does not hold of sys_page_map either: with otherwise valid
      arguments it refuses an absent source exactly when no page table covers it or PTE_W is
      asked for; else it goes on to map physical page 0. */
  lemma MapOfAbsentPage(m: Mem, sd: int, sv: int, dd: int, dv: int, perm: int)
    requires Inv(m) && UserPage(m.tree, sd, sv) && UserPage(m.tree, dd, dv) && !Present(Xlate(m.tree, sd, sv))
      && GoodPerm(perm)
    ensures SysPageMap(m, sd, sv, dd, dv, perm).1 == Inval <==> !HasTable(m.tree, sd, sv) || HasW(perm)
    ensures HasTable(m.tree, sd, sv) && !HasW(perm) ==>
      SysPageMap(m, sd, sv, dd, dv, perm) == Insert(m, dd, 0, dv, perm)
  {
    XlateZeroOrPresent(m.tree, sd, sv);
  }
}
