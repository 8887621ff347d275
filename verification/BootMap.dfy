/** The kernel's static mappings: boot_map_region with 4 KB pages, boot_map_superpage with 4 MB pages,
    check_va2pa, by which the two agree but in the window where the page directory shows itself, and
    what mem_init makes of them. */
module BootMap {
  import opened Mmu
  import opened Phys

  const PAGES := 0x10_0000     // virtual pages of a 32-bit address space

  const PTE_PS := 128

  predicate HasPs(flags: int) { flags / 128 % 2 == 1 }

  // flags | PTE_PS
  function OrPs(flags: int): int { if HasPs(flags) then flags else flags + PTE_PS }

  lemma OrPsFlags(flags: int)
    requires IsFlags(flags)
    ensures IsFlags(OrPs(flags)) && HasPs(OrPs(flags)) && HasP(OrPs(flags)) == HasP(flags)
  {
  }

  predicate Super(e: int) { HasPs(PteFlags(e)) }

  function Word(frames: seq<Frame>, f: int, k: int): int {
    if 0 <= f < |frames| then At(frames[f], k) else 0
  }

  /** check_va2pa: the physical page behind virtual page v, or NIL */
  function Va2Pa(frames: seq<Frame>, d: int, v: int): int {
    var pde := Word(frames, d, v / 1024);
    if !Present(pde) then NIL
    else if Super(pde) then PteFrame(pde) + v % 1024
    else
      var pte := Word(frames, PteFrame(pde), v % 1024);
      if Present(pte) then PteFrame(pte) else NIL
  }

  // The flags of the entry that maps virtual page v, or 0
  function Perms(frames: seq<Frame>, d: int, v: int): int {
    var pde := Word(frames, d, v / 1024);
    if !Present(pde) then 0
    else if Super(pde) then PteFlags(pde)
    else
      var pte := Word(frames, PteFrame(pde), v % 1024);
      if Present(pte) then PteFlags(pte) else 0
  }

  // Page v is mapped in the same way.
  predicate SameAt(f0: seq<Frame>, f1: seq<Frame>, d: int, v: int) {
    Va2Pa(f1, d, v) == Va2Pa(f0, d, v) && Perms(f1, d, v) == Perms(f0, d, v)
  }

  // ---------------------------------------------------------------- the kernel's directory

  // The first page of the window at UVPT, where directory d shows itself
  const WINDOW_PN := UVPT_PDX * 1024

  ghost predicate SelfMap(frames: seq<Frame>, d: int) {
    var e := Word(frames, d, UVPT_PDX); Present(e) && !Super(e) && PteFrame(e) == d
  }

  // The table behind directory entry k is a frame of its own; only behind UVPT it is the directory.
  ghost predicate TableAlone(frames: seq<Frame>, free: seq<int>, d: int, k: int) {
    var e := Word(frames, d, k);
    Present(e) && !Super(e) ==>
      0 <= PteFrame(e) < |frames| && PteFrame(e) !in free && (PteFrame(e) == d <==> k == UVPT_PDX)
  }

  ghost predicate Tables(frames: seq<Frame>, d: int) {
    forall k, l :: (0 <= k < l < NPTENTRIES && Present(Word(frames, d, k)) && !Super(Word(frames, d, k))
      && Present(Word(frames, d, l)) && !Super(Word(frames, d, l))) ==>
      PteFrame(Word(frames, d, k)) != PteFrame(Word(frames, d, l))
  }

  // The free frames, and d, which is not one of them
  ghost predicate PageList(frames: seq<Frame>, free: seq<int>, d: int) {
    && 0 <= d < |frames| && d !in free
    && (forall i :: 0 <= i < |frames| ==> |frames[i]| == NPTENTRIES)
    && (forall j :: 0 <= j < |free| ==> 0 <= free[j] < |frames|)
    && (forall j, l :: 0 <= j < l < |free| ==> free[j] != free[l])
  }

  // A directory d that is its own page table at UVPT; its other tables and the free frames are apart.
  ghost predicate KernDir(frames: seq<Frame>, free: seq<int>, d: int) {
    && PageList(frames, free, d) && SelfMap(frames, d)
    && (forall k :: 0 <= k < NPTENTRIES ==> TableAlone(frames, free, d, k))
    && Tables(frames, d)
  }

  // memset(kern_pgdir, 0, PGSIZE); kern_pgdir[PDX(UVPT)] = PADDR(kern_pgdir) | PTE_U | PTE_P
  function FirstDir(d: int): Frame { ZeroFrame()[UVPT_PDX := MkPte(d, PTE_P + PTE_U)] }

  // The directory that mem_init starts with is one of these.
  lemma FirstKernDir(frames: seq<Frame>, free: seq<int>, d: int)
    requires PageList(frames, free, d) && frames[d] == FirstDir(d)
    ensures KernDir(frames, free, d)
    ensures forall k :: 0 <= k < NPTENTRIES && k != UVPT_PDX ==> Word(frames, d, k) == 0
    ensures EntryChecked(frames, d, UVPT_PDX)
  {
    MkPteParts(d, PTE_P + PTE_U);
    assert forall k :: 0 <= k < NPTENTRIES ==>
      Word(frames, d, k) == if k == UVPT_PDX then MkPte(d, PTE_P + PTE_U) else 0;
    forall k | 0 <= k < NPTENTRIES ensures TableAlone(frames, free, d, k) {
    }
  }

  function EntryPage(e: int): int { if Present(e) then PteFrame(e) else NIL }

  predicate InWindow(v: int) { v / 1024 == UVPT_PDX }

  /** A page of the window is what its directory entry names, page table or superpage. */
  lemma SelfMapWindow(frames: seq<Frame>, d: int, v: int)
    requires SelfMap(frames, d) && InWindow(v)
    ensures Va2Pa(frames, d, v) == EntryPage(Word(frames, d, v % 1024))
  {
  }

  // Pages v0 .. v0+n leave the window alone.
  predicate NoWindow(v0: int, n: int) { v0 + n <= WINDOW_PN || v0 >= WINDOW_PN + 1024 }

  // From f0 to f1 exactly the pages v0 .. v0+n are mapped, to pn and its successors with these flags,
  // as far as can be seen outside the window.
  ghost predicate Mapped(f0: seq<Frame>, f1: seq<Frame>, d: int, v0: int, n: int, pn: int, flags: int) {
    forall v {:trigger Va2Pa(f1, d, v)} {:trigger Perms(f1, d, v)} :: 0 <= v < PAGES && !InWindow(v) ==>
      && Va2Pa(f1, d, v) == (if v0 <= v < v0 + n then pn + (v - v0) else Va2Pa(f0, d, v))
      && Perms(f1, d, v) == (if v0 <= v < v0 + n then flags else Perms(f0, d, v))
  }

  // No directory entry of the pages v0 .. v0+n is present.
  ghost predicate Unmapped(frames: seq<Frame>, d: int, v0: int, n: int) {
    forall v {:trigger Word(frames, d, v / 1024)} :: v0 <= v < v0 + n ==> !Present(Word(frames, d, v / 1024))
  }

  // Size, virtual and physical address are multiples of 4 MB.
  predicate Aligned(v0: int, n: int, pn: int) { n % 1024 == 0 && v0 % 1024 == 0 && pn % 1024 == 0 }

  predicate SuperAt(frames: seq<Frame>, d: int, v: int) {
    Present(Word(frames, d, v / 1024)) && Super(Word(frames, d, v / 1024))
  }

  // No page of the range is in a superpage.
  ghost predicate NoSuper(frames: seq<Frame>, d: int, v0: int, n: int) {
    forall v {:trigger SuperAt(frames, d, v)} :: v0 <= v < v0 + n ==> !SuperAt(frames, d, v)
  }

  // How many directory entries of the pages v0 .. v0+n have no page table
  function TablesMissing(frames: seq<Frame>, d: int, v0: int, n: int): (r: int)
    ensures r >= 0
    decreases n
  {
    if n <= 0 then 0
    else
      var v := v0 + n - 1;
      TablesMissing(frames, d, v0, n - 1)
      + (if !Present(Word(frames, d, v / 1024)) && (n == 1 || (v - 1) / 1024 != v / 1024) then 1 else 0)
  }

  // Directory entry k spans one of the pages v0 .. v0+n.
  predicate Touched(v0: int, n: int, k: int) { n > 0 && v0 / 1024 <= k <= (v0 + n - 1) / 1024 }

  // The first page from v0 on that entry k spans
  function FirstIn(v0: int, k: int): int { if k * 1024 < v0 then v0 else k * 1024 }

  function TableEntry(p: int): int { MkPte(p, PTE_P + PTE_W + PTE_U) }

  /** The table made for entry k, if it was missing: they are taken from the free list in the order of
      the addresses. */
  function TableTaken(f0: seq<Frame>, free: seq<int>, d: int, v0: int, k: int): int {
    At(free, TablesMissing(f0, d, v0, FirstIn(v0, k) - v0))
  }

  // The directory after page tables have been made for the pages v0 .. v0+n; no other entry changes.
  ghost predicate Tabled(f0: seq<Frame>, free: seq<int>, f1: seq<Frame>, d: int, v0: int, n: int) {
    forall k {:trigger Word(f1, d, k)} :: 0 <= k < NPTENTRIES ==>
      Word(f1, d, k) == if Touched(v0, n, k) && !Present(Word(f0, d, k)) then TableEntry(TableTaken(f0, free, d, v0, k))
                        else Word(f0, d, k)
  }

  function SuperEntry(v0: int, k: int, pn: int, flags: int): int { MkPte(pn + (k - v0 / 1024) * 1024, flags) }

  // The directory after m superpages from page v0 on
  ghost predicate Supered(f0: seq<Frame>, f1: seq<Frame>, d: int, v0: int, m: int, pn: int, flags: int) {
    forall k {:trigger Word(f1, d, k)} :: 0 <= k < NPTENTRIES ==>
      Word(f1, d, k) == if v0 / 1024 <= k < v0 / 1024 + m then SuperEntry(v0, k, pn, flags) else Word(f0, d, k)
  }

  function Put(frames: seq<Frame>, f: int, k: int, e: int): seq<Frame> {
    if 0 <= f < |frames| && 0 <= k < |frames[f]| then frames[f := frames[f][k := e]] else frames
  }

  lemma PutWord(frames: seq<Frame>, f: int, k: int, e: int)
    requires 0 <= f < |frames| && |frames[f]| == NPTENTRIES && 0 <= k < NPTENTRIES
    ensures forall g, l :: Word(Put(frames, f, k, e), g, l) == if g == f && l == k then e else Word(frames, g, l)
  {
  }

  // ---------------------------------------------------------------- pages

  // pgdir_walk's new page table changes no translation outside the window.
  lemma AddPageTable(frames: seq<Frame>, free: seq<int>, d: int, k: int)
    requires KernDir(frames, free, d) && free != [] && 0 <= k < NPTENTRIES && !Present(Word(frames, d, k))
    ensures var f1 := Put(frames[free[0] := ZeroFrame()], d, k, TableEntry(free[0]));
      && KernDir(f1, free[1..], d)
      && (forall v :: 0 <= v < PAGES && !InWindow(v) ==> SameAt(frames, f1, d, v))
      && Word(f1, d, k) == TableEntry(free[0])
      && (forall l :: 0 <= l < NPTENTRIES && l != k ==> Word(f1, d, l) == Word(frames, d, l))
  {
    var p, e := free[0], TableEntry(free[0]);
    var f1 := Put(frames[p := ZeroFrame()], d, k, e);
    MkPteParts(p, PTE_P + PTE_W + PTE_U);
    assert forall g, l :: 0 <= g < |frames| && 0 <= l < NPTENTRIES ==>
      Word(f1, g, l) == if g == d && l == k then e else if g == p then 0 else Word(frames, g, l);
    forall l | 0 <= l < NPTENTRIES ensures TableAlone(f1, free[1..], d, l) {
      assert TableAlone(frames, free, d, l);
    }
    forall x, y | 0 <= x < y < NPTENTRIES && Present(Word(f1, d, x)) && !Super(Word(f1, d, x))
      && Present(Word(f1, d, y)) && !Super(Word(f1, d, y))
      ensures PteFrame(Word(f1, d, x)) != PteFrame(Word(f1, d, y))
    {
      assert TableAlone(frames, free, d, x) && TableAlone(frames, free, d, y);
    }
    forall v | 0 <= v < PAGES && !InWindow(v) ensures SameAt(frames, f1, d, v) {
      assert TableAlone(frames, free, d, v / 1024);
    }
  }

  /** Writing the page-table entry of v maps v and nothing else. */
  lemma PutPage(frames: seq<Frame>, free: seq<int>, d: int, v: int, pn: int, flags: int)
    requires KernDir(frames, free, d) && 0 <= v < PAGES && !InWindow(v) && IsFlags(flags) && HasP(flags)
    requires Present(Word(frames, d, v / 1024)) && !Super(Word(frames, d, v / 1024))
    ensures var f1 := Put(frames, PteFrame(Word(frames, d, v / 1024)), v % 1024, MkPte(pn, flags));
      && KernDir(f1, free, d) && Mapped(frames, f1, d, v, 1, pn, flags)
      && forall l :: 0 <= l < NPTENTRIES ==> Word(f1, d, l) == Word(frames, d, l)
  {
    var t, k := PteFrame(Word(frames, d, v / 1024)), v % 1024;
    var f1 := Put(frames, t, k, MkPte(pn, flags));
    assert TableAlone(frames, free, d, v / 1024);
    MkPteParts(pn, flags);
    PutWord(frames, t, k, MkPte(pn, flags));
    forall l | 0 <= l < NPTENTRIES ensures TableAlone(f1, free, d, l) {
      assert TableAlone(frames, free, d, l);
    }
    forall u | 0 <= u < PAGES && !InWindow(u) 
      ensures if u == v then Va2Pa(f1, d, u) == pn && Perms(f1, d, u) == flags else SameAt(frames, f1, d, u)
    {
      SamePage(u, v);
      assert TableAlone(frames, free, d, u / 1024);
    }
  }

  lemma SamePage(u: int, v: int)
    requires 0 <= u < PAGES && 0 <= v < PAGES
    ensures u == v <==> u / 1024 == v / 1024 && u % 1024 == v % 1024
    ensures 0 <= u / 1024 < NPTENTRIES
  {
  }

  // ---------------------------------------------------------------- superpages

  /** A 4 MB directory entry maps the 1024 pages it spans and nothing else. */
  lemma PutSuper(frames: seq<Frame>, free: seq<int>, d: int, k: int, pn: int, flags: int)
    requires KernDir(frames, free, d) && 0 <= k < NPTENTRIES && k != UVPT_PDX
      && IsFlags(flags) && HasP(flags) && HasPs(flags)
    ensures var f1 := Put(frames, d, k, MkPte(pn, flags));
      && KernDir(f1, free, d) && Mapped(frames, f1, d, k * 1024, 1024, pn, flags)
      && (forall l :: 0 <= l < NPTENTRIES ==>
        Word(f1, d, l) == if l == k then MkPte(pn, flags) else Word(frames, d, l))
  {
    var f1 := Put(frames, d, k, MkPte(pn, flags));
    MkPteParts(pn, flags);
    PutWord(frames, d, k, MkPte(pn, flags));
    forall l | 0 <= l < NPTENTRIES ensures TableAlone(f1, free, d, l) {
      assert TableAlone(frames, free, d, l);
    }
    forall v | 0 <= v < PAGES && !InWindow(v) 
      ensures if k * 1024 <= v < k * 1024 + 1024 then Va2Pa(f1, d, v) == pn + (v - k * 1024) && Perms(f1, d, v) == flags
              else SameAt(frames, f1, d, v)
    {
      assert k * 1024 <= v < k * 1024 + 1024 <==> v / 1024 == k;
      assert TableAlone(frames, free, d, v / 1024);
    }
  }

  lemma MappedMore(f0: seq<Frame>, f1: seq<Frame>, f2: seq<Frame>, d: int, v0: int, n: int, k: int, pn: int, flags: int)
    requires Mapped(f0, f1, d, v0, n, pn, flags) && Mapped(f1, f2, d, v0 + n, k, pn + n, flags) && n >= 0 && k >= 0
    ensures Mapped(f0, f2, d, v0, n + k, pn, flags)
  {
    forall v | 0 <= v < PAGES && !InWindow(v)
      ensures Va2Pa(f2, d, v) == if v0 <= v < v0 + (n + k) then pn + (v - v0) else Va2Pa(f0, d, v)
      ensures Perms(f2, d, v) == if v0 <= v < v0 + (n + k) then flags else Perms(f0, d, v)
    {
      assert Va2Pa(f1, d, v) == if v0 <= v < v0 + n then pn + (v - v0) else Va2Pa(f0, d, v);
    }
  }

  // ---------------------------------------------------------------- page tables taken

  // pgdir_walk at v: only the entry of v changes, and only if it was absent, to a table at p.
  ghost predicate WalkedAt(f1: seq<Frame>, f2: seq<Frame>, d: int, v: int, p: int) {
    forall k {:trigger Word(f2, d, k)} :: 0 <= k < NPTENTRIES ==>
      Word(f2, d, k) == if k == v / 1024 && !Present(Word(f1, d, k)) then TableEntry(p) else Word(f1, d, k)
  }

  lemma TouchedNext(v0: int, i: int, k: int)
    requires 0 <= v0 && 0 <= i
    ensures k != (v0 + i) / 1024 ==> (Touched(v0, i + 1, k) <==> Touched(v0, i, k))
    ensures k == (v0 + i) / 1024 ==> Touched(v0, i + 1, k) && (Touched(v0, i, k) || FirstIn(v0, k) == v0 + i)
    ensures k == (v0 + i) / 1024 ==> (Touched(v0, i, k) <==> i != 0 && (v0 + i - 1) / 1024 == k)
  {
  }

  // What one more page needs
  lemma MissingOne(frames: seq<Frame>, d: int, v0: int, i: int, k: int)
    requires 0 <= v0 && 0 <= i && k == (v0 + i) / 1024
    ensures TablesMissing(frames, d, v0, i + 1)
         == TablesMissing(frames, d, v0, i) + if !Present(Word(frames, d, k)) && !Touched(v0, i, k) then 1 else 0
  {
    TouchedNext(v0, i, k);
    assert v0 + (i + 1) - 1 == v0 + i;
  }

  // ... when the pages before it have their tables
  lemma MissingNext(f0: seq<Frame>, free: seq<int>, f1: seq<Frame>, d: int, v0: int, i: int, k: int)
    requires 0 <= v0 && 0 <= i && v0 + i < PAGES && Tabled(f0, free, f1, d, v0, i) && k == (v0 + i) / 1024
    ensures TablesMissing(f0, d, v0, i + 1)
         == TablesMissing(f0, d, v0, i) + if Present(Word(f1, d, k)) then 0 else 1
  {
    MissingOne(f0, d, v0, i, k);
    MkPteParts(TableTaken(f0, free, d, v0, k), PTE_P + PTE_W + PTE_U);
  }

  lemma TabledStep(f0: seq<Frame>, free: seq<int>, f1: seq<Frame>, f2: seq<Frame>, d: int, v0: int, i: int, p: int)
    requires 0 <= v0 && 0 <= i && v0 + i < PAGES && Tabled(f0, free, f1, d, v0, i)
    requires p == At(free, TablesMissing(f0, d, v0, i)) && WalkedAt(f1, f2, d, v0 + i, p)
    ensures Tabled(f0, free, f2, d, v0, i + 1)
  {
    forall k | 0 <= k < NPTENTRIES
      ensures Word(f2, d, k) == if Touched(v0, i + 1, k) && !Present(Word(f0, d, k)) then
                                  TableEntry(TableTaken(f0, free, d, v0, k)) else Word(f0, d, k)
    {
      TabledAt(f0, free, f1, f2, d, v0, i, p, k, TableTaken(f0, free, d, v0, k));
    }
  }

  lemma TabledAt(f0: seq<Frame>, free: seq<int>, f1: seq<Frame>, f2: seq<Frame>, d: int, v0: int, i: int, p: int,
          k: int, t: int)
    requires 0 <= v0 && 0 <= i && 0 <= k < NPTENTRIES && WalkedAt(f1, f2, d, v0 + i, p)
    requires Word(f1, d, k) == if Touched(v0, i, k) && !Present(Word(f0, d, k)) then TableEntry(t) else Word(f0, d, k)
    requires FirstIn(v0, k) == v0 + i ==> p == t
    ensures Word(f2, d, k) == if Touched(v0, i + 1, k) && !Present(Word(f0, d, k)) then TableEntry(t)
                              else Word(f0, d, k)
  {
    TouchedNext(v0, i, k);
    MkPteParts(t, PTE_P + PTE_W + PTE_U);
  }

  lemma {:induction false} MissingGrows(frames: seq<Frame>, d: int, v0: int, i: int, n: int)
    requires 0 <= i <= n
    ensures TablesMissing(frames, d, v0, i) <= TablesMissing(frames, d, v0, n)
    decreases n
  {
    if i < n {
      MissingGrows(frames, d, v0, i, n - 1);
    }
  }

  lemma CeilStep(v0: int, n: int)
    requires 0 <= v0 && v0 % 1024 == 0 && 0 < n
    ensures (n + 1023) / 1024 == (n + 1022) / 1024 + if Touched(v0, n - 1, (v0 + n - 1) / 1024) then 0 else 1
  {
    TouchedNext(v0, n - 1, (v0 + n - 1) / 1024);
  }

  // In an unmapped range from a multiple of 4 MB on every entry is missing its table.
  lemma {:induction false} AllMissing(frames: seq<Frame>, d: int, v0: int, n: int)
    requires 0 <= v0 && 0 <= n && v0 % 1024 == 0 && Unmapped(frames, d, v0, n)
    ensures TablesMissing(frames, d, v0, n) == (n + 1023) / 1024
    decreases n
  {
    if n > 0 {
      AllMissing(frames, d, v0, n - 1);
      MissingOne(frames, d, v0, n - 1, (v0 + n - 1) / 1024);
      assert !Present(Word(frames, d, (v0 + n - 1) / 1024));
      CeilStep(v0, n);
    }
  }

  // Within one entry a single table can be missing.
  lemma {:induction false} OneMissing(frames: seq<Frame>, d: int, v0: int, n: int)
    requires 0 < n && v0 / 1024 == (v0 + n - 1) / 1024
    ensures TablesMissing(frames, d, v0, n) == if Present(Word(frames, d, v0 / 1024)) then 0 else 1
    decreases n
  {
    if n > 1 {
      OneMissing(frames, d, v0, n - 1);
    }
  }

  lemma StillNoSuper(f0: seq<Frame>, free: seq<int>, f1: seq<Frame>, d: int, v0: int, n: int, i: int)
    requires 0 <= v0 && 0 <= i < n && v0 + n <= PAGES && NoSuper(f0, d, v0, n) && Tabled(f0, free, f1, d, v0, i)
    ensures !SuperAt(f1, d, v0 + i)
  {
    var k := (v0 + i) / 1024;
    assert !SuperAt(f0, d, v0 + i);
    MkPteParts(TableTaken(f0, free, d, v0, k), PTE_P + PTE_W + PTE_U);
  }

  // Directory entries k .. k+n are absent.
  ghost predicate EntriesAbsent(frames: seq<Frame>, d: int, k: int, n: int) {
    forall l :: k <= l < k + n ==> !Present(Word(frames, d, l))
  }

  lemma AbsentUnmapped(frames: seq<Frame>, d: int, v0: int, n: int)
    requires v0 % 1024 == 0 && n % 1024 == 0 && EntriesAbsent(frames, d, v0 / 1024, n / 1024)
    ensures Unmapped(frames, d, v0, n)
  {
    forall v | v0 <= v < v0 + n ensures !Present(Word(frames, d, v / 1024)) {
      assert v0 / 1024 <= v / 1024 < v0 / 1024 + n / 1024;
    }
  }

  lemma PresentInside(frames: seq<Frame>, d: int, v0: int, n: int, k: int)
    requires v0 % 1024 == 0 && n % 1024 == 0 && v0 / 1024 <= k < v0 / 1024 + n / 1024 && Present(Word(frames, d, k))
    ensures !Unmapped(frames, d, v0, n)
  {
    assert (k * 1024) / 1024 == k && v0 <= k * 1024 < v0 + n;
    assert Present(Word(frames, d, (k * 1024) / 1024));
  }

  lemma SuperedStep(f0: seq<Frame>, f1: seq<Frame>, f2: seq<Frame>, d: int, v0: int, i: int, pn: int, flags: int)
    requires 0 <= i && Supered(f0, f1, d, v0, i, pn, flags)
    requires forall l :: 0 <= l < NPTENTRIES ==>
      Word(f2, d, l) == if l == v0 / 1024 + i then SuperEntry(v0, l, pn, flags) else Word(f1, d, l)
    ensures Supered(f0, f2, d, v0, i + 1, pn, flags)
  {
  }

  // ---------------------------------------------------------------- the layout above UTOP

  const UENVS_PN := 955 * 1024
  const UPAGES_PN := 956 * 1024
  const KSTACK_PDX := 959      // PDX(KSTACKTOP - 1)
  const KERNBASE_PDX := 960
  const KERNBASE_PN := 960 * 1024
  const NCPU := 8
  const KSTKSIZE := 8          // in pages
  const KSTKGAP := 8

  // kstacktop_i
  function StackTop(c: int): int { KERNBASE_PN - c * (KSTKSIZE + KSTKGAP) }

  ghost predicate Reads(frames: seq<Frame>, d: int, v0: int, n: int, pn: int, perm: int) {
    forall v {:trigger Va2Pa(frames, d, v)} :: v0 <= v < v0 + n ==>
      Va2Pa(frames, d, v) == pn + (v - v0) && Perms(frames, d, v) == perm
  }

  ghost predicate Unread(frames: seq<Frame>, d: int, v0: int, n: int) {
    forall v {:trigger Va2Pa(frames, d, v)} :: v0 <= v < v0 + n ==> Va2Pa(frames, d, v) == NIL
  }

  // check_kern_pgdir's test of directory entry k
  predicate EntryChecked(frames: seq<Frame>, d: int, k: int) {
    var e := Word(frames, d, k);
    if k == UVPT_PDX then Present(e) && PteFrame(e) == d && HasU(PteFlags(e)) && !HasW(PteFlags(e))
    else if k == KSTACK_PDX || k == 955 || k == 956 then Present(e)
    else if k >= KERNBASE_PDX then Present(e) && HasW(PteFlags(e))
    else e == 0
  }

  ghost predicate StackChecked(frames: seq<Frame>, d: int, c: int, stack: int) {
    Reads(frames, d, StackTop(c) - KSTKSIZE, KSTKSIZE, stack, PTE_W + PTE_P)
    && Unread(frames, d, StackTop(c) - KSTKSIZE - KSTKGAP, KSTKGAP)
  }

  // Physical memory is the kernel's alone to read and write.
  function KernPerms(pse: bool): int { if pse then PTE_W + PTE_P + PTE_PS else PTE_W + PTE_P }

  /** check_kern_pgdir: pages, envs and physical memory where they belong, a stack and a gap for each CPU,
      and each directory entry as it should be; and, which it does not check, the permissions: only pages
      and envs are readable by users, and not writable */
  ghost predicate CheckKernPgdir(frames: seq<Frame>, d: int, pages: int, envs: int, stacks: seq<int>, pse: bool) {
    && Reads(frames, d, UPAGES_PN, 1024, pages, PTE_U + PTE_P) && Reads(frames, d, UENVS_PN, 1024, envs, PTE_U + PTE_P)
    && Reads(frames, d, KERNBASE_PN, 0x1_0000, 0, KernPerms(pse))
    && StacksTo(frames, d, stacks, NCPU)
    && forall k :: 0 <= k < NPTENTRIES ==> EntryChecked(frames, d, k)
  }

  // The stacks of the first c CPUs are mapped, and nothing below them.
  ghost predicate StacksTo(frames: seq<Frame>, d: int, stacks: seq<int>, c: int) {
    && (forall i :: 0 <= i < c && i < |stacks| ==> StackChecked(frames, d, i, stacks[i]))
    && Unread(frames, d, KSTACK_PDX * 1024, 1024 - c * (KSTKSIZE + KSTKGAP))
  }

  // Directory entries k .. k+n are zero, but for the window's.
  ghost predicate Blank(frames: seq<Frame>, d: int, k: int, n: int) {
    forall l {:trigger Word(frames, d, l)} :: k <= l < k + n && l != UVPT_PDX ==> Word(frames, d, l) == 0
  }

  ghost predicate EntriesKept(f0: seq<Frame>, f1: seq<Frame>, d: int, k: int, n: int) {
    forall l {:trigger Word(f1, d, l)} :: 0 <= l < NPTENTRIES && !(k <= l < k + n) ==> Word(f1, d, l) == Word(f0, d, l)
  }

  // Entries k .. k+n are present and writable now; no other has changed.
  ghost predicate EntriesMade(f0: seq<Frame>, f1: seq<Frame>, d: int, k: int, n: int) {
    && EntriesKept(f0, f1, d, k, n)
    && forall l {:trigger Word(f1, d, l)} :: k <= l < k + n ==>
         Present(Word(f1, d, l)) && HasW(PteFlags(Word(f1, d, l)))
  }

  ghost predicate KeptOutside(f0: seq<Frame>, f1: seq<Frame>, d: int, v0: int, n: int) {
    forall v {:trigger Va2Pa(f1, d, v)} {:trigger Perms(f1, d, v)} ::
      0 <= v < PAGES && !InWindow(v) && !(v0 <= v < v0 + n) ==>
        Va2Pa(f1, d, v) == Va2Pa(f0, d, v) && Perms(f1, d, v) == Perms(f0, d, v)
  }

  ghost predicate UserMapped(frames: seq<Frame>, d: int, pages: int, envs: int) {
    && Reads(frames, d, UPAGES_PN, 1024, pages, PTE_U + PTE_P) && Reads(frames, d, UENVS_PN, 1024, envs, PTE_U + PTE_P)
    && Present(Word(frames, d, 955)) && Present(Word(frames, d, 956)) && EntryChecked(frames, d, UVPT_PDX)
    && Blank(frames, d, 0, 955) && Blank(frames, d, 958, 66)
  }

  // Before the stack of CPU c is mapped
  ghost predicate StackDir(frames: seq<Frame>, d: int, c: int) {
    var e := Word(frames, d, KSTACK_PDX); if c <= 0 then e == 0 else Present(e) && !Super(e)
  }

  lemma BlankRange(frames: seq<Frame>, d: int, v0: int, n: int)
    requires 0 <= v0 && 0 <= n && v0 % 1024 == 0 && n % 1024 == 0 && Blank(frames, d, v0 / 1024, n / 1024)
      && NoWindow(v0, n)
    ensures Unmapped(frames, d, v0, n) && NoSuper(frames, d, v0, n)
    ensures TablesMissing(frames, d, v0, n) == n / 1024
  {
    forall v | v0 <= v < v0 + n ensures Word(frames, d, v / 1024) == 0 {
      assert v0 / 1024 <= v / 1024 < v0 / 1024 + n / 1024 && v / 1024 != UVPT_PDX;
    }
    AllMissing(frames, d, v0, n);
  }

  // The tables made for a blank range
  lemma TabledEntries(f0: seq<Frame>, free: seq<int>, f1: seq<Frame>, d: int, v0: int, n: int)
    requires 0 <= v0 && 0 < n && v0 % 1024 == 0 && n % 1024 == 0 && v0 + n <= PAGES && NoWindow(v0, n)
      && Blank(f0, d, v0 / 1024, n / 1024) && Tabled(f0, free, f1, d, v0, n)
    ensures EntriesMade(f0, f1, d, v0 / 1024, n / 1024)
  {
    forall k | 0 <= k < NPTENTRIES
      ensures if 0 <= k - v0 / 1024 < n / 1024 then Present(Word(f1, d, k)) && HasW(PteFlags(Word(f1, d, k)))
        else Word(f1, d, k) == Word(f0, d, k)
    {
      Spans(v0, n, k);
      if 0 <= k - v0 / 1024 < n / 1024 {
        NotWindow(v0, n, k);
        var t := TableTaken(f0, free, d, v0, k);
        assert Word(f0, d, k) == 0 && Word(f1, d, k) == TableEntry(t);
        WritableEntry(TableEntry(t), t, PTE_P + PTE_W + PTE_U);
      }
    }
  }

  lemma NotWindow(v0: int, n: int, k: int)
    requires 0 <= v0 && v0 % 1024 == 0 && n % 1024 == 0 && NoWindow(v0, n) && 0 <= k - v0 / 1024 < n / 1024
    ensures k != UVPT_PDX
  {
  }

  lemma UserDone(f0: seq<Frame>, f1: seq<Frame>, f2: seq<Frame>, d: int, pages: int, envs: int)
    requires Blank(f0, d, 0, NPTENTRIES) && EntryChecked(f0, d, UVPT_PDX)
    requires EntriesMade(f0, f1, d, 956, 1) && EntriesMade(f1, f2, d, 955, 1)
    requires Mapped(f0, f1, d, UPAGES_PN, 1024, pages, PTE_U + PTE_P)
      && Mapped(f1, f2, d, UENVS_PN, 1024, envs, PTE_U + PTE_P)
    ensures UserMapped(f2, d, pages, envs)
  {
    forall v | UENVS_PN <= v < UENVS_PN + 2048
      ensures Va2Pa(f2, d, v) == if v < UPAGES_PN then envs + (v - UENVS_PN) else pages + (v - UPAGES_PN)
      ensures Perms(f2, d, v) == PTE_U + PTE_P
    {
      assert v >= UPAGES_PN ==> Va2Pa(f1, d, v) == pages + (v - UPAGES_PN);
    }
    assert Word(f2, d, 956) == Word(f1, d, 956);
    assert Word(f2, d, UVPT_PDX) == Word(f1, d, UVPT_PDX) == Word(f0, d, UVPT_PDX);
    forall l | 0 <= l < NPTENTRIES && l != 955 && l != 956 && l != UVPT_PDX ensures Word(f2, d, l) == 0 {
      assert Word(f2, d, l) == Word(f1, d, l) == Word(f0, d, l);
    }
  }

  lemma BlankUnmapped(frames: seq<Frame>, d: int)
    requires Blank(frames, d, KERNBASE_PDX, 64)
    ensures Unmapped(frames, d, KERNBASE_PN, 0x1_0000)
  {
    forall v | KERNBASE_PN <= v < KERNBASE_PN + 0x1_0000 ensures Word(frames, d, v / 1024) == 0 {
      assert KERNBASE_PDX <= v / 1024 < NPTENTRIES;
    }
  }

  lemma WritableEntry(e: int, pn: int, flags: int)
    requires e == MkPte(pn, flags) && IsFlags(flags) && HasP(flags) && HasW(flags)
    ensures Present(e) && HasW(PteFlags(e))
  {
    MkPteParts(pn, flags);
  }

  lemma SuperedEntries(f0: seq<Frame>, f1: seq<Frame>, d: int, v0: int, m: int, flags: int)
    requires Supered(f0, f1, d, v0, m, 0, flags) && IsFlags(flags) && HasP(flags) && HasW(flags)
    requires 0 <= v0 / 1024 && v0 / 1024 + m <= NPTENTRIES
    ensures EntriesMade(f0, f1, d, v0 / 1024, m)
  {
    forall k | v0 / 1024 <= k < v0 / 1024 + m ensures Present(Word(f1, d, k)) && HasW(PteFlags(Word(f1, d, k))) {
      WritableEntry(Word(f1, d, k), (k - v0 / 1024) * 1024, flags);
    }
  }

  lemma NoStackYet(frames: seq<Frame>, d: int, stacks: seq<int>)
    requires Blank(frames, d, KSTACK_PDX, 1)
    ensures StacksTo(frames, d, stacks, 0)
  {
    forall v | KSTACK_PDX * 1024 <= v < KSTACK_PDX * 1024 + 1024 ensures Va2Pa(frames, d, v) == NIL {
      assert v / 1024 == KSTACK_PDX;
    }
  }

  // Pages under one directory entry, that of the stacks
  predicate StackPages(v0: int, n: int) { n > 0 && v0 / 1024 == (v0 + n - 1) / 1024 == KSTACK_PDX }

  lemma StackRange(frames: seq<Frame>, d: int, c: int, v0: int, n: int)
    requires StackDir(frames, d, c) && StackPages(v0, n)
    ensures 0 <= v0 && v0 + n <= PAGES && NoWindow(v0, n) && NoSuper(frames, d, v0, n)
    ensures TablesMissing(frames, d, v0, n) == if c > 0 then 0 else 1
  {
    forall v | v0 <= v < v0 + n ensures !SuperAt(frames, d, v) {
      assert v / 1024 == KSTACK_PDX;
    }
    OneMissing(frames, d, v0, n);
  }

  lemma StackEntry(f0: seq<Frame>, free: seq<int>, f1: seq<Frame>, d: int, c: int, v0: int, n: int)
    requires 0 <= c && StackDir(f0, d, c) && StackPages(v0, n) && Tabled(f0, free, f1, d, v0, n)
    ensures StackDir(f1, d, c + 1) && EntriesKept(f0, f1, d, KSTACK_PDX, 1)
  {
    MkPteParts(TableTaken(f0, free, d, v0, KSTACK_PDX), PTE_P + PTE_W + PTE_U);
  }

  // The stack of CPU c joins those before it.
  lemma StackMapped(f0: seq<Frame>, f1: seq<Frame>, f2: seq<Frame>, d: int, stacks: seq<int>, c: int)
    requires 0 <= c < NCPU == |stacks| && StacksTo(f1, d, stacks, c)
      && KeptOutside(f0, f1, d, KSTACK_PDX * 1024, 1024)
    requires Mapped(f1, f2, d, StackTop(c) - KSTKSIZE, KSTKSIZE, stacks[c], PTE_W + PTE_P)
    ensures StacksTo(f2, d, stacks, c + 1) && KeptOutside(f0, f2, d, KSTACK_PDX * 1024, 1024)
  {
    forall v | KSTACK_PDX * 1024 <= v < KSTACK_PDX * 1024 + 1024
      ensures Va2Pa(f2, d, v) == if StackTop(c) - KSTKSIZE <= v < StackTop(c) then
        stacks[c] + (v - (StackTop(c) - KSTKSIZE)) else Va2Pa(f1, d, v)
      ensures Perms(f2, d, v) == if StackTop(c) - KSTKSIZE <= v < StackTop(c) then PTE_W + PTE_P else Perms(f1, d, v)
    {
      assert v / 1024 == KSTACK_PDX;
    }
    forall i | 0 <= i < c ensures StackChecked(f2, d, i, stacks[i]) {
      assert StackChecked(f1, d, i, stacks[i]);
    }
  }

  lemma AllChecked(f1: seq<Frame>, f2: seq<Frame>, f3: seq<Frame>, d: int, pages: int, envs: int, stacks: seq<int>,
          pse: bool)
    requires SelfMap(f3, d) && |stacks| == NCPU && UserMapped(f1, d, pages, envs)
    requires Mapped(f1, f2, d, KERNBASE_PN, 0x1_0000, 0, KernPerms(pse)) && EntriesMade(f1, f2, d, KERNBASE_PDX, 64)
    requires KeptOutside(f2, f3, d, KSTACK_PDX * 1024, 1024) && StacksTo(f3, d, stacks, NCPU)
    requires EntriesKept(f2, f3, d, KSTACK_PDX, 1) && Present(Word(f3, d, KSTACK_PDX))
    ensures CheckKernPgdir(f3, d, pages, envs, stacks, pse)
  {
    forall v | UENVS_PN <= v < UENVS_PN + 2048 ensures SameAt(f1, f3, d, v) {
    }
    forall v | KERNBASE_PN <= v < KERNBASE_PN + 0x1_0000
      ensures Va2Pa(f3, d, v) == v - KERNBASE_PN && Perms(f3, d, v) == KernPerms(pse)
    {
    }
    forall k | 0 <= k < NPTENTRIES ensures EntryChecked(f3, d, k) {
      assert k != KSTACK_PDX ==> Word(f3, d, k) == Word(f2, d, k);
      assert k < KERNBASE_PDX ==> Word(f2, d, k) == Word(f1, d, k);
    }
  }

  class BootMem {
    const frames: array<Frame>
    var free: seq<int>           // page_free_list

    ghost predicate Valid(d: int)
      reads this, frames
    {
      KernDir(frames[..], free, d)
    }

    constructor (content: seq<Frame>, free0: seq<int>)
      ensures frames[..] == content && free == free0 && fresh(frames)
    {
      frames := new Frame[|content|](i requires 0 <= i < |content| => content[i]);
      free := free0;
    }

    // pgdir_walk(pgdir, va, 1) on the kernel's directory; NIL for no memory
    method Walk(d: int, v: int) returns (t: int)
      requires Valid(d) && 0 <= v < PAGES && !SuperAt(frames[..], d, v)
      modifies this, frames
      ensures Valid(d) && (t == NIL <==> !old(Present(Word(frames[..], d, v / 1024))) && old(free) == [])
      ensures forall u :: 0 <= u < PAGES && !InWindow(u) ==> SameAt(old(frames[..]), frames[..], d, u)
      ensures t != NIL ==> (WalkedAt(old(frames[..]), frames[..], d, v, At(old(free), 0))
        && Present(Word(frames[..], d, v / 1024)) && !Super(Word(frames[..], d, v / 1024))
        && t == PteFrame(Word(frames[..], d, v / 1024)))
      ensures free == if t == NIL || old(Present(Word(frames[..], d, v / 1024))) then old(free) else old(free[1..])
    {
      ghost var f0, l0 := frames[..], free;
      assert 0 <= v / 1024 < NPTENTRIES && TableAlone(f0, l0, d, v / 1024);
      if !Present(frames[d][v / 1024]) {
        if free == [] {
          return NIL;
        }
        AddPageTable(f0, l0, d, v / 1024);
        t := free[0];
        MkPteParts(t, PTE_P + PTE_W + PTE_U);
        free := free[1..];
        frames[t] := ZeroFrame();
        frames[d] := frames[d][v / 1024 := TableEntry(t)];
        assert frames[..] == Put(f0[t := ZeroFrame()], d, v / 1024, TableEntry(t));
      }
      t := PteFrame(frames[d][v / 1024]);
    }

    // One page of boot_map_region
    method MapPage(d: int, v: int, pn: int, perm: int) returns (ok: bool)
      requires Valid(d) && 0 <= v < PAGES && !InWindow(v) && IsFlags(perm) && !SuperAt(frames[..], d, v)
      modifies this, frames
      ensures Valid(d) && (ok <==> old(Present(Word(frames[..], d, v / 1024))) || old(free) != [])
      ensures ok ==> Mapped(old(frames[..]), frames[..], d, v, 1, pn, OrP(perm))
      ensures ok ==> WalkedAt(old(frames[..]), frames[..], d, v, At(old(free), 0))
      ensures ok ==> free == if old(Present(Word(frames[..], d, v / 1024))) then old(free) else old(free[1..])
    {
      var t := Walk(d, v);
      if t == NIL {
        return false;
      }
      ghost var f1 := frames[..];
      OrPFlags(perm);
      assert 0 <= v / 1024 < NPTENTRIES && TableAlone(f1, free, d, v / 1024);
      PutPage(f1, free, d, v, pn, OrP(perm));
      frames[t] := frames[t][v % 1024 := MkPte(pn, OrP(perm))];
      assert frames[..] == Put(f1, t, v % 1024, MkPte(pn, OrP(perm)));
      ok := true;
    }

    // One turn of boot_map_region, for page i of the range
    method MapNext(d: int, v0: int, i: int, n: int, pn: int, perm: int, ghost f0: seq<Frame>, ghost l0: seq<int>)
        returns (ok: bool)
      requires Valid(d) && 0 <= v0 && 0 <= i < n && v0 + n <= PAGES && IsFlags(perm)
        && NoWindow(v0, n) && NoSuper(f0, d, v0, n) && Tabled(f0, l0, frames[..], d, v0, i)
      requires TablesMissing(f0, d, v0, i) <= |l0| && free == l0[TablesMissing(f0, d, v0, i)..]
      modifies this, frames
      ensures Valid(d) && (ok <==> |l0| >= TablesMissing(f0, d, v0, i + 1))
      ensures ok ==> Mapped(old(frames[..]), frames[..], d, v0 + i, 1, pn + i, OrP(perm))
      ensures ok ==> Tabled(f0, l0, frames[..], d, v0, i + 1) && free == l0[TablesMissing(f0, d, v0, i + 1)..]
    {
      ghost var f1, t := frames[..], TablesMissing(f0, d, v0, i);
      StillNoSuper(f0, l0, f1, d, v0, n, i);
      MissingNext(f0, l0, f1, d, v0, i, (v0 + i) / 1024);
      ok := MapPage(d, v0 + i, pn + i, perm);
      if ok {
        assert WalkedAt(f1, frames[..], d, v0 + i, At(l0, t));
        TabledStep(f0, l0, f1, frames[..], d, v0, i, At(l0, t));
      }
    }

    /** boot_map_region, over any range without superpages and outside the window.  Out of memory it
        panics (not ok): exactly when there are fewer free pages than directory entries without a page
        table.  The tables it makes appear in the window. */
    method MapRegion(d: int, v0: int, n: int, pn: int, perm: int) returns (ok: bool)
      requires Valid(d) && 0 <= v0 && 0 <= n && v0 + n <= PAGES && IsFlags(perm)
        && NoWindow(v0, n) && NoSuper(frames[..], d, v0, n)
      modifies this, frames
      ensures Valid(d) && (ok <==> |old(free)| >= old(TablesMissing(frames[..], d, v0, n)))
      ensures ok ==> Mapped(old(frames[..]), frames[..], d, v0, n, pn, OrP(perm))
      ensures ok ==> Tabled(old(frames[..]), old(free), frames[..], d, v0, n)
      ensures ok ==> free == old(free[TablesMissing(frames[..], d, v0, n)..])
    {
      ghost var f0, l0 := frames[..], free;
      for i := 0 to n
        invariant Valid(d) && Mapped(f0, frames[..], d, v0, i, pn, OrP(perm)) && Tabled(f0, l0, frames[..], d, v0, i)
        invariant TablesMissing(f0, d, v0, i) <= |l0| && free == l0[TablesMissing(f0, d, v0, i)..]
      {
        ghost var f1 := frames[..];
        MissingGrows(f0, d, v0, i + 1, n);
        ok := MapNext(d, v0, i, n, pn, perm, f0, l0);
        if !ok {
          return;
        }
        MappedMore(f0, f1, frames[..], d, v0, i, 1, pn, OrP(perm));
      }
      return true;
    }

    // One turn of boot_map_superpage
    method SuperNext(d: int, k: int, pn: int, flags: int) returns (ok: bool)
      requires Valid(d) && 0 <= k < NPTENTRIES && IsFlags(flags) && HasP(flags) && HasPs(flags)
      modifies frames
      ensures Valid(d) && (ok <==> !old(Present(Word(frames[..], d, k))))
      ensures ok ==> Mapped(old(frames[..]), frames[..], d, k * 1024, 1024, pn, flags)
      ensures ok ==> forall l :: 0 <= l < NPTENTRIES ==>
        Word(frames[..], d, l) == if l == k then MkPte(pn, flags) else old(Word(frames[..], d, l))
    {
      if Present(frames[d][k]) {
        return false;
      }
      ghost var f1 := frames[..];
      PutSuper(f1, free, d, k, pn, flags);
      frames[d] := frames[d][k := MkPte(pn, flags)];
      assert frames[..] == Put(f1, d, k, MkPte(pn, flags));
      return true;
    }

    /** boot_map_superpage.  It panics (not ok) on arguments that are not 4 MB aligned and on a directory
        entry that is present, as that of the window is. */
    method MapSuperpage(d: int, v0: int, n: int, pn: int, perm: int) returns (ok: bool)
      requires Valid(d) && 0 <= v0 && 0 <= n && v0 + n <= PAGES && IsFlags(perm)
      modifies frames
      ensures Valid(d) && (ok <==> Aligned(v0, n, pn) && old(Unmapped(frames[..], d, v0, n)))
      ensures ok ==> Mapped(old(frames[..]), frames[..], d, v0, n, pn, OrPs(OrP(perm)))
      ensures ok ==> Supered(old(frames[..]), frames[..], d, v0, n / 1024, pn, OrPs(OrP(perm)))
    {
      if n % 1024 != 0 || v0 % 1024 != 0 || pn % 1024 != 0 {
        return false;
      }
      ghost var f0 := frames[..];
      var flags := OrPs(OrP(perm));
      OrPFlags(perm);
      OrPsFlags(OrP(perm));
      for i := 0 to n / 1024
        invariant Valid(d) && Mapped(f0, frames[..], d, v0, i * 1024, pn, flags)
        invariant Supered(f0, frames[..], d, v0, i, pn, flags) && EntriesAbsent(f0, d, v0 / 1024, i)
      {
        ghost var f1 := frames[..];
        var k := v0 / 1024 + i;
        assert Word(f1, d, k) == Word(f0, d, k);
        ok := SuperNext(d, k, pn + i * 1024, flags);
        if !ok {
          PresentInside(f0, d, v0, n, k);
          return;
        }
        SuperedStep(f0, f1, frames[..], d, v0, i, pn, flags);
        MappedMore(f0, f1, frames[..], d, v0, i * 1024, 1024, pn, flags);
      }
      AbsentUnmapped(f0, d, v0, n);
      return true;
    }

    // boot_map_region where nothing is mapped yet
    method MapBlank(d: int, v0: int, n: int, pn: int, perm: int) returns (ok: bool)
      requires Valid(d) && 0 <= v0 && 0 < n && v0 + n <= PAGES && IsFlags(perm) && NoWindow(v0, n)
        && v0 % 1024 == 0 && n % 1024 == 0 && Blank(frames[..], d, v0 / 1024, n / 1024)
      modifies this, frames
      ensures Valid(d) && (ok <==> |old(free)| >= n / 1024)
      ensures ok ==> |free| == |old(free)| - n / 1024
      ensures ok ==> Mapped(old(frames[..]), frames[..], d, v0, n, pn, OrP(perm))
      ensures ok ==> EntriesMade(old(frames[..]), frames[..], d, v0 / 1024, n / 1024)
    {
      ghost var f0 := frames[..];
      BlankRange(f0, d, v0, n);
      ok := MapRegion(d, v0, n, pn, perm);
      if ok {
        TabledEntries(f0, old(free), frames[..], d, v0, n);
      }
    }

    // boot_map_region for UPAGES and UENVS
    method MapUser(d: int, pages: int, envs: int) returns (ok: bool)
      requires Valid(d) && Blank(frames[..], d, 0, NPTENTRIES) && EntryChecked(frames[..], d, UVPT_PDX)
      modifies this, frames
      ensures Valid(d) && (ok <==> |old(free)| >= 2)
      ensures ok ==> |free| == |old(free)| - 2 && UserMapped(frames[..], d, pages, envs)
    {
      ghost var f0 := frames[..];
      ok := MapBlank(d, UPAGES_PN, 1024, pages, PTE_U);
      if !ok {
        return;
      }
      ghost var f1 := frames[..];
      ok := MapBlank(d, UENVS_PN, 1024, envs, PTE_U);
      if ok {
        UserDone(f0, f1, frames[..], d, pages, envs);
      }
    }

    // boot_map_superpage or boot_map_region for KERNBASE
    method MapPhysical(d: int, pse: bool) returns (ok: bool)
      requires Valid(d) && Blank(frames[..], d, KERNBASE_PDX, 64)
      modifies this, frames
      ensures Valid(d) && (ok <==> pse || |old(free)| >= 64)
      ensures ok ==> |free| == |old(free)| - (if pse then 0 else 64)
      ensures ok ==> Mapped(old(frames[..]), frames[..], d, KERNBASE_PN, 0x1_0000, 0, KernPerms(pse))
      ensures ok ==> EntriesMade(old(frames[..]), frames[..], d, KERNBASE_PDX, 64)
    {
      if !pse {
        ok := MapBlank(d, KERNBASE_PN, 0x1_0000, 0, PTE_W);
        return;
      }
      ghost var f0 := frames[..];
      BlankUnmapped(f0, d);
      ok := MapSuperpage(d, KERNBASE_PN, 0x1_0000, 0, PTE_W);
      SuperedEntries(f0, frames[..], d, KERNBASE_PN, 64, OrPs(OrP(PTE_W)));
    }

    // boot_map_region for the stack of CPU c: n pages from v0
    method MapStack(d: int, c: int, v0: int, n: int, stack: int) returns (ok: bool)
      requires Valid(d) && 0 <= c && StackDir(frames[..], d, c) && StackPages(v0, n)
      modifies this, frames
      ensures Valid(d) && (ok <==> c > 0 || |old(free)| >= 1)
      ensures ok ==> |free| == |old(free)| - (if c > 0 then 0 else 1)
      ensures ok ==> Mapped(old(frames[..]), frames[..], d, v0, n, stack, PTE_W + PTE_P)
      ensures ok ==> StackDir(frames[..], d, c + 1) && EntriesKept(old(frames[..]), frames[..], d, KSTACK_PDX, 1)
    {
      ghost var f0 := frames[..];
      StackRange(f0, d, c, v0, n);
      ok := MapRegion(d, v0, n, stack, PTE_W);
      if ok {
        StackEntry(f0, old(free), frames[..], d, c, v0, n);
      }
    }

    /** mem_init_mp: the stack of each CPU, with an unmapped gap below it */
    method MapStacks(d: int, stacks: seq<int>) returns (ok: bool)
      requires Valid(d) && |stacks| == NCPU && Blank(frames[..], d, KSTACK_PDX, 1)
      modifies this, frames
      ensures Valid(d) && (ok <==> |old(free)| >= 1)
      ensures ok ==> |free| == |old(free)| - 1 && Present(Word(frames[..], d, KSTACK_PDX))
      ensures ok ==> EntriesKept(old(frames[..]), frames[..], d, KSTACK_PDX, 1)
      ensures ok ==> KeptOutside(old(frames[..]), frames[..], d, KSTACK_PDX * 1024, 1024)
      ensures ok ==> StacksTo(frames[..], d, stacks, NCPU)
    {
      ghost var f0 := frames[..];
      NoStackYet(f0, d, stacks);
      for c := 0 to NCPU
        invariant Valid(d) && StackDir(frames[..], d, c) && StacksTo(frames[..], d, stacks, c)
        invariant EntriesKept(f0, frames[..], d, KSTACK_PDX, 1)
        invariant KeptOutside(f0, frames[..], d, KSTACK_PDX * 1024, 1024)
        invariant |free| == |old(free)| - (if c > 0 then 1 else 0)
      {
        ghost var f1 := frames[..];
        ok := MapStack(d, c, StackTop(c) - KSTKSIZE, KSTKSIZE, stacks[c]);
        if !ok {
          return;
        }
        StackMapped(f0, f1, frames[..], d, stacks, c);
      }
      return true;
    }

    /** The mappings mem_init makes in the kernel's page directory, from the moment it is cleared.  With
        the pages it needs for page tables, three or with 4 KB pages 67, it succeeds and
        check_kern_pgdir passes. */
    method MemInit(d: int, pages: int, envs: int, stacks: seq<int>, pse: bool) returns (ok: bool)
      requires PageList(frames[..], free, d) && |stacks| == NCPU
      modifies this, frames
      ensures Valid(d) && (ok <==> |old(free)| >= if pse then 3 else 67)
      ensures ok ==> CheckKernPgdir(frames[..], d, pages, envs, stacks, pse)
    {
      frames[d] := FirstDir(d);
      FirstKernDir(frames[..], free, d);
      ok := MapUser(d, pages, envs);
      if !ok {
        return;
      }
      ghost var f1 := frames[..];
      ok := MapPhysical(d, pse);
      if !ok {
        return;
      }
      ghost var f2 := frames[..];
      ok := MapStacks(d, stacks);
      if ok {
        AllChecked(f1, f2, frames[..], d, pages, envs, stacks, pse);
      }
    }
  }

  // ---------------------------------------------------------------- the two ways compared

  // Where the two ways agree: everywhere but, in the window, at the entries mapped, where the one shows
  // its page table and the other its superpage.
  predicate Alike(free: seq<int>, v0: int, n: int, pn: int, v: int) {
    var i := v % 1024 - v0 / 1024;
    InWindow(v) && 0 <= i < n / 1024 ==> At(free, i) == pn + i * 1024
  }

  // What boot_map_region has done to f0, and what boot_map_superpage has
  ghost predicate ByPages(f0: seq<Frame>, free: seq<int>, f1: seq<Frame>, d: int, v0: int, n: int, pn: int,
          flags: int) {
    && KernDir(f0, free, d) && Mapped(f0, f1, d, v0, n, pn, flags) && Tabled(f0, free, f1, d, v0, n)
    && SelfMap(f1, d)
  }

  ghost predicate BySupers(f0: seq<Frame>, f2: seq<Frame>, d: int, v0: int, n: int, pn: int, flags: int) {
    && Mapped(f0, f2, d, v0, n, pn, flags) && Supered(f0, f2, d, v0, n / 1024, pn, flags) && SelfMap(f2, d)
    && IsFlags(flags) && HasP(flags) && Aligned(v0, n, pn) && Unmapped(f0, d, v0, n)
  }

  // The entries of a range of superpages
  lemma Spans(v0: int, n: int, k: int)
    requires 0 <= v0 && 0 <= n && v0 % 1024 == 0 && n % 1024 == 0
    ensures Touched(v0, n, k) <==> 0 <= k - v0 / 1024 < n / 1024
    ensures 0 <= k - v0 / 1024 < n / 1024 ==>
      FirstIn(v0, k) - v0 == (k - v0 / 1024) * 1024 && v0 <= k * 1024 < v0 + n && (k * 1024) / 1024 == k
  {
  }

  lemma TakenInOrder(f0: seq<Frame>, free: seq<int>, d: int, v0: int, n: int, k: int)
    requires 0 <= v0 && 0 <= n && v0 % 1024 == 0 && n % 1024 == 0 && Unmapped(f0, d, v0, n)
      && 0 <= k - v0 / 1024 < n / 1024
    ensures TableTaken(f0, free, d, v0, k) == At(free, k - v0 / 1024) && !Present(Word(f0, d, k))
  {
    var m := (k - v0 / 1024) * 1024;
    Spans(v0, n, k);
    assert !Present(Word(f0, d, (k * 1024) / 1024));
    AllMissing(f0, d, v0, m);
    assert (m + 1023) / 1024 == k - v0 / 1024;
  }

  // The entry of a window page after boot_map_region
  lemma TableEntryAt(f0: seq<Frame>, free: seq<int>, f1: seq<Frame>, d: int, v0: int, n: int, k: int, i: int)
    requires Tabled(f0, free, f1, d, v0, n) && Aligned(v0, n, 0) && Unmapped(f0, d, v0, n)
    requires 0 <= v0 && 0 <= n && 0 <= k < NPTENTRIES && i == k - v0 / 1024
    ensures if 0 <= i < n / 1024 then EntryPage(Word(f1, d, k)) == At(free, i) else Word(f1, d, k) == Word(f0, d, k)
  {
    Spans(v0, n, k);
    MkPteParts(At(free, i), PTE_P + PTE_W + PTE_U);
    if 0 <= i < n / 1024 {
      TakenInOrder(f0, free, d, v0, n, k);
    }
  }

  // ... and after boot_map_superpage
  lemma SuperEntryAt(f0: seq<Frame>, f2: seq<Frame>, d: int, v0: int, n: int, pn: int, flags: int, k: int, i: int)
    requires Supered(f0, f2, d, v0, n / 1024, pn, flags) && IsFlags(flags) && HasP(flags)
    requires 0 <= k < NPTENTRIES && i == k - v0 / 1024
    ensures if 0 <= i < n / 1024 then EntryPage(Word(f2, d, k)) == pn + i * 1024 else Word(f2, d, k) == Word(f0, d, k)
  {
    MkPteParts(pn + i * 1024, flags);
  }

  /** boot_map_region and boot_map_superpage agree at an address if and only if it is outside the window,
      or its directory entry is not of the range, or the page table taken for that entry happens to be
      the first page of the superpage. */
  lemma TwoWays(f0: seq<Frame>, free: seq<int>, f1: seq<Frame>, f2: seq<Frame>, d: int, v0: int, n: int, pn: int,
          perm: int, flags: int, v: int)
    requires ByPages(f0, free, f1, d, v0, n, pn, perm) && BySupers(f0, f2, d, v0, n, pn, flags)
    requires 0 <= v0 && 0 <= n && v0 + n <= PAGES && 0 <= v < PAGES
    ensures Va2Pa(f1, d, v) == Va2Pa(f2, d, v) <==> Alike(free, v0, n, pn, v)
  {
    if InWindow(v) {
      TableEntryAt(f0, free, f1, d, v0, n, v % 1024, v % 1024 - v0 / 1024);
      SuperEntryAt(f0, f2, d, v0, n, pn, flags, v % 1024, v % 1024 - v0 / 1024);
      SelfMapWindow(f1, d, v);
      SelfMapWindow(f2, d, v);
    } else {
      assert Va2Pa(f1, d, v) == if v0 <= v < v0 + n then pn + (v - v0) else Va2Pa(f0, d, v);
    }
  }

  /** They do differ where the kernel uses them: physical memory mapped at KERNBASE with page tables, the
      first of them not physical page 0, looks different through the window at KERNBASE's entry. */
  lemma KernbaseSeen(f0: seq<Frame>, free: seq<int>, f1: seq<Frame>, f2: seq<Frame>, d: int, perm: int,
          flags: int)
    requires ByPages(f0, free, f1, d, KERNBASE_PN, 0x1_0000, 0, perm)
      && BySupers(f0, f2, d, KERNBASE_PN, 0x1_0000, 0, flags)
    ensures Va2Pa(f1, d, WINDOW_PN + KERNBASE_PDX) == At(free, 0) && Va2Pa(f2, d, WINDOW_PN + KERNBASE_PDX) == 0
  {
    TableEntryAt(f0, free, f1, d, KERNBASE_PN, 0x1_0000, KERNBASE_PDX, 0);
    SuperEntryAt(f0, f2, d, KERNBASE_PN, 0x1_0000, 0, flags, KERNBASE_PDX, 0);
    SelfMapWindow(f1, d, WINDOW_PN + KERNBASE_PDX);
    SelfMapWindow(f2, d, WINDOW_PN + KERNBASE_PDX);
  }

  /** boot_map_region and boot_map_superpage, run on the same memory with the same arguments: if both
      succeed, check_va2pa gives the same answers afterwards at exactly the addresses TwoWays says.  The
      one needs a page for each page table, the other only that the arguments are aligned and the range
      is unmapped. */
  method MapBothWays(content: seq<Frame>, free: seq<int>, d: int, v0: int, n: int, pn: int, perm: int)
      returns (pages: seq<Frame>, supers: seq<Frame>, byPages: bool, bySupers: bool)
    requires KernDir(content, free, d) && 0 <= v0 && 0 <= n && v0 + n <= PAGES && IsFlags(perm)
      && NoWindow(v0, n) && NoSuper(content, d, v0, n)
    ensures byPages <==> |free| >= TablesMissing(content, d, v0, n)
    ensures bySupers <==> Aligned(v0, n, pn) && Unmapped(content, d, v0, n)
    ensures byPages && bySupers ==> forall v :: 0 <= v < PAGES ==>
      (Va2Pa(pages, d, v) == Va2Pa(supers, d, v) <==> Alike(free, v0, n, pn, v))
    ensures byPages ==> ByPages(content, free, pages, d, v0, n, pn, OrP(perm))
    ensures bySupers ==> BySupers(content, supers, d, v0, n, pn, OrPs(OrP(perm)))
  {
    OrPFlags(perm);
    OrPsFlags(OrP(perm));
    var region := new BootMem(content, free);
    byPages := region.MapRegion(d, v0, n, pn, perm);
    var super := new BootMem(content, free);
    bySupers := super.MapSuperpage(d, v0, n, pn, perm);
    pages, supers := region.frames[..], super.frames[..];
    if byPages && bySupers {
      forall v | 0 <= v < PAGES
        ensures Va2Pa(pages, d, v) == Va2Pa(supers, d, v) <==> Alike(free, v0, n, pn, v)
      {
        TwoWays(content, free, pages, supers, d, v0, n, pn, OrP(perm), OrPs(OrP(perm)), v);
      }
    }
  }
}
