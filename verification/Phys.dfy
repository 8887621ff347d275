/** Physical memory: the page descriptors, the free list threaded through them, and the frames,
    some of which hold page directories and page tables.

    `Mem` is the value of that state.  Beside what the kernel stores it carries bookkeeping: the
    free list as a sequence, which frames are page directories, which directory entry each page
    table hangs from, and the references a frame has besides page-table entries (`pins`): the
    env_pgdir pointer to a directory, the extra reference that region_alloc leaves, the reference
    page_insert takes before it clears the old entry.
  */
module Phys {
  import opened Mmu

  const NIL := -1

  datatype PageInfo = PageInfo(link: int, refs: int)

  type Frame = seq<int>

  datatype Tree = Tree(frames: seq<Frame>, dirs: set<int>, owner: map<int, (int, int)>)

  datatype Mem = Mem(pages: seq<PageInfo>, head: int, free: seq<int>, tree: Tree, pins: seq<int>)

  // Total accessors, so that the definitions below need no preconditions
  function Upd<T>(s: seq<T>, i: int, x: T): seq<T> {
    if 0 <= i < |s| then s[i := x] else s
  }

  function At(s: seq<int>, i: int): int {
    if 0 <= i < |s| then s[i] else 0
  }

  function Info(m: Mem, p: int): PageInfo {
    if 0 <= p < |m.pages| then m.pages[p] else PageInfo(NIL, 0)
  }

  function Content(t: Tree, f: int): Frame {
    if 0 <= f < |t.frames| then t.frames[f] else []
  }

  function Entry(t: Tree, f: int, k: int): int {
    At(Content(t, f), k)
  }

  function ZeroFrame(): (z: Frame)
    ensures |z| == NPTENTRIES && forall k :: 0 <= k < NPTENTRIES ==> z[k] == 0
  {
    seq(NPTENTRIES, _ => 0)
  }

  // ---------------------------------------------------------------- the free list

  function NextFree(free: seq<int>, j: int): int
    requires 0 <= j < |free|
  {
    if j + 1 < |free| then free[j + 1] else NIL
  }

  ghost predicate LinkOk(pages: seq<PageInfo>, free: seq<int>, j: int)
    requires 0 <= j < |free|
  {
    0 <= free[j] < |pages| && pages[free[j]].link == NextFree(free, j)
  }

  /** The free list is the chain of pp_link from head: no page twice, every page on it has a zero
      count, and a page off it has a null link (page_free's test for a double free). */
  ghost predicate FreeOk(pages: seq<PageInfo>, head: int, free: seq<int>) {
    && (if free == [] then head == NIL else head == free[0] && 0 <= head < |pages|)
    && (forall i :: i in free ==> 0 <= i < |pages| && pages[i].refs == 0)
    && (forall j {:trigger LinkOk(pages, free, j)} :: 0 <= j < |free| ==> LinkOk(pages, free, j))
    && (forall j, l :: 0 <= j < l < |free| ==> free[j] != free[l])
    && (forall i :: 0 <= i < |pages| ==> i in free || pages[i].link == NIL)
  }

  // ---------------------------------------------------------------- the trees

  ghost predicate Framed(t: Tree) {
    forall i :: 0 <= i < |t.frames| ==> |t.frames[i]| == NPTENTRIES
  }

  // How many entries of frame f the kernel counts references for: those below UTOP of a
  // directory, all of a page table, none of any other frame.
  ghost function Limit(t: Tree, f: int): int {
    if f in t.dirs then UTOP_PDX else if f in t.owner then NPTENTRIES else 0
  }

  ghost predicate Slot(t: Tree, f: int, k: int) {
    0 <= f < |t.frames| && 0 <= k < Limit(t, f) && Present(Entry(t, f, k))
  }

  // The directory and table entries that name frame i
  ghost function Refs(t: Tree, i: int): set<(int, int)> {
    set f, k | 0 <= f < |t.frames| && 0 <= k < NPTENTRIES && Slot(t, f, k) && PteFrame(Entry(t, f, k)) == i :: (f, k)
  }

  // Frames outside the trees: free pages, data pages, pages the kernel holds
  ghost predicate Plain(t: Tree, i: int) {
    0 <= i < |t.frames| && i !in t.dirs && i !in t.owner
  }

  ghost predicate PdeOk(t: Tree, d: int, k: int) {
    var e := Entry(t, d, k);
    e == 0 || (Present(e) && PteFrame(e) in t.owner && t.owner[PteFrame(e)] == (d, k))
  }

  ghost predicate PteOk(t: Tree, f: int, k: int) {
    var e := Entry(t, f, k);
    e == 0 || (Present(e) && Plain(t, PteFrame(e)))
  }

  ghost predicate OwnerOk(t: Tree, f: int)
    requires f in t.owner
  {
    var (d, k) := t.owner[f];
    && 0 <= f < |t.frames|
    && d in t.dirs && 0 <= d < |t.frames| && 0 <= k < UTOP_PDX
    && Present(Entry(t, d, k)) && PteFrame(Entry(t, d, k)) == f
  }

  /** Directories and page tables form trees: every present directory entry below UTOP has a page
      table of its own, every page table hangs from exactly one entry, every present page-table
      entry names a frame outside the trees. */
  ghost predicate TreeOk(t: Tree) {
    && Framed(t)
    && (forall d :: d in t.dirs ==> 0 <= d < |t.frames| && d !in t.owner)
    && (forall f :: f in t.owner ==> OwnerOk(t, f))
    && (forall d, k :: d in t.dirs && 0 <= k < UTOP_PDX ==> PdeOk(t, d, k))
    && (forall f, k :: f in t.owner && 0 <= k < NPTENTRIES ==> PteOk(t, f, k))
  }

  // ---------------------------------------------------------------- reference counts

  /** pp_ref is exact: the number of entries that name the frame, plus its pins.  A directory is
      pinned once, by env_pgdir; a page table is referenced by its directory entry alone. */
  ghost predicate Counted(pages: seq<PageInfo>, t: Tree, pins: seq<int>, i: int)
    requires 0 <= i < |pages|
  {
    At(pins, i) >= 0 && pages[i].refs == |Refs(t, i)| + At(pins, i)
  }

  ghost predicate RefOk(pages: seq<PageInfo>, t: Tree, pins: seq<int>) {
    && |pages| == |t.frames| == |pins|
    && (forall i :: 0 <= i < |pages| ==> Counted(pages, t, pins, i))
    && (forall f :: f in t.owner ==> At(pins, f) == 0)
    && (forall d :: d in t.dirs ==> At(pins, d) == 1)
  }

  ghost predicate Inv(m: Mem) {
    && FreeOk(m.pages, m.head, m.free)
    && TreeOk(m.tree)
    && RefOk(m.pages, m.tree, m.pins)
  }

  // ---------------------------------------------------------------- primitive steps

  function AddRef(pages: seq<PageInfo>, p: int, delta: int): seq<PageInfo> {
    if 0 <= p < |pages| then pages[p := pages[p].(refs := pages[p].refs + delta)] else pages
  }

  function SetLink(pages: seq<PageInfo>, p: int, link: int): seq<PageInfo> {
    if 0 <= p < |pages| then pages[p := pages[p].(link := link)] else pages
  }

  // page_alloc(0) on a nonempty free list
  function Alloc(m: Mem): Mem {
    if m.free == [] then m
    else
      var p := m.free[0];
      m.(pages := SetLink(m.pages, p, NIL), head := Info(m, p).link, free := m.free[1..])
  }

  // memset or memcpy of a whole frame
  function Fill(m: Mem, p: int, content: Frame): Mem {
    m.(tree := m.tree.(frames := Upd(m.tree.frames, p, content)))
  }

  // page_free
  function Free(m: Mem, p: int): Mem {
    m.(pages := SetLink(m.pages, p, m.head), head := p, free := [p] + m.free)
  }

  // ++ pp_ref, for a reference that is in no entry
  function Pin(m: Mem, p: int): Mem {
    m.(pages := AddRef(m.pages, p, 1), pins := Upd(m.pins, p, At(m.pins, p) + 1))
  }

  // page_decref
  function Decref(m: Mem, p: int): Mem {
    var m1 := m.(pages := AddRef(m.pages, p, -1));
    if Info(m1, p).refs == 0 then Free(m1, p) else m1
  }

  // page_decref of a pinned reference
  function Unpin(m: Mem, p: int): Mem {
    Decref(m.(pins := Upd(m.pins, p, At(m.pins, p) - 1)), p)
  }

  function SetEntry(t: Tree, f: int, k: int, e: int): Tree {
    t.(frames := Upd(t.frames, f, Upd(Content(t, f), k, e)))
  }

  // page_remove of the page behind entry k of page table f
  function Clear(m: Mem, f: int, k: int): Mem {
    Decref(m.(tree := SetEntry(m.tree, f, k, 0)), PteFrame(Entry(m.tree, f, k)))
  }

  // Writing an entry that takes over a pinned reference to p
  function Place(m: Mem, f: int, k: int, p: int, flags: int): Mem {
    m.(tree := SetEntry(m.tree, f, k, MkPte(p, flags)), pins := Upd(m.pins, p, At(m.pins, p) - 1))
  }

  // pgdir_walk's new page table: the first free page, zeroed, behind entry k of directory d
  ghost function NewTable(m: Mem, d: int, k: int): Mem {
    if m.free == [] then m
    else
      var p := m.free[0];
      var m1 := Fill(Alloc(m), p, ZeroFrame());
      m1.(pages := AddRef(m1.pages, p, 1), tree := AddTable(m1.tree, d, k, p))
  }

  function AddTable(t: Tree, d: int, k: int, p: int): Tree {
    SetEntry(t, d, k, MkPte(p, PTE_P + PTE_W + PTE_U)).(owner := t.owner[p := (d, k)])
  }

  // ---------------------------------------------------------------- the free list

  lemma AllocFree(pages: seq<PageInfo>, head: int, free: seq<int>)
    requires FreeOk(pages, head, free) && free != []
    ensures FreeOk(SetLink(pages, free[0], NIL), pages[free[0]].link, free[1..]) && free[0] !in free[1..]
  {
    var p, rest := free[0], free[1..];
    assert free == [p] + rest;
    forall j | 0 <= j < |rest| ensures rest[j] != p && LinkOk(SetLink(pages, p, NIL), rest, j) {
      assert LinkOk(pages, free, j + 1);
      assert rest[j] == free[j + 1] && NextFree(rest, j) == NextFree(free, j + 1);
    }
    assert LinkOk(pages, free, 0);
    assert pages[p].link == NextFree(free, 0);
  }

  lemma PushFree(pages: seq<PageInfo>, head: int, free: seq<int>, p: int)
    requires FreeOk(pages, head, free) && 0 <= p < |pages| && p !in free && pages[p].refs == 0
    ensures FreeOk(SetLink(pages, p, head), p, [p] + free)
  {
    var free' := [p] + free;
    forall j | 0 <= j < |free'| ensures LinkOk(SetLink(pages, p, head), free', j) {
      PushedLink(pages, head, free, p, j);
    }
  }

  lemma PushedLink(pages: seq<PageInfo>, head: int, free: seq<int>, p: int, j: int)
    requires FreeOk(pages, head, free) && 0 <= p < |pages| && p !in free && 0 <= j <= |free|
    ensures LinkOk(SetLink(pages, p, head), [p] + free, j)
  {
    if j > 0 {
      assert LinkOk(pages, free, j - 1);
      assert free[j - 1] != p;
    }
  }

  // The counts of pages off the list are free to change.
  lemma FreeKeepsLinks(pages: seq<PageInfo>, head: int, free: seq<int>, p: int, delta: int)
    requires FreeOk(pages, head, free) && p !in free
    ensures FreeOk(AddRef(pages, p, delta), head, free)
  {
    forall j | 0 <= j < |free| ensures LinkOk(AddRef(pages, p, delta), free, j) {
      assert LinkOk(pages, free, j);
    }
  }

  // A present entry never names a directory, and names a page table only from the entry it hangs from.
  lemma RefTarget(t: Tree, i: int)
    requires TreeOk(t)
    ensures i in t.dirs ==> Refs(t, i) == {}
    ensures i in t.owner ==> Refs(t, i) == {t.owner[i]}
  {
    forall g, l | (g, l) in Refs(t, i)
      ensures i !in t.dirs && (i in t.owner ==> (g, l) == t.owner[i])
    {
      if g in t.dirs {
        assert PdeOk(t, g, l);
      } else {
        assert PteOk(t, g, l);
      }
    }
    if i in t.owner {
      assert OwnerOk(t, i) && Slot(t, t.owner[i].0, t.owner[i].1);
    }
  }

  /** No page on the free list is referenced by any entry, and none is part of a tree. */
  lemma FreeUnreferenced(m: Mem, i: int)
    requires Inv(m) && i in m.free
    ensures Plain(m.tree, i) && Refs(m.tree, i) == {} && m.pages[i].refs == 0 && At(m.pins, i) == 0
  {
    RefTarget(m.tree, i);
    assert Counted(m.pages, m.tree, m.pins, i);
  }

  // ---------------------------------------------------------------- the trees

  lemma RefsSetEntry(t: Tree, f: int, k: int, e: int, i: int)
    requires Framed(t) && 0 <= f < |t.frames| && 0 <= k < Limit(t, f)
    ensures Framed(SetEntry(t, f, k, e))
    ensures Refs(SetEntry(t, f, k, e), i)
         == (Refs(t, i) - {(f, k)}) + (if Present(e) && PteFrame(e) == i then {(f, k)} else {})
  {
    var t' := SetEntry(t, f, k, e);
    forall g, l | 0 <= g < |t.frames| && 0 <= l < NPTENTRIES
      ensures (g, l) in Refs(t', i) <==>
              (g, l) in (Refs(t, i) - {(f, k)}) + (if Present(e) && PteFrame(e) == i then {(f, k)} else {})
    {
      assert Entry(t', g, l) == if g == f && l == k then e else Entry(t, g, l);
    }
  }

  // A legal new entry in a page table
  lemma TreeSetEntry(t: Tree, f: int, k: int, e: int)
    requires TreeOk(t) && f in t.owner && 0 <= k < NPTENTRIES && 0 <= f < |t.frames|
    requires e == 0 || (Present(e) && Plain(t, PteFrame(e)))
    ensures TreeOk(SetEntry(t, f, k, e))
  {
    var t' := SetEntry(t, f, k, e);
    assert forall g, l :: 0 <= g < |t.frames| && 0 <= l < NPTENTRIES ==>
      Entry(t', g, l) == if g == f && l == k then e else Entry(t, g, l);
    forall g, l | g in t.owner && 0 <= l < NPTENTRIES ensures PteOk(t', g, l) { assert PteOk(t, g, l); }
    forall d, l | d in t.dirs && 0 <= l < UTOP_PDX ensures PdeOk(t', d, l) { assert PdeOk(t, d, l); }
    forall g | g in t.owner ensures OwnerOk(t', g) { assert OwnerOk(t, g); }
  }

  // The content of frames outside the trees does not matter to the trees.
  lemma TreeFill(t: Tree, p: int, content: Frame)
    requires TreeOk(t) && Plain(t, p) && |content| == NPTENTRIES
    ensures var t' := t.(frames := Upd(t.frames, p, content)); TreeOk(t') && forall i :: Refs(t', i) == Refs(t, i)
  {
    var t' := t.(frames := Upd(t.frames, p, content));
    assert forall f, k :: Slot(t', f, k) == Slot(t, f, k);
    forall g, l | g in t.owner && 0 <= l < NPTENTRIES
      ensures PteOk(t', g, l) { assert PteOk(t, g, l) && OwnerOk(t, g); }
    forall d, l | d in t.dirs && 0 <= l < UTOP_PDX ensures PdeOk(t', d, l) { assert PdeOk(t, d, l); }
    forall g | g in t.owner ensures OwnerOk(t', g) { assert OwnerOk(t, g); }
  }

  // ---------------------------------------------------------------- steps keep the invariant

  // Only the counts matter, not the links.
  lemma {:induction false} SameCounts(pages: seq<PageInfo>, t: Tree, pages': seq<PageInfo>, t': Tree, pins: seq<int>)
    requires RefOk(pages, t, pins) && |pages'| == |pages| && |t'.frames| == |t.frames| && t'.owner == t.owner
      && t'.dirs == t.dirs
    requires forall i :: 0 <= i < |pages| ==> pages'[i].refs == pages[i].refs
    requires forall i :: 0 <= i < |pages| ==> Refs(t', i) == Refs(t, i)
    ensures RefOk(pages', t', pins)
  {
    forall i | 0 <= i < |pages| ensures Counted(pages', t', pins, i) {
      assert Counted(pages, t, pins, i);
    }
  }

  lemma AllocKeeps(m: Mem)
    requires Inv(m) && m.free != []
    ensures Inv(Alloc(m)) && m.free[0] !in Alloc(m).free && Plain(m.tree, m.free[0])
    ensures Alloc(m).pages[m.free[0]] == PageInfo(NIL, 0) && At(m.pins, m.free[0]) == 0 && Refs(m.tree, m.free[0]) == {}
    ensures forall i :: i in Alloc(m).free <==> i in m.free && i != m.free[0]
  {
    assert m.free == [m.free[0]] + m.free[1..];
    AllocFree(m.pages, m.head, m.free);
    SameCounts(m.pages, m.tree, SetLink(m.pages, m.free[0], NIL), m.tree, m.pins);
    FreeUnreferenced(m, m.free[0]);
  }

  lemma FillKeeps(m: Mem, p: int, content: Frame)
    requires Inv(m) && Plain(m.tree, p) && |content| == NPTENTRIES
    ensures Inv(Fill(m, p, content))
    ensures forall i :: Refs(Fill(m, p, content).tree, i) == Refs(m.tree, i)
  {
    TreeFill(m.tree, p, content);
    SameCounts(m.pages, m.tree, m.pages, Fill(m, p, content).tree, m.pins);
  }

  lemma PinCounts(pages: seq<PageInfo>, t: Tree, pins: seq<int>, p: int)
    requires RefOk(pages, t, pins) && Plain(t, p)
    ensures RefOk(AddRef(pages, p, 1), t, Upd(pins, p, At(pins, p) + 1))
    ensures At(pins, p) > 0 ==> RefOk(AddRef(pages, p, -1), t, Upd(pins, p, At(pins, p) - 1))
  {
    var more, fewer := Upd(pins, p, At(pins, p) + 1), Upd(pins, p, At(pins, p) - 1);
    forall i | 0 <= i < |pages|
      ensures Counted(AddRef(pages, p, 1), t, more, i)
      ensures At(pins, p) > 0 ==> Counted(AddRef(pages, p, -1), t, fewer, i)
    {
      assert Counted(pages, t, pins, i);
    }
  }

  lemma PinKeeps(m: Mem, p: int)
    requires Inv(m) && Plain(m.tree, p) && p !in m.free
    ensures Inv(Pin(m, p)) && At(Pin(m, p).pins, p) == At(m.pins, p) + 1 > 0
  {
    assert Counted(m.pages, m.tree, m.pins, p);
    PinCounts(m.pages, m.tree, m.pins, p);
    FreeKeepsLinks(m.pages, m.head, m.free, p, 1);
  }

  // Dropping a reference: the general step, from a state whose count for p is one too high
  lemma DecrefKeeps(m: Mem, p: int)
    requires FreeOk(m.pages, m.head, m.free) && TreeOk(m.tree) && Plain(m.tree, p) && p !in m.free && 0 <= p < |m.pages|
    requires RefOk(AddRef(m.pages, p, -1), m.tree, m.pins)
    ensures Inv(Decref(m, p)) && Decref(m, p).tree == m.tree && Decref(m, p).pins == m.pins
    ensures Decref(m, p).free == if m.pages[p].refs == 1 then [p] + m.free else m.free
  {
    var pages1 := AddRef(m.pages, p, -1);
    FreeKeepsLinks(m.pages, m.head, m.free, p, -1);
    if pages1[p].refs == 0 {
      PushFree(pages1, m.head, m.free, p);
      SameCounts(pages1, m.tree, SetLink(pages1, p, m.head), m.tree, m.pins);
    }
  }

  lemma ClearRefs(t: Tree, f: int, k: int, q: int)
    requires TreeOk(t) && f in t.owner && 0 <= k < NPTENTRIES && 0 <= f < |t.frames|
    requires Present(Entry(t, f, k)) && PteFrame(Entry(t, f, k)) == q
    ensures Plain(t, q) && TreeOk(SetEntry(t, f, k, 0)) && (f, k) in Refs(t, q)
    ensures forall i :: Refs(SetEntry(t, f, k, 0), i) == if i == q then Refs(t, i) - {(f, k)} else Refs(t, i)
  {
    assert PteOk(t, f, k);
    TreeSetEntry(t, f, k, 0);
    forall i ensures Refs(SetEntry(t, f, k, 0), i) == if i == q then Refs(t, i) - {(f, k)} else Refs(t, i) {
      RefsSetEntry(t, f, k, 0, i);
    }
  }

  lemma DropOneRef(pages: seq<PageInfo>, t: Tree, t': Tree, pins: seq<int>, q: int, slot: (int, int))
    requires |t'.frames| == |t.frames| && t'.owner == t.owner && t'.dirs == t.dirs
    requires RefOk(pages, t, pins) && 0 <= q < |pages| && slot in Refs(t, q)
    requires forall i :: Refs(t', i) == if i == q then Refs(t, i) - {slot} else Refs(t, i)
    ensures RefOk(AddRef(pages, q, -1), t', pins)
    ensures pages[q].refs > 0 && (pages[q].refs == 1 <==> Refs(t, q) == {slot} && At(pins, q) == 0)
  {
    assert |Refs(t, q)| == |Refs(t', q)| + 1 by {
      assert Refs(t, q) == Refs(t', q) + {slot};
    }
    assert |Refs(t', q)| == 0 <==> Refs(t, q) == {slot};
    assert Counted(pages, t, pins, q);
    forall i | 0 <= i < |pages| ensures Counted(AddRef(pages, q, -1), t', pins, i) {
      assert Counted(pages, t, pins, i);
    }
  }

  /** Clearing a page-table entry drops exactly the reference it was, and frees the frame exactly
      when no other entry and no pin refers to it. */
  lemma ClearKeeps(m: Mem, f: int, k: int, q: int)
    requires Inv(m) && f in m.tree.owner && 0 <= k < NPTENTRIES
    requires Present(Entry(m.tree, f, k)) && PteFrame(Entry(m.tree, f, k)) == q
    ensures Plain(m.tree, q) && (f, k) in Refs(m.tree, q)
    ensures Inv(Clear(m, f, k)) && Clear(m, f, k).tree == SetEntry(m.tree, f, k, 0) && Clear(m, f, k).pins == m.pins
    ensures forall i :: Refs(Clear(m, f, k).tree, i) == if i == q then Refs(m.tree, i) - {(f, k)} else Refs(m.tree, i)
    ensures Clear(m, f, k).free == if Refs(m.tree, q) == {(f, k)} && At(m.pins, q) == 0 then [q] + m.free else m.free
  {
    var t' := SetEntry(m.tree, f, k, 0);
    ClearRefs(m.tree, f, k, q);
    DropOneRef(m.pages, m.tree, t', m.pins, q, (f, k));
    DecrefKeeps(m.(tree := t'), q);
  }

  lemma PlaceRefs(t: Tree, f: int, k: int, p: int, e: int)
    requires TreeOk(t) && f in t.owner && 0 <= k < NPTENTRIES && 0 <= f < |t.frames| && !Present(Entry(t, f, k))
    requires Plain(t, p) && Present(e) && PteFrame(e) == p
    ensures TreeOk(SetEntry(t, f, k, e)) && (f, k) !in Refs(t, p)
    ensures forall i :: Refs(SetEntry(t, f, k, e), i) == if i == p then Refs(t, i) + {(f, k)} else Refs(t, i)
  {
    TreeSetEntry(t, f, k, e);
    assert !Slot(t, f, k);
    forall i ensures Refs(SetEntry(t, f, k, e), i) == if i == p then Refs(t, i) + {(f, k)} else Refs(t, i) {
      RefsSetEntry(t, f, k, e, i);
    }
  }

  lemma OneMore(r: set<(int, int)>, s: (int, int))
    requires s !in r
    ensures |r + {s}| == |r| + 1
  {
  }

  // One pin more becomes one entry more.
  lemma CountPlaced(n: int, r: set<(int, int)>, r': set<(int, int)>, pin: int, slot: (int, int))
    requires n == |r| + pin && slot !in r && r' == r + {slot}
    ensures n == |r'| + (pin - 1)
  {
    OneMore(r, slot);
  }

  lemma GainOneRef(pages: seq<PageInfo>, t: Tree, t': Tree, pins: seq<int>, p: int, slot: (int, int))
    requires |t'.frames| == |t.frames| && t'.owner == t.owner && t'.dirs == t.dirs
    requires RefOk(pages, t, pins) && 0 <= p < |pages| && slot !in Refs(t, p) && At(pins, p) > 0 && p !in t.owner
      && p !in t.dirs
    requires forall i :: Refs(t', i) == if i == p then Refs(t, i) + {slot} else Refs(t, i)
    ensures RefOk(pages, t', Upd(pins, p, At(pins, p) - 1))
  {
    var pins' := Upd(pins, p, At(pins, p) - 1);
    forall i | 0 <= i < |pages| ensures Counted(pages, t', pins', i) {
      assert Counted(pages, t, pins, i);
      if i == p {
        CountPlaced(pages[p].refs, Refs(t, p), Refs(t', p), At(pins, p), slot);
      }
    }
  }

  /** Writing an absent page-table entry for p spends a pin of p: the count stays exact. */
  lemma PlaceKeeps(m: Mem, f: int, k: int, p: int, flags: int)
    requires Inv(m) && f in m.tree.owner && 0 <= f < |m.tree.frames| && 0 <= k < NPTENTRIES
      && !Present(Entry(m.tree, f, k))
    requires Plain(m.tree, p) && At(m.pins, p) > 0 && IsFlags(flags) && HasP(flags)
    ensures Inv(Place(m, f, k, p, flags))
    ensures forall i :: Refs(Place(m, f, k, p, flags).tree, i) == if i == p then Refs(m.tree, i) + {(f, k)}
      else Refs(m.tree, i)
  {
    MkPteParts(p, flags);
    PlaceRefs(m.tree, f, k, p, MkPte(p, flags));
    GainOneRef(m.pages, m.tree, SetEntry(m.tree, f, k, MkPte(p, flags)), m.pins, p, (f, k));
  }

  // ---------------------------------------------------------------- page tables come and go

  // t' is t with a new, empty page table p behind entry k of directory d.
  ghost predicate TableAdded(t: Tree, t': Tree, d: int, k: int, p: int) {
    && |t'.frames| == |t.frames| && t'.dirs == t.dirs && t'.owner == t.owner[p := (d, k)]
    && (forall i :: 0 <= i < |t.frames| ==> |t'.frames[i]| == NPTENTRIES)
    && forall g, l {:trigger Entry(t', g, l)} :: 0 <= g < |t.frames| && 0 <= l < NPTENTRIES ==>
         Entry(t', g, l) == if g == d && l == k then MkPte(p, PTE_P + PTE_W + PTE_U) else if g == p then 0
           else Entry(t, g, l)
  }

  // Entry k of directory d is free for page table p, a frame nobody refers to.
  ghost predicate TablePlace(t: Tree, d: int, k: int, p: int) {
    TreeOk(t) && d in t.dirs && 0 <= k < UTOP_PDX && !Present(Entry(t, d, k)) && Plain(t, p) && Refs(t, p) == {}
  }

  lemma AddedPte(t: Tree, t': Tree, d: int, k: int, p: int, g: int, l: int)
    requires TablePlace(t, d, k, p) && TableAdded(t, t', d, k, p) && g in t'.owner && 0 <= l < NPTENTRIES
    ensures PteOk(t', g, l)
  {
    if g != p {
      assert PteOk(t, g, l) && OwnerOk(t, g);
      if Entry(t, g, l) != 0 {
        assert (g, l) in Refs(t, PteFrame(Entry(t, g, l)));
      }
    }
  }

  lemma AddedPde(t: Tree, t': Tree, d: int, k: int, p: int, c: int, l: int)
    requires TablePlace(t, d, k, p) && TableAdded(t, t', d, k, p) && c in t.dirs && 0 <= l < UTOP_PDX
    ensures PdeOk(t', c, l)
  {
    MkPteParts(p, PTE_P + PTE_W + PTE_U);
    assert PdeOk(t, c, l);
  }

  lemma AddedOwner(t: Tree, t': Tree, d: int, k: int, p: int, g: int)
    requires TablePlace(t, d, k, p) && TableAdded(t, t', d, k, p) && g in t'.owner
    ensures OwnerOk(t', g)
  {
    MkPteParts(p, PTE_P + PTE_W + PTE_U);
    if g != p {
      assert OwnerOk(t, g);
    }
  }

  lemma AddedRefs(t: Tree, t': Tree, d: int, k: int, p: int, i: int)
    requires TablePlace(t, d, k, p) && TableAdded(t, t', d, k, p)
    ensures Refs(t', i) == if i == p then {(d, k)} else Refs(t, i)
  {
    MkPteParts(p, PTE_P + PTE_W + PTE_U);
    forall g, l | 0 <= g < |t.frames| && 0 <= l < NPTENTRIES
      ensures Slot(t', g, l) <==> (Slot(t, g, l) || (g == d && l == k))
    {
    }
  }

  lemma NewTableTree(t: Tree, t': Tree, d: int, k: int, p: int)
    requires TablePlace(t, d, k, p) && TableAdded(t, t', d, k, p)
    ensures TreeOk(t') && forall i :: Refs(t', i) == if i == p then {(d, k)} else Refs(t, i)
  {
    forall g, l | g in t'.owner && 0 <= l < NPTENTRIES ensures PteOk(t', g, l) {
      AddedPte(t, t', d, k, p, g, l);
    }
    forall c, l | c in t'.dirs && 0 <= l < UTOP_PDX ensures PdeOk(t', c, l) {
      AddedPde(t, t', d, k, p, c, l);
    }
    forall g | g in t'.owner ensures OwnerOk(t', g) {
      AddedOwner(t, t', d, k, p, g);
    }
    forall i ensures Refs(t', i) == if i == p then {(d, k)} else Refs(t, i) {
      AddedRefs(t, t', d, k, p, i);
    }
  }

  lemma AddTableEntries(t: Tree, d: int, k: int, p: int)
    requires TablePlace(t, d, k, p)
    ensures TableAdded(t, AddTable(t.(frames := Upd(t.frames, p, ZeroFrame())), d, k, p), d, k, p)
  {
  }

  lemma NewTableCounts(pages: seq<PageInfo>, t: Tree, t': Tree, pins: seq<int>, p: int, slot: (int, int))
    requires |t'.frames| == |t.frames| && t'.dirs == t.dirs && t'.owner == t.owner[p := slot]
    requires RefOk(pages, t, pins) && 0 <= p < |pages| && Refs(t, p) == {} && At(pins, p) == 0 && p !in t.dirs
    requires forall i :: Refs(t', i) == if i == p then {slot} else Refs(t, i)
    ensures RefOk(AddRef(pages, p, 1), t', pins)
  {
    forall i | 0 <= i < |pages| ensures Counted(AddRef(pages, p, 1), t', pins, i) {
      assert Counted(pages, t, pins, i);
    }
  }

  lemma NewTableKeeps(m: Mem, d: int, k: int)
    requires Inv(m) && m.free != [] && d in m.tree.dirs && 0 <= k < UTOP_PDX && !Present(Entry(m.tree, d, k))
    ensures Inv(NewTable(m, d, k))
    ensures forall i :: Refs(NewTable(m, d, k).tree, i) == if i == m.free[0] then {(d, k)} else Refs(m.tree, i)
  {
    var p := m.free[0];
    AllocKeeps(m);
    AddTableEntries(m.tree, d, k, p);
    NewTableTree(m.tree, NewTable(m, d, k).tree, d, k, p);
    var m1 := Alloc(m);
    FreeKeepsLinks(m1.pages, m1.head, m1.free, p, 1);
    NewTableCounts(m1.pages, m.tree, NewTable(m, d, k).tree, m.pins, p, (d, k));
  }
}
