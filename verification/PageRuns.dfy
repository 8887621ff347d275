/** Runs of the page functions of pmap.c: what holds of the free list and the reference counts in every
    state they reach. */
module PageRuns {
  import opened Mmu
  import opened Phys
  import opened Vm
  import opened Held
  import opened Pmap

  datatype PageOp =
    | AllocOp(zero: bool)
    | FreeOp(p: int)
    | WalkOp(d: int, v: int)
    | InsertOp(d: int, p: int, v: int, perm: int)
    | RemoveOp(d: int, v: int)

  /** What callers owe: a page is freed once and only while nothing refers to it, a page that is
      inserted is allocated, page_remove is called for a present page. */
  ghost predicate Allowed(m: Mem, op: PageOp) {
    match op
    case AllocOp(_) => true
    case FreeOp(p) => HeldPage(m, p)
    case WalkOp(d, v) => UserPage(m.tree, d, v)
    case InsertOp(d, p, v, perm) => UserPage(m.tree, d, v) && Plain(m.tree, p) && p !in m.free && IsFlags(perm)
    case RemoveOp(d, v) => UserPage(m.tree, d, v) && Present(Xlate(m.tree, d, v))
  }

  // A call that its caller may not make does not happen.
  ghost function Apply(m: Mem, op: PageOp): Mem {
    if !Allowed(m, op) then m
    else match op
      case AllocOp(zero) => if m.free == [] then m else if zero then Fill(Alloc(m), m.free[0], ZeroFrame())
        else Alloc(m)
      case FreeOp(p) => Free(m, p)
      case WalkOp(d, v) => if !HasTable(m.tree, d, v) && m.free == [] then m else Walk(m, d, v)
      case InsertOp(d, p, v, perm) => Insert(m, d, p, v, perm).0
      case RemoveOp(d, v) => Unmap(m, d, v)
  }

  ghost function ApplyAll(m: Mem, ops: seq<PageOp>): Mem
    decreases |ops|
  {
    if ops == [] then m else ApplyAll(Apply(m, ops[0]), ops[1..])
  }

  lemma ApplyKeeps(m: Mem, op: PageOp)
    requires Inv(m)
    ensures Inv(Apply(m, op))
  {
    if Allowed(m, op) {
      match op
      case AllocOp(zero) =>
        if m.free != [] {
          AllocKeeps(m);
          FillKeeps(Alloc(m), m.free[0], ZeroFrame());
        }
      case FreeOp(p) => FreeHeld(m, p);
      case WalkOp(d, v) =>
        if HasTable(m.tree, d, v) || m.free != [] {
          WalkSpec(m, d, v);
        }
      case InsertOp(d, p, v, perm) => InsertSpec(m, d, p, v, perm);
      case RemoveOp(d, v) => UnmapSpec(m, d, v);
    }
  }

  lemma {:induction false} ApplyAllKeeps(m: Mem, ops: seq<PageOp>)
    requires Inv(m)
    ensures Inv(ApplyAll(m, ops))
    decreases |ops|
  {
    if ops != [] {
      ApplyKeeps(m, ops[0]);
      ApplyAllKeeps(Apply(m, ops[0]), ops[1..]);
    }
  }

  // k steps along pp_link from page p
  function Follow(pages: seq<PageInfo>, p: int, k: nat): int
    decreases k
  {
    if k == 0 then p else Follow(pages, if 0 <= p < |pages| then pages[p].link else NIL, k - 1)
  }

  // Following the links from the j-th page of the list
  lemma {:induction false} FollowFree(pages: seq<PageInfo>, head: int, free: seq<int>, j: nat, k: nat)
    requires FreeOk(pages, head, free) && j < |free| && j + k <= |free|
    ensures Follow(pages, free[j], k) == if j + k < |free| then free[j + k] else NIL
    decreases k
  {
    if k > 0 {
      assert LinkOk(pages, free, j);
      if j + 1 < |free| {
        FollowFree(pages, head, free, j + 1, k - 1);
      }
    }
  }

  /** In every state that page_alloc, page_free, pgdir_walk, page_insert and page_remove reach from
      the start: the free list ends and meets no page twice; no page on it is named by an entry; and
      every count is the number of directory and table entries below UTOP that name the page plus
      its pins. */
  lemma PagesExact(m0: Mem, ops: seq<PageOp>, i: int, k: nat)
    requires Inv(m0) && 0 <= i < |ApplyAll(m0, ops).pages| && k <= |ApplyAll(m0, ops).free|
    ensures var m := ApplyAll(m0, ops);
      && Follow(m.pages, m.head, k) == (if k < |m.free| then m.free[k] else NIL)
      && (forall j, l :: 0 <= j < l < |m.free| ==> m.free[j] != m.free[l])
      && (i in m.free ==> Refs(m.tree, i) == {} && m.pages[i].refs == 0)
      && m.pages[i].refs == |Refs(m.tree, i)| + At(m.pins, i)
  {
    ApplyAllKeeps(m0, ops);
    var m := ApplyAll(m0, ops);
    if m.free != [] {
      FollowFree(m.pages, m.head, m.free, 0, k);
    }
    assert Counted(m.pages, m.tree, m.pins, i);
    if i in m.free {
      FreeUnreferenced(m, i);
    }
  }

  // A mapped page's address has a page table, whose entry is a reference to the page.
  lemma MappedSlot(m: Mem, d: int, v: int, p: int)
    requires Inv(m) && UserPage(m.tree, d, v) && Present(Xlate(m.tree, d, v)) && PteFrame(Xlate(m.tree, d, v)) == p
    ensures HasTable(m.tree, d, v) && (Table(m.tree, d, v), Ptx(v)) in Refs(m.tree, p) && Plain(m.tree, p)
      && p !in m.free
  {
    XlateTarget(m, d, v);
  }

  lemma SameRefs(m: Mem, m': Mem, d: int, p: int, v: int)
    requires Inserted(m, m', d, p, v) && HasTable(m.tree, d, v) && (Table(m.tree, d, v), Ptx(v)) in Refs(m.tree, p)
    requires RefOk(m.pages, m.tree, m.pins) && RefOk(m'.pages, m'.tree, m'.pins) && Plain(m.tree, p)
    ensures Info(m', p).refs == Info(m, p).refs
  {
    assert Refs(m'.tree, p) == Refs(m.tree, p);
    assert Counted(m.pages, m.tree, m.pins, p) && Counted(m'.pages, m'.tree, m'.pins, p);
  }

  /** Re-inserting a page at its own address neither frees it nor changes its count. */
  lemma ReinsertSamePage(m: Mem, d: int, v: int, p: int, perm: int, m': Mem)
    requires Inv(m) && UserPage(m.tree, d, v) && Present(Xlate(m.tree, d, v)) && PteFrame(Xlate(m.tree, d, v)) == p
      && IsFlags(perm)
    requires Insert(m, d, p, v, perm) == (m', Ok)
    ensures p !in m'.free && Info(m', p).refs == Info(m, p).refs
  {
    MappedSlot(m, d, v, p);
    InsertSpec(m, d, p, v, perm);
    InsertRefs(m, d, p, v, perm);
    SameRefs(m, m', d, p, v);
  }
}
