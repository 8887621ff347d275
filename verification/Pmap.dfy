/** The kernel's memory as the kernel keeps it: the pages array, page_free_list and the frames,
    updated in place.  Each method is specified by the function on `Mem` it carries out. */
module Pmap {
  import opened Mmu
  import opened Phys
  import opened Vm

  const MPENTRY_PN := 7        // PGNUM(MPENTRY_PADDR)
  const IOPHYSMEM_PN := 160
  const EXTPHYSMEM_PN := 256

  // Is frame i free after page_init?  nextfree is the page after the kernel's boot allocations.
  predicate InitiallyFree(i: int, nextfree: int) {
    (1 <= i < IOPHYSMEM_PN && i != MPENTRY_PN) || (EXTPHYSMEM_PN <= i && nextfree <= i)
  }

  // ---------------------------------------------------------------- page_init, on values

  ghost predicate Linked(pages: seq<PageInfo>, free: seq<int>, i: int, j: int)
    requires 0 <= j < |free|
  {
    0 <= free[j] < i <= |pages| && pages[free[j]] == PageInfo(NextFree(free, j), 0)
  }

  ghost predicate Sorted(free: seq<int>) {
    forall j, l :: 0 <= j < l < |free| ==> free[j] < free[l]
  }

  ghost predicate Settled(pages: seq<PageInfo>, free: seq<int>, nextfree: int, k: int) {
    0 <= k < |pages| && (k in free <==> InitiallyFree(k, nextfree)) && (k in free || pages[k] == PageInfo(NIL, 1))
  }

  // page_init has dealt with the frames below i; last is its pinfo.
  ghost predicate Threaded(pages: seq<PageInfo>, head: int, free: seq<int>, last: int, i: int, nextfree: int) {
    && 0 <= i <= |pages|
    && head == (if free == [] then NIL else free[0])
    && last == (if free == [] then NIL else free[|free| - 1])
    && (forall j :: 0 <= j < |free| ==> Linked(pages, free, i, j))
    && Sorted(free)
    && (forall k :: 0 <= k < i ==> Settled(pages, free, nextfree, k))
    && (forall k :: i <= k < |pages| ==> pages[k] == PageInfo(NIL, 0))
  }

  lemma ThreadSkip(pages: seq<PageInfo>, head: int, free: seq<int>, last: int, i: int, nextfree: int)
    requires Threaded(pages, head, free, last, i, nextfree) && i < |pages| && !InitiallyFree(i, nextfree)
    ensures Threaded(pages[i := PageInfo(NIL, 1)], head, free, last, i + 1, nextfree)
  {
    var pages' := pages[i := PageInfo(NIL, 1)];
    forall j | 0 <= j < |free| ensures Linked(pages', free, i + 1, j) && free[j] != i {
      assert Linked(pages, free, i, j);
    }
    forall k | 0 <= k < i + 1 ensures Settled(pages', free, nextfree, k) {
      assert k < i ==> Settled(pages, free, nextfree, k);
    }
  }

  lemma ThreadPush(pages: seq<PageInfo>, head: int, free: seq<int>, last: int, i: int, nextfree: int)
    requires Threaded(pages, head, free, last, i, nextfree) && i < |pages| && InitiallyFree(i, nextfree)
    ensures Threaded(SetLink(pages, last, i), if free == [] then i else head, free + [i], i, i + 1, nextfree)
  {
    var pages', free' := SetLink(pages, last, i), free + [i];
    forall j | 0 <= j < |free| ensures Linked(pages', free', i + 1, j) && free[j] < i {
      assert Linked(pages, free, i, j);
    }
    assert NextFree(free', |free|) == NIL && Linked(pages', free', i + 1, |free|) by {
      assert free != [] ==> Linked(pages, free, i, |free| - 1);
    }
    forall k | 0 <= k < i + 1 ensures Settled(pages', free', nextfree, k) {
      if k < i {
        assert Settled(pages, free, nextfree, k);
        assert k in free' <==> k in free;
        assert k == last ==> k in free;
      }
    }
  }

  function RefCount(pages: seq<PageInfo>): seq<int> {
    seq(|pages|, i requires 0 <= i < |pages| => pages[i].refs)
  }

  // A threaded list over all frames, no page tables yet, every reference pinned
  lemma InitialInv(m: Mem, last: int, nextfree: int)
    requires Threaded(m.pages, m.head, m.free, last, |m.pages|, nextfree) && m.pins == RefCount(m.pages)
    requires |m.tree.frames| == |m.pages| && m.tree.dirs == {} && m.tree.owner == map[] && Framed(m.tree)
    ensures Inv(m) && forall i :: i in m.free <==> 0 <= i < |m.pages| && InitiallyFree(i, nextfree)
  {
    forall j | 0 <= j < |m.free| ensures LinkOk(m.pages, m.free, j) && m.pages[m.free[j]].refs == 0 {
      assert Linked(m.pages, m.free, |m.pages|, j);
    }
    forall i | 0 <= i < |m.pages|
      ensures (i in m.free <==> InitiallyFree(i, nextfree)) && (i in m.free || m.pages[i].link == NIL)
      ensures Counted(m.pages, m.tree, m.pins, i)
    {
      assert Settled(m.pages, m.free, nextfree, i);
      assert Refs(m.tree, i) == {};
      if i in m.free {
        var j :| 0 <= j < |m.free| && m.free[j] == i;
        assert Linked(m.pages, m.free, |m.pages|, j);
      }
    }
    assert FreeOk(m.pages, m.head, m.free);
  }

  lemma UnmapTable(m: Mem, d: int, v: int)
    requires Inv(m) && UserPage(m.tree, d, v) && Present(Xlate(m.tree, d, v))
    ensures var m', f := Unmap(m, d, v), Table(m.tree, d, v);
      && Table(m'.tree, d, v) == f && Framed(m'.tree) && 0 <= f < |m'.tree.frames| == |m.tree.frames|
  {
    UnmapSpec(m, d, v);
    TableOk(m.tree, d, v);
    assert Content(Unmap(m, d, v).tree, d) == Content(m.tree, d);
  }

  // What page_insert needs to know once its page table exists
  lemma WalkedForInsert(m: Mem, d: int, p: int, v: int)
    requires Inv(m) && UserPage(m.tree, d, v) && (HasTable(m.tree, d, v) || m.free != []) && Plain(m.tree, p)
      && p !in m.free
    ensures var m1 := Walk(m, d, v);
      && Inv(Pin(m1, p)) && UserPage(m1.tree, d, v) && HasTable(m1.tree, d, v)
      && Plain(m1.tree, p) && p !in m1.free && At(Pin(m1, p).pins, p) > 0
  {
    WalkSpec(m, d, v);
    PinKeeps(Walk(m, d, v), p);
  }

  class PhysMem {
    const pages: array<PageInfo>
    const frames: array<Frame>
    var freeList: int

    ghost var free: seq<int>
    ghost var dirs: set<int>
    ghost var owner: map<int, (int, int)>
    ghost var pins: seq<int>

    ghost function State(): Mem
      reads this, pages, frames
    {
      Mem(pages[..], freeList, free, Tree(frames[..], dirs, owner), pins)
    }

    ghost predicate Valid()
      reads this, pages, frames
    {
      Inv(State()) && pages.Length == frames.Length
    }

    /** page_init: the free list holds, in order, base memory but for page 0 and the boot code of
        the other CPUs, then what lies above the kernel. */
    constructor (npages: nat, nextfree: int, content: seq<Frame>)
      requires EXTPHYSMEM_PN <= nextfree && EXTPHYSMEM_PN <= npages == |content|
      requires forall i :: 0 <= i < npages ==> |content[i]| == NPTENTRIES
      ensures Valid() && fresh(pages) && fresh(frames)
      ensures frames[..] == content && dirs == {} && owner == map[]
      ensures Sorted(free) && forall i :: i in free <==> 0 <= i < npages && InitiallyFree(i, nextfree)
    {
      pages := new PageInfo[npages](_ => PageInfo(NIL, 0));
      frames := new Frame[npages](i requires 0 <= i < npages => content[i]);
      freeList := NIL;
      free, dirs, owner, pins := [], {}, map[], [];
      new;
      assert frames[..] == content;
      ThreadSkip(pages[..], freeList, free, NIL, 0, nextfree);
      pages[0] := PageInfo(NIL, 1);
      var last := Thread(NIL, 1, IOPHYSMEM_PN, nextfree);
      for i := IOPHYSMEM_PN to EXTPHYSMEM_PN
        invariant Threaded(pages[..], freeList, free, last, i, nextfree)
        modifies pages
      {
        ThreadSkip(pages[..], freeList, free, last, i, nextfree);
        pages[i] := PageInfo(NIL, 1);
      }
      last := Thread(last, EXTPHYSMEM_PN, npages, nextfree);
      pins := RefCount(pages[..]);
      InitialInv(State(), last, nextfree);
    }

    // The two loops of page_init that thread free pages, over frames lo..hi; pinfo is `last`
    method Thread(last0: int, lo: int, hi: int, nextfree: int) returns (last: int)
      requires 0 <= lo <= hi <= pages.Length && Threaded(pages[..], freeList, free, last0, lo, nextfree)
      modifies this`freeList, this`free, pages
      ensures Threaded(pages[..], freeList, free, last, hi, nextfree)
    {
      last := last0;
      for i := lo to hi
        invariant Threaded(pages[..], freeList, free, last, i, nextfree)
      {
        ghost var was, head := pages[..], freeList;
        assert free != [] ==> Linked(was, free, i, |free| - 1) && Linked(was, free, i, 0);
        if !InitiallyFree(i, nextfree) {
          ThreadSkip(was, head, free, last, i, nextfree);
          pages[i] := PageInfo(NIL, 1);
        } else {
          ThreadPush(was, head, free, last, i, nextfree);
          if last == NIL {
            freeList := i;
          } else {
            pages[last] := pages[last].(link := i);
          }
          assert pages[..] == SetLink(was, last, i);
          last := i;
          free := free + [i];
        }
      }
    }

    // ---------------------------------------------------------------- single stores

    // *pte = e
    method StoreEntry(f: int, k: int, e: int)
      requires 0 <= f < frames.Length && |frames[f]| == NPTENTRIES && 0 <= k < NPTENTRIES
      modifies frames
      ensures State() == old(State()).(tree := SetEntry(old(State()).tree, f, k, e))
    {
      frames[f] := frames[f][k := e];
      assert frames[..] == Upd(old(frames[..]), f, Upd(Content(old(State()).tree, f), k, e));
    }

    // pp->pp_ref += delta
    method BumpRef(p: int, delta: int)
      requires 0 <= p < pages.Length
      modifies pages
      ensures State() == old(State()).(pages := AddRef(old(State()).pages, p, delta))
    {
      pages[p] := pages[p].(refs := pages[p].refs + delta);
      assert pages[..] == AddRef(old(pages[..]), p, delta);
    }

    // ---------------------------------------------------------------- the page allocator

    /** page_alloc: null on an empty list, else the first page, which no entry and no pin names; the
        test for a referenced page on the list never fires. */
    method PageAlloc(zero: bool) returns (p: int)
      requires Valid()
      modifies this`freeList, this`free, pages, frames
      ensures Valid() && (p == NIL <==> old(free) == [])
      ensures p == NIL ==> State() == old(State())
      ensures p != NIL ==> p == old(free[0]) && old(Refs(State().tree, p)) == {} && p !in free && Plain(State().tree, p)
      ensures p != NIL ==> State() == if zero then Fill(Alloc(old(State())), p, ZeroFrame()) else Alloc(old(State()))
    {
      if freeList == NIL {
        return NIL;
      }
      ghost var was := State();
      AllocKeeps(was);
      assert pages[freeList].refs == 0;
      p := freeList;
      freeList := pages[p].link;
      pages[p] := pages[p].(link := NIL);
      free := free[1..];
      assert pages[..] == SetLink(was.pages, p, NIL);
      assert State() == Alloc(was);
      if zero {
        FillKeeps(Alloc(was), p, ZeroFrame());
        frames[p] := ZeroFrame();
        assert frames[..] == Upd(was.tree.frames, p, ZeroFrame());
      }
    }

    /** page_free: both of its panics are excluded by the precondition. */
    method PageFree(p: int)
      requires 0 <= p < pages.Length && pages[p] == PageInfo(NIL, 0)
      modifies this`freeList, this`free, pages
      ensures State() == Free(old(State()), p)
    {
      pages[p] := pages[p].(link := freeList);
      freeList := p;
      free := [p] + free;
      assert pages[..] == SetLink(old(pages[..]), p, old(freeList));
    }

    /** page_decref */
    method PageDecref(p: int)
      requires 0 <= p < pages.Length && (pages[p].refs == 1 ==> pages[p].link == NIL)
      modifies this`freeList, this`free, pages
      ensures State() == Decref(old(State()), p)
    {
      BumpRef(p, -1);
      if pages[p].refs == 0 {
        PageFree(p);
      }
    }

    // ---------------------------------------------------------------- page tables

    /** pgdir_walk: the frame of the page table behind v, whose entry Ptx(v) is the one asked for;
        NIL when there is none and none is to be made or no page is left for it. */
    method PgdirWalk(d: int, v: int, create: bool) returns (f: int)
      requires Valid() && UserPage(State().tree, d, v)
      modifies this`freeList, this`free, this`owner, pages, frames
      ensures Valid() && (f == NIL <==> !old(HasTable(State().tree, d, v)) && (!create || old(free) == []))
      ensures State() == if f == NIL then old(State()) else Walk(old(State()), d, v)
      ensures f != NIL ==> HasTable(State().tree, d, v) && f == Table(State().tree, d, v)
    {
      ghost var was := State();
      if !Present(frames[d][Pdx(v)]) {
        if !create {
          return NIL;
        }
        var p := PageAlloc(true);
        if p == NIL {
          return NIL;
        }
        NewTableKeeps(was, d, Pdx(v));
        BumpRef(p, 1);
        StoreEntry(d, Pdx(v), MkPte(p, PTE_P + PTE_W + PTE_U));
        owner := owner[p := (d, Pdx(v))];
        assert State() == NewTable(was, d, Pdx(v));
      }
      f := PteFrame(frames[d][Pdx(v)]);
      TableOk(State().tree, d, v);
    }

    /** page_lookup: the page and the page table of its entry, present or not */
    method PageLookup(d: int, v: int) returns (p: int, f: int)
      requires Valid() && UserPage(State().tree, d, v)
      modifies this`freeList, this`free, this`owner, pages, frames
      ensures State() == old(State())
      ensures f == NIL <==> !HasTable(State().tree, d, v)
      ensures if f == NIL then p == NIL else p == PteFrame(Xlate(State().tree, d, v)) && f == Table(State().tree, d, v)
    {
      f := PgdirWalk(d, v, false);
      if f == NIL {
        return NIL, NIL;
      }
      TableOk(State().tree, d, v);
      p := PteFrame(frames[f][Ptx(v)]);
    }

    /** page_remove.  The invariant survives when the page is present (Vm.UnmapSpec). */
    method PageRemove(d: int, v: int)
      requires Valid() && UserPage(State().tree, d, v) && pages.Length > 0
      modifies this`freeList, this`free, this`owner, pages, frames
      ensures State() == if old(HasTable(State().tree, d, v)) then Unmap(old(State()), d, v) else old(State())
    {
      var p, f := PageLookup(d, v);
      if f == NIL {
        return;
      }
      TableOk(State().tree, d, v);
      assert 0 <= p < pages.Length && (pages[p].refs == 1 ==> pages[p].link == NIL);
      StoreEntry(f, Ptx(v), 0);
      PageDecref(p);
    }

    // ++ pp->pp_ref, before the entry that is the reference is written
    method TakeRef(p: int)
      requires 0 <= p < pages.Length
      modifies this`pins, pages
      ensures State() == Pin(old(State()), p)
    {
      BumpRef(p, 1);
      pins := Upd(pins, p, At(pins, p) + 1);
    }

    // The last store of page_insert: the new entry takes over the pinned reference.
    method WriteMapping(p: int, f: int, k: int, flags: int)
      requires 0 <= f < frames.Length && |frames[f]| == NPTENTRIES && 0 <= k < NPTENTRIES
      modifies this`pins, frames
      ensures State() == Place(old(State()), f, k, p, flags)
    {
      StoreEntry(f, k, MkPte(p, flags));
      pins := Upd(pins, p, At(pins, p) - 1);
    }

    // The end of page_insert, with the page's new reference held as a pin
    method Rewrite(d: int, p: int, v: int, perm: int, f: int)
      requires Valid() && UserPage(State().tree, d, v) && HasTable(State().tree, d, v) && f == Table(State().tree, d, v)
      requires Plain(State().tree, p) && p !in free && At(pins, p) > 0 && IsFlags(perm)
      modifies this, pages, frames
      ensures State() == Replace(old(State()), d, p, v, perm)
    {
      ghost var m := State();
      TableOk(m.tree, d, v);
      if Present(frames[f][Ptx(v)]) {
        UnmapTable(m, d, v);
        PageRemove(d, v);
      }
      ghost var m1 := State();
      assert m1 == if Present(Xlate(m.tree, d, v)) then Unmap(m, d, v) else m;
      assert f == Table(m1.tree, d, v) && 0 <= f < frames.Length && |frames[f]| == NPTENTRIES;
      WriteMapping(p, f, Ptx(v), OrP(perm));
    }

    /** page_insert.  The page gains its reference first, so the old mapping of the very same page
        can be removed without freeing it. */
    method PageInsert(d: int, p: int, v: int, perm: int) returns (rc: Rc)
      requires Valid() && UserPage(State().tree, d, v) && Plain(State().tree, p) && p !in free && IsFlags(perm)
      modifies this, pages, frames
      ensures Valid() && (State(), rc) == Insert(old(State()), d, p, v, perm)
    {
      ghost var was := State();
      InsertSpec(was, d, p, v, perm);
      var f := PgdirWalk(d, v, true);
      if f == NIL {
        return NoMem;
      }
      WalkedForInsert(was, d, p, v);
      if pages[p].refs >= MAX_REF {
        return Halt;
      }
      TakeRef(p);
      Rewrite(d, p, v, perm, f);
      return Ok;
    }
  }
}
