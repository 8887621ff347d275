/** env_create: a program loaded into a new address space by region_alloc and load_icode.  It is where
    the runs of `Refine` start. */
module Loading {
  import opened Mmu
  import opened Phys
  import opened Vm
  import opened Pmap
  import opened EnvVm
  import opened Cow
  import opened Refine
  import opened ForkRoom

  // A page of a program's segments, and what load_icode puts there
  datatype Loaded = Loaded(v: int, content: Frame)

  const PERM_LOAD := PTE_W + PTE_U

  predicate PagesOk(pages: seq<Loaded>, last: int) {
    forall i :: 0 <= i < |pages| ==> UTEXT_PN <= pages[i].v < last && |pages[i].content| == NPTENTRIES
  }

  // One page of region_alloc: page_alloc, ++pp_ref, page_insert.  It panics without memory.
  ghost function RegionPage(m: Mem, d: int, v: int): (Mem, Rc) {
    if m.free == [] then (m, Halt)
    else
      var (m1, rc) := Insert(Pin(Alloc(m), m.free[0]), d, m.free[0], v, PERM_LOAD);
      (m1, if rc == Ok then Ok else Halt)
  }

  // ... and memset and memcpy through the mapping
  ghost function LoadPage(m: Mem, d: int, page: Loaded): (Mem, Rc) {
    var (m1, rc) := RegionPage(m, d, page.v);
    if rc != Ok then (m1, rc) else (Fill(m1, m.free[0], page.content), Ok)
  }

  ghost function LoadPages(m: Mem, d: int, pages: seq<Loaded>): (Mem, Rc)
    decreases |pages|
  {
    if pages == [] then (m, Ok)
    else
      var (m1, rc) := LoadPage(m, d, pages[0]);
      if rc != Ok then (m1, rc) else LoadPages(m1, d, pages[1..])
  }

  // load_icode: the segments, then a page for the stack, which is not cleared
  ghost function LoadIcode(m: Mem, d: int, pages: seq<Loaded>): (Mem, Rc) {
    var (m1, rc) := LoadPages(m, d, pages);
    if rc != Ok then (m1, rc) else RegionPage(m1, d, USTACK_PN)
  }

  // env_create
  ghost function EnvCreate(w: World, kern: Frame, pages: seq<Loaded>): World {
    if w.m.free == [] then w.(halted := true)
    else
      var d := w.m.free[0];
      var (m1, rc) := LoadIcode(SetupVm(w.m, kern).0, d, pages);
      if rc != Ok then w.(m := m1, halted := true) else w.(m := m1, procs := w.procs + [Proc(d, false, true, Idle)])
  }

  lemma LoadPermBits(p: int)
    ensures IsFlags(PERM_LOAD) && W(MkPte(p, OrP(PERM_LOAD))) && U(MkPte(p, OrP(PERM_LOAD)))
      && !C(MkPte(p, OrP(PERM_LOAD)))
    ensures Present(MkPte(p, OrP(PERM_LOAD))) && PteFrame(MkPte(p, OrP(PERM_LOAD))) == p
  {
    assert OrP(PERM_LOAD) == PERM_RW;
    PermBits(p);
  }

  // ---------------------------------------------------------------- one page

  // From m to m' page v of space d has become a page of its own; nothing else has changed but counts.
  ghost predicate PageAdded(m: Mem, m': Mem, d: int, v: int, p: int) {
    && Inv(m') && CowOk(m'.tree) && OneChange(m.tree, m'.tree, d, v, MkPte(p, OrP(PERM_LOAD)))
      && ViewsBut(m.tree, m'.tree, d, v)
    && Plain(m'.tree, p) && p !in m'.free && Exclusive(m'.tree, d, v) && |m'.tree.frames| == |m.tree.frames|
  }

  lemma RegionPageSpec(m: Mem, d: int, v: int)
    requires Inv(m) && CowOk(m.tree) && UserPage(m.tree, d, v)
    ensures var (m', rc) := RegionPage(m, d, v);
      && Inv(m') && (rc == Ok || rc == Halt) && m'.tree.dirs == m.tree.dirs
      && (rc == Ok ==> m.free != [] && PageAdded(m, m', d, v, m.free[0]))
  {
    if m.free != [] {
      var p := m.free[0];
      AllocKeeps(m);
      PinKeeps(Alloc(m), p);
      LoadPermBits(p);
      InsertSpec(Pin(Alloc(m), p), d, p, v, PERM_LOAD);
      var (m', rc) := RegionPage(m, d, v);
      if rc == Ok {
        NewPage(m, m', d, v, p);
      }
    }
  }

  lemma NewPage(m: Mem, m': Mem, d: int, v: int, p: int)
    requires Inv(m) && CowOk(m.tree) && UserPage(m.tree, d, v) && p in m.free && Plain(m'.tree, p) && p !in m'.free
    requires Inv(m') && KeepsFrames(m, m') && OneChange(m.tree, m'.tree, d, v, MkPte(p, OrP(PERM_LOAD)))
    ensures PageAdded(m, m', d, v, p)
  {
    LoadPermBits(p);
    forall d', v' | UserPage(m.tree, d', v') && Present(Xlate(m.tree, d', v'))
      ensures PteFrame(Xlate(m.tree, d', v')) != p
    {
      XlateTarget(m, d', v');
    }
    FreshMapping(m.tree, m'.tree, d, v, MkPte(p, OrP(PERM_LOAD)));
    ChangeViews(m, m', d, v, MkPte(p, OrP(PERM_LOAD)));
    assert Xlate(m'.tree, d, v) == MkPte(p, OrP(PERM_LOAD)) && UserPage(m'.tree, d, v);
    assert WExclusive(m'.tree, d, v);
  }

  // What loading a page does: the program sees the content, writable, and nobody else's view changes.
  ghost predicate PageLoaded(m: Mem, m': Mem, d: int, v: int, content: Frame) {
    && Inv(m') && CowOk(m'.tree) && m'.tree.dirs == m.tree.dirs && ViewsBut(m.tree, m'.tree, d, v)
    && View(m'.tree, d, v) == Some(Page(content, true)) && W(Xlate(m'.tree, d, v)) && !C(Xlate(m'.tree, d, v))
    && Present(Xlate(m'.tree, d, v))
    && forall d', v' {:trigger Xlate(m'.tree, d', v')} :: UserPage(m.tree, d', v') && !(d' == d && v' == v) ==>
         Xlate(m'.tree, d', v') == Xlate(m.tree, d', v')
  }

  lemma LoadPageSpec(m: Mem, d: int, page: Loaded)
    requires Inv(m) && CowOk(m.tree) && UserPage(m.tree, d, page.v) && |page.content| == NPTENTRIES
    ensures var (m', rc) := LoadPage(m, d, page);
      && Inv(m') && (rc == Ok || rc == Halt) && m'.tree.dirs == m.tree.dirs
      && (rc == Ok ==> PageLoaded(m, m', d, page.v, page.content))
  {
    RegionPageSpec(m, d, page.v);
    var (m1, rc) := RegionPage(m, d, page.v);
    if rc == Ok {
      FilledPage(m, m1, d, page.v, m.free[0], page.content);
    }
  }

  lemma FilledPage(m: Mem, m1: Mem, d: int, v: int, p: int, content: Frame)
    requires UserPage(m.tree, d, v) && PageAdded(m, m1, d, v, p) && |content| == NPTENTRIES
    ensures PageLoaded(m, Fill(m1, p, content), d, v, content)
  {
    LoadPermBits(p);
    assert UserPage(m1.tree, d, v) && Xlate(m1.tree, d, v) == MkPte(p, OrP(PERM_LOAD));
    FillViews(m1, p, content, d, v);
    var m2 := Fill(m1, p, content);
    forall d', v' | UserPage(m.tree, d', v')
      ensures Xlate(m2.tree, d', v') == Xlate(m1.tree, d', v')
      ensures !(d' == d && v' == v) ==> View(m2.tree, d', v') == View(m.tree, d', v')
    {
      assert UserPage(m1.tree, d', v');
      assert !(d' == d && v' == v) ==> View(m1.tree, d', v') == View(m.tree, d', v');
    }
  }

  // ---------------------------------------------------------------- in place

  // The page p that page_alloc gives, its reference count raised, can be inserted.
  ghost predicate Pinned(m1: Mem, d: int, v: int, p: int) {
    Inv(m1) && UserPage(m1.tree, d, v) && Plain(m1.tree, p) && p !in m1.free
  }

  lemma RegionReady(m: Mem, d: int, v: int)
    requires Inv(m) && UserPage(m.tree, d, v) && m.free != []
    ensures Pinned(Pin(Alloc(m), m.free[0]), d, v, m.free[0])
  {
    AllocKeeps(m);
    PinKeeps(Alloc(m), m.free[0]);
  }

  // ++pp_ref
  method PinPage(k: PhysMem, p: int)
    requires 0 <= p < k.pages.Length
    modifies k, k.pages
    ensures k.State() == Pin(old(k.State()), p) && k.dirs == old(k.dirs)
  {
    k.BumpRef(p, 1);
    k.pins := Upd(k.pins, p, At(k.pins, p) + 1);
  }

  method InsertPage(k: PhysMem, d: int, v: int, p: int) returns (rc: Rc)
    requires k.pages.Length == k.frames.Length && Pinned(k.State(), d, v, p)
    modifies k, k.pages, k.frames
    ensures k.Valid() && k.dirs == old(k.dirs)
    ensures
      var (m1, rc1) := Insert(old(k.State()), d, p, v, PERM_LOAD);
      k.State() == m1 && rc == if rc1 == Ok then Ok else Halt
  {
    LoadPermBits(p);
    InsertSpec(k.State(), d, p, v, PERM_LOAD);
    rc := k.PageInsert(d, p, v, PERM_LOAD);
    rc := if rc == Ok then Ok else Halt;
  }

  /** One turn of region_alloc; p is the page it maps. */
  method RegionAllocPage(k: PhysMem, d: int, v: int) returns (p: int, rc: Rc)
    requires k.Valid() && UserPage(k.State().tree, d, v)
    modifies k, k.pages, k.frames
    ensures k.Valid() && k.dirs == old(k.dirs) && (k.State(), rc) == RegionPage(old(k.State()), d, v)
    ensures rc == Ok ==> old(k.State()).free != [] && p == old(k.State()).free[0]
  {
    ghost var m := k.State();
    p := k.PageAlloc(false);
    if p == NIL {
      return p, Halt;
    }
    RegionReady(m, d, v);
    PinPage(k, p);
    rc := InsertPage(k, d, v, p);
  }

  // ... and the program's content, stored through the new mapping
  method LoadOne(k: PhysMem, d: int, page: Loaded) returns (rc: Rc)
    requires k.Valid() && CowOk(k.State().tree) && UserPage(k.State().tree, d, page.v) && |page.content| == NPTENTRIES
    modifies k, k.pages, k.frames
    ensures k.Valid() && k.dirs == old(k.dirs) && (k.State(), rc) == LoadPage(old(k.State()), d, page)
    ensures rc == Ok ==> CowOk(k.State().tree)
  {
    LoadPageSpec(k.State(), d, page);
    var p: int;
    p, rc := RegionAllocPage(k, d, page.v);
    if rc == Ok {
      StoreFrame(k, p, page.content);
    }
  }

  method StoreFrame(k: PhysMem, p: int, content: Frame)
    modifies k.frames
    requires 0 <= p < k.frames.Length
    ensures k.State() == Fill(old(k.State()), p, content)
  {
    k.frames[p] := content;
    assert k.frames[..] == Upd(old(k.frames[..]), p, content);
  }

  // load_icode, which comes to `all`, still has the pages from i on to load in m.
  ghost predicate LoadSoFar(all: (Mem, Rc), m: Mem, d: int, pages: seq<Loaded>, i: int) {
    0 <= i <= |pages| && LoadPages(m, d, pages[i..]) == all
  }

  lemma LoadTurn(all: (Mem, Rc), m: Mem, d: int, pages: seq<Loaded>, i: int, m1: Mem, rc: Rc)
    requires LoadSoFar(all, m, d, pages, i) && i < |pages| && LoadPage(m, d, pages[i]) == (m1, rc)
    ensures if rc == Ok then LoadSoFar(all, m1, d, pages, i + 1) else all == (m1, rc)
  {
    assert pages[i..][0] == pages[i] && pages[i..][1..] == pages[i + 1..];
  }

  lemma LoadEnds(m0: Mem, all: (Mem, Rc), m: Mem, d: int, pages: seq<Loaded>)
    ensures LoadSoFar(LoadPages(m0, d, pages), m0, d, pages, 0)
    ensures LoadSoFar(all, m, d, pages, |pages|) ==> all == (m, Ok)
  {
    assert pages[0..] == pages && pages[|pages|..] == [];
  }

  method LoadNext(k: PhysMem, d: int, pages: seq<Loaded>, i: int, ghost all: (Mem, Rc)) returns (rc: Rc)
    requires k.Valid() && CowOk(k.State().tree) && d in k.dirs && LoadSoFar(all, k.State(), d, pages, i) && i < |pages|
    requires PnOk(pages[i].v) && |pages[i].content| == NPTENTRIES
    modifies k, k.pages, k.frames
    ensures k.Valid() && k.dirs == old(k.dirs)
    ensures if rc == Ok then CowOk(k.State().tree) && LoadSoFar(all, k.State(), d, pages, i + 1)
      else all == (k.State(), rc)
  {
    ghost var m := k.State();
    rc := LoadOne(k, d, pages[i]);
    LoadTurn(all, m, d, pages, i, k.State(), rc);
  }

  /** load_icode's loop over the segments, page by page */
  method LoadProgram(k: PhysMem, d: int, pages: seq<Loaded>, last: int) returns (rc: Rc)
    requires k.Valid() && CowOk(k.State().tree) && d in k.dirs && PagesOk(pages, last) && last <= USTACK_PN
    modifies k, k.pages, k.frames
    ensures k.Valid() && k.dirs == old(k.dirs) && (k.State(), rc) == LoadPages(old(k.State()), d, pages)
  {
    ghost var m0, all := k.State(), LoadPages(k.State(), d, pages);
    LoadEnds(m0, all, m0, d, pages);
    for i := 0 to |pages|
      invariant k.Valid() && k.dirs == old(k.dirs) && CowOk(k.State().tree) && LoadSoFar(all, k.State(), d, pages, i)
    {
      assert UTEXT_PN <= pages[i].v < last;
      rc := LoadNext(k, d, pages, i, all);
      if rc != Ok {
        return;
      }
    }
    LoadEnds(m0, all, k.State(), d, pages);
    return Ok;
  }

  /** load_icode: the segments, then the stack */
  method LoadBinary(k: PhysMem, d: int, pages: seq<Loaded>, last: int) returns (rc: Rc)
    requires k.Valid() && CowOk(k.State().tree) && d in k.dirs && PagesOk(pages, last) && last <= USTACK_PN
    modifies k, k.pages, k.frames
    ensures k.Valid() && (k.State(), rc) == LoadIcode(old(k.State()), d, pages)
  {
    rc := LoadProgram(k, d, pages, last);
    if rc == Ok {
      var p: int;
      p, rc := RegionAllocPage(k, d, USTACK_PN);
    }
  }

  // ---------------------------------------------------------------- the whole program

  // The content of the program's pages; where two segments share a page the later one counts.
  function ImageOf(pages: seq<Loaded>): map<int, Frame> {
    if pages == [] then map[] else map[pages[0].v := pages[0].content] + ImageOf(pages[1..])
  }

  ghost predicate WritablePage(t: Tree, d: int, v: int, content: Frame) {
    && Present(Xlate(t, d, v)) && W(Xlate(t, d, v)) && !C(Xlate(t, d, v)) && View(t, d, v) == Some(Page(content, true))
  }

  // From m to m' the pages in image have been loaded into space d, and nothing else has changed.
  ghost predicate ImageLoaded(m: Mem, m': Mem, d: int, image: map<int, Frame>) {
    && Inv(m') && CowOk(m'.tree) && m'.tree.dirs == m.tree.dirs
    && (forall v {:trigger WritablePage(m'.tree, d, v, image[v])} :: v in image ==>
      WritablePage(m'.tree, d, v, image[v]))
    && (forall d', v {:trigger Xlate(m'.tree, d', v)} :: UserPage(m.tree, d', v) && !(d' == d && v in image) ==>
          Xlate(m'.tree, d', v) == Xlate(m.tree, d', v))
    && (forall d', v {:trigger View(m'.tree, d', v)} :: UserPage(m.tree, d', v) && !(d' == d && v in image) ==>
          View(m'.tree, d', v) == View(m.tree, d', v))
  }

  lemma LoadedThen(m: Mem, m1: Mem, m2: Mem, d: int, v: int, content: Frame, image: map<int, Frame>)
    requires UserPage(m.tree, d, v) && PageLoaded(m, m1, d, v, content) && ImageLoaded(m1, m2, d, image)
    ensures ImageLoaded(m, m2, d, map[v := content] + image)
  {
    var all := map[v := content] + image;
    forall u | u in all ensures WritablePage(m2.tree, d, u, all[u]) {
      if u in image {
        assert WritablePage(m2.tree, d, u, image[u]);
      } else {
        assert UserPage(m1.tree, d, v);
        assert Xlate(m2.tree, d, v) == Xlate(m1.tree, d, v) && View(m2.tree, d, v) == View(m1.tree, d, v);
      }
    }
    forall d', u | UserPage(m.tree, d', u) && !(d' == d && u in all)
      ensures Xlate(m2.tree, d', u) == Xlate(m.tree, d', u) && View(m2.tree, d', u) == View(m.tree, d', u)
    {
      assert UserPage(m1.tree, d', u);
      assert Xlate(m1.tree, d', u) == Xlate(m.tree, d', u) && View(m1.tree, d', u) == View(m.tree, d', u);
    }
  }

  lemma {:induction false} LoadPagesSpec(m: Mem, d: int, pages: seq<Loaded>, last: int)
    requires Inv(m) && CowOk(m.tree) && d in m.tree.dirs && PagesOk(pages, last) && last <= USTACK_PN
    ensures var (m', rc) := LoadPages(m, d, pages);
      && Inv(m') && (rc == Ok || rc == Halt) && m'.tree.dirs == m.tree.dirs
      && (rc == Ok ==> ImageLoaded(m, m', d, ImageOf(pages)))
    decreases |pages|
  {
    if pages != [] {
      assert UTEXT_PN <= pages[0].v < last;
      LoadPageSpec(m, d, pages[0]);
      var (m1, rc) := LoadPage(m, d, pages[0]);
      if rc == Ok {
        LoadPagesSpec(m1, d, pages[1..], last);
        var (m2, rc2) := LoadPages(m1, d, pages[1..]);
        if rc2 == Ok {
          LoadedThen(m, m1, m2, d, pages[0].v, pages[0].content, ImageOf(pages[1..]));
        }
      }
    }
  }

  lemma {:induction false} ImageRange(pages: seq<Loaded>, last: int)
    requires PagesOk(pages, last)
    ensures forall v :: v in ImageOf(pages) ==> UTEXT_PN <= v < last
  {
    if pages != [] {
      ImageRange(pages[1..], last);
    }
  }

  // The program's pages and its stack, which holds whatever its frame holds
  ghost function WithStack(pages: seq<Loaded>, t: Tree, d: int): map<int, Frame> {
    ImageOf(pages)[USTACK_PN := Content(t, PteFrame(Xlate(t, d, USTACK_PN)))]
  }

  lemma StackLoaded(m: Mem, m1: Mem, m2: Mem, d: int, image: map<int, Frame>, p: int, last: int)
    requires d in m.tree.dirs && ImageLoaded(m, m1, d, image) && PageAdded(m1, m2, d, USTACK_PN, p)
    requires forall v :: v in image ==> UTEXT_PN <= v < last <= USTACK_PN
    ensures ImageLoaded(m, m2, d, image[USTACK_PN := Content(m2.tree, p)])
      && PteFrame(Xlate(m2.tree, d, USTACK_PN)) == p
  {
    var all := image[USTACK_PN := Content(m2.tree, p)];
    LoadPermBits(p);
    assert UserPage(m1.tree, d, USTACK_PN) && Xlate(m2.tree, d, USTACK_PN) == MkPte(p, OrP(PERM_LOAD));
    forall v | v in all ensures WritablePage(m2.tree, d, v, all[v]) {
      if v != USTACK_PN {
        assert WritablePage(m1.tree, d, v, image[v]) && UserPage(m1.tree, d, v);
        assert Xlate(m2.tree, d, v) == Xlate(m1.tree, d, v) && View(m2.tree, d, v) == View(m1.tree, d, v);
      }
    }
    forall d', v | UserPage(m.tree, d', v) && !(d' == d && v in all)
      ensures Xlate(m2.tree, d', v) == Xlate(m.tree, d', v) && View(m2.tree, d', v) == View(m.tree, d', v)
    {
      assert UserPage(m1.tree, d', v);
      assert Xlate(m1.tree, d', v) == Xlate(m.tree, d', v) && View(m1.tree, d', v) == View(m.tree, d', v);
    }
  }

  lemma LoadIcodeSpec(m: Mem, d: int, pages: seq<Loaded>, last: int)
    requires Inv(m) && CowOk(m.tree) && d in m.tree.dirs && PagesOk(pages, last) && last <= USTACK_PN
    ensures var (m', rc) := LoadIcode(m, d, pages);
      && Inv(m') && m'.tree.dirs == m.tree.dirs
      && (rc == Ok ==> ImageLoaded(m, m', d, WithStack(pages, m'.tree, d)))
  {
    LoadPagesSpec(m, d, pages, last);
    var (m1, rc) := LoadPages(m, d, pages);
    if rc == Ok {
      RegionPageSpec(m1, d, USTACK_PN);
      var (m2, rc2) := RegionPage(m1, d, USTACK_PN);
      if rc2 == Ok {
        ImageRange(pages, last);
        StackLoaded(m, m1, m2, d, ImageOf(pages), m1.free[0], last);
      }
    }
  }

  // ---------------------------------------------------------------- a new environment

  // A program's pages as the program sees them
  function Program(image: map<int, Frame>): Space {
    map v | v in image :: Page(image[v], true)
  }

  lemma NewSpaceProgram(m0: Mem, m1: Mem, m2: Mem, d: int, image: map<int, Frame>, last: int)
    requires NewSpace(m0, m1, d) && ImageLoaded(m1, m2, d, image) && UTEXT_PN <= last <= USTACK_PN
    requires forall v :: v in image ==> PnOk(v) && Image(v, last)
    ensures AbsSpace(m2.tree, d, last) == Program(image)
    ensures Stacked(m2.tree, Proc(d, false, true, Idle))
  {
    forall v | PnOk(v)
      ensures v in image ==> View(m2.tree, d, v) == Some(Page(image[v], true)) && !C(Xlate(m2.tree, d, v))
      ensures v !in image ==> View(m2.tree, d, v) == None && !Present(Xlate(m2.tree, d, v))
    {
      if v in image {
        assert WritablePage(m2.tree, d, v, image[v]);
      } else {
        assert UserPage(m1.tree, d, v);
        assert Xlate(m2.tree, d, v) == Xlate(m1.tree, d, v) == 0;
      }
    }
  }

  lemma ProgramForkable(m1: Mem, m2: Mem, d: int, image: map<int, Frame>, last: int)
    requires d in m1.tree.dirs && ImageLoaded(m1, m2, d, image) && UTEXT_PN <= last <= USTACK_PN && USTACK_PN in image
    requires forall v {:trigger Xlate(m1.tree, d, v)} :: PnOk(v) ==> Xlate(m1.tree, d, v) == 0
    ensures Forkable(m2.tree, d, last)
  {
    assert WritablePage(m2.tree, d, USTACK_PN, image[USTACK_PN]);
    forall v | UTEXT_PN <= v < last ensures Passable(m2.tree, d, v) {
      assert UserPage(m1.tree, d, v);
      if v in image {
        assert WritablePage(m2.tree, d, v, image[v]);
      } else {
        assert Xlate(m2.tree, d, v) == Xlate(m1.tree, d, v);
      }
    }
  }

  // The environments there were are as before.
  lemma CreateKeeps(w: World, m1: Mem, m2: Mem, d: int, image: map<int, Frame>, last: int)
    requires WorldOk(w, last) && !w.halted && UTEXT_PN <= last <= USTACK_PN && NewSpace(w.m, m1, d)
    requires ImageLoaded(m1, m2, d, image) && Stacked(m2.tree, Proc(d, false, true, Idle))
    requires forall d', v {:trigger View(m1.tree, d', v)} :: UserPage(w.m.tree, d', v) ==>
      View(m1.tree, d', v) == View(w.m.tree, d', v)
    ensures var w' := w.(m := m2, procs := w.procs + [Proc(d, false, true, Idle)]);
      WorldOk(w', last) && Abs(w', last) == Abs(w, last) + [AbsSpace(m2.tree, d, last)]
  {
    var procs' := w.procs + [Proc(d, false, true, Idle)];
    var w' := w.(m := m2, procs := procs');
    CreateOnly(w.m, m1, m2, d, image);
    forall f | 0 <= f < |w.procs| ensures ProcOk(m2.tree, procs', f, last) {
      assert ProcOk(w.m.tree, w.procs, f, last);
      OtherProc(w.m.tree, m2.tree, w.procs, procs', f, d, d, last);
    }
    forall f, g | 0 <= f < |procs'| && 0 <= g < |procs'| && f != g ensures ForksApart(procs'[f], procs'[g]) {
      if f < |w.procs| && g < |w.procs| {
        assert ForksApart(w.procs[f], w.procs[g]);
      } else if f < |w.procs| {
        assert ProcOk(w.m.tree, w.procs, f, last);
      }
    }
    SameAbs(w, w', last);
    assert Abs(w', last) == Abs(w', last)[..|w.procs|] + [Abs(w', last)[|w.procs|]];
  }

  lemma CreateOnly(m0: Mem, m1: Mem, m2: Mem, d: int, image: map<int, Frame>)
    requires NewSpace(m0, m1, d) && ImageLoaded(m1, m2, d, image)
    requires forall d', v {:trigger View(m1.tree, d', v)} :: UserPage(m0.tree, d', v) ==>
      View(m1.tree, d', v) == View(m0.tree, d', v)
    ensures OnlySpaces(m0.tree, m2.tree, d, d)
    ensures forall d', v {:trigger View(m2.tree, d', v)} :: UserPage(m0.tree, d', v) ==>
      View(m2.tree, d', v) == View(m0.tree, d', v)
  {
    forall d', v | UserPage(m0.tree, d', v)
      ensures Xlate(m2.tree, d', v) == Xlate(m0.tree, d', v) && View(m2.tree, d', v) == View(m0.tree, d', v)
    {
      assert UserPage(m1.tree, d', v);
      assert Xlate(m1.tree, d', v) == Xlate(m0.tree, d', v) && View(m1.tree, d', v) == View(m0.tree, d', v);
    }
  }

  /** env_create: the new environment sees its program, and the others what they saw; fork can pass on
      all its pages. */
  lemma CreateSpec(w: World, kern: Frame, pages: seq<Loaded>, last: int)
    requires WorldOk(w, last) && !w.halted && UTEXT_PN <= last <= USTACK_PN && PagesOk(pages, last)
    ensures var w', e := EnvCreate(w, kern, pages), |w.procs|;
      && WorldOk(w', last)
      && (!w'.halted ==>
            && |w'.procs| == e + 1 && w'.procs[e].started && w'.procs[e].fork == Idle
              && Forkable(w'.m.tree, w'.procs[e].dir, last)
            && Abs(w', last) == Abs(w, last) + [Program(WithStack(pages, w'.m.tree, w'.procs[e].dir))])
  {
    if w.m.free != [] {
      var d, m1 := w.m.free[0], SetupVm(w.m, kern).0;
      SetupNewSpace(w.m, kern);
      NewSpaceCowOk(w.m.tree, m1.tree, d);
      NewSpaceViews(w.m, m1, d);
      LoadIcodeSpec(m1, d, pages, last);
      var (m2, rc) := LoadIcode(m1, d, pages);
      if rc == Ok {
        var image := WithStack(pages, m2.tree, d);
        ImageRange(pages, last);
        NewSpaceProgram(w.m, m1, m2, d, image, last);
        ProgramForkable(m1, m2, d, image, last);
        CreateKeeps(w, m1, m2, d, image, last);
        assert Abs(EnvCreate(w, kern, pages), last) == Abs(w, last) + [Program(image)];
      }
    }
  }

  /** The kernel starts without environments. */
  lemma FirstWorld(m: Mem, last: int)
    requires Inv(m) && m.tree.dirs == {}
    ensures WorldOk(World(m, [], false), last) && Abs(World(m, [], false), last) == []
  {
    forall d, v ensures !UserPage(m.tree, d, v) {
    }
  }

  // ---------------------------------------------------------------- room for a fork

  // Pages that space d maps have the pin of region_alloc and one mapping.
  ghost predicate LowCounts(m: Mem, d: int) {
    forall v {:trigger Xlate(m.tree, d, v)} :: PnOk(v) && Present(Xlate(m.tree, d, v)) ==>
      Info(m, PteFrame(Xlate(m.tree, d, v))).refs <= 2
  }

  lemma RegionPageRoom(m: Mem, d: int, v: int)
    requires Inv(m) && CowOk(m.tree) && UserPage(m.tree, d, v) && LowCounts(m, d) && |m.free| >= 2
    ensures var (m', rc) := RegionPage(m, d, v); rc == Ok && |m'.free| >= |m.free| - 2 && LowCounts(m', d)
  {
    var p := m.free[0];
    AllocKeeps(m);
    PinKeeps(Alloc(m), p);
    LoadPermBits(p);
    InsertFree(Pin(Alloc(m), p), d, p, v, PERM_LOAD);
    RegionPageSpec(m, d, v);
    PinnedCount(m, d, p, v);
    var m' := RegionPage(m, d, v).0;
    forall u | PnOk(u) && Present(Xlate(m'.tree, d, u)) ensures Info(m', PteFrame(Xlate(m'.tree, d, u))).refs <= 2 {
      RegionCount(m, m', d, v, p, u);
    }
  }

  lemma PinnedCount(m: Mem, d: int, p: int, v: int)
    requires Inv(m) && UserPage(m.tree, d, v) && |m.free| >= 2 && p == m.free[0]
    ensures Insert(Pin(Alloc(m), p), d, p, v, PERM_LOAD).1 == Ok
    ensures var m1 := Pin(Alloc(m), p); Info(m1, p).refs == 1
    ensures forall i :: 0 <= i < |m.pages| && i != p ==> Info(Pin(Alloc(m), p), i).refs == Info(m, i).refs
  {
    AllocKeeps(m);
    PinKeeps(Alloc(m), p);
    WalkSpec(Pin(Alloc(m), p), d, v);
  }

  lemma RegionCount(m: Mem, m': Mem, d: int, v: int, p: int, u: int)
    requires Inv(m) && UserPage(m.tree, d, v) && LowCounts(m, d) && |m.free| >= 2 && p == m.free[0] && PnOk(u)
    requires (m', Ok) == RegionPage(m, d, v) && PageAdded(m, m', d, v, p) && Present(Xlate(m'.tree, d, u))
    ensures Info(m', PteFrame(Xlate(m'.tree, d, u))).refs <= 2
  {
    AllocKeeps(m);
    PinKeeps(Alloc(m), p);
    PinnedCount(m, d, p, v);
    LoadPermBits(p);
    var m1, i := Pin(Alloc(m), p), PteFrame(Xlate(m'.tree, d, u));
    assert UserPage(m.tree, d, u);
    if u != v {
      assert Xlate(m'.tree, d, u) == Xlate(m.tree, d, u);
      XlateTarget(m, d, u);
    }
    InsertCount(m1, d, p, v, PERM_LOAD, i);
  }

  lemma LoadPageRoom(m: Mem, d: int, page: Loaded)
    requires Inv(m) && CowOk(m.tree) && UserPage(m.tree, d, page.v) && |page.content| == NPTENTRIES && LowCounts(m, d)
      && |m.free| >= 2
    ensures var (m', rc) := LoadPage(m, d, page); rc == Ok && |m'.free| >= |m.free| - 2 && LowCounts(m', d)
  {
    RegionPageRoom(m, d, page.v);
    RegionPageSpec(m, d, page.v);
    var m1, p := RegionPage(m, d, page.v).0, m.free[0];
    FillXlate(m1, p, page.content);
    var m2 := Fill(m1, p, page.content);
    forall v | PnOk(v) && Present(Xlate(m2.tree, d, v)) ensures Info(m2, PteFrame(Xlate(m2.tree, d, v))).refs <= 2 {
      assert UserPage(m1.tree, d, v);
      assert Xlate(m2.tree, d, v) == Xlate(m1.tree, d, v);
    }
  }

  lemma {:induction false} LoadPagesRoom(m: Mem, d: int, pages: seq<Loaded>, last: int)
    requires Inv(m) && CowOk(m.tree) && d in m.tree.dirs && PagesOk(pages, last) && last <= USTACK_PN && LowCounts(m, d)
    requires |m.free| >= 2 * |pages|
    ensures var (m', rc) := LoadPages(m, d, pages); rc == Ok && |m'.free| >= |m.free| - 2 * |pages| && LowCounts(m', d)
    decreases |pages|
  {
    if pages != [] {
      assert UTEXT_PN <= pages[0].v < last;
      LoadPageSpec(m, d, pages[0]);
      LoadPageRoom(m, d, pages[0]);
      LoadPagesRoom(LoadPage(m, d, pages[0]).0, d, pages[1..], last);
    }
  }

  // A page of one's own has slack.
  lemma LowCountsSlack(m: Mem, d: int, last: int)
    requires Inv(m) && CowOk(m.tree) && d in m.tree.dirs && LowCounts(m, d)
    requires forall v {:trigger Xlate(m.tree, d, v)} :: PnOk(v) && Present(Xlate(m.tree, d, v)) ==>
      W(Xlate(m.tree, d, v))
    ensures Slack(m, d, UTEXT_PN, last)
  {
    forall i ensures CountFits(m, d, UTEXT_PN, last, i) {
      LowCountFits(m, d, last, i);
    }
  }

  lemma LowCountFits(m: Mem, d: int, last: int, i: int)
    requires CowOk(m.tree) && d in m.tree.dirs && LowCounts(m, d)
    requires forall v {:trigger Xlate(m.tree, d, v)} :: PnOk(v) && Present(Xlate(m.tree, d, v)) ==>
      W(Xlate(m.tree, d, v))
    ensures CountFits(m, d, UTEXT_PN, last, i)
  {
    var pages := Pending(m.tree, d, UTEXT_PN, last, i);
    if v :| v in pages {
      assert UserPage(m.tree, d, v) && WExclusive(m.tree, d, v);
      forall u | u in pages ensures u == v {
        assert UserPage(m.tree, d, u);
        assert Xlate(m.tree, d, u) == Xlate(m.tree, d, u);
      }
      assert pages == {v};
    }
  }

  /** env_create succeeds when there is memory, and its environment can fork. */
  lemma CreateRoom(w: World, kern: Frame, pages: seq<Loaded>, last: int)
    requires WorldOk(w, last) && !w.halted && UTEXT_PN <= last <= USTACK_PN && PagesOk(pages, last)
    requires |w.m.free| >= 2 * |pages| + 3
    ensures var w', e := EnvCreate(w, kern, pages), |w.procs|;
      && !w'.halted && |w'.procs| == e + 1 && Slack(w'.m, w'.procs[e].dir, UTEXT_PN, last)
      && |w'.m.free| >= |w.m.free| - 2 * |pages| - 3
  {
    var d, m1 := w.m.free[0], SetupVm(w.m, kern).0;
    SetupNewSpace(w.m, kern);
    NewSpaceCowOk(w.m.tree, m1.tree, d);
    SetupSpec(w.m, kern);
    LoadPagesRoom(m1, d, pages, last);
    LoadPagesSpec(m1, d, pages, last);
    var m2 := LoadPages(m1, d, pages).0;
    RegionPageRoom(m2, d, USTACK_PN);
    LoadIcodeSpec(m1, d, pages, last);
    var m3 := RegionPage(m2, d, USTACK_PN).0;
    OwnPages(m1, m3, d, WithStack(pages, m3.tree, d));
    LowCountsSlack(m3, d, last);
  }

  lemma OwnPages(m1: Mem, m3: Mem, d: int, image: map<int, Frame>)
    requires d in m1.tree.dirs && ImageLoaded(m1, m3, d, image)
    requires forall v {:trigger Xlate(m1.tree, d, v)} :: PnOk(v) ==> Xlate(m1.tree, d, v) == 0
    ensures forall v {:trigger Xlate(m3.tree, d, v)} :: PnOk(v) && Present(Xlate(m3.tree, d, v)) ==>
      W(Xlate(m3.tree, d, v))
  {
    forall v | PnOk(v) && Present(Xlate(m3.tree, d, v)) ensures W(Xlate(m3.tree, d, v)) {
      assert UserPage(m1.tree, d, v);
      if v in image {
        assert WritablePage(m3.tree, d, v, image[v]);
      }
    }
  }

  // One environment alone, which can fork
  ghost predicate FirstCanFork(w: World, d: int, p: Space, last: int) {
    && Acting(w, 0, last) && w.procs == [Proc(d, false, true, Idle)] && Forkable(w.m.tree, d, last)
    && Slack(w.m, d, UTEXT_PN, last) && |w.m.free| >= ForkPages(false, last) && Abs(w, last) == [p]
  }

  lemma ForkTwo(ws: seq<World>, d: int, p: Space, kern: Frame, last: int)
    requires UTEXT_PN <= last && |ws| == ForkSteps(last) + 1 && ByItself(ws, 0, kern, last)
      && FirstCanFork(ws[0], d, p, last)
    ensures var w' := ws[ForkSteps(last)]; WorldOk(w', last) && !w'.halted && Abs(w', last) == [p, p]
  {
    ForkGoesThrough(ws, 0, kern, last);
  }

  // The first program is loaded.
  ghost predicate Booted(m: Mem, kern: Frame, pages: seq<Loaded>, w: World) {
    w == EnvCreate(World(m, [], false), kern, pages)
  }

  lemma BootedSpec(m: Mem, kern: Frame, pages: seq<Loaded>, w: World, last: int)
    requires Inv(m) && m.tree.dirs == {} && UTEXT_PN <= last <= USTACK_PN && PagesOk(pages, last)
    requires |m.free| >= 2 * |pages| + 3 + ForkPages(false, last) && Booted(m, kern, pages, w)
    ensures FirstCanFork(w, m.free[0], Program(WithStack(pages, w.m.tree, m.free[0])), last)
  {
    FirstWorld(m, last);
    CreateSpec(World(m, [], false), kern, pages, last);
    CreateRoom(World(m, [], false), kern, pages, last);
  }

  /** From start-up: with memory enough, a program is loaded into the first environment, fork() goes
      through, and then there are two environments that see the program's pages. */
  lemma FirstFork(m: Mem, kern: Frame, pages: seq<Loaded>, ws: seq<World>, last: int)
    requires Inv(m) && m.tree.dirs == {} && UTEXT_PN <= last <= USTACK_PN && PagesOk(pages, last)
    requires |m.free| >= 2 * |pages| + 3 + ForkPages(false, last)
    requires |ws| == ForkSteps(last) + 1 && ByItself(ws, 0, kern, last) && Booted(m, kern, pages, ws[0])
    ensures var w', p := ws[ForkSteps(last)], Program(WithStack(pages, ws[0].m.tree, m.free[0]));
      WorldOk(w', last) && !w'.halted && Abs(w', last) == [p, p]
  {
    BootedSpec(m, kern, pages, ws[0], last);
    ForkTwo(ws, m.free[0], Program(WithStack(pages, ws[0].m.tree, m.free[0])), kern, last);
  }
}
