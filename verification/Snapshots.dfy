/** sys_env_snapshot and sys_env_resume: saving an address space into held pages and rolling the
    environment back to it. */
module Snapshots {
  import opened Mmu
  import opened Phys
  import opened Vm
  import opened Syscalls
  import opened EnvVm
  import opened Held

  datatype SavedPage = SavedPage(v: int, perm: int, p: int)

  // The part of a trap frame that a snapshot keeps, and the rest of it
  datatype TrapFrame = TrapFrame(regs: seq<int>, eip: int, esp: int, eflags: int, rest: seq<int>)

  datatype Snapshot = Snapshot(pages: seq<SavedPage>, regs: seq<int>, eip: int, esp: int, eflags: int)

  // ---------------------------------------------------------------- sys_env_snapshot

  // The loop over [UTEXT, UTOP), from page v.  page_lookup does not test PTE_P, so every page that
  // a page table covers is saved: an absent one with permissions 0 and the content of frame 0.
  // None: page_alloc failed.
  ghost function SaveFrom(m: Mem, d: int, v: int): (Mem, seq<SavedPage>, bool)
    decreases UTOP_PN - v
  {
    if v >= UTOP_PN then (m, [], true)
    else if !HasTable(m.tree, d, v) then SaveFrom(m, d, v + 1)
    else if m.free == [] then (m, [], false)
    else
      var (m2, rest, ok) := SaveFrom(SaveOne(m, d, v), d, v + 1);
      (m2, [SavedPage(v, PteFlags(Xlate(m.tree, d, v)), m.free[0])] + rest, ok)
  }

  // Allocating a page and copying the page behind v into it
  ghost function SaveOne(m: Mem, d: int, v: int): Mem
    requires m.free != []
  {
    Fill(Alloc(m), m.free[0], Content(m.tree, PteFrame(Xlate(m.tree, d, v))))
  }

  ghost function TakeSnapshot(m: Mem, d: int, tf: TrapFrame): (Mem, Snapshot, bool) {
    var (m1, saved, ok) := SaveFrom(m, d, UTEXT_PN);
    (m1, Snapshot(saved, tf.regs, tf.eip, tf.esp, tf.eflags), ok)
  }

  // ---------------------------------------------------------------- sys_env_resume

  // First loop: a fresh copy of every saved page
  ghost function CopyAll(m: Mem, saved: seq<SavedPage>): (Mem, seq<int>, bool)
    decreases |saved|
  {
    if saved == [] then (m, [], true)
    else if m.free == [] then (m, [], false)
    else
      var (m2, rest, ok) := CopyAll(Fill(Alloc(m), m.free[0], Content(m.tree, saved[0].p)), saved[1..]);
      (m2, [m.free[0]] + rest, ok)
  }

  // Second loop: page_insert of the copies
  ghost function InsertAll(m: Mem, d: int, saved: seq<SavedPage>, copies: seq<int>): (Mem, Rc)
    requires |saved| == |copies|
    decreases |saved|
  {
    if saved == [] then (m, Ok)
    else
      var (m1, rc) := Insert(m, d, copies[0], saved[0].v, saved[0].perm);
      if rc != Ok then (m1, rc) else InsertAll(m1, d, saved[1..], copies[1..])
  }

  // The two loops with env_flush_addr_space between them.  NoMem stands for every failure.
  ghost function Resume(m: Mem, d: int, s: Snapshot, tf: TrapFrame): (Mem, TrapFrame, Rc) {
    var (m1, copies, ok) := CopyAll(m, s.pages);
    if !ok || |copies| != |s.pages| then (m1, tf, NoMem)
    else
      var (m2, rc) := InsertAll(FlushFrom(m1, d, 0), d, s.pages, copies);
      (m2, tf.(regs := s.regs, eip := s.eip, esp := s.esp, eflags := s.eflags), rc)
  }

  // ---------------------------------------------------------------- what a snapshot is

  // The pages of d from v on that a page table covers, in order
  ghost function Covered(t: Tree, d: int, v: int): seq<int>
    decreases UTOP_PN - v
  {
    if v >= UTOP_PN then []
    else if HasTable(t, d, v) then [v] + Covered(t, d, v + 1)
    else Covered(t, d, v + 1)
  }

  lemma {:induction false} CoveredSpec(t: Tree, d: int, v: int)
    ensures forall j :: 0 <= j < |Covered(t, d, v)| ==>
      v <= Covered(t, d, v)[j] < UTOP_PN && HasTable(t, d, Covered(t, d, v)[j])
    ensures forall u :: v <= u < UTOP_PN && HasTable(t, d, u) ==> u in Covered(t, d, v)
    ensures forall j, l :: 0 <= j < l < |Covered(t, d, v)| ==> Covered(t, d, v)[j] < Covered(t, d, v)[l]
    decreases UTOP_PN - v
  {
    if v < UTOP_PN {
      CoveredSpec(t, d, v + 1);
    }
  }

  // saved records, in held pages of m, the pages of d in t from v on.
  ghost predicate Records(m: Mem, t: Tree, d: int, v: int, saved: seq<SavedPage>) {
    && |saved| == |Covered(t, d, v)|
    && (forall j :: 0 <= j < |saved| ==> RecordOk(m, t, d, saved[j], Covered(t, d, v)[j]))
    && (forall j, l :: 0 <= j < l < |saved| ==> saved[j].p != saved[l].p)
  }

  ghost predicate RecordOk(m: Mem, t: Tree, d: int, s: SavedPage, v: int) {
    && s.v == v && s.perm == PteFlags(Xlate(t, d, v))
    && HeldPage(m, s.p)
    && (Present(Xlate(t, d, v)) ==> Content(m.tree, s.p) == Content(t, PteFrame(Xlate(t, d, v))))
  }

  // The pages in keep that are held are still held, with the same content.
  ghost predicate KeepsHeldIn(m: Mem, m': Mem, keep: set<int>) {
    forall i {:trigger Content(m'.tree, i)} {:trigger HeldPage(m', i)} :: i in keep && HeldPage(m, i) ==>
      HeldPage(m', i) && Content(m'.tree, i) == Content(m.tree, i)
  }

  // The pages that hold a snapshot
  function SavedFrames(saved: seq<SavedPage>): set<int> {
    set j | 0 <= j < |saved| :: saved[j].p
  }

  /** A snapshot stays what it was as long as its own pages are left alone. */
  lemma RecordsSurvive(m: Mem, m': Mem, t: Tree, d: int, v: int, saved: seq<SavedPage>)
    requires Records(m, t, d, v, saved) && KeepsHeldIn(m, m', SavedFrames(saved))
    ensures Records(m', t, d, v, saved)
  {
    forall j | 0 <= j < |saved| ensures RecordOk(m', t, d, saved[j], Covered(t, d, v)[j]) {
      assert RecordOk(m, t, d, saved[j], Covered(t, d, v)[j]);
      assert saved[j].p in SavedFrames(saved);
    }
  }

  // d has the same page tables and translations in t' as in t, to pages with the same content.
  ghost predicate SameSpace(t: Tree, t': Tree, d: int) {
    && (forall v {:trigger HasTable(t', d, v)} {:trigger HasTable(t, d, v)} :: PnOk(v) ==>
      HasTable(t', d, v) == HasTable(t, d, v))
    && (forall v {:trigger Xlate(t', d, v)} :: PnOk(v) ==> Xlate(t', d, v) == Xlate(t, d, v))
    && (forall v {:trigger Xlate(t', d, v)} :: PnOk(v) && Present(Xlate(t, d, v)) ==>
          Content(t', PteFrame(Xlate(t, d, v))) == Content(t, PteFrame(Xlate(t, d, v))))
  }

  lemma SameSpaceTrans(t: Tree, t1: Tree, t2: Tree, d: int)
    requires SameSpace(t, t1, d) && SameSpace(t1, t2, d)
    ensures SameSpace(t, t2, d)
  {
    forall v | PnOk(v) ensures HasTable(t2, d, v) == HasTable(t, d, v) && Xlate(t2, d, v) == Xlate(t, d, v) {
      assert Xlate(t1, d, v) == Xlate(t, d, v);
      assert HasTable(t1, d, v) == HasTable(t, d, v);
    }
    forall v | PnOk(v) && Present(Xlate(t, d, v))
      ensures Content(t2, PteFrame(Xlate(t, d, v))) == Content(t, PteFrame(Xlate(t, d, v)))
    {
      assert Xlate(t1, d, v) == Xlate(t, d, v);
    }
  }

  lemma {:induction false} CoveredSame(t: Tree, t': Tree, d: int, v: int)
    requires SameSpace(t, t', d) && 0 <= v
    ensures Covered(t', d, v) == Covered(t, d, v)
    decreases UTOP_PN - v
  {
    if v < UTOP_PN {
      CoveredSame(t, t', d, v + 1);
    }
  }

  // A held page, allocated and filled
  lemma TakePage(m: Mem, content: Frame)
    requires Inv(m) && m.free != [] && |content| == NPTENTRIES
    ensures var m1, p := Fill(Alloc(m), m.free[0], content), m.free[0];
      && Inv(m1) && KeepsHeld(m, m1) && HeldPage(m1, p) && !HeldPage(m, p) && Content(m1.tree, p) == content
      && m1.tree.dirs == m.tree.dirs && m1.pins == m.pins && |m1.tree.frames| == |m.tree.frames|
      && forall d :: d in m.tree.dirs ==> SameSpace(m.tree, m1.tree, d)
  {
    AllocHeld(m);
    var p, m0 := m.free[0], Alloc(m);
    FillHeld(m0, p, content);
    FillXlate(m0, p, content);
    var m1 := Fill(m0, p, content);
    forall d | d in m.tree.dirs ensures SameSpace(m.tree, m1.tree, d) {
      assert Content(m1.tree, d) == Content(m.tree, d);
      forall v | PnOk(v) && Present(Xlate(m.tree, d, v))
        ensures Content(m1.tree, PteFrame(Xlate(m.tree, d, v))) == Content(m.tree, PteFrame(Xlate(m.tree, d, v)))
      {
        XlateTarget(m, d, v);
      }
    }
  }

  lemma FrameInRange(m: Mem, d: int, v: int)
    requires Inv(m) && UserPage(m.tree, d, v)
    ensures |Content(m.tree, PteFrame(Xlate(m.tree, d, v)))| == NPTENTRIES
  {
    XlateZeroOrPresent(m.tree, d, v);
    if Present(Xlate(m.tree, d, v)) {
      XlateTarget(m, d, v);
    }
  }

  lemma RecordsShift(m2: Mem, t: Tree, t1: Tree, d: int, v: int, saved: seq<SavedPage>)
    requires Records(m2, t1, d, v, saved) && SameSpace(t, t1, d) && 0 <= v
    ensures Records(m2, t, d, v, saved)
  {
    CoveredSame(t, t1, d, v);
    CoveredSpec(t, d, v);
    forall j | 0 <= j < |saved| ensures RecordOk(m2, t, d, saved[j], Covered(t, d, v)[j]) {
      assert RecordOk(m2, t1, d, saved[j], Covered(t1, d, v)[j]);
    }
  }

  /** sys_env_snapshot, when it succeeds: the pages of the environment are recorded in pages that
      the kernel holds for it, and nothing else changes. */
  lemma {:induction false} SaveSpec(m: Mem, d: int, v: int)
    requires Inv(m) && d in m.tree.dirs && 0 <= v
    ensures var (m2, saved, ok) := SaveFrom(m, d, v);
      && Inv(m2) && KeepsHeld(m, m2) && m2.tree.dirs == m.tree.dirs
      && (forall c :: c in m.tree.dirs ==> SameSpace(m.tree, m2.tree, c))
      && (forall j :: 0 <= j < |saved| ==> !HeldPage(m, saved[j].p))
      && (ok ==> Records(m2, m.tree, d, v, saved))
    decreases UTOP_PN - v
  {
    if v < UTOP_PN {
      if !HasTable(m.tree, d, v) {
        SaveSpec(m, d, v + 1);
      } else if m.free != [] {
        SaveCons(m, d, v);
      }
    }
  }

  lemma {:induction false} SaveCons(m: Mem, d: int, v: int)
    requires Inv(m) && UserPage(m.tree, d, v) && HasTable(m.tree, d, v) && m.free != []
    ensures var (m2, saved, ok) := SaveFrom(m, d, v);
      && Inv(m2) && KeepsHeld(m, m2) && m2.tree.dirs == m.tree.dirs
      && (forall c :: c in m.tree.dirs ==> SameSpace(m.tree, m2.tree, c))
      && (forall j :: 0 <= j < |saved| ==> !HeldPage(m, saved[j].p))
      && (ok ==> Records(m2, m.tree, d, v, saved))
    decreases UTOP_PN - v, 0
  {
    FrameInRange(m, d, v);
    TakePage(m, Content(m.tree, PteFrame(Xlate(m.tree, d, v))));
    var m1, p := SaveOne(m, d, v), m.free[0];
    SaveSpec(m1, d, v + 1);
    var (m2, rest, ok) := SaveFrom(m1, d, v + 1);
    forall c | c in m.tree.dirs ensures SameSpace(m.tree, m2.tree, c) {
      SameSpaceTrans(m.tree, m1.tree, m2.tree, c);
    }
    if ok {
      RecordsShift(m2, m.tree, m1.tree, d, v + 1, rest);
      var s := SavedPage(v, PteFlags(Xlate(m.tree, d, v)), p);
      RecordsCons(m2, m.tree, d, v, s, rest);
    }
  }

  lemma {:induction false} RecordsCons(m2: Mem, t: Tree, d: int, v: int, s: SavedPage, rest: seq<SavedPage>)
    requires PnOk(v) && HasTable(t, d, v) && Records(m2, t, d, v + 1, rest) && RecordOk(m2, t, d, s, v)
    requires forall j :: 0 <= j < |rest| ==> rest[j].p != s.p
    ensures Records(m2, t, d, v, [s] + rest)
  {
    var saved := [s] + rest;
    forall j | 0 <= j < |saved| ensures RecordOk(m2, t, d, saved[j], Covered(t, d, v)[j]) {
      if j > 0 {
        assert RecordOk(m2, t, d, rest[j - 1], Covered(t, d, v + 1)[j - 1]);
      }
    }
  }

  // ---------------------------------------------------------------- resume

  // copies are held pages of m2, new since m, with what m holds in the pages of saved.
  ghost predicate CopiesOf(m: Mem, m2: Mem, saved: seq<SavedPage>, copies: seq<int>) {
    && |copies| == |saved|
    && (forall j :: 0 <= j < |copies| ==> (HeldPage(m2, copies[j]) && !HeldPage(m, copies[j])
      && Content(m2.tree, copies[j]) == Content(m.tree, saved[j].p)))
    && (forall j, l :: 0 <= j < l < |copies| ==> copies[j] != copies[l])
  }

  lemma {:induction false} CopyAllSpec(m: Mem, saved: seq<SavedPage>)
    requires Inv(m) && forall j :: 0 <= j < |saved| ==> HeldPage(m, saved[j].p)
    ensures var (m2, copies, ok) := CopyAll(m, saved);
      && Inv(m2) && KeepsHeld(m, m2) && m2.tree.dirs == m.tree.dirs
      && (ok ==> CopiesOf(m, m2, saved, copies))
    decreases |saved|
  {
    if saved != [] && m.free != [] {
      var c, p := Content(m.tree, saved[0].p), m.free[0];
      assert HeldPage(m, saved[0].p);
      TakePage(m, c);
      var m1 := Fill(Alloc(m), p, c);
      forall j | 0 <= j < |saved[1..]| ensures HeldPage(m1, saved[1..][j].p) {
        assert HeldPage(m, saved[j + 1].p);
      }
      CopyAllSpec(m1, saved[1..]);
      var (m2, rest, ok) := CopyAll(m1, saved[1..]);
      if ok {
        CopiesCons(m, m1, m2, saved, p, rest);
      }
    }
  }

  lemma NotHeldBefore(m: Mem, m1: Mem, i: int)
    requires KeepsHeld(m, m1) && !HeldPage(m1, i)
    ensures !HeldPage(m, i)
  {
  }

  lemma {:induction false} CopiesCons(m: Mem, m1: Mem, m2: Mem, saved: seq<SavedPage>, p: int, rest: seq<int>)
    requires saved != [] && CopiesOf(m1, m2, saved[1..], rest) && KeepsHeld(m, m1) && KeepsHeld(m1, m2)
    requires HeldPage(m1, p) && !HeldPage(m, p) && Content(m1.tree, p) == Content(m.tree, saved[0].p)
    requires forall j :: 0 <= j < |saved| ==> HeldPage(m, saved[j].p)
    ensures CopiesOf(m, m2, saved, [p] + rest)
  {
    var copies := [p] + rest;
    forall j | 0 <= j < |copies|
      ensures HeldPage(m2, copies[j]) && !HeldPage(m, copies[j])
        && Content(m2.tree, copies[j]) == Content(m.tree, saved[j].p)
    {
      assert HeldPage(m, saved[j].p);
      if j == 0 {
        assert HeldPage(m1, p);
      } else {
        assert !HeldPage(m1, rest[j - 1]) && saved[1..][j - 1] == saved[j];
        NotHeldBefore(m, m1, rest[j - 1]);
      }
    }
  }

  ghost predicate DistinctPages(saved: seq<SavedPage>) {
    && (forall j :: 0 <= j < |saved| ==> PnOk(saved[j].v) && IsFlags(saved[j].perm))
    && (forall j, l :: 0 <= j < l < |saved| ==> saved[j].v != saved[l].v)
  }

  // After the insertions: every saved page is mapped to its copy, nothing else of d changed, and
  // what was mapped or held (the copies apart) is as it was.
  ghost predicate InsertedAll(m: Mem, m': Mem, d: int, saved: seq<SavedPage>, copies: seq<int>)
    requires |saved| == |copies|
  {
    && m'.tree.dirs == m.tree.dirs
    && (forall j :: 0 <= j < |saved| ==> Xlate(m'.tree, d, saved[j].v) == MkPte(copies[j], OrP(saved[j].perm)))
    && (forall j :: 0 <= j < |saved| ==> Content(m'.tree, copies[j]) == Content(m.tree, copies[j]))
    && (forall v {:trigger Xlate(m'.tree, d, v)} :: PnOk(v) && (forall j :: 0 <= j < |saved| ==> saved[j].v != v) ==>
          && Xlate(m'.tree, d, v) == Xlate(m.tree, d, v)
          && (Present(Xlate(m.tree, d, v)) ==>
            Content(m'.tree, PteFrame(Xlate(m.tree, d, v))) == Content(m.tree, PteFrame(Xlate(m.tree, d, v)))))
    && (forall i {:trigger HeldPage(m', i)} {:trigger Content(m'.tree, i)} :: HeldPage(m, i) && i !in copies ==>
      HeldPage(m', i) && Content(m'.tree, i) == Content(m.tree, i))
  }

  lemma {:induction false} InsertAllSpec(m: Mem, d: int, saved: seq<SavedPage>, copies: seq<int>)
    requires Inv(m) && d in m.tree.dirs && |saved| == |copies| && DistinctPages(saved)
    requires forall j :: 0 <= j < |copies| ==> HeldPage(m, copies[j])
    requires forall j, l :: 0 <= j < l < |copies| ==> copies[j] != copies[l]
    ensures var (m', rc) := InsertAll(m, d, saved, copies);
      rc == Ok ==> Inv(m') && InsertedAll(m, m', d, saved, copies)
    decreases |saved|
  {
    if saved != [] {
      var p, v, perm := copies[0], saved[0].v, saved[0].perm;
      var (m1, rc) := Insert(m, d, p, v, perm);
      assert HeldPage(m, p);
      InsertSpec(m, d, p, v, perm);
      InsertKeepsHeld(m, d, p, v, perm);
      if rc == Ok {
        forall j | 0 <= j < |copies[1..]| ensures HeldPage(m1, copies[1..][j]) {
          assert HeldPage(m, copies[j + 1]);
        }
        InsertAllSpec(m1, d, saved[1..], copies[1..]);
        var (m', rc') := InsertAll(m1, d, saved[1..], copies[1..]);
        if rc' == Ok {
          InsertedCons(m, m1, m', d, saved, copies);
        }
      }
    }
  }

  // The first insertion, then the rest
  lemma InsertedCons(m: Mem, m1: Mem, m': Mem, d: int, saved: seq<SavedPage>, copies: seq<int>)
    requires Inv(m) && d in m.tree.dirs && |saved| == |copies| && saved != [] && DistinctPages(saved)
    requires OneChange(m.tree, m1.tree, d, saved[0].v, MkPte(copies[0], OrP(saved[0].perm))) && KeepsFrames(m, m1)
      && KeepsHeldBut(m, m1, copies[0])
    requires HeldPage(m, copies[0]) && forall j :: 1 <= j < |copies| ==>
      copies[j] != copies[0] && HeldPage(m, copies[j])
    requires InsertedAll(m1, m', d, saved[1..], copies[1..])
    ensures InsertedAll(m, m', d, saved, copies)
  {
    var rest, crest := saved[1..], copies[1..];
    assert forall j :: 0 <= j < |rest| ==> rest[j] == saved[j + 1] && crest[j] == copies[j + 1];
    forall j | 0 <= j < |saved|
      ensures Xlate(m'.tree, d, saved[j].v) == MkPte(copies[j], OrP(saved[j].perm))
        && Content(m'.tree, copies[j]) == Content(m.tree, copies[j])
    {
      if j > 0 {
        assert rest[j - 1].v == saved[j].v;
        assert HeldPage(m, copies[j]);
        assert Content(m'.tree, crest[j - 1]) == Content(m1.tree, crest[j - 1]);
      } else {
        InsertedFirst(m, m1, m', d, saved, copies);
      }
    }
    forall v | PnOk(v) && (forall j :: 0 <= j < |saved| ==> saved[j].v != v)
      ensures Xlate(m'.tree, d, v) == Xlate(m.tree, d, v)
      ensures Present(Xlate(m.tree, d, v)) ==>
        Content(m'.tree, PteFrame(Xlate(m.tree, d, v))) == Content(m.tree, PteFrame(Xlate(m.tree, d, v)))
    {
      assert saved[0].v != v;
      InsertedOther(m, m1, m', d, saved, copies, v);
    }
    forall i | HeldPage(m, i) && i !in copies ensures HeldPage(m', i) && Content(m'.tree, i) == Content(m.tree, i) {
      assert i != copies[0] && i !in crest;
      assert HeldPage(m1, i);
    }
  }

  // The page inserted first is not disturbed by the rest.
  lemma InsertedFirst(m: Mem, m1: Mem, m': Mem, d: int, saved: seq<SavedPage>, copies: seq<int>)
    requires d in m.tree.dirs && |saved| == |copies| && saved != [] && DistinctPages(saved)
    requires OneChange(m.tree, m1.tree, d, saved[0].v, MkPte(copies[0], OrP(saved[0].perm))) && KeepsFrames(m, m1)
    requires HeldPage(m, copies[0]) && InsertedAll(m1, m', d, saved[1..], copies[1..])
    ensures Xlate(m'.tree, d, saved[0].v) == MkPte(copies[0], OrP(saved[0].perm))
      && Content(m'.tree, copies[0]) == Content(m.tree, copies[0])
  {
    var v, p := saved[0].v, copies[0];
    OrPFlags(saved[0].perm);
    MkPteParts(p, OrP(saved[0].perm));
    assert UserPage(m.tree, d, v);
    assert Xlate(m1.tree, d, v) == MkPte(p, OrP(saved[0].perm));
    assert forall j :: 0 <= j < |saved[1..]| ==> saved[1..][j] == saved[j + 1];
    assert Xlate(m'.tree, d, v) == Xlate(m1.tree, d, v);
  }

  // Nor is a page that is not inserted at all.
  lemma {:induction false} InsertedOther(m: Mem, m1: Mem, m': Mem, d: int, saved: seq<SavedPage>, copies: seq<int>,
          v: int)
    requires Inv(m) && d in m.tree.dirs && |saved| == |copies| && saved != [] && PnOk(v)
      && forall j :: 0 <= j < |saved| ==> saved[j].v != v
    requires OneChange(m.tree, m1.tree, d, saved[0].v, MkPte(copies[0], OrP(saved[0].perm))) && KeepsFrames(m, m1)
    requires InsertedAll(m1, m', d, saved[1..], copies[1..])
    ensures Xlate(m'.tree, d, v) == Xlate(m.tree, d, v)
    ensures Present(Xlate(m.tree, d, v)) ==>
      Content(m'.tree, PteFrame(Xlate(m.tree, d, v))) == Content(m.tree, PteFrame(Xlate(m.tree, d, v)))
  {
    assert UserPage(m.tree, d, v) && saved[0].v != v;
    assert Xlate(m1.tree, d, v) == Xlate(m.tree, d, v);
    assert forall j :: 0 <= j < |saved[1..]| ==> saved[1..][j] == saved[j + 1];
    assert Xlate(m'.tree, d, v) == Xlate(m1.tree, d, v);
    if Present(Xlate(m.tree, d, v)) {
      XlateTarget(m, d, v);
    }
  }

  // env_flush_addr_space leaves held pages alone and nothing mapped.
  lemma FlushedKeepsHeld(m: Mem, m': Mem, d: int, S: set<(int, int)>)
    requires Flushed(m.tree, m'.tree, d, 0, UTOP_PDX) && Dropped(m, m', S)
    ensures KeepsHeld(m, m') && forall v {:trigger Xlate(m'.tree, d, v)} :: UserPage(m.tree, d, v) ==>
      Xlate(m'.tree, d, v) == 0
  {
    forall i | HeldPage(m, i) ensures HeldPage(m', i) && Content(m'.tree, i) == Content(m.tree, i) {
    }
    forall v | UserPage(m.tree, d, v) ensures Xlate(m'.tree, d, v) == 0 {
      assert 0 <= Pdx(v) < UTOP_PDX;
    }
  }

  lemma FlushHeld(m: Mem, d: int)
    requires Inv(m) && d in m.tree.dirs
    ensures var m' := FlushFrom(m, d, 0);
      && Inv(m') && KeepsHeld(m, m') && m'.tree.dirs == m.tree.dirs
      && forall v {:trigger Xlate(m'.tree, d, v)} :: PnOk(v) ==> Xlate(m'.tree, d, v) == 0
  {
    FlushFromSpec(m, d, 0);
    FlushedKeepsHeld(m, FlushFrom(m, d, 0), d, SpaceSlots(m.tree, d, 0, UTOP_PDX));
  }

  // A resumed address space: every page that a page table covered when the snapshot of t was taken
  // is mapped, with its flags and the present bit, to a page of its own; all else is unmapped.
  ghost predicate Resumed(t: Tree, m': Mem, d: int, saved: seq<SavedPage>) {
    forall v {:trigger Xlate(m'.tree, d, v)} :: PnOk(v) ==>
      if v >= UTEXT_PN && HasTable(t, d, v) then ResumedPage(t, m', d, v, saved) else Xlate(m'.tree, d, v) == 0
  }

  ghost predicate ResumedPage(t: Tree, m': Mem, d: int, v: int, saved: seq<SavedPage>) {
    var e, e' := Xlate(t, d, v), Xlate(m'.tree, d, v);
    && Present(e') && PteFlags(e') == OrP(PteFlags(e))
    && (Present(e) ==> Content(m'.tree, PteFrame(e')) == Content(t, PteFrame(e)))
    && forall j :: 0 <= j < |saved| ==> saved[j].p != PteFrame(e')
  }

  lemma FlagsOk(e: int)
    ensures IsFlags(PteFlags(e))
  {
  }

  lemma RecordsDistinct(m: Mem, t: Tree, d: int, saved: seq<SavedPage>)
    requires Records(m, t, d, UTEXT_PN, saved)
    ensures DistinctPages(saved)
    ensures forall j :: 0 <= j < |saved| ==> HeldPage(m, saved[j].p)
    ensures forall v :: UTEXT_PN <= v < UTOP_PN && HasTable(t, d, v) <==>
      exists j :: 0 <= j < |saved| && saved[j].v == v
  {
    CoveredSpec(t, d, UTEXT_PN);
    var c := Covered(t, d, UTEXT_PN);
    forall j | 0 <= j < |saved|
      ensures RecordOk(m, t, d, saved[j], c[j]) && PnOk(saved[j].v) && IsFlags(saved[j].perm) && saved[j].v == c[j]
    {
      FlagsOk(Xlate(t, d, c[j]));
    }
    forall v | UTEXT_PN <= v < UTOP_PN && HasTable(t, d, v) ensures exists j :: 0 <= j < |saved| && saved[j].v == v {
      var j :| 0 <= j < |c| && c[j] == v;
      assert saved[j].v == v;
    }
  }

  // From the flushed state m2 to the resumed one
  lemma ResumedBy(m1: Mem, m2: Mem, m3: Mem, t: Tree, d: int, saved: seq<SavedPage>, copies: seq<int>, m: Mem)
    requires Records(m, t, d, UTEXT_PN, saved) && DistinctPages(saved) && CopiesOf(m, m1, saved, copies)
      && KeepsHeld(m1, m2)
    requires InsertedAll(m2, m3, d, saved, copies)
    requires forall v {:trigger Xlate(m2.tree, d, v)} :: PnOk(v) ==> Xlate(m2.tree, d, v) == 0
    ensures Resumed(t, m3, d, saved)
  {
    RecordsDistinct(m, t, d, saved);
    forall v | PnOk(v)
      ensures if v >= UTEXT_PN && HasTable(t, d, v) then ResumedPage(t, m3, d, v, saved) else Xlate(m3.tree, d, v) == 0
    {
      if v >= UTEXT_PN && HasTable(t, d, v) {
        var j :| 0 <= j < |saved| && saved[j].v == v;
        assert RecordOk(m, t, d, saved[j], Covered(t, d, UTEXT_PN)[j]);
        ResumedOne(m1, m2, m3, t, d, saved, copies, m, j);
      } else {
        assert Xlate(m3.tree, d, v) == Xlate(m2.tree, d, v);
      }
    }
  }

  lemma {:induction false} ResumedOne(m1: Mem, m2: Mem, m3: Mem, t: Tree, d: int, saved: seq<SavedPage>,
          copies: seq<int>, m: Mem, j: int)
    requires CopiesOf(m, m1, saved, copies) && KeepsHeld(m1, m2) && InsertedAll(m2, m3, d, saved, copies)
      && DistinctPages(saved)
    requires 0 <= j < |saved| && RecordOk(m, t, d, saved[j], saved[j].v) && forall l :: 0 <= l < |saved| ==>
      HeldPage(m, saved[l].p)
    ensures ResumedPage(t, m3, d, saved[j].v, saved)
  {
    var p, flags := copies[j], OrP(saved[j].perm);
    OrPFlags(saved[j].perm);
    MkPteParts(p, flags);
    assert Content(m2.tree, p) == Content(m1.tree, p);
    assert Content(m3.tree, p) == Content(m2.tree, p);
    assert Xlate(m3.tree, d, saved[j].v) == MkPte(p, flags);
  }

  /** sys_env_resume, when it succeeds: the environment has the address space and registers of the
      snapshot, in pages not shared with it, and the snapshot is unchanged. */
  lemma ResumeSpec(m: Mem, t: Tree, d: int, s: Snapshot, tf: TrapFrame)
    requires Inv(m) && d in m.tree.dirs && Records(m, t, d, UTEXT_PN, s.pages) && Resume(m, d, s, tf).2 == Ok
    ensures var (m3, tf3, rc) := Resume(m, d, s, tf);
      && Inv(m3) && d in m3.tree.dirs
      && Resumed(t, m3, d, s.pages)
      && Records(m3, t, d, UTEXT_PN, s.pages)
      && tf3 == TrapFrame(s.regs, s.eip, s.esp, s.eflags, tf.rest)
  {
    var saved := s.pages;
    RecordsDistinct(m, t, d, saved);
    CopyAllSpec(m, saved);
    var (m1, copies, ok) := CopyAll(m, saved);
    FlushHeld(m1, d);
    var m2 := FlushFrom(m1, d, 0);
    forall j | 0 <= j < |copies| ensures HeldPage(m2, copies[j]) {
      assert HeldPage(m1, copies[j]);
    }
    InsertAllSpec(m2, d, saved, copies);
    var (m3, rc) := InsertAll(m2, d, saved, copies);
    ResumedBy(m1, m2, m3, t, d, saved, copies, m);
    ResumeKeepsRecords(m, m1, m2, m3, t, d, saved, copies);
  }

  lemma ResumeKeepsRecords(m: Mem, m1: Mem, m2: Mem, m3: Mem, t: Tree, d: int, saved: seq<SavedPage>, copies: seq<int>)
    requires Records(m, t, d, UTEXT_PN, saved) && CopiesOf(m, m1, saved, copies) && KeepsHeld(m, m1)
      && KeepsHeld(m1, m2) && InsertedAll(m2, m3, d, saved, copies)
    ensures Records(m3, t, d, UTEXT_PN, saved)
  {
    var c := Covered(t, d, UTEXT_PN);
    forall j | 0 <= j < |saved| ensures RecordOk(m3, t, d, saved[j], c[j]) {
      assert RecordOk(m, t, d, saved[j], c[j]);
      assert HeldPage(m1, saved[j].p);
      assert HeldPage(m2, saved[j].p);
      assert saved[j].p !in copies;
      assert HeldPage(m3, saved[j].p);
    }
  }

  // Resuming one environment leaves what is held alone, other snapshots too.
  lemma {:induction false} ResumeKeepsHeld(m: Mem, d: int, s: Snapshot, tf: TrapFrame)
    requires Inv(m) && d in m.tree.dirs && DistinctPages(s.pages) && forall j :: 0 <= j < |s.pages| ==>
      HeldPage(m, s.pages[j].p)
    requires Resume(m, d, s, tf).2 == Ok
    ensures var m3 := Resume(m, d, s, tf).0; Inv(m3) && KeepsHeld(m, m3)
  {
    var saved := s.pages;
    CopyAllSpec(m, saved);
    var (m1, copies, ok) := CopyAll(m, saved);
    FlushHeld(m1, d);
    var m2 := FlushFrom(m1, d, 0);
    forall j | 0 <= j < |copies| ensures HeldPage(m2, copies[j]) {
      assert HeldPage(m1, copies[j]);
    }
    InsertAllSpec(m2, d, saved, copies);
    InsertedKeepsOthers(m, m1, m2, InsertAll(m2, d, saved, copies).0, d, saved, copies);
  }

  lemma {:induction false} InsertedKeepsOthers(m: Mem, m1: Mem, m2: Mem, m3: Mem, d: int, saved: seq<SavedPage>,
          copies: seq<int>)
    requires CopiesOf(m, m1, saved, copies) && KeepsHeld(m, m1) && KeepsHeld(m1, m2)
      && InsertedAll(m2, m3, d, saved, copies)
    ensures KeepsHeld(m, m3)
  {
    forall i | HeldPage(m, i) ensures HeldPage(m3, i) && Content(m3.tree, i) == Content(m.tree, i) {
      assert HeldPage(m1, i);
      assert HeldPage(m2, i);
      assert i !in copies;
    }
  }

  lemma ResumeOfPresentPage(m: Mem, t: Tree, d: int, s: Snapshot, tf: TrapFrame, v: int)
    requires Inv(m) && d in m.tree.dirs && Records(m, t, d, UTEXT_PN, s.pages) && Resume(m, d, s, tf).2 == Ok
    requires UTEXT_PN <= v < UTOP_PN && Present(Xlate(t, d, v))
    ensures var m3 := Resume(m, d, s, tf).0;
      var e, e' := Xlate(t, d, v), Xlate(m3.tree, d, v);
      && Present(e') && PteFlags(e') == PteFlags(e)
      && Content(m3.tree, PteFrame(e')) == Content(t, PteFrame(e))
      && (forall j :: 0 <= j < |s.pages| ==> s.pages[j].p != PteFrame(e'))
  {
    ResumeSpec(m, t, d, s, tf);
    ResumedPresent(t, Resume(m, d, s, tf).0, d, s.pages, v);
  }

  lemma ResumedPresent(t: Tree, m': Mem, d: int, saved: seq<SavedPage>, v: int)
    requires Resumed(t, m', d, saved) && UTEXT_PN <= v < UTOP_PN && Present(Xlate(t, d, v))
    ensures var e, e' := Xlate(t, d, v), Xlate(m'.tree, d, v);
      && Present(e') && PteFlags(e') == PteFlags(e)
      && Content(m'.tree, PteFrame(e')) == Content(t, PteFrame(e))
      && (forall j :: 0 <= j < |saved| ==> saved[j].p != PteFrame(e'))
  {
    var e, e' := Xlate(t, d, v), Xlate(m'.tree, d, v);
    FlagsOk(e);
    OrPFlags(PteFlags(e));
    assert HasTable(t, d, v);
    assert ResumedPage(t, m', d, v, saved);
  }

  /** What was not mapped does not always come back unmapped: a page of [UTEXT, UTOP) absent when
      the snapshot was taken is absent after resume if and only if no page table covered it; else
      it is mapped, for the kernel alone. */
  lemma ResumeOfAbsentPage(m: Mem, t: Tree, d: int, s: Snapshot, tf: TrapFrame, v: int)
    requires Inv(m) && d in m.tree.dirs && Records(m, t, d, UTEXT_PN, s.pages) && Resume(m, d, s, tf).2 == Ok
    requires UTEXT_PN <= v < UTOP_PN && Xlate(t, d, v) == 0
    ensures var e' := Xlate(Resume(m, d, s, tf).0.tree, d, v);
      && (!Present(e') <==> !HasTable(t, d, v))
      && (HasTable(t, d, v) ==> PteFlags(e') == PTE_P)
  {
    ResumeSpec(m, t, d, s, tf);
    assert PteFlags(0) == 0;
  }
}
