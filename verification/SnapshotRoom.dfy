/** When a snapshot and a resume succeed, and what a round trip gives that has memory enough. */
module SnapshotRoom {
  import opened Mmu
  import opened Phys
  import opened Vm
  import opened EnvVm
  import opened Held
  import opened Snapshots
  import opened SnapshotRuns

  // ---------------------------------------------------------------- the snapshot

  /** sys_env_snapshot succeeds if and only if there is a free page for each page that a page table
      covers. */
  lemma {:induction false} SaveRoom(m: Mem, d: int, v: int)
    requires Inv(m) && d in m.tree.dirs && 0 <= v
    ensures var (m2, saved, ok) := SaveFrom(m, d, v);
      && (ok <==> |Covered(m.tree, d, v)| <= |m.free|)
      && |m2.free| == |m.free| - |saved| && (ok ==> |saved| == |Covered(m.tree, d, v)|)
    decreases UTOP_PN - v
  {
    if v < UTOP_PN {
      if !HasTable(m.tree, d, v) {
        SaveRoom(m, d, v + 1);
      } else if m.free != [] {
        SaveRoomOne(m, d, v);
        SaveRoom(SaveOne(m, d, v), d, v + 1);
      }
    }
  }

  lemma SaveRoomOne(m: Mem, d: int, v: int)
    requires Inv(m) && UserPage(m.tree, d, v) && HasTable(m.tree, d, v) && m.free != []
    ensures var m1 := SaveOne(m, d, v);
      && Inv(m1) && d in m1.tree.dirs && |m1.free| == |m.free| - 1
      && Covered(m1.tree, d, v + 1) == Covered(m.tree, d, v + 1)
  {
    FrameInRange(m, d, v);
    TakePage(m, Content(m.tree, PteFrame(Xlate(m.tree, d, v))));
    CoveredSame(m.tree, SaveOne(m, d, v).tree, d, v + 1);
  }

  // ---------------------------------------------------------------- resume: the copies

  lemma {:induction false} CopyRoom(m: Mem, saved: seq<SavedPage>)
    ensures var (m1, copies, ok) := CopyAll(m, saved);
      && (ok <==> |saved| <= |m.free|) && |m1.free| == |m.free| - |copies| && (ok ==> |copies| == |saved|)
    decreases |saved|
  {
    if saved != [] && m.free != [] {
      CopyRoom(Fill(Alloc(m), m.free[0], Content(m.tree, saved[0].p)), saved[1..]);
    }
  }

  // ---------------------------------------------------------------- resume: the insertions

  // The directory entries that pages to be inserted need page tables for
  ghost function TablesFor(t: Tree, d: int, saved: seq<SavedPage>): set<int> {
    set j | 0 <= j < |saved| && !HasTable(t, d, saved[j].v) :: Pdx(saved[j].v)
  }

  lemma HeldUncounted(m: Mem, p: int)
    requires Inv(m) && HeldPage(m, p)
    ensures Info(m, p).refs == 0
  {
    assert Counted(m.pages, m.tree, m.pins, p);
  }

  // page_insert of a held page where nothing is mapped
  lemma InsertHeld(m: Mem, d: int, p: int, v: int, perm: int)
    requires Inv(m) && UserPage(m.tree, d, v) && Xlate(m.tree, d, v) == 0 && HeldPage(m, p) && IsFlags(perm)
    ensures var (m', rc) := Insert(m, d, p, v, perm);
      && (rc == Ok <==> HasTable(m.tree, d, v) || m.free != [])
      && (rc == Ok ==> |m'.free| == |m.free| - (if HasTable(m.tree, d, v) then 0 else 1))
  {
    if HasTable(m.tree, d, v) || m.free != [] {
      WalkHeld(m, d, p, v);
      var m1 := Walk(m, d, v);
      assert Replace(Pin(m1, p), d, p, v, perm).free == m1.free;
    }
  }

  lemma WalkHeld(m: Mem, d: int, p: int, v: int)
    requires Inv(m) && UserPage(m.tree, d, v) && Xlate(m.tree, d, v) == 0 && HeldPage(m, p)
      && (HasTable(m.tree, d, v) || m.free != [])
    ensures var m1 := Walk(m, d, v);
      && Xlate(m1.tree, d, v) == 0 && Info(m1, p).refs == 0
      && |m1.free| == |m.free| - (if HasTable(m.tree, d, v) then 0 else 1)
  {
    WalkSpec(m, d, v);
    WalkRefs(m, d, v);
    WalkedKeepsHeld(m, Walk(m, d, v), d, v, p);
    HeldUncounted(Walk(m, d, v), p);
    assert UserPage(m.tree, d, v);
  }

  lemma WalkTablesExact(m: Mem, d: int, v: int, u: int)
    requires Inv(m) && UserPage(m.tree, d, v) && PnOk(u) && (HasTable(m.tree, d, v) || m.free != [])
    ensures HasTable(Walk(m, d, v).tree, d, u) <==> HasTable(m.tree, d, u) || Pdx(u) == Pdx(v)
  {
    if !HasTable(m.tree, d, v) {
      FreeUnreferenced(m, m.free[0]);
      MkPteParts(m.free[0], PTE_P + PTE_W + PTE_U);
    }
  }

  lemma InsertTablesExact(m: Mem, d: int, p: int, v: int, perm: int, u: int)
    requires Inv(m) && UserPage(m.tree, d, v) && PnOk(u) && Plain(m.tree, p) && p !in m.free && IsFlags(perm)
    requires Insert(m, d, p, v, perm).1 == Ok
    ensures HasTable(Insert(m, d, p, v, perm).0.tree, d, u) <==> HasTable(m.tree, d, u) || Pdx(u) == Pdx(v)
  {
    WalkSpec(m, d, v);
    WalkTablesExact(m, d, v, u);
    InsertInto(Walk(m, d, v), d, p, v, perm);
    SameTables(Walk(m, d, v).tree, Insert(m, d, p, v, perm).0.tree, d, u);
  }

  lemma SameTables(t: Tree, t': Tree, d: int, u: int)
    requires TreeOk(t) && d in t.dirs && KeepsPlain(t, t')
    ensures HasTable(t', d, u) == HasTable(t, d, u)
  {
    assert Content(t', d) == Content(t, d);
  }

  // One page fewer to insert, and its page table there
  lemma {:induction false} TablesStep(t: Tree, t': Tree, d: int, saved: seq<SavedPage>)
    requires saved != [] && forall j :: 0 <= j < |saved| ==>
      (HasTable(t', d, saved[j].v) <==> HasTable(t, d, saved[j].v) || Pdx(saved[j].v) == Pdx(saved[0].v))
    ensures TablesFor(t', d, saved[1..]) == TablesFor(t, d, saved) - {Pdx(saved[0].v)}
    ensures Pdx(saved[0].v) in TablesFor(t, d, saved) <==> !HasTable(t, d, saved[0].v)
  {
    var A, B := TablesFor(t', d, saved[1..]), TablesFor(t, d, saved) - {Pdx(saved[0].v)};
    forall x | x in A ensures x in B {
      var j :| 0 <= j < |saved[1..]| && !HasTable(t', d, saved[1..][j].v) && Pdx(saved[1..][j].v) == x;
      assert saved[1..][j] == saved[j + 1];
    }
    forall x | x in B ensures x in A {
      var j :| 0 <= j < |saved| && !HasTable(t, d, saved[j].v) && Pdx(saved[j].v) == x;
      assert j > 0 && saved[1..][j - 1] == saved[j];
    }
  }

  // What is still to be inserted: held copies, where nothing is mapped
  ghost predicate ToInsert(m: Mem, d: int, saved: seq<SavedPage>, copies: seq<int>) {
    && Inv(m) && d in m.tree.dirs && |saved| == |copies| && DistinctPages(saved)
    && (forall j :: 0 <= j < |copies| ==> HeldPage(m, copies[j]))
    && (forall j, l :: 0 <= j < l < |copies| ==> copies[j] != copies[l])
    && forall j :: 0 <= j < |saved| ==> Xlate(m.tree, d, saved[j].v) == 0
  }

  lemma {:induction false} ToInsertNext(m: Mem, d: int, saved: seq<SavedPage>, copies: seq<int>, m1: Mem)
    requires ToInsert(m, d, saved, copies) && saved != []
    requires Insert(m, d, copies[0], saved[0].v, saved[0].perm) == (m1, Ok)
    ensures ToInsert(m1, d, saved[1..], copies[1..])
    ensures forall j :: 0 <= j < |saved| ==>
      (HasTable(m1.tree, d, saved[j].v) <==> HasTable(m.tree, d, saved[j].v) || Pdx(saved[j].v) == Pdx(saved[0].v))
  {
    var p, v, perm := copies[0], saved[0].v, saved[0].perm;
    assert HeldPage(m, p);
    InsertSpec(m, d, p, v, perm);
    InsertKeepsHeld(m, d, p, v, perm);
    forall j | 0 <= j < |copies[1..]| ensures HeldPage(m1, copies[1..][j]) {
      assert HeldPage(m, copies[j + 1]);
    }
    forall j | 0 <= j < |saved[1..]| ensures Xlate(m1.tree, d, saved[1..][j].v) == 0 {
      assert saved[1..][j] == saved[j + 1] && UserPage(m.tree, d, saved[j + 1].v);
    }
    forall j | 0 <= j < |saved|
      ensures HasTable(m1.tree, d, saved[j].v) <==> HasTable(m.tree, d, saved[j].v) || Pdx(saved[j].v) == Pdx(v)
    {
      InsertTablesExact(m, d, p, v, perm, saved[j].v);
    }
  }

  lemma OneLess(S: set<int>, x: int)
    ensures |S - {x}| == |S| - if x in S then 1 else 0
  {
    assert x !in S ==> S - {x} == S;
  }

  lemma {:induction false} InsertRoom(m: Mem, d: int, saved: seq<SavedPage>, copies: seq<int>)
    requires ToInsert(m, d, saved, copies)
    ensures InsertAll(m, d, saved, copies).1 == Ok <==> |TablesFor(m.tree, d, saved)| <= |m.free|
    decreases |saved|
  {
    if saved != [] {
      var (m1, rc) := Insert(m, d, copies[0], saved[0].v, saved[0].perm);
      assert HeldPage(m, copies[0]);
      InsertHeld(m, d, copies[0], saved[0].v, saved[0].perm);
      if rc == Ok {
        ToInsertNext(m, d, saved, copies, m1);
        InsertRoom(m1, d, saved[1..], copies[1..]);
        TablesStep(m.tree, m1.tree, d, saved);
        OneLess(TablesFor(m.tree, d, saved), Pdx(saved[0].v));
      } else {
        assert Pdx(saved[0].v) in TablesFor(m.tree, d, saved);
      }
    }
  }

  // ---------------------------------------------------------------- resume as a whole

  lemma {:induction false} FewTables(t: Tree, d: int, saved: seq<SavedPage>)
    ensures |TablesFor(t, d, saved)| <= |saved|
    decreases |saved|
  {
    if saved != [] {
      var rest := saved[1..];
      FewTables(t, d, rest);
      var S := TablesFor(t, d, rest) + {Pdx(saved[0].v)};
      forall x | x in TablesFor(t, d, saved) ensures x in S {
        var j :| 0 <= j < |saved| && !HasTable(t, d, saved[j].v) && Pdx(saved[j].v) == x;
        assert j > 0 ==> rest[j - 1] == saved[j];
      }
      SubsetSmaller(TablesFor(t, d, saved), S);
    }
  }

  lemma SubsetSmaller<T>(A: set<T>, B: set<T>)
    requires A <= B
    ensures |A| <= |B|
  {
    assert B == A + (B - A);
  }

  lemma {:induction false} SeqAsSet(s: seq<int>)
    requires forall j, l :: 0 <= j < l < |s| ==> s[j] != s[l]
    ensures |set x | x in s| == |s|
    decreases |s|
  {
    if s != [] {
      SeqAsSet(s[1..]);
      assert (set x | x in s) == (set x | x in s[1..]) + {s[0]};
    }
  }

  // env_flush_addr_space takes no page from the free list.
  lemma FlushRoom(m: Mem, d: int)
    requires Inv(m) && d in m.tree.dirs
    ensures |FlushFrom(m, d, 0).free| >= |m.free|
  {
    FlushFromSpec(m, d, 0);
    MoreFree(m, FlushFrom(m, d, 0), SpaceSlots(m.tree, d, 0, UTOP_PDX));
  }

  lemma MoreFree(m: Mem, m': Mem, S: set<(int, int)>)
    requires Dropped(m, m', S) && FreeOk(m.pages, m.head, m.free) && FreeOk(m'.pages, m'.head, m'.free)
    ensures |m'.free| >= |m.free|
  {
    SeqAsSet(m.free);
    SeqAsSet(m'.free);
    SubsetSmaller(set x | x in m.free, set x | x in m'.free);
  }

  // The memory that resume inserts the copies into
  ghost function Emptied(m: Mem, d: int, saved: seq<SavedPage>): Mem { FlushFrom(CopyAll(m, saved).0, d, 0) }

  lemma FlushedReady(m: Mem, d: int, saved: seq<SavedPage>)
    requires Inv(m) && d in m.tree.dirs && DistinctPages(saved) && |saved| <= |m.free|
      && forall j :: 0 <= j < |saved| ==> HeldPage(m, saved[j].p)
    ensures ToInsert(Emptied(m, d, saved), d, saved, CopyAll(m, saved).1)
    ensures |Emptied(m, d, saved).free| >= |m.free| - |saved|
  {
    CopyRoom(m, saved);
    CopyAllSpec(m, saved);
    var (m1, copies, ok) := CopyAll(m, saved);
    FlushHeld(m1, d);
    FlushRoom(m1, d);
    forall j | 0 <= j < |copies| ensures HeldPage(Emptied(m, d, saved), copies[j]) {
      assert HeldPage(m1, copies[j]);
    }
  }

  /** sys_env_resume allocates its copies first, "so that we don't end up with intermediate states".
      But the page tables come later: it succeeds if and only if there is a free page for each copy
      and, with the old address space given up, one for each page table. */
  lemma ResumeExactly(m: Mem, t: Tree, d: int, s: Snapshot, tf: TrapFrame)
    requires Inv(m) && d in m.tree.dirs && Records(m, t, d, UTEXT_PN, s.pages)
    ensures var m2 := Emptied(m, d, s.pages);
      Resume(m, d, s, tf).2 == Ok <==>
        |s.pages| <= |m.free| && |TablesFor(m2.tree, d, s.pages)| <= |m2.free|
  {
    RecordsDistinct(m, t, d, s.pages);
    CopyRoom(m, s.pages);
    if |s.pages| <= |m.free| {
      FlushedReady(m, d, s.pages);
      InsertRoom(Emptied(m, d, s.pages), d, s.pages, CopyAll(m, s.pages).1);
    }
  }

  /** A page for the copy of each saved page and one for a page table are always enough. */
  lemma ResumeGoes(m: Mem, t: Tree, d: int, s: Snapshot, tf: TrapFrame)
    requires Inv(m) && d in m.tree.dirs && Records(m, t, d, UTEXT_PN, s.pages) && 2 * |s.pages| <= |m.free|
    ensures Resume(m, d, s, tf).2 == Ok
  {
    ResumeExactly(m, t, d, s, tf);
    RecordsDistinct(m, t, d, s.pages);
    FlushedReady(m, d, s.pages);
    FewTables(Emptied(m, d, s.pages).tree, d, s.pages);
  }

  /** The round trip, with memory enough: a snapshot of d succeeds if and only if there is a page for
      each page covered; after any kernel activity that spares it, a resume succeeds if there are two
      pages for each page saved; and then every page and the registers are back. */
  lemma RoundTripGoes(m0: Mem, d: int, tf0: TrapFrame, ops: seq<KOp>, tf: TrapFrame, v: int)
    requires Inv(m0) && d in m0.tree.dirs && UTEXT_PN <= v < UTOP_PN && Present(Xlate(m0.tree, d, v))
    ensures var (m1, s, ok) := TakeSnapshot(m0, d, tf0);
      var m2 := KSteps(m1, ops, SavedFrames(s.pages));
      && (ok <==> |Covered(m0.tree, d, UTEXT_PN)| <= |m0.free|)
      && (ok && d in m2.tree.dirs && 2 * |s.pages| <= |m2.free| ==> Restored(m0, d, tf0, s, m2, tf, v))
  {
    SaveRoom(m0, d, UTEXT_PN);
    SaveSpec(m0, d, UTEXT_PN);
    var (m1, s, ok) := TakeSnapshot(m0, d, tf0);
    var m2 := KSteps(m1, ops, SavedFrames(s.pages));
    if ok && d in m2.tree.dirs && 2 * |s.pages| <= |m2.free| {
      KStepsKeep(m1, ops, SavedFrames(s.pages));
      RecordsSurvive(m1, m2, m0.tree, d, UTEXT_PN, s.pages);
      ResumeGoes(m2, m0.tree, d, s, tf);
      SnapshotRoundTrip(m0, d, tf0, ops, m2, tf, v);
    }
  }

  // Resume succeeds, and page v of d and the registers are what they were in m0.
  ghost predicate Restored(m0: Mem, d: int, tf0: TrapFrame, s: Snapshot, m2: Mem, tf: TrapFrame, v: int) {
    var (m3, tf3, rc) := Resume(m2, d, s, tf);
    var e, e' := Xlate(m0.tree, d, v), Xlate(m3.tree, d, v);
    && rc == Ok && Present(e') && PteFlags(e') == PteFlags(e)
    && Content(m3.tree, PteFrame(e')) == Content(m0.tree, PteFrame(e))
    && tf3 == TrapFrame(tf0.regs, tf0.eip, tf0.esp, tf0.eflags, tf.rest)
  }
}
