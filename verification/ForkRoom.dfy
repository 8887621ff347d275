/** fork() succeeds when there is room: enough free pages, and reference counts that cannot overflow. */
module ForkRoom {
  import opened Mmu
  import opened Phys
  import opened Vm
  import opened Syscalls
  import opened EnvVm
  import opened Cow
  import opened Refine

  // ---------------------------------------------------------------- counts

  // The pages of space d from pn on that fork still has to copy, and that are in frame i
  ghost function Pending(t: Tree, d: int, pn: int, last: int, i: int): set<int> {
    set v | pn <= v < UTOP_PN && (v < last || v == USTACK_PN) && Present(Xlate(t, d, v))
      && PteFrame(Xlate(t, d, v)) == i
  }

  ghost predicate CountFits(m: Mem, d: int, pn: int, last: int, i: int) {
    var pages := Pending(m.tree, d, pn, last, i);
    pages != {} ==> Info(m, i).refs + |pages| < MAX_REF
  }

  /** The count of every frame that is to be copied can grow by the number of pages that map it
      without reaching the limit of a 16-bit count. */
  ghost predicate Slack(m: Mem, d: int, pn: int, last: int) {
    forall i {:trigger Pending(m.tree, d, pn, last, i)} :: CountFits(m, d, pn, last, i)
  }

  lemma CountIs(m: Mem, i: int)
    requires Inv(m) && 0 <= i < |m.pages|
    ensures Info(m, i).refs == |Refs(m.tree, i)| + At(m.pins, i)
  {
    assert Counted(m.pages, m.tree, m.pins, i);
  }

  lemma SubsetSize<T>(r: set<T>, r': set<T>)
    requires r' <= r
    ensures |r'| <= |r|
  {
    assert r == r' + (r - r');
  }

  // What an insertion does to the count of a frame in use
  lemma InsertCount(m: Mem, d: int, p: int, v: int, perm: int, i: int)
    requires Inv(m) && UserPage(m.tree, d, v) && Plain(m.tree, p) && p !in m.free && IsFlags(perm)
    requires Insert(m, d, p, v, perm).1 == Ok && 0 <= i < |m.pages| && (HasTable(m.tree, d, v) || i !in m.free)
    ensures var m', s := Insert(m, d, p, v, perm).0, InsertSlot(m, d, v);
      Info(m', i).refs <= Info(m, i).refs + (if i == p && s !in Refs(m.tree, p) then 1 else 0)
  {
    InsertSpec(m, d, p, v, perm);
    InsertRefs(m, d, p, v, perm);
    var m', s := Insert(m, d, p, v, perm).0, InsertSlot(m, d, v);
    CountIs(m, i);
    CountIs(m', i);
    if i == p {
      assert s in Refs(m.tree, p) ==> Refs(m.tree, p) + {s} == Refs(m.tree, p);
    } else {
      SubsetSize(Refs(m.tree, i), Refs(m.tree, i) - {s});
    }
  }

  // An insertion takes a page from the free list only for a page table.
  lemma InsertFree(m: Mem, d: int, p: int, v: int, perm: int)
    requires Inv(m) && UserPage(m.tree, d, v) && Plain(m.tree, p) && p !in m.free && IsFlags(perm)
    ensures var m' := Insert(m, d, p, v, perm).0;
      |m'.free| >= |m.free| - (if HasTable(m.tree, d, v) then 0 else 1)
  {
    if HasTable(m.tree, d, v) || m.free != [] {
      WalkSpec(m, d, v);
      var m1 := Walk(m, d, v);
      PinKeeps(m1, p);
      ReplaceFree(Pin(m1, p), d, p, v, perm);
    }
  }

  lemma ReplaceFree(m: Mem, d: int, p: int, v: int, perm: int)
    requires Inv(m) && UserPage(m.tree, d, v) && HasTable(m.tree, d, v)
    requires Plain(m.tree, p) && p !in m.free && At(m.pins, p) > 0 && IsFlags(perm)
    ensures |Replace(m, d, p, v, perm).free| >= |m.free|
  {
    if Present(Xlate(m.tree, d, v)) {
      UnmapSpec(m, d, v);
    }
  }

  // Page tables once there stay there.
  lemma WalkTables(m: Mem, d: int, v: int, d': int, v': int)
    requires Inv(m) && UserPage(m.tree, d, v) && UserPage(m.tree, d', v') && (HasTable(m.tree, d, v) || m.free != [])
    requires HasTable(m.tree, d', v') || (d' == d && Pdx(v') == Pdx(v))
    ensures HasTable(Walk(m, d, v).tree, d', v')
  {
    if !HasTable(m.tree, d, v) {
      FreeUnreferenced(m, m.free[0]);
      MkPteParts(m.free[0], PTE_P + PTE_W + PTE_U);
    }
  }

  lemma InsertTables(m: Mem, d: int, p: int, v: int, perm: int, d': int, v': int)
    requires Inv(m) && UserPage(m.tree, d, v) && UserPage(m.tree, d', v') && Plain(m.tree, p) && p !in m.free
      && IsFlags(perm)
    requires Insert(m, d, p, v, perm).1 == Ok && (HasTable(m.tree, d', v') || (d' == d && Pdx(v') == Pdx(v)))
    ensures HasTable(Insert(m, d, p, v, perm).0.tree, d', v')
  {
    WalkSpec(m, d, v);
    WalkTables(m, d, v, d', v');
    InsertInto(Walk(m, d, v), d, p, v, perm);
    KeepsTables(Walk(m, d, v).tree, Insert(m, d, p, v, perm).0.tree, d', v');
  }

  lemma KeepsTables(t: Tree, t': Tree, d: int, v: int)
    requires TreeOk(t) && KeepsPlain(t, t') && UserPage(t, d, v) && HasTable(t, d, v)
    ensures HasTable(t', d, v)
  {
    assert Content(t', d) == Content(t, d);
  }

  // ---------------------------------------------------------------- sys_page_map with room

  // From m to m' a mapping of q has been added at (d, v): it has taken a page if there was no page
  // table, and counts have not grown but q's.
  ghost predicate Gone(m: Mem, m': Mem, d: int, v: int, q: int) {
    && Inv(m') && m'.tree.dirs == m.tree.dirs && |m'.pages| == |m.pages| && HasTable(m'.tree, d, v)
    && |m'.free| >= |m.free| - (if HasTable(m.tree, d, v) then 0 else 1)
    && forall i {:trigger Info(m', i)} :: 0 <= i < |m.pages| && i !in m.free ==>
         Info(m', i).refs <= Info(m, i).refs + (if i == q then 1 else 0)
  }

  lemma InsertGoes(m: Mem, d: int, q: int, v: int, perm: int)
    requires Inv(m) && UserPage(m.tree, d, v) && Plain(m.tree, q) && q !in m.free && IsFlags(perm)
    requires Info(m, q).refs < MAX_REF && (HasTable(m.tree, d, v) || m.free != [])
    ensures var (m', rc) := Insert(m, d, q, v, perm); rc == Ok && Gone(m, m', d, v, q)
  {
    WalkSpec(m, d, v);
    var m' := Insert(m, d, q, v, perm).0;
    InsertSpec(m, d, q, v, perm);
    InsertFree(m, d, q, v, perm);
    InsertTables(m, d, q, v, perm, d, v);
    forall i | 0 <= i < |m.pages| && i !in m.free
      ensures Info(m', i).refs <= Info(m, i).refs + (if i == q then 1 else 0)
    {
      InsertCount(m, d, q, v, perm, i);
    }
  }

  lemma MapGoes(m: Mem, sd: int, sv: int, dd: int, dv: int, perm: int, q: int)
    requires Inv(m) && UserPage(m.tree, sd, sv) && UserPage(m.tree, dd, dv) && Present(Xlate(m.tree, sd, sv))
    requires GoodPerm(perm) && !HasW(perm) && q == PteFrame(Xlate(m.tree, sd, sv)) && Info(m, q).refs < MAX_REF
    requires HasTable(m.tree, dd, dv) || m.free != []
    ensures var (m', rc) := SysPageMap(m, sd, sv, dd, dv, perm); rc == Ok && Gone(m, m', dd, dv, q)
  {
    XlateTarget(m, sd, sv);
    GoodPermFlags(perm);
    InsertGoes(m, dd, q, dv, perm);
  }

  // Re-inserting a page at its own address changes no count and takes no page.
  lemma RemapGoes(m: Mem, d: int, v: int, perm: int, q: int, d': int, v': int)
    requires Inv(m) && UserPage(m.tree, d, v) && Present(Xlate(m.tree, d, v)) && UserPage(m.tree, d', v')
      && HasTable(m.tree, d', v')
    requires GoodPerm(perm) && !HasW(perm) && q == PteFrame(Xlate(m.tree, d, v)) && Info(m, q).refs < MAX_REF
    ensures var (m', rc) := SysPageMap(m, d, v, d, v, perm);
      && rc == Ok && Inv(m') && m'.tree.dirs == m.tree.dirs && |m'.pages| == |m.pages| && |m'.free| >= |m.free|
      && HasTable(m'.tree, d', v')
      && (forall i {:trigger Info(m', i)} :: 0 <= i < |m.pages| ==> Info(m', i).refs <= Info(m, i).refs)
  {
    XlateTarget(m, d, v);
    GoodPermFlags(perm);
    InsertGoes(m, d, q, v, perm);
    InsertTables(m, d, q, v, perm, d', v');
    var m' := Insert(m, d, q, v, perm).0;
    forall i | 0 <= i < |m.pages| ensures Info(m', i).refs <= Info(m, i).refs {
      InsertCount(m, d, q, v, perm, i);
    }
  }

  // ---------------------------------------------------------------- duppage with room

  // A page that duppage can pass on: absent, writable, copy-on-write, or read-only with flags that
  // sys_page_map takes.
  ghost predicate Passable(t: Tree, d: int, v: int) {
    var e := Xlate(t, d, v);
    Present(e) ==> W(e) || C(e) || GoodPerm(PteFlags(e))
  }

  ghost predicate AllPassable(t: Tree, d: int, lo: int, hi: int) {
    forall v {:trigger Passable(t, d, v)} :: lo <= v < hi ==> Passable(t, d, v)
  }

  lemma DupGoes(m: Mem, pd: int, cd: int, pn: int, q: int)
    requires Inv(m) && CowOk(m.tree) && UserPage(m.tree, pd, pn) && UserPage(m.tree, cd, pn) && pd != cd
    requires Present(Xlate(m.tree, pd, pn)) && Passable(m.tree, pd, pn) && q == PteFrame(Xlate(m.tree, pd, pn))
    requires Info(m, q).refs + 1 < MAX_REF && (HasTable(m.tree, cd, pn) || m.free != [])
    ensures var (m', rc) := Dup(m, pd, cd, pn); rc == Ok && Gone(m, m', cd, pn, q)
  {
    var e := Xlate(m.tree, pd, pn);
    PermBits(q);
    if W(e) || C(e) {
      DupSharedGoes(m, pd, cd, pn, PERM_COW, q);
    } else {
      MapGoes(m, pd, pn, cd, pn, PteFlags(e), q);
    }
  }

  lemma DupSharedGoes(m: Mem, pd: int, cd: int, pn: int, perm: int, q: int)
    requires Inv(m) && UserPage(m.tree, pd, pn) && UserPage(m.tree, cd, pn) && pd != cd
    requires Present(Xlate(m.tree, pd, pn)) && GoodPerm(perm) && !HasW(perm) && q == PteFrame(Xlate(m.tree, pd, pn))
    requires Info(m, q).refs + 1 < MAX_REF && (HasTable(m.tree, cd, pn) || m.free != [])
    ensures var (m1, rc1) := SysPageMap(m, pd, pn, cd, pn, perm);
      && rc1 == Ok
      && var (m2, rc2) := SysPageMap(m1, pd, pn, pd, pn, perm); rc2 == Ok && Gone(m, m2, cd, pn, q)
  {
    XlateTarget(m, pd, pn);
    MapGoes(m, pd, pn, cd, pn, perm, q);
    SysPageMapSpec(m, pd, pn, cd, pn, perm);
    var m1 := SysPageMap(m, pd, pn, cd, pn, perm).0;
    assert Xlate(m1.tree, pd, pn) == Xlate(m.tree, pd, pn);
    RemapGoes(m1, pd, pn, perm, q, cd, pn);
  }

  // ---------------------------------------------------------------- the loop with room

  // How many page tables the child still needs for pages pn to last
  ghost function TablesNeeded(t: Tree, cd: int, pn: int, last: int): int {
    if pn >= last then 0 else Pdx(last - 1) + 1 - Pdx(pn) - (if HasTable(t, cd, pn) then 1 else 0)
  }

  lemma PendingStep(t: Tree, t1: Tree, pd: int, cd: int, pn: int, last: int, i: int)
    requires pd in t.dirs && 0 <= pn < last <= USTACK_PN && XlateOutside(t, t1, pd, cd, pn, pn + 1)
    ensures Pending(t1, pd, pn + 1, last, i) == Pending(t, pd, pn, last, i) - {pn}
  {
    forall v | pn + 1 <= v < UTOP_PN ensures Xlate(t1, pd, v) == Xlate(t, pd, v) {
      assert UserPage(t, pd, v);
    }
  }

  lemma PendingUsed(m: Mem, d: int, pn: int, last: int, i: int)
    requires Inv(m) && d in m.tree.dirs && 0 <= pn && Pending(m.tree, d, pn, last, i) != {}
    ensures 0 <= i < |m.pages| && i !in m.free
  {
    var v :| v in Pending(m.tree, d, pn, last, i);
    XlateTarget(m, d, v);
  }

  // A page copied, or no page: one page fewer to come
  lemma SlackStep(m: Mem, m1: Mem, pd: int, cd: int, pn: int, last: int)
    requires Inv(m) && pd in m.tree.dirs && 0 <= pn < last <= USTACK_PN
      && XlateOutside(m.tree, m1.tree, pd, cd, pn, pn + 1)
    requires Slack(m, pd, pn, last) && (Present(Xlate(m.tree, pd, pn)) || m1 == m)
    requires forall i {:trigger Info(m1, i)} :: 0 <= i < |m.pages| && i !in m.free ==>
      Info(m1, i).refs <= Info(m, i).refs + (if i == PteFrame(Xlate(m.tree, pd, pn)) && m1 != m then 1 else 0)
    ensures Slack(m1, pd, pn + 1, last)
  {
    var next := pn + 1;
    forall i ensures CountFits(m1, pd, next, last, i) {
      assert CountFits(m, pd, pn, last, i);
      SlackStepAt(m, m1, pd, cd, pn, last, i);
    }
  }

  lemma SlackStepAt(m: Mem, m1: Mem, pd: int, cd: int, pn: int, last: int, i: int)
    requires Inv(m) && pd in m.tree.dirs && 0 <= pn < last <= USTACK_PN
      && XlateOutside(m.tree, m1.tree, pd, cd, pn, pn + 1)
    requires CountFits(m, pd, pn, last, i) && (Present(Xlate(m.tree, pd, pn)) || m1 == m)
    requires 0 <= i < |m.pages| && i !in m.free ==>
      Info(m1, i).refs <= Info(m, i).refs + (if i == PteFrame(Xlate(m.tree, pd, pn)) && m1 != m then 1 else 0)
    ensures CountFits(m1, pd, pn + 1, last, i)
  {
    var before, after := Pending(m.tree, pd, pn, last, i), Pending(m1.tree, pd, pn + 1, last, i);
    PendingStep(m.tree, m1.tree, pd, cd, pn, last, i);
    if after != {} {
      PendingUsed(m, pd, pn, last, i);
      SubsetSize(before, after);
      if i == PteFrame(Xlate(m.tree, pd, pn)) && m1 != m {
        assert pn in before && before == after + {pn};
      }
    }
  }

  lemma TablesStep(t: Tree, t1: Tree, cd: int, pn: int, last: int)
    requires 0 <= pn < last && (HasTable(t1, cd, pn) || !HasTable(t, cd, pn))
    requires HasTable(t, cd, pn) ==> HasTable(t1, cd, pn)
    ensures TablesNeeded(t1, cd, pn + 1, last) <=
      TablesNeeded(t, cd, pn, last) - (if HasTable(t1, cd, pn) && !HasTable(t, cd, pn) then 1 else 0)
    ensures !HasTable(t, cd, pn) ==> TablesNeeded(t, cd, pn, last) >= 1
  {
  }

  // One turn of fork's loop, with `spare` pages for what comes after the loop
  lemma TurnGoes(m: Mem, pd: int, cd: int, pn: int, last: int, spare: nat)
    requires Inv(m) && CowOk(m.tree) && pd in m.tree.dirs && cd in m.tree.dirs && pd != cd
      && 0 <= pn < last <= USTACK_PN
    requires AllPassable(m.tree, pd, pn, last) && Slack(m, pd, pn, last)
      && |m.free| >= TablesNeeded(m.tree, cd, pn, last) + spare
    requires Unmapped(m.tree, cd, pn, last)
    ensures var (m1, rc) := DupMapped(m, pd, cd, pn);
      && rc == Ok && Slack(m1, pd, pn + 1, last) && |m1.free| >= TablesNeeded(m1.tree, cd, pn + 1, last) + spare
  {
    DupOne(m, pd, cd, pn, last);
    var m1 := DupMapped(m, pd, cd, pn).0;
    assert Passable(m.tree, pd, pn);
    if Present(Xlate(m.tree, pd, pn)) {
      PageGoes(m, pd, cd, pn, last, PteFrame(Xlate(m.tree, pd, pn)), spare);
    }
    TablesStep(m.tree, m1.tree, cd, pn, last);
    SlackStep(m, m1, pd, cd, pn, last);
  }

  lemma PageGoes(m: Mem, pd: int, cd: int, pn: int, last: int, q: int, spare: nat)
    requires Inv(m) && CowOk(m.tree) && pd in m.tree.dirs && cd in m.tree.dirs && pd != cd && 0 <= pn < UTOP_PN
    requires pn < last || pn == USTACK_PN
    requires Present(Xlate(m.tree, pd, pn)) && q == PteFrame(Xlate(m.tree, pd, pn)) && Passable(m.tree, pd, pn)
      && Slack(m, pd, pn, last)
    requires HasTable(m.tree, cd, pn) || m.free != []
    ensures var (m1, rc) := Dup(m, pd, cd, pn); rc == Ok && Gone(m, m1, cd, pn, q)
  {
    var pages := Pending(m.tree, pd, pn, last, q);
    assert pn in pages && CountFits(m, pd, pn, last, q);
    SubsetSize(pages, {pn});
    DupGoes(m, pd, cd, pn, q);
  }

  lemma StillPassable(t: Tree, t1: Tree, pd: int, cd: int, pn: int, last: int)
    requires pd in t.dirs && 0 <= pn < last <= UTOP_PN && AllPassable(t, pd, pn, last)
      && XlateOutside(t, t1, pd, cd, pn, pn + 1)
    ensures AllPassable(t1, pd, pn + 1, last)
  {
    forall v | pn + 1 <= v < last ensures Passable(t1, pd, v) {
      assert UserPage(t, pd, v);
      assert Xlate(t1, pd, v) == Xlate(t, pd, v);
      assert Passable(t, pd, v);
    }
  }

  // ---------------------------------------------------------------- the whole address space

  // What fork needs of the parent's address space
  ghost predicate Forkable(t: Tree, d: int, last: int) {
    AllPassable(t, d, UTEXT_PN, last) && Present(Xlate(t, d, USTACK_PN)) && Passable(t, d, USTACK_PN)
  }

  // The page tables for the image of a new child
  function ImageTables(last: int): int { if last <= UTEXT_PN then 0 else Pdx(last - 1) + 1 - Pdx(UTEXT_PN) }

  // Between the image and the stack there is nothing to copy.
  lemma SlackAt(m: Mem, d: int, last: int)
    requires Slack(m, d, last, last) && last <= USTACK_PN
    ensures Slack(m, d, USTACK_PN, last)
  {
    forall i ensures CountFits(m, d, USTACK_PN, last, i) {
      assert Pending(m.tree, d, USTACK_PN, last, i) == Pending(m.tree, d, last, last, i);
      assert CountFits(m, d, last, last, i);
    }
  }

  // ---------------------------------------------------------------- a fork by itself

  // The next step of fork() by environment e
  ghost predicate Next(w: World, w1: World, e: int, kern: Frame, last: int) {
    w1 == Step(w, Fork(e), kern, last).0
  }

  ghost predicate NextAt(ws: seq<World>, i: int, e: int, kern: Frame, last: int) {
    0 <= i < |ws| - 1 ==> Next(ws[i], ws[i + 1], e, kern, last)
  }

  // The worlds ws are those that fork() by environment e goes through with nothing in between.
  ghost predicate ByItself(ws: seq<World>, e: int, kern: Frame, last: int) {
    forall i :: NextAt(ws, i, e, kern, last)
  }

  ghost predicate Acting(w: World, e: int, last: int) {
    WorldOk(w, last) && !w.halted && 0 <= e < |w.procs| && w.procs[e].started && UTEXT_PN <= last <= USTACK_PN
  }

  lemma NextOk(w: World, w1: World, e: int, kern: Frame, last: int)
    requires Acting(w, e, last) && Next(w, w1, e, kern, last)
    ensures Refined(w, w1, ForkStep(w, e, kern, last).1, e, last)
  {
    ForkRefines(w, e, kern, last);
  }

  // The rest of the image, and the stack, can be copied, with `spare` pages left.
  ghost predicate RoomFor(m: Mem, pd: int, cd: int, next: int, last: int, spare: int) {
    && AllPassable(m.tree, pd, next, last) && Present(Xlate(m.tree, pd, USTACK_PN)) && Passable(m.tree, pd, USTACK_PN)
    && Slack(m, pd, next, last) && |m.free| >= TablesNeeded(m.tree, cd, next, last) + spare
  }

  lemma TurnRoom(m: Mem, pd: int, cd: int, pn: int, last: int, spare: nat)
    requires Inv(m) && CowOk(m.tree) && pd in m.tree.dirs && cd in m.tree.dirs && pd != cd
      && 0 <= pn < last <= USTACK_PN
    requires RoomFor(m, pd, cd, pn, last, spare) && Unmapped(m.tree, cd, pn, last)
    ensures DupMapped(m, pd, cd, pn).1 == Ok && RoomFor(DupMapped(m, pd, cd, pn).0, pd, cd, pn + 1, last, spare)
  {
    TurnGoes(m, pd, cd, pn, last, spare);
    DupOne(m, pd, cd, pn, last);
    var m1 := DupMapped(m, pd, cd, pn).0;
    StillPassable(m.tree, m1.tree, pd, cd, pn, last);
    assert UserPage(m.tree, pd, USTACK_PN);
    assert Xlate(m1.tree, pd, USTACK_PN) == Xlate(m.tree, pd, USTACK_PN);
  }

  // One turn of the loop
  ghost predicate Turned(w: World, w1: World, e: int, cd: int, next: int, last: int, spare: int) {
    && Acting(w1, e, last) && Abs(w1, last) == Abs(w, last) && |w1.procs| == |w.procs|
    && w1.procs[e] == w.procs[e].(fork := Copying(cd, next)) && RoomFor(w1.m, w1.procs[e].dir, cd, next, last, spare)
  }

  lemma PageNext(ws: seq<World>, i: nat, e: int, cd: int, next: int, kern: Frame, last: int, spare: nat)
    requires ByItself(ws, e, kern, last) && i + 1 < |ws| && Acting(ws[i], e, last)
    requires ws[i].procs[e].fork == Copying(cd, next) && next < last
      && RoomFor(ws[i].m, ws[i].procs[e].dir, cd, next, last, spare)
    ensures Turned(ws[i], ws[i + 1], e, cd, next + 1, last, spare)
  {
    var w := ws[i];
    assert NextAt(ws, i, e, kern, last);
    assert ProcOk(w.m.tree, w.procs, e, last);
    TurnRoom(w.m, w.procs[e].dir, cd, next, last, spare);
    NextOk(w, ws[i + 1], e, kern, last);
  }

  lemma TurnedTwice(w: World, w1: World, w2: World, e: int, cd: int, next: int, last: int, spare: int)
    requires 0 <= e < |w.procs| && Turned(w, w1, e, cd, next, last, spare) && Turned(w1, w2, e, cd, last, last, spare)
    ensures Turned(w, w2, e, cd, last, last, spare)
  {
  }

  // The loop over the image
  lemma {:induction false} LoopAlone(ws: seq<World>, i: nat, k: nat, e: int, cd: int, next: int, kern: Frame,
          last: int, spare: nat)
    requires ByItself(ws, e, kern, last) && next <= last && k == i + (last - next) < |ws|
    requires Acting(ws[i], e, last) && ws[i].procs[e].fork == Copying(cd, next)
    requires RoomFor(ws[i].m, ws[i].procs[e].dir, cd, next, last, spare)
    ensures Turned(ws[i], ws[k], e, cd, last, last, spare)
    decreases last - next
  {
    if next < last {
      PageNext(ws, i, e, cd, next, kern, last, spare);
      LoopAlone(ws, i + 1, k, e, cd, next + 1, kern, last, spare);
      TurnedTwice(ws[i], ws[i + 1], ws[k], e, cd, next + 1, last, spare);
    }
  }

  lemma StackNext(ws: seq<World>, i: nat, e: int, cd: int, kern: Frame, last: int)
    requires ByItself(ws, e, kern, last) && i + 1 < |ws| && Acting(ws[i], e, last)
    requires ws[i].procs[e].fork == Copying(cd, last) && RoomFor(ws[i].m, ws[i].procs[e].dir, cd, last, last, 2)
    ensures var w, w1, c := ws[i], ws[i + 1], |ws[i].procs|;
      && |w1.procs| == c + 1 && w1.procs[c] == Proc(cd, true, false, Idle)
        && w1.procs[e] == w.procs[e].(fork := Mapped(c))
      && Acting(w1, e, last) && Abs(w1, last) == Abs(w, last) + [Abs(w, last)[e]]
      && HasTable(w1.m.tree, cd, UXSTACK_PN) && w1.m.free != []
  {
    var w, d := ws[i], ws[i].procs[e].dir;
    assert NextAt(ws, i, e, kern, last);
    assert ProcOk(w.m.tree, w.procs, e, last);
    SlackAt(w.m, d, last);
    PageGoes(w.m, d, cd, USTACK_PN, last, PteFrame(Xlate(w.m.tree, d, USTACK_PN)), 1);
    NextOk(w, ws[i + 1], e, kern, last);
    StackTable(ws[i + 1].m.tree, cd);
  }

  lemma XStackNext(ws: seq<World>, i: nat, e: int, c: int, cd: int, kern: Frame, last: int)
    requires ByItself(ws, e, kern, last) && i + 1 < |ws| && Acting(ws[i], e, last)
    requires ws[i].procs[e].fork == Mapped(c) && 0 <= c < |ws[i].procs| && c != e
      && ws[i].procs[c] == Proc(cd, true, false, Idle)
    requires HasTable(ws[i].m.tree, cd, UXSTACK_PN) && ws[i].m.free != []
    ensures var w, w1 := ws[i], ws[i + 1];
      && |w1.procs| == |w.procs| && w1.procs[c] == w.procs[c] && w1.procs[e] == w.procs[e].(fork := Ready(c))
      && Acting(w1, e, last) && Abs(w1, last) == Abs(w, last)
  {
    assert NextAt(ws, i, e, kern, last);
    PermBits(0);
    SysPageAllocSpec(ws[i].m, cd, UXSTACK_PN, PERM_RW);
    NextOk(ws[i], ws[i + 1], e, kern, last);
  }

  lemma StartNext(ws: seq<World>, i: nat, e: int, c: int, kern: Frame, last: int)
    requires ByItself(ws, e, kern, last) && i + 1 < |ws| && Acting(ws[i], e, last)
    requires ws[i].procs[e].fork == Ready(c) && 0 <= c < |ws[i].procs| && c != e
    ensures var w, w1 := ws[i], ws[i + 1];
      && |w1.procs| == |w.procs| && w1.procs[c] == w.procs[c].(started := true)
        && w1.procs[e] == w.procs[e].(fork := Idle)
      && Acting(w1, e, last) && Abs(w1, last) == Abs(w, last)
  {
    assert NextAt(ws, i, e, kern, last);
    NextOk(ws[i], ws[i + 1], e, kern, last);
  }

  // What fork() has made of w: a new environment with the pages of e
  ghost predicate HasForked(w: World, w': World, e: int, last: int) {
    && 0 <= e < |w.procs| && Acting(w', e, last) && |w'.procs| == |w.procs| + 1
    && w'.procs[|w.procs|].started && w'.procs[|w.procs|].fork == Idle && w'.procs[e].fork == Idle
    && Abs(w', last) == Abs(w, last) + [Abs(w, last)[e]]
  }

  // The stack, the child's exception stack, and its start
  lemma TailAlone(ws: seq<World>, i: nat, e: int, cd: int, kern: Frame, last: int)
    requires ByItself(ws, e, kern, last) && i + 3 < |ws| && Acting(ws[i], e, last)
    requires ws[i].procs[e].fork == Copying(cd, last) && RoomFor(ws[i].m, ws[i].procs[e].dir, cd, last, last, 2)
    ensures HasForked(ws[i], ws[i + 3], e, last)
  {
    var c := |ws[i].procs|;
    StackNext(ws, i, e, cd, kern, last);
    XStackNext(ws, i + 1, e, c, cd, kern, last);
    StartNext(ws, i + 2, e, c, kern, last);
  }

  lemma CopyAlone(ws: seq<World>, i: nat, e: int, cd: int, kern: Frame, last: int)
    requires ByItself(ws, e, kern, last) && UTEXT_PN <= last && i + (last - UTEXT_PN) + 3 < |ws|
    requires Acting(ws[i], e, last) && ws[i].procs[e].fork == Copying(cd, UTEXT_PN)
    requires RoomFor(ws[i].m, ws[i].procs[e].dir, cd, UTEXT_PN, last, 2)
    ensures HasForked(ws[i], ws[i + (last - UTEXT_PN) + 3], e, last)
  {
    var k := i + (last - UTEXT_PN);
    LoopAlone(ws, i, k, e, cd, UTEXT_PN, kern, last, 2);
    TailAlone(ws, k, e, cd, kern, last);
    assert |ws[k].procs| == |ws[i].procs|;
  }

  // ---------------------------------------------------------------- fork goes through

  lemma SlackKept(m: Mem, m1: Mem, d: int, pn: int, last: int)
    requires Inv(m) && d in m.tree.dirs && 0 <= pn && Slack(m, d, pn, last)
    requires forall v {:trigger Xlate(m1.tree, d, v)} :: PnOk(v) && (v < last || v == USTACK_PN) ==>
      Xlate(m1.tree, d, v) == Xlate(m.tree, d, v)
    requires forall i {:trigger Info(m1, i)} :: 0 <= i < |m.pages| && i !in m.free ==>
      Info(m1, i).refs <= Info(m, i).refs
    ensures Slack(m1, d, pn, last)
  {
    forall i ensures CountFits(m1, d, pn, last, i) {
      SlackKeptAt(m, m1, d, pn, last, i);
    }
  }

  lemma SlackKeptAt(m: Mem, m1: Mem, d: int, pn: int, last: int, i: int)
    requires Inv(m) && d in m.tree.dirs && 0 <= pn && CountFits(m, d, pn, last, i)
    requires forall v {:trigger Xlate(m1.tree, d, v)} :: PnOk(v) && (v < last || v == USTACK_PN) ==>
      Xlate(m1.tree, d, v) == Xlate(m.tree, d, v)
    requires 0 <= i < |m.pages| && i !in m.free ==> Info(m1, i).refs <= Info(m, i).refs
    ensures CountFits(m1, d, pn, last, i)
  {
    assert Pending(m1.tree, d, pn, last, i) == Pending(m.tree, d, pn, last, i);
    if Pending(m.tree, d, pn, last, i) != {} {
      PendingUsed(m, d, pn, last, i);
    }
  }

  lemma SameForkable(t: Tree, t': Tree, d: int, last: int)
    requires Forkable(t, d, last) && forall v {:trigger Xlate(t', d, v)} :: Image(v, last) ==>
      Xlate(t', d, v) == Xlate(t, d, v)
    ensures Forkable(t', d, last)
  {
    forall v | UTEXT_PN <= v < last || v == USTACK_PN ensures Passable(t', d, v) {
      assert Image(v, last) && Passable(t, d, v);
      assert Xlate(t', d, v) == Xlate(t, d, v);
    }
    assert Xlate(t', d, USTACK_PN) == Xlate(t, d, USTACK_PN);
  }

  // sys_page_alloc changes the count of no page in use.
  lemma AllocCounts(m: Mem, d: int, v: int, perm: int)
    requires Inv(m) && UserPage(m.tree, d, v) && GoodPerm(perm) && m.free != [] && SysPageAlloc(m, d, v, perm).1 == Ok
    ensures var m1 := SysPageAlloc(m, d, v, perm).0;
      forall i {:trigger Info(m1, i)} :: 0 <= i < |m.pages| && i !in m.free ==> Info(m1, i).refs <= Info(m, i).refs
  {
    AllocKeeps(m);
    GoodPermFlags(perm);
    var m1 := SysPageAlloc(m, d, v, perm).0;
    forall i | 0 <= i < |m.pages| && i !in m.free ensures Info(m1, i).refs <= Info(m, i).refs {
      InsertCount(Alloc(m), d, m.free[0], v, perm, i);
    }
  }

  lemma AllocTakes(m: Mem, d: int, v: int, perm: int)
    requires Inv(m) && UserPage(m.tree, d, v) && GoodPerm(perm) && m.free != [] && HasTable(m.tree, d, v)
    ensures var (m1, rc) := SysPageAlloc(m, d, v, perm); rc == Ok && |m1.free| >= |m.free| - 1
  {
    SysPageAllocSpec(m, d, v, perm);
    AllocKeeps(m);
    GoodPermFlags(perm);
    InsertFree(Alloc(m), d, m.free[0], v, perm);
  }

  // set_pgfault_handler needs one page at most: the stack's page table covers the exception stack.
  lemma HandlerGoes(ws: seq<World>, i: nat, w: World, w1: World, e: int, kern: Frame, last: int, spare: nat)
    requires Acting(w, e, last) && w.procs[e].fork == Idle && Forkable(w.m.tree, w.procs[e].dir, last)
    requires Slack(w.m, w.procs[e].dir, UTEXT_PN, last) && |w.m.free| >= spare + (if w.procs[e].handler then 0 else 1)
    requires ByItself(ws, e, kern, last) && i + 1 < |ws| && w == ws[i] && w1 == ws[i + 1]
    ensures
      && Acting(w1, e, last) && w1.procs[e] == w.procs[e].(handler := true, fork := Handled) && |w1.procs| == |w.procs|
      && Forkable(w1.m.tree, w1.procs[e].dir, last) && Slack(w1.m, w1.procs[e].dir, UTEXT_PN, last)
        && |w1.m.free| >= spare
      && Abs(w1, last) == Abs(w, last)
  {
    assert NextAt(ws, i, e, kern, last);
    NextOk(w, w1, e, kern, last);
    var d := w.procs[e].dir;
    if !w.procs[e].handler {
      XStackRoom(w.m, d, last);
    }
  }

  // The exception stack needs a page at most, and keeps the rest as it was.
  lemma XStackRoom(m: Mem, d: int, last: int)
    requires Inv(m) && CowOk(m.tree) && d in m.tree.dirs && Forkable(m.tree, d, last) && Slack(m, d, UTEXT_PN, last)
    requires UTEXT_PN <= last <= USTACK_PN && m.free != []
    ensures var (m1, rc) := SysPageAlloc(m, d, UXSTACK_PN, PERM_RW);
      rc == Ok && |m1.free| >= |m.free| - 1 && Forkable(m1.tree, d, last) && Slack(m1, d, UTEXT_PN, last)
  {
    PermBits(0);
    StackTable(m.tree, d);
    AllocTakes(m, d, UXSTACK_PN, PERM_RW);
    AllocCounts(m, d, UXSTACK_PN, PERM_RW);
    AllocPage(m, d, UXSTACK_PN);
    XStackKept(m, SysPageAlloc(m, d, UXSTACK_PN, PERM_RW).0, d, last);
  }

  // The page table of the stack covers the exception stack.
  lemma StackTable(t: Tree, d: int)
    ensures HasTable(t, d, UXSTACK_PN) == HasTable(t, d, USTACK_PN)
    ensures Present(Xlate(t, d, USTACK_PN)) ==> HasTable(t, d, USTACK_PN)
  {
    assert Pdx(USTACK_PN) == 954 && Pdx(UXSTACK_PN) == 954;
  }

  lemma XStackKept(m: Mem, m1: Mem, d: int, last: int)
    requires Inv(m) && d in m.tree.dirs && Forkable(m.tree, d, last) && Slack(m, d, UTEXT_PN, last)
      && UTEXT_PN <= last <= USTACK_PN
    requires XlateOutside(m.tree, m1.tree, d, d, UXSTACK_PN, UXSTACK_PN + 1)
    requires forall i {:trigger Info(m1, i)} :: 0 <= i < |m.pages| && i !in m.free ==>
      Info(m1, i).refs <= Info(m, i).refs
    ensures Forkable(m1.tree, d, last) && Slack(m1, d, UTEXT_PN, last)
  {
    forall v | PnOk(v) && v != UXSTACK_PN ensures Xlate(m1.tree, d, v) == Xlate(m.tree, d, v) {
      assert UserPage(m.tree, d, v);
    }
    SlackKept(m, m1, d, UTEXT_PN, last);
    SameForkable(m.tree, m1.tree, d, last);
  }

  lemma SetupCountsKept(m: Mem, kern: Frame)
    requires Inv(m) && m.free != []
    ensures var m1 := SetupVm(m, kern).0;
      forall i {:trigger Info(m1, i)} :: 0 <= i < |m.pages| && i !in m.free ==> Info(m1, i).refs <= Info(m, i).refs
  {
    SetupSpec(m, kern);
    var m1 := SetupVm(m, kern).0;
    forall i | 0 <= i < |m.pages| && i !in m.free ensures Info(m1, i).refs <= Info(m, i).refs {
      CountIs(m, i);
      CountIs(m1, i);
    }
  }

  lemma ExoforkGoes(ws: seq<World>, i: nat, w: World, w1: World, e: int, kern: Frame, last: int, spare: nat)
    requires Acting(w, e, last) && w.procs[e].fork == Handled && Forkable(w.m.tree, w.procs[e].dir, last)
    requires Slack(w.m, w.procs[e].dir, UTEXT_PN, last) && |w.m.free| >= spare + 1
    requires ByItself(ws, e, kern, last) && i + 1 < |ws| && w == ws[i] && w1 == ws[i + 1]
    ensures
      && Acting(w1, e, last) && w1.procs[e] == w.procs[e].(fork := Copying(w.m.free[0], UTEXT_PN))
        && |w1.procs| == |w.procs|
      && Forkable(w1.m.tree, w1.procs[e].dir, last) && Slack(w1.m, w1.procs[e].dir, UTEXT_PN, last)
        && |w1.m.free| >= spare
      && Abs(w1, last) == Abs(w, last)
  {
    assert NextAt(ws, i, e, kern, last);
    NextOk(w, w1, e, kern, last);
    var d := w.procs[e].dir;
    SetupSpec(w.m, kern);
    SetupCountsKept(w.m, kern);
    forall v | PnOk(v) ensures Xlate(w1.m.tree, d, v) == Xlate(w.m.tree, d, v) {
      assert UserPage(w.m.tree, d, v);
    }
    SlackKept(w.m, w1.m, d, UTEXT_PN, last);
    SameForkable(w.m.tree, w1.m.tree, d, last);
  }

  // The free pages that fork() needs: the child's directory, its page tables, its exception stack
  // and, the first time, the parent's
  function ForkPages(handler: bool, last: int): int { ImageTables(last) + 3 + (if handler then 0 else 1) }

  // ... and the steps it takes
  function ForkSteps(last: int): nat
    requires last >= UTEXT_PN
  {
    last - UTEXT_PN + 5
  }

  /** fork() goes through, and the child is there with the parent's pages, whenever the parent's pages
      can be passed on, its stack is mapped, there are enough free pages, and the count of every page
      has room for one more reference for each time it is mapped. */
  lemma ForkGoesThrough(ws: seq<World>, e: int, kern: Frame, last: int)
    requires UTEXT_PN <= last && |ws| == ForkSteps(last) + 1 && ByItself(ws, e, kern, last)
    requires Acting(ws[0], e, last) && ws[0].procs[e].fork == Idle && Forkable(ws[0].m.tree, ws[0].procs[e].dir, last)
    requires Slack(ws[0].m, ws[0].procs[e].dir, UTEXT_PN, last)
      && |ws[0].m.free| >= ForkPages(ws[0].procs[e].handler, last)
    ensures HasForked(ws[0], ws[ForkSteps(last)], e, last)
  {
    HandlerGoes(ws, 0, ws[0], ws[1], e, kern, last, ImageTables(last) + 3);
    ExoforkGoes(ws, 1, ws[1], ws[2], e, kern, last, ImageTables(last) + 2);
    var cd := ws[2].procs[e].fork.cd;
    CopyAlone(ws, 2, e, cd, kern, last);
  }

  // ---------------------------------------------------------------- when the kernel halts

  // No page is free, or a page is mapped so often that its count has no room for a fork.
  ghost predicate Full(m: Mem) {
    m.free == [] || exists i {:trigger m.pages[i]} :: 0 <= i < |m.pages| && m.pages[i].refs + 1 >= MAX_REF
  }

  lemma DupHalts(m: Mem, pd: int, cd: int, pn: int)
    requires Inv(m) && CowOk(m.tree) && UserPage(m.tree, pd, pn) && UserPage(m.tree, cd, pn) && pd != cd
    ensures Dup(m, pd, cd, pn).1 == Halt ==> Full(m)
  {
    var e := Xlate(m.tree, pd, pn);
    XlateZeroOrPresent(m.tree, pd, pn);
    if Present(e) && Passable(m.tree, pd, pn) && m.free != [] {
      XlateTarget(m, pd, pn);
      if Info(m, PteFrame(e)).refs + 1 < MAX_REF {
        DupGoes(m, pd, cd, pn, PteFrame(e));
      } else {
        assert m.pages[PteFrame(e)].refs + 1 >= MAX_REF;
      }
    }
  }

  lemma ForkHalts(w: World, e: int, kern: Frame, last: int)
    requires WorldOk(w, last) && Able(w, e) && UTEXT_PN <= last <= USTACK_PN
    ensures ForkStep(w, e, kern, last).0.halted ==> Full(w.m)
  {
    var p := w.procs[e];
    assert ProcOk(w.m.tree, w.procs, e, last);
    match p.fork
    case Idle => SysPageAllocSpec(w.m, p.dir, UXSTACK_PN, PERM_RW);
    case Handled =>
    case Copying(cd, next) => DupHalts(w.m, p.dir, cd, if next < last then next else USTACK_PN);
    case Mapped(c) => SysPageAllocSpec(w.m, w.procs[c].dir, UXSTACK_PN, PERM_RW);
    case Ready(c) =>
  }

  /** A fork that fails, or a store that finds no memory, does not stop the kernel.  It stops, if at all,
      only for want of the last page or of room in a count; a load never stops it, and a store if and
      only if its fault finds a page table for PFTEMP and no free page. */
  lemma StepHalts(w: World, op: Op, kern: Frame, last: int)
    requires WorldOk(w, last) && Able(w, op.e) && UTEXT_PN <= last <= USTACK_PN && ValidOp(op, last)
    ensures var halts, d := Step(w, op, kern, last).0.halted, w.procs[op.e].dir;
      match op
      case Fork(e) => halts ==> Full(w.m)
      case Load(e, v, k) => !halts
      case Store(e, v, k, x) =>
        halts <==> (!CopiedAlready(w.procs[e].fork, v) && v in Abs(w, last)[e] && Abs(w, last)[e][v].writable
          && !W(Xlate(w.m.tree, d, v)) && HasTable(w.m.tree, d, PFTEMP_PN) && w.m.free == [])
  {
    match op
    case Fork(e) => ForkHalts(w, e, kern, last);
    case Load(e, v, k) =>
    case Store(e, v, k, x) =>
      var d := w.procs[e].dir;
      assert Abs(w, last)[e] == AbsSpace(w.m.tree, d, last);
      assert ProcOk(w.m.tree, w.procs, e, last);
      if Present(Xlate(w.m.tree, d, v)) && C(Xlate(w.m.tree, d, v)) {
        PgFaultOutcome(w.m, d, v);
      }
  }
}
