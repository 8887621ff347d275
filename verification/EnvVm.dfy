/** The life of an address space: env_setup_vm, env_flush_addr_space and the end of env_free. */
module EnvVm {
  import opened Mmu
  import opened Phys
  import opened Vm

  // ---------------------------------------------------------------- env_setup_vm

  // The new directory p: the kernel's entries from PDX(UTOP) on, one short of all of them, and
  // UVPT naming the directory itself
  ghost function DirContent(kern: Frame, p: int): (c: Frame)
    ensures |c| == NPTENTRIES
  {
    seq(NPTENTRIES, k => if k == UVPT_PDX then MkPte(p, PTE_P + PTE_U)
                         else if UTOP_PDX <= k < NPTENTRIES - 1 then At(kern, k) else 0)
  }

  ghost function SetupVm(m: Mem, kern: Frame): (Mem, Rc) {
    if m.free == [] then (m, NoMem)
    else
      var p := m.free[0];
      var m1 := Pin(Fill(Alloc(m), p, DirContent(kern, p)), p);
      (m1.(tree := m1.tree.(dirs := m1.tree.dirs + {p})), Ok)
  }

  // t' is t with frame p, which nobody refers to, as a directory with nothing below UTOP.
  ghost predicate DirAdded(t: Tree, t': Tree, p: int) {
    && TreeOk(t) && Plain(t, p) && Refs(t, p) == {}
    && |t'.frames| == |t.frames| && t'.dirs == t.dirs + {p} && t'.owner == t.owner
    && (forall i :: 0 <= i < |t.frames| ==> |t'.frames[i]| == NPTENTRIES)
    && (forall k :: 0 <= k < UTOP_PDX ==> Entry(t', p, k) == 0)
    && forall f, k {:trigger Entry(t', f, k)} :: f != p ==> Entry(t', f, k) == Entry(t, f, k)
  }

  lemma SetupPte(t: Tree, t': Tree, p: int, g: int, l: int)
    requires DirAdded(t, t', p) && g in t.owner && 0 <= l < NPTENTRIES
    ensures PteOk(t', g, l)
  {
    assert PteOk(t, g, l) && OwnerOk(t, g);
    if Entry(t, g, l) != 0 {
      assert (g, l) in Refs(t, PteFrame(Entry(t, g, l)));
    }
  }

  lemma SetupTree(t: Tree, t': Tree, p: int)
    requires DirAdded(t, t', p)
    ensures TreeOk(t') && forall i :: Refs(t', i) == Refs(t, i)
  {
    forall g, l | g in t.owner && 0 <= l < NPTENTRIES ensures PteOk(t', g, l) {
      SetupPte(t, t', p, g, l);
    }
    forall d, l | d in t'.dirs && 0 <= l < UTOP_PDX ensures PdeOk(t', d, l) {
      assert d != p ==> PdeOk(t, d, l);
    }
    forall g | g in t.owner ensures OwnerOk(t', g) {
      assert OwnerOk(t, g);
    }
    assert forall f, k :: Slot(t', f, k) == Slot(t, f, k);
  }

  lemma SetupXlate(t: Tree, t': Tree, p: int, d: int, v: int)
    requires DirAdded(t, t', p) && PnOk(v)
    ensures d == p ==> Xlate(t', d, v) == 0
    ensures d in t.dirs ==> Xlate(t', d, v) == Xlate(t, d, v)
  {
    assert 0 <= Pdx(v) < UTOP_PDX;
    if d in t.dirs && HasTable(t, d, v) {
      TableOk(t, d, v);
    }
  }

  /** env_setup_vm: an empty address space in the first free page, and nothing else changes. */
  lemma SetupSpec(m: Mem, kern: Frame)
    requires Inv(m) && m.free != []
    ensures var m', p := SetupVm(m, kern).0, m.free[0];
      && Inv(m') && m'.free == m.free[1..] && m'.tree.dirs == m.tree.dirs + {p} && p !in m.tree.dirs
      && (forall v :: PnOk(v) ==> Xlate(m'.tree, p, v) == 0)
      && (forall d, v :: UserPage(m.tree, d, v) ==> Xlate(m'.tree, d, v) == Xlate(m.tree, d, v))
      && KeepsFrames(m, m') && m'.tree.owner == m.tree.owner
      && (forall i :: Refs(m'.tree, i) == Refs(m.tree, i)) && m'.pins == Upd(m.pins, p, 1)
  {
    var p := m.free[0];
    AllocKeeps(m);
    var m1 := Alloc(m);
    var content := DirContent(kern, p);
    FillKeeps(m1, p, content);
    var m2 := Fill(m1, p, content);
    PinKeeps(m2, p);
    var t' := SetupVm(m, kern).0.tree;
    assert DirAdded(m.tree, t', p);
    SetupTree(m.tree, t', p);
    forall d, v | PnOk(v)
      ensures (d == p ==> Xlate(t', d, v) == 0) && (d in m.tree.dirs ==> Xlate(t', d, v) == Xlate(m.tree, d, v))
    {
      SetupXlate(m.tree, t', p, d, v);
    }
    SetupCounts(Pin(m2, p).pages, m2.tree, SetupVm(m, kern).0.tree, Pin(m2, p).pins, p);
  }

  /** "The VA space of all envs is identical above UTOP (except at UVPT)": the entries from UTOP on
      are the kernel's, but for the last, which is, if and only if the kernel has nothing there. */
  lemma SetupAboveUtop(m: Mem, kern: Frame, k: int)
    requires Inv(m) && m.free != [] && |kern| == NPTENTRIES && UTOP_PDX <= k < NPTENTRIES && k != UVPT_PDX
    ensures Entry(SetupVm(m, kern).0.tree, m.free[0], k) == kern[k] <==> k != NPTENTRIES - 1 || kern[k] == 0
  {
    var p := m.free[0];
    FreeUnreferenced(m, p);
    assert Content(SetupVm(m, kern).0.tree, p) == DirContent(kern, p);
  }

  /** The one entry in which it differs: at UVPT the new directory names itself, for the environment to
      read and not to write. */
  lemma SetupUvpt(m: Mem, kern: Frame)
    requires Inv(m) && m.free != []
    ensures var e := Entry(SetupVm(m, kern).0.tree, m.free[0], UVPT_PDX);
      PteFrame(e) == m.free[0] && Present(e) && HasU(PteFlags(e)) && !HasW(PteFlags(e))
  {
    var p := m.free[0];
    FreeUnreferenced(m, p);
    assert Content(SetupVm(m, kern).0.tree, p) == DirContent(kern, p);
    MkPteParts(p, PTE_P + PTE_U);
  }

  lemma SetupCounts(pages: seq<PageInfo>, t: Tree, t': Tree, pins: seq<int>, p: int)
    requires RefOk(pages, t, pins) && t' == t.(dirs := t.dirs + {p}) && At(pins, p) == 1
    requires forall i :: Refs(t', i) == Refs(t, i)
    ensures RefOk(pages, t', pins)
  {
    forall i | 0 <= i < |pages| ensures Counted(pages, t', pins, i) { assert Counted(pages, t, pins, i); }
  }

  // ---------------------------------------------------------------- dropping sets of references

  /** From m to m' exactly the references in S are dropped: a frame is freed if and only if it had
      references, all of them in S, and no pin. */
  ghost predicate Dropped(m: Mem, m': Mem, S: set<(int, int)>) {
    && m'.pins == m.pins
    && (forall i :: Refs(m'.tree, i) == Refs(m.tree, i) - S)
    && (forall i :: i in m'.free <==> (i in m.free
      || (Refs(m.tree, i) != {} && Refs(m.tree, i) <= S && At(m.pins, i) == 0)))
  }

  lemma DroppedTwice(m: Mem, m1: Mem, m2: Mem, S1: set<(int, int)>, S2: set<(int, int)>)
    requires Dropped(m, m1, S1) && Dropped(m1, m2, S2)
    ensures Dropped(m, m2, S1 + S2)
  {
    forall i
      ensures Refs(m2.tree, i) == Refs(m.tree, i) - (S1 + S2)
      ensures i in m2.free <==> (i in m.free
        || (Refs(m.tree, i) != {} && Refs(m.tree, i) <= S1 + S2 && At(m.pins, i) == 0))
    {
      var r := Refs(m.tree, i);
      assert Refs(m1.tree, i) == r - S1;
      if r - S1 == {} {
        forall s | s in r ensures s in S1 { assert s !in r - S1; }
      }
      assert r - S1 <= S2 <==> r <= S1 + S2;
    }
  }

  lemma DroppedNothing(m: Mem, S: set<(int, int)>)
    requires forall s :: s in S ==> !Slot(m.tree, s.0, s.1)
    ensures Dropped(m, m, S)
  {
    forall i ensures Refs(m.tree, i) - S == Refs(m.tree, i) && (Refs(m.tree, i) <= S ==> Refs(m.tree, i) == {}) {
    }
  }

  lemma UnmapDropped(m: Mem, d: int, v: int)
    requires Inv(m) && UserPage(m.tree, d, v) && Present(Xlate(m.tree, d, v))
    ensures Dropped(m, Unmap(m, d, v), {(Table(m.tree, d, v), Ptx(v))})
  {
    UnmapSpec(m, d, v);
    XlateTarget(m, d, v);
    var m', q, s := Unmap(m, d, v), PteFrame(Xlate(m.tree, d, v)), (Table(m.tree, d, v), Ptx(v));
    forall i
      ensures Refs(m'.tree, i) == Refs(m.tree, i) - {s}
      ensures i in m'.free <==> i in m.free || (Refs(m.tree, i) != {} && Refs(m.tree, i) <= {s} && At(m.pins, i) == 0)
    {
      if i != q {
        assert s !in Refs(m.tree, i);
      } else {
        assert s in Refs(m.tree, i);
        assert Refs(m.tree, i) <= {s} <==> Refs(m.tree, i) == {s};
      }
    }
  }

  // ---------------------------------------------------------------- env_flush_addr_space

  // The body of the inner loop, at entry j of the table behind directory entry k
  ghost function FlushTurn(m: Mem, d: int, k: int, j: int): Mem {
    if Present(Xlate(m.tree, d, Pn(k, j))) then Unmap(m, d, Pn(k, j)) else m
  }

  // The inner loop, from entry j of the table behind directory entry k
  ghost function FlushEntries(m: Mem, d: int, k: int, j: int): Mem
    decreases NPTENTRIES - j
  {
    if j >= NPTENTRIES then m
    else FlushEntries(FlushTurn(m, d, k, j), d, k, j + 1)
  }

  // Clearing a directory entry and freeing the (empty) page table behind it
  ghost function DropTable(m: Mem, d: int, k: int): Mem {
    var f := PteFrame(Entry(m.tree, d, k));
    Decref(m.(tree := SetEntry(m.tree, d, k, 0).(owner := m.tree.owner - {f})), f)
  }

  // The outer loop, from directory entry k
  ghost function FlushFrom(m: Mem, d: int, k: int): Mem
    decreases UTOP_PDX - k
  {
    if k >= UTOP_PDX then m
    else FlushFrom(if Present(Entry(m.tree, d, k)) then DropTable(FlushEntries(m, d, k, 0), d, k) else m, d, k + 1)
  }

  // Entries j.. of frame f
  ghost function TailSlots(f: int, j: int): set<(int, int)> {
    set l | j <= l < NPTENTRIES :: (f, l)
  }

  // Entries lo..hi of directory d, and all entries of the page tables behind those
  ghost function SpaceSlots(t: Tree, d: int, lo: int, hi: int): set<(int, int)> {
    set f, l | 0 <= f < |t.frames| && 0 <= l < NPTENTRIES && InSpace(t, d, lo, hi, f, l) :: (f, l)
  }

  ghost predicate InSpace(t: Tree, d: int, lo: int, hi: int, f: int, l: int) {
    (f == d && lo <= l < hi) || (f in t.owner && t.owner[f].0 == d && lo <= t.owner[f].1 < hi)
  }

  // t' is t without directory entries lo..hi of d and the page tables behind them.
  ghost predicate Flushed(t: Tree, t': Tree, d: int, lo: int, hi: int) {
    && t'.dirs == t.dirs && |t'.frames| == |t.frames|
    && (forall f :: f in t'.owner <==> f in t.owner && !(t.owner[f].0 == d && lo <= t.owner[f].1 < hi))
    && (forall f :: f in t'.owner ==> t'.owner[f] == t.owner[f])
    && (forall c :: 0 <= c < NPTENTRIES ==> Entry(t', d, c) == if lo <= c < hi then 0 else Entry(t, d, c))
    && (forall d', v {:trigger Xlate(t', d', v)} :: UserPage(t, d', v) ==>
          Xlate(t', d', v) == if d' == d && lo <= Pdx(v) < hi then 0 else Xlate(t, d', v))
    && (forall i {:trigger Content(t', i)} :: Plain(t, i) ==> Content(t', i) == Content(t, i))
  }

  lemma {:induction false} FlushEntriesSpec(m: Mem, d: int, k: int, j: int)
    requires Inv(m) && d in m.tree.dirs && 0 <= k < UTOP_PDX && 0 <= j <= NPTENTRIES && Present(Entry(m.tree, d, k))
    ensures var m', f := FlushEntries(m, d, k, j), PteFrame(Entry(m.tree, d, k));
      && Inv(m') && KeepsPlain(m.tree, m'.tree) && Dropped(m, m', TailSlots(f, j))
      && Cleared(m.tree, m'.tree, d, k, j)
    decreases NPTENTRIES - j
  {
    var f := PteFrame(Entry(m.tree, d, k));
    if j == NPTENTRIES {
      DroppedNothing(m, TailSlots(f, j));
    } else {
      FlushOne(m, d, k, j);
      var m1 := FlushTurn(m, d, k, j);
      FlushEntriesSpec(m1, d, k, j + 1);
      FlushRest(m, m1, FlushEntries(m1, d, k, j + 1), d, k, f, j);
    }
  }

  lemma FlushRest(m: Mem, m1: Mem, m2: Mem, d: int, k: int, f: int, j: int)
    requires d in m.tree.dirs && 0 <= k < UTOP_PDX && 0 <= j < NPTENTRIES
    requires KeepsPlain(m.tree, m1.tree) && Dropped(m, m1, {(f, j)}) && OneChange(m.tree, m1.tree, d, Pn(k, j), 0)
    requires KeepsPlain(m1.tree, m2.tree) && Dropped(m1, m2, TailSlots(f, j + 1))
      && Cleared(m1.tree, m2.tree, d, k, j + 1)
    ensures KeepsPlain(m.tree, m2.tree) && Dropped(m, m2, TailSlots(f, j)) && Cleared(m.tree, m2.tree, d, k, j)
  {
    DroppedCons(m, m1, m2, f, j);
    KeepsPlainTrans(m.tree, m1.tree, m2.tree);
    ClearedStep(m.tree, m1.tree, m2.tree, d, k, j);
  }

  lemma DroppedCons(m: Mem, m1: Mem, m2: Mem, f: int, j: int)
    requires 0 <= j < NPTENTRIES && Dropped(m, m1, {(f, j)}) && Dropped(m1, m2, TailSlots(f, j + 1))
    ensures Dropped(m, m2, TailSlots(f, j))
  {
    DroppedTwice(m, m1, m2, {(f, j)}, TailSlots(f, j + 1));
    assert {(f, j)} + TailSlots(f, j + 1) == TailSlots(f, j);
  }

  lemma KeepsPlainTrans(t: Tree, t1: Tree, t2: Tree)
    requires KeepsPlain(t, t1) && KeepsPlain(t1, t2)
    ensures KeepsPlain(t, t2)
  {
  }

  lemma ClearedStep(t: Tree, t1: Tree, t2: Tree, d: int, k: int, j: int)
    requires d in t.dirs && 0 <= k < UTOP_PDX && 0 <= j < NPTENTRIES
    requires OneChange(t, t1, d, Pn(k, j), 0) && Cleared(t1, t2, d, k, j + 1)
    ensures Cleared(t, t2, d, k, j)
  {
    PnParts(k, j);
    forall d', v | UserPage(t, d', v)
      ensures Xlate(t2, d', v) == if d' == d && Pdx(v) == k && Ptx(v) >= j then 0 else Xlate(t, d', v)
    {
      assert Xlate(t1, d', v) == if d' == d && v == Pn(k, j) then 0 else Xlate(t, d', v);
      assert v == Pn(Pdx(v), Ptx(v));
    }
  }

  // t' is t with entries j.. of the page table behind directory entry k cleared.
  ghost predicate Cleared(t: Tree, t': Tree, d: int, k: int, j: int) {
    forall d', v {:trigger Xlate(t', d', v)} :: UserPage(t, d', v) ==>
      Xlate(t', d', v) == if d' == d && Pdx(v) == k && Ptx(v) >= j then 0 else Xlate(t, d', v)
  }

  // One turn of the inner loop
  lemma FlushOne(m: Mem, d: int, k: int, j: int)
    requires Inv(m) && d in m.tree.dirs && 0 <= k < UTOP_PDX && 0 <= j < NPTENTRIES && Present(Entry(m.tree, d, k))
    ensures var v, f := Pn(k, j), PteFrame(Entry(m.tree, d, k));
      var m1 := if Present(Xlate(m.tree, d, v)) then Unmap(m, d, v) else m;
      && Inv(m1) && KeepsPlain(m.tree, m1.tree) && Dropped(m, m1, {(f, j)}) && OneChange(m.tree, m1.tree, d, v, 0)
      && Entry(m1.tree, d, k) == Entry(m.tree, d, k)
  {
    var v, f := Pn(k, j), PteFrame(Entry(m.tree, d, k));
    PnParts(k, j);
    TableOk(m.tree, d, v);
    if Present(Xlate(m.tree, d, v)) {
      UnmapSpec(m, d, v);
      UnmapDropped(m, d, v);
    } else {
      DroppedNothing(m, {(f, j)});
      XlateZeroOrPresent(m.tree, d, v);
    }
  }

  // t' is t without the empty page table f behind entry k of directory d.
  ghost predicate TableGone(t: Tree, t': Tree, d: int, k: int, f: int) {
    && TreeOk(t) && d in t.dirs && 0 <= k < UTOP_PDX && Present(Entry(t, d, k)) && f == PteFrame(Entry(t, d, k))
    && f in t.owner && t.owner[f] == (d, k) && (forall l :: 0 <= l < NPTENTRIES ==> Entry(t, f, l) == 0)
    && |t'.frames| == |t.frames| && t'.dirs == t.dirs && t'.owner == t.owner - {f}
    && (forall i :: 0 <= i < |t.frames| ==> |t'.frames[i]| == NPTENTRIES)
    && forall g, l {:trigger Entry(t', g, l)} :: 0 <= g < |t.frames| && 0 <= l < NPTENTRIES ==>
         Entry(t', g, l) == if g == d && l == k then 0 else Entry(t, g, l)
  }

  lemma GonePte(t: Tree, t': Tree, d: int, k: int, f: int, g: int, l: int)
    requires TableGone(t, t', d, k, f) && g in t'.owner && 0 <= l < NPTENTRIES
    ensures PteOk(t', g, l)
  {
    assert PteOk(t, g, l) && OwnerOk(t, g);
  }

  lemma GonePde(t: Tree, t': Tree, d: int, k: int, f: int, c: int, l: int)
    requires TableGone(t, t', d, k, f) && c in t.dirs && 0 <= l < UTOP_PDX
    ensures PdeOk(t', c, l)
  {
    assert PdeOk(t, c, l);
  }

  lemma GoneOwner(t: Tree, t': Tree, d: int, k: int, f: int, g: int)
    requires TableGone(t, t', d, k, f) && g in t'.owner
    ensures OwnerOk(t', g)
  {
    assert OwnerOk(t, g);
  }

  lemma GoneRefs(t: Tree, t': Tree, d: int, k: int, f: int, i: int)
    requires TableGone(t, t', d, k, f)
    ensures Refs(t', i) == Refs(t, i) - {(d, k)}
  {
    forall g, l | 0 <= g < |t.frames| && 0 <= l < NPTENTRIES
      ensures Slot(t', g, l) <==> Slot(t, g, l) && !(g == d && l == k)
    {
    }
  }

  lemma TableGoneTree(t: Tree, t': Tree, d: int, k: int, f: int)
    requires TableGone(t, t', d, k, f)
    ensures TreeOk(t') && Plain(t', f)
  {
    assert OwnerOk(t, f);
    forall g, l | g in t'.owner && 0 <= l < NPTENTRIES ensures PteOk(t', g, l) {
      GonePte(t, t', d, k, f, g, l);
    }
    forall c, l | c in t'.dirs && 0 <= l < UTOP_PDX ensures PdeOk(t', c, l) {
      GonePde(t, t', d, k, f, c, l);
    }
    forall g | g in t'.owner ensures OwnerOk(t', g) {
      GoneOwner(t, t', d, k, f, g);
    }
  }

  lemma DropTableEntries(t: Tree, d: int, k: int, f: int)
    requires TreeOk(t) && d in t.dirs && 0 <= k < UTOP_PDX && Present(Entry(t, d, k)) && f == PteFrame(Entry(t, d, k))
    requires forall l :: 0 <= l < NPTENTRIES ==> Entry(t, f, l) == 0
    ensures TableGone(t, SetEntry(t, d, k, 0).(owner := t.owner - {f}), d, k, f)
  {
    assert PdeOk(t, d, k);
  }

  lemma DropTableTree(t: Tree, d: int, k: int, f: int)
    requires TreeOk(t) && d in t.dirs && 0 <= k < UTOP_PDX && Present(Entry(t, d, k)) && f == PteFrame(Entry(t, d, k))
    requires forall l :: 0 <= l < NPTENTRIES ==> Entry(t, f, l) == 0
    ensures f in t.owner && t.owner[f] == (d, k)
    ensures var t' := SetEntry(t, d, k, 0).(owner := t.owner - {f});
      && TreeOk(t') && Plain(t', f) && Refs(t, f) == {(d, k)}
      && (forall i :: Refs(t', i) == if i == f then {} else Refs(t, i))
      && (forall i :: i != f ==> (d, k) !in Refs(t, i))
  {
    var t' := SetEntry(t, d, k, 0).(owner := t.owner - {f});
    DropTableEntries(t, d, k, f);
    TableGoneTree(t, t', d, k, f);
    RefTarget(t, f);
    forall i ensures Refs(t', i) == Refs(t, i) - {(d, k)} && (i != f ==> (d, k) !in Refs(t, i)) {
      GoneRefs(t, t', d, k, f, i);
    }
  }

  lemma DropTableCounts(pages: seq<PageInfo>, t: Tree, t': Tree, pins: seq<int>, f: int)
    requires RefOk(pages, t, pins) && f in t.owner && 0 <= f < |pages| && |Refs(t, f)| == 1
    requires |t'.frames| == |t.frames| && t'.dirs == t.dirs && t'.owner == t.owner - {f}
    requires forall i :: Refs(t', i) == if i == f then {} else Refs(t, i)
    ensures RefOk(AddRef(pages, f, -1), t', pins) && pages[f].refs == 1
  {
    assert Counted(pages, t, pins, f);
    forall i | 0 <= i < |pages| ensures Counted(AddRef(pages, f, -1), t', pins, i) {
      assert Counted(pages, t, pins, i);
    }
  }

  // Entry k of directory d has no page table, everything else translates as before.
  lemma DropTableXlate(t: Tree, d: int, k: int, f: int, t': Tree)
    requires TreeOk(t) && d in t.dirs && 0 <= k < UTOP_PDX && Present(Entry(t, d, k)) && f == PteFrame(Entry(t, d, k))
    requires forall l :: 0 <= l < NPTENTRIES ==> Entry(t, f, l) == 0
    requires t' == SetEntry(t, d, k, 0).(owner := t.owner - {f})
    ensures SameSpaces(t, t') && Entry(t', d, k) == 0 && |t'.frames| == |t.frames|
    ensures forall c :: c != k ==> Entry(t', d, c) == Entry(t, d, c)
    ensures forall i {:trigger Content(t', i)} :: Plain(t, i) ==> Content(t', i) == Content(t, i)
  {
    forall d', v | UserPage(t, d', v) ensures Xlate(t', d', v) == Xlate(t, d', v) {
      if HasTable(t, d', v) {
        TableOk(t, d', v);
      }
    }
  }

  lemma DropTableSpec(m: Mem, d: int, k: int)
    requires Inv(m) && d in m.tree.dirs && 0 <= k < UTOP_PDX && Present(Entry(m.tree, d, k))
    requires forall l :: 0 <= l < NPTENTRIES ==> Entry(m.tree, PteFrame(Entry(m.tree, d, k)), l) == 0
    ensures var m', f := DropTable(m, d, k), PteFrame(Entry(m.tree, d, k));
      && Inv(m') && Dropped(m, m', {(d, k)}) && m'.tree == SetEntry(m.tree, d, k, 0).(owner := m.tree.owner - {f})
      && f in m.tree.owner && m.tree.owner[f] == (d, k)
  {
    var f := PteFrame(Entry(m.tree, d, k));
    DropTableTree(m.tree, d, k, f);
    var t' := SetEntry(m.tree, d, k, 0).(owner := m.tree.owner - {f});
    DropTableCounts(m.pages, m.tree, t', m.pins, f);
    if f in m.free {
      FreeUnreferenced(m, f);
    }
    DecrefKeeps(m.(tree := t'), f);
    forall i
      ensures Refs(t', i) == Refs(m.tree, i) - {(d, k)}
      ensures i in DropTable(m, d, k).free <==> (i in m.free
        || (Refs(m.tree, i) != {} && Refs(m.tree, i) <= {(d, k)} && At(m.pins, i) == 0))
    {
    }
  }

  lemma FlushedTwice(t: Tree, t1: Tree, t2: Tree, d: int, lo: int, mid: int, hi: int)
    requires lo <= mid <= hi && Flushed(t, t1, d, lo, mid) && Flushed(t1, t2, d, mid, hi)
    ensures Flushed(t, t2, d, lo, hi)
  {
    forall d', v | UserPage(t, d', v)
      ensures Xlate(t2, d', v) == if d' == d && lo <= Pdx(v) < hi then 0 else Xlate(t, d', v)
    {
      assert Xlate(t1, d', v) == if d' == d && lo <= Pdx(v) < mid then 0 else Xlate(t, d', v);
    }
    forall i | Plain(t, i) ensures Content(t2, i) == Content(t, i) {
      assert Plain(t1, i) && Content(t1, i) == Content(t, i);
    }
  }

  lemma SpaceSlotsSplit(t: Tree, t1: Tree, d: int, k: int, hi: int)
    requires k < hi && Flushed(t, t1, d, k, k + 1)
    ensures SpaceSlots(t, d, k, k + 1) + SpaceSlots(t1, d, k + 1, hi) == SpaceSlots(t, d, k, hi)
  {
    forall f, l | 0 <= f < |t.frames| && 0 <= l < NPTENTRIES
      ensures InSpace(t, d, k, hi, f, l) <==> InSpace(t, d, k, k + 1, f, l) || InSpace(t1, d, k + 1, hi, f, l)
    {
    }
  }

  // One turn of the outer loop, when the directory entry is present
  lemma FlushTable(m: Mem, d: int, k: int)
    requires Inv(m) && d in m.tree.dirs && 0 <= k < UTOP_PDX && Present(Entry(m.tree, d, k))
    ensures var m1 := DropTable(FlushEntries(m, d, k, 0), d, k);
      Inv(m1) && Dropped(m, m1, SpaceSlots(m.tree, d, k, k + 1)) && Flushed(m.tree, m1.tree, d, k, k + 1)
  {
    var f := PteFrame(Entry(m.tree, d, k));
    FlushEntriesSpec(m, d, k, 0);
    var m0 := FlushEntries(m, d, k, 0);
    assert PdeOk(m.tree, d, k) && PdeOk(m0.tree, d, k);
    assert Entry(m0.tree, d, k) == Entry(m.tree, d, k);
    TableEmpty(m.tree, m0.tree, d, k, f);
    DropTableSpec(m0, d, k);
    DropTableXlate(m0.tree, d, k, f, DropTable(m0, d, k).tree);
    DroppedTwice(m, m0, DropTable(m0, d, k), TailSlots(f, 0), {(d, k)});
    FlushTableSlots(m.tree, d, k, f);
    FlushTableTree(m.tree, m0.tree, DropTable(m0, d, k).tree, d, k, f);
  }

  lemma TableEmpty(t: Tree, t0: Tree, d: int, k: int, f: int)
    requires TreeOk(t) && d in t.dirs && 0 <= k < UTOP_PDX && Present(Entry(t, d, k)) && f == PteFrame(Entry(t, d, k))
    requires Cleared(t, t0, d, k, 0) && Entry(t0, d, k) == Entry(t, d, k)
    ensures forall l :: 0 <= l < NPTENTRIES ==> Entry(t0, f, l) == 0
  {
    forall l | 0 <= l < NPTENTRIES ensures Entry(t0, f, l) == 0 {
      PnParts(k, l);
      assert Xlate(t0, d, Pn(k, l)) == 0;
    }
  }

  lemma FlushTableSlots(t: Tree, d: int, k: int, f: int)
    requires TreeOk(t) && d in t.dirs && 0 <= k < UTOP_PDX && Present(Entry(t, d, k)) && f == PteFrame(Entry(t, d, k))
    ensures TailSlots(f, 0) + {(d, k)} == SpaceSlots(t, d, k, k + 1)
  {
    assert PdeOk(t, d, k) && OwnerOk(t, f);
    var hi := k + 1;
    forall g, l | 0 <= g < |t.frames| && 0 <= l < NPTENTRIES
      ensures InSpace(t, d, k, hi, g, l) <==> g == f || (g == d && l == k)
    {
      if g in t.owner { assert OwnerOk(t, g); }
    }
  }

  lemma FlushTableTree(t: Tree, t0: Tree, t1: Tree, d: int, k: int, f: int)
    requires TreeOk(t) && d in t.dirs && 0 <= k < UTOP_PDX && Present(Entry(t, d, k)) && f == PteFrame(Entry(t, d, k))
    requires KeepsPlain(t, t0) && Cleared(t, t0, d, k, 0)
    requires t1 == SetEntry(t0, d, k, 0).(owner := t0.owner - {f}) && SameSpaces(t0, t1) && Entry(t1, d, k) == 0
      && |t1.frames| == |t.frames|
    requires forall c :: c != k ==> Entry(t1, d, c) == Entry(t0, d, c)
    requires forall i {:trigger Content(t1, i)} :: Plain(t0, i) ==> Content(t1, i) == Content(t0, i)
    ensures Flushed(t, t1, d, k, k + 1)
  {
    assert PdeOk(t, d, k);
    assert Content(t0, d) == Content(t, d);
    forall g | g in t.owner ensures t.owner[g] == (d, k) <==> g == f { assert OwnerOk(t, g); }
    forall d', v | UserPage(t, d', v)
      ensures Xlate(t1, d', v) == if d' == d && Pdx(v) == k then 0 else Xlate(t, d', v)
    {
      assert Xlate(t1, d', v) == Xlate(t0, d', v);
    }
  }

  lemma {:induction false} FlushFromSpec(m: Mem, d: int, k: int)
    requires Inv(m) && d in m.tree.dirs && 0 <= k <= UTOP_PDX
    ensures var m' := FlushFrom(m, d, k);
      Inv(m') && Dropped(m, m', SpaceSlots(m.tree, d, k, UTOP_PDX)) && Flushed(m.tree, m'.tree, d, k, UTOP_PDX)
    decreases UTOP_PDX - k
  {
    if k == UTOP_PDX {
      assert SpaceSlots(m.tree, d, k, UTOP_PDX) == {};
      DroppedNothing(m, {});
    } else {
      var m1 := if Present(Entry(m.tree, d, k)) then DropTable(FlushEntries(m, d, k, 0), d, k) else m;
      if Present(Entry(m.tree, d, k)) {
        FlushTable(m, d, k);
      } else {
        FlushNoTable(m, d, k);
      }
      FlushFromSpec(m1, d, k + 1);
      FlushCons(m, m1, FlushFrom(m, d, k), d, k);
    }
  }

  lemma FlushCons(m: Mem, m1: Mem, m2: Mem, d: int, k: int)
    requires k < UTOP_PDX
    requires Dropped(m, m1, SpaceSlots(m.tree, d, k, k + 1)) && Flushed(m.tree, m1.tree, d, k, k + 1)
    requires Dropped(m1, m2, SpaceSlots(m1.tree, d, k + 1, UTOP_PDX)) && Flushed(m1.tree, m2.tree, d, k + 1, UTOP_PDX)
    ensures Dropped(m, m2, SpaceSlots(m.tree, d, k, UTOP_PDX)) && Flushed(m.tree, m2.tree, d, k, UTOP_PDX)
  {
    DroppedTwice(m, m1, m2, SpaceSlots(m.tree, d, k, k + 1), SpaceSlots(m1.tree, d, k + 1, UTOP_PDX));
    SpaceSlotsSplit(m.tree, m1.tree, d, k, UTOP_PDX);
    FlushedTwice(m.tree, m1.tree, m2.tree, d, k, k + 1, UTOP_PDX);
  }

  lemma FlushNoTable(m: Mem, d: int, k: int)
    requires Inv(m) && d in m.tree.dirs && 0 <= k < UTOP_PDX && !Present(Entry(m.tree, d, k))
    ensures Dropped(m, m, SpaceSlots(m.tree, d, k, k + 1)) && Flushed(m.tree, m.tree, d, k, k + 1)
  {
    NoTableSlots(m.tree, d, k);
    DroppedNothing(m, SpaceSlots(m.tree, d, k, k + 1));
  }

  lemma NoTableSlots(t: Tree, d: int, k: int)
    requires TreeOk(t) && d in t.dirs && 0 <= k < UTOP_PDX && !Present(Entry(t, d, k))
    ensures forall s :: s in SpaceSlots(t, d, k, k + 1) ==> !Slot(t, s.0, s.1)
    ensures Flushed(t, t, d, k, k + 1)
  {
    assert PdeOk(t, d, k);
    forall f | f in t.owner ensures t.owner[f] != (d, k) { assert OwnerOk(t, f); }
  }

  // ---------------------------------------------------------------- env_free

  // Freeing the directory itself: env_pgdir lets go of it
  ghost function FreeDir(m: Mem, d: int): Mem {
    Unpin(m.(tree := m.tree.(dirs := m.tree.dirs - {d})), d)
  }

  ghost function FreeSpace(m: Mem, d: int): Mem {
    FreeDir(FlushFrom(m, d, 0), d)
  }

  lemma FreeDirTree(t: Tree, d: int)
    requires TreeOk(t) && d in t.dirs && forall k :: 0 <= k < UTOP_PDX ==> Entry(t, d, k) == 0
    ensures var t' := t.(dirs := t.dirs - {d});
      && TreeOk(t') && Plain(t', d) && Refs(t, d) == {} && (forall i :: Refs(t', i) == Refs(t, i))
      && (forall d', v {:trigger Xlate(t', d', v)} :: Xlate(t', d', v) == Xlate(t, d', v))
  {
    var t' := t.(dirs := t.dirs - {d});
    RefTarget(t, d);
    forall g | g in t'.owner ensures OwnerOk(t', g) { assert OwnerOk(t, g); }
    forall g, l | g in t.owner && 0 <= l < NPTENTRIES ensures PteOk(t', g, l) { assert PteOk(t, g, l); }
    forall c, l | c in t'.dirs && 0 <= l < UTOP_PDX ensures PdeOk(t', c, l) { assert PdeOk(t, c, l); }
    forall i ensures Refs(t', i) == Refs(t, i) {
      assert forall g, l :: Slot(t', g, l) == Slot(t, g, l);
    }
  }

  lemma FreeDirCounts(pages: seq<PageInfo>, t: Tree, pins: seq<int>, d: int)
    requires RefOk(pages, t, pins) && d in t.dirs && 0 <= d < |pages| && Refs(t, d) == {}
    requires forall i :: Refs(t.(dirs := t.dirs - {d}), i) == Refs(t, i)
    requires d !in t.owner
    ensures pages[d].refs == 1 && RefOk(AddRef(pages, d, -1), t.(dirs := t.dirs - {d}), Upd(pins, d, 0))
  {
    var pins', t' := Upd(pins, d, 0), t.(dirs := t.dirs - {d});
    assert Counted(pages, t, pins, d);
    forall i | 0 <= i < |pages| ensures Counted(AddRef(pages, d, -1), t', pins', i) {
      assert Counted(pages, t, pins, i);
    }
  }

  lemma FreeDirSpec(m: Mem, d: int)
    requires Inv(m) && d in m.tree.dirs && forall k :: 0 <= k < UTOP_PDX ==> Entry(m.tree, d, k) == 0
    ensures var m' := FreeDir(m, d);
      && Inv(m') && m'.free == [d] + m.free && m'.tree == m.tree.(dirs := m.tree.dirs - {d})
      && m'.pins == Upd(m.pins, d, 0) && (forall i :: Refs(m'.tree, i) == Refs(m.tree, i))
      && (forall d', v {:trigger Xlate(m'.tree, d', v)} :: Xlate(m'.tree, d', v) == Xlate(m.tree, d', v))
  {
    FreeDirTree(m.tree, d);
    FreeDirCounts(m.pages, m.tree, m.pins, d);
    if d in m.free {
      FreeUnreferenced(m, d);
    }
    DecrefKeeps(m.(tree := m.tree.(dirs := m.tree.dirs - {d}), pins := Upd(m.pins, d, 0)), d);
  }

  /** From m to m' address space d is gone: its directory and page tables are freed; every other
      frame loses exactly the references d had to it, and is freed exactly when those were all it
      had; other address spaces and the content of frames outside the trees are untouched. */
  ghost predicate Freed(m: Mem, m': Mem, d: int) {
    var S := SpaceSlots(m.tree, d, 0, UTOP_PDX);
    && m'.tree.dirs == m.tree.dirs - {d}
    && (forall f :: f in m'.tree.owner <==> f in m.tree.owner && m.tree.owner[f].0 != d)
    && (forall f :: f in m'.tree.owner ==> m'.tree.owner[f] == m.tree.owner[f])
    && (forall i :: Refs(m'.tree, i) == Refs(m.tree, i) - S)
    && (forall i :: i in m'.free <==> (i == d || i in m.free
      || (Refs(m.tree, i) != {} && Refs(m.tree, i) <= S && At(m.pins, i) == 0)))
    && m'.pins == Upd(m.pins, d, 0)
    && (forall d', v {:trigger Xlate(m'.tree, d', v)} :: UserPage(m'.tree, d', v) ==>
      Xlate(m'.tree, d', v) == Xlate(m.tree, d', v))
    && (forall i {:trigger Content(m'.tree, i)} :: Plain(m.tree, i) ==>
      Plain(m'.tree, i) && Content(m'.tree, i) == Content(m.tree, i))
    && (forall k :: 0 <= k < UTOP_PDX ==> Entry(m'.tree, d, k) == 0)
  }

  lemma {:induction false} FreedBy(m: Mem, m1: Mem, m2: Mem, d: int)
    requires Dropped(m, m1, SpaceSlots(m.tree, d, 0, UTOP_PDX)) && Flushed(m.tree, m1.tree, d, 0, UTOP_PDX)
    requires forall f :: f in m.tree.owner ==> 0 <= m.tree.owner[f].1 < UTOP_PDX
    requires m2.free == [d] + m1.free && m2.tree == m1.tree.(dirs := m1.tree.dirs - {d})
      && m2.pins == Upd(m1.pins, d, 0)
    requires forall i :: Refs(m2.tree, i) == Refs(m1.tree, i)
    requires forall d', v {:trigger Xlate(m2.tree, d', v)} :: Xlate(m2.tree, d', v) == Xlate(m1.tree, d', v)
    ensures Freed(m, m2, d)
  {
    forall i | Plain(m.tree, i) ensures Plain(m2.tree, i) && Content(m2.tree, i) == Content(m.tree, i) {
      assert Content(m1.tree, i) == Content(m.tree, i);
    }
    forall k | 0 <= k < UTOP_PDX ensures Entry(m2.tree, d, k) == 0 {
      assert Entry(m1.tree, d, k) == 0;
    }
  }

  /** env_free */
  lemma FreeSpaceSpec(m: Mem, d: int)
    requires Inv(m) && d in m.tree.dirs
    ensures Inv(FreeSpace(m, d)) && Freed(m, FreeSpace(m, d), d) && |FreeSpace(m, d).pages| == |m.pages|
  {
    FlushFromSpec(m, d, 0);
    var m1 := FlushFrom(m, d, 0);
    FreeDirSpec(m1, d);
    forall f | f in m.tree.owner ensures 0 <= m.tree.owner[f].1 < UTOP_PDX { assert OwnerOk(m.tree, f); }
    FreedBy(m, m1, FreeSpace(m, d), d);
  }

  /** Each frame's count falls by its multiplicity in the freed address space. */
  lemma FreeSpaceCounts(m: Mem, d: int, i: int)
    requires Inv(m) && d in m.tree.dirs && 0 <= i < |m.pages| && i != d
    ensures Info(FreeSpace(m, d), i).refs == m.pages[i].refs - |Refs(m.tree, i) * SpaceSlots(m.tree, d, 0, UTOP_PDX)|
  {
    FreeSpaceSpec(m, d);
    CountsFall(m, FreeSpace(m, d), i, SpaceSlots(m.tree, d, 0, UTOP_PDX));
  }

  lemma CountsFall(m: Mem, m': Mem, i: int, S: set<(int, int)>)
    requires RefOk(m.pages, m.tree, m.pins) && RefOk(m'.pages, m'.tree, m'.pins) && 0 <= i < |m.pages| == |m'.pages|
    requires At(m'.pins, i) == At(m.pins, i) && Refs(m'.tree, i) == Refs(m.tree, i) - S
    ensures m'.pages[i].refs == m.pages[i].refs - |Refs(m.tree, i) * S|
  {
    var r := Refs(m.tree, i);
    assert |r| == |r - S| + |r * S| by {
      assert r == (r - S) + (r * S);
    }
    assert Counted(m.pages, m.tree, m.pins, i) && Counted(m'.pages, m'.tree, m'.pins, i);
  }
}
