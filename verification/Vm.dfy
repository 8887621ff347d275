/** Address spaces: pgdir_walk, page_insert, page_lookup and page_remove over `Phys`.

    The meaning of a directory is `Xlate`, the page-table entry behind each virtual page below
    UTOP (0 where there is none); the operations are then stated by what they do to `Xlate`, to
    the content of frames outside the trees, and to the free list.
  */
module Vm {
  import opened Mmu
  import opened Phys

  // How a kernel operation ends.  Halt: the kernel panics or its behaviour is undefined.
  datatype Rc = Ok | NoMem | Inval | Halt

  ghost predicate UserPage(t: Tree, d: int, v: int) {
    d in t.dirs && 0 <= v < UTOP_PN
  }

  predicate PnOk(v: int) { 0 <= v < UTOP_PN }

  function Pdx(v: int): int { v / 1024 }

  function Ptx(v: int): int { v % 1024 }

  // PGNUM(PGADDR(k, j, 0))
  function Pn(k: int, j: int): int { k * 1024 + j }

  lemma PnParts(k: int, j: int)
    requires 0 <= k < UTOP_PDX && 0 <= j < NPTENTRIES
    ensures Pdx(Pn(k, j)) == k && Ptx(Pn(k, j)) == j && PnOk(Pn(k, j))
  {
  }

  ghost predicate HasTable(t: Tree, d: int, v: int) {
    Present(Entry(t, d, Pdx(v)))
  }

  // The page table behind v
  ghost function Table(t: Tree, d: int, v: int): int {
    PteFrame(Entry(t, d, Pdx(v)))
  }

  ghost function Xlate(t: Tree, d: int, v: int): int {
    if HasTable(t, d, v) then Entry(t, Table(t, d, v), Ptx(v)) else 0
  }

  lemma TableOk(t: Tree, d: int, v: int)
    requires TreeOk(t) && UserPage(t, d, v) && HasTable(t, d, v)
    ensures Table(t, d, v) in t.owner && t.owner[Table(t, d, v)] == (d, Pdx(v)) && 0 <= Table(t, d, v) < |t.frames|
    ensures Slot(t, d, Pdx(v)) && 0 <= Ptx(v) < NPTENTRIES
    ensures PteOk(t, Table(t, d, v), Ptx(v))
  {
    assert PdeOk(t, d, Pdx(v));
    assert OwnerOk(t, Table(t, d, v));
  }

  // A mapped page is outside the trees and off the free list, and counted.
  lemma XlateTarget(m: Mem, d: int, v: int)
    requires Inv(m) && UserPage(m.tree, d, v) && Present(Xlate(m.tree, d, v))
    ensures var q := PteFrame(Xlate(m.tree, d, v));
      && Plain(m.tree, q) && q !in m.free && (Table(m.tree, d, v), Ptx(v)) in Refs(m.tree, q)
  {
    TableOk(m.tree, d, v);
    var f, q := Table(m.tree, d, v), PteFrame(Xlate(m.tree, d, v));
    assert (f, Ptx(v)) in Refs(m.tree, q);
    if q in m.free {
      FreeUnreferenced(m, q);
    }
  }

  lemma XlateZeroOrPresent(t: Tree, d: int, v: int)
    requires TreeOk(t) && UserPage(t, d, v)
    ensures Xlate(t, d, v) == 0 || Present(Xlate(t, d, v))
  {
    if HasTable(t, d, v) {
      TableOk(t, d, v);
    }
  }

  // ---------------------------------------------------------------- how states compare

  // t' translates (d, v) to e and everything else as t does.
  ghost predicate OneChange(t: Tree, t': Tree, d: int, v: int, e: int) {
    && t'.dirs == t.dirs
    && forall d', v' {:trigger Xlate(t', d', v')} :: UserPage(t, d', v') ==>
      Xlate(t', d', v') == if d' == d && v' == v then e else Xlate(t, d', v')
  }

  ghost predicate SameSpaces(t: Tree, t': Tree) {
    && t'.dirs == t.dirs
    && forall d, v {:trigger Xlate(t', d, v)} :: UserPage(t, d, v) ==> Xlate(t', d, v) == Xlate(t, d, v)
  }

  // Frames in use outside the trees stay outside them and keep their content.
  ghost predicate KeepsFrames(m: Mem, m': Mem) {
    && |m'.tree.frames| == |m.tree.frames|
    && forall i :: Plain(m.tree, i) && i !in m.free ==> Plain(m'.tree, i) && Content(m'.tree, i) == Content(m.tree, i)
  }

  // Only entries of page tables change.
  ghost predicate KeepsPlain(t: Tree, t': Tree) {
    && t'.dirs == t.dirs && t'.owner == t.owner && |t'.frames| == |t.frames|
    && forall i {:trigger Content(t', i)} :: 0 <= i < |t.frames| && i !in t.owner ==> Content(t', i) == Content(t, i)
  }

  // ---------------------------------------------------------------- operations

  // pgdir_walk(pgdir, va, 1), when it does not return NULL
  ghost function Walk(m: Mem, d: int, v: int): Mem {
    if HasTable(m.tree, d, v) then m else NewTable(m, d, Pdx(v))
  }

  // page_remove of a present page
  ghost function Unmap(m: Mem, d: int, v: int): Mem {
    Clear(m, Table(m.tree, d, v), Ptx(v))
  }

  // The end of page_insert, from the point where the page table exists and the page has gained
  // its reference
  ghost function Replace(m: Mem, d: int, p: int, v: int, perm: int): Mem {
    var m1 := if Present(Xlate(m.tree, d, v)) then Unmap(m, d, v) else m;
    Place(m1, Table(m1.tree, d, v), Ptx(v), p, OrP(perm))
  }

  /** page_insert.  The page gains its reference before the old entry is removed, so that
      re-inserting a page at its own address cannot free it. */
  ghost function Insert(m: Mem, d: int, p: int, v: int, perm: int): (r: (Mem, Rc)) {
    if !HasTable(m.tree, d, v) && m.free == [] then (m, NoMem)
    else
      var m1 := Walk(m, d, v);
      if Info(m1, p).refs >= MAX_REF then (m1, Halt)
      else (Replace(Pin(m1, p), d, p, v, perm), Ok)
  }

  // ---------------------------------------------------------------- what they do

  lemma NewTableXlate(m: Mem, d: int, k: int)
    requires Inv(m) && m.free != [] && d in m.tree.dirs && 0 <= k < UTOP_PDX && !Present(Entry(m.tree, d, k))
    ensures SameSpaces(m.tree, NewTable(m, d, k).tree)
    ensures Present(Entry(NewTable(m, d, k).tree, d, k))
  {
    var p, t, t' := m.free[0], m.tree, NewTable(m, d, k).tree;
    MkPteParts(p, PTE_P + PTE_W + PTE_U);
    FreeUnreferenced(m, p);
    forall d', v' | UserPage(t, d', v') ensures Xlate(t', d', v') == Xlate(t, d', v') {
      if d' == d && Pdx(v') == k {
        assert Table(t', d', v') == p && Content(t', p) == ZeroFrame();
      } else {
        assert Entry(t', d', Pdx(v')) == Entry(t, d', Pdx(v'));
        if HasTable(t, d', v') {
          TableOk(t, d', v');
        }
      }
    }
  }

  lemma WalkSpec(m: Mem, d: int, v: int)
    requires Inv(m) && UserPage(m.tree, d, v) && (HasTable(m.tree, d, v) || m.free != [])
    ensures var m' := Walk(m, d, v);
      && Inv(m') && SameSpaces(m.tree, m'.tree) && KeepsFrames(m, m') && m'.pins == m.pins
      && m'.free == (if HasTable(m.tree, d, v) then m.free else m.free[1..])
      && HasTable(m'.tree, d, v)
      && forall i :: Plain(m.tree, i) && i !in m.free ==>
           Info(m', i) == Info(m, i) && Refs(m'.tree, i) == Refs(m.tree, i)
  {
    if !HasTable(m.tree, d, v) {
      NewTableKeeps(m, d, Pdx(v));
      NewTableXlate(m, d, Pdx(v));
    }
  }

  lemma SetEntryXlate(t: Tree, d: int, v: int, e: int)
    requires TreeOk(t) && UserPage(t, d, v) && HasTable(t, d, v)
    ensures OneChange(t, SetEntry(t, Table(t, d, v), Ptx(v), e), d, v, e)
    ensures HasTable(SetEntry(t, Table(t, d, v), Ptx(v), e), d, v)
    ensures KeepsPlain(t, SetEntry(t, Table(t, d, v), Ptx(v), e))
  {
    var f, k := Table(t, d, v), Ptx(v);
    var t' := SetEntry(t, f, k, e);
    TableOk(t, d, v);
    assert forall g, l :: 0 <= g < |t.frames| && 0 <= l < NPTENTRIES ==>
      Entry(t', g, l) == if g == f && l == k then e else Entry(t, g, l);
    forall d', v' | UserPage(t, d', v')
      ensures Xlate(t', d', v') == if d' == d && v' == v then e else Xlate(t, d', v')
    {
      if HasTable(t, d', v') {
        TableOk(t, d', v');
      }
    }
  }

  lemma UnmapSpec(m: Mem, d: int, v: int)
    requires Inv(m) && UserPage(m.tree, d, v) && Present(Xlate(m.tree, d, v))
    ensures var m', q, s := Unmap(m, d, v), PteFrame(Xlate(m.tree, d, v)), (Table(m.tree, d, v), Ptx(v));
      && Inv(m') && m'.pins == m.pins && HasTable(m'.tree, d, v) && q !in m.free && 0 <= q < |m.tree.frames|
      && OneChange(m.tree, m'.tree, d, v, 0) && KeepsPlain(m.tree, m'.tree)
      && (forall i :: Refs(m'.tree, i) == if i == q then Refs(m.tree, i) - {s} else Refs(m.tree, i))
      && m'.free == (if Refs(m.tree, q) == {s} && At(m.pins, q) == 0 then [q] + m.free else m.free)
  {
    XlateTarget(m, d, v);
    TableOk(m.tree, d, v);
    ClearKeeps(m, Table(m.tree, d, v), Ptx(v), PteFrame(Xlate(m.tree, d, v)));
    SetEntryXlate(m.tree, d, v, 0);
  }

  lemma PlaceSpec(m: Mem, d: int, p: int, v: int, flags: int)
    requires Inv(m) && UserPage(m.tree, d, v) && HasTable(m.tree, d, v) && Xlate(m.tree, d, v) == 0
    requires Plain(m.tree, p) && At(m.pins, p) > 0 && IsFlags(flags) && HasP(flags)
    ensures var m' := Place(m, Table(m.tree, d, v), Ptx(v), p, flags);
      && Inv(m') && OneChange(m.tree, m'.tree, d, v, MkPte(p, flags)) && KeepsPlain(m.tree, m'.tree)
      && m'.pins == Upd(m.pins, p, At(m.pins, p) - 1) && m'.free == m.free
      && (forall i :: Refs(m'.tree, i) == if i == p then Refs(m.tree, i) + {(Table(m.tree, d, v), Ptx(v))}
        else Refs(m.tree, i))
  {
    TableOk(m.tree, d, v);
    PlaceKeeps(m, Table(m.tree, d, v), Ptx(v), p, flags);
    SetEntryXlate(m.tree, d, v, MkPte(p, flags));
  }

  lemma ChangeTwice(t: Tree, t1: Tree, t2: Tree, d: int, v: int, e1: int, e2: int)
    requires OneChange(t, t1, d, v, e1) && OneChange(t1, t2, d, v, e2) && KeepsPlain(t, t1) && KeepsPlain(t1, t2)
    ensures OneChange(t, t2, d, v, e2) && KeepsPlain(t, t2)
  {
  }

  lemma ReplacePresent(m: Mem, d: int, p: int, v: int, flags: int)
    requires Inv(m) && UserPage(m.tree, d, v) && HasTable(m.tree, d, v) && Present(Xlate(m.tree, d, v))
    requires Plain(m.tree, p) && p !in m.free && At(m.pins, p) > 0 && IsFlags(flags) && HasP(flags)
    ensures var m1 := Unmap(m, d, v);
      var m' := Place(m1, Table(m1.tree, d, v), Ptx(v), p, flags);
      && Inv(m') && OneChange(m.tree, m'.tree, d, v, MkPte(p, flags)) && KeepsPlain(m.tree, m'.tree)
      && m'.pins == Upd(m.pins, p, At(m.pins, p) - 1) && p !in m'.free
  {
    UnmapSpec(m, d, v);
    var m1 := Unmap(m, d, v);
    assert Xlate(m1.tree, d, v) == 0;
    PlaceSpec(m1, d, p, v, flags);
    ChangeTwice(m.tree, m1.tree, Place(m1, Table(m1.tree, d, v), Ptx(v), p, flags).tree, d, v, 0, MkPte(p, flags));
  }

  lemma ReplaceSpec(m: Mem, d: int, p: int, v: int, perm: int)
    requires Inv(m) && UserPage(m.tree, d, v) && HasTable(m.tree, d, v)
    requires Plain(m.tree, p) && p !in m.free && At(m.pins, p) > 0 && IsFlags(perm)
    ensures var m' := Replace(m, d, p, v, perm);
      && Inv(m') && OneChange(m.tree, m'.tree, d, v, MkPte(p, OrP(perm))) && KeepsPlain(m.tree, m'.tree)
      && m'.pins == Upd(m.pins, p, At(m.pins, p) - 1) && p !in m'.free
  {
    OrPFlags(perm);
    if Present(Xlate(m.tree, d, v)) {
      ReplacePresent(m, d, p, v, OrP(perm));
    } else {
      XlateZeroOrPresent(m.tree, d, v);
      PlaceSpec(m, d, p, v, OrP(perm));
    }
  }

  // page_insert once the page table exists
  lemma InsertInto(m: Mem, d: int, p: int, v: int, perm: int)
    requires Inv(m) && UserPage(m.tree, d, v) && HasTable(m.tree, d, v) && Plain(m.tree, p) && p !in m.free
      && IsFlags(perm)
    ensures var m' := Replace(Pin(m, p), d, p, v, perm);
      && Inv(m') && OneChange(m.tree, m'.tree, d, v, MkPte(p, OrP(perm))) && KeepsPlain(m.tree, m'.tree)
      && m'.pins == m.pins && p !in m'.free
  {
    PinKeeps(m, p);
    ReplaceSpec(Pin(m, p), d, p, v, perm);
  }

  lemma InsertSpec(m: Mem, d: int, p: int, v: int, perm: int)
    requires Inv(m) && UserPage(m.tree, d, v) && Plain(m.tree, p) && p !in m.free && IsFlags(perm)
    ensures var (m', rc) := Insert(m, d, p, v, perm);
      && Inv(m') && KeepsFrames(m, m') && p !in m'.free && m'.pins == m.pins
      && (rc == NoMem <==> !HasTable(m.tree, d, v) && m.free == [])
      && (rc == NoMem ==> m' == m)
      && (rc == Halt <==> (HasTable(m.tree, d, v) || m.free != []) && Info(m, p).refs >= MAX_REF)
      && (rc == Ok ==> OneChange(m.tree, m'.tree, d, v, MkPte(p, OrP(perm))))
      && (rc != Ok ==> SameSpaces(m.tree, m'.tree)) && rc != Inval
  {
    if HasTable(m.tree, d, v) || m.free != [] {
      WalkSpec(m, d, v);
      var m1 := Walk(m, d, v);
      InsertInto(m1, d, p, v, perm);
      WalkedThenInserted(m, m1, Replace(Pin(m1, p), d, p, v, perm), d, v, MkPte(p, OrP(perm)));
    }
  }

  lemma WalkedThenInserted(m: Mem, m1: Mem, m': Mem, d: int, v: int, e: int)
    requires SameSpaces(m.tree, m1.tree) && KeepsFrames(m, m1) && OneChange(m1.tree, m'.tree, d, v, e)
      && KeepsPlain(m1.tree, m'.tree)
    ensures OneChange(m.tree, m'.tree, d, v, e) && KeepsFrames(m, m')
  {
  }

  // Overwriting a frame outside the trees changes no translation.
  lemma FillXlate(m: Mem, p: int, content: Frame)
    requires Inv(m) && Plain(m.tree, p) && p !in m.free && |content| == NPTENTRIES
    ensures Inv(Fill(m, p, content)) && SameSpaces(m.tree, Fill(m, p, content).tree)
    ensures forall i {:trigger Content(Fill(m, p, content).tree, i)} ::
      Content(Fill(m, p, content).tree, i) == if i == p then content else Content(m.tree, i)
  {
    FillKeeps(m, p, content);
    var t' := Fill(m, p, content).tree;
    forall d, v | UserPage(m.tree, d, v) ensures Xlate(t', d, v) == Xlate(m.tree, d, v) {
      if HasTable(m.tree, d, v) {
        TableOk(m.tree, d, v);
      }
    }
  }

  // ---------------------------------------------------------------- references and the free list

  // The entry that Insert writes
  ghost function InsertSlot(m: Mem, d: int, v: int): (int, int) {
    (if HasTable(m.tree, d, v) || m.free == [] then Table(m.tree, d, v) else m.free[0], Ptx(v))
  }

  /** What page_insert does to references, page tables and the free list. */
  ghost predicate Inserted(m: Mem, m': Mem, d: int, p: int, v: int) {
    var s, grows := InsertSlot(m, d, v), !HasTable(m.tree, d, v) && m.free != [];
    && m'.pins == m.pins && m'.tree.dirs == m.tree.dirs && |m'.tree.frames| == |m.tree.frames|
    && m'.tree.owner == (if grows then m.tree.owner[m.free[0] := (d, Pdx(v))] else m.tree.owner)
    && (forall i :: Refs(m'.tree, i) == if grows && i == m.free[0] then {(d, Pdx(v))}
                                        else if i == p then Refs(m.tree, i) + {s} else Refs(m.tree, i) - {s})
    && (forall i :: i in m'.free <==>
          (i in m.free && !(grows && i == m.free[0])) || (i != p && Refs(m.tree, i) == {s} && At(m.pins, i) == 0))
  }

  lemma ReplaceRefs(m: Mem, d: int, p: int, v: int, flags: int)
    requires Inv(m) && UserPage(m.tree, d, v) && HasTable(m.tree, d, v)
    requires Plain(m.tree, p) && p !in m.free && At(m.pins, p) > 0 && IsFlags(flags) && HasP(flags)
    ensures var m1, s := if Present(Xlate(m.tree, d, v)) then Unmap(m, d, v) else m, (Table(m.tree, d, v), Ptx(v));
      var m' := Place(m1, Table(m1.tree, d, v), Ptx(v), p, flags);
      && m'.tree.owner == m.tree.owner && m'.tree.dirs == m.tree.dirs
      && (forall i :: Refs(m'.tree, i) == if i == p then Refs(m.tree, i) + {s} else Refs(m.tree, i) - {s})
      && (forall i :: i in m'.free <==> i in m.free || (i != p && Refs(m.tree, i) == {s} && At(m.pins, i) == 0))
  {
    if Present(Xlate(m.tree, d, v)) {
      ReplaceRefsPresent(m, d, p, v, flags);
    } else {
      TableOk(m.tree, d, v);
      forall i ensures (Table(m.tree, d, v), Ptx(v)) !in Refs(m.tree, i) {
      }
      XlateZeroOrPresent(m.tree, d, v);
      PlaceSpec(m, d, p, v, flags);
    }
  }

  lemma ReplaceRefsPresent(m: Mem, d: int, p: int, v: int, flags: int)
    requires Inv(m) && UserPage(m.tree, d, v) && HasTable(m.tree, d, v) && Present(Xlate(m.tree, d, v))
    requires Plain(m.tree, p) && p !in m.free && At(m.pins, p) > 0 && IsFlags(flags) && HasP(flags)
    ensures var m1, s := Unmap(m, d, v), (Table(m.tree, d, v), Ptx(v));
      var m' := Place(m1, Table(m1.tree, d, v), Ptx(v), p, flags);
      && m'.tree.owner == m.tree.owner && m'.tree.dirs == m.tree.dirs
      && (forall i :: Refs(m'.tree, i) == if i == p then Refs(m.tree, i) + {s} else Refs(m.tree, i) - {s})
      && (forall i :: i in m'.free <==> i in m.free || (i != p && Refs(m.tree, i) == {s} && At(m.pins, i) == 0))
  {
    var s, q, m1 := (Table(m.tree, d, v), Ptx(v)), PteFrame(Xlate(m.tree, d, v)), Unmap(m, d, v);
    SlotOnlyOf(m.tree, d, v, q);
    UnmapSpec(m, d, v);
    UnmapKeepsTable(m, m1, d, v);
    PlaceSpec(m1, d, p, v, flags);
    MovedRefs(m, m1, Place(m1, Table(m1.tree, d, v), Ptx(v), p, flags), s, q, p);
  }

  // The entry behind v refers to the frame it names, and to no other.
  lemma SlotOnlyOf(t: Tree, d: int, v: int, q: int)
    requires TreeOk(t) && UserPage(t, d, v) && HasTable(t, d, v) && Present(Xlate(t, d, v))
      && q == PteFrame(Xlate(t, d, v))
    ensures forall i :: (Table(t, d, v), Ptx(v)) in Refs(t, i) <==> i == q
  {
    TableOk(t, d, v);
  }

  lemma UnmapKeepsTable(m: Mem, m1: Mem, d: int, v: int)
    requires UserPage(m.tree, d, v) && TreeOk(m.tree) && OneChange(m.tree, m1.tree, d, v, 0)
      && KeepsPlain(m.tree, m1.tree)
    ensures Xlate(m1.tree, d, v) == 0 && Table(m1.tree, d, v) == Table(m.tree, d, v) && UserPage(m1.tree, d, v)
  {
    assert Xlate(m1.tree, d, v) == 0;
    assert Content(m1.tree, d) == Content(m.tree, d);
  }

  lemma MovedRefs(m: Mem, m1: Mem, m': Mem, s: (int, int), q: int, p: int)
    requires forall i :: s in Refs(m.tree, i) <==> i == q
    requires forall i :: Refs(m1.tree, i) == if i == q then Refs(m.tree, i) - {s} else Refs(m.tree, i)
    requires forall i :: Refs(m'.tree, i) == if i == p then Refs(m1.tree, i) + {s} else Refs(m1.tree, i)
    requires m1.free == if Refs(m.tree, q) == {s} && At(m.pins, q) == 0 then [q] + m.free else m.free
    requires At(m.pins, p) > 0 && m'.free == m1.free
    ensures forall i :: Refs(m'.tree, i) == if i == p then Refs(m.tree, i) + {s} else Refs(m.tree, i) - {s}
    ensures forall i :: i in m'.free <==> i in m.free || (i != p && Refs(m.tree, i) == {s} && At(m.pins, i) == 0)
  {
    forall i ensures i in m'.free <==> i in m.free || (i != p && Refs(m.tree, i) == {s} && At(m.pins, i) == 0) {
      assert Refs(m.tree, i) == {s} ==> s in Refs(m.tree, i);
    }
  }

  // What pgdir_walk does to references, page tables and the free list
  ghost predicate Walked(m: Mem, m1: Mem, d: int, v: int) {
    var grows := !HasTable(m.tree, d, v) && m.free != [];
    && m1.pins == m.pins && m1.tree.dirs == m.tree.dirs && |m1.tree.frames| == |m.tree.frames|
    && m1.tree.owner == (if grows then m.tree.owner[m.free[0] := (d, Pdx(v))] else m.tree.owner)
    && (forall i :: Refs(m1.tree, i) == if grows && i == m.free[0] then {(d, Pdx(v))} else Refs(m.tree, i))
    && (forall i :: i in m1.free <==> i in m.free && !(grows && i == m.free[0]))
    && Table(m1.tree, d, v) == InsertSlot(m, d, v).0
  }

  lemma WalkRefs(m: Mem, d: int, v: int)
    requires Inv(m) && UserPage(m.tree, d, v) && (HasTable(m.tree, d, v) || m.free != [])
    ensures Walked(m, Walk(m, d, v), d, v)
  {
    if !HasTable(m.tree, d, v) {
      NewTableKeeps(m, d, Pdx(v));
      AllocKeeps(m);
      MkPteParts(m.free[0], PTE_P + PTE_W + PTE_U);
      FreeUnreferenced(m, m.free[0]);
      assert m.free == [m.free[0]] + m.free[1..];
    }
  }

  lemma WalkedThenReplaced(m: Mem, m1: Mem, m': Mem, d: int, p: int, v: int)
    requires Walked(m, m1, d, v) && p !in m.free
    requires m.free != [] ==> m.free[0] != d && Refs(m.tree, m.free[0]) == {}
    requires m'.pins == m.pins && m'.tree.owner == m1.tree.owner && m'.tree.dirs == m1.tree.dirs
      && |m'.tree.frames| == |m1.tree.frames|
    requires forall i :: Refs(m'.tree, i) == if i == p then Refs(m1.tree, i) + {InsertSlot(m, d, v)}
      else Refs(m1.tree, i) - {InsertSlot(m, d, v)}
    requires forall i :: i in m'.free <==> (i in m1.free
      || (i != p && Refs(m1.tree, i) == {InsertSlot(m, d, v)} && At(m.pins, i) == 0))
    ensures Inserted(m, m', d, p, v)
  {
    var s, grows := InsertSlot(m, d, v), !HasTable(m.tree, d, v) && m.free != [];
    if grows {
      assert s == (m.free[0], Ptx(v)) && (d, Pdx(v)) != s;
      assert {(d, Pdx(v))} - {s} == {(d, Pdx(v))};
    }
  }

  lemma InsertRefs(m: Mem, d: int, p: int, v: int, perm: int)
    requires Inv(m) && UserPage(m.tree, d, v) && Plain(m.tree, p) && p !in m.free && IsFlags(perm)
    requires Insert(m, d, p, v, perm).1 == Ok
    ensures Inserted(m, Insert(m, d, p, v, perm).0, d, p, v)
  {
    WalkSpec(m, d, v);
    WalkRefs(m, d, v);
    var m1 := Walk(m, d, v);
    InsertIntoRefs(m1, d, p, v, perm);
    if m.free != [] {
      FreeUnreferenced(m, m.free[0]);
    }
    WalkedThenReplaced(m, m1, Insert(m, d, p, v, perm).0, d, p, v);
  }

  lemma InsertIntoRefs(m: Mem, d: int, p: int, v: int, perm: int)
    requires Inv(m) && UserPage(m.tree, d, v) && HasTable(m.tree, d, v) && Plain(m.tree, p) && p !in m.free
      && IsFlags(perm)
    ensures var m', s := Replace(Pin(m, p), d, p, v, perm), (Table(m.tree, d, v), Ptx(v));
      && m'.pins == m.pins && m'.tree.owner == m.tree.owner && m'.tree.dirs == m.tree.dirs
        && |m'.tree.frames| == |m.tree.frames|
      && (forall i :: Refs(m'.tree, i) == if i == p then Refs(m.tree, i) + {s} else Refs(m.tree, i) - {s})
      && (forall i :: i in m'.free <==> i in m.free || (i != p && Refs(m.tree, i) == {s} && At(m.pins, i) == 0))
  {
    InsertInto(m, d, p, v, perm);
    PinKeeps(m, p);
    OrPFlags(perm);
    ReplaceRefs(Pin(m, p), d, p, v, OrP(perm));
  }
}
