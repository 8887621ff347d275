/** User-level fork: duppage, pgfault and fork over the page system calls, and user loads and
    stores.  Copy-on-write is shown to be what eager copying would be in CowRefinesEager. */
module Cow {
  import opened Mmu
  import opened Phys
  import opened Vm
  import opened Syscalls
  import opened EnvVm

  const PERM_RW := PTE_P + PTE_U + PTE_W
  const PERM_COW := PTE_P + PTE_U + PTE_COW

  predicate W(e: int) { HasW(PteFlags(e)) }

  predicate U(e: int) { HasU(PteFlags(e)) }

  predicate C(e: int) { HasCow(PteFlags(e)) }

  lemma PermRwBits()
    ensures IsFlags(PERM_RW) && GoodPerm(PERM_RW) && HasW(PERM_RW) && HasU(PERM_RW) && HasP(PERM_RW) && !HasCow(PERM_RW)
  {
  }

  lemma PermCowBits()
    ensures IsFlags(PERM_COW) && GoodPerm(PERM_COW) && !HasW(PERM_COW) && HasU(PERM_COW) && HasP(PERM_COW)
      && HasCow(PERM_COW)
  {
  }

  lemma PermBits(frame: int)
    ensures GoodPerm(PERM_RW) && W(MkPte(frame, PERM_RW)) && U(MkPte(frame, PERM_RW)) && !C(MkPte(frame, PERM_RW))
    ensures Present(MkPte(frame, PERM_RW)) && PteFrame(MkPte(frame, PERM_RW)) == frame
    ensures GoodPerm(PERM_COW) && !W(MkPte(frame, PERM_COW)) && U(MkPte(frame, PERM_COW)) && C(MkPte(frame, PERM_COW))
    ensures Present(MkPte(frame, PERM_COW)) && PteFrame(MkPte(frame, PERM_COW)) == frame
    ensures HasW(PERM_RW) && !HasW(PERM_COW)
  {
    PermRwBits();
    PermCowBits();
    MkPteParts(frame, PERM_RW);
    MkPteParts(frame, PERM_COW);
  }

  // ---------------------------------------------------------------- fork.c

  /** duppage: pn of address space pd into the same place of cd */
  ghost function Dup(m: Mem, pd: int, cd: int, pn: int): (Mem, Rc) {
    var e := Xlate(m.tree, pd, pn);
    if W(e) || C(e) then
      var (m1, rc) := SysPageMap(m, pd, pn, cd, pn, PERM_COW);
      if rc != Ok then (m1, rc) else SysPageMap(m1, pd, pn, pd, pn, PERM_COW)
    else SysPageMap(m, pd, pn, cd, pn, PteFlags(e))
  }

  // One turn of fork's loop over the pages of the program image
  ghost function DupMapped(m: Mem, pd: int, cd: int, pn: int): (Mem, Rc) {
    if Present(Xlate(m.tree, pd, pn)) then Dup(m, pd, cd, pn) else (m, Ok)
  }

  ghost function DupRange(m: Mem, pd: int, cd: int, pn: int, last: int): (Mem, Rc)
    decreases last - pn
  {
    if pn >= last then (m, Ok)
    else
      var (m1, rc) := DupMapped(m, pd, cd, pn);
      if rc != Ok then (m1, rc) else DupRange(m1, pd, cd, pn + 1, last)
  }

  // fork after sys_exofork: the child's address space
  ghost function CopySpace(m: Mem, pd: int, cd: int, last: int): (Mem, Rc) {
    var (m1, rc1) := DupRange(m, pd, cd, UTEXT_PN, last);
    if rc1 != Ok then (m1, rc1)
    else
      var (m2, rc2) := Dup(m1, pd, cd, USTACK_PN);
      if rc2 != Ok then (m2, rc2) else SysPageAlloc(m2, cd, UXSTACK_PN, PERM_RW)
  }

  /** pgfault, for a write fault at page pn */
  ghost function PgFault(m: Mem, d: int, pn: int): (Mem, Rc) {
    if !C(Xlate(m.tree, d, pn)) then (m, Inval)
    else
      var (m1, rc1) := SysPageAlloc(m, d, PFTEMP_PN, PERM_RW);
      if rc1 != Ok then (m1, rc1)
      else
        var p := PteFrame(Xlate(m1.tree, d, PFTEMP_PN));
        var m2 := Fill(m1, p, Content(m1.tree, PteFrame(Xlate(m1.tree, d, pn))));
        var (m3, rc3) := SysPageMap(m2, d, PFTEMP_PN, d, pn, PERM_RW);
        if rc3 != Ok then (m3, rc3) else SysPageUnmap(m3, d, PFTEMP_PN)
  }

  // A store through a writable mapping
  ghost function Store(m: Mem, d: int, pn: int, k: int, x: int): Mem {
    var p := PteFrame(Xlate(m.tree, d, pn));
    Fill(m, p, Upd(Content(m.tree, p), k, x))
  }

  // ---------------------------------------------------------------- what a program sees

  datatype Page = Page(content: Frame, writable: bool)

  datatype Option<T> = None | Some(value: T)

  // The page a user program sees at v: copy-on-write pages count as writable.
  ghost function View(t: Tree, d: int, v: int): Option<Page> {
    var e := Xlate(t, d, v);
    if Present(e) && U(e) then Some(Page(Content(t, PteFrame(e)), W(e) || C(e))) else None
  }

  // No other virtual page of any address space names the frame behind (d, v).
  ghost predicate Exclusive(t: Tree, d: int, v: int) {
    forall d', v' {:trigger Xlate(t, d', v')} ::
      UserPage(t, d', v') && Present(Xlate(t, d', v')) && PteFrame(Xlate(t, d', v')) == PteFrame(Xlate(t, d, v)) ==>
        d' == d && v' == v
  }

  /** The core of copy-on-write: a frame with a writable mapping has only that one mapping. */
  ghost predicate WExclusive(t: Tree, d: int, v: int) {
    var e := Xlate(t, d, v);
    Present(e) ==> (W(e) ==> Exclusive(t, d, v)) && (W(e) || C(e) ==> U(e))
  }

  ghost predicate CowOk(t: Tree) {
    forall d, v {:trigger Xlate(t, d, v)} :: UserPage(t, d, v) ==> WExclusive(t, d, v)
  }

  // CowOk but for (d0, v0), whose frame no other writable mapping names
  ghost predicate CowOkBut(t: Tree, d0: int, v0: int) {
    forall d, v {:trigger Xlate(t, d, v)} :: UserPage(t, d, v) && !(d == d0 && v == v0) ==> WExclusive(t, d, v)
  }

  lemma ViewKeeps(m: Mem, m': Mem, d: int, v: int)
    requires Inv(m) && UserPage(m.tree, d, v) && KeepsFrames(m, m') && Xlate(m'.tree, d, v) == Xlate(m.tree, d, v)
    ensures View(m'.tree, d, v) == View(m.tree, d, v)
  {
    if Present(Xlate(m.tree, d, v)) {
      XlateTarget(m, d, v);
    }
  }

  // A new mapping of a frame whose writable mappings are at most (d0, v0)
  lemma ShareMapping(t: Tree, t': Tree, d0: int, v0: int, d: int, v: int, e: int)
    requires CowOk(t) && UserPage(t, d0, v0) && Present(Xlate(t, d0, v0)) && UserPage(t, d, v)
      && OneChange(t, t', d, v, e)
    requires Present(e) && PteFrame(e) == PteFrame(Xlate(t, d0, v0)) && !W(e) && (C(e) ==> U(e))
      && !(d == d0 && v == v0)
    ensures CowOkBut(t', d0, v0)
    ensures !W(Xlate(t, d0, v0)) ==> CowOk(t')
  {
    forall d1, v1 | UserPage(t', d1, v1) && !(d1 == d0 && v1 == v0 && W(Xlate(t, d0, v0)))
      ensures WExclusive(t', d1, v1)
    {
      assert WExclusive(t, d1, v1);
      if !(d1 == d && v1 == v) && Present(Xlate(t, d1, v1)) && W(Xlate(t, d1, v1)) {
        forall d2, v2 | UserPage(t', d2, v2) && Present(Xlate(t', d2, v2))
          && PteFrame(Xlate(t', d2, v2)) == PteFrame(Xlate(t', d1, v1))
          ensures d2 == d1 && v2 == v1
        {
          assert Xlate(t', d1, v1) == Xlate(t, d1, v1);
          assert Xlate(t', d2, v2) == if d2 == d && v2 == v then e else Xlate(t, d2, v2);
        }
      }
    }
  }

  // Taking write permission away from (d, v)
  lemma ProtectMapping(t: Tree, t': Tree, d: int, v: int, e: int)
    requires CowOkBut(t, d, v) && UserPage(t, d, v) && OneChange(t, t', d, v, e)
    requires Present(e) && PteFrame(e) == PteFrame(Xlate(t, d, v)) && Present(Xlate(t, d, v)) && !W(e)
      && (C(e) ==> U(e))
    ensures CowOk(t')
  {
    forall d1, v1 | UserPage(t', d1, v1) ensures WExclusive(t', d1, v1) {
      assert Xlate(t', d1, v1) == if d1 == d && v1 == v then e else Xlate(t, d1, v1);
      if !(d1 == d && v1 == v) {
        assert WExclusive(t, d1, v1);
        if Present(Xlate(t, d1, v1)) && W(Xlate(t, d1, v1)) {
          forall d2, v2 | UserPage(t', d2, v2) && Present(Xlate(t', d2, v2))
            && PteFrame(Xlate(t', d2, v2)) == PteFrame(Xlate(t', d1, v1))
            ensures d2 == d1 && v2 == v1
          {
            assert Xlate(t', d2, v2) == if d2 == d && v2 == v then e else Xlate(t, d2, v2);
          }
        }
      }
    }
  }

  // A mapping of a frame that nothing else maps, or no mapping at all
  lemma FreshMapping(t: Tree, t': Tree, d: int, v: int, e: int)
    requires CowOk(t) && UserPage(t, d, v) && OneChange(t, t', d, v, e) && (W(e) || C(e) ==> U(e))
    requires Present(e) ==> forall d', v' {:trigger Xlate(t, d', v')} :: (UserPage(t, d', v')
      && Present(Xlate(t, d', v'))) ==> PteFrame(Xlate(t, d', v')) != PteFrame(e)
    ensures CowOk(t')
  {
    forall d1, v1 | UserPage(t', d1, v1) ensures WExclusive(t', d1, v1) {
      assert Xlate(t', d1, v1) == if d1 == d && v1 == v then e else Xlate(t, d1, v1);
      assert WExclusive(t, d1, v1);
      if Present(Xlate(t', d1, v1)) && W(Xlate(t', d1, v1)) {
        forall d2, v2 | UserPage(t', d2, v2) && Present(Xlate(t', d2, v2))
          && PteFrame(Xlate(t', d2, v2)) == PteFrame(Xlate(t', d1, v1))
          ensures d2 == d1 && v2 == v1
        {
          assert Xlate(t', d2, v2) == if d2 == d && v2 == v then e else Xlate(t, d2, v2);
        }
      }
    }
  }

  // ---------------------------------------------------------------- duppage and the fork loop

  // Views of all virtual pages but (d0, v0) are as before.
  ghost predicate ViewsBut(t: Tree, t': Tree, d0: int, v0: int) {
    && t'.dirs == t.dirs
    && forall d, v {:trigger View(t', d, v)} :: UserPage(t, d, v) && !(d == d0 && v == v0) ==>
      View(t', d, v) == View(t, d, v)
  }

  lemma ChangeViews(m: Mem, m': Mem, d: int, v: int, e: int)
    requires Inv(m) && KeepsFrames(m, m') && OneChange(m.tree, m'.tree, d, v, e)
    ensures ViewsBut(m.tree, m'.tree, d, v)
  {
    forall d1, v1 | UserPage(m.tree, d1, v1) && !(d1 == d && v1 == v)
      ensures View(m'.tree, d1, v1) == View(m.tree, d1, v1)
    {
      assert Xlate(m'.tree, d1, v1) == Xlate(m.tree, d1, v1);
      ViewKeeps(m, m', d1, v1);
    }
  }

  lemma SameViews(m: Mem, m': Mem, d0: int, v0: int)
    requires Inv(m) && KeepsFrames(m, m') && SameSpaces(m.tree, m'.tree)
    ensures ViewsBut(m.tree, m'.tree, d0, v0)
      && (UserPage(m.tree, d0, v0) ==> View(m'.tree, d0, v0) == View(m.tree, d0, v0))
    ensures CowOk(m.tree) ==> CowOk(m'.tree)
  {
    forall d1, v1 | UserPage(m.tree, d1, v1)
      ensures View(m'.tree, d1, v1) == View(m.tree, d1, v1)
    {
      assert Xlate(m'.tree, d1, v1) == Xlate(m.tree, d1, v1);
      ViewKeeps(m, m', d1, v1);
    }
    if CowOk(m.tree) {
      forall d1, v1 | UserPage(m'.tree, d1, v1) ensures WExclusive(m'.tree, d1, v1) {
        assert WExclusive(m.tree, d1, v1);
        assert Xlate(m'.tree, d1, v1) == Xlate(m.tree, d1, v1);
        forall d2, v2 | UserPage(m'.tree, d2, v2) ensures Xlate(m'.tree, d2, v2) == Xlate(m.tree, d2, v2) {
        }
      }
    }
  }

  // The view through a mapping of a frame in use, before and after
  lemma MappedView(m: Mem, m': Mem, d0: int, v0: int, d: int, v: int, e: int)
    requires Inv(m) && UserPage(m.tree, d0, v0) && Present(Xlate(m.tree, d0, v0)) && KeepsFrames(m, m')
    requires Xlate(m'.tree, d, v) == e && Present(e) && PteFrame(e) == PteFrame(Xlate(m.tree, d0, v0))
    requires U(e) == U(Xlate(m.tree, d0, v0))
      && (W(e) || C(e)) == (W(Xlate(m.tree, d0, v0)) || C(Xlate(m.tree, d0, v0)))
    ensures View(m'.tree, d, v) == View(m.tree, d0, v0)
  {
    XlateTarget(m, d0, v0);
  }

  // First half of duppage: the child's mapping
  lemma DupChild(m: Mem, pd: int, cd: int, pn: int, perm: int)
    requires Inv(m) && CowOk(m.tree) && UserPage(m.tree, pd, pn) && UserPage(m.tree, cd, pn) && pd != cd
      && Present(Xlate(m.tree, pd, pn))
    requires IsFlags(perm) && !HasW(perm) && (HasU(perm) == U(Xlate(m.tree, pd, pn)) || !GoodPerm(perm))
    requires HasCow(perm) == (W(Xlate(m.tree, pd, pn)) || C(Xlate(m.tree, pd, pn)))
    ensures var (m1, rc) := SysPageMap(m, pd, pn, cd, pn, perm);
      && Inv(m1) && ViewsBut(m.tree, m1.tree, cd, pn) && KeepsFrames(m, m1)
      && Xlate(m1.tree, pd, pn) == Xlate(m.tree, pd, pn)
      && (rc == Ok ==> CowOkBut(m1.tree, pd, pn) && View(m1.tree, cd, pn) == View(m.tree, pd, pn))
      && (rc == Ok && !W(Xlate(m.tree, pd, pn)) ==> CowOk(m1.tree))
      && (rc != Ok ==> CowOk(m1.tree))
  {
    var e := Xlate(m.tree, pd, pn);
    SysPageMapSpec(m, pd, pn, cd, pn, perm);
    var (m1, rc) := SysPageMap(m, pd, pn, cd, pn, perm);
    if rc == Ok {
      var e' := MkPte(PteFrame(e), perm);
      MkPteParts(PteFrame(e), perm);
      ChangeViews(m, m1, cd, pn, e');
      assert WExclusive(m.tree, pd, pn);
      ShareMapping(m.tree, m1.tree, pd, pn, cd, pn, e');
      assert Xlate(m1.tree, cd, pn) == e';
      MappedView(m, m1, pd, pn, cd, pn, e');
    } else {
      SameViews(m, m1, cd, pn);
    }
  }

  // Translations of all virtual pages but pages lo..hi of pd and cd are as before.
  ghost predicate XlateOutside(t: Tree, t': Tree, pd: int, cd: int, lo: int, hi: int) {
    && t'.dirs == t.dirs
    && forall d, v {:trigger Xlate(t', d, v)} :: UserPage(t, d, v) && !((d == pd || d == cd) && lo <= v < hi) ==>
         Xlate(t', d, v) == Xlate(t, d, v)
  }

  // Re-inserting a present page at its own address with changed permissions
  lemma Reinsert(m: Mem, d: int, v: int, q: int, perm: int)
    requires Inv(m) && UserPage(m.tree, d, v) && Present(Xlate(m.tree, d, v)) && q == PteFrame(Xlate(m.tree, d, v))
    requires GoodPerm(perm) && !HasW(perm)
    ensures var (m', rc) := SysPageMap(m, d, v, d, v, perm);
      && Inv(m') && KeepsFrames(m, m') && (rc == Ok || rc == Halt)
      && (rc == Ok ==> OneChange(m.tree, m'.tree, d, v, MkPte(q, perm)))
      && (rc == Halt ==> SameSpaces(m.tree, m'.tree))
  {
    assert MapArgs(m.tree, d, v, v, perm);
    XlateTarget(m, d, v);
    GoodPermFlags(perm);
    InsertSpec(m, d, q, v, perm);
  }

  // Second half of duppage: the parent's own mapping
  lemma DupParent(m: Mem, pd: int, pn: int, q: int)
    requires Inv(m) && CowOkBut(m.tree, pd, pn) && UserPage(m.tree, pd, pn) && Present(Xlate(m.tree, pd, pn))
    requires U(Xlate(m.tree, pd, pn)) && (W(Xlate(m.tree, pd, pn)) || C(Xlate(m.tree, pd, pn)))
      && q == PteFrame(Xlate(m.tree, pd, pn))
    ensures var (m', rc) := SysPageMap(m, pd, pn, pd, pn, PERM_COW);
      && Inv(m') && (rc == Ok || rc == Halt) && XlateOutside(m.tree, m'.tree, pd, pd, pn, pn + 1)
      && (rc == Ok ==> CowOk(m'.tree))
      && (forall d, v {:trigger View(m'.tree, d, v)} :: UserPage(m.tree, d, v) ==>
        View(m'.tree, d, v) == View(m.tree, d, v))
  {
    PermBits(q);
    Reinsert(m, pd, pn, q, PERM_COW);
    var (m', rc) := SysPageMap(m, pd, pn, pd, pn, PERM_COW);
    if rc == Ok {
      var e' := MkPte(q, PERM_COW);
      ChangeViews(m, m', pd, pn, e');
      ProtectMapping(m.tree, m'.tree, pd, pn, e');
      assert Xlate(m'.tree, pd, pn) == e';
      MappedView(m, m', pd, pn, pd, pn, e');
    } else {
      SameViews(m, m', pd, pn);
    }
  }

  ghost predicate Dupped(m: Mem, m': Mem, rc: Rc, pd: int, cd: int, pn: int) {
    && Inv(m') && ViewsBut(m.tree, m'.tree, cd, pn) && XlateOutside(m.tree, m'.tree, pd, cd, pn, pn + 1)
    && (rc == Ok ==> View(m'.tree, cd, pn) == View(m.tree, pd, pn))
    && (rc != Halt ==> CowOk(m'.tree))
  }

  lemma MapOutside(m: Mem, sd: int, sv: int, dd: int, dv: int, perm: int, pd: int)
    requires Inv(m) && UserPage(m.tree, sd, sv) && UserPage(m.tree, dd, dv) && Present(Xlate(m.tree, sd, sv))
    ensures XlateOutside(m.tree, SysPageMap(m, sd, sv, dd, dv, perm).0.tree, pd, dd, dv, dv + 1)
  {
    SysPageMapSpec(m, sd, sv, dd, dv, perm);
  }

  lemma DupShared(m: Mem, pd: int, cd: int, pn: int, q: int)
    requires Inv(m) && CowOk(m.tree) && UserPage(m.tree, pd, pn) && UserPage(m.tree, cd, pn) && pd != cd
    requires Present(Xlate(m.tree, pd, pn)) && (W(Xlate(m.tree, pd, pn)) || C(Xlate(m.tree, pd, pn)))
      && q == PteFrame(Xlate(m.tree, pd, pn))
    ensures var (m', rc) := Dup(m, pd, cd, pn); Dupped(m, m', rc, pd, cd, pn)
  {
    assert WExclusive(m.tree, pd, pn);
    PermBits(q);
    DupChild(m, pd, cd, pn, PERM_COW);
    MapOutside(m, pd, pn, cd, pn, PERM_COW, pd);
    var (m1, rc) := SysPageMap(m, pd, pn, cd, pn, PERM_COW);
    if rc == Ok {
      DupParent(m1, pd, pn, q);
      var m2 := SysPageMap(m1, pd, pn, pd, pn, PERM_COW).0;
      assert View(m2.tree, cd, pn) == View(m1.tree, cd, pn);
      forall d, v | UserPage(m.tree, d, v) && !((d == pd || d == cd) && pn <= v < pn + 1)
        ensures Xlate(m2.tree, d, v) == Xlate(m.tree, d, v)
      {
        assert Xlate(m1.tree, d, v) == Xlate(m.tree, d, v);
      }
      forall d, v | UserPage(m.tree, d, v) && !(d == cd && v == pn) ensures View(m2.tree, d, v) == View(m.tree, d, v) {
        assert View(m1.tree, d, v) == View(m.tree, d, v);
      }
    }
  }

  lemma DupReadOnly(m: Mem, pd: int, cd: int, pn: int, perm: int)
    requires Inv(m) && CowOk(m.tree) && UserPage(m.tree, pd, pn) && UserPage(m.tree, cd, pn) && pd != cd
    requires Present(Xlate(m.tree, pd, pn)) && !W(Xlate(m.tree, pd, pn)) && !C(Xlate(m.tree, pd, pn))
      && perm == PteFlags(Xlate(m.tree, pd, pn))
    ensures var (m', rc) := Dup(m, pd, cd, pn); Dupped(m, m', rc, pd, cd, pn)
  {
    DupChild(m, pd, cd, pn, perm);
    MapOutside(m, pd, pn, cd, pn, perm, pd);
  }

  /** duppage: when it succeeds the child sees the parent's page; unless the kernel halts, writable
      mappings are exclusive afterwards; nobody else's view changes. */
  lemma DupSpec(m: Mem, pd: int, cd: int, pn: int)
    requires Inv(m) && CowOk(m.tree) && UserPage(m.tree, pd, pn) && UserPage(m.tree, cd, pn) && pd != cd
    ensures var (m', rc) := Dup(m, pd, cd, pn); Dupped(m, m', rc, pd, cd, pn)
  {
    var e := Xlate(m.tree, pd, pn);
    if !Present(e) {
      XlateZeroOrPresent(m.tree, pd, pn);
    } else if W(e) || C(e) {
      DupShared(m, pd, cd, pn, PteFrame(e));
    } else {
      DupReadOnly(m, pd, cd, pn, PteFlags(e));
    }
  }

  // The effect of duplicating pages lo..hi of pd into cd: cd sees there what pd sees, and nothing
  // else changes for anybody.
  ghost predicate Copied(m: Mem, m': Mem, rc: Rc, pd: int, cd: int, lo: int, hi: int) {
    && Inv(m') && XlateOutside(m.tree, m'.tree, pd, cd, lo, hi)
    && (forall d, v {:trigger View(m'.tree, d, v)} :: UserPage(m.tree, d, v) && !(d == cd && lo <= v < hi) ==>
          View(m'.tree, d, v) == View(m.tree, d, v))
    && (rc == Ok ==> forall v {:trigger View(m'.tree, cd, v)} :: PnOk(v) && lo <= v < hi ==>
      View(m'.tree, cd, v) == View(m.tree, pd, v))
    && (rc != Halt ==> CowOk(m'.tree))
  }

  lemma CopiedThen(m: Mem, m1: Mem, m2: Mem, rc: Rc, pd: int, cd: int, lo: int, mid: int, hi: int)
    requires pd != cd && pd in m.tree.dirs && cd in m.tree.dirs && lo <= mid <= hi
    requires Copied(m, m1, Ok, pd, cd, lo, mid) && Copied(m1, m2, rc, pd, cd, mid, hi)
    ensures Copied(m, m2, rc, pd, cd, lo, hi)
  {
    forall d, v | UserPage(m.tree, d, v) && !((d == pd || d == cd) && lo <= v < hi)
      ensures Xlate(m2.tree, d, v) == Xlate(m.tree, d, v)
    {
      assert Xlate(m1.tree, d, v) == Xlate(m.tree, d, v);
    }
    forall d, v | UserPage(m.tree, d, v) && !(d == cd && lo <= v < hi)
      ensures View(m2.tree, d, v) == View(m.tree, d, v)
    {
      assert View(m1.tree, d, v) == View(m.tree, d, v);
    }
    if rc == Ok {
      forall v | PnOk(v) && lo <= v < hi ensures View(m2.tree, cd, v) == View(m.tree, pd, v) {
        assert UserPage(m.tree, cd, v) && UserPage(m.tree, pd, v);
        assert View(m1.tree, pd, v) == View(m.tree, pd, v);
        assert v < mid ==> View(m2.tree, cd, v) == View(m1.tree, cd, v);
      }
    }
  }

  // cd has nothing mapped at pages lo..hi.
  ghost predicate Unmapped(t: Tree, cd: int, lo: int, hi: int) {
    forall v {:trigger Xlate(t, cd, v)} :: lo <= v < hi ==> !Present(Xlate(t, cd, v))
  }

  // Nothing to copy
  lemma CopiedNothing(m: Mem, pd: int, cd: int, lo: int, hi: int)
    requires Inv(m) && CowOk(m.tree) && cd in m.tree.dirs && 0 <= lo && hi <= UTOP_PN
    requires Unmapped(m.tree, cd, lo, hi) && Unmapped(m.tree, pd, lo, hi)
    ensures Copied(m, m, Ok, pd, cd, lo, hi)
  {
  }

  lemma DupOne(m: Mem, pd: int, cd: int, pn: int, last: int)
    requires Inv(m) && CowOk(m.tree) && pd in m.tree.dirs && cd in m.tree.dirs && pd != cd && 0 <= pn < last <= UTOP_PN
    requires Unmapped(m.tree, cd, pn, last)
    ensures var (m1, rc1) := DupMapped(m, pd, cd, pn);
      && Inv(m1) && m1.tree.dirs == m.tree.dirs && (rc1 != Halt ==> CowOk(m1.tree))
      && Copied(m, m1, rc1, pd, cd, pn, if rc1 == Ok then pn + 1 else last)
      && (rc1 == Ok ==> Unmapped(m1.tree, cd, pn + 1, last))
  {
    var (m1, rc1) := DupMapped(m, pd, cd, pn);
    if Present(Xlate(m.tree, pd, pn)) {
      DupSpec(m, pd, cd, pn);
    } else {
      CopiedNothing(m, pd, cd, pn, pn + 1);
    }
    if rc1 == Ok {
      StillUnmapped(m.tree, m1.tree, pd, cd, pn, last);
    }
  }

  lemma StillUnmapped(t: Tree, t1: Tree, pd: int, cd: int, pn: int, last: int)
    requires cd in t.dirs && 0 <= pn < last <= UTOP_PN && Unmapped(t, cd, pn, last)
      && XlateOutside(t, t1, pd, cd, pn, pn + 1)
    ensures Unmapped(t1, cd, pn + 1, last)
  {
    forall v | pn + 1 <= v < last ensures !Present(Xlate(t1, cd, v)) {
      assert UserPage(t, cd, v);
      assert Xlate(t1, cd, v) == Xlate(t, cd, v);
    }
  }

  // What one turn has done, and what the rest does
  lemma DupThen(m: Mem, m1: Mem, m': Mem, rc: Rc, pd: int, cd: int, pn: int, last: int)
    requires pd != cd && pd in m.tree.dirs && cd in m.tree.dirs && pn < last
    requires DupMapped(m, pd, cd, pn) == (m1, Ok) && DupRange(m1, pd, cd, pn + 1, last) == (m', rc)
    requires Copied(m, m1, Ok, pd, cd, pn, pn + 1) && Copied(m1, m', rc, pd, cd, pn + 1, last)
    ensures DupRange(m, pd, cd, pn, last) == (m', rc) && Copied(m, m', rc, pd, cd, pn, last)
  {
    CopiedThen(m, m1, m', rc, pd, cd, pn, pn + 1, last);
  }

  lemma {:induction false} DupRangeSpec(m: Mem, pd: int, cd: int, pn: int, last: int)
    requires Inv(m) && CowOk(m.tree) && pd in m.tree.dirs && cd in m.tree.dirs && pd != cd && 0 <= pn <= last <= UTOP_PN
    requires Unmapped(m.tree, cd, pn, last)
    ensures var (m', rc) := DupRange(m, pd, cd, pn, last); Copied(m, m', rc, pd, cd, pn, last)
    decreases last - pn
  {
    if pn == last {
      CopiedNothing(m, pd, cd, pn, last);
    } else {
      DupOne(m, pd, cd, pn, last);
      var (m1, rc1) := DupMapped(m, pd, cd, pn);
      if rc1 == Ok {
        DupRangeSpec(m1, pd, cd, pn + 1, last);
        var (m', rc) := DupRange(m1, pd, cd, pn + 1, last);
        DupThen(m, m1, m', rc, pd, cd, pn, last);
      }
    }
  }

  // A new page from the free list at an address of d: only that address changes.
  lemma AllocPage(m: Mem, d: int, v: int)
    requires Inv(m) && CowOk(m.tree) && UserPage(m.tree, d, v)
    ensures var (m', rc) := SysPageAlloc(m, d, v, PERM_RW);
      && Inv(m') && CowOk(m'.tree) && ViewsBut(m.tree, m'.tree, d, v) && XlateOutside(m.tree, m'.tree, d, d, v, v + 1)
      && KeepsFrames(m, m') && rc != Inval
      && (rc == Ok ==> m.free != [] && OneChange(m.tree, m'.tree, d, v, MkPte(m.free[0], PERM_RW)))
      && (rc == Ok ==> Plain(m'.tree, m.free[0]) && m.free[0] !in m'.free)
      && (rc != Ok ==> SameSpaces(m.tree, m'.tree))
  {
    PermBits(0);
    SysPageAllocSpec(m, d, v, PERM_RW);
    var (m', rc) := SysPageAlloc(m, d, v, PERM_RW);
    if rc == Ok {
      var p := m.free[0];
      PermBits(p);
      forall d', v' | UserPage(m.tree, d', v') && Present(Xlate(m.tree, d', v'))
        ensures PteFrame(Xlate(m.tree, d', v')) != p
      {
        XlateTarget(m, d', v');
      }
      FreshMapping(m.tree, m'.tree, d, v, MkPte(p, PERM_RW));
      ChangeViews(m, m', d, v, MkPte(p, PERM_RW));
    } else {
      SameViews(m, m', d, v);
    }
  }

  predicate Image(v: int, last: int) { UTEXT_PN <= v < last || v == USTACK_PN }

  // The user part of fork: the child sees the parent's image and stack, and nobody else's view
  // changes.
  ghost predicate Forked(m: Mem, m': Mem, rc: Rc, pd: int, cd: int, last: int) {
    && Inv(m') && m'.tree.dirs == m.tree.dirs
    && (forall d, v {:trigger View(m'.tree, d, v)} :: UserPage(m.tree, d, v) && d != cd ==>
      View(m'.tree, d, v) == View(m.tree, d, v))
    && (forall d, v {:trigger Xlate(m'.tree, d, v)} :: (UserPage(m.tree, d, v) && d != cd
      && (d != pd || !Image(v, last))) ==>
          Xlate(m'.tree, d, v) == Xlate(m.tree, d, v))
    && (rc == Ok ==> forall v {:trigger View(m'.tree, cd, v)} :: Image(v, last) ==>
      View(m'.tree, cd, v) == View(m.tree, pd, v))
    && (rc != Halt ==> CowOk(m'.tree))
  }

  // The image, then the stack
  lemma ForkedStack(m: Mem, m1: Mem, m2: Mem, rc: Rc, pd: int, cd: int, last: int)
    requires pd in m.tree.dirs && cd in m.tree.dirs && pd != cd && UTEXT_PN <= last <= USTACK_PN
    requires Copied(m, m1, Ok, pd, cd, UTEXT_PN, last) && Dupped(m1, m2, rc, pd, cd, USTACK_PN)
    ensures Forked(m, m2, rc, pd, cd, last)
  {
    forall d, v | UserPage(m.tree, d, v) && d != cd ensures View(m2.tree, d, v) == View(m.tree, d, v) {
      assert View(m1.tree, d, v) == View(m.tree, d, v);
    }
    forall d, v | UserPage(m.tree, d, v) && d != cd && (d != pd || !Image(v, last))
      ensures Xlate(m2.tree, d, v) == Xlate(m.tree, d, v)
    {
      assert Xlate(m1.tree, d, v) == Xlate(m.tree, d, v);
    }
    if rc == Ok {
      forall v | Image(v, last) ensures View(m2.tree, cd, v) == View(m.tree, pd, v) {
        assert UserPage(m.tree, cd, v) && UserPage(m.tree, pd, v);
        assert View(m1.tree, pd, v) == View(m.tree, pd, v);
        assert View(m1.tree, cd, v) == if v == USTACK_PN then View(m1.tree, cd, v) else View(m.tree, pd, v);
      }
    }
  }

  // Then the child's exception stack
  lemma ForkedXStack(m: Mem, m2: Mem, m3: Mem, rc: Rc, pd: int, cd: int, last: int)
    requires pd in m.tree.dirs && cd in m.tree.dirs && pd != cd && UTEXT_PN <= last <= USTACK_PN
    requires Forked(m, m2, Ok, pd, cd, last) && Inv(m3) && CowOk(m3.tree)
    requires ViewsBut(m2.tree, m3.tree, cd, UXSTACK_PN)
      && XlateOutside(m2.tree, m3.tree, cd, cd, UXSTACK_PN, UXSTACK_PN + 1)
    ensures Forked(m, m3, rc, pd, cd, last)
  {
    forall d, v | UserPage(m.tree, d, v) && d != cd ensures View(m3.tree, d, v) == View(m.tree, d, v) {
      assert View(m2.tree, d, v) == View(m.tree, d, v);
    }
    forall d, v | UserPage(m.tree, d, v) && d != cd && (d != pd || !Image(v, last))
      ensures Xlate(m3.tree, d, v) == Xlate(m.tree, d, v)
    {
      assert Xlate(m2.tree, d, v) == Xlate(m.tree, d, v);
    }
    forall v | Image(v, last) ensures View(m3.tree, cd, v) == View(m.tree, pd, v) {
      assert View(m2.tree, cd, v) == View(m.tree, pd, v);
    }
  }

  lemma CopySpaceSpec(m: Mem, pd: int, cd: int, last: int)
    requires Inv(m) && CowOk(m.tree) && pd in m.tree.dirs && cd in m.tree.dirs && pd != cd
      && UTEXT_PN <= last <= USTACK_PN
    requires Unmapped(m.tree, cd, 0, UTOP_PN)
    ensures var (m', rc) := CopySpace(m, pd, cd, last);
      && Forked(m, m', rc, pd, cd, last)
      && (rc == Ok ==> Present(Xlate(m'.tree, cd, UXSTACK_PN)) && U(Xlate(m'.tree, cd, UXSTACK_PN)))
  {
    DupRangeSpec(m, pd, cd, UTEXT_PN, last);
    var (m1, rc1) := DupRange(m, pd, cd, UTEXT_PN, last);
    if rc1 == Ok {
      DupSpec(m1, pd, cd, USTACK_PN);
      var (m2, rc2) := Dup(m1, pd, cd, USTACK_PN);
      ForkedStack(m, m1, m2, rc2, pd, cd, last);
      if rc2 == Ok {
        ForkedAlloc(m, m2, pd, cd, last);
      }
    }
  }

  lemma ForkedAlloc(m: Mem, m2: Mem, pd: int, cd: int, last: int)
    requires pd in m.tree.dirs && cd in m.tree.dirs && pd != cd && UTEXT_PN <= last <= USTACK_PN
    requires Forked(m, m2, Ok, pd, cd, last)
    ensures var (m3, rc3) := SysPageAlloc(m2, cd, UXSTACK_PN, PERM_RW);
      && Forked(m, m3, rc3, pd, cd, last)
      && (rc3 == Ok ==> Present(Xlate(m3.tree, cd, UXSTACK_PN)) && U(Xlate(m3.tree, cd, UXSTACK_PN)))
  {
    AllocPage(m2, cd, UXSTACK_PN);
    var (m3, rc3) := SysPageAlloc(m2, cd, UXSTACK_PN, PERM_RW);
    if rc3 == Ok {
      PermBits(m2.free[0]);
    }
    ForkedXStack(m, m2, m3, rc3, pd, cd, last);
  }

  // ---------------------------------------------------------------- page faults and stores

  // Overwriting a frame changes only the views that go through it.
  lemma FillViews(m: Mem, p: int, content: Frame, d: int, v: int)
    requires Inv(m) && Plain(m.tree, p) && p !in m.free && |content| == NPTENTRIES
    requires UserPage(m.tree, d, v) && Present(Xlate(m.tree, d, v)) && PteFrame(Xlate(m.tree, d, v)) == p
      && Exclusive(m.tree, d, v)
    ensures var m' := Fill(m, p, content);
      && Inv(m') && SameSpaces(m.tree, m'.tree) && ViewsBut(m.tree, m'.tree, d, v)
      && (CowOk(m.tree) ==> CowOk(m'.tree))
      && Content(m'.tree, p) == content
  {
    FillXlate(m, p, content);
    var m' := Fill(m, p, content);
    forall d1, v1 | UserPage(m.tree, d1, v1) && !(d1 == d && v1 == v)
      ensures View(m'.tree, d1, v1) == View(m.tree, d1, v1)
    {
      assert Xlate(m'.tree, d1, v1) == Xlate(m.tree, d1, v1);
    }
    if CowOk(m.tree) {
      SameSpacesCowOk(m.tree, m'.tree);
    }
  }

  lemma SameSpacesCowOk(t: Tree, t': Tree)
    requires CowOk(t) && SameSpaces(t, t')
    ensures CowOk(t')
  {
    forall d1, v1 | UserPage(t', d1, v1) ensures WExclusive(t', d1, v1) {
      assert WExclusive(t, d1, v1);
      assert Xlate(t', d1, v1) == Xlate(t, d1, v1);
      forall d2, v2 | UserPage(t', d2, v2) ensures Xlate(t', d2, v2) == Xlate(t, d2, v2) {
      }
    }
  }

  /** A store through a writable mapping changes that page of that program, and nothing that any
      other virtual page shows. */
  lemma StoreSpec(m: Mem, d: int, v: int, k: int, x: int)
    requires Inv(m) && CowOk(m.tree) && UserPage(m.tree, d, v) && Present(Xlate(m.tree, d, v)) && W(Xlate(m.tree, d, v))
      && 0 <= k < NPTENTRIES
    ensures var m' := Store(m, d, v, k, x);
      && Inv(m') && CowOk(m'.tree) && SameSpaces(m.tree, m'.tree) && ViewsBut(m.tree, m'.tree, d, v)
      && View(m.tree, d, v).Some? && View(m.tree, d, v).value.writable
      && View(m'.tree, d, v) == Some(Page(Upd(View(m.tree, d, v).value.content, k, x), true))
  {
    var p := PteFrame(Xlate(m.tree, d, v));
    XlateTarget(m, d, v);
    assert WExclusive(m.tree, d, v);
    var c := Content(m.tree, p);
    FillViews(m, p, Upd(c, k, x), d, v);
    assert Xlate(Store(m, d, v, k, x).tree, d, v) == Xlate(m.tree, d, v);
  }

  // Two changes: (d, v) to an unmapped frame, (d, v1) to nothing
  lemma FaultMapping(t: Tree, t': Tree, d: int, v: int, v1: int, e: int)
    requires CowOk(t) && UserPage(t, d, v) && UserPage(t, d, v1) && v != v1 && t'.dirs == t.dirs
      && (W(e) || C(e) ==> U(e)) && Present(e)
    requires forall d', v' {:trigger Xlate(t', d', v')} :: UserPage(t, d', v') ==>
      Xlate(t', d', v') == if d' == d && v' == v then e else if d' == d && v' == v1 then 0 else Xlate(t, d', v')
    requires forall d', v' {:trigger Xlate(t, d', v')} :: UserPage(t, d', v') && Present(Xlate(t, d', v')) ==>
      PteFrame(Xlate(t, d', v')) != PteFrame(e)
    ensures CowOk(t')
  {
    forall d1, v2 | UserPage(t', d1, v2) ensures WExclusive(t', d1, v2) {
      assert WExclusive(t, d1, v2);
      if Present(Xlate(t', d1, v2)) && W(Xlate(t', d1, v2)) {
        forall d3, v3 | UserPage(t', d3, v3) && Present(Xlate(t', d3, v3))
          && PteFrame(Xlate(t', d3, v3)) == PteFrame(Xlate(t', d1, v2))
          ensures d3 == d1 && v3 == v2
        {
          assert Present(Xlate(t, d3, v3)) || (d3 == d && v3 == v);
        }
      }
    }
  }

  // The state of pgfault after the copy: page p, mapped at PFTEMP alone, holds what q holds
  ghost predicate CopyMade(m: Mem, m2: Mem, d: int, v: int, p: int, q: int) {
    && Inv(m2) && m2.tree.dirs == m.tree.dirs
    && OneChange(m.tree, m2.tree, d, PFTEMP_PN, MkPte(p, PERM_RW)) && ViewsBut(m.tree, m2.tree, d, PFTEMP_PN)
    && Plain(m2.tree, p) && p !in m2.free && Content(m2.tree, p) == Content(m.tree, q)
    && (forall d', v' {:trigger Xlate(m.tree, d', v')} :: UserPage(m.tree, d', v') && Present(Xlate(m.tree, d', v')) ==>
      PteFrame(Xlate(m.tree, d', v')) != p)
  }

  // No page is mapped to the first free frame.
  lemma FreshFrame(m: Mem, p: int)
    requires Inv(m) && m.free != [] && p == m.free[0]
    ensures forall d, v {:trigger Xlate(m.tree, d, v)} :: UserPage(m.tree, d, v) && Present(Xlate(m.tree, d, v)) ==>
      PteFrame(Xlate(m.tree, d, v)) != p
  {
    forall d, v | UserPage(m.tree, d, v) && Present(Xlate(m.tree, d, v)) ensures PteFrame(Xlate(m.tree, d, v)) != p {
      XlateTarget(m, d, v);
    }
  }

  lemma FaultCopy(m: Mem, d: int, v: int, q: int)
    requires Inv(m) && CowOk(m.tree) && UserPage(m.tree, d, v) && v != PFTEMP_PN && Present(Xlate(m.tree, d, v))
      && q == PteFrame(Xlate(m.tree, d, v))
    requires SysPageAlloc(m, d, PFTEMP_PN, PERM_RW).1 == Ok
    ensures var m1 := SysPageAlloc(m, d, PFTEMP_PN, PERM_RW).0;
      && m.free != [] && PteFrame(Xlate(m1.tree, d, PFTEMP_PN)) == m.free[0] && PteFrame(Xlate(m1.tree, d, v)) == q
      && CopyMade(m, Fill(m1, m.free[0], Content(m1.tree, q)), d, v, m.free[0], q)
  {
    AllocPage(m, d, PFTEMP_PN);
    var p, m1 := m.free[0], SysPageAlloc(m, d, PFTEMP_PN, PERM_RW).0;
    FreshFrame(m, p);
    XlateTarget(m, d, v);
    FaultCopied(m, m1, d, v, p, q);
  }

  // From the state m1 after pgfault's sys_page_alloc
  lemma FaultCopied(m: Mem, m1: Mem, d: int, v: int, p: int, q: int)
    requires UserPage(m.tree, d, v) && v != PFTEMP_PN && q == PteFrame(Xlate(m.tree, d, v)) && Plain(m.tree, q)
      && q !in m.free
    requires Inv(m) && Inv(m1) && CowOk(m1.tree) && KeepsFrames(m, m1) && ViewsBut(m.tree, m1.tree, d, PFTEMP_PN)
    requires OneChange(m.tree, m1.tree, d, PFTEMP_PN, MkPte(p, PERM_RW)) && Plain(m1.tree, p) && p !in m1.free
    requires forall d', v' {:trigger Xlate(m.tree, d', v')} :: (UserPage(m.tree, d', v')
      && Present(Xlate(m.tree, d', v'))) ==>
      PteFrame(Xlate(m.tree, d', v')) != p
    ensures PteFrame(Xlate(m1.tree, d, PFTEMP_PN)) == p && PteFrame(Xlate(m1.tree, d, v)) == q
    ensures CopyMade(m, Fill(m1, p, Content(m1.tree, q)), d, v, p, q)
  {
    PermBits(p);
    assert UserPage(m.tree, d, PFTEMP_PN) && UserPage(m1.tree, d, PFTEMP_PN);
    assert Xlate(m1.tree, d, PFTEMP_PN) == MkPte(p, PERM_RW) && Xlate(m1.tree, d, v) == Xlate(m.tree, d, v);
    assert WExclusive(m1.tree, d, PFTEMP_PN);
    var c := Content(m1.tree, q);
    assert |c| == NPTENTRIES;
    FillViews(m1, p, c, d, PFTEMP_PN);
    var m2 := Fill(m1, p, c);
    forall d', v' | UserPage(m.tree, d', v') && !(d' == d && v' == PFTEMP_PN)
      ensures View(m2.tree, d', v') == View(m.tree, d', v')
    {
      assert View(m1.tree, d', v') == View(m.tree, d', v');
    }
  }

  lemma FaultMove(m: Mem, m2: Mem, d: int, v: int, p: int, q: int)
    requires Inv(m) && CowOk(m.tree) && UserPage(m.tree, d, v) && v != PFTEMP_PN && Present(Xlate(m.tree, d, v))
      && q == PteFrame(Xlate(m.tree, d, v))
    requires C(Xlate(m.tree, d, v)) && CopyMade(m, m2, d, v, p, q)
    ensures var (m3, rc3) := SysPageMap(m2, d, PFTEMP_PN, d, v, PERM_RW);
      && (rc3 == Ok || rc3 == Halt)
      && (rc3 == Halt ==> Inv(m3) && ViewsBut(m.tree, m3.tree, d, PFTEMP_PN))
      && (rc3 == Ok ==>
            var (m4, rc4) := SysPageUnmap(m3, d, PFTEMP_PN);
            && rc4 == Ok && Faulted(m, m4, d, v))
  {
    FaultMap(m, m2, d, v, p, q);
    var (m3, rc3) := SysPageMap(m2, d, PFTEMP_PN, d, v, PERM_RW);
    if rc3 == Ok {
      FaultUnmap(m, m2, m3, d, v, p, q);
    } else {
      forall d', v' | UserPage(m.tree, d', v') && !(d' == d && v' == PFTEMP_PN)
        ensures View(m3.tree, d', v') == View(m.tree, d', v')
      {
        assert View(m2.tree, d', v') == View(m.tree, d', v');
      }
    }
  }

  // pgfault's sys_page_map
  lemma FaultMap(m: Mem, m2: Mem, d: int, v: int, p: int, q: int)
    requires Inv(m) && UserPage(m.tree, d, v) && v != PFTEMP_PN && Present(Xlate(m.tree, d, v))
      && CopyMade(m, m2, d, v, p, q)
    ensures var (m3, rc3) := SysPageMap(m2, d, PFTEMP_PN, d, v, PERM_RW);
      && (rc3 == Ok || rc3 == Halt) && Inv(m3) && KeepsFrames(m2, m3)
      && (rc3 == Ok ==> OneChange(m2.tree, m3.tree, d, v, MkPte(p, PERM_RW)) && ViewsBut(m2.tree, m3.tree, d, v))
      && (rc3 == Halt ==> forall d', v' {:trigger View(m3.tree, d', v')} :: UserPage(m2.tree, d', v') ==>
        View(m3.tree, d', v') == View(m2.tree, d', v'))
  {
    FaultMapArgs(m, m2, d, v, p, q);
    GoodPermFlags(PERM_RW);
    InsertSpec(m2, d, p, v, PERM_RW);
    var (m3, rc3) := Insert(m2, d, p, v, PERM_RW);
    if rc3 == Ok {
      ChangeViews(m2, m3, d, v, MkPte(p, PERM_RW));
    } else {
      SameViews(m2, m3, d, v);
    }
  }

  lemma FaultMapArgs(m: Mem, m2: Mem, d: int, v: int, p: int, q: int)
    requires UserPage(m.tree, d, v) && v != PFTEMP_PN && Present(Xlate(m.tree, d, v)) && CopyMade(m, m2, d, v, p, q)
    ensures SysPageMap(m2, d, PFTEMP_PN, d, v, PERM_RW) == Insert(m2, d, p, v, PERM_RW)
    ensures HasTable(m2.tree, d, v) && UserPage(m2.tree, d, v)
  {
    PermBits(p);
    assert UserPage(m2.tree, d, PFTEMP_PN) && UserPage(m2.tree, d, v);
    assert Xlate(m2.tree, d, PFTEMP_PN) == MkPte(p, PERM_RW);
    assert Xlate(m2.tree, d, v) == Xlate(m.tree, d, v);
  }

  // After pgfault (d, v) is writable, PFTEMP is unmapped, and no view but PFTEMP's has changed.
  ghost predicate Faulted(m: Mem, m': Mem, d: int, v: int) {
    && Inv(m') && CowOk(m'.tree) && ViewsBut(m.tree, m'.tree, d, PFTEMP_PN)
    && Present(Xlate(m'.tree, d, v)) && W(Xlate(m'.tree, d, v)) && !C(Xlate(m'.tree, d, v))
    && (forall d', v' {:trigger Xlate(m'.tree, d', v')} :: (UserPage(m.tree, d', v')
      && !(d' == d && (v' == v || v' == PFTEMP_PN))) ==>
          Xlate(m'.tree, d', v') == Xlate(m.tree, d', v'))
    && Xlate(m'.tree, d, PFTEMP_PN) == 0
  }

  lemma FaultUnmap(m: Mem, m2: Mem, m3: Mem, d: int, v: int, p: int, q: int)
    requires Inv(m) && CowOk(m.tree) && UserPage(m.tree, d, v) && v != PFTEMP_PN && Present(Xlate(m.tree, d, v))
      && q == PteFrame(Xlate(m.tree, d, v))
    requires C(Xlate(m.tree, d, v)) && CopyMade(m, m2, d, v, p, q)
    requires Inv(m3) && OneChange(m2.tree, m3.tree, d, v, MkPte(p, PERM_RW)) && ViewsBut(m2.tree, m3.tree, d, v)
      && KeepsFrames(m2, m3)
    ensures var (m4, rc4) := SysPageUnmap(m3, d, PFTEMP_PN); rc4 == Ok && Faulted(m, m4, d, v)
  {
    PermBits(p);
    var e := MkPte(p, PERM_RW);
    assert Xlate(m2.tree, d, PFTEMP_PN) == e;
    assert Xlate(m3.tree, d, PFTEMP_PN) == e && Xlate(m3.tree, d, v) == e;
    assert UserPage(m3.tree, d, PFTEMP_PN);
    SysPageUnmapSpec(m3, d, PFTEMP_PN);
    var m4 := SysPageUnmap(m3, d, PFTEMP_PN).0;
    ChangeViews(m3, m4, d, PFTEMP_PN, 0);
    forall d', v' | UserPage(m.tree, d', v')
      ensures Xlate(m4.tree, d', v') == if d' == d && v' == v then e else if d' == d
        && v' == PFTEMP_PN then 0 else Xlate(m.tree, d', v')
    {
      assert Xlate(m3.tree, d', v') == if d' == d && v' == v then e else Xlate(m2.tree, d', v');
      assert Xlate(m2.tree, d', v') == if d' == d && v' == PFTEMP_PN then e else Xlate(m.tree, d', v');
    }
    FaultMapping(m.tree, m4.tree, d, v, PFTEMP_PN, e);
    assert WExclusive(m.tree, d, v);
    FaultView(m, m2, m3, m4, d, v, p, q);
    FaultViews(m.tree, m2.tree, m3.tree, m4.tree, d, v);
  }

  lemma FaultViews(t: Tree, t2: Tree, t3: Tree, t4: Tree, d: int, v: int)
    requires ViewsBut(t, t2, d, PFTEMP_PN) && ViewsBut(t2, t3, d, v) && ViewsBut(t3, t4, d, PFTEMP_PN)
      && View(t4, d, v) == View(t, d, v)
    ensures ViewsBut(t, t4, d, PFTEMP_PN)
  {
    forall d', v' | UserPage(t, d', v') && !(d' == d && v' == PFTEMP_PN) ensures View(t4, d', v') == View(t, d', v') {
      if !(d' == d && v' == v) {
        assert View(t3, d', v') == View(t2, d', v');
        assert View(t2, d', v') == View(t, d', v');
      }
    }
  }

  lemma FaultView(m: Mem, m2: Mem, m3: Mem, m4: Mem, d: int, v: int, p: int, q: int)
    requires Inv(m) && UserPage(m.tree, d, v) && Present(Xlate(m.tree, d, v)) && q == PteFrame(Xlate(m.tree, d, v))
    requires C(Xlate(m.tree, d, v)) && U(Xlate(m.tree, d, v)) && CopyMade(m, m2, d, v, p, q)
    requires Inv(m3) && KeepsFrames(m2, m3) && KeepsFrames(m3, m4) && UserPage(m3.tree, d, v)
    requires Xlate(m3.tree, d, v) == MkPte(p, PERM_RW) && Xlate(m4.tree, d, v) == MkPte(p, PERM_RW)
    ensures View(m4.tree, d, v) == View(m.tree, d, v)
  {
    PermBits(p);
    XlateTarget(m3, d, v);
  }

  /** pgfault on a copy-on-write page: the page becomes privately writable and keeps its content,
      nothing changes for other pages and programs (PFTEMP apart); if memory runs out, nothing
      changes for anybody. */
  lemma PgFaultSpec(m: Mem, d: int, v: int)
    requires Inv(m) && CowOk(m.tree) && UserPage(m.tree, d, v) && v != PFTEMP_PN && Present(Xlate(m.tree, d, v))
      && C(Xlate(m.tree, d, v))
    ensures var (m', rc) := PgFault(m, d, v);
      && Inv(m') && ViewsBut(m.tree, m'.tree, d, PFTEMP_PN) && rc != Inval
      && (rc == Ok ==> Faulted(m, m', d, v))
      && (rc == NoMem ==> CowOk(m'.tree) && SameSpaces(m.tree, m'.tree))
  {
    AllocPage(m, d, PFTEMP_PN);
    var (m1, rc1) := SysPageAlloc(m, d, PFTEMP_PN, PERM_RW);
    if rc1 == Ok {
      var p, q := m.free[0], PteFrame(Xlate(m.tree, d, v));
      FaultCopy(m, d, v, q);
      FaultMove(m, Fill(m1, p, Content(m1.tree, q)), d, v, p, q);
    }
  }

  // pgfault's new page has one reference, the mapping at PFTEMP.
  lemma NewPageRefs(m: Mem, d: int)
    requires Inv(m) && d in m.tree.dirs && m.free != []
    ensures var (m1, rc) := SysPageAlloc(m, d, PFTEMP_PN, PERM_RW);
      && (rc == Ok ==> Info(m1, m.free[0]).refs == 1)
      && (rc == Ok <==> HasTable(m.tree, d, PFTEMP_PN) || |m.free| >= 2)
      && (rc == Ok || rc == NoMem)
  {
    PermBits(0);
    GoodPermFlags(PERM_RW);
    AllocNoHalt(m, d, PFTEMP_PN, PERM_RW);
    AllocKeeps(m);
    var p := m.free[0];
    var (m1, rc) := SysPageAlloc(m, d, PFTEMP_PN, PERM_RW);
    assert Entry(Alloc(m).tree, d, Pdx(PFTEMP_PN)) == Entry(m.tree, d, Pdx(PFTEMP_PN));
    InsertSpec(Alloc(m), d, p, PFTEMP_PN, PERM_RW);
    if rc == Ok {
      InsertRefs(Alloc(m), d, p, PFTEMP_PN, PERM_RW);
      assert Counted(m1.pages, m1.tree, m1.pins, p);
    }
  }

  /** When a store to a copy-on-write page goes through: exactly when there is a page for the copy
      and, unless PFTEMP already has a page table, another for that.  With too few the fault handler
      gives up, but for one case: PFTEMP has a page table and there is no page at all, and
      sys_page_alloc uses page_alloc's null. */
  lemma PgFaultOutcome(m: Mem, d: int, v: int)
    requires Inv(m) && CowOk(m.tree) && UserPage(m.tree, d, v) && v != PFTEMP_PN && Present(Xlate(m.tree, d, v))
      && C(Xlate(m.tree, d, v))
    ensures PgFault(m, d, v).1 ==
      if HasTable(m.tree, d, PFTEMP_PN) then if m.free == [] then Halt else Ok
      else if |m.free| >= 2 then Ok else NoMem
  {
    PermBits(0);
    if m.free != [] {
      NewPageRefs(m, d);
      var (m1, rc1) := SysPageAlloc(m, d, PFTEMP_PN, PERM_RW);
      if rc1 == Ok {
        var p, q := m.free[0], PteFrame(Xlate(m.tree, d, v));
        FaultCopy(m, d, v, q);
        FaultMapOk(m, Fill(m1, p, Content(m1.tree, q)), d, v, p, q);
      }
    }
  }

  lemma FaultMapOk(m: Mem, m2: Mem, d: int, v: int, p: int, q: int)
    requires Inv(m) && UserPage(m.tree, d, v) && v != PFTEMP_PN && Present(Xlate(m.tree, d, v))
      && CopyMade(m, m2, d, v, p, q)
    requires Info(m2, p).refs == 1
    ensures SysPageMap(m2, d, PFTEMP_PN, d, v, PERM_RW).1 == Ok
  {
    FaultMapArgs(m, m2, d, v, p, q);
  }
}
