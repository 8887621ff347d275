/** The storage allocator on its two header fields, ptr[] and size[], indexed by unit. */
module Malloc {
  import opened Heap

  // The units a request of nbytes needs: its bytes, rounded up, and a header
  function NUnits(nbytes: int): int { (nbytes + HEADER - 1) / HEADER + 1 }

  // A byte count that sbrk's intptr_t argument can hold
  const MAX_REQUEST := 0x7fff_ff00

  // ---------------------------------------------------------------- how far the loops have to go

  ghost function Within(F: set<int>, p: int, bp: int): set<int> { set x | x in F && p < x < bp }

  ghost function Above(F: set<int>, p: int): set<int> { set x | x in F && x > p }

  // _free's search from p: members still to be passed before bp's place is found
  ghost function Distance(F: set<int>, p: int, bp: int): nat {
    if p < bp then |Within(F, p, bp)| else |F| + |Above(F, p)|
  }

  lemma Smaller(A: set<int>, B: set<int>, y: int)
    requires A <= B && y in B && y !in A
    ensures |A| < |B|
  {
    assert B == A + (B - A) && y in B - A;
  }

  lemma SearchStep(F: set<int>, p: int, q: int, bp: int)
    requires p in F && bp !in F && IsNext(F, p, q) && !Between(p, bp, q)
    ensures Distance(F, q, bp) < Distance(F, p, bp)
  {
    if p < bp {
      Smaller(Within(F, q, bp), Within(F, p, bp), q);
    } else if q > p {
      Smaller(Above(F, q), Above(F, p), q);
    } else {
      Smaller(Within(F, q, bp), F, q);
    }
  }

  class Allocator {
    const ptr: array<int>
    const size: array<int>
    const base: int
    const lo: int
    const limit: int
    var freep: int
    var brk: int               // kheaptop

    ghost var free: set<int>
    ghost var live: set<int>
    ghost var own: seq<int>

    // The two fields are apart, and the heap is as it should be.
    ghost predicate Valid()
      reads this, ptr, size
    {
      ptr != size && Inv(State())
    }

    ghost function State(): Heap
      reads this, ptr, size
    {
      Heap(ptr[..], size[..], base, lo, brk, limit, freep, free, live, own)
    }

    // Room for units lo..limit, base outside it
    constructor (units: nat, base0: int, lo0: int, limit0: int)
      requires 0 <= lo0 <= limit0 <= units && 0 <= base0 < units && (base0 < lo0 || limit0 < base0)
      ensures ptr != size && Unused(State())
    {
      ptr, size := new int[units], new int[units];
      base, lo, limit, freep, brk := base0, lo0, limit0, NIL, lo0;
      free, live, own := {}, {}, seq(units, _ => NIL);
    }

    /** _free's search stops where bp belongs in the circle, from wherever freep is. */
    method FindPlace(bp: int) returns (p: int)
      requires Valid() && bp in live
      ensures p in free && Between(p, bp, At(State().ptr, p))
    {
      p := freep;
      assert RingAt(ptr[..], free, p);
      while !(bp > p && bp < ptr[p])
        invariant p in free && RingAt(ptr[..], free, p)
        decreases Distance(free, p, bp)
      {
        if p >= ptr[p] && (bp > p || bp < ptr[p]) {
          break;
        }
        SearchStep(free, p, ptr[p], bp);
        p := ptr[p];
        assert RingAt(ptr[..], free, p);
      }
    }

    /** _free of the block after header bp == ap - 1 */
    method Free(bp: int)
      requires Valid() && bp in live
      modifies this, ptr, size
      ensures freep in old(free) && Between(freep, bp, At(old(State()).ptr, freep))
        && State() == FreeAt(old(State()), freep, bp)
      ensures Valid() && live == old(live) - {bp} && brk == old(brk)
      ensures Spares(old(State()), State(), live)
      ensures exists x :: x in free && At(State().size, x) >= old(At(State().size, bp))
    {
      ghost var h := State();
      var p := FindPlace(bp);
      FreeAtKeeps(h, p, bp);
      FreeAtSpares(h, p, bp);
      InRange(h, p, bp);
      Coalesce(p, bp);
    }

    // The rest of _free
    method Coalesce(p: int, bp: int)
      requires ptr != size && ptr.Length == size.Length == |own| && 0 <= p < ptr.Length && 0 <= bp < ptr.Length
        && p != bp
      requires 0 <= ptr[p] < ptr.Length && ptr[p] != bp
      modifies this, ptr, size
      ensures State() == FreeAt(old(State()), p, bp)
    {
      ghost var h := State();
      FreeAtForm(h, p, bp);
      Absorb(bp, ptr[p]);
      Attach(p, bp);
      assert State().ptr == FreeAt(h, p, bp).ptr;
    }

    // The first half of it: q, the next free block, joins bp or follows it.
    method Absorb(bp: int, q: int)
      requires ptr != size && ptr.Length == size.Length && 0 <= bp < ptr.Length && 0 <= q < ptr.Length && q != bp
      modifies this`free, this`own, ptr, size
      ensures var h, upper := old(State()), bp + old(size[bp]) == q;
        State() == h.(ptr := h.ptr[bp := if upper then h.ptr[q] else q],
          size := if upper then h.size[bp := h.size[bp] + h.size[q]] else h.size,
          free := if upper then h.free - {q} else h.free, own := if upper then Reown(h.own, q, bp) else h.own)
    {
      if bp + size[bp] == q {
        size[bp] := size[bp] + size[q];
        ptr[bp] := ptr[q];
        free, own := free - {q}, Reown(own, q, bp);
      } else {
        ptr[bp] := q;
      }
    }

    // The second half of it: bp joins p or follows it.
    method Attach(p: int, bp: int)
      requires ptr != size && ptr.Length == size.Length && 0 <= p < ptr.Length && 0 <= bp < ptr.Length && p != bp
      modifies this, ptr, size
      ensures var h, lower := old(State()), p + old(size[p]) == bp;
        State() == h.(ptr := h.ptr[p := if lower then h.ptr[bp] else bp],
          size := if lower then h.size[p := h.size[p] + h.size[bp]] else h.size,
          free := if lower then free else h.free + {bp}, own := if lower then Reown(h.own, bp, p) else h.own,
            live := h.live - {bp}, freep := p)
        && (lower ==> free == h.free)
    {
      if p + size[p] == bp {
        size[p] := size[p] + size[bp];
        ptr[p] := ptr[bp];
        own := Reown(own, bp, p);
      } else {
        ptr[p] := bp;
        free := free + {bp};
      }
      live := live - {bp};
      freep := p;
    }

    /** kheap_sbrk for n units: contiguous, and bounded by the heap's end.  The kernel panics where
        this returns NIL. */
    method Sbrk(n: int) returns (p: int)
      requires n >= 0
      modifies this`brk
      ensures if old(brk) + n >= limit then p == NIL && brk == old(brk) else p == old(brk) && brk == old(brk) + n
    {
      if brk + n >= limit {
        return NIL;
      }
      p := brk;
      brk := brk + n;
    }

    /** morecore: at least nu more units, freed into the list; the result is freep. */
    method Morecore(nu: int) returns (hp: int)
      requires Valid() && nu >= 1
      modifies this, ptr, size
      ensures Valid() && live == old(live)
      ensures var n := if nu < NALLOC then NALLOC else nu;
        if old(brk) + n >= limit then hp == NIL && State() == old(State())
        else hp == freep && brk == old(brk) + n && exists x :: x in free && At(State().size, x) >= nu
      ensures Spares(old(State()), State(), live)
    {
      ghost var h := State();
      var n := if nu < NALLOC then NALLOC else nu;
      hp := Sbrk(n);
      if hp == NIL {
        return;
      }
      GrowKeeps(h, n);
      size[hp] := n;
      live, own := live + {hp}, OwnRange(own, hp, n);
      assert State() == Grow(h, n);
      SparesTrans(h, hp, n);
      Free(hp);
      assert live == old(live);
      hp := freep;
    }

    // Taking block p, the successor of prevp, or its tail
    method Take(prevp: int, p: int, n: int) returns (b: int)
      requires Valid() && prevp in free && p in free && p == At(State().ptr, prevp) && 1 <= n <= At(State().size, p)
      modifies this, ptr, size
      ensures Valid() && b !in old(live) && b !in free && live == old(live) + {b} && At(State().size, b) == n
        && brk == old(brk)
      ensures State() == if At(old(State()).size, p) == n then Unlink(old(State()), prevp, p)
        else Carve(old(State()), prevp, p, n)
      ensures Spares(old(State()), State(), old(live))
    {
      ghost var h := State();
      TakeRange(h, prevp, p);
      if size[p] == n {
        UnlinkKeeps(h, prevp, p);
        TakeAll(prevp, p);
        b := p;
      } else {
        CarveKeeps(h, prevp, p, n);
        b := TakeTail(prevp, p, n);
      }
    }

    method TakeAll(prevp: int, p: int)
      requires ptr != size && 0 <= prevp < ptr.Length && 0 <= p < ptr.Length
      modifies this, ptr
      ensures State() == Unlink(old(State()), prevp, p)
    {
      ptr[prevp] := ptr[p];
      free, live := free - {p}, live + {p};
      freep := prevp;
    }

    method TakeTail(prevp: int, p: int, n: int) returns (b: int)
      requires ptr != size && 0 <= p < size.Length && 1 <= n < size[p] && p + size[p] <= size.Length
      modifies this, size
      ensures b == p + old(size[p]) - n && State() == Carve(old(State()), prevp, p, n)
    {
      size[p] := size[p] - n;
      b := p + size[p];
      size[b] := n;
      live, own := live + {b}, OwnRange(own, b, n);
      freep := prevp;
    }

    // The circle from p on to freep is all that may still hold a fit for n units.
    ghost predicate Searching(prevp: int, p: int, n: int)
      reads this, ptr, size
    {
      && Valid() && prevp in free && p == At(ptr[..], prevp) && p in free
      && forall x :: x in free && x !in Arc(free, p, freep) ==> At(size[..], x) < n
    }

    ghost predicate Fits(n: int)
      reads this, size
    {
      exists x :: x in free && At(size[..], x) >= n
    }

    /** _malloc: next fit.  The result is the header of the new block, NIL for a null pointer.  The
        loop always ends: after morecore there is a fit, and the circle from the block after freep
        round to freep itself, which the loop steps past first, holds it. */
    method Alloc(nbytes: int) returns (b: int)
      requires ptr != size && (Unused(State()) || Inv(State())) && 0 <= nbytes <= MAX_REQUEST
      modifies this, ptr, size
      ensures Valid()
      ensures b != NIL ==> b !in old(live) && live == old(live) + {b} && b !in free
      ensures b != NIL ==> (At(State().size, b) == NUnits(nbytes)
        && nbytes <= (At(State().size, b) - 1) * HEADER < nbytes + HEADER)
      ensures b == NIL ==> (live == old(live) && brk == old(brk) && !Fits(NUnits(nbytes))
        && brk + Wanted(nbytes) >= limit)
      ensures brk == old(brk) || brk == old(brk) + Wanted(nbytes)
      ensures brk != old(brk) ==> forall x :: x in old(free) ==> old(At(State().size, x)) < NUnits(nbytes)
      ensures Spares(old(State()), State(), old(live))
    {
      var nunits := NUnits(nbytes);
      if freep == NIL {
        StartInv(State());
        ptr[base] := base;
        freep := base;
        size[base] := 0;
        free := {base};
        assert State() == Start(old(State()));
      }
      b := NextFit(nunits);
    }

    // morecore, and the search starting over from the block after freep
    method Refill(n: int) returns (hp: int)
      requires Valid() && n >= 1
      modifies this, ptr, size
      ensures Valid() && live == old(live) && Spares(old(State()), State(), live)
      ensures hp == NIL ==> State() == old(State()) && brk + (if n < NALLOC then NALLOC else n) >= limit
      ensures hp != NIL ==> (hp == freep && 0 <= hp < ptr.Length && Searching(hp, ptr[hp], n) && Fits(n)
        && Arc(free, ptr[hp], freep) == free)
      ensures hp != NIL ==> brk == old(brk) + if n < NALLOC then NALLOC else n
    {
      hp := Morecore(n);
      if hp != NIL {
        RingStep(State(), hp);
      }
    }

    // _malloc's loop
    method NextFit(n: int) returns (b: int)
      requires Valid() && n >= 1
      modifies this, ptr, size
      ensures Valid()
      ensures b != NIL ==> b !in old(live) && live == old(live) + {b} && b !in free && At(State().size, b) == n
      ensures b == NIL ==> (live == old(live) && brk == old(brk) && !Fits(n)
        && brk + (if n < NALLOC then NALLOC else n) >= limit)
      ensures brk == old(brk) || (!old(Fits(n)) && brk == old(brk) + if n < NALLOC then NALLOC else n)
      ensures Spares(old(State()), State(), old(live))
    {
      ghost var h := State();
      var prevp := freep;
      RingStep(h, prevp);
      var p := ptr[prevp];
      ghost var grown := false;
      while true
        invariant Searching(prevp, p, n) && live == h.live && Spares(h, State(), h.live)
        invariant !grown ==> State() == h
        invariant grown ==> Fits(n) && !old(Fits(n)) && brk == h.brk + if n < NALLOC then NALLOC else n
        decreases !grown, |Arc(free, p, freep)|
      {
        RingStep(State(), p);
        if size[p] >= n {
          ghost var m := State();
          b := Take(prevp, p, n);
          SparesTwice(h, m, State());
          return;
        }
        if p == freep {
          NoneLeft(State(), p, n);
          p := Refill(n);
          if p == NIL {
            return NIL;
          }
          grown := true;
        } else {
          ArcStep(free, p, ptr[p], freep);
        }
        prevp := p;
        p := ptr[p];
      }
    }
  }

  // The units morecore asks for
  function Wanted(nbytes: int): int {
    if NUnits(nbytes) < NALLOC then NALLOC else NUnits(nbytes)
  }

  lemma RingStep(h: Heap, p: int)
    requires Inv(h) && p in h.free
    ensures 0 <= p < |h.ptr| && IsNext(h.free, p, h.ptr[p]) && h.ptr[p] in h.free
    ensures Arc(h.free, h.ptr[p], p) == h.free
  {
    assert RingAt(h.ptr, h.free, p);
    ArcAll(h.free, p, h.ptr[p]);
  }

  // A search that has come round to freep in vain has seen every free block.
  lemma NoneLeft(h: Heap, p: int, n: int)
    requires p in h.free && At(h.size, p) < n && forall x :: x in h.free && x !in Arc(h.free, p, p) ==>
      At(h.size, x) < n
    ensures forall x :: x in h.free ==> At(h.size, x) < n
  {
  }

  // The units of a live block whose header is spared stay its own.
  lemma OwnKept(h: Heap, m: Heap, u: int)
    requires Inv(h) && Inv(m) && Spares(h, m, h.live) && m.live == h.live && h.lo == m.lo && h.brk <= m.brk
    requires h.lo <= u < h.brk && At(h.own, u) in h.live
    ensures At(m.own, u) == At(h.own, u)
  {
    var b := At(h.own, u);
    assert TileOk(h.size, h.own, h.lo, h.brk, b) && TileOk(m.size, m.own, m.lo, m.brk, b);
    assert At(h.own, b) == b;
    assert At(m.size, b) == At(h.size, b);
  }

  lemma SparesTwice(h: Heap, m: Heap, h': Heap)
    requires Inv(h) && Inv(m) && Spares(h, m, h.live) && Spares(m, h', h.live) && m.live == h.live && h.lo == m.lo
      && h.brk <= m.brk
    ensures Spares(h, h', h.live)
  {
    forall u | h.lo <= u < h.brk && At(h.own, u) in h.live
      ensures At(h'.ptr, u) == At(h.ptr, u) && At(h'.size, u) == At(h.size, u)
    {
      OwnKept(h, m, u);
    }
  }

  lemma TakeRange(h: Heap, prevp: int, p: int)
    requires Inv(h) && prevp in h.free && p in h.free && At(h.size, p) >= 1
    ensures 0 <= prevp < |h.ptr| && 0 <= p < |h.ptr| && p + At(h.size, p) <= |h.ptr|
  {
    assert RingAt(h.ptr, h.free, prevp) && RingAt(h.ptr, h.free, p);
    assert p != h.base && TileOk(h.size, h.own, h.lo, h.brk, p);
  }

  // What spares live blocks after the heap has grown has spared them from before.
  lemma SparesTrans(h: Heap, b: int, n: int)
    requires Inv(h) && b == h.brk && n >= 1 && h.brk + n <= h.limit
    ensures var g := Grow(h, n);
      forall h' :: Spares(g, h', g.live - {b}) ==> Spares(h, h', h.live)
  {
    var g := Grow(h, n);
    GrowKeeps(h, n);
    assert g.live - {b} == h.live;
    forall u | h.lo <= u < h.brk
      ensures At(g.own, u) == At(h.own, u) && At(g.ptr, u) == At(h.ptr, u) && At(g.size, u) == At(h.size, u)
    {
    }
  }

  lemma InRange(h: Heap, p: int, bp: int)
    requires Inv(h) && bp in h.live && p in h.free
    ensures 0 <= p < |h.ptr| && 0 <= bp < |h.ptr| && p != bp
    ensures At(h.ptr, p) in h.free && 0 <= At(h.ptr, p) < |h.ptr| && At(h.ptr, p) != bp
  {
    assert RingAt(h.ptr, h.free, p);
    assert RingAt(h.ptr, h.free, h.ptr[p]);
    assert TileOk(h.size, h.own, h.lo, h.brk, bp);
  }
}
