/** The heap of the storage allocator: memory as units of one header each, the circular free list,
    and what freeing and allocating do to it.

    A block is named by the index of its header; it covers size[b] units from b.  base is the empty
    block outside the heap that the list starts with.  own[u] is the block that unit u belongs to. */
module Heap {
  const NIL := -1
  const NALLOC := 1024
  const HEADER := 8            // sizeof(Header)

  datatype Heap = Heap(
    ptr: seq<int>, size: seq<int>, base: int, lo: int, brk: int, limit: int, freep: int,
    free: set<int>, live: set<int>, own: seq<int>)

  function At(s: seq<int>, i: int): int {
    if 0 <= i < |s| then s[i] else NIL
  }

  function Upd(s: seq<int>, i: int, x: int): seq<int> {
    if 0 <= i < |s| then s[i := x] else s
  }

  // ---------------------------------------------------------------- the invariant

  // q follows p in the circle of F: it is the next higher member, or the lowest if p is the highest.
  ghost predicate IsNext(F: set<int>, p: int, q: int) {
    q in F && if q > p then forall x :: x in F ==> x <= p || x >= q else forall x :: x in F ==> q <= x <= p
  }

  ghost predicate RingAt(ptr: seq<int>, F: set<int>, p: int) {
    0 <= p < |ptr| && IsNext(F, p, ptr[p])
  }

  // The free list is one cycle in address order with a single wrap.
  ghost predicate Ring(ptr: seq<int>, F: set<int>) {
    forall p {:trigger RingAt(ptr, F, p)} :: p in F ==> RingAt(ptr, F, p)
  }

  ghost predicate TileOk(size: seq<int>, own: seq<int>, lo: int, brk: int, b: int) {
    && At(size, b) >= 1 && lo <= b && b + At(size, b) <= brk
    && forall u :: lo <= u < brk ==> (At(own, u) == b <==> b <= u < b + At(size, b))
  }

  // Blocks tile the memory taken from sbrk: every unit is in exactly one.
  ghost predicate Tiled(size: seq<int>, own: seq<int>, lo: int, brk: int, blocks: set<int>) {
    && (forall b :: b in blocks ==> TileOk(size, own, lo, brk, b))
    && (forall u :: lo <= u < brk ==> At(own, u) in blocks)
  }

  ghost predicate Touches(size: seq<int>, x: int, y: int) {
    x + At(size, x) == y
  }

  // No two free blocks touch.
  ghost predicate Coalesced(size: seq<int>, F: set<int>) {
    forall x, y :: x in F && y in F && x != y ==> !Touches(size, x, y)
  }

  ghost function Blocks(h: Heap): set<int> { h.free - {h.base} + h.live }

  // The fixed layout; base does not touch the heap or the room it can grow into.
  ghost predicate Layout(h: Heap) {
    && |h.ptr| == |h.size| == |h.own| && 0 <= h.lo <= h.brk <= h.limit <= |h.ptr|
    && 0 <= h.base < |h.ptr| && (h.base < h.lo || h.limit < h.base)
  }

  ghost predicate Inv(h: Heap) {
    && Layout(h)
    && h.freep in h.free && h.base in h.free && h.size[h.base] == 0
    && h.base !in h.live && h.free !! h.live
    && Ring(h.ptr, h.free)
    && Tiled(h.size, h.own, h.lo, h.brk, Blocks(h))
    && Coalesced(h.size, h.free)
  }

  // Before the first _malloc
  ghost predicate Unused(h: Heap) {
    Layout(h) && h.freep == NIL && h.free == {} && h.live == {} && h.lo == h.brk
  }

  // Memory of the blocks in L is not written.
  ghost predicate Spares(h: Heap, h': Heap, L: set<int>) {
    && |h'.ptr| == |h.ptr| && |h'.size| == |h.size|
    && forall u {:trigger At(h'.ptr, u)} {:trigger At(h'.size, u)} :: h.lo <= u < h.brk && At(h.own, u) in L ==>
         At(h'.ptr, u) == At(h.ptr, u) && At(h'.size, u) == At(h.size, u)
  }

  // ---------------------------------------------------------------- the circle

  // The test of _free's loop: bp belongs between p and its successor q.
  predicate Between(p: int, bp: int, q: int) {
    (p < bp < q) || (p >= q && (bp > p || bp < q))
  }

  // The members of F from p around to t
  ghost function Arc(F: set<int>, p: int, t: int): set<int> {
    set x | x in F && InArc(p, x, t)
  }

  predicate InArc(p: int, x: int, t: int) {
    if p <= t then p <= x <= t else x >= p || x <= t
  }

  lemma ArcStep(F: set<int>, p: int, q: int, t: int)
    requires p in F && t in F && p != t && IsNext(F, p, q)
    ensures Arc(F, q, t) == Arc(F, p, t) - {p} && p in Arc(F, p, t)
  {
    forall x | x in F ensures InArc(q, x, t) <==> InArc(p, x, t) && x != p {
    }
  }

  // A full turn
  lemma ArcAll(F: set<int>, p: int, q: int)
    requires p in F && IsNext(F, p, q)
    ensures Arc(F, q, p) == F
  {
    forall x | x in F ensures InArc(q, x, p) {
    }
  }

  function Follow(ptr: seq<int>, p: int, k: nat): int
    decreases k
  {
    if k == 0 then p else Follow(ptr, At(ptr, p), k - 1)
  }

  // Following ptr from p, every member of the arc to t is met in fewer steps than the arc has members.
  lemma {:induction false} FollowArc(ptr: seq<int>, F: set<int>, p: int, t: int, x: int) returns (k: nat)
    requires Ring(ptr, F) && p in F && t in F && x in Arc(F, p, t)
    ensures k < |Arc(F, p, t)| && Follow(ptr, p, k) == x
    decreases |Arc(F, p, t)|
  {
    if x == p {
      assert p in Arc(F, p, t);
      return 0;
    }
    assert p != t && RingAt(ptr, F, p);
    ArcStep(F, p, ptr[p], t);
    assert |Arc(F, ptr[p], t)| == |Arc(F, p, t)| - 1;
    k := FollowArc(ptr, F, ptr[p], t, x);
    k := k + 1;
  }

  /** The free list is one cycle: from any free block, following ptr meets every free block within a
      turn. */
  lemma OneCycle(h: Heap, p: int, x: int) returns (k: nat)
    requires Inv(h) && p in h.free && x in h.free
    ensures 1 <= k <= |h.free| && Follow(h.ptr, p, k) == x
  {
    assert RingAt(h.ptr, h.free, p);
    ArcAll(h.free, p, h.ptr[p]);
    k := FollowArc(h.ptr, h.free, h.ptr[p], p, x);
    k := k + 1;
  }

  // ---------------------------------------------------------------- freeing

  function Reown(own: seq<int>, b: int, b': int): seq<int> {
    seq(|own|, u requires 0 <= u < |own| => if own[u] == b then b' else own[u])
  }

  // bp takes in the free block q that follows it in memory and in the list, p's successor.
  function MergeUp(h: Heap, p: int, bp: int, q: int): Heap {
    h.(ptr := Upd(h.ptr, p, At(h.ptr, q)), size := Upd(h.size, bp, At(h.size, bp) + At(h.size, q)),
       free := h.free - {q}, own := Reown(h.own, q, bp), freep := p)
  }

  // The free block p takes in the live block bp that follows it in memory.
  function MergeDown(h: Heap, p: int, bp: int): Heap {
    h.(size := Upd(h.size, p, At(h.size, p) + At(h.size, bp)), live := h.live - {bp}, own := Reown(h.own, bp, p),
      freep := p)
  }

  // bp becomes p's successor in the list.
  function LinkIn(h: Heap, p: int, bp: int): Heap {
    h.(ptr := Upd(Upd(h.ptr, bp, At(h.ptr, p)), p, bp), free := h.free + {bp}, live := h.live - {bp}, freep := p)
  }

  // _free once the search has stopped at p
  function FreeAt(h: Heap, p: int, bp: int): Heap {
    var q := At(h.ptr, p);
    var upper := bp + At(h.size, bp) == q;
    var h0 := h.(ptr := Upd(h.ptr, bp, if upper then At(h.ptr, q) else q));
    var h1 := if upper then MergeUp(h0, p, bp, q) else h0;
    if p + At(h1.size, p) == bp then MergeDown(h1, p, bp) else LinkIn(h1, p, bp)
  }

  lemma NextRemove(F: set<int>, p: int, q: int, r: int, x: int, y: int)
    requires p in F && q in F && x in F && p != q && x != q
    requires IsNext(F, p, q) && IsNext(F, q, r) && IsNext(F, x, y)
    ensures IsNext(F - {q}, x, if x == p then r else y)
  {
    assert x != p ==> y != q;
  }

  lemma RingRemove(ptr: seq<int>, F: set<int>, p: int, q: int)
    requires Ring(ptr, F) && p in F && q in F && p != q && At(ptr, p) == q
    ensures Ring(Upd(ptr, p, At(ptr, q)), F - {q})
  {
    var ptr', F' := Upd(ptr, p, At(ptr, q)), F - {q};
    forall x | x in F' ensures RingAt(ptr', F', x) {
      assert RingAt(ptr, F, x) && RingAt(ptr, F, p) && RingAt(ptr, F, q);
      NextRemove(F, p, q, ptr[q], x, ptr[x]);
    }
  }

  lemma NextInsert(F: set<int>, p: int, q: int, bp: int, x: int, y: int)
    requires p in F && x in F && bp !in F && Between(p, bp, q) && IsNext(F, p, q) && IsNext(F, x, y)
    ensures IsNext(F + {bp}, x, if x == p then bp else y) && IsNext(F + {bp}, bp, q)
  {
    if x != p {
      assert x < p || x >= q;
    }
  }

  lemma RingInsert(ptr: seq<int>, F: set<int>, p: int, bp: int)
    requires Ring(ptr, F) && p in F && bp !in F && 0 <= bp < |ptr| && Between(p, bp, At(ptr, p))
    ensures Ring(Upd(Upd(ptr, bp, At(ptr, p)), p, bp), F + {bp})
  {
    var ptr', F' := Upd(Upd(ptr, bp, At(ptr, p)), p, bp), F + {bp};
    assert RingAt(ptr, F, p);
    forall x | x in F' ensures RingAt(ptr', F', x) {
      if x != bp {
        assert RingAt(ptr, F, x);
        NextInsert(F, p, ptr[p], bp, x, ptr[x]);
      } else {
        NextInsert(F, p, ptr[p], bp, p, ptr[p]);
      }
    }
  }

  // ---------------------------------------------------------------- tiles

  lemma TileMerge(size: seq<int>, own: seq<int>, lo: int, brk: int, blocks: set<int>, a: int, b: int)
    requires 0 <= lo <= brk <= |own| == |size| && Tiled(size, own, lo, brk, blocks)
    requires a in blocks && b in blocks && a != b && Touches(size, a, b)
    ensures Tiled(Upd(size, a, At(size, a) + At(size, b)), Reown(own, b, a), lo, brk, blocks - {b})
  {
    var size', own' := Upd(size, a, At(size, a) + At(size, b)), Reown(own, b, a);
    assert TileOk(size, own, lo, brk, a) && TileOk(size, own, lo, brk, b);
    assert forall u :: 0 <= u < |own| ==> At(own', u) == if At(own, u) == b then a else At(own, u);
    forall x | x in blocks - {b} ensures TileOk(size', own', lo, brk, x) {
      assert TileOk(size, own, lo, brk, x);
    }
  }

  // Two different blocks do not overlap.
  lemma TilesApart(size: seq<int>, own: seq<int>, lo: int, brk: int, blocks: set<int>, a: int, b: int)
    requires Tiled(size, own, lo, brk, blocks) && a in blocks && b in blocks && a < b
    ensures a + At(size, a) <= b && lo <= a && b < brk
  {
    assert TileOk(size, own, lo, brk, a) && TileOk(size, own, lo, brk, b);
    assert b < a + At(size, a) ==> At(own, b) == a;
  }

  // ---------------------------------------------------------------- freeing keeps the invariant

  // A write to the link of a live block
  lemma LinkWrite(h: Heap, bp: int, x: int)
    requires Inv(h) && bp in h.live
    ensures Inv(h.(ptr := Upd(h.ptr, bp, x)))
  {
    var ptr' := Upd(h.ptr, bp, x);
    forall p | p in h.free ensures RingAt(ptr', h.free, p) {
      assert RingAt(h.ptr, h.free, p);
    }
  }

  // The end of bp touches no free block.
  ghost predicate EndFree(h: Heap, bp: int) {
    forall y :: y in h.free ==> !Touches(h.size, bp, y)
  }

  lemma MergeUpKeeps(h: Heap, p: int, bp: int, q: int)
    requires Inv(h) && bp in h.live && p in h.free && q == At(h.ptr, p) && Between(p, bp, q) && Touches(h.size, bp, q)
    ensures var h' := MergeUp(h, p, bp, q);
      && Inv(h') && bp in h'.live && p in h'.free && Between(p, bp, At(h'.ptr, p)) && EndFree(h', bp)
      && At(h'.size, bp) >= At(h.size, bp) && At(h'.size, p) == At(h.size, p)
  {
    var h' := MergeUp(h, p, bp, q);
    assert RingAt(h.ptr, h.free, p) && RingAt(h.ptr, h.free, q);
    assert TileOk(h.size, h.own, h.lo, h.brk, bp);
    assert q != h.base;
    assert q != p;
    RingRemove(h.ptr, h.free, p, q);
    TileMerge(h.size, h.own, h.lo, h.brk, Blocks(h), bp, q);
    assert Blocks(h') == Blocks(h) - {q};
    assert TileOk(h.size, h.own, h.lo, h.brk, q);
    forall x, y | x in h'.free && y in h'.free && x != y ensures !Touches(h'.size, x, y) {
      assert !Touches(h.size, x, y);
    }
    forall y | y in h'.free ensures !Touches(h'.size, bp, y) {
      assert !Touches(h.size, q, y);
    }
  }

  lemma MergeDownKeeps(h: Heap, p: int, bp: int)
    requires Inv(h) && bp in h.live && p in h.free && Touches(h.size, p, bp) && EndFree(h, bp)
    ensures var h' := MergeDown(h, p, bp); Inv(h') && At(h'.size, p) >= At(h.size, bp)
  {
    var h' := MergeDown(h, p, bp);
    assert RingAt(h.ptr, h.free, p);
    assert TileOk(h.size, h.own, h.lo, h.brk, bp);
    assert p != h.base;
    TileMerge(h.size, h.own, h.lo, h.brk, Blocks(h), p, bp);
    assert Blocks(h') == Blocks(h) - {bp};
    forall x, y | x in h'.free && y in h'.free && x != y ensures !Touches(h'.size, x, y) {
      assert !Touches(h.size, x, y) && !Touches(h.size, bp, y);
    }
  }

  // Of the free blocks only p, the one just before bp, can end where bp begins.
  lemma OnlyPredecessor(h: Heap, p: int, bp: int, x: int)
    requires Inv(h) && bp in h.live && p in h.free && Between(p, bp, At(h.ptr, p)) && x in h.free
      && Touches(h.size, x, bp)
    ensures x == p
  {
    assert RingAt(h.ptr, h.free, p);
    assert TileOk(h.size, h.own, h.lo, h.brk, bp);
    if x != p {
      assert x != h.base;
      assert TileOk(h.size, h.own, h.lo, h.brk, x);
      assert x < p < bp && p != h.base;
      TilesApart(h.size, h.own, h.lo, h.brk, Blocks(h), x, p);
    }
  }

  lemma LinkInKeeps(h: Heap, p: int, bp: int)
    requires Inv(h) && bp in h.live && p in h.free && Between(p, bp, At(h.ptr, p)) && !Touches(h.size, p, bp)
      && EndFree(h, bp)
    ensures Inv(LinkIn(h, p, bp))
  {
    var h' := LinkIn(h, p, bp);
    assert TileOk(h.size, h.own, h.lo, h.brk, bp);
    RingInsert(h.ptr, h.free, p, bp);
    assert Blocks(h') == Blocks(h);
    forall x, y | x in h'.free && y in h'.free && x != y ensures !Touches(h'.size, x, y) {
      if y == bp && Touches(h.size, x, bp) {
        OnlyPredecessor(h, p, bp, x);
      }
      assert x != bp && y != bp ==> !Touches(h.size, x, y);
    }
  }

  /** _free puts bp back: the heap is again one tiled, coalesced circle; no other live block is
      touched; and some free block is at least as large as bp was. */
  lemma FreeAtKeeps(h: Heap, p: int, bp: int)
    requires Inv(h) && bp in h.live && p in h.free && Between(p, bp, At(h.ptr, p))
    ensures var h' := FreeAt(h, p, bp);
      && Inv(h') && h'.live == h.live - {bp} && h'.freep == p && h'.brk == h.brk && h'.lo == h.lo && h'.limit == h.limit
        && h'.base == h.base
      && exists x :: x in h'.free && At(h'.size, x) >= At(h.size, bp)
  {
    var q := At(h.ptr, p);
    var upper := bp + At(h.size, bp) == q;
    var h0 := h.(ptr := Upd(h.ptr, bp, if upper then At(h.ptr, q) else q));
    LinkWrite(h, bp, if upper then At(h.ptr, q) else q);
    assert p != bp;
    var h1 := if upper then MergeUp(h0, p, bp, q) else h0;
    if upper {
      NextNotLive(h, p, q, bp);
      MergeUpKeeps(h0, p, bp, q);
    } else {
      NoUpper(h0, p, bp);
    }
    var h' := FreeAt(h, p, bp);
    if p + At(h1.size, p) == bp {
      MergeDownKeeps(h1, p, bp);
      assert p in h'.free && At(h'.size, p) >= At(h.size, bp);
    } else {
      LinkInKeeps(h1, p, bp);
      assert bp in h'.free && At(h'.size, bp) >= At(h.size, bp);
    }
  }

  lemma NextNotLive(h: Heap, p: int, q: int, bp: int)
    requires Inv(h) && bp in h.live && p in h.free && q == At(h.ptr, p)
    ensures q != bp && q in h.free
  {
    assert RingAt(h.ptr, h.free, p);
  }

  // If bp does not end at its successor it ends at no free block.
  lemma NoUpper(h: Heap, p: int, bp: int)
    requires Inv(h) && bp in h.live && p in h.free && Between(p, bp, At(h.ptr, p)) && !Touches(h.size, bp, At(h.ptr, p))
    ensures EndFree(h, bp)
  {
    var q := At(h.ptr, p);
    assert RingAt(h.ptr, h.free, p);
    assert TileOk(h.size, h.own, h.lo, h.brk, bp);
    forall y | y in h.free ensures !Touches(h.size, bp, y) {
      if Touches(h.size, bp, y) {
        assert y != h.base;
        assert bp < q < y && q != h.base;
        TilesApart(h.size, h.own, h.lo, h.brk, Blocks(h), bp, q);
        assert false;
      }
    }
  }

  // What _free writes: the link of bp, then the link of p, and the sizes of those that grow.
  lemma FreeAtForm(h: Heap, p: int, bp: int)
    requires |h.ptr| == |h.size| == |h.own| && 0 <= p < |h.ptr| && 0 <= bp < |h.ptr| && p != bp
    requires At(h.ptr, p) != bp
    ensures var h', q := FreeAt(h, p, bp), At(h.ptr, p);
      var upper := bp + At(h.size, bp) == q;
      var lower := p + At(h.size, p) == bp;
      var next := if upper then At(h.ptr, q) else q;
      var size1 := if upper then h.size[bp := h.size[bp] + At(h.size, q)] else h.size;
      && h'.ptr == h.ptr[bp := next][p := if lower then next else bp]
      && h'.size == (if lower then size1[p := size1[p] + size1[bp]] else size1)
      && h'.free == (if upper then h.free - {q} else h.free) + (if lower then {} else {bp})
      && h'.own == (if lower then Reown(if upper then Reown(h.own, q, bp) else h.own, bp, p)
        else if upper then Reown(h.own, q, bp) else h.own)
      && h'.live == h.live - {bp} && h'.freep == p
        && h' == h.(ptr := h'.ptr, size := h'.size, free := h'.free, own := h'.own, live := h'.live, freep := p)
  {
    var h', q := FreeAt(h, p, bp), At(h.ptr, p);
    var lower := p + At(h.size, p) == bp;
    var next := if bp + At(h.size, bp) == q then At(h.ptr, q) else q;
    assert h'.ptr == h.ptr[bp := next][p := if lower then next else bp];
  }

  lemma FreeAtWrites(h: Heap, p: int, bp: int)
    requires |h.ptr| == |h.size| == |h.own|
    ensures var h', q := FreeAt(h, p, bp), At(h.ptr, p);
      && |h'.ptr| == |h.ptr| && |h'.size| == |h.size|
      && (forall u :: u != p && u != bp ==> At(h'.ptr, u) == At(h.ptr, u) && At(h'.size, u) == At(h.size, u))
      && (forall u :: At(h.own, u) != bp && At(h.own, u) != q ==> At(h'.own, u) == At(h.own, u))
  {
  }

  /** _free writes to the freed block and to free headers only. */
  lemma FreeAtSpares(h: Heap, p: int, bp: int)
    requires Inv(h) && bp in h.live && p in h.free && Between(p, bp, At(h.ptr, p))
    ensures Spares(h, FreeAt(h, p, bp), h.live - {bp})
    ensures forall b :: b in h.live && b != bp ==> (At(FreeAt(h, p, bp).own, b) == b
      && At(FreeAt(h, p, bp).size, b) == At(h.size, b))
  {
    FreeAtWrites(h, p, bp);
    NextNotLive(h, p, At(h.ptr, p), bp);
    SparesHeader(h, p);
    assert TileOk(h.size, h.own, h.lo, h.brk, bp);
    assert At(h.own, bp) == bp;
    forall b | b in h.live && b != bp ensures At(h.own, b) == b && b != p {
      assert TileOk(h.size, h.own, h.lo, h.brk, b);
    }
  }

  // The header of a free block is in no live block.
  lemma SparesHeader(h: Heap, p: int)
    requires Inv(h) && p in h.free
    ensures h.lo <= p < h.brk ==> At(h.own, p) !in h.live
  {
    if p != h.base {
      assert TileOk(h.size, h.own, h.lo, h.brk, p);
    }
  }

  // ---------------------------------------------------------------- allocating

  // The first call of _malloc sets the list up.
  function Start(h: Heap): Heap {
    h.(ptr := Upd(h.ptr, h.base, h.base), size := Upd(h.size, h.base, 0), freep := h.base, free := {h.base})
  }

  lemma StartInv(h: Heap)
    requires Unused(h)
    ensures Inv(Start(h)) && Spares(h, Start(h), {})
  {
    assert RingAt(Start(h).ptr, {h.base}, h.base);
  }

  // The whole of block p
  function Unlink(h: Heap, prevp: int, p: int): Heap {
    h.(ptr := Upd(h.ptr, prevp, At(h.ptr, p)), free := h.free - {p}, live := h.live + {p}, freep := prevp)
  }

  lemma UnlinkKeeps(h: Heap, prevp: int, p: int)
    requires Inv(h) && prevp in h.free && p in h.free && p == At(h.ptr, prevp) && At(h.size, p) >= 1
    ensures Inv(Unlink(h, prevp, p)) && Spares(h, Unlink(h, prevp, p), h.live)
  {
    var h' := Unlink(h, prevp, p);
    assert RingAt(h.ptr, h.free, prevp) && h.base in h.free;
    assert prevp != p;
    RingRemove(h.ptr, h.free, prevp, p);
    assert Blocks(h') == Blocks(h);
    forall x, y | x in h'.free && y in h'.free && x != y ensures !Touches(h'.size, x, y) {
      assert !Touches(h.size, x, y);
    }
    SparesHeader(h, prevp);
  }

  function OwnRange(own: seq<int>, from: int, n: int): seq<int> {
    seq(|own|, u requires 0 <= u < |own| => if from <= u < from + n then from else own[u])
  }

  // The last n units of block p
  function Carve(h: Heap, prevp: int, p: int, n: int): Heap {
    var rest := At(h.size, p) - n;
    h.(size := Upd(Upd(h.size, p, rest), p + rest, n), live := h.live + {p + rest}, own := OwnRange(h.own, p + rest, n),
      freep := prevp)
  }

  // Sizes and owners after block p has given its last n units, from b on, to a block of their own
  ghost predicate Carved(size: seq<int>, own: seq<int>, size': seq<int>, own': seq<int>, p: int, b: int, n: int) {
    && |size'| == |size| == |own| == |own'| && 1 <= n < At(size, p) && b == p + At(size, p) - n && p >= 0
    && (forall x {:trigger At(size', x)} :: At(size', x) == if x == b then n else if x == p then At(size, p) - n
      else At(size, x))
    && (forall u {:trigger At(own', u)} :: 0 <= u < |own| ==> At(own', u) == if b <= u < b + n then b else At(own, u))
  }

  // Where the new block lies
  lemma CarveAt(size: seq<int>, own: seq<int>, lo: int, brk: int, blocks: set<int>, p: int, n: int)
    requires 0 <= lo <= brk <= |own| == |size| && Tiled(size, own, lo, brk, blocks) && p in blocks
      && 1 <= n < At(size, p)
    ensures var b := p + At(size, p) - n;
      && b !in blocks && lo <= b < b + n <= brk && forall u :: b <= u < b + n ==> At(own, u) == p
  {
    var b := p + At(size, p) - n;
    assert TileOk(size, own, lo, brk, p);
    assert At(own, b) == p;
    assert b in blocks ==> TileOk(size, own, lo, brk, b);
  }

  // A block that is neither p nor the new one
  lemma CarveOther(size: seq<int>, own: seq<int>, size': seq<int>, own': seq<int>, lo: int, brk: int, p: int, b: int,
          n: int, x: int)
    requires Carved(size, own, size', own', p, b, n) && 0 <= lo <= brk <= |own|
    requires TileOk(size, own, lo, brk, p) && TileOk(size, own, lo, brk, x) && x != p && x != b
    ensures TileOk(size', own', lo, brk, x)
  {
    assert At(size', x) == At(size, x);
    forall u | lo <= u < brk ensures At(own', u) == x <==> x <= u < x + At(size, x) {
      assert At(own, u) == p <==> p <= u < p + At(size, p);
      assert At(own, u) == x <==> x <= u < x + At(size, x);
      assert 0 <= u < |own|;
    }
  }

  lemma CarveTwo(size: seq<int>, own: seq<int>, size': seq<int>, own': seq<int>, lo: int, brk: int, p: int, b: int,
          n: int)
    requires Carved(size, own, size', own', p, b, n) && 0 <= lo <= brk <= |own| && TileOk(size, own, lo, brk, p)
    requires forall u :: lo <= u < brk ==> At(own, u) != b
    ensures TileOk(size', own', lo, brk, p) && TileOk(size', own', lo, brk, b)
  {
  }

  lemma TileCarve(size: seq<int>, own: seq<int>, lo: int, brk: int, blocks: set<int>, p: int, n: int)
    requires 0 <= lo <= brk <= |own| == |size| && Tiled(size, own, lo, brk, blocks) && p in blocks
      && 1 <= n < At(size, p)
    ensures var b := p + At(size, p) - n;
      && b !in blocks && lo <= b < brk && At(own, b) == p
      && Tiled(Upd(Upd(size, p, At(size, p) - n), b, n), OwnRange(own, b, n), lo, brk, blocks + {b})
  {
    var b := p + At(size, p) - n;
    CarveAt(size, own, lo, brk, blocks, p, n);
    assert TileOk(size, own, lo, brk, p);
    var size', own' := Upd(Upd(size, p, At(size, p) - n), b, n), OwnRange(own, b, n);
    assert Carved(size, own, size', own', p, b, n);
    CarveTwo(size, own, size', own', lo, brk, p, b, n);
    forall x | x in blocks && x != p ensures TileOk(size', own', lo, brk, x) {
      CarveOther(size, own, size', own', lo, brk, p, b, n, x);
    }
  }

  lemma CarveKeeps(h: Heap, prevp: int, p: int, n: int)
    requires Inv(h) && prevp in h.free && p in h.free && 1 <= n < At(h.size, p)
    ensures var h', b := Carve(h, prevp, p, n), p + At(h.size, p) - n;
      Inv(h') && Spares(h, h', h.live) && b !in h.live && b !in h.free && At(h'.size, b) == n
  {
    var h', b := Carve(h, prevp, p, n), p + At(h.size, p) - n;
    TileCarve(h.size, h.own, h.lo, h.brk, Blocks(h), p, n);
    assert Blocks(h') == Blocks(h) + {b};
    CarveSpares(h, prevp, p, n);
    KeepsRest(h, h', p, b);
  }

  lemma CarveSpares(h: Heap, prevp: int, p: int, n: int)
    requires Inv(h) && p in h.free && 1 <= n < At(h.size, p) && At(h.own, p + At(h.size, p) - n) == p
    ensures Spares(h, Carve(h, prevp, p, n), h.live)
  {
    SparesHeader(h, p);
  }

  // Free blocks but p keep their sizes, p does not grow and its end, if it moves, touches none.
  lemma KeepsRest(h: Heap, h': Heap, p: int, b: int)
    requires Inv(h) && h'.free == h.free && h'.ptr == h.ptr && b !in h.free
    requires forall x :: x in h.free && x != p ==> At(h'.size, x) == At(h.size, x)
    requires p in h.free ==> Touches(h'.size, p, b)
    ensures Ring(h'.ptr, h'.free) && Coalesced(h'.size, h'.free)
  {
    forall x, y | x in h'.free && y in h'.free && x != y ensures !Touches(h'.size, x, y) {
      assert !Touches(h.size, x, y);
    }
  }

  // morecore's new block, before it is freed
  function Grow(h: Heap, nu: int): Heap {
    h.(size := Upd(h.size, h.brk, nu), brk := h.brk + nu, live := h.live + {h.brk}, own := OwnRange(h.own, h.brk, nu))
  }

  lemma TileGrow(size: seq<int>, own: seq<int>, lo: int, brk: int, blocks: set<int>, nu: int)
    requires 0 <= lo <= brk < brk + nu <= |own| == |size| && Tiled(size, own, lo, brk, blocks)
    ensures brk !in blocks && Tiled(Upd(size, brk, nu), OwnRange(own, brk, nu), lo, brk + nu, blocks + {brk})
  {
    assert brk in blocks ==> TileOk(size, own, lo, brk, brk);
    var size', own' := Upd(size, brk, nu), OwnRange(own, brk, nu);
    assert forall u :: 0 <= u < |own| ==> At(own', u) == if brk <= u < brk + nu then brk else At(own, u);
    forall x | x in blocks + {brk} ensures TileOk(size', own', lo, brk + nu, x) {
      if x in blocks {
        assert TileOk(size, own, lo, brk, x);
      }
    }
  }

  lemma GrowKeeps(h: Heap, nu: int)
    requires Inv(h) && nu >= 1 && h.brk + nu <= h.limit
    ensures var h' := Grow(h, nu);
      Inv(h') && Spares(h, h', h.live) && h.brk !in h.live && h.brk !in h.free && At(h'.size, h.brk) == nu
  {
    var h', b := Grow(h, nu), h.brk;
    TileGrow(h.size, h.own, h.lo, h.brk, Blocks(h), nu);
    assert Blocks(h') == Blocks(h) + {b};
    KeepsRest(h, h', b, b);
  }

  // ---------------------------------------------------------------- conservation

  // The sizes of the blocks in S that begin in i..n
  function Total(size: seq<int>, S: set<int>, i: int, n: int): int
    decreases n - i
  {
    if i >= n then 0 else (if i in S then At(size, i) else 0) + Total(size, S, i + 1, n)
  }

  // The units of the blocks in S that begin at i or later
  ghost function Units(own: seq<int>, lo: int, brk: int, S: set<int>, i: int): set<int> {
    set u | lo <= u < brk && At(own, u) in S && At(own, u) >= i
  }

  ghost function Interval(a: int, b: int): (r: set<int>)
    requires a <= b
    ensures |r| == b - a && forall u :: u in r <==> a <= u < b
    decreases b - a
  {
    if a == b then {} else Interval(a, b - 1) + {b - 1}
  }

  lemma UnitsSplit(size: seq<int>, own: seq<int>, lo: int, brk: int, S: set<int>, b: int)
    requires b in S && TileOk(size, own, lo, brk, b)
    ensures |Units(own, lo, brk, S, b)| == |Units(own, lo, brk, S, b + 1)| + At(size, b)
  {
    var mine := Interval(b, b + At(size, b));
    assert Units(own, lo, brk, S, b) == Units(own, lo, brk, S, b + 1) + mine;
    assert Units(own, lo, brk, S, b + 1) !! mine;
  }

  lemma {:induction false} TotalIsUnits(size: seq<int>, own: seq<int>, lo: int, brk: int, S: set<int>, i: int)
    requires lo <= i <= brk && forall b :: b in S ==> TileOk(size, own, lo, brk, b)
    ensures Total(size, S, i, brk) == |Units(own, lo, brk, S, i)|
    decreases brk - i
  {
    if i < brk {
      TotalIsUnits(size, own, lo, brk, S, i + 1);
      if i in S {
        UnitsSplit(size, own, lo, brk, S, i);
      } else {
        assert Units(own, lo, brk, S, i) == Units(own, lo, brk, S, i + 1);
      }
    } else {
      forall b | b in S ensures b < brk {
        assert TileOk(size, own, lo, brk, b);
      }
      assert Units(own, lo, brk, S, i) == {};
    }
  }

  /** Free and live units together are exactly the units taken from sbrk. */
  lemma UnitsConserved(h: Heap)
    requires Inv(h)
    ensures Total(h.size, h.free - {h.base}, h.lo, h.brk) + Total(h.size, h.live, h.lo, h.brk) == h.brk - h.lo
  {
    var free := h.free - {h.base};
    TotalIsUnits(h.size, h.own, h.lo, h.brk, free, h.lo);
    TotalIsUnits(h.size, h.own, h.lo, h.brk, h.live, h.lo);
    assert free + h.live == Blocks(h);
    UnitsUnion(h.size, h.own, h.lo, h.brk, free, h.live);
  }

  // Two sets of blocks that together tile the memory
  lemma UnitsUnion(size: seq<int>, own: seq<int>, lo: int, brk: int, S1: set<int>, S2: set<int>)
    requires Tiled(size, own, lo, brk, S1 + S2) && S1 !! S2 && lo <= brk
    ensures |Units(own, lo, brk, S1, lo)| + |Units(own, lo, brk, S2, lo)| == brk - lo
  {
    var u1, u2, all := Units(own, lo, brk, S1, lo), Units(own, lo, brk, S2, lo), Interval(lo, brk);
    forall u | lo <= u < brk ensures At(own, u) in S1 + S2 && At(own, u) >= lo {
      assert TileOk(size, own, lo, brk, At(own, u));
    }
    forall u ensures u in u1 + u2 <==> u in all {
    }
    assert u1 + u2 == all && u1 !! u2;
  }

  // ---------------------------------------------------------------- the program's own stores

  // A unit that a program has been given: any of a live block but its header
  predicate UserUnit(h: Heap, u: int) {
    h.lo <= u < h.brk && At(h.own, u) in h.live && At(h.own, u) != u
  }

  // A program has stored to its blocks, whatever and wherever in them.
  ghost predicate Stored(h: Heap, h': Heap) {
    && h' == h.(ptr := h'.ptr, size := h'.size) && |h'.ptr| == |h.ptr| && |h'.size| == |h.size|
    && forall u {:trigger At(h'.ptr, u)} {:trigger At(h'.size, u)} ::
         UserUnit(h, u) || (At(h'.ptr, u) == At(h.ptr, u) && At(h'.size, u) == At(h.size, u))
  }

  // A header is no unit of the program's.
  lemma HeaderKept(h: Heap, h': Heap, b: int)
    requires Layout(h) && Stored(h, h') && (b == h.base || TileOk(h.size, h.own, h.lo, h.brk, b))
    ensures At(h'.size, b) == At(h.size, b) && At(h'.ptr, b) == At(h.ptr, b)
  {
    assert !UserUnit(h, b);
  }

  lemma RingKept(ptr: seq<int>, ptr': seq<int>, F: set<int>)
    requires Ring(ptr, F) && |ptr'| == |ptr| && forall p :: p in F ==> At(ptr', p) == At(ptr, p)
    ensures Ring(ptr', F)
  {
    forall p | p in F ensures RingAt(ptr', F, p) {
      assert RingAt(ptr, F, p);
    }
  }

  lemma TilesKept(size: seq<int>, size': seq<int>, own: seq<int>, lo: int, brk: int, blocks: set<int>)
    requires Tiled(size, own, lo, brk, blocks) && forall b :: b in blocks ==> At(size', b) == At(size, b)
    ensures Tiled(size', own, lo, brk, blocks)
  {
    forall b | b in blocks ensures TileOk(size', own, lo, brk, b) {
      assert TileOk(size, own, lo, brk, b);
    }
  }

  lemma ApartKept(size: seq<int>, size': seq<int>, F: set<int>)
    requires Coalesced(size, F) && forall b :: b in F ==> At(size', b) == At(size, b)
    ensures Coalesced(size', F)
  {
    forall x, y | x in F && y in F && x != y ensures !Touches(size', x, y) {
      assert !Touches(size, x, y);
    }
  }

  lemma HeadersKept(h: Heap, h': Heap)
    requires Inv(h) && Stored(h, h')
    ensures forall b :: b in h.free + h.live ==> At(h'.size, b) == At(h.size, b) && At(h'.ptr, b) == At(h.ptr, b)
  {
    forall b | b in h.free + h.live
      ensures At(h'.size, b) == At(h.size, b) && At(h'.ptr, b) == At(h.ptr, b)
    {
      HeaderKept(h, h', b);
    }
  }

  /** Between calls a program may store to its blocks as it likes: the heap stays as it should be, with
      the same blocks, sizes and free list. */
  lemma StoresKeep(h: Heap, h': Heap)
    requires Inv(h) && Stored(h, h')
    ensures Inv(h')
    ensures forall b :: b in h.free + h.live ==> At(h'.size, b) == At(h.size, b) && At(h'.ptr, b) == At(h.ptr, b)
  {
    HeadersKept(h, h');
    RingKept(h.ptr, h'.ptr, h.free);
    TilesKept(h.size, h'.size, h.own, h.lo, h.brk, Blocks(h));
    ApartKept(h.size, h'.size, h.free);
    assert Blocks(h') == Blocks(h) && At(h'.size, h.base) == 0;
  }
}
