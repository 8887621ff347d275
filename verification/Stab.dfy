/** stab_binsearch: a binary search for the last entry of one type at or below an address, in a table
    that mixes entries of many types; only those of one type are sorted. */
module Stab {
  // uintptr_t is 32 bits wide
  const LAST_ADDRESS := 0xFFFF_FFFF
  type Address = a: int | 0 <= a < 0x1_0000_0000

  datatype Stab = Stab(kind: int, value: Address)

  predicate Entry(stabs: seq<Stab>, kind: int, lo: int, hi: int, i: int) {
    lo <= i <= hi && 0 <= i < |stabs| && stabs[i].kind == kind
  }

  ghost predicate Sorted(stabs: seq<Stab>, kind: int, lo: int, hi: int) {
    forall i, j :: Entry(stabs, kind, lo, hi, i) && Entry(stabs, kind, lo, hi, j) && i < j ==>
      stabs[i].value < stabs[j].value
  }

  // An entry at or below addr
  predicate Below(stabs: seq<Stab>, kind: int, lo: int, hi: int, addr: int, i: int) {
    Entry(stabs, kind, lo, hi, i) && stabs[i].value <= addr
  }

  ghost predicate Hit(stabs: seq<Stab>, kind: int, lo: int, hi: int, addr: int) {
    exists i :: Entry(stabs, kind, lo, hi, i) && stabs[i].value == addr
  }

  // Every address from the one to the other is an entry.
  ghost predicate Consecutive(stabs: seq<Stab>, kind: int, lo: int, hi: int, first: int, last: int) {
    forall addr :: first <= addr <= last ==> Hit(stabs, kind, lo, hi, addr)
  }

  /** addr++ on an exact hit can neither wrap around nor hit another entry. */
  ghost predicate RoomAfter(stabs: seq<Stab>, kind: int, lo: int, hi: int, addr: int) {
    Hit(stabs, kind, lo, hi, addr) ==> addr != LAST_ADDRESS && !Hit(stabs, kind, lo, hi, addr + 1)
  }

  // What the search is for: left is the last entry at or below addr, and right the index just before
  // the next entry, or hi.
  ghost predicate Brackets(stabs: seq<Stab>, kind: int, lo: int, hi: int, addr: int, left: int, right: int) {
    && Below(stabs, kind, lo, hi, addr, left)
    && (forall j :: Below(stabs, kind, lo, hi, addr, j) ==> j <= left)
    && left <= right <= hi
    && (forall j :: Entry(stabs, kind, lo, hi, j) ==> j <= left || j > right)
    && (right == hi || Entry(stabs, kind, lo, hi, right + 1))
  }

  /** What the search returns in general: it brackets addr, or the last address of a run of consecutive
      entries that begins at addr. */
  ghost predicate Bracketed(stabs: seq<Stab>, kind: int, lo: int, hi: int, addr: int, left: int, right: int) {
    && Entry(stabs, kind, lo, hi, left)
    && (if stabs[left].value <= addr then Brackets(stabs, kind, lo, hi, addr, left, right)
        else Brackets(stabs, kind, lo, hi, stabs[left].value, left, right)
             && Consecutive(stabs, kind, lo, hi, addr, stabs[left].value))
  }

  // addr++ has wrapped around: both results lie before the entry at the last address.
  ghost predicate Overflown(stabs: seq<Stab>, kind: int, lo: int, hi: int, addr: int, left: int, right: int) {
    && left == right && Entry(stabs, kind, lo, hi, right + 1) && stabs[right + 1].value == LAST_ADDRESS
    && Consecutive(stabs, kind, lo, hi, addr, LAST_ADDRESS)
  }

  // ---------------------------------------------------------------- the search, turn by turn

  // The first index from m down to l with an entry of the type, or l - 1
  function EarliestAt(stabs: seq<Stab>, kind: int, l: int, m: int): int
    decreases m - l
  {
    if m >= l && 0 <= m < |stabs| && stabs[m].kind != kind then EarliestAt(stabs, kind, l, m - 1) else m
  }

  // The last index from r down to left with an entry of the type, or left
  function LastAt(stabs: seq<Stab>, kind: int, left: int, r: int): int
    decreases r - left
  {
    if r > left && 0 <= r < |stabs| && stabs[r].kind != kind then LastAt(stabs, kind, left, r - 1) else r
  }

  // The variables of the search; right is r throughout.
  datatype Search = Search(l: int, r: int, left: int, addr: int, anyMatches: bool)

  function Turn(stabs: seq<Stab>, kind: int, s: Search): Search {
    var trueM := (s.l + s.r) / 2;
    var m := EarliestAt(stabs, kind, s.l, trueM);
    if m < s.l || !(0 <= m < |stabs|) then s.(l := trueM + 1)
    else if stabs[m].value < s.addr then Search(trueM + 1, s.r, m, s.addr, true)
    else if stabs[m].value > s.addr then Search(s.l, m - 1, s.left, s.addr, true)
    else Search(m, s.r, m, (s.addr + 1) % 0x1_0000_0000, true)
  }

  // The i-th turn of a search that goes through the states `trace`
  ghost predicate TurnAt(stabs: seq<Stab>, kind: int, trace: seq<Search>, i: int) {
    0 <= i < |trace| - 1 ==> trace[i].l <= trace[i].r && trace[i + 1] == Turn(stabs, kind, trace[i])
  }

  ghost predicate IsTrace(stabs: seq<Stab>, kind: int, s0: Search, trace: seq<Search>) {
    trace != [] && trace[0] == s0 && forall i :: TurnAt(stabs, kind, trace, i)
  }

  // *region_left and *region_right after the search
  function Result(stabs: seq<Stab>, kind: int, s: Search): (int, int) {
    if s.anyMatches then (LastAt(stabs, kind, s.left, s.r), s.r) else (s.left, s.left - 1)
  }

  // A search from s0 goes through `trace`, where it ends, with these results.
  ghost predicate Answers(stabs: seq<Stab>, kind: int, s0: Search, trace: seq<Search>, left: int, right: int) {
    && IsTrace(stabs, kind, s0, trace)
    && var s := trace[|trace| - 1]; s.l > s.r && Result(stabs, kind, s) == (left, right)
  }

  lemma TraceMore(stabs: seq<Stab>, kind: int, s0: Search, trace: seq<Search>)
    requires IsTrace(stabs, kind, s0, trace) && trace[|trace| - 1].l <= trace[|trace| - 1].r
    ensures IsTrace(stabs, kind, s0, trace + [Turn(stabs, kind, trace[|trace| - 1])])
  {
    var more := trace + [Turn(stabs, kind, trace[|trace| - 1])];
    forall i ensures TurnAt(stabs, kind, more, i) {
      assert TurnAt(stabs, kind, trace, i);
    }
  }

  // for (l = *region_right; l > *region_left && stabs[l].n_type != type; l--)
  method LastOfType(stabs: seq<Stab>, left: int, right: int, kind: int) returns (l: int)
    requires 0 <= left && right < |stabs|
    ensures right <= left ==> l == right
    ensures left <= right ==> left <= l <= right && (l == left || stabs[l].kind == kind)
    ensures forall j :: l < j <= right ==> stabs[j].kind != kind
    ensures l == LastAt(stabs, kind, left, right)
  {
    l := right;
    while l > left && stabs[l].kind != kind
      invariant l <= right && (l >= left || l == right)
      invariant LastAt(stabs, kind, left, l) == LastAt(stabs, kind, left, right)
      invariant forall j :: l < j <= right ==> stabs[j].kind != kind
    {
      l := l - 1;
    }
  }

  // while (m >= l && stabs[m].n_type != type) m--
  method Earliest(stabs: seq<Stab>, l: int, trueM: int, kind: int) returns (m: int)
    requires 0 <= l <= trueM < |stabs|
    ensures l - 1 <= m <= trueM && (m >= l ==> stabs[m].kind == kind)
    ensures forall j :: m < j <= trueM ==> stabs[j].kind != kind
    ensures m == EarliestAt(stabs, kind, l, trueM)
  {
    m := trueM;
    while m >= l && stabs[m].kind != kind
      invariant l - 1 <= m <= trueM
      invariant EarliestAt(stabs, kind, l, m) == EarliestAt(stabs, kind, l, trueM)
      invariant forall j :: m < j <= trueM ==> stabs[j].kind != kind
    {
      m := m - 1;
    }
  }

  // Entries before l lie below addr; those after r do not, and lie above the address searched for.
  ghost predicate Narrowed(stabs: seq<Stab>, kind: int, lo: int, hi: int, l: int, r: int, addr0: int, addr: int) {
    && (forall j :: Entry(stabs, kind, lo, hi, j) && j < l ==> stabs[j].value < addr)
    && (forall j :: Entry(stabs, kind, lo, hi, j) && j > r ==> stabs[j].value >= addr && stabs[j].value > addr0)
    && (r == hi || Entry(stabs, kind, lo, hi, r + 1))
  }

  /** Between turns of the search: right == r is where the next entry begins; left is lo or an entry
      below addr; addr has been stepped on past consecutive entries; without a match nothing has
      happened but l moving over other types. */
  ghost predicate Progress(stabs: seq<Stab>, kind: int, lo: int, hi: int, addr0: int, l: int, r: int, left: int,
          addr: int, anyMatches: bool) {
    && 0 <= lo <= l <= r + 1 <= hi + 1 <= |stabs| && 0 <= addr0 <= addr <= LAST_ADDRESS
    && Sorted(stabs, kind, lo, hi)
    && Narrowed(stabs, kind, lo, hi, l, r, addr0, addr)
    && (addr0 < addr ==> anyMatches) && Consecutive(stabs, kind, lo, hi, addr0, addr - 1)
    && (left == lo || (Entry(stabs, kind, lo, hi, left) && stabs[left].value < addr))
    && (if anyMatches then exists i :: Entry(stabs, kind, lo, hi, i)
        else left == lo && r == hi && forall i :: Entry(stabs, kind, lo, hi, i) ==> i >= l)
  }

  /** addr has wrapped around to 0 at entry left, the last of all; the next turn puts r before it. */
  ghost predicate Wrapped(stabs: seq<Stab>, kind: int, lo: int, hi: int, addr0: int, l: int, r: int, left: int,
          addr: int) {
    && 0 <= lo <= hi < |stabs| && l == left && (l <= r <= hi || r == l - 1) && addr == 0
    && Sorted(stabs, kind, lo, hi) && Entry(stabs, kind, lo, hi, l) && stabs[l].value == LAST_ADDRESS
    && Consecutive(stabs, kind, lo, hi, addr0, LAST_ADDRESS)
  }

  ghost predicate Searching(stabs: seq<Stab>, kind: int, lo: int, hi: int, addr0: int, l: int, r: int, left: int,
          addr: int, anyMatches: bool, wrapped: bool) {
    if wrapped then anyMatches && Wrapped(stabs, kind, lo, hi, addr0, l, r, left, addr)
    else Progress(stabs, kind, lo, hi, addr0, l, r, left, addr, anyMatches)
  }

  // Below, above or at entry m: one half of the range is done with.
  lemma {:induction false} Narrow(stabs: seq<Stab>, kind: int, lo: int, hi: int, l: int, r: int, addr0: int, addr: int,
          m: int, trueM: int)
    requires Sorted(stabs, kind, lo, hi) && Narrowed(stabs, kind, lo, hi, l, r, addr0, addr)
      && l <= m <= trueM <= r <= hi && lo <= l
    requires Entry(stabs, kind, lo, hi, m) && 0 <= lo && hi < |stabs| && forall j :: m < j <= trueM ==>
      stabs[j].kind != kind
    requires addr0 <= addr
    ensures stabs[m].value < addr ==> Narrowed(stabs, kind, lo, hi, trueM + 1, r, addr0, addr)
    ensures stabs[m].value > addr ==> Narrowed(stabs, kind, lo, hi, l, m - 1, addr0, addr)
    ensures stabs[m].value == addr ==> Narrowed(stabs, kind, lo, hi, m, r, addr0, addr + 1)
  {
    forall j | Entry(stabs, kind, lo, hi, j)
      ensures j < m ==> stabs[j].value < stabs[m].value
      ensures j > m ==> stabs[j].value > stabs[m].value && j > trueM
    {
    }
  }

  lemma {:induction false} TurnSkip(stabs: seq<Stab>, kind: int, lo: int, hi: int, addr0: int, l: int, r: int,
          left: int, addr: int, anyMatches: bool, wrapped: bool, trueM: int)
    requires Searching(stabs, kind, lo, hi, addr0, l, r, left, addr, anyMatches, wrapped) && l <= trueM <= r
    requires forall j :: l <= j <= trueM ==> stabs[j].kind != kind
    ensures !wrapped && Progress(stabs, kind, lo, hi, addr0, trueM + 1, r, left, addr, anyMatches)
  {
  }

  lemma {:induction false} TurnLow(stabs: seq<Stab>, kind: int, lo: int, hi: int, addr0: int, l: int, r: int, left: int,
          addr: int, anyMatches: bool, wrapped: bool, m: int, trueM: int)
    requires Searching(stabs, kind, lo, hi, addr0, l, r, left, addr, anyMatches, wrapped) && l <= m <= trueM <= r
      && stabs[m].kind == kind
    requires forall j :: m < j <= trueM ==> stabs[j].kind != kind
    requires stabs[m].value < addr
    ensures !wrapped && Progress(stabs, kind, lo, hi, addr0, trueM + 1, r, m, addr, true)
  {
    assert Entry(stabs, kind, lo, hi, m);
    Narrow(stabs, kind, lo, hi, l, r, addr0, addr, m, trueM);
  }

  // After a wrap the entry found is the one at the last address.
  lemma {:induction false} TurnWrapped(stabs: seq<Stab>, kind: int, lo: int, hi: int, addr0: int, l: int, r: int,
          left: int, m: int)
    requires Wrapped(stabs, kind, lo, hi, addr0, l, r, left, 0) && l <= m <= r && stabs[m].kind == kind
    ensures m == l && Wrapped(stabs, kind, lo, hi, addr0, l, m - 1, left, 0)
  {
    assert Entry(stabs, kind, lo, hi, l) && Entry(stabs, kind, lo, hi, m);
  }

  lemma {:induction false} TurnHigh(stabs: seq<Stab>, kind: int, lo: int, hi: int, addr0: int, l: int, r: int,
          left: int, addr: int, anyMatches: bool, wrapped: bool, m: int, trueM: int)
    requires Searching(stabs, kind, lo, hi, addr0, l, r, left, addr, anyMatches, wrapped) && l <= m <= trueM <= r
      && stabs[m].kind == kind
    requires forall j :: m < j <= trueM ==> stabs[j].kind != kind
    requires stabs[m].value > addr
    ensures Searching(stabs, kind, lo, hi, addr0, l, m - 1, left, addr, true, wrapped)
  {
    assert Entry(stabs, kind, lo, hi, m);
    if wrapped {
      TurnWrapped(stabs, kind, lo, hi, addr0, l, r, left, m);
    } else {
      Narrow(stabs, kind, lo, hi, l, r, addr0, addr, m, trueM);
    }
  }

  // An exact hit steps the address on, or wraps it around.
  lemma {:induction false} TurnHit(stabs: seq<Stab>, kind: int, lo: int, hi: int, addr0: int, l: int, r: int, left: int,
          addr: int, anyMatches: bool, wrapped: bool, m: int, trueM: int)
    requires Searching(stabs, kind, lo, hi, addr0, l, r, left, addr, anyMatches, wrapped) && l <= m <= trueM <= r
      && stabs[m].kind == kind
    requires forall j :: m < j <= trueM ==> stabs[j].kind != kind
    requires stabs[m].value == addr
    ensures !wrapped
      && Searching(stabs, kind, lo, hi, addr0, m, r, m, (addr + 1) % 0x1_0000_0000, true, addr == LAST_ADDRESS)
    ensures addr < LAST_ADDRESS ==> addr < (addr + 1) % 0x1_0000_0000
  {
    assert Entry(stabs, kind, lo, hi, m);
    Narrow(stabs, kind, lo, hi, l, r, addr0, addr, m, trueM);
    forall a | addr0 <= a <= addr ensures Hit(stabs, kind, lo, hi, a) {
      assert a == addr || addr0 <= a <= addr - 1;
    }
  }

  // The range is empty, and the last scan has found `last`.
  lemma {:induction false} Done(stabs: seq<Stab>, kind: int, lo: int, hi: int, addr0: int, l: int, r: int, left: int,
          addr: int, last: int)
    requires Progress(stabs, kind, lo, hi, addr0, l, r, left, addr, true) && l > r
    requires left <= r ==> left <= last <= r && (last == left || stabs[last].kind == kind)
    requires forall j :: last < j <= r && lo <= j ==> stabs[j].kind != kind
    ensures (exists i :: Below(stabs, kind, lo, hi, addr0, i)) ==> Bracketed(stabs, kind, lo, hi, addr0, last, r)
    ensures !(addr0 == LAST_ADDRESS && Hit(stabs, kind, lo, hi, addr0))
  {
    if i :| Below(stabs, kind, lo, hi, addr0, i) {
      assert i <= r && left <= r && i <= last;
      assert Entry(stabs, kind, lo, hi, last);
    }
  }

  // With room after the address a run of consecutive entries cannot begin there.
  lemma {:induction false} NoRun(stabs: seq<Stab>, kind: int, lo: int, hi: int, addr: int, last: int)
    requires RoomAfter(stabs, kind, lo, hi, addr) && addr <= last <= LAST_ADDRESS
    requires Consecutive(stabs, kind, lo, hi, addr, last)
    ensures last == addr != LAST_ADDRESS
  {
  }

  lemma {:induction false} NoMatch(stabs: seq<Stab>, kind: int, lo: int, hi: int, addr0: Address, l: int, r: int,
          left: int, addr: int, wrapped: bool)
    requires Searching(stabs, kind, lo, hi, addr0, l, r, left, addr, false, wrapped) && l > r
    ensures forall i :: !Entry(stabs, kind, lo, hi, i)
  {
  }

  lemma {:induction false} Finish(stabs: seq<Stab>, kind: int, lo: int, hi: int, addr0: Address, l: int, r: int,
          left: int, addr: int, wrapped: bool, last: int)
    requires Searching(stabs, kind, lo, hi, addr0, l, r, left, addr, true, wrapped) && l > r
    requires r <= left ==> last == r
    requires left <= r ==> left <= last <= r && (last == left || stabs[last].kind == kind)
    requires forall j :: last < j <= r && lo <= j ==> stabs[j].kind != kind
    ensures (exists i :: Below(stabs, kind, lo, hi, addr0, i)) ==>
      if wrapped then Overflown(stabs, kind, lo, hi, addr0, last, r) else Bracketed(stabs, kind, lo, hi, addr0, last, r)
    ensures RoomAfter(stabs, kind, lo, hi, addr0) && (exists i :: Below(stabs, kind, lo, hi, addr0, i)) ==>
      Brackets(stabs, kind, lo, hi, addr0, last, r)
    ensures addr0 == LAST_ADDRESS && Hit(stabs, kind, lo, hi, addr0) ==>
      Overflown(stabs, kind, lo, hi, addr0, last, r) && !Brackets(stabs, kind, lo, hi, addr0, last, r)
    ensures last <= r && exists i :: Entry(stabs, kind, lo, hi, i)
  {
    if wrapped {
      assert Entry(stabs, kind, lo, hi, l);
      assert addr0 == LAST_ADDRESS ==> Below(stabs, kind, lo, hi, addr0, l);
      assert Overflown(stabs, kind, lo, hi, addr0, last, r);
      if RoomAfter(stabs, kind, lo, hi, addr0) {
        NoRun(stabs, kind, lo, hi, addr0, LAST_ADDRESS);
      }
    } else {
      Done(stabs, kind, lo, hi, addr0, l, r, left, addr, last);
      if Bracketed(stabs, kind, lo, hi, addr0, last, r) && stabs[last].value > addr0
        && RoomAfter(stabs, kind, lo, hi, addr0) {
        NoRun(stabs, kind, lo, hi, addr0, stabs[last].value);
      }
    }
  }

  lemma {:induction false} EarliestFacts(stabs: seq<Stab>, kind: int, l: int, m: int)
    requires 0 <= l <= m + 1 && m < |stabs|
    ensures var e := EarliestAt(stabs, kind, l, m);
      && l - 1 <= e <= m && (e >= l ==> stabs[e].kind == kind) && forall j :: e < j <= m ==> stabs[j].kind != kind
    decreases m - l + 1
  {
    if m >= l && stabs[m].kind != kind {
      EarliestFacts(stabs, kind, l, m - 1);
    }
  }

  // How much there is to do before the address is stepped on, and after that
  ghost function Left(s: Search, wrapped: bool): (int, int) {
    (if wrapped then 0 else LAST_ADDRESS + 1 - s.addr, s.r - s.l)
  }

  ghost predicate Less(a: (int, int), b: (int, int)) { a.0 < b.0 || (a.0 == b.0 && a.1 < b.1) }

  ghost predicate InSearch(stabs: seq<Stab>, kind: int, lo: int, hi: int, addr0: int, s: Search, wrapped: bool) {
    Searching(stabs, kind, lo, hi, addr0, s.l, s.r, s.left, s.addr, s.anyMatches, wrapped)
  }

  // The entry that a turn looks at
  ghost predicate LooksAt(stabs: seq<Stab>, kind: int, s: Search, m: int, trueM: int) {
    && s.l <= s.r && trueM == (s.l + s.r) / 2 && m == EarliestAt(stabs, kind, s.l, trueM)
    && s.l <= trueM <= s.r && s.l - 1 <= m <= trueM && 0 <= s.l && s.r < |stabs|
    && (m >= s.l ==> stabs[m].kind == kind) && forall j :: m < j <= trueM ==> stabs[j].kind != kind
  }

  lemma Looks(stabs: seq<Stab>, kind: int, lo: int, hi: int, addr0: Address, s: Search, wrapped: bool)
    requires InSearch(stabs, kind, lo, hi, addr0, s, wrapped) && s.l <= s.r
    ensures var trueM := (s.l + s.r) / 2; LooksAt(stabs, kind, s, EarliestAt(stabs, kind, s.l, trueM), trueM)
  {
    Bounds(stabs, kind, lo, hi, addr0, s, wrapped);
    EarliestFacts(stabs, kind, s.l, (s.l + s.r) / 2);
  }

  lemma KeepsSkip(stabs: seq<Stab>, kind: int, lo: int, hi: int, addr0: Address, s: Search, wrapped: bool, m: int,
          trueM: int)
    requires InSearch(stabs, kind, lo, hi, addr0, s, wrapped) && LooksAt(stabs, kind, s, m, trueM) && m < s.l
    ensures InSearch(stabs, kind, lo, hi, addr0, Turn(stabs, kind, s), wrapped)
    ensures Less(Left(Turn(stabs, kind, s), wrapped), Left(s, wrapped))
  {
    TurnSkip(stabs, kind, lo, hi, addr0, s.l, s.r, s.left, s.addr, s.anyMatches, wrapped, trueM);
  }

  lemma KeepsLow(stabs: seq<Stab>, kind: int, lo: int, hi: int, addr0: Address, s: Search, wrapped: bool, m: int,
          trueM: int)
    requires InSearch(stabs, kind, lo, hi, addr0, s, wrapped) && LooksAt(stabs, kind, s, m, trueM) && m >= s.l
      && stabs[m].value < s.addr
    ensures InSearch(stabs, kind, lo, hi, addr0, Turn(stabs, kind, s), wrapped)
    ensures Less(Left(Turn(stabs, kind, s), wrapped), Left(s, wrapped))
  {
    TurnLow(stabs, kind, lo, hi, addr0, s.l, s.r, s.left, s.addr, s.anyMatches, wrapped, m, trueM);
  }

  lemma KeepsHigh(stabs: seq<Stab>, kind: int, lo: int, hi: int, addr0: Address, s: Search, wrapped: bool, m: int,
          trueM: int)
    requires InSearch(stabs, kind, lo, hi, addr0, s, wrapped) && LooksAt(stabs, kind, s, m, trueM) && m >= s.l
      && stabs[m].value > s.addr
    ensures InSearch(stabs, kind, lo, hi, addr0, Turn(stabs, kind, s), wrapped)
    ensures Less(Left(Turn(stabs, kind, s), wrapped), Left(s, wrapped))
  {
    TurnHigh(stabs, kind, lo, hi, addr0, s.l, s.r, s.left, s.addr, s.anyMatches, wrapped, m, trueM);
  }

  lemma KeepsHit(stabs: seq<Stab>, kind: int, lo: int, hi: int, addr0: Address, s: Search, wrapped: bool, m: int,
          trueM: int)
    requires InSearch(stabs, kind, lo, hi, addr0, s, wrapped) && LooksAt(stabs, kind, s, m, trueM) && m >= s.l
      && stabs[m].value == s.addr
    ensures InSearch(stabs, kind, lo, hi, addr0, Turn(stabs, kind, s), s.addr == LAST_ADDRESS) && !wrapped
    ensures Less(Left(Turn(stabs, kind, s), s.addr == LAST_ADDRESS), Left(s, wrapped))
  {
    TurnHit(stabs, kind, lo, hi, addr0, s.l, s.r, s.left, s.addr, s.anyMatches, wrapped, m, trueM);
  }

  // The turn hits the entry at the address.
  predicate HitsNow(stabs: seq<Stab>, kind: int, s: Search) {
    var m := EarliestAt(stabs, kind, s.l, (s.l + s.r) / 2);
    m >= s.l && 0 <= m < |stabs| && stabs[m].value == s.addr
  }

  /** A turn keeps the invariant and makes progress. */
  lemma TurnKeeps(stabs: seq<Stab>, kind: int, lo: int, hi: int, addr0: Address, s: Search, wrapped: bool)
          returns (wrapped': bool)
    requires InSearch(stabs, kind, lo, hi, addr0, s, wrapped) && s.l <= s.r
    ensures InSearch(stabs, kind, lo, hi, addr0, Turn(stabs, kind, s), wrapped')
    ensures Less(Left(Turn(stabs, kind, s), wrapped'), Left(s, wrapped))
    ensures wrapped' == if HitsNow(stabs, kind, s) then s.addr == LAST_ADDRESS else wrapped
    ensures HitsNow(stabs, kind, s) ==> !wrapped
  {
    var trueM := (s.l + s.r) / 2;
    var m := EarliestAt(stabs, kind, s.l, trueM);
    Looks(stabs, kind, lo, hi, addr0, s, wrapped);
    wrapped' := wrapped;
    if m < s.l {
      KeepsSkip(stabs, kind, lo, hi, addr0, s, wrapped, m, trueM);
    } else if stabs[m].value < s.addr {
      KeepsLow(stabs, kind, lo, hi, addr0, s, wrapped, m, trueM);
    } else if stabs[m].value > s.addr {
      KeepsHigh(stabs, kind, lo, hi, addr0, s, wrapped, m, trueM);
    } else {
      KeepsHit(stabs, kind, lo, hi, addr0, s, wrapped, m, trueM);
      wrapped' := s.addr == LAST_ADDRESS;
    }
  }

  // ---------------------------------------------------------------- entries at consecutive addresses

  // Entries i and j at addr and addr + 1, the one next to the other
  ghost predicate Neighbouring(stabs: seq<Stab>, kind: int, lo: int, hi: int, addr: int, i: int, j: int) {
    && Entry(stabs, kind, lo, hi, i) && Entry(stabs, kind, lo, hi, j) && i < j
    && stabs[i].value == addr && stabs[j].value == addr + 1
  }

  /** Of entry i and the next one, j, the halving of l .. r looks at j first. */
  predicate UpperFirst(stabs: seq<Stab>, kind: int, l: int, r: int, i: int, j: int)
    decreases r - l
  {
    var trueM := (l + r) / 2;
    var m := EarliestAt(stabs, kind, l, trueM);
    if l > r then false
    else if trueM < i then UpperFirst(stabs, kind, trueM + 1, r, i, j)
    else if j < m <= r then UpperFirst(stabs, kind, l, m - 1, i, j)
    else m == j
  }

  /** Where the search keeps to the address it is given: its entry, if it has one, is not the last
      address, and an entry at the next address is looked at first or is, at the last address, the very
      next one in the table. */
  ghost predicate KeepsTo(stabs: seq<Stab>, kind: int, lo: int, hi: int, addr: int) {
    && (Hit(stabs, kind, lo, hi, addr) ==> addr != LAST_ADDRESS)
    && forall i, j :: Neighbouring(stabs, kind, lo, hi, addr, i, j) ==> Skips(stabs, kind, lo, hi, addr, i, j)
  }

  predicate Skips(stabs: seq<Stab>, kind: int, lo: int, hi: int, addr: int, i: int, j: int) {
    UpperFirst(stabs, kind, lo, hi, i, j) || (addr + 1 == LAST_ADDRESS && j == i + 1)
  }

  // How far the search has got with neighbours i and j: it has looked at neither;
  ghost predicate Neither(stabs: seq<Stab>, kind: int, lo: int, hi: int, addr0: int, i: int, j: int, s: Search) {
    && s.addr == addr0 && s.l <= i && j <= s.r
    && UpperFirst(stabs, kind, s.l, s.r, i, j) == UpperFirst(stabs, kind, lo, hi, i, j)
  }

  // ... or at i first, and has stepped the address on to that of j, or beyond.
  ghost predicate Carried(addr0: int, j: int, s: Search, wrapped: bool) {
    wrapped || s.addr > addr0 + 1 || (s.addr == addr0 + 1 && s.l <= j <= s.r)
  }

  // ... or at j first, and has left it out of the range.
  ghost predicate Phase(stabs: seq<Stab>, kind: int, lo: int, hi: int, addr0: int, i: int, j: int, s: Search,
          wrapped: bool) {
    || (!wrapped && Neither(stabs, kind, lo, hi, addr0, i, j, s))
    || (if UpperFirst(stabs, kind, lo, hi, i, j) then !wrapped && s.r < j else Carried(addr0, j, s, wrapped))
  }

  // Entry m, if it is one, and the neighbours
  ghost predicate Apart(stabs: seq<Stab>, addr0: int, i: int, j: int, m: int) {
    && 0 <= m < |stabs| && (m < i ==> stabs[m].value < addr0) && (m == i ==> stabs[m].value == addr0)
    && (m == j ==> stabs[m].value == addr0 + 1) && (j < m ==> stabs[m].value > addr0 + 1) && (m <= i || m >= j)
  }

  lemma {:induction false} NothingBetween(stabs: seq<Stab>, kind: int, lo: int, hi: int, addr: int, i: int, j: int,
          m: int)
    requires Sorted(stabs, kind, lo, hi) && Neighbouring(stabs, kind, lo, hi, addr, i, j)
    requires Entry(stabs, kind, lo, hi, m)
    ensures Apart(stabs, addr, i, j, m)
  {
  }

  lemma NeitherTurn(stabs: seq<Stab>, kind: int, lo: int, hi: int, addr0: Address, i: int, j: int, s: Search, m: int,
          trueM: int)
    requires LooksAt(stabs, kind, s, m, trueM) && Neighbouring(stabs, kind, lo, hi, addr0, i, j)
    requires m >= s.l ==> Apart(stabs, addr0, i, j, m)
    requires Neither(stabs, kind, lo, hi, addr0, i, j, s)
    ensures Phase(stabs, kind, lo, hi, addr0, i, j, Turn(stabs, kind, s), false)
  {
    assert stabs[i].kind == kind && stabs[j].kind == kind;
    assert m < i ==> trueM < i;
  }

  lemma CarriedTurn(stabs: seq<Stab>, kind: int, lo: int, hi: int, addr0: Address, i: int, j: int, s: Search, m: int,
          trueM: int, wrapped: bool, wrapped': bool)
    requires LooksAt(stabs, kind, s, m, trueM) && Neighbouring(stabs, kind, lo, hi, addr0, i, j)
    requires m >= s.l ==> Apart(stabs, addr0, i, j, m)
    requires wrapped' == if HitsNow(stabs, kind, s) then s.addr == LAST_ADDRESS else wrapped
    requires (HitsNow(stabs, kind, s) ==> !wrapped) && Carried(addr0, j, s, wrapped)
    ensures Carried(addr0, j, Turn(stabs, kind, s), wrapped')
  {
    assert stabs[j].kind == kind;
    assert m < j ==> trueM < j || j < s.l;
  }

  lemma {:induction false} PhaseTurn(stabs: seq<Stab>, kind: int, lo: int, hi: int, addr0: Address, i: int, j: int,
          s: Search, wrapped: bool, wrapped': bool)
    requires InSearch(stabs, kind, lo, hi, addr0, s, wrapped) && s.l <= s.r && lo <= s.l && s.r <= hi
    requires Sorted(stabs, kind, lo, hi) && Neighbouring(stabs, kind, lo, hi, addr0, i, j)
    requires wrapped' == if HitsNow(stabs, kind, s) then s.addr == LAST_ADDRESS else wrapped
    requires HitsNow(stabs, kind, s) ==> !wrapped
    requires Phase(stabs, kind, lo, hi, addr0, i, j, s, wrapped)
    ensures Phase(stabs, kind, lo, hi, addr0, i, j, Turn(stabs, kind, s), wrapped')
  {
    var trueM := (s.l + s.r) / 2;
    var m := EarliestAt(stabs, kind, s.l, trueM);
    Looks(stabs, kind, lo, hi, addr0, s, wrapped);
    if m >= s.l {
      assert Entry(stabs, kind, lo, hi, m);
      NothingBetween(stabs, kind, lo, hi, addr0, i, j, m);
    }
    if !wrapped && Neither(stabs, kind, lo, hi, addr0, i, j, s) {
      NeitherTurn(stabs, kind, lo, hi, addr0, i, j, s, m, trueM);
    } else if !UpperFirst(stabs, kind, lo, hi, i, j) {
      CarriedTurn(stabs, kind, lo, hi, addr0, i, j, s, m, trueM, wrapped, wrapped');
    }
  }

  // What is known when the range is empty
  lemma Finished(stabs: seq<Stab>, kind: int, lo: int, hi: int, addr0: Address, s: Search, wrapped: bool, left: int,
          right: int)
    requires InSearch(stabs, kind, lo, hi, addr0, s, wrapped) && s.l > s.r && (left, right) == Result(stabs, kind, s)
    ensures (exists i :: Below(stabs, kind, lo, hi, addr0, i)) && RoomAfter(stabs, kind, lo, hi, addr0) ==>
      Brackets(stabs, kind, lo, hi, addr0, left, right)
    ensures (exists i :: Below(stabs, kind, lo, hi, addr0, i)) ==>
      if wrapped then Overflown(stabs, kind, lo, hi, addr0, left, right)
      else Bracketed(stabs, kind, lo, hi, addr0, left, right)
    ensures addr0 == LAST_ADDRESS && Hit(stabs, kind, lo, hi, addr0) ==>
      Overflown(stabs, kind, lo, hi, addr0, left, right) && !Brackets(stabs, kind, lo, hi, addr0, left, right)
    ensures left > right <==> forall i :: !Entry(stabs, kind, lo, hi, i)
  {
    if s.anyMatches {
      LastFacts(stabs, kind, s.left, s.r);
      Finish(stabs, kind, lo, hi, addr0, s.l, s.r, s.left, s.addr, wrapped, left);
    } else {
      NoMatch(stabs, kind, lo, hi, addr0, s.l, s.r, s.left, s.addr, wrapped);
    }
  }

  lemma {:induction false} LastFacts(stabs: seq<Stab>, kind: int, left: int, r: int)
    requires 0 <= left && r < |stabs|
    ensures var l := LastAt(stabs, kind, left, r);
      && (r <= left ==> l == r) && (left <= r ==> left <= l <= r && (l == left || stabs[l].kind == kind))
      && forall j :: l < j <= r ==> stabs[j].kind != kind
    decreases r - left
  {
    if r > left && stabs[r].kind != kind {
      LastFacts(stabs, kind, left, r - 1);
    }
  }

  // The search has kept to the address.
  lemma {:induction false} UpperEnd(stabs: seq<Stab>, kind: int, lo: int, hi: int, addr0: Address, i: int, j: int,
          left: int, right: int)
    requires Sorted(stabs, kind, lo, hi) && Neighbouring(stabs, kind, lo, hi, addr0, i, j)
    requires Bracketed(stabs, kind, lo, hi, addr0, left, right) && right < j
    ensures Brackets(stabs, kind, lo, hi, addr0, left, right)
  {
    NothingBetween(stabs, kind, lo, hi, addr0, i, j, left);
  }

  // It has ended at the upper neighbour or beyond.
  lemma {:induction false} BeyondEnd(stabs: seq<Stab>, kind: int, lo: int, hi: int, addr0: Address, i: int, j: int,
          left: int, right: int)
    requires Sorted(stabs, kind, lo, hi) && Neighbouring(stabs, kind, lo, hi, addr0, i, j) && left >= j
    ensures !Brackets(stabs, kind, lo, hi, addr0, left, right)
  {
    if Entry(stabs, kind, lo, hi, left) {
      NothingBetween(stabs, kind, lo, hi, addr0, i, j, left);
    }
  }

  // It has wrapped around: it ends just before the entry at the last address.
  lemma {:induction false} OverEnd(stabs: seq<Stab>, kind: int, lo: int, hi: int, addr0: Address, i: int, j: int,
          left: int, right: int)
    requires Sorted(stabs, kind, lo, hi) && Neighbouring(stabs, kind, lo, hi, addr0, i, j)
    requires Overflown(stabs, kind, lo, hi, addr0, left, right)
    ensures Brackets(stabs, kind, lo, hi, addr0, left, right) <==> addr0 + 1 == LAST_ADDRESS && j == i + 1
  {
    NothingBetween(stabs, kind, lo, hi, addr0, i, j, right + 1);
    if addr0 + 1 == LAST_ADDRESS {
      assert right + 1 == j;
      if j == i + 1 {
        forall k | Entry(stabs, kind, lo, hi, k) ensures k <= i || k >= j {
          NothingBetween(stabs, kind, lo, hi, addr0, i, j, k);
        }
      }
    } else {
      BeyondEnd(stabs, kind, lo, hi, addr0, i, j, left, right);
    }
  }

  lemma {:induction false} CarriedEnd(stabs: seq<Stab>, kind: int, lo: int, hi: int, addr0: Address, i: int, j: int,
          s: Search, left: int, right: int)
    requires InSearch(stabs, kind, lo, hi, addr0, s, false) && s.l > s.r && (left, right) == Result(stabs, kind, s)
    requires Neighbouring(stabs, kind, lo, hi, addr0, i, j) && s.addr > addr0 + 1
    ensures left >= j && addr0 + 1 < LAST_ADDRESS
  {
    assert j <= s.r && s.anyMatches;
    LastFacts(stabs, kind, s.left, s.r);
  }

  /** Of two entries at the address and the next one, which is found */
  lemma {:induction false} PhaseEnd(stabs: seq<Stab>, kind: int, lo: int, hi: int, addr0: Address, i: int, j: int,
          s: Search, wrapped: bool, left: int, right: int)
    requires InSearch(stabs, kind, lo, hi, addr0, s, wrapped) && s.l > s.r && (left, right) == Result(stabs, kind, s)
    requires Neighbouring(stabs, kind, lo, hi, addr0, i, j) && Sorted(stabs, kind, lo, hi)
    requires Phase(stabs, kind, lo, hi, addr0, i, j, s, wrapped)
    ensures Brackets(stabs, kind, lo, hi, addr0, left, right) <==> Skips(stabs, kind, lo, hi, addr0, i, j)
  {
    Finished(stabs, kind, lo, hi, addr0, s, wrapped, left, right);
    assert Below(stabs, kind, lo, hi, addr0, i);
    if UpperFirst(stabs, kind, lo, hi, i, j) {
      UpperEnd(stabs, kind, lo, hi, addr0, i, j, left, right);
    } else if wrapped {
      OverEnd(stabs, kind, lo, hi, addr0, i, j, left, right);
    } else {
      CarriedEnd(stabs, kind, lo, hi, addr0, i, j, s, left, right);
      BeyondEnd(stabs, kind, lo, hi, addr0, i, j, left, right);
    }
  }

  // One turn of the search that finds entry m: the new l, region bounds and addr
  method Compare(stabs: seq<Stab>, kind: int, l: int, r: int, left: int, addr: int, ghost anyMatches: bool, m: int,
          trueM: int)
      returns (l': int, r': int, left': int, addr': int)
    requires 0 <= l <= m < |stabs| && trueM == (l + r) / 2 && m == EarliestAt(stabs, kind, l, trueM)
    ensures Search(l', r', left', addr', true) == Turn(stabs, kind, Search(l, r, left, addr, anyMatches))
  {
    l', r', left', addr' := l, r, left, addr;
    if stabs[m].value < addr {
      left' := m;
      l' := trueM + 1;
    } else if stabs[m].value > addr {
      r' := m - 1;
    } else {
      left' := m;
      l' := m;
      addr' := (addr + 1) % 0x1_0000_0000;
    }
  }

  // The search so far
  ghost predicate OnTrace(stabs: seq<Stab>, kind: int, lo: int, hi: int, addr0: int, s0: Search, s: Search,
          trace: seq<Search>, wrapped: bool) {
    && IsTrace(stabs, kind, s0, trace) && s == trace[|trace| - 1] && InSearch(stabs, kind, lo, hi, addr0, s, wrapped)
    && 0 <= s.l && s.r < |stabs| && 0 <= s.left
  }

  lemma TraceStart(stabs: seq<Stab>, kind: int, lo: int, hi: int, addr0: Address)
    requires 0 <= lo <= hi + 1 <= |stabs| && Sorted(stabs, kind, lo, hi)
    ensures var s0 := Search(lo, hi, lo, addr0, false); OnTrace(stabs, kind, lo, hi, addr0, s0, s0, [s0], false)
  {
    var s0 := Search(lo, hi, lo, addr0, false);
    forall i ensures TurnAt(stabs, kind, [s0], i) {
    }
  }

  lemma TraceTurn(stabs: seq<Stab>, kind: int, lo: int, hi: int, addr0: Address, s0: Search, s: Search,
          trace: seq<Search>, wrapped: bool)
      returns (t: Search, trace': seq<Search>, wrapped': bool)
    requires OnTrace(stabs, kind, lo, hi, addr0, s0, s, trace, wrapped) && s.l <= s.r
    ensures t == Turn(stabs, kind, s) && OnTrace(stabs, kind, lo, hi, addr0, s0, t, trace', wrapped')
    ensures Less(Left(t, wrapped'), Left(s, wrapped))
  {
    wrapped' := TurnKeeps(stabs, kind, lo, hi, addr0, s, wrapped);
    TraceMore(stabs, kind, s0, trace);
    t := Turn(stabs, kind, s);
    trace' := trace + [t];
    Bounds(stabs, kind, lo, hi, addr0, t, wrapped');
  }

  // A whole search ends in the invariant, with the phase of neighbours i and j.
  lemma {:induction false} AtEnd(stabs: seq<Stab>, kind: int, lo: int, hi: int, addr0: Address, i: int, j: int,
          trace: seq<Search>)
      returns (wrapped: bool)
    requires 0 <= lo <= hi + 1 <= |stabs| && Sorted(stabs, kind, lo, hi)
      && IsTrace(stabs, kind, Search(lo, hi, lo, addr0, false), trace)
    ensures InSearch(stabs, kind, lo, hi, addr0, trace[|trace| - 1], wrapped)
    ensures Neighbouring(stabs, kind, lo, hi, addr0, i, j) ==>
      Phase(stabs, kind, lo, hi, addr0, i, j, trace[|trace| - 1], wrapped)
  {
    wrapped := false;
    TraceStart(stabs, kind, lo, hi, addr0);
    for n := 0 to |trace| - 1
      invariant InSearch(stabs, kind, lo, hi, addr0, trace[n], wrapped)
      invariant Neighbouring(stabs, kind, lo, hi, addr0, i, j) ==>
        Phase(stabs, kind, lo, hi, addr0, i, j, trace[n], wrapped)
    {
      assert TurnAt(stabs, kind, trace, n);
      var next := TurnKeeps(stabs, kind, lo, hi, addr0, trace[n], wrapped);
      if Neighbouring(stabs, kind, lo, hi, addr0, i, j) {
        InRegion(stabs, kind, lo, hi, addr0, trace[n], wrapped);
        PhaseTurn(stabs, kind, lo, hi, addr0, i, j, trace[n], wrapped, next);
      }
      wrapped := next;
    }
  }

  lemma InRegion(stabs: seq<Stab>, kind: int, lo: int, hi: int, addr0: int, s: Search, wrapped: bool)
    requires InSearch(stabs, kind, lo, hi, addr0, s, wrapped)
    ensures lo <= s.l && s.r <= hi
  {
  }

  /** What entries at consecutive addresses do to the search: asked for the lower of two it answers with
      it if and only if halving the table meets the upper one first, or the upper one is at the last
      address and the very next in the table. */
  lemma {:induction false} NeighboursDecided(stabs: seq<Stab>, kind: int, lo: int, hi: int, addr0: Address, i: int,
          j: int, trace: seq<Search>, left: int, right: int)
    requires 0 <= lo <= hi + 1 <= |stabs| && Sorted(stabs, kind, lo, hi)
      && Neighbouring(stabs, kind, lo, hi, addr0, i, j)
    requires Answers(stabs, kind, Search(lo, hi, lo, addr0, false), trace, left, right)
    ensures Brackets(stabs, kind, lo, hi, addr0, left, right) <==> Skips(stabs, kind, lo, hi, addr0, i, j)
  {
    var wrapped := AtEnd(stabs, kind, lo, hi, addr0, i, j, trace);
    PhaseEnd(stabs, kind, lo, hi, addr0, i, j, trace[|trace| - 1], wrapped, left, right);
  }

  /** The search is right if and only if some entry is at or below the address and it keeps to it. */
  lemma {:induction false} RightExactly(stabs: seq<Stab>, kind: int, lo: int, hi: int, addr0: Address,
          trace: seq<Search>, left: int, right: int)
    requires 0 <= lo <= hi + 1 <= |stabs| && Sorted(stabs, kind, lo, hi)
    requires Answers(stabs, kind, Search(lo, hi, lo, addr0, false), trace, left, right)
    ensures Brackets(stabs, kind, lo, hi, addr0, left, right) <==>
      (exists i :: Below(stabs, kind, lo, hi, addr0, i)) && KeepsTo(stabs, kind, lo, hi, addr0)
  {
    forall i, j | Neighbouring(stabs, kind, lo, hi, addr0, i, j)
      ensures Brackets(stabs, kind, lo, hi, addr0, left, right) <==> Skips(stabs, kind, lo, hi, addr0, i, j)
    {
      NeighboursDecided(stabs, kind, lo, hi, addr0, i, j, trace, left, right);
    }
    var wrapped := AtEnd(stabs, kind, lo, hi, addr0, 0, 0, trace);
    Finished(stabs, kind, lo, hi, addr0, trace[|trace| - 1], wrapped, left, right);
    if !RoomAfter(stabs, kind, lo, hi, addr0) && addr0 != LAST_ADDRESS {
      var i :| Entry(stabs, kind, lo, hi, i) && stabs[i].value == addr0;
      var j :| Entry(stabs, kind, lo, hi, j) && stabs[j].value == addr0 + 1;
      assert Below(stabs, kind, lo, hi, addr0, i) && Neighbouring(stabs, kind, lo, hi, addr0, i, j);
    }
  }

  // One turn of the loop
  method TakeTurn(stabs: seq<Stab>, kind: int, l0: int, r0: int, left0: int, addr0: int, anyMatches0: bool)
      returns (l: int, r: int, left: int, addr: int, anyMatches: bool)
    requires 0 <= l0 <= r0 < |stabs|
    ensures Search(l, r, left, addr, anyMatches) == Turn(stabs, kind, Search(l0, r0, left0, addr0, anyMatches0))
  {
    l, r, left, addr, anyMatches := l0, r0, left0, addr0, anyMatches0;
    var trueM := (l + r) / 2;
    var m := Earliest(stabs, l, trueM, kind);
    if m < l {
      l := trueM + 1;
    } else {
      l, r, left, addr := Compare(stabs, kind, l, r, left, addr, anyMatches, m, trueM);
      anyMatches := true;
    }
  }

  /** stab_binsearch.  The result brackets addr if and only if some entry of the type lies at or below
      addr and the search keeps to it.  Otherwise it may follow a run of consecutive entries from addr,
      or wrap around, and it does wrap around at the last address.  "If *region_left > *region_right,
      then addr is not contained in any matching stab" holds, but not the converse: that outcome means
      there is no entry of the type at all. */
  method BinSearch(stabs: seq<Stab>, lo: int, hi: int, kind: int, addr0: Address) returns (left: int, right: int)
    requires 0 <= lo <= hi + 1 <= |stabs|
    requires Sorted(stabs, kind, lo, hi)
    ensures Brackets(stabs, kind, lo, hi, addr0, left, right) <==>
      (exists i :: Below(stabs, kind, lo, hi, addr0, i)) && KeepsTo(stabs, kind, lo, hi, addr0)
    ensures (exists i :: Below(stabs, kind, lo, hi, addr0, i)) && RoomAfter(stabs, kind, lo, hi, addr0) ==>
      Brackets(stabs, kind, lo, hi, addr0, left, right)
    ensures (exists i :: Below(stabs, kind, lo, hi, addr0, i)) ==>
      Bracketed(stabs, kind, lo, hi, addr0, left, right) || Overflown(stabs, kind, lo, hi, addr0, left, right)
    ensures addr0 == LAST_ADDRESS && Hit(stabs, kind, lo, hi, addr0) ==>
      Overflown(stabs, kind, lo, hi, addr0, left, right) && !Brackets(stabs, kind, lo, hi, addr0, left, right)
    ensures left > right <==> forall i :: !Entry(stabs, kind, lo, hi, i)
    ensures exists trace :: Answers(stabs, kind, Search(lo, hi, lo, addr0, false), trace, left, right)
  {
    var l, r, anyMatches, addr := lo, hi, false, addr0 as int;
    left := lo;
    ghost var wrapped, s0 := false, Search(lo, hi, lo, addr0, false);
    ghost var s, trace := s0, [s0];
    TraceStart(stabs, kind, lo, hi, addr0);
    while l <= r
      invariant s == Search(l, r, left, addr, anyMatches) && OnTrace(stabs, kind, lo, hi, addr0, s0, s, trace, wrapped)
      decreases Left(s, wrapped).0, Left(s, wrapped).1
    {
      s, trace, wrapped := TraceTurn(stabs, kind, lo, hi, addr0, s0, s, trace, wrapped);
      l, r, left, addr, anyMatches := TakeTurn(stabs, kind, l, r, left, addr, anyMatches);
    }
    right := r;
    if !anyMatches {
      right := left - 1;
    } else {
      left := LastOfType(stabs, left, right, kind);
    }
    Finished(stabs, kind, lo, hi, addr0, s, wrapped, left, right);
    assert Answers(stabs, kind, s0, trace, left, right);
    RightExactly(stabs, kind, lo, hi, addr0, trace, left, right);
  }

  lemma Bounds(stabs: seq<Stab>, kind: int, lo: int, hi: int, addr0: int, s: Search, wrapped: bool)
    requires InSearch(stabs, kind, lo, hi, addr0, s, wrapped)
    ensures 0 <= s.l && s.r < |stabs| && 0 <= s.left
  {
  }

  // Two entries at consecutive addresses
  function Neighbours(): seq<Stab> { [Stab(36, 10), Stab(36, 11)] }

  lemma NeighbourTurn(s: Search)
    ensures s == Search(0, 1, 0, 10, false) ==> Turn(Neighbours(), 36, s) == Search(0, 1, 0, 11, true)
    ensures s == Search(0, 1, 0, 11, true) ==> Turn(Neighbours(), 36, s) == Search(1, 1, 0, 11, true)
    ensures s == Search(1, 1, 0, 11, true) ==> Turn(Neighbours(), 36, s) == Search(1, 1, 1, 12, true)
    ensures s == Search(1, 1, 1, 12, true) ==> Turn(Neighbours(), 36, s) == Search(2, 1, 1, 12, true)
  {
  }

  /** The search is not correct for entries at consecutive addresses: asked for 10 in a table with
      entries at 10 and 11 it answers with the entry at 11. */
  lemma NeighbourFound(trace: seq<Search>, left: int, right: int)
    requires Answers(Neighbours(), 36, Search(0, 1, 0, 10, false), trace, left, right)
    ensures left == 1 && right == 1 && !Brackets(Neighbours(), 36, 0, 1, 10, left, right)
  {
    for i := 0 to 4
      invariant i < |trace|
      invariant trace[i] == (if i == 0 then Search(0, 1, 0, 10, false) else if i == 1 then Search(0, 1, 0, 11, true)
                             else if i == 2 then Search(1, 1, 0, 11, true) else if i == 3 then Search(1, 1, 1, 12, true)
                             else Search(2, 1, 1, 12, true))
    {
      assert TurnAt(Neighbours(), 36, trace, i);
      NeighbourTurn(trace[i]);
    }
    assert TurnAt(Neighbours(), 36, trace, 4);
  }
}
