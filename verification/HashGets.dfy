/** What the threads of `HashTable` get: each thread looks every key up, in order, and the entry it gets
    has that key, and a value that some thread put with it. */
module HashGets {
  import opened HashTable
  import opened HashProgress

  // ---------------------------------------------------------------- the gets of a thread

  // How many gets a thread has done
  function Looked(pc: Pc, nkeys: int): int {
    match pc
    case Looking(i, _) => i
    case Walking(i, _, _) => i
    case Finished(_) => nkeys
    case _ => 0
  }

  // How many keys a thread has found missing
  function Missed(pc: Pc): int { if Reading(pc) then pc.k else 0 }

  // A thread ends a get when it stops walking.
  predicate EndsGet(pc: Pc, pc': Pc) { pc.Walking? && !pc'.Walking? }

  // What the gets of thread t return along a schedule
  ghost function Gets(s: State, keys: seq<int>, schedule: seq<int>, t: int): seq<int>
    requires Shape(s) && 0 <= t < |s.pcs|
    decreases |schedule|
  {
    if schedule == [] || !(0 <= schedule[0] < |s.pcs|) then []
    else
      var s' := Next(s, keys, schedule[0]);
      FirstGet(s.pcs[t], s'.pcs[t], schedule[0], t) + Gets(s', keys, schedule[1..], t)
  }

  function Nulls(gets: seq<int>): nat {
    if gets == [] then 0 else (if gets[0] == NIL then 1 else 0) + Nulls(gets[1..])
  }

  lemma NullsFront(gets: seq<int>, e: int)
    ensures Nulls([e] + gets) == (if e == NIL then 1 else 0) + Nulls(gets)
  {
    assert ([e] + gets)[1..] == gets;
  }

  // Turn u of a schedule, and what it does to thread t
  ghost predicate TurnCounted(s: State, s1: State, nkeys: int, u: int, t: int)
    requires 0 <= t < |s.pcs|
  {
    && Shape(s1) && |s1.pcs| == |s.pcs| && LooksWithin(s1.pcs[t], nkeys)
    && var ends := u == t && EndsGet(s.pcs[t], s1.pcs[t]);
    && Looked(s1.pcs[t], nkeys) == Looked(s.pcs[t], nkeys) + (if ends then 1 else 0)
    && Missed(s1.pcs[t]) == Missed(s.pcs[t]) + (if ends && s.pcs[t].e == NIL then 1 else 0)
  }

  lemma OneTurn(s: State, keys: seq<int>, u: int, t: int)
    requires Shape(s) && 0 <= u < |s.pcs| && 0 <= t < |s.pcs| && LooksWithin(s.pcs[t], |keys|)
    ensures TurnCounted(s, Next(s, keys, u), |keys|, u, t)
  {
  }

  /** From any state on: a thread has looked up as many keys as its gets have returned, it finishes only
      when it has looked up all, and it counts exactly the gets that returned null. */
  lemma {:induction false} MissesCounted(s: State, keys: seq<int>, schedule: seq<int>, t: int)
    requires Shape(s) && 0 <= t < |s.pcs| && LooksWithin(s.pcs[t], |keys|)
    ensures Counted(s, Run(s, keys, schedule), |keys|, t, Gets(s, keys, schedule, t))
    decreases |schedule|
  {
    if schedule != [] && 0 <= schedule[0] < |s.pcs| {
      var s1 := Next(s, keys, schedule[0]);
      OneTurn(s, keys, schedule[0], t);
      MissesCounted(s1, keys, schedule[1..], t);
      CountedMore(s, s1, Run(s1, keys, schedule[1..]), |keys|, schedule[0], t, Gets(s1, keys, schedule[1..], t));
    }
  }

  ghost predicate Counted(s: State, s': State, nkeys: int, t: int, gets: seq<int>)
    requires 0 <= t < |s.pcs|
  {
    && |s'.pcs| == |s.pcs|
    && Looked(s'.pcs[t], nkeys) == Looked(s.pcs[t], nkeys) + |gets|
    && Missed(s'.pcs[t]) == Missed(s.pcs[t]) + Nulls(gets)
  }

  function FirstGet(pc: Pc, pc': Pc, u: int, t: int): seq<int> {
    if u == t && EndsGet(pc, pc') then [pc.e] else []
  }

  lemma CountedMore(s: State, s1: State, s': State, nkeys: int, u: int, t: int, gets: seq<int>)
    requires 0 <= t < |s.pcs| && TurnCounted(s, s1, nkeys, u, t) && Counted(s1, s', nkeys, t, gets)
    ensures Counted(s, s', nkeys, t, FirstGet(s.pcs[t], s1.pcs[t], u, t) + gets)
  {
    if u == t && EndsGet(s.pcs[t], s1.pcs[t]) {
      NullsFront(gets, s.pcs[t].e);
    } else {
      assert [] + gets == gets;
    }
  }

  predicate LooksWithin(pc: Pc, nkeys: int) {
    (pc.Looking? ==> 0 <= pc.i <= nkeys) && (pc.Walking? ==> 0 <= pc.i < nkeys)
  }

  // ---------------------------------------------------------------- the entries

  /** An entry is the work of the thread that is its value, for a key of that thread's slice. */
  ghost predicate Made(s: State, keys: seq<int>, e: int) {
    && 0 <= e < |s.nodes| && 0 <= s.nodes[e].value < |s.pcs|
    && exists i :: 0 <= i < Share(keys, |s.pcs|) && PutAt(keys, |s.pcs|, s.nodes[e], i)
  }

  predicate PutAt(keys: seq<int>, n: int, entry: Entry, i: int) { entry.key == MyKey(keys, n, entry.value, i) }

  ghost predicate AllMade(s: State, keys: seq<int>) {
    forall e {:trigger s.nodes[e]} :: 0 <= e < |s.nodes| ==> Made(s, keys, e)
  }

  // Entries keep key and value; a new one is made for a put.
  lemma NextMade(s: State, keys: seq<int>, t: int)
    requires Inv(s, keys) && AllMade(s, keys) && 0 <= t < |s.pcs|
    ensures var s' := Next(s, keys, t);
      AllMade(s', keys) && KeepsEntries(s, s')
  {
    var s', n := Next(s, keys, t), |s.pcs|;
    assert WriterOk(s, keys, t);
    forall e | 0 <= e < |s'.nodes| ensures Made(s', keys, e) {
      if e < |s.nodes| {
        assert Made(s, keys, e);
        var i :| 0 <= i < Share(keys, n) && PutAt(keys, n, s.nodes[e], i);
        assert PutAt(keys, n, s'.nodes[e], i);
      } else {
        assert PutAt(keys, n, s'.nodes[e], s.pcs[t].i);
      }
    }
  }

  // ---------------------------------------------------------------- every get finds its key

  /** The j-th get returned an entry of the j-th key. */
  ghost predicate Got(s: State, keys: seq<int>, e: int, j: int) {
    Made(s, keys, e) && s.nodes[e].key == KeyAt(keys, j)
  }

  // A get ends at an entry with its key.
  lemma GetEnds(s: State, keys: seq<int>, t: int)
    requires Inv(s, keys) && AllMade(s, keys) && 0 <= t < |s.pcs| && EndsGet(s.pcs[t], Next(s, keys, t).pcs[t])
    ensures Got(s, keys, s.pcs[t].e, s.pcs[t].i)
  {
    NextKeeps(s, keys, t);
    assert ReaderOk(s, keys, t) && ReaderOk(Next(s, keys, t), keys, t);
    var key := KeyAt(keys, s.pcs[t].i);
    var c := s.chains[Bucket(key)];
    assert ChainOk(s.nodes, s.table[Bucket(key)], c);
    var m :| WalkAt(s.nodes, c, key, s.pcs[t].e, m);
    assert Link(s.nodes, c, m);
    assert Made(s, keys, s.pcs[t].e);
  }

  ghost predicate KeepsEntries(s: State, s': State) {
    && |s.nodes| <= |s'.nodes|
    && forall e :: 0 <= e < |s.nodes| ==> s'.nodes[e].key == s.nodes[e].key && s'.nodes[e].value == s.nodes[e].value
  }

  // The gets are those of the keys from `from` on.
  ghost predicate AllGot(s: State, keys: seq<int>, gets: seq<int>, from: int) {
    forall j :: 0 <= j < |gets| ==> Got(s, keys, gets[j], from + j)
  }

  lemma {:induction false} RunGets(s: State, keys: seq<int>, schedule: seq<int>, t: int, from: int)
    requires Inv(s, keys) && AllMade(s, keys) && 0 <= t < |s.pcs| && from == Looked(s.pcs[t], |keys|)
    ensures var s', gets := Run(s, keys, schedule), Gets(s, keys, schedule, t);
      KeepsEntries(s, s') && |s'.pcs| == |s.pcs| && AllMade(s', keys) && AllGot(s', keys, gets, from)
    decreases |schedule|
  {
    if schedule != [] && 0 <= schedule[0] < |s.pcs| {
      var u, rest := schedule[0], schedule[1..];
      var s1 := Next(s, keys, u);
      NextKeeps(s, keys, u);
      NextMade(s, keys, u);
      Within(s, keys, t);
      OneTurn(s, keys, u, t);
      RunGets(s1, keys, rest, t, Looked(s1.pcs[t], |keys|));
      if u == t && EndsGet(s.pcs[t], s1.pcs[t]) {
        GetEnds(s, keys, t);
      }
      GotMore(s, s1, Run(s1, keys, rest), keys, u, t, Gets(s1, keys, rest, t), from);
    }
  }

  lemma Within(s: State, keys: seq<int>, t: int)
    requires Inv(s, keys) && 0 <= t < |s.pcs|
    ensures LooksWithin(s.pcs[t], |keys|)
  {
    assert ReaderOk(s, keys, t);
  }

  lemma GotMore(s: State, s1: State, s': State, keys: seq<int>, u: int, t: int, gets: seq<int>, from: int)
    requires 0 <= t < |s.pcs| && TurnCounted(s, s1, |keys|, u, t) && from == Looked(s.pcs[t], |keys|)
    requires KeepsEntries(s, s1) && KeepsEntries(s1, s') && AllMade(s', keys)
    requires AllGot(s', keys, gets, Looked(s1.pcs[t], |keys|))
    requires u == t && EndsGet(s.pcs[t], s1.pcs[t]) ==> Got(s, keys, s.pcs[t].e, s.pcs[t].i)
    ensures KeepsEntries(s, s') && AllGot(s', keys, FirstGet(s.pcs[t], s1.pcs[t], u, t) + gets, from)
  {
    if u == t && EndsGet(s.pcs[t], s1.pcs[t]) {
      var e := s.pcs[t].e;
      assert Made(s', keys, e);
      forall j | 0 <= j < |[e] + gets| ensures Got(s', keys, ([e] + gets)[j], from + j) {
        if j > 0 {
          assert Got(s', keys, gets[j - 1], from + 1 + (j - 1));
        }
      }
    } else {
      assert [] + gets == gets;
    }
  }

  /** Under every schedule: the j-th get of a thread returns an entry of the j-th key, with the number of
      a thread that put that key; it has as many gets behind it as it has keys, and all when it
      finishes. */
  lemma EachKeyGot(nthread: nat, keys: seq<int>, schedule: seq<int>, t: int)
    requires Input(keys, nthread) && 0 <= t < nthread
    ensures var s, gets := Run(Init(nthread), keys, schedule), Gets(Init(nthread), keys, schedule, t);
      && |s.pcs| == nthread && |gets| == Looked(s.pcs[t], |keys|)
      && (s.pcs[t].Finished? ==> |gets| == |keys|)
      && forall j :: 0 <= j < |gets| ==> Got(s, keys, gets[j], j)
  {
    var s0 := Init(nthread);
    InitInv(keys, nthread);
    MissesCounted(s0, keys, schedule, t);
    RunGets(s0, keys, schedule, t, 0);
    var s, gets := Run(s0, keys, schedule), Gets(s0, keys, schedule, t);
    forall j | 0 <= j < |gets| ensures Got(s, keys, gets[j], j) {
      assert Got(s, keys, gets[j], 0 + j);
    }
  }
}
