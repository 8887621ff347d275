/** The multithreaded hash table: threads insert their slices of the keys under one lock a bucket, meet
    at a barrier, and look every key up.  A step is one access to shared memory by one thread. */
module HashTable {
  const NBUCKET := 5
  const NIL := -1

  datatype Entry = Entry(key: int, value: int, next: int)

  // Where a thread is.  i: its loop index, e: the entry insert has made, k: keys found missing
  datatype Pc =
    | Putting(i: int)               // at the top of the put loop
    | Filled(i: int, e: int)        // entry e made, before pthread_mutex_lock
    | Locked(i: int, e: int)
    | Chained(i: int, e: int)       // e->next is set
    | Published(i: int, e: int)     // table[hash] is set
    | Waiting                       // done incremented
    | Looking(i: int, k: int)       // at the top of the get loop
    | Walking(i: int, k: int, e: int)
    | Finished(k: int)

  /** chains: the entries of each bucket, from the head; the rest is what the program stores. */
  datatype State = State(nodes: seq<Entry>, table: seq<int>, locks: seq<int>, done: int, pcs: seq<Pc>,
      chains: seq<seq<int>>)

  function Bucket(key: int): int { key % 5 }

  // The keys are nonnegative, and the threads divide them evenly (the program asserts this).
  ghost predicate Input(keys: seq<int>, nthread: int) {
    nthread > 0 && |keys| % nthread == 0 && forall j :: 0 <= j < |keys| ==> keys[j] >= 0
  }

  function KeyAt(keys: seq<int>, j: int): int {
    if 0 <= j < |keys| then keys[j] else 0
  }

  // The slice of a thread
  function Share(keys: seq<int>, nthread: int): int {
    if nthread > 0 then |keys| / nthread else 0
  }

  // The key that thread t inserts in turn i
  function MyKey(keys: seq<int>, nthread: int, t: int, i: int): int {
    KeyAt(keys, Share(keys, nthread) * t + i)
  }

  function NextOf(nodes: seq<Entry>, e: int): int {
    if 0 <= e < |nodes| then nodes[e].next else NIL
  }

  function KeyOf(nodes: seq<Entry>, e: int): int {
    if 0 <= e < |nodes| then nodes[e].key else NIL
  }

  function Init(nthread: nat): State {
    State([], seq(NBUCKET, _ => NIL), seq(NBUCKET, _ => NIL), 0, seq(nthread, _ => Putting(0)), seq(NBUCKET, _ => []))
  }

  function Move(s: State, t: int, pc: Pc): State
    requires 0 <= t < |s.pcs|
  {
    s.(pcs := s.pcs[t := pc])
  }

  predicate Shape(s: State) {
    |s.table| == |s.locks| == |s.chains| == NBUCKET
  }

  /** The next step of thread t.  A thread that finds the lock taken or the barrier closed stays. */
  function Next(s: State, keys: seq<int>, t: int): State
    requires Shape(s) && 0 <= t < |s.pcs|
  {
    var n := |s.pcs|;
    match s.pcs[t]
    case Putting(i) =>
      if i < Share(keys, n) then
        Move(s, t, Filled(i, |s.nodes|)).(nodes := s.nodes + [Entry(MyKey(keys, n, t, i), t, NIL)])
      else Move(s, t, Waiting).(done := s.done + 1)
    case Filled(i, e) =>
      var h := Bucket(MyKey(keys, n, t, i));
      if s.locks[h] == NIL then Move(s, t, Locked(i, e)).(locks := s.locks[h := t]) else s
    case Locked(i, e) =>
      var h := Bucket(MyKey(keys, n, t, i));
      if 0 <= e < |s.nodes| then Move(s, t, Chained(i, e)).(nodes := s.nodes[e := s.nodes[e].(next := s.table[h])])
        else s
    case Chained(i, e) =>
      var h := Bucket(MyKey(keys, n, t, i));
      Move(s, t, Published(i, e)).(table := s.table[h := e], chains := s.chains[h := [e] + s.chains[h]])
    case Published(i, e) =>
      Move(s, t, Putting(i + 1)).(locks := s.locks[Bucket(MyKey(keys, n, t, i)) := NIL])
    case Waiting => if s.done < n then s else Move(s, t, Looking(0, 0))
    case Looking(i, k) =>
      if i < |keys| then Move(s, t, Walking(i, k, s.table[Bucket(KeyAt(keys, i))])) else Move(s, t, Finished(k))
    case Walking(i, k, e) =>
      if e == NIL then Move(s, t, Looking(i + 1, k + 1))
      else if KeyOf(s.nodes, e) == KeyAt(keys, i) then Move(s, t, Looking(i + 1, k))
      else Move(s, t, Walking(i, k, NextOf(s.nodes, e)))
    case Finished(_) => s
  }

  // A schedule names the thread that moves at each step.
  ghost function Run(s: State, keys: seq<int>, schedule: seq<int>): State
    requires Shape(s)
    decreases |schedule|
  {
    if schedule == [] || !(0 <= schedule[0] < |s.pcs|) then s else Run(Next(s, keys, schedule[0]), keys, schedule[1..])
  }

  // ---------------------------------------------------------------- the invariant

  ghost predicate Link(nodes: seq<Entry>, c: seq<int>, j: int)
    requires 0 <= j < |c|
  {
    0 <= c[j] < |nodes| && nodes[c[j]].next == if j + 1 < |c| then c[j + 1] else NIL
  }

  // A bucket is the chain of next from its head, and visits no entry twice.
  ghost predicate ChainOk(nodes: seq<Entry>, head: int, c: seq<int>) {
    && head == (if c == [] then NIL else c[0])
    && (forall j :: 0 <= j < |c| ==> Link(nodes, c, j))
    && (forall j, l :: 0 <= j < l < |c| ==> c[j] != c[l])
  }

  ghost predicate ChainsOk(s: State) {
    Shape(s) && forall h {:trigger s.chains[h]} :: 0 <= h < NBUCKET ==> ChainOk(s.nodes, s.table[h], s.chains[h])
  }

  ghost predicate Chain(s: State, h: int, e: int) {
    0 <= h < |s.chains| && e in s.chains[h]
  }

  ghost predicate InTable(s: State, key: int) {
    exists e :: Chain(s, Bucket(key), e) && KeyOf(s.nodes, e) == key
  }

  predicate Past(pc: Pc) { pc.Waiting? || pc.Looking? || pc.Walking? || pc.Finished? }

  predicate Reading(pc: Pc) { pc.Looking? || pc.Walking? || pc.Finished? }

  // An entry made but not yet in the table
  function Pending(pc: Pc): int {
    if pc.Filled? || pc.Locked? || pc.Chained? then pc.e else NIL
  }

  predicate HoldsLock(pc: Pc) { pc.Locked? || pc.Chained? || pc.Published? }

  // How many of its keys a thread has inserted
  function Completed(pc: Pc, share: int): int {
    if Past(pc) then share else if pc.Published? then pc.i + 1 else pc.i
  }

  function CountPast(pcs: seq<Pc>): int {
    if pcs == [] then 0 else (if Past(pcs[0]) then 1 else 0) + CountPast(pcs[1..])
  }

  // Thread t, on the writing side
  ghost predicate WriterOk(s: State, keys: seq<int>, t: int)
    requires Shape(s) && 0 <= t < |s.pcs|
  {
    var pc, n := s.pcs[t], |s.pcs|;
    && (!Past(pc) ==> 0 <= pc.i <= Share(keys, n) && (!pc.Putting? ==> pc.i < Share(keys, n)))
    && (HoldsLock(pc) ==> s.locks[Bucket(MyKey(keys, n, t, pc.i))] == t)
    && (Pending(pc) != NIL || pc.Filled? || pc.Locked? || pc.Chained? ==>
          && 0 <= pc.e < |s.nodes| && KeyOf(s.nodes, pc.e) == MyKey(keys, n, t, pc.i)
          && forall h :: 0 <= h < NBUCKET ==> !Chain(s, h, pc.e))
    && (pc.Chained? ==> NextOf(s.nodes, pc.e) == s.table[Bucket(MyKey(keys, n, t, pc.i))])
    && (forall j :: 0 <= j < Completed(pc, Share(keys, n)) ==> InTable(s, MyKey(keys, n, t, j)))
  }

  // e is the m-th entry of chain c (NIL: its end), and the entries before it have other keys.
  ghost predicate WalkAt(nodes: seq<Entry>, c: seq<int>, key: int, e: int, m: int) {
    0 <= m <= |c| && e == (if m < |c| then c[m] else NIL) && forall j :: 0 <= j < m ==> KeyOf(nodes, c[j]) != key
  }

  // The walk of get() has passed only other keys.
  ghost predicate WalkOk(s: State, key: int, e: int)
    requires Shape(s)
  {
    exists m :: WalkAt(s.nodes, s.chains[Bucket(key)], key, e, m)
  }

  // Thread t, on the reading side: the barrier is open and nothing has been missed.
  ghost predicate ReaderOk(s: State, keys: seq<int>, t: int)
    requires Shape(s) && 0 <= t < |s.pcs|
  {
    var pc := s.pcs[t];
    Reading(pc) ==>
      && pc.k == 0 && s.done == |s.pcs|
      && (pc.Looking? ==> 0 <= pc.i <= |keys|)
      && (pc.Walking? ==> 0 <= pc.i < |keys| && WalkOk(s, KeyAt(keys, pc.i), pc.e))
  }

  ghost predicate Inv(s: State, keys: seq<int>) {
    && Input(keys, |s.pcs|) && ChainsOk(s)
    && s.done == CountPast(s.pcs)
    && (forall t {:trigger s.pcs[t]} :: 0 <= t < |s.pcs| ==> WriterOk(s, keys, t) && ReaderOk(s, keys, t))
    && (forall t, u :: 0 <= t < |s.pcs| && 0 <= u < |s.pcs| && t != u && Pending(s.pcs[t]) != NIL ==>
      Pending(s.pcs[t]) != Pending(s.pcs[u]))
  }

  // ---------------------------------------------------------------- counting

  lemma {:induction false} CountBounds(pcs: seq<Pc>)
    ensures 0 <= CountPast(pcs) <= |pcs|
    ensures CountPast(pcs) == |pcs| ==> forall t :: 0 <= t < |pcs| ==> Past(pcs[t])
    decreases |pcs|
  {
    if pcs != [] {
      CountBounds(pcs[1..]);
      assert forall t :: 1 <= t < |pcs| ==> pcs[t] == pcs[1..][t - 1];
    }
  }

  lemma {:induction false} CountSet(pcs: seq<Pc>, t: int, pc: Pc)
    requires 0 <= t < |pcs|
    ensures CountPast(pcs[t := pc]) == CountPast(pcs) - (if Past(pcs[t]) then 1 else 0) + (if Past(pc) then 1 else 0)
    decreases |pcs|
  {
    if t == 0 {
      assert pcs[t := pc][1..] == pcs[1..];
    } else {
      CountSet(pcs[1..], t - 1, pc);
      assert pcs[t := pc][1..] == pcs[1..][t - 1 := pc];
    }
  }

  // ---------------------------------------------------------------- the slices

  // Key index j is turn i of thread t.
  predicate Slice(b: int, t: int, i: int, j: int) {
    0 <= i < b && b * t + i == j
  }

  lemma {:induction false} MulGap(b: int, t: int, u: int)
    requires b >= 0 && t < u
    ensures b * u >= b * t + b
    decreases u - t
  {
    assert b * u == b * (u - 1) + b;
    if u > t + 1 {
      MulGap(b, t, u - 1);
    }
  }

  lemma {:induction false} SliceExists(b: int, n: nat, j: int) returns (t: int, i: int)
    requires 0 <= j < b * n && b >= 0
    ensures 0 <= t < n && Slice(b, t, i, j)
    decreases n
  {
    assert n > 0;
    assert b * n == b * (n - 1) + b;
    if j < b * (n - 1) {
      t, i := SliceExists(b, n - 1, j);
    } else {
      t, i := n - 1, j - b * (n - 1);
    }
  }

  lemma Division(a: int, n: int)
    requires a >= 0 && n > 0 && a % n == 0
    ensures a == a / n * n && a / n >= 0
  {
  }

  /** The slices b*n + i cover each key index exactly once. */
  lemma SlicesCover(keys: seq<int>, nthread: int, j: int) returns (t: int, i: int)
    requires Input(keys, nthread) && 0 <= j < |keys|
    ensures 0 <= t < nthread && Slice(Share(keys, nthread), t, i, j)
    ensures forall u, l :: Slice(Share(keys, nthread), u, l, j) ==> u == t && l == i
  {
    var b := Share(keys, nthread);
    Division(|keys|, nthread);
    t, i := SliceExists(b, nthread, j);
    forall u, l | Slice(b, u, l, j) ensures u == t && l == i {
      if u < t {
        MulGap(b, u, t);
      } else if t < u {
        MulGap(b, t, u);
      }
    }
  }

  // ---------------------------------------------------------------- steps keep the invariant

  // A step that leaves what other threads rely on: entries keep their keys, chains only grow, and
  // entry e alone (NIL: none) is rewritten or published.
  ghost predicate Mild(s: State, s': State, t: int, e: int) {
    && Shape(s) && Shape(s') && |s'.pcs| == |s.pcs| && 0 <= t < |s.pcs| && s'.pcs == s.pcs[t := s'.pcs[t]]
    && |s.nodes| <= |s'.nodes|
    && (forall x :: 0 <= x < |s.nodes| ==> KeyOf(s'.nodes, x) == KeyOf(s.nodes, x))
    && (forall x :: 0 <= x < |s.nodes| && x != e ==> NextOf(s'.nodes, x) == NextOf(s.nodes, x))
    && (forall h, x {:trigger Chain(s', h, x)} :: Chain(s, h, x) ==> Chain(s', h, x))
    && (forall h, x {:trigger Chain(s', h, x)} :: Chain(s', h, x) ==> Chain(s, h, x) || x == e)
    && (forall h, x {:trigger Chain(s, h, x)} :: Chain(s, h, x) ==> 0 <= x < |s.nodes|)
  }

  lemma InTableKept(s: State, s': State, t: int, e: int, key: int)
    requires Mild(s, s', t, e) && InTable(s, key)
    ensures InTable(s', key)
  {
    var x :| Chain(s, Bucket(key), x) && KeyOf(s.nodes, x) == key;
    assert Chain(s', Bucket(key), x);
  }

  // What thread u has locked stays locked and as it is.
  ghost predicate LocksKept(s: State, s': State, u: int)
    requires Shape(s) && Shape(s')
  {
    forall h {:trigger s'.locks[h]} :: 0 <= h < NBUCKET && s.locks[h] == u ==>
      s'.locks[h] == u && s'.table[h] == s.table[h]
  }

  // Another thread, not yet reading, after a mild step that respects its lock and its entry
  lemma OtherWriter(s: State, s': State, keys: seq<int>, t: int, e: int, u: int)
    requires Mild(s, s', t, e) && 0 <= u < |s.pcs| && u != t && WriterOk(s, keys, u)
    requires e != NIL ==> Pending(s.pcs[u]) != e
    requires LocksKept(s, s', u)
    ensures WriterOk(s', keys, u)
  {
    var pc, b := s.pcs[u], Share(keys, |s.pcs|);
    forall j | 0 <= j < Completed(pc, b) ensures InTable(s', MyKey(keys, |s.pcs|, u, j)) {
      InTableKept(s, s', t, e, MyKey(keys, |s.pcs|, u, j));
    }
  }

  // While some thread is not past the barrier, none reads.
  lemma NoneReads(s: State, keys: seq<int>, t: int, u: int)
    requires Inv(s, keys) && 0 <= t < |s.pcs| && !Past(s.pcs[t]) && 0 <= u < |s.pcs|
    ensures !Reading(s.pcs[u])
  {
    CountBounds(s.pcs);
    assert ReaderOk(s, keys, u);
  }

  lemma ChainRange(s: State)
    requires ChainsOk(s)
    ensures forall h, x {:trigger Chain(s, h, x)} :: Chain(s, h, x) ==> 0 <= x < |s.nodes|
  {
    forall h, x | Chain(s, h, x) ensures 0 <= x < |s.nodes| {
      var j :| 0 <= j < |s.chains[h]| && s.chains[h][j] == x;
      assert Link(s.nodes, s.chains[h], j);
    }
  }

  /** A step of thread t on the writing side keeps the invariant, given what it does to its own
      part. */
  lemma WriteKeeps(s: State, s': State, keys: seq<int>, t: int, e: int)
    requires Inv(s, keys) && Mild(s, s', t, e) && !Past(s.pcs[t]) && ChainsOk(s') && WriterOk(s', keys, t)
      && !Reading(s'.pcs[t])
    requires s'.done == s.done + (if Past(s'.pcs[t]) then 1 else 0)
    requires forall u :: 0 <= u < |s.pcs| && u != t && e != NIL ==> Pending(s.pcs[u]) != e
    requires forall u :: 0 <= u < |s.pcs| && u != t && Pending(s'.pcs[t]) != NIL ==>
      Pending(s.pcs[u]) != Pending(s'.pcs[t])
    requires forall u :: 0 <= u < |s.pcs| && u != t ==> LocksKept(s, s', u)
    ensures Inv(s', keys)
  {
    CountSet(s.pcs, t, s'.pcs[t]);
    forall u | 0 <= u < |s.pcs| ensures WriterOk(s', keys, u) && ReaderOk(s', keys, u) {
      if u != t {
        assert WriterOk(s, keys, u);
        assert LocksKept(s, s', u);
        OtherWriter(s, s', keys, t, e, u);
        NoneReads(s, keys, t, u);
      }
    }
  }

  lemma PutKeeps(s: State, keys: seq<int>, t: int)
    requires Inv(s, keys) && 0 <= t < |s.pcs| && s.pcs[t].Putting?
    ensures Inv(Next(s, keys, t), keys)
  {
    var s', pc, e := Next(s, keys, t), s.pcs[t], |s.nodes|;
    assert WriterOk(s, keys, t);
    ChainRange(s);
    forall h | 0 <= h < NBUCKET ensures ChainOk(s'.nodes, s'.table[h], s'.chains[h]) {
      assert ChainOk(s.nodes, s.table[h], s.chains[h]);
      forall j | 0 <= j < |s.chains[h]|
        ensures Link(s'.nodes, s'.chains[h], j) { assert Link(s.nodes, s.chains[h], j); }
    }
    forall u | 0 <= u < |s.pcs| ensures Pending(s.pcs[u]) < |s.nodes| { assert WriterOk(s, keys, u); }
    forall j | 0 <= j < pc.i ensures InTable(s', MyKey(keys, |s.pcs|, t, j)) {
      InTableKept(s, s', t, NIL, MyKey(keys, |s.pcs|, t, j));
    }
    WriteKeeps(s, s', keys, t, NIL);
  }

  lemma LockKeeps(s: State, keys: seq<int>, t: int)
    requires Inv(s, keys) && 0 <= t < |s.pcs| && (s.pcs[t].Filled? || s.pcs[t].Published?)
    ensures Inv(Next(s, keys, t), keys)
  {
    var s', pc := Next(s, keys, t), s.pcs[t];
    assert WriterOk(s, keys, t);
    ChainRange(s);
    if s' != s {
      forall j | 0 <= j < Completed(pc, Share(keys, |s.pcs|)) ensures InTable(s', MyKey(keys, |s.pcs|, t, j)) {
        InTableKept(s, s', t, NIL, MyKey(keys, |s.pcs|, t, j));
      }
      forall u | 0 <= u < |s.pcs| && u != t && Pending(s'.pcs[t]) != NIL
        ensures Pending(s.pcs[u]) != Pending(s'.pcs[t])
      {
        assert Pending(s.pcs[t]) != Pending(s.pcs[u]);
      }
      WriteKeeps(s, s', keys, t, NIL);
    }
  }

  lemma ChainKeeps(s: State, keys: seq<int>, t: int)
    requires Inv(s, keys) && 0 <= t < |s.pcs| && s.pcs[t].Locked?
    ensures Inv(Next(s, keys, t), keys)
  {
    var s', pc := Next(s, keys, t), s.pcs[t];
    var e := pc.e;
    assert WriterOk(s, keys, t);
    ChainRange(s);
    forall h | 0 <= h < NBUCKET ensures ChainOk(s'.nodes, s'.table[h], s'.chains[h]) {
      assert ChainOk(s.nodes, s.table[h], s.chains[h]);
      forall j | 0 <= j < |s.chains[h]| ensures Link(s'.nodes, s'.chains[h], j) {
        assert Link(s.nodes, s.chains[h], j);
        assert Chain(s, h, s.chains[h][j]);
      }
    }
    forall j | 0 <= j < pc.i ensures InTable(s', MyKey(keys, |s.pcs|, t, j)) {
      InTableKept(s, s', t, e, MyKey(keys, |s.pcs|, t, j));
    }
    forall h | 0 <= h < NBUCKET ensures !Chain(s', h, e) {
      assert !Chain(s, h, e);
    }
    forall u | 0 <= u < |s.pcs| && u != t ensures Pending(s.pcs[u]) != e {
      assert Pending(s.pcs[t]) != Pending(s.pcs[u]);
    }
    WriteKeeps(s, s', keys, t, e);
  }

  // The new head of a bucket
  lemma ChainPush(nodes: seq<Entry>, head: int, c: seq<int>, e: int)
    requires ChainOk(nodes, head, c) && 0 <= e < |nodes| && e !in c && nodes[e].next == head
    ensures ChainOk(nodes, e, [e] + c)
  {
    var c' := [e] + c;
    forall j | 0 <= j < |c'| ensures Link(nodes, c', j) {
      if j > 0 {
        assert Link(nodes, c, j - 1);
      }
    }
  }

  lemma PublishKeeps(s: State, keys: seq<int>, t: int)
    requires Inv(s, keys) && 0 <= t < |s.pcs| && s.pcs[t].Chained?
    ensures Inv(Next(s, keys, t), keys)
  {
    var s', pc := Next(s, keys, t), s.pcs[t];
    var e, h0 := pc.e, Bucket(MyKey(keys, |s.pcs|, t, pc.i));
    assert WriterOk(s, keys, t);
    ChainRange(s);
    assert !Chain(s, h0, e);
    forall h | 0 <= h < NBUCKET ensures ChainOk(s'.nodes, s'.table[h], s'.chains[h]) {
      assert ChainOk(s.nodes, s.table[h], s.chains[h]);
      if h == h0 {
        ChainPush(s.nodes, s.table[h0], s.chains[h0], e);
      }
    }
    assert Chain(s', h0, e);
    forall j | 0 <= j < pc.i + 1 ensures InTable(s', MyKey(keys, |s.pcs|, t, j)) {
      if j < pc.i {
        InTableKept(s, s', t, e, MyKey(keys, |s.pcs|, t, j));
      }
    }
    forall u | 0 <= u < |s.pcs| && u != t ensures Pending(s.pcs[u]) != e {
      assert Pending(s.pcs[t]) != Pending(s.pcs[u]);
    }
    WriteKeeps(s, s', keys, t, e);
  }

  lemma WalkSame(s: State, s': State, key: int, e: int)
    requires Shape(s) && Shape(s') && s'.chains == s.chains && s'.nodes == s.nodes && WalkOk(s, key, e)
    ensures WalkOk(s', key, e)
  {
    var m :| WalkAt(s.nodes, s.chains[Bucket(key)], key, e, m);
    assert WalkAt(s'.nodes, s'.chains[Bucket(key)], key, e, m);
  }

  lemma OtherReader(s: State, s': State, keys: seq<int>, u: int)
    requires Shape(s) && Shape(s') && |s'.pcs| == |s.pcs| && 0 <= u < |s.pcs| && s'.pcs[u] == s.pcs[u]
      && ReaderOk(s, keys, u)
    requires s'.chains == s.chains && s'.nodes == s.nodes && s'.done == s.done
    ensures ReaderOk(s', keys, u)
  {
    var pc := s.pcs[u];
    if pc.Walking? {
      WalkSame(s, s', KeyAt(keys, pc.i), pc.e);
    }
  }

  // A step of a thread past its puts touches no shared memory.
  lemma ReadKeeps(s: State, keys: seq<int>, t: int, pc: Pc)
    requires Inv(s, keys) && 0 <= t < |s.pcs| && Past(s.pcs[t]) && Past(pc) && ReaderOk(Move(s, t, pc), keys, t)
    ensures Inv(Move(s, t, pc), keys)
  {
    var s' := Move(s, t, pc);
    CountSet(s.pcs, t, pc);
    ChainRange(s);
    assert WriterOk(s, keys, t);
    forall j | 0 <= j < Share(keys, |s.pcs|) ensures InTable(s', MyKey(keys, |s.pcs|, t, j)) {
      InTableKept(s, s', t, NIL, MyKey(keys, |s.pcs|, t, j));
    }
    forall u | 0 <= u < |s.pcs| ensures WriterOk(s', keys, u) && ReaderOk(s', keys, u) {
      if u != t {
        assert WriterOk(s, keys, u) && ReaderOk(s, keys, u);
        OtherWriter(s, s', keys, t, NIL, u);
        OtherReader(s, s', keys, u);
      }
    }
  }

  // With the barrier open every key is in the table.
  lemma AllInTable(s: State, keys: seq<int>, i: int)
    requires Inv(s, keys) && s.done == |s.pcs| && 0 <= i < |keys|
    ensures InTable(s, KeyAt(keys, i))
  {
    CountBounds(s.pcs);
    var t, l := SlicesCover(keys, |s.pcs|, i);
    assert WriterOk(s, keys, t) && Past(s.pcs[t]);
    assert InTable(s, MyKey(keys, |s.pcs|, t, l));
  }

  // A walk that has not found a key that is in the table is not at the end, and goes on.
  lemma WalkGoesOn(s: State, key: int, e: int)
    requires ChainsOk(s) && WalkOk(s, key, e) && InTable(s, key)
    ensures e != NIL && (KeyOf(s.nodes, e) != key ==> WalkOk(s, key, NextOf(s.nodes, e)))
  {
    var c := s.chains[Bucket(key)];
    var m :| WalkAt(s.nodes, c, key, e, m);
    var x :| Chain(s, Bucket(key), x) && KeyOf(s.nodes, x) == key;
    var l :| 0 <= l < |c| && c[l] == x;
    assert m <= l;
    assert Link(s.nodes, c, m);
    if KeyOf(s.nodes, e) != key {
      assert WalkAt(s.nodes, c, key, NextOf(s.nodes, e), m + 1);
    }
  }

  lemma LookKeeps(s: State, keys: seq<int>, t: int)
    requires Inv(s, keys) && 0 <= t < |s.pcs| && Past(s.pcs[t])
    ensures Inv(Next(s, keys, t), keys)
  {
    var pc := s.pcs[t];
    assert ReaderOk(s, keys, t);
    match pc
    case Waiting =>
      CountBounds(s.pcs);
      if s.done >= |s.pcs| {
        ReadKeeps(s, keys, t, Looking(0, 0));
      }
    case Looking(i, k) =>
      if i < |keys| {
        var h := Bucket(KeyAt(keys, i));
        assert ChainOk(s.nodes, s.table[h], s.chains[h]);
        assert WalkAt(s.nodes, s.chains[h], KeyAt(keys, i), s.table[h], 0);
        assert WalkOk(s, KeyAt(keys, i), s.table[h]);
        ReadKeeps(s, keys, t, Walking(i, k, s.table[h]));
      } else {
        ReadKeeps(s, keys, t, Finished(k));
      }
    case Walking(i, k, e) =>
      AllInTable(s, keys, i);
      WalkGoesOn(s, KeyAt(keys, i), e);
      if KeyOf(s.nodes, e) == KeyAt(keys, i) {
        ReadKeeps(s, keys, t, Looking(i + 1, k));
      } else {
        ReadKeeps(s, keys, t, Walking(i, k, NextOf(s.nodes, e)));
      }
    case Finished(_) =>
  }

  lemma NextKeeps(s: State, keys: seq<int>, t: int)
    requires Inv(s, keys) && 0 <= t < |s.pcs|
    ensures Inv(Next(s, keys, t), keys)
  {
    match s.pcs[t]
    case Putting(_) => PutKeeps(s, keys, t);
    case Filled(_, _) => LockKeeps(s, keys, t);
    case Locked(_, _) => ChainKeeps(s, keys, t);
    case Chained(_, _) => PublishKeeps(s, keys, t);
    case Published(_, _) => LockKeeps(s, keys, t);
    case _ => LookKeeps(s, keys, t);
  }

  lemma {:induction false} RunKeeps(s: State, keys: seq<int>, schedule: seq<int>)
    requires Inv(s, keys)
    ensures Inv(Run(s, keys, schedule), keys) && |Run(s, keys, schedule).pcs| == |s.pcs|
    decreases |schedule|
  {
    if schedule != [] && 0 <= schedule[0] < |s.pcs| {
      NextKeeps(s, keys, schedule[0]);
      RunKeeps(Next(s, keys, schedule[0]), keys, schedule[1..]);
    }
  }

  lemma {:induction false} CountNone(pcs: seq<Pc>)
    requires forall t :: 0 <= t < |pcs| ==> !Past(pcs[t])
    ensures CountPast(pcs) == 0
    decreases |pcs|
  {
    if pcs != [] {
      CountNone(pcs[1..]);
    }
  }

  lemma InitInv(keys: seq<int>, nthread: nat)
    requires Input(keys, nthread)
    ensures Inv(Init(nthread), keys)
  {
    var s0 := Init(nthread);
    CountNone(s0.pcs);
    Division(|keys|, nthread);
    forall u | 0 <= u < nthread ensures WriterOk(s0, keys, u) && ReaderOk(s0, keys, u) {
    }
  }

  /** No insert is lost: under every schedule of any number of threads, a thread past the barrier has
      missed no key, and the buckets are acyclic chains. */
  lemma NoKeyMissing(keys: seq<int>, nthread: nat, schedule: seq<int>, t: int)
    requires Input(keys, nthread) && 0 <= t < nthread
    ensures var s := Run(Init(nthread), keys, schedule);
      && |s.pcs| == nthread && ChainsOk(s)
      && (Reading(s.pcs[t]) ==> s.pcs[t].k == 0)
      && (s.done == nthread ==> forall i :: 0 <= i < |keys| ==> InTable(s, KeyAt(keys, i)))
  {
    var s0 := Init(nthread);
    InitInv(keys, nthread);
    RunKeeps(s0, keys, schedule);
    var s := Run(s0, keys, schedule);
    assert ReaderOk(s, keys, t);
    if s.done == nthread {
      forall i | 0 <= i < |keys| ensures InTable(s, KeyAt(keys, i)) {
        AllInTable(s, keys, i);
      }
    }
  }
}
