/** The threads of `HashTable` get on: no lock is kept, and under every fair schedule all finish. */
module HashProgress {
  import opened HashTable

  // ---------------------------------------------------------------- the locks

  /** A lock that is taken is held by a thread that is inserting into its bucket. */
  ghost predicate LockOk(s: State, keys: seq<int>, h: int)
    requires Shape(s) && 0 <= h < NBUCKET
  {
    var t := s.locks[h];
    t != NIL ==> 0 <= t < |s.pcs| && HoldsLock(s.pcs[t]) && Bucket(MyKey(keys, |s.pcs|, t, s.pcs[t].i)) == h
  }

  ghost predicate LocksOk(s: State, keys: seq<int>) {
    Shape(s) && forall h {:trigger s.locks[h]} :: 0 <= h < NBUCKET ==> LockOk(s, keys, h)
  }

  lemma NextLocks(s: State, keys: seq<int>, t: int)
    requires Inv(s, keys) && LocksOk(s, keys) && 0 <= t < |s.pcs|
    ensures LocksOk(Next(s, keys, t), keys)
  {
    var s' := Next(s, keys, t);
    assert WriterOk(s, keys, t);
    forall h | 0 <= h < NBUCKET ensures LockOk(s', keys, h) {
      assert LockOk(s, keys, h);
    }
  }

  lemma {:induction false} RunLocks(s: State, keys: seq<int>, schedule: seq<int>)
    requires Inv(s, keys) && LocksOk(s, keys)
    ensures LocksOk(Run(s, keys, schedule), keys)
    decreases |schedule|
  {
    if schedule != [] && 0 <= schedule[0] < |s.pcs| {
      NextKeeps(s, keys, schedule[0]);
      NextLocks(s, keys, schedule[0]);
      RunLocks(Next(s, keys, schedule[0]), keys, schedule[1..]);
    }
  }

  /** Under every schedule a bucket's lock is taken by thread t if and only if t is between its
      pthread_mutex_lock and pthread_mutex_unlock for a key of that bucket. */
  lemma LockExact(nthread: nat, keys: seq<int>, schedule: seq<int>, h: int, t: int)
    requires Input(keys, nthread) && 0 <= h < NBUCKET && 0 <= t < nthread
    ensures var s := Run(Init(nthread), keys, schedule);
      && Shape(s) && |s.pcs| == nthread
      && (s.locks[h] == t <==> HoldsLock(s.pcs[t]) && Bucket(MyKey(keys, nthread, t, s.pcs[t].i)) == h)
  {
    InitInv(keys, nthread);
    InitLocks(keys, nthread);
    RunKeeps(Init(nthread), keys, schedule);
    RunLocks(Init(nthread), keys, schedule);
    var s := Run(Init(nthread), keys, schedule);
    assert LockOk(s, keys, h) && WriterOk(s, keys, t);
  }

  // ---------------------------------------------------------------- what is left to do

  // Steps thread t has still to make, its walks along the chains apart
  function Todo(pc: Pc, share: int, nkeys: int): int {
    match pc
    case Putting(i) => 2 * nkeys + 3 + 5 * (share - i)
    case Filled(i, _) => 2 * nkeys + 2 + 5 * (share - i)
    case Locked(i, _) => 2 * nkeys + 1 + 5 * (share - i)
    case Chained(i, _) => 2 * nkeys + 5 * (share - i)
    case Published(i, _) => 2 * nkeys - 1 + 5 * (share - i)
    case Waiting => 2 * nkeys + 2
    case Looking(i, _) => 2 * (nkeys - i) + 1
    case Walking(i, _, _) => 2 * (nkeys - i)
    case Finished(_) => 0
  }

  // Entries from e to the end of a chain
  function Rest(c: seq<int>, e: int): nat {
    if c == [] then 0 else if c[0] == e then |c| else Rest(c[1..], e)
  }

  // ... on the walk that a thread is on
  function WalkLeft(s: State, keys: seq<int>, pc: Pc): nat {
    if pc.Walking? && 0 <= Bucket(KeyAt(keys, pc.i)) < |s.chains| then Rest(s.chains[Bucket(KeyAt(keys, pc.i))], pc.e)
    else 0
  }

  function TodoAll(pcs: seq<Pc>, share: int, nkeys: int): int {
    if pcs == [] then 0 else Todo(pcs[0], share, nkeys) + TodoAll(pcs[1..], share, nkeys)
  }

  function WalkAll(s: State, keys: seq<int>, pcs: seq<Pc>): nat {
    if pcs == [] then 0 else WalkLeft(s, keys, pcs[0]) + WalkAll(s, keys, pcs[1..])
  }

  lemma {:induction false} TodoSet(pcs: seq<Pc>, share: int, nkeys: int, t: int, pc: Pc)
    requires 0 <= t < |pcs|
    ensures TodoAll(pcs[t := pc], share, nkeys)
         == TodoAll(pcs, share, nkeys) - Todo(pcs[t], share, nkeys) + Todo(pc, share, nkeys)
    decreases |pcs|
  {
    if t == 0 {
      assert pcs[t := pc][1..] == pcs[1..];
    } else {
      TodoSet(pcs[1..], share, nkeys, t - 1, pc);
      assert pcs[t := pc][1..] == pcs[1..][t - 1 := pc];
    }
  }

  lemma {:induction false} WalkSet(s: State, s': State, keys: seq<int>, pcs: seq<Pc>, t: int, pc: Pc)
    requires 0 <= t < |pcs| && s'.chains == s.chains
    ensures WalkAll(s', keys, pcs[t := pc]) == WalkAll(s, keys, pcs) - WalkLeft(s, keys, pcs[t]) + WalkLeft(s, keys, pc)
    decreases |pcs|
  {
    if t == 0 {
      assert pcs[t := pc][1..] == pcs[1..];
      WalkSame(s, s', keys, pcs[1..]);
    } else {
      WalkSet(s, s', keys, pcs[1..], t - 1, pc);
      assert pcs[t := pc][1..] == pcs[1..][t - 1 := pc];
    }
  }

  lemma {:induction false} WalkSame(s: State, s': State, keys: seq<int>, pcs: seq<Pc>)
    requires s'.chains == s.chains
    ensures WalkAll(s', keys, pcs) == WalkAll(s, keys, pcs)
    decreases |pcs|
  {
    if pcs != [] {
      WalkSame(s, s', keys, pcs[1..]);
    }
  }

  lemma {:induction false} RestAt(c: seq<int>, m: int)
    requires 0 <= m < |c| && forall j, l :: 0 <= j < l < |c| ==> c[j] != c[l]
    ensures Rest(c, c[m]) == |c| - m
    decreases |c|
  {
    if m > 0 {
      assert c[1..][m - 1] == c[m];
      RestAt(c[1..], m - 1);
    }
  }

  lemma {:induction false} RestNone(c: seq<int>, e: int)
    requires forall j :: 0 <= j < |c| ==> c[j] != e
    ensures Rest(c, e) == 0
    decreases |c|
  {
    if c != [] {
      RestNone(c[1..], e);
    }
  }

  // The walk gets shorter.
  lemma WalkShorter(s: State, keys: seq<int>, t: int)
    requires Inv(s, keys) && 0 <= t < |s.pcs| && s.pcs[t].Walking? && s.pcs[t].e != NIL
    ensures var pc := s.pcs[t];
      WalkLeft(s, keys, Walking(pc.i, pc.k, NextOf(s.nodes, pc.e))) < WalkLeft(s, keys, pc)
  {
    var pc := s.pcs[t];
    assert ReaderOk(s, keys, t);
    var key := KeyAt(keys, pc.i);
    var c := s.chains[Bucket(key)];
    assert ChainOk(s.nodes, s.table[Bucket(key)], c);
    var m :| WalkAt(s.nodes, c, key, pc.e, m);
    assert Link(s.nodes, c, m);
    RestAt(c, m);
    if m + 1 < |c| {
      RestAt(c, m + 1);
    } else {
      forall j | 0 <= j < |c| ensures c[j] != NIL {
        assert Link(s.nodes, c, j);
      }
      RestNone(c, NIL);
    }
  }

  // All that is left, the walks last
  ghost function Left(s: State, keys: seq<int>): (int, nat) {
    (TodoAll(s.pcs, Share(keys, |s.pcs|), |keys|), WalkAll(s, keys, s.pcs))
  }

  ghost predicate Less(a: (int, nat), b: (int, nat)) { a.0 < b.0 || (a.0 == b.0 && a.1 < b.1) }

  lemma {:induction false} TodoPositive(s: State, keys: seq<int>, n: nat)
    requires Inv(s, keys) && n <= |s.pcs|
    ensures TodoAll(s.pcs[n..], Share(keys, |s.pcs|), |keys|) >= 0
    decreases |s.pcs| - n
  {
    if n < |s.pcs| {
      assert WriterOk(s, keys, n) && ReaderOk(s, keys, n);
      TodoPositive(s, keys, n + 1);
      assert s.pcs[n..][1..] == s.pcs[n + 1..];
    }
  }

  /** Every step that is one makes what is left smaller. */
  lemma StepLess(s: State, keys: seq<int>, t: int)
    requires Inv(s, keys) && 0 <= t < |s.pcs| && Next(s, keys, t) != s
    ensures Less(Left(Next(s, keys, t), keys), Left(s, keys))
  {
    var s', n := Next(s, keys, t), |s.pcs|;
    assert WriterOk(s, keys, t) && ReaderOk(s, keys, t);
    TodoSet(s.pcs, Share(keys, n), |keys|, t, s'.pcs[t]);
    if s.pcs[t].Walking? && s'.pcs[t].Walking? {
      WalkShorter(s, keys, t);
      WalkSet(s, s', keys, s.pcs, t, s'.pcs[t]);
    }
  }

  // ---------------------------------------------------------------- someone can always go on

  ghost predicate AllFinished(s: State) {
    forall t :: 0 <= t < |s.pcs| ==> s.pcs[t].Finished?
  }

  predicate Stuck(pc: Pc) { pc.Filled? || pc.Waiting? || pc.Finished? }

  lemma {:induction false} CountAll(pcs: seq<Pc>)
    requires forall t :: 0 <= t < |pcs| ==> Past(pcs[t])
    ensures CountPast(pcs) == |pcs|
    decreases |pcs|
  {
    if pcs != [] {
      CountAll(pcs[1..]);
    }
  }

  /** As long as a thread has not finished, some thread has a step to make. */
  lemma SomeoneGoes(s: State, keys: seq<int>) returns (t: int)
    requires Inv(s, keys) && LocksOk(s, keys) && !AllFinished(s)
    ensures 0 <= t < |s.pcs| && Next(s, keys, t) != s
  {
    if u :| 0 <= u < |s.pcs| && !Stuck(s.pcs[u]) {
      MovesOn(s, keys, u);
      t := u;
    } else if u :| 0 <= u < |s.pcs| && s.pcs[u].Filled? {
      var h := Bucket(MyKey(keys, |s.pcs|, u, s.pcs[u].i));
      assert LockOk(s, keys, h);
      assert s.locks[h] == NIL;
      assert Next(s, keys, u).pcs[u].Locked?;
      t := u;
    } else {
      CountAll(s.pcs);
      t :| 0 <= t < |s.pcs| && !s.pcs[t].Finished?;
      assert s.pcs[t].Waiting? && Next(s, keys, t).pcs[t].Looking?;
    }
  }

  lemma MovesOn(s: State, keys: seq<int>, t: int)
    requires Inv(s, keys) && 0 <= t < |s.pcs| && !Stuck(s.pcs[t])
    ensures Next(s, keys, t).pcs[t] != s.pcs[t]
  {
    assert WriterOk(s, keys, t) && ReaderOk(s, keys, t);
    if s.pcs[t].Walking? && s.pcs[t].e != NIL {
      WalkShorter(s, keys, t);
    }
  }

  // ---------------------------------------------------------------- fair schedules

  /** An infinite schedule; every thread is named again and again. */
  ghost predicate Fair(sched: nat -> int, n: nat) {
    forall from: nat, t :: 0 <= t < n ==> NamedFrom(sched, from, t)
  }

  ghost predicate NamedFrom(sched: nat -> int, from: nat, t: int) {
    exists m: nat :: m >= from && sched(m) == t
  }

  // One turn of a schedule; a name that is no thread's is skipped.
  ghost function Turn(s: State, keys: seq<int>, t: int): (r: State)
    requires Shape(s)
    ensures Shape(r) && |r.pcs| == |s.pcs|
  {
    if 0 <= t < |s.pcs| then Next(s, keys, t) else s
  }

  // The state after the turns from .. to
  ghost function Turns(s: State, keys: seq<int>, sched: nat -> int, from: nat, to: nat): State
    requires Shape(s)
    decreases if from >= to then 0 else to - from
  {
    if from >= to then s else Turns(Turn(s, keys, sched(from)), keys, sched, from + 1, to)
  }

  ghost predicate IdleAt(s: State, keys: seq<int>, sched: nat -> int, j: nat)
    requires Shape(s)
  {
    Turn(s, keys, sched(j)) == s
  }

  // Nothing happens in the turns from .. k.
  ghost predicate IdleUntil(s: State, keys: seq<int>, sched: nat -> int, from: nat, k: nat)
    requires Shape(s)
  {
    forall j: nat :: from <= j < k ==> IdleAt(s, keys, sched, j)
  }

  lemma {:induction false} SkipIdle(s: State, keys: seq<int>, sched: nat -> int, from: nat, k: nat, to: nat)
    requires Shape(s) && from <= k < to && IdleUntil(s, keys, sched, from, k)
    ensures Turns(s, keys, sched, from, to) == Turns(Turn(s, keys, sched(k)), keys, sched, k + 1, to)
    decreases k - from
  {
    if from < k {
      assert IdleAt(s, keys, sched, from);
      SkipIdle(s, keys, sched, from + 1, k, to);
    }
  }

  // Up to turn m, at which t can go on, some step is made.
  lemma {:induction false} FirstMove(s: State, keys: seq<int>, sched: nat -> int, from: nat, m: nat) returns (k: nat)
    requires Shape(s) && from <= m && !IdleAt(s, keys, sched, m)
    ensures from <= k <= m && !IdleAt(s, keys, sched, k) && IdleUntil(s, keys, sched, from, k)
    decreases m - from
  {
    if !IdleAt(s, keys, sched, from) {
      return from;
    }
    k := FirstMove(s, keys, sched, from + 1, m);
  }

  // A state of the invariants, and a turn that is a step
  lemma TurnKeeps(s: State, keys: seq<int>, t: int)
    requires Inv(s, keys) && LocksOk(s, keys) && Turn(s, keys, t) != s
    ensures var s1 := Turn(s, keys, t);
      Inv(s1, keys) && LocksOk(s1, keys) && Less(Left(s1, keys), Left(s, keys)) && Left(s, keys).0 >= 0
  {
    StepLess(s, keys, t);
    NextKeeps(s, keys, t);
    NextLocks(s, keys, t);
    TodoPositive(s, keys, 0);
    assert s.pcs[0..] == s.pcs;
  }

  // The next turn at which something happens, if a thread has not finished
  lemma NextMove(s: State, keys: seq<int>, sched: nat -> int, from: nat) returns (k: nat)
    requires Inv(s, keys) && LocksOk(s, keys) && Fair(sched, |s.pcs|) && !AllFinished(s)
    ensures from <= k && !IdleAt(s, keys, sched, k) && IdleUntil(s, keys, sched, from, k)
  {
    var t := SomeoneGoes(s, keys);
    assert NamedFrom(sched, from, t);
    var m: nat :| m >= from && sched(m) == t;
    k := FirstMove(s, keys, sched, from, m);
  }

  ghost predicate AllFound(s: State) {
    forall t :: 0 <= t < |s.pcs| ==> s.pcs[t] == Finished(0)
  }

  lemma FinishedFound(s: State, keys: seq<int>)
    requires Inv(s, keys) && AllFinished(s)
    ensures AllFound(s)
  {
    forall t | 0 <= t < |s.pcs| ensures s.pcs[t] == Finished(0) {
      assert ReaderOk(s, keys, t);
    }
  }

  // In the turns from .. to every thread has come to its end, with no key missed.
  ghost predicate FinishedBy(s: State, keys: seq<int>, sched: nat -> int, from: nat, to: nat)
    requires Shape(s)
  {
    var s' := Turns(s, keys, sched, from, to); |s'.pcs| == |s.pcs| && AllFound(s')
  }

  // Up to turn k nothing has happened; then s becomes s1.
  ghost predicate MovesTo(s: State, keys: seq<int>, sched: nat -> int, from: nat, k: nat, s1: State)
    requires Shape(s)
  {
    from <= k && IdleUntil(s, keys, sched, from, k) && s1 == Turn(s, keys, sched(k))
  }

  // All threads have finished, or there is a next move.
  lemma OneMove(s: State, keys: seq<int>, sched: nat -> int, from: nat, left: (int, nat))
      returns (done: bool, k: nat, s1: State, less: (int, nat))
    requires Inv(s, keys) && LocksOk(s, keys) && Fair(sched, |s.pcs|) && left == Left(s, keys)
    ensures done ==> FinishedBy(s, keys, sched, from, from)
    ensures !done ==> MovesTo(s, keys, sched, from, k, s1) && less == Left(s1, keys) && Less(less, left) && left.0 >= 0
    ensures Inv(s1, keys) && LocksOk(s1, keys) && |s1.pcs| == |s.pcs|
  {
    done, k, s1, less := AllFinished(s), from, s, left;
    if done {
      FinishedFound(s, keys);
    } else {
      k := NextMove(s, keys, sched, from);
      s1 := Turn(s, keys, sched(k));
      less := Left(s1, keys);
      TurnKeeps(s, keys, sched(k));
    }
  }

  lemma FinishedLater(s: State, keys: seq<int>, sched: nat -> int, from: nat, k: nat, s1: State, to: nat)
    requires Shape(s) && Shape(s1) && MovesTo(s, keys, sched, from, k, s1) && k < to
      && FinishedBy(s1, keys, sched, k + 1, to)
    ensures FinishedBy(s, keys, sched, from, to)
  {
    SkipIdle(s, keys, sched, from, k, to);
  }

  /** Under every fair schedule all threads finish, and none has missed a key. */
  lemma {:induction false} AllFinish(s: State, keys: seq<int>, sched: nat -> int, from: nat, left: (int, nat))
      returns (to: nat)
    requires Inv(s, keys) && LocksOk(s, keys) && Fair(sched, |s.pcs|) && left == Left(s, keys)
    ensures to >= from && FinishedBy(s, keys, sched, from, to)
    decreases left.0, left.1
  {
    var done, k, s1, less := OneMove(s, keys, sched, from, left);
    to := from;
    if !done {
      to := AllFinish(s1, keys, sched, k + 1, less);
      FinishedLater(s, keys, sched, from, k, s1, to);
    }
  }

  // Each thread in turn
  function InTurn(m: nat, n: nat): (t: nat)
    requires n > 0
    ensures t < n
  {
    if m == 0 || InTurn(m - 1, n) == n - 1 then 0 else InTurn(m - 1, n) + 1
  }

  // ... is a fair schedule.
  lemma InTurnFair(n: nat, sched: nat -> int)
    requires n > 0 && forall m: nat :: sched(m) == InTurn(m, n)
    ensures Fair(sched, n)
  {
    forall from: nat, t | 0 <= t < n ensures NamedFrom(sched, from, t) {
      var m := NextTurn(from, n, t);
      assert sched(m) == t;
    }
  }

  lemma {:induction false} NextTurn(from: nat, n: nat, t: nat) returns (m: nat)
    requires t < n
    ensures m >= from && InTurn(m, n) == t
    decreases if InTurn(from, n) <= t then t - InTurn(from, n) else n + t - InTurn(from, n)
  {
    if InTurn(from, n) == t {
      return from;
    }
    m := NextTurn(from + 1, n, t);
  }

  lemma InitLocks(keys: seq<int>, nthread: nat)
    ensures LocksOk(Init(nthread), keys)
  {
    forall h | 0 <= h < NBUCKET ensures LockOk(Init(nthread), keys, h) {
    }
  }

  /** From the start: each thread gets through its puts, the barrier and all its gets. */
  lemma EveryFairRun(nthread: nat, keys: seq<int>, sched: nat -> int) returns (to: nat)
    requires Input(keys, nthread) && Fair(sched, nthread)
    ensures FinishedBy(Init(nthread), keys, sched, 0, to)
  {
    InitInv(keys, nthread);
    InitLocks(keys, nthread);
    to := AllFinish(Init(nthread), keys, sched, 0, Left(Init(nthread), keys));
  }
}
