/** Environment ids: the generation arithmetic of env_alloc and the staleness test of envid2env. */
module EnvIds {
  import opened Ints

  const NENV := 1024
  const ENVGENSHIFT_UNIT := 4096     // 1 << ENVGENSHIFT
  const GENERATIONS := 524287        // 2^19 - 1

  // x & ~(NENV - 1)
  function DropSlot(x: int): int { x - x % 1024 }

  // ENVX
  function EnvX(id: int): int { id % 1024 }

  /** env_alloc's next id for the slot whose last id was id */
  function NextId(id: int, slot: int): int {
    var generation := DropSlot(Wrap32(id + 4096));
    (if generation <= 0 then 4096 else generation) + slot
  }

  // The id of a slot after n allocations; envs[] starts zeroed.
  function IdAfter(n: nat, slot: int): int {
    if n == 0 then 0 else NextId(IdAfter(n - 1, slot), slot)
  }

  predicate SlotOk(slot: int) { 0 <= slot < NENV }

  lemma SlotPart(g: int, slot: int)
    requires SlotOk(slot)
    ensures EnvX(4096 * g + slot) == slot && DropSlot(4096 * g + slot) == 4096 * g
  {
    assert 4096 * g + slot == 1024 * (4 * g) + slot;
  }

  lemma WrapSmall(x: int)
    ensures 0 <= x < 0x8000_0000 ==> Wrap32(x) == x
    ensures 0x8000_0000 <= x < 0x1_0000_0000 ==> Wrap32(x) == x - 0x1_0000_0000
  {
  }

  lemma GenStep(g: int, slot: int)
    requires SlotOk(slot) && 0 <= g < 524288
    ensures NextId(4096 * g + slot, slot) == 4096 * (if g + 1 == 524288 then 1 else g + 1) + slot
  {
    var x := 4096 * (g + 1) + slot;
    assert 4096 * g + slot + 4096 == x;
    WrapSmall(x);
    if g + 1 == 524288 {
      assert Wrap32(x) == 4096 * -524288 + slot;
      SlotPart(-524288, slot);
    } else {
      SlotPart(g + 1, slot);
    }
  }

  // a, divided by 2^19 - 1: quotient and remainder
  lemma Divide(a: int) returns (q: int, r: int)
    requires a >= 0
    ensures a == 524287 * q + r && 0 <= r < 524287 && a % 524287 == r && q >= 0
  {
    q, r := a / 524287, a % 524287;
  }

  lemma RemainderOf(a: int, q: int, r: int)
    requires a == 524287 * q + r && 0 <= r < 524287
    ensures a % 524287 == r
  {
  }

  lemma NextMod(a: int)
    requires a >= 0
    ensures (a + 1) % 524287 == if a % 524287 == 524286 then 0 else a % 524287 + 1
  {
    var q, r := Divide(a);
    if r == 524286 {
      RemainderOf(a + 1, q + 1, 0);
    } else {
      RemainderOf(a + 1, q, r + 1);
    }
  }

  lemma SameMod(a: int, b: int)
    requires 0 <= a <= b
    ensures a % 524287 == b % 524287 <==> (b - a) % 524287 == 0
  {
    var qa, ra := Divide(a);
    var qb, rb := Divide(b);
    var qd, rd := Divide(b - a);
    if rb >= ra {
      RemainderOf(b - a, qb - qa, rb - ra);
    } else {
      RemainderOf(b - a, qb - qa - 1, 524287 + rb - ra);
    }
  }

  // The generation of a slot after n allocations: they run through 1 .. 2^19 - 1 and start again.
  function Generation(n: nat): (g: int)
    requires n > 0
    ensures 1 <= g < 524288
  {
    1 + (n - 1) % 524287
  }

  lemma NextGeneration(n: nat)
    requires n > 1
    ensures Generation(n) == if Generation(n - 1) + 1 == 524288 then 1 else Generation(n - 1) + 1
  {
    NextMod(n - 2);
  }

  /** The n-th id of a slot in closed form. */
  lemma {:induction false} IdClosedForm(n: nat, slot: int)
    requires SlotOk(slot) && n > 0
    ensures IdAfter(n, slot) == 4096 * Generation(n) + slot
  {
    if n == 1 {
      FirstId(slot);
    } else {
      IdClosedForm(n - 1, slot);
      GenStep(Generation(n - 1), slot);
      NextGeneration(n);
    }
  }

  lemma FirstId(slot: int)
    requires SlotOk(slot)
    ensures IdAfter(1, slot) == 4096 + slot
  {
    assert IdAfter(0, slot) == 0;
    WrapSmall(4096);
    SlotPart(1, 0);
  }

  /** Every id is positive, fits a 32-bit integer and carries its slot. */
  lemma IdsCarrySlot(n: nat, slot: int)
    requires SlotOk(slot) && n > 0
    ensures 0 < IdAfter(n, slot) < 0x8000_0000 && EnvX(IdAfter(n, slot)) == slot
  {
    IdClosedForm(n, slot);
    SlotPart(Generation(n), slot);
  }

  /** A slot's id repeats exactly after multiples of 2^19 - 1 allocations of that slot. */
  lemma IdsRepeat(i: nat, j: nat, slot: int)
    requires SlotOk(slot) && 0 < i <= j
    ensures IdAfter(i, slot) == IdAfter(j, slot) <==> (j - i) % GENERATIONS == 0
  {
    IdClosedForm(i, slot);
    IdClosedForm(j, slot);
    SameMod(i - 1, j - 1);
  }

  // ---------------------------------------------------------------- envid2env

  datatype Lookup = Found(index: int) | BadEnv

  // What envid2env looks at in envs[]; -1 is the null curenv
  datatype Ident = Ident(id: int, free: bool, parent: int)

  function Envid2Env(envid: int, envs: seq<Ident>, cur: int, checkperm: bool): (r: Lookup)
    requires |envs| == NENV && (cur == -1 || 0 <= cur < NENV)
    requires checkperm ==> cur != -1
    ensures r.Found? && envid != 0 ==> 0 <= r.index < NENV && !envs[r.index].free && envs[r.index].id == envid
  {
    if envid == 0 then Found(cur)
    else
      var e := EnvX(envid);
      if envs[e].free || envs[e].id != envid then BadEnv
      else if checkperm && e != cur && envs[e].parent != envs[cur].id then BadEnv
      else Found(e)
  }

  /** What envid2env answers: the caller itself for 0; else the environment in use with that id, if the
      caller may name any environment, or it is the caller or one of its children; else an error. */
  lemma LookupExact(envid: int, envs: seq<Ident>, cur: int, checkperm: bool, e: int)
    requires |envs| == NENV && 0 <= cur < NENV && 0 <= e < NENV && IdsPlaced(envs)
    ensures Envid2Env(envid, envs, cur, checkperm) == Found(e) <==>
      if envid == 0 then e == cur
      else (envs[e].id == envid && !envs[e].free && (checkperm ==> e == cur || envs[e].parent == envs[cur].id))
    ensures Envid2Env(envid, envs, cur, checkperm) == BadEnv <==>
      forall x :: 0 <= x < NENV ==> Envid2Env(envid, envs, cur, checkperm) != Found(x)
  {
    if envid != 0 {
      assert envs[e].id == envid && !envs[e].free ==> EnvX(envid) == e;
    } else {
      assert Envid2Env(envid, envs, cur, checkperm) == Found(cur);
    }
  }

  // Every environment in use carries its slot in its id.
  ghost predicate IdsPlaced(envs: seq<Ident>) {
    forall e :: 0 <= e < |envs| && !envs[e].free ==> IdOk(envs[e].id, e)
  }

  // An id handed out for a slot
  predicate IdOk(id: int, slot: int) { 0 < id < 0x8000_0000 && EnvX(id) == slot }

  /** The next id of a slot is such an id, whatever id, if any, the slot had. */
  lemma NextIdOk(id: int, slot: int)
    requires SlotOk(slot) && (id == 0 || IdOk(id, slot))
    ensures IdOk(NextId(id, slot), slot)
  {
    var w := Wrap32(id + 4096);
    WrapSmall(id + 4096);
    DropSlotParts(w, slot);
  }

  lemma DropSlotParts(w: int, slot: int)
    requires SlotOk(slot) && w < 0x8000_0000
    ensures DropSlot(w) + slot < 0x8000_0000 && EnvX(DropSlot(w) + slot) == slot
    ensures EnvX(4096 + slot) == slot
  {
    assert DropSlot(w) == 1024 * (w / 1024);
  }

  /** envid2env rejects every stale id inside the window: an id of a slot handed out at its i-th
      allocation is refused after the j-th one if and only if j - i is no multiple of 2^19 - 1
      (permissions apart, on a slot in use). */
  lemma StaleIdRejected(i: nat, j: nat, slot: int, envs: seq<Ident>, cur: int)
    requires |envs| == NENV && SlotOk(slot) && (cur == -1 || 0 <= cur < NENV)
    requires 0 < i <= j && envs[slot].id == IdAfter(j, slot) && !envs[slot].free
    ensures Envid2Env(IdAfter(i, slot), envs, cur, false) == BadEnv <==> (j - i) % GENERATIONS != 0
  {
    IdsCarrySlot(i, slot);
    IdsRepeat(i, j, slot);
  }
}
