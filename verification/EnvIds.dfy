/** Environment identifiers (kern/env.c, inc/env.h): a slot index in the low ten bits and
    a generation above it, in 32-bit two's complement. */
module EnvIds {

  import opened Options

  const NENV: nat := 1024
  const GENSTEP: nat := 4096       // 1 << ENVGENSHIFT
  const WORD: nat := 0x1_0000_0000
  const GENERATIONS: nat := 0x7ffff  // 2^19 - 1

  /** The int32_t with the low 32 bits of `x`. */
  function Int32(x: int): int {
    if x % WORD < WORD / 2 then x % WORD else x % WORD - WORD
  }

  /** The id `env_alloc` gives slot `slot`, whose last id was `old_`. */
  function NextId(old_: int, slot: nat): int {
    var x := Int32(old_ + GENSTEP);
    var generation := x - x % NENV;
    (if generation <= 0 then GENSTEP else generation) + slot
  }

  /** ENVX. */
  function Index(id: int): nat {
    id % NENV
  }

  /** The id of a slot after `n` allocations. */
  function IdAfter(slot: nat, n: nat): int {
    if n == 0 then 0 else NextId(IdAfter(slot, n - 1), slot)
  }

  /** Generations count up by one step and start over after 2^19 - 1 of them. */
  lemma {:induction false} IdForm(slot: nat, n: nat)
    requires slot < NENV && n > 0
    ensures IdAfter(slot, n) == GENSTEP * (1 + (n - 1) % GENERATIONS) + slot
  {
    if n > 1 {
      IdForm(slot, n - 1);
      var g := (n - 2) % GENERATIONS;
      NextGeneration(slot, g);
      ModStep(n - 2);
    }
  }

  lemma ModStep(m: nat)
    ensures (m + 1) % GENERATIONS == if m % GENERATIONS == GENERATIONS - 1 then 0 else m % GENERATIONS + 1
  {
  }

  lemma LowBits(k: int, slot: nat)
    requires slot < NENV
    ensures (GENSTEP * k + slot) % NENV == slot
  {
    assert GENSTEP * k + slot == NENV * (4 * k) + slot;
  }

  lemma NextGeneration(slot: nat, g: nat)
    requires slot < NENV && g < GENERATIONS
    ensures NextId(GENSTEP * (1 + g) + slot, slot) == GENSTEP * (if g == GENERATIONS - 1 then 1 else g + 2) + slot
  {
    var x := GENSTEP * (g + 2) + slot;
    if g == GENERATIONS - 1 {
      assert x == WORD / 2 + slot;
      assert Int32(x) == x - WORD;
    } else {
      assert 0 < x < WORD / 2;
      assert Int32(x) == x;
      LowBits(g + 2, slot);
    }
  }

  /** An id is positive and names its slot. */
  lemma {:induction false} IdNamesSlot(slot: nat, n: nat)
    requires slot < NENV && n > 0
    ensures IdAfter(slot, n) > 0 && Index(IdAfter(slot, n)) == slot && IdAfter(slot, n) < WORD / 2
  {
    IdForm(slot, n);
    LowBits(1 + (n - 1) % GENERATIONS, slot);
  }

  /** A slot hands out the same id twice exactly when the number of allocations in between
      is a multiple of 2^19 - 1. */
  lemma {:induction false} IdRepeats(slot: nat, m: nat, n: nat)
    requires slot < NENV && 0 < m <= n
    ensures IdAfter(slot, m) == IdAfter(slot, n) <==> (n - m) % GENERATIONS == 0
  {
    SameGeneration(slot, m, n);
    SameResidue(IdAfter(slot, m) == IdAfter(slot, n), m - 1, n - 1, n - m);
  }

  lemma SameResidue(same: bool, a: nat, b: nat, d: nat)
    requires (same <==> a % GENERATIONS == b % GENERATIONS) && b == a + d
    ensures same <==> d % GENERATIONS == 0
  {
    ModDifference(a, b, d);
  }

  lemma {:induction false} SameGeneration(slot: nat, m: nat, n: nat)
    requires slot < NENV && 0 < m && 0 < n
    ensures IdAfter(slot, m) == IdAfter(slot, n) <==> (m - 1) % GENERATIONS == (n - 1) % GENERATIONS
  {
    IdForm(slot, m);
    IdForm(slot, n);
  }

  lemma ModDifference(a: nat, b: nat, d: nat)
    requires b == a + d
    ensures a % GENERATIONS == b % GENERATIONS <==> d % GENERATIONS == 0
  {
    var q, r := a / GENERATIONS, b / GENERATIONS;
    assert d == GENERATIONS * (r - q) + (b % GENERATIONS - a % GENERATIONS);
    if a % GENERATIONS == b % GENERATIONS {
      Multiple(r - q);
    }
  }

  lemma Multiple(k: int)
    requires k >= 0
    ensures (GENERATIONS * k) % GENERATIONS == 0
  {
  }

  // --------------------------------------------------------------- the envs table

  datatype Env = Env(id: int, parent: int, live: bool)

  /** Slot `i` has been allocated `allocs[i]` times, and its id is the last one given out. */
  predicate SlotOk(envs: seq<Env>, allocs: seq<nat>, i: int) {
    0 <= i < |envs| && i < |allocs| ==>
      envs[i].id == IdAfter(i, allocs[i]) && (envs[i].live ==> allocs[i] > 0)
  }

  ghost predicate TableOk(envs: seq<Env>, allocs: seq<nat>) {
    |envs| == |allocs| == NENV && forall i :: SlotOk(envs, allocs, i)
  }

  /** Live environments have positive, pairwise distinct ids that name their slots. */
  lemma LiveIdsDistinct(envs: seq<Env>, allocs: seq<nat>, i: nat, j: nat)
    requires TableOk(envs, allocs) && i < NENV && j < NENV && envs[i].live && envs[j].live
    ensures envs[i].id > 0 && Index(envs[i].id) == i && (i != j ==> envs[i].id != envs[j].id)
  {
    assert SlotOk(envs, allocs, i) && SlotOk(envs, allocs, j);
    IdNamesSlot(i, allocs[i]);
    IdNamesSlot(j, allocs[j]);
  }

  /** The slot `envid2env` would settle on, permission aside. */
  predicate Resolves(envs: seq<Env>, id: int, i: nat) {
    id != 0 && i < |envs| && Index(id) == i && envs[i].live && envs[i].id == id
  }

  /** An id that slot `i` got at its m-th allocation resolves now exactly when the slot is
      live and has been reallocated a multiple of 2^19 - 1 times since; in particular not
      after 1 to 2^19 - 2 reallocations. */
  lemma {:induction false} StaleId(envs: seq<Env>, allocs: seq<nat>, i: nat, m: nat)
    requires TableOk(envs, allocs) && i < NENV && 0 < m <= allocs[i]
    ensures Resolves(envs, IdAfter(i, m), i) <==> envs[i].live && (allocs[i] - m) % GENERATIONS == 0
    ensures forall j: nat :: Resolves(envs, IdAfter(i, m), j) ==> j == i
  {
    assert SlotOk(envs, allocs, i);
    IdNamesSlot(i, m);
    IdRepeats(i, m, allocs[i]);
  }

  datatype Failure = NoFreeEnv | NoMem

  datatype Outcome = Allocated(slot: nat) | Failed(why: Failure)

  class EnvTable {
    var envs: seq<Env>
    var freeList: seq<nat>
    ghost var allocs: seq<nat>

    ghost predicate Valid()
      reads this
    {
      && TableOk(envs, allocs)
      && (forall i, j :: 0 <= i < j < |freeList| ==> freeList[i] != freeList[j])
      && (forall i: nat :: i in freeList <==> i < NENV && !envs[i].live)
    }

    /** `env_init`: every slot is free, and the list starts with slot 0. */
    constructor ()
      ensures Valid() && freeList == seq(NENV, i => i) && allocs == seq(NENV, i => 0)
    {
      envs := seq(NENV, i => Env(0, 0, false));
      freeList := [];
      allocs := seq(NENV, i => 0);
      new;
      var i := NENV;
      while i > 0
        invariant 0 <= i <= NENV && |freeList| == NENV - i
        invariant forall k :: 0 <= k < |freeList| ==> freeList[k] == i + k
        invariant envs == seq(NENV, i => Env(0, 0, false)) && allocs == seq(NENV, i => 0)
      {
        i := i - 1;
        freeList := [i] + freeList;
      }
      forall k: nat ensures k in freeList <==> k < NENV && !envs[k].live {
        if k < NENV { assert freeList[k] == k; }
      }
    }

    /** `memory` says whether a page directory could be allocated. */
    method EnvAlloc(parent: int, memory: bool) returns (r: Outcome)
      requires Valid()
      modifies this
      ensures Valid()
      ensures r.Failed? <==> old(freeList) == [] || !memory
      ensures r.Failed? ==> r.why == if old(freeList) == [] then NoFreeEnv else NoMem
      ensures r.Failed? ==> envs == old(envs) && freeList == old(freeList) && allocs == old(allocs)
      ensures r.Allocated? ==>
        && old(freeList) != [] && r.slot == old(freeList)[0] < NENV && !old(envs)[r.slot].live
        && allocs == old(allocs)[r.slot := old(allocs)[r.slot] + 1] && freeList == old(freeList)[1..]
        && envs == old(envs)[r.slot := Env(IdAfter(r.slot, allocs[r.slot]), parent, true)]
    {
      if freeList == [] {
        return Failed(NoFreeEnv);
      }
      var e := freeList[0];
      if !memory {
        return Failed(NoMem);
      }
      assert e in freeList && SlotOk(envs, allocs, e);
      ghost var v, a, l := envs, allocs, freeList;
      envs := envs[e := Env(NextId(envs[e].id, e), parent, true)];
      allocs := allocs[e := allocs[e] + 1];
      forall i ensures SlotOk(envs, allocs, i) { assert SlotOk(v, a, i); }
      freeList := freeList[1..];
      assert l == [e] + freeList;
      assert e !in freeList;
      assert forall i: nat :: i in l <==> i == e || i in freeList;
      return Allocated(e);
    }

    method EnvFree(i: nat)
      requires Valid() && i < NENV && envs[i].live
      modifies this`envs, this`freeList
      ensures Valid() && freeList == [i] + old(freeList) && envs == old(envs)[i := old(envs)[i].(live := false)]
    {
      assert SlotOk(envs, allocs, i) && i !in freeList;
      ghost var v := envs;
      envs := envs[i := envs[i].(live := false)];
      freeList := [i] + freeList;
      forall j ensures SlotOk(envs, allocs, j) { assert SlotOk(v, allocs, j); }
      forall j, k | 0 <= j < k < |freeList| ensures freeList[j] != freeList[k] {
        assert freeList[k] in old(freeList);
      }
    }

    /** None is -E_BAD_ENV; `cur` is the slot of the calling environment. */
    method Envid2Env(envid: int, checkperm: bool, cur: nat) returns (r: Option<nat>)
      requires Valid() && cur < NENV
      ensures envid == 0 ==> r == Some(cur)
      ensures envid != 0 && r.Some? ==> Resolves(envs, envid, r.value)
      ensures envid != 0 && r.Some? && checkperm ==> r.value == cur || envs[r.value].parent == envs[cur].id
      ensures envid != 0 && r.None? ==>
        !Resolves(envs, envid, Index(envid))
        || (checkperm && Index(envid) != cur && envs[Index(envid)].parent != envs[cur].id)
    {
      if envid == 0 {
        return Some(cur);
      }
      var e := Index(envid);
      if !envs[e].live || envs[e].id != envid {
        return None;
      }
      if checkperm && e != cur && envs[e].parent != envs[cur].id {
        return None;
      }
      return Some(e);
    }
  }
}
