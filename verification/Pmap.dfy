/** The physical-page allocator and the page-table code of kern/pmap.c, and the
    parts of kern/env.c that build and tear down an address space. */
module Pmap {
  import opened Options
  import opened Vm

  /** PDX(UVPT): the directory slot through which a directory maps itself. */
  const UVPT_PDX: nat := 957

  /** What `env_free` may have done to page `p` so far, tearing down directory `d`. */
  ghost predicate TornAt(v0: View, v: View, d: nat, p: nat) {
    match v0.Use(p)
    case Table(e, _) => v.Use(p) == v0.Use(p) || (e == d && v.Use(p).Free?)
    case Page =>
      if RefsIn(Flat(v0), p) == {} then v.Use(p).Page?
      else if RefsIn(Flat(v), p) == {} then v.Use(p).Free?
      else v.Use(p).Page?
    case _ => v.Use(p) == v0.Use(p)
  }

  /** `v` lies between `v0` and `v0` without address space `d`. */
  ghost predicate Tearing(v0: View, v: View, d: nat) {
    && Inv(v)
    && v.Use(d).Dir?
    && |v.kind| == |v0.kind|
    && (forall s :: s in Flat(v) ==> s in Flat(v0) && Flat(v)[s] == Flat(v0)[s])
    && (forall s :: s in Flat(v0) && s.dir != d ==> s in Flat(v))
    && forall p: nat :: TornAt(v0, v, d, p)
  }

  lemma TearStart(v: View, d: nat)
    requires Inv(v) && v.Use(d).Dir?
    ensures Tearing(v, v, d)
  {
    forall p: nat ensures TornAt(v, v, d, p) {
      assert RefOk(v, Flat(v), None, p);
    }
  }

  lemma TearPage(v0: View, v: View, d: nat, s: Slot)
    requires Tearing(v0, v, d) && Mapped(v, s) && s.dir == d
    ensures Tearing(v0, Removed(v, s), d)
  {
    RemovedOk(v, s, None);
    FlatAt(v, s);
    assert RefOk(v, Flat(v), None, v.Walk(s).ppn);
    forall r: nat ensures TornAt(v0, Removed(v, s), d, r) {
      assert TornAt(v0, v, d, r);
      TearPageAt(v0, v, d, s, r);
    }
  }

  lemma TearPageAt(v0: View, v: View, d: nat, s: Slot, r: nat)
    requires TornAt(v0, v, d, r) && s in Flat(v) && Flat(v)[s] == v.Walk(s) && Flat(Removed(v, s)) == Flat(v) - {s}
    requires s in Flat(v0) && Flat(v0)[s] == Flat(v)[s] && v.Use(v.Walk(s).ppn).Page? && |v.pages| == |v.kind|
    requires RefOk(v, Flat(v), None, v.Walk(s).ppn)
    ensures TornAt(v0, Removed(v, s), d, r)
  {
    var p := v.Walk(s).ppn;
    if r != p {
      TearOther(v, s, r);
    } else {
      RefsRemove(Flat(v), s, p);
      assert s in RefsIn(Flat(v0), p);
    }
  }

  lemma TearOther(v: View, s: Slot, r: nat)
    requires s in Flat(v)
    ensures r != Flat(v)[s].ppn ==> RefsIn(Flat(v) - {s}, r) == RefsIn(Flat(v), r)
  {
  }

  lemma TearTable(v0: View, v: View, d: nat, i: nat)
    requires Tearing(v0, v, d) && i < UTOP_PDX && Present(v.At(d, i))
    requires forall j: nat :: v.At(v.At(d, i).ppn, j) == ZERO
    ensures Tearing(v0, WithoutTable(v, d, i), d)
  {
    WithoutTableOk(v, d, i);
    var w := WithoutTable(v, d, i);
    var q := v.At(d, i).ppn;
    forall r: nat ensures TornAt(v0, w, d, r) {
      assert TornAt(v0, v, d, r);
      assert r != q ==> w.Use(r) == v.Use(r);
    }
  }

  /** The user entries of address space `d` that name page `p`. */
  ghost function RefsFrom(m: map<Slot, Pte>, d: nat, p: nat): set<Slot> {
    set s | s in m && s.dir == d && m[s].ppn == p
  }

  ghost function WithoutSpace(m: map<Slot, Pte>, d: nat): map<Slot, Pte> {
    map s | s in m && s.dir != d :: m[s]
  }

  lemma RefsSplit(m: map<Slot, Pte>, d: nat, p: nat)
    ensures |RefsIn(m, p)| == |RefsIn(WithoutSpace(m, d), p)| + |RefsFrom(m, d, p)|
  {
    assert RefsIn(m, p) == RefsIn(WithoutSpace(m, d), p) + RefsFrom(m, d, p);
  }

  /** The end of `env_free`: which pages became free and by how much each count fell. */
  ghost predicate SpaceGone(v0: View, v: View, d: nat) {
    && Inv(v)
    && Flat(v) == WithoutSpace(Flat(v0), d)
    && (forall p: nat :: PageAfterFree(v0, v, d, p))
  }

  ghost predicate PageAfterFree(v0: View, v: View, d: nat, p: nat) {
    && (v.Use(p).Free? <==> v0.Use(p).Free? || (!v0.Use(p).Reserved? && v0.Ref(p) > 0 && v.Ref(p) == 0))
    && (v0.Use(p).Page? ==> v0.Ref(p) == v.Ref(p) + |RefsFrom(Flat(v0), d, p)|)
    && (v.Use(p).Dir? <==> v0.Use(p).Dir? && p != d)
    && (v0.Use(p).Page? && v0.Ref(p) == 0 ==> v.Use(p).Page?)
  }

  lemma TearFlat(v0: View, v: View, d: nat)
    requires Tearing(v0, v, d) && forall i: nat :: i < UTOP_PDX ==> v.At(d, i) == ZERO
    ensures Flat(v) == WithoutSpace(Flat(v0), d)
  {
    forall s | s in Flat(v) ensures s.dir != d {
      FlatAt(v, s);
    }
    SubmapIs(Flat(v0), Flat(v), d);
  }

  lemma SubmapIs(m0: map<Slot, Pte>, m: map<Slot, Pte>, d: nat)
    requires forall s :: s in m ==> s in m0 && m[s] == m0[s] && s.dir != d
    requires forall s :: s in m0 && s.dir != d ==> s in m
    ensures m == WithoutSpace(m0, d)
  {
  }

  lemma TearEnd(v0: View, v: View, d: nat)
    requires Inv(v0) && v0.Use(d).Dir?
    requires Tearing(v0, v, d) && forall i: nat :: i < UTOP_PDX ==> v.At(d, i) == ZERO
    ensures v.Ref(d) == 1 && SpaceGone(v0, Decref(v, d), d)
  {
    WithoutDirOk(v, d);
    TearFlat(v0, v, d);
    var w := Decref(v, d);
    forall p: nat ensures PageAfterFree(v0, w, d, p) {
      TearEndAt(v0, v, d, p);
    }
  }

  lemma TearEndAt(v0: View, v: View, d: nat, p: nat)
    requires Inv(v0) && v0.Use(d).Dir? && Tearing(v0, v, d) && v.Ref(d) == 1
    requires Flat(v) == WithoutSpace(Flat(v0), d) && forall i: nat :: i < UTOP_PDX ==> v.At(d, i) == ZERO
    ensures PageAfterFree(v0, Decref(v, d), d, p)
  {
    assert TornAt(v0, v, d, p) && RefOk(v0, Flat(v0), None, p) && RefOk(v, Flat(v), None, p) && TableOk(v, p);
    RefsSplit(Flat(v0), d, p);
    if v0.Use(p).Page? {
      TearEndPage(v0, v, d, p);
    } else {
      TearEndOther(v0, v, d, p);
    }
  }

  lemma TearEndPage(v0: View, v: View, d: nat, p: nat)
    requires v0.Use(p).Page? && TornAt(v0, v, d, p) && v.Use(d).Dir? && p != d
    requires RefOk(v0, Flat(v0), None, p) && RefOk(v, Flat(v), None, p)
    requires |RefsIn(Flat(v0), p)| == |RefsIn(Flat(v), p)| + |RefsFrom(Flat(v0), d, p)|
    ensures PageAfterFree(v0, Decref(v, d), d, p)
  {
    var w := Decref(v, d);
    assert w.Use(p) == v.Use(p) && w.Ref(p) == v.Ref(p);
    assert RefsIn(Flat(v0), p) == {} <==> |RefsIn(Flat(v0), p)| == 0;
    assert RefsIn(Flat(v), p) == {} <==> |RefsIn(Flat(v), p)| == 0;
  }

  lemma TearEndOther(v0: View, v: View, d: nat, p: nat)
    requires !v0.Use(p).Page? && TornAt(v0, v, d, p) && v.Ref(d) == 1
    requires v.Use(d).Dir? && v0.Use(d).Dir? && TableOk(v, p)
    requires RefOk(v0, Flat(v0), None, p) && RefOk(v, Flat(v), None, p)
    requires forall i: nat :: i < UTOP_PDX ==> v.At(d, i) == ZERO
    requires |v.pages| == |v.kind|
    ensures PageAfterFree(v0, Decref(v, d), d, p)
  {
    var w := Decref(v, d);
    assert w.Use(p) == if p == d then Free else v.Use(p);
    assert w.Ref(p) == if p == d then 0 else v.Ref(p);
  }

  lemma SpaceGoneLeak(v0: View, v: View, d: nat, q: nat)
    requires Inv(v0) && SpaceGone(v0, v, d)
    ensures Leaked(v0, q) ==> Leaked(v, q)
  {
    LeakedIs(v0, q);
    if Leaked(v0, q) {
      assert PageAfterFree(v0, v, d, q);
      RefsSplit(Flat(v0), d, q);
      StaysLeaked(v0, v, q);
    }
  }

  /** Before `page_init` hands out anything, nothing is named and nothing is free. */
  lemma BootOk(v: View)
    requires v.Shape() && v.free == [] && v.freeList.None?
    requires forall p: nat :: v.Use(p).Reserved? && v.Link(p).None?
    ensures Inv(v) && Flat(v) == map[]
  {
    forall s ensures s !in Flat(v) {
      FlatAt(v, s);
    }
    forall d: nat, i: nat ensures DirEntryOk(v, d, i) { assert v.Use(d).Reserved?; }
    forall q: nat ensures TableOk(v, q) { assert v.Use(q).Reserved?; }
    forall q: nat, j: nat ensures TableEntryOk(v, q, j) { assert v.Use(q).Reserved?; }
    forall p: nat ensures RefOk(v, Flat(v), None, p) { assert v.Use(p).Reserved?; }
  }

  /** Clearing an entry leaves the directories, and the held page, in place. */
  lemma RemovedKeeps(v: View, s: Slot)
    requires v.Shape() && DirsOk(v) && TablesOk(v) && Mapped(v, s)
    ensures var w := Removed(v, s);
      && w.IsUser(s) && w.At(s.dir, s.pdx) == v.At(s.dir, s.pdx)
      && forall p: nat :: w.Use(p) == v.Use(p) || (p == v.Walk(s).ppn && v.Ref(p) <= 1)
  {
    WalkNamesPage(v, s);
    assert DirEntryOk(v, s.dir, s.pdx);
    StoreAt(v, v.At(s.dir, s.pdx).ppn, s.ptx, ZERO);
  }

  /** A page that carries a held reference is not freed with its last entry. */
  lemma HeldSurvives(v: View, s: Slot, held: Option<nat>)
    requires InvHolding(v, held) && Mapped(v, s) && held.Some? && v.Use(held.value).Page? && held.value == v.Walk(s).ppn
    ensures v.Ref(held.value) >= 2
  {
    assert RefOk(v, Flat(v), held, held.value);
    FlatAt(v, s);
    assert s in RefsIn(Flat(v), held.value);
  }

  lemma RemovedAt(v: View, s: Slot)
    requires v.Shape() && DirsOk(v) && TablesOk(v) && Mapped(v, s)
    ensures forall p: nat, j: nat :: Removed(v, s).At(p, j) ==
                                     if p == v.At(s.dir, s.pdx).ppn && j == s.ptx then ZERO else v.At(p, j)
  {
    assert DirEntryOk(v, s.dir, s.pdx);
    StoreAt(v, v.At(s.dir, s.pdx).ppn, s.ptx, ZERO);
  }

  lemma WithoutTableAt(v: View, d: nat, i: nat)
    requires v.Shape() && v.Use(d).Dir? && i < UTOP_PDX
    ensures forall p: nat, j: nat :: WithoutTable(v, d, i).At(p, j) == if p == d && j == i then ZERO else v.At(p, j)
  {
    StoreAt(v, d, i, ZERO);
  }

  lemma NotYetDir(v: View, p: nat)
    requires v.Use(p).Page?
    ensures forall s :: s in Flat(v) ==> s.dir != p
  {
    forall s | s in Flat(v) ensures s.dir != p {
      FlatAt(v, s);
    }
  }

  const PGSIZE: nat := 4096
  const UTOP: nat := 0xeec00000

  datatype Status = Ok | BadEnv | Inval | NoMem

  function SlotOf(d: nat, va: nat): (s: Slot)
    ensures va < UTOP ==> s.dir == d && s.pdx < UTOP_PDX && s.ptx < NENTRIES
  {
    Slot(d, va / PGSIZE / NENTRIES, va / PGSIZE % NENTRIES)
  }

  /** Distinct page-aligned addresses are distinct slots. */
  lemma SlotOfInjective(d: nat, va: nat, va': nat)
    requires va % PGSIZE == 0 && va' % PGSIZE == 0 && va != va'
    ensures SlotOf(d, va) != SlotOf(d, va')
  {
    assert va / PGSIZE != va' / PGSIZE;
  }

  ghost function Lookup(m: map<Slot, Pte>, d: nat, va: nat): Option<Pte> {
    if SlotOf(d, va) in m then Some(m[SlotOf(d, va)]) else None
  }

  /** Unless it is address `va` of directory `d`, page-aligned address `va'` of `d'` translates as before. */
  ghost predicate SameAt(m: map<Slot, Pte>, w: map<Slot, Pte>, d: nat, va: nat, d': nat, va': nat) {
    va' % PGSIZE == 0 && (d' != d || va' != va) ==> Lookup(w, d', va') == Lookup(m, d', va')
  }

  ghost predicate SameElsewhere(m: map<Slot, Pte>, w: map<Slot, Pte>, d: nat, va: nat) {
    forall d': nat, va': nat :: SameAt(m, w, d, va, d', va')
  }

  /** A change of one slot is a change at one address. */
  lemma OneAddress(m: map<Slot, Pte>, w: map<Slot, Pte>, d: nat, va: nat, e: Option<Pte>)
    requires va % PGSIZE == 0 && w == if e.None? then m - {SlotOf(d, va)} else m[SlotOf(d, va) := e.value]
    ensures SameElsewhere(m, w, d, va)
  {
    forall d': nat, va': nat ensures SameAt(m, w, d, va, d', va') {
      if d' == d && va' % PGSIZE == 0 && va' != va { SlotOfInjective(d, va, va'); }
    }
  }

  ghost predicate GoodArgs(env: Option<nat>, va: nat, perm: set<Flag>) {
    env.Some? && va < UTOP && va % PGSIZE == 0 && {U, P} <= perm <= SYSCALL
  }

  /** The checks of `sys_page_map` on the arguments, in its order. */
  ghost predicate MapArgs(srcva: nat, dstva: nat, perm: set<Flag>) {
    && {U, P} <= perm <= SYSCALL
    && srcva < UTOP && srcva % PGSIZE == 0 && dstva < UTOP && dstva % PGSIZE == 0
  }

  /** Nothing can be granted that the source does not have: it maps a page, and writably if
      write permission is asked for. */
  ghost predicate Grants(m: map<Slot, Pte>, s: Slot, perm: set<Flag>) {
    s in m && (W in perm ==> W in m[s].flags)
  }

  /** A page the allocator gave out and that nothing names or will free. */
  ghost predicate Leaked(v: View, p: nat) {
    v.Use(p).Page? && p !in v.free && RefsIn(Flat(v), p) == {} && v.Ref(p) == 0
  }

  /** A page handed out and named by nothing stays so. */
  ghost predicate LeakKept(v: View, w: View, q: nat) {
    v.Use(q).Page? && RefsIn(Flat(v), q) == {} ==> w.Use(q).Page? && RefsIn(Flat(w), q) == {}
  }

  lemma LeakedIs(v: View, q: nat)
    requires Inv(v)
    ensures Leaked(v, q) <==> v.Use(q).Page? && RefsIn(Flat(v), q) == {}
  {
    assert FreeAt(v, q) && RefOk(v, Flat(v), None, q);
  }

  lemma StaysLeaked(v: View, w: View, q: nat)
    requires Inv(v) && Inv(w) && LeakKept(v, w, q)
    ensures Leaked(v, q) ==> Leaked(w, q)
  {
    LeakedIs(v, q);
    LeakedIs(w, q);
  }

  /** Removing an entry frees at most the page it named. */
  lemma RemovedLeak(v: View, s: Slot, held: Option<nat>, q: nat)
    requires InvHolding(v, held) && Mapped(v, s)
    ensures LeakKept(v, Removed(v, s), q)
  {
    RemovedOk(v, s, held);
    RemovedKeeps(v, s);
    FlatAt(v, s);
    if RefsIn(Flat(v), q) == {} {
      assert s !in RefsIn(Flat(v), q);
      assert RefsIn(Flat(v) - {s}, q) <= RefsIn(Flat(v), q);
    }
  }

  /** All that unmapping a page comes to. */
  lemma RemovedIs(v: View, s: Slot, held: Option<nat>)
    requires InvHolding(v, held) && Mapped(v, s)
    ensures v.Use(v.Walk(s).ppn).Page? && v.Ref(v.Walk(s).ppn) >= 1
    ensures var w := Removed(v, s);
      && InvHolding(w, held) && Flat(w) == Flat(v) - {s}
      && w.IsUser(s) && w.At(s.dir, s.pdx) == v.At(s.dir, s.pdx)
      && (held.Some? && v.Use(held.value).Page? ==> w.Use(held.value).Page?)
      && forall q: nat :: LeakKept(v, w, q)
  {
    RemovedOk(v, s, held);
    RemovedKeeps(v, s);
    if held.Some? && v.Use(held.value).Page? && held.value == v.Walk(s).ppn {
      HeldSurvives(v, s, held);
    }
    forall q: nat ensures LeakKept(v, Removed(v, s), q) { RemovedLeak(v, s, held, q); }
  }

  lemma SetLeak(m: map<Slot, Pte>, s: Slot, e: Pte, q: nat)
    requires q != e.ppn && RefsIn(m, q) == {}
    ensures RefsIn(m[s := e], q) == {}
  {
    var w := m[s := e];
    forall t | t in w ensures w[t].ppn != q {
      if t != s { assert t !in RefsIn(m, q); }
    }
  }

  lemma PoppedLeak(v: View, zero: bool, q: nat)
    requires Inv(v) && v.free != []
    ensures LeakKept(v, Popped(v, zero), q) && (v.Use(q).Page? ==> q != v.free[0])
  {
    PoppedOk(v, zero, None);
  }

  ghost predicate KeepsLeaks(v: View, w: View) {
    forall q: nat :: Leaked(v, q) ==> Leaked(w, q)
  }

  lemma AllStayLeaked(v: View, w: View, except: Option<nat>)
    requires Inv(v) && Inv(w) && forall q: nat :: except != Some(q) ==> LeakKept(v, w, q)
    requires except.Some? ==> !Leaked(v, except.value)
    ensures KeepsLeaks(v, w)
  {
    forall q: nat ensures Leaked(v, q) ==> Leaked(w, q) {
      if except != Some(q) { StaysLeaked(v, w, q); }
    }
  }

  lemma PoppedKeepsLeaks(v: View, zero: bool)
    requires Inv(v) && v.free != []
    ensures KeepsLeaks(v, Popped(v, zero)) && !Leaked(v, v.free[0])
  {
    PoppedOk(v, zero, None);
    forall q: nat ensures LeakKept(v, Popped(v, zero), q) { PoppedLeak(v, zero, q); }
    AllStayLeaked(v, Popped(v, zero), None);
  }

  /** The page taken from the list may be used up in between. */
  lemma InsertKeepsLeaks(v: View, u: View, w: View)
    requires Inv(v) && v.free != [] && u == Popped(v, true) && Inv(u) && Inv(w)
    requires forall q: nat :: q != v.free[0] ==> LeakKept(u, w, q)
    ensures KeepsLeaks(v, w)
  {
    PoppedKeepsLeaks(v, true);
    forall q: nat ensures Leaked(v, q) ==> Leaked(w, q) {
      if q != v.free[0] { StaysLeaked(u, w, q); }
    }
  }

  lemma UndoLeak(v: View, u: View, q: nat)
    requires Inv(v) && v.free != [] && u == Popped(v, true) && q != v.free[0]
    ensures LeakKept(u, Decref(u, v.free[0]), q)
  {
    UndoPop(v, u);
    PoppedOk(v, true, None);
  }

  /** A page just taken off the list can be put back: nothing names it. */
  lemma UndoPop(v: View, w: View)
    requires Inv(v) && v.free != [] && w == Popped(v, true)
    ensures var p := v.free[0]; Inv(w) && Inv(Decref(w, p)) && Flat(Decref(w, p)) == Flat(v)
    ensures v.free[0] < |w.pages| == |w.kind| && w.Ref(v.free[0]) == 0 && Decref(w, v.free[0]).free == v.free
  {
    var p := v.free[0];
    PoppedOk(v, true, None);
    var u := Decref(w, p);
    assert FreeAt(v, p);
    DecrefTables(w, p);
    DecrefFree(w, p);
    forall r: nat ensures RefOk(u, Flat(u), None, r) { assert RefOk(w, Flat(w), None, r); }
  }

  lemma EmptyWalk(v: View, s: Slot)
    requires v.Shape() && DirsOk(v) && TablesOk(v) && v.IsUser(s) && Present(v.At(s.dir, s.pdx))
    ensures var q := v.At(s.dir, s.pdx).ppn;
      q < |v.frames| && s.ptx < |v.frames[q]| && v.Walk(s) == v.frames[q][s.ptx]
    ensures s !in Flat(v) || v.Walk(s).ppn == 0 ==> v.Walk(s) == ZERO && s !in Flat(v)
  {
    WalkNamesPage(v, s);
    assert DirEntryOk(v, s.dir, s.pdx);
    FlatAt(v, s);
  }

  lemma RemoveThenSet(m: map<Slot, Pte>, s: Slot, e: Pte)
    ensures (m - {s})[s := e] == m[s := e]
  {
  }

  class Memory {
    var pages: seq<PageInfo>
    var freeList: Option<nat>
    var frames: seq<seq<Pte>>
    const kernDir: seq<Pte>
    ghost var kind: seq<Kind>
    ghost var free: seq<nat>

    ghost function Abs(): View
      reads this
    {
      View(pages, freeList, frames, kind, free)
    }

    ghost predicate Valid()
      reads this
    {
      Inv(Abs()) && KernDirOk()
    }

    /** kern_pgdir maps nothing below UTOP. */
    ghost predicate KernDirOk() {
      |kernDir| == NENTRIES && forall i :: 0 <= i < UTOP_PDX ==> kernDir[i] == ZERO
    }

    /** Boot: no page is handed out yet. */
    constructor (npages: nat, kernDir: seq<Pte>)
      requires 0 < npages
      requires |kernDir| == NENTRIES && forall i :: 0 <= i < UTOP_PDX ==> kernDir[i] == ZERO
      ensures Valid() && |pages| == npages && free == [] && Flat(Abs()) == map[]
      ensures forall p: nat :: Abs().Use(p).Reserved? && Abs().Ref(p) == 0
    {
      this.pages := seq(npages, i => PageInfo(0, None));
      this.freeList := None;
      this.frames := seq(npages, i => EmptyFrame());
      this.kernDir := kernDir;
      this.kind := seq(npages, i => Reserved);
      this.free := [];
      new;
      BootOk(Abs());
    }

    /** One loop of `page_init`: the pages from `lo` up to `hi`, except `skip`, join the free list. */
    method ReleaseRange(lo: nat, hi: nat, skip: Option<nat>)
      requires Valid() && 0 < lo && hi <= |pages|
      requires forall p: nat :: lo <= p < hi && Some(p) != skip ==> Abs().Use(p).Reserved? && Abs().Ref(p) == 0
      modifies this
      ensures Valid() && |pages| == old(|pages|) && Flat(Abs()) == old(Flat(Abs()))
      ensures forall p: nat :: if lo <= p < hi && Some(p) != skip then Abs().Use(p).Free?
              else Abs().Use(p) == old(Abs()).Use(p) && Abs().Ref(p) == old(Abs()).Ref(p)
    {
      var i := lo;
      while i < hi
        invariant lo <= i && (i <= hi || hi < lo)
        invariant Valid() && |pages| == old(|pages|) && Flat(Abs()) == old(Flat(Abs()))
        invariant forall p: nat :: if lo <= p < i && p < hi && Some(p) != skip then Abs().Use(p).Free?
              else Abs().Use(p) == old(Abs()).Use(p) && Abs().Ref(p) == old(Abs()).Ref(p)
      {
        if Some(i) != skip {
          ghost var v := Abs();
          ReleasedOk(v, i);
          pages := pages[i := PageInfo(0, freeList)];
          freeList := Some(i);
          kind := kind[i := Free];
          free := [i] + free;
          assert Abs() == Decref(v, i);
        }
        i := i + 1;
      }
    }

    /** `page_init`: base memory except page 0 and the page of the application-processor
        entry code, and all memory after the kernel, goes on the free list. */
    method PageInit(basemem: nat, mpentry: nat, first: nat)
      requires Valid() && basemem <= first <= |pages| && 0 < first
      requires forall p: nat :: Abs().Use(p).Reserved? && Abs().Ref(p) == 0
      modifies this
      ensures Valid() && |pages| == old(|pages|) && Flat(Abs()) == old(Flat(Abs()))
      ensures forall p: nat :: p in free <==> (0 < p < basemem && p != mpentry) || first <= p < |pages|
    {
      ReleaseRange(1, basemem, Some(mpentry));
      ReleaseRange(first, |pages|, None);
      forall p: nat ensures p in free <==> (0 < p < basemem && p != mpentry) || first <= p < |pages| {
        assert FreeAt(Abs(), p);
      }
    }

    method PageAlloc(zero: bool) returns (r: Option<nat>)
      requires Valid()
      modifies this
      ensures Valid() && Flat(Abs()) == old(Flat(Abs()))
      ensures r.None? <==> old(free) == []
      ensures r.None? ==> Abs() == old(Abs())
      ensures r.Some? ==> r.value == old(free)[0] && old(free) != [] && Abs() == Popped(old(Abs()), zero)
      ensures r.Some? ==> Abs().Use(r.value).Page? && Abs().Ref(r.value) == 0 && RefsIn(Flat(Abs()), r.value) == {}
      ensures r.Some? && zero ==> r.value < |frames| && frames[r.value] == EmptyFrame()
    {
      if freeList.None? {
        return None;
      }
      PoppedOk(Abs(), zero, None);
      var p := freeList.value;
      freeList := pages[p].link;
      pages := pages[p := pages[p].(link := None)];
      if zero {
        frames := frames[p := EmptyFrame()];
      }
      kind := kind[p := Page];
      free := free[1..];
      r := Some(p);
    }

    /** Panics unless the page has no reference and no link: both are demanded of the caller. */
    method PageFree(p: nat)
      requires p < |pages| == |kind| && pages[p].ref == 0 && pages[p].link.None?
      modifies this
      ensures Abs() == old(Abs()).(pages := old(pages)[p := PageInfo(0, old(freeList))], freeList := Some(p),
                        kind := old(kind)[p := Free], free := [p] + old(free))
    {
      pages := pages[p := pages[p].(link := freeList)];
      freeList := Some(p);
      kind := kind[p := Free];
      free := [p] + free;
    }

    method PageDecref(p: nat)
      requires p < |pages| == |kind| && pages[p].ref > 0 && (pages[p].ref == 1 ==> pages[p].link.None?)
      modifies this
      ensures Abs() == Decref(old(Abs()), p)
    {
      pages := pages[p := pages[p].(ref := pages[p].ref - 1)];
      if pages[p].ref == 0 {
        PageFree(p);
      }
    }

    /** Returns the page table that holds the entry for `s`. */
    method PgdirWalk(s: Slot, create: bool) returns (r: Option<nat>)
      requires Valid() && Abs().IsUser(s)
      modifies this
      ensures Valid() && Flat(Abs()) == old(Flat(Abs())) && Abs().IsUser(s)
      ensures r.None? ==> Abs() == old(Abs())
      ensures r.None? <==> !Present(old(Abs()).At(s.dir, s.pdx)) && (create ==> old(free) == [])
      ensures r.Some? ==>
        Present(Abs().At(s.dir, s.pdx)) && Abs().At(s.dir, s.pdx).ppn == r.value && Abs().Use(r.value).Table?
      ensures r.Some? && !create ==> Abs() == old(Abs())
      ensures forall p: nat :: old(Abs()).Use(p).Page? ==> Abs().Use(p).Page? && Abs().Ref(p) == old(Abs()).Ref(p)
    {
      assert DirEntryOk(Abs(), s.dir, s.pdx);
      var pde := frames[s.dir][s.pdx];
      if P !in pde.flags {
        if !create {
          return None;
        }
        ghost var v0 := Abs();
        var page := PageAlloc(true);
        if page.None? {
          return None;
        }
        var p := page.value;
        ghost var v := Abs();
        PoppedOk(v0, true, None);
        assert v0.Use(p).Free?;
        assert forall q: nat :: q != p ==>
          v.Use(q) == v0.Use(q) && v.Ref(q) == v0.Ref(q) && v.At(q, s.pdx) == v0.At(q, s.pdx);
        WithTableOk(v, s.dir, s.pdx, p);
        pages := pages[p := pages[p].(ref := pages[p].ref + 1)];
        frames := frames[s.dir := frames[s.dir][s.pdx := Pte(p, {P, W, U})]];
        kind := kind[p := Table(s.dir, s.pdx)];
        assert Abs() == WithTable(v, s.dir, s.pdx, p);
        return Some(p);
      }
      return Some(pde.ppn);
    }

    /** The page mapped at `s` and the table holding its entry. */
    method PageLookup(s: Slot) returns (r: Option<(nat, nat)>)
      requires Abs().Shape() && DirsOk(Abs()) && TablesOk(Abs()) && Abs().IsUser(s)
      ensures r.None? <==> !Mapped(Abs(), s)
      ensures r.Some? ==> r.value.0 == Abs().Walk(s).ppn && Abs().At(s.dir, s.pdx).ppn == r.value.1
    {
      WalkNamesPage(Abs(), s);
      assert DirEntryOk(Abs(), s.dir, s.pdx);
      var pde := frames[s.dir][s.pdx];
      if P !in pde.flags {
        return None;
      }
      var pte := frames[pde.ppn][s.ptx];
      if pte.ppn == 0 {
        return None;
      }
      return Some((pte.ppn, pde.ppn));
    }

    /** `held` is a page whose count is already raised for an entry not yet written. */
    method PageRemove(s: Slot, ghost held: Option<nat>)
      requires InvHolding(Abs(), held) && Abs().IsUser(s)
      modifies this
      ensures InvHolding(Abs(), held) && Abs().IsUser(s)
      ensures Flat(Abs()) == old(Flat(Abs())) - {s}
      ensures Abs() == if Mapped(old(Abs()), s) then Removed(old(Abs()), s) else old(Abs())
      ensures Abs().At(s.dir, s.pdx) == old(Abs()).At(s.dir, s.pdx)
      ensures held.Some? && old(Abs()).Use(held.value).Page? ==> Abs().Use(held.value).Page?
      ensures forall q: nat :: LeakKept(old(Abs()), Abs(), q)
    {
      ghost var v := Abs();
      FlatAt(v, s);
      var found := PageLookup(s);
      if found.None? {
        return;
      }
      RemovedIs(v, s, held);
      var (p, q) := found.value;
      assert FreeAt(v, p);
      PageDecref(p);
      frames := frames[q := frames[q][s.ptx := ZERO]];
      assert Abs() == Removed(v, s);
    }

    /** The tail of `page_insert`: the held page replaces whatever `s` mapped. */
    method FillEntry(s: Slot, q: nat, p: nat, perm: set<Flag>)
      requires InvHolding(Abs(), Some(p)) && Abs().Use(p).Page? && Abs().IsUser(s)
      requires Present(Abs().At(s.dir, s.pdx)) && Abs().At(s.dir, s.pdx).ppn == q && Abs().Use(q).Table?
      modifies this
      ensures Inv(Abs()) && Flat(Abs()) == old(Flat(Abs()))[s := Pte(p, perm + {P})]
      ensures forall r: nat :: r != p ==> LeakKept(old(Abs()), Abs(), r)
    {
      ghost var m := Flat(Abs());
      EmptyWalk(Abs(), s);
      var e := Pte(p, perm + {P});
      if frames[q][s.ptx].ppn != 0 {
        PageRemove(s, Some(p));
        RemoveThenSet(m, s, e);
      }
      ghost var w := Abs();
      EmptyWalk(w, s);
      assert Flat(w)[s := e] == m[s := e];
      InsertedOk(w, s, e);
      frames := frames[q := frames[q][s.ptx := e]];
      assert Abs() == Store(w, q, s.ptx, e);
      forall r: nat | r != p ensures LeakKept(old(Abs()), Abs(), r) {
        assert LeakKept(old(Abs()), w, r);
        if RefsIn(m, r) == {} { SetLeak(m, s, e, r); }
      }
    }

    /** False is -E_NO_MEM. */
    method PageInsert(s: Slot, p: nat, perm: set<Flag>) returns (ok: bool)
      requires Valid() && Abs().IsUser(s) && Abs().Use(p).Page?
      modifies this
      ensures Valid()
      ensures ok ==> Flat(Abs()) == old(Flat(Abs()))[s := Pte(p, perm + {P})]
      ensures !ok ==> Abs() == old(Abs())
      ensures !ok <==> old(free) == [] && !Present(old(Abs()).At(s.dir, s.pdx))
      ensures forall r: nat :: r != p ==> LeakKept(old(Abs()), Abs(), r)
    {
      var table := PgdirWalk(s, true);
      if table.None? {
        return false;
      }
      ghost var v := Abs();
      HeldOk(v, p);
      pages := pages[p := pages[p].(ref := pages[p].ref + 1)];
      assert Abs() == Held(v, p);
      ghost var w := Abs();
      FillEntry(s, table.value, p, perm);
      forall r: nat | r != p ensures LeakKept(old(Abs()), Abs(), r) { assert LeakKept(w, Abs(), r); }
      return true;
    }

    /** A fresh directory: a copy of kern_pgdir, with the entry at UVPT naming itself. */
    method EnvSetupVm() returns (r: Option<nat>)
      requires Valid()
      modifies this
      ensures Valid() && Flat(Abs()) == old(Flat(Abs()))
      ensures r.None? <==> old(free) == []
      ensures r.None? ==> Abs() == old(Abs())
      ensures r.Some? ==> Abs().Use(r.value).Dir? && forall s :: s in Flat(Abs()) ==> s.dir != r.value
      ensures r.Some? ==> Abs().At(r.value, UVPT_PDX) == Pte(r.value, {P, U})
      ensures KeepsLeaks(old(Abs()), Abs())
    {
      ghost var v0 := Abs();
      var page := PageAlloc(true);
      if page.None? {
        return None;
      }
      var p := page.value;
      ghost var v := Abs();
      var dir := kernDir[UVPT_PDX := Pte(p, {P, U})];
      WithDirOk(v, p, dir);
      NotYetDir(v, p);
      pages := pages[p := pages[p].(ref := pages[p].ref + 1)];
      frames := frames[p := dir];
      kind := kind[p := Dir];
      assert Abs() == WithDir(v, p, dir);
      forall q: nat ensures Leaked(v0, q) ==> Leaked(Abs(), q) {
        PoppedLeak(v0, true, q);
        StaysLeaked(v0, Abs(), q);
      }
      r := Some(p);
    }

    /** The inner loop of `env_free`: unmap every entry of the table at directory slot `i`. */
    method ClearTable(d: nat, i: nat, q: nat, ghost v0: View)
      requires KernDirOk() && Tearing(v0, Abs(), d) && i < UTOP_PDX
      requires Present(Abs().At(d, i)) && Abs().At(d, i).ppn == q
      modifies this
      ensures Tearing(v0, Abs(), d)
      ensures forall k: nat :: Abs().At(d, k) == old(Abs()).At(d, k)
      ensures forall j: nat :: Abs().At(q, j) == ZERO
    {
      var j := 0;
      while j < NENTRIES
        invariant j <= NENTRIES && Tearing(v0, Abs(), d)
        invariant forall k: nat :: Abs().At(d, k) == old(Abs()).At(d, k)
        invariant forall k: nat :: k < j ==> Abs().At(q, k) == ZERO
      {
        ghost var v := Abs();
        var s := Slot(d, i, j);
        assert DirEntryOk(v, d, i) && TableEntryOk(v, q, j);
        assert v.Walk(s) == v.At(q, j);
        if P in frames[q][j].flags {
          PageRemove(s, None);
          TearPage(v0, v, d, s);
          RemovedAt(v, s);
        }
        j := j + 1;
      }
    }

    /** `env_free`: unmap everything below UTOP, then drop the tables and the directory. */
    method EnvFree(d: nat)
      requires Valid() && Abs().Use(d).Dir?
      modifies this
      ensures Valid() && SpaceGone(old(Abs()), Abs(), d)
      ensures KeepsLeaks(old(Abs()), Abs())
    {
      ghost var v0 := Abs();
      TearStart(v0, d);
      var i := 0;
      while i < UTOP_PDX
        invariant i <= UTOP_PDX && Tearing(v0, Abs(), d)
        invariant forall k: nat :: k < i ==> Abs().At(d, k) == ZERO
      {
        assert DirEntryOk(Abs(), d, i);
        if P in frames[d][i].flags {
          var q := frames[d][i].ppn;
          ClearTable(d, i, q, v0);
          ghost var v := Abs();
          TearTable(v0, v, d, i);
          WithoutTableOk(v, d, i);
          WithoutTableAt(v, d, i);
          frames := frames[d := frames[d][i := ZERO]];
          assert Abs() == Store(v, d, i, ZERO);
          assert FreeAt(v, q);
          PageDecref(q);
        }
        i := i + 1;
      }
      TearEnd(v0, Abs(), d);
      assert FreeAt(Abs(), d);
      PageDecref(d);
      forall q: nat ensures Leaked(v0, q) ==> Leaked(Abs(), q) { SpaceGoneLeak(v0, Abs(), d, q); }
    }

    /** `env` is the directory `envid2env` resolves to, None for -E_BAD_ENV. */
    method SysPageAlloc(env: Option<nat>, va: nat, perm: set<Flag>) returns (r: Status)
      requires Valid() && (env.Some? ==> Abs().Use(env.value).Dir?)
      modifies this
      ensures Valid()
      ensures r.Ok? ==> old(free) != [] && GoodArgs(env, va, perm)
                        && Flat(Abs()) == old(Flat(Abs()))[SlotOf(env.value, va) := Pte(old(free)[0], perm)]
      ensures r.Ok? ==> SameElsewhere(old(Flat(Abs())), Flat(Abs()), env.value, va)
      ensures !r.Ok? ==> Flat(Abs()) == old(Flat(Abs()))
      ensures r.NoMem? ==> free == old(free)
      ensures r.BadEnv? || r.Inval? <==> old(free) != [] && !GoodArgs(env, va, perm)
      // a rejected argument costs the system one page for good: off the list, mapped nowhere
      ensures r.BadEnv? || r.Inval? ==> free == old(free)[1..] && Leaked(Abs(), old(free)[0])
      ensures KeepsLeaks(old(Abs()), Abs())
    {
      var page := PageAlloc(true);
      if page.None? {
        return NoMem;
      }
      var pp := page.value;
      ghost var u := Abs();
      PoppedKeepsLeaks(old(Abs()), true);
      assert forall d: nat :: old(Abs()).Use(d).Dir? ==> Abs().Use(d).Dir? by { PoppedOk(old(Abs()), true, None); }
      if env.None? {
        return BadEnv;
      }
      if va >= UTOP || va % PGSIZE != 0 {
        return Inval;
      }
      if !(perm <= SYSCALL) {
        return Inval;
      }
      if !({U, P} <= perm) {
        return Inval;
      }
      assert perm + {P} == perm;
      var ok := PageInsert(SlotOf(env.value, va), pp, perm);
      if !ok {
        UndoPop(old(Abs()), Abs());
        assert FreeAt(Abs(), pp);
        PageFree(pp);
        assert Abs() == Decref(u, pp);
        forall q: nat | q != pp ensures LeakKept(u, Abs(), q) { UndoLeak(old(Abs()), u, q); }
        InsertKeepsLeaks(old(Abs()), u, Abs());
        return NoMem;
      }
      InsertKeepsLeaks(old(Abs()), u, Abs());
      OneAddress(old(Flat(Abs())), Flat(Abs()), env.value, va, Some(Pte(pp, perm)));
      return Ok;
    }

    method SysPageMap(src: Option<nat>, srcva: nat, dst: Option<nat>, dstva: nat, perm: set<Flag>) returns (r: Status)
      requires Valid() && (src.Some? ==> Abs().Use(src.value).Dir?) && (dst.Some? ==> Abs().Use(dst.value).Dir?)
      modifies this
      ensures Valid()
      ensures r.BadEnv? <==> MapArgs(srcva, dstva, perm) && (src.None? || dst.None?)
      ensures r.Ok? || r.NoMem? <==> MapArgs(srcva, dstva, perm) && src.Some? && dst.Some?
                                     && Grants(old(Flat(Abs())), SlotOf(src.value, srcva), perm)
      ensures r.NoMem? ==> old(free) == []
      ensures r.Ok? ==> var m := old(Flat(Abs())); var s := SlotOf(src.value, srcva);
                        s in m && Flat(Abs()) == m[SlotOf(dst.value, dstva) := Pte(m[s].ppn, perm)]
      ensures r.Ok? ==> SameElsewhere(old(Flat(Abs())), Flat(Abs()), dst.value, dstva)
      ensures KeepsLeaks(old(Abs()), Abs())
      ensures !r.Ok? ==> Abs() == old(Abs())
    {
      if !(perm <= SYSCALL) {
        return Inval;
      }
      if !({U, P} <= perm) {
        return Inval;
      }
      if srcva >= UTOP || srcva % PGSIZE != 0 {
        return Inval;
      }
      if dstva >= UTOP || dstva % PGSIZE != 0 {
        return Inval;
      }
      if src.None? || dst.None? {
        return BadEnv;
      }
      var s := SlotOf(src.value, srcva);
      var found := PageLookup(s);
      if found.None? {
        return Inval;
      }
      FlatAt(Abs(), s);
      WalkNamesPage(Abs(), s);
      assert DirEntryOk(Abs(), s.dir, s.pdx);
      var (pp, q) := found.value;
      if W in perm && W !in frames[q][s.ptx].flags {
        return Inval;
      }
      assert perm + {P} == perm;
      assert s in RefsIn(Flat(Abs()), pp);
      var ok := PageInsert(SlotOf(dst.value, dstva), pp, perm);
      AllStayLeaked(old(Abs()), Abs(), Some(pp));
      if !ok {
        return NoMem;
      }
      OneAddress(old(Flat(Abs())), Flat(Abs()), dst.value, dstva, Some(Pte(pp, perm)));
      return Ok;
    }

    method SysPageUnmap(env: Option<nat>, va: nat) returns (r: Status)
      requires Valid() && (env.Some? ==> Abs().Use(env.value).Dir?)
      modifies this
      ensures Valid()
      ensures r.Ok? <==> env.Some? && va < UTOP && va % PGSIZE == 0
      ensures r.Ok? ==> Flat(Abs()) == old(Flat(Abs())) - {SlotOf(env.value, va)}
      ensures r.Ok? ==> SameElsewhere(old(Flat(Abs())), Flat(Abs()), env.value, va)
      ensures KeepsLeaks(old(Abs()), Abs())
      ensures !r.Ok? ==> Abs() == old(Abs())
    {
      if env.None? {
        return BadEnv;
      }
      if va >= UTOP || va % PGSIZE != 0 {
        return Inval;
      }
      PageRemove(SlotOf(env.value, va), None);
      AllStayLeaked(old(Abs()), Abs(), None);
      OneAddress(old(Flat(Abs())), Flat(Abs()), env.value, va, None);
      return Ok;
    }
  }

  /** One free page, and a call for an environment that does not exist: the page is gone. */
  method LeakExample() returns (m: Memory, p: nat)
    ensures m.Valid() && Leaked(m.Abs(), p)
  {
    m := new Memory(2, EmptyFrame());
    m.PageInit(1, 0, 1);
    assert 1 in m.free;
    p := m.freeList.value;
    var r := m.SysPageAlloc(None, 0, {P, U});
  }
}
