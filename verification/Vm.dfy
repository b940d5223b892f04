/** Values shared by the paging modules: page-table entries, and the
    ghost view of physical memory on which the paging invariant is stated. */
module Vm {

  import opened Options

  /** The low bits of a page-table entry.  COW, SHARE and AVAIL are the three PTE_AVAIL bits,
      0x800, 0x400 and 0x200; OTHER stands for the bits no system call may set. */
  datatype Flag = P | W | U | COW | SHARE | AVAIL | OTHER

  /** PTE_SYSCALL: the bits a system call may set. */
  const SYSCALL: set<Flag> := {P, W, U, COW, SHARE, AVAIL}

  /** A page-directory or page-table entry: PTE_ADDR as a page number, and the low bits. */
  datatype Pte = Pte(ppn: nat, flags: set<Flag>)

  const ZERO := Pte(0, {})
  const NENTRIES: nat := 1024

  /** PDX(UTOP): directory slots below it belong to the user. */
  const UTOP_PDX: nat := 955

  datatype PageInfo = PageInfo(ref: nat, link: Option<nat>)

  /** What a physical page is used for.  `Page` is a page handed out by the
      allocator that holds user data (or is not yet mapped anywhere). */
  datatype Kind = Reserved | Free | Dir | Table(dir: nat, pdx: nat) | Page

  /** A user virtual page of one address space: page directory, PDX and PTX. */
  datatype Slot = Slot(dir: nat, pdx: nat, ptx: nat)

  datatype View = View(
    pages: seq<PageInfo>,
    freeList: Option<nat>,
    frames: seq<seq<Pte>>,
    kind: seq<Kind>,
    free: seq<nat>)
  {
    ghost predicate Shape() {
      && |pages| == |frames| == |kind| && |kind| > 0 && kind[0].Reserved?
      && forall p :: 0 <= p < |frames| ==> |frames[p]| == NENTRIES
    }

    /** Entry `i` of the frame `p`. */
    ghost function At(p: nat, i: nat): Pte {
      if p < |frames| && i < |frames[p]| then frames[p][i] else ZERO
    }

    ghost function Use(p: nat): Kind {
      if p < |kind| then kind[p] else Reserved
    }

    ghost function Ref(p: nat): nat {
      if p < |pages| then pages[p].ref else 0
    }

    ghost function Link(p: nat): Option<nat> {
      if p < |pages| then pages[p].link else None
    }

    ghost predicate IsUser(s: Slot) {
      Use(s.dir).Dir? && s.pdx < UTOP_PDX && s.ptx < NENTRIES
    }

    /** The two-level walk of `check_va2pa`, returning the entry rather than its address. */
    ghost function Walk(s: Slot): Pte {
      var pde := At(s.dir, s.pdx);
      if Present(pde) then At(pde.ppn, s.ptx) else ZERO
    }
  }

  predicate Present(e: Pte) { P in e.flags }

  // ---------------------------------------------------------------- flat map

  ghost function UserSlots(v: View): set<Slot> {
    set d, i, j | 0 <= d < |v.kind| && v.kind[d].Dir? && 0 <= i < UTOP_PDX && 0 <= j < NENTRIES :: Slot(d, i, j)
  }

  /** All address spaces as one flat map from user virtual pages to entries. */
  ghost function Flat(v: View): map<Slot, Pte> {
    map s | s in UserSlots(v) && Present(v.Walk(s)) :: v.Walk(s)
  }

  ghost predicate Mapped(v: View, s: Slot) {
    v.IsUser(s) && Present(v.Walk(s))
  }

  lemma FlatAt(v: View, s: Slot)
    ensures s in Flat(v) <==> Mapped(v, s)
    ensures s in Flat(v) ==> Flat(v)[s] == v.Walk(s)
  {
    assert s == Slot(s.dir, s.pdx, s.ptx);
  }

  /** A map with the right lookups is the flat map. */
  lemma FlatIs(v: View, m: map<Slot, Pte>)
    requires forall s :: s in m <==> Mapped(v, s)
    requires forall s :: s in m ==> m[s] == v.Walk(s)
    ensures Flat(v) == m
  {
    forall s ensures s in Flat(v) <==> s in m {
      FlatAt(v, s);
    }
  }

  /** Two views with the same directories and the same walks have the same flat map. */
  lemma FlatSame(v: View, w: View)
    requires forall s :: v.IsUser(s) <==> w.IsUser(s)
    requires forall s :: v.IsUser(s) ==> w.Walk(s) == v.Walk(s)
    ensures Flat(w) == Flat(v)
  {
    forall s ensures s in Flat(v) <==> Mapped(w, s) {
      FlatAt(v, s);
    }
    FlatIs(w, Flat(v));
  }

  ghost function RefsIn(m: map<Slot, Pte>, p: nat): set<Slot> {
    set s | s in m && m[s].ppn == p
  }

  // -------------------------------------------------------------- invariants

  ghost predicate EntryOk(v: View, e: Pte) {
    if Present(e) then v.Use(e.ppn).Page? else e == ZERO
  }

  /** A user directory entry is empty or names the table owned by that entry alone. */
  ghost predicate DirEntryOk(v: View, d: nat, i: nat) {
    v.Use(d).Dir? && i < UTOP_PDX ==>
      var e := v.At(d, i);
      if Present(e) then v.Use(e.ppn) == Table(d, i) else e == ZERO
  }

  ghost predicate DirsOk(v: View) {
    forall d: nat, i: nat :: DirEntryOk(v, d, i)
  }

  /** A page table is named by the directory entry it belongs to. */
  ghost predicate TableOk(v: View, q: nat) {
    v.Use(q).Table? ==>
      var (d, i) := (v.Use(q).dir, v.Use(q).pdx);
      v.Use(d).Dir? && i < UTOP_PDX && Present(v.At(d, i)) && v.At(d, i).ppn == q
  }

  ghost predicate TableEntryOk(v: View, q: nat, j: nat) {
    v.Use(q).Table? ==> EntryOk(v, v.At(q, j))
  }

  ghost predicate TablesOk(v: View) {
    && (forall q: nat :: TableOk(v, q))
    && (forall q: nat, j: nat :: TableEntryOk(v, q, j))
  }

  ghost predicate Distinct(s: seq<nat>) {
    forall i, j :: 0 <= i < j < |s| ==> s[i] != s[j]
  }

  ghost function LinkAt(free: seq<nat>, k: nat): Option<nat> {
    if k < |free| then Some(free[k]) else None
  }

  /** Page `p` is on the list exactly when it is free, and only then is it linked. */
  ghost predicate FreeAt(v: View, p: nat) {
    (p in v.free <==> v.Use(p).Free?) && (!v.Use(p).Free? ==> v.Link(p).None?)
  }

  ghost predicate ChainAt(v: View, k: nat) {
    k < |v.free| ==> v.Link(v.free[k]) == LinkAt(v.free, k + 1)
  }

  /** The linked free list spells out `free`: duplicate-free, hence acyclic, and
      exactly the pages of kind Free. */
  ghost predicate FreeOk(v: View) {
    && Distinct(v.free)
    && v.freeList == LinkAt(v.free, 0)
    && (forall p: nat :: FreeAt(v, p))
    && (forall k: nat :: ChainAt(v, k))
  }

  /** Reference counts: one for a directory, one for a table, the number of
      user entries naming it for a user page, none for a free page; `held` is a
      user page that is owed one more. */
  ghost predicate RefsOk(v: View, m: map<Slot, Pte>, held: Option<nat>) {
    forall p: nat :: RefOk(v, m, held, p)
  }

  ghost predicate RefOk(v: View, m: map<Slot, Pte>, held: Option<nat>, p: nat) {
    v.Use(p).Reserved? || v.Ref(p) == Owed(v.Use(p), m, held, p)
  }

  ghost function Owed(k: Kind, m: map<Slot, Pte>, held: Option<nat>, p: nat): nat {
    match k
    case Dir => 1
    case Table(_, _) => 1
    case Page => |RefsIn(m, p)| + (if held == Some(p) then 1 else 0)
    case _ => 0
  }

  /** The paging invariant while page `held`, if any, carries one reference that
      no entry accounts for yet (the inside of `page_insert`). */
  ghost predicate InvHolding(v: View, held: Option<nat>) {
    && v.Shape() && DirsOk(v) && TablesOk(v) && FreeOk(v) && RefsOk(v, Flat(v), held)
  }

  ghost predicate Inv(v: View) {
    InvHolding(v, None)
  }

  // ----------------------------------------------------- consequences of Inv

  /** An entry found by the walk is empty or names a user page. */
  lemma WalkNamesPage(v: View, s: Slot)
    requires DirsOk(v) && TablesOk(v) && v.IsUser(s)
    ensures EntryOk(v, v.Walk(s))
  {
    assert DirEntryOk(v, s.dir, s.pdx) && TableEntryOk(v, v.At(s.dir, s.pdx).ppn, s.ptx);
  }

  ghost function PdesNaming(v: View, p: nat): set<(nat, nat)> {
    set d, i | 0 <= d < |v.kind| && v.kind[d].Dir? && 0 <= i < UTOP_PDX
               && Present(v.At(d, i)) && v.At(d, i).ppn == p :: (d, i)
  }

  /** Reference-count exactness: the count of every page the allocator manages is
      the number of user PTEs, user PDEs and page directories naming it. */
  lemma RefCountExact(v: View, p: nat)
    requires Inv(v) && !v.Use(p).Reserved?
    ensures v.Ref(p) == |RefsIn(Flat(v), p)| + |PdesNaming(v, p)| + (if v.Use(p).Dir? then 1 else 0)
  {
    if !v.Use(p).Page? {
      forall s | s in Flat(v) ensures Flat(v)[s].ppn != p {
        FlatAt(v, s);
        WalkNamesPage(v, s);
      }
      assert RefsIn(Flat(v), p) == {};
    }
    PdesOf(v, p);
    assert RefOk(v, Flat(v), None, p);
  }

  lemma PdesOf(v: View, p: nat)
    requires DirsOk(v) && TablesOk(v)
    ensures PdesNaming(v, p) == match v.Use(p) case Table(d, i) => {(d, i)} case _ => {}
  {
    forall d, i | (d, i) in PdesNaming(v, p) ensures v.Use(p) == Table(d, i) {
      assert DirEntryOk(v, d, i);
    }
    if v.Use(p).Table? {
      assert TableOk(v, p);
    }
  }

  /** A page on the free list is named by nothing: no mapping can reach it. */
  lemma FreePageUnmapped(v: View, p: nat)
    requires Inv(v) && p in v.free
    ensures v.Ref(p) == 0 && RefsIn(Flat(v), p) == {} && PdesNaming(v, p) == {} && !v.Use(p).Dir?
  {
    assert FreeAt(v, p);
    RefCountExact(v, p);
    PdesOf(v, p);
    assert RefOk(v, Flat(v), None, p);
    assert |RefsIn(Flat(v), p)| == 0;
  }

  // -------------------------------------------------- storing a table entry

  /** Store entry `e` at index `i` of frame `q`. */
  ghost function Store(v: View, q: nat, i: nat, e: Pte): View {
    if q < |v.frames| && i < |v.frames[q]| then v.(frames := v.frames[q := v.frames[q][i := e]]) else v
  }

  lemma StoreAt(v: View, q: nat, i: nat, e: Pte)
    requires v.Shape() && q < |v.frames| && i < NENTRIES
    ensures var w := Store(v, q, i, e);
      && w.Shape() && w.kind == v.kind
      && (forall p: nat, j: nat :: w.At(p, j) == if p == q && j == i then e else v.At(p, j))
  {
  }

  lemma StoreTables(v: View, q: nat, i: nat, e: Pte)
    requires v.Shape() && DirsOk(v) && TablesOk(v) && v.Use(q).Table? && i < NENTRIES && EntryOk(v, e)
    ensures var w := Store(v, q, i, e); w.Shape() && DirsOk(w) && TablesOk(w)
  {
    var w := Store(v, q, i, e);
    StoreAt(v, q, i, e);
    assert forall p: nat :: w.Use(p) == v.Use(p);
    forall d: nat, j: nat ensures DirEntryOk(w, d, j) { assert DirEntryOk(v, d, j); }
    forall r: nat ensures TableOk(w, r) { assert TableOk(v, r); }
    forall r: nat, j: nat ensures TableEntryOk(w, r, j) { assert TableEntryOk(v, r, j); }
  }

  /** Exclusive ownership of page tables makes one store visible at one slot only. */
  lemma StoreWalk(v: View, s: Slot, e: Pte, t: Slot)
    requires v.Shape() && DirsOk(v) && v.IsUser(s) && Present(v.At(s.dir, s.pdx)) && v.IsUser(t)
    ensures Store(v, v.At(s.dir, s.pdx).ppn, s.ptx, e).Walk(t) == if t == s then e else v.Walk(t)
  {
    assert DirEntryOk(v, s.dir, s.pdx) && DirEntryOk(v, t.dir, t.pdx);
    StoreAt(v, v.At(s.dir, s.pdx).ppn, s.ptx, e);
  }

  lemma StoreFlat(v: View, s: Slot, e: Pte)
    requires v.Shape() && DirsOk(v) && v.IsUser(s) && Present(v.At(s.dir, s.pdx))
    requires Present(e) || e == ZERO
    ensures Flat(Store(v, v.At(s.dir, s.pdx).ppn, s.ptx, e)) == if Present(e) then Flat(v)[s := e] else Flat(v) - {s}
  {
    var w := Store(v, v.At(s.dir, s.pdx).ppn, s.ptx, e);
    var m := if Present(e) then Flat(v)[s := e] else Flat(v) - {s};
    forall t ensures t in m <==> Mapped(w, t)
      ensures t in m ==> m[t] == w.Walk(t) {
      FlatAt(v, t);
      assert w.IsUser(t) == v.IsUser(t);
      if v.IsUser(t) { StoreWalk(v, s, e, t); }
    }
    FlatIs(w, m);
  }

  // ------------------------------------------------------- reference counts

  lemma RefsRemove(m: map<Slot, Pte>, s: Slot, p: nat)
    requires s in m
    ensures |RefsIn(m, p)| == |RefsIn(m - {s}, p)| + (if m[s].ppn == p then 1 else 0)
  {
    assert RefsIn(m - {s}, p) == RefsIn(m, p) - {s};
    if m[s].ppn == p {
      assert s in RefsIn(m, p);
    }
  }

  lemma RefsAdd(m: map<Slot, Pte>, s: Slot, e: Pte, p: nat)
    requires s !in m
    ensures |RefsIn(m[s := e], p)| == |RefsIn(m, p)| + (if e.ppn == p then 1 else 0)
  {
    if e.ppn == p {
      assert RefsIn(m[s := e], p) == RefsIn(m, p) + {s};
    } else {
      assert RefsIn(m[s := e], p) == RefsIn(m, p);
    }
  }

  // ------------------------------------------------------------- page_remove

  /** A reference to `p` goes away; with the last one the page joins the free list. */
  ghost function Decref(v: View, p: nat): View {
    if p >= |v.pages| || p >= |v.kind| then v
    else if v.pages[p].ref <= 1 then
      v.(pages := v.pages[p := PageInfo(0, v.freeList)], freeList := Some(p),
         kind := v.kind[p := Free], free := [p] + v.free)
    else
      v.(pages := v.pages[p := v.pages[p].(ref := v.pages[p].ref - 1)])
  }

  /** `page_remove`: clear the entry and drop the reference it held. */
  ghost function Removed(v: View, s: Slot): View {
    Decref(Store(v, v.At(s.dir, s.pdx).ppn, s.ptx, ZERO), v.Walk(s).ppn)
  }

  lemma DecrefFree(v: View, p: nat)
    requires v.Shape() && FreeOk(v) && 0 < p < |v.kind| && !v.Use(p).Free?
    ensures Decref(v, p).Shape() && FreeOk(Decref(v, p))
  {
    var w := Decref(v, p);
    assert FreeAt(v, p);
    if v.pages[p].ref <= 1 {
      PushFree(v, p);
    } else {
      forall r: nat ensures FreeAt(w, r) { assert FreeAt(v, r); }
      forall k: nat ensures ChainAt(w, k) { assert ChainAt(v, k); }
    }
  }

  lemma PushFree(v: View, p: nat)
    requires v.Shape() && FreeOk(v) && 0 < p < |v.kind| && !v.Use(p).Free? && v.pages[p].ref <= 1
    ensures FreeOk(Decref(v, p))
  {
    var w := Decref(v, p);
    assert FreeAt(v, p);
    forall r: nat ensures FreeAt(w, r) { assert FreeAt(v, r); }
    forall k: nat ensures ChainAt(w, k) {
      if 0 < k < |w.free| {
        assert w.free[k] == v.free[k - 1] && v.free[k - 1] in v.free && ChainAt(v, k - 1);
      }
    }
    DistinctPush(v.free, p);
  }

  lemma FreeSame(v: View, w: View)
    requires FreeOk(v) && w.free == v.free && w.freeList == v.freeList
    requires forall r: nat :: (w.Use(r).Free? <==> v.Use(r).Free?) && w.Link(r) == v.Link(r)
    ensures FreeOk(w)
  {
    forall r: nat ensures FreeAt(w, r) { assert FreeAt(v, r); }
    forall k: nat ensures ChainAt(w, k) { assert ChainAt(v, k); }
  }

  lemma DistinctPush(s: seq<nat>, p: nat)
    requires Distinct(s) && p !in s
    ensures Distinct([p] + s)
  {
    forall i, j | 0 <= i < j < |s| + 1 ensures ([p] + s)[i] != ([p] + s)[j] {
      assert ([p] + s)[j] == s[j - 1] && s[j - 1] in s;
    }
  }

  lemma DecrefTables(v: View, p: nat)
    requires v.Shape() && DirsOk(v) && TablesOk(v) && v.Use(p).Page?
    requires v.pages[p].ref <= 1 ==> RefsIn(Flat(v), p) == {}
    ensures var w := Decref(v, p); DirsOk(w) && TablesOk(w) && Flat(w) == Flat(v)
  {
    var w := Decref(v, p);
    assert forall r: nat :: !v.Use(r).Page? ==> w.Use(r) == v.Use(r);
    assert forall r: nat :: w.Use(r) == v.Use(r) || w.Use(r).Free?;
    assert forall r: nat, j: nat :: w.At(r, j) == v.At(r, j);
    forall d: nat, j: nat ensures DirEntryOk(w, d, j) { assert DirEntryOk(v, d, j); }
    forall r: nat ensures TableOk(w, r) { assert TableOk(v, r); }
    forall q: nat, j: nat ensures TableEntryOk(w, q, j) {
      assert TableEntryOk(v, q, j) && TableOk(v, q);
      if v.Use(q).Table? && Present(v.At(q, j)) {
        var s := Slot(v.Use(q).dir, v.Use(q).pdx, j);
        FlatAt(v, s);
        assert v.pages[p].ref <= 1 ==> s !in RefsIn(Flat(v), p);
      }
    }
    FlatSame(v, w);
  }

  lemma DecrefRefs(v: View, m: map<Slot, Pte>, held: Option<nat>, s: Slot)
    requires v.Shape() && RefsOk(v, m, held) && s in m && v.Use(m[s].ppn).Page?
    ensures v.pages[m[s].ppn].ref >= 1
    ensures v.pages[m[s].ppn].ref <= 1 ==> RefsIn(m - {s}, m[s].ppn) == {}
    ensures RefsOk(Decref(v, m[s].ppn), m - {s}, held)
  {
    var p := m[s].ppn;
    var w := Decref(v, p);
    RefsRemove(m, s, p);
    assert RefOk(v, m, held, p);
    assert v.Ref(p) == |RefsIn(m - {s}, p)| + 1 + (if held == Some(p) then 1 else 0);
    forall r: nat ensures RefOk(w, m - {s}, held, r) {
      RefsRemove(m, s, r);
      assert RefOk(v, m, held, r);
    }
  }

  lemma RemovedOk(v: View, s: Slot, held: Option<nat>)
    requires InvHolding(v, held) && Mapped(v, s)
    ensures v.Use(v.Walk(s).ppn).Page? && v.Ref(v.Walk(s).ppn) >= 1
    ensures InvHolding(Removed(v, s), held)
    ensures Flat(Removed(v, s)) == Flat(v) - {s}
  {
    WalkNamesPage(v, s);
    FlatAt(v, s);
    var q := v.At(s.dir, s.pdx).ppn;
    assert DirEntryOk(v, s.dir, s.pdx);
    var c := Store(v, q, s.ptx, ZERO);
    StoreTables(v, q, s.ptx, ZERO);
    StoreFlat(v, s, ZERO);
    forall p: nat ensures RefOk(c, Flat(v), held, p) { assert RefOk(v, Flat(v), held, p); }
    DecrefRefs(c, Flat(v), held, s);
    DecrefTables(c, v.Walk(s).ppn);
    FreeSame(v, c);
    DecrefFree(c, v.Walk(s).ppn);
  }

  // -------------------------------------------------------------- page_alloc

  function EmptyFrame(): (f: seq<Pte>)
    ensures |f| == NENTRIES && forall i :: 0 <= i < NENTRIES ==> f[i] == ZERO
  {
    seq(NENTRIES, i => ZERO)
  }

  /** `page_alloc`: the head of the free list becomes a user page. */
  ghost function Popped(v: View, zero: bool): View {
    if v.free == [] || v.free[0] >= |v.pages| || v.free[0] >= |v.kind| || v.free[0] >= |v.frames| then v else
      var p := v.free[0];
      v.(pages := v.pages[p := v.pages[p].(link := None)], freeList := v.pages[p].link,
         frames := if zero then v.frames[p := EmptyFrame()] else v.frames,
         kind := v.kind[p := Page], free := v.free[1..])
  }

  lemma PoppedFree(v: View, zero: bool)
    requires v.Shape() && FreeOk(v) && |v.free| > 0 && v.free[0] < |v.pages| && v.Use(v.free[0]).Free?
    ensures Popped(v, zero).Shape() && FreeOk(Popped(v, zero))
  {
    var p := v.free[0];
    var w := Popped(v, zero);
    assert v.free == [p] + w.free;
    assert p !in w.free;
    assert Distinct(w.free);
    assert ChainAt(v, 0);
    forall r: nat ensures FreeAt(w, r) { assert FreeAt(v, r); }
    forall k: nat ensures ChainAt(w, k) {
      assert ChainAt(v, k + 1);
      if k < |w.free| { assert w.free[k] == v.free[k + 1] && w.free[k] in w.free; }
    }
  }

  lemma PoppedTables(v: View, zero: bool)
    requires v.Shape() && DirsOk(v) && TablesOk(v) && |v.free| > 0 && v.free[0] < |v.pages| && v.Use(v.free[0]).Free?
    ensures var w := Popped(v, zero); DirsOk(w) && TablesOk(w) && Flat(w) == Flat(v)
  {
    var p := v.free[0];
    var w := Popped(v, zero);
    assert forall r: nat :: w.Use(r) == if r == p then Page else v.Use(r);
    assert forall r: nat, j: nat :: r != p ==> w.At(r, j) == v.At(r, j);
    forall d: nat, j: nat ensures DirEntryOk(w, d, j) { assert DirEntryOk(v, d, j); }
    forall r: nat ensures TableOk(w, r) { assert TableOk(v, r); }
    forall q: nat, j: nat ensures TableEntryOk(w, q, j) { assert TableEntryOk(v, q, j); }
    forall s | v.IsUser(s) ensures w.Walk(s) == v.Walk(s) { assert DirEntryOk(v, s.dir, s.pdx); }
    FlatSame(v, w);
  }

  lemma PoppedOk(v: View, zero: bool, held: Option<nat>)
    requires InvHolding(v, held) && |v.free| > 0
    ensures v.Use(v.free[0]).Free? && v.free[0] < |v.pages| == |v.kind| == |v.frames|
    ensures held != Some(v.free[0]) ==> InvHolding(Popped(v, zero), held)
    ensures Flat(Popped(v, zero)) == Flat(v) && RefsIn(Flat(v), v.free[0]) == {} && v.Ref(v.free[0]) == 0
  {
    var p := v.free[0];
    assert p in v.free && FreeAt(v, p);
    var w := Popped(v, zero);
    PoppedFree(v, zero);
    PoppedTables(v, zero);
    UnnamedUnlessPage(v, p);
    assert RefOk(v, Flat(v), held, p);
    forall r: nat ensures held != Some(p) ==> RefOk(w, Flat(w), held, r) { assert RefOk(v, Flat(v), held, r); }
  }

  lemma UnnamedUnlessPage(v: View, p: nat)
    requires DirsOk(v) && TablesOk(v) && !v.Use(p).Page?
    ensures RefsIn(Flat(v), p) == {}
  {
    forall s | s in Flat(v) ensures Flat(v)[s].ppn != p {
      FlatAt(v, s);
      WalkNamesPage(v, s);
    }
  }

  /** `page_init` hands a page nothing names to the allocator. */
  lemma ReleasedOk(v: View, p: nat)
    requires Inv(v) && 0 < p < |v.kind| && v.Use(p).Reserved? && v.Ref(p) == 0
    ensures Inv(Decref(v, p)) && Flat(Decref(v, p)) == Flat(v)
  {
    var w := Decref(v, p);
    DecrefFree(v, p);
    assert forall r: nat :: w.Use(r) == if r == p then Free else v.Use(r);
    assert forall r: nat, j: nat :: w.At(r, j) == v.At(r, j);
    forall d: nat, j: nat ensures DirEntryOk(w, d, j) { assert DirEntryOk(v, d, j); }
    forall r: nat ensures TableOk(w, r) { assert TableOk(v, r); }
    forall q: nat, j: nat ensures TableEntryOk(w, q, j) { assert TableEntryOk(v, q, j); }
    FlatSame(v, w);
    forall r: nat ensures RefOk(w, Flat(w), None, r) { assert RefOk(v, Flat(v), None, r); }
  }

  // --------------------------------------------------- tables and directories

  /** `pgdir_walk` with create: the zeroed page `p` becomes the table of entry (d, i). */
  ghost function WithTable(v: View, d: nat, i: nat, p: nat): View {
    if p >= |v.pages| || p >= |v.kind| then v else Store(v, d, i, Pte(p, {P, W, U})).(
      pages := v.pages[p := v.pages[p].(ref := v.pages[p].ref + 1)], kind := v.kind[p := Table(d, i)])
  }

  lemma WithTableTables(v: View, d: nat, i: nat, p: nat)
    requires v.Shape() && DirsOk(v) && TablesOk(v) && v.Use(p).Page? && RefsIn(Flat(v), p) == {}
    requires v.frames[p] == EmptyFrame() && v.Use(d).Dir? && i < UTOP_PDX && v.At(d, i) == ZERO
    ensures var w := WithTable(v, d, i, p); w.Shape() && DirsOk(w) && TablesOk(w) && Flat(w) == Flat(v)
  {
    var e := Pte(p, {P, W, U});
    var w := WithTable(v, d, i, p);
    StoreAt(v, d, i, e);
    assert forall r: nat :: w.Use(r) == if r == p then Table(d, i) else v.Use(r);
    assert forall r: nat, j: nat :: w.At(r, j) == if r == d && j == i then e else v.At(r, j);
    assert forall j: nat :: w.At(p, j) == ZERO;
    forall d': nat, j: nat ensures DirEntryOk(w, d', j) { assert DirEntryOk(v, d', j); }
    forall r: nat ensures TableOk(w, r) { assert TableOk(v, r); }
    forall q: nat, j: nat ensures TableEntryOk(w, q, j) {
      assert TableEntryOk(v, q, j) && TableOk(v, q);
      if v.Use(q).Table? && Present(v.At(q, j)) {
        var s := Slot(v.Use(q).dir, v.Use(q).pdx, j);
        FlatAt(v, s);
        assert s !in RefsIn(Flat(v), p);
      }
    }
    forall s | v.IsUser(s) ensures w.Walk(s) == v.Walk(s) { assert DirEntryOk(v, s.dir, s.pdx); }
    FlatSame(v, w);
  }

  lemma WithTableOk(v: View, d: nat, i: nat, p: nat)
    requires Inv(v) && v.Use(p).Page? && RefsIn(Flat(v), p) == {} && v.frames[p] == EmptyFrame()
    requires v.Use(d).Dir? && i < UTOP_PDX && v.At(d, i) == ZERO
    ensures Inv(WithTable(v, d, i, p)) && Flat(WithTable(v, d, i, p)) == Flat(v)
  {
    var w := WithTable(v, d, i, p);
    WithTableTables(v, d, i, p);
    assert forall r: nat :: w.Use(r) == if r == p then Table(d, i) else v.Use(r);
    FreeSame(v, w);
    forall r: nat ensures RefOk(w, Flat(w), None, r) { assert RefOk(v, Flat(v), None, r); }
  }

  /** `env_free` on an emptied page table: clear the directory entry and drop its page. */
  ghost function WithoutTable(v: View, d: nat, i: nat): View {
    Decref(Store(v, d, i, ZERO), v.At(d, i).ppn)
  }

  lemma WithoutTableTables(v: View, d: nat, i: nat)
    requires v.Shape() && DirsOk(v) && TablesOk(v) && v.Use(d).Dir? && i < UTOP_PDX && Present(v.At(d, i))
    requires forall j: nat :: v.At(v.At(d, i).ppn, j) == ZERO
    requires v.Ref(v.At(d, i).ppn) == 1
    ensures v.Use(v.At(d, i).ppn) == Table(d, i)
    ensures var w := WithoutTable(v, d, i); w.Shape() && DirsOk(w) && TablesOk(w) && Flat(w) == Flat(v)
  {
    var q := v.At(d, i).ppn;
    assert DirEntryOk(v, d, i);
    var w := WithoutTable(v, d, i);
    StoreAt(v, d, i, ZERO);
    assert forall r: nat :: w.Use(r) == if r == q then Free else v.Use(r);
    assert forall r: nat, j: nat :: w.At(r, j) == if r == d && j == i then ZERO else v.At(r, j);
    forall d': nat, j: nat ensures DirEntryOk(w, d', j) { assert DirEntryOk(v, d', j); }
    forall r: nat ensures TableOk(w, r) { assert TableOk(v, r); }
    forall r: nat, j: nat ensures TableEntryOk(w, r, j) { assert TableEntryOk(v, r, j); }
    forall s | v.IsUser(s) ensures w.Walk(s) == v.Walk(s) { assert DirEntryOk(v, s.dir, s.pdx); }
    FlatSame(v, w);
  }

  lemma WithoutTableOk(v: View, d: nat, i: nat)
    requires Inv(v) && v.Use(d).Dir? && i < UTOP_PDX && Present(v.At(d, i))
    requires forall j: nat :: v.At(v.At(d, i).ppn, j) == ZERO
    ensures v.Use(v.At(d, i).ppn) == Table(d, i) && v.Ref(v.At(d, i).ppn) == 1
    ensures Inv(WithoutTable(v, d, i)) && Flat(WithoutTable(v, d, i)) == Flat(v)
  {
    var q := v.At(d, i).ppn;
    assert DirEntryOk(v, d, i) && RefOk(v, Flat(v), None, q);
    var w := WithoutTable(v, d, i);
    WithoutTableTables(v, d, i);
    StoreAt(v, d, i, ZERO);
    FreeSame(v, Store(v, d, i, ZERO));
    DecrefFree(Store(v, d, i, ZERO), q);
    forall r: nat ensures RefOk(w, Flat(w), None, r) { assert RefOk(v, Flat(v), None, r); }
  }

  /** `env_setup_vm`: the page `p` becomes a directory holding `frame`. */
  ghost function WithDir(v: View, p: nat, frame: seq<Pte>): View {
    if p >= |v.pages| || p >= |v.kind| || p >= |v.frames| then v else
    v.(pages := v.pages[p := v.pages[p].(ref := v.pages[p].ref + 1)],
       kind := v.kind[p := Dir], frames := v.frames[p := frame])
  }

  lemma WithDirTables(v: View, p: nat, frame: seq<Pte>)
    requires v.Shape() && DirsOk(v) && TablesOk(v) && v.Use(p).Page? && RefsIn(Flat(v), p) == {}
    requires |frame| == NENTRIES && forall i :: 0 <= i < UTOP_PDX ==> frame[i] == ZERO
    ensures var w := WithDir(v, p, frame); w.Shape() && DirsOk(w) && TablesOk(w) && Flat(w) == Flat(v)
  {
    var w := WithDir(v, p, frame);
    assert forall r: nat :: w.Use(r) == if r == p then Dir else v.Use(r);
    assert forall r: nat, j: nat :: r != p ==> w.At(r, j) == v.At(r, j);
    assert forall j: nat :: j < UTOP_PDX ==> w.At(p, j) == ZERO;
    forall d: nat, j: nat ensures DirEntryOk(w, d, j) { assert DirEntryOk(v, d, j); }
    forall r: nat ensures TableOk(w, r) { assert TableOk(v, r); }
    forall q: nat, j: nat ensures TableEntryOk(w, q, j) {
      assert TableEntryOk(v, q, j) && TableOk(v, q);
      if v.Use(q).Table? && Present(v.At(q, j)) {
        var s := Slot(v.Use(q).dir, v.Use(q).pdx, j);
        FlatAt(v, s);
        assert s !in RefsIn(Flat(v), p);
      }
    }
    WithDirFlat(v, p, frame);
  }

  lemma WithDirFlat(v: View, p: nat, frame: seq<Pte>)
    requires v.Shape() && DirsOk(v) && v.Use(p).Page?
    requires |frame| == NENTRIES && forall i :: 0 <= i < UTOP_PDX ==> frame[i] == ZERO
    ensures Flat(WithDir(v, p, frame)) == Flat(v)
  {
    var w := WithDir(v, p, frame);
    assert forall r: nat :: w.Use(r) == if r == p then Dir else v.Use(r);
    assert forall r: nat, j: nat :: r != p ==> w.At(r, j) == v.At(r, j);
    forall s ensures s in Flat(v) <==> Mapped(w, s) ensures s in Flat(v) ==> Flat(v)[s] == w.Walk(s) {
      FlatAt(v, s);
      assert DirEntryOk(v, s.dir, s.pdx);
      if s.dir == p && s.pdx < UTOP_PDX { assert w.At(p, s.pdx) == ZERO; }
    }
    FlatIs(w, Flat(v));
  }

  lemma WithDirOk(v: View, p: nat, frame: seq<Pte>)
    requires Inv(v) && v.Use(p).Page? && RefsIn(Flat(v), p) == {}
    requires |frame| == NENTRIES && forall i :: 0 <= i < UTOP_PDX ==> frame[i] == ZERO
    ensures Inv(WithDir(v, p, frame)) && Flat(WithDir(v, p, frame)) == Flat(v)
  {
    var w := WithDir(v, p, frame);
    WithDirTables(v, p, frame);
    assert forall r: nat :: w.Use(r) == if r == p then Dir else v.Use(r);
    FreeSame(v, w);
    forall r: nat ensures RefOk(w, Flat(w), None, r) { assert RefOk(v, Flat(v), None, r); }
  }

  /** Dropping a directory none of whose user entries is present. */
  lemma WithoutDirOk(v: View, d: nat)
    requires Inv(v) && v.Use(d).Dir? && forall i: nat :: i < UTOP_PDX ==> v.At(d, i) == ZERO
    ensures v.Ref(d) == 1 && Inv(Decref(v, d)) && Flat(Decref(v, d)) == Flat(v)
  {
    var w := Decref(v, d);
    assert RefOk(v, Flat(v), None, d);
    assert forall r: nat :: w.Use(r) == if r == d then Free else v.Use(r);
    assert forall r: nat, j: nat :: w.At(r, j) == v.At(r, j);
    forall d': nat, j: nat ensures DirEntryOk(w, d', j) { assert DirEntryOk(v, d', j); }
    forall r: nat ensures TableOk(w, r) { assert TableOk(v, r); }
    forall q: nat, j: nat ensures TableEntryOk(w, q, j) { assert TableEntryOk(v, q, j); }
    DecrefFree(v, d);
    WithoutDirFlat(v, d);
    forall r: nat ensures RefOk(w, Flat(w), None, r) { assert RefOk(v, Flat(v), None, r); }
  }

  lemma WithoutDirFlat(v: View, d: nat)
    requires v.Shape() && v.Use(d).Dir? && v.Ref(d) == 1 && forall i: nat :: i < UTOP_PDX ==> v.At(d, i) == ZERO
    ensures Flat(Decref(v, d)) == Flat(v)
  {
    var w := Decref(v, d);
    assert forall r: nat :: w.Use(r) == if r == d then Free else v.Use(r);
    assert forall r: nat, j: nat :: w.At(r, j) == v.At(r, j);
    forall s ensures s in Flat(v) <==> Mapped(w, s) ensures s in Flat(v) ==> Flat(v)[s] == w.Walk(s) {
      FlatAt(v, s);
      if s.dir == d && s.pdx < UTOP_PDX { assert v.At(d, s.pdx) == ZERO; }
    }
    FlatIs(w, Flat(v));
  }

  // ------------------------------------------------------------- page_insert

  ghost function Held(v: View, p: nat): View {
    if p >= |v.pages| then v else v.(pages := v.pages[p := v.pages[p].(ref := v.pages[p].ref + 1)])
  }

  lemma HeldOk(v: View, p: nat)
    requires Inv(v) && v.Use(p).Page?
    ensures InvHolding(Held(v, p), Some(p)) && Flat(Held(v, p)) == Flat(v)
  {
    var w := Held(v, p);
    assert forall r: nat :: w.Use(r) == v.Use(r);
    FreeSame(v, w);
    assert forall r: nat, j: nat :: w.At(r, j) == v.At(r, j);
    forall d: nat, j: nat ensures DirEntryOk(w, d, j) { assert DirEntryOk(v, d, j); }
    forall r: nat ensures TableOk(w, r) { assert TableOk(v, r); }
    forall q: nat, j: nat ensures TableEntryOk(w, q, j) { assert TableEntryOk(v, q, j); }
    FlatSame(v, w);
    forall r: nat ensures RefOk(w, Flat(w), Some(p), r) { assert RefOk(v, Flat(v), None, r); }
  }

  /** The held page's reference becomes the reference of an entry that was empty. */
  lemma InsertedOk(v: View, s: Slot, e: Pte)
    requires InvHolding(v, Some(e.ppn)) && Present(e) && v.Use(e.ppn).Page?
    requires v.IsUser(s) && Present(v.At(s.dir, s.pdx)) && v.Walk(s) == ZERO
    ensures var w := Store(v, v.At(s.dir, s.pdx).ppn, s.ptx, e); Inv(w) && Flat(w) == Flat(v)[s := e]
  {
    var q := v.At(s.dir, s.pdx).ppn;
    assert DirEntryOk(v, s.dir, s.pdx);
    var w := Store(v, q, s.ptx, e);
    StoreTables(v, q, s.ptx, e);
    StoreFlat(v, s, e);
    FlatAt(v, s);
    FreeSame(v, w);
    forall r: nat ensures RefOk(w, Flat(w), None, r) {
      assert RefOk(v, Flat(v), Some(e.ppn), r);
      RefsAdd(Flat(v), s, e, r);
    }
  }
}
