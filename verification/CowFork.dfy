/** Copy-on-write fork (lib/fork.c) as a state machine over system calls, single
    byte copies and single byte writes of any number of environments, and its
    refinement of a fork that copies pages eagerly (user/dumbfork.c). */
module CowFork {

  type Bytes = seq<nat>

  const PGSIZE: nat := 4096
  /** Page numbers of PFTEMP, USTACKTOP and the exception stack. */
  const PFTEMP: nat := 0x7ff
  const USTACKTOP: nat := 0xeebfe
  const UXSTACK: nat := 0xeebff

  function Zeros(): (b: Bytes)
    ensures |b| == PGSIZE
  {
    seq(PGSIZE, i => 0)
  }

  // --------------------------------------------------------- concrete machine

  datatype Key = Key(env: nat, vpn: nat)

  /** A present user entry: the page and the bits PTE_W, PTE_COW and PTE_SHARE. */
  datatype Entry = Entry(page: nat, w: bool, cow: bool, share: bool)

  /** An environment is running, or is a child still being built by `parent`. */
  datatype Run = Running | Embryo(parent: nat)

  /** Where `pgfault` stands: nothing to do; page allocated at PFTEMP and `n`
      bytes copied; faulting page unmapped; new page mapped in its place. */
  datatype Fault = Idle | Copying(v: nat, n: nat) | Unmapped(v: nat) | Remapped(v: nat)

  /** Where `fork` stands: next page to look at, or between the two calls of `duppage`. */
  datatype Fork = NoFork | Scan(child: nat, v: nat) | Marking(child: nat, v: nat)

  datatype Thread = Thread(run: Run, fault: Fault, fork: Fork)

  datatype State = State(mem: map<nat, Bytes>, pt: map<Key, Entry>, envs: map<nat, Thread>, shared: set<nat>)
  {
    function Th(e: nat): Thread {
      if e in envs then envs[e] else Thread(Running, Idle, NoFork)
    }
    function Ent(k: Key): Entry {
      if k in pt then pt[k] else Entry(0, false, false, false)
    }
    function Mem(p: nat): Bytes {
      if p in mem then mem[p] else Zeros()
    }
    predicate Active(e: nat) {
      e in envs && envs[e].run.Running?
    }
    /** Running user code (including the code of `fork`), not the fault handler. */
    predicate User(e: nat) {
      Active(e) && envs[e].fault.Idle?
    }
    /** Running neither `fork` nor the fault handler. */
    predicate Program(e: nat) {
      User(e) && envs[e].fork.NoFork?
    }
    predicate Unused(p: nat) {
      forall k :: k in pt ==> pt[k].page != p
    }
  }

  datatype Label =
    | Write(e: nat, v: nat, off: nat, b: nat)
    | FaultAlloc(e: nat, v: nat, t: nat)
    | CopyByte(e: nat)
    | FaultUnmap(e: nat)
    | FaultMap(e: nat)
    | FaultDone(e: nat)
    | ForkStart(e: nat, c: nat)
    | Dup(e: nat)
    | Mark(e: nat)
    | ForkDone(e: nat, t: nat)
    // system calls of a program outside fork and the fault handler; `Map` also stands for a page
    // sent by IPC, and `Exit` for being destroyed at any moment
    | Alloc(e: nat, v: nat, t: nat, share: bool)
    | Unmap(e: nat, v: nat)
    | Map(e: nat, v: nat, d: nat, w: nat, ro: bool)
    | Exit(e: nat)

  /** A page that may be mapped once more: shared, or written by nobody. */
  predicate Lendable(n: Entry) {
    n.share || (!n.w && !n.cow)
  }

  predicate Enabled(s: State, l: Label) {
    s.Active(l.e) &&
    var th := s.Th(l.e);
    match l
    case Write(e, v, off, b) => s.User(e) && Key(e, v) in s.pt && s.pt[Key(e, v)].w && off < PGSIZE
    case FaultAlloc(e, v, t) =>
      s.User(e) && Key(e, v) in s.pt && !s.pt[Key(e, v)].w && s.pt[Key(e, v)].cow && s.Unused(t)
    case CopyByte(e) => th.fault.Copying? && th.fault.n < PGSIZE
    case FaultUnmap(e) => th.fault.Copying? && th.fault.n == PGSIZE
    case FaultMap(e) => th.fault.Unmapped?
    case FaultDone(e) => th.fault.Remapped?
    case ForkStart(e, c) => s.User(e) && th.fork.NoFork? && c !in s.envs
    case Dup(e) => s.User(e) && th.fork.Scan? && th.fork.v < USTACKTOP
    case Mark(e) => s.User(e) && th.fork.Marking?
    case ForkDone(e, t) => s.User(e) && th.fork.Scan? && th.fork.v == USTACKTOP && s.Unused(t)
    case Alloc(e, v, t, share) => s.Program(e) && v != PFTEMP && s.Unused(t)
    case Unmap(e, v) => s.Program(e) && v != PFTEMP
    case Map(e, v, d, w, ro) =>
      s.Program(e) && s.Program(d) && w != PFTEMP && Key(e, v) in s.pt && Lendable(s.pt[Key(e, v)])
    case Exit(e) => true
  }

  function SetByte(b: Bytes, i: nat, x: nat): Bytes {
    if i < |b| then b[i := x] else b
  }

  function ByteAt(b: Bytes, i: nat): nat {
    if i < |b| then b[i] else 0
  }

  /** What `duppage` maps into the child for entry `n`. */
  function ChildEntry(n: Entry): Entry {
    if !n.w && !n.cow then Entry(n.page, false, false, false)
    else if n.share then n
    else Entry(n.page, false, true, false)
  }

  /** `fork` of `e` looks at page `v`: on if it is not there, else `duppage` maps it into child `c`. */
  function Dupped(s: State, e: nat, c: nat, v: nat): State {
    var th := s.Th(e);
    if Key(e, v) !in s.pt then s.(envs := s.envs[e := th.(fork := Scan(c, v + 1))]) else
    var n := s.pt[Key(e, v)];
    s.(pt := s.pt[Key(c, v) := ChildEntry(n)],
       envs := s.envs[e := th.(fork := if (!n.w && !n.cow) || n.share then Scan(c, v + 1) else Marking(c, v))])
  }

  /** The second call of `duppage` maps the page copy-on-write in `e` itself. */
  function Marked(s: State, e: nat, c: nat, v: nat): State {
    s.(pt := s.pt[Key(e, v) := Entry(s.Ent(Key(e, v)).page, false, true, false)],
       envs := s.envs[e := s.Th(e).(fork := Scan(c, v + 1))])
  }

  /** A page is shared for as long as somebody maps it. */
  function Trim(s: State): State {
    s.(shared := s.shared * set k | k in s.pt :: s.pt[k].page)
  }

  /** The effect of a program's own system call, before pages fall out of use. */
  function Called(s: State, l: Label): State {
    match l
    case Alloc(e, v, t, share) =>
      State(s.mem[t := Zeros()], s.pt[Key(e, v) := Entry(t, true, false, share)], s.envs,
            if share then s.shared + {t} else s.shared)
    case Unmap(e, v) => s.(pt := s.pt - {Key(e, v)})
    case Map(e, v, d, w, ro) => s.(pt := s.pt[Key(d, w) := Lent(s.Ent(Key(e, v)), ro)])
    case Exit(e) => Exited(s, e)
    case _ => s
  }

  function Lent(n: Entry, ro: bool): Entry {
    if ro then Entry(n.page, false, false, false) else n
  }

  /** An environment and the child it is in the middle of forking.  That child never runs, so
      nothing it maps is ever looked at again; dropping its mappings too only lets this machine
      hand out pages that the kernel keeps back. */
  function Ending(s: State, e: nat): set<nat> {
    if s.Th(e).fork.NoFork? then {e} else {e, s.Th(e).fork.child}
  }

  function Exited(s: State, e: nat): State {
    s.(pt := map k | k in s.pt && k.env !in Ending(s, e) :: s.pt[k], envs := s.envs - Ending(s, e))
  }

  function Next(s: State, l: Label): State {
    var th := s.Th(l.e);
    match l
    case Write(e, v, off, b) =>
      var p := s.Ent(Key(e, v)).page;
      s.(mem := s.mem[p := SetByte(s.Mem(p), off, b)])
    case FaultAlloc(e, v, t) =>
      s.(mem := s.mem[t := Zeros()], pt := s.pt[Key(e, PFTEMP) := Entry(t, true, false, false)],
         envs := s.envs[e := th.(fault := Copying(v, 0))])
    case CopyByte(e) =>
      if !th.fault.Copying? then s else
      var t := s.Ent(Key(e, PFTEMP)).page;
      var p := s.Ent(Key(e, th.fault.v)).page;
      s.(mem := s.mem[t := SetByte(s.Mem(t), th.fault.n, ByteAt(s.Mem(p), th.fault.n))],
         envs := s.envs[e := th.(fault := Copying(th.fault.v, th.fault.n + 1))])
    case FaultUnmap(e) =>
      if !th.fault.Copying? then s else
      s.(pt := s.pt - {Key(e, th.fault.v)}, envs := s.envs[e := th.(fault := Unmapped(th.fault.v))])
    case FaultMap(e) =>
      if !th.fault.Unmapped? then s else
      s.(pt := s.pt[Key(e, th.fault.v) := Entry(s.Ent(Key(e, PFTEMP)).page, true, false, false)],
         envs := s.envs[e := th.(fault := Remapped(th.fault.v))])
    case FaultDone(e) =>
      s.(pt := s.pt - {Key(e, PFTEMP)}, envs := s.envs[e := th.(fault := Idle)])
    case ForkStart(e, c) =>
      s.(envs := s.envs[e := th.(fork := Scan(c, 0))][c := Thread(Embryo(e), Idle, NoFork)])
    case Dup(e) => if th.fork.Scan? then Dupped(s, e, th.fork.child, th.fork.v) else s
    case Mark(e) => if th.fork.Marking? then Marked(s, e, th.fork.child, th.fork.v) else s
    case ForkDone(e, t) =>
      if !th.fork.Scan? then s else
      var c := th.fork.child;
      s.(mem := s.mem[t := Zeros()], pt := s.pt[Key(c, UXSTACK) := Entry(t, true, false, false)],
         envs := s.envs[e := th.(fork := NoFork)][c := Thread(Running, Idle, NoFork)])
    case _ => Trim(Called(s, l))
  }

  // ---------------------------------------------------------------- invariant

  /** PFTEMP holds a private writable page during a fault and nothing otherwise. */
  predicate TempOk(s: State, e: nat) {
    Key(e, PFTEMP) in s.pt && var n := s.pt[Key(e, PFTEMP)]; n.w && !n.cow && !n.share && n.page !in s.shared
  }

  predicate SameTo(a: Bytes, b: Bytes, n: nat) {
    forall i :: 0 <= i < n ==> ByteAt(a, i) == ByteAt(b, i)
  }

  predicate FaultOk(s: State, e: nat) {
    match s.Th(e).fault
    case Idle => Key(e, PFTEMP) !in s.pt
    case Copying(v, n) =>
      && TempOk(s, e) && v != PFTEMP && n <= PGSIZE
      && Key(e, v) in s.pt && s.pt[Key(e, v)].cow && !s.pt[Key(e, v)].w
      && SameTo(s.Mem(s.pt[Key(e, PFTEMP)].page), s.Mem(s.pt[Key(e, v)].page), n)
    case Unmapped(v) => TempOk(s, e) && v != PFTEMP && Key(e, v) !in s.pt
    case Remapped(v) => TempOk(s, e) && v != PFTEMP && Key(e, v) in s.pt && s.pt[Key(e, v)] == s.pt[Key(e, PFTEMP)]
  }

  predicate ForkOk(s: State, e: nat) {
    match s.Th(e).fork
    case NoFork => true
    case Scan(c, v) => c in s.envs && s.Th(c).run == Embryo(e) && v <= USTACKTOP
    case Marking(c, v) =>
      && c in s.envs && s.Th(c).run == Embryo(e) && v < USTACKTOP && v != PFTEMP
      && Key(c, v) in s.pt
      && (s.Th(e).fault == Unmapped(v) || Key(e, v) in s.pt)
      && (Key(e, v) in s.pt ==> var n := s.pt[Key(e, v)]; (n.w || n.cow) && n.page !in s.shared)
  }

  predicate EnvOk(s: State, e: nat) {
    e in s.envs ==> FaultOk(s, e) && ForkOk(s, e) && EmbryoOk(s, e)
  }

  predicate EmbryoOk(s: State, e: nat) {
    match s.Th(e).run
    case Running => true
    case Embryo(p) =>
      && s.Active(p) && s.Th(e).fault.Idle? && s.Th(e).fork.NoFork?
      && !s.Th(p).fork.NoFork? && s.Th(p).fork.child == e
  }

  /** A child under construction has only the pages already visited. */
  predicate VisitedOk(s: State, k: Key) {
    k.env in s.envs && s.Th(k.env).run.Embryo? ==>
      match s.Th(s.Th(k.env).run.parent).fork
      case NoFork => false
      case Scan(_, v) => k.vpn < v
      case Marking(_, v) => k.vpn < v || (k.vpn == v && s.Ent(k).cow && !s.Ent(k).w && !s.Ent(k).share)
  }

  predicate KeyOk(s: State, k: Key) {
    k in s.pt ==>
      && k.env in s.envs && VisitedOk(s, k)
      && var n := s.pt[k];
      && n.page in s.mem && |s.mem[n.page]| == PGSIZE
      && (n.share ==> n.page in s.shared && !n.cow)
      && (n.page in s.shared ==> n.share || (!n.w && !n.cow))
  }

  /** The two calls of `duppage`: the child already maps the page the parent may still write. */
  predicate MarkPair(s: State, a: Key, b: Key) {
    a.vpn == b.vpn && s.Th(a.env).fork == Marking(b.env, a.vpn)
  }

  /** The end of `pgfault`: the new page is mapped at the fault address and at PFTEMP. */
  predicate TempPair(s: State, a: Key, b: Key) {
    a.env == b.env && s.Th(a.env).fault.Remapped? &&
      ((a.vpn == s.Th(a.env).fault.v && b.vpn == PFTEMP) || (b.vpn == s.Th(a.env).fault.v && a.vpn == PFTEMP))
  }

  /** A page mapped twice and not shared is writable nowhere, except inside those two windows. */
  predicate PairOk(s: State, a: Key, b: Key) {
    a in s.pt && b in s.pt && a != b && s.pt[a].page == s.pt[b].page && s.pt[a].page !in s.shared && s.pt[a].w ==>
      MarkPair(s, a, b) || TempPair(s, a, b)
  }

  ghost predicate SharedOk(s: State, p: nat) {
    p in s.shared ==> exists k :: k in s.pt && s.pt[k].page == p
  }

  ghost predicate Inv(s: State) {
    && (forall e: nat :: EnvOk(s, e))
    && (forall k :: KeyOk(s, k))
    && (forall a, b :: PairOk(s, a, b))
    && (forall p: nat :: SharedOk(s, p))
  }

  /** Any set of environments with no fork or fault under way in which each page
      without PTE_SHARE has one mapping. */
  ghost predicate Init(s: State) {
    && (forall e: nat :: e in s.envs ==> s.envs[e] == Thread(Running, Idle, NoFork) && Key(e, PFTEMP) !in s.pt)
    && (forall k :: KeyOk(s, k))
    && (forall p: nat :: SharedOk(s, p))
    && (forall a, b :: a in s.pt && b in s.pt && s.pt[a].page == s.pt[b].page && !s.pt[a].share ==> a == b)
  }

  lemma InitInv(s: State)
    requires Init(s)
    ensures Inv(s)
  {
    forall e: nat ensures EnvOk(s, e) { }
    forall a, b ensures PairOk(s, a, b) { assert KeyOk(s, a); }
  }

  // ------------------------------------------------- every step keeps the invariant

  /** A page an environment may write in user mode is no page of another's fault. */
  lemma WritableNotInFault(s: State, a: Key, e: nat)
    requires Inv(s) && a in s.pt && s.pt[a].w && s.pt[a].page !in s.shared && e in s.envs
    requires s.Th(a.env).fault.Idle? || (s.Th(a.env).fault.Copying? && a.vpn == PFTEMP)
    ensures var f := s.Th(e).fault;
      && (f.Copying? ==> s.Ent(Key(e, f.v)).page != s.pt[a].page)
      && (!f.Idle? && a != Key(e, PFTEMP) ==> s.Ent(Key(e, PFTEMP)).page != s.pt[a].page)
  {
    var f := s.Th(e).fault;
    assert EnvOk(s, e) && EnvOk(s, a.env) && KeyOk(s, a);
    var temp := Key(e, PFTEMP);
    assert PairOk(s, temp, a) && PairOk(s, a, temp);
    if f.Copying? {
      assert PairOk(s, a, Key(e, f.v));
    }
  }

  lemma SharedKept(s: State, s': State)
    requires forall p: nat :: SharedOk(s, p)
    requires s'.shared == s.shared && forall k :: k in s.pt && s.pt[k].page in s.shared ==> StaysAt(s, s', k)
    ensures forall p: nat :: SharedOk(s', p)
  {
    forall p: nat ensures SharedOk(s', p) {
      assert SharedOk(s, p);
      if p in s.shared {
        var k :| k in s.pt && s.pt[k].page == p;
        assert StaysAt(s, s', k);
      }
    }
  }

  predicate StaysAt(s: State, s': State, k: Key) {
    k in s.pt && k in s'.pt && s'.pt[k].page == s.pt[k].page
  }

  lemma WriteInv(s: State, l: Label)
    requires Inv(s) && l.Write? && Enabled(s, l)
    ensures Inv(Next(s, l))
  {
    var s' := Next(s, l);
    var a := Key(l.e, l.v);
    assert KeyOk(s, a);
    forall e: nat ensures EnvOk(s', e) {
      assert EnvOk(s, e);
      if e in s.envs && s.Th(e).fault.Copying? {
        var f := s.Th(e).fault;
        assert KeyOk(s, Key(e, f.v));
        if s.pt[a].page !in s.shared { WritableNotInFault(s, a, e); }
      }
    }
    forall k ensures KeyOk(s', k) { assert KeyOk(s, k); }
    forall x, y ensures PairOk(s', x, y) { assert PairOk(s, x, y); }
    forall k | k in s.pt && s.pt[k].page in s.shared ensures StaysAt(s, s', k) { assert KeyOk(s, k); }
    SharedKept(s, s');
  }

  lemma CopyByteEnv(s: State, l: Label, e: nat)
    requires Inv(s) && l.CopyByte? && Enabled(s, l)
    ensures EnvOk(Next(s, l), e)
  {
    var a := Key(l.e, PFTEMP);
    assert EnvOk(s, l.e) && KeyOk(s, a) && EnvOk(s, e);
    if e in s.envs { WritableNotInFault(s, a, e); }
  }

  lemma CopyByteInv(s: State, l: Label)
    requires Inv(s) && l.CopyByte? && Enabled(s, l)
    ensures Inv(Next(s, l))
  {
    var s' := Next(s, l);
    var a := Key(l.e, PFTEMP);
    assert EnvOk(s, l.e) && KeyOk(s, a);
    forall e: nat ensures EnvOk(s', e) { CopyByteEnv(s, l, e); }
    forall k ensures KeyOk(s', k) { assert KeyOk(s, k); }
    forall x, y ensures PairOk(s', x, y) { assert PairOk(s, x, y); }
    forall k | k in s.pt && s.pt[k].page in s.shared ensures StaysAt(s, s', k) { assert KeyOk(s, k); }
    SharedKept(s, s');
  }

  lemma FaultAllocEnv(s: State, l: Label, e: nat)
    requires Inv(s) && l.FaultAlloc? && Enabled(s, l)
    ensures EnvOk(Next(s, l), e)
  {
    assert EnvOk(s, l.e) && SharedOk(s, l.t) && EnvOk(s, e);
  }

  lemma FaultAllocInv(s: State, l: Label)
    requires Inv(s) && l.FaultAlloc? && Enabled(s, l)
    ensures Inv(Next(s, l))
  {
    var s' := Next(s, l);
    assert EnvOk(s, l.e) && SharedOk(s, l.t);
    forall e: nat ensures EnvOk(s', e) { FaultAllocEnv(s, l, e); }
    forall k ensures KeyOk(s', k) { assert KeyOk(s, k); }
    forall x, y ensures PairOk(s', x, y) { assert PairOk(s, x, y); }
    forall k | k in s.pt && s.pt[k].page in s.shared ensures StaysAt(s, s', k) { assert KeyOk(s, k); }
    SharedKept(s, s');
  }

  lemma FaultUnmapInv(s: State, l: Label)
    requires Inv(s) && l.FaultUnmap? && Enabled(s, l)
    ensures Inv(Next(s, l))
  {
    var s' := Next(s, l);
    assert EnvOk(s, l.e) && KeyOk(s, Key(l.e, s.Th(l.e).fault.v));
    forall e: nat ensures EnvOk(s', e) { assert EnvOk(s, e); }
    forall k ensures KeyOk(s', k) { assert KeyOk(s, k); }
    forall x, y ensures PairOk(s', x, y) { assert PairOk(s, x, y); }
    forall k | k in s.pt && s.pt[k].page in s.shared ensures StaysAt(s, s', k) { assert KeyOk(s, k); }
    SharedKept(s, s');
  }

  lemma FaultMapInv(s: State, l: Label)
    requires Inv(s) && l.FaultMap? && Enabled(s, l)
    ensures Inv(Next(s, l))
  {
    var s' := Next(s, l);
    assert EnvOk(s, l.e) && KeyOk(s, Key(l.e, PFTEMP));
    forall e: nat ensures EnvOk(s', e) { assert EnvOk(s, e); }
    forall k ensures KeyOk(s', k) { assert KeyOk(s, k); }
    forall x, y ensures PairOk(s', x, y) {
      assert PairOk(s, x, y) && PairOk(s, Key(l.e, PFTEMP), x) && PairOk(s, Key(l.e, PFTEMP), y);
    }
    forall k | k in s.pt && s.pt[k].page in s.shared ensures StaysAt(s, s', k) { assert KeyOk(s, k); }
    SharedKept(s, s');
  }

  lemma FaultDoneInv(s: State, l: Label)
    requires Inv(s) && l.FaultDone? && Enabled(s, l)
    ensures Inv(Next(s, l))
  {
    var s' := Next(s, l);
    assert EnvOk(s, l.e) && KeyOk(s, Key(l.e, PFTEMP));
    forall e: nat ensures EnvOk(s', e) { assert EnvOk(s, e); }
    forall k ensures KeyOk(s', k) { assert KeyOk(s, k); }
    forall x, y ensures PairOk(s', x, y) { assert PairOk(s, x, y); }
    forall k | k in s.pt && s.pt[k].page in s.shared ensures StaysAt(s, s', k) { assert KeyOk(s, k); }
    SharedKept(s, s');
  }

  lemma ForkStartInv(s: State, l: Label)
    requires Inv(s) && l.ForkStart? && Enabled(s, l)
    ensures Inv(Next(s, l))
  {
    var s' := Next(s, l);
    assert EnvOk(s, l.e) && KeyOk(s, Key(l.c, PFTEMP));
    forall e: nat ensures EnvOk(s', e) { assert EnvOk(s, e); }
    forall k ensures KeyOk(s', k) { assert KeyOk(s, k) && EnvOk(s, k.env); }
    forall x, y ensures PairOk(s', x, y) { assert PairOk(s, x, y) && KeyOk(s, x) && EnvOk(s, x.env); }
    forall k | k in s.pt && s.pt[k].page in s.shared ensures StaysAt(s, s', k) { assert KeyOk(s, k); }
    SharedKept(s, s');
  }

  lemma MarkInv(s: State, l: Label)
    requires Inv(s) && l.Mark? && Enabled(s, l)
    ensures Inv(Next(s, l))
  {
    var s' := Next(s, l);
    assert EnvOk(s, l.e) && KeyOk(s, Key(l.e, s.Th(l.e).fork.v));
    forall e: nat ensures EnvOk(s', e) { assert EnvOk(s, e); }
    forall k ensures KeyOk(s', k) { assert KeyOk(s, k) && EnvOk(s, k.env); }
    forall x, y ensures PairOk(s', x, y) { assert PairOk(s, x, y); }
    forall k | k in s.pt && s.pt[k].page in s.shared ensures StaysAt(s, s', k) { assert KeyOk(s, k); }
    SharedKept(s, s');
  }

  lemma ForkDoneEnv(s: State, l: Label, e: nat)
    requires Inv(s) && l.ForkDone? && Enabled(s, l)
    ensures EnvOk(Next(s, l), e)
  {
    var c := s.Th(l.e).fork.child;
    assert EnvOk(s, l.e) && EnvOk(s, e) && EnvOk(s, c) && KeyOk(s, Key(c, UXSTACK));
  }

  lemma ForkDoneInv(s: State, l: Label)
    requires Inv(s) && l.ForkDone? && Enabled(s, l)
    ensures Inv(Next(s, l))
  {
    var s' := Next(s, l);
    var c := s.Th(l.e).fork.child;
    assert EnvOk(s, l.e) && SharedOk(s, l.t) && EnvOk(s, c) && KeyOk(s, Key(c, UXSTACK));
    forall e: nat ensures EnvOk(s', e) { ForkDoneEnv(s, l, e); }
    forall k ensures KeyOk(s', k) { assert KeyOk(s, k) && EnvOk(s, k.env); }
    forall x, y ensures PairOk(s', x, y) { assert PairOk(s, x, y); }
    forall k | k in s.pt && s.pt[k].page in s.shared ensures StaysAt(s, s', k) { assert KeyOk(s, k); }
    SharedKept(s, s');
  }

  lemma DupInv(s: State, l: Label)
    requires Inv(s) && l.Dup? && Enabled(s, l)
    ensures Inv(Next(s, l))
  {
    var s' := Next(s, l);
    var (c, v) := (s.Th(l.e).fork.child, s.Th(l.e).fork.v);
    assert EnvOk(s, l.e) && EnvOk(s, c) && KeyOk(s, Key(c, v));
    forall e: nat ensures EnvOk(s', e) { DupEnv(s, l, e); }
    forall k ensures KeyOk(s', k) { DupKey(s, l, k); }
    forall x, y ensures PairOk(s', x, y) { DupPair(s, l, x, y); }
    forall k | k in s.pt && s.pt[k].page in s.shared ensures StaysAt(s, s', k) { assert KeyOk(s, k); }
    SharedKept(s, s');
  }

  lemma DupEnv(s: State, l: Label, e: nat)
    requires Inv(s) && l.Dup? && Enabled(s, l)
    ensures EnvOk(Next(s, l), e)
  {
    var (c, v) := (s.Th(l.e).fork.child, s.Th(l.e).fork.v);
    assert EnvOk(s, l.e) && EnvOk(s, c) && EnvOk(s, e) && KeyOk(s, Key(c, v)) && KeyOk(s, Key(l.e, v));
  }

  lemma DupKey(s: State, l: Label, k: Key)
    requires Inv(s) && l.Dup? && Enabled(s, l)
    ensures KeyOk(Next(s, l), k)
  {
    var v := s.Th(l.e).fork.v;
    assert EnvOk(s, l.e) && KeyOk(s, Key(l.e, v)) && KeyOk(s, k) && EnvOk(s, k.env);
  }

  lemma DupPair(s: State, l: Label, x: Key, y: Key)
    requires Inv(s) && l.Dup? && Enabled(s, l)
    ensures PairOk(Next(s, l), x, y)
  {
    var (c, v) := (s.Th(l.e).fork.child, s.Th(l.e).fork.v);
    assert EnvOk(s, l.e) && KeyOk(s, Key(c, v)) && KeyOk(s, Key(l.e, v));
    assert PairOk(s, x, y) && PairOk(s, x, Key(l.e, v)) && KeyOk(s, x) && EnvOk(s, x.env);
  }

  /** All of the invariant but that shared pages are mapped. */
  ghost predicate PageInv(s: State) {
    && (forall e: nat :: EnvOk(s, e))
    && (forall k :: KeyOk(s, k))
    && (forall a, b :: PairOk(s, a, b))
  }

  predicate IsCall(l: Label) {
    l.Alloc? || l.Unmap? || l.Map? || l.Exit?
  }

  /** A program changes its own mappings only, and none that a fault or a fork is at work on. */
  lemma CalledInv(s: State, l: Label)
    requires Inv(s) && IsCall(l) && Enabled(s, l)
    ensures PageInv(Called(s, l))
  {
    var s' := Called(s, l);
    assert EnvOk(s, l.e);
    forall e: nat ensures EnvOk(s', e) { CalledEnv(s, l, e); }
    forall k ensures KeyOk(s', k) { CalledKey(s, l, k); }
    forall a, b ensures PairOk(s', a, b) { CalledPair(s, l, a, b); }
  }

  lemma CalledEnv(s: State, l: Label, e: nat)
    requires Inv(s) && IsCall(l) && Enabled(s, l)
    ensures EnvOk(Called(s, l), e)
  {
    if l.Exit? { ExitedEnv(s, l.e, e); } else { OwnCallEnv(s, l, e); }
  }

  lemma OwnCallEnv(s: State, l: Label, e: nat)
    requires Inv(s) && IsCall(l) && Enabled(s, l) && !l.Exit?
    ensures EnvOk(Called(s, l), e)
  {
    assert EnvOk(s, l.e) && EnvOk(s, e);
    if e in s.envs && !s.Th(e).fork.NoFork? { assert EnvOk(s, s.Th(e).fork.child); }
    if l.Alloc? { assert SharedOk(s, l.t); }
    if l.Map? { assert EnvOk(s, l.d); }
  }

  /** Nobody else's fault or fork has to do with the pages that go. */
  lemma ExitedEnv(s: State, e: nat, x: nat)
    requires Inv(s) && s.Active(e)
    ensures EnvOk(Exited(s, e), x)
  {
    assert EnvOk(s, e) && EnvOk(s, x);
    if !s.Th(e).fork.NoFork? { assert EnvOk(s, s.Th(e).fork.child); }
    if x in s.envs && !s.Th(x).fork.NoFork? { assert EnvOk(s, s.Th(x).fork.child); }
  }

  lemma CalledKey(s: State, l: Label, k: Key)
    requires Inv(s) && IsCall(l) && Enabled(s, l)
    ensures KeyOk(Called(s, l), k)
  {
    assert EnvOk(s, l.e) && KeyOk(s, k) && EnvOk(s, k.env);
    if l.Map? { assert KeyOk(s, Key(l.e, l.v)) && EnvOk(s, l.d); }
    if l.Alloc? { assert SharedOk(s, l.t); }
    if l.Exit? && k.env in s.envs && s.Th(k.env).run.Embryo? { assert EnvOk(s, s.Th(k.env).run.parent); }
  }

  lemma CalledPair(s: State, l: Label, a: Key, b: Key)
    requires Inv(s) && IsCall(l) && Enabled(s, l)
    ensures PairOk(Called(s, l), a, b)
  {
    assert EnvOk(s, l.e) && PairOk(s, a, b) && KeyOk(s, a) && EnvOk(s, a.env);
    if l.Map? {
      var x := Key(l.e, l.v);
      assert KeyOk(s, x) && PairOk(s, a, x) && (a.env in s.envs && s.Th(a.env).fork.Marking? ==> EnvOk(s, a.env));
    }
  }

  lemma TrimInv(s: State)
    requires PageInv(s)
    ensures Inv(Trim(s))
  {
    var s' := Trim(s);
    forall k | k in s.pt ensures s.pt[k].page in s'.shared <==> s.pt[k].page in s.shared { }
    forall e: nat ensures EnvOk(s', e) { assert EnvOk(s, e); }
    forall k ensures KeyOk(s', k) { assert KeyOk(s, k); }
    forall a, b ensures PairOk(s', a, b) { assert PairOk(s, a, b); }
    forall p: nat ensures SharedOk(s', p) { }
  }

  lemma StepInv(s: State, l: Label)
    requires Inv(s) && Enabled(s, l)
    ensures Inv(Next(s, l))
  {
    match l
    case Write(_, _, _, _) => WriteInv(s, l);
    case FaultAlloc(_, _, _) => FaultAllocInv(s, l);
    case CopyByte(_) => CopyByteInv(s, l);
    case FaultUnmap(_) => FaultUnmapInv(s, l);
    case FaultMap(_) => FaultMapInv(s, l);
    case FaultDone(_) => FaultDoneInv(s, l);
    case ForkStart(_, _) => ForkStartInv(s, l);
    case Dup(_) => DupInv(s, l);
    case Mark(_) => MarkInv(s, l);
    case ForkDone(_, _) => ForkDoneInv(s, l);
    case _ => CalledInv(s, l); TrimInv(Called(s, l));
  }

  // -------------------------------------------------------------- eager machine

  /** What an environment sees at one page: its own bytes, or a PTE_SHARE page. */
  datatype Cell = Private(bytes: Bytes, writable: bool) | Shared(page: nat, writable: bool)

  /** Forking: pages below `v` are already copied into `child`. */
  datatype EagerFork = NotForking | Filling(child: nat, v: nat)

  datatype EagerThread = EagerThread(run: Run, fork: EagerFork)

  /** The machine of dumbfork: every private page of every environment has its own
      bytes, and fork copies them page by page. */
  datatype Eager = Eager(cells: map<Key, Cell>, shared: map<nat, Bytes>, envs: map<nat, EagerThread>)

  datatype EagerLabel =
    | EWrite(e: nat, v: nat, off: nat, b: nat)
    | EFork(e: nat, c: nat)
    | ECopy(e: nat)
    | EDone(e: nat)
    | ESkip
    | ECall(l: Label)

  ghost predicate EagerStep(a: Eager, l: EagerLabel, a': Eager) {
    match l
    case ESkip => a' == a
    case EWrite(e, v, off, b) =>
      e in a.envs && a.envs[e].run.Running? && Key(e, v) in a.cells && off < PGSIZE &&
      var k := Key(e, v);
      var c := a.cells[k];
      c.writable &&
      (match c
       case Private(bytes, w) => a' == a.(cells := a.cells[k := Private(SetByte(bytes, off, b), w)])
       case Shared(p, _) => p in a.shared && a' == a.(shared := a.shared[p := SetByte(a.shared[p], off, b)]))
    case EFork(e, c) =>
      e in a.envs && a.envs[e] == EagerThread(Running, NotForking) && c !in a.envs &&
      a' == a.(envs := a.envs[e := EagerThread(Running, Filling(c, 0))][c := EagerThread(Embryo(e), NotForking)])
    case ECopy(e) =>
      e in a.envs && a.envs[e].run.Running? && a.envs[e].fork.Filling? && a.envs[e].fork.v < USTACKTOP &&
      var (c, v) := (a.envs[e].fork.child, a.envs[e].fork.v);
      a'.envs == a.envs[e := EagerThread(Running, Filling(c, v + 1))] && a'.shared == a.shared &&
      a'.cells == if Key(e, v) in a.cells then a.cells[Key(c, v) := a.cells[Key(e, v)]] else a.cells
    case EDone(e) =>
      e in a.envs && a.envs[e].run.Running? && a.envs[e].fork.Filling? && a.envs[e].fork.v == USTACKTOP &&
      var c := a.envs[e].fork.child;
      a' == Eager(a.cells[Key(c, UXSTACK) := Private(Zeros(), true)], a.shared,
                  a.envs[e := EagerThread(Running, NotForking)][c := EagerThread(Running, NotForking)])
    case ECall(l) => EagerCan(a, l) && a' == Dropped(EagerCall(a, l))
  }

  ghost predicate Referenced(cells: map<Key, Cell>, p: nat) {
    exists k :: k in cells && cells[k].Shared? && cells[k].page == p
  }

  /** Shared pages that nobody sees any more are gone. */
  ghost function Dropped(a: Eager): Eager {
    a.(shared := map p | p in a.shared && Referenced(a.cells, p) :: a.shared[p])
  }

  ghost predicate EagerCan(a: Eager, l: Label) {
    l.e in a.envs && a.envs[l.e].run.Running? && (l.Exit? || a.envs[l.e].fork.NotForking?) &&
    match l
    case Alloc(_, _, t, share) => share ==> t !in a.shared
    case Unmap(_, _) => true
    case Map(e, v, d, _, _) =>
      && d in a.envs && a.envs[d] == EagerThread(Running, NotForking)
      && Key(e, v) in a.cells && (a.cells[Key(e, v)].Shared? || !a.cells[Key(e, v)].writable)
    case Exit(_) => true
    case _ => false
  }

  ghost function EagerEnding(a: Eager, e: nat): set<nat> {
    if e in a.envs && a.envs[e].fork.Filling? then {e, a.envs[e].fork.child} else {e}
  }

  ghost function EagerExit(a: Eager, e: nat): Eager {
    a.(cells := map k | k in a.cells && k.env !in EagerEnding(a, e) :: a.cells[k], envs := a.envs - EagerEnding(a, e))
  }

  /** A new page is zero, a mapped page is the same page, and nothing else changes. */
  ghost function EagerCall(a: Eager, l: Label): Eager {
    match l
    case Alloc(e, v, t, share) =>
      Eager(a.cells[Key(e, v) := if share then Shared(t, true) else Private(Zeros(), true)],
            if share then a.shared[t := Zeros()] else a.shared, a.envs)
    case Unmap(e, v) => a.(cells := a.cells - {Key(e, v)})
    case Map(e, v, d, w, ro) =>
      if Key(e, v) !in a.cells then a else
        var c := a.cells[Key(e, v)];
        a.(cells := a.cells[Key(d, w) := if ro then c.(writable := false) else c])
    case Exit(e) => EagerExit(a, e)
    case _ => a
  }

  // ------------------------------------------------------------------ refinement

  /** The child maps the page its parent can still write: `duppage` is not over,
      and eagerly the page is not copied yet. */
  predicate Hidden(s: State, k: Key) {
    k.env in s.envs && s.Th(k.env).run.Embryo? &&
    var p := s.Th(k.env).run.parent;
    s.Th(p).fork == Marking(k.env, k.vpn) &&
    Key(p, k.vpn) in s.pt && s.pt[Key(p, k.vpn)].w && s.pt[Key(p, k.vpn)].page == s.Ent(k).page
  }

  /** Unmapped by the handler, its bytes waiting at PFTEMP. */
  predicate Parked(s: State, k: Key) {
    k.env in s.envs && s.Th(k.env).fault == Unmapped(k.vpn)
  }

  predicate Seen(s: State, k: Key) {
    k.vpn != PFTEMP && (Parked(s, k) || (k in s.pt && !Hidden(s, k)))
  }

  function CellOf(s: State, k: Key): Cell {
    if Parked(s, k) then Private(s.Mem(s.Ent(Key(k.env, PFTEMP)).page), true)
    else
      var n := s.Ent(k);
      if n.page in s.shared then Shared(n.page, n.w) else Private(s.Mem(n.page), n.w || n.cow)
  }

  ghost function Keys(s: State): set<Key> {
    s.pt.Keys + set e | e in s.envs && s.envs[e].fault.Unmapped? :: Key(e, s.envs[e].fault.v)
  }

  ghost function Cells(s: State): map<Key, Cell> {
    map k | k in Keys(s) && Seen(s, k) :: CellOf(s, k)
  }

  function ForkOf(s: State, f: Fork): EagerFork {
    match f
    case NoFork => NotForking
    case Scan(c, v) => Filling(c, v)
    case Marking(c, v) => Filling(c, if Hidden(s, Key(c, v)) then v else v + 1)
  }

  function ThreadOf(s: State, th: Thread): EagerThread {
    EagerThread(th.run, ForkOf(s, th.fork))
  }

  ghost function Abs(s: State): Eager {
    Eager(Cells(s), map p | p in s.shared :: s.Mem(p), map e | e in s.envs :: ThreadOf(s, s.envs[e]))
  }

  lemma CellsAt(s: State, k: Key)
    ensures k in Cells(s) <==> Seen(s, k)
    ensures k in Cells(s) ==> Cells(s)[k] == CellOf(s, k)
  {
    if Parked(s, k) {
      assert k == Key(k.env, s.envs[k.env].fault.v);
    }
  }

  lemma CellsAre(s: State, m: map<Key, Cell>)
    requires forall k :: (k in m <==> Seen(s, k)) && (k in m ==> m[k] == CellOf(s, k))
    ensures Cells(s) == m
  {
    forall k ensures k in Cells(s) <==> k in m {
      CellsAt(s, k);
    }
    forall k | k in m ensures Cells(s)[k] == m[k] {
      CellsAt(s, k);
    }
  }

  predicate SameAt(s: State, s': State, k: Key) {
    (Seen(s', k) <==> Seen(s, k)) && (Seen(s, k) ==> CellOf(s', k) == CellOf(s, k))
  }

  predicate SameThread(s: State, s': State, e: nat) {
    (e in s'.envs <==> e in s.envs) && (e in s.envs ==> ThreadOf(s', s'.envs[e]) == ThreadOf(s, s.envs[e]))
  }

  lemma AbsSame(s: State, s': State)
    requires forall k :: SameAt(s, s', k)
    requires forall e: nat :: SameThread(s, s', e)
    requires s'.shared == s.shared && forall p :: p in s.shared ==> s'.Mem(p) == s.Mem(p)
    ensures Abs(s') == Abs(s)
  {
    forall k ensures (k in Cells(s) <==> Seen(s', k)) && (k in Cells(s) ==> Cells(s)[k] == CellOf(s', k)) {
      assert SameAt(s, s', k);
      CellsAt(s, k);
    }
    CellsAre(s', Cells(s));
    forall e: nat ensures e in Abs(s').envs <==> e in Abs(s).envs { assert SameThread(s, s', e); }
    forall e: nat | e in s.envs ensures Abs(s').envs[e] == Abs(s).envs[e] { assert SameThread(s, s', e); }
    assert Abs(s').envs == Abs(s).envs;
  }

  /** The pages of a fault are seen by nobody else. */
  lemma CopyByteSame(s: State, l: Label)
    requires Inv(s) && l.CopyByte? && Enabled(s, l)
    ensures Abs(Next(s, l)) == Abs(s)
  {
    var s' := Next(s, l);
    var a := Key(l.e, PFTEMP);
    assert EnvOk(s, l.e);
    forall k ensures SameAt(s, s', k) {
      assert KeyOk(s, k) && PairOk(s, a, k) && EnvOk(s, k.env);
      if k.env in s.envs { WritableNotInFault(s, a, k.env); }
    }
    forall e: nat ensures SameThread(s, s', e) { assert EnvOk(s, e); }
    AbsSame(s, s');
  }

  lemma FaultAllocSame(s: State, l: Label)
    requires Inv(s) && l.FaultAlloc? && Enabled(s, l)
    ensures Abs(Next(s, l)) == Abs(s)
  {
    var s' := Next(s, l);
    assert EnvOk(s, l.e) && SharedOk(s, l.t);
    forall k ensures SameAt(s, s', k) { assert KeyOk(s, k) && EnvOk(s, k.env); }
    forall e: nat ensures SameThread(s, s', e) { assert EnvOk(s, e); }
    AbsSame(s, s');
  }

  lemma FaultUnmapSame(s: State, l: Label)
    requires Inv(s) && l.FaultUnmap? && Enabled(s, l)
    ensures Abs(Next(s, l)) == Abs(s)
  {
    var s' := Next(s, l);
    var (t, a) := (Key(l.e, PFTEMP), Key(l.e, s.Th(l.e).fault.v));
    assert EnvOk(s, l.e) && KeyOk(s, t) && KeyOk(s, a);
    assert s.Mem(s.pt[t].page) == s.Mem(s.pt[a].page) by {
      forall i | 0 <= i < PGSIZE ensures s.mem[s.pt[t].page][i] == s.mem[s.pt[a].page][i] {
        assert ByteAt(s.Mem(s.pt[t].page), i) == ByteAt(s.Mem(s.pt[a].page), i);
      }
    }
    forall k ensures SameAt(s, s', k) { assert KeyOk(s, k) && EnvOk(s, k.env); }
    forall e: nat ensures SameThread(s, s', e) { assert EnvOk(s, e); }
    AbsSame(s, s');
  }

  lemma FaultMapSame(s: State, l: Label)
    requires Inv(s) && l.FaultMap? && Enabled(s, l)
    ensures Abs(Next(s, l)) == Abs(s)
  {
    var s' := Next(s, l);
    var t := Key(l.e, PFTEMP);
    assert EnvOk(s, l.e) && KeyOk(s, t);
    forall k ensures SameAt(s, s', k) { assert KeyOk(s, k) && EnvOk(s, k.env) && PairOk(s, t, k); }
    forall e: nat ensures SameThread(s, s', e) {
      assert EnvOk(s, e);
      if e in s.envs && s.Th(e).fork.Marking? { assert PairOk(s, t, Key(s.Th(e).fork.child, s.Th(e).fork.v)); }
    }
    AbsSame(s, s');
  }

  lemma FaultDoneSame(s: State, l: Label)
    requires Inv(s) && l.FaultDone? && Enabled(s, l)
    ensures Abs(Next(s, l)) == Abs(s)
  {
    var s' := Next(s, l);
    assert EnvOk(s, l.e);
    forall k ensures SameAt(s, s', k) { assert KeyOk(s, k) && EnvOk(s, k.env); }
    forall e: nat ensures SameThread(s, s', e) { assert EnvOk(s, e); }
    AbsSame(s, s');
  }

  predicate CellIs(s: State, m: map<Key, Cell>, k: Key) {
    (k in m <==> Seen(s, k)) && (k in m ==> m[k] == CellOf(s, k))
  }

  predicate ThreadIs(s: State, m: map<nat, EagerThread>, e: nat) {
    (e in m <==> e in s.envs) && (e in m ==> m[e] == ThreadOf(s, s.envs[e]))
  }

  predicate SharedIs(s: State, m: map<nat, Bytes>, p: nat) {
    (p in m <==> p in s.shared) && (p in m ==> m[p] == s.Mem(p))
  }

  lemma AbsIs(s: State, a: Eager)
    requires forall k :: CellIs(s, a.cells, k)
    requires forall p: nat :: SharedIs(s, a.shared, p)
    requires forall e: nat :: ThreadIs(s, a.envs, e)
    ensures Abs(s) == a
  {
    assert forall k :: CellIs(s, a.cells, k) ==>
      (k in a.cells <==> Seen(s, k)) && (k in a.cells ==> a.cells[k] == CellOf(s, k));
    CellsAre(s, a.cells);
    forall p: nat ensures p in Abs(s).shared <==> p in a.shared { assert SharedIs(s, a.shared, p); }
    forall p: nat | p in a.shared ensures Abs(s).shared[p] == a.shared[p] { assert SharedIs(s, a.shared, p); }
    assert Abs(s).shared == a.shared;
    forall e: nat ensures e in Abs(s).envs <==> e in a.envs { assert ThreadIs(s, a.envs, e); }
    forall e: nat | e in a.envs ensures Abs(s).envs[e] == a.envs[e] { assert ThreadIs(s, a.envs, e); }
    assert Abs(s).envs == a.envs;
  }

  lemma WriteStep(s: State, l: Label)
    requires Inv(s) && l.Write? && Enabled(s, l)
    ensures EagerStep(Abs(s), EWrite(l.e, l.v, l.off, l.b), Abs(Next(s, l)))
  {
    assert EnvOk(s, l.e) && KeyOk(s, Key(l.e, l.v));
    CellsAt(s, Key(l.e, l.v));
    WriteAbs(s, l);
  }

  /** A store changes one page of the writer's own, or one shared page. */
  ghost function WriteTo(s: State, x: Key, off: nat, b: nat): Eager {
    var p := s.Ent(x).page;
    var bytes := SetByte(s.Mem(p), off, b);
    if p in s.shared then Abs(s).(shared := Abs(s).shared[p := bytes])
    else Abs(s).(cells := Abs(s).cells[x := Private(bytes, true)])
  }

  lemma WriteAbs(s: State, l: Label)
    requires Inv(s) && l.Write? && Enabled(s, l)
    ensures Abs(Next(s, l)) == WriteTo(s, Key(l.e, l.v), l.off, l.b)
  {
    var s' := Next(s, l);
    var a := WriteTo(s, Key(l.e, l.v), l.off, l.b);
    forall k ensures CellIs(s', a.cells, k) {
      if s.pt[Key(l.e, l.v)].page in s.shared { WriteSharedCell(s, l, k); } else { WritePrivateCell(s, l, k); }
    }
    forall e: nat ensures ThreadIs(s', a.envs, e) { }
    forall q: nat ensures SharedIs(s', a.shared, q) { }
    AbsIs(s', a);
  }

  lemma WritePrivateCell(s: State, l: Label, k: Key)
    requires Inv(s) && l.Write? && Enabled(s, l) && s.pt[Key(l.e, l.v)].page !in s.shared
    ensures CellIs(Next(s, l),
        Cells(s)[Key(l.e, l.v) := Private(SetByte(s.Mem(s.pt[Key(l.e, l.v)].page), l.off, l.b), true)], k)
  {
    var x := Key(l.e, l.v);
    CellsAt(s, k);
    assert EnvOk(s, l.e) && KeyOk(s, k) && PairOk(s, x, k) && EnvOk(s, k.env);
    if k.env in s.envs { WritableNotInFault(s, x, k.env); }
  }

  lemma WriteSharedCell(s: State, l: Label, k: Key)
    requires Inv(s) && l.Write? && Enabled(s, l) && s.pt[Key(l.e, l.v)].page in s.shared
    ensures CellIs(Next(s, l), Cells(s), k)
  {
    CellsAt(s, k);
    assert EnvOk(s, l.e) && KeyOk(s, k) && EnvOk(s, k.env);
  }

  lemma ForkStartStep(s: State, l: Label)
    requires Inv(s) && l.ForkStart? && Enabled(s, l)
    ensures EagerStep(Abs(s), EFork(l.e, l.c), Abs(Next(s, l)))
  {
    var s' := Next(s, l);
    var a := Abs(s).(envs := Abs(s).envs[l.e := EagerThread(Running, Filling(l.c, 0))]
      [l.c := EagerThread(Embryo(l.e), NotForking)]);
    assert EnvOk(s, l.e);
    forall k ensures CellIs(s', a.cells, k) { ForkStartCell(s, l, k); }
    forall e: nat ensures ThreadIs(s', a.envs, e) { ForkStartThread(s, l, e); }
    forall q: nat ensures SharedIs(s', a.shared, q) { }
    AbsIs(s', a);
  }

  lemma ForkStartCell(s: State, l: Label, k: Key)
    requires Inv(s) && l.ForkStart? && Enabled(s, l)
    ensures CellIs(Next(s, l), Cells(s), k)
  {
    CellsAt(s, k);
    assert EnvOk(s, l.e) && KeyOk(s, k) && EnvOk(s, k.env);
  }

  lemma ForkStartThread(s: State, l: Label, e: nat)
    requires Inv(s) && l.ForkStart? && Enabled(s, l)
    ensures ThreadIs(Next(s, l), Abs(s).envs[l.e := EagerThread(Running, Filling(l.c, 0))]
      [l.c := EagerThread(Embryo(l.e), NotForking)], e)
  {
    assert EnvOk(s, l.e) && EnvOk(s, e);
  }

  lemma ForkDoneStep(s: State, l: Label)
    requires Inv(s) && l.ForkDone? && Enabled(s, l)
    ensures EagerStep(Abs(s), EDone(l.e), Abs(Next(s, l)))
  {
    var s' := Next(s, l);
    var c := s.Th(l.e).fork.child;
    assert EnvOk(s, l.e) && SharedOk(s, l.t) && EnvOk(s, c);
    var a := Eager(Abs(s).cells[Key(c, UXSTACK) := Private(Zeros(), true)], Abs(s).shared,
                   Abs(s).envs[l.e := EagerThread(Running, NotForking)][c := EagerThread(Running, NotForking)]);
    forall k ensures CellIs(s', a.cells, k) { ForkDoneCell(s, l, k); }
    forall e: nat ensures ThreadIs(s', a.envs, e) { ForkDoneThread(s, l, e); }
    forall q: nat ensures SharedIs(s', a.shared, q) { }
    AbsIs(s', a);
  }

  lemma ForkDoneCell(s: State, l: Label, k: Key)
    requires Inv(s) && l.ForkDone? && Enabled(s, l)
    ensures CellIs(Next(s, l), Cells(s)[Key(s.Th(l.e).fork.child, UXSTACK) := Private(Zeros(), true)], k)
  {
    assert EnvOk(s, l.e) && SharedOk(s, l.t) && EnvOk(s, s.Th(l.e).fork.child);
    CellsAt(s, k);
    assert KeyOk(s, k) && EnvOk(s, k.env);
  }

  lemma ForkDoneThread(s: State, l: Label, e: nat)
    requires Inv(s) && l.ForkDone? && Enabled(s, l)
    ensures ThreadIs(Next(s, l), Abs(s).envs[l.e := EagerThread(Running, NotForking)]
      [s.Th(l.e).fork.child := EagerThread(Running, NotForking)], e)
  {
    assert EnvOk(s, l.e) && EnvOk(s, e) && EnvOk(s, s.Th(l.e).fork.child);
  }

  /** The eager machine after `e` copies its next page. */
  ghost function Copied(a: Eager, e: nat, c: nat, v: nat): Eager {
    Eager(CopiedCells(a.cells, e, c, v), a.shared, a.envs[e := EagerThread(Running, Filling(c, v + 1))])
  }

  ghost function CopiedCells(m: map<Key, Cell>, e: nat, c: nat, v: nat): map<Key, Cell> {
    if Key(e, v) in m then m[Key(c, v) := m[Key(e, v)]] else m
  }

  predicate Scanning(s: State, e: nat, c: nat, v: nat) {
    s.User(e) && s.Th(e).fork == Scan(c, v) && v < USTACKTOP
  }

  /** `duppage` on a page the parent may write: nothing is copied yet. */
  lemma DupHidden(s: State, e: nat, c: nat, v: nat)
    requires Inv(s) && Scanning(s, e, c, v) && Key(e, v) in s.pt && s.pt[Key(e, v)].w && !s.pt[Key(e, v)].share
    ensures Abs(Dupped(s, e, c, v)) == Abs(s)
  {
    var s' := Dupped(s, e, c, v);
    assert EnvOk(s, e) && EnvOk(s, c) && KeyOk(s, Key(c, v));
    forall k ensures SameAt(s, s', k) { assert KeyOk(s, k) && EnvOk(s, k.env); }
    forall d: nat ensures SameThread(s, s', d) { assert EnvOk(s, d); }
    AbsSame(s, s');
  }

  /** What the child gets is what an eager copy would hold. */
  predicate CopiesNow(s: State, e: nat, v: nat) {
    Key(e, v) !in s.pt || !s.pt[Key(e, v)].w || s.pt[Key(e, v)].share
  }

  /** `duppage` on any other page. */
  lemma DupCopies(s: State, e: nat, c: nat, v: nat)
    requires Inv(s) && Scanning(s, e, c, v) && CopiesNow(s, e, v)
    ensures Abs(Dupped(s, e, c, v)) == Copied(Abs(s), e, c, v)
  {
    var s' := Dupped(s, e, c, v);
    var a := Copied(Abs(s), e, c, v);
    forall k ensures CellIs(s', a.cells, k) {
      if k == Key(c, v) { DupNewCell(s, e, c, v); } else { DupOldCell(s, e, c, v, k); }
    }
    forall d: nat ensures ThreadIs(s', a.envs, d) { DupThread(s, e, c, v, d); }
    forall q: nat ensures SharedIs(s', a.shared, q) { }
    AbsIs(s', a);
  }

  lemma DupNewCell(s: State, e: nat, c: nat, v: nat)
    requires Inv(s) && Scanning(s, e, c, v) && CopiesNow(s, e, v)
    ensures CellIs(Dupped(s, e, c, v), CopiedCells(Cells(s), e, c, v), Key(c, v))
  {
    assert EnvOk(s, e) && EnvOk(s, c) && KeyOk(s, Key(c, v)) && KeyOk(s, Key(e, v));
    CellsAt(s, Key(e, v));
    CellsAt(s, Key(c, v));
  }

  lemma DupOldCell(s: State, e: nat, c: nat, v: nat, k: Key)
    requires Inv(s) && Scanning(s, e, c, v) && CopiesNow(s, e, v) && k != Key(c, v)
    ensures CellIs(Dupped(s, e, c, v), CopiedCells(Cells(s), e, c, v), k)
  {
    CellsAt(s, k);
    assert EnvOk(s, c) && KeyOk(s, k) && EnvOk(s, k.env) && EnvOk(s, e);
    assert SameAt(s, Dupped(s, e, c, v), k);
  }

  lemma DupThread(s: State, e: nat, c: nat, v: nat, d: nat)
    requires Inv(s) && Scanning(s, e, c, v) && CopiesNow(s, e, v)
    ensures ThreadIs(Dupped(s, e, c, v), Copied(Abs(s), e, c, v).envs, d)
  {
    assert EnvOk(s, e) && EnvOk(s, c);
    if d == e {
      assert Key(e, v) in s.pt ==> KeyOk(s, Key(e, v));
    } else {
      DupOthersFork(s, e, c, v, d);
    }
  }

  lemma DupOthersFork(s: State, e: nat, c: nat, v: nat, d: nat)
    requires Inv(s) && Scanning(s, e, c, v) && d != e
    ensures SameThread(s, Dupped(s, e, c, v), d)
  {
    assert EnvOk(s, e) && EnvOk(s, d);
  }

  /** The second call of `duppage` is where a writable page counts as copied. */
  lemma MarkCopies(s: State, e: nat, c: nat, v: nat)
    requires Inv(s) && s.User(e) && s.Th(e).fork == Marking(c, v) && Hidden(s, Key(c, v))
    ensures Abs(Marked(s, e, c, v)) == Copied(Abs(s), e, c, v)
  {
    var s' := Marked(s, e, c, v);
    var a := Copied(Abs(s), e, c, v);
    forall k ensures CellIs(s', a.cells, k) { MarkCell(s, e, c, v, k); }
    forall d: nat ensures ThreadIs(s', a.envs, d) { MarkThread(s, e, c, v, d); }
    forall q: nat ensures SharedIs(s', a.shared, q) { }
    AbsIs(s', a);
  }

  lemma MarkCell(s: State, e: nat, c: nat, v: nat, k: Key)
    requires Inv(s) && s.User(e) && s.Th(e).fork == Marking(c, v) && Hidden(s, Key(c, v))
    ensures CellIs(Marked(s, e, c, v), CopiedCells(Cells(s), e, c, v), k)
  {
    assert EnvOk(s, e) && EnvOk(s, c) && KeyOk(s, Key(c, v)) && KeyOk(s, Key(e, v));
    CellsAt(s, Key(e, v));
    CellsAt(s, k);
    assert KeyOk(s, k) && EnvOk(s, k.env);
  }

  lemma MarkThread(s: State, e: nat, c: nat, v: nat, d: nat)
    requires Inv(s) && s.User(e) && s.Th(e).fork == Marking(c, v) && Hidden(s, Key(c, v))
    ensures ThreadIs(Marked(s, e, c, v), Copied(Abs(s), e, c, v).envs, d)
  {
    assert EnvOk(s, e) && EnvOk(s, d) && EnvOk(s, c);
  }

  /** If the parent faulted in between, or the page was already copy-on-write, the copy is long made. */
  lemma MarkSame(s: State, e: nat, c: nat, v: nat)
    requires Inv(s) && s.User(e) && s.Th(e).fork == Marking(c, v) && !Hidden(s, Key(c, v))
    ensures Abs(Marked(s, e, c, v)) == Abs(s)
  {
    var s' := Marked(s, e, c, v);
    assert EnvOk(s, e) && EnvOk(s, c) && KeyOk(s, Key(c, v)) && KeyOk(s, Key(e, v));
    forall k ensures SameAt(s, s', k) { assert KeyOk(s, k) && EnvOk(s, k.env); }
    forall d: nat ensures SameThread(s, s', d) { assert EnvOk(s, d); }
    AbsSame(s, s');
  }

  lemma DupStep(s: State, l: Label)
    requires Inv(s) && l.Dup? && Enabled(s, l)
    ensures EagerStep(Abs(s), EagerOf(s, l), Abs(Next(s, l)))
  {
    var (c, v) := (s.Th(l.e).fork.child, s.Th(l.e).fork.v);
    if CopiesNow(s, l.e, v) { DupCopies(s, l.e, c, v); } else { DupHidden(s, l.e, c, v); }
  }

  lemma MarkStep(s: State, l: Label)
    requires Inv(s) && l.Mark? && Enabled(s, l)
    ensures EagerStep(Abs(s), EagerOf(s, l), Abs(Next(s, l)))
  {
    var (c, v) := (s.Th(l.e).fork.child, s.Th(l.e).fork.v);
    assert EnvOk(s, l.e);
    if Hidden(s, Key(c, v)) { MarkCopies(s, l.e, c, v); } else { MarkSame(s, l.e, c, v); }
  }

  /** Only shared pages that are still mapped are still seen. */
  lemma TrimDrops(s: State)
    requires PageInv(s)
    ensures Abs(Trim(s)) == Dropped(Abs(s))
  {
    var s' := Trim(s);
    TrimInv(s);
    forall k ensures CellIs(s', Cells(s), k) {
      CellsAt(s, k);
      assert KeyOk(s, k) && EnvOk(s, k.env);
    }
    forall p: nat ensures SharedIs(s', Dropped(Abs(s)).shared, p) { TrimShared(s, p); }
    forall e: nat ensures ThreadIs(s', Abs(s).envs, e) { }
    AbsIs(s', Dropped(Abs(s)));
  }

  lemma TrimShared(s: State, p: nat)
    requires PageInv(s)
    ensures p in Trim(s).shared <==> p in s.shared && Referenced(Cells(s), p)
  {
    if p in Trim(s).shared {
      var k :| k in s.pt && s.pt[k].page == p;
      assert KeyOk(s, k) && EnvOk(s, k.env);
      assert s.Th(k.env).run.Embryo? ==> EnvOk(s, s.Th(k.env).run.parent);
      CellsAt(s, k);
    }
    if p in s.shared && Referenced(Cells(s), p) {
      var k :| k in Cells(s) && Cells(s)[k].Shared? && Cells(s)[k].page == p;
      CellsAt(s, k);
      assert k in s.pt;
    }
  }

  lemma CallStep(s: State, l: Label)
    requires Inv(s) && IsCall(l) && Enabled(s, l)
    ensures EagerStep(Abs(s), ECall(l), Abs(Next(s, l)))
  {
    var s' := Called(s, l);
    var a := EagerCall(Abs(s), l);
    assert EnvOk(s, l.e);
    forall k ensures CellIs(s', a.cells, k) { CallCell(s, l, k); }
    forall p: nat ensures SharedIs(s', a.shared, p) { CallShared(s, l, p); }
    forall e: nat ensures ThreadIs(s', a.envs, e) { CallThread(s, l, e); }
    AbsIs(s', a);
    CalledInv(s, l);
    TrimDrops(s');
    CallCan(s, l);
  }

  lemma CallCan(s: State, l: Label)
    requires Inv(s) && IsCall(l) && Enabled(s, l)
    ensures EagerCan(Abs(s), l)
  {
    assert EnvOk(s, l.e);
    if l.Alloc? { assert SharedOk(s, l.t); }
    if l.Map? {
      assert KeyOk(s, Key(l.e, l.v));
      CellsAt(s, Key(l.e, l.v));
    }
  }

  lemma CallCell(s: State, l: Label, k: Key)
    requires Inv(s) && IsCall(l) && Enabled(s, l)
    ensures CellIs(Called(s, l), EagerCall(Abs(s), l).cells, k)
  {
    if l.Exit? {
      ExitCell(s, l.e, k);
    } else if k.env == Caller(l) {
      OwnCell(s, l, k);
    } else {
      OtherCell(s, l, k);
    }
  }

  /** The environment whose mappings a call changes. */
  function Caller(l: Label): nat {
    if l.Map? then l.d else l.e
  }

  lemma ExitCell(s: State, e: nat, k: Key)
    requires Inv(s) && s.Active(e)
    ensures CellIs(Exited(s, e), EagerExit(Abs(s), e).cells, k)
  {
    assert EnvOk(s, e) && KeyOk(s, k) && EnvOk(s, k.env);
    CellsAt(s, k);
    if k.env in s.envs && k.env !in Ending(s, e) { ExitSame(s, e, k); }
  }

  lemma ExitSame(s: State, e: nat, k: Key)
    requires s.Active(e) && EnvOk(s, e) && k.env in s.envs && k.env !in Ending(s, e) && EnvOk(s, k.env) && KeyOk(s, k)
    ensures SameAt(s, Exited(s, e), k)
  {
  }

  /** What the caller sees of its own pages. */
  lemma OwnCell(s: State, l: Label, k: Key)
    requires Inv(s) && IsCall(l) && Enabled(s, l) && !l.Exit? && k.env == Caller(l)
    ensures CellIs(Called(s, l), EagerCall(Abs(s), l).cells, k)
  {
    assert EnvOk(s, l.e) && KeyOk(s, k) && EnvOk(s, k.env);
    CellsAt(s, k);
    if l.Alloc? { assert SharedOk(s, l.t); }
    if l.Map? {
      assert KeyOk(s, Key(l.e, l.v));
      CellsAt(s, Key(l.e, l.v));
    }
  }

  /** What others see does not change. */
  lemma OtherCell(s: State, l: Label, k: Key)
    requires Inv(s) && IsCall(l) && Enabled(s, l) && !l.Exit? && k.env != Caller(l)
    ensures CellIs(Called(s, l), EagerCall(Abs(s), l).cells, k)
  {
    CellsAt(s, k);
    assert EnvOk(s, Caller(l)) && KeyOk(s, k) && EnvOk(s, k.env);
    if l.Alloc? { assert SharedOk(s, l.t); }
    OtherSame(s, Called(s, l), Caller(l), k);
  }

  lemma OtherSame(s: State, s': State, e: nat, k: Key)
    requires s.Program(e) && k.env != e && EnvOk(s, k.env) && KeyOk(s, k) && s'.envs == s.envs
    requires forall x: Key :: x.env != e ==> (x in s'.pt <==> x in s.pt) && (x in s.pt ==> s'.pt[x] == s.pt[x])
    requires forall x: Key :: x.env != e && x in s.pt ==> s'.Mem(s.pt[x].page) == s.Mem(s.pt[x].page)
    requires forall x: Key :: x.env != e && x in s.pt ==> (s.pt[x].page in s'.shared <==> s.pt[x].page in s.shared)
    ensures SameAt(s, s', k)
  {
  }

  lemma CallShared(s: State, l: Label, p: nat)
    requires Inv(s) && IsCall(l) && Enabled(s, l)
    ensures SharedIs(Called(s, l), EagerCall(Abs(s), l).shared, p)
  {
    if l.Alloc? { assert SharedOk(s, l.t); }
  }

  lemma CallThread(s: State, l: Label, e: nat)
    requires Inv(s) && IsCall(l) && Enabled(s, l)
    ensures ThreadIs(Called(s, l), EagerCall(Abs(s), l).envs, e)
  {
    assert EnvOk(s, l.e) && EnvOk(s, e);
    if l.Exit? { ExitThread(s, l.e, e); } else { ThreadSame(s, Called(s, l), Caller(l), e); }
  }

  lemma ExitThread(s: State, e: nat, d: nat)
    requires Inv(s) && s.Active(e)
    ensures ThreadIs(Exited(s, e), EagerExit(Abs(s), e).envs, d)
  {
    assert EnvOk(s, d) && EnvOk(s, e);
    if d in s.envs && d !in Ending(s, e) {
      if !s.Th(d).fork.NoFork? { assert EnvOk(s, s.Th(d).fork.child); }
      ForkSame(s, Exited(s, e), Ending(s, e), d, s.Th(d).fork);
    }
  }

  /** The pages between which a fork stands belong to it and its child. */
  lemma ForkSame(s: State, s': State, gone: set<nat>, d: nat, f: Fork)
    requires d !in gone && (f.Marking? ==> f.child !in gone && f.child in s.envs && s.Th(f.child).run == Embryo(d))
    requires forall x: nat :: x !in gone ==> s'.Th(x) == s.Th(x) && (x in s'.envs <==> x in s.envs)
    requires forall x: Key :: x.env !in gone ==> (x in s'.pt <==> x in s.pt) && s'.Ent(x) == s.Ent(x)
    ensures ForkOf(s', f) == ForkOf(s, f)
  {
  }

  lemma ThreadSame(s: State, s': State, e: nat, d: nat)
    requires s.Program(e) && EnvOk(s, d) && s'.envs == s.envs
    requires forall x: Key :: x.env != e ==> (x in s'.pt <==> x in s.pt) && s'.Ent(x) == s.Ent(x)
    ensures SameThread(s, s', d)
  {
    if d in s.envs && d != e { ForkSame(s, s', {e}, d, s.Th(d).fork); }
  }

  // ---------------------------------------------------------------- whole runs

  /** The eager step that a concrete step stands for. */
  function EagerOf(s: State, l: Label): EagerLabel {
    match l
    case Write(e, v, off, b) => EWrite(e, v, off, b)
    case ForkStart(e, c) => EFork(e, c)
    case Dup(e) =>
      if s.Th(e).fork.Scan? && !CopiesNow(s, e, s.Th(e).fork.v) then ESkip else ECopy(e)
    case Mark(e) =>
      if s.Th(e).fork.Marking? && Hidden(s, Key(s.Th(e).fork.child, s.Th(e).fork.v)) then ECopy(e) else ESkip
    case ForkDone(e, _) => EDone(e)
    case _ => if IsCall(l) then ECall(l) else ESkip
  }

  /** Copy-on-write fork refines eager copying, one step at a time. */
  lemma StepRefines(s: State, l: Label)
    requires Inv(s) && Enabled(s, l)
    ensures EagerStep(Abs(s), EagerOf(s, l), Abs(Next(s, l)))
  {
    match l
    case Write(_, _, _, _) => WriteStep(s, l);
    case FaultAlloc(_, _, _) => FaultAllocSame(s, l);
    case CopyByte(_) => CopyByteSame(s, l);
    case FaultUnmap(_) => FaultUnmapSame(s, l);
    case FaultMap(_) => FaultMapSame(s, l);
    case FaultDone(_) => FaultDoneSame(s, l);
    case ForkStart(_, _) => ForkStartStep(s, l);
    case Dup(_) => DupStep(s, l);
    case Mark(_) => MarkStep(s, l);
    case ForkDone(_, _) => ForkDoneStep(s, l);
    case _ => CallStep(s, l);
  }

  /** The state after the labels of `run`, taken in order. */
  function After(s: State, run: seq<Label>): State {
    if run == [] then s else Next(After(s, run[..|run| - 1]), run[|run| - 1])
  }

  predicate Possible(s: State, run: seq<Label>) {
    run == [] || (Possible(s, run[..|run| - 1]) && Enabled(After(s, run[..|run| - 1]), run[|run| - 1]))
  }

  /** The eager steps that a run stands for. */
  function EagerTrace(s: State, run: seq<Label>): seq<EagerLabel> {
    if run == [] then [] else EagerTrace(s, run[..|run| - 1]) + [EagerOf(After(s, run[..|run| - 1]), run[|run| - 1])]
  }

  /** The views of memory along a run. */
  ghost function Views(s: State, run: seq<Label>): (views: seq<Eager>)
    ensures |views| == |run| + 1
  {
    if run == [] then [Abs(s)] else Views(s, run[..|run| - 1]) + [Abs(After(s, run))]
  }

  ghost predicate EagerRun(views: seq<Eager>, trace: seq<EagerLabel>) {
    |views| == |trace| + 1 && forall i :: 0 <= i < |trace| ==> EagerStep(views[i], trace[i], views[i + 1])
  }

  /** Whatever environments do after `Init` (forks, writes, faults, in any
      interleaving), their views of memory are a run of the eager machine. */
  lemma {:induction false} RunRefines(s: State, run: seq<Label>)
    requires Init(s) && Possible(s, run)
    ensures Inv(After(s, run)) && Views(s, run)[|run|] == Abs(After(s, run))
    ensures |EagerTrace(s, run)| == |run| && EagerRun(Views(s, run), EagerTrace(s, run))
  {
    if run == [] {
      InitInv(s);
    } else {
      var before := run[..|run| - 1];
      RunRefines(s, before);
      StepInv(After(s, before), run[|run| - 1]);
      StepRefines(After(s, before), run[|run| - 1]);
    }
  }

  ghost function EagerBytes(a: Eager, k: Key): Bytes {
    if k !in a.cells then [] else
      match a.cells[k]
      case Private(b, _) => b
      case Shared(p, _) => if p in a.shared then a.shared[p] else []
  }

  /** What a load returns in the concrete machine is what the eager machine holds there. */
  lemma ReadsAgree(s: State, k: Key)
    requires Inv(s) && s.User(k.env) && k in s.pt
    ensures k in Abs(s).cells && EagerBytes(Abs(s), k) == s.Mem(s.pt[k].page)
  {
    assert EnvOk(s, k.env);
    CellsAt(s, k);
  }

  /** Isolation: a write is visible to no other environment outside PTE_SHARE pages. */
  lemma WritesIsolated(s: State, l: Label, k: Key)
    requires Inv(s) && l.Write? && Enabled(s, l) && k.env != l.e && k in Abs(s).cells && Abs(s).cells[k].Private?
    ensures k in Abs(Next(s, l)).cells && EagerBytes(Abs(Next(s, l)), k) == EagerBytes(Abs(s), k)
  {
    WriteStep(s, l);
  }

  /** Outside the two windows a page with several mappings and no PTE_SHARE is writable nowhere. */
  lemma MultiplyMappedReadOnly(s: State, a: Key, b: Key)
    requires Inv(s) && a in s.pt && b in s.pt && a != b && s.pt[a].page == s.pt[b].page && s.pt[a].page !in s.shared
    requires !s.Th(a.env).fork.Marking? && s.Th(a.env).fault.Idle?
    ensures !s.pt[a].w
  {
    assert PairOk(s, a, b);
  }
}
