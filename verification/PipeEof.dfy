/** End-of-file detection on pipes: `_pipeisclosed` of lib/pipe.c compares the reference
    counts of two shared pages while `dup` and `close` of lib/fd.c change them one
    system call at a time, under preemption on one CPU. */
module PipeEof {

  /** The descriptor page of the read end, of the write end, or of anything else. */
  datatype FdPage = R | W | OtherFd

  /** The data page of a descriptor: the pipe in question, or anything else. */
  datatype DataPage = Pipe | OtherData

  /** Descriptor slot `i` of an environment: a descriptor page and a data page. */
  datatype Slot = Slot(env: nat, i: nat)

  /** What follows a `close`: nothing, or the rest of `dup`. */
  datatype Then = Return | Dup(old_: nat, new_: nat)

  /** The next system call (or load) of an environment. */
  datatype Pc =
    | Ready
    | CloseUnmapFd(i: nat, then_: Then)
    | CloseUnmapData(i: nat, then_: Then)
    | CloseUnmapFdAgain(i: nat, then_: Then)
    | DupMapData(old_: nat, new_: nat)
    | DupMapFd(old_: nat, new_: nat)
    | DupFailFd(new_: nat)
    | DupFailData(new_: nat)
    | ReadFdRef(i: nat, n: nat)
    | ReadPipeRef(i: nat, n: nat, r: nat)
    | CompareRuns(i: nat, n: nat, r: nat, p: nat)

  datatype Env = Env(pc: Pc, runs: nat)

  datatype State = State(cur: nat, envs: map<nat, Env>, fd: map<Slot, FdPage>, data: map<Slot, DataPage>)
  {
    function Pc(e: nat): Pc {
      if e in envs then envs[e].pc else Ready
    }
    function Runs(e: nat): nat {
      if e in envs then envs[e].runs else 0
    }
    predicate HasEnd(k: Slot) {
      k in fd && !fd[k].OtherFd?
    }
    predicate HasPipe(k: Slot) {
      k in data && data[k].Pipe?
    }
  }

  /** Mappings of the descriptor page `x`, and of the pipe page. */
  function FdRefs(s: State, x: FdPage): set<Slot> {
    set k | k in s.fd && s.fd[k] == x
  }

  function PipeRefs(s: State): set<Slot> {
    set k | k in s.data && s.data[k] == Pipe
  }

  // -------------------------------------------------------------------- steps

  datatype Label =
    | Switch(e: nat)
    | Close(i: nat)
    | DupFds(old_: nat, new_: nat)
    | Check(i: nat)
    | Advance(ok: bool)
    | Fork(child: nat)
    | Exit(next: nat)
    | Kill(e: nat)
    | OpenOther(i: nat)

  function SetPc(s: State, pc: Pc): State {
    if s.cur in s.envs then s.(envs := s.envs[s.cur := s.envs[s.cur].(pc := pc)]) else s
  }

  function Resume(t: Then): Pc {
    match t case Return => Ready case Dup(o, n) => DupMapData(o, n)
  }

  /** `close`: a pipe descriptor goes through `devpipe_close`, any other one straight to
      the final unmap of `fd_close`. */
  function StartClose(s: State, i: nat, t: Then): State {
    var k := Slot(s.cur, i);
    if k !in s.fd then SetPc(s, Resume(t))
    else SetPc(s, if s.fd[k].OtherFd? then CloseUnmapFdAgain(i, t) else CloseUnmapFd(i, t))
  }

  /** One system call of the running environment; `ok` is false if a map call finds no memory. */
  function Call(s: State, ok: bool): State {
    var e := s.cur;
    match s.Pc(e)
    case Ready => s
    case CloseUnmapFd(i, t) => SetPc(s.(fd := s.fd - {Slot(e, i)}), CloseUnmapData(i, t))
    case CloseUnmapData(i, t) => SetPc(s.(data := s.data - {Slot(e, i)}), CloseUnmapFdAgain(i, t))
    case CloseUnmapFdAgain(i, t) => SetPc(s.(fd := s.fd - {Slot(e, i)}), Resume(t))
    case DupMapData(o, n) =>
      if Slot(e, o) !in s.data then SetPc(s, DupMapFd(o, n))
      else if ok then SetPc(s.(data := s.data[Slot(e, n) := s.data[Slot(e, o)]]), DupMapFd(o, n))
      else SetPc(s, DupFailFd(n))
    case DupMapFd(o, n) =>
      if Slot(e, o) in s.fd && ok then SetPc(s.(fd := s.fd[Slot(e, n) := s.fd[Slot(e, o)]]), Ready)
      else SetPc(s, DupFailFd(n))
    case DupFailFd(n) => SetPc(s.(fd := s.fd - {Slot(e, n)}), DupFailData(n))
    case DupFailData(n) => SetPc(s.(data := s.data - {Slot(e, n)}), Ready)
    case ReadFdRef(i, n) =>
      SetPc(s, ReadPipeRef(i, n, if Slot(e, i) in s.fd then |FdRefs(s, s.fd[Slot(e, i)])| else 0))
    case ReadPipeRef(i, n, r) => SetPc(s, CompareRuns(i, n, r, |PipeRefs(s)|))
    case CompareRuns(i, n, r, p) => SetPc(s, if n == s.Runs(e) then Ready else ReadFdRef(i, s.Runs(e)))
  }

  predicate Enabled(s: State, l: Label) {
    s.cur in s.envs &&
    match l
    case Switch(e) => e in s.envs
    case Close(i) => s.Pc(s.cur).Ready?
    case DupFds(o, n) => s.Pc(s.cur).Ready? && Slot(s.cur, o) in s.fd
    case Check(i) => s.Pc(s.cur).Ready? && s.HasEnd(Slot(s.cur, i))
    case Advance(_) => !s.Pc(s.cur).Ready?
    case Fork(c) => s.Pc(s.cur).Ready? && c !in s.envs
    case Exit(e) => s.Pc(s.cur).Ready? && e in s.envs && e != s.cur
    case Kill(e) => s.Pc(s.cur).Ready? && e in s.envs && e != s.cur
    case OpenOther(i) => s.Pc(s.cur).Ready? && Slot(s.cur, i) !in s.fd
  }

  function Inherit<T>(m: map<Slot, T>, p: nat, c: nat): map<Slot, T> {
    m + map k | k in (set x | x in m && x.env == p :: Slot(c, x.i)) && Slot(p, k.i) in m :: m[Slot(p, k.i)]
  }

  function Without<T>(m: map<Slot, T>, e: nat): map<Slot, T> {
    map k | k in m && k.env != e :: m[k]
  }

  /** `env_run`: the counter tells an environment that it was switched out. */
  function RunEnv(s: State, e: nat): State {
    if e in s.envs then s.(cur := e, envs := s.envs[e := s.envs[e].(runs := s.envs[e].runs + 1)]) else s
  }

  /** The kernel frees an environment and all its mappings at once. */
  function Remove(s: State, e: nat): State {
    s.(envs := s.envs - {e}, fd := Without(s.fd, e), data := Without(s.data, e))
  }

  function Next(s: State, l: Label): State {
    match l
    case Switch(e) => RunEnv(s, e)
    case Close(i) => StartClose(s, i, Return)
    case DupFds(o, n) => StartClose(s, n, Dup(o, n))
    case Check(i) => SetPc(s, ReadFdRef(i, s.Runs(s.cur)))
    case Advance(ok) => Call(s, ok)
    case Fork(c) =>
      s.(envs := s.envs[c := Env(Ready, 0)], fd := Inherit(s.fd, s.cur, c), data := Inherit(s.data, s.cur, c))
    case Exit(e) => RunEnv(Remove(s, s.cur), e)
    case Kill(e) => Remove(s, e)
    case OpenOther(i) => s.(fd := s.fd[Slot(s.cur, i) := OtherFd])
  }

  // ---------------------------------------------------------------- invariant

  /** The pipe page is mapped without a descriptor page: an operation on this slot has
      made one of its two calls. */
  predicate InFlight(s: State, k: Slot) {
    s.HasPipe(k) && k !in s.fd && k.env in s.envs &&
    match s.Pc(k.env)
    case CloseUnmapData(i, _) => i == k.i
    case DupMapFd(_, n) => n == k.i
    case DupFailFd(n) => n == k.i
    case DupFailData(n) => n == k.i
    case _ => false
  }

  predicate SlotOk(s: State, k: Slot) {
    && (k in s.fd || k in s.data ==> k.env in s.envs)
    && (s.HasPipe(k) <==> s.HasEnd(k) || InFlight(s, k))
  }

  /** Not switched out since the counter was read. */
  predicate Steady(s: State, e: nat, n: nat) {
    s.cur == e && s.Runs(e) == n
  }

  predicate FdRefIs(s: State, k: Slot, r: nat) {
    k in s.fd && r == |FdRefs(s, s.fd[k])|
  }

  /** `dup` closes the slot it is about to fill. */
  predicate ThenOk(i: nat, t: Then) {
    t.Dup? ==> t.new_ == i
  }

  predicate PcOk(s: State, e: nat) {
    e in s.envs ==>
      match s.Pc(e)
      case Ready => true
      case CloseUnmapFd(i, t) => ThenOk(i, t) && s.HasEnd(Slot(e, i))
      case CloseUnmapData(i, t) => ThenOk(i, t) && Slot(e, i) !in s.fd && s.HasPipe(Slot(e, i))
      case CloseUnmapFdAgain(i, t) => ThenOk(i, t) && !s.HasEnd(Slot(e, i)) && !s.HasPipe(Slot(e, i))
      case DupMapData(_, n) => Slot(e, n) !in s.fd && !s.HasPipe(Slot(e, n))
      case DupMapFd(o, n) => Slot(e, n) !in s.fd && (s.HasPipe(Slot(e, n)) <==> o != n && s.HasEnd(Slot(e, o)))
      case DupFailFd(n) => Slot(e, n) !in s.fd
      case DupFailData(n) => Slot(e, n) !in s.fd
      case ReadFdRef(i, n) => s.HasEnd(Slot(e, i)) && n <= s.Runs(e)
      case ReadPipeRef(i, n, r) =>
        s.HasEnd(Slot(e, i)) && n <= s.Runs(e) && (Steady(s, e, n) ==> FdRefIs(s, Slot(e, i), r))
      case CompareRuns(i, n, r, p) =>
        s.HasEnd(Slot(e, i)) && n <= s.Runs(e) && (Steady(s, e, n) ==> FdRefIs(s, Slot(e, i), r) && p == |PipeRefs(s)|)
  }

  ghost predicate Inv(s: State) {
    && (forall k :: SlotOk(s, k))
    && (forall e: nat :: PcOk(s, e))
  }

  /** Right after `pipe`: nobody is inside an operation, and a slot holds the pipe page
      exactly when it holds one of its ends. */
  ghost predicate Init(s: State) {
    && (forall e: nat :: e in s.envs ==> s.envs[e].pc.Ready?)
    && (forall k :: (k in s.fd || k in s.data ==> k.env in s.envs) && (s.HasPipe(k) <==> s.HasEnd(k)))
  }

  lemma InitInv(s: State)
    requires Init(s)
    ensures Inv(s)
  {
    forall k ensures SlotOk(s, k) { }
    forall e: nat ensures PcOk(s, e) { }
  }

  lemma SwitchInv(s: State, e: nat)
    requires Inv(s) && e in s.envs
    ensures Inv(RunEnv(s, e))
  {
    var t := RunEnv(s, e);
    forall k ensures SlotOk(t, k) { assert SlotOk(s, k); }
    forall x: nat ensures PcOk(t, x) { assert PcOk(s, x); }
  }

  lemma CloseInv(s: State, i: nat, then_: Then)
    requires Inv(s) && s.cur in s.envs && s.Pc(s.cur).Ready? && ThenOk(i, then_)
    ensures Inv(StartClose(s, i, then_))
  {
    var t := StartClose(s, i, then_);
    forall k ensures SlotOk(t, k) { assert SlotOk(s, k); }
    assert SlotOk(s, Slot(s.cur, i));
    forall x: nat ensures PcOk(t, x) { assert PcOk(s, x); }
  }

  lemma CheckInv(s: State, l: Label)
    requires Inv(s) && l.Check? && Enabled(s, l)
    ensures Inv(Next(s, l))
  {
    var t := Next(s, l);
    forall k ensures SlotOk(t, k) { assert SlotOk(s, k); }
    forall x: nat ensures PcOk(t, x) { assert PcOk(s, x); }
  }

  lemma InheritAt<T>(m: map<Slot, T>, p: nat, c: nat, k: Slot)
    ensures k in Inherit(m, p, c) <==> k in m || (k.env == c && Slot(p, k.i) in m)
    ensures k in Inherit(m, p, c) ==>
      Inherit(m, p, c)[k] == if k.env == c && Slot(p, k.i) in m then m[Slot(p, k.i)] else m[k]
  {
    assert k == Slot(k.env, k.i);
    if k.env == c && Slot(p, k.i) in m {
      assert Slot(c, Slot(p, k.i).i) == k;
    }
  }

  lemma ForkInv(s: State, l: Label)
    requires Inv(s) && l.Fork? && Enabled(s, l)
    ensures Inv(Next(s, l))
  {
    var t := Next(s, l);
    forall k ensures SlotOk(t, k) { ForkSlotOk(s, l, k); }
    forall x: nat ensures PcOk(t, x) { ForkPcOk(s, l, x); }
  }

  lemma ForkSlotOk(s: State, l: Label, k: Slot)
    requires Inv(s) && l.Fork? && Enabled(s, l)
    ensures SlotOk(Next(s, l), k)
  {
    assert SlotOk(s, k) && SlotOk(s, Slot(s.cur, k.i));
    InheritAt(s.fd, s.cur, l.child, k);
    InheritAt(s.data, s.cur, l.child, k);
  }

  lemma ForkPcOk(s: State, l: Label, x: nat)
    requires Inv(s) && l.Fork? && Enabled(s, l)
    ensures PcOk(Next(s, l), x)
  {
    var t := Next(s, l);
    assert PcOk(s, x) && PcOk(s, s.cur);
    forall i: nat | x in s.envs
      ensures (Slot(x, i) in t.fd <==> Slot(x, i) in s.fd) && (Slot(x, i) in t.data <==> Slot(x, i) in s.data)
      ensures (t.HasEnd(Slot(x, i)) <==> s.HasEnd(Slot(x, i))) && (t.HasPipe(Slot(x, i)) <==> s.HasPipe(Slot(x, i)))
    {
      InheritAt(s.fd, s.cur, l.child, Slot(x, i));
      InheritAt(s.data, s.cur, l.child, Slot(x, i));
    }
  }

  lemma RemoveInv(s: State, e: nat)
    requires Inv(s) && s.Pc(s.cur).Ready?
    ensures Inv(Remove(s, e))
  {
    var t := Remove(s, e);
    forall k ensures SlotOk(t, k) { assert SlotOk(s, k); }
    forall x: nat ensures PcOk(t, x) { assert PcOk(s, x); }
  }

  lemma OpenInv(s: State, l: Label)
    requires Inv(s) && l.OpenOther? && Enabled(s, l)
    ensures Inv(Next(s, l))
  {
    var t := Next(s, l);
    forall k ensures SlotOk(t, k) { assert SlotOk(s, k); }
    forall x: nat ensures PcOk(t, x) { assert PcOk(s, x); }
  }

  lemma CallInv(s: State, ok: bool)
    requires Inv(s) && s.cur in s.envs
    ensures Inv(Call(s, ok))
  {
    var t := Call(s, ok);
    forall k ensures SlotOk(t, k) { CallSlotOk(s, ok, k); }
    forall x: nat ensures PcOk(t, x) { if x == s.cur { CallPcOk(s, ok); } else { CallOtherOk(s, ok, x); } }
  }

  lemma CallSlotOk(s: State, ok: bool, k: Slot)
    requires Inv(s) && s.cur in s.envs
    ensures SlotOk(Call(s, ok), k)
  {
    assert PcOk(s, s.cur) && SlotOk(s, k) && SlotOk(s, CallSlot(s));
  }

  lemma CallPcOk(s: State, ok: bool)
    requires Inv(s) && s.cur in s.envs
    ensures PcOk(Call(s, ok), s.cur)
  {
    assert PcOk(s, s.cur) && SlotOk(s, CallSlot(s));
  }

  /** Slot `k` maps what it did. */
  predicate SameSlot(s: State, t: State, k: Slot) {
    && (k in t.fd <==> k in s.fd) && (k in s.fd ==> t.fd[k] == s.fd[k])
    && (k in t.data <==> k in s.data) && (k in s.data ==> t.data[k] == s.data[k])
  }

  /** A system call changes slots of its caller only. */
  lemma CallLocal(s: State, ok: bool, k: Slot)
    requires s.cur in s.envs && k.env != s.cur
    ensures SameSlot(s, Call(s, ok), k)
    ensures var t := Call(s, ok); t.cur == s.cur && t.envs.Keys == s.envs.Keys && t.Pc(k.env) == s.Pc(k.env)
    ensures Call(s, ok).Runs(k.env) == s.Runs(k.env)
  {
  }

  lemma OtherPcOk(s: State, t: State, x: nat)
    requires PcOk(s, x) && x != s.cur == t.cur && t.envs.Keys == s.envs.Keys && t.Pc(x) == s.Pc(x)
    requires t.Runs(x) == s.Runs(x) && forall i: nat :: SameSlot(s, t, Slot(x, i))
    ensures PcOk(t, x)
  {
  }

  lemma CallOtherOk(s: State, ok: bool, x: nat)
    requires Inv(s) && s.cur in s.envs && x != s.cur
    ensures PcOk(Call(s, ok), x)
  {
    assert PcOk(s, x);
    CallLocal(s, ok, Slot(x, 0));
    forall i: nat ensures SameSlot(s, Call(s, ok), Slot(x, i)) { CallLocal(s, ok, Slot(x, i)); }
    OtherPcOk(s, Call(s, ok), x);
  }

  /** The slot the next call reads from. */
  function CallSlot(s: State): Slot {
    match s.Pc(s.cur)
    case CloseUnmapFd(i, _) => Slot(s.cur, i)
    case DupMapData(o, _) => Slot(s.cur, o)
    case DupMapFd(o, _) => Slot(s.cur, o)
    case _ => Slot(s.cur, 0)
  }

  lemma StepInv(s: State, l: Label)
    requires Inv(s) && Enabled(s, l)
    ensures Inv(Next(s, l))
  {
    match l
    case Switch(e) => SwitchInv(s, e);
    case Close(i) => CloseInv(s, i, Return);
    case DupFds(o, n) => CloseInv(s, n, Dup(o, n));
    case Check(_) => CheckInv(s, l);
    case Advance(ok) => CallInv(s, ok);
    case Fork(_) => ForkInv(s, l);
    case Exit(e) => RemoveInv(s, s.cur); SwitchInv(Remove(s, s.cur), e);
    case Kill(e) => RemoveInv(s, e);
    case OpenOther(_) => OpenInv(s, l);
  }

  // ------------------------------------------------------------- main results

  ghost function Pending(s: State): set<Slot> {
    set k | k in s.data && InFlight(s, k)
  }

  /** pageref(pipe) = pageref(rfd) + pageref(wfd) + operations in flight. */
  lemma RefCounts(s: State)
    requires Inv(s)
    ensures |PipeRefs(s)| == |FdRefs(s, R)| + |FdRefs(s, W)| + |Pending(s)|
  {
    forall k ensures InOne(PipeRefs(s), FdRefs(s, R), FdRefs(s, W), Pending(s), k) { assert SlotOk(s, k); }
    ThreeParts(PipeRefs(s), FdRefs(s, R), FdRefs(s, W), Pending(s));
  }

  /** `k` is in `all` exactly if it is in one of three sets, and in one only. */
  predicate InOne(all: set<Slot>, a: set<Slot>, b: set<Slot>, c: set<Slot>, k: Slot) {
    (k in all <==> k in a || k in b || k in c) && !(k in a && k in b) && !(k in a && k in c) && !(k in b && k in c)
  }

  lemma ThreeParts(all: set<Slot>, a: set<Slot>, b: set<Slot>, c: set<Slot>)
    requires forall k :: InOne(all, a, b, c, k)
    ensures |all| == |a| + |b| + |c|
  {
    forall k ensures k in all <==> k in a + b + c { assert InOne(all, a, b, c, k); }
    forall k ensures !(k in a && k in b) && !(k in a + b && k in c) { assert InOne(all, a, b, c, k); }
    assert all == a + b + c;
  }

  function OtherEnd(x: FdPage): FdPage {
    match x case R => W case W => R case OtherFd => OtherFd
  }

  /** `_pipeisclosed` is about to return 1: the counter did not move and the counts agree. */
  predicate ReturnsClosed(s: State, e: nat) {
    s.cur == e && e in s.envs && s.Pc(e).CompareRuns? && s.Pc(e).n == s.Runs(e) && s.Pc(e).r == s.Pc(e).p
  }

  /** No false end-of-file: whoever is told so holds one end, and the other end is mapped
      nowhere, with no operation on the pipe under way. */
  lemma ClosedMeansGone(s: State, e: nat)
    requires Inv(s) && ReturnsClosed(s, e)
    ensures var k := Slot(e, s.Pc(e).i);
      s.HasEnd(k) && FdRefs(s, OtherEnd(s.fd[k])) == {} && Pending(s) == {}
  {
    assert PcOk(s, e) && Steady(s, e, s.Pc(e).n);
    RefCounts(s);
  }

  /** Conversely, with the other end gone and nothing in flight the counts agree. */
  lemma GoneMeansEqual(s: State, k: Slot)
    requires Inv(s) && s.HasEnd(k) && FdRefs(s, OtherEnd(s.fd[k])) == {} && Pending(s) == {}
    ensures |FdRefs(s, s.fd[k])| == |PipeRefs(s)|
  {
    RefCounts(s);
  }

  lemma StaysGone(s: State, l: Label, x: FdPage)
    requires Enabled(s, l) && x != OtherFd && FdRefs(s, x) == {}
    ensures FdRefs(Next(s, l), x) == {}
  {
    var t := Next(s, l);
    forall k | k in t.fd ensures t.fd[k] != x {
      if t.fd[k] == x {
        GoneAt(s, x, k);
        GoneAt(s, x, CallSlot(s));
        GoneAt(s, x, Slot(s.cur, k.i));
      }
    }
  }

  lemma GoneAt(s: State, x: FdPage, k: Slot)
    requires FdRefs(s, x) == {}
    ensures k in s.fd ==> s.fd[k] != x
  {
    assert k in s.fd && s.fd[k] == x ==> k in FdRefs(s, x);
  }

  function After(s: State, run: seq<Label>): State {
    if run == [] then s else Next(After(s, run[..|run| - 1]), run[|run| - 1])
  }

  predicate Possible(s: State, run: seq<Label>) {
    run == [] || (Possible(s, run[..|run| - 1]) && Enabled(After(s, run[..|run| - 1]), run[|run| - 1]))
  }

  lemma {:induction false} RunInv(s: State, run: seq<Label>)
    requires Init(s) && Possible(s, run)
    ensures Inv(After(s, run))
  {
    if run == [] {
      InitInv(s);
    } else {
      RunInv(s, run[..|run| - 1]);
      StepInv(After(s, run[..|run| - 1]), run[|run| - 1]);
    }
  }

  lemma {:induction false} GoneForEver(s: State, run: seq<Label>, x: FdPage)
    requires Possible(s, run) && x != OtherFd && FdRefs(s, x) == {}
    ensures FdRefs(After(s, run), x) == {}
  {
    if run != [] {
      GoneForEver(s, run[..|run| - 1], x);
      StaysGone(After(s, run[..|run| - 1]), run[|run| - 1], x);
    }
  }

  /** In every run: once an environment is told the pipe is closed, the other end is
      mapped nowhere, and in every continuation it stays so. */
  lemma NoFalseEof(s: State, run: seq<Label>, e: nat, more: seq<Label>)
    requires Init(s) && Possible(s, run) && ReturnsClosed(After(s, run), e) && Possible(After(s, run), more)
    ensures var t := After(s, run); var k := Slot(e, t.Pc(e).i);
      t.HasEnd(k) && FdRefs(After(t, more), OtherEnd(t.fd[k])) == {}
  {
    RunInv(s, run);
    ClosedMeansGone(After(s, run), e);
    var t := After(s, run);
    GoneForEver(t, more, OtherEnd(t.fd[Slot(e, t.Pc(e).i)]));
  }
}
