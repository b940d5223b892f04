/** Dispatching and IPC on any number of CPUs (kern/sched.c, kern/env.c, kern/syscall.c).
    Kernel entries run under one lock, so each is one step; states are those at which the
    lock is free. */
module Dispatch {

  import opened Options

  datatype Status = Free | Dying | Runnable | Running | NotRunnable

  // ------------------------------------------------------ the round-robin scan

  /** The slot after `i`, cyclically. */
  function After(i: nat, n: nat): (j: nat)
    requires i < n
    ensures j < n
  {
    if i + 1 == n then 0 else i + 1
  }

  /** The first runnable slot among `n` slots from `i` on, cyclically. */
  function Scan(st: seq<Status>, i: nat, n: nat): (r: Option<nat>)
    requires i < |st|
    ensures r.Some? ==> r.value < |st| && st[r.value].Runnable?
    decreases n
  {
    if n == 0 then None
    else if st[i].Runnable? then Some(i)
    else Scan(st, After(i, |st|), n - 1)
  }

  /** Steps forward from slot `a` to slot `b`. */
  function Distance(a: nat, b: nat, n: nat): (d: nat)
    requires a < n && b < n
    ensures d < n && (d == 0 <==> a == b)
  {
    if a <= b then b - a else b + n - a
  }

  /** The scan stops at the runnable slot nearest ahead, and stops if there is one. */
  lemma {:induction false} ScanNearest(st: seq<Status>, i: nat, n: nat, k: nat)
    requires i < |st| && k < |st| && st[k].Runnable? && Distance(i, k, |st|) < n
    ensures Scan(st, i, n).Some? && Distance(i, Scan(st, i, n).value, |st|) <= Distance(i, k, |st|)
    decreases n
  {
    if !st[i].Runnable? {
      ScanNearest(st, After(i, |st|), n - 1, k);
    }
  }

  /** The search loop of `sched_yield`: from `start` once round, `start` itself first. */
  method FindRunnable(st: seq<Status>, start: nat) returns (r: Option<nat>)
    requires start < |st|
    ensures r == Scan(st, start, |st|)
    ensures r.None? <==> forall k :: 0 <= k < |st| ==> !st[k].Runnable?
  {
    var i, first := start, true;
    ghost var left := |st|;
    while i != start || first
      invariant 0 <= i < |st| && 0 <= left <= |st| && first == (left == |st|)
      invariant Scan(st, start, |st|) == Scan(st, i, left)
      invariant if left == 0 then i == start
                else i == if start + (|st| - left) < |st| then start + (|st| - left) else start - left
      decreases left
    {
      if st[i].Runnable? {
        return Some(i);
      }
      WrapAround(i, |st|);
      i := (i + 1) % |st|;
      first := false;
      left := left - 1;
    }
    assert left == 0;
    forall k | 0 <= k < |st| ensures !st[k].Runnable? {
      if st[k].Runnable? { ScanNearest(st, start, |st|, k); }
    }
    return None;
  }

  lemma WrapAround(i: nat, n: nat)
    requires i < n
    ensures (i + 1) % n == After(i, n)
  {
  }

  lemma {:induction false} ScanLonger(st: seq<Status>, i: nat, n: nat)
    requires i < |st| && Scan(st, i, n).Some?
    ensures Scan(st, i, n + 1) == Scan(st, i, n)
    decreases n
  {
    if !st[i].Runnable? { ScanLonger(st, After(i, |st|), n - 1); }
  }

  /** The comment promises a search from the slot after the current one.  The code starts at
      the current one, and finds the same exactly when that one is not runnable or no other is. */
  lemma {:induction false} StartsAtCurrentIff(st: seq<Status>, start: nat)
    requires start < |st| && |st| > 1
    ensures Scan(st, start, |st|) == Scan(st, After(start, |st|), |st|)
       <==> !st[start].Runnable? || forall k :: 0 <= k < |st| && k != start ==> !st[k].Runnable?
  {
    var next := After(start, |st|);
    if st[start].Runnable? {
      ScanNearest(st, next, |st|, start);
      forall k | 0 <= k < |st| && k != start && st[k].Runnable? ensures Scan(st, next, |st|) != Some(start) {
        ScanNearest(st, next, |st|, k);
      }
    } else if Scan(st, next, |st| - 1).Some? {
      ScanLonger(st, next, |st| - 1);
    } else if Scan(st, next, |st|).Some? {
      ScanNearest(st, next, |st| - 1, Scan(st, next, |st|).value);
    }
  }

  /** Two runnable slots: the code stays with the current one. */
  lemma StaysWithCurrent()
    ensures var st := [Runnable, Runnable]; Scan(st, 0, 2) == Some(0) && Scan(st, After(0, 2), 2) == Some(1)
  {
  }

  // -------------------------------------------------------------- the machine

  /** env_ipc_from, env_ipc_value and env_ipc_perm. */
  datatype Msg = Msg(from: nat, value: nat, perm: nat)

  /** One slot of envs[].  `cpu` is where it runs while active.  `recvs` counts the calls of
      sys_ipc_recv that blocked, `sends` the sends that completed one, and `last` is the
      message of the latest of those sends; these three are history, not kernel state. */
  datatype Env = Env(status: Status, cpu: nat, recving: bool, msg: Msg, recvs: nat, sends: nat, last: Msg)

  /** `cpus[c]` is curenv of CPU c, None while it is halted. */
  datatype State = State(envs: seq<Env>, cpus: seq<Option<nat>>)

  predicate Active(e: Env) {
    e.status.Running? || e.status.Dying?
  }

  function Statuses(s: State): seq<Status> {
    seq(|s.envs|, i requires 0 <= i < |s.envs| => s.envs[i].status)
  }

  function Put(s: State, i: nat, e: Env): State {
    if i < |s.envs| then s.(envs := s.envs[i := e]) else s
  }

  function SetStatusOf(s: State, i: nat, st: Status): State {
    if i < |s.envs| then Put(s, i, s.envs[i].(status := st)) else s
  }

  function SetCpu(s: State, c: nat, e: Option<nat>): State {
    if c < |s.cpus| then s.(cpus := s.cpus[c := e]) else s
  }

  function Cur(s: State, c: nat): Option<nat> {
    if c < |s.cpus| then s.cpus[c] else None
  }

  predicate CurRuns(s: State, c: nat) {
    Cur(s, c).Some? && Cur(s, c).value < |s.envs| && s.envs[Cur(s, c).value].status.Running?
  }

  /** `env_run` of slot `i` on CPU `c`. */
  function RunEnv(s: State, c: nat, i: nat): State {
    if i >= |s.envs| then s else
      var t := if CurRuns(s, c) then SetStatusOf(s, Cur(s, c).value, Runnable) else s;
      SetCpu(Put(t, i, t.envs[i].(status := Running, cpu := c)), c, Some(i))
  }

  /** `sched_yield`: the next runnable environment, else the current one, else halt. */
  function Yield(s: State, c: nat): State {
    var start := if Cur(s, c).Some? then Cur(s, c).value else 0;
    if start >= |s.envs| then s else
      match Scan(Statuses(s), start, |s.envs|)
      case Some(i) => RunEnv(s, c, i)
      case None => if CurRuns(s, c) then RunEnv(s, c, Cur(s, c).value) else SetCpu(s, c, None)
  }

  /** What became of the page argument of a send. */
  datatype PageArg = NoPage | Rejected | Mapped(perm: nat)

  datatype Label =
    | Timer(c: nat)
    | Exofork(c: nat, t: nat)
    | SetStatus(c: nat, t: nat, st: Status)
    | Send(c: nat, t: nat, value: nat, page: PageArg)
    | Recv(c: nat, aligned: bool)
    | Destroy(c: nat, t: nat)
    | Reap(c: nat)

  /** `sys_ipc_try_send` past its checks on the target. */
  function Deliver(e: Env, from: nat, value: nat, page: PageArg): Env {
    var m := Msg(from, value, if page.Mapped? then page.perm else 0);
    if page.Rejected? then e.(msg := m)
    else e.(msg := m, recving := false, status := Runnable, sends := e.sends + 1, last := m)
  }

  /** The end of a trap: back to the current environment if it may go on. */
  function Leave(s: State, c: nat): State {
    if CurRuns(s, c) then RunEnv(s, c, Cur(s, c).value) else Yield(s, c)
  }

  predicate Enabled(s: State, l: Label) {
    l.c < |s.cpus| &&
    match l
    case Timer(c) => Cur(s, c).None? || CurRuns(s, c)
    case Exofork(c, t) => CurRuns(s, c) && t < |s.envs| && s.envs[t].status.Free?
    case SetStatus(c, t, st) =>
      CurRuns(s, c) && t < |s.envs| && !s.envs[t].status.Free? && (st.Runnable? || st.NotRunnable?)
    case Send(c, t, _, _) => CurRuns(s, c) && t < |s.envs|
    case Recv(c, _) => CurRuns(s, c)
    case Destroy(c, t) => CurRuns(s, c) && t < |s.envs| && !s.envs[t].status.Free?
    case Reap(c) => Cur(s, c).Some? && Cur(s, c).value < |s.envs| && s.envs[Cur(s, c).value].status.Dying?
  }

  function Next(s: State, l: Label): State {
    if l.c >= |s.cpus| || |s.envs| == 0 then s else
    var cur := if s.cpus[l.c].Some? then s.cpus[l.c].value else 0;
    match l
    case Timer(c) => Yield(s, c)
    case Exofork(c, t) =>
      if t >= |s.envs| then s else
      Leave(Put(s, t, Env(NotRunnable, 0, false, s.envs[t].msg, 0, 0, s.envs[t].last)), c)
    case SetStatus(c, t, st) => Leave(SetStatusOf(s, t, st), c)
    case Send(c, t, value, page) =>
      if t >= |s.envs| || s.envs[t].status.Free? || !s.envs[t].recving then Leave(s, c)
      else Leave(Put(s, t, Deliver(s.envs[t], cur, value, page)), c)
    case Recv(c, aligned) =>
      if !aligned || cur >= |s.envs| then Leave(s, c)
      else Yield(Put(s, cur, s.envs[cur].(recving := true, status := NotRunnable, recvs := s.envs[cur].recvs + 1)), c)
    case Destroy(c, t) =>
      if t >= |s.envs| then s
      else if s.envs[t].status.Running? && t != cur then Leave(SetStatusOf(s, t, Dying), c)
      else if t == cur then Yield(SetCpu(SetStatusOf(s, t, Free), c, None), c)
      else Leave(SetStatusOf(s, t, Free), c)
    case Reap(c) => Yield(SetCpu(SetStatusOf(s, cur, Free), c, None), c)
  }

  // ---------------------------------------------------------------- invariant

  predicate CpuOk(s: State, c: nat) {
    Cur(s, c).Some? ==>
      var e := Cur(s, c).value;
      e < |s.envs| && Active(s.envs[e]) && s.envs[e].cpu == c
  }

  /** Between entry and the next dispatch, curenv of CPU `c` may have stopped running. */
  predicate CpuLoose(s: State, c: nat) {
    Cur(s, c).Some? ==>
      var e := Cur(s, c).value;
      e < |s.envs| && (Active(s.envs[e]) ==> s.envs[e].status.Running? && s.envs[e].cpu == c)
  }

  predicate EnvOk(s: State, i: nat) {
    i < |s.envs| ==>
      var e := s.envs[i];
      && (Active(e) ==> Cur(s, e.cpu) == Some(i))
      && (e.recving && !e.status.Free? ==> e.status.NotRunnable?)
      && e.recvs == e.sends + (if e.recving then 1 else 0)
      && (!e.recving && e.sends > 0 ==> e.msg == e.last)
  }

  ghost predicate Inv(s: State) {
    && |s.envs| > 0
    && (forall c: nat :: CpuOk(s, c))
    && (forall i: nat :: EnvOk(s, i))
  }

  ghost predicate InvBut(s: State, c: nat) {
    && |s.envs| > 0 && c < |s.cpus|
    && CpuLoose(s, c)
    && (forall d: nat :: d != c ==> CpuOk(s, d))
    && (forall i: nat :: EnvOk(s, i))
  }

  /** An environment is running (or dying) exactly when it is curenv of a CPU, and of one
      CPU only; one that is blocked in receive is on no CPU. */
  lemma OnOneCpu(s: State, i: nat)
    requires Inv(s) && i < |s.envs|
    ensures Active(s.envs[i]) <==> exists c: nat :: Cur(s, c) == Some(i)
    ensures forall c: nat, d: nat :: Cur(s, c) == Some(i) && Cur(s, d) == Some(i) ==> c == d
    ensures s.envs[i].recving && !s.envs[i].status.Free? ==> forall c: nat :: Cur(s, c) != Some(i)
  {
    assert EnvOk(s, i);
    forall c: nat ensures Cur(s, c) == Some(i) ==> Active(s.envs[i]) && s.envs[i].cpu == c { assert CpuOk(s, c); }
  }

  lemma RunEnvInv(s: State, c: nat, i: nat)
    requires InvBut(s, c) && i < |s.envs| && (s.envs[i].status.Runnable? || (Cur(s, c) == Some(i) && CurRuns(s, c)))
    ensures Inv(RunEnv(s, c, i))
  {
    var t := RunEnv(s, c, i);
    assert EnvOk(s, i);
    forall d: nat ensures CpuOk(t, d) { assert d != c ==> CpuOk(s, d); }
    forall j: nat ensures EnvOk(t, j) { assert EnvOk(s, j); }
  }

  lemma YieldInv(s: State, c: nat)
    requires InvBut(s, c)
    ensures Inv(Yield(s, c))
  {
    var start := if Cur(s, c).Some? then Cur(s, c).value else 0;
    match Scan(Statuses(s), start, |s.envs|)
    case Some(i) => RunEnvInv(s, c, i);
    case None =>
      if CurRuns(s, c) {
        RunEnvInv(s, c, Cur(s, c).value);
      } else {
        var t := SetCpu(s, c, None);
        forall d: nat ensures CpuOk(t, d) { assert d != c ==> CpuOk(s, d); }
        forall j: nat ensures EnvOk(t, j) { assert EnvOk(s, j); }
      }
  }

  lemma LeaveInv(s: State, c: nat)
    requires InvBut(s, c)
    ensures Inv(Leave(s, c))
  {
    if CurRuns(s, c) { RunEnvInv(s, c, Cur(s, c).value); } else { YieldInv(s, c); }
  }

  /** Changing slot `t` keeps the invariant up to CPU `c`. */
  lemma PutInv(s: State, c: nat, t: nat, e: Env)
    requires Inv(s) && c < |s.cpus| && t < |s.envs| && (CurRuns(s, c) || Cur(s, c).None?)
    requires EnvOk(Put(s, t, e), t)
    requires Active(e) ==> s.envs[t].cpu == e.cpu && Active(s.envs[t]) && (Cur(s, c) == Some(t) ==> e.status.Running?)
    requires Active(s.envs[t]) && !Active(e) ==> Cur(s, c) == Some(t)
    ensures InvBut(Put(s, t, e), c)
  {
    var u := Put(s, t, e);
    assert CpuOk(s, c) && EnvOk(s, t);
    forall d: nat | d != c ensures CpuOk(u, d) { assert CpuOk(s, d); }
    forall j: nat ensures EnvOk(u, j) { assert EnvOk(s, j); }
  }

  /** The steps for which dispatch stays safe: a status may be set on any environment but
      one that is on another CPU, a blocked receiver may not be set runnable, and an
      environment already dying on another CPU may not be destroyed once more. */
  predicate Allowed(s: State, l: Label) {
    match l
    case SetStatus(c, t, st) =>
      t < |s.envs| ==> (Active(s.envs[t]) ==> Cur(s, c) == Some(t)) && !(s.envs[t].recving && st.Runnable?)
    case Destroy(_, t) => t < |s.envs| ==> !s.envs[t].status.Dying?
    case _ => true
  }

  lemma SetStatusInv(s: State, l: Label)
    requires Inv(s) && l.SetStatus? && Enabled(s, l) && Allowed(s, l)
    ensures Inv(Next(s, l))
  {
    assert EnvOk(s, l.t) && CpuOk(s, l.c);
    PutInv(s, l.c, l.t, s.envs[l.t].(status := l.st));
    LeaveInv(SetStatusOf(s, l.t, l.st), l.c);
  }

  lemma SendInv(s: State, l: Label)
    requires Inv(s) && l.Send? && Enabled(s, l)
    ensures Inv(Next(s, l))
  {
    assert EnvOk(s, l.t) && CpuOk(s, l.c);
    if s.envs[l.t].status.Free? || !s.envs[l.t].recving {
      LeaveInv(s, l.c);
    } else {
      var e := Deliver(s.envs[l.t], Cur(s, l.c).value, l.value, l.page);
      PutInv(s, l.c, l.t, e);
      LeaveInv(Put(s, l.t, e), l.c);
    }
  }

  lemma RecvInv(s: State, l: Label)
    requires Inv(s) && l.Recv? && Enabled(s, l)
    ensures Inv(Next(s, l))
  {
    var cur := Cur(s, l.c).value;
    assert EnvOk(s, cur) && CpuOk(s, l.c);
    if !l.aligned {
      LeaveInv(s, l.c);
    } else {
      var e := s.envs[cur].(recving := true, status := NotRunnable, recvs := s.envs[cur].recvs + 1);
      PutInv(s, l.c, cur, e);
      YieldInv(Put(s, cur, e), l.c);
    }
  }

  /** CPU `c` lets go of an environment that is freed. */
  lemma DropInv(s: State, c: nat)
    requires Inv(s) && c < |s.cpus| && Cur(s, c).Some?
    ensures Inv(Yield(SetCpu(SetStatusOf(s, Cur(s, c).value, Free), c, None), c))
  {
    var t := Cur(s, c).value;
    var u := SetCpu(SetStatusOf(s, t, Free), c, None);
    assert CpuOk(s, c);
    forall d: nat | d != c ensures CpuOk(u, d) { assert CpuOk(s, d); }
    forall j: nat ensures EnvOk(u, j) { assert EnvOk(s, j); }
    YieldInv(u, c);
  }

  lemma DestroyInv(s: State, l: Label)
    requires Inv(s) && l.Destroy? && Enabled(s, l) && Allowed(s, l)
    ensures Inv(Next(s, l))
  {
    var cur := Cur(s, l.c).value;
    assert EnvOk(s, l.t) && CpuOk(s, l.c);
    if s.envs[l.t].status.Running? && l.t != cur {
      PutInv(s, l.c, l.t, s.envs[l.t].(status := Dying));
      LeaveInv(SetStatusOf(s, l.t, Dying), l.c);
    } else if l.t == cur {
      DropInv(s, l.c);
    } else {
      PutInv(s, l.c, l.t, s.envs[l.t].(status := Free));
      LeaveInv(SetStatusOf(s, l.t, Free), l.c);
    }
  }

  lemma ExoforkInv(s: State, l: Label)
    requires Inv(s) && l.Exofork? && Enabled(s, l)
    ensures Inv(Next(s, l))
  {
    assert EnvOk(s, l.t) && CpuOk(s, l.c);
    var e := Env(NotRunnable, 0, false, s.envs[l.t].msg, 0, 0, s.envs[l.t].last);
    PutInv(s, l.c, l.t, e);
    LeaveInv(Put(s, l.t, e), l.c);
  }

  lemma StepInv(s: State, l: Label)
    requires Inv(s) && Enabled(s, l) && Allowed(s, l)
    ensures Inv(Next(s, l))
  {
    assert CpuOk(s, l.c);
    match l
    case Timer(c) => YieldInv(s, c);
    case Exofork(_, _) => ExoforkInv(s, l);
    case SetStatus(_, _, _) => SetStatusInv(s, l);
    case Send(_, _, _, _) => SendInv(s, l);
    case Recv(_, _) => RecvInv(s, l);
    case Destroy(_, _) => DestroyInv(s, l);
    case Reap(c) => DropInv(s, c);
  }

  function AfterRun(s: State, run: seq<Label>): State {
    if run == [] then s else Next(AfterRun(s, run[..|run| - 1]), run[|run| - 1])
  }

  predicate Possible(s: State, run: seq<Label>) {
    run == [] || (Possible(s, run[..|run| - 1])
                  && Enabled(AfterRun(s, run[..|run| - 1]), run[|run| - 1])
                  && Allowed(AfterRun(s, run[..|run| - 1]), run[|run| - 1]))
  }

  /** Every run keeps dispatch and rendezvous safe. */
  lemma {:induction false} RunInv(s: State, run: seq<Label>)
    requires Inv(s) && Possible(s, run)
    ensures Inv(AfterRun(s, run))
  {
    if run != [] {
      RunInv(s, run[..|run| - 1]);
      StepInv(AfterRun(s, run[..|run| - 1]), run[|run| - 1]);
    }
  }

  predicate FreshEnv(s: State, i: nat) {
    i < |s.envs| ==>
      var e := s.envs[i];
      (e.status.Free? || e.status.Runnable?) && !e.recving && e.recvs == 0 && e.sends == 0
  }

  /** Before the first dispatch: every CPU is idle, and slots are free or runnable. */
  ghost predicate Boot(s: State) {
    |s.envs| > 0 && (forall c: nat :: Cur(s, c).None?) && forall i: nat :: FreshEnv(s, i)
  }

  /** In every run from boot: an environment is running or dying exactly when it is curenv of
      a CPU, and of one only; every receive that blocked was completed by one send, except one
      still pending, and then the receiver is not runnable and on no CPU; what a receiver that
      was woken finds in its slot is all from the send that woke it. */
  lemma RunSafe(s: State, run: seq<Label>, i: nat)
    requires Boot(s) && Possible(s, run) && i < |AfterRun(s, run).envs|
    ensures var t := AfterRun(s, run); var e := t.envs[i];
      && (Active(e) <==> exists c: nat :: Cur(t, c) == Some(i))
      && (forall c: nat, d: nat :: Cur(t, c) == Some(i) && Cur(t, d) == Some(i) ==> c == d)
      && e.recvs == e.sends + (if e.recving then 1 else 0)
      && (e.recving && !e.status.Free? ==> e.status.NotRunnable? && forall c: nat :: Cur(t, c) != Some(i))
      && (!e.recving && e.sends > 0 ==> e.msg == e.last)
  {
    forall j: nat ensures EnvOk(s, j) { assert FreshEnv(s, j); }
    RunInv(s, run);
    var t := AfterRun(s, run);
    assert EnvOk(t, i);
    OnOneCpu(t, i);
  }

  /** A step keeps dispatch and rendezvous safe exactly when it is allowed. */
  lemma SafeIff(s: State, l: Label)
    requires Inv(s) && Enabled(s, l)
    ensures Inv(Next(s, l)) <==> Allowed(s, l)
  {
    if Allowed(s, l) {
      StepInv(s, l);
    } else if l.SetStatus? {
      SetStatusUnsafe(s, l);
    } else {
      DestroyUnsafe(s, l);
    }
  }

  lemma SetStatusUnsafe(s: State, l: Label)
    requires Inv(s) && l.SetStatus? && Enabled(s, l) && !Allowed(s, l)
    ensures !Inv(Next(s, l))
  {
    var t := Next(s, l);
    assert EnvOk(s, l.t) && CpuOk(s, l.c);
    if Active(s.envs[l.t]) {
      assert !CpuOk(t, s.envs[l.t].cpu);
    } else {
      assert !EnvOk(t, l.t);
    }
  }

  lemma DestroyUnsafe(s: State, l: Label)
    requires Inv(s) && l.Destroy? && Enabled(s, l) && !Allowed(s, l)
    ensures !Inv(Next(s, l))
  {
    var t := Next(s, l);
    assert EnvOk(s, l.t) && CpuOk(s, l.c);
    assert !CpuOk(t, s.envs[l.t].cpu);
  }

  // ------------------------------------------------- unsafe states are reached

  lemma Extend(s: State, run: seq<Label>, l: Label, t: State)
    requires Possible(s, run) && AfterRun(s, run) == t && Enabled(t, l) && Allowed(t, l)
    ensures Possible(s, run + [l]) && AfterRun(s, run + [l]) == Next(t, l)
  {
    assert (run + [l])[..|run|] == run;
  }

  function Plain(st: Status, cpu: nat): Env {
    Env(st, cpu, false, Msg(0, 0, 0), 0, 0, Msg(0, 0, 0))
  }

  function Idle(): State {
    State([Plain(Runnable, 0), Plain(Runnable, 0)], [None, None])
  }

  function BothRunning(): State {
    State([Plain(Running, 0), Plain(Running, 1)], [Some(0), Some(1)])
  }

  lemma FindsFirst(a: Env, b: Env)
    ensures Scan([a.status, b.status], 0, 2)
         == if a.status.Runnable? then Some(0) else if b.status.Runnable? then Some(1) else None
  {
    var st := [a.status, b.status];
    assert Scan(st, 0, 2) == if st[0].Runnable? then Some(0) else Scan(st, 1, 1);
    assert Scan(st, 1, 1) == if st[1].Runnable? then Some(1) else Scan(st, 0, 0);
  }

  lemma StatusesOf(s: State)
    requires |s.envs| == 2
    ensures Statuses(s) == [s.envs[0].status, s.envs[1].status]
  {
  }

  /** Two CPUs each pick one of two environments. */
  lemma BothStart() returns (run: seq<Label>)
    ensures Boot(Idle()) && Possible(Idle(), run) && AfterRun(Idle(), run) == BothRunning()
  {
    var s := Idle();
    forall i: nat ensures FreshEnv(s, i) { }
    var t := State([Plain(Running, 0), Plain(Runnable, 0)], [Some(0), None]);
    StatusesOf(s);
    FindsFirst(s.envs[0], s.envs[1]);
    assert Next(s, Timer(0)) == t;
    StatusesOf(t);
    FindsFirst(t.envs[0], t.envs[1]);
    assert Next(t, Timer(1)) == BothRunning();
    Extend(s, [], Timer(0), s);
    Extend(s, [] + [Timer(0)], Timer(1), t);
    run := [] + [Timer(0)] + [Timer(1)];
  }

  /** From boot, through allowed steps only, to a state in which environment 1 is dying on
      CPU 1; environment 0 destroys it again, and its slot is freed under CPU 1. */
  lemma UnsafeDestroyExample() returns (run: seq<Label>, l: Label)
    ensures l.Destroy? && Boot(Idle()) && Possible(Idle(), run)
    ensures Enabled(AfterRun(Idle(), run), l) && !Inv(Next(AfterRun(Idle(), run), l))
  {
    var before := BothStart();
    var s := BothRunning();
    l := Destroy(0, 1);
    var t := State([Plain(Running, 0), Plain(Dying, 1)], [Some(0), Some(1)]);
    assert Next(s, l) == t;
    Extend(Idle(), before, l, s);
    run := before + [l];
    FreedUnsafe(t);
  }

  lemma FreedUnsafe(t: State)
    requires t == State([Plain(Running, 0), Plain(Dying, 1)], [Some(0), Some(1)])
    ensures !Inv(Next(t, Destroy(0, 1)))
  {
    assert !CpuOk(Next(t, Destroy(0, 1)), 1);
  }

  /** From boot: environment 0 takes the running environment of the other CPU off the run. */
  lemma UnsafeStatusExample() returns (run: seq<Label>, l: Label)
    ensures l.SetStatus? && Boot(Idle()) && Possible(Idle(), run)
    ensures Enabled(AfterRun(Idle(), run), l) && !Inv(Next(AfterRun(Idle(), run), l))
  {
    run := BothStart();
    l := SetStatus(0, 1, NotRunnable);
    assert !CpuOk(Next(BothRunning(), l), 1);
  }

  /** From boot: environment 1 blocks in receive, and environment 0 sets it runnable. */
  lemma UnsafeWakeExample() returns (run: seq<Label>, l: Label)
    ensures l.SetStatus? && Boot(Idle()) && Possible(Idle(), run)
    ensures Enabled(AfterRun(Idle(), run), l) && !Inv(Next(AfterRun(Idle(), run), l))
  {
    var before := BothStart();
    var s := BothRunning();
    var b := Env(NotRunnable, 1, true, Msg(0, 0, 0), 1, 0, Msg(0, 0, 0));
    var t := State([Plain(Running, 0), b], [Some(0), None]);
    BlocksAndHalts(s, b, t);
    Extend(Idle(), before, Recv(1, true), s);
    run := before + [Recv(1, true)];
    l := SetStatus(0, 1, Runnable);
    WokenUnsafe(t, b);
  }

  lemma WokenUnsafe(t: State, b: Env)
    requires t == State([Plain(Running, 0), b], [Some(0), None]) && b.recving
    ensures !Inv(Next(t, SetStatus(0, 1, Runnable)))
  {
    assert !EnvOk(Next(t, SetStatus(0, 1, Runnable)), 1);
  }

  lemma BlocksAndHalts(s: State, b: Env, t: State)
    requires s == BothRunning() && b == Env(NotRunnable, 1, true, Msg(0, 0, 0), 1, 0, Msg(0, 0, 0))
    requires t == State([Plain(Running, 0), b], [Some(0), None])
    ensures Next(s, Recv(1, true)) == t
  {
    var u := Put(s, 1, b);
    StatusesOf(u);
    var st := Statuses(u);
    assert Scan(st, 1, 2) == Scan(st, 0, 1) && Scan(st, 0, 1) == Scan(st, 1, 0);
  }

  // ------------------------------------------------------------------ round robin

  /** How far slot `k` is from being dispatched on CPU 0. */
  function Far(s: State, k: nat): (d: nat)
    requires k < |s.envs|
    ensures d <= |s.envs|
  {
    match Cur(s, 0)
    case None => |s.envs|
    case Some(i) => if i < |s.envs| then Distance(i, k, |s.envs|) else |s.envs|
  }

  lemma DistanceSplit(a: nat, b: nat, c: nat, n: nat)
    requires a < n && b < n && c < n && Distance(a, b, n) <= Distance(a, c, n)
    ensures Distance(b, c, n) == Distance(a, c, n) - Distance(a, b, n)
  {
  }

  /** A yield goes to `k`, or to a slot closer to it, unless the current slot is runnable. */
  lemma YieldCloser(s: State, k: nat)
    requires InvBut(s, 0) && |s.cpus| == 1 && k < |s.envs| && s.envs[k].status.Runnable?
    ensures |Yield(s, 0).envs| == |s.envs| && Far(Yield(s, 0), k) <= Far(s, k)
    ensures Cur(s, 0).None? || !s.envs[Cur(s, 0).value].status.Runnable? ==> Far(Yield(s, 0), k) < Far(s, k)
  {
    var start := if Cur(s, 0).Some? then Cur(s, 0).value else 0;
    ScanNearest(Statuses(s), start, |s.envs|, k);
    var r := Scan(Statuses(s), start, |s.envs|).value;
    DistanceSplit(start, r, k, |s.envs|);
  }

  lemma LeaveCloser(s: State, k: nat)
    requires InvBut(s, 0) && |s.cpus| == 1 && k < |s.envs| && (CurRuns(s, 0) || s.envs[k].status.Runnable?)
    ensures |Leave(s, 0).envs| == |s.envs| && Far(Leave(s, 0), k) <= Far(s, k)
  {
    if !CurRuns(s, 0) { YieldCloser(s, k); }
  }

  predicate Ends(l: Label) {
    l.Destroy? || l.Reap?
  }

  lemma StepCloser(s: State, l: Label, k: nat)
    requires Inv(s) && |s.cpus| == 1 && k < |s.envs| && s.envs[k].status.Runnable?
    requires Enabled(s, l) && Allowed(s, l) && !Ends(l)
    ensures |Next(s, l).envs| == |s.envs| && |Next(s, l).cpus| == 1
    ensures Far(Next(s, l), k) + (if l.Timer? then 1 else 0) <= Far(s, k)
  {
    assert CpuOk(s, 0) && EnvOk(s, k);
    match l
    case Timer(_) => YieldCloser(s, k);
    case Recv(_, aligned) => RecvCloser(s, l, k);
    case Exofork(_, _) => ExoforkCloser(s, l, k);
    case SetStatus(_, _, _) => SetStatusCloser(s, l, k);
    case Send(_, _, _, _) => SendCloser(s, l, k);
  }

  lemma ExoforkCloser(s: State, l: Label, k: nat)
    requires Inv(s) && |s.cpus| == 1 && k < |s.envs| && s.envs[k].status.Runnable? && l.Exofork? && Enabled(s, l)
    ensures |Next(s, l).envs| == |s.envs| && |Next(s, l).cpus| == 1 && Far(Next(s, l), k) <= Far(s, k)
  {
    assert EnvOk(s, l.t) && CpuOk(s, 0);
    var e := Env(NotRunnable, 0, false, s.envs[l.t].msg, 0, 0, s.envs[l.t].last);
    PutInv(s, 0, l.t, e);
    LeaveCloser(Put(s, l.t, e), k);
  }

  lemma SetStatusCloser(s: State, l: Label, k: nat)
    requires Inv(s) && |s.cpus| == 1 && k < |s.envs| && s.envs[k].status.Runnable?
    requires l.SetStatus? && Enabled(s, l) && Allowed(s, l)
    ensures |Next(s, l).envs| == |s.envs| && |Next(s, l).cpus| == 1 && Far(Next(s, l), k) <= Far(s, k)
  {
    assert EnvOk(s, l.t) && CpuOk(s, 0);
    var e := s.envs[l.t].(status := l.st);
    PutInv(s, 0, l.t, e);
    LeaveCloser(Put(s, l.t, e), k);
  }

  lemma RecvCloser(s: State, l: Label, k: nat)
    requires Inv(s) && |s.cpus| == 1 && k < |s.envs| && s.envs[k].status.Runnable? && l.Recv? && Enabled(s, l)
    ensures |Next(s, l).envs| == |s.envs| && |Next(s, l).cpus| == 1 && Far(Next(s, l), k) <= Far(s, k)
  {
    var cur := Cur(s, 0).value;
    assert CpuOk(s, 0) && EnvOk(s, cur);
    if l.aligned {
      var e := s.envs[cur].(recving := true, status := NotRunnable, recvs := s.envs[cur].recvs + 1);
      PutInv(s, 0, cur, e);
      YieldCloser(Put(s, cur, e), k);
    } else {
      LeaveCloser(s, k);
    }
  }

  lemma SendCloser(s: State, l: Label, k: nat)
    requires Inv(s) && |s.cpus| == 1 && k < |s.envs| && s.envs[k].status.Runnable? && l.Send? && Enabled(s, l)
    ensures |Next(s, l).envs| == |s.envs| && |Next(s, l).cpus| == 1 && Far(Next(s, l), k) <= Far(s, k)
  {
    assert CpuOk(s, 0) && EnvOk(s, l.t);
    if s.envs[l.t].status.Free? || !s.envs[l.t].recving {
      LeaveCloser(s, k);
    } else {
      var e := Deliver(s.envs[l.t], Cur(s, 0).value, l.value, l.page);
      PutInv(s, 0, l.t, e);
      LeaveCloser(Put(s, l.t, e), k);
    }
  }

  /** How many of the steps are timer interrupts or calls of sys_yield. */
  function Timers(run: seq<Label>): nat {
    if run == [] then 0 else Timers(run[..|run| - 1]) + if run[|run| - 1].Timer? then 1 else 0
  }

  /** Slot `k` is runnable after the first `i` steps. */
  predicate Waiting(s: State, run: seq<Label>, k: nat, i: nat) {
    i <= |run| ==> k < |AfterRun(s, run[..i]).envs| && AfterRun(s, run[..i]).envs[k].status.Runnable?
  }

  predicate Dispatched(s: State, run: seq<Label>, k: nat, i: nat) {
    i <= |run| && Cur(AfterRun(s, run[..i]), 0) == Some(k)
  }

  lemma {:induction false} RunCloser(s: State, run: seq<Label>, k: nat)
    requires Inv(s) && |s.cpus| == 1 && k < |s.envs| && Possible(s, run) && forall i :: 0 <= i < |run| ==> !Ends(run[i])
    requires forall i: nat :: i < |run| ==> Waiting(s, run, k, i)
    ensures var t := AfterRun(s, run);
      |t.envs| == |s.envs| && |t.cpus| == 1 && Far(t, k) + Timers(run) <= Far(s, k)
  {
    if run != [] {
      var before := run[..|run| - 1];
      forall i: nat | i < |before| ensures Waiting(s, before, k, i) {
        assert Waiting(s, run, k, i) && before[..i] == run[..i];
      }
      RunCloser(s, before, k);
      RunInv(s, before);
      assert Waiting(s, run, k, |before|) && run[..|before|] == before;
      StepCloser(AfterRun(s, before), run[|run| - 1], k);
    }
  }

  /** A slot that waited all the time is dispatched at the end of NENV yields at the latest. */
  lemma Arrived(s: State, run: seq<Label>, k: nat)
    requires Inv(s) && |s.cpus| == 1 && k < |s.envs| && Possible(s, run) && Timers(run) >= |s.envs|
    requires forall i :: 0 <= i < |run| ==> !Ends(run[i])
    requires forall i: nat :: i < |run| ==> Waiting(s, run, k, i)
    ensures Dispatched(s, run, k, |run|)
  {
    RunCloser(s, run, k);
    assert run[..|run|] == run;
  }

  /** Round robin on one CPU: over any run without destruction, with NENV timer interrupts or
      calls of sys_yield in it, a slot that is runnable until it is dispatched is dispatched. */
  lemma RoundRobin(s: State, run: seq<Label>, k: nat)
    requires Inv(s) && |s.cpus| == 1 && k < |s.envs| && Possible(s, run) && Timers(run) >= |s.envs|
    requires forall i :: 0 <= i < |run| ==> !Ends(run[i])
    requires forall i: nat :: Waiting(s, run, k, i) || exists j: nat :: j <= i && Dispatched(s, run, k, j)
    ensures exists i: nat :: Dispatched(s, run, k, i)
  {
    if forall i: nat :: Waiting(s, run, k, i) {
      Arrived(s, run, k);
    }
  }
}
