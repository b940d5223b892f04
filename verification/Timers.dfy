/** The timeout list of net/lwip/core/sys.c: each entry holds the time left after the
    entry before it. */
module Timers {

  import opened Options

  const WORD: nat := 0x1_0000_0000

  /** struct sys_timeo: milliseconds after the previous entry, handler and argument. */
  datatype Timeo = Timeo(time: nat, h: nat, arg: nat)

  /** A timer with the moment it is due. */
  datatype Timer = Timer(due: int, h: nat, arg: nat)

  function Time(list: seq<Timeo>, i: nat): nat {
    if i < |list| then list[i].time else 0
  }

  /** Time left until the last of the first `n` entries is due. */
  function Total(list: seq<Timeo>, n: nat): nat {
    if n == 0 then 0 else Total(list, n - 1) + Time(list, n - 1)
  }

  function TimerAt(list: seq<Timeo>, base: nat, i: nat): Timer
    requires i < |list|
  {
    Timer(base + Total(list, i + 1), list[i].h, list[i].arg)
  }

  /** The list as timers, relative to the moment `base`. */
  function View(list: seq<Timeo>, base: nat): (v: seq<Timer>)
    ensures |v| == |list| && forall i {:trigger v[i]} :: 0 <= i < |v| ==> v[i] == TimerAt(list, base, i)
  {
    seq(|list|, i requires 0 <= i < |list| => TimerAt(list, base, i))
  }

  /** Every deadline fits a u32_t. */
  ghost predicate Bounded(list: seq<Timeo>) {
    forall n: nat :: BoundedAt(list, n)
  }

  predicate BoundedAt(list: seq<Timeo>, n: nat) {
    n <= |list| ==> Total(list, n) < WORD
  }

  // ------------------------------------------------- absolute deadlines (spec)

  ghost predicate Sorted(v: seq<Timer>) {
    forall i, j :: 0 <= i <= j < |v| ==> v[i].due <= v[j].due
  }

  /** The first timer from index `i` on that is due after `t`. */
  function FirstAfter(v: seq<Timer>, t: int, i: nat): (n: nat)
    requires i <= |v|
    ensures i <= n <= |v|
    ensures forall j :: i <= j < n ==> v[j].due <= t
    ensures n < |v| ==> v[n].due > t
    decreases |v| - i
  {
    if i == |v| || v[i].due > t then i else FirstAfter(v, t, i + 1)
  }

  function InsertedAt(v: seq<Timer>, n: nat, x: Timer): seq<Timer>
    requires n <= |v|
  {
    v[..n] + [x] + v[n..]
  }

  /** A new timer goes behind every timer due no later: ties are first in, first out. */
  function Inserted(v: seq<Timer>, x: Timer): seq<Timer> {
    InsertedAt(v, FirstAfter(v, x.due, 0), x)
  }

  predicate Matches(x: Timer, h: nat, arg: nat) {
    x.h == h && x.arg == arg
  }

  /** The first timer from index `i` on that calls `h` with `arg`. */
  function Matching(v: seq<Timer>, h: nat, arg: nat, i: nat): (n: nat)
    requires i <= |v|
    ensures i <= n <= |v|
    decreases |v| - i
  {
    if i == |v| || Matches(v[i], h, arg) then i else Matching(v, h, arg, i + 1)
  }

  function Without(v: seq<Timer>, n: nat): seq<Timer> {
    if n < |v| then v[..n] + v[n + 1..] else v
  }

  /** Without the first timer that calls `h` with `arg`. */
  function Cancelled(v: seq<Timer>, h: nat, arg: nat): seq<Timer> {
    Without(v, Matching(v, h, arg, 0))
  }

  /** All deadlines moved by `d`, back if it is negative. */
  function Delayed(v: seq<Timer>, d: int): (w: seq<Timer>)
    ensures |w| == |v| && forall i :: 0 <= i < |v| ==> w[i] == v[i].(due := v[i].due + d)
  {
    seq(|v|, i requires 0 <= i < |v| => v[i].(due := v[i].due + d))
  }

  // -------------------------------------------------------- lists and deadlines

  lemma {:induction false} TotalMonotonic(list: seq<Timeo>, i: nat, j: nat)
    requires i <= j
    ensures Total(list, i) <= Total(list, j)
    decreases j
  {
    if i < j { TotalMonotonic(list, i, j - 1); }
  }

  /** Deadlines never decrease along the list. */
  lemma ViewSorted(list: seq<Timeo>, base: nat)
    ensures Sorted(View(list, base))
  {
    var v := View(list, base);
    forall i, j | 0 <= i <= j < |v| ensures v[i].due <= v[j].due {
      TotalMonotonic(list, i + 1, j + 1);
    }
  }

  lemma {:induction false} FirstAfterIs(v: seq<Timer>, t: int, i: nat, n: nat)
    requires i <= n <= |v| && (forall j :: i <= j < n ==> v[j].due <= t) && (n < |v| ==> v[n].due > t)
    ensures FirstAfter(v, t, i) == n
    decreases n - i
  {
    if i < n { FirstAfterIs(v, t, i + 1, n); }
  }

  /** The list with an entry put at index `n` and the next entry shortened by as much. */
  function InsertAt(list: seq<Timeo>, n: nat, x: Timeo): seq<Timeo>
    requires n <= |list| && (n < |list| ==> list[n].time >= x.time)
  {
    list[..n] + [x] + if n < |list| then [list[n].(time := list[n].time - x.time)] + list[n + 1..] else []
  }

  lemma InsertAtEntry(list: seq<Timeo>, n: nat, x: Timeo, k: nat)
    requires n <= |list| && (n < |list| ==> list[n].time >= x.time) && k <= |list|
    ensures var l := InsertAt(list, n, x);
      && |l| == |list| + 1
      && l[k] == if k < n then list[k] else if k == n then x
                 else if k == n + 1 then list[n].(time := list[n].time - x.time) else list[k - 1]
  {
  }

  /** Only the new entry's deadline is new. */
  lemma {:induction false} TotalInsert(list: seq<Timeo>, n: nat, x: Timeo, k: nat)
    requires n <= |list| && (n < |list| ==> list[n].time >= x.time) && k <= |list| + 1
    ensures Total(InsertAt(list, n, x), k)
         == if k <= n then Total(list, k) else if k == n + 1 then Total(list, n) + x.time else Total(list, k - 1)
  {
    if k > 0 {
      TotalInsert(list, n, x, k - 1);
      InsertAtEntry(list, n, x, k - 1);
    }
  }

  lemma InsertAtTimer(list: seq<Timeo>, n: nat, x: Timeo, base: nat, i: nat)
    requires n <= |list| && (n < |list| ==> list[n].time >= x.time) && i <= |list|
    ensures |InsertAt(list, n, x)| == |list| + 1
    ensures View(InsertAt(list, n, x), base)[i]
         == InsertedAt(View(list, base), n, Timer(base + Total(list, n) + x.time, x.h, x.arg))[i]
  {
    InsertAtEntry(list, n, x, i);
    TotalInsert(list, n, x, i + 1);
  }

  lemma {:induction false} InsertAtView(list: seq<Timeo>, n: nat, x: Timeo, base: nat)
    requires n <= |list| && (n < |list| ==> list[n].time >= x.time)
    ensures View(InsertAt(list, n, x), base)
         == InsertedAt(View(list, base), n, Timer(base + Total(list, n) + x.time, x.h, x.arg))
  {
    var w := View(InsertAt(list, n, x), base);
    var z := InsertedAt(View(list, base), n, Timer(base + Total(list, n) + x.time, x.h, x.arg));
    forall i | 0 <= i < |z| ensures |w| == |z| && w[i] == z[i] { InsertAtTimer(list, n, x, base, i); }
  }

  /** The list without entry `n`, whose time goes to the next entry. */
  function RemoveAt(list: seq<Timeo>, n: nat): seq<Timeo>
    requires n < |list|
  {
    list[..n] + if n + 1 < |list| then [list[n + 1].(time := list[n + 1].time + list[n].time)] + list[n + 2..] else []
  }

  lemma RemoveAtEntry(list: seq<Timeo>, n: nat, k: nat)
    requires n < |list| && k + 1 < |list|
    ensures var l := RemoveAt(list, n);
      && |l| == |list| - 1
      && l[k] == if k < n then list[k]
                 else if k == n then list[n + 1].(time := list[n + 1].time + list[n].time)
                 else list[k + 1]
  {
  }

  /** The other deadlines stay. */
  lemma {:induction false} TotalRemove(list: seq<Timeo>, n: nat, k: nat)
    requires n < |list| && k < |list|
    ensures Total(RemoveAt(list, n), k) == Total(list, if k <= n then k else k + 1)
  {
    if k > 0 {
      TotalRemove(list, n, k - 1);
      RemoveAtEntry(list, n, k - 1);
    }
  }

  lemma RemoveAtTimer(list: seq<Timeo>, n: nat, base: nat, i: nat)
    requires n < |list| && i + 1 < |list|
    ensures |RemoveAt(list, n)| == |list| - 1
    ensures View(RemoveAt(list, n), base)[i] == Without(View(list, base), n)[i]
  {
    RemoveAtEntry(list, n, i);
    TotalRemove(list, n, i + 1);
    WithoutAt(View(list, base), n, i);
    var j := if i < n then i else i + 1;
    assert View(list, base)[j] == TimerAt(list, base, j);
  }

  lemma WithoutAt(v: seq<Timer>, n: nat, i: nat)
    requires n < |v| && i + 1 < |v|
    ensures |Without(v, n)| == |v| - 1 && Without(v, n)[i] == v[if i < n then i else i + 1]
  {
  }

  lemma {:induction false} RemoveAtView(list: seq<Timeo>, n: nat, base: nat)
    requires n < |list|
    ensures View(RemoveAt(list, n), base) == Without(View(list, base), n)
  {
    var w, z := View(RemoveAt(list, n), base), Without(View(list, base), n);
    assert |w| == |z|;
    forall i | 0 <= i < |z| ensures w[i] == z[i] { RemoveAtTimer(list, n, base, i); }
  }

  // --------------------------------------------------------------- waiting

  /** What a wait of real length `elapsed` does to the list: the head is used up, or, if a
      message came, its time is reduced, to no less than 0. */
  datatype Wake = TimedOut | Message

  function AfterWait(list: seq<Timeo>, w: Wake, elapsed: nat): seq<Timeo>
    requires list != []
  {
    match w
    case TimedOut => list[1..]
    case Message => list[0 := list[0].(time := if elapsed < list[0].time then list[0].time - elapsed else 0)]
  }

  /** By how much a wait moves the deadlines behind it: a timeout by the time it came after the
      head was due, or before; a message only by the time it came after. */
  function Shift(list: seq<Timeo>, w: Wake, elapsed: nat): int
    requires list != []
  {
    if w.Message? && elapsed <= list[0].time then 0 else elapsed - list[0].time
  }

  lemma {:induction false} TotalTail(list: seq<Timeo>, n: nat)
    requires list != []
    ensures Total(list, n + 1) == list[0].time + Total(list[1..], n)
  {
    if n > 0 {
      TotalTail(list, n - 1);
    } else {
      assert Total(list, 1) == Total(list, 0) + Time(list, 0);
    }
  }

  lemma {:induction false} TotalHead(list: seq<Timeo>, x: Timeo, n: nat)
    requires list != [] && n > 0
    ensures Total(list[0 := x], n) + list[0].time == Total(list, n) + x.time
  {
    if n > 1 {
      TotalHead(list, x, n - 1);
    } else {
      assert Total(list, 1) == Total(list, 0) + Time(list, 0);
      assert Total(list[0 := x], 1) == Total(list[0 := x], 0) + Time(list[0 := x], 0);
    }
  }

  /** The timers that are left when a wait ends. */
  function Left(v: seq<Timer>, w: Wake): seq<Timer> {
    if w.TimedOut? && v != [] then v[1..] else v
  }

  /** The deadlines left after a wait: as before, all moved by the shift alone. */
  lemma WaitView(list: seq<Timeo>, w: Wake, elapsed: nat, now: nat)
    requires list != []
    ensures View(AfterWait(list, w, elapsed), now + elapsed) ==
      Delayed(Left(View(list, now), w), Shift(list, w, elapsed))
  {
    var l := AfterWait(list, w, elapsed);
    var left := Delayed(Left(View(list, now), w), Shift(list, w, elapsed));
    assert |l| == |left|;
    forall i | 0 <= i < |l| ensures View(l, now + elapsed)[i] == left[i] {
      if w.TimedOut? {
        TotalTail(list, i + 1);
      } else {
        TotalHead(list, l[0], i + 1);
      }
    }
  }

  /** A wait keeps every remaining deadline exactly when a timeout comes just as the head is due
      or a message no later, and brings them forward exactly when a timeout comes before. */
  lemma WaitExactIff(list: seq<Timeo>, w: Wake, elapsed: nat, now: nat)
    requires list != []
    ensures var left := Left(View(list, now), w);
      var after := View(AfterWait(list, w, elapsed), now + elapsed);
      && |after| == |left|
      && (left != [] ==> (after == left <==> elapsed == list[0].time || (w.Message? && elapsed < list[0].time)))
      && (left != [] ==> (after[0].due < left[0].due <==> w.TimedOut? && elapsed < list[0].time))
      && (forall i :: 0 <= i < |left| ==> after[i].due - left[i].due == Shift(list, w, elapsed))
  {
    WaitView(list, w, elapsed, now);
    var left := Left(View(list, now), w);
    var after := View(AfterWait(list, w, elapsed), now + elapsed);
    if left != [] {
      assert after[0].due == left[0].due + Shift(list, w, elapsed);
    }
  }

  /** A timeout that comes 5 ms late leaves the second timer 5 ms late. */
  lemma OverrunExample()
    ensures var list := [Timeo(10, 1, 0), Timeo(10, 2, 0)];
      View(list, 0)[1].due == 20 && View(AfterWait(list, TimedOut, 15), 15)[0] == Timer(25, 2, 0)
  {
    var list := [Timeo(10, 1, 0), Timeo(10, 2, 0)];
    assert Total(list, 1) == 10 && Total(list, 2) == 20;
    WaitView(list, TimedOut, 15, 0);
    assert Left(View(list, 0), TimedOut)[0] == View(list, 0)[1];
  }

  // ------------------------------------------------------- adding and cancelling

  /** The index of the first entry due after `msecs`. */
  function Place(list: seq<Timeo>, msecs: nat): (n: nat)
    ensures n <= |list| && Total(list, n) <= msecs && (n < |list| ==> Total(list, n + 1) > msecs)
  {
    var n := FirstAfter(View(list, 0), msecs, 0);
    assert n > 0 ==> View(list, 0)[n - 1].due <= msecs;
    n
  }

  /** The place found on relative times is the place for the absolute deadline. */
  lemma PlaceIs(list: seq<Timeo>, msecs: nat, n: nat, base: nat)
    requires n <= |list| && Total(list, n) <= msecs && (n < |list| ==> Total(list, n + 1) > msecs)
    ensures FirstAfter(View(list, base), base + msecs, 0) == n && Place(list, msecs) == n
  {
    var v, w := View(list, base), View(list, 0);
    forall i | 0 <= i < n ensures v[i].due <= base + msecs && w[i].due <= msecs { TotalMonotonic(list, i + 1, n); }
    FirstAfterIs(v, base + msecs, 0, n);
    FirstAfterIs(w, msecs, 0, n);
  }

  function Added(list: seq<Timeo>, msecs: nat, h: nat, arg: nat): seq<Timeo> {
    var n := Place(list, msecs);
    InsertAt(list, n, Timeo(msecs - Total(list, n), h, arg))
  }

  lemma AddedView(list: seq<Timeo>, msecs: nat, h: nat, arg: nat, base: nat)
    ensures View(Added(list, msecs, h, arg), base) == Inserted(View(list, base), Timer(base + msecs, h, arg))
    ensures Inserted(View(list, base), Timer(base + msecs, h, arg))
         == InsertedAt(View(list, base), Place(list, msecs), Timer(base + msecs, h, arg))
  {
    var n := Place(list, msecs);
    PlaceIs(list, msecs, n, base);
    InsertAtView(list, n, Timeo(msecs - Total(list, n), h, arg), base);
  }

  predicate Calls(x: Timeo, h: nat, arg: nat) {
    x.h == h && x.arg == arg
  }

  /** The first entry from index `i` on that calls `h` with `arg`. */
  function FirstMatch(list: seq<Timeo>, h: nat, arg: nat, i: nat): (n: nat)
    requires i <= |list|
    ensures i <= n <= |list|
    decreases |list| - i
  {
    if i == |list| || Calls(list[i], h, arg) then i else FirstMatch(list, h, arg, i + 1)
  }

  function Removed(list: seq<Timeo>, h: nat, arg: nat): seq<Timeo> {
    var n := FirstMatch(list, h, arg, 0);
    if n < |list| then RemoveAt(list, n) else list
  }

  lemma {:induction false} MatchSame(list: seq<Timeo>, h: nat, arg: nat, base: nat, i: nat)
    requires i <= |list|
    ensures Matching(View(list, base), h, arg, i) == FirstMatch(list, h, arg, i)
    decreases |list| - i
  {
    if i < |list| { MatchSame(list, h, arg, base, i + 1); }
  }

  lemma RemovedView(list: seq<Timeo>, h: nat, arg: nat, base: nat)
    ensures View(Removed(list, h, arg), base) == Cancelled(View(list, base), h, arg)
    ensures Cancelled(View(list, base), h, arg) == Without(View(list, base), FirstMatch(list, h, arg, 0))
  {
    var n := FirstMatch(list, h, arg, 0);
    MatchSame(list, h, arg, base, 0);
    if n < |list| { RemoveAtView(list, n, base); }
  }

  // --------------------------------------------------------------------- runs

  /** Handlers run between waits and may add and cancel timers themselves. */
  datatype Event =
    | Add(msecs: nat, h: nat, arg: nat)
    | Cancel(h: nat, arg: nat)
    | Wait(w: Wake, elapsed: nat)

  datatype Clock = Clock(now: nat, list: seq<Timeo>)

  /** The timers and the clock, on absolute deadlines. */
  datatype Wall = Wall(now: nat, timers: seq<Timer>)

  function Step(c: Clock, e: Event): Clock {
    match e
    case Add(msecs, h, arg) => c.(list := Added(c.list, msecs, h, arg))
    case Cancel(h, arg) => c.(list := Removed(c.list, h, arg))
    case Wait(w, elapsed) => Clock(c.now + elapsed, if c.list == [] then [] else AfterWait(c.list, w, elapsed))
  }

  /** By how much a wait that ends at `t` moves the timers behind it. */
  function Late(timers: seq<Timer>, w: Wake, t: int): int {
    if timers == [] || (w.Message? && t <= timers[0].due) then 0 else t - timers[0].due
  }

  /** On absolute deadlines: a wait ends with the first timer fired, or with a message, and moves
      whatever is left by the time it ended late, or a timeout early. */
  function WallStep(s: Wall, e: Event): Wall {
    match e
    case Add(msecs, h, arg) => s.(timers := Inserted(s.timers, Timer(s.now + msecs, h, arg)))
    case Cancel(h, arg) => s.(timers := Cancelled(s.timers, h, arg))
    case Wait(w, elapsed) =>
      Wall(s.now + elapsed, Delayed(Left(s.timers, w), Late(s.timers, w, s.now + elapsed)))
  }

  function After(c: Clock, es: seq<Event>): Clock {
    if es == [] then c else Step(After(c, es[..|es| - 1]), es[|es| - 1])
  }

  function WallAfter(s: Wall, es: seq<Event>): Wall {
    if es == [] then s else WallStep(WallAfter(s, es[..|es| - 1]), es[|es| - 1])
  }

  ghost function Abs(c: Clock): Wall {
    Wall(c.now, View(c.list, c.now))
  }

  lemma StepRefines(c: Clock, e: Event)
    ensures Abs(Step(c, e)) == WallStep(Abs(c), e)
  {
    match e
    case Add(msecs, h, arg) => AddedView(c.list, msecs, h, arg, c.now);
    case Cancel(h, arg) => RemovedView(c.list, h, arg, c.now);
    case Wait(w, elapsed) => WaitRefines(c, w, elapsed);
  }

  lemma WaitRefines(c: Clock, w: Wake, elapsed: nat)
    ensures Abs(Step(c, Wait(w, elapsed))) == WallStep(Abs(c), Wait(w, elapsed))
  {
    if c.list != [] {
      WaitView(c.list, w, elapsed, c.now);
      LateIs(c, w, elapsed);
    }
  }

  lemma LateIs(c: Clock, w: Wake, elapsed: nat)
    requires c.list != []
    ensures Late(Abs(c).timers, w, c.now + elapsed) == Shift(c.list, w, elapsed)
  {
    assert Total(c.list, 1) == Total(c.list, 0) + Time(c.list, 0);
  }

  /** The delta list refines absolute deadlines over every run, whenever waits end. */
  lemma {:induction false} RunRefines(c: Clock, es: seq<Event>)
    ensures Abs(After(c, es)) == WallAfter(Abs(c), es)
    ensures Sorted(WallAfter(Abs(c), es).timers)
  {
    if es != [] {
      RunRefines(c, es[..|es| - 1]);
      StepRefines(After(c, es[..|es| - 1]), es[|es| - 1]);
    }
    ViewSorted(After(c, es).list, After(c, es).now);
  }

  // ---------------------------------------------------------- asked for and got

  /** The moments each timer still in the list was asked for, in list order. */
  function Asked(c: Clock, es: seq<Event>): (asked: seq<int>)
    ensures |asked| == |After(c, es).list|
  {
    if es == [] then seq(|c.list|, i requires 0 <= i < |c.list| => View(c.list, c.now)[i].due) else
      var b := After(c, es[..|es| - 1]);
      AskedStep(b, Asked(c, es[..|es| - 1]), es[|es| - 1])
  }

  function AskedStep(b: Clock, was: seq<int>, e: Event): (asked: seq<int>)
    requires |was| == |b.list|
    ensures |asked| == |Step(b, e).list|
  {
    match e
    case Add(msecs, _, _) => var n := Place(b.list, msecs); was[..n] + [b.now + msecs] + was[n..]
    case Cancel(h, arg) => var n := FirstMatch(b.list, h, arg, 0); if n < |was| then was[..n] + was[n + 1..] else was
    case Wait(w, _) => if w.TimedOut? && was != [] then was[1..] else was
  }

  function ShiftBy(b: Clock, e: Event): int {
    if e.Wait? && b.list != [] then Shift(b.list, e.w, e.elapsed) else 0
  }

  /** The time by which waits ended late, in all. */
  function Overruns(c: Clock, es: seq<Event>): nat {
    if es == [] then 0 else
      var d := ShiftBy(After(c, es[..|es| - 1]), es[|es| - 1]);
      Overruns(c, es[..|es| - 1]) + if d > 0 then d else 0
  }

  /** The time by which timeouts came before the head was due, in all. */
  function Cuts(c: Clock, es: seq<Event>): nat {
    if es == [] then 0 else
      var d := ShiftBy(After(c, es[..|es| - 1]), es[|es| - 1]);
      Cuts(c, es[..|es| - 1]) + if d < 0 then -d else 0
  }

  /** Timer `i` is due no earlier than asked for less `cut`, and no later than that by `late`. */
  predicate DueAt(v: seq<Timer>, asked: seq<int>, cut: nat, late: nat, i: nat) {
    i < |v| && i < |asked| ==> asked[i] - cut <= v[i].due <= asked[i] + late
  }

  lemma DueInsert(v: seq<Timer>, asked: seq<int>, cut: nat, late: nat, n: nat, x: Timer, i: nat)
    requires |v| == |asked| && n <= |v| && forall j: nat :: DueAt(v, asked, cut, late, j)
    ensures DueAt(InsertedAt(v, n, x), asked[..n] + [x.due] + asked[n..], cut, late, i)
  {
    assert DueAt(v, asked, cut, late, i);
    if i > n { assert DueAt(v, asked, cut, late, i - 1); }
  }

  lemma DueRemove(v: seq<Timer>, asked: seq<int>, cut: nat, late: nat, n: nat, i: nat)
    requires |v| == |asked| && n < |v| && forall j: nat :: DueAt(v, asked, cut, late, j)
    ensures DueAt(Without(v, n), asked[..n] + asked[n + 1..], cut, late, i)
  {
    assert DueAt(v, asked, cut, late, i) && DueAt(v, asked, cut, late, i + 1);
  }

  lemma DueDelay(v: seq<Timer>, asked: seq<int>, cut: nat, late: nat, d: int, w: Wake, i: nat)
    requires |v| == |asked| && v != [] && forall j: nat :: DueAt(v, asked, cut, late, j)
    ensures DueAt(Delayed(Left(v, w), d), if w.TimedOut? then asked[1..] else asked,
                  cut + if d < 0 then -d else 0, late + if d > 0 then d else 0, i)
  {
    assert DueAt(v, asked, cut, late, i) && DueAt(v, asked, cut, late, i + 1);
  }

  lemma DueStep(b: Clock, was: seq<int>, e: Event, cut: nat, late: nat, i: nat)
    requires |was| == |b.list| && forall j: nat :: DueAt(View(b.list, b.now), was, cut, late, j)
    ensures var d := ShiftBy(b, e);
      DueAt(View(Step(b, e).list, Step(b, e).now), AskedStep(b, was, e),
            cut + if d < 0 then -d else 0, late + if d > 0 then d else 0, i)
  {
    match e
    case Add(_, _, _) => DueAdded(b, was, e, cut, late, i);
    case Cancel(_, _) => DueCancelled(b, was, e, cut, late, i);
    case Wait(w, elapsed) =>
      if b.list != [] {
        WaitView(b.list, w, elapsed, b.now);
        DueDelay(View(b.list, b.now), was, cut, late, Shift(b.list, w, elapsed), w, i);
      }
  }

  lemma DueAdded(b: Clock, was: seq<int>, e: Event, cut: nat, late: nat, i: nat)
    requires |was| == |b.list| && e.Add? && forall j: nat :: DueAt(View(b.list, b.now), was, cut, late, j)
    ensures DueAt(View(Step(b, e).list, b.now), AskedStep(b, was, e), cut, late, i)
  {
    AddedView(b.list, e.msecs, e.h, e.arg, b.now);
    DueInsert(View(b.list, b.now), was, cut, late, Place(b.list, e.msecs), Timer(b.now + e.msecs, e.h, e.arg), i);
  }

  lemma DueCancelled(b: Clock, was: seq<int>, e: Event, cut: nat, late: nat, i: nat)
    requires |was| == |b.list| && e.Cancel? && forall j: nat :: DueAt(View(b.list, b.now), was, cut, late, j)
    ensures DueAt(View(Step(b, e).list, b.now), AskedStep(b, was, e), cut, late, i)
  {
    RemovedView(b.list, e.h, e.arg, b.now);
    var n := FirstMatch(b.list, e.h, e.arg, 0);
    if n < |was| { DueRemove(View(b.list, b.now), was, cut, late, n, i); }
    assert DueAt(View(b.list, b.now), was, cut, late, i);
  }

  /** Over every run, each pending timer is due at the moment it was asked for, early by at most
      the time timeouts were cut short in all and late by at most the time waits overran. */
  lemma DueAsAsked(c: Clock, es: seq<Event>, i: nat)
    requires i < |After(c, es).list|
    ensures |WallAfter(Abs(c), es).timers| == |After(c, es).list|
    ensures Asked(c, es)[i] - Cuts(c, es) <= WallAfter(Abs(c), es).timers[i].due <= Asked(c, es)[i] + Overruns(c, es)
  {
    RunRefines(c, es);
    DueInRun(c, es, i);
  }

  lemma {:induction false} DueInRun(c: Clock, es: seq<Event>, i: nat)
    ensures DueAt(View(After(c, es).list, After(c, es).now), Asked(c, es), Cuts(c, es), Overruns(c, es), i)
    decreases |es|
  {
    if es != [] {
      var before := es[..|es| - 1];
      var b := After(c, before);
      forall j: nat ensures DueAt(View(b.list, b.now), Asked(c, before), Cuts(c, before), Overruns(c, before), j) {
        DueInRun(c, before, j);
      }
      DueStep(b, Asked(c, before), es[|es| - 1], Cuts(c, before), Overruns(c, before), i);
    }
  }

  /** A timer fires no earlier than it was asked for less what timeouts were cut short by, this
      one included; and at that very moment if no wait ended late or was cut short. */
  lemma FiresWhenDue(c: Clock, es: seq<Event>, elapsed: nat)
    requires After(c, es).list != []
    ensures var e := Wait(TimedOut, elapsed); var b := After(c, es);
      && Asked(c, es)[0] - Cuts(c, es) + (if ShiftBy(b, e) < 0 then ShiftBy(b, e) else 0) <= Step(b, e).now
      && (Cuts(c, es) == Overruns(c, es) == ShiftBy(b, e) == 0 ==> Step(b, e).now == Asked(c, es)[0])
  {
    DueAsAsked(c, es, 0);
    RunRefines(c, es);
    assert Total(After(c, es).list, 1) == Total(After(c, es).list, 0) + Time(After(c, es).list, 0);
  }

  // ---------------------------------------------------------- the semaphore wait

  const NOWAIT: nat := 0xffff_fffe

  /** What one pass of the loop in `sys_arch_sem_wait` meets: the semaphore is up; it is not and
      the thread sleeps for `ms`; or it is freed under the sleeper. */
  datatype Poll = Up | Slept(ms: nat) | Freed

  datatype Answer = Got(waited: nat) | Timeout | Waiting

  /** The time slept in the first `n` passes. */
  function Asleep(polls: seq<Poll>, n: nat): nat {
    if n == 0 || n > |polls| then 0 else Asleep(polls, n - 1) + if polls[n - 1].Slept? then polls[n - 1].ms else 0
  }

  /** How a wait with a head time of `tm` > 0 can end. */
  predicate Answered(tm: nat, w: Wake, elapsed: nat) {
    match w
    case Message => elapsed < tm
    case TimedOut => elapsed >= tm || (tm == NOWAIT && elapsed == 0)
  }

  /** `sys_arch_sem_wait`: a message is never reported with more time than was allowed, and a
      timeout is early only for NOWAIT, at once, or when the semaphore was freed. */
  method SemWait(tm: nat, polls: seq<Poll>) returns (r: Answer, ghost used: nat)
    requires tm < WORD
    ensures used <= |polls|
    ensures r.Got? ==> r.waited == Asleep(polls, used) % WORD && (tm > 0 ==> Answered(tm, Message, r.waited))
    ensures r.Timeout? ==> (tm > 0 && Answered(tm, TimedOut, Asleep(polls, used))) || Freed in polls[..used]
    ensures tm == NOWAIT && polls != [] ==> used == 0 && r == if polls[0].Up? then Got(0) else Timeout
    ensures tm == 0 && Freed !in polls ==> !r.Timeout?
    ensures r.Waiting? ==> used == |polls|
  {
    var waited, i := 0, 0;
    used := 0;
    while (tm == 0 || waited < tm) && i < |polls|
      invariant used == i <= |polls| && waited == Asleep(polls, i) % WORD
      invariant tm == NOWAIT ==> i == 0
    {
      if polls[i].Up? {
        return Got(waited), used;
      }
      if tm == NOWAIT {
        return Timeout, used;
      }
      used := i + 1;
      if polls[i].Freed? {
        assert polls[..used][i] == Freed;
        return Timeout, used;
      }
      WrappedSum(Asleep(polls, i), polls[i].ms);
      waited := (waited + polls[i].ms) % WORD;
      i := i + 1;
    }
    if tm == 0 || waited < tm {
      return Waiting, used;
    }
    return Timeout, used;
  }

  lemma WrappedSum(a: nat, b: nat)
    ensures (a % WORD + b) % WORD == (a + b) % WORD
  {
    var q := a / WORD;
    assert a + b == WORD * q + (a % WORD + b);
    WholeWords(q, a % WORD + b);
  }

  lemma {:induction false} WholeWords(q: nat, x: nat)
    ensures (WORD * q + x) % WORD == x % WORD
  {
    if q > 0 {
      WholeWords(q - 1, x);
      assert WORD * q + x == WORD * (q - 1) + x + WORD;
    }
  }

  /** The wait of an event ends as the code has it: a head already due fires without a wait. */
  predicate Honest(b: Clock, e: Event) {
    e.Wait? && b.list != [] ==>
      if b.list[0].time == 0 then e.w.TimedOut? && e.elapsed == 0 else Answered(b.list[0].time, e.w, e.elapsed)
  }

  predicate AllHonest(c: Clock, es: seq<Event>) {
    es == [] || (AllHonest(c, es[..|es| - 1]) && Honest(After(c, es[..|es| - 1]), es[|es| - 1]))
  }

  /** The head's time, handed to the wait, happens to be the mark for not waiting. */
  predicate Mistaken(b: Clock, e: Event) {
    e.Wait? && b.list != [] && e.w.TimedOut? && b.list[0].time == NOWAIT && e.elapsed == 0
  }

  predicate NeverMistaken(c: Clock, es: seq<Event>) {
    es == [] || (NeverMistaken(c, es[..|es| - 1]) && !Mistaken(After(c, es[..|es| - 1]), es[|es| - 1]))
  }

  /** With waits answered by a semaphore that lives, timeouts are cut short exactly by a head
      whose time is NOWAIT; without one, no timer is ever due before it was asked for. */
  lemma {:induction false} EarlyOnlyNowait(c: Clock, es: seq<Event>)
    requires AllHonest(c, es)
    ensures Cuts(c, es) == 0 <==> NeverMistaken(c, es)
    decreases |es|
  {
    if es != [] { EarlyOnlyNowait(c, es[..|es| - 1]); }
  }

  /** A timer asked for in 2^32 - 2 ms fires at once, and the one 1 ms behind it is due in 1 ms. */
  lemma NowaitExample()
    ensures var list := [Timeo(NOWAIT, 1, 0), Timeo(1, 2, 0)];
      && Answered(NOWAIT, TimedOut, 0)
      && View(list, 0)[1].due == WORD - 1 && View(AfterWait(list, TimedOut, 0), 0)[0] == Timer(1, 2, 0)
  {
    var list := [Timeo(NOWAIT, 1, 0), Timeo(1, 2, 0)];
    assert Total(list, 1) == NOWAIT && Total(list, 2) == WORD - 1;
    WaitView(list, TimedOut, 0, 0);
    assert Left(View(list, 0), TimedOut)[0] == View(list, 0)[1];
  }

  // -------------------------------------------------------------- no wrap-around

  lemma AddedBounded(list: seq<Timeo>, msecs: nat, h: nat, arg: nat)
    requires Bounded(list) && msecs < WORD
    ensures Bounded(Added(list, msecs, h, arg))
  {
    var n := Place(list, msecs);
    var l := Added(list, msecs, h, arg);
    forall k: nat ensures BoundedAt(l, k) {
      if k <= |l| { TotalInsert(list, n, Timeo(msecs - Total(list, n), h, arg), k); }
      assert BoundedAt(list, k);
      if k > 0 { assert BoundedAt(list, k - 1); }
    }
  }

  lemma RemovedBounded(list: seq<Timeo>, h: nat, arg: nat)
    requires Bounded(list)
    ensures Bounded(Removed(list, h, arg))
  {
    var n := FirstMatch(list, h, arg, 0);
    if n < |list| {
      forall k: nat ensures BoundedAt(RemoveAt(list, n), k) {
        if k < |list| { TotalRemove(list, n, k); }
        assert BoundedAt(list, k) && BoundedAt(list, k + 1);
      }
    }
  }

  lemma WaitBounded(list: seq<Timeo>, w: Wake, elapsed: nat)
    requires Bounded(list) && list != []
    ensures Bounded(AfterWait(list, w, elapsed))
  {
    var l := AfterWait(list, w, elapsed);
    forall k: nat ensures BoundedAt(l, k) {
      assert BoundedAt(list, k) && BoundedAt(list, k + 1);
      if w.TimedOut? {
        TotalTail(list, k);
      } else if k > 0 {
        TotalHead(list, l[0], k);
      }
    }
  }

  /** Every entry, and every sum of neighbours, fits a u32_t. */
  lemma BoundedTimes(list: seq<Timeo>, n: nat)
    requires Bounded(list) && n < |list|
    ensures list[n].time < WORD && (n + 1 < |list| ==> list[n].time + list[n + 1].time < WORD)
  {
    assert BoundedAt(list, n + 1) && BoundedAt(list, n + 2);
    assert Total(list, n + 1) == Total(list, n) + Time(list, n);
    assert Total(list, n + 2) == Total(list, n + 1) + Time(list, n + 1);
  }

  class Timeouts {
    var list: seq<Timeo>

    ghost predicate Valid()
      reads this
    {
      Bounded(list)
    }

    constructor ()
      ensures Valid() && list == []
    {
      list := [];
    }

    /** `memory` is whether memp_malloc found a free entry. */
    method SysTimeout(msecs: nat, h: nat, arg: nat, memory: bool)
      requires Valid() && msecs < WORD
      modifies this
      ensures Valid()
      ensures list == if memory then Added(old(list), msecs, h, arg) else old(list)
    {
      if !memory {
        return;
      }
      AddedBounded(list, msecs, h, arg);
      if list == [] {
        PlaceIs(list, msecs, 0, 0);
        list := [Timeo(msecs, h, arg)];
        assert list == Added(old(list), msecs, h, arg);
        return;
      }
      if list[0].time > msecs {
        PlaceIs(list, msecs, 0, 0);
        list := [Timeo(msecs, h, arg), list[0].(time := list[0].time - msecs)] + list[1..];
        assert list == Added(old(list), msecs, h, arg);
        return;
      }
      var i := 0;
      var time := msecs;
      while true
        invariant 0 <= i < |list| && list == old(list) && Valid()
        invariant time == msecs - Total(list, i) && list[i].time <= time < WORD
        decreases |list| - i
      {
        time := time - list[i].time;
        if i + 1 == |list| || list[i + 1].time > time {
          PlaceIs(list, msecs, i + 1, 0);
          LinkAfter(i, Timeo(time, h, arg));
          return;
        }
        i := i + 1;
      }
    }

    /** Entry `x` goes behind entry `i`, and the one after it waits that much less. */
    method LinkAfter(i: nat, x: Timeo)
      requires i < |list| && (i + 1 < |list| ==> list[i + 1].time >= x.time)
      modifies this
      ensures list == InsertAt(old(list), i + 1, x)
    {
      if i + 1 < |list| {
        list := list[..i + 1] + [x] + ([list[i + 1].(time := list[i + 1].time - x.time)] + list[i + 2..]);
      } else {
        list := list + [x];
      }
    }

    method SysUntimeout(h: nat, arg: nat)
      requires Valid()
      modifies this
      ensures Valid() && list == Removed(old(list), h, arg)
    {
      RemovedBounded(list, h, arg);
      var i := 0;
      while i < |list|
        invariant 0 <= i <= |list| && list == old(list)
        invariant FirstMatch(list, h, arg, 0) == FirstMatch(list, h, arg, i)
      {
        if list[i].h == h && list[i].arg == arg {
          BoundedTimes(list, i);
          if i + 1 < |list| {
            list := list[..i] + ([list[i + 1].(time := list[i + 1].time + list[i].time)] + list[i + 2..]);
          } else {
            list := list[..i];
          }
          assert list == Removed(old(list), h, arg);
          return;
        }
        i := i + 1;
      }
    }

    /** One pass of the loop in `sys_mbox_fetch` with a timer pending.  `needed` is what
        sys_arch_mbox_fetch returns for the time it was given, None for SYS_ARCH_TIMEOUT; it
        is not called when the head is already due.  Returns the timer to fire, if any. */
    method Fetch(needed: Option<nat>) returns (fired: Option<Timeo>)
      requires Valid() && list != []
      modifies this
      ensures Valid()
      ensures fired.Some? <==> needed.None? || old(list)[0].time == 0
      ensures fired.Some? ==> fired.value == old(list)[0] && list == AfterWait(old(list), TimedOut, old(list)[0].time)
      ensures fired.None? ==> list == AfterWait(old(list), Message, needed.value)
    {
      var wait := if list[0].time > 0 then needed else None;
      if wait.None? {
        WaitBounded(list, TimedOut, list[0].time);
        fired := Some(list[0]);
        list := list[1..];
      } else {
        WaitBounded(list, Message, wait.value);
        if wait.value < list[0].time {
          list := list[0 := list[0].(time := list[0].time - wait.value)];
        } else {
          list := list[0 := list[0].(time := 0)];
        }
        fired := None;
      }
    }
  }
}
