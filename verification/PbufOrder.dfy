/** How `pbuf_copy` of net/lwip/core/pbuf.c ends, from the lengths and totals of the buffers
    of the two chains alone: the order in which its two cursors reach them. */
module PbufOrder {

  /** `Halt`: an assertion of the library stopped the system. */
  datatype Err = Ok | Arg | Val | Halt

  /** len and tot_len of the buffers of a chain. */
  datatype Sizes = Sizes(len: seq<nat>, tot: seq<nat>)
  {
    predicate Shape() {
      0 < |len| == |tot|
    }

    /** Buffer `i` ends a packet although another one follows: a packet queue. */
    predicate QueueAt(i: nat) {
      i + 1 < |len| && i < |tot| && len[i] == tot[i]
    }

    function Len(i: nat): nat {
      if i < |len| then len[i] else 0
    }
  }

  // ------------------------------------------------------------ the loop, without bytes

  /** Target buffer `i` at offset `ot`, source buffer `j` at offset `of`. */
  datatype Spot = Spot(i: nat, ot: nat, j: nat, of: nat)

  /** The bytes left in the two buffers. */
  function TargetLeft(t: Sizes, s: Spot): int {
    t.Len(s.i) - s.ot
  }

  function SourceLeft(f: Sizes, s: Spot): int {
    f.Len(s.j) - s.of
  }

  /** One pass copies the smaller of the two, and moves on from a buffer it used up. */
  function Pass(t: Sizes, f: Sizes, s: Spot): Spot {
    var n := if TargetLeft(t, s) >= SourceLeft(f, s) then SourceLeft(f, s) else TargetLeft(t, s);
    var m := if n < 0 then 0 else n;
    Spot(if TargetLeft(t, s) == n then s.i + 1 else s.i, if TargetLeft(t, s) == n then 0 else s.ot + m,
         if SourceLeft(f, s) == n then s.j + 1 else s.j, if SourceLeft(f, s) == n then 0 else s.of + m)
  }

  /** A cursor stands in a packet queue. */
  predicate InQueue(t: Sizes, f: Sizes, s: Spot) {
    f.QueueAt(s.j) || t.QueueAt(s.i)
  }

  /** The loop from spot `s` on. */
  function Walk(t: Sizes, f: Sizes, s: Spot): Err
    decreases |t.len| + |f.len| - s.i - s.j
  {
    if s.i >= |t.len| then Halt
    else if s.j >= |f.len| then Ok
    else if InQueue(t, f, Pass(t, f, s)) then Val
    else if Pass(t, f, s).j >= |f.len| then Ok
    else Walk(t, f, Pass(t, f, s))
  }

  lemma PassIs(t: Sizes, f: Sizes, s: Spot, n: nat)
    requires n == if TargetLeft(t, s) >= SourceLeft(f, s) then SourceLeft(f, s) else TargetLeft(t, s)
    ensures var (i, j) := (s.ot + n == t.Len(s.i), s.of + n == f.Len(s.j));
      Pass(t, f, s) == Spot(if i then s.i + 1 else s.i, if i then 0 else s.ot + n,
                            if j then s.j + 1 else s.j, if j then 0 else s.of + n)
  {
  }

  lemma OnePass(t: Sizes, f: Sizes, s: Spot)
    requires s.i < |t.len| && s.j < |f.len|
    ensures var n := Pass(t, f, s);
      Walk(t, f, s) == if InQueue(t, f, n) then Val else if n.j >= |f.len| then Ok else Walk(t, f, n)
  {
  }

  // -------------------------------------------------------------- the order of arrival

  /** Bytes before buffer `i`. */
  function Before(len: seq<nat>, i: nat): nat {
    if i == 0 || i > |len| then 0 else Before(len, i - 1) + len[i - 1]
  }

  /** Empty buffers just before buffer `i`, the first of the chain not counted: the passes spent
      at that position before `i` is reached. */
  function Idle(len: seq<nat>, i: nat): nat {
    if i <= 1 || i > |len| || len[i - 1] > 0 then 0 else 1 + Idle(len, i - 1)
  }

  /** Buffer `i` of one chain is reached in an earlier pass than buffer `j` of the other. */
  predicate Earlier(c: seq<nat>, i: nat, d: seq<nat>, j: nat) {
    Before(c, i) < Before(d, j) || (Before(c, i) == Before(d, j) && Idle(c, i) < Idle(d, j))
  }

  lemma {:induction false} NextLater(c: seq<nat>, i: nat)
    requires 1 <= i < |c|
    ensures Earlier(c, i, c, i + 1)
  {
  }

  lemma {:induction false} Later(c: seq<nat>, i: nat, k: nat)
    requires 1 <= i <= k <= |c|
    ensures i < k ==> Earlier(c, i, c, k)
    ensures !Earlier(c, k, c, i)
    decreases k
  {
    if i < k {
      Later(c, i, k - 1);
      NextLater(c, k - 1);
    }
  }

  // ------------------------------------------------------ the loop follows that order

  /** Both cursors are at the same byte, and neither at the end of a buffer that has bytes. */
  predicate Level(t: Sizes, f: Sizes, s: Spot) {
    && Before(t.len, s.i) + s.ot == Before(f.len, s.j) + s.of
    && (s.ot == 0 || s.ot < t.Len(s.i)) && (s.of == 0 || s.of < f.Len(s.j))
  }

  /** Each cursor has still to reach whatever comes after the other's buffer. */
  predicate Ordered(t: seq<nat>, f: seq<nat>, i: nat, j: nat) {
    (i >= 1 ==> Earlier(t, i, f, j + 1)) && (j >= 1 && i < |t| ==> Earlier(f, j, t, i + 1))
  }

  /** What holds at the top of every pass. */
  predicate Merged(t: Sizes, f: Sizes, s: Spot) {
    s.i <= |t.len| && s.j < |f.len| && Level(t, f, s) && Ordered(t.len, f.len, s.i, s.j)
  }

  /** The cursor whose next buffer comes first moves on; both if they come together. */
  lemma {:induction false} WhoMoves(t: Sizes, f: Sizes, s: Spot)
    requires Merged(t, f, s) && s.i < |t.len|
    ensures TargetLeft(t, s) <= SourceLeft(f, s) <==> !Earlier(f.len, s.j + 1, t.len, s.i + 1)
    ensures SourceLeft(f, s) <= TargetLeft(t, s) <==> !Earlier(t.len, s.i + 1, f.len, s.j + 1)
  {
    assert Before(t.len, s.i + 1) == Before(t.len, s.i) + t.len[s.i];
    assert Before(f.len, s.j + 1) == Before(f.len, s.j) + f.len[s.j];
  }

  lemma {:induction false} StillMerged(t: Sizes, f: Sizes, s: Spot)
    requires Merged(t, f, s) && s.i < |t.len|
    ensures Pass(t, f, s).j < |f.len| ==> Merged(t, f, Pass(t, f, s))
  {
    StillLevel(t, f, s);
    StillOrdered(t, f, s);
  }

  lemma {:induction false} StillOrdered(t: Sizes, f: Sizes, s: Spot)
    requires Merged(t, f, s) && s.i < |t.len|
    ensures var n := Pass(t, f, s); n.j < |f.len| ==> Ordered(t.len, f.len, n.i, n.j)
  {
    WhoMoves(t, f, s);
    NextOrdered(t.len, f.len, s.i, s.j, !Earlier(f.len, s.j + 1, t.len, s.i + 1),
                !Earlier(t.len, s.i + 1, f.len, s.j + 1));
  }

  lemma {:induction false} NextOrdered(t: seq<nat>, f: seq<nat>, i: nat, j: nat, tm: bool, fm: bool)
    requires i < |t| && j < |f| && Ordered(t, f, i, j)
    requires (tm <==> !Earlier(f, j + 1, t, i + 1)) && (fm <==> !Earlier(t, i + 1, f, j + 1))
    ensures var (i', j') := (if tm then i + 1 else i, if fm then j + 1 else j);
      j' < |f| ==> Ordered(t, f, i', j')
  {
    if fm && j + 1 < |f| {
      NextLater(f, j + 1);
      if tm { AheadOfNext(t, i + 1, f, j + 1); } else if i >= 1 { Chained(t, i, f, j + 1, f, j + 2); }
    }
    if tm && i + 1 < |t| {
      NextLater(t, i + 1);
      if fm { AheadOfNext(f, j + 1, t, i + 1); } else if j >= 1 { Chained(f, j, t, i + 1, t, i + 2); }
    }
  }

  lemma {:induction false} Chained(b: seq<nat>, h: nat, c: seq<nat>, i: nat, d: seq<nat>, j: nat)
    requires Earlier(b, h, c, i) && Earlier(c, i, d, j)
    ensures Earlier(b, h, d, j)
  {
  }

  lemma {:induction false} AheadOfNext(c: seq<nat>, i: nat, d: seq<nat>, j: nat)
    requires !Earlier(d, j, c, i) && Earlier(d, j, d, j + 1)
    ensures Earlier(c, i, d, j + 1)
  {
  }

  lemma {:induction false} StillLevel(t: Sizes, f: Sizes, s: Spot)
    requires Level(t, f, s) && s.i < |t.len| && s.j < |f.len|
    ensures Level(t, f, Pass(t, f, s))
  {
    assert Before(t.len, s.i + 1) == Before(t.len, s.i) + t.len[s.i];
    assert Before(f.len, s.j + 1) == Before(f.len, s.j) + f.len[s.j];
  }

  // ------------------------------------------------------------------ how it ends

  /** A queue in the source that is reached no later than the target's end. */
  predicate SourceQueue(t: Sizes, f: Sizes, k: nat) {
    f.QueueAt(k) && !Earlier(t.len, |t.len|, f.len, k)
  }

  /** A queue in the target that is reached no later than the source's end. */
  predicate TargetQueue(t: Sizes, f: Sizes, k: nat) {
    t.QueueAt(k) && !Earlier(f.len, |f.len|, t.len, k)
  }

  ghost predicate QueueAhead(t: Sizes, f: Sizes, s: Spot) {
    || (exists k: nat :: s.j < k && SourceQueue(t, f, k))
    || (exists k: nat :: s.i < k && TargetQueue(t, f, k))
  }

  /** A queue is ahead, or the next pass stays in one. */
  ghost predicate QueueMet(t: Sizes, f: Sizes, s: Spot) {
    || QueueAhead(t, f, s)
    || (f.QueueAt(s.j) && Pass(t, f, s).j == s.j)
    || (t.QueueAt(s.i) && Pass(t, f, s).i == s.i)
  }

  /** A queue the pass moves into is one that is reached in time. */
  lemma {:induction false} Reached(t: Sizes, f: Sizes, s: Spot)
    requires Merged(t, f, s) && s.i < |t.len|
    ensures var n := Pass(t, f, s);
      && (n.j > s.j && f.QueueAt(n.j) ==> SourceQueue(t, f, n.j))
      && (n.i > s.i && t.QueueAt(n.i) ==> TargetQueue(t, f, n.i))
  {
    WhoMoves(t, f, s);
    Later(f.len, s.j + 1, |f.len|);
    Later(t.len, s.i + 1, |t.len|);
  }

  /** What is met is met in the next pass, or ahead of where it leads. */
  lemma {:induction false} MetNext(t: Sizes, f: Sizes, s: Spot)
    requires Merged(t, f, s) && s.i < |t.len|
    ensures QueueMet(t, f, s) <==> InQueue(t, f, Pass(t, f, s)) || QueueAhead(t, f, Pass(t, f, s))
  {
    Reached(t, f, s);
  }

  /** With the source used up, what the target has left is reached too late. */
  lemma {:induction false} NoneAheadAtEnd(t: Sizes, f: Sizes, s: Spot)
    requires Merged(t, f, s) && s.i < |t.len| && Pass(t, f, s).j == |f.len|
    ensures !QueueAhead(t, f, Pass(t, f, s)) && !Earlier(t.len, |t.len|, f.len, |f.len|)
  {
    WhoMoves(t, f, s);
    Later(t.len, s.i + 1, |t.len|);
    forall k: nat | Pass(t, f, s).i < k ensures !TargetQueue(t, f, k) {
      if s.i + 1 < k < |t.len| { Later(t.len, s.i + 1, k); }
    }
  }

  /** With the target used up, what the source has left is reached too late. */
  lemma {:induction false} NoneAheadAtHalt(t: Sizes, f: Sizes, s: Spot)
    requires Merged(t, f, s) && s.i == |t.len| >= 1
    ensures !QueueAhead(t, f, s) && Earlier(t.len, |t.len|, f.len, |f.len|)
  {
    Later(f.len, s.j + 1, |f.len|);
    forall k: nat | s.j < k ensures !SourceQueue(t, f, k) {
      if k < |f.len| { Later(f.len, s.j + 1, k); }
    }
  }

  ghost predicate EndsAs(v: Err, t: Sizes, f: Sizes, met: bool) {
    && (v == Val <==> met)
    && (v == Halt <==> !met && Earlier(t.len, |t.len|, f.len, |f.len|))
    && v != Arg
  }

  /** From any pass on that begins outside a queue: ERR_VAL exactly if one is reached, and else
      the stop exactly if the target's end is reached before the source's. */
  lemma {:induction false} WalkIs(t: Sizes, f: Sizes, s: Spot)
    requires t.Shape() && f.Shape() && Merged(t, f, s) && !InQueue(t, f, s)
    ensures EndsAs(Walk(t, f, s), t, f, QueueAhead(t, f, s))
    decreases |t.len| + |f.len| - s.i - s.j
  {
    if s.i == |t.len| {
      NoneAheadAtHalt(t, f, s);
    } else {
      var n := Pass(t, f, s);
      MetNext(t, f, s);
      if InQueue(t, f, n) {
        assert Walk(t, f, s) == Val;
      } else if n.j == |f.len| {
        NoneAheadAtEnd(t, f, s);
      } else {
        StillMerged(t, f, s);
        WalkIs(t, f, n);
      }
    }
  }

  const START := Spot(0, 0, 0, 0)

  /** How `pbuf_copy` ends once the first totals are found to fit, for any lengths and totals.
      A queue at the first buffer counts only if the first pass stays in it, for it is looked at
      only after that. */
  lemma CopyEnds(t: Sizes, f: Sizes)
    requires t.Shape() && f.Shape()
    ensures EndsAs(Walk(t, f, START), t, f, QueueMet(t, f, START))
  {
    var n := Pass(t, f, START);
    MetNext(t, f, START);
    if InQueue(t, f, n) {
      assert Walk(t, f, START) == Val;
    } else if n.j == |f.len| {
      NoneAheadAtEnd(t, f, START);
    } else {
      StillMerged(t, f, START);
      WalkIs(t, f, n);
    }
  }

  // ------------------------------------------------------- when the totals are right

  /** tot_len of every buffer is its own length plus that of all after it. */
  ghost predicate TotalsRight(c: Sizes) {
    c.Shape() && forall i: nat :: TotalRight(c, i)
  }

  predicate TotalRight(c: Sizes, i: nat) {
    i < |c.len| && i < |c.tot| ==> Before(c.len, i) + c.tot[i] == Before(c.len, |c.len|)
  }

  lemma {:induction false} BeforeGrows(c: seq<nat>, i: nat, k: nat)
    requires i <= k <= |c|
    ensures Before(c, i) <= Before(c, k) && (i < k ==> Before(c, i) + c[i] <= Before(c, k))
    decreases k
  {
    if i < k { BeforeGrows(c, i, k - 1); }
  }

  /** The last buffer with bytes before buffer `k`, or the first one. */
  lemma {:induction false} LastUsed(c: seq<nat>, k: nat) returns (q: nat)
    requires 1 <= k <= |c|
    ensures q < k && Before(c, q) + c[q] == Before(c, k) && (q > 0 ==> c[q] > 0)
  {
    q := k - 1;
    if q > 0 && c[q] == 0 { q := LastUsed(c, k - 1); }
  }

  /** A source of three or more buffers whose last is empty is refused. */
  lemma {:induction false} EmptyTailMet(t: Sizes, f: Sizes)
    requires TotalsRight(t) && TotalsRight(f) && t.tot[0] >= f.tot[0] && |f.len| >= 3 && f.len[|f.len| - 1] == 0
    ensures QueueAhead(t, f, START)
  {
    var k := |f.len|;
    assert TotalRight(t, 0) && TotalRight(f, 0);
    var q := LastUsed(f.len, k - 1);
    var j := if q > 0 then q else 1;
    BeforeGrows(f.len, j, k);
    BeforeGrows(f.len, j, k - 1);
    assert TotalRight(f, j);
    assert Before(f.len, k) == Before(f.len, k - 1);
    assert SourceQueue(t, f, j);
  }

  /** With right totals the stop comes exactly for a target of one buffer and a source of one
      buffer of the same length with an empty one behind it. */
  lemma {:induction false} HaltIff(t: Sizes, f: Sizes)
    requires TotalsRight(t) && TotalsRight(f) && t.tot[0] >= f.tot[0]
    ensures Walk(t, f, START) == Halt <==> |t.len| == 1 && f.len == [t.len[0], 0]
  {
    CopyEnds(t, f);
    var k := |f.len|;
    assert TotalRight(t, 0) && TotalRight(f, 0);
    if Walk(t, f, START) == Halt {
      assert Idle(f.len, k) >= 1;
      if k >= 3 { EmptyTailMet(t, f); }
      TwoBuffers(t, f);
    }
  }

  lemma {:induction false} TwoBuffers(t: Sizes, f: Sizes)
    requires TotalsRight(t) && TotalsRight(f) && |f.len| == 2 && f.len[1] == 0
    requires !QueueMet(t, f, START) && Earlier(t.len, |t.len|, f.len, 2) && t.tot[0] >= f.tot[0]
    ensures |t.len| == 1 && f.len == [t.len[0], 0]
  {
    var m := |t.len|;
    assert TotalRight(t, 0) && TotalRight(f, 0) && Before(f.len, 2) == Before(f.len, 1) == f.len[0];
    assert Idle(f.len, 2) == 1 && Before(t.len, 1) == t.len[0];
    assert f.QueueAt(0) && f.len[0] <= t.len[0];
    BeforeGrows(t.len, 1, m);
    if m >= 2 { BeforeGrows(t.len, 1, m - 1); }
  }

  /** Two single packets, the target no shorter, are copied whole. */
  lemma {:induction false} OnePacketEnds(t: Sizes, f: Sizes)
    requires TotalsRight(t) && TotalsRight(f) && t.tot[0] >= f.tot[0]
    requires forall k: nat :: !t.QueueAt(k) && !f.QueueAt(k)
    ensures Walk(t, f, START) == Ok
  {
    CopyEnds(t, f);
    HaltIff(t, f);
    forall k: nat ensures !SourceQueue(t, f, k) && !TargetQueue(t, f, k) {
      assert !t.QueueAt(k) && !f.QueueAt(k);
    }
    if |f.len| == 2 && f.len[1] == 0 {
      assert TotalRight(f, 0) && Before(f.len, 2) == Before(f.len, 1) == f.len[0];
      assert f.QueueAt(0);
    }
  }

  /** One byte into a one-byte buffer, with an empty buffer behind the source: the byte is over,
      and the assertion stops the system. */
  lemma HaltExample()
    ensures Walk(Sizes([1], [1]), Sizes([1, 0], [1, 0]), START) == Halt
  {
    OnePass(Sizes([1], [1]), Sizes([1, 0], [1, 0]), START);
  }
}
