/** The lwIP heap of net/lwip/core/mem.c: headers inside one byte array, linked both
    ways by offsets, first fit from the lowest free block. */
module MemHeap {

  import opened Options

  /** SIZEOF_STRUCT_MEM, MIN_SIZE_ALIGNED and MEM_ALIGNMENT for 32-bit mem_size_t. */
  const HDR: nat := 12
  const MIN: nat := 12
  const ALIGN: nat := 4
  const WORD: nat := 0x1_0000_0000

  /** LWIP_MEM_ALIGN_SIZE in 32-bit arithmetic. */
  function AlignSize(n: nat): nat {
    (n + ALIGN - 1) % WORD / ALIGN * ALIGN
  }

  /** The size the allocator works with: aligned, at least MIN. */
  function Rounded(n: nat): (r: nat)
    ensures r >= MIN && r % ALIGN == 0
  {
    if AlignSize(n) < MIN then MIN else AlignSize(n)
  }

  // ------------------------------------------------------- the heap as blocks

  /** Bytes start..end of the heap, header included. */
  datatype Block = Block(start: nat, end: nat, used: bool) {
    /** The size of the data area. */
    function Room(): int { end - start - HDR }
  }

  predicate BlockOk(b: Block) {
    b.start + HDR + MIN <= b.end && b.start % ALIGN == 0 && b.end % ALIGN == 0
  }

  /** Block `i` is well sized and meets its successor. */
  predicate Placed(bs: seq<Block>, i: int) {
    0 <= i < |bs| ==> BlockOk(bs[i]) && (i + 1 < |bs| ==> bs[i].end == bs[i + 1].start)
  }

  /** Block `i` and its successor are not both free. */
  predicate Split(bs: seq<Block>, i: int) {
    0 <= i < |bs| - 1 ==> bs[i].used || bs[i + 1].used
  }

  /** The blocks cover 0..hi without gap or overlap. */
  ghost predicate Covers(bs: seq<Block>, hi: nat) {
    && |bs| > 0 && bs[0].start == 0 && bs[|bs| - 1].end == hi
    && forall i :: Placed(bs, i)
  }

  /** The blocks tile the heap exactly, and no two adjacent ones are free. */
  ghost predicate Tiled(bs: seq<Block>, hi: nat) {
    Covers(bs, hi) && forall i :: Split(bs, i)
  }

  predicate Fits(b: Block, n: nat) {
    !b.used && b.Room() >= n
  }

  /** The lowest block that fits, |bs| if there is none. */
  function FirstFit(bs: seq<Block>, n: nat): (i: nat)
    ensures i <= |bs|
    ensures i < |bs| ==> Fits(bs[i], n)
    ensures forall j :: 0 <= j < i ==> !Fits(bs[j], n)
  {
    if bs == [] then 0 else if Fits(bs[0], n) then 0 else 1 + FirstFit(bs[1..], n)
  }

  /** What block `b` becomes when `n` bytes are taken from its front. */
  function Carve(b: Block, n: nat): seq<Block> {
    if b.Room() >= n + HDR + MIN
    then [Block(b.start, b.start + HDR + n, true), Block(b.start + HDR + n, b.end, false)]
    else [b.(used := true)]
  }

  function Malloc(bs: seq<Block>, i: nat, n: nat): seq<Block>
    requires i < |bs|
  {
    bs[..i] + Carve(bs[i], n) + bs[i + 1..]
  }

  predicate FreeAt(bs: seq<Block>, i: int) {
    0 <= i < |bs| && !bs[i].used
  }

  /** Merge block `i` with its successor. */
  function Merge(bs: seq<Block>, i: nat): seq<Block>
    requires i + 1 < |bs|
  {
    bs[..i] + [bs[i].(end := bs[i + 1].end)] + bs[i + 2..]
  }

  function MergeNext(bs: seq<Block>, i: nat): seq<Block>
    requires i < |bs|
  {
    if FreeAt(bs, i + 1) then Merge(bs, i) else bs
  }

  function MergePrev(bs: seq<Block>, i: nat): seq<Block>
    requires i < |bs|
  {
    if FreeAt(bs, i - 1) then Merge(bs, i - 1) else bs
  }

  function Free(bs: seq<Block>, i: nat): seq<Block>
    requires i < |bs|
  {
    MergePrev(MergeNext(bs[i := bs[i].(used := false)], i), i)
  }

  /** Shrink the data area of block `i` to `n` bytes, if the rest is usable. */
  function Shrink(bs: seq<Block>, i: nat, n: nat): seq<Block>
    requires i < |bs|
  {
    var b := bs[i];
    var cut := b.start + HDR + n;
    if b.Room() <= n then bs
    else if FreeAt(bs, i + 1) then bs[..i] + [b.(end := cut), bs[i + 1].(start := cut)] + bs[i + 2..]
    else if b.Room() >= n + HDR + MIN then bs[..i] + [b.(end := cut), Block(cut, b.end, false)] + bs[i + 1..]
    else bs
  }

  // --------------------------------------------------------- shape invariant

  lemma MallocTiled(bs: seq<Block>, i: nat, n: nat, hi: nat)
    requires Tiled(bs, hi) && i < |bs| && Fits(bs[i], n) && n >= MIN && n % ALIGN == 0
    ensures Tiled(Malloc(bs, i, n), hi)
  {
    var r := Malloc(bs, i, n);
    assert Placed(bs, i);
    forall j ensures Placed(r, j) { MallocAt(bs, i, n, hi, j); }
    forall j ensures Split(r, j) { MallocAt(bs, i, n, hi, j); }
  }

  lemma MallocAt(bs: seq<Block>, i: nat, n: nat, hi: nat, j: int)
    requires Tiled(bs, hi) && i < |bs| && Fits(bs[i], n) && n >= MIN && n % ALIGN == 0
    ensures Placed(Malloc(bs, i, n), j) && Split(Malloc(bs, i, n), j)
  {
    assert Placed(bs, i) && Split(bs, i);
    if bs[i].Room() >= n + HDR + MIN { CarvedAt(bs, i, n, j); } else { WholeAt(bs, i, n, j); }
  }

  /** Two blocks in the place of one. */
  lemma CarvedAt(bs: seq<Block>, i: nat, n: nat, j: int)
    requires i < |bs| && Fits(bs[i], n) && bs[i].Room() >= n + HDR + MIN && n >= MIN && n % ALIGN == 0
    requires (forall k :: Placed(bs, k)) && (forall k :: Split(bs, k))
    ensures Placed(Malloc(bs, i, n), j) && Split(Malloc(bs, i, n), j)
  {
    var r := Malloc(bs, i, n);
    var b := bs[i];
    assert Placed(bs, i) && Split(bs, i);
    assert r[i] == Block(b.start, b.start + HDR + n, true) && r[i + 1] == Block(b.start + HDR + n, b.end, false);
    if j < i {
      assert Placed(bs, j) && Split(bs, j);
      assert j >= 0 ==> r[j] == bs[j] && (j + 1 < i ==> r[j + 1] == bs[j + 1]);
    } else if j > i {
      assert Placed(bs, j - 1) && Split(bs, j - 1);
      assert j > i + 1 && j < |r| ==> r[j] == bs[j - 1];
      assert j + 1 < |r| ==> r[j + 1] == bs[j];
    }
  }

  /** The whole block is taken. */
  lemma WholeAt(bs: seq<Block>, i: nat, n: nat, j: int)
    requires i < |bs| && Fits(bs[i], n) && bs[i].Room() < n + HDR + MIN
    requires (forall k :: Placed(bs, k)) && (forall k :: Split(bs, k))
    ensures Placed(Malloc(bs, i, n), j) && Split(Malloc(bs, i, n), j)
  {
    assert Malloc(bs, i, n) == bs[i := bs[i].(used := true)];
    assert Placed(bs, j) && Split(bs, j);
  }

  lemma MergeCovers(bs: seq<Block>, i: nat, hi: nat)
    requires Covers(bs, hi) && i + 1 < |bs|
    ensures Covers(Merge(bs, i), hi)
  {
    var r := Merge(bs, i);
    assert Placed(bs, i) && Placed(bs, i + 1);
    forall j ensures Placed(r, j) {
      if j < i { assert Placed(bs, j); }
      if j > i { assert Placed(bs, j + 1); }
    }
  }

  /** With block `i` free, merging it forward leaves no free successor. */
  lemma MergeNextOk(bs: seq<Block>, i: nat, hi: nat)
    requires Covers(bs, hi) && i < |bs| && !bs[i].used && forall j :: j != i && j != i - 1 ==> Split(bs, j)
    ensures var r := MergeNext(bs, i);
      && Covers(r, hi) && i < |r| && !r[i].used && r[..i] == bs[..i]
      && forall j :: j != i - 1 ==> Split(r, j)
  {
    var r := MergeNext(bs, i);
    if FreeAt(bs, i + 1) {
      MergeCovers(bs, i, hi);
      forall j | j != i - 1 ensures Split(r, j) {
        assert Split(bs, if j < i then j else j + 1);
      }
    } else {
      forall j | j != i - 1 ensures Split(r, j) {
        if j != i { assert Split(bs, j); }
      }
    }
  }

  lemma MergePrevOk(bs: seq<Block>, i: nat, hi: nat)
    requires Covers(bs, hi) && i < |bs| && !bs[i].used && forall j :: j != i - 1 ==> Split(bs, j)
    ensures Tiled(MergePrev(bs, i), hi)
  {
    var r := MergePrev(bs, i);
    if FreeAt(bs, i - 1) {
      MergeCovers(bs, i - 1, hi);
      assert Split(bs, i - 2);
      forall j ensures Split(r, j) {
        assert Split(bs, if j < i - 1 then j else j + 1);
      }
    } else {
      forall j ensures Split(r, j) {
        if j != i - 1 { assert Split(bs, j); }
      }
    }
  }

  lemma FreeTiled(bs: seq<Block>, i: nat, hi: nat)
    requires Tiled(bs, hi) && i < |bs| && bs[i].used
    ensures Tiled(Free(bs, i), hi)
  {
    var a := bs[i := bs[i].(used := false)];
    forall j ensures Placed(a, j) { assert Placed(bs, j); }
    forall j | j != i && j != i - 1 ensures Split(a, j) { assert Split(bs, j); }
    MergeNextOk(a, i, hi);
    MergePrevOk(MergeNext(a, i), i, hi);
  }

  /** Blocks i..k replaced by a used block up to `q` and a free one after it. */
  function Cut(bs: seq<Block>, i: nat, k: nat, q: nat, e: nat): seq<Block>
    requires i < k <= |bs|
  {
    bs[..i] + [Block(bs[i].start, q, true), Block(q, e, false)] + bs[k..]
  }

  lemma CutAt(bs: seq<Block>, i: nat, k: nat, q: nat, e: nat, j: nat)
    requires i < k <= |bs| && j < |bs| + 2 + i - k
    ensures var r := Cut(bs, i, k, q, e);
      && |r| == |bs| + 2 + i - k
      && r[j] == if j < i then bs[j]
                 else if j == i then Block(bs[i].start, q, true)
                 else if j == i + 1 then Block(q, e, false)
                 else bs[j - i - 2 + k]
  {
  }

  lemma CutPlaced(bs: seq<Block>, i: nat, k: nat, q: nat, e: nat, hi: nat, j: int)
    requires Tiled(bs, hi) && i < k <= |bs| && e == bs[k - 1].end && (k < |bs| ==> bs[k].used)
    requires BlockOk(Block(bs[i].start, q, true)) && BlockOk(Block(q, e, false))
    ensures Placed(Cut(bs, i, k, q, e), j) && Split(Cut(bs, i, k, q, e), j)
  {
    var r := Cut(bs, i, k, q, e);
    if 0 <= j < |r| {
      CutAt(bs, i, k, q, e, j);
      if j + 1 < |r| { CutAt(bs, i, k, q, e, j + 1); }
      if j < i {
        assert Placed(bs, j) && Split(bs, j);
      } else if j == i + 1 {
        assert Placed(bs, k - 1);
      } else if j > i + 1 {
        assert Placed(bs, j - i - 2 + k) && Split(bs, j - i - 2 + k);
      }
    }
  }

  lemma CutTiled(bs: seq<Block>, i: nat, k: nat, q: nat, e: nat, hi: nat)
    requires Tiled(bs, hi) && i < k <= |bs| && e == bs[k - 1].end && (k < |bs| ==> bs[k].used)
    requires BlockOk(Block(bs[i].start, q, true)) && BlockOk(Block(q, e, false))
    ensures Tiled(Cut(bs, i, k, q, e), hi)
  {
    var r := Cut(bs, i, k, q, e);
    forall j ensures Placed(r, j) && Split(r, j) { CutPlaced(bs, i, k, q, e, hi, j); }
    CutAt(bs, i, k, q, e, 0);
    CutAt(bs, i, k, q, e, |bs| + 1 + i - k);
  }

  lemma ShrinkIsCut(bs: seq<Block>, i: nat, n: nat)
    requires i < |bs| && bs[i].used && bs[i].Room() > n
    ensures FreeAt(bs, i + 1) ==> Shrink(bs, i, n) == Cut(bs, i, i + 2, bs[i].start + HDR + n, bs[i + 1].end)
    ensures !FreeAt(bs, i + 1) && bs[i].Room() >= n + HDR + MIN ==>
      Shrink(bs, i, n) == Cut(bs, i, i + 1, bs[i].start + HDR + n, bs[i].end)
  {
  }

  lemma ShrinkTiled(bs: seq<Block>, i: nat, n: nat, hi: nat)
    requires Tiled(bs, hi) && i < |bs| && bs[i].used && n >= MIN && n % ALIGN == 0
    ensures Tiled(Shrink(bs, i, n), hi)
  {
    assert Placed(bs, i) && Placed(bs, i + 1) && Split(bs, i + 1);
    var q := bs[i].start + HDR + n;
    if bs[i].Room() > n {
      ShrinkIsCut(bs, i, n);
      if FreeAt(bs, i + 1) {
        CutTiled(bs, i, i + 2, q, bs[i + 1].end, hi);
      } else if bs[i].Room() >= n + HDR + MIN {
        CutTiled(bs, i, i + 1, q, bs[i].end, hi);
      }
    }
  }

  // ------------------------------------------------ what the operations promise

  /** The blocks handed out and not yet freed. */
  ghost function Live(bs: seq<Block>): set<Block> {
    set i | 0 <= i < |bs| && bs[i].used :: bs[i]
  }

  /** Distinct blocks of a tiling do not overlap. */
  lemma {:induction false} Ordered(bs: seq<Block>, hi: nat, i: nat, j: nat)
    requires Covers(bs, hi) && i < j < |bs|
    ensures bs[i].end <= bs[j].start
    decreases j
  {
    assert Placed(bs, j - 1) && Placed(bs, j);
    if i < j - 1 {
      Ordered(bs, hi, i, j - 1);
    }
  }

  ghost predicate Disjoint(b: Block, c: Block) {
    b.end <= c.start || c.end <= b.start
  }

  /** Live blocks never overlap, lie inside the heap, and hand out aligned addresses. */
  lemma LiveDisjoint(bs: seq<Block>, hi: nat, b: Block, c: Block)
    requires Covers(bs, hi) && b in Live(bs) && c in Live(bs)
    ensures b == c || Disjoint(b, c)
    ensures b.start + HDR < b.end <= hi && (b.start + HDR) % ALIGN == 0
  {
    var i :| 0 <= i < |bs| && bs[i] == b;
    var j :| 0 <= j < |bs| && bs[j] == c;
    assert Placed(bs, i);
    if i < j { Ordered(bs, hi, i, j); }
    if j < i { Ordered(bs, hi, j, i); }
    if i < |bs| - 1 { Ordered(bs, hi, i, |bs| - 1); }
    assert Placed(bs, |bs| - 1);
  }

  /** Allocation adds one live block, disjoint from all others, which stay as they were. */
  lemma MallocLive(bs: seq<Block>, i: nat, n: nat, hi: nat)
    requires Covers(bs, hi) && i < |bs| && Fits(bs[i], n)
    ensures var b := Carve(bs[i], n)[0];
      && b !in Live(bs) && b.start == bs[i].start && b.Room() >= n && b.end <= bs[i].end
      && Live(Malloc(bs, i, n)) == Live(bs) + {b}
      && forall c :: c in Live(bs) ==> Disjoint(b, c)
  {
    var r := Malloc(bs, i, n);
    var b := Carve(bs[i], n)[0];
    var d := |Carve(bs[i], n)| - 1;
    assert Placed(bs, i);
    forall c | c in Live(bs) ensures c in Live(r) && Disjoint(b, c) && c != b {
      var j :| 0 <= j < |bs| && bs[j] == c;
      assert Placed(bs, j) && r[if j < i then j else j + d] == c;
      if i < j { Ordered(bs, hi, i, j); }
      if j < i { Ordered(bs, hi, j, i); }
    }
    assert r[i] == b;
    forall c | c in Live(r) ensures c in Live(bs) || c == b {
      var j :| 0 <= j < |r| && r[j] == c && r[j].used;
      assert j < i ==> bs[j] == c;
      assert j > i + d ==> bs[j - d] == c;
    }
  }

  lemma MergeLive(bs: seq<Block>, i: nat)
    requires i + 1 < |bs| && !bs[i].used && !bs[i + 1].used
    ensures Live(Merge(bs, i)) == Live(bs)
  {
    var r := Merge(bs, i);
    forall c | c in Live(bs) ensures c in Live(r) {
      var j :| 0 <= j < |bs| && bs[j] == c && bs[j].used;
      assert r[if j < i then j else j - 1] == c;
    }
    forall c | c in Live(r) ensures c in Live(bs) {
      var j :| 0 <= j < |r| && r[j] == c && r[j].used;
      assert bs[if j < i then j else j + 1] == c;
    }
  }

  /** Freeing removes exactly the freed block from the live ones. */
  lemma FreeLive(bs: seq<Block>, i: nat, hi: nat)
    requires Tiled(bs, hi) && i < |bs| && bs[i].used
    ensures Live(Free(bs, i)) == Live(bs) - {bs[i]}
  {
    var a := bs[i := bs[i].(used := false)];
    forall c | c in Live(bs) - {bs[i]} ensures c in Live(a) {
      var j :| 0 <= j < |bs| && bs[j] == c && bs[j].used;
      assert a[j] == c;
    }
    forall c | c in Live(a) ensures c in Live(bs) - {bs[i]} {
      var j :| 0 <= j < |a| && a[j] == c && a[j].used;
      assert bs[j] == c && Placed(bs, i) && Placed(bs, j);
      if i < j { Ordered(bs, hi, i, j); }
      if j < i { Ordered(bs, hi, j, i); }
    }
    assert Live(a) == Live(bs) - {bs[i]};
    if FreeAt(a, i + 1) { MergeLive(a, i); }
    var b := MergeNext(a, i);
    if FreeAt(b, i - 1) { MergeLive(b, i - 1); }
  }

  lemma LiveConcat(a: seq<Block>, b: seq<Block>)
    ensures Live(a + b) == Live(a) + Live(b)
  {
    forall c | c in Live(a) + Live(b) ensures c in Live(a + b) {
      if c in Live(a) {
        var j :| 0 <= j < |a| && a[j] == c && a[j].used;
        assert (a + b)[j] == c;
      } else {
        var j :| 0 <= j < |b| && b[j] == c && b[j].used;
        assert (a + b)[|a| + j] == c;
      }
    }
    forall c | c in Live(a + b) ensures c in Live(a) + Live(b) {
      var j :| 0 <= j < |a + b| && (a + b)[j] == c && (a + b)[j].used;
      assert j < |a| ==> a[j] == c;
      assert j >= |a| ==> b[j - |a|] == c;
    }
  }

  /** One live block and what surrounds it. */
  lemma LiveAround(bs: seq<Block>, i: nat, k: nat, hi: nat)
    requires Covers(bs, hi) && i < k <= |bs| && bs[i].used && Live(bs[i + 1..k]) == {}
    ensures Live(bs) - {bs[i]} == Live(bs[..i]) + Live(bs[k..])
  {
    var mid := bs[i + 1..k];
    assert bs == bs[..i] + ([bs[i]] + (mid + bs[k..]));
    LiveConcat(bs[..i], [bs[i]] + (mid + bs[k..]));
    LiveConcat([bs[i]], mid + bs[k..]);
    LiveConcat(mid, bs[k..]);
    assert [bs[i]][0] in Live([bs[i]]);
    assert Placed(bs, i);
    forall c | c in Live(bs[..i]) + Live(bs[k..]) ensures c != bs[i] {
      var j :| 0 <= j < |bs| && bs[j] == c && (j < i || j >= k);
      assert Placed(bs, j);
      if i < j { Ordered(bs, hi, i, j); } else { Ordered(bs, hi, j, i); }
    }
  }

  /** Shrinking keeps the block where it is and touches no other live block. */
  lemma ShrinkLive(bs: seq<Block>, i: nat, n: nat, hi: nat)
    requires Tiled(bs, hi) && i < |bs| && bs[i].used && bs[i].Room() >= n >= MIN
    ensures var r := Shrink(bs, i, n);
      && i < |r| && r[i].used && r[i].start == bs[i].start && n <= r[i].Room() <= bs[i].Room()
      && Live(r) == Live(bs) - {bs[i]} + {r[i]}
  {
    var r := Shrink(bs, i, n);
    if r != bs {
      var k := if FreeAt(bs, i + 1) then i + 2 else i + 1;
      assert r == bs[..i] + ([r[i]] + ([r[i + 1]] + bs[k..])) && !r[i + 1].used;
      ShrinkLiveAt(bs, i, k, hi, r[i], r[i + 1]);
    } else {
      assert bs[i] in Live(bs);
    }
  }

  lemma ShrinkLiveAt(bs: seq<Block>, i: nat, k: nat, hi: nat, x: Block, y: Block)
    requires Covers(bs, hi) && i < k <= |bs| && bs[i].used && x.used && !y.used
    requires k == i + 1 || (k == i + 2 && !bs[i + 1].used)
    ensures Live(bs[..i] + ([x] + ([y] + bs[k..]))) == Live(bs) - {bs[i]} + {x}
  {
    LiveConcat(bs[..i], [x] + ([y] + bs[k..]));
    LiveConcat([x], [y] + bs[k..]);
    LiveConcat([y], bs[k..]);
    assert [x][0] in Live([x]);
    LiveAround(bs, i, k, hi);
  }

  /** Freeing undoes the allocation before it. */
  lemma FreeUndoesMalloc(bs: seq<Block>, i: nat, n: nat, hi: nat)
    requires Tiled(bs, hi) && i < |bs| && Fits(bs[i], n)
    ensures Free(Malloc(bs, i, n), i) == bs
  {
    assert Split(bs, i) && Split(bs, i - 1);
    var m := Malloc(bs, i, n);
    var a := m[i := m[i].(used := false)];
    if bs[i].Room() >= n + HDR + MIN {
      assert a[i + 1] == Block(bs[i].start + HDR + n, bs[i].end, false);
      assert Merge(a, i) == bs;
    } else {
      assert a == bs;
    }
  }

  function Initial(hi: nat): seq<Block> {
    [Block(0, hi, false)]
  }

  lemma InitialTiled(hi: nat)
    requires hi >= HDR + MIN && hi % ALIGN == 0
    ensures Tiled(Initial(hi), hi)
  {
  }

  /** With nothing live, coalescing has restored the single initial block. */
  lemma NothingLive(bs: seq<Block>, hi: nat)
    requires Tiled(bs, hi) && Live(bs) == {}
    ensures bs == Initial(hi)
  {
    forall i | 0 <= i < |bs| ensures !bs[i].used {
      var b := bs[i];
      assert b.used ==> b in Live(bs);
    }
    assert Split(bs, 0);
  }

  /** The rounded size covers the request exactly when rounding up does not wrap. */
  lemma RoundedCovers(n: nat)
    requires 0 < n < WORD
    ensures Rounded(n) >= n <==> n <= WORD - ALIGN
    ensures n <= WORD - ALIGN ==> Rounded(n) < n + ALIGN || Rounded(n) == MIN
    ensures n > WORD - ALIGN ==> Rounded(n) == MIN
  {
  }

  /** On an empty heap a request for 2^32 - 1 bytes is granted 12. */
  lemma HugeRequestGranted(hi: nat)
    requires HDR + MIN <= hi <= WORD - 2 * HDR - ALIGN && hi % ALIGN == 0
    ensures Step(Initial(hi), MallocOp(WORD - 1), hi) == Malloc(Initial(hi), 0, MIN)
    ensures FirstFit(Initial(hi), Rounded(WORD - 1)) == 0 && Rounded(WORD - 1) == MIN < WORD - 1
  {
    RoundedCovers(WORD - 1);
  }

  // ------------------------------------------------------------------- all runs

  datatype Op = MallocOp(n: nat) | FreeOp(p: nat) | ReallocOp(p: nat, n: nat)

  /** The live block whose data area starts at `p`, |bs| if there is none. */
  function Find(bs: seq<Block>, p: nat): (i: nat)
    ensures i <= |bs| && (i < |bs| ==> bs[i].used && bs[i].start + HDR == p)
  {
    if bs == [] then 0
    else if bs[0].used && bs[0].start + HDR == p then 0
    else 1 + Find(bs[1..], p)
  }

  /** The blocks after one call; calls with a pointer that is not live are left out. */
  function Step(bs: seq<Block>, op: Op, hi: nat): seq<Block> {
    match op
    case MallocOp(n) =>
      var i := FirstFit(bs, Rounded(n));
      if n == 0 || Rounded(n) > hi || i == |bs| then bs else Malloc(bs, i, Rounded(n))
    case FreeOp(p) => if Find(bs, p) == |bs| then bs else Free(bs, Find(bs, p))
    case ReallocOp(p, n) =>
      if Rounded(n) > hi || Find(bs, p) == |bs| then bs else Shrink(bs, Find(bs, p), Rounded(n))
  }

  function Run(bs: seq<Block>, ops: seq<Op>, hi: nat): seq<Block> {
    if ops == [] then bs else Step(Run(bs, ops[..|ops| - 1], hi), ops[|ops| - 1], hi)
  }

  lemma StepTiled(bs: seq<Block>, op: Op, hi: nat)
    requires Tiled(bs, hi)
    ensures Tiled(Step(bs, op, hi), hi)
  {
    match op
    case MallocOp(n) =>
      var i := FirstFit(bs, Rounded(n));
      if i < |bs| { MallocTiled(bs, i, Rounded(n), hi); }
    case FreeOp(p) =>
      if Find(bs, p) < |bs| { FreeTiled(bs, Find(bs, p), hi); }
    case ReallocOp(p, n) =>
      if Find(bs, p) < |bs| { ShrinkTiled(bs, Find(bs, p), Rounded(n), hi); }
  }

  /** Every run keeps the heap tiled and coalesced; one that has freed everything
      it allocated is back at the initial block. */
  lemma {:induction false} RunTiled(ops: seq<Op>, hi: nat)
    requires hi >= HDR + MIN && hi % ALIGN == 0
    ensures Tiled(Run(Initial(hi), ops, hi), hi)
    ensures Live(Run(Initial(hi), ops, hi)) == {} ==> Run(Initial(hi), ops, hi) == Initial(hi)
  {
    if ops == [] {
      InitialTiled(hi);
    } else {
      RunTiled(ops[..|ops| - 1], hi);
      StepTiled(Run(Initial(hi), ops[..|ops| - 1], hi), ops[|ops| - 1], hi);
    }
    if Live(Run(Initial(hi), ops, hi)) == {} {
      NothingLive(Run(Initial(hi), ops, hi), hi);
    }
  }

  // ------------------------------------------------------- headers in the array

  /** struct mem: offsets of the next and previous header, and the used flag. */
  datatype Header = Header(next: nat, prev: nat, used: bool)

  /** Headers at `k` and `p` are the same bytes or share none. */
  predicate Apart(k: nat, p: nat) {
    k == p || k + HDR <= p || p + HDR <= k
  }

  /** Write a header at offset `p`; any header it overlaps is gone. */
  function Put(ram: map<nat, Header>, p: nat, h: Header): (r: map<nat, Header>)
    ensures p in r && r[p] == h
    ensures forall k :: k in ram && k != p && Apart(k, p) ==> k in r && r[k] == ram[k]
  {
    (map k | k in ram && Apart(k, p) :: ram[k])[p := h]
  }

  function StartAt(bs: seq<Block>, i: nat, hi: nat): nat {
    if i < |bs| then bs[i].start else hi
  }

  /** The header of block `i` says where the next and previous blocks are. */
  predicate HeaderAt(ram: map<nat, Header>, bs: seq<Block>, i: int) {
    0 <= i < |bs| ==>
      bs[i].start in ram && ram[bs[i].start] == Header(bs[i].end, if i == 0 then 0 else bs[i - 1].start, bs[i].used)
  }

  /** The block list is written into the array; the end marker is a used header that
      names itself (its prev field means nothing). */
  ghost predicate Written(ram: map<nat, Header>, bs: seq<Block>, hi: nat) {
    && Covers(bs, hi)
    && (forall i :: HeaderAt(ram, bs, i))
    && hi in ram && ram[hi].used && ram[hi].next == hi
  }

  /** The lowest free block. */
  function FirstFree(bs: seq<Block>): (i: nat)
    ensures i <= |bs| && (i < |bs| ==> !bs[i].used)
    ensures forall j :: 0 <= j < i ==> bs[j].used
  {
    if bs == [] || !bs[0].used then 0 else 1 + FirstFree(bs[1..])
  }

  lemma FirstFreeIs(bs: seq<Block>, i: nat)
    requires i <= |bs| && (i < |bs| ==> !bs[i].used) && forall j :: 0 <= j < i ==> bs[j].used
    ensures FirstFree(bs) == i
  {
  }

  ghost predicate Rep(ram: map<nat, Header>, lfree: nat, bs: seq<Block>, hi: nat) {
    Written(ram, bs, hi) && lfree == StartAt(bs, FirstFree(bs), hi)
  }

  /** Starts of a tiling, the end marker included, are a header and more apart. */
  lemma StartsApart(bs: seq<Block>, hi: nat, i: nat, j: nat)
    requires Covers(bs, hi) && i < j <= |bs|
    ensures StartAt(bs, i, hi) + HDR + MIN <= StartAt(bs, j, hi)
  {
    assert Placed(bs, i) && Placed(bs, |bs| - 1);
    if j < |bs| { Ordered(bs, hi, i, j); }
    else if i < |bs| - 1 { Ordered(bs, hi, i, |bs| - 1); }
  }

  lemma ApartStarts(bs: seq<Block>, hi: nat, i: nat, j: nat)
    requires Covers(bs, hi) && i <= |bs| && j <= |bs|
    ensures Apart(StartAt(bs, i, hi), StartAt(bs, j, hi))
    ensures i != j ==> StartAt(bs, i, hi) != StartAt(bs, j, hi)
  {
    if i < j { StartsApart(bs, hi, i, j); }
    if j < i { StartsApart(bs, hi, j, i); }
  }

  lemma EndIsStart(bs: seq<Block>, hi: nat, i: nat)
    requires Covers(bs, hi) && i < |bs|
    ensures bs[i].end == StartAt(bs, i + 1, hi)
  {
    assert Placed(bs, i);
  }

  /** `plug_holes` joining the free blocks `p` and `n`. */
  function JoinRam(ram: map<nat, Header>, p: nat, n: nat): map<nat, Header>
    requires p in ram && n in ram
  {
    var a := Put(ram, p, ram[p].(next := ram[n].next));
    if ram[n].next in a then Put(a, ram[n].next, a[ram[n].next].(prev := p)) else a
  }

  lemma JoinWritten(ram: map<nat, Header>, bs: seq<Block>, i: nat, hi: nat)
    requires Written(ram, bs, hi) && i + 1 < |bs|
    ensures bs[i].start in ram && bs[i + 1].start in ram
    ensures Written(JoinRam(ram, bs[i].start, bs[i + 1].start), Merge(bs, i), hi)
  {
    assert HeaderAt(ram, bs, i) && HeaderAt(ram, bs, i + 1) && HeaderAt(ram, bs, i + 2);
    var r := Merge(bs, i);
    MergeCovers(bs, i, hi);
    var ram' := JoinRam(ram, bs[i].start, bs[i + 1].start);
    EndIsStart(bs, hi, i + 1);
    ApartStarts(bs, hi, i, i + 2);
    forall j ensures HeaderAt(ram', r, j) {
      if 0 <= j < |r| { JoinHeader(ram, bs, i, hi, j); }
    }
    ApartStarts(bs, hi, i, |bs|);
    ApartStarts(bs, hi, i + 2, |bs|);
  }

  lemma JoinHeader(ram: map<nat, Header>, bs: seq<Block>, i: nat, hi: nat, j: nat)
    requires Written(ram, bs, hi) && i + 1 < |bs| && j + 1 < |bs| && bs[i].start in ram && bs[i + 1].start in ram
    ensures HeaderAt(JoinRam(ram, bs[i].start, bs[i + 1].start), Merge(bs, i), j)
  {
    var k := if j <= i then j else j + 1;
    assert HeaderAt(ram, bs, i) && HeaderAt(ram, bs, i + 1) && HeaderAt(ram, bs, k);
    EndIsStart(bs, hi, i + 1);
    ApartStarts(bs, hi, k, i);
    ApartStarts(bs, hi, k, i + 2);
    ApartStarts(bs, hi, i, i + 2);
    assert i + 2 < |bs| ==> HeaderAt(ram, bs, i + 2);
  }

  /** Cut used block `p` short at `q`, with a free block from `q` to `e` after it. */
  function CutRam(ram: map<nat, Header>, p: nat, q: nat, e: nat, hi: nat): map<nat, Header>
    requires p in ram
  {
    var a := Put(ram, q, Header(e, p, false));
    var b := Put(a, p, Header(q, ram[p].prev, true));
    if e != hi && e in b then Put(b, e, b[e].(prev := q)) else b
  }

  lemma CutHeader(ram: map<nat, Header>, bs: seq<Block>, i: nat, k: nat, q: nat, e: nat, hi: nat, j: nat)
    requires Written(ram, bs, hi) && i < k <= |bs| && e == StartAt(bs, k, hi)
    requires Covers(Cut(bs, i, k, q, e), hi) && j < |Cut(bs, i, k, q, e)| && bs[i].start in ram
    ensures HeaderAt(CutRam(ram, bs[i].start, q, e, hi), Cut(bs, i, k, q, e), j)
  {
    var r := Cut(bs, i, k, q, e);
    CutAt(bs, i, k, q, e, i);
    CutAt(bs, i, k, q, e, i + 1);
    if i + 2 < |r| { CutAt(bs, i, k, q, e, i + 2); }
    ApartStarts(r, hi, i, i + 1);
    ApartStarts(r, hi, i, i + 2);
    ApartStarts(r, hi, i + 1, i + 2);
    ApartStarts(r, hi, i + 2, |r|);
    if j > 0 { CutAt(bs, i, k, q, e, j - 1); }
    if j == i {
      assert HeaderAt(ram, bs, i);
    } else if j != i + 1 {
      CutOther(ram, bs, i, k, q, e, hi, j);
    }
  }

  lemma CutOther(ram: map<nat, Header>, bs: seq<Block>, i: nat, k: nat, q: nat, e: nat, hi: nat, j: nat)
    requires Written(ram, bs, hi) && i < k <= |bs| && e == StartAt(bs, k, hi)
    requires Covers(Cut(bs, i, k, q, e), hi) && j < |Cut(bs, i, k, q, e)| && bs[i].start in ram && j != i && j != i + 1
    ensures HeaderAt(CutRam(ram, bs[i].start, q, e, hi), Cut(bs, i, k, q, e), j)
  {
    var r := Cut(bs, i, k, q, e);
    CutAt(bs, i, k, q, e, j);
    CutAt(bs, i, k, q, e, i);
    CutAt(bs, i, k, q, e, i + 1);
    if j > 0 { CutAt(bs, i, k, q, e, j - 1); }
    if i + 2 < |r| { CutAt(bs, i, k, q, e, i + 2); }
    ApartStarts(r, hi, j, i);
    ApartStarts(r, hi, j, i + 1);
    ApartStarts(r, hi, j, i + 2);
    ApartStarts(r, hi, i + 2, |r|);
    assert HeaderAt(ram, bs, if j < i then j else j - i - 2 + k);
  }

  lemma CutWritten(ram: map<nat, Header>, bs: seq<Block>, i: nat, k: nat, q: nat, e: nat, hi: nat)
    requires Written(ram, bs, hi) && i < k <= |bs| && e == StartAt(bs, k, hi)
    requires Covers(Cut(bs, i, k, q, e), hi)
    ensures bs[i].start in ram && Written(CutRam(ram, bs[i].start, q, e, hi), Cut(bs, i, k, q, e), hi)
  {
    var r := Cut(bs, i, k, q, e);
    assert HeaderAt(ram, bs, i);
    var ram' := CutRam(ram, bs[i].start, q, e, hi);
    forall j ensures HeaderAt(ram', r, j) {
      if 0 <= j < |r| { CutHeader(ram, bs, i, k, q, e, hi, j); }
    }
    CutAt(bs, i, k, q, e, i);
    CutAt(bs, i, k, q, e, i + 1);
    if i + 2 < |r| { CutAt(bs, i, k, q, e, i + 2); }
    ApartStarts(r, hi, i, |r|);
    ApartStarts(r, hi, i + 1, |r|);
    ApartStarts(r, hi, i + 2, |r|);
  }

  /** Flip the used flag of block `i`. */
  lemma FlagWritten(ram: map<nat, Header>, bs: seq<Block>, i: nat, hi: nat, used: bool)
    requires Written(ram, bs, hi) && i < |bs|
    ensures bs[i].start in ram
    ensures Written(Put(ram, bs[i].start, ram[bs[i].start].(used := used)), bs[i := bs[i].(used := used)], hi)
  {
    var r := bs[i := bs[i].(used := used)];
    assert HeaderAt(ram, bs, i);
    var ram' := Put(ram, bs[i].start, ram[bs[i].start].(used := used));
    forall j ensures Placed(r, j) { assert Placed(bs, j); }
    forall j ensures HeaderAt(ram', r, j) {
      assert HeaderAt(ram, bs, j);
      if 0 <= j < |r| { ApartStarts(bs, hi, i, j); }
    }
    ApartStarts(bs, hi, i, |bs|);
  }

  /** Blocks at or past an address too close to the end cannot fit. */
  lemma TailTooSmall(bs: seq<Block>, hi: nat, k: nat, n: nat, j: nat)
    requires Covers(bs, hi) && k <= j < |bs| && StartAt(bs, k, hi) + n >= hi
    ensures !Fits(bs[j], n)
  {
    if k < j { StartsApart(bs, hi, k, j); }
    StartsApart(bs, hi, j, |bs|);
    EndIsStart(bs, hi, j);
    if j + 1 < |bs| { StartsApart(bs, hi, j + 1, |bs|); }
  }

  lemma FirstFitIs(bs: seq<Block>, n: nat, i: nat)
    requires i <= |bs| && (i < |bs| ==> Fits(bs[i], n)) && forall j :: 0 <= j < i ==> !Fits(bs[j], n)
    ensures FirstFit(bs, n) == i
  {
  }

  /** Within a tiling at most one live block has its data at `p`. */
  lemma FindIs(bs: seq<Block>, hi: nat, p: nat, i: nat)
    requires Covers(bs, hi) && i < |bs| && bs[i].used && bs[i].start + HDR == p
    ensures Find(bs, p) == i
  {
    var k := Find(bs, p);
    FindBelow(bs, p, i);
    if k < i { StartsApart(bs, hi, k, i); }
  }

  lemma {:induction false} FindBelow(bs: seq<Block>, p: nat, i: nat)
    requires i < |bs| && bs[i].used && bs[i].start + HDR == p
    ensures Find(bs, p) <= i
  {
    if i > 0 { FindBelow(bs[1..], p, i - 1); }
  }

  lemma CarveIsCut(bs: seq<Block>, i: nat, n: nat)
    requires i < |bs| && bs[i].Room() >= n + HDR + MIN
    ensures Malloc(bs, i, n) == Cut(bs, i, i + 1, bs[i].start + HDR + n, bs[i].end)
  {
  }

  /** Joining two free blocks leaves the lowest free block where it is, below the second one. */
  lemma {:induction false} MergeFirstFree(bs: seq<Block>, i: nat, hi: nat)
    requires Covers(bs, hi) && i + 1 < |bs| && !bs[i].used && !bs[i + 1].used
    ensures StartAt(Merge(bs, i), FirstFree(Merge(bs, i)), hi) == StartAt(bs, FirstFree(bs), hi)
    ensures StartAt(bs, FirstFree(bs), hi) != bs[i + 1].start
  {
    var k := FirstFree(bs);
    assert k <= i;
    assert forall j :: 0 <= j < i ==> Merge(bs, i)[j] == bs[j];
    FirstFreeIs(Merge(bs, i), k);
    ApartStarts(bs, hi, k, i + 1);
  }

  /** Where the lowest free block is after an allocation. */
  lemma MallocFirstFree(bs: seq<Block>, k: nat, n: nat)
    requires k < |bs| && !bs[k].used
    ensures var r := Malloc(bs, k, n); var f := FirstFree(bs);
      && k < |r| && r[k].used && r[k].start == bs[k].start
      && (f < k ==> FirstFree(r) == f && r[f] == bs[f])
      && (f >= k ==> f == k && forall j :: 0 <= j < k ==> r[j].used)
  {
    var r := Malloc(bs, k, n);
    assert r[..k] == bs[..k];
    assert forall j :: 0 <= j < k ==> r[j] == bs[j];
    var f := FirstFree(bs);
    if f < k { FirstFreeIs(r, f); }
  }

  /** Where the lowest free block is after a shrink that frees something. */
  lemma ShrinkFirstFree(bs: seq<Block>, i: nat, n: nat)
    requires i < |bs| && bs[i].used && bs[i].Room() > n
    requires FreeAt(bs, i + 1) || bs[i].Room() >= n + HDR + MIN
    ensures var r := Shrink(bs, i, n); var f := FirstFree(bs);
      && i + 1 < |r| && r[i + 1].start == bs[i].start + HDR + n
      && FirstFree(r) == (if f < i then f else i + 1)
      && (f < i ==> r[f] == bs[f])
  {
    var r := Shrink(bs, i, n);
    var f := FirstFree(bs);
    assert r[..i] == bs[..i];
    assert forall j :: 0 <= j < i ==> r[j] == bs[j];
    FirstFreeIs(r, if f < i then f else i + 1);
  }

  /** A block is too small for the rounded size exactly when it is too small for a request that
      does not wrap. */
  lemma RefusedIff(b: Block, n: nat)
    requires BlockOk(b) && n < WORD
    ensures b.Room() < Rounded(n) <==> b.Room() < n <= WORD - ALIGN
  {
    if n > 0 { RoundedCovers(n); }
  }

  /** A block shrunk for a request of `n` bytes is found by the same pointer, and covers the
      request exactly when rounding up did not wrap. */
  lemma ShrunkIs(bs: seq<Block>, i: nat, n: nat, hi: nat)
    requires Tiled(bs, hi) && i < |bs| && bs[i].used && bs[i].Room() >= Rounded(n) && n < WORD && hi <= WORD - ALIGN
    ensures var r := Shrink(bs, i, Rounded(n));
      && Find(r, bs[i].start + HDR) == i < |r| && r[i].Room() <= bs[i].Room()
      && (r[i].Room() >= n <==> n <= WORD - ALIGN)
  {
    var r := Shrink(bs, i, Rounded(n));
    ShrinkLive(bs, i, Rounded(n), hi);
    ShrinkTiled(bs, i, Rounded(n), hi);
    FindIs(r, hi, bs[i].start + HDR, i);
    RoomBelow(bs, i, hi);
    if n > 0 { RoundedCovers(n); }
  }

  lemma RoomBelow(bs: seq<Block>, i: nat, hi: nat)
    requires Tiled(bs, hi) && i < |bs|
    ensures bs[i].Room() < hi
  {
    StartsApart(bs, hi, i, |bs|);
    EndIsStart(bs, hi, i);
    if i + 1 < |bs| { StartsApart(bs, hi, i + 1, |bs|); }
  }

  /** On a heap that is one live block, a request to make it 2^32 - 1 bytes leaves it 12. */
  lemma HugeRequestShrinks(hi: nat)
    requires 2 * (HDR + MIN) <= hi <= WORD - 2 * HDR - ALIGN && hi % ALIGN == 0
    ensures var bs := [Block(0, hi, true)];
      && Tiled(bs, hi) && bs[0].Room() < WORD - 1
      && Step(bs, ReallocOp(HDR, WORD - 1), hi)[0] == Block(0, HDR + MIN, true)
  {
    RoundedCovers(WORD - 1);
  }

  /** The block granted for a request of `n` bytes is found by its pointer, and covers the
      request exactly when rounding up did not wrap. */
  lemma GrantedIs(bs: seq<Block>, k: nat, n: nat, hi: nat)
    requires Tiled(bs, hi) && k < |bs| && Fits(bs[k], Rounded(n)) && 0 < n < WORD && hi + 2 * HDR + ALIGN <= WORD
    ensures var r := Malloc(bs, k, Rounded(n));
      && Find(r, bs[k].start + HDR) == k < |r|
      && (r[k].Room() >= n <==> n <= WORD - ALIGN)
  {
    var sz := Rounded(n);
    var r := Malloc(bs, k, sz);
    MallocTiled(bs, k, sz, hi);
    assert r[k] == Carve(bs[k], sz)[0];
    FindIs(r, hi, bs[k].start + HDR, k);
    RoundedCovers(n);
    StartsApart(bs, hi, k, |bs|);
    EndIsStart(bs, hi, k);
    if k + 1 < |bs| { StartsApart(bs, hi, k + 1, |bs|); }
  }

  /** Splitting a free block that is taken. */
  lemma CarveRep(ram: map<nat, Header>, bs: seq<Block>, k: nat, sz: nat, hi: nat, p: nat, q: nat, e: nat,
                 after: map<nat, Header>)
    requires Written(ram, bs, hi) && Tiled(bs, hi) && k < |bs| && Fits(bs[k], sz) && sz >= MIN && sz % ALIGN == 0
    requires bs[k].Room() >= sz + HDR + MIN
    requires p == bs[k].start && q == p + HDR + sz && e == bs[k].end && p in ram && after == CutRam(ram, p, q, e, hi)
    ensures Written(after, Malloc(bs, k, sz), hi) && Tiled(Malloc(bs, k, sz), hi)
  {
    assert HeaderAt(ram, bs, k);
    MallocTiled(bs, k, sz, hi);
    EndIsStart(bs, hi, k);
    CarveIsCut(bs, k, sz);
    CutWritten(ram, bs, k, k + 1, q, e, hi);
  }

  /** Taking a free block whole. */
  lemma WholeRep(ram: map<nat, Header>, bs: seq<Block>, k: nat, sz: nat, hi: nat, after: map<nat, Header>)
    requires Written(ram, bs, hi) && Tiled(bs, hi) && k < |bs| && Fits(bs[k], sz) && sz >= MIN && sz % ALIGN == 0
    requires bs[k].Room() < sz + HDR + MIN
    requires bs[k].start in ram && after == Put(ram, bs[k].start, ram[bs[k].start].(used := true))
    ensures Written(after, Malloc(bs, k, sz), hi) && Tiled(Malloc(bs, k, sz), hi)
  {
    MallocTiled(bs, k, sz, hi);
    FlagWritten(ram, bs, k, hi, true);
    assert Malloc(bs, k, sz) == bs[k := bs[k].(used := true)];
  }

  /** Shrinking a block whose successor is free: the successor starts earlier. */
  lemma MoveRep(ram: map<nat, Header>, lfree: nat, bs: seq<Block>, i: nat, sz: nat, hi: nat, q: nat, after: map<nat,
                Header>)
    requires Rep(ram, lfree, bs, hi) && Tiled(bs, hi) && i + 1 < |bs| && bs[i].used && FreeAt(bs, i + 1)
    requires bs[i].Room() > sz >= MIN && sz % ALIGN == 0 && q == bs[i].start + HDR + sz
    requires bs[i].start in ram && after == CutRam(ram, bs[i].start, q, bs[i + 1].end, hi)
    ensures Rep(after, if lfree == bs[i + 1].start then q else lfree, Shrink(bs, i, sz), hi)
    ensures Tiled(Shrink(bs, i, sz), hi)
  {
    assert HeaderAt(ram, bs, i) && HeaderAt(ram, bs, i + 1);
    ShrinkTiled(bs, i, sz, hi);
    ShrinkIsCut(bs, i, sz);
    EndIsStart(bs, hi, i + 1);
    CutWritten(ram, bs, i, i + 2, q, bs[i + 1].end, hi);
    ApartStarts(bs, hi, FirstFree(bs), i + 1);
    ShrinkFirstFree(bs, i, sz);
  }

  /** Shrinking a block whose successor is used: the rest becomes a free block. */
  lemma RestRep(ram: map<nat, Header>, lfree: nat, bs: seq<Block>, i: nat, sz: nat, hi: nat, q: nat, after: map<nat,
                Header>)
    requires Rep(ram, lfree, bs, hi) && Tiled(bs, hi) && i < |bs| && bs[i].used && !FreeAt(bs, i + 1)
    requires bs[i].Room() >= sz + HDR + MIN && sz >= MIN && sz % ALIGN == 0 && q == bs[i].start + HDR + sz
    requires bs[i].start in ram && after == CutRam(ram, bs[i].start, q, bs[i].end, hi)
    ensures Rep(after, if q < lfree then q else lfree, Shrink(bs, i, sz), hi) && Tiled(Shrink(bs, i, sz), hi)
  {
    assert HeaderAt(ram, bs, i) && Placed(bs, i);
    ShrinkTiled(bs, i, sz, hi);
    ShrinkIsCut(bs, i, sz);
    EndIsStart(bs, hi, i);
    CutWritten(ram, bs, i, i + 1, q, bs[i].end, hi);
    RestLowest(bs, i, hi);
    ShrinkFirstFree(bs, i, sz);
  }

  /** The lowest free block is before a used one or not before its end. */
  lemma RestLowest(bs: seq<Block>, i: nat, hi: nat)
    requires Covers(bs, hi) && i < |bs| && bs[i].used
    ensures var f := FirstFree(bs); if f < i then bs[f].start < bs[i].start else StartAt(bs, f, hi) >= bs[i].end
  {
    var f := FirstFree(bs);
    EndIsStart(bs, hi, i);
    if f < i {
      StartsApart(bs, hi, f, i);
    } else if i + 1 < f {
      StartsApart(bs, hi, i + 1, f);
    }
  }

  /** Two adjacent free blocks joined. */
  lemma JoinRep(ram: map<nat, Header>, lfree: nat, bs: seq<Block>, i: nat, hi: nat, p: nat, n: nat, after: map<nat,
                Header>)
    requires Rep(ram, lfree, bs, hi) && i + 1 < |bs| && !bs[i].used && !bs[i + 1].used
    requires p == bs[i].start && n == bs[i + 1].start && p in ram && n in ram && after == JoinRam(ram, p, n)
    ensures Rep(after, if lfree == n then p else lfree, Merge(bs, i), hi)
  {
    JoinWritten(ram, bs, i, hi);
    MergeFirstFree(bs, i, hi);
  }

  class Heap {
    /** MEM_SIZE_ALIGNED, the offset of the end marker. */
    const size: nat
    var ram: map<nat, Header>
    var lfree: nat
    ghost var blocks: seq<Block>

    ghost predicate Valid()
      reads this
    {
      && Rep(ram, lfree, blocks, size) && Tiled(blocks, size)
      && size + 2 * HDR + ALIGN <= WORD
    }

    /** `mem_init`.  The array has room for the end marker and for alignment, so it
        fits a 32-bit address space. */
    constructor (size: nat)
      requires HDR + MIN <= size && size % ALIGN == 0 && size + 2 * HDR + ALIGN <= WORD
      ensures Valid() && this.size == size && blocks == Initial(size)
    {
      this.size := size;
      ram := map[0 := Header(size, 0, false), size := Header(size, size, true)];
      lfree := 0;
      blocks := Initial(size);
      new;
      InitialTiled(size);
    }

    /** `mem` has just been freed: join it with a free successor and a free predecessor. */
    method PlugHoles(mem: nat, ghost i: nat)
      requires Rep(ram, lfree, blocks, size) && i < |blocks| && blocks[i].start == mem && !blocks[i].used
      requires forall j :: j != i && j != i - 1 ==> Split(blocks, j)
      modifies this
      ensures Rep(ram, lfree, blocks, size) && blocks == MergePrev(MergeNext(old(blocks), i), i)
    {
      ForwardHole(mem, i);
      BackwardHole(mem, i);
    }

    method ForwardHole(mem: nat, ghost i: nat)
      requires Rep(ram, lfree, blocks, size) && i < |blocks| && blocks[i].start == mem && !blocks[i].used
      modifies this
      ensures Rep(ram, lfree, blocks, size) && blocks == MergeNext(old(blocks), i)
      ensures i < |blocks| && blocks[i].start == mem && !blocks[i].used
    {
      assert HeaderAt(ram, blocks, i) && HeaderAt(ram, blocks, i + 1) && Placed(blocks, i);
      EndIsStart(blocks, size, i);
      ApartStarts(blocks, size, i, i + 1);
      var nmem := ram[mem].next;
      if mem != nmem && !ram[nmem].used && nmem != size {
        Join(mem, nmem, i);
      }
    }

    method BackwardHole(mem: nat, ghost i: nat)
      requires Rep(ram, lfree, blocks, size) && i < |blocks| && blocks[i].start == mem && !blocks[i].used
      modifies this
      ensures Rep(ram, lfree, blocks, size) && blocks == MergePrev(old(blocks), i)
    {
      assert HeaderAt(ram, blocks, i) && HeaderAt(ram, blocks, i - 1);
      if i > 0 { ApartStarts(blocks, size, i - 1, i); }
      var pmem := ram[mem].prev;
      if pmem != mem && !ram[pmem].used {
        Join(pmem, mem, i - 1);
      }
    }

    /** The free block at `n` becomes part of the free block at `p` before it. */
    method Join(p: nat, n: nat, ghost i: nat)
      requires Rep(ram, lfree, blocks, size) && i + 1 < |blocks| && !blocks[i].used && !blocks[i + 1].used
      requires p == blocks[i].start && n == blocks[i + 1].start
      modifies this
      ensures Rep(ram, lfree, blocks, size) && blocks == Merge(old(blocks), i)
    {
      assert HeaderAt(ram, blocks, i) && HeaderAt(ram, blocks, i + 1);
      var after := JoinRam(ram, p, n);
      JoinRep(ram, lfree, blocks, i, size, p, n, after);
      if lfree == n {
        lfree := p;
      }
      ram := after;
      blocks := Merge(blocks, i);
    }

    /** `rmem` is an offset from the start of the heap, None for NULL.  An offset inside
        the heap must be that of a live block. */
    method MemFree(rmem: Option<int>)
      requires Valid()
      requires rmem.Some? && 0 <= rmem.value < size ==> Find(blocks, rmem.value) < |blocks|
      modifies this
      ensures Valid()
      ensures if rmem.Some? && 0 <= rmem.value < size
              then blocks == Free(old(blocks), Find(old(blocks), rmem.value))
              else blocks == old(blocks) && ram == old(ram) && lfree == old(lfree)
    {
      if rmem.None? {
        return;
      }
      if rmem.value < 0 || rmem.value >= size {
        return;
      }
      ghost var i := Find(blocks, rmem.value);
      FreeTiled(blocks, i, size);
      var mem := rmem.value - HDR;
      Unmark(mem, i);
      PlugHoles(mem, i);
    }

    /** The block is free, though its neighbours may be too. */
    method Unmark(mem: nat, ghost i: nat)
      requires Valid() && i < |blocks| && mem == blocks[i].start && blocks[i].used
      modifies this
      ensures Rep(ram, lfree, blocks, size) && blocks == old(blocks)[i := old(blocks)[i].(used := false)]
      ensures forall j: int :: j != i && j + 1 != i ==> Split(blocks, j)
    {
      assert HeaderAt(ram, blocks, i);
      FlagWritten(ram, blocks, i, size, false);
      ghost var k := FirstFree(blocks);
      if i < k { StartsApart(blocks, size, i, k); }
      if k < i { StartsApart(blocks, size, k, i); }
      ram := Put(ram, mem, ram[mem].(used := false));
      if mem < lfree {
        lfree := mem;
      }
      blocks := blocks[i := blocks[i].(used := false)];
      FirstFreeIs(blocks, if i < k then i else k);
      forall j: int | j != i && j + 1 != i ensures Split(blocks, j) { assert Split(old(blocks), j); }
    }

    /** None is NULL; a value is the offset of the data area handed out. */
    method MemMalloc(n: nat) returns (r: Option<nat>)
      requires Valid() && n < WORD
      modifies this
      ensures Valid()
      ensures r.None? <==> n == 0 || Rounded(n) > size || FirstFit(old(blocks), Rounded(n)) == |old(blocks)|
      ensures r.None? ==> blocks == old(blocks) && ram == old(ram) && lfree == old(lfree)
      ensures r.Some? ==> var i := FirstFit(old(blocks), Rounded(n));
        i < |old(blocks)| && r.value == old(blocks)[i].start + HDR && blocks == Malloc(old(blocks), i, Rounded(n))
      // the pointer is one `mem_free` takes for that block, and whether it covers the request
      ensures r.Some? ==> Find(blocks, r.value) == FirstFit(old(blocks), Rounded(n)) < |blocks|
      ensures r.Some? ==> (blocks[Find(blocks, r.value)].Room() >= n <==> n <= WORD - ALIGN)
    {
      if n == 0 {
        return None;
      }
      var sz := Rounded(n);
      if sz > size {
        return None;
      }
      var ptr := Search(sz);
      if ptr.None? {
        return None;
      }
      Take(ptr.value, sz, FirstFit(blocks, sz), n);
      return Some(ptr.value + HDR);
    }

    /** The loop of `mem_malloc`: the first free block, from `lfree` on, with room for `sz` bytes. */
    method Search(sz: nat) returns (r: Option<nat>)
      requires Valid() && MIN <= sz <= size
      ensures var i := FirstFit(blocks, sz);
        r == if i < |blocks| then Some(blocks[i].start) else None
    {
      var ptr := lfree;
      ghost var k: nat := FirstFree(blocks);
      while ptr < size - sz
        invariant k <= |blocks| && ptr == StartAt(blocks, k, size)
        invariant forall j :: 0 <= j < k ==> !Fits(blocks[j], sz)
        decreases |blocks| - k
      {
        assert k < |blocks| && HeaderAt(ram, blocks, k) && Placed(blocks, k);
        var mem := ram[ptr];
        if !mem.used && mem.next - (ptr + HDR) >= sz {
          FirstFitIs(blocks, sz, k);
          return Some(ptr);
        }
        EndIsStart(blocks, size, k);
        ptr := mem.next;
        k := k + 1;
      }
      forall j | k <= j < |blocks| ensures !Fits(blocks[j], sz) {
        TailTooSmall(blocks, size, k, sz, j);
      }
      FirstFitIs(blocks, sz, |blocks|);
      return None;
    }

    /** The body of the search: take the free block at `ptr`, and move the lowest-free
        pointer on if it was this block. */
    method Take(ptr: nat, sz: nat, ghost k: nat, ghost n: nat)
      requires Valid() && k < |blocks| && ptr == blocks[k].start
      requires Fits(blocks[k], sz) && sz == Rounded(n) && 0 < n < WORD
      modifies this
      ensures Valid() && blocks == Malloc(old(blocks), k, sz)
      ensures Find(blocks, ptr + HDR) == k < |blocks| && (blocks[k].Room() >= n <==> n <= WORD - ALIGN)
    {
      GrantedIs(blocks, k, n, size);
      ghost var f := FirstFree(blocks);
      if f < k { StartsApart(blocks, size, f, k); }
      MallocFirstFree(blocks, k, sz);
      MarkTaken(ptr, sz, k);
      if ptr == lfree {
        NextFree(k);
      }
    }

    /** Mark the free block at `ptr` used and split off what is left of it. */
    method MarkTaken(ptr: nat, sz: nat, ghost k: nat)
      requires Valid() && k < |blocks| && ptr == blocks[k].start && Fits(blocks[k], sz) && sz >= MIN && sz % ALIGN == 0
      modifies this`ram, this`blocks
      ensures Written(ram, blocks, size) && Tiled(blocks, size) && blocks == Malloc(old(blocks), k, sz)
    {
      assert HeaderAt(ram, blocks, k);
      var mem := ram[ptr];
      if mem.next - (ptr + HDR) >= sz + HDR + MIN {
        SplitOff(ptr, ptr + HDR + sz, mem.next, sz, k);
      } else {
        var after := Put(ram, ptr, mem.(used := true));
        WholeRep(ram, blocks, k, sz, size, after);
        ram, blocks := after, Malloc(blocks, k, sz);
      }
    }

    /** What is left of the block is a free block behind it. */
    method SplitOff(ptr: nat, ptr2: nat, next: nat, sz: nat, ghost k: nat)
      requires Written(ram, blocks, size) && Tiled(blocks, size) && k < |blocks|
      requires Fits(blocks[k], sz) && sz >= MIN && sz % ALIGN == 0
      requires blocks[k].Room() >= sz + HDR + MIN && ptr == blocks[k].start
      requires ptr2 == ptr + HDR + sz && next == blocks[k].end
      modifies this`ram, this`blocks
      ensures Written(ram, blocks, size) && Tiled(blocks, size) && blocks == Malloc(old(blocks), k, sz)
    {
      assert HeaderAt(ram, blocks, k);
      var after := CutRam(ram, ptr, ptr2, next, size);
      CarveRep(ram, blocks, k, sz, size, ptr, ptr2, next, after);
      ram, blocks := after, Malloc(blocks, k, sz);
    }

    /** Advance the lowest-free pointer over used blocks. */
    method NextFree(ghost k: nat)
      requires Written(ram, blocks, size) && k < |blocks| && lfree == blocks[k].start
      requires forall j :: 0 <= j < k ==> blocks[j].used
      modifies this`lfree
      ensures lfree == StartAt(blocks, FirstFree(blocks), size)
    {
      ghost var j := k;
      assert HeaderAt(ram, blocks, j);
      while lfree in ram && ram[lfree].used && lfree != size
        invariant k <= j <= |blocks| && lfree == StartAt(blocks, j, size) && lfree in ram
        invariant forall m :: 0 <= m < j ==> blocks[m].used
        decreases |blocks| - j
      {
        assert HeaderAt(ram, blocks, j) && HeaderAt(ram, blocks, j + 1);
        EndIsStart(blocks, size, j);
        lfree := ram[lfree].next;
        j := j + 1;
      }
      if j < |blocks| {
        assert HeaderAt(ram, blocks, j);
        StartsApart(blocks, size, j, |blocks|);
      }
      FirstFreeIs(blocks, j);
    }

    /** Some(rmem) is the pointer itself, None is NULL. */
    method MemRealloc(rmem: int, n: nat) returns (r: Option<int>)
      requires Valid() && n < WORD
      requires 0 <= rmem < size ==> Find(blocks, rmem) < |blocks|
      modifies this
      ensures Valid()
      ensures r.Some? ==> r.value == rmem
      ensures r.None? <==> (|| Rounded(n) > size
                            || (0 <= rmem < size && old(blocks)[Find(old(blocks), rmem)].Room() < Rounded(n)))
      ensures r.None? || !(0 <= rmem < size) ==> blocks == old(blocks)
      ensures r.Some? && 0 <= rmem < size ==> blocks == Shrink(old(blocks), Find(old(blocks), rmem), Rounded(n))
      // NULL for a larger size, and a block with room for the request, unless rounding up wraps
      ensures 0 <= rmem < size ==>
        (r.None? <==> old(blocks)[Find(old(blocks), rmem)].Room() < n <= WORD - ALIGN)
      ensures r.Some? && 0 <= rmem < size ==>
        && Find(blocks, rmem) == Find(old(blocks), rmem) < |blocks|
        && (blocks[Find(blocks, rmem)].Room() >= n <==> n <= WORD - ALIGN)
    {
      if 0 <= rmem < size { ReallocIs(rmem, n); }
      var sz := Rounded(n);
      if sz > size {
        return None;
      }
      if rmem < 0 || rmem >= size {
        return Some(rmem);
      }
      ghost var i := Find(blocks, rmem);
      assert HeaderAt(ram, blocks, i) && Placed(blocks, i);
      var ptr := rmem - HDR;
      var room := ram[ptr].next - ptr - HDR;
      if sz > room {
        return None;
      }
      if sz == room {
        return Some(rmem);
      }
      assert HeaderAt(ram, blocks, i + 1);
      EndIsStart(blocks, size, i);
      if i + 1 == |blocks| { assert ram[size].used; }
      ShrinkTiled(blocks, i, sz, size);
      ShrinkIsCut(blocks, i, sz);
      var mem2 := ram[ptr].next;
      if !ram[mem2].used {
        MoveNext(ptr, mem2, sz, i);
      } else if sz + HDR + MIN <= room {
        CutRest(ptr, sz, i);
      }
      return Some(rmem);
    }

    lemma ReallocIs(rmem: nat, n: nat)
      requires Valid() && n < WORD && rmem < size && Find(blocks, rmem) < |blocks|
      ensures var i := Find(blocks, rmem); var r := Shrink(blocks, i, Rounded(n));
        && (blocks[i].Room() < Rounded(n) <==> blocks[i].Room() < n <= WORD - ALIGN)
        && (Rounded(n) > size ==> blocks[i].Room() < Rounded(n))
        && (blocks[i].Room() >= Rounded(n) ==> Find(r, rmem) == i < |r| && (r[i].Room() >= n <==> n <= WORD - ALIGN))
    {
      var i := Find(blocks, rmem);
      assert Placed(blocks, i);
      RefusedIff(blocks[i], n);
      RoomBelow(blocks, i, size);
      if blocks[i].Room() >= Rounded(n) { ShrunkIs(blocks, i, n, size); }
    }

    /** The successor is free: it starts earlier now. */
    method MoveNext(ptr: nat, mem2: nat, sz: nat, ghost i: nat)
      requires Valid() && i + 1 < |blocks| && ptr == blocks[i].start && mem2 == blocks[i + 1].start
      requires blocks[i].used && FreeAt(blocks, i + 1) && blocks[i].Room() > sz >= MIN && sz % ALIGN == 0
      modifies this
      ensures Valid() && blocks == Shrink(old(blocks), i, sz)
    {
      assert HeaderAt(ram, blocks, i) && HeaderAt(ram, blocks, i + 1);
      var next := ram[mem2].next;
      var ptr2 := ptr + HDR + sz;
      var after := CutRam(ram, ptr, ptr2, next, size);
      MoveRep(ram, lfree, blocks, i, sz, size, ptr2, after);
      if lfree == mem2 {
        lfree := ptr2;
      }
      ram := after;
      blocks := Shrink(blocks, i, sz);
    }

    /** The successor is used: the rest becomes a free block of its own. */
    method CutRest(ptr: nat, sz: nat, ghost i: nat)
      requires Valid() && i < |blocks| && ptr == blocks[i].start
      requires blocks[i].used && !FreeAt(blocks, i + 1)
      requires blocks[i].Room() >= sz + HDR + MIN && sz >= MIN && sz % ALIGN == 0
      modifies this
      ensures Valid() && blocks == Shrink(old(blocks), i, sz)
    {
      assert HeaderAt(ram, blocks, i);
      var ptr2 := ptr + HDR + sz;
      var after := CutRam(ram, ptr, ptr2, ram[ptr].next, size);
      RestRep(ram, lfree, blocks, i, sz, size, ptr2, after);
      if ptr2 < lfree {
        lfree := ptr2;
      }
      ram := after;
      blocks := Shrink(blocks, i, sz);
    }

    /** A client scribbles over its whole data area: only dead headers are lost. */
    method UserStore(p: nat)
      requires Valid() && Find(blocks, p) < |blocks|
      modifies this`ram
      ensures Valid()
    {
      ghost var i := Find(blocks, p);
      assert HeaderAt(ram, blocks, i) && Placed(blocks, i);
      EndIsStart(blocks, size, i);
      var end := ram[p - HDR].next;
      ghost var was := ram;
      ram := map k | k in ram && (k + HDR <= p || end <= k) :: ram[k];
      forall j ensures HeaderAt(ram, blocks, j) {
        assert HeaderAt(was, blocks, j);
        if 0 <= j < i { StartsApart(blocks, size, j, i); }
        if i + 1 < j < |blocks| { StartsApart(blocks, size, i + 1, j); }
      }
      if i + 1 < |blocks| { StartsApart(blocks, size, i + 1, |blocks|); }
    }
  }
}
