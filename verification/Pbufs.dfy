/** Packet buffer chains of net/lwip/core/pbuf.c against flat byte strings. */
module Pbufs {

  import O = PbufOrder

  type byte = n: nat | n < 256
  type Bytes = seq<byte>

  const U8: nat := 256
  const U16: nat := 65536

  // ----------------------------------------------------------------- segments

  /** Segment `i` and all after it. */
  function Join(parts: seq<Bytes>, i: nat): Bytes
    decreases |parts| - i
  {
    if i >= |parts| then [] else parts[i] + Join(parts, i + 1)
  }

  /** The segments before `i`. */
  function Before(parts: seq<Bytes>, i: nat): Bytes
    requires i <= |parts|
  {
    if i == 0 then [] else Before(parts, i - 1) + parts[i - 1]
  }

  lemma {:induction false} JoinSplit(parts: seq<Bytes>, i: nat)
    requires i <= |parts|
    ensures Join(parts, 0) == Before(parts, i) + Join(parts, i)
  {
    if i > 0 {
      JoinSplit(parts, i - 1);
      assert Before(parts, i - 1) + (parts[i - 1] + Join(parts, i)) == Before(parts, i) + Join(parts, i);
    }
  }

  lemma {:induction false} BeforeSame(a: seq<Bytes>, b: seq<Bytes>, i: nat)
    requires i <= |a| && i <= |b| && a[..i] == b[..i]
    ensures Before(a, i) == Before(b, i)
  {
    if i > 0 {
      assert a[..i - 1] == a[..i][..i - 1] && b[..i - 1] == b[..i][..i - 1];
      assert a[i - 1] == a[..i][i - 1] && b[i - 1] == b[..i][i - 1];
      BeforeSame(a, b, i - 1);
    }
  }

  lemma {:induction false} JoinSame(a: seq<Bytes>, b: seq<Bytes>, i: nat)
    requires |a| == |b| && forall j :: i <= j < |a| ==> a[j] == b[j]
    ensures Join(a, i) == Join(b, i)
    decreases |a| - i
  {
    if i < |a| { JoinSame(a, b, i + 1); }
  }

  /** The bytes of segment `i` sit at offset |Before(parts, i)|. */
  lemma {:induction false} JoinSlice(parts: seq<Bytes>, i: nat, off: nat, n: nat)
    requires i < |parts| && off + n <= |parts[i]|
    ensures var at := |Before(parts, i)| + off;
      at + n <= |Join(parts, 0)| && Join(parts, 0)[at..at + n] == parts[i][off..off + n]
  {
    JoinSplit(parts, i);
    SliceOfMiddle(Before(parts, i), parts[i], Join(parts, i + 1), off, n);
  }

  lemma SliceOfMiddle(a: Bytes, b: Bytes, c: Bytes, off: nat, n: nat)
    requires off + n <= |b|
    ensures (a + (b + c))[|a| + off..|a| + off + n] == b[off..off + n]
  {
  }

  /** `b` written over `s` at `at`. */
  function Splice(s: Bytes, at: nat, b: Bytes): Bytes
    requires at + |b| <= |s|
  {
    s[..at] + b + s[at + |b|..]
  }

  /** Writing into a segment writes into the whole. */
  lemma {:induction false} JoinSplice(parts: seq<Bytes>, i: nat, off: nat, b: Bytes)
    requires i < |parts| && off + |b| <= |parts[i]|
    ensures |Before(parts, i)| + off + |b| <= |Join(parts, 0)|
    ensures Join(parts[i := Splice(parts[i], off, b)], 0) == Splice(Join(parts, 0), |Before(parts, i)| + off, b)
  {
    var after := parts[i := Splice(parts[i], off, b)];
    JoinSplit(parts, i);
    JoinSplit(after, i);
    assert after[..i] == parts[..i];
    BeforeSame(after, parts, i);
    JoinSame(after, parts, i + 1);
    SpliceOfMiddle(Before(parts, i), parts[i], Join(parts, i + 1), off, b);
  }

  lemma SpliceOfMiddle(a: Bytes, m: Bytes, c: Bytes, off: nat, b: Bytes)
    requires off + |b| <= |m|
    ensures Splice(a + (m + c), |a| + off, b) == a + (Splice(m, off, b) + c)
  {
  }

  // -------------------------------------------------------------------- chains

  /** struct pbuf: `data` is the memory behind payload, of which `len` bytes are in use. */
  class Pbuf {
    var data: Bytes
    var len: nat
    var totLen: nat
    var next: Pbuf?
    var refs: nat

    constructor (data: Bytes)
      requires |data| < U16
      ensures this.data == data && len == |data| && totLen == len && next == null && refs == 1
    {
      this.data := data;
      len := |data|;
      totLen := |data|;
      next := null;
      refs := 1;
    }
  }

  function NodeAt(ns: seq<Pbuf>, i: nat): Pbuf? {
    if i < |ns| then ns[i] else null
  }

  ghost predicate NextOk(ns: seq<Pbuf>, i: int)
    reads ns`next
  {
    0 <= i < |ns| ==> ns[i].next == NodeAt(ns, i + 1)
  }

  ghost predicate Differ(ns: seq<Pbuf>, i: int, j: int) {
    0 <= i < |ns| && 0 <= j < |ns| && i != j ==> ns[i] != ns[j]
  }

  ghost predicate Distinct(ns: seq<Pbuf>) {
    forall i, j :: Differ(ns, i, j)
  }

  /** `p` is the head of the chain `ns`. */
  ghost predicate Linked(p: Pbuf?, ns: seq<Pbuf>)
    reads ns`next
  {
    p == NodeAt(ns, 0) && Distinct(ns) && forall i :: NextOk(ns, i)
  }

  ghost predicate Sound(ns: seq<Pbuf>)
    reads ns`data, ns`len
  {
    forall i :: 0 <= i < |ns| ==> ns[i].len <= |ns[i].data|
  }

  /** The bytes of a buffer that are in use. */
  ghost function Used(p: Pbuf): Bytes
    reads p`data, p`len
  {
    if p.len <= |p.data| then p.data[..p.len] else p.data
  }

  /** The bytes of buffer `i` and of all after it. */
  ghost function From(ns: seq<Pbuf>, i: nat): Bytes
    reads ns`data, ns`len
    decreases |ns| - i
  {
    if i >= |ns| then [] else Used(ns[i]) + From(ns, i + 1)
  }

  /** The byte string a chain stands for. */
  ghost function Flat(ns: seq<Pbuf>): Bytes
    reads ns`data, ns`len
  {
    From(ns, 0)
  }

  /** The summed lengths of buffer `i` and of all after it. */
  ghost function Size(ns: seq<Pbuf>, i: nat): nat
    reads ns`len
    decreases |ns| - i
  {
    if i >= |ns| then 0 else ns[i].len + Size(ns, i + 1)
  }

  /** tot_len of a buffer is its own length plus that of all after it. */
  ghost predicate TotAt(ns: seq<Pbuf>, i: nat)
    reads ns`len, ns`totLen
  {
    i < |ns| ==> ns[i].totLen == Size(ns, i)
  }

  ghost predicate TotOk(ns: seq<Pbuf>)
    reads ns`len, ns`totLen
  {
    forall i :: TotAt(ns, i)
  }

  ghost predicate Chain(p: Pbuf?, ns: seq<Pbuf>)
    reads ns`next, ns`data, ns`len, ns`totLen
  {
    Linked(p, ns) && Sound(ns) && TotOk(ns)
  }

  ghost predicate SpellAt(ns: seq<Pbuf>, parts: seq<Bytes>, i: nat)
    reads ns`data, ns`len
  {
    i < |ns| && i < |parts| ==> |parts[i]| == ns[i].len && parts[i] == Used(ns[i])
  }

  /** `parts` lists the bytes in use, buffer by buffer. */
  ghost predicate Spells(ns: seq<Pbuf>, parts: seq<Bytes>)
    reads ns`data, ns`len
  {
    |parts| == |ns| && forall i: nat :: SpellAt(ns, parts, i)
  }

  ghost function PartsTo(ns: seq<Pbuf>, n: nat): (parts: seq<Bytes>)
    requires n <= |ns|
    reads ns`data, ns`len
    ensures |parts| == n && forall i :: 0 <= i < n ==> parts[i] == Used(ns[i])
  {
    if n == 0 then [] else PartsTo(ns, n - 1) + [Used(ns[n - 1])]
  }

  ghost function Parts(ns: seq<Pbuf>): (parts: seq<Bytes>)
    requires Sound(ns)
    reads ns`data, ns`len
    ensures Spells(ns, parts)
  {
    PartsTo(ns, |ns|)
  }

  lemma {:induction false} SpellsJoin(ns: seq<Pbuf>, parts: seq<Bytes>, i: nat)
    requires Spells(ns, parts)
    ensures From(ns, i) == Join(parts, i) && |From(ns, i)| == Size(ns, i)
    decreases |ns| - i
  {
    if i < |ns| {
      assert SpellAt(ns, parts, i);
      SpellsJoin(ns, parts, i + 1);
    }
  }

  lemma SizeIs(ns: seq<Pbuf>, i: nat)
    requires Sound(ns)
    ensures |From(ns, i)| == Size(ns, i)
  {
    SpellsJoin(ns, Parts(ns), i);
  }

  // --------------------------------------------------- two chains one after the other

  lemma {:induction false} FromSecond(hs: seq<Pbuf>, ts: seq<Pbuf>, i: nat)
    requires i <= |ts|
    ensures From(hs + ts, |hs| + i) == From(ts, i) && Size(hs + ts, |hs| + i) == Size(ts, i)
    decreases |ts| - i
  {
    if i < |ts| { FromSecond(hs, ts, i + 1); }
  }

  lemma {:induction false} FromFirst(hs: seq<Pbuf>, ts: seq<Pbuf>, i: nat)
    requires i <= |hs|
    ensures From(hs + ts, i) == From(hs, i) + Flat(ts) && Size(hs + ts, i) == Size(hs, i) + Size(ts, 0)
    decreases |hs| - i
  {
    if i < |hs| {
      FromFirst(hs, ts, i + 1);
    } else {
      FromSecond(hs, ts, 0);
    }
  }

  lemma {:induction false} SizeFalls(ns: seq<Pbuf>, i: nat)
    requires i <= |ns|
    ensures Size(ns, i) <= Size(ns, 0)
    decreases i
  {
    if i > 0 { SizeFalls(ns, i - 1); }
  }

  // ------------------------------------------------------------------ operations

  /** `pbuf_clen`: the number of buffers, in a u8_t. */
  method PbufClen(p: Pbuf?, ghost ns: seq<Pbuf>) returns (n: nat)
    requires Linked(p, ns)
    ensures n == |ns| % U8
  {
    n := 0;
    var q := p;
    ghost var i := 0;
    while q != null
      invariant 0 <= i <= |ns| && q == NodeAt(ns, i) && n == i % U8
      decreases |ns| - i
    {
      assert NextOk(ns, i);
      n := (n + 1) % U8;
      q := q.next;
      i := i + 1;
    }
  }

  /** At most `len` bytes of `b` from `offset` on. */
  function Window(b: Bytes, offset: nat, len: nat): (w: Bytes)
    ensures |w| <= len
  {
    if offset >= |b| then [] else if len <= |b| - offset then b[offset..offset + len] else b[offset..]
  }

  lemma WindowSkip(a: Bytes, b: Bytes, off: nat, len: nat)
    requires off >= |a|
    ensures Window(a + b, off, len) == Window(b, off - |a|, len)
  {
  }

  lemma WindowTake(out: Bytes, a: Bytes, b: Bytes, off: nat, len: nat)
    requires off <= |a|
    ensures out + Window(a + b, off, len) == out + Window(a, off, len) + Window(b, 0, len - |Window(a, off, len)|)
  {
    assert Window(a + b, off, len) == Window(a, off, len) + Window(b, 0, len - |Window(a, off, len)|);
  }

  /** What the copy loop ends up with from `out` when it is at buffer `i`. */
  ghost function Copying(out: Bytes, ns: seq<Pbuf>, i: nat, off: nat, left: nat): Bytes
    reads ns`data, ns`len
    decreases |ns| - i
  {
    if left == 0 || i >= |ns| then out else
    var used := Used(ns[i]);
    if off != 0 && off >= |used| then Copying(out, ns, i + 1, off - |used|, left) else
    var w := Window(used, off, left);
    Copying(out + w, ns, i + 1, 0, left - |w|)
  }

  lemma {:induction false} CopyingIs(out: Bytes, ns: seq<Pbuf>, i: nat, off: nat, left: nat)
    ensures Copying(out, ns, i, off, left) == out + Window(From(ns, i), off, left)
    decreases |ns| - i
  {
    if left != 0 && i < |ns| {
      var used, after := Used(ns[i]), From(ns, i + 1);
      if off != 0 && off >= |used| {
        WindowSkip(used, after, off, left);
        CopyingIs(out, ns, i + 1, off - |used|, left);
      } else {
        var w := Window(used, off, left);
        CopyingIs(out + w, ns, i + 1, 0, left - |w|);
        WindowTake(out, used, after, off, left);
      }
    }
  }

  /** One round of the copy loop: skip the buffer if it ends before `off`, else copy from it. */
  method CopyStep(p: Pbuf, out: Bytes, off: nat, left: nat, ghost ns: seq<Pbuf>, ghost i: nat)
    returns (out': Bytes, off': nat, left': nat)
    requires i < |ns| && p == ns[i] && p.len <= |p.data| && left != 0
    ensures Copying(out', ns, i + 1, off', left') == Copying(out, ns, i, off, left)
  {
    if off != 0 && off >= p.len {
      return out, off - p.len, left;
    }
    var n := if p.len - off > left then left else p.len - off;
    assert p.data[off..off + n] == Window(Used(p), off, left);
    return out + p.data[off..off + n], 0, left - n;
  }

  /** `pbuf_copy_partial`: the bytes it stores at dataptr, whose number is its result. */
  method PbufCopyPartial(buf: Pbuf?, len: nat, offset: nat, ghost ns: seq<Pbuf>) returns (out: Bytes)
    requires Linked(buf, ns) && Sound(ns)
    ensures out == Window(Flat(ns), offset, len)
  {
    CopyingIs([], ns, 0, offset, len);
    out := [];
    var p, left, off := buf, len, offset;
    ghost var i: nat := 0;
    ghost var goal := Copying([], ns, 0, offset, len);
    while left != 0 && p != null
      invariant i <= |ns| && p == NodeAt(ns, i)
      invariant Copying(out, ns, i, off, left) == goal
      decreases |ns| - i
    {
      assert NextOk(ns, i);
      out, off, left := CopyStep(p, out, off, left, ns, i);
      p := p.next;
      i := i + 1;
    }
  }

  ghost predicate Live(ns: seq<Pbuf>)
    reads ns`refs
  {
    forall i :: 0 <= i < |ns| ==> ns[i].refs > 0
  }

  ghost function RefsTo(ns: seq<Pbuf>, n: nat): (refs: seq<nat>)
    requires n <= |ns|
    reads ns`refs
    ensures |refs| == n && forall i :: 0 <= i < n ==> refs[i] == ns[i].refs
  {
    if n == 0 then [] else RefsTo(ns, n - 1) + [ns[n - 1].refs]
  }

  /** The reference counts along a chain. */
  ghost function RefsOf(ns: seq<Pbuf>): seq<nat>
    reads ns`refs
  {
    RefsTo(ns, |ns|)
  }

  /** The first buffer, from `i` on, that has more than one reference. */
  function FirstShared(refs: seq<nat>, i: nat): nat
    decreases |refs| - i
  {
    if i < |refs| && refs[i] == 1 then FirstShared(refs, i + 1) else i
  }

  ghost predicate RefAt(ns: seq<Pbuf>, j: nat, was: seq<nat>, n: nat)
    reads ns`refs
  {
    j < |ns| && j < |was| ==> ns[j].refs + (if j < n then 1 else 0) == was[j]
  }

  /** The first `n` buffers have one reference less than they had, the others as many. */
  ghost predicate Dropped(ns: seq<Pbuf>, was: seq<nat>, n: nat)
    reads ns`refs
  {
    forall j: nat :: RefAt(ns, j, was, n)
  }

  /** `pbuf_free` drops one reference to the chain.  A buffer whose count reaches 0 is
      deallocated and the walk goes on; `freed` is how many were, `n` that number as a u8_t. */
  method PbufFree(p: Pbuf?, ghost ns: seq<Pbuf>) returns (n: nat, ghost freed: nat)
    requires Linked(p, ns) && Live(ns)
    modifies ns`refs
    ensures freed == FirstShared(old(RefsOf(ns)), 0) && n == freed % U8
    ensures Dropped(ns, old(RefsOf(ns)), freed + 1)
  {
    n, freed := 0, 0;
    var q := p;
    ghost var was := RefsOf(ns);
    ghost var d: nat := 0;
    while q != null
      invariant n == freed % U8 && (q != null ==> d == freed && q == NodeAt(ns, d))
      invariant q == null ==> d == freed + 1 || d == freed == |ns|
      invariant FirstShared(was, 0) == if q == null then freed else FirstShared(was, freed)
      invariant Dropped(ns, was, d)
      decreases |ns| - d, q
    {
      assert RefAt(ns, d, was, d) && NextOk(ns, d);
      DropOne(q, ns, was, d, d + 1);
      d := d + 1;
      if q.refs == 0 {
        Inc8(freed);
        q := q.next;
        n := (n + 1) % U8;
        freed := freed + 1;
      } else {
        q := null;
      }
    }
    DroppedAll(ns, was, d, freed + 1);
  }

  lemma DroppedAll(ns: seq<Pbuf>, was: seq<nat>, d: nat, n: nat)
    requires Dropped(ns, was, d) && (d == n || |ns| <= d <= n)
    ensures Dropped(ns, was, n)
  {
    forall j: nat ensures RefAt(ns, j, was, n) { assert RefAt(ns, j, was, d); }
  }

  lemma Inc8(freed: nat)
    ensures (freed + 1) % U8 == (freed % U8 + 1) % U8
  {
  }

  method DropOne(q: Pbuf, ghost ns: seq<Pbuf>, ghost was: seq<nat>, ghost d: nat, ghost next: nat)
    requires Distinct(ns) && d < |ns| && next == d + 1 && q == ns[d]
    requires q.refs > 0 && |was| == |ns| && Dropped(ns, was, d)
    modifies q`refs
    ensures q.refs == old(q.refs) - 1 && Dropped(ns, was, next)
  {
    q.refs := q.refs - 1;
    forall j: nat ensures RefAt(ns, j, was, next) { assert old(RefAt(ns, j, was, d)) && Differ(ns, d, j); }
  }

  // ------------------------------------------------------------------ pbuf_cat

  /** u16_t addition. */
  function Add16(a: nat, b: nat): nat {
    (a + b) % U16
  }

  ghost predicate Disjoint(a: seq<Pbuf>, b: seq<Pbuf>) {
    forall x :: x in a ==> x !in b
  }

  lemma LinkConcat(hs: seq<Pbuf>, ts: seq<Pbuf>)
    requires hs != [] && Distinct(hs) && Distinct(ts) && Disjoint(hs, ts)
    requires (forall i :: 0 <= i < |hs| - 1 ==> NextOk(hs, i)) && hs[|hs| - 1].next == NodeAt(ts, 0)
    requires forall i :: NextOk(ts, i)
    ensures Linked(hs[0], hs + ts)
  {
    var all := hs + ts;
    forall k ensures NextOk(all, k) {
      if 0 <= k < |hs| - 1 { assert NextOk(hs, k); }
      if |hs| <= k { assert NextOk(ts, k - |hs|); }
    }
    forall i, j ensures Differ(all, i, j) {
      if 0 <= i < |hs| { assert hs[i] in hs && Differ(hs, i, j); }
      if 0 <= j < |hs| { assert hs[j] in hs; }
      if |hs| <= i < |all| { assert ts[i - |hs|] in ts && Differ(ts, i - |hs|, j - |hs|); }
      if |hs| <= j < |all| { assert ts[j - |hs|] in ts; }
    }
  }

  /** Add `n` to the totals of all buffers but the last. */
  method AddToTotals(h: Pbuf, n: nat, ghost hs: seq<Pbuf>) returns (last: Pbuf)
    requires Linked(h, hs)
    modifies hs`totLen
    ensures hs != [] && last == hs[|hs| - 1]
    ensures forall j :: 0 <= j < |hs| ==> hs[j].totLen == if j < |hs| - 1 then Add16(old(hs[j].totLen), n)
                                                          else old(hs[j].totLen)
  {
    last := h;
    ghost var i := 0;
    while last.next != null
      invariant 0 <= i < |hs| && last == hs[i]
      invariant forall j :: 0 <= j < |hs| ==> hs[j].totLen == if j < i then Add16(old(hs[j].totLen), n)
                                                              else old(hs[j].totLen)
      decreases |hs| - i
    {
      assert NextOk(hs, i);
      forall j | 0 <= j < |hs| && j != i ensures hs[j] != last { assert Differ(hs, i, j); }
      last.totLen := Add16(last.totLen, n);
      last := last.next;
      i := i + 1;
    }
    assert NextOk(hs, i);
  }

  /** The pointer and total updates of `pbuf_cat` on two non-empty chains. */
  method Append(h: Pbuf, t: Pbuf, ghost hs: seq<Pbuf>, ghost ts: seq<Pbuf>)
    requires Linked(h, hs) && Linked(t, ts) && Disjoint(hs, ts)
    modifies hs`totLen, hs`next
    ensures hs != [] && ts != [] && t == ts[0] && Linked(h, hs + ts)
    ensures t.totLen == old(t.totLen) && (forall i :: 0 <= i < |ts| ==> ts[i].totLen == old(ts[i].totLen))
    ensures forall i :: 0 <= i < |hs| ==> hs[i].totLen == Add16(old(hs[i].totLen), t.totLen)
  {
    assert t in ts;
    var n := t.totLen;
    var p := AddToTotals(h, n, hs);
    p.totLen := Add16(p.totLen, n);
    p.next := t;
    forall i | 0 <= i < |hs| - 1 ensures NextOk(hs, i) { assert old(NextOk(hs, i)) && Differ(hs, i, |hs| - 1); }
    forall i ensures NextOk(ts, i) {
      assert old(NextOk(ts, i));
      if 0 <= i < |ts| { assert ts[i] in ts; }
    }
    LinkConcat(hs, ts);
    forall i | 0 <= i < |ts| ensures ts[i].totLen == old(ts[i].totLen) { assert ts[i] in ts; }
  }

  /** The totals come out right exactly when the combined length fits a u16_t. */
  lemma CatTotals(hs: seq<Pbuf>, ts: seq<Pbuf>)
    requires TotOk(ts) && hs != [] && ts != []
    requires forall i :: 0 <= i < |hs| ==> hs[i].totLen == Add16(Size(hs, i), ts[0].totLen)
    ensures TotOk(hs + ts) <==> Size(hs, 0) + Size(ts, 0) < U16
  {
    var all := hs + ts;
    assert TotAt(ts, 0);
    if Size(hs, 0) + Size(ts, 0) < U16 {
      forall i: nat ensures TotAt(all, i) { CatTotalAt(hs, ts, i); }
    } else {
      FromFirst(hs, ts, 0);
      assert !TotAt(all, 0);
    }
  }

  lemma {:induction false} CatTotalAt(hs: seq<Pbuf>, ts: seq<Pbuf>, i: nat)
    requires TotOk(ts) && hs != [] && ts != [] && ts[0].totLen == Size(ts, 0) && Size(hs, 0) + Size(ts, 0) < U16
    requires i < |hs| ==> hs[i].totLen == Add16(Size(hs, i), ts[0].totLen)
    ensures TotAt(hs + ts, i)
  {
    if |hs| <= i < |hs + ts| {
      FromSecond(hs, ts, i - |hs|);
      assert TotAt(ts, i - |hs|);
    } else if i < |hs| {
      FromFirst(hs, ts, i);
      SizeFalls(hs, i);
    }
  }

  /** `pbuf_cat`: the tail chain follows the head chain.  tot_len is a u16_t. */
  method PbufCat(h: Pbuf?, t: Pbuf?, ghost hs: seq<Pbuf>, ghost ts: seq<Pbuf>)
    requires Chain(h, hs) && Chain(t, ts) && Disjoint(hs, ts)
    modifies hs`totLen, hs`next
    ensures h == null || t == null ==> forall n :: n in hs ==> n.totLen == old(n.totLen) && n.next == old(n.next)
    ensures h != null && t != null ==>
      Linked(h, hs + ts) && Sound(hs + ts) && Flat(hs + ts) == old(Flat(hs)) + old(Flat(ts))
    ensures h != null && t != null ==> (Chain(h, hs + ts) <==> |Flat(hs + ts)| < U16)
  {
    if h == null || t == null {
      return;
    }
    Append(h, t, hs, ts);
    forall i | 0 <= i < |hs| ensures hs[i].totLen == Add16(Size(hs, i), ts[0].totLen) {
      assert old(TotAt(hs, i)) && old(Size(hs, i)) == Size(hs, i);
    }
    forall i: nat ensures TotAt(ts, i) { assert old(TotAt(ts, i)); }
    CatTotals(hs, ts);
    FromFirst(hs, ts, 0);
    SizeIs(hs + ts, 0);
  }

  /** Two buffers of 40000 bytes: the total wraps. */
  method CatWraps() returns (h: Pbuf, t: Pbuf)
    ensures Linked(h, [h] + [t]) && !Chain(h, [h] + [t])
  {
    var bytes: Bytes := seq(40000, i => 0);
    h := new Pbuf(bytes);
    t := new Pbuf(bytes);
    SingleTot(h);
    SingleTot(t);
    assert From([h], 1) == [] && From([t], 1) == [];
    PbufCat(h, t, [h], [t]);
  }

  // ---------------------------------------------------------- pbuf_chain, pbuf_dechain

  /** `pbuf_chain`: as `pbuf_cat`, and the tail gains a reference. */
  method PbufChain(h: Pbuf?, t: Pbuf?, ghost hs: seq<Pbuf>, ghost ts: seq<Pbuf>)
    requires Chain(h, hs) && Chain(t, ts) && Disjoint(hs, ts)
    modifies hs`totLen, hs`next, ts`refs
    ensures h == null || t == null ==> forall n :: n in hs ==> n.totLen == old(n.totLen) && n.next == old(n.next)
    ensures h != null && t != null ==>
      Linked(h, hs + ts) && Sound(hs + ts) && Flat(hs + ts) == old(Flat(hs)) + old(Flat(ts))
    ensures h != null && t != null ==> (Chain(h, hs + ts) <==> |Flat(hs + ts)| < U16)
    ensures forall i :: 0 <= i < |ts| ==> ts[i].refs == if i == 0 then Add16(old(ts[i].refs), 1) else old(ts[i].refs)
  {
    PbufCat(h, t, hs, ts);
    if t != null {
      forall i | 0 < i < |ts| ensures ts[i] != t { assert Differ(ts, 0, i); }
      t.refs := Add16(t.refs, 1);
    }
  }

  lemma LinkTail(p: Pbuf, rest: seq<Pbuf>)
    requires Linked(p, [p] + rest)
    ensures Linked(NodeAt(rest, 0), rest) && p !in rest && p.next == NodeAt(rest, 0)
  {
    var ns := [p] + rest;
    assert NextOk(ns, 0);
    forall i ensures NextOk(rest, i) {
      if 0 <= i < |rest| { assert NextOk(ns, i + 1); }
    }
    forall i | 0 <= i < |rest| ensures p != rest[i] { assert Differ(ns, 0, i + 1); }
    forall i, j ensures Differ(rest, i, j) { assert Differ(ns, i + 1, j + 1); }
  }

  lemma {:induction false} TotTail(p: Pbuf, rest: seq<Pbuf>)
    requires TotOk([p] + rest)
    ensures TotOk(rest) && p.totLen == p.len + Size(rest, 0)
  {
    forall i: nat ensures TotAt(rest, i) {
      if i < |rest| {
        FromSecond([p], rest, i);
        assert TotAt([p] + rest, i + 1);
      }
    }
    FromFirst([p], rest, 0);
    FromSecond([p], rest, 0);
    assert TotAt([p] + rest, 0);
  }

  lemma SingleTot(p: Pbuf)
    requires p.totLen == p.len
    ensures TotOk([p])
  {
    forall i: nat ensures TotAt([p], i) { }
  }

  /** `p` alone and the chain `rest` together spell `b`. */
  ghost predicate Parted(p: Pbuf, rest: seq<Pbuf>, b: Bytes)
    reads p`next, p`data, p`len, p`totLen, rest`next, rest`data, rest`len, rest`totLen
  {
    Chain(p, [p]) && Chain(NodeAt(rest, 0), rest) && Used(p) + Flat(rest) == b
  }

  /** The first buffer and the rest, made two chains. */
  method Decouple(p: Pbuf, ghost rest: seq<Pbuf>) returns (q: Pbuf?)
    requires Chain(p, [p] + rest)
    modifies p`totLen, p`next, rest`totLen
    ensures q == NodeAt(rest, 0) && Parted(p, rest, old(Flat([p] + rest)))
  {
    ghost var ns := [p] + rest;
    LinkTail(p, rest);
    TotTail(p, rest);
    FromFirst([p], rest, 0);
    assert ns[0] == p && Sound(rest) by {
      forall i | 0 <= i < |rest| ensures rest[i].len <= |rest[i].data| { assert rest[i] == ns[i + 1]; }
    }
    q := p.next;
    if q != null {
      assert TotAt(rest, 0);
      q.totLen := p.totLen - p.len;
      p.next := null;
      p.totLen := p.len;
      forall i ensures NextOk(rest, i) { assert old(NextOk(rest, i)); }
      forall i: nat ensures TotAt(rest, i) { assert old(TotAt(rest, i)) && old(Size(rest, i)) == Size(rest, i); }
    }
    SingleTot(p);
  }

  /** `pbuf_dechain` takes the first buffer off.  It answers NULL when the byte-sized count of
      deallocated buffers is not 0. */
  method PbufDechain(p: Pbuf, ghost rest: seq<Pbuf>) returns (r: Pbuf?, ghost freed: nat)
    requires Chain(p, [p] + rest) && Live(rest)
    modifies p`totLen, p`next, rest`totLen, rest`refs
    ensures Parted(p, rest, old(Flat([p] + rest))) && freed == FirstShared(old(RefsOf(rest)), 0)
    ensures Dropped(rest, old(RefsOf(rest)), freed + 1)
    ensures r == if freed % U8 != 0 then null else NodeAt(rest, 0)
  {
    ghost var b := Flat([p] + rest);
    r := Decouple(p, rest);
    if r == null {
      freed := 0;
    } else {
      var n;
      n, freed := PbufFree(r, rest);
      assert Parted(p, rest, b);
      r := if n > 0 then null else r;
    }
  }

  method ChainOne(h: Pbuf, t: Pbuf, ghost ts: seq<Pbuf>)
    requires Chain(h, [h]) && Chain(t, ts) && h !in ts && Live(ts)
    requires |Used(h)| + |Flat(ts)| < U16 && t.refs + 1 < U16
    modifies h`totLen, h`next, ts`refs
    ensures Chain(h, [h] + ts) && Flat([h] + ts) == old(Used(h)) + old(Flat(ts))
    ensures Live(ts) && FirstShared(RefsOf(ts), 0) == 0
    ensures forall i :: 0 <= i < |ts| ==> ts[i].refs == old(ts[i].refs) + if i == 0 then 1 else 0
  {
    assert From([h], 1) == [];
    PbufChain(h, t, [h], ts);
  }

  /** `pbuf_dechain` of a chain whose second buffer is also held elsewhere. */
  method DechainOne(h: Pbuf, ghost ts: seq<Pbuf>) returns (r: Pbuf?)
    requires Chain(h, [h] + ts) && Live(ts) && FirstShared(RefsOf(ts), 0) == 0
    modifies h`totLen, h`next, ts`totLen, ts`refs
    ensures r == NodeAt(ts, 0) && Chain(h, [h]) && Chain(r, ts)
    ensures forall i :: 0 <= i < |ts| ==> ts[i].refs == old(ts[i].refs) - if i == 0 then 1 else 0
  {
    ghost var was := RefsOf(ts);
    ghost var freed;
    r, freed := PbufDechain(h, ts);
    forall i | 0 <= i < |ts| ensures ts[i].refs == old(ts[i].refs) - if i == 0 then 1 else 0 {
      assert RefAt(ts, i, was, 1);
    }
  }

  /** `pbuf_dechain` undoes `pbuf_chain` of one buffer. */
  method ChainThenDechain(h: Pbuf, t: Pbuf, ghost ts: seq<Pbuf>) returns (r: Pbuf?)
    requires Chain(h, [h]) && Chain(t, ts) && h !in ts && Live(ts)
    requires |Used(h)| + |Flat(ts)| < U16 && t.refs + 1 < U16
    modifies h`totLen, h`next, ts`totLen, ts`refs
    ensures r == t && Chain(h, [h]) && Chain(t, ts) && Used(h) == old(Used(h)) && Flat(ts) == old(Flat(ts))
    ensures forall i :: 0 <= i < |ts| ==> ts[i].refs == old(ts[i].refs)
  {
    ChainOne(h, t, ts);
    r := DechainOne(h, ts);
  }

  lemma {:induction false} AllUnshared(refs: seq<nat>, i: nat)
    requires i <= |refs| && forall j :: 0 <= j < |refs| ==> refs[j] == 1
    ensures FirstShared(refs, i) == |refs|
    decreases |refs| - i
  {
    if i < |refs| { AllUnshared(refs, i + 1); }
  }

  lemma TotPush(q: Pbuf, ns: seq<Pbuf>)
    requires TotOk(ns) && q.totLen == q.len + Size(ns, 0)
    ensures TotOk([q] + ns)
  {
    FromFirst([q], ns, 0);
    assert Size([q], 1) == 0;
    forall i: nat ensures TotAt([q] + ns, i) {
      if 0 < i <= |ns| {
        FromSecond([q], ns, i - 1);
        assert TotAt(ns, i - 1);
      }
    }
  }

  /** A chain of `n` one-byte buffers, each referenced once. */
  method FreshChain(n: nat) returns (p: Pbuf?, ghost ns: seq<Pbuf>)
    ensures |ns| == n && Chain(p, ns) && fresh(ns) && forall i :: 0 <= i < n ==> ns[i].refs == 1
  {
    p, ns := null, [];
    var i := 0;
    while i < n
      invariant i <= n && |ns| == i && Chain(p, ns) && fresh(ns) && Size(ns, 0) == i
      invariant forall k :: 0 <= k < i ==> ns[k].refs == 1
    {
      p, ns := Push(p, ns);
      i := i + 1;
    }
  }

  method Push(p: Pbuf?, ghost ns: seq<Pbuf>) returns (q: Pbuf, ghost all: seq<Pbuf>)
    requires Chain(p, ns)
    ensures fresh(q) && all == [q] + ns && Chain(q, all) && Size(all, 0) == 1 + Size(ns, 0) && q.refs == 1
  {
    q := new Pbuf([0]);
    assert q !in ns;
    assert TotAt(ns, 0);
    q.next := p;
    q.totLen := 1 + if p == null then 0 else p.totLen;
    all := [q] + ns;
    PushChain(q, p, ns);
  }

  lemma PushChain(q: Pbuf, p: Pbuf?, ns: seq<Pbuf>)
    requires Chain(p, ns) && q !in ns && q.next == p && q.len == |q.data| && q.totLen == q.len + Size(ns, 0)
    ensures Chain(q, [q] + ns) && Size([q] + ns, 0) == q.len + Size(ns, 0)
  {
    LinkConcat([q], ns);
    assert Size([q], 1) == 0;
    FromFirst([q], ns, 0);
    TotPush(q, ns);
  }

  lemma Wraps(freed: nat)
    requires freed == 256
    ensures freed % U8 == 0
  {
  }

  /** With 256 buffers deallocated the count is 0 again, and the deallocated tail is returned. */
  method DechainReturnsDeallocated() returns (r: Pbuf?)
    ensures r != null && r.refs == 0
  {
    ghost var ns, freed;
    var p;
    p, ns := FreshChain(257);
    ghost var rest := ns[1..];
    assert ns == [p] + rest;
    forall i | 0 <= i < |rest| ensures rest[i].refs == 1 { assert rest[i] == ns[i + 1]; }
    ghost var was := RefsOf(rest);
    AllUnshared(was, 0);
    r, freed := PbufDechain(p, rest);
    Wraps(freed);
    assert RefAt(rest, 0, was, 257);
  }

  // ---------------------------------------------------------------- pbuf_realloc

  /** The totals while the chain is cut from `whole` to `newLen` bytes, done before buffer `k`. */
  ghost predicate TrimAt(ns: seq<Pbuf>, j: nat, k: nat, newLen: nat, whole: nat)
    reads ns`len, ns`totLen
  {
    j < |ns| ==> if j < k then ns[j].totLen + whole == newLen + Size(ns, j) else ns[j].totLen == Size(ns, j)
  }

  /** The first loop of `pbuf_realloc`: walk to the buffer where the chain is to end, taking
      what is cut off out of the totals on the way. */
  method StepOver(p: Pbuf, newLen: nat, ghost ns: seq<Pbuf>) returns (q: Pbuf, rem: nat, ghost k: nat)
    requires Linked(p, ns) && TotOk(ns) && newLen < p.totLen < U16
    modifies ns`totLen
    ensures k < |ns| && q == ns[k] && rem <= q.len && newLen + Size(ns, k) == rem + Size(ns, 0)
    ensures forall j: nat :: TrimAt(ns, j, k, newLen, Size(ns, 0))
  {
    assert TotAt(ns, 0);
    ghost var whole := Size(ns, 0);
    var grow := U16 + newLen - p.totLen;
    q, rem, k := p, newLen, 0;
    forall j: nat ensures TrimAt(ns, j, 0, newLen, whole) { assert TotAt(ns, j); }
    while rem > q.len
      invariant k < |ns| && q == ns[k] && rem < Size(ns, k) && newLen + Size(ns, k) == rem + whole
      invariant forall j: nat :: TrimAt(ns, j, k, newLen, whole)
      decreases |ns| - k
    {
      rem := CutTotal(q, rem, grow, ns, k, k + 1, newLen, whole);
      assert NextOk(ns, k);
      q := q.next;
      k := k + 1;
    }
  }

  method CutTotal(q: Pbuf, rem: nat, grow: nat, ghost ns: seq<Pbuf>, ghost k: nat, ghost next: nat, ghost newLen: nat,
                  ghost whole: nat)
    returns (left: nat)
    requires Distinct(ns) && k < |ns| && next == k + 1 && q == ns[k] && q.len < rem < Size(ns, k)
    requires newLen + Size(ns, k) == rem + whole && grow == U16 + newLen - whole
    requires newLen < whole < U16 && whole == Size(ns, 0)
    requires forall j: nat :: TrimAt(ns, j, k, newLen, whole)
    modifies q`totLen
    ensures next < |ns| && left < Size(ns, next) && newLen + Size(ns, next) == left + whole
    ensures forall j: nat :: TrimAt(ns, j, next, newLen, whole)
  {
    assert TrimAt(ns, k, k, newLen, whole);
    SizeFalls(ns, k);
    left := rem - q.len;
    q.totLen := Add16(q.totLen, grow);
    forall j: nat ensures TrimAt(ns, j, next, newLen, whole) {
      assert old(TrimAt(ns, j, k, newLen, whole)) && Differ(ns, k, j);
    }
  }

  /** The segments up to `k`, of which the last is cut to `rem` bytes. */
  function CutParts(parts: seq<Bytes>, k: nat, rem: nat): seq<Bytes>
    requires k < |parts| && rem <= |parts[k]|
  {
    parts[..k] + [parts[k][..rem]]
  }

  lemma {:induction false} CutLength(parts: seq<Bytes>, k: nat, rem: nat, j: nat)
    requires k < |parts| && rem <= |parts[k]| && j <= k
    ensures |Join(CutParts(parts, k, rem), j)| + |Join(parts, k)| == |Join(parts, j)| + rem
    decreases k - j
  {
    var cut := CutParts(parts, k, rem);
    if j < k {
      CutLength(parts, k, rem, j + 1);
    } else {
      assert Join(cut, k + 1) == [];
    }
  }

  lemma CutIsPrefix(parts: seq<Bytes>, k: nat, rem: nat)
    requires k < |parts| && rem <= |parts[k]|
    ensures Join(CutParts(parts, k, rem), 0) <= Join(parts, 0)
  {
    var cut := CutParts(parts, k, rem);
    JoinSplit(parts, k);
    JoinSplit(cut, k);
    assert cut[..k] == parts[..k];
    BeforeSame(cut, parts, k);
    assert Join(cut, k + 1) == [];
    PrefixOfMiddle(Before(parts, k), parts[k][..rem], parts[k], Join(parts, k + 1));
  }

  lemma PrefixOfMiddle(a: Bytes, short: Bytes, m: Bytes, c: Bytes)
    requires short <= m
    ensures a + (short + []) <= a + (m + c)
  {
    assert m == short + m[|short|..];
    assert a + (m + c) == a + short + (m[|short|..] + c);
  }

  lemma CutSpells(ks: seq<Pbuf>, parts: seq<Bytes>, k: nat, rem: nat, whole: nat, newLen: nat)
    requires k < |parts| && rem <= |parts[k]| && |ks| == k + 1
    requires Spells(ks, CutParts(parts, k, rem))
    requires whole == |Join(parts, 0)| && newLen + |Join(parts, k)| == rem + whole
    requires ks[k].totLen == rem && forall j :: 0 <= j < k ==> ks[j].totLen + whole == newLen + |Join(parts, j)|
    ensures TotOk(ks) && newLen <= whole && Flat(ks) == Join(parts, 0)[..newLen]
  {
    var cut := CutParts(parts, k, rem);
    forall j: nat ensures TotAt(ks, j) {
      if j <= k {
        SpellsJoin(ks, cut, j);
        CutLength(parts, k, rem, j);
      }
    }
    SpellsJoin(ks, cut, 0);
    CutLength(parts, k, rem, 0);
    CutIsPrefix(parts, k, rem);
  }

  /** The new last buffer takes its length. */
  method SetLast(q: Pbuf, rem: nat, ghost ks: seq<Pbuf>, ghost parts: seq<Bytes>, ghost k: nat)
    requires |ks| == k + 1 <= |parts| && q == ks[k] && Distinct(ks)
    requires rem <= |parts[k]| && forall j: nat :: SpellAt(ks, parts, j)
    modifies q`len, q`totLen
    ensures Spells(ks, CutParts(parts, k, rem)) && q.totLen == rem
    ensures forall j :: 0 <= j < k ==> ks[j].totLen == old(ks[j].totLen)
  {
    assert SpellAt(ks, parts, k);
    forall j | 0 <= j < k ensures ks[j] != q { assert Differ(ks, j, k); }
    q.len := rem;
    q.totLen := rem;
    forall j: nat ensures SpellAt(ks, CutParts(parts, k, rem), j) {
      assert old(SpellAt(ks, parts, j)) && Differ(ks, k, j);
    }
  }

  lemma TrimFacts(ns: seq<Pbuf>, ks: seq<Pbuf>, parts: seq<Bytes>, k: nat, newLen: nat, whole: nat)
    requires k < |ns| && ks == ns[..k + 1] && Spells(ns, parts) && forall j: nat :: TrimAt(ns, j, k, newLen, whole)
    ensures forall j :: 0 <= j < k ==> ks[j].totLen + whole == newLen + |Join(parts, j)|
    ensures forall j: nat :: SpellAt(ks, parts, j)
    ensures Flat(ns) == Join(parts, 0) && |Join(parts, 0)| == Size(ns, 0) && |Join(parts, k)| == Size(ns, k)
  {
    forall j: nat ensures SpellAt(ks, parts, j) { assert SpellAt(ns, parts, j); }
    forall j | 0 <= j < k ensures ks[j].totLen + whole == newLen + |Join(parts, j)| {
      SpellsJoin(ns, parts, j);
      assert TrimAt(ns, j, k, newLen, whole);
    }
    SpellsJoin(ns, parts, 0);
    SpellsJoin(ns, parts, k);
  }

  /** The chain ends at buffer `k` from now on. */
  method Shorten(q: Pbuf, rem: nat, newLen: nat, ghost ns: seq<Pbuf>, ghost ks: seq<Pbuf>, ghost k: nat)
    requires k < |ns| && q == ns[k] && ks == ns[..k + 1] && Distinct(ns) && Sound(ns) && rem <= q.len
    requires newLen + Size(ns, k) == rem + Size(ns, 0)
    requires forall j: nat :: TrimAt(ns, j, k, newLen, Size(ns, 0))
    modifies q`len, q`totLen
    ensures newLen <= |old(Flat(ns))| && Sound(ks) && TotOk(ks) && Flat(ks) == old(Flat(ns))[..newLen]
  {
    ghost var parts, whole := Parts(ns), Size(ns, 0);
    TrimFacts(ns, ks, parts, k, newLen, whole);
    assert SpellAt(ns, parts, k);
    forall i, j ensures Differ(ks, i, j) { assert Differ(ns, i, j); }
    SetLast(q, rem, ks, parts, k);
    CutSpells(ks, parts, k, rem, whole, newLen);
    SpellsSound(ks, CutParts(parts, k, rem));
  }

  /** The chain cut to `newLen` bytes: `ks` stays, `gone` goes. */
  method TrimTo(p: Pbuf, newLen: nat, ghost ns: seq<Pbuf>) returns (q: Pbuf, ghost ks: seq<Pbuf>, ghost gone: seq<Pbuf>)
    requires Chain(p, ns) && newLen < p.totLen < U16
    modifies ns`len, ns`totLen
    ensures ns == ks + gone && ks != [] && q == ks[|ks| - 1]
    ensures newLen <= |old(Flat(ns))| && Sound(ks) && TotOk(ks) && Flat(ks) == old(Flat(ns))[..newLen]
  {
    var rem;
    ghost var k;
    q, rem, k := StepOver(p, newLen, ns);
    ks, gone := CutAfter(ns, k);
    Shorten(q, rem, newLen, ns, ks, k);
  }

  lemma CutAfter(ns: seq<Pbuf>, k: nat) returns (ks: seq<Pbuf>, gone: seq<Pbuf>)
    requires k < |ns|
    ensures ns == ks + gone && ks == ns[..k + 1] && |ks| == k + 1 && ks[k] == ns[k]
  {
    ks, gone := ns[..k + 1], ns[k + 1..];
  }

  lemma LinkParts(p: Pbuf?, ks: seq<Pbuf>, gone: seq<Pbuf>)
    requires Linked(p, ks + gone) && ks != []
    ensures Linked(ks[|ks| - 1].next, gone) && Distinct(ks) && Disjoint(ks, gone)
    ensures forall i :: 0 <= i < |ks| - 1 ==> NextOk(ks, i)
  {
    var ns := ks + gone;
    assert NextOk(ns, |ks| - 1);
    forall i ensures NextOk(gone, i) {
      if 0 <= i < |gone| { assert NextOk(ns, |ks| + i); }
    }
    forall i | 0 <= i < |ks| - 1 ensures NextOk(ks, i) { assert NextOk(ns, i); }
    forall i, j ensures Differ(gone, i, j) { assert Differ(ns, |ks| + i, |ks| + j); }
    forall i, j ensures Differ(ks, i, j) { assert Differ(ns, i, j); }
    forall i, j | 0 <= i < |ks| && 0 <= j < |gone| ensures ks[i] != gone[j] { assert Differ(ns, i, |ks| + j); }
  }

  lemma RefsTail(ns: seq<Pbuf>, ks: seq<Pbuf>, gone: seq<Pbuf>)
    requires ns == ks + gone
    ensures RefsOf(gone) == RefsOf(ns)[|ks|..] && (Live(ns) ==> Live(gone))
    ensures (set x | x in gone) <= (set x | x in ns) && (ks != [] ==> ks[|ks| - 1] in ns)
  {
    forall i | 0 <= i < |gone| ensures gone[i].refs == ns[|ks| + i].refs { assert gone[i] == ns[|ks| + i]; }
  }

  ghost predicate RefFrom(ns: seq<Pbuf>, j: nat, was: seq<nat>, lo: nat, n: nat)
    reads ns`refs
  {
    j < |ns| && j < |was| ==> ns[j].refs + (if lo <= j < lo + n then 1 else 0) == was[j]
  }

  /** The `n` buffers from `lo` on have one reference less than they had, the others as many. */
  ghost predicate DroppedFrom(ns: seq<Pbuf>, was: seq<nat>, lo: nat, n: nat)
    reads ns`refs
  {
    forall j: nat :: RefFrom(ns, j, was, lo, n)
  }

  lemma JoinRefs(ns: seq<Pbuf>, ks: seq<Pbuf>, gone: seq<Pbuf>, was: seq<nat>, n: nat)
    requires ns == ks + gone && |was| == |ns| && Dropped(gone, was[|ks|..], n)
    requires forall i :: 0 <= i < |ks| ==> ks[i].refs == was[i]
    ensures DroppedFrom(ns, was, |ks|, n)
  {
    forall j: nat ensures RefFrom(ns, j, was, |ks|, n) {
      if |ks| <= j { assert RefAt(gone, j - |ks|, was[|ks|..], n); }
    }
  }

  lemma {:induction false} FirstSharedTail(was: seq<nat>, k: nat, i: nat)
    requires k + i <= |was|
    ensures FirstShared(was, k + i) == k + FirstShared(was[k..], i)
    decreases |was| - i
  {
    if k + i < |was| { FirstSharedTail(was, k, i + 1); }
  }

  /** Ends the chain at `q` and drops the reference to what follows. */
  method Release(p: Pbuf, q: Pbuf, ghost ks: seq<Pbuf>, ghost gone: seq<Pbuf>) returns (ghost freed: nat)
    requires Linked(p, ks + gone) && ks != [] && q == ks[|ks| - 1] && Live(gone)
    modifies q`next, gone`refs
    ensures Linked(p, ks) && freed == FirstShared(old(RefsOf(gone)), 0) && Dropped(gone, old(RefsOf(gone)), freed + 1)
  {
    LinkParts(p, ks, gone);
    freed := 0;
    if q.next != null {
      var n;
      n, freed := PbufFree(q.next, gone);
    }
    q.next := null;
    forall i ensures NextOk(ks, i) { assert Differ(ks, i, |ks| - 1) && (0 <= i < |ks| - 1 ==> old(NextOk(ks, i))); }
  }

  method ReleaseRefs(p: Pbuf, q: Pbuf, ghost ns: seq<Pbuf>, ghost ks: seq<Pbuf>, ghost gone: seq<Pbuf>,
                     ghost was: seq<nat>)
    returns (ghost freed: nat)
    requires Linked(p, ns) && ns == ks + gone && ks != [] && q == ks[|ks| - 1] && Live(ns) && was == RefsOf(ns)
    modifies q`next, ns`refs
    ensures Linked(p, ks) && |ks| + freed == FirstShared(was, |ks|) && DroppedFrom(ns, was, |ks|, freed + 1)
  {
    LinkParts(p, ks, gone);
    RefsTail(ns, ks, gone);
    freed := Release(p, q, ks, gone);
    forall i | 0 <= i < |ks| ensures ks[i].refs == was[i] { assert ks[i] in ks && ns[i] == ks[i]; }
    JoinRefs(ns, ks, gone, was, freed + 1);
    FirstSharedTail(was, |ks|, 0);
  }

  /** The shrinking case of `pbuf_realloc`. */
  method Shrink(p: Pbuf, newLen: nat, ghost ns: seq<Pbuf>)
    returns (ghost ks: seq<Pbuf>, ghost gone: seq<Pbuf>, ghost freed: nat)
    requires Chain(p, ns) && Live(ns) && newLen < p.totLen < U16
    modifies ns`len, ns`totLen, ns`next, ns`refs
    ensures ns == ks + gone && Chain(p, ks) && newLen <= |old(Flat(ns))| && Flat(ks) == old(Flat(ns))[..newLen]
    ensures |ks| + freed == FirstShared(old(RefsOf(ns)), |ks|) && DroppedFrom(ns, old(RefsOf(ns)), |ks|, freed + 1)
  {
    var q;
    ghost var was := RefsOf(ns);
    q, ks, gone := TrimTo(p, newLen, ns);
    assert q == ns[|ks| - 1] && q in ns;
    freed := ReleaseRefs(p, q, ns, ks, gone, was);
  }

  /** `pbuf_realloc` cuts a chain to `newLen` bytes; it never grows one.  `ks` is what stays of
      it, and `freed` how many of the other buffers were deallocated. */
  method PbufRealloc(p: Pbuf, newLen: nat, ghost ns: seq<Pbuf>)
    returns (ghost ks: seq<Pbuf>, ghost gone: seq<Pbuf>, ghost freed: nat)
    requires Chain(p, ns) && Live(ns) && p.totLen < U16
    modifies ns`len, ns`totLen, ns`next, ns`refs
    ensures newLen >= old(p.totLen) ==> unchanged(ns)
    ensures newLen < old(p.totLen) ==>
      && ns == ks + gone && Chain(p, ks)
      && newLen <= |old(Flat(ns))| && Flat(ks) == old(Flat(ns))[..newLen]
    ensures newLen < old(p.totLen) ==>
      && |ks| + freed == FirstShared(old(RefsOf(ns)), |ks|)
      && DroppedFrom(ns, old(RefsOf(ns)), |ks|, freed + 1)
  {
    if newLen >= p.totLen {
      return ns, [], 0;
    }
    ks, gone, freed := Shrink(p, newLen, ns);
  }

  // ------------------------------------------------------------------ pbuf_copy

  /** Not a packet queue: no buffer but the last is the end of a packet. */
  ghost predicate OnePacket(ns: seq<Pbuf>)
    reads ns`len, ns`totLen
  {
    forall i :: 0 <= i < |ns| - 1 ==> ns[i].len != ns[i].totLen
  }

  ghost function SizesTo(ns: seq<Pbuf>, n: nat): (c: O.Sizes)
    requires n <= |ns|
    reads ns`len, ns`totLen
    ensures |c.len| == |c.tot| == n && forall i :: 0 <= i < n ==> c.len[i] == ns[i].len && c.tot[i] == ns[i].totLen
  {
    if n == 0 then O.Sizes([], []) else
      var c := SizesTo(ns, n - 1);
      O.Sizes(c.len + [ns[n - 1].len], c.tot + [ns[n - 1].totLen])
  }

  /** The lengths and totals of a chain. */
  ghost function SizesOf(ns: seq<Pbuf>): (c: O.Sizes)
    reads ns`len, ns`totLen
    ensures |c.len| == |c.tot| == |ns|
    ensures forall i :: 0 <= i < |ns| ==> c.len[i] == ns[i].len && c.tot[i] == ns[i].totLen
  {
    SizesTo(ns, |ns|)
  }

  lemma {:induction false} SizesBefore(ns: seq<Pbuf>, i: nat)
    requires i <= |ns|
    ensures O.Before(SizesOf(ns).len, i) + Size(ns, i) == Size(ns, 0)
  {
    if i > 0 { SizesBefore(ns, i - 1); }
  }

  lemma SizesRight(ns: seq<Pbuf>)
    requires TotOk(ns) && ns != []
    ensures O.TotalsRight(SizesOf(ns)) && SizesOf(ns).tot[0] == Size(ns, 0)
  {
    var c := SizesOf(ns);
    SizesBefore(ns, |ns|);
    assert TotAt(ns, 0);
    forall i: nat ensures O.TotalRight(c, i) {
      if i < |ns| {
        SizesBefore(ns, i);
        assert TotAt(ns, i);
      }
    }
  }

  /** The first `pos` bytes of `target` replaced by those of `source`. */
  function Overlaid(source: Bytes, target: Bytes, pos: nat): Bytes
    requires pos <= |source| && pos <= |target|
  {
    source[..pos] + target[pos..]
  }

  lemma OverlayMore(source: Bytes, target: Bytes, pos: nat, n: nat)
    requires pos + n <= |source| && pos + n <= |target|
    ensures Splice(Overlaid(source, target, pos), pos, source[pos..pos + n]) == Overlaid(source, target, pos + n)
  {
  }

  /** The copy stands at offset `off` of buffer `i`, or at the end, `pos` bytes in. */
  ghost predicate At(lens: seq<Bytes>, i: nat, off: nat, pos: nat) {
    i <= |lens| && |Before(lens, i)| + off == pos && if i < |lens| then off <= |lens[i]| else off == 0
  }

  lemma TakeSplice(d: Bytes, len: nat, off: nat, b: Bytes)
    requires off + |b| <= len <= |d|
    ensures Splice(d, off, b)[..len] == Splice(d[..len], off, b)
  {
  }

  lemma SliceOfTake(d: Bytes, len: nat, off: nat, n: nat)
    requires off + n <= len <= |d|
    ensures d[..len][off..off + n] == d[off..off + n]
  {
  }

  /** MEMCPY of `n` bytes from one buffer to another. */
  method MoveBytes(to: Pbuf, from: Pbuf, ot: nat, of: nat, n: nat, ghost ts: seq<Pbuf>, ghost tp: seq<Bytes>,
                   ghost i: nat)
    returns (ghost tp': seq<Bytes>)
    requires Spells(ts, tp) && Distinct(ts) && i < |ts| && to == ts[i]
    requires ot + n <= |tp[i]| && of + n <= from.len <= |from.data|
    modifies to`data
    ensures tp' == tp[i := Splice(tp[i], ot, old(Used(from))[of..of + n])] && Spells(ts, tp')
  {
    assert SpellAt(ts, tp, i);
    SliceOfTake(from.data, from.len, of, n);
    TakeSplice(to.data, to.len, ot, from.data[of..of + n]);
    tp' := tp[i := Splice(tp[i], ot, from.data[of..of + n])];
    to.data := to.data[..ot] + from.data[of..of + n] + to.data[ot + n..];
    forall k: nat ensures SpellAt(ts, tp', k) { assert old(SpellAt(ts, tp, k)) && Differ(ts, i, k); }
  }

  /** Where the copy stands: `pos` bytes are over. */
  ghost predicate Copied(ts: seq<Pbuf>, fs: seq<Pbuf>, tp: seq<Bytes>, fp: seq<Bytes>, target: Bytes, pos: nat)
    reads ts`data, ts`len, fs`data, fs`len
  {
    && Spells(ts, tp) && Spells(fs, fp)
    && pos <= |Join(fp, 0)| && pos <= |target| && Join(tp, 0) == Overlaid(Join(fp, 0), target, pos)
  }

  /** The step in terms of the segments. */
  lemma {:induction false} CopiedMore(tp: seq<Bytes>, fp: seq<Bytes>, target: Bytes, i: nat, j: nat, ot: nat, of: nat,
                                      n: nat)
    requires i < |tp| && j < |fp| && ot + n <= |tp[i]| && of + n <= |fp[j]|
    requires |Before(tp, i)| + ot == |Before(fp, j)| + of
    requires |Before(fp, j)| + of <= |Join(fp, 0)| && |Before(fp, j)| + of <= |target|
    requires Join(tp, 0) == Overlaid(Join(fp, 0), target, |Before(fp, j)| + of)
    ensures |Before(fp, j)| + of + n <= |Join(fp, 0)| && |Before(fp, j)| + of + n <= |target|
    ensures Join(tp[i := Splice(tp[i], ot, fp[j][of..of + n])], 0) ==
      Overlaid(Join(fp, 0), target, |Before(fp, j)| + of + n)
  {
    var pos := |Before(fp, j)| + of;
    JoinSlice(fp, j, of, n);
    JoinSplice(tp, i, ot, fp[j][of..of + n]);
    OverlayMore(Join(fp, 0), target, pos, n);
  }

  /** Segments of the same lengths put the same positions at the same places. */
  lemma {:induction false} BeforeLength(a: seq<Bytes>, b: seq<Bytes>, i: nat)
    requires i <= |a| == |b| && forall j :: 0 <= j < i ==> |a[j]| == |b[j]|
    ensures |Before(a, i)| == |Before(b, i)|
  {
    if i > 0 { BeforeLength(a, b, i - 1); }
  }

  /** On to the next buffer when this one is used up. */
  method Advance(p: Pbuf, off: nat, ghost ns: seq<Pbuf>, ghost parts: seq<Bytes>, ghost i: nat, ghost pos: nat)
    returns (p': Pbuf?, off': nat, ghost i': nat)
    requires Linked(NodeAt(ns, 0), ns) && i < |ns| == |parts| && p == ns[i]
    requires |parts[i]| == p.len && At(parts, i, off, pos)
    ensures p' == NodeAt(ns, i') && At(parts, i', off', pos)
    ensures if off == p.len then i' == i + 1 && off' == 0 else i' == i && off' == off < p.len
  {
    assert NextOk(ns, i);
    if off == p.len {
      return p.next, 0, i + 1;
    }
    return p, off, i;
  }

  /** `len == tot_len` although another buffer follows. */
  method QueueEnd(p: Pbuf?, ghost ns: seq<Pbuf>, ghost c: O.Sizes, ghost i: nat) returns (b: bool)
    requires Linked(NodeAt(ns, 0), ns) && p == NodeAt(ns, i) && c == SizesOf(ns)
    ensures b == c.QueueAt(i)
  {
    assert NextOk(ns, i);
    b := p != null && p.len == p.totLen && p.next != null;
  }

  /** Copy as much as fits from the current source buffer to the current target buffer. */
  method CopyPart(to: Pbuf, from: Pbuf, ot: nat, of: nat, ghost ts: seq<Pbuf>, ghost fs: seq<Pbuf>,
                  ghost tp: seq<Bytes>,
                  ghost fp: seq<Bytes>, ghost target: Bytes, ghost i: nat, ghost j: nat, ghost pos: nat)
    returns (n: nat, ghost tp': seq<Bytes>)
    requires Copied(ts, fs, tp, fp, target, pos) && Distinct(ts) && Disjoint(ts, fs)
    requires i < |ts| && to == ts[i] && At(tp, i, ot, pos) && j < |fs| && from == fs[j] && At(fp, j, of, pos)
    modifies to`data
    ensures Copied(ts, fs, tp', fp, target, pos + n) && At(tp', i, ot + n, pos + n) && At(fp, j, of + n, pos + n)
    ensures |tp'[i]| == to.len && |fp[j]| == from.len
    ensures n == if to.len - ot >= from.len - of then from.len - of else to.len - ot
  {
    assert SpellAt(ts, tp, i) && SpellAt(fs, fp, j) && to in ts;
    if to.len - ot >= from.len - of {
      n := from.len - of;
    } else {
      n := to.len - ot;
    }
    CopiedMore(tp, fp, target, i, j, ot, of, n);
    tp' := MoveBytes(to, from, ot, of, n, ts, tp, i);
    BeforeLength(tp, tp', i);
  }

  /** Both cursors stand at spot `s`, `pos` bytes in. */
  ghost predicate Standing(ts: seq<Pbuf>, fs: seq<Pbuf>, tp: seq<Bytes>, fp: seq<Bytes>, target: Bytes, s: O.Spot,
                           pos: nat)
    reads ts`data, ts`len, fs`data, fs`len
  {
    Copied(ts, fs, tp, fp, target, pos) && At(tp, s.i, s.ot, pos) && At(fp, s.j, s.of, pos)
  }

  /** One round of the loop of `pbuf_copy`. */
  method CopyRound(to: Pbuf, from: Pbuf, ot: nat, of: nat, ghost ts: seq<Pbuf>, ghost fs: seq<Pbuf>,
                   ghost tp: seq<Bytes>, ghost fp: seq<Bytes>, ghost target: Bytes, ghost tz: O.Sizes,
                   ghost fz: O.Sizes, ghost s: O.Spot, ghost pos: nat)
    returns (to': Pbuf?, from': Pbuf?, ot': nat, of': nat, ghost tp': seq<Bytes>, ghost n: O.Spot, ghost pos': nat)
    requires Linked(NodeAt(ts, 0), ts) && Linked(NodeAt(fs, 0), fs) && Disjoint(ts, fs)
    requires Standing(ts, fs, tp, fp, target, s, pos) && s.i < |ts| && to == ts[s.i] && s.j < |fs| && from == fs[s.j]
    requires ot == s.ot && of == s.of && tz.Len(s.i) == to.len && fz.Len(s.j) == from.len
    modifies to`data
    ensures Standing(ts, fs, tp', fp, target, n, pos') && to' == NodeAt(ts, n.i) && from' == NodeAt(fs, n.j)
    ensures ot' == n.ot && of' == n.of && n == O.Pass(tz, fz, s)
  {
    var k;
    k, tp' := CopyPart(to, from, ot, of, ts, fs, tp, fp, target, s.i, s.j, pos);
    pos' := pos + k;
    ghost var i, j;
    to', ot', i := Advance(to, ot + k, ts, tp', s.i, pos');
    from', of', j := Advance(from, of + k, fs, fp, s.j, pos');
    n := O.Spot(i, ot', j, of');
    O.PassIs(tz, fz, s, k);
  }

  /** A round with the tests for packet queues and for the end; `r` is the answer if it is the last. */
  method CopyPass(to: Pbuf, from: Pbuf, ot: nat, of: nat, ghost ts: seq<Pbuf>, ghost fs: seq<Pbuf>,
                  ghost tp: seq<Bytes>, ghost fp: seq<Bytes>, ghost target: Bytes, ghost tz: O.Sizes, ghost fz: O.Sizes,
                  ghost s: O.Spot, ghost pos: nat)
    returns (to': Pbuf?, from': Pbuf?, ot': nat, of': nat, r: O.Err, ghost tp': seq<Bytes>, ghost n: O.Spot,
             ghost pos': nat)
    requires Linked(NodeAt(ts, 0), ts) && Linked(NodeAt(fs, 0), fs) && Disjoint(ts, fs)
    requires Standing(ts, fs, tp, fp, target, s, pos) && s.i < |ts| && to == ts[s.i] && s.j < |fs| && from == fs[s.j]
    requires ot == s.ot && of == s.of && tz == SizesOf(ts) && fz == SizesOf(fs)
    modifies to`data
    ensures Standing(ts, fs, tp', fp, target, n, pos') && to' == NodeAt(ts, n.i) && from' == NodeAt(fs, n.j)
    ensures ot' == n.ot && of' == n.of && s.i + s.j < n.i + n.j
    ensures r == O.Ok ==> pos' == |Join(fp, 0)|
    ensures if r == O.Arg then n.j < |fs| && O.Walk(tz, fz, s) == O.Walk(tz, fz, n)
            else r == O.Walk(tz, fz, s) != O.Halt
  {
    O.OnePass(tz, fz, s);
    to', from', ot', of', tp', n, pos' := CopyRound(to, from, ot, of, ts, fs, tp, fp, target, tz, fz, s, pos);
    var q1 := QueueEnd(from', fs, fz, n.j);
    var q2 := QueueEnd(to', ts, tz, n.i);
    if q1 || q2 {
      r := O.Val;
    } else if from' == null {
      JoinSplit(fp, n.j);
      r := O.Ok;
    } else {
      r := O.Arg;
    }
  }

  /** The loop of `pbuf_copy`: `pos` bytes are copied when it ends. */
  method CopyLoop(to: Pbuf, from: Pbuf, ghost ts: seq<Pbuf>, ghost fs: seq<Pbuf>, ghost start: seq<Bytes>,
                  ghost fp: seq<Bytes>, ghost tz: O.Sizes, ghost fz: O.Sizes)
    returns (r: O.Err, ghost pos: nat, ghost tp: seq<Bytes>)
    requires tz == SizesOf(ts) && fz == SizesOf(fs)
    requires Linked(to, ts) && Linked(from, fs) && Disjoint(ts, fs)
    requires Spells(ts, start) && Spells(fs, fp)
    modifies ts`data
    ensures Copied(ts, fs, tp, fp, Join(start, 0), pos)
    ensures r == O.Walk(tz, fz, O.START)
    ensures r == O.Ok ==> pos == |Join(fp, 0)|
    ensures r == O.Halt ==> pos == |Join(start, 0)|
  {
    ghost var target := Join(start, 0);
    var pt: Pbuf?, pf: Pbuf?, ot: nat, of: nat := to, from, 0, 0;
    ghost var s := O.START;
    tp, pos := start, 0;
    while true
      invariant pt == NodeAt(ts, s.i) && s.j < |fs| && pf == fs[s.j] && ot == s.ot && of == s.of
      invariant Standing(ts, fs, tp, fp, target, s, pos)
      invariant O.Walk(tz, fz, O.START) == O.Walk(tz, fz, s)
      decreases |ts| + |fs| - s.i - s.j
    {
      if pt == null {
        JoinSplit(tp, |ts|);
        return O.Halt, pos, tp;
      }
      pt, pf, ot, of, r, tp, s, pos := CopyPass(pt, pf, ot, of, ts, fs, tp, fp, target, tz, fz, s, pos);
      if r != O.Arg {
        return r, pos, tp;
      }
    }
  }

  /** The same in terms of the byte strings. */
  method CopyChain(to: Pbuf, from: Pbuf, ghost ts: seq<Pbuf>, ghost fs: seq<Pbuf>) returns (r: O.Err, ghost pos: nat)
    requires Linked(to, ts) && Sound(ts) && Linked(from, fs) && Sound(fs) && Disjoint(ts, fs)
    modifies ts`data
    ensures r == O.Walk(SizesOf(ts), SizesOf(fs), O.START)
    ensures Sound(ts) && Flat(fs) == old(Flat(fs)) && pos <= |Flat(fs)| && pos <= |old(Flat(ts))|
    ensures Flat(ts) == Overlaid(Flat(fs), old(Flat(ts)), pos)
    ensures r == O.Ok ==> pos == |Flat(fs)|
    ensures r == O.Halt ==> pos == |old(Flat(ts))|
  {
    ghost var start, fp, tp := Parts(ts), Parts(fs), [];
    SpellsJoin(ts, start, 0);
    SpellsJoin(fs, fp, 0);
    r, pos, tp := CopyLoop(to, from, ts, fs, start, fp, SizesOf(ts), SizesOf(fs));
    SpellsJoin(ts, tp, 0);
    SpellsJoin(fs, fp, 0);
    SpellsSound(ts, tp);
  }

  /** `pbuf_copy`, for any two chains, whatever their totals say: the bytes copied are the
      source's, and the target keeps its own after them.  ERR_VAL comes exactly if a packet queue
      is met, and the stop on a missing target buffer exactly if the target's end is reached
      before the source's. */
  method PbufCopy(to: Pbuf?, from: Pbuf?, ghost ts: seq<Pbuf>, ghost fs: seq<Pbuf>) returns (r: O.Err, ghost pos: nat)
    requires Linked(to, ts) && Sound(ts) && Linked(from, fs) && Sound(fs) && Disjoint(ts, fs)
    modifies ts`data
    ensures r == O.Arg <==> to == null || from == null || to.totLen < from.totLen
    ensures Flat(fs) == old(Flat(fs)) && (r == O.Arg ==> unchanged(ts))
    ensures r != O.Arg ==> r == O.Walk(SizesOf(ts), SizesOf(fs), O.START)
    ensures r != O.Arg ==> O.EndsAs(r, SizesOf(ts), SizesOf(fs), O.QueueMet(SizesOf(ts), SizesOf(fs), O.START))
    ensures r != O.Arg ==> Sound(ts) && pos <= |Flat(fs)| && pos <= |old(Flat(ts))|
    ensures r != O.Arg ==> Flat(ts) == Overlaid(Flat(fs), old(Flat(ts)), pos)
    ensures r == O.Ok ==> pos == |Flat(fs)|
    ensures r == O.Halt ==> pos == |old(Flat(ts))|
  {
    if to == null || from == null || to.totLen < from.totLen {
      return O.Arg, 0;
    }
    O.CopyEnds(SizesOf(ts), SizesOf(fs));
    r, pos := CopyChain(to, from, ts, fs);
  }

  /** The same of chains whose totals are right: all but packet queues are copied whole, and the
      stop comes exactly for an empty buffer behind a source that fills the target's only one. */
  method PbufCopyPacket(to: Pbuf?, from: Pbuf?, ghost ts: seq<Pbuf>, ghost fs: seq<Pbuf>)
    returns (r: O.Err, ghost pos: nat)
    requires Chain(to, ts) && Chain(from, fs) && Disjoint(ts, fs)
    modifies ts`data
    ensures r != O.Arg ==> Chain(to, ts) && pos <= |Flat(fs)| <= |old(Flat(ts))|
    ensures r != O.Arg ==> Flat(ts) == Overlaid(Flat(fs), old(Flat(ts)), pos)
    ensures r != O.Arg ==> RightEnds(r, ts, fs)
    ensures r == O.Ok || r == O.Halt ==> pos == |Flat(fs)|
  {
    if to != null && from != null && to.totLen >= from.totLen { RightTotals(ts, fs); }
    r, pos := PbufCopy(to, from, ts, fs);
  }

  ghost predicate RightEnds(r: O.Err, ts: seq<Pbuf>, fs: seq<Pbuf>)
    reads ts`len, ts`totLen, fs`len, fs`totLen
  {
    && (r == O.Halt <==> |ts| == 1 && |fs| == 2 && ts[0].len == fs[0].len && fs[1].len == 0)
    && (OnePacket(ts) && OnePacket(fs) ==> r == O.Ok)
  }

  lemma RightTotals(ts: seq<Pbuf>, fs: seq<Pbuf>)
    requires ts != [] && fs != [] && Sound(ts) && Sound(fs) && TotOk(ts) && TotOk(fs) && ts[0].totLen >= fs[0].totLen
    ensures RightEnds(O.Walk(SizesOf(ts), SizesOf(fs), O.START), ts, fs)
    ensures |Flat(fs)| <= |Flat(ts)|
  {
    var (t, f) := (SizesOf(ts), SizesOf(fs));
    SizeIs(ts, 0);
    SizeIs(fs, 0);
    SizesRight(ts);
    SizesRight(fs);
    O.HaltIff(t, f);
    if OnePacket(ts) && OnePacket(fs) {
      forall k: nat ensures !t.QueueAt(k) && !f.QueueAt(k) { }
      O.OnePacketEnds(t, f);
    }
  }

  lemma SpellsSound(ns: seq<Pbuf>, parts: seq<Bytes>)
    requires Spells(ns, parts)
    ensures Sound(ns)
  {
    forall i | 0 <= i < |ns| ensures ns[i].len <= |ns[i].data| { assert SpellAt(ns, parts, i); }
  }
}
