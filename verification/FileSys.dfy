/** The block layer of the file server (fs/fs.c): free-block bitmap, direct and
    indirect block pointers, and byte-granular read, write and truncate over a
    fixed set of files.  Blocks are seen through the block cache (fs/bc.c). */
module FileSys {

  import opened Options

  const BLKSIZE: nat := 4096
  const NDIRECT: nat := 10
  const NINDIRECT: nat := 1024
  const MAXBLOCKS: nat := NDIRECT + NINDIRECT

  type byte = n: nat | n < 256
  type Bytes = seq<byte>

  datatype File = File(size: nat, direct: seq<nat>, indirect: nat)

  /** Number of blocks a file of `size` bytes spans. */
  function Blocks(size: nat): nat {
    (size + BLKSIZE - 1) / BLKSIZE
  }

  // ---------------------------------------------------- pointers in a block

  function ZeroBlock(): (b: Bytes)
    ensures |b| == BLKSIZE && forall i :: 0 <= i < BLKSIZE ==> b[i] == 0
  {
    seq(BLKSIZE, i => 0)
  }

  function Word(a: nat, b: nat, c: nat, d: nat): nat {
    a + 0x100 * b + 0x10000 * c + 0x1000000 * d
  }

  /** The j-th little-endian 32-bit word of a block. */
  function GetPtr(b: Bytes, j: nat): nat {
    if 4 * j + 3 < |b| then Word(b[4 * j], b[4 * j + 1], b[4 * j + 2], b[4 * j + 3]) else 0
  }

  /** Byte `i` of a number, lowest first. */
  function Octet(p: nat, i: nat): byte {
    if i == 0 then p % 0x100 else Octet(p / 0x100, i - 1)
  }

  lemma WordOfOctets(p: nat)
    requires p < 0x1_0000_0000
    ensures Word(Octet(p, 0), Octet(p, 1), Octet(p, 2), Octet(p, 3)) == p
  {
    var q := p / 0x100;
    var r := q / 0x100;
    assert Octet(p, 1) == q % 0x100 && Octet(p, 2) == Octet(q, 1) == r % 0x100;
    assert Octet(p, 3) == Octet(q, 2) == Octet(r, 1) == r / 0x100;
  }

  function SetPtr(b: Bytes, j: nat, p: nat): (r: Bytes)
    ensures |r| == |b|
  {
    if 4 * j + 3 < |b|
    then b[4 * j := Octet(p, 0)][4 * j + 1 := Octet(p, 1)][4 * j + 2 := Octet(p, 2)][4 * j + 3 := Octet(p, 3)]
    else b
  }

  lemma GetSetSame(b: Bytes, j: nat, p: nat)
    requires |b| == BLKSIZE && j < NINDIRECT && p < 0x1_0000_0000
    ensures GetPtr(SetPtr(b, j, p), j) == p
  {
    WordOfOctets(p);
  }

  lemma GetSetOther(b: Bytes, j: nat, p: nat, k: nat)
    requires j != k
    ensures GetPtr(SetPtr(b, j, p), k) == GetPtr(b, k)
  {
  }

  // ------------------------------------------------------------------- state

  datatype Fs = Fs(nblocks: nat, free: seq<bool>, disk: seq<Bytes>, files: seq<File>)
  {
    ghost predicate Shape() {
      && |free| == |disk| == nblocks < 0x1_0000_0000
      && (forall b :: 0 <= b < nblocks ==> |disk[b]| == BLKSIZE)
      && (forall f :: 0 <= f < |files| ==> |files[f].direct| == NDIRECT)
    }
    function Size(f: nat): nat {
      if f < |files| then files[f].size else 0
    }
    function Indirect(f: nat): nat {
      if f < |files| then files[f].indirect else 0
    }
    function Disk(b: nat): Bytes {
      if b < |disk| then disk[b] else []
    }
    function IsFree(b: nat): bool {
      b < |free| && free[b]
    }
    /** The disk block holding block `n` of file `f`, 0 if none. */
    function Ptr(f: nat, n: nat): nat {
      if f >= |files| then 0
      else if n < NDIRECT then (if n < |files[f].direct| then files[f].direct[n] else 0)
      else if n < MAXBLOCKS && files[f].indirect != 0 then GetPtr(Disk(files[f].indirect), n - NDIRECT)
      else 0
    }
  }

  /** A place that can name a disk block: a file's block pointer, or its indirect pointer. */
  datatype Ref = Data(f: nat, n: nat) | Index(f: nat)

  function Names(s: Fs, r: Ref): nat {
    match r
    case Data(f, n) => s.Ptr(f, n)
    case Index(f) => s.Indirect(f)
  }

  /** A nonzero pointer names a block that is in use. */
  predicate NamedOk(s: Fs, r: Ref) {
    Names(s, r) != 0 ==> 3 <= Names(s, r) < s.nblocks && !s.IsFree(Names(s, r))
  }

  /** A nonzero pointer lies within the file. */
  predicate WithinOk(s: Fs, r: Ref) {
    Names(s, r) != 0 ==>
      match r case Data(f, n) => n < Blocks(s.Size(f)) case Index(f) => NDIRECT < Blocks(s.Size(f))
  }

  /** No block is named twice. */
  predicate Unshared(s: Fs, r: Ref, q: Ref) {
    r != q && Names(s, r) != 0 ==> Names(s, q) != Names(s, r)
  }

  /** Every named block is in use and has one owner. */
  ghost predicate Owned(s: Fs) {
    && s.Shape()
    && (forall r :: NamedOk(s, r))
    && (forall r, q :: Unshared(s, r, q))
  }

  /** No file has a pointer past its end. */
  ghost predicate Within(s: Fs) {
    forall r :: WithinOk(s, r)
  }

  ghost predicate Inv(s: Fs) {
    Owned(s) && Within(s)
  }

  /** The same pointers and the same free blocks. */
  ghost predicate SameNames(s: Fs, t: Fs) {
    && t.free == s.free && t.nblocks == s.nblocks && |t.files| == |s.files|
    && (forall r :: Names(t, r) == Names(s, r))
  }

  /** The byte at `pos` of file `f`, if that part of the file is backed by a block. */
  function ByteAt(s: Fs, f: nat, pos: nat): Option<byte> {
    var b := s.Ptr(f, pos / BLKSIZE);
    if pos < s.Size(f) && b != 0 && pos % BLKSIZE < |s.Disk(b)| then Some(s.Disk(b)[pos % BLKSIZE]) else None
  }

  // ------------------------------------------------------------ transitions

  function SetFree(s: Fs, b: nat, v: bool): Fs {
    if b < |s.free| then s.(free := s.free[b := v]) else s
  }

  function SetDisk(s: Fs, b: nat, c: Bytes): Fs {
    if b < |s.disk| then s.(disk := s.disk[b := c]) else s
  }

  function SetFile(s: Fs, f: nat, x: File): Fs {
    if f < |s.files| then s.(files := s.files[f := x]) else s
  }

  /** Store block pointer `p` for block `n` of file `f`, in the slot `file_block_walk` finds. */
  function SetSlot(s: Fs, f: nat, n: nat, p: nat): Fs {
    if f >= |s.files| then s
    else if n < NDIRECT then
      if n >= |s.files[f].direct| then s
      else SetFile(s, f, s.files[f].(direct := s.files[f].direct[n := p]))
    else SetDisk(s, s.Indirect(f), SetPtr(s.Disk(s.Indirect(f)), n - NDIRECT, p))
  }

  predicate HasSlot(s: Fs, f: nat, n: nat) {
    f < |s.files| && n < MAXBLOCKS && (n < NDIRECT || s.Indirect(f) != 0)
  }

  lemma SetSlotPtr(s: Fs, f: nat, n: nat, p: nat, g: nat, m: nat)
    requires Owned(s) && HasSlot(s, f, n) && p < 0x1_0000_0000
    ensures var t := SetSlot(s, f, n, p);
      && t.Ptr(g, m) == (if g == f && m == n then p else s.Ptr(g, m))
      && t.Indirect(g) == s.Indirect(g) && t.Size(g) == s.Size(g)
  {
    assert NamedOk(s, Index(f)) && Unshared(s, Index(f), Index(g));
    if n >= NDIRECT {
      var b := s.Disk(s.Indirect(f));
      GetSetSame(b, n - NDIRECT, p);
      if m >= NDIRECT && m != n { GetSetOther(b, n - NDIRECT, p, m - NDIRECT); }
    }
  }

  lemma SetSlotDisk(s: Fs, f: nat, n: nat, p: nat, b: nat)
    requires s.Shape()
    ensures var t := SetSlot(s, f, n, p);
      t.Shape() && t.free == s.free && |t.files| == |s.files| && t.nblocks == s.nblocks
    ensures b != s.Indirect(f) ==> SetSlot(s, f, n, p).Disk(b) == s.Disk(b)
  {
  }

  /** A block no reference names can be given to an empty slot. */
  lemma FillSlotOwned(s: Fs, f: nat, n: nat, b: nat)
    requires Owned(s) && HasSlot(s, f, n) && s.Ptr(f, n) == 0
    requires 3 <= b < s.nblocks && !s.IsFree(b) && forall r :: Names(s, r) != b
    ensures var t := SetSlot(s, f, n, b);
      && Owned(t)
      && (forall r :: Names(t, r) == if r == Data(f, n) then b else Names(s, r))
      && (forall g: nat :: t.Size(g) == s.Size(g))
  {
    var t := SetSlot(s, f, n, b);
    SetSlotDisk(s, f, n, b, 0);
    forall g: nat ensures t.Size(g) == s.Size(g) { SetSlotPtr(s, f, n, b, g, 0); }
    forall r ensures NamedOk(t, r) && Names(t, r) == if r == Data(f, n) then b else Names(s, r) {
      assert NamedOk(s, r);
      if r.Data? { SetSlotPtr(s, f, n, b, r.f, r.n); } else { SetSlotPtr(s, f, n, b, r.f, 0); }
    }
    forall r, q ensures Unshared(t, r, q) { assert Unshared(s, r, q); }
  }

  /** Giving file `f` a block at place `q` leaves no pointer past the end exactly when
      `q` itself is within the file. */
  lemma FillWithin(s: Fs, t: Fs, q: Ref)
    requires Within(s) && Names(t, q) != 0 && (forall r :: r != q ==> Names(t, r) == Names(s, r))
    requires forall g: nat :: t.Size(g) == s.Size(g)
    ensures Within(t) <==> WithinOk(t, q)
  {
    forall r | r != q ensures WithinOk(t, r) { assert WithinOk(s, r); }
  }

  lemma SameWithin(s: Fs, t: Fs)
    requires (forall r :: Names(t, r) == Names(s, r)) && forall g: nat :: t.Size(g) == s.Size(g)
    ensures Within(t) <==> Within(s)
  {
    forall r ensures WithinOk(t, r) <==> WithinOk(s, r) { }
  }

  /** Freeing the block in a slot and then clearing the slot. */
  lemma EmptySlotNames(s: Fs, f: nat, n: nat, r: Ref)
    requires Owned(s) && HasSlot(s, f, n) && s.Ptr(f, n) != 0
    ensures var t := SetSlot(SetFree(s, s.Ptr(f, n), true), f, n, 0);
      && t == SetFree(SetSlot(s, f, n, 0), s.Ptr(f, n), true)
      && Names(t, r) == (if r == Data(f, n) then 0 else Names(s, r)) && t.Size(r.f) == s.Size(r.f)
  {
    SetSlotDisk(s, f, n, 0, 0);
    if r.Data? { SetSlotPtr(s, f, n, 0, r.f, r.n); } else { SetSlotPtr(s, f, n, 0, r.f, 0); }
  }

  lemma EmptySlotInv(s: Fs, f: nat, n: nat)
    requires Owned(s) && HasSlot(s, f, n) && s.Ptr(f, n) != 0
    ensures var t := SetSlot(SetFree(s, s.Ptr(f, n), true), f, n, 0); Owned(t) && (Within(s) ==> Within(t))
  {
    var t := SetSlot(SetFree(s, s.Ptr(f, n), true), f, n, 0);
    SetSlotDisk(SetFree(s, s.Ptr(f, n), true), f, n, 0, 0);
    forall r ensures NamedOk(t, r) && (WithinOk(s, r) ==> WithinOk(t, r)) {
      EmptySlotNames(s, f, n, r);
      assert NamedOk(s, r) && Unshared(s, Data(f, n), r);
    }
    forall r, q ensures Unshared(t, r, q) {
      EmptySlotNames(s, f, n, r);
      EmptySlotNames(s, f, n, q);
      assert Unshared(s, r, q);
    }
  }

  /** Marking a free block as used changes nothing else, and nothing names it. */
  lemma TakeOwned(s: Fs, b: nat)
    requires Owned(s) && s.IsFree(b) && b != 0
    ensures Owned(SetFree(s, b, false))
    ensures forall r :: Names(SetFree(s, b, false), r) == Names(s, r) && Names(s, r) != b
  {
    var t := SetFree(s, b, false);
    forall r ensures Names(t, r) == Names(s, r) && NamedOk(t, r) && Names(s, r) != b { assert NamedOk(s, r); }
    forall r, q ensures Unshared(t, r, q) { assert Unshared(s, r, q); }
  }

  /** The new, cleared indirect block of file `f`. */
  function WithIndirect(s: Fs, f: nat, b: nat): Fs {
    if f >= |s.files| then s else SetFile(SetDisk(s, b, ZeroBlock()), f, s.files[f].(indirect := b))
  }

  lemma WithIndirectPtr(s: Fs, f: nat, b: nat, g: nat, n: nat)
    requires s.Shape() && f < |s.files| && s.Indirect(f) == 0 && 0 < b < s.nblocks && (forall r :: Names(s, r) != b)
    ensures WithIndirect(s, f, b).Ptr(g, n) == s.Ptr(g, n)
  {
    assert Names(s, Index(g)) != b;
  }

  lemma WithIndirectOwned(s: Fs, f: nat, b: nat)
    requires Owned(s) && f < |s.files| && s.Indirect(f) == 0
    requires 3 <= b < s.nblocks && !s.IsFree(b) && forall r :: Names(s, r) != b
    ensures Owned(WithIndirect(s, f, b))
    ensures forall r :: Names(WithIndirect(s, f, b), r) == if r == Index(f) then b else Names(s, r)
  {
    var t := WithIndirect(s, f, b);
    forall r ensures Names(t, r) == (if r == Index(f) then b else Names(s, r)) {
      if r.Data? { WithIndirectPtr(s, f, b, r.f, r.n); }
    }
    forall r ensures NamedOk(t, r) { assert NamedOk(s, r); }
    forall r, q ensures Unshared(t, r, q) { assert Unshared(s, r, q); }
  }

  /** Give up an indirect block that points nowhere. */
  function WithoutIndirect(s: Fs, f: nat): Fs {
    if f >= |s.files| then s else SetFile(SetFree(s, s.files[f].indirect, true), f, s.files[f].(indirect := 0))
  }

  lemma WithoutIndirectInv(s: Fs, f: nat)
    requires Inv(s) && f < |s.files| && s.Indirect(f) != 0 && forall n :: n >= NDIRECT ==> s.Ptr(f, n) == 0
    ensures Inv(WithoutIndirect(s, f))
    ensures forall g: nat, n: nat :: WithoutIndirect(s, f).Ptr(g, n) == s.Ptr(g, n)
  {
    var t := WithoutIndirect(s, f);
    forall g: nat, n: nat ensures t.Ptr(g, n) == s.Ptr(g, n) { }
    forall r ensures NamedOk(t, r) && WithinOk(t, r) && Names(t, r) == if r == Index(f) then 0 else Names(s, r) {
      assert NamedOk(s, r) && WithinOk(s, r) && Unshared(s, Index(f), r);
    }
    forall r, q ensures Unshared(t, r, q) { assert Unshared(s, r, q); }
  }

  lemma SetSizeInv(s: Fs, f: nat, size: nat)
    requires Inv(s) && f < |s.files|
    requires forall n: nat :: n >= Blocks(size) ==> s.Ptr(f, n) == 0
    requires Blocks(size) <= NDIRECT ==> s.Indirect(f) == 0
    ensures Inv(SetFile(s, f, s.files[f].(size := size)))
    ensures forall r :: Names(SetFile(s, f, s.files[f].(size := size)), r) == Names(s, r)
  {
    var t := SetFile(s, f, s.files[f].(size := size));
    forall r ensures Names(t, r) == Names(s, r) && NamedOk(t, r) && WithinOk(t, r) {
      assert NamedOk(s, r) && WithinOk(s, r);
    }
    forall r, q ensures Unshared(t, r, q) { assert Unshared(s, r, q); }
  }

  /** Data blocks hold no pointers: their contents are free to change. */
  lemma SetDataOwned(s: Fs, f: nat, n: nat, c: Bytes)
    requires Owned(s) && s.Ptr(f, n) != 0 && |c| == BLKSIZE
    ensures Owned(SetDisk(s, s.Ptr(f, n), c)) && SameNames(s, SetDisk(s, s.Ptr(f, n), c))
  {
    var t := SetDisk(s, s.Ptr(f, n), c);
    assert NamedOk(s, Data(f, n));
    forall r ensures Names(t, r) == Names(s, r) && NamedOk(t, r) {
      assert NamedOk(s, r) && Unshared(s, Data(f, n), Index(r.f));
    }
    forall r, q ensures Unshared(t, r, q) { assert Unshared(s, r, q); }
  }

  // ---------------------------------------------------- what operations keep

  /** Block `n` of file `g`, if present in `s`, is the same block with the same bytes in `t`. */
  predicate KeptAt(s: Fs, t: Fs, g: nat, n: nat) {
    s.Ptr(g, n) != 0 ==> t.Ptr(g, n) == s.Ptr(g, n) && t.Disk(s.Ptr(g, n)) == s.Disk(s.Ptr(g, n))
  }

  predicate GrownAt(s: Fs, t: Fs, f: nat, g: nat, n: nat) {
    KeptAt(s, t, g, n) && (g != f ==> t.Ptr(g, n) == s.Ptr(g, n))
  }

  /** Only file `f` may have gained blocks, nothing was lost, and every size is as before. */
  ghost predicate Grown(s: Fs, t: Fs, f: nat) {
    && Owned(t) && |t.files| == |s.files| && t.nblocks == s.nblocks
    && (forall g: nat :: t.Size(g) == s.Size(g))
    && (forall g: nat, n: nat :: GrownAt(s, t, f, g, n))
  }

  lemma GrownSelf(s: Fs, f: nat)
    requires Owned(s)
    ensures Grown(s, s, f)
  {
  }

  lemma GrownTrans(s: Fs, t: Fs, u: Fs, f: nat)
    requires Grown(s, t, f) && Grown(t, u, f)
    ensures Grown(s, u, f)
  {
    forall g: nat, n: nat ensures GrownAt(s, u, f, g, n) {
      assert GrownAt(s, t, f, g, n) && GrownAt(t, u, f, g, n);
    }
  }

  /** What could be read before can still be read, with the same value. */
  lemma GrownByte(s: Fs, t: Fs, f: nat, g: nat, x: nat)
    requires Owned(s) && Grown(s, t, f) && ByteAt(s, g, x).Some?
    ensures ByteAt(t, g, x) == ByteAt(s, g, x)
  {
    assert GrownAt(s, t, f, g, x / BLKSIZE);
  }

  lemma TakeGrown(s: Fs, f: nat, b: nat)
    requires Owned(s) && s.IsFree(b) && b != 0
    ensures Grown(s, SetFree(s, b, false), f)
  {
    var t := SetFree(s, b, false);
    TakeOwned(s, b);
    forall g: nat, n: nat ensures GrownAt(s, t, f, g, n) {
      assert Names(t, Data(g, n)) == Names(s, Data(g, n));
    }
  }

  lemma WithIndirectGrown(s: Fs, f: nat, b: nat)
    requires Owned(s) && f < |s.files| && s.Indirect(f) == 0
    requires 3 <= b < s.nblocks && !s.IsFree(b) && forall r :: Names(s, r) != b
    ensures Grown(s, WithIndirect(s, f, b), f)
  {
    var t := WithIndirect(s, f, b);
    WithIndirectOwned(s, f, b);
    forall g: nat, n: nat ensures GrownAt(s, t, f, g, n) {
      WithIndirectPtr(s, f, b, g, n);
      assert Names(s, Data(g, n)) != b;
    }
  }

  lemma FillSlotGrown(s: Fs, f: nat, n: nat, b: nat)
    requires Owned(s) && HasSlot(s, f, n) && s.Ptr(f, n) == 0
    requires 3 <= b < s.nblocks && !s.IsFree(b) && forall r :: Names(s, r) != b
    ensures Grown(s, SetSlot(s, f, n, b), f)
  {
    var t := SetSlot(s, f, n, b);
    FillSlotOwned(s, f, n, b);
    SetSlotDisk(s, f, n, b, 0);
    forall g: nat, m: nat ensures GrownAt(s, t, f, g, m) {
      assert Names(t, Data(g, m)) == if g == f && m == n then b else Names(s, Data(g, m));
      SetSlotDisk(s, f, n, b, s.Ptr(g, m));
      assert Unshared(s, Data(g, m), Index(f));
    }
  }

  /** Freeing one block changes that pointer only. */
  lemma EmptySlotPtr(s: Fs, f: nat, n: nat, g: nat, m: nat)
    requires Owned(s) && HasSlot(s, f, n) && s.Ptr(f, n) != 0
    ensures var t := SetSlot(SetFree(s, s.Ptr(f, n), true), f, n, 0);
      && t.Ptr(g, m) == (if g == f && m == n then 0 else s.Ptr(g, m))
      && t.Indirect(g) == s.Indirect(g) && t.Size(g) == s.Size(g)
  {
    var b := s.Ptr(f, n);
    assert SetSlot(SetFree(s, b, true), f, n, 0) == SetFree(SetSlot(s, f, n, 0), b, true);
    SetSlotPtr(s, f, n, 0, g, m);
  }

  // -------------------------------------------------------------- byte ranges

  /** `data` replaces the bytes of block `c` from offset `lo` on. */
  function Splice(c: Bytes, lo: nat, data: Bytes): (r: Bytes)
    requires lo + |data| <= |c|
    ensures |r| == |c|
    ensures forall i :: 0 <= i < |c| ==> r[i] == if lo <= i < lo + |data| then data[i - lo] else c[i]
  {
    c[..lo] + data + c[lo + |data|..]
  }

  /** Writing part of one block changes exactly those bytes of the file, and no other file. */
  lemma SpliceByte(s: Fs, f: nat, pos: nat, data: Bytes, g: nat, x: nat)
    requires Owned(s) && s.Ptr(f, pos / BLKSIZE) != 0 && pos % BLKSIZE + |data| <= BLKSIZE && pos + |data| <= s.Size(f)
    ensures |s.Disk(s.Ptr(f, pos / BLKSIZE))| == BLKSIZE
    ensures var b := s.Ptr(f, pos / BLKSIZE);
      ByteAt(SetDisk(s, b, Splice(s.Disk(b), pos % BLKSIZE, data)), g, x)
        == if g == f && pos <= x < pos + |data| then Some(data[x - pos]) else ByteAt(s, g, x)
  {
    var n := pos / BLKSIZE;
    var b := s.Ptr(f, n);
    assert NamedOk(s, Data(f, n));
    var c := Splice(s.Disk(b), pos % BLKSIZE, data);
    SetDataOwned(s, f, n, c);
    var t := SetDisk(s, b, c);
    assert Names(t, Data(g, x / BLKSIZE)) == Names(s, Data(g, x / BLKSIZE));
    assert Unshared(s, Data(f, n), Data(g, x / BLKSIZE));
    if g == f && x / BLKSIZE == n {
      assert x % BLKSIZE - pos % BLKSIZE == x - pos;
    }
  }

  /** `data` is what file `f` holds at `offset`; whatever else could be read is unchanged. */
  ghost predicate Wrote(s: Fs, t: Fs, f: nat, offset: nat, data: Bytes) {
    && Owned(t) && |t.files| == |s.files| && t.nblocks == s.nblocks
    && (forall i: nat :: HoldsAt(t, f, offset, data, i))
    && (forall g: nat, x: nat :: UntouchedAt(s, t, f, offset, |data|, g, x))
  }

  predicate HoldsAt(t: Fs, f: nat, offset: nat, data: Bytes, i: nat) {
    i < |data| ==> ByteAt(t, f, offset + i) == Some(data[i])
  }

  predicate UntouchedAt(s: Fs, t: Fs, f: nat, lo: nat, n: nat, g: nat, x: nat) {
    ByteAt(s, g, x).Some? && !(g == f && lo <= x < lo + n) ==> ByteAt(t, g, x) == ByteAt(s, g, x)
  }

  /** One pass of the loop in `file_write`: get the block, then copy into it. */
  lemma WroteMore(s: Fs, t: Fs, u: Fs, f: nat, offset: nat, data: Bytes, more: Bytes, pos: nat)
    requires Owned(t) && Wrote(s, t, f, offset, data) && Grown(t, u, f)
    requires pos == offset + |data| && u.Ptr(f, pos / BLKSIZE) != 0
    requires pos % BLKSIZE + |more| <= BLKSIZE && pos + |more| <= u.Size(f)
    requires |u.Disk(u.Ptr(f, pos / BLKSIZE))| == BLKSIZE
    ensures Wrote(s, Filled(u, f, pos, more), f, offset, data + more)
  {
    var v := Filled(u, f, pos, more);
    FilledOwned(u, f, pos, more);
    var all := data + more;
    forall i: nat ensures HoldsAt(v, f, offset, all, i) {
      if i < |all| { WroteData(t, u, f, offset, data, more, pos, i, offset + i); }
    }
    forall g: nat, x: nat ensures UntouchedAt(s, v, f, offset, |all|, g, x) {
      WroteRest(s, t, u, f, offset, data, more, pos, g, x);
    }
  }

  /** The same with the buffer cut where the pass begins and ends. */
  lemma WroteChunk(s: Fs, t: Fs, u: Fs, f: nat, offset: nat, buf: Bytes, pos: nat, next: nat)
    requires offset <= pos <= next <= offset + |buf| && Wrote(s, t, f, offset, buf[..pos - offset]) && Grown(t, u, f)
    requires u.Ptr(f, pos / BLKSIZE) != 0 && |u.Disk(u.Ptr(f, pos / BLKSIZE))| == BLKSIZE
    requires pos % BLKSIZE + (next - pos) <= BLKSIZE && next <= u.Size(f)
    ensures Wrote(s, Filled(u, f, pos, buf[pos - offset..next - offset]), f, offset, buf[..next - offset])
  {
    var more := buf[pos - offset..next - offset];
    WroteMore(s, t, u, f, offset, buf[..pos - offset], more, pos);
    assert buf[..pos - offset] + more == buf[..next - offset];
  }

  /** `more` copied into the block that holds position `pos` of file `f`. */
  function Filled(u: Fs, f: nat, pos: nat, more: Bytes): Fs {
    var b := u.Ptr(f, pos / BLKSIZE);
    if pos % BLKSIZE + |more| <= |u.Disk(b)| then SetDisk(u, b, Splice(u.Disk(b), pos % BLKSIZE, more)) else u
  }

  lemma FilledOwned(u: Fs, f: nat, pos: nat, more: Bytes)
    requires Owned(u) && u.Ptr(f, pos / BLKSIZE) != 0
    ensures Owned(Filled(u, f, pos, more)) && SameNames(u, Filled(u, f, pos, more))
    ensures forall g: nat :: Filled(u, f, pos, more).Size(g) == u.Size(g)
  {
    var b := u.Ptr(f, pos / BLKSIZE);
    if pos % BLKSIZE + |more| <= |u.Disk(b)| {
      assert NamedOk(u, Data(f, pos / BLKSIZE));
      SetDataOwned(u, f, pos / BLKSIZE, Splice(u.Disk(b), pos % BLKSIZE, more));
    }
  }

  lemma WroteData(t: Fs, u: Fs, f: nat, offset: nat, data: Bytes, more: Bytes, pos: nat, i: nat, x: nat)
    requires Owned(t) && HoldsAt(t, f, offset, data, i) && Grown(t, u, f)
    requires pos == offset + |data| && u.Ptr(f, pos / BLKSIZE) != 0
    requires pos % BLKSIZE + |more| <= BLKSIZE && pos + |more| <= u.Size(f)
    requires |u.Disk(u.Ptr(f, pos / BLKSIZE))| == BLKSIZE
    requires i < |data + more| && x == offset + i
    ensures ByteAt(Filled(u, f, pos, more), f, x) == Some((data + more)[i])
  {
    SpliceByte(u, f, pos, more, f, x);
    if i < |data| { GrownByte(t, u, f, f, x); }
  }

  lemma WroteRest(s: Fs, t: Fs, u: Fs, f: nat, offset: nat, data: Bytes, more: Bytes, pos: nat, g: nat, x: nat)
    requires Owned(t) && Wrote(s, t, f, offset, data) && Grown(t, u, f)
    requires pos == offset + |data| && u.Ptr(f, pos / BLKSIZE) != 0
    requires pos % BLKSIZE + |more| <= BLKSIZE && pos + |more| <= u.Size(f)
    requires |u.Disk(u.Ptr(f, pos / BLKSIZE))| == BLKSIZE
    ensures UntouchedAt(s, Filled(u, f, pos, more), f, offset, |data + more|, g, x)
  {
    assert UntouchedAt(s, t, f, offset, |data|, g, x);
    SpliceByte(u, f, pos, more, g, x);
    if ByteAt(t, g, x).Some? { GrownByte(t, u, f, g, x); }
  }

  // -------------------------------------------------------------- truncation

  /** Block pointers lo..hi of file `f` are empty, all others as before. */
  predicate CutRef(s: Fs, t: Fs, f: nat, lo: nat, hi: nat, r: Ref) {
    Names(t, r) == if r.f == f && r.Data? && lo <= r.n < hi then 0 else Names(s, r)
  }

  ghost predicate FreedBetween(s: Fs, f: nat, lo: nat, hi: nat, b: nat) {
    b != 0 && exists n :: lo <= n < hi && s.Ptr(f, n) == b
  }

  ghost predicate CutBit(s: Fs, t: Fs, f: nat, lo: nat, hi: nat, b: nat) {
    b < s.nblocks ==> (t.IsFree(b) <==> s.IsFree(b) || FreedBetween(s, f, lo, hi, b))
  }

  /** Blocks lo..hi of file `f` are gone, and that is all. */
  ghost predicate Cut(s: Fs, t: Fs, f: nat, lo: nat, hi: nat) {
    && Inv(t) && |t.files| == |s.files| && t.nblocks == s.nblocks
    && (forall g: nat :: t.Size(g) == s.Size(g))
    && (forall r :: CutRef(s, t, f, lo, hi, r))
    && (forall b: nat :: CutBit(s, t, f, lo, hi, b))
    && (forall g: nat, n: nat :: t.Ptr(g, n) != 0 ==> t.Disk(t.Ptr(g, n)) == s.Disk(t.Ptr(g, n)))
  }

  lemma CutNone(s: Fs, f: nat, lo: nat)
    requires Inv(s)
    ensures Cut(s, s, f, lo, lo)
  {
  }

  /** Nothing was there: one more block counts as cut. */
  lemma CutSkip(s: Fs, t: Fs, f: nat, lo: nat, hi: nat)
    requires Cut(s, t, f, lo, hi) && lo <= hi && t.Ptr(f, hi) == 0
    ensures Cut(s, t, f, lo, hi + 1)
  {
    assert CutRef(s, t, f, lo, hi, Data(f, hi));
    assert s.Ptr(f, hi) == 0;
    var h := hi + 1;
    forall r ensures CutRef(s, t, f, lo, h, r) { assert CutRef(s, t, f, lo, hi, r); }
    forall b: nat ensures CutBit(s, t, f, lo, h, b) {
      assert CutBit(s, t, f, lo, hi, b);
      if FreedBetween(s, f, lo, h, b) {
        var n :| lo <= n < h && s.Ptr(f, n) == b;
        assert n < hi;
      }
    }
  }

  lemma CutOne(s: Fs, t: Fs, f: nat, lo: nat, hi: nat)
    requires Inv(s) && Cut(s, t, f, lo, hi) && lo <= hi && HasSlot(t, f, hi) && t.Ptr(f, hi) != 0
    ensures Cut(s, SetSlot(SetFree(t, t.Ptr(f, hi), true), f, hi, 0), f, lo, hi + 1)
  {
    var b := t.Ptr(f, hi);
    var u := SetSlot(SetFree(t, b, true), f, hi, 0);
    EmptySlotInv(t, f, hi);
    assert CutRef(s, t, f, lo, hi, Data(f, hi)) && NamedOk(t, Data(f, hi));
    assert s.Ptr(f, hi) == b;
    SetSlotDisk(SetFree(t, b, true), f, hi, 0, 0);
    forall g: nat ensures u.Size(g) == s.Size(g) { EmptySlotPtr(t, f, hi, g, 0); }
    var h := hi + 1;
    forall r ensures CutRef(s, u, f, lo, h, r) { CutOneRef(s, t, f, lo, hi, r); }
    forall x: nat ensures CutBit(s, u, f, lo, h, x) { CutOneBit(s, t, f, lo, hi, x); }
    forall g: nat, n: nat | u.Ptr(g, n) != 0 ensures u.Disk(u.Ptr(g, n)) == s.Disk(u.Ptr(g, n)) {
      EmptySlotPtr(t, f, hi, g, n);
      assert Unshared(t, Data(g, n), Index(f));
      SetSlotDisk(SetFree(t, b, true), f, hi, 0, u.Ptr(g, n));
    }
  }

  lemma CutOneRef(s: Fs, t: Fs, f: nat, lo: nat, hi: nat, r: Ref)
    requires Cut(s, t, f, lo, hi) && lo <= hi && HasSlot(t, f, hi) && t.Ptr(f, hi) != 0
    ensures CutRef(s, SetSlot(SetFree(t, t.Ptr(f, hi), true), f, hi, 0), f, lo, hi + 1, r)
  {
    assert CutRef(s, t, f, lo, hi, r);
    if r.Data? { EmptySlotPtr(t, f, hi, r.f, r.n); } else { EmptySlotPtr(t, f, hi, r.f, 0); }
  }

  lemma CutOneBit(s: Fs, t: Fs, f: nat, lo: nat, hi: nat, x: nat)
    requires Cut(s, t, f, lo, hi) && lo <= hi && t.Shape()
    requires s.Ptr(f, hi) == t.Ptr(f, hi) && 0 < t.Ptr(f, hi) < t.nblocks
    ensures CutBit(s, SetSlot(SetFree(t, t.Ptr(f, hi), true), f, hi, 0), f, lo, hi + 1, x)
  {
    var b := t.Ptr(f, hi);
    SetSlotDisk(SetFree(t, b, true), f, hi, 0, 0);
    assert CutBit(s, t, f, lo, hi, x);
    if FreedBetween(s, f, lo, hi + 1, x) && x != b {
      var n :| lo <= n < hi + 1 && s.Ptr(f, n) == x;
      assert n < hi;
    }
  }

  /** The places of file `f` beyond its first `k` blocks; the indirect block goes too
      when only direct blocks remain. */
  predicate Beyond(f: nat, k: nat, r: Ref) {
    r.f == f && match r case Data(_, n) => n >= k case Index(_) => k <= NDIRECT
  }

  predicate TruncRef(s: Fs, t: Fs, f: nat, k: nat, r: Ref) {
    Names(t, r) == if Beyond(f, k, r) then 0 else Names(s, r)
  }

  /** Every place beyond the first `k` blocks of a file that names a block. */
  ghost function Dropped(s: Fs, f: nat, k: nat): set<Ref> {
    (set n | k <= n < MAXBLOCKS && s.Ptr(f, n) != 0 :: Data(f, n))
    + (if k <= NDIRECT && s.Indirect(f) != 0 then {Index(f)} else {})
  }

  ghost function BlocksOf(s: Fs, rs: set<Ref>): set<nat> {
    set r | r in rs :: Names(s, r)
  }

  ghost function FreeSet(s: Fs): set<nat> {
    set b | 0 <= b < |s.free| && s.free[b]
  }

  /** File `f` keeps its first `k` blocks; the blocks of the rest are free again. */
  ghost predicate Truncated(s: Fs, t: Fs, f: nat, k: nat) {
    && Inv(t) && |t.files| == |s.files| && t.nblocks == s.nblocks
    && (forall r :: TruncRef(s, t, f, k, r))
    && FreeSet(t) == FreeSet(s) + BlocksOf(s, Dropped(s, f, k))
    && (forall g: nat, n: nat :: t.Ptr(g, n) != 0 ==> t.Disk(t.Ptr(g, n)) == s.Disk(t.Ptr(g, n)))
  }

  /** Distinct places name distinct blocks, so they are as many. */
  lemma {:induction false} BlocksOfSize(s: Fs, rs: set<Ref>)
    requires Owned(s) && forall r :: r in rs ==> Names(s, r) != 0
    ensures |BlocksOf(s, rs)| == |rs|
    decreases |rs|
  {
    if rs != {} {
      var r :| r in rs;
      BlocksOfSize(s, rs - {r});
      assert Names(s, r) !in BlocksOf(s, rs - {r}) by {
        forall q | q in rs - {r} ensures Names(s, q) != Names(s, r) { assert Unshared(s, r, q); }
      }
      assert BlocksOf(s, rs) == BlocksOf(s, rs - {r}) + {Names(s, r)};
    } else {
      assert BlocksOf(s, rs) == {};
    }
  }

  /** Truncation raises the number of free blocks by exactly the number of pointers it drops. */
  lemma TruncatedCount(s: Fs, t: Fs, f: nat, k: nat)
    requires Inv(s) && Truncated(s, t, f, k)
    ensures |FreeSet(t)| == |FreeSet(s)| + |Dropped(s, f, k)|
  {
    var d := Dropped(s, f, k);
    forall r | r in d ensures Names(s, r) != 0 { }
    BlocksOfSize(s, d);
    forall b | b in BlocksOf(s, d) ensures b !in FreeSet(s) {
      var r :| r in d && Names(s, r) == b;
      assert NamedOk(s, r);
    }
  }

  /** The loop of `file_truncate_blocks` reached the old end of the file. */
  lemma CutIsTruncation(s: Fs, t: Fs, f: nat, k: nat)
    requires Inv(s) && f < |s.files| && Cut(s, t, f, k, if k <= Blocks(s.Size(f)) then Blocks(s.Size(f)) else k)
    requires k > NDIRECT || s.Indirect(f) == 0
    ensures Truncated(s, t, f, k)
  {
    var hi := if k <= Blocks(s.Size(f)) then Blocks(s.Size(f)) else k;
    forall r ensures TruncRef(s, t, f, k, r) { assert CutRef(s, t, f, k, hi, r) && WithinOk(s, r); }
    forall n: nat | n >= hi ensures s.Ptr(f, n) == 0 { assert WithinOk(s, Data(f, n)); }
    CutFree(s, t, f, k, hi);
  }

  lemma CutFree(s: Fs, t: Fs, f: nat, k: nat, hi: nat)
    requires Inv(s) && Cut(s, t, f, k, hi) && (forall n: nat :: n >= hi ==> s.Ptr(f, n) == 0)
    requires k > NDIRECT || s.Indirect(f) == 0
    ensures FreeSet(t) == FreeSet(s) + BlocksOf(s, Dropped(s, f, k))
  {
    forall b: nat | b < s.nblocks ensures b in FreeSet(t) <==> b in FreeSet(s) + BlocksOf(s, Dropped(s, f, k)) {
      assert CutBit(s, t, f, k, hi, b);
      if FreedBetween(s, f, k, hi, b) {
        var n :| k <= n < hi && s.Ptr(f, n) == b;
        assert Data(f, n) in Dropped(s, f, k) && Names(s, Data(f, n)) == b;
      }
      if b in BlocksOf(s, Dropped(s, f, k)) {
        var r :| r in Dropped(s, f, k) && Names(s, r) == b;
        assert s.Ptr(f, r.n) == b && r.n < hi;
      }
    }
    forall r | r in Dropped(s, f, k) ensures Names(s, r) < s.nblocks { assert NamedOk(s, r); }
  }

  /** Dropping the indirect block after its last pointer. */
  lemma DropIndexIsTruncation(s: Fs, t: Fs, f: nat, k: nat)
    requires Inv(s) && f < |s.files| && k <= NDIRECT && s.Indirect(f) != 0
    requires Cut(s, t, f, k, Blocks(s.Size(f))) && k <= Blocks(s.Size(f))
    ensures Truncated(s, WithoutIndirect(t, f), f, k)
  {
    var hi := Blocks(s.Size(f));
    assert CutRef(s, t, f, k, hi, Index(f)) && WithinOk(s, Index(f));
    forall n: nat | n >= NDIRECT ensures t.Ptr(f, n) == 0 {
      assert CutRef(s, t, f, k, hi, Data(f, n)) && WithinOk(s, Data(f, n));
    }
    WithoutIndirectInv(t, f);
    var u := WithoutIndirect(t, f);
    forall r ensures TruncRef(s, u, f, k, r) { assert CutRef(s, t, f, k, hi, r) && WithinOk(s, r); }
    DropIndexFree(s, t, f, k);
  }

  lemma DropIndexFree(s: Fs, t: Fs, f: nat, k: nat)
    requires Inv(s) && Inv(t) && f < |s.files| && k <= NDIRECT && s.Indirect(f) == t.Indirect(f) != 0
    requires Cut(s, t, f, k, Blocks(s.Size(f)))
    ensures FreeSet(WithoutIndirect(t, f)) == FreeSet(s) + BlocksOf(s, Dropped(s, f, k))
  {
    var hi := Blocks(s.Size(f));
    var u := WithoutIndirect(t, f);
    assert NamedOk(t, Index(f));
    forall b: nat | b < s.nblocks ensures b in FreeSet(u) <==> b in FreeSet(s) + BlocksOf(s, Dropped(s, f, k)) {
      assert CutBit(s, t, f, k, hi, b);
      if FreedBetween(s, f, k, hi, b) {
        var n :| k <= n < hi && s.Ptr(f, n) == b;
        assert Data(f, n) in Dropped(s, f, k) && Names(s, Data(f, n)) == b;
      }
      assert Index(f) in Dropped(s, f, k);
      if b in BlocksOf(s, Dropped(s, f, k)) && b != s.Indirect(f) {
        var r :| r in Dropped(s, f, k) && Names(s, r) == b;
        assert WithinOk(s, r) && s.Ptr(f, r.n) == b && r.n < hi;
      }
    }
    forall r | r in Dropped(s, f, k) ensures Names(s, r) < s.nblocks { assert NamedOk(s, r); }
  }

  /** `file_set_size` after the blocks are dropped. */
  lemma ResizeTruncated(s: Fs, t: Fs, f: nat, size: nat)
    requires Inv(s) && f < |s.files| && Truncated(s, t, f, Blocks(size))
    ensures f < |t.files| && Truncated(s, SetFile(t, f, t.files[f].(size := size)), f, Blocks(size))
  {
    var u := SetFile(t, f, t.files[f].(size := size));
    forall n: nat | n >= Blocks(size) ensures t.Ptr(f, n) == 0 { assert TruncRef(s, t, f, Blocks(size), Data(f, n)); }
    assert TruncRef(s, t, f, Blocks(size), Index(f));
    SetSizeInv(t, f, size);
    forall r ensures TruncRef(s, u, f, Blocks(size), r) { assert TruncRef(s, t, f, Blocks(size), r); }
    forall g: nat, n: nat | u.Ptr(g, n) != 0 ensures u.Disk(u.Ptr(g, n)) == s.Disk(u.Ptr(g, n)) {
      assert Names(u, Data(g, n)) == Names(t, Data(g, n));
    }
  }

  /** Bytes below the new size, and all bytes of other files, survive truncation. */
  lemma TruncatedByte(s: Fs, t: Fs, f: nat, g: nat, x: nat)
    requires Inv(s) && Truncated(s, t, f, Blocks(t.Size(f))) && (forall h: nat :: h != f ==> t.Size(h) == s.Size(h))
    requires ByteAt(s, g, x).Some? && (g == f ==> x < t.Size(f))
    ensures ByteAt(t, g, x) == ByteAt(s, g, x)
  {
    assert TruncRef(s, t, f, Blocks(t.Size(f)), Data(g, x / BLKSIZE));
  }

  /** Extending a file changes no byte that could be read. */
  lemma ExtendWrote(s: Fs, f: nat, size: nat, offset: nat)
    requires Inv(s) && f < |s.files| && size >= s.Size(f)
    ensures Wrote(s, SetFile(s, f, s.files[f].(size := size)), f, offset, [])
    ensures SameNames(s, SetFile(s, f, s.files[f].(size := size))) && Inv(SetFile(s, f, s.files[f].(size := size)))
  {
    var t := SetFile(s, f, s.files[f].(size := size));
    forall n: nat | n >= Blocks(size) ensures s.Ptr(f, n) == 0 { assert WithinOk(s, Data(f, n)); }
    assert WithinOk(s, Index(f));
    SetSizeInv(s, f, size);
    forall g: nat, x: nat ensures UntouchedAt(s, t, f, offset, 0, g, x) {
      assert Names(t, Data(g, x / BLKSIZE)) == Names(s, Data(g, x / BLKSIZE));
    }
  }

  /** How much of `left` bytes goes to the block that holds `pos`. */
  function ChunkLen(pos: nat, left: nat): (n: nat)
    requires left > 0
    ensures 0 < n <= left && pos % BLKSIZE + n <= BLKSIZE
  {
    if BLKSIZE - pos % BLKSIZE <= left then BLKSIZE - pos % BLKSIZE else left
  }

  /** A chunk stays in one block, and ends it unless it is the last. */
  lemma ChunkSpan(pos: nat, left: nat)
    requires left > 0
    ensures var next := pos + ChunkLen(pos, left);
      pos / BLKSIZE == (next - 1) / BLKSIZE && (next < pos + left ==> next % BLKSIZE == 0)
  {
  }

  ghost predicate SameSizes(s: Fs, t: Fs) {
    forall g: nat :: t.Size(g) == s.Size(g)
  }

  /** A write extends the file to where it ends. */
  function SizeAfter(size: nat, end: nat): nat {
    if end > size then end else size
  }

  function ReadLen(size: nat, count: nat, offset: nat): nat {
    if offset >= size then 0 else if count <= size - offset then count else size - offset
  }

  predicate ReadsOld(s: Fs, f: nat, x: nat, v: byte) {
    ByteAt(s, f, x).Some? ==> ByteAt(s, f, x) == Some(v)
  }

  ghost predicate HasRead(t: Fs, f: nat, offset: nat, buf: Bytes) {
    forall i :: 0 <= i < |buf| ==> ByteAt(t, f, offset + i) == Some(buf[i])
  }

  /** The bytes from `offset` to `limit` are all backed by blocks. */
  ghost predicate Backed(s: Fs, f: nat, offset: nat, limit: nat) {
    forall x: nat :: BackedAt(s, f, offset, limit, x)
  }

  predicate BackedAt(s: Fs, f: nat, offset: nat, limit: nat, x: nat) {
    offset <= x < limit ==> ByteAt(s, f, x).Some?
  }

  lemma ReadsOldAll(s: Fs, t: Fs, f: nat, offset: nat, buf: Bytes)
    requires Owned(s) && Grown(s, t, f) && HasRead(t, f, offset, buf)
    ensures forall i :: 0 <= i < |buf| ==> ReadsOld(s, f, offset + i, buf[i])
  {
    forall i | 0 <= i < |buf| ensures ReadsOld(s, f, offset + i, buf[i]) {
      assert ByteAt(t, f, offset + i) == Some(buf[i]);
      if ByteAt(s, f, offset + i).Some? { GrownByte(s, t, f, f, offset + i); }
    }
  }

  /** One pass of the loop in `file_read`. */
  lemma HasReadMore(t: Fs, u: Fs, f: nat, offset: nat, buf: Bytes, bn: nat)
    requires Owned(t) && Grown(t, u, f) && HasRead(t, f, offset, buf)
    requires var pos := offset + |buf|;
      u.Ptr(f, pos / BLKSIZE) != 0 && pos % BLKSIZE + bn <= BLKSIZE && pos + bn <= u.Size(f)
    ensures var pos := offset + |buf|; var c := u.Disk(u.Ptr(f, pos / BLKSIZE));
      |c| == BLKSIZE && HasRead(u, f, offset, buf + c[pos % BLKSIZE..pos % BLKSIZE + bn])
  {
    var pos := offset + |buf|;
    assert NamedOk(u, Data(f, pos / BLKSIZE));
    var c := u.Disk(u.Ptr(f, pos / BLKSIZE));
    var all := buf + c[pos % BLKSIZE..pos % BLKSIZE + bn];
    forall i | 0 <= i < |all| ensures ByteAt(u, f, offset + i) == Some(all[i]) {
      if i < |buf| {
        assert ByteAt(t, f, offset + i) == Some(buf[i]);
        GrownByte(t, u, f, f, offset + i);
      } else {
        assert (offset + i) / BLKSIZE == pos / BLKSIZE && (offset + i) % BLKSIZE == pos % BLKSIZE + (i - |buf|);
      }
    }
  }

  lemma WroteGrown(s: Fs, t: Fs, u: Fs, f: nat, offset: nat, data: Bytes)
    requires Owned(t) && Wrote(s, t, f, offset, data) && Grown(t, u, f)
    ensures Wrote(s, u, f, offset, data)
  {
    forall i: nat ensures HoldsAt(u, f, offset, data, i) {
      assert HoldsAt(t, f, offset, data, i);
      if i < |data| { GrownByte(t, u, f, f, offset + i); }
    }
    forall g: nat, x: nat ensures UntouchedAt(s, u, f, offset, |data|, g, x) {
      assert UntouchedAt(s, t, f, offset, |data|, g, x);
      if ByteAt(t, g, x).Some? { GrownByte(t, u, f, g, x); }
    }
  }

  // ------------------------------------------------------- what a block costs

  /** The block `alloc_block` takes when its search starts at `i`; the disk's size if none is free. */
  function LowestFree(free: seq<bool>, i: nat): (b: nat)
    ensures b <= |free| && (b < |free| ==> i <= b && free[b])
    ensures forall k :: i <= k < b ==> !free[k]
    decreases |free| - i
  {
    if i >= |free| then |free| else if free[i] then i else LowestFree(free, i + 1)
  }

  /** How many blocks `alloc_block` can still give out. */
  ghost function Room(free: seq<bool>): nat {
    |RoomSet(free)|
  }

  ghost function RoomSet(free: seq<bool>): set<nat> {
    set b | 3 <= b < |free| && free[b]
  }

  lemma TakeRoom(free: seq<bool>)
    ensures var b := LowestFree(free, 3); b == |free| <==> Room(free) == 0
    ensures var b := LowestFree(free, 3); b < |free| ==>
      Room(free[b := false]) == Room(free) - 1 && LowestFree(free[b := false], 3) == LowestFree(free, b + 1)
  {
    var b := LowestFree(free, 3);
    if b < |free| {
      assert b in RoomSet(free);
      assert RoomSet(free[b := false]) == RoomSet(free) - {b};
      SkipTo(free[b := false], 3, b + 1);
      SameFrom(free, b, b + 1);
    } else {
      assert RoomSet(free) == {};
    }
  }

  lemma {:induction false} SkipTo(free: seq<bool>, i: nat, j: nat)
    requires i <= j <= |free| && forall k :: i <= k < j ==> !free[k]
    ensures LowestFree(free, i) == LowestFree(free, j)
    decreases j - i
  {
    if i < j { SkipTo(free, i + 1, j); }
  }

  lemma {:induction false} SameFrom(free: seq<bool>, b: nat, i: nat)
    requires b < |free| && b < i
    ensures LowestFree(free[b := false], i) == LowestFree(free, i)
    decreases |free| - i
  {
    if i < |free| { SameFrom(free, b, i + 1); }
  }

  /** File `f` with a new indirect block. */
  function Indexed(s: Fs, f: nat): Fs {
    var b := LowestFree(s.free, 3);
    WithIndirect(SetFree(s, b, false), f, b)
  }

  /** Block `n` of file `f` filled with a new block. */
  function Filling(s: Fs, f: nat, n: nat): Fs {
    var b := LowestFree(s.free, 3);
    SetSlot(SetFree(s, b, false), f, n, b)
  }

  lemma IndexedIs(s: Fs, f: nat)
    requires Owned(s) && f < |s.files| && s.Indirect(f) == 0 && LowestFree(s.free, 3) < s.nblocks
    ensures var t := Indexed(s, f); var b := LowestFree(s.free, 3);
      && Grown(s, t, f) && b < |s.free| && t.free == s.free[b := false]
      && (forall r :: Names(t, r) == if r == Index(f) then b else Names(s, r))
  {
    var b := LowestFree(s.free, 3);
    var u := SetFree(s, b, false);
    TakeOwned(s, b);
    TakeGrown(s, f, b);
    WithIndirectOwned(u, f, b);
    WithIndirectGrown(u, f, b);
    GrownTrans(s, u, Indexed(s, f), f);
  }

  lemma FillingIs(s: Fs, f: nat, n: nat)
    requires Owned(s) && HasSlot(s, f, n) && s.Ptr(f, n) == 0 && LowestFree(s.free, 3) < s.nblocks
    ensures var t := Filling(s, f, n); var b := LowestFree(s.free, 3);
      && Grown(s, t, f) && b < |s.free| && t.free == s.free[b := false]
      && (forall r :: Names(t, r) == if r == Data(f, n) then b else Names(s, r))
  {
    var b := LowestFree(s.free, 3);
    var u := SetFree(s, b, false);
    TakeOwned(s, b);
    TakeGrown(s, f, b);
    assert Names(u, Data(f, n)) == Names(s, Data(f, n));
    FillSlotOwned(u, f, n, b);
    FillSlotGrown(u, f, n, b);
    SetSlotDisk(u, f, n, b, 0);
    GrownTrans(s, u, Filling(s, f, n), f);
  }

  /** What `file_block_walk` leaves behind when it may allocate. */
  function Walked(s: Fs, f: nat, n: nat): Fs {
    if HasSlot(s, f, n) || n >= MAXBLOCKS || LowestFree(s.free, 3) >= |s.free| then s else Indexed(s, f)
  }

  /** What `file_get_block` leaves behind when it succeeds. */
  function Got(s: Fs, f: nat, n: nat): Fs {
    if s.Ptr(f, n) != 0 then s else Filling(Walked(s, f, n), f, n)
  }

  /** The block that block `n` of file `f` is, or will be; the disk's size if there is no room. */
  function Given(s: Fs, f: nat, n: nat): nat {
    if s.Ptr(f, n) != 0 then s.Ptr(f, n)
    else if n < NDIRECT || s.Indirect(f) != 0 then LowestFree(s.free, 3)
    else LowestFree(s.free, LowestFree(s.free, 3) + 1)
  }

  /** How many blocks must be allocated to have block `n`. */
  function Cost(s: Fs, f: nat, n: nat): nat {
    (if s.Ptr(f, n) == 0 then 1 else 0) + (if n >= NDIRECT && s.Indirect(f) == 0 then 1 else 0)
  }

  lemma WalkedIs(s: Fs, f: nat, n: nat)
    requires Owned(s) && f < |s.files|
    ensures var t := Walked(s, f, n);
      && Grown(s, t, f)
      && (forall q, m :: t.Ptr(q, m) == s.Ptr(q, m))
      && (s.Indirect(f) != 0 || n < NDIRECT ==> t == s)
      && (n < MAXBLOCKS && Room(s.free) > 0 ==> HasSlot(t, f, n))
      && (n < MAXBLOCKS ==> Room(t.free) == Room(s.free) - if t == s then 0 else 1)
    ensures Within(s) ==> (Within(Walked(s, f, n)) <==> Walked(s, f, n) == s || NDIRECT < Blocks(s.Size(f)))
  {
    var t := Walked(s, f, n);
    GrownSelf(s, f);
    TakeRoom(s.free);
    if t != s {
      IndexedIs(s, f);
      forall q: nat, m: nat ensures t.Ptr(q, m) == s.Ptr(q, m) {
        assert Names(t, Data(q, m)) == Names(s, Data(q, m));
      }
      assert Names(t, Index(f)) == LowestFree(s.free, 3);
      if Within(s) { FillWithin(s, t, Index(f)); }
    }
  }

  /** Everything `file_get_block` does when there is room. */
  lemma GotIs(s: Fs, f: nat, n: nat)
    requires Owned(s) && f < |s.files| && n < MAXBLOCKS && Cost(s, f, n) <= Room(s.free)
    ensures var t := Got(s, f, n);
      && Grown(s, t, f) && HasSlot(Walked(s, f, n), f, n)
      && 0 < t.Ptr(f, n) == Given(s, f, n) < s.nblocks
      && (forall r :: r != Data(f, n) && r != Index(f) ==> Names(t, r) == Names(s, r))
      && Room(t.free) == Room(s.free) - Cost(s, f, n)
      && t.Indirect(f) == (if n < NDIRECT || s.Indirect(f) != 0 then s.Indirect(f) else LowestFree(s.free, 3))
  {
    var w, t := Walked(s, f, n), Got(s, f, n);
    WalkedIs(s, f, n);
    TakeRoom(s.free);
    if s.Ptr(f, n) != 0 {
      assert NamedOk(s, Data(f, n));
    } else {
      if w != s { IndexedIs(s, f); assert Names(w, Index(f)) == LowestFree(s.free, 3); }
      TakeRoom(w.free);
      FillingIs(w, f, n);
      GrownTrans(s, w, t, f);
      assert Names(t, Index(f)) == Names(w, Index(f)) && Names(t, Data(f, n)) == Given(s, f, n);
      forall r | r != Data(f, n) && r != Index(f) ensures Names(t, r) == Names(s, r) {
        assert Names(t, r) == Names(w, r);
      }
    }
  }

  /** Whether there is room, said of the free blocks and of the block given. */
  lemma GetBlockIs(s: Fs, f: nat, n: nat)
    requires Owned(s) && f < |s.files| && HasSlot(Walked(s, f, n), f, n)
    ensures var w := Walked(s, f, n);
      && Grown(s, w, f) && w.Ptr(f, n) == s.Ptr(f, n)
      && Given(w, f, n) == Given(s, f, n) && (Given(s, f, n) < s.nblocks <==> Cost(s, f, n) <= Room(s.free))
      && (Within(s) ==> (Within(w) <==> w == s || NDIRECT < Blocks(s.Size(f))))
    ensures Cost(s, f, n) <= Room(s.free) ==>
      var t := Got(s, f, n);
      && Grown(s, t, f) && 0 < t.Ptr(f, n) == Given(s, f, n) && t.Indirect(f) == Walked(s, f, n).Indirect(f)
      && (Within(s) ==> (Within(t) <==> t == s || n < Blocks(s.Size(f))))
  {
    WalkedIs(s, f, n);
    TakeRoom(s.free);
    var w := Walked(s, f, n);
    if w != s { IndexedIs(s, f); assert Names(w, Index(f)) == LowestFree(s.free, 3); }
    TakeRoom(w.free);
    if s.Ptr(f, n) != 0 { assert NamedOk(s, Data(f, n)); }
    if Cost(s, f, n) <= Room(s.free) {
      GotIs(s, f, n);
      if Within(s) { GotWithin(s, f, n); }
    }
  }

  /** The call keeps pointers within the file exactly when block `n` lies within it or was there already. */
  lemma GotWithin(s: Fs, f: nat, n: nat)
    requires Inv(s) && f < |s.files| && n < MAXBLOCKS && Cost(s, f, n) <= Room(s.free)
    ensures Within(Got(s, f, n)) <==> Got(s, f, n) == s || n < Blocks(s.Size(f))
  {
    var t := Got(s, f, n);
    GotIs(s, f, n);
    if s.Ptr(f, n) == 0 {
      assert Within(t) ==> WithinOk(t, Data(f, n));
      if n < Blocks(s.Size(f)) {
        forall r ensures WithinOk(t, r) { assert WithinOk(s, r); }
      }
    }
  }

  // ------------------------------------------------ blocks and the block cache

  /** Whether the first access to byte `off` of block `b` survives: `bc_pgfault` hands the very
      address it faulted on to `sys_page_map`, which refuses all but page-aligned ones. */
  predicate Reaches(cached: set<nat>, nblocks: nat, isFree: bool, b: nat, off: nat) {
    b in cached || (off == 0 && b < nblocks && !isFree)
  }

  /** Loading the pointer to block `n` of file `f` reaches into an uncached indirect block past its first slot. */
  predicate SlotFaults(s: Fs, c: set<nat>, f: nat, n: nat) {
    NDIRECT < n < MAXBLOCKS && s.Indirect(f) != 0 && s.Indirect(f) !in c
  }

  /** Truncation to `newsize` starts at such a pointer. */
  predicate CutFaults(s: Fs, c: set<nat>, f: nat, newsize: nat) {
    Blocks(newsize) < Blocks(s.Size(f)) && SlotFaults(s, c, f, Blocks(newsize))
  }

  /** A transfer that starts at `pos` kills the server: the slot of its first block faults, or
      the block itself is uncached and first reached past its start. */
  predicate Dies(s: Fs, c: set<nat>, f: nat, pos: nat) {
    var n := pos / BLKSIZE;
    || SlotFaults(s, c, f, n)
    || (n < MAXBLOCKS && pos % BLKSIZE != 0 && Given(s, f, n) < s.nblocks && Given(s, f, n) !in c)
  }

  /** Block `n` of file `f` is there and cached, and so is the indirect block that leads to it. */
  predicate Warm(s: Fs, c: set<nat>, f: nat, n: nat) {
    s.Ptr(f, n) != 0 && s.Ptr(f, n) in c && (n >= NDIRECT ==> s.Indirect(f) in c)
  }

  lemma WarmLives(s: Fs, c: set<nat>, f: nat, pos: nat, next: nat)
    requires Warm(s, c, f, pos / BLKSIZE)
    requires next == pos || (next % BLKSIZE == 0 && next / BLKSIZE == pos / BLKSIZE + 1)
    ensures !Dies(s, c, f, next)
  {
  }

  // --------------------------------------------------- room for a whole transfer

  function Holes(s: Fs, f: nat, lo: nat, hi: nat): nat
    decreases hi - lo
  {
    if lo >= hi then 0 else (if s.Ptr(f, lo) == 0 then 1 else 0) + Holes(s, f, lo + 1, hi)
  }

  /** How many blocks must be allocated to have blocks lo..hi of file `f`. */
  function Need(s: Fs, f: nat, lo: nat, hi: nat): nat {
    if lo >= hi then 0 else Holes(s, f, lo, hi) + if hi > NDIRECT && s.Indirect(f) == 0 then 1 else 0
  }

  lemma {:induction false} HolesSame(s: Fs, t: Fs, f: nat, lo: nat, hi: nat)
    requires forall m: nat :: lo <= m < hi ==> t.Ptr(f, m) == s.Ptr(f, m)
    ensures Holes(t, f, lo, hi) == Holes(s, f, lo, hi)
    decreases hi - lo
  {
    if lo < hi { HolesSame(s, t, f, lo + 1, hi); }
  }

  /** `t` is `s` with block `n` of file `f` there. */
  lemma NeedStep(s: Fs, t: Fs, f: nat, n: nat, hi: nat)
    requires n < hi && forall m: nat :: m != n ==> t.Ptr(f, m) == s.Ptr(f, m)
    requires t.Indirect(f) == 0 <==> n < NDIRECT && s.Indirect(f) == 0
    ensures Need(s, f, n, hi) == Cost(s, f, n) + Need(t, f, n + 1, hi)
  {
    HolesSame(s, t, f, n + 1, hi);
  }

  lemma GotElsewhere(s: Fs, f: nat, n: nat)
    requires Owned(s) && f < |s.files| && n < MAXBLOCKS && Cost(s, f, n) <= Room(s.free)
    ensures forall m: nat :: m != n ==> Got(s, f, n).Ptr(f, m) == s.Ptr(f, m)
  {
    GotIs(s, f, n);
    forall m: nat | m != n ensures Got(s, f, n).Ptr(f, m) == s.Ptr(f, m) {
      assert Names(Got(s, f, n), Data(f, m)) == Names(s, Data(f, m));
    }
  }

  lemma NeedSame(s: Fs, t: Fs, f: nat, lo: nat, hi: nat)
    requires SameNames(s, t)
    ensures Need(t, f, lo, hi) == Need(s, f, lo, hi)
  {
    forall m: nat ensures t.Ptr(f, m) == s.Ptr(f, m) { assert Names(t, Data(f, m)) == Names(s, Data(f, m)); }
    HolesSame(s, t, f, lo, hi);
    assert Names(t, Index(f)) == Names(s, Index(f));
  }

  lemma DiesSame(s: Fs, t: Fs, c: set<nat>, f: nat, pos: nat)
    requires SameNames(s, t)
    ensures Dies(t, c, f, pos) <==> Dies(s, c, f, pos)
  {
    assert Names(t, Data(f, pos / BLKSIZE)) == Names(s, Data(f, pos / BLKSIZE));
    assert Names(t, Index(f)) == Names(s, Index(f));
  }

  /** Blocks left over once the rest of a transfer, from `pos` to `limit`, has its blocks. */
  ghost function Spare(s: Fs, f: nat, pos: nat, limit: nat): int {
    Room(s.free) - if pos < limit then Need(s, f, pos / BLKSIZE, Blocks(limit)) else 0
  }

  predicate StaysWarm(s: Fs, c: set<nat>, t: Fs, d: set<nat>, f: nat, n: nat) {
    Warm(s, c, f, n) ==> Warm(t, d, f, n)
  }

  /** One pass of a transfer loop took position `pos` to `next`. */
  ghost predicate Moved(s: Fs, c: set<nat>, t: Fs, d: set<nat>, f: nat, pos: nat, next: nat, limit: nat) {
    && pos < next <= limit && pos / BLKSIZE == (next - 1) / BLKSIZE < MAXBLOCKS && !Dies(s, c, f, pos)
    && Warm(t, d, f, pos / BLKSIZE) && (forall n: nat :: StaysWarm(s, c, t, d, f, n))
    && (next < limit ==> next % BLKSIZE == 0)
    && Spare(t, f, next, limit) == Spare(s, f, pos, limit)
  }

  /** A transfer that began at `offset` in state `s` with cache `c` has come to `pos`. */
  ghost predicate Under(s: Fs, c: set<nat>, t: Fs, d: set<nat>, f: nat, offset: nat, pos: nat, limit: nat) {
    && offset <= pos <= limit && Spare(t, f, pos, limit) == Spare(s, f, offset, limit)
    && (pos < limit ==> (Dies(t, d, f, pos) <==> pos == offset && Dies(s, c, f, offset)))
    && (pos > offset ==>
          !Dies(s, c, f, offset) && (pos - 1) / BLKSIZE < MAXBLOCKS && Warm(t, d, f, offset / BLKSIZE))
  }

  lemma UnderStep(s: Fs, c: set<nat>, t: Fs, d: set<nat>, u: Fs, e: set<nat>, f: nat, offset: nat, pos: nat,
                  next: nat, limit: nat)
    requires Under(s, c, t, d, f, offset, pos, limit) && Moved(t, d, u, e, f, pos, next, limit)
    ensures Under(s, c, u, e, f, offset, next, limit)
  {
    assert StaysWarm(t, d, u, e, f, offset / BLKSIZE);
    if next < limit {
      assert next / BLKSIZE == pos / BLKSIZE + 1;
      WarmLives(u, e, f, pos, next);
    }
  }

  /** There is a block for every part of a transfer. */
  ghost predicate Fits(s: Fs, f: nat, offset: nat, limit: nat) {
    Blocks(limit) <= MAXBLOCKS && Need(s, f, offset / BLKSIZE, Blocks(limit)) <= Room(s.free)
  }

  /** The two errors a transfer can end in. */
  ghost predicate Explains(e: Error, t: Fs, limit: nat) {
    match e
    case Inval => MAXBLOCKS < Blocks(limit)
    case NoDisk => Room(t.free) == 0
    case NotFound => false
  }

  /** How a transfer ends: in a panic exactly if its first block faults fatally, and otherwise
      in success exactly if it is empty or there are blocks for all of it. */
  ghost predicate Outcome(ok: bool, dead: bool, s: Fs, c: set<nat>, f: nat, offset: nat, limit: nat) {
    && (dead <==> offset < limit && Dies(s, c, f, offset))
    && (ok <==> offset >= limit || (!dead && Fits(s, f, offset, limit)))
  }

  /** A failure on the way is a failure of the whole. */
  lemma UnderFail(dead: bool, s: Fs, c: set<nat>, t: Fs, d: set<nat>, f: nat, offset: nat, pos: nat, limit: nat)
    requires Under(s, c, t, d, f, offset, pos, limit) && pos < limit
    requires (dead <==> Dies(t, d, f, pos)) && (dead || !Fits(t, f, pos, limit))
    ensures Outcome(false, dead, s, c, f, offset, limit)
  {
  }

  /** A transfer that got to its end had room all the way. */
  lemma UnderEnd(s: Fs, c: set<nat>, t: Fs, d: set<nat>, f: nat, offset: nat, limit: nat)
    requires Under(s, c, t, d, f, offset, limit, limit)
    ensures Outcome(true, false, s, c, f, offset, limit)
  {
  }

  /** One pass: block `n` is had, then reached. */
  lemma GotMoved(s: Fs, c: set<nat>, d: set<nat>, f: nat, pos: nat, next: nat, limit: nat)
    requires Owned(s) && f < |s.files| && pos < next <= limit && pos / BLKSIZE == (next - 1) / BLKSIZE < MAXBLOCKS
    requires next < limit ==> next % BLKSIZE == 0
    requires Cost(s, f, pos / BLKSIZE) <= Room(s.free) && c <= d && !Dies(s, c, f, pos)
    requires Warm(Got(s, f, pos / BLKSIZE), d, f, pos / BLKSIZE)
    ensures Moved(s, c, Got(s, f, pos / BLKSIZE), d, f, pos, next, limit)
  {
    var k := pos / BLKSIZE;
    var t := Got(s, f, k);
    GotIs(s, f, k);
    forall n: nat ensures StaysWarm(s, c, t, d, f, n) {
      assert GrownAt(s, t, f, f, n);
    }
    SpareStep(s, f, pos, next, limit);
  }

  lemma SpareStep(s: Fs, f: nat, pos: nat, next: nat, limit: nat)
    requires Owned(s) && f < |s.files| && pos < next <= limit && pos / BLKSIZE == (next - 1) / BLKSIZE < MAXBLOCKS
    requires next < limit ==> next % BLKSIZE == 0
    requires Cost(s, f, pos / BLKSIZE) <= Room(s.free)
    ensures Spare(Got(s, f, pos / BLKSIZE), f, next, limit) == Spare(s, f, pos, limit)
  {
    var k := pos / BLKSIZE;
    GotIs(s, f, k);
    GotElsewhere(s, f, k);
    NeedStep(s, Got(s, f, k), f, k, Blocks(limit));
    if next < limit {
      assert next / BLKSIZE == k + 1;
    } else {
      assert Blocks(limit) == k + 1;
    }
  }

  /** Extending the file before the loop changes no block. */
  lemma UnderStart(s: Fs, t: Fs, c: set<nat>, f: nat, offset: nat, limit: nat)
    requires SameNames(s, t) && offset <= limit
    ensures Under(s, c, t, c, f, offset, offset, limit)
  {
    NeedSame(s, t, f, offset / BLKSIZE, Blocks(limit));
    DiesSame(s, t, c, f, offset);
  }

  /** Nor does copying into a block. */
  lemma FilledUnder(s: Fs, c: set<nat>, t: Fs, d: set<nat>, f: nat, offset: nat, pos: nat, next: nat, limit: nat,
                    more: Bytes)
    requires Inv(t) && t.Ptr(f, pos / BLKSIZE) != 0 && Under(s, c, t, d, f, offset, next, limit)
    ensures var u := Filled(t, f, pos, more); Inv(u) && Under(s, c, u, d, f, offset, next, limit)
    ensures forall g: nat :: Filled(t, f, pos, more).Size(g) == t.Size(g)
  {
    var u := Filled(t, f, pos, more);
    FilledOwned(t, f, pos, more);
    SameWithin(t, u);
    NeedSame(t, u, f, next / BLKSIZE, Blocks(limit));
    DiesSame(t, u, d, f, next);
    assert Names(u, Data(f, offset / BLKSIZE)) == Names(t, Data(f, offset / BLKSIZE));
    assert Names(u, Index(f)) == Names(t, Index(f));
  }

  /** One pass of the loop in `file_write`, once the block is reached. */
  lemma ChunkDone(s: Fs, c: set<nat>, t: Fs, u: Fs, d: set<nat>, f: nat, offset: nat, buf: Bytes, pos: nat, next: nat,
                  limit: nat)
    requires offset <= pos <= next <= limit == offset + |buf| && pos % BLKSIZE + (next - pos) <= BLKSIZE
    requires Wrote(s, t, f, offset, buf[..pos - offset]) && Grown(t, u, f) && Inv(u) && limit <= u.Size(f)
    requires u.Ptr(f, pos / BLKSIZE) != 0 && |u.Disk(u.Ptr(f, pos / BLKSIZE))| == BLKSIZE
    requires Under(s, c, u, d, f, offset, next, limit)
    ensures var v := Filled(u, f, pos, buf[pos - offset..next - offset]);
      && v == SetDisk(u, u.Ptr(f, pos / BLKSIZE), Splice(u.Disk(u.Ptr(f, pos / BLKSIZE)), pos % BLKSIZE,
                                                         buf[pos - offset..next - offset]))
      && Inv(v) && SameSizes(t, v) && Wrote(s, v, f, offset, buf[..next - offset])
      && Under(s, c, v, d, f, offset, next, limit)
  {
    WroteChunk(s, t, u, f, offset, buf, pos, next);
    FilledUnder(s, c, u, d, f, offset, pos, next, limit, buf[pos - offset..next - offset]);
  }

  /** Too little room for the next block is too little for the transfer. */
  lemma NoRoom(s: Fs, f: nat, pos: nat, limit: nat)
    requires pos < limit
    requires pos / BLKSIZE >= MAXBLOCKS || Room(s.free) < Cost(s, f, pos / BLKSIZE)
    ensures !Fits(s, f, pos, limit)
  {
  }

  // ----------------------------------------------------------- the file server

  datatype Error = NotFound | NoDisk | Inval

  /** `Dead`: a page fault made the server panic. */
  datatype Result<+T> = Ok(value: T) | Err(error: Error) | Dead

  /** The address of a block pointer: in the File structure, or in an indirect block. */
  datatype Slot = DirectSlot(i: nat) | IndirectSlot(b: nat, i: nat)

  class FileServer {
    const nblocks: nat
    var free: seq<bool>
    var disk: seq<Bytes>
    var files: seq<File>
    /** The blocks whose pages are mapped. */
    var cached: set<nat>

    ghost function Abs(): Fs
      reads this
    {
      Fs(nblocks, free, disk, files)
    }

    ghost predicate Valid()
      reads this
    {
      Inv(Abs())
    }

    /** A disk that already satisfies the ownership invariant, as the formatter leaves it. */
    constructor (s: Fs, c: set<nat>)
      requires Inv(s)
      ensures Valid() && Abs() == s && cached == c
    {
      nblocks := s.nblocks;
      free := s.free;
      disk := s.disk;
      files := s.files;
      cached := c;
    }

    /** The first access of an operation to byte `off` of block `b`; false is a panic. */
    method Touch(b: nat, off: nat) returns (alive: bool)
      requires Abs().Shape()
      modifies this`cached
      ensures alive <==> Reaches(old(cached), nblocks, Abs().IsFree(b), b, off)
      ensures cached == if alive then old(cached) + {b} else old(cached)
    {
      if b in cached {
        return true;
      }
      if b >= nblocks || off != 0 || free[b] {
        return false;
      }
      cached := cached + {b};
      return true;
    }

    /** The lowest free block from 3 on. */
    method AllocBlock() returns (r: Option<nat>)
      requires Owned(Abs())
      modifies this`free
      ensures var b := LowestFree(old(free), 3); r == if b < nblocks then Some(b) else None
      ensures Abs() == if r.Some? then SetFree(old(Abs()), r.value, false) else old(Abs())
      ensures Owned(Abs()) && (r.None? ==> Room(free) == 0)
      ensures r.Some? ==> forall q :: Names(Abs(), q) == Names(old(Abs()), q) && Names(Abs(), q) != r.value
    {
      TakeRoom(free);
      if LowestFree(free, 3) < |free| { TakeOwned(Abs(), LowestFree(free, 3)); }
      var i := 3;
      while i < nblocks
        invariant 3 <= i && free == old(free) && LowestFree(free, 3) == LowestFree(free, i)
      {
        if free[i] {
          free := free[i := false];
          return Some(i);
        }
        i := i + 1;
      }
      return None;
    }

    method FreeBlock(b: nat)
      requires 0 < b < |free|
      modifies this`free
      ensures Abs() == SetFree(old(Abs()), b, true)
    {
      free := free[b := true];
    }

    ghost predicate IsSlot(f: nat, n: nat, sl: Slot)
      reads this
    {
      HasSlot(Abs(), f, n) && sl == if n < NDIRECT then DirectSlot(n) else IndirectSlot(Abs().Indirect(f), n - NDIRECT)
    }

    /** Read a block pointer, through the cache if it is in an indirect block; none is a panic. */
    method LoadSlot(f: nat, n: nat, sl: Slot) returns (p: Option<nat>)
      requires Owned(Abs()) && IsSlot(f, n, sl)
      modifies this`cached
      ensures p == if SlotFaults(Abs(), old(cached), f, n) then None else Some(Abs().Ptr(f, n))
      ensures cached == if p.None? || n < NDIRECT then old(cached) else old(cached) + {Abs().Indirect(f)}
    {
      assert NamedOk(Abs(), Index(f));
      match sl
      case DirectSlot(i) => p := Some(files[f].direct[i]);
      case IndirectSlot(b, i) =>
        var alive := Touch(b, 4 * i);
        p := if alive then Some(GetPtr(disk[b], i)) else None;
    }

    method StoreSlot(f: nat, n: nat, sl: Slot, p: nat)
      requires Abs().Shape() && IsSlot(f, n, sl) && Abs().Indirect(f) < nblocks
      modifies this`disk, this`files
      ensures Abs() == SetSlot(old(Abs()), f, n, p)
    {
      match sl
      case DirectSlot(i) => files := files[f := files[f].(direct := files[f].direct[i := p])];
      case IndirectSlot(b, i) => disk := disk[b := SetPtr(disk[b], i, p)];
    }

    /** Clearing a new indirect block reaches it at its start, so it always survives. */
    method FileBlockWalk(f: nat, n: nat, alloc: bool) returns (r: Result<Slot>)
      requires Owned(Abs()) && f < |files|
      modifies this
      ensures Abs() == if alloc then Walked(old(Abs()), f, n) else old(Abs())
      ensures Grown(old(Abs()), Abs(), f) && forall g: nat, m: nat :: Abs().Ptr(g, m) == old(Abs()).Ptr(g, m)
      ensures Within(old(Abs())) ==> (Within(Abs()) <==> Abs() == old(Abs()) || NDIRECT < Blocks(Abs().Size(f)))
      ensures r.Ok? ==> IsSlot(f, n, r.value)
      ensures r == Err(Inval) <==> n >= MAXBLOCKS
      ensures r == Err(NotFound) <==> n < MAXBLOCKS && !HasSlot(old(Abs()), f, n) && !alloc
      ensures r == Err(NoDisk) <==> n < MAXBLOCKS && !HasSlot(old(Abs()), f, n) && alloc && Room(old(free)) == 0
      ensures !r.Dead?
      ensures cached == if Abs() == old(Abs()) then old(cached) else old(cached) + {Abs().Indirect(f)}
    {
      ghost var s := Abs();
      WalkedIs(s, f, n);
      GrownSelf(s, f);
      TakeRoom(free);
      if n >= MAXBLOCKS {
        return Err(Inval);
      }
      if n >= NDIRECT {
        if files[f].indirect == 0 && alloc {
          var b := AllocBlock();
          if b.None? {
            return Err(NoDisk);
          }
          var _ := Touch(b.value, 0);
          disk := disk[b.value := ZeroBlock()];
          files := files[f := files[f].(indirect := b.value)];
        } else if files[f].indirect == 0 {
          return Err(NotFound);
        }
        return Ok(IndirectSlot(files[f].indirect, n - NDIRECT));
      }
      return Ok(DirectSlot(n));
    }

    /** The rest of `file_get_block`: the pointer in the slot, or a new block put there. */
    method FillSlot(f: nat, n: nat, sl: Slot) returns (r: Result<nat>)
      requires Owned(Abs()) && IsSlot(f, n, sl)
      modifies this
      ensures r.Dead? <==> SlotFaults(old(Abs()), old(cached), f, n)
      ensures !r.Dead? ==>
        r == if Given(old(Abs()), f, n) < nblocks then Ok(Given(old(Abs()), f, n)) else Err(NoDisk)
      ensures Abs() == if r.Ok? && old(Abs()).Ptr(f, n) == 0 then Filling(old(Abs()), f, n) else old(Abs())
      ensures cached == if r.Dead? || n < NDIRECT then old(cached) else old(cached) + {old(Abs()).Indirect(f)}
    {
      assert NamedOk(Abs(), Index(f)) && NamedOk(Abs(), Data(f, n));
      var p := LoadSlot(f, n, sl);
      if p.None? {
        return Dead;
      }
      if p.value == 0 {
        var a := AllocBlock();
        if a.None? {
          return Err(NoDisk);
        }
        StoreSlot(f, n, sl, a.value);
        return Ok(a.value);
      }
      return Ok(p.value);
    }

    /** Keeps every block owned once whatever `n` is; keeps pointers within the file exactly
        when the block allocated last, if any, has its pointer within the file. */
    method FileGetBlock(f: nat, n: nat) returns (r: Result<nat>)
      requires Owned(Abs()) && f < |files|
      modifies this
      ensures Grown(old(Abs()), Abs(), f)
      ensures Within(old(Abs())) ==>
        (Within(Abs()) <==> Abs() == old(Abs()) || (if r.Ok? then n else NDIRECT) < Blocks(Abs().Size(f)))
      ensures Abs() == if r.Ok? then Got(old(Abs()), f, n) else Walked(old(Abs()), f, n)
      ensures r.Ok? ==> 0 < r.value == Abs().Ptr(f, n) == Given(old(Abs()), f, n) < nblocks
      ensures r.Dead? <==> SlotFaults(old(Abs()), old(cached), f, n)
      ensures r == Err(Inval) <==> n >= MAXBLOCKS
      ensures r == Err(NoDisk) <==> n < MAXBLOCKS && !r.Dead? && Room(old(free)) < Cost(old(Abs()), f, n)
      ensures r != Err(NotFound) && (r.Err? ==> Given(old(Abs()), f, n) >= nblocks || n >= MAXBLOCKS)
      ensures r == Err(NoDisk) ==> Room(free) == 0
      ensures old(cached) <= cached
      ensures r.Ok? ==> cached == old(cached) + if n < NDIRECT then {} else {Abs().Indirect(f)}
    {
      ghost var s := Abs();
      TakeRoom(free);
      var w := FileBlockWalk(f, n, true);
      if w.Err? {
        assert w.error.NotFound? || w.error.NoDisk? || w.error.Inval?;
        return Err(w.error);
      }
      ghost var u := Abs();
      r := FillSlot(f, n, w.value);
      GetBlockIs(s, f, n);
    }

    /** Remove block `n` of file `f`, if it is there. */
    method FileFreeBlock(f: nat, n: nat) returns (r: Result<()>)
      requires Owned(Abs()) && f < |files|
      modifies this
      ensures Owned(Abs()) && (Within(old(Abs())) ==> Within(Abs()))
      ensures r.Dead? <==> SlotFaults(old(Abs()), old(cached), f, n)
      ensures !r.Dead? ==> (r.Ok? <==> HasSlot(old(Abs()), f, n))
      ensures Abs() == if r.Dead? || old(Abs()).Ptr(f, n) == 0 then old(Abs())
                       else SetSlot(SetFree(old(Abs()), old(Abs()).Ptr(f, n), true), f, n, 0)
      ensures cached == if r.Ok? && n >= NDIRECT then old(cached) + {old(Abs()).Indirect(f)} else old(cached)
    {
      var w := FileBlockWalk(f, n, false);
      if w.Err? {
        assert w.error.NotFound? || w.error.NoDisk? || w.error.Inval?;
        return Err(w.error);
      }
      var p := LoadSlot(f, n, w.value);
      if p.None? {
        return Dead;
      }
      if p.value != 0 {
        assert NamedOk(Abs(), Data(f, n)) && NamedOk(Abs(), Index(f));
        EmptySlotInv(Abs(), f, n);
        FreeBlock(p.value);
        StoreSlot(f, n, w.value, 0);
      }
      return Ok(());
    }

    /** The end of `file_truncate_blocks`: the indirect block goes when only direct blocks remain. */
    method DropIndirect(f: nat, newn: nat, ghost s: Fs)
      requires Inv(s) && f < |s.files| && newn <= Blocks(s.Size(f)) && Cut(s, Abs(), f, newn, Blocks(s.Size(f)))
      modifies this`free, this`files
      ensures Truncated(s, Abs(), f, newn)
      ensures forall g: nat :: Abs().Size(g) == old(Abs()).Size(g)
    {
      ghost var t := Abs();
      assert CutRef(s, t, f, newn, Blocks(s.Size(f)), Index(f)) && NamedOk(t, Index(f));
      if newn <= NDIRECT && files[f].indirect != 0 {
        DropIndexIsTruncation(s, t, f, newn);
        FreeBlock(files[f].indirect);
        files := files[f := files[f].(indirect := 0)];
        assert Abs() == WithoutIndirect(t, f);
      } else {
        CutIsTruncation(s, t, f, newn);
      }
    }

    /** False is a panic: the first pointer to clear is past the start of an uncached indirect block. */
    method FileTruncateBlocks(f: nat, newsize: nat) returns (alive: bool)
      requires Valid() && f < |files| && newsize < Abs().Size(f)
      modifies this
      ensures alive <==> !CutFaults(old(Abs()), old(cached), f, newsize)
      ensures alive ==> Truncated(old(Abs()), Abs(), f, Blocks(newsize))
      ensures forall g: nat :: Abs().Size(g) == old(Abs()).Size(g)
    {
      var oldn := Blocks(files[f].size);
      var newn := Blocks(newsize);
      var n := newn;
      ghost var s := Abs();
      CutNone(s, f, newn);
      while n < oldn
        invariant newn <= n <= oldn && Cut(s, Abs(), f, newn, n)
        invariant n > newn ==> !CutFaults(s, old(cached), f, newsize)
        invariant SlotFaults(Abs(), cached, f, n) <==> n == newn && SlotFaults(s, old(cached), f, newn)
      {
        ghost var t := Abs();
        var r := FileFreeBlock(f, n);
        if r.Dead? {
          return false;
        }
        if t.Ptr(f, n) == 0 {
          CutSkip(s, t, f, newn, n);
        } else {
          CutOne(s, t, f, newn, n);
        }
        assert CutRef(s, t, f, newn, n, Index(f)) && CutRef(s, Abs(), f, newn, n + 1, Index(f));
        n := n + 1;
      }
      DropIndirect(f, newn, s);
      return true;
    }

    method FileSetSize(f: nat, newsize: nat) returns (alive: bool)
      requires Valid() && f < |files|
      modifies this
      ensures alive <==> !CutFaults(old(Abs()), old(cached), f, newsize)
      ensures alive ==> Valid() && |files| == old(|files|)
      ensures alive ==> forall g: nat :: Abs().Size(g) == if g == f then newsize else old(Abs()).Size(g)
      ensures alive && newsize < old(Abs()).Size(f) ==> Truncated(old(Abs()), Abs(), f, Blocks(newsize))
      ensures newsize >= old(Abs()).Size(f) ==>
        Abs() == SetFile(old(Abs()), f, old(files)[f].(size := newsize)) && cached == old(cached)
    {
      if files[f].size > newsize {
        alive := FileTruncateBlocks(f, newsize);
        if !alive {
          return;
        }
        ResizeTruncated(old(Abs()), Abs(), f, newsize);
      } else {
        ExtendWrote(Abs(), f, newsize, 0);
      }
      files := files[f := files[f].(size := newsize)];
      return true;
    }

    /** The block that holds position `pos` of a transfer, reached at that position. */
    method BlockFor(f: nat, pos: nat, ghost limit: nat) returns (r: Result<nat>)
      requires Valid() && f < |files| && pos < limit <= Abs().Size(f)
      modifies this
      ensures Valid() && Grown(old(Abs()), Abs(), f) && old(cached) <= cached
      ensures r.Dead? <==> Dies(old(Abs()), old(cached), f, pos)
      ensures r.Err? ==> !Fits(old(Abs()), f, pos, limit) && Explains(r.error, Abs(), limit)
      ensures r.Ok? ==>
        && Abs() == Got(old(Abs()), f, pos / BLKSIZE) && Cost(old(Abs()), f, pos / BLKSIZE) <= Room(old(free))
        && pos / BLKSIZE < MAXBLOCKS && !Dies(old(Abs()), old(cached), f, pos)
        && Warm(Abs(), cached, f, pos / BLKSIZE)
        && r.value == Abs().Ptr(f, pos / BLKSIZE) < |disk| && |disk[r.value]| == BLKSIZE
      ensures old(Abs()).Ptr(f, pos / BLKSIZE) != 0 ==> Abs() == old(Abs()) && !r.Err?
    {
      var n := pos / BLKSIZE;
      assert n < Blocks(Abs().Size(f));
      r := FileGetBlock(f, n);
      if r.Err? {
        assert r.error.NotFound? || r.error.NoDisk? || r.error.Inval?;
        NoRoom(old(Abs()), f, pos, limit);
      } else if r.Ok? {
        assert NamedOk(Abs(), Data(f, n)) && Unshared(Abs(), Data(f, n), Index(f));
        var alive := Touch(r.value, pos % BLKSIZE);
        if !alive {
          return Dead;
        }
      }
    }

    /** The same within a transfer that began at `offset` in state `s` with cache `c`. */
    method NextBlock(f: nat, pos: nat, ghost limit: nat, ghost s: Fs, ghost c: set<nat>, ghost offset: nat)
      returns (r: Result<nat>)
      requires Valid() && f < |files| && pos < limit <= Abs().Size(f)
      requires Under(s, c, Abs(), cached, f, offset, pos, limit)
      modifies this
      ensures Valid() && Grown(old(Abs()), Abs(), f)
      ensures !r.Ok? ==> Outcome(false, r.Dead?, s, c, f, offset, limit)
      ensures r.Err? ==> Explains(r.error, Abs(), limit)
      ensures r.Ok? ==> Under(s, c, Abs(), cached, f, offset, pos + ChunkLen(pos, limit - pos), limit)
      ensures r.Ok? ==> r.value == Abs().Ptr(f, pos / BLKSIZE) != 0 && r.value < |disk| && |disk[r.value]| == BLKSIZE
      ensures old(Abs()).Ptr(f, pos / BLKSIZE) != 0 ==> Abs() == old(Abs()) && !r.Err?
    {
      ghost var t, d := Abs(), cached;
      r := BlockFor(f, pos, limit);
      if r.Ok? {
        ghost var next := pos + ChunkLen(pos, limit - pos);
        ChunkSpan(pos, limit - pos);
        GotMoved(t, d, cached, f, pos, next, limit);
        UnderStep(s, c, t, d, Abs(), cached, f, offset, pos, next, limit);
      } else {
        UnderFail(r.Dead?, s, c, t, d, f, offset, pos, limit);
      }
    }

    /** One pass of the loop in `file_read`: the bytes from `pos` on that are in its block. */
    method ReadChunk(f: nat, offset: nat, pos: nat, limit: nat, buf: Bytes, ghost s: Fs, ghost c: set<nat>)
      returns (r: Result<Bytes>)
      requires Valid() && f < |files| && pos == offset + |buf| && pos < limit <= Abs().Size(f)
      requires HasRead(Abs(), f, offset, buf) && Under(s, c, Abs(), cached, f, offset, pos, limit)
      modifies this
      ensures Valid() && Grown(old(Abs()), Abs(), f)
      ensures r.Ok? ==> |r.value| == ChunkLen(pos, limit - pos) && HasRead(Abs(), f, offset, buf + r.value)
      ensures r.Ok? ==> Under(s, c, Abs(), cached, f, offset, pos + ChunkLen(pos, limit - pos), limit)
      ensures !r.Ok? ==> Outcome(false, r.Dead?, s, c, f, offset, limit)
      ensures r.Err? ==> Explains(r.error, Abs(), limit)
      ensures old(Abs()).Ptr(f, pos / BLKSIZE) != 0 ==> Abs() == old(Abs()) && !r.Err?
    {
      var b := NextBlock(f, pos, limit, s, c, offset);
      if !b.Ok? {
        return if b.Dead? then Dead else Err(b.error);
      }
      var bn := ChunkLen(pos, limit - pos);
      HasReadMore(old(Abs()), Abs(), f, offset, buf, bn);
      return Ok(disk[b.value][pos % BLKSIZE..pos % BLKSIZE + bn]);
    }

    /** The loop of `file_read`. */
    method ReadAll(f: nat, offset: nat, limit: nat) returns (r: Result<Bytes>)
      requires Valid() && f < |files| && offset <= limit <= Abs().Size(f)
      modifies this
      ensures Valid() && Grown(old(Abs()), Abs(), f)
      ensures r.Ok? ==> |r.value| == limit - offset && HasRead(Abs(), f, offset, r.value)
      ensures Outcome(r.Ok?, r.Dead?, old(Abs()), old(cached), f, offset, limit)
      ensures r.Err? ==> Explains(r.error, Abs(), limit)
      ensures Backed(old(Abs()), f, offset, limit) ==> Abs() == old(Abs()) && !r.Err?
    {
      ghost var s, c := Abs(), cached;
      GrownSelf(s, f);
      var pos, buf: Bytes := offset, [];
      while pos < limit
        invariant pos == offset + |buf| && f < |files| && Valid()
        invariant Grown(s, Abs(), f) && HasRead(Abs(), f, offset, buf)
        invariant Under(s, c, Abs(), cached, f, offset, pos, limit)
        invariant Backed(s, f, offset, limit) ==> Abs() == s
      {
        ghost var t := Abs();
        assert Backed(s, f, offset, limit) ==> BackedAt(s, f, offset, limit, pos);
        var k := ReadChunk(f, offset, pos, limit, buf, s, c);
        GrownTrans(s, t, Abs(), f);
        if !k.Ok? {
          return k;
        }
        buf := buf + k.value;
        pos := pos + ChunkLen(pos, limit - pos);
      }
      UnderEnd(s, c, Abs(), cached, f, offset, limit);
      return Ok(buf);
    }

    /** Reads at most `count` bytes.  A hole in the range is given a block on the way, so
        only bytes that were backed before have a known value. */
    method FileRead(f: nat, count: nat, offset: nat) returns (r: Result<Bytes>)
      requires Valid() && f < |files|
      modifies this
      ensures Valid() && Grown(old(Abs()), Abs(), f)
      ensures r.Ok? ==> |r.value| == ReadLen(old(Abs()).Size(f), count, offset)
      ensures r.Ok? ==> HasRead(Abs(), f, offset, r.value)
      ensures r.Ok? ==> forall i :: 0 <= i < |r.value| ==> ReadsOld(old(Abs()), f, offset + i, r.value[i])
      ensures var limit := offset + ReadLen(old(Abs()).Size(f), count, offset);
        && Outcome(r.Ok?, r.Dead?, old(Abs()), old(cached), f, offset, limit)
        && (r.Err? ==> Explains(r.error, Abs(), limit))
        && (Backed(old(Abs()), f, offset, limit) ==> Abs() == old(Abs()) && !r.Err?)
    {
      if offset >= files[f].size {
        GrownSelf(Abs(), f);
        return Ok([]);
      }
      r := ReadAll(f, offset, offset + if count <= files[f].size - offset then count else files[f].size - offset);
      if r.Ok? { ReadsOldAll(old(Abs()), Abs(), f, offset, r.value); }
    }

    /** One pass of the loop in `file_write`: the part of the buffer that goes to the block
        of position `pos`.  `s` and `c` are from before the whole write. */
    method WriteChunk(f: nat, buf: Bytes, offset: nat, pos: nat, limit: nat, ghost s: Fs, ghost c: set<nat>)
      returns (r: Result<nat>)
      requires Valid() && f < |files| && offset <= pos < limit == offset + |buf| && limit <= Abs().Size(f)
      requires Wrote(s, Abs(), f, offset, buf[..pos - offset])
      requires Under(s, c, Abs(), cached, f, offset, pos, limit)
      modifies this
      ensures Valid() && SameSizes(old(Abs()), Abs())
      ensures r.Ok? ==> r.value == pos + ChunkLen(pos, limit - pos)
      ensures r.Ok? ==> Wrote(s, Abs(), f, offset, buf[..r.value - offset])
      ensures r.Ok? ==> Under(s, c, Abs(), cached, f, offset, r.value, limit)
      ensures !r.Ok? ==> Wrote(s, Abs(), f, offset, buf[..pos - offset])
      ensures !r.Ok? ==> Outcome(false, r.Dead?, s, c, f, offset, limit)
      ensures r.Err? ==> Explains(r.error, Abs(), limit)
    {
      ghost var t := Abs();
      var b := NextBlock(f, pos, limit, s, c, offset);
      if !b.Ok? {
        WroteGrown(s, t, Abs(), f, offset, buf[..pos - offset]);
        return b;
      }
      var next := pos + ChunkLen(pos, limit - pos);
      ChunkDone(s, c, t, Abs(), cached, f, offset, buf, pos, next, limit);
      disk := disk[b.value := Splice(disk[b.value], pos % BLKSIZE, buf[pos - offset..next - offset])];
      return Ok(next);
    }

    /** The loop of `file_write`; `s` and `c` are from before the file was extended. */
    method WriteAll(f: nat, buf: Bytes, offset: nat, ghost s: Fs, ghost c: set<nat>)
      returns (r: Result<nat>, ghost done: nat)
      requires Valid() && f < |files| && offset + |buf| <= Abs().Size(f)
      requires Wrote(s, Abs(), f, offset, [])
      requires Under(s, c, Abs(), cached, f, offset, offset, offset + |buf|)
      modifies this
      ensures Valid() && SameSizes(old(Abs()), Abs())
      ensures done <= |buf| && Wrote(s, Abs(), f, offset, buf[..done])
      ensures r.Ok? ==> r.value == |buf| == done
      ensures Outcome(r.Ok?, r.Dead?, s, c, f, offset, offset + |buf|)
      ensures r.Err? ==> Explains(r.error, Abs(), offset + |buf|)
      ensures r.Ok? && |buf| > 0 ==> Warm(Abs(), cached, f, offset / BLKSIZE)
    {
      ghost var e := Abs();
      assert buf[..0] == [];
      var pos, limit := offset, offset + |buf|;
      while pos < limit
        invariant offset <= pos <= limit && f < |files| && Valid()
        invariant Wrote(s, Abs(), f, offset, buf[..pos - offset])
        invariant Under(s, c, Abs(), cached, f, offset, pos, limit)
        invariant SameSizes(e, Abs())
        decreases limit - pos
      {
        var k := WriteChunk(f, buf, offset, pos, limit, s, c);
        if !k.Ok? {
          return k, pos - offset;
        }
        pos := k.value;
      }
      UnderEnd(s, c, Abs(), cached, f, offset, limit);
      return Ok(|buf|), |buf|;
    }

    /** `done` is how much of the buffer reached the file; all of it on success. */
    method FileWrite(f: nat, buf: Bytes, offset: nat) returns (r: Result<nat>, ghost done: nat)
      requires Valid() && f < |files|
      modifies this
      ensures Valid() && done <= |buf| && Wrote(old(Abs()), Abs(), f, offset, buf[..done])
      ensures forall g: nat :: Abs().Size(g) == if g == f then SizeAfter(old(Abs()).Size(f), offset + |buf|)
                                                else old(Abs()).Size(g)
      ensures r.Ok? ==> r.value == |buf| == done
      ensures Outcome(r.Ok?, r.Dead?, old(Abs()), old(cached), f, offset, offset + |buf|)
      ensures r.Err? ==> Explains(r.error, Abs(), offset + |buf|)
      ensures r.Ok? && |buf| > 0 ==> Warm(Abs(), cached, f, offset / BLKSIZE)
    {
      ghost var s, c := Abs(), cached;
      ExtendWrote(s, f, SizeAfter(s.Size(f), offset + |buf|), offset);
      if offset + |buf| > files[f].size {
        var _ := FileSetSize(f, offset + |buf|);
      } else {
        assert files == files[f := files[f].(size := files[f].size)];
      }
      UnderStart(s, Abs(), c, f, offset, offset + |buf|);
      r, done := WriteAll(f, buf, offset, s, c);
    }

    /** A write that succeeded is what the next read of that range returns. */
    method WriteThenRead(f: nat, buf: Bytes, offset: nat) returns (w: Result<nat>, r: Result<Bytes>)
      requires Valid() && f < |files|
      modifies this
      ensures w.Ok? ==> r == Ok(buf)
      ensures Valid()
    {
      ghost var done;
      w, done := FileWrite(f, buf, offset);
      ghost var t := Abs();
      if w.Ok? && |buf| > 0 { WarmLives(t, cached, f, offset, offset); }
      r := FileRead(f, |buf|, offset);
      if w.Ok? {
        assert buf[..done] == buf;
        ghost var limit := offset + |buf|;
        forall x: nat ensures BackedAt(t, f, offset, limit, x) {
          if offset <= x < limit { assert HoldsAt(t, f, offset, buf, x - offset); }
        }
        forall i | 0 <= i < |buf| ensures r.value[i] == buf[i] {
          assert HoldsAt(t, f, offset, buf, i);
          assert ReadsOld(t, f, offset + i, r.value[i]);
        }
        assert r.value == buf;
      }
    }
  }

  // ---------------------------------------------- where the properties end

  /** A disk of four blocks with one file. */
  function OneFile(x: File): Fs {
    Fs(4, [false, false, false, x.direct == NoBlocks() && x.indirect == 0], seq(4, i => ZeroBlock()), [x])
  }

  function NoBlocks(): seq<nat> {
    seq(NDIRECT, i => 0)
  }

  lemma OneFileNames(x: File, r: Ref)
    requires |x.direct| == NDIRECT && (x.indirect == 0 || x.direct == NoBlocks())
    ensures Names(OneFile(x), r) ==
      if r.f != 0 then 0 else if r.Index? then x.indirect else if r.n < NDIRECT then x.direct[r.n] else 0
  {
    if r.Data? && r.f == 0 && NDIRECT <= r.n < MAXBLOCKS && x.indirect != 0 && x.indirect < 4 {
      assert OneFile(x).Disk(x.indirect) == ZeroBlock();
    }
  }

  /** Asking for a block past the end of an empty file leaves a pointer there. */
  method PastEndExample() returns (fs: FileServer, r: Result<nat>)
    ensures r.Ok? && Owned(fs.Abs()) && !Within(fs.Abs())
  {
    ghost var s := OneFile(File(0, NoBlocks(), 0));
    forall r ensures NamedOk(s, r) && WithinOk(s, r) && Names(s, r) == 0 { OneFileNames(File(0, NoBlocks(), 0), r); }
    fs := new FileServer(OneFile(File(0, NoBlocks(), 0)), {});
    assert LowestFree(s.free, 3) == 3;
    TakeRoom(s.free);
    r := fs.FileGetBlock(0, 0);
    assert Names(fs.Abs(), Data(0, 0)) != 0;
  }

  lemma OneBlockInv(x: File)
    requires x == File(100, NoBlocks()[0 := 3], 0) || x == File(13 * BLKSIZE, NoBlocks(), 3)
    ensures Inv(OneFile(x))
  {
    var s := OneFile(x);
    forall r ensures NamedOk(s, r) && WithinOk(s, r) && (Names(s, r) != 0 ==> r == Data(0, 0) || r == Index(0)) {
      OneFileNames(x, r);
    }
    forall r, q ensures Unshared(s, r, q) {
      OneFileNames(x, r);
      OneFileNames(x, q);
    }
  }

  /** Reading ten bytes at offset 5 of a 100-byte file whose block is not cached. */
  method ReadFaultExample() returns (fs: FileServer, r: Result<Bytes>)
    ensures r.Dead?
  {
    var x := File(100, NoBlocks()[0 := 3], 0);
    OneBlockInv(x);
    fs := new FileServer(OneFile(x), {});
    r := fs.FileRead(0, 10, 5);
  }

  /** Asking for block 12 of a file whose indirect block is not cached. */
  method SlotFaultExample() returns (fs: FileServer, r: Result<nat>)
    ensures r.Dead?
  {
    var x := File(13 * BLKSIZE, NoBlocks(), 3);
    OneBlockInv(x);
    fs := new FileServer(OneFile(x), {});
    r := fs.FileGetBlock(0, 12);
  }
}
