/** The block cache of the file server (fs/bc.c) and the flushing code built on it
    (file_flush and fs_sync of fs/fs.c).  A disk block has a fixed virtual page; the
    page is mapped on the first access and carries the hardware's dirty bit. */
module BlockCache {
  import opened FileSys
  import opened Options

  const DISKMAP: nat := 0x10000000
  const DISKSIZE: nat := 0xC0000000

  /** The mapped pages, those with PTE_D set, and the disk itself. */
  datatype Cache = Cache(disk: seq<Bytes>, mem: map<nat, Bytes>, dirty: set<nat>)

  /** What the file server sees as block `b`. */
  function Content(c: Cache, b: nat): Bytes {
    if b in c.mem then c.mem[b] else if b < |c.disk| then c.disk[b] else []
  }

  function OnDisk(c: Cache, b: nat): Bytes {
    if b < |c.disk| then c.disk[b] else []
  }

  /** A page that is mapped and clean equals its disk block. */
  predicate PageOk(c: Cache, b: nat) {
    b in c.mem ==> b < |c.disk| && (b in c.dirty || c.mem[b] == c.disk[b])
  }

  ghost predicate CacheOk(c: Cache) {
    c.dirty <= c.mem.Keys && forall b: nat :: PageOk(c, b)
  }

  /** Nothing the server can see has changed. */
  ghost predicate SameContent(c: Cache, d: Cache) {
    |d.disk| == |c.disk| && forall b: nat :: Content(d, b) == Content(c, b)
  }

  /** Blocks already written back stay written back. */
  ghost predicate KeepsSynced(c: Cache, d: Cache) {
    forall b: nat :: OnDisk(c, b) == Content(c, b) ==> OnDisk(d, b) == Content(d, b)
  }

  predicate InDiskMap(addr: nat) {
    DISKMAP <= addr < DISKMAP + DISKSIZE
  }

  function BlockOf(addr: nat): nat
    requires InDiskMap(addr)
  {
    (addr - DISKMAP) / BLKSIZE
  }

  function DiskAddr(b: nat): (a: nat)
    requires b * BLKSIZE < DISKSIZE
    ensures InDiskMap(a) && BlockOf(a) == b && a % BLKSIZE == 0
  {
    DISKMAP + b * BLKSIZE
  }

  /** Evicting a mapped page keeps what the server sees exactly when the page agrees
      with the disk; a clean page always does. */
  lemma EvictIff(c: Cache, b: nat)
    requires CacheOk(c) && b in c.mem
    ensures SameContent(c, c.(mem := c.mem - {b}, dirty := c.dirty - {b})) <==> c.mem[b] == OnDisk(c, b)
    ensures b !in c.dirty ==> c.mem[b] == OnDisk(c, b)
  {
    var d := c.(mem := c.mem - {b}, dirty := c.dirty - {b});
    assert PageOk(c, b);
    assert Content(c, b) == c.mem[b] && Content(d, b) == OnDisk(c, b);
  }

  /** The block pointer for block `n` of file `x`, as read through the cache. */
  function FilePtr(c: Cache, x: File, n: nat): nat {
    if n < NDIRECT then (if n < |x.direct| then x.direct[n] else 0)
    else if n < MAXBLOCKS && x.indirect != 0 then GetPtr(Content(c, x.indirect), n - NDIRECT)
    else 0
  }

  /** The size of a file for `file_flush`: a size that is negative as an int, or becomes so when
      rounded up to blocks, makes its loop empty. */
  function FlushSize(w: nat): nat {
    if w + BLKSIZE - 1 < 0x8000_0000 then w else 0
  }

  /** The File structure in slot `k` of block `home`: a 128-byte name, size, type, pointers. */
  function FileIn(c: Cache, home: nat, k: nat): (x: File)
    ensures |x.direct| == NDIRECT
  {
    var b := Content(c, home);
    var direct := seq<nat>(NDIRECT, i requires 0 <= i => GetPtr(b, 64 * k + 34 + i));
    File(FlushSize(GetPtr(b, 64 * k + 32)), direct, GetPtr(b, 64 * k + 44))
  }

  /** The pointer to block `i` can be had. */
  predicate Loads(c: Cache, nblocks: nat, x: File, i: nat, isFree: bool) {
    NDIRECT <= i < MAXBLOCKS && x.indirect != 0 ==> x.indirect < nblocks && (x.indirect in c.mem || !isFree)
  }

  lemma PtrSame(c: Cache, d: Cache, x: File, i: nat)
    requires SameContent(c, d)
    ensures FilePtr(d, x, i) == FilePtr(c, x, i)
  {
    assert Content(d, x.indirect) == Content(c, x.indirect);
  }

  predicate FlushesAt(c: Cache, nblocks: nat, x: File, i: nat, isFree: bool) {
    Loads(c, nblocks, x, i, isFree) && FilePtr(c, x, i) < nblocks
  }

  /** Flushing `x` survives: every pointer on the way is a block of the disk, and the indirect
      block, if its pointers are wanted, is cached or not marked free. */
  ghost predicate Flushes(c: Cache, nblocks: nat, x: File, isFree: bool) {
    && (x.indirect != 0 ==> x.indirect < nblocks)
    && (forall i: nat :: i < Blocks(x.size) ==> FlushesAt(c, nblocks, x, i, isFree))
  }

  predicate Synced(c: Cache, b: nat) {
    OnDisk(c, b) == Content(c, b)
  }

  /** Every block of the file, up to its first `n`, is on disk. */
  ghost predicate DataSynced(c: Cache, x: File, n: nat) {
    forall i: nat :: i < n && FilePtr(c, x, i) != 0 ==> Synced(c, FilePtr(c, x, i))
  }

  lemma DataSyncedKept(c: Cache, d: Cache, x: File, n: nat)
    requires DataSynced(c, x, n) && SameContent(c, d) && KeepsSynced(c, d)
    ensures DataSynced(d, x, n)
  {
    assert x.indirect != 0 ==> Content(d, x.indirect) == Content(c, x.indirect);
    forall i: nat | i < n && FilePtr(d, x, i) != 0 ensures Synced(d, FilePtr(d, x, i)) {
      assert FilePtr(d, x, i) == FilePtr(c, x, i);
      assert Synced(c, FilePtr(c, x, i));
    }
  }

  /** A pointer slot lies in its indirect block; only the first one is page-aligned. */
  lemma SlotBlock(b: nat, i: nat)
    requires b * BLKSIZE < DISKSIZE && i < NINDIRECT
    ensures InDiskMap(DiskAddr(b) + 4 * i) && BlockOf(DiskAddr(b) + 4 * i) == b
    ensures (DiskAddr(b) + 4 * i) % BLKSIZE == 0 <==> i == 0
  {
  }

  class Server {
    const nblocks: nat
    var cache: Cache

    ghost predicate Valid()
      reads this
    {
      CacheOk(cache) && |cache.disk| == nblocks && nblocks * BLKSIZE <= DISKSIZE
    }

    constructor (disk: seq<Bytes>)
      requires |disk| * BLKSIZE <= DISKSIZE
      ensures Valid() && cache == Cache(disk, map[], {}) && nblocks == |disk|
    {
      nblocks := |disk|;
      cache := Cache(disk, map[], {});
    }

    /** `bc_pgfault` on an access to an unmapped page; `isFree` is what the bitmap says of
        the block.  False is a panic of the server. */
    method BcPgfault(addr: nat, isFree: bool) returns (ok: bool)
      requires Valid() && (InDiskMap(addr) ==> BlockOf(addr) !in cache.mem)
      modifies this
      ensures ok <==> InDiskMap(addr) && BlockOf(addr) < nblocks && addr % BLKSIZE == 0 && !isFree
      ensures ok ==> Valid() && BlockOf(addr) in cache.mem && BlockOf(addr) !in cache.dirty
      ensures ok ==> SameContent(old(cache), cache) && KeepsSynced(old(cache), cache)
      ensures ok ==> cache.disk == old(cache).disk
      ensures ok ==> cache.mem == old(cache).mem[BlockOf(addr) := old(cache).disk[BlockOf(addr)]]
    {
      if !InDiskMap(addr) {
        return false;
      }
      var b := BlockOf(addr);
      if b >= nblocks {
        return false;
      }
      ghost var c := cache;
      // sys_page_alloc, then ide_read into the page, which sets its dirty bit
      cache := cache.(mem := cache.mem[b := cache.disk[b]], dirty := cache.dirty + {b});
      // sys_page_map of the unrounded address clears the bit, or fails
      if addr % BLKSIZE != 0 {
        return false;
      }
      cache := cache.(dirty := cache.dirty - {b});
      forall x: nat ensures PageOk(cache, x) { assert PageOk(c, x); }
      return !isFree;
    }

    /** An access to a byte of the disk map, faulting its page in if need be. */
    method Touch(addr: nat, isFree: bool) returns (ok: bool)
      requires Valid() && InDiskMap(addr)
      modifies this
      ensures ok <==> Reaches(old(cache).mem.Keys, nblocks, isFree, BlockOf(addr), addr % BLKSIZE)
      ensures ok ==> Valid() && cache.mem.Keys == old(cache).mem.Keys + {BlockOf(addr)}
      ensures ok ==> SameContent(old(cache), cache) && KeepsSynced(old(cache), cache)
      ensures BlockOf(addr) in old(cache).mem ==> cache == old(cache)
    {
      if BlockOf(addr) in cache.mem {
        return true;
      }
      ok := BcPgfault(addr, isFree);
    }

    /** A store through a mapped page: the hardware sets the dirty bit. */
    method StoreByte(b: nat, i: nat, v: byte)
      requires Valid() && b in cache.mem && i < |cache.mem[b]|
      modifies this
      ensures Valid()
      ensures forall x: nat :: Content(cache, x) ==
                               if x == b then Content(old(cache), b)[i := v] else Content(old(cache), x)
      ensures cache.disk == old(cache).disk
    {
      ghost var c := cache;
      assert PageOk(c, b);
      var page: Bytes := cache.mem[b];
      page := page[i := v];
      cache := cache.(mem := cache.mem[b := page], dirty := cache.dirty + {b});
      forall x: nat ensures PageOk(cache, x) { assert PageOk(c, x); }
    }

    /** `flush_block` of any address inside the block; false is a panic. */
    method FlushBlock(addr: nat) returns (ok: bool)
      requires Valid()
      modifies this
      ensures ok <==> InDiskMap(addr)
      ensures Valid() && SameContent(old(cache), cache) && KeepsSynced(old(cache), cache)
      ensures ok ==> OnDisk(cache, BlockOf(addr)) == Content(cache, BlockOf(addr)) && BlockOf(addr) !in cache.dirty
      ensures cache.mem == old(cache).mem
    {
      if !InDiskMap(addr) {
        return false;
      }
      var b := BlockOf(addr);
      ghost var c := cache;
      assert PageOk(c, b);
      if b in cache.mem && b in cache.dirty {
        cache := cache.(disk := cache.disk[b := cache.mem[b]], dirty := cache.dirty - {b});
        forall x: nat ensures PageOk(cache, x) { assert PageOk(c, x); }
      }
      return true;
    }

    /** `fs_sync`: every block from 1 on reaches the disk. */
    method FsSync()
      requires Valid()
      modifies this
      ensures Valid() && SameContent(old(cache), cache)
      ensures forall b: nat :: 1 <= b < nblocks ==> OnDisk(cache, b) == Content(old(cache), b)
    {
      var i := 1;
      while i < nblocks
        invariant 1 <= i && Valid() && SameContent(old(cache), cache)
        invariant forall b: nat :: 1 <= b < i && b < nblocks ==> OnDisk(cache, b) == Content(cache, b)
      {
        ghost var c := cache;
        var _ := FlushBlock(DiskAddr(i));
        assert KeepsSynced(c, cache);
        i := i + 1;
      }
    }

    /** The pointer to block `i` of file `x`, as `file_block_walk` and a load find it; none is a panic. */
    method LoadPtr(x: File, i: nat, isFree: bool) returns (p: Option<nat>)
      requires Valid() && |x.direct| == NDIRECT
      requires NDIRECT < i && x.indirect != 0 ==> x.indirect in cache.mem
      modifies this
      ensures p.Some? <==> Loads(old(cache), nblocks, x, i, isFree)
      ensures p.Some? ==> p.value == FilePtr(old(cache), x, i)
      ensures p.Some? ==> Valid() && SameContent(old(cache), cache) && KeepsSynced(old(cache), cache)
      ensures p.Some? ==> old(cache).mem.Keys <= cache.mem.Keys && (i < NDIRECT ==> cache == old(cache))
      ensures p.Some? && NDIRECT <= i < MAXBLOCKS && x.indirect != 0 ==> x.indirect in cache.mem
    {
      if i < NDIRECT {
        return Some(x.direct[i]);
      }
      if i >= MAXBLOCKS || x.indirect == 0 {
        return Some(0);
      }
      if x.indirect >= nblocks {
        return None;
      }
      SlotBlock(x.indirect, i - NDIRECT);
      var loaded := Touch(DiskAddr(x.indirect) + 4 * (i - NDIRECT), isFree);
      if !loaded {
        return None;
      }
      return Some(GetPtr(cache.mem[x.indirect], i - NDIRECT));
    }

    /** One pass of the loop in `file_flush`. */
    method FlushNth(x: File, i: nat, isFree: bool) returns (ok: bool)
      requires Valid() && 0 < nblocks && |x.direct| == NDIRECT && DataSynced(cache, x, i)
      requires NDIRECT < i && x.indirect != 0 ==> x.indirect in cache.mem
      modifies this
      ensures ok <==> FlushesAt(old(cache), nblocks, x, i, isFree)
      ensures ok ==> Valid() && SameContent(old(cache), cache) && DataSynced(cache, x, i + 1)
      ensures ok ==> old(cache).mem.Keys <= cache.mem.Keys && (i < NDIRECT ==> cache.mem == old(cache).mem)
      ensures ok && NDIRECT <= i < MAXBLOCKS && x.indirect != 0 ==> x.indirect in cache.mem
    {
      ghost var c := cache;
      var p := LoadPtr(x, i, isFree);
      if p.None? {
        return false;
      }
      DataSyncedKept(c, cache, x, i);
      if p.value != 0 {
        if p.value >= nblocks {
          return false;
        }
        ghost var d := cache;
        var _ := FlushBlock(DiskAddr(p.value));
        DataSyncedKept(d, cache, x, i);
      }
      PtrSame(c, cache, x, i);
      return true;
    }

    /** The end of `file_flush`: the File structure itself, then the indirect block. */
    method FlushMeta(home: nat, k: nat) returns (ok: bool)
      requires Valid() && 0 < home && home in cache.mem
      modifies this
      ensures var x := FileIn(old(cache), home, k);
        && (ok <==> x.indirect == 0 || x.indirect < nblocks)
        && (ok ==> Synced(cache, home) && (x.indirect != 0 ==> Synced(cache, x.indirect)))
      ensures Valid() && SameContent(old(cache), cache) && KeepsSynced(old(cache), cache)
    {
      assert PageOk(cache, home);
      var _ := FlushBlock(DiskAddr(home));
      var b := FileIn(cache, home, k).indirect;
      assert Content(cache, home) == Content(old(cache), home);
      if b != 0 {
        if b >= nblocks {
          return false;
        }
        var _ := FlushBlock(DiskAddr(b));
      }
      return true;
    }

    /** `file_flush` of the File structure in slot `k` of block `home`, which is cached; `isFree`
        is what the bitmap says of its indirect block.  The loop reaches an uncached indirect
        block at its first slot, the only one the fault handler survives. */
    method FileFlush(home: nat, k: nat, isFree: bool) returns (ok: bool)
      requires Valid() && 0 < home && home in cache.mem
      modifies this
      ensures ok <==> Flushes(old(cache), nblocks, FileIn(old(cache), home, k), isFree)
      ensures ok ==> Valid() && SameContent(old(cache), cache)
      ensures ok ==> var x := FileIn(cache, home, k);
        DataSynced(cache, x, Blocks(x.size)) && Synced(cache, home) && (x.indirect != 0 ==> Synced(cache, x.indirect))
    {
      ghost var x := FileIn(cache, home, k);
      assert PageOk(cache, home);
      var i := 0;
      while i < Blocks(FileIn(cache, home, k).size)
        invariant i <= Blocks(x.size) && Valid() && home in cache.mem && SameContent(old(cache), cache)
        invariant FileIn(cache, home, k) == x && DataSynced(cache, x, i)
        invariant forall j: nat :: j < i ==> FlushesAt(old(cache), nblocks, x, j, isFree)
        invariant i <= NDIRECT ==> cache.mem == old(cache).mem
        invariant NDIRECT < i && x.indirect != 0 ==>
          x.indirect in cache.mem && Loads(old(cache), nblocks, x, NDIRECT, isFree)
      {
        PtrSame(old(cache), cache, x, i);
        ok := FlushNth(FileIn(cache, home, k), i, isFree);
        assert ok <==> FlushesAt(old(cache), nblocks, x, i, isFree);
        if !ok {
          return;
        }
        assert Content(cache, home) == Content(old(cache), home);
        i := i + 1;
      }
      ghost var c := cache;
      ok := FlushMeta(home, k);
      if ok { DataSyncedKept(c, cache, x, Blocks(x.size)); }
      assert Content(cache, home) == Content(old(cache), home);
    }
  }

  /** A first touch of byte 4 of block 1 is fatal, although the block is in use. */
  method UnalignedTouchFails() returns (ok: bool)
    ensures !ok
  {
    var server := new Server([ZeroBlock(), ZeroBlock()]);
    ok := server.Touch(DiskAddr(1) + 4, false);
  }
}
