/** The partition-wide state of src/HDD/Ext2.cpp and its allocators.  A block is a sequence of
    bytes; the bitmap blocks, the descriptor table and the superblock counters are kept apart
    from the blocks they describe. */
module Ext2FS {
  import opened Options
  import opened Arith
  import opened Bytes
  import opened Ext2Alloc

  datatype GroupDescriptor = GroupDescriptor(freeBlocks: nat, freeInodes: nat, usedDirs: nat)

  /** The first clear bit of a bitmap, or its length: bytes first, then the bit in the byte. */
  method ScanBitmap(bitmap: seq<bool>) returns (k: nat)
    requires |bitmap| % 8 == 0
    ensures k <= |bitmap| && (forall i | 0 <= i < k :: bitmap[i]) && (k < |bitmap| ==> !bitmap[k])
  {
    for j := 0 to |bitmap| / 8
      invariant forall i | 0 <= i < 8 * j :: bitmap[i]
    {
      var pos := 0;
      while pos < 8 && bitmap[8 * j + pos]
        invariant pos <= 8 && forall i | 8 * j <= i < 8 * j + pos :: bitmap[i]
      {
        pos := pos + 1;
      }
      if pos < 8 {
        return 8 * j + pos;
      }
    }
    k := |bitmap|;
  }

  /** The group looked at in step i of a walk that starts at group `start`. */
  function Visited(start: nat, i: nat, n: nat): (g: nat)
    requires n > 0
    ensures g < n
  {
    (i + start) % n
  }

  /** It goes up to the last group, and then on from group 0. */
  lemma VisitedIs(start: nat, i: nat, n: nat)
    requires i < n
    ensures var s := Mod(start, n); s < n && Visited(start, i, n) == if s + i < n then s + i else s + i - n
  {
    var q, s := Div(start, n), Mod(start, n);
    DivModIs(start, n);
    MulStep(q, n);
    hide Mul, Div;
    if s + i < n {
      DivModOf(q, s + i, n);
    } else {
      DivModOf(q + 1, s + i - n, n);
    }
  }

  /** Walking n groups from any start meets each group. */
  lemma EveryGroupIsMet(start: nat, n: nat, g: nat) returns (i: nat)
    requires g < n
    ensures i < n && Visited(start, i, n) == g
  {
    var s := start % n;
    i := if g >= s then g - s else g - s + n;
    var q := start / n;
    assert start == Mul(q, n) + s by { DivModIs(start, n); }
    if g >= s {
      assert i + start == Mul(q, n) + g;
      DivModOf(q, g, n);
    } else {
      MulStep(q, n);
      assert i + start == Mul(q + 1, n) + g;
      DivModOf(q + 1, g, n);
    }
  }

  lemma AllSetIsFull(a: Alloc)
    requires Accounted(a) && forall g: nat | g < |a.bits| :: AllSet(a.bits[g])
    ensures Free(a) == {} && a.total == 0 && forall b | b in a.bits :: AllSet(b)
  {
    hide Div, Mod, Mul;
    forall g: nat | g < |a.bits|
      ensures Clear(a.bits[g]) == {}
    {
      assert AllSet(a.bits[g]);
    }
    FullGroupsLeaveNothing(a);
    TotalIsTheFreeCount(a);
  }

  lemma FullGroupsLeaveNothing(a: Alloc)
    requires Shaped(a) && forall g | 0 <= g < |a.bits| :: Clear(a.bits[g]) == {}
    ensures Free(a) == {}
  {
    forall n: nat
      ensures n !in Free(a)
    {
      FreeIff(a, n);
      assert forall g, k | 0 <= g < |a.bits| && 0 <= k < |a.bits[g]| && !a.bits[g][k] :: k in Clear(a.bits[g]);
    }
  }

  /** 1024 << log_block_size. */
  function BlockSize(log: nat): nat {
    if log == 0 then 1024 else 2 * BlockSize(log - 1)
  }

  /** A block size of at most 4 GiB divides 4 GiB. */
  lemma BlockSizeDivides(log: nat)
    requires log <= 22
    ensures BlockSize(log) >= 1024 && BlockSize(log) % 1024 == 0 && Mod(P32, BlockSize(log)) == 0
  {
    hide Mul, Div, Mod;
    BlockSizeIs(log);
    var q := BlocksIn4G(log);
    DivModOf(q, 0, BlockSize(log));
  }

  lemma {:induction false} BlocksIn4G(log: nat) returns (q: nat)
    requires log <= 22
    ensures Mul(q, BlockSize(log)) == P32
    decreases 22 - log
  {
    hide Mul;
    if log == 22 {
      q := 1;
      LargestBlock();
      MulStep(0, P32);
    } else {
      q := BlocksIn4G(log + 1);
      HalfTheSize(q, BlockSize(log));
      q := 2 * q;
    }
  }

  lemma LargestBlock()
    ensures BlockSize(22) == P32
  {
    assert BlockSize(4) == 0x4000;
    assert BlockSize(8) == 16 * BlockSize(4);
    assert BlockSize(12) == 16 * BlockSize(8);
    assert BlockSize(16) == 16 * BlockSize(12);
    assert BlockSize(20) == 16 * BlockSize(16);
  }

  lemma HalfTheSize(q: nat, b: nat)
    ensures Mul(q, 2 * b) == Mul(2 * q, b)
  {
  }

  lemma {:induction false} BlockSizeIs(log: nat)
    ensures BlockSize(log) >= 1024 && BlockSize(log) % 1024 == 0
  {
    if log > 0 {
      BlockSizeIs(log - 1);
    }
  }

  ghost predicate AllSet(bits: seq<bool>) { forall k | 0 <= k < |bits| :: bits[k] }

  class FS {
    const blockSize: nat
    const blocksPerGroup: nat
    const inodesPerGroup: nat
    var disk: seq<seq<byte>>
    var blockBitmaps: seq<seq<bool>>
    var inodeBitmaps: seq<seq<bool>>
    var bgd: seq<GroupDescriptor>
    var freeBlocksCount: nat
    var freeInodesCount: nat

    /** A partition as it is mounted: its superblock says the block size, and its books are right. */
    constructor (logBlockSize: nat, blocksPerGroup: nat, inodesPerGroup: nat, disk: seq<seq<byte>>,
                 blockBitmaps: seq<seq<bool>>, inodeBitmaps: seq<seq<bool>>, bgd: seq<GroupDescriptor>,
                 freeBlocksCount: nat, freeInodesCount: nat)
      requires logBlockSize <= 22 && bgd != [] && |disk| <= P32
      requires forall b | b in disk :: |b| == BlockSize(logBlockSize)
      requires forall b | b in blockBitmaps + inodeBitmaps :: |b| == 8 * BlockSize(logBlockSize)
      requires Accounted(Alloc(blocksPerGroup, blockBitmaps, BlockCounts(bgd), freeBlocksCount))
      requires Accounted(Alloc(inodesPerGroup, inodeBitmaps, InodeCounts(bgd), freeInodesCount))
      requires forall n | n in Free(Alloc(blocksPerGroup, blockBitmaps, BlockCounts(bgd), freeBlocksCount)) ::
        n < |disk|
      ensures Valid() && this.blockSize == BlockSize(logBlockSize) && this.disk == disk
      ensures Blocks() == Alloc(blocksPerGroup, blockBitmaps, BlockCounts(bgd), freeBlocksCount)
      ensures Inodes() == Alloc(inodesPerGroup, inodeBitmaps, InodeCounts(bgd), freeInodesCount)
    {
      BlockSizeDivides(logBlockSize);
      this.blockSize := BlockSize(logBlockSize);
      this.blocksPerGroup, this.inodesPerGroup, this.disk := blocksPerGroup, inodesPerGroup, disk;
      this.blockBitmaps, this.inodeBitmaps, this.bgd := blockBitmaps, inodeBitmaps, bgd;
      this.freeBlocksCount, this.freeInodesCount := freeBlocksCount, freeInodesCount;
      new;
      assert forall b | b in blockBitmaps :: b in blockBitmaps + inodeBitmaps;
      assert forall b | b in inodeBitmaps :: b in blockBitmaps + inodeBitmaps;
    }

    ghost function Blocks(): Alloc
      reads this
    {
      Alloc(blocksPerGroup, blockBitmaps, BlockCounts(bgd), freeBlocksCount)
    }

    ghost function Inodes(): Alloc
      reads this
    {
      Alloc(inodesPerGroup, inodeBitmaps, InodeCounts(bgd), freeInodesCount)
    }

    ghost predicate Valid()
      reads this
    {
      && bgd != []
      && blockSize >= 1024 && blockSize % 1024 == 0 && Mod(P32, blockSize) == 0
      && Accounted(Blocks()) && Accounted(Inodes())
      && (forall b | b in blockBitmaps :: |b| == 8 * blockSize)
      && (forall b | b in inodeBitmaps :: |b| == 8 * blockSize)
      && |disk| <= P32
      && (forall n | n in Free(Blocks()) :: n < |disk|)
      && (forall b | b in disk :: |b| == blockSize)
    }

    /** Bit k of group g, that of block `number`, is clear: mark it used, in the bitmap, in the
        descriptor of the group and in the superblock. */
    method TakeBlockBit(g: nat, k: nat, ghost number: nat)
      requires Valid() && g < |bgd| && k < |blockBitmaps[g]|
      requires IsFree(Blocks(), number) && Div(number, blocksPerGroup) == g && Mod(number, blocksPerGroup) == k
      modifies this`blockBitmaps, this`bgd, this`freeBlocksCount
      ensures Valid() && Inodes() == old(Inodes()) && Taken(old(Blocks()), Blocks(), number)
        && DirCounts(bgd) == DirCounts(old(bgd))
      ensures !old(blockBitmaps)[g][k]
      ensures blockBitmaps == old(blockBitmaps)[g := old(blockBitmaps)[g][k := true]]
      ensures bgd == old(bgd)[g := old(bgd)[g].(freeBlocks := bgd[g].freeBlocks)]
      ensures bgd[g].freeBlocks + 1 == old(bgd)[g].freeBlocks && freeBlocksCount + 1 == old(freeBlocksCount)
    {
      hide Free, Take, Mul, Div, Mod, Accounted;
      ghost var before := Blocks();
      BooksAreShaped(before);
      TakeKeepsAccounts(before, number);
      TakeIs(before, g, k, number);
      var d := bgd[g].(freeBlocks := bgd[g].freeBlocks - 1);
      BlockCountsUpdated(bgd, g, d);
      blockBitmaps := blockBitmaps[g := blockBitmaps[g][k := true]];
      bgd := bgd[g := d];
      freeBlocksCount := freeBlocksCount - 1;
    }

    method TakeFirstBlock(g: nat) returns (number: nat)
      requires Valid() && g < |bgd| && bgd[g].freeBlocks != 0
      modifies this`blockBitmaps, this`bgd, this`freeBlocksCount
      ensures Valid() && Inodes() == old(Inodes()) && Taken(old(Blocks()), Blocks(), number) && number < |disk|
      ensures DirCounts(bgd) == DirCounts(old(bgd)) && Div(number, blocksPerGroup) == g
      ensures var k := Mod(number, blocksPerGroup);
        && k < |old(blockBitmaps)[g]| && !old(blockBitmaps)[g][k]
        && (forall i | 0 <= i < k :: old(blockBitmaps)[g][i])
        && blockBitmaps == old(blockBitmaps)[g := old(blockBitmaps)[g][k := true]]
      ensures bgd == old(bgd)[g := old(bgd)[g].(freeBlocks := bgd[g].freeBlocks)]
      ensures bgd[g].freeBlocks + 1 == old(bgd)[g].freeBlocks && freeBlocksCount + 1 == old(freeBlocksCount)
    {
      hide Div, Mod, Mul, Free, IsFree, Sum, DirCounts;
      ghost var before := Blocks();
      ClearBitExists(before, bgd, g);
      var k := ScanBitmap(blockBitmaps[g]);
      number := Mul(g, blocksPerGroup) + k;
      NumberOfBit(before, g, k, number);
      TakeBlockBit(g, k, number);
    }

    /** getNewBlock: the first clear bit of the first group with one, starting from the group of
        `nearInode`; None, the bsod of the source, exactly when every group is full. */
    method GetNewBlock(nearInode: nat) returns (r: Option<nat>)
      requires Valid() && nearInode >= 1
      modifies this`blockBitmaps, this`bgd, this`freeBlocksCount
      ensures Valid() && Inodes() == old(Inodes()) && DirCounts(bgd) == DirCounts(old(bgd)) && |bgd| == |old(bgd)|
      ensures r.None? ==> Blocks() == old(Blocks()) && Free(Blocks()) == {} && freeBlocksCount == 0
      ensures r.Some? ==> Taken(old(Blocks()), Blocks(), r.value) && r.value < |disk|
      ensures r.Some? ==> IsFirstFrom(old(Blocks()), Div(nearInode - 1, inodesPerGroup), r.value)
      ensures r.None? ==> forall b | b in blockBitmaps :: AllSet(b)
      ensures r.Some? ==>
        var start, g, k := Mod(Div(nearInode - 1, inodesPerGroup), |bgd|), Div(r.value, blocksPerGroup),
          Mod(r.value, blocksPerGroup);
        && g < |bgd| && k < |old(blockBitmaps)[g]| && !old(blockBitmaps)[g][k]
        && (forall i | 0 <= i < k :: old(blockBitmaps)[g][i])
        && (forall h | 0 <= h < |bgd| && (if start <= g then start <= h < g else start <= h || h < g) ::
             AllSet(old(blockBitmaps)[h]))
        && blockBitmaps == old(blockBitmaps)[g := old(blockBitmaps)[g][k := true]]
        && bgd == old(bgd)[g := old(bgd)[g].(freeBlocks := bgd[g].freeBlocks)]
        && bgd[g].freeBlocks + 1 == old(bgd)[g].freeBlocks && freeBlocksCount + 1 == old(freeBlocksCount)
    {
      hide Div, Mod, Mul, Visited, Free, IsFree, Sum, DirCounts, OneMore;
      var blockGroup := Div(nearInode - 1, inodesPerGroup);
      ghost var before := Blocks();
      var i := 0;
      while i < |bgd|
        invariant i <= |bgd| && Blocks() == before && Inodes() == old(Inodes()) && bgd == old(bgd)
        invariant forall j: nat | j < i :: Clear(before.bits[Visited(blockGroup, j, |bgd|)]) == {}
      {
        var g := Visited(blockGroup, i, |bgd|);
        if bgd[g].freeBlocks != 0 {
          var number := TakeFirstBlock(g);
          FirstFromIs(before, blockGroup, i, number);
          FirstFromTells(before, blockGroup, number);
          return Some(number);
        }
        assert |Clear(before.bits[g])| == 0;
        i := i + 1;
      }
      AllFull(before, blockGroup);
      r := None;
    }

    /** freeBlock: the bit must be set, as the source asserts. */
    method FreeBlock(block: nat)
      requires Valid() && InUse(Blocks(), block) && block < |disk|
      modifies this`blockBitmaps, this`bgd, this`freeBlocksCount
      ensures Valid() && Inodes() == old(Inodes()) && Given(old(Blocks()), Blocks(), block)
        && DirCounts(bgd) == DirCounts(old(bgd))
      ensures var g, k := Div(block, blocksPerGroup), Mod(block, blocksPerGroup);
        && g < |bgd| == |old(bgd)| && k < |old(blockBitmaps)[g]|
        && blockBitmaps == old(blockBitmaps)[g := old(blockBitmaps)[g][k := false]]
        && bgd == old(bgd)[g := old(bgd)[g].(freeBlocks := old(bgd)[g].freeBlocks + 1)]
        && freeBlocksCount == old(freeBlocksCount) + 1
    {
      hide Free, Give, Mul, Div, Mod, Accounted;
      ghost var before := Blocks();
      BooksAreShaped(before);
      GiveKeepsAccounts(before, block);
      var g, k := Div(block, blocksPerGroup), Mod(block, blocksPerGroup);
      GiveIs(before, g, k, block);
      var bitmap := blockBitmaps[g];
      assert bitmap[k];
      bitmap := bitmap[k := false];
      blockBitmaps := blockBitmaps[g := bitmap];
      var d := bgd[g].(freeBlocks := bgd[g].freeBlocks + 1);
      BlockCountsUpdated(bgd, g, d);
      bgd := bgd[g := d];
      freeBlocksCount := freeBlocksCount + 1;
    }

    method TakeInodeBit(g: nat, k: nat, isDirectory: bool, ghost number: nat)
      requires Valid() && g < |bgd| && k < |inodeBitmaps[g]|
      requires IsFree(Inodes(), number) && Div(number, inodesPerGroup) == g && Mod(number, inodesPerGroup) == k
      modifies this`inodeBitmaps, this`bgd, this`freeInodesCount
      ensures Valid() && Blocks() == old(Blocks()) && Taken(old(Inodes()), Inodes(), number)
      ensures DirCounts(bgd) == if isDirectory then OneMore(DirCounts(old(bgd)), g) else DirCounts(old(bgd))
      ensures !old(inodeBitmaps)[g][k]
      ensures inodeBitmaps == old(inodeBitmaps)[g := old(inodeBitmaps)[g][k := true]]
      ensures old(bgd)[g].freeInodes > 0 && old(freeInodesCount) > 0
      ensures bgd == old(bgd)[g := GroupDescriptor(old(bgd)[g].freeBlocks, old(bgd)[g].freeInodes - 1,
                                                   old(bgd)[g].usedDirs + if isDirectory then 1 else 0)]
      ensures freeInodesCount == old(freeInodesCount) - 1
    {
      hide Free, Take, Mul, Div, Mod, Accounted;
      ghost var before := Inodes();
      BooksAreShaped(before);
      TakeKeepsAccounts(before, number);
      TakeIs(before, g, k, number);
      var d := bgd[g].(freeInodes := bgd[g].freeInodes - 1);
      if isDirectory {
        d := d.(usedDirs := d.usedDirs + 1);
      }
      InodeCountsUpdated(bgd, g, d);
      inodeBitmaps := inodeBitmaps[g := inodeBitmaps[g][k := true]];
      bgd := bgd[g := d];
      freeInodesCount := freeInodesCount - 1;
    }

    method TakeFirstInode(i: nat, isDirectory: bool) returns (number: nat)
      requires Valid() && i < |bgd| && bgd[i].freeInodes != 0
      modifies this`inodeBitmaps, this`bgd, this`freeInodesCount
      ensures Valid() && Blocks() == old(Blocks()) && Taken(old(Inodes()), Inodes(), number)
      ensures Div(number, inodesPerGroup) == i
      ensures DirCounts(bgd) == if isDirectory then OneMore(DirCounts(old(bgd)), i) else DirCounts(old(bgd))
      ensures var k := Mod(number, inodesPerGroup);
        && k < |old(inodeBitmaps)[i]| && !old(inodeBitmaps)[i][k]
        && (forall j | 0 <= j < k :: old(inodeBitmaps)[i][j])
        && inodeBitmaps == old(inodeBitmaps)[i := old(inodeBitmaps)[i][k := true]]
      ensures old(bgd)[i].freeInodes > 0 && old(freeInodesCount) > 0
      ensures bgd == old(bgd)[i := GroupDescriptor(old(bgd)[i].freeBlocks, old(bgd)[i].freeInodes - 1,
                                                   old(bgd)[i].usedDirs + if isDirectory then 1 else 0)]
      ensures freeInodesCount == old(freeInodesCount) - 1
    {
      hide Div, Mod, Mul, Free, IsFree, Sum, DirCounts, OneMore;
      ghost var before := Inodes();
      InodeBitExists(before, bgd, i);
      var k := ScanBitmap(inodeBitmaps[i]);
      number := Mul(i, inodesPerGroup) + k;
      NumberOfBit(before, i, k, number);
      TakeInodeBit(i, k, isDirectory, number);
    }

    /** getNewInode: the first clear bit of the first group with one; inode numbers start at 1. */
    method GetNewInode(isDirectory: bool) returns (r: Option<nat>)
      requires Valid()
      modifies this`inodeBitmaps, this`bgd, this`freeInodesCount
      ensures Valid() && Blocks() == old(Blocks())
      ensures r.None? ==> Inodes() == old(Inodes()) && Free(Inodes()) == {} && freeInodesCount == 0
      ensures r.Some? ==>
        && r.value >= 1 && Taken(old(Inodes()), Inodes(), r.value - 1)
      ensures DirCounts(bgd) ==
        if r.Some? && isDirectory then OneMore(DirCounts(old(bgd)), Div(r.value - 1, inodesPerGroup))
        else DirCounts(old(bgd))
      ensures r.None? ==> forall b | b in inodeBitmaps :: AllSet(b)
      ensures r.Some? ==>
        var g, k := Div(r.value - 1, inodesPerGroup), Mod(r.value - 1, inodesPerGroup);
        && g < |old(bgd)| && k < |old(inodeBitmaps)[g]| && !old(inodeBitmaps)[g][k]
        && (forall i | 0 <= i < k :: old(inodeBitmaps)[g][i])
        && (forall h | 0 <= h < g :: AllSet(old(inodeBitmaps)[h]))
        && inodeBitmaps == old(inodeBitmaps)[g := old(inodeBitmaps)[g][k := true]]
        && |bgd| == |old(bgd)| && bgd == old(bgd)[g := bgd[g]] && bgd[g].freeBlocks == old(bgd)[g].freeBlocks
        && bgd[g].freeInodes + 1 == old(bgd)[g].freeInodes && freeInodesCount + 1 == old(freeInodesCount)
        && bgd[g].usedDirs == old(bgd)[g].usedDirs + if isDirectory then 1 else 0
    {
      hide Div, Mod, Mul, Visited, Free, IsFree, Sum, DirCounts, OneMore;
      ghost var before := Inodes();
      var i := 0;
      while i < |bgd|
        invariant i <= |bgd| && Inodes() == before && Blocks() == old(Blocks()) && bgd == old(bgd)
        invariant forall h: nat | h < i :: AllSet(inodeBitmaps[h])
      {
        if bgd[i].freeInodes != 0 {
          var number := TakeFirstInode(i, isDirectory);
          return Some(number + 1);
        }
        assert |Clear(before.bits[i])| == 0;
        NoneClear(before.bits[i]);
        i := i + 1;
      }
      AllSetIsFull(before);
      r := None;
    }

    method FreeInode(inode: nat, isDirectory: bool)
      requires Valid() && inode >= 1 && InUse(Inodes(), inode - 1)
      requires isDirectory ==> bgd[Div(inode - 1, inodesPerGroup)].usedDirs > 0
      modifies this`inodeBitmaps, this`bgd, this`freeInodesCount
      ensures Valid() && Blocks() == old(Blocks()) && Given(old(Inodes()), Inodes(), inode - 1)
      ensures var g := Div(inode - 1, inodesPerGroup);
              DirCounts(bgd) == if isDirectory then DirCounts(old(bgd))[g := old(bgd)[g].usedDirs - 1]
                else DirCounts(old(bgd))
      ensures var g, k := Div(inode - 1, inodesPerGroup), Mod(inode - 1, inodesPerGroup);
        && g < |bgd| == |old(bgd)| && k < |old(inodeBitmaps)[g]|
        && inodeBitmaps == old(inodeBitmaps)[g := old(inodeBitmaps)[g][k := false]]
        && bgd == old(bgd)[g := GroupDescriptor(old(bgd)[g].freeBlocks, old(bgd)[g].freeInodes + 1,
                                                old(bgd)[g].usedDirs - if isDirectory then 1 else 0)]
        && freeInodesCount == old(freeInodesCount) + 1
    {
      hide Free, Give, Mul, Div, Mod, Accounted;
      ghost var before := Inodes();
      BooksAreShaped(before);
      GiveKeepsAccounts(before, inode - 1);
      var g, k := Div(inode - 1, inodesPerGroup), Mod(inode - 1, inodesPerGroup);
      GiveIs(before, g, k, inode - 1);
      var bitmap := inodeBitmaps[g];
      assert bitmap[k];
      bitmap := bitmap[k := false];
      inodeBitmaps := inodeBitmaps[g := bitmap];
      var d := bgd[g].(freeInodes := bgd[g].freeInodes + 1);
      if isDirectory {
        d := d.(usedDirs := d.usedDirs - 1);
      }
      InodeCountsUpdated(bgd, g, d);
      bgd := bgd[g := d];
      freeInodesCount := freeInodesCount + 1;
    }
  }

  function OneMore(c: seq<nat>, g: nat): seq<nat> {
    if g < |c| then c[g := c[g] + 1] else c
  }

  function DirCounts(bgd: seq<GroupDescriptor>): (c: seq<nat>)
    ensures |c| == |bgd|
  {
    seq(|bgd|, g requires 0 <= g < |bgd| => bgd[g].usedDirs)
  }

  lemma GiveIs(a: Alloc, g: nat, k: nat, n: nat)
    requires a.per > 0 && InUse(a, n) && |a.bits| == |a.counts| && Div(n, a.per) == g && Mod(n, a.per) == k
    ensures Give(a, n) == Alloc(a.per, a.bits[g := a.bits[g][k := false]], a.counts[g := a.counts[g] + 1], a.total + 1)
  {
  }

  lemma InodeBitExists(a: Alloc, bgd: seq<GroupDescriptor>, g: nat)
    requires Accounted(a) && a.counts == InodeCounts(bgd) && g < |bgd| && bgd[g].freeInodes != 0
    ensures exists k :: 0 <= k < |a.bits[g]| && !a.bits[g][k]
  {
    var k :| k in Clear(a.bits[g]);
  }

  lemma ClearBitExists(a: Alloc, bgd: seq<GroupDescriptor>, g: nat)
    requires Accounted(a) && a.counts == BlockCounts(bgd) && g < |bgd| && bgd[g].freeBlocks != 0
    ensures exists k :: 0 <= k < |a.bits[g]| && !a.bits[g][k]
  {
    var k :| k in Clear(a.bits[g]);
  }

  /** The group is the first with a clear bit from group `start` on, the bit its first clear one. */
  ghost predicate IsFirstFrom(a: Alloc, start: nat, n: nat)
    requires Shaped(a) && a.bits != []
  {
    exists i: nat ::
      && i < |a.bits| && Div(n, a.per) == Visited(start, i, |a.bits|)
      && (forall j: nat | j < i :: Clear(a.bits[Visited(start, j, |a.bits|)]) == {})
      && forall k | 0 <= k < Mod(n, a.per) && k < |a.bits[Div(n, a.per)]| :: a.bits[Div(n, a.per)][k]
  }

  lemma FirstFromIs(a: Alloc, start: nat, i: nat, n: nat)
    requires Shaped(a) && i < |a.bits| && Div(n, a.per) == Visited(start, i, |a.bits|)
    requires forall j: nat | j < i :: Clear(a.bits[Visited(start, j, |a.bits|)]) == {}
    requires forall k | 0 <= k < Mod(n, a.per) && k < |a.bits[Div(n, a.per)]| :: a.bits[Div(n, a.per)][k]
    ensures IsFirstFrom(a, start, n)
  {
    hide Div, Mod, Visited;
    var g := Visited(start, i, |a.bits|);
  }

  lemma NoneClear(bits: seq<bool>)
    requires Clear(bits) == {}
    ensures AllSet(bits)
  {
    assert forall k | 0 <= k < |bits| && !bits[k] :: k in Clear(bits);
  }

  /** All bits are set in the groups from `start` on that come before that of number n. */
  lemma FirstFromTells(a: Alloc, start: nat, n: nat)
    requires Shaped(a) && a.bits != [] && IsFirstFrom(a, start, n)
    ensures var s, g := Mod(start, |a.bits|), Div(n, a.per);
      && g < |a.bits|
      && forall h | 0 <= h < |a.bits| && (if s <= g then s <= h < g else s <= h || h < g) :: AllSet(a.bits[h])
  {
    hide Div, Mod, Visited, Clear, AllSet;
    var s, g, m := Mod(start, |a.bits|), Div(n, a.per), |a.bits|;
    var i: nat :| i < m && g == Visited(start, i, m)
      && forall j: nat | j < i :: Clear(a.bits[Visited(start, j, m)]) == {};
    VisitedIs(start, i, m);
    forall h | 0 <= h < m && (if s <= g then s <= h < g else s <= h || h < g)
      ensures AllSet(a.bits[h])
    {
      var j := if s <= h then h - s else h + m - s;
      VisitedIs(start, j, m);
      assert Clear(a.bits[Visited(start, j, m)]) == {};
      NoneClear(a.bits[h]);
    }
  }

  lemma AllFull(a: Alloc, start: nat)
    requires Accounted(a) && forall j: nat | j < |a.bits| :: Clear(a.bits[Visited(start, j, |a.bits|)]) == {}
    ensures Free(a) == {} && a.total == 0 && forall b | b in a.bits :: AllSet(b)
  {
    hide Clear;
    forall g: nat | g < |a.bits|
      ensures AllSet(a.bits[g])
    {
      var i := EveryGroupIsMet(start, |a.bits|, g);
      NoneClear(a.bits[g]);
    }
    AllSetIsFull(a);
  }

  /** One free number was taken: the books still balance. */
  ghost predicate Taken(before: Alloc, after: Alloc, n: nat) {
    && Accounted(before) && Accounted(after)
    && IsFree(before, n) && before.counts[Div(n, before.per)] > 0 && before.total > 0
    && after == Take(before, n)
    && n in Free(before) && Free(after) == Free(before) - {n}
  }

  /** One used number was given back: the books still balance. */
  ghost predicate Given(before: Alloc, after: Alloc, n: nat) {
    && Accounted(before) && Accounted(after)
    && InUse(before, n) && after == Give(before, n)
    && n !in Free(before) && Free(after) == Free(before) + {n}
  }

  lemma NumberOfBit(a: Alloc, g: nat, k: nat, n: nat)
    requires Shaped(a) && g < |a.bits| && k < |a.bits[g]| && !a.bits[g][k]
    requires n == Mul(g, a.per) + k
    ensures IsFree(a, n) && Div(n, a.per) == g && Mod(n, a.per) == k
  {
    hide Mul, Div, Mod;
    DivModOf(g, k, a.per);
  }

  lemma BooksAreShaped(a: Alloc)
    requires Accounted(a)
    ensures a.per > 0 && |a.bits| == |a.counts|
  {
  }

  lemma TakeIs(a: Alloc, g: nat, k: nat, n: nat)
    requires a.per > 0 && IsFree(a, n) && |a.bits| == |a.counts| && Div(n, a.per) == g && Mod(n, a.per) == k
    requires a.counts[g] > 0 && a.total > 0
    ensures Take(a, n) == Alloc(a.per, a.bits[g := a.bits[g][k := true]], a.counts[g := a.counts[g] - 1], a.total - 1)
  {
  }

  function BlockCounts(bgd: seq<GroupDescriptor>): (c: seq<nat>)
    ensures |c| == |bgd|
  {
    seq(|bgd|, g requires 0 <= g < |bgd| => bgd[g].freeBlocks)
  }

  function InodeCounts(bgd: seq<GroupDescriptor>): (c: seq<nat>)
    ensures |c| == |bgd|
  {
    seq(|bgd|, g requires 0 <= g < |bgd| => bgd[g].freeInodes)
  }

  lemma BlockCountsUpdated(bgd: seq<GroupDescriptor>, g: nat, d: GroupDescriptor)
    requires g < |bgd| && d.freeInodes == bgd[g].freeInodes
    ensures BlockCounts(bgd[g := d]) == BlockCounts(bgd)[g := d.freeBlocks]
    ensures InodeCounts(bgd[g := d]) == InodeCounts(bgd)
    ensures BlockCounts(bgd)[g] == bgd[g].freeBlocks
  {
  }

  lemma InodeCountsUpdated(bgd: seq<GroupDescriptor>, g: nat, d: GroupDescriptor)
    requires g < |bgd| && d.freeBlocks == bgd[g].freeBlocks
    ensures InodeCounts(bgd[g := d]) == InodeCounts(bgd)[g := d.freeInodes]
    ensures BlockCounts(bgd[g := d]) == BlockCounts(bgd)
    ensures InodeCounts(bgd)[g] == bgd[g].freeInodes
  {
  }
}
