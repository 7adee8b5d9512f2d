/** Reading, writing and shrinking the bytes behind an inode (src/HDD/Ext2.cpp). */
module Ext2Inode {
  import opened Options
  import opened Arith
  import opened Bytes
  import opened Ext2Alloc
  import opened Ext2FS
  import opened Ext2Tree
  import opened Ext2Write
  import opened Ext2Layout
  import opened Ext2Resize

  /** What a read still has to do: where, how much, and what it has so far. */
  class ReadArgs {
    var addr: nat
    var size: nat
    var data: seq<byte>

    constructor (addr: nat, size: nat)
      ensures this.addr == addr && this.size == size && data == []
    {
      this.addr, this.size, data := addr, size, [];
    }
  }

  /** What a write still has to do, and the preorder number of the node it has come to. */
  class WriteArgs {
    var addr: nat
    var data: seq<byte>
    var blockNum: nat

    constructor (addr: nat, data: seq<byte>)
      ensures this.addr == addr && this.data == data && blockNum == 0
    {
      this.addr, this.data, blockNum := addr, data, 0;
    }
  }

  /** What a shrink still has to walk over: the bytes kept, and those there were. */
  class ResizeArgs {
    var sizeAfter: nat
    var sizeBefore: nat

    constructor (sizeAfter: nat, sizeBefore: nat)
      ensures this.sizeAfter == sizeAfter && this.sizeBefore == sizeBefore
    {
      this.sizeAfter, this.sizeBefore := sizeAfter, sizeBefore;
    }
  }

  class Inode {
    const fs: FS
    const number: nat
    var blocks: nat      // in units of 512 bytes
    var size: nat
    var block: seq<nat>  // the 15 roots
    ghost var ids: seq<nat>  // the block of each node, by preorder number

    constructor (fs: FS, number: nat, blocks: nat, size: nat, block: seq<nat>, ghost ids: seq<nat>)
      ensures this.fs == fs && this.number == number && this.blocks == blocks && this.size == size
      ensures this.block == block && this.ids == ids
    {
      this.fs, this.number, this.blocks, this.size, this.block, this.ids := fs, number, blocks, size, block, ids;
    }

    function K(): nat { fs.blockSize / 4 }

    ghost function V(): View
      reads this`ids, fs`disk
    {
      View(fs.disk, ids)
    }

    /** The index trees are whole and the roots point to them. */
    ghost predicate Whole()
      reads this`ids, this`block, fs`disk
    {
      && K() > 0 && Sound(K(), V()) && Small(block)
      && PointersRight(K(), V(), Roots, block) && AllTrees(K(), V(), Roots)
    }

    /** readrec on a node of level 0 or more; `p` is its preorder number. */
    method ReadRec(args: ReadArgs, level: nat, blockId: nat, ghost p: nat)
      requires K() > 0 && Sound(K(), V()) && Tree(K(), V(), p, level) && fs.blockSize == 4 * K()
      requires args.size > 0 && args.addr < Span(K(), level) ==>
                 && Cut(K(), p, level, Min(args.addr + args.size, Span(K(), level))) <= |ids|
                 && p < |ids| && blockId == ids[p]
      modifies args
      ensures Readied(K(), V(), p, level, old(args.addr), old(args.size), old(args.data), args.addr, args.size,
        args.data)
      decreases level
    {
      if args.size == 0 {
        return;
      }
      if args.addr >= Span(K(), level) {
        args.addr := args.addr - Span(K(), level);
        return;
      }
      if level == 0 {
        var count := Min(fs.blockSize - args.addr, args.size);
        ReadInBlock(K(), V(), p, args.addr, count);
        args.data := args.data + fs.disk[blockId][args.addr..args.addr + count];
        args.size := args.size - count;
        args.addr := 0;
      } else {
        ReadIndex(args, level, blockId, p);
      }
    }

    /** The loop of readrec over the children of an index block. */
    method ReadIndex(args: ReadArgs, level: nat, blockId: nat, ghost p: nat)
      requires K() > 0 && Sound(K(), V()) && Tree(K(), V(), p, level) && fs.blockSize == 4 * K()
      requires level > 0 && args.size > 0 && args.addr < Span(K(), level)
      requires Cut(K(), p, level, Min(args.addr + args.size, Span(K(), level))) <= |ids|
      requires p < |ids| && blockId == ids[p]
      modifies args
      ensures Readied(K(), V(), p, level, old(args.addr), old(args.size), old(args.data), args.addr, args.size,
        args.data)
      decreases level, 0
    {
      hide Span, Node, Addr, Cut, GroupCut, Mul, Div, Mod, Words;
      ghost var a, s, d, g := args.addr, args.size, args.data, Children(p, level);
      ghost var n := Min(s, Span(K(), level) - a);
      SpanIsTheSum(K(), p, level);
      SectionOfChildren(K(), V(), p, level, a, n);
      ChildByDivision(K(), p, level, a);
      var words := Words(fs.disk[blockId]);
      var i := Div(args.addr, Span(K(), level - 1));
      args.addr := Mod(args.addr, Span(K(), level - 1));
      while i < K()
        invariant i <= K() && GroupReadied(K(), V(), g, i, a, s, d, args.addr, args.size, args.data)
      {
        if args.size == 0 {
          break;
        }
        ghost var a1, s1, d1 := args.addr, args.size, args.data;
        ReadStepReady(K(), V(), g, i, a, s, d, a1, s1, d1, n);
        ChildOfTree(K(), V(), p, level, i);
        ReadRec(args, level - 1, words[i], Node(K(), g, i));
        ReadStep(K(), V(), g, i, a, s, d, a1, s1, d1, args.addr, args.size, args.data);
        i := i + 1;
      }
      ReadDone(K(), V(), p, level, i, a, s, d, args.addr, args.size, args.data);
    }

    /** The nodes of a file of s bytes; every u32 size is below the capacity. */
    ghost function NodesFor(s: nat): nat {
      FileNodes(K(), Min(s, Capacity(K())))
    }

    lemma BlockSizeIsLarge()
      requires Holds()
      ensures K() >= 256 && Mod(P32, 4 * K()) == 0
    {
    }

    /** i_readaddr: the bytes of the file from addr on. */
    method ReadAddr(addr: nat, size: nat) returns (data: seq<byte>)
      requires Whole() && fs.blockSize == 4 * K()
      requires addr + size <= Capacity(K()) && FileNodes(K(), addr + size) <= |ids|
      ensures data == FileSection(K(), V(), addr, size)
      ensures |data| == size && |block| == 15
      ensures forall i: nat | i < size :: data[i] == DiskByte(K(), fs.disk, block, addr + i)
    {
      hide Span, Node, Addr, Cut, GroupCut, Tree, Sound, PointersRight, AllTrees, DiskByte, GroupSection;
      var args := new ReadArgs(addr, size);
      var r := 0;
      ghost var n := size;
      NothingRead(K(), V(), addr, size);
      while r < 15
        invariant r <= 15 && GroupReadied(K(), V(), Roots, r, addr, size, [], args.addr, args.size, args.data)
      {
        ghost var a1, s1, d1 := args.addr, args.size, args.data;
        RootReady(K(), V(), block, r);
        if args.size > 0 {
          ReadStepReady(K(), V(), Roots, r, addr, size, [], a1, s1, d1, n);
        }
        ReadRec(args, Level(Roots, r), block[r], Node(K(), Roots, r));
        if s1 > 0 {
          ReadStep(K(), V(), Roots, r, addr, size, [], a1, s1, d1, args.addr, args.size, args.data);
        } else {
          NothingLeft(K(), V(), Roots, r, addr, size, [], a1, s1, d1, args.addr);
        }
        r := r + 1;
      }
      data := args.data;
      SectionOnDisk(K(), V(), block, addr, size);
    }

    /** 2 << log_block_size: the 512-byte units of a block. */
    function Unit(): nat { fs.blockSize / 512 }

    function GetBlockCount(): nat
      reads this
      requires Unit() > 0
    {
      Div(blocks, Unit())
    }

    /** Every node has a block that is marked used, and the inode counts its nodes. */
    ghost predicate Holds()
      reads this`blocks, this`ids, fs
    {
      && fs.Valid() && number >= 1 && K() > 0 && fs.blockSize == 4 * K() && Unit() > 0
      && Sound(K(), V())
      && blocks == Mul(|ids|, Unit())
      && forall q | 0 <= q < |ids| :: InUse(fs.Blocks(), ids[q])
    }

    /** A file without nodes needs no pointer. */
    lemma NewIsWhole()
      requires fs.Valid() && number >= 1 && blocks == 0 && ids == [] && block == seq(15, i => 0)
      ensures Holds() && Whole()
    {
      hide FS.Valid, FS.Blocks, FS.Inodes, InUse, Mul, Div, Mod, AllTrees, PointersRight, Small;
      BlocksAreWhole(fs);
      MulStep(0, Unit());
      NoNodes(K(), V());
    }

    /** getNewBlock and incrBlockCount(1): the next node of the numbering. */
    method NewNode() returns (id: nat)
      requires Holds() && fs.freeBlocksCount > 0
      modifies this`blocks, this`ids, fs`blockBitmaps, fs`bgd, fs`freeBlocksCount
      ensures Holds() && ids == old(ids) + [id] && fs.Inodes() == old(fs.Inodes())
      ensures Grew(old(fs.Blocks()), fs.Blocks(), [id])
    {
      hide Mul, Div, Mod, Free, IsFree, Taken, Accounted, IsFirstFrom, DirCounts, BlockCounts, InodeCounts;
      ghost var before := fs.Blocks();
      var r := fs.GetNewBlock(number);
      assert r.Some?;
      id := r.value;
      TakenIsNew(before, fs.Blocks(), ids, id);
      MulStep(|ids|, Unit());
      blocks := blocks + 1 * Unit();
      ids := ids + [id];
    }

    /** writerec on the node with preorder number p.  `id` is the pointer to it afterwards, `write`
        tells that the pointer is new. */
    method WriteRec(args: WriteArgs, level: nat, blockId: nat, ghost p: nat) returns (write: bool, id: nat)
      requires Holds() && Tree(K(), V(), p, level)
      requires args.data != [] ==> args.blockNum == p <= |ids| && (p < |ids| ==> blockId == ids[p])
      requires args.data != [] ==>
                 Cut(K(), p, level, Min(args.addr + |args.data|, Span(K(), level))) <= |ids| + fs.freeBlocksCount
      modifies args, this`blocks, this`ids, fs`disk, fs`blockBitmaps, fs`bgd, fs`freeBlocksCount
      ensures Holds() && Wrote(K(), old(V()), V(), p, level, old(args.addr), old(args.data))
      ensures Grew(old(fs.Blocks()), fs.Blocks(), ids[|old(ids)|..]) && fs.Inodes() == old(fs.Inodes())
      ensures args.data == Rest(old(args.data), old(args.addr), Span(K(), level))
      ensures args.data != [] ==>
        && args.addr == RestAddr(old(args.addr), Span(K(), level))
        && args.blockNum == p + Nodes(K(), level)
      ensures old(args.data) != [] ==> p < |ids| && id == ids[p] && (write <==> p == |old(ids)|)
      ensures old(args.data) == [] ==> !write
      ensures !write ==> id == blockId
      decreases level, 3
    {
      hide Span, Cut, Nodes, Mul, Div, Mod, Tree, Accounted, Free;
      if args.data == [] {
        write, id := false, blockId;
        WroteNothing(p, level, args.addr);
        return;
      }
      CountIsNodes();
      var canSkip := args.blockNum + Nodes(K(), level) - 1 < GetBlockCount();
      if canSkip && args.addr >= Span(K(), level) {
        args.blockNum := args.blockNum + Nodes(K(), level);
        args.addr := args.addr - Span(K(), level);
        write, id := false, blockId;
        PassedOver(K(), V(), p, level, old(args.addr), args.data);
        GrewByNothing(fs.Blocks());
        return;
      }
      if level == 0 {
        CutOfBlock(K(), p, Min(args.addr + |args.data|, Span(K(), 0)));
        write, id := WriteLeaf(args, blockId, p);
      } else {
        write, id := WriteIndex(args, level, blockId, canSkip, p);
      }
    }

    lemma CountIsNodes()
      requires Holds()
      ensures GetBlockCount() == |ids|
    {
      hide Mul, Div, Mod;
      DivModOf(|ids|, 0, Unit());
    }

    lemma WroteNothing(p: nat, level: nat, a: nat)
      requires Holds() && Tree(K(), V(), p, level)
      ensures Wrote(K(), V(), V(), p, level, a, []) && Grew(fs.Blocks(), fs.Blocks(), ids[|ids|..])
      ensures Rest([], a, Span(K(), level)) == []
    {
      hide Tree, Span, Cut, Mul, Div, Mod;
      NothingToWrite(K(), V(), p, level, a);
      GrewByNothing(fs.Blocks());
    }

    /** The part of writerec for a data block. */
    method WriteLeaf(args: WriteArgs, blockId: nat, ghost p: nat) returns (write: bool, id: nat)
      requires Holds() && args.data != [] && args.blockNum == p <= |ids| && (p < |ids| ==> blockId == ids[p])
      requires p + 1 <= |ids| + fs.freeBlocksCount
      modifies args, this`blocks, this`ids, fs`disk, fs`blockBitmaps, fs`bgd, fs`freeBlocksCount
      ensures Holds() && Wrote(K(), old(V()), V(), p, 0, old(args.addr), old(args.data))
      ensures Grew(old(fs.Blocks()), fs.Blocks(), ids[|old(ids)|..]) && fs.Inodes() == old(fs.Inodes())
      ensures args.data == Rest(old(args.data), old(args.addr), Span(K(), 0))
      ensures args.data != [] ==>
        && args.addr == RestAddr(old(args.addr), Span(K(), 0))
        && args.blockNum == p + Nodes(K(), 0)
      ensures p < |ids| && id == ids[p] && (write <==> p == |old(ids)|)
      ensures !write ==> id == blockId
    {
      hide Cut, Mul, Div, Mod, Accounted, Free, Wrote, Holds, Grew, SameBut, Overwritten, Sound;
      HoldsIsSound();
      ghost var v, a, d := V(), args.addr, args.data;
      write, id := NodeAt(args.blockNum, blockId, p);
      HoldsIsSound();
      ghost var x := V();
      BlockOfNode(p);
      if args.addr < fs.blockSize {
        var count := Min(fs.blockSize - args.addr, |args.data|);
        PutBlock(id, Overwritten(fs.disk[id], args.addr, args.data[..count]), p);
        args.data := args.data[count..];
        args.addr := 0;
      } else {
        args.addr := args.addr - fs.blockSize;
      }
      args.blockNum := args.blockNum + 1;
      HoldsIsSound();
      LeafDone(K(), v, x, V(), p, a, d);
    }

    /** The node with number p: allocated when the inode has no more nodes than that. */
    method NodeAt(blockNum: nat, blockId: nat, ghost p: nat) returns (added: bool, id: nat)
      requires Holds() && blockNum == p <= |ids| && (p < |ids| ==> blockId == ids[p])
      requires p + 1 <= |ids| + fs.freeBlocksCount
      modifies this`blocks, this`ids, fs`blockBitmaps, fs`bgd, fs`freeBlocksCount
      ensures Holds() && MayHaveAdded(old(V()), V(), p) && p < |ids| && id == ids[p]
      ensures Grew(old(fs.Blocks()), fs.Blocks(), ids[|old(ids)|..]) && fs.Inodes() == old(fs.Inodes())
      ensures added <==> p == |old(ids)|
      ensures !added ==> id == blockId
    {
      hide Mul, Div, Mod, Accounted, Free, Grew;
      added, id := false, blockId;
      CountIsNodes();
      GrewByNothing(fs.Blocks());
      assert ids[|ids|..] == [];
      if blockNum >= GetBlockCount() {
        assert blockNum == GetBlockCount();
        id := NewNode();
        added := true;
        assert ids[|old(ids)|..] == [id];
      }
    }

    /** The block of node q gets new contents. */
    method PutBlock(id: nat, content: seq<byte>, ghost q: nat)
      requires Holds() && q < |ids| && id == ids[q] && |content| == 4 * K()
      modifies fs`disk
      ensures Holds() && id < |old(fs.disk)| && fs.disk == old(fs.disk)[id := content]
      ensures fs.Blocks() == old(fs.Blocks()) && fs.Inodes() == old(fs.Inodes())
      ensures SameBut(old(V()), V(), q, q + 1)
    {
      hide Mul, Div, Mod, Accounted, Free;
      fs.disk := fs.disk[id := content];
      forall b | 0 <= b < |fs.disk| && fs.disk[b] != old(fs.disk)[b]
        ensures exists r :: q <= r < q + 1 && r < |ids| && ids[r] == b
      {
        assert ids[q] == b;
      }
    }

    lemma BlockOfNode(q: nat)
      requires Holds() && q < |ids|
      ensures ids[q] < |fs.disk| && |fs.disk[ids[q]]| == 4 * K() == fs.blockSize
    {
    }

    lemma HoldsIsSound()
      requires Holds()
      ensures K() > 0 && Sound(K(), V()) && fs.blockSize == 4 * K() && Unit() > 0 && Accounted(fs.Blocks())
    {
    }

    /** The part of writerec for an index block. */
    method WriteIndex(args: WriteArgs, level: nat, blockId: nat, canSkip: bool, ghost p: nat)
      returns (write: bool, id: nat)
      requires Holds() && Tree(K(), V(), p, level) && level > 0
      requires args.data != [] && args.blockNum == p <= |ids| && (p < |ids| ==> blockId == ids[p])
      requires Cut(K(), p, level, Min(args.addr + |args.data|, Span(K(), level))) <= |ids| + fs.freeBlocksCount
      requires canSkip ==> p + Nodes(K(), level) <= |ids| && args.addr < Span(K(), level)
      modifies args, this`blocks, this`ids, fs`disk, fs`blockBitmaps, fs`bgd, fs`freeBlocksCount
      ensures Holds() && Wrote(K(), old(V()), V(), p, level, old(args.addr), old(args.data))
      ensures Grew(old(fs.Blocks()), fs.Blocks(), ids[|old(ids)|..]) && fs.Inodes() == old(fs.Inodes())
      ensures args.data == Rest(old(args.data), old(args.addr), Span(K(), level))
      ensures args.data != [] ==>
        && args.addr == RestAddr(old(args.addr), Span(K(), level))
        && args.blockNum == p + Nodes(K(), level)
      ensures p < |ids| && id == ids[p] && (write <==> p == |old(ids)|)
      ensures !write ==> id == blockId
      decreases level, 2
    {
      hide Span, Cut, GroupCut, Nodes, Node, Addr, Mul, Div, Mod, Words, Block, Tree, AllTrees, PointersRight,
        GroupWrote, Wrote, Grew, Accounted, Free, Holds, Sound, SameBut, Rest, RestAddr, Small;
      HoldsIsSound();
      ghost var v, a, d, b0 := V(), args.addr, args.data, fs.Blocks();
      IndexReady(K(), p, level, a, d);
      var buf, starti;
      write, id, buf, starti := EnterIndex(args, level, blockId, canSkip, p);
      ghost var x, b1 := V(), fs.Blocks();
      HoldsIsSound();
      var changed: bool;
      changed, buf := WriteChildren(args, level, buf, starti, p, a, d);
      assert !write || changed;
      LeaveIndex(level, id, changed, buf, p, a, d, v, x);
      GrewTwice(b0, b1, fs.Blocks(), x.ids[|v.ids|..], ids[|x.ids|..]);
      TailsJoin(v.ids, x.ids, ids);
    }

    /** Up to the loop: the node is there, its pointers are in the buffer, and the children the
        write starts behind are passed over. */
    method EnterIndex(args: WriteArgs, level: nat, blockId: nat, canSkip: bool, ghost p: nat)
      returns (write: bool, id: nat, buf: seq<nat>, starti: nat)
      requires Holds() && Tree(K(), V(), p, level) && level > 0
      requires args.data != [] && args.blockNum == p <= |ids| && (p < |ids| ==> blockId == ids[p])
      requires Cut(K(), p, level, Min(args.addr + |args.data|, Span(K(), level))) <= |ids| + fs.freeBlocksCount
      requires canSkip ==> p + Nodes(K(), level) <= |ids| && args.addr < Span(K(), level)
      modifies args, this`blocks, this`ids, fs`blockBitmaps, fs`bgd, fs`freeBlocksCount
      ensures Holds() && MayHaveAdded(old(V()), V(), p) && p < |ids| && id == ids[p]
      ensures Grew(old(fs.Blocks()), fs.Blocks(), ids[|old(ids)|..]) && fs.Inodes() == old(fs.Inodes())
      ensures (write <==> p == |old(ids)|) && (!write ==> id == blockId)
      ensures PointersRight(K(), V(), Children(p, level), buf) && |buf| == K() && Small(buf)
      ensures if write then starti == 0 && |ids| == p + 1 else id < |fs.disk| && buf == Words(fs.disk[id])
      ensures starti <= K() && Writing(args, Children(p, level), starti, old(args.addr), old(args.data), V(),
        fs.Blocks())
      ensures |ids| + fs.freeBlocksCount == |old(ids)| + old(fs.freeBlocksCount)
    {
      hide Span, Cut, GroupCut, Nodes, Node, Addr, Mul, Div, Mod, Words, Block, Tree, AllTrees, PointersRight,
        GroupWrote, Grew, Accounted, Free, Holds, Sound, SameBut, Rest, RestAddr, Small;
      HoldsIsSound();
      ghost var v, a, d, b0 := V(), args.addr, args.data, fs.Blocks();
      IndexReady(K(), p, level, a, d);
      write, id := NodeAt(args.blockNum, blockId, p);
      HoldsIsSound();
      SpaceKept(b0, fs.Blocks(), ids[|v.ids|..]);
      BlockOfNode(p);
      buf := if write then seq(K(), _ => 0) else Words(fs.disk[id]);
      IndexBuffer(K(), v, V(), p, level, buf, write);
      SkipIsFull(K(), p, level, canSkip, write, |v.ids|);
      args.blockNum := args.blockNum + 1;
      starti := 0;
      if canSkip {
        starti := Div(args.addr, Span(K(), level - 1));
        args.addr := Mod(args.addr, Span(K(), level - 1));
        args.blockNum := args.blockNum + Mul(starti, Nodes(K(), level - 1));
      }
      StartOfWrite(K(), V(), p, level, starti, a, d, canSkip);
      GrewByNothing(fs.Blocks());
      assert ids[|ids|..] == [];
    }

    /** Behind the loop: the buffer goes to disk when a pointer changed. */
    method LeaveIndex(level: nat, id: nat, changed: bool, buf: seq<nat>, ghost p: nat, ghost a: nat, ghost d: seq<byte>,
                      ghost v: View, ghost x: View)
      requires Holds() && level > 0 && d != [] && Sound(K(), v) && Sound(K(), x) && p < |x.ids| && p < |ids|
        && id == ids[p]
      requires MayHaveAdded(v, x, p) && GroupWrote(K(), x, V(), Children(p, level), K(), a, d)
      requires PointersRight(K(), V(), Children(p, level), buf) && |buf| == K() && Small(buf)
      requires !changed ==> id < |x.disk| && id == x.ids[p] && buf == Words(x.disk[id])
      modifies fs`disk
      ensures Holds() && Wrote(K(), v, V(), p, level, a, d)
      ensures fs.Blocks() == old(fs.Blocks()) && fs.Inodes() == old(fs.Inodes())
    {
      hide Span, Cut, GroupCut, Nodes, Node, Addr, Mul, Div, Mod, Words, Block, Tree, AllTrees, PointersRight,
        GroupWrote, Wrote, Accounted, Free, Holds, Sound, SameBut, Rest, RestAddr, Small;
      HoldsIsSound();
      ghost var w := V();
      BlockOfNode(p);
      IndexBlockKept(K(), x, w, p, level, a, d);
      if changed {
        PutBlock(id, Block(buf), p);
      }
      IndexBlockWritten(K(), w, V(), p, level, buf);
      HoldsIsSound();
      IndexDone(K(), v, x, w, V(), p, level, a, d);
    }

    /** Between two siblings of a write of data d at address a of group g: x was the view and b0 the
        books before sibling 0, siblings 0..i are written, the rest starts at sibling i. */
    ghost predicate Writing(args: WriteArgs, g: Group, i: nat, a: nat, d: seq<byte>, x: View, b0: Alloc)
      reads args, this`blocks, this`ids, fs
    {
      && Holds() && Sound(K(), V()) && Sound(K(), x) && Ok(g) && x.ids <= ids
      && GroupWrote(K(), x, V(), g, i, a, d)
      && args.data == Rest(d, a, Addr(K(), g, i))
      && (args.data != [] ==> args.addr == RestAddr(a, Addr(K(), g, i)) && args.blockNum == Node(K(), g, i))
      && Grew(b0, fs.Blocks(), ids[|x.ids|..])
    }

    /** The loop of writerec over the children of node p from child `starti` on. */
    method WriteChildren(args: WriteArgs, level: nat, buf0: seq<nat>, starti: nat, ghost p: nat, ghost a: nat,
                         ghost d: seq<byte>)
      returns (changed: bool, buf: seq<nat>)
      requires level > 0 && p < |ids| && starti <= K() == |buf0| && d != []
      requires Writing(args, Children(p, level), starti, a, d, V(), fs.Blocks())
      requires PointersRight(K(), V(), Children(p, level), buf0) && Small(buf0)
      requires GroupNeeds(K(), Children(p, level), a, d) <= |ids| + fs.freeBlocksCount
      modifies args, this`blocks, this`ids, fs`disk, fs`blockBitmaps, fs`bgd, fs`freeBlocksCount
      ensures Writing(args, Children(p, level), K(), a, d, old(V()), old(fs.Blocks()))
        && fs.Inodes() == old(fs.Inodes())
      ensures PointersRight(K(), V(), Children(p, level), buf) && |buf| == K() && Small(buf)
      ensures !changed ==> buf == buf0
      ensures starti == 0 && p + 1 == |old(ids)| ==> changed
      decreases level, 1
    {
      hide Span, Cut, GroupCut, Nodes, Node, Addr, Mul, Div, Mod, Words, Tree, AllTrees, PointersRight,
        GroupWrote, Wrote, Grew, Accounted, Free, Holds, Sound, SameBut, Rest, RestAddr, Small;
      ghost var x, g, b0 := V(), Children(p, level), fs.Blocks();
      changed, buf := false, buf0;
      var i := starti;
      FirstChild(K(), p, level);
      HoldsIsSound();
      while i < K()
        invariant starti <= i <= K() == |buf| && Writing(args, g, i, a, d, x, b0) && fs.Inodes() == old(fs.Inodes())
        invariant PointersRight(K(), V(), g, buf) && Small(buf)
        invariant !changed ==> buf == buf0
        invariant i > 0 && starti == 0 && p + 1 == |x.ids| ==> changed
      {
        if args.data == [] {
          WriteRestStep(K(), x, V(), g, i, a, d);
          DoneIsDone(K(), p, level, i, a, d);
          break;
        }
        var w, id := WriteSibling(args, level - 1, g, buf, i, a, d, x, b0);
        changed := changed || w;
        buf := buf[i := id];
        i := i + 1;
      }
    }

    /** One sibling of the loop: the child of an index block, or a root. */
    method WriteSibling(args: WriteArgs, level: nat, ghost g: Group, buf: seq<nat>, i: nat, ghost a: nat,
                        ghost d: seq<byte>,
                        ghost x: View, ghost b0: Alloc) returns (w: bool, id: nat)
      requires Writing(args, g, i, a, d, x, b0) && i < Count(K(), g) == |buf| && level == Level(g, i)
      requires PointersRight(K(), V(), g, buf) && Small(buf)
      requires args.data != [] ==> GroupNeeds(K(), g, a, d) <= |x.ids| + b0.total
      modifies args, this`blocks, this`ids, fs`disk, fs`blockBitmaps, fs`bgd, fs`freeBlocksCount
      ensures Writing(args, g, i + 1, a, d, x, b0) && fs.Inodes() == old(fs.Inodes())
      ensures PointersRight(K(), V(), g, buf[i := id]) && Small(buf[i := id])
      ensures !w ==> id == buf[i]
      ensures i == 0 && old(args.data) != [] && Node(K(), g, 0) == |x.ids| ==> w
      decreases Height(g), 0
    {
      hide Span, Cut, GroupCut, Nodes, Node, Addr, Mul, Div, Mod, Words, Tree, AllTrees, BytesRight,
        GroupWrote, Wrote, Grew, Accounted, Free, Holds, Sound, SameBut, Rest, RestAddr, PointersRight, Small;
      ghost var b1, v1, e, a1 := fs.Blocks(), V(), Addr(K(), g, i), args.addr;
      HoldsIsSound();
      SpaceKept(b0, b1, ids[|x.ids|..]);
      SiblingReady(K(), x, v1, g, i, a, d, buf);
      if args.data != [] {
        SpaceForSibling(K(), g, i, a, d);
      }
      NextSibling(K(), g, i);
      w, id := WriteRec(args, level, buf[i], Node(K(), g, i));
      HoldsIsSound();
      RestOfRest(d, a, e, Span(K(), Level(g, i)));
      if old(args.data) == [] {
        AnyAddressWillDo(K(), v1, V(), Node(K(), g, i), Level(g, i), a1, RestAddr(a, e));
        RestOfNothing(a1, Span(K(), Level(g, i)));
        RestOfNothing(RestAddr(a, e), Span(K(), Level(g, i)));
      }
      SiblingWritten(K(), x, v1, V(), g, i, a, d, buf, id);
      GrewTwice(b0, b1, fs.Blocks(), v1.ids[|x.ids|..], ids[|v1.ids|..]);
      TailsJoin(x.ids, v1.ids, ids);
    }

    /** i_writeaddr: the file is its old bytes overlaid with `data`, and has the nodes it had and
        those the data needs. */
    method WriteAddr(addr: nat, data: seq<byte>)
      requires Holds() && Whole() && addr + |data| < P32
      requires data != [] ==> NodesFor(addr + |data|) <= |ids| + fs.freeBlocksCount
      modifies this`blocks, this`ids, this`block, this`size, fs`disk, fs`blockBitmaps, fs`bgd, fs`freeBlocksCount
      ensures Holds() && Whole() && FileWrote(K(), old(V()), V(), addr, data)
      ensures Grew(old(fs.Blocks()), fs.Blocks(), ids[|old(ids)|..]) && fs.Inodes() == old(fs.Inodes())
      ensures size == Max(old(size), addr + |data|)
      ensures |block| == 15
      ensures forall x: nat | addr <= x < addr + |data| :: DiskByte(K(), fs.disk, block, x) == data[x - addr]
      ensures forall x: nat | x < Capacity(K()) && old(HasByte(K(), V(), x)) && !(addr <= x < addr + |data|) ::
        DiskByte(K(), fs.disk, block, x) == old(DiskByte(K(), fs.disk, block, x))
    {
      hide DiskByte, Capacity, HasByte, Span, Cut, GroupCut, Nodes, Node, Addr, Mul, Div, Mod, Words, Tree, AllTrees,
        BytesRight,
        GroupWrote, Grew, Accounted, Free, Holds, Sound, SameBut, Rest, RestAddr, PointersRight, Small;
      ghost var x, b0 := V(), fs.Blocks();
      HoldsIsSound();
      CapacityIsLarge(K()) by { BlockSizeIsLarge(); }
      var args := new WriteArgs(addr, data);
      var write := false;
      var r := 0;
      StartOfFile(K(), x, block, addr, data);
      GrewByNothing(b0);
      assert ids[|ids|..] == [];
      while r < 15
        invariant r <= 15 == |block| && Writing(args, Roots, r, addr, data, x, b0) && fs.Inodes() == old(fs.Inodes())
        invariant PointersRight(K(), V(), Roots, block) && Small(block)
        invariant size == old(size)
      {
        SpaceForFile(K(), addr, data, r);
        var w, id := WriteSibling(args, Level(Roots, r), Roots, block, r, addr, data, x, b0);
        write := write || w;
        block := block[r := id];
        r := r + 1;
      }
      EndOfFile(K(), x, V(), block, addr, data);
      WrittenOnDisk(K(), x, V(), old(block), block, addr, data);
      var newSize := addr + |data|;
      if newSize > size {
        size := newSize;
        write := true;
      }
    }

    /** While nodes go: the numbering is that of the whole file, the inode counts c nodes. */
    ghost predicate Shrinking(c: nat)
      reads this`blocks, this`ids, fs
    {
      && fs.Valid() && K() > 0 && fs.blockSize == 4 * K() && Unit() > 0
      && Sound(K(), V())
      && blocks == Mul(c, Unit())
    }

    /** freeBlock and incrBlockCount(-1). */
    method FreeNode(id: nat, ghost c: nat)
      requires Shrinking(c) && c > 0 && InUse(fs.Blocks(), id) && id < |fs.disk|
      modifies this`blocks, fs`blockBitmaps, fs`bgd, fs`freeBlocksCount
      ensures Shrinking(c - 1) && FreedAll(old(fs.Blocks()), fs.Blocks(), {id}) && fs.Inodes() == old(fs.Inodes())
    {
      hide Mul, Div, Mod, Free, Accounted, Given;
      ghost var before := fs.Blocks();
      fs.FreeBlock(id);
      GivenIsFreed(before, fs.Blocks(), id);
      MulStep(c - 1, Unit());
      blocks := blocks - 1 * Unit();
    }

    /** resizerec on the node with preorder number p, of which the numbers below m are kept. */
    method ResizeRec(args: ResizeArgs, level: nat, blockId: nat, ghost p: nat, ghost m: nat, ghost c: nat)
      returns (deleted: bool)
      requires Shrinking(c) && Tree(K(), V(), p, level) && m <= |ids| && (p < |ids| ==> blockId == ids[p])
      requires args.sizeAfter <= args.sizeBefore && Aligned(K(), args.sizeBefore)
      requires Target(K(), m, p, level, args.sizeAfter) && Target(K(), |ids|, p, level, args.sizeBefore)
      requires NodeCut(p, level, args.sizeBefore) <= NodeCut(p, level, args.sizeAfter) + c
      requires AllInUse(fs.Blocks(), BlocksOf(ids, NodeCut(p, level, args.sizeAfter),
        NodeCut(p, level, args.sizeBefore)))
      modifies args, this`blocks, fs`disk, fs`blockBitmaps, fs`bgd, fs`freeBlocksCount
      ensures NodeCut(p, level, old(args.sizeAfter)) <= NodeCut(p, level, old(args.sizeBefore))
        <= NodeCut(p, level, old(args.sizeAfter)) + c
      ensures Shrinking(c - (NodeCut(p, level, old(args.sizeBefore)) - NodeCut(p, level, old(args.sizeAfter))))
      ensures Shrank(K(), old(V()), V(), m, p, level) && fs.Inodes() == old(fs.Inodes())
      ensures FreedAll(old(fs.Blocks()), fs.Blocks(),
                       BlocksOf(ids, NodeCut(p, level, old(args.sizeAfter)), NodeCut(p, level, old(args.sizeBefore))))
      ensures deleted <==> old(args.sizeBefore) > 0 && old(args.sizeAfter) == 0
      ensures args.sizeAfter == Minus(old(args.sizeAfter), Span(K(), level))
      ensures args.sizeBefore == Minus(old(args.sizeBefore), Span(K(), level))
      decreases level, 3
    {
      hide Span, Cut, Nodes, Mul, Div, Mod, Tree, Accounted, Free, Target, Aligned, Shrank, Sound, FreedAll, BlocksOf;
      ghost var s, t := args.sizeAfter, args.sizeBefore;
      ShrinkingIsSound(c);
      CutMonotone(K(), p, level, Min(s, Span(K(), level)), Min(t, Span(K(), level)));
      if args.sizeBefore == 0 {
        NothingGoes(p, level, m, NodeCut(p, level, s));
        return false;
      }
      if args.sizeAfter >= Span(K(), level) {
        args.sizeAfter := args.sizeAfter - Span(K(), level);
        args.sizeBefore := args.sizeBefore - Span(K(), level);
        NothingGoes(p, level, m, NodeCut(p, level, s));
        return false;
      }
      if level == 0 {
        deleted := ResizeLeaf(args, blockId, p, m, c);
      } else {
        deleted := ResizeIndex(args, level, blockId, p, m, c);
      }
    }

    function NodeCut(p: nat, level: nat, s: nat): nat {
      Cut(K(), p, level, Min(s, Span(K(), level)))
    }

    lemma ShrinkingIsSound(c: nat)
      requires Shrinking(c)
      ensures K() > 0 && Sound(K(), V()) && fs.blockSize == 4 * K() && Unit() > 0 && Accounted(fs.Blocks())
    {
    }

    lemma NothingGoes(p: nat, level: nat, m: nat, n: nat)
      requires K() > 0 && Sound(K(), V()) && Tree(K(), V(), p, level) && m <= |ids| && Accounted(fs.Blocks())
      ensures Shrank(K(), V(), V(), m, p, level) && FreedAll(fs.Blocks(), fs.Blocks(), BlocksOf(ids, n, n))
      ensures Span(K(), level) > 0
    {
      hide Span, Nodes, Tree, Accounted, Free;
      NothingShrunk(K(), V(), m, p, level);
      SpanPositive(K(), level);
      assert BlocksOf(ids, n, n) == {};
    }

    /** The part of resizerec for a data block. */
    method ResizeLeaf(args: ResizeArgs, blockId: nat, ghost p: nat, ghost m: nat, ghost c: nat) returns (deleted: bool)
      requires Shrinking(c) && m <= |ids| && (p < |ids| ==> blockId == ids[p])
      requires args.sizeAfter <= args.sizeBefore && args.sizeBefore > 0 && args.sizeAfter < Span(K(), 0)
        && Aligned(K(), args.sizeBefore)
      requires Target(K(), m, p, 0, args.sizeAfter) && Target(K(), |ids|, p, 0, args.sizeBefore)
      requires NodeCut(p, 0, args.sizeBefore) <= NodeCut(p, 0, args.sizeAfter) + c
      requires AllInUse(fs.Blocks(), BlocksOf(ids, NodeCut(p, 0, args.sizeAfter), NodeCut(p, 0, args.sizeBefore)))
      modifies args, this`blocks, fs`blockBitmaps, fs`bgd, fs`freeBlocksCount
      ensures NodeCut(p, 0, old(args.sizeAfter)) <= NodeCut(p, 0, old(args.sizeBefore))
        <= NodeCut(p, 0, old(args.sizeAfter)) + c
      ensures Shrinking(c - (NodeCut(p, 0, old(args.sizeBefore)) - NodeCut(p, 0, old(args.sizeAfter))))
      ensures Shrank(K(), old(V()), V(), m, p, 0) && fs.Inodes() == old(fs.Inodes())
      ensures FreedAll(old(fs.Blocks()), fs.Blocks(),
                       BlocksOf(ids, NodeCut(p, 0, old(args.sizeAfter)), NodeCut(p, 0, old(args.sizeBefore))))
      ensures deleted <==> old(args.sizeAfter) == 0
      ensures args.sizeAfter == Minus(old(args.sizeAfter), Span(K(), 0))
      ensures args.sizeBefore == Minus(old(args.sizeBefore), Span(K(), 0))
    {
      hide Mul, Div, Mod, Accounted, Free, Target, Aligned, Shrank, Sound, FreedAll;
      ShrinkingIsSound(c);
      LeafCut(p, args.sizeAfter);
      LeafCut(p, args.sizeBefore);
      TargetReached(K(), |ids|, p, 0, args.sizeBefore);
      LeafAligned(K(), args.sizeBefore);
      TreeOfLeaf(K(), V(), p);
      if args.sizeAfter != 0 {
        args.sizeAfter := 0;
        args.sizeBefore := args.sizeBefore - fs.blockSize;
        NothingGoes(p, 0, m, p + 1);
        return false;
      }
      NothingShrunk(K(), V(), m, p, 0);
      OneBlock(ids, p);
      BlockIsOnDisk(p);
      FreeNode(blockId, c);
      args.sizeBefore := args.sizeBefore - fs.blockSize;
      return true;
    }

    /** The part of resizerec for an index block. */
    method ResizeIndex(args: ResizeArgs, level: nat, blockId: nat, ghost p: nat, ghost m: nat, ghost c: nat)
      returns (deleted: bool)
      requires Shrinking(c) && Tree(K(), V(), p, level) && level > 0 && m <= |ids| && (p < |ids| ==> blockId == ids[p])
      requires args.sizeAfter <= args.sizeBefore && Aligned(K(), args.sizeBefore)
      requires args.sizeBefore > 0 && args.sizeAfter < Span(K(), level)
      requires Target(K(), m, p, level, args.sizeAfter) && Target(K(), |ids|, p, level, args.sizeBefore)
      requires NodeCut(p, level, args.sizeBefore) <= NodeCut(p, level, args.sizeAfter) + c
      requires AllInUse(fs.Blocks(), BlocksOf(ids, NodeCut(p, level, args.sizeAfter),
        NodeCut(p, level, args.sizeBefore)))
      modifies args, this`blocks, fs`disk, fs`blockBitmaps, fs`bgd, fs`freeBlocksCount
      ensures NodeCut(p, level, old(args.sizeAfter)) <= NodeCut(p, level, old(args.sizeBefore))
        <= NodeCut(p, level, old(args.sizeAfter)) + c
      ensures Shrinking(c - (NodeCut(p, level, old(args.sizeBefore)) - NodeCut(p, level, old(args.sizeAfter))))
      ensures Shrank(K(), old(V()), V(), m, p, level) && fs.Inodes() == old(fs.Inodes())
      ensures FreedAll(old(fs.Blocks()), fs.Blocks(),
                       BlocksOf(ids, NodeCut(p, level, old(args.sizeAfter)), NodeCut(p, level, old(args.sizeBefore))))
      ensures deleted <==> old(args.sizeAfter) == 0
      ensures args.sizeAfter == Minus(old(args.sizeAfter), Span(K(), level))
      ensures args.sizeBefore == Minus(old(args.sizeBefore), Span(K(), level))
      decreases level, 2
    {
      hide Span, Cut, Nodes, Mul, Div, Mod, Tree, Accounted, Free, Target, Aligned, Shrank, Sound, FreedAll, BlocksOf,
        GroupTarget, GroupShrank, AllInUse, FreedFrom, Node, Addr, Shrinking, Makes, WordsKept, Words, Block, GroupCut;
      ghost var v, b0, g, s, t := V(), fs.Blocks(), Children(p, level), args.sizeAfter, args.sizeBefore;
      ShrinkingIsSound(c);
      IndexToShrink(K(), v, m, p, level, s, t, b0, c);
      BlockIsOnDisk(p);
      var words := Words(fs.disk[blockId]);
      ChildByDivision(K(), p, level, s);
      var starti := Div(args.sizeAfter, Span(K(), level - 1));
      StartOfShrink(K(), v, m, p, level, s, t, starti);
      args.sizeAfter := args.sizeAfter - Mul(starti, Span(K(), level - 1));
      args.sizeBefore := args.sizeBefore - Mul(starti, Span(K(), level - 1));
      NothingFreed(b0, ids, FreedFrom(K(), g, s, starti));
      deleted, words := ResizeChildren(args, level, words, starti, p, m, v, s, t, b0, c);
      ShrinkingIsSound(c - (FreedFrom(K(), g, t, K()) - FreedFrom(K(), g, s, K())));
      ghost var w := V();
      BlockIsOnDisk(p);
      WordsFit(K(), v, m, p, level, words);
      PutIndex(blockId, Block(words), p, c - (FreedFrom(K(), g, t, K()) - FreedFrom(K(), g, s, K())));
      IndexIsShrunk(K(), v, w, V(), m, p, level, words);
      if deleted {
        AccountedIsShaped(b0);
        SelfStillInUse(ids, b0, fs.Blocks(), FreedFrom(K(), g, s, K()), FreedFrom(K(), g, t, K()), p, v, K());
        ghost var b1 := fs.Blocks();
        FreeNode(blockId, c - (FreedFrom(K(), g, t, K()) - FreedFrom(K(), g, s, K())));
        FreedTwice(b0, b1, fs.Blocks(), BlocksOf(ids, FreedFrom(K(), g, s, K()), FreedFrom(K(), g, t, K())), {blockId});
        SelfAndChildren(ids, p, FreedFrom(K(), g, t, K()));
      }
    }

    /** The index block is written back. */
    method PutIndex(id: nat, content: seq<byte>, ghost q: nat, ghost c: nat)
      requires Shrinking(c) && q < |ids| && id == ids[q] && |content| == 4 * K()
      modifies fs`disk
      ensures Shrinking(c) && Sound(K(), V()) && id < |old(fs.disk)| && fs.disk == old(fs.disk)[id := content]
      ensures fs.Blocks() == old(fs.Blocks()) && fs.Inodes() == old(fs.Inodes())
      ensures SameBut(old(V()), V(), q, q + 1)
    {
      hide Mul, Div, Mod, Accounted, Free;
      fs.disk := fs.disk[id := content];
      forall b | 0 <= b < |fs.disk| && fs.disk[b] != old(fs.disk)[b]
        ensures exists r :: q <= r < q + 1 && r < |ids| && ids[r] == b
      {
        assert ids[q] == b;
      }
    }

    /** The loop of resizerec over the children of node p from child `starti` on. */
    method ResizeChildren(args: ResizeArgs, level: nat, words0: seq<nat>, starti: nat, ghost p: nat, ghost m: nat,
                          ghost v: View, ghost s: nat, ghost t: nat, ghost b0: Alloc, ghost c: nat)
      returns (deleted: bool, words: seq<nat>)
      requires level > 0 && starti <= K() == |words0| && K() > 0 && Sound(K(), v) && Sound(K(), V()) && V() == v
        && fs.Blocks() == b0
      requires s <= t && 0 < t && Aligned(K(), t) && GroupTarget(K(), m, Children(p, level), s)
        && GroupTarget(K(), |ids|, Children(p, level), t)
      requires GroupShrank(K(), v, v, m, Children(p, level), starti) && WordsKept(K(), v, m, p, level, starti, words0)
      requires args.sizeAfter == Minus(s, Addr(K(), Children(p, level), starti))
      requires args.sizeBefore == Minus(t, Addr(K(), Children(p, level), starti))
      requires starti > 0 ==> s > 0
      requires FreedFrom(K(), Children(p, level), t, K()) <= FreedFrom(K(), Children(p, level), s, K()) + c
      requires FreedFrom(K(), Children(p, level), s, starti) == FreedFrom(K(), Children(p, level), t, starti)
      requires FreedAll(b0, b0, BlocksOf(ids, FreedFrom(K(), Children(p, level), s, starti),
        FreedFrom(K(), Children(p, level), t, starti)))
      requires Shrinking(c)
      requires AllInUse(b0, BlocksOf(ids, FreedFrom(K(), Children(p, level), s, K()),
        FreedFrom(K(), Children(p, level), t, K())))
      modifies args, this`blocks, fs`disk, fs`blockBitmaps, fs`bgd, fs`freeBlocksCount
      ensures Sound(K(), V()) && GroupShrank(K(), v, V(), m, Children(p, level), K()) && fs.Inodes() == old(fs.Inodes())
      ensures WordsKept(K(), v, m, p, level, K(), words)
      ensures args.sizeAfter == Minus(s, Addr(K(), Children(p, level), K()))
        && args.sizeBefore == Minus(t, Addr(K(), Children(p, level), K()))
      ensures FreedFrom(K(), Children(p, level), s, K()) <= FreedFrom(K(), Children(p, level), t, K())
              <= FreedFrom(K(), Children(p, level), s, K()) + c
      ensures Shrinking(c - (FreedFrom(K(), Children(p, level), t, K()) - FreedFrom(K(), Children(p, level), s, K())))
      ensures FreedAll(b0, fs.Blocks(), BlocksOf(ids, FreedFrom(K(), Children(p, level), s, K()),
        FreedFrom(K(), Children(p, level), t, K())))
      ensures deleted <==> s == 0
      decreases level, 1
    {
      hide Span, Cut, Nodes, Mul, Div, Mod, Tree, Accounted, Free, Target, Aligned, Shrank, Sound, FreedAll, BlocksOf,
        GroupTarget, GroupShrank, AllInUse, FreedFrom, Node, Addr, Shrinking, Makes, WordsKept;
      ghost var g := Children(p, level);
      deleted, words := starti == 0, words0;
      var i := starti;
      while i < K()
        invariant starti <= i <= K() && Sound(K(), V()) && GroupShrank(K(), v, V(), m, g, i)
          && fs.Inodes() == old(fs.Inodes())
        invariant |words| == K() && WordsKept(K(), v, m, p, level, i, words)
        invariant args.sizeAfter == Minus(s, Addr(K(), g, i)) && args.sizeBefore == Minus(t, Addr(K(), g, i))
        invariant FreedFrom(K(), g, s, i) <= FreedFrom(K(), g, t, i) <= FreedFrom(K(), g, s, i) + c
        invariant Shrinking(c - (FreedFrom(K(), g, t, i) - FreedFrom(K(), g, s, i)))
        invariant FreedAll(b0, fs.Blocks(), BlocksOf(ids, FreedFrom(K(), g, s, i), FreedFrom(K(), g, t, i)))
        invariant deleted <==> starti == 0 && (i == 0 || s == 0)
      {
        if args.sizeBefore == 0 {
          ShrinkRest(K(), v, V(), m, g, i);
          AllFreed(K(), p, level, s, t, i);
          WordsKeptLater(K(), v, m, p, level, i, words);
          break;
        }
        WordOfChild(K(), v, m, p, level, i, words);
        var gone := ResizeSibling(args, level - 1, words[i], g, i, v, m, s, t, b0, c);
        FirstIsFirst(K(), p, level, s, i);
        WordsKeptStep(K(), v, m, p, level, i, words, gone);
        if gone {
          words := words[i := 0];
        } else {
          deleted := false;
        }
        i := i + 1;
      }
    }

    /** One sibling of the walk: a child of an index block, or a root. */
    method ResizeSibling(args: ResizeArgs, level: nat, ptr: nat, ghost g: Group, ghost i: nat, ghost v: View,
                         ghost m: nat,
                         ghost s: nat, ghost t: nat, ghost b0: Alloc, ghost c0: nat) returns (deleted: bool)
      requires Ok(g) && i < Count(K(), g) && level == Level(g, i) && Sound(K(), v) && Sound(K(), V()) && K() > 0
      requires s <= t && Aligned(K(), t) && GroupTarget(K(), m, g, s) && GroupTarget(K(), |ids|, g, t)
      requires GroupShrank(K(), v, V(), m, g, i)
      requires args.sizeAfter == Minus(s, Addr(K(), g, i)) && args.sizeBefore == Minus(t, Addr(K(), g, i))
      requires Node(K(), g, i) < |ids| ==> ptr == ids[Node(K(), g, i)]
      requires FreedFrom(K(), g, t, Count(K(), g)) <= FreedFrom(K(), g, s, Count(K(), g)) + c0
      requires FreedFrom(K(), g, s, i) <= FreedFrom(K(), g, t, i) <= FreedFrom(K(), g, s, i) + c0
      requires Shrinking(c0 - (FreedFrom(K(), g, t, i) - FreedFrom(K(), g, s, i)))
      requires FreedAll(b0, fs.Blocks(), BlocksOf(ids, FreedFrom(K(), g, s, i), FreedFrom(K(), g, t, i)))
      requires AllInUse(b0, BlocksOf(ids, FreedFrom(K(), g, s, Count(K(), g)), FreedFrom(K(), g, t, Count(K(), g))))
      modifies args, this`blocks, fs`disk, fs`blockBitmaps, fs`bgd, fs`freeBlocksCount
      ensures Sound(K(), V()) && GroupShrank(K(), v, V(), m, g, i + 1) && fs.Inodes() == old(fs.Inodes())
      ensures args.sizeAfter == Minus(s, Addr(K(), g, i + 1)) && args.sizeBefore == Minus(t, Addr(K(), g, i + 1))
      ensures FreedFrom(K(), g, s, i + 1) <= FreedFrom(K(), g, t, i + 1) <= FreedFrom(K(), g, s, i + 1) + c0
      ensures Shrinking(c0 - (FreedFrom(K(), g, t, i + 1) - FreedFrom(K(), g, s, i + 1)))
      ensures FreedAll(b0, fs.Blocks(), BlocksOf(ids, FreedFrom(K(), g, s, i + 1), FreedFrom(K(), g, t, i + 1)))
      ensures deleted <==> Minus(t, Addr(K(), g, i)) > 0 && Minus(s, Addr(K(), g, i)) == 0
      ensures deleted ==> m <= Node(K(), g, i)
      decreases Height(g), 0
    {
      hide Span, Cut, Nodes, Mul, Div, Mod, Tree, Accounted, Free, Target, Aligned, Shrank, Sound, FreedAll, BlocksOf,
        GroupTarget, GroupShrank, AllInUse, FreedFrom, Node, Addr, Shrinking, Makes;
      ghost var w, b1, p := V(), fs.Blocks(), Node(K(), g, i);
      ghost var lo, hi := SiblingCut(K(), g, s, i), SiblingCut(K(), g, t, i);
      ghost var from, upto := FreedFrom(K(), g, s, i), FreedFrom(K(), g, t, i);
      TargetOfSibling(K(), m, g, s, i);
      TargetOfSibling(K(), |ids|, g, t, i);
      TargetReached(K(), m, p, level, Minus(s, Addr(K(), g, i)));
      SiblingFreesNew(K(), g, s, t, i);
      MakesLength(from, upto, lo, hi, FreedFrom(K(), g, s, i + 1), FreedFrom(K(), g, t, i + 1));
      StillInUse(K(), ids, b0, b1, from, upto, lo, hi, FreedFrom(K(), g, s, Count(K(), g)),
        FreedFrom(K(), g, t, Count(K(), g)), w);
      TreeOfSibling(K(), v, w, m, g, i);
      AlignedBehind(K(), g, t, i);
      MinusTwice(K(), g, s, i);
      MinusTwice(K(), g, t, i);
      deleted := ResizeRec(args, level, ptr, p, m, c0 - (upto - from));
      ShrinkingIsSound(c0 - (upto - from) - (hi - lo));
      ShrinkStep(K(), v, w, V(), m, g, i);
      FreedTwice(b0, b1, fs.Blocks(), BlocksOf(ids, from, upto), BlocksOf(ids, lo, hi));
      BlocksJoin(ids, from, upto, lo, hi, FreedFrom(K(), g, s, i + 1), FreedFrom(K(), g, t, i + 1));
    }

    /** i_resize.  Growing only moves the size.  Shrinking frees exactly the nodes a file of the new
        size does not need and keeps the bytes of the others, unless rounding the old size up to whole
        blocks overflows 32 bits: then nothing is freed and only the size moves, which is right only
        if the new size ends in the same block. */
    method Resize(newSize: nat)
      requires Holds() && Whole() && newSize < P32 && size < P32
      requires newSize < size ==> |ids| == NodesFor(size)
      modifies this`blocks, this`ids, this`block, this`size, fs`disk, fs`blockBitmaps, fs`bgd, fs`freeBlocksCount
      ensures Holds() && Whole() && size == newSize && fs.Inodes() == old(fs.Inodes())
      ensures newSize >= old(size) ==>
        && FileWrote(K(), old(V()), V(), newSize, []) && |ids| == |old(ids)|
        && Free(fs.Blocks()) == old(Free(fs.Blocks()))
      ensures newSize < old(size) ==>
        (FileShrank(K(), old(V()), V(), newSize) <==> old(size) + fs.blockSize <= P32 || newSize + fs.blockSize > P32)
      ensures newSize < old(size) && old(size) + fs.blockSize > P32 ==>
        V() == old(V()) && fs.Blocks() == old(fs.Blocks())
      ensures newSize < old(size) && old(size) + fs.blockSize <= P32 ==>
                && FileShrank(K(), old(V()), V(), newSize)
                && FreedAll(old(fs.Blocks()), fs.Blocks(), BlocksOf(old(ids), |ids|, |old(ids)|))
      ensures |block| == 15
      ensures newSize < old(size) ==>
        forall x: nat | x < newSize :: DiskByte(K(), fs.disk, block, x) == old(DiskByte(K(), fs.disk, block, x))
    {
      hide Mul, Div, Mod, Accounted, Tree, Sound, PointersRight, AllTrees, FileNodes, GroupCut, Addr, InUse, DiskByte;
      if newSize < size {
        ShrinkTo(newSize);
      } else {
        CapacityIsLarge(K()) by { BlockSizeIsLarge(); }
        WriteAddr(newSize, []);
        GrewNothing(old(fs.Blocks()), fs.Blocks(), ids[|old(ids)|..]);
      }
    }

    /** The walk of i_resize over the roots. */
    method ShrinkTo(newSize: nat)
      requires Holds() && Whole() && newSize < size < P32 && |ids| == NodesFor(size)
      modifies this`blocks, this`ids, this`size, fs`disk, fs`blockBitmaps, fs`bgd, fs`freeBlocksCount
      ensures Holds() && Whole() && size == newSize && fs.Inodes() == old(fs.Inodes())
      ensures FileShrank(K(), old(V()), V(), newSize) <==>
        old(size) + fs.blockSize <= P32 || newSize + fs.blockSize > P32
      ensures old(size) + fs.blockSize > P32 ==> V() == old(V()) && fs.Blocks() == old(fs.Blocks())
      ensures old(size) + fs.blockSize <= P32 ==>
                && FileShrank(K(), old(V()), V(), newSize)
                && FreedAll(old(fs.Blocks()), fs.Blocks(), BlocksOf(old(ids), |ids|, |old(ids)|))
      ensures |block| == 15
      ensures forall x: nat | x < newSize :: DiskByte(K(), fs.disk, block, x) == old(DiskByte(K(), fs.disk, block, x))
    {
      hide Span, Cut, Nodes, Mul, Div, Mod, Tree, Accounted, Free, Aligned, Sound, FreedAll, BlocksOf, GroupTarget,
        GroupShrank, AllInUse, FreedFrom, Node, Addr, Shrinking, Holds, Whole, AlignUp, FileShrank, FileNodes, GroupCut,
        PointersRight, AllTrees, DiskByte;
      HoldsIsSound();
      WholeIsRoots();
      BlockSizeIsLarge();
      CapacityIsLarge(K());
      AlignUpIs(size, fs.blockSize);
      ghost var v, b0, c := V(), fs.Blocks(), |ids|;
      var args := new ResizeArgs(newSize, AlignUp(size, fs.blockSize));
      // resizerec returns at once when sizeBefore is 0
      if args.sizeBefore > 0 {
        AlignedByBlocks(K(), args.sizeBefore, fs.blockSize);
        ShrinkRoots(args, newSize, args.sizeBefore);
        WholeIsRoots();
        CutOnDisk(K(), v, V(), block, block, newSize);
      } else {
        UncutIsShrunk(K(), v, newSize, size);
      }
      size := newSize;
    }

    method ShrinkRoots(args: ResizeArgs, s: nat, ghost t: nat)
      requires Holds() && Whole() && |ids| == NodesFor(size) && s < size <= t < Min(P32, size + 4 * K())
        && Aligned(K(), t)
      requires args.sizeAfter == s && args.sizeBefore == t
      modifies args, this`blocks, this`ids, fs`disk, fs`blockBitmaps, fs`bgd, fs`freeBlocksCount
      ensures Holds() && Whole() && fs.Inodes() == old(fs.Inodes())
      ensures FileShrank(K(), old(V()), V(), s)
      ensures FreedAll(old(fs.Blocks()), fs.Blocks(), BlocksOf(old(ids), |ids|, |old(ids)|))
    {
      hide Span, Cut, Nodes, Mul, Div, Mod, Tree, Accounted, Free, Aligned, Sound, FreedAll, BlocksOf, GroupTarget,
        GroupShrank, AllInUse, FreedFrom, Node, Addr, Shrinking, Holds, Whole, FileShrank, GroupCut, InUse,
        PointersRight;
      ghost var v, b0, c := V(), fs.Blocks(), |ids|;
      HoldsIsShrinking();
      WholeIsRoots();
      CapacityIsLarge(K());
      RootsToShrink(K(), v, s, size, t);
      ghost var m := FileNodes(K(), s);
      LaterInUse(ids, b0, m);
      NothingFreed(b0, ids, FreedFrom(K(), Roots, s, 0));
      var r := 0;
      while r < 15
        invariant r <= 15 && ids == v.ids && Sound(K(), V()) && GroupShrank(K(), v, V(), m, Roots, r)
          && fs.Inodes() == old(fs.Inodes())
        invariant args.sizeAfter == Minus(s, Addr(K(), Roots, r)) && args.sizeBefore == Minus(t, Addr(K(), Roots, r))
        invariant FreedFrom(K(), Roots, s, r) <= FreedFrom(K(), Roots, t, r) <= FreedFrom(K(), Roots, s, r) + c
        invariant Shrinking(c - (FreedFrom(K(), Roots, t, r) - FreedFrom(K(), Roots, s, r)))
        invariant FreedAll(b0, fs.Blocks(), BlocksOf(ids, FreedFrom(K(), Roots, s, r), FreedFrom(K(), Roots, t, r)))
      {
        RootPointer(K(), v, block, r);
        var gone := ResizeSibling(args, Level(Roots, r), block[r], Roots, r, v, m, s, t, b0, c);
        r := r + 1;
      }
      KeptIsWhole(K(), v, V(), m, block, s);
      KeptInUse(v.ids, b0, fs.Blocks(), m, K(), v);
      CutNumbering(m);
    }

    /** The nodes that went leave the numbering. */
    ghost method CutNumbering(m: nat)
      requires m <= |ids| && Shrinking(m) && number >= 1 && forall q | 0 <= q < m :: InUse(fs.Blocks(), ids[q])
      requires Sound(K(), V()) && Sound(K(), Kept(V(), m)) && Small(block)
      requires PointersRight(K(), Kept(V(), m), Roots, block) && AllTrees(K(), Kept(V(), m), Roots)
      modifies this`ids
      ensures Holds() && Whole() && V() == Kept(old(V()), m)
    {
      hide Mul, Div, Mod, Accounted, Free, PointersRight, AllTrees;
      ids := ids[..m];
    }

    lemma HoldsIsShrinking()
      requires Holds()
      ensures Shrinking(|ids|) && number >= 1 && K() >= 256 && Sound(K(), V()) && Accounted(fs.Blocks())
      ensures AllInUse(fs.Blocks(), BlocksOf(ids, 0, |ids|))
    {
    }

    lemma WholeIsRoots()
      requires Whole()
      ensures Sound(K(), V()) && |block| == 15 && Small(block) && PointersRight(K(), V(), Roots, block)
        && AllTrees(K(), V(), Roots)
    {
    }

    lemma LeafCut(p: nat, s: nat)
      requires K() > 0
      ensures NodeCut(p, 0, s) == if s == 0 then p else p + 1
    {
    }

    lemma BlockIsOnDisk(q: nat)
      requires Sound(K(), V()) && q < |ids|
      ensures ids[q] < |fs.disk| && |fs.disk[ids[q]]| == 4 * K()
    {
    }
  }

  lemma IndexToShrink(K: nat, v: View, m: nat, p: nat, l: nat, s: nat, t: nat, b: Alloc, c: nat)
    requires K > 0 && l > 0 && Sound(K, v) && Tree(K, v, p, l) && m <= |v.ids| && s <= t && 0 < t
    requires Target(K, m, p, l, s) && Target(K, |v.ids|, p, l, t)
    requires Cut(K, p, l, Min(t, Span(K, l))) <= Cut(K, p, l, Min(s, Span(K, l))) + c
    requires AllInUse(b, BlocksOf(v.ids, Cut(K, p, l, Min(s, Span(K, l))), Cut(K, p, l, Min(t, Span(K, l)))))
    ensures p < |v.ids| && AllTrees(K, v, Children(p, l))
    ensures GroupTarget(K, m, Children(p, l), s) && GroupTarget(K, |v.ids|, Children(p, l), t)
    ensures FreedFrom(K, Children(p, l), t, K) <= FreedFrom(K, Children(p, l), s, K) + c
    ensures s == 0 ==> FreedFrom(K, Children(p, l), t, K) + 1 <= FreedFrom(K, Children(p, l), s, K) + c
    ensures AllInUse(b, BlocksOf(v.ids, FreedFrom(K, Children(p, l), s, K), FreedFrom(K, Children(p, l), t, K)))
    ensures s == 0 ==> InUse(b, v.ids[p])
    ensures var lo, hi := Cut(K, p, l, Min(s, Span(K, l))), Cut(K, p, l, Min(t, Span(K, l)));
            && hi == FreedFrom(K, Children(p, l), t, K)
            && (if s == 0 then lo == p && FreedFrom(K, Children(p, l), s, K) == p + 1
               else lo == FreedFrom(K, Children(p, l), s, K))
    ensures Addr(K, Children(p, l), K) == Span(K, l)
  {
    hide Node, Addr, Nodes, Span, Cut, GroupTarget, Target, Tree, FreedFrom, InUse, AllTrees;
    SpanIsTheSum(K, p, l);
    TargetReached(K, |v.ids|, p, l, t);
    TargetOfChildren(K, m, p, l, s);
    TargetOfChildren(K, |v.ids|, p, l, t);
    FreedByNode(K, p, l, s, t);
    WordsAreKept(K, v, m, p, l, 0);
    if s == 0 {
      assert Between(p, p, FreedFrom(K, Children(p, l), t, K));
    }
  }

  lemma StartOfShrink(K: nat, v: View, m: nat, p: nat, l: nat, s: nat, t: nat, starti: nat)
    requires K > 0 && l > 0 && Sound(K, v) && Tree(K, v, p, l) && p < |v.ids| && m <= |v.ids| && s <= t
      && s < Span(K, l)
    requires Span(K, l - 1) > 0 && starti == Div(s, Span(K, l - 1))
    ensures starti <= K && GroupShrank(K, v, v, m, Children(p, l), starti)
    ensures WordsKept(K, v, m, p, l, starti, Words(v.disk[v.ids[p]]))
    ensures s - Mul(starti, Span(K, l - 1)) == Minus(s, Addr(K, Children(p, l), starti))
    ensures t - Mul(starti, Span(K, l - 1)) == Minus(t, Addr(K, Children(p, l), starti))
    ensures starti > 0 ==> s > 0
    ensures FreedFrom(K, Children(p, l), s, starti) == FreedFrom(K, Children(p, l), t, starti)
  {
    hide Node, Addr, Nodes, Span, Mul, Div, Mod, AllTrees, GroupShrank, Tree, FreedFrom, WordsKept, Words;
    var g := Children(p, l);
    ChildByDivision(K, p, l, s);
    ChildIs(K, p, l, starti);
    WordsAreKept(K, v, m, p, l, starti);
    SkipKept(K, v, m, g, starti);
    FreedRange(K, g, s, t, starti);
    AddrZero(K, g);
    InOrder(K, g, 0, starti);
  }

  lemma NothingFreed(a: Alloc, ids: seq<nat>, n: nat)
    requires Accounted(a)
    ensures FreedAll(a, a, BlocksOf(ids, n, n))
  {
    hide Accounted, InUse, Free;
    assert BlocksOf(ids, n, n) == {};
    AccountedIsShaped(a);
  }

  lemma WordsFit(K: nat, v: View, m: nat, p: nat, l: nat, words: seq<nat>)
    requires l > 0 && WordsKept(K, v, m, p, l, K, words)
    ensures |words| == K && |Block(words)| == 4 * K && Words(Block(words)) == words
  {
    hide Node, Block, Words;
    BlockLength(words);
    WordsOfBlock(words);
  }

  lemma BlockLength(words: seq<nat>)
    ensures |Block(words)| == 4 * |words|
  {
  }

  lemma IndexIsShrunk(K: nat, v: View, w: View, u: View, m: nat, p: nat, l: nat, words: seq<nat>)
    requires K > 0 && l > 0 && Sound(K, v) && Sound(K, w) && Sound(K, u) && p < |v.ids| && m <= |v.ids|
    requires GroupShrank(K, v, w, m, Children(p, l), K) && WordsKept(K, v, m, p, l, K, words)
    requires u.ids == w.ids && SameBut(w, u, p, p + 1) && p < |u.ids| && Words(u.disk[u.ids[p]]) == words
    ensures Shrank(K, v, u, m, p, l)
  {
    hide Node, Addr, Nodes, Span, GroupShrank, Shrank, Tree, Words, SameBut;
    ShrunkIndex(K, v, w, u, m, p, l, words);
  }

  lemma SelfStillInUse(ids: seq<nat>, before: Alloc, now: Alloc, from: nat, upto: nat, p: nat, v: View, K: nat)
    requires Sound(K, v) && v.ids == ids && p < |ids| && p < from
    requires FreedAll(before, now, BlocksOf(ids, from, upto)) && before.per > 0 && InUse(before, ids[p])
    ensures now.per > 0 && InUse(now, ids[p])
  {
    hide InUse, Accounted, Free;
    assert forall r: nat | r < |ids| && Between(r, from, upto) :: ids[r] != ids[p];
  }

  lemma SelfAndChildren(ids: seq<nat>, p: nat, hi: nat)
    requires p < |ids| && p < hi
    ensures BlocksOf(ids, p + 1, hi) + {ids[p]} == BlocksOf(ids, p, hi)
  {
    assert Between(p, p, hi);
    forall q: nat
      ensures Between(q, p, hi) <==> q == p || Between(q, p + 1, hi)
    {
    }
  }

  /** With nothing left to walk over, what the siblings so far freed is all there is to free. */
  lemma AllFreed(K: nat, p: nat, l: nat, s: nat, t: nat, i: nat)
    requires K > 0 && l > 0 && i <= K && s <= t && Minus(t, Addr(K, Children(p, l), i)) == 0
    ensures FreedFrom(K, Children(p, l), s, i) == FreedFrom(K, Children(p, l), s, K)
    ensures FreedFrom(K, Children(p, l), t, i) == FreedFrom(K, Children(p, l), t, K)
    ensures Minus(s, Addr(K, Children(p, l), i)) == Minus(s, Addr(K, Children(p, l), K)) == 0
    ensures Minus(t, Addr(K, Children(p, l), K)) == 0
    ensures t > 0 ==> i > 0
  {
    hide Addr, GroupCut, Node, Nodes, Span;
    FirstChild(K, p, l);
    InOrder(K, Children(p, l), i, K);
  }

  lemma WordsKeptLater(K: nat, v: View, m: nat, p: nat, l: nat, i: nat, words: seq<nat>)
    requires l > 0 && i <= K && WordsKept(K, v, m, p, l, i, words)
    ensures WordsKept(K, v, m, p, l, K, words)
  {
    hide Node;
  }

  lemma WordOfChild(K: nat, v: View, m: nat, p: nat, l: nat, i: nat, words: seq<nat>)
    requires l > 0 && i < K && WordsKept(K, v, m, p, l, i, words)
    ensures |words| == K && (Node(K, Children(p, l), i) < |v.ids| ==> words[i] == v.ids[Node(K, Children(p, l), i)])
  {
    hide Node;
  }

  /** The part of the kept bytes behind child i is empty only when child i starts behind them. */
  lemma FirstIsFirst(K: nat, p: nat, l: nat, s: nat, i: nat)
    requires l > 0
    ensures i == 0 ==> Minus(s, Addr(K, Children(p, l), i)) == s
  {
    hide Span;
  }

  lemma MakesLength(from: nat, upto: nat, lo: nat, hi: nat, from': nat, upto': nat)
    requires Makes(from, upto, lo, hi, from', upto')
    ensures from <= upto && lo <= hi && from' <= upto' && upto' - from' == (upto - from) + (hi - lo)
  {
  }

  lemma BlocksJoin(ids: seq<nat>, from: nat, upto: nat, lo: nat, hi: nat, from': nat, upto': nat)
    requires Makes(from, upto, lo, hi, from', upto')
    ensures BlocksOf(ids, from, upto) + BlocksOf(ids, lo, hi) == BlocksOf(ids, from', upto')
  {
  }

  /** The blocks a sibling frees are in use until it does. */
  lemma StillInUse(K: nat, ids: seq<nat>, before: Alloc, now: Alloc, from: nat, upto: nat, lo: nat, hi: nat, all: nat,
                   end: nat, v: View)
    requires Sound(K, v) && v.ids == ids
    requires FreedAll(before, now, BlocksOf(ids, from, upto)) && AllInUse(before, BlocksOf(ids, all, end))
    requires forall q: nat :: Between(q, lo, hi) ==> Between(q, all, end) && !Between(q, from, upto)
    ensures AllInUse(now, BlocksOf(ids, lo, hi))
  {
    hide InUse, Accounted, Free;
    assert now.per > 0 by { AccountedIsShaped(now); }
    forall b | b in BlocksOf(ids, lo, hi)
      ensures InUse(now, b)
    {
      var q: nat :| q < |ids| && Between(q, lo, hi) && b == ids[q];
      assert b in BlocksOf(ids, all, end);
      assert forall r: nat | r < |ids| && Between(r, from, upto) :: ids[r] != b;
    }
  }

  lemma AccountedIsShaped(a: Alloc)
    requires Accounted(a)
    ensures a.per > 0
  {
  }

  lemma TreeOfSibling(K: nat, v: View, w: View, m: nat, g: Group, i: nat)
    requires K > 0 && Sound(K, v) && Sound(K, w) && Ok(g) && i < Count(K, g) && GroupShrank(K, v, w, m, g, i)
    ensures Tree(K, w, Node(K, g, i), Level(g, i)) && w.ids == v.ids && m <= |w.ids|
  {
    hide Node, Addr, Tree, AllTrees, SameBut, GroupBytesKept;
  }

  lemma AlignedBehind(K: nat, g: Group, t: nat, i: nat)
    requires K > 0 && Ok(g) && Aligned(K, t)
    ensures Aligned(K, Minus(t, Addr(K, g, i)))
  {
    hide Addr, Aligned;
    AddrAligned(K, g, i);
    if Addr(K, g, i) < t {
      AlignedDifference(K, Addr(K, g, i), t);
    } else {
      SpanAligned(K, 0);
      AddrAligned(K, g, 0);
      AddrZero(K, g);
    }
  }

  lemma MinusTwice(K: nat, g: Group, s: nat, i: nat)
    requires Ok(g)
    ensures Minus(Minus(s, Addr(K, g, i)), Span(K, Level(g, i))) == Minus(s, Addr(K, g, i + 1))
  {
    hide Addr, Span;
    NextSibling(K, g, i);
  }

  lemma TreeOfLeaf(K: nat, v: View, p: nat)
    requires Sound(K, v)
    ensures Tree(K, v, p, 0)
  {
  }

  lemma LeafAligned(K: nat, t: nat)
    requires K > 0 && t > 0 && Aligned(K, t)
    ensures Span(K, 0) == 4 * K <= t && Aligned(K, t - Span(K, 0))
  {
    SpanAligned(K, 0);
    assert 0 == Mul(0, 4 * K);
    AlignedDifference(K, 0, t);
    if t > 4 * K {
      AlignedDifference(K, 4 * K, t);
    }
  }

  /** The blocks of the nodes lo..hi. */
  ghost function BlocksOf(ids: seq<nat>, lo: nat, hi: nat): set<nat> {
    set q: nat | q < |ids| && Between(q, lo, hi) :: ids[q]
  }

  lemma OneBlock(ids: seq<nat>, p: nat)
    requires p < |ids|
    ensures BlocksOf(ids, p, p + 1) == {ids[p]}
  {
    assert Between(p, p, p + 1);
  }

  /** getNewFile: an inode of zeros is an empty file, and a whole one. */
  method GetNewFile(fs: FS) returns (r: Option<Inode>)
    requires fs.Valid()
    modifies fs`inodeBitmaps, fs`bgd, fs`freeInodesCount
    ensures fs.Valid() && fs.Blocks() == old(fs.Blocks())
    ensures r.None? ==> Free(fs.Inodes()) == {} && fs.Inodes() == old(fs.Inodes())
    ensures r.Some? ==> fresh(r.value) && r.value.fs == fs && r.value.Holds() && r.value.Whole()
    ensures r.Some? ==> r.value.ids == [] && r.value.size == 0 && r.value.blocks == 0
    ensures r.Some? ==> r.value.number >= 1 && Taken(old(fs.Inodes()), fs.Inodes(), r.value.number - 1)
  {
    hide Accounted, Taken, Free, IsFree, InUse, IsFirstFrom, DirCounts, OneMore, Mul, Mod, Div, Node;
    var number := fs.GetNewInode(false);
    if number.None? {
      return None;
    }
    var file := new Inode(fs, number.value, 0, 0, seq(15, i => 0), []);
    file.NewIsWhole();
    r := Some(file);
  }

  lemma BlocksAreWhole(fs: FS)
    requires fs.Valid()
    ensures fs.blockSize >= 1024 && fs.blockSize == 4 * (fs.blockSize / 4) && |fs.disk| <= P32
    ensures forall b | b in fs.disk :: |b| == fs.blockSize
  {
    hide Accounted, Free, Mod, FS.Blocks, FS.Inodes;
    QuarterIsWhole(fs.blockSize);
  }

  lemma QuarterIsWhole(n: nat)
    requires n % 1024 == 0
    ensures n == 4 * (n / 4)
  {
    var q := n / 1024;
    assert n == 4 * (256 * q);
    assert n / 4 == 256 * q;
  }

  lemma NoNodes(K: nat, v: View)
    requires K > 0 && Sound(K, v) && v.ids == []
    ensures Small(seq(15, i => 0)) && PointersRight(K, v, Roots, seq(15, i => 0)) && AllTrees(K, v, Roots)
  {
    hide Node, Tree, Sound;
    forall j: nat | j < 15
      ensures Tree(K, v, Node(K, Roots, j), Level(Roots, j))
    {
      TreeOfNothing(K, v, Node(K, Roots, j), Level(Roots, j));
    }
  }

  ghost predicate AllInUse(a: Alloc, blocks: set<nat>) {
    a.per > 0 && forall b | b in blocks :: InUse(a, b)
  }

  /** These blocks, and no others, went from used to free. */
  ghost predicate FreedAll(before: Alloc, after: Alloc, blocks: set<nat>) {
    && Accounted(before) && Accounted(after) && before.per == after.per
    && Free(after) == Free(before) + blocks && Free(before) !! blocks
    && forall n | InUse(before, n) && n !in blocks :: InUse(after, n)
  }

  lemma GivenIsFreed(before: Alloc, after: Alloc, n: nat)
    requires Given(before, after, n)
    ensures FreedAll(before, after, {n})
  {
    hide Div, Mod, Sum, Clear;
    forall k | InUse(before, k) && k != n
      ensures InUse(after, k)
    {
      if Div(k, before.per) == Div(n, before.per) && Mod(k, before.per) == Mod(n, before.per) {
        SameNumber(before.per, k, n);
      }
    }
  }

  lemma FreedTwice(a: Alloc, b: Alloc, c: Alloc, s: set<nat>, t: set<nat>)
    requires FreedAll(a, b, s) && FreedAll(b, c, t)
    ensures FreedAll(a, c, s + t)
  {
    hide Accounted, InUse;
  }

  /** The file's bytes after a write, and the nodes it has. */
  ghost predicate FileWrote(K: nat, v: View, w: View, a: nat, d: seq<byte>)
    requires K > 0 && Sound(K, v) && Sound(K, w)
  {
    && v.ids <= w.ids && a + |d| <= Capacity(K)
    && |w.ids| == (if d == [] then |v.ids| else Max(|v.ids|, FileNodes(K, a + |d|)))
    && |w.disk| == |v.disk| && (forall b | 0 <= b < |v.disk| && w.disk[b] != v.disk[b] :: b in w.ids)
    && forall x: nat | x < Capacity(K) && HasByte(K, w, x) ::
         && (a <= x < a + |d| ==> FileByte(K, w, x) == d[x - a])
         && (!(a <= x < a + |d|) && HasByte(K, v, x) ==> FileByte(K, w, x) == FileByte(K, v, x))
  }

  /** The file cut to s bytes: the nodes it needs are left, its bytes are the old ones. */
  ghost predicate FileShrank(K: nat, v: View, w: View, s: nat)
    requires K > 0 && Sound(K, v) && Sound(K, w)
  {
    && s <= Capacity(K) && FileNodes(K, s) <= |v.ids| && w.ids == v.ids[..FileNodes(K, s)]
    && |w.disk| == |v.disk| && (forall b | 0 <= b < |v.disk| && w.disk[b] != v.disk[b] :: b in v.ids)
    && forall x: nat | x < Capacity(K) && HasByte(K, w, x) :: HasByte(K, v, x) && FileByte(K, w, x) == FileByte(K, v, x)
  }

  lemma RootsToShrink(K: nat, v: View, s: nat, size: nat, t: nat)
    requires K > 0 && Sound(K, v) && AllTrees(K, v, Roots) && s < size <= t < size + 4 * K && Aligned(K, t)
      && t <= Capacity(K)
    requires |v.ids| == FileNodes(K, size)
    ensures FileNodes(K, s) <= |v.ids| && GroupTarget(K, FileNodes(K, s), Roots, s) && GroupTarget(K, |v.ids|, Roots, t)
    ensures GroupShrank(K, v, v, FileNodes(K, s), Roots, 0)
    ensures FreedFrom(K, Roots, s, 0) == FreedFrom(K, Roots, t, 0) == 0
    ensures FreedFrom(K, Roots, s, Count(K, Roots)) == FileNodes(K, s)
      && FreedFrom(K, Roots, t, Count(K, Roots)) == |v.ids|
    ensures Minus(s, Addr(K, Roots, 0)) == s && Minus(t, Addr(K, Roots, 0)) == t
  {
    hide Node, Addr, GroupCut, Aligned, Tree, AllTrees, GroupShrank;
    AddrZero(K, Roots);
    RootNodeZero(K);
    GroupCutRoundsUp(K, Roots, size, t);
    GroupCutMonotone(K, Roots, s, size);
    GroupCutBounds(K, Roots, s, Count(K, Roots));
    GroupCutBounds(K, Roots, t, Count(K, Roots));
    GroupCutBounds(K, Roots, 0, 0);
    SkipKept(K, v, FileNodes(K, s), Roots, 0);
  }

  lemma AlignedByBlocks(K: nat, t: nat, block: nat)
    requires block == 4 * K && exists q: nat :: t == Mul(q, block)
    ensures Aligned(K, t)
  {
  }

  lemma LaterInUse(ids: seq<nat>, a: Alloc, m: nat)
    requires AllInUse(a, BlocksOf(ids, 0, |ids|))
    ensures AllInUse(a, BlocksOf(ids, m, |ids|))
  {
    hide InUse;
    forall b | b in BlocksOf(ids, m, |ids|)
      ensures b in BlocksOf(ids, 0, |ids|)
    {
      var q: nat :| q < |ids| && Between(q, m, |ids|) && b == ids[q];
      assert Between(q, 0, |ids|);
    }
  }

  lemma RootNodeZero(K: nat)
    ensures Node(K, Roots, 0) == 0
  {
  }

  lemma RootPointer(K: nat, v: View, block: seq<nat>, r: nat)
    requires r < 15 && PointersRight(K, v, Roots, block)
    ensures |block| == 15 && (Node(K, Roots, r) < |v.ids| ==> block[r] == v.ids[Node(K, Roots, r)])
  {
    hide Node;
  }

  lemma KeptIsWhole(K: nat, v: View, w: View, m: nat, block: seq<nat>, s: nat)
    requires K > 0 && Sound(K, v) && Sound(K, w) && s <= Capacity(K) && m == FileNodes(K, s) <= |v.ids|
    requires GroupShrank(K, v, w, m, Roots, Count(K, Roots)) && PointersRight(K, v, Roots, block)
    ensures Sound(K, Kept(w, m)) && AllTrees(K, Kept(w, m), Roots) && PointersRight(K, Kept(w, m), Roots, block)
    ensures FileShrank(K, v, Kept(w, m), s)
  {
    hide Node, Addr, GroupCut, Tree, AllTrees, GroupWhere;
    forall x: nat | x < Capacity(K) && HasByte(K, Kept(w, m), x)
      ensures HasByte(K, v, x) && FileByte(K, Kept(w, m), x) == FileByte(K, v, x)
    {
      assert ByteAt(K, w, GroupWhere(K, Roots, x)) == ByteAt(K, v, GroupWhere(K, Roots, x));
    }
  }

  lemma KeptInUse(ids: seq<nat>, before: Alloc, now: Alloc, m: nat, K: nat, v: View)
    requires Sound(K, v) && v.ids == ids && m <= |ids| && AllInUse(before, BlocksOf(ids, 0, |ids|))
    requires FreedAll(before, now, BlocksOf(ids, m, |ids|))
    ensures now.per > 0 && forall q | 0 <= q < m :: InUse(now, ids[q])
  {
    hide InUse, Accounted, Free;
    AccountedIsShaped(now);
    forall q: nat | q < m
      ensures InUse(now, ids[q])
    {
      assert Between(q, 0, |ids|) && ids[q] in BlocksOf(ids, 0, |ids|);
      assert forall r: nat | r < |ids| && Between(r, m, |ids|) :: ids[r] != ids[q];
    }
  }

  /** Of the sizes below one in the last block under 4 GiB, those in that block need as many nodes,
      and the others fewer. */
  lemma LastBlockNodes(K: nat, s: nat, size: nat)
    requires K >= 256 && Mod(P32, 4 * K) == 0 && s <= size < P32 < size + 4 * K
    ensures P32 <= Capacity(K) && FileNodes(K, s) <= FileNodes(K, size)
    ensures FileNodes(K, s) == FileNodes(K, size) <==> s + 4 * K > P32
  {
    hide Mul, Div, Mod, Node, Addr, GroupCut, Aligned;
    CapacityIsLarge(K);
    LastBlock(K);
    GroupCutMonotone(K, Roots, s, size);
    if s + 4 * K > P32 {
      GroupCutRoundsUp(K, Roots, s, P32);
      GroupCutRoundsUp(K, Roots, size, P32);
    } else {
      var b := P32 - 4 * K;
      GroupCutMonotone(K, Roots, s, b);
      GroupCutGrows(K, Roots, b);
      GroupCutMonotone(K, Roots, b + 1, size);
    }
  }

  lemma LastBlock(K: nat)
    requires K > 0 && Mod(P32, 4 * K) == 0
    ensures 4 * K <= P32 && Aligned(K, P32) && Aligned(K, P32 - 4 * K)
  {
    var q := Div(P32, 4 * K);
    DivModIs(P32, 4 * K);
    hide Mul, Div, Mod;
    MulStep(0, 4 * K);
    assert q > 0;
    MulStep(q - 1, 4 * K);
    assert P32 == Mul(q, 4 * K) && P32 - 4 * K == Mul(q - 1, 4 * K);
  }

  /** Freeing nothing is right for a cut within the last block under 4 GiB, and for no other. */
  lemma UncutIsShrunk(K: nat, v: View, s: nat, size: nat)
    requires K >= 256 && Mod(P32, 4 * K) == 0 && s <= size < P32 < size + 4 * K
    requires Sound(K, v) && size <= Capacity(K) && |v.ids| == FileNodes(K, size)
    ensures FileShrank(K, v, v, s) <==> s + 4 * K > P32
  {
    hide FileNodes, HasByte, FileByte, Capacity, Sound, Mod;
    LastBlockNodes(K, s, size);
    if FileNodes(K, s) == |v.ids| {
      assert v.ids[..FileNodes(K, s)] == v.ids;
    } else {
      assert |v.ids[..FileNodes(K, s)]| < |v.ids|;
    }
  }

  lemma CapacityIsLarge(K: nat)
    requires K >= 256
    ensures P32 <= Capacity(K)
  {
    hide Mul;
    ThirdSpan(K);
    NextSibling(K, Roots, 14);
  }

  lemma ThirdSpan(K: nat)
    requires K >= 256
    ensures Span(K, 3) >= P32
  {
    hide Mul;
    var s1, s2 := Mul(K, 4 * K), Mul(K, Mul(K, 4 * K));
    MulMonotone(256, K, 4 * K);
    MulMonotone(256, K, s1);
    MulMonotone(256, K, s2);
    TimesTwoFiftySix(4 * K);
    TimesTwoFiftySix(s1);
    TimesTwoFiftySix(s2);
    assert Span(K, 1) == s1;
    assert Span(K, 2) == s2;
  }

  lemma TimesTwoFiftySix(d: nat)
    ensures Mul(256, d) == 256 * d
  {
  }

  lemma GrewNothing(before: Alloc, after: Alloc, added: seq<nat>)
    requires Grew(before, after, added) && added == []
    ensures Free(after) == Free(before)
  {
    hide Free, Accounted, InUse;
  }

  /** The data block of address x is allocated. */
  predicate HasByte(K: nat, v: View, x: nat)
    requires x < Capacity(K)
  {
    GroupWhere(K, Roots, x).node < |v.ids|
  }

  function FileByte(K: nat, v: View, x: nat): byte
    requires Sound(K, v) && x < Capacity(K) && HasByte(K, v, x)
  {
    ByteAt(K, v, GroupWhere(K, Roots, x))
  }

  lemma StartOfFile(K: nat, v: View, block: seq<nat>, a: nat, d: seq<byte>)
    requires K > 0 && Sound(K, v) && PointersRight(K, v, Roots, block) && AllTrees(K, v, Roots)
    ensures GroupWrote(K, v, v, Roots, 0, a, d) && |block| == 15
    ensures Rest(d, a, Addr(K, Roots, 0)) == d && RestAddr(a, Addr(K, Roots, 0)) == a && Node(K, Roots, 0) == 0
  {
    hide AllTrees;
    AddrZero(K, Roots);
    SkipSiblings(K, v, Roots, 0, a, d);
  }

  lemma SpaceForFile(K: nat, a: nat, d: seq<byte>, r: nat)
    requires K > 0 && a + |d| <= Capacity(K)
    ensures Min(a + |d|, Addr(K, Roots, Count(K, Roots))) == a + |d|
    ensures Rest(d, a, Addr(K, Roots, r)) != [] ==> d != []
  {
  }

  lemma EndOfFile(K: nat, v: View, w: View, block: seq<nat>, a: nat, d: seq<byte>)
    requires K > 0 && Sound(K, v) && Sound(K, w) && a + |d| <= Capacity(K)
    requires GroupWrote(K, v, w, Roots, Count(K, Roots), a, d)
    ensures AllTrees(K, w, Roots) && FileWrote(K, v, w, a, d)
  {
    hide Node, Addr, GroupCut, AllTrees, GroupWhere;
    forall x: nat | x < Capacity(K) && HasByte(K, w, x)
      ensures a <= x < a + |d| ==> FileByte(K, w, x) == d[x - a]
      ensures !(a <= x < a + |d|) && HasByte(K, v, x) ==> FileByte(K, w, x) == FileByte(K, v, x)
    {
      assert ByteRight(K, v, w, GroupWhere(K, Roots, x), x, a, d);
    }
  }

  lemma SpaceKept(before: Alloc, after: Alloc, added: seq<nat>)
    requires Grew(before, after, added)
    ensures after.total + |added| == before.total
  {
  }

  lemma DoneIsDone(K: nat, p: nat, l: nat, i: nat, a: nat, d: seq<byte>)
    requires K > 0 && l > 0 && i <= K && Rest(d, a, Addr(K, Children(p, l), i)) == [] && d != []
    ensures i > 0 && Rest(d, a, Addr(K, Children(p, l), K)) == []
  {
    FirstChild(K, p, l);
    hide Addr;
    InOrder(K, Children(p, l), i, K);
  }

  /** Sibling i may be written. */
  lemma SiblingReady(K: nat, x: View, v: View, g: Group, i: nat, a: nat, d: seq<byte>, buf: seq<nat>)
    requires K > 0 && Ok(g) && i < Count(K, g) && Sound(K, x) && Sound(K, v)
    requires GroupWrote(K, x, v, g, i, a, d) && PointersRight(K, v, g, buf)
    ensures var c := Node(K, g, i);
            && (Rest(d, a, Addr(K, g, i)) != [] ==> c <= |v.ids|)
            && (c < |v.ids| ==> buf[i] == v.ids[c]) && Tree(K, v, c, Level(g, i))
    ensures |x.ids| <= |v.ids| && x.ids == v.ids[..|x.ids|]
    ensures i == 0 && Node(K, g, 0) == |x.ids| && Rest(d, a, Addr(K, g, i)) != [] ==> Node(K, g, i) == |v.ids|
  {
    hide Node, Addr, GroupCut, Tree, BytesRight, SameBut, Rest;
    if Rest(d, a, Addr(K, g, i)) != [] {
      SiblingReached(K, x, v, g, i, a, d);
    }
  }

  lemma RestOfNothing(a: nat, f: nat)
    ensures Rest([], a, f) == []
  {
  }

  lemma AnyAddressWillDo(K: nat, v: View, u: View, p: nat, l: nat, a: nat, a': nat)
    requires K > 0 && Sound(K, v) && Sound(K, u) && Wrote(K, v, u, p, l, a, [])
    ensures Wrote(K, v, u, p, l, a', [])
  {
    hide Nodes, Span, Cut, SameBut, Tree, Where;
  }

  /** Sibling i was written. */
  lemma SiblingWritten(K: nat, x: View, v: View, u: View, g: Group, i: nat, a: nat, d: seq<byte>, buf: seq<nat>,
                       id: nat)
    requires K > 0 && Ok(g) && i < Count(K, g) && Sound(K, x) && Sound(K, v) && Sound(K, u)
    requires GroupWrote(K, x, v, g, i, a, d) && PointersRight(K, v, g, buf) && Small(buf)
    requires var e := Addr(K, g, i); Wrote(K, v, u, Node(K, g, i), Level(g, i), RestAddr(a, e), Rest(d, a, e))
    requires if Rest(d, a, Addr(K, g, i)) == [] then id == buf[i]
      else Node(K, g, i) < |u.ids| && id == u.ids[Node(K, g, i)]
    ensures GroupWrote(K, x, u, g, i + 1, a, d) && PointersRight(K, u, g, buf[i := id])
    ensures x.ids <= v.ids <= u.ids && Small(buf[i := id])
  {
    hide Node, Addr, Nodes, Span, GroupCut, Cut, SameBut, Tree, Rest, RestAddr, ByteRight, Where, AllTrees, BytesRight;
    LengthStep(K, x, v, u, g, i, a, d);
    WriteStep(K, x, v, u, g, i, a, d);
    PointersStep(K, v, u, g, i, buf, id);
  }

  lemma CutOfBlock(K: nat, p: nat, s: nat)
    requires K > 0 && s <= Span(K, 0)
    ensures Span(K, 0) > 0 && (s > 0 ==> Cut(K, p, 0, s) == p + 1)
  {
  }

  lemma PassedOver(K: nat, v: View, p: nat, l: nat, a: nat, d: seq<byte>)
    requires K > 0 && Sound(K, v) && Tree(K, v, p, l) && d != [] && a >= Span(K, l) && p + Nodes(K, l) <= |v.ids|
    ensures Wrote(K, v, v, p, l, a, d)
    ensures Rest(d, a, Span(K, l)) == d && RestAddr(a, Span(K, l)) == a - Span(K, l)
  {
    hide Tree, Span, Nodes, Where, Cut;
    CutBounds(K, p, l, Span(K, l));
  }

  /** The blocks of `added` were free before and are used now; nothing else changed. */
  ghost predicate Grew(before: Alloc, after: Alloc, added: seq<nat>) {
    && Accounted(before) && Accounted(after)
    && after.total + |added| == before.total
    && (forall n | n in added :: n in Free(before))
    && Free(after) == Free(before) - (set n | n in added)
    && forall n | before.per > 0 && InUse(before, n) :: after.per > 0 && InUse(after, n)
  }

  lemma TakenIsNew(before: Alloc, after: Alloc, ids: seq<nat>, id: nat)
    requires Taken(before, after, id) && forall q | 0 <= q < |ids| :: InUse(before, ids[q])
    ensures Grew(before, after, [id])
    ensures id !in ids && InUse(after, id) && forall q | 0 <= q < |ids| :: InUse(after, ids[q])
  {
    hide Mul, Div, Mod, Sum, Clear;
    forall n | InUse(before, n) || n == id
      ensures InUse(after, n)
    {
    }
    assert (set n | n in [id]) == {id};
    assert !InUse(before, id);
  }

  lemma GrewTwice(a: Alloc, b: Alloc, c: Alloc, s: seq<nat>, t: seq<nat>)
    requires Grew(a, b, s) && Grew(b, c, t)
    ensures Grew(a, c, s + t)
  {
    hide Accounted, Free, InUse;
    assert (set n | n in s + t) == (set n | n in s) + (set n | n in t);
  }

  lemma TailsJoin(a: seq<nat>, b: seq<nat>, c: seq<nat>)
    requires a <= b <= c
    ensures b[|a|..] + c[|b|..] == c[|a|..]
  {
  }

  lemma GrewByNothing(a: Alloc)
    requires Accounted(a)
    ensures Grew(a, a, [])
  {
    hide Accounted, Free, InUse;
    var empty: seq<nat> := [];
    assert (set n | n in empty) == {};
  }

  /** The bytes the 15 roots can hold. */
  function Capacity(K: nat): nat { Addr(K, Roots, Count(K, Roots)) }

  /** The nodes of a file of s bytes. */
  function FileNodes(K: nat, s: nat): nat
    requires s <= Capacity(K)
  {
    GroupCut(K, Roots, s)
  }

  /** The bytes of a whole file are where the numbers on the disk lead. */
  lemma FileOnDisk(K: nat, v: View, block: seq<nat>)
    requires K > 0 && Sound(K, v) && PointersRight(K, v, Roots, block) && AllTrees(K, v, Roots)
    ensures |block| == 15
    ensures forall x: nat | x < Capacity(K) && HasByte(K, v, x) ::
      DiskByte(K, v.disk, block, x) == FileByte(K, v, x)
  {
    hide Addr, GroupWhere, DiskByte, AllTrees;
    forall x: nat | x < Capacity(K) && HasByte(K, v, x)
      ensures DiskByte(K, v.disk, block, x) == FileByte(K, v, x)
    {
      ByteOnDisk(K, v, block, x);
    }
  }

  /** Where the old file had a byte, the new one has it too. */
  lemma HasByteStill(K: nat, v: View, w: View, x: nat)
    requires x < Capacity(K) && |v.ids| <= |w.ids| && HasByte(K, v, x)
    ensures HasByte(K, w, x)
  {
    hide GroupWhere, Addr;
  }

  lemma HasBytesBelow(K: nat, v: View, s: nat, x: nat)
    requires K > 0 && x < s <= Capacity(K) && FileNodes(K, s) <= |v.ids|
    ensures HasByte(K, v, x)
  {
    hide GroupWhere, GroupCut, Addr;
    GroupWhereIsLastNeeded(K, Roots, x);
    GroupCutMonotone(K, Roots, x + 1, s);
  }

  /** A write puts its data where the numbers on the disk lead, and leaves the rest of the file there. */
  lemma WrittenOnDisk(K: nat, v: View, w: View, before: seq<nat>, after: seq<nat>, a: nat, d: seq<byte>)
    requires K > 0 && Sound(K, v) && PointersRight(K, v, Roots, before) && AllTrees(K, v, Roots)
    requires Sound(K, w) && PointersRight(K, w, Roots, after) && AllTrees(K, w, Roots) && FileWrote(K, v, w, a, d)
    ensures |before| == |after| == 15
    ensures forall x: nat | a <= x < a + |d| :: DiskByte(K, w.disk, after, x) == d[x - a]
    ensures forall x: nat | x < Capacity(K) && HasByte(K, v, x) && !(a <= x < a + |d|) ::
      DiskByte(K, w.disk, after, x) == DiskByte(K, v.disk, before, x)
  {
    hide Addr, GroupWhere, GroupCut, DiskByte, AllTrees, PointersRight, HasByte, FileByte, Sound;
    FileOnDisk(K, v, before);
    FileOnDisk(K, w, after);
    forall x: nat | a <= x < a + |d|
      ensures DiskByte(K, w.disk, after, x) == d[x - a]
    {
      HasBytesBelow(K, w, a + |d|, x);
    }
    forall x: nat | x < Capacity(K) && HasByte(K, v, x) && !(a <= x < a + |d|)
      ensures DiskByte(K, w.disk, after, x) == DiskByte(K, v.disk, before, x)
    {
      HasByteStill(K, v, w, x);
    }
  }

  /** A cut leaves the bytes below it where they are. */
  lemma CutOnDisk(K: nat, v: View, w: View, before: seq<nat>, after: seq<nat>, s: nat)
    requires K > 0 && Sound(K, v) && PointersRight(K, v, Roots, before) && AllTrees(K, v, Roots)
    requires Sound(K, w) && PointersRight(K, w, Roots, after) && AllTrees(K, w, Roots) && FileShrank(K, v, w, s)
    ensures |before| == |after| == 15
    ensures forall x: nat | x < s :: DiskByte(K, w.disk, after, x) == DiskByte(K, v.disk, before, x)
  {
    hide Addr, GroupWhere, GroupCut, DiskByte, AllTrees, PointersRight, HasByte, FileByte, Sound;
    FileOnDisk(K, v, before);
    FileOnDisk(K, w, after);
    forall x: nat | x < s
      ensures DiskByte(K, w.disk, after, x) == DiskByte(K, v.disk, before, x)
    {
      HasBytesBelow(K, w, s, x);
    }
  }

  lemma SectionOnDisk(K: nat, v: View, block: seq<nat>, a: nat, n: nat)
    requires K > 0 && Sound(K, v) && PointersRight(K, v, Roots, block) && AllTrees(K, v, Roots)
    requires a + n <= Capacity(K) && FileNodes(K, a + n) <= |v.ids|
    ensures |block| == 15 && |FileSection(K, v, a, n)| == n
    ensures forall i: nat | i < n :: FileSection(K, v, a, n)[i] == DiskByte(K, v.disk, block, a + i)
  {
    hide Addr, GroupWhere, GroupCut, DiskByte, AllTrees, PointersRight;
    FileOnDisk(K, v, block);
    GroupSectionExists(K, v, Roots, a, n);
    forall i: nat | i < n
      ensures FileSection(K, v, a, n)[i] == DiskByte(K, v.disk, block, a + i)
    {
      assert HasByte(K, v, a + i);
    }
  }

  /** The file's n bytes from address a. */
  function FileSection(K: nat, v: View, a: nat, n: nat): seq<byte>
    requires K > 0 && Sound(K, v) && a + n <= Capacity(K) && FileNodes(K, a + n) <= |v.ids|
  {
    GroupSection(K, v, Roots, a, n)
  }

  lemma RootReady(K: nat, v: View, block: seq<nat>, r: nat)
    requires Sound(K, v) && r < 15 && PointersRight(K, v, Roots, block) && AllTrees(K, v, Roots)
    ensures |block| == 15 && (Node(K, Roots, r) < |v.ids| ==> block[r] == v.ids[Node(K, Roots, r)])
    ensures Tree(K, v, Node(K, Roots, r), Level(Roots, r))
  {
    hide Node, Tree;
  }

  lemma ReadInBlock(K: nat, v: View, p: nat, a: nat, n: nat)
    requires K > 0 && Sound(K, v) && 0 < n && a + n <= 4 * K && p < |v.ids|
    ensures Span(K, 0) == 4 * K && Cut(K, p, 0, a + n) == p + 1
    ensures Section(K, v, p, 0, a, n) == v.disk[v.ids[p]][a..a + n]
  {
    SectionExists(K, v, p, 0, a, n);
    forall i | 0 <= i < n
      ensures Section(K, v, p, 0, a, n)[i] == v.disk[v.ids[p]][a + i]
    {
      assert Where(K, p, 0, a + i) == Place(p, a + i);
      assert Section(K, v, p, 0, a, n)[i] == ByteAt(K, v, Where(K, p, 0, a + i));
    }
  }

  /** After siblings 0..i: what lies in them is read, the rest starts behind them. */
  ghost predicate GroupReadied(K: nat, v: View, g: Group, i: nat, a: nat, s: nat, d: seq<byte>, a': nat, s': nat,
                               d': seq<byte>)
    requires K > 0 && Sound(K, v) && Ok(g)
  {
    var e := Addr(K, g, i);
    var n := if a < e then Min(s, e - a) else 0;
    && i <= Count(K, g) && s' == s - n
    && (n > 0 ==> && a + n <= Addr(K, g, Count(K, g)) && GroupCut(K, g, a + n) <= |v.ids|
                  && d' == d + GroupSection(K, v, g, a, n))
    && (n == 0 ==> d' == d)
    && (s' > 0 ==> a' == if a > e then a - e else 0)
  }

  lemma ReadStepReady(K: nat, v: View, g: Group, i: nat, a: nat, s: nat, d: seq<byte>, a1: nat, s1: nat, d1: seq<byte>,
                      n: nat)
    requires K > 0 && Sound(K, v) && Ok(g) && i < Count(K, g) && s1 > 0
    requires GroupReadied(K, v, g, i, a, s, d, a1, s1, d1)
    requires a + n <= Addr(K, g, Count(K, g)) && (n == s || a + n == Addr(K, g, Count(K, g))) && n <= s
    requires GroupCut(K, g, a + n) <= |v.ids|
    ensures var (p, l) := (Node(K, g, i), Level(g, i));
            a1 < Span(K, l) ==> p < |v.ids| && Cut(K, p, l, Min(a1 + s1, Span(K, l))) <= |v.ids|
  {
    hide Span, Node, Addr, Cut, GroupCut;
    var (p, l) := (Node(K, g, i), Level(g, i));
    if a1 < Span(K, l) {
      var t := Min(a1 + s1, Span(K, l));
      CutAt(K, g, i, t);
      GroupCutMonotone(K, g, Addr(K, g, i) + t, a + n);
      CutBounds(K, p, l, t);
    }
  }

  lemma ReadStep(K: nat, v: View, g: Group, i: nat, a: nat, s: nat, d: seq<byte>,
                 a1: nat, s1: nat, d1: seq<byte>, a2: nat, s2: nat, d2: seq<byte>)
    requires K > 0 && Sound(K, v) && Ok(g) && i < Count(K, g) && s1 > 0
    requires GroupReadied(K, v, g, i, a, s, d, a1, s1, d1)
    requires Readied(K, v, Node(K, g, i), Level(g, i), a1, s1, d1, a2, s2, d2)
    ensures GroupReadied(K, v, g, i + 1, a, s, d, a2, s2, d2)
  {
    hide Span, Node, Addr, Cut, GroupCut, Section, GroupSection;
    NextSibling(K, g, i);
    var m := if a1 < Span(K, Level(g, i)) then Min(s1, Span(K, Level(g, i)) - a1) else 0;
    if m > 0 {
      ReadAppends(K, v, g, i, a, s, d, a1, s1, d1, m);
    }
  }

  lemma ReadAppends(K: nat, v: View, g: Group, i: nat, a: nat, s: nat, d: seq<byte>, a1: nat, s1: nat, d1: seq<byte>,
                    m: nat)
    requires K > 0 && Sound(K, v) && Ok(g) && i < Count(K, g) && s1 > 0
    requires GroupReadied(K, v, g, i, a, s, d, a1, s1, d1)
    requires 0 < m <= s1 && a1 + m <= Span(K, Level(g, i)) && Cut(K, Node(K, g, i), Level(g, i), a1 + m) <= |v.ids|
    ensures var n := s - s1;
            && a + n + m <= Addr(K, g, Count(K, g)) && GroupCut(K, g, a + n + m) <= |v.ids|
            && d1 + Section(K, v, Node(K, g, i), Level(g, i), a1, m) == d + GroupSection(K, v, g, a, n + m)
  {
    hide Span, Node, Addr, Cut, GroupCut, Section, GroupSection;
    var n := s - s1;
    CutAt(K, g, i, a1 + m);
    SectionStep(K, v, g, a, n, i, a1, m);
    if n == 0 {
      EmptySection(K, v, g, a);
    }
  }

  lemma EmptySection(K: nat, v: View, g: Group, a: nat)
    requires K > 0 && Sound(K, v) && Ok(g) && a <= Addr(K, g, Count(K, g)) && GroupCut(K, g, a) <= |v.ids|
    ensures GroupSection(K, v, g, a, 0) == []
  {
  }

  lemma ReadDone(K: nat, v: View, p: nat, l: nat, i: nat, a: nat, s: nat, d: seq<byte>, a': nat, s': nat, d': seq<byte>)
    requires K > 0 && Sound(K, v) && l > 0 && a < Span(K, l) && s > 0
    requires GroupReadied(K, v, Children(p, l), i, a, s, d, a', s', d') && (i == K || s' == 0)
    ensures Readied(K, v, p, l, a, s, d, a', s', d')
  {
    hide Node, Addr, Span, GroupCut, GroupSection, Section;
    SpanIsTheSum(K, p, l);
    InOrder(K, Children(p, l), i, K);
    var n := Min(s, Span(K, l) - a);
    CutIsGroupCut(K, p, l, a + n);
    SectionOfChildren(K, v, p, l, a, n);
  }

  lemma NothingRead(K: nat, v: View, a: nat, s: nat)
    requires K > 0 && Sound(K, v)
    ensures GroupReadied(K, v, Roots, 0, a, s, [], a, s, [])
  {
  }

  lemma NothingLeft(K: nat, v: View, g: Group, i: nat, a: nat, s: nat, d: seq<byte>, a1: nat, s1: nat, d1: seq<byte>,
                    a2: nat)
    requires K > 0 && Sound(K, v) && Ok(g) && i < Count(K, g) && s1 == 0
    requires GroupReadied(K, v, g, i, a, s, d, a1, s1, d1)
    ensures GroupReadied(K, v, g, i + 1, a, s, d, a2, 0, d1)
  {
    hide Node, Span, GroupCut, GroupSection, Section;
    InOrder(K, g, i, i + 1);
  }

  /** What readrec owes: the bytes from a that lie in the node are appended, and what is left to
      read starts where the node ends. */
  ghost predicate Readied(K: nat, v: View, p: nat, l: nat, a: nat, s: nat, d: seq<byte>, a': nat, s': nat,
                          d': seq<byte>)
    requires K > 0 && Sound(K, v)
  {
    var n := if a < Span(K, l) then Min(s, Span(K, l) - a) else 0;
    && s' == s - n
    && (n > 0 ==> Cut(K, p, l, a + n) <= |v.ids| && d' == d + Section(K, v, p, l, a, n))
    && (n == 0 ==> d' == d)
    && (s' > 0 ==> a' == if a >= Span(K, l) then a - Span(K, l) else 0)
  }
}
