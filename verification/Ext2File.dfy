/** What a file on the Ext2 partition does for its user, over reads, writes and resizes. */
module Ext2File {
  import opened Arith
  import opened Bytes
  import opened Ext2Tree
  import opened Ext2Write
  import opened Ext2Layout
  import opened Ext2Resize
  import opened Ext2Inode
  import opened Ext2Alloc
  import opened Options

  /** Reading delivers the file's bytes one for one. */
  lemma SectionIsBytes(K: nat, v: View, a: nat, n: nat, i: nat)
    requires K > 0 && Sound(K, v) && a + n <= Capacity(K) && FileNodes(K, a + n) <= |v.ids| && i < n
    ensures HasByte(K, v, a + i) && FileSection(K, v, a, n)[i] == FileByte(K, v, a + i)
  {
    hide GroupCut, GroupWhere, Addr;
    GroupSectionExists(K, v, Roots, a, n);
  }

  /** A byte is there once a file that ends with it has its nodes. */
  lemma HasByteIff(K: nat, v: View, x: nat)
    requires K > 0 && x < Capacity(K)
    ensures HasByte(K, v, x) <==> FileNodes(K, x + 1) <= |v.ids|
  {
    hide GroupCut, GroupWhere, Addr;
    GroupWhereIsLastNeeded(K, Roots, x);
  }

  /** Read after write: what i_readaddr delivers is the data inside the written range, and what was
      there before outside it, wherever the old file had a block, and no matter which nodes the
      write had to add. */
  lemma ReadAfterWrite(K: nat, v: View, w: View, a: nat, d: seq<byte>, b: nat, n: nat, i: nat)
    requires K > 0 && Sound(K, v) && Sound(K, w) && FileWrote(K, v, w, a, d)
    requires b + n <= Capacity(K) && FileNodes(K, b + n) <= |w.ids| && i < n
    ensures a <= b + i < a + |d| ==> FileSection(K, w, b, n)[i] == d[b + i - a]
    ensures !(a <= b + i < a + |d|) && HasByte(K, v, b + i) ==> FileSection(K, w, b, n)[i] == FileByte(K, v, b + i)
  {
    hide FileNodes, HasByte, FileByte, FileSection, Capacity;
    SectionIsBytes(K, w, b, n, i);
  }

  /** The written range can be read back in full. */
  lemma WrittenCanBeRead(K: nat, v: View, w: View, a: nat, d: seq<byte>)
    requires K > 0 && Sound(K, v) && Sound(K, w) && FileWrote(K, v, w, a, d) && d != []
    ensures FileNodes(K, a + |d|) <= |w.ids| && FileSection(K, w, a, |d|) == d
  {
    hide HasByte, FileByte, GroupCut, Addr;
    forall i: nat | i < |d|
      ensures FileSection(K, w, a, |d|)[i] == d[i]
    {
      ReadAfterWrite(K, v, w, a, d, a, |d|, i);
    }
  }

  /** A file whose nodes are stored in the blocks `ids` and whose roots are `block`. */
  ghost predicate Stored(K: nat, v: View, block: seq<nat>) {
    && K > 0 && Sound(K, v) && Small(block)
    && PointersRight(K, v, Roots, block) && AllTrees(K, v, Roots)
  }

  /** How many blocks a file needs that ends with byte x: its data blocks, and the index blocks before
      the last of them. */
  lemma NodesOfSize(K: nat, x: nat)
    requires K > 0
    ensures Capacity(K) == (12 + K + K * K + K * K * K) * (4 * K)
    ensures FileNodes(K, 0) == 0
    ensures x < Capacity(K) ==>
      var b, n := x / (4 * K), FileNodes(K, x + 1);
      && (b < 12 ==> n == b + 1)
      && (12 <= b < 12 + K ==> n == b + 2)
      && (12 + K <= b < 12 + K + K * K ==> n == b + 4 + (b - 12 - K) / K)
      && (12 + K + K * K <= b ==> var c := b - 12 - K - K * K; n == b + 6 + K + c / K + c / K / K)
  {
    hide Addr, GroupWhere, GroupCut;
    IndirectRoots(K);
    NoBytesNoNodes(K);
    if x < Capacity(K) {
      GroupWhereIsLastNeeded(K, Roots, x);
      PlaceInFile(K, x);
    }
  }

  /** v and w differ in blocks of `mine` only. */
  ghost predicate OnlyIn(v: View, w: View, mine: seq<nat>) {
    |w.disk| == |v.disk| && forall b | 0 <= b < |v.disk| && w.disk[b] != v.disk[b] :: b in mine
  }

  /** Another file stays whole, and keeps its bytes, when a file with no block of its changes. */
  lemma OtherFilesStand(K: nat, v: View, w: View, mine: seq<nat>, block: seq<nat>, a: nat, n: nat)
    requires Stored(K, v, block) && Sound(K, w) && w.ids == v.ids && OnlyIn(v, w, mine)
    requires forall b | b in v.ids :: b !in mine
    ensures Stored(K, w, block)
    ensures a + n <= Capacity(K) && FileNodes(K, a + n) <= |v.ids| ==>
      FileSection(K, w, a, n) == FileSection(K, v, a, n)
  {
    hide Tree, Node, GroupCut, GroupWhere, Addr, Count;
    forall j: nat | j < Count(K, Roots)
      ensures Tree(K, w, Node(K, Roots, j), Level(Roots, j))
    {
      TreeFrame(K, v, w, Node(K, Roots, j), Level(Roots, j));
    }
    if a + n <= Capacity(K) && FileNodes(K, a + n) <= |v.ids| {
      GroupSectionExists(K, v, Roots, a, n);
      forall q | 0 <= q < |v.ids|
        ensures w.disk[v.ids[q]] == v.disk[v.ids[q]]
      {
        assert v.ids[q] in v.ids;
      }
      forall i: nat | i < n
        ensures FileSection(K, w, a, n)[i] == FileSection(K, v, a, n)[i]
      {
        SectionIsBytes(K, v, a, n, i);
        SectionIsBytes(K, w, a, n, i);
      }
      assert FileSection(K, w, a, n) == FileSection(K, v, a, n);
    }
  }

  /** Blocks in use before a write belong to none of the nodes it adds. */
  lemma AddedWereFree(before: Alloc, after: Alloc, added: seq<nat>, other: seq<nat>)
    requires Grew(before, after, added) && forall b | b in other :: InUse(before, b)
    ensures forall b | b in other :: b !in added && InUse(after, b)
  {
    hide Mul, Div, Mod, Sum, Clear;
    forall b | b in other
      ensures b !in added && InUse(after, b)
    {
      assert InUse(before, b) && !IsFree(before, b);
    }
  }

  /** Longer files need more nodes. */
  lemma NodesMonotone(K: nat, s: nat, t: nat)
    requires K > 0 && s <= t <= Capacity(K)
    ensures FileNodes(K, s) <= FileNodes(K, t)
  {
    hide GroupCut, Addr;
    GroupCutMonotone(K, Roots, s, t);
  }

  /** While a file has exactly the nodes of its size, a write that is not empty keeps it so. */
  lemma WriteKeepsNodeCount(K: nat, v: View, w: View, a: nat, d: seq<byte>, size: nat)
    requires K > 0 && Sound(K, v) && Sound(K, w) && FileWrote(K, v, w, a, d) && d != []
    requires size <= Capacity(K) && |v.ids| == FileNodes(K, size)
    ensures |w.ids| == FileNodes(K, Max(size, a + |d|))
  {
    hide FileNodes, HasByte, FileByte, Capacity;
    if size <= a + |d| {
      NodesMonotone(K, size, a + |d|);
    } else {
      NodesMonotone(K, a + |d|, size);
    }
  }

  /** The last node in preorder is always a data block: no index block is left without one. */
  lemma LastNodeIsData(K: nat, s: nat)
    requires K > 0 && 0 < s <= Capacity(K)
    ensures FileNodes(K, s) == GroupWhere(K, Roots, s - 1).node + 1
  {
    hide GroupCut, GroupWhere, Addr;
    GroupWhereIsLastNeeded(K, Roots, s - 1);
  }

  /** Number q is that of an index node in the subtree of p. */
  ghost predicate IsIndex(K: nat, p: nat, l: nat, q: nat)
    decreases l
  {
    l > 0 && (q == p || exists i: nat :: i < K && IsIndex(K, Node(K, Children(p, l), i), l - 1, q))
  }

  ghost predicate IsIndexNode(K: nat, q: nat) {
    exists r: nat :: r < 15 && IsIndex(K, Node(K, Roots, r), Level(Roots, r), q)
  }

  lemma {:induction false} IndexRange(K: nat, p: nat, l: nat, q: nat)
    requires K > 0 && IsIndex(K, p, l, q)
    ensures p <= q < p + Nodes(K, l)
    decreases l
  {
    hide Nodes, Node;
    OneNode(K, l);
    if q != p {
      var i: nat :| i < K && IsIndex(K, Node(K, Children(p, l), i), l - 1, q);
      IndexRange(K, Node(K, Children(p, l), i), l - 1, q);
      ChildRange(K, p, l, i);
    }
  }

  /** A length that needs an index node needs the node after it, its first child. */
  lemma {:induction false} IndexHasChild(K: nat, p: nat, l: nat, s: nat, q: nat)
    requires K > 0 && IsIndex(K, p, l, q) && s <= Span(K, l) && q < Cut(K, p, l, s)
    ensures q + 1 < Cut(K, p, l, s)
    decreases l, 0
  {
    hide Nodes, Node, Addr, Span, GroupCut;
    var g := Children(p, l);
    SpanIsTheSum(K, p, l);
    IndexRange(K, p, l, q);
    if q == p {
      FirstChild(K, p, l);
      GroupCutBounds(K, g, s, 0);
    } else {
      var i: nat :| i < K && IsIndex(K, Node(K, g, i), l - 1, q);
      SiblingHasChild(K, g, i, s, q);
    }
  }

  lemma SiblingHasChild(K: nat, g: Group, i: nat, s: nat, q: nat)
    requires K > 0 && Ok(g) && i < Count(K, g) && s <= Addr(K, g, Count(K, g))
    requires IsIndex(K, Node(K, g, i), Level(g, i), q) && q < GroupCut(K, g, s)
    ensures q + 1 < GroupCut(K, g, s)
    decreases Level(g, i), 1
  {
    hide Nodes, Node, Addr, Span, Cut, GroupCut;
    IndexRange(K, Node(K, g, i), Level(g, i), q);
    NextSibling(K, g, i);
    CutInSibling(K, g, s, i);
    var here := Clamp(s, Addr(K, g, i), Span(K, Level(g, i)));
    CutBounds(K, Node(K, g, i), Level(g, i), here);
    IndexHasChild(K, Node(K, g, i), Level(g, i), here, q);
  }

  /** No index node is left without a child, whatever size the nodes are those of. */
  lemma IndexNodesHaveChildren(K: nat, s: nat, q: nat)
    requires K > 0 && s <= Capacity(K) && IsIndexNode(K, q) && q < FileNodes(K, s)
    ensures q + 1 < FileNodes(K, s)
  {
    hide Node, Addr, GroupCut, IsIndex;
    var r: nat :| r < 15 && IsIndex(K, Node(K, Roots, r), Level(Roots, r), q);
    SiblingHasChild(K, Roots, r, s, q);
  }

  /** Cutting a file and writing it again: the bytes kept are the old ones, the others the new. */
  lemma ShrinkThenWrite(K: nat, v: View, w: View, u: View, s: nat, d: seq<byte>, x: nat)
    requires K > 0 && Sound(K, v) && Sound(K, w) && Sound(K, u)
    requires FileShrank(K, v, w, s) && FileWrote(K, w, u, s, d) && x < s + |d| && HasByte(K, u, x)
    ensures x >= s ==> FileByte(K, u, x) == d[x - s]
    ensures x < s ==> HasByte(K, v, x) && FileByte(K, u, x) == FileByte(K, v, x)
  {
    if x < s {
      HasByteIff(K, w, x);
      NodesMonotone(K, x + 1, s);
    }
    hide FileNodes, HasByte, FileByte, Capacity;
  }

  // ------------------------------------------------------------------------ whole runs

  datatype Change = Put(a: nat, d: seq<byte>) | CutTo(s: nat)

  ghost predicate Did(K: nat, v: View, w: View, c: Change) {
    && K > 0 && Sound(K, v) && Sound(K, w)
    && match c
       case Put(a, d) => FileWrote(K, v, w, a, d)
       case CutTo(s) => FileShrank(K, v, w, s)
  }

  ghost predicate FileRun(K: nat, views: seq<View>, changes: seq<Change>) {
    && |views| == |changes| + 1
    && forall i | 0 <= i < |changes| :: Did(K, views[i], views[i + 1], changes[i])
  }

  /** The flat file: byte x after some changes, if they and what was there before tell. */
  function ByteAfter(was: Option<byte>, changes: seq<Change>, x: nat): Option<byte> {
    if changes == [] then was
    else
      var before := ByteAfter(was, changes[..|changes| - 1], x);
      match changes[|changes| - 1]
      case Put(a, d) => if a <= x < a + |d| then Some(d[x - a]) else before
      case CutTo(s) => if x < s then before else None
  }

  function SizeAfter(size: nat, changes: seq<Change>): nat {
    if changes == [] then size
    else
      var before := SizeAfter(size, changes[..|changes| - 1]);
      match changes[|changes| - 1]
      case Put(a, d) => Max(before, a + |d|)
      case CutTo(s) => s
  }

  function KnownByte(K: nat, v: View, x: nat): Option<byte>
    requires Sound(K, v) && x < Capacity(K)
  {
    if HasByte(K, v, x) then Some(FileByte(K, v, x)) else None
  }

  /** One change does to byte x what it does to the flat file. */
  lemma ChangeRefines(K: nat, v: View, w: View, c: Change, x: nat)
    requires Did(K, v, w, c) && x < Capacity(K)
    ensures match c
      case Put(a, d) =>
        && (a <= x < a + |d| ==> KnownByte(K, w, x) == Some(d[x - a]))
        && (!(a <= x < a + |d|) && KnownByte(K, v, x).Some? ==> KnownByte(K, w, x) == KnownByte(K, v, x))
      case CutTo(s) => x < s ==> KnownByte(K, w, x) == KnownByte(K, v, x)
  {
    hide GroupWhere, GroupCut, Addr;
    HasByteIff(K, v, x);
    HasByteIff(K, w, x);
    match c
    case Put(a, d) => if x < a + |d| { NodesMonotone(K, x + 1, a + |d|); }
    case CutTo(s) => if x < s { NodesMonotone(K, x + 1, s); }
  }

  /** Through any run of writes and cuts, with the nodes they add and free, the file is the flat
      file: a byte that the run tells is there and is that. */
  lemma {:induction false} RunRefinesBytes(K: nat, views: seq<View>, changes: seq<Change>, x: nat)
    requires K > 0 && FileRun(K, views, changes) && Sound(K, views[0]) && x < Capacity(K)
    ensures Sound(K, views[|changes|])
    ensures var told := ByteAfter(KnownByte(K, views[0], x), changes, x);
      told.Some? ==> KnownByte(K, views[|changes|], x) == told
    decreases |changes|
  {
    hide KnownByte, HasByte, FileByte, Capacity, Sound, FileWrote, FileShrank;
    if changes != [] {
      var n := |changes| - 1;
      assert Did(K, views[n], views[n + 1], changes[n]);
      RunRefinesBytes(K, views[..n + 1], changes[..n], x);
      ChangeRefines(K, views[n], views[n + 1], changes[n], x);
      assert views[..n + 1][n] == views[n] && views[..n + 1][0] == views[0];
    }
  }

  /** ... and it has exactly the nodes of its size, if every write writes something. */
  lemma {:induction false} RunKeepsNodeCount(K: nat, views: seq<View>, changes: seq<Change>, size: nat)
    requires K > 0 && FileRun(K, views, changes) && size <= Capacity(K) && |views[0].ids| == FileNodes(K, size)
    requires forall c: Change | c in changes && c.Put? :: c.d != []
    ensures SizeAfter(size, changes) <= Capacity(K)
    ensures |views[|changes|].ids| == FileNodes(K, SizeAfter(size, changes))
    decreases |changes|
  {
    hide FileNodes, HasByte, FileByte, Capacity, Sound;
    if changes != [] {
      var n := |changes| - 1;
      var before := SizeAfter(size, changes[..n]);
      assert Did(K, views[n], views[n + 1], changes[n]);
      RunKeepsNodeCount(K, views[..n + 1], changes[..n], size);
      if changes[n].Put? {
        WriteKeepsNodeCount(K, views[n], views[n + 1], changes[n].a, changes[n].d, before);
      }
    }
  }

  /** What i_resize leaves of a file of 2^32 - 1 bytes that is cut to nothing: its rounded size is 0,
      so the walk frees no node, and all of them stay though an empty file needs none. */
  lemma RoundingFails(K: nat, v: View)
    requires K >= 256 && Mod(P32, 4 * K) == 0 && Sound(K, v)
    requires P32 - 1 <= Capacity(K) && |v.ids| == FileNodes(K, P32 - 1)
    ensures AlignUp(P32 - 1, 4 * K) == 0
    ensures |v.ids| > 0 == FileNodes(K, 0) && !FileShrank(K, v, v, 0)
  {
    hide Mod, AlignUp, FileShrank, GroupCut, Addr;
    AlignUpIs(P32 - 1, 4 * K);
    LastBlock(K);
    NoBytesNoNodes(K);
    LastNodeIsData(K, P32 - 1);
    UncutIsShrunk(K, v, 0, P32 - 1);
  }

  lemma NoBytesNoNodes(K: nat)
    ensures FileNodes(K, 0) == 0
  {
  }

  /** The sizes that round to 0 are those whose last block ends at 4 GiB. */
  lemma RoundsToZero(block: nat, n: nat)
    requires block >= 1024 && Mod(P32, block) == 0 && 0 < n < P32
    ensures AlignUp(n, block) == 0 <==> n + block > P32
  {
    hide AlignUp, Mod;
    AlignUpIs(n, block);
  }
}
