/** Where the bytes of a file are on the disk, by division alone: twelve direct blocks, then one, two
    and three index blocks on the way (src/HDD/Ext2.cpp). */
module Ext2Layout {
  import opened Arith
  import opened Bytes
  import opened Ext2Tree
  import opened Ext2Write

  /** The number at place j of block i. */
  function Pointer(disk: seq<seq<byte>>, i: nat, j: nat): nat {
    if i < |disk| && j < |disk[i]| / 4 then Words(disk[i])[j] else 0
  }

  function ByteOf(disk: seq<seq<byte>>, i: nat, o: nat): byte {
    if i < |disk| && o < |disk[i]| then disk[i][o] else 0
  }

  /** The block that holds block b of the file with these 15 roots, K pointers to an index block. */
  function DataBlock(K: nat, disk: seq<seq<byte>>, block: seq<nat>, b: nat): nat
    requires K > 0 && |block| == 15
  {
    if b < 12 then block[b]
    else if b - 12 < K then Pointer(disk, block[12], b - 12)
    else if b - 12 - K < K * K then
      var c := b - 12 - K;
      Pointer(disk, Pointer(disk, block[13], c / K), c % K)
    else
      var c := b - 12 - K - K * K;
      Pointer(disk, Pointer(disk, Pointer(disk, block[14], c / K / K), c / K % K), c % K)
  }

  /** Byte x of that file. */
  function DiskByte(K: nat, disk: seq<seq<byte>>, block: seq<nat>, x: nat): byte
    requires K > 0 && |block| == 15
  {
    ByteOf(disk, DataBlock(K, disk, block, Div(x, 4 * K)), Mod(x, 4 * K))
  }

  /** Byte o of a block with index i, j, k of its parents and itself: twelve blocks are behind the
      roots, K behind root 12, K times K behind root 13, and the rest behind root 14. */
  lemma DiskByteIs(K: nat, disk: seq<seq<byte>>, block: seq<nat>, i: nat, j: nat, k: nat, o: nat)
    requires i < K && j < K && k < K && o < 4 * K && |block| == 15
    ensures k < 12 ==> DiskByte(K, disk, block, Mul(k, 4 * K) + o) == ByteOf(disk, block[k], o)
    ensures DiskByte(K, disk, block, Mul(12 + k, 4 * K) + o) == ByteOf(disk, Pointer(disk, block[12], k), o)
    ensures DiskByte(K, disk, block, Mul(12 + K + (Mul(j, K) + k), 4 * K) + o)
         == ByteOf(disk, Pointer(disk, Pointer(disk, block[13], j), k), o)
    ensures DiskByte(K, disk, block, Mul(12 + K + Mul(K, K) + (Mul(Mul(i, K) + j, K) + k), 4 * K) + o)
         == ByteOf(disk, Pointer(disk, Pointer(disk, Pointer(disk, block[14], i), j), k), o)
  {
    hide ByteOf, Pointer, Mul, Div, Mod, DataBlock;
    if k < 12 {
      DivModOf(k, o, 4 * K);
      DataBlockIs(K, disk, block, k);
    }
    DivModOf(12 + k, o, 4 * K);
    DataBlockIs(K, disk, block, 12 + k);
    var c := Mul(j, K) + k;
    var d := Mul(Mul(i, K) + j, K) + k;
    DivModOf(j, k, K);
    DivModOf(i, j, K);
    DivModOf(Mul(i, K) + j, k, K);
    DivModOf(12 + K + c, o, 4 * K);
    DivModOf(12 + K + K * K + d, o, 4 * K);
    DataBlockIs(K, disk, block, 12 + K + c);
    DataBlockIs(K, disk, block, 12 + K + K * K + d);
    MulMonotone(j + 1, K, K);
    MulStep(j, K);
    ProductIs(K, K);
  }

  lemma DataBlockIs(K: nat, disk: seq<seq<byte>>, block: seq<nat>, b: nat)
    requires K > 0 && |block| == 15
    ensures b < 12 ==> DataBlock(K, disk, block, b) == block[b]
    ensures 12 <= b < 12 + K ==> DataBlock(K, disk, block, b) == Pointer(disk, block[12], b - 12)
    ensures 12 + K <= b < 12 + K + K * K ==>
      var c := b - 12 - K;
      DataBlock(K, disk, block, b) == Pointer(disk, Pointer(disk, block[13], Div(c, K)), Mod(c, K))
    ensures 12 + K + K * K <= b ==>
      var c := b - 12 - K - K * K;
      DataBlock(K, disk, block, b)
      == Pointer(disk, Pointer(disk, Pointer(disk, block[14], Div(Div(c, K), K)), Mod(Div(c, K), K)), Mod(c, K))
  {
    hide Pointer;
  }

  lemma ProductIs(b: nat, d: nat)
    ensures Mul(b, d) == b * d
  {
  }

  /** A pointer is four bytes, the lowest first. */
  lemma PointerOnDisk(disk: seq<seq<byte>>, i: nat, j: nat)
    requires i < |disk| && 4 * j + 4 <= |disk[i]|
    ensures Pointer(disk, i, j) == disk[i][4 * j] as int + 0x100 * disk[i][4 * j + 1] as int
      + 0x10000 * disk[i][4 * j + 2] as int + 0x1000000 * disk[i][4 * j + 3] as int
  {
    hide Value;
    FourDigits(disk[i][4 * j..4 * j + 4]);
  }

  lemma FourDigits(d: seq<byte>)
    requires |d| == 4
    ensures Value(d) == d[0] as int + 0x100 * d[1] as int + 0x10000 * d[2] as int + 0x1000000 * d[3] as int
  {
    assert d[1..][1..][1..] == [d[3]];
    assert d[1..][1..] == [d[2], d[3]];
    assert Value(d[1..]) == d[1] + 256 * Value(d[1..][1..]);
    assert Value(d[1..][1..]) == d[2] + 256 * Value(d[1..][1..][1..]);
    assert Value([d[3]]) == d[3] + 256 * Value([]);
  }

  /** The block that index block `id` leads to for address x below it. */
  function Descend(K: nat, disk: seq<seq<byte>>, id: nat, l: nat, x: nat): nat
    requires K > 0
    decreases l
  {
    if l == 0 then id
    else
      SpanPositive(K, l - 1);
      Descend(K, disk, Pointer(disk, id, Div(x, Span(K, l - 1))), l - 1, Mod(x, Span(K, l - 1)))
  }

  /** A step down, in the numbering. */
  lemma WhereDown(K: nat, p: nat, l: nat, x: nat)
    requires K > 0 && l > 0 && x < Span(K, l)
    ensures Span(K, l - 1) > 0 && Mod(x, Span(K, l - 1)) < Span(K, l - 1)
    ensures var i := Div(x, Span(K, l - 1));
      var c := Node(K, Children(p, l), i);
      && i < K && c == p + 1 + Mul(i, Nodes(K, l - 1))
      && Where(K, p, l, x) == Where(K, c, l - 1, Mod(x, Span(K, l - 1)))
      && p < c <= Where(K, p, l, x).node
  {
    hide Mul, Div, Mod, Node, Addr, Span, Nodes, Where, GroupWhere;
    ChildByDivision(K, p, l, x);
    var i, y := Div(x, Span(K, l - 1)), Mod(x, Span(K, l - 1));
    DivModIs(x, Span(K, l - 1));
    WhereInSibling(K, Children(p, l), i, y);
    WhereOfIndex(K, p, l, x);
  }

  /** ... and on the disk. */
  lemma OneDown(K: nat, v: View, p: nat, l: nat, x: nat)
    requires K > 0 && Sound(K, v) && Tree(K, v, p, l) && l > 0 && x < Span(K, l) && Where(K, p, l, x).node < |v.ids|
    ensures Span(K, l - 1) > 0
    ensures var i := Div(x, Span(K, l - 1));
      var c := p + 1 + Mul(i, Nodes(K, l - 1));
      p < |v.ids| && c < |v.ids| && Tree(K, v, c, l - 1) && Pointer(v.disk, v.ids[p], i) == v.ids[c]
  {
    hide Mul, Div, Mod, Node, Addr, Span, Nodes, Where, Words, Tree, GroupWhere;
    WhereDown(K, p, l, x);
    BlockOfNodeIs(K, v, p);
    ChildOfTree(K, v, p, l, Div(x, Span(K, l - 1)));
  }

  lemma WhereOfIndex(K: nat, p: nat, l: nat, x: nat)
    requires l > 0 && x < Span(K, l)
    ensures x < Addr(K, Children(p, l), K) && Where(K, p, l, x) == GroupWhere(K, Children(p, l), x)
  {
    hide Addr, Node, Span, GroupWhere;
    SpanIsTheSum(K, p, l);
  }

  lemma BlockOfNodeIs(K: nat, v: View, p: nat)
    requires Sound(K, v) && p < |v.ids|
    ensures v.ids[p] < |v.disk| && |v.disk[v.ids[p]]| == 4 * K && |Words(v.disk[v.ids[p]])| == K
  {
    hide Words;
  }

  /** Dividing on the way down leads to the block of the node that has the byte. */
  lemma {:induction false} DescendIs(K: nat, v: View, p: nat, l: nat, x: nat)
    requires K > 0 && Sound(K, v) && Tree(K, v, p, l) && x < Span(K, l) && Where(K, p, l, x).node < |v.ids|
    ensures p < |v.ids| && Descend(K, v.disk, v.ids[p], l, x) == v.ids[Where(K, p, l, x).node]
    decreases l
  {
    hide Mul, Div, Mod, Node, Addr, Span, Nodes, Words, Tree, GroupWhere, Pointer;
    if l > 0 {
      WhereDown(K, p, l, x);
      OneDown(K, v, p, l, x);
      DescendIs(K, v, p + 1 + Mul(Div(x, Span(K, l - 1)), Nodes(K, l - 1)), l - 1, Mod(x, Span(K, l - 1)));
    }
  }

  lemma Spans(K: nat)
    ensures Span(K, 0) == 4 * K && Span(K, 1) == Mul(K, 4 * K) && Span(K, 2) == Mul(K, Mul(K, 4 * K))
    ensures Span(K, 3) == Mul(K, Mul(K, Mul(K, 4 * K)))
    ensures Nodes(K, 0) == 1 && Nodes(K, 1) == 1 + K && Nodes(K, 2) == 1 + K + K * K
  {
    assert Span(K, 1) == Mul(K, Span(K, 0));
    assert Span(K, 2) == Mul(K, Span(K, 1));
    assert Nodes(K, 1) == 1 + Mul(K, 1);
    assert Nodes(K, 2) == 1 + Mul(K, 1 + K);
  }

  /** The way from an index block of each level, for byte x below it, which is in block c below it. */
  lemma Ways(K: nat, disk: seq<seq<byte>>, id: nat, x: nat)
    requires K > 0
    ensures var c := Div(x, 4 * K);
      && Descend(K, disk, id, 0, x) == id
      && Descend(K, disk, id, 1, x) == Pointer(disk, id, c)
      && Descend(K, disk, id, 2, x) == Pointer(disk, Pointer(disk, id, Div(c, K)), Mod(c, K))
      && Descend(K, disk, id, 3, x)
         == Pointer(disk, Pointer(disk, Pointer(disk, id, Div(Div(c, K), K)), Mod(Div(c, K), K)), Mod(c, K))
  {
    hide Mul, Div, Mod, Pointer, Span;
    Spans(K);
    var s1 := Mul(K, 4 * K);
    NestedDivision(x, K, 4 * K);
    NestedDivision(x, K, s1);
    var y := Mod(x, Mul(K, s1));
    NestedDivision(y, K, 4 * K);
    assert Descend(K, disk, id, 1, x) == Pointer(disk, id, Div(x, 4 * K));
    assert Descend(K, disk, id, 2, x)
        == Descend(K, disk, Pointer(disk, id, Div(x, s1)), 1, Mod(x, s1));
    assert Descend(K, disk, id, 3, x)
        == Descend(K, disk, Pointer(disk, id, Div(x, Mul(K, s1))), 2, y);
  }

  lemma Factors(i: nat, f: nat, K: nat)
    ensures Mul(i, 1) == i && Mul(i, 1 + K) == i + Mul(i, K)
    ensures Mul(i, 1 + K + K * K) == i + Mul(i, K) + Mul(Mul(i, K), K)
    ensures Mul(Mul(i, K) + f, K) == Mul(Mul(i, K), K) + Mul(f, K)
  {
  }

  /** The number of the node that holds block c below an index node p of each level. */
  lemma PlaceBelowOne(K: nat, p: nat, x: nat)
    requires K > 0 && x < Span(K, 1)
    ensures Where(K, p, 1, x) == Place(p + 1 + Div(x, 4 * K), Mod(x, 4 * K))
  {
    hide Mul, Div, Mod, Node, Addr, Span, Nodes, GroupWhere;
    Spans(K);
    WhereDown(K, p, 1, x);
    Factors(Div(x, 4 * K), 0, K);
  }

  lemma PlaceBelowTwo(K: nat, p: nat, x: nat)
    requires K > 0 && x < Span(K, 2)
    ensures var c := Div(x, 4 * K); Where(K, p, 2, x) == Place(p + 2 + c + Div(c, K), Mod(x, 4 * K))
  {
    hide Mul, Div, Mod, Node, Addr, Span, Nodes, GroupWhere, Where;
    Spans(K);
    var s1, c := Mul(K, 4 * K), Div(x, 4 * K);
    NestedDivision(x, K, 4 * K);
    WhereDown(K, p, 2, x);
    PlaceBelowOne(K, p + 1 + Mul(Div(x, s1), 1 + K), Mod(x, s1));
    DivModIs(c, K);
    Factors(Div(c, K), 0, K);
  }

  lemma PlaceBelowThree(K: nat, p: nat, x: nat)
    requires K > 0 && x < Span(K, 3)
    ensures var c := Div(x, 4 * K);
      Where(K, p, 3, x) == Place(p + 3 + c + Div(c, K) + Div(Div(c, K), K), Mod(x, 4 * K))
  {
    hide Mul, Div, Mod, Node, Addr, Span, Nodes, GroupWhere, Where;
    Spans(K);
    var s1, c := Mul(K, 4 * K), Div(x, 4 * K);
    NestedDivision(x, K, 4 * K);
    NestedDivision(x, K, s1);
    var s2 := Mul(K, s1);
    var i, y := Div(x, s2), Mod(x, s2);
    NestedDivision(y, K, 4 * K);
    WhereDown(K, p, 3, x);
    PlaceBelowTwo(K, p + 1 + Mul(i, 1 + K + K * K), y);
    DivModIs(c, K);
    DivModIs(Div(c, K), K);
    DivModIs(Div(y, 4 * K), K);
    Factors(i, Mod(Div(c, K), K), K);
  }

  /** Where the 15 roots begin: their nodes and their bytes. */
  lemma {:induction false} DirectRoots(K: nat, r: nat)
    requires r <= 12
    ensures Node(K, Roots, r) == r && Addr(K, Roots, r) == r * (4 * K)
  {
    if r > 0 {
      DirectRoots(K, r - 1);
    }
  }

  lemma IndirectRoots(K: nat)
    ensures Node(K, Roots, 12) == 12 && Node(K, Roots, 13) == 13 + K && Node(K, Roots, 14) == 14 + 2 * K + K * K
    ensures var B := 4 * K;
      && Addr(K, Roots, 12) == Mul(12, B) && Addr(K, Roots, 13) == Mul(12 + K, B)
      && Addr(K, Roots, 14) == Mul(12 + K + K * K, B)
      && Addr(K, Roots, Count(K, Roots)) == Mul(12 + K + K * K + K * K * K, B)
  {
    hide Node, Addr, Nodes, Span;
    DirectRoots(K, 12);
    Spans(K);
    NextSibling(K, Roots, 12);
    NextSibling(K, Roots, 13);
    NextSibling(K, Roots, 14);
    assert Mul(K, 4 * K) == K * (4 * K);
    assert Mul(K, Mul(K, 4 * K)) == K * K * (4 * K);
    assert Mul(K, Mul(K, Mul(K, 4 * K))) == K * K * K * (4 * K);
  }

  /** The first data block below root r. */
  function FirstBlock(K: nat, r: nat): nat {
    if r <= 12 then r else if r == 13 then 12 + K else if r == 14 then 12 + K + K * K else 12 + K + K * K + K * K * K
  }

  lemma RootAt(K: nat, r: nat)
    requires r <= 15
    ensures Addr(K, Roots, r) == Mul(FirstBlock(K, r), 4 * K)
  {
    hide Node, Addr;
    if r <= 12 {
      DirectRoots(K, r);
    }
    IndirectRoots(K);
  }

  /** The root whose tree holds block b, which is byte x's. */
  lemma InRoot(K: nat, x: nat, r: nat)
    requires K > 0 && r < 15 && FirstBlock(K, r) <= Div(x, 4 * K) < FirstBlock(K, r + 1)
    ensures x < Addr(K, Roots, Count(K, Roots))
    ensures Addr(K, Roots, r) <= x
    ensures var y := x - Addr(K, Roots, r);
      && y < Span(K, Level(Roots, r))
      && Div(y, 4 * K) == Div(x, 4 * K) - FirstBlock(K, r) && Mod(y, 4 * K) == Mod(x, 4 * K)
      && GroupWhere(K, Roots, x) == Where(K, Node(K, Roots, r), Level(Roots, r), y)
      && Node(K, Roots, r) <= GroupWhere(K, Roots, x).node
  {
    hide Node, Addr, Span, GroupWhere, Where, Mul, Div, Mod, FirstBlock;
    var f, g := FirstBlock(K, r), FirstBlock(K, r + 1);
    RootAt(K, r);
    RootAt(K, r + 1);
    DivBelow(x, 4 * K, f);
    DivBelow(x, 4 * K, g);
    NextSibling(K, Roots, r);
    var y := x - Addr(K, Roots, r);
    WhereInSibling(K, Roots, r, y);
    DivModIs(y, 4 * K);
    MulSum(f, Div(y, 4 * K), 4 * K);
    DivModOf(f + Div(y, 4 * K), Mod(y, 4 * K), 4 * K);
  }

  lemma Boundary(K: nat, x: nat)
    requires K > 0
    ensures x < Addr(K, Roots, Count(K, Roots)) <==> Div(x, 4 * K) < FirstBlock(K, 15)
  {
    hide Addr, Mul, Div, FirstBlock;
    RootAt(K, 15);
    DivBelow(x, 4 * K, FirstBlock(K, 15));
  }

  /** The root that block b is below. */
  function RootOf(K: nat, b: nat): nat {
    if b < 12 then b else if b < 12 + K then 12 else if b < 12 + K + K * K then 13 else 14
  }

  lemma RootOfIs(K: nat, x: nat)
    requires K > 0 && x < Addr(K, Roots, Count(K, Roots))
    ensures var b := Div(x, 4 * K);
      RootOf(K, b) < 15 && FirstBlock(K, RootOf(K, b)) <= b < FirstBlock(K, RootOf(K, b) + 1)
  {
    hide Addr;
    Boundary(K, x);
  }

  lemma PlaceOfLeaf(K: nat, p: nat, x: nat)
    requires x < Span(K, 0)
    ensures Where(K, p, 0, x) == Place(p, x) && Mod(x, 4 * K) == x
  {
    hide Mul, Div, Mod;
    MulStep(0, 4 * K);
    DivModOf(0, x, 4 * K);
  }

  /** The data block of byte x, in preorder: behind it and the index blocks there are so far. */
  lemma PlaceInFile(K: nat, x: nat)
    requires K > 0 && x < Addr(K, Roots, Count(K, Roots))
    ensures var b, w := x / (4 * K), GroupWhere(K, Roots, x);
      && w.offset == x % (4 * K)
      && (b < 12 ==> w.node == b)
      && (12 <= b < 12 + K ==> w.node == b + 1)
      && (12 + K <= b < 12 + K + K * K ==> w.node == b + 3 + (b - 12 - K) / K)
      && (12 + K + K * K <= b ==>
           var c := b - 12 - K - K * K; w.node == b + 5 + K + c / K + c / K / K)
  {
    hide Node, Addr, Span, GroupWhere, Where, Mul;
    var b := Div(x, 4 * K);
    var r := RootOf(K, b);
    RootOfIs(K, x);
    InRoot(K, x, r);
    var y := x - Addr(K, Roots, r);
    IndirectRoots(K);
    DirectRoots(K, if r < 12 then r else 12);
    if r < 12 {
      PlaceOfLeaf(K, r, y);
    } else if r == 12 {
      PlaceBelowOne(K, 12, y);
    } else if r == 13 {
      PlaceBelowTwo(K, 13 + K, y);
    } else {
      PlaceBelowThree(K, 14 + 2 * K + K * K, y);
    }
  }

  /** The data block of byte x is the one the numbers on the disk lead to. */
  lemma BlockOnDisk(K: nat, v: View, block: seq<nat>, x: nat)
    requires K > 0 && Sound(K, v) && PointersRight(K, v, Roots, block) && AllTrees(K, v, Roots)
    requires x < Addr(K, Roots, Count(K, Roots)) && GroupWhere(K, Roots, x).node < |v.ids|
    ensures |block| == 15
    ensures DataBlock(K, v.disk, block, Div(x, 4 * K)) == v.ids[GroupWhere(K, Roots, x).node]
  {
    hide Node, Addr, Span, GroupWhere, Where, DataBlock, Sound, Tree, Descend, Mul, RootOf, FirstBlock, AllTrees,
      PointersRight, Level, Mod, Div;
    var b := Div(x, 4 * K);
    var r := RootOf(K, b);
    RootOfIs(K, x);
    InRoot(K, x, r);
    RootFound(K, v, block, r);
    var y := x - Addr(K, Roots, r);
    DescendIs(K, v, Node(K, Roots, r), Level(Roots, r), y);
    WayFromRoot(K, v.disk, block, b, r, y);
  }

  lemma WayFromRoot(K: nat, disk: seq<seq<byte>>, block: seq<nat>, b: nat, r: nat, y: nat)
    requires K > 0 && |block| == 15 && r == RootOf(K, b) && FirstBlock(K, r) <= b
    requires Div(y, 4 * K) == b - FirstBlock(K, r)
    ensures DataBlock(K, disk, block, b) == Descend(K, disk, block[r], Level(Roots, r), y)
  {
    hide Pointer, Descend;
    Ways(K, disk, block[r], y);
  }

  lemma RootFound(K: nat, v: View, block: seq<nat>, r: nat)
    requires Sound(K, v) && PointersRight(K, v, Roots, block) && AllTrees(K, v, Roots) && r < 15
    ensures |block| == 15 && Tree(K, v, Node(K, Roots, r), Level(Roots, r))
    ensures Node(K, Roots, r) < |v.ids| ==> block[r] == v.ids[Node(K, Roots, r)]
  {
    hide Node, Tree;
  }

  /** ... and byte x is where they lead. */
  lemma ByteOnDisk(K: nat, v: View, block: seq<nat>, x: nat)
    requires K > 0 && Sound(K, v) && PointersRight(K, v, Roots, block) && AllTrees(K, v, Roots)
    requires x < Addr(K, Roots, Count(K, Roots)) && GroupWhere(K, Roots, x).node < |v.ids|
    ensures |block| == 15 && DiskByte(K, v.disk, block, x) == ByteAt(K, v, GroupWhere(K, Roots, x))
  {
    hide Node, Addr, Span, GroupWhere, Where, DataBlock, Tree, AllTrees, PointersRight, Level, Mod, Div;
    BlockOnDisk(K, v, block, x);
    OffsetInFile(K, x);
  }

  lemma OffsetInFile(K: nat, x: nat)
    requires K > 0 && x < Addr(K, Roots, Count(K, Roots))
    ensures GroupWhere(K, Roots, x).offset == Mod(x, 4 * K)
  {
    hide Addr, GroupWhere;
    PlaceInFile(K, x);
  }
}
