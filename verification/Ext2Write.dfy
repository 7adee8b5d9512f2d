/** What writing through the block tree of an inode does to the bytes, the tree and the node
    numbers (src/HDD/Ext2.cpp), node by node and sibling by sibling. */
module Ext2Write {
  import opened Arith
  import opened Bytes
  import opened Ext2Tree

  function Min(a: nat, b: nat): nat { if a < b then a else b }
  function Max(a: nat, b: nat): nat { if a < b then b else a }

  /** What is left of data d, meant for address a, behind address e. */
  function Rest(d: seq<byte>, a: nat, e: nat): seq<byte> {
    if e <= a then d else if e >= a + |d| then [] else d[e - a..]
  }

  /** Where the rest goes, counted from e. */
  function RestAddr(a: nat, e: nat): nat { if e <= a then a - e else 0 }

  /** Blocks that differ belong to the nodes lo..hi. */
  ghost predicate SameBut(v: View, w: View, lo: nat, hi: nat) {
    && |v.disk| == |w.disk|
    && forall b | 0 <= b < |v.disk| && w.disk[b] != v.disk[b] ::
         exists q :: lo <= q < hi && q < |w.ids| && w.ids[q] == b
  }

  lemma OutsideIsSame(K: nat, v: View, w: View, lo: nat, hi: nat, q: nat)
    requires Sound(K, v) && Sound(K, w) && SameBut(v, w, lo, hi)
    requires q < |w.ids| && (q < lo || hi <= q)
    ensures w.disk[w.ids[q]] == v.disk[w.ids[q]]
  {
  }

  /** The byte at place c, that is at address x, is the written one inside a..a+|d| and an old
      one outside. */
  ghost predicate ByteRight(K: nat, v: View, w: View, c: Place, x: nat, a: nat, d: seq<byte>)
    requires Sound(K, v) && Sound(K, w) && c.node < |w.ids| && c.offset < 4 * K
  {
    if a <= x < a + |d| then ByteAt(K, w, c) == d[x - a]
    else c.node < |v.ids| ==> ByteAt(K, w, c) == ByteAt(K, v, c)
  }

  /** Writing data d at address a of node p turned v into w. */
  ghost predicate Wrote(K: nat, v: View, w: View, p: nat, l: nat, a: nat, d: seq<byte>)
    requires K > 0 && Sound(K, v) && Sound(K, w)
  {
    && v.ids <= w.ids
    && |w.ids| == (if d == [] then |v.ids| else Max(|v.ids|, Cut(K, p, l, Min(a + |d|, Span(K, l)))))
    && SameBut(v, w, p, p + Nodes(K, l))
    && Tree(K, w, p, l)
    && forall x: nat | x < Span(K, l) && Where(K, p, l, x).node < |w.ids| ::
       ByteRight(K, v, w, Where(K, p, l, x), x, a, d)
  }

  /** Writing data d at address a of a group, as far as the siblings 0..i, turned v into w. */
  ghost predicate GroupWrote(K: nat, v: View, w: View, g: Group, i: nat, a: nat, d: seq<byte>)
    requires K > 0 && Sound(K, v) && Sound(K, w) && Ok(g)
  {
    && i <= Count(K, g) && Node(K, g, 0) <= |v.ids|
    && v.ids <= w.ids
    && Addr(K, g, i) <= Addr(K, g, Count(K, g))
    && |w.ids| == (if d == [] then |v.ids| else Max(|v.ids|, GroupCut(K, g, Min(a + |d|, Addr(K, g, i)))))
    && SameBut(v, w, Node(K, g, 0), Node(K, g, i))
    && AllTrees(K, w, g)
    && BytesRight(K, v, w, g, i, a, d)
  }

  ghost predicate AllTrees(K: nat, w: View, g: Group)
    requires Sound(K, w) && Ok(g)
  {
    forall j: nat | j < Count(K, g) :: Tree(K, w, Node(K, g, j), Level(g, j))
  }

  /** The bytes of the siblings 0..i are right. */
  ghost predicate BytesRight(K: nat, v: View, w: View, g: Group, i: nat, a: nat, d: seq<byte>)
    requires K > 0 && Sound(K, v) && Sound(K, w) && Ok(g) && Addr(K, g, i) <= Addr(K, g, Count(K, g))
  {
    forall x: nat | x < Addr(K, g, i) && GroupWhere(K, g, x).node < |w.ids| ::
      ByteRight(K, v, w, GroupWhere(K, g, x), x, a, d)
  }

  // ---------------------------------------------------------------- the tree

  /** A subtree stands when its blocks and its part of the numbering are untouched. */
  lemma {:induction false} TreeFrame(K: nat, v: View, w: View, p: nat, l: nat)
    requires K > 0 && Sound(K, v) && Sound(K, w) && v.ids <= w.ids && Tree(K, v, p, l)
    requires |v.ids| == |w.ids| || p + Nodes(K, l) <= |v.ids| || |w.ids| <= p
    requires forall q | p <= q < p + Nodes(K, l) && q < |v.ids| :: w.disk[v.ids[q]] == v.disk[v.ids[q]]
    ensures Tree(K, w, p, l)
    decreases l
  {
    hide Nodes, Node, Words;
    if p < |w.ids| && l > 0 {
      OneNode(K, l);
      forall i: nat | i < K && Node(K, Children(p, l), i) < |w.ids|
        ensures Words(w.disk[w.ids[p]])[i] == w.ids[Node(K, Children(p, l), i)]
        ensures Tree(K, w, Node(K, Children(p, l), i), l - 1)
      {
        var c := Node(K, Children(p, l), i);
        ChildRange(K, p, l, i);
        assert c < |v.ids|;
        TreeFrame(K, v, w, c, l - 1);
      }
    }
  }

  lemma OneNode(K: nat, l: nat)
    ensures Nodes(K, l) >= 1
  {
  }

  /** A child and its descendants lie inside the parent. */
  lemma ChildRange(K: nat, p: nat, l: nat, i: nat)
    requires K > 0 && l > 0 && i < K
    ensures var c := Node(K, Children(p, l), i); p < c && c + Nodes(K, l - 1) <= p + Nodes(K, l)
  {
    hide Nodes, Node, Addr, Span;
    FirstChild(K, p, l);
    InOrder(K, Children(p, l), 0, i);
    InOrder(K, Children(p, l), i, K);
    SpanIsTheSum(K, p, l);
  }

  lemma TreeOfNothing(K: nat, v: View, p: nat, l: nat)
    requires Sound(K, v) && |v.ids| <= p
    ensures Tree(K, v, p, l)
  {
  }

  // ------------------------------------------------------- one sibling further

  /** Reaching sibling i with data left means every node before it is there. */
  lemma SiblingReached(K: nat, v: View, w: View, g: Group, i: nat, a: nat, d: seq<byte>)
    requires K > 0 && Sound(K, v) && Sound(K, w) && Ok(g) && i < Count(K, g)
    requires GroupWrote(K, v, w, g, i, a, d) && Rest(d, a, Addr(K, g, i)) != []
    ensures Node(K, g, i) <= |w.ids| && |w.ids| == Max(|v.ids|, Node(K, g, i))
  {
    hide Node, Addr, GroupCut;
    GroupCutBounds(K, g, Addr(K, g, i), i);
  }

  /** How many nodes there are one sibling further. */
  lemma LengthStep(K: nat, v: View, w: View, u: View, g: Group, i: nat, a: nat, d: seq<byte>)
    requires K > 0 && Sound(K, v) && Sound(K, w) && Sound(K, u) && Ok(g) && i < Count(K, g)
    requires GroupWrote(K, v, w, g, i, a, d)
    requires Wrote(K, w, u, Node(K, g, i), Level(g, i), RestAddr(a, Addr(K, g, i)), Rest(d, a, Addr(K, g, i)))
    ensures Addr(K, g, i + 1) <= Addr(K, g, Count(K, g))
    ensures |u.ids| == (if d == [] then |v.ids| else Max(|v.ids|, GroupCut(K, g, Min(a + |d|, Addr(K, g, i + 1)))))
    ensures |u.ids| == |w.ids| || (Node(K, g, i) <= |w.ids| && |u.ids| <= Node(K, g, i + 1))
  {
    hide Node, Addr, GroupCut, Cut, Span, Nodes, GroupWhere, Where, SameBut, Tree, ByteRight;
    NextSibling(K, g, i);
    InOrder(K, g, i + 1, Count(K, g));
    var e, l := Addr(K, g, i), Level(g, i);
    if Rest(d, a, e) != [] {
      SiblingReached(K, v, w, g, i, a, d);
      SpanPositive(K, l);
      var t := Min(RestAddr(a, e) + |Rest(d, a, e)|, Span(K, l));
      CutAt(K, g, i, t);
      CutBounds(K, Node(K, g, i), l, t);
    }
  }

  lemma SameButStep(v: View, w: View, u: View, lo: nat, mid: nat, hi: nat)
    requires SameBut(v, w, lo, mid) && SameBut(w, u, mid, hi) && lo <= mid <= hi && w.ids <= u.ids
    ensures SameBut(v, u, lo, hi)
  {
  }

  /** The other siblings stand. */
  lemma OtherTreesStand(K: nat, w: View, u: View, g: Group, i: nat, j: nat)
    requires K > 0 && Sound(K, w) && Sound(K, u) && Ok(g) && i < Count(K, g) && j < Count(K, g) && i != j
    requires w.ids <= u.ids && SameBut(w, u, Node(K, g, i), Node(K, g, i + 1))
    requires |u.ids| == |w.ids| || (Node(K, g, i) <= |w.ids| && |u.ids| <= Node(K, g, i + 1))
    requires Tree(K, w, Node(K, g, j), Level(g, j))
    ensures Tree(K, u, Node(K, g, j), Level(g, j))
  {
    hide Node, Nodes, Tree;
    NextSibling(K, g, j);
    if j < i {
      InOrder(K, g, j + 1, i);
    } else {
      InOrder(K, g, i + 1, j);
    }
    var lo, hi := Node(K, g, j), Node(K, g, j + 1);
    forall q | lo <= q < hi && q < |w.ids|
      ensures u.disk[w.ids[q]] == w.disk[w.ids[q]]
    {
      OutsideIsSame(K, w, u, Node(K, g, i), Node(K, g, i + 1), q);
    }
    TreeFrame(K, w, u, lo, Level(g, j));
  }

  /** The bytes of the siblings before i stay right. */
  lemma EarlierByteStands(K: nat, v: View, w: View, u: View, g: Group, i: nat, a: nat, d: seq<byte>, x: nat)
    requires K > 0 && Sound(K, v) && Sound(K, w) && Sound(K, u) && Ok(g) && i < Count(K, g)
    requires GroupWrote(K, v, w, g, i, a, d)
    requires w.ids <= u.ids && SameBut(w, u, Node(K, g, i), Node(K, g, i + 1))
    requires |u.ids| == |w.ids| || (Node(K, g, i) <= |w.ids| && |u.ids| <= Node(K, g, i + 1))
    requires x < Addr(K, g, i) && GroupWhere(K, g, x).node < |u.ids|
    ensures ByteRight(K, v, u, GroupWhere(K, g, x), x, a, d)
  {
    hide Node, Addr, Nodes, Tree, GroupCut, GroupWhere;
    GroupWhereIsLastNeeded(K, g, x);
    GroupCutBounds(K, g, x + 1, i);
    OutsideIsSame(K, w, u, Node(K, g, i), Node(K, g, i + 1), GroupWhere(K, g, x).node);
    assert ByteRight(K, v, w, GroupWhere(K, g, x), x, a, d);
  }

  /** The bytes of sibling i become right. */
  lemma NewByteStands(K: nat, v: View, w: View, u: View, g: Group, i: nat, a: nat, d: seq<byte>, x: nat)
    requires K > 0 && Sound(K, v) && Sound(K, w) && Sound(K, u) && Ok(g) && i < Count(K, g)
    requires GroupWrote(K, v, w, g, i, a, d)
    requires Wrote(K, w, u, Node(K, g, i), Level(g, i), RestAddr(a, Addr(K, g, i)), Rest(d, a, Addr(K, g, i)))
    requires Addr(K, g, i) <= x < Addr(K, g, i + 1) <= Addr(K, g, Count(K, g)) && GroupWhere(K, g, x).node < |u.ids|
    ensures ByteRight(K, v, u, GroupWhere(K, g, x), x, a, d)
  {
    hide Node, Addr, Nodes, Span, Tree, GroupCut, GroupWhere, Where, Cut;
    NextSibling(K, g, i);
    var e, y := Addr(K, g, i), x - Addr(K, g, i);
    WhereInSibling(K, g, i, y);
    var c := GroupWhere(K, g, x);
    assert ByteRight(K, w, u, c, y, RestAddr(a, e), Rest(d, a, e));
    if c.node < |v.ids| {
      OutsideIsSame(K, v, w, Node(K, g, 0), Node(K, g, i), c.node);
    }
  }

  lemma TreesStep(K: nat, w: View, u: View, g: Group, i: nat)
    requires K > 0 && Sound(K, w) && Sound(K, u) && Ok(g) && i < Count(K, g)
    requires w.ids <= u.ids && SameBut(w, u, Node(K, g, i), Node(K, g, i + 1))
    requires |u.ids| == |w.ids| || (Node(K, g, i) <= |w.ids| && |u.ids| <= Node(K, g, i + 1))
    requires AllTrees(K, w, g) && Tree(K, u, Node(K, g, i), Level(g, i))
    ensures AllTrees(K, u, g)
  {
    hide Node, Tree, SameBut;
    forall j: nat | j < Count(K, g)
      ensures Tree(K, u, Node(K, g, j), Level(g, j))
    {
      if j != i {
        OtherTreesStand(K, w, u, g, i, j);
      }
    }
  }

  lemma BytesStep(K: nat, v: View, w: View, u: View, g: Group, i: nat, a: nat, d: seq<byte>)
    requires K > 0 && Sound(K, v) && Sound(K, w) && Sound(K, u) && Ok(g) && i < Count(K, g)
    requires GroupWrote(K, v, w, g, i, a, d)
    requires Wrote(K, w, u, Node(K, g, i), Level(g, i), RestAddr(a, Addr(K, g, i)), Rest(d, a, Addr(K, g, i)))
    requires Addr(K, g, i + 1) <= Addr(K, g, Count(K, g)) && SameBut(w, u, Node(K, g, i), Node(K, g, i + 1))
    requires |u.ids| == |w.ids| || (Node(K, g, i) <= |w.ids| && |u.ids| <= Node(K, g, i + 1))
    ensures BytesRight(K, v, u, g, i + 1, a, d)
  {
    hide BytesRight, ByteRight, SameBut, AllTrees, Tree, GroupWhere, Where, Cut, GroupCut, Addr, Span, Node, Nodes;
    forall x: nat | x < Addr(K, g, i + 1) && GroupWhere(K, g, x).node < |u.ids|
      ensures ByteRight(K, v, u, GroupWhere(K, g, x), x, a, d)
    {
      if x < Addr(K, g, i) {
        EarlierByteStands(K, v, w, u, g, i, a, d, x);
      } else {
        NewByteStands(K, v, w, u, g, i, a, d, x);
      }
    }
    BytesRightIntro(K, v, u, g, i + 1, a, d);
  }

  lemma BytesRightIntro(K: nat, v: View, w: View, g: Group, i: nat, a: nat, d: seq<byte>)
    requires K > 0 && Sound(K, v) && Sound(K, w) && Ok(g) && Addr(K, g, i) <= Addr(K, g, Count(K, g))
    requires forall x: nat | x < Addr(K, g, i) && GroupWhere(K, g, x).node < |w.ids| ::
               ByteRight(K, v, w, GroupWhere(K, g, x), x, a, d)
    ensures BytesRight(K, v, w, g, i, a, d)
  {
  }

  /** One sibling further. */
  lemma WriteStep(K: nat, v: View, w: View, u: View, g: Group, i: nat, a: nat, d: seq<byte>)
    requires K > 0 && Sound(K, v) && Sound(K, w) && Sound(K, u) && Ok(g) && i < Count(K, g)
    requires GroupWrote(K, v, w, g, i, a, d)
    requires Wrote(K, w, u, Node(K, g, i), Level(g, i), RestAddr(a, Addr(K, g, i)), Rest(d, a, Addr(K, g, i)))
    ensures GroupWrote(K, v, u, g, i + 1, a, d)
  {
    hide Node, Addr, Nodes, Span, Tree, GroupCut, GroupWhere, Where, Cut, ByteRight, SameBut, AllTrees, BytesRight;
    LengthStep(K, v, w, u, g, i, a, d);
    NextSibling(K, g, i);
    InOrder(K, g, 0, i);
    SameButStep(v, w, u, Node(K, g, 0), Node(K, g, i), Node(K, g, i + 1));
    TreesStep(K, w, u, g, i);
    BytesStep(K, v, w, u, g, i, a, d);
  }

  // --------------------------------------------------------- a whole index node

  /** Siblings the write starts behind are passed over when they are there. */
  lemma SkipSiblings(K: nat, v: View, g: Group, i: nat, a: nat, d: seq<byte>)
    requires K > 0 && Sound(K, v) && Ok(g) && i <= Count(K, g) && AllTrees(K, v, g)
    requires Addr(K, g, i) <= a && Node(K, g, i) <= |v.ids|
    ensures GroupWrote(K, v, v, g, i, a, d)
  {
    hide Node, Addr, Nodes, Span, Tree, GroupCut, GroupWhere, AllTrees;
    InOrder(K, g, 0, i);
    InOrder(K, g, i, Count(K, g));
    GroupCutBounds(K, g, Addr(K, g, i), i);
  }

  lemma NothingToWrite(K: nat, v: View, p: nat, l: nat, a: nat)
    requires K > 0 && Sound(K, v) && Tree(K, v, p, l)
    ensures Wrote(K, v, v, p, l, a, [])
  {
    hide Node, Addr, Nodes, Span, Tree, GroupCut, Where;
  }

  /** Nothing is written behind the end of the data. */
  lemma {:induction false} WriteRestStep(K: nat, v: View, w: View, g: Group, i: nat, a: nat, d: seq<byte>)
    requires K > 0 && Sound(K, v) && Sound(K, w) && Ok(g) && i <= Count(K, g)
    requires GroupWrote(K, v, w, g, i, a, d) && Rest(d, a, Addr(K, g, i)) == []
    ensures GroupWrote(K, v, w, g, Count(K, g), a, d)
    decreases Count(K, g) - i
  {
    hide Node, Addr, Nodes, Span, Tree, GroupCut, GroupWhere, Wrote, BytesRight, SameBut;
    if i < Count(K, g) {
      NothingToWrite(K, w, Node(K, g, i), Level(g, i), RestAddr(a, Addr(K, g, i)));
      WriteStep(K, v, w, w, g, i, a, d);
      InOrder(K, g, i, i + 1);
      WriteRestStep(K, v, w, g, i + 1, a, d);
    }
  }

  /** A node may have been added at the end of the numbering, for node p. */
  ghost predicate MayHaveAdded(v: View, w: View, p: nat) {
    w.disk == v.disk && (w.ids == v.ids || (p == |v.ids| && |w.ids| == p + 1 && v.ids <= w.ids))
  }

  /** Numbers that fit an index block. */
  predicate Small(buf: seq<nat>) {
    forall i | 0 <= i < |buf| :: buf[i] < P32
  }

  /** The pointers in `buf` are those of the siblings that are there. */
  ghost predicate PointersRight(K: nat, v: View, g: Group, buf: seq<nat>)
    requires Ok(g)
  {
    |buf| == Count(K, g) && forall i: nat | i < Count(K, g) && Node(K, g, i) < |v.ids| :: buf[i] == v.ids[Node(K, g, i)]
  }

  /** The loop over the children leaves the block of the index node itself alone. */
  lemma IndexBlockKept(K: nat, x: View, w: View, p: nat, l: nat, a: nat, d: seq<byte>)
    requires K > 0 && l > 0 && Sound(K, x) && Sound(K, w) && p < |x.ids| && GroupWrote(K, x, w, Children(p, l), K, a, d)
    ensures p < |w.ids| && w.disk[w.ids[p]] == x.disk[x.ids[p]]
    ensures SameBut(w, w, p, p + 1)
  {
    hide Node, Addr, GroupCut, AllTrees, BytesRight;
    FirstChild(K, p, l);
    OutsideIsSame(K, x, w, p + 1, Node(K, Children(p, l), K), p);
  }

  /** The block just written holds the pointers of the buffer. */
  lemma IndexBlockWritten(K: nat, w: View, u: View, p: nat, l: nat, buf: seq<nat>)
    requires l > 0 && PointersRight(K, w, Children(p, l), buf) && Small(buf) && u.ids == w.ids
    ensures |Block(buf)| == 4 * |buf| && Words(Block(buf)) == buf && PointersRight(K, u, Children(p, l), buf)
  {
    hide Node, Block, Words;
    WordsOfBlock(buf);
  }

  lemma IndexLength(K: nat, v: View, x: View, w: View, p: nat, l: nat, a: nat, d: seq<byte>)
    requires K > 0 && l > 0 && d != [] && Sound(K, v) && Sound(K, x) && Sound(K, w)
    requires MayHaveAdded(v, x, p) && p < |x.ids| && GroupWrote(K, x, w, Children(p, l), K, a, d)
    ensures v.ids <= w.ids && |w.ids| == Max(|v.ids|, Cut(K, p, l, Min(a + |d|, Span(K, l))))
  {
    hide Node, Addr, Nodes, Span, GroupCut, BytesRight, SameBut, AllTrees;
    SpanIsTheSum(K, p, l);
    SpanPositive(K, l);
    CutBounds(K, p, l, Min(a + |d|, Span(K, l)));
  }

  lemma IndexTree(K: nat, w: View, u: View, p: nat, l: nat)
    requires K > 0 && l > 0 && Sound(K, w) && Sound(K, u) && u.ids == w.ids && p < |w.ids|
    requires AllTrees(K, w, Children(p, l)) && SameBut(w, u, p, p + 1)
    requires PointersRight(K, u, Children(p, l), Words(u.disk[u.ids[p]]))
    ensures Tree(K, u, p, l)
  {
    hide Node, Nodes, Words, SameBut;
    forall i: nat | i < K && Node(K, Children(p, l), i) < |u.ids|
      ensures Tree(K, u, Node(K, Children(p, l), i), l - 1)
    {
      var c := Node(K, Children(p, l), i);
      ChildRange(K, p, l, i);
      assert Tree(K, w, c, l - 1);
      forall q | c <= q < c + Nodes(K, l - 1) && q < |w.ids|
        ensures u.disk[w.ids[q]] == w.disk[w.ids[q]]
      {
        OutsideIsSame(K, w, u, p, p + 1, q);
      }
      TreeFrame(K, w, u, c, l - 1);
    }
  }

  lemma IndexBytes(K: nat, v: View, x: View, w: View, u: View, p: nat, l: nat, a: nat, d: seq<byte>, y: nat)
    requires K > 0 && l > 0 && Sound(K, v) && Sound(K, x) && Sound(K, w) && Sound(K, u)
    requires MayHaveAdded(v, x, p) && p < |x.ids| && GroupWrote(K, x, w, Children(p, l), K, a, d)
    requires u.ids == w.ids && SameBut(w, u, p, p + 1)
    requires y < Span(K, l) && Where(K, p, l, y).node < |u.ids|
    ensures ByteRight(K, v, u, Where(K, p, l, y), y, a, d)
  {
    hide Node, Addr, Nodes, Span, GroupCut, SameBut, Tree, GroupWhere, AllTrees;
    SpanIsTheSum(K, p, l);
    var c := Where(K, p, l, y);
    assert c == GroupWhere(K, Children(p, l), y);
    GroupWhereIsLastNeeded(K, Children(p, l), y);
    GroupCutBounds(K, Children(p, l), y + 1, 0);
    FirstChild(K, p, l);
    assert ByteRight(K, x, w, c, y, a, d);
    OutsideIsSame(K, w, u, p, p + 1, c.node);
  }

  lemma IndexDone(K: nat, v: View, x: View, w: View, u: View, p: nat, l: nat, a: nat, d: seq<byte>)
    requires K > 0 && l > 0 && d != [] && Sound(K, v) && Sound(K, x) && Sound(K, w) && Sound(K, u)
    requires MayHaveAdded(v, x, p) && p < |x.ids| && GroupWrote(K, x, w, Children(p, l), K, a, d)
    requires u.ids == w.ids && SameBut(w, u, p, p + 1)
    requires PointersRight(K, u, Children(p, l), Words(u.disk[u.ids[p]]))
    ensures Wrote(K, v, u, p, l, a, d)
  {
    hide Node, Addr, Nodes, Span, GroupCut, SameBut, Tree, Where, Cut, Words, PointersRight, AllTrees, BytesRight,
      ByteRight;
    IndexLength(K, v, x, w, p, l, a, d);
    IndexTree(K, w, u, p, l);
    IndexSame(K, v, x, w, u, p, l, a, d);
    forall y: nat | y < Span(K, l) && Where(K, p, l, y).node < |u.ids|
      ensures ByteRight(K, v, u, Where(K, p, l, y), y, a, d)
    {
      IndexBytes(K, v, x, w, u, p, l, a, d, y);
    }
  }

  lemma IndexSame(K: nat, v: View, x: View, w: View, u: View, p: nat, l: nat, a: nat, d: seq<byte>)
    requires K > 0 && l > 0 && Sound(K, v) && Sound(K, x) && Sound(K, w) && Sound(K, u)
    requires MayHaveAdded(v, x, p) && GroupWrote(K, x, w, Children(p, l), K, a, d)
    requires u.ids == w.ids && SameBut(w, u, p, p + 1)
    ensures SameBut(v, u, p, p + Nodes(K, l))
  {
    hide Node, Addr, Nodes, Span, GroupCut, Tree, AllTrees, BytesRight;
    SpanIsTheSum(K, p, l);
    FirstChild(K, p, l);
    OneNode(K, l);
  }

  lemma LeafDone(K: nat, v: View, x: View, u: View, p: nat, a: nat, d: seq<byte>)
    requires K > 0 && d != [] && Sound(K, v) && Sound(K, x) && Sound(K, u)
    requires MayHaveAdded(v, x, p) && p < |x.ids| && u.ids == x.ids
    requires var n := if a < 4 * K then Min(|d|, 4 * K - a) else 0;
             if n > 0 then u.disk == x.disk[x.ids[p] := Overwritten(x.disk[x.ids[p]], a, d[..n])] else u.disk == x.disk
    ensures Wrote(K, v, u, p, 0, a, d)
  {
  }

  /** Data and address behind sibling i + 1, from those behind sibling i. */
  lemma RestOfRest(d: seq<byte>, a: nat, e: nat, f: nat)
    ensures Rest(Rest(d, a, e), RestAddr(a, e), f) == Rest(d, a, e + f)
    ensures Rest(d, a, e + f) != [] ==> RestAddr(RestAddr(a, e), f) == RestAddr(a, e + f)
  {
  }

  /** How far the numbers reach that a write of data d at address a of a group needs. */
  function GroupNeeds(K: nat, g: Group, a: nat, d: seq<byte>): nat
    requires Ok(g)
  {
    GroupCut(K, g, Min(a + |d|, Addr(K, g, Count(K, g))))
  }

  /** The nodes the rest of the write needs are nodes the whole write needs. */
  lemma SpaceForSibling(K: nat, g: Group, i: nat, a: nat, d: seq<byte>)
    requires K > 0 && Ok(g) && i < Count(K, g) && Rest(d, a, Addr(K, g, i)) != []
    ensures var (p, l) := (Node(K, g, i), Level(g, i));
            var t := Min(RestAddr(a, Addr(K, g, i)) + |Rest(d, a, Addr(K, g, i))|, Span(K, l));
            Cut(K, p, l, t) <= GroupNeeds(K, g, a, d)
  {
    hide Node, Addr, Nodes, Span, GroupCut, Cut;
    var l := Level(g, i);
    SpanPositive(K, l);
    var t := Min(RestAddr(a, Addr(K, g, i)) + |Rest(d, a, Addr(K, g, i))|, Span(K, l));
    CutAt(K, g, i, t);
    GroupCutMonotone(K, g, Addr(K, g, i) + t, Min(a + |d|, Addr(K, g, Count(K, g))));
  }

  /** Pointers after sibling i was written: only the one to sibling i can be new. */
  lemma PointersStep(K: nat, w: View, u: View, g: Group, i: nat, buf: seq<nat>, id: nat)
    requires K > 0 && Ok(g) && i < Count(K, g) && w.ids <= u.ids && PointersRight(K, w, g, buf)
    requires |u.ids| == |w.ids| || (Node(K, g, i) <= |w.ids| && |u.ids| <= Node(K, g, i + 1))
    requires Node(K, g, i) < |u.ids| ==> id == u.ids[Node(K, g, i)]
    ensures PointersRight(K, u, g, buf[i := id])
  {
    hide Node, Nodes;
    forall j: nat | j < Count(K, g) && j != i && Node(K, g, j) < |u.ids|
      ensures buf[j] == u.ids[Node(K, g, j)]
    {
      if j < i {
        InOrder(K, g, j, i);
        OneNode(K, Level(g, j));
      } else {
        InOrder(K, g, i + 1, j);
      }
    }
  }

  // ---------------------------------------------------- entering an index node

  lemma IndexReady(K: nat, p: nat, l: nat, a: nat, d: seq<byte>)
    requires K > 0 && l > 0 && d != []
    ensures Span(K, l) > 0 && Span(K, l - 1) > 0
    ensures Addr(K, Children(p, l), K) == Span(K, l) && Node(K, Children(p, l), K) == p + Nodes(K, l)
    ensures Cut(K, p, l, Min(a + |d|, Span(K, l))) == GroupCut(K, Children(p, l), Min(a + |d|, Span(K, l)))
    ensures p + 1 <= Cut(K, p, l, Min(a + |d|, Span(K, l)))
  {
    hide Node, Addr, Nodes, Span, GroupCut, Cut;
    SpanIsTheSum(K, p, l);
    SpanPositive(K, l);
    SpanPositive(K, l - 1);
    CutIsGroupCut(K, p, l, Min(a + |d|, Span(K, l)));
    CutBounds(K, p, l, Min(a + |d|, Span(K, l)));
  }

  lemma CutIsGroupCut(K: nat, p: nat, l: nat, s: nat)
    requires l > 0 && 0 < s <= Span(K, l)
    ensures s <= Addr(K, Children(p, l), K) && Cut(K, p, l, s) == GroupCut(K, Children(p, l), s)
  {
    hide Node, Addr, Span, GroupCut;
    SpanIsTheSum(K, p, l);
  }

  /** The buffer an index node is worked on in: its block, or zeros for a node just added. */
  lemma IndexBuffer(K: nat, v: View, x: View, p: nat, l: nat, buf: seq<nat>, added: bool)
    requires K > 0 && l > 0 && Sound(K, v) && Sound(K, x) && Tree(K, v, p, l)
    requires MayHaveAdded(v, x, p) && p < |x.ids| && (added <==> p == |v.ids|)
    requires buf == if added then seq(K, _ => 0) else Words(x.disk[x.ids[p]])
    ensures PointersRight(K, x, Children(p, l), buf) && |buf| == K && Small(buf)
    ensures AllTrees(K, x, Children(p, l))
    ensures added ==> |x.ids| == p + 1
  {
    hide Node, Words, Tree, AllTrees, PointersRight;
    if added {
      NewIndexBuffer(K, x, p, l);
    } else {
      OldIndexBuffer(K, v, p, l);
    }
  }

  lemma NewIndexBuffer(K: nat, x: View, p: nat, l: nat)
    requires K > 0 && l > 0 && Sound(K, x) && |x.ids| == p + 1
    ensures PointersRight(K, x, Children(p, l), seq(K, _ => 0)) && Small(seq(K, _ => 0))
      && AllTrees(K, x, Children(p, l))
  {
    hide Node;
    forall i: nat | i < K
      ensures |x.ids| <= Node(K, Children(p, l), i)
      ensures Tree(K, x, Node(K, Children(p, l), i), l - 1)
    {
      FirstChild(K, p, l);
      InOrder(K, Children(p, l), 0, i);
      TreeOfNothing(K, x, Node(K, Children(p, l), i), l - 1);
    }
  }

  lemma OldIndexBuffer(K: nat, v: View, p: nat, l: nat)
    requires K > 0 && l > 0 && Sound(K, v) && Tree(K, v, p, l) && p < |v.ids|
    ensures var buf := Words(v.disk[v.ids[p]]);
            PointersRight(K, v, Children(p, l), buf) && |buf| == K && Small(buf) && AllTrees(K, v, Children(p, l))
  {
    hide Node, Words, Tree;
    var buf := Words(v.disk[v.ids[p]]);
    assert |v.disk[v.ids[p]]| == 4 * K;
    WordsBelow(v.disk[v.ids[p]]);
    forall i: nat | i < K
      ensures Node(K, Children(p, l), i) < |v.ids| ==> buf[i] == v.ids[Node(K, Children(p, l), i)]
      ensures Tree(K, v, Node(K, Children(p, l), i), l - 1)
    {
      ChildOfTree(K, v, p, l, i);
    }
  }

  /** A node that may be skipped is not a new one. */
  lemma SkipIsFull(K: nat, p: nat, l: nat, canSkip: bool, added: bool, n: nat)
    requires canSkip ==> p + Nodes(K, l) <= n
    requires added <==> p == n
    ensures canSkip ==> !added
  {
  }

  /** Where the loop over the children starts. */
  lemma StartOfWrite(K: nat, x: View, p: nat, l: nat, starti: nat, a: nat, d: seq<byte>, canSkip: bool)
    requires K > 0 && l > 0 && d != [] && Sound(K, x) && p < |x.ids| && AllTrees(K, x, Children(p, l))
    requires canSkip ==> p + Nodes(K, l) <= |x.ids| && a < Span(K, l)
    requires Span(K, l - 1) > 0 && starti == if canSkip then Div(a, Span(K, l - 1)) else 0
    ensures starti <= K && GroupWrote(K, x, x, Children(p, l), starti, a, d)
    ensures var e := Addr(K, Children(p, l), starti);
            && Rest(d, a, e) == d
            && RestAddr(a, e) == if canSkip then Mod(a, Span(K, l - 1)) else a
    ensures Node(K, Children(p, l), starti) == p + 1 + if canSkip then Mul(starti, Nodes(K, l - 1)) else 0
  {
    hide Node, Addr, Nodes, Span, Mul, Div, Mod, AllTrees, GroupWrote;
    var g := Children(p, l);
    FirstChild(K, p, l);
    if canSkip {
      ChildByDivision(K, p, l, a);
      InOrder(K, g, starti, K);
      SpanIsTheSum(K, p, l);
      SkipSiblings(K, x, g, starti, a, d);
    } else {
      SkipSiblings(K, x, g, 0, a, d);
    }
  }
}
