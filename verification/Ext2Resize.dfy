/** Cutting a file short: which nodes of the block tree go, and what the rest keeps
    (src/HDD/Ext2.cpp, i_resize and resizerec). */
module Ext2Resize {
  import opened Arith
  import opened Bytes
  import opened Ext2Tree
  import opened Ext2Write

  // ------------------------------------------------------------ whole blocks

  ghost predicate Aligned(K: nat, x: nat) {
    exists q: nat :: x == Mul(q, 4 * K)
  }

  lemma AlignedSum(K: nat, x: nat, y: nat)
    requires Aligned(K, x) && Aligned(K, y)
    ensures Aligned(K, x + y)
  {
    var q: nat :| x == Mul(q, 4 * K);
    var r: nat :| y == Mul(r, 4 * K);
    assert x + y == Mul(q + r, 4 * K);
  }

  lemma AlignedDifference(K: nat, x: nat, y: nat)
    requires K > 0 && Aligned(K, x) && Aligned(K, y) && x < y
    ensures x + 4 * K <= y && Aligned(K, y - x)
  {
    var q: nat :| x == Mul(q, 4 * K);
    var r: nat :| y == Mul(r, 4 * K);
    hide Mul;
    if r <= q {
      MulMonotone(r, q, 4 * K);
      assert false;
    }
    MulMonotone(q, r, 4 * K);
    MulDifference(q, r, 4 * K);
  }

  lemma MulDifference(q: nat, r: nat, d: nat)
    requires q <= r
    ensures Mul(r, d) - Mul(q, d) == Mul(r - q, d)
  {
  }

  lemma {:induction false} SpanAligned(K: nat, l: nat)
    ensures Aligned(K, Span(K, l))
  {
    if l == 0 {
      assert Span(K, 0) == Mul(1, 4 * K);
    } else {
      SpanAligned(K, l - 1);
      var q: nat :| Span(K, l - 1) == Mul(q, 4 * K);
      assert Mul(K, Mul(q, 4 * K)) == Mul(Mul(K, q), 4 * K);
    }
  }

  lemma {:induction false} AddrAligned(K: nat, g: Group, i: nat)
    requires Ok(g)
    ensures Aligned(K, Addr(K, g, i))
  {
    hide Span;
    if i == 0 {
      assert 0 == Mul(0, 4 * K);
    } else {
      AddrAligned(K, g, i - 1);
      SpanAligned(K, Level(g, i - 1));
      AlignedSum(K, Addr(K, g, i - 1), Span(K, Level(g, i - 1)));
    }
  }

  /** A file ending anywhere in a block needs the nodes of one ending with the block. */
  lemma {:induction false} CutRoundsUp(K: nat, p: nat, l: nat, s: nat, t: nat)
    requires K > 0 && 0 < s <= t < s + 4 * K && t <= Span(K, l) && Aligned(K, t)
    ensures Cut(K, p, l, s) == Cut(K, p, l, t)
    decreases l, 0
  {
    hide Node, Addr, Span, GroupCut, Aligned;
    if l > 0 {
      SpanIsTheSum(K, p, l);
      GroupCutRoundsUp(K, Children(p, l), s, t);
    }
  }

  lemma {:induction false} GroupCutRoundsUp(K: nat, g: Group, s: nat, t: nat)
    requires K > 0 && Ok(g) && 0 < s <= t < s + 4 * K && t <= Addr(K, g, Count(K, g)) && Aligned(K, t)
    ensures GroupCut(K, g, s) == GroupCut(K, g, t)
    decreases Height(g) - 1, 1
  {
    hide Node, Addr, Span, Cut, Aligned;
    AddrZero(K, g);
    var i := Find(K, g, s - 1, 0);
    NextSibling(K, g, i);
    AddrAligned(K, g, i);
    AddrAligned(K, g, i + 1);
    if Addr(K, g, i + 1) < t {
      AlignedDifference(K, Addr(K, g, i + 1), t);
      assert false;
    }
    FindIs(K, g, t - 1, i);
    if t > Addr(K, g, i) {
      AlignedDifference(K, Addr(K, g, i), t);
    }
    CutRoundsUp(K, Node(K, g, i), Level(g, i), s - Addr(K, g, i), t - Addr(K, g, i));
  }

  /** The byte behind a whole block needs one node more at least. */
  lemma {:induction false} CutGrows(K: nat, p: nat, l: nat, b: nat)
    requires K > 0 && b < Span(K, l) && Aligned(K, b)
    ensures Cut(K, p, l, b) < Cut(K, p, l, b + 1)
    decreases l, 0
  {
    hide Nodes, Node, Addr, Span, GroupCut, Aligned;
    if b == 0 {
      CutBounds(K, p, l, 1);
    } else if l == 0 {
      BlockIsAligned(K, b);
    } else {
      SpanIsTheSum(K, p, l);
      GroupCutGrows(K, Children(p, l), b);
    }
  }

  lemma {:induction false} GroupCutGrows(K: nat, g: Group, b: nat)
    requires K > 0 && Ok(g) && b < Addr(K, g, Count(K, g)) && Aligned(K, b)
    ensures GroupCut(K, g, b) < GroupCut(K, g, b + 1)
    decreases Height(g) - 1, 1
  {
    hide Nodes, Node, Addr, Span, Cut, Aligned;
    AddrZero(K, g);
    var i := Find(K, g, b, 0);
    NextSibling(K, g, i);
    AddrAligned(K, g, i);
    if b == Addr(K, g, i) {
      hide GroupCut;
      GroupCutBounds(K, g, b, i);
      GroupCutBounds(K, g, b + 1, i);
    } else {
      FindIs(K, g, b - 1, i);
      AlignedDifference(K, Addr(K, g, i), b);
      CutGrows(K, Node(K, g, i), Level(g, i), b - Addr(K, g, i));
    }
  }

  /** Inside a block only its start is a whole number of blocks. */
  lemma BlockIsAligned(K: nat, b: nat)
    requires K > 0 && b < Span(K, 0) && Aligned(K, b)
    ensures b == 0
  {
    hide Aligned;
    AlignedZero(K);
    if b > 0 {
      AlignedDifference(K, 0, b);
    }
  }

  lemma AlignedZero(K: nat)
    ensures Aligned(K, 0)
  {
    assert 0 == Mul(0, 4 * K);
  }

  /** alignup of src/utility.h on a u32: rounds up in 64 bits and keeps the low 32. */
  function AlignUp(n: nat, block: nat): nat
    requires block > 0
  {
    Mul(Div(n + block - 1, block), block) % P32
  }

  /** Rounding up wraps to 0 exactly in the last block below 4 GiB. */
  lemma AlignUpIs(n: nat, block: nat)
    requires 0 < block && n < P32 && Mod(P32, block) == 0
    ensures n + block > P32 ==> AlignUp(n, block) == 0
    ensures n + block <= P32 ==> n <= AlignUp(n, block) < n + block
    ensures n + block <= P32 ==> exists q: nat :: AlignUp(n, block) == Mul(q, block)
  {
    hide Mul, Div, Mod;
    var q := Div(n + block - 1, block);
    DivModIs(n + block - 1, block);
    DivModIs(P32, block);
    var top := Div(P32, block);
    if n + block > P32 {
      if q < top {
        MulMonotone(q, top, block);
        assert false;
      } else if q > top {
        MulMonotone(top, q, block);
        assert false;
      }
    } else if q >= top {
      MulMonotone(top, q, block);
      assert false;
    } else {
      MulMonotone(q, top, block);
    }
  }

  // ------------------------------------------------------------ what stays

  function Minus(a: nat, b: nat): nat { if a <= b then 0 else a - b }

  /** Of node p and what is below it, the nodes numbered below m are those s bytes need. */
  ghost predicate Target(K: nat, m: nat, p: nat, l: nat, s: nat) {
    var c := Cut(K, p, l, Min(s, Span(K, l)));
    && (m <= p ==> c == p)
    && (p <= m <= p + Nodes(K, l) ==> c == m)
    && (p + Nodes(K, l) <= m ==> c == p + Nodes(K, l))
  }

  /** The same for a group of siblings. */
  ghost predicate GroupTarget(K: nat, m: nat, g: Group, s: nat)
    requires Ok(g)
  {
    var c := GroupCut(K, g, Min(s, Addr(K, g, Count(K, g))));
    && (m <= Node(K, g, 0) ==> c == Node(K, g, 0))
    && (Node(K, g, 0) <= m <= Node(K, g, Count(K, g)) ==> c == m)
    && (Node(K, g, Count(K, g)) <= m ==> c == Node(K, g, Count(K, g)))
  }

  lemma TargetOfChildren(K: nat, m: nat, p: nat, l: nat, s: nat)
    requires K > 0 && l > 0 && Target(K, m, p, l, s)
    ensures GroupTarget(K, m, Children(p, l), s)
  {
    hide Node, Addr, Nodes, Span, GroupCut;
    SpanIsTheSum(K, p, l);
    FirstChild(K, p, l);
    SpanPositive(K, l);
    OneNode(K, l);
    GroupCutBounds(K, Children(p, l), 0, 0);
    CutBounds(K, p, l, Min(s, Span(K, l)));
  }

  lemma TargetOfSibling(K: nat, m: nat, g: Group, s: nat, i: nat)
    requires K > 0 && Ok(g) && i < Count(K, g) && GroupTarget(K, m, g, s)
    ensures Target(K, m, Node(K, g, i), Level(g, i), Minus(s, Addr(K, g, i)))
  {
    hide Node, Addr, Nodes, Span, GroupCut, Cut;
    NextSibling(K, g, i);
    InOrder(K, g, 0, i);
    InOrder(K, g, i + 1, Count(K, g));
    SpanPositive(K, Level(g, i));
    CutInSibling(K, g, Min(s, Addr(K, g, Count(K, g))), i);
  }

  /** A node is needed by a length that is not 0. */
  lemma TargetReached(K: nat, m: nat, p: nat, l: nat, s: nat)
    requires K > 0 && Target(K, m, p, l, s)
    ensures s > 0 <==> p < m
  {
    hide Nodes, Span;
    SpanPositive(K, l);
    OneNode(K, l);
    CutOfNothing(K, p, l);
    CutBounds(K, p, l, Min(s, Span(K, l)));
  }

  function Kept(v: View, m: nat): View
    requires m <= |v.ids|
  {
    View(v.disk, v.ids[..m])
  }

  lemma KeptIsSound(K: nat, v: View, m: nat)
    requires Sound(K, v) && m <= |v.ids|
    ensures Sound(K, Kept(v, m))
  {
  }

  /** A whole tree stands when the numbering is cut. */
  lemma {:induction false} KeptTree(K: nat, v: View, m: nat, p: nat, l: nat)
    requires K > 0 && Sound(K, v) && m <= |v.ids| && Sound(K, Kept(v, m)) && Tree(K, v, p, l)
    ensures Tree(K, Kept(v, m), p, l)
    decreases l
  {
    hide Node, Words;
    var w := Kept(v, m);
    if p < m && l > 0 {
      forall i: nat | i < K && Node(K, Children(p, l), i) < m
        ensures Words(w.disk[w.ids[p]])[i] == w.ids[Node(K, Children(p, l), i)]
        ensures Tree(K, w, Node(K, Children(p, l), i), l - 1)
      {
        KeptTree(K, v, m, Node(K, Children(p, l), i), l - 1);
      }
    }
  }

  /** The data blocks below node p hold what they held. */
  ghost predicate BytesKept(K: nat, v: View, w: View, p: nat, l: nat)
    requires Sound(K, v) && Sound(K, w) && w.ids == v.ids
  {
    forall x: nat | x < Span(K, l) && Where(K, p, l, x).node < |v.ids| ::
      ByteAt(K, w, Where(K, p, l, x)) == ByteAt(K, v, Where(K, p, l, x))
  }

  ghost predicate GroupBytesKept(K: nat, v: View, w: View, g: Group, i: nat)
    requires Sound(K, v) && Sound(K, w) && w.ids == v.ids && Ok(g) && Addr(K, g, i) <= Addr(K, g, Count(K, g))
  {
    forall x: nat | x < Addr(K, g, i) && GroupWhere(K, g, x).node < |v.ids| ::
      ByteAt(K, w, GroupWhere(K, g, x)) == ByteAt(K, v, GroupWhere(K, g, x))
  }

  /** Cutting node p to the numbers below m turned v into w. */
  ghost predicate Shrank(K: nat, v: View, w: View, m: nat, p: nat, l: nat)
    requires K > 0 && Sound(K, v) && Sound(K, w)
  {
    && w.ids == v.ids && m <= |v.ids| && Sound(K, Kept(w, m))
    && SameBut(v, w, p, p + Nodes(K, l))
    && Tree(K, Kept(w, m), p, l)
    && BytesKept(K, v, w, p, l)
  }

  /** Cutting the siblings 0..i of a group to the numbers below m turned v into w. */
  ghost predicate GroupShrank(K: nat, v: View, w: View, m: nat, g: Group, i: nat)
    requires K > 0 && Sound(K, v) && Sound(K, w) && Ok(g)
  {
    && i <= Count(K, g) && Addr(K, g, i) <= Addr(K, g, Count(K, g))
    && w.ids == v.ids && m <= |v.ids| && Sound(K, Kept(w, m))
    && SameBut(v, w, Node(K, g, 0), Node(K, g, i))
    && AllTrees(K, Kept(w, m), g)
    && (forall j: nat | i <= j < Count(K, g) :: Tree(K, w, Node(K, g, j), Level(g, j)))
    && GroupBytesKept(K, v, w, g, i)
  }

  /** Nothing is cut from siblings that stay. */
  lemma SkipKept(K: nat, v: View, m: nat, g: Group, i: nat)
    requires K > 0 && Sound(K, v) && Ok(g) && i <= Count(K, g) && m <= |v.ids| && AllTrees(K, v, g)
    ensures GroupShrank(K, v, v, m, g, i)
  {
    hide Node, Addr, Tree, GroupWhere;
    InOrder(K, g, 0, i);
    InOrder(K, g, i, Count(K, g));
    KeptIsSound(K, v, m);
    forall j: nat | j < Count(K, g)
      ensures Tree(K, Kept(v, m), Node(K, g, j), Level(g, j))
    {
      KeptTree(K, v, m, Node(K, g, j), Level(g, j));
    }
  }

  lemma NothingShrunk(K: nat, v: View, m: nat, p: nat, l: nat)
    requires K > 0 && Sound(K, v) && Tree(K, v, p, l) && m <= |v.ids|
    ensures Shrank(K, v, v, m, p, l)
  {
    hide Nodes, Span, Tree, Where;
    KeptIsSound(K, v, m);
    KeptTree(K, v, m, p, l);
  }

  lemma OtherShrunkTree(K: nat, w: View, u: View, g: Group, i: nat, j: nat)
    requires K > 0 && Sound(K, w) && Sound(K, u) && Ok(g) && i < Count(K, g) && j < Count(K, g) && i != j
    requires w.ids == u.ids
    requires forall q | 0 <= q < |w.ids| && !(Node(K, g, i) <= q < Node(K, g, i + 1)) ::
      u.disk[w.ids[q]] == w.disk[w.ids[q]]
    requires Tree(K, w, Node(K, g, j), Level(g, j))
    ensures Tree(K, u, Node(K, g, j), Level(g, j))
  {
    hide Node, Nodes, Tree;
    NextSibling(K, g, j);
    if j < i {
      InOrder(K, g, j + 1, i);
    } else {
      InOrder(K, g, i + 1, j);
    }
    TreeFrame(K, w, u, Node(K, g, j), Level(g, j));
  }

  lemma ShrunkTrees(K: nat, w: View, u: View, m: nat, g: Group, i: nat)
    requires K > 0 && Sound(K, w) && Sound(K, u) && Ok(g) && i < Count(K, g) && w.ids == u.ids && m <= |w.ids|
    requires Sound(K, Kept(w, m)) && Sound(K, Kept(u, m)) && SameBut(w, u, Node(K, g, i), Node(K, g, i + 1))
    requires AllTrees(K, Kept(w, m), g) && Tree(K, Kept(u, m), Node(K, g, i), Level(g, i))
    requires forall j: nat | i <= j < Count(K, g) :: Tree(K, w, Node(K, g, j), Level(g, j))
    ensures AllTrees(K, Kept(u, m), g)
    ensures forall j: nat | i + 1 <= j < Count(K, g) :: Tree(K, u, Node(K, g, j), Level(g, j))
  {
    hide Node, Tree;
    forall q | 0 <= q < |w.ids| && !(Node(K, g, i) <= q < Node(K, g, i + 1))
      ensures u.disk[w.ids[q]] == w.disk[w.ids[q]]
    {
      OutsideIsSame(K, w, u, Node(K, g, i), Node(K, g, i + 1), q);
    }
    forall j: nat | j < Count(K, g) && j != i
      ensures Tree(K, Kept(u, m), Node(K, g, j), Level(g, j))
      ensures j > i ==> Tree(K, u, Node(K, g, j), Level(g, j))
    {
      OtherShrunkTree(K, Kept(w, m), Kept(u, m), g, i, j);
      if j > i {
        OtherShrunkTree(K, w, u, g, i, j);
      }
    }
  }

  lemma ShrunkBytes(K: nat, v: View, w: View, u: View, g: Group, i: nat)
    requires K > 0 && Sound(K, v) && Sound(K, w) && Sound(K, u) && Ok(g) && i < Count(K, g)
    requires w.ids == v.ids && u.ids == v.ids && Addr(K, g, i) <= Addr(K, g, Count(K, g))
      && Addr(K, g, i + 1) <= Addr(K, g, Count(K, g))
    requires SameBut(v, w, Node(K, g, 0), Node(K, g, i)) && SameBut(w, u, Node(K, g, i), Node(K, g, i + 1))
    requires GroupBytesKept(K, v, w, g, i) && BytesKept(K, w, u, Node(K, g, i), Level(g, i))
    ensures GroupBytesKept(K, v, u, g, i + 1)
  {
    hide Node, Addr, Span, GroupWhere, Where, SameBut;
    forall x: nat | x < Addr(K, g, i + 1) && GroupWhere(K, g, x).node < |v.ids|
      ensures ByteAt(K, u, GroupWhere(K, g, x)) == ByteAt(K, v, GroupWhere(K, g, x))
    {
      var c := GroupWhere(K, g, x);
      if x < Addr(K, g, i) {
        GroupWhereIsLastNeeded(K, g, x);
        GroupCutBounds(K, g, x + 1, i);
        OutsideIsSame(K, w, u, Node(K, g, i), Node(K, g, i + 1), c.node);
      } else {
        NextSibling(K, g, i);
        WhereInSibling(K, g, i, x - Addr(K, g, i));
        OutsideIsSame(K, v, w, Node(K, g, 0), Node(K, g, i), c.node);
      }
    }
  }

  /** One sibling further. */
  lemma ShrinkStep(K: nat, v: View, w: View, u: View, m: nat, g: Group, i: nat)
    requires K > 0 && Sound(K, v) && Sound(K, w) && Sound(K, u) && Ok(g) && i < Count(K, g)
    requires GroupShrank(K, v, w, m, g, i) && Shrank(K, w, u, m, Node(K, g, i), Level(g, i))
    ensures GroupShrank(K, v, u, m, g, i + 1)
  {
    hide Node, Addr, Nodes, Span, Tree, GroupWhere, Where, SameBut, AllTrees, GroupBytesKept, BytesKept, Sound;
    NextSibling(K, g, i);
    InOrder(K, g, 0, i);
    InOrder(K, g, i, i + 1);
    InOrder(K, g, i + 1, Count(K, g));
    SameButStep(v, w, u, Node(K, g, 0), Node(K, g, i), Node(K, g, i + 1));
    ShrunkTrees(K, w, u, m, g, i);
    ShrunkBytes(K, v, w, u, g, i);
  }

  /** With nothing left to free the other siblings are already cut. */
  lemma {:induction false} ShrinkRest(K: nat, v: View, w: View, m: nat, g: Group, i: nat)
    requires K > 0 && Sound(K, v) && Sound(K, w) && Ok(g) && i <= Count(K, g) && GroupShrank(K, v, w, m, g, i)
    ensures GroupShrank(K, v, w, m, g, Count(K, g))
    decreases Count(K, g) - i
  {
    hide Node, Addr, Nodes, Span, Tree, GroupWhere, Where, SameBut, AllTrees, GroupBytesKept, BytesKept, Shrank;
    if i < Count(K, g) {
      NothingShrunk(K, w, m, Node(K, g, i), Level(g, i));
      ShrinkStep(K, v, w, w, m, g, i);
      ShrinkRest(K, v, w, m, g, i + 1);
    }
  }

  /** The index block is written back with the pointers to the nodes that went set to 0. */
  lemma ShrunkIndex(K: nat, v: View, w: View, u: View, m: nat, p: nat, l: nat, words: seq<nat>)
    requires K > 0 && l > 0 && Sound(K, v) && Sound(K, w) && Sound(K, u) && p < |v.ids|
    requires GroupShrank(K, v, w, m, Children(p, l), K)
    requires u.ids == w.ids && SameBut(w, u, p, p + 1) && Words(u.disk[u.ids[p]]) == words && |words| == K
    requires forall i: nat | i < K && Node(K, Children(p, l), i) < m :: words[i] == v.ids[Node(K, Children(p, l), i)]
    ensures Shrank(K, v, u, m, p, l)
  {
    hide Node, Addr, Nodes, Span, Tree, GroupWhere, Where, SameBut, AllTrees, Words, GroupBytesKept, BytesKept;
    KeptIsSound(K, u, m);
    ShrunkIndexSame(K, v, w, u, m, p, l);
    ShrunkIndexTree(K, w, u, m, p, l, words);
    ShrunkIndexBytes(K, v, w, u, m, p, l);
  }

  lemma ShrunkIndexSame(K: nat, v: View, w: View, u: View, m: nat, p: nat, l: nat)
    requires K > 0 && l > 0 && Sound(K, v) && Sound(K, w)
    requires GroupShrank(K, v, w, m, Children(p, l), K) && u.ids == w.ids && SameBut(w, u, p, p + 1)
    ensures SameBut(v, u, p, p + Nodes(K, l))
  {
    hide Node, Addr, Nodes, Tree, AllTrees, GroupBytesKept, Sound;
    SpanIsTheSum(K, p, l);
    FirstChild(K, p, l);
    OneNode(K, l);
  }

  lemma ShrunkIndexTree(K: nat, w: View, u: View, m: nat, p: nat, l: nat, words: seq<nat>)
    requires K > 0 && l > 0 && Sound(K, w) && Sound(K, u) && u.ids == w.ids && p < |w.ids| && m <= |w.ids|
    requires Sound(K, Kept(w, m)) && Sound(K, Kept(u, m)) && AllTrees(K, Kept(w, m), Children(p, l))
      && SameBut(w, u, p, p + 1)
    requires Words(u.disk[u.ids[p]]) == words && |words| == K
    requires forall i: nat | i < K && Node(K, Children(p, l), i) < m :: words[i] == w.ids[Node(K, Children(p, l), i)]
    ensures Tree(K, Kept(u, m), p, l)
  {
    hide Node, Nodes, Words, SameBut;
    var u', w' := Kept(u, m), Kept(w, m);
    if p < m {
      forall i: nat | i < K && Node(K, Children(p, l), i) < m
        ensures Tree(K, u', Node(K, Children(p, l), i), l - 1)
      {
        var c := Node(K, Children(p, l), i);
        ChildRange(K, p, l, i);
        assert Tree(K, w', c, l - 1);
        forall q | c <= q < c + Nodes(K, l - 1) && q < |w'.ids|
          ensures u'.disk[w'.ids[q]] == w'.disk[w'.ids[q]]
        {
          OutsideIsSame(K, w, u, p, p + 1, q);
        }
        TreeFrame(K, w', u', c, l - 1);
      }
    }
  }

  lemma ShrunkIndexBytes(K: nat, v: View, w: View, u: View, m: nat, p: nat, l: nat)
    requires K > 0 && l > 0 && Sound(K, v) && Sound(K, w) && Sound(K, u)
    requires GroupShrank(K, v, w, m, Children(p, l), K) && u.ids == w.ids && SameBut(w, u, p, p + 1)
    ensures BytesKept(K, v, u, p, l)
  {
    hide Node, Addr, Nodes, Span, Tree, GroupWhere, SameBut, AllTrees;
    SpanIsTheSum(K, p, l);
    FirstChild(K, p, l);
    forall x: nat | x < Span(K, l) && Where(K, p, l, x).node < |v.ids|
      ensures ByteAt(K, u, Where(K, p, l, x)) == ByteAt(K, v, Where(K, p, l, x))
    {
      var c := Where(K, p, l, x);
      assert c == GroupWhere(K, Children(p, l), x);
      GroupWhereIsLastNeeded(K, Children(p, l), x);
      GroupCutBounds(K, Children(p, l), x + 1, 0);
      OutsideIsSame(K, w, u, p, p + 1, c.node);
    }
  }

  // ------------------------------------------------- the numbers that go, in order

  /** What the siblings 0..i free, from the first number not kept to the last one there was. */
  function FreedFrom(K: nat, g: Group, s: nat, i: nat): nat
    requires Ok(g)
  {
    GroupCut(K, g, Min(Min(s, Addr(K, g, i)), Addr(K, g, Count(K, g))))
  }

  lemma FreedRange(K: nat, g: Group, s: nat, t: nat, i: nat)
    requires K > 0 && Ok(g) && i <= Count(K, g) && s <= t
    ensures Addr(K, g, i) <= Addr(K, g, Count(K, g))
    ensures FreedFrom(K, g, s, i) <= FreedFrom(K, g, t, i) <= Node(K, g, i)
    ensures Addr(K, g, i) <= s ==> FreedFrom(K, g, s, i) == FreedFrom(K, g, t, i) == Node(K, g, i)
    ensures FreedFrom(K, g, s, i) >= Node(K, g, 0)
  {
    hide Node, Addr, GroupCut;
    InOrder(K, g, i, Count(K, g));
    GroupCutMonotone(K, g, Min(s, Addr(K, g, i)), Min(t, Addr(K, g, i)));
    GroupCutBounds(K, g, Min(t, Addr(K, g, i)), i);
    GroupCutBounds(K, g, Min(s, Addr(K, g, i)), 0);
    GroupCutBounds(K, g, Min(s, Addr(K, g, i)), i);
  }

  /** How far the numbers of sibling i reach that the first s bytes of the group need. */
  function SiblingCut(K: nat, g: Group, s: nat, i: nat): nat
    requires Ok(g)
  {
    Cut(K, Node(K, g, i), Level(g, i), Min(Minus(s, Addr(K, g, i)), Span(K, Level(g, i))))
  }

  predicate Between(q: nat, lo: nat, hi: nat) { lo <= q < hi }

  /** The ranges lo..hi and from..upto make up from'..upto' and share nothing. */
  ghost predicate Makes(from: nat, upto: nat, lo: nat, hi: nat, from': nat, upto': nat) {
    && from <= upto && lo <= hi && from' <= upto'
    && upto' - from' == (upto - from) + (hi - lo)
    && (from < upto && lo < hi ==> upto == lo)
    && forall q: nat :: Between(q, from', upto') <==> Between(q, from, upto) || Between(q, lo, hi)
  }

  /** The next sibling frees more numbers, and no number twice. */
  lemma FreedStep(K: nat, g: Group, s: nat, t: nat, i: nat)
    requires K > 0 && Ok(g) && i < Count(K, g) && s <= t
    ensures Addr(K, g, i) <= Addr(K, g, Count(K, g)) && Addr(K, g, i + 1) <= Addr(K, g, Count(K, g))
    ensures Makes(FreedFrom(K, g, s, i), FreedFrom(K, g, t, i), SiblingCut(K, g, s, i), SiblingCut(K, g, t, i),
                  FreedFrom(K, g, s, i + 1), FreedFrom(K, g, t, i + 1))
  {
    hide Node, Addr, Nodes, Span, GroupCut, Cut;
    var (p, l, e) := (Node(K, g, i), Level(g, i), Addr(K, g, i));
    NextSibling(K, g, i);
    SpanPositive(K, l);
    InOrder(K, g, i, Count(K, g));
    InOrder(K, g, i + 1, Count(K, g));
    CutOfNothing(K, p, l);
    GroupCutBounds(K, g, e, i);
    FreedRange(K, g, s, t, i);
    if t > e {
      CutAt(K, g, i, Min(t - e, Span(K, l)));
      CutMonotone(K, p, l, Min(Minus(s, e), Span(K, l)), Min(t - e, Span(K, l)));
    }
    if s > e {
      CutAt(K, g, i, Min(s - e, Span(K, l)));
    }
  }

  /** What the siblings so far free is part of what all of them free. */
  lemma {:induction false} FreedGrows(K: nat, g: Group, s: nat, t: nat, i: nat)
    requires K > 0 && Ok(g) && i <= Count(K, g) && s <= t
    ensures Addr(K, g, i) <= Addr(K, g, Count(K, g))
    ensures var (from, upto) := (FreedFrom(K, g, s, i), FreedFrom(K, g, t, i));
            var (from', upto') := (FreedFrom(K, g, s, Count(K, g)), FreedFrom(K, g, t, Count(K, g)));
            && from <= upto && from' <= upto' && upto - from <= upto' - from'
            && forall q: nat :: Between(q, from, upto) ==> Between(q, from', upto')
    decreases Count(K, g) - i
  {
    hide Node, Addr, GroupCut, SiblingCut, FreedFrom;
    FreedRange(K, g, s, t, i);
    if i < Count(K, g) {
      FreedStep(K, g, s, t, i);
      FreedGrows(K, g, s, t, i + 1);
    }
  }

  /** What node p as a whole frees: what its children free, and itself when nothing is kept. */
  lemma FreedByNode(K: nat, p: nat, l: nat, s: nat, t: nat)
    requires K > 0 && l > 0 && s <= t && t > 0
    ensures var lo, hi := Cut(K, p, l, Min(s, Span(K, l))), Cut(K, p, l, Min(t, Span(K, l)));
            var (from, upto) := (FreedFrom(K, Children(p, l), s, K), FreedFrom(K, Children(p, l), t, K));
            && from <= upto && upto == hi && p < hi
            && (if s == 0 then lo == p && from == p + 1 else lo == from && p < lo)
  {
    hide Node, Addr, Nodes, Span, GroupCut, Cut;
    var g := Children(p, l);
    SpanIsTheSum(K, p, l);
    SpanPositive(K, l);
    FreedRange(K, g, s, t, K);
    CutIsGroupCut(K, p, l, Min(t, Span(K, l)));
    CutBounds(K, p, l, Min(t, Span(K, l)));
    CutOfNothing(K, p, l);
    FirstChild(K, p, l);
    GroupCutBounds(K, g, 0, 0);
    if s > 0 {
      CutIsGroupCut(K, p, l, Min(s, Span(K, l)));
      CutBounds(K, p, l, Min(s, Span(K, l)));
    }
  }

  /** Sibling i frees nodes that were not freed yet and are to go. */
  lemma SiblingFreesNew(K: nat, g: Group, s: nat, t: nat, i: nat)
    requires K > 0 && Ok(g) && i < Count(K, g) && s <= t
    ensures var (from, upto) := (FreedFrom(K, g, s, i), FreedFrom(K, g, t, i));
            var (from', upto') := (FreedFrom(K, g, s, i + 1), FreedFrom(K, g, t, i + 1));
            var (all, end) := (FreedFrom(K, g, s, Count(K, g)), FreedFrom(K, g, t, Count(K, g)));
            var lo, hi := SiblingCut(K, g, s, i), SiblingCut(K, g, t, i);
            && Makes(from, upto, lo, hi, from', upto') && all <= end && upto' - from' <= end - all
            && forall q: nat :: Between(q, lo, hi) ==> Between(q, all, end) && !Between(q, from, upto)
  {
    hide Node, Addr, GroupCut, SiblingCut, FreedFrom;
    FreedStep(K, g, s, t, i);
    FreedGrows(K, g, s, t, i + 1);
  }

  /** The pointers behind child i are still those of the whole file, those of kept nodes stand. */
  ghost predicate WordsKept(K: nat, v: View, m: nat, p: nat, l: nat, i: nat, words: seq<nat>)
    requires l > 0
  {
    && |words| == K && Small(words)
    && forall j: nat | j < K && Node(K, Children(p, l), j) < |v.ids| && (i <= j || Node(K, Children(p, l), j) < m) ::
         words[j] == v.ids[Node(K, Children(p, l), j)]
  }

  lemma WordsKeptStep(K: nat, v: View, m: nat, p: nat, l: nat, i: nat, words: seq<nat>, deleted: bool)
    requires l > 0 && i < K && WordsKept(K, v, m, p, l, i, words) && (deleted ==> m <= Node(K, Children(p, l), i))
    ensures WordsKept(K, v, m, p, l, i + 1, if deleted then words[i := 0] else words)
  {
    hide Node;
  }

  lemma WordsAreKept(K: nat, v: View, m: nat, p: nat, l: nat, i: nat)
    requires K > 0 && l > 0 && Sound(K, v) && Tree(K, v, p, l) && p < |v.ids|
    ensures WordsKept(K, v, m, p, l, i, Words(v.disk[v.ids[p]])) && AllTrees(K, v, Children(p, l))
  {
    hide Node, Words, Tree;
    OldIndexBuffer(K, v, p, l);
  }
}
