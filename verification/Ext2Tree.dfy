/** The block tree of an Ext2 inode: 12 data blocks and three index trees of depth 1, 2 and 3
    (src/HDD/Ext2.cpp).  Every node of a hole-free file has a preorder number; a node is there
    exactly when its number is below the number of blocks the inode has. */
module Ext2Tree {
  import opened Arith
  import opened Bytes

  /** Siblings visited in order: the K children of index node p at level l, or the 15 roots. */
  datatype Group = Children(p: nat, l: nat) | Roots

  /** indirectBlock[l]: the nodes of a full tree of level l (0 is a data block). */
  function Nodes(K: nat, l: nat): (n: nat)
    ensures n >= 1
  {
    if l == 0 then 1 else 1 + Mul(K, Nodes(K, l - 1))
  }

  /** indirectSize[l]: the bytes a full tree of level l holds. */
  function Span(K: nat, l: nat): nat {
    if l == 0 then 4 * K else Mul(K, Span(K, l - 1))
  }

  predicate Ok(g: Group) { g.Children? ==> g.l > 0 }

  function Count(K: nat, g: Group): nat { if g.Roots? then 15 else K }

  function Height(g: Group): nat { if g.Roots? then 4 else g.l }

  /** The level of sibling i. */
  function Level(g: Group, i: nat): (l: nat)
    requires Ok(g)
    ensures i < 15 || g.Children? ==> l < Height(g)
  {
    match g
    case Children(p, l) => l - 1
    case Roots => if i < 12 then 0 else i - 11
  }

  /** The preorder number of sibling i. */
  function Node(K: nat, g: Group, i: nat): nat
    requires Ok(g)
  {
    if i == 0 then (if g.Roots? then 0 else g.p + 1) else Node(K, g, i - 1) + Nodes(K, Level(g, i - 1))
  }

  /** The address, from the start of the group, where the bytes of sibling i begin. */
  function Addr(K: nat, g: Group, i: nat): nat
    requires Ok(g)
  {
    if i == 0 then 0 else Addr(K, g, i - 1) + Span(K, Level(g, i - 1))
  }

  /** The sibling address x falls to, looking from sibling i on. */
  function Find(K: nat, g: Group, x: nat, i: nat): (j: nat)
    requires Ok(g) && i < Count(K, g) && Addr(K, g, i) <= x < Addr(K, g, Count(K, g))
    ensures i <= j < Count(K, g) && Addr(K, g, j) <= x < Addr(K, g, j + 1)
    decreases Count(K, g) - i
  {
    if i + 1 == Count(K, g) || x < Addr(K, g, i + 1) then i else Find(K, g, x, i + 1)
  }

  /** How far the preorder numbers reach that the first s bytes of node p need. */
  function Cut(K: nat, p: nat, l: nat, s: nat): nat
    requires s <= Span(K, l)
    decreases l, 0
  {
    if s == 0 then p
    else if l == 0 then p + 1
    else SpanIsTheSum(K, p, l); GroupCut(K, Children(p, l), s)
  }

  /** How far the preorder numbers reach that the first s bytes of a group need. */
  function GroupCut(K: nat, g: Group, s: nat): nat
    requires Ok(g) && s <= Addr(K, g, Count(K, g))
    decreases Height(g) - 1, 1
  {
    if s == 0 then Node(K, g, 0)
    else
      var i := Find(K, g, s - 1, 0);
      Cut(K, Node(K, g, i), Level(g, i), s - Addr(K, g, i))
  }

  // ------------------------------------------------------------------ siblings

  lemma {:induction false} ChildIs(K: nat, p: nat, l: nat, i: nat)
    requires l > 0
    ensures Node(K, Children(p, l), i) == p + 1 + Mul(i, Nodes(K, l - 1))
    ensures Addr(K, Children(p, l), i) == Mul(i, Span(K, l - 1))
  {
    hide Mul;
    if i == 0 {
      MulStep(0, Nodes(K, l - 1));
      MulStep(0, Span(K, l - 1));
    } else {
      ChildIs(K, p, l, i - 1);
      MulStep(i - 1, Nodes(K, l - 1));
      MulStep(i - 1, Span(K, l - 1));
    }
  }

  /** The children of an index node make up all of it but the node itself. */
  lemma SpanIsTheSum(K: nat, p: nat, l: nat)
    requires l > 0
    ensures Addr(K, Children(p, l), K) == Span(K, l)
    ensures Node(K, Children(p, l), K) == p + Nodes(K, l)
  {
    ChildIs(K, p, l, K);
  }

  lemma {:induction false} SpanPositive(K: nat, l: nat)
    requires K > 0
    ensures Span(K, l) > 0
  {
    if l > 0 {
      SpanPositive(K, l - 1);
      MulMonotone(1, K, Span(K, l - 1));
      MulStep(0, Span(K, l - 1));
    }
  }

  lemma {:induction false} InOrder(K: nat, g: Group, i: nat, j: nat)
    requires Ok(g) && K > 0 && i <= j
    ensures Node(K, g, i) <= Node(K, g, j) && Addr(K, g, i) <= Addr(K, g, j)
    ensures i < j ==> Node(K, g, i) + Nodes(K, Level(g, i)) <= Node(K, g, j)
    ensures i < j ==> Addr(K, g, i) < Addr(K, g, i) + Span(K, Level(g, i)) <= Addr(K, g, j)
    decreases j - i
  {
    hide Nodes, Span;
    if i < j {
      SpanPositive(K, Level(g, i));
      assert Node(K, g, i + 1) == Node(K, g, i) + Nodes(K, Level(g, i));
      assert Addr(K, g, i + 1) == Addr(K, g, i) + Span(K, Level(g, i));
      InOrder(K, g, i + 1, j);
    }
  }

  /** An address between the starts of two neighbours falls to the first. */
  lemma FindIs(K: nat, g: Group, x: nat, i: nat)
    requires Ok(g) && K > 0 && i < Count(K, g) && Addr(K, g, i) <= x < Addr(K, g, i + 1)
    ensures 0 < Count(K, g) && x < Addr(K, g, Count(K, g)) && Find(K, g, x, 0) == i
  {
    hide Addr, Find;
    assert Addr(K, g, 0) == 0 by { AddrZero(K, g); }
    InOrder(K, g, i + 1, Count(K, g));
    var j := Find(K, g, x, 0);
    if j < i {
      InOrder(K, g, j + 1, i);
    } else if i < j {
      InOrder(K, g, i + 1, j);
    }
  }

  lemma AddrZero(K: nat, g: Group)
    requires Ok(g)
    ensures Addr(K, g, 0) == 0
  {
  }

  // ------------------------------------------------- nodes a length needs

  /** The first s bytes of a node need its number at least, all of it at most. */
  lemma {:induction false} CutBounds(K: nat, p: nat, l: nat, s: nat)
    requires K > 0 && s <= Span(K, l)
    ensures p <= Cut(K, p, l, s) <= p + Nodes(K, l)
    ensures s > 0 ==> p < Cut(K, p, l, s)
    ensures s == Span(K, l) ==> Cut(K, p, l, s) == p + Nodes(K, l)
    decreases l, 0
  {
    hide Nodes, Span, Node, Addr, GroupCut;
    SpanPositive(K, l);
    if l == 0 {
      NodesOfBlock(K);
    } else {
      SpanIsTheSum(K, p, l);
      GroupCutBounds(K, Children(p, l), s, K);
      GroupCutBounds(K, Children(p, l), s, 0);
      FirstChild(K, p, l);
    }
  }

  lemma NodesOfBlock(K: nat)
    ensures Nodes(K, 0) == 1
  {
  }

  lemma FirstChild(K: nat, p: nat, l: nat)
    requires l > 0
    ensures Node(K, Children(p, l), 0) == p + 1 && Addr(K, Children(p, l), 0) == 0
  {
  }

  /** What a length needs stays within the siblings it reaches. */
  lemma {:induction false} GroupCutBounds(K: nat, g: Group, s: nat, i: nat)
    requires K > 0 && Ok(g) && i <= Count(K, g) && s <= Addr(K, g, Count(K, g))
    ensures s <= Addr(K, g, i) ==> GroupCut(K, g, s) <= Node(K, g, i)
    ensures s > Addr(K, g, i) ==> GroupCut(K, g, s) > Node(K, g, i)
    ensures s == Addr(K, g, i) ==> GroupCut(K, g, s) == Node(K, g, i)
    ensures GroupCut(K, g, s) >= Node(K, g, 0)
    decreases Height(g) - 1, 1
  {
    hide Nodes, Span, Cut;
    AddrZero(K, g);
    hide Node, Addr;
    InOrder(K, g, 0, i);
    if s > 0 {
      var j := Find(K, g, s - 1, 0);
      NextSibling(K, g, j);
      CutBounds(K, Node(K, g, j), Level(g, j), s - Addr(K, g, j));
      InOrder(K, g, 0, j);
      if j < i {
        InOrder(K, g, j + 1, i);
      } else {
        InOrder(K, g, i, j);
      }
    }
  }

  lemma NextSibling(K: nat, g: Group, i: nat)
    requires Ok(g)
    ensures Node(K, g, i + 1) == Node(K, g, i) + Nodes(K, Level(g, i))
    ensures Addr(K, g, i + 1) == Addr(K, g, i) + Span(K, Level(g, i))
  {
  }

  function Clamp(s: nat, low: nat, size: nat): (t: nat)
    ensures t <= size
  {
    if s <= low then 0 else if s >= low + size then size else s - low
  }

  /** Inside sibling i a length of the group needs what its part in sibling i needs. */
  lemma CutInSibling(K: nat, g: Group, s: nat, i: nat)
    requires K > 0 && Ok(g) && i < Count(K, g) && s <= Addr(K, g, Count(K, g))
    ensures var here := Cut(K, Node(K, g, i), Level(g, i), Clamp(s, Addr(K, g, i), Span(K, Level(g, i))));
            && (GroupCut(K, g, s) <= Node(K, g, i) ==> here == Node(K, g, i))
            && (Node(K, g, i) <= GroupCut(K, g, s) <= Node(K, g, i + 1) ==> here == GroupCut(K, g, s))
            && (GroupCut(K, g, s) >= Node(K, g, i + 1) ==> here == Node(K, g, i + 1))
  {
    hide Nodes, Span, Node, Addr, GroupCut, Cut;
    NextSibling(K, g, i);
    SpanPositive(K, Level(g, i));
    GroupCutBounds(K, g, s, i);
    GroupCutBounds(K, g, s, i + 1);
    if Addr(K, g, i) < s < Addr(K, g, i + 1) {
      CutAt(K, g, i, s - Addr(K, g, i));
    } else if s >= Addr(K, g, i + 1) {
      CutBounds(K, Node(K, g, i), Level(g, i), Span(K, Level(g, i)));
    } else {
      CutOfNothing(K, Node(K, g, i), Level(g, i));
    }
  }

  lemma CutOfNothing(K: nat, p: nat, l: nat)
    ensures Cut(K, p, l, 0) == p
  {
  }

  /** More bytes need no fewer nodes. */
  lemma {:induction false} CutMonotone(K: nat, p: nat, l: nat, s: nat, t: nat)
    requires K > 0 && s <= t <= Span(K, l)
    ensures Cut(K, p, l, s) <= Cut(K, p, l, t)
    decreases l, 0
  {
    hide Nodes, Span, Node, Addr, GroupCut;
    CutBounds(K, p, l, t);
    if l > 0 && s > 0 {
      SpanIsTheSum(K, p, l);
      GroupCutMonotone(K, Children(p, l), s, t);
    }
  }

  lemma {:induction false} GroupCutMonotone(K: nat, g: Group, s: nat, t: nat)
    requires K > 0 && Ok(g) && s <= t <= Addr(K, g, Count(K, g))
    ensures GroupCut(K, g, s) <= GroupCut(K, g, t)
    decreases Height(g) - 1, 1
  {
    hide Nodes, Span, Cut, Node, Addr;
    AddrZero(K, g);
    GroupCutBounds(K, g, t, 0);
    if s > 0 {
      var i, j := Find(K, g, s - 1, 0), Find(K, g, t - 1, 0);
      if i == j {
        NextSibling(K, g, i);
        CutMonotone(K, Node(K, g, i), Level(g, i), s - Addr(K, g, i), t - Addr(K, g, i));
      } else {
        if j < i {
          InOrder(K, g, j + 1, i);
        }
        GroupCutBounds(K, g, s, i + 1);
        GroupCutBounds(K, g, t, i + 1);
        InOrder(K, g, i + 1, j);
      }
    }
  }

  // ------------------------------------------------------- where a byte is

  /** A data block by preorder number, and an offset in it. */
  datatype Place = Place(node: nat, offset: nat)

  function Where(K: nat, p: nat, l: nat, x: nat): (w: Place)
    requires x < Span(K, l)
    ensures w.offset < 4 * K
    decreases l, 0
  {
    if l == 0 then Place(p, x) else SpanIsTheSum(K, p, l); GroupWhere(K, Children(p, l), x)
  }

  function GroupWhere(K: nat, g: Group, x: nat): (w: Place)
    requires Ok(g) && x < Addr(K, g, Count(K, g))
    ensures w.offset < 4 * K
    decreases Height(g) - 1, 1
  {
    var i := Find(K, g, x, 0);
    Where(K, Node(K, g, i), Level(g, i), x - Addr(K, g, i))
  }

  /** A byte is there once the nodes a file that ends with it needs are there. */
  lemma {:induction false} WhereIsLastNeeded(K: nat, p: nat, l: nat, x: nat)
    requires K > 0 && x < Span(K, l)
    ensures Where(K, p, l, x).node + 1 == Cut(K, p, l, x + 1)
    decreases l, 0
  {
    hide Nodes, Span, Node, Addr, GroupCut, GroupWhere;
    if l > 0 {
      SpanIsTheSum(K, p, l);
      GroupWhereIsLastNeeded(K, Children(p, l), x);
    }
  }

  lemma {:induction false} GroupWhereIsLastNeeded(K: nat, g: Group, x: nat)
    requires K > 0 && Ok(g) && x < Addr(K, g, Count(K, g))
    ensures GroupWhere(K, g, x).node + 1 == GroupCut(K, g, x + 1)
    decreases Height(g) - 1, 1
  {
    hide Nodes, Span, Node, Addr, Cut, Where;
    AddrZero(K, g);
    var i := Find(K, g, x, 0);
    NextSibling(K, g, i);
    WhereIsLastNeeded(K, Node(K, g, i), Level(g, i), x - Addr(K, g, i));
  }

  lemma GroupWhereIs(K: nat, g: Group, x: nat, i: nat)
    requires K > 0 && Ok(g) && 0 < Count(K, g) && Addr(K, g, 0) <= x < Addr(K, g, Count(K, g)) && Find(K, g, x, 0) == i
    requires Addr(K, g, i) <= x < Addr(K, g, i) + Span(K, Level(g, i))
    ensures GroupWhere(K, g, x) == Where(K, Node(K, g, i), Level(g, i), x - Addr(K, g, i))
  {
    hide Nodes, Span, Node, Addr, Cut, Where, Find;
  }

  /** The nodes of the bytes of sibling i are nodes of sibling i. */
  lemma WhereInSibling(K: nat, g: Group, i: nat, y: nat)
    requires K > 0 && Ok(g) && i < Count(K, g) && y < Span(K, Level(g, i))
    ensures Addr(K, g, i) + y < Addr(K, g, Count(K, g))
    ensures GroupWhere(K, g, Addr(K, g, i) + y) == Where(K, Node(K, g, i), Level(g, i), y)
    ensures Node(K, g, i) <= Where(K, Node(K, g, i), Level(g, i), y).node < Node(K, g, i + 1)
  {
    hide Nodes, Span, Node, Addr, Cut, Where, GroupWhere, Find;
    AddrZero(K, g);
    NextSibling(K, g, i);
    FindIs(K, g, Addr(K, g, i) + y, i);
    GroupWhereIs(K, g, Addr(K, g, i) + y, i);
    WhereIsLastNeeded(K, Node(K, g, i), Level(g, i), y);
    CutBounds(K, Node(K, g, i), Level(g, i), y + 1);
  }

  // ------------------------------------------------------------------ the tree on disk

  /** The partition's blocks, and the block each node of the inode is stored in. */
  datatype View = View(disk: seq<seq<byte>>, ids: seq<nat>)

  /** Every node has a block of its own. */
  ghost predicate Sound(K: nat, v: View) {
    && |v.disk| <= P32
    && (forall b | b in v.disk :: |b| == 4 * K)
    && (forall q | 0 <= q < |v.ids| :: v.ids[q] < |v.disk|)
    && (forall q, r | 0 <= q < r < |v.ids| :: v.ids[q] != v.ids[r])
  }

  /** From node p down, the index blocks point to the blocks of their children. */
  ghost predicate Tree(K: nat, v: View, p: nat, l: nat)
    requires Sound(K, v)
    decreases l
  {
    p < |v.ids| && l > 0 ==>
      forall i: nat | i < K && Node(K, Children(p, l), i) < |v.ids| ::
        && Words(v.disk[v.ids[p]])[i] == v.ids[Node(K, Children(p, l), i)]
        && Tree(K, v, Node(K, Children(p, l), i), l - 1)
  }

  lemma ChildOfTree(K: nat, v: View, p: nat, l: nat, i: nat)
    requires Sound(K, v) && Tree(K, v, p, l) && p < |v.ids| && l > 0 && i < K && |Words(v.disk[v.ids[p]])| == K
    ensures var c := Node(K, Children(p, l), i);
            && (c < |v.ids| ==> Words(v.disk[v.ids[p]])[i] == v.ids[c])
            && Tree(K, v, c, l - 1)
  {
  }

  function ByteAt(K: nat, v: View, w: Place): byte
    requires Sound(K, v) && w.node < |v.ids| && w.offset < 4 * K
  {
    v.disk[v.ids[w.node]][w.offset]
  }

  // ------------------------------------------------------------- runs of bytes

  lemma SectionExists(K: nat, v: View, p: nat, l: nat, a: nat, n: nat)
    requires K > 0 && a + n <= Span(K, l) && Cut(K, p, l, a + n) <= |v.ids|
    ensures forall x: nat | a <= x < a + n :: Where(K, p, l, x).node < |v.ids|
  {
    hide Cut, Where;
    forall x: nat | a <= x < a + n
      ensures Where(K, p, l, x).node < |v.ids|
    {
      WhereIsLastNeeded(K, p, l, x);
      CutMonotone(K, p, l, x + 1, a + n);
    }
  }

  lemma GroupSectionExists(K: nat, v: View, g: Group, a: nat, n: nat)
    requires K > 0 && Ok(g) && a + n <= Addr(K, g, Count(K, g)) && GroupCut(K, g, a + n) <= |v.ids|
    ensures forall x: nat | a <= x < a + n :: GroupWhere(K, g, x).node < |v.ids|
  {
    hide GroupCut, GroupWhere;
    forall x: nat | a <= x < a + n
      ensures GroupWhere(K, g, x).node < |v.ids|
    {
      GroupWhereIsLastNeeded(K, g, x);
      GroupCutMonotone(K, g, x + 1, a + n);
    }
  }

  /** The n bytes from address a of a node. */
  function Section(K: nat, v: View, p: nat, l: nat, a: nat, n: nat): (b: seq<byte>)
    requires K > 0 && Sound(K, v) && a + n <= Span(K, l) && Cut(K, p, l, a + n) <= |v.ids|
    ensures |b| == n
  {
    SectionExists(K, v, p, l, a, n);
    seq<byte>(n, i requires 0 <= i < n => ByteAt(K, v, Where(K, p, l, a + i)))
  }

  /** The n bytes from address a of a group; of the roots, those of the file. */
  function GroupSection(K: nat, v: View, g: Group, a: nat, n: nat): (b: seq<byte>)
    requires K > 0 && Sound(K, v) && Ok(g) && a + n <= Addr(K, g, Count(K, g)) && GroupCut(K, g, a + n) <= |v.ids|
    ensures |b| == n
  {
    GroupSectionExists(K, v, g, a, n);
    seq<byte>(n, i requires 0 <= i < n => ByteAt(K, v, GroupWhere(K, g, a + i)))
  }

  lemma SectionOfChildren(K: nat, v: View, p: nat, l: nat, a: nat, n: nat)
    requires K > 0 && Sound(K, v) && l > 0 && n > 0 && a + n <= Span(K, l) && Cut(K, p, l, a + n) <= |v.ids|
    ensures a + n <= Addr(K, Children(p, l), K) && GroupCut(K, Children(p, l), a + n) <= |v.ids|
    ensures Section(K, v, p, l, a, n) == GroupSection(K, v, Children(p, l), a, n)
  {
    hide Span, Node, Addr, GroupCut, GroupWhere;
    SpanIsTheSum(K, p, l);
    SectionExists(K, v, p, l, a, n);
    GroupSectionExists(K, v, Children(p, l), a, n);
    assert forall x: nat | a <= x < a + n :: Where(K, p, l, x) == GroupWhere(K, Children(p, l), x);
  }

  /** A run that ends in sibling i is what comes before and a run of sibling i. */
  lemma SectionStep(K: nat, v: View, g: Group, a: nat, n: nat, i: nat, y: nat, m: nat)
    requires K > 0 && Sound(K, v) && Ok(g) && i < Count(K, g) && m > 0 && y + m <= Span(K, Level(g, i))
    requires a + n == Addr(K, g, i) + y && a + n + m <= Addr(K, g, Count(K, g))
    requires GroupCut(K, g, a + n + m) <= |v.ids|
    ensures GroupCut(K, g, a + n) <= |v.ids|
    ensures Cut(K, Node(K, g, i), Level(g, i), y + m) <= |v.ids|
    ensures GroupSection(K, v, g, a, n + m)
            == GroupSection(K, v, g, a, n) + Section(K, v, Node(K, g, i), Level(g, i), y, m)
  {
    hide Span, Node, Addr, GroupCut, GroupWhere, Cut, Where;
    GroupCutMonotone(K, g, a + n, a + n + m);
    CutAt(K, g, i, y + m);
    GroupSectionExists(K, v, g, a, n + m);
    SectionExists(K, v, Node(K, g, i), Level(g, i), y, m);
    forall z: nat {:trigger Where(K, Node(K, g, i), Level(g, i), z)} | y <= z < y + m
      ensures GroupWhere(K, g, Addr(K, g, i) + z) == Where(K, Node(K, g, i), Level(g, i), z)
    {
      WhereInSibling(K, g, i, z);
    }
  }

  /** A length of the group that ends in sibling i needs what that part of sibling i needs. */
  lemma CutAt(K: nat, g: Group, i: nat, y: nat)
    requires K > 0 && Ok(g) && i < Count(K, g) && 0 < y <= Span(K, Level(g, i))
    ensures Addr(K, g, i) + y <= Addr(K, g, Count(K, g))
    ensures GroupCut(K, g, Addr(K, g, i) + y) == Cut(K, Node(K, g, i), Level(g, i), y)
  {
    hide Span, Node, Addr, Cut;
    AddrZero(K, g);
    NextSibling(K, g, i);
    FindIs(K, g, Addr(K, g, i) + y - 1, i);
  }

  /** The child index the source computes by division, and the address left over. */
  lemma ChildByDivision(K: nat, p: nat, l: nat, a: nat)
    requires K > 0 && l > 0 && a < Span(K, l)
    ensures Span(K, l - 1) > 0
    ensures var i := Div(a, Span(K, l - 1));
            && i < K && Addr(K, Children(p, l), i) + Mod(a, Span(K, l - 1)) == a
            && Node(K, Children(p, l), i) == p + 1 + Mul(i, Nodes(K, l - 1))
            && a < Addr(K, Children(p, l), i + 1)
  {
    hide Mul, Div, Mod, Node, Addr;
    SpanPositive(K, l - 1);
    var i := Div(a, Span(K, l - 1));
    ChildIs(K, p, l, i);
    DivModIs(a, Span(K, l - 1));
    DivBelow(a, Span(K, l - 1), K);
    NextSibling(K, Children(p, l), i);
  }
}
