/** The kernel's page tables (src/Memory/Paging.cpp): one PML4, the tables below it, and the three
    places of virtual memory where a table can be looked at for a while. */
module Paging {
  import opened Options
  import opened PhysMemory
  import opened PageTree

  // ------------------------------------------------------------ virtual addresses

  /** A virtual page: the 36 bits of a canonical address above the offset in the page. */
  type VPage = v: nat | v < 0x1000000000

  function PML4Index(v: VPage): Index { v / 0x8000000 }
  function PDPIndex(v: VPage): Index { v / 0x40000 % 512 }
  function PDIndex(v: VPage): Index { v / 0x200 % 512 }
  function PTIndex(v: VPage): Index { v % 512 }

  /** Negative addresses are the kernel's. */
  predicate InKernel(v: VPage) { v >= 0x800000000 }


  function PDPath(v: VPage): (p: Path)
    ensures |p| == 2
  {
    [PML4Index(v), PDPIndex(v)]
  }

  function PTPath(v: VPage): (p: Path)
    ensures |p| == 3 && p[0] == PML4Index(v)
  {
    [PML4Index(v), PDPIndex(v), PDIndex(v)]
  }

  function PagePath(v: VPage): Path { PTPath(v) + [PTIndex(v)] }

  lemma PathTells(v: VPage, w: VPage)
    requires PagePath(v) == PagePath(w)
    ensures v == w
  {
    assert PML4Index(v) == PagePath(v)[0] == PagePath(w)[0] == PML4Index(w);
    assert PDPIndex(v) == PagePath(v)[1] == PagePath(w)[1] == PDPIndex(w);
    assert PDIndex(v) == PagePath(v)[2] == PagePath(w)[2] == PDIndex(w);
    assert PTIndex(v) == PagePath(v)[3] == PagePath(w)[3] == PTIndex(w);
    IndicesTell(v);
    IndicesTell(w);
  }

  lemma IndicesTell(v: VPage)
    ensures v == PML4Index(v) * 0x8000000 + PDPIndex(v) * 0x40000 + PDIndex(v) * 0x200 + PTIndex(v)
  {
    var x, y := v / 0x200, v / 0x40000;
    assert v == x * 0x200 + PTIndex(v);
    assert y == x / 512 && x == y * 512 + PDIndex(v);
    assert PML4Index(v) == y / 512 && y == PML4Index(v) * 512 + PDPIndex(v);
  }

  /** The entry of page v in its page table; it maps v when it is present. */
  function EntryAt(mem: Mem, root: nat, v: VPage): Entry
    requires root < |mem|
  {
    Slot(mem, root, PagePath(v))
  }

  /** activeAddr(). */
  function Activated(e: Entry, frame: nat): Entry {
    e.(present := true, frame := frame)
  }

  // ------------------------------------------------------------- growing the tree

  /** How many tables a walk along q misses. */
  function Missing(mem: Mem, f: nat, q: Path): nat
    requires f < |mem|
    decreases |q|
  {
    if q == [] then 0
    else
      var e := mem[f][q[0]];
      if e.present && e.frame < |mem| then Missing(mem, e.frame, Next(q)) else |q|
  }

  /** From m to n the tree took the frames `taken` and changed neither a slot, nor the root, nor any
      page outside of it. */
  ghost predicate Grown(m: Mem, n: Mem, root: nat, taken: set<nat>) {
    && root < |m| == |n| && n[root] == m[root]
    && Forest(n, root, 3) && Owned(n, root, 3) == Owned(m, root, 3) + taken
    && (forall p: Path | |p| == 4 :: Slot(n, root, p) == Slot(m, root, p))
    && (forall q: Path | |q| <= 3 && Walk(m, root, q).Some? :: Walk(n, root, q) == Walk(m, root, q))
    && (forall h | 0 <= h < |m| && h !in {root} + Owned(m, root, 3) + taken :: n[h] == m[h])
  }

  lemma GrownTwice(m: Mem, n: Mem, o: Mem, root: nat, first: set<nat>, second: set<nat>)
    requires Grown(m, n, root, first) && Grown(n, o, root, second)
    ensures Grown(m, o, root, first + second)
  {
  }

  lemma GrownNot(m: Mem, root: nat)
    requires root < |m| && Forest(m, root, 3)
    ensures Grown(m, m, root, {})
  {
  }

  lemma PlantGrows(m: Mem, n: Mem, root: nat, q: Path, i: Index, g: nat)
    requires root < |m| == |n| && Forest(m, root, 3) && 0 < |q| < 3 && Walk(m, root, q).Some?
    requires g < |m| && g !in {root} + Owned(m, root, 3) && n[g] == EmptyPage()
    requires Planted(m, n, Walk(m, root, q).value, i, g)
    ensures Grown(m, n, root, {g})
  {
    Plant(m, n, root, 3, q, i, g);
    forall p: Path | |p| == 4
      ensures Slot(n, root, p) == Slot(m, root, p)
    {
      PlantSlots(m, n, root, 3, q, i, g, p);
    }
    forall r: Path | |r| <= 3 && Walk(m, root, r).Some?
      ensures Walk(n, root, r) == Walk(m, root, r)
    {
      WalkPlanted(m, n, root, 3, r, Walk(m, root, q).value, i, g);
    }
    WalkInside(m, root, 3, q);
    WalkBelow(m, root, 3, q);
  }

  lemma {:induction false} WalkOn(mem: Mem, f: nat, q: Path, i: Index)
    requires f < |mem| && Walk(mem, f, q).Some?
    ensures var e := mem[Walk(mem, f, q).value][i];
      && Slot(mem, f, q + [i]) == e
      && Walk(mem, f, q + [i]) == (if e.present && e.frame < |mem| then Some(e.frame) else None)
    decreases |q|
  {
    if q == [] {
      assert q + [i] == [i];
    } else {
      WalkOn(mem, mem[f][q[0]].frame, Next(q), i);
      assert q + [i] == [q[0]] + (Next(q) + [i]);
      assert Next(q + [i]) == Next(q) + [i];
    }
  }

  /** The memory after `new(table) PageEntry[512]` on the table in frame g. */
  function Emptied(mem: Mem, g: nat): Mem
    requires g < |mem|
  {
    mem[g := EmptyPage()]
  }

  /** The memory after `table[i] = e`. */
  function Stored(mem: Mem, t: nat, i: Index, e: Entry): Mem
    requires t < |mem|
  {
    mem[t := mem[t][i := e]]
  }

  /** The memory after `table[i].activeAddr(g)`. */
  function Wired(mem: Mem, t: nat, i: Index, g: nat): Mem
    requires t < |mem|
  {
    Stored(mem, t, i, Activated(mem[t][i], g))
  }

  /** From m to n slot i of table t came to lead to a table: a new and empty one, the frame in `taken`,
      if it led to none. */
  ghost predicate Linked(m: Mem, n: Mem, t: nat, i: Index, taken: set<nat>) {
    && t < |m|
    && if m[t][i].present then n == m && taken == {}
       else exists g: nat :: g < |m| && taken == {g} && n == Wired(Emptied(m, g), t, i, g)
  }

  /** The PD of page v, as the tables tell. */
  function PDOf(m: Mem, root: nat, v: VPage): nat
    requires root < |m| && m[root][PML4Index(v)].frame < |m|
  {
    m[m[root][PML4Index(v)].frame][PDPIndex(v)].frame
  }

  /** From m to n the PD of page v was made if there was none. */
  ghost predicate PDMade(m: Mem, n: Mem, root: nat, v: VPage, taken: set<nat>) {
    && root < |m| == |n| && n[root] == m[root]
    && Linked(m, n, m[root][PML4Index(v)].frame, PDPIndex(v), taken)
  }

  /** ... and then its page table, pt. */
  ghost predicate PTMade(m: Mem, n: Mem, root: nat, v: VPage, pt: nat, taken: set<nat>) {
    exists m1: Mem, t1: set<nat>, t2: set<nat> ::
      && PDMade(m, m1, root, v, t1) && |n| == |m1| && n[root] == m1[root]
      && Linked(m1, n, PDOf(m1, root, v), PDIndex(v), t2)
      && pt == n[PDOf(m1, root, v)][PDIndex(v)].frame && pt < |n|
      && t1 !! t2 && taken == t1 + t2
  }

  /** From m to n page v was mapped to frame phy: tables were made, and its entry, which was absent,
      was written. */
  ghost predicate PageMapped(m: Mem, n: Mem, root: nat, v: VPage, phy: nat, wt: bool, taken: set<nat>) {
    exists m2: Mem, pt: nat ::
      && PTMade(m, m2, root, v, pt, taken) && pt < |m2| && !m2[pt][PTIndex(v)].present
      && n == Stored(m2, pt, PTIndex(v), Mapped(m2[pt][PTIndex(v)], phy, wt, InKernel(v)))
  }

  lemma MappedNow(m: Mem, m2: Mem, n: Mem, root: nat, v: VPage, pt: nat, phy: nat, wt: bool, taken: set<nat>)
    requires PTMade(m, m2, root, v, pt, taken) && pt < |m2| && !m2[pt][PTIndex(v)].present
    requires n == Stored(m2, pt, PTIndex(v), Mapped(m2[pt][PTIndex(v)], phy, wt, InKernel(v)))
    ensures PageMapped(m, n, root, v, phy, wt, taken)
  {
    hide PTMade, PTIndex, InKernel, Stored, Mapped;
  }

  lemma PDMadeNot(m: Mem, root: nat, v: VPage)
    requires root < |m| && m[root][PML4Index(v)].frame < |m| && m[m[root][PML4Index(v)].frame][PDPIndex(v)].present
    ensures PDMade(m, m, root, v, {})
  {
  }

  lemma PDMadeNew(m: Mem, root: nat, v: VPage, g: nat)
    requires root < |m| && g < |m| && root != g
    requires var pdp := m[root][PML4Index(v)].frame;
      pdp < |m| && pdp != g && pdp != root && !m[pdp][PDPIndex(v)].present
    ensures var pdp := m[root][PML4Index(v)].frame;
      var n := Wired(Emptied(m, g), pdp, PDPIndex(v), g);
      |n| == |m| && PDMade(m, n, root, v, {g}) && n[root] == m[root] && PDOf(n, root, v) == g
  {
  }

  lemma PTMadeNot(m: Mem, m1: Mem, root: nat, v: VPage, taken: set<nat>)
    requires PDMade(m, m1, root, v, taken) && m1[root][PML4Index(v)].frame < |m1| && PDOf(m1, root, v) < |m1|
    requires var e := m1[PDOf(m1, root, v)][PDIndex(v)]; e.present && e.frame < |m1|
    ensures PTMade(m, m1, root, v, m1[PDOf(m1, root, v)][PDIndex(v)].frame, taken)
  {
    assert Linked(m1, m1, PDOf(m1, root, v), PDIndex(v), {});
    assert taken == taken + {} && taken !! {};
  }

  lemma PTMadeNew(m: Mem, m1: Mem, root: nat, v: VPage, taken: set<nat>, g: nat)
    requires PDMade(m, m1, root, v, taken) && m1[root][PML4Index(v)].frame < |m1| && PDOf(m1, root, v) < |m1|
    requires g < |m1| && g !in taken && root != g && PDOf(m1, root, v) != g && PDOf(m1, root, v) != root
    requires !m1[PDOf(m1, root, v)][PDIndex(v)].present
    ensures PTMade(m, Wired(Emptied(m1, g), PDOf(m1, root, v), PDIndex(v), g), root, v, g, taken + {g})
  {
    var n := Wired(Emptied(m1, g), PDOf(m1, root, v), PDIndex(v), g);
    assert Linked(m1, n, PDOf(m1, root, v), PDIndex(v), {g});
    assert n[root] == m1[root] && g == n[PDOf(m1, root, v)][PDIndex(v)].frame;
  }

  /** A free frame that is emptied and put in an absent slot is a new table of the tree. */
  lemma Attach(m: Mem, root: nat, q: Path, i: Index, t: nat, g: nat, free: set<nat>)
    requires root < |m| && Forest(m, root, 3) && 0 < |q| < 3 && Walk(m, root, q) == Some(t)
    requires {root} + Owned(m, root, 3) !! free && g in free && g < |m| && !m[t][i].present
    ensures t < |m| == |Emptied(m, g)|
    ensures var n := Wired(Emptied(m, g), t, i, g);
      && |n| == |m| && Grown(m, n, root, {g}) && Forest(n, root, 3) && {root} + Owned(n, root, 3) !! free - {g}
      && n[g] == EmptyPage() && Walk(n, root, q + [i]) == Some(g)
    ensures |free - {g}| == |free| - 1 && free - (free - {g}) == {g}
  {
    hide Forest, Owned, Walk, Slot, Grown, EmptyPage;
    WalkInside(m, root, 3, q);
    var n := Wired(Emptied(m, g), t, i, g);
    PlantGrows(m, n, root, q, i, g);
    assert Walk(n, root, q) == Some(t) by { WalkPlanted(m, n, root, 3, q, t, i, g); }
    WalkOn(n, root, q, i);
  }

  /** A slot that reads present was reached through tables that are all there. */
  lemma {:induction false} SlotReached(mem: Mem, f: nat, q: Path, i: Index)
    requires f < |mem| && Slot(mem, f, q + [i]).present
    ensures Walk(mem, f, q).Some?
    decreases |q|
  {
    if q != [] {
      assert Next(q + [i]) == Next(q) + [i];
      SlotReached(mem, mem[f][q[0]].frame, Next(q), i);
    }
  }

  lemma {:induction false} MissingOn(mem: Mem, f: nat, q: Path, i: Index)
    requires f < |mem|
    ensures Walk(mem, f, q).Some? <==> Missing(mem, f, q) == 0
    ensures Walk(mem, f, q).None? ==> Missing(mem, f, q + [i]) == Missing(mem, f, q) + 1
    ensures Walk(mem, f, q).Some? ==>
      var e := mem[Walk(mem, f, q).value][i];
      Missing(mem, f, q + [i]) == if e.present && e.frame < |mem| then 0 else 1
    decreases |q|
  {
    if q == [] {
      assert q + [i] == [i];
    } else {
      assert Next(q + [i]) == Next(q) + [i];
      var e := mem[f][q[0]];
      if e.present && e.frame < |mem| {
        MissingOn(mem, e.frame, Next(q), i);
      }
    }
  }

  lemma MissingPT(mem: Mem, root: nat, v: VPage)
    requires root < |mem|
    ensures Walk(mem, root, PDPath(v)).Some? <==> Missing(mem, root, PDPath(v)) == 0
    ensures Walk(mem, root, PTPath(v)).Some? <==> Missing(mem, root, PTPath(v)) == 0
    ensures Missing(mem, root, PDPath(v)) <= Missing(mem, root, PTPath(v))
    ensures Walk(mem, root, PDPath(v)).None? ==> Missing(mem, root, PTPath(v)) == Missing(mem, root, PDPath(v)) + 1
    ensures Walk(mem, root, PDPath(v)).Some? ==>
      var e := mem[Walk(mem, root, PDPath(v)).value][PDIndex(v)];
      Missing(mem, root, PTPath(v)) == if e.present && e.frame < |mem| then 0 else 1
  {
    assert PDPath(v) + [PDIndex(v)] == PTPath(v);
    MissingOn(mem, root, PDPath(v), PDIndex(v));
    MissingOn(mem, root, PTPath(v), 0);
  }

  lemma StoredIs(m: Mem, t: nat, i: Index, e: Entry, e': Entry)
    requires t < |m|
    ensures |Stored(m, t, i, e)| == |m| && Stored(m, t, i, e)[t][i] == e
    ensures Stored(Stored(m, t, i, e), t, i, e') == Stored(m, t, i, e')
    ensures Rewritten(m, Stored(m, t, i, e'), t, i) && Stored(m, t, i, e')[t][i] == e'
  {
    assert Stored(m, t, i, e)[t][i := e'] == m[t][i := e'];
  }

  lemma GrownIs(m: Mem, n: Mem, root: nat, taken: set<nat>)
    requires Grown(m, n, root, taken)
    ensures root < |m| == |n| && n[root] == m[root]
    ensures Forest(n, root, 3) && Owned(n, root, 3) == Owned(m, root, 3) + taken
    ensures forall w: VPage :: EntryAt(n, root, w) == EntryAt(m, root, w)
    ensures forall q: Path | |q| <= 3 && Walk(m, root, q).Some? :: Walk(n, root, q) == Walk(m, root, q)
    ensures forall h | 0 <= h < |m| && h !in {root} + Owned(m, root, 3) && h !in taken :: n[h] == m[h]
  {
  }

  /** Writing the entry of page v changes what is read for v alone. */
  lemma StoreMaps(m: Mem, n: Mem, root: nat, v: VPage, pt: nat)
    requires root < |m| && Forest(m, root, 3) && Walk(m, root, PTPath(v)) == Some(pt)
    requires Rewritten(m, n, pt, PTIndex(v))
    ensures pt in Owned(m, root, 3) && |n| == |m| && n[root] == m[root]
    ensures Forest(n, root, 3) && Owned(n, root, 3) == Owned(m, root, 3)
    ensures EntryAt(m, root, v) == m[pt][PTIndex(v)] && EntryAt(n, root, v) == n[pt][PTIndex(v)]
    ensures forall w: VPage | w != v :: EntryAt(n, root, w) == EntryAt(m, root, w)
    ensures forall q: Path | |q| <= 3 :: Walk(n, root, q) == Walk(m, root, q)
  {
    hide Forest, Owned, Walk, Slot, PTIndex, PTPath;
    forall q: Path | |q| <= 3
      ensures Walk(n, root, q) == Walk(m, root, q)
    {
      WalkRewritten(m, n, root, 3, PTPath(v), PTIndex(v), q);
    }
    WalkBelow(m, root, 3, PTPath(v));
    WriteLeaf(m, n, root, 3, PTPath(v), PTIndex(v));
    WalkOn(m, root, PTPath(v), PTIndex(v));
    forall w: VPage
      ensures EntryAt(n, root, w) == if w == v then n[pt][PTIndex(v)] else EntryAt(m, root, w)
    {
      WriteLeafSlot(m, n, root, 3, PTPath(v), PTIndex(v), PagePath(w));
      if PagePath(w) == PagePath(v) {
        PathTells(v, w);
      }
    }
  }

  /** The tree once slot 0 of the root leads to the PDP of another user space. */
  lemma SwitchTree(m: Mem, n: Mem, root: nat, pdp: nat)
    requires root < |m| && Forest(m, root, 3) && pdp < |m| && Forest(m, pdp, 2)
    requires {root} + OwnedIn(m, root, 3, 1, 512) !! {pdp} + Owned(m, pdp, 2)
    requires n == Wired(m, root, 0, pdp)
    ensures Forest(n, root, 3) && Owned(n, root, 3) == OwnedIn(m, root, 3, 1, 512) + {pdp} + Owned(m, pdp, 2)
    ensures Forest(n, pdp, 2) && Owned(n, pdp, 2) == Owned(m, pdp, 2)
  {
    Unchanged(m, n, pdp, 2);
    assert Sub(n, root, 3, 0) == {pdp} + Owned(n, pdp, 2);
    forall i: Index | i > 0
      ensures Sub(n, root, 3, i) == Sub(m, root, 3, i) && SlotOk(n, root, 3, i)
      ensures Sub(m, root, 3, i) <= OwnedIn(m, root, 3, 1, 512)
    {
      SubUnchanged(m, n, root, 3, i);
    }
  }

  lemma SwitchSlots(m: Mem, n: Mem, root: nat, pdp: nat, p: Path)
    requires root < |m| && Forest(m, root, 3) && pdp < |m| && |p| == 4
    requires root !in {pdp} + Owned(m, pdp, 2)
    requires n == Wired(m, root, 0, pdp)
    ensures Slot(n, root, p) == if p[0] == 0 then Slot(m, pdp, Next(p)) else Slot(m, root, p)
  {
    if p[0] == 0 {
      SlotUnchanged(m, n, pdp, 2, Next(p));
    } else if m[root][p[0]].present {
      SlotsApart(m, root, 3, p[0], 0);
      assert SlotOk(m, root, 3, p[0]);
      SlotOnly(m, n, root, 3, p);
    }
  }

  lemma WiredSame(m: Mem, t: nat, i: Index)
    requires t < |m| && m[t][i].present
    ensures Wired(m, t, i, m[t][i].frame) == m
  {
    assert m[t][i := m[t][i]] == m[t];
  }

  lemma SwitchedKernel(m: Mem, n: Mem, root: nat, pdp: nat)
    requires root < |m| && Forest(m, root, 3) && n == Wired(m, root, 0, pdp)
    ensures OwnedIn(n, root, 3, 1, 512) == OwnedIn(m, root, 3, 1, 512)
    ensures OwnedIn(m, root, 3, 1, 512) <= Owned(m, root, 3)
  {
    assert OwnedIn(m, root, 3, 1, 512) <= OwnedIn(m, root, 3, 0, 512);
    RangeUnchanged(m, n, root, 3, 1, 512);
  }

  /** The entry createMapping() leaves where e was. */
  function Mapped(e: Entry, phy: nat, wt: bool, global: bool): Entry {
    Entry(true, phy, e.flags.(writeThrough := wt, global := global || e.flags.global))
  }

  // ------------------------------------------------- what the levels of a walk hold

  lemma TableBelow(m: Mem, f: nat, d: nat, i: Index)
    requires f < |m| && d > 0 && Forest(m, f, d) && m[f][i].present
    ensures var g := m[f][i].frame;
      g < |m| && g != f && Forest(m, g, d - 1) && {g} + Owned(m, g, d - 1) <= Owned(m, f, d)
    ensures f !in Owned(m, f, d)
  {
    assert SlotOk(m, f, d, i);
    assert Sub(m, f, d, i) == {m[f][i].frame} + Owned(m, m[f][i].frame, d - 1);
    SlotsApart(m, f, d, i, if i == 0 then 1 else 0);
  }

  /** The tables on the way to page v, and no two are the same. */
  lemma TablesOnTheWay(m: Mem, root: nat, v: VPage)
    requires root < |m| && Forest(m, root, 3) && m[root][PML4Index(v)].present
    ensures var pdp := m[root][PML4Index(v)].frame;
      && pdp < |m| && pdp != root && pdp in Owned(m, root, 3)
      && (m[pdp][PDPIndex(v)].present ==>
           var pd := m[pdp][PDPIndex(v)].frame;
           && pd < |m| && pd !in {root, pdp} && pd in Owned(m, root, 3)
           && (m[pd][PDIndex(v)].present ==>
                var pt := m[pd][PDIndex(v)].frame; pt < |m| && pt !in {root, pdp, pd} && pt in Owned(m, root, 3)))
  {
    hide Forest, Owned, PML4Index, PDPIndex, PDIndex;
    var pdp := m[root][PML4Index(v)].frame;
    TableBelow(m, root, 3, PML4Index(v));
    if m[pdp][PDPIndex(v)].present {
      TableBelow(m, pdp, 2, PDPIndex(v));
      if m[m[pdp][PDPIndex(v)].frame][PDIndex(v)].present {
        TableBelow(m, m[pdp][PDPIndex(v)].frame, 1, PDIndex(v));
      }
    }
  }

  /** A new table is empty, and the slot that leads to it keeps its flags. */
  lemma LinkedTells(m: Mem, n: Mem, t: nat, i: Index, taken: set<nat>)
    requires Linked(m, n, t, i, taken) && t !in taken
    ensures |n| == |m| && n[t][i].present && n[t][i].flags == m[t][i].flags
    ensures m[t][i].present ==> n == m
    ensures !m[t][i].present ==> n[t][i].frame in taken && n[t][i].frame < |n| && n[n[t][i].frame] == EmptyPage()
    ensures forall h | 0 <= h < |m| && h != t && h !in taken :: n[h] == m[h]
  {
  }

  /** The tables of page v, from m where some may be missing to n where none is: those made lead on, and
      let everything pass. */
  lemma LevelsMade(m: Mem, n: Mem, root: nat, v: VPage, pt: nat, taken: set<nat>)
    requires root < |m| && Forest(m, root, 3) && m[root][PML4Index(v)].present && PTMade(m, n, root, v, pt, taken)
    requires taken !! {root} + Owned(m, root, 3)
    ensures |n| == |m| && n[root] == m[root]
    ensures var pdp := m[root][PML4Index(v)].frame;
      && pdp < |n| && n[pdp][PDPIndex(v)].present && n[pdp][PDPIndex(v)].flags == m[pdp][PDPIndex(v)].flags
      && var pd := n[pdp][PDPIndex(v)].frame;
      && pd < |n| && n[pd][PDIndex(v)].present && n[pd][PDIndex(v)].frame == pt < |n| && pt !in {root, pdp, pd}
      && pd !in {root, pdp} && pdp != root
      && (if m[pdp][PDPIndex(v)].present
          then m[pdp][PDPIndex(v)].frame == pd && n[pd][PDIndex(v)].flags == m[pd][PDIndex(v)].flags
          else n[pd][PDIndex(v)].flags == EMPTY.flags)
      && (!(m[pdp][PDPIndex(v)].present && m[pd][PDIndex(v)].present) ==> n[pt] == EmptyPage())
  {
    hide Forest, Owned, PML4Index, PDPIndex, PDIndex;
    TablesOnTheWay(m, root, v);
    var m1: Mem, t1: set<nat>, t2: set<nat> :|
      && PDMade(m, m1, root, v, t1) && |n| == |m1| && n[root] == m1[root]
      && Linked(m1, n, PDOf(m1, root, v), PDIndex(v), t2) && PDOf(m1, root, v) < |n|
      && pt == n[PDOf(m1, root, v)][PDIndex(v)].frame && pt < |n|
      && t1 !! t2 && taken == t1 + t2;
    var pdp := m[root][PML4Index(v)].frame;
    LinkedTells(m, m1, pdp, PDPIndex(v), t1);
    LinkedTells(m1, n, PDOf(m1, root, v), PDIndex(v), t2);
  }

  lemma {:induction false} NoTableNoEntry(m: Mem, f: nat, q: Path, i: Index)
    requires f < |m|
    ensures Walk(m, f, q).None? ==> Slot(m, f, q + [i]) == EMPTY
    decreases |q|
  {
    if q != [] && m[f][q[0]].present && m[f][q[0]].frame < |m| {
      NoTableNoEntry(m, m[f][q[0]].frame, Next(q), i);
      assert Next(q + [i]) == Next(q) + [i];
    }
  }

  /** The entry that maps page v, field by field. */
  lemma MappedAs(m: Mem, root: nat, v: VPage, phy: nat, wt: bool)
    requires root < |m|
    ensures Mapped(EntryAt(m, root, v), phy, wt, InKernel(v)) ==
      var f := EntryAt(m, root, v).flags;
      Entry(present := true, frame := phy, flags :=
        f.(writeThrough := wt, global := v >= 0x800000000 || f.global))
    ensures Walk(m, root, PTPath(v)).None? ==>
      Mapped(EntryAt(m, root, v), phy, wt, InKernel(v)).flags == Flags(true, true, wt, v >= 0x800000000, 0)
  {
    hide Walk, Slot;
    NoTableNoEntry(m, root, PTPath(v), PTIndex(v));
  }

  /** What mapping page v to frame phy leaves at each level of its walk: the tables that were there have
      the entries they had; where one was missing, all entries from there on let everything pass. */
  lemma LevelsTold(m: Mem, n: Mem, root: nat, v: VPage, phy: nat, wt: bool, taken: set<nat>)
    requires root < |m| && Forest(m, root, 3) && m[root][PML4Index(v)].present
    requires PageMapped(m, n, root, v, phy, wt, taken) && taken !! {root} + Owned(m, root, 3)
    ensures |n| == |m| && n[root] == m[root]
    ensures var a, b, c := v / 0x8000000, v / 0x40000 % 512, v / 0x200 % 512;
      var pdp := n[root][a].frame;
      && pdp < |n| && n[pdp][b].present && n[pdp][b].flags == m[pdp][b].flags
      && var pd := n[pdp][b].frame;
      && pd < |n| && n[pd][c].present && n[pd][c].frame < |n|
      && (if m[pdp][b].present then m[pdp][b].frame == pd && n[pd][c].flags == m[pd][c].flags
          else n[pd][c].flags == Flags(true, true, false, false, 0))
      && var e := n[n[pd][c].frame][v % 512];
      && EntryAt(n, root, v) == e && e.present && e.frame == phy && e.flags.writeThrough == wt
      && (!(m[pdp][b].present && m[pd][c].present) ==> e.flags == Flags(true, true, wt, v >= 0x800000000, 0))
  {
    hide Forest, Owned, Walk, Slot, EntryAt, PTMade, EmptyPage;
    var m2: Mem, pt: nat :|
      && PTMade(m, m2, root, v, pt, taken) && pt < |m2| && !m2[pt][PTIndex(v)].present
      && n == Stored(m2, pt, PTIndex(v), Mapped(m2[pt][PTIndex(v)], phy, wt, InKernel(v)));
    LevelsMade(m, m2, root, v, pt, taken);
    TranslatedByIndices(n, root, v);
    assert EmptyPage()[PTIndex(v)] == EMPTY;
  }

  /** The entry a page is translated by is the one that its four indices lead to. */
  lemma TranslatedByIndices(m: Mem, root: nat, v: VPage)
    requires root < |m|
    ensures var a, b, c := v / 0x8000000, v / 0x40000 % 512, v / 0x200 % 512;
      && m[root][a].present && m[root][a].frame < |m|
      && m[m[root][a].frame][b].present && m[m[root][a].frame][b].frame < |m|
      && m[m[m[root][a].frame][b].frame][c].present && m[m[m[root][a].frame][b].frame][c].frame < |m|
      ==> EntryAt(m, root, v) == m[m[m[m[root][a].frame][b].frame][c].frame][v % 512]
  {
    var p := PagePath(v);
    assert Next(p) == [PDPIndex(v), PDIndex(v), PTIndex(v)];
    assert Next(Next(p)) == [PDIndex(v), PTIndex(v)];
    assert Next(Next(Next(p))) == [PTIndex(v)];
    var a, b, c := PML4Index(v), PDPIndex(v), PDIndex(v);
    if m[root][a].present && m[root][a].frame < |m| {
      assert Slot(m, root, p) == Slot(m, m[root][a].frame, Next(p));
      var pdp := m[root][a].frame;
      if m[pdp][b].present && m[pdp][b].frame < |m| {
        assert Slot(m, pdp, Next(p)) == Slot(m, m[pdp][b].frame, Next(Next(p)));
        var pd := m[pdp][b].frame;
        if m[pd][c].present && m[pd][c].frame < |m| {
          assert Slot(m, pd, Next(Next(p))) == Slot(m, m[pd][c].frame, Next(Next(Next(p))));
        }
      }
    }
  }

  /** The frames in the entries of n pages from v on. */
  ghost function FramesIn(mem: Mem, root: nat, v: nat, n: nat): set<nat>
    requires root < |mem| && v + n <= 0x1000000000
  {
    set w: VPage | v <= w < v + n :: EntryAt(mem, root, w).frame
  }

  lemma FramesGrow(m: Mem, n: Mem, root: nat, v: nat, k: nat)
    requires root < |m| == |n| && v + k < 0x1000000000
    requires forall w: VPage | v <= w < v + k :: EntryAt(n, root, w) == EntryAt(m, root, w)
    ensures FramesIn(n, root, v, k + 1) == FramesIn(m, root, v, k) + {EntryAt(n, root, v + k).frame}
    ensures FramesIn(n, root, v, k) == FramesIn(m, root, v, k)
    ensures forall w: VPage | v <= w < v + k :: EntryAt(m, root, w).frame in FramesIn(m, root, v, k)
  {
    hide EntryAt;
  }

  /** Everything that changes once the entry is written, from m before the tables were made. */
  lemma StoredTells(m: Mem, m1: Mem, root: nat, v: VPage, pt: nat, phy: nat, wt: bool, taken: set<nat>)
    requires Grown(m, m1, root, taken) && Walk(m1, root, PTPath(v)) == Some(pt) && PTMade(m, m1, root, v, pt, taken)
    requires !EntryAt(m, root, v).present
    ensures pt < |m1| && !m1[pt][PTIndex(v)].present
    ensures var n := Stored(m1, pt, PTIndex(v), Mapped(m1[pt][PTIndex(v)], phy, wt, InKernel(v)));
      && |n| == |m| && n[root] == m[root] && Forest(n, root, 3) && Owned(n, root, 3) == Owned(m, root, 3) + taken
      && EntryAt(n, root, v) ==
           (var f := EntryAt(m, root, v).flags;
            Entry(true, phy, f.(writeThrough := wt, global := v >= 0x800000000 || f.global)))
      && (Walk(m, root, PTPath(v)).None? ==>
            EntryAt(n, root, v).flags == Flags(true, true, wt, v >= 0x800000000, 0))
      && (forall w: VPage | w != v :: EntryAt(n, root, w) == EntryAt(m, root, w))
      && (forall q: Path | |q| <= 3 && Walk(m, root, q).Some? :: Walk(n, root, q) == Walk(m, root, q))
      && Walk(n, root, PTPath(v)).Some?
      && (forall h | 0 <= h < |m| && h !in {root} + Owned(m, root, 3) && h !in taken :: n[h] == m[h])
      && PageMapped(m, n, root, v, phy, wt, taken)
  {
    hide Forest, Owned, Walk, Slot, Grown, PTMade, PTIndex, PTPath, EntryAt, InKernel, Stored, Mapped, PageMapped;
    var i := PTIndex(v);
    GrownIs(m, m1, root, taken);
    var e := Mapped(m1[pt][i], phy, wt, InKernel(v));
    StoredIs(m1, pt, i, e, e);
    StoreMaps(m1, Stored(m1, pt, i, e), root, v, pt);
    MappedNow(m, m1, Stored(m1, pt, i, e), root, v, pt, phy, wt, taken);
    MappedAs(m, root, v, phy, wt);
  }

  class Paging {
    const phys: PhysMem
    const pml4: nat        // the frame of the PML4
    const userPDP: nat     // the frame of the default user PDP
    var tmpPDP: Option<nat>
    var tmpPD: Option<nat>
    var tmpPT: Option<nat>

    ghost predicate Valid()
      reads phys`words, phys`ram
    {
      && phys.Valid() && pml4 < |phys.ram|
      && Forest(phys.ram, pml4, 3) && Tables() !! phys.Free()
    }

    /** The frames of the page tables in use. */
    ghost function Tables(): set<nat>
      reads phys`ram
      requires pml4 < |phys.ram|
    {
      {pml4} + Owned(phys.ram, pml4, 3)
    }

    /** No temporary place is in use. */
    ghost predicate Quiet()
      reads this`tmpPDP, this`tmpPD, this`tmpPT
    {
      tmpPDP.None? && tmpPD.None? && tmpPT.None?
    }

    /** The kernel's paging once it is set up. */
    constructor (phys: PhysMem, pml4: nat, userPDP: nat)
      requires phys.Valid() && pml4 < |phys.ram| && Forest(phys.ram, pml4, 3)
      requires {pml4} + Owned(phys.ram, pml4, 3) !! phys.Free()
      ensures Valid() && Quiet() && this.phys == phys && this.pml4 == pml4 && this.userPDP == userPDP
    {
      this.phys, this.pml4, this.userPDP := phys, pml4, userPDP;
      tmpPDP, tmpPD, tmpPT := None, None, None;
    }

    // -------------------------------------------------------- temporary places

    method ActTmpPDP(pdp: nat)
      requires tmpPDP.None?
      modifies this`tmpPDP
      ensures tmpPDP == Some(pdp)
    {
      tmpPDP := Some(pdp);
    }

    method ActTmpPD(pd: nat)
      requires tmpPD.None?
      modifies this`tmpPD
      ensures tmpPD == Some(pd)
    {
      tmpPD := Some(pd);
    }

    method ActTmpPT(pt: nat)
      requires tmpPT.None?
      modifies this`tmpPT
      ensures tmpPT == Some(pt)
    {
      tmpPT := Some(pt);
    }

    method FreeTmpPDP()
      modifies this`tmpPDP
      ensures tmpPDP.None?
    {
      tmpPDP := None;
    }

    method FreeTmpPD()
      modifies this`tmpPD
      ensures tmpPD.None?
    {
      tmpPD := None;
    }

    method FreeTmpPT()
      modifies this`tmpPT
      ensures tmpPT.None?
    {
      tmpPT := None;
    }

    /** new(table) PageEntry[512]. */
    method NewTable(table: nat)
      requires table < |phys.ram|
      modifies phys`ram
      ensures phys.ram == Emptied(old(phys.ram), table)
    {
      phys.ram := phys.ram[table := EmptyPage()];
    }

    /** table[i] = e. */
    method Store(table: nat, i: Index, e: Entry)
      requires table < |phys.ram|
      modifies phys`ram
      ensures phys.ram == Stored(old(phys.ram), table, i, e) && |phys.ram| == |old(phys.ram)|
    {
      phys.ram := phys.ram[table := phys.ram[table][i := e]];
    }

    /** table[i].activeAddr(frame). */
    method Activate(table: nat, i: Index, frame: nat)
      requires table < |phys.ram|
      modifies phys`ram
      ensures phys.ram == Wired(old(phys.ram), table, i, frame)
    {
      Store(table, i, Activated(phys.ram[table][i], frame));
    }

    // -------------------------------------------------------------- table walks

    /** The PDP of v; the source stops when the PML4 has none there. */
    method GetPDPphy(v: VPage) returns (pdp: nat)
      requires Valid() && phys.ram[pml4][PML4Index(v)].present
      ensures Walk(phys.ram, pml4, [PML4Index(v)]) == Some(pdp) && pdp == phys.ram[pml4][PML4Index(v)].frame
    {
      pdp := phys.ram[pml4][PML4Index(v)].frame;
      assert SlotOk(phys.ram, pml4, 3, PML4Index(v));
      assert Walk(phys.ram, pdp, Next([PML4Index(v)])) == Some(pdp);
    }

    lemma WalkPD(v: VPage)
      requires Valid() && phys.ram[pml4][PML4Index(v)].present
      ensures var r := Walk(phys.ram, pml4, [PML4Index(v)]);
        && r.Some? && r.value in Tables() && r.value != pml4
        && [PML4Index(v)] + [PDPIndex(v)] == PDPath(v)
        && var e := phys.ram[r.value][PDPIndex(v)];
        && Walk(phys.ram, pml4, PDPath(v)) == (if e.present then Some(e.frame) else None)
        && Missing(phys.ram, pml4, PDPath(v)) == (if e.present then 0 else 1)
    {
      var i := PDPIndex(v);
      assert SlotOk(phys.ram, pml4, 3, PML4Index(v));
      WalkOn(phys.ram, pml4, [PML4Index(v)], i);
      WalkInside(phys.ram, pml4, 3, [PML4Index(v)]);
      WalkBelow(phys.ram, pml4, 3, [PML4Index(v)]);
      assert SlotOk(phys.ram, phys.ram[pml4][PML4Index(v)].frame, 2, i);
      MissingOn(phys.ram, pml4, [PML4Index(v)], i);
    }

    lemma WalkPT(v: VPage, pd: nat)
      requires Valid() && Walk(phys.ram, pml4, PDPath(v)) == Some(pd)
      ensures pd in Tables() && pd != pml4 && PDPath(v) + [PDIndex(v)] == PTPath(v)
      ensures var e := phys.ram[pd][PDIndex(v)];
        && (e.present ==> e.frame < |phys.ram|)
        && Walk(phys.ram, pml4, PTPath(v)) == (if e.present then Some(e.frame) else None)
        && Missing(phys.ram, pml4, PTPath(v)) == (if e.present then 0 else 1)
    {
      var i := PDIndex(v);
      WalkOn(phys.ram, pml4, PDPath(v), i);
      MissingOn(phys.ram, pml4, PDPath(v), i);
      WalkInside(phys.ram, pml4, 3, PDPath(v));
      WalkBelow(phys.ram, pml4, 3, PDPath(v));
      WalkForest(phys.ram, pml4, 3, PDPath(v));
      assert SlotOk(phys.ram, pd, 1, i);
    }

    /** The PD of v, made when there is none. */
    method GetPDphy(v: VPage) returns (pd: nat)
      requires Valid() && Quiet() && phys.ram[pml4][PML4Index(v)].present
      requires Missing(phys.ram, pml4, PDPath(v)) <= |phys.Free()|
      modifies phys`words, phys`ram, this`tmpPDP, this`tmpPD
      ensures Valid() && Quiet() && phys.Free() <= old(phys.Free())
      ensures Grown(old(phys.ram), phys.ram, pml4, old(phys.Free()) - phys.Free())
      ensures Walk(phys.ram, pml4, PDPath(v)) == Some(pd)
      ensures old(Walk(phys.ram, pml4, PDPath(v))).Some? ==> phys.ram == old(phys.ram) && phys.words == old(phys.words)
      ensures Missing(phys.ram, pml4, PTPath(v))
        == old(Missing(phys.ram, pml4, PTPath(v)) - Missing(phys.ram, pml4, PDPath(v)))
      ensures |phys.Free()| == old(|phys.Free()| - Missing(phys.ram, pml4, PDPath(v)))
      ensures PDMade(old(phys.ram), phys.ram, pml4, v, old(phys.Free()) - phys.Free())
      ensures phys.ram[pml4][PML4Index(v)].frame < |phys.ram| && pd == PDOf(phys.ram, pml4, v)
    {
      hide PhysMem.Free, PhysMem.Bits, Forest, Owned, Walk, Slot, Missing, Grown, Emptied, Wired, PML4Index, PDPIndex,
        PDIndex, PDPath, PTPath, PDMade;
      ghost var free, m := phys.Free(), phys.ram;
      var pdp := GetPDPphy(v);
      var i := PDPIndex(v);
      WalkPD(v);
      MissingPT(m, pml4, v);
      ActTmpPDP(pdp);
      pd := phys.ram[tmpPDP.value][i].frame;
      if phys.ram[tmpPDP.value][i].present {
        FreeTmpPDP();
        GrownNot(m, pml4);
        PDMadeNot(m, pml4, v);
        assert free - phys.Free() == {};
        return;
      }
      pd := phys.Alloc();
      Attach(m, pml4, [PML4Index(v)], i, pdp, pd, free);
      PDMadeNew(m, pml4, v, pd);
      ActTmpPD(pd);
      NewTable(tmpPD.value);
      FreeTmpPD();
      Activate(tmpPDP.value, i, pd);
      FreeTmpPDP();
      MissingPT(phys.ram, pml4, v);
    }

    /** The PT of v, made when there is none. */
    method GetPTphy(v: VPage) returns (pt: nat)
      requires Valid() && Quiet() && phys.ram[pml4][PML4Index(v)].present
      requires Missing(phys.ram, pml4, PTPath(v)) <= |phys.Free()|
      modifies phys`words, phys`ram, this`tmpPDP, this`tmpPD, this`tmpPT
      ensures Valid() && Quiet() && phys.Free() <= old(phys.Free())
      ensures Grown(old(phys.ram), phys.ram, pml4, old(phys.Free()) - phys.Free())
      ensures Walk(phys.ram, pml4, PTPath(v)) == Some(pt)
      ensures old(Walk(phys.ram, pml4, PTPath(v))).Some? ==> phys.ram == old(phys.ram) && phys.words == old(phys.words)
      ensures |phys.Free()| == old(|phys.Free()| - Missing(phys.ram, pml4, PTPath(v)))
      ensures PTMade(old(phys.ram), phys.ram, pml4, v, pt, old(phys.Free()) - phys.Free())
    {
      hide PhysMem.Free, PhysMem.Bits, Forest, Owned, Walk, Slot, Missing, Grown, Emptied, Wired, PML4Index, PDPIndex,
        PDIndex, PDPath, PTPath, PDMade, PTMade;
      ghost var free, m := phys.Free(), phys.ram;
      MissingPT(m, pml4, v);
      var pd := GetPDphy(v);
      ghost var free1, m1 := phys.Free(), phys.ram;
      var i := PDIndex(v);
      WalkPT(v, pd);
      ActTmpPD(pd);
      pt := phys.ram[tmpPD.value][i].frame;
      if phys.ram[tmpPD.value][i].present {
        FreeTmpPD();
        PTMadeNot(m, m1, pml4, v, free - free1);
        return;
      }
      assert |free1| == |free| - Missing(m, pml4, PDPath(v)) > 0;
      pt := MakePT(v, pd, m, free);
    }

    /** getPTphy()'s new page table, for an empty slot of the PD that is looked at. */
    method MakePT(v: VPage, pd: nat, ghost m: Mem, ghost free: set<nat>) returns (pt: nat)
      requires Valid() && tmpPDP.None? && tmpPD == Some(pd) && tmpPT.None? && phys.Free() != {} && phys.Free() <= free
      requires phys.ram[pml4][PML4Index(v)].frame < |phys.ram| && pd == PDOf(phys.ram, pml4, v)
      requires pd < |phys.ram| && pd in Tables() && pd != pml4 && !phys.ram[pd][PDIndex(v)].present
      requires Walk(phys.ram, pml4, PDPath(v)) == Some(pd)
      requires Grown(m, phys.ram, pml4, free - phys.Free()) && PDMade(m, phys.ram, pml4, v, free - phys.Free())
      modifies phys`words, phys`ram, this`tmpPD, this`tmpPT
      ensures Valid() && Quiet() && phys.Free() <= old(phys.Free()) && |phys.Free()| + 1 == |old(phys.Free())|
      ensures Grown(m, phys.ram, pml4, free - phys.Free()) && Walk(phys.ram, pml4, PTPath(v)) == Some(pt)
      ensures PTMade(m, phys.ram, pml4, v, pt, free - phys.Free())
    {
      hide PhysMem.Free, PhysMem.Bits, Forest, Owned, Walk, Slot, Missing, Grown, Emptied, Wired, PML4Index, PDPIndex,
        PDIndex, PDPath, PTPath, PDMade, PTMade, PDOf;
      ghost var free1, m1 := phys.Free(), phys.ram;
      var i := PDIndex(v);
      WalkPT(v, pd);
      pt := phys.Alloc();
      Attach(m1, pml4, PDPath(v), i, pd, pt, free1);
      PTMadeNew(m, m1, pml4, v, free - free1, pt);
      ActTmpPT(pt);
      NewTable(tmpPT.value);
      FreeTmpPT();
      Activate(tmpPD.value, i, pt);
      FreeTmpPD();
      GrownTwice(m, m1, phys.ram, pml4, free - free1, {pt});
      assert free - phys.Free() == free - free1 + {pt};
    }

    // ------------------------------------------------- table walks that check nothing

    method GetPDphyu(v: VPage) returns (pd: nat)
      requires Valid() && tmpPDP.None? && Walk(phys.ram, pml4, PDPath(v)).Some?
      modifies this`tmpPDP
      ensures tmpPDP.None? && Walk(phys.ram, pml4, PDPath(v)) == Some(pd)
    {
      var pdp := phys.ram[pml4][PML4Index(v)].frame;
      WalkPD(v);
      ActTmpPDP(pdp);
      pd := phys.ram[tmpPDP.value][PDPIndex(v)].frame;
      FreeTmpPDP();
    }

    method GetPTphyu(v: VPage) returns (pt: nat)
      requires Valid() && tmpPDP.None? && tmpPD.None? && Walk(phys.ram, pml4, PTPath(v)).Some?
      modifies this`tmpPDP, this`tmpPD
      ensures tmpPDP.None? && tmpPD.None? && Walk(phys.ram, pml4, PTPath(v)) == Some(pt)
    {
      MissingPT(phys.ram, pml4, v);
      var pd := GetPDphyu(v);
      WalkPT(v, pd);
      ActTmpPD(pd);
      pt := phys.ram[tmpPD.value][PDIndex(v)].frame;
      FreeTmpPD();
    }

    /** The frame v is mapped to. */
    method Getphyu(v: VPage) returns (phy: nat)
      requires Valid() && Quiet() && EntryAt(phys.ram, pml4, v).present
      modifies this`tmpPDP, this`tmpPD, this`tmpPT
      ensures Quiet() && phy == EntryAt(phys.ram, pml4, v).frame
    {
      SlotReached(phys.ram, pml4, PTPath(v), PTIndex(v));
      var pt := GetPTphyu(v);
      WalkOn(phys.ram, pml4, PTPath(v), PTIndex(v));
      ActTmpPT(pt);
      phy := phys.ram[tmpPT.value][PTIndex(v)].frame;
      FreeTmpPT();
    }

    // ------------------------------------------------------------------ mappings

    /** createMapping()'s work on the page table itself. */
    method FillSlot(pt: nat, i: Index, phy: nat, wt: bool, global: bool)
      requires tmpPT.None? && pt < |phys.ram| && !phys.ram[pt][i].present
      modifies phys`ram, this`tmpPT
      ensures tmpPT.None? && phys.ram == Stored(old(phys.ram), pt, i, Mapped(old(phys.ram)[pt][i], phy, wt, global))
    {
      hide Stored;
      ghost var m := phys.ram;
      ghost var e0 := m[pt][i];
      ghost var e1 := Activated(e0, phy);
      ghost var e2 := e1.(flags := e1.flags.(writeThrough := wt));
      StoredIs(m, pt, i, e1, e2);
      StoredIs(m, pt, i, e2, Mapped(e0, phy, wt, global));
      ActTmpPT(pt);
      assert !phys.ram[tmpPT.value][i].present;
      Activate(tmpPT.value, i, phy);
      var e := phys.ram[tmpPT.value][i];
      Store(tmpPT.value, i, e.(flags := e.flags.(writeThrough := wt)));
      if global {
        e := phys.ram[tmpPT.value][i];
        Store(tmpPT.value, i, e.(flags := e.flags.(global := true)));
      }
      FreeTmpPT();
    }

    /** Map virtual page v, which is not mapped, to frame phy. */
    method CreateMapping(phy: nat, v: VPage, wt: bool)
      requires Valid() && Quiet() && phys.ram[pml4][PML4Index(v)].present
      requires Missing(phys.ram, pml4, PTPath(v)) <= |phys.Free()|
      requires !EntryAt(phys.ram, pml4, v).present
      modifies phys`words, phys`ram, this`tmpPDP, this`tmpPD, this`tmpPT
      ensures Valid() && Quiet() && phys.Free() <= old(phys.Free())
      ensures Tables() == old(Tables()) + (old(phys.Free()) - phys.Free())
      ensures |phys.Free()| == old(|phys.Free()| - Missing(phys.ram, pml4, PTPath(v)))
      ensures EntryAt(phys.ram, pml4, v) ==
        var f := old(EntryAt(phys.ram, pml4, v)).flags;
        Entry(present := true, frame := phy, flags :=
          f.(writeThrough := wt, global := v >= 0x800000000 || f.global))
      ensures forall w: VPage | w != v :: EntryAt(phys.ram, pml4, w) == old(EntryAt(phys.ram, pml4, w))
      ensures forall q: Path | |q| <= 3 && old(Walk(phys.ram, pml4, q)).Some? ::
        Walk(phys.ram, pml4, q) == old(Walk(phys.ram, pml4, q))
      ensures Walk(phys.ram, pml4, PTPath(v)).Some?
      ensures phys.ram[pml4] == old(phys.ram)[pml4] && |phys.ram| == old(|phys.ram|)
      ensures forall h | 0 <= h < |phys.ram| && h !in old(Tables() + phys.Free()) :: phys.ram[h] == old(phys.ram)[h]
      ensures PageMapped(old(phys.ram), phys.ram, pml4, v, phy, wt, old(phys.Free()) - phys.Free())
      ensures old(Walk(phys.ram, pml4, PTPath(v))).None? ==>
        EntryAt(phys.ram, pml4, v).flags == Flags(true, true, wt, v >= 0x800000000, 0)
    {
      hide PhysMem.Free, PhysMem.Bits, Forest, Owned, Walk, Slot, Missing, Grown, PTMade, PML4Index, PTIndex, PTPath,
        EntryAt, InKernel, Stored, Mapped, PageMapped;
      ghost var m, free := phys.ram, phys.Free();
      var i := PTIndex(v);
      var pt := GetPTphy(v);
      ghost var taken := free - phys.Free();
      StoredTells(m, phys.ram, pml4, v, pt, phy, wt, taken);
      FillSlot(pt, i, phy, wt, InKernel(v));
    }

    /** The step of freeMapping() for one page. */
    method Unmap(v: VPage)
      requires Valid() && Quiet() && EntryAt(phys.ram, pml4, v).present
      modifies phys`words, phys`ram, this`tmpPDP, this`tmpPD, this`tmpPT
      ensures Valid() && Quiet() && phys.words == old(phys.words) && Tables() == old(Tables())
      ensures EntryAt(phys.ram, pml4, v) == old(EntryAt(phys.ram, pml4, v)).(present := false)
      ensures forall w: VPage | w != v :: EntryAt(phys.ram, pml4, w) == old(EntryAt(phys.ram, pml4, w))
      ensures phys.ram[pml4] == old(phys.ram)[pml4] && |phys.ram| == old(|phys.ram|)
      ensures forall h | 0 <= h < |phys.ram| && h !in Tables() :: phys.ram[h] == old(phys.ram)[h]
    {
      hide PhysMem.Free, PhysMem.Bits, Forest, Owned, Walk, Slot, Missing, Grown, PML4Index, PTIndex, PTPath, EntryAt;
      ghost var m := phys.ram;
      var i := PTIndex(v);
      MappedThrough(v);
      var pt := GetPTphy(v);
      ActTmpPT(pt);
      WalkBelow(m, pml4, 3, PTPath(v));
      var e := phys.ram[tmpPT.value][i];
      StoredIs(m, pt, i, e, e.(present := false));
      StoreMaps(m, Stored(m, pt, i, e.(present := false)), pml4, v, pt);
      assert phys.ram[tmpPT.value][i].present;
      Store(tmpPT.value, i, e.(present := false));
      FreeTmpPT();
    }

    /** The tables of a page that is mapped are all there. */
    lemma MappedThrough(v: VPage)
      requires Valid() && EntryAt(phys.ram, pml4, v).present
      ensures phys.ram[pml4][PML4Index(v)].present && Walk(phys.ram, pml4, PTPath(v)).Some?
      ensures Missing(phys.ram, pml4, PTPath(v)) == 0
    {
      SlotReached(phys.ram, pml4, PTPath(v), PTIndex(v));
      MissingPT(phys.ram, pml4, v);
    }

    /** Unmap n pages from v on; they must all be mapped. */
    method FreeMapping(v: VPage, n: nat)
      requires Valid() && Quiet() && v + n <= 0x1000000000
      requires forall w: VPage | v <= w < v + n :: EntryAt(phys.ram, pml4, w).present
      modifies phys`words, phys`ram, this`tmpPDP, this`tmpPD, this`tmpPT
      ensures Valid() && Quiet() && phys.words == old(phys.words) && Tables() == old(Tables())
      ensures forall w: VPage ::
        EntryAt(phys.ram, pml4, w) ==
          if v <= w < v + n then old(EntryAt(phys.ram, pml4, w)).(present := false) else old(EntryAt(phys.ram, pml4, w))
      ensures phys.ram[pml4] == old(phys.ram)[pml4] && |phys.ram| == old(|phys.ram|)
      ensures forall h | 0 <= h < |phys.ram| && h !in Tables() :: phys.ram[h] == old(phys.ram)[h]
    {
      hide PhysMem.Free, PhysMem.Bits, Forest, Owned, Slot, PML4Index, EntryAt;
      for i := 0 to n
        invariant Valid() && Quiet() && phys.words == old(phys.words) && Tables() == old(Tables())
        invariant forall w: VPage ::
          EntryAt(phys.ram, pml4, w) ==
            if v <= w < v + i then old(EntryAt(phys.ram, pml4, w)).(present := false)
            else old(EntryAt(phys.ram, pml4, w))
        invariant phys.ram[pml4] == old(phys.ram)[pml4] && |phys.ram| == old(|phys.ram|)
        invariant forall h | 0 <= h < |phys.ram| && h !in Tables() :: phys.ram[h] == old(phys.ram)[h]
      {
        assert old(EntryAt(phys.ram, pml4, v + i)).present;
        Unmap(v + i);
      }
    }

    /** The frames that n pages from v on are mapped to. */
    ghost function FramesOf(v: nat, n: nat): set<nat>
      reads phys`ram
      requires pml4 < |phys.ram| && v + n <= 0x1000000000
    {
      FramesIn(phys.ram, pml4, v, n)
    }

    /** Unmap n pages from v on and free their frames, which must be distinct and in use. */
    method FreeMappingAndPhy(v: VPage, n: nat)
      requires Valid() && Quiet() && v + n <= 0x1000000000
      requires forall w: VPage | v <= w < v + n ::
        && EntryAt(phys.ram, pml4, w).present
        && phys.Managed(EntryAt(phys.ram, pml4, w).frame)
      requires forall w: VPage, u: VPage | v <= w < u < v + n ::
        EntryAt(phys.ram, pml4, w).frame != EntryAt(phys.ram, pml4, u).frame
      requires FramesOf(v, n) !! Tables() + phys.Free()
      modifies phys`words, phys`ram, this`tmpPDP, this`tmpPD, this`tmpPT
      ensures Valid() && Quiet() && phys.Free() == old(phys.Free() + FramesOf(v, n)) && Tables() == old(Tables())
      ensures forall w: VPage ::
        EntryAt(phys.ram, pml4, w) ==
          if v <= w < v + n then old(EntryAt(phys.ram, pml4, w)).(present := false) else old(EntryAt(phys.ram, pml4, w))
      ensures phys.ram[pml4] == old(phys.ram)[pml4] && |phys.ram| == old(|phys.ram|)
      ensures forall h | 0 <= h < |phys.ram| && h !in Tables() :: phys.ram[h] == old(phys.ram)[h]
    {
      hide PhysMem.IsFree, Forest, Owned, Slot, EntryAt;
      for i := 0 to n
        invariant Valid() && Quiet() && phys.ram == old(phys.ram)
        invariant phys.Free() == old(phys.Free()) + FramesOf(v, i)
      {
        var phy := Getphyu(v + i);
        assert phy in FramesOf(v, n) && phy !in FramesOf(v, i);
        phys.FreeFrame(phy);
        FramesGrow(phys.ram, phys.ram, pml4, v, i);
      }
      FreeMapping(v, n);
    }

    // ---------------------------------------------------------------- user spaces

    /** The page tables of the kernel's half, and those of a user space. */
    ghost function KernelTables(): set<nat>
      reads phys`ram
      requires pml4 < |phys.ram|
    {
      {pml4} + OwnedIn(phys.ram, pml4, 3, 1, 512)
    }

    ghost function UserTables(pdp: nat): set<nat>
      reads phys`ram
      requires pdp < |phys.ram|
    {
      {pdp} + Owned(phys.ram, pdp, 2)
    }

    /** pdp is a user space that can be made the active one. */
    ghost predicate CanSwitch(pdp: nat)
      reads phys`words, phys`ram
      requires Valid()
    {
      && pdp < |phys.ram| && Forest(phys.ram, pdp, 2)
      && UserTables(pdp) !! KernelTables() + phys.Free()
    }

    /** Make pdp the active user space: the lower half is translated by it from now on, the upper
        half as before. */
    method SwitchUser(pdp: nat)
      requires Valid() && phys.ram[pml4][0].present && CanSwitch(pdp)
      modifies phys`ram
      ensures Valid() && Tables() == old(KernelTables() + UserTables(pdp)) && CanSwitch(pdp)
      ensures KernelTables() == old(KernelTables()) && UserTables(pdp) == old(UserTables(pdp))
      ensures phys.ram[pml4][0] == Activated(old(phys.ram[pml4][0]), pdp)
      ensures |phys.ram| == old(|phys.ram|)
      ensures forall h | 0 <= h < |phys.ram| && h != pml4 :: phys.ram[h] == old(phys.ram)[h]
      ensures forall v: VPage ::
        EntryAt(phys.ram, pml4, v)
        == old(if PML4Index(v) == 0 then Slot(phys.ram, pdp, Next(PagePath(v))) else EntryAt(phys.ram, pml4, v))
    {
      hide PhysMem.Free, PhysMem.Bits, Forest, Owned, OwnedIn, Slot, PML4Index, PTPath;
      ghost var m := phys.ram;
      ghost var n := Wired(m, pml4, 0, pdp);
      SwitchTree(m, n, pml4, pdp);
      SwitchedKernel(m, n, pml4, pdp);
      forall v: VPage
        ensures EntryAt(n, pml4, v) == if PML4Index(v) == 0 then Slot(m, pdp, Next(PagePath(v)))
          else EntryAt(m, pml4, v)
      {
        SwitchSlots(m, n, pml4, pdp, PagePath(v));
      }
      if pdp == phys.ram[pml4][0].frame {
        WiredSame(m, pml4, 0);
        return;
      }
      Activate(pml4, 0, pdp);
    }
  }
}
