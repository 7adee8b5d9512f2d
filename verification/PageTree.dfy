/** Trees of page tables (section 5.3 of the AMD64 Architecture Programmer's Manual, volume 2).
    A table at depth d leads to tables at depth d - 1; a frame at depth 0 has nothing below it, be
    it a page of data or a page table whose pages are not counted.  No entry is a 2M one. */
module PageTree {
  import opened Options
  import opened PhysMemory

  type Mem = seq<Page>

  type Index = i: nat | i < 512

  // ------------------------------------------------------------ what a table owns

  /** The frames of the subtree in slot i. */
  ghost function Sub(mem: Mem, f: nat, d: nat, i: Index): set<nat>
    requires 0 < d && f < |mem|
    decreases d, 0
  {
    var e := mem[f][i];
    if e.present && e.frame < |mem| then {e.frame} + Owned(mem, e.frame, d - 1) else {}
  }

  /** The frames of the subtrees in slots lo up to hi. */
  ghost function OwnedIn(mem: Mem, f: nat, d: nat, lo: nat, hi: nat): set<nat>
    requires 0 < d && f < |mem| && hi <= 512
    decreases d, 1
  {
    set i: Index, g: nat | lo <= i < hi && g in Sub(mem, f, d, i) :: g
  }

  ghost function Owned(mem: Mem, f: nat, d: nat): set<nat>
    requires f < |mem|
    decreases d, 2
  {
    if d == 0 then {} else OwnedIn(mem, f, d, 0, 512)
  }

  /** A present slot leads to a frame of the memory, and to a tree. */
  ghost predicate SlotOk(mem: Mem, f: nat, d: nat, i: Index)
    requires 0 < d && f < |mem|
    decreases d, 0
  {
    mem[f][i].present ==> mem[f][i].frame < |mem| && Forest(mem, mem[f][i].frame, d - 1)
  }

  /** Slots lo up to hi hold trees that share no frame. */
  ghost predicate ForestIn(mem: Mem, f: nat, d: nat, lo: nat, hi: nat)
    requires 0 < d && f < |mem| && hi <= 512
    decreases d, 1
  {
    && (forall i: Index | lo <= i < hi :: SlotOk(mem, f, d, i))
    && (forall i: Index, j: Index | lo <= i < j < hi :: Sub(mem, f, d, i) !! Sub(mem, f, d, j))
  }

  /** Every frame below f has one parent. */
  ghost predicate Forest(mem: Mem, f: nat, d: nat)
    requires f < |mem|
    decreases d, 2
  {
    d > 0 ==> f !in OwnedIn(mem, f, d, 0, 512) && ForestIn(mem, f, d, 0, 512)
  }

  lemma OwnedStep(mem: Mem, f: nat, d: nat, lo: nat, i: Index)
    requires 0 < d && f < |mem| && lo <= i
    ensures OwnedIn(mem, f, d, lo, i + 1) == OwnedIn(mem, f, d, lo, i) + Sub(mem, f, d, i)
    ensures OwnedIn(mem, f, d, lo, lo) == {}
    ensures ForestIn(mem, f, d, lo, i + 1) ==> OwnedIn(mem, f, d, lo, i) !! Sub(mem, f, d, i)
  {
    SubInside(mem, f, d, i);
  }

  lemma {:induction false} SubInside(mem: Mem, f: nat, d: nat, i: Index)
    requires 0 < d && f < |mem|
    ensures forall g | g in Sub(mem, f, d, i) :: g < |mem|
    decreases d
  {
    var e := mem[f][i];
    if d > 1 && e.present && e.frame < |mem| {
      var c, k := e.frame, d - 1;
      forall j: Index, g | g in Sub(mem, c, k, j)
        ensures g < |mem|
      {
        SubInside(mem, c, k, j);
      }
      assert forall g | g in OwnedIn(mem, c, k, 0, 512) :: g < |mem|;
      assert Sub(mem, f, d, i) == {c} + OwnedIn(mem, c, k, 0, 512);
    }
  }

  // --------------------------------------------------------------- translating

  type Path = p: seq<nat> | forall i | 0 <= i < |p| :: p[i] < 512 witness []

  function Next(p: Path): Path
    requires p != []
  {
    p[1..]
  }

  /** The table a walk along p ends at. */
  function Walk(mem: Mem, f: nat, p: Path): (r: Option<nat>)
    requires f < |mem|
    ensures r.Some? ==> r.value < |mem|
    decreases |p|
  {
    if p == [] then Some(f)
    else
      var e := mem[f][p[0]];
      if e.present && e.frame < |mem| then Walk(mem, e.frame, Next(p)) else None
  }

  /** The entry at the end of p, as it is in its table; EMPTY when a table on the way is missing. */
  function Slot(mem: Mem, f: nat, p: Path): Entry
    requires f < |mem| && p != []
    decreases |p|
  {
    var e := mem[f][p[0]];
    if |p| == 1 then e
    else if e.present && e.frame < |mem| then Slot(mem, e.frame, Next(p))
    else EMPTY
  }

  /** What the walk along p translates to. */
  function Translate(mem: Mem, f: nat, p: Path): Option<Entry>
    requires f < |mem| && p != []
  {
    var e := Slot(mem, f, p);
    if e.present then Some(e) else None
  }

  // --------------------------------------------------------- what stays the same

  ghost predicate Agree(m: Mem, n: Mem, frames: set<nat>) {
    |m| == |n| && forall g | g in frames && g < |m| :: m[g] == n[g]
  }

  lemma {:induction false} SubUnchanged(m: Mem, n: Mem, f: nat, d: nat, i: Index)
    requires 0 < d && f < |m| && |m| == |n| && m[f][i] == n[f][i] && Agree(m, n, Sub(m, f, d, i))
    ensures Sub(n, f, d, i) == Sub(m, f, d, i)
    ensures SlotOk(n, f, d, i) <==> SlotOk(m, f, d, i)
    decreases d, 0
  {
    var e := m[f][i];
    if e.present && e.frame < |m| && d > 1 {
      Unchanged(m, n, e.frame, d - 1);
    }
  }

  lemma {:induction false} Unchanged(m: Mem, n: Mem, f: nat, d: nat)
    requires f < |m| && Agree(m, n, {f} + Owned(m, f, d))
    ensures Owned(n, f, d) == Owned(m, f, d)
    ensures Forest(n, f, d) <==> Forest(m, f, d)
    decreases d, 2
  {
    if d > 0 {
      RangeUnchanged(m, n, f, d, 0, 512);
    }
  }

  lemma {:induction false} RangeUnchanged(m: Mem, n: Mem, f: nat, d: nat, lo: nat, hi: nat)
    requires 0 < d && f < |m| && |m| == |n| && hi <= 512
    requires forall i: Index | lo <= i < hi :: m[f][i] == n[f][i]
    requires Agree(m, n, OwnedIn(m, f, d, lo, hi))
    ensures OwnedIn(n, f, d, lo, hi) == OwnedIn(m, f, d, lo, hi)
    ensures ForestIn(n, f, d, lo, hi) <==> ForestIn(m, f, d, lo, hi)
    decreases d, 1
  {
    forall i: Index | lo <= i < hi
      ensures Sub(n, f, d, i) == Sub(m, f, d, i)
      ensures SlotOk(n, f, d, i) <==> SlotOk(m, f, d, i)
    {
      SubInside(m, f, d, i);
      SubUnchanged(m, n, f, d, i);
    }
  }

  lemma {:induction false} SlotUnchanged(m: Mem, n: Mem, f: nat, d: nat, p: Path)
    requires f < |m| && |p| == d + 1 && Agree(m, n, {f} + Owned(m, f, d))
    ensures Slot(n, f, p) == Slot(m, f, p)
    decreases d
  {
    var e := m[f][p[0]];
    if d > 0 && e.present && e.frame < |m| {
      assert Sub(m, f, d, p[0]) <= Owned(m, f, d) by { SubInside(m, f, d, p[0]); }
      SlotUnchanged(m, n, e.frame, d - 1, Next(p));
    }
  }

  // --------------------------------------------------------- one slot is changed

  /** When only slot k changes, and its subtree gains g (or nothing, when g was there), so does the
      whole range. */
  lemma {:induction false} OneSlot(m: Mem, n: Mem, f: nat, d: nat, k: Index, g: nat, lo: nat, hi: nat)
    requires 0 < d && f < |m| && |m| == |n| && lo <= k < hi <= 512
    requires ForestIn(m, f, d, lo, hi) && g !in OwnedIn(m, f, d, lo, hi) - Sub(m, f, d, k)
    requires forall i: Index | lo <= i < hi && i != k :: m[f][i] == n[f][i] && Agree(m, n, Sub(m, f, d, i))
    requires SlotOk(n, f, d, k) && Sub(n, f, d, k) == Sub(m, f, d, k) + {g}
    ensures ForestIn(n, f, d, lo, hi) && OwnedIn(n, f, d, lo, hi) == OwnedIn(m, f, d, lo, hi) + {g}
  {
    forall i: Index | lo <= i < hi && i != k
      ensures SlotOk(n, f, d, i) && Sub(n, f, d, i) == Sub(m, f, d, i) && g !in Sub(m, f, d, i)
    {
      SubUnchanged(m, n, f, d, i);
      assert Sub(m, f, d, i) !! Sub(m, f, d, k);
    }
  }

  ghost predicate Blank(p: Page) {
    forall i: Index :: !p[i].present
  }

  lemma BlankOwnsNothing(mem: Mem, f: nat, d: nat)
    requires f < |mem| && (d > 0 ==> Blank(mem[f]))
    ensures Owned(mem, f, d) == {} && Forest(mem, f, d)
  {
    if d > 0 {
      assert forall i: Index :: Sub(mem, f, d, i) == {} && SlotOk(mem, f, d, i);
      assert OwnedIn(mem, f, d, 0, 512) == {};
    }
  }

  lemma SlotsApart(mem: Mem, f: nat, d: nat, i: Index, j: Index)
    requires 0 < d && f < |mem| && Forest(mem, f, d) && i != j
    ensures Sub(mem, f, d, i) !! Sub(mem, f, d, j)
    ensures Sub(mem, f, d, i) <= Owned(mem, f, d) && f !in Sub(mem, f, d, i)
  {
  }

  lemma {:induction false} WalkInside(mem: Mem, f: nat, d: nat, q: Path)
    requires f < |mem| && |q| <= d && Walk(mem, f, q).Some?
    ensures Walk(mem, f, q).value in {f} + Owned(mem, f, d)
    decreases |q|
  {
    if q != [] {
      WalkInside(mem, mem[f][q[0]].frame, d - 1, Next(q));
      assert Walk(mem, f, q).value in Sub(mem, f, d, q[0]);
    }
  }

  lemma WalkBelow(mem: Mem, f: nat, d: nat, q: Path)
    requires f < |mem| && 0 < |q| <= d && Walk(mem, f, q).Some? && Forest(mem, f, d)
    ensures Walk(mem, f, q).value in Owned(mem, f, d) && Walk(mem, f, q).value != f
  {
    WalkInside(mem, mem[f][q[0]].frame, d - 1, Next(q));
    assert Walk(mem, f, q).value in Sub(mem, f, d, q[0]);
  }

  lemma {:induction false} WalkForest(mem: Mem, f: nat, d: nat, q: Path)
    requires f < |mem| && |q| <= d && Walk(mem, f, q).Some? && Forest(mem, f, d)
    ensures Forest(mem, Walk(mem, f, q).value, d - |q|)
    decreases |q|
  {
    if q != [] {
      assert SlotOk(mem, f, d, q[0]);
      WalkForest(mem, mem[f][q[0]].frame, d - 1, Next(q));
    }
  }

  /** n is m with the absent slot i of table t pointing to frame g, which may be another page. */
  ghost predicate Planted(m: Mem, n: Mem, t: nat, i: Index, g: nat) {
    && t < |m| == |n| && t != g
    && !m[t][i].present && n[t][i].present && n[t][i].frame == g
    && (forall j: Index | j != i :: n[t][j] == m[t][j])
    && (forall h | 0 <= h < |m| && h != t && h != g :: n[h] == m[h])
  }

  /** Putting a blank table g in an absent slot of the tree adds g to what is owned and changes no
      translation. */
  lemma {:induction false} Plant(m: Mem, n: Mem, f: nat, d: nat, q: Path, i: Index, g: nat)
    requires f < |m| == |n| && Forest(m, f, d) && |q| < d && Walk(m, f, q).Some?
    requires g < |m| && g !in {f} + Owned(m, f, d) && (|q| + 1 < d ==> Blank(n[g]))
    requires Planted(m, n, Walk(m, f, q).value, i, g)
    ensures Forest(n, f, d) && Owned(n, f, d) == Owned(m, f, d) + {g}
    decreases |q|
  {
    var t := Walk(m, f, q).value;
    if q == [] {
      BlankOwnsNothing(n, g, d - 1);
      assert Sub(n, f, d, i) == {g};
      OneSlot(m, n, f, d, i, g, 0, 512);
    } else {
      var c := m[f][q[0]].frame;
      assert SlotOk(m, f, d, q[0]);
      assert c in Sub(m, f, d, q[0]) && Sub(m, f, d, q[0]) <= Owned(m, f, d);
      WalkInside(m, c, d - 1, Next(q));
      SlotsApart(m, f, d, q[0], if q[0] == 0 then 1 else 0);
      Plant(m, n, c, d - 1, Next(q), i, g);
      forall j: Index | j != q[0]
        ensures Agree(m, n, Sub(m, f, d, j))
      {
        SlotsApart(m, f, d, j, q[0]);
      }
      OneSlot(m, n, f, d, q[0], g, 0, 512);
    }
  }

  /** ... and when g is empty, no slot reads differently. */
  lemma {:induction false} PlantSlots(m: Mem, n: Mem, f: nat, d: nat, q: Path, i: Index, g: nat, r: Path)
    requires f < |m| == |n| && Forest(m, f, d) && |q| < d && Walk(m, f, q).Some? && |r| == d + 1
    requires g < |m| && g !in {f} + Owned(m, f, d) && n[g] == EmptyPage()
    requires Planted(m, n, Walk(m, f, q).value, i, g)
    ensures Slot(n, f, r) == Slot(m, f, r)
    decreases |q|
  {
    if q == [] {
      if r[0] != i && m[f][r[0]].present {
        SlotOnly(m, n, f, d, r);
      }
    } else {
      var c := m[f][q[0]].frame;
      assert SlotOk(m, f, d, q[0]);
      assert Sub(m, f, d, q[0]) <= Owned(m, f, d);
      WalkInside(m, c, d - 1, Next(q));
      if r[0] == q[0] {
        PlantSlots(m, n, c, d - 1, Next(q), i, g, Next(r));
      } else if m[f][r[0]].present {
        SlotsApart(m, f, d, r[0], q[0]);
        SlotOnly(m, n, f, d, r);
      }
    }
  }

  lemma SlotOnly(m: Mem, n: Mem, f: nat, d: nat, r: Path)
    requires f < |m| == |n| && 0 < d && |r| == d + 1 && m[f][r[0]] == n[f][r[0]] && m[f][r[0]].present
    requires SlotOk(m, f, d, r[0]) && Agree(m, n, Sub(m, f, d, r[0]))
    ensures Slot(n, f, r) == Slot(m, f, r)
  {
    SlotUnchanged(m, n, m[f][r[0]].frame, d - 1, Next(r));
  }

  /** Putting a frame in an absent slot of what slots lo and up of table f lead to adds it to them; only
      a frame at depth 0 may hold anything. */
  lemma RangePlant(m: Mem, n: Mem, f: nat, d: nat, lo: nat, q: Path, i: Index, g: nat)
    requires f < |m| == |n| && |q| < d && lo <= 512 && lo <= (if q == [] then i else q[0])
    requires ForestIn(m, f, d, lo, 512) && f !in OwnedIn(m, f, d, lo, 512) && Walk(m, f, q).Some?
    requires g < |m| && g != f && g !in OwnedIn(m, f, d, lo, 512) && (|q| + 1 < d ==> Blank(n[g]))
    requires Planted(m, n, Walk(m, f, q).value, i, g)
    ensures ForestIn(n, f, d, lo, 512) && OwnedIn(n, f, d, lo, 512) == OwnedIn(m, f, d, lo, 512) + {g}
    ensures Walk(m, f, q).value in {f} + OwnedIn(m, f, d, lo, 512)
    ensures forall j: Index | j != (if q == [] then i else q[0]) :: n[f][j] == m[f][j]
  {
    if q == [] {
      BlankOwnsNothing(n, g, d - 1);
      assert Sub(n, f, d, i) == {g} && Sub(m, f, d, i) == {};
      OneSlot(m, n, f, d, i, g, lo, 512);
    } else {
      var k: Index := q[0];
      RangeInside(m, f, d, lo, k);
      BelowPlant(m, n, f, d, q, i, g);
      forall j: Index | lo <= j < 512 && j != k
        ensures Agree(m, n, Sub(m, f, d, j))
      {
        RangeInside(m, f, d, lo, j);
        assert Sub(m, f, d, j) !! Sub(m, f, d, k);
      }
      hide Forest, Owned, Walk, Blank;
      OneSlot(m, n, f, d, k, g, lo, 512);
    }
  }

  lemma BelowPlant(m: Mem, n: Mem, f: nat, d: nat, q: Path, i: Index, g: nat)
    requires f < |m| == |n| && 0 < |q| < d && SlotOk(m, f, d, q[0]) && f !in Sub(m, f, d, q[0]) && Walk(m, f, q).Some?
    requires g < |m| && g != f && g !in Sub(m, f, d, q[0]) && (|q| + 1 < d ==> Blank(n[g]))
    requires Planted(m, n, Walk(m, f, q).value, i, g)
    ensures Walk(m, f, q).value in Sub(m, f, d, q[0]) && n[f] == m[f]
    ensures SlotOk(n, f, d, q[0]) && Sub(n, f, d, q[0]) == Sub(m, f, d, q[0]) + {g}
  {
    var c := m[f][q[0]].frame;
    WalkInside(m, c, d - 1, Next(q));
    Plant(m, n, c, d - 1, Next(q), i, g);
  }

  lemma RangeInside(m: Mem, f: nat, d: nat, lo: nat, i: Index)
    requires 0 < d && f < |m| && lo <= i
    ensures Sub(m, f, d, i) <= OwnedIn(m, f, d, lo, 512)
  {
  }

  /** n is m with another entry in slot i of table t. */
  ghost predicate Rewritten(m: Mem, n: Mem, t: nat, i: Index) {
    && t < |m| == |n|
    && (forall j: Index | j != i :: n[t][j] == m[t][j])
    && (forall h | 0 <= h < |m| && h != t :: n[h] == m[h])
  }

  /** Rewriting an entry of a table at depth 0 keeps the tree. */
  lemma {:induction false} WriteLeaf(m: Mem, n: Mem, f: nat, d: nat, q: Path, i: Index)
    requires f < |m| == |n| && Forest(m, f, d) && |q| == d && Walk(m, f, q).Some?
    requires Rewritten(m, n, Walk(m, f, q).value, i)
    ensures Forest(n, f, d) && Owned(n, f, d) == Owned(m, f, d)
    decreases |q|
  {
    if q != [] {
      var c := m[f][q[0]].frame;
      assert SlotOk(m, f, d, q[0]);
      assert c in Sub(m, f, d, q[0]) && Sub(m, f, d, q[0]) <= Owned(m, f, d);
      WalkInside(m, c, d - 1, Next(q));
      SlotsApart(m, f, d, q[0], if q[0] == 0 then 1 else 0);
      WriteLeaf(m, n, c, d - 1, Next(q), i);
      forall j: Index | j != q[0]
        ensures Agree(m, n, Sub(m, f, d, j))
      {
        SlotsApart(m, f, d, j, q[0]);
      }
      OneSlot(m, n, f, d, q[0], c, 0, 512);
      assert OwnedIn(m, f, d, 0, 512) + {c} == OwnedIn(m, f, d, 0, 512);
    }
  }

  /** ... and changes what is read at the end of path q + [i] alone. */
  lemma {:induction false} WriteLeafSlot(m: Mem, n: Mem, f: nat, d: nat, q: Path, i: Index, r: Path)
    requires f < |m| == |n| && Forest(m, f, d) && |q| == d && Walk(m, f, q).Some? && |r| == d + 1
    requires Rewritten(m, n, Walk(m, f, q).value, i)
    ensures Slot(n, f, r) == if r == q + [i] then n[Walk(m, f, q).value][i] else Slot(m, f, r)
    decreases |q|
  {
    if q == [] {
      assert r == [r[0]];
    } else {
      var c := m[f][q[0]].frame;
      assert SlotOk(m, f, d, q[0]);
      assert c in Sub(m, f, d, q[0]) && Sub(m, f, d, q[0]) <= Owned(m, f, d);
      WalkInside(m, c, d - 1, Next(q));
      assert q + [i] == [q[0]] + (Next(q) + [i]) && r == [r[0]] + Next(r);
      if r[0] == q[0] {
        WriteLeafSlot(m, n, c, d - 1, Next(q), i, Next(r));
      } else if m[f][r[0]].present {
        SlotsApart(m, f, d, r[0], q[0]);
        assert SlotOk(m, f, d, r[0]);
        SlotOnly(m, n, f, d, r);
      }
    }
  }

  // ------------------------------------------------------------- walks stay the same

  lemma {:induction false} WalkUnchanged(m: Mem, n: Mem, f: nat, d: nat, r: Path)
    requires f < |m| && |r| <= d && Agree(m, n, {f} + Owned(m, f, d))
    ensures Walk(n, f, r) == Walk(m, f, r)
    decreases |r|
  {
    if r != [] && m[f][r[0]].present && m[f][r[0]].frame < |m| {
      assert Sub(m, f, d, r[0]) <= Owned(m, f, d) by { SubInside(m, f, d, r[0]); }
      WalkUnchanged(m, n, m[f][r[0]].frame, d - 1, Next(r));
    }
  }

  /** A new table turns no walk that found one. */
  lemma {:induction false} WalkPlanted(m: Mem, n: Mem, f: nat, d: nat, r: Path, t: nat, i: Index, g: nat)
    requires f < |m| && |r| <= d && Walk(m, f, r).Some?
    requires Planted(m, n, t, i, g) && g !in {f} + Owned(m, f, d)
    ensures Walk(n, f, r) == Walk(m, f, r)
    decreases |r|
  {
    if r != [] {
      assert Sub(m, f, d, r[0]) <= Owned(m, f, d) by { SubInside(m, f, d, r[0]); }
      WalkPlanted(m, n, m[f][r[0]].frame, d - 1, Next(r), t, i, g);
    }
  }

  /** Nor does rewriting an entry of a table at depth 0. */
  lemma {:induction false} WalkRewritten(m: Mem, n: Mem, f: nat, d: nat, q: Path, i: Index, r: Path)
    requires f < |m| == |n| && Forest(m, f, d) && |q| == d && Walk(m, f, q).Some? && |r| <= d
    requires Rewritten(m, n, Walk(m, f, q).value, i)
    ensures Walk(n, f, r) == Walk(m, f, r)
    decreases |q|
  {
    if r != [] {
      WalkBelow(m, f, d, q);
      var e := m[f][r[0]];
      if e.present && e.frame < |m| {
        assert SlotOk(m, f, d, q[0]) && SlotOk(m, f, d, r[0]);
        if r[0] == q[0] {
          WalkRewritten(m, n, e.frame, d - 1, Next(q), i, Next(r));
        } else {
          WalkInside(m, m[f][q[0]].frame, d - 1, Next(q));
          SlotsApart(m, f, d, r[0], q[0]);
          WalkUnchanged(m, n, e.frame, d - 1, Next(r));
        }
      }
    }
  }

  // ----------------------------------------------------------------------- copies

  /** Slot i of g is like slot i of f: absent in both, or present with the same flags and leading to
      trees that are the same but for the numbers of their frames. */
  ghost predicate SameSlot(m: Mem, f: nat, n: Mem, g: nat, d: nat, i: Index)
    requires 0 < d && f < |m| && g < |n|
    decreases d, 0
  {
    var a, b := m[f][i], n[g][i];
    && a.present == b.present
    && (a.present ==> a.flags == b.flags && a.frame < |m| && b.frame < |n| && Same(m, a.frame, n, b.frame, d - 1))
  }

  ghost predicate SameIn(m: Mem, f: nat, n: Mem, g: nat, d: nat, lo: nat, hi: nat)
    requires 0 < d && f < |m| && g < |n| && hi <= 512
    decreases d, 1
  {
    forall i: Index | lo <= i < hi :: SameSlot(m, f, n, g, d, i)
  }

  ghost predicate Same(m: Mem, f: nat, n: Mem, g: nat, d: nat)
    requires f < |m| && g < |n|
    decreases d, 2
  {
    if d == 0 then m[f] == n[g] else SameIn(m, f, n, g, d, 0, 512)
  }

  lemma {:induction false} SameUnchanged(m: Mem, f: nat, n: Mem, g: nat, m': Mem, n': Mem, d: nat, lo: nat, hi: nat)
    requires 0 < d && f < |m| == |m'| && g < |n| == |n'| && hi <= 512 && SameIn(m, f, n, g, d, lo, hi)
    requires forall i: Index | lo <= i < hi :: m'[f][i] == m[f][i] && n'[g][i] == n[g][i]
    requires Agree(m, m', OwnedIn(m, f, d, lo, hi)) && Agree(n, n', OwnedIn(n, g, d, lo, hi))
    ensures SameIn(m', f, n', g, d, lo, hi)
    decreases d
  {
    forall i: Index | lo <= i < hi
      ensures SameSlot(m', f, n', g, d, i)
    {
      assert SameSlot(m, f, n, g, d, i);
      assert Sub(m, f, d, i) <= OwnedIn(m, f, d, lo, hi) && Sub(n, g, d, i) <= OwnedIn(n, g, d, lo, hi) by {
        SubInside(m, f, d, i);
      }
      var a, b := m[f][i], n[g][i];
      if a.present {
        assert Same(m, a.frame, n, b.frame, d - 1);
        assert a.frame in Sub(m, f, d, i) && b.frame in Sub(n, g, d, i);
      }
      if d > 1 && a.present {
        assert Owned(m, a.frame, d - 1) <= Sub(m, f, d, i) && Owned(n, b.frame, d - 1) <= Sub(n, g, d, i);
        SameUnchanged(m, a.frame, n, b.frame, m', n', d - 1, 0, 512);
      }
    }
  }

  /** A copy translates the same pages, with the same flags, to pages with the same contents. */
  lemma {:induction false} SameTranslates(m: Mem, f: nat, n: Mem, g: nat, d: nat, lo: nat, p: Path)
    requires 0 < d == |p| && f < |m| && g < |n| && SameIn(m, f, n, g, d, lo, 512) && lo <= p[0]
    ensures var a, b := Translate(m, f, p), Translate(n, g, p);
      || (a.None? && b.None?)
      || (a.Some? && b.Some? && a.value.flags == b.value.flags && a.value.frame < |m| && b.value.frame < |n|
          && m[a.value.frame] == n[b.value.frame])
    decreases d
  {
    assert SameSlot(m, f, n, g, d, p[0]);
    if d > 1 && m[f][p[0]].present {
      assert Same(m, m[f][p[0]].frame, n, n[g][p[0]].frame, d - 1);
      SameTranslates(m, m[f][p[0]].frame, n, n[g][p[0]].frame, d - 1, 0, Next(p));
    }
  }

  lemma Sizes<T>(a: set<T>, b: set<T>)
    requires a !! b
    ensures |a + b| == |a| + |b|
  {
  }

  lemma {:induction false} Subset<T>(a: set<T>, b: set<T>)
    requires a <= b
    ensures |a| <= |b|
  {
    assert b == a + (b - a);
    Sizes(a, b - a);
  }
}
