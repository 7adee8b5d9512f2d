/** User address spaces as trees of frames (src/Memory/UserMemory.h): a PDP whose slot 0 leads to
    the first PD, whose slot 0 in turn leads to the identity table that all spaces share. */
module UserSpace {
  import opened Options
  import opened PhysMemory
  import opened PageTree

  /** The first PD of the space with PDP p. */
  function FirstPD(mem: Mem, p: nat): nat
    requires p < |mem|
  {
    mem[p][0].frame
  }

  /** The frames that were added to the space: all but the PDP and the first PD. */
  ghost function Contents(mem: Mem, p: nat): set<nat>
    requires p < |mem| && FirstPD(mem, p) < |mem|
  {
    OwnedIn(mem, FirstPD(mem, p), 2, 1, 512) + OwnedIn(mem, p, 3, 1, 512)
  }

  /** The frames the space owns; the identity table is not among them. */
  ghost function SpaceFrames(mem: Mem, p: nat): set<nat>
    requires p < |mem| && FirstPD(mem, p) < |mem|
  {
    {p, FirstPD(mem, p)} + Contents(mem, p)
  }

  ghost predicate Space(mem: Mem, p: nat) {
    && p < |mem| && FirstPD(mem, p) < |mem| && FirstPD(mem, p) != p
    && mem[p][0].present
    && ForestIn(mem, p, 3, 1, 512) && ForestIn(mem, FirstPD(mem, p), 2, 1, 512)
    && OwnedIn(mem, FirstPD(mem, p), 2, 1, 512) !! OwnedIn(mem, p, 3, 1, 512)
    && p !in Contents(mem, p) && FirstPD(mem, p) !in Contents(mem, p)
  }

  lemma SpaceUnchanged(m: Mem, n: Mem, p: nat)
    requires Space(m, p) && Agree(m, n, SpaceFrames(m, p))
    ensures Space(n, p) && FirstPD(n, p) == FirstPD(m, p) && Contents(n, p) == Contents(m, p)
  {
    RangeUnchanged(m, n, p, 3, 1, 512);
    RangeUnchanged(m, n, FirstPD(m, p), 2, 1, 512);
  }

  /** The identity table: the one in slot 0 of the default space's first PD. */
  function Identity(mem: Mem, defaultPDP: nat): nat
    requires defaultPDP < |mem| && FirstPD(mem, defaultPDP) < |mem|
  {
    mem[FirstPD(mem, defaultPDP)][0].frame
  }

  ghost predicate IdentityReady(mem: Mem, defaultPDP: nat, free: set<nat>) {
    && defaultPDP < |mem| && FirstPD(mem, defaultPDP) < |mem|
    && defaultPDP !in free && FirstPD(mem, defaultPDP) !in free
  }

  // ------------------------------------------------------------------- translation

  /** A user page: the bits of an address below 512G above the offset in the page. */
  type UPage = v: nat | v < 0x8000000

  function UserPath(v: UPage): (p: Path)
    ensures |p| == 3
  {
    [v / 0x40000, v / 0x200 % 512, v % 512]
  }

  /** What user page v is mapped to. */
  function UserMapping(mem: Mem, p: nat, v: UPage): Option<Entry>
    requires p < |mem|
  {
    Translate(mem, p, UserPath(v))
  }

  /** The page's three indices lead to its mapping. */
  lemma UserMappingByIndices(m: Mem, p: nat, v: UPage)
    requires p < |m|
    ensures var a, b, c := v / 0x40000, v / 0x200 % 512, v % 512;
      UserMapping(m, p, v) ==
        if m[p][a].present && m[p][a].frame < |m| && m[m[p][a].frame][b].present && m[m[p][a].frame][b].frame < |m|
           && m[m[m[p][a].frame][b].frame][c].present
        then Some(m[m[m[p][a].frame][b].frame][c]) else None
  {
    var q := UserPath(v);
    assert Next(q) == [q[1], q[2]] && Next(Next(q)) == [q[2]];
    if m[p][q[0]].present && m[p][q[0]].frame < |m| {
      var pd := m[p][q[0]].frame;
      assert Slot(m, p, q) == Slot(m, pd, Next(q));
      if m[pd][q[1]].present && m[pd][q[1]].frame < |m| {
        assert Slot(m, pd, Next(q)) == Slot(m, m[pd][q[1]].frame, Next(Next(q)));
      }
    }
  }

  /** Addresses from 2M up do not go through the identity table. */
  lemma AboveIdentity(v: UPage)
    requires v >= 512
    ensures UserPath(v)[0] >= 1 || UserPath(v)[1] >= 1
  {
  }

  /** What a page from 2M up is mapped to belongs to the space, and so do the tables it is found by. */
  lemma MappedIsOwned(m: Mem, p: nat, v: UPage)
    requires Space(m, p) && v >= 512 && UserMapping(m, p, v).Some?
    ensures UserMapping(m, p, v).value.frame in Contents(m, p)
    ensures var pd := m[p][v / 0x40000].frame;
      pd < |m| && pd in SpaceFrames(m, p) && m[pd][v / 0x200 % 512].frame in Contents(m, p)
  {
    UserMappingByIndices(m, p, v);
    AboveIdentity(v);
    var a, b, c := v / 0x40000, v / 0x200 % 512, v % 512;
    var pd := m[p][a].frame;
    assert a > 0 ==> SlotOk(m, p, 3, a);
    assert SlotOk(m, pd, 2, b);
    assert SlotOk(m, m[pd][b].frame, 1, c);
    TableHolds(m, pd, b, c);
    if a > 0 {
      RangeInside(m, p, 3, 1, a);
      assert Sub(m, p, 3, a) == {pd} + Owned(m, pd, 2);
      RangeInside(m, pd, 2, 0, b);
    } else {
      RangeInside(m, pd, 2, 1, b);
    }
  }

  lemma TableHolds(m: Mem, pd: nat, b: Index, c: Index)
    requires pd < |m| && m[pd][b].present && m[pd][b].frame < |m|
    requires m[m[pd][b].frame][c].present && m[m[pd][b].frame][c].frame < |m|
    ensures {m[pd][b].frame, m[m[pd][b].frame][c].frame} <= Sub(m, pd, 2, b)
  {
    assert m[m[pd][b].frame][c].frame in Sub(m, m[pd][b].frame, 1, c);
  }

  // ----------------------------------------------------------------------- mapping

  /** A frame put in an absent slot of the space, not through the identity table, is part of it. */
  lemma PlantInSpace(m: Mem, n: Mem, p: nat, q: Path, i: Index, g: nat)
    requires Space(m, p) && |n| == |m| && |q| < 3 && Walk(m, p, q).Some?
    requires (if q == [] then i else q[0]) >= 1 || (q != [] && (if |q| == 1 then i else q[1]) >= 1)
    requires g < |m| && g !in SpaceFrames(m, p) && (|q| < 2 ==> Blank(n[g]))
    requires Planted(m, n, Walk(m, p, q).value, i, g)
    ensures Space(n, p) && FirstPD(n, p) == FirstPD(m, p) && Contents(n, p) == Contents(m, p) + {g}
    ensures n[FirstPD(n, p)][0] == m[FirstPD(m, p)][0] && Walk(m, p, q).value in SpaceFrames(m, p)
  {
    var z := FirstPD(m, p);
    if (if q == [] then i else q[0]) >= 1 {
      RangePlant(m, n, p, 3, 1, q, i, g);
      RangeUnchanged(m, n, z, 2, 1, 512);
    } else {
      assert Walk(m, p, q) == Walk(m, z, Next(q));
      RangePlant(m, n, z, 2, 1, Next(q), i, g);
      RangeUnchanged(m, n, p, 3, 1, 512);
    }
  }

  // ---------------------------------------------------------------------- teardown

  /** A table with every slot but the first marked absent. */
  function Swept(p: Page): (q: Page)
    ensures q[0] == p[0] && forall i: Index | i > 0 :: q[i] == p[i].(present := false)
  {
    seq(512, i requires 0 <= i < 512 => if i == 0 then p[0] else p[i].(present := false))
  }

  /** The memory after the contents of the space were dropped. */
  function Cleared(mem: Mem, p: nat): Mem
    requires p < |mem| && FirstPD(mem, p) < |mem|
  {
    mem[FirstPD(mem, p) := Swept(mem[FirstPD(mem, p)])][p := Swept(mem[p])]
  }

  lemma SweptOwnsNothing(mem: Mem, f: nat, d: nat)
    requires 0 < d && f < |mem| && forall i: Index | i > 0 :: !mem[f][i].present
    ensures OwnedIn(mem, f, d, 1, 512) == {} && ForestIn(mem, f, d, 1, 512)
  {
    assert forall i: Index | i > 0 :: Sub(mem, f, d, i) == {} && SlotOk(mem, f, d, i);
  }

  /** An emptied space is one that holds nothing, and maps nothing from 2M up. */
  lemma ClearedSpace(m: Mem, p: nat, v: UPage)
    requires Space(m, p)
    ensures var n := Cleared(m, p);
      && Space(n, p) && FirstPD(n, p) == FirstPD(m, p) && Contents(n, p) == {}
      && n[FirstPD(m, p)][0] == m[FirstPD(m, p)][0]
      && (v >= 512 ==> UserMapping(n, p, v).None?)
  {
    var n := Cleared(m, p);
    SweptOwnsNothing(n, p, 3);
    SweptOwnsNothing(n, FirstPD(m, p), 2);
    if v >= 512 {
      AboveIdentity(v);
      var q := UserPath(v);
      if q[0] == 0 {
        assert !n[FirstPD(n, p)][q[1]].present;
        assert Slot(n, FirstPD(n, p), Next(q)) == EMPTY by { assert Next(q)[0] == q[1]; }
      }
    }
  }

  /** Slot i of a table on the way through the slots of a tree that is being freed: the code frees
      what is below it, then the frame it leads to. */
  lemma SlotToFree(m: Mem, n: Mem, f: nat, d: nat, lo: nat, i: Index, free: set<nat>)
    requires 0 < d && f < |m| == |n| && lo <= i
    requires ForestIn(m, f, d, lo, 512) && f !in OwnedIn(m, f, d, lo, 512) && OwnedIn(m, f, d, lo, 512) !! free
    requires n[f][i] == m[f][i] && forall h | 0 <= h < |m| && h != f :: n[h] == m[h]
    ensures OwnedIn(m, f, d, lo, i + 1) == OwnedIn(m, f, d, lo, i) + Sub(m, f, d, i)
    ensures !m[f][i].present ==> Sub(m, f, d, i) == {}
    ensures m[f][i].present ==>
      var c := m[f][i].frame;
      && c < |m| && c != f && Forest(n, c, d - 1) && Owned(n, c, d - 1) == Owned(m, c, d - 1)
      && Sub(m, f, d, i) == {c} + Owned(m, c, d - 1) && Sub(m, f, d, i) <= OwnedIn(m, f, d, lo, 512)
      && c !in Owned(m, c, d - 1)
      && {c} + Owned(m, c, d - 1) !! free + OwnedIn(m, f, d, lo, i)
  {
    OwnedStep(m, f, d, lo, i);
    assert ForestIn(m, f, d, lo, i + 1);
    assert Sub(m, f, d, i) <= OwnedIn(m, f, d, lo, 512);
    if m[f][i].present {
      assert SlotOk(m, f, d, i);
      Unchanged(m, n, m[f][i].frame, d - 1);
    }
  }

  // ----------------------------------------------------------------------- copying

  /** Slots lo up to hi of table g in n are a copy of those of table f in m; the frames `taken` hold
      the copy, and no page but g and these is different from m. */
  ghost predicate CopiedTo(m: Mem, f: nat, n: Mem, g: nat, d: nat, lo: nat, hi: nat, taken: set<nat>) {
    && 0 < d && f < |m| == |n| && g < |m| && lo <= hi <= 512
    && SameIn(m, f, n, g, d, lo, hi) && ForestIn(n, g, d, lo, hi)
    && OwnedIn(n, g, d, lo, hi) == taken && g !in taken
    && (forall h | 0 <= h < |m| && h != g && h !in taken :: n[h] == m[h])
    && (forall j: Index | j < lo :: n[g][j] == m[g][j])
  }

  lemma CopyNothing(m: Mem, f: nat, g: nat, d: nat, lo: nat)
    requires 0 < d && f < |m| && g < |m| && lo <= 512
    ensures CopiedTo(m, f, m, g, d, lo, lo, {})
  {
  }

  /** An absent slot is copied as an empty entry. */
  lemma CopyAbsent(m: Mem, f: nat, n: Mem, n': Mem, g: nat, d: nat, lo: nat, i: Index, taken: set<nat>)
    requires CopiedTo(m, f, n, g, d, lo, i, taken)
    requires !m[f][i].present && |n'| == |n| && n'[g] == n[g][i := EMPTY]
    requires forall h | 0 <= h < |n| && h != g :: n'[h] == n[h]
    ensures CopiedTo(m, f, n', g, d, lo, i + 1, taken)
  {
    RangeUnchanged(n, n', g, d, lo, i);
    SameUnchanged(m, f, n, g, m, n', d, lo, i);
    assert Sub(n', g, d, i) == {};
    OwnedStep(n', g, d, lo, i);
  }

  /** A present slot leads to a copy in frame c of what it led to. */
  lemma CopyPresent(m: Mem, f: nat, n: Mem, n': Mem, g: nat, d: nat, lo: nat, i: Index, taken: set<nat>,
                    c: nat, below: set<nat>)
    requires CopiedTo(m, f, n, g, d, lo, i, taken)
    requires |n'| == |n| && c < |n| && m[f][i].present && m[f][i].frame < |m|
    requires n'[g][i] == m[f][i].(frame := c) && forall j: Index | j != i :: n'[g][j] == n[g][j]
    requires Same(m, m[f][i].frame, n', c, d - 1) && Forest(n', c, d - 1) && Owned(n', c, d - 1) == below
    requires {c} + below !! taken + {g}
    requires forall h | 0 <= h < |n| && h != g && h != c && h !in below :: n'[h] == n[h]
    ensures CopiedTo(m, f, n', g, d, lo, i + 1, taken + {c} + below)
  {
    RangeUnchanged(n, n', g, d, lo, i);
    SameUnchanged(m, f, n, g, m, n', d, lo, i);
    assert Sub(n', g, d, i) == {c} + below;
    OwnedStep(n', g, d, lo, i);
    assert SameSlot(m, f, n', g, d, i);
  }

  /** What the copy of slot i needs, and that there is enough for it. */
  lemma CopyNeeds(m: Mem, f: nat, d: nat, lo: nat, i: Index)
    requires 0 < d && f < |m| && lo <= i && ForestIn(m, f, d, lo, 512)
    ensures OwnedIn(m, f, d, lo, i + 1) <= OwnedIn(m, f, d, lo, 512)
      && |OwnedIn(m, f, d, lo, i + 1)| <= |OwnedIn(m, f, d, lo, 512)|
    ensures !m[f][i].present ==> OwnedIn(m, f, d, lo, i + 1) == OwnedIn(m, f, d, lo, i)
    ensures m[f][i].present ==>
      var c := m[f][i].frame;
      && c < |m| && Forest(m, c, d - 1) && {c} + Owned(m, c, d - 1) <= OwnedIn(m, f, d, lo, 512)
      && |OwnedIn(m, f, d, lo, i + 1)| == |OwnedIn(m, f, d, lo, i)| + 1 + |Owned(m, c, d - 1)|
  {
    OwnedStep(m, f, d, lo, i);
    assert ForestIn(m, f, d, lo, i + 1);
    assert Sub(m, f, d, i) <= OwnedIn(m, f, d, lo, 512);
    hide OwnedIn, ForestIn, Owned;
    assert OwnedIn(m, f, d, lo, i + 1) <= OwnedIn(m, f, d, lo, 512) by { OwnedWithin(m, f, d, lo, i + 1); }
    Subset(OwnedIn(m, f, d, lo, i + 1), OwnedIn(m, f, d, lo, 512));
    if m[f][i].present {
      var c := m[f][i].frame;
      assert SlotOk(m, f, d, i) by { SlotIn(m, f, d, lo, i); }
      assert c !in Owned(m, c, d - 1) by { RootOutside(m, c, d - 1); }
      Sizes({c}, Owned(m, c, d - 1));
      Sizes(OwnedIn(m, f, d, lo, i), Sub(m, f, d, i));
    }
  }

  lemma OwnedWithin(m: Mem, f: nat, d: nat, lo: nat, hi: nat)
    requires 0 < d && f < |m| && hi <= 512
    ensures OwnedIn(m, f, d, lo, hi) <= OwnedIn(m, f, d, lo, 512)
  {
  }

  lemma SlotIn(m: Mem, f: nat, d: nat, lo: nat, i: Index)
    requires 0 < d && f < |m| && lo <= i && ForestIn(m, f, d, lo, 512)
    ensures SlotOk(m, f, d, i)
  {
  }

  lemma RootOutside(m: Mem, f: nat, d: nat)
    requires f < |m| && Forest(m, f, d)
    ensures f !in Owned(m, f, d)
  {
  }

  // ------------------------------------------------------------- copies of a space

  /** The spaces hold the same but for the numbers of the frames. */
  ghost predicate SpaceSame(m: Mem, src: nat, n: Mem, dest: nat) {
    && Space(m, src) && Space(n, dest)
    && SameIn(m, src, n, dest, 3, 1, 512) && SameIn(m, FirstPD(m, src), n, FirstPD(n, dest), 2, 1, 512)
  }

  /** Space dest of n is a copy of space src of m: the two are apart, and src is as it was. */
  ghost predicate IsCopy(m: Mem, src: nat, n: Mem, dest: nat) {
    && SpaceSame(m, src, n, dest) && Space(n, src)
    && SpaceFrames(n, dest) !! SpaceFrames(n, src)
    && Agree(m, n, SpaceFrames(m, src)) && SpaceFrames(n, src) == SpaceFrames(m, src)
  }

  lemma SpaceSameSince(m0: Mem, m: Mem, src: nat, n: Mem, dest: nat)
    requires Space(m0, src) && Agree(m0, m, SpaceFrames(m0, src)) && SpaceSame(m, src, n, dest)
    ensures SpaceSame(m0, src, n, dest)
  {
    SpaceUnchanged(m0, m, src);
    RangeUnchanged(m0, m, src, 3, 1, 512);
    RangeUnchanged(m0, m, FirstPD(m0, src), 2, 1, 512);
    SameUnchanged(m, src, n, dest, m0, n, 3, 1, 512);
    SameUnchanged(m, FirstPD(m, src), n, FirstPD(n, dest), m0, n, 2, 1, 512);
  }

  lemma IsCopySince(m0: Mem, m: Mem, src: nat, n: Mem, dest: nat)
    requires Space(m0, src) && Space(m, src) && Agree(m0, m, SpaceFrames(m0, src))
      && SpaceFrames(m, src) == SpaceFrames(m0, src)
    requires IsCopy(m, src, n, dest)
    ensures IsCopy(m0, src, n, dest)
  {
    SpaceSameSince(m0, m, src, n, dest);
  }

  /** In n the space dest is a copy of what the space src was in m; the frames `taken` hold its
      contents, and no other page is different from m but dest's own two tables. */
  ghost predicate SpaceCopied(m: Mem, src: nat, n: Mem, dest: nat, taken: set<nat>) {
    && |n| == |m| && Space(m, dest) && SpaceSame(m, src, n, dest)
    && FirstPD(n, dest) == FirstPD(m, dest) && Contents(n, dest) == taken
    && n[dest][0] == m[dest][0] && n[FirstPD(n, dest)][0] == m[FirstPD(m, dest)][0]
    && (forall h | 0 <= h < |m| && h !in SpaceFrames(n, dest) :: n[h] == m[h])
  }

  /** A page is mapped alike: not at all, or with the same flags to a page with the same contents. */
  ghost predicate MappedAlike(m: Mem, src: nat, n: Mem, dest: nat, v: UPage)
    requires src < |m| && dest < |n|
  {
    var a, b := UserMapping(m, src, v), UserMapping(n, dest, v);
    || (a.None? && b.None?)
    || (a.Some? && b.Some? && a.value.flags == b.value.flags && a.value.frame < |m| && b.value.frame < |n|
        && m[a.value.frame] == n[b.value.frame])
  }

  /** From 2M up, the copy maps what the original maps. */
  lemma CopyMapsAlike(m: Mem, src: nat, n: Mem, dest: nat, v: UPage)
    requires SpaceSame(m, src, n, dest) && v >= 512
    ensures MappedAlike(m, src, n, dest, v)
  {
    AboveIdentity(v);
    var p := UserPath(v);
    if p[0] >= 1 {
      SameTranslates(m, src, n, dest, 3, 1, p);
    } else {
      assert Next(p)[0] == p[1];
      SameTranslates(m, FirstPD(m, src), n, FirstPD(n, dest), 2, 1, Next(p));
    }
  }

  /** ... through tables with the same flags: at each of the three levels, by the indices of the page, the
      same entries are present, with the same flags, and at the end the pages hold the same. */
  lemma CopyReadsAlike(m: Mem, src: nat, n: Mem, dest: nat, v: UPage)
    requires SpaceSame(m, src, n, dest) && v >= 512
    ensures var a, b, c := v / 0x40000, v / 0x200 % 512, v % 512;
      var x, y := m[src][a], n[dest][a];
      && (a > 0 ==> x.present == y.present && (x.present ==> x.flags == y.flags))
      && (a == 0 || x.present ==>
           && x.frame < |m| && y.frame < |n|
           && var x2, y2 := m[x.frame][b], n[y.frame][b];
           && x2.present == y2.present
           && (x2.present ==>
                && x2.flags == y2.flags && x2.frame < |m| && y2.frame < |n|
                && var x3, y3 := m[x2.frame][c], n[y2.frame][c];
                && x3.present == y3.present
                && (x3.present ==>
                     x3.flags == y3.flags && x3.frame < |m| && y3.frame < |n| && m[x3.frame] == n[y3.frame])))
  {
    var a, b, c := v / 0x40000, v / 0x200 % 512, v % 512;
    AboveIdentity(v);
    if a > 0 {
      assert SameSlot(m, src, n, dest, 3, a);
      if m[src][a].present {
        assert SameSlot(m, m[src][a].frame, n, n[dest][a].frame, 2, b);
        TablesAlike(m, m[src][a].frame, n, n[dest][a].frame, b, c);
      }
    } else {
      assert SameSlot(m, FirstPD(m, src), n, FirstPD(n, dest), 2, b);
      TablesAlike(m, FirstPD(m, src), n, FirstPD(n, dest), b, c);
    }
  }

  lemma TablesAlike(m: Mem, f: nat, n: Mem, g: nat, b: Index, c: Index)
    requires f < |m| && g < |n| && SameSlot(m, f, n, g, 2, b)
    ensures m[f][b].present ==>
      && m[f][b].frame < |m| && n[g][b].frame < |n|
      && var x3, y3 := m[m[f][b].frame][c], n[n[g][b].frame][c];
      && x3.present == y3.present
      && (x3.present ==> x3.flags == y3.flags && x3.frame < |m| && y3.frame < |n| && m[x3.frame] == n[y3.frame])
  {
    if m[f][b].present {
      assert SameSlot(m, m[f][b].frame, n, n[g][b].frame, 1, c);
    }
  }

  /** Copying the first PD, then the PDP, copies the space. */
  lemma BothCopied(m: Mem, m1: Mem, n: Mem, src: nat, dest: nat, first: set<nat>, second: set<nat>)
    requires Space(m, src) && Space(m, dest) && SpaceFrames(m, src) !! SpaceFrames(m, dest)
    requires CopiedTo(m, FirstPD(m, src), m1, FirstPD(m, dest), 2, 1, 512, first)
    requires CopiedTo(m1, src, n, dest, 3, 1, 512, second)
    requires first !! second && first + second !! SpaceFrames(m, src) + SpaceFrames(m, dest)
    ensures SpaceCopied(m, src, n, dest, first + second)
  {
    var zs, zd := FirstPD(m, src), FirstPD(m, dest);
    assert m1[dest] == m[dest] && m1[src] == m[src] && n[dest][0] == m1[dest][0];
    RangeUnchanged(m1, n, zd, 2, 1, 512);
    SameUnchanged(m, zs, m1, zd, m, n, 2, 1, 512);
    RangeUnchanged(m, m1, src, 3, 1, 512);
    SameUnchanged(m1, src, n, dest, m, n, 3, 1, 512);
  }
}
