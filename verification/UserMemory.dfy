/** The memory of a process (src/Memory/UserMemory.cpp): making an empty user space, freeing its
    contents, copying it, and giving it up. */
module UserMemory {
  import opened Options
  import opened PhysMemory
  import opened PageTree
  import opened Paging
  import opened UserSpace

  /** The memory once the constructor has built its two tables in frames p and z. */
  function NewSpace(m: Mem, p: nat, z: nat, identity: nat): Mem
    requires p < |m| && z < |m|
  {
    Wired(Wired(Emptied(Emptied(m, p), z), p, 0, z), z, 0, identity)
  }

  lemma NewSpaceIs(m: Mem, p: nat, z: nat, identity: nat)
    requires p < |m| && z < |m| && p != z
    ensures var n := NewSpace(m, p, z, identity);
      && |n| == |m| && (forall h | 0 <= h < |m| && h != p && h != z :: n[h] == m[h])
      && Space(n, p) && FirstPD(n, p) == z && Contents(n, p) == {} && n[z][0] == Activated(EMPTY, identity)
  {
    var n := NewSpace(m, p, z, identity);
    SweptOwnsNothing(n, p, 3);
    SweptOwnsNothing(n, z, 2);
  }

  /** The page tables in use, and those of the default space, are trees without free frames. */
  ghost predicate Kernel(mem: Mem, free: set<nat>, root: nat, user: nat) {
    && root < |mem| && user < |mem| && mem[root][0].present
    && Forest(mem, root, 3) && {root} + Owned(mem, root, 3) !! free
    && Forest(mem, user, 2) && {user} + Owned(mem, user, 2) !! {root} + OwnedIn(mem, root, 3, 1, 512) + free
  }

  /** The space p is a tree of frames of its own: none is free, none is the kernel's or the default
      space's, and if the space is not the active one, none is that one's either. */
  ghost predicate Fits(mem: Mem, free: set<nat>, root: nat, user: nat, p: nat) {
    && Kernel(mem, free, root, user) && Space(mem, p)
    && SpaceFrames(mem, p) !! free
    && SpaceFrames(mem, p) !! {root} + OwnedIn(mem, root, 3, 1, 512) + {user} + Owned(mem, user, 2)
    && (mem[root][0].frame != p ==> SpaceFrames(mem, p) !! {root} + Owned(mem, root, 3))
  }

  /** From m to n the active space stayed the same, or the default one took its place. */
  ghost predicate KernelKept(m: Mem, n: Mem, root: nat, user: nat) {
    && root < |m| == |n| && user < |m|
    && {root} + OwnedIn(n, root, 3, 1, 512) == {root} + OwnedIn(m, root, 3, 1, 512)
    && {user} + Owned(n, user, 2) == {user} + Owned(m, user, 2)
    && (if n[root][0].frame == m[root][0].frame then {root} + Owned(n, root, 3) == {root} + Owned(m, root, 3)
        else n[root][0].frame == user
             && {root} + Owned(n, root, 3) == {root} + OwnedIn(m, root, 3, 1, 512) + {user} + Owned(m, user, 2))
  }

  /** Every other space is as it was, and is still a space. */
  ghost predicate OthersStand(m: Mem, free: set<nat>, n: Mem, free2: set<nat>, root: nat, user: nat, mine: set<nat>) {
    forall p: nat | Fits(m, free, root, user, p) && SpaceFrames(m, p) !! mine ::
      && Fits(n, free2, root, user, p) && Agree(m, n, SpaceFrames(m, p)) && SpaceFrames(n, p) == SpaceFrames(m, p)
  }

  lemma FitsStill(m: Mem, free: set<nat>, n: Mem, free2: set<nat>, root: nat, user: nat, p: nat)
    requires Fits(m, free, root, user, p) && Kernel(n, free2, root, user) && KernelKept(m, n, root, user)
    requires Agree(m, n, SpaceFrames(m, p)) && free2 !! SpaceFrames(m, p)
    ensures Fits(n, free2, root, user, p) && SpaceFrames(n, p) == SpaceFrames(m, p)
  {
    SpaceUnchanged(m, n, p);
  }

  /** A step that touches the PML4 and the frames `mine` only, and frees or takes no others. */
  lemma OthersStill(m: Mem, free: set<nat>, n: Mem, free2: set<nat>, root: nat, user: nat, mine: set<nat>)
    requires Kernel(n, free2, root, user) && KernelKept(m, n, root, user)
    requires forall h | 0 <= h < |m| && h != root && h !in mine :: n[h] == m[h]
    requires free2 <= free + mine
    ensures OthersStand(m, free, n, free2, root, user, mine)
  {
    forall p: nat | Fits(m, free, root, user, p) && SpaceFrames(m, p) !! mine
      ensures Fits(n, free2, root, user, p) && Agree(m, n, SpaceFrames(m, p)) && SpaceFrames(n, p) == SpaceFrames(m, p)
    {
      FitsStill(m, free, n, free2, root, user, p);
    }
  }

  lemma FitsIs(m: Mem, free: set<nat>, root: nat, user: nat, p: nat)
    requires Fits(m, free, root, user, p)
    ensures Kernel(m, free, root, user) && Space(m, p) && SpaceFrames(m, p) !! free && root < |m|
      && root !in SpaceFrames(m, p)
    ensures Forest(m, root, 3) && {root} + Owned(m, root, 3) !! free
  {
  }

  lemma KeptTwice(m: Mem, n: Mem, o: Mem, root: nat, user: nat)
    requires KernelKept(m, n, root, user) && KernelKept(n, o, root, user)
    ensures KernelKept(m, o, root, user)
  {
  }

  /** Emptying a space that is not active leaves it a space, and the page tables alone. */
  lemma ClearedFits(m: Mem, free: set<nat>, n: Mem, free2: set<nat>, root: nat, user: nat, p: nat)
    requires Fits(m, free, root, user, p) && m[root][0].frame != p
    requires n == Cleared(m, p) && free2 == free + Contents(m, p)
    ensures Fits(n, free2, root, user, p) && KernelKept(m, n, root, user) && Contents(n, p) == {}
  {
    hide OwnedIn, ForestIn, Forest, Owned;
    ClearedSpace(m, p, 0);
    TablesKept(m, n, root, user);
  }

  /** From m to n a space p was made that holds the identity table only, with frames out of `free`. */
  ghost predicate IsNew(m: Mem, free: set<nat>, n: Mem, free2: set<nat>, p: nat, identity: nat) {
    && |n| == |m| && Space(n, p) && Contents(n, p) == {} && n[FirstPD(n, p)][0] == Activated(EMPTY, identity)
    && SpaceFrames(n, p) <= free && free2 == free - SpaceFrames(n, p) && |free2| + 2 == |free|
    && (forall h | 0 <= h < |n| && h !in SpaceFrames(n, p) :: n[h] == m[h])
  }

  lemma NewSpaceFits(m: Mem, free: set<nat>, p: nat, z: nat, identity: nat, root: nat, user: nat)
    requires Kernel(m, free, root, user) && p in free && z in free && p != z && p < |m| && z < |m|
    ensures var n := NewSpace(m, p, z, identity);
      && Fits(n, free - {p} - {z}, root, user, p) && KernelKept(m, n, root, user) && root < |n| && n[root][0].frame != p
      && IsNew(m, free, n, free - {p} - {z}, p, identity) && SpaceFrames(n, p) == {p, z}
      && Forest(n, root, 3) && {root} + Owned(n, root, 3) !! free - {p} - {z}
  {
    hide OwnedIn, ForestIn, Forest, Owned, NewSpace, Space, Contents;
    NewSpaceIs(m, p, z, identity);
    TablesKept(m, NewSpace(m, p, z, identity), root, user);
    ActiveOwned(m, root);
    TwoLess(free, p, z);
  }

  lemma TwoLess(s: set<nat>, p: nat, z: nat)
    requires p in s && z in s && p != z
    ensures s - {p} - {z} == s - {p, z} && |s - {p} - {z}| + 2 == |s|
  {
    assert |s - {p}| == |s| - 1;
  }

  lemma ActiveOwned(mem: Mem, root: nat)
    requires root < |mem| && Forest(mem, root, 3) && mem[root][0].present
    ensures mem[root][0].frame in Owned(mem, root, 3)
  {
    assert SlotOk(mem, root, 3, 0);
    assert mem[root][0].frame in Sub(mem, root, 3, 0);
  }

  // --------------------------------------------------------------------- mapping

  /** A table that is made for the space is part of it. */
  lemma LinkedInSpace(m: Mem, n: Mem, p: nat, q: Path, i: Index, taken: set<nat>)
    requires Space(m, p) && |q| < 2 && Walk(m, p, q).Some? && Linked(m, n, Walk(m, p, q).value, i, taken)
    requires (q == [] && i == 0) || (if q == [] then i else q[0]) >= 1 || (q != [] && i >= 1)
    requires taken !! SpaceFrames(m, p)
    ensures Space(n, p) && FirstPD(n, p) == FirstPD(m, p) && Contents(n, p) == Contents(m, p) + taken && |n| == |m|
    ensures n[FirstPD(n, p)][0] == m[FirstPD(m, p)][0]
    ensures forall h | 0 <= h < |m| && h !in SpaceFrames(m, p) + taken :: n[h] == m[h]
  {
    var t := Walk(m, p, q).value;
    if !m[t][i].present {
      var g: nat :| g < |m| && taken == {g} && n == Wired(Emptied(m, g), t, i, g);
      WalkInSpace(m, p, q);
      hide Space, Contents, Walk;
      PlantInSpace(m, n, p, q, i, g);
    }
  }

  lemma WalkInSpace(m: Mem, p: nat, q: Path)
    requires Space(m, p) && |q| < 2 && Walk(m, p, q).Some?
    ensures Walk(m, p, q).value in SpaceFrames(m, p) && (q != [] ==> Walk(m, p, q).value != p)
  {
    if q != [] && q[0] != 0 {
      RangeInside(m, p, 3, 1, q[0]);
      assert Walk(m, p, q).value in Sub(m, p, 3, q[0]);
    }
  }

  /** ... and the walk goes on to it. */
  lemma LinkedWalk(m: Mem, n: Mem, p: nat, q: Path, i: Index, taken: set<nat>)
    requires Space(m, p) && |q| < 2 && Walk(m, p, q).Some? && Linked(m, n, Walk(m, p, q).value, i, taken)
    requires (q == [] && i == 0) || (if q == [] then i else q[0]) >= 1 || (q != [] && i >= 1)
    requires taken !! SpaceFrames(m, p)
    ensures |n| == |m| && Walk(n, p, q) == Walk(m, p, q)
    ensures var e := n[Walk(m, p, q).value][i]; e.present && e.frame < |n| && Walk(n, p, q + [i]) == Some(e.frame)
  {
    var t := Walk(m, p, q).value;
    WalkInSpace(m, p, q);
    if m[t][i].present {
      SlotInSpace(m, p, q, i);
    }
    assert n[t][i].present && n[t][i].frame < |n| && (q != [] ==> n[p] == m[p]);
    hide Space, Linked, SpaceFrames;
    OneMore(m, n, p, q);
    WalkOn(n, p, q, i);
  }

  lemma OneMore(m: Mem, n: Mem, p: nat, q: Path)
    requires p < |m| == |n| && |q| < 2 && Walk(m, p, q).Some? && (q != [] ==> n[p] == m[p])
    ensures Walk(n, p, q) == Walk(m, p, q)
  {
  }

  lemma SlotInSpace(m: Mem, p: nat, q: Path, i: Index)
    requires Space(m, p) && |q| < 2 && Walk(m, p, q).Some? && m[Walk(m, p, q).value][i].present
    requires (q == [] && i == 0) || (if q == [] then i else q[0]) >= 1 || (q != [] && i >= 1)
    ensures m[Walk(m, p, q).value][i].frame < |m|
  {
    if q == [] {
      assert i > 0 ==> SlotOk(m, p, 3, i);
    } else if q[0] == 0 {
      assert SlotOk(m, FirstPD(m, p), 2, i);
    } else {
      RangeInside(m, p, 3, 1, q[0]);
      assert SlotOk(m, p, 3, q[0]);
      assert SlotOk(m, m[p][q[0]].frame, 2, i);
    }
  }

  /** The walk of page v in the active space p, with the tables that were made for it. */
  lemma TablesInSpace(m: Mem, n: Mem, root: nat, p: nat, v: UPage, pt: nat, taken: set<nat>)
    requires root < |m| && Space(m, p) && m[root][0].frame == p && v >= 512
    requires PTMade(m, n, root, v, pt, taken) && taken !! SpaceFrames(m, p)
    ensures Space(n, p) && FirstPD(n, p) == FirstPD(m, p) && Contents(n, p) == Contents(m, p) + taken
    ensures n[FirstPD(n, p)][0] == m[FirstPD(m, p)][0] && |n| == |m|
    ensures forall h | 0 <= h < |m| && h !in SpaceFrames(m, p) + taken :: n[h] == m[h]
    ensures Walk(n, p, [UserPath(v)[0], UserPath(v)[1]]) == Some(pt)
  {
    hide Space, Contents, Linked, PTMade, PDMade, SpaceFrames, Walk;
    var path := UserPath(v);
    UserIndices(v);
    AboveIdentity(v);
    SpaceIs(m, p);
    var m1, t1, t2, pd := MadeInSteps(m, n, root, p, v, pt, taken);
    LinkedInSpace(m, m1, p, [], path[0], t1);
    LinkedWalk(m, m1, p, [], path[0], t1);
    assert [] + [path[0]] == [path[0]] && [path[0]] + [path[1]] == [path[0], path[1]];
    SpaceIs(m1, p);
    LinkedInSpace(m1, n, p, [path[0]], path[1], t2);
    LinkedWalk(m1, n, p, [path[0]], path[1], t2);
  }

  /** What getPTphy() did, as links in the space. */
  lemma MadeInSteps(m: Mem, n: Mem, root: nat, p: nat, v: UPage, pt: nat, taken: set<nat>)
    returns (m1: Mem, t1: set<nat>, t2: set<nat>, pd: nat)
    requires root < |m| && p < |m| && m[root][0].frame == p && PTMade(m, n, root, v, pt, taken)
    ensures Walk(m, p, []) == Some(p) && Linked(m, m1, p, PDPIndex(v), t1) && |m1| == |m| == |n|
    ensures pd == m1[p][PDPIndex(v)].frame && Linked(m1, n, pd, PDIndex(v), t2)
    ensures pd < |n| && pt == n[pd][PDIndex(v)].frame && t1 !! t2 && taken == t1 + t2
  {
    UserIndices(v);
    m1, t1, t2 :|
      && PDMade(m, m1, root, v, t1) && |n| == |m1| && n[root] == m1[root]
      && Linked(m1, n, PDOf(m1, root, v), PDIndex(v), t2) && PDOf(m1, root, v) < |n|
      && pt == n[PDOf(m1, root, v)][PDIndex(v)].frame && pt < |n|
      && t1 !! t2 && taken == t1 + t2;
    pd := PDOf(m1, root, v);
  }

  /** Mapping a page from 2M up in the active space p adds the page and the tables made to it. */
  lemma MappedInSpace(m: Mem, n: Mem, root: nat, p: nat, v: UPage, phy: nat, wt: bool, taken: set<nat>)
    requires root < |m| && Space(m, p) && m[root][0].frame == p && v >= 512
    requires PageMapped(m, n, root, v, phy, wt, taken) && phy < |m|
    requires taken + {phy} !! SpaceFrames(m, p) && phy !in taken
    ensures Space(n, p) && FirstPD(n, p) == FirstPD(m, p) && Contents(n, p) == Contents(m, p) + taken + {phy}
    ensures n[FirstPD(n, p)][0] == m[FirstPD(m, p)][0] && |n| == |m|
    ensures forall h | 0 <= h < |m| && h !in SpaceFrames(m, p) + taken :: n[h] == m[h]
  {
    hide Space, Contents, PTMade, Walk, PageMapped, SpaceFrames;
    var path := UserPath(v);
    UserIndices(v);
    AboveIdentity(v);
    var m2, pt := MappedInSteps(m, n, root, v, phy, wt, taken);
    TablesInSpace(m, m2, root, p, v, pt, taken);
    SpaceIs(m, p);
    SpaceIs(m2, p);
    TwoLevels(m2, p, [path[0], path[1]]);
    PlantInSpace(m2, n, p, [path[0], path[1]], path[2], phy);
  }

  lemma MappedInSteps(m: Mem, n: Mem, root: nat, v: UPage, phy: nat, wt: bool, taken: set<nat>)
    returns (m2: Mem, pt: nat)
    requires PageMapped(m, n, root, v, phy, wt, taken)
    ensures PTMade(m, m2, root, v, pt, taken)
    ensures pt < |m2| && (pt != phy ==> Planted(m2, n, pt, PTIndex(v), phy)) && |n| == |m2|
    ensures forall h | 0 <= h < |n| && h != pt :: n[h] == m2[h]
  {
    hide PTMade;
    m2, pt :|
      && PTMade(m, m2, root, v, pt, taken) && pt < |m2| && !m2[pt][PTIndex(v)].present
      && n == Stored(m2, pt, PTIndex(v), Mapped(m2[pt][PTIndex(v)], phy, wt, InKernel(v)));
  }

  lemma TwoLevels(m: Mem, p: nat, q: Path)
    requires Space(m, p) && |q| == 2 && Walk(m, p, q).Some? && (q[0] >= 1 || q[1] >= 1)
    ensures Walk(m, p, q).value in SpaceFrames(m, p)
  {
    if q[0] >= 1 {
      RangeInside(m, p, 3, 1, q[0]);
      WalkInside(m, m[p][q[0]].frame, 2, Next(q));
      assert Walk(m, p, q).value in Sub(m, p, 3, q[0]);
    } else {
      var z := FirstPD(m, p);
      RangeInside(m, z, 2, 1, q[1]);
      assert Walk(m, p, q) == Walk(m, z, Next(q)) && Next(q)[0] == q[1];
      WalkInside(m, m[z][q[1]].frame, 1, Next(Next(q)));
      assert Walk(m, p, q).value in Sub(m, z, 2, q[1]);
    }
  }

  lemma UserIndices(v: UPage)
    ensures PML4Index(v) == 0 && [PDPIndex(v), PDIndex(v), PTIndex(v)] == UserPath(v) && !InKernel(v)
  {
  }

  /** A page mapped in the active space p leaves the space, the kernel and the other spaces apart. */
  lemma MappedFits(m: Mem, free: set<nat>, n: Mem, free2: set<nat>, root: nat, user: nat, p: nat, v: UPage, phy: nat,
                   wt: bool)
    requires Fits(m, free, root, user, p) && m[root][0].frame == p && v >= 512
    requires phy in free && phy < |m| && free2 <= free - {phy}
      && PageMapped(m, n, root, v, phy, wt, free - {phy} - free2)
    requires root < |m| == |n| && n[root] == m[root]
    requires Forest(n, root, 3) && {root} + Owned(n, root, 3) !! free2
    requires Owned(n, root, 3) <= {root} + Owned(m, root, 3) + free
    ensures Fits(n, free2, root, user, p) && SpaceFrames(n, p) == SpaceFrames(m, p) + (free - free2)
    ensures FirstPD(n, p) == FirstPD(m, p) && Contents(n, p) == Contents(m, p) + (free - free2)
    ensures OthersStand(m, free, n, free2, root, user, SpaceFrames(m, p))
  {
    hide ForestIn, Forest, Owned, OwnedIn, Contents, PageMapped, Space;
    var taken := free - {phy} - free2;
    SpaceIs(m, p);
    MappedInSpace(m, n, root, p, v, phy, wt, taken);
    assert taken + {phy} == free - free2;
    SpaceIs(n, p);
    HalvesKept(m, n, free, root, user, SpaceFrames(m, p));
    OthersBeside(m, free, n, free2, root, user, SpaceFrames(m, p));
  }

  /** Other spaces stand beside one that takes free frames and tables. */
  lemma OthersBeside(m: Mem, free: set<nat>, n: Mem, free2: set<nat>, root: nat, user: nat, mine: set<nat>)
    requires Kernel(n, free2, root, user) && |n| == |m| && n[root] == m[root] && user < |m| && free2 <= free
    requires forall h | 0 <= h < |m| && h !in mine + free :: n[h] == m[h]
    requires OwnedIn(n, root, 3, 1, 512) == OwnedIn(m, root, 3, 1, 512) && Owned(n, user, 2) == Owned(m, user, 2)
    requires Owned(n, root, 3) <= {root} + Owned(m, root, 3) + free
    requires OwnedIn(m, root, 3, 1, 512) <= Owned(m, root, 3)
    requires {m[root][0].frame} <= mine
    ensures OthersStand(m, free, n, free2, root, user, mine)
  {
    hide ForestIn, Forest, Owned, OwnedIn, Contents;
    forall q: nat | Fits(m, free, root, user, q) && SpaceFrames(m, q) !! mine
      ensures Fits(n, free2, root, user, q) && Agree(m, n, SpaceFrames(m, q)) && SpaceFrames(n, q) == SpaceFrames(m, q)
    {
      SpaceUnchanged(m, n, q);
    }
  }

  lemma SpaceIs(m: Mem, p: nat)
    requires Space(m, p)
    ensures p < |m| && FirstPD(m, p) < |m| && SpaceFrames(m, p) == {p, FirstPD(m, p)} + Contents(m, p)
  {
  }

  /** The kernel's half and the default space do not change with frames that are not theirs. */
  lemma HalvesKept(m: Mem, n: Mem, free: set<nat>, root: nat, user: nat, mine: set<nat>)
    requires Kernel(m, free, root, user) && |n| == |m| && n[root] == m[root]
    requires mine !! OwnedIn(m, root, 3, 1, 512) + {user} + Owned(m, user, 2)
    requires forall h | 0 <= h < |m| && h !in mine + free :: n[h] == m[h]
    ensures OwnedIn(n, root, 3, 1, 512) == OwnedIn(m, root, 3, 1, 512)
    ensures Forest(n, user, 2) && Owned(n, user, 2) == Owned(m, user, 2)
    ensures OwnedIn(m, root, 3, 1, 512) <= Owned(m, root, 3)
  {
    Unchanged(m, n, user, 2);
    assert OwnedIn(m, root, 3, 1, 512) <= OwnedIn(m, root, 3, 0, 512);
    RangeUnchanged(m, n, root, 3, 1, 512);
  }

  /** The active space translates the lower half. */
  lemma ActiveMapping(m: Mem, root: nat, p: nat, v: UPage)
    requires root < |m| && m[root][0].present && m[root][0].frame == p && p < |m|
    ensures UserMapping(m, p, v) == if EntryAt(m, root, v).present then Some(EntryAt(m, root, v)) else None
  {
    UserIndices(v);
    assert Next(PagePath(v)) == UserPath(v) && PagePath(v)[0] == 0;
  }

  /** The frames `free` are enough for a copy of what slots lo and up of table src lead to, and dest,
      the table to copy to, is apart from both. */
  ghost predicate CanCopy(mem: Mem, free: set<nat>, dest: nat, src: nat, d: nat, lo: nat) {
    && 0 < d && lo <= 512 && src < |mem| && dest < |mem| && src != dest
    && ForestIn(mem, src, d, lo, 512)
    && {src, dest} !! OwnedIn(mem, src, d, lo, 512)
    && {src, dest} + OwnedIn(mem, src, d, lo, 512) !! free
    && |OwnedIn(mem, src, d, lo, 512)| <= |free|
  }

  /** How far a copy has come: i slots are done, with the frames that have left `free`. */
  ghost predicate Copying(m: Mem, free: set<nat>, src: nat, n: Mem, left: set<nat>, dest: nat, d: nat, lo: nat,
                          i: nat) {
    && CopiedTo(m, src, n, dest, d, lo, i, free - left) && left <= free
    && |left| + |OwnedIn(m, src, d, lo, i)| == |free|
  }

  /** A table without anything from slot lo on may also be copied onto itself, which is what happens
      when a space is assigned to itself. */
  ghost predicate ToCopy(mem: Mem, free: set<nat>, dest: nat, src: nat, d: nat, lo: nat) {
    if dest == src then src < |mem| && lo <= 512 && Hollow(mem[src], lo) else CanCopy(mem, free, dest, src, d, lo)
  }

  ghost predicate Hollow(p: Page, lo: nat) {
    forall i: Index | lo <= i :: !p[i].present
  }

  ghost predicate Copies(m: Mem, free: set<nat>, src: nat, n: Mem, left: set<nat>, dest: nat, d: nat, lo: nat, i: nat) {
    if dest == src then left == free && Cleaned(m, n, src, lo, i) else Copying(m, free, src, n, left, dest, d, lo, i)
  }

  /** Table t lost what its absent entries from slot lo up to i said. */
  ghost predicate Cleaned(m: Mem, n: Mem, t: nat, lo: nat, i: nat) {
    && t < |m| == |n| && (forall h | 0 <= h < |m| && h != t :: n[h] == m[h])
    && forall j: Index :: n[t][j] == if lo <= j < i then EMPTY else m[t][j]
  }

  lemma CopiesStart(m: Mem, free: set<nat>, src: nat, dest: nat, d: nat, lo: nat)
    requires ToCopy(m, free, dest, src, d, lo)
    ensures Copies(m, free, src, m, free, dest, d, lo, lo)
  {
    if dest != src {
      CopyStarts(m, free, src, dest, d, lo);
    }
  }

  /** What the next slot finds. */
  lemma CopiesNext(m: Mem, free: set<nat>, src: nat, n: Mem, left: set<nat>, dest: nat, d: nat, lo: nat, i: Index)
    requires ToCopy(m, free, dest, src, d, lo) && lo <= i && Copies(m, free, src, n, left, dest, d, lo, i)
    ensures dest < |n| == |m| && src < |m| && n[src][i] == m[src][i]
    ensures m[src][i].present ==>
      && m[src][i].frame < |m| && left != {} && dest != src && n[src] == m[src]
      && CanCopy(m, free, dest, src, d, lo) && Copying(m, free, src, n, left, dest, d, lo, i)
  {
    hide CanCopy, Copying;
    if dest != src {
      CopyNext(m, free, src, n, left, dest, d, lo, i);
    }
  }

  lemma CopiesSkip(m: Mem, free: set<nat>, src: nat, n: Mem, left: set<nat>, dest: nat, d: nat, lo: nat, i: Index)
    requires ToCopy(m, free, dest, src, d, lo) && lo <= i && Copies(m, free, src, n, left, dest, d, lo, i)
    requires dest < |n| && src < |m| && !m[src][i].present
    ensures Copies(m, free, src, Stored(n, dest, i, EMPTY), left, dest, d, lo, i + 1)
  {
    hide CanCopy, Copying;
    if dest != src {
      CopySkips(m, free, src, n, left, dest, d, lo, i);
    }
  }

  /** Between different tables it is a copy. */
  lemma CopiesApart(m: Mem, free: set<nat>, src: nat, n: Mem, left: set<nat>, dest: nat, d: nat, lo: nat, i: nat)
    requires dest != src
    ensures ToCopy(m, free, dest, src, d, lo) <==> CanCopy(m, free, dest, src, d, lo)
    ensures Copies(m, free, src, n, left, dest, d, lo, i) <==> Copying(m, free, src, n, left, dest, d, lo, i)
  {
  }

  lemma CanCopyApart(mem: Mem, free: set<nat>, dest: nat, src: nat, d: nat, lo: nat)
    requires CanCopy(mem, free, dest, src, d, lo)
    ensures dest != src && ToCopy(mem, free, dest, src, d, lo)
  {
  }

  lemma CopyStarts(m: Mem, free: set<nat>, src: nat, dest: nat, d: nat, lo: nat)
    requires CanCopy(m, free, dest, src, d, lo)
    ensures Copying(m, free, src, m, free, dest, d, lo, lo)
  {
    CopyNothing(m, src, dest, d, lo);
    assert free - free == {};
    assert OwnedIn(m, src, d, lo, lo) == {};
  }

  /** What the next slot finds. */
  lemma CopyNext(m: Mem, free: set<nat>, src: nat, n: Mem, left: set<nat>, dest: nat, d: nat, lo: nat, i: Index)
    requires CanCopy(m, free, dest, src, d, lo) && lo <= i && Copying(m, free, src, n, left, dest, d, lo, i)
    ensures dest < |n| == |m| && src < |m| && n[src] == m[src]
    ensures m[src][i].present ==> m[src][i].frame < |m| && left != {}
  {
    hide OwnedIn, ForestIn, Forest, Owned;
    CopiedLeaves(m, src, n, dest, d, lo, i, free - left);
    CopyNeeds(m, src, d, lo, i);
  }

  lemma CopySkips(m: Mem, free: set<nat>, src: nat, n: Mem, left: set<nat>, dest: nat, d: nat, lo: nat, i: Index)
    requires CanCopy(m, free, dest, src, d, lo) && lo <= i && Copying(m, free, src, n, left, dest, d, lo, i)
    requires dest < |n| && !m[src][i].present
    ensures Copying(m, free, src, Stored(n, dest, i, EMPTY), left, dest, d, lo, i + 1)
  {
    hide OwnedIn, ForestIn, Forest, Owned, CopiedTo;
    CopyNeeds(m, src, d, lo, i);
    CopiedLeaves(m, src, n, dest, d, lo, i, free - left);
    CopyAbsent(m, src, n, Stored(n, dest, i, EMPTY), dest, d, lo, i, free - left);
  }

  /** A page is copied to frame c. */
  lemma CopyOfPage(m: Mem, free: set<nat>, src: nat, n: Mem, left: set<nat>, dest: nat, i: Index, c: nat)
    requires CanCopy(m, free, dest, src, 1, 0) && Copying(m, free, src, n, left, dest, 1, 0, i)
    requires m[src][i].present && c in left && c < |m| == |n| && m[src][i].frame < |m| && dest < |n|
    ensures var n1 := Stored(n, dest, i, m[src][i].(frame := c));
      Copying(m, free, src, n1[c := n1[m[src][i].frame]], left - {c}, dest, 1, 0, i + 1)
  {
    hide OwnedIn, ForestIn, Forest, Owned, CopiedTo;
    var e, taken := m[src][i], free - left;
    var n1 := Stored(n, dest, i, e.(frame := c));
    var n' := n1[c := n1[e.frame]];
    CopyNeeds(m, src, 1, 0, i);
    CopiedLeaves(m, src, n, dest, 1, 0, i, taken);
    Leaf(n', c);
    Leaf(m, e.frame);
    CopyPresent(m, src, n, n', dest, 1, 0, i, taken, c, {});
    assert free - (left - {c}) == taken + {c} + {};
  }

  /** The table in slot i can be copied to frame c ... */
  lemma CopyOfTableReady(m: Mem, free: set<nat>, src: nat, n: Mem, left: set<nat>, dest: nat, d: nat, lo: nat, i: Index,
                         c: nat)
    requires CanCopy(m, free, dest, src, d, lo) && 1 < d && lo <= i && Copying(m, free, src, n, left, dest, d, lo, i)
    requires m[src][i].present && c in left && c < |m| == |n| && m[src][i].frame < |m| && dest < |n|
    ensures var n1 := Stored(n, dest, i, m[src][i].(frame := c));
      && CanCopy(n1, left - {c}, c, m[src][i].frame, d - 1, 0)
      && Agree(m, n1, {m[src][i].frame} + Owned(m, m[src][i].frame, d - 1))
  {
    hide OwnedIn, ForestIn, Forest, Owned, CopiedTo;
    var s := m[src][i].frame;
    CopyNeeds(m, src, d, lo, i);
    CopiedLeaves(m, src, n, dest, d, lo, i, free - left);
    var n1 := Stored(n, dest, i, m[src][i].(frame := c));
    TreeReady(m, n1, s, d - 1);
  }

  /** ... and when it has been, slot i is done. */
  lemma CopyOfTable(m: Mem, free: set<nat>, src: nat, n: Mem, left: set<nat>, dest: nat, d: nat, lo: nat, i: Index,
                    c: nat,
                    n2: Mem, left2: set<nat>)
    requires CanCopy(m, free, dest, src, d, lo) && 1 < d && lo <= i && Copying(m, free, src, n, left, dest, d, lo, i)
    requires m[src][i].present && c in left && c < |m| == |n| && m[src][i].frame < |m| && dest < |n|
    requires var n1 := Stored(n, dest, i, m[src][i].(frame := c));
      && Copying(n1, left - {c}, m[src][i].frame, n2, left2, c, d - 1, 0, 512)
    ensures Copying(m, free, src, n2, left2, dest, d, lo, i + 1)
  {
    hide OwnedIn, ForestIn, Forest, Owned, CopiedTo, Same, Stored, Agree;
    var s, below := m[src][i].frame, left - {c} - left2;
    CopyNeedsHere(m, free, dest, src, d, lo, i);
    CopyOfTableReady(m, free, src, n, left, dest, d, lo, i, c);
    var n1 := Stored(n, dest, i, m[src][i].(frame := c));
    TreeReady(m, n1, s, d - 1);
    TableCopied(m, src, n, n1, n2, dest, d, lo, i, free - left, c, below);
    assert free - left2 == free - left + {c} + below;
  }

  lemma CopyNeedsHere(m: Mem, free: set<nat>, dest: nat, src: nat, d: nat, lo: nat, i: Index)
    requires CanCopy(m, free, dest, src, d, lo) && lo <= i && m[src][i].present
    ensures m[src][i].frame < |m| && Forest(m, m[src][i].frame, d - 1) && dest !in free
    ensures |OwnedIn(m, src, d, lo, i + 1)| == |OwnedIn(m, src, d, lo, i)| + 1 + |Owned(m, m[src][i].frame, d - 1)|
  {
    CopyNeeds(m, src, d, lo, i);
  }

  lemma ActiveIs(m: Mem, free: set<nat>, root: nat, user: nat, p: nat)
    requires Fits(m, free, root, user, p)
    ensures root < |m| && m[root][0].present && p < |m| && FirstPD(m, p) < |m| && PML4Index(0) == 0
    ensures forall v: UPage :: PML4Index(v) == 0
  {
    hide Forest, Owned, OwnedIn, ForestIn;
  }

  class UserMemory {
    const paging: Paging
    var pdp: nat  // the frame of the space's PDP

    /** A new user space, like the default one: it holds the shared identity table only. */
    constructor (paging: Paging)
      requires paging.Valid() && paging.Quiet() && |paging.phys.Free()| >= 2
      requires Kernel(paging.phys.ram, paging.phys.Free(), paging.pml4, paging.userPDP)
      requires IdentityReady(paging.phys.ram, paging.userPDP, paging.phys.Free())
      modifies paging.phys`words, paging.phys`ram, paging`tmpPDP, paging`tmpPD
      ensures this.paging == paging && Valid()
      ensures IsNew(old(paging.phys.ram), old(paging.phys.Free()), paging.phys.ram, paging.phys.Free(), pdp,
                    Identity(old(paging.phys.ram), paging.userPDP))
      ensures KernelKept(old(paging.phys.ram), paging.phys.ram, paging.pml4, paging.userPDP)
      ensures paging.pml4 < |paging.phys.ram| && paging.phys.ram[paging.pml4][0].frame != pdp
    {
      hide NewSpace, IsNew, Space, Contents, Forest, Owned, OwnedIn, PhysMem.Free, PhysMem.Bits, Kernel, KernelKept,
        Fits;
      ghost var m, free := paging.phys.ram, paging.phys.Free();
      paging.phys.FreeIsManaged();
      this.paging := paging;
      var frame := paging.phys.Alloc();
      pdp := frame;
      new;
      assert |free - {pdp}| == |free| - 1;
      ghost var z := Build();
      NewSpaceFits(m, free, pdp, z, Identity(m, paging.userPDP), paging.pml4, paging.userPDP);
    }

    /** The constructor's work on the two tables. */
    method Build() returns (ghost z: nat)
      requires paging.phys.Valid() && paging.Quiet() && paging.phys.Free() != {}
      requires pdp < |paging.phys.ram| && pdp !in paging.phys.Free()
      requires IdentityReady(paging.phys.ram, paging.userPDP, paging.phys.Free() + {pdp})
      modifies paging.phys`words, paging.phys`ram, paging`tmpPDP, paging`tmpPD
      ensures paging.phys.Valid() && paging.Quiet()
      ensures z in old(paging.phys.Free()) && paging.phys.Free() == old(paging.phys.Free()) - {z}
        && z < |old(paging.phys.ram)|
      ensures paging.phys.ram == NewSpace(old(paging.phys.ram), pdp, z, Identity(old(paging.phys.ram), paging.userPDP))
    {
      hide EmptyPage, PhysMem.Free, PhysMem.Bits;
      ghost var m := paging.phys.ram;
      paging.ActTmpPDP(pdp);
      paging.NewTable(paging.tmpPDP.value);
      var phyPD := paging.phys.Alloc();
      z := phyPD;
      paging.ActTmpPD(phyPD);
      paging.NewTable(paging.tmpPD.value);
      paging.Activate(paging.tmpPDP.value, 0, phyPD);
      assert paging.tmpPDP == Some(pdp) && paging.tmpPD == Some(phyPD);
      assert paging.phys.ram[paging.userPDP] == m[paging.userPDP];
      paging.Activate(paging.tmpPD.value, 0, Identity(paging.phys.ram, paging.userPDP));
      paging.FreeTmpPD();
      paging.FreeTmpPDP();
    }

    // ---------------------------------------------------------------- filling

    /** Take a frame and map page v of this space, which is the active one, to it. */
    method AddPage(v: UPage) returns (phy: nat)
      requires Valid() && paging.phys.ram[paging.pml4][0].frame == pdp
      requires v >= 512 && UserMapping(paging.phys.ram, pdp, v).None?
      requires Missing(paging.phys.ram, paging.pml4, PTPath(v)) < |paging.phys.Free()|
      modifies paging.phys`words, paging.phys`ram, paging`tmpPDP, paging`tmpPD, paging`tmpPT
      ensures Valid() && paging.phys.ram[paging.pml4][0].frame == pdp
      ensures paging.phys.Free() <= old(paging.phys.Free()) && phy in old(paging.phys.Free()) - paging.phys.Free()
      ensures FirstPD(paging.phys.ram, pdp) == old(FirstPD(paging.phys.ram, pdp))
      ensures Contents(paging.phys.ram, pdp)
           == old(Contents(paging.phys.ram, pdp)) + (old(paging.phys.Free()) - paging.phys.Free())
      ensures |paging.phys.Free()| + 1
           == old(|paging.phys.Free()| - Missing(paging.phys.ram, paging.pml4, PTPath(v)))
      ensures var e, e0 := UserMapping(paging.phys.ram, pdp, v), old(EntryAt(paging.phys.ram, paging.pml4, v));
        && e.Some? && e.value.frame == phy && !e.value.flags.writeThrough
        && e.value.flags.global == e0.flags.global && e.value.flags.readWrite == e0.flags.readWrite
        && e.value.flags.user == e0.flags.user
      ensures old(Walk(paging.phys.ram, paging.pml4, PTPath(v))).None? ==>
        var e := UserMapping(paging.phys.ram, pdp, v);
        e.Some? && e.value.flags == Flags(true, true, false, false, 0)
      ensures forall w: UPage | w != v ::
        UserMapping(paging.phys.ram, pdp, w) == old(UserMapping(paging.phys.ram, pdp, w))
      ensures OthersStand(old(paging.phys.ram), old(paging.phys.Free()), paging.phys.ram, paging.phys.Free(),
                          paging.pml4, paging.userPDP, old(SpaceFrames(paging.phys.ram, pdp)))
    {
      hide OwnedIn, ForestIn, Forest, Owned, PhysMem.Free, PhysMem.Bits, Contents, SpaceFrames, Space, Kernel, Fits,
           EntryAt, UserMapping, PageMapped, OthersStand, Missing, Walk, Mapped;
      ghost var m, free, root, user := paging.phys.ram, paging.phys.Free(), paging.pml4, paging.userPDP;
      ActiveIs(m, free, root, user, pdp);
      paging.phys.FreeIsManaged();
      ActiveMapping(m, root, pdp, v);
      phy := paging.phys.Alloc();
      paging.CreateMapping(phy, v, false);
      ghost var n, free2 := paging.phys.ram, paging.phys.Free();
      MappedFits(m, free, n, free2, root, user, pdp, v, phy, false);
      forall w: UPage
        ensures w != v ==> UserMapping(n, pdp, w) == UserMapping(m, pdp, w)
      {
        ActiveMapping(m, root, pdp, w);
        ActiveMapping(n, root, pdp, w);
      }
      ActiveMapping(n, root, pdp, v);
    }

    // ---------------------------------------------------------------- teardown

    /** Free the pages of a page table. */
    method FreePages(pt: nat)
      requires paging.phys.Valid() && paging.tmpPT.None?
      requires pt < |paging.phys.ram| && Forest(paging.phys.ram, pt, 1)
      requires Owned(paging.phys.ram, pt, 1) !! paging.phys.Free()
        && forall f | f in Owned(paging.phys.ram, pt, 1) :: paging.phys.Managed(f)
      modifies paging.phys`words, paging`tmpPT
      ensures paging.phys.Valid() && paging.tmpPT.None?
      ensures paging.phys.Free() == old(paging.phys.Free()) + Owned(paging.phys.ram, pt, 1)
    {
      hide OwnedIn, ForestIn, Sub, PhysMem.IsFree;
      ghost var free := paging.phys.Free();
      paging.ActTmpPT(pt);
      OwnedStep(paging.phys.ram, pt, 1, 0, 0);
      for i := 0 to 512
        invariant paging.phys.Valid() && paging.tmpPT == Some(pt)
        invariant paging.phys.Free() == free + OwnedIn(paging.phys.ram, pt, 1, 0, i)
      {
        SlotToFree(paging.phys.ram, paging.phys.ram, pt, 1, 0, i, free);
        if paging.phys.ram[paging.tmpPT.value][i].present {
          paging.phys.FreeFrame(paging.phys.ram[paging.tmpPT.value][i].frame);
        }
      }
      paging.FreeTmpPT();
    }

    /** Free the page tables of a page directory and their pages; with `start`, keep slot 0 and mark
        the others absent. */
    method FreePTs(pd: nat, start: bool)
      requires paging.phys.Valid() && paging.tmpPD.None? && paging.tmpPT.None?
      requires var lo := if start then 1 else 0;
        && pd < |paging.phys.ram| && ForestIn(paging.phys.ram, pd, 2, lo, 512)
        && pd !in OwnedIn(paging.phys.ram, pd, 2, lo, 512)
        && OwnedIn(paging.phys.ram, pd, 2, lo, 512) !! paging.phys.Free()
        && forall f | f in OwnedIn(paging.phys.ram, pd, 2, lo, 512) :: paging.phys.Managed(f)
      modifies paging.phys`words, paging.phys`ram, paging`tmpPD, paging`tmpPT
      ensures paging.phys.Valid() && paging.tmpPD.None? && paging.tmpPT.None?
      ensures paging.phys.Free() == old(paging.phys.Free()
        + OwnedIn(paging.phys.ram, pd, 2, if start then 1 else 0, 512))
      ensures paging.phys.ram == if start then old(paging.phys.ram)[pd := Swept(old(paging.phys.ram)[pd])]
        else old(paging.phys.ram)
    {
      hide OwnedIn, ForestIn, Forest, Owned, Sub, PhysMem.IsFree;
      ghost var m, free := paging.phys.ram, paging.phys.Free();
      var lo := if start then 1 else 0;
      paging.ActTmpPD(pd);
      OwnedStep(m, pd, 2, lo, lo);
      for i := lo to 512
        invariant paging.phys.Valid() && paging.tmpPD == Some(pd) && paging.tmpPT.None?
        invariant paging.phys.Free() == free + OwnedIn(m, pd, 2, lo, i)
        invariant |paging.phys.ram| == |m| && forall h | 0 <= h < |m| && h != pd :: paging.phys.ram[h] == m[h]
        invariant forall j: Index :: paging.phys.ram[pd][j] == if start && 0 < j < i then m[pd][j].(present := false)
          else m[pd][j]
      {
        SlotToFree(m, paging.phys.ram, pd, 2, lo, i, free);
        if paging.phys.ram[paging.tmpPD.value][i].present {
          ghost var pt := m[pd][i].frame;
          FreePages(paging.phys.ram[paging.tmpPD.value][i].frame);
          paging.phys.FreeFrame(paging.phys.ram[paging.tmpPD.value][i].frame);
          if start {
            paging.Store(paging.tmpPD.value, i, paging.phys.ram[paging.tmpPD.value][i].(present := false));
          }
        }
      }
      paging.FreeTmpPD();
      assert paging.phys.ram[pd] == if start then Swept(m[pd]) else m[pd];
    }

    /** The loop of freePDs() over slots 1 and up. */
    method FreeOtherPDs(pdp: nat)
      requires paging.phys.Valid() && paging.tmpPDP == Some(pdp) && paging.tmpPD.None? && paging.tmpPT.None?
      requires pdp < |paging.phys.ram| && ForestIn(paging.phys.ram, pdp, 3, 1, 512)
      requires pdp !in OwnedIn(paging.phys.ram, pdp, 3, 1, 512)
      requires OwnedIn(paging.phys.ram, pdp, 3, 1, 512) !! paging.phys.Free()
      requires forall f | f in OwnedIn(paging.phys.ram, pdp, 3, 1, 512) :: paging.phys.Managed(f)
      modifies paging.phys`words, paging.phys`ram, paging`tmpPD, paging`tmpPT
      ensures paging.phys.Valid() && paging.tmpPD.None? && paging.tmpPT.None?
      ensures paging.phys.Free() == old(paging.phys.Free() + OwnedIn(paging.phys.ram, pdp, 3, 1, 512))
      ensures paging.phys.ram == old(paging.phys.ram)[pdp := Swept(old(paging.phys.ram)[pdp])]
    {
      hide OwnedIn, ForestIn, Forest, Owned, Sub, PhysMem.IsFree, PhysMem.Free, PhysMem.Bits;
      ghost var m, free := paging.phys.ram, paging.phys.Free();
      OwnedStep(m, pdp, 3, 1, 1);
      for i := 1 to 512
        invariant paging.phys.Valid() && paging.tmpPDP == Some(pdp) && paging.tmpPD.None? && paging.tmpPT.None?
        invariant paging.phys.Free() == free + OwnedIn(m, pdp, 3, 1, i)
        invariant |paging.phys.ram| == |m| && forall h | 0 <= h < |m| && h != pdp :: paging.phys.ram[h] == m[h]
        invariant forall j: Index :: paging.phys.ram[pdp][j] == if 0 < j < i then m[pdp][j].(present := false)
          else m[pdp][j]
      {
        SlotToFree(m, paging.phys.ram, pdp, 3, 1, i, free);
        if paging.phys.ram[paging.tmpPDP.value][i].present {
          var pd := paging.phys.ram[paging.tmpPDP.value][i].frame;
          TreeRange(paging.phys.ram, pd, 2);
          FreePTs(pd, false);
          paging.phys.FreeFrame(pd);
          paging.Store(paging.tmpPDP.value, i, paging.phys.ram[paging.tmpPDP.value][i].(present := false));
        }
      }
      assert paging.phys.ram[pdp] == Swept(m[pdp]);
    }

    /** Free everything the space holds but its first PD, and mark it absent. */
    method FreePDs(pdp: nat)
      requires paging.phys.Valid() && paging.Quiet() && Space(paging.phys.ram, pdp)
      requires Contents(paging.phys.ram, pdp) !! paging.phys.Free()
      requires forall f | f in Contents(paging.phys.ram, pdp) :: paging.phys.Managed(f)
      modifies paging.phys`words, paging.phys`ram, paging`tmpPDP, paging`tmpPD, paging`tmpPT
      ensures paging.phys.Valid() && paging.Quiet()
      ensures paging.phys.Free() == old(paging.phys.Free() + Contents(paging.phys.ram, pdp))
      ensures paging.phys.ram == Cleared(old(paging.phys.ram), pdp)
    {
      hide OwnedIn, ForestIn, Forest, Owned, Sub, PhysMem.IsFree, PhysMem.Free, PhysMem.Bits;
      ghost var m := paging.phys.ram;
      paging.ActTmpPDP(pdp);
      FreePTs(paging.phys.ram[paging.tmpPDP.value][0].frame, true);
      RangeUnchanged(m, paging.phys.ram, pdp, 3, 1, 512);
      FreeOtherPDs(pdp);
      paging.FreeTmpPDP();
    }

    // ------------------------------------------------------------- the whole space

    ghost predicate Valid()
      reads this, paging, paging.phys
    {
      && paging.Valid() && paging.Quiet()
      && Fits(paging.phys.ram, paging.phys.Free(), paging.pml4, paging.userPDP, pdp)
      && forall f | f in SpaceFrames(paging.phys.ram, pdp) :: paging.phys.Managed(f)
    }

    /** Make the default space the active one if this one is. */
    method Deactivate()
      requires Valid()
      modifies paging.phys`ram
      ensures Valid() && paging.phys.ram[paging.pml4][0].frame != pdp
      ensures KernelKept(old(paging.phys.ram), paging.phys.ram, paging.pml4, paging.userPDP)
      ensures FirstPD(paging.phys.ram, pdp) == old(FirstPD(paging.phys.ram, pdp))
      ensures Contents(paging.phys.ram, pdp) == old(Contents(paging.phys.ram, pdp))
      ensures forall h | 0 <= h < |paging.phys.ram| && h != paging.pml4 :: paging.phys.ram[h] == old(paging.phys.ram)[h]
    {
      hide OwnedIn, ForestIn, Forest, Owned, PhysMem.IsFree, PhysMem.Free, PhysMem.Bits, EntryAt;
      ghost var m := paging.phys.ram;
      if pdp == paging.phys.ram[paging.pml4][0].frame {
        paging.SwitchUser(paging.userPDP);
        SpaceUnchanged(m, paging.phys.ram, pdp);
      }
    }

    /** Drop the contents of the space, making the default space the active one first if this one
        was.  Afterwards the space is like a new one. */
    method Clear()
      requires Valid()
      modifies paging.phys`words, paging.phys`ram, paging`tmpPDP, paging`tmpPD, paging`tmpPT
      ensures Valid() && Contents(paging.phys.ram, pdp) == {} && paging.phys.ram[paging.pml4][0].frame != pdp
      ensures paging.phys.Free() == old(paging.phys.Free() + Contents(paging.phys.ram, pdp))
      ensures FirstPD(paging.phys.ram, pdp) == old(FirstPD(paging.phys.ram, pdp))
      ensures paging.phys.ram[FirstPD(paging.phys.ram, pdp)][0]
        == old(paging.phys.ram[FirstPD(paging.phys.ram, pdp)])[0]
      ensures forall v: UPage | v >= 512 :: UserMapping(paging.phys.ram, pdp, v).None?
      ensures KernelKept(old(paging.phys.ram), paging.phys.ram, paging.pml4, paging.userPDP)
      ensures OthersStand(old(paging.phys.ram), old(paging.phys.Free()), paging.phys.ram, paging.phys.Free(),
                          paging.pml4, paging.userPDP, old(SpaceFrames(paging.phys.ram, pdp)))
      ensures |paging.phys.ram| == old(|paging.phys.ram|)
      ensures forall h | 0 <= h < |paging.phys.ram| && h !in {paging.pml4, pdp, FirstPD(paging.phys.ram, pdp)} ::
        paging.phys.ram[h] == old(paging.phys.ram)[h]
    {
      hide OwnedIn, ForestIn, Forest, Owned, PhysMem.IsFree, PhysMem.Free, PhysMem.Bits, Fits, Kernel, KernelKept;
      ghost var m0, free0 := paging.phys.ram, paging.phys.Free();
      Deactivate();
      ghost var m1 := paging.phys.ram;
      FitsIs(m1, free0, paging.pml4, paging.userPDP, pdp);
      FreePDs(pdp);
      ClearedSpace(m1, pdp, 0);
      forall v: UPage | v >= 512
        ensures UserMapping(paging.phys.ram, pdp, v).None?
      {
        ClearedSpace(m1, pdp, v);
      }
      ClearedFits(m1, free0, paging.phys.ram, paging.phys.Free(), paging.pml4, paging.userPDP, pdp);
      KeptTwice(m0, m1, paging.phys.ram, paging.pml4, paging.userPDP);
      FitsIs(paging.phys.ram, paging.phys.Free(), paging.pml4, paging.userPDP, pdp);
      OthersStill(m0, free0, paging.phys.ram, paging.phys.Free(), paging.pml4, paging.userPDP, SpaceFrames(m0, pdp));
    }

    /** Clear the space, then give up its first PD and its PDP. */
    method Destroy()
      requires Valid()
      modifies paging.phys`words, paging.phys`ram, paging`tmpPDP, paging`tmpPD, paging`tmpPT
      ensures paging.Valid() && paging.Quiet()
      ensures paging.phys.Free() == old(paging.phys.Free() + SpaceFrames(paging.phys.ram, pdp))
      ensures OthersStand(old(paging.phys.ram), old(paging.phys.Free()), paging.phys.ram, paging.phys.Free(),
                          paging.pml4, paging.userPDP, old(SpaceFrames(paging.phys.ram, pdp)))
    {
      hide PhysMem.Free, PhysMem.IsFree, PhysMem.Bits, Forest, Owned, OwnedIn, ForestIn, Contents, UserMapping,
        OthersStand, KernelKept;
      ghost var m, free := paging.phys.ram, paging.phys.Free();
      Clear();
      paging.ActTmpPDP(pdp);
      paging.phys.FreeFrame(paging.phys.ram[paging.tmpPDP.value][0].frame);
      paging.FreeTmpPDP();
      paging.phys.FreeFrame(pdp);
      OthersStill(m, free, paging.phys.ram, paging.phys.Free(), paging.pml4, paging.userPDP, SpaceFrames(m, pdp));
    }

    // ---------------------------------------------------------------------- copying

    /** Slot i of table dest becomes entry e, but leads to a fresh frame. */
    method LinkCopy(dest: nat, i: Index, e: Entry) returns (c: nat)
      requires paging.phys.Valid() && paging.phys.Free() != {} && dest < |paging.phys.ram|
      modifies paging.phys`words, paging.phys`ram
      ensures paging.phys.Valid() && c in old(paging.phys.Free()) && paging.phys.Free() == old(paging.phys.Free()) - {c}
      ensures c < |paging.phys.ram| == |old(paging.phys.ram)|
        && paging.phys.ram == Stored(old(paging.phys.ram), dest, i, e.(frame := c))
    {
      hide Stored, PhysMem.Free, PhysMem.Bits;
      ghost var n := paging.phys.ram;
      StoredIs(n, dest, i, e, e);
      paging.Store(dest, i, e);
      c := paging.phys.Alloc();
      StoredIs(n, dest, i, e, e.(frame := c));
      paging.Store(dest, i, paging.phys.ram[dest][i].(frame := c));
    }

    /** Copy a page table and its pages. */
    method CopyPages(dest: nat, src: nat)
      requires paging.phys.Valid() && ToCopy(paging.phys.ram, paging.phys.Free(), dest, src, 1, 0)
      modifies paging.phys`words, paging.phys`ram
      ensures paging.phys.Valid()
      ensures Copies(old(paging.phys.ram), old(paging.phys.Free()), src, paging.phys.ram, paging.phys.Free(), dest, 1,
        0, 512)
    {
      hide ToCopy, Copies, CanCopy, Copying, Stored, PhysMem.Free, PhysMem.Bits;
      var phys := paging.phys;
      ghost var m, free := phys.ram, phys.Free();
      CopiesStart(m, free, src, dest, 1, 0);
      for i := 0 to 512
        invariant phys.Valid() && Copies(m, free, src, phys.ram, phys.Free(), dest, 1, 0, i)
      {
        ghost var n, left := phys.ram, phys.Free();
        CopiesNext(m, free, src, n, left, dest, 1, 0, i);
        if phys.ram[src][i].present {
          var e := phys.ram[src][i];
          var newp := LinkCopy(dest, i, e);
          phys.CopyFrame(newp, e.frame);
          CopyOfPage(m, free, src, n, left, dest, i, newp);
          CopiesApart(m, free, src, phys.ram, phys.Free(), dest, 1, 0, i + 1);
        } else {
          CopiesSkip(m, free, src, n, left, dest, 1, 0, i);
          paging.Store(dest, i, EMPTY);
        }
      }
    }

    /** Copy a page directory, its page tables and their pages; with `start`, slot 0 is left alone. */
    method CopyPTs(dest: nat, src: nat, start: bool)
      requires paging.phys.Valid()
      requires ToCopy(paging.phys.ram, paging.phys.Free(), dest, src, 2, if start then 1 else 0)
      modifies paging.phys`words, paging.phys`ram
      ensures paging.phys.Valid()
      ensures Copies(old(paging.phys.ram), old(paging.phys.Free()), src, paging.phys.ram, paging.phys.Free(), dest,
                     2, if start then 1 else 0, 512)
    {
      hide ToCopy, Copies, CanCopy, Copying, Stored, PhysMem.Free, PhysMem.Bits;
      var phys := paging.phys;
      var lo := if start then 1 else 0;
      ghost var m, free := phys.ram, phys.Free();
      CopiesStart(m, free, src, dest, 2, lo);
      for i := lo to 512
        invariant phys.Valid() && Copies(m, free, src, phys.ram, phys.Free(), dest, 2, lo, i)
      {
        ghost var n, left := phys.ram, phys.Free();
        CopiesNext(m, free, src, n, left, dest, 2, lo, i);
        if phys.ram[src][i].present {
          var e := phys.ram[src][i];
          var newPT := LinkCopy(dest, i, e);
          CopyOfTableReady(m, free, src, n, left, dest, 2, lo, i, newPT);
          CanCopyApart(phys.ram, phys.Free(), newPT, e.frame, 1, 0);
          ghost var n1, left1 := phys.ram, phys.Free();
          CopyPages(newPT, e.frame);
          CopiesApart(n1, left1, e.frame, phys.ram, phys.Free(), newPT, 1, 0, 512);
          CopyOfTable(m, free, src, n, left, dest, 2, lo, i, newPT, phys.ram, phys.Free());
          CopiesApart(m, free, src, phys.ram, phys.Free(), dest, 2, lo, i + 1);
        } else {
          CopiesSkip(m, free, src, n, left, dest, 2, lo, i);
          paging.Store(dest, i, EMPTY);
        }
      }
    }

    /** The loop of copyPDs() over slots 1 and up. */
    method CopyOtherPDs(dest: nat, src: nat)
      requires paging.phys.Valid() && ToCopy(paging.phys.ram, paging.phys.Free(), dest, src, 3, 1)
      modifies paging.phys`words, paging.phys`ram
      ensures paging.phys.Valid()
      ensures Copies(old(paging.phys.ram), old(paging.phys.Free()), src, paging.phys.ram, paging.phys.Free(), dest, 3,
        1, 512)
    {
      hide ToCopy, Copies, CanCopy, Copying, Stored, PhysMem.Free, PhysMem.Bits;
      var phys := paging.phys;
      ghost var m, free := phys.ram, phys.Free();
      CopiesStart(m, free, src, dest, 3, 1);
      for i := 1 to 512
        invariant phys.Valid() && Copies(m, free, src, phys.ram, phys.Free(), dest, 3, 1, i)
      {
        ghost var n, left := phys.ram, phys.Free();
        CopiesNext(m, free, src, n, left, dest, 3, 1, i);
        if phys.ram[src][i].present {
          var e := phys.ram[src][i];
          var newPD := LinkCopy(dest, i, e);
          CopyOfTableReady(m, free, src, n, left, dest, 3, 1, i, newPD);
          CanCopyApart(phys.ram, phys.Free(), newPD, e.frame, 2, 0);
          ghost var n1, left1 := phys.ram, phys.Free();
          CopyPTs(newPD, e.frame, false);
          CopiesApart(n1, left1, e.frame, phys.ram, phys.Free(), newPD, 2, 0, 512);
          CopyOfTable(m, free, src, n, left, dest, 3, 1, i, newPD, phys.ram, phys.Free());
          CopiesApart(m, free, src, phys.ram, phys.Free(), dest, 3, 1, i + 1);
        } else {
          CopiesSkip(m, free, src, n, left, dest, 3, 1, i);
          paging.Store(dest, i, EMPTY);
        }
      }
    }

    /** Copy all a space holds into an empty one: through the first PD, which dest has already,
        then through the others.  An empty space may be copied onto itself. */
    method CopyPDs(dest: nat, src: nat)
      requires paging.phys.Valid() && Space(paging.phys.ram, src) && Space(paging.phys.ram, dest)
      requires if dest == src then Contents(paging.phys.ram, src) == {}
               else SpaceFrames(paging.phys.ram, src) !! SpaceFrames(paging.phys.ram, dest)
      requires SpaceFrames(paging.phys.ram, src) + SpaceFrames(paging.phys.ram, dest) !! paging.phys.Free()
      requires |Contents(paging.phys.ram, src)| <= |paging.phys.Free()|
      modifies paging.phys`words, paging.phys`ram
      ensures paging.phys.Valid() && paging.phys.Free() <= old(paging.phys.Free())
      ensures |paging.phys.Free()| + |Contents(old(paging.phys.ram), src)| == |old(paging.phys.Free())|
      ensures dest != src ==>
        SpaceCopied(old(paging.phys.ram), src, paging.phys.ram, dest, old(paging.phys.Free()) - paging.phys.Free())
      ensures dest == src ==>
        paging.phys.Free() == old(paging.phys.Free()) && SpaceCleaned(old(paging.phys.ram), paging.phys.ram, src)
    {
      hide ToCopy, Copies, Copying, CanCopy, Space, SpaceCopied, SpaceCleaned, Contents, SpaceFrames, PhysMem.Free,
        PhysMem.Bits;
      ghost var m, free := paging.phys.ram, paging.phys.Free();
      FirstToCopy(m, free, dest, src);
      CopyPTs(paging.phys.ram[dest][0].frame, paging.phys.ram[src][0].frame, true);
      ghost var m1, free1 := paging.phys.ram, paging.phys.Free();
      OthersToCopy(m, free, m1, free1, dest, src);
      CopyOtherPDs(dest, src);
      SpaceIsCopied(m, free, m1, free1, paging.phys.ram, paging.phys.Free(), dest, src);
    }

    /** Copy another space into this one, which is empty and not active, or this one onto itself. */
    method CopyFrom(other: UserMemory)
      requires Valid() && other.Valid() && other.paging == paging && paging.phys.ram[paging.pml4][0].frame != pdp
      requires Contents(paging.phys.ram, pdp) == {}
      requires other != this ==> SpaceFrames(paging.phys.ram, pdp) !! SpaceFrames(paging.phys.ram, other.pdp)
      requires |Contents(paging.phys.ram, other.pdp)| <= |paging.phys.Free()|
      modifies paging.phys`words, paging.phys`ram
      ensures Valid() && other.Valid()
      ensures other != this ==> IsCopy(old(paging.phys.ram), other.pdp, paging.phys.ram, pdp)
      ensures other == this ==> Contents(paging.phys.ram, pdp) == {}
      ensures paging.phys.Free() == old(paging.phys.Free()) - Contents(paging.phys.ram, pdp)
      ensures SpaceFrames(paging.phys.ram, pdp)
           == old(SpaceFrames(paging.phys.ram, pdp)) + Contents(paging.phys.ram, pdp)
      ensures FirstPD(paging.phys.ram, pdp) == old(FirstPD(paging.phys.ram, pdp))
      ensures paging.phys.ram[FirstPD(paging.phys.ram, pdp)][0]
           == old(paging.phys.ram[FirstPD(paging.phys.ram, pdp)])[0]
    {
      hide OwnedIn, ForestIn, Forest, Owned, PhysMem.Free, PhysMem.Bits, Contents, SpaceFrames, Fits, Kernel,
        KernelKept,
        OthersStand, Space, IsCopy, SpaceCopied, SpaceCleaned, UserMapping;
      ghost var m, free, root, user := paging.phys.ram, paging.phys.Free(), paging.pml4, paging.userPDP;
      BothFit(m, free, root, user, pdp, other.pdp);
      paging.phys.FreeIsManaged();
      CopyPDs(pdp, other.pdp);
      if other != this {
        CopiedFits(m, free, paging.phys.ram, paging.phys.Free(), root, user, pdp, other.pdp);
      } else {
        CleanedFits(m, free, paging.phys.ram, root, user, pdp);
      }
    }

    /** Make this space, which may hold anything, a copy of another one.  Assigning a space to itself
        empties it. */
    method Assign(other: UserMemory)
      requires Valid() && other.Valid() && other.paging == paging
      requires other != this ==> SpaceFrames(paging.phys.ram, pdp) !! SpaceFrames(paging.phys.ram, other.pdp)
      requires other != this ==>
        |Contents(paging.phys.ram, other.pdp)| <= |paging.phys.Free() + Contents(paging.phys.ram, pdp)|
      modifies paging.phys`words, paging.phys`ram, paging`tmpPDP, paging`tmpPD, paging`tmpPT
      ensures Valid() && other.Valid()
      ensures other != this ==> IsCopy(old(paging.phys.ram), other.pdp, paging.phys.ram, pdp)
      ensures other == this ==> Contents(paging.phys.ram, pdp) == {}
      ensures paging.phys.Free()
           == old(paging.phys.Free() + Contents(paging.phys.ram, pdp)) - Contents(paging.phys.ram, pdp)
      ensures FirstPD(paging.phys.ram, pdp) == old(FirstPD(paging.phys.ram, pdp))
      ensures paging.phys.ram[FirstPD(paging.phys.ram, pdp)][0]
           == old(paging.phys.ram[FirstPD(paging.phys.ram, pdp)])[0]
    {
      hide OwnedIn, ForestIn, Forest, Owned, PhysMem.Free, PhysMem.Bits, Contents, Fits, Kernel, KernelKept,
        OthersStand, Space, IsCopy, SpaceCopied, SpaceCleaned, UserMapping;
      ghost var m0, free0, root, user := paging.phys.ram, paging.phys.Free(), paging.pml4, paging.userPDP;
      Clear();
      ghost var m, free := paging.phys.ram, paging.phys.Free();
      if other != this {
        OtherStands(m0, free0, m, free, root, user, SpaceFrames(m0, pdp), other.pdp);
      }
      BothFit(m, free, root, user, pdp, other.pdp);
      CopyFrom(other);
      if other != this {
        IsCopySince(m0, m, other.pdp, paging.phys.ram, pdp);
      }
    }

    /** A new space that is a copy of another one. */
    static method CopyOf(other: UserMemory) returns (copy: UserMemory)
      requires other.Valid() && |Contents(other.paging.phys.ram, other.pdp)| + 2 <= |other.paging.phys.Free()|
      requires IdentityReady(other.paging.phys.ram, other.paging.userPDP, other.paging.phys.Free())
      modifies other.paging.phys`words, other.paging.phys`ram, other.paging`tmpPDP, other.paging`tmpPD
      ensures fresh(copy) && copy.paging == other.paging && copy.Valid() && other.Valid()
      ensures IsCopy(old(other.paging.phys.ram), other.pdp, other.paging.phys.ram, copy.pdp)
      ensures other.paging.phys.Free()
           == old(other.paging.phys.Free()) - SpaceFrames(other.paging.phys.ram, copy.pdp)
      ensures other.paging.phys.ram[FirstPD(other.paging.phys.ram, copy.pdp)][0]
           == Activated(EMPTY, old(Identity(other.paging.phys.ram, other.paging.userPDP)))
    {
      hide OwnedIn, ForestIn, Forest, Owned, PhysMem.Free, PhysMem.Bits, Contents, SpaceFrames, Fits, Kernel,
        KernelKept, Space, IsCopy, IsNew, SpaceCopied;
      ghost var paging := other.paging;
      ghost var m0, free0, root, user := paging.phys.ram, paging.phys.Free(), paging.pml4, paging.userPDP;
      FitsIs(m0, free0, root, user, other.pdp);
      copy := new UserMemory(other.paging);
      ghost var m, free := paging.phys.ram, paging.phys.Free();
      NewBeside(m0, free0, m, free, root, user, copy.pdp, other.pdp, Identity(m0, user));
      copy.CopyFrom(other);
      IsCopySince(m0, m, other.pdp, paging.phys.ram, copy.pdp);
    }
  }

  lemma OtherStands(m: Mem, free: set<nat>, n: Mem, free2: set<nat>, root: nat, user: nat, mine: set<nat>, p: nat)
    requires OthersStand(m, free, n, free2, root, user, mine) && Fits(m, free, root, user, p)
      && SpaceFrames(m, p) !! mine
    ensures Fits(n, free2, root, user, p) && Agree(m, n, SpaceFrames(m, p)) && SpaceFrames(n, p) == SpaceFrames(m, p)
    ensures Space(m, p) && FirstPD(n, p) == FirstPD(m, p) && Contents(n, p) == Contents(m, p)
  {
    SpaceUnchanged(m, n, p);
  }

  /** A new space leaves another one alone. */
  lemma NewBeside(m: Mem, free: set<nat>, n: Mem, free2: set<nat>, root: nat, user: nat, p: nat, other: nat,
                  identity: nat)
    requires Fits(m, free, root, user, other) && Fits(n, free2, root, user, p) && KernelKept(m, n, root, user)
    requires IsNew(m, free, n, free2, p, identity)
    ensures Contents(n, p) == {} && |free2| + 2 == |free| && free2 == free - SpaceFrames(n, p)
    ensures FirstPD(n, p) < |n| && n[FirstPD(n, p)][0] == Activated(EMPTY, identity)
    ensures Fits(n, free2, root, user, other) && Agree(m, n, SpaceFrames(m, other))
    ensures Space(m, other) && Space(n, other) && Space(n, p)
    ensures SpaceFrames(n, other) == SpaceFrames(m, other) && Contents(n, other) == Contents(m, other)
    ensures SpaceFrames(n, other) !! SpaceFrames(n, p) && SpaceFrames(n, other) + SpaceFrames(n, p) !! free2
  {
    hide OwnedIn, ForestIn, Forest, Owned, Kernel, KernelKept, Contents;
    FitsIs(n, free2, root, user, p);
    assert SpaceFrames(m, other) !! free;
    assert Agree(m, n, SpaceFrames(m, other));
    FitsStill(m, free, n, free2, root, user, other);
    hide Fits;
    SpaceUnchanged(m, n, other);
  }

  lemma BothFit(m: Mem, free: set<nat>, root: nat, user: nat, dest: nat, src: nat)
    requires Fits(m, free, root, user, dest) && Fits(m, free, root, user, src)
    ensures Space(m, dest) && Space(m, src) && SpaceFrames(m, src) + SpaceFrames(m, dest) !! free
    ensures SpaceFrames(m, src) !! SpaceFrames(m, dest) ==> src != dest
  {
  }

  lemma CopiedFits(m: Mem, free: set<nat>, n: Mem, free2: set<nat>, root: nat, user: nat, dest: nat, src: nat)
    requires Fits(m, free, root, user, dest) && Fits(m, free, root, user, src) && m[root][0].frame != dest
    requires SpaceFrames(m, src) !! SpaceFrames(m, dest) && Contents(m, dest) == {}
    requires free2 <= free && SpaceCopied(m, src, n, dest, free - free2)
    ensures Fits(n, free2, root, user, dest) && Fits(n, free2, root, user, src) && KernelKept(m, n, root, user)
    ensures IsCopy(m, src, n, dest) && root < |m| == |n|
    ensures Space(n, src) && SpaceFrames(n, src) == SpaceFrames(m, src)
    ensures Space(n, dest) && FirstPD(n, dest) == FirstPD(m, dest) && n[FirstPD(n, dest)][0] == m[FirstPD(m, dest)][0]
    ensures free2 == free - Contents(n, dest) && Contents(n, dest) == free - free2
    ensures SpaceFrames(n, dest) == SpaceFrames(m, dest) + (free - free2)
    ensures Forest(n, root, 3) && {root} + Owned(n, root, 3) !! free2
  {
    hide OwnedIn, ForestIn, Forest, Owned, SameIn;
    TablesKept(m, n, root, user);
    SpaceUnchanged(m, n, src);
  }

  /** The space p, which was empty, still is, and forgot what its absent entries said. */
  ghost predicate SpaceCleaned(m: Mem, n: Mem, p: nat) {
    && |n| == |m| && Space(m, p) && Space(n, p) && FirstPD(n, p) == FirstPD(m, p) && Contents(n, p) == {}
    && n[FirstPD(n, p)][0] == m[FirstPD(m, p)][0]
    && (forall h | 0 <= h < |m| && h != p && h != FirstPD(m, p) :: n[h] == m[h])
    && forall i: Index | i > 0 :: n[p][i] == EMPTY && n[FirstPD(n, p)][i] == EMPTY
  }

  lemma EmptyIsHollow(m: Mem, p: nat)
    requires Space(m, p) && Contents(m, p) == {}
    ensures Hollow(m[p], 1) && Hollow(m[FirstPD(m, p)], 1)
  {
    forall i: Index | i > 0
      ensures !m[p][i].present && !m[FirstPD(m, p)][i].present
    {
      RangeInside(m, p, 3, 1, i);
      RangeInside(m, FirstPD(m, p), 2, 1, i);
      assert SlotOk(m, p, 3, i) && SlotOk(m, FirstPD(m, p), 2, i);
      assert Sub(m, p, 3, i) == {} && Sub(m, FirstPD(m, p), 2, i) == {};
    }
  }

  lemma FirstToCopy(m: Mem, free: set<nat>, dest: nat, src: nat)
    requires Space(m, src) && Space(m, dest)
    requires if dest == src then Contents(m, src) == {} else SpaceFrames(m, src) !! SpaceFrames(m, dest)
    requires SpaceFrames(m, src) + SpaceFrames(m, dest) !! free && |Contents(m, src)| <= |free|
    ensures dest < |m| && src < |m| && FirstPD(m, src) < |m| && FirstPD(m, dest) < |m|
    ensures ToCopy(m, free, FirstPD(m, dest), FirstPD(m, src), 2, 1)
  {
    if dest == src {
      EmptyIsHollow(m, src);
    } else {
      hide Space, SpaceFrames, Contents, CanCopy;
      FirstReady(m, free, dest, src);
      CanCopyApart(m, free, FirstPD(m, dest), FirstPD(m, src), 2, 1);
    }
    SpaceIs(m, src);
    SpaceIs(m, dest);
  }

  lemma OthersToCopy(m: Mem, free: set<nat>, m1: Mem, free1: set<nat>, dest: nat, src: nat)
    requires Space(m, src) && Space(m, dest)
    requires if dest == src then Contents(m, src) == {} else SpaceFrames(m, src) !! SpaceFrames(m, dest)
    requires SpaceFrames(m, src) + SpaceFrames(m, dest) !! free && |Contents(m, src)| <= |free|
    requires Copies(m, free, FirstPD(m, src), m1, free1, FirstPD(m, dest), 2, 1, 512)
    ensures ToCopy(m1, free1, dest, src, 3, 1)
  {
    if dest == src {
      EmptyIsHollow(m, src);
    } else {
      FirstsApart(m, dest, src);
      hide Space, SpaceFrames, Contents, CanCopy, Copying;
      OthersReady(m, free, m1, free1, dest, src);
    }
  }

  lemma FirstsApart(m: Mem, dest: nat, src: nat)
    requires dest < |m| && src < |m| && FirstPD(m, src) < |m| && FirstPD(m, dest) < |m|
    requires SpaceFrames(m, src) !! SpaceFrames(m, dest)
    ensures FirstPD(m, dest) != FirstPD(m, src)
  {
    assert FirstPD(m, dest) in SpaceFrames(m, dest);
  }

  lemma SpaceIsCopied(m: Mem, free: set<nat>, m1: Mem, free1: set<nat>, n: Mem, free2: set<nat>, dest: nat, src: nat)
    requires Space(m, src) && Space(m, dest)
    requires if dest == src then Contents(m, src) == {} else SpaceFrames(m, src) !! SpaceFrames(m, dest)
    requires SpaceFrames(m, src) + SpaceFrames(m, dest) !! free
    requires Copies(m, free, FirstPD(m, src), m1, free1, FirstPD(m, dest), 2, 1, 512)
    requires Copies(m1, free1, src, n, free2, dest, 3, 1, 512)
    ensures free2 <= free && |free2| + |Contents(m, src)| == |free|
    ensures dest != src ==> SpaceCopied(m, src, n, dest, free - free2)
    ensures dest == src ==> free2 == free && SpaceCleaned(m, n, src)
  {
    if dest == src {
      CleanedSpace(m, m1, n, src);
    } else {
      FirstsApart(m, dest, src);
      hide Space, SpaceFrames, Contents, Copying, SpaceCopied;
      SpaceReady(m, free, m1, free1, n, free2, dest, src);
    }
  }

  lemma CleanedSpace(m: Mem, m1: Mem, n: Mem, p: nat)
    requires Space(m, p) && Contents(m, p) == {}
    requires Cleaned(m, m1, FirstPD(m, p), 1, 512) && Cleaned(m1, n, p, 1, 512)
    ensures SpaceCleaned(m, n, p)
  {
    SweptOwnsNothing(n, p, 3);
    SweptOwnsNothing(n, FirstPD(m, p), 2);
  }

  lemma CleanedFits(m: Mem, free: set<nat>, n: Mem, root: nat, user: nat, p: nat)
    requires Fits(m, free, root, user, p) && m[root][0].frame != p && SpaceCleaned(m, n, p) && Contents(m, p) == {}
    ensures Fits(n, free, root, user, p) && root < |m| == |n| && Space(n, p) && SpaceFrames(n, p) == SpaceFrames(m, p)
    ensures FirstPD(n, p) == FirstPD(m, p) && n[FirstPD(n, p)][0] == m[FirstPD(m, p)][0] && Contents(n, p) == {}
    ensures Forest(n, root, 3) && {root} + Owned(n, root, 3) !! free
  {
    hide OwnedIn, ForestIn, Forest, Owned;
    TablesKept(m, n, root, user);
  }

  lemma FirstReady(m: Mem, free: set<nat>, dest: nat, src: nat)
    requires Space(m, src) && Space(m, dest) && SpaceFrames(m, src) !! SpaceFrames(m, dest)
    requires SpaceFrames(m, src) + SpaceFrames(m, dest) !! free && |Contents(m, src)| <= |free|
    ensures CanCopy(m, free, FirstPD(m, dest), FirstPD(m, src), 2, 1)
  {
    Subset(OwnedIn(m, FirstPD(m, src), 2, 1, 512), Contents(m, src));
  }

  lemma OthersReady(m: Mem, free: set<nat>, m1: Mem, free1: set<nat>, dest: nat, src: nat)
    requires Space(m, src) && Space(m, dest) && SpaceFrames(m, src) !! SpaceFrames(m, dest)
    requires SpaceFrames(m, src) + SpaceFrames(m, dest) !! free && |Contents(m, src)| <= |free|
    requires Copying(m, free, FirstPD(m, src), m1, free1, FirstPD(m, dest), 2, 1, 512)
    ensures CanCopy(m1, free1, dest, src, 3, 1)
  {
    Sizes(OwnedIn(m, FirstPD(m, src), 2, 1, 512), OwnedIn(m, src, 3, 1, 512));
    RangeUnchanged(m, m1, src, 3, 1, 512);
  }

  lemma SpaceReady(m: Mem, free: set<nat>, m1: Mem, free1: set<nat>, n: Mem, free2: set<nat>, dest: nat, src: nat)
    requires Space(m, src) && Space(m, dest) && SpaceFrames(m, src) !! SpaceFrames(m, dest)
    requires SpaceFrames(m, src) + SpaceFrames(m, dest) !! free
    requires Copying(m, free, FirstPD(m, src), m1, free1, FirstPD(m, dest), 2, 1, 512)
    requires Copying(m1, free1, src, n, free2, dest, 3, 1, 512)
    ensures SpaceCopied(m, src, n, dest, free - free2) && free2 <= free && |free2| + |Contents(m, src)| == |free|
  {
    BothCopied(m, m1, n, src, dest, free - free1, free1 - free2);
    assert free - free2 == free - free1 + (free1 - free2);
    Sizes(OwnedIn(m, FirstPD(m, src), 2, 1, 512), OwnedIn(m, src, 3, 1, 512));
    RangeUnchanged(m, m1, src, 3, 1, 512);
  }

  /** The tree to be copied is still the one it was. */
  lemma TreeReady(m: Mem, n: Mem, f: nat, d: nat)
    requires 0 < d && f < |m| && Forest(m, f, d) && Agree(m, n, {f} + Owned(m, f, d))
    ensures Owned(m, f, d) == OwnedIn(m, f, d, 0, 512)
    ensures OwnedIn(n, f, d, 0, 512) == OwnedIn(m, f, d, 0, 512) && ForestIn(n, f, d, 0, 512)
    ensures f !in OwnedIn(n, f, d, 0, 512)
  {
    Unchanged(m, n, f, d);
  }

  lemma CopiedTree(m: Mem, f: nat, n1: Mem, n2: Mem, g: nat, d: nat, below: set<nat>)
    requires 0 < d && f < |m| && Agree(m, n1, {f} + Owned(m, f, d)) && CopiedTo(n1, f, n2, g, d, 0, 512, below)
    ensures Same(m, f, n2, g, d) && Forest(n2, g, d) && Owned(n2, g, d) == below
  {
    Unchanged(m, n1, f, d);
    SameUnchanged(n1, f, n2, g, m, n2, d, 0, 512);
  }

  lemma TableCopied(m: Mem, f: nat, n: Mem, n1: Mem, n2: Mem, g: nat, d: nat, lo: nat, i: Index, taken: set<nat>,
                    c: nat, below: set<nat>)
    requires 1 < d && CopiedTo(m, f, n, g, d, lo, i, taken) && m[f][i].present && m[f][i].frame < |m| && g < |n|
    requires n1 == Stored(n, g, i, m[f][i].(frame := c)) && CopiedTo(n1, m[f][i].frame, n2, c, d - 1, 0, 512, below)
    requires Agree(m, n1, {m[f][i].frame} + Owned(m, m[f][i].frame, d - 1))
    requires {c} + below !! taken + {g}
    ensures CopiedTo(m, f, n2, g, d, lo, i + 1, taken + {c} + below)
  {
    hide CopiedTo, Forest, Owned, Same;
    CopiedLeaves(m, f, n, g, d, lo, i, taken);
    CopiedLeaves(n1, m[f][i].frame, n2, c, d - 1, 0, 512, below);
    CopiedTree(m, m[f][i].frame, n1, n2, c, d - 1, below);
    CopyPresent(m, f, n, n2, g, d, lo, i, taken, c, below);
  }

  lemma CopiedLeaves(m: Mem, f: nat, n: Mem, g: nat, d: nat, lo: nat, hi: nat, taken: set<nat>)
    requires CopiedTo(m, f, n, g, d, lo, hi, taken)
    ensures f < |m| && g < |m| == |n| && forall h | 0 <= h < |m| && h != g && h !in taken :: n[h] == m[h]
  {
  }

  lemma Leaf(mem: Mem, f: nat)
    requires f < |mem|
    ensures Forest(mem, f, 0) && Owned(mem, f, 0) == {}
  {
  }

  /** Pages outside of the page tables matter neither to the kernel's nor to the default tables. */
  lemma TablesKept(m: Mem, n: Mem, root: nat, user: nat)
    requires root < |m| && user < |m| && Forest(m, root, 3) && Forest(m, user, 2)
    requires Agree(m, n, {root} + Owned(m, root, 3)) && Agree(m, n, {user} + Owned(m, user, 2))
    ensures Forest(n, root, 3) && Owned(n, root, 3) == Owned(m, root, 3)
    ensures OwnedIn(n, root, 3, 1, 512) == OwnedIn(m, root, 3, 1, 512) <= Owned(m, root, 3)
    ensures Forest(n, user, 2) && Owned(n, user, 2) == Owned(m, user, 2)
  {
    Unchanged(m, n, root, 3);
    Unchanged(m, n, user, 2);
    assert OwnedIn(m, root, 3, 1, 512) <= OwnedIn(m, root, 3, 0, 512);
    RangeUnchanged(m, n, root, 3, 1, 512);
  }

  lemma TreeRange(mem: Mem, f: nat, d: nat)
    requires 0 < d && f < |mem| && Forest(mem, f, d)
    ensures ForestIn(mem, f, d, 0, 512) && Owned(mem, f, d) == OwnedIn(mem, f, d, 0, 512)
    ensures f !in OwnedIn(mem, f, d, 0, 512)
  {
  }
}
