/** The heap of libc/src/malloc.cpp as a list of blocks: what malloc and free do to the list,
    and what every such list keeps.  Positions and sizes count 8-byte words from the first
    header; a block is one header word followed by `size` words. */
module MallocLayout {
  import opened Options

  datatype Block = Block(start: nat, size: nat, free: bool) {
    /** Where the next header is. */
    function Next(): nat { start + size + 1 }
  }

  /** Position of header i; header |blocks| is the end-of-list marker. */
  function HeaderAt(blocks: seq<Block>, i: nat): nat
    requires i <= |blocks|
  {
    if i == 0 then 0 else blocks[i - 1].Next()
  }

  function End(blocks: seq<Block>): nat {
    HeaderAt(blocks, |blocks|)
  }

  /** The blocks tile the region from the first header to the end marker. */
  ghost predicate Tiled(blocks: seq<Block>) {
    forall i {:trigger HeaderAt(blocks, i)} | 0 <= i < |blocks| ::
      blocks[i].start == HeaderAt(blocks, i) && blocks[i].size > 0
  }

  /** No two free blocks touch, and the block before the end marker is in use. */
  ghost predicate Coalesced(blocks: seq<Block>) {
    forall i | 0 <= i < |blocks| && blocks[i].free :: i + 1 < |blocks| && !blocks[i + 1].free
  }

  ghost predicate WellFormed(blocks: seq<Block>) {
    Tiled(blocks) && Coalesced(blocks)
  }

  /** The block i holds the payload at `p`. */
  predicate Holds(blocks: seq<Block>, i: nat, p: nat) {
    i < |blocks| && !blocks[i].free && blocks[i].start + 1 == p
  }

  /** The live regions: payload position to payload size. */
  function Live(blocks: seq<Block>): map<nat, nat> {
    if blocks == [] then map[]
    else
      var last := blocks[|blocks| - 1];
      var before := Live(blocks[..|blocks| - 1]);
      if last.free then before else before[last.start + 1 := last.size]
  }

  // ---------------------------------------------------------------- malloc

  predicate Fits(b: Block, n: nat) {
    b.free && b.size >= n
  }

  /** The first block from `i` on that is free and large enough, or |blocks|. */
  function FirstFit(blocks: seq<Block>, n: nat, i: nat): (k: nat)
    requires i <= |blocks|
    ensures i <= k <= |blocks|
    ensures forall j | i <= j < k :: !Fits(blocks[j], n)
    ensures k < |blocks| ==> Fits(blocks[k], n)
    decreases |blocks| - i
  {
    if i == |blocks| || Fits(blocks[i], n) then i else FirstFit(blocks, n, i + 1)
  }

  /** The request goes into block k: cut in two when two words at least are left over. */
  function Carve(blocks: seq<Block>, n: nat, k: nat): seq<Block>
    requires k < |blocks| && Fits(blocks[k], n)
  {
    var b := blocks[k];
    if b.size - n >= 2
    then blocks[..k] + [Block(b.start, n, false), Block(b.start + n + 1, b.size - n - 1, true)] + blocks[k + 1..]
    else blocks[k := Block(b.start, b.size, false)]
  }

  /** The list after a request for n words. */
  function Allocated(blocks: seq<Block>, n: nat): seq<Block> {
    var k := FirstFit(blocks, n, 0);
    if k < |blocks| then Carve(blocks, n, k) else blocks + [Block(End(blocks), n, false)]
  }

  /** The payload position a request for n words is answered with. */
  function Answer(blocks: seq<Block>, n: nat): nat {
    HeaderAt(blocks, FirstFit(blocks, n, 0)) + 1
  }

  /** The size of the region the request gets: a left-over single word goes with it. */
  function Granted(blocks: seq<Block>, n: nat): nat {
    var k := FirstFit(blocks, n, 0);
    if k < |blocks| then GrantedIn(blocks[k], n) else n
  }

  function GrantedIn(b: Block, n: nat): nat
    requires n <= b.size
  {
    if b.size - n >= 2 then n else b.size
  }

  // ------------------------------------------------------------------ free

  /** Block i absorbs block i + 1. */
  function Join(blocks: seq<Block>, i: nat): seq<Block>
    requires i + 1 < |blocks|
  {
    blocks[..i] + [Block(blocks[i].start, blocks[i].size + blocks[i + 1].size + 1, true)] + blocks[i + 2..]
  }

  function JoinNext(blocks: seq<Block>, i: nat): seq<Block>
    requires i < |blocks|
    ensures i < |JoinNext(blocks, i)|
  {
    if i + 1 < |blocks| && blocks[i + 1].free then Join(blocks, i) else blocks
  }

  function JoinPrevious(blocks: seq<Block>, i: nat): seq<Block>
    requires i < |blocks|
  {
    if i > 0 && blocks[i - 1].free then Join(blocks, i - 1) else blocks
  }

  /** A free block in front of the end marker is given back. */
  function Trim(blocks: seq<Block>): seq<Block> {
    if blocks != [] && blocks[|blocks| - 1].free then blocks[..|blocks| - 1] else blocks
  }

  /** The list after block i is freed. */
  function Released(blocks: seq<Block>, i: nat): seq<Block>
    requires i < |blocks|
  {
    Trim(JoinPrevious(JoinNext(blocks[i := blocks[i].(free := true)], i), i))
  }

  // ------------------------------------------------- positions in a tiled list

  lemma {:induction false} HeadersGrow(blocks: seq<Block>, i: nat, j: nat)
    requires Tiled(blocks) && i < j <= |blocks|
    ensures HeaderAt(blocks, i) < HeaderAt(blocks, i + 1) <= HeaderAt(blocks, j)
    decreases j - i
  {
    assert blocks[i].start == HeaderAt(blocks, i);
    if i + 1 < j {
      HeadersGrow(blocks, i + 1, j);
    }
  }

  /** Different blocks occupy disjoint stretches, all below the end marker. */
  lemma BlocksAreDisjoint(blocks: seq<Block>, i: nat, j: nat)
    requires Tiled(blocks) && i < j < |blocks|
    ensures blocks[i].Next() <= blocks[j].start < End(blocks)
  {
    HeadersGrow(blocks, i, j);
    HeadersGrow(blocks, j, |blocks|);
  }

  // ------------------------------------------------------------ live regions

  /** A payload position is live exactly when some block in use holds it. */
  lemma {:induction false} LiveIffHeld(blocks: seq<Block>, p: nat)
    requires Tiled(blocks)
    ensures p in Live(blocks) <==> exists i: nat :: Holds(blocks, i, p)
    ensures forall i: nat | Holds(blocks, i, p) :: Live(blocks)[p] == blocks[i].size
  {
    if blocks != [] {
      var n := |blocks| - 1;
      var front := blocks[..n];
      assert forall i | 0 <= i < n :: HeaderAt(front, i) == HeaderAt(blocks, i);
      LiveIffHeld(front, p);
      forall i: nat | Holds(blocks, i, p)
        ensures p in Live(blocks) && Live(blocks)[p] == blocks[i].size
      {
        if i < n {
          BlocksAreDisjoint(blocks, i, n);
          assert Holds(front, i, p);
        }
      }
      if p in Live(blocks) {
        if p in Live(front) {
          var i: nat :| Holds(front, i, p);
          assert Holds(blocks, i, p);
        } else {
          assert Holds(blocks, n, p);
        }
      }
    }
  }

  lemma LiveAt(blocks: seq<Block>, i: nat)
    requires Tiled(blocks) && i < |blocks| && !blocks[i].free
    ensures blocks[i].start + 1 in Live(blocks) && Live(blocks)[blocks[i].start + 1] == blocks[i].size
  {
    assert Holds(blocks, i, blocks[i].start + 1);
    LiveIffHeld(blocks, blocks[i].start + 1);
  }

  lemma HolderOf(blocks: seq<Block>, p: nat) returns (i: nat)
    requires Tiled(blocks) && p in Live(blocks)
    ensures Holds(blocks, i, p) && Live(blocks)[p] == blocks[i].size
  {
    LiveIffHeld(blocks, p);
    i :| Holds(blocks, i, p);
  }

  /** Live regions do not overlap and end before the end marker. */
  lemma LiveRegionsAreDisjoint(blocks: seq<Block>, p: nat, q: nat)
    requires Tiled(blocks) && p in Live(blocks) && q in Live(blocks) && p < q
    ensures p + Live(blocks)[p] < q && q + Live(blocks)[q] <= End(blocks)
  {
    var i := HolderOf(blocks, p);
    var j := HolderOf(blocks, q);
    if j < i {
      BlocksAreDisjoint(blocks, j, i);
    } else {
      BlocksAreDisjoint(blocks, i, j);
    }
    HeadersGrow(blocks, j, |blocks|);
  }

  // ----------------------------------------------- the layout is canonical

  /** Two well-formed lists with the same live regions agree up to block k. */
  lemma {:induction false} SamePrefix(a: seq<Block>, b: seq<Block>, k: nat)
    requires WellFormed(a) && WellFormed(b) && Live(a) == Live(b) && k <= |a|
    ensures k <= |b| && a[..k] == b[..k]
  {
    if k > 0 {
      SamePrefix(a, b, k - 1);
      assert HeaderAt(a, k - 1) == HeaderAt(b, k - 1);
      SameNextBlock(a, b, k - 1);
    }
  }

  /** Where both lists have a header, they have the same block. */
  lemma SameNextBlock(a: seq<Block>, b: seq<Block>, k: nat)
    requires WellFormed(a) && WellFormed(b) && Live(a) == Live(b) && k < |a| && k <= |b|
    requires HeaderAt(a, k) == HeaderAt(b, k)
    ensures k < |b| && a[k] == b[k]
  {
    HeadersGrow(a, k, k + 1);
    if a[k].free {
      var j := SameLiveStart(a, b, k + 1);
      if j <= k {
        HeadersMonotone(b, j, k);
        assert false;
      }
      HeadersGrow(b, k, k + 1);
      HeadersMonotone(b, k + 1, j);
      if !b[k].free {
        var i := SameLiveStart(b, a, k);
        SameIndex(a, i, k);
        assert false;
      }
      var i := SameLiveStart(b, a, k + 1);
      if i <= k {
        HeadersMonotone(a, i, k);
        assert false;
      }
      HeadersMonotone(a, k + 1, i);
    } else {
      var j := SameLiveStart(a, b, k);
      SameIndex(b, j, k);
    }
  }

  lemma HeadersMonotone(blocks: seq<Block>, i: nat, j: nat)
    requires Tiled(blocks) && i <= j <= |blocks|
    ensures HeaderAt(blocks, i) <= HeaderAt(blocks, j)
  {
    if i < j {
      HeadersGrow(blocks, i, j);
    }
  }

  lemma SameIndex(blocks: seq<Block>, i: nat, j: nat)
    requires Tiled(blocks) && i <= |blocks| && j <= |blocks| && HeaderAt(blocks, i) == HeaderAt(blocks, j)
    ensures i == j
  {
    if i < j {
      HeadersGrow(blocks, i, j);
    } else if j < i {
      HeadersGrow(blocks, j, i);
    }
  }

  /** A block in use in one list is in use at the same place in the other. */
  lemma SameLiveStart(a: seq<Block>, b: seq<Block>, i: nat) returns (j: nat)
    requires Tiled(a) && Tiled(b) && Live(a) == Live(b) && i < |a| && !a[i].free
    ensures j < |b| && !b[j].free && HeaderAt(b, j) == HeaderAt(a, i) && b[j].size == a[i].size
  {
    LiveAt(a, i);
    j := HolderOf(b, a[i].start + 1);
  }

  /** The layout of a well-formed heap is a function of its live regions: it does not depend
      on the calls, nor on their order, that led to it. */
  lemma LayoutIsCanonical(a: seq<Block>, b: seq<Block>)
    requires WellFormed(a) && WellFormed(b) && Live(a) == Live(b)
    ensures a == b
  {
    SamePrefix(a, b, |a|);
    SamePrefix(b, a, |b|);
  }

  // ------------------------------------------------- what malloc and free keep

  lemma {:induction false} LiveOfConcat(a: seq<Block>, b: seq<Block>)
    ensures Live(a + b) == Live(a) + Live(b)
  {
    if b == [] {
      assert a + b == a;
    } else {
      var n := |b| - 1;
      LiveOfConcat(a, b[..n]);
      assert (a + b)[..|a + b| - 1] == a + b[..n];
    }
  }

  /** Replacing the blocks i..j by others. */
  lemma LiveOfSplice(blocks: seq<Block>, i: nat, j: nat, mid: seq<Block>)
    requires i <= j <= |blocks|
    ensures Live(blocks[..i] + mid + blocks[j..]) == Live(blocks[..i]) + Live(mid) + Live(blocks[j..])
  {
    LiveOfConcat(blocks[..i] + mid, blocks[j..]);
    LiveOfConcat(blocks[..i], mid);
  }

  lemma LiveOfOne(b: Block)
    ensures Live([b]) == if b.free then map[] else map[b.start + 1 := b.size]
  {
    assert [b][..0] == [];
  }

  lemma LiveOfTwo(b: Block, c: Block)
    ensures Live([b, c]) == Live([b]) + Live([c])
  {
    assert [b, c] == [b] + [c];
    LiveOfConcat([b], [c]);
  }

  /** Where a header is that belongs to no block in use, no payload is live. */
  lemma NotLive(blocks: seq<Block>, k: nat)
    requires Tiled(blocks) && k <= |blocks| && (k < |blocks| ==> blocks[k].free)
    ensures HeaderAt(blocks, k) + 1 !in Live(blocks)
  {
    if HeaderAt(blocks, k) + 1 in Live(blocks) {
      var i := HolderOf(blocks, HeaderAt(blocks, k) + 1);
      SameIndex(blocks, i, k);
    }
  }

  /** A block may be cut out of the list and one that spans as much put in its place. */
  lemma SpliceKeepsTiling(blocks: seq<Block>, i: nat, j: nat, mid: seq<Block>)
    requires Tiled(blocks) && i < j <= |blocks| && mid != []
    requires forall k | 0 <= k < |mid| :: mid[k].size > 0
    requires mid[0].start == HeaderAt(blocks, i) && mid[|mid| - 1].Next() == HeaderAt(blocks, j)
    requires forall k {:trigger HeaderAt(mid, k)} | 1 <= k < |mid| :: mid[k].start == HeaderAt(mid, k)
    ensures Tiled(blocks[..i] + mid + blocks[j..])
    ensures End(blocks[..i] + mid + blocks[j..]) == End(blocks)
  {
    var after := blocks[..i] + mid + blocks[j..];
    forall k {:trigger HeaderAt(after, k)} | 0 <= k < |after|
      ensures after[k].start == HeaderAt(after, k) && after[k].size > 0
    {
      if k < i {
        assert HeaderAt(after, k) == HeaderAt(blocks, k);
      } else if k < i + |mid| {
        if k == i {
          assert HeaderAt(after, k) == HeaderAt(blocks, i);
        } else {
          assert HeaderAt(after, k) == HeaderAt(mid, k - i);
        }
      } else {
        assert HeaderAt(after, k) == HeaderAt(blocks, k - i - |mid| + j);
      }
    }
  }

  /** malloc keeps the heap well formed and adds exactly one live region, at least the size
      asked for and at most one word more, where nothing was live: in the first free block of n
      words or more, or behind the end marker if there is none, which is when the marker moves. */
  lemma AllocatedAddsARegion(blocks: seq<Block>, n: nat)
    requires WellFormed(blocks) && n > 0
    ensures WellFormed(Allocated(blocks, n))
    ensures Answer(blocks, n) !in Live(blocks)
    ensures n <= Granted(blocks, n) <= n + 1
    ensures Live(Allocated(blocks, n)) == Live(blocks)[Answer(blocks, n) := Granted(blocks, n)]
    ensures forall k: nat | k < |blocks| && blocks[k].free && blocks[k].size >= n ::
      && End(Allocated(blocks, n)) == End(blocks)
      && ((forall j | 0 <= j < k :: !(blocks[j].free && blocks[j].size >= n)) ==>
           Answer(blocks, n) == blocks[k].start + 1)
    ensures (forall j | 0 <= j < |blocks| :: !(blocks[j].free && blocks[j].size >= n)) ==>
      && End(Allocated(blocks, n)) == End(blocks) + n + 1 && Answer(blocks, n) == End(blocks) + 1
      && Granted(blocks, n) == n
  {
    hide Live, Tiled, Coalesced, Carve;
    var k := FirstFit(blocks, n, 0);
    NotLive(blocks, k);
    if k < |blocks| {
      StartsAtHeader(blocks, k);
      CarveKeepsOrder(blocks, n, k);
      CarveAddsARegion(blocks, n, k);
    } else {
      AppendKeepsOrder(blocks, n);
      LiveOfConcat(blocks, [Block(End(blocks), n, false)]);
      LiveOfOne(Block(End(blocks), n, false));
    }
  }

  lemma AppendKeepsOrder(blocks: seq<Block>, n: nat)
    requires WellFormed(blocks) && n > 0
    ensures WellFormed(blocks + [Block(End(blocks), n, false)])
    ensures End(blocks + [Block(End(blocks), n, false)]) == End(blocks) + n + 1
  {
    var after := blocks + [Block(End(blocks), n, false)];
    assert forall i | 0 <= i <= |blocks| :: HeaderAt(after, i) == HeaderAt(blocks, i);
  }

  /** What stands for block k after n words of it are taken. */
  function Pieces(b: Block, n: nat): (mid: seq<Block>)
    requires n <= b.size
    ensures 1 <= |mid| <= 2
    ensures mid[0].start == b.start && !mid[0].free && mid[|mid| - 1].Next() == b.Next()
    ensures mid[0].size == GrantedIn(b, n)
    ensures |mid| == 2 ==> mid[1].start == mid[0].Next() && mid[1].free && mid[1].size > 0
  {
    if b.size - n >= 2
    then [Block(b.start, n, false), Block(b.start + n + 1, b.size - n - 1, true)]
    else [Block(b.start, b.size, false)]
  }

  lemma CarveIsASplice(blocks: seq<Block>, n: nat, k: nat)
    requires k < |blocks| && Fits(blocks[k], n)
    ensures Carve(blocks, n, k) == blocks[..k] + Pieces(blocks[k], n) + blocks[k + 1..]
  {
  }

  lemma CarveKeepsOrder(blocks: seq<Block>, n: nat, k: nat)
    requires WellFormed(blocks) && n > 0 && k < |blocks| && Fits(blocks[k], n)
    ensures WellFormed(Carve(blocks, n, k)) && End(Carve(blocks, n, k)) == End(blocks)
  {
    var mid := Pieces(blocks[k], n);
    assert blocks[k].start == HeaderAt(blocks, k);
    CarveIsASplice(blocks, n, k);
    SpliceKeepsTiling(blocks, k, k + 1, mid);
  }

  lemma LiveOfPieces(b: Block, n: nat)
    requires n <= b.size
    ensures Live(Pieces(b, n)) == map[b.start + 1 := GrantedIn(b, n)]
  {
    var mid := Pieces(b, n);
    LiveOfOne(mid[0]);
    if |mid| == 2 {
      assert mid == [mid[0], mid[1]];
      LiveOfOne(mid[1]);
      LiveOfTwo(mid[0], mid[1]);
    } else {
      assert mid == [mid[0]];
    }
  }

  lemma PutBetween(before: map<nat, nat>, p: nat, size: nat, after: map<nat, nat>)
    requires p !in before + after
    ensures before + map[p := size] + after == (before + after)[p := size]
  {
  }

  lemma CarveAddsARegion(blocks: seq<Block>, n: nat, k: nat)
    requires Tiled(blocks) && k < |blocks| && Fits(blocks[k], n)
    requires HeaderAt(blocks, k) + 1 !in Live(blocks)
    ensures Live(Carve(blocks, n, k)) == Live(blocks)[HeaderAt(blocks, k) + 1 := GrantedIn(blocks[k], n)]
  {
    hide Live, Tiled, Carve, Pieces;
    var b := blocks[k];
    StartsAtHeader(blocks, k);
    FreeBlockIsNotLive(blocks, k);
    CarveIsASplice(blocks, n, k);
    LiveOfSplice(blocks, k, k + 1, Pieces(b, n));
    LiveOfPieces(b, n);
    PutBetween(Live(blocks[..k]), b.start + 1, GrantedIn(b, n), Live(blocks[k + 1..]));
  }

  lemma StartsAtHeader(blocks: seq<Block>, k: nat)
    requires Tiled(blocks) && k < |blocks|
    ensures blocks[k].start == HeaderAt(blocks, k)
  {
  }

  /** A free block contributes nothing to the live regions. */
  lemma FreeBlockIsNotLive(blocks: seq<Block>, k: nat)
    requires k < |blocks| && blocks[k].free
    ensures Live(blocks) == Live(blocks[..k]) + Live(blocks[k + 1..])
  {
    assert blocks == blocks[..k] + [blocks[k]] + blocks[k + 1..];
    LiveOfSplice(blocks, k, k + 1, [blocks[k]]);
    LiveOfOne(blocks[k]);
  }

  /** Setting block i free takes its region away and no other. */
  lemma MarkedFree(blocks: seq<Block>, i: nat)
    requires Tiled(blocks) && i < |blocks| && !blocks[i].free
    ensures Tiled(blocks[i := blocks[i].(free := true)])
    ensures Live(blocks[i := blocks[i].(free := true)]) == Live(blocks) - {blocks[i].start + 1}
  {
    var b := blocks[i];
    var after := blocks[i := b.(free := true)];
    assert forall k | 0 <= k <= |blocks| :: HeaderAt(after, k) == HeaderAt(blocks, k);
    assert b.start == HeaderAt(blocks, i);
    hide Live;
    NotLive(after, i);
    assert after[..i] == blocks[..i] && after[i + 1..] == blocks[i + 1..];
    FreeBlockIsNotLive(after, i);
    BlockInUseIsLive(blocks, i);
    TakenOut(Live(blocks[..i]), b.start + 1, b.size, Live(blocks[i + 1..]));
  }

  lemma BlockInUseIsLive(blocks: seq<Block>, i: nat)
    requires i < |blocks| && !blocks[i].free
    ensures Live(blocks) == Live(blocks[..i]) + map[blocks[i].start + 1 := blocks[i].size] + Live(blocks[i + 1..])
  {
    hide *;
    assert blocks == blocks[..i] + [blocks[i]] + blocks[i + 1..];
    LiveOfSplice(blocks, i, i + 1, [blocks[i]]);
    LiveOfOne(blocks[i]);
  }

  lemma TakenOut(before: map<nat, nat>, p: nat, size: nat, after: map<nat, nat>)
    requires p !in before + after
    ensures before + map[p := size] + after - {p} == before + after
  {
  }

  lemma JoinKeepsLive(blocks: seq<Block>, i: nat)
    requires Tiled(blocks) && i + 1 < |blocks| && blocks[i].free && blocks[i + 1].free
    ensures Tiled(Join(blocks, i)) && Live(Join(blocks, i)) == Live(blocks)
  {
    var b := Block(blocks[i].start, blocks[i].size + blocks[i + 1].size + 1, true);
    assert blocks[i].start == HeaderAt(blocks, i) && blocks[i + 1].start == HeaderAt(blocks, i + 1);
    SpliceKeepsTiling(blocks, i, i + 2, [b]);
    hide *;
    FreePairIsNotLive(blocks, i);
    LiveOfSplice(blocks, i, i + 2, [b]);
    LiveOfOne(b);
    JoinIs(blocks, i);
  }

  lemma JoinIs(blocks: seq<Block>, i: nat)
    requires i + 1 < |blocks|
    ensures Join(blocks, i) == blocks[..i] + [Block(blocks[i].start, blocks[i].size + blocks[i + 1].size + 1, true)]
      + blocks[i + 2..]
  {
  }

  lemma FreePairIsNotLive(blocks: seq<Block>, i: nat)
    requires i + 1 < |blocks| && blocks[i].free && blocks[i + 1].free
    ensures Live(blocks) == Live(blocks[..i]) + Live(blocks[i + 2..])
  {
    hide *;
    var pair := [blocks[i], blocks[i + 1]];
    LiveOfTwo(blocks[i], blocks[i + 1]);
    LiveOfOne(blocks[i]);
    LiveOfOne(blocks[i + 1]);
    assert Live(pair) == map[];
    assert blocks == blocks[..i] + pair + blocks[i + 2..];
    LiveOfSplice(blocks, i, i + 2, pair);
  }

  /** Blocks other than i are followed by one, and not by a free one unless that is block i. */
  ghost predicate CoalescedBut(blocks: seq<Block>, i: nat) {
    && i < |blocks|
    && (forall k | 0 <= k < |blocks| && k != i && blocks[k].free ::
          k + 1 < |blocks| && (k + 1 == i || !blocks[k + 1].free))
  }

  lemma NextJoined(blocks: seq<Block>, i: nat)
    requires CoalescedBut(blocks, i) && blocks[i].free
    ensures CoalescedBut(JoinNext(blocks, i), i) && JoinNext(blocks, i)[i].free
    ensures i + 1 < |JoinNext(blocks, i)| ==> !JoinNext(blocks, i)[i + 1].free
  {
    var after := JoinNext(blocks, i);
    forall k | 0 <= k < |after| && k != i && after[k].free
      ensures k + 1 < |after| && (k + 1 == i || !after[k + 1].free)
    {
      if after != blocks && k > i {
        assert after[k] == blocks[k + 1];
      }
    }
  }

  lemma PreviousJoined(blocks: seq<Block>, i: nat)
    requires CoalescedBut(blocks, i) && blocks[i].free && (i + 1 < |blocks| ==> !blocks[i + 1].free)
    ensures forall k | 0 <= k < |JoinPrevious(blocks, i)| - 1 && JoinPrevious(blocks, i)[k].free ::
              !JoinPrevious(blocks, i)[k + 1].free
  {
    var after := JoinPrevious(blocks, i);
    forall k | 0 <= k < |after| - 1 && after[k].free
      ensures !after[k + 1].free
    {
      if after != blocks && k >= i {
        assert after[k] == blocks[k + 1];
      }
    }
  }

  lemma MarkedIsCoalescedElsewhere(blocks: seq<Block>, i: nat)
    requires Coalesced(blocks) && i < |blocks|
    ensures CoalescedBut(blocks[i := blocks[i].(free := true)], i)
  {
  }

  lemma JoinNextKeepsLive(blocks: seq<Block>, i: nat)
    requires Tiled(blocks) && i < |blocks| && blocks[i].free
    ensures Tiled(JoinNext(blocks, i)) && Live(JoinNext(blocks, i)) == Live(blocks)
  {
    if i + 1 < |blocks| && blocks[i + 1].free {
      JoinKeepsLive(blocks, i);
    }
  }

  lemma JoinPreviousKeepsLive(blocks: seq<Block>, i: nat)
    requires Tiled(blocks) && i < |blocks| && blocks[i].free
    ensures Tiled(JoinPrevious(blocks, i)) && Live(JoinPrevious(blocks, i)) == Live(blocks)
  {
    if i > 0 && blocks[i - 1].free {
      JoinKeepsLive(blocks, i - 1);
    }
  }

  /** free keeps the heap well formed and takes away exactly the region freed. */
  lemma ReleasedDropsTheRegion(blocks: seq<Block>, i: nat)
    requires WellFormed(blocks) && i < |blocks| && !blocks[i].free
    ensures WellFormed(Released(blocks, i))
    ensures Live(Released(blocks, i)) == Live(blocks) - {blocks[i].start + 1}
  {
    hide Tiled, Coalesced, CoalescedBut, Live, JoinNext, JoinPrevious, Trim;
    var b1 := blocks[i := blocks[i].(free := true)];
    MarkedFree(blocks, i);
    MarkedIsCoalescedElsewhere(blocks, i);
    var b2 := JoinNext(b1, i);
    NextJoined(b1, i);
    JoinNextKeepsLive(b1, i);
    var b3 := JoinPrevious(b2, i);
    PreviousJoined(b2, i);
    JoinPreviousKeepsLive(b2, i);
    TrimKeepsLive(b3);
  }

  lemma TrimKeepsLive(blocks: seq<Block>)
    requires Tiled(blocks) && forall k | 0 <= k < |blocks| - 1 && blocks[k].free :: !blocks[k + 1].free
    ensures WellFormed(Trim(blocks)) && Live(Trim(blocks)) == Live(blocks)
  {
    var after := Trim(blocks);
    assert forall k | 0 <= k <= |after| :: HeaderAt(after, k) == HeaderAt(blocks, k);
  }

  // ---------------------------------------------------------------- every run

  /** The end marker is right behind the highest live region, or at the start of the heap. */
  lemma EndIsTight(blocks: seq<Block>)
    requires WellFormed(blocks)
    ensures Live(blocks) == map[] ==> blocks == [] && End(blocks) == 0
    ensures Live(blocks) != map[] ==> exists p :: p in Live(blocks) && End(blocks) == p + Live(blocks)[p]
    ensures forall p | p in Live(blocks) :: p + Live(blocks)[p] <= End(blocks)
  {
    if blocks != [] {
      LiveAt(blocks, |blocks| - 1);
    }
    forall p | p in Live(blocks)
      ensures p + Live(blocks)[p] <= End(blocks)
    {
      var i := HolderOf(blocks, p);
      HeadersMonotone(blocks, i + 1, |blocks|);
    }
  }

  /** A call the program may make: a request for words, or the return of a payload. */
  datatype Call = Request(n: nat) | Return(p: nat)

  /** The index of the block that holds a live payload. */
  function BlockOf(blocks: seq<Block>, p: nat, i: nat): (k: nat)
    requires i <= |blocks|
    ensures i <= k <= |blocks|
    ensures k < |blocks| ==> Holds(blocks, k, p)
    ensures k == |blocks| ==> forall j: nat | i <= j :: !Holds(blocks, j, p)
    decreases |blocks| - i
  {
    if i == |blocks| || Holds(blocks, i, p) then i else BlockOf(blocks, p, i + 1)
  }

  /** Requests are for at least one word and only live payloads are returned. */
  predicate Legal(live: map<nat, nat>, c: Call) {
    match c
    case Request(n) => n > 0
    case Return(p) => p in live
  }

  /** The heap after a run of calls from the empty heap; None if the program broke the rules. */
  function Run(calls: seq<Call>): Option<seq<Block>> {
    if calls == [] then Some([])
    else
      match Run(calls[..|calls| - 1])
      case None => None
      case Some(blocks) =>
        var c := calls[|calls| - 1];
        if !Legal(Live(blocks), c) then None
        else match c
          case Request(n) => Some(Allocated(blocks, n))
          case Return(p) =>
            var i := BlockOf(blocks, p, 0);
            if i < |blocks| then Some(Released(blocks, i)) else None
  }

  /** After every run the heap is well formed: freed in whatever order, the blocks are the ones
      the live regions leave room for, and with nothing live the heap is as at the start. */
  lemma {:induction false} EveryRunIsWellFormed(calls: seq<Call>)
    requires Run(calls).Some?
    ensures WellFormed(Run(calls).value)
    ensures Live(Run(calls).value) == map[] ==> Run(calls).value == []
  {
    if calls != [] {
      var before := calls[..|calls| - 1];
      EveryRunIsWellFormed(before);
      var blocks := Run(before).value;
      match calls[|calls| - 1]
      case Request(n) => AllocatedAddsARegion(blocks, n);
      case Return(p) => ReleasedDropsTheRegion(blocks, BlockOf(blocks, p, 0));
    }
    EndIsTight(Run(calls).value);
  }

  /** Two runs that leave the same regions live leave the same heap. */
  lemma RunsForgetTheirOrder(a: seq<Call>, b: seq<Call>)
    requires Run(a).Some? && Run(b).Some?
    requires Live(Run(a).value) == Live(Run(b).value)
    ensures Run(a) == Run(b)
  {
    EveryRunIsWellFormed(a);
    EveryRunIsWellFormed(b);
    LayoutIsCanonical(Run(a).value, Run(b).value);
  }
}
