/** malloc, free and realloc of libc/src/malloc.cpp over the bytes between the first header
    and the break. */
module Malloc {
  import opened Bytes
  import opened MallocLayout
  import opened MallocMemory

  /** (n + 7) / 8 * 8 in 64-bit arithmetic. */
  function Align8(n: nat): nat { (n + 7) % P64 / 8 * 8 }

  /** Sizes that are not 0 and do not wrap are rounded up to words; no other is positive. */
  lemma Align8Is(n: nat)
    requires n < P64
    ensures Align8(n) > 0 <==> 0 < n && n + 7 < P64
    ensures n + 7 < P64 ==> Align8(n) == 8 * ((n + 7) / 8) && n <= Align8(n) < n + 8
  {
    if n + 7 >= P64 {
      assert (n + 7) % P64 == n + 7 - P64 < 8;
    }
  }

  // ------------------------------- what the writes of malloc and free amount to

  /** Headers and tags of the blocks left of `lo` and right of `hi` are read as before. */
  lemma BlockElsewhere(mem: seq<byte>, after: seq<byte>, lo: nat, hi: nat, blocks: seq<Block>, i: nat)
    requires i < |blocks| && HasHeader(mem, blocks, i) && SameOutside(mem, after, lo, hi)
    requires 8 * blocks[i].Next() <= |after|
    requires blocks[i].size > 0
    requires blocks[i].Next() <= lo || hi <= blocks[i].start
    ensures HasHeader(after, blocks, i)
    ensures HasTag(mem, blocks, i) ==> HasTag(after, blocks, i)
  {
    LoadElsewhere(mem, after, lo, hi, blocks[i].start);
    LoadElsewhere(mem, after, lo, hi, blocks[i].start + blocks[i].size);
  }

  /** A block appended where the end marker was. */
  lemma Grown(mem: seq<byte>, after: seq<byte>, blocks: seq<Block>, n: nat)
    requires WellFormed(blocks) && Represents(mem, blocks, |blocks|) && n > 0
    requires |after| == |mem| + 8 * (n + 1) <= P64
    requires SameOutside(mem, after, End(blocks), End(blocks) + n + 2)
    requires Load(after, End(blocks)) == Sealed(n, false, false)
    requires Load(after, End(blocks) + n + 1) == Sealed(0, false, false)
    ensures var grown := blocks + [Block(End(blocks), n, false)]; Represents(after, grown, |grown|)
  {
    hide Load;
    var grown := blocks + [Block(End(blocks), n, false)];
    forall i: nat | i < |grown|
      ensures HasHeader(after, grown, i) && (grown[i].free ==> HasTag(after, grown, i))
    {
      if i < |blocks| {
        assert HasHeader(mem, blocks, i);
        HeadersMonotone(blocks, i + 1, |blocks|);
        assert blocks[i].start == HeaderAt(blocks, i);
        BlockElsewhere(mem, after, End(blocks), End(blocks) + n + 2, blocks, i);
        assert HasHeader(after, blocks, i);
        if blocks[i].free {
          assert HasTag(mem, blocks, i);
          assert HasTag(after, blocks, i);
        }
      }
    }
  }

  /** The blocks i..j replaced by others that span as much. */
  function Spliced(blocks: seq<Block>, i: nat, j: nat, mid: seq<Block>): seq<Block>
    requires i <= j <= |blocks|
  {
    blocks[..i] + mid + blocks[j..]
  }

  /** `mid` may stand for the blocks i..j. */
  ghost predicate SameSpan(blocks: seq<Block>, i: nat, j: nat, mid: seq<Block>) {
    && i < j <= |blocks| && mid != []
    && (forall k | 0 <= k < |mid| :: mid[k].size > 0)
    && mid[0].start == HeaderAt(blocks, i) && mid[|mid| - 1].Next() == HeaderAt(blocks, j)
    && (forall k {:trigger HeaderAt(mid, k)} | 1 <= k < |mid| :: mid[k].start == HeaderAt(mid, k))
  }

  /** The header that follows the replaced blocks, that of a block or the end marker. */
  ghost predicate HasHeaderAfter(mem: seq<byte>, blocks: seq<Block>, i: nat)
    requires i <= |blocks|
  {
    if i < |blocks| then HasHeader(mem, blocks, i)
    else 8 * End(blocks) + 8 <= |mem| && Load(mem, End(blocks)) == Sealed(0, FreeBefore(blocks, i), false)
  }

  /** Writing only between the headers i and j, both included, replaces the blocks between. */
  lemma SpliceIsRepresented(mem: seq<byte>, after: seq<byte>, blocks: seq<Block>, u: nat,
                            i: nat, j: nat, mid: seq<Block>, v: nat)
    requires Tiled(blocks) && Represents(mem, blocks, u) && SameSpan(blocks, i, j, mid)
    requires u < |blocks| ==> i <= u < j
    requires |after| == |mem| && SameOutside(mem, after, HeaderAt(blocks, i), HeaderAt(blocks, j) + 1)
    requires forall k: nat | i <= k < i + |mid| ::
               && HasHeader(after, Spliced(blocks, i, j, mid), k)
               && (mid[k - i].free && k != v ==> HasTag(after, Spliced(blocks, i, j, mid), k))
    requires HasHeaderAfter(after, Spliced(blocks, i, j, mid), i + |mid|)
    ensures Tiled(Spliced(blocks, i, j, mid)) && End(Spliced(blocks, i, j, mid)) == End(blocks)
    ensures Represents(after, Spliced(blocks, i, j, mid), v)
  {
    hide Load, HasHeader, HasTag;
    var spliced := Spliced(blocks, i, j, mid);
    SpliceKeepsTiling(blocks, i, j, mid);
    forall k: nat | k < |spliced|
      ensures HasHeader(after, spliced, k) && (spliced[k].free && k != v ==> HasTag(after, spliced, k))
    {
      if k < i {
        LeftOfSplice(mem, after, blocks, u, i, j, mid, k);
      } else if k >= i + |mid| {
        var o := k - i - |mid| + j;
        assert spliced[k] == blocks[o];
        if o > j {
          RightOfSplice(mem, after, blocks, u, i, j, mid, o);
        } else if blocks[o].free {
          FirstRightOfSplice(mem, after, blocks, u, i, j, mid);
        }
      }
    }
    if j < |blocks| {
      HeadersMonotone(blocks, j + 1, |blocks|);
      assert blocks[j].start == HeaderAt(blocks, j) && blocks[j].size > 0;
      LoadElsewhere(mem, after, HeaderAt(blocks, i), HeaderAt(blocks, j) + 1, End(blocks));
      assert FreeBefore(spliced, |spliced|) == FreeBefore(blocks, |blocks|);
    }
  }

  /** The header behind the replaced blocks stands when it was not written and what is in front
      of it is as free as before. */
  lemma FollowerKept(mem: seq<byte>, after: seq<byte>, blocks: seq<Block>, u: nat, i: nat, j: nat, mid: seq<Block>)
    requires Tiled(blocks) && Represents(mem, blocks, u) && SameSpan(blocks, i, j, mid)
    requires |after| == |mem| && SameOutside(mem, after, HeaderAt(blocks, i), HeaderAt(blocks, j))
    requires mid[|mid| - 1].free == blocks[j - 1].free
    ensures HasHeaderAfter(after, Spliced(blocks, i, j, mid), i + |mid|)
    ensures SameOutside(mem, after, HeaderAt(blocks, i), HeaderAt(blocks, j) + 1)
  {
    hide Load;
    var spliced := Spliced(blocks, i, j, mid);
    LoadElsewhere(mem, after, HeaderAt(blocks, i), HeaderAt(blocks, j), HeaderAt(blocks, j)) by {
      HeadersMonotone(blocks, j, |blocks|);
    }
    assert spliced[i + |mid| - 1] == mid[|mid| - 1];
    if j < |blocks| {
      assert HasHeader(mem, blocks, j) && blocks[j].start == HeaderAt(blocks, j);
      assert spliced[i + |mid|] == blocks[j];
    } else {
      assert |spliced| == i + |mid|;
    }
  }

  lemma LeftOfSplice(mem: seq<byte>, after: seq<byte>, blocks: seq<Block>, u: nat,
                     i: nat, j: nat, mid: seq<Block>, k: nat)
    requires Tiled(blocks) && Represents(mem, blocks, u) && i <= j <= |blocks| && k < i
    requires u < |blocks| ==> i <= u < j
    requires |after| == |mem| && SameOutside(mem, after, HeaderAt(blocks, i), HeaderAt(blocks, j) + 1)
    ensures HasHeader(after, Spliced(blocks, i, j, mid), k)
    ensures blocks[k].free ==> HasTag(after, Spliced(blocks, i, j, mid), k)
  {
    hide Load;
    var spliced := Spliced(blocks, i, j, mid);
    assert HasHeader(mem, blocks, k);
    assert blocks[k].free ==> HasTag(mem, blocks, k);
    assert blocks[k].start == HeaderAt(blocks, k) && blocks[k].size > 0;
    HeadersMonotone(blocks, k + 1, i);
    BlockElsewhere(mem, after, HeaderAt(blocks, i), HeaderAt(blocks, j) + 1, blocks, k);
    assert spliced[k] == blocks[k] && FreeBefore(spliced, k) == FreeBefore(blocks, k);
  }

  lemma RightOfSplice(mem: seq<byte>, after: seq<byte>, blocks: seq<Block>, u: nat,
                      i: nat, j: nat, mid: seq<Block>, o: nat)
    requires Tiled(blocks) && Represents(mem, blocks, u) && i <= j < o < |blocks|
    requires u < |blocks| ==> i <= u < j
    requires |after| == |mem| && SameOutside(mem, after, HeaderAt(blocks, i), HeaderAt(blocks, j) + 1)
    ensures HasHeader(after, Spliced(blocks, i, j, mid), i + |mid| + o - j)
    ensures blocks[o].free ==> HasTag(after, Spliced(blocks, i, j, mid), i + |mid| + o - j)
  {
    hide Load;
    var spliced := Spliced(blocks, i, j, mid);
    assert HasHeader(mem, blocks, o);
    assert blocks[o].free ==> HasTag(mem, blocks, o);
    assert blocks[o].start == HeaderAt(blocks, o) && blocks[o].size > 0;
    HeadersGrow(blocks, j, o);
    BlockElsewhere(mem, after, HeaderAt(blocks, i), HeaderAt(blocks, j) + 1, blocks, o);
    assert spliced[i + |mid| + o - j] == blocks[o] && spliced[i + |mid| + o - j - 1] == blocks[o - 1];
  }

  /** The header right behind the splice may be written, its tag is not. */
  lemma FirstRightOfSplice(mem: seq<byte>, after: seq<byte>, blocks: seq<Block>, u: nat,
                           i: nat, j: nat, mid: seq<Block>)
    requires Tiled(blocks) && Represents(mem, blocks, u) && i <= j < |blocks| && blocks[j].free
    requires u < |blocks| ==> i <= u < j
    requires |after| == |mem| && SameOutside(mem, after, HeaderAt(blocks, i), HeaderAt(blocks, j) + 1)
    ensures HasTag(after, Spliced(blocks, i, j, mid), i + |mid|)
  {
    hide Load;
    assert HasHeader(mem, blocks, j) && HasTag(mem, blocks, j);
    assert blocks[j].start == HeaderAt(blocks, j) && blocks[j].size > 0;
    LoadElsewhere(mem, after, HeaderAt(blocks, i), HeaderAt(blocks, j) + 1, blocks[j].start + blocks[j].size);
    assert Spliced(blocks, i, j, mid)[i + |mid|] == blocks[j];
  }

  /** A free block has a block in use behind it. */
  lemma NextIsInUse(mem: seq<byte>, blocks: seq<Block>, k: nat)
    requires WellFormed(blocks) && Represents(mem, blocks, |blocks|) && k < |blocks| && blocks[k].free
    ensures k + 1 < |blocks| && blocks[k].start == HeaderAt(blocks, k) && 8 * blocks[k].Next() + 16 <= |mem| <= P64
    ensures Load(mem, blocks[k].start) == Sealed(blocks[k].size, FreeBefore(blocks, k), true)
    ensures Load(mem, blocks[k].Next()) == Sealed(blocks[k + 1].size, true, false)
  {
    assert HasHeader(mem, blocks, k) && blocks[k].start == HeaderAt(blocks, k);
    assert HasHeader(mem, blocks, k + 1) && blocks[k + 1].start == HeaderAt(blocks, k + 1);
  }

  lemma SplitIsRepresented(mem: seq<byte>, after: seq<byte>, blocks: seq<Block>, n: nat, k: nat)
    requires WellFormed(blocks) && Represents(mem, blocks, |blocks|)
    requires k < |blocks| && Fits(blocks[k], n) && n > 0 && blocks[k].size - n >= 2
    requires |after| == |mem| && 8 * blocks[k].Next() + 8 <= |mem|
    requires SameOutside(mem, after, blocks[k].start, blocks[k].Next() + 1)
    requires Load(after, blocks[k].start) == Sealed(n, FreeBefore(blocks, k), false)
    requires Load(after, blocks[k].start + n + 1) == Sealed(blocks[k].size - n - 1, false, true)
    requires Load(after, blocks[k].Next() - 1) == Sealed(blocks[k].size - n - 1, false, true)
    requires Load(after, blocks[k].Next()) == Load(mem, blocks[k].Next())
    ensures WellFormed(Carve(blocks, n, k)) && Represents(after, Carve(blocks, n, k), |Carve(blocks, n, k)|)
  {
    hide Load;
    var mid := Pieces(blocks[k], n);
    var spliced := Spliced(blocks, k, k + 1, mid);
    NextIsInUse(mem, blocks, k);
    CarveIsASplice(blocks, n, k);
    assert HasHeader(after, spliced, k);
    assert HasHeader(after, spliced, k + 1) && HasTag(after, spliced, k + 1);
    assert HasHeader(mem, blocks, k + 1) && blocks[k + 1].start == HeaderAt(blocks, k + 1);
    assert spliced[k + 2] == blocks[k + 1] && spliced[k + 1] == mid[1];
    assert HasHeader(after, spliced, k + 2);
    SpliceIsRepresented(mem, after, blocks, |blocks|, k, k + 1, mid, |spliced|);
    CarveKeepsOrder(blocks, n, k);
  }

  // ------------------------------------------------------------- live contents

  /** What the program sees: the bytes of each live region, by payload word. */
  function ContentsOf(mem: seq<byte>, blocks: seq<Block>): map<nat, seq<byte>>
    requires WellFormed(blocks) && |mem| == 8 * End(blocks) + 8
  {
    EndIsTight(blocks);
    map p | p in Live(blocks) :: mem[8 * p..8 * (p + Live(blocks)[p])]
  }

  /** Writes that stay inside free blocks and headers leave a live region alone. */
  lemma RegionKept(mem: seq<byte>, after: seq<byte>, lo: nat, hi: nat, p: nat, size: nat)
    requires SameOutside(mem, after, lo, hi) && (p + size <= lo || hi <= p)
    requires 8 * (p + size) <= |mem| && 8 * (p + size) <= |after|
    ensures after[8 * p..8 * (p + size)] == mem[8 * p..8 * (p + size)]
  {
  }

  /** A live region that none of the blocks i..j holds lies left of header i or behind header j. */
  lemma RegionsElsewhere(blocks: seq<Block>, i: nat, j: nat, p: nat)
    requires Tiled(blocks) && i <= j <= |blocks| && p in Live(blocks)
    requires forall k: nat | i <= k < j :: !Holds(blocks, k, p)
    ensures p + Live(blocks)[p] <= HeaderAt(blocks, i) || HeaderAt(blocks, j) + 1 <= p
  {
    var k := HolderOf(blocks, p);
    assert blocks[k].start == HeaderAt(blocks, k);
    if k < i {
      HeadersMonotone(blocks, k + 1, i);
    } else {
      HeadersMonotone(blocks, j, k);
    }
  }

  /** Writes between header i and header j change no live region but those of the blocks i..j. */
  lemma ContentsKept(mem: seq<byte>, blocks: seq<Block>, after: seq<byte>, blocks': seq<Block>, i: nat, j: nat, p: nat)
    requires WellFormed(blocks) && |mem| == 8 * End(blocks) + 8 && i <= j <= |blocks|
    requires WellFormed(blocks') && |after| == 8 * End(blocks') + 8
    requires SameOutside(mem, after, HeaderAt(blocks, i), HeaderAt(blocks, j) + 1)
    requires p in Live(blocks) && p in Live(blocks') && Live(blocks)[p] == Live(blocks')[p]
    requires forall k: nat | i <= k < j :: !Holds(blocks, k, p)
    ensures ContentsOf(after, blocks')[p] == ContentsOf(mem, blocks)[p]
  {
    RegionsElsewhere(blocks, i, j, p);
    EndIsTight(blocks);
    EndIsTight(blocks');
    RegionKept(mem, after, HeaderAt(blocks, i), HeaderAt(blocks, j) + 1, p, Live(blocks)[p]);
  }

  lemma SameOutsideTwice(a: seq<byte>, b: seq<byte>, c: seq<byte>, lo: nat, hi: nat)
    requires |a| <= |b| && SameOutside(a, b, lo, hi) && SameOutside(b, c, lo, hi)
    ensures SameOutside(a, c, lo, hi)
  {
  }

  lemma Widened(a: seq<byte>, b: seq<byte>, lo: nat, hi: nat, lo': nat, hi': nat)
    requires SameOutside(a, b, lo, hi) && lo' <= lo && hi <= hi'
    ensures SameOutside(a, b, lo', hi')
  {
  }

  /** Adding a region of at least n words changes no other. */
  lemma MallocKeepsContents(mem: seq<byte>, blocks: seq<Block>, after: seq<byte>, n: nat)
    requires WellFormed(blocks) && |mem| == 8 * End(blocks) + 8 && n > 0
    requires |after| == 8 * End(Allocated(blocks, n)) + 8
    requires var k := FirstFit(blocks, n, 0);
             SameOutside(mem, after, HeaderAt(blocks, k), HeaderAt(blocks, if k < |blocks| then k + 1 else k) + 1)
    ensures WellFormed(Allocated(blocks, n))
    ensures var p, was, now := Answer(blocks, n), ContentsOf(mem, blocks), ContentsOf(after, Allocated(blocks, n));
            && p !in was && p in now && |now[p]| == 8 * Granted(blocks, n) && now == was[p := now[p]]
  {
    hide *;
    AllocatedAddsARegion(blocks, n);
    var k := FirstFit(blocks, n, 0);
    var j := if k < |blocks| then k + 1 else k;
    var p, bs := Answer(blocks, n), Allocated(blocks, n);
    var was, now := ContentsOf(mem, blocks), ContentsOf(after, bs);
    KeysAreLive(mem, blocks);
    KeysAreLive(after, bs);
    forall q | q in was
      ensures now[q] == was[q]
    {
      assert forall i: nat | k <= i < j :: !Holds(blocks, i, q) by { FittingBlockHoldsNothing(blocks, n, q); }
      ContentsKept(mem, blocks, after, bs, k, j, q);
    }
    assert now == was[p := now[p]];
  }

  lemma KeysAreLive(mem: seq<byte>, blocks: seq<Block>)
    requires WellFormed(blocks) && |mem| == 8 * End(blocks) + 8
    ensures ContentsOf(mem, blocks).Keys == Live(blocks).Keys
    ensures forall p | p in Live(blocks) :: |ContentsOf(mem, blocks)[p]| == 8 * Live(blocks)[p]
  {
    EndIsTight(blocks);
  }

  lemma FittingBlockHoldsNothing(blocks: seq<Block>, n: nat, p: nat)
    ensures FirstFit(blocks, n, 0) < |blocks| ==> !Holds(blocks, FirstFit(blocks, n, 0), p)
  {
  }

  class Heap {
    var mem: seq<byte>  // from the first header to the break
    ghost var blocks: seq<Block>

    ghost predicate Valid()
      reads this
    {
      WellFormed(blocks) && Represents(mem, blocks, |blocks|)
    }

    ghost function Contents(): map<nat, seq<byte>>
      reads this
      requires Valid()
    {
      ContentsOf(mem, blocks)
    }

    /** The break is 8 bytes past the end of the highest live region, whatever was freed in whatever
        order; with nothing live it is where it was after __initmalloc. */
    lemma BreakIsTight()
      requires Valid()
      ensures Live(blocks) == map[] ==> |mem| == 8
      ensures Live(blocks) != map[] ==> exists p :: p in Live(blocks) && |mem| == 8 * (p + Live(blocks)[p]) + 8
      ensures forall p | p in Live(blocks) :: 8 * (p + Live(blocks)[p]) + 8 <= |mem|
    {
      SizeIsEnd(mem, blocks);
      EndIsTight(blocks);
    }

    /** __initmalloc: an end marker and nothing else. */
    constructor ()
      ensures Valid() && blocks == [] && |mem| == 8
    {
      mem := [];
      blocks := [];
      new;
      Grow(1);
      Put(0, Sealed(0, false, false));
    }

    /** sbrk with a positive offset: the new bytes hold anything. */
    method Grow(words: nat)
      modifies this`mem
      ensures |mem| == old(|mem|) + 8 * words && mem[..old(|mem|)] == old(mem)
    {
      assert |seq<byte>(8 * words, _ => 0)| == 8 * words;
      var more: seq<byte> :| |more| == 8 * words;
      mem := mem + more;
    }

    method Put(w: nat, h: Header)
      requires 8 * w + 8 <= |mem| && h.size < P61
      modifies this`mem
      ensures |mem| == old(|mem|) && Load(mem, w) == h && SameOutside(old(mem), mem, w, w + 1)
    {
      LoadStored(mem, w, h);
      mem := Store(mem, w, h);
    }

    /** The end of the list is reached: turn the end marker into a block of n words. */
    method Append(head: nat, n: nat)
      requires Valid() && head == End(blocks) && n > 0 && |mem| + 8 * (n + 1) <= P64
      modifies this
      ensures Valid() && blocks == old(blocks) + [Block(head, n, false)]
      ensures |mem| == old(|mem|) + 8 * (n + 1) && SameOutside(old(mem), mem, head, head + 1)
    {
      hide Load, Store;
      ghost var m0 := mem;
      Grow(n + 1);
      ghost var m1 := mem;
      assert SameOutside(m0, m1, head, head + 1);
      LoadElsewhere(m0, m1, head + 1, head + 1, head);
      Put(head, Load(mem, head).(size := n).SetFree(false));
      ghost var m2 := mem;
      var nextHead := head + n + 1;
      Put(nextHead, Load(mem, nextHead).(size := 0, prevFree := false, free := false).Update());
      LoadElsewhere(m2, mem, nextHead, nextHead + 1, head);
      Grown(m0, mem, blocks, n);
      AppendKeepsOrder(blocks, n);
      blocks := blocks + [Block(head, n, false)];
    }

    /** A free block that fits but is too small to cut: all of it goes to the program. */
    method TakeWhole(head: nat, n: nat, ghost k: nat)
      requires Valid() && k < |blocks| && head == HeaderAt(blocks, k) && Fits(blocks[k], n) && n > 0
      requires blocks[k].size - n < 2
      modifies this
      ensures Valid() && blocks == Carve(old(blocks), n, k)
      ensures |mem| == old(|mem|) && SameOutside(old(mem), mem, head, old(blocks)[k].Next() + 1)
    {
      hide Load, Store;
      ghost var m0, bs, b := mem, blocks, blocks[k];
      assert HasHeader(m0, bs, k) && b.start == head;
      assert HasHeader(m0, bs, k + 1) && bs[k + 1].start == HeaderAt(bs, k + 1);
      Put(head, Load(mem, head).SetFree(false));
      ghost var m1 := mem;
      var next := head + Load(mem, head).size + 1;
      LoadElsewhere(m0, m1, head, head + 1, next);
      Put(next, Load(mem, next).SetPFree(false));
      LoadElsewhere(m1, mem, next, next + 1, head);
      ghost var mid := Pieces(b, n);
      ghost var spliced := Spliced(bs, k, k + 1, mid);
      CarveIsASplice(bs, n, k);
      assert HasHeader(mem, spliced, k);
      assert HasHeader(mem, spliced, k + 1);
      SpliceIsRepresented(m0, mem, bs, |bs|, k, k + 1, mid, |spliced|);
      CarveKeepsOrder(bs, n, k);
      blocks := Carve(blocks, n, k);
    }

    /** A free block that leaves two words or more: cut it in two. */
    method Split(head: nat, n: nat, ghost k: nat)
      requires Valid() && k < |blocks| && head == HeaderAt(blocks, k) && Fits(blocks[k], n) && n > 0
      requires blocks[k].size - n >= 2
      modifies this
      ensures Valid() && blocks == Carve(old(blocks), n, k)
      ensures |mem| == old(|mem|) && SameOutside(old(mem), mem, head, old(blocks)[k].Next() + 1)
    {
      hide Load, Store;
      ghost var m0, bs, b := mem, blocks, blocks[k];
      NextIsInUse(m0, bs, k);
      hide Represents, WellFormed, HasHeader, HasTag, Carve;
      Put(head, Load(mem, head).SetFree(false));
      var oldSize := Load(mem, head).size;
      Put(head, Load(mem, head).(size := n));
      ghost var m1 := mem;
      var nxtHead := head + n + 1;
      Put(nxtHead, Load(mem, nxtHead).(size := oldSize - n - 1, free := true, prevFree := false).Update());
      ghost var m2 := mem;
      var tag := nxtHead + Load(mem, nxtHead).size;
      Put(tag, Load(mem, nxtHead));
      ghost var m3 := mem;
      LoadElsewhere(m2, m3, tag, tag + 1, nxtHead);
      Put(nxtHead, Load(mem, nxtHead).SetPFree(false));
      LoadElsewhere(m3, mem, nxtHead, nxtHead + 1, tag);
      LoadElsewhere(m1, mem, nxtHead, b.Next(), head);
      LoadElsewhere(m0, mem, head, b.Next(), b.Next());
      SplitIsRepresented(m0, mem, bs, n, k);
      blocks := Carve(blocks, n, k);
    }

    /** The free block at head is taken: cut in two if that leaves enough. */
    method Take(head: nat, n: nat, ghost k: nat)
      requires Valid() && k < |blocks| && head == HeaderAt(blocks, k) && Fits(blocks[k], n) && n > 0
      modifies this
      ensures Valid() && blocks == Carve(old(blocks), n, k)
      ensures |mem| == old(|mem|) && SameOutside(old(mem), mem, head, HeaderAt(old(blocks), k + 1) + 1)
    {
      hide Load, HasHeader, HasTag, Carve;
      HeaderIsRead(mem, blocks, k);
      if Load(mem, head).size - n >= 2 {
        Split(head, n, k);
      } else {
        TakeWhole(head, n, k);
      }
    }

    /** The walk from the first header on: the first free block that is large enough is taken, or else
        a new one put at the end. */
    method Place(n: nat) returns (head: nat)
      requires Valid() && n > 0
      requires (exists j :: 0 <= j < |blocks| && Fits(blocks[j], n)) || |mem| + 8 * (n + 1) <= P64
      modifies this
      ensures Valid() && blocks == Allocated(old(blocks), n) && head + 1 == Answer(old(blocks), n)
      ensures var k := FirstFit(old(blocks), n, 0);
        && SameOutside(old(mem), mem, HeaderAt(old(blocks), k),
                       HeaderAt(old(blocks), if k < |old(blocks)| then k + 1 else k) + 1)
    {
      hide Load, HasHeader, HasTag, WellFormed, Carve, Allocated, Answer, FirstFit, Represents;
      head := 0;
      ghost var k := 0;
      ghost var m0, bs := mem, blocks;
      while true
        invariant mem == m0 && blocks == bs && k <= |bs| && head == HeaderAt(bs, k)
        invariant forall j | 0 <= j < k :: !Fits(bs[j], n)
        decreases |bs| - k
      {
        HeaderIsRead(mem, bs, k);
        assert Load(mem, head).SeemsValid();
        if Load(mem, head).size == 0 {
          Append(head, n);
          break;
        }
        if Load(mem, head).free && Load(mem, head).size >= n {
          Take(head, n, k);
          break;
        }
        head := head + Load(mem, head).size + 1;
        k := k + 1;
      }
      FirstFitIs(bs, n, k);
    }

    /** malloc: the first free block with room for the bytes, from the first header on; if there is
        none, and only then, the break moves, by the words asked for and a header. */
    method Malloc(bytes: nat) returns (address: nat)
      requires Valid() && 0 < bytes && bytes + 7 < P64
      requires (exists j :: 0 <= j < |blocks| && blocks[j].free && 8 * blocks[j].size >= bytes)
               || |mem| + 8 * ((bytes + 7) / 8) + 8 <= P64
      modifies this
      ensures Valid() && address % 8 == 0
      ensures blocks == Allocated(old(blocks), Align8(bytes) / 8)
      ensures address / 8 == Answer(old(blocks), Align8(bytes) / 8)
      ensures address / 8 !in old(Contents()) && address / 8 in Contents()
      ensures bytes <= |Contents()[address / 8]| < bytes + 16
      ensures forall k: nat | k < |old(blocks)| && old(blocks)[k].free && 8 * old(blocks)[k].size >= bytes ::
        && |mem| == old(|mem|)
        && ((forall j | 0 <= j < k :: !(old(blocks)[j].free && 8 * old(blocks)[j].size >= bytes)) ==>
             address == 8 * (old(blocks)[k].start + 1))
      ensures (forall j | 0 <= j < |old(blocks)| :: !(old(blocks)[j].free && 8 * old(blocks)[j].size >= bytes)) ==>
        && address == old(|mem|) && |mem| == old(|mem|) + 8 * ((bytes + 7) / 8) + 8
        && |Contents()[address / 8]| == 8 * ((bytes + 7) / 8)
      ensures Contents() == old(Contents())[address / 8 := Contents()[address / 8]]
    {
      hide Load, HasHeader, HasTag, WellFormed, Live, Carve, ContentsOf, Allocated, Answer, Granted, FirstFit, Align8,
        Represents, SameOutside, HeaderAt, End;
      Align8Is(bytes);
      var n := Align8(bytes) / 8;
      ghost var m0, bs := mem, blocks;
      FitsInBytes(bs, bytes);
      SizeIsEnd(m0, bs);
      var head := Place(n);
      SizeIsEnd(mem, blocks);
      MallocKeepsContents(m0, bs, mem, n);
      InBytes(bs, bytes);
      address := 8 * (head + 1);
    }

    /** Block i and the flag in the header behind it; its tag is not written yet. */
    method MarkFree(head: nat, ghost i: nat)
      requires Valid() && i < |blocks| && head == HeaderAt(blocks, i) && !blocks[i].free
      modifies this
      ensures blocks == old(blocks)[i := old(blocks)[i].(free := true)]
      ensures Tiled(blocks) && Represents(mem, blocks, i) && End(blocks) == End(old(blocks))
      ensures SameOutside(old(mem), mem, head, old(blocks)[i].Next() + 1)
    {
      hide Load, Store;
      ghost var m0, bs := mem, blocks;
      HeaderIsRead(m0, bs, i);
      HeaderIsRead(m0, bs, i + 1);
      assert bs[i].start == HeaderAt(bs, i);
      Put(head, Load(mem, head).SetFree(true));
      ghost var m1 := mem;
      var next := head + Load(mem, head).size + 1;
      LoadElsewhere(m0, m1, head, head + 1, next);
      Put(next, Load(mem, next).SetPFree(true));
      LoadElsewhere(m1, mem, next, next + 1, head);
      ghost var mid := [bs[i].(free := true)];
      ghost var spliced := Spliced(bs, i, i + 1, mid);
      assert spliced == bs[i := bs[i].(free := true)];
      assert HasHeader(mem, spliced, i);
      if i + 1 < |bs| {
        assert bs[i + 1].start == HeaderAt(bs, i + 1);
        assert HasHeader(m0, bs, i + 1);
        assert HasHeader(mem, spliced, i + 1);
      } else {
        assert End(spliced) == next;
      }
      SpliceIsRepresented(m0, mem, bs, |bs|, i, i + 1, mid, i);
      blocks := spliced;
    }

    /** Merge block i with the one behind it when that is free. */
    method MergeNext(head: nat, ghost i: nat)
      requires Tiled(blocks) && Represents(mem, blocks, i)
      requires i < |blocks| && head == HeaderAt(blocks, i) && blocks[i].free
      modifies this
      ensures blocks == JoinNext(old(blocks), i) && blocks[i].free && head == HeaderAt(blocks, i)
      ensures Tiled(blocks) && Represents(mem, blocks, i) && End(blocks) == End(old(blocks))
      ensures SameOutside(old(mem), mem, head, head + 1)
    {
      hide Load, Store;
      ghost var m0, bs := mem, blocks;
      assert HasHeader(m0, bs, i) && bs[i].start == HeaderAt(bs, i);
      var nxtHead := head + Load(mem, head).size + 1;
      NextHeaderIsRead(m0, bs, i);
      if Load(mem, nxtHead).size != 0 && Load(mem, nxtHead).free {
        HeadersMonotone(bs, i + 2, |bs|);
        Put(head, Load(mem, head).(size := Load(mem, head).size + Load(mem, nxtHead).size + 1));
        ghost var mid := [Block(bs[i].start, bs[i].size + bs[i + 1].size + 1, true)];
        ghost var joined := Join(bs, i);
        assert joined == Spliced(bs, i, i + 2, mid);
        assert HasHeader(mem, joined, i);
        FollowerKept(m0, mem, bs, i, i, i + 2, mid);
        SpliceIsRepresented(m0, mem, bs, i, i, i + 2, mid, i);
        blocks := joined;
      }
    }

    /** Merge block i with the one in front of it when that is free, and write the tag. */
    method MergePrevious(head: nat, ghost i: nat) returns (merged: nat, ghost j: nat)
      requires Tiled(blocks) && Represents(mem, blocks, i) && CoalescedBut(blocks, i)
      requires i < |blocks| && head == HeaderAt(blocks, i) && blocks[i].free
      modifies this
      ensures blocks == JoinPrevious(old(blocks), i)
      ensures j < |blocks| && merged == HeaderAt(blocks, j) && blocks[j].free
      ensures j == if FreeBefore(old(blocks), i) then i - 1 else i
      ensures Tiled(blocks) && Represents(mem, blocks, |blocks|) && End(blocks) == End(old(blocks))
      ensures merged == HeaderAt(old(blocks), j)
      ensures SameOutside(old(mem), mem, merged, HeaderAt(old(blocks), i + 1))
    {
      hide Load, Store;
      ghost var m0, bs := mem, blocks;
      assert HasHeader(m0, bs, i) && bs[i].start == HeaderAt(bs, i);
      assert HeaderAt(bs, i + 1) == bs[i].Next();
      if Load(mem, head).prevFree {
        assert HasHeader(m0, bs, i - 1) && HasTag(m0, bs, i - 1) && bs[i - 1].start == HeaderAt(bs, i - 1);
        var boundTag := head - 1;
        assert Load(mem, boundTag).SeemsValid();
        var prevHead := boundTag - Load(mem, boundTag).size;
        Put(prevHead, Load(mem, prevHead).(size := Load(mem, prevHead).size + Load(mem, head).size + 1));
        ghost var m1 := mem;
        var tag := prevHead + Load(mem, prevHead).size;
        Put(tag, Load(mem, prevHead));
        LoadElsewhere(m1, mem, tag, tag + 1, prevHead);
        JoinedIsRepresented(m0, mem, bs, i - 1);
        blocks := Join(bs, i - 1);
        merged, j := prevHead, i - 1;
      } else {
        var tag := head + Load(mem, head).size;
        Put(tag, Load(mem, head));
        LoadElsewhere(m0, mem, tag, tag + 1, head);
        TaggedIsRepresented(m0, mem, bs, i);
        merged, j := head, i;
      }
    }

    /** A free block in front of the end marker becomes the end marker; its bytes go back to sbrk. */
    method Release(head: nat, ghost j: nat)
      requires Tiled(blocks) && Represents(mem, blocks, |blocks|)
      requires j < |blocks| && head == HeaderAt(blocks, j) && blocks[j].free
      requires forall k | 0 <= k < |blocks| && k != j && blocks[k].free :: k + 1 < |blocks| && !blocks[k + 1].free
      requires j + 1 < |blocks| ==> !blocks[j + 1].free
      modifies this
      ensures Valid() && blocks == Trim(old(blocks))
      ensures SameOutside(old(mem), mem, head, head + 1)
    {
      hide Load, Store;
      ghost var m0, bs := mem, blocks;
      assert HasHeader(m0, bs, j) && bs[j].start == HeaderAt(bs, j);
      var next := head + Load(mem, head).size + 1;
      if j + 1 < |bs| {
        assert HasHeader(m0, bs, j + 1) && bs[j + 1].start == HeaderAt(bs, j + 1);
      }
      if Load(mem, next).size == 0 {
        Put(head, Load(mem, head).(free := false, prevFree := false).Update());
        ghost var m1 := mem;
        mem := mem[..|mem| - 8 * (Load(mem, head).size + 1)];
        LoadElsewhere(m1, mem, 0, 0, head);
        Put(head, Load(mem, head).(size := 0));
        TrimmedIsRepresented(m0, mem, bs);
        TrimKeepsLive(bs);
        blocks := Trim(bs);
      }
    }

    /** The steps of free, on block i. */
    method FreeBlock(head: nat, ghost i: nat)
      requires Valid() && i < |blocks| && head == HeaderAt(blocks, i) && !blocks[i].free
      modifies this
      ensures Valid() && blocks == Released(old(blocks), i)
      ensures SameOutside(old(mem), mem, HeaderAt(old(blocks), FirstTouched(old(blocks), i)),
                          HeaderAt(old(blocks), LastTouched(old(blocks), i)) + 1)
    {
      hide Load, HasHeader, HasTag, Tiled, Coalesced, CoalescedBut, SameOutside, Join, Trim;
      ghost var m0, bs := mem, blocks;
      FreedSpan(bs, i);
      ghost var lo, hi := HeaderAt(bs, FirstTouched(bs, i)), HeaderAt(bs, LastTouched(bs, i)) + 1;
      MarkFree(head, i);
      MarkedIsCoalescedElsewhere(bs, i);
      ghost var b1, m1 := blocks, mem;
      Widened(m0, m1, head, bs[i].Next() + 1, lo, hi);
      MergeNext(head, i);
      NextJoined(b1, i);
      ghost var b2, m2 := blocks, mem;
      Widened(m1, m2, head, head + 1, lo, hi);
      var merged: nat;
      ghost var j: nat;
      merged, j := MergePrevious(head, i);
      OnlyOneFree(b2, i);
      ghost var m3 := mem;
      Widened(m2, m3, merged, HeaderAt(b2, i + 1), lo, hi);
      Release(merged, j);
      Widened(m3, mem, merged, merged + 1, lo, hi);
      SameOutsideInFourSteps(m0, m1, m2, m3, mem, lo, hi);
    }

    /** free: afterwards the region is gone, every other is as it was, and the heap ends right
        behind its highest live region. */
    method Free(ptr: nat)
      requires Valid()
      requires ptr != 0 ==> ptr % 8 == 0 && ptr / 8 in Live(blocks)
      modifies this
      ensures Valid()
      ensures ptr == 0 ==> mem == old(mem) && blocks == old(blocks)
      ensures ptr != 0 ==> Contents() == old(Contents()) - {ptr / 8}
      ensures |mem| <= old(|mem|)
    {
      hide Load, HasHeader, HasTag, Live, ContentsOf, Released, WellFormed, SameOutside;
      if ptr == 0 {
        return;
      }
      var head := ptr / 8 - 1;
      ghost var m0, bs := mem, blocks;
      ghost var i := BlockOf(bs, ptr / 8, 0);
      LiveHasABlock(bs, ptr / 8);
      HeaderIsRead(m0, bs, i);
      assert Load(mem, head).SeemsValid() && !Load(mem, head).free;
      FreeBlock(head, i);
      FreeKeepsContents(m0, bs, mem, i);
    }

    /** The program, or memcpy, writes bytes of a live region: headers, tags and the other regions
        stay as they are. */
    method Write(p: nat, offset: nat, data: seq<byte>)
      requires Valid() && p in Contents() && offset + |data| <= |Contents()[p]|
      modifies this`mem
      ensures Valid() && |mem| == old(|mem|)
      ensures Contents() == old(Contents())[p := Overwritten(old(Contents())[p], offset, data)]
    {
      hide Load, HasHeader, HasTag, Tiled, Coalesced, Live, SameOutside;
      ghost var m0 := mem;
      KeysAreLive(mem, blocks);
      EndIsTight(blocks);
      mem := Overwritten(mem, 8 * p + offset, data);
      WriteIsRepresented(m0, mem, blocks, p, offset, data);
    }

    /** realloc: the bytes both sizes have room for move to the new region, and the old one is freed. */
    method Realloc(ptr: nat, size: nat) returns (address: nat)
      requires Valid()
      requires ptr != 0 ==> ptr % 8 == 0 && ptr / 8 in Contents()
      requires size + 7 < P64
      requires size != 0 ==> || (exists j :: 0 <= j < |blocks| && blocks[j].free && 8 * blocks[j].size >= size)
                             || |mem| + 8 * ((size + 7) / 8) + 8 <= P64
      modifies this
      ensures Valid() && address % 8 == 0
      ensures size == 0 ==>
        address == 0 && Contents() == if ptr == 0 then old(Contents()) else old(Contents()) - {ptr / 8}
      ensures size != 0 ==> address / 8 !in old(Contents()) && address / 8 in Contents()
                            && size <= |Contents()[address / 8]| < size + 16
      ensures size != 0 ==> Contents() == (if ptr == 0 then old(Contents()) else old(Contents()) - {ptr / 8})
                                          [address / 8 := Contents()[address / 8]]
      ensures size != 0 && ptr != 0 ==>
                var toCopy := if size > |old(Contents())[ptr / 8]| then |old(Contents())[ptr / 8]| else size;
                && toCopy <= |Contents()[address / 8]|
                && Contents()[address / 8][..toCopy] == old(Contents())[ptr / 8][..toCopy]
    {
      hide Load, Represents, Live, ContentsOf, WellFormed, Allocated, Answer, Align8, Fits;
      ghost var was := Contents();
      if size == 0 {
        if ptr != 0 {
          KeysAreLive(mem, blocks) by { SizeIsEnd(mem, blocks); }
          Free(ptr);
        }
        return 0;
      }
      address := Malloc(size);
      if ptr != 0 {
        ghost var given := Contents()[address / 8];
        MoveAndFree(ptr, address, size);
        MovedRegion(was, ptr / 8, address / 8, given, Contents()[address / 8]);
      }
    }

    /** memcpy(address, ptr, toCopy) and free(ptr). */
    method MoveAndFree(ptr: nat, address: nat, size: nat)
      requires Valid() && ptr != 0 && ptr % 8 == 0 && address % 8 == 0 && ptr != address
      requires ptr / 8 in Contents() && address / 8 in Contents() && size <= |Contents()[address / 8]|
      modifies this
      ensures Valid()
      ensures var was := old(Contents());
              var toCopy := if size > |was[ptr / 8]| then |was[ptr / 8]| else size;
              Contents() == (was - {ptr / 8})[address / 8 := Overwritten(was[address / 8], 0, was[ptr / 8][..toCopy])]
    {
      hide Load, Represents, Live, ContentsOf, WellFormed;
      var oldSize := OldSize(ptr);
      var toCopy := if size > oldSize then oldSize else size;
      CopiedBytes(mem, blocks, ptr / 8, toCopy) by { SizeIsEnd(mem, blocks); }
      Write(address / 8, 0, mem[ptr..ptr + toCopy]);
      KeysAreLive(mem, blocks) by { SizeIsEnd(mem, blocks); }
      Free(ptr);
    }

    /** ptrToHeader(ptr)->getSize(), in bytes. */
    method OldSize(ptr: nat) returns (size: nat)
      requires Valid() && ptr % 8 == 0 && ptr / 8 in Contents()
      ensures size == |Contents()[ptr / 8]| && ptr + size <= |mem|
    {
      hide Load, HasHeader, HasTag, Live, ContentsOf, Tiled, Coalesced;
      ghost var i := BlockOf(blocks, ptr / 8, 0);
      KeysAreLive(mem, blocks);
      LiveHasABlock(blocks, ptr / 8);
      LiveAt(blocks, i);
      HeaderIsRead(mem, blocks, i);
      EndIsTight(blocks);
      size := 8 * Load(mem, ptr / 8 - 1).size;
    }
  }

  lemma MovedRegion(was: map<nat, seq<byte>>, p: nat, q: nat, first: seq<byte>, second: seq<byte>)
    requires p in was && p != q
    ensures (was[q := first] - {p})[q := second] == (was - {p})[q := second]
  {
  }

  lemma SizeIsEnd(mem: seq<byte>, blocks: seq<Block>)
    requires Represents(mem, blocks, |blocks|)
    ensures |mem| == 8 * End(blocks) + 8
  {
  }

  lemma CopiedBytes(mem: seq<byte>, blocks: seq<Block>, p: nat, n: nat)
    requires WellFormed(blocks) && |mem| == 8 * End(blocks) + 8
    requires p in ContentsOf(mem, blocks) && n <= |ContentsOf(mem, blocks)[p]|
    ensures 8 * p + n <= |mem| && mem[8 * p..8 * p + n] == ContentsOf(mem, blocks)[p][..n]
  {
    EndIsTight(blocks);
  }

  lemma WriteIsRepresented(mem: seq<byte>, after: seq<byte>, blocks: seq<Block>, p: nat, offset: nat, data: seq<byte>)
    requires WellFormed(blocks) && Represents(mem, blocks, |blocks|)
    requires p in Live(blocks) && offset + |data| <= 8 * Live(blocks)[p] && 8 * p + offset + |data| <= |mem|
    requires after == Overwritten(mem, 8 * p + offset, data)
    ensures Represents(after, blocks, |blocks|)
    ensures ContentsOf(mem, blocks).Keys == Live(blocks).Keys && |ContentsOf(mem, blocks)[p]| == 8 * Live(blocks)[p]
    ensures ContentsOf(after, blocks)
         == ContentsOf(mem, blocks)[p := Overwritten(ContentsOf(mem, blocks)[p], offset, data)]
  {
    hide Load;
    var k := HolderOf(blocks, p);
    var hi := p + Live(blocks)[p];
    assert SameOutside(mem, after, p, hi);
    forall i: nat | i < |blocks|
      ensures HasHeader(after, blocks, i) && (blocks[i].free ==> HasTag(after, blocks, i))
    {
      PayloadWriteKeepsBlock(mem, after, blocks, k, i);
    }
    HeadersMonotone(blocks, k + 1, |blocks|);
    LoadElsewhere(mem, after, p, hi, End(blocks));
    WriteChangesOneRegion(mem, after, blocks, p, offset, data);
  }

  lemma PayloadWriteKeepsBlock(mem: seq<byte>, after: seq<byte>, blocks: seq<Block>, k: nat, i: nat)
    requires Tiled(blocks) && Represents(mem, blocks, |blocks|)
    requires k < |blocks| && !blocks[k].free && i < |blocks| && |after| == |mem|
    requires SameOutside(mem, after, blocks[k].start + 1, blocks[k].Next())
    ensures HasHeader(after, blocks, i) && (blocks[i].free ==> HasTag(after, blocks, i))
  {
    hide Load;
    assert HasHeader(mem, blocks, i) && (blocks[i].free ==> HasTag(mem, blocks, i));
    assert blocks[i].start == HeaderAt(blocks, i) && blocks[k].start == HeaderAt(blocks, k) && blocks[i].size > 0;
    if i == k {
      LoadElsewhere(mem, after, blocks[k].start + 1, blocks[k].Next(), blocks[k].start);
    } else {
      if i < k {
        BlocksAreDisjoint(blocks, i, k);
      } else {
        BlocksAreDisjoint(blocks, k, i);
      }
      BlockElsewhere(mem, after, blocks[k].start + 1, blocks[k].Next(), blocks, i);
    }
  }

  lemma WriteChangesOneRegion(mem: seq<byte>, after: seq<byte>, blocks: seq<Block>, p: nat, offset: nat,
                              data: seq<byte>)
    requires WellFormed(blocks) && |mem| == 8 * End(blocks) + 8
    requires p in Live(blocks) && offset + |data| <= 8 * Live(blocks)[p] && 8 * p + offset + |data| <= |mem|
    requires after == Overwritten(mem, 8 * p + offset, data)
    ensures ContentsOf(mem, blocks).Keys == Live(blocks).Keys && |ContentsOf(mem, blocks)[p]| == 8 * Live(blocks)[p]
    ensures ContentsOf(after, blocks)
         == ContentsOf(mem, blocks)[p := Overwritten(ContentsOf(mem, blocks)[p], offset, data)]
  {
    hide Live, Tiled, Coalesced, ContentsOf;
    KeysAreLive(mem, blocks);
    KeysAreLive(after, blocks);
    var was, now := ContentsOf(mem, blocks), ContentsOf(after, blocks);
    forall q | q in was && q != p
      ensures now[q] == was[q]
    {
      OtherRegionKept(mem, after, blocks, p, q);
    }
    OwnRegionWritten(mem, after, blocks, p, offset, data);
    assert now == was[p := Overwritten(was[p], offset, data)];
  }

  lemma OtherRegionKept(mem: seq<byte>, after: seq<byte>, blocks: seq<Block>, p: nat, q: nat)
    requires WellFormed(blocks) && |after| == |mem| == 8 * End(blocks) + 8
    requires p in Live(blocks) && q in Live(blocks) && p != q && SameOutside(mem, after, p, p + Live(blocks)[p])
    ensures ContentsOf(after, blocks)[q] == ContentsOf(mem, blocks)[q]
  {
    hide Live, Tiled, Coalesced;
    EndIsTight(blocks);
    if q < p {
      LiveRegionsAreDisjoint(blocks, q, p);
    } else {
      LiveRegionsAreDisjoint(blocks, p, q);
    }
    RegionKept(mem, after, p, p + Live(blocks)[p], q, Live(blocks)[q]);
  }

  lemma OwnRegionWritten(mem: seq<byte>, after: seq<byte>, blocks: seq<Block>, p: nat, offset: nat, data: seq<byte>)
    requires WellFormed(blocks) && |mem| == 8 * End(blocks) + 8
    requires p in Live(blocks) && offset + |data| <= 8 * Live(blocks)[p] && 8 * p + offset + |data| <= |mem|
    requires after == Overwritten(mem, 8 * p + offset, data)
    ensures |ContentsOf(mem, blocks)[p]| == 8 * Live(blocks)[p]
    ensures ContentsOf(after, blocks)[p] == Overwritten(ContentsOf(mem, blocks)[p], offset, data)
  {
    hide Live, Tiled, Coalesced;
    EndIsTight(blocks);
  }

  lemma JoinedIsRepresented(mem: seq<byte>, after: seq<byte>, blocks: seq<Block>, k: nat)
    requires Tiled(blocks) && k + 1 < |blocks| && blocks[k].free && blocks[k + 1].free && !FreeBefore(blocks, k)
    requires Represents(mem, blocks, k + 1)
    requires |after| == |mem| && SameOutside(mem, after, HeaderAt(blocks, k), HeaderAt(blocks, k + 2))
    requires var size := blocks[k].size + blocks[k + 1].size + 1;
             && 8 * (HeaderAt(blocks, k) + size) + 8 <= |mem|
             && Load(after, HeaderAt(blocks, k)) == Sealed(size, false, true)
             && Load(after, HeaderAt(blocks, k) + size) == Sealed(size, false, true)
    ensures Tiled(Join(blocks, k)) && End(Join(blocks, k)) == End(blocks)
    ensures Represents(after, Join(blocks, k), |Join(blocks, k)|)
    ensures HeaderAt(Join(blocks, k), k) == HeaderAt(blocks, k)
  {
    hide Load;
    var mid := [Block(blocks[k].start, blocks[k].size + blocks[k + 1].size + 1, true)];
    var joined := Join(blocks, k);
    assert blocks[k].start == HeaderAt(blocks, k) && blocks[k + 1].start == HeaderAt(blocks, k + 1);
    assert joined == Spliced(blocks, k, k + 2, mid);
    assert HasHeader(after, joined, k) && HasTag(after, joined, k);
    FollowerKept(mem, after, blocks, k + 1, k, k + 2, mid);
    SpliceIsRepresented(mem, after, blocks, k + 1, k, k + 2, mid, |joined|);
  }

  lemma TaggedIsRepresented(mem: seq<byte>, after: seq<byte>, blocks: seq<Block>, i: nat)
    requires Tiled(blocks) && i < |blocks| && blocks[i].free && !FreeBefore(blocks, i)
    requires Represents(mem, blocks, i)
    requires |after| == |mem| && SameOutside(mem, after, HeaderAt(blocks, i), HeaderAt(blocks, i + 1))
    requires 8 * blocks[i].Next() <= |mem|
    requires Load(after, blocks[i].start) == Sealed(blocks[i].size, false, true)
    requires Load(after, blocks[i].start + blocks[i].size) == Sealed(blocks[i].size, false, true)
    ensures Represents(after, blocks, |blocks|)
  {
    hide Load;
    var mid := [blocks[i]];
    assert blocks[i].start == HeaderAt(blocks, i);
    assert blocks == Spliced(blocks, i, i + 1, mid);
    assert HasHeader(after, blocks, i) && HasTag(after, blocks, i);
    FollowerKept(mem, after, blocks, i, i, i + 1, mid);
    SpliceIsRepresented(mem, after, blocks, i, i, i + 1, mid, |blocks|);
  }

  lemma TrimmedIsRepresented(mem: seq<byte>, after: seq<byte>, blocks: seq<Block>)
    requires Tiled(blocks) && Represents(mem, blocks, |blocks|) && blocks != [] && blocks[|blocks| - 1].free
    requires !FreeBefore(blocks, |blocks| - 1)
    requires |after| == 8 * blocks[|blocks| - 1].start + 8
    requires SameOutside(mem, after, blocks[|blocks| - 1].start, blocks[|blocks| - 1].start + 1)
    requires Load(after, blocks[|blocks| - 1].start) == Sealed(0, false, false)
    ensures Represents(after, Trim(blocks), |Trim(blocks)|)
  {
    hide Load;
    var n := |blocks| - 1;
    var trimmed := Trim(blocks);
    assert blocks[n].start == HeaderAt(blocks, n) == End(trimmed);
    HeadersMonotone(blocks, n, |blocks|);
    forall k: nat | k < n
      ensures HasHeader(after, trimmed, k) && (trimmed[k].free ==> HasTag(after, trimmed, k))
    {
      assert HasHeader(mem, blocks, k) && blocks[k].start == HeaderAt(blocks, k) && blocks[k].size > 0;
      assert blocks[k].free ==> HasTag(mem, blocks, k);
      HeadersMonotone(blocks, k + 1, n);
      BlockElsewhere(mem, after, blocks[n].start, blocks[n].start + 1, blocks, k);
      assert trimmed[k] == blocks[k] && FreeBefore(trimmed, k) == FreeBefore(blocks, k);
    }
  }

  lemma LiveHasABlock(blocks: seq<Block>, p: nat)
    requires WellFormed(blocks) && p in Live(blocks)
    ensures var i := BlockOf(blocks, p, 0);
            && i < |blocks| && !blocks[i].free && blocks[i].start + 1 == p && blocks[i].start == HeaderAt(blocks, i)
  {
    var i := HolderOf(blocks, p);
  }

  /** The blocks freeing block i merges, from FirstTouched up to but not including LastTouched. */
  function FirstTouched(blocks: seq<Block>, i: nat): nat
    requires i < |blocks|
  {
    if FreeBefore(blocks, i) then i - 1 else i
  }

  function LastTouched(blocks: seq<Block>, i: nat): nat
    requires i < |blocks|
  {
    if i + 1 < |blocks| && blocks[i + 1].free then i + 2 else i + 1
  }

  lemma FreedSpan(blocks: seq<Block>, i: nat)
    requires Tiled(blocks) && i < |blocks|
    ensures var b2 := JoinNext(blocks[i := blocks[i].(free := true)], i);
            && FreeBefore(b2, i) == FreeBefore(blocks, i)
            && HeaderAt(b2, FirstTouched(blocks, i)) == HeaderAt(blocks, FirstTouched(blocks, i))
            && HeaderAt(b2, i + 1) == HeaderAt(blocks, LastTouched(blocks, i))
    ensures HeaderAt(blocks, FirstTouched(blocks, i)) <= HeaderAt(blocks, i)
    ensures HeaderAt(blocks, i) < blocks[i].Next() == HeaderAt(blocks, i + 1)
      <= HeaderAt(blocks, LastTouched(blocks, i))
  {
    assert blocks[i].start == HeaderAt(blocks, i);
    assert i + 1 < |blocks| ==> blocks[i + 1].start == HeaderAt(blocks, i + 1);
    assert i > 0 ==> blocks[i - 1].start == HeaderAt(blocks, i - 1);
  }

  lemma SameOutsideInFourSteps(a: seq<byte>, b: seq<byte>, c: seq<byte>, d: seq<byte>, e: seq<byte>, lo: nat, hi: nat)
    requires |a| <= |b| <= |c| <= |d|
    requires SameOutside(a, b, lo, hi) && SameOutside(b, c, lo, hi) && SameOutside(c, d, lo, hi)
      && SameOutside(d, e, lo, hi)
    ensures SameOutside(a, e, lo, hi)
  {
    SameOutsideTwice(a, b, c, lo, hi);
    SameOutsideTwice(a, c, d, lo, hi);
    SameOutsideTwice(a, d, e, lo, hi);
  }

  /** After the merge in front only the merged block can be followed by the end marker. */
  lemma OnlyOneFree(blocks: seq<Block>, i: nat)
    requires CoalescedBut(blocks, i) && blocks[i].free && (i + 1 < |blocks| ==> !blocks[i + 1].free)
    ensures var after, j := JoinPrevious(blocks, i), if FreeBefore(blocks, i) then i - 1 else i;
            && j < |after| && (j + 1 < |after| ==> !after[j + 1].free)
            && forall k | 0 <= k < |after| && k != j && after[k].free :: k + 1 < |after| && !after[k + 1].free
  {
    var after, j := JoinPrevious(blocks, i), if FreeBefore(blocks, i) then i - 1 else i;
    if after != blocks {
      assert forall k | j < k < |after| :: after[k] == blocks[k + 1];
      assert forall k | 0 <= k < j :: after[k] == blocks[k];
      assert j > 0 ==> !blocks[j - 1].free;
    }
  }

  lemma FreeKeepsContents(mem: seq<byte>, blocks: seq<Block>, after: seq<byte>, i: nat)
    requires WellFormed(blocks) && |mem| == 8 * End(blocks) + 8 && i < |blocks| && !blocks[i].free
    requires |after| == 8 * End(Released(blocks, i)) + 8
    requires SameOutside(mem, after, HeaderAt(blocks, FirstTouched(blocks, i)),
      HeaderAt(blocks, LastTouched(blocks, i)) + 1)
    ensures WellFormed(Released(blocks, i))
    ensures ContentsOf(after, Released(blocks, i)) == ContentsOf(mem, blocks) - {blocks[i].start + 1}
    ensures |after| <= |mem|
  {
    hide Released, ContentsOf, Live, Tiled, Coalesced;
    ReleasedDropsTheRegion(blocks, i);
    var bs := Released(blocks, i);
    KeysAreLive(mem, blocks);
    KeysAreLive(after, bs);
    EndIsTight(blocks);
    EndIsTight(bs);
    var was, now := ContentsOf(mem, blocks), ContentsOf(after, bs);
    forall p | p in now
      ensures now[p] == was[p]
    {
      ContentsKept(mem, blocks, after, bs, FirstTouched(blocks, i), LastTouched(blocks, i), p);
    }
    assert now == was - {blocks[i].start + 1};
  }

  /** The header behind block i of a list in which block i may still lack its tag. */
  lemma NextHeaderIsRead(mem: seq<byte>, blocks: seq<Block>, i: nat)
    requires Tiled(blocks) && Represents(mem, blocks, i) && i < |blocks| && blocks[i].free
    ensures HeaderAt(blocks, i + 1) == HeaderAt(blocks, i) + blocks[i].size + 1
    ensures 8 * HeaderAt(blocks, i + 1) + 8 <= |mem|
    ensures Load(mem, HeaderAt(blocks, i + 1)) ==
            if i + 1 < |blocks| then Sealed(blocks[i + 1].size, true, blocks[i + 1].free) else Sealed(0, true, false)
    ensures i + 1 < |blocks| ==>
      && blocks[i + 1].size > 0
      && HeaderAt(blocks, i + 2) == HeaderAt(blocks, i + 1) + blocks[i + 1].size + 1
  {
    assert blocks[i].start == HeaderAt(blocks, i);
    if i + 1 < |blocks| {
      assert HasHeader(mem, blocks, i + 1) && blocks[i + 1].start == HeaderAt(blocks, i + 1);
    }
  }

  lemma FirstFitIs(blocks: seq<Block>, n: nat, k: nat)
    requires k <= |blocks| && (forall j | 0 <= j < k :: !Fits(blocks[j], n)) && (k < |blocks| ==> Fits(blocks[k], n))
    ensures FirstFit(blocks, n, 0) == k && Answer(blocks, n) == HeaderAt(blocks, k) + 1
    ensures Allocated(blocks, n) == if k < |blocks| then Carve(blocks, n, k)
                                    else blocks + [Block(End(blocks), n, false)]
  {
    hide Carve;
  }

  /** A block has room for the words if it has for the bytes. */
  lemma FitsInBytes(blocks: seq<Block>, bytes: nat)
    ensures forall k | 0 <= k < |blocks| ::
      Fits(blocks[k], (bytes + 7) / 8) <==> blocks[k].free && 8 * blocks[k].size >= bytes
  {
    assert forall k | 0 <= k < |blocks| :: 8 * blocks[k].size >= bytes <==> blocks[k].size >= (bytes + 7) / 8;
  }

  /** What malloc answers, in bytes. */
  lemma InBytes(blocks: seq<Block>, bytes: nat)
    requires WellFormed(blocks) && bytes > 0
    ensures var n := (bytes + 7) / 8;
      && bytes <= 8 * Granted(blocks, n) < bytes + 16
      && (forall k: nat | k < |blocks| && blocks[k].free && 8 * blocks[k].size >= bytes ::
           && End(Allocated(blocks, n)) == End(blocks)
           && ((forall j | 0 <= j < k :: !(blocks[j].free && 8 * blocks[j].size >= bytes)) ==>
                Answer(blocks, n) == blocks[k].start + 1))
      && ((forall j | 0 <= j < |blocks| :: !(blocks[j].free && 8 * blocks[j].size >= bytes)) ==>
           && End(Allocated(blocks, n)) == End(blocks) + n + 1 && Answer(blocks, n) == End(blocks) + 1
           && Granted(blocks, n) == n)
  {
    hide *;
    var n := (bytes + 7) / 8;
    AllocatedAddsARegion(blocks, n);
    FitsInBytes(blocks, bytes);
  }

  /** What the walk along the headers finds at header k: a valid header, of size 0 only at the end. */
  lemma HeaderIsRead(mem: seq<byte>, blocks: seq<Block>, k: nat)
    requires WellFormed(blocks) && Represents(mem, blocks, |blocks|) && k <= |blocks|
    ensures 8 * HeaderAt(blocks, k) + 8 <= |mem|
    ensures Load(mem, HeaderAt(blocks, k)).SeemsValid() && Load(mem, HeaderAt(blocks, k)).size < P61
    ensures Load(mem, HeaderAt(blocks, k)).size == 0 <==> k == |blocks|
    ensures k < |blocks| ==>
      && Load(mem, HeaderAt(blocks, k)) == Sealed(blocks[k].size, FreeBefore(blocks, k), blocks[k].free)
      && HeaderAt(blocks, k + 1) == HeaderAt(blocks, k) + blocks[k].size + 1
  {
    if k < |blocks| {
      assert HasHeader(mem, blocks, k) && blocks[k].start == HeaderAt(blocks, k);
    }
  }
}
