/** The heap of the kernel and of each process (src/Memory/Heap.cpp): a run of mapped pages that
    brk() makes longer and shorter. */
module KernelHeap {
  import opened Options
  import opened PhysMemory
  import opened PageTree
  import opened Paging

  const PAGE: nat := 0x1000

  /** The tables that mapping n pages from v on would have to make. */
  ghost function Absent(mem: Mem, root: nat, v: nat, n: nat): set<Path>
    requires root < |mem| && v + n <= 0x1000000000
  {
    (set w: VPage | v <= w < v + n && Walk(mem, root, PDPath(w)).None? :: PDPath(w))
    + (set w: VPage | v <= w < v + n && Walk(mem, root, PTPath(w)).None? :: PTPath(w))
  }

  lemma AbsentOneIs(mem: Mem, root: nat, v: VPage)
    requires root < |mem|
    ensures Absent(mem, root, v, 1)
         == (if Walk(mem, root, PDPath(v)).None? then {PDPath(v)} else {})
          + (if Walk(mem, root, PTPath(v)).None? then {PTPath(v)} else {})
  {
    hide Walk, PDPath, PTPath;
    assert forall w: VPage | v <= w < v + 1 :: PDPath(w) == PDPath(v) && PTPath(w) == PTPath(v);
  }

  lemma AbsentOne(mem: Mem, root: nat, v: VPage)
    requires root < |mem| && Forest(mem, root, 3) && mem[root][PML4Index(v)].present
    ensures |Absent(mem, root, v, 1)| == Missing(mem, root, PTPath(v))
  {
    hide Walk, Missing, Absent, Forest, PML4Index, PDPath, PTPath, PDIndex;
    AbsentOneIs(mem, root, v);
    MissingPT(mem, root, v);
    PDPathShort(mem, root, v);
    if Walk(mem, root, PTPath(v)).None? && Walk(mem, root, PDPath(v)).None? {
      Sizes({PDPath(v)}, {PTPath(v)});
    }
  }

  lemma PDPathShort(mem: Mem, root: nat, v: VPage)
    requires root < |mem| && Forest(mem, root, 3) && mem[root][PML4Index(v)].present
    ensures Missing(mem, root, PDPath(v)) <= 1 && PDPath(v) != PTPath(v)
    ensures Walk(mem, root, PTPath(v)).Some? ==> Walk(mem, root, PDPath(v)).Some?
  {
    assert SlotOk(mem, root, 3, PML4Index(v));
    assert [PML4Index(v)] + [PDPIndex(v)] == PDPath(v);
    assert Missing(mem, mem[root][PML4Index(v)].frame, Next([PML4Index(v)])) == 0;
    MissingOn(mem, root, [PML4Index(v)], PDPIndex(v));
    MissingPT(mem, root, v);
  }

  lemma AbsentSplit(m: Mem, n: Mem, root: nat, v: VPage, k: nat)
    requires root < |m| == |n| && Forest(n, root, 3) && n[root][PML4Index(v)].present
    requires forall q: Path | |q| <= 3 && Walk(m, root, q).Some? :: Walk(n, root, q) == Walk(m, root, q)
    requires Walk(n, root, PTPath(v)).Some? && 0 < k && v + k <= 0x1000000000
    ensures Absent(m, root, v, 1) !! Absent(n, root, v + 1, k - 1)
    ensures Absent(m, root, v, 1) + Absent(n, root, v + 1, k - 1) <= Absent(m, root, v, k)
  {
    hide Walk, Forest, PDPath, PTPath, PML4Index;
    PDPathShort(n, root, v);
  }

  /** Mapping the first page leaves only what the others still need. */
  lemma AbsentStep(m: Mem, n: Mem, root: nat, v: VPage, k: nat)
    requires root < |m| == |n| && Forest(m, root, 3) && Forest(n, root, 3)
    requires m[root] == n[root] && m[root][PML4Index(v)].present
    requires forall q: Path | |q| <= 3 && Walk(m, root, q).Some? :: Walk(n, root, q) == Walk(m, root, q)
    requires Walk(n, root, PTPath(v)).Some? && 0 < k && v + k <= 0x1000000000
    ensures |Absent(n, root, v + 1, k - 1)| + Missing(m, root, PTPath(v)) <= |Absent(m, root, v, k)|
  {
    hide Walk, Missing, Forest, Absent, PDPath, PTPath, PML4Index;
    AbsentOne(m, root, v);
    AbsentSplit(m, n, root, v, k);
    var one, rest := Absent(m, root, v, 1), Absent(n, root, v + 1, k - 1);
    Sizes(one, rest);
    Subset(one + rest, Absent(m, root, v, k));
  }

  lemma AbsentCovers(m: Mem, root: nat, v: VPage, k: nat)
    requires root < |m| && Forest(m, root, 3) && m[root][PML4Index(v)].present
    requires 0 < k && v + k <= 0x1000000000
    ensures Missing(m, root, PTPath(v)) <= |Absent(m, root, v, k)|
  {
    hide Walk, Missing, Forest, PDPath, PTPath, PML4Index;
    AbsentOne(m, root, v);
    Subset(Absent(m, root, v, 1), Absent(m, root, v, k));
  }

  /** Of the pages kept for a heap the first n are mapped, to distinct frames that are not busy
      otherwise, and the others are not. */
  ghost predicate RunMapped(mem: Mem, root: nat, busy: set<nat>, first: nat, n: nat, limit: nat) {
    && root < |mem| && n <= limit && first + limit <= 0x1000000000
    && (forall w: VPage | first <= w < first + limit :: mem[root][PML4Index(w)].present)
    && (forall w: VPage | first <= w < first + n :: EntryAt(mem, root, w).present)
    && (forall w: VPage | first + n <= w < first + limit :: !EntryAt(mem, root, w).present)
    && (forall w: VPage, u: VPage | first <= w < u < first + n ::
       EntryAt(mem, root, w).frame != EntryAt(mem, root, u).frame)
    && FramesIn(mem, root, first, n) !! busy
  }

  /** One page more is mapped. */
  lemma RunMappedMore(m: Mem, n: Mem, root: nat, busy: set<nat>, busy': set<nat>, first: nat, k: nat, limit: nat)
    requires RunMapped(m, root, busy, first, k, limit) && k < limit && |n| == |m| && n[root] == m[root]
    requires forall w: VPage | w != first + k :: EntryAt(n, root, w) == EntryAt(m, root, w)
    requires EntryAt(n, root, first + k).present
    requires FramesIn(m, root, first, k) + {EntryAt(n, root, first + k).frame} !! busy'
    requires EntryAt(n, root, first + k).frame !in FramesIn(m, root, first, k)
    ensures RunMapped(n, root, busy', first, k + 1, limit)
    ensures FramesIn(n, root, first, k + 1) == FramesIn(m, root, first, k) + {EntryAt(n, root, first + k).frame}
  {
    hide EntryAt, FramesIn, PML4Index;
    FramesGrow(m, n, root, first, k);
  }

  /** Distinct pages have distinct frames, so there is a frame to each page. */
  lemma {:induction false} FrameToEachPage(m: Mem, root: nat, busy: set<nat>, first: nat, k: nat, n: nat, limit: nat)
    requires RunMapped(m, root, busy, first, n, limit) && k <= n
    ensures |FramesIn(m, root, first, k)| == k
  {
    hide EntryAt, PML4Index;
    if k == 0 {
      assert FramesIn(m, root, first, 0) == {};
    } else {
      FrameToEachPage(m, root, busy, first, k - 1, n, limit);
      FramesGrow(m, m, root, first, k - 1);
      assert EntryAt(m, root, first + k - 1).frame !in FramesIn(m, root, first, k - 1);
    }
  }

  lemma FramesInside(m: Mem, root: nat, first: nat, k: nat, l: nat)
    requires root < |m| && first + k + l <= 0x1000000000
    ensures FramesIn(m, root, first, k + l) == FramesIn(m, root, first, k) + FramesIn(m, root, first + k, l)
    ensures forall w: VPage | first <= w < first + k + l :: EntryAt(m, root, w).frame in FramesIn(m, root, first, k + l)
  {
    hide EntryAt;
  }

  /** The last pages of the run are unmapped. */
  lemma RunMappedLess(m: Mem, n: Mem, root: nat, busy: set<nat>, first: nat, k: nat, l: nat, limit: nat)
    requires RunMapped(m, root, busy, first, k + l, limit) && |n| == |m| && n[root] == m[root]
    requires forall w: VPage ::
      EntryAt(n, root, w) == (if first + k <= w < first + k + l then EntryAt(m, root, w).(present := false)
        else EntryAt(m, root, w))
    ensures RunMapped(n, root, busy + FramesIn(m, root, first + k, l), first, k, limit)
    ensures FramesIn(m, root, first, k + l) == FramesIn(n, root, first, k) + FramesIn(m, root, first + k, l)
  {
    hide EntryAt, PML4Index;
    assert FramesIn(n, root, first, k) == FramesIn(m, root, first, k);
  }

  class Heap {
    const paging: Paging
    var start: nat        // where the heap begins, in bytes
    var size: nat         // how much of it is mapped, in bytes
    ghost var limit: nat  // how many pages the address space keeps for it

    constructor (paging: Paging)
      ensures this.paging == paging && start == 0 && size == 0 && limit == 0
    {
      this.paging, start, size, limit := paging, 0, 0, 0;
    }

    /** The first page of the heap, and how many are mapped. */
    function First(): nat
      reads this`start
    {
      start / PAGE
    }

    function Count(): nat
      reads this`size
    {
      size / PAGE
    }

    ghost predicate Valid()
      reads this, paging, paging.phys
    {
      && start % PAGE == 0 && size % PAGE == 0
      && Count() <= limit && First() + limit <= 0x1000000000
      && Holds(First(), Count(), limit)
    }

    /** The frames the heap holds. */
    ghost function Frames(): set<nat>
      reads this, paging, paging.phys
      requires Valid()
    {
      paging.FramesOf(First(), Count())
    }

    /** Between any two moments the frames taken for the heap minus those given back are one for
        each mapped page: the stock never changes, and this is what it is made of. */
    lemma Accounts()
      requires Valid()
      ensures start % 0x1000 == 0 && size % 0x1000 == 0 && |Frames()| == size / 0x1000
      ensures |Stock(First(), Count())| == size / 0x1000 + |paging.Tables()| + |paging.phys.Free()|
      ensures forall w: VPage | start <= 0x1000 * w && w < start / 0x1000 + limit ::
        EntryAt(paging.phys.ram, paging.pml4, w).present <==> 0x1000 * w < start + size
      ensures forall w: VPage | start <= 0x1000 * w < start + size ::
        EntryAt(paging.phys.ram, paging.pml4, w).frame in Frames()
      ensures Frames() !! paging.Tables() + paging.phys.Free()
    {
      hide EntryAt, PML4Index, Forest, Owned, PhysMem.Free, PhysMem.Bits;
      var ram, busy := paging.phys.ram, paging.Tables() + paging.phys.Free();
      FrameToEachPage(ram, paging.pml4, busy, First(), Count(), Count(), limit);
      Sizes(paging.Tables(), paging.phys.Free());
      Sizes(Frames(), busy);
      assert Stock(First(), Count()) == Frames() + busy;
    }

    /** An empty heap from the first page boundary at or after addr. */
    method Init(addr: nat, ghost limit: nat) returns (r: nat)
      requires paging.Valid() && paging.Quiet()
      requires (addr + PAGE - 1) / PAGE + limit <= 0x1000000000
      requires forall w: VPage | (addr + PAGE - 1) / PAGE <= w < (addr + PAGE - 1) / PAGE + limit ::
        paging.phys.ram[paging.pml4][PML4Index(w)].present && !EntryAt(paging.phys.ram, paging.pml4, w).present
      modifies this
      ensures Valid() && this.limit == limit && size == 0 && r == start
      ensures addr <= start < addr + 0x1000 && start % 0x1000 == 0
    {
      hide PML4Index, EntryAt;
      size := 0;
      start := (addr + PAGE - 1) / PAGE * PAGE;
      this.limit := limit;
      r := start;
    }

    /** One page more: take a frame and map it behind the n pages there are. */
    method AddPage(first: nat, n: nat, ghost limit: nat)
      requires paging.Valid() && paging.Quiet() && n < limit
      requires RunMapped(paging.phys.ram, paging.pml4, paging.Tables() + paging.phys.Free(), first, n, limit)
      requires Missing(paging.phys.ram, paging.pml4, PTPath(first + n)) < |paging.phys.Free()|
      modifies paging`tmpPDP, paging`tmpPD, paging`tmpPT, paging.phys`words, paging.phys`ram
      ensures paging.Valid() && paging.Quiet()
      ensures RunMapped(paging.phys.ram, paging.pml4, paging.Tables() + paging.phys.Free(), first, n + 1, limit)
      ensures paging.Tables() + paging.phys.Free() + paging.FramesOf(first, n + 1)
           == old(paging.Tables() + paging.phys.Free() + paging.FramesOf(first, n))
      ensures forall f | f in paging.FramesOf(first, n + 1) ::
        f in old(paging.FramesOf(first, n)) || paging.phys.Managed(f)
      ensures |paging.phys.Free()| + 1 ==
        old(|paging.phys.Free()| - Missing(paging.phys.ram, paging.pml4, PTPath(first + n)))
      ensures forall w: VPage | w != first + n ::
        EntryAt(paging.phys.ram, paging.pml4, w) == old(EntryAt(paging.phys.ram, paging.pml4, w))
      ensures var e, e0 := EntryAt(paging.phys.ram, paging.pml4, first + n),
                old(EntryAt(paging.phys.ram, paging.pml4, first + n));
        && !e.flags.writeThrough && (e.flags.global <==> first + n >= 0x800000000 || e0.flags.global)
        && e.flags.readWrite == e0.flags.readWrite && e.flags.user == e0.flags.user
      ensures old(Walk(paging.phys.ram, paging.pml4, PTPath(first + n))).None? ==>
        EntryAt(paging.phys.ram, paging.pml4, first + n).flags
        == Flags(true, true, false, first + n >= 0x800000000, 0)
      ensures var ram, root := old(paging.phys.ram), paging.pml4;
        && |paging.phys.ram| == |ram| && paging.phys.ram[root] == ram[root]
        && Walk(paging.phys.ram, root, PTPath(first + n)).Some?
        && forall q: Path | |q| <= 3 && Walk(ram, root, q).Some? :: Walk(paging.phys.ram, root, q) == Walk(ram, root, q)
    {
      hide PhysMem.Free, PhysMem.Bits, Forest, Owned, Walk, Slot, Missing, PML4Index, PTPath, EntryAt, InKernel,
        Paging.Tables, FramesIn;
      var phys := paging.phys;
      ghost var ram := phys.ram;
      ghost var tables, free, frames := paging.Tables(), phys.Free(), paging.FramesOf(first, n);
      var phy := phys.Alloc();
      paging.CreateMapping(phy, first + n, false);
      Moved(tables, free, frames, phy, phys.Free());
      assert paging.Tables() == tables + (free - {phy} - phys.Free());
      RunMappedMore(ram, phys.ram, paging.pml4, tables + free, paging.Tables() + phys.Free(), first, n, limit);
    }

    /** Memory for k pages from v on and for the tables they need. */
    ghost predicate Supply(v: nat, k: nat)
      reads paging, paging.phys
      requires paging.Valid() && v + k <= 0x1000000000
    {
      k + |Absent(paging.phys.ram, paging.pml4, v, k)| <= |paging.phys.Free()|
    }

    /** The heap's invariant when n pages are mapped. */
    ghost predicate Holds(first: nat, n: nat, limit: nat)
      reads paging, paging.phys
    {
      && paging.Valid() && paging.Quiet()
      && RunMapped(paging.phys.ram, paging.pml4, paging.Tables() + paging.phys.Free(), first, n, limit)
      && forall f | f in paging.FramesOf(first, n) :: paging.phys.Managed(f)
    }

    /** The frames of the heap, of the page tables, and the free ones. */
    ghost function Stock(first: nat, n: nat): set<nat>
      reads paging, paging.phys
      requires paging.Valid() && first + n <= 0x1000000000
    {
      paging.FramesOf(first, n) + paging.Tables() + paging.phys.Free()
    }

    /** The next of k pages to add, with what is left for the others. */
    method AddNext(first: nat, n: nat, k: nat, ghost limit: nat)
      requires Holds(first, n, limit) && 0 < k && n + k <= limit && first + limit <= 0x1000000000
        && Supply(first + n, k)
      modifies paging`tmpPDP, paging`tmpPD, paging`tmpPT, paging.phys`words, paging.phys`ram
      ensures Holds(first, n + 1, limit) && Supply(first + n + 1, k - 1)
      ensures Stock(first, n + 1) == old(Stock(first, n))
      ensures !EntryAt(paging.phys.ram, paging.pml4, first + n).flags.writeThrough
      ensures forall w: VPage | w != first + n ::
        EntryAt(paging.phys.ram, paging.pml4, w) == old(EntryAt(paging.phys.ram, paging.pml4, w))
    {
      hide EntryAt, FramesIn, PML4Index, Forest, Owned, Walk, Absent, Missing, Paging.Tables, PhysMem.Free,
        PhysMem.Bits, PTPath;
      ghost var ram, v := paging.phys.ram, first + n;
      AbsentCovers(ram, paging.pml4, v, k);
      AddPage(first, n, limit);
      AbsentStep(ram, paging.phys.ram, paging.pml4, v, k);
    }

    /** There is room for the heap, and there are frames for its pages and their tables. */
    ghost predicate Enough(dist: nat)
      reads this, paging, paging.phys
      requires Valid()
    {
      dist > size ==>
        var more := (dist - size + PAGE - 1) / PAGE;
        Count() + more <= limit && Supply(First() + Count(), more)
    }

    /** brk()'s loop that maps new pages at the end. */
    method Grow(more: nat)
      requires Valid() && Count() + more <= limit && Supply(First() + Count(), more)
      modifies this`size, paging`tmpPDP, paging`tmpPD, paging`tmpPT, paging.phys`words, paging.phys`ram
      ensures Valid() && size == old(size) + more * PAGE
      ensures Stock(First(), Count()) == old(Stock(First(), Count()))
      ensures forall w: VPage | w < First() + old(Count()) || First() + Count() <= w ::
        EntryAt(paging.phys.ram, paging.pml4, w) == old(EntryAt(paging.phys.ram, paging.pml4, w))
      ensures forall w: VPage | First() + old(Count()) <= w < First() + Count() ::
        !EntryAt(paging.phys.ram, paging.pml4, w).flags.writeThrough
    {
      hide EntryAt, RunMapped, Supply, Stock, Forest, Owned, Paging.Tables, PhysMem.Free, PhysMem.Bits;
      var first, from := First(), Count();
      for i := 0 to more
        invariant paging.Valid() && Holds(first, from + i, limit) && size == old(size)
        invariant Supply(first + from + i, more - i) && Stock(first, from + i) == old(Stock(first, from))
        invariant forall w: VPage | w < first + from || first + from + i <= w ::
          EntryAt(paging.phys.ram, paging.pml4, w) == old(EntryAt(paging.phys.ram, paging.pml4, w))
        invariant forall w: VPage | first + from <= w < first + from + i ::
          !EntryAt(paging.phys.ram, paging.pml4, w).flags.writeThrough
      {
        AddNext(first, from + i, more - i, limit);
        assert first + from + (i + 1) == first + (from + i) + 1 && more - (i + 1) == more - i - 1;
      }
      size := size + more * PAGE;
      assert Count() == from + more;
    }

    /** brk()'s release of the last pages. */
    method Shrink(less: nat)
      requires Valid() && 0 < less <= Count()
      modifies this`size, paging`tmpPDP, paging`tmpPD, paging`tmpPT, paging.phys`words, paging.phys`ram
      ensures Valid() && size == old(size) - less * PAGE
      ensures Stock(First(), Count()) == old(Stock(First(), Count()))
      ensures forall w: VPage | w < First() + Count() || First() + old(Count()) <= w ::
        EntryAt(paging.phys.ram, paging.pml4, w) == old(EntryAt(paging.phys.ram, paging.pml4, w))
    {
      hide EntryAt, FramesIn, PML4Index, Forest, Owned, Walk, Absent, Missing, Paging.Tables, PhysMem.Free,
        PhysMem.Bits;
      var kept := Count() - less;
      ghost var ram, busy := paging.phys.ram, paging.Tables() + paging.phys.Free();
      FramesInside(ram, paging.pml4, First(), kept, less);
      FramesInside(ram, paging.pml4, First() + kept, 0, less);
      paging.FreeMappingAndPhy(First() + kept, less);
      size := size - less * PAGE;
      assert Count() == kept;
      RunMappedLess(ram, paging.phys.ram, paging.pml4, busy, First(), kept, less, limit);
    }

    /** Make the heap reach to addr; addr 0 asks where it begins. */
    method Brk(addr: nat) returns (r: nat)
      requires Valid() && (addr != 0 ==> start <= addr && Enough(addr - start))
      modifies this`size, paging`tmpPDP, paging`tmpPD, paging`tmpPT, paging.phys`words, paging.phys`ram
      ensures Valid() && r == (if addr == 0 then start else 0)
      ensures addr == 0 ==>
        && size == old(size) && paging.phys.ram == old(paging.phys.ram)
        && paging.phys.words == old(paging.phys.words)
      ensures addr != 0 ==> addr - start <= size <= addr - start + 0x1000
      ensures addr != 0 && addr - start <= old(size) <= addr - start + 0x1000 ==> size == old(size)
      ensures addr != 0 && !(addr - start <= old(size) <= addr - start + 0x1000) ==> size < addr - start + 0x1000
      ensures Stock(First(), Count()) == old(Stock(First(), Count()))
      ensures forall w: VPage | (w < First() + old(Count()) && w < First() + Count()) || First() + limit <= w ::
        EntryAt(paging.phys.ram, paging.pml4, w) == old(EntryAt(paging.phys.ram, paging.pml4, w))
    {
      hide EntryAt, RunMapped, Supply, Stock, Paging.Valid;
      if addr == 0 {
        return start;
      }
      var dist := addr - start;
      if dist > size {
        Grow((dist - size + PAGE - 1) / PAGE);
      } else if dist + PAGE < size {
        Shrink((size - dist) / PAGE);
      }
      r := 0;
    }
  }

  /** A frame for the heap and frames for tables come out of the free ones. */
  lemma Moved(tables: set<nat>, free: set<nat>, frames: set<nat>, phy: nat, left: set<nat>)
    requires phy in free && left <= free - {phy} && frames !! tables + free && tables !! free
    ensures |free - {phy}| == |free| - 1
    ensures var grown := tables + (free - {phy} - left);
      && frames + {phy} !! grown + left
      && grown + left + (frames + {phy}) == tables + free + frames
  {
  }
}
