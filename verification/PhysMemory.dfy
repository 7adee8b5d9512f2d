/** Physical memory (src/Memory/PhysicalMemoryAllocator.cpp): the 4K frames and the bitset that
    tells which of them are free. */
module PhysMemory {
  import opened Bitset
  import opened Options

  // --------------------------------------------------------------- the frames

  /** A page-table entry as the 64-bit word it is: present bit, frame number, and the other flags.
      Any word of a data page can be read as one. */
  datatype Entry = Entry(present: bool, frame: nat, flags: Flags)

  datatype Flags = Flags(readWrite: bool, user: bool, writeThrough: bool, global: bool, other: nat)

  /** The entry PageEntry() and PageTable() construct. */
  const EMPTY: Entry := Entry(false, 0, Flags(true, true, false, false, 0))

  type Page = p: seq<Entry> | |p| == 512 witness seq(512, _ => EMPTY)

  function EmptyPage(): (p: Page)
    ensures forall i | 0 <= i < 512 :: p[i] == EMPTY
  {
    seq(512, i => EMPTY)
  }

  /** The first frame the allocator manages: the one at 1M. */
  const BASE: nat := 0x100

  class PhysMem {
    const size: nat            // bits of the bitset
    var words: seq<seq<bool>>  // bit k is 1 when frame BASE + k is free
    var ram: seq<Page>         // the frames' contents

    ghost predicate Valid()
      reads this`words, this`ram
    {
      Bits() && BASE + size <= |ram|
    }

    ghost predicate Bits()
      reads this`words
    {
      Words(words) && size <= 64 * |words|
    }

    /** The frames whose bits bsf() looks at: those of the full words. */
    predicate Managed(frame: nat) {
      BASE <= frame < BASE + size / 64 * 64
    }

    ghost predicate IsFree(frame: nat)
      reads this`words
      requires Bits()
    {
      Managed(frame) && Get(words, frame - BASE)
    }

    /** The frames that can be allocated. */
    ghost function Free(): set<nat>
      reads this`words
      requires Bits()
    {
      set f: nat | f < BASE + size && IsFree(f)
    }

    lemma FreeIsManaged()
      requires Bits()
      ensures forall f | f in Free() :: Managed(f)
    {
    }

    constructor (size: nat, ram: seq<Page>)
      requires size % 64 == 0 && BASE + size <= |ram|
      ensures Valid() && this.size == size && this.ram == ram
      ensures forall f: nat | Managed(f) :: f in Free()
    {
      this.size, this.ram := size, ram;
      this.words := seq(size / 64, w => seq(64, k => true));
    }

    /** The lowest free frame; None is the source's failed assertion, out of physical memory. */
    method TryAlloc() returns (r: Option<nat>)
      requires Valid()
      modifies this`words
      ensures Valid()
      ensures r.None? ==> old(Free()) == {} && words == old(words)
      ensures r.Some? ==> r.value in old(Free()) && Free() == old(Free()) - {r.value}
      ensures r.Some? ==> r.value < |ram| && forall f | f in old(Free()) :: r.value <= f
    {
      var k := Bsf(words, size);
      if k.None? {
        return None;
      }
      words := Put(words, k.value, false);
      r := Some(BASE + k.value);
    }

    method Alloc() returns (frame: nat)
      requires Valid() && Free() != {}
      modifies this`words
      ensures Valid() && frame in old(Free()) && Free() == old(Free()) - {frame} && frame < |ram| && Managed(frame)
    {
      var r := TryAlloc();
      frame := r.value;
    }

    /** memcpy() of one page. */
    method CopyFrame(to: nat, from: nat)
      requires to < |ram| && from < |ram|
      modifies this`ram
      ensures ram == old(ram)[to := old(ram)[from]]
    {
      ram := ram[to := ram[from]];
    }

    /** Freeing a frame that is free already is the bsod of the source. */
    method FreeFrame(frame: nat)
      requires Valid() && Managed(frame) && frame !in Free()
      modifies this`words
      ensures Valid() && Free() == old(Free()) + {frame}
    {
      words := Put(words, frame - BASE, true);
    }
  }
}
