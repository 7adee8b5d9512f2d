/** The bytes the heap of libc/src/malloc.cpp lives in: headers (libc/src/malloc.h) are 64-bit
    little-endian words whose low 61 bits hold the size and whose three top bits are flags. */
module MallocMemory {
  import opened Bytes
  import opened Arith
  import opened MallocLayout

  const P61: nat := 0x2000_0000_0000_0000

  /** A header; the size counts 8-byte words. */
  datatype Header = Header(size: nat, parity: bool, prevFree: bool, free: bool) {
    predicate SeemsValid() { (parity != prevFree) != free }
    function Update(): Header { this.(parity := !(prevFree != free)) }
    function SetFree(f: bool): Header { this.(free := f).Update() }
    function SetPFree(f: bool): Header { this.(prevFree := f).Update() }
  }

  /** The header whose parity bit is up to date. */
  function Sealed(size: nat, prevFree: bool, free: bool): (h: Header)
    ensures h.SeemsValid()
  {
    Header(size, true, prevFree, free).Update()
  }

  function Bit(b: bool): nat { if b then 1 else 0 }

  function Pack(h: Header): nat
    requires h.size < P61
  {
    h.size + P61 * Bit(h.parity) + 2 * P61 * Bit(h.prevFree) + 4 * P61 * Bit(h.free)
  }

  function Unpack(v: nat): Header {
    Header(v % P61, v / P61 % 2 == 1, v / (2 * P61) % 2 == 1, v / (4 * P61) % 2 == 1)
  }

  lemma UnpackPack(h: Header)
    requires h.size < P61
    ensures Pack(h) < P64 && Unpack(Pack(h)) == h
  {
  }

  /** The header at word w. */
  function Load(mem: seq<byte>, w: nat): Header
    requires 8 * w + 8 <= |mem|
  {
    Unpack(Value(mem[8 * w..8 * w + 8]))
  }

  function Store(mem: seq<byte>, w: nat, h: Header): (after: seq<byte>)
    requires 8 * w + 8 <= |mem| && h.size < P61
    ensures |after| == |mem|
  {
    mem[..8 * w] + Digits(Pack(h), 8) + mem[8 * w + 8..]
  }

  /** As far as both reach, only the words lo..hi may differ. */
  ghost predicate SameOutside(mem: seq<byte>, after: seq<byte>, lo: nat, hi: nat) {
    forall i | 0 <= i < |mem| && i < |after| && (i < 8 * lo || 8 * hi <= i) :: after[i] == mem[i]
  }

  lemma LoadElsewhere(mem: seq<byte>, after: seq<byte>, lo: nat, hi: nat, w: nat)
    requires SameOutside(mem, after, lo, hi) && 8 * w + 8 <= |mem| && 8 * w + 8 <= |after| && (w < lo || hi <= w)
    ensures Load(after, w) == Load(mem, w)
  {
    assert after[8 * w..8 * w + 8] == mem[8 * w..8 * w + 8];
  }

  lemma LoadStored(mem: seq<byte>, w: nat, h: Header)
    requires 8 * w + 8 <= |mem| && h.size < P61
    ensures Load(Store(mem, w, h), w) == h
    ensures SameOutside(mem, Store(mem, w, h), w, w + 1)
  {
    UnpackPack(h);
    assert Power(8) == P64;
    ValueOfDigits(Pack(h), 8);
    assert Store(mem, w, h)[8 * w..8 * w + 8] == Digits(Pack(h), 8);
  }

  lemma {:induction false} DigitAt(v: nat, n: nat, i: nat)
    requires i < n
    ensures Power(i) > 0 && Digits(v, n)[i] == v / Power(i) % 256
  {
    if i > 0 {
      DigitAt(v / 256, n - 1, i - 1);
      assert Digits(v, n)[i] == Digits(v / 256, n - 1)[i - 1];
      TwoDivisions(v, Power(i - 1));
    }
  }

  lemma TwoDivisions(v: nat, d: nat)
    requires d > 0
    ensures v / 256 / d == v / (256 * d)
  {
    NestedDivision(v, d, 256);
  }

  /** Where a header is in its eight bytes: the size from the lowest byte up, and in the highest one the
      parity of the two flags, then whether the block before is free, then whether this one is. */
  lemma HeaderBytes(mem: seq<byte>, w: nat, size: nat, prevFree: bool, free: bool)
    requires 8 * w + 8 <= |mem| && size < P61
    ensures var after := Store(mem, w, Sealed(size, prevFree, free));
      && after[8 * w] == size % 0x100
      && after[8 * w + 7] == size / 0x100_0000_0000_0000 + (if prevFree == free then 0x20 else 0)
                             + (if prevFree then 0x40 else 0) + (if free then 0x80 else 0)
  {
    hide Digits;
    var h := Sealed(size, prevFree, free);
    FirstAndLast(Pack(h));
    TopByte(size, Bit(h.parity) + 2 * Bit(prevFree) + 4 * Bit(free));
  }

  lemma TopByte(size: nat, flags: nat)
    requires size < P61 && flags < 8
    ensures var v := size + P61 * flags;
      v % 0x100 == size % 0x100 && v / 0x100_0000_0000_0000 % 0x100 == size / 0x100_0000_0000_0000 + 0x20 * flags
  {
    assert (size + P61 * flags) / 0x100_0000_0000_0000 == size / 0x100_0000_0000_0000 + 0x20 * flags;
  }

  lemma FirstAndLast(v: nat)
    ensures Digits(v, 8)[0] == v % 0x100 && Digits(v, 8)[7] == v / 0x100_0000_0000_0000 % 0x100
  {
    DigitAt(v, 8, 0);
    DigitAt(v, 8, 7);
    assert Power(3) == 0x1000000;
    assert Power(6) == 0x1000000 * Power(3);
  }

  // ------------------------------------------------ a block list in memory

  predicate FreeBefore(blocks: seq<Block>, i: nat)
    requires i <= |blocks|
  {
    i > 0 && blocks[i - 1].free
  }

  ghost predicate HasHeader(mem: seq<byte>, blocks: seq<Block>, i: nat)
    requires i < |blocks|
  {
    && 8 * blocks[i].Next() <= |mem|
    && Load(mem, blocks[i].start) == Sealed(blocks[i].size, FreeBefore(blocks, i), blocks[i].free)
  }

  /** The last word of a free block repeats its header. */
  ghost predicate HasTag(mem: seq<byte>, blocks: seq<Block>, i: nat)
    requires i < |blocks|
  {
    && 8 * blocks[i].Next() <= |mem|
    && Load(mem, blocks[i].start + blocks[i].size) == Sealed(blocks[i].size, false, true)
  }

  /** Memory holds the list: a header in front of each block, a boundary tag at the end of each
      free block (but block `untagged`), and a header of size 0 in the last word. */
  ghost predicate Represents(mem: seq<byte>, blocks: seq<Block>, untagged: nat) {
    && |mem| == 8 * End(blocks) + 8
    && |mem| <= P64
    && Load(mem, End(blocks)) == Sealed(0, FreeBefore(blocks, |blocks|), false)
    && (forall i: nat | i < |blocks| :: HasHeader(mem, blocks, i))
    && (forall i: nat | i < |blocks| && blocks[i].free && i != untagged :: HasTag(mem, blocks, i))
  }
}
