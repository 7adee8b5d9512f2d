/** The kernel's pseudo-random generator (src/Random.cpp): a Mersenne Twister that keeps
    624 words and rewrites them in place.  The reference is the infinite sequence of words
    the 32-bit generator is defined by; the array is only ever a window of that sequence. */
module MersenneTwister {

  const N: nat := 624
  const M: nat := 397
  const A: bv32 := 0x9908B0DF
  const F: bv32 := 1812433253
  const MASK_LOWER: bv32 := 0x7FFFFFFF
  const MASK_UPPER: bv32 := 0x80000000

  /** The number k as a 32-bit word. */
  function IndexWord(k: nat): bv32 {
    if k == 0 then 0 else IndexWord(k - 1) + 1
  }

  function SeedStep(prev: bv32, k: bv32): bv32 {
    F * (prev ^ (prev >> 30)) + k
  }

  /** The twist matrix applied to the upper bit of one word and the lower bits of the next. */
  function Mix(upper: bv32, lower: bv32): bv32 {
    var x := (upper & MASK_UPPER) | (lower & MASK_LOWER);
    if x & 1 == 1 then (x >> 1) ^ A else x >> 1
  }

  /** Word k of the infinite sequence started by `seed`: the first 624 words come from the
      seeding congruence, every later one from the words 624, 623 and 227 places before. */
  function Word(seed: bv32, k: nat): bv32 {
    if k == 0 then seed
    else if k < N then
      var prev := Word(seed, k - 1);
      SeedStep(prev, IndexWord(k))
    else Word(seed, k - (N - M)) ^ Mix(Word(seed, k - N), Word(seed, k - N + 1))
  }

  function Shr11(y: bv32): bv32 { y >> 11 }
  function Shr18(y: bv32): bv32 { y >> 18 }

  function Temper1(y: bv32): bv32 { y ^ Shr11(y) }
  function Temper2(y: bv32): bv32 { y ^ ((y << 7) & 0x9D2C5680) }
  function Temper3(y: bv32): bv32 { y ^ ((y << 15) & 0xEFC60000) }
  function Temper4(y: bv32): bv32 { y ^ Shr18(y) }

  function Temper(y: bv32): bv32 {
    Temper4(Temper3(Temper2(Temper1(y))))
  }

  function Untemper1(y: bv32): bv32 { y ^ Shr11(y ^ Shr11(y)) }

  function Untemper2(y: bv32): bv32 {
    y ^ ((y << 7) & 0x9D2C5680) ^ ((y << 14) & 0x94284000) ^ ((y << 21) & 0x14200000) ^ ((y << 28) & 0x10000000)
  }

  /** Undoes the four tempering steps, last one first; steps 3 and 4 undo themselves. */
  function Untemper(z: bv32): bv32 {
    Untemper1(Untemper2(Temper3(Temper4(z))))
  }

  lemma Unfold(y: bv32)
    ensures Temper1(y) == y ^ Shr11(y)
    ensures Temper4(y) == y ^ Shr18(y)
    ensures Untemper1(y) == y ^ Shr11(y ^ Shr11(y))
  {
    hide Shr11, Shr18;
  }

  lemma Shr11OfXor(a: bv32, b: bv32)
    ensures Shr11(a ^ b) == Shr11(a) ^ Shr11(b)
    ensures Shr11(Shr11(Shr11(a))) == 0
  {
  }

  lemma Shr18OfXor(a: bv32, b: bv32)
    ensures Shr18(a ^ b) == Shr18(a) ^ Shr18(b)
    ensures Shr18(Shr18(a)) == 0
  {
  }

  lemma XorCancels(y: bv32, s: bv32, t: bv32)
    ensures (y ^ s) ^ (s ^ t) == y ^ t
    ensures (y ^ s) ^ (s ^ 0) == y
  {
  }

  lemma ShiftedTwice(y: bv32)
    ensures Temper1(Temper1(y)) == y ^ Shr11(Shr11(y))
  {
    hide *;
    Unfold(y);
    Unfold(Temper1(y));
    Shr11OfXor(y, Shr11(y));
    XorCancels(y, Shr11(y), Shr11(Shr11(y)));
  }

  lemma Untempering1(y: bv32)
    ensures Untemper1(Temper1(y)) == y
  {
    hide *;
    Unfold(y);
    Unfold(Temper1(y));
    ShiftedTwice(y);
    Shr11OfXor(y, Shr11(Shr11(y)));
    XorCancels(y, Shr11(y), 0);
  }

  lemma Untempering2(y: bv32)
    ensures Untemper2(Temper2(y)) == y
  {
  }

  lemma Untempering3(y: bv32)
    ensures Temper3(Temper3(y)) == y
  {
  }

  lemma Untempering4(y: bv32)
    ensures Temper4(Temper4(y)) == y
  {
    hide *;
    Unfold(y);
    Unfold(Temper4(y));
    Shr18OfXor(y, Shr18(y));
    XorCancels(y, Shr18(y), 0);
  }

  /** Tempering loses nothing: the word a draw came from can be computed back. */
  lemma TemperIsInvertible(y: bv32)
    ensures Untemper(Temper(y)) == y
  {
    hide Temper1, Temper2, Temper3, Temper4, Untemper1, Untemper2;
    Untempering1(y);
    Untempering2(Temper1(y));
    Untempering3(Temper2(Temper1(y)));
    Untempering4(Temper3(Temper2(Temper1(y))));
  }

  /** What the masks and shifts of tempering make of each single bit. */
  lemma TemperOfBits()
    ensures Temper(0x1) == 0x00400091 && Temper(0x2) == 0x00000002 && Temper(0x4) == 0x01020244
    ensures Temper(0x8) == 0x02040489 && Temper(0x10) == 0x00000010 && Temper(0x20) == 0x08001220
    ensures Temper(0x40) == 0x00000040 && Temper(0x80) == 0x20404890 && Temper(0x100) == 0x00800120
    ensures Temper(0x200) == 0x01000240 && Temper(0x400) == 0x02000480 && Temper(0x800) == 0x04440990
    ensures Temper(0x1000) == 0x08081200 && Temper(0x2000) == 0x01022244 && Temper(0x4000) == 0x22244C81
    ensures Temper(0x8000) == 0x40009010 && Temper(0x10000) == 0x88013220 && Temper(0x20000) == 0x01020000
    ensures Temper(0x40000) == 0x20444891 && Temper(0x80000) == 0x04880022 && Temper(0x100000) == 0x09100044
    ensures Temper(0x200000) == 0x12200088 && Temper(0x400000) == 0x04440911 && Temper(0x800000) == 0x08881222
    ensures Temper(0x1000000) == 0x81000040 && Temper(0x2000000) == 0x22204888 && Temper(0x4000000) == 0x44009100
    ensures Temper(0x8000000) == 0x88012200 && Temper(0x10000000) == 0x11020440 && Temper(0x20000000) == 0x20040801
    ensures Temper(0x40000000) == 0x44081102 && Temper(0x80000000) == 0x88102204
  {
  }

  /** One step of the recurrence seen from the start of a window. */
  lemma WordStep(seed: bv32, base: nat, i: nat)
    ensures Word(seed, base + N + i)
            == Word(seed, base + i + M) ^ Mix(Word(seed, base + i), Word(seed, base + i + 1))
  {
    hide SeedStep, Mix;
  }

  lemma FirstWord(seed: bv32)
    ensures Word(seed, 0) == seed && IndexWord(0) == 0
  {
  }

  lemma SeedWord(seed: bv32, i: nat)
    requires 0 < i < N
    ensures Word(seed, i) == SeedStep(Word(seed, i - 1), IndexWord(i)) && IndexWord(i) == IndexWord(i - 1) + 1
  {
    hide SeedStep, Mix;
  }

  /** The seeding congruence, one step. */
  method NextSeedWord(prev: bv32, i: bv32) returns (w: bv32)
    ensures w == SeedStep(prev, i)
  {
    w := F * (prev ^ (prev >> 30)) + i;
  }

  /** The twist of two neighbours; the two masked parts share no bit, so adding them joins them. */
  method TwistOf(u: bv32, l: bv32) returns (xA: bv32)
    ensures xA == Mix(u, l)
  {
    var x := (u & MASK_UPPER) + (l & MASK_LOWER);
    xA := x >> 1;
    if x & 1 != 0 {
      xA := xA ^ A;
    }
  }

  class Random {
    var mt: array<bv32>
    var index: nat
    ghost var seeded: bv32  // the last seed
    ghost var drawn: nat    // how many numbers were drawn since

    /** The array is the window of the infinite sequence that starts at word 624 + drawn - index. */
    ghost predicate Valid()
      reads this, mt
    {
      && mt.Length == N
      && index <= N
      && index <= N + drawn
      && forall i | 0 <= i < N :: mt[i] == Word(seeded, N + drawn - index + i)
    }

    constructor ()
      ensures Valid() && seeded == 42 && drawn == 0
    {
      mt := new bv32[N];
      new;
      Seed(42);
    }

    method Seed(seed: bv32)
      requires mt.Length == N
      modifies this, mt
      ensures mt == old(mt) && Valid() && seeded == seed && drawn == 0
    {
      hide SeedStep, Mix, Word, IndexWord;
      mt[0] := seed;
      FirstWord(seed);
      var word: bv32 := 0;  // the loop counter as the u32 it is in the source
      for i := 1 to N
        invariant mt == old(mt) && word == IndexWord(i - 1)
        invariant forall j | 0 <= j < i :: mt[j] == Word(seed, j)
      {
        SeedWord(seed, i);
        word := word + 1;
        var next := NextSeedWord(mt[i - 1], word);
        mt[i] := next;
      }
      index := N;
      seeded, drawn := seed, 0;
    }

    /** Draw k after a seeding is the tempered word 624 + k of the sequence. */
    method Rand() returns (y: bv32)
      requires Valid()
      modifies this, mt
      ensures mt == old(mt) && Valid() && seeded == old(seeded) && drawn == old(drawn) + 1
      ensures y == Temper(Word(seeded, N + old(drawn)))
    {
      hide Word, Temper;
      if index >= N {
        Twist();
      }
      y := Temper(mt[index]);
      index := index + 1;
      drawn := drawn + 1;
    }

    /** Rewrites the array in place; the reads at i + 1 and i + 397 wrap round to entries
        that already belong to the next window, which is exactly what the recurrence needs. */
    method Twist()
      requires Valid() && index == N
      modifies this`index, mt
      ensures Valid() && index == 0
    {
      hide Word, Mix;
      ghost var base: nat := drawn;
      for i := 0 to N
        invariant forall j | 0 <= j < i :: mt[j] == Word(seeded, base + N + j)
        invariant forall j | i <= j < N :: mt[j] == Word(seeded, base + j)
      {
        var xA := TwistOf(mt[i], mt[(i + 1) % N]);
        WordStep(seeded, base, i);
        assert mt[(i + 1) % N] == Word(seeded, base + i + 1);
        assert mt[(i + M) % N] == Word(seeded, base + i + M);
        mt[i] := mt[(i + M) % N] ^ xA;
      }
      index := 0;
    }
  }
}
