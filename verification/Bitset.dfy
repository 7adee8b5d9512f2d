/** Bitset (src/Bitset.h): an array of 64-bit words, each kept as its 64 bits, lowest first. */
module Bitset {
  import opened Options

  ghost predicate Words(words: seq<seq<bool>>) {
    forall w | w in words :: |w| == 64
  }

  predicate Get(words: seq<seq<bool>>, i: nat)
    requires Words(words) && i < 64 * |words|
  {
    assert words[i / 64] in words;
    words[i / 64][i % 64]
  }

  /** set(i) and unset(i). */
  function Put(words: seq<seq<bool>>, i: nat, b: bool): (after: seq<seq<bool>>)
    requires Words(words) && i < 64 * |words|
    ensures Words(after) && |after| == |words|
    ensures forall j: nat | j < 64 * |words| :: Get(after, j) == if j == i then b else Get(words, j)
  {
    assert words[i / 64] in words;
    var after := words[i / 64 := words[i / 64][i % 64 := b]];
    assert forall w | w in after :: w in words || w == after[i / 64];
    after
  }

  /** bsf(): the lowest bit that is 1 among the full words, or None. */
  method Bsf(words: seq<seq<bool>>, size: nat) returns (r: Option<nat>)
    requires Words(words) && size / 64 <= |words|
    ensures r.None? ==> forall j: nat | j < size / 64 * 64 :: !Get(words, j)
    ensures r.Some? ==> r.value < size / 64 * 64 && Get(words, r.value) && forall j: nat | j < r.value :: !Get(words, j)
  {
    for i := 0 to size / 64
      invariant forall j: nat | j < 64 * i :: !Get(words, j)
    {
      assert words[i] in words;
      var pos := 0;
      while pos < 64 && !words[i][pos]
        invariant pos <= 64 && forall k | 0 <= k < pos :: !words[i][k]
      {
        pos := pos + 1;
      }
      if pos < 64 {
        return Some(pos + i * 64);
      }
    }
    r := None;
  }
}
