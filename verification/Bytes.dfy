/** Little-endian numbers in memory and on disk. */
module Bytes {
  type byte = x: int | 0 <= x < 256

  const P64: nat := 0x1_0000_0000_0000_0000
  const P32: nat := 0x1_0000_0000

  /** Some bytes with others written over them. */
  function Overwritten(bytes: seq<byte>, offset: nat, data: seq<byte>): (after: seq<byte>)
    requires offset + |data| <= |bytes|
    ensures |after| == |bytes|
  {
    bytes[..offset] + data + bytes[offset + |data|..]
  }

  function Value(bytes: seq<byte>): nat {
    if bytes == [] then 0 else bytes[0] + 256 * Value(bytes[1..])
  }

  function Digits(v: nat, n: nat): (b: seq<byte>)
    ensures |b| == n
  {
    if n == 0 then [] else [v % 256] + Digits(v / 256, n - 1)
  }

  function Power(n: nat): nat {
    if n == 0 then 1 else 256 * Power(n - 1)
  }

  /** A number that fits in n bytes is read back as it was written. */
  lemma {:induction false} ValueOfDigits(v: nat, n: nat)
    requires v < Power(n)
    ensures Value(Digits(v, n)) == v
  {
    if n > 0 {
      ValueOfDigits(v / 256, n - 1);
      assert Digits(v, n)[1..] == Digits(v / 256, n - 1);
    }
  }

  /** A block read as an array of 32-bit numbers. */
  function Words(bytes: seq<byte>): (w: seq<nat>)
    ensures |w| == |bytes| / 4
  {
    seq(|bytes| / 4, i requires 0 <= i < |bytes| / 4 => Value(bytes[4 * i..4 * i + 4]))
  }

  /** An array of 32-bit numbers written as a block. */
  function Block(words: seq<nat>): (b: seq<byte>)
    ensures |b| == 4 * |words|
  {
    seq(4 * |words|, i requires 0 <= i < 4 * |words| => Digits(words[i / 4], 4)[i % 4])
  }

  /** The array written is the array read back. */
  lemma WordsOfBlock(words: seq<nat>)
    requires forall i | 0 <= i < |words| :: words[i] < P32
    ensures Words(Block(words)) == words
  {
    hide Block, Digits, Value;
    forall i: nat | i < |words|
      ensures Words(Block(words))[i] == words[i]
    {
      FourBytes();
      ValueOfDigits(words[i], 4);
      WordInBlock(words, i);
    }
  }

  lemma FourBytes()
    ensures Power(4) == P32
  {
  }

  lemma WordInBlock(words: seq<nat>, i: nat)
    requires i < |words|
    ensures Block(words)[4 * i..4 * i + 4] == Digits(words[i], 4)
  {
    hide Digits;
    forall j | 0 <= j < 4
      ensures Block(words)[4 * i + j] == Digits(words[i], 4)[j]
    {
      assert (4 * i + j) / 4 == i && (4 * i + j) % 4 == j;
    }
  }

  lemma {:induction false} ValueBelow(bytes: seq<byte>)
    ensures Value(bytes) < Power(|bytes|)
  {
    if bytes != [] {
      ValueBelow(bytes[1..]);
    }
  }

  lemma WordsBelow(bytes: seq<byte>)
    ensures forall i | 0 <= i < |Words(bytes)| :: Words(bytes)[i] < P32
  {
    hide Value, Power;
    FourBytes();
    forall i: nat | i < |bytes| / 4
      ensures Words(bytes)[i] < P32
    {
      ValueBelow(bytes[4 * i..4 * i + 4]);
    }
  }
}
