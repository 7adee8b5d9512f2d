/** The bitmaps and free counters of an Ext2 partition (src/HDD/Ext2.cpp): one bitmap and one
    counter per block group, and a total in the superblock.  Blocks and inodes share this. */
module Ext2Alloc {
  import opened Arith

  /** `per` numbers to a group, whose bit is set when they are in use. */
  datatype Alloc = Alloc(per: nat, bits: seq<seq<bool>>, counts: seq<nat>, total: nat)

  function Clear(bits: seq<bool>): set<nat> {
    set k: nat | k < |bits| && !bits[k]
  }

  function Sum(counts: seq<nat>): nat {
    if counts == [] then 0 else Sum(counts[..|counts| - 1]) + counts[|counts| - 1]
  }

  /** The bits cover every number of a group, and those past the group size are set. */
  ghost predicate Shaped(a: Alloc) {
    && a.per > 0 && |a.bits| == |a.counts|
    && forall g | 0 <= g < |a.bits| ::
         && a.per <= |a.bits[g]|
         && forall k | a.per <= k < |a.bits[g]| :: a.bits[g][k]
  }

  /** Each counter is the number of clear bits of its group, the total the sum of the counters. */
  ghost predicate Accounted(a: Alloc) {
    && Shaped(a)
    && (forall g | 0 <= g < |a.bits| :: a.counts[g] == |Clear(a.bits[g])|)
    && a.total == Sum(a.counts)
  }

  /** Number n is the bit n % per of group n / per. */
  predicate IsFree(a: Alloc, n: nat)
    requires a.per > 0
  {
    && Div(n, a.per) < |a.bits|
    && Mod(n, a.per) < |a.bits[Div(n, a.per)]|
    && !a.bits[Div(n, a.per)][Mod(n, a.per)]
  }

  predicate InUse(a: Alloc, n: nat)
    requires a.per > 0
  {
    && Div(n, a.per) < |a.bits|
    && Mod(n, a.per) < |a.bits[Div(n, a.per)]|
    && a.bits[Div(n, a.per)][Mod(n, a.per)]
  }

  ghost function Free(a: Alloc): set<nat>
    requires a.per > 0
  {
    set n: nat | n < Mul(|a.bits|, a.per) && IsFree(a, n)
  }

  /** Mark a free number as used. */
  function Take(a: Alloc, n: nat): Alloc
    requires a.per > 0 && IsFree(a, n) && |a.bits| == |a.counts| && a.counts[Div(n, a.per)] > 0 && a.total > 0
  {
    var g, k := Div(n, a.per), Mod(n, a.per);
    a.(bits := a.bits[g := a.bits[g][k := true]], counts := a.counts[g := a.counts[g] - 1], total := a.total - 1)
  }

  /** Mark a used number as free. */
  function Give(a: Alloc, n: nat): Alloc
    requires a.per > 0 && InUse(a, n) && |a.bits| == |a.counts|
  {
    var g, k := Div(n, a.per), Mod(n, a.per);
    a.(bits := a.bits[g := a.bits[g][k := false]], counts := a.counts[g := a.counts[g] + 1], total := a.total + 1)
  }

  // ------------------------------------------------------------ one bit, one group

  lemma SetBit(bits: seq<bool>, k: nat)
    requires k < |bits| && !bits[k]
    ensures Clear(bits[k := true]) == Clear(bits) - {k} && |Clear(bits)| == |Clear(bits[k := true])| + 1
  {
    assert Clear(bits[k := true]) == Clear(bits) - {k};
    assert k in Clear(bits);
  }

  lemma {:induction false} SumUpdated(counts: seq<nat>, g: nat, c: nat)
    requires g < |counts|
    ensures Sum(counts[g := c]) + counts[g] == Sum(counts) + c
  {
    var n := |counts| - 1;
    if g < n {
      SumUpdated(counts[..n], g, c);
      assert counts[g := c][..n] == counts[..n][g := c];
    } else {
      assert counts[g := c][..n] == counts[..n];
    }
  }

  lemma {:induction false} MemberOfSum(counts: seq<nat>, g: nat)
    requires g < |counts|
    ensures counts[g] <= Sum(counts)
  {
    if g < |counts| - 1 {
      MemberOfSum(counts[..|counts| - 1], g);
    }
  }

  // ------------------------------------------------------------- group and index

  lemma SameNumber(per: nat, m: nat, n: nat)
    requires per > 0 && Div(m, per) == Div(n, per) && Mod(m, per) == Mod(n, per)
    ensures m == n
  {
    hide Mul, Div, Mod;
    DivModIs(m, per);
    DivModIs(n, per);
  }

  lemma FreeIff(a: Alloc, n: nat)
    requires a.per > 0
    ensures n in Free(a) <==> IsFree(a, n)
  {
    hide Mul, Div, Mod;
    DivBelow(n, a.per, |a.bits|);
  }

  // ------------------------------------------------------------- what is kept

  lemma CanTake(a: Alloc, n: nat)
    requires Accounted(a) && IsFree(a, n)
    ensures a.counts[Div(n, a.per)] > 0 && a.total > 0
  {
    hide Mul, Div, Mod;
    var g := Div(n, a.per);
    assert Mod(n, a.per) in Clear(a.bits[g]);
    MemberOfSum(a.counts, g);
  }

  /** Taking a free number keeps the books and removes exactly that number. */
  lemma TakeKeepsAccounts(a: Alloc, n: nat)
    requires Accounted(a) && IsFree(a, n)
    ensures a.counts[Div(n, a.per)] > 0 && a.total > 0
    ensures Accounted(Take(a, n)) && Free(Take(a, n)) == Free(a) - {n} && n in Free(a)
  {
    hide Mul, Div, Mod;
    CanTake(a, n);
    SetBit(a.bits[Div(n, a.per)], Mod(n, a.per));
    SumUpdated(a.counts, Div(n, a.per), a.counts[Div(n, a.per)] - 1);
    FreeIff(a, n);
    forall m: nat
      ensures m in Free(Take(a, n)) <==> m in Free(a) - {n}
    {
      FreeIff(a, m);
      FreeIff(Take(a, n), m);
      if Div(m, a.per) == Div(n, a.per) && Mod(m, a.per) == Mod(n, a.per) {
        SameNumber(a.per, m, n);
      }
    }
  }

  /** Giving a used number back keeps the books and adds exactly that number. */
  lemma GiveKeepsAccounts(a: Alloc, n: nat)
    requires Accounted(a) && InUse(a, n)
    ensures Accounted(Give(a, n)) && Free(Give(a, n)) == Free(a) + {n} && n !in Free(a)
  {
    hide Mul, Div, Mod;
    var g := Div(n, a.per);
    SetBit(a.bits[g][Mod(n, a.per) := false], Mod(n, a.per));
    assert a.bits[g][Mod(n, a.per) := false][Mod(n, a.per) := true] == a.bits[g];
    DivModIs(n, a.per);
    SumUpdated(a.counts, g, a.counts[g] + 1);
    forall m: nat
      ensures m in Free(Give(a, n)) <==> m in Free(a) + {n}
    {
      FreeIff(a, m);
      FreeIff(Give(a, n), m);
      if Div(m, a.per) == Div(n, a.per) && Mod(m, a.per) == Mod(n, a.per) {
        SameNumber(a.per, m, n);
      }
    }
  }

  /** Freeing what was just allocated restores bitmaps, counters and total. */
  lemma GiveUndoesTake(a: Alloc, n: nat)
    requires Accounted(a) && IsFree(a, n)
    ensures a.counts[Div(n, a.per)] > 0 && a.total > 0
    ensures InUse(Take(a, n), n) && Give(Take(a, n), n) == a
  {
    hide Mul, Div, Mod;
    CanTake(a, n);
    var g, k := Div(n, a.per), Mod(n, a.per);
    assert a.bits[g][k := true][k := false] == a.bits[g];
    assert Give(Take(a, n), n).bits == a.bits;
    assert Give(Take(a, n), n).counts == a.counts;
  }

  /** The free numbers of the groups before g. */
  ghost function FreeBefore(a: Alloc, g: nat): set<nat>
    requires a.per > 0 && g <= |a.bits|
  {
    set n: nat | n < Mul(g, a.per) && IsFree(a, n)
  }

  /** The numbers of group g whose bit is clear, by bit index. */
  lemma GroupIsItsBits(a: Alloc, g: nat, bits: set<nat>)
    requires Shaped(a) && g < |a.bits| && bits <= Clear(a.bits[g])
    ensures |set k | k in bits :: Mul(g, a.per) + k| == |bits|
    decreases bits
  {
    hide Mul;
    var numbers := set k | k in bits :: Mul(g, a.per) + k;
    if bits == {} {
      assert numbers == {};
    } else {
      var k :| k in bits;
      var fewer := set j | j in bits - {k} :: Mul(g, a.per) + j;
      GroupIsItsBits(a, g, bits - {k});
      forall x
        ensures x in numbers <==> x in fewer + {Mul(g, a.per) + k}
      {
        if x in numbers {
          var j :| j in bits && x == Mul(g, a.per) + j;
          assert j == k || j in bits - {k};
        }
      }
      assert numbers == fewer + {Mul(g, a.per) + k};
      assert Mul(g, a.per) + k !in fewer;
    }
  }

  lemma {:induction false} FreeBeforeIsCounted(a: Alloc, g: nat)
    requires Accounted(a) && g <= |a.bits|
    ensures |FreeBefore(a, g)| == Sum(a.counts[..g])
  {
    hide Mul, Div, Mod, IsFree;
    MulStep(0, a.per);
    if g == 0 {
      assert FreeBefore(a, g) == {};
    } else {
      var h := g - 1;
      FreeBeforeIsCounted(a, h);
      assert a.counts[..g][..h] == a.counts[..h];
      var here := set k | k in Clear(a.bits[h]) :: Mul(h, a.per) + k;
      GroupIsItsBits(a, h, Clear(a.bits[h]));
      forall n: nat
        ensures n in FreeBefore(a, g) <==> n in FreeBefore(a, h) || n in here
        ensures n !in FreeBefore(a, h) || n !in here
      {
        GroupOf(a, h, n);
      }
      assert FreeBefore(a, g) == FreeBefore(a, h) + here;
      assert FreeBefore(a, h) !! here;
    }
  }

  lemma GroupOf(a: Alloc, h: nat, n: nat)
    requires Shaped(a) && h < |a.bits|
    ensures Mul(h, a.per) <= n < Mul(h + 1, a.per) <==> Div(n, a.per) == h
    ensures n < Mul(h + 1, a.per) <==> n < Mul(h, a.per) || Div(n, a.per) == h
    ensures IsFree(a, n) && Div(n, a.per) == h <==> exists k :: k in Clear(a.bits[h]) && n == Mul(h, a.per) + k
  {
    hide Mul, Div, Mod;
    DivModIs(n, a.per);
    DivBelow(n, a.per, h);
    DivBelow(n, a.per, h + 1);
    if IsFree(a, n) && Div(n, a.per) == h {
      assert Mod(n, a.per) in Clear(a.bits[h]) && n == Mul(h, a.per) + Mod(n, a.per);
    }
    if k :| k in Clear(a.bits[h]) && n == Mul(h, a.per) + k {
      DivModOf(h, k, a.per);
    }
  }

  /** The superblock's total is the number of free numbers. */
  lemma TotalIsTheFreeCount(a: Alloc)
    requires Accounted(a)
    ensures a.total == |Free(a)|
  {
    FreeBeforeIsCounted(a, |a.bits|);
    assert a.counts[..|a.bits|] == a.counts;
    assert FreeBefore(a, |a.bits|) == Free(a);
  }
}
