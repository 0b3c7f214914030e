/**
  The pivot tree of the lazy bucket sort: how many buckets there are, how the pivots are laid
  out in the tree, and that descending the tree counts the pivots that are not below a value.
*/
module BucketTree {
  function Pow2(k: nat): (r: nat)
    ensures r > 0
  {
    if k == 0 then 1 else 2 * Pow2(k - 1)
  }

  /** After i halvings of val, v is left. */
  ghost predicate Halved(v: nat, i: nat, val: nat) {
    v * Pow2(i) <= val < (v + 1) * Pow2(i) && (v == 0 && val > 0 ==> i > 0 && Pow2(i - 1) <= val)
  }

  /** ilog2: the number of bits of val. */
  method Ilog2(val: nat) returns (i: nat)
    ensures if val == 0 then i == 0 else i > 0 && Pow2(i - 1) <= val < Pow2(i)
  {
    i := 0;
    var v := val;
    assert Halved(v, i, val);
    while v != 0
      invariant v >= 0 && Halved(v, i, val) && (val == 0 ==> i == 0)
    {
      Halve(v, i, val);
      hide Halved;
      v := v / 2;
      i := i + 1;
    }
  }

  lemma Halve(v: nat, i: nat, val: nat)
    requires v > 0 && Halved(v, i, val)
    ensures Halved(v / 2, i + 1, val) && val > 0
  {
    var p, q := Pow2(i), Pow2(i + 1);
    assert q == 2 * p;
    HalveBounds(v / 2, v, p);
    Scale(1, v, p);
    hide Pow2;
  }

  lemma HalveBounds(h: nat, v: nat, p: nat)
    requires 2 * h <= v <= 2 * h + 1
    ensures h * (2 * p) <= v * p && (v + 1) * p <= (h + 1) * (2 * p)
  {
    Scale(2 * h, v, p);
    Scale(v + 1, 2 * h + 2, p);
  }

  lemma Scale(a: nat, b: nat, p: nat)
    requires a <= b
    ensures a * p <= b * p
  {
  }

  lemma {:induction false} PowMono(a: nat, b: nat)
    requires a <= b
    ensures Pow2(a) <= Pow2(b)
  {
    if a < b {
      PowMono(a, b - 1);
    }
  }

  lemma PowLess(a: nat, b: nat)
    ensures Pow2(a) < Pow2(b) ==> a < b
  {
    if b <= a {
      PowMono(b, a);
    }
  }

  lemma SmallPowers()
    ensures Pow2(1) == 2 && Pow2(3) == 8 && Pow2(4) == 16 && Pow2(15) == 0x8000
  {
    assert Pow2(5) == 32 && Pow2(10) == 1024;
  }

  /** The number of buckets: the largest power of two that is at most the number of bits of n. */
  method BucketCount(n: nat) returns (nb: nat, ghost k: nat, ghost bits: nat)
    requires n >= 3
    ensures bits > 0 && Pow2(bits - 1) <= n < Pow2(bits) && nb <= bits < 2 * nb
    ensures nb == Pow2(k) && k >= 1 && (n < 0x8000 ==> k <= 3 && nb <= 8)
  {
    SmallPowers();
    var log := Ilog2(n);
    PowLess(1, log);
    PowLess(log - 1, 15);
    var exponent := Ilog2(log);
    PowLess(exponent - 1, 4);
    PowLess(0, exponent - 1);
    var p := Pow2(exponent - 1);
    OneAbove(log, p);
    nb := log / p;
    nb := nb * p;
    k, bits := exponent - 1, log;
    if k <= 3 { PowMono(k, 3); }
  }

  lemma OneAbove(x: nat, p: nat)
    requires p > 0 && p <= x < 2 * p
    ensures x / p == 1
  {
  }

  // ----- the tree -----

  /** x is i or below it in the tree numbered from 1 by levels. */
  ghost predicate Under(i: nat, x: nat) {
    i > 0 && x >= i && (x == i || Under(i, x / 2))
  }

  lemma {:induction false} UnderParent(i: nat, j: nat, x: nat)
    requires Under(j, x) && i > 0 && j / 2 == i
    ensures Under(i, x) && x != i
  {
    if x != j {
      UnderParent(i, j, x / 2);
    }
  }

  lemma {:induction false} UnderApart(i: nat, x: nat)
    requires i > 0
    ensures !(Under(2 * i, x) && Under(2 * i + 1, x))
  {
    if Under(2 * i, x) && Under(2 * i + 1, x) {
      if x != 2 * i + 1 {
        UnderApart(i, x / 2);
      }
    }
  }

  /** Below node i, the tree holds the pivots from lo on, w - 1 of them, as a search tree. */
  ghost predicate TreeOk(t: seq<int>, pivots: seq<int>, i: nat, lo: nat, k: nat)
    decreases k
  {
    k > 0 ==>
      && i < |t| && lo + Pow2(k - 1) - 1 < |pivots| && t[i] == pivots[lo + Pow2(k - 1) - 1]
      && TreeOk(t, pivots, 2 * i, lo, k - 1) && TreeOk(t, pivots, 2 * i + 1, lo + Pow2(k - 1), k - 1)
  }

  lemma {:induction false} TreeKept(t: seq<int>, t': seq<int>, pivots: seq<int>, i: nat, lo: nat, k: nat)
    requires i > 0 && TreeOk(t, pivots, i, lo, k) && |t'| == |t|
    requires forall x :: 0 <= x < |t| && Under(i, x) ==> t'[x] == t[x]
    ensures TreeOk(t', pivots, i, lo, k)
    decreases k
  {
    if k > 0 {
      assert Under(i, i);
      forall x | 0 <= x < |t| && (Under(2 * i, x) || Under(2 * i + 1, x)) ensures t'[x] == t[x] {
        if Under(2 * i, x) { UnderParent(i, 2 * i, x); } else { UnderParent(i, 2 * i + 1, x); }
      }
      TreeKept(t, t', pivots, 2 * i, lo, k - 1);
      TreeKept(t, t', pivots, 2 * i + 1, lo + Pow2(k - 1), k - 1);
    }
  }

  lemma DfsRanges(i: nat, inf: nat, sup: nat, k: nat, size: nat)
    requires k > 0 && inf > 0 && sup + 2 == inf + Pow2(k) && (i + 1) * Pow2(k) <= size
    ensures (inf + sup) / 2 == inf + Pow2(k - 1) - 1 && (2 * i + 2) * Pow2(k - 1) <= size
    ensures (2 * i + 1) * Pow2(k - 1) <= size && i < size
  {
    var h := Pow2(k - 1);
    assert inf + sup == 2 * (inf + h - 1);
    assert (i + 1) * (2 * h) == (2 * i + 2) * h;
    Scale(2 * i + 1, 2 * i + 2, h);
    Scale(i + 1, (i + 1) * Pow2(k), 1);
    AtLeast(i + 1, Pow2(k));
  }

  lemma AtLeast(a: nat, p: nat)
    requires p > 0
    ensures a <= a * p
  {
  }

  /** The root, then the left half, then the right half: none disturbs another. */
  lemma DfsDone(t: seq<int>, t1: seq<int>, t2: seq<int>, t3: seq<int>, pivots: seq<int>, i: nat, lo: nat, k: nat)
    requires k > 0 && i > 0 && i < |t| == |t1| == |t2| == |t3| && lo + Pow2(k - 1) - 1 < |pivots|
    requires t1 == t[i := pivots[lo + Pow2(k - 1) - 1]]
    requires TreeOk(t2, pivots, 2 * i, lo, k - 1) && forall x :: 0 <= x < |t| && !Under(2 * i, x) ==> t2[x] == t1[x]
    requires TreeOk(t3, pivots, 2 * i + 1, lo + Pow2(k - 1), k - 1)
    requires forall x :: 0 <= x < |t| && !Under(2 * i + 1, x) ==> t3[x] == t2[x]
    ensures TreeOk(t3, pivots, i, lo, k) && forall x :: 0 <= x < |t| && !Under(i, x) ==> t3[x] == t[x]
  {
    forall x | 0 <= x < |t| && Under(2 * i, x) ensures t3[x] == t2[x] {
      UnderApart(i, x);
    }
    TreeKept(t2, t3, pivots, 2 * i, lo, k - 1);
    assert !Under(2 * i, i) && !Under(2 * i + 1, i);
    forall x | 0 <= x < |t| && !Under(i, x) ensures t3[x] == t[x] {
      if Under(2 * i, x) { UnderParent(i, 2 * i, x); }
      if Under(2 * i + 1, x) { UnderParent(i, 2 * i + 1, x); }
      assert Under(i, i);
    }
  }

  /** dfs: the pivots from inf to sup (counted from 1) go below node i. */
  method Dfs(t: seq<int>, i: nat, inf: nat, sup: nat, pivots: seq<int>, depth: nat, maxDepth: nat)
    returns (t': seq<int>)
    requires depth <= maxDepth && i > 0 && inf > 0 && sup + 2 == inf + Pow2(maxDepth - depth) && sup <= |pivots|
    requires (i + 1) * Pow2(maxDepth - depth) <= |t|
    ensures |t'| == |t| && TreeOk(t', pivots, i, inf - 1, maxDepth - depth)
    ensures forall x :: 0 <= x < |t| && !Under(i, x) ==> t'[x] == t[x]
    decreases maxDepth - depth
  {
    if depth == maxDepth {
      return t;
    }
    ghost var k := maxDepth - depth;
    DfsRanges(i, inf, sup, k, |t|);
    hide TreeOk, Under;
    var p := (inf + sup) / 2;
    var t1 := t[i := pivots[p - 1]];
    var t2 := Dfs(t1, 2 * i, inf, p - 1, pivots, depth + 1, maxDepth);
    t' := Dfs(t2, 2 * i + 1, p + 1, sup, pivots, depth + 1, maxDepth);
    DfsDone(t, t1, t2, t', pivots, i, inf - 1, k);
  }

  // ----- descending the tree -----

  ghost predicate NonIncreasing(pivots: seq<int>) {
    forall i, j :: 0 <= i < j < |pivots| ==> pivots[i] >= pivots[j]
  }

  /** The pivots before index lo are not below the value, those from index hi on are below it. */
  ghost predicate Between(pivots: seq<int>, val: int, lo: nat, hi: nat) {
    && lo <= hi <= |pivots| && (forall i :: 0 <= i < lo ==> pivots[i] >= val)
    && (forall i :: hi <= i < |pivots| ==> pivots[i] < val)
  }

  /** built_pivot_tree: inner nodes hold the pivots, leaves the numbers of the buckets. */
  method BuildTree(pivots: seq<int>, nb: nat, maxDepth: nat) returns (t: seq<int>)
    requires nb == Pow2(maxDepth) == |pivots| + 1
    ensures |t| == 2 * nb && TreeOk(t, pivots, 1, 0, maxDepth) && forall i :: nb <= i < 2 * nb ==> t[i] == i - nb
  {
    t := seq(2 * nb, _ => 0);
    t := Dfs(t, 1, 1, nb - 1, pivots, 0, maxDepth);
    ghost var inner := t;
    t := t[0 := -1];
    var k := 0;
    for i := nb to 2 * nb
      invariant |t| == 2 * nb && k == i - nb && (forall x :: nb <= x < i ==> t[x] == x - nb)
      invariant forall x :: 0 < x < nb ==> t[x] == inner[x]
    {
      t := t[i := k];
      k := k + 1;
    }
    InnerKept(inner, t, pivots, 1, 0, maxDepth, nb);
  }

  /** The inner nodes are those below nb. */
  lemma {:induction false} InnerKept(t: seq<int>, t': seq<int>, pivots: seq<int>, i: nat, lo: nat, k: nat, nb: nat)
    requires TreeOk(t, pivots, i, lo, k) && |t'| == |t| && i > 0 && (i + 1) * Pow2(k) <= 2 * nb <= |t|
    requires forall x :: 0 < x < nb ==> t'[x] == t[x]
    ensures TreeOk(t', pivots, i, lo, k)
    decreases k
  {
    if k > 0 {
      InnerSizes(i, Pow2(k - 1), nb);
      InnerKept(t, t', pivots, 2 * i, lo, k - 1, nb);
      InnerKept(t, t', pivots, 2 * i + 1, lo + Pow2(k - 1), k - 1, nb);
    }
  }

  lemma InnerSizes(i: nat, h: nat, nb: nat)
    requires h > 0 && (i + 1) * (2 * h) <= 2 * nb
    ensures i < nb && (2 * i + 1) * h <= 2 * nb && (2 * i + 2) * h <= 2 * nb
  {
    assert (i + 1) * (2 * h) == (2 * i + 2) * h == 2 * ((i + 1) * h);
    Scale(2 * i + 1, 2 * i + 2, h);
    AtLeast(i + 1, h);
  }

  /** Node p, k levels above the leaves: its pivots are those that are still undecided. */
  ghost predicate Descending(t: seq<int>, pivots: seq<int>, val: int, nb: nat, p: nat, lo: nat, k: nat) {
    p > 0 && TreeOk(t, pivots, p, lo, k) && p * Pow2(k) == nb + lo && Between(pivots, val, lo, lo + Pow2(k) - 1)
  }

  lemma Descend(t: seq<int>, pivots: seq<int>, val: int, nb: nat, p: nat, lo: nat, k: nat)
    requires k > 0 && NonIncreasing(pivots) && Descending(t, pivots, val, nb, p, lo, k)
    ensures p < |t| && (val > t[p] ==> Descending(t, pivots, val, nb, p * 2, lo, k - 1))
    ensures val <= t[p] ==> Descending(t, pivots, val, nb, p * 2 + 1, lo + Pow2(k - 1), k - 1)
  {
    var h := Pow2(k - 1);
    Doubled(p, h);
    var mid := lo + h - 1;
    assert t[p] == pivots[mid];
    hide TreeOk;
  }

  lemma Doubled(p: nat, h: nat)
    ensures p * (2 * h) == (p * 2) * h && (p * 2 + 1) * h == (p * 2) * h + h
  {
  }

  /** bucket_id: the number of pivots that are not below the value. */
  method BucketId(t: seq<int>, ghost pivots: seq<int>, val: int, nb: nat, maxDepth: nat) returns (id: int)
    requires nb == Pow2(maxDepth) == |pivots| + 1 && |t| == 2 * nb && TreeOk(t, pivots, 1, 0, maxDepth)
    requires NonIncreasing(pivots) && forall i :: nb <= i < 2 * nb ==> t[i] == i - nb
    ensures 0 <= id < nb && Between(pivots, val, id, id)
  {
    hide Descending, TreeOk;
    var p: nat := 1;
    ghost var lo: nat := 0;
    DescendStart(t, pivots, val, nb, maxDepth);
    for k := 0 to maxDepth
      invariant Descending(t, pivots, val, nb, p, lo, maxDepth - k)
    {
      Descend(t, pivots, val, nb, p, lo, maxDepth - k);
      if val > t[p] {
        p := p * 2;
      } else {
        p := p * 2 + 1;
        lo := lo + Pow2(maxDepth - k - 1);
      }
    }
    DescendEnd(t, pivots, val, nb, p, lo);
    id := t[p];
  }

  lemma DescendStart(t: seq<int>, pivots: seq<int>, val: int, nb: nat, maxDepth: nat)
    requires nb == Pow2(maxDepth) == |pivots| + 1 && TreeOk(t, pivots, 1, 0, maxDepth)
    ensures Descending(t, pivots, val, nb, 1, 0, maxDepth)
  {
    hide TreeOk;
  }

  lemma DescendEnd(t: seq<int>, pivots: seq<int>, val: int, nb: nat, p: nat, lo: nat)
    requires Descending(t, pivots, val, nb, p, lo, 0)
    ensures p == nb + lo && lo <= |pivots| && Between(pivots, val, lo, lo)
  {
    hide TreeOk;
    assert Pow2(0) == 1;
  }
}
