/**
  optimize_arity: levels whose arity is divisible by 3 or 2 are split.  The number of leaves
  and the cost at which two leaves part ways do not change, and no split level is left over.
*/
module Arity {
  import opened Collections

  function Product(arity: seq<nat>): nat {
    if arity == [] then 1 else arity[0] * Product(arity[1..])
  }

  ghost function SumTo(arity: seq<nat>, n: nat): nat
    requires n <= |arity|
  {
    if n == 0 then 0 else SumTo(arity, n - 1) + arity[n-1]
  }

  /** 2, 3, or neither divides it. */
  ghost predicate Fine(a: nat) {
    a == 2 || a == 3 || (a % 2 != 0 && a % 3 != 0)
  }

  /** The cost of the first level at which the paths from the root to leaves x and y differ. */
  ghost function PartCost(arity: seq<nat>, cost: seq<int>, x: nat, y: nat): Option<int>
    requires |arity| <= |cost| && forall i :: 0 <= i < |arity| ==> arity[i] > 0
    decreases |arity|
  {
    if arity == [] then None else
      var below := Product(arity[1..]);
      if below == 0 then None
      else if x / below != y / below then Some(cost[0])
      else PartCost(arity[1..], cost[1..], x % below, y % below)
  }

  // ----- mixed-radix digits -----

  lemma {:induction false} DivIs(x: nat, p: nat, q: nat, r: nat)
    requires p > 0 && x == q * p + r && r < p
    ensures x / p == q && x % p == r
  {
    var d := x / p - q;
    assert x == p * (x / p) + x % p;
    assert p * d == r - x % p;
    SmallProduct(p, d);
  }

  lemma SmallProduct(p: int, d: int)
    requires -p < p * d < p
    ensures d == 0
  {
  }

  lemma Regroup(q: int, b: int, p: int, r1: int, r0: int)
    ensures q * (b * p) + (r1 * p + r0) == (q * b + r1) * p + r0
  {
    assert q * (b * p) == (q * b) * p;
    assert (q * b + r1) * p == (q * b) * p + r1 * p;
  }

  lemma DivMod(x: nat, w: nat)
    requires w > 0
    ensures x == x / w * w + x % w && x / w >= 0 && 0 <= x % w < w
  {
  }

  lemma PositiveProduct(b: nat, p: nat)
    requires b > 0 && p > 0
    ensures b * p > 0
  {
  }

  /** One digit in base k * b is a digit in base k followed by one in base b. */
  lemma TwoDigits(x: nat, b: nat, p: nat, w: nat)
    requires b > 0 && p > 0 && w == b * p
    ensures w > 0 && x / p == x / w * b + x % w / p && x % p == x % w % p
  {
    PositiveProduct(b, p);
    var q, r := x / w, x % w;
    DivMod(x, w);
    var r1, r0 := r / p, r % p;
    DivMod(r, p);
    Regroup(q, b, p, r1, r0);
    DivIs(x, p, q * b + r1, r0);
  }

  lemma DigitBelow(r: nat, b: nat, p: nat)
    requires p > 0 && r < b * p
    ensures r / p < b
  {
    DivMod(r, p);
    if r / p >= b {
      Grows(r / p - b, b, p);
      assert false;
    }
  }

  lemma Grows(t: nat, b: nat, p: nat)
    ensures (b + t) * p == b * p + t * p >= b * p
  {
  }

  lemma PairUnique(q: nat, r: nat, q': nat, r': nat, b: nat)
    requires r < b && r' < b
    ensures q * b + r == q' * b + r' <==> q == q' && r == r'
  {
    if q * b + r == q' * b + r' {
      DivIs(q * b + r, b, q, r);
      DivIs(q * b + r, b, q', r');
    }
  }

  lemma SameDigits(x: nat, y: nat, b: nat, p: nat, w: nat)
    requires b > 0 && p > 0 && w == b * p
    ensures w > 0 && (x / p == y / p <==> x / w == y / w && x % w / p == y % w / p)
  {
    TwoDigits(x, b, p, w);
    TwoDigits(y, b, p, w);
    DigitBelow(x % w, b, p);
    DigitBelow(y % w, b, p);
    PairUnique(x / w, x % w / p, y / w, y % w / p, b);
  }

  lemma PartTop(a: nat, rest: seq<nat>, c: int, costs: seq<int>, x: nat, y: nat, p: nat)
    requires a > 0 && Positive(rest) && |rest| <= |costs| && p == Product(rest)
    ensures p > 0 && Positive([a] + rest)
    ensures PartCost([a] + rest, [c] + costs, x, y) ==
              if x / p != y / p then Some(c) else PartCost(rest, costs, x % p, y % p)
  {
    ProductPositive(rest);
    assert ([a] + rest)[1..] == rest && ([c] + costs)[1..] == costs;
  }

  /** At the top level: an arity k * b, or levels k and b of the same cost. */
  lemma SplitTop(k: nat, b: nat, rest: seq<nat>, c: int, costs: seq<int>, x: nat, y: nat)
    requires k > 0 && b > 0 && |rest| <= |costs| && Positive(rest)
    ensures k * b > 0 && Positive([k * b] + rest) && Positive([k] + ([b] + rest))
    ensures PartCost([k] + ([b] + rest), [c] + ([c] + costs), x, y) == PartCost([k * b] + rest, [c] + costs, x, y)
  {
    hide PartCost;
    PositiveProduct(k, b);
    var p := Product(rest);
    var w := b * p;
    assert Product([b] + rest) == w by { assert ([b] + rest)[1..] == rest; }
    hide Product;
    PartTop(k * b, rest, c, costs, x, y, p);
    PartTop(b, rest, c, costs, x % w, y % w, p);
    PartTop(k, [b] + rest, c, [c] + costs, x, y, w);
    SameDigits(x, y, b, p, w);
    TwoDigits(x, b, p, w);
    TwoDigits(y, b, p, w);
  }

  ghost predicate Positive(s: seq<nat>) {
    forall i :: 0 <= i < |s| ==> s[i] > 0
  }

  lemma {:induction false} ProductPositive(s: seq<nat>)
    requires Positive(s)
    ensures Product(s) > 0
  {
    if s != [] {
      ProductPositive(s[1..]);
      PositiveProduct(s[0], Product(s[1..]));
    }
  }

  // ----- splitting a level -----

  /** Level n becomes levels k and b. */
  ghost function Split<T>(s: seq<T>, n: nat, k: T, b: T): seq<T>
    requires n < |s|
  {
    s[..n] + [k, b] + s[n+1..]
  }

  /** The same leaves, parting at the same costs. */
  ghost predicate Same(arity: seq<nat>, cost: seq<int>, arity': seq<nat>, cost': seq<int>) {
    && |arity| <= |cost| && |arity'| <= |cost'| && Positive(arity) && Positive(arity')
    && Product(arity') == Product(arity)
    && forall x: nat, y: nat :: PartCost(arity', cost', x, y) == PartCost(arity, cost, x, y)
  }

  lemma {:induction false} SplitPart(arity: seq<nat>, cost: seq<int>, n: nat, k: nat, b: nat, x: nat, y: nat)
    requires |arity| <= |cost| && Positive(arity) && n < |arity| && arity[n] == k * b && k > 0 && b > 0
    ensures Positive(Split<nat>(arity, n, k, b)) && Product(Split<nat>(arity, n, k, b)) == Product(arity)
    ensures PartCost(Split<nat>(arity, n, k, b), Split<int>(cost, n, cost[n], cost[n]), x, y) ==
              PartCost(arity, cost, x, y)
  {
    var rest, costs := arity[1..], cost[1..];
    assert arity == [arity[0]] + rest && cost == [cost[0]] + costs;
    if n == 0 {
      SplitFirst(arity, k, b);
      assert Split<nat>(arity, 0, k, b) == [k] + ([b] + rest)
             && Split<int>(cost, 0, cost[0], cost[0]) == [cost[0]] + ([cost[0]] + costs);
      SplitTop(k, b, rest, cost[0], costs, x, y);
    } else {
      var p := Product(rest);
      var rest', costs' := Split<nat>(rest, n - 1, k, b), Split<int>(costs, n - 1, cost[n], cost[n]);
      assert Split<nat>(arity, n, k, b) == [arity[0]] + rest'
             && Split<int>(cost, n, cost[n], cost[n]) == [cost[0]] + costs';
      PartTop(arity[0], rest, cost[0], costs, x, y, p);
      SplitPart(rest, costs, n - 1, k, b, x % p, y % p);
      PartTop(arity[0], rest', cost[0], costs', x, y, p);
      assert ([arity[0]] + rest')[1..] == rest';
    }
  }

  lemma SplitFirst(arity: seq<nat>, k: nat, b: nat)
    requires arity != [] && arity[0] == k * b
    ensures Product([k] + ([b] + arity[1..])) == Product(arity)
  {
    var rest := arity[1..];
    assert ([k] + ([b] + rest))[1..] == [b] + rest && ([b] + rest)[1..] == rest;
    assert k * (b * Product(rest)) == k * b * Product(rest);
  }

  lemma SplitSame(arity: seq<nat>, cost: seq<int>, n: nat, k: nat, b: nat)
    requires |arity| <= |cost| && Positive(arity) && n < |arity| && arity[n] == k * b && k > 0 && b > 0
    ensures Same(arity, cost, Split<nat>(arity, n, k, b), Split<int>(cost, n, cost[n], cost[n]))
  {
    SplitPart(arity, cost, n, k, b, 0, 0);
    forall x: nat, y: nat
      ensures PartCost(Split<nat>(arity, n, k, b), Split<int>(cost, n, cost[n], cost[n]), x, y) ==
                PartCost(arity, cost, x, y)
    {
      SplitPart(arity, cost, n, k, b, x, y);
    }
  }

  lemma SameAgain(a: seq<nat>, c: seq<int>, a': seq<nat>, c': seq<int>, a'': seq<nat>, c'': seq<int>)
    requires Same(a, c, a', c') && Same(a', c', a'', c'')
    ensures Same(a, c, a'', c'')
  {
  }

  // ----- the recursion -----

  /** All levels but the last, which has no children. */
  ghost function Inner(s: seq<nat>): seq<nat>
    requires s != []
  {
    s[..|s|-1]
  }

  /** The levels up to n, and those that came from them, are fine; the others are as they were. */
  ghost predicate Optimized(arity: seq<nat>, arity': seq<nat>, n: int)
    requires -1 <= n < |arity| <= |arity'|
  {
    var m := n + |arity'| - |arity|;
    (forall i :: 0 <= i <= m ==> Fine(arity'[i])) && arity'[m+1..] == arity[n+1..]
  }

  /** What becomes of a level: its factors 3, then its factors 2, then the rest. */
  ghost function Factors(a: nat): seq<nat> {
    if a % 3 == 0 && a > 3 then [3] + Factors(a / 3)
    else if a % 2 == 0 && a > 2 then [2] + Factors(a / 2)
    else [a]
  }

  ghost function Order(a: nat): nat {
    if a == 3 then 0 else if a == 2 then 1 else 2
  }

  /** The factors multiply to the level; the 3s come before the 2s, and these before the one other factor, if any. */
  lemma {:induction false} FactorsAre(a: nat)
    requires a > 0
    ensures var s := Factors(a);
            && s != [] && Product(s) == a && (forall i :: 0 <= i < |s| ==> Fine(s[i]))
            && (forall i :: 0 <= i < |s| - 1 ==> s[i] in {2, 3})
            && (forall i, j :: 0 <= i < j < |s| ==> Order(s[i]) <= Order(s[j]))
    ensures a % 3 != 0 ==> 3 !in Factors(a)
  {
    var s := Factors(a);
    if s != [a] {
      var k := s[0];
      FactorsAre(a / k);
      assert s[1..] == Factors(a / k);
      if k == 2 {
        assert (a / 2) % 3 != 0;
      }
    } else {
      assert s[1..] == [];
    }
  }

  ghost function Expanded(s: seq<nat>): seq<nat> {
    if s == [] then [] else Expanded(s[..|s|-1]) + Factors(s[|s|-1])
  }

  lemma ExpandedMore(s: seq<nat>, a: nat)
    ensures Expanded(s + [a]) == Expanded(s) + Factors(a)
  {
    assert (s + [a])[..|s|] == s;
  }

  lemma SplitExpands(arity: seq<nat>, n: nat, k: nat, b: nat, next: nat, res: seq<nat>)
    requires n < |arity| && k in {2, 3} && next == (if b == k then n else n + 1)
    requires Factors(arity[n]) == [k] + Factors(b)
    requires var s := Split<nat>(arity, n, k, b);
             next < |s| && res == Expanded(s[..next+1]) + s[next+1..]
    ensures res == Expanded(arity[..n+1]) + arity[n+1..]
  {
    hide Factors, Expanded;
    var s, front, rest := Split<nat>(arity, n, k, b), arity[..n], arity[n+1..];
    FactorOf(k);
    ExpandedMore(front, k);
    ExpandedMore(front + [k], b);
    ExpandedMore(front, arity[n]);
    assert arity[..n+1] == front + [arity[n]] && s == front + [k] + [b] + rest;
    if next == n {
      assert s[..n+1] == front + [k] && s[n+1..] == [b] + rest;
    } else {
      assert s[..n+2] == front + [k] + [b] && s[n+2..] == rest;
    }
  }

  lemma FactorOf(k: nat)
    requires k in {2, 3}
    ensures Factors(k) == [k]
  {
  }

  lemma StaysExpands(arity: seq<nat>, n: nat, res: seq<nat>)
    requires n < |arity| && Factors(arity[n]) == [arity[n]] && res == Expanded(arity[..n]) + arity[n..]
    ensures res == Expanded(arity[..n+1]) + arity[n+1..]
  {
    ExpandedMore(arity[..n], arity[n]);
    assert arity[..n+1] == arity[..n] + [arity[n]] && arity[n..] == [arity[n]] + arity[n+1..];
  }

  /** New arrays with one more level. */
  method AddLevel(arity: seq<nat>, cost: seq<int>, n: nat, k: nat) returns (newArity: seq<nat>, newCost: seq<int>)
    requires |arity| == |cost| && n < |arity| && k > 0
    ensures newArity == Split<nat>(arity, n, k, arity[n] / k) && newCost == Split<int>(cost, n, cost[n], cost[n])
  {
    newArity, newCost := [], [];
    for i := 0 to n
      invariant newArity == arity[..i] && newCost == cost[..i]
    {
      newArity, newCost := newArity + [arity[i]], newCost + [cost[i]];
    }
    newArity, newCost := newArity + [k], newCost + [cost[n]];
    newArity, newCost := newArity + [arity[n] / k], newCost + [cost[n]];
    for i := n + 2 to |arity| + 1
      invariant newArity == arity[..n] + [k, arity[n] / k] + arity[n+1..i-1]
      invariant newCost == cost[..n] + [cost[n], cost[n]] + cost[n+1..i-1]
    {
      newArity, newCost := newArity + [arity[i-1]], newCost + [cost[i-1]];
    }
  }

  lemma {:induction false} SumKept(s: seq<nat>, t: seq<nat>, n: nat)
    requires n <= |s| && n <= |t| && s[..n] == t[..n]
    ensures SumTo(s, n) == SumTo(t, n)
  {
    if n != 0 {
      assert s[..n][..n-1] == s[..n-1] && t[..n][..n-1] == t[..n-1] && s[n-1] == s[..n][n-1] && t[n-1] == t[..n][n-1];
      SumKept(s, t, n - 1);
    }
  }

  /** What a split level leaves for the recursion, which goes on at level n or n + 1. */
  lemma SplitStep(arity: seq<nat>, cost: seq<int>, n: nat, k: nat, b: nat, next: nat)
    requires |arity| == |cost| && n + 1 < |arity| && Positive(Inner(arity)) && arity[n] == k * b && k in {2, 3} && b > 1
    requires next == if b == k then n else n + 1
    ensures var s, c := Split<nat>(arity, n, k, b), Split<int>(cost, n, cost[n], cost[n]);
            && |s| == |c| == |arity| + 1 && s[n+1] == b && Same(Inner(arity), cost, Inner(s), c)
            && 2 * SumTo(s, next + 1) + next < 2 * SumTo(arity, n + 1) + n
  {
    var s, c := Split<nat>(arity, n, k, b), Split<int>(cost, n, cost[n], cost[n]);
    assert Inner(s) == Split<nat>(Inner(arity), n, k, b);
    SplitSame(Inner(arity), cost, n, k, b);
    assert s[..n] == arity[..n];
    SumKept(s, arity, n);
    hide Same;
    assert s[n] == k && s[n+1] == b;
    assert SumTo(s, n + 1) == SumTo(s, n) + k;
  }

  lemma SplitOptimized(arity: seq<nat>, n: nat, k: nat, b: nat, next: nat, res: seq<nat>)
    requires n + 1 < |arity| && k in {2, 3} && next == if b == k then n else n + 1
    requires |arity| + 1 <= |res| && Optimized(Split<nat>(arity, n, k, b), res, next)
    ensures Optimized(arity, res, n)
  {
    var s := Split<nat>(arity, n, k, b);
    var m := next + |res| - |s|;
    assert s[n+2..] == arity[n+1..];
    if next == n {
      assert s[n+1..] == [b] + arity[n+1..];
      assert res[m+1..][0] == b && res[m+2..] == res[m+1..][1..];
    }
  }

  /** optimize_arity where level n has the factor k: a new level, and on at level n or n + 1. */
  method SplitLevel(arity: seq<nat>, cost: seq<int>, n: nat, k: nat) returns (arity': seq<nat>, cost': seq<int>)
    requires |arity| == |cost| > 0 && n < |arity| - 1 && Positive(Inner(arity)) && k in {2, 3}
    requires arity[n] % k == 0 && arity[n] > k && Factors(arity[n]) == [k] + Factors(arity[n] / k)
    ensures |arity'| == |cost'| >= |arity| && Same(Inner(arity), cost, Inner(arity'), cost')
    ensures Optimized(arity, arity', n) && arity' == Expanded(arity[..n+1]) + arity[n+1..]
    decreases 2 * SumTo(arity, n + 1) + n + 1, 0
  {
    hide Same, Split, Expanded, Factors, Optimized;
    var newArity, newCost := AddLevel(arity, cost, n, k);
    var b := arity[n] / k;
    SplitStep(arity, cost, n, k, b, if b == k then n else n + 1);
    SamePositive(Inner(arity), cost, Inner(newArity), newCost);
    if newArity[n+1] == k {
      arity', cost' := OptimizeArity(newArity, newCost, n);
    } else {
      arity', cost' := OptimizeArity(newArity, newCost, n + 1);
    }
    SplitOptimized(arity, n, k, b, if b == k then n else n + 1, arity');
    SplitExpands(arity, n, k, b, if b == k then n else n + 1, arity');
    SameAgain(Inner(arity), cost, Inner(newArity), newCost, Inner(arity'), cost');
  }

  /** optimize_arity */
  method OptimizeArity(arity: seq<nat>, cost: seq<int>, n: int) returns (arity': seq<nat>, cost': seq<int>)
    requires |arity| == |cost| > 0 && -1 <= n < |arity| - 1 && Positive(Inner(arity))
    ensures |arity'| == |cost'| >= |arity| && Same(Inner(arity), cost, Inner(arity'), cost')
    ensures Optimized(arity, arity', n) && arity' == Expanded(arity[..n+1]) + arity[n+1..]
    decreases 2 * SumTo(arity, n + 1) + n + 1, 1
  {
    hide Same, Split, Expanded;
    if n < 0 {
      SameSelf(Inner(arity), cost);
      NoneExpanded(arity);
      return arity, cost;
    }
    var a := arity[n];
    if a % 3 == 0 && a > 3 {
      arity', cost' := SplitLevel(arity, cost, n, 3);
    } else if a % 2 == 0 && a > 2 {
      arity', cost' := SplitLevel(arity, cost, n, 2);
    } else {
      assert Inner(arity)[n] == a > 0;
      arity', cost' := OptimizeArity(arity, cost, n - 1);
      FineStep(arity, arity', n);
      StaysExpands(arity, n, arity');
    }
  }

  lemma NoneExpanded(arity: seq<nat>)
    ensures arity == Expanded(arity[..0]) + arity[0..]
  {
  }

  lemma SamePositive(a: seq<nat>, c: seq<int>, a': seq<nat>, c': seq<int>)
    requires Same(a, c, a', c')
    ensures Positive(a')
  {
  }

  lemma FineStep(arity: seq<nat>, res: seq<nat>, n: nat)
    requires n < |arity| <= |res| && Optimized(arity, res, n - 1) && Fine(arity[n])
    ensures Optimized(arity, res, n)
  {
    var m := n - 1 + |res| - |arity|;
    assert res[m+1..][0] == arity[n..][0];
    assert res[m+2..] == res[m+1..][1..] && arity[n+1..] == arity[n..][1..];
  }

  /** tm_build_synthetic_topology: how the leaves are numbered. */
  method NumberLeaves(arity: seq<nat>, numbering: seq<nat>) returns (nodeId: seq<nat>)
    requires arity != [] && numbering != []
    ensures |nodeId| == Product(Inner(arity))
    ensures forall j :: 0 <= j < |nodeId| ==> nodeId[j] == numbering[j % |numbering|] + |numbering| * (j / |numbering|)
  {
    var n: nat := 1;
    for i := 0 to |arity| - 1
      invariant n * Product(arity[i..|arity|-1]) == Product(Inner(arity))
    {
      ProductStep(n, arity[i..|arity|-1]);
      assert arity[i..|arity|-1][1..] == arity[i+1..|arity|-1];
      n := n * arity[i];
    }
    nodeId := [];
    for j := 0 to n
      invariant |nodeId| == j
      invariant forall x :: 0 <= x < j ==> nodeId[x] == numbering[x % |numbering|] + |numbering| * (x / |numbering|)
    {
      nodeId := nodeId + [numbering[j % |numbering|] + |numbering| * (j / |numbering|)];
    }
  }

  lemma ProductStep(n: nat, s: seq<nat>)
    requires s != []
    ensures n * Product(s) == n * s[0] * Product(s[1..])
  {
    assert n * (s[0] * Product(s[1..])) == n * s[0] * Product(s[1..]);
  }

  /** tm_optimize_topology: the leaves keep their numbers. */
  method OptimizeTopology(arity: seq<nat>, cost: seq<int>, numbering: seq<nat>)
    returns (arity': seq<nat>, cost': seq<int>, nodeId: seq<nat>)
    requires |arity| == |cost| > 0 && Positive(Inner(arity)) && |numbering| == Product(Inner(arity))
    ensures arity' != [] && Same(Inner(arity), cost, Inner(arity'), cost') && nodeId == numbering
    ensures forall i :: 0 <= i < |arity'| - 1 ==> Fine(arity'[i])
    ensures arity' == Expanded(Inner(arity)) + [arity[|arity|-1]]
  {
    ProductPositive(Inner(arity));
    arity', cost' := OptimizeArity(arity, cost, |arity| - 2);
    nodeId := NumberLeaves(arity', numbering);
    forall j | 0 <= j < |nodeId| ensures nodeId[j] == numbering[j] {
      DivIs(j, |numbering|, 0, j);
    }
  }

  lemma SameSelf(arity: seq<nat>, cost: seq<int>)
    requires |arity| <= |cost| && Positive(arity)
    ensures Same(arity, cost, arity, cost)
  {
  }
}
