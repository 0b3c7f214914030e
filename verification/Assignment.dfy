/**
  The exhaustive search for the best pairing of local and peer interfaces: a recursion that
  numbers the cells of an array.  It evaluates every permutation exactly once, leaves the
  array as it was, and remembers a pairing that is best by cardinality, then by weight.
*/
module Assignment {
  import opened Collections

  /** The numbers 1 to level stand in distinct cells, all other cells are 0. */
  ghost predicate Partial(p: seq<int>, level: int) {
    && (forall i :: 0 <= i < |p| ==> 0 <= p[i] <= level)
    && (forall i, j :: 0 <= i < j < |p| && p[i] != 0 ==> p[i] != p[j])
    && (forall v :: 1 <= v <= level ==> v in p)
  }

  ghost predicate Permutation(s: seq<int>) {
    Partial(s, |s|) && 0 !in s
  }

  /** s is a permutation that agrees with p where p is set. */
  ghost predicate Completes(p: seq<int>, s: seq<int>) {
    |s| == |p| && Permutation(s) && forall i :: 0 <= i < |p| && p[i] != 0 ==> s[i] == p[i]
  }

  /** The list holds exactly the completions of p, each once. */
  ghost predicate AllOnce(l: seq<seq<int>>, p: seq<int>) {
    NoDup(l) && forall s :: s in l <==> Completes(p, s)
  }

  /** The cells with one of the numbers 1 to v. */
  ghost function Cells(p: seq<int>, v: nat): set<int> {
    set i | 0 <= i < |p| && 1 <= p[i] <= v
  }

  lemma OneMoreCell(p: seq<int>, level: nat, v: nat, i: nat)
    requires Partial(p, level) && 1 <= v <= level && i < |p| && p[i] == v
    ensures Cells(p, v) == Cells(p, v - 1) + {i} && i !in Cells(p, v - 1)
  {
  }

  lemma {:induction false} CellCount(p: seq<int>, level: nat, v: nat)
    requires Partial(p, level) && v <= level
    ensures |Cells(p, v)| == v
  {
    if v == 0 {
      assert Cells(p, v) == {};
    } else {
      CellCount(p, level, v - 1);
      assert v in p;
      var i :| 0 <= i < |p| && p[i] == v;
      OneMoreCell(p, level, v, i);
      hide Cells, Partial;
    }
  }

  /** With as many numbers as cells, no cell is left. */
  lemma FullIsPermutation(p: seq<int>)
    requires Partial(p, |p|)
    ensures Permutation(p)
  {
    CellCount(p, |p|, |p|);
    SubsetSize(Cells(p, |p|), Below(|p|));
    forall i | 0 <= i < |p| ensures p[i] != 0 {
      assert i in Below(|p|);
    }
  }

  /** A permutation has only one completion: itself. */
  lemma OnlyItself(p: seq<int>)
    requires Permutation(p)
    ensures AllOnce([p], p)
  {
    forall s ensures s in [p] <==> Completes(p, s) {
      if Completes(p, s) { assert s == p; }
    }
  }

  // ----- the next number goes to each free cell in turn -----

  /** The completions of p with number v in one of the cells below i, each once. */
  ghost predicate SomeOnce(l: seq<seq<int>>, p: seq<int>, v: int, i: nat) {
    NoDup(l) && forall s :: s in l <==> Completes(p, s) && v in s[..Min(i, |s|)]
  }

  lemma NextLevel(p: seq<int>, level: nat, i: nat)
    requires Partial(p, level) && i < |p| && p[i] == 0
    ensures Partial(p[i := level + 1], level + 1)
  {
    var q := p[i := level + 1];
    forall v | 1 <= v <= level + 1 ensures v in q {
      if v == level + 1 {
        assert q[i] == v;
      } else {
        assert v in p;
        var j :| 0 <= j < |p| && p[j] == v;
        assert q[j] == v;
      }
    }
  }

  /** Completions that put v = level + 1 into cell i are those of p with that cell set. */
  lemma CompletesAt(p: seq<int>, level: nat, i: nat, s: seq<int>)
    requires Partial(p, level) && i < |p|
    ensures p[i] == 0 ==> (Completes(p[i := level + 1], s) <==> Completes(p, s) && s[i] == level + 1)
    ensures p[i] != 0 && Completes(p, s) ==> s[i] != level + 1
  {
    if p[i] == 0 {
      var q := p[i := level + 1];
      if Completes(q, s) { assert s[i] == q[i]; }
    }
  }

  lemma NothingYet(p: seq<int>, v: int)
    ensures SomeOnce([], p, v, 0)
  {
  }

  /** A set cell adds nothing. */
  lemma SkipCell(l: seq<seq<int>>, p: seq<int>, level: nat, i: nat)
    requires Partial(p, level) && i < |p| && p[i] != 0 && SomeOnce(l, p, level + 1, i)
    ensures SomeOnce(l, p, level + 1, i + 1)
  {
    forall s ensures s in l <==> Completes(p, s) && level + 1 in s[..Min(i + 1, |s|)] {
      CompletesAt(p, level, i, s);
      if Completes(p, s) { assert s[..i+1] == s[..i] + [s[i]]; }
    }
  }

  /** A free cell adds the completions that put the number there. */
  lemma FillCell(l: seq<seq<int>>, p: seq<int>, level: nat, i: nat, more: seq<seq<int>>)
    requires Partial(p, level) && i < |p| && p[i] == 0 && SomeOnce(l, p, level + 1, i)
    requires AllOnce(more, p[i := level + 1])
    ensures SomeOnce(l + more, p, level + 1, i + 1)
  {
    forall s ensures s in l + more <==> Completes(p, s) && level + 1 in s[..Min(i + 1, |s|)] {
      CompletesAt(p, level, i, s);
      if Completes(p, s) { assert s[..i+1] == s[..i] + [s[i]]; }
    }
    forall x, y | 0 <= x < |l| && 0 <= y < |more| ensures l[x] != more[y] {
      assert l[x] in l && more[y] in more;
      CompletesAt(p, level, i, more[y]);
      OneCell(more[y], i);
    }
  }

  lemma OneCell(s: seq<int>, i: nat)
    requires Permutation(s) && i < |s|
    ensures s[i] !in s[..i]
  {
  }

  // ----- the order in which they are tried -----

  /** The numbers below v are in the same cells of s and t, and v is in an earlier cell of s. */
  ghost predicate PartsAt(s: seq<int>, t: seq<int>, v: int) {
    && |s| == |t| && v in s && (forall i :: 0 <= i < |s| && (0 < s[i] < v || 0 < t[i] < v) ==> s[i] == t[i])
    && forall i :: 0 <= i < |s| && s[i] == v ==> v !in t[..i+1]
  }

  ghost predicate Earlier(s: seq<int>, t: seq<int>) {
    exists v :: PartsAt(s, t, v)
  }

  /** The cells of 1, 2 and so on come in lexicographic order. */
  ghost predicate InTurn(l: seq<seq<int>>) {
    forall x, y :: 0 <= x < y < |l| ==> Earlier(l[x], l[y])
  }

  /** The numbers up to level are where p has them. */
  lemma SameCell(p: seq<int>, level: nat, s: seq<int>, j: nat)
    requires Partial(p, level) && Completes(p, s) && j < |s| && 0 < s[j] <= level
    ensures p[j] == s[j]
  {
    assert s[j] in p;
    var c :| 0 <= c < |p| && p[c] == s[j];
    assert s[c] == p[c];
  }

  lemma CellsPart(p: seq<int>, level: nat, i: nat, s: seq<int>, t: seq<int>)
    requires Partial(p, level) && i < |p| && Completes(p, s) && Completes(p, t)
    requires level + 1 in s[..i] && t[i] == level + 1
    ensures Earlier(s, t)
  {
    forall j | 0 <= j < |s| && (0 < s[j] < level + 1 || 0 < t[j] < level + 1) ensures s[j] == t[j] {
      if 0 < s[j] < level + 1 {
        SameCell(p, level, s, j);
      } else {
        SameCell(p, level, t, j);
      }
    }
    OneCell(t, i);
    var c :| 0 <= c < i && s[..i][c] == level + 1;
    assert s[c] == level + 1;
    assert PartsAt(s, t, level + 1);
  }

  lemma TurnsOn(l: seq<seq<int>>, p: seq<int>, level: nat, i: nat, more: seq<seq<int>>)
    requires Partial(p, level) && i < |p| && p[i] == 0 && SomeOnce(l, p, level + 1, i)
    requires AllOnce(more, p[i := level + 1]) && InTurn(l) && InTurn(more)
    ensures InTurn(l + more)
  {
    hide Earlier;
    forall x, y | 0 <= x < |l| && 0 <= y < |more| ensures Earlier(l[x], more[y]) {
      assert l[x] in l && more[y] in more;
      CompletesAt(p, level, i, more[y]);
      CellsPart(p, level, i, l[x], more[y]);
    }
  }

  /** In the end every completion has been found. */
  lemma AllCells(l: seq<seq<int>>, p: seq<int>, level: nat)
    requires level < |p| && SomeOnce(l, p, level + 1, |p|)
    ensures AllOnce(l, p)
  {
    forall s ensures s in l <==> Completes(p, s) {
      if Completes(p, s) {
        assert level + 1 in s;
        assert s[..|s|] == s;
      }
    }
  }

  // ----- the value of an assignment -----

  datatype Value = Value(cardinality: int, weight: int)

  ghost predicate Better(v: Value, w: Value) {
    v.cardinality > w.cardinality || (v.cardinality == w.cardinality && v.weight > w.weight)
  }

  ghost predicate Matrix(weights: seq<seq<int>>, n: nat) {
    |weights| == n && forall i :: 0 <= i < n ==> |weights[i]| == n
  }

  /** The connected pairs among the first i cells and their total weight. */
  ghost function ValueOf(weights: seq<seq<int>>, s: seq<int>, i: nat): Value
    requires Matrix(weights, |s|) && i <= |s| && forall x :: 0 <= x < |s| ==> 1 <= s[x] <= |s|
  {
    if i == 0 then Value(0, 0) else
      var v := ValueOf(weights, s, i - 1);
      var w := weights[i-1][s[i-1] - 1];
      if 0 < w then Value(v.cardinality + 1, v.weight + w) else v
  }

  /** The cells whose weight is positive. */
  ghost function Connected(weights: seq<seq<int>>, s: seq<int>, i: nat): set<int>
    requires Matrix(weights, |s|) && i <= |s| && forall x :: 0 <= x < |s| ==> 1 <= s[x] <= |s|
  {
    set x | 0 <= x < i && weights[x][s[x] - 1] > 0
  }

  lemma {:induction false} CardinalityCounts(weights: seq<seq<int>>, s: seq<int>, i: nat)
    requires Matrix(weights, |s|) && i <= |s| && forall x :: 0 <= x < |s| ==> 1 <= s[x] <= |s|
    ensures ValueOf(weights, s, i).cardinality == |Connected(weights, s, i)|
  {
    if i == 0 {
      assert Connected(weights, s, i) == {};
    } else {
      CardinalityCounts(weights, s, i - 1);
      if weights[i-1][s[i-1] - 1] > 0 {
        assert Connected(weights, s, i) == Connected(weights, s, i - 1) + {i - 1};
      } else {
        assert Connected(weights, s, i) == Connected(weights, s, i - 1);
      }
    }
  }

  ghost function Sum(l: seq<int>): int {
    if l == [] then 0 else Sum(l[..|l|-1]) + l[|l|-1]
  }

  /** The positive weights of the first i cells, 0 for the others. */
  ghost function Gains(weights: seq<seq<int>>, s: seq<int>, i: nat): (l: seq<int>)
    requires Matrix(weights, |s|) && i <= |s| && forall x :: 0 <= x < |s| ==> 1 <= s[x] <= |s|
    ensures |l| == i
    ensures forall x :: 0 <= x < i ==> l[x] == if weights[x][s[x] - 1] > 0 then weights[x][s[x] - 1] else 0
  {
    if i == 0 then []
    else Gains(weights, s, i - 1) + [if weights[i-1][s[i-1] - 1] > 0 then weights[i-1][s[i-1] - 1] else 0]
  }

  /** The value is the number of cells with positive weight, and the sum of the positive weights. */
  lemma {:induction false} ValueCounts(weights: seq<seq<int>>, s: seq<int>, i: nat)
    requires Matrix(weights, |s|) && i <= |s| && forall x :: 0 <= x < |s| ==> 1 <= s[x] <= |s|
    ensures ValueOf(weights, s, i) == Value(|Connected(weights, s, i)|, Sum(Gains(weights, s, i)))
  {
    CardinalityCounts(weights, s, i);
    hide Connected;
    if i != 0 {
      ValueCounts(weights, s, i - 1);
      assert Gains(weights, s, i)[..i-1] == Gains(weights, s, i - 1);
    }
  }

  lemma {:induction false} ValueBounds(weights: seq<seq<int>>, s: seq<int>, i: nat)
    requires Matrix(weights, |s|) && i <= |s| && forall x :: 0 <= x < |s| ==> 1 <= s[x] <= |s|
    ensures ValueOf(weights, s, i).cardinality >= 0 && ValueOf(weights, s, i).weight >= 0
  {
    if i != 0 {
      ValueBounds(weights, s, i - 1);
    }
  }

  ghost predicate Numbered(s: seq<int>, n: nat) {
    |s| == n && forall x :: 0 <= x < n ==> 1 <= s[x] <= n
  }

  /** Of the assignments in l, the one remembered (counted from 0) is a best one, and its value is known. */
  ghost predicate Remembers(l: seq<seq<int>>, weights: seq<seq<int>>, best: seq<int>, max: Value, n: nat) {
    && Matrix(weights, n) && (forall s :: s in l ==> Numbered(s, n) && !Better(ValueOf(weights, s, n), max))
    && (l == [] ==> max == Value(-1, -1))
    && (l != [] ==> exists i :: 0 <= i < |l| && FirstBest(l, weights, best, max, n, i))
  }

  /** The i-th assignment has the value max, which no earlier one has, and best records it. */
  ghost predicate FirstBest(l: seq<seq<int>>, weights: seq<seq<int>>, best: seq<int>, max: Value, n: nat, i: nat)
    requires i < |l| && Matrix(weights, n)
  {
    && Numbered(l[i], n) && ValueOf(weights, l[i], n) == max && Decremented(l[i], best)
    && forall j :: 0 <= j < i ==> Numbered(l[j], n) && Better(max, ValueOf(weights, l[j], n))
  }

  ghost predicate Decremented(s: seq<int>, best: seq<int>) {
    |best| == |s| && forall i :: 0 <= i < |s| ==> best[i] == s[i] - 1
  }

  lemma RememberMore(l: seq<seq<int>>, weights: seq<seq<int>>, best: seq<int>, max: Value, s: seq<int>, v: Value,
                     best': seq<int>, max': Value, n: nat)
    requires Remembers(l, weights, best, max, n) && Numbered(s, n) && v == ValueOf(weights, s, n) && v.cardinality >= 0
    requires if Better(v, max) then max' == v && Decremented(s, best') else max' == max && best' == best
    ensures Remembers(l + [s], weights, best', max', n)
  {
    hide ValueOf, Decremented;
    var m := l + [s];
    if Better(v, max) {
      forall j | 0 <= j < |l| ensures Numbered(m[j], n) && Better(v, ValueOf(weights, m[j], n)) {
        assert m[j] in l;
      }
      assert FirstBest(m, weights, best', max', n, |l|);
    } else {
      var i :| 0 <= i < |l| && FirstBest(l, weights, best, max, n, i);
      assert forall j :: 0 <= j <= i ==> m[j] == l[j];
      assert FirstBest(m, weights, best', max', n, i);
    }
  }

  class Search {
    const n: nat
    const weights: seq<seq<int>>
    const a: array<int>
    var best: seq<int>
    var max: Value
    /** The assignments evaluated so far, in order. */
    ghost var seen: seq<seq<int>>

    ghost predicate Valid()
      reads this
    {
      a.Length == n && Remembers(seen, weights, best, max, n)
    }

    constructor (weights: seq<seq<int>>)
      requires Matrix(weights, |weights|)
      ensures Valid() && n == |weights| && this.weights == weights && seen == [] && fresh(a)
      ensures forall i :: 0 <= i < n ==> a[i] == 0
    {
      n := |weights|;
      this.weights := weights;
      a := new int[|weights|](_ => 0);
      best := [];
      max := Value(-1, -1);
      seen := [];
    }

    /** evaluate_assignment */
    method Evaluate()
      requires Valid() && Permutation(a[..])
      modifies `best, `max, `seen
      ensures Valid() && seen == old(seen) + [a[..]] && Numbered(a[..], n) && Matrix(weights, n)
      ensures if Better(ValueOf(weights, a[..], n), old(max))
              then max == ValueOf(weights, a[..], n) && Decremented(a[..], best)
              else max == old(max) && best == old(best)
    {
      ghost var s := a[..];
      assert Numbered(s, n) by { assert forall i :: 0 <= i < n ==> s[i] in s; }
      hide Permutation;
      var cardinality, weight := 0, 0;
      for i := 0 to n
        invariant Value(cardinality, weight) == ValueOf(weights, s, i)
      {
        if 0 < weights[i][a[i] - 1] {
          cardinality := cardinality + 1;
          weight := weight + weights[i][a[i] - 1];
        }
      }
      ValueBounds(weights, s, n);
      ghost var was, wasMax := best, max;
      if cardinality > max.cardinality || (cardinality == max.cardinality && weight > max.weight) {
        best := Record();
        max := Value(cardinality, weight);
      }
      RememberMore(seen, weights, was, wasMax, s, Value(cardinality, weight), best, max, n);
      hide Remembers;
      seen := seen + [s];
    }

    method Record() returns (b: seq<int>)
      requires a.Length == n
      ensures Decremented(a[..], b)
    {
      b := [];
      for i := 0 to n
        invariant |b| == i && forall x :: 0 <= x < i ==> b[x] == a[x] - 1
      {
        b := b + [a[i] - 1];
      }
    }

    /** visit: cell k gets the next number, and then every other free cell in turn the one after it. */
    method Visit(k: nat, level: int) returns (ghost found: seq<seq<int>>)
      requires Valid() && k < n && -1 <= level < n && a[k] == 0 && Partial(a[..][k := level + 1], level + 1)
      modifies a, `best, `max, `seen
      ensures Valid() && a[..] == old(a[..])
      ensures seen == old(seen) + found && AllOnce(found, old(a[..])[k := level + 1]) && InTurn(found)
      decreases n - level
    {
      hide AllOnce, SomeOnce, Remembers, Permutation, Earlier;
      ghost var start := a[..];
      a[k] := level + 1;
      ghost var p := a[..];
      assert p == start[k := level + 1];
      found := [];
      if level + 1 == n {
        FullIsPermutation(p);
        OnlyItself(p);
        Evaluate();
        found := [p];
      } else {
        NothingYet(p, level + 2);
        for i := 0 to n
          invariant Valid() && a[..] == p && seen == old(seen) + found && SomeOnce(found, p, level + 2, i)
          invariant InTurn(found)
        {
          if a[i] == 0 {
            NextLevel(p, level + 1, i);
            ghost var more := Visit(i, level + 1);
            FillCell(found, p, level + 1, i, more);
            TurnsOn(found, p, level + 1, i, more);
            hide InTurn;
            found := found + more;
          } else {
            SkipCell(found, p, level + 1, i);
          }
        }
        AllCells(found, p, level + 1);
      }
      a[k] := 0;
      assert a[..] == start;
    }

    /** The call in mca_btl_tcp2_proc_insert: all permutations are tried once, and a best one is remembered. */
    method Run()
      requires Valid() && seen == [] && n > 0 && forall i :: 0 <= i < n ==> a[i] == 0
      modifies a, `best, `max, `seen
      ensures (forall i :: 0 <= i < n ==> a[i] == 0) && NoDup(seen)
      ensures (forall s :: s in seen <==> |s| == n && Permutation(s)) && InTurn(seen)
      ensures Remembers(seen, weights, best, max, n)
    {
      hide Remembers;
      ghost var p := a[..];
      assert p[0 := 0] == p;
      ghost var found := Visit(0, -1);
      assert a[..] == p;
      forall s ensures s in seen <==> |s| == n && Permutation(s) {
        assert s in found <==> Completes(p, s);
      }
    }
  }
}
