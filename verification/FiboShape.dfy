/**
  The shape of a Fibonacci heap: who is whose child, in sibling order, and which nodes are marked.

  Each node keeps, in `kids`, the ring of its children as a sequence that starts at its
  child pointer; the dummy root node keeps the list of tree roots.  The degree bound that
  sizes the consolidation table is proved here, over every shape that satisfies `Good`.
*/
module FiboShape {
  import opened Collections

  /**
    `par` names the parent of every node (the dummy root for a tree root); `rank` falls from a
    node to its children.
  */
  datatype Shape<!N> = Shape(root: N, kids: map<N, seq<N>>, par: map<N, N>, marked: set<N>, rank: map<N, nat>)

  /** A ring without its i-th member, starting right after it. */
  ghost function RestOfRing<T>(s: seq<T>, i: nat): (r: seq<T>)
    requires i < |s|
    ensures |r| == |s| - 1
  {
    s[i+1..] + s[..i]
  }

  lemma SplitAt<T>(s: seq<T>, i: nat)
    requires i < |s|
    ensures s == s[..i] + [s[i]] + s[i+1..]
  {
  }

  // ----- counting small numbers -----

  /** How many entries are at most t. */
  ghost function CountLE(es: seq<nat>, t: nat): nat {
    if es == [] then 0 else CountLE(es[..|es|-1], t) + (if es[|es|-1] <= t then 1 else 0)
  }

  lemma {:induction false} CountLEBound(es: seq<nat>, t: nat)
    ensures CountLE(es, t) <= |es|
  {
    if es != [] { CountLEBound(es[..|es|-1], t); }
  }

  lemma {:induction false} CountLEConcat(a: seq<nat>, b: seq<nat>, t: nat)
    ensures CountLE(a + b, t) == CountLE(a, t) + CountLE(b, t)
  {
    if b == [] {
      assert a + b == a;
    } else {
      assert (a + b)[..|a + b| - 1] == a + b[..|b|-1];
      CountLEConcat(a, b[..|b|-1], t);
    }
  }

  lemma CountLEPieces(a: seq<nat>, x: nat, b: seq<nat>, t: nat)
    ensures CountLE(a + [x] + b, t) == CountLE(b + a, t) + (if x <= t then 1 else 0)
  {
    CountLEConcat(b, a, t);
    CountLEConcat(a + [x], b, t);
    CountLEConcat(a, [x], t);
  }

  /** Taking an entry out, and rotating what is left. */
  lemma CountLERemove(es: seq<nat>, i: nat, t: nat)
    requires i < |es|
    ensures CountLE(RestOfRing(es, i), t) == CountLE(es, t) - (if es[i] <= t then 1 else 0)
  {
    hide CountLE;
    SplitAt(es, i);
    CountLEPieces(es[..i], es[i], es[i+1..], t);
  }

  /** Putting an entry in after the first one. */
  lemma CountLEInsert(es: seq<nat>, x: nat, t: nat)
    requires es != []
    ensures CountLE([es[0], x] + es[1..], t) == CountLE(es, t) + (if x <= t then 1 else 0)
  {
    CountLEConcat([es[0]], [x] + es[1..], t);
    CountLEConcat([x], es[1..], t);
    CountLEConcat([es[0]], es[1..], t);
    assert [es[0], x] + es[1..] == [es[0]] + ([x] + es[1..]);
    assert es == [es[0]] + es[1..];
  }

  /** All entries small enough count. */
  lemma {:induction false} CountLEAll(es: seq<nat>, t: nat)
    requires forall i :: 0 <= i < |es| ==> es[i] <= t
    ensures CountLE(es, t) == |es|
  {
    if es != [] { CountLEAll(es[..|es|-1], t); }
  }

  /** At most t + 1 entries are t or less, for every t. */
  ghost predicate Sparse(es: seq<nat>) {
    forall t: nat :: CountLE(es, t) <= t + 1
  }

  // ----- Fibonacci numbers -----

  function Fib(n: nat): nat {
    if n < 2 then n else Fib(n - 1) + Fib(n - 2)
  }

  lemma {:induction false} FibMonotone(m: nat, n: nat)
    requires m <= n
    ensures Fib(m) <= Fib(n)
    decreases n - m
  {
    if m < n {
      FibMonotone(m + 1, n);
    }
  }

  ghost function FibSum(es: seq<nat>): nat {
    if es == [] then 0 else FibSum(es[..|es|-1]) + Fib(es[|es|-1] + 1)
  }

  lemma {:induction false} FibSumConcat(a: seq<nat>, b: seq<nat>)
    ensures FibSum(a + b) == FibSum(a) + FibSum(b)
  {
    if b == [] {
      assert a + b == a;
    } else {
      assert (a + b)[..|a + b| - 1] == a + b[..|b|-1];
      FibSumConcat(a, b[..|b|-1]);
    }
  }

  lemma FibSumPieces(a: seq<nat>, x: nat, b: seq<nat>)
    ensures FibSum(a + [x] + b) == FibSum(b + a) + Fib(x + 1)
  {
    FibSumConcat(b, a);
    FibSumConcat(a + [x], b);
    FibSumConcat(a, [x]);
  }

  lemma FibSumRemove(es: seq<nat>, i: nat)
    requires i < |es|
    ensures FibSum(es) == FibSum(RestOfRing(es, i)) + Fib(es[i] + 1)
  {
    var a: seq<nat>, x: nat, b: seq<nat> := Pieces(es, i);
    FibSumPieces(a, x, b);
  }

  lemma Pieces(es: seq<nat>, i: nat) returns (a: seq<nat>, x: nat, b: seq<nat>)
    requires i < |es|
    ensures x == es[i] && a + [x] + b == es && b + a == RestOfRing(es, i)
  {
    a, x, b := es[..i], es[i], es[i+1..];
  }

  lemma RemoveSparse(es: seq<nat>, i: nat)
    requires Sparse(es) && i < |es|
    ensures Sparse(RestOfRing(es, i))
  {
    var rest := RestOfRing(es, i);
    forall t: nat
      ensures CountLE(rest, t) <= t + 1
    {
      CountLERemove(es, i, t);
      assert CountLE(es, t) <= t + 1;
    }
  }

  /** A sparse sequence of d entries has one that is at least d - 1. */
  lemma SparseHasLarge(es: seq<nat>) returns (i: nat)
    requires Sparse(es) && es != []
    ensures i < |es| && es[i] + 1 >= |es|
  {
    if |es| == 1 {
      i := 0;
    } else {
      var t := |es| - 2;
      assert CountLE(es, t) <= t + 1;
      if forall j :: 0 <= j < |es| ==> es[j] <= t {
        CountLEAll(es, t);
        assert false;
      }
      i :| 0 <= i < |es| && es[i] > t;
    }
  }

  lemma {:induction false} SparseFibSum(es: seq<nat>)
    requires Sparse(es)
    ensures FibSum(es) + 1 >= Fib(|es| + 2)
    decreases |es|
  {
    if es != [] {
      var i := SparseHasLarge(es);
      var rest := RestOfRing(es, i);
      RemoveSparse(es, i);
      SparseFibSum(rest);
      FibSumRemove(es, i);
      FibMonotone(|es|, es[i] + 1);
    }
  }

  // ----- well-formed shapes -----

  ghost predicate Tree<N>(s: Shape<N>) {
    && s.root in s.kids && s.root !in s.par && s.par.Keys == s.kids.Keys - {s.root} && s.kids.Keys <= s.rank.Keys
    && (forall n :: n in s.kids ==> NoDup(s.kids[n]))
    && (forall n, c :: n in s.kids && c in s.kids[n] ==> c in s.par && s.par[c] == n)
    && (forall c :: c in s.par ==> c in s.kids && c in s.rank && s.par[c] in s.kids && c in s.kids[s.par[c]])
    && (forall c :: c in s.par && s.par[c] != s.root ==> s.rank[c] < s.rank[s.par[c]])
  }

  /** Degree plus mark: the degree a child had when it was last linked; the nodes in `bonus` are owed one more. */
  ghost function Eff<N>(s: Shape<N>, n: N, bonus: set<N>): nat
    requires n in s.kids
  {
    |s.kids[n]| + (if n in s.marked then 1 else 0) + (if n in bonus then 1 else 0)
  }

  ghost function Effs<N>(s: Shape<N>, ks: seq<N>, bonus: set<N>): (es: seq<nat>)
    requires forall k :: k in ks ==> k in s.kids
    ensures |es| == |ks| && forall i :: 0 <= i < |ks| ==> es[i] == Eff(s, ks[i], bonus)
  {
    seq(|ks|, i requires 0 <= i < |ks| => Eff(s, ks[i], bonus))
  }

  ghost predicate Balanced<N>(s: Shape<N>, bonus: set<N>)
    requires Tree(s)
  {
    forall n :: n in s.par ==> Sparse(Effs(s, s.kids[n], bonus))
  }

  ghost predicate Good<N>(s: Shape<N>) {
    Tree(s) && Balanced(s, {})
  }

  // ----- a node of degree d has at least Fib(d + 2) descendants -----

  lemma KidsBelow<N>(s: Shape<N>, n: N)
    requires Tree(s) && n in s.par
    ensures n in s.kids && n in s.rank && NoDup(s.kids[n])
    ensures forall k :: k in s.kids[n] ==> k in s.par && k in s.kids && s.par[k] == n && s.rank[k] < s.rank[n]
  {
    forall k | k in s.kids[n] ensures k in s.par && s.par[k] == n && s.rank[k] < s.rank[n] {
      assert s.par[k] == n;
      assert s.par[k] != s.root;
    }
  }

  /** A node and everything below it. */
  ghost function Desc<N>(s: Shape<N>, n: N): set<N>
    requires Tree(s) && n in s.par
    decreases s.rank[n], 1, 0
  {
    KidsBelow(s, n);
    {n} + DescAll(s, s.kids[n], s.rank[n])
  }

  ghost function DescAll<N>(s: Shape<N>, ks: seq<N>, bound: nat): set<N>
    requires Tree(s) && forall k :: k in ks ==> k in s.par && s.rank[k] < bound
    decreases bound, 0, |ks|
  {
    if ks == [] then {} else DescAll(s, ks[..|ks|-1], bound) + Desc(s, ks[|ks|-1])
  }

  lemma {:induction false} DescInTree<N>(s: Shape<N>, n: N)
    requires Tree(s) && n in s.par
    ensures Desc(s, n) <= s.par.Keys && n in Desc(s, n)
    ensures forall x :: x in Desc(s, n) ==> s.rank[x] <= s.rank[n]
    decreases s.rank[n], 1, 0
  {
    DescAllInTree(s, s.kids[n], s.rank[n]);
  }

  lemma {:induction false} DescAllInTree<N>(s: Shape<N>, ks: seq<N>, bound: nat)
    requires Tree(s) && forall k :: k in ks ==> k in s.par && s.rank[k] < bound
    ensures DescAll(s, ks, bound) <= s.par.Keys
    ensures forall x :: x in DescAll(s, ks, bound) ==> s.rank[x] < bound
    decreases bound, 0, |ks|
  {
    if ks != [] {
      DescAllInTree(s, ks[..|ks|-1], bound);
      DescInTree(s, ks[|ks|-1]);
    }
  }

  /** A node below n, other than n, has its parent there too. */
  lemma {:induction false} ParentInDesc<N>(s: Shape<N>, n: N, x: N)
    requires Tree(s) && n in s.par && x in Desc(s, n) && x != n
    ensures x in s.par && s.par[x] in Desc(s, n)
    decreases s.rank[n], 1, 0
  {
    ParentInDescAll(s, s.kids[n], s.rank[n], x);
    if x in s.kids[n] {
      assert s.par[x] == n;
    }
  }

  lemma {:induction false} ParentInDescAll<N>(s: Shape<N>, ks: seq<N>, bound: nat, x: N)
    requires Tree(s) && (forall k :: k in ks ==> k in s.par && s.rank[k] < bound) && x in DescAll(s, ks, bound)
    ensures x in s.par && (x in ks || s.par[x] in DescAll(s, ks, bound))
    decreases bound, 0, |ks|
  {
    var last := ks[|ks|-1];
    if x in Desc(s, last) {
      DescInTree(s, last);
      if x != last {
        ParentInDesc(s, last, x);
      }
    } else {
      ParentInDescAll(s, ks[..|ks|-1], bound, x);
    }
  }

  /** Siblings have nothing below them in common. */
  lemma {:induction false} SiblingsDisjoint<N>(s: Shape<N>, a: N, b: N, x: N)
    requires Tree(s) && a in s.par && b in s.par && a != b && s.par[a] == s.par[b]
    requires x in Desc(s, a) && x in Desc(s, b)
    ensures false
    decreases if x in s.rank && s.rank[x] <= s.rank[a] then s.rank[a] - s.rank[x] else 0
  {
    DescInTree(s, a);
    DescInTree(s, b);
    if x == a {
      ParentInDesc(s, b, x);
    } else if x == b {
      ParentInDesc(s, a, x);
    } else {
      ParentInDesc(s, a, x);
      ParentInDesc(s, b, x);
      assert s.rank[s.par[x]] > s.rank[x];
      SiblingsDisjoint(s, a, b, s.par[x]);
    }
  }

  /** The descendants of d siblings with large enough subtrees are many. */
  lemma {:induction false} SiblingsCount<N>(s: Shape<N>, p: N, ks: seq<N>, bound: nat)
    requires Tree(s) && NoDup(ks)
    requires forall k :: k in ks ==> k in s.par && k in s.kids && s.par[k] == p && s.rank[k] < bound
    requires forall k :: k in ks ==> |Desc(s, k)| >= Fib(|s.kids[k]| + 2)
    ensures |DescAll(s, ks, bound)| >= FibSum(Effs(s, ks, {}))
    decreases |ks|
  {
    hide Desc, Fib, Tree;
    if ks != [] {
      var last := ks[|ks|-1];
      var init := ks[..|ks|-1];
      SiblingsCount(s, p, init, bound);
      assert Effs(s, ks, {})[..|ks|-1] == Effs(s, init, {});
      FibMonotone(Eff(s, last, {}) + 1, |s.kids[last]| + 2);
      LastApart(s, p, init, last, bound);
      assert |DescAll(s, ks, bound)| == |DescAll(s, init, bound)| + |Desc(s, last)|;
    }
  }

  lemma {:induction false} LastApart<N>(s: Shape<N>, p: N, ks: seq<N>, b: N, bound: nat)
    requires Tree(s) && b in s.par && s.par[b] == p && b !in ks
    requires forall k :: k in ks ==> k in s.par && s.par[k] == p && s.rank[k] < bound
    ensures DescAll(s, ks, bound) !! Desc(s, b)
    decreases |ks|
  {
    if ks != [] {
      LastApart(s, p, ks[..|ks|-1], b, bound);
      var a := ks[|ks|-1];
      forall x | x in Desc(s, a) && x in Desc(s, b) ensures false {
        SiblingsDisjoint(s, a, b, x);
      }
    }
  }

  /** The size bound: a node with d children has at least Fib(d + 2) nodes in its tree. */
  lemma {:induction false} BigTrees<N>(s: Shape<N>, n: N)
    requires Good(s) && n in s.par
    ensures |Desc(s, n)| >= Fib(|s.kids[n]| + 2)
    decreases s.rank[n]
  {
    hide Tree, Fib;
    KidsBelow(s, n);
    var ks := s.kids[n];
    forall k | k in ks ensures |Desc(s, k)| >= Fib(|s.kids[k]| + 2) {
      BigTrees(s, k);
    }
    SiblingsCount(s, n, ks, s.rank[n]);
    SparseFibSum(Effs(s, ks, {}));
    DescAllInTree(s, ks, s.rank[n]);
    assert n !in DescAll(s, ks, s.rank[n]);
  }

  const FIB34: nat := 5_702_887

  lemma {:induction false} FibLadder(k: nat, a: nat, b: nat)
    requires Fib(k) == a && Fib(k + 1) == b
    ensures Fib(k + 2) == a + b
  {
  }

  lemma Fib34()
    ensures Fib(34) == FIB34
  {
    assert Fib(10) == 55 && Fib(11) == 89;
    FibLadder(10, 55, 89); FibLadder(11, 89, 144); FibLadder(12, 144, 233); FibLadder(13, 233, 377);
    FibLadder(14, 377, 610); FibLadder(15, 610, 987); FibLadder(16, 987, 1597); FibLadder(17, 1597, 2584);
    FibLadder(18, 2584, 4181); FibLadder(19, 4181, 6765); FibLadder(20, 6765, 10946); FibLadder(21, 10946, 17711);
    FibLadder(22, 17711, 28657); FibLadder(23, 28657, 46368); FibLadder(24, 46368, 75025); FibLadder(25, 75025, 121393);
    FibLadder(26, 121393, 196418); FibLadder(27, 196418, 317811); FibLadder(28, 317811, 514229);
    FibLadder(29, 514229, 832040);
    FibLadder(30, 832040, 1346269); FibLadder(31, 1346269, 2178309); FibLadder(32, 2178309, 3524578);
  }

  lemma FibFrom34(n: nat)
    requires n >= 34
    ensures Fib(n) >= FIB34
  {
    hide Fib;
    Fib34();
    FibMonotone(34, n);
  }

  /** With fewer than Fib(34) nodes every degree indexes a table of 32 cells. */
  lemma DegreeFitsTable<N>(s: Shape<N>, n: N)
    requires Good(s) && n in s.par && |s.par| < FIB34
    ensures |s.kids[n]| < 32
  {
    BigTrees(s, n);
    KidsBelow(s, n);
    DescInTree(s, n);
    SubsetSize(Desc(s, n), s.par.Keys);
    if |s.kids[n]| >= 32 {
      FibFrom34(|s.kids[n]| + 2);
      assert false;
    }
  }
}
