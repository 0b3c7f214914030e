/**
  What the heap operations do to the shape, and that each of them keeps it good:
  adding a root, linking one root under another of the same degree, deleting a node, and
  the cascade of cuts that follows a deletion.
*/
module FiboOps {
  import opened Collections
  import opened FiboShape

  // ----- rings -----

  ghost function InsertSecond<T>(s: seq<T>, x: T): seq<T> {
    if s == [] then [x] else [s[0], x] + s[1..]
  }

  lemma DeleteMembers<T>(s: seq<T>, i: nat)
    requires NoDup(s) && i < |s|
    ensures NoDup(Without(s, i)) && NoDup(RestOfRing(s, i))
    ensures forall x :: x in Without(s, i) <==> x in s && x != s[i]
    ensures forall x :: x in RestOfRing(s, i) <==> x in s && x != s[i]
  {
    forall x | x in s && x != s[i]
      ensures x in Without(s, i) && x in RestOfRing(s, i)
    {
      var j :| 0 <= j < |s| && s[j] == x;
      if j < i {
        assert Without(s, i)[j] == x && RestOfRing(s, i)[|s| - 1 - i + j] == x;
      } else {
        assert Without(s, i)[j - 1] == x && RestOfRing(s, i)[j - i - 1] == x;
      }
    }
  }

  /** Where the elements go when x is put second. */
  lemma InsertAt<T>(s: seq<T>, x: T)
    requires s != []
    ensures var r := InsertSecond(s, x);
            |r| == |s| + 1 && r[1] == x && forall k :: 0 <= k < |s| ==> r[if k == 0 then 0 else k + 1] == s[k]
    ensures var r := InsertSecond(s, x);
            forall k :: 0 <= k < |r| && k != 1 ==> r[k] == s[if k == 0 then 0 else k - 1]
  {
  }

  lemma InsertSecondMembers<T>(s: seq<T>, x: T)
    requires s != [] && NoDup(s) && x !in s
    ensures NoDup(InsertSecond(s, x))
    ensures forall y :: y in InsertSecond(s, x) <==> y in s || y == x
  {
    InsertAt(s, x);
    hide InsertSecond;
    var r := InsertSecond(s, x);
    forall i, j | 0 <= i < j < |r| ensures r[i] != r[j] {
      if i != 1 { assert r[i] in s; }
      if j != 1 { assert r[j] in s; }
    }
    forall y | y in r ensures y in s || y == x {
      var k :| 0 <= k < |r| && r[k] == y;
    }
    forall y | y in s ensures y in r {
      var k :| 0 <= k < |s| && s[k] == y;
      assert r[if k == 0 then 0 else k + 1] == y;
    }
  }

  lemma InsertMembers<T>(s: seq<T>, x: T)
    requires NoDup(s) && x !in s
    ensures NoDup(InsertSecond(s, x)) && NoDup([x] + s)
    ensures forall y :: y in InsertSecond(s, x) <==> y in s || y == x
    ensures forall y :: y in [x] + s <==> y in s || y == x
  {
    if s != [] {
      InsertSecondMembers(s, x);
      hide InsertSecond;
    }
  }

  lemma FrontMembers<T>(a: seq<T>, b: seq<T>)
    requires NoDup(a) && NoDup(b) && forall x :: x in a ==> x !in b
    ensures NoDup(Reversed(a) + b)
    ensures forall x :: x in Reversed(a) + b <==> x in a || x in b
  {
    var r := Reversed(a);
    forall x | x in a ensures x in r {
      var j :| 0 <= j < |a| && a[j] == x;
      assert r[|a| - 1 - j] == x;
    }
    assert forall x :: x in r ==> x in a;
    forall i, j | 0 <= i < j < |r + b| ensures (r + b)[i] != (r + b)[j] {
      if i < |a| {
        assert (r + b)[i] in a;
        if j >= |a| { assert (r + b)[j] in b; }
      }
    }
  }

  // ----- operations -----

  ghost function AddRoot<N>(s: Shape<N>, n: N): Shape<N>
    requires s.root in s.kids
  {
    s.(kids := s.kids[n := []][s.root := [n] + s.kids[s.root]], par := s.par[n := s.root],
       marked := s.marked - {n}, rank := s.rank[n := 0])
  }

  /** Consolidation: root `lose`, the i-th of the list, becomes a child of root `win`. */
  ghost function Link<N>(s: Shape<N>, win: N, lose: N, i: nat): Shape<N>
    requires s.root in s.kids && i < |s.kids[s.root]| && win in s.kids && win in s.rank && lose in s.rank
  {
    s.(kids := s.kids[s.root := Without(s.kids[s.root], i)][win := InsertSecond(s.kids[win], lose)],
       par := s.par[lose := win],
       marked := s.marked - {lose} - (if s.kids[win] == [] then {win} else {}),
       rank := s.rank[win := if s.rank[lose] < s.rank[win] then s.rank[win] else s.rank[lose] + 1])
  }

  /** Deletion: node n, the i-th child of p, leaves; its children become roots. */
  ghost function Drop<N>(s: Shape<N>, p: N, n: N, i: nat): Shape<N>
    requires s.root in s.kids && p in s.kids && n in s.kids && i < |s.kids[p]|
  {
    var rest := if p == s.root then Without(s.kids[p], i) else RestOfRing(s.kids[p], i);
    var k := s.kids[p := rest];
    s.(kids := (k - {n})[s.root := Reversed(s.kids[n]) + k[s.root]],
       par := (map c | c in s.par && c != n :: if c in s.kids[n] then s.root else s.par[c]),
       marked := s.marked - {n})
  }

  /** Cascade: node c, the i-th child of p, becomes a root. */
  ghost function Cut<N>(s: Shape<N>, p: N, c: N, i: nat): Shape<N>
    requires s.root in s.kids && p in s.kids && i < |s.kids[p]|
  {
    s.(kids := s.kids[p := RestOfRing(s.kids[p], i)][s.root := [c] + s.kids[s.root]], par := s.par[c := s.root])
  }

  ghost function Mark<N>(s: Shape<N>, p: N): Shape<N> {
    s.(marked := s.marked + {p})
  }

  // ----- the operations keep the tree -----

  /** The ring of m is well kept: no duplicates, and exactly the nodes whose parent is m. */
  ghost predicate RingOf<N>(s: Shape<N>, m: N)
    requires m in s.kids
  {
    && NoDup(s.kids[m])
    && (forall x :: x in s.kids[m] ==> x in s.par && s.par[x] == m)
    && (forall x :: x in s.par && s.par[x] == m ==> x in s.kids[m])
  }

  lemma RingOfTree<N>(s: Shape<N>, m: N)
    requires Tree(s) && m in s.kids
    ensures RingOf(s, m)
  {
  }

  lemma TreeOfRings<N>(s: Shape<N>)
    requires s.root in s.kids && s.root !in s.par && s.par.Keys == s.kids.Keys - {s.root} && s.kids.Keys <= s.rank.Keys
    requires forall m :: m in s.kids ==> RingOf(s, m)
    requires forall c :: c in s.par ==> s.par[c] in s.kids && c in s.rank
    requires forall c :: c in s.par && s.par[c] != s.root ==> s.par[c] in s.rank && s.rank[c] < s.rank[s.par[c]]
    ensures Tree(s)
  {
    forall c | c in s.par ensures c in s.kids && c in s.kids[s.par[c]] {
      assert RingOf(s, s.par[c]);
    }
    forall n, c | n in s.kids && c in s.kids[n] ensures c in s.par && s.par[c] == n {
      assert RingOf(s, n);
    }
    forall n | n in s.kids ensures NoDup(s.kids[n]) {
      assert RingOf(s, n);
    }
  }

  lemma AddRootTree<N>(s: Shape<N>, n: N)
    requires Tree(s) && n !in s.kids
    ensures Tree(AddRoot(s, n))
  {
    var t := AddRoot(s, n);
    forall m | m in t.kids ensures RingOf(t, m) {
      if m != n { RingOfTree(s, m); }
      if m == s.root { InsertMembers(s.kids[m], n); }
    }
    TreeOfRings(t);
  }

  lemma LinkTree<N>(s: Shape<N>, win: N, lose: N, i: nat)
    requires Tree(s) && win in s.par && lose in s.par && win != lose
    requires s.par[win] == s.root && s.par[lose] == s.root && i < |s.kids[s.root]| && s.kids[s.root][i] == lose
    ensures Tree(Link(s, win, lose, i))
  {
    var t := Link(s, win, lose, i);
    forall m | m in t.kids ensures RingOf(t, m) {
      RingOfTree(s, m);
      if m == s.root {
        DeleteMembers(s.kids[m], i);
      } else if m == win {
        InsertMembers(s.kids[m], lose);
      }
    }
    TreeOfRings(t);
  }

  lemma CutTree<N>(s: Shape<N>, p: N, c: N, i: nat)
    requires Tree(s) && p in s.par && i < |s.kids[p]| && s.kids[p][i] == c
    ensures Tree(Cut(s, p, c, i))
  {
    var t := Cut(s, p, c, i);
    RingOfTree(s, p);
    forall m | m in t.kids ensures RingOf(t, m) {
      RingOfTree(s, m);
      if m == s.root {
        InsertMembers(s.kids[m], c);
      } else if m == p {
        DeleteMembers(s.kids[m], i);
      }
    }
    TreeOfRings(t);
  }

  lemma DropRing<N>(s: Shape<N>, p: N, n: N, i: nat, m: N)
    requires s.root in s.kids && s.root !in s.par && n in s.par && p in s.kids && n in s.kids && i < |s.kids[p]|
    requires s.kids[p][i] == n
    requires RingOf(s, p) && RingOf(s, s.root) && RingOf(s, n) && m in s.kids && RingOf(s, m) && m != n && p != n
    ensures RingOf(Drop(s, p, n, i), m)
  {
    DeleteMembers(s.kids[p], i);
    if m == s.root {
      FrontMembers(s.kids[n], if p == s.root then Without(s.kids[p], i) else s.kids[s.root]);
    }
  }

  lemma DropTree<N>(s: Shape<N>, p: N, n: N, i: nat)
    requires Tree(s) && p in s.kids && n in s.par && i < |s.kids[p]| && s.kids[p][i] == n
    ensures Tree(Drop(s, p, n, i))
  {
    var t := Drop(s, p, n, i);
    RingOfTree(s, p);
    RingOfTree(s, n);
    RingOfTree(s, s.root);
    forall m | m in t.kids ensures RingOf(t, m) {
      RingOfTree(s, m);
      DropRing(s, p, n, i, m);
    }
    TreeOfRings(t);
  }

  // ----- the operations keep the balance -----

  lemma SparseEmpty()
    ensures Sparse([])
  {
  }

  lemma SameEffs<N>(s: Shape<N>, b: set<N>, t: Shape<N>, b': set<N>, ks: seq<N>)
    requires forall k :: k in ks ==> k in s.kids && k in t.kids && Eff(s, k, b) == Eff(t, k, b')
    ensures Effs(s, ks, b) == Effs(t, ks, b')
  {
  }

  /** The ring that is left when its i-th node goes is still sparse. */
  lemma SparseWithout<N>(s: Shape<N>, b: set<N>, t: Shape<N>, b': set<N>, ks: seq<N>, i: nat)
    requires NoDup(ks) && i < |ks| && (forall k :: k in ks ==> k in s.kids) && Sparse(Effs(s, ks, b))
    requires forall k :: k in ks && k != ks[i] ==> k in t.kids && Eff(s, k, b) == Eff(t, k, b')
    ensures forall k :: k in RestOfRing(ks, i) ==> k in t.kids
    ensures Sparse(Effs(t, RestOfRing(ks, i), b'))
  {
    hide Sparse, Eff;
    var r, es := RestOfRing(ks, i), Effs(s, ks, b);
    forall j | 0 <= j < |r| ensures r[j] in ks && r[j] != ks[i] && Eff(s, r[j], b) == RestOfRing(es, i)[j] {
      var j' := if j < |ks| - 1 - i then j + i + 1 else j - (|ks| - 1 - i);
      assert r[j] == ks[j'] && RestOfRing(es, i)[j] == es[j'];
    }
    RemoveSparse(es, i);
    assert Effs(t, r, b') == RestOfRing(es, i);
  }

  lemma AddRootGood<N>(s: Shape<N>, n: N)
    requires Good(s) && n !in s.kids
    ensures Good(AddRoot(s, n))
  {
    var t := AddRoot(s, n);
    AddRootTree(s, n);
    forall m | m in t.par ensures Sparse(Effs(t, t.kids[m], {})) {
      KidsBelow(t, m);
      if m == n {
        SparseEmpty();
      } else {
        KidsBelow(s, m);
        SameEffs(s, {}, t, {}, s.kids[m]);
      }
    }
  }

  /** A root's new child has the degree that all its children together need. */
  lemma InsertSparse(es: seq<nat>)
    requires Sparse(es)
    ensures Sparse(InsertSecond(es, |es|))
  {
    var r := InsertSecond(es, |es|);
    forall t: nat ensures CountLE(r, t) <= t + 1 {
      assert CountLE(es, t) <= t + 1;
      if es == [] || t >= |es| {
        CountLEBound(r, t);
      } else {
        CountLEInsert(es, |es|, t);
      }
    }
  }

  lemma LinkSparse<N>(s: Shape<N>, win: N, lose: N, i: nat, m: N)
    requires Good(s) && win in s.par && lose in s.par && win != lose
    requires s.par[win] == s.root && s.par[lose] == s.root && s.root in s.kids && i < |s.kids[s.root]|
    requires win in s.kids && lose in s.kids && |s.kids[win]| == |s.kids[lose]| && win in s.rank && lose in s.rank
    requires Tree(Link(s, win, lose, i)) && m in Link(s, win, lose, i).par && m in s.par && s.root !in s.par
    ensures m in Link(s, win, lose, i).kids
    ensures forall k :: k in Link(s, win, lose, i).kids[m] ==> k in Link(s, win, lose, i).kids
    ensures Sparse(Effs(Link(s, win, lose, i), Link(s, win, lose, i).kids[m], {}))
  {
    hide Tree, Sparse;
    var t := Link(s, win, lose, i);
    KidsBelow(t, m);
    KidsBelow(s, m);
    var es := Effs(s, s.kids[m], {});
    assert Sparse(es);
    SameEffs(s, {}, t, {}, s.kids[m]);
    if m == win {
      InsertSparse(es);
      assert Effs(t, t.kids[win], {}) == InsertSecond(es, |es|);
    }
  }

  lemma LinkGood<N>(s: Shape<N>, win: N, lose: N, i: nat)
    requires Good(s) && win in s.par && lose in s.par && win != lose
    requires s.par[win] == s.root && s.par[lose] == s.root && i < |s.kids[s.root]| && s.kids[s.root][i] == lose
    requires |s.kids[win]| == |s.kids[lose]|
    ensures Good(Link(s, win, lose, i))
  {
    var t := Link(s, win, lose, i);
    LinkTree(s, win, lose, i);
    forall m | m in t.par ensures Sparse(Effs(t, t.kids[m], {})) {
      LinkSparse(s, win, lose, i, m);
    }
  }

  lemma CutSparse<N>(s: Shape<N>, p: N, c: N, i: nat, m: N)
    requires Tree(s) && Balanced(s, {c}) && p in s.par && p in s.kids && i < |s.kids[p]| && s.kids[p][i] == c
    requires s.root in s.kids
    requires Tree(Cut(s, p, c, i)) && m in Cut(s, p, c, i).par && m in s.par && s.root !in s.par
    ensures m in Cut(s, p, c, i).kids
    ensures forall k :: k in Cut(s, p, c, i).kids[m] ==> k in Cut(s, p, c, i).kids
    ensures Sparse(Effs(Cut(s, p, c, i), Cut(s, p, c, i).kids[m], {p}))
  {
    hide Tree, Sparse;
    var t := Cut(s, p, c, i);
    KidsBelow(s, p);
    KidsBelow(t, m);
    KidsBelow(s, m);
    var es := Effs(s, s.kids[m], {c});
    assert Sparse(es);
    if m == p {
      SparseWithout(s, {c}, t, {p}, s.kids[p], i);
    } else {
      assert c !in s.kids[m];
      SameEffs(s, {c}, t, {p}, s.kids[m]);
    }
  }

  lemma CutBalanced<N>(s: Shape<N>, p: N, c: N, i: nat)
    requires Tree(s) && Balanced(s, {c}) && p in s.par && i < |s.kids[p]| && s.kids[p][i] == c
    ensures Tree(Cut(s, p, c, i)) && Balanced(Cut(s, p, c, i), {p})
  {
    var t := Cut(s, p, c, i);
    CutTree(s, p, c, i);
    forall m | m in t.par ensures Sparse(Effs(t, t.kids[m], {p})) {
      CutSparse(s, p, c, i, m);
    }
  }

  lemma MarkTree<N>(s: Shape<N>, p: N)
    requires Tree(s)
    ensures Tree(Mark(s, p))
  {
  }

  /** Marking settles the debt of a node that was not marked, or that is a root. */
  lemma MarkSettles<N>(s: Shape<N>, p: N)
    requires Tree(s) && Balanced(s, {p}) && p in s.par && (p !in s.marked || s.par[p] == s.root)
    ensures Good(Mark(s, p))
  {
    assert s.root !in s.par;
    hide Tree, Sparse;
    var t := Mark(s, p);
    MarkTree(s, p);
    forall m | m in t.par
      ensures m in t.kids && (forall k :: k in t.kids[m] ==> k in t.kids) && Sparse(Effs(t, t.kids[m], {}))
    {
      KidsBelow(s, m);
      assert Sparse(Effs(s, s.kids[m], {p}));
      SameEffs(s, {p}, t, {}, s.kids[m]);
    }
  }

  lemma DropSparse<N>(s: Shape<N>, p: N, n: N, i: nat, m: N)
    requires Good(s) && p in s.kids && n in s.par && n in s.kids && s.root in s.kids && i < |s.kids[p]|
    requires s.kids[p][i] == n
    requires s.par[n] == p && s.root !in s.par && NoDup(s.kids[p])
    requires Tree(Drop(s, p, n, i)) && m in Drop(s, p, n, i).par && m in s.par && m != n
    ensures m in Drop(s, p, n, i).kids
    ensures forall k :: k in Drop(s, p, n, i).kids[m] ==> k in Drop(s, p, n, i).kids
    ensures Sparse(Effs(Drop(s, p, n, i), Drop(s, p, n, i).kids[m], if p == s.root then {} else {p}))
  {
    hide Tree, Sparse;
    var t := Drop(s, p, n, i);
    var b := if p == s.root then {} else {p};
    KidsBelow(t, m);
    KidsBelow(s, m);
    var es := Effs(s, s.kids[m], {});
    assert Sparse(es);
    if m == p {
      SparseWithout(s, {}, t, b, s.kids[p], i);
    } else {
      assert n !in s.kids[m];
      SameEffs(s, {}, t, b, s.kids[m]);
    }
  }

  lemma DropBalanced<N>(s: Shape<N>, p: N, n: N, i: nat)
    requires Good(s) && p in s.kids && n in s.par && i < |s.kids[p]| && s.kids[p][i] == n
    ensures Tree(Drop(s, p, n, i)) && Balanced(Drop(s, p, n, i), if p == s.root then {} else {p})
  {
    DropTree(s, p, n, i);
    RingOfTree(s, p);
    assert n in s.kids[p];
    var t := Drop(s, p, n, i);
    assert forall m :: m in t.par ==> m in s.par && m != n;
    hide Tree, Drop, Sparse, Eff, Effs, NoDup;
    forall m | m in t.par
      ensures m in t.kids && (forall k :: k in t.kids[m] ==> k in t.kids)
      ensures Sparse(Effs(t, t.kids[m], if p == s.root then {} else {p}))
    {
      DropSparse(s, p, n, i, m);
    }
  }

  // ----- heap order -----

  /** No child has a larger key than its parent; the dummy root has none. */
  ghost predicate HeapOrdered<N>(s: Shape<N>, key: map<N, int>)
    requires Tree(s)
  {
    && s.par.Keys <= key.Keys
    && forall c :: c in s.par && s.par[c] != s.root ==> s.par[c] in key && key[s.par[c]] >= key[c]
  }

  /** The nodes of larger rank, among which a climb to the root of x's tree goes. */
  ghost function Above<N>(s: Shape<N>, x: N): set<N>
    requires Tree(s) && x in s.par
  {
    set y | y in s.par && s.rank[y] > s.rank[x]
  }

  /** Every key is bounded by the key of some tree root. */
  lemma {:induction false} RootDominates<N>(s: Shape<N>, key: map<N, int>, x: N) returns (r: N)
    requires Tree(s) && HeapOrdered(s, key) && x in s.par
    ensures r in s.kids[s.root] && r in key && x in key && key[r] >= key[x]
    decreases |Above(s, x)|
  {
    if s.par[x] == s.root {
      r := x;
    } else {
      var p := s.par[x];
      assert p in Above(s, x) && p !in Above(s, p);
      SubsetSize(Above(s, p), Above(s, x) - {p});
      r := RootDominates(s, key, p);
    }
  }
}
