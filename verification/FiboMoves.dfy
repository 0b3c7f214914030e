/**
  What the pointer updates of the heap operations do to a shape laid out in memory.
*/
module FiboMoves {
  import opened Collections
  import opened FiboShape
  import opened FiboOps
  import opened FiboLinks

  // ----- adding a root -----

  ghost function AfterAdd(m: Mem, root: Node, n: Node): Mem
    requires root in m && n in m && root != n && m[root].next != null && m[root].next in m
  {
    AfterLink(m[n := m[n].(parent := null, child := null, word := 0)], root, n)
  }

  lemma AddKept(m: Mem, s: Shape<Node>, n: Node, m': Mem, x: Node)
    requires n in m
    requires Linked(m, s, {}) && n !in s.kids && x in s.par
    requires OnlyLinks(m[n := m[n].(parent := null, child := null, word := 0)], m', RootRing(s) + [n])
    ensures NodeOk(m', AddRoot(s, n), x, {})
  {
    assert NodeOk(m, s, x, {});
    RootRingNoDup(s);
    RingsApart(s, x, s.root);
    NodeKept(m, s, {}, m', AddRoot(s, n), {}, x);
  }

  lemma LinkedRoot(m: Mem, s: Shape<Node>, lag: set<Node>)
    requires Linked(m, s, lag)
    ensures s.root in s.kids && s.root in m && m[s.root].next != null && m[s.root].next in m && m[s.root].next in s.kids
    ensures s.root !in s.par && s.par.Keys <= s.kids.Keys <= m.Keys
  {
    RootRingNoDup(s);
    assert Hop(m, RootRing(s), 0);
    assert RootRing(s)[Succ(0, |RootRing(s)|)] in RootRing(s);
  }

  lemma NewRootOk(m: Mem, t: Shape<Node>, n: Node)
    requires n in m && n in t.par && n in t.kids && t.kids[n] == [] && t.par[n] == t.root && n !in t.marked
    requires m[n].parent == null && m[n].child == null && m[n].word == 0
    ensures NodeOk(m, t, n, {})
  {
  }

  lemma LinkedFrom(m: Mem, s: Shape<Node>, lag: set<Node>)
    requires Tree(s) && s.kids.Keys <= m.Keys && Ring(m, RootRing(s))
    requires forall x :: x in s.par ==> NodeOk(m, s, x, lag)
    ensures Linked(m, s, lag)
  {
  }

  lemma AddLinked(m: Mem, s: Shape<Node>, n: Node)
    requires Linked(m, s, {}) && n !in s.kids && n in m && Tree(AddRoot(s, n))
    ensures s.root in m && m[s.root].next != null && m[s.root].next in m
    ensures Linked(AfterAdd(m, s.root, n), AddRoot(s, n), {})
  {
    hide Tree, Ring, NoDup, NodeOk, AfterLink;
    LinkedRoot(m, s, {});
    RootRingNoDup(s);
    var r := RootRing(s);
    var m1 := m[n := m[n].(parent := null, child := null, word := 0)];
    RingKept(m, m1, r);
    LinkRing(m1, r, n);
    var m' := AfterLink(m1, s.root, n);
    var t := AddRoot(s, n);
    assert RootRing(t) == InsertSecond(r, n);
    forall x | x in t.par ensures NodeOk(m', t, x, {}) {
      if x == n {
        NewRootOk(m', t, n);
      } else {
        AddKept(m, s, n, m', x);
      }
    }
    LinkedFrom(m', t, {});
  }

  // ----- settling a lagging node -----

  ghost function First(ks: seq<Node>): Node? { if ks == [] then null else ks[0] }

  ghost function AfterSettle(m: Mem, s: Shape<Node>, p: Node): (m': Mem)
    requires p in m && p in s.kids
    ensures m'.Keys == m.Keys
  {
    m[p := m[p].(word := Word(Mark(s, p), p), child := First(s.kids[p]))]
  }

  lemma SettleLinked(m: Mem, s: Shape<Node>, p: Node)
    requires Linked(m, s, {p}) && p in s.par && p in s.kids && p in m
    ensures Linked(AfterSettle(m, s, p), Mark(s, p), {})
  {
    var m', t := AfterSettle(m, s, p), Mark(s, p);
    MarkTree(s, p);
    assert RootRing(t) == RootRing(s);
    RingKept(m, m', RootRing(s));
    hide Tree, Ring;
    forall x | x in t.par ensures NodeOk(m', t, x, {}) {
      assert NodeOk(m, s, x, {p});
      if x == p {
        RingKept(m, m', s.kids[p]);
      } else {
        NodeKept(m, s, {p}, m', t, {}, x);
      }
    }
  }

  // ----- cutting a child off -----

  ghost function AfterCut(m: Mem, root: Node, c: Node): (m': Mem)
    requires root in m && c in m && root != c
    requires m[c].prev != null && m[c].next != null && m[c].prev in m && m[c].next in m
    requires AfterUnlink(m, c)[root].next != null && AfterUnlink(m, c)[root].next in m
    ensures m'.Keys == m.Keys
  {
    var m2 := AfterUnlink(m, c);
    AfterLink(m2[c := m2[c].(parent := null)], root, c)
  }

  /**
    What moving node c from ring r, where it is the i-th, to right after the first node of ring
    rr does to the cells.
  */
  ghost predicate Moved(m: Mem, m': Mem, r: seq<Node>, i: nat, rr: seq<Node>, c: Node)
    requires i < |r|
  {
    && m'.Keys == m.Keys
    && Ring(m', InsertSecond(rr, c)) && Ring(m', RestOfRing(r, i))
    && c in m && m'[c] == m[c].(parent := null, next := m'[c].next, prev := m'[c].prev)
    && (forall x :: x in m && x != c ==> m'[x] == m[x].(next := m'[x].next, prev := m'[x].prev))
    && (forall x :: x in m && x !in r && x !in rr ==> m'[x] == m[x])
  }

  lemma RotateDelete(m: Mem, r: seq<Node>, i: nat)
    requires i < |r| && Ring(m, Without(r, i))
    ensures Ring(m, RestOfRing(r, i))
  {
    RotateRing(m, r[..i], r[i+1..]);
  }

  lemma MoveNode(m: Mem, r: seq<Node>, i: nat, rr: seq<Node>, c: Node)
    requires i < |r| && r[i] == c && NoDup(r) && Ring(m, r) && rr != [] && NoDup(rr) && Ring(m, rr)
    requires forall x :: x in r ==> x !in rr
    ensures c in m && rr[0] in m && rr[0] != c
    ensures m[c].prev != null && m[c].next != null && m[c].prev in m && m[c].next in m
    ensures AfterUnlink(m, c)[rr[0]].next != null && AfterUnlink(m, c)[rr[0]].next in m
    ensures m[c].next == r[Succ(i, |r|)]
    ensures Moved(m, AfterCut(m, rr[0], c), r, i, rr, c)
  {
    hide Ring, Hop, NoDup, AfterLink, AfterUnlink;
    assert c in r && rr[0] in rr;
    UnlinkRing(m, r, i);
    var m2 := AfterUnlink(m, c);
    var m3 := m2[c := m2[c].(parent := null)];
    RingKept(m, m3, rr);
    RotateDelete(m2, r, i);
    LinkRing(m3, rr, c);
    DeleteMembers(r, i);
    var m4 := AfterLink(m3, rr[0], c);
    assert forall x :: x in RestOfRing(r, i) && x in m2 ==> m4[x] == m2[x];
    RingKept(m2, m4, RestOfRing(r, i));
  }

  /** The rings that a cut touches, and what the shape knows of them. */
  lemma CutRings(m: Mem, s: Shape<Node>, p: Node)
    requires Linked(m, s, {}) && p in s.par && p in s.kids
    ensures NoDup(s.kids[p]) && Ring(m, s.kids[p]) && NoDup(RootRing(s)) && Ring(m, RootRing(s))
    ensures forall x :: x in s.kids[p] ==> x !in RootRing(s) && x in s.par && s.par[x] == p
    ensures RootRing(s)[0] == s.root && s.root !in s.par && s.root in s.kids && s.root in m
  {
    LinkedRoot(m, s, {});
    RootRingNoDup(s);
    KidsBelow(s, p);
    RingsApart(s, p, s.root);
    assert NodeOk(m, s, p, {});
  }

  lemma CutOther(m: Mem, m': Mem, s: Shape<Node>, p: Node, c: Node, i: nat, x: Node)
    requires Linked(m, s, {}) && p in s.par && p in s.kids && i < |s.kids[p]| && s.kids[p][i] == c && s.root in s.kids
    requires Moved(m, m', s.kids[p], i, RootRing(s), c) && x in s.par && x != p && x in s.kids
    ensures forall y :: y in s.kids[x] && y in m ==> y in m' && m'[y] == m[y]
  {
    CutRings(m, s, p);
    RootRingNoDup(s);
    RingsApart(s, x, p);
    RingsApart(s, x, s.root);
  }

  lemma CutFields(s: Shape<Node>, p: Node, c: Node, i: nat, x: Node, cell: Cell, cell': Cell)
    requires p in s.par && p in s.kids && i < |s.kids[p]| && s.root in s.kids && s.root !in s.par && c in s.par
    requires c != p
    requires x in s.par && x in s.kids && Fields(cell, s, x, {})
    requires cell' == cell.(parent := if x == c then null else cell.parent, next := cell'.next, prev := cell'.prev)
    ensures Fields(cell', Cut(s, p, c, i), x, {p})
  {
  }

  lemma CutRingAt(m: Mem, m': Mem, s: Shape<Node>, p: Node, c: Node, i: nat, x: Node)
    requires Linked(m, s, {}) && p in s.par && p in s.kids && i < |s.kids[p]| && s.kids[p][i] == c && s.root in s.kids
    requires Moved(m, m', s.kids[p], i, RootRing(s), c) && x in s.par && x in s.kids && x != s.root
    ensures Ring(m', Cut(s, p, c, i).kids[x])
  {
    assert NodeOk(m, s, x, {});
    if x != p {
      CutOther(m, m', s, p, c, i, x);
      hide Tree, Ring, Linked;
      RingKept(m, m', s.kids[x]);
    }
  }

  lemma CutNode(m: Mem, m': Mem, s: Shape<Node>, p: Node, c: Node, i: nat, x: Node)
    requires Linked(m, s, {}) && p in s.par && p in s.kids && i < |s.kids[p]| && s.kids[p][i] == c && s.root in s.kids
    requires Moved(m, m', s.kids[p], i, RootRing(s), c) && x in s.par
    ensures NodeOk(m', Cut(s, p, c, i), x, {p})
  {
    assert NodeOk(m, s, x, {});
    CutRings(m, s, p);
    KidsBelow(s, p);
    assert c in s.kids[p] && s.par[c] == p;
    hide Tree, NoDup, Ring, Linked, RootRing, Fields;
    CutFields(s, p, c, i, x, m[x], m'[x]);
    CutRingAt(m, m', s, p, c, i, x);
  }

  lemma CutLinked(m: Mem, m': Mem, s: Shape<Node>, p: Node, c: Node, i: nat)
    requires Linked(m, s, {}) && p in s.par && p in s.kids && i < |s.kids[p]| && s.kids[p][i] == c
    requires Moved(m, m', s.kids[p], i, RootRing(s), c) && Tree(Cut(s, p, c, i))
    ensures Linked(m', Cut(s, p, c, i), {p})
  {
    var t := Cut(s, p, c, i);
    CutRings(m, s, p);
    assert c in s.kids[p];
    LinkedRoot(m, s, {});
    assert RootRing(t) == InsertSecond(RootRing(s), c);
    hide Tree, Ring, NoDup, NodeOk, RootRing;
    forall x | x in t.par ensures NodeOk(m', t, x, {p}) {
      CutNode(m, m', s, p, c, i, x);
    }
    LinkedFrom(m', t, {p});
  }

  // ----- deleting a node -----

  /** The ring a node's siblings are in, and its place there. */
  ghost function OwnRing(s: Shape<Node>, p: Node): seq<Node>
    requires Tree(s) && p in s.kids
  {
    if p == s.root then RootRing(s) else s.kids[p]
  }

  ghost function OwnPlace(s: Shape<Node>, p: Node, i: nat): nat { if p == s.root then i + 1 else i }

  /** The other roots, once the i-th child of p is out of its ring. */
  ghost function Base(s: Shape<Node>, p: Node, i: nat): seq<Node>
    requires s.root in s.kids && p in s.kids && i < |s.kids[p]|
  {
    if p == s.root then Without(s.kids[p], i) else s.kids[s.root]
  }

  /** The cells when j of the children ks have become roots; m1 is the memory before. */
  ghost predicate FreedCells(m1: Mem, m: Mem, root: Node, ks: seq<Node>, base: seq<Node>, j: nat) {
    && j <= |ks| && m.Keys == m1.Keys && (forall k :: k in ks ==> k in m1)
    && (forall x :: x in m1 && x !in ks ==> m[x] == m1[x].(next := m[x].next, prev := m[x].prev))
    && (forall x :: x in m1 && x !in ks && x != root && x !in base ==> m[x] == m1[x])
    && (forall k :: 0 <= k < j ==> m[ks[k]] == m1[ks[k]].(parent := null, next := m[ks[k]].next, prev := m[ks[k]].prev))
    && (forall k :: j <= k < |ks| ==> m[ks[k]] == m1[ks[k]])
  }

  /** fiboTreeCutChildren, after j of the children ks have become roots. */
  ghost predicate Freed(m1: Mem, m: Mem, root: Node, ks: seq<Node>, base: seq<Node>, j: nat) {
    FreedCells(m1, m, root, ks, base, j) && Ring(m, FreedRing(root, ks, base, j))
  }

  ghost function AfterFree(m: Mem, root: Node, c: Node): (m': Mem)
    requires root in m && c in m && root != c && m[root].next != null && m[root].next in m
    ensures m'.Keys == m.Keys
  {
    AfterLink(m[c := m[c].(parent := null)], root, c)
  }

  lemma ReversedStep(ks: seq<Node>, j: nat)
    requires j < |ks|
    ensures Reversed(ks[..j+1]) == [ks[j]] + Reversed(ks[..j])
  {
  }

  lemma InsertAfterHead(root: Node, c: Node, a: seq<Node>, base: seq<Node>)
    ensures InsertSecond([root] + (a + base), c) == [root] + (([c] + a) + base)
  {
    assert ([root] + (a + base))[1..] == a + base;
  }

  /** The list of roots once j children are freed. */
  ghost function FreedRing(root: Node, ks: seq<Node>, base: seq<Node>, j: nat): seq<Node>
    requires j <= |ks|
  {
    [root] + (Reversed(ks[..j]) + base)
  }

  lemma FreedRingStep(root: Node, ks: seq<Node>, base: seq<Node>, j: nat)
    requires j < |ks|
    ensures InsertSecond(FreedRing(root, ks, base, j), ks[j]) == FreedRing(root, ks, base, j + 1)
  {
    ReversedStep(ks, j);
    InsertAfterHead(root, ks[j], Reversed(ks[..j]), base);
  }

  lemma FreedRingMembers(root: Node, ks: seq<Node>, base: seq<Node>, j: nat)
    requires NoDup(ks) && NoDup(base) && j <= |ks| && root !in base && root !in ks && forall x :: x in ks ==> x !in base
    ensures NoDup(FreedRing(root, ks, base, j)) && FreedRing(root, ks, base, j)[0] == root
    ensures forall x :: x in FreedRing(root, ks, base, j) <==> x == root || x in ks[..j] || x in base
    ensures forall k :: j <= k < |ks| ==> ks[k] !in FreedRing(root, ks, base, j)
  {
    assert forall x :: x in ks[..j] ==> x in ks;
    FrontMembers(ks[..j], base);
    InsertMembers(Reversed(ks[..j]) + base, root);
    forall k | j <= k < |ks| ensures ks[k] !in ks[..j] && ks[k] !in base && ks[k] != root {
      assert ks[k] in ks;
    }
  }

  lemma FreedCellsStep(m1: Mem, m: Mem, m': Mem, root: Node, ks: seq<Node>, base: seq<Node>, j: nat, r: seq<Node>)
    requires FreedCells(m1, m, root, ks, base, j) && j < |ks| && NoDup(ks)
    requires forall x :: x in r <==> x == root || x in ks[..j] || x in base
    requires forall k :: j <= k < |ks| ==> ks[k] !in r
    requires OnlyLinks(m[ks[j] := m[ks[j]].(parent := null)], m', r + [ks[j]])
    ensures FreedCells(m1, m', root, ks, base, j + 1)
  {
    assert forall x :: x in ks[..j] ==> x in ks;
    forall k | j < k < |ks| ensures m'[ks[k]] == m1[ks[k]] {
      assert ks[k] in ks && ks[k] !in r + [ks[j]];
    }
  }

  lemma FreedStep(m1: Mem, m: Mem, root: Node, ks: seq<Node>, base: seq<Node>, j: nat)
    requires Freed(m1, m, root, ks, base, j) && j < |ks| && NoDup(ks) && NoDup(base)
    requires root !in base && root !in ks && forall x :: x in ks ==> x !in base
    ensures root in m && root != ks[j] && ks[j] in m && m[root].next != null && m[root].next in m
    ensures Freed(m1, AfterFree(m, root, ks[j]), root, ks, base, j + 1)
  {
    var c, r := ks[j], FreedRing(root, ks, base, j);
    FreedRingMembers(root, ks, base, j);
    FreedRingStep(root, ks, base, j);
    hide Ring, NoDup, AfterLink, InsertSecond, FreedRing, Reversed, OnlyLinks;
    assert c in ks && c in m;
    var m0 := m[c := m[c].(parent := null)];
    RingKept(m, m0, r);
    LinkRing(m0, r, c);
    FreedCellsStep(m1, m, AfterLink(m0, root, c), root, ks, base, j, r);
  }

  /** The premise of all the lemmas on deletion: n is the i-th child of p. */
  ghost predicate Child(s: Shape<Node>, p: Node, n: Node, i: nat) {
    && Tree(s) && p in s.kids && n in s.par && n in s.kids && s.root in s.kids && s.root !in s.par
    && i < |s.kids[p]| && s.kids[p][i] == n && s.par[n] == p
  }

  lemma ChildFacts(m: Mem, s: Shape<Node>, p: Node, n: Node, i: nat)
    requires Linked(m, s, {}) && Child(s, p, n, i)
    ensures NoDup(OwnRing(s, p)) && Ring(m, OwnRing(s, p))
    ensures OwnPlace(s, p, i) < |OwnRing(s, p)| && OwnRing(s, p)[OwnPlace(s, p, i)] == n
    ensures NoDup(s.kids[n])
    ensures forall x :: x in s.kids[n] ==> x in m && x in s.par && s.par[x] == n && x !in OwnRing(s, p)
    ensures s.root !in s.kids[n] && n !in s.kids[n] && n in m
  {
    LinkedRoot(m, s, {});
    RootRingNoDup(s);
    KidsBelow(s, n);
    RingOfTree(s, p);
    if p != s.root { assert NodeOk(m, s, p, {}); }
    RingsApart(s, n, p);
  }

  lemma BaseFacts(s: Shape<Node>, p: Node, n: Node, i: nat)
    requires Child(s, p, n, i)
    ensures NoDup(Base(s, p, i)) && s.root !in Base(s, p, i) && n !in Base(s, p, i)
    ensures forall x :: x in Base(s, p, i) ==> x in s.par && s.par[x] == s.root
    ensures forall x :: x in s.kids[n] ==> x !in Base(s, p, i)
    ensures p == s.root ==> Without(OwnRing(s, p), OwnPlace(s, p, i)) == FreedRing(s.root, s.kids[n], Base(s, p, i), 0)
    ensures p != s.root ==> RootRing(s) == FreedRing(s.root, s.kids[n], Base(s, p, i), 0)
  {
    RingOfTree(s, s.root);
    RingOfTree(s, n);
    RingOfTree(s, p);
    DeleteMembers(s.kids[p], i);
    hide NoDup;
    assert s.kids[n][..0] == [];
  }

  lemma DropRoots(s: Shape<Node>, p: Node, n: Node, i: nat)
    requires Child(s, p, n, i) && Tree(Drop(s, p, n, i))
    ensures RootRing(Drop(s, p, n, i)) == FreedRing(s.root, s.kids[n], Base(s, p, i), |s.kids[n]|)
  {
    hide Tree;
    assert s.kids[n][..|s.kids[n]|] == s.kids[n];
  }

  /** Unlinking a node starts the freeing of its children. */
  lemma DropStart(m: Mem, s: Shape<Node>, p: Node, n: Node, i: nat)
    requires Linked(m, s, {}) && Child(s, p, n, i)
    ensures n in m && m[n].prev != null && m[n].next != null && m[n].prev in m && m[n].next in m
    ensures AfterUnlink(m, n)[n].next == m[n].next && OnlyLinks(m, AfterUnlink(m, n), OwnRing(s, p))
    ensures p != s.root ==>
              m[n].next == s.kids[p][Succ(i, |s.kids[p]|)] && Ring(AfterUnlink(m, n), RestOfRing(s.kids[p], i))
    ensures Freed(AfterUnlink(m, n), AfterUnlink(m, n), s.root, s.kids[n], Base(s, p, i), 0)
  {
    ChildFacts(m, s, p, n, i);
    BaseFacts(s, p, n, i);
    RootRingNoDup(s);
    if p != s.root { RingsApart(s, p, s.root); }
    hide Tree, NoDup, Ring, AfterUnlink, FreedRing;
    var r, i0 := OwnRing(s, p), OwnPlace(s, p, i);
    UnlinkRing(m, r, i0);
    var m1 := AfterUnlink(m, n);
    if p != s.root {
      RingKept(m, m1, RootRing(s));
      RotateDelete(m1, r, i);
    }
  }

  /** n has been unlinked (memory m1) and then its children freed (memory m2). */
  ghost predicate DroppedVia(m: Mem, m1: Mem, m2: Mem, s: Shape<Node>, p: Node, n: Node, i: nat)
    requires Child(s, p, n, i)
  {
    && OnlyLinks(m, m1, OwnRing(s, p)) && (p != s.root ==> Ring(m1, RestOfRing(s.kids[p], i)))
    && Freed(m1, m2, s.root, s.kids[n], Base(s, p, i), |s.kids[n]|)
  }

  lemma DropFields(s: Shape<Node>, p: Node, n: Node, i: nat, x: Node, cell: Cell, cell': Cell)
    requires Child(s, p, n, i) && x in s.par && x in s.kids && x != n && p != n && Fields(cell, s, x, {})
    requires cell' == cell.(parent := if x in s.kids[n] then null else cell.parent,
                            next := cell'.next, prev := cell'.prev)
    requires x in s.kids[n] ==> x != p
    ensures x in Drop(s, p, n, i).par && x in Drop(s, p, n, i).kids
    ensures Fields(cell', Drop(s, p, n, i), x, if p == s.root then {} else {p})
  {
    hide Tree;
  }

  /** A node that is neither a sibling of n, nor a root, nor a child of n keeps its cell. */
  lemma DropCells(m: Mem, m1: Mem, m2: Mem, s: Shape<Node>, p: Node, n: Node, i: nat, y: Node)
    requires Linked(m, s, {}) && Child(s, p, n, i) && DroppedVia(m, m1, m2, s, p, n, i) && y in m && y in s.par
    ensures y in m2
    ensures m2[y] == m[y].(parent := if y in s.kids[n] then null else m[y].parent,
                           next := m2[y].next, prev := m2[y].prev)
    ensures s.par[y] != p && s.par[y] != s.root && s.par[y] != n ==> m2[y] == m[y]
    ensures s.par[y] == p && p != s.root && y != n ==> m2[y] == m1[y]
  {
    BaseFacts(s, p, n, i);
    ChildFacts(m, s, p, n, i);
    RingOfTree(s, p);
    RingOfTree(s, n);
    RingOfTree(s, s.root);
    hide Tree, NoDup, Ring;
    if y in s.kids[n] {
      var k :| 0 <= k < |s.kids[n]| && s.kids[n][k] == y;
    }
  }

  lemma DropRingAt(m: Mem, m1: Mem, m2: Mem, s: Shape<Node>, p: Node, n: Node, i: nat, x: Node)
    requires Linked(m, s, {}) && Child(s, p, n, i) && DroppedVia(m, m1, m2, s, p, n, i) && x in s.par && x in s.kids
    requires x != n
    ensures x in Drop(s, p, n, i).kids && Ring(m2, Drop(s, p, n, i).kids[x])
  {
    KidsBelow(s, x);
    LinkedRoot(m, s, {});
    assert NodeOk(m, s, x, {});
    assert x == p ==> Ring(m1, RestOfRing(s.kids[p], i)) && OnlyLinks(m, m1, OwnRing(s, p));
    hide Tree, NoDup, Ring, Linked, DroppedVia, Drop, OwnRing, NodeOk;
    if x == p {
      DeleteMembers(s.kids[p], i);
    }
    forall y | y in s.kids[x] && y != n
      ensures y in m2 && (x != p ==> m2[y] == m[y]) && (x == p ==> m2[y] == m1[y])
    {
      DropCells(m, m1, m2, s, p, n, i, y);
    }
    DropRingKept(m, m1, m2, s, p, n, i, x);
  }

  lemma DropRingKept(m: Mem, m1: Mem, m2: Mem, s: Shape<Node>, p: Node, n: Node, i: nat, x: Node)
    requires Child(s, p, n, i) && x in s.par && x in s.kids && x != n && x != s.root && p != n
    requires x != p ==> Ring(m, s.kids[x]) && forall y :: y in s.kids[x] ==> y in m2 && y in m && m2[y] == m[y]
    requires x == p ==> Ring(m1, RestOfRing(s.kids[p], i))
    requires x == p ==> forall y :: y in RestOfRing(s.kids[p], i) ==> y in m2 && y in m1 && m2[y] == m1[y]
    ensures x in Drop(s, p, n, i).kids && Ring(m2, Drop(s, p, n, i).kids[x])
  {
    hide Tree;
    if x == p {
      RingKept(m1, m2, RestOfRing(s.kids[p], i));
    } else {
      RingKept(m, m2, s.kids[x]);
    }
  }

  lemma DropNode(m: Mem, m1: Mem, m2: Mem, s: Shape<Node>, p: Node, n: Node, i: nat, x: Node)
    requires Linked(m, s, {}) && Child(s, p, n, i) && DroppedVia(m, m1, m2, s, p, n, i) && x in s.par && x in s.kids
    requires x != n
    ensures NodeOk(m2, Drop(s, p, n, i), x, if p == s.root then {} else {p})
  {
    assert NodeOk(m, s, x, {});
    KidsBelow(s, n);
    if p != s.root { KidsBelow(s, p); }
    assert x in s.kids[n] ==> x != p;
    assert p != n;
    hide Tree, NoDup, Ring, Linked, DroppedVia, Drop, Fields;
    DropCells(m, m1, m2, s, p, n, i, x);
    DropFields(s, p, n, i, x, m[x], m2[x]);
    DropRingAt(m, m1, m2, s, p, n, i, x);
  }

  lemma DropKeys(s: Shape<Node>, p: Node, n: Node, i: nat)
    requires Child(s, p, n, i)
    ensures Drop(s, p, n, i).par.Keys == s.par.Keys - {n} && Drop(s, p, n, i).kids.Keys == s.kids.Keys - {n}
    ensures Drop(s, p, n, i).root == s.root
  {
    hide Tree;
  }

  lemma DropLinked(m: Mem, m1: Mem, m2: Mem, s: Shape<Node>, p: Node, n: Node, i: nat)
    requires Linked(m, s, {}) && Child(s, p, n, i) && DroppedVia(m, m1, m2, s, p, n, i) && Tree(Drop(s, p, n, i))
    ensures Linked(m2, Drop(s, p, n, i), if p == s.root then {} else {p})
  {
    hide Tree, NoDup, Ring, Linked, Drop, NodeOk, Base;
    var t := Drop(s, p, n, i);
    DropRoots(s, p, n, i);
    DropKeys(s, p, n, i);
    LinkedRoot(m, s, {});
    forall x | x in t.par ensures NodeOk(m2, t, x, if p == s.root then {} else {p}) {
      DropNode(m, m1, m2, s, p, n, i, x);
    }
    LinkedFrom(m2, t, if p == s.root then {} else {p});
  }
}
