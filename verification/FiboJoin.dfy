/**
  Consolidation links one root under another of the same degree: its pointer updates, and
  that they lay out the linked shape.
*/
module FiboJoin {
  import opened Collections
  import opened FiboShape
  import opened FiboOps
  import opened FiboLinks
  import opened FiboMoves

  /** Two different roots; `lose` is the i-th of the list. */
  ghost predicate TwoRoots(s: Shape<Node>, win: Node, lose: Node, i: nat) {
    && Tree(s) && win in s.par && lose in s.par && win != lose && win in s.kids && lose in s.kids
    && win in s.rank && lose in s.rank && s.root in s.kids && s.root !in s.par
    && s.par[win] == s.root && s.par[lose] == s.root && i < |s.kids[s.root]| && s.kids[s.root][i] == lose
  }

  /** The old root leaves the root list and gets its new parent and a cleared mark. */
  ghost function AfterDemote(m: Mem, win: Node, lose: Node): (m': Mem)
    requires lose in m && m[lose].prev != null && m[lose].next != null && m[lose].prev in m && m[lose].next in m
    ensures m'.Keys == m.Keys
  {
    var m1 := AfterUnlink(m, lose);
    m1[lose := m1[lose].(word := m1[lose].word - m1[lose].word % 2, parent := win)]
  }

  /** The remaining root gets a further child. */
  ghost function AfterAdopt(m: Mem, win: Node, lose: Node): (m': Mem)
    requires win in m && lose in m && win != lose
    requires m[win].child != null ==>
               m[win].child in m && m[win].child != win && m[m[win].child].next != null && m[m[win].child].next in m
    ensures m'.Keys == m.Keys
  {
    if m[win].child != null then
      AfterLink(m[win := m[win].(word := m[win].word + 2)], m[win].child, lose)
    else
      m[win := m[win].(word := 2, child := lose)][lose := m[lose].(prev := lose, next := lose)]
  }

  ghost predicate JoinedCells(m: Mem, m': Mem, s: Shape<Node>, win: Node, lose: Node, i: nat)
    requires TwoRoots(s, win, lose, i)
  {
    var t := Link(s, win, lose, i);
    && m'.Keys == m.Keys && win in m && lose in m
    && m'[lose] == m[lose].(word := m[lose].word - m[lose].word % 2, parent := win,
                            next := m'[lose].next, prev := m'[lose].prev)
    && m'[win] == m[win].(word := Word(t, win), child := t.kids[win][0], next := m'[win].next, prev := m'[win].prev)
    && (forall x :: x in m && x != win && x != lose ==> m'[x] == m[x].(next := m'[x].next, prev := m'[x].prev))
    && (forall x :: x in m && x !in RootRing(s) && x !in s.kids[win] ==> m'[x] == m[x])
  }

  ghost predicate Joined(m: Mem, m': Mem, s: Shape<Node>, win: Node, lose: Node, i: nat)
    requires TwoRoots(s, win, lose, i)
  {
    && JoinedCells(m, m', s, win, lose, i)
    && Ring(m', Without(RootRing(s), i + 1)) && Ring(m', InsertSecond(s.kids[win], lose))
  }

  lemma JoinRings(m: Mem, s: Shape<Node>, win: Node, lose: Node, i: nat)
    requires Linked(m, s, {}) && TwoRoots(s, win, lose, i)
    ensures NoDup(s.kids[win]) && Ring(m, s.kids[win]) && NoDup(RootRing(s)) && Ring(m, RootRing(s))
    ensures RootRing(s)[i + 1] == lose && win in RootRing(s) && lose in RootRing(s)
    ensures forall x :: x in s.kids[win] ==> x !in RootRing(s) && x in m && x != win && x != lose
    ensures win in m && lose in m && m[win].child == First(s.kids[win]) && m[win].word == Word(s, win)
    ensures m[lose].word == Word(s, lose)
  {
    LinkedRoot(m, s, {});
    RootRingNoDup(s);
    RingsApart(s, win, s.root);
    RingOfTree(s, s.root);
    RingOfTree(s, win);
    assert NodeOk(m, s, win, {}) && NodeOk(m, s, lose, {});
  }

  lemma DemoteMoves(m: Mem, s: Shape<Node>, win: Node, lose: Node, i: nat)
    requires Linked(m, s, {}) && TwoRoots(s, win, lose, i)
    ensures lose in m && m[lose].prev != null && m[lose].next != null && m[lose].prev in m && m[lose].next in m
    ensures var m2 := AfterDemote(m, win, lose);
            && Ring(m2, Without(RootRing(s), i + 1)) && Ring(m2, s.kids[win])
            && m2[lose] == m[lose].(word := m[lose].word - m[lose].word % 2, parent := win,
                                    next := m2[lose].next, prev := m2[lose].prev)
            && (forall x :: x in m && x != lose ==> m2[x] == m[x].(next := m2[x].next, prev := m2[x].prev))
            && (forall x :: x in m && x !in RootRing(s) ==> m2[x] == m[x])
  {
    JoinRings(m, s, win, lose, i);
    hide Tree, NoDup, Ring, AfterUnlink, Linked, RootRing;
    var rr := RootRing(s);
    UnlinkRing(m, rr, i + 1);
    var m1, m2 := AfterUnlink(m, lose), AfterDemote(m, win, lose);
    RingKept(m, m2, s.kids[win]);
    RingKept(m1, m2, Without(rr, i + 1));
  }

  lemma AdoptMoves(m: Mem, s: Shape<Node>, win: Node, lose: Node, i: nat)
    requires Linked(m, s, {}) && TwoRoots(s, win, lose, i)
    ensures lose in m && m[lose].prev != null && m[lose].next != null && m[lose].prev in m && m[lose].next in m
    ensures var m2 := AfterDemote(m, win, lose);
            && win in m2 && (m2[win].child != null ==>
                 m2[win].child in m2 && m2[win].child != win && m2[m2[win].child].next != null
                 && m2[m2[win].child].next in m2)
            && Joined(m, AfterAdopt(m2, win, lose), s, win, lose, i)
  {
    JoinRings(m, s, win, lose, i);
    DemoteMoves(m, s, win, lose, i);
    var rr, ks := RootRing(s), s.kids[win];
    DeleteMembers(rr, i + 1);
    LinkWord(s, win, lose, i);
    hide Tree, NoDup, Linked, RootRing, AfterDemote, AfterAdopt, AfterLink, Ring, Link, Word;
    var m2 := AfterDemote(m, win, lose);
    if ks == [] {
      AdoptFirst(m2, rr, win, lose, i);
    } else {
      AdoptNext(m2, rr, ks, win, lose, i);
    }
  }

  lemma LinkWord(s: Shape<Node>, win: Node, lose: Node, i: nat)
    requires TwoRoots(s, win, lose, i)
    ensures var t := Link(s, win, lose, i); win in t.kids && t.kids[win] == InsertSecond(s.kids[win], lose)
    ensures var t := Link(s, win, lose, i); Word(t, win) == if s.kids[win] == [] then 2 else Word(s, win) + 2
  {
    hide Tree;
  }

  lemma AdoptFirst(m: Mem, rr: seq<Node>, win: Node, lose: Node, i: nat)
    requires win in m && lose in m && win != lose && m[win].child == null && i + 1 < |rr| && Ring(m, Without(rr, i + 1))
    requires lose !in Without(rr, i + 1)
    ensures var m' := AfterAdopt(m, win, lose);
            && Ring(m', Without(rr, i + 1)) && Ring(m', [lose])
            && m'[lose] == m[lose].(next := m'[lose].next, prev := m'[lose].prev)
            && m'[win] == m[win].(word := 2, child := lose)
            && (forall x :: x in m && x != lose && x != win ==> m'[x] == m[x])
  {
    RingKept(m, AfterAdopt(m, win, lose), Without(rr, i + 1));
    assert Hop(AfterAdopt(m, win, lose), [lose], 0);
  }

  lemma AdoptNext(m: Mem, rr: seq<Node>, ks: seq<Node>, win: Node, lose: Node, i: nat)
    requires win in m && lose in m && win != lose && ks != [] && NoDup(ks) && Ring(m, ks) && m[win].child == ks[0]
    requires i + 1 < |rr| && Ring(m, Without(rr, i + 1))
    requires forall x :: x in Without(rr, i + 1) ==> x != lose && x !in ks
    requires win !in ks && lose !in ks
    ensures m[win].child in m && m[win].child != win && m[m[win].child].next != null && m[m[win].child].next in m
    ensures var m' := AfterAdopt(m, win, lose);
            && Ring(m', Without(rr, i + 1)) && Ring(m', InsertSecond(ks, lose))
            && (forall x :: x in m && x != win ==> m'[x] == m[x].(next := m'[x].next, prev := m'[x].prev))
            && m'[win] == m[win].(word := m[win].word + 2)
            && (forall x :: x in m && x != lose && x != win && x !in ks ==> m'[x] == m[x])
  {
    assert Hop(m, ks, 0) && ks[0] in ks;
    var m1 := m[win := m[win].(word := m[win].word + 2)];
    hide Ring, NoDup, AfterLink, InsertSecond;
    RingKept(m, m1, ks);
    LinkRing(m1, ks, lose);
    RingKept(m, AfterLink(m1, ks[0], lose), Without(rr, i + 1));
  }

  lemma JoinFields(s: Shape<Node>, win: Node, lose: Node, i: nat, x: Node, cell: Cell, cell': Cell)
    requires TwoRoots(s, win, lose, i) && x in s.par && x in s.kids && Fields(cell, s, x, {})
    requires x == lose ==>
               cell' == cell.(word := cell.word - cell.word % 2, parent := win, next := cell'.next, prev := cell'.prev)
    requires x == win ==>
               cell' == cell.(word := Word(Link(s, win, lose, i), win), child := InsertSecond(s.kids[win], lose)[0],
                              next := cell'.next, prev := cell'.prev)
    requires x != win && x != lose ==> cell' == cell.(next := cell'.next, prev := cell'.prev)
    ensures Fields(cell', Link(s, win, lose, i), x, {})
  {
    hide Tree;
  }

  lemma JoinNode(m: Mem, m': Mem, s: Shape<Node>, win: Node, lose: Node, i: nat, x: Node)
    requires Linked(m, s, {}) && TwoRoots(s, win, lose, i) && Joined(m, m', s, win, lose, i) && x in s.par
    ensures NodeOk(m', Link(s, win, lose, i), x, {})
  {
    assert NodeOk(m, s, x, {});
    RootRingNoDup(s);
    RingsApart(s, x, s.root);
    if x != win { RingsApart(s, x, win); }
    hide Tree, NoDup, Ring, Linked, Fields;
    JoinFields(s, win, lose, i, x, m[x], m'[x]);
    if x != win {
      RingKept(m, m', s.kids[x]);
    }
  }

  lemma JoinedNodes(m: Mem, m': Mem, s: Shape<Node>, win: Node, lose: Node, i: nat)
    requires Linked(m, s, {}) && TwoRoots(s, win, lose, i) && JoinedCells(m, m', s, win, lose, i)
    ensures Link(s, win, lose, i).kids.Keys == s.kids.Keys <= m'.Keys
  {
    hide Tree, Word, RootRing, NodeOk, Ring;
  }

  lemma JoinLinked(m: Mem, m': Mem, s: Shape<Node>, win: Node, lose: Node, i: nat)
    requires Linked(m, s, {}) && TwoRoots(s, win, lose, i) && Joined(m, m', s, win, lose, i)
    requires Tree(Link(s, win, lose, i))
    ensures Linked(m', Link(s, win, lose, i), {})
  {
    hide Tree, NoDup, Ring, Linked, NodeOk, JoinedCells, InsertSecond, Word;
    var t := Link(s, win, lose, i);
    LinkedRoot(m, s, {});
    assert RootRing(t) == Without(RootRing(s), i + 1);
    JoinedNodes(m, m', s, win, lose, i);
    forall x | x in t.par ensures NodeOk(m', t, x, {}) {
      JoinNode(m, m', s, win, lose, i, x);
    }
    LinkedFrom(m', t, {});
  }
}
