/**
  The Fibonacci heap of fibo.h and fibo.c: addition, deletion with its cascade of cuts, and
  the lazy consolidation that finds the best element.
*/
module FiboHeap {
  import opened Collections
  import opened FiboShape
  import opened FiboOps
  import opened FiboLinks
  import opened FiboMoves
  import opened FiboJoin

  /** A shape stays laid out when memory is extended. */
  lemma LinkedExtend(m: Mem, m': Mem, s: Shape<Node>, lag: set<Node>)
    requires Linked(m, s, lag) && forall x :: x in m ==> x in m' && m'[x] == m[x]
    ensures Linked(m', s, lag)
  {
    RingKept(m, m', RootRing(s));
    forall x | x in s.par ensures NodeOk(m', s, x, lag) {
      assert NodeOk(m, s, x, lag);
      RingKept(m, m', s.kids[x]);
    }
  }

  /** Cells of nodes outside the shape do not matter. */
  lemma LinkedShrink(m: Mem, m': Mem, s: Shape<Node>, lag: set<Node>)
    requires Linked(m, s, lag) && s.kids.Keys <= m'.Keys && forall x :: x in s.kids && x in m ==> m'[x] == m[x]
    ensures Linked(m', s, lag)
  {
    RootRingNoDup(s);
    RingKept(m, m', RootRing(s));
    forall x | x in s.par ensures NodeOk(m', s, x, lag) {
      assert NodeOk(m, s, x, lag);
      KidsBelow(s, x);
      RingKept(m, m', s.kids[x]);
    }
  }

  lemma SnapExtend(a: set<Node>, b: set<Node>)
    requires a <= b
    ensures forall x :: x in Snap(a) ==> x in Snap(b) && Snap(b)[x] == Snap(a)[x]
  {
  }

  lemma SnapAt(ns: set<Node>, x: Node)
    requires x in ns
    ensures x in Snap(ns) && Snap(ns)[x] == Cell(x.parent, x.child, x.prev, x.next, x.deflval)
  {
  }

  /** No child has a larger key than its parent; the dummy root has none. */
  ghost predicate Ordered(s: Shape<Node>)
    requires Tree(s)
    reads s.kids.Keys`key
  {
    forall c :: c in s.par && s.par[c] != s.root ==> s.par[c].key >= c.key
  }

  /**
    The nodes' pointers and words are those of the shape, which is balanced and heap-ordered, up
    to the nodes in `lag`.
  */
  ghost predicate LaidOut(s: Shape<Node>, lag: set<Node>)
    reads s.kids.Keys`parent, s.kids.Keys`child, s.kids.Keys`prev, s.kids.Keys`next, s.kids.Keys`deflval,
          s.kids.Keys`key
  {
    Tree(s) && Balanced(s, lag) && Linked(Snap(s.kids.Keys), s, lag) && Ordered(s)
  }

  /** Every node that has a parent in t has the same one in s. */
  ghost predicate FewerParents(s: Shape<Node>, t: Shape<Node>) {
    t.root == s.root && forall c :: c in t.par && t.par[c] != t.root ==> c in s.par && s.par[c] == t.par[c]
  }

  lemma OrderedKept(s: Shape<Node>, t: Shape<Node>)
    requires Tree(s) && Tree(t) && FewerParents(s, t) && Ordered(s)
    ensures Ordered(t)
  {
  }

  lemma LaidOutNodes(s: Shape<Node>)
    requires LaidOut(s, {})
    ensures s.par.Keys == s.kids.Keys - {s.root} && s.root in s.kids
  {
  }

  class FiboTree {
    const rootdat: Node
    const degrtab: array<Node?>
    ghost var s: Shape<Node>

    ghost predicate Laid(lag: set<Node>)
      reads this, s.kids.Keys`parent, s.kids.Keys`child, s.kids.Keys`prev, s.kids.Keys`next, s.kids.Keys`deflval,
            s.kids.Keys`key
    {
      s.root == rootdat && LaidOut(s, lag)
    }

    ghost predicate Valid()
      reads this, degrtab, s.kids.Keys`parent, s.kids.Keys`child, s.kids.Keys`prev, s.kids.Keys`next,
            s.kids.Keys`deflval, s.kids.Keys`key
    {
      Laid({}) && degrtab.Length == 32 && forall d :: 0 <= d < 32 ==> degrtab[d] == null
    }

    /** tm_fiboTreeInit */
    constructor ()
      ensures Valid() && fresh(rootdat) && fresh(degrtab)
      ensures s.kids == map[rootdat := []] && s.par == map[] && s.marked == {}
    {
      var r := new Node(-1, 0);
      rootdat := r;
      degrtab := new Node?[32](_ => null);
      s := Shape<Node>.Shape(r, map[r := []], map[], {}, map[r := 0]);
      new;
      rootdat.prev := rootdat;
      rootdat.next := rootdat;
      assert Hop(Snap(s.kids.Keys), RootRing(s), 0);
    }

    /** fiboTreeAddMacro on the pointers. */
    method AddPointers(n: Node, ghost ns: set<Node>)
      requires n in ns && rootdat in ns && n != rootdat && rootdat.next != null && rootdat.next in ns
      modifies ns`next, ns`prev, n`parent, n`child, n`deflval
      ensures Snap(ns) == AfterAdd(old(Snap(ns)), rootdat, n)
    {
      hide AfterLink;
      n.parent := null;
      n.child := null;
      n.deflval := 0;
      ghost var m := old(Snap(ns));
      assert Snap(ns) == m[n := m[n].(parent := null, child := null, word := 0)];
      LinkAfter(rootdat, n, ns);
    }

    /** fiboTreeAddMacro */
    method Add(n: Node)
      requires Valid() && n !in s.kids
      modifies this`s, s.kids.Keys`next, s.kids.Keys`prev, n`next, n`prev, n`parent, n`child, n`deflval
      ensures Valid() && s == AddRoot(old(s), n)
    {
      hide Tree, Balanced, Linked, AfterAdd, AddRoot, Snap, Ordered, FewerParents;
      LinkedRoot(Snap(s.kids.Keys), s, {});
      ghost var ns := s.kids.Keys + {n};
      SnapExtend(s.kids.Keys, ns);
      SnapAt(ns, rootdat);
      ghost var m, t := Snap(ns), AddRoot(s, n);
      AddGood(Snap(s.kids.Keys), m, s, n);
      AddPointers(n, ns);
      OrderedKept(s, t);
      s := t;
    }

    /** One round of fiboTreeCutChildren: a child becomes a root. */
    method FreePointers(c: Node, ghost ns: set<Node>)
      requires c in ns && rootdat in ns && c != rootdat && rootdat.next != null && rootdat.next in ns
      modifies ns`next, ns`prev, c`parent
      ensures Snap(ns) == AfterFree(old(Snap(ns)), rootdat, c)
    {
      hide AfterLink;
      c.parent := null;
      ghost var m := old(Snap(ns));
      assert Snap(ns) == m[c := m[c].(parent := null)];
      LinkAfter(rootdat, c, ns);
    }

    /** fiboTreeCutChildren: the children ks of n become roots, in reverse order, before the other roots. */
    method CutChildren(n: Node, ghost ns: set<Node>, ghost ks: seq<Node>, ghost base: seq<Node>)
      requires n in ns && n.child == First(ks) && Ring(Snap(ns), ks)
      requires NoDup(ks) && NoDup(base) && rootdat !in base && rootdat !in ks
      requires forall x :: x in ks ==> x !in base && x in ns
      requires Freed(Snap(ns), Snap(ns), rootdat, ks, base, 0)
      modifies ns`next, ns`prev, ns`parent
      ensures Freed(old(Snap(ns)), Snap(ns), rootdat, ks, base, |ks|)
    {
      hide Ring, NoDup, FreedCells, FreedRing, AfterFree;
      var c := n.child;
      if c != null {
        var cend := c;
        ghost var m1 := Snap(ns);
        ghost var j := 0;
        while true
          invariant j < |ks| && c == ks[j] && cend == ks[0] && Snap(ns).Keys == ns
          invariant Freed(m1, Snap(ns), rootdat, ks, base, j)
          decreases |ks| - j
        {
          assert c in ks;
          FreedAt(m1, Snap(ns), rootdat, ks, base, j);
          FreedStep(m1, Snap(ns), rootdat, ks, base, j);
          var next := c.next;
          FreePointers(c, ns);
          c := next;
          j := j + 1;
          if c == cend {
            if j < |ks| { RestartsAtEnd(ks, j); }
            break;
          }
        }
      }
    }

    /** The head of the cascade on the pointers. */
    method SettlePointers(pare: Node, rght: Node, ghost ns: set<Node>) returns (goOn: bool, gdpa: Node?)
      requires pare in ns
      modifies pare`deflval, pare`child
      ensures var w := old(pare.deflval) - 2;
              && goOn == (w % 2 != 0 && gdpa != null) && gdpa == old(pare.parent)
              && Snap(ns) == old(Snap(ns))[pare := old(Snap(ns))[pare].(word := if w % 2 == 0 then w + 1 else w,
                                                                        child := if w <= 1 then null else rght)]
    {
      var deflval := pare.deflval - 2;
      pare.deflval := if deflval % 2 == 0 then deflval + 1 else deflval;
      gdpa := pare.parent;
      pare.child := if deflval <= 1 then null else rght;
      goOn := !(deflval % 2 == 0 || gdpa == null);
    }

    /** The word and the first child of a node that lost a child are brought up to date. */
    method SettleWord(pare: Node, rght: Node) returns (goOn: bool, gdpa: Node?)
      requires Laid({pare}) && pare in s.par && pare in s.kids && (s.kids[pare] != [] ==> rght == s.kids[pare][0])
      modifies pare`deflval, pare`child
      ensures Snap(s.kids.Keys) == AfterSettle(old(Snap(s.kids.Keys)), s, pare) && pare in old(Snap(s.kids.Keys))
      ensures goOn <==> pare in s.marked && s.par[pare] != rootdat
      ensures goOn ==> gdpa == s.par[pare]
    {
      hide Tree, Balanced, Linked, Snap, Mark, Word, First, AfterSettle, Ordered;
      ghost var ns := s.kids.Keys;
      ghost var m := Snap(ns);
      SettleGood(m, s, pare);
      SettledCell(s, pare, rght, m[pare].word - 2);
      SettledMem(m, s, pare);
      SnapAt(ns, pare);
      goOn, gdpa := SettlePointers(pare, rght, ns);
    }

    /** The head of the cascade: a node that lost a child takes note of it, and is marked. */
    method Settle(pare: Node, rght: Node) returns (goOn: bool, gdpa: Node?)
      requires Laid({pare}) && pare in s.par && pare in s.kids && (s.kids[pare] != [] ==> rght == s.kids[pare][0])
      modifies this`s, pare`deflval, pare`child
      ensures s == Mark(old(s), pare) && s.kids == old(s.kids)
      ensures !goOn ==> Laid({})
      ensures goOn ==> s == old(s) && Linked(Snap(s.kids.Keys), s, {}) && Ordered(s)
      ensures goOn ==> gdpa == s.par[pare] && gdpa != rootdat
    {
      hide Tree, Balanced, Linked, Snap, Mark, AfterSettle, Ordered;
      ghost var m := Snap(s.kids.Keys);
      SettleGood(m, s, pare);
      goOn, gdpa := SettleWord(pare, rght);
      SettleLaid(m, s, pare);
      hide LaidOut;
      s := Mark(s, pare);
    }

    /** The rest of a round of the cascade on the pointers. */
    method CutPointers(c: Node, ghost ns: set<Node>) returns (rght: Node)
      requires c in ns && rootdat in ns && c != rootdat && c.prev != null && c.next != null && c.prev in ns
      requires c.next in ns
      requires AfterUnlink(Snap(ns), c)[rootdat].next != null && AfterUnlink(Snap(ns), c)[rootdat].next in ns
      modifies ns`next, ns`prev, c`parent
      ensures Snap(ns) == AfterCut(old(Snap(ns)), rootdat, c) && rght == old(c.next)
    {
      hide AfterLink, AfterUnlink;
      rght := c.next;
      ghost var m := Snap(ns);
      Unlink(c, ns);
      ghost var m2 := Snap(ns);
      c.parent := null;
      assert Snap(ns) == m2[c := m2[c].(parent := null)];
      LinkAfter(rootdat, c, ns);
    }

    /** A marked node that lost a child becomes a root; its parent has now lost one. */
    method CutUp(pare: Node, gdpa: Node) returns (rght: Node)
      requires s.root == rootdat && Tree(s) && Balanced(s, {pare}) && Linked(Snap(s.kids.Keys), s, {}) && Ordered(s)
      requires pare in s.par && s.par[pare] == gdpa && gdpa != rootdat
      modifies this`s, s.kids.Keys`next, s.kids.Keys`prev, pare`parent
      ensures Laid({gdpa}) && gdpa in s.par && gdpa in s.kids && (s.kids[gdpa] != [] ==> rght == s.kids[gdpa][0])
      ensures s.kids.Keys == old(s.kids.Keys) && s.par.Keys == old(s.par.Keys) && s.rank == old(s.rank)
    {
      hide Tree, Balanced, Linked, Snap, AfterCut, AfterUnlink, Cut, Ordered, LaidOut, Moved;
      ghost var ns := s.kids.Keys;
      ghost var m := Snap(ns);
      ghost var i := CutPlace(s, gdpa, pare);
      CutMem(m, s, gdpa, pare, i);
      SnapAt(ns, pare);
      rght := CutPointers(pare, ns);
      CutLaid(m, s, gdpa, pare, i);
      s := Cut(s, gdpa, pare, i);
    }

    /** The loop of fiboTreeDelMacro: cuts go up until a node that was not marked, or a root. */
    method Cascade(first: Node, right: Node)
      requires Laid({first}) && first in s.par && first in s.kids && (s.kids[first] != [] ==> right == s.kids[first][0])
      modifies this`s, s.kids.Keys`next, s.kids.Keys`prev, s.kids.Keys`parent, s.kids.Keys`child, s.kids.Keys`deflval
      ensures Laid({}) && s.kids.Keys == old(s.kids.Keys)
    {
      hide Tree, Balanced, Linked, Snap, Cut, Ordered, Above, Mark;
      ghost var ns := s.kids.Keys;
      var pare: Node, rght: Node := first, right;
      while true
        invariant Laid({pare}) && pare in s.par && pare in s.kids && (s.kids[pare] != [] ==> rght == s.kids[pare][0])
        invariant s.kids.Keys == ns
        decreases |Above(s, pare)|
      {
        ghost var s0 := s;
        var goOn, gdpa := Settle(pare, rght);
        if !goOn {
          return;
        }
        AboveFalls(s, pare);
        rght := CutUp(pare, gdpa);
        SameAbove(s0, s, gdpa);
        pare := gdpa;
      }
    }

    /** The first half of fiboTreeDelMacro: the node leaves its ring and its children become roots. */
    method Detach(n: Node, ghost p: Node, ghost i: nat) returns (ghost m1: Mem)
      requires s.root == rootdat && Child(s, p, n, i) && Linked(Snap(s.kids.Keys), s, {})
      modifies s.kids.Keys`next, s.kids.Keys`prev, s.kids.Keys`parent
      ensures DroppedVia(old(Snap(s.kids.Keys)), m1, Snap(s.kids.Keys), s, p, n, i)
      ensures n.next != null && (p != rootdat ==> n.next == s.kids[p][Succ(i, |s.kids[p]|)])
    {
      hide Tree, Linked, Ring, NoDup, FreedCells, FreedRing, AfterUnlink, OnlyLinks, Snap;
      ghost var ns := s.kids.Keys;
      ghost var m, ks, base := Snap(ns), s.kids[n], Base(s, p, i);
      DropStart(m, s, p, n, i);
      DetachFacts(m, s, p, n, i);
      SnapAt(ns, n);
      Unlink(n, ns);
      m1 := Snap(ns);
      SnapAt(ns, n);
      CutChildren(n, ns, ks, base);
      assert DroppedVia(m, m1, Snap(ns), s, p, n, i);
      FreedKeeps(m1, Snap(ns), rootdat, ks, base, n);
      SnapAt(ns, n);
    }

    method Leave(n: Node, ghost p: Node, ghost i: nat)
      requires Laid({}) && Child(s, p, n, i)
      modifies this`s, s.kids.Keys`next, s.kids.Keys`prev, s.kids.Keys`parent
      ensures s == Drop(old(s), p, n, i) && s.kids.Keys == old(s.kids.Keys) - {n}
      ensures Laid(if p == rootdat then {} else {p}) && n.next != null
      ensures p != rootdat ==> p in s.par && p in s.kids && (s.kids[p] != [] ==> n.next == s.kids[p][0])
    {
      hide Tree, Balanced, Linked, Snap, Drop, DroppedVia, Ordered, Succ;
      ghost var m := Snap(s.kids.Keys);
      ghost var m1 := Detach(n, p, i);
      hide LaidOut;
      DropLaid(m, m1, s, p, n, i);
      s := Drop(s, p, n, i);
    }

    /** tm_fiboTreeDel */
    method Del(n: Node)
      requires Valid() && n in s.par
      modifies this`s, s.kids.Keys`next, s.kids.Keys`prev, s.kids.Keys`parent, s.kids.Keys`child, s.kids.Keys`deflval
      ensures Valid() && s.kids.Keys == old(s.kids.Keys) - {n}
    {
      hide Tree, Balanced, Linked, Snap, Drop, Ordered;
      ghost var p, i := DelPlace(s, n);
      ParentField(Snap(s.kids.Keys), s, n);
      SnapAt(s.kids.Keys, n);
      var pare := n.parent;
      Leave(n, p, i);
      if pare == null {
        return;
      }
      var rght := n.next;
      Cascade(pare, rght);
    }

    /** Linking one root under another on the pointers. */
    method DemotePointers(win: Node, lose: Node, ghost ns: set<Node>)
      requires lose in ns && lose.prev != null && lose.next != null && lose.prev in ns && lose.next in ns
      modifies ns`next, ns`prev, lose`deflval, lose`parent
      ensures Snap(ns) == AfterDemote(old(Snap(ns)), win, lose)
    {
      hide AfterUnlink;
      Unlink(lose, ns);
      ghost var m1 := Snap(ns);
      lose.deflval := lose.deflval - lose.deflval % 2;
      lose.parent := win;
      assert Snap(ns) == m1[lose := m1[lose].(word := m1[lose].word - m1[lose].word % 2, parent := win)];
    }

    method AdoptPointers(win: Node, lose: Node, ghost ns: set<Node>)
      requires win in ns && lose in ns && win != lose
      requires win.child != null ==>
                 win.child in ns && win.child != win && win.child.next != null && win.child.next in ns
      modifies ns`next, ns`prev, win`deflval, win`child
      ensures Snap(ns) == AfterAdopt(old(Snap(ns)), win, lose)
    {
      hide AfterLink;
      ghost var m := Snap(ns);
      var chld := win.child;
      if chld != null {
        win.deflval := win.deflval + 2;
        assert Snap(ns) == m[win := m[win].(word := m[win].word + 2)];
        LinkAfter(chld, lose, ns);
      } else {
        win.deflval := 2;
        win.child := lose;
        lose.prev := lose;
        lose.next := lose;
      }
    }

    /** Two roots of one degree become one: the loser is a child of the winner. */
    method Join(win: Node, lose: Node, ghost i: nat)
      requires Laid({}) && TwoRoots(s, win, lose, i) && |s.kids[win]| == |s.kids[lose]| && win.key >= lose.key
      modifies this`s, s.kids.Keys`next, s.kids.Keys`prev, s.kids.Keys`parent, s.kids.Keys`child, s.kids.Keys`deflval
      ensures s == Link(old(s), win, lose, i) && s.kids.Keys == old(s.kids.Keys) && Laid({})
    {
      hide Tree, Balanced, Linked, Snap, Link, AfterDemote, AfterAdopt, Joined, Ordered;
      ghost var ns := s.kids.Keys;
      ghost var m := Snap(ns);
      AdoptMoves(m, s, win, lose, i);
      JoinGood(m, s, win, lose, i);
      SnapAt(ns, lose);
      DemotePointers(win, lose, ns);
      SnapAt(ns, win);
      if win.child != null { SnapAt(ns, win.child); }
      AdoptPointers(win, lose, ns);
      OrderedJoin(s, win, lose, i);
      s := Link(s, win, lose, i);
    }

    /**
      In the first loop of fiboTreeConsolidate, `done` are the roots seen, all but rootptr in the
      table, and `rest` the others.
    */
    ghost predicate Merging(done: seq<Node>, rest: seq<Node>, rootptr: Node, nextptr: Node?, degrmax: nat)
      reads this, degrtab, s.kids.Keys`parent, s.kids.Keys`child, s.kids.Keys`prev, s.kids.Keys`next,
            s.kids.Keys`deflval, s.kids.Keys`key
    {
      && Laid({}) && |s.par| < FIB34 && rootdat in s.kids && s.kids[rootdat] == done + rest
      && (rootptr == rootdat ==> rest == [])
      && (rootptr != rootdat ==> rootptr in done && nextptr == if rest == [] then rootdat else rest[0])
      && degrmax < 32 && degrtab.Length == 32 && Tabled(degrtab[..], s, done, rootptr)
      && (forall d :: degrmax < d < 32 ==> degrtab[d] == null)
    }

    /** A root whose degree is new goes into the table. */
    method Park(rootptr: Node, nextptr: Node, degrval: nat, max: nat, ghost done: seq<Node>, ghost rest: seq<Node>)
      returns (rootptr': Node, nextptr': Node?, degrmax: nat, ghost done': seq<Node>, ghost rest': seq<Node>)
      requires Merging(done, rest, rootptr, nextptr, max) && rootptr != rootdat
      requires degrval < 32 && rootptr in s.kids && degrval == |s.kids[rootptr]| && degrtab[degrval] == null
      modifies degrtab
      ensures Merging(done', rest', rootptr', nextptr', degrmax)
      ensures |done'| + 2 * |rest'| + (if rootptr' == rootdat then 0 else 1) < |done| + 2 * |rest| + 1
    {
      hide Tree, Balanced, Linked, Snap, Ordered, Tabled;
      degrmax := if degrval > max then degrval else max;
      PutInTable(degrtab[..], s, done, rest, rootptr, degrval);
      NextRoot(Snap(s.kids.Keys), s, done, rest);
      ghost var tab := degrtab[..];
      degrtab[degrval] := rootptr;
      assert degrtab[..] == tab[degrval := rootptr];
      rootptr' := nextptr;
      SnapAt(s.kids.Keys, rootptr');
      nextptr' := rootptr'.next;
      if rest == [] {
        done', rest' := done, rest;
      } else {
        done', rest' := done + [rest[0]], rest[1..];
        assert done' + rest' == done + rest;
      }
    }

    /** A root that meets another of its degree: the one with the smaller key becomes a child of the other. */
    method Merge(cur: Node, nextptr: Node, degrval: nat, max: nat, ghost done: seq<Node>, ghost rest: seq<Node>)
      returns (rootptr: Node, ghost done': seq<Node>)
      requires Merging(done, rest, cur, nextptr, max) && cur != rootdat
      requires degrval < 32 && cur in s.kids && degrval == |s.kids[cur]| && degrtab[degrval] != null
      modifies this`s, degrtab, s.kids.Keys`next, s.kids.Keys`prev, s.kids.Keys`parent, s.kids.Keys`child,
               s.kids.Keys`deflval
      ensures Merging(done', rest, rootptr, nextptr, max) && rootptr != rootdat && |done'| < |done|
      ensures s.kids.Keys == old(s.kids.Keys)
    {
      hide Tree, Balanced, Linked, Snap, Ordered, Tabled, Link, TwoRoots, Without;
      assert Tree(s);
      hide LaidOut;
      rootptr := cur;
      var oldrptr := degrtab[degrval];
      TableEntry(degrtab[..], s, done, rest, cur, degrval);
      if oldrptr.key > rootptr.key {
        oldrptr, rootptr := rootptr, oldrptr;
      }
      ghost var tab := degrtab[..];
      ghost var i := MergeTable(tab, s, done, rest, cur, rootptr, oldrptr, degrval);
      degrtab[degrval] := null;
      assert degrtab[..] == tab[degrval := null];
      Join(rootptr, oldrptr, i);
      done' := Without(done, i);
    }

    /** The first loop of fiboTreeConsolidate: roots of equal degree are joined until no two are left. */
    method MergeRoots() returns (degrmax: nat)
      requires Valid() && |s.par| < FIB34
      modifies this`s, degrtab, s.kids.Keys`next, s.kids.Keys`prev, s.kids.Keys`parent, s.kids.Keys`child,
               s.kids.Keys`deflval
      ensures Laid({}) && s.kids.Keys == old(s.kids.Keys) && rootdat in s.kids
      ensures degrmax < 32 && degrtab.Length == 32 && Tabled(degrtab[..], s, s.kids[rootdat], rootdat)
      ensures forall d :: degrmax < d < 32 ==> degrtab[d] == null
    {
      hide Tree, Balanced, Linked, Snap, Ordered, Tabled;
      ghost var ns := s.kids.Keys;
      LinkedRoot(Snap(ns), s, {});
      SnapAt(ns, rootdat);
      var rootptr: Node := rootdat.next;
      ghost var done, rest := StartLists(Snap(ns), s);
      SnapAt(ns, rootptr);
      var nextptr := rootptr.next;
      degrmax := 0;
      NothingTabled(degrtab[..], s, done, rootptr);
      while rootptr != rootdat
        invariant Merging(done, rest, rootptr, nextptr, degrmax) && s.kids.Keys == ns
        decreases |done| + 2 * |rest| + (if rootptr == rootdat then 0 else 1)
      {
        RootFacts(Snap(ns), s, done, rest, rootptr);
        SnapAt(ns, rootptr);
        var degrval := rootptr.deflval / 2;
        if degrtab[degrval] == null {
          rootptr, nextptr, degrmax, done, rest := Park(rootptr, nextptr, degrval, degrmax, done, rest);
        } else {
          rootptr, done := Merge(rootptr, nextptr, degrval, degrmax, done, rest);
        }
      }
      assert done + rest == done;
    }

    /** The last two loops of fiboTreeConsolidate: the best root in the table, which is emptied. */
    method PickBest(degrmax: nat, ghost roots: seq<Node>) returns (best: Node?)
      requires degrtab.Length == 32 && degrmax < 32 && Tabled(degrtab[..], s, roots, rootdat) && rootdat !in roots
      requires forall d :: degrmax < d < 32 ==> degrtab[d] == null
      modifies degrtab
      ensures forall d :: 0 <= d < 32 ==> degrtab[d] == null
      ensures best == null <==> roots == []
      ensures best != null ==> best in roots && forall x :: x in roots ==> x.key <= best.key
    {
      ghost var tab := degrtab[..];
      best := null;
      var degrval := 0;
      while degrval <= degrmax
        invariant degrval <= degrmax + 1
        invariant forall d :: 0 <= d < degrval ==> degrtab[d] == null && tab[d] == null
        invariant forall d :: degrval <= d < 32 ==> degrtab[d] == tab[d]
      {
        if degrtab[degrval] != null {
          best := degrtab[degrval];
          degrtab[degrval] := null;
          degrval := degrval + 1;
          break;
        }
        degrval := degrval + 1;
      }
      while degrval <= degrmax
        invariant degrval <= degrmax + 1
        invariant forall d :: 0 <= d < degrval ==> degrtab[d] == null
        invariant forall d :: degrval <= d < 32 ==> degrtab[d] == tab[d]
        invariant best == null ==> degrval == degrmax + 1 && forall d :: 0 <= d < degrval ==> tab[d] == null
        invariant best != null ==>
                    best in tab && forall d :: 0 <= d < degrval && tab[d] != null ==> tab[d].key <= best.key
      {
        if degrtab[degrval] != null {
          if degrtab[degrval].key > best.key {
            best := degrtab[degrval];
          }
          degrtab[degrval] := null;
        }
        degrval := degrval + 1;
      }
      assert forall d :: 0 <= d < 32 && tab[d] != null ==> d <= degrmax;
      assert forall x :: x in roots ==> tab[|s.kids[x]|] == x;
      if roots != [] {
        assert roots[0] in roots;
      }
    }

    /** fiboTreeConsolidate: an element of largest key, after which no two roots have the same degree. */
    method Min() returns (best: Node?)
      requires Valid() && |s.par| < FIB34
      modifies this`s, degrtab, s.kids.Keys`next, s.kids.Keys`prev, s.kids.Keys`parent, s.kids.Keys`child,
               s.kids.Keys`deflval
      ensures Valid() && s.kids.Keys == old(s.kids.Keys)
      ensures best == null <==> s.par.Keys == {}
      ensures best != null ==> best in s.par && forall x :: x in s.par ==> x.key <= best.key
      ensures OneRootPerDegree(s)
    {
      hide Tree, Balanced, Linked, Snap, Ordered, Tabled, OneRootPerDegree;
      var degrmax := MergeRoots();
      ghost var roots := s.kids[rootdat];
      RootsAreKids(s, roots);
      OnePerDegree(degrtab[..], s, roots);
      best := PickBest(degrmax, roots);
      BestOfAll(s, roots, best);
    }
  }

  lemma AddGood(m0: Mem, m: Mem, s: Shape<Node>, n: Node)
    requires Good(s) && Linked(m0, s, {}) && n !in s.kids && n in m && (forall x :: x in m0 ==> x in m && m[x] == m0[x])
    ensures s.root in s.kids && s.root != n && s.root in m && m[s.root].next != null && m[s.root].next in m
    ensures AddRoot(s, n).kids.Keys == s.kids.Keys + {n} && AddRoot(s, n).root == s.root
    ensures Good(AddRoot(s, n)) && Linked(AfterAdd(m, s.root, n), AddRoot(s, n), {}) && FewerParents(s, AddRoot(s, n))
  {
    LinkedExtend(m0, m, s, {});
    AddRootGood(s, n);
    AddLinked(m, s, n);
  }

  /** The next child to be freed still knows its successor. */
  lemma FreedAt(m1: Mem, m: Mem, root: Node, ks: seq<Node>, base: seq<Node>, j: nat)
    requires Freed(m1, m, root, ks, base, j) && j < |ks| && Ring(m1, ks)
    ensures ks[j] in m && m[ks[j]].next == ks[Succ(j, |ks|)]
  {
    assert Hop(m1, ks, j);
  }

  lemma RestartsAtEnd(ks: seq<Node>, j: nat)
    requires NoDup(ks) && 0 < j < |ks|
    ensures ks[j] != ks[0]
  {
  }

  lemma SettleGood(m: Mem, s: Shape<Node>, p: Node)
    requires Tree(s) && Balanced(s, {p}) && Linked(m, s, {p}) && p in s.par && p in s.kids
    ensures p in m && m[p].word == Word(s, p) + 2 && m[p].parent == (if s.par[p] == s.root then null else s.par[p])
    ensures Tree(Mark(s, p)) && Linked(AfterSettle(m, s, p), Mark(s, p), {})
    ensures p !in s.marked || s.par[p] == s.root ==> Balanced(Mark(s, p), {})
    ensures p in s.marked ==> Mark(s, p) == s
    ensures Mark(s, p).kids == s.kids && Mark(s, p).par == s.par && Mark(s, p).root == s.root
    ensures FewerParents(s, Mark(s, p))
  {
    assert NodeOk(m, s, p, {p});
    MarkTree(s, p);
    SettleLinked(m, s, p);
    if p !in s.marked || s.par[p] == s.root {
      MarkSettles(s, p);
    } else {
      assert s.marked + {p} == s.marked;
    }
  }

  lemma CutPlace(s: Shape<Node>, p: Node, c: Node) returns (i: nat)
    requires Tree(s) && c in s.par && s.par[c] == p && p != s.root
    ensures p in s.par && p in s.kids && s.root in s.kids && c in s.kids && c in s.rank && p in s.rank
    ensures s.rank[c] < s.rank[p]
    ensures i < |s.kids[p]| && s.kids[p][i] == c
  {
    RingOfTree(s, p);
    i :| 0 <= i < |s.kids[p]| && s.kids[p][i] == c;
  }

  lemma CutMem(m: Mem, s: Shape<Node>, p: Node, c: Node, i: nat)
    requires Linked(m, s, {}) && p in s.par && p in s.kids && i < |s.kids[p]| && s.kids[p][i] == c
    ensures c in m && s.root in m && s.root != c
    ensures m[c].prev != null && m[c].next != null && m[c].prev in m && m[c].next in m
    ensures AfterUnlink(m, c)[s.root].next != null && AfterUnlink(m, c)[s.root].next in m
    ensures m[c].next == s.kids[p][Succ(i, |s.kids[p]|)]
    ensures Moved(m, AfterCut(m, s.root, c), s.kids[p], i, RootRing(s), c)
  {
    CutRings(m, s, p);
    hide Tree, Ring, NoDup, AfterCut, AfterUnlink;
    MoveNode(m, s.kids[p], i, RootRing(s), c);
  }

  lemma CutShape(m: Mem, s: Shape<Node>, p: Node, c: Node, i: nat)
    requires Tree(s) && Balanced(s, {c}) && Linked(m, s, {}) && p in s.par && p in s.kids && i < |s.kids[p]|
    requires s.kids[p][i] == c
    requires c in s.par && s.par[c] == p && p != s.root && s.root in s.kids && c in m && s.root in m && s.root != c
    requires m[c].prev != null && m[c].next != null && m[c].prev in m && m[c].next in m
    requires AfterUnlink(m, c)[s.root].next != null && AfterUnlink(m, c)[s.root].next in m
    requires m[c].next == s.kids[p][Succ(i, |s.kids[p]|)]
    requires Moved(m, AfterCut(m, s.root, c), s.kids[p], i, RootRing(s), c)
    ensures var t := Cut(s, p, c, i);
            && t.kids.Keys == s.kids.Keys && t.par.Keys == s.par.Keys && t.rank == s.rank && t.root == s.root
            && p in t.kids && (t.kids[p] != [] ==> m[c].next == t.kids[p][0])
            && Tree(t) && Balanced(t, {p}) && Linked(AfterCut(m, s.root, c), t, {p}) && FewerParents(s, t)
  {
    hide Tree, Balanced, Linked, Moved, AfterCut, AfterUnlink;
    CutBalanced(s, p, c, i);
    CutLinked(m, AfterCut(m, s.root, c), s, p, c, i);
  }

  lemma AboveFalls(s: Shape<Node>, x: Node)
    requires Tree(s) && x in s.par && s.par[x] != s.root
    ensures s.par[x] in s.par && |Above(s, s.par[x])| < |Above(s, x)|
  {
    var p := s.par[x];
    assert p in Above(s, x) && p !in Above(s, p);
    SubsetSize(Above(s, p), Above(s, x) - {p});
  }

  lemma SameAbove(s: Shape<Node>, t: Shape<Node>, x: Node)
    requires Tree(s) && Tree(t) && x in s.par && t.par.Keys == s.par.Keys && t.rank == s.rank
    ensures x in t.par && Above(t, x) == Above(s, x)
  {
  }

  lemma DetachFacts(m: Mem, s: Shape<Node>, p: Node, n: Node, i: nat)
    requires Linked(m, s, {}) && Child(s, p, n, i)
    requires n in m && m[n].prev != null && m[n].next != null && m[n].prev in m && m[n].next in m
    requires OnlyLinks(m, AfterUnlink(m, n), OwnRing(s, p))
    ensures s.root in m && s.kids.Keys <= m.Keys && AfterUnlink(m, n)[n].child == First(s.kids[n])
    ensures Ring(AfterUnlink(m, n), s.kids[n]) && NoDup(s.kids[n]) && NoDup(Base(s, p, i))
    ensures s.root !in Base(s, p, i) && s.root !in s.kids[n] && n !in s.kids[n] && n != s.root && n !in Base(s, p, i)
    ensures forall x :: x in s.kids[n] ==> x !in Base(s, p, i) && x in m && x in s.kids
  {
    LinkedRoot(m, s, {});
    ChildFacts(m, s, p, n, i);
    BaseFacts(s, p, n, i);
    assert NodeOk(m, s, n, {});
    hide Tree, NoDup, Ring;
    RingKept(m, AfterUnlink(m, n), s.kids[n]);
  }

  lemma FreedKeeps(m1: Mem, m: Mem, root: Node, ks: seq<Node>, base: seq<Node>, n: Node)
    requires Freed(m1, m, root, ks, base, |ks|) && n in m1 && n !in ks && n != root && n !in base
    ensures n in m && m[n] == m1[n]
  {
  }

  lemma DelPlace(s: Shape<Node>, n: Node) returns (p: Node, i: nat)
    requires Tree(s) && n in s.par
    ensures Child(s, p, n, i)
  {
    p := s.par[n];
    RingOfTree(s, p);
    i :| 0 <= i < |s.kids[p]| && s.kids[p][i] == n;
  }

  lemma ParentField(m: Mem, s: Shape<Node>, n: Node)
    requires Linked(m, s, {}) && n in s.par
    ensures n in m && m[n].parent == (if s.par[n] == s.root then null else s.par[n])
  {
    assert NodeOk(m, s, n, {});
  }

  lemma DropGood(m: Mem, m1: Mem, m2: Mem, s: Shape<Node>, p: Node, n: Node, i: nat)
    requires Good(s) && Linked(m, s, {}) && Child(s, p, n, i) && DroppedVia(m, m1, m2, s, p, n, i)
    ensures var t := Drop(s, p, n, i);
            var lag := if p == s.root then {} else {p};
            && t.root == s.root && t.kids.Keys == s.kids.Keys - {n} && Tree(t) && Balanced(t, lag) && Linked(m2, t, lag)
            && FewerParents(s, t)
            && (p != s.root ==>
                 p in t.par && p in t.kids && (t.kids[p] != [] ==> t.kids[p][0] == s.kids[p][Succ(i, |s.kids[p]|)]))
  {
    DropBalanced(s, p, n, i);
    DropKeys(s, p, n, i);
    DropLinked(m, m1, m2, s, p, n, i);
    DropFirst(s, p, n, i);
  }

  lemma DropFirst(s: Shape<Node>, p: Node, n: Node, i: nat)
    requires Child(s, p, n, i)
    ensures FewerParents(s, Drop(s, p, n, i))
    ensures p != s.root ==> p != n && p in Drop(s, p, n, i).par && p in Drop(s, p, n, i).kids
    ensures p != s.root ==> Drop(s, p, n, i).kids[p] == RestOfRing(s.kids[p], i)
  {
    KidsBelow(s, n);
    if p != s.root { KidsBelow(s, p); }
  }

  lemma JoinGood(m: Mem, s: Shape<Node>, win: Node, lose: Node, i: nat)
    requires Good(s) && Linked(m, s, {}) && TwoRoots(s, win, lose, i) && |s.kids[win]| == |s.kids[lose]|
    requires lose in m && m[lose].prev != null && m[lose].next != null && m[lose].prev in m && m[lose].next in m
    requires var m2 := AfterDemote(m, win, lose);
             && win in m2 && (m2[win].child != null ==>
                  m2[win].child in m2 && m2[win].child != win && m2[m2[win].child].next != null
                  && m2[m2[win].child].next in m2)
             && Joined(m, AfterAdopt(m2, win, lose), s, win, lose, i)
    ensures var t := Link(s, win, lose, i);
            && t.root == s.root && t.kids.Keys == s.kids.Keys && t.par == s.par[lose := win] && t.par.Keys == s.par.Keys
            && Good(t)
            && Linked(AfterAdopt(AfterDemote(m, win, lose), win, lose), t, {})
  {
    assert Link(s, win, lose, i).par.Keys == s.par.Keys;
    assert Link(s, win, lose, i).kids.Keys == s.kids.Keys;
    hide Tree, Balanced, Linked, AfterDemote, AfterAdopt, Joined;
    LinkGood(s, win, lose, i);
    JoinLinked(m, AfterAdopt(AfterDemote(m, win, lose), win, lose), s, win, lose, i);
  }

  /** The word and the child pointer that the cascade writes are those of the marked node. */
  lemma SettledCell(s: Shape<Node>, p: Node, rght: Node, w: int)
    requires p in s.kids && w == Word(s, p) && (s.kids[p] != [] ==> rght == s.kids[p][0])
    ensures (if w % 2 == 0 then w + 1 else w) == Word(Mark(s, p), p)
    ensures (if w <= 1 then null else rght) == First(s.kids[p])
    ensures w % 2 != 0 <==> p in s.marked
  {
  }

  lemma SettledMem(m: Mem, s: Shape<Node>, p: Node)
    requires p in m && p in s.kids
    ensures AfterSettle(m, s, p) == m[p := m[p].(word := Word(Mark(s, p), p), child := First(s.kids[p]))]
  {
  }

  // ----- consolidation -----

  /** The table holds, under its degree, every root in `done` but `cur`, and nothing else. */
  ghost predicate Tabled(tab: seq<Node?>, s: Shape<Node>, done: seq<Node>, cur: Node) {
    && |tab| == 32
    && (forall d :: 0 <= d < 32 && tab[d] != null ==>
         tab[d] in done && tab[d] != cur && tab[d] in s.kids && |s.kids[tab[d]]| == d)
    && (forall x :: x in done && x != cur ==> x in s.kids && |s.kids[x]| < 32 && tab[|s.kids[x]|] == x)
  }

  lemma StartLists(m: Mem, s: Shape<Node>) returns (done: seq<Node>, rest: seq<Node>)
    requires Linked(m, s, {}) && s.root in s.kids && s.root in m
    ensures s.kids[s.root] == done + rest && m[s.root].next != null && m[s.root].next in s.kids && m[s.root].next in m
    ensures var r := m[s.root].next; (r == s.root ==> done == [] && rest == []) && (r != s.root ==>
              done == [r] && m[r].next != null && m[r].next == if rest == [] then s.root else rest[0])
    ensures m[m[s.root].next].next != null
  {
    LinkedRoot(m, s, {});
    RootRingNoDup(s);
    var rr, roots := RootRing(s), s.kids[s.root];
    assert Hop(m, rr, 0);
    if roots == [] {
      done, rest := [], [];
    } else {
      done, rest := [roots[0]], roots[1..];
      assert rr[1] == roots[0];
      assert Hop(m, rr, 1);
    }
  }

  lemma NothingTabled(tab: seq<Node?>, s: Shape<Node>, done: seq<Node>, cur: Node)
    requires |tab| == 32 && (forall d :: 0 <= d < 32 ==> tab[d] == null) && (forall x :: x in done ==> x == cur)
    ensures Tabled(tab, s, done, cur)
  {
  }

  lemma RootFacts(m: Mem, s: Shape<Node>, done: seq<Node>, rest: seq<Node>, r: Node)
    requires Good(s) && Linked(m, s, {}) && |s.par| < FIB34 && s.root in s.kids && s.kids[s.root] == done + rest
    requires r in done
    ensures r in s.par && r in s.kids && r in m && s.par[r] == s.root && m[r].word / 2 == |s.kids[r]| < 32
  {
    assert r in s.kids[s.root];
    RingOfTree(s, s.root);
    assert NodeOk(m, s, r, {});
    DegreeFitsTable(s, r);
  }

  lemma NoDupParts<T>(a: seq<T>, b: seq<T>)
    requires NoDup(a + b)
    ensures NoDup(a) && forall x :: x in a ==> x !in b
  {
    var l := a + b;
    assert forall i :: 0 <= i < |a| ==> a[i] == l[i];
    forall i, j | 0 <= i < |a| && 0 <= j < |b| ensures a[i] != b[j] {
      assert l[i] != l[|a| + j];
    }
  }

  lemma ListFacts(s: Shape<Node>, done: seq<Node>, rest: seq<Node>)
    requires Tree(s) && s.root in s.kids && s.kids[s.root] == done + rest
    ensures NoDup(done) && s.root !in done
    ensures forall x :: x in done ==> x !in rest && x in s.par && x in s.kids && s.par[x] == s.root
    ensures rest != [] ==> rest[0] in s.kids && rest[0] in s.par && rest[0] != s.root
  {
    RingOfTree(s, s.root);
    NoDupParts(done, rest);
    assert forall x :: x in done ==> x in done + rest;
    if rest != [] { assert rest[0] in done + rest; }
  }

  lemma PutInTable(tab: seq<Node?>, s: Shape<Node>, done: seq<Node>, rest: seq<Node>, r: Node, d: nat)
    requires Tree(s) && s.root in s.kids && s.kids[s.root] == done + rest
    requires Tabled(tab, s, done, r) && r in done && r in s.kids && d == |s.kids[r]| < 32 && tab[d] == null
    ensures rest == [] ==> Tabled(tab[d := r], s, done, s.root)
    ensures rest != [] ==> Tabled(tab[d := r], s, done + [rest[0]], rest[0])
  {
    ListFacts(s, done, rest);
  }

  lemma NextRoot(m: Mem, s: Shape<Node>, done: seq<Node>, rest: seq<Node>)
    requires Linked(m, s, {}) && s.root in s.kids && s.kids[s.root] == done + rest
    ensures s.root in m && m[s.root].next != null
    ensures rest != [] ==> rest[0] in m && rest[0] in s.kids && rest[0] != s.root
    ensures rest != [] ==> m[rest[0]].next != null && m[rest[0]].next == if |rest| == 1 then s.root else rest[1]
  {
    LinkedRoot(m, s, {});
    ListFacts(s, done, rest);
    var rr := RootRing(s);
    if rest != [] {
      var k := |done| + 1;
      assert Hop(m, rr, k);
      assert rr[k] == rest[0];
    }
  }

  lemma TableEntry(tab: seq<Node?>, s: Shape<Node>, done: seq<Node>, rest: seq<Node>, r: Node, d: nat)
    requires Tree(s) && s.root in s.kids && s.kids[s.root] == done + rest
    requires Tabled(tab, s, done, r) && r in done && d < 32 && tab[d] != null
    ensures tab[d] in done && tab[d] != r && tab[d] in s.kids && |s.kids[tab[d]]| == d
  {
  }

  lemma LosePlace(s: Shape<Node>, done: seq<Node>, rest: seq<Node>, win: Node, lose: Node) returns (i: nat)
    requires Tree(s) && s.root in s.kids && s.kids[s.root] == done + rest && win in done && lose in done && win != lose
    ensures i < |done| && done[i] == lose && TwoRoots(s, win, lose, i)
  {
    ListFacts(s, done, rest);
    i :| 0 <= i < |done| && done[i] == lose;
  }

  lemma DeleteConcat<T>(a: seq<T>, b: seq<T>, i: nat)
    requires i < |a|
    ensures Without(a + b, i) == Without(a, i) + b
  {
  }

  lemma LinkKeys(s: Shape<Node>, win: Node, lose: Node, i: nat)
    requires TwoRoots(s, win, lose, i)
    ensures var t := Link(s, win, lose, i);
            t.root == s.root && t.root in t.kids && t.kids[t.root] == Without(s.kids[s.root], i)
    ensures var t := Link(s, win, lose, i); t.par.Keys == s.par.Keys && |t.par| == |s.par|
  {
    hide Tree, Without, InsertSecond;
    var t := Link(s, win, lose, i);
    assert t.par.Keys == s.par.Keys;
    assert |t.par| == |t.par.Keys| && |s.par| == |s.par.Keys|;
  }

  lemma WinStays(done: seq<Node>, i: nat, win: Node)
    requires NoDup(done) && i < |done| && win in done && win != done[i]
    ensures win in Without(done, i)
  {
    DeleteMembers(done, i);
  }

  /** What joining does to the list of roots seen and to the table. */
  lemma MergeTable(tab: seq<Node?>, s: Shape<Node>, done: seq<Node>, rest: seq<Node>, cur: Node, win: Node, lose: Node,
                   d: nat) returns (i: nat)
    requires Tree(s) && s.root in s.kids && s.kids[s.root] == done + rest && win in done && lose in done && win != lose
    requires Tabled(tab, s, done, cur) && d < 32 && tab[d] != null
    requires (win == cur && lose == tab[d]) || (lose == cur && win == tab[d])
    ensures i < |done| && TwoRoots(s, win, lose, i)
    ensures var t := Link(s, win, lose, i);
            && t.root == s.root && t.root in t.kids && t.kids[t.root] == Without(done, i) + rest && |t.par| == |s.par|
            && Tabled(tab[d := null], t, Without(done, i), win) && win in Without(done, i) && win != s.root
  {
    hide Tree, Link, Tabled, Without;
    i := LosePlace(s, done, rest, win, lose);
    ListFacts(s, done, rest);
    LinkKeys(s, win, lose, i);
    DeleteConcat(done, rest, i);
    WinStays(done, i, win);
    TableAfterJoin(tab, s, Link(s, win, lose, i), done, rest, cur, win, lose, d, i);
  }

  lemma TableAfterJoin(tab: seq<Node?>, s: Shape<Node>, t: Shape<Node>, done: seq<Node>, rest: seq<Node>, cur: Node,
                       win: Node, lose: Node, d: nat, i: nat)
    requires TwoRoots(s, win, lose, i) && s.kids[s.root] == done + rest && i < |done| && done[i] == lose
    requires t == Link(s, win, lose, i)
    requires Tabled(tab, s, done, cur) && d < 32 && tab[d] != null
    requires (win == cur && lose == tab[d]) || (lose == cur && win == tab[d])
    ensures Tabled(tab[d := null], t, Without(done, i), win)
  {
    ListFacts(s, done, rest);
    DeleteMembers(done, i);
  }

  lemma DropLaid(m: Mem, m1: Mem, s: Shape<Node>, p: Node, n: Node, i: nat)
    requires Good(s) && Ordered(s) && Linked(m, s, {}) && Child(s, p, n, i)
    requires DroppedVia(m, m1, Snap(s.kids.Keys), s, p, n, i)
    ensures var t := Drop(s, p, n, i);
            && t.root == s.root && t.kids.Keys == s.kids.Keys - {n} && LaidOut(t, if p == s.root then {} else {p})
            && (p != s.root ==>
                 p in t.par && p in t.kids && (t.kids[p] != [] ==> t.kids[p][0] == s.kids[p][Succ(i, |s.kids[p]|)]))
  {
    hide Tree, Balanced, Linked, Snap, Drop, DroppedVia, Ordered, FewerParents, Succ;
    var m2, t := Snap(s.kids.Keys), Drop(s, p, n, i);
    DropGood(m, m1, m2, s, p, n, i);
    SnapExtend(t.kids.Keys, s.kids.Keys);
    LinkedShrink(m2, Snap(t.kids.Keys), t, if p == s.root then {} else {p});
    OrderedKept(s, t);
  }

  lemma CutLaid(m: Mem, s: Shape<Node>, p: Node, c: Node, i: nat)
    requires Tree(s) && Balanced(s, {c}) && Linked(m, s, {}) && p in s.par && p in s.kids && i < |s.kids[p]|
    requires s.kids[p][i] == c
    requires c in s.par && s.par[c] == p && p != s.root && s.root in s.kids && c in m && s.root in m && s.root != c
    requires Ordered(s)
    requires m[c].prev != null && m[c].next != null && m[c].prev in m && m[c].next in m
    requires AfterUnlink(m, c)[s.root].next != null && AfterUnlink(m, c)[s.root].next in m
    requires m[c].next == s.kids[p][Succ(i, |s.kids[p]|)]
    requires Moved(m, AfterCut(m, s.root, c), s.kids[p], i, RootRing(s), c)
    requires Snap(s.kids.Keys) == AfterCut(m, s.root, c)
    ensures var t := Cut(s, p, c, i);
            && t.kids.Keys == s.kids.Keys && t.par.Keys == s.par.Keys && t.rank == s.rank && t.root == s.root
            && p in t.par
            && p in t.kids && (t.kids[p] != [] ==> m[c].next == t.kids[p][0]) && LaidOut(t, {p})
  {
    hide Tree, Balanced, Linked, Snap, AfterCut, AfterUnlink, Cut, Ordered, Moved, FewerParents, Succ;
    CutShape(m, s, p, c, i);
    OrderedKept(s, Cut(s, p, c, i));
  }

  lemma OrderedJoin(s: Shape<Node>, win: Node, lose: Node, i: nat)
    requires TwoRoots(s, win, lose, i) && Tree(Link(s, win, lose, i)) && Ordered(s) && win.key >= lose.key
    ensures Ordered(Link(s, win, lose, i))
  {
  }

  lemma RootsAreKids(s: Shape<Node>, roots: seq<Node>)
    requires Tree(s) && s.root in s.kids && roots == s.kids[s.root]
    ensures s.root !in roots && forall x :: x in roots <==> x in s.par && s.par[x] == s.root
    ensures forall x :: x in roots ==> x in s.kids
  {
    RingOfTree(s, s.root);
  }

  /** No two tree roots have the same number of children. */
  ghost predicate OneRootPerDegree(s: Shape<Node>) {
    && s.root in s.kids
    && forall x, y :: (x in s.kids[s.root] && y in s.kids[s.root] && x in s.kids && y in s.kids
                       && |s.kids[x]| == |s.kids[y]|) ==> x == y
  }

  lemma OnePerDegree(tab: seq<Node?>, s: Shape<Node>, roots: seq<Node>)
    requires s.root in s.kids && roots == s.kids[s.root] && Tabled(tab, s, roots, s.root) && s.root !in roots
    ensures OneRootPerDegree(s)
  {
  }

  /** The best root is the best element. */
  lemma BestOfAll(s: Shape<Node>, roots: seq<Node>, best: Node?)
    requires Tree(s) && Ordered(s) && s.root in s.kids && roots == s.kids[s.root]
    requires (best == null <==> roots == [])
    requires (best != null ==> best in roots && forall x :: x in roots ==> x.key <= best.key)
    ensures best == null <==> s.par.Keys == {}
    ensures best != null ==> best in s.par && forall x :: x in s.par ==> x.key <= best.key
  {
    RootsAreKids(s, roots);
    var key := map x | x in s.kids :: x.key;
    assert HeapOrdered(s, key);
    forall x | x in s.par ensures best != null && x.key <= best.key {
      var r := RootDominates(s, key, x);
    }
    if roots != [] { assert roots[0] in roots; }
  }

  lemma SettleLaid(m: Mem, s: Shape<Node>, p: Node)
    requires Tree(s) && Balanced(s, {p}) && Linked(m, s, {p}) && p in s.par && p in s.kids && p in m && Ordered(s)
    requires Snap(s.kids.Keys) == AfterSettle(m, s, p)
    ensures p !in s.marked || s.par[p] == s.root ==> LaidOut(Mark(s, p), {})
    ensures Tree(Mark(s, p)) && Linked(Snap(s.kids.Keys), Mark(s, p), {}) && Ordered(Mark(s, p))
  {
    hide Tree, Balanced, Linked, Snap, AfterSettle, Ordered, FewerParents;
    SettleGood(m, s, p);
    OrderedKept(s, Mark(s, p));
  }
}
