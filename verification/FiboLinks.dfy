/**
  Nodes of a Fibonacci heap on their pointers.  A snapshot of the nodes' link fields is a
  map of cells; the two ring macros are given by what they do to such a snapshot, and a
  shape (module FiboShape) is laid out in it by rings, parent and child pointers and words.
*/
module FiboLinks {
  import opened Collections
  import opened FiboShape
  import opened FiboOps

  class Node {
    var parent: Node?
    var child: Node?
    var prev: Node?
    var next: Node?
    /** Twice the degree, plus one if the node is marked. */
    var deflval: int
    var key: int
    const value: int
    var inQueue: bool

    constructor (value: int, key: int)
      ensures this.value == value && this.key == key && !inQueue
    {
      this.value := value;
      this.key := key;
      this.inQueue := false;
    }
  }

  datatype Cell = Cell(parent: Node?, child: Node?, prev: Node?, next: Node?, word: int)

  type Mem = map<Node, Cell>

  ghost function Snap(ns: set<Node>): (m: Mem)
    reads ns`parent, ns`child, ns`prev, ns`next, ns`deflval
    ensures m.Keys == ns
  {
    map x | x in ns :: Cell(x.parent, x.child, x.prev, x.next, x.deflval)
  }

  // ----- rings -----

  ghost function Succ(i: nat, n: nat): nat { if i + 1 == n then 0 else i + 1 }

  /** The i-th node of r and the one after it point at each other. */
  ghost predicate Hop(m: Mem, r: seq<Node>, i: nat) {
    && i < |r| && r[i] in m && r[Succ(i, |r|)] in m
    && m[r[i]].next == r[Succ(i, |r|)] && m[r[Succ(i, |r|)]].prev == r[i]
  }

  /** The nodes of r, in this order, are linked into a ring. */
  ghost predicate Ring(m: Mem, r: seq<Node>) {
    forall i: nat :: i < |r| ==> Hop(m, r, i)
  }

  /** Nothing but sibling links changed, and only those of the nodes in `touched`. */
  ghost predicate OnlyLinks(m: Mem, m': Mem, touched: seq<Node>) {
    && m'.Keys == m.Keys
    && (forall x :: x in m && x !in touched ==> m'[x] == m[x])
    && (forall x :: x in m ==> m'[x] == m[x].(next := m'[x].next, prev := m'[x].prev))
  }

  /** fiboTreeLinkAfter */
  ghost function AfterLink(m: Mem, o: Node, n: Node): (m': Mem)
    requires o in m && n in m && m[o].next != null && m[o].next in m
    ensures m'.Keys == m.Keys
  {
    var nx := m[o].next;
    var m1 := m[n := m[n].(next := nx, prev := o)];
    var m2 := m1[nx := m1[nx].(prev := n)];
    m2[o := m2[o].(next := n)]
  }

  /** fiboTreeUnlink; the node itself keeps its links. */
  ghost function AfterUnlink(m: Mem, n: Node): (m': Mem)
    requires n in m && m[n].prev != null && m[n].next != null && m[n].prev in m && m[n].next in m
    ensures m'.Keys == m.Keys
  {
    var m1 := m[m[n].prev := m[m[n].prev].(next := m[n].next)];
    m1[m[n].next := m1[m[n].next].(prev := m[n].prev)]
  }

  method LinkAfter(o: Node, n: Node, ghost ns: set<Node>)
    requires o in ns && n in ns && o.next != null && o.next in ns
    modifies ns`next, ns`prev
    ensures Snap(ns) == AfterLink(old(Snap(ns)), o, n)
  {
    var nx := o.next;
    n.next := nx;
    n.prev := o;
    nx.prev := n;
    o.next := n;
  }

  method Unlink(n: Node, ghost ns: set<Node>)
    requires n in ns && n.prev != null && n.next != null && n.prev in ns && n.next in ns
    modifies ns`next, ns`prev
    ensures Snap(ns) == AfterUnlink(old(Snap(ns)), n)
  {
    n.prev.next := n.next;
    n.next.prev := n.prev;
  }

  /** Linking after the first node of a ring inserts there, and touches no other ring. */
  lemma LinkRing(m: Mem, r: seq<Node>, n: Node)
    requires r != [] && NoDup(r) && n !in r && n in m && Ring(m, r)
    ensures r[0] in m && m[r[0]].next != null && m[r[0]].next in m
    ensures Ring(AfterLink(m, r[0], n), InsertSecond(r, n))
    ensures OnlyLinks(m, AfterLink(m, r[0], n), r + [n])
    ensures forall x :: x in m && x != r[0] && x != n ==> AfterLink(m, r[0], n)[x].next == m[x].next
  {
    assert Hop(m, r, 0);
    var m' := AfterLink(m, r[0], n);
    var t := InsertSecond(r, n);
    forall i: nat | i < |t| ensures Hop(m', t, i) {
      if i >= 2 {
        assert Hop(m, r, i - 1);
      }
    }
  }

  /** Unlinking a node closes the ring behind it, and touches no other ring. */
  lemma UnlinkRing(m: Mem, r: seq<Node>, i: nat)
    requires i < |r| && NoDup(r) && Ring(m, r)
    ensures r[i] in m && m[r[i]].prev != null && m[r[i]].next != null && m[r[i]].prev in m && m[r[i]].next in m
    ensures m[r[i]].next == r[Succ(i, |r|)] && AfterUnlink(m, r[i])[r[i]].next == m[r[i]].next
    ensures Ring(AfterUnlink(m, r[i]), Without(r, i))
    ensures OnlyLinks(m, AfterUnlink(m, r[i]), r)
  {
    var p := if i == 0 then |r| - 1 else i - 1;
    assert Hop(m, r, i) && Hop(m, r, p);
    var m' := AfterUnlink(m, r[i]);
    var t := Without(r, i);
    forall j: nat | j < |t| ensures Hop(m', t, j) {
      var j' := if j < i then j else j + 1;
      assert t[j] == r[j'];
      assert Hop(m, r, j');
    }
  }

  /** A ring is a ring wherever one starts. */
  lemma RotateRing(m: Mem, a: seq<Node>, b: seq<Node>)
    requires Ring(m, a + b)
    ensures Ring(m, b + a)
  {
    var r, t := a + b, b + a;
    forall j: nat | j < |t| ensures Hop(m, t, j) {
      var j' := if j < |b| then j + |a| else j - |b|;
      assert t[j] == r[j'];
      assert Hop(m, r, j');
    }
  }

  lemma RingKept(m: Mem, m': Mem, r: seq<Node>)
    requires Ring(m, r)
    requires forall x :: x in r && x in m ==> x in m' && m'[x].next == m[x].next && m'[x].prev == m[x].prev
    ensures Ring(m', r)
  {
    forall i: nat | i < |r| ensures Hop(m', r, i) {
      assert Hop(m, r, i);
      assert r[i] in r && r[Succ(i, |r|)] in r;
    }
  }

  // ----- a shape laid out in memory -----

  ghost function RootRing(s: Shape<Node>): seq<Node>
    requires Tree(s)
  {
    [s.root] + s.kids[s.root]
  }

  ghost function Word(s: Shape<Node>, x: Node): int
    requires x in s.kids
  {
    2 * |s.kids[x]| + (if x in s.marked then 1 else 0)
  }

  /**
    What the parent pointer, the child pointer and the word of x must be; a lagging node still
    counts a child that left.
  */
  ghost predicate Fields(c: Cell, s: Shape<Node>, x: Node, lag: set<Node>)
    requires x in s.par && x in s.kids
  {
    && c.parent == (if s.par[x] == s.root then null else s.par[x])
    && (x !in lag ==> c.child == (if s.kids[x] == [] then null else s.kids[x][0]) && c.word == Word(s, x))
    && (x in lag ==> c.word == Word(s, x) + 2)
  }

  ghost predicate NodeOk(m: Mem, s: Shape<Node>, x: Node, lag: set<Node>) {
    x in s.par && x in s.kids && x in m && Ring(m, s.kids[x]) && Fields(m[x], s, x, lag)
  }

  ghost predicate Linked(m: Mem, s: Shape<Node>, lag: set<Node>) {
    && Tree(s) && s.kids.Keys <= m.Keys && Ring(m, RootRing(s))
    && forall x :: x in s.par ==> NodeOk(m, s, x, lag)
  }

  lemma RootRingNoDup(s: Shape<Node>)
    requires Tree(s)
    ensures NoDup(RootRing(s))
    ensures forall x :: x in RootRing(s) <==> x == s.root || x in s.kids[s.root]
    ensures forall x :: x in RootRing(s) ==> x in s.kids
  {
    RingOfTree(s, s.root);
    InsertMembers(s.kids[s.root], s.root);
  }

  /** Rings of different nodes have no node in common. */
  lemma RingsApart(s: Shape<Node>, x: Node, p: Node)
    requires Tree(s) && x in s.kids && p in s.kids && x != p
    ensures forall y :: y in s.kids[x] ==> y !in s.kids[p] && y != s.root && y in s.kids
  {
    RingOfTree(s, x);
    RingOfTree(s, p);
  }

  /** x, its children and their order are in t what they were in s. */
  ghost predicate SameNode(s: Shape<Node>, lag: set<Node>, t: Shape<Node>, lag': set<Node>, x: Node) {
    && x in s.par && x in t.par && x in s.kids && x in t.kids
    && t.kids[x] == s.kids[x] && (x in t.marked <==> x in s.marked) && (x in lag' <==> x in lag)
    && (if s.par[x] == s.root then t.par[x] == t.root else t.par[x] == s.par[x] && t.par[x] != t.root)
  }

  /** A node keeps its state when neither its own fields nor the links of its children changed. */
  lemma NodeKept(m: Mem, s: Shape<Node>, lag: set<Node>, m': Mem, t: Shape<Node>, lag': set<Node>, x: Node)
    requires NodeOk(m, s, x, lag) && SameNode(s, lag, t, lag', x) && x in m'
    requires m'[x] == m[x].(next := m'[x].next, prev := m'[x].prev)
    requires forall y :: y in s.kids[x] && y in m ==> y in m' && m'[y].next == m[y].next && m'[y].prev == m[y].prev
    ensures NodeOk(m', t, x, lag')
  {
    RingKept(m, m', s.kids[x]);
  }
}
