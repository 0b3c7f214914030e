/**
  The priority queue of PriorityQueue.c: a Fibonacci heap of elements plus an array that
  finds the element of a value.  It refines a finite map from values to keys, as long as no
  value is inserted twice.
*/
module PriorityQueues {
  import opened Collections
  import opened FiboShape
  import opened FiboLinks
  import opened FiboMoves
  import opened FiboHeap

  /** The array only knows queued elements, each at its value, and all values are in range. */
  ghost predicate Indexed(queue: set<Node>, elements: seq<Node?>)
    reads queue`inQueue
  {
    && (forall n :: n in queue ==> 0 <= n.value < |elements| && n.inQueue)
    && (forall v :: 0 <= v < |elements| && elements[v] != null ==> elements[v] in queue && elements[v].value == v)
  }

  /** No value is queued twice: the array finds every queued element. */
  ghost predicate Finds(queue: set<Node>, elements: seq<Node?>) {
    forall n :: n in queue ==> 0 <= n.value < |elements| && elements[n.value] == n
  }

  /** The keys of the values that the array knows. */
  ghost function KeyMap(elements: seq<Node?>): (m: map<int, int>)
    reads (set n: Node | n in elements)`key
    ensures forall v :: v in m <==> 0 <= v < |elements| && elements[v] != null
    ensures forall v :: v in m ==> m[v] == elements[v].key
  {
    map v | 0 <= v < |elements| && elements[v] != null :: elements[v].key
  }

  ghost predicate Best(e: Node, queue: set<Node>)
    reads queue`key, e`key
  {
    forall x :: x in queue ==> x.key <= e.key
  }

  ghost predicate Largest(keys: map<int, int>, v: int) {
    v in keys && forall w :: w in keys ==> keys[w] <= keys[v]
  }

  lemma Put(queue: set<Node>, es: seq<Node?>, e: Node)
    requires Indexed(queue, es) && e !in queue && 0 <= e.value < |es|
    ensures KeyMap(es[e.value := e]) == KeyMap(es)[e.value := e.key]
    ensures Finds(queue + {e}, es[e.value := e]) <==> Finds(queue, es) && es[e.value] == null
  {
    if Finds(queue + {e}, es[e.value := e]) {
      forall n | n in queue ensures es[n.value] == n {
        assert n in queue + {e};
      }
    }
  }

  /** What taking out e does to the map. */
  ghost predicate Taken(queue: set<Node>, es: seq<Node?>, e: Node)
    reads queue`key, e`key, (set n: Node | n in es)`key
  {
    && 0 <= e.value < |es| && KeyMap(es[e.value := null]) == KeyMap(es) - {e.value}
    && (Finds(queue, es) ==> Finds(queue - {e}, es[e.value := null]))
    && (Finds(queue, es) && Best(e, queue) ==> Largest(KeyMap(es), e.value))
  }

  lemma Take(queue: set<Node>, es: seq<Node?>, e: Node)
    requires Indexed(queue, es) && e in queue
    ensures Taken(queue, es, e)
  {
    if Finds(queue, es) && Best(e, queue) {
      forall w | w in KeyMap(es) ensures KeyMap(es)[w] <= KeyMap(es)[e.value] {
        assert es[w] in queue;
      }
    }
  }

  lemma IndexedWith(queue: set<Node>, es: seq<Node?>, e: Node)
    requires Indexed(queue, es) && 0 <= e.value < |es| && e.inQueue
    ensures Indexed(queue + {e}, es[e.value := e])
  {
  }

  lemma IndexedWithout(queue: set<Node>, es: seq<Node?>, e: Node)
    requires Indexed(queue, es) && e in queue
    ensures 0 <= e.value < |es| && Indexed(queue - {e}, es[e.value := null])
  {
  }

  /** The dummy root follows itself exactly when there is no element. */
  lemma NextOfRoot(s: Shape<Node>)
    requires LaidOut(s, {})
    ensures s.root.next == s.root <==> s.kids.Keys - {s.root} == {}
  {
    hide Tree, Balanced, Ring;
    var m := Snap(s.kids.Keys);
    LaidOutNodes(s);
    RootRingNoDup(s);
    assert Hop(m, RootRing(s), 0) by { FirstHop(m, s); }
    var roots := s.kids[s.root];
    if roots == [] {
      BestOfAll(s, roots, null);
    } else {
      assert roots[0] in roots;
      RootsAreKids(s, roots);
    }
  }

  lemma FirstHop(m: Mem, s: Shape<Node>)
    requires Linked(m, s, {})
    ensures s.root in s.kids && Hop(m, RootRing(s), 0)
  {
    LinkedRoot(m, s, {});
  }

  class PriorityQueue {
    const size: nat
    const elements: array<Node?>
    const tree: FiboTree

    ghost predicate Valid()
      reads this, elements, tree, tree.degrtab, tree.s.kids.Keys
    {
      tree.Valid() && elements.Length == size && elements != tree.degrtab && Indexed(Queue(), elements[..])
    }

    /** The queued elements. */
    ghost function Queue(): set<Node>
      reads tree
    {
      tree.s.kids.Keys - {tree.s.root}
    }

    ghost predicate Exact()
      reads this, elements, tree
    {
      Finds(Queue(), elements[..])
    }

    /** PQ_init */
    constructor (size: nat)
      ensures Valid() && Exact() && this.size == size && Queue() == {} && KeyMap(elements[..]) == map[]
      ensures fresh(tree) && fresh(elements) && fresh(tree.degrtab) && fresh(tree.s.kids.Keys)
    {
      hide LaidOut;
      this.size := size;
      this.elements := new Node?[size](_ => null);
      tree := new FiboTree();
    }

    /** PQ_isEmpty: the dummy root follows itself. */
    method IsEmpty() returns (b: bool)
      requires Valid()
      ensures b <==> Queue() == {}
    {
      b := tree.rootdat.next == tree.rootdat;
      NextOfRoot(tree.s);
    }

    /** PQ_insertElement */
    method InsertElement(e: Node)
      requires Valid() && e !in tree.s.kids
      modifies tree`s, tree.s.kids.Keys`next, tree.s.kids.Keys`prev
      modifies e`next, e`prev, e`parent, e`child, e`deflval, e`inQueue, elements
      ensures Valid() && tree.s.root == old(tree.s.root) && tree.s.kids.Keys <= old(tree.s.kids.Keys) + {e}
      ensures Queue() == old(Queue()) + (if 0 <= e.value < size then {e} else {})
      ensures elements[..] == if 0 <= e.value < size then old(elements[..])[e.value := e] else old(elements[..])
    {
      hide LaidOut, Indexed;
      if 0 <= e.value < size {
        ghost var queue, es := Queue(), elements[..];
        LaidOutNodes(tree.s);
        tree.Add(e);
        LaidOutNodes(tree.s);
        elements[e.value] := e;
        e.inQueue := true;
        IndexedWith(queue, es, e);
        assert Queue() == queue + {e} && elements[..] == es[e.value := e];
      }
    }

    /** The element leaves the heap. */
    method Remove(e: Node)
      requires tree.Valid() && e in Queue()
      modifies tree`s, tree.s.kids.Keys`next, tree.s.kids.Keys`prev, tree.s.kids.Keys`parent, tree.s.kids.Keys`child
      modifies tree.s.kids.Keys`deflval
      ensures tree.Valid() && tree.s.root == old(tree.s.root) && tree.s.kids.Keys == old(tree.s.kids.Keys) - {e}
      ensures Queue() == old(Queue()) - {e}
    {
      hide LaidOut;
      LaidOutNodes(tree.s);
      tree.Del(e);
      LaidOutNodes(tree.s);
    }

    /** PQ_deleteElement */
    method DeleteElement(e: Node)
      requires Valid() && e in Queue()
      modifies tree`s, tree.s.kids.Keys`next, tree.s.kids.Keys`prev, tree.s.kids.Keys`parent, tree.s.kids.Keys`child
      modifies tree.s.kids.Keys`deflval, e`inQueue, elements
      ensures Valid() && tree.s.root == old(tree.s.root) && tree.s.kids.Keys == old(tree.s.kids.Keys) - {e}
      ensures Queue() == old(Queue()) - {e} && 0 <= e.value < size
      ensures elements[..] == old(elements[..])[e.value := null]
    {
      hide LaidOut, Indexed;
      ghost var queue, es := Queue(), elements[..];
      IndexedWithout(queue, es, e);
      Remove(e);
      elements[e.value] := null;
      assert elements[..] == es[e.value := null];
      e.inQueue := false;
      assert Indexed(queue - {e}, es[e.value := null]);
    }

    /** PQ_insert */
    method Insert(val: int, key: int)
      requires Valid()
      modifies tree`s, tree.s.kids.Keys`next, tree.s.kids.Keys`prev, elements
      ensures Valid() && fresh(Queue() - old(Queue())) && old(Queue()) <= Queue()
      ensures fresh(tree.s.kids.Keys - old(tree.s.kids.Keys))
      ensures !(0 <= val < size) ==> Queue() == old(Queue()) && elements[..] == old(elements[..])
      ensures 0 <= val < size ==> KeyMap(elements[..]) == old(KeyMap(elements[..]))[val := key]
      ensures Exact() <==> old(Exact()) && (0 <= val < size ==> old(elements[val]) == null)
    {
      hide LaidOut, Finds, KeyMap, Indexed;
      if 0 <= val < size {
        var e := new Node(val, key);
        Put(Queue(), elements[..], e);
        InsertElement(e);
      }
    }

    /** The search in the heap, which leaves its set of elements alone. */
    method Search() returns (e: Node?)
      requires tree.Valid() && |Queue()| < FIB34
      modifies tree`s, tree.degrtab, tree.s.kids.Keys`next, tree.s.kids.Keys`prev, tree.s.kids.Keys`parent
      modifies tree.s.kids.Keys`child, tree.s.kids.Keys`deflval
      ensures tree.Valid() && tree.s.kids.Keys == old(tree.s.kids.Keys) && tree.s.root == old(tree.s.root)
      ensures Queue() == old(Queue())
      ensures e == null <==> Queue() == {}
      ensures e != null ==> e in Queue() && forall x :: x in Queue() ==> x.key <= e.key
    {
      hide LaidOut, OneRootPerDegree;
      LaidOutNodes(tree.s);
      e := tree.Min();
      LaidOutNodes(tree.s);
    }

    /** PQ_findMaxElement */
    method FindMaxElement() returns (e: Node?)
      requires Valid() && |Queue()| < FIB34
      modifies tree`s, tree.degrtab, tree.s.kids.Keys`next, tree.s.kids.Keys`prev, tree.s.kids.Keys`parent
      modifies tree.s.kids.Keys`child, tree.s.kids.Keys`deflval
      ensures Valid() && tree.s.kids.Keys == old(tree.s.kids.Keys) && tree.s.root == old(tree.s.root)
      ensures e == null <==> Queue() == {}
      ensures e != null ==> e in Queue() && forall x :: x in Queue() ==> x.key <= e.key
    {
      hide LaidOut, Indexed;
      ghost var queue, es := Queue(), elements[..];
      e := Search();
      assert elements[..] == es;
      assert Indexed(queue, es);
    }

    /** PQ_findMaxKey: 0 for an empty queue. */
    method FindMaxKey() returns (key: int)
      requires Valid() && |Queue()| < FIB34
      modifies tree`s, tree.degrtab, tree.s.kids.Keys`next, tree.s.kids.Keys`prev, tree.s.kids.Keys`parent
      modifies tree.s.kids.Keys`child, tree.s.kids.Keys`deflval
      ensures Valid() && Queue() == old(Queue())
      ensures Queue() == {} ==> key == 0
      ensures Queue() != {} ==> (exists e :: e in Queue() && e.key == key) && forall x :: x in Queue() ==> x.key <= key
    {
      hide LaidOut, Indexed;
      var e := FindMaxElement();
      if e != null {
        return e.key;
      }
      return 0;
    }

    /** PQ_delete */
    method Delete(val: int)
      requires Valid() && 0 <= val < size && elements[val] != null
      modifies tree`s, tree.s.kids.Keys`next, tree.s.kids.Keys`prev, tree.s.kids.Keys`parent, tree.s.kids.Keys`child
      modifies tree.s.kids.Keys`deflval, tree.s.kids.Keys`inQueue, elements
      ensures Valid() && Queue() == old(Queue()) - {old(elements[val])} && (old(Exact()) ==> Exact())
      ensures KeyMap(elements[..]) == old(KeyMap(elements[..])) - {val}
    {
      hide LaidOut, Finds, KeyMap;
      ghost var queue, es := Queue(), elements[..];
      var e := elements[val];
      Take(queue, es, e);
      hide Indexed;
      DeleteElement(e);
    }

    /** PQ_adjustElementKey; PQ_increaseElementKey and PQ_decreaseElementKey compute the new key from the old one. */
    method SetElementKey(e: Node, key: int)
      requires Valid() && e in Queue()
      modifies tree`s, tree.s.kids.Keys`next, tree.s.kids.Keys`prev, tree.s.kids.Keys`parent, tree.s.kids.Keys`child
      modifies tree.s.kids.Keys`deflval, e`inQueue, e`key, elements
      ensures Valid() && Queue() == old(Queue()) && e.key == key
      ensures elements[..] == old(elements[..])[e.value := e]
    {
      hide LaidOut, Indexed;
      DeleteElement(e);
      e.key := key;
      InsertElement(e);
    }

    /** PQ_adjustKey */
    method AdjustKey(val: int, key: int)
      requires Valid() && 0 <= val < size
      modifies tree`s, tree.s.kids.Keys`next, tree.s.kids.Keys`prev, tree.s.kids.Keys`parent, tree.s.kids.Keys`child
      modifies tree.s.kids.Keys`deflval, tree.s.kids.Keys`inQueue, tree.s.kids.Keys`key, elements
      ensures Valid() && Queue() == old(Queue()) && elements[..] == old(elements[..])
      ensures forall x :: x in Queue() && x != elements[val] ==> x.key == old(x.key)
      ensures KeyMap(elements[..]) == if val in old(KeyMap(elements[..])) then old(KeyMap(elements[..]))[val := key]
                else old(KeyMap(elements[..]))
    {
      hide LaidOut;
      var e := elements[val];
      if e != null {
        if e.inQueue {
          SetElementKey(e, key);
        }
      }
    }

    /** PQ_deleteMaxElement */
    method DeleteMaxElement() returns (e: Node?)
      requires Valid() && |Queue()| < FIB34
      modifies tree`s, tree.degrtab, tree.s.kids.Keys`next, tree.s.kids.Keys`prev, tree.s.kids.Keys`parent
      modifies tree.s.kids.Keys`child, tree.s.kids.Keys`deflval, tree.s.kids.Keys`inQueue, elements
      ensures Valid() && (e == null <==> old(Queue()) == {})
      ensures e == null ==> Queue() == old(Queue()) && elements[..] == old(elements[..])
      ensures e != null ==> e in old(Queue()) && forall x :: x in old(Queue()) ==> x.key <= e.key
      ensures e != null ==>
                0 <= e.value < size && Queue() == old(Queue()) - {e}
                && elements[..] == old(elements[..])[e.value := null]
    {
      hide LaidOut;
      e := FindMaxElement();
      if e != null {
        DeleteElement(e);
      }
    }

    /** PQ_deleteMax */
    method DeleteMax() returns (res: int)
      requires Valid() && |Queue()| < FIB34
      modifies tree`s, tree.degrtab, tree.s.kids.Keys`next, tree.s.kids.Keys`prev, tree.s.kids.Keys`parent
      modifies tree.s.kids.Keys`child, tree.s.kids.Keys`deflval, tree.s.kids.Keys`inQueue, elements
      ensures Valid() && (old(Exact()) ==> Exact())
      ensures res == -1 <==> old(Queue()) == {}
      ensures old(Queue()) == {} ==> elements[..] == old(elements[..])
      ensures old(Queue()) != {} ==>
                exists e :: e in old(Queue()) && Queue() == old(Queue()) - {e} && Best(e, old(Queue()))
      ensures old(Queue()) != {} && old(Exact()) ==> KeyMap(elements[..]) == old(KeyMap(elements[..])) - {res}
      ensures old(Queue()) != {} && old(Exact()) ==> Largest(old(KeyMap(elements[..])), res)
    {
      hide LaidOut, Finds, KeyMap, Indexed;
      ghost var queue, es := Queue(), elements[..];
      forall e | e in queue ensures Taken(queue, es, e) {
        Take(queue, es, e);
      }
      res := -1;
      var e := DeleteMaxElement();
      if e != null {
        res := e.value;
      }
    }
  }

  /** A value inserted twice: both elements are queued, but the array finds only the second. */
  method InsertedTwice() returns (q: PriorityQueue)
    ensures fresh(q) && q.Valid() && !q.Exact() && KeyMap(q.elements[..]) == map[0 := 7]
  {
    hide LaidOut, Finds, KeyMap, Indexed;
    q := new PriorityQueue(1);
    q.Insert(0, 5);
    q.Insert(0, 7);
  }
}
