/**
  The priority queue as its users see it: a map from values to keys.  Each operation asks for
  what module PriorityQueues needs to keep its array of elements exact, and gives what is proved
  there of the heap.
*/
module QueueMaps {
  import opened Collections
  import opened FiboShape
  import opened KPartModel

  /** The values of a queue of the given size. */
  ghost predicate KeysIn(m: map<int, int>, size: nat) {
    forall v :: v in m ==> 0 <= v < size
  }

  lemma KeysFit(m: map<int, int>, size: nat)
    requires KeysIn(m, size)
    ensures |m| <= size
  {
    assert m.Keys <= Below(size);
    SubsetSize(m.Keys, Below(size));
  }

  /** PQ_insert of a value that is not queued */
  method Insert(m: map<int, int>, size: nat, v: int, key: int) returns (r: map<int, int>)
    requires KeysIn(m, size) && 0 <= v < size && v !in m
    ensures r == m[v := key] && KeysIn(r, size)
  {
    r := m[v := key];
  }

  /** PQ_delete of a value that is queued */
  method Delete(m: map<int, int>, v: int) returns (r: map<int, int>)
    requires v in m
    ensures r == m - {v}
  {
    r := m - {v};
  }

  /** PQ_adjustKey */
  method AdjustKey(m: map<int, int>, size: nat, v: int, key: int) returns (r: map<int, int>)
    requires KeysIn(m, size) && 0 <= v < size
    ensures r == Rekey(m, v, key) && KeysIn(r, size)
  {
    r := Rekey(m, v, key);
  }

  /** PQ_findMaxKey */
  method FindMaxKey(m: map<int, int>) returns (r: int)
    requires |m| < FIB34
    ensures r == MaxKey(m)
  {
    var keys := m.Keys;
    if keys == {} {
      assert m == map[];
      return 0;
    }
    var best := AnyOf(keys);
    while keys != {}
      invariant keys <= m.Keys && best in m && forall v :: v in m && v !in keys ==> m[v] <= m[best]
      decreases |keys|
    {
      var v := AnyOf(keys);
      if m[v] > m[best] { best := v; }
      keys := keys - {v};
    }
    r := m[best];
  }

  /** PQ_deleteMax */
  method DeleteMax(m: map<int, int>) returns (v: int, rest: map<int, int>)
    requires |m| < FIB34
    ensures m == map[] ==> v == -1 && rest == m
    ensures m != map[] ==> v in m && m[v] == MaxKey(m) && rest == m - {v}
  {
    var keys := m.Keys;
    if keys == {} {
      assert m == map[];
      return -1, m;
    }
    v := AnyOf(keys);
    while keys != {}
      invariant keys <= m.Keys && v in m && forall w :: w in m && w !in keys ==> m[w] <= m[v]
      decreases |keys|
    {
      var w := AnyOf(keys);
      if m[w] > m[v] { v := w; }
      keys := keys - {w};
    }
    rest := m - {v};
  }
}
