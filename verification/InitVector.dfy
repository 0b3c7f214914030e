/**
  The vector that is initialised in constant time: two index arrays with arbitrary contents
  tell which cells have been set.
*/
module InitVector {
  import opened Collections

  /** The first `top` entries of `to` are cells that point back. */
  ghost predicate Linked(to: seq<int>, from: seq<int>, top: nat, size: nat) {
    |to| == size && |from| == size && top <= size && forall k :: 0 <= k < top ==> 0 <= to[k] < size && from[to[k]] == k
  }

  /** tm_intCIV_isInitialized */
  predicate IsSet(to: seq<int>, from: seq<int>, top: nat, i: nat)
    requires i < |from| && top <= |to|
  {
    top != 0 && from[i] >= 0 && from[i] < top && to[from[i]] == i
  }

  ghost function Cells(to: seq<int>, top: nat): set<int>
    requires top <= |to|
  {
    if top == 0 then {} else Cells(to, top - 1) + {to[top-1]}
  }

  lemma {:induction false} CellsBelow(to: seq<int>, top: nat, size: nat, i: nat)
    requires top <= |to| && i < size && forall k :: 0 <= k < top ==> 0 <= to[k] < size && to[k] != i
    ensures i !in Cells(to, top) && Cells(to, top) + {i} <= Below(size)
  {
    if top != 0 { CellsBelow(to, top - 1, size, i); }
  }

  lemma {:induction false} CellCount(to: seq<int>, from: seq<int>, top: nat, size: nat)
    requires Linked(to, from, top, size)
    ensures |Cells(to, top)| == top
  {
    if top != 0 {
      CellCount(to, from, top - 1, size);
      CellsBelow(to, top - 1, size, to[top-1]);
    }
  }

  /** A cell that is not set leaves room for one more entry. */
  lemma RoomForOne(to: seq<int>, from: seq<int>, top: nat, size: nat, i: nat)
    requires Linked(to, from, top, size) && i < size && !IsSet(to, from, top, i)
    ensures top < size
  {
    hide Cells;
    CellCount(to, from, top, size);
    CellsBelow(to, top, size, i);
    SubsetSize(Cells(to, top) + {i}, Below(size));
  }

  lemma SetCells(to: seq<int>, from: seq<int>, top: nat, size: nat, i: nat, x: nat)
    requires Linked(to, from, top, size) && i < size && x < size && top < size && !IsSet(to, from, top, i)
    ensures Linked(to[top := i], from[i := top], top + 1, size)
    ensures IsSet(to[top := i], from[i := top], top + 1, x) <==> x == i || IsSet(to, from, top, x)
  {
  }

  class Vector {
    const size: nat
    const init: int
    var top: nat
    const to: array<int>
    const from: array<int>
    const vec: array<int>
    /** What was last set. */
    ghost var contents: map<int, int>

    ghost predicate Valid()
      reads this, to, from, vec
    {
      && to.Length == from.Length == vec.Length == size && to != from && to != vec && from != vec
      && Linked(to[..], from[..], top, size)
      && (forall i :: i in contents <==> 0 <= i < size && IsSet(to[..], from[..], top, i))
      && (forall i :: i in contents ==> vec[i] == contents[i])
    }

    /** tm_intCIV_init: nothing is written to the arrays. */
    constructor (size: nat, init: int)
      ensures Valid() && contents == map[] && this.size == size && this.init == init
    {
      this.size, this.init, top := size, init, 0;
      to := new int[size];
      from := new int[size];
      vec := new int[size];
      contents := map[];
    }

    /** tm_intCIV_set */
    method Set(i: int, val: int) returns (code: int)
      requires Valid()
      modifies `top, `contents, to, from, vec
      ensures Valid() && code == (if 0 <= i < size then 0 else -1)
      ensures contents == if 0 <= i < size then old(contents)[i := val] else old(contents)
    {
      if i < 0 || i >= size {
        return -1;
      }
      if !IsSet(to[..], from[..], top, i) {
        ghost var t, f, n := to[..], from[..], top;
        RoomForOne(t, f, n, size, i);
        from[i] := top;
        to[top] := i;
        top := top + 1;
        assert to[..] == t[n := i] && from[..] == f[i := n];
        forall x | 0 <= x < size ensures IsSet(to[..], from[..], top, x) <==> x == i || IsSet(t, f, n, x) {
          SetCells(t, f, n, size, i, x);
        }
        SetCells(t, f, n, size, i, i);
      }
      vec[i] := val;
      contents := contents[i := val];
      code := 0;
    }

    /** tm_intCIV_get: the last value set, or else the initial value. */
    method Get(i: int) returns (val: int)
      requires Valid()
      ensures val == if !(0 <= i < size) then -1 else if i in contents then contents[i] else init
    {
      if i < 0 || i >= size {
        return -1;
      }
      if IsSet(to[..], from[..], top, i) {
        return vec[i];
      }
      return init;
    }
  }
}
