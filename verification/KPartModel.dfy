/**
  What the k-way partitioner of k-partitioning.c is about: a partition vector, the weight
  from a vertex into each part, the cost of a partition, and priority queues seen as maps
  from values to keys (module PriorityQueues refines that view).
*/
module KPartModel {
  import opened Collections

  // ----- queues as maps -----

  /** The largest key of a queue, 0 for an empty one. */
  ghost function MaxKey(m: map<int, int>): (r: int)
    ensures m == map[] ==> r == 0
    ensures m != map[] ==> exists v :: v in m && m[v] == r
    ensures forall v :: v in m ==> m[v] <= r
  {
    if m == map[] then 0 else
      assert m.Keys != {};
      var v := Pick(m.Keys);
      var rest := m - {v};
      assert forall w :: w in m ==> w == v || w in rest;
      if rest == map[] || m[v] > MaxKey(rest) then m[v] else MaxKey(rest)
  }

  /** The map with a new key for v, if v is queued. */
  function Rekey(m: map<int, int>, v: int, key: int): map<int, int> {
    if v in m then m[v := key] else m
  }

  // ----- sums over the vertices -----

  /** The weight from a vertex, given by its row, into part p, over the first n vertices. */
  ghost function Into(row: seq<int>, part: seq<int>, n: nat, p: int): int
    requires n <= |row| && n <= |part|
  {
    if n == 0 then 0 else Into(row, part, n - 1, p) + (if part[n-1] == p then row[n-1] else 0)
  }

  /** The number of vertices of part p among those from lo to hi. */
  ghost function Count(part: seq<int>, lo: nat, hi: nat, p: int): nat
    requires lo <= hi <= |part|
  {
    if hi == lo then 0 else Count(part, lo, hi - 1, p) + (if part[hi-1] == p then 1 else 0)
  }

  ghost predicate Symmetric(m: seq<seq<int>>, n: nat) {
    && n <= |m| && (forall i :: 0 <= i < n ==> n <= |m[i]|)
    && forall i, j :: 0 <= i < n && 0 <= j < n ==> m[i][j] == m[j][i] >= 0
  }

  /** Moving u into another part only changes the sums of the two parts. */
  lemma {:induction false} IntoMove(row: seq<int>, part: seq<int>, n: nat, u: nat, j: int, p: int)
    requires n <= |row| && n <= |part| && u < |part| && j != part[u]
    ensures Into(row, part[u := j], n, p) ==
            Into(row, part, n, p) + (if u < n && p == j then row[u] else 0) - (if u < n && p == part[u] then row[u]
              else 0)
  {
    if n != 0 {
      IntoMove(row, part, n - 1, u, j, p);
    }
  }

  lemma {:induction false} IntoNonNegative(row: seq<int>, part: seq<int>, n: nat, p: int)
    requires n <= |row| && n <= |part| && forall j :: 0 <= j < n ==> row[j] >= 0
    ensures Into(row, part, n, p) >= 0
  {
    if n != 0 {
      IntoNonNegative(row, part, n - 1, p);
    }
  }

  lemma {:induction false} CountMove(part: seq<int>, lo: nat, hi: nat, u: nat, j: int, p: int)
    requires lo <= hi <= |part| && u < |part| && j != part[u]
    ensures Count(part[u := j], lo, hi, p) ==
            Count(part, lo, hi, p) + (if lo <= u < hi && p == j then 1 else 0) - (if lo <= u < hi && p == part[u] then 1
              else 0)
  {
    if hi != lo {
      CountMove(part, lo, hi - 1, u, j, p);
    }
  }

  lemma {:induction false} CountFinds(part: seq<int>, lo: nat, hi: nat, p: int) returns (u: nat)
    requires lo <= hi <= |part| && Count(part, lo, hi, p) > 0
    ensures lo <= u < hi && part[u] == p
  {
    if part[hi - 1] == p {
      u := hi - 1;
    } else {
      u := CountFinds(part, lo, hi - 1, p);
    }
  }

  lemma {:induction false} CountKept(a: seq<int>, b: seq<int>, lo: nat, hi: nat, p: int)
    requires lo <= hi <= |a| && hi <= |b| && forall i :: lo <= i < hi ==> a[i] == b[i]
    ensures Count(a, lo, hi, p) == Count(b, lo, hi, p)
  {
    if hi != lo {
      CountKept(a, b, lo, hi - 1, p);
    }
  }

  lemma {:induction false} CountSplit(part: seq<int>, lo: nat, mid: nat, hi: nat, p: int)
    requires lo <= mid <= hi <= |part|
    ensures Count(part, lo, hi, p) == Count(part, lo, mid, p) + Count(part, mid, hi, p)
  {
    if hi != mid {
      CountSplit(part, lo, mid, hi - 1, p);
    }
  }

  // ----- the cost of a partition -----

  /** The weight from vertex i to the vertices from lo on that are in other parts. */
  ghost function CutRow(row: seq<int>, part: seq<int>, lo: nat, n: nat, p: int): int
    requires lo <= n <= |row| && n <= |part|
  {
    if n == lo then 0 else CutRow(row, part, lo, n - 1, p) + (if p != part[n-1] then row[n-1] else 0)
  }

  /** eval_cost2, first i rows: the weight of the edges between different parts. */
  ghost function Cut(m: seq<seq<int>>, part: seq<int>, n: nat, i: nat): int
    requires i <= n <= |m| && n <= |part| && forall r :: 0 <= r < n ==> n <= |m[r]|
  {
    if i == 0 then 0 else Cut(m, part, n, i - 1) + CutRow(m[i-1], part, i, n, part[i-1])
  }

  /** Two candidate parts for the same vertex: the row costs differ by the weights into them. */
  lemma {:induction false} CutRowInto(row: seq<int>, part: seq<int>, lo: nat, n: nat, p: int, q: int)
    requires lo <= n <= |row| && n <= |part|
    ensures CutRow(row, part, lo, n, p) + Into(row, part, n, p) - Into(row, part, lo, p)
            == CutRow(row, part, lo, n, q) + Into(row, part, n, q) - Into(row, part, lo, q)
  {
    if n != lo {
      CutRowInto(row, part, lo, n - 1, p, q);
    }
  }

  lemma {:induction false} CutRowMove(row: seq<int>, part: seq<int>, lo: nat, n: nat, p: int, u: nat, j: int)
    requires lo <= n <= |row| && n <= |part| && u < |part| && j != part[u]
    ensures CutRow(row, part[u := j], lo, n, p) == CutRow(row, part, lo, n, p)
            + (if lo <= u < n && p == part[u] then row[u] else 0) - (if lo <= u < n && p == j then row[u] else 0)
  {
    if n != lo {
      CutRowMove(row, part, lo, n - 1, p, u, j);
    }
  }

  lemma {:induction false} CutMoveRows(m: seq<seq<int>>, part: seq<int>, n: nat, i: nat, u: nat, j: int)
    requires i <= n <= |part| && Symmetric(m, n) && u < n && j != part[u]
    ensures i <= u ==>
              Cut(m, part[u := j], n, i) - Cut(m, part, n, i) == Into(m[u], part, i, part[u]) - Into(m[u], part, i, j)
    ensures i > u ==>
              Cut(m, part[u := j], n, i) - Cut(m, part, n, i) ==
                Into(m[u], part, n, part[u]) - m[u][u] - Into(m[u], part, n, j)
  {
    if i != 0 {
      CutMoveRows(m, part, n, i - 1, u, j);
      var r, part' := i - 1, part[u := j];
      CutRowMove(m[r], part, i, n, part'[r], u, j);
      if r == u {
        CutRowInto(m[u], part, i, n, part[u], j);
      }
    }
  }

  /** Moving u from part p to part j lowers the cut by the weight into j minus the weight into the rest of p. */
  lemma CutMove(m: seq<seq<int>>, part: seq<int>, n: nat, u: nat, j: int)
    requires n <= |part| && Symmetric(m, n) && u < n && j != part[u]
    ensures Cut(m, part[u := j], n, n) == Cut(m, part, n, n)
              + Into(m[u], part, n, part[u]) - m[u][u] - Into(m[u], part, n, j)
  {
    CutMoveRows(m, part, n, n, u, j);
  }
}
