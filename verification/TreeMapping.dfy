/**
  From allowed cores to a mapping: oversubscription repeats each core's id, the constraints
  are expanded to slots, the tree of PartitionTree is built over the slots, and its leaves
  are read off as the mapping of processes to cores.
*/
module TreeMapping {
  import opened Collections
  import opened Sorting
  import opened KPartModel
  import opened KPartFill
  import opened GreedyPartition
  import opened PartitionTree
  import opened Arity

  // ----- slots: f for each of n places -----

  function Slots(n: nat, f: nat): nat { n * f }

  function Slot(i: nat, r: nat, f: nat): nat { i * f + r }

  function Place(j: nat, f: nat): nat
    requires f > 0
  {
    j / f
  }

  function Offset(j: nat, f: nat): (r: nat)
    requires f > 0
    ensures r < f
  {
    j % f
  }

  lemma SlotOf(j: nat, f: nat, n: nat)
    requires f > 0 && j < Slots(n, f)
    ensures Place(j, f) < n && j == Slot(Place(j, f), Offset(j, f), f)
  {
    InRange(j, f, n);
  }

  lemma SlotIs(i: nat, r: nat, f: nat, n: nat)
    requires r < f && i < n
    ensures Place(Slot(i, r, f), f) == i && Offset(Slot(i, r, f), f) == r && Slot(i, r, f) < Slots(n, f)
  {
    Spread(i, n - i - 1, f);
    var j := i * f + r;
    assert j == f * (j / f) + j % f;
    assert f * (i - j / f) == j % f - r;
    SmallDifference(f, i - j / f, j % f - r);
  }

  lemma SmallDifference(k: int, d: int, e: int)
    requires k * d == e && -k < e < k
    ensures d == 0
  {
    if d > 0 {
      SmallMultiple(k, d);
    }
  }

  lemma SlotOrder(i: nat, r: nat, i': nat, r': nat, f: nat)
    requires r < f && r' < f
    ensures Slot(i, r, f) <= Slot(i', r', f) <==> i < i' || (i == i' && r <= r')
  {
    if i < i' {
      Spread(i, i' - i - 1, f);
    } else if i' < i {
      Spread(i', i - i' - 1, f);
    }
  }

  lemma EnoughSlots(n: nat, f: nat)
    requires f > 0
    ensures n <= Slots(n, f)
  {
  }

  // ----- oversubscription -----

  /** node_id is a numbering of the cores. */
  ghost predicate Numbering(nodeId: seq<nat>) {
    && (forall i :: 0 <= i < |nodeId| ==> nodeId[i] < |nodeId|)
    && (forall i, j :: 0 <= i < j < |nodeId| ==> nodeId[i] != nodeId[j])
  }

  /** Slot j belongs to the core at its place. */
  ghost predicate SlotIds(id: seq<nat>, nodeId: seq<nat>, f: nat, n: nat)
    requires f > 0
  {
    n <= |id| && forall j :: 0 <= j < n ==> Place(j, f) < |nodeId| && id[j] == nodeId[Place(j, f)]
  }

  /** The rank of a core is its last slot below n. */
  ghost predicate LastSlots(rank: seq<nat>, nodeId: seq<nat>, f: nat, n: nat)
    requires f > 0 && Numbering(nodeId) && |nodeId| <= |rank|
  {
    forall x :: 0 <= x < n ==> Place(x, f) < |nodeId| && LastSlot(rank[nodeId[Place(x, f)]], f, n, x)
  }

  ghost predicate LastSlot(r: nat, f: nat, n: nat, x: nat)
    requires f > 0
  {
    x <= r < n && Place(r, f) == Place(x, f)
  }

  /** tm_enable_oversubscribing on the ids and ranks: every core has f consecutive slots, and its rank is the last. */
  method Oversubscribe(nodeId: seq<nat>, f: nat) returns (id: seq<nat>, rank: seq<nat>)
    requires f > 0 && Numbering(nodeId)
    ensures |id| == |rank| == Slots(|nodeId|, f) && SlotIds(id, nodeId, f, |id|)
    ensures forall i :: 0 <= i < |nodeId| ==> nodeId[i] < |rank| && rank[nodeId[i]] == Slot(i, f - 1, f)
  {
    hide Place, Slots, Slot, Offset;
    var n := Slots(|nodeId|, f);
    EnoughSlots(|nodeId|, f);
    id := seq(n, _ => 0);
    rank := seq(n, _ => 0);
    for j := 0 to n
      invariant |id| == n && |rank| == n && SlotIds(id, nodeId, f, j) && LastSlots(rank, nodeId, f, j)
    {
      SlotOf(j, f, |nodeId|);
      var core := nodeId[Place(j, f)];
      id := id[j := core];
      rank := rank[core := j];
    }
    forall i | 0 <= i < |nodeId| ensures rank[nodeId[i]] == Slot(i, f - 1, f) {
      SlotIs(i, f - 1, f, |nodeId|);
      assert LastSlot(rank[nodeId[i]], f, n, Slot(i, f - 1, f));
      SlotOf(rank[nodeId[i]], f, |nodeId|);
      SlotOrder(i, f - 1, i, Offset(rank[nodeId[i]], f), f);
    }
  }

  // ----- constraints -----

  ghost predicate Sorted(s: seq<int>) {
    forall i, j :: 0 <= i < j < |s| ==> s[i] <= s[j]
  }

  /** qsort with tm_int_cmp_inc. */
  method Sort(s: seq<int>) returns (t: seq<int>)
    ensures Sorted(t) && multiset(t) == multiset(s)
  {
    t := SortBy(s, (a: int, b: int) => a <= b);
  }

  lemma SortedDistinct(s: seq<int>, t: seq<int>)
    requires Sorted(t) && multiset(t) == multiset(s) && NoDup(s)
    ensures Increasing(t) && |t| == |s| && forall x :: x in t <==> x in s
  {
    assert |multiset(t)| == |multiset(s)|;
    SameElements(t, s);
    StaysDistinct(s, t);
  }

  ghost predicate Cores(c: seq<nat>, nodeId: seq<nat>) {
    && (forall i :: 0 <= i < |c| ==> c[i] in nodeId)
    && (forall i, j :: 0 <= i < j < |c| ==> c[i] != c[j])
  }

  /** The slots of the allowed cores. */
  ghost predicate Allowed(slots: seq<int>, c: seq<nat>, nodeId: seq<nat>, f: nat)
    requires f > 0
  {
    && Increasing(slots) && |slots| == Slots(|c|, f)
    && (forall x :: x in slots ==> 0 <= x < Slots(|nodeId|, f) && Place(x, f) < |nodeId| && nodeId[Place(x, f)] in c)
    && (forall x :: 0 <= x < Slots(|nodeId|, f) && Place(x, f) < |nodeId| && nodeId[Place(x, f)] in c ==> x in slots)
  }

  /** The allowed cores determine the slots. */
  lemma {:induction false} AllowedIsUnique(a: seq<int>, b: seq<int>)
    requires Increasing(a) && Increasing(b) && forall x :: x in a <==> x in b
    ensures a == b
  {
    if b != [] { assert b[0] in b; }
    if a != [] {
      assert a[0] in a && a[0] in b && b[0] in b && b[0] in a;
      assert a[0] == b[0];
      forall x ensures x in a[1..] <==> x in b[1..] {
        assert x in a[1..] ==> x in b && x != b[0];
        assert x in b[1..] ==> x in a && x != a[0];
      }
      AllowedIsUnique(a[1..], b[1..]);
    }
  }

  /** check_constraints: the allowed cores become exactly their slots, in order. */
  method Expand(rank: seq<nat>, c: seq<nat>, ghost nodeId: seq<nat>, f: nat) returns (slots: seq<int>)
    requires f > 0 && Numbering(nodeId) && Cores(c, nodeId)
    requires forall i :: 0 <= i < |nodeId| ==> nodeId[i] < |rank| && rank[nodeId[i]] == Slot(i, f - 1, f)
    ensures Allowed(slots, c, nodeId, f)
  {
    hide Place, Slots, Slot, Offset;
    slots := [];
    var sorted, last := true, -1;
    for i := 0 to Slots(|c|, f)
      invariant |slots| == i && forall x :: 0 <= x < i ==> Expanded(slots[x], c, nodeId, f, x)
      invariant sorted ==> Sorted(slots) && forall x :: 0 <= x < i ==> slots[x] <= last
    {
      SlotOf(i, f, |c|);
      ExpandOne(rank, c, nodeId, f, i);
      var shift := 1 + Offset(i, f) - f;
      var slot := rank[c[Place(i, f)]] + shift;
      slots := slots + [slot];
      if slot < last { sorted := false; }
      last := slot;
    }
    ghost var all := slots;
    if !sorted {
      slots := Sort(slots);
    }
    ExpandedDistinct(all, c, nodeId, f);
    SortedDistinct(all, slots);
    ExpandedAllowed(all, slots, c, nodeId, f);
  }

  /** The x-th expanded constraint: offset x % f of the core that constraint x / f names. */
  ghost predicate Expanded(slot: int, c: seq<nat>, nodeId: seq<nat>, f: nat, x: nat)
    requires f > 0
  {
    && 0 <= slot < Slots(|nodeId|, f) && Place(x, f) < |c| && Place(slot, f) < |nodeId|
    && nodeId[Place(slot, f)] == c[Place(x, f)] && Offset(slot, f) == Offset(x, f)
  }

  lemma ExpandOne(rank: seq<nat>, c: seq<nat>, nodeId: seq<nat>, f: nat, i: nat)
    requires f > 0 && Numbering(nodeId) && Cores(c, nodeId) && Place(i, f) < |c|
    requires forall i :: 0 <= i < |nodeId| ==> nodeId[i] < |rank| && rank[nodeId[i]] == Slot(i, f - 1, f)
    ensures c[Place(i, f)] < |rank| && Expanded(rank[c[Place(i, f)]] + 1 + Offset(i, f) - f, c, nodeId, f, i)
  {
    hide Place, Slots, Offset;
    assert c[Place(i, f)] in nodeId;
    var p :| 0 <= p < |nodeId| && nodeId[p] == c[Place(i, f)];
    SlotIs(p, Offset(i, f), f, |nodeId|);
    assert Slot(p, f - 1, f) + 1 + Offset(i, f) - f == Slot(p, Offset(i, f), f);
  }

  lemma ExpandedDistinct(s: seq<int>, c: seq<nat>, nodeId: seq<nat>, f: nat)
    requires f > 0 && Numbering(nodeId) && Cores(c, nodeId) && |s| == Slots(|c|, f)
    requires forall x :: 0 <= x < |s| ==> Expanded(s[x], c, nodeId, f, x)
    ensures forall x, y :: 0 <= x < y < |s| ==> s[x] != s[y]
  {
    hide Place, Slots, Slot, Offset;
    forall x, y | 0 <= x < y < |s| ensures s[x] != s[y] {
      assert Expanded(s[x], c, nodeId, f, x) && Expanded(s[y], c, nodeId, f, y);
      SlotOf(x, f, |c|);
      SlotOf(y, f, |c|);
    }
  }

  lemma ExpandedAllowed(s: seq<int>, slots: seq<int>, c: seq<nat>, nodeId: seq<nat>, f: nat)
    requires f > 0 && Numbering(nodeId) && Cores(c, nodeId) && |s| == Slots(|c|, f) == |slots|
    requires forall x :: 0 <= x < |s| ==> Expanded(s[x], c, nodeId, f, x)
    requires Increasing(slots) && forall x :: x in slots <==> x in s
    ensures Allowed(slots, c, nodeId, f)
  {
    hide Place, Slots, Slot, Offset, Increasing;
    forall x | x in slots ensures 0 <= x < Slots(|nodeId|, f) && Place(x, f) < |nodeId| && nodeId[Place(x, f)] in c {
      var i :| 0 <= i < |s| && s[i] == x;
      assert Expanded(s[i], c, nodeId, f, i);
    }
    forall x | 0 <= x < Slots(|nodeId|, f) && Place(x, f) < |nodeId| && nodeId[Place(x, f)] in c ensures x in slots {
      var i :| 0 <= i < |c| && c[i] == nodeId[Place(x, f)];
      var y := Slot(i, Offset(x, f), f);
      SlotIs(i, Offset(x, f), f, |c|);
      assert Expanded(s[y], c, nodeId, f, y);
      SlotOf(s[y], f, |nodeId|);
      SlotOf(x, f, |nodeId|);
      assert s[y] == x;
    }
  }

  // ----- reading the mapping off the leaves -----

  /** The processes on a core, among the first i slots. */
  ghost function Tasks(list: seq<int>, id: seq<nat>, np: nat, core: nat, i: nat): (r: seq<int>)
    requires i <= |list| && i <= |id|
    ensures forall x :: x in r ==> 0 <= x < np
  {
    if i == 0 then [] else
      Tasks(list, id, np, core, i - 1) + (if id[i-1] == core && 0 <= list[i-1] < np then [list[i-1]] else [])
  }

  lemma {:induction false} TasksFit(list: seq<int>, id: seq<nat>, np: nat, core: nat, i: nat)
    requires i <= |list| && i <= |id|
    ensures |Tasks(list, id, np, core, i)| <= Count(id, 0, i, core)
  {
    if i != 0 {
      TasksFit(list, id, np, core, i - 1);
    }
  }

  lemma {:induction false} TaskIn(list: seq<int>, id: seq<nat>, np: nat, core: nat, i: nat, q: int)
    requires i <= |list| && i <= |id|
    ensures q in Tasks(list, id, np, core, i) <==>
              exists x :: 0 <= x < i && list[x] == q && id[x] == core && 0 <= q < np
  {
    if i != 0 {
      TaskIn(list, id, np, core, i - 1, q);
      if q in Tasks(list, id, np, core, i) && q !in Tasks(list, id, np, core, i - 1) {
        assert list[i-1] == q && id[i-1] == core;
      }
    }
  }

  /** A core has f slots. */
  lemma {:induction false} CoreSlots(id: seq<nat>, nodeId: seq<nat>, f: nat, core: nat, n: nat)
    requires f > 0 && Numbering(nodeId) && SlotIds(id, nodeId, f, |id|) && n <= |nodeId| && Slots(n, f) <= |id|
    ensures Count(id, 0, Slots(n, f), core) == if core in nodeId[..n] then f else 0
  {
    if n == 0 {
      assert Slots(0, f) == 0;
    } else {
      var lo, hi := Slots(n - 1, f), Slots(n, f);
      assert hi == lo + f by { Spread(n - 1, 0, f); }
      forall j | lo <= j < hi ensures id[j] == nodeId[n-1] {
        assert j == Slot(n - 1, j - lo, f);
        SlotIs(n - 1, j - lo, f, n);
      }
      CoreSlots(id, nodeId, f, core, n - 1);
      CountSplit(id, 0, lo, hi, core);
      assert nodeId[..n] == nodeId[..n-1] + [nodeId[n-1]];
      if nodeId[n-1] == core {
        CountAll(id, lo, hi, core);
      } else {
        CountZero(id, lo, hi, core);
      }
    }
  }

  /** A row of k: the processes of the core, then -1. */
  ghost predicate Filled(row: seq<int>, tasks: seq<int>, f: nat) {
    && |row| == f && |tasks| <= f && row[..|tasks|] == tasks
    && (forall i :: |tasks| <= i < f ==> row[i] == -1) && (forall x :: x in tasks ==> x >= 0)
  }

  lemma FirstFree(row: seq<int>, tasks: seq<int>, f: nat)
    requires Filled(row, tasks, f)
    ensures forall i :: 0 <= i < f ==> (row[i] == -1 <==> i >= |tasks|)
  {
    forall i | 0 <= i < |tasks| ensures row[i] != -1 {
      assert row[i] == tasks[i];
      assert tasks[i] in tasks;
    }
  }

  /** set_val: there is always a free cell. */
  method SetVal(row: seq<int>, val: int, f: nat, ghost tasks: seq<int>) returns (res: seq<int>)
    requires Filled(row, tasks, f) && |tasks| < f && val >= 0
    ensures Filled(res, tasks + [val], f)
  {
    var i := 0;
    FirstFree(row, tasks, f);
    while row[i] != -1
      invariant 0 <= i <= |tasks|
      decreases f - i
    {
      i := i + 1;
    }
    res := row[i := val];
    assert res[..i+1] == tasks + [val];
  }

  ghost predicate DistinctTasks(list: seq<int>, np: nat) {
    forall x, y :: 0 <= x < y < |list| && 0 <= list[x] < np ==> list[x] != list[y]
  }

  ghost predicate Mapped(sigma: seq<int>, k: seq<seq<int>>, list: seq<int>, id: seq<nat>, np: nat, cores: nat, f: nat,
                         i: nat)
    requires i <= |list| && i <= |id|
  {
    && |sigma| == np && |k| == cores
    && (forall x :: 0 <= x < i && 0 <= list[x] < np ==> sigma[list[x]] == id[x])
    && (forall core :: 0 <= core < cores ==> Filled(k[core], Tasks(list, id, np, core, i), f))
  }

  /** tm_map_topology on the list of leaves. */
  method MapTopology(nodeId: seq<nat>, id: seq<nat>, list: seq<int>, np: nat, f: nat)
    returns (sigma: seq<int>, k: seq<seq<int>>)
    requires f > 0 && Numbering(nodeId) && |id| == Slots(|nodeId|, f) == |list| > 0 && SlotIds(id, nodeId, f, |id|)
    requires (forall x :: 0 <= x < |list| ==> list[x] >= -1) && DistinctTasks(list, np)
    ensures Mapped(sigma, k, list, id, np, |nodeId|, f, |list|)
  {
    hide Place, Slots, Count, Tasks;
    var block := |list| / |id|;
    sigma := seq(np, _ => -1);
    k := seq(|nodeId|, _ => seq(f, _ => -1));
    MappedNone(sigma, k, list, id, np, |nodeId|, f);
    for i := 0 to |list|
      invariant Mapped(sigma, k, list, id, np, |nodeId|, f, i)
    {
      assert i / block == i;
      IdIsCore(id, nodeId, f, i);
      if list[i] != -1 && list[i] < np {
        var core := id[i / block];
        TasksRoom(list, id, nodeId, np, f, i);
        MappedNext(sigma, k, list, id, np, |nodeId|, f, i);
        var row := SetVal(k[core], list[i], f, Tasks(list, id, np, core, i));
        sigma := sigma[list[i] := core];
        k := k[core := row];
      } else {
        MappedSkip(sigma, k, list, id, np, |nodeId|, f, i);
      }
    }
  }

  lemma MappedNone(sigma: seq<int>, k: seq<seq<int>>, list: seq<int>, id: seq<nat>, np: nat, cores: nat, f: nat)
    requires |sigma| == np && |k| == cores && forall core :: 0 <= core < cores ==> k[core] == seq(f, _ => -1)
    ensures Mapped(sigma, k, list, id, np, cores, f, 0)
  {
  }

  lemma IdIsCore(id: seq<nat>, nodeId: seq<nat>, f: nat, i: nat)
    requires f > 0 && Numbering(nodeId) && SlotIds(id, nodeId, f, |id|) && i < |id|
    ensures id[i] < |nodeId|
  {
  }

  /** The slots of a core are as many as its row has cells, so the i-th finds a free one. */
  lemma TasksRoom(list: seq<int>, id: seq<nat>, nodeId: seq<nat>, np: nat, f: nat, i: nat)
    requires f > 0 && Numbering(nodeId) && SlotIds(id, nodeId, f, |id|) && |id| == Slots(|nodeId|, f) == |list|
    requires i < |list|
    ensures |Tasks(list, id, np, id[i], i)| < f
  {
    hide SlotIds, Numbering;
    TasksFit(list, id, np, id[i], i);
    CoreSlots(id, nodeId, f, id[i], |nodeId|);
    CountSplit(id, 0, i + 1, |id|, id[i]);
  }

  lemma MappedSkip(sigma: seq<int>, k: seq<seq<int>>, list: seq<int>, id: seq<nat>, np: nat, cores: nat, f: nat, i: nat)
    requires i < |list| == |id| && Mapped(sigma, k, list, id, np, cores, f, i) && !(0 <= list[i] < np)
    ensures Mapped(sigma, k, list, id, np, cores, f, i + 1)
  {
    hide Filled;
    forall core | 0 <= core < cores ensures Tasks(list, id, np, core, i + 1) == Tasks(list, id, np, core, i) {
    }
  }

  lemma MappedNext(sigma: seq<int>, k: seq<seq<int>>, list: seq<int>, id: seq<nat>, np: nat, cores: nat, f: nat, i: nat)
    requires i < |list| == |id| && Mapped(sigma, k, list, id, np, cores, f, i) && 0 <= list[i] < np && id[i] < cores
    requires DistinctTasks(list, np)
    ensures forall row :: Filled(row, Tasks(list, id, np, id[i], i) + [list[i]], f) ==>
              Mapped(sigma[list[i] := id[i]], k[id[i] := row], list, id, np, cores, f, i + 1)
  {
    hide Filled;
    forall core | 0 <= core < cores && core != id[i] ensures Tasks(list, id, np, core, i + 1) ==
      Tasks(list, id, np, core, i) {
    }
  }

  // ----- the whole pipeline -----

  /** The vertices of the root level: the processes, then -1. */
  function Vertices(np: nat, n: nat): (v: seq<int>)
    requires np <= n
    ensures |v| == n && RealFirst(v, np)
  {
    seq(n, i => if i < np then i else -1)
  }

  /** Each process is a vertex exactly once. */
  lemma {:induction false} VerticesOnce(np: nat, n: nat, q: int)
    requires np <= n && q >= 0
    ensures multiset(Vertices(np, n))[q] == if q < np then 1 else 0
  {
    if n == 0 {
      assert Vertices(np, n) == [];
    } else {
      var np' := if np == n then np - 1 else np;
      VerticesOnce(np', n - 1, q);
      assert Vertices(np, n) == Vertices(np', n - 1) + [if np == n then n - 1 else -1];
    }
  }

  lemma LeavesDistinct(leaves: seq<int>, np: nat, n: nat)
    requires np <= n && multiset(leaves) == multiset(Vertices(np, n))
    ensures (forall x :: 0 <= x < |leaves| ==> -1 <= leaves[x] < np) && DistinctTasks(leaves, np)
    ensures forall q :: 0 <= q < np ==> q in leaves
  {
    forall x | 0 <= x < |leaves| ensures -1 <= leaves[x] < np {
      assert leaves[x] in multiset(Vertices(np, n));
    }
    forall x, y | 0 <= x < y < |leaves| && 0 <= leaves[x] < np ensures leaves[x] != leaves[y] {
      VerticesOnce(np, n, leaves[x]);
      assert leaves == leaves[..y] + leaves[y..];
      assert leaves[x] in leaves[..y] && leaves[y] in leaves[y..];
    }
    forall q | 0 <= q < np ensures q in leaves {
      VerticesOnce(np, n, q);
      assert q in multiset(leaves);
    }
  }

  /** Every process is on an allowed core, and k and sigma describe the same relation. */
  ghost predicate Mapping(sigma: seq<int>, k: seq<seq<int>>, np: nat, c: seq<nat>, cores: nat, f: nat) {
    && |sigma| == np && |k| == cores && (forall q :: 0 <= q < np ==> sigma[q] in c && 0 <= sigma[q] < cores)
    && (forall core :: 0 <= core < cores ==> |k[core]| == f)
    && (forall core, q :: 0 <= core < cores && 0 <= q < np ==> (q in k[core] <==> sigma[q] == core))
  }

  lemma MappedAllowed(sigma: seq<int>, k: seq<seq<int>>, leaves: seq<int>, id: seq<nat>, nodeId: seq<nat>,
                      np: nat, f: nat, c: seq<nat>, slots: seq<int>)
    requires f > 0 && Numbering(nodeId) && SlotIds(id, nodeId, f, |id|) && |leaves| == |id| == Slots(|nodeId|, f)
    requires Mapped(sigma, k, leaves, id, np, |nodeId|, f, |leaves|) && Allowed(slots, c, nodeId, f)
    requires (forall q :: 0 <= q < np ==> q in leaves)
    requires (forall l :: 0 <= l < |leaves| && leaves[l] != -1 ==> l in slots)
    ensures Mapping(sigma, k, np, c, |nodeId|, f)
  {
    hide Place, Slots, Tasks, Increasing;
    forall q | 0 <= q < np ensures sigma[q] in c && 0 <= sigma[q] < |nodeId| {
      assert q in leaves;
      var l :| 0 <= l < |leaves| && leaves[l] == q;
      assert l in slots && sigma[leaves[l]] == id[l];
    }
    forall core, q | 0 <= core < |nodeId| && 0 <= q < np ensures q in k[core] <==> sigma[q] == core {
      MappedBoth(sigma, k, leaves, id, np, |nodeId|, f, core, q);
    }
  }

  lemma MappedBoth(sigma: seq<int>, k: seq<seq<int>>, leaves: seq<int>, id: seq<nat>, np: nat, cores: nat, f: nat,
                   core: nat, q: nat)
    requires |leaves| == |id| && Mapped(sigma, k, leaves, id, np, cores, f, |leaves|) && core < cores && q < np
    requires q in leaves
    ensures q in k[core] <==> sigma[q] == core
  {
    hide Tasks;
    var tasks := Tasks(leaves, id, np, core, |leaves|);
    assert Filled(k[core], tasks, f);
    TaskIn(leaves, id, np, core, |leaves|, q);
    assert k[core] == tasks + k[core][|tasks|..];
    assert q in k[core] <==> q in tasks;
    var l :| 0 <= l < |leaves| && leaves[l] == q;
    assert sigma[leaves[l]] == id[l];
  }

  /** Process q at leaf l is on the core of slot l. */
  ghost predicate Seated(sigma: seq<int>, leaves: seq<int>, nodeId: seq<nat>, f: nat) {
    && f > 0
    && forall l :: 0 <= l < |leaves| && leaves[l] != -1 ==>
         0 <= leaves[l] < |sigma| && Place(l, f) < |nodeId| && sigma[leaves[l]] == nodeId[Place(l, f)]
  }

  lemma MappedSeats(sigma: seq<int>, k: seq<seq<int>>, leaves: seq<int>, id: seq<nat>, nodeId: seq<nat>, np: nat,
                    f: nat)
    requires f > 0 && SlotIds(id, nodeId, f, |id|) && |leaves| == |id| == Slots(|nodeId|, f)
    requires Mapped(sigma, k, leaves, id, np, |nodeId|, f, |leaves|)
    requires forall l :: 0 <= l < |leaves| && leaves[l] != -1 ==> 0 <= leaves[l] < np
    ensures Seated(sigma, leaves, nodeId, f)
  {
    hide Place, Slots, Tasks;
  }

  /**
    Topology, constraints and communication to a mapping, with any oversubscription factor and any
    random choices.  The processes sit at the leaves of the one tree that comes of the draws.
  */
  method MapProcesses(arity: seq<nat>, nodeId: seq<nat>, f: nat, c: seq<nat>, com: seq<seq<int>>, draws: Draws)
    returns (sigma: seq<int>, k: seq<seq<int>>, ghost t: Tree, ghost slots: seq<int>)
    requires (forall i :: 0 <= i < |arity| ==> arity[i] > 0) && Product(arity) == Slots(|nodeId|, f) > 0 && f > 0
    requires Numbering(nodeId) && Cores(c, nodeId) && Weights(com) && |com| <= Slots(|c|, f)
    requires forall s :: Allowed(s, c, nodeId, f) ==> DrawsFor(draws, arity, s)
    ensures Mapping(sigma, k, |com|, c, |nodeId|, f)
    ensures Allowed(slots, c, nodeId, f) && |com| <= Product(arity)
    ensures TreeOf(t, arity, com, Vertices(|com|, Product(arity)), slots, draws)
    ensures Seated(sigma, Leaves(t), nodeId, f)
  {
    hide Place, Slots, Slot, Increasing, Weights, Count, TreeOf, Product, DrawsFor, Leaves, HasArity;
    var id, rank := Oversubscribe(nodeId, f);
    var expanded := Expand(rank, c, nodeId, f);
    slots := expanded;
    var np, n := |com|, |id|;
    SlotsInRange(slots, c, nodeId, f);
    var v := Vertices(np, n);
    var tree := Build(arity, com, v, expanded, draws);
    t := tree;
    var list := DepthFirst(tree);
    LeavesDistinct(list, np, n);
    sigma, k := MapTopology(nodeId, id, list, np, f);
    MappedAllowed(sigma, k, list, id, nodeId, np, f, c, slots);
    MappedSeats(sigma, k, list, id, nodeId, np, f);
  }

  lemma SlotsInRange(slots: seq<int>, c: seq<nat>, nodeId: seq<nat>, f: nat)
    requires f > 0 && Allowed(slots, c, nodeId, f)
    ensures |slots| == Slots(|c|, f) <= Slots(|nodeId|, f)
    ensures forall i :: 0 <= i < |slots| ==> 0 <= slots[i] < Slots(|nodeId|, f)
  {
    forall i | 0 <= i < |slots| ensures 0 <= slots[i] < Slots(|nodeId|, f) {
      assert slots[i] in slots;
    }
    ConstraintsFit(slots, Slots(|nodeId|, f));
  }
}
