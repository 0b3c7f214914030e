/**
  The tree of kpartition_build_level_topology: each level partitions its vertices, its
  communication matrix and its constraints over the children.  Whatever the random choices,
  the leaves carry the given vertices, the real ones only at leaves whose number is allowed.
*/
module PartitionTree {
  import opened KPartModel
  import opened GreedyPartition
  import opened KPartFill
  import opened Arity

  datatype Tree = Leaf(id: int) | Node(kids: seq<Tree>)

  /** The ids of the leaves from left to right. */
  ghost function Leaves(t: Tree): seq<int>
    decreases t
  {
    match t
    case Leaf(id) => [id]
    case Node(kids) => AllLeaves(kids)
  }

  ghost function AllLeaves(kids: seq<Tree>): seq<int>
    decreases kids
  {
    if kids == [] then [] else AllLeaves(kids[..|kids|-1]) + Leaves(kids[|kids|-1])
  }

  /** Every inner node has as many children as the arity of its level says, and all leaves are at the bottom. */
  ghost predicate HasArity(t: Tree, arity: seq<nat>)
    decreases t
  {
    match t
    case Leaf(_) => arity == []
    case Node(kids) => arity != [] && |kids| == arity[0] && AllHaveArity(kids, arity[1..])
  }

  ghost predicate AllHaveArity(kids: seq<Tree>, arity: seq<nat>)
    decreases kids
  {
    kids == [] || (AllHaveArity(kids[..|kids|-1], arity) && HasArity(kids[|kids|-1], arity))
  }

  /** depth_first */
  method DepthFirst(t: Tree) returns (list: seq<int>)
    ensures list == Leaves(t)
    decreases t
  {
    match t
    case Leaf(id) => list := [id];
    case Node(kids) =>
      list := [];
      for j := 0 to |kids|
        invariant list == AllLeaves(kids[..j])
      {
        var sub := DepthFirst(kids[j]);
        list := list + sub;
        assert kids[..j+1][..j] == kids[..j];
      }
      assert kids[..|kids|] == kids;
  }

  // ----- splitting the vertices -----

  /** The vertices of part p, in order. */
  ghost function Filter(v: seq<int>, part: seq<int>, p: int): (r: seq<int>)
    requires |v| == |part|
  {
    if v == [] then [] else
      Filter(v[..|v|-1], part[..|v|-1], p) + (if part[|v|-1] == p then [v[|v|-1]] else [])
  }

  lemma {:induction false} FilterSize(v: seq<int>, part: seq<int>, p: int)
    requires |v| == |part|
    ensures |Filter(v, part, p)| == Count(part, 0, |part|, p)
  {
    if v != [] {
      var l := |v| - 1;
      FilterSize(v[..l], part[..l], p);
      CountKept(part[..l], part, 0, l, p);
    }
  }

  /** Real vertices come first. */
  ghost predicate RealFirst(v: seq<int>, r: nat) {
    r <= |v| && forall j :: 0 <= j < |v| ==> (v[j] != -1 <==> j < r)
  }

  lemma {:induction false} FilterRealFirst(v: seq<int>, part: seq<int>, p: int, r: nat)
    requires |v| == |part| && RealFirst(v, r)
    ensures RealFirst(Filter(v, part, p), Count(part, 0, r, p))
  {
    if v != [] {
      var l := |v| - 1;
      if r <= l {
        FilterRealFirst(v[..l], part[..l], p, r);
        CountKept(part[..l], part, 0, r, p);
      } else {
        FilterRealFirst(v[..l], part[..l], p, l);
        CountKept(part[..l], part, 0, l, p);
        FilterSize(v[..l], part[..l], p);
      }
    }
  }

  ghost function Gathered(v: seq<int>, part: seq<int>, k: nat): seq<int>
    requires |v| == |part|
  {
    if k == 0 then [] else Gathered(v, part, k - 1) + Filter(v, part, k - 1)
  }

  lemma {:induction false} GatherOne(v: seq<int>, part: seq<int>, k: nat)
    requires |v| == |part| && v != []
    ensures var l := |v| - 1;
            var rest := multiset(Gathered(v[..l], part[..l], k));
            multiset(Gathered(v, part, k)) == rest + (if 0 <= part[l] < k then multiset{v[l]} else multiset{})
  {
    if k != 0 {
      GatherOne(v, part, k - 1);
    }
  }

  /** The parts together hold every vertex exactly once. */
  lemma {:induction false} GatherAll(v: seq<int>, part: seq<int>, k: nat)
    requires |v| == |part| && forall i :: 0 <= i < |part| ==> 0 <= part[i] < k
    ensures multiset(Gathered(v, part, k)) == multiset(v)
  {
    if v == [] {
      GatherNone(k);
    } else {
      var l := |v| - 1;
      GatherOne(v, part, k);
      GatherAll(v[..l], part[..l], k);
      assert v == v[..l] + [v[l]];
    }
  }

  lemma {:induction false} GatherNone(k: nat)
    ensures Gathered([], [], k) == []
  {
    if k != 0 {
      GatherNone(k - 1);
    }
  }

  /** split_vertices, one part */
  method SplitVertices(v: seq<int>, part: seq<int>, p: int) returns (sub: seq<int>)
    requires |v| == |part|
    ensures sub == Filter(v, part, p)
  {
    sub := [];
    for j := 0 to |v|
      invariant sub == Filter(v[..j], part[..j], p)
    {
      assert v[..j+1][..j] == v[..j] && part[..j+1][..j] == part[..j];
      if part[j] == p {
        sub := sub + [v[j]];
      }
    }
    assert v[..|v|] == v && part[..|v|] == part;
  }

  // ----- splitting the matrix -----

  ghost function Indices(n: nat): seq<int> {
    seq(n, i => i)
  }

  lemma {:induction false} FilterIndices(n: nat, part: seq<int>, p: int, i: nat)
    requires |part| == n && i < |Filter(Indices(n), part, p)|
    ensures 0 <= Filter(Indices(n), part, p)[i] < n
  {
    assert Indices(n)[..n-1] == Indices(n - 1);
    if i < |Filter(Indices(n - 1), part[..n-1], p)| {
      FilterIndices(n - 1, part[..n-1], p, i);
    }
  }

  /** The matrix of the vertices in perm, the upper triangle copied to the lower one. */
  ghost function Sub(com: seq<seq<int>>, perm: seq<int>): (sub: seq<seq<int>>)
    requires Weights(com) && forall i :: 0 <= i < |perm| ==> 0 <= perm[i] < |com|
    ensures |sub| == |perm| && forall i :: 0 <= i < |sub| ==> |sub[i]| == |sub|
    ensures forall i, j :: 0 <= i <= j < |sub| ==> sub[i][j] == sub[j][i] == com[perm[i]][perm[j]]
  {
    seq(|perm|, i requires 0 <= i < |perm| => seq(|perm|, j requires 0 <= j < |perm| =>
      if i <= j then com[perm[i]][perm[j]] else com[perm[j]][perm[i]]))
  }

  lemma SubWeights(com: seq<seq<int>>, perm: seq<int>)
    requires Weights(com) && forall i :: 0 <= i < |perm| ==> 0 <= perm[i] < |com|
    ensures Weights(Sub(com, perm))
  {
    var sub := Sub(com, perm);
    forall i, j | 0 <= i < |sub| && 0 <= j < |sub| ensures sub[i][j] >= 0 {
      if i <= j {
        assert sub[i][j] == com[perm[i]][perm[j]];
      } else {
        assert sub[i][j] == com[perm[j]][perm[i]];
      }
    }
  }

  /** The indices of the real vertices in part p. */
  ghost function Members(com: seq<seq<int>>, part: seq<int>, p: int): (perm: seq<int>)
    requires |com| <= |part|
    ensures forall i :: 0 <= i < |perm| ==> 0 <= perm[i] < |com|
  {
    var perm := Filter(Indices(|com|), part[..|com|], p);
    assert forall i :: 0 <= i < |perm| ==> 0 <= perm[i] < |com| by {
      forall i | 0 <= i < |perm| ensures 0 <= perm[i] < |com| { FilterIndices(|com|, part[..|com|], p, i); }
    }
    perm
  }

  /** The upper triangle of the part's matrix has been copied, up to entry (i, j). */
  ghost predicate Copied(sub: seq<seq<int>>, full: seq<seq<int>>, i: nat, j: nat) {
    && |sub| == |full| && (forall a :: 0 <= a < |sub| ==> |sub[a]| == |full[a]| == |sub|)
    && (forall a, b :: 0 <= a <= b < |sub| && (a < i || (a == i && b < j)) ==> SameEntries(sub, full, a, b))
  }

  ghost predicate SameEntries(sub: seq<seq<int>>, full: seq<seq<int>>, a: nat, b: nat)
    requires a < |sub| == |full| && b < |sub| && |sub[a]| == |full[a]| == |sub[b]| == |full[b]| == |sub|
  {
    sub[a][b] == full[a][b] && sub[b][a] == full[b][a]
  }

  /** split_com_mat, one part */
  method SplitMatrix(com: seq<seq<int>>, part: seq<int>, p: int) returns (sub: seq<seq<int>>)
    requires |com| <= |part| && Weights(com)
    ensures sub == Sub(com, Members(com, part, p)) && Weights(sub)
  {
    var n := |com|;
    var perm := SplitVertices(seq(n, i => i), part[..n], p);
    assert perm == Members(com, part, p);
    ghost var full := Sub(com, perm);
    SubWeights(com, perm);
    hide Members, Filter, Sub;
    var s := |perm|;
    sub := seq(s, _ => seq(s, _ => 0));
    for i := 0 to s
      invariant Copied(sub, full, i, i)
    {
      for j := i to s
        invariant Copied(sub, full, i, j)
      {
        CopyEntry(sub, full, i, j, com[perm[i]][perm[j]]);
        sub := sub[i := sub[i][j := com[perm[i]][perm[j]]]];
        sub := sub[j := sub[j][i := sub[i][j]]];
      }
    }
    AllCopied(sub, full);
  }

  lemma CopyEntry(sub: seq<seq<int>>, full: seq<seq<int>>, i: nat, j: nat, w: int)
    requires Copied(sub, full, i, j) && i <= j < |sub| && full[i][j] == full[j][i] == w
    ensures var once := sub[i := sub[i][j := w]];
            Copied(once[j := once[j][i := once[i][j]]], full, i, j + 1)
  {
    var once := sub[i := sub[i][j := w]];
    var twice := once[j := once[j][i := once[i][j]]];
    forall a, b | 0 <= a <= b < |sub| && (a < i || (a == i && b < j + 1)) ensures SameEntries(twice, full, a, b) {
      if !(a == i && b == j) { assert SameEntries(sub, full, a, b); }
    }
  }

  lemma AllCopied(sub: seq<seq<int>>, full: seq<seq<int>>)
    requires Copied(sub, full, |sub|, |sub|)
    ensures sub == full
  {
    forall a | 0 <= a < |sub| ensures sub[a] == full[a] {
      forall b | 0 <= b < |sub| ensures sub[a][b] == full[a][b] {
        assert a <= b ==> SameEntries(sub, full, a, b);
        assert b <= a ==> SameEntries(sub, full, b, a);
      }
    }
  }

  // ----- splitting the constraints -----

  /** tm_fill_tab: the constraints from start on that are below max, shifted. */
  method FillTab(c: seq<int>, start: nat, max: int, shift: int) returns (sub: seq<int>, end: nat)
    requires start <= |c| && forall i :: 0 <= i < start ==> c[i] < max
    ensures start <= end <= |c| && (forall i :: 0 <= i < end ==> c[i] < max) && (end < |c| ==> c[end] >= max)
    ensures |sub| == end - start && forall i :: 0 <= i < |sub| ==> sub[i] == c[start + i] - shift
  {
    if c == [] {
      return [], 0;
    }
    end := start;
    while end < |c| && c[end] < max
      invariant start <= end <= |c| && forall i :: 0 <= i < end ==> c[i] < max
    {
      end := end + 1;
    }
    sub := [];
    for i := start to end
      invariant |sub| == i - start && forall x :: 0 <= x < |sub| ==> sub[x] == c[start + x] - shift
    {
      sub := sub + [c[i] - shift];
    }
  }

  // ----- the tree -----

  ghost predicate Fits(leaves: seq<int>, v: seq<int>, c: seq<int>) {
    && |leaves| == |v| && multiset(leaves) == multiset(v)
    && forall l :: 0 <= l < |leaves| && leaves[l] != -1 ==> l in c
  }

  /** What a level hands to the builder: real vertices first, no more of them than constraints. */
  ghost predicate Level(com: seq<seq<int>>, v: seq<int>, c: seq<int>) {
    && RealFirst(v, |com|) && |com| <= |c| && Weights(com)
    && Increasing(c) && forall i :: 0 <= i < |c| ==> 0 <= c[i] < |v|
  }

  /** The constraints of block p, counted from the start of the block. */
  ghost function Share(c: seq<int>, p: nat, cap: nat): (cs: seq<int>) {
    var a, b := Below(c, p * cap), Below(c, p * cap + cap);
    if a <= b then Shifted(c[a..b], p * cap) else []
  }

  ghost function Shifted(s: seq<int>, shift: int): (r: seq<int>)
    ensures |r| == |s| && forall i :: 0 <= i < |s| ==> r[i] == s[i] - shift
  {
    seq(|s|, i requires 0 <= i < |s| => s[i] - shift)
  }

  lemma ShareIs(c: seq<int>, p: nat, cap: nat)
    requires Increasing(c)
    ensures var cs := Share(c, p, cap);
            && |cs| == InBlock(c, cap, p) && Increasing(cs) && (forall i :: 0 <= i < |cs| ==> 0 <= cs[i] < cap)
            && forall l :: l in cs ==> l + p * cap in c
  {
    BlockFits(c, p * cap, cap);
    var cs := Share(c, p, cap);
    var a := Below(c, p * cap);
    forall i | 0 <= i < |cs| ensures 0 <= cs[i] < cap {
      assert c[a + i] >= c[a];
      assert a + i < Below(c, p * cap + cap);
    }
  }

  lemma PartReals(com: seq<seq<int>>, v: seq<int>, c: seq<int>, part: seq<int>, k: nat, cap: nat, p: nat)
    requires Level(com, v, c) && Balanced(part, c, |v|, k, cap) && p < k
    ensures var r := Count(part, 0, |com|, p);
            && |Filter(v, part, p)| == cap && RealFirst(Filter(v, part, p), r) && r <= InBlock(c, cap, p)
            && |Filter(Indices(|com|), part[..|com|], p)| == r
  {
    FilterSize(v, part, p);
    FilterRealFirst(v, part, p, |com|);
    CountSplit(part, 0, |com|, |c|, p);
    FilterSize(Indices(|com|), part[..|com|], p);
    CountKept(part[..|com|], part, 0, |com|, p);
  }

  /** Each child gets a level of its own. */
  lemma SubLevel(com: seq<seq<int>>, v: seq<int>, c: seq<int>, part: seq<int>, k: nat, cap: nat, p: nat,
                 mat: seq<seq<int>>)
    requires Level(com, v, c) && Balanced(part, c, |v|, k, cap) && p < k && |com| <= |part|
    requires mat == Sub(com, Members(com, part, p)) && Weights(mat)
    ensures Level(mat, Filter(v, part, p), Share(c, p, cap)) && |Filter(v, part, p)| == cap
  {
    PartReals(com, v, c, part, k, cap, p);
    ShareIs(c, p, cap);
  }

  /** The leaves of the first i children. */
  ghost predicate Grown(leaves: seq<int>, v: seq<int>, part: seq<int>, c: seq<int>, base: int, i: nat)
    requires |v| == |part|
  {
    && |leaves| == base && multiset(leaves) == multiset(Gathered(v, part, i))
    && forall l :: 0 <= l < |leaves| && leaves[l] != -1 ==> l in c
  }

  /** Real leaves of a child are at allowed numbers, counted from the start of its block. */
  lemma GrowLeaf(kid: seq<int>, vs: seq<int>, c: seq<int>, cap: nat, i: nat, base: int, l: int)
    requires Increasing(c) && Fits(kid, vs, Share(c, i, cap)) && base == i * cap
    requires 0 <= l - base < |kid| && kid[l - base] != -1
    ensures l in c
  {
    ShareIs(c, i, cap);
  }

  lemma Grow(leaves: seq<int>, kid: seq<int>, v: seq<int>, part: seq<int>, c: seq<int>, cap: nat, i: nat, base: int)
    requires |v| == |part| && base == i * cap && Grown(leaves, v, part, c, base, i) && Increasing(c)
    requires |Filter(v, part, i)| == cap && Fits(kid, Filter(v, part, i), Share(c, i, cap))
    ensures Grown(leaves + kid, v, part, c, base + cap, i + 1)
  {
    hide Increasing, Share, Filter;
    forall l | 0 <= l < |leaves + kid| && (leaves + kid)[l] != -1 ensures l in c {
      if l >= |leaves| {
        GrowLeaf(kid, Filter(v, part, i), c, cap, i, base, l);
      }
    }
  }

  // ----- what the tree is -----

  /** The random vertices of all trials, for every node of a tree. */
  datatype Draws = Draws(here: seq<seq<int>>, below: seq<Draws>)

  /** The draws hit free vertices, at every node below the one with constraints c. */
  ghost predicate DrawsFor(draws: Draws, arity: seq<nat>, c: seq<int>)
    decreases |arity|
  {
    arity == [] ||
    (var n, k := Product(arity), arity[0];
     && k > 0 && |draws.here| == MAX_TRIALS && |draws.below| == k
     && (forall x :: 0 <= x < MAX_TRIALS ==> DrawnFor(draws.here[x], c, n, k, n / k))
     && (forall i :: 0 <= i < k ==> DrawsFor(draws.below[i], arity[1..], Share(c, i, n / k))))
  }

  /**
    The tree for matrix com, vertices v and constraints c: the vertices of a node go to its
    children by the partition that kpartition_greedy chooses for its matrix, and each child is the
    tree of its vertices, with its part of the matrix and its constraints.
  */
  ghost predicate TreeOf(t: Tree, arity: seq<nat>, com: seq<seq<int>>, v: seq<int>, c: seq<int>, draws: Draws)
    decreases t, 1
  {
    match t
    case Leaf(id) => arity == [] && v == [id]
    case Node(kids) =>
      && arity != [] && arity[0] == |kids| == |draws.below|
      && exists part :: Chosen(part, com, c, |v|, arity[0], draws.here) && Split(t, part, arity, com, v, c, draws)
  }

  ghost predicate Split(t: Tree, part: seq<int>, arity: seq<nat>, com: seq<seq<int>>, v: seq<int>, c: seq<int>,
                        draws: Draws)
    requires t.Node? && arity != [] && |t.kids| == arity[0] == |draws.below| && |part| == |v| && |com| <= |v|
    requires Weights(com) && arity[0] > 0
    decreases t, 0
  {
    forall i :: 0 <= i < arity[0] ==>
      TreeOf(t.kids[i], arity[1..], Sub(com, Members(com, part, i)), Filter(v, part, i),
             Share(c, i, |v| / arity[0]), draws.below[i])
  }

  /** The i-th child of a node with partition part. */
  ghost predicate Child(kid: Tree, part: seq<int>, arity: seq<nat>, com: seq<seq<int>>, v: seq<int>, c: seq<int>,
                        draws: Draws, i: nat) {
    && arity != [] && i < arity[0] == |draws.below| && |part| == |v| && |com| <= |v| && Weights(com)
    && TreeOf(kid, arity[1..], Sub(com, Members(com, part, i)), Filter(v, part, i),
              Share(c, i, |v| / arity[0]), draws.below[i])
  }

  lemma ChildOf(kid: Tree, part: seq<int>, arity: seq<nat>, com: seq<seq<int>>, v: seq<int>, c: seq<int>,
                draws: Draws, i: nat)
    requires arity != [] && i < arity[0] == |draws.below| && |part| == |v| && |com| <= |v| && Weights(com)
    requires TreeOf(kid, arity[1..], Sub(com, Members(com, part, i)), Filter(v, part, i),
                    Share(c, i, |v| / arity[0]), draws.below[i])
    ensures Child(kid, part, arity, com, v, c, draws, i)
  {
  }

  lemma NodeOf(t: Tree, part: seq<int>, arity: seq<nat>, com: seq<seq<int>>, v: seq<int>, c: seq<int>, draws: Draws)
    requires t.Node? && arity != [] && |t.kids| == arity[0] == |draws.below|
    requires Chosen(part, com, c, |v|, arity[0], draws.here)
    requires forall x :: 0 <= x < arity[0] ==> Child(t.kids[x], part, arity, com, v, c, draws, x)
    ensures TreeOf(t, arity, com, v, c, draws)
  {
    assert Split(t, part, arity, com, v, c, draws);
  }

  lemma LeafOf(v: seq<int>, com: seq<seq<int>>, c: seq<int>, draws: Draws)
    requires |v| == 1
    ensures TreeOf(Leaf(v[0]), [], com, v, c, draws)
  {
  }

  lemma DrawsHere(draws: Draws, arity: seq<nat>, c: seq<int>)
    requires DrawsFor(draws, arity, c) && arity != []
    ensures var n, k := Product(arity), arity[0];
            && k > 0 && |draws.here| == MAX_TRIALS && |draws.below| == k
            && forall x :: 0 <= x < MAX_TRIALS ==> DrawnFor(draws.here[x], c, n, k, n / k)
  {
  }

  lemma DrawsBelow(draws: Draws, arity: seq<nat>, c: seq<int>, i: nat)
    requires DrawsFor(draws, arity, c) && arity != [] && i < arity[0]
    ensures i < |draws.below| && DrawsFor(draws.below[i], arity[1..], Share(c, i, Product(arity) / arity[0]))
  {
  }

  /** Matrix, vertices, constraints and draws determine the tree. */
  lemma {:induction false} TreeIsUnique(t: Tree, t': Tree, arity: seq<nat>, com: seq<seq<int>>, v: seq<int>,
                                        c: seq<int>, draws: Draws)
    requires TreeOf(t, arity, com, v, c, draws) && TreeOf(t', arity, com, v, c, draws)
    ensures t == t'
    decreases t
  {
    hide Chosen, Sub, Members, Filter, Share, Weights;
    if t.Node? {
      var part := ChoiceOf(t, arity, com, v, c, draws);
      var part' := ChoiceOf(t', arity, com, v, c, draws);
      ChoiceIsUnique(part, part', com, c, |v|, arity[0], draws.here);
      forall i | 0 <= i < |t.kids| ensures t.kids[i] == t'.kids[i] {
        assert Child(t.kids[i], part, arity, com, v, c, draws, i);
        assert Child(t'.kids[i], part, arity, com, v, c, draws, i);
        TreeIsUnique(t.kids[i], t'.kids[i], arity[1..], Sub(com, Members(com, part, i)), Filter(v, part, i),
                     Share(c, i, |v| / arity[0]), draws.below[i]);
      }
      assert t.kids == t'.kids;
    }
  }

  lemma ChoiceOf(t: Tree, arity: seq<nat>, com: seq<seq<int>>, v: seq<int>, c: seq<int>, draws: Draws)
    returns (part: seq<int>)
    requires t.Node? && TreeOf(t, arity, com, v, c, draws)
    ensures arity != [] && |t.kids| == arity[0] && Chosen(part, com, c, |v|, arity[0], draws.here)
    ensures forall i :: 0 <= i < |t.kids| ==> Child(t.kids[i], part, arity, com, v, c, draws, i)
  {
    part :| Chosen(part, com, c, |v|, arity[0], draws.here) && Split(t, part, arity, com, v, c, draws);
    hide TreeOf, Sub, Members, Filter, Share;
  }

  /** Draws for the trials at every node. */
  method DrawTree(arity: seq<nat>, c: seq<int>) returns (draws: Draws)
    requires (forall i :: 0 <= i < |arity| ==> arity[i] > 0) && Increasing(c)
    requires forall i :: 0 <= i < |c| ==> 0 <= c[i] < Product(arity)
    ensures DrawsFor(draws, arity, c)
    decreases |arity|
  {
    hide Below, Increasing, DrawnFor, Share, Product, DrawsFor;
    if arity == [] {
      NoDraws(c);
      return Draws([], []);
    }
    var k, n := arity[0], Product(arity);
    var cap := n / k;
    Shares(arity, n);
    var here := DrawAll(n, k, c);
    var below: seq<Draws> := [];
    var start := 0;
    BelowZero(c, n);
    for i := 0 to k
      invariant |below| == i && start == Below(c, i * cap)
      invariant forall x :: 0 <= x < i ==> DrawsFor(below[x], arity[1..], Share(c, x, cap))
    {
      NextBlock(i, k, cap);
      BelowFacts(c, i * cap);
      var cs, end := FillTab(c, start, (i + 1) * cap, i * cap);
      ShareOf(cs, c, i, cap, end);
      ShareIs(c, i, cap);
      var draw := DrawTree(arity[1..], cs);
      below := below + [draw];
      start := end;
    }
    draws := Draws(here, below);
    DrawsAre(draws, arity, c);
  }

  lemma NoDraws(c: seq<int>)
    ensures DrawsFor(Draws([], []), [], c)
  {
  }

  lemma DrawsAre(draws: Draws, arity: seq<nat>, c: seq<int>)
    requires arity != [] && arity[0] > 0 && |draws.here| == MAX_TRIALS && |draws.below| == arity[0]
    requires var n, k := Product(arity), arity[0];
             && (forall x :: 0 <= x < MAX_TRIALS ==> DrawnFor(draws.here[x], c, n, k, n / k))
             && (forall i :: 0 <= i < k ==> DrawsFor(draws.below[i], arity[1..], Share(c, i, n / k)))
    ensures DrawsFor(draws, arity, c)
  {
  }

  /** kpartition_build_level_topology with the random vertices of its trials. */
  method Build(arity: seq<nat>, com: seq<seq<int>>, v: seq<int>, c: seq<int>, draws: Draws) returns (t: Tree)
    requires (forall i :: 0 <= i < |arity| ==> arity[i] > 0) && |v| == Product(arity) && Level(com, v, c)
    requires DrawsFor(draws, arity, c)
    ensures Fits(Leaves(t), v, c) && HasArity(t, arity) && TreeOf(t, arity, com, v, c, draws)
    decreases |arity|
  {
    hide Weights, Below, Count, Filter, Increasing, Balanced, RealFirst, Grown, Product, Fits, Chosen, Sub, Share,
      Members, TreeOf, DrawsFor, Child;
    if arity == [] {
      LastLevel(arity, com, v, c);
      t := Leaf(v[0]);
      LeafOf(v, com, c, draws);
      return;
    }
    var k, n := arity[0], |v|;
    var cap := n / k;
    Shares(arity, n);
    ComFits(com, v);
    DrawsHere(draws, arity, c);
    var part := Greedy(k, com, n, c, draws.here);
    BalancedLengths(part, c, n, k, cap);
    var kids: seq<Tree> := [];
    var start := 0;
    BelowZero(c, n);
    GrownNone(v, part, c);
    for i := 0 to k
      invariant Grown(AllLeaves(kids), v, part, c, i * cap, i) && start == Below(c, i * cap)
      invariant |kids| == i && AllHaveArity(kids, arity[1..])
      invariant forall x :: 0 <= x < i ==> Child(kids[x], part, arity, com, v, c, draws, x)
    {
      NextBlock(i, k, cap);
      BelowFacts(c, i * cap);
      var vs := SplitVertices(v, part, i);
      var mat := SplitMatrix(com, part, i);
      var cs, end := FillTab(c, start, (i + 1) * cap, i * cap);
      ShareOf(cs, c, i, cap, end);
      SubLevel(com, v, c, part, k, cap, i, mat);
      DrawsBelow(draws, arity, c, i);
      var kid := Build(arity[1..], mat, vs, cs, draws.below[i]);
      Grow(AllLeaves(kids), Leaves(kid), v, part, c, cap, i, i * cap);
      ChildOf(kid, part, arity, com, v, c, draws, i);
      assert (kids + [kid])[..|kids|] == kids;
      kids := kids + [kid];
      start := end;
    }
    t := Node(kids);
    NodeOf(t, part, arity, com, v, c, draws);
    GrownAll(AllLeaves(kids), v, part, c, cap, k);
  }

  lemma LastLevel(arity: seq<nat>, com: seq<seq<int>>, v: seq<int>, c: seq<int>)
    requires Level(com, v, c) && arity == [] && |v| == Product(arity)
    ensures |v| == 1 && Fits([v[0]], v, c)
  {
    assert v == [v[0]];
    if v[0] != -1 { assert c[0] == 0; }
  }

  lemma Shares(arity: seq<nat>, n: nat)
    requires arity != [] && arity[0] > 0 && n == Product(arity)
    ensures n % arity[0] == 0 && n / arity[0] == Product(arity[1..]) && n == arity[0] * (n / arity[0])
  {
    MultipleOf(arity[0], Product(arity[1..]));
  }

  lemma MultipleOf(k: nat, x: nat)
    requires k > 0
    ensures (k * x) % k == 0 && (k * x) / k == x
  {
    var q := (k * x) / k;
    assert k * x == k * q + (k * x) % k;
    SmallMultiple(k, x - q);
  }

  lemma SmallMultiple(k: nat, d: int)
    requires 0 <= k * d < k
    ensures d == 0
  {
  }

  lemma ComFits(com: seq<seq<int>>, v: seq<int>)
    requires RealFirst(v, |com|)
    ensures |com| <= |v|
  {
  }

  lemma BalancedLengths(part: seq<int>, c: seq<int>, n: nat, k: nat, cap: nat)
    requires Balanced(part, c, n, k, cap)
    ensures |part| == n && |c| <= n
  {
  }

  lemma BelowZero(c: seq<int>, n: nat)
    requires forall i :: 0 <= i < |c| ==> 0 <= c[i] < n
    ensures Below(c, 0) == 0 && forall cap: nat :: 0 * cap == 0
  {
  }

  lemma BelowFacts(c: seq<int>, v: int)
    ensures forall i :: 0 <= i < Below(c, v) ==> c[i] < v
  {
  }

  lemma GrownNone(v: seq<int>, part: seq<int>, c: seq<int>)
    requires |v| == |part|
    ensures Grown([], v, part, c, 0, 0)
  {
  }

  lemma GrownAll(leaves: seq<int>, v: seq<int>, part: seq<int>, c: seq<int>, cap: nat, k: nat)
    requires |v| == |part| == k * cap && Grown(leaves, v, part, c, k * cap, k) && Balanced(part, c, |v|, k, cap)
    ensures Fits(leaves, v, c)
  {
    GatherAll(v, part, k);
  }

  lemma ShareOf(cs: seq<int>, c: seq<int>, p: nat, cap: nat, end: nat)
    requires Increasing(c) && end <= |c| && (forall i :: 0 <= i < end ==> c[i] < p * cap + cap)
    requires end < |c| ==> c[end] >= p * cap + cap
    requires var a := Below(c, p * cap);
             a <= end && |cs| == end - a && forall i :: 0 <= i < |cs| ==> cs[i] == c[a + i] - p * cap
    ensures cs == Share(c, p, cap) && end == Below(c, p * cap + cap)
  {
    hide Below, Increasing, Shifted;
    BelowIs(c, p * cap + cap, end);
    assert cs == Shifted(c[Below(c, p * cap)..end], p * cap);
  }
}
