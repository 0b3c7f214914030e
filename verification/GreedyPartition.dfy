/**
  kpartition_greedy: the dumb vertices are placed so that each part keeps as many other
  vertices as it has constraints; a random vertex seeds each part that has room; the rest
  follow the heaviest communication.  For every draw the outcome is balanced and unique, and
  the partition returned is the cheapest of the outcomes of all trials.
*/
module GreedyPartition {
  import opened KPartModel
  import opened KPartFill

  /** The number of leading constraints below v: of a sorted list, all constraints below v. */
  ghost function Below(c: seq<int>, v: int): (r: nat)
    ensures r <= |c| && (forall i :: 0 <= i < r ==> c[i] < v) && (r < |c| ==> c[r] >= v)
  {
    if c == [] || c[0] >= v then 0 else 1 + Below(c[1..], v)
  }

  ghost predicate Increasing(c: seq<int>) {
    forall i, j :: 0 <= i < j < |c| ==> c[i] < c[j]
  }

  lemma BelowIs(c: seq<int>, v: int, e: nat)
    requires Increasing(c) && e <= |c| && (forall i :: 0 <= i < e ==> c[i] < v) && (e < |c| ==> c[e] >= v)
    ensures Below(c, v) == e
  {
  }

  /** Distinct integers in order are at least as far apart as their places. */
  lemma {:induction false} Apart(c: seq<int>, a: nat, b: nat)
    requires Increasing(c) && a <= b < |c|
    ensures c[b] - c[a] >= b - a
  {
    if a < b {
      Apart(c, a, b - 1);
    }
  }

  /** At most cap of the constraints lie in one block of cap values. */
  lemma BlockFits(c: seq<int>, lo: int, cap: nat)
    requires Increasing(c)
    ensures 0 <= Below(c, lo + cap) - Below(c, lo) <= cap
  {
    var a, b := Below(c, lo), Below(c, lo + cap);
    if b < a {
      assert false;
    }
    if a < b {
      Apart(c, a, b - 1);
    }
  }

  /** The number of constraints of part p. */
  ghost function InBlock(c: seq<int>, cap: nat, p: int): int {
    Below(c, p * cap + cap) - Below(c, p * cap)
  }

  // ----- partial partitions -----

  /** -1 stands for a vertex without a part. */
  ghost predicate Partial(part: seq<int>, size: seq<int>, n: nat, k: nat, cap: nat) {
    && |part| == n && |size| == k && Sum(size) == n - Count(part, 0, n, -1)
    && (forall i :: 0 <= i < n ==> -1 <= part[i] < k)
    && (forall p :: 0 <= p < k ==> size[p] == Count(part, 0, n, p) <= cap)
  }

  lemma Assign(part: seq<int>, size: seq<int>, n: nat, k: nat, cap: nat, u: nat, p: nat)
    requires Partial(part, size, n, k, cap) && u < n && part[u] == -1 && p < k && size[p] < cap
    ensures Partial(part[u := p], size[p := size[p] + 1], n, k, cap)
  {
    hide Count, Sum;
    SumAdd(size, p, 1);
    CountMove(part, 0, n, u, p, -1);
    var part', size' := part[u := p], size[p := size[p] + 1];
    forall x | 0 <= x < k ensures size'[x] == Count(part', 0, n, x) <= cap {
      assert size[x] == Count(part, 0, n, x);
      CountMove(part, 0, n, u, p, x);
    }
  }

  /** A part with room means a vertex without a part. */
  lemma RoomLeft(part: seq<int>, size: seq<int>, n: nat, k: nat, cap: nat, p: nat) returns (u: nat)
    requires Partial(part, size, n, k, cap) && n == k * cap && p < k && size[p] < cap
    ensures u < n && part[u] == -1
  {
    SumBound(size, cap);
    u := CountFinds(part, 0, n, -1);
  }

  /** A vertex without a part means a part with room. */
  lemma PartLeft(part: seq<int>, size: seq<int>, n: nat, k: nat, cap: nat, u: nat) returns (p: nat)
    requires Partial(part, size, n, k, cap) && n == k * cap && u < n && part[u] == -1
    ensures p < k && size[p] < cap
  {
    CountSplit(part, 0, u, n, -1);
    CountSplit(part, u, u + 1, n, -1);
    p := Room(size, cap);
  }

  lemma {:induction false} CountZero(part: seq<int>, lo: nat, hi: nat, p: int)
    requires lo <= hi <= |part| && forall i :: lo <= i < hi ==> part[i] != p
    ensures Count(part, lo, hi, p) == 0
  {
    if lo != hi {
      CountZero(part, lo, hi - 1, p);
    }
  }

  lemma {:induction false} CountAll(part: seq<int>, lo: nat, hi: nat, p: int)
    requires lo <= hi <= |part| && forall i :: lo <= i < hi ==> part[i] == p
    ensures Count(part, lo, hi, p) == hi - lo
  {
    if lo != hi {
      CountAll(part, lo, hi - 1, p);
    }
  }

  /** No part is empty while it has room. */
  ghost predicate Seeded(part: seq<int>, size: seq<int>, k: nat, cap: nat)
    requires |size| == k
  {
    forall p :: 0 <= p < k && size[p] < cap ==> p in part
  }

  // ----- the dumb vertices -----

  /** The parts below i have their dumb vertices, taken from the end of the vector. */
  ghost predicate Dumbed(part: seq<int>, size: seq<int>, c: seq<int>, n: nat, k: nat, cap: nat, i: nat, top: nat) {
    && Partial(part, size, n, k, cap) && i <= k && top <= n && i * cap - Below(c, i * cap) == n - top
    && (forall x :: 0 <= x < n ==> (part[x] == -1 <==> x < top))
    && (forall p :: 0 <= p < k ==> size[p] == if p < i then cap - InBlock(c, cap, p) else 0)
  }

  /** The number of dumb vertices in the parts below p. */
  ghost function Dumbs(c: seq<int>, cap: nat, p: nat): int {
    if c == [] then 0 else p * cap - Below(c, p * cap)
  }

  /** Dumb vertices have the highest indices, those of part 0 the very highest. */
  ghost predicate IsDumb(c: seq<int>, cap: nat, n: nat, p: nat, x: int) {
    n - Dumbs(c, cap, p + 1) <= x < n - Dumbs(c, cap, p)
  }

  /** Of the parts below i exactly the dumb vertices are placed. */
  ghost predicate DumbsAre(part: seq<int>, c: seq<int>, n: nat, cap: nat, i: nat) {
    && |part| == n && (forall x :: 0 <= x < n ==> -1 <= part[x] < i)
    && (forall x, p: nat :: 0 <= x < n && p < i ==> (part[x] == p <==> IsDumb(c, cap, n, p, x)))
  }

  lemma DumbsNext(part: seq<int>, part': seq<int>, c: seq<int>, n: nat, cap: nat, i: nat)
    requires DumbsAre(part, c, n, cap, i) && |part'| == n
    requires forall x :: 0 <= x < n && IsDumb(c, cap, n, i, x) ==> part[x] == -1
    requires forall x :: 0 <= x < n ==> part'[x] == if IsDumb(c, cap, n, i, x) then i else part[x]
    ensures DumbsAre(part', c, n, cap, i + 1)
  {
    hide IsDumb;
    forall x, p: nat | 0 <= x < n && p < i + 1 ensures part'[x] == p <==> IsDumb(c, cap, n, p, x) {
      if p < i { assert part[x] == p <==> IsDumb(c, cap, n, p, x); }
    }
  }

  /** Where a trial starts is determined by the constraints. */
  lemma StartIsUnique(a: seq<int>, b: seq<int>, c: seq<int>, n: nat, k: nat, cap: nat)
    requires DumbsAre(a, c, n, cap, k) && DumbsAre(b, c, n, cap, k)
    ensures a == b
  {
    hide IsDumb;
    forall x | 0 <= x < n ensures a[x] == b[x] {
      if a[x] >= 0 {
        assert IsDumb(c, cap, n, a[x], x);
      } else if b[x] >= 0 {
        assert IsDumb(c, cap, n, b[x], x);
      }
    }
  }

  lemma NextBlock(i: nat, k: nat, cap: nat)
    requires i < k
    ensures (i + 1) * cap == i * cap + cap <= k * cap
  {
    Spread(i, k - i - 1, cap);
  }

  /** Once all parts have their dumb vertices, the vertices below the number of constraints are still free. */
  lemma DumbsDone(part: seq<int>, size: seq<int>, c: seq<int>, n: nat, k: nat, cap: nat, top: nat)
    requires Dumbed(part, size, c, n, k, cap, k, top) && n == k * cap && (forall i :: 0 <= i < |c| ==> c[i] < n)
    ensures top == |c| && FreeBelow(part, size, c, n, k, cap)
  {
    forall p | 0 <= p < k ensures Count(part, |c|, n, p) == cap - InBlock(c, cap, p) {
      CountZero(part, 0, top, p);
      CountSplit(part, 0, top, n, p);
    }
  }

  /** The first |c| vertices have no part, and part p has cap minus its number of constraints among the others. */
  ghost predicate FreeBelow(part: seq<int>, size: seq<int>, c: seq<int>, n: nat, k: nat, cap: nat) {
    && Partial(part, size, n, k, cap) && |c| <= n
    && (forall x :: 0 <= x < n ==> (part[x] == -1 <==> x < |c|))
    && (forall p :: 0 <= p < k ==> Count(part, |c|, n, p) == cap - InBlock(c, cap, p))
  }

  /** One dumb vertex. */
  lemma DumbStep(part: seq<int>, size: seq<int>, n: nat, k: nat, cap: nat, i: nat, top: nat, j: nat)
    requires 0 < top <= n && i < k && j < cap && |size| == k && Partial(part, size[i := j], n, k, cap)
    requires forall x :: 0 <= x < top ==> part[x] == -1
    ensures Partial(part[top - 1 := i], size[i := j + 1], n, k, cap)
  {
    Assign(part, size[i := j], n, k, cap, top - 1, i);
    assert size[i := j][i := j + 1] == size[i := j + 1];
  }

  method PlaceDumbPart(part0: seq<int>, size0: seq<int>, ghost c: seq<int>, n: nat, k: nat, cap: nat, i: nat,
                       top0: nat, dumb: nat)
    returns (part: seq<int>, size: seq<int>, top: nat)
    requires Dumbed(part0, size0, c, n, k, cap, i, top0) && n == k * cap && i < k && dumb == cap - InBlock(c, cap, i)
    requires c != []
    requires DumbsAre(part0, c, n, cap, i)
    ensures Dumbed(part, size, c, n, k, cap, i + 1, top) && top == top0 - dumb && DumbsAre(part, c, n, cap, i + 1)
  {
    hide Count, Sum, DumbsAre;
    NextBlock(i, k, cap);
    part, size, top := part0, size0, top0;
    assert size0[i := 0] == size0;
    for j := 0 to dumb
      invariant top == top0 - j && |size| == k && size == size0 && Partial(part, size[i := j], n, k, cap)
      invariant forall x :: 0 <= x < n ==> (part[x] == -1 <==> x < top)
      invariant forall x :: 0 <= x < n ==> part[x] == if top <= x < top0 then i else part0[x]
    {
      DumbStep(part, size, n, k, cap, i, top, j);
      top := top - 1;
      part := part[top := i];
    }
    size := size[i := size[i] + dumb];
    DumbsNext(part0, part, c, n, cap, i);
  }

  /** The constraints below max, from the first one that is not below the block. */
  method CountBlock(c: seq<int>, start: nat, max: int) returns (end: nat)
    requires Increasing(c) && start <= |c| && forall x :: 0 <= x < start ==> c[x] < max
    ensures start <= end == Below(c, max)
  {
    end := start;
    while end < |c| && c[end] < max
      invariant start <= end <= |c| && forall x :: 0 <= x < end ==> c[x] < max
    {
      end := end + 1;
    }
    BelowIs(c, max, end);
  }

  lemma BlockEnds(c: seq<int>, cap: nat, i: nat, k: nat)
    requires Increasing(c) && i < k
    ensures Below(c, i * cap) <= |c| && forall x :: 0 <= x < Below(c, i * cap) ==> c[x] < (i + 1) * cap
    ensures InBlock(c, cap, i) == Below(c, (i + 1) * cap) - Below(c, i * cap) <= cap
  {
    NextBlock(i, k, cap);
    BlockFits(c, i * cap, cap);
  }

  /** The constraints of part i are counted, and its dumb vertices placed. */
  method DumbsOf(part0: seq<int>, size0: seq<int>, c: seq<int>, n: nat, k: nat, cap: nat, i: nat, top0: nat, start: nat)
    returns (part: seq<int>, size: seq<int>, top: nat, end: nat)
    requires n == k * cap && Increasing(c) && c != [] && i < k && start == Below(c, i * cap)
    requires Dumbed(part0, size0, c, n, k, cap, i, top0) && DumbsAre(part0, c, n, cap, i)
    ensures Dumbed(part, size, c, n, k, cap, i + 1, top) && DumbsAre(part, c, n, cap, i + 1)
    ensures end == Below(c, (i + 1) * cap)
  {
    hide Count, Sum, Partial, DumbsAre, Dumbed, InBlock, Below, Increasing;
    BlockEnds(c, cap, i, k);
    end := CountBlock(c, start, (i + 1) * cap);
    part, size, top := PlaceDumbPart(part0, size0, c, n, k, cap, i, top0, cap - (end - start));
  }

  /** The dumb vertices, if there are constraints. */
  method PlaceDumbs(n: nat, k: nat, cap: nat, c: seq<int>) returns (part: seq<int>, size: seq<int>)
    requires n == k * cap && Increasing(c) && c != [] && forall i :: 0 <= i < |c| ==> 0 <= c[i] < n
    ensures FreeBelow(part, size, c, n, k, cap) && DumbsAre(part, c, n, cap, k)
  {
    hide Count, Sum, Partial;
    part, size := Blank(n, k, cap);
    var start, top := 0, n;
    BelowIs(c, 0, 0);
    assert 0 * cap == 0;
    assert Dumbed(part, size, c, n, k, cap, 0, top) && DumbsAre(part, c, n, cap, 0);
    hide Dumbed, DumbsAre;
    for i := 0 to k
      invariant Dumbed(part, size, c, n, k, cap, i, top) && start == Below(c, i * cap) && DumbsAre(part, c, n, cap, i)
    {
      part, size, top, start := DumbsOf(part, size, c, n, k, cap, i, top, start);
    }
    DumbsDone(part, size, c, n, k, cap, top);
  }

  method Blank(n: nat, k: nat, cap: nat) returns (part: seq<int>, size: seq<int>)
    requires n == k * cap
    ensures Partial(part, size, n, k, cap) && (forall i :: 0 <= i < n ==> part[i] == -1)
    ensures (forall p :: 0 <= p < k ==> size[p] == 0)
  {
    part := seq(n, _ => -1);
    size := seq(k, _ => 0);
    SumZeros(k);
    CountAll(part, 0, n, -1);
    forall p | 0 <= p < k ensures Count(part, 0, n, p) == 0 {
      CountZero(part, 0, n, p);
    }
  }

  // ----- the other vertices -----

  ghost predicate Kept(a: seq<int>, b: seq<int>) {
    |a| == |b| && forall i :: 0 <= i < |a| && a[i] != -1 ==> b[i] == a[i]
  }

  /** A part that its dumb vertices do not fill. */
  ghost predicate HasRoom(start: seq<int>, cap: nat, p: int) {
    Count(start, 0, |start|, p) < cap
  }

  /** The vertices on which the random draws end, one for each part with room: without a part and distinct. */
  ghost predicate Drawn(seeds: seq<int>, start: seq<int>, k: nat, cap: nat) {
    && |seeds| == k && (forall p :: 0 <= p < k && HasRoom(start, cap, p) ==>
         0 <= seeds[p] < |start| && start[seeds[p]] == -1)
    && forall p, q :: 0 <= p < q < k && HasRoom(start, cap, p) && HasRoom(start, cap, q) ==> seeds[p] != seeds[q]
  }

  /** The parts below i with room have their seeds. */
  ghost predicate SeedsIn(part: seq<int>, start: seq<int>, seeds: seq<int>, cap: nat, i: nat) {
    && |part| == |start| && i <= |seeds|
    && (forall p :: 0 <= p < i && HasRoom(start, cap, p) ==> 0 <= seeds[p] < |part| && part[seeds[p]] == p)
    && forall x :: 0 <= x < |part| && part[x] != start[x] ==>
         0 <= part[x] < i && HasRoom(start, cap, part[x]) && seeds[part[x]] == x
  }

  lemma SeedNext(part: seq<int>, start: seq<int>, seeds: seq<int>, k: nat, cap: nat, i: nat)
    requires SeedsIn(part, start, seeds, cap, i) && Drawn(seeds, start, k, cap) && i < k
    ensures !HasRoom(start, cap, i) ==> SeedsIn(part, start, seeds, cap, i + 1)
    ensures HasRoom(start, cap, i) ==> part[seeds[i]] == -1 && SeedsIn(part[seeds[i] := i], start, seeds, cap, i + 1)
  {
    hide HasRoom;
    if HasRoom(start, cap, i) {
      var x := seeds[i];
      assert start[x] == -1;
    }
  }

  lemma SeedAt(a: seq<int>, b: seq<int>, start: seq<int>, seeds: seq<int>, k: nat, cap: nat, x: nat)
    requires SeedsIn(a, start, seeds, cap, k) && SeedsIn(b, start, seeds, cap, k) && x < |start|
    ensures a[x] != start[x] ==> b[x] == a[x]
  {
    hide HasRoom;
  }

  lemma SeedsAreUnique(a: seq<int>, b: seq<int>, start: seq<int>, seeds: seq<int>, k: nat, cap: nat)
    requires SeedsIn(a, start, seeds, cap, k) && SeedsIn(b, start, seeds, cap, k)
    ensures a == b
  {
    forall x | 0 <= x < |a| ensures a[x] == b[x] {
      SeedAt(a, b, start, seeds, k, cap, x);
      SeedAt(b, a, start, seeds, k, cap, x);
    }
  }

  /** While seeds are placed, a part that has not had its turn has only its dumb vertices. */
  lemma SizeBefore(part: seq<int>, start: seq<int>, seeds: seq<int>, cap: nat, i: nat, p: nat)
    requires SeedsIn(part, start, seeds, cap, i) && p >= i
    requires (forall x :: 0 <= x < |start| && part[x] != start[x] ==> start[x] == -1)
    ensures Count(part, 0, |part|, p) == Count(start, 0, |start|, p)
  {
    SameCount(part, start, |part|, p);
  }

  lemma {:induction false} SameCount(a: seq<int>, b: seq<int>, hi: nat, p: int)
    requires hi <= |a| == |b| && forall x :: 0 <= x < hi ==> (a[x] == p <==> b[x] == p)
    ensures Count(a, 0, hi, p) == Count(b, 0, hi, p)
  {
    if hi > 0 {
      SameCount(a, b, hi - 1, p);
    }
  }

  /** The seeds that were drawn are put into their parts. */
  method Seed(part0: seq<int>, size0: seq<int>, n: nat, k: nat, cap: nat, seeds: seq<int>)
    returns (part: seq<int>, size: seq<int>)
    requires Partial(part0, size0, n, k, cap) && n == k * cap && Drawn(seeds, part0, k, cap)
    ensures Partial(part, size, n, k, cap) && Kept(part0, part) && Seeded(part, size, k, cap)
    ensures SeedsIn(part, part0, seeds, cap, k)
  {
    hide Count, Sum, SeedsIn, Drawn;
    part, size := part0, size0;
    SeedsNone(part0, seeds, k, cap);
    for i := 0 to k
      invariant Partial(part, size, n, k, cap) && Kept(part0, part) && SeedsIn(part, part0, seeds, cap, i)
      invariant forall p :: 0 <= p < i && size[p] < cap ==> p in part
    {
      DrawnFits(seeds, part0, k, cap, i);
      KeptChanges(part0, part);
      SizeBefore(part, part0, seeds, cap, i, i);
      SeedNext(part, part0, seeds, k, cap, i);
      if size[i] >= cap { continue; }
      var j := seeds[i];
      Assign(part, size, n, k, cap, j, i);
      ghost var was := part;
      part := part[j := i];
      size := size[i := size[i] + 1];
      StillIn(was, part, size, n, cap, i, j);
    }
  }

  lemma SeedsNone(start: seq<int>, seeds: seq<int>, k: nat, cap: nat)
    requires Drawn(seeds, start, k, cap)
    ensures SeedsIn(start, start, seeds, cap, 0)
  {
  }

  lemma DrawnFits(seeds: seq<int>, start: seq<int>, k: nat, cap: nat, i: nat)
    requires Drawn(seeds, start, k, cap) && i < k
    ensures |seeds| == k && (HasRoom(start, cap, i) ==> 0 <= seeds[i] < |start|)
  {
  }

  lemma KeptChanges(a: seq<int>, b: seq<int>)
    requires Kept(a, b)
    ensures forall x :: 0 <= x < |a| && b[x] != a[x] ==> a[x] == -1
  {
  }

  lemma StillIn(was: seq<int>, part: seq<int>, size: seq<int>, n: nat, cap: nat, i: nat, j: nat)
    requires |was| == |part| == n && j < n && was[j] == -1 && part == was[j := i] && i < |size|
    requires forall p :: 0 <= p < i && size[p] < cap ==> p in was
    ensures forall p :: 0 <= p < i + 1 && size[p] < cap ==> p in part
  {
    assert part[j] == i;
    forall p | 0 <= p < i && size[p] < cap ensures p in part {
      var x :| 0 <= x < n && was[x] == p;
      assert part[x] == p;
    }
  }

  ghost predicate Weights(com: seq<seq<int>>) {
    && (forall i :: 0 <= i < |com| ==> |com[i]| == |com|)
    && forall i, j :: 0 <= i < |com| && 0 <= j < |com| ==> com[i][j] >= 0
  }

  ghost function Weight(com: seq<seq<int>>, u: nat, i: nat): int {
    if u < |com| && i < |com[u]| then com[u][i] else 0
  }

  /** Vertex x is in a part with room. */
  ghost predicate Open(part: seq<int>, size: seq<int>, cap: nat, x: int) {
    0 <= x < |part| && 0 <= part[x] < |size| && size[part[x]] < cap
  }

  /**
    Vertex i is in a part with room, and of such vertices among the first n it is the first with
    the heaviest edge to u.
  */
  ghost predicate Heaviest(part: seq<int>, com: seq<seq<int>>, u: nat, n: nat, size: seq<int>, cap: nat, i: nat) {
    && i < n && Open(part, size, cap, i)
    && (forall x: nat :: x < n && Open(part, size, cap, x) ==> Weight(com, u, x) <= Weight(com, u, i))
    && (forall x: nat :: x < i && Open(part, size, cap, x) ==> Weight(com, u, x) < Weight(com, u, i))
  }

  /** allocate_vertex: u goes to a part with room, that of its heaviest neighbour there. */
  method BestPart(u: nat, part: seq<int>, com: seq<seq<int>>, n: nat, size: seq<int>, k: nat, cap: nat)
    returns (best: nat, ghost w: nat)
    requires Partial(part, size, n, k, cap) && n == k * cap && Seeded(part, size, k, cap) && Weights(com) && u < n
    requires part[u] == -1
    ensures best < k && size[best] < cap && w < n && Heaviest(part, com, u, n, size, cap, w) && part[w] == best
  {
    ghost var p := PartLeft(part, size, n, k, cap, u);
    ghost var y :| 0 <= y < n && part[y] == p;
    hide Count, Sum, Weights;
    assert Open(part, size, cap, y);
    w := 0;
    best := 0;
    if u >= |com| {
      var i := 0;
      while i < n
        invariant i <= y && forall x :: 0 <= x < i ==> !Open(part, size, cap, x)
      {
        if part[i] != -1 && size[part[i]] < cap {
          best := part[i];
          w := i;
          break;
        }
        i := i + 1;
      }
    } else {
      var most := -1;
      for i := 0 to n
        invariant if most == -1 then i <= y
                  else Heaviest(part, com, u, i, size, cap, w) && part[w] == best && most == Weight(com, u, w)
        invariant most >= -1 && (most == -1 ==> forall x :: 0 <= x < i ==> !Open(part, size, cap, x))
      {
        if part[i] != -1 && size[part[i]] < cap {
          WeightsAt(com, u, i);
          var cost := if i < |com| then com[u][i] else 0;
          if cost > most {
            most := cost;
            best := part[i];
            w := i;
          }
        }
      }
    }
  }

  lemma WeightsAt(com: seq<seq<int>>, u: nat, i: nat)
    requires Weights(com) && u < |com|
    ensures |com[u]| == |com| && (i < |com| ==> com[u][i] >= 0)
  {
  }

  /** The partition when it is the turn of u: the vertices below u have their parts, the others what they had before. */
  ghost function Upto(seeded: seq<int>, part: seq<int>, u: nat): (r: seq<int>)
    requires |seeded| == |part|
    ensures |r| == |part|
  {
    seq(|part|, x requires 0 <= x < |part| => if x < u then part[x] else seeded[x])
  }

  ghost function Sizes(part: seq<int>, k: nat): seq<int> {
    seq(k, p => Count(part, 0, |part|, p))
  }

  /** u keeps its part, or goes to that of its heaviest neighbour w. */
  ghost predicate Follows(seeded: seq<int>, part: seq<int>, com: seq<seq<int>>, k: nat, cap: nat, u: nat, w: nat)
    requires |seeded| == |part| && u < |part|
  {
    if seeded[u] != -1 then part[u] == seeded[u] else
      && Heaviest(Upto(seeded, part, u), com, u, |part|, Sizes(Upto(seeded, part, u), k), cap, w)
      && w < |part| && part[u] == Upto(seeded, part, u)[w]
  }

  ghost predicate FollowsSome(seeded: seq<int>, part: seq<int>, com: seq<seq<int>>, k: nat, cap: nat, u: nat)
    requires |seeded| == |part| && u < |part|
  {
    exists w :: Follows(seeded, part, com, k, cap, u, w)
  }

  ghost predicate Allocated(seeded: seq<int>, part: seq<int>, com: seq<seq<int>>, k: nat, cap: nat, u: nat) {
    |seeded| == |part| && u <= |part| && forall x :: 0 <= x < u ==> FollowsSome(seeded, part, com, k, cap, x)
  }

  lemma AllocateNext(seeded: seq<int>, part: seq<int>, part': seq<int>, com: seq<seq<int>>, k: nat, cap: nat, u: nat,
                     w: nat)
    requires Allocated(seeded, part, com, k, cap, u) && |part'| == |part| && u < |part|
    requires (forall x :: 0 <= x < u ==> part'[x] == part[x]) && Follows(seeded, part', com, k, cap, u, w)
    ensures Allocated(seeded, part', com, k, cap, u + 1)
  {
    hide Heaviest;
    forall x | 0 <= x < u + 1 ensures FollowsSome(seeded, part', com, k, cap, x) {
      if x < u {
        assert FollowsSome(seeded, part, com, k, cap, x);
        assert Upto(seeded, part', x) == Upto(seeded, part, x);
        var y :| Follows(seeded, part, com, k, cap, x, y);
        assert Follows(seeded, part', com, k, cap, x, y);
      }
    }
  }

  /** The seeds decide where all other vertices go. */
  lemma {:induction false} AllocationIsUnique(seeded: seq<int>, a: seq<int>, b: seq<int>, com: seq<seq<int>>, k: nat,
                                              cap: nat, u: nat)
    requires |a| == |b| && Allocated(seeded, a, com, k, cap, |a|) && Allocated(seeded, b, com, k, cap, |b|) && u <= |a|
    ensures forall x :: 0 <= x < u ==> a[x] == b[x]
  {
    if u > 0 {
      var x := u - 1;
      AllocationIsUnique(seeded, a, b, com, k, cap, x);
      assert Upto(seeded, a, x) == Upto(seeded, b, x);
      assert FollowsSome(seeded, a, com, k, cap, x) && FollowsSome(seeded, b, com, k, cap, x);
      var v :| Follows(seeded, a, com, k, cap, x, v);
      var w :| Follows(seeded, b, com, k, cap, x, w);
      if seeded[x] == -1 {
        OneHeaviest(Upto(seeded, a, x), com, x, |a|, Sizes(Upto(seeded, a, x), k), cap, v, w);
      }
    }
  }

  lemma OneHeaviest(part: seq<int>, com: seq<seq<int>>, u: nat, n: nat, size: seq<int>, cap: nat, v: nat, w: nat)
    requires Heaviest(part, com, u, n, size, cap, v) && Heaviest(part, com, u, n, size, cap, w)
    ensures v == w
  {
    hide Weight, Open;
  }

  lemma SizesAre(part: seq<int>, size: seq<int>, n: nat, k: nat, cap: nat)
    requires Partial(part, size, n, k, cap)
    ensures size == Sizes(part, k)
  {
  }

  /** The vertices below i are allocated. */
  ghost predicate Allocating(part0: seq<int>, part: seq<int>, size: seq<int>, com: seq<seq<int>>, n: nat, k: nat,
                             cap: nat, i: nat) {
    && Partial(part, size, n, k, cap) && Seeded(part, size, k, cap) && Kept(part0, part)
    && Allocated(part0, part, com, k, cap, i)
    && forall x :: 0 <= x < n ==> if x < i then part[x] != -1 else part[x] == part0[x]
  }

  method AllocateOne(ghost part0: seq<int>, part: seq<int>, size: seq<int>, com: seq<seq<int>>, n: nat, k: nat,
                     cap: nat, i: nat)
    returns (part': seq<int>, size': seq<int>)
    requires Allocating(part0, part, size, com, n, k, cap, i) && i < n == k * cap && Weights(com)
    ensures Allocating(part0, part', size', com, n, k, cap, i + 1)
  {
    hide Count, Sum, Weights, Heaviest, Allocated, Sizes;
    part', size' := part, size;
    assert Upto(part0, part, i) == part;
    if part[i] == -1 {
      SizesAre(part, size, n, k, cap);
      var best, w := BestPart(i, part, com, n, size, k, cap);
      Assign(part, size, n, k, cap, i, best);
      part' := part[i := best];
      size' := size[best := size[best] + 1];
      assert Upto(part0, part', i) == part;
      AllocateNext(part0, part, part', com, k, cap, i, w);
      StillSeeded(part, part', size', n, k, cap, i, best);
    } else {
      AllocateNext(part0, part, part, com, k, cap, i, 0);
    }
  }

  method Allocate(part0: seq<int>, size0: seq<int>, com: seq<seq<int>>, n: nat, k: nat, cap: nat)
    returns (part: seq<int>)
    requires Partial(part0, size0, n, k, cap) && n == k * cap && Seeded(part0, size0, k, cap) && Weights(com)
    ensures |part| == n && Kept(part0, part) && (forall i :: 0 <= i < n ==> 0 <= part[i] < k)
    ensures Allocated(part0, part, com, k, cap, n)
    ensures forall p :: 0 <= p < k ==> Count(part, 0, n, p) == cap
  {
    part := part0;
    var size := size0;
    AllocateNone(part0, com, k, cap);
    assert Allocating(part0, part, size, com, n, k, cap, 0);
    hide Count, Sum, Weights, Allocating;
    for i := 0 to n
      invariant Allocating(part0, part, size, com, n, k, cap, i)
    {
      part, size := AllocateOne(part0, part, size, com, n, k, cap, i);
    }
    AllocatedAll(part0, part, size, com, n, k, cap);
  }

  lemma AllocatedAll(part0: seq<int>, part: seq<int>, size: seq<int>, com: seq<seq<int>>, n: nat, k: nat, cap: nat)
    requires Allocating(part0, part, size, com, n, k, cap, n) && n == k * cap
    ensures |part| == n && Kept(part0, part) && (forall i :: 0 <= i < n ==> 0 <= part[i] < k)
    ensures Allocated(part0, part, com, k, cap, n)
    ensures forall p :: 0 <= p < k ==> Count(part, 0, n, p) == cap
  {
    hide Count, Sum, Allocated;
    CountZero(part, 0, n, -1);
    SumBound(size, cap);
  }

  lemma AllocateNone(part: seq<int>, com: seq<seq<int>>, k: nat, cap: nat)
    ensures Allocated(part, part, com, k, cap, 0)
  {
  }

  lemma StillSeeded(was: seq<int>, part: seq<int>, size: seq<int>, n: nat, k: nat, cap: nat, i: nat, best: nat)
    requires |was| == n && i < n && was[i] == -1 && part == was[i := best] && |size| == k && best < k
    requires forall p :: 0 <= p < k && p != best && size[p] < cap ==> p in was
    ensures Seeded(part, size, k, cap)
  {
    forall p | 0 <= p < k && size[p] < cap ensures p in part {
      if p == best {
        assert part[i] == p;
      } else {
        var x :| 0 <= x < n && was[x] == p;
        assert part[x] == p;
      }
    }
  }

  /** The partition that a trial starts from: the dumb vertices, if there are constraints. */
  method Start(n: nat, k: nat, cap: nat, c: seq<int>) returns (part: seq<int>, size: seq<int>)
    requires n == k * cap && Increasing(c) && (forall i :: 0 <= i < |c| ==> 0 <= c[i] < n)
    ensures Partial(part, size, n, k, cap) && DumbsAre(part, c, n, cap, k)
    ensures (c != [] ==> FreeBelow(part, size, c, n, k, cap))
  {
    hide Count, Sum, Partial;
    if c != [] {
      part, size := PlaceDumbs(n, k, cap, c);
    } else {
      part, size := Blank(n, k, cap);
    }
  }

  /** What a trial ends with, when the draws end on the given seeds. */
  ghost predicate Outcome(part: seq<int>, com: seq<seq<int>>, c: seq<int>, n: nat, k: nat, cap: nat, seeds: seq<int>) {
    |part| == n && exists start, seeded :: Stages(start, seeded, part, com, c, n, k, cap, seeds)
  }

  ghost predicate Stages(start: seq<int>, seeded: seq<int>, part: seq<int>, com: seq<seq<int>>, c: seq<int>, n: nat,
                         k: nat, cap: nat, seeds: seq<int>) {
    DumbsAre(start, c, n, cap, k) && SeedsIn(seeded, start, seeds, cap, k) && Allocated(seeded, part, com, k, cap, n)
  }

  /** The draws are all that is left to chance. */
  lemma OutcomeIsUnique(a: seq<int>, b: seq<int>, com: seq<seq<int>>, c: seq<int>, n: nat, k: nat, cap: nat,
                        seeds: seq<int>)
    requires Outcome(a, com, c, n, k, cap, seeds) && Outcome(b, com, c, n, k, cap, seeds)
    ensures a == b
  {
    var s, t :| Stages(s, t, a, com, c, n, k, cap, seeds);
    var s', t' :| Stages(s', t', b, com, c, n, k, cap, seeds);
    hide DumbsAre, SeedsIn;
    StartIsUnique(s, s', c, n, k, cap);
    SeedsAreUnique(t, t', s, seeds, k, cap);
    AllocationIsUnique(t, a, b, com, k, cap, n);
  }

  /** The draws of one trial end on vertices without a part. */
  ghost predicate DrawnFor(seeds: seq<int>, c: seq<int>, n: nat, k: nat, cap: nat) {
    forall start :: DumbsAre(start, c, n, cap, k) ==> Drawn(seeds, start, k, cap)
  }

  /** One trial of kpartition_greedy. */
  method Trial(k: nat, com: seq<seq<int>>, n: nat, cap: nat, c: seq<int>, seeds: seq<int>) returns (part: seq<int>)
    requires n == k * cap && Increasing(c) && (forall i :: 0 <= i < |c| ==> 0 <= c[i] < n) && Weights(com)
    requires DrawnFor(seeds, c, n, k, cap)
    ensures Balanced(part, c, n, k, cap) && Outcome(part, com, c, n, k, cap, seeds)
  {
    hide Count, Sum, Weights, Partial, DumbsAre, SeedsIn, Allocated, Drawn, FreeBelow;
    var start, size := Start(n, k, cap, c);
    ghost var startSize := size;
    var seeded;
    seeded, size := Seed(start, size, n, k, cap, seeds);
    part := Allocate(seeded, size, com, n, k, cap);
    assert Stages(start, seeded, part, com, c, n, k, cap, seeds);
    TrialBalanced(start, startSize, part, c, n, k, cap);
  }

  /** A vertex without a part, whichever the random numbers hit first. */
  method PickFree(part: seq<int>) returns (j: nat)
    requires exists i :: 0 <= i < |part| && part[i] == -1
    ensures j < |part| && part[j] == -1
  {
    var x :| 0 <= x < |part| && part[x] == -1;
    j := x;
  }

  lemma DrawNext(seeds: seq<int>, part: seq<int>, start: seq<int>, cap: nat, i: nat, j: nat)
    requires Drawn(seeds, start, i, cap) && SeedsIn(part, start, seeds, cap, i)
    requires HasRoom(start, cap, i) ==> j < |part| && part[j] == -1 && start[j] == -1
    ensures Drawn(seeds + [j], start, i + 1, cap) && SeedsIn(part, start, seeds + [j], cap, i)
  {
    hide HasRoom;
    var more := seeds + [j];
    assert forall p :: 0 <= p < i ==> more[p] == seeds[p];
  }

  /** The parts below i have their draws, and part is the partition with these. */
  ghost predicate Drawing(seeds: seq<int>, part: seq<int>, size: seq<int>, start: seq<int>, n: nat, k: nat, cap: nat,
                          i: nat) {
    && Partial(part, size, n, k, cap) && Kept(start, part) && |seeds| == i
    && Drawn(seeds, start, i, cap) && SeedsIn(part, start, seeds, cap, i)
  }

  method DrawOne(seeds: seq<int>, part: seq<int>, size: seq<int>, ghost start: seq<int>, n: nat, k: nat, cap: nat,
                 i: nat)
    returns (seeds': seq<int>, part': seq<int>, size': seq<int>)
    requires Drawing(seeds, part, size, start, n, k, cap, i) && i < k && n == k * cap
    ensures Drawing(seeds', part', size', start, n, k, cap, i + 1)
  {
    hide Count, Sum, SeedsIn, Drawn;
    KeptChanges(start, part);
    SizeBefore(part, start, seeds, cap, i, i);
    var j := 0;
    if size[i] < cap {
      ghost var u := RoomLeft(part, size, n, k, cap, i);
      j := PickFree(part);
    }
    DrawNext(seeds, part, start, cap, i, j);
    seeds', part', size' := seeds + [j], part, size;
    SeedNext(part, start, seeds', i + 1, cap, i);
    if size[i] < cap {
      Assign(part, size, n, k, cap, j, i);
      part' := part[j := i];
      size' := size[i := size[i] + 1];
    }
  }

  /** Draws for one trial: a free vertex for each part that has room; there always is one. */
  method Draw(n: nat, k: nat, cap: nat, c: seq<int>) returns (seeds: seq<int>)
    requires n == k * cap && Increasing(c) && (forall i :: 0 <= i < |c| ==> 0 <= c[i] < n)
    ensures DrawnFor(seeds, c, n, k, cap)
  {
    hide Count, Sum, DumbsAre, FreeBelow, SeedsIn, Drawn;
    var start, size := Start(n, k, cap, c);
    var part := start;
    seeds := [];
    DrawNone(start, cap);
    assert Drawing(seeds, part, size, start, n, k, cap, 0);
    hide Partial;
    for i := 0 to k
      invariant Drawing(seeds, part, size, start, n, k, cap, i)
    {
      seeds, part, size := DrawOne(seeds, part, size, start, n, k, cap, i);
    }
    forall other | DumbsAre(other, c, n, cap, k) ensures Drawn(seeds, other, k, cap) {
      StartIsUnique(start, other, c, n, k, cap);
    }
  }

  lemma DrawNone(start: seq<int>, cap: nat)
    ensures Drawn([], start, 0, cap) && SeedsIn(start, start, [], cap, 0)
  {
  }

  lemma TrialBalanced(dumbs: seq<int>, size: seq<int>, part: seq<int>, c: seq<int>, n: nat, k: nat, cap: nat)
    requires c != [] ==> FreeBelow(dumbs, size, c, n, k, cap)
    requires Kept(dumbs, part) && |part| == n && (forall i :: 0 <= i < n ==> 0 <= part[i] < k)
    requires forall p :: 0 <= p < k ==> Count(part, 0, n, p) == cap
    ensures Balanced(part, c, n, k, cap)
  {
    if c != [] {
      forall p | 0 <= p < k ensures Count(part, 0, |c|, p) == InBlock(c, cap, p) {
        CountSplit(part, 0, |c|, n, p);
        CountKept(dumbs, part, |c|, n, p);
      }
    }
  }

  /** eval_cost */
  method EvalCost(part: seq<int>, com: seq<seq<int>>) returns (cost: int)
    requires |com| <= |part| && Weights(com)
    ensures cost == Cut(com, part, |com|, |com|) >= 0
  {
    cost := 0;
    for i := 0 to |com|
      invariant cost == Cut(com, part, |com|, i) >= 0
    {
      ghost var before := cost;
      for j := i + 1 to |com|
        invariant cost == before + CutRow(com[i], part, i + 1, j, part[i]) >= 0
      {
        WeightsAt(com, i, j);
        if part[i] != part[j] {
          cost := cost + com[i][j];
        }
      }
    }
  }

  const MAX_TRIALS := 10

  /** Draws for all trials. */
  method DrawAll(n: nat, k: nat, c: seq<int>) returns (draws: seq<seq<int>>)
    requires k > 0 && n % k == 0 && Increasing(c) && forall i :: 0 <= i < |c| ==> 0 <= c[i] < n
    ensures |draws| == MAX_TRIALS && forall x :: 0 <= x < MAX_TRIALS ==> DrawnFor(draws[x], c, n, k, n / k)
  {
    hide DrawnFor;
    draws := [];
    for x := 0 to MAX_TRIALS
      invariant |draws| == x && forall y :: 0 <= y < x ==> DrawnFor(draws[y], c, n, k, n / k)
    {
      var seeds := Draw(n, k, n / k, c);
      draws := draws + [seeds];
    }
  }

  /** part is the first of the cheapest of the trials. */
  ghost predicate Cheapest(part: seq<int>, trials: seq<seq<int>>, com: seq<seq<int>>, n: nat, t: nat)
    requires Weights(com) && |com| <= n && |part| == n && forall x :: 0 <= x < |trials| ==> |trials[x]| == n
  {
    && t < |trials| && part == trials[t]
    && (forall x :: 0 <= x < |trials| ==> Cut(com, part, |com|, |com|) <= Cut(com, trials[x], |com|, |com|))
    && (forall x :: 0 <= x < t ==> Cut(com, part, |com|, |com|) < Cut(com, trials[x], |com|, |com|))
  }

  /** What kpartition_greedy chooses: the first of the cheapest outcomes of its draws. */
  ghost predicate Chosen(part: seq<int>, com: seq<seq<int>>, c: seq<int>, n: nat, k: nat, draws: seq<seq<int>>) {
    && k > 0 && Weights(com) && |com| <= n && |part| == n && |draws| == MAX_TRIALS
    && exists trials, t :: ChosenFrom(part, com, c, n, k, draws, trials, t)
  }

  ghost predicate ChosenFrom(part: seq<int>, com: seq<seq<int>>, c: seq<int>, n: nat, k: nat, draws: seq<seq<int>>,
                             trials: seq<seq<int>>, t: nat)
    requires k > 0 && Weights(com) && |com| <= n && |part| == n && |draws| == MAX_TRIALS
  {
    && |trials| == MAX_TRIALS
    && (forall x :: 0 <= x < MAX_TRIALS ==> |trials[x]| == n && Outcome(trials[x], com, c, n, k, n / k, draws[x]))
    && Cheapest(part, trials, com, n, t)
  }

  /** Matrix, constraints and draws determine the choice. */
  lemma ChoiceIsUnique(a: seq<int>, b: seq<int>, com: seq<seq<int>>, c: seq<int>, n: nat, k: nat, draws: seq<seq<int>>)
    requires Chosen(a, com, c, n, k, draws) && Chosen(b, com, c, n, k, draws)
    ensures a == b
  {
    hide Outcome, Cheapest;
    var trials, t :| ChosenFrom(a, com, c, n, k, draws, trials, t);
    var trials', t' :| ChosenFrom(b, com, c, n, k, draws, trials', t');
    forall x | 0 <= x < MAX_TRIALS ensures trials[x] == trials'[x] {
      OutcomeIsUnique(trials[x], trials'[x], com, c, n, k, n / k, draws[x]);
    }
    assert trials == trials';
    SameCheapest(a, b, trials, com, n, t, t');
  }

  lemma SameCheapest(a: seq<int>, b: seq<int>, trials: seq<seq<int>>, com: seq<seq<int>>, n: nat, t: nat, t': nat)
    requires Weights(com) && |com| <= n && |a| == |b| == n && forall x :: 0 <= x < |trials| ==> |trials[x]| == n
    requires Cheapest(a, trials, com, n, t) && Cheapest(b, trials, com, n, t')
    ensures a == b
  {
    hide Weights, Cut;
  }

  lemma CheapestNext(part: seq<int>, trials: seq<seq<int>>, com: seq<seq<int>>, n: nat, t: nat, trial: seq<int>)
    requires Weights(com) && |com| <= n && |part| == |trial| == n && forall x :: 0 <= x < |trials| ==> |trials[x]| == n
    requires Cheapest(part, trials, com, n, t)
    ensures forall x :: 0 <= x < |trials + [trial]| ==> |(trials + [trial])[x]| == n
    ensures Cut(com, trial, |com|, |com|) < Cut(com, part, |com|, |com|) ==>
              Cheapest(trial, trials + [trial], com, n, |trials|)
    ensures Cut(com, trial, |com|, |com|) >= Cut(com, part, |com|, |com|) ==>
              Cheapest(part, trials + [trial], com, n, t)
  {
    hide Cut, Weights;
  }

  /**
    kpartition_greedy with the draws of its ten trials: the first of the cheapest outcomes.  By OutcomeIsUnique
    the outcomes are those of the draws (ConstraintsFit: the error return is not taken).
  */
  method Greedy(k: nat, com: seq<seq<int>>, n: nat, c: seq<int>, draws: seq<seq<int>>)
    returns (part: seq<int>)
    requires k > 0 && n % k == 0 && |com| <= n && Weights(com)
    requires Increasing(c) && forall i :: 0 <= i < |c| ==> 0 <= c[i] < n
    requires |draws| == MAX_TRIALS && forall x :: 0 <= x < MAX_TRIALS ==> DrawnFor(draws[x], c, n, k, n / k)
    ensures Balanced(part, c, n, k, n / k) && Chosen(part, com, c, n, k, draws)
  {
    hide Cut, Cheapest, DrawnFor, Outcome, Balanced;
    part := [];
    var bestCost := -1;
    ghost var trials, t := [], 0;
    for x := 0 to MAX_TRIALS
      invariant bestCost >= -1 && (bestCost == -1 <==> x == 0) && |trials| == x
      invariant forall y :: 0 <= y < x ==> |trials[y]| == n && Outcome(trials[y], com, c, n, k, n / k, draws[y])
      invariant x > 0 ==> |part| == n && Balanced(part, c, n, k, n / k)
      invariant x > 0 ==> Cut(com, part, |com|, |com|) == bestCost && Cheapest(part, trials, com, n, t)
    {
      var trial := Trial(k, com, n, n / k, c, draws[x]);
      BalancedSize(trial, c, n, k, n / k);
      var cost := EvalCost(trial, com);
      if x > 0 {
        CheapestNext(part, trials, com, n, t, trial);
      } else {
        CheapestOne(trial, com, n);
      }
      if cost < bestCost || bestCost == -1 {
        bestCost := cost;
        part := trial;
        t := x;
      }
      trials := trials + [trial];
    }
    assert ChosenFrom(part, com, c, n, k, draws, trials, t);
  }

  lemma BalancedSize(part: seq<int>, c: seq<int>, n: nat, k: nat, cap: nat)
    requires Balanced(part, c, n, k, cap)
    ensures |part| == n
  {
  }

  lemma CheapestOne(part: seq<int>, com: seq<seq<int>>, n: nat)
    requires Weights(com) && |com| <= n && |part| == n
    ensures Cheapest(part, [] + [part], com, n, 0)
  {
    hide Cut, Weights;
  }

  /** Distinct constraints below n are at most n. */
  lemma ConstraintsFit(c: seq<int>, n: nat)
    requires Increasing(c) && forall i :: 0 <= i < |c| ==> 0 <= c[i] < n
    ensures |c| <= n
  {
    if c != [] {
      Apart(c, 0, |c| - 1);
    }
  }

  /** Every part has cap vertices, and among the first |c| as many as it has constraints. */
  ghost predicate Balanced(part: seq<int>, c: seq<int>, n: nat, k: nat, cap: nat) {
    && |part| == n && |c| <= n && (forall i :: 0 <= i < n ==> 0 <= part[i] < k)
    && (forall p :: 0 <= p < k ==> Count(part, 0, n, p) == cap)
    && (forall p :: 0 <= p < k ==> Count(part, 0, |c|, p) == InBlock(c, cap, p))
  }
}
