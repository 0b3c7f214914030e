/**
  The lazy bucket sort of tm_bucket.c: all pairs are dealt into buckets by the pivot tree, and
  a bucket is sorted when the iterator reaches it.  The iterator delivers the pairs in the
  order of the full sort, and grouping by it pairs up all nodes.
*/
module BucketSort {
  import opened BucketTree
  import opened Collections
  import opened Sorting

  datatype Pair = Pair(i: nat, j: nat)

  ghost predicate Square(tab: seq<seq<int>>, n: nat) {
    |tab| == n && forall i :: 0 <= i < n ==> |tab[i]| == n
  }

  predicate IsPair(p: Pair, n: nat) { p.i < p.j < n }

  function Value(tab: seq<seq<int>>, p: Pair): int
    requires p.i < |tab| && p.j < |tab[p.i]|
  {
    tab[p.i][p.j]
  }

  /** tab_cmp: larger values first, and among equal values larger indices first. */
  function TabCmp(tab: seq<seq<int>>, a: Pair, b: Pair): int
    requires a.i < |tab| && a.j < |tab[a.i]| && b.i < |tab| && b.j < |tab[b.i]|
  {
    if Value(tab, a) == Value(tab, b) then
      if a.i == b.i then (if a.j > b.j then -1 else 1) else (if a.i > b.i then -1 else 1)
    else if Value(tab, a) > Value(tab, b) then -1 else 1
  }

  predicate Before(tab: seq<seq<int>>, a: Pair, b: Pair) {
    a.i < |tab| && a.j < |tab[a.i]| && b.i < |tab| && b.j < |tab[b.i]| && TabCmp(tab, a, b) == -1
  }

  /** The larger value first, then the larger first index, then the larger second index. */
  ghost predicate Heavier(tab: seq<seq<int>>, a: Pair, b: Pair)
    requires a.i < |tab| && a.j < |tab[a.i]| && b.i < |tab| && b.j < |tab[b.i]|
  {
    tab[a.i][a.j] > tab[b.i][b.j] || (tab[a.i][a.j] == tab[b.i][b.j] && (a.i > b.i || (a.i == b.i && a.j > b.j)))
  }

  ghost predicate Ordered(tab: seq<seq<int>>, l: seq<Pair>) {
    forall x, y :: 0 <= x < y < |l| ==> Before(tab, l[x], l[y])
  }

  ghost predicate Pairs(l: seq<Pair>, n: nat) {
    forall p :: p in l ==> IsPair(p, n)
  }

  /** Two ordered lists of the same pairs are the same list. */
  lemma {:induction false} OrderIsUnique(tab: seq<seq<int>>, l: seq<Pair>, m: seq<Pair>)
    requires Ordered(tab, l) && Ordered(tab, m) && forall p :: p in l <==> p in m
    ensures l == m
  {
    if m != [] { assert m[0] in m; }
    if l != [] {
      assert l[0] in l && l[0] in m;
      assert m[0] in m && m[0] in l;
      assert l[0] == m[0];
      forall p ensures p in l[1..] <==> p in m[1..] {
        if p in l[1..] { assert p in m && p != m[0]; }
        if p in m[1..] { assert p in l && p != l[0]; }
      }
      OrderIsUnique(tab, l[1..], m[1..]);
    }
  }

  // ----- sorting one bucket -----

  /** qsort with tab_cmp. */
  method Sort(tab: seq<seq<int>>, n: nat, b: seq<Pair>) returns (l: seq<Pair>)
    requires Square(tab, n) && Pairs(b, n) && NoDup(b)
    ensures Ordered(tab, l) && |l| == |b| && forall p :: p in l <==> p in b
  {
    l := SortBy(b, (p: Pair, q: Pair) => p == q || Before(tab, p, q));
    SameElements(l, b);
    StaysDistinct(b, l);
  }

  // ----- the buckets -----

  /** The pair belongs to bucket k: k pivots are not below its value. */
  ghost predicate Belongs(tab: seq<seq<int>>, pivots: seq<int>, p: Pair, k: nat)
    requires p.i < |tab| && p.j < |tab[p.i]|
  {
    Between(pivots, Value(tab, p), k, k)
  }

  /** Values fall from one bucket to the next. */
  lemma LaterBucket(tab: seq<seq<int>>, pivots: seq<int>, p: Pair, k: nat, q: Pair, m: nat)
    requires p.i < |tab| && p.j < |tab[p.i]| && q.i < |tab| && q.j < |tab[q.i]| && NonIncreasing(pivots)
    requires Belongs(tab, pivots, p, k) && Belongs(tab, pivots, q, m)
    ensures k < m ==> Before(tab, p, q)
    ensures p == q ==> k == m
  {
    if k < m {
      assert pivots[k] < Value(tab, p) && pivots[m-1] >= Value(tab, q) && pivots[k] >= pivots[m-1];
    }
    if m < k {
      assert pivots[m] < Value(tab, q) && pivots[k-1] >= Value(tab, p) && pivots[m] >= pivots[k-1];
    }
  }

  /** Bucket k holds the pairs that belong to it, of those before (i, j) in the double loop of fill_buckets. */
  ghost predicate Dealt(b: seq<Pair>, tab: seq<seq<int>>, pivots: seq<int>, n: nat, k: nat, i: nat, j: nat)
    requires Square(tab, n)
  {
    NoDup(b) && forall p :: p in b <==> IsPair(p, n) && (p.i < i || (p.i == i && p.j < j)) && Belongs(tab, pivots, p, k)
  }

  /** Bucket k holds all pairs that belong to it, each once. */
  ghost predicate Full(b: seq<Pair>, tab: seq<seq<int>>, pivots: seq<int>, n: nat, k: nat)
    requires Square(tab, n)
  {
    NoDup(b) && forall p :: p in b <==> IsPair(p, n) && Belongs(tab, pivots, p, k)
  }

  lemma DealOne(b: seq<Pair>, tab: seq<seq<int>>, pivots: seq<int>, n: nat, k: nat, i: nat, j: nat)
    requires Square(tab, n) && i < j < n && Dealt(b, tab, pivots, n, k, i, j)
    ensures Belongs(tab, pivots, Pair(i, j), k) ==> Dealt(b + [Pair(i, j)], tab, pivots, n, k, i, j + 1)
    ensures !Belongs(tab, pivots, Pair(i, j), k) ==> Dealt(b, tab, pivots, n, k, i, j + 1)
  {
    assert Pair(i, j) !in b;
  }

  lemma DealRow(b: seq<Pair>, tab: seq<seq<int>>, pivots: seq<int>, n: nat, k: nat, i: nat)
    requires Square(tab, n) && i < n && Dealt(b, tab, pivots, n, k, i, n)
    ensures Dealt(b, tab, pivots, n, k, i + 1, i + 2)
  {
  }

  lemma DealNone(tab: seq<seq<int>>, pivots: seq<int>, n: nat, k: nat)
    requires Square(tab, n)
    ensures Dealt([], tab, pivots, n, k, 0, 1)
  {
  }

  lemma DealAll(b: seq<Pair>, tab: seq<seq<int>>, pivots: seq<int>, n: nat, k: nat)
    requires Square(tab, n) && Dealt(b, tab, pivots, n, k, n, n + 1)
    ensures Full(b, tab, pivots, n, k)
  {
  }

  /** fill_buckets */
  method Fill(tab: seq<seq<int>>, n: nat, pivots: seq<int>, t: seq<int>, nb: nat, maxDepth: nat)
    returns (bs: seq<seq<Pair>>)
    requires Square(tab, n) && NonIncreasing(pivots) && nb == Pow2(maxDepth) == |pivots| + 1
    requires |t| == 2 * nb && TreeOk(t, pivots, 1, 0, maxDepth) && forall i :: nb <= i < 2 * nb ==> t[i] == i - nb
    ensures |bs| == nb && forall k :: 0 <= k < nb ==> Full(bs[k], tab, pivots, n, k)
  {
    hide Dealt, Full, TreeOk, Belongs;
    bs := seq(nb, _ => []);
    forall k | 0 <= k < nb ensures Dealt(bs[k], tab, pivots, n, k, 0, 1) { DealNone(tab, pivots, n, k); }
    for i := 0 to n
      invariant |bs| == nb && forall k :: 0 <= k < nb ==> Dealt(bs[k], tab, pivots, n, k, i, i + 1)
    {
      for j := i + 1 to n
        invariant |bs| == nb && forall k :: 0 <= k < nb ==> Dealt(bs[k], tab, pivots, n, k, i, j)
      {
        var id := BucketId(t, pivots, tab[i][j], nb, maxDepth);
        ghost var was := bs;
        bs := bs[id := bs[id] + [Pair(i, j)]];
        forall k | 0 <= k < nb ensures Dealt(bs[k], tab, pivots, n, k, i, j + 1) {
          DealOne(was[k], tab, pivots, n, k, i, j);
          OneBucket(tab, pivots, Pair(i, j), id, k);
        }
      }
      forall k | 0 <= k < nb ensures Dealt(bs[k], tab, pivots, n, k, i + 1, i + 2) {
        DealRow(bs[k], tab, pivots, n, k, i);
      }
    }
    forall k | 0 <= k < nb ensures Full(bs[k], tab, pivots, n, k) { DealAll(bs[k], tab, pivots, n, k); }
  }

  lemma OneBucket(tab: seq<seq<int>>, pivots: seq<int>, p: Pair, id: nat, k: nat)
    requires p.i < |tab| && p.j < |tab[p.i]| && NonIncreasing(pivots) && Between(pivots, Value(tab, p), id, id)
    ensures Belongs(tab, pivots, p, k) <==> k == id
  {
    if Belongs(tab, pivots, p, k) {
      LaterBucket(tab, pivots, p, k, p, id);
    }
  }

  /** Every pair belongs to a bucket. */
  lemma {:induction false} SomeBucket(pivots: seq<int>, val: int, hi: nat) returns (k: nat)
    requires NonIncreasing(pivots) && hi <= |pivots| && forall i :: hi <= i < |pivots| ==> pivots[i] < val
    ensures k <= hi && Between(pivots, val, k, k)
  {
    if hi == 0 || pivots[hi-1] >= val {
      k := hi;
    } else {
      k := SomeBucket(pivots, val, hi - 1);
    }
  }

  // ----- the iterator -----

  /** What the iterator has delivered: the buckets before cur, and `indice` elements of bucket cur. */
  ghost predicate Delivered(bs: seq<seq<Pair>>, cur: nat, indice: nat, out: seq<Pair>)
    requires cur < |bs| && indice <= |bs[cur]|
  {
    forall p :: p in out <==> InEarlier(bs, cur, p) || p in bs[cur][..indice]
  }

  ghost predicate InEarlier(bs: seq<seq<Pair>>, cur: nat, p: Pair)
    requires cur <= |bs|
  {
    exists k :: 0 <= k < cur && p in bs[k]
  }

  lemma DeliverNextBucket(bs: seq<seq<Pair>>, cur: nat, out: seq<Pair>)
    requires cur + 1 < |bs| && Delivered(bs, cur, |bs[cur]|, out)
    ensures Delivered(bs, cur + 1, 0, out)
  {
    assert bs[cur][..|bs[cur]|] == bs[cur];
    forall p ensures InEarlier(bs, cur + 1, p) <==> InEarlier(bs, cur, p) || p in bs[cur] {
    }
  }

  lemma DeliverOne(bs: seq<seq<Pair>>, cur: nat, indice: nat, out: seq<Pair>)
    requires cur < |bs| && indice < |bs[cur]| && Delivered(bs, cur, indice, out)
    ensures Delivered(bs, cur, indice + 1, out + [bs[cur][indice]])
  {
    var b := bs[cur];
    assert b[..indice+1] == b[..indice] + [b[indice]];
  }

  /** Sorting a bucket of which nothing has been delivered. */
  lemma DeliverSorted(bs: seq<seq<Pair>>, cur: nat, out: seq<Pair>, l: seq<Pair>)
    requires cur < |bs| && Delivered(bs, cur, 0, out)
    ensures Delivered(bs[cur := l], cur, 0, out)
  {
    var bs' := bs[cur := l];
    forall p ensures InEarlier(bs', cur, p) <==> InEarlier(bs, cur, p) {
      if k :| 0 <= k < cur && p in bs[k] { assert p in bs'[k]; }
      if k :| 0 <= k < cur && p in bs'[k] { assert p in bs[k]; }
    }
  }

  /** All buckets are full. */
  ghost predicate AllFull(bs: seq<seq<Pair>>, tab: seq<seq<int>>, pivots: seq<int>, n: nat)
    requires Square(tab, n)
  {
    |bs| == |pivots| + 1 && forall k :: 0 <= k < |bs| ==> Full(bs[k], tab, pivots, n, k)
  }

  /** A pair that has not been delivered is in the current bucket, further on, or in a later one. */
  lemma StillThere(bs: seq<seq<Pair>>, tab: seq<seq<int>>, pivots: seq<int>, n: nat, cur: nat, indice: nat,
                   out: seq<Pair>, q: Pair) returns (k: nat)
    requires Square(tab, n) && NonIncreasing(pivots) && AllFull(bs, tab, pivots, n) && cur < |bs| && indice <= |bs[cur]|
    requires Delivered(bs, cur, indice, out) && IsPair(q, n) && q !in out
    ensures cur <= k < |bs| && q in bs[k] && (k == cur ==> q in bs[cur][indice..]) && Belongs(tab, pivots, q, k)
  {
    k := SomeBucket(pivots, Value(tab, q), |pivots|);
    assert Full(bs[k], tab, pivots, n, k);
    assert q in bs[k];
    if k == cur { assert bs[cur] == bs[cur][..indice] + bs[cur][indice..]; }
  }

  /** The next pair comes before all that follow it. */
  lemma NextIsFirst(bs: seq<seq<Pair>>, tab: seq<seq<int>>, pivots: seq<int>, n: nat, cur: nat, indice: nat,
                    out: seq<Pair>, q: Pair)
    requires Square(tab, n) && NonIncreasing(pivots) && AllFull(bs, tab, pivots, n) && cur < |bs| && indice < |bs[cur]|
    requires Delivered(bs, cur, indice, out) && Ordered(tab, bs[cur]) && IsPair(q, n) && q !in out
    requires q != bs[cur][indice]
    ensures IsPair(bs[cur][indice], n) && Before(tab, bs[cur][indice], q)
  {
    var p := bs[cur][indice];
    assert Full(bs[cur], tab, pivots, n, cur) && p in bs[cur];
    var k := StillThere(bs, tab, pivots, n, cur, indice, out, q);
    if k == cur {
      var x :| 0 <= x < |bs[cur][indice..]| && bs[cur][indice..][x] == q;
      assert bs[cur][indice + x] == q;
    } else {
      LaterBucket(tab, pivots, p, cur, q, k);
    }
  }

  /** It has not been delivered yet. */
  lemma NextIsNew(bs: seq<seq<Pair>>, tab: seq<seq<int>>, pivots: seq<int>, n: nat, cur: nat, indice: nat,
                  out: seq<Pair>)
    requires Square(tab, n) && NonIncreasing(pivots) && AllFull(bs, tab, pivots, n) && cur < |bs| && indice < |bs[cur]|
    requires Delivered(bs, cur, indice, out)
    ensures IsPair(bs[cur][indice], n) && bs[cur][indice] !in out
  {
    var p := bs[cur][indice];
    assert Full(bs[cur], tab, pivots, n, cur) && p in bs[cur];
    assert p !in bs[cur][..indice];
    forall k | 0 <= k < cur ensures p !in bs[k] {
      assert Full(bs[k], tab, pivots, n, k);
      if p in bs[k] { LaterBucket(tab, pivots, p, k, p, cur); }
    }
  }

  /** Pairs that are left come after all that were delivered. */
  ghost predicate Leads(tab: seq<seq<int>>, n: nat, out: seq<Pair>) {
    && Ordered(tab, out) && Pairs(out, n)
    && forall p, q :: p in out && IsPair(q, n) && q !in out ==> Before(tab, p, q)
  }

  lemma LeadsHeavier(tab: seq<seq<int>>, n: nat, out: seq<Pair>, p: Pair)
    requires Square(tab, n) && Leads(tab, n, out) && p in out && IsPair(p, n)
    ensures forall q :: IsPair(q, n) && q !in out ==> Heavier(tab, p, q)
  {
    forall q | IsPair(q, n) && q !in out ensures Heavier(tab, p, q) {
      assert Before(tab, p, q);
    }
  }

  /** So what was delivered is the start of the full sort. */
  lemma LeadsPrefix(tab: seq<seq<int>>, n: nat, out: seq<Pair>, all: seq<Pair>)
    requires Leads(tab, n, out) && Ordered(tab, all) && forall p :: p in all <==> IsPair(p, n)
    ensures |out| <= |all| && out == all[..|out|]
    decreases |out|
  {
    if out != [] {
      var l := |out| - 1;
      var last := out[l];
      assert out == out[..l] + [last];
      LeadsShorter(tab, n, out);
      LeadsPrefix(tab, n, out[..l], all);
      assert last in all;
      var x :| 0 <= x < |all| && all[x] == last;
      PlaceOfLast(tab, n, out, all, x);
    }
  }

  lemma LeadsShorter(tab: seq<seq<int>>, n: nat, out: seq<Pair>)
    requires Leads(tab, n, out) && out != []
    ensures Leads(tab, n, out[..|out|-1])
  {
    var l := |out| - 1;
    assert out == out[..l] + [out[l]];
    forall p, q | p in out[..l] && IsPair(q, n) && q !in out[..l] ensures Before(tab, p, q) {
      if q == out[l] {
        var x :| 0 <= x < l && out[..l][x] == p;
        assert Before(tab, out[x], out[l]);
      }
    }
  }

  lemma InOrder(tab: seq<seq<int>>, l: seq<Pair>, x: nat, y: nat)
    requires Ordered(tab, l) && x < |l| && y < |l|
    ensures x < y ==> Before(tab, l[x], l[y])
  {
  }

  lemma NotBefore(tab: seq<seq<int>>, l: seq<Pair>, x: nat, y: nat)
    requires Ordered(tab, l) && x <= y < |l|
    ensures l[y] !in l[..x]
  {
  }

  lemma PlaceOfLast(tab: seq<seq<int>>, n: nat, out: seq<Pair>, all: seq<Pair>, x: nat)
    requires Leads(tab, n, out) && out != [] && Ordered(tab, all) && forall p :: p in all <==> IsPair(p, n)
    requires |out| - 1 <= |all| && out[..|out|-1] == all[..|out|-1] && x < |all| && all[x] == out[|out|-1]
    ensures x == |out| - 1
  {
    var l := |out| - 1;
    NotBefore(tab, out, l, l);
    if l < |all| {
      NotBefore(tab, all, l, l);
      assert all[l] in all && out[l] in out && out == out[..l] + [out[l]];
      InOrder(tab, all, l, x);
    }
  }

  // ----- the pivots -----

  ghost predicate Descending(tab: seq<seq<int>>, n: nat, l: seq<Pair>)
    requires Square(tab, n)
  {
    && (forall x :: 0 <= x < |l| ==> IsPair(l[x], n))
    && forall x, y :: 0 <= x < y < |l| ==> Value(tab, l[x]) >= Value(tab, l[y])
  }

  predicate AtLeast(tab: seq<seq<int>>, a: Pair, b: Pair) {
    a.i < |tab| && a.j < |tab[a.i]| && b.i < |tab| && b.j < |tab[b.i]| && Value(tab, a) >= Value(tab, b)
  }

  /** The sample: random pairs, sorted with tab_cmp: by value, and equal values in some order. */
  method SortedSample(tab: seq<seq<int>>, n: nat, count: nat) returns (sample: seq<Pair>)
    requires Square(tab, n) && n >= 3
    ensures |sample| == count && Descending(tab, n, sample)
  {
    var drawn: seq<Pair> := [];
    for k := 0 to count
      invariant |drawn| == k && Pairs(drawn, n)
    {
      var i: nat :| 1 <= i <= n - 2;
      var j: nat := n - 1;
      if i != n - 2 {
        j :| i + 1 <= j <= n - 2;
      }
      drawn := drawn + [Pair(i, j)];
    }
    sample := SortBy(drawn, (p: Pair, q: Pair) => AtLeast(tab, p, q));
    SameElements(sample, drawn);
    forall x | 0 <= x < |sample| ensures IsPair(sample[x], n) { assert sample[x] in drawn; }
  }

  ghost function Values(tab: seq<seq<int>>, n: nat, l: seq<Pair>): (vals: seq<int>)
    requires Square(tab, n) && Descending(tab, n, l)
    ensures |vals| == |l| && NonIncreasing(vals)
  {
    seq(|l|, x requires 0 <= x < |l| => Value(tab, l[x]))
  }

  lemma ValueAt(tab: seq<seq<int>>, n: nat, l: seq<Pair>, x: nat)
    requires Square(tab, n) && Descending(tab, n, l) && x < |l|
    ensures l[x].i < |tab| && l[x].j < |tab[l[x].i]| && Values(tab, n, l)[x] == Value(tab, l[x])
  {
  }

  ghost predicate PivotsOf(pivots: seq<int>, vals: seq<int>) {
    forall x {:trigger pivots[x]} :: 0 <= x < |pivots| ==> Pow2(x) <= |vals| && pivots[x] == vals[Pow2(x) - 1]
  }

  lemma PivotNext(pivots: seq<int>, vals: seq<int>)
    requires PivotsOf(pivots, vals) && Pow2(|pivots|) <= |vals|
    ensures PivotsOf(pivots + [vals[Pow2(|pivots|) - 1]], vals)
  {
    hide Pow2;
    var l := |pivots|;
    var more := pivots + [vals[Pow2(l) - 1]];
    assert more[..l] == pivots && more[l] == vals[Pow2(l) - 1];
    forall x | 0 <= x < |more| ensures Pow2(x) <= |vals| && more[x] == vals[Pow2(x) - 1] {
      if x < l { assert more[x] == pivots[x]; }
    }
  }

  lemma PivotsFall(pivots: seq<int>, vals: seq<int>)
    requires NonIncreasing(vals) && PivotsOf(pivots, vals)
    ensures NonIncreasing(pivots)
  {
    forall i, j | 0 <= i < j < |pivots| ensures pivots[i] >= pivots[j] {
      PowMono(i + 1, j);
    }
  }

  /** The pivots: the values of the sample at positions 0, 1, 3, 7, and so on. */
  method Pivots(tab: seq<seq<int>>, n: nat, nb: nat, ghost depth: nat) returns (pivots: seq<int>, ghost vals: seq<int>)
    requires Square(tab, n) && n >= 3 && nb == Pow2(depth) && 1 <= depth <= 3
    ensures |pivots| == nb - 1 && NonIncreasing(pivots)
    ensures (exists sample :: |sample| == nb * nb && Descending(tab, n, sample) && vals == Values(tab, n, sample))
    ensures PivotsOf(pivots, vals)
  {
    SampleFits(depth);
    var size := nb * nb;
    var sample := SortedSample(tab, n, size);
    vals := Values(tab, n, sample);
    pivots := [];
    assert PivotsOf(pivots, vals);
    hide Descending, Square, Value, NonIncreasing, PivotsOf, Values;
    var id := 1;
    for k := 1 to nb
      invariant id == Pow2(k - 1) && |pivots| == k - 1 && PivotsOf(pivots, vals)
    {
      PowMono(k - 1, nb - 2);
      ValueAt(tab, n, sample, id - 1);
      PivotNext(pivots, vals);
      pivots := pivots + [Value(tab, sample[id - 1])];
      id := id * 2;
    }
    PivotsFall(pivots, vals);
  }

  /** With at most eight buckets the sample is long enough. */
  lemma SampleFits(depth: nat)
    requires 1 <= depth <= 3
    ensures var nb := Pow2(depth); 2 <= nb && Pow2(nb - 2) <= nb * nb
  {
    assert Pow2(1) == 2 && Pow2(2) == 4 && Pow2(3) == 8 && Pow2(6) == 64;
  }

  class BucketList {
    const tab: seq<seq<int>>
    const n: nat
    ghost const pivots: seq<int>
    var buckets: seq<seq<Pair>>
    var sorted: seq<bool>
    var cur: nat
    var indice: nat
    /** What the iterator has delivered. */
    ghost var out: seq<Pair>

    ghost predicate Valid()
      reads this
    {
      && Square(tab, n) && NonIncreasing(pivots) && AllFull(buckets, tab, pivots, n) && |sorted| == |buckets|
      && (forall k :: 0 <= k < |buckets| && sorted[k] ==> Ordered(tab, buckets[k]))
      && cur < |buckets| && indice <= |buckets[cur]| && (indice > 0 ==> sorted[cur])
      && Delivered(buckets, cur, indice, out) && Leads(tab, n, out)
    }

    /** partial_sort */
    constructor (tab: seq<seq<int>>, n: nat)
      requires Square(tab, n) && 3 <= n < 0x8000
      ensures Valid() && this.tab == tab && this.n == n && out == []
    {
      hide TreeOk, Full;
      var nb, depth, bits := BucketCount(n);
      var ps, vals := Pivots(tab, n, nb, depth);
      var maxDepth := Ilog2(nb);
      PowLess(depth, maxDepth);
      PowLess(maxDepth - 1, depth + 1);
      PowMono(depth, depth);
      maxDepth := maxDepth - 1;
      var t := BuildTree(ps, nb, maxDepth);
      this.tab, this.n, pivots := tab, n, ps;
      var bs := Fill(tab, n, ps, t, nb, maxDepth);
      buckets := bs;
      sorted := seq(nb, _ => false);
      cur, indice, out := 0, 0, [];
    }

    /** next_bucket_elem: the first of all pairs that are left, in the order of tab_cmp. */
    method Next() returns (p: Pair)
      requires Valid() && exists q :: IsPair(q, n) && q !in out
      modifies this
      ensures Valid() && out == old(out) + [p] && IsPair(p, n) && p !in old(out) && Leads(tab, n, out)
      ensures forall q :: IsPair(q, n) && q !in out ==> Heavier(tab, p, q)
    {
      SkipEmpty();
      if !sorted[cur] {
        SortCurrent();
      }
      NextIsNew(buckets, tab, pivots, n, cur, indice, out);
      NextLeads(buckets, tab, pivots, n, cur, indice, out);
      DeliverOne(buckets, cur, indice, out);
      hide Delivered, AllFull, Leads, Ordered;
      p := buckets[cur][indice];
      indice := indice + 1;
      out := out + [p];
      LeadsHeavier(tab, n, out, p);
    }

    /** To the next bucket that has something left; there is one. */
    method SkipEmpty()
      requires Valid() && exists q :: IsPair(q, n) && q !in out
      modifies `cur, `indice
      ensures Valid() && indice < |buckets[cur]|
    {
      ghost var q :| IsPair(q, n) && q !in out;
      while |buckets[cur]| <= indice
        invariant Valid()
        decreases |buckets| - cur
      {
        ghost var k := StillThere(buckets, tab, pivots, n, cur, indice, out, q);
        assert buckets[cur][indice..] == [];
        DeliverNextBucket(buckets, cur, out);
        hide Delivered, AllFull, Leads, Ordered;
        indice := 0;
        cur := cur + 1;
      }
    }

    method SortCurrent()
      requires Valid() && !sorted[cur]
      modifies `buckets, `sorted
      ensures Valid() && sorted[cur] && |buckets[cur]| == |old(buckets)[cur]|
    {
      ghost var was := buckets;
      FullFacts(buckets[cur], tab, pivots, n, cur);
      var l := Sort(tab, n, buckets[cur]);
      SortedFull(buckets, tab, pivots, n, cur, l);
      DeliverSorted(buckets, cur, out, l);
      hide Delivered, AllFull, Leads, Ordered, Full;
      buckets := buckets[cur := l];
      sorted := sorted[cur := true];
    }
  }

  lemma FullFacts(b: seq<Pair>, tab: seq<seq<int>>, pivots: seq<int>, n: nat, k: nat)
    requires Square(tab, n) && Full(b, tab, pivots, n, k)
    ensures NoDup(b) && Pairs(b, n)
  {
  }

  lemma SortedFull(bs: seq<seq<Pair>>, tab: seq<seq<int>>, pivots: seq<int>, n: nat, k: nat, l: seq<Pair>)
    requires Square(tab, n) && AllFull(bs, tab, pivots, n) && k < |bs| && Ordered(tab, l)
    requires forall p :: p in l <==> p in bs[k]
    ensures AllFull(bs[k := l], tab, pivots, n)
  {
    assert Full(bs[k], tab, pivots, n, k);
    forall x, y | 0 <= x < y < |l| ensures l[x] != l[y] {
      assert Before(tab, l[x], l[y]);
    }
  }

  lemma NextLeads(bs: seq<seq<Pair>>, tab: seq<seq<int>>, pivots: seq<int>, n: nat, cur: nat, indice: nat,
                  out: seq<Pair>)
    requires Square(tab, n) && NonIncreasing(pivots) && AllFull(bs, tab, pivots, n) && cur < |bs| && indice < |bs[cur]|
    requires Delivered(bs, cur, indice, out) && Ordered(tab, bs[cur]) && Leads(tab, n, out)
    ensures Leads(tab, n, out + [bs[cur][indice]])
  {
    var p := bs[cur][indice];
    var l := out + [p];
    NextIsNew(bs, tab, pivots, n, cur, indice, out);
    forall x, y | 0 <= x < y < |l| ensures Before(tab, l[x], l[y]) {
      if y == |out| { assert out[x] in out; }
    }
    forall a, q | a in l && IsPair(q, n) && q !in l ensures Before(tab, a, q) {
      if a == p { NextIsFirst(bs, tab, pivots, n, cur, indice, out, q); }
    }
  }

  // ----- grouping nodes two by two -----

  /** Nodes without a parent. */
  ghost function Single(parent: seq<int>): set<int> {
    set x | 0 <= x < |parent| && parent[x] == -1
  }

  /** Two nodes without a parent, in order. */
  lemma TwoSingle(parent: seq<int>) returns (p: Pair)
    requires |Single(parent)| >= 2
    ensures IsPair(p, |parent|) && parent[p.i] == -1 && parent[p.j] == -1
  {
    var s := Single(parent);
    assert s != {};
    var a := Pick(s);
    assert |s - {a}| == |s| - 1;
    var b := Pick(s - {a});
    p := if a < b then Pair(a, b) else Pair(b, a);
  }

  ghost predicate Blocked(parent: seq<int>, p: Pair) {
    p.i < |parent| && p.j < |parent| && (parent[p.i] != -1 || parent[p.j] != -1)
  }

  /** The state of the grouping loop: l groups so far, and every pair seen has a node that is taken. */
  ghost predicate Grouping(parent: seq<int>, groups: seq<Pair>, out: seq<Pair>, n: nat) {
    && |parent| == n && |Single(parent)| == n - 2 * |groups|
    && (forall p :: p in out ==> Blocked(parent, p))
    && (forall g :: 0 <= g < |groups| ==> IsPair(groups[g], n) && parent[groups[g].i] == parent[groups[g].j] == g)
    && (forall x :: 0 <= x < n && parent[x] != -1 ==>
         0 <= parent[x] < |groups| && (x == groups[parent[x]].i || x == groups[parent[x]].j))
  }

  lemma SingleTwoLess(parent: seq<int>, p: Pair, g: int)
    requires IsPair(p, |parent|) && parent[p.i] == -1 && parent[p.j] == -1 && g != -1
    ensures |Single(parent[p.i := g][p.j := g])| == |Single(parent)| - 2
  {
    var after := parent[p.i := g][p.j := g];
    assert Single(parent) == Single(after) + {p.i, p.j};
    TwoMore(Single(after), p.i, p.j);
  }

  lemma TwoMore(s: set<int>, a: int, b: int)
    requires a !in s && b !in s && a != b
    ensures |s + {a, b}| == |s| + 2
  {
    assert s + {a, b} == s + {a} + {b};
  }

  lemma GroupStep(parent: seq<int>, groups: seq<Pair>, out: seq<Pair>, n: nat, p: Pair)
    requires Grouping(parent, groups, out, n) && IsPair(p, n) && parent[p.i] == -1 && parent[p.j] == -1
    ensures Grouping(parent[p.i := |groups|][p.j := |groups|], groups + [p], out + [p], n)
  {
    SingleTwoLess(parent, p, |groups|);
    hide Single;
  }

  lemma GroupSkip(parent: seq<int>, groups: seq<Pair>, out: seq<Pair>, n: nat, p: Pair)
    requires Grouping(parent, groups, out, n) && IsPair(p, n) && !(parent[p.i] == -1 && parent[p.j] == -1)
    ensures Grouping(parent, groups, out + [p], n)
  {
    hide Single;
  }

  /** While groups are missing, some pair has not been seen. */
  lemma MorePairs(parent: seq<int>, groups: seq<Pair>, out: seq<Pair>, n: nat) returns (p: Pair)
    requires Grouping(parent, groups, out, n) && 2 * |groups| + 2 <= n
    ensures IsPair(p, n) && p !in out
  {
    p := TwoSingle(parent);
  }

  /** No node is left over: n / 2 groups of two, which are disjoint. */
  ghost predicate PerfectMatching(parent: seq<int>, groups: seq<Pair>, n: nat) {
    && |parent| == n && 2 * |groups| == n && (forall g :: 0 <= g < |groups| ==> IsPair(groups[g], n))
    && (forall x :: 0 <= x < n ==> 0 <= parent[x] < |groups|)
    && (forall x, g :: 0 <= x < n && 0 <= g < |groups| ==> (parent[x] == g <==> x == groups[g].i || x == groups[g].j))
  }

  lemma GroupsDone(parent: seq<int>, groups: seq<Pair>, out: seq<Pair>, n: nat)
    requires Grouping(parent, groups, out, n) && 2 * |groups| == n
    ensures PerfectMatching(parent, groups, n)
  {
    assert Single(parent) == {};
    forall x | 0 <= x < n ensures parent[x] != -1 {
      assert x !in Single(parent);
    }
  }

  /** A group of the list has a vertex of p. */
  ghost predicate Touches(groups: seq<Pair>, p: Pair) {
    exists g :: 0 <= g < |groups| && (groups[g].i in {p.i, p.j} || groups[g].j in {p.i, p.j})
  }

  /** Greedy matching: each pair in turn, unless a pair taken before has one of its vertices. */
  ghost function Greedy(l: seq<Pair>): seq<Pair> {
    if l == [] then [] else
      var groups := Greedy(l[..|l|-1]);
      if Touches(groups, l[|l|-1]) then groups else groups + [l[|l|-1]]
  }

  lemma TouchesIs(parent: seq<int>, groups: seq<Pair>, out: seq<Pair>, n: nat, p: Pair)
    requires Grouping(parent, groups, out, n) && IsPair(p, n)
    ensures Touches(groups, p) <==> parent[p.i] != -1 || parent[p.j] != -1
  {
    hide Single;
  }

  lemma GreedyNext(out: seq<Pair>, p: Pair)
    ensures Greedy(out + [p]) == if Touches(Greedy(out), p) then Greedy(out) else Greedy(out) + [p]
  {
    assert (out + [p])[..|out|] == out;
  }

  /** The loop of tm_bucket_grouping with tm_try_add_edge for arity 2. */
  method Group(tab: seq<seq<int>>, m: nat) returns (parent: seq<int>, groups: seq<Pair>, ghost out: seq<Pair>)
    requires Square(tab, 2 * m) && 3 <= 2 * m < 0x8000
    ensures PerfectMatching(parent, groups, 2 * m) && Leads(tab, 2 * m, out) && groups == Greedy(out)
  {
    hide Single, Leads, Delivered, AllFull, Ordered, Touches, Grouping, Greedy, PerfectMatching;
    var list := new BucketList(tab, 2 * m);
    parent := seq(2 * m, _ => -1);
    groups := [];
    NoGroups(parent);
    ghost var left := AllPairs(2 * m);
    var l := 0;
    while l < m
      invariant l == |groups| <= m && |parent| == 2 * m && list.Valid() && list.tab == tab && list.n == 2 * m
      invariant Grouping(parent, groups, list.out, 2 * m)
      invariant groups == Greedy(list.out)
      invariant forall p :: p in left <==> IsPair(p, 2 * m) && p !in list.out
      decreases left
    {
      ghost var q := MorePairs(parent, groups, list.out, 2 * m);
      ghost var out0 := list.out;
      var p := list.Next();
      left := left - {p};
      TouchesIs(parent, groups, out0, 2 * m, p);
      GreedyNext(out0, p);
      if parent[p.i] == -1 && parent[p.j] == -1 {
        GroupStep(parent, groups, out0, 2 * m, p);
        parent := parent[p.i := l][p.j := l];
        groups := groups + [p];
        l := l + 1;
      } else {
        GroupSkip(parent, groups, out0, 2 * m, p);
      }
    }
    GroupsDone(parent, groups, list.out, 2 * m);
    out := list.out;
  }

  lemma NoGroups(parent: seq<int>)
    requires forall x :: 0 <= x < |parent| ==> parent[x] == -1
    ensures Grouping(parent, [], [], |parent|) && Greedy([]) == []
  {
    SingleAll(parent);
    hide Single;
  }

  lemma {:induction false} SingleAll(parent: seq<int>)
    requires forall x :: 0 <= x < |parent| ==> parent[x] == -1
    ensures |Single(parent)| == |parent|
  {
    if parent == [] {
      assert Single(parent) == {};
    } else {
      var l := |parent| - 1;
      SingleAll(parent[..l]);
      assert Single(parent) == Single(parent[..l]) + {l};
    }
  }

  ghost function AllPairs(n: nat): set<Pair> {
    set i, j | 0 <= i < n && 0 <= j < n && i < j :: Pair(i, j)
  }
}
