/**
  build_p_vector without greedy trials: the dumb vertices go where their constraints say,
  the others are dealt out to the parts in turn.  All parts end up equally full.
*/
module KPartFill {
  import opened FiboShape
  import opened KPartModel
  import opened KPartState
  import opened KPartTrace
  import opened KPartition

  ghost function Sum(s: seq<int>): int {
    if s == [] then 0 else Sum(s[..|s|-1]) + s[|s|-1]
  }

  lemma {:induction false} SumAdd(s: seq<int>, p: nat, x: int)
    requires p < |s|
    ensures Sum(s[p := s[p] + x]) == Sum(s) + x
  {
    var t := s[p := s[p] + x];
    if p == |s| - 1 {
      assert t[..p] == s[..p];
    } else {
      assert t[..|s|-1] == s[..|s|-1][p := s[p] + x];
      SumAdd(s[..|s|-1], p, x);
    }
  }

  lemma {:induction false} SumZeros(k: nat)
    ensures Sum(seq(k, _ => 0)) == 0
  {
    if k != 0 {
      assert seq(k, _ => 0)[..k-1] == seq(k - 1, _ => 0);
      SumZeros(k - 1);
    }
  }

  /** Sums of bounded terms: at the bound only if every term is. */
  lemma {:induction false} SumBound(s: seq<int>, cap: nat)
    requires forall p :: 0 <= p < |s| ==> s[p] <= cap
    ensures Sum(s) <= |s| * cap
    ensures Sum(s) == |s| * cap ==> forall p :: 0 <= p < |s| ==> s[p] == cap
  {
    if s != [] {
      var t := s[..|s|-1];
      SumBound(t, cap);
      assert |s| * cap == |t| * cap + cap;
    }
  }

  /** While vertices are left, some part has room. */
  lemma NextRoom(part: seq<int>, size: seq<int>, n: nat, i: nat, k: nat, cap: nat) returns (p: nat)
    requires Dealt(part, size, n, i, k, cap) && i < n && |part| == k * cap
    ensures p < k && size[p] < cap
  {
    p := Room(size, cap);
  }

  lemma FullAtEnd(part: seq<int>, size: seq<int>, n: nat, k: nat, cap: nat, p: nat)
    requires Dealt(part, size, n, n, k, cap) && |part| == k * cap && p < k
    ensures Count(part, 0, |part|, p) == cap
  {
    SumBound(size, cap);
    CountSplit(part, 0, n, |part|, p);
  }

  lemma Room(s: seq<int>, cap: nat) returns (p: nat)
    requires (forall p :: 0 <= p < |s| ==> s[p] <= cap) && Sum(s) < |s| * cap
    ensures p < |s| && s[p] < cap
  {
    if forall p :: 0 <= p < |s| ==> s[p] == cap {
      SumFull(s, cap);
      assert false;
    }
    p :| 0 <= p < |s| && s[p] != cap;
  }

  lemma {:induction false} SumFull(s: seq<int>, cap: nat)
    requires forall p :: 0 <= p < |s| ==> s[p] == cap
    ensures Sum(s) == |s| * cap
  {
    if s != [] {
      SumFull(s[..|s|-1], cap);
      assert |s| * cap == (|s| - 1) * cap + cap;
    }
  }

  ghost predicate Constraints(c: seq<int>, total: nat) {
    && (forall i :: 0 <= i < |c| ==> 0 <= c[i] < total)
    && (forall i, j :: 0 <= i < j < |c| ==> c[i] < c[j])
  }

  /** How many of the slots up to c can lie in block p. */
  function Within(c: int, p: int, cap: nat): int {
    if c < p * cap then 0 else if c >= p * cap + cap then cap else c + 1 - p * cap
  }

  /** Distinct constraints never fill a part beyond its capacity. */
  lemma {:induction false} Feasible(c: seq<int>, part: seq<int>, n: nat, cap: nat, i: nat, p: int)
    requires cap > 0 && i <= |c| && n + i <= |part| && forall x, y :: 0 <= x < y < |c| ==> c[x] < c[y]
    requires forall x :: 0 <= x < i ==> part[n + x] == c[x] / cap
    ensures Count(part, n, n + i, p) <= cap
    ensures i > 0 ==> Count(part, n, n + i, p) <= Within(c[i-1], p, cap)
  {
    if i != 0 {
      Feasible(c, part, n, cap, i - 1, p);
      var x := c[i-1];
      assert x == x / cap * cap + x % cap;
      if x / cap == p {
        assert part[n + i - 1] == p;
      } else if x / cap < p {
        BlockBelow(x, x / cap, p, cap);
      } else {
        BlockBelow(p * cap, p, x / cap, cap);
      }
    }
  }

  lemma BlockBelow(x: int, a: int, b: int, cap: nat)
    requires cap > 0 && a < b && a * cap <= x < a * cap + cap
    ensures x < b * cap && a * cap + cap <= b * cap
  {
    Spread(a, b - a - 1, cap);
  }

  lemma Spread(a: int, t: nat, cap: nat)
    ensures (a + 1 + t) * cap == a * cap + cap + t * cap >= a * cap + cap
  {
  }

  /** The sizes and the vector agree, for the first i vertices and all dumb ones. */
  ghost predicate Dealt(part: seq<int>, size: seq<int>, n: nat, i: nat, k: nat, cap: nat) {
    && i <= n <= |part| && |size| == k && Sum(size) == i + |part| - n
    && (forall x :: 0 <= x < i ==> 0 <= part[x] < k) && (forall x :: n <= x < |part| ==> 0 <= part[x] < k)
    && (forall p :: 0 <= p < k ==> size[p] == Count(part, 0, i, p) + Count(part, n, |part|, p) <= cap)
  }

  lemma Deal(part: seq<int>, size: seq<int>, n: nat, i: nat, k: nat, cap: nat, j: nat)
    requires Dealt(part, size, n, i, k, cap) && i < n && j < k && size[j] < cap
    ensures Dealt(part[i := j], size[j := size[j] + 1], n, i + 1, k, cap)
  {
    var part' := part[i := j];
    SumAdd(size, j, 1);
    forall p | 0 <= p < k
      ensures Count(part', 0, i + 1, p) == Count(part, 0, i, p) + (if p == j then 1 else 0)
      ensures Count(part', n, |part|, p) == Count(part, n, |part|, p)
    {
      CountKept(part, part', 0, i, p);
      CountKept(part, part', n, |part|, p);
    }
  }

  /** The first i dumb vertices are where their constraints put them, and counted. */
  ghost predicate Placed(part: seq<int>, size: seq<int>, c: seq<int>, n: nat, i: nat, k: nat, cap: nat) {
    && cap > 0 && i <= |c| && |part| == n + |c| && |size| == k && Sum(size) == i
    && (forall x :: 0 <= x < i ==> part[n + x] == c[x] / cap && 0 <= c[x] / cap < k)
    && (forall p :: 0 <= p < k ==> size[p] == Count(part, n, n + i, p))
  }

  lemma Place(part: seq<int>, size: seq<int>, c: seq<int>, n: nat, i: nat, k: nat, cap: nat)
    requires Placed(part, size, c, n, i, k, cap) && i < |c| && 0 <= c[i] < k * cap
    ensures 0 <= c[i] / cap < k
    ensures var p := c[i] / cap; Placed(part[n + i := p], size[p := size[p] + 1], c, n, i + 1, k, cap)
  {
    InRange(c[i], cap, k);
    var p := c[i] / cap;
    SumAdd(size, p, 1);
    var part', hi := part[n + i := p], n + i;
    forall x | 0 <= x < k ensures Count(part', n, hi, x) == Count(part, n, hi, x) {
      CountKept(part, part', n, hi, x);
    }
    forall x | 0 <= x < i + 1 ensures part'[n + x] == c[x] / cap {
    }
  }

  lemma AllPlaced(part: seq<int>, size: seq<int>, c: seq<int>, n: nat, k: nat, cap: nat)
    requires Placed(part, size, c, n, |c|, k, cap) && Constraints(c, |part|)
    ensures Dealt(part, size, n, 0, k, cap)
  {
    forall p | 0 <= p < k ensures size[p] <= cap {
      Feasible(c, part, n, cap, |c|, p);
    }
    forall x | n <= x < |part| ensures 0 <= part[x] < k {
      assert part[n + (x - n)] == c[x - n] / cap;
    }
  }

  /** The first loop: the dumb vertices. */
  method PlaceConstraints(total: nat, k: nat, cap: nat, c: seq<int>) returns (part: seq<int>, size: seq<int>)
    requires k > 0 && total == k * cap && Constraints(c, total) && |c| <= total
    ensures |part| == total && Dealt(part, size, total - |c|, 0, k, cap)
    ensures forall i :: 0 <= i < |c| ==> cap > 0 && part[total - |c| + i] == c[i] / cap
  {
    var n := total - |c|;
    part := seq(total, _ => 0);
    size := seq(k, _ => 0);
    SumZeros(k);
    if cap > 0 {
      for i := 0 to |c|
        invariant Placed(part, size, c, n, i, k, cap)
      {
        hide Placed;
        Place(part, size, c, n, i, k, cap);
        PlacedLengths(part, size, c, n, i, k, cap);
        var p := c[i] / cap;
        part := part[n + i := p];
        size := size[p := size[p] + 1];
      }
      AllPlaced(part, size, c, n, k, cap);
    } else {
      assert total == 0;
    }
  }

  lemma PlacedLengths(part: seq<int>, size: seq<int>, c: seq<int>, n: nat, i: nat, k: nat, cap: nat)
    requires Placed(part, size, c, n, i, k, cap)
    ensures |part| == n + |c| && |size| == k && i <= |c|
  {
  }

  lemma InRange(x: int, cap: nat, k: nat)
    requires 0 <= x < k * cap
    ensures cap > 0 && 0 <= x / cap < k
  {
    if cap == 0 { assert false; }
    if x / cap >= k {
      Spread(k - 1, x / cap - k, cap);
      assert false;
    }
  }

  lemma Wrap(j: nat, k: nat)
    requires j < k
    ensures (j + 1) % k == if j + 1 == k then 0 else j + 1
  {
  }

  // ----- the order of the deal -----

  /**
    Which parts get a vertex in the first r rounds, and from the first j parts in the next: each
    in turn, while it has room.
  */
  ghost function Turns(room: seq<int>, r: nat, j: nat): seq<int>
    requires j <= |room|
    decreases r, j
  {
    if j > 0 then Turns(room, r, j - 1) + (if room[j-1] > r then [j - 1] else [])
    else if r > 0 then Turns(room, r - 1, |room|)
    else []
  }

  /** How many vertices part p has got by then. */
  ghost function Got(room: seq<int>, r: nat, j: nat, p: nat): int
    requires p < |room|
  {
    if room[p] <= r then room[p] else if p < j then r + 1 else r
  }

  ghost predicate InTurn(part: seq<int>, size: seq<int>, room: seq<int>, cap: nat, i: nat, r: nat, j: nat) {
    && |size| == |room| && j < |room| && i <= |part| && part[..i] == Turns(room, r, j)
    && (forall p :: 0 <= p < |room| ==> 0 <= room[p] <= cap && size[p] == cap - room[p] + Got(room, r, j, p))
  }

  lemma NextTurn(part: seq<int>, size: seq<int>, room: seq<int>, cap: nat, i: nat, r: nat, j: nat)
    requires InTurn(part, size, room, cap, i, r, j) && i < |part|
    ensures var j' := (j + 1) % |room|;
            var r' := if j' == 0 then r + 1 else r;
            && (size[j] < cap ==> InTurn(part[i := j], size[j := size[j] + 1], room, cap, i + 1, r', j'))
            && (size[j] >= cap ==> InTurn(part, size, room, cap, i, r', j'))
  {
    Wrap(j, |room|);
    var j' := (j + 1) % |room|;
    var r' := if j' == 0 then r + 1 else r;
    assert Turns(room, r', j') == Turns(room, r, j + 1);
    assert part[i := j][..i+1] == part[..i] + [j];
  }

  /** Nothing is dealt once all parts are full. */
  lemma {:induction false} NoMoreTurns(room: seq<int>, r: nat, j: nat, r': nat, j': nat)
    requires j <= |room| && j' <= |room| && (r < r' || (r == r' && j <= j'))
    requires forall p :: 0 <= p < |room| ==> room[p] <= (if p < j then r + 1 else r)
    ensures Turns(room, r', j') == Turns(room, r, j)
    decreases r', j'
  {
    if r == r' && j == j' {
    } else if j' > 0 {
      NoMoreTurns(room, r, j, r', j' - 1);
    } else {
      NoMoreTurns(room, r, j, r' - 1, |room|);
    }
  }

  /** The part of each constraint. */
  ghost function Blocks(c: seq<int>, cap: nat): (b: seq<int>)
    ensures |b| == |c|
  {
    seq(|c|, i requires 0 <= i < |c| => if cap == 0 then 0 else c[i] / cap)
  }

  ghost function Rooms(c: seq<int>, k: nat, cap: nat): (room: seq<int>)
    ensures |room| == k
  {
    seq(k, p => cap - Count(Blocks(c, cap), 0, |c|, p))
  }

  /** The first partition: the real vertices in turn, then the dumb ones with their constraints. */
  ghost function CyclicFill(total: nat, k: nat, c: seq<int>): seq<int>
    requires k > 0
  {
    Turns(Rooms(c, k, total / k), total / k, 0) + Blocks(c, total / k)
  }

  lemma {:induction false} CountShift(part: seq<int>, n: nat, b: seq<int>, i: nat, p: int)
    requires n + |b| == |part| && i <= |b| && forall x :: 0 <= x < |b| ==> part[n + x] == b[x]
    ensures Count(part, n, n + i, p) == Count(b, 0, i, p)
  {
    if i > 0 {
      CountShift(part, n, b, i - 1, p);
    }
  }

  lemma StartsInTurn(start: seq<int>, size: seq<int>, c: seq<int>, n: nat, k: nat, cap: nat)
    requires Dealt(start, size, n, 0, k, cap) && n + |c| == |start| && k > 0
    requires forall x :: 0 <= x < |c| ==> start[n + x] == Blocks(c, cap)[x]
    ensures InTurn(start, size, Rooms(c, k, cap), cap, 0, 0, 0)
  {
    forall p | 0 <= p < k ensures size[p] == cap - Rooms(c, k, cap)[p] <= cap {
      CountShift(start, n, Blocks(c, cap), |c|, p);
    }
  }

  lemma TurnIsOver(part: seq<int>, size: seq<int>, room: seq<int>, n: nat, k: nat, cap: nat, r: nat, j: nat)
    requires InTurn(part, size, room, cap, n, r, j) && |room| == k && n <= |part|
    requires (forall p :: 0 <= p < k ==> size[p] == cap) && (r < cap || (r == cap && j == 0))
    ensures part[..n] == Turns(room, cap, 0)
  {
    NoMoreTurns(room, r, j, cap, 0);
  }

  /** The second loop: each remaining vertex goes to the next part that has room. */
  method DealOut(start: seq<int>, startSize: seq<int>, n: nat, k: nat, cap: nat, ghost room: seq<int>)
    returns (part: seq<int>)
    requires Dealt(start, startSize, n, 0, k, cap) && |start| == k * cap && k > 0
    requires |room| == k && InTurn(start, startSize, room, cap, 0, 0, 0)
    ensures |part| == |start| && part[n..] == start[n..] && part[..n] == Turns(room, cap, 0)
    ensures (forall i :: 0 <= i < n ==> 0 <= part[i] < k) && forall p :: 0 <= p < k ==> Count(part, 0, |part|, p) == cap
  {
    hide Sum, Count, InTurn;
    var size := startSize;
    part := start;
    var i, j := 0, 0;
    ghost var target, r := 0, 0;
    if i < n { target := NextRoom(part, size, n, i, k, cap); }
    while i < n
      invariant 0 <= i <= n && |part| == |start| && part[n..] == start[n..] && 0 <= j < k
      invariant Dealt(part, size, n, i, k, cap) && InTurn(part, size, room, cap, i, r, j)
      invariant (r < cap || (r == cap && j == 0))
      invariant i < n ==> 0 <= target < k && size[target] < cap
      decreases n - i, if j <= target then target - j else target - j + k
    {
      Wrap(j, k);
      NextTurn(part, size, room, cap, i, r, j);
      RoundsLeft(part, size, room, cap, i, r, j, target);
      if size[j] < cap {
        Deal(part, size, n, i, k, cap, j);
        size := size[j := size[j] + 1];
        part := part[i := j];
        i := i + 1;
        if i < n { target := NextRoom(part, size, n, i, k, cap); }
      }
      j := (j + 1) % k;
      if j == 0 { r := r + 1; }
    }
    AllFull(part, size, n, k, cap);
    TurnIsOver(part, size, room, n, k, cap, r, j);
    forall p | 0 <= p < k ensures Count(part, 0, |part|, p) == cap {
      FullAtEnd(part, size, n, k, cap, p);
    }
  }

  lemma RoundsLeft(part: seq<int>, size: seq<int>, room: seq<int>, cap: nat, i: nat, r: nat, j: nat, target: nat)
    requires InTurn(part, size, room, cap, i, r, j) && target < |room| && size[target] < cap
    ensures r < cap
  {
  }

  lemma AllFull(part: seq<int>, size: seq<int>, n: nat, k: nat, cap: nat)
    requires Dealt(part, size, n, n, k, cap) && |part| == k * cap
    ensures |size| == k && forall p :: 0 <= p < k ==> size[p] == cap
  {
    SumBound(size, cap);
  }

  /** build_p_vector, cyclic branch, with cap vertices for each part. */
  method FillUp(total: nat, k: nat, cap: nat, c: seq<int>) returns (part: seq<int>)
    requires k > 0 && total == k * cap && Constraints(c, total) && |c| <= total
    ensures |part| == total && part == Turns(Rooms(c, k, cap), cap, 0) + Blocks(c, cap)
    ensures (forall i :: 0 <= i < total - |c| ==> 0 <= part[i] < k)
    ensures forall p :: 0 <= p < k ==> Count(part, 0, total, p) == cap
    ensures forall i :: 0 <= i < |c| ==> cap > 0 && part[total - |c| + i] == c[i] / cap
  {
    hide Sum, Count, Constraints, Dealt, InTurn, Turns, Rooms;
    var n := total - |c|;
    var start, size := PlaceConstraints(total, k, cap, c);
    StartsInTurn(start, size, c, n, k, cap);
    part := DealOut(start, size, n, k, cap, Rooms(c, k, cap));
    forall i | 0 <= i < |c| ensures part[n + i] == Blocks(c, cap)[i] == c[i] / cap {
      assert part[n..][i] == start[n..][i] == start[n + i];
    }
    assert part[n..] == Blocks(c, cap);
    assert part == part[..n] + part[n..];
  }

  /** build_p_vector, cyclic branch: it ends, with all parts equally full. */
  method Fill(total: nat, k: nat, c: seq<int>) returns (part: seq<int>)
    requires k > 0 && total % k == 0 && Constraints(c, total) && |c| <= total
    ensures |part| == total && part == CyclicFill(total, k, c)
    ensures (forall i :: 0 <= i < total - |c| ==> 0 <= part[i] < k)
    ensures forall i :: 0 <= i < |c| ==> part[total - |c| + i] == c[i] / (total / k)
    ensures forall p :: 0 <= p < k ==> Count(part, 0, total, p) == total / k
  {
    hide Count, Constraints, Turns, Rooms, Blocks;
    part := FillUp(total, k, total / k, c);
  }

  /**
    tm_kPartitioning with the cyclic first partition: the parts stay equally full and the dumb
    vertices where they were put.  The gain loop runs from the cyclic fill to its end, and at most
    one vertex is moved after it.
  */
  method Partition(m: seq<seq<int>>, total: nat, k: nat, c: seq<int>) returns (part: seq<int>, ghost trace: seq<State>)
    requires k > 0 && total % k == 0 && Constraints(c, total) && |c| <= total && Symmetric(m, total - |c|)
    requires total < FIB34 && k < FIB34
    ensures |part| == |CyclicFill(total, k, c)| == total
    ensures forall p :: 0 <= p < k ==> Count(part, 0, total, p) == total / k
    ensures forall i :: 0 <= i < |c| ==> part[total - |c| + i] == c[i] / (total / k)
    ensures GainRun(trace, m, total - |c|, k, CyclicFill(total, k, c))
    ensures Rebalanced(m, Last(trace), part, total - |c|)
    ensures |trace| - 1 + Entries(Last(trace).inst) == (total - |c|) * k
    ensures |trace| == 1 <==> Settled(m, CyclicFill(total, k, c), total - |c|, k)
    ensures |trace| > 1 ==> |Last(trace).part| == total
    ensures |trace| > 1 ==>
              Cut(m, Last(trace).part, total - |c|, total - |c|)
              < Cut(m, CyclicFill(total, k, c), total - |c|, total - |c|)
  {
    hide Cut, Settled, Rebalanced, CyclicFill, GainRun;
    var n := total - |c|;
    var first := Fill(total, k, c);
    var state := new Partitioner(n, k, m, first);
    trace := state.Run();
    part := state.part;
    forall p | 0 <= p < k ensures Count(part, 0, total, p) == total / k {
      CountSplit(part, 0, n, total, p);
      CountSplit(first, 0, n, total, p);
      forall x | n <= x < total ensures part[x] == first[x] {
        assert part[n..][x - n] == first[n..][x - n];
      }
      CountKept(part, first, n, total, p);
    }
    assert forall x :: n <= x < total ==> part[x] == first[x] by {
      forall x | n <= x < total ensures part[x] == first[x] {
        assert part[n..][x - n] == first[n..][x - n];
      }
    }
  }
}
