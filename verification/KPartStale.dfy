/**
  An input on which the main loop of tm_kPartitioning stops with a move left that would lower
  the cut: the vertex that arrived last gave its own gain to the part as the key, although
  another vertex of that part gains more.
*/
module KPartStale {
  import opened KPartModel
  import opened KPartState
  import opened KPartTrace
  import opened KPartition
  import opened KPartFill

  /** Six vertices, with edges 0-2, 1-4, 2-3 and 3-5 of weight 1, and 2-5 of weight 2. */
  const WEIGHTS: seq<seq<int>> :=
    [[0, 0, 1, 0, 0, 0], [0, 0, 0, 0, 1, 0], [1, 0, 0, 1, 0, 2], [0, 0, 1, 0, 0, 1], [0, 1, 0, 0, 0, 0],
      [0, 0, 2, 1, 0, 0]]

  const FIRST: seq<int> := [0, 1, 0, 1, 0, 1]

  function Term(row: seq<int>, part: seq<int>, i: nat, p: int): int
    requires i < |row| && i < |part|
  {
    if part[i] == p then row[i] else 0
  }

  lemma IntoSix(row: seq<int>, part: seq<int>, p: int)
    requires |row| == 6 && |part| == 6
    ensures Into(row, part, 6, p) == Term(row, part, 0, p) + Term(row, part, 1, p) + Term(row, part, 2, p)
                                     + Term(row, part, 3, p) + Term(row, part, 4, p) + Term(row, part, 5, p)
  {
    assert Into(row, part, 1, p) == Term(row, part, 0, p);
    assert Into(row, part, 2, p) == Into(row, part, 1, p) + Term(row, part, 1, p);
    assert Into(row, part, 3, p) == Into(row, part, 2, p) + Term(row, part, 2, p);
    assert Into(row, part, 4, p) == Into(row, part, 3, p) + Term(row, part, 3, p);
    assert Into(row, part, 5, p) == Into(row, part, 4, p) + Term(row, part, 4, p);
  }

  /** The weights from v into both parts. */
  ghost predicate Ties(s: State, v: nat, own: int, other: int) {
    && v < |s.d| && v < |s.part| && |s.d[v]| == 2 && 0 <= s.part[v] < 2
    && s.d[v][s.part[v]] == own && s.d[v][1 - s.part[v]] == other
  }

  lemma TiesAre(s: State, v: nat)
    requires Inv(s, WEIGHTS, 6, 2) && |s.part| == 6 && v < 6
    ensures forall p :: 0 <= p < 2 ==>
      s.d[v][p] == Term(WEIGHTS[v], s.part, 0, p) + Term(WEIGHTS[v], s.part, 1, p) + Term(WEIGHTS[v], s.part, 2, p)
                   + Term(WEIGHTS[v], s.part, 3, p) + Term(WEIGHTS[v], s.part, 4, p) + Term(WEIGHTS[v], s.part, 5, p)
  {
    hide Queued, PartKeys;
    forall p | 0 <= p < 2 ensures s.d[v][p] == Into(WEIGHTS[v], s.part, 6, p) {}
    hide Sums;
    IntoSix(WEIGHTS[v], s.part, 0);
    IntoSix(WEIGHTS[v], s.part, 1);
  }

  lemma FirstTies(s: State)
    requires Inv(s, WEIGHTS, 6, 2) && s.part == FIRST
    ensures Ties(s, 0, 1, 0) && Ties(s, 1, 0, 1) && Ties(s, 2, 1, 3) && Ties(s, 3, 1, 1) && Ties(s, 4, 0, 1)
    ensures Ties(s, 5, 1, 2)
  {
    InvShape(s, WEIGHTS, 6, 2);
    hide Inv;
    TiesAre(s, 0); TiesAre(s, 1); TiesAre(s, 2);
    TiesAre(s, 3); TiesAre(s, 4); TiesAre(s, 5);
  }

  lemma SecondTies(s: State)
    requires Inv(s, WEIGHTS, 6, 2) && s.part == [0, 1, 1, 1, 0, 1]
    ensures Ties(s, 1, 0, 1) && Ties(s, 2, 3, 1) && Ties(s, 3, 2, 0) && Ties(s, 5, 3, 0)
  {
    InvShape(s, WEIGHTS, 6, 2);
    hide Inv;
    TiesAre(s, 1); TiesAre(s, 2); TiesAre(s, 3); TiesAre(s, 5);
  }

  lemma LastTies(s: State)
    requires Inv(s, WEIGHTS, 6, 2) && s.part == [0, 0, 1, 1, 0, 1]
    ensures Ties(s, 0, 0, 1) && Ties(s, 1, 1, 0) && Ties(s, 2, 3, 1) && Ties(s, 3, 2, 0) && Ties(s, 5, 3, 0)
  {
    InvShape(s, WEIGHTS, 6, 2);
    hide Inv;
    TiesAre(s, 0); TiesAre(s, 1); TiesAre(s, 2); TiesAre(s, 3); TiesAre(s, 5);
  }

  /** A vertex that may still go to the other part is queued, with at least what that gains. */
  lemma KeyAtLeast(s: State, v: nat)
    requires Inv(s, WEIGHTS, 6, 2) && v < 6 && 1 - s.part[v] in s.inst[v]
    ensures v in s.q[s.part[v]] && s.q[s.part[v]][v] >= s.d[v][1 - s.part[v]] - s.d[v][s.part[v]]
  {
    assert InstOk(s.inst[v], s.d[v]) && Current(s, v) && Waits(s, v);
  }

  /** A move goes to the other part, gains what was announced, and takes one entry of its vertex. */
  lemma OneMove(s: State, t: State, u: nat, gain: int)
    requires Moved(s, t, 6, 2, u) && NextGainOf(s) >= gain
    ensures u < 6 && |s.part| == |t.part| && 0 <= s.part[u] < 2 && t.surplus == 1 - s.part[u]
    ensures t.part == s.part[u := t.surplus]
    ensures s.d[u][1 - s.part[u]] - s.d[u][s.part[u]] >= gain
    ensures if s.deficit == s.surplus then t.deficit == s.part[u] else s.part[u] == s.surplus && t.deficit == s.deficit
    ensures |s.inst| == |t.inst| == 6
    ensures t.inst[u].Keys == s.inst[u].Keys - {t.surplus}
    ensures forall i :: 0 <= i < 6 && i != u ==> t.inst[i].Keys == s.inst[i].Keys
  {
    hide Entries;
  }

  lemma FreshMoves(s: State)
    requires AllFresh(s, 6, 2)
    ensures |s.inst| == 6 && s.inst[0].Keys == {0, 1} && 0 in s.inst[1]
  {
    assert forall j :: j in s.inst[0].Keys <==> 0 <= j < 2;
  }

  lemma FirstGainIs(s: State)
    requires Inv(s, WEIGHTS, 6, 2) && AllFresh(s, 6, 2) && s.part == FIRST && s.deficit == s.surplus
    ensures NextGainOf(s) >= 2
  {
    InvShape(s, WEIGHTS, 6, 2);
    FirstTies(s);
    KeyAtLeast(s, 2);
    hide Inv;
    assert Exact(s, 0);
    assert s.qpart[0] >= 2;
  }

  /** Vertex 2 moves first: it gains 2, and no other vertex as much. */
  lemma FirstMove(s: State, t: State, u: nat)
    requires Inv(s, WEIGHTS, 6, 2) && AllFresh(s, 6, 2) && s.part == FIRST && s.deficit == s.surplus
    requires Moved(s, t, 6, 2, u)
    ensures t.part == [0, 1, 1, 1, 0, 1] && t.deficit == 0 && t.surplus == 1
    ensures |t.inst| == 6 && t.inst[0].Keys == {0, 1} && 0 in t.inst[1]
  {
    hide Inv, AllFresh, Moved, NextGainOf;
    FirstGainIs(s);
    FirstTies(s);
    FreshMoves(s);
    OneMove(s, t, u, 2);
    if u == 0 || u == 1 || u == 3 || u == 4 || u == 5 {
      assert false;
    }
  }

  lemma SecondGainIs(s: State)
    requires Inv(s, WEIGHTS, 6, 2) && s.part == [0, 1, 1, 1, 0, 1] && s.deficit == 0 && s.surplus == 1 && 0 in s.inst[1]
    ensures NextGainOf(s) >= 1
  {
    InvShape(s, WEIGHTS, 6, 2);
    SecondTies(s);
    KeyAtLeast(s, 1);
  }

  /** Then vertex 1, which gains 1, goes to part 0. */
  lemma SecondMove(s: State, t: State, u: nat)
    requires Inv(s, WEIGHTS, 6, 2) && s.part == [0, 1, 1, 1, 0, 1] && s.deficit == 0 && s.surplus == 1
    requires 0 in s.inst[1] && s.inst[0].Keys == {0, 1} && Moved(s, t, 6, 2, u)
    ensures u == 1 && t.part == [0, 0, 1, 1, 0, 1] && t.deficit == t.surplus == 0
    ensures |t.inst| == 6 && 0 !in t.inst[1] && t.inst[0].Keys == {0, 1}
  {
    hide Inv, Moved, NextGainOf;
    SecondGainIs(s);
    SecondTies(s);
    OneMove(s, t, u, 1);
    if u == 2 || u == 3 || u == 5 {
      assert false;
    }
  }

  /** Now part 0 has the key of vertex 1, although vertex 0 could move with a gain of 1. */
  lemma AtTheEnd(s: State)
    requires Inv(s, WEIGHTS, 6, 2) && Keyed(s, 6, 2) && s.part == [0, 0, 1, 1, 0, 1] && s.deficit == s.surplus == 0
    requires 0 !in s.inst[1] && s.inst[0].Keys == {0, 1} && s.qpart[0] == Gain(s, 1, 0)
    ensures NextGainOf(s) <= 0 && !Exact(s, 0) && !Stays(s, WEIGHTS, 6, 0)
  {
    InvShape(s, WEIGHTS, 6, 2);
    LastTies(s);
    KeyAtLeast(s, 0);
    StaysUnless(s, WEIGHTS, 6, 2, 0);
    assert MaxKey(s.inst[1]) <= 0 by {
      assert InstOk(s.inst[1], s.d[1]);
    }
    assert s.qpart[0] <= -1;
    assert s.q[0][0] >= 1;
    StaysIn(s, 2, 3, 1); StaysIn(s, 3, 2, 0); StaysIn(s, 5, 3, 0);
    assert Exhausted(s, WEIGHTS, 6);
    hide Inv, Exhausted, Stays;
    ExitExhausted(s, WEIGHTS, 6, 2);
  }

  lemma StaysIn(s: State, v: nat, own: int, other: int)
    requires Inv(s, WEIGHTS, 6, 2) && v < 6 && Ties(s, v, own, other) && other <= own
    ensures Stays(s, WEIGHTS, 6, v)
  {
    assert InstOk(s.inst[v], s.d[v]);
    hide Queued, PartKeys;
  }

  /** The first partition of six vertices into two parts is the one above. */
  lemma FirstIsCyclic()
    ensures CyclicFill(6, 2, []) == FIRST
  {
    var room := [3, 3];
    assert Rooms([], 2, 3) == room;
    assert Turns(room, 0, 2) == [0, 1];
    assert Turns(room, 1, 0) == [0, 1];
    assert Turns(room, 1, 2) == [0, 1, 0, 1];
    assert Turns(room, 2, 0) == [0, 1, 0, 1];
    assert Turns(room, 2, 2) == FIRST;
  }

  lemma WeightsOk()
    ensures Symmetric(WEIGHTS, 6) && Parted(WEIGHTS, 6, 2, FIRST)
  {
  }

  /** The loop of tm_kPartitioning on this input: two moves, and it ends with a move left that would lower the cut. */
  method StopsEarly() returns (x: Partitioner, ghost trace: seq<State>)
    ensures fresh(x) && x.Valid() && x.m == WEIGHTS && x.n == 6 && x.k == 2
    ensures GainRun(trace, WEIGHTS, 6, 2, FIRST) && |trace| == 3 && Last(trace) == x.View()
    ensures x.deficit == x.surplus && !Exact(x.View(), x.surplus) && !Stays(x.View(), WEIGHTS, 6, 0)
  {
    hide Symmetric, Inv, Keyed, Moved, AllFresh, Exact, Stays, Parted, Sized, Settled, NextGainOf, Entries, Gain,
      Shaped, Steps, Step, Exhausted;
    WeightsOk();
    x := new Partitioner(6, 2, WEIGHTS, FIRST);
    x.Initialize();
    ghost var s := x.View();
    FirstGainIs(s);
    OnlyOne(s, WEIGHTS, 6, 2);
    ghost var u := x.Algo();
    ghost var t := x.View();
    StepOf(s, t, WEIGHTS, 6, 2, u);
    OneMore([s], t, WEIGHTS, 6, 2, u);
    assert [s] + [t] == [s, t];
    FirstMove(s, t, u);
    SecondGainIs(t);
    u := x.Algo();
    StepOf(t, x.View(), WEIGHTS, 6, 2, u);
    OneMore([s, t], x.View(), WEIGHTS, 6, 2, u);
    trace := [s, t, x.View()];
    assert [s, t] + [x.View()] == trace;
    SecondMove(t, x.View(), u);
    AtTheEnd(x.View());
    ExitExhausted(x.View(), WEIGHTS, 6, 2);
  }
}
