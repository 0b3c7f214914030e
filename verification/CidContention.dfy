/**
  Context-id allocations that compete: the gate on the lowest request id lets the request
  with the least id through at every process, so that the allocations never block each other.
*/
module CidContention {
  import opened CidTable
  import opened CidProtocol
  import opened CidSolo

  /** All members know a request by the same id. */
  ghost predicate ConsistentIds(g: Config) {
    forall r, p :: 0 <= r < |g.reqs| && p in g.reqs[r].members && p in g.reqs[r].id ==>
      g.reqs[r].id[p] == Ident(g, r) <= INT64_MAX
  }

  ghost function Ident(g: Config, r: nat): int
    requires r < |g.reqs|
  {
    var q := g.reqs[r];
    if q.members != [] && q.members[0] in q.id then q.id[q.members[0]] else 0
  }

  /** Begun somewhere, and not ended somewhere. */
  ghost predicate InFlight(g: Config, w: World, r: nat) {
    && r < |g.reqs| && (exists p: nat :: p < |w| && r in w[p].ctx)
    && (exists p :: p in g.reqs[r].members && !At(g, w, p, r, Done))
  }

  /** The gate of a process is open, or closed by a request that has not ended there. */
  ghost predicate GateOk(g: Config, p: nat, x: Proc) {
    x.lowest == INT64_MAX || exists r: nat :: KeepsGate(g, p, x, r)
  }

  ghost predicate KeepsGate(g: Config, p: nat, x: Proc, r: nat) {
    r < |g.reqs| && r in x.ctx && x.ctx[r].pc != Done && p in g.reqs[r].id && g.reqs[r].id[p] == x.lowest
  }

  ghost predicate GatesOk(g: Config, w: World) {
    forall p: nat :: p < |w| ==> GateOk(g, p, w[p])
  }

  /** The callbacks of request r at process p leave a gate that some request keeps. */
  lemma CallbackGate(g: Config, p: nat, x: Proc, y: Proc, r: nat)
    requires GateOk(g, p, x) && r < |g.reqs| && p in g.reqs[r].id && r in y.ctx
    requires forall s: nat :: s in x.ctx && s != r ==> s in y.ctx && y.ctx[s] == x.ctx[s]
    requires y.lowest == INT64_MAX || (y.ctx[r].pc != Done && (y.lowest == g.reqs[r].id[p] || y.lowest == x.lowest))
    ensures GateOk(g, p, y)
  {
    if y.lowest != INT64_MAX {
      if y.lowest == g.reqs[r].id[p] {
        assert KeepsGate(g, p, y, r);
      } else {
        var s: nat :| KeepsGate(g, p, x, s);
        assert KeepsGate(g, p, y, s);
      }
    }
  }

  lemma StepGate(g: Config, w: World, w': World, a: Action)
    requires ValidConfig(g) && Next(g, w, w', a) && GatesOk(g, w) && |w| == g.procs
    ensures GatesOk(g, w')
  {
    hide MaxOf, MinOf, Column, Posted, GateOk;
    assert |w'| == |w| && forall q: nat :: q < |w| && q != a.p ==> w'[q] == w[q];
    MoverGate(g, w, w', a);
  }

  lemma MoverGate(g: Config, w: World, w': World, a: Action)
    requires ValidConfig(g) && Next(g, w, w', a) && GatesOk(g, w) && |w| == g.procs
    ensures a.p < |w'| && GateOk(g, a.p, w'[a.p])
  {
    hide MaxOf, MinOf, Column, Posted, KeepsGate;
    assert GateOk(g, a.p, w[a.p]);
    match a
    case DoBegin(p, r) => BeginGate(g, p, w[p], r);
    case DoGetNext(p, r) => CallbackGate(g, p, w[p], w'[p], r);
    case DoCheckCid(p, r) => CallbackGate(g, p, w[p], w'[p], r);
    case DoCheckFlag(p, r) => CallbackGate(g, p, w[p], w'[p], r);
    case DoFree(p, i) => SameGate(g, p, w[p], w'[p]);
  }

  lemma BeginGate(g: Config, p: nat, x: Proc, r: nat)
    requires GateOk(g, p, x) && r !in x.ctx
    ensures GateOk(g, p, Begin(x, r))
  {
    if x.lowest != INT64_MAX {
      var s: nat :| KeepsGate(g, p, x, s);
      assert KeepsGate(g, p, Begin(x, r), s);
    }
  }

  lemma SameGate(g: Config, p: nat, x: Proc, y: Proc)
    requires GateOk(g, p, x) && y.lowest == x.lowest && y.ctx == x.ctx
    ensures GateOk(g, p, y)
  {
    if x.lowest != INT64_MAX {
      var s: nat :| KeepsGate(g, p, x, s);
      assert KeepsGate(g, p, y, s);
    }
  }

  lemma {:induction false} RunKeepsGates(g: Config, ws: seq<World>, acts: seq<Action>, n: nat)
    requires ValidConfig(g) && Run(g, ws, acts) && n < |ws|
    requires forall p: nat :: p < |ws[0]| ==> ws[0][p].lowest == INT64_MAX
    ensures GatesOk(g, ws[n])
  {
    if n > 0 {
      RunKeepsGates(g, ws, acts, n - 1);
      RunKeepsInv(g, ws, acts, n - 1);
      assert Next(g, ws[n-1], ws[n-1+1], acts[n-1]);
      StepGate(g, ws[n-1], ws[n], acts[n-1]);
    }
  }

  // ----- progress -----

  /** The slots that the members of r look for exist. */
  ghost predicate Roomy(g: Config, w: World, r: nat) {
    r < |g.reqs| && forall p :: p in g.reqs[r].members ==> RoomAt(g, w, r, p)
  }

  ghost predicate RoomAt(g: Config, w: World, r: nat, p: nat)
    requires r < |g.reqs|
  {
    p < |w| && r in w[p].ctx && p in g.reqs[r].part ==>
      && (w[p].ctx[r].pc == GetNext ==> HasRoom(w[p], r, g.reqs[r].part[p]))
      && (w[p].ctx[r].pc == WaitMin && !g.reqs[r].part[p] ==> CommitSlot(w[p], r, false) < |w[p].table|)
  }

  ghost predicate BegunEverywhere(g: Config, w: World, r: nat) {
    r < |g.reqs| && forall p :: p in g.reqs[r].members ==> p < |w| && r in w[p].ctx
  }

  /** As long as some member of r has not ended, some callback of r is enabled. */
  lemma {:induction false} SomeCallback(g: Config, w: World, r: nat, p: nat)
    requires ValidConfig(g) && Inv(g, w) && Roomy(g, w, r) && p in g.reqs[r].members && !At(g, w, p, r, Done)
    ensures CanStep(g, w, r)
    decreases Rank(w, p, r)
  {
    hide MaxOf, MinOf, Column, TableOk;
    var op := if At(g, w, p, r, WaitMax) then Max else Min;
    if (At(g, w, p, r, WaitMax) || At(g, w, p, r, WaitMin)) && !Ready(g, w, p, r, op) {
      assert HistoryOk(g, w, p, r, w[p].ctx[r]);
      ReadyOrBehind(g, w, p, r, op);
      var q :| q in g.reqs[r].members && Behind(w, r, q, p, op);
      BehindIsLower(g, w, r, q, p, op);
      SomeCallback(g, w, r, q);
    } else {
      assert RoomAt(g, w, r, p);
      if r in w[p].ctx {
        ResultsInTable(g, w, p, r);
      }
      StepsWhenReady(g, w, r, p);
    }
  }

  /** A callback of r can run and changes the state. */
  ghost predicate Moves(g: Config, w: World, r: nat) {
    exists w': World, a: Action :: Next(g, w, w', a) && !a.DoFree? && !a.DoBegin? && a.r == r && w' != w
  }

  /** No other request in flight has a smaller id. */
  ghost predicate Least(g: Config, w: World, r: nat) {
    InFlight(g, w, r) && forall s: nat :: InFlight(g, w, s) ==> Ident(g, r) <= Ident(g, s)
  }

  /** The gate is open for the least request. */
  lemma GateOpenForLeast(g: Config, w: World, r: nat, p: nat)
    requires ValidConfig(g) && ConsistentIds(g) && Inv(g, w) && GatesOk(g, w) && Least(g, w, r)
    requires p < |w| && p in g.reqs[r].members
    ensures p in g.reqs[r].id && g.reqs[r].id[p] <= w[p].lowest
  {
    assert GateOk(g, p, w[p]) && TableOk(g, p, w[p]);
    if w[p].lowest != INT64_MAX {
      var s: nat :| KeepsGate(g, p, w[p], s);
      assert p in g.reqs[s].members && !At(g, w, p, s, Done);
      assert InFlight(g, w, s);
    }
  }

  /** Whatever the other requests do, the least one in flight can go on once all its members have begun. */
  lemma LeastMoves(g: Config, w: World, r: nat)
    requires ValidConfig(g) && ConsistentIds(g) && Inv(g, w) && GatesOk(g, w)
    requires Least(g, w, r) && BegunEverywhere(g, w, r) && Roomy(g, w, r)
    ensures Moves(g, w, r)
  {
    var p :| p in g.reqs[r].members && !At(g, w, p, r, Done);
    SomeCallback(g, w, r, p);
    var w': World, a: Action :| Next(g, w, w', a) && !a.DoFree? && a.r == r;
    assert a.p in g.reqs[r].members && a.p < |w|;
    GateOpenForLeast(g, w, r, a.p);
    assert HistoryOk(g, w, a.p, r, w[a.p].ctx[r]);
    StepRaisesRank(g, w, w', a, r);
  }

  lemma {:induction false} LeastExists(g: Config, w: World, n: nat) returns (r: nat)
    requires n <= |g.reqs| && exists s: nat :: s < n && InFlight(g, w, s)
    ensures r < n && InFlight(g, w, r) && forall s: nat :: s < n && InFlight(g, w, s) ==> Ident(g, r) <= Ident(g, s)
  {
    hide InFlight;
    if exists s: nat :: s < n - 1 && InFlight(g, w, s) {
      r := LeastExists(g, w, n - 1);
      if InFlight(g, w, n - 1) && Ident(g, n - 1) < Ident(g, r) {
        r := n - 1;
      }
    } else {
      r := n - 1;
    }
  }

  /**
    No deadlock among any number of competing allocations: as long as some allocation is in flight, those in flight
    have begun at all their members and no table is full, some callback can run that changes the state.
  */
  lemma NoDeadlock(g: Config, ws: seq<World>, acts: seq<Action>, n: nat)
    requires ValidConfig(g) && ConsistentIds(g) && Run(g, ws, acts) && n < |ws|
    requires forall p: nat :: p < |ws[0]| ==> ws[0][p].lowest == INT64_MAX
    requires exists r: nat :: InFlight(g, ws[n], r)
    requires forall r: nat :: InFlight(g, ws[n], r) ==> BegunEverywhere(g, ws[n], r) && Roomy(g, ws[n], r)
    ensures exists r: nat :: Moves(g, ws[n], r)
  {
    RunKeepsInv(g, ws, acts, n);
    RunKeepsGates(g, ws, acts, n);
    hide Inv, GatesOk, BegunEverywhere, Roomy, Moves;
    var r := LeastExists(g, ws[n], |g.reqs|);
    LeastMoves(g, ws[n], r);
  }

  // ----- why the ids must be consistent -----

  /** Two requests of two processes that disagree on which has the smaller id. */
  ghost const CROSSED: Config :=
    Config(2, 2, [Request([0, 1], map[0 := true, 1 := true], map[0 := 1, 1 := 2]),
                  Request([0, 1], map[0 := true, 1 := true], map[0 := 2, 1 := 1])])

  const WAITING: Ctx := Ctx(WaitMax, 0, 0, 0, 0, [0], [])
  const HELD_BACK: Ctx := Ctx(GetNext, 0, 0, 0, 0, [], [])

  /** A process before its first callback, with the given requests begun, and after the callback of request r. */
  function Idle(ctx: map<nat, Ctx>): Proc { Proc([Free, Free], INT64_MAX, ctx) }

  function Waiter(r: nat): Proc { Proc([Sentinel, Free], 1, map[0 := HELD_BACK, 1 := HELD_BACK][r := WAITING]) }

  lemma FirstCallback(r: nat)
    requires r < 2
    ensures GetNextCid(Idle(map[0 := HELD_BACK, 1 := HELD_BACK]), r, true, 1) == Waiter(r)
  {
    var x := Idle(map[0 := HELD_BACK, 1 := HELD_BACK]);
    assert FirstFree(x.table, 0) == 0;
    assert x.table[0 := Sentinel] == [Sentinel, Free] && x.ctx[r] == HELD_BACK && HELD_BACK.tops + [0] == [0];
    assert GetNextCid(x, r, true, 1).ctx == Waiter(r).ctx;
  }

  lemma BothBegun()
    ensures Begin(Begin(Idle(map[]), 0), 1) == Idle(map[0 := HELD_BACK, 1 := HELD_BACK])
    ensures Begin(Idle(map[]), 0) == Idle(map[0 := HELD_BACK])
  {
    assert FirstFree([Free, Free], 0) == 0;
  }

  lemma NotReady(p: nat)
    requires p < 2
    ensures !Ready(CROSSED, [Waiter(0), Waiter(1)], p, p, Max)
  {
    assert |Sent([Waiter(0), Waiter(1)], 1 - p, p, Max)| == 0;
    assert CROSSED.reqs[p].members[1 - p] == 1 - p;
  }

  /** At process p, request 1 - p is held back by the gate, and request p waits for the other process. */
  lemma Stuck(w': World, a: Action)
    requires !a.DoFree? && !a.DoBegin? && Next(CROSSED, [Waiter(0), Waiter(1)], w', a)
    ensures w' == [Waiter(0), Waiter(1)]
  {
    var w := [Waiter(0), Waiter(1)];
    NotReady(0);
    NotReady(1);
    if a.DoGetNext? {
      assert a.r == 1 - a.p;
      assert w[a.p := w[a.p]] == w;
    }
  }

  lemma Begins(w: World, p: nat, r: nat)
    requires |w| == 2 && p < 2 && r < 2 && r !in w[p].ctx
    ensures Next(CROSSED, w, w[p := Begin(w[p], r)], DoBegin(p, r))
  {
    assert CROSSED.reqs[r].members[p] == p;
  }

  lemma Calls(w: World, p: nat)
    requires |w| == 2 && p < 2 && w[p] == Idle(map[0 := HELD_BACK, 1 := HELD_BACK])
    ensures Next(CROSSED, w, w[p := Waiter(p)], DoGetNext(p, p))
  {
    FirstCallback(p);
    assert CROSSED.reqs[p].members[p] == p;
    assert FirstFree(w[p].table, 0) == 0;
  }

  lemma CrossedRun() returns (ws: seq<World>, acts: seq<Action>)
    ensures ValidConfig(CROSSED) && Run(CROSSED, ws, acts) && ws[|acts|] == [Waiter(0), Waiter(1)]
    ensures forall p: nat :: p < |ws[0]| ==> ws[0][p].lowest == INT64_MAX
  {
    BothBegun();
    var none, one, both := Idle(map[]), Idle(map[0 := HELD_BACK]), Idle(map[0 := HELD_BACK, 1 := HELD_BACK]);
    ws := [[none, none], [one, none], [both, none], [both, one], [both, both], [Waiter(0), both],
      [Waiter(0), Waiter(1)]];
    acts := [DoBegin(0, 0), DoBegin(0, 1), DoBegin(1, 0), DoBegin(1, 1), DoGetNext(0, 0), DoGetNext(1, 1)];
    hide Begin, Waiter, Next;
    Begins(ws[0], 0, 0);
    Begins(ws[1], 0, 1);
    Begins(ws[2], 1, 0);
    Begins(ws[3], 1, 1);
    Calls(ws[4], 0);
    Calls(ws[5], 1);
  }

  /** If processes disagree on the order of two requests, each can hold back the one that the other waits for. */
  lemma CrossedIdsDeadlock() returns (ws: seq<World>, acts: seq<Action>)
    ensures ValidConfig(CROSSED) && Run(CROSSED, ws, acts)
    ensures forall p: nat :: p < |ws[0]| ==> ws[0][p].lowest == INT64_MAX
    ensures forall r: nat :: r < 2 ==> InFlight(CROSSED, ws[|acts|], r) && BegunEverywhere(CROSSED, ws[|acts|], r)
    ensures forall r: nat :: !Moves(CROSSED, ws[|acts|], r)
  {
    ws, acts := CrossedRun();
    var w := [Waiter(0), Waiter(1)];
    forall r: nat | r < 2 ensures InFlight(CROSSED, w, r) && BegunEverywhere(CROSSED, w, r) {
      assert r in w[0].ctx;
      assert !At(CROSSED, w, CROSSED.reqs[r].members[0], r, Done);
    }
    forall r: nat ensures !Moves(CROSSED, w, r) {
      if Moves(CROSSED, w, r) {
        var w': World, a: Action :| Next(CROSSED, w, w', a) && !a.DoFree? && !a.DoBegin? && a.r == r && w' != w;
        Stuck(w', a);
        assert false;
      }
    }
  }
}
