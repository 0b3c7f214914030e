/**
  The context-id agreement protocol as a step system: any number of processes, any
  number of allocation requests in flight at the same process, every interleaving.

  An allreduce is a collective: its k-th result exists once every member of the
  request has given its k-th value, and is the MAX (k even) or the MIN (k odd) of
  those values.  Runs are failure-free: no table is exhausted.
*/
module CidProtocol {
  import opened CidTable

  /** `members` take part in the allreduces; `part[m]` says which of them are in the new group. */
  datatype Request = Request(members: seq<nat>, part: map<nat, bool>, id: map<nat, int>)

  datatype Config = Config(procs: nat, size: nat, reqs: seq<Request>)

  datatype Action =
    | DoBegin(p: nat, r: nat)
    | DoGetNext(p: nat, r: nat)
    | DoCheckCid(p: nat, r: nat)
    | DoCheckFlag(p: nat, r: nat)
    | DoFree(p: nat, slot: nat)

  type World = seq<Proc>

  ghost predicate ValidConfig(g: Config) {
    && g.size > 0
    && forall r, m :: 0 <= r < |g.reqs| && m in g.reqs[r].members ==>
      m < g.procs && m in g.reqs[r].part && m in g.reqs[r].id
  }

  // ----- collectives -----

  ghost function MaxOf(s: seq<nat>): nat
    requires s != []
  {
    if |s| == 1 then s[0] else
      var m := MaxOf(s[..|s|-1]);
      if s[|s|-1] > m then s[|s|-1] else m
  }

  ghost function MinOf(s: seq<nat>): nat
    requires s != []
  {
    if |s| == 1 then s[0] else
      var m := MinOf(s[..|s|-1]);
      if s[|s|-1] < m then s[|s|-1] else m
  }

  lemma {:induction false} MaxOfBounds(s: seq<nat>)
    requires s != []
    ensures forall i :: 0 <= i < |s| ==> s[i] <= MaxOf(s)
    ensures exists i :: 0 <= i < |s| && s[i] == MaxOf(s)
  {
    if |s| == 1 {
      assert s[0] == MaxOf(s);
    } else {
      var t := s[..|s|-1];
      MaxOfBounds(t);
      var i :| 0 <= i < |t| && t[i] == MaxOf(t);
      assert s[i] == MaxOf(t);
      assert s[|s|-1] <= MaxOf(s);
      forall j | 0 <= j < |s| ensures s[j] <= MaxOf(s) {
        if j < |t| { assert s[j] == t[j]; }
      }
    }
  }

  lemma {:induction false} MinOfBounds(s: seq<nat>)
    requires s != []
    ensures forall i :: 0 <= i < |s| ==> MinOf(s) <= s[i]
    ensures exists i :: 0 <= i < |s| && s[i] == MinOf(s)
  {
    if |s| == 1 {
      assert s[0] == MinOf(s);
    } else {
      var t := s[..|s|-1];
      MinOfBounds(t);
      var i :| 0 <= i < |t| && t[i] == MinOf(t);
      assert s[i] == MinOf(t);
      forall j | 0 <= j < |s| ensures MinOf(s) <= s[j] {
        if j < |t| { assert s[j] == t[j]; }
      }
    }
  }

  /** Which of the two allreduces of a round. */
  datatype Op = Max | Min

  /** What process m has given to the MAX or MIN allreduces of request r. */
  ghost function Sent(w: World, m: nat, r: nat, op: Op): seq<nat> {
    if m < |w| && r in w[m].ctx then
      if op.Max? then w[m].ctx[r].tops else w[m].ctx[r].flags
    else []
  }

  /** Every member has given its value of round k. */
  ghost predicate Posted(w: World, ms: seq<nat>, r: nat, op: Op, k: nat) {
    forall i :: 0 <= i < |ms| ==> k < |Sent(w, ms[i], r, op)|
  }

  ghost function Column(w: World, ms: seq<nat>, r: nat, op: Op, k: nat): (s: seq<nat>)
    requires Posted(w, ms, r, op, k)
    ensures |s| == |ms| && forall i :: 0 <= i < |ms| ==> s[i] == Sent(w, ms[i], r, op)[k]
  {
    seq(|ms|, i requires 0 <= i < |ms| => Sent(w, ms[i], r, op)[k])
  }

  // ----- steps -----

  ghost predicate At(g: Config, w: World, p: nat, r: nat, pc: Pc) {
    && p < |w| && r < |g.reqs| && p in g.reqs[r].members && p in g.reqs[r].part && p in g.reqs[r].id
    && r in w[p].ctx && w[p].ctx[r].pc == pc
  }

  /** The last value given has met those of all members: the callback may run. */
  ghost predicate Ready(g: Config, w: World, p: nat, r: nat, op: Op)
    requires p < |w| && r < |g.reqs| && r in w[p].ctx
  {
    var k := |Sent(w, p, r, op)|;
    k > 0 && g.reqs[r].members != [] && Posted(w, g.reqs[r].members, r, op, k - 1)
  }

  ghost function Result(g: Config, w: World, p: nat, r: nat, op: Op): seq<nat>
    requires p < |w| && r < |g.reqs| && r in w[p].ctx && Ready(g, w, p, r, op)
  {
    Column(w, g.reqs[r].members, r, op, |Sent(w, p, r, op)| - 1)
  }

  ghost predicate Next(g: Config, w: World, w': World, a: Action) {
    match a
    case DoBegin(p, r) =>
      && p < |w| && r < |g.reqs| && p in g.reqs[r].members && r !in w[p].ctx
      && w' == w[p := Begin(w[p], r)]
    case DoGetNext(p, r) =>
      && At(g, w, p, r, GetNext) && HasRoom(w[p], r, g.reqs[r].part[p])
      && w' == w[p := GetNextCid(w[p], r, g.reqs[r].part[p], g.reqs[r].id[p])]
    case DoCheckCid(p, r) =>
      && At(g, w, p, r, WaitMax) && Ready(g, w, p, r, Max)
      && var maxv := MaxOf(Result(g, w, p, r, Max));
      && maxv < |w[p].table| && w[p].ctx[r].local < |w[p].table|
      && w' == w[p := CheckCid(w[p], r, g.reqs[r].part[p], maxv)]
    case DoCheckFlag(p, r) =>
      && At(g, w, p, r, WaitMin) && Ready(g, w, p, r, Min)
      && var minv := MinOf(Result(g, w, p, r, Min));
      && w[p].ctx[r].cid < |w[p].table|
      && (minv != 0 ==> CommitSlot(w[p], r, g.reqs[r].part[p]) < |w[p].table|)
      && w' == w[p := CheckFlag(w[p], r, g.reqs[r].part[p], minv)]
    case DoFree(p, i) =>
      && p < |w| && i < |w[p].table| && (w[p].table[i].Old? || w[p].table[i].New?)
      && w' == w[p := w[p].(table := w[p].table[i := Free])]
  }

  ghost predicate Init(g: Config, w: World) {
    && |w| == g.procs
    && forall p :: 0 <= p < |w| ==>
         && |w[p].table| == g.size && w[p].ctx == map[]
         && forall i :: 0 <= i < g.size ==> w[p].table[i].Free? || w[p].table[i].Old?
  }

  ghost predicate Run(g: Config, ws: seq<World>, acts: seq<Action>) {
    && |ws| == |acts| + 1 && Init(g, ws[0])
    && forall i :: 0 <= i < |acts| ==> Next(g, ws[i], ws[i+1], acts[i])
  }

  // ----- the invariant -----

  /** The table slot that an in-flight request of a process holds, if any. */
  ghost predicate Owns(c: Ctx, part: bool, i: nat) {
    part && ((c.pc == WaitMax && i == c.local) || (c.pc == WaitMin && c.flag != 0 && i == c.cid))
  }

  /** Request r of process p, whose state is x, holds slot i of its table. */
  ghost predicate OwnsAt(g: Config, p: nat, x: Proc, r: nat, i: nat) {
    r < |g.reqs| && r in x.ctx && p in g.reqs[r].part && Owns(x.ctx[r], g.reqs[r].part[p], i)
  }

  /** A sentinel is a reservation of exactly one in-flight request; a new communicator sits where its request ended. */
  ghost predicate TableOk(g: Config, p: nat, x: Proc) {
    && |x.table| == g.size
    && (forall r: nat :: r in x.ctx ==> r < |g.reqs| && p in g.reqs[r].members)
    && (forall r: nat, i: nat :: OwnsAt(g, p, x, r, i) ==> i < |x.table| && x.table[i] == Sentinel)
    && (forall r: nat, s: nat, i: nat :: OwnsAt(g, p, x, r, i) && OwnsAt(g, p, x, s, i) ==> r == s)
    && (forall i: nat :: i < |x.table| && x.table[i] == Sentinel ==> exists r: nat :: OwnsAt(g, p, x, r, i))
    && (forall i: nat :: i < |x.table| && x.table[i].New? ==>
          var r := x.table[i].req;
          r in x.ctx && x.ctx[r].pc == Done && x.ctx[r].cid == i)
  }

  ghost predicate CtxShape(c: Ctx, size: nat) {
    && (forall k: nat :: k < |c.tops| ==> c.tops[k] < size)
    && |c.tops| == |c.flags| + (if c.pc == WaitMax then 1 else 0)
    && (c.pc == WaitMax ==> c.local == c.tops[|c.tops|-1])
    && (c.pc == WaitMin || c.pc == Done ==> |c.flags| > 0)
    && (c.pc == WaitMin ==> c.flag == c.flags[|c.flags|-1])
  }

  /** The round that a request is in: how many rounds before it have failed. */
  ghost function Round(c: Ctx): nat {
    if (c.pc == WaitMin || c.pc == Done) && |c.flags| > 0 then |c.flags| - 1 else |c.flags|
  }

  /** The MIN allreduce of round k of request r has a result, and it is zero. */
  ghost predicate Failed(g: Config, w: World, r: nat, k: nat) {
    && r < |g.reqs| && g.reqs[r].members != [] && Posted(w, g.reqs[r].members, r, Min, k)
    && MinOf(Column(w, g.reqs[r].members, r, Min, k)) == 0
  }

  ghost predicate Succeeded(g: Config, w: World, r: nat, k: nat) {
    && r < |g.reqs| && g.reqs[r].members != [] && Posted(w, g.reqs[r].members, r, Min, k)
    && MinOf(Column(w, g.reqs[r].members, r, Min, k)) != 0
  }

  /** The MAX allreduce of round k of request r has the result v. */
  ghost predicate IsMax(g: Config, w: World, r: nat, k: nat, v: nat) {
    && r < |g.reqs| && g.reqs[r].members != [] && Posted(w, g.reqs[r].members, r, Max, k)
    && MaxOf(Column(w, g.reqs[r].members, r, Max, k)) == v
  }

  /** What process p, with context c, has seen of request r is what the common history says. */
  ghost predicate HistoryOk(g: Config, w: World, p: nat, r: nat, c: Ctx) {
    && r < |g.reqs|
    && CtxShape(c, g.size)
    && (forall k: nat :: k < Round(c) ==> Failed(g, w, r, k))
    && (c.pc == Done ==> Succeeded(g, w, r, Round(c)))
    && (c.pc == WaitMin || (c.pc == Done && p in g.reqs[r].part && g.reqs[r].part[p]) ==>
         IsMax(g, w, r, Round(c), c.cid))
  }

  ghost predicate Inv(g: Config, w: World) {
    && |w| == g.procs
    && (forall p: nat :: p < |w| ==> TableOk(g, p, w[p]))
    && (forall p: nat, r: nat :: p < |w| && r in w[p].ctx ==> HistoryOk(g, w, p, r, w[p].ctx[r]))
  }

  // ----- preservation -----

  /** Histories only grow. */
  ghost predicate Extends(w: World, w': World) {
    forall m: nat, r: nat, op: Op :: Sent(w, m, r, op) <= Sent(w', m, r, op)
  }

  lemma ColumnStable(w: World, w': World, ms: seq<nat>, r: nat, op: Op, k: nat)
    requires Extends(w, w') && Posted(w, ms, r, op, k)
    ensures Posted(w', ms, r, op, k) && Column(w', ms, r, op, k) == Column(w, ms, r, op, k)
  {
    forall i | 0 <= i < |ms|
      ensures k < |Sent(w', ms[i], r, op)| && Sent(w', ms[i], r, op)[k] == Sent(w, ms[i], r, op)[k]
    {
      assert Sent(w, ms[i], r, op) <= Sent(w', ms[i], r, op);
    }
  }

  lemma VerdictsStable(g: Config, w: World, w': World, r: nat, k: nat)
    requires Extends(w, w')
    ensures Failed(g, w, r, k) ==> Failed(g, w', r, k)
    ensures Succeeded(g, w, r, k) ==> Succeeded(g, w', r, k)
    ensures forall v: nat :: IsMax(g, w, r, k, v) ==> IsMax(g, w', r, k, v)
  {
    if r < |g.reqs| {
      forall op | Posted(w, g.reqs[r].members, r, op, k)
        ensures Posted(w', g.reqs[r].members, r, op, k)
        ensures Column(w', g.reqs[r].members, r, op, k) == Column(w, g.reqs[r].members, r, op, k)
      {
        ColumnStable(w, w', g.reqs[r].members, r, op, k);
      }
    }
  }

  lemma HistoryStable(g: Config, w: World, w': World, p: nat, r: nat, c: Ctx)
    requires Extends(w, w') && HistoryOk(g, w, p, r, c)
    ensures HistoryOk(g, w', p, r, c)
  {
    forall k: nat
      ensures Failed(g, w, r, k) ==> Failed(g, w', r, k)
      ensures Succeeded(g, w, r, k) ==> Succeeded(g, w', r, k)
      ensures IsMax(g, w, r, k, c.cid) ==> IsMax(g, w', r, k, c.cid)
    {
      VerdictsStable(g, w, w', r, k);
    }
  }

  /** No contribution of x is lost in y. */
  ghost predicate Grows(x: Proc, y: Proc) {
    forall r: nat :: r in x.ctx ==> r in y.ctx && x.ctx[r].tops <= y.ctx[r].tops && x.ctx[r].flags <= y.ctx[r].flags
  }

  lemma UpdateExtends(w: World, p: nat, y: Proc)
    requires p < |w| && Grows(w[p], y)
    ensures Extends(w, w[p := y])
  {
  }

  lemma GetNextGrows(x: Proc, r: nat, part: bool, myId: int)
    requires r in x.ctx && HasRoom(x, r, part)
    ensures Grows(x, GetNextCid(x, r, part, myId))
  {
  }

  lemma CheckCidGrows(x: Proc, r: nat, part: bool, maxv: nat)
    requires r in x.ctx && maxv < |x.table| && x.ctx[r].local < |x.table|
    ensures Grows(x, CheckCid(x, r, part, maxv))
  {
  }

  lemma CheckFlagGrows(x: Proc, r: nat, part: bool, minv: nat)
    requires r in x.ctx && x.ctx[r].cid < |x.table| && (minv != 0 ==> CommitSlot(x, r, part) < |x.table|)
    ensures Grows(x, CheckFlag(x, r, part, minv))
  {
  }

  lemma StepExtends(g: Config, w: World, w': World, a: Action)
    requires Next(g, w, w', a)
    ensures Extends(w, w')
  {
    hide Extends, GetNextCid, CheckCid, CheckFlag, MaxOf, MinOf, Column, Posted;
    match a {
    case DoBegin(p, r) =>
    case DoGetNext(p, r) => GetNextGrows(w[p], r, g.reqs[r].part[p], g.reqs[r].id[p]);
    case DoCheckCid(p, r) => CheckCidGrows(w[p], r, g.reqs[r].part[p], MaxOf(Result(g, w, p, r, Max)));
    case DoCheckFlag(p, r) => CheckFlagGrows(w[p], r, g.reqs[r].part[p], MinOf(Result(g, w, p, r, Min)));
    case DoFree(p, i) =>
    }
    UpdateExtends(w, a.p, w'[a.p]);
  }

  /** Every MAX result is the value some member gave, so it indexes the table. */
  lemma MaxInTable(g: Config, w: World, r: nat, k: nat, v: nat)
    requires IsMax(g, w, r, k, v)
    requires forall m: nat :: m < |w| && r in w[m].ctx ==> CtxShape(w[m].ctx[r], g.size)
    ensures v < g.size
  {
    var s := Column(w, g.reqs[r].members, r, Max, k);
    MaxOfBounds(s);
    var i :| 0 <= i < |s| && s[i] == MaxOf(s);
    var m := g.reqs[r].members[i];
    assert k < |Sent(w, m, r, Max)|;
    assert CtxShape(w[m].ctx[r], g.size);
  }

  /** The results that the callbacks index their tables with are always in range. */
  lemma ResultsInTable(g: Config, w: World, p: nat, r: nat)
    requires Inv(g, w) && p < |w| && r in w[p].ctx && r < |g.reqs|
    ensures At(g, w, p, r, WaitMax) ==> w[p].ctx[r].local < |w[p].table|
    ensures At(g, w, p, r, WaitMax) && Ready(g, w, p, r, Max) ==> MaxOf(Result(g, w, p, r, Max)) < |w[p].table|
    ensures At(g, w, p, r, WaitMin) ==> w[p].ctx[r].cid < |w[p].table|
  {
    assert HistoryOk(g, w, p, r, w[p].ctx[r]);
    assert TableOk(g, p, w[p]);
    if At(g, w, p, r, WaitMax) && Ready(g, w, p, r, Max) {
      MaxInTable(g, w, r, |w[p].ctx[r].tops| - 1, MaxOf(Result(g, w, p, r, Max)));
    }
    if At(g, w, p, r, WaitMin) {
      MaxInTable(g, w, r, Round(w[p].ctx[r]), w[p].ctx[r].cid);
    }
  }

  // Each callback keeps the ownership discipline of its own table.

  /** One request may trade what it holds for a slot that nobody holds, and leave every other reservation alone. */
  lemma Trade(g: Config, p: nat, x: Proc, y: Proc, r: nat)
    requires TableOk(g, p, x) && r < |g.reqs| && p in g.reqs[r].members
    requires r in y.ctx && y.ctx == x.ctx[r := y.ctx[r]] && |y.table| == |x.table|
    requires forall i: nat :: OwnsAt(g, p, y, r, i) ==>
               i < |y.table| && y.table[i] == Sentinel && (x.table[i] != Sentinel || OwnsAt(g, p, x, r, i))
    requires forall i: nat :: i < |y.table| && !OwnsAt(g, p, y, r, i) ==>
               (y.table[i] == Sentinel <==> x.table[i] == Sentinel && !OwnsAt(g, p, x, r, i))
    requires forall i: nat :: i < |y.table| && y.table[i].New? ==>
               if y.table[i].req == r then y.ctx[r].pc == Done && y.ctx[r].cid == i else y.table[i] == x.table[i]
    ensures TableOk(g, p, y)
  {
    assert forall s: nat, i: nat :: s != r ==> (OwnsAt(g, p, y, s, i) <==> OwnsAt(g, p, x, s, i));
    forall i: nat | i < |y.table| && y.table[i] == Sentinel
      ensures exists s: nat :: OwnsAt(g, p, y, s, i)
    {
      if !OwnsAt(g, p, y, r, i) {
        var s: nat :| OwnsAt(g, p, x, s, i);
        assert OwnsAt(g, p, y, s, i);
      }
    }
  }

  lemma BeginTable(g: Config, p: nat, x: Proc, r: nat)
    requires TableOk(g, p, x) && r < |g.reqs| && p in g.reqs[r].members && r !in x.ctx
    ensures TableOk(g, p, Begin(x, r))
  {
    Trade(g, p, x, Begin(x, r), r);
  }

  lemma GetNextTable(g: Config, p: nat, x: Proc, r: nat, myId: int)
    requires TableOk(g, p, x) && r < |g.reqs| && p in g.reqs[r].part
    requires r in x.ctx && x.ctx[r].pc == GetNext && HasRoom(x, r, g.reqs[r].part[p])
    ensures TableOk(g, p, GetNextCid(x, r, g.reqs[r].part[p], myId))
  {
    Trade(g, p, x, GetNextCid(x, r, g.reqs[r].part[p], myId), r);
  }

  lemma CheckCidTable(g: Config, p: nat, x: Proc, r: nat, maxv: nat)
    requires TableOk(g, p, x) && r < |g.reqs| && p in g.reqs[r].part
    requires r in x.ctx && x.ctx[r].pc == WaitMax && x.ctx[r].local < |x.table| && maxv < |x.table|
    ensures TableOk(g, p, CheckCid(x, r, g.reqs[r].part[p], maxv))
  {
    assert g.reqs[r].part[p] ==> OwnsAt(g, p, x, r, x.ctx[r].local);
    Trade(g, p, x, CheckCid(x, r, g.reqs[r].part[p], maxv), r);
  }

  lemma CheckFlagTable(g: Config, p: nat, x: Proc, r: nat, minv: nat)
    requires TableOk(g, p, x) && r < |g.reqs| && p in g.reqs[r].part
    requires r in x.ctx && x.ctx[r].pc == WaitMin && x.ctx[r].cid < |x.table|
    requires minv != 0 ==> CommitSlot(x, r, g.reqs[r].part[p]) < |x.table|
    requires minv != 0 && g.reqs[r].part[p] ==> x.ctx[r].flag != 0
    ensures TableOk(g, p, CheckFlag(x, r, g.reqs[r].part[p], minv))
  {
    assert g.reqs[r].part[p] && x.ctx[r].flag != 0 ==> OwnsAt(g, p, x, r, x.ctx[r].cid);
    Trade(g, p, x, CheckFlag(x, r, g.reqs[r].part[p], minv), r);
  }

  lemma FreeTable(g: Config, p: nat, x: Proc, i: nat)
    requires TableOk(g, p, x) && i < |x.table| && (x.table[i].Old? || x.table[i].New?)
    ensures TableOk(g, p, x.(table := x.table[i := Free]))
  {
    var y := x.(table := x.table[i := Free]);
    assert forall s: nat, j: nat :: OwnsAt(g, p, y, s, j) <==> OwnsAt(g, p, x, s, j);
    forall j: nat | j < |y.table| && y.table[j] == Sentinel
      ensures exists s: nat :: OwnsAt(g, p, y, s, j)
    {
      var s: nat :| OwnsAt(g, p, x, s, j);
      assert OwnsAt(g, p, y, s, j);
    }
  }

  // Each callback's new context still agrees with the common history.

  lemma AfterGetNext(g: Config, w: World, p: nat, r: nat, c: Ctx, i: nat)
    requires HistoryOk(g, w, p, r, c) && c.pc == GetNext && i < g.size
    ensures HistoryOk(g, w, p, r, c.(pc := WaitMax, local := i, tops := c.tops + [i]))
  {
  }

  lemma AfterCheckCid(g: Config, w: World, p: nat, r: nat, c: Ctx, m: nat, f: nat)
    requires HistoryOk(g, w, p, r, c) && c.pc == WaitMax && IsMax(g, w, r, Round(c), m)
    ensures HistoryOk(g, w, p, r, c.(pc := WaitMin, cid := m, flag := f, flags := c.flags + [f]))
  {
  }

  lemma AfterCommit(g: Config, w: World, p: nat, r: nat, c: Ctx, i: nat)
    requires HistoryOk(g, w, p, r, c) && c.pc == WaitMin && Succeeded(g, w, r, Round(c))
    requires p in g.reqs[r].part && (g.reqs[r].part[p] ==> i == c.cid)
    ensures HistoryOk(g, w, p, r, c.(pc := Done, cid := i))
  {
  }

  lemma AfterRetry(g: Config, w: World, p: nat, r: nat, c: Ctx, start: nat)
    requires HistoryOk(g, w, p, r, c) && c.pc == WaitMin && Failed(g, w, r, Round(c))
    ensures HistoryOk(g, w, p, r, c.(pc := GetNext, start := start))
  {
  }

  /** A MIN result that is not zero says that this process, too, gave a nonzero flag. */
  lemma OwnFlagCounts(g: Config, w: World, p: nat, r: nat)
    requires At(g, w, p, r, WaitMin) && Ready(g, w, p, r, Min) && CtxShape(w[p].ctx[r], g.size)
    ensures MinOf(Result(g, w, p, r, Min)) <= w[p].ctx[r].flag
  {
    var s := Result(g, w, p, r, Min);
    MinOfBounds(s);
    var i :| 0 <= i < |g.reqs[r].members| && g.reqs[r].members[i] == p;
    assert s[i] == w[p].ctx[r].flag;
  }

  /** What a step leaves to prove about the process that moved. */
  ghost predicate MoverOk(g: Config, w: World, w': World, p: nat) {
    && p < |w| && |w'| == |w| && TableOk(g, p, w'[p])
    && (forall q: nat :: q < |w| && q != p ==> w'[q] == w[q])
    && (forall r: nat :: r in w'[p].ctx ==>
          (r in w[p].ctx && w'[p].ctx[r] == w[p].ctx[r]) || HistoryOk(g, w', p, r, w'[p].ctx[r]))
  }

  lemma BeginOk(g: Config, w: World, w': World, p: nat, r: nat)
    requires Next(g, w, w', DoBegin(p, r)) && TableOk(g, p, w[p])
    ensures MoverOk(g, w, w', p)
  {
    BeginTable(g, p, w[p], r);
  }

  lemma FreeOk(g: Config, w: World, w': World, p: nat, i: nat)
    requires Next(g, w, w', DoFree(p, i)) && TableOk(g, p, w[p])
    ensures MoverOk(g, w, w', p)
  {
    hide TableOk, HistoryOk;
    FreeTable(g, p, w[p], i);
  }

  lemma GetNextOk(g: Config, w: World, w': World, p: nat, r: nat)
    requires ValidConfig(g) && Next(g, w, w', DoGetNext(p, r))
    requires TableOk(g, p, w[p]) && HistoryOk(g, w, p, r, w[p].ctx[r])
    ensures MoverOk(g, w, w', p)
  {
    StepExtends(g, w, w', DoGetNext(p, r));
    hide Extends, CtxShape;
    var c := w[p].ctx[r];
    HistoryStable(g, w, w', p, r, c);
    GetNextTable(g, p, w[p], r, g.reqs[r].id[p]);
    AfterGetNext(g, w', p, r, c, if g.reqs[r].part[p] then FirstFree(w[p].table, c.start) else 0);
  }

  lemma CheckCidHistory(g: Config, w: World, w': World, p: nat, r: nat, c: Ctx, m: nat, f: nat)
    requires Extends(w, w') && HistoryOk(g, w, p, r, c) && c.pc == WaitMax
    requires IsMax(g, w, r, Round(c), m)
    ensures HistoryOk(g, w', p, r, c.(pc := WaitMin, cid := m, flag := f, flags := c.flags + [f]))
  {
    HistoryStable(g, w, w', p, r, c);
    VerdictsStable(g, w, w', r, Round(c));
    AfterCheckCid(g, w', p, r, c, m, f);
  }

  lemma CheckCidKeepsTable(g: Config, w: World, w': World, p: nat, r: nat)
    requires Next(g, w, w', DoCheckCid(p, r)) && TableOk(g, p, w[p])
    ensures TableOk(g, p, w'[p])
  {
    hide TableOk, MaxOf, Column, CheckCid;
    CheckCidTable(g, p, w[p], r, MaxOf(Result(g, w, p, r, Max)));
  }

  lemma CheckCidKeepsHistory(g: Config, w: World, w': World, p: nat, r: nat)
    requires Next(g, w, w', DoCheckCid(p, r)) && HistoryOk(g, w, p, r, w[p].ctx[r])
    ensures HistoryOk(g, w', p, r, w'[p].ctx[r])
  {
    hide Extends;
    StepExtends(g, w, w', DoCheckCid(p, r));
    CheckCidHistory(g, w, w', p, r, w[p].ctx[r], MaxOf(Result(g, w, p, r, Max)), w'[p].ctx[r].flag);
  }

  lemma CheckCidOk(g: Config, w: World, w': World, p: nat, r: nat)
    requires Next(g, w, w', DoCheckCid(p, r))
    requires TableOk(g, p, w[p]) && HistoryOk(g, w, p, r, w[p].ctx[r])
    ensures MoverOk(g, w, w', p)
  {
    hide TableOk, HistoryOk, MaxOf, Column;
    CheckCidKeepsTable(g, w, w', p, r);
    CheckCidKeepsHistory(g, w, w', p, r);
  }

  lemma CheckFlagHistory(g: Config, w: World, w': World, p: nat, r: nat, c: Ctx, c': Ctx)
    requires Extends(w, w') && HistoryOk(g, w, p, r, c) && c.pc == WaitMin && p in g.reqs[r].part
    requires (Succeeded(g, w, r, Round(c)) && c' == c.(pc := Done, cid := c'.cid)
               && (g.reqs[r].part[p] ==> c'.cid == c.cid))
          || (Failed(g, w, r, Round(c)) && c' == c.(pc := GetNext, start := c'.start))
    ensures HistoryOk(g, w', p, r, c')
  {
    HistoryStable(g, w, w', p, r, c);
    VerdictsStable(g, w, w', r, Round(c));
    if Succeeded(g, w, r, Round(c)) {
      AfterCommit(g, w', p, r, c, c'.cid);
    } else {
      AfterRetry(g, w', p, r, c, c'.start);
    }
  }

  lemma CheckFlagKeepsTable(g: Config, w: World, w': World, p: nat, r: nat)
    requires Next(g, w, w', DoCheckFlag(p, r)) && TableOk(g, p, w[p]) && CtxShape(w[p].ctx[r], g.size)
    ensures TableOk(g, p, w'[p])
  {
    OwnFlagCounts(g, w, p, r);
    CheckFlagTable(g, p, w[p], r, MinOf(Result(g, w, p, r, Min)));
  }

  lemma CheckFlagKeepsHistory(g: Config, w: World, w': World, p: nat, r: nat)
    requires Next(g, w, w', DoCheckFlag(p, r)) && HistoryOk(g, w, p, r, w[p].ctx[r])
    ensures HistoryOk(g, w', p, r, w'[p].ctx[r])
  {
    StepExtends(g, w, w', DoCheckFlag(p, r));
    CheckFlagHistory(g, w, w', p, r, w[p].ctx[r], w'[p].ctx[r]);
  }

  lemma CheckFlagOk(g: Config, w: World, w': World, p: nat, r: nat)
    requires Next(g, w, w', DoCheckFlag(p, r))
    requires TableOk(g, p, w[p]) && HistoryOk(g, w, p, r, w[p].ctx[r])
    ensures MoverOk(g, w, w', p)
  {
    CheckFlagKeepsTable(g, w, w', p, r);
    CheckFlagKeepsHistory(g, w, w', p, r);
  }

  lemma StepMoverOk(g: Config, w: World, w': World, a: Action)
    requires ValidConfig(g) && Inv(g, w) && Next(g, w, w', a)
    ensures MoverOk(g, w, w', a.p)
  {
    hide TableOk, HistoryOk, MoverOk;
    assert TableOk(g, a.p, w[a.p]);
    match a
    case DoBegin(p, r) => BeginOk(g, w, w', p, r);
    case DoGetNext(p, r) => GetNextOk(g, w, w', p, r);
    case DoCheckCid(p, r) => CheckCidOk(g, w, w', p, r);
    case DoCheckFlag(p, r) => CheckFlagOk(g, w, w', p, r);
    case DoFree(p, i) => FreeOk(g, w, w', p, i);
  }

  lemma StepKeepsInv(g: Config, w: World, w': World, a: Action)
    requires ValidConfig(g) && Inv(g, w) && Next(g, w, w', a)
    ensures Inv(g, w')
  {
    hide Next, Extends, HistoryOk, TableOk;
    StepMoverOk(g, w, w', a);
    StepExtends(g, w, w', a);
    forall p: nat, r: nat | p < |w'| && r in w'[p].ctx
      ensures HistoryOk(g, w', p, r, w'[p].ctx[r])
    {
      if r in w[p].ctx && w'[p].ctx[r] == w[p].ctx[r] {
        HistoryStable(g, w, w', p, r, w[p].ctx[r]);
      }
    }
  }

  lemma {:induction false} RunKeepsInv(g: Config, ws: seq<World>, acts: seq<Action>, i: nat)
    requires ValidConfig(g) && Run(g, ws, acts) && i < |ws|
    ensures Inv(g, ws[i])
  {
    if i > 0 {
      RunKeepsInv(g, ws, acts, i - 1);
      assert Next(g, ws[i-1], ws[i-1+1], acts[i-1]);
      StepKeepsInv(g, ws[i-1], ws[i], acts[i-1]);
    }
  }

  // ----- what every run guarantees -----

  /**
    In every state of every run, a sentinel in a table is held by exactly one request
    in flight there, a request holds at most one slot, and what it holds is a sentinel.
  */
  lemma SlotsHaveOneOwner(g: Config, ws: seq<World>, acts: seq<Action>, n: nat, p: nat)
    requires ValidConfig(g) && Run(g, ws, acts) && n < |ws| && p < |ws[n]|
    ensures forall i: nat :: i < |ws[n][p].table| ==>
              (ws[n][p].table[i] == Sentinel <==> exists r: nat :: OwnsAt(g, p, ws[n][p], r, i))
    ensures forall r: nat, s: nat, i: nat :: OwnsAt(g, p, ws[n][p], r, i) && OwnsAt(g, p, ws[n][p], s, i) ==> r == s
    ensures forall r: nat, i: nat, j: nat :: OwnsAt(g, p, ws[n][p], r, i) && OwnsAt(g, p, ws[n][p], r, j) ==> i == j
  {
    RunKeepsInv(g, ws, acts, n);
    assert TableOk(g, p, ws[n][p]);
  }

  /** A request that ended elsewhere was in no round after the one it ended in. */
  lemma NoLaterRound(g: Config, w: World, p: nat, q: nat, r: nat, a: Ctx, b: Ctx)
    requires HistoryOk(g, w, p, r, a) && HistoryOk(g, w, q, r, b) && a.pc == Done
    ensures Round(b) <= Round(a)
  {
    assert !Failed(g, w, r, Round(a));
  }

  /** Request r has ended at participant p, which recorded its context id. */
  ghost predicate EndedAt(g: Config, w: World, p: nat, r: nat, cid: nat) {
    At(g, w, p, r, Done) && g.reqs[r].part[p] && w[p].ctx[r].cid == cid
  }

  lemma SameCid(g: Config, w: World, r: nat, p: nat, i: nat, q: nat, j: nat)
    requires EndedAt(g, w, p, r, i) && EndedAt(g, w, q, r, j)
    requires HistoryOk(g, w, p, r, w[p].ctx[r]) && HistoryOk(g, w, q, r, w[q].ctx[r])
    ensures i == j
  {
    NoLaterRound(g, w, p, q, r, w[p].ctx[r], w[q].ctx[r]);
    NoLaterRound(g, w, q, p, r, w[q].ctx[r], w[p].ctx[r]);
  }

  /**
    Agreement: in every state of every run, all participants at which request r has ended
    recorded one context id, and a slot that holds the new communicator is the slot of that id.
  */
  lemma ParticipantsAgree(g: Config, ws: seq<World>, acts: seq<Action>, n: nat, r: nat)
    requires ValidConfig(g) && Run(g, ws, acts) && n < |ws|
    ensures forall p: nat, q: nat, i: nat, j: nat :: EndedAt(g, ws[n], p, r, i) && EndedAt(g, ws[n], q, r, j) ==> i == j
    ensures forall p: nat, i: nat :: p < |ws[n]| && i < |ws[n][p].table| && ws[n][p].table[i] == New(r) ==>
              r < |g.reqs| && p in g.reqs[r].part && (g.reqs[r].part[p] ==> EndedAt(g, ws[n], p, r, i))
  {
    var w := ws[n];
    RunKeepsInv(g, ws, acts, n);
    forall p: nat, q: nat, i: nat, j: nat | EndedAt(g, w, p, r, i) && EndedAt(g, w, q, r, j)
      ensures i == j
    {
      SameCid(g, w, r, p, i, q, j);
    }
    forall p: nat, i: nat | p < |w| && i < |w[p].table| && w[p].table[i] == New(r)
      ensures At(g, w, p, r, Done) && w[p].ctx[r].cid == i
    {
      assert TableOk(g, p, w[p]);
    }
  }

  /** This step of the run installs the new communicator. */
  ghost predicate Commits(g: Config, w: World, a: Action) {
    && a.DoCheckFlag? && At(g, w, a.p, a.r, WaitMin) && Ready(g, w, a.p, a.r, Min)
    && MinOf(Result(g, w, a.p, a.r, Min)) != 0
  }

  /**
    A commit only ever overwrites a slot that the committing request holds (participants)
    or the first free slot from the start of its search (the others): no communicator and no
    other reservation is lost.
  */
  lemma CommitTakesOwnSlot(g: Config, ws: seq<World>, acts: seq<Action>, n: nat)
    requires ValidConfig(g) && Run(g, ws, acts) && n < |acts| && Commits(g, ws[n], acts[n])
    ensures var p, r := acts[n].p, acts[n].r;
            var x, t := ws[n][p].ctx[r], ws[n][p].table;
            && At(g, ws[n+1], p, r, Done)
            && var i := ws[n+1][p].ctx[r].cid;
               && i < |t| && ws[n+1][p].table == t[i := New(r)]
               && (g.reqs[r].part[p] ==> i == x.cid && OwnsAt(g, p, ws[n][p], r, i) && t[i] == Sentinel)
               && (!g.reqs[r].part[p] ==> x.start <= i && t[i].Free? && forall j :: x.start <= j < i ==> !t[j].Free?)
  {
    var p, r := acts[n].p, acts[n].r;
    RunKeepsInv(g, ws, acts, n);
    assert Next(g, ws[n], ws[n+1], acts[n]);
    assert HistoryOk(g, ws[n], p, r, ws[n][p].ctx[r]) && TableOk(g, p, ws[n][p]);
    OwnFlagCounts(g, ws[n], p, r);
    if g.reqs[r].part[p] {
      assert OwnsAt(g, p, ws[n][p], r, ws[n][p].ctx[r].cid);
    }
  }

  /** Member q has given its last value to request r and can only find the verdict that ended it at p. */
  ghost predicate BoundToEnd(g: Config, w: World, p: nat, q: nat, r: nat)
    requires At(g, w, p, r, Done)
  {
    && (At(g, w, q, r, WaitMin) || At(g, w, q, r, Done))
    && Round(w[q].ctx[r]) == Round(w[p].ctx[r])
    && (At(g, w, q, r, WaitMin) ==>
          && Ready(g, w, q, r, Min) && MinOf(Result(g, w, q, r, Min)) != 0
          && (g.reqs[r].part[p] ==> w[q].ctx[r].cid == w[p].ctx[r].cid))
  }

  lemma BoundToEndAt(g: Config, w: World, p: nat, q: nat, r: nat)
    requires ValidConfig(g) && |w| == g.procs && At(g, w, p, r, Done) && q in g.reqs[r].members
    requires HistoryOk(g, w, p, r, w[p].ctx[r])
    requires r in w[q].ctx ==> HistoryOk(g, w, q, r, w[q].ctx[r])
    ensures BoundToEnd(g, w, p, q, r)
  {
    var a := w[p].ctx[r];
    var i :| 0 <= i < |g.reqs[r].members| && g.reqs[r].members[i] == q;
    assert Round(a) < |Sent(w, g.reqs[r].members[i], r, Min)|;
    NoLaterRound(g, w, p, q, r, a, w[q].ctx[r]);
  }

  /**
    All or none: once one member has ended request r, every member has already given its
    last value, waits only for the same verdict or has ended too, and none goes back for another try.
  */
  lemma NobodyRetriesAfterCommit(g: Config, ws: seq<World>, acts: seq<Action>, n: nat, r: nat, p: nat)
    requires ValidConfig(g) && Run(g, ws, acts) && n < |ws| && At(g, ws[n], p, r, Done)
    ensures forall q :: q in g.reqs[r].members ==> BoundToEnd(g, ws[n], p, q, r)
  {
    RunKeepsInv(g, ws, acts, n);
    forall q | q in g.reqs[r].members
      ensures BoundToEnd(g, ws[n], p, q, r)
    {
      BoundToEndAt(g, ws[n], p, q, r);
    }
  }
}
