/**
  One context-id allocation with no competitor: whatever the order in which its members
  run their callbacks, it ends after a bounded number of steps, never gets stuck, and
  every participant ends with the least context id that is free in all their tables.
*/
module CidSolo {
  import opened CidTable
  import opened CidProtocol

  ghost predicate CommonFree(g: Config, w0: World, r: nat, c: nat)
    requires r < |g.reqs| && |w0| == g.procs
  {
    && c < g.size
    && forall p :: (p in g.reqs[r].members && p in g.reqs[r].part && g.reqs[r].part[p]
                    && p < |w0| && c < |w0[p].table|) ==> w0[p].table[c].Free?
  }

  ghost predicate IsLeastCommonFree(g: Config, w0: World, r: nat, c: nat)
    requires r < |g.reqs| && |w0| == g.procs
  {
    CommonFree(g, w0, r, c) && forall d: nat :: CommonFree(g, w0, r, d) ==> c <= d
  }

  /** Request r alone: some member participates, c is the least id free everywhere, and nobody is out of slots. */
  ghost predicate SoloStart(g: Config, w0: World, r: nat, c: nat) {
    && ValidConfig(g) && Init(g, w0) && r < |g.reqs|
    && (exists p :: p in g.reqs[r].members && g.reqs[r].part[p])
    && IsLeastCommonFree(g, w0, r, c)
    && (forall p :: p in g.reqs[r].members ==>
          w0[p].lowest == INT64_MAX && g.reqs[r].id[p] <= INT64_MAX && FirstFree(w0[p].table, 0) < g.size)
  }

  ghost predicate SoloRun(g: Config, ws: seq<World>, acts: seq<Action>, r: nat, c: nat) {
    && Run(g, ws, acts) && SoloStart(g, ws[0], r, c)
    && forall i :: 0 <= i < |acts| ==> !acts[i].DoFree? && acts[i].r == r
  }

  // ----- the invariant of a solo run -----

  /** The result of the MAX allreduce of round k. */
  ghost function Top(g: Config, w: World, r: nat, k: nat): nat
    requires r < |g.reqs|
  {
    if g.reqs[r].members != [] && Posted(w, g.reqs[r].members, r, Max, k)
    then MaxOf(Column(w, g.reqs[r].members, r, Max, k)) else 0
  }

  /** The table that a process with context c must have, t0 being its table at the start. */
  ghost predicate TableNow(t: seq<Slot>, t0: seq<Slot>, c: Ctx, part: bool, r: nat) {
    if c.pc == Done then
      && c.cid < |t0| && t0[c.cid].Free? && t == t0[c.cid := New(r)]
      && (!part ==> forall j :: 0 <= j < c.cid ==> !t0[j].Free?)
    else if part && c.pc == WaitMax then c.local < |t0| && t0[c.local].Free? && t == t0[c.local := Sentinel]
    else if part && c.pc == WaitMin && c.flag != 0 then c.cid < |t0| && t == t0[c.cid := Sentinel]
    else t == t0
  }

  /** Every value given to a MAX allreduce is a slot free at the start, and none passes the least common free id c. */
  ghost predicate Bounded(x: Ctx, t0: seq<Slot>, part: bool, c: nat) {
    && (part ==> x.start <= c)
    && forall k: nat :: k < |x.tops| ==>
         if part then x.tops[k] <= c && x.tops[k] < |t0| && t0[x.tops[k]].Free? else x.tops[k] == 0
  }

  /** The flag a member gave in round k says whether the round's id is free in its own table. */
  ghost predicate Truthful(g: Config, w: World, r: nat, t0: seq<Slot>, x: Ctx, part: bool)
    requires r < |g.reqs|
  {
    forall k: nat :: k < |x.flags| ==>
      && Posted(w, g.reqs[r].members, r, Max, k) && Top(g, w, r, k) < |t0|
      && (x.flags[k] != 0 <==> (part ==> t0[Top(g, w, r, k)].Free?))
  }

  /** A participant that attained the MAX of a round gives more in the next one. */
  ghost predicate Climbs(g: Config, w: World, r: nat, x: Ctx)
    requires r < |g.reqs|
  {
    && (forall k: nat :: k + 1 < |x.tops| && x.tops[k] == Top(g, w, r, k) ==> x.tops[k + 1] > x.tops[k])
    && (x.pc == GetNext && |x.tops| > 0 && x.tops[|x.tops| - 1] == Top(g, w, r, |x.tops| - 1) ==>
          x.start > x.tops[|x.tops| - 1])
  }

  /** Process state y fits the start table t0 and the histories in w. */
  ghost predicate SoloCtx(g: Config, w: World, y: Proc, t0: seq<Slot>, part: bool, id: int, r: nat, c: nat)
    requires r < |g.reqs| && r in y.ctx
  {
    var x := y.ctx[r];
    && (y.lowest == INT64_MAX || y.lowest == id)
    && TableNow(y.table, t0, x, part, r)
    && Bounded(x, t0, part, c)
    && Truthful(g, w, r, t0, x, part)
    && (part ==> Climbs(g, w, r, x))
    && (!part ==> x.start == FirstFree(t0, 0))
  }

  ghost predicate SoloProc(g: Config, w0: World, w: World, p: nat, y: Proc, r: nat, c: nat)
    requires p < |w0| && r < |g.reqs|
  {
    if r in y.ctx then
      && p in g.reqs[r].part && p in g.reqs[r].id
      && SoloCtx(g, w, y, w0[p].table, g.reqs[r].part[p], g.reqs[r].id[p], r, c)
    else y == w0[p]
  }

  ghost predicate SoloInv(g: Config, w0: World, w: World, r: nat, c: nat) {
    && SoloStart(g, w0, r, c) && Inv(g, w)
    && forall p: nat :: p < |w| ==> SoloProc(g, w0, w, p, w[p], r, c)
  }

  // ----- preservation -----

  lemma TopStable(g: Config, w: World, w': World, r: nat, k: nat)
    requires r < |g.reqs| && Extends(w, w') && Posted(w, g.reqs[r].members, r, Max, k)
    ensures Posted(w', g.reqs[r].members, r, Max, k) && Top(g, w', r, k) == Top(g, w, r, k)
  {
    ColumnStable(w, w', g.reqs[r].members, r, Max, k);
  }

  lemma TruthfulStable(g: Config, w: World, w': World, r: nat, t0: seq<Slot>, x: Ctx, part: bool)
    requires r < |g.reqs| && Extends(w, w') && Truthful(g, w, r, t0, x, part)
    ensures Truthful(g, w', r, t0, x, part)
  {
    forall k: nat | k < |x.flags|
      ensures Posted(w', g.reqs[r].members, r, Max, k) && Top(g, w', r, k) == Top(g, w, r, k)
    {
      TopStable(g, w, w', r, k);
    }
  }

  lemma ClimbsStable(g: Config, w: World, w': World, r: nat, x: Ctx)
    requires r < |g.reqs| && Extends(w, w') && Climbs(g, w, r, x)
    requires |x.tops| == |x.flags| + (if x.pc == WaitMax then 1 else 0)
    requires forall k: nat :: k < |x.flags| ==> Posted(w, g.reqs[r].members, r, Max, k)
    ensures Climbs(g, w', r, x)
  {
    forall k: nat | k < |x.flags|
      ensures Top(g, w', r, k) == Top(g, w, r, k)
    {
      TopStable(g, w, w', r, k);
    }
  }

  lemma SoloProcStable(g: Config, w0: World, w: World, w': World, p: nat, y: Proc, r: nat, c: nat)
    requires p < |w0| && r < |g.reqs| && Extends(w, w') && SoloProc(g, w0, w, p, y, r, c)
    requires r in y.ctx ==> CtxShape(y.ctx[r], g.size)
    ensures SoloProc(g, w0, w', p, y, r, c)
  {
    if r in y.ctx {
      TruthfulStable(g, w, w', r, w0[p].table, y.ctx[r], g.reqs[r].part[p]);
      if g.reqs[r].part[p] {
        ClimbsStable(g, w, w', r, y.ctx[r]);
      }
    }
  }

  lemma FirstFreeBefore(t: seq<Slot>, start: nat, c: nat)
    requires start <= c < |t| && t[c].Free?
    ensures start <= FirstFree(t, start) <= c
  {
  }

  lemma SoloGetNext(g: Config, w: World, y: Proc, t0: seq<Slot>, part: bool, id: int, r: nat, c: nat)
    requires r < |g.reqs| && r in y.ctx && y.ctx[r].pc == GetNext && CtxShape(y.ctx[r], g.size)
    requires SoloCtx(g, w, y, t0, part, id, r, c) && id <= INT64_MAX && HasRoom(y, r, part)
    requires part ==> c < |t0| && t0[c].Free?
    ensures SoloCtx(g, w, GetNextCid(y, r, part, id), t0, part, id, r, c)
    ensures GetNextCid(y, r, part, id).ctx[r].pc == WaitMax
  {
    if part {
      FirstFreeBefore(t0, y.ctx[r].start, c);
    }
  }

  lemma SoloCheckCid(g: Config, w: World, y: Proc, t0: seq<Slot>, part: bool, id: int, r: nat, c: nat)
    requires r < |g.reqs| && r in y.ctx && y.ctx[r].pc == WaitMax && CtxShape(y.ctx[r], g.size)
    requires SoloCtx(g, w, y, t0, part, id, r, c) && |y.table| == |t0|
    requires g.reqs[r].members != [] && Posted(w, g.reqs[r].members, r, Max, |y.ctx[r].flags|)
    requires y.ctx[r].local < |t0| && Top(g, w, r, |y.ctx[r].flags|) < |t0|
    ensures SoloCtx(g, w, CheckCid(y, r, part, Top(g, w, r, |y.ctx[r].flags|)), t0, part, id, r, c)
  {
    var m := Top(g, w, r, |y.ctx[r].flags|);
    var x' := CheckCid(y, r, part, m).ctx[r];
    if part {
      assert y.table[y.ctx[r].local := Free] == t0;
    }
    assert Truthful(g, w, r, t0, x', part);
    assert TableNow(CheckCid(y, r, part, m).table, t0, x', part, r);
  }

  lemma SoloCheckFlag(g: Config, w: World, y: Proc, t0: seq<Slot>, part: bool, id: int, r: nat, c: nat, m: nat)
    requires r < |g.reqs| && r in y.ctx && y.ctx[r].pc == WaitMin && CtxShape(y.ctx[r], g.size)
    requires SoloCtx(g, w, y, t0, part, id, r, c) && |y.table| == |t0|
    requires y.ctx[r].cid < |t0| && y.ctx[r].cid == Top(g, w, r, Round(y.ctx[r]))
    requires m != 0 ==> CommitSlot(y, r, part) < |t0| && y.ctx[r].flag != 0
    requires m == 0 ==> y.ctx[r].cid < c
    ensures SoloCtx(g, w, CheckFlag(y, r, part, m), t0, part, id, r, c)
  {
    var x := y.ctx[r];
    var z := CheckFlag(y, r, part, m);
    assert x.flags[|x.flags| - 1] != 0 <==> (part ==> t0[x.cid].Free?);
    assert TableNow(z.table, t0, z.ctx[r], part, r);
    assert Truthful(g, w, r, t0, z.ctx[r], part);
  }

  // ----- the rounds -----

  lemma MemberSolo(g: Config, w0: World, w: World, r: nat, c: nat, i: nat, op: Op, k: nat) returns (p: nat)
    requires SoloInv(g, w0, w, r, c) && i < |g.reqs[r].members| && Posted(w, g.reqs[r].members, r, op, k)
    ensures p == g.reqs[r].members[i] && p < |w| && r in w[p].ctx && p in g.reqs[r].part && p in g.reqs[r].id
    ensures k < |Sent(w, p, r, op)|
    ensures CtxShape(w[p].ctx[r], g.size)
    ensures SoloCtx(g, w, w[p], w0[p].table, g.reqs[r].part[p], g.reqs[r].id[p], r, c)
  {
    p := g.reqs[r].members[i];
    assert k < |Sent(w, g.reqs[r].members[i], r, op)|;
    assert HistoryOk(g, w, p, r, w[p].ctx[r]);
    assert SoloProc(g, w0, w, p, w[p], r, c);
  }

  lemma TopBounded(g: Config, w0: World, w: World, r: nat, c: nat, k: nat)
    requires SoloInv(g, w0, w, r, c) && g.reqs[r].members != [] && Posted(w, g.reqs[r].members, r, Max, k)
    ensures Top(g, w, r, k) <= c
  {
    var s := Column(w, g.reqs[r].members, r, Max, k);
    MaxOfBounds(s);
    var i :| 0 <= i < |s| && s[i] == MaxOf(s);
    var p := MemberSolo(g, w0, w, r, c, i, Max, k);
  }

  lemma SomeZeroFlag(g: Config, w: World, r: nat, k: nat) returns (i: nat)
    requires Failed(g, w, r, k)
    ensures i < |g.reqs[r].members| && Sent(w, g.reqs[r].members[i], r, Min)[k] == 0
  {
    var s := Column(w, g.reqs[r].members, r, Min, k);
    MinOfBounds(s);
    i :| 0 <= i < |s| && s[i] == MinOf(s);
  }

  /** A round fails only on an id that some participant does not have free. */
  lemma FailedTop(g: Config, w0: World, w: World, r: nat, c: nat, k: nat)
    requires SoloInv(g, w0, w, r, c) && Failed(g, w, r, k)
    ensures Posted(w, g.reqs[r].members, r, Max, k) && Top(g, w, r, k) < c
  {
    hide Inv, CtxShape, TableNow, Bounded, Climbs;
    var i := SomeZeroFlag(g, w, r, k);
    var p := MemberSolo(g, w0, w, r, c, i, Min, k);
    TopBounded(g, w0, w, r, c, k);
    assert !w0[p].table[Top(g, w, r, k)].Free?;
  }

  lemma FreeWhereSucceeded(g: Config, w0: World, w: World, r: nat, c: nat, k: nat, i: nat)
    requires SoloInv(g, w0, w, r, c) && Succeeded(g, w, r, k) && i < |g.reqs[r].members|
    ensures var p := g.reqs[r].members[i];
            && Posted(w, g.reqs[r].members, r, Max, k)
            && p < |w0| && Top(g, w, r, k) < |w0[p].table|
            && p in g.reqs[r].part && (g.reqs[r].part[p] ==> w0[p].table[Top(g, w, r, k)].Free?)
  {
    var s := Column(w, g.reqs[r].members, r, Min, k);
    MinOfBounds(s);
    var p := MemberSolo(g, w0, w, r, c, i, Min, k);
    assert s[i] == w[p].ctx[r].flags[k];
  }

  /** A round succeeds only on an id that all participants have free: the least one. */
  lemma SucceededTop(g: Config, w0: World, w: World, r: nat, c: nat, k: nat)
    requires SoloInv(g, w0, w, r, c) && Succeeded(g, w, r, k)
    ensures Posted(w, g.reqs[r].members, r, Max, k) && Top(g, w, r, k) == c
  {
    FreeWhereSucceeded(g, w0, w, r, c, k, 0);
    TopBounded(g, w0, w, r, c, k);
    var m := Top(g, w, r, k);
    forall p | p in g.reqs[r].members && p in g.reqs[r].part && g.reqs[r].part[p] && p < |w0| && m < |w0[p].table|
      ensures w0[p].table[m].Free?
    {
      var i :| 0 <= i < |g.reqs[r].members| && g.reqs[r].members[i] == p;
      FreeWhereSucceeded(g, w0, w, r, c, k, i);
    }
    assert CommonFree(g, w0, r, m);
  }

  // ----- every step of a solo run keeps the invariant -----

  lemma SoloMover(g: Config, w0: World, w: World, w': World, a: Action, r: nat, c: nat)
    requires SoloInv(g, w0, w, r, c) && Next(g, w, w', a) && !a.DoFree? && a.r == r
    ensures a.p < |w'| && SoloProc(g, w0, w', a.p, w'[a.p], r, c)
  {
    var p := a.p;
    StepExtends(g, w, w', a);
    assert SoloProc(g, w0, w, p, w[p], r, c);
    if !a.DoBegin? {
      assert HistoryOk(g, w, p, r, w[p].ctx[r]) && TableOk(g, p, w[p]);
      SoloProcStable(g, w0, w, w', p, w[p], r, c);
    }
    match a
    case DoBegin(_, _) => SoloBeginOk(g, w0, w, w', p, r, c);
    case DoGetNext(_, _) => SoloGetNext(g, w', w[p], w0[p].table, g.reqs[r].part[p], g.reqs[r].id[p], r, c);
    case DoCheckCid(_, _) => SoloCheckCidOk(g, w0, w, w', p, r, c);
    case DoCheckFlag(_, _) =>
      if MinOf(Result(g, w, p, r, Min)) == 0 {
        RetryBelow(g, w0, w, p, r, c);
      }
      SoloCheckFlagOk(g, w0, w, w', p, r, c);
  }

  lemma SoloBeginOk(g: Config, w0: World, w: World, w': World, p: nat, r: nat, c: nat)
    requires SoloInv(g, w0, w, r, c) && Next(g, w, w', DoBegin(p, r))
    ensures SoloProc(g, w0, w', p, w'[p], r, c)
  {
    assert SoloProc(g, w0, w, p, w[p], r, c);
    if g.reqs[r].part[p] {
      FirstFreeBefore(w0[p].table, 0, c);
    }
  }

  lemma SoloCheckCidOk(g: Config, w0: World, w: World, w': World, p: nat, r: nat, c: nat)
    requires r < |g.reqs| && p < |w0| && Next(g, w, w', DoCheckCid(p, r)) && Extends(w, w')
    requires CtxShape(w[p].ctx[r], g.size) && |w[p].table| == |w0[p].table|
    requires SoloProc(g, w0, w', p, w[p], r, c)
    ensures SoloProc(g, w0, w', p, w'[p], r, c)
  {
    TopStable(g, w, w', r, |w[p].ctx[r].flags|);
    SoloCheckCid(g, w', w[p], w0[p].table, g.reqs[r].part[p], g.reqs[r].id[p], r, c);
  }

  /** A request that is told to retry was in a round on an id below c. */
  lemma RetryBelow(g: Config, w0: World, w: World, p: nat, r: nat, c: nat)
    requires SoloInv(g, w0, w, r, c) && At(g, w, p, r, WaitMin) && Ready(g, w, p, r, Min)
    requires MinOf(Result(g, w, p, r, Min)) == 0
    ensures w[p].ctx[r].cid < c
  {
    hide SoloStart, SoloProc, TableOk, CtxShape;
    var x := w[p].ctx[r];
    assert HistoryOk(g, w, p, r, x);
    assert Failed(g, w, r, Round(x));
    FailedTop(g, w0, w, r, c, Round(x));
  }

  lemma SoloCheckFlagOk(g: Config, w0: World, w: World, w': World, p: nat, r: nat, c: nat)
    requires p < |w0| && Next(g, w, w', DoCheckFlag(p, r)) && Extends(w, w')
    requires HistoryOk(g, w, p, r, w[p].ctx[r]) && |w[p].table| == |w0[p].table|
    requires MinOf(Result(g, w, p, r, Min)) == 0 ==> w[p].ctx[r].cid < c
    requires SoloProc(g, w0, w', p, w[p], r, c)
    ensures SoloProc(g, w0, w', p, w'[p], r, c)
  {
    OwnFlagCounts(g, w, p, r);
    TopStable(g, w, w', r, Round(w[p].ctx[r]));
    SoloCheckFlag(g, w', w[p], w0[p].table, g.reqs[r].part[p], g.reqs[r].id[p], r, c, MinOf(Result(g, w, p, r, Min)));
  }

  lemma SoloStep(g: Config, w0: World, w: World, w': World, a: Action, r: nat, c: nat)
    requires SoloInv(g, w0, w, r, c) && Next(g, w, w', a) && !a.DoFree? && a.r == r
    ensures SoloInv(g, w0, w', r, c)
  {
    StepKeepsInv(g, w, w', a);
    StepExtends(g, w, w', a);
    SoloMover(g, w0, w, w', a, r, c);
    forall p: nat | p < |w'| && p != a.p
      ensures SoloProc(g, w0, w', p, w'[p], r, c)
    {
      assert w'[p] == w[p] && SoloProc(g, w0, w, p, w[p], r, c);
      if r in w[p].ctx {
        assert HistoryOk(g, w, p, r, w[p].ctx[r]);
      }
      SoloProcStable(g, w0, w, w', p, w[p], r, c);
    }
  }

  lemma {:induction false} SoloRunKeepsInv(g: Config, ws: seq<World>, acts: seq<Action>, r: nat, c: nat, n: nat)
    requires SoloRun(g, ws, acts, r, c) && n < |ws|
    ensures SoloInv(g, ws[0], ws[n], r, c)
  {
    if n == 0 {
      RunKeepsInv(g, ws, acts, 0);
    } else {
      hide Next, Inv, SoloProc, SoloStart, SoloInv;
      SoloRunKeepsInv(g, ws, acts, r, c, n - 1);
      assert Next(g, ws[n-1], ws[n-1+1], acts[n-1]);
      SoloStep(g, ws[0], ws[n-1], ws[n], acts[n-1], r, c);
    }
  }

  // ----- every round raises the MAX -----

  /** When the members outside the new group give 0, the maximum is attained inside it. */
  lemma AttainedInside(s: seq<nat>, ms: seq<nat>, part: map<nat, bool>) returns (i: nat)
    requires |s| == |ms| && s != []
    requires forall j :: 0 <= j < |ms| ==> ms[j] in part && (!part[ms[j]] ==> s[j] == 0)
    requires exists q :: q in ms && q in part && part[q]
    ensures i < |ms| && ms[i] in part && part[ms[i]] && s[i] == MaxOf(s)
  {
    MaxOfBounds(s);
    i :| 0 <= i < |s| && s[i] == MaxOf(s);
    if !part[ms[i]] {
      var q :| q in ms && q in part && part[q];
      i :| 0 <= i < |ms| && ms[i] == q;
      assert s[i] <= MaxOf(s);
    }
  }

  lemma TopAttained(g: Config, w0: World, w: World, r: nat, c: nat, k: nat) returns (i: nat)
    requires SoloInv(g, w0, w, r, c) && Posted(w, g.reqs[r].members, r, Max, k)
    ensures i < |g.reqs[r].members| && g.reqs[r].members[i] in g.reqs[r].part && g.reqs[r].part[g.reqs[r].members[i]]
    ensures Sent(w, g.reqs[r].members[i], r, Max)[k] == Top(g, w, r, k)
  {
    var ms := g.reqs[r].members;
    var s := Column(w, ms, r, Max, k);
    forall j | 0 <= j < |ms|
      ensures ms[j] in g.reqs[r].part && (!g.reqs[r].part[ms[j]] ==> s[j] == 0)
    {
      var p := MemberSolo(g, w0, w, r, c, j, Max, k);
    }
    i := AttainedInside(s, ms, g.reqs[r].part);
  }

  lemma TopGrows(g: Config, w0: World, w: World, r: nat, c: nat, k: nat)
    requires SoloInv(g, w0, w, r, c)
    requires Posted(w, g.reqs[r].members, r, Max, k) && Posted(w, g.reqs[r].members, r, Max, k + 1)
    ensures Top(g, w, r, k) < Top(g, w, r, k + 1)
  {
    var i := TopAttained(g, w0, w, r, c, k);
    var p := MemberSolo(g, w0, w, r, c, i, Max, k + 1);
    var s := Column(w, g.reqs[r].members, r, Max, k + 1);
    MaxOfBounds(s);
    assert s[i] == w[p].ctx[r].tops[k + 1];
  }

  lemma {:induction false} TopAtLeastRound(g: Config, w0: World, w: World, r: nat, c: nat, k: nat)
    requires SoloInv(g, w0, w, r, c) && forall j: nat :: j <= k ==> Failed(g, w, r, j)
    ensures Posted(w, g.reqs[r].members, r, Max, k) && k <= Top(g, w, r, k) < c
  {
    assert Failed(g, w, r, k);
    FailedTop(g, w0, w, r, c, k);
    if k > 0 {
      TopAtLeastRound(g, w0, w, r, c, k - 1);
      TopGrows(g, w0, w, r, c, k - 1);
    }
  }

  /** At most c rounds fail. */
  lemma RoundsBounded(g: Config, w0: World, w: World, r: nat, c: nat, p: nat)
    requires SoloInv(g, w0, w, r, c) && p < |w| && r in w[p].ctx
    ensures Round(w[p].ctx[r]) <= c
  {
    assert HistoryOk(g, w, p, r, w[p].ctx[r]);
    if Round(w[p].ctx[r]) > 0 {
      TopAtLeastRound(g, w0, w, r, c, Round(w[p].ctx[r]) - 1);
    }
  }

  // ----- how many steps a run has -----

  /** How many callbacks a request with context x has run. */
  ghost function CtxRank(x: Ctx): nat {
    3 * Round(x) + (match x.pc case GetNext => 1 case WaitMax => 2 case WaitMin => 3 case Done => 4)
  }

  /** How many callbacks process p has run for request r. */
  ghost function Rank(w: World, p: nat, r: nat): nat {
    if p < |w| && r in w[p].ctx then CtxRank(w[p].ctx[r]) else 0
  }

  ghost function RankSum(w: World, r: nat, n: nat): nat {
    if n == 0 then 0 else RankSum(w, r, n - 1) + Rank(w, n - 1, r)
  }

  lemma {:induction false} RankSumStep(w: World, w': World, r: nat, n: nat, p: nat)
    requires forall q: nat :: q != p ==> Rank(w', q, r) == Rank(w, q, r)
    requires Rank(w', p, r) == Rank(w, p, r) + 1
    ensures RankSum(w', r, n) == RankSum(w, r, n) + (if p < n then 1 else 0)
  {
    if n > 0 {
      RankSumStep(w, w', r, n - 1, p);
    }
  }

  lemma {:induction false} RankSumBound(w: World, r: nat, n: nat, b: nat)
    requires forall q: nat :: Rank(w, q, r) <= b
    ensures RankSum(w, r, n) <= n * b
  {
    if n > 0 {
      RankSumBound(w, r, n - 1, b);
      assert n * b == (n - 1) * b + b;
    }
  }

  lemma CallbackRaisesRank(y: Proc, r: nat, part: bool, id: int, v: nat, size: nat)
    requires r in y.ctx && CtxShape(y.ctx[r], size)
    ensures y.ctx[r].pc == GetNext && HasRoom(y, r, part) && id <= y.lowest ==>
              CtxRank(GetNextCid(y, r, part, id).ctx[r]) == CtxRank(y.ctx[r]) + 1
    ensures y.ctx[r].pc == WaitMax && v < |y.table| && y.ctx[r].local < |y.table| ==>
              CtxRank(CheckCid(y, r, part, v).ctx[r]) == CtxRank(y.ctx[r]) + 1
    ensures y.ctx[r].pc == WaitMin && y.ctx[r].cid < |y.table| && (v != 0 ==> CommitSlot(y, r, part) < |y.table|) ==>
              CtxRank(CheckFlag(y, r, part, v).ctx[r]) == CtxRank(y.ctx[r]) + 1
  {
  }

  /** The gate on the lowest request id never holds a lone request back. */
  lemma GateOpen(g: Config, w0: World, w: World, r: nat, c: nat, p: nat)
    requires SoloInv(g, w0, w, r, c) && p < |w| && p in g.reqs[r].members && r in w[p].ctx
    ensures p in g.reqs[r].id && g.reqs[r].id[p] <= w[p].lowest && CtxShape(w[p].ctx[r], g.size)
  {
    assert SoloProc(g, w0, w, p, w[p], r, c) && HistoryOk(g, w, p, r, w[p].ctx[r]);
  }

  lemma StepRaisesRank(g: Config, w: World, w': World, a: Action, r: nat)
    requires Next(g, w, w', a) && !a.DoFree? && a.r == r
    requires r in w[a.p].ctx ==> CtxShape(w[a.p].ctx[r], g.size) && g.reqs[r].id[a.p] <= w[a.p].lowest
    ensures RankSum(w', r, |w|) == RankSum(w, r, |w|) + 1
  {
    var p := a.p;
    if !a.DoBegin? {
      var v := if a.DoCheckCid? then MaxOf(Result(g, w, p, r, Max))
               else if a.DoCheckFlag? then MinOf(Result(g, w, p, r, Min)) else 0;
      CallbackRaisesRank(w[p], r, g.reqs[r].part[p], g.reqs[r].id[p], v, g.size);
    }
    RankSumStep(w, w', r, |w|, p);
  }

  lemma NoRankAtStart(g: Config, w0: World, r: nat)
    requires Init(g, w0)
    ensures RankSum(w0, r, g.procs) == 0
  {
    forall q: nat
      ensures Rank(w0, q, r) <= 0
    {
      if q < |w0| { assert w0[q].ctx == map[]; }
    }
    RankSumBound(w0, r, g.procs, 0);
  }

  lemma SoloStepRaisesRank(g: Config, w0: World, w: World, w': World, a: Action, r: nat, c: nat)
    requires SoloInv(g, w0, w, r, c) && Next(g, w, w', a) && !a.DoFree? && a.r == r
    ensures RankSum(w', r, g.procs) == RankSum(w, r, g.procs) + 1
  {
    if r in w[a.p].ctx {
      GateOpen(g, w0, w, r, c, a.p);
    }
    StepRaisesRank(g, w, w', a, r);
  }

  lemma RunStepRaisesRank(g: Config, ws: seq<World>, acts: seq<Action>, r: nat, c: nat, n: nat)
    requires SoloRun(g, ws, acts, r, c) && n < |acts|
    ensures RankSum(ws[n+1], r, g.procs) == RankSum(ws[n], r, g.procs) + 1
  {
    SoloRunKeepsInv(g, ws, acts, r, c, n);
    assert Next(g, ws[n], ws[n+1], acts[n]);
    SoloStepRaisesRank(g, ws[0], ws[n], ws[n+1], acts[n], r, c);
  }

  lemma {:induction false} StepsAreRanks(g: Config, ws: seq<World>, acts: seq<Action>, r: nat, c: nat, n: nat)
    requires SoloRun(g, ws, acts, r, c) && n < |ws|
    ensures RankSum(ws[n], r, g.procs) == n
  {
    if n == 0 {
      NoRankAtStart(g, ws[0], r);
    } else {
      StepsAreRanks(g, ws, acts, r, c, n - 1);
      RunStepRaisesRank(g, ws, acts, r, c, n - 1);
    }
  }

  /** Termination: a solo run has at most 3c + 4 callbacks per process, c being the least common free id. */
  lemma SoloRunIsBounded(g: Config, ws: seq<World>, acts: seq<Action>, r: nat, c: nat)
    requires SoloRun(g, ws, acts, r, c)
    ensures |acts| <= g.procs * (3 * c + 4)
  {
    var n := |acts|;
    StepsAreRanks(g, ws, acts, r, c, n);
    SoloRunKeepsInv(g, ws, acts, r, c, n);
    forall q: nat
      ensures Rank(ws[n], q, r) <= 3 * c + 4
    {
      if q < |ws[n]| && r in ws[n][q].ctx {
        RoundsBounded(g, ws[0], ws[n], r, c, q);
      }
    }
    RankSumBound(ws[n], r, g.procs, 3 * c + 4);
  }

  // ----- no deadlock -----

  ghost predicate CanStep(g: Config, w: World, r: nat) {
    exists w': World, a: Action :: Next(g, w, w', a) && !a.DoFree? && a.r == r
  }

  /** Member q has not yet given what process p waits for. */
  ghost predicate Behind(w: World, r: nat, q: nat, p: nat, op: Op)
    requires p < |w| && r in w[p].ctx
  {
    |Sent(w, q, r, op)| < |Sent(w, p, r, op)|
  }

  lemma ReadyOrBehind(g: Config, w: World, p: nat, r: nat, op: Op)
    requires r < |g.reqs| && p < |w| && r in w[p].ctx && |Sent(w, p, r, op)| > 0 && g.reqs[r].members != []
    ensures Ready(g, w, p, r, op) || exists q :: q in g.reqs[r].members && Behind(w, r, q, p, op)
  {
    if !Ready(g, w, p, r, op) {
      var i :| 0 <= i < |g.reqs[r].members| && |Sent(w, g.reqs[r].members[i], r, op)| <= |Sent(w, p, r, op)| - 1;
      assert Behind(w, r, g.reqs[r].members[i], p, op);
    }
  }

  lemma LaterRankIsHigher(a: Ctx, b: Ctx, size: nat)
    requires CtxShape(a, size) && CtxShape(b, size) && a.pc != Done
    requires (b.pc == WaitMax && |a.tops| < |b.tops|) || (b.pc == WaitMin && |a.flags| < |b.flags|)
    ensures CtxRank(a) < CtxRank(b)
  {
  }

  /** Somebody who is behind an unfinished process is unfinished too, and has run fewer callbacks. */
  lemma BehindIsLower(g: Config, w: World, r: nat, q: nat, p: nat, op: Op)
    requires p < |w| && q < |w| && r in w[p].ctx && HistoryOk(g, w, p, r, w[p].ctx[r])
    requires r in w[q].ctx ==> HistoryOk(g, w, q, r, w[q].ctx[r])
    requires w[p].ctx[r].pc == (if op.Max? then WaitMax else WaitMin) && Behind(w, r, q, p, op)
    ensures Rank(w, q, r) < Rank(w, p, r) && !At(g, w, q, r, Done)
  {
    if r in w[q].ctx {
      if w[q].ctx[r].pc == Done {
        NoLaterRound(g, w, q, p, r, w[q].ctx[r], w[p].ctx[r]);
        assert false;
      }
      LaterRankIsHigher(w[q].ctx[r], w[p].ctx[r], g.size);
    }
  }

  /** A process that can reserve, that has a result or that has not begun can run its next callback. */
  lemma StepsWhenReady(g: Config, w: World, r: nat, p: nat)
    requires r < |g.reqs| && p < |w| && p in g.reqs[r].members && p in g.reqs[r].part && p in g.reqs[r].id
    requires r in w[p].ctx ==>
      match w[p].ctx[r].pc
      case GetNext => HasRoom(w[p], r, g.reqs[r].part[p])
      case WaitMax => Ready(g, w, p, r, Max) && MaxOf(Result(g, w, p, r, Max)) < |w[p].table|
        && w[p].ctx[r].local < |w[p].table|
      case WaitMin => Ready(g, w, p, r, Min) && w[p].ctx[r].cid < |w[p].table|
        && CommitSlot(w[p], r, g.reqs[r].part[p]) < |w[p].table|
      case Done => false
    ensures CanStep(g, w, r)
  {
    if r !in w[p].ctx {
      assert Next(g, w, w[p := Begin(w[p], r)], DoBegin(p, r));
    } else {
      var part := g.reqs[r].part[p];
      match w[p].ctx[r].pc
      case GetNext =>
        assert Next(g, w, w[p := GetNextCid(w[p], r, part, g.reqs[r].id[p])], DoGetNext(p, r));
      case WaitMax =>
        assert Next(g, w, w[p := CheckCid(w[p], r, part, MaxOf(Result(g, w, p, r, Max)))], DoCheckCid(p, r));
      case WaitMin =>
        assert Next(g, w, w[p := CheckFlag(w[p], r, part, MinOf(Result(g, w, p, r, Min)))], DoCheckFlag(p, r));
    }
  }

  lemma RoomInSolo(g: Config, w0: World, w: World, r: nat, c: nat, p: nat)
    requires SoloInv(g, w0, w, r, c) && p in g.reqs[r].members && p < |w| && r in w[p].ctx
    ensures p in g.reqs[r].part
    ensures w[p].ctx[r].pc == GetNext ==> HasRoom(w[p], r, g.reqs[r].part[p])
    ensures w[p].ctx[r].pc == WaitMin && !g.reqs[r].part[p] ==> CommitSlot(w[p], r, false) < |w[p].table|
  {
    assert SoloProc(g, w0, w, p, w[p], r, c);
    if g.reqs[r].part[p] && w[p].ctx[r].pc == GetNext {
      FirstFreeBefore(w0[p].table, w[p].ctx[r].start, c);
    }
    if !g.reqs[r].part[p] {
      FirstFreeBefore(w0[p].table, w[p].ctx[r].start, FirstFree(w0[p].table, 0));
    }
  }

  lemma StepsUnlessBehind(g: Config, w0: World, w: World, r: nat, c: nat, p: nat)
    requires SoloInv(g, w0, w, r, c) && p in g.reqs[r].members && !At(g, w, p, r, Done)
    requires At(g, w, p, r, WaitMax) ==> Ready(g, w, p, r, Max)
    requires At(g, w, p, r, WaitMin) ==> Ready(g, w, p, r, Min)
    ensures CanStep(g, w, r)
  {
    if r in w[p].ctx {
      RoomInSolo(g, w0, w, r, c, p);
      ResultsInTable(g, w, p, r);
    }
    StepsWhenReady(g, w, r, p);
  }

  /** No deadlock: as long as some member has not ended, some callback of the request can run. */
  lemma {:induction false} SoloNeverStuck(g: Config, w0: World, w: World, r: nat, c: nat, p: nat)
    requires SoloInv(g, w0, w, r, c) && p in g.reqs[r].members && !At(g, w, p, r, Done)
    ensures CanStep(g, w, r)
    decreases Rank(w, p, r)
  {
    var op := if At(g, w, p, r, WaitMax) then Max else Min;
    if (At(g, w, p, r, WaitMax) || At(g, w, p, r, WaitMin)) && !Ready(g, w, p, r, op) {
      assert HistoryOk(g, w, p, r, w[p].ctx[r]);
      ReadyOrBehind(g, w, p, r, op);
      var q :| q in g.reqs[r].members && Behind(w, r, q, p, op);
      BehindIsLower(g, w, r, q, p, op);
      SoloNeverStuck(g, w0, w, r, c, q);
    } else {
      StepsUnlessBehind(g, w0, w, r, c, p);
    }
  }

  // ----- the result -----

  /**
    Whenever a solo run has ended at process p, its table is the initial one with exactly one
    free slot taken: the least common free id c at a participant, the least free one of its own
    at the others.
  */
  lemma SoloTakesLeastCommonFree(g: Config, ws: seq<World>, acts: seq<Action>, r: nat, c: nat, n: nat, p: nat)
    requires SoloRun(g, ws, acts, r, c) && n < |ws| && At(g, ws[n], p, r, Done)
    ensures g.reqs[r].part[p] ==> ws[n][p].ctx[r].cid == c
    ensures var i := ws[n][p].ctx[r].cid;
            && i < |ws[0][p].table| && ws[0][p].table[i].Free? && ws[n][p].table == ws[0][p].table[i := New(r)]
            && (!g.reqs[r].part[p] ==> forall j :: 0 <= j < i ==> !ws[0][p].table[j].Free?)
  {
    var x := ws[n][p].ctx[r];
    SoloRunKeepsInv(g, ws, acts, r, c, n);
    assert HistoryOk(g, ws[n], p, r, x) && SoloProc(g, ws[0], ws[n], p, ws[n][p], r, c);
    SucceededTop(g, ws[0], ws[n], r, c, Round(x));
  }

  /** A run that has made all the steps it can has ended at every member. */
  lemma SoloRunEnds(g: Config, ws: seq<World>, acts: seq<Action>, r: nat, c: nat)
    requires SoloRun(g, ws, acts, r, c) && !CanStep(g, ws[|acts|], r)
    ensures forall p :: p in g.reqs[r].members ==> At(g, ws[|acts|], p, r, Done)
  {
    SoloRunKeepsInv(g, ws, acts, r, c, |acts|);
    forall p | p in g.reqs[r].members
      ensures At(g, ws[|acts|], p, r, Done)
    {
      if !At(g, ws[|acts|], p, r, Done) {
        SoloNeverStuck(g, ws[0], ws[|acts|], r, c, p);
        assert false;
      }
    }
  }
}
