/**
  tm_kPartitioning: a first partition, then single-vertex moves in order of gain, then one
  balancing move.  The state is kept consistent by every move, every move lowers the cut,
  and the sizes of the parts at the end are those of the first partition.
*/
module KPartition {
  import opened Collections
  import opened FiboShape
  import opened KPartModel
  import opened KPartState
  import opened KPartTrace
  import opened QueueMaps

  class Partitioner {
    const n: nat
    const k: nat
    const m: seq<seq<int>>
    var part: seq<int>
    var d: seq<seq<int>>
    var q: seq<map<int, int>>
    var inst: seq<map<int, int>>
    var qpart: map<int, int>
    var deficit: int
    var surplus: int

    ghost function View(): State
      reads this
    {
      State(part, d, q, inst, qpart, deficit, surplus)
    }

    ghost predicate Valid()
      reads this
    {
      Inv(View(), m, n, k) && Keyed(View(), n, k) && n < FIB34 && k < FIB34
    }

    constructor (n: nat, k: nat, m: seq<seq<int>>, part: seq<int>)
      ensures this.n == n && this.k == k && this.m == m && this.part == part
    {
      this.n, this.k, this.m, this.part := n, k, m, part;
    }

    /** initialization: the weights from each vertex into each part. */
    method FillWeights()
      requires Parted(m, n, k, part)
      modifies this`d
      ensures |d| == n && forall i :: 0 <= i < n ==> RowSums(d[i], m[i], part, n, k)
    {
      d := seq(n, _ => seq(k, _ => 0));
      for i := 0 to n
        invariant |d| == n && (forall x :: 0 <= x < i ==> RowSums(d[x], m[x], part, n, k))
        invariant forall x :: i <= x < n ==> d[x] == seq(k, _ => 0)
      {
        for j := 0 to n
          invariant |d| == n && (forall x :: 0 <= x < i ==> RowSums(d[x], m[x], part, n, k))
          invariant forall x :: i < x < n ==> d[x] == seq(k, _ => 0)
          invariant RowSums(d[i], m[i], part, j, k)
        {
          d := d[i := d[i][part[j] := d[i][part[j]] + m[i][j]]];
        }
      }
    }

    /** initialization: every vertex may move to every part. */
    method FillMoves()
      requires |d| == n && (forall i :: 0 <= i < n ==> |d[i]| == k)
      modifies this`inst
      ensures |inst| == n && forall i :: 0 <= i < n ==> AllMoves(inst[i], d[i], k)
    {
      inst := seq(n, _ => map[]);
      for i := 0 to n
        invariant |inst| == n && (forall x :: 0 <= x < i ==> AllMoves(inst[x], d[x], k))
        invariant forall x :: i <= x < n ==> inst[x] == map[]
      {
        for j := 0 to k
          invariant |inst| == n && (forall x :: 0 <= x < i ==> AllMoves(inst[x], d[x], k))
          invariant forall x :: i < x < n ==> inst[x] == map[]
          invariant AllMoves(inst[i], d[i], j)
        {
          var moves := Insert(inst[i], k, j, d[i][j]);
          inst := inst[i := moves];
        }
      }
    }

    /** initialization: the vertices with their gains. */
    method FillQueues()
      requires Parted(m, n, k, part) && |d| == n && |inst| == n && forall i :: 0 <= i < n ==> |d[i]| == k
      requires k < FIB34 && forall i :: 0 <= i < n ==> KeysIn(inst[i], k)
      modifies this`q
      ensures |q| == k && (forall p :: 0 <= p < k ==> Members(q[p], part, n, p))
      ensures forall v :: 0 <= v < n ==> Enters(q[part[v]], inst[v], d[v], part[v], v)
    {
      q := seq(k, _ => map[]);
      for i := 0 to n
        invariant |q| == k && (forall p :: 0 <= p < k ==> Members(q[p], part, i, p))
        invariant forall v :: 0 <= v < i ==> Enters(q[part[v]], inst[v], d[v], part[v], v)
      {
        KeysFit(inst[i], k);
        var best := FindMaxKey(inst[i]);
        ghost var q0 := q;
        assert Members(q0[part[i]], part, i, part[i]);
        var queue := Insert(q[part[i]], n, i, best - d[i][part[i]]);
        q := q[part[i] := queue];
        forall p | 0 <= p < k ensures Members(q[p], part, i + 1, p) {
          assert Members(q0[p], part, i, p);
        }
        forall v | 0 <= v < i + 1 ensures Enters(q[part[v]], inst[v], d[v], part[v], v) {
          if v < i { assert Enters(q0[part[v]], inst[v], d[v], part[v], v); }
        }
      }
    }

    /** initialization: the parts with their best gains. */
    method FillParts()
      requires |q| == k && n < FIB34 && forall p :: 0 <= p < k ==> KeysIn(q[p], n)
      modifies this`qpart
      ensures (forall p :: p in qpart <==> 0 <= p < k) && forall p :: 0 <= p < k ==> qpart[p] == MaxKey(q[p])
    {
      qpart := map[];
      for i := 0 to k
        invariant (forall p :: p in qpart <==> 0 <= p < i) && forall p :: 0 <= p < i ==> qpart[p] == MaxKey(q[p])
      {
        KeysFit(q[i], n);
        var best := FindMaxKey(q[i]);
        qpart := Insert(qpart, k, i, best);
      }
    }

    /** initialization */
    method Initialize()
      requires Symmetric(m, n) && Parted(m, n, k, part) && 0 < k < FIB34 && n < FIB34
      modifies this
      ensures part == old(part) && Valid() && Sized(View(), part, n, k) && Entries(inst) == n * k
      ensures Opening(View(), m, n, k, old(part))
      ensures 0 <= surplus < |q| && (NextGainOf(View()) <= 0 <==> Settled(m, part, n, k))
    {
      hide Symmetric, Inv, Members, Enters, RowSums, Settled, NextGainOf, Keyed, AllFresh, KeysIn;
      FillWeights();
      assert forall i :: 0 <= i < n ==> |d[i]| == k by {
        forall i | 0 <= i < n ensures |d[i]| == k { RowLength(d[i], m[i], part, n, k); }
      }
      FillMoves();
      MovesIn(inst, d, n, k);
      FillQueues();
      assert forall p :: 0 <= p < k ==> KeysIn(q[p], n) by { MembersIn(q, part, n, k); }
      FillParts();
      surplus := 0;
      deficit := 0;
      hide AllMoves;
      FirstInv(View(), m, n, k);
      FirstKeyed(View(), n, k);
      FirstGain(View(), m, n, k);
    }

    /** nextGain */
    method NextGain() returns (res: int)
      requires Valid()
      ensures res == NextGainOf(View())
    {
      InvShape(View(), m, n, k);
      hide Inv, Keyed;
      QueueFits(View(), m, n, k, surplus);
      if deficit == surplus {
        res := FindMaxKey(qpart);
      } else {
        res := FindMaxKey(q[surplus]);
      }
    }

    /** algo, lines up to the choice of the vertex. */
    method TakeVertex() returns (u: nat)
      requires Valid() && NextGainOf(View()) > 0
      modifies this
      ensures Taken(old(View()), View(), n, k, u)
      ensures BestMoves(old(View()), k, u)
    {
      hide Inv, Keyed;
      ghost var s := View();
      InvShape(s, m, n, k);
      QueueFits(s, m, n, k, surplus);
      if deficit == surplus {
        var p, rest := DeleteMax(qpart);
        BestPart(s, m, n, k, p);
        QueueFits(s, m, n, k, p);
        qpart := rest;
        var top, others := DeleteMax(q[p]);
        BestMove(s, m, n, k, p, top);
        u := top;
        q := q[p := others];
        deficit := part[u];
        assert part[u] == p;
      } else {
        var top, others := DeleteMax(q[surplus]);
        BestMove(s, m, n, k, surplus, top);
        u := top;
        q := q[surplus := others];
        qpart := Delete(qpart, part[u]);
      }
    }

    /** algo, first half: the vertex to move and the part it moves to.  The exit for a negative part is never taken. */
    method Pick() returns (u: nat)
      requires Valid() && NextGainOf(View()) > 0
      modifies this
      ensures 0 <= surplus < k && Picked(old(View()), View(), n, k, u, surplus)
    {
      hide Inv, Keyed, Picked;
      ghost var s := View();
      InvShape(s, m, n, k);
      InvRanged(s, m, n, k);
      u := TakeVertex();
      ghost var s1 := View();
      TakenFits(s, s1, n, k, u);
      hide Ranged;
      var key := FindMaxKey(q[part[u]]);
      qpart := Insert(qpart, k, part[u], key);
      var j, moves := DeleteMax(inst[u]);
      assert j >= 0;
      inst := inst[u := moves];
      surplus := j;
      PickedIs(s, s1, n, k, u, j);
      hide Taken, Shaped, BestMoves;
    }

    /** algo, one round of the scan: the weights of v. */
    method ShiftWeight(u: nat, v: nat)
      requires Shaped(View(), n, k) && u < n && v < n && 0 <= surplus < k && surplus != part[u] && u < |m| && v < |m[u]|
      requires KeysIn(inst[v], k)
      modifies this`d, this`inst
      ensures var row := MoveRow(old(d)[v], part[u], surplus, m[u][v]);
              && d == old(d)[v := row]
              && inst == old(inst)[v := Rekey(Rekey(old(inst)[v], part[u], row[part[u]]), surplus, row[surplus])]
              && KeysIn(inst[v], k)
    {
      var j := part[u];
      d := d[v := d[v][j := d[v][j] - m[u][v]]];
      var moves := AdjustKey(inst[v], k, j, d[v][j]);
      inst := inst[v := moves];
      j := surplus;
      d := d[v := d[v][j := d[v][j] + m[u][v]]];
      moves := AdjustKey(inst[v], k, j, d[v][j]);
      inst := inst[v := moves];
    }

    /** algo, one round of the scan. */
    method ScanVertex(u: nat, v: nat)
      requires Shaped(View(), n, k) && u < n && v < n && 0 <= surplus < k && surplus != part[u] && u < |m| && v < |m[u]|
      requires Ranged(View(), n, k) && n < FIB34 && k < FIB34
      modifies this`d, this`q, this`inst, this`qpart
      ensures View() == ScanRow(old(View()), m[u][v], part[u], surplus, v)
    {
      hide MoveRow, Rekey, Ranged, KeysIn;
      RangedAt(View(), n, k, v, part[v]);
      ShiftWeight(u, v);
      KeysFit(inst[v], k);
      var best := FindMaxKey(inst[v]);
      var queue := AdjustKey(q[part[v]], n, v, best - d[v][part[v]]);
      q := q[part[v] := queue];
      KeysFit(queue, n);
      best := FindMaxKey(q[part[v]]);
      qpart := AdjustKey(qpart, k, part[v], best);
    }

    /** algo, the scan over all vertices. */
    method Scan(u: nat)
      requires Symmetric(m, n) && Shaped(View(), n, k) && u < n && 0 <= surplus < k && surplus != part[u]
      requires Scanned(View(), View(), m, n, k, u, part[u], surplus, 0) && Ranged(View(), n, k) && n < FIB34
      requires k < FIB34
      modifies this`d, this`q, this`inst, this`qpart
      ensures Scanned(old(View()), View(), m, n, k, u, part[u], surplus, n)
      ensures Ranged(View(), n, k) && Rekeyed(old(View()), View(), k, n)
    {
      hide InstOk, PartKeys, ScanRow, Current, Ranged;
      ghost var s1 := View();
      assert Rekeyed(s1, s1, k, 0);
      hide Rekeyed;
      for v := 0 to n
        invariant Scanned(s1, View(), m, n, k, u, part[u], surplus, v) && Ranged(View(), n, k)
        invariant Rekeyed(s1, View(), k, v)
      {
        ScanStep(s1, View(), m, n, k, u, part[u], surplus, v);
        ScanRanged(View(), n, k, m[u][v], part[u], surplus, v);
        RekeyedStep(s1, View(), n, k, m[u][v], part[u], surplus, v);
        ScanVertex(u, v);
      }
    }

    /** algo: one move. */
    method Algo() returns (ghost u: nat)
      requires Valid() && NextGainOf(View()) > 0
      modifies this
      ensures Valid() && Moved(old(View()), View(), n, k, u) && qpart[surplus] == Gain(View(), u, surplus)
    {
      hide Inv, Picked, Scanned, Moved, Ranged, Keyed, Rekeyed;
      ghost var s := View();
      InvShape(s, m, n, k);
      InvRanged(s, m, n, k);
      var v := Pick();
      ghost var s1 := View();
      PickedFields(s, s1, n, k, v, surplus);
      PickedScans(s, s1, m, n, k, v, surplus);
      PickedRanged(s, s1, n, k, v, surplus);
      Scan(v);
      ghost var t := View();
      ScannedFields(s1, t, m, n, k, v, part[v], surplus);
      RangedAt(t, n, k, v, surplus);
      Absent(s, s1, t, m, n, k, v, surplus);
      LandKeysInv(s, s1, t, m, n, k, v, surplus);
      LandInv(s, s1, t, m, n, k, v, surplus);
      LandMoves(s, s1, t, m, n, k, v, surplus);
      hide Land, KeysIn;
      Arrive(v);
      u := v;
    }

    /** algo, the end: the vertex arrives. */
    method Arrive(v: nat)
      requires Shaped(View(), n, k) && v < n && 0 <= surplus < k && v !in q[surplus] && k < FIB34
      requires KeysIn(inst[v], k) && KeysIn(q[surplus], n) && KeysIn(qpart, k)
      modifies this`part, this`q, this`qpart
      ensures View() == Land(old(View()), v, surplus)
    {
      part := part[v := surplus];
      KeysFit(inst[v], k);
      var best := FindMaxKey(inst[v]);
      var key := best - d[v][part[v]];
      if inst[v] != map[] {
        var queue := Insert(q[part[v]], n, v, key);
        q := q[part[v] := queue];
      }
      qpart := AdjustKey(qpart, k, part[v], key);
    }

    /** The main loop: at most one move per vertex and part, and any move lowers the cut. */
    method Improve(ghost first: seq<int>) returns (ghost trace: seq<State>)
      requires Valid() && Sized(View(), first, n, k)
      modifies this
      ensures n <= |m| && n <= |part| && (forall r :: 0 <= r < n ==> n <= |m[r]|) && n <= |old(part)|
      ensures Valid() && Sized(View(), first, n, k) && NextGainOf(View()) <= 0 && Exhausted(View(), m, n)
      ensures trace != [] && Steps(trace, m, n, k) && trace[0] == old(View()) && Last(trace) == View()
      ensures |trace| - 1 + Entries(inst) == old(Entries(inst))
      ensures |part| == |old(part)| && part[n..] == old(part[n..])
      ensures |trace| > 1 ==> Cut(m, part, n, n) < Cut(m, old(part), n, n)
      ensures |trace| > 1 <==> old(NextGainOf(View())) > 0
    {
      hide Inv, Sized, Cut, Keyed, Exhausted, Moved, Exact, Gain, Steps, Step;
      trace := [View()];
      OnlyOne(View(), m, n, k);
      InvShape(View(), m, n, k);
      var gain := NextGain();
      while gain > 0
        invariant Valid() && Sized(View(), first, n, k) && Shaped(View(), n, k) && 0 <= surplus < k
        invariant gain == NextGainOf(View())
        invariant trace != [] && trace[0] == old(View()) && Last(trace) == View() && Steps(trace, m, n, k)
        invariant |trace| - 1 + Entries(inst) == old(Entries(inst))
        invariant |part| == |old(part)| && part[n..] == old(part[n..])
        invariant if |trace| == 1 then gain == old(NextGainOf(View())) else old(NextGainOf(View())) > 0
        invariant |trace| > 1 ==> Cut(m, part, n, n) < Cut(m, old(part), n, n)
        decreases Entries(inst)
      {
        ghost var s := View();
        ghost var u := Algo();
        MovedFields(s, View(), n, k, u);
        MoveKeepsSizes(s, View(), first, n, k, u);
        MoveLowersCut(s, View(), m, n, k, u);
        InvShape(View(), m, n, k);
        StepOf(s, View(), m, n, k, u);
        OneMore(trace, View(), m, n, k, u);
        trace := trace + [View()];
        gain := NextGain();
      }
      ExitExhausted(View(), m, n, k);
    }

    /** balancing: one vertex of surplus goes to deficit, the one that gains most. */
    method Balance(ghost first: seq<int>) returns (ghost u: int)
      requires Valid() && Sized(View(), first, n, k)
      modifies this`part
      ensures deficit == surplus ==> part == old(part)
      ensures deficit != surplus ==> 0 <= u < n && BestReturn(old(View()), n, k, u) && part == old(part)[u := deficit]
      ensures |part| == |old(part)| && part[n..] == old(part[n..]) && SameSizes(part, first, n, k)
    {
      hide Queued, PartKeys, Symmetric, Sums;
      u := -1;
      if surplus != deficit {
        assert exists v :: 0 <= v < n && part[v] == surplus by {
          var v := CountFinds(part, 0, n, surplus);
        }
        var moves: map<int, int> := map[];
        for i := 0 to n
          invariant part == old(part)
          invariant forall v :: v in moves <==> 0 <= v < i && part[v] == surplus
          invariant forall v :: v in moves ==> moves[v] == d[v][deficit] - d[v][surplus]
        {
          if part[i] == surplus {
            moves := Insert(moves, n, i, d[i][deficit] - d[i][surplus]);
          }
        }
        KeysFit(moves, n);
        var best, rest := DeleteMax(moves);
        assert forall v :: 0 <= v < n && part[v] == surplus ==> v in moves;
        u := best;
        BalanceSizes(View(), first, n, k, u);
        part := part[best := deficit];
      }
    }

    /**
      tm_kPartitioning after the first partition: the gain loop runs to its end, and then at most
      one vertex is moved, which restores the sizes of all parts.  The loop lowers the cut unless
      the first partition is settled.
    */
    method Run() returns (ghost trace: seq<State>)
      requires Symmetric(m, n) && Parted(m, n, k, part) && 0 < k < FIB34 && n < FIB34
      modifies this
      ensures |part| == |old(part)| && part[n..] == old(part[n..]) && SameSizes(part, old(part), n, k)
      ensures GainRun(trace, m, n, k, old(part)) && View() == Last(trace).(part := part)
      ensures |trace| - 1 + Entries(inst) == n * k && (|trace| == 1 <==> Settled(m, old(part), n, k))
      ensures |trace| > 1 ==> |Last(trace).part| == |part| && Cut(m, Last(trace).part, n, n) < Cut(m, old(part), n, n)
      ensures Rebalanced(m, Last(trace), part, n)
    {
      hide Inv, Sized, Symmetric, SameSizes, Settled, NextGainOf, Cut, BestReturn, Steps, Exhausted, Keyed, Opening,
        Entries, Rebalanced;
      Initialize();
      trace := Improve(old(part));
      ghost var s := View();
      InvShape(s, m, n, k);
      ghost var u := Balance(old(part));
      Restored(s, m, n, k, u, part);
    }
  }
}
