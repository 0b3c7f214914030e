/**
  The state of tm_kPartitioning as a value, and what its main loop keeps: every move keeps
  the sums and queues consistent, lowers the cut and keeps the sizes but for one vertex.
  The key of a part may be stale, but only at the part where the last vertex arrived.
*/
module KPartState {
  import opened Collections
  import opened KPartModel
  import opened QueueMaps

  datatype State = State(part: seq<int>, d: seq<seq<int>>, q: seq<map<int, int>>, inst: seq<map<int, int>>,
                         qpart: map<int, int>, deficit: int, surplus: int)

  /** The gain under which vertex v is queued: its best remaining move. */
  ghost function Gain(s: State, v: nat, p: nat): int
    requires v < |s.inst| && v < |s.d| && p < |s.d[v]|
  {
    MaxKey(s.inst[v]) - s.d[v][p]
  }

  /** The gain that nextGain announces. */
  ghost function NextGainOf(s: State): int
    requires 0 <= s.surplus < |s.q|
  {
    if s.deficit == s.surplus then MaxKey(s.qpart) else MaxKey(s.q[s.surplus])
  }

  ghost predicate Shaped(s: State, n: nat, k: nat) {
    && |s.d| == n && |s.inst| == n && |s.q| == k && n <= |s.part|
    && (forall i :: 0 <= i < n ==> |s.d[i]| == k && 0 <= s.part[i] < k)
  }

  /** The keys of inst are entries of the matching row of d. */
  ghost predicate InstOk(inst: map<int, int>, row: seq<int>) {
    forall j :: j in inst ==> 0 <= j < |row| && inst[j] == row[j]
  }

  /** A part's key may be stale, but a positive key never exceeds the best gain in the part. */
  ghost predicate PartKeyOk(q: map<int, int>, key: int) {
    key <= 0 || key <= MaxKey(q)
  }

  ghost predicate PartKeys(s: State, k: nat)
    requires |s.q| == k
  {
    && (forall p :: p in s.qpart <==> 0 <= p < k)
    && (forall p :: 0 <= p < k ==> PartKeyOk(s.q[p], s.qpart[p]))
  }

  /** The queue of part p holds vertices of that part. */
  ghost predicate Members(q: map<int, int>, part: seq<int>, n: nat, p: int)
    requires n <= |part|
  {
    forall v :: v in q ==> 0 <= v < n && part[v] == p
  }

  /** If v is queued, then with its current gain. */
  ghost predicate Current(s: State, v: nat)
    requires v < |s.inst| && v < |s.d| && v < |s.part| && 0 <= s.part[v] < |s.d[v]| && s.part[v] < |s.q|
  {
    v in s.q[s.part[v]] ==> s.q[s.part[v]][v] == Gain(s, v, s.part[v])
  }

  /** v is queued exactly when it has a move left. */
  ghost predicate Waits(s: State, v: nat)
    requires v < |s.inst| && v < |s.part| && 0 <= s.part[v] < |s.q|
  {
    v in s.q[s.part[v]] <==> s.inst[v] != map[]
  }

  ghost predicate Queued(s: State, n: nat, k: nat)
    requires Shaped(s, n, k)
  {
    && (forall p :: 0 <= p < k ==> Members(s.q[p], s.part, n, p))
    && (forall v :: 0 <= v < n ==> InstOk(s.inst[v], s.d[v]))
    && (forall v :: 0 <= v < n ==> Current(s, v))
    && (forall v :: 0 <= v < n ==> Waits(s, v))
  }

  /** d holds the weights from each vertex into each part. */
  ghost predicate Sums(s: State, m: seq<seq<int>>, n: nat, k: nat)
    requires Shaped(s, n, k) && Symmetric(m, n)
  {
    forall i, p :: 0 <= i < n && 0 <= p < k ==> s.d[i][p] == Into(m[i], s.part, n, p)
  }

  ghost predicate Inv(s: State, m: seq<seq<int>>, n: nat, k: nat) {
    && Symmetric(m, n) && Shaped(s, n, k) && 0 <= s.deficit < k && 0 <= s.surplus < k
    && Sums(s, m, n, k) && Queued(s, n, k) && PartKeys(s, k)
  }

  /** The sizes are those of `first`, but for one vertex too many in surplus and one too few in deficit. */
  ghost predicate Sized(s: State, first: seq<int>, n: nat, k: nat) {
    && n <= |s.part| && n <= |first|
    && forall p :: 0 <= p < k ==>
         Count(s.part, 0, n, p) == Count(first, 0, n, p)
           + (if p == s.surplus then 1 else 0) - (if p == s.deficit then 1 else 0)
  }

  /** Moves that have not been made: every move uses one up. */
  ghost function Entries(inst: seq<map<int, int>>): nat {
    if inst == [] then 0 else Entries(inst[..|inst|-1]) + |inst[|inst|-1]|
  }

  /** All values of the queues are vertices or parts, so that the queues have no more elements than those. */
  ghost predicate Ranged(s: State, n: nat, k: nat) {
    && |s.inst| == n && |s.q| == k && KeysIn(s.qpart, k)
    && (forall i :: 0 <= i < n ==> KeysIn(s.inst[i], k)) && (forall p :: 0 <= p < k ==> KeysIn(s.q[p], n))
  }

  lemma InvRanged(s: State, m: seq<seq<int>>, n: nat, k: nat)
    requires Inv(s, m, n, k)
    ensures Ranged(s, n, k)
  {
    hide Sums;
    forall i | 0 <= i < n ensures KeysIn(s.inst[i], k) {
      assert InstOk(s.inst[i], s.d[i]);
    }
    forall p | 0 <= p < k ensures KeysIn(s.q[p], n) {
      assert Members(s.q[p], s.part, n, p);
    }
  }

  lemma RangedAt(s: State, n: nat, k: nat, v: int, p: int)
    requires Ranged(s, n, k) && 0 <= v < n && 0 <= p < k
    ensures KeysIn(s.inst[v], k) && KeysIn(s.q[p], n) && KeysIn(s.qpart, k)
  {
  }

  lemma QueueFits(s: State, m: seq<seq<int>>, n: nat, k: nat, p: int)
    requires Inv(s, m, n, k) && 0 <= p < k
    ensures |s.qpart| <= k && |s.q[p]| <= n && p in s.qpart
  {
    InvRanged(s, m, n, k);
    KeysFit(s.qpart, k);
    KeysFit(s.q[p], n);
  }

  // ----- the first state -----

  /** A matrix for n vertices, and a vector that puts each of them into one of k parts. */
  ghost predicate Parted(m: seq<seq<int>>, n: nat, k: nat, part: seq<int>) {
    n <= |m| && n <= |part| && forall i :: 0 <= i < n ==> n <= |m[i]| && 0 <= part[i] < k
  }

  ghost predicate RowSums(row: seq<int>, weights: seq<int>, part: seq<int>, n: nat, k: nat)
    requires n <= |weights| && n <= |part|
  {
    |row| == k && forall p :: 0 <= p < k ==> row[p] == Into(weights, part, n, p)
  }

  ghost predicate AllMoves(inst: map<int, int>, row: seq<int>, k: nat)
    requires k <= |row|
  {
    (forall j :: j in inst <==> 0 <= j < k) && forall j :: 0 <= j < k ==> inst[j] == row[j]
  }

  /** v enters its queue with its gain. */
  ghost predicate Enters(q: map<int, int>, inst: map<int, int>, row: seq<int>, p: int, v: int)
    requires 0 <= p < |row|
  {
    v in q && q[v] == MaxKey(inst) - row[p]
  }

  lemma RowLength(row: seq<int>, weights: seq<int>, part: seq<int>, n: nat, k: nat)
    requires n <= |weights| && n <= |part| && RowSums(row, weights, part, n, k)
    ensures |row| == k
  {
  }

  lemma FirstSums(s: State, m: seq<seq<int>>, n: nat, k: nat)
    requires Symmetric(m, n) && Shaped(s, n, k) && forall i :: 0 <= i < n ==> RowSums(s.d[i], m[i], s.part, n, k)
    ensures Sums(s, m, n, k)
  {
    forall i, p | 0 <= i < n && 0 <= p < k ensures s.d[i][p] == Into(m[i], s.part, n, p) {
      assert RowSums(s.d[i], m[i], s.part, n, k);
    }
  }

  lemma FirstVertex(s: State, n: nat, k: nat, v: nat)
    requires Shaped(s, n, k) && v < n && 0 < k && AllMoves(s.inst[v], s.d[v], k)
    requires Enters(s.q[s.part[v]], s.inst[v], s.d[v], s.part[v], v)
    ensures InstOk(s.inst[v], s.d[v]) && Current(s, v) && Waits(s, v) && |s.inst[v]| == k
  {
    assert 0 in s.inst[v];
    FullSize(s.inst[v].Keys, k);
  }

  lemma FirstInv(s: State, m: seq<seq<int>>, n: nat, k: nat)
    requires Symmetric(m, n) && Parted(m, n, k, s.part) && Shaped(s, n, k) && s.deficit == s.surplus == 0 < k
    requires forall i :: 0 <= i < n ==> RowSums(s.d[i], m[i], s.part, n, k)
    requires forall i :: 0 <= i < n ==> AllMoves(s.inst[i], s.d[i], k)
    requires forall p :: 0 <= p < k ==> Members(s.q[p], s.part, n, p)
    requires forall v :: 0 <= v < n ==> Enters(s.q[s.part[v]], s.inst[v], s.d[v], s.part[v], v)
    requires (forall p :: p in s.qpart <==> 0 <= p < k) && forall p :: 0 <= p < k ==> s.qpart[p] == MaxKey(s.q[p])
    ensures Inv(s, m, n, k) && Entries(s.inst) == n * k
  {
    hide Sums, RowSums, Symmetric, Members, InstOk, Current, Waits, AllMoves, Enters, Entries;
    FirstSums(s, m, n, k);
    forall v | 0 <= v < n ensures InstOk(s.inst[v], s.d[v]) && Current(s, v) && Waits(s, v) && |s.inst[v]| == k {
      FirstVertex(s, n, k, v);
    }
    AllEntries(s.inst, k);
  }

  /** A vertex of part p with these weights is tied to no other part more. */
  ghost predicate Content(weights: seq<int>, part: seq<int>, n: nat, k: nat, p: int)
    requires n <= |weights| && n <= |part|
  {
    forall j :: 0 <= j < k ==> Into(weights, part, n, j) <= Into(weights, part, n, p)
  }

  ghost predicate Settled(m: seq<seq<int>>, part: seq<int>, n: nat, k: nat) {
    Parted(m, n, k, part) && forall v :: 0 <= v < n ==> Content(m[v], part, n, k, part[v])
  }

  /** The gain under which v enters is positive exactly when v is tied more to another part. */
  lemma FirstKey(q: map<int, int>, inst: map<int, int>, row: seq<int>, weights: seq<int>, part: seq<int>, n: nat,
                 k: nat, p: int, v: int)
    requires n <= |weights| && n <= |part| && RowSums(row, weights, part, n, k)
    requires 0 <= p < k && AllMoves(inst, row, k) && Enters(q, inst, row, p, v)
    ensures q[v] <= 0 <==> Content(weights, part, n, k, p)
  {
    assert p in inst;
  }

  lemma FirstKeys(s: State, m: seq<seq<int>>, n: nat, k: nat, v: nat)
    requires Parted(m, n, k, s.part) && Shaped(s, n, k) && v < n
    requires RowSums(s.d[v], m[v], s.part, n, k) && AllMoves(s.inst[v], s.d[v], k)
    requires Enters(s.q[s.part[v]], s.inst[v], s.d[v], s.part[v], v)
    ensures v in s.q[s.part[v]] && (s.q[s.part[v]][v] <= 0 <==> Content(m[v], s.part, n, k, s.part[v]))
  {
    FirstKey(s.q[s.part[v]], s.inst[v], s.d[v], m[v], s.part, n, k, s.part[v], v);
  }

  /** The best gain is that of a queued vertex. */
  lemma BestOfKeys(s: State, n: nat, k: nat)
    requires Shaped(s, n, k) && s.deficit == s.surplus && 0 <= s.surplus < k
    requires forall p :: 0 <= p < k ==> Members(s.q[p], s.part, n, p)
    requires (forall p :: p in s.qpart <==> 0 <= p < k) && forall p :: 0 <= p < k ==> s.qpart[p] == MaxKey(s.q[p])
    requires forall v :: 0 <= v < n ==> v in s.q[s.part[v]]
    ensures NextGainOf(s) <= 0 <==> forall v :: 0 <= v < n ==> s.q[s.part[v]][v] <= 0
  {
    if NextGainOf(s) > 0 {
      var p :| p in s.qpart && s.qpart[p] == MaxKey(s.qpart);
      assert Members(s.q[p], s.part, n, p);
      var v :| v in s.q[p] && s.q[p][v] == MaxKey(s.q[p]);
      assert s.q[s.part[v]][v] > 0;
    } else {
      forall v | 0 <= v < n ensures s.q[s.part[v]][v] <= 0 {
        assert s.part[v] in s.qpart;
      }
    }
  }

  /**
    Before the first move, the best gain is positive exactly when some vertex is tied more to
    another part than to its own.
  */
  lemma FirstGain(s: State, m: seq<seq<int>>, n: nat, k: nat)
    requires Parted(m, n, k, s.part) && Shaped(s, n, k) && s.deficit == s.surplus && 0 <= s.surplus < k
    requires forall i :: 0 <= i < n ==> RowSums(s.d[i], m[i], s.part, n, k)
    requires forall i :: 0 <= i < n ==> AllMoves(s.inst[i], s.d[i], k)
    requires forall p :: 0 <= p < k ==> Members(s.q[p], s.part, n, p)
    requires forall v :: 0 <= v < n ==> Enters(s.q[s.part[v]], s.inst[v], s.d[v], s.part[v], v)
    requires (forall p :: p in s.qpart <==> 0 <= p < k) && forall p :: 0 <= p < k ==> s.qpart[p] == MaxKey(s.q[p])
    ensures NextGainOf(s) <= 0 <==> Settled(m, s.part, n, k)
  {
    hide RowSums, AllMoves, Members, Enters, Content;
    forall v | 0 <= v < n ensures v in s.q[s.part[v]]
      && (s.q[s.part[v]][v] <= 0 <==> Content(m[v], s.part, n, k, s.part[v])) {
      FirstKeys(s, m, n, k, v);
    }
    BestOfKeys(s, n, k);
  }

  /** Every vertex may move to every part, and all keys are exact. */
  ghost predicate AllFresh(s: State, n: nat, k: nat) {
    && |s.inst| == n && (forall i, j :: 0 <= i < n ==> (j in s.inst[i] <==> 0 <= j < k))
    && forall p :: 0 <= p < k ==> Exact(s, p)
  }

  lemma FirstKeyed(s: State, n: nat, k: nat)
    requires Shaped(s, n, k) && forall i :: 0 <= i < n ==> AllMoves(s.inst[i], s.d[i], k)
    requires (forall p :: p in s.qpart <==> 0 <= p < k) && forall p :: 0 <= p < k ==> s.qpart[p] == MaxKey(s.q[p])
    ensures AllFresh(s, n, k) && Keyed(s, n, k)
  {
    forall i, j | 0 <= i < n ensures j in s.inst[i] <==> 0 <= j < k {
      assert AllMoves(s.inst[i], s.d[i], k);
    }
  }

  lemma MovesIn(inst: seq<map<int, int>>, d: seq<seq<int>>, n: nat, k: nat)
    requires |inst| == |d| == n && forall i :: 0 <= i < n ==> |d[i]| == k && AllMoves(inst[i], d[i], k)
    ensures forall i :: 0 <= i < n ==> KeysIn(inst[i], k)
  {
    forall i | 0 <= i < n ensures KeysIn(inst[i], k) {
      assert AllMoves(inst[i], d[i], k);
    }
  }

  lemma MembersIn(q: seq<map<int, int>>, part: seq<int>, n: nat, k: nat)
    requires |q| == k && n <= |part| && forall p :: 0 <= p < k ==> Members(q[p], part, n, p)
    ensures forall p :: 0 <= p < k ==> KeysIn(q[p], n)
  {
    forall p | 0 <= p < k ensures KeysIn(q[p], n) {
      assert Members(q[p], part, n, p);
    }
  }

  lemma {:induction false} FullSize(s: set<int>, k: nat)
    requires forall j :: j in s <==> 0 <= j < k
    ensures |s| == k
  {
    if k == 0 {
      if s != {} {
        var x := Pick(s);
        assert false;
      }
    } else {
      FullSize(s - {k - 1}, k - 1);
    }
  }

  lemma {:induction false} AllEntries(inst: seq<map<int, int>>, k: nat)
    requires forall i :: 0 <= i < |inst| ==> |inst[i]| == k
    ensures Entries(inst) == |inst| * k
  {
    if inst != [] {
      AllEntries(inst[..|inst|-1], k);
    }
  }

  // ----- one move -----

  /** A row of d once the weight w has gone from part p to part j. */
  function MoveRow(row: seq<int>, p: nat, j: nat, w: int): (r: seq<int>)
    requires p < |row| && j < |row|
    ensures |r| == |row|
  {
    var r := row[p := row[p] - w];
    r[j := r[j] + w]
  }

  /** Vertex u is one that algo takes next: the best of its part, which is surplus or has the best key of all parts. */
  ghost predicate NextUp(s: State, n: nat, k: nat, u: nat)
    requires Shaped(s, n, k)
  {
    && u < n && u in s.q[s.part[u]] && s.q[s.part[u]][u] == MaxKey(s.q[s.part[u]])
    && (if s.deficit == s.surplus then s.part[u] in s.qpart && s.qpart[s.part[u]] == MaxKey(s.qpart)
        else s.part[u] == s.surplus)
  }

  /** Vertex u has been taken from the queue of its part. */
  ghost predicate Taken(s: State, s1: State, n: nat, k: nat, u: nat) {
    && Shaped(s, n, k) && NextUp(s, n, k, u) && s1.part == s.part && s1.d == s.d && s1.inst == s.inst
    && s1.q == s.q[s.part[u] := s.q[s.part[u]] - {u}] && s1.qpart == s.qpart - {s.part[u]} && s1.surplus == s.surplus
    && (if s.deficit == s.surplus then s1.deficit == s.part[u] else s.part[u] == s.surplus && s1.deficit == s.deficit)
  }

  /** Each best move of u leaves its part and gains at least what was announced. */
  ghost predicate BestMoves(s: State, k: nat, u: nat)
    requires u < |s.part| && u < |s.d| && |s.d[u]| == |s.q| == k && u < |s.inst| && 0 <= s.part[u] < k
    requires 0 <= s.surplus < k
  {
    && s.inst[u] != map[]
    && forall j :: j in s.inst[u] && s.inst[u][j] == MaxKey(s.inst[u]) ==>
         0 <= j < k && j != s.part[u] && s.d[u][j] == MaxKey(s.inst[u])
         && s.d[u][j] - s.d[u][s.part[u]] >= NextGainOf(s)
  }

  /** Vertex u has been taken from the queue of its part, and its move to j from its own queue. */
  ghost predicate Picked(s: State, s1: State, n: nat, k: nat, u: nat, j: nat) {
    && Shaped(s, n, k) && 0 <= s.surplus < k && u < n && j < k && j in s.inst[u] && j != s.part[u]
    && NextUp(s, n, k, u)
    && s.d[u][j] == MaxKey(s.inst[u]) && s.d[u][j] - s.d[u][s.part[u]] >= NextGainOf(s)
    && s1.part == s.part && s1.d == s.d && s1.inst == s.inst[u := s.inst[u] - {j}]
    && s1.q == s.q[s.part[u] := s.q[s.part[u]] - {u}] && s1.surplus == j
    && s1.qpart == s.qpart[s.part[u] := MaxKey(s1.q[s.part[u]])]
    && (if s.deficit == s.surplus then s1.deficit == s.part[u] else s.part[u] == s.surplus && s1.deficit == s.deficit)
  }

  lemma PickedIs(s: State, s1: State, n: nat, k: nat, u: nat, j: int)
    requires Taken(s, s1, n, k, u) && 0 <= s.surplus < k && BestMoves(s, k, u) && j in s.inst[u]
    requires s.inst[u][j] == MaxKey(s.inst[u])
    ensures 0 <= j < k
    ensures Picked(s, s1.(qpart := s1.qpart[s1.part[u] := MaxKey(s1.q[s1.part[u]])], inst :=
              s1.inst[u := s1.inst[u] - {j}], surplus := j),
                   n, k, u, j)
  {
  }

  /** The vertices below v have seen the move of u from p to j. */
  ghost predicate Scanned(s1: State, s: State, m: seq<seq<int>>, n: nat, k: nat, u: nat, p: nat, j: nat, v: nat)
    requires Symmetric(m, n) && Shaped(s1, n, k) && u < n && p < k && j < k
  {
    && Shaped(s, n, k) && s.part == s1.part && s.deficit == s1.deficit && s.surplus == s1.surplus
    && (forall i :: 0 <= i < n ==> s.d[i] == if i < v then MoveRow(s1.d[i], p, j, m[u][i]) else s1.d[i])
    && (forall i :: 0 <= i < n ==> s.inst[i].Keys == s1.inst[i].Keys)
    && (forall i :: 0 <= i < n ==> InstOk(s.inst[i], s.d[i]))
    && (forall x :: 0 <= x < k ==> s.q[x].Keys == s1.q[x].Keys)
    && (forall w :: 0 <= w < v && w < n ==> Current(s, w))
    && PartKeys(s, k)
  }

  lemma InvShape(s: State, m: seq<seq<int>>, n: nat, k: nat)
    requires Inv(s, m, n, k)
    ensures Shaped(s, n, k) && 0 <= s.deficit < k && 0 <= s.surplus < k && Symmetric(m, n)
    ensures forall p :: p in s.qpart <==> 0 <= p < k
  {
  }

  /** The best vertex of a queue with a positive key gains that much by its best move, which leaves its part. */
  lemma BestMove(s: State, m: seq<seq<int>>, n: nat, k: nat, p: nat, u: int)
    requires Inv(s, m, n, k) && p < k && u in s.q[p] && s.q[p][u] == MaxKey(s.q[p]) > 0
    ensures 0 <= u < n && s.part[u] == p && s.inst[u] != map[]
    ensures forall j :: j in s.inst[u] && s.inst[u][j] == MaxKey(s.inst[u]) ==>
              0 <= j < k && j != p && s.d[u][j] == MaxKey(s.inst[u]) && s.d[u][j] - s.d[u][p] == MaxKey(s.q[p])
  {
    assert Members(s.q[p], s.part, n, p);
    assert InstOk(s.inst[u], s.d[u]) && Current(s, u) && Waits(s, u);
  }

  /** The best part has a vertex that gains at least the part's key. */
  lemma BestPart(s: State, m: seq<seq<int>>, n: nat, k: nat, p: int)
    requires Inv(s, m, n, k) && p in s.qpart && s.qpart[p] == MaxKey(s.qpart) > 0
    ensures 0 <= p < k && s.q[p] != map[] && MaxKey(s.q[p]) >= s.qpart[p]
  {
    assert PartKeyOk(s.q[p], s.qpart[p]);
  }

  /** One round of the scan. */
  ghost function ScanRow(s: State, w: int, p: nat, j: nat, v: nat): State
    requires v < |s.d| && v < |s.inst| && v < |s.part| && p < |s.d[v]| && j < |s.d[v]| && p != j
    requires 0 <= s.part[v] < |s.q| && s.part[v] < |s.d[v]|
  {
    var row := MoveRow(s.d[v], p, j, w);
    var inst := Rekey(Rekey(s.inst[v], p, row[p]), j, row[j]);
    var x := s.part[v];
    var q := Rekey(s.q[x], v, MaxKey(inst) - row[x]);
    s.(d := s.d[v := row], inst := s.inst[v := inst], q := s.q[x := q], qpart := Rekey(s.qpart, x, MaxKey(q)))
  }

  /** Which entries a round of the scan changes. */
  lemma ScanFields(s: State, n: nat, k: nat, w: int, p: nat, j: nat, v: nat)
    requires Shaped(s, n, k) && p < k && j < k && p != j && v < n
    ensures var t := ScanRow(s, w, p, j, v);
            && Shaped(t, n, k) && t.part == s.part && t.deficit == s.deficit && t.surplus == s.surplus
            && t.d[v] == MoveRow(s.d[v], p, j, w) && t.inst[v].Keys == s.inst[v].Keys
            && (forall i :: 0 <= i < n && i != v ==> t.d[i] == s.d[i] && t.inst[i] == s.inst[i])
            && (forall x :: 0 <= x < k && x != s.part[v] ==> t.q[x] == s.q[x])
            && t.q[s.part[v]] == Rekey(s.q[s.part[v]], v, Gain(t, v, s.part[v]))
            && t.q[s.part[v]].Keys == s.q[s.part[v]].Keys
            && t.qpart == Rekey(s.qpart, s.part[v], MaxKey(t.q[s.part[v]]))
  {
  }

  lemma ScanRanged(s: State, n: nat, k: nat, w: int, p: nat, j: nat, v: nat)
    requires Shaped(s, n, k) && p < k && j < k && p != j && v < n && Ranged(s, n, k)
    ensures Ranged(ScanRow(s, w, p, j, v), n, k)
  {
    ScanFields(s, n, k, w, p, j, v);
    var t := ScanRow(s, w, p, j, v);
    hide ScanRow, MoveRow, Rekey;
    forall i | 0 <= i < n ensures KeysIn(t.inst[i], k) {
      assert KeysIn(s.inst[i], k) && t.inst[i].Keys == s.inst[i].Keys;
    }
    forall x | 0 <= x < k ensures KeysIn(t.q[x], n) {
      assert KeysIn(s.q[x], n) && t.q[x].Keys == s.q[x].Keys;
    }
    assert KeysIn(t.qpart, k) by { RekeyIn(s.qpart, s.part[v], MaxKey(t.q[s.part[v]]), k); }
  }

  lemma RekeyIn(m: map<int, int>, v: int, key: int, size: nat)
    requires KeysIn(m, size)
    ensures KeysIn(Rekey(m, v, key), size)
  {
  }

  lemma PickedRanged(s: State, s1: State, n: nat, k: nat, u: nat, j: nat)
    requires Ranged(s, n, k) && Picked(s, s1, n, k, u, j)
    ensures Ranged(s1, n, k)
  {
    forall i | 0 <= i < n ensures KeysIn(s1.inst[i], k) {
      assert KeysIn(s.inst[i], k);
    }
    forall x | 0 <= x < k ensures KeysIn(s1.q[x], n) {
      assert KeysIn(s.q[x], n);
    }
  }

  lemma ScanInst(s: State, n: nat, k: nat, w: int, p: nat, j: nat, v: nat)
    requires Shaped(s, n, k) && p < k && j < k && p != j && v < n && InstOk(s.inst[v], s.d[v])
    ensures InstOk(ScanRow(s, w, p, j, v).inst[v], ScanRow(s, w, p, j, v).d[v])
  {
  }

  lemma ScanPartKeys(s: State, n: nat, k: nat, w: int, p: nat, j: nat, v: nat)
    requires Shaped(s, n, k) && p < k && j < k && p != j && v < n && PartKeys(s, k)
    ensures PartKeys(ScanRow(s, w, p, j, v), k)
  {
    ScanFields(s, n, k, w, p, j, v);
    hide ScanRow, MoveRow;
  }

  lemma ScanCurrent(s: State, n: nat, k: nat, w: int, p: nat, j: nat, v: nat, i: nat)
    requires Shaped(s, n, k) && p < k && j < k && p != j && v < n && i <= v && (i < v ==> Current(s, i))
    ensures Shaped(ScanRow(s, w, p, j, v), n, k) && Current(ScanRow(s, w, p, j, v), i)
  {
    ScanFields(s, n, k, w, p, j, v);
    hide ScanRow, MoveRow;
  }

  lemma ScanStep(s1: State, s: State, m: seq<seq<int>>, n: nat, k: nat, u: nat, p: nat, j: nat, v: nat)
    requires Symmetric(m, n) && Shaped(s1, n, k) && u < n && p < k && j < k && p != j && v < n
    requires Scanned(s1, s, m, n, k, u, p, j, v)
    ensures Scanned(s1, ScanRow(s, m[u][v], p, j, v), m, n, k, u, p, j, v + 1)
  {
    var w := m[u][v];
    ScanFields(s, n, k, w, p, j, v);
    ScanInst(s, n, k, w, p, j, v);
    ScanPartKeys(s, n, k, w, p, j, v);
    hide ScanRow, MoveRow, InstOk, PartKeys, Symmetric, Current;
    var t := ScanRow(s, w, p, j, v);
    forall i | 0 <= i < v + 1 ensures Current(t, i) {
      ScanCurrent(s, n, k, w, p, j, v, i);
    }
  }

  // ----- the vertex arrives -----

  /** The end of algo: u joins part j with its best remaining move. */
  ghost function Land(s: State, u: nat, j: nat): State
    requires u < |s.part| && u < |s.d| && u < |s.inst| && j < |s.d[u]| && j < |s.q|
  {
    var key := MaxKey(s.inst[u]) - s.d[u][j];
    var q := if s.inst[u] != map[] then s.q[j := s.q[j][u := key]] else s.q;
    s.(part := s.part[u := j], q := q, qpart := Rekey(s.qpart, j, key))
  }

  lemma PickedScans(s: State, s1: State, m: seq<seq<int>>, n: nat, k: nat, u: nat, j: nat)
    requires Inv(s, m, n, k) && Picked(s, s1, n, k, u, j)
    ensures Shaped(s1, n, k) && Scanned(s1, s1, m, n, k, u, s.part[u], j, 0)
  {
    hide Sums, Symmetric, Current, Waits, Members;
    assert InstOk(s1.inst[u], s1.d[u]) by { assert InstOk(s.inst[u], s.d[u]); }
    hide InstOk;
    forall i | 0 <= i < n ensures InstOk(s1.inst[i], s1.d[i]) {
      if i != u { assert InstOk(s.inst[i], s.d[i]); }
    }
  }

  lemma LandSums(s: State, t: State, m: seq<seq<int>>, n: nat, k: nat, u: nat, j: nat)
    requires Symmetric(m, n) && Shaped(s, n, k) && Shaped(t, n, k) && u < n && j < k && j != s.part[u]
    requires Sums(s, m, n, k)
    requires t.part == s.part[u := j] && forall i :: 0 <= i < n ==> t.d[i] == MoveRow(s.d[i], s.part[u], j, m[u][i])
    ensures Sums(t, m, n, k)
  {
    forall i, p | 0 <= i < n && 0 <= p < k ensures t.d[i][p] == Into(m[i], t.part, n, p) {
      IntoMove(m[i], s.part, n, u, j, p);
      assert m[i][u] == m[u][i];
      assert t.d[i] == MoveRow(s.d[i], s.part[u], j, m[u][i]);
    }
  }

  /** Everything but the sums, for the state t after the scan and the state s before the move. */
  ghost predicate Landing(s: State, t: State, n: nat, k: nat, u: nat, j: nat) {
    && Shaped(s, n, k) && Shaped(t, n, k) && u < n && j < k && j != s.part[u] && t.part == s.part && Queued(s, n, k)
    && (forall x :: 0 <= x < k ==> t.q[x].Keys == if x == s.part[u] then s.q[x].Keys - {u} else s.q[x].Keys)
    && (forall i :: 0 <= i < n && i != u ==> t.inst[i].Keys == s.inst[i].Keys)
    && (forall i :: 0 <= i < n ==> InstOk(t.inst[i], t.d[i]))
    && (forall w :: 0 <= w < n ==> Current(t, w))
  }

  /** u is in no queue while it moves. */
  lemma NotQueued(s: State, t: State, n: nat, k: nat, u: nat, j: nat, x: nat)
    requires Landing(s, t, n, k, u, j) && x < k
    ensures u !in t.q[x]
  {
    assert Members(s.q[x], s.part, n, x);
  }

  lemma LandFields(t: State, n: nat, k: nat, u: nat, j: nat)
    requires Shaped(t, n, k) && u < n && j < k
    ensures var t' := Land(t, u, j);
            && Shaped(t', n, k) && t'.part == t.part[u := j] && t'.d == t.d && t'.inst == t.inst
            && t'.deficit == t.deficit && t'.surplus == t.surplus
            && (forall x :: 0 <= x < k && x != j ==> t'.q[x] == t.q[x])
            && t'.q[j] == (if t.inst[u] != map[] then t.q[j][u := Gain(t, u, j)] else t.q[j])
            && t'.qpart == Rekey(t.qpart, j, Gain(t, u, j))
  {
  }

  lemma LandMembers(s: State, t: State, n: nat, k: nat, u: nat, j: nat, x: nat)
    requires Landing(s, t, n, k, u, j) && x < k
    ensures Members(Land(t, u, j).q[x], Land(t, u, j).part, n, x)
  {
    LandFields(t, n, k, u, j);
    NotQueued(s, t, n, k, u, j, x);
    assert Members(s.q[x], s.part, n, x);
  }

  lemma LandVertex(s: State, t: State, n: nat, k: nat, u: nat, j: nat, v: nat)
    requires Landing(s, t, n, k, u, j) && v < n
    ensures Shaped(Land(t, u, j), n, k) && Current(Land(t, u, j), v) && Waits(Land(t, u, j), v)
  {
    LandFields(t, n, k, u, j);
    NotQueued(s, t, n, k, u, j, j);
    hide Land;
    if v != u {
      assert Waits(s, v) && Current(t, v);
      assert t.inst[v] == map[] <==> t.inst[v].Keys == {};
      assert s.inst[v] == map[] <==> s.inst[v].Keys == {};
    }
  }

  lemma LandQueued(s: State, t: State, n: nat, k: nat, u: nat, j: nat)
    requires Landing(s, t, n, k, u, j)
    ensures Shaped(Land(t, u, j), n, k) && Queued(Land(t, u, j), n, k)
  {
    LandFields(t, n, k, u, j);
    hide Current, Waits, Members, InstOk;
    var t' := Land(t, u, j);
    forall x | 0 <= x < k ensures Members(t'.q[x], t'.part, n, x) {
      LandMembers(s, t, n, k, u, j, x);
    }
    forall v | 0 <= v < n ensures Current(t', v) && Waits(t', v) {
      LandVertex(s, t, n, k, u, j, v);
    }
  }

  /** The key that the part of arrival gets is the gain of u itself: at most the best gain there, or not positive. */
  lemma LandPartKeys(t: State, n: nat, k: nat, u: nat, j: nat)
    requires Shaped(t, n, k) && u < n && j < k && PartKeys(t, k) && t.d[u][j] >= 0
    ensures PartKeys(Land(t, u, j), k)
  {
    LandFields(t, n, k, u, j);
    var t' := Land(t, u, j);
    hide Land;
    forall x | 0 <= x < k ensures PartKeyOk(t'.q[x], t'.qpart[x]) {
      assert PartKeyOk(t.q[x], t.qpart[x]);
      if x == j && t.inst[u] != map[] { assert t'.q[x][u] == t'.qpart[x]; }
    }
  }

  lemma ScannedLands(s: State, s1: State, t: State, m: seq<seq<int>>, n: nat, k: nat, u: nat, j: nat)
    requires Inv(s, m, n, k) && Picked(s, s1, n, k, u, j) && Shaped(s1, n, k)
    requires Scanned(s1, t, m, n, k, u, s.part[u], j, n)
    ensures Landing(s, t, n, k, u, j)
  {
    hide Sums, Symmetric, Queued, Current, InstOk, PartKeys;
  }

  lemma LandInv(s: State, s1: State, t: State, m: seq<seq<int>>, n: nat, k: nat, u: nat, j: nat)
    requires Inv(s, m, n, k) && Picked(s, s1, n, k, u, j) && Shaped(s1, n, k)
    requires Scanned(s1, t, m, n, k, u, s.part[u], j, n)
    ensures Inv(Land(t, u, j), m, n, k)
  {
    var t' := Land(t, u, j);
    LandFields(t, n, k, u, j);
    ScannedLands(s, s1, t, m, n, k, u, j);
    hide Land, Queued, Current, InstOk, PartKeys, Symmetric, Landing;
    LandQueued(s, t, n, k, u, j);
    LandSums(s, t', m, n, k, u, j);
    assert t.d[u][j] >= 0 by {
      SumsNonNegative(t', m, n, k, u, j);
    }
    LandPartKeys(t, n, k, u, j);
  }

  lemma SumsNonNegative(s: State, m: seq<seq<int>>, n: nat, k: nat, i: nat, p: nat)
    requires Symmetric(m, n) && Shaped(s, n, k) && Sums(s, m, n, k) && i < n && p < k
    ensures s.d[i][p] >= 0
  {
    forall j | 0 <= j < n ensures m[i][j] >= 0 {
      assert m[i][j] == m[j][i];
    }
    IntoNonNegative(m[i], s.part, n, p);
  }

  lemma {:induction false} EntriesTake(a: seq<map<int, int>>, b: seq<map<int, int>>, u: nat)
    requires |a| == |b| && u < |a| && |b[u]| == |a[u]| - 1 && forall i :: 0 <= i < |a| && i != u ==> |b[i]| == |a[i]|
    ensures Entries(b) == Entries(a) - 1
  {
    var l := |a| - 1;
    if u == l {
      EntriesSame(a[..l], b[..l]);
    } else {
      EntriesTake(a[..l], b[..l], u);
    }
  }

  lemma OneLess(a: seq<map<int, int>>, b: seq<map<int, int>>, u: nat, j: int)
    requires |a| == |b| && u < |a| && j in a[u] && b[u].Keys == a[u].Keys - {j}
    requires forall i :: 0 <= i < |a| && i != u ==> b[i].Keys == a[i].Keys
    ensures Entries(b) == Entries(a) - 1
  {
    forall i | 0 <= i < |a| && i != u ensures |b[i]| == |a[i]| {
      assert |b[i].Keys| == |a[i].Keys|;
    }
    assert |b[u]| == |b[u].Keys| == |a[u].Keys| - 1;
    EntriesTake(a, b, u);
  }

  lemma {:induction false} EntriesSame(a: seq<map<int, int>>, b: seq<map<int, int>>)
    requires |a| == |b| && forall i :: 0 <= i < |a| ==> |b[i]| == |a[i]|
    ensures Entries(b) == Entries(a)
  {
    if a != [] {
      EntriesSame(a[..|a|-1], b[..|b|-1]);
    }
  }

  // ----- the keys of the parts -----

  /** The key of part p is the best gain in it. */
  ghost predicate Exact(s: State, p: int) {
    0 <= p < |s.q| && p in s.qpart && s.qpart[p] == MaxKey(s.q[p])
  }

  ghost predicate Occupied(part: seq<int>, v: nat, p: int)
    requires v <= |part|
  {
    exists w :: 0 <= w < v && part[w] == p
  }

  /** Only the key of the part where the last vertex arrived may be stale. */
  ghost predicate Keyed(s: State, n: nat, k: nat) {
    && n <= |s.part| && (forall p :: 0 <= p < k && p != s.surplus ==> Exact(s, p))
    && (0 <= s.surplus < k ==> Exact(s, s.surplus) || Occupied(s.part, n, s.surplus))
  }

  /** After v rounds of the scan the keys that were exact and those of the parts met are exact. */
  ghost predicate Rekeyed(s1: State, s: State, k: nat, v: nat) {
    && s.part == s1.part && v <= |s.part|
    && forall p :: 0 <= p < k && (Exact(s1, p) || Occupied(s.part, v, p)) ==> Exact(s, p)
  }

  lemma RekeyedStep(s1: State, s: State, n: nat, k: nat, w: int, p: nat, j: nat, v: nat)
    requires Shaped(s, n, k) && p < k && j < k && p != j && v < n && PartKeys(s, k) && Rekeyed(s1, s, k, v)
    ensures Rekeyed(s1, ScanRow(s, w, p, j, v), k, v + 1)
  {
    ScanFields(s, n, k, w, p, j, v);
    var t := ScanRow(s, w, p, j, v);
    hide ScanRow, MoveRow, PartKeyOk;
    forall x | 0 <= x < k && (Exact(s1, x) || Occupied(t.part, v + 1, x)) ensures Exact(t, x) {
      if x != s.part[v] {
        assert Exact(s, x);
      }
    }
  }

  /** Taking the vertex re-keys its part, so that the scan leaves no stale key. */
  lemma PickedKeys(s: State, s1: State, t: State, n: nat, k: nat, u: nat, j: nat, p: nat)
    requires Keyed(s, n, k) && Picked(s, s1, n, k, u, j) && PartKeys(s, k) && n <= |t.part| && Rekeyed(s1, t, k, n)
    requires p < k
    ensures Exact(t, p)
  {
    if p != s.part[u] && (p != s.surplus || Exact(s, p)) {
      assert Exact(s, p);
    }
    assert Exact(s1, p) || Occupied(t.part, n, p);
  }

  /** The part of arrival gets the gain of the vertex that arrives, all other keys stay exact. */
  lemma LandKeys(s: State, s1: State, t: State, n: nat, k: nat, u: nat, j: nat)
    requires Keyed(s, n, k) && Picked(s, s1, n, k, u, j) && PartKeys(s, k) && Shaped(t, n, k) && PartKeys(t, k)
    requires Rekeyed(s1, t, k, n) && t.surplus == j
    ensures Keyed(Land(t, u, j), n, k)
    ensures Shaped(Land(t, u, j), n, k) && j in Land(t, u, j).qpart
    ensures Land(t, u, j).qpart[j] == Gain(Land(t, u, j), u, j)
  {
    LandFields(t, n, k, u, j);
    var t' := Land(t, u, j);
    hide Land, PartKeyOk;
    forall p | 0 <= p < k && p != j ensures Exact(t', p) {
      PickedKeys(s, s1, t, n, k, u, j, p);
    }
    assert t'.part[u] == j;
  }

  /**
    Whether the key of the part of arrival is exact: the vertex that arrived gains at least as much as every
    other one there, or, if it has no move left and is not queued, the best gain there happens to be minus its weight.
  */
  lemma ArrivalKey(t: State, m: seq<seq<int>>, n: nat, k: nat, u: nat)
    requires Inv(t, m, n, k) && u < n && t.part[u] == t.surplus && t.qpart[t.surplus] == Gain(t, u, t.surplus)
    ensures t.inst[u] != map[] ==>
              (Exact(t, t.surplus) <==>
                u in t.q[t.surplus] && forall v :: v in t.q[t.surplus] ==> t.q[t.surplus][v] <= t.q[t.surplus][u])
    ensures t.inst[u] == map[] && t.q[t.surplus] == map[] ==> (Exact(t, t.surplus) <==> t.d[u][t.surplus] == 0)
    ensures t.inst[u] == map[] && t.q[t.surplus] != map[] ==>
              (Exact(t, t.surplus) <==> MaxKey(t.q[t.surplus]) == -t.d[u][t.surplus])
  {
    assert Current(t, u) && Waits(t, u);
    hide Sums, PartKeyOk;
  }

  /** No move that v has left would lower the cut. */
  ghost predicate Stays(s: State, m: seq<seq<int>>, n: nat, v: nat)
    requires Symmetric(m, n) && n <= |s.part| && n <= |s.inst| && v < n
  {
    forall j :: j in s.inst[v] ==> Into(m[v], s.part, n, j) <= Into(m[v], s.part, n, s.part[v])
  }

  lemma StaysUnless(s: State, m: seq<seq<int>>, n: nat, k: nat, v: nat)
    requires Inv(s, m, n, k) && v < n
    ensures Stays(s, m, n, v) <==> !(v in s.q[s.part[v]] && s.q[s.part[v]][v] > 0)
  {
    assert InstOk(s.inst[v], s.d[v]) && Current(s, v) && Waits(s, v);
    hide PartKeys, Current, Waits, Members;
    if s.inst[v] != map[] {
      var j :| j in s.inst[v] && s.inst[v][j] == MaxKey(s.inst[v]);
      assert s.d[v][j] == Into(m[v], s.part, n, j);
      forall i | i in s.inst[v] ensures Into(m[v], s.part, n, i) == s.inst[v][i] <= s.inst[v][j] {
        assert s.d[v][i] == Into(m[v], s.part, n, i);
      }
      assert s.d[v][s.part[v]] == Into(m[v], s.part, n, s.part[v]);
    }
  }

  /** Where the loop has no move left: in the surplus part when the parts are not balanced, else in all other parts. */
  ghost predicate Exhausted(s: State, m: seq<seq<int>>, n: nat)
    requires Symmetric(m, n) && n <= |s.part| && n <= |s.inst|
  {
    forall v :: 0 <= v < n && ((s.deficit == s.surplus) == (s.part[v] != s.surplus)) ==> Stays(s, m, n, v)
  }

  /**
    The announced gain is not positive exactly when no move is left there and the part of the
    last arrival claims none.
  */
  lemma ExitExhausted(s: State, m: seq<seq<int>>, n: nat, k: nat)
    requires Inv(s, m, n, k) && Keyed(s, n, k)
    ensures NextGainOf(s) <= 0 <==> Exhausted(s, m, n) && (s.deficit == s.surplus ==> s.qpart[s.surplus] <= 0)
  {
    if NextGainOf(s) <= 0 {
      forall v | 0 <= v < n && ((s.deficit == s.surplus) == (s.part[v] != s.surplus)) ensures Stays(s, m, n, v) {
        StaysUnless(s, m, n, k, v);
        hide Sums, Queued;
        if s.deficit == s.surplus {
          assert Exact(s, s.part[v]);
          assert s.part[v] in s.qpart;
        }
      }
    } else if s.deficit == s.surplus {
      var p :| p in s.qpart && s.qpart[p] == MaxKey(s.qpart);
      if p != s.surplus {
        assert Exact(s, p);
        MoveLeft(s, m, n, k, p);
      }
    } else {
      MoveLeft(s, m, n, k, s.surplus);
    }
  }

  /** A part whose best gain is positive has a vertex with a move that would lower the cut. */
  lemma MoveLeft(s: State, m: seq<seq<int>>, n: nat, k: nat, p: int)
    requires Inv(s, m, n, k) && 0 <= p < k && MaxKey(s.q[p]) > 0
    ensures exists v :: 0 <= v < n && s.part[v] == p && !Stays(s, m, n, v)
  {
    var v :| v in s.q[p] && s.q[p][v] == MaxKey(s.q[p]);
    assert Members(s.q[p], s.part, n, p);
    StaysUnless(s, m, n, k, v);
  }

  lemma LandKeysInv(s: State, s1: State, t: State, m: seq<seq<int>>, n: nat, k: nat, u: nat, j: nat)
    requires Inv(s, m, n, k) && Keyed(s, n, k) && Picked(s, s1, n, k, u, j) && Shaped(s1, n, k)
    requires Scanned(s1, t, m, n, k, u, s.part[u], j, n) && Rekeyed(s1, t, k, n)
    ensures Keyed(Land(t, u, j), n, k)
    ensures Shaped(Land(t, u, j), n, k) && j in Land(t, u, j).qpart
    ensures Land(t, u, j).qpart[j] == Gain(Land(t, u, j), u, j)
  {
    hide Sums, Queued, Keyed, Rekeyed, Current, InstOk, PartKeys;
    LandKeys(s, s1, t, n, k, u, j);
  }

  /** While it moves, u is in no queue. */
  lemma Absent(s: State, s1: State, t: State, m: seq<seq<int>>, n: nat, k: nat, u: nat, j: nat)
    requires Inv(s, m, n, k) && Picked(s, s1, n, k, u, j) && Shaped(s1, n, k)
    requires Scanned(s1, t, m, n, k, u, s.part[u], j, n)
    ensures j < k && Shaped(t, n, k) && u !in t.q[j]
  {
    hide Sums, Symmetric, Queued, Current, InstOk, PartKeys;
    ScannedLands(s, s1, t, m, n, k, u, j);
    NotQueued(s, t, n, k, u, j, j);
  }

  lemma TakenFits(s: State, s1: State, n: nat, k: nat, u: nat)
    requires Ranged(s, n, k) && Taken(s, s1, n, k, u)
    ensures |s1.q[s.part[u]]| <= n && |s1.inst[u]| <= k && KeysIn(s1.qpart, k) && s.part[u] !in s1.qpart
  {
    KeysFit(s.q[s.part[u]], n);
    KeysFit(s.inst[u], k);
    assert KeysIn(s1.q[s.part[u]], n) by { assert KeysIn(s.q[s.part[u]], n); }
    KeysFit(s1.q[s.part[u]], n);
  }

  // ----- what a move does -----

  /**
    s to t is a move of vertex u, the next one up, to the new surplus part, the best of the moves
    that u has left; the move is used up.
  */
  ghost predicate Moved(s: State, t: State, n: nat, k: nat, u: nat) {
    && Shaped(s, n, k) && Shaped(t, n, k) && 0 <= s.surplus < k && u < n && 0 <= t.surplus < k
    && t.part == s.part[u := t.surplus] && t.surplus != s.part[u]
    && (if s.deficit == s.surplus then t.deficit == s.part[u] else s.part[u] == s.surplus && t.deficit == s.deficit)
    && NextUp(s, n, k, u) && s.d[u][t.surplus] - s.d[u][s.part[u]] >= NextGainOf(s)
    && t.surplus in s.inst[u] && s.d[u][t.surplus] == MaxKey(s.inst[u])
    && t.inst[u].Keys == s.inst[u].Keys - {t.surplus}
    && (forall i :: 0 <= i < n && i != u ==> t.inst[i].Keys == s.inst[i].Keys)
    && Entries(t.inst) == Entries(s.inst) - 1
  }

  lemma LandMoves(s: State, s1: State, t: State, m: seq<seq<int>>, n: nat, k: nat, u: nat, j: nat)
    requires Symmetric(m, n) && Picked(s, s1, n, k, u, j) && Shaped(s1, n, k)
    requires Scanned(s1, t, m, n, k, u, s.part[u], j, n)
    ensures Moved(s, Land(t, u, j), n, k, u)
  {
    hide Inv, Land, Current, InstOk, PartKeys, Symmetric, Entries;
    LandFields(t, n, k, u, j);
    assert t.inst[u].Keys == s.inst[u].Keys - {j};
    OneLess(s.inst, t.inst, u, j);
  }

  lemma MovedFields(s: State, t: State, n: nat, k: nat, u: nat)
    requires Moved(s, t, n, k, u)
    ensures Entries(t.inst) == Entries(s.inst) - 1 && |t.part| == |s.part| && n <= |s.part|
    ensures t.part[n..] == s.part[n..]
  {
    hide Entries;
  }

  /** Sizes stay within one vertex of the first ones, at surplus and deficit only. */
  lemma MoveKeepsSizes(s: State, t: State, first: seq<int>, n: nat, k: nat, u: nat)
    requires Moved(s, t, n, k, u) && Sized(s, first, n, k)
    ensures Sized(t, first, n, k)
  {
    forall p | 0 <= p < k
      ensures Count(t.part, 0, n, p) == Count(first, 0, n, p)
                + (if p == t.surplus then 1 else 0) - (if p == t.deficit then 1 else 0)
    {
      CountMove(s.part, 0, n, u, t.surplus, p);
    }
  }

  /** Every move lowers the cut by at least the announced gain. */
  lemma MoveLowersCut(s: State, t: State, m: seq<seq<int>>, n: nat, k: nat, u: nat)
    requires Inv(s, m, n, k) && Moved(s, t, n, k, u)
    ensures Cut(m, t.part, n, n) <= Cut(m, s.part, n, n) - NextGainOf(s)
  {
    hide Queued, PartKeys;
    assert m[u][u] >= 0;
    CutMove(m, s.part, n, u, t.surplus);
  }

  // ----- the last move -----

  ghost predicate SameSizes(a: seq<int>, b: seq<int>, n: nat, k: nat) {
    n <= |a| && n <= |b| && forall p :: 0 <= p < k ==> Count(a, 0, n, p) == Count(b, 0, n, p)
  }

  /** Of the vertices of surplus, u gains most by going to deficit. */
  ghost predicate BestReturn(s: State, n: nat, k: nat, u: int)
    requires Shaped(s, n, k) && 0 <= s.deficit < k && 0 <= s.surplus < k
  {
    && 0 <= u < n && s.part[u] == s.surplus
    && forall v :: 0 <= v < n && s.part[v] == s.surplus ==>
         s.d[v][s.deficit] - s.d[v][s.surplus] <= s.d[u][s.deficit] - s.d[u][s.surplus]
  }

  /** Of the vertices in the part of u, none gains more by going to part p. */
  ghost predicate BestExchange(m: seq<seq<int>>, part: seq<int>, n: nat, u: int, p: int) {
    && Symmetric(m, n) && n <= |part| && 0 <= u < n
    && forall v :: 0 <= v < n && part[v] == part[u] ==>
         Into(m[v], part, n, p) - Into(m[v], part, n, part[v]) <= Into(m[u], part, n, p) - Into(m[u], part, n, part[u])
  }

  /** In balance nothing is moved; else the vertex of surplus that gains most goes to deficit. */
  ghost predicate Rebalanced(m: seq<seq<int>>, s: State, part: seq<int>, n: nat) {
    if s.deficit == s.surplus then part == s.part
    else exists u :: Returned(m, s, part, n, u)
  }

  ghost predicate Returned(m: seq<seq<int>>, s: State, part: seq<int>, n: nat, u: int) {
    && 0 <= u < |s.part| && s.part[u] == s.surplus && part == s.part[u := s.deficit]
    && BestExchange(m, s.part, n, u, s.deficit)
  }

  lemma ReturnIsBest(s: State, m: seq<seq<int>>, n: nat, k: nat, u: int)
    requires Inv(s, m, n, k) && Shaped(s, n, k) && 0 <= s.deficit < k && 0 <= s.surplus < k && BestReturn(s, n, k, u)
    ensures 0 <= u < n && BestExchange(m, s.part, n, u, s.deficit)
  {
    hide Queued, PartKeys;
  }

  lemma Restored(s: State, m: seq<seq<int>>, n: nat, k: nat, u: int, part: seq<int>)
    requires Inv(s, m, n, k) && Shaped(s, n, k) && 0 <= s.deficit < k && 0 <= s.surplus < k
    requires if s.deficit == s.surplus then part == s.part
             else 0 <= u < n && BestReturn(s, n, k, u) && part == s.part[u := s.deficit]
    ensures Rebalanced(m, s, part, n)
  {
    hide Inv;
    if s.deficit != s.surplus {
      ReturnIsBest(s, m, n, k, u);
      assert Returned(m, s, part, n, u);
    }
  }

  lemma BalanceSizes(s: State, first: seq<int>, n: nat, k: nat, u: int)
    requires Shaped(s, n, k) && Sized(s, first, n, k) && s.deficit != s.surplus && 0 <= u < n && s.part[u] == s.surplus
    ensures SameSizes(s.part[u := s.deficit], first, n, k)
  {
    forall p | 0 <= p < k ensures Count(s.part[u := s.deficit], 0, n, p) == Count(first, 0, n, p) {
      CountMove(s.part, 0, n, u, s.deficit, p);
    }
  }

  lemma PickedFields(s: State, s1: State, n: nat, k: nat, u: nat, j: nat)
    requires Picked(s, s1, n, k, u, j)
    ensures u < n <= |s.part| && s1.part == s.part && j != s.part[u] && s1.surplus == j
  {
  }

  lemma ScannedFields(s1: State, s: State, m: seq<seq<int>>, n: nat, k: nat, u: nat, p: nat, j: nat)
    requires Symmetric(m, n) && Shaped(s1, n, k) && u < n && p < k && j < k && Scanned(s1, s, m, n, k, u, p, j, n)
    ensures Shaped(s, n, k) && s.part == s1.part && s.surplus == s1.surplus
  {
  }
}
