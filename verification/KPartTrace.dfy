/**
  Whole runs of the gain loop of tm_kPartitioning, as sequences of states.  A run starts with
  all moves left, and each step moves the next vertex up by its best move.  Which of several
  equal vertices or moves is taken is all that is left open.
*/
module KPartTrace {
  import opened KPartModel
  import opened KPartState

  /** The state after initialization: nothing has moved, all keys are exact. */
  ghost predicate Opening(s: State, m: seq<seq<int>>, n: nat, k: nat, first: seq<int>) {
    Inv(s, m, n, k) && AllFresh(s, n, k) && s.part == first && s.deficit == s.surplus == 0
  }

  /** One round of the loop: the announced gain is positive, and vertex u moves. */
  ghost predicate Step(s: State, t: State, m: seq<seq<int>>, n: nat, k: nat, u: nat) {
    && Moved(s, t, n, k, u) && NextGainOf(s) > 0 && Inv(t, m, n, k) && Keyed(t, n, k)
    && t.qpart[t.surplus] == Gain(t, u, t.surplus)
  }

  ghost predicate Goes(s: State, t: State, m: seq<seq<int>>, n: nat, k: nat) {
    exists u: nat :: Step(s, t, m, n, k, u)
  }

  ghost predicate Steps(trace: seq<State>, m: seq<seq<int>>, n: nat, k: nat) {
    trace != [] && forall i :: 0 <= i < |trace| - 1 ==> Goes(trace[i], trace[i+1], m, n, k)
  }

  /** A run of the loop from `first` to its end. */
  ghost predicate GainRun(trace: seq<State>, m: seq<seq<int>>, n: nat, k: nat, first: seq<int>) {
    && Steps(trace, m, n, k) && Opening(trace[0], m, n, k, first)
    && Inv(Last(trace), m, n, k) && NextGainOf(Last(trace)) <= 0 && Exhausted(Last(trace), m, n)
  }

  ghost function Last(trace: seq<State>): State
    requires trace != []
  {
    trace[|trace| - 1]
  }

  lemma OnlyOne(s: State, m: seq<seq<int>>, n: nat, k: nat)
    ensures Steps([s], m, n, k)
  {
  }

  lemma StepOf(s: State, t: State, m: seq<seq<int>>, n: nat, k: nat, u: nat)
    requires Moved(s, t, n, k, u) && NextGainOf(s) > 0 && Inv(t, m, n, k) && Keyed(t, n, k)
    requires t.qpart[t.surplus] == Gain(t, u, t.surplus)
    ensures Step(s, t, m, n, k, u)
  {
  }

  lemma OneMore(trace: seq<State>, t: State, m: seq<seq<int>>, n: nat, k: nat, u: nat)
    requires Steps(trace, m, n, k) && Step(Last(trace), t, m, n, k, u)
    ensures Steps(trace + [t], m, n, k)
  {
    hide Step;
    assert Goes(Last(trace), t, m, n, k);
    hide Goes;
  }

  // ----- the choices determine the run -----

  lemma SameMap(a: map<int, int>, b: map<int, int>)
    requires forall x :: x in a <==> x in b
    requires forall x :: x in a && x in b ==> a[x] == b[x]
    ensures a == b
  {
    forall x: int ensures x in a.Keys <==> x in b.Keys {}
    assert forall x | x in a.Keys :: a[x] == b[x];
    assert a == (map x | x in a.Keys :: a[x]);
    assert b == (map x | x in b.Keys :: b[x]);
  }

  /** Two states with the same partition and the same moves left have the same sums and queues. */
  lemma SameQueues(s: State, t: State, m: seq<seq<int>>, n: nat, k: nat)
    requires Inv(s, m, n, k) && Inv(t, m, n, k) && s.part == t.part
    requires forall i :: 0 <= i < n ==> s.inst[i].Keys == t.inst[i].Keys
    ensures s.d == t.d && s.inst == t.inst && s.q == t.q
  {
    hide PartKeys;
    forall i | 0 <= i < n ensures s.d[i] == t.d[i] && s.inst[i] == t.inst[i] {
      SameRow(s, t, m, n, k, i);
    }
    assert s.d == t.d && s.inst == t.inst;
    hide Sums;
    forall p | 0 <= p < k ensures s.q[p] == t.q[p] {
      SameQueue(s, t, m, n, k, p);
    }
  }

  lemma SameRow(s: State, t: State, m: seq<seq<int>>, n: nat, k: nat, i: nat)
    requires Inv(s, m, n, k) && Inv(t, m, n, k) && s.part == t.part && i < n && s.inst[i].Keys == t.inst[i].Keys
    ensures s.d[i] == t.d[i] && s.inst[i] == t.inst[i]
  {
    hide PartKeys;
    assert InstOk(s.inst[i], s.d[i]) && InstOk(t.inst[i], t.d[i]);
    assert forall j :: j in s.inst[i] <==> j in s.inst[i].Keys;
    assert forall j :: j in t.inst[i] <==> j in t.inst[i].Keys;
    hide Queued;
    assert s.d[i] == t.d[i];
    SameMap(s.inst[i], t.inst[i]);
  }

  lemma SameQueue(s: State, t: State, m: seq<seq<int>>, n: nat, k: nat, p: nat)
    requires Inv(s, m, n, k) && Inv(t, m, n, k) && s.part == t.part && s.d == t.d && s.inst == t.inst && p < k
    ensures s.q[p] == t.q[p]
  {
    hide PartKeys, Sums;
    assert Members(s.q[p], s.part, n, p) && Members(t.q[p], t.part, n, p);
    forall v | 0 <= v < n && s.part[v] == p
      ensures v in s.q[p] <==> v in t.q[p]
      ensures v in s.q[p] ==> s.q[p][v] == t.q[p][v]
    {
      assert Waits(s, v) && Waits(t, v) && Current(s, v) && Current(t, v);
    }
    SameMap(s.q[p], t.q[p]);
  }

  lemma OpeningIsUnique(s: State, t: State, m: seq<seq<int>>, n: nat, k: nat, first: seq<int>)
    requires Opening(s, m, n, k, first) && Opening(t, m, n, k, first)
    ensures s == t
  {
    hide Sums, Queued;
    forall i | 0 <= i < n ensures s.inst[i].Keys == t.inst[i].Keys {
      assert forall j :: j in s.inst[i] <==> 0 <= j < k;
      assert forall j :: j in t.inst[i] <==> 0 <= j < k;
    }
    SameQueues(s, t, m, n, k);
    forall p | 0 <= p < k ensures s.qpart[p] == t.qpart[p] {
      assert Exact(s, p) && Exact(t, p);
    }
    SameMap(s.qpart, t.qpart);
  }

  /** The vertex and the part it goes to determine the next state. */
  lemma StepIsUnique(s: State, t: State, t': State, m: seq<seq<int>>, n: nat, k: nat, u: nat)
    requires Step(s, t, m, n, k, u) && Step(s, t', m, n, k, u) && t.surplus == t'.surplus
    ensures t == t'
  {
    hide Sums, Queued, NextGainOf, NextUp, Entries, MaxKey;
    forall i | 0 <= i < n ensures t.inst[i].Keys == t'.inst[i].Keys {
      if i != u { assert t.inst[i].Keys == s.inst[i].Keys; }
    }
    SameQueues(t, t', m, n, k);
    forall p | 0 <= p < k ensures t.qpart[p] == t'.qpart[p] {
      if p != t.surplus { assert Exact(t, p) && Exact(t', p); }
    }
    SameMap(t.qpart, t'.qpart);
  }
}
