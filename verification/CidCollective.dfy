/**
  The collective that the agreement on context ids relies on: run over a group by the binary
  tree, it gives every process the maximum, or the minimum, of what all processes sent.
*/
module CidCollective {
  import CidProtocol
  import GroupAllreduce

  function Larger(a: nat, b: nat): nat { if b > a then b else a }

  function Smaller(a: nat, b: nat): nat { if b < a then b else a }

  lemma {:induction false} FoldIsMax(xs: seq<nat>)
    requires xs != []
    ensures GroupAllreduce.Fold(Larger, xs) == CidProtocol.MaxOf(xs)
  {
    if |xs| > 1 {
      FoldIsMax(xs[..|xs|-1]);
    }
  }

  lemma {:induction false} FoldIsMin(xs: seq<nat>)
    requires xs != []
    ensures GroupAllreduce.Fold(Smaller, xs) == CidProtocol.MinOf(xs)
  {
    if |xs| > 1 {
      FoldIsMin(xs[..|xs|-1]);
    }
  }

  /**
    A process that is done with the maximum holds the value that the protocol takes as the
    result of the collective.
  */
  lemma GroupMax(xs: seq<nat>, ws: seq<GroupAllreduce.World<nat>>, acts: seq<GroupAllreduce.Action>, n: nat, r: nat)
    requires GroupAllreduce.Run(Larger, xs, ws, acts) && n < |ws| && r < |ws[n]|
    requires ws[n][r].pc == GroupAllreduce.Pc.Done
    ensures xs != [] && ws[n][r].out == CidProtocol.MaxOf(xs)
  {
    GroupAllreduce.EveryRankGetsTheFold(Larger, xs, ws, acts, n, r);
    FoldIsMax(xs);
  }

  lemma GroupMin(xs: seq<nat>, ws: seq<GroupAllreduce.World<nat>>, acts: seq<GroupAllreduce.Action>, n: nat, r: nat)
    requires GroupAllreduce.Run(Smaller, xs, ws, acts) && n < |ws| && r < |ws[n]|
    requires ws[n][r].pc == GroupAllreduce.Pc.Done
    ensures xs != [] && ws[n][r].out == CidProtocol.MinOf(xs)
  {
    GroupAllreduce.EveryRankGetsTheFold(Smaller, xs, ws, acts, n, r);
    FoldIsMin(xs);
  }
}
