/**
  The group allreduce that the context-id allocation uses when the new group alone may
  communicate: a binary tree over the ranks, values up, result down, as message passing.

  A non-blocking send reads its buffer at any moment between its posting and its
  completion, and a non-blocking receive writes its buffer at any moment in the same
  way.  One buffer, `out`, serves the send to the parent and the receive from it: that
  the receive never overwrites a value the parent still needs is part of what is proved.
*/
module GroupAllreduce {
  import opened Collections

  /** A message on its way: not yet read from the sender's buffer, in transit, or received. */
  datatype Msg<+T> = Unsent | InFlight(value: T) | Arrived

  /** Idle: not called yet; Reduce: waits for the children; Exchange: sends up and receives down; Bcast: sends down. */
  datatype Pc = Idle | Reduce | Exchange | Bcast | Done

  /** One rank: its buffers, and the messages between it and its parent. */
  datatype Rank<T> = Rank(pc: Pc, out: T, left: Option<T>, right: Option<T>, up: Msg<T>, down: Msg<T>)

  type World<T> = seq<Rank<T>>

  datatype Action = Start(r: nat) | UpLeaves(r: nat) | UpArrives(r: nat) | RecvComplete(r: nat)
                  | DownLeaves(r: nat) | DownArrives(r: nat) | StartBcast(r: nat) | Finish(r: nat)

  // ----- the reduction -----

  ghost predicate Commutative<T(!new)>(op: (T, T) -> T) {
    && (forall a, b :: op(a, b) == op(b, a))
    && (forall a, b, c :: op(op(a, b), c) == op(a, op(b, c)))
  }

  /** The operator applied over all inputs, in rank order. */
  ghost function Fold<T>(op: (T, T) -> T, xs: seq<T>): T
    requires xs != []
  {
    if |xs| == 1 then xs[0] else op(Fold(op, xs[..|xs|-1]), xs[|xs|-1])
  }

  /** What rank r has after combining the values of its children with its own. */
  ghost function Sub<T>(op: (T, T) -> T, xs: seq<T>, r: nat): T
    requires r < |xs|
    decreases |xs| - r
  {
    var a := if 2 * r + 1 < |xs| then op(Sub(op, xs, 2 * r + 1), xs[r]) else xs[r];
    if 2 * r + 2 < |xs| then op(Sub(op, xs, 2 * r + 2), a) else a
  }

  function Parent(r: nat): nat
    requires r > 0
  {
    (r - 1) / 2
  }

  /** The inputs after the last rank has been folded into its parent. */
  ghost function Merged<T>(op: (T, T) -> T, xs: seq<T>): seq<T>
    requires |xs| > 1
  {
    var last := |xs| - 1;
    xs[..last][Parent(last) := op(xs[last], xs[Parent(last)])]
  }

  lemma Exchanged<T(!new)>(op: (T, T) -> T, a: T, b: T, c: T)
    requires Commutative(op)
    ensures op(a, op(b, c)) == op(b, op(a, c)) && op(a, b) == op(b, a) && op(op(a, b), c) == op(a, op(b, c))
  {
  }

  lemma {:induction false} FoldUpdate<T(!new)>(op: (T, T) -> T, ys: seq<T>, i: nat, x: T)
    requires Commutative(op) && i < |ys|
    ensures Fold(op, ys[i := op(x, ys[i])]) == op(x, Fold(op, ys))
  {
    hide Commutative;
    if |ys| > 1 {
      var last := |ys| - 1;
      var zs := ys[i := op(x, ys[i])];
      if i < last {
        assert zs[..last] == ys[..last][i := op(x, ys[i])];
        FoldUpdate(op, ys[..last], i, x);
        Exchanged(op, x, Fold(op, ys[..last]), ys[last]);
      } else {
        assert zs[..last] == ys[..last];
        Exchanged(op, Fold(op, ys[..last]), x, ys[last]);
      }
    }
  }

  lemma {:induction false} SubMerged<T(!new)>(op: (T, T) -> T, xs: seq<T>, r: nat)
    requires Commutative(op) && |xs| > 1 && r < |xs| - 1
    ensures Sub(op, xs, r) == Sub(op, Merged(op, xs), r)
    decreases |xs| - r
  {
    hide Commutative;
    var last := |xs| - 1;
    if 2 * r + 1 < last { SubMerged(op, xs, 2 * r + 1); }
    if 2 * r + 2 < last { SubMerged(op, xs, 2 * r + 2); }
    if 2 * r + 2 == last { Exchanged(op, xs[last], Sub(op, xs, 2 * r + 1), xs[r]); }
  }

  /** The tree of ranks combines every input exactly once. */
  lemma {:induction false} TreeFoldsAll<T(!new)>(op: (T, T) -> T, xs: seq<T>)
    requires Commutative(op) && xs != []
    ensures Sub(op, xs, 0) == Fold(op, xs)
    decreases |xs|
  {
    if |xs| > 1 {
      var last := |xs| - 1;
      hide Commutative;
      SubMerged(op, xs, 0);
      TreeFoldsAll(op, Merged(op, xs));
      FoldUpdate(op, xs[..last], Parent(last), xs[last]);
      Exchanged(op, Fold(op, xs[..last]), xs[last], xs[last]);
    }
  }

  // ----- steps -----

  ghost predicate HasLeft(n: nat, r: nat) { 2 * r + 1 < n }

  ghost predicate HasRight(n: nat, r: nat) { 2 * r + 2 < n }

  /** The rank's own value combined with what its children sent. */
  ghost function Combine<T>(op: (T, T) -> T, x: Rank<T>): T {
    var a := if x.left.Some? then op(x.left.value, x.out) else x.out;
    if x.right.Some? then op(x.right.value, a) else a
  }

  /** A receive from child c into its parent's buffer; odd ranks are left children. */
  ghost function Deliver<T>(x: Rank<T>, c: nat, v: T): Rank<T> {
    if c % 2 == 1 then x.(left := Some(v)) else x.(right := Some(v))
  }

  ghost predicate Next<T>(op: (T, T) -> T, xs: seq<T>, w: World<T>, w': World<T>, a: Action) {
    var r := a.r;
    && |w| == |xs| && r < |w|
    && match a
       case Start(_) =>
         w[r].pc == Idle && w' == w[r := w[r].(pc := Reduce, out := xs[r])]
       case UpLeaves(_) =>
         r > 0 && w[r].pc == Exchange && w[r].up == Unsent && w' == w[r := w[r].(up := InFlight(w[r].out))]
       case UpArrives(_) =>
         && r > 0 && w[r].up.InFlight? && w[Parent(r)].pc != Idle
         && w' == w[r := w[r].(up := Arrived)][Parent(r) := Deliver(w[Parent(r)], r, w[r].up.value)]
       case RecvComplete(_) =>
         && w[r].pc == Reduce
         && (HasLeft(|w|, r) ==> w[r].left.Some?) && (HasRight(|w|, r) ==> w[r].right.Some?)
         && w' == w[r := w[r].(pc := if r == 0 then Bcast else Exchange, out := Combine(op, w[r]))]
       case DownLeaves(_) =>
         r > 0 && w[Parent(r)].pc == Bcast && w[r].down == Unsent
         && w' == w[r := w[r].(down := InFlight(w[Parent(r)].out))]
       case DownArrives(_) =>
         w[r].down.InFlight? && w[r].pc == Exchange && w' == w[r := w[r].(down := Arrived, out := w[r].down.value)]
       case StartBcast(_) =>
         w[r].pc == Exchange && w[r].up != Unsent && w[r].down == Arrived && w' == w[r := w[r].(pc := Bcast)]
       case Finish(_) =>
         && w[r].pc == Bcast
         && (HasLeft(|w|, r) ==> w[2 * r + 1].down != Unsent) && (HasRight(|w|, r) ==> w[2 * r + 2].down != Unsent)
         && w' == w[r := w[r].(pc := Done)]
  }

  ghost predicate Init<T>(w: World<T>) {
    forall r :: 0 <= r < |w| ==>
      w[r].pc == Idle && w[r].left == None && w[r].right == None && w[r].up == Unsent && w[r].down == Unsent
  }

  ghost predicate Run<T>(op: (T, T) -> T, xs: seq<T>, ws: seq<World<T>>, acts: seq<Action>) {
    && |ws| == |acts| + 1 && |ws[0]| == |xs| && Init(ws[0])
    && forall i :: 0 <= i < |acts| ==> Next(op, xs, ws[i], ws[i+1], acts[i])
  }

  // ----- the invariant -----

  ghost predicate Below(pc: Pc) { pc == Idle || pc == Reduce }

  /** What a rank's own fields say. */
  ghost predicate Local<T>(op: (T, T) -> T, xs: seq<T>, x: Rank<T>, r: nat)
    requires r < |xs|
  {
    && (x.pc == Reduce ==> x.out == xs[r])
    && (x.pc == Exchange ==> x.out == if x.down == Arrived then Sub(op, xs, 0) else Sub(op, xs, r))
    && (x.pc == Bcast || x.pc == Done ==> x.out == Sub(op, xs, 0) && (r > 0 ==> x.up != Unsent && x.down == Arrived))
    && (Below(x.pc) ==> x.up == Unsent && x.down == Unsent)
    && (r == 0 ==> x.up == Unsent && x.down == Unsent && x.pc != Exchange)
    && (x.up.InFlight? ==> x.up.value == Sub(op, xs, r))
    && (x.down.InFlight? ==> x.down.value == Sub(op, xs, 0))
    && (x.down != Unsent ==> x.up == Arrived)
    && (x.left.Some? ==> HasLeft(|xs|, r) && x.left.value == Sub(op, xs, 2 * r + 1))
    && (x.right.Some? ==> HasRight(|xs|, r) && x.right.value == Sub(op, xs, 2 * r + 2))
    && (!Below(x.pc) ==> (HasLeft(|xs|, r) ==> x.left.Some?) && (HasRight(|xs|, r) ==> x.right.Some?))
  }

  /** What a rank r and its parent say about each other. */
  ghost predicate Joint<T>(x: Rank<T>, parent: Rank<T>, r: nat) {
    && (x.up == Arrived <==> (if r % 2 == 1 then parent.left.Some? else parent.right.Some?))
    && (x.down != Unsent ==> parent.pc == Bcast || parent.pc == Done)
    && (parent.pc == Done ==> x.down != Unsent)
  }

  ghost predicate Inv<T>(op: (T, T) -> T, xs: seq<T>, w: World<T>) {
    && |w| == |xs|
    && (forall r: nat :: r < |w| ==> Local(op, xs, w[r], r))
    && (forall r: nat :: 0 < r < |w| ==> Joint(w[r], w[Parent(r)], r))
  }

  lemma InitInv<T>(op: (T, T) -> T, xs: seq<T>, w: World<T>)
    requires |w| == |xs| && Init(w)
    ensures Inv(op, xs, w)
  {
  }

  /** A rank's children are the ranks whose parent it is. */
  lemma Children(r: nat, c: nat)
    requires c > 0
    ensures Parent(c) == r <==> c == 2 * r + 1 || c == 2 * r + 2
    ensures Parent(c) < c
  {
  }

  lemma StepKeepsInv<T>(op: (T, T) -> T, xs: seq<T>, w: World<T>, w': World<T>, a: Action)
    requires Inv(op, xs, w) && Next(op, xs, w, w', a)
    ensures Inv(op, xs, w')
  {
    forall r: nat | r < |w'| ensures Local(op, xs, w'[r], r) {
      LocalKept(op, xs, w, w', a, r);
    }
    forall r: nat | 0 < r < |w'| ensures Joint(w'[r], w'[Parent(r)], r) {
      JointKept(op, xs, w, w', a, r);
    }
  }

  /** The rank that moves. */
  lemma MoverLocal<T>(op: (T, T) -> T, xs: seq<T>, w: World<T>, w': World<T>, a: Action)
    requires Next(op, xs, w, w', a) && Local(op, xs, w[a.r], a.r)
    requires a.r > 0 ==> Local(op, xs, w[Parent(a.r)], Parent(a.r)) && Joint(w[a.r], w[Parent(a.r)], a.r)
    ensures Local(op, xs, w'[a.r], a.r)
  {
    if a.r > 0 { Children(Parent(a.r), a.r); }
  }

  /** The parent that a value from below reaches. */
  lemma ReceiverLocal<T>(op: (T, T) -> T, xs: seq<T>, w: World<T>, w': World<T>, r: nat)
    requires Next(op, xs, w, w', UpArrives(r)) && Local(op, xs, w[r], r) && Local(op, xs, w[Parent(r)], Parent(r))
    ensures Local(op, xs, w'[Parent(r)], Parent(r))
  {
    Children(Parent(r), r);
  }

  lemma LocalKept<T>(op: (T, T) -> T, xs: seq<T>, w: World<T>, w': World<T>, a: Action, r: nat)
    requires Inv(op, xs, w) && Next(op, xs, w, w', a) && r < |w'|
    ensures Local(op, xs, w'[r], r)
  {
    hide Local, Joint;
    assert Local(op, xs, w[r], r) && Local(op, xs, w[a.r], a.r);
    if a.r > 0 { assert Local(op, xs, w[Parent(a.r)], Parent(a.r)) && Joint(w[a.r], w[Parent(a.r)], a.r); }
    if r == a.r {
      MoverLocal(op, xs, w, w', a);
    } else if a.UpArrives? && r == Parent(a.r) {
      ReceiverLocal(op, xs, w, w', a.r);
    }
  }

  lemma JointAfterArrival<T>(op: (T, T) -> T, xs: seq<T>, w: World<T>, w': World<T>, c: nat, r: nat)
    requires Next(op, xs, w, w', UpArrives(c)) && 0 < r < |w'|
    requires Joint(w[r], w[Parent(r)], r)
    ensures Joint(w'[r], w'[Parent(r)], r)
  {
    Children(Parent(r), r);
    Children(Parent(c), c);
    Children(Parent(c), r);
  }

  lemma JointKept<T>(op: (T, T) -> T, xs: seq<T>, w: World<T>, w': World<T>, a: Action, r: nat)
    requires |w| == |xs| && Next(op, xs, w, w', a) && 0 < r < |w'|
    requires Joint(w[r], w[Parent(r)], r) && Local(op, xs, w[r], r) && Local(op, xs, w[Parent(r)], Parent(r))
    ensures Joint(w'[r], w'[Parent(r)], r)
  {
    Children(Parent(r), r);
    if a.UpArrives? {
      JointAfterArrival(op, xs, w, w', a.r, r);
    }
  }

  lemma {:induction false} RunKeepsInv<T>(op: (T, T) -> T, xs: seq<T>, ws: seq<World<T>>, acts: seq<Action>, n: nat)
    requires Run(op, xs, ws, acts) && n < |ws|
    ensures Inv(op, xs, ws[n])
  {
    if n == 0 {
      InitInv(op, xs, ws[0]);
    } else {
      RunKeepsInv(op, xs, ws, acts, n - 1);
      assert Next(op, xs, ws[n-1], ws[n-1+1], acts[n-1]);
      StepKeepsInv(op, xs, ws[n-1], ws[n], acts[n-1]);
    }
  }

  // ----- what every run guarantees -----

  /** Correctness: a rank that has finished holds the operator folded over all inputs. */
  lemma EveryRankGetsTheFold<T(!new)>(op: (T, T) -> T, xs: seq<T>, ws: seq<World<T>>, acts: seq<Action>, n: nat, r: nat)
    requires Commutative(op) && Run(op, xs, ws, acts) && n < |ws| && r < |ws[n]| && ws[n][r].pc == Done
    ensures xs != [] && ws[n][r].out == Fold(op, xs)
  {
    RunKeepsInv(op, xs, ws, acts, n);
    assert Local(op, xs, ws[n][r], r);
    TreeFoldsAll(op, xs);
  }

  /**
    The shared buffer: from the moment a rank has posted its value for the parent until that value
    has left, the buffer holds it; the result from above starts down only after the value has arrived.
  */
  lemma BufferKeptUntilRead<T>(op: (T, T) -> T, xs: seq<T>, ws: seq<World<T>>, acts: seq<Action>, n: nat, r: nat)
    requires Run(op, xs, ws, acts) && n < |ws| && 0 < r < |ws[n]| && |ws[n]| == |xs|
    ensures ws[n][r].pc == Exchange && ws[n][r].up == Unsent ==> ws[n][r].out == Sub(op, xs, r)
    ensures ws[n][r].up.InFlight? ==> ws[n][r].up.value == Sub(op, xs, r)
    ensures ws[n][r].down != Unsent ==> ws[n][r].up == Arrived
    ensures ws[n][r].up == Arrived ==>
              (if r % 2 == 1 then ws[n][Parent(r)].left else ws[n][Parent(r)].right) == Some(Sub(op, xs, r))
  {
    RunKeepsInv(op, xs, ws, acts, n);
    Children(Parent(r), r);
    assert Local(op, xs, ws[n][r], r) && Joint(ws[n][r], ws[n][Parent(r)], r);
    assert Local(op, xs, ws[n][Parent(r)], Parent(r));
  }

  // ----- no deadlock -----

  ghost predicate Enabled<T(!new)>(op: (T, T) -> T, xs: seq<T>, w: World<T>, a: Action) {
    exists w': World<T> :: Next(op, xs, w, w', a)
  }

  ghost predicate CanStep<T(!new)>(op: (T, T) -> T, xs: seq<T>, w: World<T>) {
    exists a: Action :: Enabled(op, xs, w, a)
  }

  /** A child whose value its waiting parent lacks can move it on, or is itself waiting further down. */
  lemma ChildMoves<T(!new)>(op: (T, T) -> T, xs: seq<T>, w: World<T>, c: nat)
    requires Inv(op, xs, w) && 0 < c < |w| && w[c].up != Arrived && w[c].pc != Reduce && w[Parent(c)].pc != Idle
    ensures CanStep(op, xs, w)
  {
    assert Local(op, xs, w[c], c);
    if w[c].pc == Idle {
      assert Next(op, xs, w, w[c := w[c].(pc := Reduce, out := xs[c])], Start(c));
      assert Enabled(op, xs, w, Start(c));
    } else if w[c].up == Unsent {
      assert Next(op, xs, w, w[c := w[c].(up := InFlight(w[c].out))], UpLeaves(c));
      assert Enabled(op, xs, w, UpLeaves(c));
    } else {
      assert Next(op, xs, w, w[c := w[c].(up := Arrived)][Parent(c) := Deliver(w[Parent(c)], c, w[c].up.value)],
               UpArrives(c));
      assert Enabled(op, xs, w, UpArrives(c));
    }
  }

  /** Upward phase: a rank that waits for its children can go on, or something below it can. */
  lemma {:induction false} ReducingMoves<T(!new)>(op: (T, T) -> T, xs: seq<T>, w: World<T>, r: nat)
    requires Inv(op, xs, w) && r < |w| && w[r].pc == Reduce
    ensures CanStep(op, xs, w)
    decreases |w| - r
  {
    var l, h := 2 * r + 1, 2 * r + 2;
    Children(r, l);
    Children(r, h);
    if l < |w| { assert Joint(w[l], w[Parent(l)], l); }
    if h < |w| { assert Joint(w[h], w[Parent(h)], h); }
    if l < |w| && w[l].up != Arrived {
      if w[l].pc == Reduce { ReducingMoves(op, xs, w, l); } else { ChildMoves(op, xs, w, l); }
    } else if h < |w| && w[h].up != Arrived {
      if w[h].pc == Reduce { ReducingMoves(op, xs, w, h); } else { ChildMoves(op, xs, w, h); }
    } else {
      var y := w[r].(pc := if r == 0 then Bcast else Exchange, out := Combine(op, w[r]));
      assert Next(op, xs, w, w[r := y], RecvComplete(r));
      assert Enabled(op, xs, w, RecvComplete(r));
    }
  }

  /** Downward phase: a rank that waits for its parent can go on, or something above it can. */
  lemma {:induction false} ExchangingMoves<T(!new)>(op: (T, T) -> T, xs: seq<T>, w: World<T>, r: nat)
    requires Inv(op, xs, w) && r < |w| && w[r].pc == Exchange
    ensures CanStep(op, xs, w)
  {
    assert Local(op, xs, w[r], r);
    var p := Parent(r);
    Children(p, r);
    assert Joint(w[r], w[p], r) && Local(op, xs, w[p], p);
    if w[r].up == Unsent {
      assert Next(op, xs, w, w[r := w[r].(up := InFlight(w[r].out))], UpLeaves(r));
      assert Enabled(op, xs, w, UpLeaves(r));
    } else if w[r].down.InFlight? {
      assert Next(op, xs, w, w[r := w[r].(down := Arrived, out := w[r].down.value)], DownArrives(r));
      assert Enabled(op, xs, w, DownArrives(r));
    } else if w[r].down == Arrived {
      assert Next(op, xs, w, w[r := w[r].(pc := Bcast)], StartBcast(r));
      assert Enabled(op, xs, w, StartBcast(r));
    } else {
      match w[p].pc
      case Idle =>
        assert Next(op, xs, w, w[p := w[p].(pc := Reduce, out := xs[p])], Start(p));
        assert Enabled(op, xs, w, Start(p));
      case Reduce => ReducingMoves(op, xs, w, p);
      case Exchange => ExchangingMoves(op, xs, w, p);
      case Bcast =>
        assert Next(op, xs, w, w[r := w[r].(down := InFlight(w[p].out))], DownLeaves(r));
        assert Enabled(op, xs, w, DownLeaves(r));
      case Done => assert false;
    }
  }

  /** A broadcasting rank can finish, or hand its result to a child. */
  lemma BroadcastingMoves<T(!new)>(op: (T, T) -> T, xs: seq<T>, w: World<T>, r: nat)
    requires Inv(op, xs, w) && r < |w| && w[r].pc == Bcast
    ensures CanStep(op, xs, w)
  {
    var l, h := 2 * r + 1, 2 * r + 2;
    Children(r, l);
    Children(r, h);
    if l < |w| && w[l].down == Unsent {
      assert Next(op, xs, w, w[l := w[l].(down := InFlight(w[r].out))], DownLeaves(l));
      assert Enabled(op, xs, w, DownLeaves(l));
    } else if h < |w| && w[h].down == Unsent {
      assert Next(op, xs, w, w[h := w[h].(down := InFlight(w[r].out))], DownLeaves(h));
      assert Enabled(op, xs, w, DownLeaves(h));
    } else {
      assert Next(op, xs, w, w[r := w[r].(pc := Done)], Finish(r));
      assert Enabled(op, xs, w, Finish(r));
    }
  }

  /** No deadlock: in every reachable state in which some rank has not finished, some step is possible. */
  lemma NeverStuck<T(!new)>(op: (T, T) -> T, xs: seq<T>, ws: seq<World<T>>, acts: seq<Action>, n: nat, r: nat)
    requires Run(op, xs, ws, acts) && n < |ws| && r < |ws[n]| && ws[n][r].pc != Done
    ensures CanStep(op, xs, ws[n])
  {
    var w := ws[n];
    RunKeepsInv(op, xs, ws, acts, n);
    match w[r].pc
    case Idle =>
      assert Next(op, xs, w, w[r := w[r].(pc := Reduce, out := xs[r])], Start(r));
      assert Enabled(op, xs, w, Start(r));
    case Reduce => ReducingMoves(op, xs, w, r);
    case Exchange => ExchangingMoves(op, xs, w, r);
    case Bcast => BroadcastingMoves(op, xs, w, r);
  }

  // ----- termination -----

  ghost function Progress<T>(x: Rank<T>): nat {
    (match x.pc case Idle => 0 case Reduce => 1 case Exchange => 2 case Bcast => 3 case Done => 4)
    + (match x.up case Unsent => 0 case InFlight(_) => 1 case Arrived => 2)
    + (match x.down case Unsent => 0 case InFlight(_) => 1 case Arrived => 2)
  }

  ghost function Total<T>(w: World<T>): nat {
    if w == [] then 0 else Total(w[..|w|-1]) + Progress(w[|w|-1])
  }

  lemma {:induction false} TotalUpdate<T>(w: World<T>, r: nat, y: Rank<T>)
    requires r < |w|
    ensures Total(w[r := y]) + Progress(w[r]) == Total(w) + Progress(y)
  {
    var last := |w| - 1;
    if r == last {
      assert w[r := y][..last] == w[..last];
    } else {
      assert w[r := y][..last] == w[..last][r := y];
      TotalUpdate(w[..last], r, y);
    }
  }

  lemma {:induction false} TotalBound<T>(w: World<T>)
    ensures Total(w) <= 8 * |w|
  {
    if w != [] { TotalBound(w[..|w|-1]); }
  }

  lemma StepProgresses<T>(op: (T, T) -> T, xs: seq<T>, w: World<T>, w': World<T>, a: Action)
    requires Next(op, xs, w, w', a)
    ensures |w'| == |w| && Total(w') > Total(w)
  {
    hide Total;
    var r := a.r;
    if a.UpArrives? {
      var v := w[r := w[r].(up := Arrived)];
      Children(Parent(r), r);
      TotalUpdate(w, r, v[r]);
      TotalUpdate(v, Parent(r), w'[Parent(r)]);
    } else {
      TotalUpdate(w, r, w'[r]);
    }
  }

  /** Termination: a run on n ranks has at most 8n steps. */
  lemma {:induction false} RunIsBounded<T>(op: (T, T) -> T, xs: seq<T>, ws: seq<World<T>>, acts: seq<Action>, n: nat)
    requires Run(op, xs, ws, acts) && n < |ws|
    ensures n <= Total(ws[n]) <= 8 * |xs| && |ws[n]| == |xs|
  {
    if n > 0 {
      RunIsBounded(op, xs, ws, acts, n - 1);
      assert Next(op, xs, ws[n-1], ws[n-1+1], acts[n-1]);
      StepProgresses(op, xs, ws[n-1], ws[n], acts[n-1]);
    }
    TotalBound(ws[n]);
  }
}
