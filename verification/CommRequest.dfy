/**
  The scheduler of communicator requests: each request has a schedule of items, an item waits
  for its subrequests and then runs a callback, and callbacks may append items and start
  further requests.  Every run is a sequence of the operations below, with arbitrary callbacks.
*/
module CommRequest {
  import opened Collections

  /** `left` is subreq_count; `freed` are the subrequests that were freed, in order. */
  datatype Item = Item(id: int, subs: seq<int>, left: nat, retain: bool, freed: seq<int>)

  datatype State = Idle | Active | Complete

  const MAX_SUBREQ: nat := 2

  /** What a caller asked for: the callback, the subrequests it waits for, and whether they are kept. */
  datatype Spec = Spec(id: int, subs: seq<int>, retain: bool)

  function SpecOf(item: Item): Spec { Spec(item.id, item.subs, item.retain) }

  function Specs(s: seq<Item>): (r: seq<Spec>)
    ensures |r| == |s| && forall i :: 0 <= i < |s| ==> r[i] == SpecOf(s[i])
  {
    seq(|s|, i requires 0 <= i < |s| => SpecOf(s[i]))
  }

  /**
    The subrequests from `left` on were seen complete, and each was freed once, last first,
    unless they are retained.
  */
  ghost predicate ItemOk(item: Item, done: set<int>) {
    && item.left <= |item.subs| && (forall i :: item.left <= i < |item.subs| ==> item.subs[i] in done)
    && item.freed == if item.retain then [] else Reversed(item.subs[item.left..])
  }

  /** An item whose callback has run: all its subrequests were complete. */
  ghost predicate Finished(item: Item, done: set<int>) {
    item.left == 0 && ItemOk(item, done)
  }

  /** A request: its schedule, what was appended to it so far, and the items whose callbacks have run. */
  datatype Request = Request(state: State, schedule: seq<Item>, appended: seq<Spec>, ran: seq<Item>)

  /** Items run, then items scheduled, in the order in which they were appended; complete only when nothing is left. */
  ghost predicate ReqOk(q: Request, done: set<int>) {
    && q.appended == Specs(q.ran) + Specs(q.schedule) && (q.state == Complete ==> q.schedule == [])
    && (forall i :: 0 <= i < |q.ran| ==> Finished(q.ran[i], done))
    && (forall i :: 0 <= i < |q.schedule| ==> ItemOk(q.schedule[i], done))
  }

  function Appended(q: Request, item: Item): Request {
    q.(schedule := q.schedule + [item], appended := q.appended + [SpecOf(item)])
  }

  function Waits(q: Request, item: Item): Request
    requires q.schedule != []
  {
    q.(schedule := [item] + q.schedule[1..])
  }

  function Runs(q: Request, item: Item): Request
    requires q.schedule != []
  {
    q.(schedule := q.schedule[1..], ran := q.ran + [item])
  }

  lemma SpecsOf(item: Item, rest: seq<Item>)
    ensures Specs([item] + rest) == [SpecOf(item)] + Specs(rest) && Specs(rest + [item]) == Specs(rest) + [SpecOf(item)]
  {
  }

  lemma ReqAppend(q: Request, done: set<int>, item: Item)
    requires ReqOk(q, done) && ItemOk(item, done) && q.state != Complete
    ensures ReqOk(Appended(q, item), done)
  {
    hide ItemOk, Finished, Specs;
    SpecsOf(item, q.schedule);
  }

  lemma ReqWaits(q: Request, done: set<int>, item: Item)
    requires ReqOk(q, done) && q.schedule != [] && ItemOk(item, done) && SpecOf(item) == SpecOf(q.schedule[0])
    ensures ReqOk(Waits(q, item), done)
  {
    hide ItemOk, Finished, Specs;
    var rest := q.schedule[1..];
    assert q.schedule == [q.schedule[0]] + rest;
    SpecsOf(item, rest);
    SpecsOf(q.schedule[0], rest);
  }

  lemma ReqRuns(q: Request, done: set<int>, item: Item)
    requires ReqOk(q, done) && q.schedule != [] && Finished(item, done) && SpecOf(item) == SpecOf(q.schedule[0])
    ensures ReqOk(Runs(q, item), done)
  {
    hide ItemOk, Finished, Specs;
    var rest := q.schedule[1..];
    assert q.schedule == [q.schedule[0]] + rest;
    SpecsOf(q.schedule[0], rest);
    SpecsOf(item, q.ran);
  }

  lemma ReqDone(q: Request, done: set<int>, s: int)
    requires ReqOk(q, done)
    ensures ReqOk(q, done + {s})
  {
  }

  lemma FirstOk(q: Request, done: set<int>)
    requires ReqOk(q, done) && q.schedule != []
    ensures ItemOk(q.schedule[0], done) && q.state != Complete
  {
  }

  lemma ReqState(q: Request, done: set<int>, state: State)
    requires ReqOk(q, done) && (state == Complete ==> q.schedule == [])
    ensures ReqOk(q.(state := state), done)
  {
  }

  lemma EmptyHistory(done: set<int>)
    ensures ReqOk(Request(Idle, [], [], []), done)
  {
  }

  // ----- the frees of all requests together -----

  /** Subrequests given to be freed, by one item. */
  ghost function ToFree(spec: Spec): multiset<int> {
    if spec.retain then multiset{} else multiset(spec.subs)
  }

  ghost function AllToFree(specs: seq<Spec>): multiset<int> {
    if specs == [] then multiset{} else AllToFree(specs[..|specs|-1]) + ToFree(specs[|specs|-1])
  }

  /** Subrequests that an item has still to free. */
  ghost function Pending(item: Item): multiset<int> {
    if item.retain || item.left > |item.subs| then multiset{} else multiset(item.subs[..item.left])
  }

  ghost function AllPending(items: seq<Item>): multiset<int> {
    if items == [] then multiset{} else Pending(items[0]) + AllPending(items[1..])
  }

  /** What a request was given to free, and what of it is pending. */
  datatype Share = Given | Open

  ghost function Part(share: Share, q: Request): multiset<int> {
    if share == Given then AllToFree(q.appended) else AllPending(q.schedule)
  }

  /** A share summed over the requests of the list. */
  ghost function Total(share: Share, reqs: map<int, Request>, list: seq<int>): multiset<int> {
    if list == [] then multiset{} else
      var r := list[|list|-1];
      Total(share, reqs, list[..|list|-1]) + (if r in reqs then Part(share, reqs[r]) else multiset{})
  }

  lemma {:induction false} TotalSame(share: Share, reqs: map<int, Request>, r: int, q: Request, list: seq<int>)
    requires r !in list || (r in reqs && Part(share, q) == Part(share, reqs[r]))
    ensures Total(share, reqs[r := q], list) == Total(share, reqs, list)
  {
    if list != [] {
      TotalSame(share, reqs, r, q, list[..|list|-1]);
    }
  }

  lemma {:induction false} TotalUpdate(share: Share, reqs: map<int, Request>, list: seq<int>, r: int, q: Request)
    requires NoDup(list) && r in list && r in reqs
    ensures Total(share, reqs[r := q], list) + Part(share, reqs[r]) == Total(share, reqs, list) + Part(share, q)
  {
    var l := |list| - 1;
    if list[l] == r {
      TotalSame(share, reqs, r, q, list[..l]);
    } else {
      assert r in list[..l] by { InFront(list, r); }
      TotalUpdate(share, reqs, list[..l], r, q);
      var x := if list[l] in reqs then Part(share, reqs[list[l]]) else multiset{};
      Added(Total(share, reqs[r := q], list[..l]), Part(share, reqs[r]),
            Total(share, reqs, list[..l]), Part(share, q), x);
    }
  }

  lemma Added(a: multiset<int>, b: multiset<int>, c: multiset<int>, d: multiset<int>, x: multiset<int>)
    requires a + b == c + d
    ensures (a + x) + b == (c + x) + d
  {
    assert (a + x) + b == (a + b) + x && (c + x) + d == (c + d) + x;
  }

  lemma InFront(list: seq<int>, r: int)
    requires r in list && list[|list|-1] != r
    ensures r in list[..|list|-1]
  {
    assert list == list[..|list|-1] + [list[|list|-1]];
  }

  lemma TotalNew(share: Share, reqs: map<int, Request>, list: seq<int>, r: int, q: Request)
    requires r !in list
    ensures Total(share, reqs[r := q], list + [r]) == Total(share, reqs, list) + Part(share, q)
  {
    assert (list + [r])[..|list|] == list;
    TotalSame(share, reqs, r, q, list);
  }

  /** What was freed and what is pending is together what was given to be freed. */
  ghost predicate Ledger(frees: seq<int>, reqs: map<int, Request>, all: seq<int>) {
    && NoDup(all) && (forall r :: r in all <==> r in reqs)
    && multiset(frees) + Total(Open, reqs, all) == Total(Given, reqs, all)
  }

  lemma LedgerNew(frees: seq<int>, reqs: map<int, Request>, all: seq<int>, r: int)
    requires Ledger(frees, reqs, all) && r !in reqs
    ensures Ledger(frees, reqs[r := Request(Idle, [], [], [])], all + [r])
  {
    TotalNew(Open, reqs, all, r, Request(Idle, [], [], []));
    TotalNew(Given, reqs, all, r, Request(Idle, [], [], []));
  }

  /** A request may free some of what it has pending, and be given more. */
  lemma LedgerUpdate(frees: seq<int>, more: seq<int>, reqs: map<int, Request>, all: seq<int>, r: int, q: Request)
    requires Ledger(frees, reqs, all) && r in reqs
    requires multiset(more) + Part(Open, q) + Part(Given, reqs[r]) == Part(Open, reqs[r]) + Part(Given, q)
    ensures Ledger(frees + more, reqs[r := q], all)
  {
    hide Part;
    TotalUpdate(Open, reqs, all, r, q);
    TotalUpdate(Given, reqs, all, r, q);
    hide Total;
    assert multiset(frees + more) == multiset(frees) + multiset(more);
    LedgerSum(multiset(frees), multiset(more), Total(Open, reqs, all), Total(Open, reqs[r := q], all),
              Total(Given, reqs, all), Total(Given, reqs[r := q], all),
              Part(Open, reqs[r]), Part(Open, q), Part(Given, reqs[r]), Part(Given, q));
  }

  lemma LedgerSum(frees: multiset<int>, more: multiset<int>, open: multiset<int>, open': multiset<int>,
                  given: multiset<int>, given': multiset<int>,
                  o: multiset<int>, o': multiset<int>, g: multiset<int>, g': multiset<int>)
    requires frees + open == given && open' + o == open + o' && given' + g == given + g' && more + o' + g == o + g'
    ensures frees + more + open' == given'
  {
    forall x ensures (frees + more + open')[x] == given'[x] {
      assert (frees + open)[x] == given[x] && (open' + o)[x] == (open + o')[x] && (given' + g)[x] == (given + g')[x];
      assert (more + o' + g)[x] == (o + g')[x];
    }
  }

  lemma {:induction false} PendingWith(items: seq<Item>, item: Item)
    ensures AllPending(items + [item]) == AllPending(items) + Pending(item)
  {
    if items == [] {
      assert items + [item] == [item];
    } else {
      PendingWith(items[1..], item);
      assert (items + [item])[1..] == items[1..] + [item];
    }
  }

  lemma AppendShares(q: Request, item: Item)
    requires item.left == |item.subs|
    ensures Part(Open, Appended(q, item)) == Part(Open, q) + Pending(item)
    ensures Part(Given, Appended(q, item)) == Part(Given, q) + Pending(item)
  {
    PendingWith(q.schedule, item);
    assert Appended(q, item).appended[..|q.appended|] == q.appended && item.subs[..item.left] == item.subs;
  }

  lemma LedgerAppend(frees: seq<int>, reqs: map<int, Request>, all: seq<int>, r: int, item: Item)
    requires Ledger(frees, reqs, all) && r in reqs && item.left == |item.subs|
    ensures Ledger(frees, reqs[r := Appended(reqs[r], item)], all)
  {
    hide Ledger, Part, Pending;
    var q := reqs[r];
    AppendShares(q, item);
    assert multiset{} + (Part(Open, q) + Pending(item)) == Part(Open, q) + Pending(item);
    Regrouped(Part(Open, q), Part(Given, q), Pending(item));
    assert frees + [] == frees;
    LedgerUpdate(frees, [], reqs, all, r, Appended(q, item));
  }

  lemma Regrouped(a: multiset<int>, b: multiset<int>, x: multiset<int>)
    ensures (a + x) + b == a + (b + x)
  {
  }

  /** The first item frees subrequests and waits again, or has freed all and runs. */
  lemma LedgerFree(frees: seq<int>, more: seq<int>, reqs: map<int, Request>, all: seq<int>, r: int, item: Item)
    requires Ledger(frees, reqs, all) && r in reqs && reqs[r].schedule != []
    requires Pending(reqs[r].schedule[0]) == Pending(item) + multiset(more)
    ensures Ledger(frees + more, reqs[r := Waits(reqs[r], item)], all)
    ensures item.left == 0 ==> Ledger(frees + more, reqs[r := Runs(reqs[r], item)], all)
  {
    hide Ledger;
    LedgerUpdate(frees, more, reqs, all, r, Waits(reqs[r], item));
    if item.left == 0 {
      LedgerUpdate(frees, more, reqs, all, r, Runs(reqs[r], item));
    }
  }

  lemma LedgerState(frees: seq<int>, reqs: map<int, Request>, all: seq<int>, r: int, state: State)
    requires Ledger(frees, reqs, all) && r in reqs
    ensures Ledger(frees, reqs[r := reqs[r].(state := state)], all)
  {
    assert frees + [] == frees;
    LedgerUpdate(frees, [], reqs, all, r, reqs[r].(state := state));
  }

  ghost predicate AllIn(l: seq<int>, done: set<int>) {
    forall x :: x in l ==> x in done
  }

  ghost predicate AtMostOnce(s: multiset<int>) {
    forall x :: s[x] <= 1
  }

  lemma {:induction false} OnceIsNoDup(s: seq<int>)
    ensures NoDup(s) <==> AtMostOnce(multiset(s))
  {
    if s != [] {
      var l := |s| - 1;
      OnceIsNoDup(s[..l]);
      assert s == s[..l] + [s[l]];
      assert multiset(s) == multiset(s[..l]) + multiset{s[l]};
      if NoDup(s) {
        forall x ensures multiset(s)[x] <= 1 {
          assert multiset(s[..l])[x] <= 1;
        }
      } else if NoDup(s[..l]) {
        var i, j :| 0 <= i < j < |s| && s[i] == s[j];
        assert j == l && s[l] == s[..l][i];
        assert multiset(s)[s[l]] == multiset(s[..l])[s[l]] + 1;
      } else {
        var x :| multiset(s[..l])[x] > 1;
        assert multiset(s)[x] > 1;
      }
    }
  }

  lemma {:induction false} NothingOpen(reqs: map<int, Request>, list: seq<int>)
    requires forall r :: r in reqs ==> reqs[r].schedule == []
    ensures Total(Open, reqs, list) == multiset{}
  {
    if list != [] {
      NothingOpen(reqs, list[..|list|-1]);
    }
  }

  /** No subrequest is freed twice if none is given twice; and when all schedules are empty, only if. */
  lemma FreedOnce(frees: seq<int>, reqs: map<int, Request>, all: seq<int>)
    requires Ledger(frees, reqs, all)
    ensures AtMostOnce(Total(Given, reqs, all)) ==> NoDup(frees)
    ensures (forall r :: r in reqs ==> reqs[r].schedule == []) ==> multiset(frees) == Total(Given, reqs, all)
    ensures (forall r :: r in reqs ==> reqs[r].schedule == []) ==>
              (NoDup(frees) <==> AtMostOnce(Total(Given, reqs, all)))
  {
    OnceIsNoDup(frees);
    if AtMostOnce(Total(Given, reqs, all)) {
      forall x ensures multiset(frees)[x] <= 1 {
        assert (multiset(frees) + Total(Open, reqs, all))[x] <= 1;
      }
    }
    if forall r :: r in reqs ==> reqs[r].schedule == [] {
      NothingOpen(reqs, all);
    }
  }

  datatype Action =
    Create(r: int) | AppendItem(r: int, id: int, subs: seq<int>, retain: bool) | StartReq(r: int) | SubDone(s: int)

  datatype Op = Do(action: Action) | Begin | VisitNext(actions: seq<Action>) | End

  function Remove(s: seq<int>, r: int): seq<int> {
    if s == [] then [] else if s[0] == r then s[1..] else [s[0]] + Remove(s[1..], r)
  }

  lemma {:induction false} RemoveIs(s: seq<int>, r: int)
    requires NoDup(s)
    ensures NoDup(Remove(s, r)) && forall x :: x in Remove(s, r) <==> x in s && x != r
  {
    if s != [] {
      RemoveIs(s[1..], r);
      assert s == [s[0]] + s[1..] && s[0] !in s[1..];
    }
  }

  /** The element after r, or -1. */
  function After(s: seq<int>, r: int): int {
    if s == [] then -1 else if s[0] == r then (if |s| > 1 then s[1] else -1) else After(s[1..], r)
  }

  lemma {:induction false} AfterIs(s: seq<int>, r: int)
    requires NoDup(s)
    ensures After(s, r) == -1 || (After(s, r) in s && After(s, r) != r)
  {
    if s != [] {
      AfterIs(s[1..], r);
      if |s| > 1 { assert s[1] in s; }
    }
  }

  /** The list holds exactly the requests in the given state. */
  ghost predicate Lists(l: seq<int>, reqs: map<int, Request>, state: State) {
    NoDup(l) && forall r :: r in l <==> r in reqs && reqs[r].state == state
  }

  /** A change that leaves the states of all requests alone. */
  lemma ListsSame(l: seq<int>, reqs: map<int, Request>, state: State, r: int, q: Request)
    requires Lists(l, reqs, state) && r in reqs && q.state == reqs[r].state
    ensures Lists(l, reqs[r := q], state)
  {
  }

  lemma ListsMore(l: seq<int>, reqs: map<int, Request>, state: State, r: int, q: Request)
    requires Lists(l, reqs, state) && (r in reqs ==> reqs[r].state != state)
    ensures q.state == state ==> Lists(l + [r], reqs[r := q], state)
    ensures q.state != state ==> Lists(l, reqs[r := q], state)
  {
  }

  lemma ListsLess(l: seq<int>, reqs: map<int, Request>, state: State, r: int, q: Request)
    requires Lists(l, reqs, state) && r in l && q.state != state
    ensures Lists(Remove(l, r), reqs[r := q], state)
  {
    RemoveIs(l, r);
  }

  lemma ListsNext(l: seq<int>, reqs: map<int, Request>, state: State, r: int)
    requires Lists(l, reqs, state)
    ensures After(l, r) == -1 || (After(l, r) in l && After(l, r) != r)
    ensures forall x :: x in Remove(l, r) <==> x in l && x != r
  {
    AfterIs(l, r);
    RemoveIs(l, r);
  }

  /**
    What holds of a request for its callers: callbacks ran once each, in the order of their
    items, on complete subrequests freed once.
  */
  ghost predicate Served(q: Request, done: set<int>) {
    && Specs(q.ran) <= q.appended && (q.state == Complete ==> Specs(q.ran) == q.appended)
    && forall i :: 0 <= i < |q.ran| ==>
         AllDone(q.ran[i], done) && q.ran[i].freed == if q.ran[i].retain then [] else Reversed(q.ran[i].subs)
  }

  lemma ReqServed(q: Request, done: set<int>)
    requires ReqOk(q, done)
    ensures Served(q, done)
  {
    forall i | 0 <= i < |q.ran| ensures q.ran[i].freed == if q.ran[i].retain then [] else Reversed(q.ran[i].subs) {
      assert Finished(q.ran[i], done);
      assert q.ran[i].subs[0..] == q.ran[i].subs;
    }
  }

  /** No item that was appended and no callback that has run is forgotten. */
  ghost predicate Later(before: map<int, Request>, after: map<int, Request>) {
    forall r :: r in before ==> r in after && before[r].ran <= after[r].ran && before[r].appended <= after[r].appended
  }

  lemma LaterStill(a: map<int, Request>, b: map<int, Request>, c: map<int, Request>)
    requires Later(a, b) && Later(b, c)
    ensures Later(a, c)
  {
  }

  lemma LaterWith(reqs: map<int, Request>, r: int, q: Request)
    requires r in reqs ==> reqs[r].ran <= q.ran && reqs[r].appended <= q.appended
    ensures Later(reqs, reqs[r := q])
  {
  }

  ghost predicate AllDone(item: Item, done: set<int>) {
    forall i :: 0 <= i < |item.subs| ==> item.subs[i] in done
  }

  /** From item0 to item, with the subrequests in `more` freed. */
  ghost predicate Tested(item0: Item, item: Item, more: seq<int>, done: set<int>) {
    && ItemOk(item, done) && SpecOf(item) == SpecOf(item0) && item.freed == item0.freed + more
    && Pending(item0) == Pending(item) + multiset(more)
  }

  lemma TestStart(item: Item, done: set<int>)
    requires ItemOk(item, done)
    ensures Tested(item, item, [], done)
  {
  }

  lemma PendingLess(item: Item, freed: seq<int>)
    requires 0 < item.left <= |item.subs|
    ensures var less := item.(left := item.left - 1, freed := freed);
            Pending(item) == Pending(less) + if item.retain then multiset{} else multiset{item.subs[item.left - 1]}
  {
    var l := item.left - 1;
    assert item.subs[..l+1] == item.subs[..l] + [item.subs[l]];
  }

  lemma FreeOne(item: Item, done: set<int>, freed: seq<int>)
    requires ItemOk(item, done) && item.left > 0 && item.subs[item.left - 1] in done
    requires freed == if item.retain then item.freed else item.freed + [item.subs[item.left - 1]]
    ensures ItemOk(item.(left := item.left - 1, freed := freed), done)
  {
    var l := item.left - 1;
    assert item.subs[l..][0] == item.subs[l] && item.subs[l..][1..] == item.subs[l+1..];
  }

  lemma TestStep(item0: Item, item: Item, more: seq<int>, done: set<int>)
    requires Tested(item0, item, more, done) && item.left > 0 && ItemOk(item, done) && item.subs[item.left - 1] in done
    ensures var sub := item.subs[item.left - 1];
            var freed := if item.retain then item.freed else item.freed + [sub];
            Tested(item0, item.(left := item.left - 1, freed := freed),
              if item.retain then more else more + [sub], done)
  {
    hide ItemOk, Pending;
    TestedBounds(item0, item, more, done);
    var sub := item.subs[item.left - 1];
    var freed := if item.retain then item.freed else item.freed + [sub];
    FreeOne(item, done, freed);
    PendingLess(item, freed);
    assert multiset(more + [sub]) == multiset(more) + multiset{sub};
  }

  lemma TestedBounds(item0: Item, item: Item, more: seq<int>, done: set<int>)
    requires Tested(item0, item, more, done)
    ensures item.left <= |item.subs| && ItemOk(item, done)
  {
  }

  /** The loop ends at 0, or at a subrequest that is not complete. */
  lemma TestEnd(item0: Item, item: Item, more: seq<int>, done: set<int>)
    requires Tested(item0, item, more, done)
    requires (item.left > 0 ==> item.left <= |item.subs| && item.subs[item.left - 1] !in done)
    ensures item.left == 0 <==> AllDone(item0, done)
  {
  }

  // ----- one step of the scheduler -----

  /** The state of the scheduler as a value. */
  datatype Sched = Sched(reqs: map<int, Request>, active: seq<int>, registered: bool, inPass: bool, next: int,
                         done: set<int>, frees: seq<int>, completions: seq<int>)

  /** What callbacks and the rest of the program may do; whatever is not allowed is skipped. */
  ghost function Applied(s: Sched, a: Action): Sched {
    match a
    case Create(r) =>
      if r in s.reqs || r == -1 then s else s.(reqs := s.reqs[r := Request(Idle, [], [], [])])
    case AppendItem(r, id, subs, retain) =>
      if r in s.reqs && s.reqs[r].state != Complete && |subs| <= MAX_SUBREQ
      then s.(reqs := s.reqs[r := Appended(s.reqs[r], Item(id, subs, |subs|, retain, []))]) else s
    case StartReq(r) =>
      if r in s.reqs && s.reqs[r].state == Idle
      then s.(reqs := s.reqs[r := s.reqs[r].(state := Active)], active := s.active + [r], registered := true) else s
    case SubDone(x) => s.(done := s.done + {x})
  }

  ghost function AppliedAll(s: Sched, actions: seq<Action>): Sched {
    if actions == [] then s else Applied(AppliedAll(s, actions[..|actions|-1]), actions[|actions|-1])
  }

  /** The first item of request r, tested: its callback has run with all it does, or it waits for a subrequest. */
  ghost predicate FirstTested(s: Sched, t: Sched, r: int, actions: seq<Action>, item: Item, more: seq<int>) {
    && r in s.reqs && s.reqs[r].schedule != [] && Tested(s.reqs[r].schedule[0], item, more, s.done)
    && (item.left > 0 ==> item.left <= |item.subs| && item.subs[item.left - 1] !in s.done)
    && t == if item.left == 0
            then AppliedAll(s.(reqs := s.reqs[r := Runs(s.reqs[r], item)], frees := s.frees + more), actions)
            else s.(reqs := s.reqs[r := Waits(s.reqs[r], item)], frees := s.frees + more)
  }

  ghost predicate FirstDone(s: Sched, t: Sched, r: int, actions: seq<Action>) {
    exists item, more :: FirstTested(s, t, r, actions, item, more)
  }

  /** An empty schedule completes request r. */
  ghost function Completed(s: Sched, r: int): Sched {
    if r in s.reqs && s.reqs[r].schedule == []
    then s.(reqs := s.reqs[r := s.reqs[r].(state := Complete)], active := Remove(s.active, r),
            completions := s.completions + [r])
    else s
  }

  /** One round of the loop in ompi_comm_request_progress. */
  ghost predicate Visited(s: Sched, t: Sched, actions: seq<Action>) {
    var on := s.(next := After(s.active, s.next));
    && s.next in s.reqs
    && if s.reqs[s.next].schedule == [] then t == Completed(on, s.next)
       else exists u :: FirstDone(on, u, s.next, actions) && t == Completed(u, s.next)
  }

  ghost predicate Stepped(s: Sched, t: Sched, op: Op) {
    match op
    case Do(a) => t == Applied(s, a)
    case Begin => t == if s.inPass then s else s.(inPass := true, next := if s.active == [] then -1 else s.active[0])
    case VisitNext(actions) => if s.inPass && s.next != -1 then Visited(s, t, actions) else t == s
    case End =>
      t == if s.inPass && s.next == -1 then s.(inPass := false, registered := s.registered && s.active != []) else s
  }

  /** The request that the loop is at has a first item whose subrequests are complete. */
  ghost predicate Due(s: Sched) {
    s.inPass && s.next in s.reqs && s.reqs[s.next].schedule != [] && AllDone(s.reqs[s.next].schedule[0], s.done)
  }

  /** The first item of the request that the loop was at has run. */
  ghost predicate FirstRan(s: Sched, t: Sched)
    requires Due(s)
  {
    && s.next in t.reqs
    && Specs(t.reqs[s.next].ran) == Specs(s.reqs[s.next].ran) + [SpecOf(s.reqs[s.next].schedule[0])]
  }

  lemma {:induction false} AppliedKeeps(s: Sched, actions: seq<Action>, r: int)
    requires r in s.reqs
    ensures r in AppliedAll(s, actions).reqs && AppliedAll(s, actions).reqs[r].ran == s.reqs[r].ran
  {
    if actions != [] {
      AppliedKeeps(s, actions[..|actions|-1], r);
    }
  }

  lemma FirstIs(s: Sched, t: Sched, r: int, actions: seq<Action>, item: Item, more: seq<int>)
    requires FirstTested(s, t, r, actions, item, more)
    ensures FirstDone(s, t, r, actions)
  {
  }

  /** The callback of the first item has run, as that item, exactly if its subrequests were complete. */
  lemma FirstRuns(s: Sched, t: Sched, r: int, actions: seq<Action>)
    requires FirstDone(s, t, r, actions)
    ensures r in t.reqs && r in s.reqs && s.reqs[r].schedule != []
    ensures if AllDone(s.reqs[r].schedule[0], s.done)
            then Specs(t.reqs[r].ran) == Specs(s.reqs[r].ran) + [SpecOf(s.reqs[r].schedule[0])]
            else t.reqs[r].ran == s.reqs[r].ran
    ensures forall x :: x in s.reqs && x != r ==> x in t.reqs && t.reqs[x].ran == s.reqs[x].ran
  {
    hide Specs, AllDone, AppliedAll, ItemOk, Pending;
    var item, more :| FirstTested(s, t, r, actions, item, more);
    TestEnd(s.reqs[r].schedule[0], item, more, s.done);
    if item.left == 0 {
      SpecsOf(item, s.reqs[r].ran);
      var v := s.(reqs := s.reqs[r := Runs(s.reqs[r], item)], frees := s.frees + more);
      forall x | x in s.reqs ensures x in t.reqs && t.reqs[x].ran == v.reqs[x].ran {
        AppliedKeeps(v, actions, x);
      }
    }
  }

  /** In a round the callback of the first item runs, as that item, exactly when its subrequests are complete. */
  lemma VisitRuns(s: Sched, t: Sched, actions: seq<Action>)
    requires s.inPass && Visited(s, t, actions)
    ensures s.next in t.reqs
    ensures if Due(s) then Specs(t.reqs[s.next].ran) == Specs(s.reqs[s.next].ran) + [SpecOf(s.reqs[s.next].schedule[0])]
            else t.reqs[s.next].ran == s.reqs[s.next].ran
    ensures forall r :: r in s.reqs && r != s.next ==> r in t.reqs && t.reqs[r].ran == s.reqs[r].ran
  {
    hide Specs, AllDone, FirstDone, Remove, After;
    if s.reqs[s.next].schedule != [] {
      var on := s.(next := After(s.active, s.next));
      var u :| FirstDone(on, u, s.next, actions) && t == Completed(u, s.next);
      FirstRuns(on, u, s.next, actions);
    }
  }

  lemma VisitedVia(s: Sched, u: Sched, t: Sched, actions: seq<Action>)
    requires s.next in s.reqs && s.next in u.reqs
    requires var on := s.(next := After(s.active, s.next));
             if s.reqs[s.next].schedule == [] then u == on else FirstDone(on, u, s.next, actions)
    requires t == if u.reqs[s.next].schedule == [] then Completed(u, s.next) else u
    ensures Visited(s, t, actions)
  {
    hide FirstDone;
  }

  // ----- a pass over the active requests -----

  /** The list from r on. */
  ghost function From(l: seq<int>, r: int): seq<int> {
    if l == [] then [] else if l[0] == r then l else From(l[1..], r)
  }

  lemma {:induction false} FromMore(l: seq<int>, more: seq<int>, r: int)
    requires r in l
    ensures From(l + more, r) == From(l, r) + more
  {
    assert (l + more)[0] == l[0];
    if l[0] != r {
      assert l == [l[0]] + l[1..];
      FromMore(l[1..], more, r);
      assert (l + more)[1..] == l[1..] + more;
    }
  }

  /** The loop goes on to the request right behind r, whether r leaves the list or not. */
  lemma {:induction false} FromAfter(l: seq<int>, r: int)
    requires NoDup(l) && r in l
    ensures From(l, r) != [] && From(l, r)[0] == r
    ensures After(l, r) == if |From(l, r)| > 1 then From(l, r)[1] else -1
    ensures |From(l, r)| > 1 ==>
              var x := From(l, r)[1];
              x in l && x in Remove(l, r) && From(l, x) == From(Remove(l, r), x) == From(l, r)[1..]
  {
    if l[0] == r {
      if |l| > 1 {
        assert l[1..] == From(l, l[1]) by { assert From(l[1..], l[1]) == l[1..]; }
        assert Remove(l, r) == l[1..];
      }
    } else {
      assert l == [l[0]] + l[1..];
      FromAfter(l[1..], r);
      if |From(l, r)| > 1 {
        var x := From(l, r)[1];
        assert x in l[1..] && l[0] !in l[1..];
        assert Remove(l, r) == [l[0]] + Remove(l[1..], r) && Remove(l, r)[1..] == Remove(l[1..], r);
      }
    }
  }

  /** The requests that the pass has still to visit. */
  ghost function ToVisit(s: Sched): seq<int> {
    if s.inPass && s.next != -1 then From(s.active, s.next) else []
  }

  lemma {:induction false} AppliedActive(s: Sched, actions: seq<Action>) returns (more: seq<int>)
    ensures AppliedAll(s, actions).active == s.active + more
    ensures AppliedAll(s, actions).inPass == s.inPass && AppliedAll(s, actions).next == s.next
  {
    more := [];
    if actions != [] {
      more := AppliedActive(s, actions[..|actions|-1]);
      if AppliedAll(s, actions).active != s.active + more {
        more := more + [actions[|actions|-1].r];
      }
    }
  }

  /**
    A pass visits the requests that are active at its start, each once and in their order: a round
    takes the first one off, and nothing else takes one off or comes in between.
  */
  lemma RoundTakesFirst(s: Sched, t: Sched, actions: seq<Action>) returns (more: seq<int>)
    requires Visited(s, t, actions) && s.inPass && NoDup(s.active) && s.next in s.active && -1 !in s.active
    ensures ToVisit(s) != [] && ToVisit(s)[0] == s.next
    ensures if |ToVisit(s)| > 1 then ToVisit(t) == ToVisit(s)[1..] + more else ToVisit(t) == []
  {
    hide Specs, AllDone, FirstDone, AppliedAll;
    FromAfter(s.active, s.next);
    var on := s.(next := After(s.active, s.next));
    var u := on;
    more := [];
    if s.reqs[s.next].schedule != [] {
      u :| FirstDone(on, u, s.next, actions) && t == Completed(u, s.next);
      more := FirstActive(on, u, s.next, actions);
    }
    assert s.active + [] == s.active;
    if |ToVisit(s)| > 1 {
      RestKept(s.active, s.next, more, on.next);
    }
  }

  lemma FirstActive(s: Sched, t: Sched, r: int, actions: seq<Action>) returns (more: seq<int>)
    requires FirstDone(s, t, r, actions)
    ensures t.active == s.active + more && t.inPass == s.inPass && t.next == s.next
  {
    hide AppliedAll, Tested, Specs;
    var item, more0 :| FirstTested(s, t, r, actions, item, more0);
    if item.left == 0 {
      more := AppliedActive(s.(reqs := s.reqs[r := Runs(s.reqs[r], item)], frees := s.frees + more0), actions);
    } else {
      more := [];
    }
  }

  lemma RestKept(l: seq<int>, r: int, more: seq<int>, x: int)
    requires NoDup(l) && r in l && |From(l, r)| > 1 && x == From(l, r)[1]
    ensures From(l + more, x) == From(l, r)[1..] + more
    ensures From(Remove(l + more, r), x) == From(l, r)[1..] + more
  {
    FromAfter(l, r);
    FromMore(l, more, x);
    RemoveMore(l, more, r);
    FromMore(Remove(l, r), more, x);
  }

  lemma {:induction false} RemoveMore(l: seq<int>, more: seq<int>, r: int)
    requires r in l
    ensures Remove(l + more, r) == Remove(l, r) + more
  {
    assert (l + more)[0] == l[0] && (l + more)[1..] == l[1..] + more;
    if l[0] != r {
      assert l == [l[0]] + l[1..];
      RemoveMore(l[1..], more, r);
    }
  }

  /** Other operations add requests at the end at most; a pass starts with all that are active. */
  lemma OthersKeepRest(s: Sched, t: Sched, op: Op) returns (more: seq<int>)
    requires Stepped(s, t, op) && !op.VisitNext? && (s.inPass && s.next != -1 ==> s.next in s.active)
    ensures s.inPass ==> ToVisit(t) == ToVisit(s) + more
    ensures op.Begin? && !s.inPass && -1 !in s.active ==> ToVisit(t) == s.active
  {
    more := [];
    if op.Do? {
      assert AppliedAll(s, [op.action]) == t by { assert [op.action][..0] == []; }
      more := AppliedActive(s, [op.action]);
      if s.inPass && s.next != -1 {
        FromMore(s.active, more, s.next);
      } else {
        more := [];
      }
    } else if op.Begin? && s.active != [] {
      assert s.active[0] in s.active;
    }
  }

  class Scheduler {
    var reqs: map<int, Request>
    var active: seq<int>
    /** The progress function is registered. */
    var registered: bool
    /** The position of the loop over the active requests; -1 at its end. */
    var inPass: bool
    var next: int
    /** Subrequests that are complete. */
    var done: set<int>
    /** Subrequests in the order in which they were freed, for all requests. */
    var frees: seq<int>
    /** All requests, in the order of their creation. */
    ghost var all: seq<int>
    /** Requests in the order in which they were completed. */
    var completions: seq<int>

    ghost function View(): Sched
      reads this
    {
      Sched(reqs, active, registered, inPass, next, done, frees, completions)
    }

    ghost predicate Valid()
      reads this
    {
      && -1 !in reqs && (forall r :: r in reqs ==> ReqOk(reqs[r], done))
      && Lists(active, reqs, Active) && Lists(completions, reqs, Complete)
      && (active != [] ==> registered) && (inPass && next != -1 ==> next in active)
      && Ledger(frees, reqs, all) && AllIn(frees, done)
    }

    constructor ()
      ensures Valid() && active == [] && completions == [] && reqs == map[] && frees == [] && all == [] && done == {}
      ensures !inPass
    {
      reqs, active, registered := map[], [], false;
      inPass, next, done, completions := false, -1, {}, [];
      frees, all := [], [];
    }

    /** ompi_comm_request_get */
    method NewRequest(r: int)
      requires Valid() && r !in reqs && r != -1
      modifies `reqs, `all
      ensures Valid() && reqs == old(reqs)[r := Request(Idle, [], [], [])] && all == old(all) + [r]
    {
      hide ReqOk, Lists, Ledger, AllIn;
      LedgerNew(frees, reqs, all, r);
      EmptyHistory(done);
      ListsMore(active, reqs, Active, r, Request(Idle, [], [], []));
      ListsMore(completions, reqs, Complete, r, Request(Idle, [], [], []));
      reqs := reqs[r := Request(Idle, [], [], [])];
      all := all + [r];
    }

    /** ompi_comm_request_schedule_append: too many subrequests are refused. */
    method Append(r: int, id: int, subs: seq<int>, retain: bool) returns (ok: bool)
      requires Valid() && r in reqs && reqs[r].state != Complete
      modifies `reqs
      ensures Valid() && (ok <==> |subs| <= MAX_SUBREQ)
      ensures reqs == if ok then old(reqs)[r := Appended(old(reqs)[r], Item(id, subs, |subs|, retain, []))]
                else old(reqs)
    {
      hide Ledger, AllIn;
      if |subs| > MAX_SUBREQ {
        return false;
      }
      hide ReqOk, Lists, Ledger, AllIn;
      var item := Item(id, subs, |subs|, retain, []);
      LedgerAppend(frees, reqs, all, r, item);
      ReqAppend(reqs[r], done, item);
      ListsSame(active, reqs, Active, r, Appended(reqs[r], item));
      ListsSame(completions, reqs, Complete, r, Appended(reqs[r], item));
      reqs := reqs[r := Appended(reqs[r], item)];
      ok := true;
    }

    /** ompi_comm_request_start */
    method Start(r: int)
      requires Valid() && r in reqs && reqs[r].state == Idle
      modifies `active, `registered, `reqs
      ensures Valid() && active == old(active) + [r] && reqs == old(reqs)[r := old(reqs)[r].(state := Active)]
      ensures registered
    {
      hide ReqOk, Lists, Ledger, AllIn;
      ReqState(reqs[r], done, Active);
      LedgerState(frees, reqs, all, r, Active);
      ListsMore(active, reqs, Active, r, reqs[r].(state := Active));
      ListsMore(completions, reqs, Complete, r, reqs[r].(state := Active));
      active := active + [r];
      if !registered {
        registered := true;
      }
      reqs := reqs[r := reqs[r].(state := Active)];
    }

    /** A subrequest completes. */
    method Finish(s: int)
      requires Valid()
      modifies `done
      ensures Valid() && done == old(done) + {s}
    {
      hide ReqOk, Lists, Ledger;
      assert AllIn(frees, done + {s});
      forall r | r in reqs ensures ReqOk(reqs[r], done + {s}) {
        ReqDone(reqs[r], done, s);
      }
      done := done + {s};
    }

    /** What callbacks and the rest of the program may do. */
    method Apply(a: Action)
      requires Valid()
      modifies `reqs, `all, `active, `registered, `done
      ensures View() == Applied(old(View()), a)
      ensures Valid() && old(active) <= active && Later(old(reqs), reqs)
      ensures forall r :: r in old(reqs) ==>
                r in reqs && reqs[r].ran == old(reqs)[r].ran
                && (old(reqs)[r].state != Idle ==> reqs[r].state == old(reqs)[r].state)
    {
      hide ReqOk, Lists, Ledger, AllIn;
      match a
      case Create(r) =>
        if r !in reqs && r != -1 {
          NewRequest(r);
        }
      case AppendItem(r, id, subs, retain) =>
        if r in reqs && reqs[r].state != Complete {
          var ok := Append(r, id, subs, retain);
        }
      case StartReq(r) =>
        if r in reqs && reqs[r].state == Idle {
          Start(r);
        }
      case SubDone(s) =>
        Finish(s);
    }

    /** A callback, run without the lock. */
    method RunCallback(actions: seq<Action>)
      requires Valid()
      modifies `reqs, `all, `active, `registered, `done
      ensures View() == AppliedAll(old(View()), actions)
      ensures Valid() && old(active) <= active && Later(old(reqs), reqs)
      ensures forall r :: r in old(reqs) ==>
                r in reqs && reqs[r].ran == old(reqs)[r].ran
                && (old(reqs)[r].state != Idle ==> reqs[r].state == old(reqs)[r].state)
      ensures actions == [] ==> reqs == old(reqs) && all == old(all) && done == old(done)
    {
      hide ReqOk, Lists, Ledger, AllIn, Applied;
      for i := 0 to |actions|
        invariant View() == AppliedAll(old(View()), actions[..i])
        invariant Valid() && old(active) <= active && Later(old(reqs), reqs)
        invariant forall r :: r in old(reqs) ==>
                    r in reqs && reqs[r].ran == old(reqs)[r].ran
                    && (old(reqs)[r].state != Idle ==> reqs[r].state == old(reqs)[r].state)
        invariant i == 0 ==> reqs == old(reqs) && all == old(all) && done == old(done)
      {
        assert actions[..i+1][..i] == actions[..i];
        Apply(actions[i]);
      }
      assert actions[..|actions|] == actions;
    }

    method BeginPass()
      requires Valid() && !inPass
      modifies `inPass, `next
      ensures Valid() && inPass && next == if active == [] then -1 else active[0]
    {
      hide ReqOk, Lists, Ledger, AllIn;
      inPass := true;
      next := if active == [] then -1 else active[0];
    }

    /** The loop over the subrequests of an item, from the last one on, up to one that is not complete. */
    method Test(item0: Item) returns (item: Item, ghost more: seq<int>)
      requires ItemOk(item0, done) && AllIn(frees, done)
      modifies `frees
      ensures Tested(item0, item, more, done) && frees == old(frees) + more && AllIn(frees, done)
      ensures item.left > 0 ==> item.left <= |item.subs| && item.subs[item.left - 1] !in done
      ensures item.left == 0 <==> AllDone(item0, done)
    {
      hide Tested, ItemOk, Pending, AllDone;
      item, more := item0, [];
      TestStart(item0, done);
      while item.left > 0
        invariant frees == old(frees) + more && Tested(item0, item, more, done) && AllIn(frees, done)
        decreases item.left
      {
        TestedBounds(item0, item, more, done);
        var sub := item.subs[item.left - 1];
        if sub in done {
          TestStep(item0, item, more, done);
          if !item.retain {
            frees := frees + [sub];
            more := more + [sub];
          }
          item := item.(left := item.left - 1, freed := if item.retain then item.freed else item.freed + [sub]);
        } else {
          break;
        }
      }
      TestEnd(item0, item, more, done);
    }

    /** The first item of the schedule: wait for its subrequests, or run its callback. */
    method RunFirst(r: int, actions: seq<Action>)
      requires Valid() && r in reqs && reqs[r].state == Active && reqs[r].schedule != []
      modifies `reqs, `all, `active, `registered, `done, `frees
      ensures FirstDone(old(View()), View(), r, actions)
      ensures Valid() && r in reqs && reqs[r].state == Active && old(active) <= active && Later(old(reqs), reqs)
      ensures if AllDone(old(reqs)[r].schedule[0], old(done))
                then Specs(reqs[r].ran) == Specs(old(reqs)[r].ran) + [SpecOf(old(reqs)[r].schedule[0])]
              else reqs[r].ran == old(reqs)[r].ran && active == old(active)
      ensures forall x :: x in old(reqs) && x != r ==> x in reqs && reqs[x].ran == old(reqs)[x].ran
      ensures old(frees) <= frees
      ensures actions == [] && AllDone(old(reqs)[r].schedule[0], old(done)) ==>
                all == old(all) && done == old(done) && reqs.Keys == old(reqs).Keys
      ensures actions == [] && AllDone(old(reqs)[r].schedule[0], old(done)) ==>
                reqs[r].schedule == old(reqs)[r].schedule[1..] && reqs[r].appended == old(reqs)[r].appended
    {
      hide ReqOk, Lists, Ledger, AllIn, Pending, ItemOk, AllDone, Specs, FirstDone, AppliedAll;
      FirstOk(reqs[r], done);
      ghost var frees0 := frees;
      var item, more := Test(reqs[r].schedule[0]);
      LedgerFree(frees0, more, reqs, all, r, item);
      if item.left == 0 {
        ReqRuns(reqs[r], done, item);
        SpecsOf(item, reqs[r].ran);
        ListsSame(active, reqs, Active, r, Runs(reqs[r], item));
        ListsSame(completions, reqs, Complete, r, Runs(reqs[r], item));
        LaterWith(reqs, r, Runs(reqs[r], item));
        reqs := reqs[r := Runs(reqs[r], item)];
        label ran:
        RunCallback(actions);
        LaterStill(old(reqs), old@ran(reqs), reqs);
        FirstIs(old(View()), View(), r, actions, item, more);
      } else {
        ReqWaits(reqs[r], done, item);
        ListsSame(active, reqs, Active, r, Waits(reqs[r], item));
        ListsSame(completions, reqs, Complete, r, Waits(reqs[r], item));
        LaterWith(reqs, r, Waits(reqs[r], item));
        reqs := reqs[r := Waits(reqs[r], item)];
        FirstIs(old(View()), View(), r, actions, item, more);
      }
    }

    /** An empty schedule completes the request, once. */
    method FinishRequest(r: int)
      requires Valid() && r in reqs && reqs[r].state == Active && reqs[r].schedule == [] && inPass && next != r
      modifies `active, `reqs, `completions
      ensures View() == Completed(old(View()), r)
      ensures Valid() && reqs == old(reqs)[r := old(reqs)[r].(state := Complete)]
      ensures completions == old(completions) + [r] && r !in active
    {
      hide Ledger, AllIn;
      ActiveHas(active, reqs, r);
      hide ReqOk, Lists, Ledger, AllIn;
      ReqState(reqs[r], done, Complete);
      LedgerState(frees, reqs, all, r, Complete);
      ListsLess(active, reqs, Active, r, reqs[r].(state := Complete));
      ListsMore(completions, reqs, Complete, r, reqs[r].(state := Complete));
      ListsNext(active, reqs, Active, r);
      active := Remove(active, r);
      reqs := reqs[r := reqs[r].(state := Complete)];
      completions := completions + [r];
    }

    /** One round of the loop in ompi_comm_request_progress. */
    method Visit(actions: seq<Action>)
      requires Valid() && inPass && next != -1
      modifies this
      ensures Valid() && inPass && old(next) in reqs
      ensures (reqs[old(next)].state == Complete <==> reqs[old(next)].schedule == [])
      ensures completions == if reqs[old(next)].state == Complete then old(completions) + [old(next)]
                else old(completions)
      ensures Later(old(reqs), reqs)
      ensures old(frees) <= frees
      ensures actions == [] && old(next) in old(reqs) && old(reqs)[old(next)].schedule != []
              && AllDone(old(reqs)[old(next)].schedule[0], old(done)) ==>
                && all == old(all) && done == old(done) && reqs.Keys == old(reqs).Keys
                && reqs[old(next)].schedule == old(reqs)[old(next)].schedule[1..]
                && reqs[old(next)].appended == old(reqs)[old(next)].appended
      ensures next == After(old(active), old(next)) && reqs[old(next)].state != Idle
      ensures Visited(old(View()), View(), actions)
      ensures if old(Due(View())) then FirstRan(old(View()), View())
              else reqs[old(next)].ran == old(reqs)[old(next)].ran
    {
      hide ReqOk, Lists, Ledger, AllIn, FirstDone, Visited, Due, Specs, Completed, AllDone, After;
      var request := next;
      ActiveHas(active, reqs, request);
      ListsNext(active, reqs, Active, request);
      next := After(active, request);
      if reqs[request].schedule != [] {
        RunFirst(request, actions);
      }
      ghost var u := View();
      if reqs[request].schedule == [] {
        label ran:
        FinishRequest(request);
        LaterWith(old@ran(reqs), request, reqs[request]);
        LaterStill(old(reqs), old@ran(reqs), reqs);
      }
      VisitedVia(old(View()), u, View(), actions);
      VisitRuns(old(View()), View(), actions);
    }

    /** The end of ompi_comm_request_progress: without active requests the function is unregistered. */
    method EndPass()
      requires Valid() && inPass && next == -1
      modifies `inPass, `registered
      ensures Valid() && !inPass && (registered <==> old(registered) && active != [])
    {
      hide ReqOk, Lists, Ledger, AllIn;
      if |active| == 0 {
        registered := false;
      }
      inPass := false;
    }

    /**
      Any run.  `trace` are its states: each operation does its step, and a round at a request whose
      first item is due runs the callback of that item.
    */
    method Run(ops: seq<Op>) returns (ghost trace: seq<Sched>)
      requires Valid()
      modifies this
      ensures |trace| == |ops| + 1 && trace[0] == old(View()) && trace[|ops|] == View()
      ensures forall i :: 0 <= i < |ops| ==> Stepped(trace[i], trace[i+1], ops[i])
      ensures forall i :: 0 <= i < |ops| && ops[i].VisitNext? && Due(trace[i]) ==> FirstRan(trace[i], trace[i+1])
      ensures Valid() && Later(old(reqs), reqs) && old(completions) <= completions
      ensures (forall r :: r in reqs ==> Served(reqs[r], done)) && (active != [] ==> registered)
      ensures NoDup(completions) && forall r :: r in completions <==> r in reqs && reqs[r].state == Complete
      ensures old(frees) <= frees && AllIn(frees, done)
      ensures AtMostOnce(Total(Given, reqs, all)) ==> NoDup(frees)
      ensures (forall r :: r in reqs ==> reqs[r].schedule == []) ==>
                (NoDup(frees) <==> AtMostOnce(Total(Given, reqs, all)))
    {
      hide Ledger, AllIn, Stepped, Due, FirstRan;
      trace := [View()];
      for i := 0 to |ops|
        invariant |trace| == i + 1 && trace[0] == old(View()) && trace[i] == View()
        invariant forall x :: 0 <= x < i ==> Stepped(trace[x], trace[x+1], ops[x])
        invariant forall x :: 0 <= x < i && ops[x].VisitNext? && Due(trace[x]) ==> FirstRan(trace[x], trace[x+1])
        invariant Valid() && Later(old(reqs), reqs) && old(completions) <= completions && old(frees) <= frees
      {
        Do(ops[i]);
        trace := trace + [View()];
      }
      FreedOnce(frees, reqs, all);
      forall r | r in reqs ensures Served(reqs[r], done) {
        ReqServed(reqs[r], done);
      }
    }

    /** One operation of a run; one that is not possible now changes nothing. */
    method Do(op: Op)
      requires Valid()
      modifies this
      ensures Stepped(old(View()), View(), op)
      ensures op.VisitNext? && old(Due(View())) ==> FirstRan(old(View()), View())
      ensures Valid() && Later(old(reqs), reqs) && old(completions) <= completions && old(frees) <= frees
    {
      hide ReqOk, Lists, Ledger, AllIn, Visited, Applied;
      match op
      case Do(a) => Apply(a);
      case Begin => if !inPass { BeginPass(); }
      case VisitNext(actions) => if inPass && next != -1 { Visit(actions); }
      case End => if inPass && next == -1 { EndPass(); }
    }
  }

  /** A request with two items that wait for the same subrequest, which is complete. */
  method Shared() returns (s: Scheduler)
    ensures fresh(s) && s.Valid() && s.inPass && s.next == 0 && s.active == [0] && s.all == [0] && s.done == {7}
    ensures s.reqs.Keys == {0} && s.reqs[0].state == Active
    ensures s.reqs[0].schedule == [Item(1, [7], 1, false, []), Item(2, [7], 1, false, [])]
    ensures s.reqs[0].appended == [Spec(1, [7], false), Spec(2, [7], false)]
  {
    s := new Scheduler();
    hide Ledger, Lists, ReqOk, AllIn;
    s.NewRequest(0);
    var ok := s.Append(0, 1, [7], false);
    ok := s.Append(0, 2, [7], false);
    s.Start(0);
    s.Finish(7);
    s.BeginPass();
  }

  /** A subrequest given to two items is freed twice. */
  method GivenTwice() returns (s: Scheduler)
    ensures fresh(s) && s.Valid() && !NoDup(s.frees)
  {
    s := Shared();
    hide Ledger, Lists, ReqOk, AllIn, Visited, Due;
    s.Visit([]);
    OnlyActive(s.active, s.reqs, 0);
    s.EndPass();
    s.BeginPass();
    s.Visit([]);
    TwiceIsTwice(s.frees, s.reqs, s.all);
  }

  lemma OnlyActive(active: seq<int>, reqs: map<int, Request>, r: int)
    requires Lists(active, reqs, Active) && reqs.Keys == {r} && reqs[r].state == Active
    ensures active != [] && active[0] == r
  {
    assert r in active && active[0] in active;
  }

  lemma TwiceIsTwice(frees: seq<int>, reqs: map<int, Request>, all: seq<int>)
    requires Ledger(frees, reqs, all) && all == [0] && 0 in reqs && reqs.Keys == {0} && reqs[0].schedule == []
    requires reqs[0].appended == [Spec(1, [7], false), Spec(2, [7], false)]
    ensures !NoDup(frees)
  {
    var given := Total(Given, reqs, all);
    assert all[..0] == [];
    assert given == Total(Given, reqs, []) + Part(Given, reqs[0]);
    var specs := reqs[0].appended;
    assert specs[..1] == [Spec(1, [7], false)] && specs[..1][..0] == [];
    assert AllToFree(specs[..1]) == multiset{7};
    assert given[7] == 2;
    FreedOnce(frees, reqs, all);
  }

  lemma ActiveHas(active: seq<int>, reqs: map<int, Request>, r: int)
    requires Lists(active, reqs, Active)
    ensures r in active <==> r in reqs && reqs[r].state == Active
  {
  }
}
