/**
  mca_btl_tcp2_frag_recv and its caller: an incremental parser over scatter buffers with a
  read-ahead cache.  However the socket chops the stream, the fragments delivered are the
  frames of the stream, and no byte is lost or duplicated.
*/
module TcpReceive {
  import opened Collections
  import opened TcpFrames

  /** An entry of the scatter list: the buffer before iov_base, and the iov_len bytes from it on. */
  datatype Iov = Iov(got: seq<byte>, next: seq<byte>)

  /** Entries to come have received nothing yet, but for the first. */
  ghost predicate Lined(todo: seq<Iov>) {
    forall i :: 0 < i < |todo| ==> todo[i].got == []
  }

  /** The bytes of the fragment so far. */
  ghost function Held(done: seq<seq<byte>>, todo: seq<Iov>): seq<byte> {
    Concat(done) + if todo == [] then [] else todo[0].got
  }

  /** What is in the buffers where the next bytes go. */
  ghost function Ahead(todo: seq<Iov>): seq<byte> {
    if todo == [] then [] else todo[0].next + Ahead(todo[1..])
  }

  /** Bytes stored from iov_base on. */
  function Put(v: Iov, b: seq<byte>): (r: Iov)
    requires |b| <= |v.next|
    ensures r.got == v.got && |r.next| == |v.next|
  {
    v.(next := b + v.next[|b|..])
  }

  /** Bytes stored into the buffers of the list, in order. */
  function Written(s: seq<Iov>, b: seq<byte>): (r: seq<Iov>)
    ensures |r| == |s|
  {
    if s == [] then [] else
      var n := Min(|b|, |s[0].next|);
      [Put(s[0], b[..n])] + Written(s[1..], b[n..])
  }

  /** The buffers hold b ahead, as far as there is room. */
  ghost predicate HoldsAhead(a: seq<byte>, b: seq<byte>) {
    var n := Min(|a|, |b|);
    a[..n] == b[..n]
  }

  lemma AheadOfTwo(x: seq<byte>, a: seq<byte>, b: seq<byte>, n: nat)
    requires n == Min(|b|, |x|) && x[..n] == b[..n] && HoldsAhead(a, b[n..])
    ensures HoldsAhead(x + a, b)
  {
    if n == |x| {
      assert x == b[..n];
      var m := Min(|x + a|, |b|);
      assert (x + a)[..m] == x + a[..m - n];
      assert b[..m] == b[..n] + b[n..][..m - n];
    } else {
      assert (x + a)[..n] == x[..n];
    }
  }

  lemma {:induction false} WrittenAhead(s: seq<Iov>, b: seq<byte>)
    ensures |Ahead(Written(s, b))| == |Ahead(s)| && HoldsAhead(Ahead(Written(s, b)), b)
  {
    if s != [] {
      var n := Min(|b|, |s[0].next|);
      var r, rest := Put(s[0], b[..n]), Written(s[1..], b[n..]);
      WrittenAhead(s[1..], b[n..]);
      assert Written(s, b) == [r] + rest && ([r] + rest)[1..] == rest;
      assert r.next[..n] == b[..n];
      AheadOfTwo(r.next, Ahead(rest), b, n);
    }
  }

  lemma {:induction false} WrittenSame(s: seq<Iov>, b: seq<byte>)
    ensures forall i :: 0 <= i < |s| ==> Written(s, b)[i].got == s[i].got && |Written(s, b)[i].next| == |s[i].next|
  {
    if s != [] {
      var n := Min(|b|, |s[0].next|);
      WrittenSame(s[1..], b[n..]);
    }
  }

  lemma {:induction false} WriteNothing(s: seq<Iov>)
    ensures Written(s, []) == s
  {
    if s != [] {
      WriteNothing(s[1..]);
      assert Put(s[0], []) == s[0];
    }
  }

  // ----- counting bytes into the entries -----

  /** From the lists (done0, todo0), d bytes further on. */
  ghost predicate Counted(done0: seq<seq<byte>>, todo0: seq<Iov>, done: seq<seq<byte>>, todo: seq<Iov>, d: nat) {
    && Lined(todo) && done0 <= done && |done| + |todo| == |done0| + |todo0| && d <= |Ahead(todo0)|
    && Held(done, todo) == Held(done0, todo0) + Ahead(todo0)[..d] && Ahead(todo) == Ahead(todo0)[d..]
  }

  lemma MoveOn(held: seq<byte>, a: seq<byte>, d: nat, x: seq<byte>, rest: seq<byte>)
    requires d <= |a| && a[d..] == x + rest
    ensures d + |x| <= |a| && held + a[..d] + x == held + a[..d + |x|] && a[d + |x|..] == rest
  {
    assert a[..d + |x|] == a[..d] + a[d..][..|x|];
    assert a[d + |x|..] == a[d..][|x|..];
  }

  /** Part of the current entry. */
  lemma CountPart(done0: seq<seq<byte>>, todo0: seq<Iov>, done: seq<seq<byte>>, todo: seq<Iov>, d: nat, k: nat)
    requires Counted(done0, todo0, done, todo, d) && todo != [] && k < |todo[0].next|
    ensures var v := todo[0];
            Counted(done0, todo0, done, todo[0 := Iov(v.got + v.next[..k], v.next[k..])], d + k)
            && d + k < |Ahead(todo0)|
  {
    var v := todo[0];
    var t := todo[0 := Iov(v.got + v.next[..k], v.next[k..])];
    assert t[1..] == todo[1..];
    var x, rest := v.next[..k], v.next[k..] + Ahead(todo[1..]);
    assert Ahead(todo) == x + rest;
    MoveOn(Held(done0, todo0), Ahead(todo0), d, x, rest);
    assert Held(done, t) == Held(done, todo) + x;
  }

  /** All of the current entry. */
  lemma CountEntry(done0: seq<seq<byte>>, todo0: seq<Iov>, done: seq<seq<byte>>, todo: seq<Iov>, d: nat)
    requires Counted(done0, todo0, done, todo, d) && todo != []
    ensures var v := todo[0];
            Counted(done0, todo0, done + [v.got + v.next], todo[1..], d + |v.next|)
  {
    var v := todo[0];
    MoveOn(Held(done0, todo0), Ahead(todo0), d, v.next, Ahead(todo[1..]));
    var done' := done + [v.got + v.next];
    assert done'[..|done|] == done;
    assert Held(done', todo[1..]) == Held(done, todo) + v.next;
  }

  lemma CountNone(done: seq<seq<byte>>, todo: seq<Iov>)
    requires Lined(todo)
    ensures Counted(done, todo, done, todo, 0)
  {
  }

  lemma CountFacts(done0: seq<seq<byte>>, todo0: seq<Iov>, done: seq<seq<byte>>, todo: seq<Iov>, d: nat)
    requires Counted(done0, todo0, done, todo, d)
    ensures Lined(todo) && d <= |Ahead(todo0)| && (todo == [] ==> d == |Ahead(todo0)|)
  {
  }

  // ----- writing bytes into the entries -----

  /** The entries of s0 are those written, with the first c bytes of b, and those left for the rest of b. */
  ghost predicate Filling(s0: seq<Iov>, b: seq<byte>, wrote: seq<Iov>, left: seq<Iov>, c: nat, rest: seq<byte>) {
    && Written(s0, b) == wrote + Written(left, rest) && c <= |b| && rest == b[c..]
    && Min(|b|, |Ahead(s0)|) == c + Min(|rest|, |Ahead(left)|)
  }

  lemma FillNone(s: seq<Iov>, b: seq<byte>)
    ensures Filling(s, b, [], s, 0, b)
  {
  }

  lemma FillNext(s0: seq<Iov>, b: seq<byte>, wrote: seq<Iov>, left: seq<Iov>, c: nat, rest: seq<byte>, n: nat)
    requires Filling(s0, b, wrote, left, c, rest) && left != [] && n == Min(|rest|, |left[0].next|)
    ensures Filling(s0, b, wrote + [Put(left[0], rest[..n])], left[1..], c + n, rest[n..])
  {
    var v, t := Put(left[0], rest[..n]), Written(left[1..], rest[n..]);
    assert Written(left, rest) == [v] + t;
    hide *;
    assert wrote + ([v] + t) == wrote + [v] + t;
    Tail(b, c, n);
  }

  lemma Tail(b: seq<byte>, c: nat, n: nat)
    requires c + n <= |b|
    ensures b[c..][n..] == b[c + n..]
  {
  }

  /** All entries written, or all bytes: the work is done. */
  lemma FillDone(s0: seq<Iov>, b: seq<byte>, wrote: seq<Iov>, left: seq<Iov>, c: nat, rest: seq<byte>)
    requires Filling(s0, b, wrote, left, c, rest) && (left == [] || rest == [])
    ensures wrote + left == Written(s0, b) && rest == b[Min(|b|, |Ahead(s0)|)..]
  {
    if rest == [] {
      WriteNothing(left);
    }
  }

  lemma UseInPlace(v: Iov, b: seq<byte>)
    requires |b| == |v.next|
    ensures Put(v, b) == Iov(v.got, b)
  {
  }

  // ----- the list follows the frame -----

  /** An unfinished list: its entries end where the frame is known to go on to. */
  ghost predicate Layout(done: seq<seq<byte>>, todo: seq<Iov>, nbo: bool) {
    && todo != [] && Lined(todo) && Ahead(todo) != []
    && |Held(done, todo)| + |Ahead(todo)| == Need(Held(done, todo), nbo)
    && Stages(done, |todo|, Need(Held(done, todo), nbo), nbo)
  }

  /** Which entries there are, and where they end: the header; a payload or segment descriptors; the segments' data. */
  ghost predicate Stages(done: seq<seq<byte>>, more: nat, end: nat, nbo: bool) {
    && (done == [] ==> more == 1 && end == HDR)
    && (done != [] ==> |done[0]| == HDR && Later(done, HeaderOf(done[0], nbo), more, end))
  }

  ghost predicate Later(done: seq<seq<byte>>, h: Header, more: nat, end: nat) {
    && (|done| == 1 ==> more == 1 && h.kind in {SEND, PUT})
    && (|done| == 1 ==> end == HDR + if h.kind == SEND then h.size else h.count * SEG)
    && (|done| >= 2 ==> h.kind == PUT && |done[1]| == h.count * SEG && |done| + more == 2 + h.count)
  }

  /** The length of the frame does not change before it is reached. */
  lemma NeedUntil(f: seq<byte>, s: seq<byte>, nbo: bool)
    requires f <= s && |f| < Need(f, nbo)
    ensures |s| < Need(f, nbo) ==> Need(s, nbo) == Need(f, nbo)
  {
    hide HeaderOf, SegLens, Total;
    if HDR <= |f| {
      HeaderSame(f, s, nbo);
      var e := HDR + HeaderOf(f, nbo).count * SEG;
      if |f| >= e { assert f[HDR..e] == s[HDR..e]; }
    }
  }

  lemma HeldDone(done: seq<seq<byte>>)
    ensures Held(done, []) == Concat(done)
    ensures done != [] ==> done[0] <= Concat(done)
    ensures |done| == 1 ==> Concat(done) == done[0]
  {
    if done != [] {
      ConcatCons(done);
      assert Concat(done)[..|done[0]|] == done[0];
    }
  }

  /** After counting, the list is still unfinished, or the known end of the frame is reached. */
  lemma LayoutCounted(done0: seq<seq<byte>>, todo0: seq<Iov>, done: seq<seq<byte>>, todo: seq<Iov>, d: nat, nbo: bool)
    requires Layout(done0, todo0, nbo) && Counted(done0, todo0, done, todo, d) && (todo == [] <==> d == |Ahead(todo0)|)
    ensures todo != [] ==> |Held(done, todo)| + |Ahead(todo)| == Need(Held(done, todo), nbo) && Ahead(todo) != []
    ensures todo == [] ==> |Held(done, todo)| == Need(Held(done0, todo0), nbo) && Held(done0, todo0) <= Held(done, todo)
  {
    var f, s := Held(done0, todo0), Held(done, todo);
    assert s[..|f|] == f;
    NeedUntil(f, s, nbo);
  }

  /** A list without entries to come: how far it is into its frame. */
  ghost predicate AtEnd(done: seq<seq<byte>>, nbo: bool) {
    && done != [] && |done[0]| == HDR
    && (|done| == 2 && HeaderOf(done[0], nbo).kind == PUT ==> |done[1]| == HeaderOf(done[0], nbo).count * SEG)
    && (|done| == 2 && HeaderOf(done[0], nbo).kind != PUT ==> |Concat(done)| == Need(Concat(done), nbo))
    && (|done| >= 3 ==> |Concat(done)| == Need(Concat(done), nbo))
  }

  lemma StagesKept(done0: seq<seq<byte>>, more0: nat, done: seq<seq<byte>>, more: nat, end: nat, nbo: bool)
    requires Stages(done0, more0, end, nbo) && done0 <= done && |done| + more == |done0| + more0 && more > 0
    ensures Stages(done, more, end, nbo)
  {
  }

  /** Once the header and the descriptors are there, the length of the frame is final. */
  lemma FinalNeed(f: seq<byte>, s: seq<byte>, nbo: bool)
    requires HDR <= |f| && f <= s && |f| < Need(f, nbo)
    requires HeaderOf(f, nbo).kind == PUT ==> |f| >= HDR + HeaderOf(f, nbo).count * SEG
    ensures Need(s, nbo) == Need(f, nbo)
  {
    hide HeaderOf, SegLens, Total;
    HeaderSame(f, s, nbo);
    var e := HDR + HeaderOf(f, nbo).count * SEG;
    if |f| >= e { assert f[HDR..e] == s[HDR..e]; }
  }

  lemma HeaderHeld(done: seq<seq<byte>>, todo: seq<Iov>, nbo: bool)
    requires done != [] && |done[0]| == HDR
    ensures HDR <= |Held(done, todo)| && HeaderOf(Held(done, todo), nbo) == HeaderOf(done[0], nbo)
    ensures |done| >= 2 ==> |Held(done, todo)| >= HDR + |done[1]|
    ensures |done| == 2 ==> |Concat(done)| == HDR + |done[1]|
  {
    hide HeaderOf;
    HeldDone(done);
    var f := Held(done, todo);
    assert f[..HDR] == done[0];
    HeaderSame(done[0], f, nbo);
    if |done| >= 2 {
      ConcatCons(done);
      ConcatCons(done[1..]);
      if |done| == 2 { assert done[1..][1..] == []; }
    }
  }

  lemma ReachesEnd(done0: seq<seq<byte>>, f: seq<byte>, more: nat, done: seq<seq<byte>>, nbo: bool)
    requires more > 0 && Stages(done0, more, Need(f, nbo), nbo) && done0 <= done && |done| == |done0| + more
    requires |Concat(done)| == Need(f, nbo) > |f| && f <= Concat(done)
    requires done0 != [] ==>
               HDR <= |f| && HeaderOf(f, nbo) == HeaderOf(done0[0], nbo) && (|done0| >= 2 ==> |f| >= HDR + |done0[1]|)
    ensures AtEnd(done, nbo)
  {
    hide HeaderOf, Need;
    HeldDone(done);
    if done0 != [] {
      HeaderHeld(done, [], nbo);
      var h := HeaderOf(done[0], nbo);
      if h.kind != PUT || |done0| >= 2 {
        FinalNeed(f, Concat(done), nbo);
      }
    }
  }

  // ----- the entries that follow -----

  function Fresh(n: nat): (v: Iov)
    ensures v.got == [] && |v.next| == n
  {
    Iov([], seq(n, _ => 0))
  }

  function FreshAll(lens: seq<nat>): (r: seq<Iov>)
    ensures |r| == |lens| && forall i :: 0 <= i < |r| ==> r[i].got == []
  {
    seq(|lens|, i requires 0 <= i < |lens| => Fresh(lens[i]))
  }

  lemma {:induction false} FreshAhead(lens: seq<nat>)
    ensures |Ahead(FreshAll(lens))| == Total(lens)
  {
    if lens != [] {
      FreshAhead(lens[1..]);
      assert FreshAll(lens)[1..] == FreshAll(lens[1..]);
    }
  }

  /** What is appended to the list when all its entries are full; nothing when the frame is complete. */
  function NextEntries(done: seq<seq<byte>>, nbo: bool): (r: seq<Iov>)
    requires done != [] && |done[0]| == HDR
    requires |done| == 2 && HeaderOf(done[0], nbo).kind == PUT ==> |done[1]| == HeaderOf(done[0], nbo).count * SEG
  {
    var h := HeaderOf(done[0], nbo);
    if |done| == 1 && h.kind == SEND && h.size > 0 then [Fresh(h.size)]
    else if |done| == 1 && h.kind == PUT then [Fresh(h.count * SEG)]
    else if |done| == 2 && h.kind == PUT then FreshAll(SegLens(done[1], h.count))
    else []
  }

  lemma NextFirst(done: seq<seq<byte>>, nbo: bool)
    requires AtEnd(done, nbo) && FrameOk(Concat(done), nbo) && |done| == 1
    ensures NextEntries(done, nbo) == [] ==> Complete(Concat(done), nbo)
    ensures NextEntries(done, nbo) != [] ==> Layout(done, NextEntries(done, nbo), nbo)
  {
    hide HeaderOf, SegLens, Total, NoneEmpty, Concat, Held, Ahead, FreshAll;
    HeldDone(done);
    var next := NextEntries(done, nbo);
    if next != [] {
      HeldFresh(done, next);
      AheadOne(next[0]);
    }
  }

  lemma AheadOne(v: Iov)
    ensures Ahead([v]) == v.next
  {
  }

  lemma HeldFresh(done: seq<seq<byte>>, next: seq<Iov>)
    requires next != [] && next[0].got == []
    ensures Held(done, next) == Concat(done)
  {
  }

  lemma NextSecond(done: seq<seq<byte>>, nbo: bool)
    requires AtEnd(done, nbo) && FrameOk(Concat(done), nbo) && |done| == 2 && HeaderOf(done[0], nbo).kind == PUT
    ensures NextEntries(done, nbo) != [] && Layout(done, NextEntries(done, nbo), nbo)
  {
    hide HeaderOf, SegLens, Total, NoneEmpty, Ahead, FreshAll;
    HeldDone(done);
    HeaderHeld(done, [], nbo);
    var h := HeaderOf(done[0], nbo);
    ConcatCons(done);
    assert done[1..] == [done[1]] && Concat([done[1]]) == done[1];
    var e := HDR + h.count * SEG;
    assert Concat(done)[HDR..e] == done[1];
    var next := NextEntries(done, nbo);
    FreshAhead(SegLens(done[1], h.count));
    TotalPositive(SegLens(done[1], h.count));
    HeldFresh(done, next);
  }

  lemma NextLayout(done: seq<seq<byte>>, nbo: bool)
    requires AtEnd(done, nbo) && FrameOk(Concat(done), nbo)
    ensures NextEntries(done, nbo) == [] ==> Complete(Concat(done), nbo)
    ensures NextEntries(done, nbo) != [] ==> Layout(done, NextEntries(done, nbo), nbo)
    ensures |done| == 2 && HeaderOf(done[0], nbo).kind == PUT ==> NextEntries(done, nbo) != []
  {
    hide Layout, FrameOk, Need, HeaderOf;
    if |done| == 1 {
      NextFirst(done, nbo);
    } else if |done| == 2 && HeaderOf(done[0], nbo).kind == PUT {
      NextSecond(done, nbo);
    }
  }

  lemma TotalPositive(lens: seq<nat>)
    requires lens != [] && NoneEmpty(lens)
    ensures Total(lens) > 0
  {
  }

  // ----- one transfer of bytes into the list -----

  /** Storing bytes keeps the list's layout. */
  lemma WrittenLayout(done: seq<seq<byte>>, todo: seq<Iov>, b: seq<byte>, nbo: bool)
    requires Layout(done, todo, nbo)
    ensures Layout(done, Written(todo, b), nbo) && Held(done, Written(todo, b)) == Held(done, todo)
  {
    WrittenSame(todo, b);
    WrittenAhead(todo, b);
    hide Written, Ahead;
    assert Written(todo, b)[0].got == todo[0].got;
  }

  /** The first bytes of b go to the fragment and the rest stays in the cache. */
  lemma TransferKeeps(done0: seq<seq<byte>>, todo0: seq<Iov>, b: seq<byte>, done: seq<seq<byte>>, todo: seq<Iov>,
                      m: nat)
    requires m == Min(|b|, |Ahead(Written(todo0, b))|) && Counted(done0, Written(todo0, b), done, todo, m)
    requires Held(done0, Written(todo0, b)) == Held(done0, todo0)
    ensures Held(done, todo) + b[m..] == Held(done0, todo0) + b
  {
    WrittenAhead(todo0, b);
    var a := Ahead(Written(todo0, b));
    hide Written, Ahead, Held, Lined;
    assert a[..m] == b[..m];
    assert b == b[..m] + b[m..];
  }

  lemma TransferLayout(done0: seq<seq<byte>>, w: seq<Iov>, done: seq<seq<byte>>, todo: seq<Iov>, m: nat, nbo: bool)
    requires Layout(done0, w, nbo) && Counted(done0, w, done, todo, m) && (todo == [] <==> m == |Ahead(w)|)
    ensures todo != [] ==> Layout(done, todo, nbo)
    ensures todo == [] ==> AtEnd(done, nbo)
  {
    hide Need, Ahead, AtEnd, Held, HeaderOf;
    LayoutCounted(done0, w, done, todo, m, nbo);
    var f := Held(done0, w);
    if todo != [] {
      NeedKept(done0, w, done, todo, m, nbo);
      StagesKept(done0, |w|, done, |todo|, Need(f, nbo), nbo);
    } else {
      HeldDone(done);
      if done0 != [] { HeaderHeld(done0, w, nbo); }
      ReachesEnd(done0, f, |w|, done, nbo);
    }
  }

  lemma NeedKept(done0: seq<seq<byte>>, w: seq<Iov>, done: seq<seq<byte>>, todo: seq<Iov>, m: nat, nbo: bool)
    requires Layout(done0, w, nbo) && Counted(done0, w, done, todo, m) && m < |Ahead(w)|
    ensures Need(Held(done, todo), nbo) == Need(Held(done0, w), nbo)
  {
    var f, s := Held(done0, w), Held(done, todo);
    hide Ahead, Held, Need, Stages;
    assert s[..|f|] == f;
    NeedUntil(f, s, nbo);
  }

  lemma LayoutLined(done: seq<seq<byte>>, todo: seq<Iov>, nbo: bool)
    requires Layout(done, todo, nbo)
    ensures Lined(todo) && todo != [] && |Ahead(todo)| > 0
  {
  }

  lemma CountedLists(done0: seq<seq<byte>>, todo0: seq<Iov>, done: seq<seq<byte>>, todo: seq<Iov>, d: nat)
    requires Counted(done0, todo0, done, todo, d)
    ensures done0 <= done && |done| + |todo| == |done0| + |todo0|
  {
  }

  /** The frame at the start of a stream of frames is of a known kind. */
  lemma KnownKind(f: seq<byte>, rest: seq<byte>, s: seq<byte>, nbo: bool)
    requires StreamOk(s, nbo) && f + rest == s
    ensures FrameOk(f, nbo)
  {
    assert s[..|f|] == f;
    NeedSame(f, s, nbo);
  }

  lemma FreshNext(segs: seq<byte>, i: nat)
    requires (i + 1) * SEG <= |segs|
    ensures FreshAll(SegLens(segs, i)) + [Fresh(SegLen(segs, i))] == FreshAll(SegLens(segs, i + 1))
  {
    var lens := SegLens(segs, i + 1);
    assert lens[..i] == SegLens(segs, i) && lens[i] == SegLen(segs, i);
  }

  lemma FirstLayout(nbo: bool)
    ensures Layout([], [Fresh(HDR)], nbo) && Held([], [Fresh(HDR)]) == []
  {
  }

  lemma LayoutPartial(done: seq<seq<byte>>, todo: seq<Iov>, nbo: bool)
    requires Layout(done, todo, nbo)
    ensures Partial(Held(done, todo), nbo)
  {
  }

  function Room(todo: seq<Iov>): (r: nat)
    ensures r == |Ahead(todo)|
  {
    if todo == [] then 0 else |todo[0].next| + Room(todo[1..])
  }

  /** What is left in the socket gets no more, and less if it is due to. */
  ghost predicate Shrinks(before: nat, after: nat, due: bool) {
    after <= before && (due ==> after < before)
  }

  lemma ShrinksMore(a: nat, b: nat, c: nat, due: bool)
    requires Shrinks(a, b, due) && (Shrinks(b, c, true) || Shrinks(b, c, false))
    ensures Shrinks(a, c, due)
  {
  }

  lemma Rejoined(held: seq<byte>, b': seq<byte>, socket: seq<byte>, held0: seq<byte>, x: seq<byte>, b: seq<byte>,
                 sock0: seq<byte>)
    requires held + b' == held0 + x && x + socket == b + sock0
    ensures held + b' + socket == held0 + b + sock0
  {
    assert held0 + x + socket == held0 + (x + socket) && held0 + b + sock0 == held0 + (b + sock0);
  }

  class Endpoint {
    const nbo: bool
    var cache: seq<byte>
    var pos: nat
    var length: nat
    /**
      The scatter list of the fragment: the entries done (iov_idx of them) and those to come
      (iov_cnt, from iov_ptr on).
    */
    var done: seq<seq<byte>>
    var todo: seq<Iov>
    /** What the peer has sent and this side has not read yet. */
    var socket: seq<byte>
    /** The fragments handed to the upper layer. */
    var delivered: seq<seq<byte>>

    /** All bytes of the stream: delivered, in the current fragment, in the cache, or not read yet. */
    ghost predicate Keeps(stream: seq<byte>, b: seq<byte>)
      reads this
    {
      Concat(delivered) + (Held(done, todo) + b + socket) == stream && forall f :: f in delivered ==> Complete(f, nbo)
    }

    /** Between two calls: the cache is empty and the current fragment incomplete. */
    ghost predicate Valid(stream: seq<byte>)
      reads this
    {
      Caches([]) && Layout(done, todo, nbo) && Keeps(stream, []) && StreamOk(Held(done, todo) + [] + socket, nbo)
    }

    /** A connected endpoint, before the first byte of the stream. */
    constructor (nbo: bool, capacity: nat, stream: seq<byte>)
      requires StreamOk(stream, nbo)
      ensures Valid(stream) && socket == stream && delivered == [] && this.nbo == nbo && |cache| == capacity
    {
      hide StreamOk, Layout, Fresh, Held;
      this.nbo := nbo;
      cache := seq(capacity, _ => 0);
      pos, length := 0, 0;
      done, todo := [], [Fresh(HDR)];
      socket := stream;
      delivered := [];
      new;
      FirstLayout(nbo);
      assert Held(done, todo) + [] + socket == stream;
    }

    /** The cache holds exactly the bytes b; when empty it is at its start. */
    ghost predicate Caches(b: seq<byte>)
      reads `pos, `length, `cache
    {
      length == |b| && pos + length <= |cache| && (length == 0 ==> pos == 0) && cache[pos..pos + length] == b
    }

    /** One entry is served from the cache; a whole payload may be used where it is, which is the same bytes. */
    method TakeCached(v: Iov, dontCopy: bool, ghost b: seq<byte>) returns (w: Iov, n: nat)
      requires Caches(b) && (dontCopy ==> v.got == [])
      modifies this`pos, this`length
      ensures n == Min(|b|, |v.next|) && w == Put(v, b[..n]) && Caches(b[n..]) && length == |b| - n
    {
      hide Put;
      n := Min(length, |v.next|);
      assert cache[pos..pos + n] == b[..n] && cache[pos + n..pos + length] == b[n..];
      if !dontCopy || n < |v.next| {
        w := Put(v, cache[pos..pos + n]);
      } else {
        UseInPlace(v, cache[pos..pos + n]);
        w := Iov([], cache[pos..pos + n]);
      }
      pos := pos + n;
      length := length - n;
      if length == 0 {
        pos := 0;
      }
    }

    method FillEntry(dontCopy: bool, ghost s0: seq<Iov>, ghost b: seq<byte>, ghost wrote: seq<Iov>, left: seq<Iov>,
                     ghost c: nat, ghost rest: seq<byte>)
      returns (w: Iov, ghost c': nat, ghost rest': seq<byte>)
      requires Filling(s0, b, wrote, left, c, rest) && left != [] && Caches(rest) && (dontCopy ==> left[0].got == [])
      modifies `pos, `length
      ensures Filling(s0, b, wrote + [w], left[1..], c', rest') && Caches(rest') && length == |rest'|
    {
      hide Filling, Caches, Put;
      var n;
      w, n := TakeCached(left[0], dontCopy, rest);
      FillNext(s0, b, wrote, left, c, rest, n);
      c', rest' := c + n, rest[n..];
    }

    /** The cached bytes are written into the entries. */
    method FromCache(dontCopy: bool, ghost b: seq<byte>)
      requires Caches(b) && (dontCopy ==> |todo| == 1 && todo[0].got == [])
      modifies this`todo, this`pos, this`length
      ensures todo == Written(old(todo), b) && Caches(b[Min(|b|, |Ahead(old(todo))|)..])
    {
      assert length == |b|;
      hide Written, Ahead, Put, Filling, Caches;
      ghost var rest := b;
      ghost var c: nat := 0;
      var wrote, left := [], todo;
      FillNone(todo, b);
      while left != [] && length != 0
        invariant todo == old(todo) && length == |rest| && Filling(todo, b, wrote, left, c, rest) && Caches(rest)
        invariant dontCopy && left != [] ==> |left| == 1 && left[0].got == []
        decreases |left|
      {
        var v;
        v, c, rest := FillEntry(dontCopy, todo, b, wrote, left, c, rest);
        wrote, left := wrote + [v], left[1..];
      }
      FillDone(todo, b, wrote, left, c, rest);
      todo := wrote + left;
    }

    /** advance_iov_position: count n bytes into the entries, the rest is in the cache. */
    method Advance(n: nat)
      requires Lined(todo)
      modifies this`done, this`todo, this`length
      ensures length == n - Min(n, |old(Ahead(todo))|)
      ensures Counted(old(done), old(todo), done, todo, Min(n, |old(Ahead(todo))|))
      ensures todo == [] <==> n >= |old(Ahead(todo))|
    {
      hide Counted, Ahead, Held;
      ghost var done0, todo0 := done, todo;
      CountNone(done0, todo0);
      var left: nat := n;
      ghost var d: nat := 0;
      while todo != []
        invariant Counted(done0, todo0, done, todo, d) && left == n - d
        decreases |todo|
      {
        var v := todo[0];
        if left < |v.next| {
          CountPart(done0, todo0, done, todo, d, left);
          todo := todo[0 := Iov(v.got + v.next[..left], v.next[left..])];
          d := d + left;
          left := 0;
          break;
        }
        CountEntry(done0, todo0, done, todo, d);
        left := left - |v.next|;
        d := d + |v.next|;
        done := done + [v.got + v.next];
        todo := todo[1..];
      }
      CountFacts(done0, todo0, done, todo, d);
      length := left;
    }

    /**
      readv into the entries and, behind them, into the empty cache; 0 when the socket would block,
      which it does not when it is ready.
    */
    method Readv(ready: bool) returns (n: nat)
      requires length == 0
      modifies this`todo, this`cache, this`socket
      ensures ready && old(socket) != [] && Ahead(old(todo)) != [] ==> n > 0
      ensures n <= |old(socket)| && socket == old(socket)[n..] && |cache| == |old(cache)|
      ensures todo == Written(old(todo), old(socket)[..n])
      ensures var m := Min(n, |Ahead(old(todo))|);
              n - m <= |cache| && cache[..n - m] == old(socket)[..n][m..]
    {
      hide Written, Ahead;
      var room := Room(todo);
      var most := Min(room + |cache|, |socket|);
      assert most <= |socket| && most <= room + |cache|;
      var k: nat :| k <= most && (ready && most > 0 ==> k > 0);
      n := k;
      var chunk := socket[..n];
      var m := Min(n, room);
      todo := Written(todo, chunk);
      cache := chunk[m..] + cache[n - m..];
      socket := socket[n..];
    }

    /** The cache has the bytes b from its position on. */
    ghost predicate Buffers(b: seq<byte>)
      reads `pos, `cache
    {
      pos + |b| <= |cache| && (b == [] ==> pos == 0) && cache[pos..pos + |b|] == b
    }

    /** Bytes x from the cache, or else from the socket, are stored into the list, and those beyond it in the cache. */
    method Load(dontCopy: bool, ready: bool, ghost b: seq<byte>) returns (n: nat, ghost x: seq<byte>)
      requires Caches(b) && Ahead(todo) != [] && (dontCopy ==> |todo| == 1 && todo[0].got == [])
      modifies `pos, `length, `cache, `todo, `socket
      ensures |cache| == |old(cache)| && n == |x| && x + socket == b + old(socket)
      ensures todo == Written(old(todo), x) && Buffers(x[Min(n, |Ahead(old(todo))|)..])
      ensures n == 0 ==> length == 0
      ensures Shrinks(|old(socket)|, |socket|, ready && b == [] && old(socket) != [])
    {
      hide Written, Ahead;
      if length != 0 {
        n, x := length, b;
        FromCache(dontCopy, b);
      } else {
        n := Readv(ready);
        x := old(socket)[..n];
        assert old(socket) == x + socket && b == [];
      }
    }

    /** From repeat to the reading of the header: bytes from the cache, or else from the socket, into the list. */
    method Fetch(dontCopy: bool, ready: bool, ghost b: seq<byte>) returns (n: nat, ghost b': seq<byte>)
      requires Caches(b) && Layout(done, todo, nbo) && (dontCopy ==> |todo| == 1 && todo[0].got == [])
      modifies `pos, `length, `cache, `done, `todo, `socket
      ensures |cache| == |old(cache)| && Caches(b')
      ensures Held(done, todo) + b' + socket == old(Held(done, todo)) + b + old(socket)
      ensures Shrinks(|old(socket)|, |socket|, ready && b == [] && old(socket) != [])
      ensures n == 0 ==> b' == [] && Layout(done, todo, nbo)
      ensures n > 0 && todo != [] ==> Layout(done, todo, nbo) && b' == []
      ensures n > 0 && todo == [] ==> AtEnd(done, nbo)
      ensures n > 0 ==> old(done) <= done && |done| + |todo| == |old(done)| + |old(todo)|
    {
      hide Written, Ahead, Held, Layout, Counted, AtEnd, Shrinks;
      ghost var done0, todo0, sock0 := done, todo, socket;
      LayoutLined(done0, todo0, nbo);
      ghost var x;
      n, x := Load(dontCopy, ready, b);
      if n == 0 {
        WriteNothing(todo0);
        assert x == [];
        Rejoined(Held(done, todo), [], socket, Held(done0, todo0), x, b, sock0);
        return n, [];
      }
      ghost var w, m := Written(todo0, x), Min(n, |Ahead(todo0)|);
      WrittenLayout(done0, todo0, x, nbo);
      WrittenAhead(todo0, x);
      LayoutLined(done0, w, nbo);
      Advance(n);
      b' := x[m..];
      TransferKeeps(done0, todo0, x, done, todo, m);
      TransferLayout(done0, w, done, todo, m, nbo);
      CountedLists(done0, w, done, todo, m);
      Rejoined(Held(done, todo), b', socket, Held(done0, todo0), x, b, sock0);
    }

    /** The data entries of a PUT frame, one for each descriptor. */
    method AddData(count: nat)
      requires |done| == 2 && |done[1]| == count * SEG && todo == []
      modifies this`todo
      ensures todo == FreshAll(SegLens(done[1], count))
    {
      for i := 0 to count
        invariant todo == FreshAll(SegLens(done[1], i))
      {
        FreshNext(done[1], i);
        todo := todo + [Fresh(SegLen(done[1], i))];
      }
    }

    /** The header is read: the entries for the rest of the frame, as far as it is known; none if it is complete. */
    method Extend() returns (more: bool, dontCopy: bool)
      requires todo == [] && AtEnd(done, nbo) && FrameOk(Concat(done), nbo)
      modifies `todo
      ensures more ==> Layout(done, todo, nbo) && Held(done, todo) == Concat(done) && 0 < |done| < 3
      ensures more && dontCopy ==> |todo| == 1 && todo[0].got == []
      ensures !more ==> todo == [] && Complete(Concat(done), nbo)
    {
      hide Ahead, Held, Layout, AtEnd, Need, HeaderOf, SegLens, FreshAll, Fresh;
      NextLayout(done, nbo);
      EndLists(done, nbo);
      var h := HeaderOf(done[0], nbo);
      if h.kind == SEND {
        if |done| == 1 && h.size != 0 {
          todo := [Fresh(h.size)];
          HeldFresh(done, todo);
          return true, true;
        }
      } else if h.kind == PUT {
        if |done| == 1 {
          todo := [Fresh(h.count * SEG)];
          HeldFresh(done, todo);
          return true, false;
        } else if |done| == 2 {
          AddData(h.count);
          HeldFresh(done, todo);
          return true, false;
        }
      }
      return false, false;
    }

    /** mca_btl_tcp2_frag_recv */
    method Recv(ready: bool, ghost b: seq<byte>) returns (full: bool, ghost b': seq<byte>)
      requires Caches(b) && Layout(done, todo, nbo) && StreamOk(Held(done, todo) + b + socket, nbo)
      modifies `pos, `length, `cache, `done, `todo, `socket
      ensures Caches(b') && |cache| == |old(cache)|
      ensures Held(done, todo) + b' + socket == old(Held(done, todo)) + b + old(socket)
      ensures Shrinks(|old(socket)|, |socket|, ready && b == [] && old(socket) != [])
      ensures full ==> todo == [] && Complete(Held(done, todo), nbo)
      ensures !full ==> Layout(done, todo, nbo) && b' == []
    {
      hide Ahead, Held, Layout, AtEnd, StreamOk, Need, FrameOk, Caches, Shrinks;
      var dontCopy, first := false, true;
      b' := b;
      ghost var due := ready && b == [] && socket != [];
      ghost var whole := Held(done, todo) + b + socket;
      while true
        invariant Caches(b') && |cache| == |old(cache)| && Layout(done, todo, nbo)
        invariant Held(done, todo) + b' + socket == whole
        invariant if first then b' == b && socket == old(socket) else Shrinks(|old(socket)|, |socket|, due)
        invariant dontCopy ==> |todo| == 1 && todo[0].got == []
        decreases 3 - Min(|done|, 3)
      {
        LayoutLined(done, todo, nbo);
        var n;
        ghost var left := |socket|;
        n, b' := Fetch(dontCopy, ready && first, b');
        if !first { ShrinksMore(|old(socket)|, left, |socket|, due); }
        first := false;
        if n == 0 || todo != [] {
          return false, b';
        }
        HeldDone(done);
        assert Concat(done) + (b' + socket) == whole;
        KnownKind(Concat(done), b' + socket, whole, nbo);
        var more;
        more, dontCopy := Extend();
        if !more {
          HeldDone(done);
          return true, b';
        }
      }
    }

    /** Bytes that the peer has sent arrive. */
    method Arrive(b: seq<byte>, ghost stream: seq<byte>)
      requires Valid(stream) && StreamOk(Held(done, todo) + [] + (socket + b), nbo)
      modifies `socket
      ensures Valid(stream + b) && socket == old(socket) + b
    {
      hide StreamOk, Layout, Held;
      socket := socket + b;
      ghost var held := Held(done, todo);
      assert Concat(delivered) + (held + [] + socket) == stream + b by {
        assert held + [] + socket == held + [] + old(socket) + b;
      }
    }

    /** A complete fragment is handed to the upper layer, and the next one waits for its header. */
    method HandOver(ghost stream: seq<byte>, ghost b: seq<byte>)
      requires todo == [] && Complete(Held(done, todo), nbo) && Keeps(stream, b)
      requires StreamOk(Held(done, todo) + b + socket, nbo)
      modifies `delivered, `done, `todo
      ensures Layout(done, todo, nbo) && Keeps(stream, b) && StreamOk(Held(done, todo) + b + socket, nbo)
      ensures old(delivered) <= delivered && |Held(done, todo)| < |old(Held(done, todo))|
    {
      hide Ahead, Held, Layout, StreamOk, Need, Fresh, Complete;
      HeldDone(done);
      Deliver(delivered, Concat(done), b, socket, stream, nbo);
      delivered := delivered + [Concat(done)];
      done, todo := [], [Fresh(HDR)];
      FirstLayout(nbo);
    }

    /** The receive event: fragments are delivered until the bytes at hand run out. */
    method OnReadable(ready: bool, ghost stream: seq<byte>)
      requires Valid(stream)
      modifies this
      ensures Valid(stream) && delivered == Frames(stream[..|stream| - |socket|], nbo) && old(delivered) <= delivered
      ensures Shrinks(|old(socket)|, |socket|, ready && old(socket) != [])
    {
      hide Ahead, Held, Layout, StreamOk, Need, Frames, Fresh, Complete, Shrinks;
      ghost var b: seq<byte> := [];
      var first := true;
      ghost var due := ready && socket != [];
      while true
        invariant Caches(b) && Layout(done, todo, nbo) && Keeps(stream, b)
        invariant StreamOk(Held(done, todo) + b + socket, nbo)
        invariant old(delivered) <= delivered
        invariant if first then b == [] && socket == old(socket) else Shrinks(|old(socket)|, |socket|, due)
        decreases |Held(done, todo)| + |b| + |socket|
      {
        var full;
        ghost var left := |socket|;
        full, b := Recv(ready && first, b);
        if !first { ShrinksMore(|old(socket)|, left, |socket|, due); }
        first := false;
        if !full {
          break;
        }
        HandOver(stream, b);
        if length == 0 {
          break;
        }
      }
      assert b == [];
      LayoutPartial(done, todo, nbo);
      FramingIsUnique(delivered, Held(done, todo), nbo);
      assert stream[..|stream| - |socket|] == Concat(delivered) + Held(done, todo);
    }
  }

  lemma EndLists(done: seq<seq<byte>>, nbo: bool)
    requires AtEnd(done, nbo)
    ensures done != [] && |done[0]| == HDR
    ensures |done| == 2 && HeaderOf(done[0], nbo).kind == PUT ==> |done[1]| == HeaderOf(done[0], nbo).count * SEG
  {
  }

  lemma ConcatSnoc(fs: seq<seq<byte>>, f: seq<byte>)
    ensures Concat(fs + [f]) == Concat(fs) + f
  {
    assert (fs + [f])[..|fs|] == fs;
  }

  /** Handing over a complete frame. */
  lemma Deliver(fs: seq<seq<byte>>, f: seq<byte>, b: seq<byte>, socket: seq<byte>, stream: seq<byte>, nbo: bool)
    requires Concat(fs) + (f + b + socket) == stream && Complete(f, nbo) && StreamOk(f + b + socket, nbo)
    ensures Concat(fs + [f]) + ([] + b + socket) == stream && StreamOk([] + b + socket, nbo) && |f| > 0
  {
    hide StreamOk, Need, Concat, Frames;
    ConcatSnoc(fs, f);
    var rest := b + socket;
    assert f + b + socket == f + rest && [] + b + socket == rest;
    FrameFirst(f, rest, nbo);
    assert Concat(fs) + f + rest == Concat(fs) + (f + rest);
  }
}
