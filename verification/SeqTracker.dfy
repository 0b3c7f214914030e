/**
  The sequence tracker: a list of disjoint ranges of 32-bit ids with a cursor.  Lookups answer
  membership from any cursor position; insertion adds exactly one id, except for two cases of
  32-bit wrap-around, which are characterised exactly.
*/
module SeqTracker {
  import opened Collections

  const MAX: nat := 0xFFFF_FFFF

  /** Unsigned 32-bit addition and subtraction of one. */
  function Inc(x: nat): nat { if x == MAX then 0 else x + 1 }

  function Dec(x: nat): nat { if x == 0 then MAX else x - 1 }

  datatype Range = Range(low: nat, high: nat)

  /** Ranges in order, none empty, and no two that touch. */
  ghost predicate Tidy(s: seq<Range>) {
    && (forall i :: 0 <= i < |s| ==> s[i].low <= s[i].high <= MAX)
    && (forall i, j :: 0 <= i < j < |s| ==> s[i].high + 1 < s[j].low)
  }

  ghost predicate At(s: seq<Range>, i: int, x: nat) {
    0 <= i < |s| && s[i].low <= x <= s[i].high
  }

  ghost predicate Has(s: seq<Range>, x: nat) {
    exists i :: At(s, i, x)
  }

  ghost predicate Adds(s: seq<Range>, t: seq<Range>, id: nat) {
    forall x: nat :: Has(t, x) <==> Has(s, x) || x == id
  }

  /** The cursor's range, when the id and the range lie at opposite ends of the number space and do not meet. */
  ghost predicate WrapsAround(r: Range, id: nat) {
    || (id == 0 && r.high == MAX && r.low > 0)
    || (id == MAX && r.low == 0 && r.high + 1 < MAX)
  }

  // ----- list edits -----

  function InsertAt(s: seq<Range>, i: nat, r: Range): seq<Range>
    requires i <= |s|
  {
    s[..i] + [r] + s[i..]
  }

  ghost predicate Inserted(s: seq<Range>, t: seq<Range>, i: nat, r: Range) {
    && |t| == |s| + 1 && i <= |s| && t[i] == r && (forall j :: 0 <= j < i ==> t[j] == s[j])
    && (forall j :: i < j < |t| ==> t[j] == s[j-1])
  }

  lemma InsertAtInserts(s: seq<Range>, i: nat, r: Range)
    requires i <= |s|
    ensures Inserted(s, InsertAt(s, i, r), i, r)
  {
  }

  lemma InsertedTidy(s: seq<Range>, t: seq<Range>, i: nat, id: nat)
    requires Tidy(s) && Inserted(s, t, i, Range(id, id)) && id <= MAX
    requires (i > 0 ==> s[i-1].high + 1 < id) && (i < |s| ==> id + 1 < s[i].low)
    ensures Tidy(t)
  {
    forall a, b | 0 <= a < b < |t| ensures t[a].high + 1 < t[b].low {
      if b == i {
        assert s[a].high <= s[i-1].high;
      } else if a == i {
        assert s[i].low <= s[b-1].low;
      }
    }
  }

  lemma InsertedAdds(s: seq<Range>, t: seq<Range>, i: nat, id: nat)
    requires Inserted(s, t, i, Range(id, id))
    ensures Adds(s, t, id)
  {
    forall x: nat ensures Has(t, x) <==> Has(s, x) || x == id {
      if j :| At(s, j, x) { assert At(t, if j < i then j else j + 1, x); }
      if j :| At(t, j, x) { assert j == i || At(s, if j < i then j else j - 1, x); }
      if x == id { assert At(t, i, x); }
    }
  }

  /** A new range in a gap of the list. */
  lemma InsertTidy(s: seq<Range>, i: nat, id: nat)
    requires Tidy(s) && i <= |s| && id <= MAX && (i > 0 ==> s[i-1].high + 1 < id) && (i < |s| ==> id + 1 < s[i].low)
    ensures Tidy(InsertAt(s, i, Range(id, id))) && Adds(s, InsertAt(s, i, Range(id, id)), id)
  {
    hide Tidy, Adds, Inserted;
    var t := InsertAt(s, i, Range(id, id));
    InsertAtInserts(s, i, Range(id, id));
    InsertedTidy(s, t, i, id);
    InsertedAdds(s, t, i, id);
  }

  /** A range grows by one id that touches no other range. */
  ghost predicate Grows(s: seq<Range>, i: nat, r: Range, id: nat)
    requires i < |s|
  {
    || (r == s[i].(high := id) && id == s[i].high + 1 && (i + 1 < |s| ==> id + 1 < s[i+1].low))
    || (r == s[i].(low := id) && id == s[i].low - 1 && (i > 0 ==> s[i-1].high + 1 < id))
  }

  lemma GrowAdds(s: seq<Range>, i: nat, r: Range, id: nat)
    requires Tidy(s) && i < |s| && Grows(s, i, r, id)
    ensures Adds(s, s[i := r], id)
  {
    var t := s[i := r];
    hide Tidy;
    forall x: nat ensures Has(t, x) <==> Has(s, x) || x == id {
      if j :| At(s, j, x) { assert At(t, j, x); }
      if j :| At(t, j, x) { assert x == id || At(s, j, x); }
      if x == id { assert At(t, i, x); }
    }
  }

  lemma GrowTidy(s: seq<Range>, i: nat, r: Range, id: nat)
    requires Tidy(s) && i < |s| && id <= MAX && Grows(s, i, r, id)
    ensures Tidy(s[i := r]) && Adds(s, s[i := r], id)
  {
    GrowAdds(s, i, r, id);
    hide Adds;
    var t := s[i := r];
    forall a, b | 0 <= a < b < |t| ensures t[a].high + 1 < t[b].low {
      if a == i && b > i + 1 { assert s[i+1].high + 1 < s[b].low; }
      if b == i && a < i - 1 { assert s[a].high + 1 < s[i-1].low; }
    }
  }

  /** Ranges i and i + 1 become one. */
  ghost predicate Merged(s: seq<Range>, t: seq<Range>, i: nat) {
    && i + 1 < |s| && |t| == |s| - 1 && t[i] == Range(s[i].low, s[i+1].high)
    && (forall j :: 0 <= j < i ==> t[j] == s[j])
    && (forall j :: i < j < |t| ==> t[j] == s[j+1])
  }

  lemma MergedTidy(s: seq<Range>, t: seq<Range>, i: nat, id: nat)
    requires Tidy(s) && Merged(s, t, i) && s[i].high + 1 == id == s[i+1].low - 1
    ensures Tidy(t)
  {
  }

  lemma MergedAdds(s: seq<Range>, t: seq<Range>, i: nat, id: nat)
    requires Tidy(s) && Merged(s, t, i) && s[i].high + 1 == id == s[i+1].low - 1
    ensures Adds(s, t, id)
  {
    assert s[i].low <= s[i].high && s[i+1].low <= s[i+1].high;
    hide Tidy;
    forall x: nat ensures Has(t, x) <==> Has(s, x) || x == id {
      if j :| At(s, j, x) { assert At(t, if j <= i then j else j - 1, x); }
      if j :| At(t, j, x) {
        if j == i {
          assert At(s, i, x) || x == id || At(s, i + 1, x);
        } else {
          assert At(s, if j < i then j else j + 1, x);
        }
      }
      if x == id { assert At(t, i, x); }
    }
  }

  lemma MergeTidy(s: seq<Range>, i: nat, id: nat)
    requires Tidy(s) && i + 1 < |s| && s[i].high + 1 == id == s[i+1].low - 1
    ensures var t := Without(s[i := Range(s[i].low, s[i+1].high)], i + 1); Tidy(t) && Adds(s, t, id)
    ensures Without(s[i+1 := Range(s[i].low, s[i+1].high)], i) == Without(s[i := Range(s[i].low, s[i+1].high)], i + 1)
  {
    var t := Without(s[i := Range(s[i].low, s[i+1].high)], i + 1);
    assert Merged(s, t, i);
    MergedTidy(s, t, i, id);
    MergedAdds(s, t, i, id);
  }

  lemma HeldAlready(s: seq<Range>, i: nat, id: nat)
    requires At(s, i, id)
    ensures Adds(s, s, id)
  {
    assert Has(s, id);
  }

  class Tracker {
    var ranges: seq<Range>
    /** seq_ids_current; |ranges| stands for the sentinel. */
    var cursor: nat

    ghost predicate Valid()
      reads this
    {
      Tidy(ranges) && cursor <= |ranges| && (cursor == |ranges| ==> ranges == [])
    }

    constructor ()
      ensures Valid() && ranges == []
    {
      ranges, cursor := [], 0;
    }

    /** The neighbours in the circular list. */
    function Next(i: nat): nat
      requires i < |ranges|
      reads this
    {
      i + 1
    }

    function Prev(i: nat): nat
      requires i < |ranges|
      reads this
    {
      if i == 0 then |ranges| else i - 1
    }

    /** ompi_seq_tracker_check_duplicate */
    method CheckDuplicate(id: nat) returns (seen: bool)
      requires Valid()
      modifies `cursor
      ensures Valid() && (seen <==> Has(ranges, id))
      ensures if seen then At(ranges, cursor, id) else cursor == old(cursor)
    {
      var item: nat := cursor;
      var direction := 0;
      while true
        invariant item <= |ranges| && direction in {-1, 0, 1} && cursor == old(cursor) && Valid()
        invariant direction == 0 ==> item == cursor
        invariant direction == 1 ==> item > 0 && ranges[item-1].high < id
        invariant direction == -1 ==>
                    if item == |ranges| then ranges != [] && id < ranges[0].low
                    else item + 1 < |ranges| && id < ranges[item+1].low
        decreases if direction == 0 then 2 * |ranges| + 2
                    else if direction == 1 then |ranges| - item else if item == |ranges| then 0 else item + 1
      {
        if item == |ranges| {
          return false;
        } else if ranges[item].high >= id && ranges[item].low <= id {
          assert At(ranges, item, id);
          cursor := item;
          return true;
        } else if id > ranges[item].high && direction != -1 {
          direction := 1;
          item := Next(item);
        } else if id < ranges[item].low && direction != 1 {
          direction := -1;
          item := Prev(item);
        } else {
          return false;
        }
      }
    }

    method New(i: nat, id: nat)
      requires Valid() && id <= MAX && i <= |ranges|
      requires (i > 0 ==> ranges[i-1].high + 1 < id) && (i < |ranges| ==> id + 1 < ranges[i].low)
      modifies this
      ensures Valid() && Adds(old(ranges), ranges, id) && At(ranges, cursor, id)
    {
      hide Tidy, Adds;
      InsertTidy(ranges, i, id);
      ranges := InsertAt(ranges, i, Range(id, id));
      cursor := i;
    }

    method GrowHigh(i: nat, id: nat)
      requires Valid() && i < |ranges| && Inc(ranges[i].high) == id && !At(ranges, i, id) && id <= MAX
      modifies this
      ensures id != 0 ==> Valid() && Adds(old(ranges), ranges, id) && At(ranges, cursor, id)
      ensures id == 0 ==> !Tidy(ranges)
    {
      assert i + 1 < |ranges| ==> ranges[i].high + 1 < ranges[i+1].low && ranges[i+1].low <= ranges[i+1].high <= MAX;
      assert ranges[i].low <= ranges[i].high <= MAX;
      hide Tidy, Adds;
      var next := Next(i);
      if next != |ranges| && ranges[next].low == Inc(id) {
        MergeTidy(ranges, i, id);
        ranges := Without(ranges[i := Range(ranges[i].low, ranges[next].high)], next);
      } else {
        if id != 0 {
          GrowTidy(ranges, i, ranges[i].(high := id), id);
        } else {
          Broken(ranges[i := ranges[i].(high := id)], i);
        }
        ranges := ranges[i := ranges[i].(high := id)];
      }
      cursor := i;
    }

    method GrowLow(i: nat, id: nat)
      requires Valid() && i < |ranges| && Dec(ranges[i].low) == id && !At(ranges, i, id) && id <= MAX
      requires Inc(ranges[i].high) != id
      modifies this
      ensures id != MAX ==> Valid() && Adds(old(ranges), ranges, id) && At(ranges, cursor, id)
      ensures id == MAX ==> !Tidy(ranges)
    {
      assert i > 0 ==> ranges[i-1].high + 1 < ranges[i].low && ranges[i-1].low <= ranges[i-1].high;
      assert ranges[i].low <= ranges[i].high <= MAX;
      hide Tidy, Adds;
      var prev := Prev(i);
      if prev != |ranges| && ranges[prev].high == Dec(id) {
        MergeTidy(ranges, prev, id);
        ranges := Without(ranges[i := Range(ranges[prev].low, ranges[i].high)], prev);
        cursor := prev;
      } else {
        if id != MAX {
          GrowTidy(ranges, i, ranges[i].(low := id), id);
        } else {
          Broken(ranges[i := ranges[i].(low := id)], i);
        }
        ranges := ranges[i := ranges[i].(low := id)];
        cursor := i;
      }
    }

    /** ompi_seq_tracker_insert */
    method Insert(id: nat)
      requires Valid() && id <= MAX
      modifies this
      ensures !(old(ranges) != [] && WrapsAround(old(ranges)[old(cursor)], id)) ==>
                Valid() && Adds(old(ranges), ranges, id) && At(ranges, cursor, id)
      ensures old(ranges) != [] && WrapsAround(old(ranges)[old(cursor)], id) ==> !Tidy(ranges)
    {
      hide Tidy, Adds;
      var item: nat := cursor;
      var direction := 0;
      while true
        invariant ranges == old(ranges) && cursor == old(cursor) && Valid()
        invariant Walking(ranges, cursor, item, direction, id)
        decreases if direction == 0 then 2 * |ranges| + 2
                    else if direction == 1 then |ranges| - item else if item == |ranges| then 0 else item + 1
      {
        if item == |ranges| {
          New(if direction == -1 then 0 else |ranges|, id);
          return;
        }
        TidyAt(ranges, item);
        if ranges[item].high >= id && ranges[item].low <= id {
          HeldAlready(ranges, item, id);
          cursor := item;
          return;
        } else if Inc(ranges[item].high) == id {
          GrowHigh(item, id);
          return;
        } else if Dec(ranges[item].low) == id {
          GrowLow(item, id);
          return;
        } else if id > ranges[item].high {
          if direction == -1 {
            New(item + 1, id);
            return;
          } else {
            direction := 1;
            item := Next(item);
          }
        } else {
          if direction == 1 {
            New(item, id);
            return;
          } else {
            direction := -1;
            item := Prev(item);
          }
        }
      }
    }

    /** ompi_seq_tracker_copy into a fresh tracker. */
    method CopyFrom(src: Tracker)
      requires src.Valid() && Valid() && ranges == [] && src != this
      modifies this
      ensures Valid() && ranges == src.ranges && cursor == src.cursor
    {
      hide Tidy;
      var i := 0;
      while i < |src.ranges|
        invariant 0 <= i <= |src.ranges| && ranges == src.ranges[..i]
        invariant cursor == if i > src.cursor then src.cursor else 0
      {
        ranges := ranges + [Range(src.ranges[i].low, src.ranges[i].high)];
        if src.cursor == i {
          cursor := i;
        }
        i := i + 1;
      }
      assert ranges == src.ranges;
    }
  }

  /** Where the walk is: still at the cursor, or past a range that is too low, or before one that is too high. */
  ghost predicate Walking(s: seq<Range>, cursor: nat, item: nat, direction: int, id: nat) {
    && item <= |s| && direction in {-1, 0, 1} && (direction == 0 ==> item == cursor)
    && (direction == 1 ==> item > 0 && s[item-1].high + 1 < id)
    && (direction == -1 ==>
         s != [] && if item == |s| then id + 1 < s[0].low else item + 1 < |s| && id + 1 < s[item+1].low)
    && (direction != 0 ==> cursor < |s| && !WrapsAround(s[cursor], id))
  }

  lemma TidyAt(s: seq<Range>, i: nat)
    requires Tidy(s) && i < |s|
    ensures s[i].low <= s[i].high <= MAX && (i > 0 ==> s[i-1].high + 1 < s[i].low)
    ensures i + 1 < |s| ==> s[i].high + 1 < s[i+1].low <= MAX
  {
  }

  lemma Broken(s: seq<Range>, i: nat)
    requires i < |s| && s[i].low > s[i].high
    ensures !Tidy(s)
  {
  }

  // ----- histories -----

  datatype Op = Check(id: nat) | Add(id: nat)

  /** The ids added by a history. */
  ghost function Known(ops: seq<Op>): set<nat> {
    if ops == [] then {} else
      var rest := Known(ops[..|ops|-1]);
      if ops[|ops|-1].Add? then rest + {ops[|ops|-1].id} else rest
  }

  lemma {:induction false} KnownBelow(ops: seq<Op>, x: nat)
    requires (forall i :: 0 <= i < |ops| ==> ops[i].id < MAX) && x in Known(ops)
    ensures x < MAX
  {
    if ops[|ops|-1] != Add(x) {
      KnownBelow(ops[..|ops|-1], x);
    }
  }

  /** Below the largest id no insertion wraps around, and every check answers what was inserted before it. */
  method Replay(ops: seq<Op>) returns (t: Tracker, answers: seq<bool>)
    requires forall i :: 0 <= i < |ops| ==> ops[i].id < MAX
    ensures fresh(t) && t.Valid() && forall x: nat :: Has(t.ranges, x) <==> x in Known(ops)
    ensures |answers| == |ops|
    ensures forall i :: 0 <= i < |ops| && ops[i].Check? ==> answers[i] == (ops[i].id in Known(ops[..i]))
  {
    hide Tidy, Has;
    t := new Tracker();
    answers := [];
    NothingHeld();
    for k := 0 to |ops|
      invariant fresh(t) && t.Valid() && forall x: nat :: Has(t.ranges, x) <==> x in Known(ops[..k])
      invariant |answers| == k
      invariant forall i :: 0 <= i < k && ops[i].Check? ==> answers[i] == (ops[i].id in Known(ops[..i]))
    {
      assert ops[..k+1][..k] == ops[..k];
      match ops[k]
      case Check(id) =>
        var seen := t.CheckDuplicate(id);
        answers := answers + [seen];
      case Add(id) =>
        if t.ranges != [] {
          EndsHeld(t.ranges, t.cursor);
          KnownBelow(ops[..k], t.ranges[t.cursor].high);
        }
        t.Insert(id);
        answers := answers + [false];
    }
    assert ops[..|ops|] == ops;
  }

  lemma NothingHeld()
    ensures forall x: nat :: !Has([], x)
  {
  }

  lemma EndsHeld(s: seq<Range>, i: nat)
    requires Tidy(s) && i < |s|
    ensures Has(s, s[i].low) && Has(s, s[i].high)
  {
    assert At(s, i, s[i].low) && At(s, i, s[i].high);
  }

  /** Inserting the largest id and then 0 wraps around: the list then holds a range that ends before it starts. */
  method LargestThenZero() returns (t: Tracker)
    ensures fresh(t) && !Tidy(t.ranges)
  {
    hide Tidy, Has;
    t := new Tracker();
    t.Insert(MAX);
    NothingHeld();
    EndsHeld(t.ranges, t.cursor);
    t.Insert(0);
  }
}
