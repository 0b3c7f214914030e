/** qsort by its contract: a sort by insertion for any order. */
module Sorting {
  import opened Collections

  ghost predicate SortedBy<T>(t: seq<T>, le: (T, T) -> bool) {
    forall i, j :: 0 <= i < j < |t| ==> le(t[i], t[j])
  }

  /** le is total and transitive on the elements of s. */
  ghost predicate Orders<T(!new)>(le: (T, T) -> bool, s: seq<T>) {
    && (forall a, b :: a in s && b in s ==> le(a, b) || le(b, a))
    && (forall a, b, c :: a in s && b in s && c in s && le(a, b) && le(b, c) ==> le(a, c))
  }

  lemma SortedNone<T>(le: (T, T) -> bool)
    ensures SortedBy([], le)
  {
  }

  lemma InsertSorted<T(!new)>(t: seq<T>, j: nat, x: T, le: (T, T) -> bool, s: seq<T>)
    requires SortedBy(t, le) && Orders(le, s) && x in s && (forall y :: y in t ==> y in s) && j <= |t|
    requires (j > 0 ==> le(t[j-1], x)) && forall i :: j <= i < |t| ==> le(x, t[i])
    ensures SortedBy(t[..j] + [x] + t[j..], le)
  {
    var r := t[..j] + [x] + t[j..];
    forall a, b | 0 <= a < b < |r| ensures le(r[a], r[b]) {
      if b == j && a < j - 1 {
        assert le(t[a], t[j-1]) && t[a] in t && t[j-1] in t;
      }
    }
  }

  lemma InsertCounted<T>(t: seq<T>, j: nat, s: seq<T>, i: nat)
    requires i < |s| && j <= |t| && multiset(t) == multiset(s[..i])
    ensures multiset(t[..j] + [s[i]] + t[j..]) == multiset(s[..i+1])
  {
    assert t == t[..j] + t[j..] && s[..i+1] == s[..i] + [s[i]];
  }

  /** Where x goes among the elements sorted so far. */
  method Place<T(!new)>(t: seq<T>, x: T, le: (T, T) -> bool, ghost s: seq<T>) returns (j: nat)
    requires Orders(le, s) && x in s && forall y :: y in t ==> y in s
    ensures j <= |t| && (j > 0 ==> le(t[j-1], x)) && forall i :: j <= i < |t| ==> le(x, t[i])
  {
    j := |t|;
    while j > 0 && !le(t[j-1], x)
      invariant 0 <= j <= |t| && forall i :: j <= i < |t| ==> le(x, t[i])
    {
      j := j - 1;
      assert t[j] in t;
    }
  }

  method SortBy<T(!new)>(s: seq<T>, le: (T, T) -> bool) returns (t: seq<T>)
    requires Orders(le, s)
    ensures SortedBy(t, le) && multiset(t) == multiset(s) && |t| == |s|
  {
    hide SortedBy, Orders;
    t := [];
    SortedNone(le);
    for i := 0 to |s|
      invariant SortedBy(t, le) && multiset(t) == multiset(s[..i]) && |t| == i
    {
      SameElements(t, s[..i]);
      var j := Place(t, s[i], le, s);
      InsertSorted(t, j, s[i], le, s);
      InsertCounted(t, j, s, i);
      t := t[..j] + [s[i]] + t[j..];
    }
    assert s[..|s|] == s;
  }

  lemma SameElements<T>(t: seq<T>, s: seq<T>)
    requires multiset(t) == multiset(s)
    ensures forall x :: x in t <==> x in s
  {
    forall x ensures x in t <==> x in s {
      assert x in t <==> x in multiset(t);
      assert x in s <==> x in multiset(s);
    }
  }

  lemma {:induction false} Once<T>(s: seq<T>, x: T)
    requires NoDup(s)
    ensures multiset(s)[x] <= 1
  {
    if s != [] {
      var l := |s| - 1;
      Once(s[..l], x);
      assert s == s[..l] + [s[l]];
      assert x == s[l] ==> x !in s[..l];
    }
  }

  /** A permutation of distinct elements has distinct elements. */
  lemma StaysDistinct<T>(s: seq<T>, t: seq<T>)
    requires multiset(t) == multiset(s) && NoDup(s)
    ensures NoDup(t)
  {
    forall i, j | 0 <= i < j < |t| ensures t[i] != t[j] {
      Once(s, t[i]);
      assert t == t[..i] + [t[i]] + t[i+1..j] + [t[j]] + t[j+1..];
    }
  }
}
