/** Ordering of records by start time: the stable sort the ledger applies after
    every insertion and on load. */
module Ordering {
  import opened Activity

  predicate SortedByStart(s: seq<Record>)
  {
    forall i, j :: 0 <= i < j < |s| ==> s[i].start <= s[j].start
  }

  /** Places x behind every element that starts no later than x: the position a
      stable sort gives an element appended at the end. */
  function Insert(s: seq<Record>, x: Record): (r: seq<Record>)
    ensures |r| == |s| + 1
    ensures multiset(r) == multiset(s) + multiset{x}
    decreases |s|
  {
    if s == [] then [x]
    else if x.start < s[|s| - 1].start then
      assert s == s[..|s| - 1] + [s[|s| - 1]];
      Insert(s[..|s| - 1], x) + [s[|s| - 1]]
    else s + [x]
  }

  /** Every element of s starts no later than b. */
  predicate StartsBy(s: seq<Record>, b: int)
  {
    forall i :: 0 <= i < |s| ==> s[i].start <= b
  }

  /** A record starting no earlier than every element can be appended to a
      sorted list. */
  lemma AppendSorted(q: seq<Record>, x: Record)
    requires SortedByStart(q) && StartsBy(q, x.start)
    ensures SortedByStart(q + [x])
  {
  }

  /** Insertion only adds x, so a common bound survives it. */
  lemma InsertStartsBy(p: seq<Record>, x: Record, b: int)
    requires StartsBy(p, b) && x.start <= b
    ensures StartsBy(Insert(p, x), b)
  {
    var q := Insert(p, x);
    forall i | 0 <= i < |q| ensures q[i].start <= b {
      assert q[i] in multiset(q);
      assert q[i] in multiset(p) || q[i] == x;
      if q[i] != x {
        var j :| 0 <= j < |p| && p[j] == q[i];
      }
    }
  }

  /** Insertion keeps a sorted list sorted. */
  lemma {:induction false} InsertSorted(s: seq<Record>, x: Record)
    requires SortedByStart(s)
    ensures SortedByStart(Insert(s, x))
    decreases |s|
  {
    if s != [] {
      var p, y := s[..|s| - 1], s[|s| - 1];
      SortedInit(s);
      if x.start < y.start {
        InsertSorted(p, x);
        InsertStartsBy(p, x, y.start);
        assert Insert(s, x) == Insert(p, x) + [y];
        AppendSorted(Insert(p, x), y);
      } else {
        assert StartsBy(s, y.start);
        AppendSorted(s, x);
      }
    }
  }

  /** Stable sort by start time, as insertion of each element in turn. */
  function SortByStart(s: seq<Record>): (r: seq<Record>)
    ensures SortedByStart(r)
    ensures multiset(r) == multiset(s)
    decreases |s|
  {
    if s == [] then []
    else
      assert s == s[..|s| - 1] + [s[|s| - 1]];
      InsertSorted(SortByStart(s[..|s| - 1]), s[|s| - 1]);
      Insert(SortByStart(s[..|s| - 1]), s[|s| - 1])
  }

  /** Sorting a list appended with one record inserts that record into the
      sorted list. */
  lemma SortAppend(s: seq<Record>, x: Record)
    ensures SortByStart(s + [x]) == Insert(SortByStart(s), x)
  {
    assert (s + [x])[..|s|] == s;
  }

  /** Dropping the last element of a sorted list leaves a sorted list. */
  lemma SortedInit(s: seq<Record>)
    requires SortedByStart(s) && s != []
    ensures SortedByStart(s[..|s| - 1])
    ensures StartsBy(s[..|s| - 1], s[|s| - 1].start)
    ensures s[..|s| - 1] != [] ==> s[|s| - 2].start <= s[|s| - 1].start
  {
  }

  /** An already sorted list is left as it is. */
  lemma {:induction false} SortedFixpoint(s: seq<Record>)
    requires SortedByStart(s)
    ensures SortByStart(s) == s
    decreases |s|
  {
    if s != [] {
      var p, x := s[..|s| - 1], s[|s| - 1];
      SortedInit(s);
      SortedFixpoint(p);
      assert s == p + [x];
    }
  }

  /** The records of s that start at minute k, in their order in s. */
  function StartingAt(s: seq<Record>, k: int): seq<Record>
    decreases |s|
  {
    if s == [] then []
    else StartingAt(s[..|s| - 1], k) + (if s[|s| - 1].start == k then [s[|s| - 1]] else [])
  }

  lemma StartingAtAppend(s: seq<Record>, x: Record, k: int)
    ensures StartingAt(s + [x], k) == StartingAt(s, k) + StartingAt([x], k)
  {
    assert (s + [x])[..|s|] == s;
  }

  lemma {:induction false} InsertStable(s: seq<Record>, x: Record, k: int)
    ensures StartingAt(Insert(s, x), k) == StartingAt(s, k) + StartingAt([x], k)
    decreases |s|
  {
    if s == [] {
    } else if x.start < s[|s| - 1].start {
      var p, y := s[..|s| - 1], s[|s| - 1];
      assert s == p + [y];
      InsertStable(p, x, k);
      StartingAtAppend(Insert(p, x), y, k);
      StartingAtAppend(p, y, k);
    } else {
      StartingAtAppend(s, x, k);
    }
  }

  /** Stability: for every start minute, the records starting then keep the
      order they had before sorting. */
  lemma {:induction false} SortStable(s: seq<Record>, k: int)
    ensures StartingAt(SortByStart(s), k) == StartingAt(s, k)
    decreases |s|
  {
    if s != [] {
      var p, x := s[..|s| - 1], s[|s| - 1];
      assert s == p + [x];
      SortStable(p, k);
      InsertStable(SortByStart(p), x, k);
      StartingAtAppend(p, x, k);
    }
  }
}
