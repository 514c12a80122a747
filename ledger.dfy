/** The session's activity list: load, submit, delete, clear, and the start
    time the entry form proposes. */
module Ledger {
  import opened Activity
  import opened Ordering

  /** The list with every record carrying the given id filtered out. */
  function WithoutId(s: seq<Record>, id: int): seq<Record>
    decreases |s|
  {
    if s == [] then []
    else WithoutId(s[..|s| - 1], id) + (if s[|s| - 1].id == id then [] else [s[|s| - 1]])
  }

  /** A record survives the filter exactly when it was there and has another
      id; with no record carrying the id the list is unchanged. */
  lemma {:induction false} WithoutIdMembers(s: seq<Record>, id: int)
    ensures forall a :: a in WithoutId(s, id) <==> a in s && a.id != id
    ensures (forall k :: 0 <= k < |s| ==> s[k].id != id) ==> WithoutId(s, id) == s
    decreases |s|
  {
    if s != [] {
      var p, x := s[..|s| - 1], s[|s| - 1];
      assert s == p + [x];
      WithoutIdMembers(p, id);
      if forall k :: 0 <= k < |s| ==> s[k].id != id {
        assert forall k :: 0 <= k < |p| ==> p[k].id != id by {
          forall k | 0 <= k < |p| ensures p[k].id != id {
            assert p[k] == s[k];
          }
        }
      }
    }
  }

  /** Filtering keeps the relative order: it distributes over concatenation. */
  lemma {:induction false} WithoutIdConcat(s: seq<Record>, t: seq<Record>, id: int)
    ensures WithoutId(s + t, id) == WithoutId(s, id) + WithoutId(t, id)
    decreases |t|
  {
    if t == [] {
      assert s + t == s;
    } else {
      var p, x := t[..|t| - 1], t[|t| - 1];
      var tail := if x.id == id then [] else [x];
      assert (s + t)[..|s + t| - 1] == s + p;
      assert WithoutId(s + t, id) == WithoutId(s + p, id) + tail;
      assert WithoutId(t, id) == WithoutId(p, id) + tail;
      WithoutIdConcat(s, p, id);
    }
  }

  /** Filtering removes every copy of a record with the id and keeps the
      number of copies of every other record. */
  lemma {:induction false} WithoutIdCounts(s: seq<Record>, id: int, a: Record)
    ensures multiset(WithoutId(s, id))[a] == if a.id == id then 0 else multiset(s)[a]
    decreases |s|
  {
    if s != [] {
      var p, x := s[..|s| - 1], s[|s| - 1];
      assert s == p + [x];
      WithoutIdCounts(p, id, a);
    }
  }

  /** Filtering again with the same id changes nothing. */
  lemma WithoutIdIdempotent(s: seq<Record>, id: int)
    ensures WithoutId(WithoutId(s, id), id) == WithoutId(s, id)
  {
    var r := WithoutId(s, id);
    WithoutIdMembers(s, id);
    forall k | 0 <= k < |r| ensures r[k].id != id {
      assert r[k] in r;
    }
    WithoutIdMembers(r, id);
  }

  /** Filtering keeps a sorted list sorted. */
  lemma {:induction false} WithoutIdSorted(s: seq<Record>, id: int)
    requires SortedByStart(s)
    ensures SortedByStart(WithoutId(s, id))
    decreases |s|
  {
    if s != [] {
      var p, x := s[..|s| - 1], s[|s| - 1];
      SortedInit(s);
      WithoutIdSorted(p, id);
      var q := WithoutId(p, id);
      if x.id != id {
        WithoutIdMembers(p, id);
        forall i | 0 <= i < |q| ensures q[i].start <= x.start {
          assert q[i] in p;
          var j :| 0 <= j < |p| && p[j] == q[i];
        }
        assert StartsBy(q, x.start);
        AppendSorted(q, x);
      }
    }
  }

  /** Deleting the id of a record just inserted removes exactly that record
      when no other record shares its id. */
  lemma {:induction false} DeleteInserted(s: seq<Record>, x: Record)
    requires forall k :: 0 <= k < |s| ==> s[k].id != x.id
    ensures WithoutId(Insert(s, x), x.id) == s
    decreases |s|
  {
    if s != [] && x.start < s[|s| - 1].start {
      var p, y := s[..|s| - 1], s[|s| - 1];
      assert s == p + [y];
      DeleteInserted(p, x);
      var q := Insert(p, x) + [y];
      assert q[..|q| - 1] == Insert(p, x);
      assert WithoutId(q, x.id) == WithoutId(Insert(p, x), x.id) + [y];
    } else {
      var q := s + [x];
      assert q[..|q| - 1] == s;
      assert WithoutId(q, x.id) == WithoutId(s, x.id);
      WithoutIdMembers(s, x.id);
    }
  }

  /** The start time the entry form proposes: the end of the last record in the
      list when that end is not in the future, otherwise now. */
  function ProposedStart(s: seq<Record>, now: int): (t: int)
    ensures t <= now
    ensures s == [] ==> t == now
    ensures s != [] ==> t == if s[|s| - 1].end <= now then s[|s| - 1].end else now
  {
    if s != [] && s[|s| - 1].end <= now then s[|s| - 1].end else now
  }

  /** Taking the proposed start and now as the end, on the day of now, the new
      record continues the last one without a gap when the last one ended
      earlier the same day. */
  lemma ProposalContinues(s: seq<Record>, now: int, episode: string, location: string,
                          template: string, id: int, createdAt: int)
    requires s != [] && s[|s| - 1].end < now && DayOf(s[|s| - 1].end) == DayOf(now)
    requires episode != []
    ensures var r := MakeRecord(DayOf(now), MinuteOfDay(ProposedStart(s, now)), MinuteOfDay(now),
                                episode, location, template, id, createdAt);
      r.Accepted? && r.value.start == s[|s| - 1].end && r.value.end == now
  {
    var e := s[|s| - 1].end;
    assert MinuteOfDay(e) < MinuteOfDay(now);
  }

  /** The proposal keeps only the clock time of the last end, and the form
      combines it with the current day. A last record ending at 23:00 the day
      before, with now at 01:00, therefore gives a record from 23:00 today to
      01:00 tomorrow: it starts after now instead of continuing the last one. */
  lemma LateYesterdayJumpsAhead(s: seq<Record>, d: int, episode: string, location: string,
                                template: string, id: int, createdAt: int)
    requires s != [] && s[|s| - 1].end == At(d - 1, 23 * 60)
    requires episode != []
    ensures ProposedStart(s, At(d, 60)) == s[|s| - 1].end
    ensures var r := MakeRecord(d, MinuteOfDay(ProposedStart(s, At(d, 60))), MinuteOfDay(At(d, 60)),
                                episode, location, template, id, createdAt);
      r.Accepted? && r.value.start == At(d, 23 * 60) && r.value.start > At(d, 60)
      && r.value.end == At(d + 1, 60) && r.value.duration == 120
  {
    assert MinuteOfDay(At(d - 1, 23 * 60)) == 23 * 60;
  }

  /** The in-memory activity list of one session. */
  class Ledger {
    var activities: seq<Record>

    /** The list is always ordered by start time. */
    ghost predicate Valid()
      reads this
    {
      SortedByStart(activities)
    }

    /** Loading the stored list sorts it by start time. */
    constructor Load(stored: seq<Record>)
      ensures Valid()
      ensures activities == SortByStart(stored)
      ensures SortedByStart(stored) ==> activities == stored
    {
      activities := SortByStart(stored);
      if SortedByStart(stored) {
        SortedFixpoint(stored);
      }
    }

    /** Submit the entry form for the given day: on acceptance the record is
        appended and the list re-sorted; a rejection changes nothing. */
    method Submit(day: int, startClock: ClockTime, endClock: ClockTime,
                  episode: string, location: string, template: string,
                  id: int, createdAt: int) returns (r: Result<Record>)
      requires Valid()
      modifies this
      ensures Valid()
      ensures r == MakeRecord(day, startClock, endClock, episode, location, template, id, createdAt)
      ensures r.Accepted? ==> activities == SortByStart(old(activities) + [r.value])
      ensures r.Accepted? ==> activities == Insert(old(activities), r.value)
      ensures r.Accepted? ==> multiset(activities) == multiset(old(activities)) + multiset{r.value}
      ensures r.Rejected? ==> activities == old(activities)
    {
      r := MakeRecord(day, startClock, endClock, episode, location, template, id, createdAt);
      if r.Accepted? {
        SortAppend(activities, r.value);
        SortedFixpoint(activities);
        activities := SortByStart(activities + [r.value]);
      }
    }

    /** Delete every record with the given id. */
    method Delete(id: int)
      requires Valid()
      modifies this
      ensures Valid()
      ensures activities == WithoutId(old(activities), id)
    {
      WithoutIdSorted(activities, id);
      activities := WithoutId(activities, id);
    }

    /** Clear all records. */
    method Clear()
      modifies this
      ensures Valid()
      ensures activities == []
    {
      activities := [];
    }

    /** The start time the entry form proposes at time now. */
    method DefaultStart(now: int) returns (start: int)
      ensures start == ProposedStart(activities, now)
    {
      start := now;
      if activities != [] {
        var lastEnd := activities[|activities| - 1].end;
        if lastEnd <= now {
          start := lastEnd;
        } else {
          start := now;
        }
      }
    }
  }
}
