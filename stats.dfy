/** The statistics panel's figure of unrecorded time today:
    1440 minus the durations of the records that start today. */
module Stats {
  import opened Activity
  import opened Ordering
  import opened Timeline

  datatype Option<T> = None | Some(value: T)

  function SumDurations(s: seq<Record>): int
    decreases |s|
  {
    if s == [] then 0 else SumDurations(s[..|s| - 1]) + s[|s| - 1].duration
  }

  lemma {:induction false} SumDurationsCons(a: Record, t: seq<Record>)
    ensures SumDurations([a] + t) == a.duration + SumDurations(t)
    decreases |t|
  {
    if t != [] {
      var p, x := t[..|t| - 1], t[|t| - 1];
      assert ([a] + t)[..|t|] == [a] + p;
      SumDurationsCons(a, p);
    }
  }

  lemma {:induction false} SumDurationsInsert(t: seq<Record>, x: Record)
    ensures SumDurations(Insert(t, x)) == SumDurations(t) + x.duration
    decreases |t|
  {
    if t != [] && x.start < t[|t| - 1].start {
      var p, y := t[..|t| - 1], t[|t| - 1];
      SumDurationsInsert(p, x);
      var q := Insert(p, x) + [y];
      assert q[..|q| - 1] == Insert(p, x);
    } else if t != [] {
      var q := t + [x];
      assert q[..|q| - 1] == t;
    }
  }

  /** Sorting does not change the total duration. */
  lemma {:induction false} SumDurationsSort(s: seq<Record>)
    ensures SumDurations(SortByStart(s)) == SumDurations(s)
    decreases |s|
  {
    if s != [] {
      SumDurationsSort(s[..|s| - 1]);
      SumDurationsInsert(SortByStart(s[..|s| - 1]), s[|s| - 1]);
    }
  }

  /** The unrecorded minutes of the day; nothing at all is shown while the
      ledger is empty. */
  function Unrecorded(s: seq<Record>, day: int): (r: Option<int>)
    ensures r.None? <==> s == []
    ensures (forall a :: a in s ==> DayOf(a.start) != day) && s != [] ==> r == Some(MinutesPerDay)
  {
    if s == [] then None
    else
      var today := OnDay(s, day);
      assert (forall a :: a in s ==> DayOf(a.start) != day) ==> today == [] by {
        if today != [] {
          assert today[0] in today;
        }
      }
      Some(MinutesPerDay - SumDurations(today))
  }

  /** The segments of a bar that are gaps or the remainder. */
  function Gaps(segs: seq<Segment>): seq<Segment>
    decreases |segs|
  {
    if segs == [] then []
    else (if segs[0].kind.Act? then [] else [segs[0]]) + Gaps(segs[1..])
  }

  /** A bar's length splits into activity time and gap time. */
  lemma {:induction false} LengthByKind(segs: seq<Segment>)
    ensures TotalLength(segs) == TotalLength(Activities(segs)) + TotalLength(Gaps(segs))
    decreases |segs|
  {
    if segs != [] {
      LengthByKind(segs[1..]);
      var head := [segs[0]];
      assert TotalLength(head) == segs[0].to - segs[0].from;
      if segs[0].kind.Act? {
        assert Activities(segs) == head + Activities(segs[1..]);
        assert Gaps(segs) == [] + Gaps(segs[1..]);
        assert [] + Gaps(segs[1..]) == Gaps(segs[1..]);
        LengthConcat(head, Activities(segs[1..]));
        assert TotalLength(Activities(segs)) == TotalLength(head) + TotalLength(Activities(segs[1..]));
        assert TotalLength(segs) == TotalLength(head) + TotalLength(segs[1..]);
      } else {
        assert Gaps(segs) == head + Gaps(segs[1..]);
        assert Activities(segs) == [] + Activities(segs[1..]);
        assert [] + Activities(segs[1..]) == Activities(segs[1..]);
        LengthConcat(head, Gaps(segs[1..]));
        assert TotalLength(Gaps(segs)) == TotalLength(head) + TotalLength(Gaps(segs[1..]));
        assert TotalLength(segs) == TotalLength(head) + TotalLength(segs[1..]);
      }
    }
  }

  lemma {:induction false} LengthConcat(s: seq<Segment>, t: seq<Segment>)
    ensures TotalLength(s + t) == TotalLength(s) + TotalLength(t)
    decreases |s|
  {
    if s == [] {
      assert s + t == t;
    } else {
      assert (s + t)[1..] == s[1..] + t;
      LengthConcat(s[1..], t);
    }
  }

  /** A record that stays within its day and carries its true duration. */
  predicate Proper(a: Record)
  {
    WithinDay(a) && a.duration == a.end - a.start
  }

  /** The segments of records that stay within their day and carry their true
      duration add up to the records' durations. */
  lemma {:induction false} ActivityTime(acts: seq<Record>)
    requires forall k :: 0 <= k < |acts| ==> Proper(acts[k])
    ensures TotalLength(RecordSegments(acts)) == SumDurations(acts)
    decreases |acts|
  {
    if acts != [] {
      var a := acts[0];
      assert Proper(acts[0]);
      ActivityTime(acts[1..]);
      assert acts == [a] + acts[1..];
      SumDurationsCons(a, acts[1..]);
      assert MinuteOfDay(a.end) - MinuteOfDay(a.start) == a.end - a.start;
      assert RecordSegments(acts)[1..] == RecordSegments(acts[1..]);
    }
  }

  /** The sorted records of the day are proper when every record of the day is. */
  lemma SortedDayProper(s: seq<Record>, day: int)
    requires forall a :: a in s && DayOf(a.start) == day ==> Proper(a)
    ensures forall k :: 0 <= k < |SortByStart(OnDay(s, day))| ==> Proper(SortByStart(OnDay(s, day))[k])
  {
    var today := OnDay(s, day);
    var sorted := SortByStart(today);
    forall k | 0 <= k < |sorted| ensures Proper(sorted[k]) {
      assert sorted[k] in multiset(today);
      assert sorted[k] in today;
    }
  }

  /** The statistics figure equals the gap time of the timeline bar, when the
      day's records neither overlap nor run past midnight and carry their true
      durations. */
  lemma UnrecordedIsGapTime(s: seq<Record>, day: int)
    requires s != []
    requires forall a :: a in s && DayOf(a.start) == day ==> Proper(a)
    requires NonOverlapping(SortByStart(OnDay(s, day)))
    ensures Unrecorded(s, day) == Some(TotalLength(Gaps(DayBar(s, day))))
  {
    var today := OnDay(s, day);
    var sorted := SortByStart(today);
    var bar := DayBar(s, day);
    DayCovered(s, day);
    LengthByKind(bar);
    WalkActivities(sorted, 0);
    SortedDayProper(s, day);
    ActivityTime(sorted);
    SumDurationsSort(today);
    assert TotalLength(bar) == MinutesPerDay;
    assert TotalLength(Activities(bar)) == SumDurations(today);
  }
}
