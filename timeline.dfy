/** The 24-hour bar of today's records: gap segments and activity segments in
    minutes of the day, from 0 to 1440. */
module Timeline {
  import opened Activity
  import opened Ordering
  import opened Text

  /** A gap before an activity, the remaining time after the last one, or an
      activity with its colour class and its episode. */
  datatype Kind = Gap | Remainder | Act(category: Category, episode: string)

  datatype Segment = Segment(from: int, to: int, kind: Kind)

  /** The records whose start lies on the given day, in their list order. */
  function OnDay(s: seq<Record>, day: int): (r: seq<Record>)
    ensures forall a :: a in r <==> a in s && DayOf(a.start) == day
    ensures |r| <= |s|
    decreases |s|
  {
    if s == [] then []
    else
      var p, x := s[..|s| - 1], s[|s| - 1];
      assert s == p + [x];
      OnDay(p, day) + (if DayOf(x.start) == day then [x] else [])
  }

  /** Selection distributes over concatenation, so it keeps the records'
      relative order. */
  lemma {:induction false} OnDayConcat(s: seq<Record>, t: seq<Record>, day: int)
    ensures OnDay(s + t, day) == OnDay(s, day) + OnDay(t, day)
    decreases |t|
  {
    if t == [] {
      assert s + t == s;
    } else {
      var p, x := t[..|t| - 1], t[|t| - 1];
      var tail := if DayOf(x.start) == day then [x] else [];
      assert (s + t)[..|s + t| - 1] == s + p;
      assert OnDay(s + t, day) == OnDay(s + p, day) + tail;
      assert OnDay(t, day) == OnDay(p, day) + tail;
      OnDayConcat(s, p, day);
    }
  }

  /** Selection keeps every copy of a record of the day and drops every other. */
  lemma {:induction false} OnDayCounts(s: seq<Record>, day: int, a: Record)
    ensures multiset(OnDay(s, day))[a] == if DayOf(a.start) == day then multiset(s)[a] else 0
    decreases |s|
  {
    if s != [] {
      var p, x := s[..|s| - 1], s[|s| - 1];
      assert s == p + [x];
      OnDayCounts(p, day, a);
    }
  }

  /** The bar segment of one record: from its start minute to its end minute. */
  function ActivitySegment(a: Record): Segment
  {
    Segment(MinuteOfDay(a.start), MinuteOfDay(a.end), Act(CategoryOf(a.description, a.episode), a.episode))
  }

  /** The segment walk from the cursor: a gap before each record that starts
      after the cursor, the record itself, the cursor moved to its end minute,
      and a remainder segment when the cursor ends below 1440. */
  function Walk(acts: seq<Record>, cursor: int): seq<Segment>
    decreases |acts|
  {
    if acts == [] then
      (if cursor < MinutesPerDay then [Segment(cursor, MinutesPerDay, Remainder)] else [])
    else
      var a := acts[0];
      var startMin := MinuteOfDay(a.start);
      (if startMin > cursor then [Segment(cursor, startMin, Gap)] else [])
      + [ActivitySegment(a)] + Walk(acts[1..], MinuteOfDay(a.end))
  }

  /** The bar for a day: that day's records, sorted, walked from minute 0. */
  function DayBar(s: seq<Record>, day: int): seq<Segment>
  {
    Walk(SortByStart(OnDay(s, day)), 0)
  }

  /** The loop that builds the bar. */
  method RenderTimeline(activities: seq<Record>, today: int) returns (segments: seq<Segment>)
    ensures segments == DayBar(activities, today)
  {
    var sorted := SortByStart(OnDay(activities, today));
    segments := [];
    var lastEnd := 0;
    for i := 0 to |sorted|
      invariant 0 <= lastEnd < MinutesPerDay
      invariant segments + Walk(sorted[i..], lastEnd) == Walk(sorted, 0)
    {
      var a := sorted[i];
      var startMin := MinuteOfDay(a.start);
      var endMin := MinuteOfDay(a.end);
      assert sorted[i..][1..] == sorted[i + 1..];
      if startMin > lastEnd {
        segments := segments + [Segment(lastEnd, startMin, Gap)];
      }
      segments := segments + [Segment(startMin, endMin, Act(CategoryOf(a.description, a.episode), a.episode))];
      lastEnd := endMin;
    }
    if lastEnd < MinutesPerDay {
      segments := segments + [Segment(lastEnd, MinutesPerDay, Remainder)];
    }
  }

  /** A gap comes first exactly when the first record starts after the cursor;
      otherwise the record's own segment comes first. */
  lemma GapFirstIff(acts: seq<Record>, cursor: int)
    requires acts != []
    ensures Walk(acts, cursor)[0].kind == Gap <==> MinuteOfDay(acts[0].start) > cursor
    ensures MinuteOfDay(acts[0].start) > cursor ==>
      Walk(acts, cursor)[0] == Segment(cursor, MinuteOfDay(acts[0].start), Gap)
    ensures MinuteOfDay(acts[0].start) <= cursor ==>
      Walk(acts, cursor)[0] == ActivitySegment(acts[0])
  {
  }

  /** The activity segments of a bar, in order. */
  function Activities(segs: seq<Segment>): seq<Segment>
    decreases |segs|
  {
    if segs == [] then []
    else (if segs[0].kind.Act? then [segs[0]] else []) + Activities(segs[1..])
  }

  lemma {:induction false} ActivitiesConcat(s: seq<Segment>, t: seq<Segment>)
    ensures Activities(s + t) == Activities(s) + Activities(t)
    decreases |s|
  {
    if s == [] {
      assert s + t == t;
    } else {
      var head := if s[0].kind.Act? then [s[0]] else [];
      assert (s + t)[0] == s[0];
      assert (s + t)[1..] == s[1..] + t;
      assert Activities(s + t) == head + Activities(s[1..] + t);
      assert Activities(s) == head + Activities(s[1..]);
      ActivitiesConcat(s[1..], t);
    }
  }

  /** The records' own segments, in the records' order. */
  function RecordSegments(acts: seq<Record>): (r: seq<Segment>)
    decreases |acts|
  {
    if acts == [] then [] else [ActivitySegment(acts[0])] + RecordSegments(acts[1..])
  }

  lemma {:induction false} RecordSegmentsAt(acts: seq<Record>, k: int)
    requires 0 <= k < |acts|
    ensures |RecordSegments(acts)| == |acts| && RecordSegments(acts)[k] == ActivitySegment(acts[k])
    decreases |acts|
  {
    if k > 0 {
      RecordSegmentsAt(acts[1..], k - 1);
    } else if |acts| > 1 {
      RecordSegmentsAt(acts[1..], 0);
    }
  }

  /** The walk emits exactly the records' own segments, one per record and in
      the records' order, with only gaps and the remainder between them. */
  lemma {:induction false} WalkActivities(acts: seq<Record>, cursor: int)
    ensures Activities(Walk(acts, cursor)) == RecordSegments(acts)
    decreases |acts|
  {
    if acts == [] {
      assert Activities([Segment(cursor, MinutesPerDay, Remainder)]) == [];
    } else {
      var a := acts[0];
      var gap := if MinuteOfDay(a.start) > cursor then [Segment(cursor, MinuteOfDay(a.start), Gap)] else [];
      var rest := Walk(acts[1..], MinuteOfDay(a.end));
      assert Walk(acts, cursor) == gap + ([ActivitySegment(a)] + rest);
      WalkActivities(acts[1..], MinuteOfDay(a.end));
      StepActivities(gap, ActivitySegment(a), rest);
    }
  }

  /** One step of the walk: a possible gap, one record segment, the rest. */
  lemma StepActivities(gap: seq<Segment>, seg: Segment, rest: seq<Segment>)
    requires |gap| <= 1 && (gap != [] ==> gap[0].kind.Gap?) && seg.kind.Act?
    ensures Activities(gap + ([seg] + rest)) == [seg] + Activities(rest)
  {
    ActivitiesConcat(gap, [seg] + rest);
    if gap != [] {
      assert gap[1..] == [];
    }
    assert ([seg] + rest)[1..] == rest;
  }

  /** Every gap and the remainder are non-empty intervals, and the walk always
      closes with a remainder segment reaching 1440 (end minutes never exceed
      1439, so the cursor stays below 1440). */
  lemma {:induction false} WalkGapsAndRemainder(acts: seq<Record>, cursor: int)
    requires 0 <= cursor < MinutesPerDay
    ensures var w := Walk(acts, cursor);
      && |w| >= 1
      && w[|w| - 1] == Segment(w[|w| - 1].from, MinutesPerDay, Remainder)
      && (forall k :: 0 <= k < |w| && !w[k].kind.Act? ==> w[k].from < w[k].to)
    decreases |acts|
  {
    if acts != [] {
      var a := acts[0];
      WalkGapsAndRemainder(acts[1..], MinuteOfDay(a.end));
    }
  }

  /** Segments laid end to end from `from` up to `to`, none reversed. */
  predicate Contiguous(segs: seq<Segment>, from: int, to: int)
    decreases |segs|
  {
    if segs == [] then from == to
    else segs[0].from == from && segs[0].from <= segs[0].to && Contiguous(segs[1..], segs[0].to, to)
  }

  function TotalLength(segs: seq<Segment>): int
    decreases |segs|
  {
    if segs == [] then 0 else (segs[0].to - segs[0].from) + TotalLength(segs[1..])
  }

  /** Contiguous segments from a to b have lengths summing to b - a. */
  lemma {:induction false} ContiguousLength(segs: seq<Segment>, a: int, b: int)
    requires Contiguous(segs, a, b)
    ensures TotalLength(segs) == b - a
    decreases |segs|
  {
    if segs != [] {
      ContiguousLength(segs[1..], segs[0].to, b);
    }
  }

  /** A record that ends no earlier than it starts, on its start day. */
  predicate WithinDay(a: Record)
  {
    a.start <= a.end && DayOf(a.end) == DayOf(a.start)
  }

  /** Each record ends no later than the next one starts. */
  predicate NonOverlapping(acts: seq<Record>)
  {
    forall k :: 0 <= k < |acts| - 1 ==> acts[k].end <= acts[k + 1].start
  }

  lemma {:induction false} WalkCovers(acts: seq<Record>, cursor: int, day: int)
    requires 0 <= cursor < MinutesPerDay
    requires forall k :: 0 <= k < |acts| ==> DayOf(acts[k].start) == day && WithinDay(acts[k])
    requires NonOverlapping(acts)
    requires acts != [] ==> cursor <= MinuteOfDay(acts[0].start)
    ensures Contiguous(Walk(acts, cursor), cursor, MinutesPerDay)
    decreases |acts|
  {
    if acts != [] {
      var a := acts[0];
      var tail := acts[1..];
      if tail != [] {
        assert a.end <= tail[0].start;
        assert DayOf(tail[0].start) == day;
      }
      WalkCovers(tail, MinuteOfDay(a.end), day);
      var rest := Walk(tail, MinuteOfDay(a.end));
      var seg := ActivitySegment(a);
      assert Contiguous([seg] + rest, seg.from, MinutesPerDay) by {
        assert ([seg] + rest)[1..] == rest;
      }
      if MinuteOfDay(a.start) > cursor {
        var w := [Segment(cursor, MinuteOfDay(a.start), Gap)] + ([seg] + rest);
        assert w[1..] == [seg] + rest;
        assert Walk(acts, cursor) == w;
      } else {
        assert Walk(acts, cursor) == [seg] + rest;
      }
    }
  }

  /** Full-day coverage: when the day's records, sorted, neither overlap nor run
      past midnight, the bar runs contiguously from 0 to 1440 and its segment
      lengths add up to 1440. */
  lemma DayCovered(s: seq<Record>, day: int)
    requires forall a :: a in s && DayOf(a.start) == day ==> WithinDay(a)
    requires NonOverlapping(SortByStart(OnDay(s, day)))
    ensures Contiguous(DayBar(s, day), 0, MinutesPerDay)
    ensures TotalLength(DayBar(s, day)) == MinutesPerDay
  {
    var sorted := SortByStart(OnDay(s, day));
    forall k | 0 <= k < |sorted| ensures DayOf(sorted[k].start) == day && WithinDay(sorted[k]) {
      assert sorted[k] in multiset(OnDay(s, day));
      assert sorted[k] in OnDay(s, day);
    }
    WalkCovers(sorted, 0, day);
    ContiguousLength(DayBar(s, day), 0, MinutesPerDay);
  }

  /** A day without records is one remainder segment over the whole day. */
  lemma EmptyDay(s: seq<Record>, day: int)
    requires forall a :: a in s ==> DayOf(a.start) != day
    ensures DayBar(s, day) == [Segment(0, MinutesPerDay, Remainder)]
  {
  }

  /** Breakfast from 09:00 to 10:30 and waking up from 08:00 to 09:00. */
  function Breakfast(today: int): Record
  {
    Record(1, At(today, 540), At(today, 630), 90, "breakfast", "", "", 0)
  }

  function WakeUp(today: int): Record
  {
    Record(2, At(today, 480), At(today, 540), 60, "wake up", "", "", 0)
  }

  /** Both morning entries are accepted as those records. */
  lemma MorningRecords(today: int)
    ensures MakeRecord(today, 9 * 60, 10 * 60 + 30, "breakfast", "", "", 1, 0) == Accepted(Breakfast(today))
    ensures MakeRecord(today, 8 * 60, 9 * 60, "wake up", "", "", 2, 0) == Accepted(WakeUp(today))
  {
  }

  lemma WakeUpInserted(today: int)
    ensures Insert([Breakfast(today)], WakeUp(today)) == [WakeUp(today), Breakfast(today)]
  {
    var b, w := Breakfast(today), WakeUp(today);
    assert w.start < b.start;
    assert Insert([b], w) == Insert([], w) + [b];
  }

  /** Logged after breakfast, waking up is sorted first. */
  lemma MorningOrder(today: int)
    ensures SortByStart([Breakfast(today), WakeUp(today)]) == [WakeUp(today), Breakfast(today)]
  {
    var b, w := Breakfast(today), WakeUp(today);
    assert [b, w] == [b] + [w];
    SortAppend([b], w);
    SortedFixpoint([b]);
    WakeUpInserted(today);
  }

  lemma MorningSelected(today: int)
    ensures SortByStart(OnDay([WakeUp(today), Breakfast(today)], today)) == [WakeUp(today), Breakfast(today)]
  {
    var b, w := Breakfast(today), WakeUp(today);
    var both := [w, b];
    assert both[..1] == [w];
    assert OnDay([w], today) == [w];
    assert OnDay(both, today) == both;
    assert SortedByStart(both);
    SortedFixpoint(both);
  }

  lemma MorningWalk(today: int)
    ensures Walk([WakeUp(today), Breakfast(today)], 0) ==
      [Segment(0, 480, Gap), ActivitySegment(WakeUp(today)), ActivitySegment(Breakfast(today)),
       Segment(630, MinutesPerDay, Remainder)]
  {
    var b, w := Breakfast(today), WakeUp(today);
    var both := [w, b];
    assert both[1..] == [b];
    assert Walk([], 630) == [Segment(630, MinutesPerDay, Remainder)];
    assert Walk([b], 540) == [ActivitySegment(b)] + Walk([], 630);
    assert Walk(both, 0) == [Segment(0, 480, Gap)] + [ActivitySegment(w)] + Walk([b], 540);
  }

  /** The morning's bar: a gap to 08:00, the two activities, and the
      remainder from 10:30. */
  lemma MorningBar(today: int)
    ensures DayBar([WakeUp(today), Breakfast(today)], today) ==
      [Segment(0, 480, Gap), ActivitySegment(WakeUp(today)), ActivitySegment(Breakfast(today)),
       Segment(630, MinutesPerDay, Remainder)]
  {
    MorningSelected(today);
    MorningWalk(today);
  }
}
