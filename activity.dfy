/** Activity records and the validation of a submitted entry form.
    Timestamps are whole minutes counted from an epoch midnight:
    a timestamp t lies on calendar day t / 1440 at minute t % 1440 of that day. */
module Activity {

  const MinutesPerDay: int := 1440

  /** A reading of the minute-step time picker: minutes since midnight. */
  type ClockTime = m: int | 0 <= m < 1440

  /** Calendar day of a timestamp (Dafny's division floors, like the calendar). */
  function DayOf(t: int): int
  {
    t / MinutesPerDay
  }

  /** `hour * 60 + minute` of a timestamp. */
  function MinuteOfDay(t: int): (m: int)
    ensures 0 <= m < MinutesPerDay
    ensures t == DayOf(t) * MinutesPerDay + m
  {
    t % MinutesPerDay
  }

  /** A clock time combined with a calendar day. */
  function At(day: int, clock: ClockTime): (t: int)
    ensures DayOf(t) == day && MinuteOfDay(t) == clock
  {
    day * MinutesPerDay + clock
  }

  /** One logged activity, as stored in the ledger. */
  datatype Record = Record(
    id: int,
    start: int,
    end: int,
    duration: int,
    episode: string,
    location: string,
    description: string,  // the name of the template chosen in the form, or ""
    createdAt: int)

  /** Why a submitted form was refused. */
  datatype Rejection = EndNotAfterStart | MissingEpisode

  datatype Result<T> = Accepted(value: T) | Rejected(reason: Rejection)

  /** The end timestamp after the midnight wrap: an end clock time earlier than
      the start clock time is read as belonging to the following day. */
  function NormalizedEnd(day: int, startClock: ClockTime, endClock: ClockTime): (e: int)
    ensures e == At(day, endClock) + (if endClock < startClock then MinutesPerDay else 0)
    ensures At(day, startClock) <= e < At(day, startClock) + MinutesPerDay
    ensures MinuteOfDay(e) == endClock
  {
    var s := At(day, startClock);
    var e := At(day, endClock);
    if e < s then e + MinutesPerDay else e
  }

  /** The whole minutes between the start and the normalized end. */
  function Duration(day: int, startClock: ClockTime, endClock: ClockTime): (d: int)
    ensures d == if startClock <= endClock then endClock - startClock
                 else endClock - startClock + MinutesPerDay
    ensures 0 <= d < MinutesPerDay
    ensures d == 0 <==> startClock == endClock
  {
    NormalizedEnd(day, startClock, endClock) - At(day, startClock)
  }

  /** The submit branch of the entry form: build the record, or say why not.
      The duration check comes before the episode check. */
  function MakeRecord(day: int, startClock: ClockTime, endClock: ClockTime,
                      episode: string, location: string, template: string,
                      id: int, createdAt: int): (r: Result<Record>)
    ensures r.Rejected? <==> startClock == endClock || episode == []
    ensures startClock == endClock ==> r == Rejected(EndNotAfterStart)
    ensures startClock != endClock && episode == [] ==> r == Rejected(MissingEpisode)
    ensures r.Accepted? ==>
      var a := r.value;
      && a.start == At(day, startClock)
      && MinuteOfDay(a.end) == endClock
      && DayOf(a.end) == (if endClock < startClock then day + 1 else day)
      && a.duration == a.end - a.start
      && 1 <= a.duration <= MinutesPerDay - 1
      && a.id == id && a.episode == episode && a.location == location
      && a.description == template && a.createdAt == createdAt
  {
    var start := At(day, startClock);
    var end := NormalizedEnd(day, startClock, endClock);
    var duration := Duration(day, startClock, endClock);
    if duration <= 0 then Rejected(EndNotAfterStart)
    else if episode == [] then Rejected(MissingEpisode)
    else Accepted(Record(id, start, end, duration, episode, location, template, createdAt))
  }

  /** The overnight case: 23:30 to 00:30 is accepted, lasts an hour and ends
      on the next calendar day. */
  lemma NightShift(day: int)
    ensures var r := MakeRecord(day, 23 * 60 + 30, 30, "night shift", "", "", 0, 0);
      r.Accepted? && r.value.duration == 60 && DayOf(r.value.end) == day + 1
  {
  }
}
