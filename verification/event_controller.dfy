/** `EventController`: creating, updating, reading and deleting events, and
    the UPCOMING / LIVE / COMPLETED label an event is given when it is read.
    HTTP responses become `Result` values; the clock is a parameter. */
module EventController {
  import opened Wrappers
  import opened Model
  import opened Repository

  datatype EventError =
    | TitleRequired            // 400 "Title is required"
    | ClubRequired             // 400 "Club is required"
    | TimesRequired            // 400 "Start time and end time required"
    | StartNotBeforeEnd        // 400 "Start time must be before end time"
    | StartInPast              // 400 "Start time cannot be in the past"
    | NotFound                 // 404

  /** How far in the past a new event may start: five minutes. */
  const StartSlack: int := 5 * 60

  /** `Character.isWhitespace`: the ASCII separators and controls it
      accepts and the Unicode space separators other than the no-break
      spaces. */
  predicate JavaWhitespace(c: char) {
    var n := c as int;
    || (0x09 <= n <= 0x0D) || (0x1C <= n <= 0x20)
    || n == 0x1680 || (0x2000 <= n <= 0x2006) || (0x2008 <= n <= 0x200A)
    || n == 0x2028 || n == 0x2029 || n == 0x205F || n == 0x3000
  }

  /** `String.isBlank`. */
  predicate IsBlank(s: string) {
    forall i :: 0 <= i < |s| ==> JavaWhitespace(s[i])
  }

  /** Java's `(int)` cast of a `long`: the low 32 bits, as a signed value. */
  function ToInt32(x: int): (r: int)
    ensures -0x8000_0000 <= r < 0x8000_0000
    ensures -0x8000_0000 <= x < 0x8000_0000 ==> r == x
    ensures (r - x) % 0x1_0000_0000 == 0
  {
    var m := x % 0x1_0000_0000;
    if m < 0x8000_0000 then m else m - 0x1_0000_0000
  }

  /** `(int) Duration.between(start, end).toMinutes()`: whole minutes,
      truncated toward zero, cast to `int`. */
  function DurationMinutes(start: Time, end: Time): int {
    ToInt32(JavaDiv(end - start, 60))
  }

  /** For a start before the end and a span that fits an `int` of minutes,
      the duration is the number of whole minutes in the span. */
  lemma DurationIsWholeMinutes(start: Time, end: Time)
    requires start < end
    requires end - start < 0x8000_0000 * 60
    ensures var d := DurationMinutes(start, end);
            && 0 <= d
            && d * 60 <= end - start < (d + 1) * 60
  {
    assert JavaDiv(end - start, 60) == (end - start) / 60;
  }

  /** The decision of `createEvent`: the event to save, or the first check
      that rejects the request. */
  function CreateOutcome(event: Event, now: Time): (r: Result<Event, EventError>)
    ensures r.Success? <==>
              && event.title.Some? && !IsBlank(event.title.value)
              && event.clubId.Some?
              && event.startTime.Some? && event.endTime.Some?
              && event.startTime.value < event.endTime.value
              && event.startTime.value >= now - StartSlack
    ensures r.Success? ==>
              && r.value.attendanceProcessed == Some(false)
              && r.value.durationInMinutes == Some(DurationMinutes(event.startTime.value, event.endTime.value))
              && r.value == event.(attendanceProcessed := r.value.attendanceProcessed,
                                   durationInMinutes := r.value.durationInMinutes)
    ensures event.title.None? ==> r == Failure(TitleRequired)
  {
    if event.title.None? || IsBlank(event.title.value) then Failure(TitleRequired)
    else if event.clubId.None? then Failure(ClubRequired)
    else if event.startTime.None? || event.endTime.None? then Failure(TimesRequired)
    else if !(event.startTime.value < event.endTime.value) then Failure(StartNotBeforeEnd)
    else if event.startTime.value < now - StartSlack then Failure(StartInPast)
    else Success(event.(attendanceProcessed := Some(false),
                        durationInMinutes := Some(DurationMinutes(event.startTime.value, event.endTime.value))))
  }

  /** `createEvent`. `save` is an upsert on the event's id; choosing an id
      for a request without one is left to the store and not modelled. */
  method CreateEvent(store: Store, event: Event, now: Time) returns (r: Result<Event, EventError>)
    requires store.Valid()
    modifies store
    ensures store.Valid()
    ensures r == CreateOutcome(event, now)
    ensures store.events == if r.Success? then old(store.events)[event.id := r.value] else old(store.events)
    ensures store.registrations == old(store.registrations) && store.sessions == old(store.sessions)
    ensures store.questions == old(store.questions) && store.contests == old(store.contests)
    ensures store.problems == old(store.problems) && store.users == old(store.users)
    ensures store.submissions == old(store.submissions)
  {
    if event.title.None? || IsBlank(event.title.value) {
      return Failure(TitleRequired);
    }
    if event.clubId.None? {
      return Failure(ClubRequired);
    }
    if event.startTime.None? || event.endTime.None? {
      return Failure(TimesRequired);
    }
    var start, end := event.startTime.value, event.endTime.value;
    if !(start < end) {
      return Failure(StartNotBeforeEnd);
    }
    if start < now - StartSlack {
      return Failure(StartInPast);
    }
    var saved := event.(attendanceProcessed := Some(false), durationInMinutes := Some(DurationMinutes(start, end)));
    store.events := store.events[event.id := saved];
    r := Success(saved);
  }

  /** A request field when it is set, the stored one otherwise. */
  function Pick<T>(requested: Option<T>, stored: Option<T>): Option<T> {
    if requested.Some? then requested else stored
  }

  /** The non-null fields of the request overwrite the stored ones; the
      type, the flag and the status are never taken from the request. */
  function Merge(event: Event, details: Event): Event {
    event.(
      title := Pick(details.title, event.title),
      startTime := Pick(details.startTime, event.startTime),
      endTime := Pick(details.endTime, event.endTime),
      durationInMinutes := Pick(details.durationInMinutes, event.durationInMinutes),
      totalMarks := Pick(details.totalMarks, event.totalMarks),
      clubId := Pick(details.clubId, event.clubId),
      facultyCoordinators := Pick(details.facultyCoordinators, event.facultyCoordinators),
      studentCoordinators := Pick(details.studentCoordinators, event.studentCoordinators))
  }

  /** Merging takes each of the eight fields the request may set (title,
      times, duration, total marks, club and both coordinator lists) when it
      is set and keeps the stored one otherwise; the identity, type, flag
      and status always come from the stored event, and applying the same
      request again changes nothing. */
  lemma MergeLaws(event: Event, details: Event)
    ensures var r := Merge(event, details);
            && r.id == event.id && r.eventType == event.eventType
            && r.attendanceProcessed == event.attendanceProcessed && r.status == event.status
            && (details.title.Some? ==> r.title == details.title)
            && (details.startTime.Some? ==> r.startTime == details.startTime)
            && (details.endTime.Some? ==> r.endTime == details.endTime)
            && (details.durationInMinutes.Some? ==> r.durationInMinutes == details.durationInMinutes)
            && (details.totalMarks.Some? ==> r.totalMarks == details.totalMarks)
            && (details.clubId.Some? ==> r.clubId == details.clubId)
            && (details.facultyCoordinators.Some? ==> r.facultyCoordinators == details.facultyCoordinators)
            && (details.studentCoordinators.Some? ==> r.studentCoordinators == details.studentCoordinators)
            && (details.title.None? ==> r.title == event.title)
            && (details.startTime.None? ==> r.startTime == event.startTime)
            && (details.endTime.None? ==> r.endTime == event.endTime)
            && (details.durationInMinutes.None? ==> r.durationInMinutes == event.durationInMinutes)
            && (details.totalMarks.None? ==> r.totalMarks == event.totalMarks)
            && (details.clubId.None? ==> r.clubId == event.clubId)
            && (details.facultyCoordinators.None? ==> r.facultyCoordinators == event.facultyCoordinators)
            && (details.studentCoordinators.None? ==> r.studentCoordinators == event.studentCoordinators)
            && Merge(r, details) == r
  {
  }

  /** The decision of `updateEvent`: the event to save, or why not. When
      both times are set after merging they must be ordered, and the
      duration is then derived from them, overriding a supplied one. */
  function UpdateOutcome(events: map<Id, Event>, id: Id, details: Event): (r: Result<Event, EventError>)
    ensures r.Success? <==>
              && id in events
              && var start := if details.startTime.Some? then details.startTime else events[id].startTime;
                 var end := if details.endTime.Some? then details.endTime else events[id].endTime;
                 !(start.Some? && end.Some? && start.value >= end.value)
    ensures r.Failure? ==> r.error == if id in events then StartNotBeforeEnd else NotFound
    ensures r.Success? ==>
              r.value.(durationInMinutes := None) == Merge(events[id], details).(durationInMinutes := None)
    ensures r.Success? ==>
              var start := if details.startTime.Some? then details.startTime else events[id].startTime;
              var end := if details.endTime.Some? then details.endTime else events[id].endTime;
              r.value.durationInMinutes ==
                if start.Some? && end.Some? then Some(DurationMinutes(start.value, end.value))
                else if details.durationInMinutes.Some? then details.durationInMinutes
                else events[id].durationInMinutes
  {
    if id !in events then Failure(NotFound)
    else
      var event := Merge(events[id], details);
      if event.startTime.Some? && event.endTime.Some? then
        if !(event.startTime.value < event.endTime.value) then Failure(StartNotBeforeEnd)
        else Success(event.(durationInMinutes := Some(DurationMinutes(event.startTime.value, event.endTime.value))))
      else Success(event)
  }

  /** `updateEvent`: nothing is saved unless the update is accepted. */
  method UpdateEvent(store: Store, id: Id, details: Event) returns (r: Result<Event, EventError>)
    requires store.Valid()
    modifies store
    ensures store.Valid()
    ensures r == UpdateOutcome(old(store.events), id, details)
    ensures store.events == if r.Success? then old(store.events)[id := r.value] else old(store.events)
    ensures store.registrations == old(store.registrations) && store.sessions == old(store.sessions)
    ensures store.questions == old(store.questions) && store.contests == old(store.contests)
    ensures store.problems == old(store.problems) && store.users == old(store.users)
    ensures store.submissions == old(store.submissions)
  {
    if id !in store.events {
      return Failure(NotFound);
    }
    var event := Merge(store.events[id], details);
    if event.startTime.Some? && event.endTime.Some? {
      if !(event.startTime.value < event.endTime.value) {
        return Failure(StartNotBeforeEnd);
      }
      event := event.(durationInMinutes := Some(DurationMinutes(event.startTime.value, event.endTime.value)));
    }
    store.events := store.events[id := event];
    r := Success(event);
  }

  /** Repeating an accepted update with the same request saves the same
      event again. */
  lemma UpdateIdempotent(events: map<Id, Event>, id: Id, details: Event)
    requires UpdateOutcome(events, id, details).Success?
    ensures var once := UpdateOutcome(events, id, details).value;
            UpdateOutcome(events[id := once], id, details) == Success(once)
  {
    var once := UpdateOutcome(events, id, details).value;
    var merged := Merge(events[id], details);
    assert Merge(once, details).(durationInMinutes := once.durationInMinutes) == once;
  }

  /** An accepted update keeps the event under its id with its type, its
      processed flag and its start before its end whenever both are set. */
  lemma UpdateKeeps(events: map<Id, Event>, id: Id, details: Event)
    requires UpdateOutcome(events, id, details).Success?
    ensures var e := UpdateOutcome(events, id, details).value;
            && e.id == events[id].id
            && e.eventType == events[id].eventType
            && e.attendanceProcessed == events[id].attendanceProcessed
            && (e.startTime.Some? && e.endTime.Some? ==> e.startTime.value < e.endTime.value)
  {
  }

  /** `updateStatus`: the label for an event read at `now`. Both bounds of
      the window count as live. */
  function StatusAt(event: Event, now: Time): (r: EventStatus)
    ensures r == Live <==>
              event.startTime.Some? && event.endTime.Some?
              && event.startTime.value <= now <= event.endTime.value
    ensures r == EventStatus.Completed <==>
              event.startTime.Some? && event.endTime.Some?
              && event.startTime.value <= now && now > event.endTime.value
    ensures r == Upcoming <==>
              event.startTime.None? || event.endTime.None? || now < event.startTime.value
  {
    if event.startTime.None? || event.endTime.None? then Upcoming
    else if now < event.startTime.value then Upcoming
    else if now > event.endTime.value then EventStatus.Completed
    else Live
  }

  /** The order in which the labels follow each other. */
  function Stage(s: EventStatus): nat {
    match s
    case Upcoming => 0
    case Live => 1
    case Completed => 2
  }

  /** For an event with both times set and its start not after its end, the
      label only moves forward as time passes. */
  lemma StatusMovesForward(event: Event, t1: Time, t2: Time)
    requires event.startTime.Some? && event.endTime.Some?
    requires event.startTime.value <= event.endTime.value
    requires t1 <= t2
    ensures Stage(StatusAt(event, t1)) <= Stage(StatusAt(event, t2))
  {
  }

  /** The event as returned by a read: the stored record labelled for `now`
      (the label is not saved). */
  function Labelled(event: Event, now: Time): (r: Event)
    ensures r.status == Some(StatusAt(event, now))
    ensures r.(status := event.status) == event
  {
    event.(status := Some(StatusAt(event, now)))
  }

  /** `getAllEvents`: every stored event, labelled. */
  function GetAllEvents(events: map<Id, Event>, now: Time): (r: map<Id, Event>)
    ensures r.Keys == events.Keys
    ensures forall id :: id in r ==> r[id] == Labelled(events[id], now)
  {
    map id | id in events :: Labelled(events[id], now)
  }

  /** `getEvent`. */
  function GetEvent(events: map<Id, Event>, id: Id, now: Time): (r: Result<Event, EventError>)
    ensures r.Success? <==> id in events
    ensures r.Success? ==> r.value.status.Some? && r.value.(status := events[id].status) == events[id]
    ensures r.Failure? ==> r.error == NotFound
  {
    if id in events then Success(Labelled(events[id], now)) else Failure(NotFound)
  }

  /** `deleteEvent`: an unknown id is reported and nothing changes. Only
      the event itself is removed; its registrations, sessions and
      questions stay. */
  method DeleteEvent(store: Store, id: Id) returns (r: Result<(), EventError>)
    requires store.Valid()
    modifies store
    ensures store.Valid()
    ensures r.Success? <==> id in old(store.events)
    ensures r.Failure? ==> r.error == NotFound
    ensures store.events == old(store.events) - {id}
    ensures store.registrations == old(store.registrations) && store.sessions == old(store.sessions)
    ensures store.questions == old(store.questions) && store.contests == old(store.contests)
    ensures store.problems == old(store.problems) && store.users == old(store.users)
    ensures store.submissions == old(store.submissions)
  {
    if id !in store.events {
      return Failure(NotFound);
    }
    store.events := store.events - {id};
    r := Success(());
  }
}
