/** `AttendanceScheduler.markAbsentStudents`: every MCQ event that has ended
    and whose attendance is not yet processed gets an ABSENT session for each
    registrant without a session, and then its processed flag is set. The
    cron trigger and the clock are outside the model: `now` is a parameter. */
module AttendanceScheduler {
  import opened Wrappers
  import opened Model
  import opened Repository

  /** The event is swept at `now`: an MCQ event with an end time in the
      past whose flag is exactly `false` (a missing flag is skipped). */
  predicate Eligible(e: Event, now: Time) {
    && e.eventType == Some("MCQ")
    && e.endTime.Some?
    && now > e.endTime.value
    && e.attendanceProcessed == Some(false)
  }

  /** The session recorded for a registrant who never started the test. */
  function AbsentRecord(studentId: Id, eventId: Id, now: Time): (s: McqSubmission)
    ensures s.status == Absent && s.studentId == studentId && s.eventId == eventId
    ensures s.totalScore == Some(0.0) && s.correctCount == Some(0) && s.wrongCount == Some(0)
    ensures s.submittedAt == Some(now) && s.startTime.None? && s.answers.None?
  {
    McqSubmission(studentId, eventId, None, Some(now), Absent, Some(0.0), Some(0), Some(0), None)
  }

  /** The event after the sweep has handled it. */
  function Processed(e: Event): (r: Event)
    ensures r.attendanceProcessed == Some(true)
    ensures r == e.(attendanceProcessed := Some(true))
  {
    e.(attendanceProcessed := Some(true))
  }

  /** The events after the sweep has visited the events of `done`. */
  function SweptEvents(events: map<Id, Event>, now: Time, done: set<Id>): map<Id, Event> {
    map id | id in events :: if id in done && Eligible(events[id], now) then Processed(events[id]) else events[id]
  }

  /** The registration keys (eventId, studentId) whose registrant is marked
      when the events of `done` have been visited. */
  function MarkedKeys(events: map<Id, Event>, registrations: map<(Id, Id), Registration>, now: Time, done: set<Id>): set<(Id, Id)> {
    set k | k in registrations && k.0 in done && k.0 in events && Eligible(events[k.0], now)
  }

  /** The session key (studentId, eventId) of a registration key. */
  function SessionKey(k: (Id, Id)): (Id, Id) {
    (k.1, k.0)
  }

  /** `sessions` with an ABSENT record added for each registration key of
      `marked` that has no session. */
  function Marked(sessions: map<(Id, Id), McqSubmission>, marked: set<(Id, Id)>, now: Time): map<(Id, Id), McqSubmission> {
    var added := set k | k in marked :: SessionKey(k);
    map k | k in sessions.Keys + added :: if k in sessions then sessions[k] else AbsentRecord(k.0, k.1, now)
  }

  /** The whole sweep on the events and sessions. */
  function SweepEvents(events: map<Id, Event>, now: Time): map<Id, Event> {
    SweptEvents(events, now, events.Keys)
  }

  function SweepSessions(events: map<Id, Event>, registrations: map<(Id, Id), Registration>,
                         sessions: map<(Id, Id), McqSubmission>, now: Time): map<(Id, Id), McqSubmission> {
    Marked(sessions, MarkedKeys(events, registrations, now, events.Keys), now)
  }

  /** Marking one more registration adds its ABSENT record unless the
      student already has a session for the event. */
  lemma MarkedStep(sessions: map<(Id, Id), McqSubmission>, marked: set<(Id, Id)>, k: (Id, Id), now: Time)
    ensures var before := Marked(sessions, marked, now);
            Marked(sessions, marked + {k}, now) ==
              if SessionKey(k) in before then before
              else before[SessionKey(k) := AbsentRecord(k.1, k.0, now)]
  {
    var before := Marked(sessions, marked, now);
    var after := Marked(sessions, marked + {k}, now);
    var key := SessionKey(k);
    assert key in after;
    if key in before {
      assert after.Keys == before.Keys;
    } else {
      assert after.Keys == before.Keys + {key};
    }
  }

  /** Added records carry their own key. */
  lemma MarkedKeyed(sessions: map<(Id, Id), McqSubmission>, marked: set<(Id, Id)>, now: Time)
    requires SessionsKeyed(sessions)
    ensures SessionsKeyed(Marked(sessions, marked, now))
  {
  }

  /** The registration keys of one event (`findByEventId`). */
  function EventRegistrations(registrations: map<(Id, Id), Registration>, eventId: Id): set<(Id, Id)> {
    set k | k in registrations && k.0 == eventId
  }

  /** Visiting one more event adds its registrations when it is eligible. */
  lemma MarkedKeysStep(events: map<Id, Event>, registrations: map<(Id, Id), Registration>, now: Time, done: set<Id>, id: Id)
    requires id in events
    ensures MarkedKeys(events, registrations, now, done + {id}) ==
              MarkedKeys(events, registrations, now, done)
              + (if Eligible(events[id], now) then EventRegistrations(registrations, id) else {})
  {
  }

  /** Visiting one more event flags it when it is eligible. */
  lemma SweptEventsStep(events: map<Id, Event>, now: Time, done: set<Id>, id: Id)
    requires id in events && id !in done
    ensures SweptEvents(events, now, done + {id}) ==
              if Eligible(events[id], now) then SweptEvents(events, now, done)[id := Processed(events[id])]
              else SweptEvents(events, now, done)
  {
  }

  /** Flagging keeps every event under its own id. */
  lemma SweptEventsKeyed(events: map<Id, Event>, now: Time)
    requires EventsKeyed(events)
    ensures EventsKeyed(SweepEvents(events, now))
  {
  }

  /** The inner loop: an ABSENT record for each registrant of the event
      without a session. Cancelled registrations are not filtered out. */
  method MarkRegistrants(store: Store, eventId: Id, now: Time,
                         ghost base: map<(Id, Id), McqSubmission>, ghost marked: set<(Id, Id)>)
    requires store.sessions == Marked(base, marked, now)
    modifies store
    ensures store.sessions == Marked(base, marked + EventRegistrations(store.registrations, eventId), now)
    ensures store.events == old(store.events) && store.registrations == old(store.registrations)
    ensures store.questions == old(store.questions) && store.contests == old(store.contests)
    ensures store.problems == old(store.problems) && store.users == old(store.users)
    ensures store.submissions == old(store.submissions)
  {
    var pending := EventRegistrations(store.registrations, eventId);
    ghost var all := pending;
    ghost var visited: set<(Id, Id)> := {};
    while pending != {}
      invariant visited + pending == all
      invariant forall k :: k in pending ==> k.0 == eventId
      invariant store.sessions == Marked(base, marked + visited, now)
      invariant store.events == old(store.events) && store.registrations == old(store.registrations)
      invariant store.questions == old(store.questions) && store.contests == old(store.contests)
      invariant store.problems == old(store.problems) && store.users == old(store.users)
      invariant store.submissions == old(store.submissions)
      decreases |pending|
    {
      var k :| k in pending;
      MarkOne(store, eventId, k.1, now, base, marked + visited);
      assert marked + visited + {(eventId, k.1)} == marked + (visited + {k});
      visited := visited + {k};
      pending := pending - {k};
    }
  }

  /** One iteration of the inner loop: the registrant gets an ABSENT record
      unless they already have a session for the event. */
  method MarkOne(store: Store, eventId: Id, studentId: Id, now: Time,
                 ghost base: map<(Id, Id), McqSubmission>, ghost marked: set<(Id, Id)>)
    requires store.sessions == Marked(base, marked, now)
    modifies store
    ensures store.sessions == Marked(base, marked + {(eventId, studentId)}, now)
    ensures store.events == old(store.events) && store.registrations == old(store.registrations)
    ensures store.questions == old(store.questions) && store.contests == old(store.contests)
    ensures store.problems == old(store.problems) && store.users == old(store.users)
    ensures store.submissions == old(store.submissions)
  {
    MarkedStep(base, marked, (eventId, studentId), now);
    if (studentId, eventId) !in store.sessions {
      store.sessions := store.sessions[(studentId, eventId) := AbsentRecord(studentId, eventId, now)];
    }
  }


  /** One iteration of the outer loop: the event's registrants are marked
      and its flag is set when it is eligible; otherwise nothing changes. */
  method SweepEvent(store: Store, events: map<Id, Event>, id: Id, now: Time,
                    ghost base: map<(Id, Id), McqSubmission>, ghost done: set<Id>)
    requires id in events && id !in done
    requires store.events == SweptEvents(events, now, done)
    requires store.sessions == Marked(base, MarkedKeys(events, store.registrations, now, done), now)
    modifies store
    ensures store.events == SweptEvents(events, now, done + {id})
    ensures store.sessions == Marked(base, MarkedKeys(events, store.registrations, now, done + {id}), now)
    ensures store.registrations == old(store.registrations)
    ensures store.questions == old(store.questions) && store.contests == old(store.contests)
    ensures store.problems == old(store.problems) && store.users == old(store.users)
    ensures store.submissions == old(store.submissions)
  {
    var event := events[id];
    MarkedKeysStep(events, store.registrations, now, done, id);
    SweptEventsStep(events, now, done, id);
    if Eligible(event, now) {
      MarkRegistrants(store, id, now, base, MarkedKeys(events, store.registrations, now, done));
      store.events := store.events[id := Processed(event)];
    }
  }

  /** `markAbsentStudents`. */
  method MarkAbsentStudents(store: Store, now: Time)
    requires store.Valid()
    modifies store
    ensures store.Valid()
    ensures store.events == SweepEvents(old(store.events), now)
    ensures store.sessions == SweepSessions(old(store.events), old(store.registrations), old(store.sessions), now)
    ensures store.registrations == old(store.registrations)
    ensures store.questions == old(store.questions) && store.contests == old(store.contests)
    ensures store.problems == old(store.problems) && store.users == old(store.users)
    ensures store.submissions == old(store.submissions)
  {
    var events := store.events;
    ghost var base := store.sessions;
    ghost var done: set<Id> := {};
    var rest := events;
    MarkedNothing(base, now);
    SweptNothing(events, now);
    while rest != map[]
      invariant SweepProgress(events, rest, done)
      invariant store.events == SweptEvents(events, now, done)
      invariant store.sessions == Marked(base, MarkedKeys(events, store.registrations, now, done), now)
      invariant store.registrations == old(store.registrations)
      invariant store.questions == old(store.questions) && store.contests == old(store.contests)
      invariant store.problems == old(store.problems) && store.users == old(store.users)
      invariant store.submissions == old(store.submissions)
      decreases |rest|
    {
      var id :| id in rest;
      SweepEvent(store, events, id, now, base, done);
      SweepProgressStep(events, rest, done, id);
      done := done + {id};
      rest := rest - {id};
    }
    SweepProgressDone(events, done);
    SweptEventsKeyed(events, now);
    MarkedKeyed(base, MarkedKeys(events, store.registrations, now, done), now);
  }

  /** The events still to visit and those visited split the events. */
  ghost predicate SweepProgress(events: map<Id, Event>, rest: map<Id, Event>, done: set<Id>) {
    && (forall id :: id in rest ==> id in events)
    && done <= events.Keys
    && (forall id :: id in events ==> (id in done <==> id !in rest))
  }

  lemma SweepProgressStep(events: map<Id, Event>, rest: map<Id, Event>, done: set<Id>, id: Id)
    requires SweepProgress(events, rest, done) && id in rest
    ensures SweepProgress(events, rest - {id}, done + {id})
  {
  }

  lemma SweepProgressDone(events: map<Id, Event>, done: set<Id>)
    requires SweepProgress(events, map[], done)
    ensures done == events.Keys
  {
  }

  lemma SweptNothing(events: map<Id, Event>, now: Time)
    ensures SweptEvents(events, now, {}) == events
  {
  }


  /** What the sweep does to the events: eligible events are flagged as
      processed and nothing else about any event changes. */
  lemma SweepEventsEffect(events: map<Id, Event>, now: Time)
    ensures var after := SweepEvents(events, now);
            && after.Keys == events.Keys
            && (forall id :: id in events && Eligible(events[id], now) ==>
                  after[id].attendanceProcessed == Some(true)
                  && after[id] == events[id].(attendanceProcessed := Some(true)))
            && (forall id :: id in events && !Eligible(events[id], now) ==> after[id] == events[id])
  {
  }

  /** What the sweep does to the sessions: existing sessions of any status
      are kept, each added session is the ABSENT record of a registrant of
      an eligible event, and every such registrant, cancelled or not, ends
      with a session. */
  lemma SweepSessionsEffect(events: map<Id, Event>, registrations: map<(Id, Id), Registration>,
                            sessions: map<(Id, Id), McqSubmission>, now: Time)
    ensures var after := SweepSessions(events, registrations, sessions, now);
            && (forall k :: k in sessions ==> k in after && after[k] == sessions[k])
            && (forall k :: k in after && k !in sessions ==>
                  && after[k] == AbsentRecord(k.0, k.1, now)
                  && (k.1, k.0) in registrations
                  && k.1 in events && Eligible(events[k.1], now))
            && (forall r :: r in registrations && r.0 in events && Eligible(events[r.0], now) ==>
                  (r.1, r.0) in after)
  {
    var marked := MarkedKeys(events, registrations, now, events.Keys);
    var after := Marked(sessions, marked, now);
    forall r | r in registrations && r.0 in events && Eligible(events[r.0], now) ensures (r.1, r.0) in after {
      assert r in marked;
      assert SessionKey(r) == (r.1, r.0);
    }
    forall k | k in after && k !in sessions
      ensures (k.1, k.0) in registrations && k.1 in events && Eligible(events[k.1], now)
    {
      var r :| r in marked && SessionKey(r) == k;
      assert r == (k.1, k.0);
    }
  }

  /** Marking the same registrations again adds nothing, at any later time:
      the existence check alone already prevents duplicate sessions. */
  lemma MarkedTwice(sessions: map<(Id, Id), McqSubmission>, marked: set<(Id, Id)>, now: Time, later: Time)
    ensures Marked(Marked(sessions, marked, now), marked, later) == Marked(sessions, marked, now)
  {
    var once := Marked(sessions, marked, now);
    var twice := Marked(once, marked, later);
    forall k | k in marked ensures SessionKey(k) in once {
    }
    assert twice.Keys == once.Keys;
  }

  /** A second sweep at the same instant changes nothing: every event the
      first sweep processed is now flagged, and every other event is still
      not eligible. */
  lemma SweepTwice(events: map<Id, Event>, registrations: map<(Id, Id), Registration>,
                   sessions: map<(Id, Id), McqSubmission>, now: Time)
    ensures SweepEvents(SweepEvents(events, now), now) == SweepEvents(events, now)
    ensures SweepSessions(SweepEvents(events, now), registrations, SweepSessions(events, registrations, sessions, now), now)
            == SweepSessions(events, registrations, sessions, now)
  {
    var swept := SweepEvents(events, now);
    SweptNotEligible(events, now);
    NothingEligibleSweep(swept, registrations, SweepSessions(events, registrations, sessions, now), now);
  }

  /** A later sweep leaves the first sweep's work alone: the events it
      flagged stay as they are, every session it left is kept, and the only
      new absent records belong to events that have ended since. */
  lemma SweepAgainLater(events: map<Id, Event>, registrations: map<(Id, Id), Registration>,
                        sessions: map<(Id, Id), McqSubmission>, now: Time, later: Time)
    ensures var events1 := SweepEvents(events, now);
            var sessions1 := SweepSessions(events, registrations, sessions, now);
            var events2 := SweepEvents(events1, later);
            var sessions2 := SweepSessions(events1, registrations, sessions1, later);
            && events2.Keys == events.Keys
            && (forall id :: id in events && Eligible(events[id], now) ==> events2[id] == events1[id])
            && (forall k :: k in sessions1 ==> k in sessions2 && sessions2[k] == sessions1[k])
            && (forall k :: k in sessions2 && k !in sessions1 ==>
                  k.1 in events && !Eligible(events[k.1], now) && Eligible(events[k.1], later))
  {
    var events1 := SweepEvents(events, now);
    var sessions1 := SweepSessions(events, registrations, sessions, now);
    SweepEventsEffect(events, now);
    SweepEventsEffect(events1, later);
    SweepSessionsEffect(events1, registrations, sessions1, later);
  }

  /** After the sweep no event is eligible any more. */
  lemma SweptNotEligible(events: map<Id, Event>, now: Time)
    ensures forall id :: id in SweepEvents(events, now) ==> !Eligible(SweepEvents(events, now)[id], now)
  {
  }

  /** A sweep over events none of which is eligible changes nothing. */
  lemma NothingEligibleSweep(events: map<Id, Event>, registrations: map<(Id, Id), Registration>,
                             sessions: map<(Id, Id), McqSubmission>, now: Time)
    requires forall id :: id in events ==> !Eligible(events[id], now)
    ensures SweepEvents(events, now) == events
    ensures SweepSessions(events, registrations, sessions, now) == sessions
  {
    assert MarkedKeys(events, registrations, now, events.Keys) == {};
    MarkedNothing(sessions, now);
  }

  lemma MarkedNothing(sessions: map<(Id, Id), McqSubmission>, now: Time)
    ensures Marked(sessions, {}, now) == sessions
  {
  }

}
