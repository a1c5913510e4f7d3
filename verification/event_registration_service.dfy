/** `EventRegistrationService`: registering for an event and cancelling a
    registration, both only strictly before the event starts, and the
    registration count. The clock is a parameter. */
module EventRegistrationService {
  import opened Wrappers
  import opened Model
  import opened Repository

  datatype RegistrationError =
    | EventNotFound            // "Event not found"
    | StartTimeNotConfigured   // "Event start time not configured"
    | RegistrationClosed       // "Registration closed. Event already started."
    | AlreadyRegistered        // "Already registered for this event"
    | StartTimeMissing         // cancellation compares with a null start time
    | CancellationClosed       // "Cannot cancel. Event already started."
    | RegistrationNotFound     // "Registration not found"
    | AlreadyCancelled         // "Registration already cancelled"

  /** The decision of `register`: the record to insert, or why not. */
  function RegisterOutcome(events: map<Id, Event>, registrations: map<(Id, Id), Registration>,
                           studentId: Id, eventId: Id, now: Time): (r: Result<Registration, RegistrationError>)
    ensures r.Success? <==>
              && eventId in events
              && events[eventId].startTime.Some?
              && now < events[eventId].startTime.value
              && (eventId, studentId) !in registrations
    ensures r.Success? ==> r.value == Registration(eventId, studentId, Some(now), Registered)
    ensures eventId !in events ==> r == Failure(EventNotFound)
    ensures eventId in events && events[eventId].startTime.None? ==> r == Failure(StartTimeNotConfigured)
    ensures eventId in events && events[eventId].startTime.Some? && now >= events[eventId].startTime.value
            ==> r == Failure(RegistrationClosed)
  {
    if eventId !in events then Failure(EventNotFound)
    else
      var event := events[eventId];
      if event.startTime.None? then Failure(StartTimeNotConfigured)
      else if !(now < event.startTime.value) then Failure(RegistrationClosed)
      else if (eventId, studentId) in registrations then Failure(AlreadyRegistered)
      else Success(Registration(eventId, studentId, Some(now), Registered))
  }

  /** `register`. */
  method Register(store: Store, studentId: Id, eventId: Id, now: Time) returns (r: Result<Registration, RegistrationError>)
    requires store.Valid()
    modifies store
    ensures store.Valid()
    ensures r == RegisterOutcome(old(store.events), old(store.registrations), studentId, eventId, now)
    ensures store.registrations ==
              if r.Success? then old(store.registrations)[(eventId, studentId) := r.value] else old(store.registrations)
    ensures store.events == old(store.events) && store.sessions == old(store.sessions)
    ensures store.questions == old(store.questions) && store.contests == old(store.contests)
    ensures store.problems == old(store.problems) && store.users == old(store.users)
    ensures store.submissions == old(store.submissions)
  {
    if eventId !in store.events {
      return Failure(EventNotFound);
    }
    var event := store.events[eventId];
    if event.startTime.None? {
      return Failure(StartTimeNotConfigured);
    }
    if !(now < event.startTime.value) {
      return Failure(RegistrationClosed);
    }
    if (eventId, studentId) in store.registrations {
      return Failure(AlreadyRegistered);
    }
    var registration := Registration(eventId, studentId, Some(now), Registered);
    store.registrations := store.registrations[(eventId, studentId) := registration];
    r := Success(registration);
  }

  /** The decision of `cancelRegistration`: the updated record, or why not. */
  function CancelOutcome(events: map<Id, Event>, registrations: map<(Id, Id), Registration>,
                         studentId: Id, eventId: Id, now: Time): (r: Result<Registration, RegistrationError>)
    ensures r.Success? <==>
              && eventId in events
              && events[eventId].startTime.Some?
              && now < events[eventId].startTime.value
              && (eventId, studentId) in registrations
              && registrations[(eventId, studentId)].status != Cancelled
    ensures r.Success? ==> r.value == registrations[(eventId, studentId)].(status := Cancelled)
    ensures eventId in events && events[eventId].startTime.Some? && now < events[eventId].startTime.value
            && (eventId, studentId) in registrations && registrations[(eventId, studentId)].status == Cancelled
            ==> r == Failure(AlreadyCancelled)
  {
    if eventId !in events then Failure(EventNotFound)
    else
      var event := events[eventId];
      if event.startTime.None? then Failure(StartTimeMissing)
      else if !(now < event.startTime.value) then Failure(CancellationClosed)
      else if (eventId, studentId) !in registrations then Failure(RegistrationNotFound)
      else if registrations[(eventId, studentId)].status == Cancelled then Failure(AlreadyCancelled)
      else Success(registrations[(eventId, studentId)].(status := Cancelled))
  }

  /** `cancelRegistration`. */
  method CancelRegistration(store: Store, studentId: Id, eventId: Id, now: Time) returns (r: Result<Registration, RegistrationError>)
    requires store.Valid()
    modifies store
    ensures store.Valid()
    ensures r == CancelOutcome(old(store.events), old(store.registrations), studentId, eventId, now)
    ensures store.registrations ==
              if r.Success? then old(store.registrations)[(eventId, studentId) := r.value] else old(store.registrations)
    ensures store.events == old(store.events) && store.sessions == old(store.sessions)
    ensures store.questions == old(store.questions) && store.contests == old(store.contests)
    ensures store.problems == old(store.problems) && store.users == old(store.users)
    ensures store.submissions == old(store.submissions)
  {
    if eventId !in store.events {
      return Failure(EventNotFound);
    }
    var event := store.events[eventId];
    if event.startTime.None? {
      return Failure(StartTimeMissing);
    }
    if !(now < event.startTime.value) {
      return Failure(CancellationClosed);
    }
    if (eventId, studentId) !in store.registrations {
      return Failure(RegistrationNotFound);
    }
    var registration := store.registrations[(eventId, studentId)];
    if registration.status == Cancelled {
      return Failure(AlreadyCancelled);
    }
    registration := registration.(status := Cancelled);
    store.registrations := store.registrations[(eventId, studentId) := registration];
    r := Success(registration);
  }

  /** `getTotalRegistrations`. */
  method GetTotalRegistrations(store: Store, eventId: Id) returns (n: nat)
    ensures n == CountRegistrations(store.registrations, eventId)
    ensures n == 0 <==> forall k :: k in store.registrations ==> k.0 != eventId
  {
    n := CountRegistrations(store.registrations, eventId);
  }

  /** A successful registration adds one to its event's count and leaves
      every other event's count alone. */
  lemma RegisterCounts(events: map<Id, Event>, registrations: map<(Id, Id), Registration>,
                       studentId: Id, eventId: Id, now: Time, other: Id)
    requires RegisterOutcome(events, registrations, studentId, eventId, now).Success?
    ensures var after := registrations[(eventId, studentId) := RegisterOutcome(events, registrations, studentId, eventId, now).value];
            CountRegistrations(after, other) ==
              CountRegistrations(registrations, other) + (if other == eventId then 1 else 0)
  {
    var after := registrations[(eventId, studentId) := RegisterOutcome(events, registrations, studentId, eventId, now).value];
    var before := set k | k in registrations && k.0 == other;
    var counted := set k | k in after && k.0 == other;
    if other == eventId {
      assert counted == before + {(eventId, studentId)};
    } else {
      assert counted == before;
    }
  }

  /** A cancellation keeps the record, so no event's count changes. */
  lemma CancelKeepsCount(events: map<Id, Event>, registrations: map<(Id, Id), Registration>,
                         studentId: Id, eventId: Id, now: Time, other: Id)
    requires CancelOutcome(events, registrations, studentId, eventId, now).Success?
    ensures var after := registrations[(eventId, studentId) := CancelOutcome(events, registrations, studentId, eventId, now).value];
            CountRegistrations(after, other) == CountRegistrations(registrations, other)
  {
    var after := registrations[(eventId, studentId) := CancelOutcome(events, registrations, studentId, eventId, now).value];
    assert after.Keys == registrations.Keys;
  }

  /** A cancelled registration still blocks registering again: after
      register and cancel succeed, a second register fails however early it
      comes. */
  lemma CancelledBlocksRegister(events: map<Id, Event>, registrations: map<(Id, Id), Registration>,
                                studentId: Id, eventId: Id, t1: Time, t2: Time, t3: Time)
    requires RegisterOutcome(events, registrations, studentId, eventId, t1).Success?
    requires var once := registrations[(eventId, studentId) := RegisterOutcome(events, registrations, studentId, eventId, t1).value];
             CancelOutcome(events, once, studentId, eventId, t2).Success?
    requires t3 < events[eventId].startTime.value
    ensures var once := registrations[(eventId, studentId) := RegisterOutcome(events, registrations, studentId, eventId, t1).value];
            var cancelled := once[(eventId, studentId) := CancelOutcome(events, once, studentId, eventId, t2).value];
            && cancelled[(eventId, studentId)].status == Cancelled
            && RegisterOutcome(events, cancelled, studentId, eventId, t3) == Failure(AlreadyRegistered)
  {
  }
}
