/** The document store the services share: one collection per record type.
    The unique compound indexes on (eventId, studentId) of registrations and
    sessions become map keys, so at most one record per pair exists by
    construction. Code submissions keep their insertion order. */
module Repository {
  import opened Wrappers
  import opened Model
  import opened MapAggregates

  class Store {
    var events: map<Id, Event>
    /** keyed by (eventId, studentId) */
    var registrations: map<(Id, Id), Registration>
    /** keyed by (studentId, eventId) */
    var sessions: map<(Id, Id), McqSubmission>
    var questions: map<Id, McqQuestion>
    var contests: map<Id, Contest>
    var problems: map<Id, Problem>
    var users: map<Id, User>
    var submissions: seq<Submission>

    /** Every record is stored under its own key. */
    ghost predicate Valid()
      reads this
    {
      && EventsKeyed(events)
      && RegistrationsKeyed(registrations)
      && SessionsKeyed(sessions)
      && QuestionsKeyed(questions)
      && ContestsKeyed(contests)
      && ProblemsKeyed(problems)
      && UsersKeyed(users)
      && SubmissionsNumbered(submissions)
    }

    constructor ()
      ensures Valid()
      ensures events == map[] && registrations == map[] && sessions == map[]
      ensures questions == map[] && contests == map[] && problems == map[]
      ensures users == map[] && submissions == []
    {
      events, registrations, sessions := map[], map[], map[];
      questions, contests, problems := map[], map[], map[];
      users, submissions := map[], [];
    }
  }

  ghost predicate EventsKeyed(events: map<Id, Event>) {
    forall id :: id in events ==> events[id].id == id
  }

  ghost predicate RegistrationsKeyed(registrations: map<(Id, Id), Registration>) {
    forall k :: k in registrations ==> registrations[k].eventId == k.0 && registrations[k].studentId == k.1
  }

  ghost predicate SessionsKeyed(sessions: map<(Id, Id), McqSubmission>) {
    forall k :: k in sessions ==> sessions[k].studentId == k.0 && sessions[k].eventId == k.1
  }

  ghost predicate QuestionsKeyed(questions: map<Id, McqQuestion>) {
    forall id :: id in questions ==> questions[id].id == id
  }

  ghost predicate ContestsKeyed(contests: map<Id, Contest>) {
    forall id :: id in contests ==> contests[id].id == id
  }

  ghost predicate ProblemsKeyed(problems: map<Id, Problem>) {
    forall id :: id in problems ==> problems[id].id == id
  }

  ghost predicate UsersKeyed(users: map<Id, User>) {
    forall id :: id in users ==> users[id].id == id
  }

  ghost predicate SubmissionsNumbered(submissions: seq<Submission>) {
    forall i :: 0 <= i < |submissions| ==> submissions[i].id == i
  }

  /** `countByEventId`: every registration of the event, cancelled or not. */
  function CountRegistrations(registrations: map<(Id, Id), Registration>, eventId: Id): (n: nat)
    ensures n <= |registrations|
    ensures n == 0 <==> forall k :: k in registrations ==> k.0 != eventId
  {
    var keys := set k | k in registrations && k.0 == eventId;
    Subset(keys, registrations.Keys);
    assert forall k :: k in registrations && k.0 == eventId ==> k in keys;
    assert keys == {} <==> forall k :: k in registrations ==> k.0 != eventId;
    |keys|
  }
}
