/** `McqService`: starting, resuming and submitting an MCQ test, polling the
    time left, and the per-event analytics. Each operation is a method on the
    `Store`, specified by a function of the store's contents before the call;
    the properties of the service are lemmas about those functions. */
module McqService {
  import opened Wrappers
  import opened Model
  import opened Repository
  import opened McqRanking

  /** The exceptions the service throws, one constructor per message. */
  datatype McqError =
    | EventNotFound               // "Event not found"
    | TimingNotConfigured         // "Event timing not configured properly"
    | EventNotLive                // "Event not live"
    | NotRegistered               // "You are not registered for this event"
    | TestAlreadySubmitted        // "Test already submitted"
    | TestNotStarted              // "Test not started"
    | AnswersMissing              // "Answers cannot be null"
    | StartTimeMissing            // "Test start time missing"
    | TooManyAnswers              // "Invalid number of answers submitted"
    | UnknownQuestion             // "Invalid question detected in submission"
    | InvalidTimingConfiguration  // "Invalid timing configuration"
    | TotalMarksMissing           // unboxing a null `totalMarks`

  /** A question as shown to a student: without its correct option. */
  datatype QuestionView = QuestionView(
    id: Id, questionText: Option<string>, options: Option<seq<string>>, marks: Option<real>)

  /** `submitTest`'s answer. */
  datatype McqResult = McqResult(score: int, correctAnswers: int, wrongAnswers: int, rank: nat)

  /** `getRemainingTime`'s answer. */
  datatype RemainingTime = RemainingTime(
    remainingSeconds: int, status: SessionStatus, startedAt: Option<Time>, eventEndTime: Option<Time>)

  /** `findByEventId` on the question store, keyed by question id as in
      `submitTest`'s question map. */
  function QuestionsOf(questions: map<Id, McqQuestion>, eventId: Id): map<Id, McqQuestion> {
    map id | id in questions && questions[id].eventId == eventId :: questions[id]
  }

  function ViewOf(q: McqQuestion): QuestionView {
    QuestionView(q.id, q.questionText, q.options, q.marks)
  }

  /** The questions of an event as the student sees them. */
  function Views(qs: map<Id, McqQuestion>): map<Id, QuestionView> {
    map id | id in qs :: ViewOf(qs[id])
  }

  // ---------------------------------------------------------------
  // Start or resume
  // ---------------------------------------------------------------

  /** What `startTest` decides: `Success(true)` is a fresh start that opens a
      session, `Success(false)` a resume that writes nothing. */
  function StartOutcome(
    events: map<Id, Event>, registrations: map<(Id, Id), Registration>,
    sessions: map<(Id, Id), McqSubmission>, studentId: Id, eventId: Id, now: Time): (r: Result<bool, McqError>)
    ensures r.Success? <==>
              && eventId in events
              && events[eventId].startTime.Some? && events[eventId].endTime.Some?
              && events[eventId].startTime.value <= now <= events[eventId].endTime.value
              && (eventId, studentId) in registrations
              && ((studentId, eventId) in sessions ==> sessions[(studentId, eventId)].status != SessionStatus.Completed)
    ensures r.Success? && r.value <==> r.Success? && (studentId, eventId) !in sessions
    ensures r.Failure? && r.error == TestAlreadySubmitted <==>
              && eventId in events
              && events[eventId].startTime.Some? && events[eventId].endTime.Some?
              && events[eventId].startTime.value <= now <= events[eventId].endTime.value
              && (eventId, studentId) in registrations
              && (studentId, eventId) in sessions && sessions[(studentId, eventId)].status == SessionStatus.Completed
  {
    if eventId !in events then Failure(EventNotFound)
    else
      var e := events[eventId];
      if e.startTime.None? || e.endTime.None? then Failure(TimingNotConfigured)
      else if now < e.startTime.value || now > e.endTime.value then Failure(EventNotLive)
      else if (eventId, studentId) !in registrations then Failure(NotRegistered)
      else if (studentId, eventId) in sessions then
        if sessions[(studentId, eventId)].status == SessionStatus.Completed then Failure(TestAlreadySubmitted)
        else Success(false)
      else Success(true)
  }

  /** The sessions after `startTest`. */
  function StartedSessions(
    events: map<Id, Event>, registrations: map<(Id, Id), Registration>,
    sessions: map<(Id, Id), McqSubmission>, studentId: Id, eventId: Id, now: Time): map<(Id, Id), McqSubmission>
  {
    if StartOutcome(events, registrations, sessions, studentId, eventId, now) == Success(true)
    then sessions[(studentId, eventId) := FreshSession(studentId, eventId, now)]
    else sessions
  }

  /** `startTest`: the event's questions, after opening a session if the
      student has none. */
  method StartTest(store: Store, studentId: Id, eventId: Id, now: Time)
    returns (r: Result<map<Id, QuestionView>, McqError>)
    requires store.Valid()
    modifies store
    ensures store.Valid()
    ensures var outcome := StartOutcome(old(store.events), old(store.registrations), old(store.sessions), studentId, eventId, now);
            && (outcome.Failure? ==> r == Failure(outcome.error))
            && (outcome.Success? ==> r == Success(Views(QuestionsOf(store.questions, eventId))))
    ensures store.sessions == StartedSessions(old(store.events), old(store.registrations), old(store.sessions), studentId, eventId, now)
    ensures store.events == old(store.events) && store.registrations == old(store.registrations)
    ensures store.questions == old(store.questions) && store.contests == old(store.contests)
    ensures store.problems == old(store.problems) && store.users == old(store.users)
    ensures store.submissions == old(store.submissions)
  {
    if eventId !in store.events {
      return Failure(EventNotFound);
    }
    var event := store.events[eventId];
    if event.startTime.None? || event.endTime.None? {
      return Failure(TimingNotConfigured);
    }
    if now < event.startTime.value || now > event.endTime.value {
      return Failure(EventNotLive);
    }
    if (eventId, studentId) !in store.registrations {
      return Failure(NotRegistered);
    }
    if (studentId, eventId) in store.sessions {
      if store.sessions[(studentId, eventId)].status == SessionStatus.Completed {
        return Failure(TestAlreadySubmitted);
      }
      return Success(Views(QuestionsOf(store.questions, eventId)));
    }
    store.sessions := store.sessions[(studentId, eventId) := FreshSession(studentId, eventId, now)];
    r := Success(Views(QuestionsOf(store.questions, eventId)));
  }

  /** Starting again resumes the session: the clock keeps running from the
      first start. */
  lemma StartAgainKeepsStartTime(
    events: map<Id, Event>, registrations: map<(Id, Id), Registration>,
    sessions: map<(Id, Id), McqSubmission>, studentId: Id, eventId: Id, t1: Time, t2: Time)
    requires StartOutcome(events, registrations, sessions, studentId, eventId, t1).Success?
    requires StartOutcome(events, registrations,
               StartedSessions(events, registrations, sessions, studentId, eventId, t1), studentId, eventId, t2).Success?
    ensures var once := StartedSessions(events, registrations, sessions, studentId, eventId, t1);
            && StartedSessions(events, registrations, once, studentId, eventId, t2) == once
            && (studentId, eventId) in once
            && once[(studentId, eventId)].startTime ==
               (if (studentId, eventId) in sessions then sessions[(studentId, eventId)].startTime else Some(t1))
  {
  }

  // ---------------------------------------------------------------
  // Scoring
  // ---------------------------------------------------------------

  /** The running totals of the scoring loop. */
  datatype Tally = Tally(score: real, correct: nat, wrong: nat)

  /** An answer the scoring loop looks at: present, with a question id. */
  predicate Named(a: Option<Answer>) {
    a.Some? && a.value.questionId.Some?
  }

  /** The number of answers the scoring loop looks at. */
  function NamedCount(answers: seq<Option<Answer>>): (n: nat)
    ensures n <= |answers|
  {
    if answers == [] then 0
    else NamedCount(answers[..|answers| - 1]) + (if Named(answers[|answers| - 1]) then 1 else 0)
  }

  /** Every answer the scoring loop looks at names a question of the event. */
  ghost predicate KnowsAll(answers: seq<Option<Answer>>, qmap: map<Id, McqQuestion>) {
    forall i :: 0 <= i < |answers| && Named(answers[i]) ==> answers[i].value.questionId.value in qmap
  }

  /** One iteration of the scoring loop. */
  function ScoreAnswer(t: Tally, a: Option<Answer>, qmap: map<Id, McqQuestion>): Result<Tally, McqError> {
    if !Named(a) then Success(t)
    else if a.value.questionId.value !in qmap then Failure(UnknownQuestion)
    else
      var q := qmap[a.value.questionId.value];
      if a.value.selectedOption.Some? && q.correctOption.Some? && a.value.selectedOption.value == q.correctOption.value
      then Success(Tally(t.score + q.marks.GetOr(0.0), t.correct + 1, t.wrong))
      else Success(Tally(t.score - q.negativeMarks.GetOr(0.0), t.correct, t.wrong + 1))
  }

  /** The scoring loop over all answers, in order. It fails exactly when an
      answer names a question the event does not have, and otherwise counts
      every answer it looks at as either correct or wrong. */
  function ScoreAll(answers: seq<Option<Answer>>, qmap: map<Id, McqQuestion>): (r: Result<Tally, McqError>)
    ensures r.Success? <==> KnowsAll(answers, qmap)
    ensures r.Failure? ==> r.error == UnknownQuestion
    ensures r.Success? ==> r.value.correct + r.value.wrong == NamedCount(answers)
  {
    if answers == [] then Success(Tally(0.0, 0, 0))
    else
      var init := answers[..|answers| - 1];
      assert forall i :: 0 <= i < |init| ==> init[i] == answers[i];
      match ScoreAll(init, qmap)
      case Failure(e) => Failure(e)
      case Success(t) => ScoreAnswer(t, answers[|answers| - 1], qmap)
  }

  /** `n` copies of `a` added up: the bound that `n` answers each worth at
      most `a` can reach. */
  function Times(a: real, n: nat): real {
    if n == 0 then 0.0 else Times(a, n - 1) + a
  }

  /** `Times` is multiplication by `n`. */
  lemma {:induction false} TimesIsProduct(a: real, n: nat)
    ensures Times(a, n) == a * (n as real)
  {
    if n > 0 {
      TimesIsProduct(a, n - 1);
      assert a * (n as real) == a * ((n - 1) as real) + a;
    }
  }

  /** The running score lies between -lo per wrong answer and hi per
      correct answer. */
  ghost predicate WithinBounds(t: Tally, hi: real, lo: real) {
    -Times(lo, t.wrong) <= t.score <= Times(hi, t.correct)
  }

  /** With marks within [0, hi] and penalties within [0, lo], the raw score
      lies between -lo per wrong answer and hi per correct answer
      (`TimesIsProduct` turns these bounds into products). */
  lemma {:induction false} ScoreBounds(answers: seq<Option<Answer>>, qmap: map<Id, McqQuestion>, hi: real, lo: real)
    requires forall id :: id in qmap ==> 0.0 <= qmap[id].marks.GetOr(0.0) <= hi
    requires forall id :: id in qmap ==> 0.0 <= qmap[id].negativeMarks.GetOr(0.0) <= lo
    requires ScoreAll(answers, qmap).Success?
    ensures WithinBounds(ScoreAll(answers, qmap).value, hi, lo)
  {
    if answers != [] {
      var init := answers[..|answers| - 1];
      ScoreBounds(init, qmap, hi, lo);
      var t := ScoreAll(init, qmap).value;
      var a := answers[|answers| - 1];
      assert ScoreAll(answers, qmap) == ScoreAnswer(t, a, qmap);
    }
  }

  /** The answers are not deduplicated: an answer repeated twice scores twice. */
  lemma RepeatedAnswerScoresTwice(a: Option<Answer>, qmap: map<Id, McqQuestion>)
    requires Named(a) && a.value.questionId.value in qmap
    requires qmap[a.value.questionId.value].correctOption == a.value.selectedOption
    requires a.value.selectedOption.Some?
    ensures var m := qmap[a.value.questionId.value].marks.GetOr(0.0);
            ScoreAll([a, a], qmap) == Success(Tally(m + m, 2, 0))
  {
    var m := qmap[a.value.questionId.value].marks.GetOr(0.0);
    assert [a][..0] == [];
    assert ScoreAll([a], qmap) == ScoreAnswer(Tally(0.0, 0, 0), a, qmap) == Success(Tally(m, 1, 0));
    assert [a, a][..1] == [a];
    assert ScoreAll([a, a], qmap) == ScoreAnswer(Tally(m, 1, 0), a, qmap);
  }

  /** The scoring loop of `submitTest`. */
  method ScoreAnswers(list: seq<Option<Answer>>, qmap: map<Id, McqQuestion>) returns (r: Result<Tally, McqError>)
    ensures r == ScoreAll(list, qmap)
  {
    var score, correct, wrong := 0.0, 0, 0;
    var i := 0;
    while i < |list|
      invariant 0 <= i <= |list|
      invariant ScoreAll(list[..i], qmap) == Success(Tally(score, correct, wrong))
    {
      assert list[..i + 1][..i] == list[..i];
      var ans := list[i];
      if ans.Some? && ans.value.questionId.Some? {
        if ans.value.questionId.value !in qmap {
          assert list[..i + 1][i] == ans;
          assert ScoreAll(list[..i + 1], qmap).Failure?;
          assert !KnowsAll(list, qmap) by {
            assert list[i] == ans;
          }
          return Failure(UnknownQuestion);
        }
        var question := qmap[ans.value.questionId.value];
        if ans.value.selectedOption.Some? && question.correctOption.Some?
           && ans.value.selectedOption.value == question.correctOption.value {
          score := score + question.marks.GetOr(0.0);
          correct := correct + 1;
        } else {
          wrong := wrong + 1;
          if question.negativeMarks.Some? {
            score := score - question.negativeMarks.value;
          }
        }
      }
      i := i + 1;
    }
    assert list[..i] == list;
    r := Success(Tally(score, correct, wrong));
  }

  // ---------------------------------------------------------------
  // Submit
  // ---------------------------------------------------------------

  /** The session record `submitTest` saves, or the error it throws. The
      saved record is COMPLETED, keeps the start time, carries a score that
      is never negative and counts at most one verdict per answer. */
  function SubmitOutcome(
    sessions: map<(Id, Id), McqSubmission>, events: map<Id, Event>, questions: map<Id, McqQuestion>,
    studentId: Id, eventId: Id, answers: Option<seq<Option<Answer>>>, now: Time): (r: Result<McqSubmission, McqError>)
    ensures r.Success? ==>
              && (studentId, eventId) in sessions
              && sessions[(studentId, eventId)].status != SessionStatus.Completed
              && eventId in events
              && r.value.studentId == sessions[(studentId, eventId)].studentId
              && r.value.eventId == sessions[(studentId, eventId)].eventId
              && r.value.startTime == sessions[(studentId, eventId)].startTime != None
              && r.value.status == SessionStatus.Completed
              && r.value.submittedAt == Some(now)
              && r.value.answers == answers && answers.Some?
              && r.value.totalScore.Some? && r.value.totalScore.value >= 0.0
              && r.value.correctCount.Some? && r.value.wrongCount.Some?
              && r.value.correctCount.value + r.value.wrongCount.value <= |answers.value|
                   <= |QuestionsOf(questions, eventId)|
    ensures r.Success? <==>
              && answers.Some?
              && (studentId, eventId) in sessions
              && sessions[(studentId, eventId)].status != SessionStatus.Completed
              && eventId in events
              && sessions[(studentId, eventId)].startTime.Some?
              && |answers.value| <= |QuestionsOf(questions, eventId)|
              && KnowsAll(answers.value, QuestionsOf(questions, eventId))
    ensures r.Success? ==>
              var t := ScoreAll(answers.value, QuestionsOf(questions, eventId)).value;
              && r.value.totalScore == Some(if t.score < 0.0 then 0.0 else t.score)
              && r.value.correctCount == Some(t.correct)
              && r.value.wrongCount == Some(t.wrong)
  {
    if answers.None? then Failure(AnswersMissing)
    else if (studentId, eventId) !in sessions then Failure(TestNotStarted)
    else
      var s := sessions[(studentId, eventId)];
      if s.status == SessionStatus.Completed then Failure(TestAlreadySubmitted)
      else if eventId !in events then Failure(EventNotFound)
      else if s.startTime.None? then Failure(StartTimeMissing)
      else
        var qmap := QuestionsOf(questions, eventId);
        if |answers.value| > |qmap| then Failure(TooManyAnswers)
        else match ScoreAll(answers.value, qmap)
          case Failure(e) => Failure(e)
          case Success(t) =>
            Success(s.(submittedAt := Some(now), answers := answers,
                       totalScore := Some(if t.score < 0.0 then 0.0 else t.score),
                       correctCount := Some(t.correct), wrongCount := Some(t.wrong),
                       status := SessionStatus.Completed))
  }

  /** The checks and the scoring of `submitTest`, up to the record it saves. */
  method GradeSubmission(
    sessions: map<(Id, Id), McqSubmission>, events: map<Id, Event>, questions: map<Id, McqQuestion>,
    studentId: Id, eventId: Id, answers: Option<seq<Option<Answer>>>, now: Time)
    returns (r: Result<McqSubmission, McqError>)
    ensures r == SubmitOutcome(sessions, events, questions, studentId, eventId, answers, now)
  {
    if answers.None? {
      return Failure(AnswersMissing);
    }
    if (studentId, eventId) !in sessions {
      return Failure(TestNotStarted);
    }
    var session := sessions[(studentId, eventId)];
    if session.status == SessionStatus.Completed {
      return Failure(TestAlreadySubmitted);
    }
    if eventId !in events {
      return Failure(EventNotFound);
    }
    var event := events[eventId];
    if session.startTime.None? {
      return Failure(StartTimeMissing);
    }
    // The overtime check only marks the local copy, and the status is set
    // to COMPLETED below before anything is saved.
    var minutesElapsed := JavaDiv(now - session.startTime.value, 60);
    if event.durationInMinutes.Some? && minutesElapsed > event.durationInMinutes.value {
      session := session.(status := AutoSubmitted);
    }
    var qmap := QuestionsOf(questions, eventId);
    var list := answers.value;
    if |list| > |qmap| {
      return Failure(TooManyAnswers);
    }
    var tally := ScoreAnswers(list, qmap);
    if tally.Failure? {
      return Failure(tally.error);
    }
    var score, correct, wrong := tally.value.score, tally.value.correct, tally.value.wrong;
    if score < 0.0 {
      score := 0.0;
    }
    r := Success(session.(submittedAt := Some(now), answers := answers, totalScore := Some(score),
                          correctCount := Some(correct), wrongCount := Some(wrong),
                          status := SessionStatus.Completed));
  }

  /** `submitTest`: scores the answers, saves the completed session and
      reports the score, the counts and the student's rank in the event. */
  method SubmitTest(store: Store, studentId: Id, eventId: Id, answers: Option<seq<Option<Answer>>>, now: Time)
    returns (r: Result<McqResult, McqError>)
    requires store.Valid()
    modifies store
    ensures store.Valid()
    ensures var outcome := SubmitOutcome(old(store.sessions), old(store.events), old(store.questions),
                                         studentId, eventId, answers, now);
            && (outcome.Failure? ==> r == Failure(outcome.error) && store.sessions == old(store.sessions))
            && (outcome.Success? ==>
                  && store.sessions == old(store.sessions)[(studentId, eventId) := outcome.value]
                  && r.Success?
                  && r.value.score == outcome.value.totalScore.value.Floor
                  && r.value.correctAnswers == outcome.value.correctCount.value
                  && r.value.wrongAnswers == outcome.value.wrongCount.value
                  && 1 <= r.value.rank
                  && exists ranked :: IsRankedList(store.sessions, eventId, ranked)
                                      && IsRankOf(r.value.rank, ranked, studentId))
    ensures store.events == old(store.events) && store.registrations == old(store.registrations)
    ensures store.questions == old(store.questions) && store.contests == old(store.contests)
    ensures store.problems == old(store.problems) && store.users == old(store.users)
    ensures store.submissions == old(store.submissions)
  {
    var saved := GradeSubmission(store.sessions, store.events, store.questions, studentId, eventId, answers, now);
    if saved.Failure? {
      return Failure(saved.error);
    }
    store.sessions := store.sessions[(studentId, eventId) := saved.value];
    var rank := CalculateRank(store, eventId, studentId);
    var record := saved.value;
    r := Success(McqResult(record.totalScore.value.Floor, record.correctCount.value, record.wrongCount.value, rank));
  }

  /** Once submitted, a test can be neither submitted again nor restarted. */
  lemma SubmitIsFinal(
    sessions: map<(Id, Id), McqSubmission>, events: map<Id, Event>, questions: map<Id, McqQuestion>,
    registrations: map<(Id, Id), Registration>,
    studentId: Id, eventId: Id, answers: Option<seq<Option<Answer>>>, now: Time,
    answers2: Option<seq<Option<Answer>>>, later: Time)
    requires SubmitOutcome(sessions, events, questions, studentId, eventId, answers, now).Success?
    ensures var after := sessions[(studentId, eventId) :=
                                    SubmitOutcome(sessions, events, questions, studentId, eventId, answers, now).value];
            && (answers2.Some? ==>
                  SubmitOutcome(after, events, questions, studentId, eventId, answers2, later) == Failure(TestAlreadySubmitted))
            && StartOutcome(events, registrations, after, studentId, eventId, later).Failure?
  {
  }

  /** A session that `getRemainingTime` marked AUTO_SUBMITTED still accepts
      one submission. */
  lemma AutoSubmittedCanStillSubmit(
    sessions: map<(Id, Id), McqSubmission>, events: map<Id, Event>, questions: map<Id, McqQuestion>,
    studentId: Id, eventId: Id, now: Time)
    requires (studentId, eventId) in sessions && sessions[(studentId, eventId)].status == AutoSubmitted
    requires sessions[(studentId, eventId)].startTime.Some?
    requires eventId in events
    ensures SubmitOutcome(sessions, events, questions, studentId, eventId, Some([]), now).Success?
  {
    assert KnowsAll([], QuestionsOf(questions, eventId));
  }

  // ---------------------------------------------------------------
  // Remaining time
  // ---------------------------------------------------------------

  /** What `getRemainingTime` answers, and the session it saves if the time is up. */
  datatype Poll = Poll(response: RemainingTime, written: Option<McqSubmission>)

  /** The moment the session's time runs out. */
  function Deadline(s: McqSubmission, e: Event): Time
    requires s.startTime.Some? && e.durationInMinutes.Some?
  {
    s.startTime.value + e.durationInMinutes.value * 60
  }

  /** What `getRemainingTime` decides. The answer never reports negative
      time; it reports time left exactly before the deadline, and at or after
      the deadline it expires the session, unless that is already COMPLETED. */
  function RemainingOutcome(
    events: map<Id, Event>, registrations: map<(Id, Id), Registration>,
    sessions: map<(Id, Id), McqSubmission>, studentId: Id, eventId: Id, now: Time): (r: Result<Poll, McqError>)
    ensures r.Success? ==>
              && eventId in events && (eventId, studentId) in registrations && (studentId, eventId) in sessions
              && r.value.response.remainingSeconds >= 0
    ensures r.Success? && r.value.response.status != SessionStatus.Completed ==>
              var s := sessions[(studentId, eventId)];
              var e := events[eventId];
              && s.startTime.Some? && e.durationInMinutes.Some?
              && (r.value.response.remainingSeconds > 0 <==> now < Deadline(s, e))
              && (r.value.written.Some? <==> now >= Deadline(s, e))
    ensures r.Success? && r.value.written.Some? ==>
              && r.value.written.value == sessions[(studentId, eventId)].(status := AutoSubmitted, submittedAt := Some(now))
              && r.value.response.status == AutoSubmitted
    ensures r.Success? <==>
              && eventId in events && (eventId, studentId) in registrations && (studentId, eventId) in sessions
              && (|| sessions[(studentId, eventId)].status == SessionStatus.Completed
                  || (sessions[(studentId, eventId)].startTime.Some? && events[eventId].durationInMinutes.Some?))
    ensures r.Success? && sessions[(studentId, eventId)].status == SessionStatus.Completed ==>
              && r.value.written.None?
              && r.value.response.remainingSeconds == 0
              && r.value.response.status == SessionStatus.Completed
    ensures r.Success? && sessions[(studentId, eventId)].status != SessionStatus.Completed
            && now < Deadline(sessions[(studentId, eventId)], events[eventId]) ==>
              && r.value.response.remainingSeconds == Deadline(sessions[(studentId, eventId)], events[eventId]) - now
              && r.value.response.status == sessions[(studentId, eventId)].status
    ensures r.Success? ==>
              && r.value.response.startedAt == sessions[(studentId, eventId)].startTime
              && r.value.response.eventEndTime == events[eventId].endTime
  {
    if eventId !in events then Failure(EventNotFound)
    else if (eventId, studentId) !in registrations then Failure(NotRegistered)
    else if (studentId, eventId) !in sessions then Failure(TestNotStarted)
    else
      var e := events[eventId];
      var s := sessions[(studentId, eventId)];
      if s.status == SessionStatus.Completed then
        Success(Poll(RemainingTime(0, SessionStatus.Completed, s.startTime, e.endTime), None))
      else if s.startTime.None? || e.durationInMinutes.None? then Failure(InvalidTimingConfiguration)
      else
        var remaining := e.durationInMinutes.value * 60 - (now - s.startTime.value);
        if remaining <= 0 then
          Success(Poll(RemainingTime(0, AutoSubmitted, s.startTime, e.endTime),
                       Some(s.(status := AutoSubmitted, submittedAt := Some(now)))))
        else
          Success(Poll(RemainingTime(remaining, s.status, s.startTime, e.endTime), None))
  }

  /** `getRemainingTime`. */
  method GetRemainingTime(store: Store, studentId: Id, eventId: Id, now: Time)
    returns (r: Result<RemainingTime, McqError>)
    requires store.Valid()
    modifies store
    ensures store.Valid()
    ensures var outcome := RemainingOutcome(old(store.events), old(store.registrations), old(store.sessions),
                                            studentId, eventId, now);
            && (outcome.Failure? ==> r == Failure(outcome.error))
            && (outcome.Success? ==> r == Success(outcome.value.response))
            && store.sessions == (if outcome.Success? && outcome.value.written.Some?
                                  then old(store.sessions)[(studentId, eventId) := outcome.value.written.value]
                                  else old(store.sessions))
    ensures store.events == old(store.events) && store.registrations == old(store.registrations)
    ensures store.questions == old(store.questions) && store.contests == old(store.contests)
    ensures store.problems == old(store.problems) && store.users == old(store.users)
    ensures store.submissions == old(store.submissions)
  {
    if eventId !in store.events {
      return Failure(EventNotFound);
    }
    var event := store.events[eventId];
    if (eventId, studentId) !in store.registrations {
      return Failure(NotRegistered);
    }
    if (studentId, eventId) !in store.sessions {
      return Failure(TestNotStarted);
    }
    var session := store.sessions[(studentId, eventId)];
    if session.status == SessionStatus.Completed {
      return Success(RemainingTime(0, SessionStatus.Completed, session.startTime, event.endTime));
    }
    if session.startTime.None? || event.durationInMinutes.None? {
      return Failure(InvalidTimingConfiguration);
    }
    var elapsedSeconds := now - session.startTime.value;
    var totalAllowedSeconds := event.durationInMinutes.value * 60;
    var remainingSeconds := totalAllowedSeconds - elapsedSeconds;
    if remainingSeconds <= 0 {
      session := session.(status := AutoSubmitted, submittedAt := Some(now));
      store.sessions := store.sessions[(studentId, eventId) := session];
      return Success(RemainingTime(0, AutoSubmitted, session.startTime, event.endTime));
    }
    r := Success(RemainingTime(remainingSeconds, session.status, session.startTime, event.endTime));
  }

  /** The time left never exceeds the event's duration once the session has
      started, and shrinks second by second. */
  lemma {:induction false} RemainingShrinks(
    events: map<Id, Event>, registrations: map<(Id, Id), Registration>,
    sessions: map<(Id, Id), McqSubmission>, studentId: Id, eventId: Id, t1: Time, t2: Time)
    requires t1 <= t2
    requires RemainingOutcome(events, registrations, sessions, studentId, eventId, t1).Success?
    requires RemainingOutcome(events, registrations, sessions, studentId, eventId, t1).value.written.None?
    ensures var p1 := RemainingOutcome(events, registrations, sessions, studentId, eventId, t1).value.response;
            var p2 := RemainingOutcome(events, registrations, sessions, studentId, eventId, t2).value.response;
            && p2.remainingSeconds <= p1.remainingSeconds
            && (p1.status != SessionStatus.Completed && sessions[(studentId, eventId)].startTime.value <= t1 ==>
                  p1.remainingSeconds <= events[eventId].durationInMinutes.value * 60)
  {
  }

  /** Once expired, every later poll keeps answering AUTO_SUBMITTED with no
      time left, and moves the recorded submission time along. */
  lemma ExpiryIsPermanent(
    events: map<Id, Event>, registrations: map<(Id, Id), Registration>,
    sessions: map<(Id, Id), McqSubmission>, studentId: Id, eventId: Id, t1: Time, t2: Time)
    requires t1 <= t2
    requires RemainingOutcome(events, registrations, sessions, studentId, eventId, t1).Success?
    requires RemainingOutcome(events, registrations, sessions, studentId, eventId, t1).value.written.Some?
    ensures var after := sessions[(studentId, eventId) :=
              RemainingOutcome(events, registrations, sessions, studentId, eventId, t1).value.written.value];
            var p := RemainingOutcome(events, registrations, after, studentId, eventId, t2);
            && p.Success?
            && p.value.response.remainingSeconds == 0
            && p.value.response.status == AutoSubmitted
            && p.value.written.Some? && p.value.written.value.submittedAt == Some(t2)
  {
  }

  // ---------------------------------------------------------------
  // Analytics
  // ---------------------------------------------------------------

  datatype TopPerformer = TopPerformer(studentId: Id, score: real, rank: nat)

  datatype Analytics = Analytics(
    totalRegistrations: int, totalAttempts: int, totalAbsent: int,
    averageScore: real, highestScore: real, lowestScore: real,
    passPercentage: real, topPerformers: seq<TopPerformer>)

  /** A session counted as an attempt. */
  predicate IsAttempt(s: McqSubmission) {
    s.status == SessionStatus.Completed || s.status == AutoSubmitted
  }

  function CountAttempts(ranked: seq<McqSubmission>): (n: nat)
    ensures n <= |ranked|
  {
    if ranked == [] then 0
    else CountAttempts(ranked[..|ranked| - 1]) + (if IsAttempt(ranked[|ranked| - 1]) then 1 else 0)
  }

  /** The non-null scores, in list order. */
  function Scores(ranked: seq<McqSubmission>): (xs: seq<real>)
    ensures |xs| <= |ranked|
    ensures forall x :: x in xs <==> exists i :: 0 <= i < |ranked| && ranked[i].totalScore == Some(x)
  {
    if ranked == [] then []
    else
      var init := ranked[..|ranked| - 1];
      var last := ranked[|ranked| - 1];
      assert forall i :: 0 <= i < |init| ==> ranked[i] == init[i];
      Scores(init) + (if last.totalScore.Some? then [last.totalScore.value] else [])
  }

  /** The largest value, 0.0 for none. */
  function Highest(xs: seq<real>): (m: real)
    ensures xs != [] ==> m in xs
    ensures forall x :: x in xs ==> x <= m
  {
    if xs == [] then 0.0
    else if |xs| == 1 then xs[0]
    else
      var m := Highest(xs[1..]);
      assert forall x :: x in xs ==> x == xs[0] || x in xs[1..];
      if xs[0] >= m then xs[0] else m
  }

  /** The smallest value, 0.0 for none. */
  function Lowest(xs: seq<real>): (m: real)
    ensures xs != [] ==> m in xs
    ensures forall x :: x in xs ==> m <= x
  {
    if xs == [] then 0.0
    else if |xs| == 1 then xs[0]
    else
      var m := Lowest(xs[1..]);
      assert forall x :: x in xs ==> x == xs[0] || x in xs[1..];
      if xs[0] <= m then xs[0] else m
  }

  function Total(xs: seq<real>): real {
    if xs == [] then 0.0 else xs[0] + Total(xs[1..])
  }

  /** The mean, 0.0 for none. */
  function Average(xs: seq<real>): real {
    if xs == [] then 0.0 else Total(xs) / (|xs| as real)
  }

  /** The number of values at or above `bound`. */
  function CountAtLeast(xs: seq<real>, bound: int): (n: nat)
    ensures n <= |xs|
  {
    if xs == [] then 0 else (if xs[0] >= bound as real then 1 else 0) + CountAtLeast(xs[1..], bound)
  }

  /** `(int) (totalMarks * 0.4)`: two fifths of the total, truncated toward zero. */
  function PassMarks(totalMarks: int): (p: int)
    ensures totalMarks >= 0 ==> 0 <= 5 * p <= 2 * totalMarks < 5 * p + 5
  {
    JavaDiv(2 * totalMarks, 5)
  }

  /** The share of passing scores among the attempts, in percent; 0 when
      nobody attempted. */
  function PassPercentage(passCount: nat, attempts: nat): real {
    if attempts == 0 then 0.0 else (passCount as real) * 100.0 / (attempts as real)
  }

  /** The top-performer entries for the first `n` places: one per place
      whose session has a score, carrying that place as its rank, in rank
      order. */
  function Top(ranked: seq<McqSubmission>, n: nat): (top: seq<TopPerformer>)
    requires n <= |ranked|
    ensures |top| <= n
    ensures forall j :: 0 <= j < |top| ==> 1 <= top[j].rank <= n && IsEntryFor(top[j], ranked)
    ensures forall j, k :: 0 <= j < k < |top| ==> top[j].rank < top[k].rank
  {
    if n == 0 then []
    else
      var s := ranked[n - 1];
      var prev := Top(ranked, n - 1);
      if s.totalScore.None? then prev
      else
        var e := TopPerformer(s.studentId, s.totalScore.value, n);
        assert IsEntryFor(e, ranked);
        prev + [e]
  }

  /** `e` reports the session at place `e.rank` of `ranked`. */
  predicate IsEntryFor(e: TopPerformer, ranked: seq<McqSubmission>) {
    && 1 <= e.rank <= |ranked|
    && ranked[e.rank - 1].studentId == e.studentId
    && ranked[e.rank - 1].totalScore == Some(e.score)
  }

  /** No scored session within the first `n` places is left out. */
  lemma {:induction false} TopComplete(ranked: seq<McqSubmission>, n: nat, i: nat)
    requires n <= |ranked|
    requires i < n && ranked[i].totalScore.Some?
    ensures exists j :: 0 <= j < |Top(ranked, n)| && Top(ranked, n)[j].rank == i + 1
  {
    var prev := Top(ranked, n - 1);
    var s := ranked[n - 1];
    var top := Top(ranked, n);
    if s.totalScore.Some? {
      assert top == prev + [TopPerformer(s.studentId, s.totalScore.value, n)];
    } else {
      assert top == prev;
    }
    if i < n - 1 {
      TopComplete(ranked, n - 1, i);
      var j :| 0 <= j < |prev| && prev[j].rank == i + 1;
      assert top[j] == prev[j];
    } else {
      assert top[|prev|].rank == n;
    }
  }

  /** The analytics of an event, given its registration count and its
      ranked sessions. */
  function Summarize(registrations: nat, ranked: seq<McqSubmission>, totalMarks: Option<int>): (r: Result<Analytics, McqError>)
    ensures r.Failure? <==> ranked != [] && totalMarks.None?
    ensures r.Success? ==>
              && r.value.totalRegistrations == registrations
              && 0 <= r.value.totalAttempts <= |ranked|
              && r.value.totalAbsent == registrations - r.value.totalAttempts
              && |r.value.topPerformers| <= 10
    ensures r.Success? ==>
              && r.value.totalAttempts == CountAttempts(ranked)
              && r.value.topPerformers == Top(ranked, TopCount(ranked))
              && r.value.highestScore == Highest(Scores(ranked))
              && r.value.lowestScore == Lowest(Scores(ranked))
              && r.value.averageScore == Average(Scores(ranked))
  {
    if ranked == [] then Success(Analytics(registrations, 0, registrations, 0.0, 0.0, 0.0, 0.0, []))
    else if totalMarks.None? then Failure(TotalMarksMissing)
    else
      Success(Report(registrations, ranked, totalMarks.value, Top(ranked, TopCount(ranked))))
  }

  /** The number of places the top-performer list looks at. */
  function TopCount(ranked: seq<McqSubmission>): (n: nat)
    ensures n <= |ranked| && n <= 10
  {
    if |ranked| < 10 then |ranked| else 10
  }

  /** The figures computed from a non-empty ranked list. */
  function Report(registrations: nat, ranked: seq<McqSubmission>, totalMarks: int, top: seq<TopPerformer>): Analytics {
    var attempts := CountAttempts(ranked);
    var xs := Scores(ranked);
    var passCount := CountAtLeast(xs, PassMarks(totalMarks));
    Analytics(registrations, attempts, registrations - attempts,
              Average(xs), Highest(xs), Lowest(xs), PassPercentage(passCount, attempts), top)
  }

  /** The top-performer loop of `getEventAnalytics`. */
  method TopPerformers(ranked: seq<McqSubmission>) returns (top: seq<TopPerformer>)
    ensures top == Top(ranked, TopCount(ranked))
  {
    var limit := TopCount(ranked);
    top := [];
    for i := 0 to limit
      invariant top == Top(ranked, i)
    {
      var s := ranked[i];
      if s.totalScore.None? {
        continue;
      }
      top := top + [TopPerformer(s.studentId, s.totalScore.value, i + 1)];
    }
  }

  /** `getEventAnalytics` (and `getEventAnalyticsForPdf`, which returns the same). */
  method GetEventAnalytics(store: Store, eventId: Id) returns (r: Result<Analytics, McqError>)
    requires store.Valid()
    ensures eventId !in store.events ==> r == Failure(EventNotFound)
    ensures eventId in store.events ==>
              exists ranked :: IsRankedList(store.sessions, eventId, ranked)
                && r == Summarize(CountRegistrations(store.registrations, eventId), ranked, store.events[eventId].totalMarks)
  {
    if eventId !in store.events {
      return Failure(EventNotFound);
    }
    var event := store.events[eventId];
    var totalRegistrations := CountRegistrations(store.registrations, eventId);
    var ranked := FindByEventOrdered(store, eventId);
    ghost var expected := Summarize(totalRegistrations, ranked, event.totalMarks);
    if ranked == [] {
      r := Success(Analytics(totalRegistrations, 0, totalRegistrations, 0.0, 0.0, 0.0, 0.0, []));
      assert r == expected;
      return;
    }
    if event.totalMarks.None? {
      r := Failure(TotalMarksMissing);
      assert r == expected;
      return;
    }
    var top := TopPerformers(ranked);
    r := Success(Report(totalRegistrations, ranked, event.totalMarks.value, top));
    assert r == expected;
  }

  /** The sum of values lies between n times the smallest and n times the largest. */
  lemma {:induction false} TotalBounds(xs: seq<real>, lo: real, hi: real)
    requires forall x :: x in xs ==> lo <= x <= hi
    ensures lo * (|xs| as real) <= Total(xs) <= hi * (|xs| as real)
  {
    if xs != [] {
      assert xs[0] in xs;
      assert forall x :: x in xs[1..] ==> x in xs;
      TotalBounds(xs[1..], lo, hi);
      assert lo * (|xs| as real) == lo * ((|xs| - 1) as real) + lo;
      assert hi * (|xs| as real) == hi * ((|xs| - 1) as real) + hi;
    }
  }

  /** The reported average lies between the reported lowest and highest scores. */
  lemma AverageBetween(xs: seq<real>)
    ensures Lowest(xs) <= Average(xs) <= Highest(xs)
  {
    if xs != [] {
      var lo, hi := Lowest(xs), Highest(xs);
      TotalBounds(xs, lo, hi);
      DivBounds(Total(xs), |xs| as real, lo, hi);
    }
  }

  lemma DivBounds(t: real, n: real, lo: real, hi: real)
    requires n > 0.0 && lo * n <= t <= hi * n
    ensures lo <= t / n <= hi
  {
  }

  /** Every score at or above the pass mark is one of the scores. */
  lemma {:induction false} CountAtLeastBounds(xs: seq<real>, bound: int)
    ensures CountAtLeast(xs, bound) <= |xs|
    ensures (forall x :: x in xs ==> x >= bound as real) ==> CountAtLeast(xs, bound) == |xs|
  {
    if xs != [] {
      assert xs[0] in xs;
      assert forall x :: x in xs[1..] ==> x in xs;
      CountAtLeastBounds(xs[1..], bound);
    }
  }

  /** The places of the sessions `CountAttempts` counts. */
  function AttemptPlaces(ranked: seq<McqSubmission>): set<nat> {
    set i: nat | i < |ranked| && IsAttempt(ranked[i])
  }

  /** `CountAttempts` counts exactly the COMPLETED and AUTO_SUBMITTED
      sessions: IN_PROGRESS and ABSENT ones are not attempts. */
  lemma {:induction false} CountAttemptsExact(ranked: seq<McqSubmission>)
    ensures CountAttempts(ranked) == |AttemptPlaces(ranked)|
  {
    if ranked != [] {
      var n := |ranked| - 1;
      var init := ranked[..n];
      CountAttemptsExact(init);
      assert forall i: nat :: i < n ==> init[i] == ranked[i];
      var tail: set<nat> := if IsAttempt(ranked[n]) then {n} else {};
      assert AttemptPlaces(ranked) == AttemptPlaces(init) + tail;
      assert n !in AttemptPlaces(init);
    }
  }

  /** The pass count of a concatenation is the sum of the pass counts. */
  lemma {:induction false} CountAtLeastAppend(xs: seq<real>, ys: seq<real>, bound: int)
    ensures CountAtLeast(xs + ys, bound) == CountAtLeast(xs, bound) + CountAtLeast(ys, bound)
  {
    if xs == [] {
      assert xs + ys == ys;
    } else {
      assert (xs + ys)[0] == xs[0] && (xs + ys)[1..] == xs[1..] + ys;
      CountAtLeastAppend(xs[1..], ys, bound);
    }
  }

  /** When no session other than an attempt reaches the pass mark, at most
      every attempt passes. */
  lemma {:induction false} PassCountWithinAttempts(ranked: seq<McqSubmission>, passMarks: int)
    requires forall i :: 0 <= i < |ranked| && ranked[i].totalScore.Some? && !IsAttempt(ranked[i]) ==>
               ranked[i].totalScore.value < passMarks as real
    ensures CountAtLeast(Scores(ranked), passMarks) <= CountAttempts(ranked)
  {
    if ranked != [] {
      var n := |ranked| - 1;
      var init := ranked[..n];
      assert forall i :: 0 <= i < n ==> init[i] == ranked[i];
      PassCountWithinAttempts(init, passMarks);
      var last := ranked[n];
      var tail := if last.totalScore.Some? then [last.totalScore.value] else [];
      assert Scores(ranked) == Scores(init) + tail;
      CountAtLeastAppend(Scores(init), tail, passMarks);
      if tail != [] {
        assert tail[1..] == [];
      }
    }
  }

  /** When no session other than an attempt reaches the pass mark, the
      pass percentage is within [0, 100]. */
  lemma PassPercentageBounded(ranked: seq<McqSubmission>, passMarks: int)
    requires forall i :: 0 <= i < |ranked| && ranked[i].totalScore.Some? && !IsAttempt(ranked[i]) ==>
               ranked[i].totalScore.value < passMarks as real
    ensures var p := PassPercentage(CountAtLeast(Scores(ranked), passMarks), CountAttempts(ranked));
            0.0 <= p <= 100.0
  {
    PassCountWithinAttempts(ranked, passMarks);
    var attempts := CountAttempts(ranked);
    var passCount := CountAtLeast(Scores(ranked), passMarks);
    if attempts != 0 {
      PercentBound(passCount, attempts);
    }
  }

  /** The sessions the store can hold outside an attempt are IN_PROGRESS
      ones without a score and ABSENT records scoring 0: with a positive
      pass mark the reported percentage is then within [0, 100]. */
  lemma PassPercentageWithAbsentees(ranked: seq<McqSubmission>, totalMarks: int)
    requires PassMarks(totalMarks) > 0
    requires forall i :: 0 <= i < |ranked| && !IsAttempt(ranked[i]) ==> ranked[i].totalScore.GetOr(0.0) == 0.0
    requires ranked != []
    ensures var r := Summarize(0, ranked, Some(totalMarks));
            r.Success? && 0.0 <= r.value.passPercentage <= 100.0
  {
    PassPercentageBounded(ranked, PassMarks(totalMarks));
  }

  /** With a pass mark of 0 (a total of at most 2 marks) an ABSENT record,
      which scores 0, counts as a pass but not as an attempt: one
      submission scoring 0 beside one absentee reports 200 percent. */
  lemma PassPercentageCanExceedHundred()
    ensures var done := McqSubmission("s1", "e", Some(0), Some(60), SessionStatus.Completed, Some(0.0), Some(0), Some(1), Some([]));
            var absent := McqSubmission("s2", "e", None, Some(120), Absent, Some(0.0), Some(0), Some(0), None);
            var r := Summarize(2, [done, absent], Some(2));
            r.Success? && r.value.passPercentage == 200.0
  {
    var done := McqSubmission("s1", "e", Some(0), Some(60), SessionStatus.Completed, Some(0.0), Some(0), Some(1), Some([]));
    var absent := McqSubmission("s2", "e", None, Some(120), Absent, Some(0.0), Some(0), Some(0), None);
    var ranked := [done, absent];
    assert ranked[..1] == [done] && [done][..0] == [];
    assert CountAttempts(ranked) == 1;
    assert Scores(ranked) == [0.0, 0.0];
    assert PassMarks(2) == 0;
    assert CountAtLeast([0.0, 0.0], 0) == 2;
  }

  lemma PercentBound(k: nat, n: nat)
    requires 0 < n && k <= n
    ensures 0.0 <= (k as real) * 100.0 / (n as real) <= 100.0
  {
    assert (k as real) * 100.0 <= (n as real) * 100.0;
  }
}
