/** The records kept by the platform's document store and the values its
    services return. Every Java reference that the core tests against null is
    an `Option`; references the core never tests are plain values. */
module Model {
  import opened Wrappers

  /** Document and user identifiers. */
  type Id = string

  /** An `Instant`, in whole seconds. */
  type Time = int

  /** Java's `long` division, which truncates toward zero (Dafny's `/` is
      Euclidean and differs for a negative dividend). */
  function JavaDiv(a: int, b: int): int
    requires b > 0
  {
    if a >= 0 then a / b else -((-a) / b)
  }

  // ---------------------------------------------------------------
  // MCQ events
  // ---------------------------------------------------------------

  /** The `status` strings an MCQ session record can carry. */
  datatype SessionStatus = InProgress | Completed | AutoSubmitted | Absent

  /** The `status` strings an event is labelled with when it is read. */
  datatype EventStatus = Upcoming | Live | Completed

  /** One answer of a submitted test. */
  datatype Answer = Answer(questionId: Option<Id>, selectedOption: Option<int>)

  /** One student's session for one MCQ event. */
  datatype McqSubmission = McqSubmission(
    studentId: Id,
    eventId: Id,
    startTime: Option<Time>,
    submittedAt: Option<Time>,
    status: SessionStatus,
    totalScore: Option<real>,
    correctCount: Option<int>,
    wrongCount: Option<int>,
    answers: Option<seq<Option<Answer>>>)

  /** A session that was started at `now` and has not been submitted. */
  function FreshSession(studentId: Id, eventId: Id, now: Time): McqSubmission {
    McqSubmission(studentId, eventId, Some(now), None, InProgress, None, None, None, None)
  }

  /** An MCQ event (or any other event type). */
  datatype Event = Event(
    id: Id,
    title: Option<string>,
    eventType: Option<string>,
    startTime: Option<Time>,
    endTime: Option<Time>,
    durationInMinutes: Option<int>,
    attendanceProcessed: Option<bool>,
    totalMarks: Option<int>,
    clubId: Option<Id>,
    facultyCoordinators: Option<seq<string>>,
    studentCoordinators: Option<seq<string>>,
    status: Option<EventStatus>)

  datatype RegistrationStatus = Registered | Cancelled

  /** A student's registration for an event. */
  datatype Registration = Registration(
    eventId: Id,
    studentId: Id,
    registeredAt: Option<Time>,
    status: RegistrationStatus)

  /** A question of an MCQ event. */
  datatype McqQuestion = McqQuestion(
    id: Id,
    eventId: Id,
    questionText: Option<string>,
    options: Option<seq<string>>,
    correctOption: Option<int>,
    marks: Option<real>,
    negativeMarks: Option<real>)

  // ---------------------------------------------------------------
  // Coding contests
  // ---------------------------------------------------------------

  /** A coding contest. Its times are never null once stored, because
      creation dereferences both. */
  datatype Contest = Contest(
    id: Id,
    title: Option<string>,
    startTime: Time,
    endTime: Time,
    clubId: Option<Id>,
    problemIds: Option<seq<Id>>,
    facultyCoordinators: Option<seq<string>>,
    studentCoordinators: Option<seq<string>>)

  datatype TestCase = TestCase(input: string, expectedOutput: string, hidden: bool)

  datatype Problem = Problem(id: Id, title: Option<string>, testCases: seq<TestCase>)

  datatype User = User(id: Id, username: string, rollNumber: string)

  datatype Verdict = Pending | Accepted | WrongAnswer

  /** One judged (or still pending) code submission; `id` is its position in
      the store. */
  datatype Submission = Submission(
    id: nat,
    userId: Id,
    contestId: Option<Id>,
    problemId: Option<Id>,
    code: string,
    language: string,
    verdict: Verdict,
    score: int,
    submittedAt: Time)

  /** One row of a contest leaderboard. */
  datatype LeaderboardEntry = LeaderboardEntry(
    userId: Id,
    username: string,
    rollNumber: string,
    totalScore: int,
    problemsSolved: int,
    lastSubmissionTime: Option<Time>)
}
