# Quiz and contest platform — a Dafny model of its core

The platform runs two kinds of competition for a college's clubs.

* **MCQ events.** A club schedules an event with a start and an end. Students register for it, and during the window each registered student starts a timed test session, answers multiple-choice questions and submits once. The server grades the answers with marks and negative marks and ranks the student among all sessions of the event. It reports the time left and closes a session whose time has run out. A scheduled sweep marks registered students who never started as absent. Organisers read analytics for each event.
* **Coding contests.** A contest has a window and a list of problems. A student's code is run against each problem's test cases by an external executor and judged. A leaderboard keeps each user's best submission per problem, then ranks users by total score and by the time of their latest counted submission.

A user's activity page joins both: the MCQ events the user registered for, with status and rank, and the contests the user submitted to, with best scores. The front end shows a countdown that ticks once a second and formats the time left.

## Structure

* `Wrappers` provides `Option` and `Result`.
* `Model` holds the stored records as values: events, registrations, MCQ sessions, questions, contests, problems, users and submissions.
* `Repository.Store` is the database. It is a class with one map per collection and a sequence of submissions. Every service method takes the store, states in `modifies` that it may change it, and states what each collection becomes.
* Each service is specified by a pure decision function, for example `StartOutcome`, `SubmitOutcome`, `RegisterOutcome` or `UpdateOutcome`. The method is proved to follow its decision function. Lemmas then prove what the service promises about that function.
* Sorting by the database or by `List.sort` is modelled by what the result satisfies. `McqRanking.IsRankedList` and `LeaderboardService.IsLeaderboard` require a permutation that is sorted by the comparator. The order among equal keys is left open, because the store does not fix it.
* Times are whole seconds. The clock, generated ids and the code executor are parameters.

## Model

| member | source | states |
|---|---|---|
| Repository.Store.constructor | src/main/java/com/company/event/quiz/model/McqSubmission.java:14-17 | The empty store is valid. A session is keyed by its (student, event) pair and a registration by its (event, student) pair, matching the unique compound indexes. |
| Repository.CountRegistrations | src/main/java/com/company/event/quiz/repository/EventRegistrationRepository.java:17 | Counts the event's registrations, cancelled ones included. The count is at most the number of all registrations, and it is zero exactly when no registration names the event. |
| MapAggregates.SumValues | src/main/java/com/company/event/user/UserActivityService.java:122 | The loop total equals the sum of all values of the best-score map. |
| MapAggregates.CountPositiveValues | src/main/java/com/company/event/user/UserActivityService.java:123 | The loop count equals the number of map values above zero (problems solved). |
| Sorting.SortBySorted | src/main/java/com/company/event/contestPackage/leaderboard/LeaderboardService.java:104-119 | Sorting by any total preorder returns a permutation of the input that is ordered by the comparator. |
| McqRanking.RankedBeforeIsTotalPreorder | src/main/java/com/company/event/quiz/repository/McqSubmissionRepository.java:13 | The store's ranking order is a total preorder: score descending with a missing score lowest, then submission time ascending with a missing time first. |
| McqRanking.FindByEventOrdered | src/main/java/com/company/event/quiz/repository/McqSubmissionRepository.java:13 | The ranked list holds every session of the event exactly once, no other session, and is sorted by the ranking order. |
| McqRanking.RankIn | src/main/java/com/company/event/quiz/service/McqService.java:212-218 | The rank is one plus the index of the student's first entry in the ranked list. A student who is absent from the list gets the list's length. |
| McqRanking.CalculateRank | src/main/java/com/company/event/quiz/service/McqService.java:207-219 | The rank is taken in some ranked list of the event's sessions. A student who has a session ranks between 1 and the number of sessions. |
| McqService.StartOutcome | src/main/java/com/company/event/quiz/service/McqService.java:38-89 | Starting succeeds exactly for an existing event with both times set, a current time inside the window (both ends inclusive), a registration of any status, and no COMPLETED session. With everything else in order, a COMPLETED session is refused with "already submitted". A fresh start is reported exactly when the student has no session. |
| McqService.StartTest | src/main/java/com/company/event/quiz/service/McqService.java:36-99 | Returns the event's questions without their correct options, or the error. Only a fresh start writes, and it writes one IN_PROGRESS session. Every other collection is unchanged. |
| McqService.StartAgainKeepsStartTime | src/main/java/com/company/event/quiz/service/McqService.java:58-80 | A second start after a successful one writes nothing. The session keeps its first start time, which is the time of the fresh start. |
| McqService.NamedCount | src/main/java/com/company/event/quiz/service/McqService.java:155-160 | Null answers and answers without a question id are skipped, so the count of graded answers never exceeds the number of answers. |
| McqService.ScoreAll | src/main/java/com/company/event/quiz/service/McqService.java:151-186 | Grading fails exactly when a graded answer names a question outside the event. Otherwise correct plus wrong equals the number of graded answers. |
| McqService.ScoreBounds | src/main/java/com/company/event/quiz/service/McqService.java:165-185 | With marks in [0, hi] and penalties in [0, lo], the raw score lies between −lo for each wrong answer and hi for each correct one. |
| McqService.RepeatedAnswerScoresTwice | src/main/java/com/company/event/quiz/service/McqService.java:151-186 | Answers are not deduplicated: the same correct answer given twice earns its marks twice. |
| McqService.ScoreAnswers | src/main/java/com/company/event/quiz/service/McqService.java:151-186 | The grading loop returns the tally of the answers, or the first unknown question. |
| McqService.SubmitOutcome | src/main/java/com/company/event/quiz/service/McqService.java:109-197 | Submitting succeeds exactly with an answer list, a session that is not COMPLETED and has a start time, an existing event, no more answers than questions, and every graded answer naming a question of the event. The saved session is COMPLETED, stamped now, keeps its start time, and carries the tally's counts and its score raised to 0 when negative. |
| McqService.GradeSubmission | src/main/java/com/company/event/quiz/service/McqService.java:109-197 | The grading part of submitTest returns what SubmitOutcome decides. |
| McqService.SubmitTest | src/main/java/com/company/event/quiz/service/McqService.java:105-202 | An error leaves the store unchanged. Otherwise only the student's session is replaced by the graded one, and the response carries its truncated score, its counts and its rank computed after the save. |
| McqService.SubmitIsFinal | src/main/java/com/company/event/quiz/service/McqService.java:117-120 | After a successful submission, submitting again fails with "already submitted". |
| McqService.AutoSubmittedCanStillSubmit | src/main/java/com/company/event/quiz/service/McqService.java:117-120 | A session marked AUTO_SUBMITTED by the timer is not final: an empty answer list can still be submitted for it. |
| McqService.RemainingOutcome | src/main/java/com/company/event/quiz/service/McqService.java:226-282 | Succeeds exactly when the event, the registration and the session exist and the session is COMPLETED or has a start time and a duration. A COMPLETED session reports 0 and COMPLETED and writes nothing. Otherwise, before the deadline, it reports deadline − now and the session's own status. A write happens exactly at or after the deadline, and it stores the session as AUTO_SUBMITTED stamped now. |
| McqService.GetRemainingTime | src/main/java/com/company/event/quiz/service/McqService.java:224-283 | Returns what RemainingOutcome decides, and writes only the expired session it names. |
| McqService.RemainingShrinks | src/main/java/com/company/event/quiz/service/McqService.java:254-261 | A later poll never reports more time than an earlier one. A started session never reports more than the event's duration. |
| McqService.ExpiryIsPermanent | src/main/java/com/company/event/quiz/service/McqService.java:263-275 | Once a poll has expired a session, later polls report zero time and AUTO_SUBMITTED, and each one stamps the session again with its own time. |
| McqService.CountAttempts | src/main/java/com/company/event/quiz/service/McqService.java:299-302 | There are never more attempts than sessions. |
| McqService.CountAttemptsExact | src/main/java/com/company/event/quiz/service/McqService.java:299-302 | The attempt count is exactly the number of COMPLETED and AUTO_SUBMITTED sessions; IN_PROGRESS and ABSENT ones are not counted. |
| McqService.Scores | src/main/java/com/company/event/quiz/service/McqService.java:319-322 | The score list holds exactly the sessions' non-null scores. |
| McqService.Highest | src/main/java/com/company/event/quiz/service/McqService.java:324 | The highest score is one of the scores and no score exceeds it. |
| McqService.Lowest | src/main/java/com/company/event/quiz/service/McqService.java:325 | The lowest score is one of the scores and no score is below it. |
| McqService.CountAtLeast | src/main/java/com/company/event/quiz/service/McqService.java:334-336 | The pass count is at most the number of scores. |
| McqService.PassMarks | src/main/java/com/company/event/quiz/service/McqService.java:332 | The pass mark is two fifths of the total marks, truncated toward zero. |
| McqService.Top | src/main/java/com/company/event/quiz/service/McqService.java:344-357 | The top list has at most the requested number of entries. Each entry reports the session at its place in the ranking, its rank lies within the requested places, and the ranks strictly increase. |
| McqService.TopComplete | src/main/java/com/company/event/quiz/service/McqService.java:344-357 | No scored session among the first places of the ranking is missing from the top list. |
| McqService.TopCount | src/main/java/com/company/event/quiz/service/McqService.java:344 | The number of places examined is at most ten and at most the number of sessions. |
| McqService.TopPerformers | src/main/java/com/company/event/quiz/service/McqService.java:342-357 | The loop builds the top list. |
| McqService.Summarize | src/main/java/com/company/event/quiz/service/McqService.java:293-368 | Fails exactly when there are sessions but the event has no total marks. Otherwise the attempts are the attempt count, absent = registrations − attempts, the highest, lowest and average are those of the non-null scores, and the top performers are the scored entries among the first ten places. |
| McqService.GetEventAnalytics | src/main/java/com/company/event/quiz/service/McqService.java:288-369 | An unknown event is an error. Otherwise the summary is taken over the ranked sessions of the event and its registration count. |
| McqService.AverageBetween | src/main/java/com/company/event/quiz/service/McqService.java:324-330 | The average score lies between the lowest and the highest score. |
| McqService.PassPercentageBounded | src/main/java/com/company/event/quiz/service/McqService.java:332-340 | When no session other than an attempt reaches the pass mark, the pass percentage lies between 0 and 100. |
| McqService.PassCountWithinAttempts | src/main/java/com/company/event/quiz/service/McqService.java:319-336 | When no session other than an attempt reaches the pass mark, the pass count is at most the attempt count. |
| McqService.PassPercentageWithAbsentees | src/main/java/com/company/event/quiz/service/McqService.java:319-340 | With a positive pass mark, and sessions outside an attempt scoring nothing or 0 (ABSENT records), the reported pass percentage lies between 0 and 100. |
| McqService.PassPercentageCanExceedHundred | src/main/java/com/company/event/quiz/service/McqService.java:332-340 | With a pass mark of 0 (total marks of at most 2), one submission scoring 0 beside one ABSENT record reports a pass percentage of 200. |
| SubmissionService.ReplaceCrLf | src/main/java/com/company/event/contestPackage/submission/SubmissionService.java:146 | Replacing CRLF by LF never lengthens the text. |
| SubmissionService.ReplaceCrLfSplit | src/main/java/com/company/event/contestPackage/submission/SubmissionService.java:146 | Each CRLF pair becomes a single LF, and the text on either side of it is rewritten on its own. |
| SubmissionService.ReplaceCrLfNoPair | src/main/java/com/company/event/contestPackage/submission/SubmissionService.java:146 | A text with no CRLF pair is kept unchanged, including any lone CR. |
| SubmissionService.ReplaceCrChars | src/main/java/com/company/event/contestPackage/submission/SubmissionService.java:147 | Every CR becomes LF and every other character is kept in place. |
| SubmissionService.NormalizeShape | src/main/java/com/company/event/contestPackage/submission/SubmissionService.java:144-152 | A null text normalises to the empty text. Otherwise the result holds no CR and ends with an LF. |
| SubmissionService.NormalizeIdempotent | src/main/java/com/company/event/contestPackage/submission/SubmissionService.java:144-152 | Normalising a non-null text twice gives the same result as normalising it once. |
| SubmissionService.Trim | src/main/java/com/company/event/contestPackage/submission/SubmissionService.java:86-89 | The trimmed text is empty, or it starts and ends with a character above U+0020. |
| SubmissionService.TrimIsInfix | src/main/java/com/company/event/contestPackage/submission/SubmissionService.java:86-89 | The trimmed text is a contiguous slice of the input, and only whitespace is cut from either end. |
| SubmissionService.TrimIdempotent | src/main/java/com/company/event/contestPackage/submission/SubmissionService.java:86-89 | Trimming twice gives the same result as trimming once. |
| SubmissionService.ToLowerAscii | src/main/java/com/company/event/contestPackage/submission/SubmissionService.java:125 | Lowering keeps the length, lowers ASCII capitals and keeps every other character. |
| SubmissionService.LanguageTablesAgree | src/main/java/com/company/event/contestPackage/submission/SubmissionService.java:124-142 | A language has an executor name exactly when its version is not "0". Both lookups ignore ASCII letter case. |
| SubmissionService.SupportedLanguages | src/main/java/com/company/event/contestPackage/submission/SubmissionService.java:124-132 | Exactly python, java, c and cpp are supported, in any letter case. They map to python3, java, c and cpp14, with versions 3, 4, 5 and 3. |
| SubmissionService.PassedCount | src/main/java/com/company/event/contestPackage/submission/SubmissionService.java:73-94 | The number of passed cases is at most the number of cases. |
| SubmissionService.AllPassed | src/main/java/com/company/event/contestPackage/submission/SubmissionService.java:73-99 | Every case passes exactly when the passed count equals the number of cases. |
| SubmissionService.JudgeScore | src/main/java/com/company/event/contestPackage/submission/SubmissionService.java:96 | The score lies in 0..100. With at least one case it is the truncated percentage of passed cases, and it is 100 exactly when every case passes. |
| SubmissionService.JudgedRecord | src/main/java/com/company/event/contestPackage/submission/SubmissionService.java:96-104 | The judged record keeps the pending record's id and time. Its score lies in 0..100, and its verdict is ACCEPTED exactly when every case passes. |
| SubmissionService.Admit | src/main/java/com/company/event/contestPackage/submission/SubmissionService.java:32-58 | A submission is admitted exactly for an existing contest, a time within its window, an existing problem and an existing user, and the problem is returned. Each refusal carries the error of the first failed check: contest not found, not started, ended, problem not found, user not found. |
| SubmissionService.RunTestCases | src/main/java/com/company/event/contestPackage/submission/SubmissionService.java:73-94 | An unsupported language fails at the first test case. With no test cases it never fails. Otherwise the result is the number of cases whose trimmed output equals the trimmed expected output. |
| SubmissionService.SubmitCode | src/main/java/com/company/event/contestPackage/submission/SubmissionService.java:30-107 | A refused submission changes nothing. An admitted one appends a PENDING record first. That record stays PENDING when the language fails. Otherwise it is replaced in place by the judged record, and nothing else changes. |
| SubmissionService.NoTestCasesAccepted | src/main/java/com/company/event/contestPackage/submission/SubmissionService.java:96-99 | A problem with no test cases is judged ACCEPTED with score 0, whatever the language. |
| LeaderboardService.ContestSubmissions | src/main/java/com/company/event/contestPackage/leaderboard/LeaderboardService.java:35-36 | The query returns exactly the contest's submissions. |
| LeaderboardService.KeepBestCases | src/main/java/com/company/event/contestPackage/leaderboard/LeaderboardService.java:41-58 | One step keeps a submission for a new (user, problem) pair, replaces the kept one only when the new score is strictly higher, and leaves every other pair alone. |
| LeaderboardService.KeepBestStep | src/main/java/com/company/event/contestPackage/leaderboard/LeaderboardService.java:41-58 | Each step preserves the invariant "best so far" over the prefix read. |
| LeaderboardService.BestOfCorrect | src/main/java/com/company/event/contestPackage/leaderboard/LeaderboardService.java:39-58 | There is one user entry for each user that submits, holding one submission for each problem the user submitted to. That submission is the first of the highest score. |
| LeaderboardService.KeepBestPerProblem | src/main/java/com/company/event/contestPackage/leaderboard/LeaderboardService.java:39-58 | The loop computes the best-per-problem table. |
| LeaderboardService.Totals | src/main/java/com/company/event/contestPackage/leaderboard/LeaderboardService.java:67-85 | The total is the sum of the kept scores, solved counts the kept scores above zero, and the last time is the latest kept submission time. |
| LeaderboardService.EntryBeforeIsTotalPreorder | src/main/java/com/company/event/contestPackage/leaderboard/LeaderboardService.java:104-119 | The leaderboard comparator is a total preorder: higher total first, then earlier last submission, with a missing time last. |
| LeaderboardService.BuildRows | src/main/java/com/company/event/contestPackage/leaderboard/LeaderboardService.java:60-101 | Builds one row per user in the table and no other rows. |
| LeaderboardService.RowFor | src/main/java/com/company/event/contestPackage/leaderboard/LeaderboardService.java:62-101 | A user's row carries the totals, with "Unknown" and "N/A" standing in for a missing user. |
| LeaderboardService.GetLeaderboard | src/main/java/com/company/event/contestPackage/leaderboard/LeaderboardService.java:25-122 | An unknown contest is an error. Otherwise the result is a sorted permutation of the users' rows. |
| LeaderboardService.EntryBounds | src/main/java/com/company/event/contestPackage/leaderboard/LeaderboardService.java:67-85 | With scores in 0..100, solved counts at most the problems the user submitted to, the total is at most 100 per problem, and a user with any kept submission has a last time. |
| AttendanceScheduler.AbsentRecord | src/main/java/com/company/event/quiz/scheduler/AttendanceScheduler.java:54-63 | The absent record belongs to the student and the event. It has status ABSENT, score 0 and zero counts, no start time and no answers, and it is stamped now. |
| AttendanceScheduler.MarkRegistrants | src/main/java/com/company/event/quiz/scheduler/AttendanceScheduler.java:43-65 | The inner loop adds an absent record for each registrant without a session and keeps every existing session. |
| AttendanceScheduler.MarkOne | src/main/java/com/company/event/quiz/scheduler/AttendanceScheduler.java:45-64 | A registrant with a session is skipped. Any other registrant gets an absent record. |
| AttendanceScheduler.SweepEvent | src/main/java/com/company/event/quiz/scheduler/AttendanceScheduler.java:35-70 | An eligible event has its registrants marked and its flag set. Any other event is left alone. |
| AttendanceScheduler.MarkAbsentStudents | src/main/java/com/company/event/quiz/scheduler/AttendanceScheduler.java:26-72 | The sweep writes only events and sessions: the outcome of SweepEventsEffect and SweepSessionsEffect. |
| AttendanceScheduler.SweepEventsEffect | src/main/java/com/company/event/quiz/scheduler/AttendanceScheduler.java:32-69 | After the sweep every eligible event is flagged as processed, and every other event is unchanged. |
| AttendanceScheduler.SweepSessionsEffect | src/main/java/com/company/event/quiz/scheduler/AttendanceScheduler.java:40-64 | Existing sessions are kept. Each added session is the absent record of a registrant of an eligible event, and every registrant of an eligible event, cancelled or not, ends with a session. |
| AttendanceScheduler.MarkedTwice | src/main/java/com/company/event/quiz/scheduler/AttendanceScheduler.java:47-52 | Marking an event's registrants a second time changes nothing. |
| AttendanceScheduler.SweepTwice | src/main/java/com/company/event/quiz/scheduler/AttendanceScheduler.java:35-38 | A second sweep at the same instant changes nothing, because the first one flagged every eligible event. |
| AttendanceScheduler.SweepAgainLater | src/main/java/com/company/event/quiz/scheduler/AttendanceScheduler.java:32-69 | A sweep at any later time keeps the events the first sweep flagged and every session it left, and adds absent records only for events that were not eligible at the first sweep and are at the later one. |
| AttendanceScheduler.NothingEligibleSweep | src/main/java/com/company/event/quiz/scheduler/AttendanceScheduler.java:32-38 | When no event is eligible, the sweep changes nothing. |
| EventRegistrationService.RegisterOutcome | src/main/java/com/company/event/quiz/service/EventRegistrationService.java:25-51 | Registration succeeds exactly for an existing event with a start time, before its start, when the student has no registration for it in any status. The new record is REGISTERED and stamped now. |
| EventRegistrationService.Register | src/main/java/com/company/event/quiz/service/EventRegistrationService.java:23-54 | Returns what RegisterOutcome decides. It adds only that record and leaves everything else unchanged. |
| EventRegistrationService.CancelOutcome | src/main/java/com/company/event/quiz/service/EventRegistrationService.java:61-80 | Cancelling succeeds exactly for an existing event with a start time, before its start, for a registration that is not yet cancelled. The record is kept, with status CANCELLED. A second cancel fails with "already cancelled". |
| EventRegistrationService.CancelRegistration | src/main/java/com/company/event/quiz/service/EventRegistrationService.java:59-83 | Returns what CancelOutcome decides and rewrites only that record. |
| EventRegistrationService.GetTotalRegistrations | src/main/java/com/company/event/quiz/service/EventRegistrationService.java:88-90 | Counts the event's registrations in every status. |
| EventRegistrationService.RegisterCounts | src/main/java/com/company/event/quiz/service/EventRegistrationService.java:45-51 | A successful registration raises its event's count by one and leaves every other event's count unchanged. |
| EventRegistrationService.CancelKeepsCount | src/main/java/com/company/event/quiz/service/EventRegistrationService.java:79-80 | Cancelling leaves the registration count of every event unchanged. |
| EventRegistrationService.CancelledBlocksRegister | src/main/java/com/company/event/quiz/service/EventRegistrationService.java:40-43 | After registering and cancelling, registering again fails with "already registered". |
| EventController.ToInt32 | src/main/java/com/company/event/quiz/controller/EventController.java:50 | The Java int cast keeps values already in the int range and always lands in that range. |
| EventController.DurationIsWholeMinutes | src/main/java/com/company/event/quiz/controller/EventController.java:50 | For a start before the end, the duration is the number of whole minutes in the span. |
| EventController.CreateOutcome | src/main/java/com/company/event/quiz/controller/EventController.java:24-52 | An event is created exactly when its title is not blank, its club and both times are set, its start is before its end and not more than five minutes in the past. It is saved with the processed flag false and its duration in minutes, and its other fields are kept as sent. |
| EventController.CreateEvent | src/main/java/com/company/event/quiz/controller/EventController.java:21-53 | Stores what CreateOutcome decides under the new id and changes nothing else. |
| EventController.MergeLaws | src/main/java/com/company/event/quiz/controller/EventController.java:60-67 | Each of the eight fields a request may set (title, times, duration, total marks, club, both coordinator lists) is taken from the request when set and kept otherwise. The id, type, flag and status are kept. Merging the same request again changes nothing. |
| EventController.UpdateOutcome | src/main/java/com/company/event/quiz/controller/EventController.java:58-79 | An update succeeds exactly for a known id whose resulting start, taken from the request or else the stored event, is not at or after the resulting end. Failures are "not found" or "start must be before end". The saved event is the merge. Its duration is recomputed from the two times when both are set, and otherwise comes from the request or else the stored event. |
| EventController.UpdateEvent | src/main/java/com/company/event/quiz/controller/EventController.java:56-80 | Stores what UpdateOutcome decides under the same id and changes nothing else. |
| EventController.UpdateIdempotent | src/main/java/com/company/event/quiz/controller/EventController.java:60-77 | Repeating an accepted update saves the same event again. |
| EventController.UpdateKeeps | src/main/java/com/company/event/quiz/controller/EventController.java:60-75 | An accepted update keeps the id, the type and the processed flag, and leaves the start before the end whenever both are set. |
| EventController.StatusAt | src/main/java/com/company/event/quiz/controller/EventController.java:101-114 | The label is UPCOMING before the start or when a time is missing, LIVE from the start to the end inclusive, and COMPLETED after the end. |
| EventController.StatusMovesForward | src/main/java/com/company/event/quiz/controller/EventController.java:107-113 | For a valid window, the label only moves forward as time passes. |
| EventController.Labelled | src/main/java/com/company/event/quiz/controller/EventController.java:101-114 | Labelling changes only the status field. |
| EventController.GetAllEvents | src/main/java/com/company/event/quiz/controller/EventController.java:83-88 | Returns every stored event, each one labelled at the current time. |
| EventController.GetEvent | src/main/java/com/company/event/quiz/controller/EventController.java:91-99 | Returns the labelled event, or "not found" for an unknown id. |
| EventController.DeleteEvent | src/main/java/com/company/event/quiz/controller/EventController.java:117-124 | Removes exactly the event and keeps its registrations, sessions and questions. An unknown id is reported and nothing changes. |
| QuestionController.Validate | src/main/java/com/company/event/quiz/controller/QuestionController.java:38-51 | A request is accepted exactly when its text, options, correct option and marks are set, it has at least two options and the correct option is below the option count. A negative correct option is not rejected. |
| QuestionController.Build | src/main/java/com/company/event/quiz/controller/QuestionController.java:53-61 | The stored question takes the event id from the path, copies the request's fields and defaults a missing negative mark to 0. |
| QuestionController.BuiltIsWellFormed | src/main/java/com/company/event/quiz/controller/QuestionController.java:38-61 | A stored question built from a valid request has at least two options, a correct option below the option count, marks and a negative mark. |
| QuestionController.AddQuestion | src/main/java/com/company/event/quiz/controller/QuestionController.java:24-64 | An unknown event is refused before validation. A valid question is stored under its new id. Nothing else changes. |
| QuestionController.BuildAllAllOrNothing | src/main/java/com/company/event/quiz/controller/QuestionController.java:78-108 | A batch is built exactly when every request is valid, and it then holds every request's question in order. Otherwise the error is that of the first invalid request. |
| QuestionController.BuildBatch | src/main/java/com/company/event/quiz/controller/QuestionController.java:78-108 | The validation loop builds the batch. |
| QuestionController.BatchFailsAt | src/main/java/com/company/event/quiz/controller/QuestionController.java:78-95 | A batch whose first invalid request is at position i fails with that request's error. |
| QuestionController.Keyed | src/main/java/com/company/event/quiz/controller/QuestionController.java:110 | Every question of the batch is stored under its own id. |
| QuestionController.KeyedKeepsEach | src/main/java/com/company/event/quiz/controller/QuestionController.java:110 | When the ids are distinct, every question of the batch is found under its own id. |
| QuestionController.AddBulkQuestions | src/main/java/com/company/event/quiz/controller/QuestionController.java:65-111 | Nothing is stored unless every request is valid. Otherwise each question of the batch, in order, is stored under its own fresh id. `saveAll` gives every question a distinct new id. |
| QuestionController.DeleteQuestion | src/main/java/com/company/event/quiz/controller/QuestionController.java:118-125 | Removes exactly the question. An unknown id is reported and nothing changes. |
| ContestService.CheckWindow | src/main/java/com/company/event/contestPackage/contest/ContestService.java:20-25 | The window passes exactly when both times are set and the start is not after the end. A start after the end is refused. |
| ContestService.FromRequest | src/main/java/com/company/event/contestPackage/contest/ContestService.java:27-35 | The stored contest copies every field of the request under the new id. |
| ContestService.ToResponse | src/main/java/com/company/event/contestPackage/contest/ContestService.java:106-117 | The response copies every field of the contest. |
| ContestService.ResponseIsFaithful | src/main/java/com/company/event/contestPackage/contest/ContestService.java:106-117 | Two contests with the same response are the same contest. |
| ContestService.CreateContest | src/main/java/com/company/event/contestPackage/contest/ContestService.java:18-38 | Stores the contest exactly when the window check passes, and changes nothing else. |
| ContestService.UpdateContest | src/main/java/com/company/event/contestPackage/contest/ContestService.java:80-104 | An unknown id is reported before the window is checked. An accepted update replaces every field, absent ones included. |
| ContestService.GetAllContests | src/main/java/com/company/event/contestPackage/contest/ContestService.java:40-45 | Returns the response of every stored contest and no other. |
| ContestService.GetContestById | src/main/java/com/company/event/contestPackage/contest/ContestService.java:47-55 | Returns the contest's response, or "not found" for an unknown id. |
| ContestService.StatusAt | src/main/java/com/company/event/contestPackage/contest/ContestService.java:57-68 | The label is UPCOMING before the start, LIVE from the start to the end inclusive, and ENDED after the end. |
| ContestService.StatusMovesForward | src/main/java/com/company/event/contestPackage/contest/ContestService.java:57-68 | The label only moves forward as time passes, and a contest is live at its start. |
| ContestService.DeleteContest | src/main/java/com/company/event/contestPackage/contest/ContestService.java:70-78 | Removes exactly the contest. An unknown id is reported and nothing changes. |
| UserActivityService.UserSubmissions | src/main/java/com/company/event/user/UserActivityService.java:94-95 | Selects exactly the user's submissions. |
| UserActivityService.GroupByContest | src/main/java/com/company/event/user/UserActivityService.java:97-99 | There is one non-empty group per contest that has a submission, holding exactly that contest's submissions. |
| UserActivityService.BestScoresCorrect | src/main/java/com/company/event/user/UserActivityService.java:111-120 | Each problem submitted to maps to the highest score submitted for it. |
| UserActivityService.LastSubmissionCorrect | src/main/java/com/company/event/user/UserActivityService.java:111-120 | The last submission time is the latest among submissions that name a problem, and it is absent when there are none. |
| UserActivityService.TotalProblems | src/main/java/com/company/event/user/UserActivityService.java:129 | The total is the number of the contest's problems, or 0 when the contest has none. |
| UserActivityService.LaterFirstIsTotalPreorder | src/main/java/com/company/event/user/UserActivityService.java:135-140 | Latest-first ordering of contest activities is a total preorder. |
| UserActivityService.ScanContest | src/main/java/com/company/event/user/UserActivityService.java:111-120 | The inner loop computes the best scores and the last submission. |
| UserActivityService.SummarizeContest | src/main/java/com/company/event/user/UserActivityService.java:105-132 | A contest's activity carries its title, totals, solved count and last time as specified. |
| UserActivityService.BuildContestActivities | src/main/java/com/company/event/user/UserActivityService.java:103-133 | There is one activity per contest that still exists and has the user's submissions. |
| UserActivityService.GetContestActivities | src/main/java/com/company/event/user/UserActivityService.java:93-143 | There is one activity per contest that still exists and has the user's submissions. The list is sorted latest submission first, with a missing time last. |
| UserActivityService.ContestActivityBounds | src/main/java/com/company/event/user/UserActivityService.java:111-123 | Solved counts at most the problems submitted to, and with scores in 0..100 the total is at most 100 per problem. |
| UserActivityService.PlaceIn | src/main/java/com/company/event/user/UserActivityService.java:63-77 | The rank is the student's place in the ranked list. |
| UserActivityService.StudentEvents | src/main/java/com/company/event/user/UserActivityService.java:38-45 | Exactly the existing events the student registered for, cancelled registrations included. |
| UserActivityService.RegisteredLaterIsTotalPreorder | src/main/java/com/company/event/user/UserActivityService.java:83-89 | Newest-registration-first ordering is a total preorder. |
| UserActivityService.BuildMcqActivities | src/main/java/com/company/event/user/UserActivityService.java:41-81 | There is one activity per event of StudentEvents, and each one is the activity of that event. |
| UserActivityService.McqActivityAt | src/main/java/com/company/event/user/UserActivityService.java:44-78 | An event's activity is built from the registration, the event and the student's session. When a session exists, its rank is the student's place in a ranked list of the event's sessions; otherwise it has no rank. |
| UserActivityService.GetMcqActivities | src/main/java/com/company/event/user/UserActivityService.java:37-91 | There is one activity per event of StudentEvents, each one that event's activity, sorted newest registration first. |
| UserActivityService.AttemptedIsRanked | src/main/java/com/company/event/user/UserActivityService.java:57-77 | An activity has a rank exactly when it was attempted, and that rank lies between 1 and the number of the event's sessions. |
| UserActivityService.GetUserActivity | src/main/java/com/company/event/user/UserActivityService.java:30-35 | The page holds the MCQ activity list and the contest activity list as specified above. |
| CountdownTimer.JsRem | frontend/src/components/CountdownTimer.tsx:47-50 | JavaScript's % agrees with the mathematical remainder on non-negative operands and always lies strictly between −b and b. |
| CountdownTimer.TimePartsDecompose | frontend/src/components/CountdownTimer.tsx:46-50 | For a non-negative count, days, hours, minutes and seconds are in range and add back up to the count. |
| CountdownTimer.TimePartsUnique | frontend/src/components/CountdownTimer.tsx:46-50 | Any in-range decomposition of a count is the one the timer computes. |
| CountdownTimer.DigitsRoundTrip | frontend/src/components/CountdownTimer.tsx:57 | The decimal text of a number reads back as that number. |
| CountdownTimer.Pad2 | frontend/src/components/CountdownTimer.tsx:57 | Padding to two characters keeps longer texts and left-fills shorter ones. |
| CountdownTimer.Pad2RoundTrip | frontend/src/components/CountdownTimer.tsx:57 | A padded value below 60 has two digits and reads back as itself. |
| CountdownTimer.ReadHoursClock | frontend/src/components/CountdownTimer.tsx:56-58 | An h:mm:ss clock reads back as its number of seconds. |
| CountdownTimer.ReadMinutesClock | frontend/src/components/CountdownTimer.tsx:60 | An m:ss clock reads back as its number of seconds. |
| CountdownTimer.FormatClockRoundTrip | frontend/src/components/CountdownTimer.tsx:46-61 | For counts under a day, the formatted clock reads back as the count, so no two counts share a text. |
| CountdownTimer.FormatDaysHidesSeconds | frontend/src/components/CountdownTimer.tsx:52-54 | For a day or more, the seconds are not shown. |
| CountdownTimer.CalculateTimeLeft | frontend/src/components/CountdownTimer.tsx:16-23 | An initial count is used as given. Otherwise the time to the target is never negative, is the whole seconds left, and is 0 once less than a second remains or when there is no target. |
| CountdownTimer.UrgentShowsMinutes | frontend/src/components/CountdownTimer.tsx:63 | An urgent count (under five minutes) is shown as m:ss. |
| CountdownTimer.Countdown.constructor | frontend/src/components/CountdownTimer.tsx:25-31 | The countdown starts at the computed time left, running, with no end call made. |
| CountdownTimer.Countdown.Tick | frontend/src/components/CountdownTimer.tsx:32-41 | A tick at one second or less stops at 0 and calls the end handler once. Otherwise it takes one second off. |
| CountdownTimer.Countdown.RunToEnd | frontend/src/components/CountdownTimer.tsx:32-41 | Running to the end takes max(1, time left) ticks, ends at 0 and calls the end handler exactly once. |
| CountdownTimer.NegativeCountShown | frontend/src/components/CountdownTimer.tsx:46-60 | A negative count is formatted with negative fields: −5 seconds shows as "-1:-5". |

## Behaviour worth noting

The model follows the code in each of these cases, some of which a reader might not expect.

* **Over-time submission.** A submission past the deadline ends COMPLETED, not AUTO_SUBMITTED. The label set at `McqService.java:138` is overwritten at line 195.
* **AUTO_SUBMITTED is not final.** Such a session can still be resumed and submitted.
* **Absent records.** They are stamped with the sweep's time (`AttendanceScheduler.java:61`), even though no submission took place.
* **Ranking of missing times.** Sessions without a submission time rank first among equal scores, because the store orders a missing value lowest in an ascending sort. They do not rank last.
* **Judged score.** It is truncated, not rounded.
* **Unsupported language.** It fails inside the test loop, after the PENDING record is saved, and never fails for a problem with no test cases.
* **Output comparison.** Expected output is trimmed only, not normalised.
* **Normalising null.** A null text normalises to the empty text, with no newline.
* **Contest activity.** The last submission time skips submissions without a problem id.
* **Order of checks in submitCode.** Contest, then window, then problem, then user.

## Left out

* Persistence, HTTP mapping, authentication, security, PDF export, the REST controllers' status codes and the submission read endpoints (`getSubmission*` mappers) are left out: they add no logic beyond a lookup.
* `getQuestionsByEventId` (QuestionController.java:113-116) is not modelled. It is a plain filter of the question map.
* Clock, ids and execution:
  * the current time and generated ids are parameters;
  * the cron trigger of the sweep is not modelled;
  * the external code executor is a function parameter, with no failure mode of its own.
* Concurrency is not modelled. Each service call is atomic on the store.
* Number representation:
  * marks are `real` and double rounding artefacts are not modelled;
  * the pass mark uses Java's truncating division of `2 * totalMarks` by 5;
  * the judged score uses an exact integer floor;
  * `int` overflow of sums and counts is not modelled, except the `(int)` cast of an event's duration.
* Null fields that the code dereferences without checking are not modelled: a submission's score or time, a language, an expected output. Those paths throw. A submission's code and a test case's input are never null in the model. `normalize(null)` is modelled and proved about (NormalizeShape), but `submitCode` never reaches it. A registration's event id is never null in the model, because it is part of the registration's key.
* CalculateRank: `findTopByStudentIdAndEventIdOrderByStartTimeDesc` is the student's single session for the event, because the unique index allows at most one.
* McqRanking.FindByEventOrdered: the order among sessions with equal score and time is whatever the store returns. The model leaves it open rather than fixing one.
* LeaderboardService.EntryBeforeIsTotalPreorder: the Java comparator returns 1 when both times are null. That inconsistent case is modelled as a tie.
* UserActivityService.LaterFirstIsTotalPreorder: the contest-activity comparator (UserActivityService.java:136-140) also returns 1 when both last submission times are null, and that case is also modelled as a tie. It arises when all of a contest's submissions lack a problem id.
* McqService.PassPercentageBounded: the bound holds only when no session other than an attempt reaches the pass mark. The code counts passes over every non-null score, ABSENT records included, but divides by attempts. With a pass mark of 0 the reported percentage can exceed 100, as PassPercentageCanExceedHundred shows. The model keeps the code's formula.
* Lower-casing of language names covers ASCII letters only.
* CountdownTimer:
  * times are whole seconds; sub-second remainders and an unparsable target date (NaN) are not modelled;
  * rendering, the icon and the CSS classes are left out;
  * formatting of negative counts is covered only by the example in NegativeCountShown.
* Cancelled registrations still appear in a student's MCQ activities and are still swept as absent, as in the code. The model does not filter them.
