/** `UserActivityService.getUserActivity`: a user's MCQ events (one entry
    per registration whose event still exists, with the session's outcome
    and rank when there is one) and coding contests (one entry per contest
    the user submitted to, with the best score per problem summed and
    counted). The service only reads the store; the clock is a parameter. */
module UserActivityService {
  import opened Wrappers
  import opened Model
  import opened Repository
  import opened Sorting
  import opened MapAggregates
  import opened McqRanking
  import LeaderboardService

  // ---------------------------------------------------------------
  // Contest activities
  // ---------------------------------------------------------------

  /** One contest in the user's activity. `rank` is never filled in. */
  datatype ContestActivity = ContestActivity(
    contestId: Id,
    title: Option<string>,
    problemsSolved: int,
    totalProblems: int,
    totalScore: int,
    lastSubmissionTime: Option<Time>,
    rank: Option<int>)

  /** `findAllByUserId`: the user's submissions in store order. */
  function UserSubmissions(subs: seq<Submission>, userId: Id): (r: seq<Submission>)
    ensures forall x :: x in r <==> x in subs && x.userId == userId
  {
    if subs == [] then []
    else
      var init := subs[..|subs| - 1];
      var last := subs[|subs| - 1];
      assert forall x :: x in subs <==> x in init || x == last;
      UserSubmissions(init, userId) + (if last.userId == userId then [last] else [])
  }

  /** The contests named by some submission. */
  function ContestIdsOf(subs: seq<Submission>): set<Id> {
    set x | x in subs && x.contestId.Some? :: x.contestId.value
  }

  /** `groupingBy(Submission::getContestId)` after dropping a null contest
      id: one non-empty group per contest, in store order. */
  function GroupByContest(subs: seq<Submission>): (g: map<Id, seq<Submission>>)
    ensures forall c :: c in g <==> exists x :: x in subs && x.contestId == Some(c)
    ensures forall c :: c in g ==> g[c] != [] && forall x :: x in g[c] <==> x in subs && x.contestId == Some(c)
  {
    var g := map c | c in ContestIdsOf(subs) :: LeaderboardService.ContestSubmissions(subs, c);
    assert forall c :: c in g ==> exists x :: x in subs && x.contestId == Some(c) && x in g[c];
    g
  }

  /** One iteration of the per-contest loop on `bestScores`: a submission
      without a problem id is skipped; otherwise its score is folded in with
      `Math.max`, starting from a default of 0. */
  function AddScore(best: map<Id, int>, s: Submission): map<Id, int> {
    if s.problemId.None? then best
    else
      var p := s.problemId.value;
      var prev := if p in best then best[p] else 0;
      best[p := if prev >= s.score then prev else s.score]
  }

  /** The best score per problem over one contest's submissions. */
  function BestScores(subs: seq<Submission>): map<Id, int> {
    if subs == [] then map[] else AddScore(BestScores(subs[..|subs| - 1]), subs[|subs| - 1])
  }

  /** Some submission of `subs` is for problem `p`. */
  ghost predicate SubmittedFor(subs: seq<Submission>, p: Id) {
    exists i :: 0 <= i < |subs| && subs[i].problemId == Some(p)
  }

  /** No submission of `subs` for `p` scores above `v`. */
  ghost predicate ScoredAtMost(subs: seq<Submission>, p: Id, v: int) {
    forall i :: 0 <= i < |subs| && subs[i].problemId == Some(p) ==> subs[i].score <= v
  }

  /** Some submission of `subs` for `p` scores exactly `v`. */
  ghost predicate Scored(subs: seq<Submission>, p: Id, v: int) {
    exists i :: 0 <= i < |subs| && subs[i].problemId == Some(p) && subs[i].score == v
  }

  /** `best` holds, for exactly the problems submitted for, the highest
      score submitted, or 0 when every score was negative. */
  ghost predicate IsBestScores(best: map<Id, int>, subs: seq<Submission>) {
    forall p ::
      && (p in best <==> SubmittedFor(subs, p))
      && (p in best ==>
            && best[p] >= 0
            && ScoredAtMost(subs, p, best[p])
            && (best[p] == 0 || Scored(subs, p, best[p])))
  }

  /** How the three predicates extend when one submission is appended. */
  lemma AppendScoreFacts(init: seq<Submission>, s: Submission)
    ensures forall p :: SubmittedFor(init + [s], p) <==> SubmittedFor(init, p) || s.problemId == Some(p)
    ensures forall p, v :: ScoredAtMost(init + [s], p, v) <==> ScoredAtMost(init, p, v) && (s.problemId == Some(p) ==> s.score <= v)
    ensures forall p, v :: Scored(init + [s], p, v) <==> Scored(init, p, v) || (s.problemId == Some(p) && s.score == v)
  {
    var subs := init + [s];
    assert forall i :: 0 <= i < |init| ==> subs[i] == init[i];
    assert subs[|init|] == s;
    forall p ensures SubmittedFor(subs, p) <==> SubmittedFor(init, p) || s.problemId == Some(p) {
      if SubmittedFor(subs, p) {
        var i :| 0 <= i < |subs| && subs[i].problemId == Some(p);
        if i < |init| {
          assert init[i].problemId == Some(p);
        }
      }
    }
    forall p, v ensures Scored(subs, p, v) <==> Scored(init, p, v) || (s.problemId == Some(p) && s.score == v) {
      if Scored(subs, p, v) {
        var i :| 0 <= i < |subs| && subs[i].problemId == Some(p) && subs[i].score == v;
        if i < |init| {
          assert init[i].problemId == Some(p) && init[i].score == v;
        }
      }
    }
  }

  /** The fold computes the best score per problem. */
  lemma {:induction false} BestScoresCorrect(subs: seq<Submission>)
    ensures IsBestScores(BestScores(subs), subs)
  {
    if subs != [] {
      var init, s := subs[..|subs| - 1], subs[|subs| - 1];
      assert subs == init + [s];
      BestScoresCorrect(init);
      AppendScoreFacts(init, s);
    }
  }

  /** Some submission of `subs` has a problem id. */
  ghost predicate HasProblem(subs: seq<Submission>) {
    exists i :: 0 <= i < |subs| && subs[i].problemId.Some?
  }

  /** The `lastSub` accumulator: the latest time among the submissions
      with a problem id (the others are skipped before it is updated). */
  function LastSubmission(subs: seq<Submission>): Option<Time> {
    if subs == [] then None
    else
      var last := LastSubmission(subs[..|subs| - 1]);
      var s := subs[|subs| - 1];
      if s.problemId.None? then last else Later(last, s.submittedAt)
  }

  /** The last submission time is missing exactly when no submission has a
      problem id; otherwise it is the time of one of them, and no later than
      none of them. */
  lemma {:induction false} LastSubmissionCorrect(subs: seq<Submission>)
    ensures LastSubmission(subs).None? <==> !HasProblem(subs)
    ensures LastSubmission(subs).Some? ==>
              && (exists i :: 0 <= i < |subs| && subs[i].problemId.Some? && subs[i].submittedAt == LastSubmission(subs).value)
              && (forall i :: 0 <= i < |subs| && subs[i].problemId.Some? ==> subs[i].submittedAt <= LastSubmission(subs).value)
  {
    if subs != [] {
      var init, s := subs[..|subs| - 1], subs[|subs| - 1];
      LastSubmissionCorrect(init);
      assert forall i :: 0 <= i < |init| ==> subs[i] == init[i];
      if HasProblem(subs) && s.problemId.None? {
        var i :| 0 <= i < |subs| && subs[i].problemId.Some?;
        assert init[i].problemId.Some?;
      }
      var r := LastSubmission(subs);
      if r.Some? && r != LastSubmission(init) {
        assert subs[|subs| - 1].submittedAt == r.value;
      }
    }
  }

  /** `totalProblems`: the contest's problem count, 0 for a null list. */
  function TotalProblems(c: Contest): (n: nat)
    ensures c.problemIds.Some? ==> n == |c.problemIds.value|
    ensures c.problemIds.None? ==> n == 0
  {
    if c.problemIds.Some? then |c.problemIds.value| else 0
  }

  /** The entry of one contest: the sum and the positive count of its best
      scores, its problem count and its last submission time. */
  ghost function ActivityOf(contestId: Id, c: Contest, subs: seq<Submission>): ContestActivity {
    var best := BestScores(subs);
    ContestActivity(contestId, c.title, CountPositive(best), TotalProblems(c), Sum(best), LastSubmission(subs), None)
  }

  /** The entries of every group whose contest still exists. */
  ghost function ContestActivities(contests: map<Id, Contest>, groups: map<Id, seq<Submission>>): map<Id, ContestActivity> {
    map c | c in groups && c in contests :: ActivityOf(c, contests[c], groups[c])
  }

  /** The sort: latest last submission first, an entry without one last. */
  predicate LaterFirst(a: ContestActivity, b: ContestActivity) {
    || b.lastSubmissionTime.None?
    || (a.lastSubmissionTime.Some? && a.lastSubmissionTime.value >= b.lastSubmissionTime.value)
  }

  lemma LaterFirstIsTotalPreorder()
    ensures TotalPreorder(LaterFirst)
  {
  }

  /** `list` holds every entry once, in sort order. */
  ghost predicate IsContestActivityList(list: seq<ContestActivity>, entries: map<Id, ContestActivity>) {
    && |list| == |entries|
    && (forall a :: a in list ==> a.contestId in entries && entries[a.contestId] == a)
    && (forall c :: c in entries ==> entries[c] in list)
    && SortedBy(list, LaterFirst)
  }

  /** The inner loop over one contest's submissions. */
  method ScanContest(subs: seq<Submission>) returns (bestScores: map<Id, int>, lastSub: Option<Time>)
    ensures bestScores == BestScores(subs)
    ensures lastSub == LastSubmission(subs)
  {
    bestScores, lastSub := map[], None;
    for i := 0 to |subs|
      invariant bestScores == BestScores(subs[..i])
      invariant lastSub == LastSubmission(subs[..i])
    {
      var s := subs[i];
      assert subs[..i + 1][..i] == subs[..i];
      if s.problemId.None? {
        continue;
      }
      var p := s.problemId.value;
      var prev := if p in bestScores then bestScores[p] else 0;
      bestScores := bestScores[p := if prev >= s.score then prev else s.score];
      if lastSub.None? || s.submittedAt > lastSub.value {
        lastSub := Some(s.submittedAt);
      }
    }
    assert subs[..|subs|] == subs;
  }

  /** The loop over the groups, in the map's iteration order, skipping a
      contest that no longer exists. */
  method BuildContestActivities(groups: map<Id, seq<Submission>>, contests: map<Id, Contest>)
    returns (rows: seq<ContestActivity>)
    ensures |rows| == |ContestActivities(contests, groups)|
    ensures forall a :: a in rows ==>
              a.contestId in ContestActivities(contests, groups) && ContestActivities(contests, groups)[a.contestId] == a
    ensures forall c :: c in ContestActivities(contests, groups) ==> ContestActivities(contests, groups)[c] in rows
  {
    ghost var done: set<Id> := {};
    rows := [];
    var rest := groups;
    while rest != map[]
      invariant ContestProgress(rows, done, rest, groups, contests)
      decreases |rest|
    {
      var contestId :| contestId in rest;
      var subs := rest[contestId];
      if contestId !in contests {
        SkipContest(rows, done, rest, contestId, groups, contests);
        rest := rest - {contestId};
        continue;
      }
      var activity := SummarizeContest(contestId, contests[contestId], subs);
      AddContest(rows, done, rest, contestId, activity, groups, contests);
      rows := rows + [activity];
      done := done + {contestId};
      rest := rest - {contestId};
    }
    ContestsDone(rows, done, groups, contests);
  }

  /** Once every group is visited, the rows are exactly the activities. */
  lemma ContestsDone(rows: seq<ContestActivity>, done: set<Id>, groups: map<Id, seq<Submission>>, contests: map<Id, Contest>)
    requires ContestProgress(rows, done, map[], groups, contests)
    ensures |rows| == |ContestActivities(contests, groups)|
    ensures forall a :: a in rows ==>
              a.contestId in ContestActivities(contests, groups) && ContestActivities(contests, groups)[a.contestId] == a
    ensures forall c :: c in ContestActivities(contests, groups) ==> ContestActivities(contests, groups)[c] in rows
  {
    assert done == ContestActivities(contests, groups).Keys;
  }

  /** The loop over the groups has visited every contest outside `rest`:
      `done` holds those that exist, and `rows` their entries. */
  ghost predicate ContestProgress(rows: seq<ContestActivity>, done: set<Id>, rest: map<Id, seq<Submission>>,
                                  groups: map<Id, seq<Submission>>, contests: map<Id, Contest>) {
    var entries := ContestActivities(contests, groups);
    && (forall c :: c in rest ==> c in groups && rest[c] == groups[c])
    && done <= entries.Keys && |rows| == |done|
    && (forall c :: c in done ==> c !in rest)
    && (forall c :: c in entries && c !in rest ==> c in done)
    && (forall a :: a in rows ==> a.contestId in done && entries[a.contestId] == a)
    && (forall c :: c in done ==> entries[c] in rows)
  }

  /** A contest that no longer exists is skipped. */
  lemma SkipContest(rows: seq<ContestActivity>, done: set<Id>, rest: map<Id, seq<Submission>>, c: Id,
                    groups: map<Id, seq<Submission>>, contests: map<Id, Contest>)
    requires ContestProgress(rows, done, rest, groups, contests)
    requires c in rest && c !in contests
    ensures ContestProgress(rows, done, rest - {c}, groups, contests)
  {
  }

  /** An existing contest adds its entry. */
  lemma AddContest(rows: seq<ContestActivity>, done: set<Id>, rest: map<Id, seq<Submission>>, c: Id, a: ContestActivity,
                   groups: map<Id, seq<Submission>>, contests: map<Id, Contest>)
    requires ContestProgress(rows, done, rest, groups, contests)
    requires c in rest && c in contests && a == ActivityOf(c, contests[c], rest[c])
    ensures ContestProgress(rows + [a], done + {c}, rest - {c}, groups, contests)
  {
  }

  /** The body of the loop over the groups, for a contest that exists. */
  method SummarizeContest(contestId: Id, contest: Contest, subs: seq<Submission>) returns (activity: ContestActivity)
    ensures activity == ActivityOf(contestId, contest, subs)
  {
    var bestScores, lastSub := ScanContest(subs);
    var totalScore := SumValues(bestScores);
    var solved := CountPositiveValues(bestScores);
    var totalProblems := if contest.problemIds.Some? then |contest.problemIds.value| else 0;
    activity := ContestActivity(contestId, contest.title, solved, totalProblems, totalScore, lastSub, None);
  }

  /** The contest entries of `userId`, as `getContestActivities` builds them. */
  ghost function UserContestActivities(store: Store, userId: Id): map<Id, ContestActivity>
    reads store
  {
    ContestActivities(store.contests, GroupByContest(UserSubmissions(store.submissions, userId)))
  }

  /** `getContestActivities`. */
  method GetContestActivities(store: Store, userId: Id) returns (list: seq<ContestActivity>)
    ensures IsContestActivityList(list, UserContestActivities(store, userId))
  {
    var groups := GroupByContest(UserSubmissions(store.submissions, userId));
    var rows := BuildContestActivities(groups, store.contests);
    LaterFirstIsTotalPreorder();
    SortBySorted(rows, LaterFirst);
    SortByMembers(rows, LaterFirst);
    list := SortBy(rows, LaterFirst);
  }

  /** An entry counts at most one solved problem per problem submitted for;
      its total is never negative, since every best score starts from 0, and
      with judging scores of at most 100 it is at most 100 per problem. Its
      last submission time is present, because every group holds a
      submission, exactly when one of them names a problem. */
  lemma ContestActivityBounds(contestId: Id, c: Contest, subs: seq<Submission>)
    requires forall i :: 0 <= i < |subs| ==> subs[i].score <= 100
    ensures var a := ActivityOf(contestId, c, subs);
            && 0 <= a.problemsSolved <= |BestScores(subs)|
            && 0 <= a.totalScore <= 100 * |BestScores(subs)|
            && (a.lastSubmissionTime.Some? <==> HasProblem(subs))
  {
    var best := BestScores(subs);
    BestScoresCorrect(subs);
    forall p | p in best ensures 0 <= best[p] <= 100 {
      if best[p] != 0 {
        var i :| 0 <= i < |subs| && subs[i].problemId == Some(p) && subs[i].score == best[p];
      }
    }
    SumBounds(best, 0, 100);
    LastSubmissionCorrect(subs);
  }

  // ---------------------------------------------------------------
  // MCQ activities
  // ---------------------------------------------------------------

  /** The `status` of an MCQ entry: "REGISTERED", or the session's status. */
  datatype ActivityStatus = NotAttempted | Attempted(session: SessionStatus)

  /** One MCQ event in the user's activity. */
  datatype McqActivity = McqActivity(
    eventId: Id,
    title: Option<string>,
    registeredAt: Time,
    submittedAt: Option<Time>,
    status: ActivityStatus,
    score: Option<real>,
    totalMarks: Option<int>,
    rank: Option<nat>)

  /** `rank` is what the scan over the ranked list finds: one more than the
      position of the student's first entry, or nothing when the student has
      none. */
  ghost predicate IsPlaceOf(rank: Option<nat>, ranked: seq<McqSubmission>, studentId: Id) {
    if exists i :: 0 <= i < |ranked| && ranked[i].studentId == studentId then
      && rank.Some?
      && 1 <= rank.value <= |ranked|
      && ranked[rank.value - 1].studentId == studentId
      && (forall j :: 0 <= j < rank.value - 1 ==> ranked[j].studentId != studentId)
    else
      rank.None?
  }

  /** The rank scan, which stops at the first match. */
  method PlaceIn(ranked: seq<McqSubmission>, studentId: Id) returns (rank: Option<nat>)
    ensures IsPlaceOf(rank, ranked, studentId)
  {
    for i := 0 to |ranked|
      invariant forall j :: 0 <= j < i ==> ranked[j].studentId != studentId
    {
      if ranked[i].studentId == studentId {
        return Some(i + 1);
      }
    }
    return None;
  }

  /** The fields of an entry other than its rank: the registration time
      (or `now` when it is missing) and, with a session, its submission
      time, score and status. */
  function McqActivityOf(reg: Registration, event: Event, session: Option<McqSubmission>, now: Time, rank: Option<nat>): McqActivity {
    var base := McqActivity(event.id, event.title, reg.registeredAt.GetOr(now), None, NotAttempted, None, event.totalMarks, rank);
    if session.None? then base
    else base.(submittedAt := session.value.submittedAt, score := session.value.totalScore,
               status := Attempted(session.value.status))
  }

  /** The student's session for the event, if any. */
  function SessionOf(sessions: map<(Id, Id), McqSubmission>, studentId: Id, eventId: Id): Option<McqSubmission> {
    if (studentId, eventId) in sessions then Some(sessions[(studentId, eventId)]) else None
  }

  /** The events of the student's registrations that still exist; a
      cancelled registration counts too. */
  function StudentEvents(registrations: map<(Id, Id), Registration>, events: map<Id, Event>, studentId: Id): (r: set<Id>)
    ensures forall e :: e in r <==> (e, studentId) in registrations && e in events
  {
    RegistrationsOf(registrations, studentId).Keys * events.Keys
  }

  /** `a` is the entry for event `e`: built from the registration, the event
      and the session, ranked within the event's ranked sessions when there
      is a session and unranked otherwise. */
  ghost predicate IsMcqActivityFor(a: McqActivity, e: Id, studentId: Id, registrations: map<(Id, Id), Registration>,
                                   events: map<Id, Event>, sessions: map<(Id, Id), McqSubmission>, now: Time) {
    && (e, studentId) in registrations && e in events
    && a.eventId == e
    && a == McqActivityOf(registrations[(e, studentId)], events[e], SessionOf(sessions, studentId, e), now, a.rank)
    && ((studentId, e) in sessions ==>
          exists ranked :: IsRankedList(sessions, e, ranked) && IsPlaceOf(a.rank, ranked, studentId))
    && ((studentId, e) !in sessions ==> a.rank.None?)
  }

  function EventIdsOf(list: seq<McqActivity>): set<Id> {
    set a | a in list :: a.eventId
  }

  /** The sort: latest registration first. */
  predicate RegisteredLater(a: McqActivity, b: McqActivity) {
    a.registeredAt >= b.registeredAt
  }

  lemma RegisteredLaterIsTotalPreorder()
    ensures TotalPreorder(RegisteredLater)
  {
  }

  /** `list` holds one entry per registered, existing event, in sort order. */
  ghost predicate IsMcqActivityList(list: seq<McqActivity>, studentId: Id, registrations: map<(Id, Id), Registration>,
                                    events: map<Id, Event>, sessions: map<(Id, Id), McqSubmission>, now: Time) {
    && |list| == |StudentEvents(registrations, events, studentId)|
    && EventIdsOf(list) == StudentEvents(registrations, events, studentId)
    && (forall a :: a in list ==> IsMcqActivityFor(a, a.eventId, studentId, registrations, events, sessions, now))
    && SortedBy(list, RegisteredLater)
  }

  /** The student's registrations, by event id. */
  function RegistrationsOf(registrations: map<(Id, Id), Registration>, studentId: Id): (m: map<Id, Registration>)
    ensures forall e :: e in m <==> (e, studentId) in registrations
  {
    map e | e in (set k | k in registrations && k.1 == studentId :: k.0) :: registrations[(e, studentId)]
  }

  /** The loop over the student's registrations, in the store's order. */
  method BuildMcqActivities(store: Store, studentId: Id, now: Time) returns (rows: seq<McqActivity>)
    requires store.Valid()
    ensures |rows| == |StudentEvents(store.registrations, store.events, studentId)|
    ensures EventIdsOf(rows) == StudentEvents(store.registrations, store.events, studentId)
    ensures forall a :: a in rows ==>
              IsMcqActivityFor(a, a.eventId, studentId, store.registrations, store.events, store.sessions, now)
  {
    ghost var regs, events, sessions := store.registrations, store.events, store.sessions;
    var mine := RegistrationsOf(store.registrations, studentId);
    ghost var done: set<Id> := {};
    rows := [];
    var rest := mine;
    while rest != map[]
      invariant store.registrations == regs && store.events == events && store.sessions == sessions
      invariant McqProgress(rows, done, rest, studentId, regs, events, sessions, now)
      decreases |rest|
    {
      var eventId :| eventId in rest;
      var reg := rest[eventId];
      if eventId !in store.events {
        SkipStep(rows, done, rest, eventId, studentId, regs, events, sessions, now);
        rest := rest - {eventId};
        continue;
      }
      var activity := McqActivityAt(store, studentId, eventId, reg, now);
      AddStep(rows, done, rest, eventId, activity, studentId, regs, events, sessions, now);
      rows := rows + [activity];
      done := done + {eventId};
      rest := rest - {eventId};
    }
    McqDone(rows, done, studentId, regs, events, sessions, now);
  }

  /** Once every registration is visited, the rows are exactly the
      activities of the student's events. */
  lemma McqDone(rows: seq<McqActivity>, done: set<Id>, studentId: Id, regs: map<(Id, Id), Registration>,
                events: map<Id, Event>, sessions: map<(Id, Id), McqSubmission>, now: Time)
    requires McqProgress(rows, done, map[], studentId, regs, events, sessions, now)
    ensures |rows| == |StudentEvents(regs, events, studentId)|
    ensures EventIdsOf(rows) == StudentEvents(regs, events, studentId)
    ensures forall a :: a in rows ==> IsMcqActivityFor(a, a.eventId, studentId, regs, events, sessions, now)
  {
    assert done == StudentEvents(regs, events, studentId);
  }

  /** The loop over the student's registrations has visited every event
      outside `rest`: `done` holds those that exist, and `rows` one entry for
      each of them. */
  ghost predicate McqProgress(rows: seq<McqActivity>, done: set<Id>, rest: map<Id, Registration>, studentId: Id,
                              registrations: map<(Id, Id), Registration>, events: map<Id, Event>,
                              sessions: map<(Id, Id), McqSubmission>, now: Time) {
    var mine := RegistrationsOf(registrations, studentId);
    var wanted := StudentEvents(registrations, events, studentId);
    && (forall e :: e in rest ==> e in mine && rest[e] == mine[e])
    && done <= wanted && |rows| == |done|
    && (forall e :: e in done ==> e !in rest)
    && (forall e :: e in wanted && e !in rest ==> e in done)
    && EventIdsOf(rows) == done
    && AllMcqActivitiesFor(rows, studentId, registrations, events, sessions, now)
  }

  /** An event that no longer exists is skipped. */
  lemma SkipStep(rows: seq<McqActivity>, done: set<Id>, rest: map<Id, Registration>, e: Id, studentId: Id,
                 registrations: map<(Id, Id), Registration>, events: map<Id, Event>,
                 sessions: map<(Id, Id), McqSubmission>, now: Time)
    requires McqProgress(rows, done, rest, studentId, registrations, events, sessions, now)
    requires e in rest && e !in events
    ensures McqProgress(rows, done, rest - {e}, studentId, registrations, events, sessions, now)
  {
  }

  /** An existing event adds its entry. */
  lemma AddStep(rows: seq<McqActivity>, done: set<Id>, rest: map<Id, Registration>, e: Id, a: McqActivity, studentId: Id,
                registrations: map<(Id, Id), Registration>, events: map<Id, Event>,
                sessions: map<(Id, Id), McqSubmission>, now: Time)
    requires McqProgress(rows, done, rest, studentId, registrations, events, sessions, now)
    requires e in rest && e in events
    requires IsMcqActivityFor(a, e, studentId, registrations, events, sessions, now)
    ensures McqProgress(rows + [a], done + {e}, rest - {e}, studentId, registrations, events, sessions, now)
  {
    AppendMcqActivity(rows, a, studentId, registrations, events, sessions, now);
  }

  /** Every entry of `rows` is the entry for its event. */
  ghost predicate AllMcqActivitiesFor(rows: seq<McqActivity>, studentId: Id, registrations: map<(Id, Id), Registration>,
                                      events: map<Id, Event>, sessions: map<(Id, Id), McqSubmission>, now: Time) {
    forall a :: a in rows ==> IsMcqActivityFor(a, a.eventId, studentId, registrations, events, sessions, now)
  }

  lemma AppendMcqActivity(rows: seq<McqActivity>, a: McqActivity, studentId: Id, registrations: map<(Id, Id), Registration>,
                          events: map<Id, Event>, sessions: map<(Id, Id), McqSubmission>, now: Time)
    requires AllMcqActivitiesFor(rows, studentId, registrations, events, sessions, now)
    requires IsMcqActivityFor(a, a.eventId, studentId, registrations, events, sessions, now)
    ensures AllMcqActivitiesFor(rows + [a], studentId, registrations, events, sessions, now)
    ensures EventIdsOf(rows + [a]) == EventIdsOf(rows) + {a.eventId}
  {
  }

  /** The body of the loop over the registrations, for an event that
      exists: the entry, with the rank scan when there is a session. */
  method McqActivityAt(store: Store, studentId: Id, eventId: Id, reg: Registration, now: Time) returns (activity: McqActivity)
    requires store.Valid()
    requires eventId in store.events
    requires (eventId, studentId) in store.registrations && store.registrations[(eventId, studentId)] == reg
    ensures IsMcqActivityFor(activity, eventId, studentId, store.registrations, store.events, store.sessions, now)
  {
    var event := store.events[eventId];
    var session := SessionOf(store.sessions, studentId, eventId);
    var rank: Option<nat> := None;
    if session.Some? {
      var ranked := FindByEventOrdered(store, eventId);
      rank := PlaceIn(ranked, studentId);
    }
    activity := McqActivityOf(reg, event, session, now, rank);
  }

  /** `getMcqActivities`. */
  method GetMcqActivities(store: Store, studentId: Id, now: Time) returns (list: seq<McqActivity>)
    requires store.Valid()
    ensures IsMcqActivityList(list, studentId, store.registrations, store.events, store.sessions, now)
  {
    var rows := BuildMcqActivities(store, studentId, now);
    RegisteredLaterIsTotalPreorder();
    SortBySorted(rows, RegisteredLater);
    SortByMembers(rows, RegisteredLater);
    list := SortBy(rows, RegisteredLater);
    assert EventIdsOf(list) == EventIdsOf(rows);
  }

  /** An attempted event always has a rank, within the event's session
      count, and an event without a session never has one. */
  lemma AttemptedIsRanked(a: McqActivity, e: Id, studentId: Id, registrations: map<(Id, Id), Registration>,
                          events: map<Id, Event>, sessions: map<(Id, Id), McqSubmission>, now: Time)
    requires SessionsKeyed(sessions)
    requires IsMcqActivityFor(a, e, studentId, registrations, events, sessions, now)
    ensures a.status.Attempted? <==> a.rank.Some?
    ensures a.rank.Some? ==> 1 <= a.rank.value <= |EventSessions(sessions, e)|
  {
    if (studentId, e) in sessions {
      var ranked: seq<McqSubmission> :| IsRankedList(sessions, e, ranked) && IsPlaceOf(a.rank, ranked, studentId);
      assert sessions[(studentId, e)] in ranked;
      var i :| 0 <= i < |ranked| && ranked[i] == sessions[(studentId, e)];
      assert ranked[i].studentId == studentId by {
        assert ranked[i] in ranked;
        assert sessions[(ranked[i].studentId, e)] == ranked[i];
      }
    }
  }

  // ---------------------------------------------------------------
  // The whole activity
  // ---------------------------------------------------------------

  datatype UserActivity = UserActivity(mcqActivities: seq<McqActivity>, contestActivities: seq<ContestActivity>)

  /** `getUserActivity`: the student id of the MCQ side and the user id of
      the contest side are the same string. */
  method GetUserActivity(store: Store, userId: Id, now: Time) returns (r: UserActivity)
    requires store.Valid()
    ensures IsMcqActivityList(r.mcqActivities, userId, store.registrations, store.events, store.sessions, now)
    ensures IsContestActivityList(r.contestActivities, UserContestActivities(store, userId))
  {
    var mcq := GetMcqActivities(store, userId, now);
    var contest := GetContestActivities(store, userId);
    r := UserActivity(mcq, contest);
  }
}
