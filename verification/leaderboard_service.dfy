/** `LeaderboardService.getLeaderboard`: the best submission per user and
    problem, each user's total, solved count and last time over those best
    submissions, and the tie-broken sort. The service only reads the store. */
module LeaderboardService {
  import opened Wrappers
  import opened Model
  import opened Repository
  import opened Sorting
  import opened MapAggregates

  datatype LeaderboardError = ContestNotFound  // 404 "Contest Not Found."

  /** userId to problemId to the submission kept for that pair. */
  type Best = map<Id, map<Option<Id>, Submission>>

  /** `findAllByContestId`: the contest's submissions in store order. */
  function ContestSubmissions(subs: seq<Submission>, contestId: Id): (r: seq<Submission>)
    ensures forall x :: x in r <==> x in subs && x.contestId == Some(contestId)
  {
    if subs == [] then []
    else
      var init := subs[..|subs| - 1];
      var last := subs[|subs| - 1];
      assert forall x :: x in subs <==> x in init || x == last;
      ContestSubmissions(init, contestId) + (if last.contestId == Some(contestId) then [last] else [])
  }

  /** One iteration of the first loop: keep `sub` unless the pair already has
      a submission with at least its score. */
  function KeepBest(best: Best, sub: Submission): Best {
    var problems := if sub.userId in best then best[sub.userId] else map[];
    if sub.problemId !in problems || sub.score > problems[sub.problemId].score
    then best[sub.userId := problems[sub.problemId := sub]]
    else best[sub.userId := problems]
  }

  /** The first loop over all of the contest's submissions. */
  function BestOf(subs: seq<Submission>): Best {
    if subs == [] then map[] else KeepBest(BestOf(subs[..|subs| - 1]), subs[|subs| - 1])
  }

  /** Some submission of `subs` is by `u`. */
  ghost predicate HasUser(subs: seq<Submission>, u: Id) {
    exists i :: 0 <= i < |subs| && subs[i].userId == u
  }

  /** Some submission of `subs` is by `u` for `p`. */
  ghost predicate Submitted(subs: seq<Submission>, u: Id, p: Option<Id>) {
    exists i :: 0 <= i < |subs| && subs[i].userId == u && subs[i].problemId == p
  }

  /** `kept` is the first submission of `subs` for (u, p) with the highest score. */
  ghost predicate IsFirstBest(kept: Submission, subs: seq<Submission>, u: Id, p: Option<Id>) {
    exists k :: 0 <= k < |subs| && subs[k] == kept && kept.userId == u && kept.problemId == p
      && (forall j :: 0 <= j < |subs| && subs[j].userId == u && subs[j].problemId == p ==> subs[j].score <= kept.score)
      && (forall j :: 0 <= j < k && subs[j].userId == u && subs[j].problemId == p ==> subs[j].score < kept.score)
  }

  /** What the first loop has built from `subs`: an entry for exactly the
      users and the (user, problem) pairs that occur, each holding the first
      submission with the pair's highest score. */
  ghost predicate IsBestOf(best: Best, subs: seq<Submission>) {
    && (forall u :: u in best <==> HasUser(subs, u))
    && (forall u, p :: u in best ==> (p in best[u] <==> Submitted(subs, u, p)))
    && (forall u, p :: u in best && p in best[u] ==> IsFirstBest(best[u][p], subs, u, p))
  }

  lemma AppendFacts(init: seq<Submission>, sub: Submission)
    ensures forall u :: HasUser(init + [sub], u) <==> HasUser(init, u) || sub.userId == u
    ensures forall u, p :: Submitted(init + [sub], u, p) <==> Submitted(init, u, p) || (sub.userId == u && sub.problemId == p)
  {
    var subs := init + [sub];
    forall u ensures HasUser(subs, u) <==> HasUser(init, u) || sub.userId == u {
      if HasUser(init, u) {
        var i :| 0 <= i < |init| && init[i].userId == u;
        assert subs[i] == init[i];
      }
      if HasUser(subs, u) && sub.userId != u {
        var i :| 0 <= i < |subs| && subs[i].userId == u;
        assert init[i] == subs[i];
      }
      if sub.userId == u {
        assert subs[|init|] == sub;
      }
    }
    forall u, p ensures Submitted(subs, u, p) <==> Submitted(init, u, p) || (sub.userId == u && sub.problemId == p) {
      if Submitted(init, u, p) {
        var i :| 0 <= i < |init| && init[i].userId == u && init[i].problemId == p;
        assert subs[i] == init[i];
      }
      if Submitted(subs, u, p) && !(sub.userId == u && sub.problemId == p) {
        var i :| 0 <= i < |subs| && subs[i].userId == u && subs[i].problemId == p;
        assert init[i] == subs[i];
      }
      if sub.userId == u && sub.problemId == p {
        assert subs[|init|] == sub;
      }
    }
  }

  /** `sub` beats every earlier submission for its pair, so it is the first best. */
  lemma NewFirstBest(init: seq<Submission>, sub: Submission)
    requires forall j :: 0 <= j < |init| && init[j].userId == sub.userId && init[j].problemId == sub.problemId ==>
               init[j].score < sub.score
    ensures IsFirstBest(sub, init + [sub], sub.userId, sub.problemId)
  {
    var subs := init + [sub];
    assert subs[|init|] == sub;
    forall j | 0 <= j < |init| ensures subs[j] == init[j] {
    }
  }

  /** A first best stays first best after a submission that does not beat it. */
  lemma KeptFirstBest(init: seq<Submission>, sub: Submission, kept: Submission, u: Id, p: Option<Id>)
    requires IsFirstBest(kept, init, u, p)
    requires sub.userId == u && sub.problemId == p ==> sub.score <= kept.score
    ensures IsFirstBest(kept, init + [sub], u, p)
  {
    var subs := init + [sub];
    var k :| 0 <= k < |init| && init[k] == kept && kept.userId == u && kept.problemId == p
      && (forall j :: 0 <= j < |init| && init[j].userId == u && init[j].problemId == p ==> init[j].score <= kept.score)
      && (forall j :: 0 <= j < k && init[j].userId == u && init[j].problemId == p ==> init[j].score < kept.score);
    assert subs[k] == kept;
    forall j | 0 <= j < |init| ensures subs[j] == init[j] {
    }
    assert subs[|init|] == sub;
  }

  /** One step of the first loop: each pair either now holds `sub`, which
      beats what the pair held before, or holds what it held before, which
      `sub` does not beat. */
  lemma KeepBestCases(prev: Best, sub: Submission)
    ensures var best := KeepBest(prev, sub);
            && best.Keys == prev.Keys + {sub.userId}
            && (forall u :: u in best ==>
                  best[u].Keys == (if u in prev then prev[u].Keys else {}) + (if u == sub.userId then {sub.problemId} else {}))
            && (forall u, p :: u in best && p in best[u] ==>
                  if u == sub.userId && p == sub.problemId
                     && (u !in prev || p !in prev[u] || sub.score > prev[u][p].score)
                  then best[u][p] == sub
                  else u in prev && p in prev[u] && best[u][p] == prev[u][p]
                       && (u == sub.userId && p == sub.problemId ==> sub.score <= prev[u][p].score))
  {
  }

  /** A submission that beats the kept best of its pair, or whose pair is
      new, beats every earlier submission for that pair. */
  lemma BeatsAll(prev: Best, init: seq<Submission>, sub: Submission)
    requires IsBestOf(prev, init)
    requires var u, p := sub.userId, sub.problemId;
             u !in prev || p !in prev[u] || sub.score > prev[u][p].score
    ensures forall j :: 0 <= j < |init| && init[j].userId == sub.userId && init[j].problemId == sub.problemId ==>
              init[j].score < sub.score
  {
    var u, p := sub.userId, sub.problemId;
    forall j | 0 <= j < |init| && init[j].userId == u && init[j].problemId == p
      ensures init[j].score < sub.score
    {
      assert Submitted(init, u, p);
      var kept := prev[u][p];
      var k :| 0 <= k < |init| && init[k] == kept
        && (forall j :: 0 <= j < |init| && init[j].userId == u && init[j].problemId == p ==> init[j].score <= kept.score);
    }
  }

  /** One iteration of the first loop keeps `IsBestOf`. */
  lemma KeepBestStep(prev: Best, init: seq<Submission>, sub: Submission)
    requires IsBestOf(prev, init)
    ensures IsBestOf(KeepBest(prev, sub), init + [sub])
  {
    var best := KeepBest(prev, sub);
    var subs := init + [sub];
    KeepBestCases(prev, sub);
    AppendFacts(init, sub);
    forall u, p | u in best && p in best[u] ensures IsFirstBest(best[u][p], subs, u, p) {
      if u == sub.userId && p == sub.problemId && (u !in prev || p !in prev[u] || sub.score > prev[u][p].score) {
        BeatsAll(prev, init, sub);
        NewFirstBest(init, sub);
      } else {
        KeptFirstBest(init, sub, prev[u][p], u, p);
      }
    }
  }

  /** The first loop's result is characterised by `IsBestOf`. */
  lemma {:induction false} BestOfCorrect(subs: seq<Submission>)
    ensures IsBestOf(BestOf(subs), subs)
  {
    if subs != [] {
      var n := |subs| - 1;
      BestOfCorrect(subs[..n]);
      KeepBestStep(BestOf(subs[..n]), subs[..n], subs[n]);
      assert subs[..n] + [subs[n]] == subs;
    }
  }

  /** The kept scores of one user, by problem. */
  function ScoresOf(problems: map<Option<Id>, Submission>): map<Option<Id>, int> {
    map p | p in problems :: problems[p].score
  }

  /** The kept submission times of one user, by problem. */
  function TimesOf(problems: map<Option<Id>, Submission>): map<Option<Id>, int> {
    map p | p in problems :: problems[p].submittedAt
  }

  /** The row of one user: the sum of the kept scores, the number of kept
      scores above zero, and the latest time among the kept submissions. A
      user missing from the store is shown as "Unknown" / "N/A". */
  ghost function EntryFor(userId: Id, problems: map<Option<Id>, Submission>, users: map<Id, User>): LeaderboardEntry {
    LeaderboardEntry(
      userId,
      if userId in users then users[userId].username else "Unknown",
      if userId in users then users[userId].rollNumber else "N/A",
      Sum(ScoresOf(problems)),
      CountPositive(ScoresOf(problems)),
      MaxValue(TimesOf(problems)))
  }

  /** The rows of every user with a submission in the contest. */
  ghost function Entries(subs: seq<Submission>, contestId: Id, users: map<Id, User>): map<Id, LeaderboardEntry> {
    Rows(BestOf(ContestSubmissions(subs, contestId)), users)
  }

  /** The row of each user of `best`. */
  ghost function Rows(best: Best, users: map<Id, User>): map<Id, LeaderboardEntry> {
    map u | u in best :: EntryFor(u, best[u], users)
  }

  /** The comparator: higher total first, then earlier last time, with a
      missing time after a present one. */
  predicate EntryBefore(a: LeaderboardEntry, b: LeaderboardEntry) {
    || a.totalScore > b.totalScore
    || (a.totalScore == b.totalScore
        && (b.lastSubmissionTime.None?
            || (a.lastSubmissionTime.Some? && a.lastSubmissionTime.value <= b.lastSubmissionTime.value)))
  }

  lemma EntryBeforeIsTotalPreorder()
    ensures TotalPreorder(EntryBefore)
  {
  }

  /** `lb` lists every row once and in comparator order. */
  ghost predicate IsLeaderboard(lb: seq<LeaderboardEntry>, entries: map<Id, LeaderboardEntry>) {
    && |lb| == |entries|
    && (forall e :: e in lb ==> e.userId in entries && entries[e.userId] == e)
    && (forall u :: u in entries ==> entries[u] in lb)
    && SortedBy(lb, EntryBefore)
  }

  /** Taking one kept submission out first: the three aggregates split off
      its score, its solved count and its time. */
  lemma TotalsStep(rest: map<Option<Id>, Submission>, p: Option<Id>)
    requires p in rest
    ensures Sum(ScoresOf(rest)) == rest[p].score + Sum(ScoresOf(rest - {p}))
    ensures CountPositive(ScoresOf(rest)) == (if rest[p].score > 0 then 1 else 0) + CountPositive(ScoresOf(rest - {p}))
    ensures MaxValue(TimesOf(rest)) == Later(MaxValue(TimesOf(rest - {p})), rest[p].submittedAt)
  {
    var scores, times := ScoresOf(rest), TimesOf(rest);
    assert ScoresOf(rest - {p}) == scores - {p};
    assert TimesOf(rest - {p}) == times - {p};
    SumRemove(scores, p);
    CountPositiveRemove(scores, p);
    MaxValueRemove(times, p);
  }

  /** Folding a time into the running maximum or into the remaining
      maximum gives the same overall maximum. */
  lemma LatestLater(last: Option<int>, remaining: Option<int>, t: int)
    ensures Latest(last, Later(remaining, t)) == Latest(Later(last, t), remaining)
  {
  }

  /** The inner accumulator loop over one user's kept submissions. */
  method Totals(problems: map<Option<Id>, Submission>) returns (total: int, solved: nat, lastTime: Option<Time>)
    ensures total == Sum(ScoresOf(problems))
    ensures solved == CountPositive(ScoresOf(problems))
    ensures lastTime == MaxValue(TimesOf(problems))
  {
    total, solved, lastTime := 0, 0, None;
    var rest := problems;
    while rest != map[]
      invariant total + Sum(ScoresOf(rest)) == Sum(ScoresOf(problems))
      invariant solved + CountPositive(ScoresOf(rest)) == CountPositive(ScoresOf(problems))
      invariant Latest(lastTime, MaxValue(TimesOf(rest))) == MaxValue(TimesOf(problems))
      decreases |rest|
    {
      var p :| p in rest;
      var sub := rest[p];
      TotalsStep(rest, p);
      LatestLater(lastTime, MaxValue(TimesOf(rest - {p})), sub.submittedAt);
      total := total + sub.score;
      if sub.score > 0 {
        solved := solved + 1;
      }
      lastTime := Later(lastTime, sub.submittedAt);
      rest := rest - {p};
    }
    assert TimesOf(rest) == map[];
  }

  /** The later of two optional times. */
  function Latest(a: Option<int>, b: Option<int>): (r: Option<int>)
    ensures r.None? <==> a.None? && b.None?
    ensures r.Some? ==> (r == a || r == b)
    ensures a.Some? ==> r.Some? && r.value >= a.value
    ensures b.Some? ==> r.Some? && r.value >= b.value
  {
    if a.None? then b else if b.None? then a else if a.value >= b.value then a else b
  }

  /** The first loop: one kept submission per (user, problem). */
  method KeepBestPerProblem(subs: seq<Submission>) returns (best: Best)
    ensures best == BestOf(subs)
  {
    best := map[];
    for i := 0 to |subs|
      invariant best == BestOf(subs[..i])
    {
      var sub := subs[i];
      assert subs[..i + 1][..i] == subs[..i];
      if sub.userId !in best {
        best := best[sub.userId := map[]];
      }
      var userProblems := best[sub.userId];
      if sub.problemId !in userProblems || sub.score > userProblems[sub.problemId].score {
        userProblems := userProblems[sub.problemId := sub];
      }
      best := best[sub.userId := userProblems];
    }
    assert subs[..|subs|] == subs;
  }

  /** The second loop: one row per user, in the map's iteration order. */
  method BuildRows(best: Best, users: map<Id, User>) returns (rows: seq<LeaderboardEntry>)
    ensures |rows| == |Rows(best, users)|
    ensures forall e :: e in rows ==> e.userId in Rows(best, users) && Rows(best, users)[e.userId] == e
    ensures forall u :: u in Rows(best, users) ==> Rows(best, users)[u] in rows
  {
    ghost var done: set<Id> := {};
    rows := [];
    var rest := best;
    while rest != map[]
      invariant RowsProgress(rows, done, rest, best, users)
      decreases |rest|
    {
      var userId :| userId in rest;
      var entry := RowFor(userId, rest[userId], users);
      AddRow(rows, done, rest, userId, entry, best, users);
      rows := rows + [entry];
      done := done + {userId};
      rest := rest - {userId};
    }
    RowsDone(rows, done, best, users);
  }

  /** Once every user is visited, the rows are exactly the entries. */
  lemma RowsDone(rows: seq<LeaderboardEntry>, done: set<Id>, best: Best, users: map<Id, User>)
    requires RowsProgress(rows, done, map[], best, users)
    ensures |rows| == |Rows(best, users)|
    ensures forall e :: e in rows ==> e.userId in Rows(best, users) && Rows(best, users)[e.userId] == e
    ensures forall u :: u in Rows(best, users) ==> Rows(best, users)[u] in rows
  {
    assert done == Rows(best, users).Keys;
  }

  /** The body of the second loop: one user's row. */
  method RowFor(userId: Id, problems: map<Option<Id>, Submission>, users: map<Id, User>) returns (entry: LeaderboardEntry)
    ensures entry == EntryFor(userId, problems, users)
  {
    var total, solved, lastTime := Totals(problems);
    var username := if userId in users then users[userId].username else "Unknown";
    var rollNumber := if userId in users then users[userId].rollNumber else "N/A";
    entry := LeaderboardEntry(userId, username, rollNumber, total, solved, lastTime);
  }

  /** The second loop has visited every user outside `rest`: `done` holds
      them and `rows` their rows. */
  ghost predicate RowsProgress(rows: seq<LeaderboardEntry>, done: set<Id>, rest: Best, best: Best, users: map<Id, User>) {
    var entries := Rows(best, users);
    && (forall u :: u in rest ==> u in best && rest[u] == best[u])
    && done <= entries.Keys && |rows| == |done|
    && (forall u :: u in done ==> u !in rest)
    && (forall u :: u in entries && u !in rest ==> u in done)
    && (forall e :: e in rows ==> e.userId in done && entries[e.userId] == e)
    && (forall u :: u in done ==> entries[u] in rows)
  }

  /** One more user adds its row. */
  lemma AddRow(rows: seq<LeaderboardEntry>, done: set<Id>, rest: Best, u: Id, e: LeaderboardEntry, best: Best, users: map<Id, User>)
    requires RowsProgress(rows, done, rest, best, users)
    requires u in rest && e == EntryFor(u, rest[u], users)
    ensures RowsProgress(rows + [e], done + {u}, rest - {u}, best, users)
  {
  }

  /** `getLeaderboard`. */
  method GetLeaderboard(store: Store, contestId: Id) returns (r: Result<seq<LeaderboardEntry>, LeaderboardError>)
    requires store.Valid()
    ensures contestId !in store.contests ==> r == Failure(ContestNotFound)
    ensures contestId in store.contests ==>
              r.Success? && IsLeaderboard(r.value, Entries(store.submissions, contestId, store.users))
  {
    if contestId !in store.contests {
      return Failure(ContestNotFound);
    }
    var subs := ContestSubmissions(store.submissions, contestId);
    var best := KeepBestPerProblem(subs);
    var rows := BuildRows(best, store.users);
    EntryBeforeIsTotalPreorder();
    SortBySorted(rows, EntryBefore);
    SortByMembers(rows, EntryBefore);
    r := Success(SortBy(rows, EntryBefore));
  }

  /** A row counts at most one solved problem per problem the user submitted
      for, and with judging scores in [0, 100] its total is at most 100 per
      such problem. */
  lemma EntryBounds(userId: Id, problems: map<Option<Id>, Submission>, users: map<Id, User>)
    requires forall p :: p in problems ==> 0 <= problems[p].score <= 100
    ensures var e := EntryFor(userId, problems, users);
            && 0 <= e.problemsSolved <= |problems|
            && 0 <= e.totalScore <= 100 * |problems|
            && (problems != map[] ==> e.lastSubmissionTime.Some?)
  {
    SumBounds(ScoresOf(problems), 0, 100);
    assert |ScoresOf(problems)| == |problems| by {
      assert ScoresOf(problems).Keys == problems.Keys;
    }
    assert problems != map[] ==> TimesOf(problems) != map[] by {
      if problems != map[] {
        var p :| p in problems;
        assert p in TimesOf(problems);
      }
    }
  }
}
