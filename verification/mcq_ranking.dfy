/** The store query `findByEventIdOrderByTotalScoreDescSubmittedAtAsc` and the
    rank lookup built on it. The store orders by total score, highest first,
    then by submission time, earliest first; as in MongoDB, a missing value
    sorts below every present one, so sessions without a score come last and,
    among equal scores, sessions without a submission time come first. The
    order among sessions equal on both keys is the store's choice. */
module McqRanking {
  import opened Wrappers
  import opened Model
  import opened Repository
  import opened Sorting

  /** The score key, descending, with a missing score lowest. */
  predicate ScoreAbove(x: Option<real>, y: Option<real>) {
    x.Some? && (y.None? || x.value > y.value)
  }

  /** The time key, ascending, with a missing time lowest. */
  predicate TimeNotAfter(x: Option<Time>, y: Option<Time>) {
    x.None? || (y.Some? && x.value <= y.value)
  }

  /** `a` may be listed before `b`. */
  predicate RankedBefore(a: McqSubmission, b: McqSubmission) {
    || ScoreAbove(a.totalScore, b.totalScore)
    || (a.totalScore == b.totalScore && TimeNotAfter(a.submittedAt, b.submittedAt))
  }

  /** The ranking order is a total preorder, so sorting by it is well defined. */
  lemma RankedBeforeIsTotalPreorder()
    ensures TotalPreorder(RankedBefore)
  {
    forall a, b ensures RankedBefore(a, b) || RankedBefore(b, a) {
      if a.totalScore != b.totalScore {
        assert ScoreAbove(a.totalScore, b.totalScore) || ScoreAbove(b.totalScore, a.totalScore);
      }
    }
    forall a, b, c | RankedBefore(a, b) && RankedBefore(b, c) ensures RankedBefore(a, c) {
    }
  }

  /** The event's sessions, keyed as in the store. */
  function EventSessions(sessions: map<(Id, Id), McqSubmission>, eventId: Id): map<(Id, Id), McqSubmission> {
    map k | k in sessions && k.1 == eventId :: sessions[k]
  }

  /** `ranked` is what the store returns for the event: its sessions, each
      once, in ranking order. */
  ghost predicate IsRankedList(sessions: map<(Id, Id), McqSubmission>, eventId: Id, ranked: seq<McqSubmission>) {
    && (forall x :: x in ranked ==>
          (x.studentId, eventId) in sessions && sessions[(x.studentId, eventId)] == x)
    && (forall k :: k in sessions && k.1 == eventId ==> sessions[k] in ranked)
    && |ranked| == |EventSessions(sessions, eventId)|
    && SortedBy(ranked, RankedBefore)
  }

  /** The values of a map, one per key, in an arbitrary order. */
  method CollectValues<K, V>(m: map<K, V>) returns (s: seq<V>)
    ensures |s| == |m|
    ensures forall x :: x in s ==> exists k :: k in m && m[k] == x
    ensures forall k :: k in m ==> m[k] in s
  {
    s := [];
    var rest := m;
    while rest != map[]
      invariant forall k :: k in rest ==> k in m && rest[k] == m[k]
      invariant forall x :: x in s ==> exists k :: k in m && m[k] == x
      invariant forall k :: k in m && k !in rest ==> m[k] in s
      invariant |s| + |rest| == |m|
      decreases |rest|
    {
      var k :| k in rest;
      s := s + [rest[k]];
      rest := rest - {k};
    }
  }

  /** The ranked sessions of one event. */
  method FindByEventOrdered(store: Store, eventId: Id) returns (ranked: seq<McqSubmission>)
    requires store.Valid()
    ensures IsRankedList(store.sessions, eventId, ranked)
  {
    var sessions := store.sessions;
    var own := EventSessions(sessions, eventId);
    var collected := CollectValues(own);
    forall x | x in collected
      ensures (x.studentId, eventId) in sessions && sessions[(x.studentId, eventId)] == x
    {
      var k :| k in own && own[k] == x;
    }
    assert forall k :: k in sessions && k.1 == eventId ==> k in own && own[k] == sessions[k];
    RankedBeforeIsTotalPreorder();
    SortBySorted(collected, RankedBefore);
    SortByMembers(collected, RankedBefore);
    ranked := SortBy(collected, RankedBefore);
  }

  /** `rank` is what `calculateRank` reports for `studentId` in `ranked`: one
      more than the position of the student's first entry, or the length of
      the list when the student has none. */
  ghost predicate IsRankOf(rank: nat, ranked: seq<McqSubmission>, studentId: Id) {
    if exists i :: 0 <= i < |ranked| && ranked[i].studentId == studentId then
      && 1 <= rank <= |ranked|
      && ranked[rank - 1].studentId == studentId
      && (forall j :: 0 <= j < rank - 1 ==> ranked[j].studentId != studentId)
    else
      rank == |ranked|
  }

  /** The scan of `calculateRank` over an already ranked list. */
  method RankIn(ranked: seq<McqSubmission>, studentId: Id) returns (rank: nat)
    ensures IsRankOf(rank, ranked, studentId)
  {
    var i := 0;
    while i < |ranked|
      invariant 0 <= i <= |ranked|
      invariant forall j :: 0 <= j < i ==> ranked[j].studentId != studentId
    {
      if ranked[i].studentId == studentId {
        return i + 1;
      }
      i := i + 1;
    }
    return |ranked|;
  }

  /** `calculateRank`: the student's rank among the event's sessions. */
  method CalculateRank(store: Store, eventId: Id, studentId: Id) returns (rank: nat)
    requires store.Valid()
    ensures exists ranked :: IsRankedList(store.sessions, eventId, ranked) && IsRankOf(rank, ranked, studentId)
    ensures (studentId, eventId) in store.sessions ==>
              1 <= rank <= |EventSessions(store.sessions, eventId)|
  {
    var ranked := FindByEventOrdered(store, eventId);
    rank := RankIn(ranked, studentId);
    if (studentId, eventId) in store.sessions {
      var x := store.sessions[(studentId, eventId)];
      assert x in ranked;
      var i :| 0 <= i < |ranked| && ranked[i] == x;
      assert ranked[i].studentId == studentId;
    }
  }
}
