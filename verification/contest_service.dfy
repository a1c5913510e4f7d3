/** `ContestService`: creating, updating, reading and deleting coding
    contests, and the UPCOMING / LIVE / ENDED label of a contest. A request
    whose times are missing fails when the service compares them. */
module ContestService {
  import opened Wrappers
  import opened Model
  import opened Repository

  datatype ContestError =
    | TimesMissing     // a null time is dereferenced by the window check
    | StartAfterEnd    // 400 "Start time must be before end time"
    | NotFound         // 404 "Contest not found"

  /** The request body of create and update. */
  datatype ContestRequest = ContestRequest(
    title: Option<string>,
    startTime: Option<Time>,
    endTime: Option<Time>,
    clubId: Option<Id>,
    problemIds: Option<seq<Id>>,
    facultyCoordinators: Option<seq<string>>,
    studentCoordinators: Option<seq<string>>)

  /** The response body: every field of the stored contest. */
  datatype ContestResponse = ContestResponse(
    id: Id,
    title: Option<string>,
    startTime: Time,
    endTime: Time,
    clubId: Option<Id>,
    problemIds: Option<seq<Id>>,
    facultyCoordinators: Option<seq<string>>,
    studentCoordinators: Option<seq<string>>)

  /** The window check of create and update: a start equal to the end is
      accepted; only a start strictly after the end is refused. */
  function CheckWindow(req: ContestRequest): (r: Result<(), ContestError>)
    ensures r.Success? <==> req.startTime.Some? && req.endTime.Some? && req.startTime.value <= req.endTime.value
    ensures r.Failure? && r.error == StartAfterEnd <==>
              req.startTime.Some? && req.endTime.Some? && req.startTime.value > req.endTime.value
  {
    if req.startTime.None? || req.endTime.None? then Failure(TimesMissing)
    else if req.startTime.value > req.endTime.value then Failure(StartAfterEnd)
    else Success(())
  }

  /** The contest a request describes, stored under `id`. */
  function FromRequest(req: ContestRequest, id: Id): (c: Contest)
    requires CheckWindow(req).Success?
    ensures c.id == id && c.startTime <= c.endTime
    ensures c.title == req.title && c.clubId == req.clubId && c.problemIds == req.problemIds
    ensures Some(c.startTime) == req.startTime && Some(c.endTime) == req.endTime
    ensures c.facultyCoordinators == req.facultyCoordinators && c.studentCoordinators == req.studentCoordinators
  {
    Contest(id, req.title, req.startTime.value, req.endTime.value, req.clubId, req.problemIds,
            req.facultyCoordinators, req.studentCoordinators)
  }

  /** `mapToResponse`. */
  function ToResponse(c: Contest): (r: ContestResponse)
    ensures r.id == c.id && r.title == c.title && r.problemIds == c.problemIds
    ensures r.startTime == c.startTime && r.endTime == c.endTime && r.clubId == c.clubId
    ensures r.facultyCoordinators == c.facultyCoordinators && r.studentCoordinators == c.studentCoordinators
  {
    ContestResponse(c.id, c.title, c.startTime, c.endTime, c.clubId, c.problemIds,
                    c.facultyCoordinators, c.studentCoordinators)
  }

  /** The response loses nothing: two contests with the same response are
      the same contest. */
  lemma ResponseIsFaithful(a: Contest, b: Contest)
    requires ToResponse(a) == ToResponse(b)
    ensures a == b
  {
  }

  /** `createContest`: the store chooses a new id, here `freshId`. */
  method CreateContest(store: Store, req: ContestRequest, freshId: Id) returns (r: Result<ContestResponse, ContestError>)
    requires store.Valid()
    requires freshId !in store.contests
    modifies store
    ensures store.Valid()
    ensures r.Success? <==> CheckWindow(req).Success?
    ensures r.Failure? ==> r.error == CheckWindow(req).error
    ensures r.Success? ==> r.value == ToResponse(FromRequest(req, freshId))
    ensures store.contests == if r.Success? then old(store.contests)[freshId := FromRequest(req, freshId)] else old(store.contests)
    ensures store.events == old(store.events) && store.registrations == old(store.registrations)
    ensures store.sessions == old(store.sessions) && store.questions == old(store.questions)
    ensures store.problems == old(store.problems) && store.users == old(store.users)
    ensures store.submissions == old(store.submissions)
  {
    var window := CheckWindow(req);
    if window.Failure? {
      return Failure(window.error);
    }
    var contest := FromRequest(req, freshId);
    store.contests := store.contests[freshId := contest];
    r := Success(ToResponse(contest));
  }

  /** `updateContest`: the id is looked up first, then the window is
      checked; every field is replaced from the request, absent ones too. */
  method UpdateContest(store: Store, req: ContestRequest, id: Id) returns (r: Result<ContestResponse, ContestError>)
    requires store.Valid()
    modifies store
    ensures store.Valid()
    ensures id !in old(store.contests) ==> r == Failure(NotFound)
    ensures id in old(store.contests) ==>
              && (r.Success? <==> CheckWindow(req).Success?)
              && (r.Failure? ==> r.error == CheckWindow(req).error)
    ensures r.Success? ==> r.value == ToResponse(FromRequest(req, id))
    ensures store.contests == if r.Success? then old(store.contests)[id := FromRequest(req, id)] else old(store.contests)
    ensures store.events == old(store.events) && store.registrations == old(store.registrations)
    ensures store.sessions == old(store.sessions) && store.questions == old(store.questions)
    ensures store.problems == old(store.problems) && store.users == old(store.users)
    ensures store.submissions == old(store.submissions)
  {
    if id !in store.contests {
      return Failure(NotFound);
    }
    var window := CheckWindow(req);
    if window.Failure? {
      return Failure(window.error);
    }
    var contest := FromRequest(req, id);
    store.contests := store.contests[id := contest];
    r := Success(ToResponse(contest));
  }

  /** `getAllContests`: the response of every stored contest. */
  function GetAllContests(contests: map<Id, Contest>): (r: map<Id, ContestResponse>)
    ensures r.Keys == contests.Keys
    ensures forall id :: id in r ==> r[id] == ToResponse(contests[id])
  {
    map id | id in contests :: ToResponse(contests[id])
  }

  /** `getContestById`. */
  function GetContestById(contests: map<Id, Contest>, id: Id): (r: Result<ContestResponse, ContestError>)
    ensures r.Success? <==> id in contests
    ensures r.Success? ==> r.value == ToResponse(contests[id]) && r.value.id == contests[id].id
    ensures r.Failure? ==> r.error == NotFound
  {
    if id in contests then Success(ToResponse(contests[id])) else Failure(NotFound)
  }

  datatype ContestStatus = Upcoming | Live | Ended

  /** `getContestStatus` at `now`: both bounds of the window count as live. */
  function StatusAt(c: ContestResponse, now: Time): (r: ContestStatus)
    ensures r == ContestStatus.Upcoming <==> now < c.startTime
    ensures r == ContestStatus.Ended <==> c.startTime <= now && now > c.endTime
    ensures r == ContestStatus.Live <==> c.startTime <= now <= c.endTime
  {
    if now < c.startTime then ContestStatus.Upcoming
    else if now > c.endTime then ContestStatus.Ended
    else ContestStatus.Live
  }

  function Stage(s: ContestStatus): nat {
    match s
    case Upcoming => 0
    case Live => 1
    case Ended => 2
  }

  /** For a contest whose window passed the check, the label only moves
      forward as time passes, and a contest is live at its start. */
  lemma StatusMovesForward(c: ContestResponse, t1: Time, t2: Time)
    requires c.startTime <= c.endTime
    requires t1 <= t2
    ensures Stage(StatusAt(c, t1)) <= Stage(StatusAt(c, t2))
    ensures StatusAt(c, c.startTime) == ContestStatus.Live
  {
  }

  /** `deleteContest`: an unknown id is reported and nothing changes. */
  method DeleteContest(store: Store, id: Id) returns (r: Result<(), ContestError>)
    requires store.Valid()
    modifies store
    ensures store.Valid()
    ensures r.Success? <==> id in old(store.contests)
    ensures r.Failure? ==> r.error == NotFound
    ensures store.contests == old(store.contests) - {id}
    ensures store.events == old(store.events) && store.registrations == old(store.registrations)
    ensures store.sessions == old(store.sessions) && store.questions == old(store.questions)
    ensures store.problems == old(store.problems) && store.users == old(store.users)
    ensures store.submissions == old(store.submissions)
  {
    if id !in store.contests {
      return Failure(NotFound);
    }
    store.contests := store.contests - {id};
    r := Success(());
  }
}
