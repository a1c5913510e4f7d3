/** `QuestionController`: adding one question, adding a batch of questions
    all-or-nothing, and deleting a question. New question ids come from the
    store and are parameters here. */
module QuestionController {
  import opened Wrappers
  import opened Model
  import opened Repository

  datatype QuestionError =
    | EventNotFound          // "Event not found", thrown before any check
    | InvalidFormat          // 400 "Invalid question format" / "Invalid question in bulk upload"
    | InvalidCorrectOption   // 400 "Correct option index invalid" / "Invalid correct option index"
    | NotFound               // 404 on delete

  /** The request body of one question. */
  datatype QuestionRequest = QuestionRequest(
    questionText: Option<string>,
    options: Option<seq<string>>,
    correctOption: Option<int>,
    marks: Option<real>,
    negativeMarks: Option<real>)

  /** The field checks of one request. A negative correct option is not
      rejected. */
  function Validate(req: QuestionRequest): (r: Result<(), QuestionError>)
    ensures r.Success? <==>
              && req.questionText.Some? && req.options.Some? && req.correctOption.Some? && req.marks.Some?
              && 2 <= |req.options.value|
              && req.correctOption.value < |req.options.value|
    ensures r.Failure? && r.error == InvalidCorrectOption <==>
              && req.questionText.Some? && req.options.Some? && req.correctOption.Some? && req.marks.Some?
              && 2 <= |req.options.value|
              && req.correctOption.value >= |req.options.value|
    ensures r.Failure? ==> r.error in {InvalidFormat, InvalidCorrectOption}
  {
    if req.questionText.None? || req.options.None? || |req.options.value| < 2
       || req.correctOption.None? || req.marks.None?
    then Failure(InvalidFormat)
    else if req.correctOption.value >= |req.options.value| then Failure(InvalidCorrectOption)
    else Success(())
  }

  /** The stored question for a valid request: the event id comes from the
      path and a missing negative mark becomes 0.0. */
  function Build(req: QuestionRequest, eventId: Id, id: Id): (q: McqQuestion)
    ensures q.id == id && q.eventId == eventId
    ensures q.questionText == req.questionText && q.options == req.options
    ensures q.correctOption == req.correctOption && q.marks == req.marks
    ensures q.negativeMarks.Some?
    ensures q.negativeMarks == (if req.negativeMarks.Some? then req.negativeMarks else Some(0.0))
  {
    McqQuestion(id, eventId, req.questionText, req.options, req.correctOption, req.marks,
                Some(if req.negativeMarks.None? then 0.0 else req.negativeMarks.value))
  }

  /** A stored question of a valid request can be scored: its correct
      option lies below its option count and it has at least two options. */
  lemma BuiltIsWellFormed(req: QuestionRequest, eventId: Id, id: Id)
    requires Validate(req).Success?
    ensures var q := Build(req, eventId, id);
            && q.options.Some? && 2 <= |q.options.value|
            && q.correctOption.Some? && q.correctOption.value < |q.options.value|
            && q.marks.Some? && q.negativeMarks.Some?
  {
  }

  /** `addQuestion`. */
  method AddQuestion(store: Store, eventId: Id, req: QuestionRequest, freshId: Id) returns (r: Result<McqQuestion, QuestionError>)
    requires store.Valid()
    requires freshId !in store.questions
    modifies store
    ensures store.Valid()
    ensures eventId !in old(store.events) ==> r == Failure(EventNotFound)
    ensures eventId in old(store.events) && Validate(req).Failure? ==> r == Failure(Validate(req).error)
    ensures eventId in old(store.events) && Validate(req).Success? ==> r == Success(Build(req, eventId, freshId))
    ensures store.questions == if r.Success? then old(store.questions)[freshId := r.value] else old(store.questions)
    ensures store.events == old(store.events) && store.registrations == old(store.registrations)
    ensures store.sessions == old(store.sessions) && store.contests == old(store.contests)
    ensures store.problems == old(store.problems) && store.users == old(store.users)
    ensures store.submissions == old(store.submissions)
  {
    if eventId !in store.events {
      return Failure(EventNotFound);
    }
    var valid := Validate(req);
    if valid.Failure? {
      return Failure(valid.error);
    }
    var question := Build(req, eventId, freshId);
    store.questions := store.questions[freshId := question];
    r := Success(question);
  }

  /** The batch as the loop builds it: the questions of every request, or
      the error of the first invalid one. */
  function BuildAll(reqs: seq<QuestionRequest>, eventId: Id, ids: seq<Id>): Result<seq<McqQuestion>, QuestionError>
    requires |ids| == |reqs|
  {
    if reqs == [] then Success([])
    else
      var valid := Validate(reqs[0]);
      if valid.Failure? then Failure(valid.error)
      else
        var rest := BuildAll(reqs[1..], eventId, ids[1..]);
        if rest.Failure? then rest else Success([Build(reqs[0], eventId, ids[0])] + rest.value)
  }

  /** The batch is stored exactly when every request is valid, and then
      holds each request's question in order; otherwise the error is that
      of the first invalid request. */
  lemma {:induction false} BuildAllAllOrNothing(reqs: seq<QuestionRequest>, eventId: Id, ids: seq<Id>)
    requires |ids| == |reqs|
    ensures var r := BuildAll(reqs, eventId, ids);
            && (r.Success? <==> forall i :: 0 <= i < |reqs| ==> Validate(reqs[i]).Success?)
            && (r.Success? ==>
                  && |r.value| == |reqs|
                  && (forall i :: 0 <= i < |reqs| ==> r.value[i] == Build(reqs[i], eventId, ids[i])))
            && (r.Failure? ==>
                  exists i :: (&& 0 <= i < |reqs| && Validate(reqs[i]).Failure?
                               && r.error == Validate(reqs[i]).error
                               && (forall j :: 0 <= j < i ==> Validate(reqs[j]).Success?)))
  {
    if reqs != [] {
      BuildAllAllOrNothing(reqs[1..], eventId, ids[1..]);
      var r := BuildAll(reqs, eventId, ids);
      var rest := BuildAll(reqs[1..], eventId, ids[1..]);
      if Validate(reqs[0]).Success? {
        if rest.Success? {
          forall i | 0 <= i < |reqs| ensures r.value[i] == Build(reqs[i], eventId, ids[i]) {
            if i > 0 {
              assert reqs[i] == reqs[1..][i - 1] && ids[i] == ids[1..][i - 1];
            }
          }
          forall i | 0 <= i < |reqs| ensures Validate(reqs[i]).Success? {
            if i > 0 {
              assert reqs[i] == reqs[1..][i - 1];
            }
          }
        } else {
          var i :| 0 <= i < |reqs[1..]| && Validate(reqs[1..][i]).Failure?
                   && rest.error == Validate(reqs[1..][i]).error
                   && forall j :: 0 <= j < i ==> Validate(reqs[1..][j]).Success?;
          assert reqs[i + 1] == reqs[1..][i];
          forall j | 0 <= j < i + 1 ensures Validate(reqs[j]).Success? {
            if j > 0 {
              assert reqs[j] == reqs[1..][j - 1];
            }
          }
        }
      }
    }
  }

  /** The validation loop of `addBulkQuestions`: it returns at the first
      invalid request and otherwise collects the questions to save. */
  method BuildBatch(reqs: seq<QuestionRequest>, eventId: Id, ids: seq<Id>) returns (r: Result<seq<McqQuestion>, QuestionError>)
    requires |ids| == |reqs|
    ensures r == BuildAll(reqs, eventId, ids)
  {
    var questionList: seq<McqQuestion> := [];
    for i := 0 to |reqs|
      invariant forall j :: 0 <= j < i ==> Validate(reqs[j]).Success?
      invariant |questionList| == i
      invariant forall j :: 0 <= j < i ==> questionList[j] == Build(reqs[j], eventId, ids[j])
    {
      var valid := Validate(reqs[i]);
      if valid.Failure? {
        BatchFailsAt(reqs, eventId, ids, i);
        return Failure(valid.error);
      }
      questionList := questionList + [Build(reqs[i], eventId, ids[i])];
    }
    BuildAllAllOrNothing(reqs, eventId, ids);
    assert BuildAll(reqs, eventId, ids).value == questionList;
    r := Success(questionList);
  }

  /** A batch whose first invalid request is at `i` fails with its error. */
  lemma {:induction false} BatchFailsAt(reqs: seq<QuestionRequest>, eventId: Id, ids: seq<Id>, i: nat)
    requires |ids| == |reqs| && i < |reqs|
    requires forall j :: 0 <= j < i ==> Validate(reqs[j]).Success?
    requires Validate(reqs[i]).Failure?
    ensures BuildAll(reqs, eventId, ids) == Failure(Validate(reqs[i]).error)
  {
    if i > 0 {
      BatchFailsAt(reqs[1..], eventId, ids[1..], i - 1);
    }
  }

  /** The questions of a batch, keyed by their ids. */
  function Keyed(questions: seq<McqQuestion>): (m: map<Id, McqQuestion>)
    ensures forall q :: q in questions ==> q.id in m
    ensures forall id :: id in m ==> m[id] in questions && m[id].id == id
  {
    if questions == [] then map[]
    else Keyed(questions[..|questions| - 1])[questions[|questions| - 1].id := questions[|questions| - 1]]
  }

  /** With distinct ids, no question of the batch overwrites another:
      each is found under its own id. */
  lemma {:induction false} KeyedKeepsEach(questions: seq<McqQuestion>)
    requires forall i, j :: 0 <= i < j < |questions| ==> questions[i].id != questions[j].id
    ensures forall i :: 0 <= i < |questions| ==> Keyed(questions)[questions[i].id] == questions[i]
  {
    if questions != [] {
      var n := |questions| - 1;
      var init := questions[..n];
      KeyedKeepsEach(init);
      assert forall i :: 0 <= i < n ==> init[i] == questions[i];
    }
  }

  /** `addBulkQuestions`: nothing is stored unless every request is valid. */
  method AddBulkQuestions(store: Store, eventId: Id, reqs: seq<QuestionRequest>, ids: seq<Id>)
    returns (r: Result<seq<McqQuestion>, QuestionError>)
    requires store.Valid()
    requires |ids| == |reqs|
    requires forall i :: 0 <= i < |ids| ==> ids[i] !in store.questions
    requires forall i, j :: 0 <= i < j < |ids| ==> ids[i] != ids[j]
    modifies store
    ensures store.Valid()
    ensures eventId !in old(store.events) ==> r == Failure(EventNotFound)
    ensures eventId in old(store.events) ==> r == BuildAll(reqs, eventId, ids)
    ensures store.questions == if r.Success? then old(store.questions) + Keyed(r.value) else old(store.questions)
    ensures r.Success? ==> |r.value| == |reqs| && forall i :: 0 <= i < |reqs| ==> ids[i] in store.questions && store.questions[ids[i]] == r.value[i]
    ensures store.events == old(store.events) && store.registrations == old(store.registrations)
    ensures store.sessions == old(store.sessions) && store.contests == old(store.contests)
    ensures store.problems == old(store.problems) && store.users == old(store.users)
    ensures store.submissions == old(store.submissions)
  {
    if eventId !in store.events {
      return Failure(EventNotFound);
    }
    r := BuildBatch(reqs, eventId, ids);
    if r.Success? {
      BuildAllAllOrNothing(reqs, eventId, ids);
      assert forall i :: 0 <= i < |r.value| ==> r.value[i].id == ids[i];
      KeyedKeepsEach(r.value);
      store.questions := store.questions + Keyed(r.value);
    }
  }

  /** `deleteQuestion`: an unknown id is reported and nothing changes. */
  method DeleteQuestion(store: Store, questionId: Id) returns (r: Result<(), QuestionError>)
    requires store.Valid()
    modifies store
    ensures store.Valid()
    ensures r.Success? <==> questionId in old(store.questions)
    ensures r.Failure? ==> r.error == NotFound
    ensures store.questions == old(store.questions) - {questionId}
    ensures store.events == old(store.events) && store.registrations == old(store.registrations)
    ensures store.sessions == old(store.sessions) && store.contests == old(store.contests)
    ensures store.problems == old(store.problems) && store.users == old(store.users)
    ensures store.submissions == old(store.submissions)
  {
    if questionId !in store.questions {
      return Failure(NotFound);
    }
    store.questions := store.questions - {questionId};
    r := Success(());
  }
}
