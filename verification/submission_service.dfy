/** `SubmissionService.submitCode`: the code-judging pipeline, with its pure
    helpers (line-ending normalisation, `String.trim`, the language and
    version tables). The external executor is a function parameter that
    returns the program's output, or `None` when the response carries none. */
module SubmissionService {
  import opened Wrappers
  import opened Model
  import opened Repository

  // ---------------------------------------------------------------
  // Text helpers
  // ---------------------------------------------------------------

  /** `text.replace("\r\n", "\n")`, scanning left to right. */
  function ReplaceCrLf(s: string): (r: string)
    ensures |r| <= |s|
  {
    if |s| >= 2 && s[0] == '\r' && s[1] == '\n' then "\n" + ReplaceCrLf(s[2..])
    else if s == [] then []
    else [s[0]] + ReplaceCrLf(s[1..])
  }

  /** Each CRLF pair becomes a single LF: the text around the pair is
      rewritten on its own, since no pair can straddle the boundary. */
  lemma {:induction false} ReplaceCrLfSplit(a: string, b: string)
    ensures ReplaceCrLf(a + "\r\n" + b) == ReplaceCrLf(a) + "\n" + ReplaceCrLf(b)
    decreases |a|
  {
    var s := a + "\r\n" + b;
    if a == [] {
      assert s == "\r\n" + b;
      assert ReplaceCrLf(s) == "\n" + ReplaceCrLf(s[2..]);
      assert s[2..] == b;
      assert ReplaceCrLf(a) == [];
      assert ReplaceCrLf(s) == ReplaceCrLf(a) + "\n" + ReplaceCrLf(b);
    } else if |a| >= 2 && a[0] == '\r' && a[1] == '\n' {
      var t := a[2..] + "\r\n" + b;
      assert s[0] == '\r' && s[1] == '\n' && s[2..] == t;
      assert ReplaceCrLf(s) == "\n" + ReplaceCrLf(t);
      ReplaceCrLfSplit(a[2..], b);
      var x, y := ReplaceCrLf(a[2..]), ReplaceCrLf(b);
      assert ReplaceCrLf(a) == "\n" + x;
      assert "\n" + (x + "\n" + y) == ("\n" + x) + "\n" + y;
      assert ReplaceCrLf(s) == ReplaceCrLf(a) + "\n" + ReplaceCrLf(b);
    } else {
      var t := a[1..] + "\r\n" + b;
      assert s[0] == a[0] && s[1..] == t;
      assert !(s[0] == '\r' && s[1] == '\n') by {
        if |a| == 1 { assert s[1] == '\r'; } else { assert s[1] == a[1]; }
      }
      assert ReplaceCrLf(s) == [a[0]] + ReplaceCrLf(t);
      ReplaceCrLfSplit(a[1..], b);
      var x, y := ReplaceCrLf(a[1..]), ReplaceCrLf(b);
      assert ReplaceCrLf(a) == [a[0]] + x;
      assert [a[0]] + (x + "\n" + y) == ([a[0]] + x) + "\n" + y;
      assert ReplaceCrLf(s) == ReplaceCrLf(a) + "\n" + ReplaceCrLf(b);
    }
  }

  /** A text with no CRLF pair, lone CRs included, is left as it is. */
  lemma {:induction false} ReplaceCrLfNoPair(s: string)
    requires forall i :: 0 <= i < |s| - 1 ==> !(s[i] == '\r' && s[i + 1] == '\n')
    ensures ReplaceCrLf(s) == s
  {
    if s != [] {
      var t := s[1..];
      assert forall i :: 0 <= i < |t| - 1 ==> !(t[i] == '\r' && t[i + 1] == '\n') by {
        forall i | 0 <= i < |t| - 1 ensures !(t[i] == '\r' && t[i + 1] == '\n') {
          assert t[i] == s[i + 1] && t[i + 1] == s[i + 2];
        }
      }
      ReplaceCrLfNoPair(t);
    }
  }

  /** `text.replace("\r", "\n")`. */
  function ReplaceCr(s: string): (r: string)
    ensures |r| == |s|
  {
    if s == [] then [] else [if s[0] == '\r' then '\n' else s[0]] + ReplaceCr(s[1..])
  }

  /** `ReplaceCr` turns each CR into LF and keeps every other character. */
  lemma {:induction false} ReplaceCrChars(s: string)
    ensures forall i :: 0 <= i < |s| ==> ReplaceCr(s)[i] == (if s[i] == '\r' then '\n' else s[i])
  {
    if s != [] {
      ReplaceCrChars(s[1..]);
      assert forall i :: 1 <= i < |s| ==> ReplaceCr(s)[i] == ReplaceCr(s[1..])[i - 1];
    }
  }

  /** `normalize`: a null text is returned as the empty text; otherwise
      line breaks become LF, and an LF is appended unless the text already
      ends with one. */
  function Normalize(text: Option<string>): string {
    if text.None? then ""
    else
      var t := ReplaceCr(ReplaceCrLf(text.value));
      if |t| > 0 && t[|t| - 1] == '\n' then t else t + "\n"
  }

  /** A normalised text holds no CR; it ends with LF unless the text was
      null, which gives the empty text. */
  lemma NormalizeShape(text: Option<string>)
    ensures '\r' !in Normalize(text)
    ensures text.None? <==> Normalize(text) == ""
    ensures text.Some? ==> Normalize(text)[|Normalize(text)| - 1] == '\n'
  {
    if text.Some? {
      ReplaceCrChars(ReplaceCrLf(text.value));
    }
  }

  /** Without a CR, replacing CRLF changes nothing. */
  lemma {:induction false} ReplaceCrLfNoCr(s: string)
    requires '\r' !in s
    ensures ReplaceCrLf(s) == s
  {
    if s != [] {
      assert '\r' !in s[1..] by {
        assert forall c :: c in s[1..] ==> c in s;
      }
      ReplaceCrLfNoCr(s[1..]);
    }
  }

  /** A text already free of CR and terminated by LF is left as it is. */
  lemma NormalizeFixes(s: string)
    requires '\r' !in s && |s| > 0 && s[|s| - 1] == '\n'
    ensures Normalize(Some(s)) == s
  {
    ReplaceCrLfNoCr(s);
    ReplaceCrChars(s);
    assert ReplaceCr(s) == s;
  }

  /** `normalize` is idempotent on every non-null text; a null text
      normalises to the empty text, which normalises to a single LF. */
  lemma NormalizeIdempotent(text: Option<string>)
    ensures text.Some? ==> Normalize(Some(Normalize(text))) == Normalize(text)
    ensures text.None? ==> Normalize(Some(Normalize(text))) == "\n"
  {
    NormalizeShape(text);
    if text.Some? {
      NormalizeFixes(Normalize(text));
    }
  }

  /** Java's `trim` removes every character up to U+0020 from both ends. */
  predicate IsTrimmed(c: char) {
    c <= ' '
  }

  /** The number of leading characters up to U+0020. */
  function LeadingCut(s: string): (n: nat)
    ensures n <= |s|
    ensures forall i :: 0 <= i < n ==> IsTrimmed(s[i])
    ensures n < |s| ==> !IsTrimmed(s[n])
  {
    if s != [] && IsTrimmed(s[0]) then 1 + LeadingCut(s[1..]) else 0
  }

  /** The length left once trailing characters up to U+0020 are dropped. */
  function TrailingKeep(s: string): (n: nat)
    ensures n <= |s|
    ensures forall i :: n <= i < |s| ==> IsTrimmed(s[i])
    ensures n > 0 ==> !IsTrimmed(s[n - 1])
  {
    if s != [] && IsTrimmed(s[|s| - 1]) then TrailingKeep(s[..|s| - 1]) else |s|
  }

  /** `String.trim`: drops characters up to U+0020 from both ends. */
  function Trim(s: string): (r: string)
    ensures r != [] ==> !IsTrimmed(r[0]) && !IsTrimmed(r[|r| - 1])
  {
    var a := LeadingCut(s);
    var b := TrailingKeep(s);
    if b <= a then [] else s[a..b]
  }

  /** The trimmed text is a middle part of the original, and everything cut
      off is a character up to U+0020. */
  lemma TrimIsInfix(s: string)
    ensures exists a, b :: 0 <= a <= b <= |s| && Trim(s) == s[a..b]
              && (forall i :: 0 <= i < a || b <= i < |s| ==> IsTrimmed(s[i]))
  {
    var a := LeadingCut(s);
    var b := TrailingKeep(s);
    if b <= a {
      assert Trim(s) == s[a..a];
      assert forall i :: 0 <= i < a || a <= i < |s| ==> IsTrimmed(s[i]);
    } else {
      assert Trim(s) == s[a..b];
      assert forall i :: 0 <= i < a || b <= i < |s| ==> IsTrimmed(s[i]);
    }
  }

  /** Trimming twice trims no more than trimming once. */
  lemma TrimIdempotent(s: string)
    ensures Trim(Trim(s)) == Trim(s)
  {
    var r := Trim(s);
    if r != [] {
      assert LeadingCut(r) == 0;
      assert TrailingKeep(r) == |r|;
    }
  }

  /** `toLowerCase` on ASCII letters. */
  function ToLowerAscii(s: string): (r: string)
    ensures |r| == |s|
    ensures forall i :: 0 <= i < |s| ==>
              r[i] == (if 'A' <= s[i] <= 'Z' then (s[i] as int + 32) as char else s[i])
  {
    if s == [] then []
    else [if 'A' <= s[0] <= 'Z' then (s[0] as int + 32) as char else s[0]] + ToLowerAscii(s[1..])
  }

  /** `getLanguageParam`: `None` where `submitCode` throws "Unsupported language". */
  function LanguageParam(lang: string): Option<string> {
    match ToLowerAscii(lang)
    case "python" => Some("python3")
    case "java" => Some("java")
    case "c" => Some("c")
    case "cpp" => Some("cpp14")
    case _ => None
  }

  /** `getVersionIndex`. */
  function VersionIndex(lang: string): string {
    match ToLowerAscii(lang)
    case "python" => "3"
    case "java" => "4"
    case "c" => "5"
    case "cpp" => "3"
    case _ => "0"
  }

  /** The two tables agree on which languages are supported, and both ignore
      the case of ASCII letters. */
  lemma LanguageTablesAgree(lang: string)
    ensures LanguageParam(lang).Some? <==> VersionIndex(lang) != "0"
    ensures LanguageParam(ToLowerAscii(lang)) == LanguageParam(lang)
    ensures VersionIndex(ToLowerAscii(lang)) == VersionIndex(lang)
  {
    var low := ToLowerAscii(lang);
    assert ToLowerAscii(low) == low;
  }

  /** The four supported names, in any case, and what they map to. */
  lemma SupportedLanguages(lang: string)
    ensures LanguageParam(lang).Some? <==> ToLowerAscii(lang) in {"python", "java", "c", "cpp"}
    ensures ToLowerAscii(lang) == "python" ==> LanguageParam(lang) == Some("python3") && VersionIndex(lang) == "3"
    ensures ToLowerAscii(lang) == "cpp" ==> LanguageParam(lang) == Some("cpp14") && VersionIndex(lang) == "3"
    ensures ToLowerAscii(lang) == "java" ==> LanguageParam(lang) == Some("java") && VersionIndex(lang) == "4"
    ensures ToLowerAscii(lang) == "c" ==> LanguageParam(lang) == Some("c") && VersionIndex(lang) == "5"
  {
  }

  // ---------------------------------------------------------------
  // Judging
  // ---------------------------------------------------------------

  /** The executor: code, language, version and stdin to the program's output. */
  type Executor = (string, string, string, string) -> Option<string>

  datatype SubmissionRequest = SubmissionRequest(
    userId: Id, contestId: Id, problemId: Id, code: string, language: string)

  datatype JudgeError =
    | ContestNotFound      // 404 "Contest not found"
    | ContestNotStarted    // 400 "Contest has not started yet"
    | ContestEnded         // 400 "Contest has ended"
    | ProblemNotFound      // 404 "Problem not found"
    | UserNotFound         // 404 "User not found"
    | UnsupportedLanguage  // "Unsupported language"

  /** One test case passes when the trimmed output (empty when absent) is the
      trimmed expected output; neither side is normalised further. */
  predicate Passes(tc: TestCase, code: string, param: string, version: string, execute: Executor) {
    CaseOutput(tc, code, param, version, execute) == Trim(tc.expectedOutput)
  }

  /** The trimmed output of one run on the normalised code and input, empty
      when the executor reports none. */
  function CaseOutput(tc: TestCase, code: string, param: string, version: string, execute: Executor): string {
    var result := execute(Normalize(Some(code)), param, version, Normalize(Some(tc.input)));
    if result.Some? then Trim(result.value) else ""
  }

  /** The number of elements satisfying `p`. */
  function CountWhere<T>(xs: seq<T>, p: T -> bool): (n: nat)
    ensures n <= |xs|
  {
    if xs == [] then 0
    else CountWhere(xs[..|xs| - 1], p) + (if p(xs[|xs| - 1]) then 1 else 0)
  }

  /** The count reaches the length exactly when every element satisfies `p`. */
  lemma {:induction false} CountWhereAll<T>(xs: seq<T>, p: T -> bool)
    ensures CountWhere(xs, p) == |xs| <==> forall i :: 0 <= i < |xs| ==> p(xs[i])
  {
    if xs != [] {
      var init := xs[..|xs| - 1];
      CountWhereAll(init, p);
      assert forall i :: 0 <= i < |init| ==> init[i] == xs[i];
    }
  }

  /** The number of passing test cases. */
  function PassedCount(cases: seq<TestCase>, code: string, param: string, version: string, execute: Executor): (n: nat)
    ensures n <= |cases|
  {
    CountWhere(cases, tc => Passes(tc, code, param, version, execute))
  }

  /** Every test case passes exactly when the count reaches the total. */
  lemma AllPassed(cases: seq<TestCase>, code: string, param: string, version: string, execute: Executor)
    ensures PassedCount(cases, code, param, version, execute) == |cases|
            <==> forall i :: 0 <= i < |cases| ==> Passes(cases[i], code, param, version, execute)
  {
    CountWhereAll(cases, tc => Passes(tc, code, param, version, execute));
  }

  /** `(int) ((passed / (double) total) * 100)`, with 0 for no test cases
      (where Java's NaN converts to 0). */
  function JudgeScore(passed: nat, total: nat): (score: int)
    requires passed <= total
    ensures 0 <= score <= 100
    ensures total > 0 ==> (score == 100 <==> passed == total)
    ensures total > 0 ==> score * total <= passed * 100 < (score + 1) * total
  {
    if total == 0 then 0
    else
      PercentDivision(passed, total);
      passed * 100 / total
  }

  lemma PercentDivision(passed: nat, total: nat)
    requires 0 < total && passed <= total
    ensures var score := passed * 100 / total;
            && score * total <= passed * 100 < (score + 1) * total
            && (passed < total ==> score < 100)
  {
  }

  /** `ACCEPTED` exactly when every test case passed. */
  function VerdictFor(passed: nat, total: nat): (v: Verdict)
    ensures v == Accepted || v == WrongAnswer
  {
    if passed == total then Accepted else WrongAnswer
  }

  /** The checks made before anything is saved, in `submitCode`'s order: the
      contest window comes before the problem and the user lookups. */
  function Admit(contests: map<Id, Contest>, problems: map<Id, Problem>, users: map<Id, User>,
                 request: SubmissionRequest, now: Time): (r: Result<Problem, JudgeError>)
    ensures r.Success? <==>
              && request.contestId in contests
              && contests[request.contestId].startTime <= now <= contests[request.contestId].endTime
              && request.problemId in problems
              && request.userId in users
    ensures r.Success? ==> r.value == problems[request.problemId]
    ensures request.contestId !in contests ==> r == Failure(ContestNotFound)
    ensures request.contestId in contests && now < contests[request.contestId].startTime ==>
              r == Failure(ContestNotStarted)
    ensures request.contestId in contests && contests[request.contestId].startTime <= now
            && now > contests[request.contestId].endTime ==>
              r == Failure(ContestEnded)
    ensures request.contestId in contests
            && contests[request.contestId].startTime <= now <= contests[request.contestId].endTime ==>
              && (request.problemId !in problems ==> r == Failure(ProblemNotFound))
              && (request.problemId in problems && request.userId !in users ==> r == Failure(UserNotFound))
  {
    if request.contestId !in contests then Failure(ContestNotFound)
    else
      var contest := contests[request.contestId];
      if now < contest.startTime then Failure(ContestNotStarted)
      else if now > contest.endTime then Failure(ContestEnded)
      else if request.problemId !in problems then Failure(ProblemNotFound)
      else if request.userId !in users then Failure(UserNotFound)
      else Success(problems[request.problemId])
  }

  /** The `PENDING` record saved before any test case runs. */
  function PendingRecord(id: nat, request: SubmissionRequest, now: Time): Submission {
    Submission(id, request.userId, Some(request.contestId), Some(request.problemId),
               request.code, request.language, Pending, 0, now)
  }

  /** The same record after judging. */
  function JudgedRecord(pending: Submission, passed: nat, total: nat): (s: Submission)
    requires passed <= total
    ensures s.id == pending.id && s.submittedAt == pending.submittedAt
    ensures s.verdict == Accepted <==> passed == total
    ensures 0 <= s.score <= 100
  {
    pending.(score := JudgeScore(passed, total), verdict := VerdictFor(passed, total))
  }

  /** The test-case loop of `submitCode`: the language is looked up anew for
      every case, so an unsupported one fails on the first case, and never
      when there are none. */
  method RunTestCases(cases: seq<TestCase>, code: string, language: string, execute: Executor)
    returns (r: Result<nat, JudgeError>)
    ensures cases != [] && LanguageParam(language).None? ==> r == Failure(UnsupportedLanguage)
    ensures cases == [] || LanguageParam(language).Some? ==>
              r == Success(PassedCount(cases, code, LanguageParam(language).GetOr(""), VersionIndex(language), execute))
  {
    ghost var lp, version := LanguageParam(language), VersionIndex(language);
    var passedCount := 0;
    var i := 0;
    while i < |cases|
      invariant 0 <= i <= |cases|
      invariant i > 0 ==> lp.Some?
      invariant passedCount == PassedCount(cases[..i], code, lp.GetOr(""), version, execute)
    {
      var param := LanguageParam(language);
      if param.None? {
        return Failure(UnsupportedLanguage);
      }
      var output := CaseOutput(cases[i], code, param.value, VersionIndex(language), execute);
      var expected := Trim(cases[i].expectedOutput);
      PassedStep(cases, i, code, param.value, version, execute);
      if output == expected {
        passedCount := passedCount + 1;
      }
      i := i + 1;
    }
    assert cases[..i] == cases;
    r := Success(passedCount);
  }

  /** One more test case adds one to the count exactly when it passes. */
  lemma PassedStep(cases: seq<TestCase>, i: nat, code: string, param: string, version: string, execute: Executor)
    requires i < |cases|
    ensures PassedCount(cases[..i + 1], code, param, version, execute)
            == PassedCount(cases[..i], code, param, version, execute)
               + (if Passes(cases[i], code, param, version, execute) then 1 else 0)
  {
    assert cases[..i + 1][..i] == cases[..i];
  }

  /** `submitCode`. After the checks it appends a `PENDING` record; an
      unsupported language then fails in the first loop iteration, leaving
      that record pending; otherwise the record is updated in place with the
      score and the verdict. */
  method SubmitCode(store: Store, request: SubmissionRequest, now: Time, execute: Executor)
    returns (r: Result<Submission, JudgeError>)
    requires store.Valid()
    modifies store
    ensures store.Valid()
    ensures var gate := Admit(old(store.contests), old(store.problems), old(store.users), request, now);
            && (gate.Failure? ==> r == Failure(gate.error) && store.submissions == old(store.submissions))
            && (gate.Success? ==>
                  var pending := PendingRecord(|old(store.submissions)|, request, now);
                  var cases := gate.value.testCases;
                  var param := LanguageParam(request.language);
                  if cases != [] && param.None? then
                    r == Failure(UnsupportedLanguage) && store.submissions == old(store.submissions) + [pending]
                  else
                    var passed := PassedCount(cases, request.code, param.GetOr(""), VersionIndex(request.language), execute);
                    && r == Success(JudgedRecord(pending, passed, |cases|))
                    && store.submissions == old(store.submissions) + [r.value])
    ensures store.events == old(store.events) && store.registrations == old(store.registrations)
    ensures store.sessions == old(store.sessions) && store.questions == old(store.questions)
    ensures store.contests == old(store.contests) && store.problems == old(store.problems)
    ensures store.users == old(store.users)
  {
    if request.contestId !in store.contests {
      return Failure(ContestNotFound);
    }
    var contest := store.contests[request.contestId];
    if now < contest.startTime {
      return Failure(ContestNotStarted);
    }
    if now > contest.endTime {
      return Failure(ContestEnded);
    }
    if request.problemId !in store.problems {
      return Failure(ProblemNotFound);
    }
    var problem := store.problems[request.problemId];
    if request.userId !in store.users {
      return Failure(UserNotFound);
    }
    var id := |store.submissions|;
    var submission := PendingRecord(id, request, now);
    store.submissions := store.submissions + [submission];

    var cases := problem.testCases;
    var passed := RunTestCases(cases, submission.code, submission.language, execute);
    if passed.Failure? {
      return Failure(passed.error);
    }
    var passedCount := passed.value;
    submission := JudgedRecord(submission, passedCount, |cases|);
    store.submissions := store.submissions[id := submission];
    r := Success(submission);
  }

  /** With no test cases every language is accepted, with score 0. */
  lemma NoTestCasesAccepted(pending: Submission, code: string, param: string, version: string, execute: Executor)
    ensures var s := JudgedRecord(pending, PassedCount([], code, param, version, execute), 0);
            s.verdict == Accepted && s.score == 0
  {
  }
}
