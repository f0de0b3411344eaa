/**
 * The testing application service: starting and completing tests for the
 * current user, the deferred grading of practical answers, the attempt
 * listing, and the management of testings, questions and answer options.
 * The repositories it works through are the tables of one object.
 */
module TestingApp {
  import opened Common
  import opened Entities
  import opened Pagination
  import opened AttemptRepo
  import opened Grading
  import opened TestingGuards
  import TS = TestingSchemas
  import QS = QuestionSchemas

  /** An attempt together with the testing it belongs to, as the complete operations return it. */
  datatype AttemptTest = AttemptTest(attempt: Attempt, test: Testing)

  /** The deferred job `complete_practical_testing` schedules: what to grade and which attempt to write. */
  datatype GradingTask = GradingTask(questions: seq<PracticalQuestion>, answers: seq<PracticalAnswer>, attemptId: AttemptId)

  /** A testing with the fields the update payload sets replaced; identity and vacancy stay. */
  function ApplyTestingUpdate(t: Testing, u: TS.TestingUpdate): (r: Testing)
    ensures r.id == t.id && r.vacancyId == t.vacancyId
    ensures u.title.Some? ==> r.title == u.title.value
    ensures u.title.None? ==> r.title == t.title
    ensures u.content.Some? ==> r.content == u.content.value
    ensures u.content.None? ==> r.content == t.content
    ensures u.kind.Some? ==> r.kind == u.kind.value
    ensures u.kind.None? ==> r.kind == t.kind
    ensures u.correctPercent.Some? ==> r.correctPercent == u.correctPercent.value
    ensures u.correctPercent.None? ==> r.correctPercent == t.correctPercent
    ensures u == TS.TestingUpdate(None, None, None, None) ==> r == t
  {
    t.(title := if u.title.Some? then u.title.value else t.title,
       content := if u.content.Some? then u.content.value else t.content,
       kind := if u.kind.Some? then u.kind.value else t.kind,
       correctPercent := if u.correctPercent.Some? then u.correctPercent.value else t.correctPercent)
  }

  /** Applying the same update twice is applying it once. */
  lemma TestingUpdateIdempotent(t: Testing, u: TS.TestingUpdate)
    ensures ApplyTestingUpdate(ApplyTestingUpdate(t, u), u) == ApplyTestingUpdate(t, u)
  {
  }

  function ApplyPracticalUpdate(q: PracticalQuestion, u: QS.PracticalQuestionUpdate): (r: PracticalQuestion)
    ensures r.id == q.id && r.testingId == q.testingId
    ensures u.content.Some? ==> r.content == u.content.value
    ensures u.content.None? ==> r.content == q.content
    ensures u.language.Some? ==> r.language == u.language.value
    ensures u.language.None? ==> r.language == q.language
    ensures u.answer.Some? ==> r.answer == u.answer.value
    ensures u.answer.None? ==> r.answer == q.answer
    ensures u == QS.PracticalQuestionUpdate(None, None, None) ==> r == q
  {
    q.(content := if u.content.Some? then u.content.value else q.content,
       language := if u.language.Some? then u.language.value else q.language,
       answer := if u.answer.Some? then u.answer.value else q.answer)
  }

  function ApplyTheoreticalUpdate(q: TheoreticalQuestion, u: QS.TheoreticalQuestionUpdate): (r: TheoreticalQuestion)
    ensures r.id == q.id && r.testingId == q.testingId
    ensures u.content.Some? ==> r.content == u.content.value
    ensures u.content.None? ==> r == q
  {
    q.(content := if u.content.Some? then u.content.value else q.content)
  }

  /** The row filters of the listings: `filter_by(testing_id = ...)` and the like. */
  function PracticalOf(testingId: TestingId): PracticalQuestion -> bool
  {
    (q: PracticalQuestion) => q.testingId == testingId
  }

  function TheoreticalOf(testingId: TestingId): TheoreticalQuestion -> bool
  {
    (q: TheoreticalQuestion) => q.testingId == testingId
  }

  function OptionOf(questionId: QuestionId): AnswerOption -> bool
  {
    (o: AnswerOption) => o.questionId == questionId
  }

  function TestingOf(vacancyId: VacancyId): Testing -> bool
  {
    (t: Testing) => t.vacancyId == vacancyId
  }

  /** Appending the attempt numbered by the table's length keeps every id equal to its position. */
  lemma AppendKeepsIds(attempts: seq<Attempt>, a: Attempt)
    requires forall i :: 0 <= i < |attempts| ==> attempts[i].id == i
    requires a.id == |attempts|
    ensures forall i :: 0 <= i < |attempts + [a]| ==> (attempts + [a])[i].id == i
  {
  }

  class TestingService {
    /** The current user. */
    const user: UserId
    var vacancies: map<VacancyId, Vacancy>
    var testings: map<TestingId, Testing>
    var practicalQuestions: map<QuestionId, PracticalQuestion>
    var theoreticalQuestions: map<QuestionId, TheoreticalQuestion>
    var answerOptions: map<OptionId, AnswerOption>
    /** The attempts table; an attempt's id is its position. */
    var attempts: seq<Attempt>
    /** The next fresh identifier; every key created so far is below it. */
    var nextId: nat

    /** Keys are the rows' ids, created keys and the rows they point to lie below `nextId`. */
    ghost predicate Valid()
      reads this
    {
      && (forall k :: k in vacancies ==> vacancies[k].id == k)
      && (forall k :: k in testings ==> k < nextId && testings[k].id == k)
      && (forall k :: k in practicalQuestions ==> k < nextId && practicalQuestions[k].id == k)
      && (forall k :: k in theoreticalQuestions ==> k < nextId && theoreticalQuestions[k].id == k)
      && (forall k :: k in answerOptions ==> k < nextId && answerOptions[k].id == k && answerOptions[k].questionId < nextId)
      && (forall i :: 0 <= i < |attempts| ==> attempts[i].id == i)
    }

    /** A service over the given vacancies, with nothing else stored yet. */
    constructor (user: UserId, vacancies: map<VacancyId, Vacancy>)
      requires forall k :: k in vacancies ==> vacancies[k].id == k
      ensures Valid()
      ensures this.user == user && this.vacancies == vacancies
      ensures testings == map[] && practicalQuestions == map[] && theoreticalQuestions == map[]
      ensures answerOptions == map[] && attempts == []
    {
      this.user := user;
      this.vacancies := vacancies;
      testings := map[];
      practicalQuestions := map[];
      theoreticalQuestions := map[];
      answerOptions := map[];
      attempts := [];
      nextId := 0;
    }

    // -------------------------------------------------------------------
    // Listings

    /** `get_practical_questions`: the testing's practical questions in id order, at most the default row limit. */
    function GetPracticalQuestions(testingId: TestingId): (r: seq<PracticalQuestion>)
      reads this
      ensures |r| <= DefaultRowLimit
      ensures forall q :: q in r ==> q in practicalQuestions.Values && q.testingId == testingId
      ensures |ListById(practicalQuestions, PracticalOf(testingId), nextId)| <= DefaultRowLimit ==>
        forall k :: k in practicalQuestions && practicalQuestions[k].testingId == testingId && k < nextId ==> practicalQuestions[k] in r
    {
      Take(ListById(practicalQuestions, PracticalOf(testingId), nextId), DefaultRowLimit)
    }

    /** The options of a theoretical question in id order, as the joined load reads them. */
    function OptionsOf(questionId: QuestionId): (r: seq<AnswerOption>)
      reads this
      ensures forall o :: o in r <==> o in answerOptions.Values && o.questionId == questionId && o.id < nextId
      requires Valid()
    {
      var r := ListById(answerOptions, OptionOf(questionId), nextId);
      assert forall o :: o in answerOptions.Values && o.questionId == questionId ==> o.id in answerOptions && answerOptions[o.id] == o;
      r
    }

    /** Each question together with its options. */
    function WithOptions(qs: seq<TheoreticalQuestion>): (r: seq<FullQuestion>)
      reads this
      requires Valid()
      ensures |r| == |qs|
      ensures forall i :: 0 <= i < |qs| ==> r[i] == FullQuestion(qs[i], OptionsOf(qs[i].id))
    {
      if qs == [] then [] else [FullQuestion(qs[0], OptionsOf(qs[0].id))] + WithOptions(qs[1..])
    }

    /** `get_theoretical_questions`: the testing's theoretical questions in id order with their options, at most the default row limit. */
    function GetTheoreticalQuestions(testingId: TestingId): (r: seq<FullQuestion>)
      reads this
      requires Valid()
      ensures |r| <= DefaultRowLimit
      ensures forall i :: 0 <= i < |r| ==> r[i].question in theoreticalQuestions.Values && r[i].question.testingId == testingId
      ensures forall i :: 0 <= i < |r| ==> r[i].options == OptionsOf(r[i].question.id)
      ensures |ListById(theoreticalQuestions, TheoreticalOf(testingId), nextId)| <= DefaultRowLimit ==>
        forall k :: k in theoreticalQuestions && theoreticalQuestions[k].testingId == testingId ==>
          exists i :: 0 <= i < |r| && r[i].question == theoreticalQuestions[k]
    {
      var all := ListById(theoreticalQuestions, TheoreticalOf(testingId), nextId);
      var qs := Take(all, DefaultRowLimit);
      assert forall i :: 0 <= i < |qs| ==> qs[i] == all[i] && all[i] in all;
      assert forall i :: 0 <= i < |qs| ==> qs[i] in theoreticalQuestions.Values && qs[i].testingId == testingId;
      var r := WithOptions(qs);
      assert |all| <= DefaultRowLimit ==>
        forall k :: k in theoreticalQuestions && theoreticalQuestions[k].testingId == testingId ==>
          exists i :: 0 <= i < |r| && r[i].question == theoreticalQuestions[k]
      by {
        if |all| <= DefaultRowLimit {
          forall k | k in theoreticalQuestions && theoreticalQuestions[k].testingId == testingId
            ensures exists i :: 0 <= i < |r| && r[i].question == theoreticalQuestions[k]
          {
            assert theoreticalQuestions[k] in qs;
            var i :| 0 <= i < |qs| && qs[i] == theoreticalQuestions[k];
            assert r[i].question == qs[i];
          }
        }
      }
      r
    }

    /** `get_testings`: the vacancy's testings in id order, at most the default row limit; a missing vacancy is not an error. */
    function GetTestings(vacancyId: VacancyId): (r: seq<Testing>)
      reads this
      ensures |r| <= DefaultRowLimit
      ensures forall t :: t in r ==> t in testings.Values && t.vacancyId == vacancyId
      ensures |ListById(testings, TestingOf(vacancyId), nextId)| <= DefaultRowLimit ==>
        forall k :: k in testings && testings[k].vacancyId == vacancyId && k < nextId ==> testings[k] in r
    {
      Take(ListById(testings, TestingOf(vacancyId), nextId), DefaultRowLimit)
    }

    /** `get_testing`: the open-testing guard's verdict. */
    function GetTesting(testingId: TestingId): (r: Result<Testing>)
      reads this
      ensures r.Ok? <==> testingId in testings && testings[testingId].vacancyId in vacancies
                         && vacancies[testings[testingId].vacancyId].state == Opened
      ensures r.Ok? ==> r.value == testings[testingId]
      ensures r.Err? ==> r.error == (if testingId in testings && testings[testingId].vacancyId in vacancies then BadRequest else NotFound)
    {
      OpenTestingGuard(testings, vacancies, testingId)
    }

    /** `get_practical_question`: the question, or NotFound. */
    function GetPracticalQuestion(questionId: QuestionId): (r: Result<PracticalQuestion>)
      reads this
      ensures r.Ok? <==> questionId in practicalQuestions
      ensures r.Ok? ==> r.value == practicalQuestions[questionId]
      ensures r.Err? ==> r.error == NotFound
    {
      if questionId in practicalQuestions then Ok(practicalQuestions[questionId]) else Err(NotFound)
    }

    /** `get_theoretical_question`: the question with its options, or NotFound. */
    function GetTheoreticalQuestion(questionId: QuestionId): (r: Result<FullQuestion>)
      reads this
      requires Valid()
      ensures r.Ok? <==> questionId in theoreticalQuestions
      ensures r.Ok? ==> r.value.question == theoreticalQuestions[questionId] && r.value.options == OptionsOf(questionId)
      ensures r.Err? ==> r.error == NotFound
    {
      if questionId in theoreticalQuestions then Ok(FullQuestion(theoreticalQuestions[questionId], OptionsOf(questionId)))
      else Err(NotFound)
    }

    /**
     * `get_test_attempts`: a named testing must exist (checked before the
     * page), then the clamp, then the current user's attempts (of that
     * testing, when one is named) ordered by creation time.
     */
    function GetTestAttempts(testingId: Option<TestingId>, page: int, perPage: int): (r: Result<seq<Attempt>>)
      reads this
      ensures testingId.Some? && testingId.value !in testings ==> r == Err(NotFound)
      ensures (testingId.None? || testingId.value in testings) ==>
        (r.Err? <==> Clamp(page, perPage).Err?) && (r.Err? ==> r == Err(Clamp(page, perPage).error))
      ensures r.Ok? ==> |r.value| <= PerPageLimit && |r.value| <= perPage && SortedBy(r.value, ByCreatedAt)
      ensures r.Ok? ==> forall a :: a in r.value ==>
        a in attempts && a.userId == user && (testingId.Some? ==> a.testId == testingId.value)
      ensures r.Ok? ==>
        && Clamp(page, perPage).Ok?
        && r.value == GetAll(attempts, AttemptFilter(None, None, Some(user), testingId), ByCreatedAt,
                             Clamp(page, perPage).value.offset, Clamp(page, perPage).value.limit)
    {
      if testingId.Some? && testingId.value !in testings then Err(NotFound)
      else
        match Clamp(page, perPage)
        case Err(e) => Err(e)
        case Ok(w) => Ok(GetAll(attempts, AttemptFilter(None, None, Some(user), testingId), ByCreatedAt, w.offset, w.limit))
    }

    // -------------------------------------------------------------------
    // Taking a test

    /** `start_practical_testing`: after the attempt guard, the questions unchanged, reference answers included. */
    method StartPractical(testingId: TestingId, now: int) returns (r: Result<seq<PracticalQuestion>>)
      ensures var g := AttemptGuard(testings, vacancies, attempts, user, testingId, Practical, now);
        && (g.Err? ==> r == Err(g.error))
        && (g.Ok? ==> r == Ok(GetPracticalQuestions(testingId)))
    {
      var g := AttemptGuard(testings, vacancies, attempts, user, testingId, Practical, now);
      if g.Err? {
        return Err(g.error);
      }
      var questions := GetPracticalQuestions(testingId);
      var response := [];
      for i := 0 to |questions|
        invariant response == questions[..i]
      {
        response := response + [questions[i]];
      }
      assert questions[..|questions|] == questions;
      r := Ok(response);
    }

    /** `start_theoretical_testing`: after the attempt guard, the questions in order with every answer key cleared. */
    method StartTheoretical(testingId: TestingId, now: int) returns (r: Result<seq<QuestionView>>)
      requires Valid()
      ensures var g := AttemptGuard(testings, vacancies, attempts, user, testingId, Theoretical, now);
        && (g.Err? ==> r == Err(g.error))
        && (g.Ok? ==>
              && r.Ok? && |r.value| == |GetTheoreticalQuestions(testingId)|
              && forall k :: 0 <= k < |r.value| ==> Conceals(r.value[k], GetTheoreticalQuestions(testingId)[k]))
    {
      var g := AttemptGuard(testings, vacancies, attempts, user, testingId, Theoretical, now);
      if g.Err? {
        return Err(g.error);
      }
      var views := StripAnswerKeys(GetTheoreticalQuestions(testingId));
      r := Ok(views);
    }

    /**
     * `complete_theoretical_testing`: after the attempt guard, grades the
     * answers; an unresolvable answer is BadRequest and records nothing,
     * otherwise one attempt with the score is recorded at `now`.
     */
    method CompleteTheoretical(testingId: TestingId, answers: seq<TheoreticalAnswer>, now: int) returns (r: Result<AttemptTest>)
      requires Valid()
      modifies this`attempts
      ensures Valid()
      ensures var g := AttemptGuard(testings, vacancies, old(attempts), user, testingId, Theoretical, now);
        var score := TheoreticalScore(old(GetTheoreticalQuestions(testingId)), answers);
        && (g.Err? ==> r == Err(g.error) && attempts == old(attempts))
        && (g.Ok? && score.Err? ==> r == Err(BadRequest) && attempts == old(attempts))
        && (g.Ok? && score.Ok? ==>
              var a := Attempt(|old(attempts)|, score.value, user, testingId, now);
              r == Ok(AttemptTest(a, g.value.0)) && attempts == old(attempts) + [a])
    {
      var g := AttemptGuard(testings, vacancies, attempts, user, testingId, Theoretical, now);
      if g.Err? {
        return Err(g.error);
      }
      var questions := GetTheoreticalQuestions(testingId);
      var score := GradeTheoretical(questions, answers);
      if score.Err? {
        return Err(BadRequest);
      }
      var a := Attempt(|attempts|, score.value, user, testingId, now);
      AppendKeepsIds(attempts, a);
      attempts := attempts + [a];
      r := Ok(AttemptTest(a, g.value.0));
    }

    /**
     * `complete_practical_testing`: after the attempt guard, records an
     * attempt with percent 0 at `now` and returns it together with the
     * grading job for that attempt.
     */
    method CompletePractical(testingId: TestingId, answers: seq<PracticalAnswer>, now: int) returns (r: Result<(AttemptTest, GradingTask)>)
      requires Valid()
      modifies this`attempts
      ensures Valid()
      ensures var g := AttemptGuard(testings, vacancies, old(attempts), user, testingId, Practical, now);
        && (g.Err? ==> r == Err(g.error) && attempts == old(attempts))
        && (g.Ok? ==>
              var a := Attempt(|old(attempts)|, 0, user, testingId, now);
              && r == Ok((AttemptTest(a, g.value.0), GradingTask(old(GetPracticalQuestions(testingId)), answers, a.id)))
              && attempts == old(attempts) + [a])
    {
      var g := AttemptGuard(testings, vacancies, attempts, user, testingId, Practical, now);
      if g.Err? {
        return Err(g.error);
      }
      var questions := GetPracticalQuestions(testingId);
      var a := Attempt(|attempts|, 0, user, testingId, now);
      AppendKeepsIds(attempts, a);
      attempts := attempts + [a];
      r := Ok((AttemptTest(a, g.value.0), GradingTask(questions, answers, a.id)));
    }

    /**
     * The deferred check: grades the job's answers on the judge and writes
     * the percent to the job's attempt, and to no other; an attempt that is
     * not there is left alone.
     */
    method CheckPracticalAnswers(task: GradingTask, judge: Judge)
      requires Valid()
      modifies this`attempts
      ensures Valid()
      ensures task.attemptId < |old(attempts)| ==>
        attempts == old(attempts)[task.attemptId := old(attempts)[task.attemptId].(percent := PracticalScore(task.questions, task.answers, judge))]
      ensures task.attemptId >= |old(attempts)| ==> attempts == old(attempts)
    {
      var percent := GradePractical(task.questions, task.answers, judge);
      if task.attemptId < |attempts| {
        attempts := attempts[task.attemptId := attempts[task.attemptId].(percent := percent)];
      }
    }

    // -------------------------------------------------------------------
    // Managing testings

    /** `create_testing`: the vacancy must exist (opened or not); the new testing gets a fresh id. */
    method CreateTesting(vacancyId: VacancyId, data: TS.TestingCreate) returns (r: Result<Testing>)
      requires Valid()
      modifies this`testings, this`nextId
      ensures Valid()
      ensures vacancyId !in vacancies ==> r == Err(NotFound) && testings == old(testings) && nextId == old(nextId)
      ensures vacancyId in vacancies ==>
        && r == Ok(Testing(old(nextId), data.title, data.content, data.kind, data.correctPercent, vacancyId))
        && old(nextId) !in old(testings)
        && testings == old(testings)[old(nextId) := r.value] && nextId == old(nextId) + 1
    {
      var g := CreateTestingGuard(vacancies, vacancyId);
      if g.Err? {
        return Err(g.error);
      }
      var t := Testing(nextId, data.title, data.content, data.kind, data.correctPercent, vacancyId);
      testings := testings[nextId := t];
      nextId := nextId + 1;
      r := Ok(t);
    }

    /** `update_testing`: after the open-testing guard, the payload's set fields replace the stored ones. */
    method UpdateTesting(testingId: TestingId, data: TS.TestingUpdate) returns (r: Result<Testing>)
      requires Valid()
      modifies this`testings
      ensures Valid()
      ensures var g := OpenTestingGuard(old(testings), vacancies, testingId);
        && (g.Err? ==> r == Err(g.error) && testings == old(testings))
        && (g.Ok? ==> r == Ok(ApplyTestingUpdate(g.value, data)) && testings == old(testings)[testingId := r.value])
    {
      var g := OpenTestingGuard(testings, vacancies, testingId);
      if g.Err? {
        return Err(g.error);
      }
      var t := ApplyTestingUpdate(g.value, data);
      testings := testings[testingId := t];
      r := Ok(t);
    }

    /** `delete_testing`: after the open-testing guard, the testing is removed. */
    method DeleteTesting(testingId: TestingId) returns (r: Result<()>)
      requires Valid()
      modifies this`testings
      ensures Valid()
      ensures var g := OpenTestingGuard(old(testings), vacancies, testingId);
        && (g.Err? ==> r == Err(g.error) && testings == old(testings))
        && (g.Ok? ==> r == Ok(()) && testings == old(testings) - {testingId})
    {
      var g := OpenTestingGuard(testings, vacancies, testingId);
      if g.Err? {
        return Err(g.error);
      }
      testings := testings - {testingId};
      r := Ok(());
    }

    // -------------------------------------------------------------------
    // Managing questions and options

    /** `create_practical_question`: after the question-create guard for a practical testing, a new question. */
    method CreatePracticalQuestion(testingId: TestingId, data: QS.PracticalQuestionCreate) returns (r: Result<PracticalQuestion>)
      requires Valid()
      modifies this`practicalQuestions, this`nextId
      ensures Valid()
      ensures var g := QuestionCreateGuard(testings, vacancies, testingId, Practical);
        && (g.Err? ==> r == Err(g.error) && practicalQuestions == old(practicalQuestions) && nextId == old(nextId))
        && (g.Ok? ==>
              && r == Ok(PracticalQuestion(old(nextId), data.content, data.language, data.answer, testingId))
              && old(nextId) !in old(practicalQuestions)
              && practicalQuestions == old(practicalQuestions)[old(nextId) := r.value] && nextId == old(nextId) + 1)
    {
      var g := QuestionCreateGuard(testings, vacancies, testingId, Practical);
      if g.Err? {
        return Err(g.error);
      }
      var q := PracticalQuestion(nextId, data.content, data.language, data.answer, testingId);
      practicalQuestions := practicalQuestions[nextId := q];
      nextId := nextId + 1;
      r := Ok(q);
    }

    /** `create_theoretical_question`: after the question-create guard for a theoretical testing, a new question, which has no options yet. */
    method CreateTheoreticalQuestion(testingId: TestingId, data: QS.TheoreticalQuestionCreate) returns (r: Result<FullQuestion>)
      requires Valid()
      modifies this`theoreticalQuestions, this`nextId
      ensures Valid()
      ensures var g := QuestionCreateGuard(testings, vacancies, testingId, Theoretical);
        && (g.Err? ==> r == Err(g.error) && theoreticalQuestions == old(theoreticalQuestions) && nextId == old(nextId))
        && (g.Ok? ==>
              && r == Ok(FullQuestion(TheoreticalQuestion(old(nextId), data.content, testingId), []))
              && old(nextId) !in old(theoreticalQuestions)
              && theoreticalQuestions == old(theoreticalQuestions)[old(nextId) := r.value.question] && nextId == old(nextId) + 1)
    {
      var g := QuestionCreateGuard(testings, vacancies, testingId, Theoretical);
      if g.Err? {
        return Err(g.error);
      }
      var id := nextId;
      assert forall o :: o in answerOptions.Values ==> o.questionId < id;
      var q := TheoreticalQuestion(id, data.content, testingId);
      theoreticalQuestions := theoreticalQuestions[id := q];
      nextId := nextId + 1;
      var options := OptionsOf(id);
      ListByIdNone(answerOptions, OptionOf(id), nextId);
      r := Ok(FullQuestion(q, options));
    }

    /** `update_practical_question`: the question must exist; the payload's set fields replace the stored ones. */
    method UpdatePracticalQuestion(questionId: QuestionId, data: QS.PracticalQuestionUpdate) returns (r: Result<PracticalQuestion>)
      requires Valid()
      modifies this`practicalQuestions
      ensures Valid()
      ensures questionId !in old(practicalQuestions) ==> r == Err(NotFound) && practicalQuestions == old(practicalQuestions)
      ensures questionId in old(practicalQuestions) ==>
        && r == Ok(ApplyPracticalUpdate(old(practicalQuestions)[questionId], data))
        && practicalQuestions == old(practicalQuestions)[questionId := r.value]
    {
      if questionId !in practicalQuestions {
        return Err(NotFound);
      }
      var q := ApplyPracticalUpdate(practicalQuestions[questionId], data);
      practicalQuestions := practicalQuestions[questionId := q];
      r := Ok(q);
    }

    /** `update_theoretical_question`: the question must exist; a set content replaces the stored one. */
    method UpdateTheoreticalQuestion(questionId: QuestionId, data: QS.TheoreticalQuestionUpdate) returns (r: Result<FullQuestion>)
      requires Valid()
      modifies this`theoreticalQuestions
      ensures Valid()
      ensures questionId !in old(theoreticalQuestions) ==> r == Err(NotFound) && theoreticalQuestions == old(theoreticalQuestions)
      ensures questionId in old(theoreticalQuestions) ==>
        && r == Ok(FullQuestion(ApplyTheoreticalUpdate(old(theoreticalQuestions)[questionId], data), OptionsOf(questionId)))
        && theoreticalQuestions == old(theoreticalQuestions)[questionId := r.value.question]
    {
      if questionId !in theoreticalQuestions {
        return Err(NotFound);
      }
      var q := ApplyTheoreticalUpdate(theoreticalQuestions[questionId], data);
      theoreticalQuestions := theoreticalQuestions[questionId := q];
      r := Ok(FullQuestion(q, OptionsOf(questionId)));
    }

    /** `delete_practical_question`: the question must exist, and is removed. */
    method DeletePracticalQuestion(questionId: QuestionId) returns (r: Result<()>)
      requires Valid()
      modifies this`practicalQuestions
      ensures Valid()
      ensures questionId !in old(practicalQuestions) ==> r == Err(NotFound) && practicalQuestions == old(practicalQuestions)
      ensures questionId in old(practicalQuestions) ==> r == Ok(()) && practicalQuestions == old(practicalQuestions) - {questionId}
    {
      if questionId !in practicalQuestions {
        return Err(NotFound);
      }
      practicalQuestions := practicalQuestions - {questionId};
      r := Ok(());
    }

    /** `delete_theoretical_question`: the question must exist, and is removed; its options stay in their table. */
    method DeleteTheoreticalQuestion(questionId: QuestionId) returns (r: Result<()>)
      requires Valid()
      modifies this`theoreticalQuestions
      ensures Valid()
      ensures questionId !in old(theoreticalQuestions) ==> r == Err(NotFound) && theoreticalQuestions == old(theoreticalQuestions)
      ensures questionId in old(theoreticalQuestions) ==> r == Ok(()) && theoreticalQuestions == old(theoreticalQuestions) - {questionId}
    {
      if questionId !in theoreticalQuestions {
        return Err(NotFound);
      }
      theoreticalQuestions := theoreticalQuestions - {questionId};
      r := Ok(());
    }

    /**
     * `create_theoretical_question_option`: the question must exist; the new
     * option is added and the question is returned with its options, the
     * new one last.
     */
    method CreateOption(questionId: QuestionId, data: QS.AnswerOptionCreate) returns (r: Result<FullQuestion>)
      requires Valid()
      modifies this`answerOptions, this`nextId
      ensures Valid()
      ensures questionId !in theoreticalQuestions ==> r == Err(NotFound) && answerOptions == old(answerOptions) && nextId == old(nextId)
      ensures questionId in theoreticalQuestions ==>
        var o := AnswerOption(old(nextId), data.content, data.isCorrect, questionId);
        && old(nextId) !in old(answerOptions)
        && answerOptions == old(answerOptions)[old(nextId) := o] && nextId == old(nextId) + 1
        && r == Ok(FullQuestion(theoreticalQuestions[questionId], old(OptionsOf(questionId)) + [o]))
    {
      if questionId !in theoreticalQuestions {
        return Err(NotFound);
      }
      var id := nextId;
      var before := answerOptions;
      ghost var oldOptions := OptionsOf(questionId);
      var o := AnswerOption(id, data.content, data.isCorrect, questionId);
      answerOptions := answerOptions[id := o];
      nextId := nextId + 1;
      ListByIdAgree(before, answerOptions, OptionOf(questionId), id);
      var options := OptionsOf(questionId);
      assert options == ListById(answerOptions, OptionOf(questionId), id) + [o];
      r := Ok(FullQuestion(theoreticalQuestions[questionId], options));
    }
  }
}
