/**
 * The scoring rules of the testing service: theoretical answers graded
 * against the options' answer keys, practical answers graded by running
 * them on the judge, the answer-key stripping done when a theoretical test
 * starts, and the verdict of a single program run.
 */
module Grading {
  import opened Common
  import opened Entities

  /** What the judge reports for a run: output and error text (already decoded) and the status description. */
  datatype JudgeResponse = JudgeResponse(stdout: Option<string>, stderr: Option<string>, status: Option<string>)

  /** The code-execution service: the response to running source code in a language. */
  type Judge = (string, LanguageId) -> JudgeResponse

  /** A submitted choice of one option for one theoretical question. */
  datatype TheoreticalAnswer = TheoreticalAnswer(answerOptionId: OptionId, questionId: QuestionId)

  /** A submitted program for one practical question. */
  datatype PracticalAnswer = PracticalAnswer(answer: string, questionId: QuestionId)

  /**
   * The score of `correct` right answers out of `total` questions, as a
   * truncated percentage; 0 when there are no questions.
   */
  function Percent(correct: nat, total: nat): (p: nat)
    ensures total == 0 ==> p == 0
    ensures total > 0 ==> p * total <= correct * 100 < (p + 1) * total
    ensures correct <= total ==> p <= 100
  {
    if total == 0 then 0
    else
      var p := (correct * 100) / total;
      assert p * total <= correct * 100 < (p + 1) * total by {
        var r := (correct * 100) % total;
        assert correct * 100 == p * total + r && 0 <= r < total;
        assert (p + 1) * total == p * total + total;
      }
      assert correct <= total ==> p <= 100 by {
        if correct <= total && p > 100 {
          MulMonotone(correct, total, 100);
          MulMonotone(101, p, total);
          assert false;
        }
      }
      p
  }

  lemma MulMonotone(x: nat, y: nat, t: nat)
    requires x <= y
    ensures x * t <= y * t
  {
  }

  // ---------------------------------------------------------------------
  // Output comparison

  /** `s` with every newline character removed. */
  function StripNewlines(s: string): (r: string)
    ensures '\n' !in r
    ensures |r| <= |s|
    ensures forall c :: c in r ==> c in s
  {
    if s == [] then []
    else (if s[0] == '\n' then [] else [s[0]]) + StripNewlines(s[1..])
  }

  /** A string without newlines is left as it is. */
  lemma {:induction false} StripNewlinesNoop(s: string)
    requires '\n' !in s
    ensures StripNewlines(s) == s
  {
    if s != [] {
      assert '\n' !in s[1..] by {
        assert forall c :: c in s[1..] ==> c in s;
      }
      StripNewlinesNoop(s[1..]);
    }
  }

  lemma StripNewlinesIdempotent(s: string)
    ensures StripNewlines(StripNewlines(s)) == StripNewlines(s)
  {
    StripNewlinesNoop(StripNewlines(s));
  }

  lemma {:induction false} StripNewlinesAppend(a: string, b: string)
    ensures StripNewlines(a + b) == StripNewlines(a) + StripNewlines(b)
  {
    if a == [] {
      assert a + b == b;
    } else {
      assert (a + b)[0] == a[0] && (a + b)[1..] == a[1..] + b;
      var head := if a[0] == '\n' then [] else [a[0]];
      assert StripNewlines(a + b) == head + StripNewlines(a[1..] + b);
      StripNewlinesAppend(a[1..], b);
    }
  }

  /** The comparison both the grading and `execute_program` use. */
  predicate OutputMatches(output: string, expected: string): (r: bool)
    ensures output == expected ==> r
    ensures '\n' !in output && '\n' !in expected ==> (r <==> output == expected)
  {
    if '\n' !in output && '\n' !in expected then
      StripNewlinesNoop(output);
      StripNewlinesNoop(expected);
      StripNewlines(output) == StripNewlines(expected)
    else
      StripNewlines(output) == StripNewlines(expected)
  }

  /** Newlines anywhere are ignored: a trailing newline on the output does not matter. */
  lemma TrailingNewlineIgnored(output: string)
    ensures OutputMatches(output + "\n", output)
  {
    StripNewlinesAppend(output, "\n");
    assert StripNewlines("\n") == [] by {
      assert "\n"[1..] == [];
    }
  }

  // ---------------------------------------------------------------------
  // Theoretical grading

  /** An option lookup by id; a later option with the same id replaces an earlier one. */
  function OptionsById(opts: seq<AnswerOption>): (m: map<OptionId, AnswerOption>)
    ensures m.Keys == set o | o in opts :: o.id
    ensures forall k :: k in m ==> m[k] in opts && m[k].id == k
  {
    if opts == [] then map[]
    else
      var n := |opts| - 1;
      var prev := OptionsById(opts[..n]);
      assert opts == opts[..n] + [opts[n]];
      prev[opts[n].id := opts[n]]
  }

  /** The two-level lookup question id -> option id -> option built before grading. */
  function QuestionIndex(qs: seq<FullQuestion>): (m: map<QuestionId, map<OptionId, AnswerOption>>)
    ensures m.Keys == set q | q in qs :: q.question.id
  {
    if qs == [] then map[]
    else
      var n := |qs| - 1;
      var prev := QuestionIndex(qs[..n]);
      assert qs == qs[..n] + [qs[n]];
      prev[qs[n].question.id := OptionsById(qs[n].options)]
  }

  predicate UniqueQuestionIds(qs: seq<FullQuestion>)
  {
    forall i, j :: 0 <= i < |qs| && 0 <= j < |qs| && qs[i].question.id == qs[j].question.id ==> i == j
  }

  /** Under unique question ids the lookup of a question gives that question's options. */
  lemma {:induction false} QuestionIndexAt(qs: seq<FullQuestion>, k: nat)
    requires UniqueQuestionIds(qs) && k < |qs|
    ensures QuestionIndex(qs)[qs[k].question.id] == OptionsById(qs[k].options)
  {
    var n := |qs| - 1;
    if k < n {
      assert UniqueQuestionIds(qs[..n]);
      QuestionIndexAt(qs[..n], k);
      assert qs[k].question.id != qs[n].question.id;
    }
  }

  /** The answer names a known question and one of that question's options. */
  predicate Resolves(index: map<QuestionId, map<OptionId, AnswerOption>>, a: TheoreticalAnswer)
  {
    a.questionId in index && a.answerOptionId in index[a.questionId]
  }

  /**
   * Counts the answers whose chosen option is correct, answer by answer;
   * an answer with an unknown question or option is a BadRequest.
   */
  function CountCorrect(index: map<QuestionId, map<OptionId, AnswerOption>>, answers: seq<TheoreticalAnswer>): (r: Result<nat>)
    ensures r.Err? ==> r.error == BadRequest
    ensures r.Ok? ==> r.value <= |answers|
    ensures r.Err? <==> exists i :: 0 <= i < |answers| && !Resolves(index, answers[i])
  {
    if answers == [] then Ok(0)
    else
      var n := |answers| - 1;
      var a := answers[n];
      assert forall i :: 0 <= i < n ==> answers[..n][i] == answers[i];
      match CountCorrect(index, answers[..n])
      case Err(e) => Err(e)
      case Ok(c) =>
        if a.questionId !in index then Err(BadRequest)
        else if a.answerOptionId !in index[a.questionId] then Err(BadRequest)
        else Ok(c + if index[a.questionId][a.answerOptionId].isCorrect then 1 else 0)
  }

  /** The score of a theoretical submission, or the BadRequest it raises. */
  function TheoreticalScore(qs: seq<FullQuestion>, answers: seq<TheoreticalAnswer>): (r: Result<nat>)
    ensures r.Err? ==> r.error == BadRequest
    ensures r.Ok? && |answers| <= |qs| ==> r.value <= 100
    ensures r.Ok? && |qs| == 0 ==> r.value == 0
  {
    match CountCorrect(QuestionIndex(qs), answers)
    case Err(e) => Err(e)
    case Ok(c) => Ok(Percent(c, |qs|))
  }

  /** The answer names one of the given questions and one of that question's options. */
  predicate RefersToLoaded(qs: seq<FullQuestion>, a: TheoreticalAnswer)
  {
    exists k :: 0 <= k < |qs| && qs[k].question.id == a.questionId
      && exists o :: o in qs[k].options && o.id == a.answerOptionId
  }

  /** A submission is rejected iff some answer does not name a loaded question and one of its options. */
  lemma RejectedIffUnresolved(qs: seq<FullQuestion>, answers: seq<TheoreticalAnswer>)
    requires UniqueQuestionIds(qs)
    ensures TheoreticalScore(qs, answers).Err? <==> exists i :: 0 <= i < |answers| && !RefersToLoaded(qs, answers[i])
  {
    var index := QuestionIndex(qs);
    forall a: TheoreticalAnswer
      ensures Resolves(index, a) <==> RefersToLoaded(qs, a)
    {
      if Resolves(index, a) {
        assert a.questionId in set q | q in qs :: q.question.id;
        var q :| q in qs && q.question.id == a.questionId;
        var k :| 0 <= k < |qs| && qs[k] == q;
        QuestionIndexAt(qs, k);
        assert a.answerOptionId in set o | o in q.options :: o.id;
      }
      if RefersToLoaded(qs, a) {
        var k :| 0 <= k < |qs| && qs[k].question.id == a.questionId
          && exists o :: o in qs[k].options && o.id == a.answerOptionId;
        assert qs[k] in qs;
        QuestionIndexAt(qs, k);
        var o :| o in qs[k].options && o.id == a.answerOptionId;
        assert a.answerOptionId in set o | o in qs[k].options :: o.id;
      }
    }
  }

  /** Both halves' counts added, or BadRequest when either half is rejected. */
  function Combine(x: Result<nat>, y: Result<nat>): Result<nat>
  {
    if x.Ok? && y.Ok? then Ok(x.value + y.value) else Err(BadRequest)
  }

  lemma {:induction false} CountCorrectAppend(index: map<QuestionId, map<OptionId, AnswerOption>>, a: seq<TheoreticalAnswer>, b: seq<TheoreticalAnswer>)
    ensures CountCorrect(index, a + b) == Combine(CountCorrect(index, a), CountCorrect(index, b))
  {
    if b == [] {
      assert a + b == a;
    } else {
      var n := |b| - 1;
      assert (a + b)[..|a + b| - 1] == a + b[..n];
      assert (a + b)[|a + b| - 1] == b[n];
      CountCorrectAppend(index, a, b[..n]);
    }
  }

  /** Removing the element at `j` removes one copy of it from the multiset. */
  lemma MultisetWithout<T>(s: seq<T>, j: nat)
    requires j < |s|
    ensures multiset(s[..j] + s[j + 1..]) == multiset(s) - multiset{s[j]}
  {
    assert s == s[..j] + [s[j]] + s[j + 1..];
  }

  /** Taking the first element out of `a` and a copy of it out of `b` keeps them permutations. */
  lemma PermutationTail<T>(a: seq<T>, b: seq<T>, j: nat)
    requires multiset(a) == multiset(b) && 0 < |a| && j < |b| && b[j] == a[0]
    ensures multiset(a[1..]) == multiset(b[..j] + b[j + 1..])
  {
    MultisetWithout(b, j);
    MultisetWithout(a, 0);
    assert a[..0] + a[1..] == a[1..];
  }

  lemma CombineSwap(x: Result<nat>, l: Result<nat>, r: Result<nat>)
    ensures Combine(x, Combine(l, r)) == Combine(l, Combine(x, r))
  {
  }

  /** Counting a rearrangement of the answers gives the same count, or the same rejection. */
  lemma {:induction false} CountCorrectPermutation(index: map<QuestionId, map<OptionId, AnswerOption>>, a: seq<TheoreticalAnswer>, b: seq<TheoreticalAnswer>)
    requires multiset(a) == multiset(b)
    ensures CountCorrect(index, a) == CountCorrect(index, b)
    decreases |a|
  {
    if a == [] {
      assert |b| == |multiset(b)| == 0;
    } else {
      var x := a[0];
      assert x in multiset(b);
      var j :| 0 <= j < |b| && b[j] == x;
      var rest := b[..j] + b[j + 1..];
      PermutationTail(a, b, j);
      CountCorrectPermutation(index, a[1..], rest);
      assert [x] + a[1..] == a;
      CountCorrectAppend(index, [x], a[1..]);
      assert b[..j] + ([x] + b[j + 1..]) == b;
      CountCorrectAppend(index, b[..j], [x] + b[j + 1..]);
      CountCorrectAppend(index, [x], b[j + 1..]);
      CountCorrectAppend(index, b[..j], b[j + 1..]);
      CombineSwap(CountCorrect(index, [x]), CountCorrect(index, b[..j]), CountCorrect(index, b[j + 1..]));
    }
  }

  /** The order in which answers are submitted does not change the result. */
  lemma ScoreOrderIndependent(qs: seq<FullQuestion>, a: seq<TheoreticalAnswer>, b: seq<TheoreticalAnswer>)
    requires multiset(a) == multiset(b)
    ensures TheoreticalScore(qs, a) == TheoreticalScore(qs, b)
  {
    CountCorrectPermutation(QuestionIndex(qs), a, b);
  }

  /** Under option ids unique within a question, the option lookup finds each option by its id. */
  lemma OptionsByIdAt(opts: seq<AnswerOption>, o: AnswerOption)
    requires o in opts
    requires forall p :: p in opts && p.id == o.id ==> p == o
    ensures o.id in OptionsById(opts) && OptionsById(opts)[o.id] == o
  {
    assert o.id in set p | p in opts :: p.id;
  }

  /** An answer naming question `qs[k]` and its option `o` resolves, to `o`. */
  lemma AnswerResolvesTo(qs: seq<FullQuestion>, a: TheoreticalAnswer, k: nat, o: AnswerOption)
    requires UniqueQuestionIds(qs) && k < |qs| && qs[k].question.id == a.questionId
    requires o in qs[k].options && o.id == a.answerOptionId
    requires forall p :: p in qs[k].options && p.id == o.id ==> p == o
    ensures Resolves(QuestionIndex(qs), a) && QuestionIndex(qs)[a.questionId][a.answerOptionId] == o
  {
    QuestionIndexAt(qs, k);
    OptionsByIdAt(qs[k].options, o);
  }

  /** A single resolving answer counts 1 if its option is marked correct and 0 otherwise. */
  lemma SingleAnswerCount(index: map<QuestionId, map<OptionId, AnswerOption>>, a: TheoreticalAnswer)
    requires Resolves(index, a)
    ensures CountCorrect(index, [a]) == Ok(if index[a.questionId][a.answerOptionId].isCorrect then 1 else 0)
  {
    assert [a][..0] == [];
  }

  /**
   * What one answer earns: with unique question ids, an answer naming
   * question `qs[k]` and its option `o` (the only option with that id)
   * counts 1 if `o` is marked correct and 0 otherwise.
   */
  lemma AnswerEarnsItsOptionsMark(qs: seq<FullQuestion>, a: TheoreticalAnswer, k: nat, o: AnswerOption)
    requires UniqueQuestionIds(qs) && k < |qs| && qs[k].question.id == a.questionId
    requires o in qs[k].options && o.id == a.answerOptionId
    requires forall p :: p in qs[k].options && p.id == o.id ==> p == o
    ensures CountCorrect(QuestionIndex(qs), [a]) == Ok(if o.isCorrect then 1 else 0)
  {
    AnswerResolvesTo(qs, a, k, o);
    SingleAnswerCount(QuestionIndex(qs), a);
  }

  /**
   * The score of a whole submission is the truncated percent of the points
   * its answers earn one by one.
   */
  lemma {:induction false} ScoreIsPercentOfPoints(qs: seq<FullQuestion>, answers: seq<TheoreticalAnswer>, a: TheoreticalAnswer, point: nat)
    requires CountCorrect(QuestionIndex(qs), [a]) == Ok(point)
    requires CountCorrect(QuestionIndex(qs), answers).Ok?
    ensures TheoreticalScore(qs, answers + [a]) == Ok(Percent(CountCorrect(QuestionIndex(qs), answers).value + point, |qs|))
  {
    var index := QuestionIndex(qs);
    var c := CountCorrect(index, answers).value;
    CountCorrectAppend(index, answers, [a]);
    assert CountCorrect(index, answers + [a]) == Ok(c + point);
  }

  /** Answering the one question twice with its correct option counts twice: a score of 200. */
  lemma DuplicateAnswersExceed100()
    ensures var opt := AnswerOption(2, "yes", true, 1);
      var qs := [FullQuestion(TheoreticalQuestion(1, "q", 0), [opt])];
      var a := TheoreticalAnswer(2, 1);
      TheoreticalScore(qs, [a, a]) == Ok(200)
  {
    var opt := AnswerOption(2, "yes", true, 1);
    var qs := [FullQuestion(TheoreticalQuestion(1, "q", 0), [opt])];
    var a := TheoreticalAnswer(2, 1);
    assert OptionsById([opt]) == map[2 := opt] by {
      assert [opt][..0] == [];
    }
    assert QuestionIndex(qs) == map[1 := map[2 := opt]] by {
      assert qs[..0] == [];
    }
    var index := QuestionIndex(qs);
    assert [a, a][..1] == [a];
    assert [a][..0] == [];
    assert CountCorrect(index, [a]) == Ok(1);
    assert CountCorrect(index, [a, a]) == Ok(2);
  }

  /**
   * `complete_theoretical_testing`'s grading: builds the two-level lookup,
   * then counts the correct answers, stopping at the first unresolvable one.
   */
  method GradeTheoretical(questions: seq<FullQuestion>, answers: seq<TheoreticalAnswer>) returns (r: Result<nat>)
    ensures r == TheoreticalScore(questions, answers)
  {
    var index: map<QuestionId, map<OptionId, AnswerOption>> := map[];
    var i := 0;
    while i < |questions|
      invariant 0 <= i <= |questions|
      invariant index == QuestionIndex(questions[..i])
    {
      var options := questions[i].options;
      var optionIndex: map<OptionId, AnswerOption> := map[];
      var j := 0;
      while j < |options|
        invariant 0 <= j <= |options|
        invariant optionIndex == OptionsById(options[..j])
      {
        assert options[..j + 1][..j] == options[..j];
        optionIndex := optionIndex[options[j].id := options[j]];
        j := j + 1;
      }
      assert options[..j] == options;
      assert questions[..i + 1][..i] == questions[..i];
      index := index[questions[i].question.id := optionIndex];
      i := i + 1;
    }
    assert questions[..i] == questions;
    var correct: nat := 0;
    i := 0;
    while i < |answers|
      invariant 0 <= i <= |answers|
      invariant CountCorrect(index, answers[..i]) == Ok(correct)
    {
      var answer := answers[i];
      assert answers[..i + 1][..i] == answers[..i];
      if answer.questionId !in index || answer.answerOptionId !in index[answer.questionId] {
        assert !Resolves(index, answers[i]);
        return Err(BadRequest);
      }
      if index[answer.questionId][answer.answerOptionId].isCorrect {
        correct := correct + 1;
      }
      i := i + 1;
    }
    assert answers[..i] == answers;
    r := Ok(Percent(correct, |questions|));
  }

  // ---------------------------------------------------------------------
  // Practical grading

  /** A question lookup by id; a later question with the same id replaces an earlier one. */
  function PracticalIndex(qs: seq<PracticalQuestion>): (m: map<QuestionId, PracticalQuestion>)
    ensures m.Keys == set q | q in qs :: q.id
    ensures forall k :: k in m ==> m[k] in qs && m[k].id == k
  {
    if qs == [] then map[]
    else
      var n := |qs| - 1;
      assert qs == qs[..n] + [qs[n]];
      PracticalIndex(qs[..n])[qs[n].id := qs[n]]
  }

  /** A run earns the point iff it wrote no error text, wrote some output, and that output matches. */
  predicate Credited(q: PracticalQuestion, resp: JudgeResponse): (r: bool)
    ensures Truthy(resp.stderr) ==> !r
    ensures !Truthy(resp.stdout) ==> !r
    ensures !Truthy(resp.stderr) && q.answer != [] && resp.stdout == Some(q.answer) ==> r
    ensures !Truthy(resp.stderr) && resp.stdout == Some(q.answer + "\n") ==> r
  {
    TrailingNewlineIgnored(q.answer);
    !Truthy(resp.stderr) && Truthy(resp.stdout) && OutputMatches(resp.stdout.value, q.answer)
  }

  /** The judge's verdict on one answer: a point, or nothing for an unknown question. */
  function AnswerPoint(index: map<QuestionId, PracticalQuestion>, a: PracticalAnswer, judge: Judge): nat
  {
    if a.questionId in index && Credited(index[a.questionId], judge(a.answer, index[a.questionId].language)) then 1 else 0
  }

  /** The number of credited answers. */
  function PracticalCorrect(index: map<QuestionId, PracticalQuestion>, answers: seq<PracticalAnswer>, judge: Judge): (c: nat)
    ensures c <= |answers|
  {
    if answers == [] then 0
    else
      var n := |answers| - 1;
      PracticalCorrect(index, answers[..n], judge) + AnswerPoint(index, answers[n], judge)
  }

  /** The percent the deferred check writes to the attempt. */
  function PracticalScore(qs: seq<PracticalQuestion>, answers: seq<PracticalAnswer>, judge: Judge): (p: nat)
    ensures |answers| <= |qs| ==> p <= 100
    ensures |qs| == 0 ==> p == 0
  {
    Percent(PracticalCorrect(PracticalIndex(qs), answers, judge), |qs|)
  }

  /** An answer to an unknown question, or whose run wrote error text or no output, adds nothing. */
  lemma SkippedAnswerAddsNothing(qs: seq<PracticalQuestion>, answers: seq<PracticalAnswer>, a: PracticalAnswer, judge: Judge)
    requires (forall q :: q in qs ==> q.id != a.questionId)
          || (forall q :: q in qs && q.id == a.questionId ==>
                Truthy(judge(a.answer, q.language).stderr) || !Truthy(judge(a.answer, q.language).stdout))
    ensures PracticalCorrect(PracticalIndex(qs), answers + [a], judge) == PracticalCorrect(PracticalIndex(qs), answers, judge)
  {
    var index := PracticalIndex(qs);
    assert (answers + [a])[..|answers|] == answers;
    if a.questionId in index {
      assert index[a.questionId] in qs;
    }
  }

  /** The judge of the three-question scenario below. */
  function ScenarioJudge(code: string, language: LanguageId): JudgeResponse
  {
    if code == "e" then JudgeResponse(None, Some("boom"), None)
    else if code == "p" then JudgeResponse(Some("2\n"), None, None)
    else JudgeResponse(Some("0"), None, None)
  }

  const ScenarioQuestions: seq<PracticalQuestion> :=
    [PracticalQuestion(1, "a", 71, "1", 0), PracticalQuestion(2, "b", 71, "2", 0), PracticalQuestion(3, "c", 71, "3", 0)]
  const ScenarioAnswers: seq<PracticalAnswer> :=
    [PracticalAnswer("e", 1), PracticalAnswer("p", 2), PracticalAnswer("w", 3)]

  /**
   * Three questions; the judge reports error text for the first answer,
   * the expected output for the second and a wrong output for the third:
   * one point out of three, a score of 33.
   */
  lemma ThreeQuestionScenario()
    ensures PracticalScore(ScenarioQuestions, ScenarioAnswers, ScenarioJudge) == 33
  {
    var index := ScenarioIndex();
    var a1, a2, a3 := ScenarioAnswers[0], ScenarioAnswers[1], ScenarioAnswers[2];
    ScenarioPoints(index);
    PracticalCorrectSnoc(index, [], a1, ScenarioJudge);
    assert [] + [a1] == [a1] && [a1] + [a2] == [a1, a2] && [a1, a2] + [a3] == ScenarioAnswers;
    PracticalCorrectSnoc(index, [a1], a2, ScenarioJudge);
    PracticalCorrectSnoc(index, [a1, a2], a3, ScenarioJudge);
    assert PracticalCorrect(index, ScenarioAnswers, ScenarioJudge) == 1;
    assert Percent(1, 3) == 33;
  }

  lemma ScenarioIndex() returns (index: map<QuestionId, PracticalQuestion>)
    ensures index == PracticalIndex(ScenarioQuestions)
    ensures index == map[1 := ScenarioQuestions[0]][2 := ScenarioQuestions[1]][3 := ScenarioQuestions[2]]
  {
    var qs := ScenarioQuestions;
    assert qs[..2] == [qs[0], qs[1]] && [qs[0], qs[1]][..1] == [qs[0]] && [qs[0]][..0] == [];
    index := PracticalIndex(qs);
  }

  lemma ScenarioPoints(index: map<QuestionId, PracticalQuestion>)
    requires index == map[1 := ScenarioQuestions[0]][2 := ScenarioQuestions[1]][3 := ScenarioQuestions[2]]
    ensures AnswerPoint(index, ScenarioAnswers[0], ScenarioJudge) == 0
    ensures AnswerPoint(index, ScenarioAnswers[1], ScenarioJudge) == 1
    ensures AnswerPoint(index, ScenarioAnswers[2], ScenarioJudge) == 0
  {
    assert ScenarioJudge("e", 71).stderr == Some("boom");
    assert ScenarioJudge("p", 71) == JudgeResponse(Some("2\n"), None, None) by {
      assert "p"[0] != "e"[0];
    }
    assert OutputMatches("2\n", "2") by {
      assert "2\n"[1..] == "\n" && "\n"[1..] == [];
      StripNewlinesNoop("2");
    }
    assert ScenarioJudge("w", 71) == JudgeResponse(Some("0"), None, None) by {
      assert "w"[0] != "e"[0] && "w"[0] != "p"[0];
    }
    assert !OutputMatches("0", "3") by {
      StripNewlinesNoop("0");
      StripNewlinesNoop("3");
      assert "0"[0] != "3"[0];
    }
  }

  /** Counting one more answer adds that answer's point. */
  lemma PracticalCorrectSnoc(index: map<QuestionId, PracticalQuestion>, answers: seq<PracticalAnswer>, a: PracticalAnswer, judge: Judge)
    ensures PracticalCorrect(index, answers + [a], judge) == PracticalCorrect(index, answers, judge) + AnswerPoint(index, a, judge)
  {
    assert (answers + [a])[..|answers|] == answers;
  }

  /**
   * The deferred check's grading: builds the question lookup, asks the
   * judge about every answer to a known question and counts the credited
   * ones, then turns the count into a percent.
   */
  method GradePractical(questions: seq<PracticalQuestion>, answers: seq<PracticalAnswer>, judge: Judge) returns (percent: nat)
    ensures percent == PracticalScore(questions, answers, judge)
  {
    var index: map<QuestionId, PracticalQuestion> := map[];
    var i := 0;
    while i < |questions|
      invariant 0 <= i <= |questions|
      invariant index == PracticalIndex(questions[..i])
    {
      assert questions[..i + 1][..i] == questions[..i];
      index := index[questions[i].id := questions[i]];
      i := i + 1;
    }
    assert questions[..i] == questions;
    var correct := 0;
    i := 0;
    while i < |answers|
      invariant 0 <= i <= |answers|
      invariant correct == PracticalCorrect(index, answers[..i], judge)
    {
      var answer := answers[i];
      assert answers[..i + 1][..i] == answers[..i];
      if answer.questionId in index {
        var question := index[answer.questionId];
        var resp := judge(answer.answer, question.language);
        if !Truthy(resp.stderr) && Truthy(resp.stdout) {
          if StripNewlines(resp.stdout.value) == StripNewlines(question.answer) {
            correct := correct + 1;
          }
        }
      }
      i := i + 1;
    }
    assert answers[..i] == answers;
    percent := Percent(correct, |questions|);
  }

  // ---------------------------------------------------------------------
  // Starting a theoretical test

  datatype OptionView = OptionView(id: OptionId, content: string, isCorrect: Option<bool>, questionId: QuestionId)
  datatype QuestionView = QuestionView(id: QuestionId, content: string, testingId: TestingId, options: seq<OptionView>)

  function OptionViewOf(o: AnswerOption): OptionView
  {
    OptionView(o.id, o.content, Some(o.isCorrect), o.questionId)
  }

  /** A question as the response model first reads it, answer keys included. */
  function ViewOf(q: FullQuestion): (v: QuestionView)
    ensures |v.options| == |q.options|
  {
    QuestionView(q.question.id, q.question.content, q.question.testingId,
      seq(|q.options|, i requires 0 <= i < |q.options| => OptionViewOf(q.options[i])))
  }

  /** `v` shows `q` and its options in order, with no option's answer key. */
  predicate Conceals(v: QuestionView, q: FullQuestion)
  {
    && v.id == q.question.id && v.content == q.question.content && v.testingId == q.question.testingId
    && |v.options| == |q.options|
    && forall j :: 0 <= j < |v.options| ==>
         v.options[j] == OptionView(q.options[j].id, q.options[j].content, None, q.options[j].questionId)
  }

  /** Reads each question into its response model and clears every option's answer key in place. */
  method StripAnswerKeys(questions: seq<FullQuestion>) returns (views: seq<QuestionView>)
    ensures |views| == |questions|
    ensures forall k :: 0 <= k < |views| ==> Conceals(views[k], questions[k])
    ensures forall k, j :: 0 <= k < |views| && 0 <= j < |views[k].options| ==> views[k].options[j].isCorrect.None?
  {
    views := [];
    for k := 0 to |questions|
      invariant |views| == k
      invariant forall i :: 0 <= i < k ==> Conceals(views[i], questions[i])
    {
      var model := ViewOf(questions[k]);
      var options := model.options;
      for j := 0 to |options|
        invariant |options| == |model.options|
        invariant forall i :: 0 <= i < j ==> options[i] == model.options[i].(isCorrect := None)
        invariant forall i :: j <= i < |options| ==> options[i] == model.options[i]
      {
        options := options[j := options[j].(isCorrect := None)];
      }
      views := views + [model.(options := options)];
    }
  }

  // ---------------------------------------------------------------------
  // Running a program

  datatype ProgramResult = ProgramResult(isCorrect: bool, stdout: Option<string>, stderr: Option<string>, serviceMessage: Option<string>)

  /**
   * `execute_program`: runs the code once and judges it. With an expected
   * answer and some output, correct iff the output matches the answer;
   * otherwise correct iff the run wrote some output. Error text alone does
   * not decide.
   */
  function ExecuteProgram(code: string, language: LanguageId, answer: Option<string>, judge: Judge): (r: ProgramResult)
    ensures r.stdout == judge(code, language).stdout && r.stderr == judge(code, language).stderr
    ensures r.serviceMessage == judge(code, language).status
    ensures answer.Some? && r.stdout.Some? ==> (r.isCorrect <==> OutputMatches(r.stdout.value, answer.value))
    ensures answer.None? || r.stdout.None? ==> (r.isCorrect <==> Truthy(r.stdout))
  {
    var resp := judge(code, language);
    var isCorrect := false;
    var isCorrect := if Truthy(resp.stderr) then false else isCorrect;
    var isCorrect := if Truthy(resp.stdout) then true else isCorrect;
    var isCorrect := if answer.Some? && resp.stdout.Some? then OutputMatches(resp.stdout.value, answer.value) else isCorrect;
    ProgramResult(isCorrect, resp.stdout, resp.stderr, resp.status)
  }

  /**
   * On a run without error text and with output, `execute_program` with
   * the question's answer agrees with the grading's verdict.
   */
  lemma ExecuteAgreesWithGrading(q: PracticalQuestion, code: string, judge: Judge)
    requires !Truthy(judge(code, q.language).stderr) && Truthy(judge(code, q.language).stdout)
    ensures ExecuteProgram(code, q.language, Some(q.answer), judge).isCorrect == Credited(q, judge(code, q.language))
  {
  }

  /** A run that wrote error text and the expected output is correct for `execute_program` but earns no point. */
  lemma ErrorTextOnlyMattersToGrading(q: PracticalQuestion, code: string, judge: Judge)
    requires Truthy(judge(code, q.language).stderr) && judge(code, q.language).stdout == Some(q.answer)
    ensures ExecuteProgram(code, q.language, Some(q.answer), judge).isCorrect
    ensures !Credited(q, judge(code, q.language))
  {
  }
}
