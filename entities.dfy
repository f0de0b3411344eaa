/**
 * Records stored by the repositories (the table rows), and how a
 * repository lists a table. Identifiers are natural numbers; a repository
 * lists rows in ascending identifier order, which stands for ORDER BY id.
 */
module Entities {
  import opened Common

  type VacancyId = nat
  type TestingId = nat
  type QuestionId = nat
  type OptionId = nat
  type AttemptId = nat
  type FileId = nat
  type UserId = nat
  /** The judge's numeric language identifier. */
  type LanguageId = nat

  /** `timedelta(days = d)` is d * 86400 seconds; times are seconds. */
  const SecondsPerDay: int := 86400
  /** Rows a repository `get_all` returns when its caller gives no limit. */
  const DefaultRowLimit: nat := 100

  datatype VacancyState = Closed | Opened
  datatype VacancyType = Practice | Internship
  datatype TestType = Theoretical | Practical

  /** A vacancy; `testTime` is the number of days a candidate has per test. */
  datatype Vacancy = Vacancy(
    id: VacancyId,
    title: string,
    content: string,
    poster: Option<FileId>,
    kind: VacancyType,
    state: VacancyState,
    testTime: int)

  /** A test of a vacancy; `correctPercent` is its pass threshold. */
  datatype Testing = Testing(
    id: TestingId,
    title: string,
    content: string,
    kind: TestType,
    correctPercent: int,
    vacancyId: VacancyId)

  /** A practical question; `answer` is the expected program output. */
  datatype PracticalQuestion = PracticalQuestion(
    id: QuestionId,
    content: string,
    language: LanguageId,
    answer: string,
    testingId: TestingId)

  datatype TheoreticalQuestion = TheoreticalQuestion(
    id: QuestionId,
    content: string,
    testingId: TestingId)

  datatype AnswerOption = AnswerOption(
    id: OptionId,
    content: string,
    isCorrect: bool,
    questionId: QuestionId)

  /** A theoretical question loaded together with its answer options. */
  datatype FullQuestion = FullQuestion(question: TheoreticalQuestion, options: seq<AnswerOption>)

  /** One recorded attempt of a user at a test; `createdAt` in seconds. */
  datatype Attempt = Attempt(
    id: AttemptId,
    percent: int,
    userId: UserId,
    testId: TestingId,
    createdAt: int)

  /** An attachment of a vacancy; `isUploaded` turns true once confirmed. */
  datatype VacancyFile = VacancyFile(
    id: FileId,
    filename: string,
    vacancyId: VacancyId,
    contentType: string,
    isUploaded: bool)

  /**
   * The rows of `table` with key below `bound` that satisfy `keep`, in
   * ascending key order: a filtered `get_all` ordered by id.
   */
  function ListById<T(==)>(table: map<nat, T>, keep: T -> bool, bound: nat): (r: seq<T>)
    ensures |r| <= bound
    ensures forall x :: x in r ==> keep(x) && x in table.Values
    ensures forall k :: 0 <= k < bound && k in table && keep(table[k]) ==> table[k] in r
  {
    if bound == 0 then []
    else
      var k := bound - 1;
      ListById(table, keep, k) + (if k in table && keep(table[k]) then [table[k]] else [])
  }

  /** Listing below `bound` only looks at the keys below `bound`. */
  lemma {:induction false} ListByIdAgree<T>(t1: map<nat, T>, t2: map<nat, T>, keep: T -> bool, bound: nat)
    requires forall k :: 0 <= k < bound ==> (k in t1 <==> k in t2) && (k in t1 ==> t1[k] == t2[k])
    ensures ListById(t1, keep, bound) == ListById(t2, keep, bound)
  {
    if bound > 0 {
      ListByIdAgree(t1, t2, keep, bound - 1);
    }
  }

  /** A listing of a table none of whose rows is kept is empty. */
  lemma ListByIdNone<T>(table: map<nat, T>, keep: T -> bool, bound: nat)
    requires forall x :: x in table.Values ==> !keep(x)
    ensures ListById(table, keep, bound) == []
  {
  }

  /** The first `n` elements of `s` (SQL LIMIT n). */
  function Take<T>(s: seq<T>, n: nat): (r: seq<T>)
    ensures |r| <= n && |r| <= |s|
    ensures r == s[..|r|]
    ensures |s| <= n ==> r == s
  {
    if |s| <= n then s else s[..n]
  }

  /** The rows of `s` after the first `offset`, at most `limit` of them (SQL OFFSET and LIMIT). */
  function Page<T>(s: seq<T>, offset: nat, limit: nat): (r: seq<T>)
    ensures |r| <= limit
    ensures forall x :: x in r ==> x in s
    ensures offset + limit <= |s| ==> r == s[offset..offset + limit]
    ensures offset <= |s| < offset + limit ==> r == s[offset..]
    ensures |s| <= offset ==> r == []
  {
    var rest := if offset <= |s| then s[offset..] else [];
    assert forall x :: x in rest ==> x in s;
    Take(rest, limit)
  }

  /** Two adjacent pages read together the rows of one page as long as both. */
  lemma PageConcat<T>(s: seq<T>, offset: nat, n: nat, m: nat)
    ensures Page(s, offset, n) + Page(s, offset + n, m) == Page(s, offset, n + m)
  {
    if offset + n <= |s| {
      var rest := s[offset..];
      assert s[offset + n..] == rest[n..];
      if n + m <= |rest| {
        assert rest[..n] + rest[n..][..m] == rest[..n + m];
      } else {
        assert rest[..n] + rest[n..] == rest;
      }
    } else if offset <= |s| {
      assert Page(s, offset + n, m) == [];
    }
  }
}
