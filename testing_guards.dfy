/**
 * The checks the testing service runs before it touches anything: the
 * chain shared by starting and completing a test (including the attempt
 * deadline), and the shorter chains of the management operations.
 */
module TestingGuards {
  import opened Common
  import opened Entities
  import opened AttemptRepo

  /** The last second at which a user whose first attempt is `first` may still work on a test of `v`. */
  function Deadline(first: Attempt, v: Vacancy): (r: int)
    ensures r % SecondsPerDay == first.createdAt % SecondsPerDay
    ensures v.testTime >= 0 ==> r >= first.createdAt
    ensures v.testTime > 0 ==> r >= first.createdAt + SecondsPerDay
  {
    first.createdAt + v.testTime * SecondsPerDay
  }

  /** The user's window on the test is over: a first attempt exists and `now` is past its deadline. */
  predicate Expired(attempts: seq<Attempt>, user: UserId, test: TestingId, v: Vacancy, now: int): (r: bool)
    ensures r ==> exists a :: a in attempts && a.userId == user && a.testId == test && now > Deadline(a, v)
    ensures (forall a :: a in attempts ==> !(a.userId == user && a.testId == test)) ==> !r
  {
    var first := GetFirst(attempts, user, test);
    first.Some? && now > Deadline(first.value, v)
  }

  /**
   * The guard of start and complete, in its order: testing missing is
   * NotFound, wrong test type BadRequest, vacancy missing NotFound, vacancy
   * not opened BadRequest, window over BadRequest. On success, the testing
   * and its vacancy.
   */
  function AttemptGuard(testings: map<TestingId, Testing>, vacancies: map<VacancyId, Vacancy>, attempts: seq<Attempt>,
                        user: UserId, testingId: TestingId, kind: TestType, now: int): (r: Result<(Testing, Vacancy)>)
    ensures testingId !in testings ==> r == Err(NotFound)
    ensures testingId in testings && testings[testingId].kind != kind ==> r == Err(BadRequest)
    ensures testingId in testings && testings[testingId].kind == kind && testings[testingId].vacancyId !in vacancies ==> r == Err(NotFound)
    ensures testingId in testings && testings[testingId].kind == kind && testings[testingId].vacancyId in vacancies ==>
      var v := vacancies[testings[testingId].vacancyId];
      && (v.state != Opened ==> r == Err(BadRequest))
      && (v.state == Opened && Expired(attempts, user, testingId, v, now) ==> r == Err(BadRequest))
      && (v.state == Opened && !Expired(attempts, user, testingId, v, now) ==> r == Ok((testings[testingId], v)))
  {
    if testingId !in testings then Err(NotFound)
    else
      var t := testings[testingId];
      if t.kind != kind then Err(BadRequest)
      else if t.vacancyId !in vacancies then Err(NotFound)
      else
        var v := vacancies[t.vacancyId];
        if v.state != Opened then Err(BadRequest)
        else if Expired(attempts, user, testingId, v, now) then Err(BadRequest)
        else Ok((t, v))
  }

  /**
   * The window is over iff some attempt of the user at the test is more
   * than the vacancy's test time old: the first attempt decides.
   */
  lemma ExpiredIffSomeAttemptTooOld(attempts: seq<Attempt>, user: UserId, test: TestingId, v: Vacancy, now: int)
    ensures Expired(attempts, user, test, v, now) <==>
      exists a :: a in attempts && a.userId == user && a.testId == test && now > a.createdAt + v.testTime * SecondsPerDay
  {
    var first := GetFirst(attempts, user, test);
    if first.Some? && now > Deadline(first.value, v) {
      assert first.value in attempts;
    }
  }

  /** With no earlier attempt there is no time check: the outcome does not depend on the clock. */
  lemma NoAttemptNoTimeCheck(testings: map<TestingId, Testing>, vacancies: map<VacancyId, Vacancy>, attempts: seq<Attempt>,
                             user: UserId, testingId: TestingId, kind: TestType, now: int, later: int)
    requires forall a :: a in attempts ==> !(a.userId == user && a.testId == testingId)
    ensures AttemptGuard(testings, vacancies, attempts, user, testingId, kind, now)
         == AttemptGuard(testings, vacancies, attempts, user, testingId, kind, later)
  {
    assert GetFirst(attempts, user, testingId).None?;
  }

  /**
   * The window of a first attempt made at `t0` on a vacancy whose test
   * time is `d` days includes its last second `t0 + d * 86400` and ends
   * right after it, whatever later attempts there are.
   */
  lemma DeadlineInclusive(testings: map<TestingId, Testing>, vacancies: map<VacancyId, Vacancy>, attempts: seq<Attempt>,
                          user: UserId, testingId: TestingId, kind: TestType, first: Attempt)
    requires first in attempts && first.userId == user && first.testId == testingId
    requires forall a :: a in attempts && a.userId == user && a.testId == testingId ==> first.createdAt <= a.createdAt
    requires testingId in testings && testings[testingId].kind == kind
    requires testings[testingId].vacancyId in vacancies && vacancies[testings[testingId].vacancyId].state == Opened
    ensures var d := Deadline(first, vacancies[testings[testingId].vacancyId]);
      && AttemptGuard(testings, vacancies, attempts, user, testingId, kind, d).Ok?
      && AttemptGuard(testings, vacancies, attempts, user, testingId, kind, d + 1) == Err(BadRequest)
  {
    var v := vacancies[testings[testingId].vacancyId];
    var f := GetFirst(attempts, user, testingId);
    assert f.Some?;
    assert f.value.createdAt == first.createdAt;
  }

  /**
   * A vacancy with a one-day test time, and a first attempt on day 0: a
   * new start on day 1 at the same time of day still passes, one on day 2
   * fails with BadRequest.
   */
  lemma OneDayWindow(testings: map<TestingId, Testing>, vacancies: map<VacancyId, Vacancy>, user: UserId,
                     testingId: TestingId, kind: TestType, t0: int)
    requires testingId in testings && testings[testingId].kind == kind
    requires testings[testingId].vacancyId in vacancies
    requires vacancies[testings[testingId].vacancyId].state == Opened && vacancies[testings[testingId].vacancyId].testTime == 1
    ensures var attempts := [Attempt(0, 100, user, testingId, t0)];
      && AttemptGuard(testings, vacancies, attempts, user, testingId, kind, t0 + SecondsPerDay).Ok?
      && AttemptGuard(testings, vacancies, attempts, user, testingId, kind, t0 + 2 * SecondsPerDay) == Err(BadRequest)
  {
    var attempts := [Attempt(0, 100, user, testingId, t0)];
    assert attempts[1..] == [];
    assert GetFirst(attempts, user, testingId) == Some(attempts[0]);
  }

  /**
   * The guard of update, delete and get of a testing: testing missing is
   * NotFound, vacancy missing NotFound, vacancy not opened BadRequest. The
   * test type is not looked at.
   */
  function OpenTestingGuard(testings: map<TestingId, Testing>, vacancies: map<VacancyId, Vacancy>, testingId: TestingId): (r: Result<Testing>)
    ensures r.Ok? <==> testingId in testings && testings[testingId].vacancyId in vacancies
                       && vacancies[testings[testingId].vacancyId].state == Opened
    ensures r.Ok? ==> r.value == testings[testingId]
    ensures r.Err? ==> r.error == (if testingId in testings && testings[testingId].vacancyId in vacancies then BadRequest else NotFound)
  {
    if testingId !in testings then Err(NotFound)
    else
      var t := testings[testingId];
      if t.vacancyId !in vacancies then Err(NotFound)
      else if vacancies[t.vacancyId].state != Opened then Err(BadRequest)
      else Ok(t)
  }

  /**
   * The guard of creating a question: the open-testing guard first, then
   * the test type (BadRequest when it is not the question's kind).
   */
  function QuestionCreateGuard(testings: map<TestingId, Testing>, vacancies: map<VacancyId, Vacancy>, testingId: TestingId, kind: TestType): (r: Result<Testing>)
    ensures OpenTestingGuard(testings, vacancies, testingId).Err? ==> r == OpenTestingGuard(testings, vacancies, testingId)
    ensures OpenTestingGuard(testings, vacancies, testingId).Ok? ==>
      r == if testings[testingId].kind == kind then Ok(testings[testingId]) else Err(BadRequest)
  {
    var g := OpenTestingGuard(testings, vacancies, testingId);
    if g.Err? then g
    else if g.value.kind != kind then Err(BadRequest)
    else g
  }

  /** The guard of creating a testing: the vacancy must exist, opened or not. */
  function CreateTestingGuard(vacancies: map<VacancyId, Vacancy>, vacancyId: VacancyId): (r: Result<Vacancy>)
    ensures r.Ok? <==> vacancyId in vacancies
    ensures r.Ok? ==> r.value == vacancies[vacancyId]
    ensures r.Err? ==> r.error == NotFound
  {
    if vacancyId !in vacancies then Err(NotFound) else Ok(vacancies[vacancyId])
  }

  /** Whatever start or complete lets through, the management guard lets through too. */
  lemma AttemptGuardImpliesOpen(testings: map<TestingId, Testing>, vacancies: map<VacancyId, Vacancy>, attempts: seq<Attempt>,
                                user: UserId, testingId: TestingId, kind: TestType, now: int)
    requires AttemptGuard(testings, vacancies, attempts, user, testingId, kind, now).Ok?
    ensures QuestionCreateGuard(testings, vacancies, testingId, kind).Ok?
    ensures AttemptGuard(testings, vacancies, attempts, user, testingId, kind, now).value.0 == QuestionCreateGuard(testings, vacancies, testingId, kind).value
  {
  }

  /**
   * The two chains test the type at different points: a testing of the
   * wrong kind whose vacancy is gone is BadRequest for start and complete,
   * NotFound for creating a question.
   */
  lemma TypeCheckedAtDifferentPoints(testings: map<TestingId, Testing>, vacancies: map<VacancyId, Vacancy>, attempts: seq<Attempt>,
                                     user: UserId, testingId: TestingId, kind: TestType, now: int)
    requires testingId in testings && testings[testingId].kind != kind && testings[testingId].vacancyId !in vacancies
    ensures AttemptGuard(testings, vacancies, attempts, user, testingId, kind, now) == Err(BadRequest)
    ensures QuestionCreateGuard(testings, vacancies, testingId, kind) == Err(NotFound)
  {
  }

  /** A testing can be created under a closed vacancy, but then neither read, changed nor removed. */
  lemma ClosedVacancyAcceptsNewTestings(testings: map<TestingId, Testing>, vacancies: map<VacancyId, Vacancy>, testingId: TestingId)
    requires testingId in testings && testings[testingId].vacancyId in vacancies
    requires vacancies[testings[testingId].vacancyId].state == Closed
    ensures CreateTestingGuard(vacancies, testings[testingId].vacancyId).Ok?
    ensures OpenTestingGuard(testings, vacancies, testingId) == Err(BadRequest)
  {
  }
}
