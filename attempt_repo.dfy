/**
 * The attempt repository's queries, over the attempts table held as a
 * sequence of rows in storage order.
 */
module AttemptRepo {
  import opened Common
  import opened Entities

  /** The keyword filters of `get_all`: every given column must be equal. */
  datatype AttemptFilter = AttemptFilter(
    id: Option<AttemptId>,
    percent: Option<int>,
    userId: Option<UserId>,
    testId: Option<TestingId>)

  /** The column a query is ordered by. */
  datatype AttemptOrder = ById | ByPercent | ByCreatedAt

  /** `filter_by(**kwargs)` on one row: every given keyword equals its column. */
  predicate Matches(a: Attempt, f: AttemptFilter): (r: bool)
    ensures f == AttemptFilter(None, None, None, None) ==> r
    ensures f == AttemptFilter(Some(a.id), Some(a.percent), Some(a.userId), Some(a.testId)) ==> r
    ensures f.userId.Some? && f.userId.value != a.userId ==> !r
    ensures f.testId.Some? && f.testId.value != a.testId ==> !r
  {
    && (f.id.Some? ==> a.id == f.id.value)
    && (f.percent.Some? ==> a.percent == f.percent.value)
    && (f.userId.Some? ==> a.userId == f.userId.value)
    && (f.testId.Some? ==> a.testId == f.testId.value)
  }

  /** The filter `filter_by(user_id = user, test_id = test)`. */
  function UserTestFilter(user: UserId, test: TestingId): AttemptFilter
  {
    AttemptFilter(None, None, Some(user), Some(test))
  }

  function Key(a: Attempt, o: AttemptOrder): int
  {
    match o
    case ById => a.id
    case ByPercent => a.percent
    case ByCreatedAt => a.createdAt
  }

  predicate SortedBy(s: seq<Attempt>, o: AttemptOrder)
  {
    forall i, j :: 0 <= i < j < |s| ==> Key(s[i], o) <= Key(s[j], o)
  }

  /** The rows of `attempts` that match `f`, in storage order. */
  function Matching(attempts: seq<Attempt>, f: AttemptFilter): (r: seq<Attempt>)
    ensures |r| <= |attempts|
    ensures forall a :: a in r <==> a in attempts && Matches(a, f)
  {
    if attempts == [] then []
    else (if Matches(attempts[0], f) then [attempts[0]] else []) + Matching(attempts[1..], f)
  }

  /** Puts `x` before the first element of `s` whose key is not smaller. */
  function Insert(x: Attempt, s: seq<Attempt>, o: AttemptOrder): (r: seq<Attempt>)
    ensures multiset(r) == multiset(s) + multiset{x}
    ensures forall y :: y in r ==> y == x || y in s
  {
    if s == [] then [x]
    else if Key(x, o) <= Key(s[0], o) then [x] + s
    else
      assert s == [s[0]] + s[1..];
      [s[0]] + Insert(x, s[1..], o)
  }

  lemma ConsSorted(h: Attempt, t: seq<Attempt>, o: AttemptOrder)
    requires SortedBy(t, o)
    requires forall y :: y in t ==> Key(h, o) <= Key(y, o)
    ensures SortedBy([h] + t, o)
  {
    var r := [h] + t;
    forall i, j | 0 <= i < j < |r|
      ensures Key(r[i], o) <= Key(r[j], o)
    {
      assert r[j] == t[j - 1];
      if i > 0 {
        assert r[i] == t[i - 1];
      } else {
        assert t[j - 1] in t;
      }
    }
  }

  lemma {:induction false} InsertSorted(x: Attempt, s: seq<Attempt>, o: AttemptOrder)
    requires SortedBy(s, o)
    ensures SortedBy(Insert(x, s, o), o)
  {
    if s == [] {
    } else if Key(x, o) <= Key(s[0], o) {
      forall y | y in s
        ensures Key(x, o) <= Key(y, o)
      {
        var j :| 0 <= j < |s| && s[j] == y;
        if j > 0 { assert Key(s[0], o) <= Key(s[j], o); }
      }
      ConsSorted(x, s, o);
    } else {
      var tail := s[1..];
      assert SortedBy(tail, o) by {
        forall i, j | 0 <= i < j < |tail|
          ensures Key(tail[i], o) <= Key(tail[j], o)
        {
          assert tail[i] == s[i + 1] && tail[j] == s[j + 1];
        }
      }
      InsertSorted(x, tail, o);
      var rest := Insert(x, tail, o);
      forall y | y in rest
        ensures Key(s[0], o) <= Key(y, o)
      {
        if y != x {
          var j :| 0 <= j < |tail| && tail[j] == y;
          assert s[j + 1] == y;
        }
      }
      ConsSorted(s[0], rest, o);
    }
  }

  /** Insertion sort by the key of `o`; rows with equal keys keep storage order. */
  function SortBy(s: seq<Attempt>, o: AttemptOrder): (r: seq<Attempt>)
    ensures multiset(r) == multiset(s)
  {
    if s == [] then []
    else
      assert s == [s[0]] + s[1..];
      Insert(s[0], SortBy(s[1..], o), o)
  }

  lemma {:induction false} SortBySorted(s: seq<Attempt>, o: AttemptOrder)
    ensures SortedBy(SortBy(s, o), o)
  {
    if s != [] {
      SortBySorted(s[1..], o);
      InsertSorted(s[0], SortBy(s[1..], o), o);
    }
  }

  /** The rows of `attempts` that match `f`, sorted by the order column. */
  function SortedMatches(attempts: seq<Attempt>, f: AttemptFilter, o: AttemptOrder): (r: seq<Attempt>)
    ensures |r| == |Matching(attempts, f)|
    ensures forall a :: a in r <==> a in attempts && Matches(a, f)
    ensures SortedBy(r, o)
  {
    var m := Matching(attempts, f);
    var r := SortBy(m, o);
    SortBySorted(m, o);
    assert |r| == |multiset(r)| == |multiset(m)| == |m|;
    assert forall a :: a in r <==> a in multiset(r);
    assert forall a :: a in m <==> a in multiset(m);
    r
  }

  /**
   * `get_all(limit, offset, order_by, **filters)`: the matching rows sorted
   * by the order column, the first `offset` of them skipped, at most `limit`
   * of the rest.
   */
  function GetAll(attempts: seq<Attempt>, f: AttemptFilter, o: AttemptOrder, offset: nat, limit: nat): (r: seq<Attempt>)
    ensures |r| <= limit
    ensures forall a :: a in r ==> a in attempts && Matches(a, f)
    ensures SortedBy(r, o)
    ensures offset + limit <= |Matching(attempts, f)| ==> r == SortedMatches(attempts, f, o)[offset..offset + limit]
    ensures offset <= |Matching(attempts, f)| < offset + limit ==> r == SortedMatches(attempts, f, o)[offset..]
    ensures |Matching(attempts, f)| <= offset ==> r == []
  {
    var sorted := SortedMatches(attempts, f, o);
    var r := Page(sorted, offset, limit);
    assert SortedBy(r, o) by {
      var rest := if offset <= |sorted| then sorted[offset..] else [];
      assert r == rest[..|r|];
    }
    r
  }

  /**
   * `get_first(user_id, test_id)`: a matching attempt with the earliest
   * `createdAt` (the first such in storage order), or None when none matches.
   */
  function GetFirst(attempts: seq<Attempt>, user: UserId, test: TestingId): (r: Option<Attempt>)
    ensures r.Some? ==> r.value in attempts && r.value.userId == user && r.value.testId == test
    ensures r.Some? ==> forall a :: a in attempts && a.userId == user && a.testId == test ==> r.value.createdAt <= a.createdAt
    ensures r.None? <==> forall a :: a in attempts ==> !(a.userId == user && a.testId == test)
  {
    if attempts == [] then None
    else
      var rest := GetFirst(attempts[1..], user, test);
      var a := attempts[0];
      assert forall b :: b in attempts ==> b == a || b in attempts[1..];
      if a.userId == user && a.testId == test && (rest.None? || a.createdAt <= rest.value.createdAt) then Some(a)
      else rest
  }

  lemma {:induction false} NothingMatches(attempts: seq<Attempt>, f: AttemptFilter)
    requires forall a :: a in attempts ==> !Matches(a, f)
    ensures Matching(attempts, f) == []
  {
    if attempts != [] {
      assert forall a :: a in attempts[1..] ==> a in attempts;
      NothingMatches(attempts[1..], f);
    }
  }

  /**
   * `get_first` agrees with `get_all` ordered by `created_at` and limited to
   * one row: both are empty together, and otherwise they pick attempts with
   * the same `createdAt`.
   */
  lemma {:induction false} GetFirstIsFirstPage(attempts: seq<Attempt>, user: UserId, test: TestingId)
    ensures var page := GetAll(attempts, UserTestFilter(user, test), ByCreatedAt, 0, 1);
      && (GetFirst(attempts, user, test).None? <==> page == [])
      && (page != [] ==> GetFirst(attempts, user, test).value.createdAt == page[0].createdAt)
  {
    var f := UserTestFilter(user, test);
    var sorted := SortedMatches(attempts, f, ByCreatedAt);
    var page := GetAll(attempts, f, ByCreatedAt, 0, 1);
    assert page == Take(sorted, 1);
    var first := GetFirst(attempts, user, test);
    if first.Some? {
      assert first.value in sorted;
      assert page == [sorted[0]];
      var j :| 0 <= j < |sorted| && sorted[j] == first.value;
      if j > 0 { assert Key(sorted[0], ByCreatedAt) <= Key(sorted[j], ByCreatedAt); }
      assert sorted[0] in sorted;
    } else {
      NothingMatches(attempts, f);
    }
  }

  /** Reading `n` rows from `offset` and then `m` rows after them reads the same rows as `n + m` at once. */
  lemma ConsecutivePages(attempts: seq<Attempt>, f: AttemptFilter, o: AttemptOrder, offset: nat, n: nat, m: nat)
    ensures GetAll(attempts, f, o, offset, n) + GetAll(attempts, f, o, offset + n, m)
         == GetAll(attempts, f, o, offset, n + m)
  {
    PageConcat(SortedMatches(attempts, f, o), offset, n, m);
  }
}
