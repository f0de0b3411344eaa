/**
 * Input validation of a testing's create and update payloads. A payload's
 * validation yields the fields that fail, in field order; it is accepted
 * when none does. An update field that is None was not sent, and its
 * validator does not run.
 */
module TestingSchemas {
  import opened Common
  import opened Entities

  const TitleMaxLength: nat := 255
  const ContentMaxLength: nat := 32000

  datatype Field = Title | Content | CorrectPercent

  datatype TestingCreate = TestingCreate(title: string, content: string, kind: TestType, correctPercent: int)

  datatype TestingUpdate = TestingUpdate(
    title: Option<string>,
    content: Option<string>,
    kind: Option<TestType>,
    correctPercent: Option<int>)

  /** The fields of a create payload that its validators reject. */
  function CreateErrors(d: TestingCreate): (r: seq<Field>)
    ensures Title in r <==> |d.title| > TitleMaxLength
    ensures Content in r <==> |d.content| > ContentMaxLength
    ensures CorrectPercent in r <==> !(0 <= d.correctPercent <= 100)
    ensures r == [] <==> |d.title| <= TitleMaxLength && |d.content| <= ContentMaxLength && 0 <= d.correctPercent <= 100
  {
    (if |d.title| > TitleMaxLength then [Title] else [])
    + (if |d.content| > ContentMaxLength then [Content] else [])
    + (if d.correctPercent < 0 || d.correctPercent > 100 then [CorrectPercent] else [])
  }

  /** Python truthiness of an optional integer: None and 0 are falsy. */
  predicate TruthyInt(v: Option<int>)
  {
    v.Some? && v.value != 0
  }

  /** The fields of an update payload that its validators reject; falsy values skip the check. */
  function UpdateErrors(d: TestingUpdate): (r: seq<Field>)
    ensures Title in r <==> d.title.Some? && |d.title.value| > TitleMaxLength
    ensures Content in r <==> d.content.Some? && |d.content.value| > ContentMaxLength
    ensures CorrectPercent in r <==> d.correctPercent.Some? && !(0 <= d.correctPercent.value <= 100)
    ensures d.title.None? && d.content.None? && d.correctPercent.None? ==> r == []
    ensures d.title == Some([]) ==> Title !in r
    ensures d.correctPercent == Some(0) ==> CorrectPercent !in r
  {
    (if Truthy(d.title) && |d.title.value| > TitleMaxLength then [Title] else [])
    + (if Truthy(d.content) && |d.content.value| > ContentMaxLength then [Content] else [])
    + (if TruthyInt(d.correctPercent) && (d.correctPercent.value < 0 || d.correctPercent.value > 100)
       then [CorrectPercent] else [])
  }

  /** A title of exactly the limit passes and one character more fails. */
  lemma TitleLimitInclusive(d: TestingCreate)
    ensures |d.title| == TitleMaxLength ==> Title !in CreateErrors(d)
    ensures |d.title| == TitleMaxLength + 1 ==> Title in CreateErrors(d)
  {
  }

  /**
   * Skipping falsy values changes nothing: on every field an update sends,
   * it fails exactly when the create validator fails on that value.
   */
  lemma UpdateAgreesWithCreate(d: TestingUpdate, c: TestingCreate)
    requires d.title == Some(c.title) && d.content == Some(c.content) && d.correctPercent == Some(c.correctPercent)
    ensures UpdateErrors(d) == CreateErrors(c)
  {
  }

  /** A sent pass threshold is accepted by an update iff it lies in 0..100. */
  lemma UpdatePercentRange(d: TestingUpdate)
    requires d.correctPercent.Some?
    ensures CorrectPercent !in UpdateErrors(d) <==> 0 <= d.correctPercent.value <= 100
  {
  }
}
