/**
 * Input validation of a vacancy's create and update payloads. Each
 * validator raises the first condition it finds, so a field contributes at
 * most one error; errors are listed in field order.
 */
module VacancySchemas {
  import opened Common
  import opened Entities

  const TitleMaxLength: nat := 255
  const ContentMaxLength: nat := 32000

  datatype FieldError = EmptyTitle | LongTitle | EmptyContent | LongContent | NegativeTestTime

  datatype VacancyCreate = VacancyCreate(
    title: string,
    content: string,
    kind: VacancyType,
    state: VacancyState,
    testTime: int)

  /** The update payload has no test_time field; one sent anyway is ignored. */
  datatype VacancyUpdate = VacancyUpdate(
    title: Option<string>,
    content: Option<string>,
    state: Option<VacancyState>,
    kind: Option<VacancyType>)

  function CreateErrors(d: VacancyCreate): (r: seq<FieldError>)
    ensures r == [] <==> 0 < |d.title| <= TitleMaxLength && 0 < |d.content| <= ContentMaxLength && d.testTime >= 0
    ensures EmptyTitle in r <==> d.title == []
    ensures LongContent in r <==> |d.content| > ContentMaxLength
    ensures !(EmptyTitle in r && LongTitle in r) && !(EmptyContent in r && LongContent in r)
  {
    (if d.title == [] then [EmptyTitle] else if |d.title| > TitleMaxLength then [LongTitle] else [])
    + (if d.content == [] then [EmptyContent] else if |d.content| > ContentMaxLength then [LongContent] else [])
    + (if d.testTime < 0 then [NegativeTestTime] else [])
  }

  function UpdateErrors(d: VacancyUpdate): (r: seq<FieldError>)
    ensures r == [] <==>
      && (d.title.None? || |d.title.value| <= TitleMaxLength)
      && (d.content.None? || |d.content.value| <= ContentMaxLength)
    ensures EmptyTitle !in r && EmptyContent !in r && NegativeTestTime !in r
  {
    (if Truthy(d.title) && |d.title.value| > TitleMaxLength then [LongTitle] else [])
    + (if Truthy(d.content) && |d.content.value| > ContentMaxLength then [LongContent] else [])
  }

  /** A zero test time is allowed at creation; any negative one is rejected. */
  lemma TestTimeZeroAllowed(d: VacancyCreate)
    ensures NegativeTestTime in CreateErrors(d) <==> d.testTime < 0
  {
  }

  /** An update may blank a title and content that a create would reject. */
  lemma UpdateAcceptsEmpty(d: VacancyCreate)
    requires d.title == [] && d.content == []
    ensures UpdateErrors(VacancyUpdate(Some(d.title), Some(d.content), Some(d.state), Some(d.kind))) == []
    ensures EmptyTitle in CreateErrors(d) && EmptyContent in CreateErrors(d)
  {
  }

  /** On non-empty values an update accepts exactly what a create accepts for title and content. */
  lemma UpdateAgreesOnNonEmpty(d: VacancyCreate)
    requires d.title != [] && d.content != [] && d.testTime >= 0
    ensures (UpdateErrors(VacancyUpdate(Some(d.title), Some(d.content), Some(d.state), Some(d.kind))) == [])
        <==> (CreateErrors(d) == [])
  {
  }
}
