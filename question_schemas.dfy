/**
 * Input validation of practical questions, theoretical questions and
 * answer options. As for testings, validation yields the failing fields,
 * and an update field that is None was not sent.
 */
module QuestionSchemas {
  import opened Common
  import opened Entities

  const ContentMaxLength: nat := 32000
  /** Limit of a practical question's expected answer. */
  const AnswerMaxLength: nat := 255
  /** Width of the answer-option content column, which the validator does not use. */
  const OptionColumnWidth: nat := 320

  datatype Field = Content | Answer

  datatype PracticalQuestionCreate = PracticalQuestionCreate(content: string, language: LanguageId, answer: string)
  datatype PracticalQuestionUpdate = PracticalQuestionUpdate(content: Option<string>, language: Option<LanguageId>, answer: Option<string>)
  datatype TheoreticalQuestionCreate = TheoreticalQuestionCreate(content: string)
  datatype TheoreticalQuestionUpdate = TheoreticalQuestionUpdate(content: Option<string>)
  datatype AnswerOptionCreate = AnswerOptionCreate(content: string, isCorrect: bool)
  datatype AnswerOptionUpdate = AnswerOptionUpdate(content: Option<string>, isCorrect: Option<bool>)

  /** A sent, non-empty value longer than `limit`: the update validators' test. */
  predicate TruthyTooLong(v: Option<string>, limit: nat)
  {
    Truthy(v) && |v.value| > limit
  }

  function PracticalCreateErrors(d: PracticalQuestionCreate): (r: seq<Field>)
    ensures Content in r <==> |d.content| > ContentMaxLength
    ensures Answer in r <==> |d.answer| > AnswerMaxLength
  {
    (if |d.content| > ContentMaxLength then [Content] else [])
    + (if |d.answer| > AnswerMaxLength then [Answer] else [])
  }

  function PracticalUpdateErrors(d: PracticalQuestionUpdate): (r: seq<Field>)
    ensures Content in r <==> d.content.Some? && |d.content.value| > ContentMaxLength
    ensures Answer in r <==> d.answer.Some? && |d.answer.value| > AnswerMaxLength
  {
    (if TruthyTooLong(d.content, ContentMaxLength) then [Content] else [])
    + (if TruthyTooLong(d.answer, AnswerMaxLength) then [Answer] else [])
  }

  function TheoreticalCreateErrors(d: TheoreticalQuestionCreate): (r: seq<Field>)
    ensures r == [] <==> |d.content| <= ContentMaxLength
    ensures Answer !in r
  {
    if |d.content| > ContentMaxLength then [Content] else []
  }

  function TheoreticalUpdateErrors(d: TheoreticalQuestionUpdate): (r: seq<Field>)
    ensures r == [] <==> d.content.None? || |d.content.value| <= ContentMaxLength
    ensures Answer !in r
  {
    if TruthyTooLong(d.content, ContentMaxLength) then [Content] else []
  }

  function OptionCreateErrors(d: AnswerOptionCreate): (r: seq<Field>)
    ensures r == [] <==> |d.content| <= ContentMaxLength
    ensures Answer !in r
  {
    if |d.content| > ContentMaxLength then [Content] else []
  }

  function OptionUpdateErrors(d: AnswerOptionUpdate): (r: seq<Field>)
    ensures r == [] <==> d.content.None? || |d.content.value| <= ContentMaxLength
    ensures Answer !in r
  {
    if TruthyTooLong(d.content, ContentMaxLength) then [Content] else []
  }

  /**
   * The expected answer is limited to 255 characters (although the
   * validator's message names 32000): an answer of 256 to 32000 characters
   * is rejected.
   */
  lemma AnswerLimitIs255(d: PracticalQuestionCreate)
    requires AnswerMaxLength < |d.answer| <= ContentMaxLength
    ensures Answer in PracticalCreateErrors(d)
  {
  }

  /** An update that sends every field is judged as a create with those values. */
  lemma PracticalUpdateAgreesWithCreate(u: PracticalQuestionUpdate, c: PracticalQuestionCreate)
    requires u.content == Some(c.content) && u.answer == Some(c.answer)
    ensures PracticalUpdateErrors(u) == PracticalCreateErrors(c)
  {
  }

  /** An answer-option content of 321 characters is accepted, though the column holds 320. */
  lemma OptionContentExceedsColumn()
    ensures var d := AnswerOptionCreate(seq(OptionColumnWidth + 1, _ => 'a'), false);
      OptionCreateErrors(d) == [] && |d.content| > OptionColumnWidth
  {
  }
}
