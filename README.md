# Vacancy and testing service, modelled in Dafny

This project models the core of a recruitment back end. The back end publishes vacancies and attaches timed tests to each one. Candidates take those tests, either theoretical (multiple choice) or practical (programs run on an external code-execution judge), and every try is recorded as an attempt.

The model covers:

- **The testing application service.**
  - The guard chain that start and complete run, including the attempt deadline. That deadline is the first attempt's creation time plus the vacancy's test time in days.
  - Starting a test. A practical test returns its questions unchanged. A theoretical test clears every option's answer key in place.
  - Theoretical grading. A two-level lookup from question id to option id to option is built, an unknown question or option is a BadRequest, and the percent is truncated.
  - Practical grading. A placeholder attempt with percent 0 is recorded first. A deferred check then asks the judge about every answer and writes the final percent to that attempt only.
  - The verdict of a single program run.
  - The attempt listing with its page clamp.
  - The management operations on testings, questions and answer options, whose guards differ from one operation to the next.
- **The vacancy application service.**
  - The permission-by-state read rule.
  - The vacancy listing with the same page clamp.
  - A file's life cycle: recorded, then confirmed as uploaded, then deleted.
  - The poster, which must point at an uploaded file of its own vacancy and is cleared when that file is deleted.
- **The input validators** of testings, questions, answer options and vacancies, in their create and update forms.
- **The attempt repository's queries.** `get_first` returns the earliest attempt of a user at a test. `get_all` filters, orders, skips `offset` rows and keeps at most `limit` rows.

How the pieces are represented:

- Repositories are maps, keyed by natural-number ids, inside the two service classes.
- The attempts table is a sequence in which every attempt's id is its position.
- A table listed by id is listed in ascending key order.
- Time is integer seconds, and a day is 86400 seconds.
- The judge is a function from (code, language) to its response. The response's output and error text are already decoded from base64.

Files:

| file | module | contents |
|---|---|---|
| common.dfy | Common | Option, Error (NotFound, BadRequest, AccessDenied), Result, Python truthiness of an optional string |
| entities.dfy | Entities | the stored records, listing a table by id, LIMIT and OFFSET |
| pagination.dfy | Pagination | the page/per_page clamp both services use |
| attempt_repo.dfy | AttemptRepo | `get_first` and `get_all` over the attempts sequence |
| grading.dfy | Grading | percent, output comparison, theoretical and practical grading, answer-key stripping, `execute_program` |
| testing_guards.dfy | TestingGuards | the guard chains and the deadline |
| testing_service.dfy | TestingApp | class `TestingService` |
| vacancy_service.dfy | VacancyApp | access rule, listing request, file checks, class `VacancyService` |
| testing_schemas.dfy, question_schemas.dfy, vacancy_schemas.dfy | TestingSchemas, QuestionSchemas, VacancySchemas | the validators |

## Model

| member | source | states |
|---|---|---|
| Pagination.Clamp | src/services/testing.py:75-84 | page < 1 is NotFound and, after it, per_page < 1 is BadRequest; otherwise limit = min(per_page, 40), so 1 ≤ limit ≤ 40; offset = (page-1)·limit if that is at most 2147483646, and 2147483646 otherwise |
| Pagination.NextPageAdjacent | src/services/testing.py:83-84 | below the offset cap, page p+1 starts exactly where page p ends |
| Pagination.OffsetMonotone | src/services/testing.py:84 | a later page never starts before an earlier one |
| Entities.ListById | src/services/repository/theoretical_question.py:17-29 | a filtered listing in id order: at most `bound` rows, each kept by the filter and stored in the table, and every kept row below the bound is present |
| Entities.ListByIdAgree | src/services/repository/theoretical_question.py:17-29 | two tables that agree below the bound give the same listing |
| Entities.Take | src/services/repository/theoretical_question.py:28 | LIMIT n: a prefix of length at most n, and the whole sequence when it is no longer than n |
| Entities.Page | src/services/repository/attempt.py:79 | OFFSET then LIMIT: at most `limit` rows, all taken from the input; exactly rows offset..offset+limit when those exist, the rows from the offset to the end when fewer remain, none when the offset is past the end |
| Entities.PageConcat | src/services/repository/attempt.py:79 | n rows from an offset followed by m rows after them equal n+m rows from that offset |
| AttemptRepo.Matches | src/services/repository/attempt.py:75 | an empty filter keeps every row and a filter built from a row's own columns keeps it; a given user or test other than the row's drops it |
| AttemptRepo.Matching | src/services/repository/attempt.py:75 | an attempt is kept iff it is stored and every given keyword filter equals its column |
| AttemptRepo.Insert | src/services/repository/attempt.py:79 | inserting one row keeps the same rows plus that one (as a multiset) |
| AttemptRepo.InsertSorted | src/services/repository/attempt.py:79 | inserting into a sequence sorted by the order column keeps it sorted |
| AttemptRepo.SortBy | src/services/repository/attempt.py:79 | ordering by a column permutes the rows |
| AttemptRepo.SortBySorted | src/services/repository/attempt.py:79 | the ordered rows are sorted by the column |
| AttemptRepo.SortedMatches | src/services/repository/attempt.py:75-79 | the matching rows, as many as match, exactly the stored matching rows, sorted by the order column |
| AttemptRepo.GetAll | src/services/repository/attempt.py:68-80 | at most `limit` rows, each stored and matching every filter, sorted by the order column; exactly the window offset..offset+limit of the sorted matching rows, shortened at their end, and empty past it |
| AttemptRepo.ConsecutivePages | src/services/repository/attempt.py:79-80 | reading two adjacent windows reads the same rows as the window of their combined size |
| AttemptRepo.GetFirst | src/services/repository/attempt.py:13-16 | the result has the user and the test asked for and the smallest created_at among them; None iff no attempt of that user at that test exists |
| AttemptRepo.NothingMatches | src/services/repository/attempt.py:75 | when no stored attempt matches, the matching rows are empty |
| AttemptRepo.GetFirstIsFirstPage | src/services/repository/attempt.py:13-16 | `get_first` is None iff the one-row page ordered by created_at is empty, and otherwise both have the same created_at |
| Grading.Percent | src/services/testing.py:259-264 | 0 when there are no questions; otherwise the truncated 100·correct/total (p·total ≤ 100·correct < (p+1)·total), at most 100 when correct ≤ total |
| Grading.StripNewlines | src/services/testing.py:716 | the result has no newline, and every character in it comes from the input |
| Grading.StripNewlinesNoop | src/services/testing.py:716 | removing newlines from a string without any changes nothing |
| Grading.StripNewlinesIdempotent | src/services/testing.py:716 | removing newlines twice is removing them once |
| Grading.StripNewlinesAppend | src/services/testing.py:716 | removing newlines distributes over concatenation |
| Grading.OutputMatches | src/services/testing.py:716 | equal strings match, and two strings without newlines match iff they are equal |
| Grading.TrailingNewlineIgnored | src/services/testing.py:716 | an output with a trailing newline matches the same output without it |
| Grading.OptionsById | src/services/testing.py:240-242 | the option lookup has exactly the options' ids as keys, each mapped to an option with that id |
| Grading.QuestionIndex | src/services/testing.py:238-243 | the question lookup has exactly the questions' ids as keys |
| Grading.QuestionIndexAt | src/services/testing.py:238-243 | with unique question ids, a question's entry is the lookup of its own options |
| Grading.CountCorrect | src/services/testing.py:246-257 | BadRequest iff some answer names an unknown question or an option not under it; otherwise a count no larger than the number of answers |
| Grading.TheoreticalScore | src/services/testing.py:246-264 | the error is BadRequest; the score is 0 with no questions and at most 100 when there are no more answers than questions |
| Grading.RejectedIffUnresolved | src/services/testing.py:247-257 | a submission is rejected iff some answer does not name a loaded question and one of that question's options |
| Grading.CountCorrectAppend | src/services/testing.py:246-257 | counting two halves separately and adding equals counting them together, and either half's rejection rejects the whole |
| Grading.ScoreOrderIndependent | src/services/testing.py:246-264 | any rearrangement of the submitted answers (the same answers as a multiset) gives the same score or the same rejection |
| Grading.CountCorrectPermutation | src/services/testing.py:246-257 | counting any rearrangement of the answers gives the same count or the same rejection |
| Grading.OptionsByIdAt | src/services/testing.py:240-242 | when no other option shares its id, the option lookup maps an option's id to that option |
| Grading.AnswerResolvesTo | src/services/testing.py:238-254 | with unique question ids, an answer naming question k and one of its options resolves in the lookup, to that option |
| Grading.SingleAnswerCount | src/services/testing.py:247-257 | a single resolving answer counts 1 if its option is correct and 0 otherwise |
| Grading.AnswerEarnsItsOptionsMark | src/services/testing.py:238-257 | what one answer earns: 1 if the option it names is marked correct, 0 otherwise |
| Grading.ScoreIsPercentOfPoints | src/services/testing.py:246-264 | adding one answer worth `point` gives the truncated percent of the earlier count plus `point` over the number of questions |
| Grading.DuplicateAnswersExceed100 | src/services/testing.py:246-264 | answering the single question twice with its correct option scores 200 |
| Grading.GradeTheoretical | src/services/testing.py:235-264 | the loops that build the lookup and count answers compute exactly the theoretical score or its BadRequest |
| Grading.PracticalIndex | src/services/testing.py:681-683 | the question lookup has exactly the questions' ids as keys, each mapped to a question with that id |
| Grading.Credited | src/services/testing.py:708-717 | a run with error text or without output is never credited; a run without error text whose output is the non-empty expected answer, with or without a trailing newline, is |
| Grading.PracticalCorrect | src/services/testing.py:685-717 | the number of credited answers is at most the number of answers |
| Grading.PracticalCorrectSnoc | src/services/testing.py:686-717 | each further answer adds its own point, 1 or 0 |
| Grading.PracticalScore | src/services/testing.py:719-724 | 0 with no questions, at most 100 when there are no more answers than questions |
| Grading.SkippedAnswerAddsNothing | src/services/testing.py:687-712 | an answer to an unknown question, or whose run wrote error text or no output, adds nothing |
| Grading.ThreeQuestionScenario | src/services/testing.py:685-724 | worked example, not a general property: three questions answered with error text, the right output and a wrong output score 33 |
| Grading.ScenarioIndex | src/services/testing.py:681-683 | worked example, not a general property: the lookup of the scenario's questions maps each id to its question |
| Grading.ScenarioPoints | src/services/testing.py:708-717 | worked example, not a general property: in the scenario the error-text answer and the wrong output earn nothing, and the expected output with a trailing newline earns a point |
| Grading.GradePractical | src/services/testing.py:681-724 | the loops that build the lookup and ask the judge compute exactly the practical score |
| Grading.ViewOf | src/services/testing.py:187 | the response model has as many options as the question |
| Grading.StripAnswerKeys | src/services/testing.py:184-192 | one view per question, in order, each showing its question and options unchanged except that every option's answer key is None |
| Grading.ExecuteProgram | src/services/testing.py:751-771 | output, error text and status are passed through; with an expected answer and some output, correct iff the output matches it ignoring newlines; otherwise correct iff some output was written, whatever the error text |
| Grading.ExecuteAgreesWithGrading | src/services/testing.py:751-765 | on a run without error text and with output, `execute_program` with the question's answer agrees with the grading's verdict |
| Grading.ErrorTextOnlyMattersToGrading | src/services/testing.py:756-765 | a run with error text and the expected output is correct for `execute_program` but earns no grading point |
| TestingGuards.Deadline | src/services/testing.py:230 | the deadline falls at the same time of day as the first attempt, and no earlier than it (a full day later or more for a test time of at least one day) |
| TestingGuards.Expired | src/services/testing.py:224-233 | an expired window means some attempt of the user at the test is past its deadline; with no such attempt the window is never over |
| TestingGuards.AttemptGuard | src/services/testing.py:210-233 | missing testing NotFound, wrong type BadRequest, missing vacancy NotFound, vacancy not OPENED BadRequest, window over BadRequest, in this order; otherwise the testing and its vacancy |
| TestingGuards.ExpiredIffSomeAttemptTooOld | src/services/testing.py:224-233 | the window is over iff some attempt of the user at the test was made more than test_time days before `now` |
| TestingGuards.NoAttemptNoTimeCheck | src/services/testing.py:229-233 | with no earlier attempt, the guard's outcome does not depend on the clock |
| TestingGuards.DeadlineInclusive | src/services/testing.py:229-233 | at exactly first.created_at + test_time days the guard passes; one second later it is BadRequest |
| TestingGuards.OneDayWindow | src/services/testing.py:177-182 | with a one-day test time and a first attempt on day 0, a start on day 1 passes and one on day 2 is BadRequest |
| TestingGuards.OpenTestingGuard | src/services/testing.py:372-381 | passes iff the testing exists and its vacancy exists and is OPENED; a missing testing or vacancy is NotFound, a closed vacancy BadRequest; the type is not looked at |
| TestingGuards.QuestionCreateGuard | src/services/testing.py:462-474 | the open-testing guard's error first; then BadRequest iff the type is not the question's kind |
| TestingGuards.CreateTestingGuard | src/services/testing.py:354-356 | passes iff the vacancy exists, OPENED or not; otherwise NotFound |
| TestingGuards.AttemptGuardImpliesOpen | src/services/testing.py:210-222 | whatever start or complete lets through, the question-create guard lets through with the same testing |
| TestingGuards.TypeCheckedAtDifferentPoints | src/services/testing.py:494-506 | a testing of the wrong kind whose vacancy is missing is BadRequest for start and complete but NotFound for creating a question |
| TestingGuards.ClosedVacancyAcceptsNewTestings | src/services/testing.py:354-358 | a testing can be created under a CLOSED vacancy, but the open-testing guard then rejects it with BadRequest |
| TestingApp.ApplyTestingUpdate | src/services/testing.py:383 | each of title, content, type and pass threshold becomes the sent value when sent and stays when not; id and vacancy stay; an empty update is the identity |
| TestingApp.TestingUpdateIdempotent | src/services/testing.py:383 | applying an update twice is applying it once |
| TestingApp.ApplyPracticalUpdate | src/services/testing.py:531 | each of content, language and expected answer becomes the sent value when sent and stays when not; id and testing stay; an empty update is the identity |
| TestingApp.ApplyTheoreticalUpdate | src/services/testing.py:554 | sent content replaces the stored content; id and testing stay; an update without content is the identity |
| TestingApp.AppendKeepsIds | src/services/testing.py:266-272 | recording the attempt numbered by the table's length keeps every attempt id equal to its position |
| TestingApp.TestingService.GetPracticalQuestions | src/services/testing.py:655-656 | at most 100 questions, all of this testing and stored; when at most 100 exist, all of them |
| TestingApp.TestingService.OptionsOf | src/services/repository/theoretical_question.py:11-15 | exactly the stored options of the question |
| TestingApp.TestingService.WithOptions | src/services/repository/theoretical_question.py:25-26 | each question joined with its own options, in order |
| TestingApp.TestingService.GetTheoreticalQuestions | src/services/testing.py:668-669 | at most 100 questions, each stored and of this testing, each carrying exactly its options; when at most 100 exist, every question of the testing is among them |
| TestingApp.TestingService.GetTestings | src/services/testing.py:444-445 | at most 100 testings, all of the vacancy and stored; when at most 100 exist, every testing of the vacancy is among them; a missing vacancy is not an error |
| TestingApp.TestingService.GetTesting | src/services/testing.py:420-431 | the testing iff it exists under an existing OPENED vacancy; a missing testing or vacancy is NotFound and a vacancy that is not OPENED BadRequest |
| TestingApp.TestingService.GetPracticalQuestion | src/services/testing.py:600-604 | the stored question, or NotFound iff it does not exist |
| TestingApp.TestingService.GetTheoreticalQuestion | src/services/testing.py:616-620 | the stored question with its options, or NotFound iff it does not exist |
| TestingApp.TestingService.GetTestAttempts | src/services/testing.py:70-95 | a named testing must exist, checked before the page; then the clamp's errors; otherwise exactly the repository's window of the current user's attempts (of the named testing) sorted by created_at, at the clamped offset and limit |
| TestingApp.TestingService.StartPractical | src/services/testing.py:113-145 | the attempt guard's error, or the testing's questions unchanged with their reference answers; nothing is recorded |
| TestingApp.TestingService.StartTheoretical | src/services/testing.py:158-192 | the attempt guard's error, or the testing's questions in order with every answer key cleared; nothing is recorded |
| TestingApp.TestingService.CompleteTheoretical | src/services/testing.py:210-273 | the guard's error and no attempt; BadRequest and no attempt for an unresolvable answer; otherwise exactly one new attempt, at `now`, with the theoretical score |
| TestingApp.TestingService.CompletePractical | src/services/testing.py:294-341 | the guard's error and no attempt; otherwise exactly one new attempt with percent 0, returned with a grading job for that attempt over the testing's questions |
| TestingApp.TestingService.CheckPracticalAnswers | src/services/testing.py:681-728 | only the job's attempt changes, and only its percent, which becomes the practical score; a missing attempt leaves the table unchanged |
| TestingApp.TestingService.CreateTesting | src/services/testing.py:354-359 | NotFound and no change for a missing vacancy; otherwise a new testing with a fresh id and the payload's fields |
| TestingApp.TestingService.UpdateTesting | src/services/testing.py:372-385 | the open-testing guard's error and no change; otherwise the stored testing becomes the updated one and is returned |
| TestingApp.TestingService.DeleteTesting | src/services/testing.py:397-408 | the open-testing guard's error and no change; otherwise the testing is removed |
| TestingApp.TestingService.CreatePracticalQuestion | src/services/testing.py:462-477 | the question-create guard's error and no change; otherwise a new question with a fresh id under the testing |
| TestingApp.TestingService.CreateTheoreticalQuestion | src/services/testing.py:494-510 | the question-create guard's error and no change; otherwise a new question with a fresh id, returned with no options |
| TestingApp.TestingService.UpdatePracticalQuestion | src/services/testing.py:527-533 | NotFound and no change for a missing question; otherwise the stored question becomes the updated one (sent content, language and answer replace the stored ones, the rest stays) and is returned |
| TestingApp.TestingService.UpdateTheoreticalQuestion | src/services/testing.py:550-556 | NotFound and no change for a missing question; otherwise the updated question with its options |
| TestingApp.TestingService.DeletePracticalQuestion | src/services/testing.py:568-572 | NotFound and no change for a missing question; otherwise it is removed |
| TestingApp.TestingService.DeleteTheoreticalQuestion | src/services/testing.py:584-588 | NotFound and no change for a missing question; otherwise it is removed |
| TestingApp.TestingService.CreateOption | src/services/testing.py:637-643 | NotFound and no change for a missing question; otherwise a new option with a fresh id, and the question returned with its earlier options followed by the new one |
| VacancyApp.AccessCheck | src/services/vacancy.py:56-66 | allowed iff the caller holds the public permission for an OPENED vacancy, or the private one for any other; otherwise AccessDenied |
| VacancyApp.BothPermissionsReadEverything | src/services/vacancy.py:98-108 | holding both permissions, every state can be read |
| VacancyApp.GetVacancies | src/services/vacancy.py:51-91 | page NotFound and per_page BadRequest before the access rule; then AccessDenied iff the access rule refuses; otherwise the clamped window, a state filter only for OPENED and a search only for a non-empty query |
| VacancyApp.ClosedListingIsUnfiltered | src/services/vacancy.py:82-89 | asking for CLOSED vacancies yields a request without any state filter |
| VacancyApp.PageCheckedBeforePermission | src/services/vacancy.py:51-60 | a bad page or page size is reported, not AccessDenied, even without any permission |
| VacancyApp.ApplyVacancyUpdate | src/services/vacancy.py:127 | each of title, content, state and type becomes the sent value when sent and stays when not; id, test time and poster never change; an empty update is the identity |
| VacancyApp.FileOfVacancy | src/services/vacancy.py:244-253 | passes iff the vacancy and the file exist and the file is the vacancy's; missing is NotFound, another vacancy's BadRequest |
| VacancyApp.ConfirmCheck | src/services/vacancy.py:244-260 | passes iff the file is the vacancy's, not yet uploaded and present in storage; already uploaded is BadRequest, absent from storage NotFound |
| VacancyApp.DeleteCheck | src/services/vacancy.py:267-279 | passes iff the file is the vacancy's and uploaded; not uploaded is BadRequest |
| VacancyApp.PosterCheck | src/services/vacancy.py:290-305 | passes iff the file is the vacancy's, uploaded, and not already its poster; otherwise BadRequest once the file is the vacancy's |
| VacancyApp.UnconfirmedFileIsInert | src/services/vacancy.py:278-302 | a file that is not uploaded can be neither deleted nor made the poster |
| VacancyApp.ConfirmedFileStep | src/services/vacancy.py:244-305 | after confirmation a file cannot be confirmed again, can be deleted, and can be the poster iff it is not already |
| VacancyApp.PosterTwiceRejected | src/services/vacancy.py:304-307 | setting the same poster a second time is BadRequest |
| VacancyApp.VacancyService.GetVacancy | src/services/vacancy.py:93-110 | NotFound for a missing vacancy; otherwise the vacancy iff the access rule allows it, else AccessDenied |
| VacancyApp.VacancyService.GetVacancyFile | src/services/vacancy.py:169-202 | NotFound, then the access rule, then NotFound unless the file exists and is uploaded; the file's own vacancy is not compared; the link names the requested vacancy and is an attachment iff `download` |
| VacancyApp.VacancyService.GetVacancyFiles | src/services/vacancy.py:141-160 | NotFound for a missing vacancy; otherwise one inline link per uploaded file of the vacancy, in id order, at most 100 |
| VacancyApp.VacancyService.UpdateVacancy | src/services/vacancy.py:123-127 | NotFound and no change for a missing vacancy; otherwise only the sent title, content, state and type change; posters stay valid |
| VacancyApp.VacancyService.UploadFile | src/services/vacancy.py:212-234 | NotFound and no change for a missing vacancy; otherwise a new file record, not uploaded, and its storage key |
| VacancyApp.NewFileConfirmsOnceStored | src/services/vacancy.py:212-262 | a file just recorded by an upload request is confirmed once its object is in storage, and is NotFound before that |
| VacancyApp.VacancyService.ObjectStored | src/services/vacancy.py:223-229 | the client's upload to the returned address puts the key in storage and changes nothing else |
| VacancyApp.VacancyService.ConfirmUpload | src/services/vacancy.py:244-262 | the confirm check's verdict; on success only the file's upload flag changes, to true |
| VacancyApp.VacancyService.DeleteFile | src/services/vacancy.py:267-285 | the delete check's verdict; on success the poster is cleared if it was this file, the object leaves storage and the record is removed; no vacancy keeps the file as poster; posters stay valid |
| VacancyApp.VacancyService.SetPoster | src/services/vacancy.py:290-307 | the poster check's verdict; on success the vacancy's poster becomes the file; posters stay valid |
| TestingSchemas.CreateErrors | src/models/schemas/testing.py:31-47 | title rejected iff longer than 255, content iff longer than 32000, pass threshold iff outside 0..100; accepted iff none of these |
| TestingSchemas.UpdateErrors | src/models/schemas/testing.py:56-72 | each sent field is rejected iff it breaks its create limit (title over 255, content over 32000, threshold outside 0..100), unsent fields never; so an empty update, an empty title and a threshold of 0 are accepted |
| TestingSchemas.TitleLimitInclusive | src/models/schemas/testing.py:31-35 | a 255-character title passes and a 256-character title fails |
| TestingSchemas.UpdateAgreesWithCreate | src/models/schemas/testing.py:56-72 | an update sending title, content and threshold is judged exactly as a create with those values |
| TestingSchemas.UpdatePercentRange | src/models/schemas/testing.py:68-72 | a sent threshold is accepted iff it lies in 0..100 |
| QuestionSchemas.PracticalCreateErrors | src/models/schemas/questions.py:29-39 | content rejected iff longer than 32000, answer iff longer than 255 |
| QuestionSchemas.PracticalUpdateErrors | src/models/schemas/questions.py:47-57 | the same limits on sent values only |
| QuestionSchemas.TheoreticalCreateErrors | src/models/schemas/questions.py:91-95 | accepted iff content is at most 32000 characters |
| QuestionSchemas.TheoreticalUpdateErrors | src/models/schemas/questions.py:101-105 | accepted iff no content is sent or it is at most 32000 characters |
| QuestionSchemas.OptionCreateErrors | src/models/schemas/questions.py:112-116 | accepted iff content is at most 32000 characters |
| QuestionSchemas.OptionUpdateErrors | src/models/schemas/questions.py:123-127 | accepted iff no content is sent or it is at most 32000 characters |
| QuestionSchemas.AnswerLimitIs255 | src/models/schemas/questions.py:35-39 | an expected answer of 256 to 32000 characters is rejected, although the error message names 32000 as the limit |
| QuestionSchemas.PracticalUpdateAgreesWithCreate | src/models/schemas/questions.py:47-57 | an update that sends content and answer is judged as a create with them |
| QuestionSchemas.OptionContentExceedsColumn | src/models/schemas/questions.py:112-116 | a 321-character option content is accepted although its column holds 320 |
| VacancySchemas.CreateErrors | src/models/schemas/vacancy.py:48-70 | accepted iff title is 1..255 characters, content 1..32000 characters and test time ≥ 0; an empty title is its own error; no field has two errors |
| VacancySchemas.UpdateErrors | src/models/schemas/vacancy.py:83-92 | accepted iff every sent title is at most 255 and every sent content at most 32000 characters; emptiness is never an error |
| VacancySchemas.TestTimeZeroAllowed | src/models/schemas/vacancy.py:66-70 | the test time is rejected iff it is negative |
| VacancySchemas.UpdateAcceptsEmpty | src/models/schemas/vacancy.py:73-92 | an update may blank title and content that a create rejects |
| VacancySchemas.UpdateAgreesOnNonEmpty | src/models/schemas/vacancy.py:83-92 | on non-empty values, an update accepts a title and content iff a create does |

## Left out

- The permission and account-state decorators on the service methods are left out, because their implementation is not part of this model. Every call is taken to pass them. The vacancy service's own permission checks are modelled.
- `get_approved_users` is left out, because the query it calls is not part of this model.
- `AttemptRepo.search` and its private range helper are left out. They are text-search plumbing, and the vacancy search behind a non-empty query is likewise not modelled beyond choosing it.
- The HTTP layer and the judge's transport are left out: controllers, views, routing, the HTTP client, base64 and UTF-8. The judge is a function parameter whose response output is already decoded.
- The object storage calls are reduced to a set of keys. Upload and download URL generation is represented by the parameters the link is made from.
- Background scheduling and the separate database session of the deferred check are left out. The check is an ordinary method called later with the job.
- Clocks are left out. The current time is an integer parameter, and an attempt's creation time is the `now` of the call that records it.
- `create_vacancy` and `delete_vacancy` are left out, being plain repository calls. So are the foreign-key behaviour when rows are deleted and the record timestamps.
- Validation error messages are left out; the validators return the failing fields.
- Grading.Percent: this uses integer floor division where the source divides floats and truncates. The two agree for the non-negative operands involved.
- TestingApp.TestingService.GetTestAttempts: always orders by created_at. With `order_by="title"` the query sorts by the title of the joined testing; when a testing is named every row shares that title, so the order among them is left to the database. That ordering is not modelled.
- VacancyApp.GetVacancies: returns the repository request (window, optional state filter, optional search text) rather than rows. Ordering by title, updated_at or created_at is not modelled, and neither is the text search.
- Identifiers are natural numbers handed out in increasing order, not random UUIDs, so listing by id here also lists in creation order.
- The relationship loading answer options imposes no order in the source. The model lists them by id.
- `attempt_id` in submitted answers is not modelled, because the grading never reads it.
- `src/services/repository/base.py` and `src/services/repository/file.py` are not part of this model. Their generic `get_all` is taken to keep at most 100 rows, in id order, for `get_practical_questions`, `get_testings`, `get_vacancy_files` and the practical questions a grading job loads. The cap and the order are the only assumptions made about those queries.
- The upload address's size range (1 byte to 100 MB) and its 30-minute expiry are left out. `ObjectStored` stands for a client upload that succeeded within them.
- A judge failure in the deferred check is left out. A response without `stderr` or `stdout`, or whose output is not valid base64 or UTF-8, raises inside the background task (src/services/testing.py:704-714), so the attempt keeps percent 0. The model's judge always answers, with output already decoded.
- The deadline comparison drops time-zone information from both sides before comparing (src/services/testing.py:133-134, 178-179, 230-231, 314-315). The model's times carry no zone, so both sides are taken to be in the same clock.
- The testing controller calls `complete_practical_testing` without its background-tasks argument. Controllers are outside the model; the service method is modelled as declared.

Behaviour of the code worth knowing:

- `update_testing` accepts a type, so a testing's type can change after it is created (`ApplyTestingUpdate`).
- `create_testing` checks only that the vacancy exists, so a testing can be created under a CLOSED vacancy (`ClosedVacancyAcceptsNewTestings`).
- Starting a practical test returns each question's reference answer, because the line that would clear it is commented out (`StartPractical`).
- Among attempts with the same creation time, `GetFirst` returns the earliest in storage order; nothing proved depends on that choice.
