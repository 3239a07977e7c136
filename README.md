# talentflow-v2 core, modelled in Dafny

talentflow-v2 is a browser hiring tracker. It has jobs with a drag-and-drop
order, candidates moving through six hiring stages on a kanban board, and
per-job assessments. An assessment is made of sections of questions, and a
question may be shown only when another answer has a given value. Underneath
the React pages sits a small amount of sequential logic over in-memory
collections, and this project models that logic and proves its properties.

What is modelled, file by file:

- `types.dfy`: the records of `src/types/index.ts`. These are jobs, candidates,
  timeline events, questions, sections and assessments, plus the answers a
  runner stores.
- `runner.dfy`: the assessment runner. It covers question visibility, the
  `validate` fold over every shown question (a `method` with nested loops,
  proved against the fold it computes), the submit guard, and the answer
  shapes the inputs store.
- `builder.dfy`: the assessment builder, a `class` whose methods edit the
  sections in place and save them. It also covers the preview's own
  visibility rule and its own multi-choice and numeric inputs.
- `question_form.dfy`: the question editor, with every edit written as the
  object spread of a patch over the question. It also covers the option list
  and the condition picker.
- `handlers.dfy`: the mocked server as a `Database` class holding the jobs,
  candidates, timelines and assessments tables. It has one method per
  handler. Reorder rewrites every order in a loop, proved against the
  `Reordered` specification.
- `jobs_list.dfy`: the jobs page. It has optimistic create, update and
  drag-and-drop reorder, paging, and reloading from the server.
- `candidates_list.dfy`: the candidate board. It covers stage columns, the
  grouping loop, drops within and across columns, and adding a candidate.
- `job_form.dfy`: the job form's tag parsing and submit checks.
- `slugify.dfy`: `slugify`.
- `strings.dfy`, `sequences.dfy`, `ordering.dfy`: JavaScript string and array
  operations (`trim`, `split`, `join`, `splice`, `slice`, `filter`, stable
  sort) and the facts about job orders that several modules share.

Ids, timestamps and the simulated write failure are method parameters. A
timestamp is an integer.

One might expect input made only of whitespace and punctuation always to
slugify to "". That is false, and a narrower true property is proved instead.
It fails for `"! !"`, which slugifies to `"-"`: the inner whitespace run
becomes a `-` before punctuation is removed (`Slugify.PunctuationAroundSpace`).
The input does slugify to "" when its whitespace sits only at its ends
(`Slugify.EmptySlug`, `Slugify.WhitespaceOnlySlug`).

## Model

| member | source | states |
|---|---|---|
| Runner.ShowRule | src/pages/Assessments/Runner.tsx:22-26 | An unconditioned question is shown. A conditioned one is shown exactly when the referenced answer is the string `equals`; any other answer shape hides it. |
| Runner.VisibilityIsSingleHop | src/pages/Assessments/Runner.tsx:24-25 | Visibility depends only on the referenced answer, never on whether the referenced question is itself shown. |
| Runner.HiddenParentCanShowChild | src/pages/Assessments/Runner.tsx:22-26 | A hidden question with a stale matching answer still shows its dependant. |
| Runner.NumericAnswerNeverSatisfiesCondition | src/pages/Assessments/Runner.tsx:24-25 | A number stored as the referenced answer never equals the condition's text, so the question stays hidden. |
| Runner.CheckQuestionLastWins | src/pages/Assessments/Runner.tsx:33-49 | One question's checks leave at most one entry, under its id, holding the last applicable error, and touch no other entry. |
| Runner.ErrorKeysAreShownQuestions | src/pages/Assessments/Runner.tsx:31-33 | Every key of the error map is the id of a shown question that has an error. |
| Runner.ErroneousQuestionsHaveKeys | src/pages/Assessments/Runner.tsx:31-49 | Every question with an error leaves an entry under its id. |
| Runner.ErrorOfEachQuestion | src/pages/Assessments/Runner.tsx:31-51 | With distinct ids, a question has an entry iff it has an error, and the entry is its last applicable error. |
| Runner.ValidIffNoQuestionError | src/pages/Assessments/Runner.tsx:53-54 | The error map is empty iff no question has an error. |
| Runner.RequiredRule | src/pages/Assessments/Runner.tsx:36-38 | A shown required question is reported as required iff its answer is undefined or "" and the length check does not fire. An empty option list or a null file passes. |
| Runner.AstralTextExceedsLimit | src/pages/Assessments/Runner.tsx:47-49 | Three emoji are six UTF-16 code units, so they exceed a limit of 5 and get "Max length is 5". |
| Strings.Utf16LengthCountsPairs | src/pages/Assessments/Runner.tsx:47 | The UTF-16 length is the character count plus one per character above the Basic Multilingual Plane, and equals the character count iff there is none. |
| Runner.LengthOverridesRequired | src/pages/Assessments/Runner.tsx:36-49 | The length check runs last and replaces a required error when `maxLength` is negative. |
| Runner.NumericRule | src/pages/Assessments/Runner.tsx:40-45 | Above max gives the maximum error. Below min gives the minimum error unless max also fires. A blank answer gives only the required error. With min <= max the two never both fire. |
| Runner.RangeScenario | src/pages/Assessments/Runner.tsx:31-49 | A 1..10 numeric question answered 12 gets the maximum error. A question conditioned on it is hidden and not validated. |
| Runner.Validate | src/pages/Assessments/Runner.tsx:28-55 | The nested loops build exactly the fold over all questions. The result is true iff the map is empty, iff no question has an error. A missing assessment gives an empty map. Text length counts UTF-16 code units, as `val?.length` does. |
| Runner.CheckOne | src/pages/Assessments/Runner.tsx:33-49 | The four checks of one question leave exactly the reference error `QuestionError` (the last failing check) under its id, and nothing for a hidden or valid question. Text length counts UTF-16 code units. |
| Runner.HandleSubmit | src/pages/Assessments/Runner.tsx:57-62 | Submission happens iff validation leaves no error. |
| Runner.SetAnswer | src/pages/Assessments/Runner.tsx:18-20 | Only the given question's answer changes. |
| Runner.ToggleMulti | src/pages/Assessments/Runner.tsx:133-137 | Ticking appends the option to the current list. Unticking leaves exactly the other options, each with its multiplicity, and an option that was not ticked leaves the list as it was. An undefined answer counts as the empty list. |
| Runner.UntickKeepsOrder | src/pages/Assessments/Runner.tsx:136 | Unticking works piece by piece: on a joined list it unticks each part, and a single option is dropped iff it is the unticked one. So the remaining options keep their order. |
| Runner.TickUntick | src/pages/Assessments/Runner.tsx:133-137 | Ticking an unticked option and unticking it restores the list. |
| Runner.FileAnswer | src/pages/Assessments/Runner.tsx:147 | The file input stores a file or null, and neither is blank for the required check. |
| Builder.PreviewAgreesWithRunner | src/pages/Assessments/Builder.tsx:89-93 | The preview's visibility rule is the runner's. |
| Builder.IndexOf | src/pages/Assessments/Builder.tsx:220 | `indexOf` returns the first position of the element, or -1 iff it is absent. |
| Builder.SpliceOne | src/pages/Assessments/Builder.tsx:220 | `splice(start, 1)` removes exactly the element at `start`, or at `length + start` for a negative start, and keeps the others in order. A start at or past the end removes nothing; a start before `-length` removes the first element. |
| Builder.PreviewToggleMulti | src/pages/Assessments/Builder.tsx:217-221 | Ticking appends. Unticking a present option removes its first occurrence, keeping the rest in order. Unticking an absent option removes the last element, because `indexOf` gives -1. |
| Builder.PreviewUntick | src/pages/Assessments/Builder.tsx:220 | `splice(indexOf(opt), 1)`: the first occurrence goes, which as a multiset removes one copy; for an absent option the last element goes. |
| Builder.PreviewUntickKeepsDuplicate | src/pages/Assessments/Builder.tsx:220 | With a duplicated option the preview keeps one copy while the runner keeps none. |
| Builder.PreviewTickUntick | src/pages/Assessments/Builder.tsx:217-221 | Tick then untick of an unticked option restores the list. |
| Builder.PreviewUntickAbsentDropsLast | src/pages/Assessments/Builder.tsx:220 | Unticking an option that is not ticked drops the last option, because `indexOf` gives -1. |
| Builder.PreviewNumeric | src/pages/Assessments/Builder.tsx:233-236 | An empty field stores "" and a number stores that number. |
| Builder.ClearedNumericIsBlank | src/pages/Assessments/Builder.tsx:235 | A cleared preview number is blank for the required check. |
| Types.FlattenConcat | src/pages/Assessments/Runner.tsx:31-32 | The question list of joined section lists is the join of their question lists, so the nested `forEach` visits sections in order and each section's questions in order. |
| Builder.FlattenUpdate | src/pages/Assessments/Builder.tsx:58-66 | Replacing a section replaces exactly its stretch of the question list. |
| Builder.AssessmentBuilder.Load | src/pages/Assessments/Builder.tsx:21-31 | Without a job id nothing changes. Otherwise the saved sections are loaded, or none. |
| Builder.AssessmentBuilder.AddSection | src/pages/Assessments/Builder.tsx:33-38 | Exactly one empty "Untitled Section" is appended, and the question list is unchanged. |
| Builder.AssessmentBuilder.UpdateSectionTitle | src/pages/Assessments/Builder.tsx:40-44 | Only that section's title changes. |
| Builder.AssessmentBuilder.AddQuestion | src/pages/Assessments/Builder.tsx:46-56 | One short, empty, optional, unconditioned question is appended to section `si`, and other sections are unchanged. |
| Builder.AssessmentBuilder.UpdateQuestion | src/pages/Assessments/Builder.tsx:58-66 | Only question `(si, qi)` is replaced, and the section count and question count are unchanged. |
| Builder.AssessmentBuilder.RemoveQuestion | src/pages/Assessments/Builder.tsx:68-72 | Exactly question `qi` of section `si` is spliced out, and other sections are untouched. |
| Builder.AssessmentBuilder.SetPreviewAnswer | src/pages/Assessments/Builder.tsx:204 | A preview input writes one answer. |
| Builder.AssessmentBuilder.Save | src/pages/Assessments/Builder.tsx:74-84 | Without a job id nothing is stored. Otherwise the sections are stored under the job id, titled "Assessment for <jobId>". |
| QuestionForm.Update | src/components/Assessments/QuestionForm.tsx:15-19 | A field present in the patch takes the patch's value; the id and every absent field are kept. |
| QuestionForm.UpdateLaws | src/components/Assessments/QuestionForm.tsx:15-19 | An empty patch is the identity. Applying a patch twice equals applying it once. Two updates equal one merged update. |
| QuestionForm.SetText | src/components/Assessments/QuestionForm.tsx:48 | Only the text changes. |
| QuestionForm.SetType | src/components/Assessments/QuestionForm.tsx:54-58 | Only the type changes; options, range and maxLength stay. |
| QuestionForm.TypeRoundTrip | src/components/Assessments/QuestionForm.tsx:54-58 | Switching the type away and back restores the question. |
| QuestionForm.SetRequired | src/components/Assessments/QuestionForm.tsx:74 | Only `required` changes. |
| QuestionForm.PickCondition | src/components/Assessments/QuestionForm.tsx:84-90 | "" removes the condition. An id becomes the target, keeping the old `equals` or using "". |
| QuestionForm.SetEquals | src/components/Assessments/QuestionForm.tsx:111-116 | Only `equals` changes and the target is kept ("" when there was no condition). |
| QuestionForm.ConditionEditing | src/components/Assessments/QuestionForm.tsx:84-116 | Re-targeting keeps the value. Passing through "Show always" forgets it. |
| QuestionForm.SetMin | src/components/Assessments/QuestionForm.tsx:159-172 | Only the minimum changes, the maximum is kept, and an empty field removes the bound. |
| QuestionForm.SetMax | src/components/Assessments/QuestionForm.tsx:173-186 | Only the maximum changes and the minimum is kept. |
| QuestionForm.BoundsCommute | src/components/Assessments/QuestionForm.tsx:159-186 | Setting both bounds in either order gives the same range. |
| QuestionForm.SetMaxLength | src/components/Assessments/QuestionForm.tsx:190 | Only `maxLength` changes. |
| QuestionForm.AddOption | src/components/Assessments/QuestionForm.tsx:22-26 | Exactly one "" option is appended. |
| QuestionForm.UpdateOption | src/components/Assessments/QuestionForm.tsx:29-33 | Only option `i` changes. |
| QuestionForm.RemoveOption | src/components/Assessments/QuestionForm.tsx:36-40 | Option `i` is removed and later ones shift down. |
| QuestionForm.OptionRoundTrips | src/components/Assessments/QuestionForm.tsx:22-40 | Removing the option just added, or writing back an option's own text, changes nothing. |
| QuestionForm.Ids | src/components/Assessments/QuestionForm.tsx:95-103 | The ids of a question list, in order. |
| QuestionForm.ConditionChoices | src/components/Assessments/QuestionForm.tsx:95-103 | Every offered id belongs to a question, every other question is offered, and the edited question is not. |
| QuestionForm.ConditionChoicesConcat | src/components/Assessments/QuestionForm.tsx:95-103 | The choices of earlier sections come before those of later ones. |
| QuestionForm.ConditionChoicesSplitSection | src/components/Assessments/QuestionForm.tsx:95-103 | Within a section the choices follow the order of its questions. |
| QuestionForm.ConditionChoicesOneQuestion | src/components/Assessments/QuestionForm.tsx:95-103 | A single question contributes its id, unless it is the question being edited. |
| QuestionForm.PickedConditionIsNotSelf | src/components/Assessments/QuestionForm.tsx:84-103 | A picked condition never targets the question being edited. |
| Handlers.Matching | src/api/msw/handlers.ts:29-31 | A job is kept iff its lower-cased title contains the search and its status matches. |
| Handlers.IndexOfId | src/api/msw/handlers.ts:106-109 | The first position holding the id, or the length. |
| Handlers.Reordered | src/api/msw/handlers.ts:104-114 | Only `order` changes on each row. |
| Handlers.ReorderedPositions | src/api/msw/handlers.ts:104-114 | Each row's new order is its position in the moved, sorted list. |
| Handlers.ReorderedIsDense | src/api/msw/handlers.ts:104-114 | After a reorder, orders are exactly 0..N-1 and ids stay unique. |
| Handlers.ReorderMovesJobAtFromOrder | src/api/msw/handlers.ts:104-111 | The job whose order is `fromOrder` ends at min(toOrder, N-1). |
| Handlers.ReorderToSelf | src/api/msw/handlers.ts:104-114 | On a dense table, moving a position onto itself changes nothing. |
| Handlers.SetOrder | src/api/msw/handlers.ts:114 | `db.jobs.update(id, {order})` changes only that row's order. |
| Handlers.RewriteStep | src/api/msw/handlers.ts:114 | One more row update extends the rewritten prefix. |
| Handlers.RewriteDone | src/api/msw/handlers.ts:114 | Once every row is rewritten, the table is `Reordered`. |
| Handlers.Database.constructor | src/api/msw/handlers.ts:20 | Empty tables satisfy the table invariant. |
| Handlers.Database.ListJobs | src/api/msw/handlers.ts:22-39 | `total` counts the filtered jobs. The items are the requested page of them in `order` order: at most `pageSize`, all matching, sorted. |
| Handlers.WindowProperties | src/api/msw/handlers.ts:22-39 | Any window of the sorted filtered list is at most the window size, holds only jobs of the table that match the search and status, and is sorted by `order`. |
| Handlers.Database.CreateJob | src/api/msw/handlers.ts:52-74 | A taken slug is a 400 and the simulated failure a 500, both unchanged. Otherwise one job is appended with order = the job count, keeping orders dense. |
| Handlers.Database.UpdateJob | src/api/msw/handlers.ts:76-98 | It succeeds iff the id is given, the job exists and no new non-empty slug is taken. Then only that row changes, to the patched job. |
| Handlers.Database.Reorder | src/api/msw/handlers.ts:100-118 | A missing id is a 400. An in-range `fromOrder` gives `Reordered` through a loop of single-row updates. An out-of-range `fromOrder` is an error with no change. |
| Handlers.Database.CreateCandidate | src/api/msw/handlers.ts:140-165 | The name is trimmed, or "Unnamed"; the email is trimmed or "". The stage defaults to applied, one candidate is appended, and one "<name> added" note event is added. |
| Handlers.Database.PatchStage | src/api/msw/handlers.ts:178-199 | A missing id is a 400 and an unknown one a 404, both unchanged. Otherwise only that candidate's stage changes and one "Stage changed to <stage>" event is appended. |
| Handlers.Database.ListTimeline | src/api/msw/handlers.ts:202-211 | A missing candidate id is a 400. Otherwise the reply holds exactly that candidate's events, each as often as stored, sorted oldest first; equal timestamps keep the order in which the events were appended. |
| Handlers.Database.AppendTimeline | src/api/msw/handlers.ts:213-225 | Absent fields default to "", note and "". Exactly one event is appended. |
| Handlers.Database.GetAssessment | src/api/msw/handlers.ts:228-237 | The stored record, or an unstored "New Assessment" with no sections. |
| Handlers.Database.PutAssessment | src/api/msw/handlers.ts:239-244 | The record is stored under the body's job id, not the URL's. |
| Handlers.Patched | src/api/msw/handlers.ts:93 | Present fields win; id, order and creation time are kept; `updatedAt` is set. |
| Handlers.EmptyPatch | src/api/msw/handlers.ts:93 | An empty body only refreshes `updatedAt`. |
| Handlers.SliceProperties | src/api/msw/handlers.ts:34-35 | A page of a sorted list is sorted and drawn from it. |
| JobsList.ReplaceById | src/pages/Jobs/JobsList.tsx:70 | Only rows with the id are replaced. |
| JobsList.RemoveById | src/pages/Jobs/JobsList.tsx:74 | No row with the id is left, and every other row stays. |
| JobsList.ReplaceTemp | src/pages/Jobs/JobsList.tsx:65-70 | Replacing the prepended temporary row gives the server's job followed by the old list. |
| JobsList.RemoveTemp | src/pages/Jobs/JobsList.tsx:65-74 | Removing the prepended temporary row gives back the old list. |
| JobsList.OptimisticMove | src/pages/Jobs/JobsList.tsx:110 | The optimistic list holds the moved jobs, the dragged one at the target, with orders 0..n-1. |
| JobsList.PageEntry | src/api/msw/handlers.ts:32-35 | On a dense table, entry `i` of page `p` is the job with order `(p-1)*pageSize + i`. |
| JobsList.GlobalIndexIsOffset | src/pages/Jobs/JobsList.tsx:106-114 | The position sent for page-local index `i` on page `p` is `(p-1)*pageSize + i`. |
| JobsList.ServerAfterReorder | src/api/msw/handlers.ts:100-115 | The reorder handler keeps the table's length, and an empty id or a `fromOrder` past the last job (both failing requests) leaves the table unchanged. |
| JobsList.PageOneReorderMovesDraggedJob | src/pages/Jobs/JobsList.tsx:106-114 | On page 1 the page-local indices move the dragged job to the target order. |
| JobsList.PageTwoReorderMovesOtherJob | src/pages/Jobs/JobsList.tsx:106-114 | From page 2 on, page-local indices leave the dragged job in place and move the job whose order is the page-local index. |
| JobsList.GlobalReorderMovesDraggedJob | src/pages/Jobs/JobsList.tsx:106-114 | Indices offset by the earlier pages move the dragged job to the target row's order. |
| JobsList.DraggedJobLands | src/pages/Jobs/JobsList.tsx:106-114 | After the offset request, the dragged job has the drop target's order. |
| JobsList.MoveBeyond | src/api/msw/handlers.ts:109-111 | A move leaves positions beyond both of its ends alone. |
| JobsList.JobsListView.Load | src/pages/Jobs/JobsList.tsx:24-38 | On success: the current page of all jobs and `total`, with the error flag cleared. On failure: an empty list and the error flag set. The page number is unchanged. |
| JobsList.JobsListView.HandleCreate | src/pages/Jobs/JobsList.tsx:43-77 | A blank title or a slug on the page is refused, unchanged. Otherwise an active temporary job with order = list length is always prepended and the create request always sent. It succeeds iff the slug is free in the table and the write does not fail; then the table gains the created job and the temporary row becomes it. On failure the row is removed and the table is unchanged. |
| JobsList.JobsListView.SubmitCreate | src/pages/Jobs/JobsList.tsx:68-76 | The create request succeeds iff the slug is free and the write does not fail. Then the table gains exactly `CreatedJob` (order = job count) and the temporary row is replaced by it; otherwise the row is removed and the table is unchanged. The other tables, the page, total and error flag stay. |
| JobsList.JobsListView.HandleUpdate | src/pages/Jobs/JobsList.tsx:80-99 | A blank title or a slug held by another row is refused. Otherwise the update is always sent, and it succeeds iff `UpdateAccepted`; then that table row becomes the patched job and only the list rows with that id are replaced. On failure nothing changes. |
| JobsList.JobsListView.SubmitUpdate | src/pages/Jobs/JobsList.tsx:90-98 | The update succeeds iff `UpdateAccepted` for the title, slug and tags sent. Then exactly that table row becomes `Patched` and the list rows with that id are replaced by it; on failure neither the list nor the table changes. |
| JobsList.JobsListView.PrevPage | src/pages/Jobs/JobsList.tsx:171 | The page goes back one but never below 1. The page is reloaded only when its number changes; on page 1 the list, total and error flag stay as they were. |
| JobsList.JobsListView.NextPage | src/pages/Jobs/JobsList.tsx:177 | The page goes forward one, then reloads. |
| JobsList.JobsListView.HandleDragEnd | src/pages/Jobs/JobsList.tsx:102-121 | No target or the same row: no change and no request. A drop onto another row always produces the optimistic list, the renumbered move, and sends the request. The server table becomes `ServerAfterReorder` at the global positions, the dragged job takes the target's order, and the page is reloaded. |
| JobsList.JobsListView.CommitDrop | src/pages/Jobs/JobsList.tsx:110-120 | The server table becomes `ServerAfterReorder` at the global positions, the page is reloaded or emptied with the error flag, and on a current page the dragged job takes the target row's order. |
| CandidatesList.StageColumns | src/pages/Candidates/CandidatesList.tsx:8 | There are six columns, one per stage, in the order applied, screen, tech, offer, hired, rejected. |
| CandidatesList.Bucket | src/pages/Candidates/CandidatesList.tsx:34-37 | A column holds exactly the candidates of its stage. |
| CandidatesList.BucketSizesSum | src/pages/Candidates/CandidatesList.tsx:34-37 | The column sizes add up to the number of candidates. |
| CandidatesList.NthPosition | src/pages/Candidates/CandidatesList.tsx:43-48 | The `j`-th card of a column is the candidate at a position of `items` preceded by exactly `j` candidates of that stage. |
| CandidatesList.NthPositionIncreasing | src/pages/Candidates/CandidatesList.tsx:34-37 | Columns keep the relative order of `items`. |
| CandidatesList.GroupByStage | src/pages/Candidates/CandidatesList.tsx:34-37 | The `forEach`/`push` loop builds every column. |
| CandidatesList.StageMoveColumns | src/pages/Candidates/CandidatesList.tsx:51-63 | A stage change moves one card between two columns and leaves the others alone. The card lands where `items` order puts it, not at the drop index. |
| CandidatesList.CandidateBoard.OnDragEnd | src/pages/Candidates/CandidatesList.tsx:39-64 | No destination, or the same column: nothing changes and no request is sent. Another column: only the dragged candidate's stage changes, the order is kept, and exactly one stage update is sent. It succeeds iff the candidate is stored; then only that stored candidate's stage changes and one stage event is appended. |
| CandidatesList.CandidateBoard.HandleCreateCandidate | src/pages/Candidates/CandidatesList.tsx:66-81 | The server's candidate is appended to the table and the board, with stage applied, trimmed email, trimmed name or "Unnamed", and `createdAt` now. One "<name> added" note is appended, and the jobs and assessments tables stay. |
| JobForm.ParseTags | src/pages/Jobs/JobForm.tsx:32 | Every parsed tag is non-empty, trimmed and free of commas. |
| JobForm.ParseTagsConcat | src/pages/Jobs/JobForm.tsx:32 | Tags keep the order of the text: the tags before a comma come first, then those after it. |
| JobForm.ParseTagsOnePiece | src/pages/Jobs/JobForm.tsx:32 | Text without a comma gives its trimmed text as the one tag, or no tag if that is empty. |
| JobForm.ParseJoinRoundTrip | src/pages/Jobs/JobForm.tsx:17-32 | Tags shown as `join(', ')` parse back to the same list. |
| JobForm.ParseEmptyText | src/pages/Jobs/JobForm.tsx:32 | An empty tag field gives no tags. |
| JobForm.Submit | src/pages/Jobs/JobForm.tsx:27-47 | Blank title, then blank slug, then a taken slug are refused. Otherwise the trimmed payload goes to `onUpdate` (edited job with `onUpdate`) or to `onCreate`. |
| JobForm.UntouchedEditRoundTrip | src/pages/Jobs/JobForm.tsx:15-47 | Submitting an opened job untouched sends its own title, slug and tags to `onUpdate`. |
| Slugify.CollapseWs | src/utils/slugify.ts:2 | No whitespace is left and the result is no longer than the input. |
| Slugify.CollapseWsPieces | src/utils/slugify.ts:2 | A whitespace run on its own becomes one '-'; any other character is kept as it is. |
| Slugify.CollapseWsAppend | src/utils/slugify.ts:2 | Cutting the input between runs cuts the result at the same place. Together with `CollapseWsPieces`, each whitespace run becomes one '-' and all other characters survive in order. |
| Slugify.CollapseWsKeepsChars | src/utils/slugify.ts:2 | Apart from '-', every character of the result comes from the input. |
| Slugify.KeepWord | src/utils/slugify.ts:2 | Only word characters and '-' remain, each taken from the input. |
| Slugify.KeepWordConcat | src/utils/slugify.ts:2 | The filter works character by character: a character is kept iff it is a word character or '-', and order is kept. |
| Slugify.Slugify | src/utils/slugify.ts:1-3 | The output uses only `[a-z0-9_-]` and is no longer than the input. |
| Slugify.SlugIsFixedPoint | src/utils/slugify.ts:1-3 | A slug slugifies to itself. |
| Slugify.SlugifyIdempotent | src/utils/slugify.ts:1-3 | `slugify(slugify(s)) == slugify(s)`. |
| Slugify.EmptySlug | src/utils/slugify.ts:1-3 | Input with no word character or '-', whose whitespace is only at its ends, slugifies to "". |
| Slugify.WhitespaceOnlySlug | src/utils/slugify.ts:1-3 | Whitespace-only input slugifies to "". |
| Slugify.PunctuationAroundSpace | src/utils/slugify.ts:2 | `"! !"` slugifies to `"-"`. |

## Left out

- Rendering, routing, toasts, alerts, loading flags, modal visibility and the `console` calls are not modelled.
- The MSW transport is not modelled: URL and JSON parsing, status codes beyond the response tag, and `randomDelay` timers. The random `maybeFail` is a boolean parameter of `Handlers.Database.CreateJob`.
- Dexie persistence is not modelled. Tables are sequences in the order rows were added; the jobs listing and the reorder handler sort by `order`, so the stored order plays no part there.
- `seed.ts` is not part of this model. Its dense 0..N-1 orders are the `Handlers.Database.Valid` invariant.
- Ids (`uuid`, `nanoid`, `crypto.randomUUID`) and ISO timestamps are parameters; a timestamp is an integer.
- Numbers are integers. `valueAsNumber`, `Number(...)`, NaN and JavaScript coercion in `<`/`>` on non-numbers are not modelled. So a cleared runner number field (NaN, which passes the required check) is not represented, and only `Num` answers are compared with the bounds.
- `toLowerCase` is modelled for ASCII letters only.
- The drag-and-drop libraries are reduced to the indices they report. `arrayMove` is remove-then-insert, as in the reorder handler.
- Races between overlapping requests, and the order in which React applies state updates, are not modelled.
- `GET /api/jobs/:id`, `GET /api/candidates`, `GET /api/candidates/:id` and `POST /api/assessments/:jobId/submit` are not modelled: they read or echo without logic of their own. For the same reason the board's `load` is not modelled, and `CandidatesList.CandidateBoard.constructor` takes the loaded candidates.
- The runner's loading of the assessment is not modelled; `Runner.Validate` takes the loaded assessment as a parameter.
- Handlers.Database.CreateJob, Handlers.Database.UpdateJob: the slug check is modelled as a scan of the jobs table, whatever the database schema indexes. The code queries `where("slug")` although src/db/dexie.ts:15 declares no `slug` index; that query's behaviour is not modelled.
- Handlers.Database.UpdateJob: the body is limited to title, slug, tags and status. Any other field a caller might send (an `id` equal to the route's, `order`, `notes`) is not modelled.
- Handlers.Database.Reorder: the out-of-range `fromOrder` path is modelled as an error with no change. In the code, `undefined` is spliced in and the updates issued before the failing one rewrite orders to the values a dense table already has.
- Builder.AssessmentBuilder.UpdateSectionTitle, Builder.AssessmentBuilder.AddQuestion, Builder.AssessmentBuilder.UpdateQuestion, Builder.AssessmentBuilder.RemoveQuestion: the code assigns into, pushes onto or splices section objects that the previous array shares. Aliasing with earlier renders is not modelled; each edit gives a new section value.
- CandidatesList.CandidateBoard.OnDragEnd: `moved.stage = destStage` mutates an object shared with `items`. This is modelled as a point update of `items`. The spliced column copies, which the next render discards, are not modelled.
- JobsList.JobsListView.HandleDragEnd, JobsList.JobsListView.CommitDrop: the request (sent by `CommitDrop`) carries positions offset by the earlier pages, following the finding below. The request as written is captured by `JobsList.PageTwoReorderMovesOtherJob`.
- JobForm.Submit: `existingSlugs` defaults to [] when absent. That default is not a separate case; the caller passes the list.
- Runner.FileAnswer: the file object is abstracted to `Upload`.
- Handlers.Database.ListTimeline: events with equal timestamps come back in the order they were appended. The code reads them through the `candidateId` index, which orders ties by the random uuid primary key; that key order is not modelled.
- Runner.ToggleMulti: a current answer that is not a list counts as the empty list. The code does that only for falsy answers (undefined, "", 0, null): a non-empty string would be spread into characters, and other values make the handler throw. Only this handler writes a multi-choice answer, so it is a list or undefined.

## Findings

| source | as written | input that shows it | evidently intended | confidence | as-written member | corrected member |
|---|---|---|---|---|---|---|
| src/pages/Jobs/JobsList.tsx:106-114 | The reorder request sends `fromOrder`/`toOrder` as indices into the current page. The handler reads them as positions among all jobs sorted by order (src/api/msw/handlers.ts:104-111). | Page 2 of a dense table with at least 12 jobs: drag the first row (order 10) onto the second (order 11). The handler moves the job with order 0 to order 1, and the dragged job keeps order 10. | The dragged job moves to the order of the row it was dropped on. That means sending `(page-1)*pageSize + index` for both ends, which agrees with the code on page 1. | not executed | JobsList.PageTwoReorderMovesOtherJob | JobsList.JobsListView.HandleDragEnd |
