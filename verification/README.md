# Onboarding wizard: a verified model

This project models the state and data logic of a four-stage onboarding wizard:

1. a personal-information form;
2. a five-section questionnaire (HEXACO, CSI, ICAR, AQ-10, ASRS);
3. a development-goal picker;
4. a summary page.

It covers:

- the per-section answer stores and their `handleResponse` updates;
- the grouping and per-group counts of the CSI and ASRS sections;
- the section navigator with its Next gate;
- the top-level aggregate and its three partial-merge updaters;
- the path-to-step mapping and the stage wiring;
- the form validation;
- the goal toggle;
- the summary page's counts and title lookup.

Modules follow the components:

| module | component |
|---|---|
| `ICARSection`, `AQ10Section`, `ASRSSection`, `HEXACOSection`, `CSISection` | the five section components |
| `ResponseList` | the list-shaped upsert the ICAR, AQ-10 and ASRS sections share |
| `ScaleResponses` | the map-shaped update of HEXACO and CSI |
| `BBIAssessment` | the assessment stage |
| `OnboardingFlow` | the wizard's top level |
| `PersonalInfo`, `DevelopmentalGoals`, `OnboardingComplete` | the remaining stages |
| `Seqs`, `Wrappers` | generic helpers |

The list-shaped sections, the assessment navigator, the form, the goal picker and the top level are classes: `ResponseList.ListSection`, `BBIAssessment.Navigator`, `PersonalInfo.Form`, `DevelopmentalGoals.Picker` and `OnboardingFlow.Flow`. Each method is proved against a specification function, and the properties are proved as lemmas about those functions. The map-shaped HEXACO and CSI sections also hold their answers in component state; their update is modelled by the pure function `ScaleResponses.SetAnswer`, which returns the new store.

Three behaviours of the code are easy to misread:

- **Back from the goal picker** goes to the assessment route. The assessment component mounts afresh there, so the first section is shown, not the last one (`OnboardingFlow.BackFromGoalsRestartsAssessment`).
- **The assessment's Next gate.** `handleNextSection` has no completeness check. The only gate is the `disabled` prop of the Next button (BBIAssessment.tsx:216). The gate is modelled as `BBIAssessment.Navigator.ClickNext`, where a click on an incomplete section does nothing. `HandleNextSection` itself is ungated, as written.
- **Toggling a selected goal twice** does not restore the list unless the goal was last. The goal is removed and then appended at the end (`DevelopmentalGoals.ToggleTwicePresent`, `DevelopmentalGoals.ToggleTwiceCounterexample`). Toggling an unselected goal twice does restore the list.

## Model

| member | source | states |
|---|---|---|
| ResponseList.FindIndex | src/components/onboarding/assessment/ICARSection.tsx:27 | the result is -1 or an index whose record has the question id, and no earlier record has that id |
| ResponseList.ListSection.HandleResponse | src/components/onboarding/assessment/ICARSection.tsx:25-37 | the new list is the reference upsert of the old list, and the same list is forwarded to the parent |
| ResponseList.UpsertReplaces | src/components/onboarding/assessment/ICARSection.tsx:27-30 | re-answering replaces the first record for the id at the same index and changes nothing else |
| ResponseList.UpsertAppends | src/components/onboarding/assessment/ICARSection.tsx:31-33 | a first answer appends one record at the end and changes nothing else |
| ResponseList.UpsertIds | src/components/onboarding/assessment/AQ10Section.tsx:32-44 | the id column is unchanged for a re-answer and gains the id at the end for a first answer |
| ResponseList.UpsertKeepsUnique | src/components/onboarding/assessment/ASRSSection.tsx:41-53 | unique question ids stay unique |
| ResponseList.UpsertExactlyOne | src/components/onboarding/assessment/ICARSection.tsx:30-32 | afterwards exactly one record carries the id, and it holds the new answer |
| ResponseList.UpsertShape | src/components/onboarding/assessment/AQ10Section.tsx:33-40 | the length is unchanged for a re-answer and grows by one for a first answer; every record of another question keeps its value and position |
| ResponseList.ReplayIds | src/components/onboarding/assessment/ICARSection.tsx:25-37 | any sequence of answers keeps ids unique, and the answered ids are the old ones plus those answered |
| ResponseList.UpsertElements | src/components/onboarding/assessment/ICARSection.tsx:25-37 | after one answer the answered ids are the old ones plus the answered id |
| ResponseList.ReplayCountsDistinctIds | src/components/onboarding/assessment/ICARSection.tsx:129 | from an empty list, the displayed count is the number of distinct questions answered |
| ResponseList.UpsertStaysWithin | src/components/onboarding/assessment/AQ10Section.tsx:25-30 | answers from the catalog's questions and the option list keep every record inside both |
| ResponseList.AnsweredWithinCatalog | src/components/onboarding/assessment/ICARSection.tsx:12-23 | with unique ids from a catalog, the count is at most the catalog size |
| ResponseList.AnsweredAllIff | src/components/onboarding/assessment/ICARSection.tsx:129 | with unique catalog ids, the count reaches the catalog size exactly when every catalog question has a record |
| ResponseList.FilterKeepsUnique | src/components/onboarding/assessment/ASRSSection.tsx:216 | filtering a list with unique ids keeps them unique |
| ResponseList.UniqueIdsSnoc | src/components/onboarding/assessment/ICARSection.tsx:31-33 | a list with one more record has unique ids exactly when the rest does and the new id is fresh |
| ICARSection.AnsweredAtMostTen | src/components/onboarding/assessment/ICARSection.tsx:12-23 | the answered count is at most 10 |
| ICARSection.HandleResponseKeepsWellFormed | src/components/onboarding/assessment/ICARSection.tsx:25-37 | a click on an option of a catalog question keeps ids unique, inside the catalog and the options, and the count at most 10 |
| ICARSection.CompleteIffEveryQuestionAnswered | src/components/onboarding/assessment/ICARSection.tsx:129 | the list has 10 records exactly when every catalog question is answered |
| ICARSection.CatalogDistinct | src/components/onboarding/assessment/ICARSection.tsx:12-23 | the ten catalog ids are pairwise different |
| AQ10Section.AnsweredAtMostTen | src/components/onboarding/assessment/AQ10Section.tsx:12-23 | the answered count is at most 10 |
| AQ10Section.HandleResponseKeepsWellFormed | src/components/onboarding/assessment/AQ10Section.tsx:32-44 | a click on one of the four option tokens keeps ids unique, inside the catalog and the options, and the count at most 10 |
| AQ10Section.CompleteIffEveryQuestionAnswered | src/components/onboarding/assessment/AQ10Section.tsx:126 | the list has 10 records exactly when every catalog statement is answered |
| AQ10Section.CatalogDistinct | src/components/onboarding/assessment/AQ10Section.tsx:12-23 | the ten catalog ids are pairwise different |
| ASRSSection.QuestionIds | src/components/onboarding/assessment/ASRSSection.tsx:12-31 | the id list has one id per question, position by position |
| ASRSSection.CategoryProgress | src/components/onboarding/assessment/ASRSSection.tsx:216 | a category's answered count is at most the number of records |
| ASRSSection.CategoryRuns | src/components/onboarding/assessment/ASRSSection.tsx:60-61 | the Inattention filter yields questions 1-4 and 7-11, the Hyperactivity filter 5-6 and 12-18, each in catalog order |
| ASRSSection.RunKept | src/components/onboarding/assessment/ASRSSection.tsx:60-61 | a run of one category passes that category's filter whole |
| ASRSSection.RunDropped | src/components/onboarding/assessment/ASRSSection.tsx:60-61 | a run of one category passes no other category's filter |
| ASRSSection.FourRunsFilter | src/components/onboarding/assessment/ASRSSection.tsx:60-61 | filtering four runs filters each run |
| ASRSSection.AlternatingRuns | src/components/onboarding/assessment/ASRSSection.tsx:60-61 | of four runs alternating between two categories, the first category's filter keeps the first and third runs |
| ASRSSection.CategoriesPartitionCatalog | src/components/onboarding/assessment/ASRSSection.tsx:12-31 | the two filters have nine questions each, and every catalog question is in exactly one of them |
| ASRSSection.CategoryProgressAtMostSize | src/components/onboarding/assessment/ASRSSection.tsx:216-222 | with unique ids, a category's answered count is at most the category's size |
| ASRSSection.FourRunsIds | src/components/onboarding/assessment/ASRSSection.tsx:12-31 | the ids of four runs are the ids of each run, in order |
| ASRSSection.CatalogIdsPairwise | src/components/onboarding/assessment/ASRSSection.tsx:12-31 | no two catalog questions share an id |
| ASRSSection.CatalogIdsDistinct | src/components/onboarding/assessment/ASRSSection.tsx:12-31 | the eighteen catalog ids are pairwise different |
| ASRSSection.CategoryIdsSplitCatalog | src/components/onboarding/assessment/ASRSSection.tsx:12-31 | every catalog id is in exactly one category's id list |
| ASRSSection.CategoryProgressSums | src/components/onboarding/assessment/ASRSSection.tsx:216-222 | when every record answers a catalog question, the two category counts add up to the list length |
| ASRSSection.AnsweredAtMostEighteen | src/components/onboarding/assessment/ASRSSection.tsx:193 | the answered count is at most 18 |
| ASRSSection.HandleResponseKeepsWellFormed | src/components/onboarding/assessment/ASRSSection.tsx:41-53 | a click on one of the five frequency options keeps ids unique and inside the catalog and the options |
| ASRSSection.CompleteIffEveryQuestionAnswered | src/components/onboarding/assessment/ASRSSection.tsx:193 | the list has 18 records exactly when every catalog question is answered |
| ScaleResponses.SetAnswer | src/components/onboarding/assessment/HEXACOSection.tsx:48 | the id maps to the value, every other key and value is unchanged, and the key count grows by one exactly for a new id |
| ScaleResponses.SetAnswerIdempotent | src/components/onboarding/assessment/HEXACOSection.tsx:48 | the same answer given twice is the same as given once |
| ScaleResponses.SetAnswerLastWins | src/components/onboarding/assessment/CSISection.tsx:70 | of two answers to one question only the later is kept |
| ScaleResponses.SetAnswerKeepsWellFormed | src/components/onboarding/assessment/HEXACOSection.tsx:39-45 | values from the 1-5 scale and catalog ids keep the store on the scale and inside the catalog |
| ScaleResponses.KeyCountWithinCatalog | src/components/onboarding/assessment/HEXACOSection.tsx:133 | with catalog keys, the key count is at most the catalog size, and reaches it exactly when every question has an entry |
| ScaleResponses.AnswerIds | src/components/onboarding/assessment/HEXACOSection.tsx:47-51 | the ids of a click sequence, position by position |
| ScaleResponses.ReplayKeys | src/components/onboarding/assessment/HEXACOSection.tsx:47-51 | after any clicks, the keys are the old keys plus the clicked ids |
| ScaleResponses.ReplayLastClickWins | src/components/onboarding/assessment/CSISection.tsx:69-73 | a clicked question holds the value of its last click |
| ScaleResponses.ReplayKeepsUntouched | src/components/onboarding/assessment/CSISection.tsx:70 | clicks on other questions leave an entry unchanged |
| ScaleResponses.ReplayCountsDistinctIds | src/components/onboarding/assessment/HEXACOSection.tsx:133 | from an empty store, the key count is the number of distinct questions clicked |
| HEXACOSection.CatalogDistinct | src/components/onboarding/assessment/HEXACOSection.tsx:12-37 | the 24 catalog ids are pairwise different |
| HEXACOSection.ProgressWithinCatalog | src/components/onboarding/assessment/HEXACOSection.tsx:133 | the key count is at most 24, and reaches 24 exactly when every statement is answered |
| HEXACOSection.HandleResponseKeepsWellFormed | src/components/onboarding/assessment/HEXACOSection.tsx:47-51 | a scale click on a catalog statement keeps the store on the scale, inside the catalog and at most 24 keys |
| CSISection.QuestionIds | src/components/onboarding/assessment/CSISection.tsx:12-36 | the id list has one id per question, position by position |
| CSISection.QuestionIdsSnoc | src/components/onboarding/assessment/CSISection.tsx:12-36 | one more question at the end adds its id at the end |
| CSISection.OfDimensionSnoc | src/components/onboarding/assessment/CSISection.tsx:80-86 | one more question at the end joins its own dimension's list only |
| CSISection.DimensionsInOrderFacts | src/components/onboarding/assessment/CSISection.tsx:80-86 | the first-occurrence dimension list has no repeats, and lists a dimension exactly when some question has it |
| CSISection.GroupStep | src/components/onboarding/assessment/CSISection.tsx:80-86 | one reduce step keeps the accumulator equal to the grouping of the prefix read so far |
| CSISection.GroupedQuestions | src/components/onboarding/assessment/CSISection.tsx:80-86 | the reduce creates a group exactly for each dimension that occurs, in first-occurrence order; each group holds exactly that dimension's questions in catalog order |
| CSISection.EachQuestionInOneGroup | src/components/onboarding/assessment/CSISection.tsx:80-86 | every question is in its own dimension's group and in no other |
| CSISection.DimensionsOfRun | src/components/onboarding/assessment/CSISection.tsx:80-86 | appending a run of one dimension adds that dimension once, if it is new |
| CSISection.NewRun | src/components/onboarding/assessment/CSISection.tsx:80-86 | appending a run of a dimension not met yet adds it at the end of the order |
| CSISection.FirstRun | src/components/onboarding/assessment/CSISection.tsx:80-86 | a non-empty run of one dimension groups into just that dimension |
| CSISection.RunKept | src/components/onboarding/assessment/CSISection.tsx:80-86 | a run of one dimension passes that dimension's filter whole |
| CSISection.RunDropped | src/components/onboarding/assessment/CSISection.tsx:80-86 | a run of one dimension passes no other dimension's filter |
| CSISection.BlocksUniform | src/components/onboarding/assessment/CSISection.tsx:12-36 | the catalog is its four blocks of four, each of one dimension |
| CSISection.DimensionsDistinct | src/components/onboarding/assessment/CSISection.tsx:12-36 | the four dimensions are different |
| CSISection.FourRunsOrder | src/components/onboarding/assessment/CSISection.tsx:80-86 | four uniform runs of four different dimensions list those dimensions in order |
| CSISection.FourRunsFilter | src/components/onboarding/assessment/CSISection.tsx:80-86 | filtering four runs filters each run |
| CSISection.FourRunsGroup | src/components/onboarding/assessment/CSISection.tsx:80-86 | of four uniform runs of four different dimensions, each dimension's group is its run |
| CSISection.CatalogGrouping | src/components/onboarding/assessment/CSISection.tsx:80-86 | the catalog groups into the four dimensions in catalog order, each with its block of 4 questions |
| CSISection.DimensionCompleted | src/components/onboarding/assessment/CSISection.tsx:209 | a dimension's completed count is at most the dimension's size |
| CSISection.CompletedCountsEntries | src/components/onboarding/assessment/CSISection.tsx:209 | because every scale value is non-zero, the completed count is the number of the dimension's questions with an entry |
| CSISection.ZeroIsNotCompleted | src/components/onboarding/assessment/CSISection.tsx:187-209 | a stored 0 counts as a key but not as completed |
| CSISection.CompletedIds | src/components/onboarding/assessment/CSISection.tsx:209 | the ids of the completed questions are the catalog ids with a truthy entry, in order |
| CSISection.BlockCountsSum | src/components/onboarding/assessment/CSISection.tsx:209 | the four blocks' completed counts add up to the catalog's |
| CSISection.CatalogCompletedWithinKeys | src/components/onboarding/assessment/CSISection.tsx:187-209 | the catalog's completed count never exceeds the key count |
| CSISection.CatalogIdsPairwise | src/components/onboarding/assessment/CSISection.tsx:12-36 | no two catalog statements share an id |
| CSISection.CatalogIdsDistinct | src/components/onboarding/assessment/CSISection.tsx:12-36 | the sixteen catalog ids are pairwise different |
| CSISection.DimensionCountsWithinKeyCount | src/components/onboarding/assessment/CSISection.tsx:187-209 | in any store, the four dimension counts sum to at most the key count |
| CSISection.ProgressWithinCatalog | src/components/onboarding/assessment/CSISection.tsx:187 | the key count is at most 16, and reaches 16 exactly when every statement is answered |
| CSISection.HandleResponseKeepsWellFormed | src/components/onboarding/assessment/CSISection.tsx:69-73 | a scale click on a catalog statement keeps the store on the scale, inside the catalog and at most 16 keys |
| BBIAssessment.Slot | src/components/onboarding/BBIAssessment.tsx:166-183 | the store handed to a section component belongs to that section |
| BBIAssessment.WithSectionReplacesOnlyThatSlot | src/components/onboarding/BBIAssessment.tsx:70-74 | `updateSectionData` stores the new data in the named slot and leaves the other four unchanged |
| BBIAssessment.SlotsDetermineResults | src/components/onboarding/BBIAssessment.tsx:24 | a results record is determined by its five slots |
| BBIAssessment.WithSectionOwnSlot | src/components/onboarding/BBIAssessment.tsx:70-74 | storing a section's own data back changes nothing |
| BBIAssessment.SectionIndex | src/components/onboarding/BBIAssessment.tsx:27-68 | each section id is on exactly one row of the table |
| BBIAssessment.SectionTotalsSum | src/components/onboarding/BBIAssessment.tsx:27-68 | the totals 24, 16, 10, 10, 18 sum to 78 |
| BBIAssessment.CompleteIffAllAnswered | src/components/onboarding/BBIAssessment.tsx:92-116 | for data the sections can produce, progress is at most the total, and a section is complete exactly when all its questions are answered |
| BBIAssessment.NothingCompleteInitially | src/components/onboarding/BBIAssessment.tsx:112-116 | with empty stores no section is complete |
| BBIAssessment.Navigator.constructor | src/components/onboarding/BBIAssessment.tsx:23-24 | the stage mounts at section 0 with a copy of the data |
| BBIAssessment.Navigator.UpdateSectionData | src/components/onboarding/BBIAssessment.tsx:70-74 | one slot is replaced, the section index kept, and the whole record forwarded |
| BBIAssessment.Navigator.HandleNextSection | src/components/onboarding/BBIAssessment.tsx:76-82 | below the last section the index steps up; at the last it stays and `onNext` is called; the index stays in 0..4 |
| BBIAssessment.Navigator.HandlePrevSection | src/components/onboarding/BBIAssessment.tsx:84-90 | above 0 the index steps down; at 0 `onBack` is called; the index stays in 0..4 |
| BBIAssessment.Navigator.ClickNext | src/components/onboarding/BBIAssessment.tsx:214-216 | a click on an incomplete section changes nothing; on a complete one it acts as `handleNextSection`; `onNext` only follows a complete last section |
| OnboardingFlow.InitialDataIsEmpty | src/components/onboarding/OnboardingFlow.tsx:30-47 | all personal fields are empty, no section has an answer, no goal is selected |
| OnboardingFlow.MergeInfo | src/components/onboarding/OnboardingFlow.tsx:49-54 | the supplied fields take the new value, every other field keeps its own |
| OnboardingFlow.MergeInfoEmpty | src/components/onboarding/OnboardingFlow.tsx:49-54 | merging nothing changes nothing |
| OnboardingFlow.MergeInfoSingleField | src/components/onboarding/PersonalInfo.tsx:21-23 | the form's one-field partial merged by the parent equals the form's own edit |
| OnboardingFlow.MergeInfoComposes | src/components/onboarding/OnboardingFlow.tsx:49-54 | two merges are one merge of the combined partial, the later winning |
| OnboardingFlow.MergeResults | src/components/onboarding/OnboardingFlow.tsx:56-61 | the supplied sections take the new store, every other section keeps its own |
| OnboardingFlow.FullPatch | src/components/onboarding/BBIAssessment.tsx:73 | the forwarded whole record is a partial with all five sections |
| OnboardingFlow.MergeFullPatch | src/components/onboarding/OnboardingFlow.tsx:56-61 | merging the forwarded record makes the parent's copy equal to the stage's |
| OnboardingFlow.MergeSingleSection | src/components/onboarding/OnboardingFlow.tsx:56-61 | merging a one-section partial is the stage's own slot update |
| OnboardingFlow.Flow.constructor | src/components/onboarding/OnboardingFlow.tsx:30-47 | the aggregate starts as the initial value |
| OnboardingFlow.Flow.UpdatePersonalInfo | src/components/onboarding/OnboardingFlow.tsx:49-54 | only the personal slice changes, by the merge |
| OnboardingFlow.Flow.UpdateAssessmentResults | src/components/onboarding/OnboardingFlow.tsx:56-61 | only the results slice changes, by the merge |
| OnboardingFlow.Flow.UpdateDevelopmentalGoals | src/components/onboarding/OnboardingFlow.tsx:63-68 | the goal list is replaced and the other slices are unchanged |
| OnboardingFlow.MissingCharacter | src/components/onboarding/OnboardingFlow.tsx:72-75 | a path lacking a character of the fragment does not include it |
| OnboardingFlow.IncludedAt | src/components/onboarding/OnboardingFlow.tsx:72-75 | a path with the fragment at some position includes it |
| OnboardingFlow.GetCurrentStep | src/components/onboarding/OnboardingFlow.tsx:70-77 | the first fragment the path includes, in the order personal-info, assessment, goals, complete, decides the step 1-4; a path with none of them is step 1 (both directions for each step) |
| OnboardingFlow.RouteIncludesFragment | src/components/onboarding/OnboardingFlow.tsx:91-123 | every stage's route includes its own fragment |
| OnboardingFlow.PersonalInfoRouteStep | src/components/onboarding/OnboardingFlow.tsx:72 | the form's route shows step 1 |
| OnboardingFlow.AssessmentRouteStep | src/components/onboarding/OnboardingFlow.tsx:73 | the assessment's route shows step 2 |
| OnboardingFlow.GoalsRouteStep | src/components/onboarding/OnboardingFlow.tsx:74 | the goal picker's route shows step 3 |
| OnboardingFlow.CompleteRouteStep | src/components/onboarding/OnboardingFlow.tsx:75 | the summary's route shows step 4 |
| OnboardingFlow.PrefixStep | src/components/onboarding/OnboardingFlow.tsx:76-90 | the bare prefix falls through to the default step 1 |
| OnboardingFlow.StepsFollowRoutes | src/components/onboarding/OnboardingFlow.tsx:70-77 | every stage's route shows that stage's step |
| OnboardingFlow.StageEdges | src/components/onboarding/OnboardingFlow.tsx:97-130 | the edges link exactly the stages one step apart, none leaves the summary, Next goes one step on and Back one step back |
| OnboardingFlow.MountAssessment | src/components/onboarding/BBIAssessment.tsx:23-24 | mounting the assessment stage creates a navigator at the section `Mount` records, 0, with the aggregate's answers |
| OnboardingFlow.BackFromGoalsRestartsAssessment | src/components/onboarding/OnboardingFlow.tsx:119 | Back from the goals lands on assessment section 0, not the last section |
| PersonalInfo.Set | src/components/onboarding/PersonalInfo.tsx:22 | the named field takes the value and every other field keeps its own |
| PersonalInfo.FieldsDetermineInfo | src/components/onboarding/PersonalInfo.tsx:4-15 | a record is determined by its six fields |
| PersonalInfo.TrimStart | src/components/onboarding/PersonalInfo.tsx:34-36 | the result is a suffix of the input, only whitespace was dropped, and it does not start with whitespace |
| PersonalInfo.TrimEnd | src/components/onboarding/PersonalInfo.tsx:34-36 | the result is a prefix of the input, only whitespace was dropped, and it does not end with whitespace |
| PersonalInfo.TrimEmptyIff | src/components/onboarding/PersonalInfo.tsx:34-36 | a trimmed string is empty exactly when the input is all whitespace |
| PersonalInfo.TrimStartEmptyIff | src/components/onboarding/PersonalInfo.tsx:34-36 | trimming the start leaves nothing exactly when the input is all whitespace |
| PersonalInfo.TrimEndEmptyIff | src/components/onboarding/PersonalInfo.tsx:34-36 | trimming the end leaves nothing exactly when the input is all whitespace |
| PersonalInfo.Utf16Length | src/components/onboarding/PersonalInfo.tsx:37 | the code-unit length is between the character count and twice it |
| PersonalInfo.Utf16LengthUniform | src/components/onboarding/PersonalInfo.tsx:37 | all Basic Multilingual Plane characters give the character count; all others give twice it |
| PersonalInfo.ShortPasswordIsLengthBelowEight | src/components/onboarding/PersonalInfo.tsx:37 | the password check is the same as "fewer than 8 code units" |
| PersonalInfo.ValidateFields | src/components/onboarding/PersonalInfo.tsx:31-43 | there is an error entry with its message for exactly the failing input fields; the result is true exactly when there are none, exactly when the record is valid |
| PersonalInfo.EmptyIffNoKeys | src/components/onboarding/PersonalInfo.tsx:42 | a key count of zero means no keys |
| PersonalInfo.ValidityIgnoresDisplayedFields | src/components/onboarding/PersonalInfo.tsx:34-39 | email and organization never affect validity |
| PersonalInfo.PasswordExamples | src/components/onboarding/PersonalInfo.tsx:37 | a 7-character password is rejected; "12345678" and four emoji are accepted |
| PersonalInfo.BlankExamples | src/components/onboarding/PersonalInfo.tsx:34-36 | a string of spaces and a tab is blank, and so is the empty string |
| PersonalInfo.WhitespaceIsBlank | src/components/onboarding/PersonalInfo.tsx:34-36 | a string of spaces and tabs is blank |
| PersonalInfo.NotBlankWithVisibleFirst | src/components/onboarding/PersonalInfo.tsx:34-36 | a string starting with a visible character is not blank |
| PersonalInfo.ValidWhenFilled | src/components/onboarding/PersonalInfo.tsx:31-43 | names and role that start with a visible character and a password of at least 8 code units pass validation |
| PersonalInfo.ValidFormExample | src/components/onboarding/PersonalInfo.tsx:31-43 | a complete form validates, whatever the displayed fields hold |
| PersonalInfo.ShortPasswordExample | src/components/onboarding/PersonalInfo.tsx:31-43 | a seven-character password fails validation |
| PersonalInfo.BlankFirstNameExample | src/components/onboarding/PersonalInfo.tsx:31-43 | a whitespace-only first name fails validation |
| PersonalInfo.EmptyFormExample | src/components/onboarding/PersonalInfo.tsx:31-43 | the empty form fails validation |
| PersonalInfo.Form.constructor | src/components/onboarding/PersonalInfo.tsx:18-19 | the form starts with the given data and no errors |
| PersonalInfo.Form.HandleInputChange | src/components/onboarding/PersonalInfo.tsx:21-29 | only the named field changes; a one-field partial is forwarded; a non-empty error on that field becomes '' and other errors are unchanged |
| PersonalInfo.Form.ValidateForm | src/components/onboarding/PersonalInfo.tsx:31-43 | the error map reports exactly the failing fields, and the result is the record's validity |
| PersonalInfo.Form.HandleNext | src/components/onboarding/PersonalInfo.tsx:45-49 | `onNext` is called exactly when the form validates, and the error map then reports exactly the failing fields |
| PersonalInfo.ValidIffEveryFieldValid | src/components/onboarding/PersonalInfo.tsx:31-43 | a record is valid exactly when each of the four input fields passes its check |
| DevelopmentalGoals.ToggleFlipsMembership | src/components/onboarding/DevelopmentalGoals.tsx:82-85 | a toggle flips the clicked id's membership and keeps every other id's |
| DevelopmentalGoals.ToggleAbsentAppends | src/components/onboarding/DevelopmentalGoals.tsx:83-85 | an unselected id is appended at the end |
| DevelopmentalGoals.TogglePresentRemoves | src/components/onboarding/DevelopmentalGoals.tsx:83-84 | a selected id is removed where it stands, and the rest keep their order |
| DevelopmentalGoals.ToggleKeepsDistinct | src/components/onboarding/DevelopmentalGoals.tsx:83-85 | a duplicate-free selection stays duplicate-free |
| DevelopmentalGoals.ToggleTwiceRestoresAbsent | src/components/onboarding/DevelopmentalGoals.tsx:82-89 | selecting and deselecting an id restores the list |
| DevelopmentalGoals.ToggleTwicePresent | src/components/onboarding/DevelopmentalGoals.tsx:82-89 | deselecting and reselecting moves the id to the end; the list is restored exactly when it was last |
| DevelopmentalGoals.ToggleTwiceCounterexample | src/components/onboarding/DevelopmentalGoals.tsx:83-85 | toggling "communication" twice in ["communication", "leadership"] reorders the list |
| DevelopmentalGoals.SelectionAtMostNine | src/components/onboarding/DevelopmentalGoals.tsx:114 | a duplicate-free selection from the catalog has at most 9 goals |
| DevelopmentalGoals.Picker.constructor | src/components/onboarding/DevelopmentalGoals.tsx:12 | the selection starts as the given list |
| DevelopmentalGoals.Picker.ToggleGoal | src/components/onboarding/DevelopmentalGoals.tsx:82-89 | the selection becomes the toggled list, which is forwarded |
| OnboardingComplete.Find | src/components/onboarding/OnboardingComplete.tsx:24 | a result is a catalog goal with the id; there is none exactly when no goal has the id; otherwise it is the first goal with the id |
| OnboardingComplete.SelectedGoalTitles | src/components/onboarding/OnboardingComplete.tsx:22-27 | one title per selected id, in selection order |
| OnboardingComplete.TitlesOfCatalog | src/components/onboarding/OnboardingComplete.tsx:10-27 | a catalog id maps to its title, and an unknown id maps to itself |
| OnboardingComplete.GoalIdsPairwise | src/components/onboarding/OnboardingComplete.tsx:10-19 | no two goals of the summary catalog share an id |
| OnboardingComplete.CatalogsAgree | src/components/onboarding/DevelopmentalGoals.tsx:16-80 | the summary page's catalog has the picker's nine ids in the same order |
| OnboardingComplete.SummaryAgreesWithAssessment | src/components/onboarding/OnboardingComplete.tsx:29-43 | each entry's count is the section's progress, and its total is the assessment table's, whatever the data |
| OnboardingComplete.TotalQuestionsIsTableSum | src/components/onboarding/OnboardingComplete.tsx:46 | the fixed total 78 is the sum of the table's totals |
| OnboardingComplete.EntryWithinTotal | src/components/onboarding/OnboardingComplete.tsx:29-43 | for data the sections can produce, each entry is at most its total and reaches it exactly when the section is fully answered |
| OnboardingComplete.TotalCompletedWithinTotal | src/components/onboarding/OnboardingComplete.tsx:47-51 | for data the sections can produce, the overall count is at most 78, and reaches it exactly when every question is answered |
| OnboardingComplete.GoalsPanelOf | src/components/onboarding/OnboardingComplete.tsx:164-182 | the page hides the goals panel for an empty goal list, and otherwise shows one title per goal without the "no goals" message |
| OnboardingComplete.NoGoalsMessageUnreachable | src/components/onboarding/OnboardingComplete.tsx:164-182 | as written, the "no goals" message never shows, and the panel is hidden exactly for an empty list |
| OnboardingComplete.IntendedPanelShowsMessageIffNoGoals | src/components/onboarding/OnboardingComplete.tsx:164-183 | the corrected panel is always shown, with the message exactly when no goal is selected and one title per goal |

## Left out

- Floating-point percentages and progress-bar widths are not modelled. All counts are integers.
- The progress-bar component only renders; it is not part of this model.
- The marketing pages, the router setup and the styling configuration are not part of this model.
- React plumbing is not modelled: `useState`, the `useEffect` copies from props, hover state, and the `data || []` / `data || {}` defaults. Each component's held state is a class field set by its constructor from the props.
- Router navigation and `window.location` are not modelled. `GetCurrentStep` takes the path as a parameter, and navigation is the `NextStage` / `BackStage` / `Mount` functions over stages.
- Question text, icons, colours and the `reverse` flags are not modelled; nothing is computed from them.
- The `default` branch of `getCurrentSectionProgress` is not modelled. Section ids are an enumeration, so it cannot be reached.
- Section data is loosely typed in the source. The model tags each store with its section (`SectionData`). `OnboardingFlow.MergeResults` requires each key of a partial to carry its own section's store, which is what the stages send.
- `DevelopmentalGoals.handleNext` is not modelled as a method of its own. It calls `onNext` unconditionally, which is `NextStage(GoalsStage)`, so zero goals are allowed.
- Non-integer values (such as `NaN`) are not modelled; the stores map ids to integers. A stored 0 is modelled as falsy (`CSISection.ZeroIsNotCompleted`).
- PersonalInfo.Utf16Length: counts UTF-16 code units from Unicode scalar values. Unpaired surrogates cannot occur in Dafny strings.
- Password strength, submission and any back end are not modelled; the code has none.

## Findings

| source | as written | input that shows it | evidently intended | confidence | as-written member | corrected member |
|---|---|---|---|---|---|---|
| src/components/onboarding/OnboardingComplete.tsx:164-182 | the "No specific development goals selected" message sits inside a block that only renders for a non-empty goal list | any goal list: for [] the panel is hidden, for a non-empty list the message's guard is false | the panel is shown with that message when no goal is selected | medium, not executed | OnboardingComplete.NoGoalsMessageUnreachable | OnboardingComplete.IntendedPanelShowsMessageIffNoGoals |
