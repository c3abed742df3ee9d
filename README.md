# Study-plan progress engine

A Dafny model of the academic-progress engine of a study-plan tracker. A
student picks a career and marks each course of the loaded plan as pending,
enrolled, approved (course passed, final exam pending) or final (final passed,
with a grade). The engine decides what may be done next, and it keeps
progress for several careers in one store.

The modules follow the source files:

- `PlanTypes` (`plan_types.dfy`) is the plan data model: courses with an
  optional year, semester and one conjunctive prerequisite list `allOf`; a
  plan with its mandatory courses, optional optative pool and rule
  configuration; the four course states; a progress record (a state plus an
  optional grade); and the four-field statistics record. The datatypes encode
  directly that a state is one of exactly four and that there are no
  disjunctive prerequisite groups.
- `Eligibility` (`eligibility.dfy`) is the evaluator over a progress map
  keyed by bare course id:
  - `canEnroll` under the lenient rule (approved or final) or the strict rule
    (final only);
  - `canTakeFinal`, with its escalation to the strict check when the plan
    sets `requireFinal`;
  - `getMissingPrereqs`, the loop that collects the failing prerequisites in
    declared order. It is proved equal to a filter specification.
- `Store` (`store.dfy`) is the progress store, a class with the plan,
  progress map, current career and optative slot assignments. It holds:
  - the shared-course list and the keying function (shared ids bare, the
    others under `career_`);
  - `setCourseState`, which replaces one record and keeps a grade only in
    state final;
  - `selectOptative`;
  - the statistics.
- `CareerProgress` (`career_progress.dfy`) is the projection the components
  build before every eligibility question. It keeps the `career_` entries and
  strips the prefix. The `forEach` loop is proved equal to a map
  specification.
- `CourseCard` (`course_card.dfy`) holds the card's decisions:
  - which record it shows;
  - `enrollable` and `finable`;
  - the legality table `canChangeToState`;
  - `handleStateChange` and `handleGradeSubmit`, as methods on the store;
  - the status badge;
  - the placement label.
- `OptativesView` (`optatives_view.dfy`) holds:
  - the year/semester filter;
  - the view's own projection;
  - for each optative: eligible, already chosen, selectable, and whether its
    missing list is shown;
  - the enrollment checklist.
- `App` (`app.dfy`) holds:
  - the per-career slot configuration;
  - slot ids and the "selected for this career" query;
  - binding a choice to a slot;
  - slot resolution;
  - grouping of the mandatory courses by (year, semester) (the `reduce` loop
    as a method);
  - the numeric ordering of the groups and their headings.
- `Wrappers`, `Seqs`, `Decimal` and `Dictionary` are the shared vocabulary:
  - `Option`;
  - order-preserving filtering;
  - the decimal text of the slot index and of group keys;
  - a JavaScript object as an insertion-ordered key/value list. For keys that
    are not integer-like, such as the slot ids and group keys the app builds,
    that order is what `Object.keys` returns, so it fixes the order of the
    "selected for career" list.

Grades are reals, and no rounding is involved. The plan and the keyboard-entered
grade come from outside, so they are parameters. A grade that
does not parse is `None`.

### Behaviour kept as written

The following are modelled as the code behaves and stated as lemmas:

- **Prefixed card reads.** The card always reads its own record at
  `career_id`. The store files shared courses under the bare id. A state set
  on a shared course is therefore written where the card never looks
  (`CourseCard.SharedWriteInvisibleToCard`).
- **Projection drops shared records.** The projection keeps only `career_`
  keys, so shared records never reach eligibility.
  - `CourseCard.SharedWriteInvisibleToProjection`: a write to a shared
    course leaves the projection unchanged.
  - `CourseCard.SharedPrereqBlocks`: a course whose prerequisite is shared
    stays blocked until a `career_` record for that prerequisite exists.
- **Stats and slots use different markers.** The statistics count optatives
  under `career_OPT-` keys, while slots are created as `career_SLOT-i`.
  - `App.SelectionKeepsStatsOptativesEmpty`: with careers free of `_`, slot
    selections never feed the statistics.
  - `Store.NeverComplete`: a career that requires optatives then never
    reaches 100%.
- **Strict rule lists nothing.** Under the strict rule, an optative whose
  prerequisites are approved but not final is ineligible and still lists
  nothing as missing (`OptativesView.StrictIneligibleListsNothing`). The
  missing list is always computed under the lenient rule.
- **Labels disagree for courses without a year.** A course without a year is
  grouped under leveling, but its card shows no placement
  (`App.SectionAndCardLabels`).

In a few places the code's behaviour may be unintended. The model follows
the code:

- The "selected for career" list is in key insertion order, not in slot
  order.
- Prerequisites "at approved strength" for the final exam means state final
  (`isApprovedOnly`).
- The average grade takes every defined grade. It does not filter by state.
  Under the store invariant only final records carry a grade
  (`Store.GradesAtMostFinished`).
- The store itself does not check transition legality. Only the card does.
- `prereqs.allOf` is declared required in the plan types, but the evaluator
  tolerates its absence. It is optional here.

## Model

| member | source | states |
|---|---|---|
| PlanTypes.Lookup | src/lib/elegibility.ts:11 | `progress[id]` is defined exactly when the key is present, and then it is that record |
| PlanTypes.StateOf | src/lib/elegibility.ts:5-6 | `progress?.state` is defined exactly when the record is, and then it is the record's state |
| PlanTypes.HasCareer | src/store/usePlanStore.ts:77 | a missing or empty career is falsy; a truthy one is a non-empty string |
| Eligibility.IsApprovedOrRegular | src/lib/elegibility.ts:5 | a record exists and its state is approved or final |
| Eligibility.IsApprovedOnly | src/lib/elegibility.ts:6 | a record exists and its state is final |
| Eligibility.Passes | src/lib/elegibility.ts:5-11 | a prerequisite passes iff it has a record in state final, or in state approved under the lenient rule |
| Eligibility.Satisfies | src/lib/elegibility.ts:8-14 | absent prerequisites or an absent `allOf` satisfy; otherwise satisfied iff every listed id passes |
| Eligibility.CanEnroll | src/lib/elegibility.ts:16-18 | holds iff every declared prerequisite passes the rule |
| Eligibility.CanTakeFinal | src/lib/elegibility.ts:20-34 | never for a course already final; outside the escalated case only from enrolled or approved; in the escalated case only when every prerequisite is final |
| Eligibility.Missing | src/lib/elegibility.ts:36-51 | no longer than the declared list, and every listed id is a declared prerequisite |
| PlanTypes.FindById | src/components/CourseCard.tsx:28-29 | yields the first course with the id, and None exactly when no course has it |
| Eligibility.GetMissingPrereqs | src/lib/elegibility.ts:36-51 | the loop returns exactly the declared prerequisites that fail the check for `forFinal`, in declared order; no prereqs or no list gives [] |
| Eligibility.NoPrereqsAlwaysEnrollable | src/lib/elegibility.ts:9-13 | absent prerequisites or an absent `allOf` make `canEnroll` true for any progress map and rule |
| Eligibility.CanEnrollMeaning | src/lib/elegibility.ts:5-18 | `canEnroll` holds iff every listed prerequisite has a record in state final, or in state approved under the lenient rule |
| Eligibility.CanEnrollLocal | src/lib/elegibility.ts:11-12 | two progress maps that agree on the listed prerequisites give the same `canEnroll` |
| Eligibility.StrictImpliesLenient | src/lib/elegibility.ts:5-6 | passing the strict rule implies passing the lenient one |
| Eligibility.FinalIsTerminal | src/lib/elegibility.ts:23 | `canTakeFinal` is false when the course's own state is final |
| Eligibility.CanTakeFinalLenient | src/lib/elegibility.ts:25-27 | without `requireFinal` or without a course, `canTakeFinal` holds iff the own state is enrolled or approved |
| Eligibility.CanTakeFinalEscalated | src/lib/elegibility.ts:29-33 | with `requireFinal` and a non-final own state, `canTakeFinal` holds iff every declared prerequisite is final (vacuously with none) |
| Eligibility.MissingIsFailingSubseq | src/lib/elegibility.ts:40-48 | the missing list is an order-preserving subsequence of the declared list, holding exactly the failing ids |
| Eligibility.MissingEmptyIffEnrollable | src/lib/elegibility.ts:36-50 | nothing is missing iff `canEnroll` passes under the rule matching `forFinal` |
| Store.IsShared | src/store/usePlanStore.ts:44 | a shared id is non-empty and contains no `_` |
| Store.ProgressKey | src/store/usePlanStore.ts:41-49 | the key ends with the course id, and is the bare id exactly when the course is shared or no career is set |
| Store.Commit | src/store/usePlanStore.ts:55-63 | the new map has the old keys plus the progress key, the record there has the new state, and every other key keeps its record |
| Store.RequiredOptatives | src/store/usePlanStore.ts:90-96 | at most 2, and non-zero exactly for the careers `ls`, `is` and `se` |
| Store.StatsOptatives | src/store/usePlanStore.ts:99-101 | one value per `career_OPT-` entry, the i-th being the value of the i-th such entry in key order; none without such an entry |
| Store.CourseIds | src/store/usePlanStore.ts:118-121 | one id per course, the i-th being the i-th course's id |
| Store.IsFinished | src/store/usePlanStore.ts:107-113 | true exactly when the progress key is stored and its record is final |
| Store.FinishedIds | src/store/usePlanStore.ts:107-113 | an order-preserving subsequence of the ids, holding exactly those whose record read through the career is final |
| Store.Grades | src/store/usePlanStore.ts:123-125 | one grade per id whose resolved record carries a grade, in id order, each being that record's grade; so no more grades than ids, and every grade is the grade of some stored record |
| Store.GradeOf | src/store/usePlanStore.ts:124 | defined exactly when the progress key is stored with a grade, and then it is that grade |
| Store.Sum | src/store/usePlanStore.ts:128 | 0 for no values, the value itself for one |
| Store.SumSnoc | src/store/usePlanStore.ts:128 | adding a value at the end of the list adds it to the sum, as the left-to-right reduce does |
| Store.Mean | src/store/usePlanStore.ts:127-129 | 0 for no grades; otherwise the value whose product with the count is the sum |
| Store.Committed | src/store/usePlanStore.ts:58-61 | the written record has the new state and a grade iff the state is final and a grade was given, and then it is that grade |
| Store.Percentage | src/store/usePlanStore.ts:131 | 0 when the total is 0, otherwise the value whose product with the total is 100 times the finished count |
| Store.GetStats | src/store/usePlanStore.ts:75-139 | all zeros without a plan or a career; otherwise the total is the mandatory count plus the career's required optatives, finished is the number of final mandatory courses plus final counted optatives, the average is the mean of the grades collected from the mandatory ids followed by the counted optatives, the percentage is finished over total times 100 when the total is positive, and the average and percentage are 0 under their empty guards |
| Store.PlanStore.Stats | src/store/usePlanStore.ts:75-139 | reads the store's fields: all zeros without a plan or a career; otherwise the total is the mandatory count plus the required optatives, finished is the number of final mandatory courses plus final counted optatives, the average is the mean of the collected grades, and the percentage is finished over the total |
| Store.PlanStore.constructor | src/store/usePlanStore.ts:32-35 | the store starts with no plan, no career and empty progress and slot maps |
| Store.PlanStore.SetPlan | src/store/usePlanStore.ts:37 | replaces the plan and nothing else |
| Store.PlanStore.SetCurrentCareer | src/store/usePlanStore.ts:39 | replaces the career and nothing else |
| Store.PlanStore.SetCourseState | src/store/usePlanStore.ts:51-64 | the progress map becomes the old one with the record at the course's progress key replaced; the other fields are unchanged; the grade-only-when-final invariant is kept |
| Store.PlanStore.SelectOptative | src/store/usePlanStore.ts:66-73 | the slot map becomes the old one with the slot entry overwritten, with no duplicate check; the other fields are unchanged |
| Store.SharedIdsHaveNoUnderscore | src/store/usePlanStore.ts:6-14 | no shared id contains `_` |
| Store.SharedKeyIgnoresCareer | src/store/usePlanStore.ts:44-46 | a shared id is keyed bare whatever the career |
| Store.ProgressKeyInjective | src/store/usePlanStore.ts:41-49 | under a career, distinct course ids get distinct progress keys |
| Store.CareersIsolated | src/store/usePlanStore.ts:48 | two different careers key a non-shared course differently |
| Store.CommitChangesOneKey | src/store/usePlanStore.ts:55-63 | every key other than the course's progress key keeps its record |
| Store.CommitReadBack | src/store/usePlanStore.ts:51-63 | read back through the same career, the course holds the new record and every other course keeps its old one |
| Store.SharedVisibleAcrossCareers | src/store/usePlanStore.ts:44-46 | a shared course written under career A reads back under career B |
| Store.NonSharedInvisibleAcrossCareers | src/store/usePlanStore.ts:48 | a non-shared course written under career A leaves what career B reads unchanged |
| Store.CommitKeepsGradeOnlyWhenFinal | src/store/usePlanStore.ts:60 | writes through `setCourseState` keep every graded record in state final |
| Store.RegradeKeepsFinal | src/store/usePlanStore.ts:55-63 | re-entering final with a new grade leaves only the new grade |
| Store.SumBounds | src/store/usePlanStore.ts:128 | the sum of n values within [lo, hi] lies within [n·lo, n·hi] |
| Store.MeanBounds | src/store/usePlanStore.ts:127-129 | the mean of a non-empty list of values within [lo, hi] lies within [lo, hi] |
| Store.OneGradeAverage | src/store/usePlanStore.ts:118-129 | when exactly one counted course, listed once, has a grade g, the average is g |
| Store.GradesInRange | src/store/usePlanStore.ts:123-125 | with every stored grade within [1, 10], every collected grade is too |
| Store.AverageGradeInRange | src/store/usePlanStore.ts:118-129 | the average is the mean of the defined grades of the mandatory and counted optative courses, and lies within [1, 10] when every stored grade does |
| Store.GradesAtMostFinished | src/store/usePlanStore.ts:107-125 | under the store invariant there are no more collected grades than finished courses |
| Store.PercentageBounds | src/store/usePlanStore.ts:131 | with finished at most total, the percentage lies within [0, 100] |
| Store.PercentageBelowFull | src/store/usePlanStore.ts:131 | with fewer finished courses than the total, the percentage is below 100 |
| Store.FinishedMandatoryBound | src/store/usePlanStore.ts:104-115 | with no counted optatives, finished is at most the mandatory count and the total, and the percentage lies within [0, 100] |
| Store.FinishedIdsUnchanged | src/store/usePlanStore.ts:107-113 | committing a course outside the id list leaves the finished list unchanged |
| Store.FinishedCommitAddsOne | src/store/usePlanStore.ts:107-113 | committing final for a course listed once and not yet final raises the finished count by exactly one |
| Store.FinalCommitCountsOnce | src/store/usePlanStore.ts:51-115 | committing final for a mandatory course listed once, not among the counted optatives and not yet final, raises `finishedCourses` by one and leaves `totalCourses` as it was |
| Store.AllFinished | src/store/usePlanStore.ts:107-109 | when every mandatory course is final, all of them are counted finished |
| Store.PercentageFull | src/store/usePlanStore.ts:131 | finished equal to a positive total gives 100 |
| Store.AllFinalIsComplete | src/store/usePlanStore.ts:104-131 | with a non-empty plan whose every mandatory course is final, no required and no counted optatives, the percentage is 100 |
| Store.NeverComplete | src/store/usePlanStore.ts:99-131 | with no `_OPT-` entry, a career that requires optatives stays below 100% |
| Dictionary.Get | src/App.tsx:108 | a key's value is defined exactly when the key is present, and it is the stored one |
| Dictionary.Put | src/store/usePlanStore.ts:67-72 | an existing key keeps its place, a new key goes last, and every entry is the new one or an old one |
| Dictionary.GetPut | src/store/usePlanStore.ts:66-73 | after the write the key reads the new value and every other key reads its old value |
| Dictionary.PutKeepsDistinct | src/store/usePlanStore.ts:66-73 | the write keeps the keys distinct |
| Dictionary.ValuesWithPrefix | src/store/usePlanStore.ts:99-101 | one value per prefixed entry, the i-th being the value of the i-th prefixed entry in key order; so every value of a prefixed key is listed, and only those |
| Dictionary.PutOutsidePrefix | src/store/usePlanStore.ts:99-101 | writing a key without the prefix leaves the prefixed values unchanged |
| Dictionary.PutKeepsValuesDistinct | src/App.tsx:87-99 | writing a value not yet among the prefixed values keeps those values duplicate-free |
| CareerProgress.Project | src/components/CourseCard.tsx:34-40 | the projection holds `id` exactly when the store holds `career_id`, and then that record |
| CareerProgress.ProjectAt | src/components/CourseCard.tsx:34-40 | the projection holds `id` exactly when the store holds `career_id`, with the same record |
| CareerProgress.ProjectKeys | src/components/CourseCard.tsx:34-40 | the projection's keys are exactly the prefix-stripped `career_` keys |
| CareerProgress.ProjectIgnoresUnprefixed | src/components/CourseCard.tsx:36 | changing an entry whose key lacks `career_` leaves the projection unchanged |
| CareerProgress.StripPrefix | src/components/CourseCard.tsx:37 | putting the prefix back on a stripped key gives the key |
| CareerProgress.BuildProjection | src/components/CourseCard.tsx:34-40 | the `forEach` loop builds exactly the projection |
| CourseCard.CardCourse | src/components/CourseCard.tsx:28-29 | a found course has the id and comes from the mandatory or optative list; none exactly when no plan or no course with the id |
| CourseCard.CardKey | src/components/CourseCard.tsx:20 | under a career the key is `career_` followed by the id, else the bare id |
| CourseCard.CardRecord | src/components/CourseCard.tsx:20-21 | under a career it is the projection's entry for the id; a missing key reads pending with no grade |
| CourseCard.EnrollRule | src/components/CourseCard.tsx:41 | strict exactly when `canEnrollIf.allOf` is non-empty |
| CourseCard.RequireFinal | src/components/CourseCard.tsx:53 | false exactly when `requireFinal` is absent or false |
| CourseCard.Enrollable | src/components/CourseCard.tsx:31-42 | false without a plan, course or career; otherwise true iff every prerequisite's `career_` record passes the plan's rule |
| CourseCard.Finable | src/components/CourseCard.tsx:44-54 | false without a plan, course or career; otherwise true exactly when the card's record is not final and, if the plan requires finals for correlatives, every declared prerequisite's `career_` record is present and final, or else the card's record is enrolled or approved |
| CourseCard.CardMissing | src/components/CourseCard.tsx:56-78 | empty without a course or a career; otherwise an order-preserving subsequence of the declared prerequisites holding exactly those whose `career_` record fails the rule (final for the final exam, regular or final for enrolling) |
| CourseCard.CanChangeToState | src/components/CourseCard.tsx:116-150 | legal only with a course, a career and a known state name; pending is always legal then; enrolled is legal iff the course is enrollable; approved is legal from enrolled, approved or final, and from pending iff the course is enrollable |
| CourseCard.GetStatusBadge | src/components/CourseCard.tsx:80-97 | exactly one badge, in priority final, approved with finable, approved, enrolled, enrollable, blocked; the completed badge shows a non-zero grade |
| CourseCard.ParseState | src/components/CourseCard.tsx:127-149 | each of the four selector names maps to its state, and any other text to none |
| CourseCard.HandleStateChange | src/components/CourseCard.tsx:99-114 | an illegal request is rejected without mutation; a legal move to final waits for a grade without mutation; any other legal move commits the new state with no grade; the other fields are unchanged |
| CourseCard.HandleGradeSubmit | src/components/CourseCard.tsx:152-161 | commits final with the grade iff the grade is a number within [1, 10]; otherwise nothing changes |
| CourseCard.GetSemesterInfo | src/components/CourseCard.tsx:169-173 | year 0 is leveling; a missing or zero year or semester gives no label; otherwise the year, with semester 1 the first half and any other the second |
| CourseCard.CardRecordIsProjected | src/components/CourseCard.tsx:20-21 | under a career, the card's own record is the projection's entry for the id |
| CourseCard.CardKeyMatchesStore | src/components/CourseCard.tsx:20 | for a non-shared course, the card reads the key the store writes |
| CourseCard.SharedWriteInvisibleToCard | src/components/CourseCard.tsx:20-21 | committing a shared course leaves the card's record as it was |
| CourseCard.SharedWriteInvisibleToProjection | src/components/CourseCard.tsx:36 | committing a shared course leaves every career's projection unchanged |
| CourseCard.SharedPrereqBlocks | src/components/CourseCard.tsx:31-42 | a prerequisite with no `career_` record makes the course not enrollable and enrolling illegal |
| CourseCard.EnrollLegality | src/components/CourseCard.tsx:131-132 | enrolling is legal iff each prerequisite's `career_` record passes the plan's rule (strict iff `canEnrollIf.allOf` is non-empty) |
| CourseCard.LegalityGuards | src/components/CourseCard.tsx:116-149 | pending is legal given a course and a career; nothing is legal without either; unknown targets are illegal |
| CourseCard.FinalLegality | src/components/CourseCard.tsx:140-145 | final is legal iff the own state is final, or the final may be taken |
| CourseCard.FinalNeedsEnrolledOrApproved | src/components/CourseCard.tsx:140-145 | without `requireFinal`, final is legal iff the own state is enrolled, approved or final; never from pending |
| CourseCard.PendingJumpsToFinal | src/components/CourseCard.tsx:140-145 | with `requireFinal`, a pending course may go to final iff every prerequisite has a final `career_` record |
| CourseCard.MissingMatchesEnrollable | src/components/CourseCard.tsx:56-66 | under the lenient rule the enroll checklist is empty iff the course is enrollable |
| OptativesView.PlanOptatives | src/components/OptativesView.tsx:30 | the plan's optatives when present, otherwise empty |
| OptativesView.MatchesFilter | src/components/OptativesView.tsx:34-38 | unset filters match everything; a set filter matches only an equal semester (year), never an absent one |
| OptativesView.ViewRule | src/components/OptativesView.tsx:78 | strict exactly when a plan is loaded and its `canEnrollIf.allOf` is non-empty |
| OptativesView.FilteredOptatives | src/components/OptativesView.tsx:33-39 | an order-preserving subsequence holding exactly the optatives matching each non-null filter; with both filters null, all optatives |
| OptativesView.ViewProgress | src/components/OptativesView.tsx:42-52 | empty without a career; otherwise each id reads the store's `career_id` record |
| OptativesView.CardFor | src/components/OptativesView.tsx:77-136 | eligible is `canEnroll` under the plan's rule; missing is the lenient missing list; selectable iff eligible and not already chosen; the missing list is shown iff ineligible and non-empty; the button label follows |
| OptativesView.EnrollChecklist | src/components/OptativesView.tsx:162-172 | one item per declared prerequisite, in order, marked completed iff its state is approved or final |
| OptativesView.MissingShownIffIneligible | src/components/OptativesView.tsx:132 | under the lenient rule the missing list is shown exactly for ineligible optatives |
| OptativesView.StrictIneligibleListsNothing | src/components/OptativesView.tsx:78-79 | under the strict rule, approved-but-not-final prerequisites make the optative ineligible and still hide the missing list |
| OptativesView.NoCareerNothingPasses | src/components/OptativesView.tsx:42-43 | without a career an optative with prerequisites is ineligible and lists all of them |
| App.GetOptativeSlotsConfig | src/App.tsx:57-82 | the slot count equals the number of placements and the store's required optatives for the career (0 without a career) |
| App.SelectedForCareer | src/App.tsx:87-92 | empty without a career; otherwise one value per `career_SLOT-` entry, the i-th being the value of the i-th such entry in key order |
| App.SlotId | src/App.tsx:98 | the slot id is the `career_SLOT-` prefix followed by the decimal index |
| App.SameOptativeCountedTwice | src/App.tsx:87-99 | the same optative bound to two slots is listed twice |
| App.HandleOptativeSelected | src/App.tsx:95-101 | without a career nothing changes; otherwise only the `career_SLOT-i` entry is written; the other fields are unchanged |
| App.RenderOptativeSlot | src/App.tsx:104-147 | hidden without a career; filled iff the slot is bound to a non-empty id found among the optatives; otherwise a placeholder with the selected count and the slot total |
| App.OptativeSlots | src/App.tsx:214-221 | one view per configured slot, the i-th being slot i resolved |
| App.ChooseOptative | src/App.tsx:155-163 | binds the optative iff the view marks it selectable against the career's selections, so a chosen id was not selected before, and the selection list stays duplicate-free |
| App.SlotIdHasPrefix | src/App.tsx:90-98 | every slot id carries the prefix that the selected query filters on |
| App.SlotIdsDistinct | src/App.tsx:98 | different slot indexes give different slot ids |
| App.SelectWritesOneSlot | src/App.tsx:95-100 | selecting for slot i changes only the value at that slot id |
| App.SlotIdIsNotStatsKey | src/store/usePlanStore.ts:100 | with careers free of `_`, no slot id starts with a career's `_OPT-` prefix |
| App.SelectionKeepsStatsOptativesEmpty | src/store/usePlanStore.ts:99-101 | slot selections keep the statistics' optative list empty |
| Decimal.ParseFormat | src/App.tsx:43-44 | reading back the decimal text of a number gives the number |
| Decimal.NatToString | src/App.tsx:31 | a non-empty digit string with no leading zero unless it is "0" |
| App.KeyTextRoundTrip | src/App.tsx:41-47 | splitting a group key's text at `-` and reading the numbers gives back the year and semester |
| App.KeyTextInjective | src/App.tsx:31 | distinct (year, semester) pairs have distinct key texts |
| App.KeyOf | src/App.tsx:29-31 | a missing or zero year (semester) gives 0; a present one is kept |
| App.KeyText | src/App.tsx:31 | the year's decimal text, then `-`, then the semester's decimal text, both parts non-empty digit strings |
| App.ParseKeyText | src/App.tsx:43-44 | text without `-` does not parse; a parsed year is the digits before the first `-` |
| App.CoursesAt | src/App.tsx:28-38 | an order-preserving subsequence of the courses, holding exactly those with the key |
| App.CoursesAtAppend | src/App.tsx:33-36 | pushing a course extends only its own group's course list |
| App.CoursesAtFresh | src/App.tsx:33-35 | a course whose key no earlier course has is alone in its group |
| App.OpenGroup | src/App.tsx:33-35 | a course with an unseen key opens a new group and keeps the grouping invariant |
| App.PushOntoGroup | src/App.tsx:36 | a course with a seen key is pushed onto its group and keeps the grouping invariant |
| App.GroupCourses | src/App.tsx:28-38 | keys are distinct; each group holds, in plan order, exactly the courses with its `(year or 0, semester or 0)` key, and none is empty; every course has a group |
| App.GroupKeys | src/App.tsx:42 | the keys of the groups, in the order the groups were opened |
| App.InsertKeyPermutes | src/App.tsx:41-48 | inserting a key adds exactly that key |
| App.InsertKeySorted | src/App.tsx:41-48 | inserting into a sorted key list keeps it sorted |
| App.KeyLe | src/App.tsx:42-47 | `a` sorts no later than `b` iff the comparator's value (year difference, else semester difference) is at most 0 |
| App.KeyLeTotalOrder | src/App.tsx:42-47 | the comparator is total, antisymmetric and transitive on keys |
| App.SortKeys | src/App.tsx:41-48 | the result ascends by year, then semester, and is a permutation of the keys |
| App.SectionOrder | src/App.tsx:41-48 | the sections are the groups' keys, each once, in ascending (year, semester) order |
| App.GetSectionTitle | src/App.tsx:50-54 | year 0 is the leveling section; otherwise the year, with semester 1 the first half and any other the second |
| App.SectionAndCardLabels | src/App.tsx:28-31 | a placed course's section and card labels agree; a course without a year is in the leveling section but has no card label; one without a semester is headed as a second half |

## Left out

- Plan fetching, JSON parsing, alerts and logging in the career selector are left out. They are network and I/O; the loaded plan is an input.
- Persistence (`persist`, `partialize`, localStorage) and the theme toggle are left out. They are storage plumbing.
- React rendering, hooks, `setTimeout`, the validation banner and the modals are left out. Only the decisions and their effects on the store are modelled.
- `parseFloat` of the grade text is left out. The grade arrives parsed, with `None` for a non-number, which fails the range guard as NaN does.
- `toFixed(1)` in the statistics panel is left out. It is floating-point presentation.
- The badge and placeholder components are left out. They are pure markup.
- The Tauri bootstrap is left out. It is platform glue.
- Displayed text is modelled by what it encodes (badges, halves, section and slot views as datatypes), not as strings.
- The prerequisite checklists in the card's info dialog (`src/components/CourseCard.tsx:289-327`) are not modelled separately. They mark each declared prerequisite from `progress[career_id]`, or from the bare id without a career. Under a career, the unmarked prerequisites are the ones `CourseCard.CardMissing` lists. The `missingForEnroll`/`missingForFinal` memos that `CardMissing` models are computed but never rendered.
- Year and semester are natural numbers or absent. Negative or fractional placements, and `course.year || 0` acting on such values, are not modelled.
- `App.ParseKeyText`: `Number("")` is 0 in JavaScript, but an empty part is a parse failure here. Keys built by the grouping always have two non-empty digit parts.
- `App.SortKeys`: the library sort is modelled as an insertion sort. With distinct keys the comparator is a total order, so any correct sort yields the same list.
- `App.GetOptativeSlotsConfig`: the contract fixes the slot count and the number of placements, but states the placements themselves only as lying in year 4 or later.
- `Dictionary.Put`: keys are kept in insertion order. JavaScript lists integer-like keys (such as `"7"`) first, in numeric order. The app's own keys (slot ids, group keys, progress keys) are never integer-like, but `selectOptative` accepts any group id, and for an integer-like one the model's order differs.
- `Dictionary.PutKeepsValuesDistinct`: it gives a sufficient condition (the new value is not yet listed), not a characterisation.
- Floating-point arithmetic for the mean and the percentage is modelled as exact real arithmetic.
