/**
 * The optatives view: the year/semester filter over the plan's optatives, its
 * own career-progress projection, and per optative whether it is eligible,
 * already chosen, selectable, and which missing prerequisites it lists.
 */
module OptativesView {
  import opened Wrappers
  import opened PlanTypes
  import opened Seqs
  import opened Eligibility
  import opened CareerProgress
  import opened Store

  /** `plan?.optatives || []`. */
  function PlanOptatives(plan: Option<Plan>): (r: seq<Course>)
    ensures forall o :: o in r ==> plan.Some? && plan.value.optatives.Some? && o in plan.value.optatives.value
    ensures plan.Some? && plan.value.optatives.Some? ==> r == plan.value.optatives.value
  {
    if plan.Some? then plan.value.optatives.GetOr([]) else []
  }

  /** A set filter keeps only optatives with that exact semester (year); an unset one keeps all. */
  function MatchesFilter(opt: Course, filterSemester: Option<nat>, filterYear: Option<nat>): (b: bool)
    ensures filterSemester.None? && filterYear.None? ==> b
    ensures b && filterSemester.Some? ==> opt.semester == filterSemester
    ensures b && filterYear.Some? ==> opt.year == filterYear
    ensures filterSemester.Some? && opt.semester.None? ==> !b
    ensures filterYear.Some? && opt.year.None? ==> !b
  {
    (filterSemester.None? || opt.semester == filterSemester) && (filterYear.None? || opt.year == filterYear)
  }

  /** `filteredOptatives`: a null filter lets everything through. */
  function FilteredOptatives(opts: seq<Course>, filterSemester: Option<nat>, filterYear: Option<nat>): (r: seq<Course>)
    ensures IsSubseq(r, opts)
    ensures forall o :: o in r <==> o in opts && MatchesFilter(o, filterSemester, filterYear)
    ensures filterSemester.None? && filterYear.None? ==> r == opts
  {
    var keep := o => MatchesFilter(o, filterSemester, filterYear);
    FilterIsSubseq(opts, keep);
    FilterAll(opts, keep);
    Filter(opts, keep)
  }

  /** The view's projection: empty without a career. */
  function ViewProgress(progress: Progress, career: Option<string>): (r: Progress)
    ensures !HasCareer(career) ==> r == map[]
    ensures HasCareer(career) ==> forall id :: Lookup(r, id) == Lookup(progress, Prefix(career.value) + id)
  {
    if !HasCareer(career) then map[]
    else
      var r := Project(progress, career.value);
      assert forall id :: Lookup(r, id) == Lookup(progress, Prefix(career.value) + id) by {
        forall id ensures Lookup(r, id) == Lookup(progress, Prefix(career.value) + id) {
          ProjectAt(progress, career.value, id);
        }
      }
      r
  }

  /** The rule the view uses: strict when the plan's `canEnrollIf.allOf` is non-empty. */
  function ViewRule(plan: Option<Plan>): (r: Rule)
    ensures r == ApprovedOnly <==> plan.Some? && plan.value.rules.canEnrollIf.allOf != []
  {
    if plan.Some? && |plan.value.rules.canEnrollIf.allOf| > 0 then ApprovedOnly else ApprovedOrRegular
  }

  datatype SelectLabel = AlreadyChosen | Choose | NotEligible

  /** What the view decides for one optative. */
  datatype OptativeCard = OptativeCard(
    eligible: bool,
    missing: seq<string>,
    alreadySelected: bool,
    selectable: bool,
    showMissing: bool,
    button: SelectLabel)

  function CardFor(s: Snapshot, opt: Course, selected: seq<string>): (c: OptativeCard)
    ensures c.eligible == CanEnroll(opt, ViewProgress(s.progress, s.currentCareer), ViewRule(s.plan))
    ensures c.missing == Missing(opt, ViewProgress(s.progress, s.currentCareer), false)
    ensures c.alreadySelected <==> opt.id in selected
    ensures c.selectable <==> c.eligible && opt.id !in selected
    ensures c.showMissing <==> !c.eligible && c.missing != []
    ensures c.button == AlreadyChosen <==> c.alreadySelected
    ensures c.button == Choose <==> c.selectable
  {
    var cp := ViewProgress(s.progress, s.currentCareer);
    var eligible := CanEnroll(opt, cp, ViewRule(s.plan));
    var missing := Missing(opt, cp, false);
    var already := opt.id in selected;
    OptativeCard(eligible, missing, already, eligible && !already, !eligible && |missing| > 0,
                 if already then AlreadyChosen else if eligible then Choose else NotEligible)
  }

  /** The enrollment checklist of the info dialog: each prerequisite with its completed mark. */
  function EnrollChecklist(opt: Course, careerProgress: Progress): (items: seq<(string, bool)>)
    ensures |items| == |DeclaredPrereqs(opt)|
    ensures forall i :: 0 <= i < |items| ==>
      && items[i].0 == DeclaredPrereqs(opt)[i]
      && (items[i].1 <==> items[i].0 in careerProgress && careerProgress[items[i].0].state in {CourseState.Approved, Final})
  {
    var ids := DeclaredPrereqs(opt);
    seq(|ids|, i requires 0 <= i < |ids| => (ids[i], IsApprovedOrRegular(Lookup(careerProgress, ids[i]))))
  }

  // ---- Properties ----

  /** Under the lenient rule the missing list is shown exactly for ineligible optatives. */
  lemma {:induction false} MissingShownIffIneligible(s: Snapshot, opt: Course, selected: seq<string>)
    requires ViewRule(s.plan) == ApprovedOrRegular
    ensures CardFor(s, opt, selected).showMissing <==> !CardFor(s, opt, selected).eligible
  {
    MissingEmptyIffEnrollable(opt, ViewProgress(s.progress, s.currentCareer), false);
  }

  /** Under the strict rule an optative whose prerequisites are approved but not all
    * final is ineligible and yet lists nothing as missing. */
  lemma {:induction false} StrictIneligibleListsNothing(s: Snapshot, opt: Course, selected: seq<string>, pre: string)
    requires ViewRule(s.plan) == ApprovedOnly
    requires forall id :: id in DeclaredPrereqs(opt) ==> IsApprovedOrRegular(Lookup(ViewProgress(s.progress, s.currentCareer), id))
    requires pre in DeclaredPrereqs(opt) && !IsApprovedOnly(Lookup(ViewProgress(s.progress, s.currentCareer), pre))
    ensures !CardFor(s, opt, selected).eligible && !CardFor(s, opt, selected).showMissing
  {
    MissingEmptyIffEnrollable(opt, ViewProgress(s.progress, s.currentCareer), false);
  }

  /** Without a career every prerequisite reads as missing. */
  lemma {:induction false} NoCareerNothingPasses(s: Snapshot, opt: Course, selected: seq<string>)
    requires !HasCareer(s.currentCareer) && DeclaredPrereqs(opt) != []
    ensures !CardFor(s, opt, selected).eligible
    ensures CardFor(s, opt, selected).missing == DeclaredPrereqs(opt)
  {
    var cp := ViewProgress(s.progress, s.currentCareer);
    assert DeclaredPrereqs(opt)[0] in DeclaredPrereqs(opt);
    FilterAll(DeclaredPrereqs(opt), id => !Passes(cp, ApprovedOrRegular, id));
  }
}
