/**
 * The decisions a course card makes: which record it shows, whether the course
 * may be enrolled in or its final taken, which target states are legal, what a
 * state change or a grade submission commits to the store, the status badge
 * and the placement label.
 */
module CourseCard {
  import opened Wrappers
  import opened PlanTypes
  import opened Eligibility
  import opened CareerProgress
  import opened Store
  import opened Seqs

  /** The card's course: the first mandatory course with the id, else the first optative. */
  function CardCourse(plan: Option<Plan>, id: string): (r: Option<Course>)
    ensures r.Some? ==> plan.Some? && r.value.id == id &&
                        (r.value in plan.value.courses || r.value in plan.value.optatives.GetOr([]))
    ensures r.None? <==> (plan.None? ||
                          ((forall c :: c in plan.value.courses ==> c.id != id) &&
                           (forall c :: c in plan.value.optatives.GetOr([]) ==> c.id != id)))
  {
    match plan
    case None => None
    case Some(p) =>
      var c := FindById(p.courses, id);
      if c.Some? then c else FindById(p.optatives.GetOr([]), id)
  }

  /** The key the card reads its own record from: always career-prefixed when a career is set. */
  function CardKey(career: Option<string>, id: string): (k: string)
    ensures HasCareer(career) ==> Prefix(career.value) <= k && k[|Prefix(career.value)|..] == id
    ensures !HasCareer(career) ==> k == id
  {
    if HasCareer(career) then career.value + "_" + id else id
  }

  /** The card's record; a missing record reads as pending. */
  function CardRecord(s: Snapshot, id: string): (r: CourseProgress)
    ensures HasCareer(s.currentCareer) ==>
      r == Lookup(Project(s.progress, s.currentCareer.value), id).GetOr(CourseProgress(Pending, None))
    ensures CardKey(s.currentCareer, id) !in s.progress ==> r.state == Pending && r.grade.None?
  {
    Lookup(s.progress, CardKey(s.currentCareer, id)).GetOr(CourseProgress(Pending, None))
  }

  /** A non-empty `canEnrollIf.allOf` selects the strict rule. */
  function EnrollRule(plan: Plan): (r: Rule)
    ensures r == ApprovedOnly <==> plan.rules.canEnrollIf.allOf != []
  {
    if |plan.rules.canEnrollIf.allOf| > 0 then ApprovedOnly else ApprovedOrRegular
  }

  /** `requireFinal || false`. */
  function RequireFinal(plan: Plan): (b: bool)
    ensures !b <==> (plan.rules.canTakeFinalIf.requireFinal.None? || !plan.rules.canTakeFinalIf.requireFinal.value)
  {
    plan.rules.canTakeFinalIf.requireFinal == Some(true)
  }

  function Enrollable(s: Snapshot, id: string): (b: bool)
    ensures b ==> s.plan.Some? && CardCourse(s.plan, id).Some? && HasCareer(s.currentCareer)
    ensures s.plan.Some? && CardCourse(s.plan, id).Some? && HasCareer(s.currentCareer) ==>
      (b <==> forall pre :: pre in DeclaredPrereqs(CardCourse(s.plan, id).value) ==>
                Passes(s.progress, EnrollRule(s.plan.value), Prefix(s.currentCareer.value) + pre))
  {
    var course := CardCourse(s.plan, id);
    if s.plan.None? || course.None? || !HasCareer(s.currentCareer) then false
    else
      var c := s.currentCareer.value;
      var rule := EnrollRule(s.plan.value);
      assert forall pre :: Passes(Project(s.progress, c), rule, pre) == Passes(s.progress, rule, Prefix(c) + pre);
      CanEnroll(course.value, Project(s.progress, c), rule)
  }

  function Finable(s: Snapshot, id: string): (b: bool)
    ensures b ==> s.plan.Some? && CardCourse(s.plan, id).Some? && HasCareer(s.currentCareer)
    ensures b ==> CardRecord(s, id).state != Final
    ensures s.plan.Some? && CardCourse(s.plan, id).Some? && HasCareer(s.currentCareer) ==>
      var own := CardRecord(s, id).state;
      (b <==> own != Final &&
              if RequireFinal(s.plan.value) then
                forall pre :: pre in DeclaredPrereqs(CardCourse(s.plan, id).value) ==>
                  Prefix(s.currentCareer.value) + pre in s.progress &&
                  s.progress[Prefix(s.currentCareer.value) + pre].state == Final
              else own == Enrolled || own == CourseState.Approved)
  {
    var course := CardCourse(s.plan, id);
    if s.plan.None? || course.None? || !HasCareer(s.currentCareer) then false
    else
      var c := s.currentCareer.value;
      var cp := Project(s.progress, c);
      ProjectAt(s.progress, c, id);
      if RequireFinal(s.plan.value) then
        if id in cp && cp[id].state == Final then
          CanTakeFinal(id, cp, true, course)
        else
          CanTakeFinalEscalated(id, cp, course.value);
          assert forall pre :: pre in cp <==> Prefix(c) + pre in s.progress;
          CanTakeFinal(id, cp, true, course)
      else
        CanTakeFinalLenient(id, cp, course, false);
        CanTakeFinal(id, cp, false, course)
  }

  /** The lists shown as missing for enrolling (`forFinal` false) or for the final (true). */
  function CardMissing(s: Snapshot, id: string, forFinal: bool): (m: seq<string>)
    ensures CardCourse(s.plan, id).None? || !HasCareer(s.currentCareer) ==> m == []
    ensures forall x :: x in m ==> CardCourse(s.plan, id).Some? && x in DeclaredPrereqs(CardCourse(s.plan, id).value)
    ensures CardCourse(s.plan, id).Some? && HasCareer(s.currentCareer) ==>
      && IsSubseq(m, DeclaredPrereqs(CardCourse(s.plan, id).value))
      && forall x :: x in m <==> (x in DeclaredPrereqs(CardCourse(s.plan, id).value) &&
                                  !Passes(s.progress, if forFinal then ApprovedOnly else ApprovedOrRegular,
                                          Prefix(s.currentCareer.value) + x))
  {
    var course := CardCourse(s.plan, id);
    if course.None? || !HasCareer(s.currentCareer) then []
    else
      var c := s.currentCareer.value;
      var rule := if forFinal then ApprovedOnly else ApprovedOrRegular;
      MissingIsFailingSubseq(course.value, Project(s.progress, c), forFinal);
      assert forall pre :: Passes(Project(s.progress, c), rule, pre) == Passes(s.progress, rule, Prefix(c) + pre);
      Missing(course.value, Project(s.progress, c), forFinal)
  }

  /** The status badge. A completed badge shows the grade when it is truthy (non-zero). */
  datatype Badge = Completed(shownGrade: Option<real>) | CanTakeFinalBadge | ApprovedBadge
                 | EnrolledBadge | EnrollableBadge | Blocked

  function GetStatusBadge(record: CourseProgress, finable: bool, enrollable: bool): (b: Badge)
    ensures b.Completed? <==> record.state == Final
    ensures b.Completed? ==> b.shownGrade == if record.grade.Some? && record.grade.value != 0.0 then record.grade else None
    ensures b == CanTakeFinalBadge <==> record.state == CourseState.Approved && finable
    ensures b == ApprovedBadge <==> record.state == CourseState.Approved && !finable
    ensures b == EnrolledBadge <==> record.state == Enrolled
    ensures b == EnrollableBadge <==> record.state == Pending && enrollable
    ensures b == Blocked <==> record.state == Pending && !enrollable
  {
    if record.state == Final then
      Completed(if record.grade.Some? && record.grade.value != 0.0 then record.grade else None)
    else if record.state == CourseState.Approved && finable then CanTakeFinalBadge
    else if record.state == CourseState.Approved && !finable then ApprovedBadge
    else if record.state == Enrolled then EnrolledBadge
    else
      assert record.state.Pending?;
      if enrollable then EnrollableBadge else Blocked
  }

  /** The state named by a selector value, if any. */
  function ParseState(name: string): (r: Option<CourseState>)
    ensures r == Some(Pending) <==> name == "pending"
    ensures r == Some(Enrolled) <==> name == "enrolled"
    ensures r == Some(CourseState.Approved) <==> name == "approved"
    ensures r == Some(Final) <==> name == "final"
  {
    if name == "pending" then Some(Pending)
    else if name == "enrolled" then Some(Enrolled)
    else if name == "approved" then Some(CourseState.Approved)
    else if name == "final" then Some(Final)
    else None
  }

  /** `canChangeToState`: the legality table for a requested target state. */
  function CanChangeToState(s: Snapshot, id: string, newState: string): (b: bool)
    ensures b ==> CardCourse(s.plan, id).Some? && HasCareer(s.currentCareer) && ParseState(newState).Some?
    ensures newState == "pending" && CardCourse(s.plan, id).Some? && HasCareer(s.currentCareer) ==> b
    ensures newState == "enrolled" ==> (b <==> Enrollable(s, id))
    ensures newState == "approved" && CardCourse(s.plan, id).Some? && HasCareer(s.currentCareer) ==>
      (b <==> CardRecord(s, id).state != Pending || Enrollable(s, id))
  {
    var course := CardCourse(s.plan, id);
    if course.None? || !HasCareer(s.currentCareer) then false
    else
      var own := CardRecord(s, id).state;
      match ParseState(newState)
      case None => false
      case Some(Pending) => true
      case Some(Enrolled) => Enrollable(s, id)
      case Some(Approved) =>
        own == Enrolled || own == CourseState.Approved || own == Final || (own == Pending && Enrollable(s, id))
      case Some(Final) =>
        var direct := if s.plan.Some? then
            CanTakeFinal(id, Project(s.progress, s.currentCareer.value), RequireFinal(s.plan.value), course)
          else false;
        (own == CourseState.Approved && Finable(s, id)) || own == Final
        || (own == Pending && direct) || (own == Enrolled && direct)
  }

  /** What a state-change request led to. */
  datatype ChangeOutcome = Rejected | AwaitingGrade | Applied

  /** `handleStateChange`: an illegal request is rejected, a move to final waits for a
    * grade, any other legal move is committed at once. */
  method HandleStateChange(store: PlanStore, id: string, newState: string) returns (outcome: ChangeOutcome)
    requires store.Valid()
    modifies store
    ensures store.Valid()
    ensures outcome == Rejected <==> !CanChangeToState(old(store.Snap()), id, newState)
    ensures outcome == AwaitingGrade <==> CanChangeToState(old(store.Snap()), id, newState) && newState == "final"
    ensures outcome == Applied ==>
      store.progress == Commit(old(store.progress), old(store.currentCareer), id, ParseState(newState).value, None)
    ensures outcome != Applied ==> store.progress == old(store.progress)
    ensures store.plan == old(store.plan) && store.currentCareer == old(store.currentCareer)
    ensures store.selectedOptatives == old(store.selectedOptatives)
  {
    var snap := store.Snap();
    if !CanChangeToState(snap, id, newState) {
      return Rejected;
    }
    if newState == "final" {
      return AwaitingGrade;
    }
    store.SetCourseState(id, ParseState(newState).value, CardRecord(snap, id).grade);
    outcome := Applied;
  }

  /** `handleGradeSubmit`: a parsed grade (None for NaN) is committed as a final
    * only when it lies in [1, 10]. */
  method HandleGradeSubmit(store: PlanStore, id: string, grade: Option<real>) returns (committed: bool)
    requires store.Valid()
    modifies store
    ensures store.Valid()
    ensures committed <==> grade.Some? && 1.0 <= grade.value <= 10.0
    ensures committed ==> store.progress == Commit(old(store.progress), old(store.currentCareer), id, Final, grade)
    ensures !committed ==> store.progress == old(store.progress)
    ensures store.plan == old(store.plan) && store.currentCareer == old(store.currentCareer)
    ensures store.selectedOptatives == old(store.selectedOptatives)
  {
    committed := grade.Some? && 1.0 <= grade.value <= 10.0;
    if committed {
      store.SetCourseState(id, Final, grade);
    }
  }

  datatype Half = FirstHalf | SecondHalf

  /** The placement label of a card ("Leveling", nothing, or year and half). */
  datatype SemesterInfo = Leveling | NoInfo | Placed(year: nat, half: Half)

  function GetSemesterInfo(year: Option<nat>, semester: Option<nat>): (r: SemesterInfo)
    ensures r == Leveling <==> year == Some(0)
    ensures r == NoInfo <==> year != Some(0) && (year.None? || semester.None? || semester == Some(0))
    ensures r.Placed? ==> Some(r.year) == year && r.year > 0 && semester.Some? && semester.value > 0
                          && (r.half == FirstHalf <==> semester == Some(1))
  {
    if year == Some(0) then Leveling
    else if year.None? || semester.None? || semester == Some(0) then NoInfo
    else Placed(year.value, if semester == Some(1) then FirstHalf else SecondHalf)
  }

  // ---- Properties ----

  /** Under a career the card's own record is exactly the projection's entry for the id. */
  lemma CardRecordIsProjected(s: Snapshot, id: string)
    requires HasCareer(s.currentCareer)
    ensures Lookup(Project(s.progress, s.currentCareer.value), id) == Lookup(s.progress, CardKey(s.currentCareer, id))
  {
    ProjectAt(s.progress, s.currentCareer.value, id);
  }

  /** For a non-shared course the card reads the record the store writes. */
  lemma CardKeyMatchesStore(career: Option<string>, id: string)
    requires HasCareer(career) && !IsShared(id)
    ensures CardKey(career, id) == ProgressKey(career, id)
  {
  }

  /** For a shared course the store writes a bare key the card never reads, so
    * committing a new state leaves the card's record as it was. */
  lemma {:induction false} SharedWriteInvisibleToCard(s: Snapshot, id: string, state: CourseState, grade: Option<real>)
    requires HasCareer(s.currentCareer) && IsShared(id)
    ensures CardRecord(s.(progress := Commit(s.progress, s.currentCareer, id, state, grade)), id) == CardRecord(s, id)
  {
    SharedIdsHaveNoUnderscore();
    assert CardKey(s.currentCareer, id)[|s.currentCareer.value|] == '_';
  }

  /** The projection ignores every write to a shared course. */
  lemma {:induction false} SharedWriteInvisibleToProjection(progress: Progress, career: Option<string>, c: string,
                                                           id: string, state: CourseState, grade: Option<real>)
    requires IsShared(id)
    ensures Project(Commit(progress, career, id, state, grade), c) == Project(progress, c)
  {
    SharedIdsHaveNoUnderscore();
    assert Prefix(c)[|c|] == '_';
    ProjectIgnoresUnprefixed(progress, c, id, Committed(state, grade));
  }

  /** A course with a shared prerequisite stays blocked: the store files the
    * prerequisite bare and the projection only sees `career_` keys. */
  lemma {:induction false} SharedPrereqBlocks(s: Snapshot, id: string, pre: string)
    requires HasCareer(s.currentCareer) && CardCourse(s.plan, id).Some?
    requires pre in DeclaredPrereqs(CardCourse(s.plan, id).value)
    requires Prefix(s.currentCareer.value) + pre !in s.progress
    ensures !Enrollable(s, id)
    ensures !CanChangeToState(s, id, "enrolled")
  {
    ProjectAt(s.progress, s.currentCareer.value, pre);
    if s.plan.Some? {
      CanEnrollMeaning(CardCourse(s.plan, id).value, Project(s.progress, s.currentCareer.value), EnrollRule(s.plan.value));
    }
  }

  /** Enrolling is legal exactly when each listed prerequisite's `career_` record passes the plan's rule. */
  lemma {:induction false} EnrollLegality(s: Snapshot, id: string)
    requires HasCareer(s.currentCareer) && CardCourse(s.plan, id).Some?
    ensures CanChangeToState(s, id, "enrolled") <==>
      forall pre :: pre in DeclaredPrereqs(CardCourse(s.plan, id).value) ==>
        Passes(s.progress, EnrollRule(s.plan.value), Prefix(s.currentCareer.value) + pre)
  {
    var c := s.currentCareer.value;
    var course := CardCourse(s.plan, id).value;
    forall pre ensures Lookup(Project(s.progress, c), pre) == Lookup(s.progress, Prefix(c) + pre) {
      ProjectAt(s.progress, c, pre);
    }
  }

  /** Downgrading is always legal; no course, no career or an unknown state is never legal. */
  lemma LegalityGuards(s: Snapshot, id: string, newState: string)
    ensures CardCourse(s.plan, id).Some? && HasCareer(s.currentCareer) ==> CanChangeToState(s, id, "pending")
    ensures CardCourse(s.plan, id).None? || !HasCareer(s.currentCareer) ==> !CanChangeToState(s, id, newState)
    ensures ParseState(newState).None? ==> !CanChangeToState(s, id, newState)
  {
  }

  /** The final row of the table: approved and finable, already final, or
    * pending/enrolled with the final directly takeable. */
  lemma {:induction false} FinalLegality(s: Snapshot, id: string)
    requires HasCareer(s.currentCareer) && CardCourse(s.plan, id).Some?
    ensures var own := CardRecord(s, id).state;
      CanChangeToState(s, id, "final") <==> own == Final || (own != Final && Finable(s, id))
  {
    var course := CardCourse(s.plan, id);
    assert s.plan.Some?;
  }

  /** Without escalation the final is reachable only from enrolled or approved
    * (or is re-entered from final); from pending it is never legal. */
  lemma {:induction false} FinalNeedsEnrolledOrApproved(s: Snapshot, id: string)
    requires HasCareer(s.currentCareer) && CardCourse(s.plan, id).Some?
    requires !RequireFinal(s.plan.value)
    ensures CanChangeToState(s, id, "final") <==> CardRecord(s, id).state in {Enrolled, CourseState.Approved, Final}
    ensures CardRecord(s, id).state == Pending ==> !CanChangeToState(s, id, "final")
  {
    FinalLegality(s, id);
    CardRecordIsProjected(s, id);
  }

  /** With escalation a pending course may jump to final when every prerequisite's final is passed. */
  lemma {:induction false} PendingJumpsToFinal(s: Snapshot, id: string)
    requires HasCareer(s.currentCareer) && CardCourse(s.plan, id).Some?
    requires RequireFinal(s.plan.value) && CardRecord(s, id).state == Pending
    ensures CanChangeToState(s, id, "final") <==>
      forall pre :: pre in DeclaredPrereqs(CardCourse(s.plan, id).value) ==>
        Prefix(s.currentCareer.value) + pre in s.progress && s.progress[Prefix(s.currentCareer.value) + pre].state == Final
  {
    var c := s.currentCareer.value;
    var course := CardCourse(s.plan, id).value;
    FinalLegality(s, id);
    CardRecordIsProjected(s, id);
    CanTakeFinalEscalated(id, Project(s.progress, c), course);
    forall pre ensures Lookup(Project(s.progress, c), pre) == Lookup(s.progress, Prefix(c) + pre) {
      ProjectAt(s.progress, c, pre);
    }
  }

  /** Under the lenient rule the enroll checklist is empty exactly when enrolling is allowed;
    * under the strict rule an approved-but-not-final prerequisite blocks with nothing listed. */
  lemma {:induction false} MissingMatchesEnrollable(s: Snapshot, id: string)
    requires HasCareer(s.currentCareer) && CardCourse(s.plan, id).Some?
    requires EnrollRule(s.plan.value) == ApprovedOrRegular
    ensures CardMissing(s, id, false) == [] <==> Enrollable(s, id)
  {
    MissingEmptyIffEnrollable(CardCourse(s.plan, id).value, Project(s.progress, s.currentCareer.value), false);
  }
}
