/**
 * The eligibility evaluator: whether a course may be enrolled in, whether its
 * final exam may be taken, and which prerequisites are still missing, over a
 * progress map keyed by bare course id.
 */
module Eligibility {
  import opened Wrappers
  import opened PlanTypes
  import opened Seqs

  /** Prerequisite strength: "approved" (ApprovedOnly) demands a passed final,
    * "approvedOrRegular" accepts an approved course too. */
  datatype Rule = ApprovedOnly | ApprovedOrRegular

  /** `isApprovedOrRegular`: a record in state approved or final. */
  function IsApprovedOrRegular(p: Option<CourseProgress>): (b: bool)
    ensures b <==> p.Some? && (p.value.state == CourseState.Approved || p.value.state == Final)
  {
    StateOf(p) == Some(CourseState.Approved) || StateOf(p) == Some(Final)
  }

  /** `isApprovedOnly`: a record in state final. */
  function IsApprovedOnly(p: Option<CourseProgress>): (b: bool)
    ensures b <==> p.Some? && p.value.state == Final
  {
    StateOf(p) == Some(Final)
  }

  /** The check a prerequisite must pass under `rule`. */
  function Passes(progress: Progress, rule: Rule, id: string): (ok: bool)
    ensures ok <==> (id in progress &&
                     (progress[id].state == Final || (rule == ApprovedOrRegular && progress[id].state == CourseState.Approved)))
  {
    if rule == ApprovedOrRegular then IsApprovedOrRegular(Lookup(progress, id))
    else IsApprovedOnly(Lookup(progress, id))
  }

  function Satisfies(prereqs: Option<Prereqs>, progress: Progress, rule: Rule): (ok: bool)
    ensures prereqs.None? || prereqs.value.allOf.None? ==> ok
    ensures prereqs.Some? && prereqs.value.allOf.Some? ==>
      (ok <==> forall i :: 0 <= i < |prereqs.value.allOf.value| ==> Passes(progress, rule, prereqs.value.allOf.value[i]))
  {
    match prereqs
    case None => true
    case Some(p) =>
      match p.allOf
      case None => true
      case Some(ids) => forall id :: id in ids ==> Passes(progress, rule, id)
  }

  function CanEnroll(course: Course, progress: Progress, rule: Rule): (ok: bool)
    ensures ok <==> forall id :: id in DeclaredPrereqs(course) ==> Passes(progress, rule, id)
  {
    Satisfies(course.prereqs, progress, rule)
  }

  function CanTakeFinal(courseId: string, progress: Progress, requireFinal: bool, course: Option<Course>): (ok: bool)
    ensures ok ==> !(courseId in progress && progress[courseId].state == Final)
    ensures ok && !(requireFinal && course.Some?) ==>
      courseId in progress && progress[courseId].state in {Enrolled, CourseState.Approved}
    ensures ok && requireFinal && course.Some? ==> CanEnroll(course.value, progress, ApprovedOnly)
  {
    var own := StateOf(Lookup(progress, courseId));
    if own == Some(Final) then false
    else if course.None? || !requireFinal then own == Some(CourseState.Approved) || own == Some(Enrolled)
    else if course.value.prereqs.Some? then Satisfies(course.value.prereqs, progress, ApprovedOnly)
    else true
  }

  /** The declared prerequisites, or none. */
  function DeclaredPrereqs(course: Course): seq<string> {
    match course.prereqs
    case None => []
    case Some(p) => p.allOf.GetOr([])
  }

  /** The specification of `getMissingPrereqs`: the declared prerequisites that
    * fail the check, in declared order. */
  function Missing(course: Course, progress: Progress, forFinal: bool): (m: seq<string>)
    ensures |m| <= |DeclaredPrereqs(course)|
    ensures forall id :: id in m ==> id in DeclaredPrereqs(course)
  {
    var rule := if forFinal then ApprovedOnly else ApprovedOrRegular;
    Filter(DeclaredPrereqs(course), id => !Passes(progress, rule, id))
  }

  /** `getMissingPrereqs`: walks the prerequisite list and pushes each failing id. */
  method GetMissingPrereqs(course: Course, progress: Progress, forFinal: bool) returns (missing: seq<string>)
    ensures missing == Missing(course, progress, forFinal)
  {
    missing := [];
    if course.prereqs.None? {
      return;
    }
    var rule := if forFinal then ApprovedOnly else ApprovedOrRegular;
    ghost var fails := id => !Passes(progress, rule, id);
    if course.prereqs.value.allOf.Some? {
      var ids := course.prereqs.value.allOf.value;
      for i := 0 to |ids|
        invariant missing == Filter(ids[..i], fails)
      {
        MissingStep(ids, i, progress, forFinal);
        if !(if forFinal then IsApprovedOnly(Lookup(progress, ids[i])) else IsApprovedOrRegular(Lookup(progress, ids[i]))) {
          missing := missing + [ids[i]];
        }
      }
      assert ids[..|ids|] == ids;
    }
  }

  /** One step of the walk: the prefix one longer has the next id appended iff it fails. */
  lemma MissingStep(ids: seq<string>, i: nat, progress: Progress, forFinal: bool)
    requires i < |ids|
    ensures var rule := if forFinal then ApprovedOnly else ApprovedOrRegular;
      var fails := id => !Passes(progress, rule, id);
      var check := if forFinal then IsApprovedOnly(Lookup(progress, ids[i])) else IsApprovedOrRegular(Lookup(progress, ids[i]));
      Filter(ids[..i + 1], fails) == Filter(ids[..i], fails) + (if !check then [ids[i]] else [])
  {
    var rule := if forFinal then ApprovedOnly else ApprovedOrRegular;
    var fails := id => !Passes(progress, rule, id);
    FilterAppend(ids[..i], ids[i], fails);
    assert ids[..i + 1] == ids[..i] + [ids[i]];
  }

  // ---- Properties ----

  /** Without prerequisites (or without a list) enrollment is open whatever the progress map holds. */
  lemma NoPrereqsAlwaysEnrollable(course: Course, progress: Progress, rule: Rule)
    requires course.prereqs.None? || course.prereqs.value.allOf.None?
    ensures CanEnroll(course, progress, rule)
  {
  }

  /** `canEnroll` in words: every listed prerequisite is approved or final
    * (lenient), or final (strict). */
  lemma {:induction false} CanEnrollMeaning(course: Course, progress: Progress, rule: Rule)
    ensures CanEnroll(course, progress, rule) <==>
      forall id :: id in DeclaredPrereqs(course) ==>
        id in progress &&
        (progress[id].state == Final || (rule == ApprovedOrRegular && progress[id].state == CourseState.Approved))
  {
  }

  /** `canEnroll` reads only the entries of the listed prerequisites. */
  lemma CanEnrollLocal(course: Course, p1: Progress, p2: Progress, rule: Rule)
    requires forall id :: id in DeclaredPrereqs(course) ==> Lookup(p1, id) == Lookup(p2, id)
    ensures CanEnroll(course, p1, rule) == CanEnroll(course, p2, rule)
  {
  }

  /** The strict rule is stronger than the lenient one. */
  lemma StrictImpliesLenient(course: Course, progress: Progress)
    ensures CanEnroll(course, progress, ApprovedOnly) ==> CanEnroll(course, progress, ApprovedOrRegular)
  {
  }

  /** A passed final cannot be taken again through this predicate. */
  lemma FinalIsTerminal(courseId: string, progress: Progress, requireFinal: bool, course: Option<Course>)
    requires courseId in progress && progress[courseId].state == Final
    ensures !CanTakeFinal(courseId, progress, requireFinal, course)
  {
  }

  /** Without escalation, only the course's own state matters. */
  lemma CanTakeFinalLenient(courseId: string, progress: Progress, course: Option<Course>, requireFinal: bool)
    requires !requireFinal || course.None?
    ensures CanTakeFinal(courseId, progress, requireFinal, course) <==>
      courseId in progress && progress[courseId].state in {Enrolled, CourseState.Approved}
  {
  }

  /** With escalation, the own state is only checked for being final; then
    * every prerequisite must have a passed final. */
  lemma CanTakeFinalEscalated(courseId: string, progress: Progress, course: Course)
    requires !(courseId in progress && progress[courseId].state == Final)
    ensures CanTakeFinal(courseId, progress, true, Some(course)) <==>
      forall id :: id in DeclaredPrereqs(course) ==> id in progress && progress[id].state == Final
  {
  }

  /** The missing list is an order-preserving sub-list of the declared prerequisites
    * holding exactly the failing ids. */
  lemma MissingIsFailingSubseq(course: Course, progress: Progress, forFinal: bool)
    ensures IsSubseq(Missing(course, progress, forFinal), DeclaredPrereqs(course))
    ensures forall id :: id in Missing(course, progress, forFinal) <==>
      id in DeclaredPrereqs(course) && !Passes(progress, if forFinal then ApprovedOnly else ApprovedOrRegular, id)
  {
    var rule := if forFinal then ApprovedOnly else ApprovedOrRegular;
    FilterIsSubseq(DeclaredPrereqs(course), id => !Passes(progress, rule, id));
  }

  /** Nothing is missing exactly when the matching `canEnroll` check passes. */
  lemma MissingEmptyIffEnrollable(course: Course, progress: Progress, forFinal: bool)
    ensures Missing(course, progress, forFinal) == [] <==>
      CanEnroll(course, progress, if forFinal then ApprovedOnly else ApprovedOrRegular)
  {
    var rule := if forFinal then ApprovedOnly else ApprovedOrRegular;
    var ids := DeclaredPrereqs(course);
    if Missing(course, progress, forFinal) != [] {
      var m := Missing(course, progress, forFinal)[0];
      assert m in Missing(course, progress, forFinal);
    }
  }
}
