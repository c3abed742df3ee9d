/**
 * The progress store: the loaded plan, the progress records keyed by progress
 * key, the current career and the optative slot assignments; the keying
 * function that makes shared courses career-independent; and the statistics.
 */
module Store {
  import opened Wrappers
  import opened PlanTypes
  import opened Seqs
  import opened Dictionary

  /** Course ids whose progress is common to every career. */
  const SharedCourses: seq<string> := [
    "CNE", "CNC", "CNM",
    "SI106", "SI104", "SI101",
    "SI107", "SI105", "SI102",
    "SI209", "SI203", "SI207",
    "SI210", "SI202", "SI206", "SI204", "SI208",
    "SI308", "SI302", "SI306", "SI307",
    "SI304", "SI301", "SI305"
  ]

  /** `SHARED_COURSES.includes(id)`. */
  function IsShared(id: string): (b: bool)
    ensures b ==> id != "" && '_' !in id
  {
    SharedIdsHaveNoUnderscore();
    id in SharedCourses
  }

  /** `getProgressKey`: shared ids are keyed bare, the others under `career_`. */
  function ProgressKey(career: Option<string>, id: string): (k: string)
    ensures |id| <= |k| && k[|k| - |id|..] == id
    ensures k == id <==> IsShared(id) || !HasCareer(career)
  {
    if IsShared(id) then id
    else if HasCareer(career) then career.value + "_" + id
    else id
  }

  /** The record `setCourseState` writes: the grade survives only in state final. */
  function Committed(state: CourseState, grade: Option<real>): (r: CourseProgress)
    ensures r.state == state
    ensures r.grade.Some? <==> state == Final && grade.Some?
    ensures state == Final ==> r.grade == grade
  {
    CourseProgress(state, if state == Final then grade else None)
  }

  /** The progress map after `setCourseState(id, state, grade)` under `career`. */
  function Commit(progress: Progress, career: Option<string>, id: string, state: CourseState, grade: Option<real>): (r: Progress)
    ensures r.Keys == progress.Keys + {ProgressKey(career, id)}
    ensures r[ProgressKey(career, id)].state == state
    ensures forall k :: k in progress && k != ProgressKey(career, id) ==> r[k] == progress[k]
  {
    progress[ProgressKey(career, id) := Committed(state, grade)]
  }

  /** The invariant `setCourseState` keeps: a record carries a grade only in state final. */
  predicate GradeOnlyWhenFinal(progress: Progress) {
    forall k :: k in progress && progress[k].grade.Some? ==> progress[k].state == Final
  }

  /** What the store holds, as one value. */
  datatype Snapshot = Snapshot(
    plan: Option<Plan>,
    progress: Progress,
    currentCareer: Option<string>,
    selectedOptatives: Dict)

  /** The number of optative slots a career must fill. */
  function RequiredOptatives(career: string): (n: nat)
    ensures n <= 2
    ensures n > 0 <==> career in {"ls", "is", "se"}
  {
    if career == "ls" then 2
    else if career == "is" then 1
    else if career == "se" then 1
    else 0
  }

  /** The optatives the statistics count: values of keys `career_OPT-...`. */
  function StatsOptatives(selected: Dict, career: string): (opts: seq<string>)
    ensures |opts| == |PrefixedEntries(selected, career + "_OPT-")|
    ensures forall i :: 0 <= i < |opts| ==> opts[i] == PrefixedEntries(selected, career + "_OPT-")[i].1
    ensures (forall i :: 0 <= i < |selected| ==> !(career + "_OPT-" <= selected[i].0)) ==> opts == []
  {
    FilterNone(selected, (e: (string, string)) => career + "_OPT-" <= e.0);
    ValuesWithPrefix(selected, career + "_OPT-")
  }

  function CourseIds(courses: seq<Course>): (ids: seq<string>)
    ensures |ids| == |courses|
    ensures forall i :: 0 <= i < |courses| ==> ids[i] == courses[i].id
  {
    if courses == [] then [] else [courses[0].id] + CourseIds(courses[1..])
  }

  /** The resolved record of `id` is in state final. */
  function IsFinished(progress: Progress, career: Option<string>, id: string): (b: bool)
    ensures b <==> ProgressKey(career, id) in progress && progress[ProgressKey(career, id)].state == Final
  {
    StateOf(Lookup(progress, ProgressKey(career, id))) == Some(Final)
  }

  function FinishedIds(ids: seq<string>, progress: Progress, career: Option<string>): (fs: seq<string>)
    ensures IsSubseq(fs, ids)
    ensures forall id :: id in fs <==> id in ids && IsFinished(progress, career, id)
  {
    FilterIsSubseq(ids, id => IsFinished(progress, career, id));
    Filter(ids, id => IsFinished(progress, career, id))
  }

  /** `progress[getProgressKey(id)]?.grade`. */
  function GradeOf(progress: Progress, career: Option<string>, id: string): (g: Option<real>)
    ensures g.Some? <==> ProgressKey(career, id) in progress && progress[ProgressKey(career, id)].grade.Some?
    ensures g.Some? ==> g == progress[ProgressKey(career, id)].grade
  {
    var r := Lookup(progress, ProgressKey(career, id));
    if r.Some? then r.value.grade else None
  }

  /** The ids whose resolved record carries a grade, in order. */
  function GradedIds(ids: seq<string>, progress: Progress, career: Option<string>): seq<string> {
    Filter(ids, id => GradeOf(progress, career, id).Some?)
  }

  /** The defined grades of the resolved records of `ids`, in order: one per graded id. */
  function Grades(ids: seq<string>, progress: Progress, career: Option<string>): (gs: seq<real>)
    ensures |gs| == |GradedIds(ids, progress, career)| <= |ids|
    ensures forall i :: 0 <= i < |gs| ==> Some(gs[i]) == GradeOf(progress, career, GradedIds(ids, progress, career)[i])
    ensures forall g :: g in gs ==> exists k :: k in progress && progress[k].grade == Some(g)
  {
    if ids == [] then []
    else
      var g := GradeOf(progress, career, ids[0]);
      var rest := Grades(ids[1..], progress, career);
      var head: seq<real> := if g.Some? then [g.value] else [];
      GradedIdsCons(ids, progress, career);
      AlignedAppend(head, rest, if g.Some? then [ids[0]] else [], GradedIds(ids[1..], progress, career),
                    id => GradeOf(progress, career, id));
      head + rest
  }

  /** Prepending aligned elements to two aligned sequences keeps them aligned. */
  lemma {:induction false} AlignedAppend(head: seq<real>, rest: seq<real>, hid: seq<string>, rid: seq<string>,
                                         f: string -> Option<real>)
    requires |head| == |hid| && forall i :: 0 <= i < |head| ==> Some(head[i]) == f(hid[i])
    requires |rest| == |rid| && forall i :: 0 <= i < |rest| ==> Some(rest[i]) == f(rid[i])
    ensures |head + rest| == |hid + rid|
    ensures forall i :: 0 <= i < |head + rest| ==> Some((head + rest)[i]) == f((hid + rid)[i])
  {
    forall i | 0 <= i < |head + rest| ensures Some((head + rest)[i]) == f((hid + rid)[i]) {
      if i >= |head| {
        assert (head + rest)[i] == rest[i - |head|] && (hid + rid)[i] == rid[i - |hid|];
      } else {
        assert (head + rest)[i] == head[i] && (hid + rid)[i] == hid[i];
      }
    }
  }

  lemma GradedIdsCons(ids: seq<string>, progress: Progress, career: Option<string>)
    requires ids != []
    ensures GradedIds(ids, progress, career) ==
      (if GradeOf(progress, career, ids[0]).Some? then [ids[0]] else []) + GradedIds(ids[1..], progress, career)
  {
  }

  /** The sum of `xs`, 0 for an empty list. */
  function Sum(xs: seq<real>): (r: real)
    ensures xs == [] ==> r == 0.0
    ensures |xs| == 1 ==> r == xs[0]
  {
    if xs == [] then 0.0 else xs[0] + Sum(xs[1..])
  }

  /** `reduce((sum, grade) => sum + grade, 0)` adds the values from the left, one at a time;
    * adding a value at the end adds it to the sum. */
  lemma {:induction false} SumSnoc(xs: seq<real>, x: real)
    ensures Sum(xs + [x]) == Sum(xs) + x
  {
    if xs != [] {
      assert (xs + [x])[1..] == xs[1..] + [x];
      SumSnoc(xs[1..], x);
    }
  }

  /** The arithmetic mean, 0 for an empty list. */
  function Mean(xs: seq<real>): (m: real)
    ensures xs == [] ==> m == 0.0
    ensures xs != [] ==> m * (|xs| as real) == Sum(xs)
  {
    if |xs| > 0 then Sum(xs) / (|xs| as real) else 0.0
  }

  /** `(finished / total) * 100`, 0 when there is nothing to finish. */
  function Percentage(finished: nat, total: nat): (r: real)
    ensures total == 0 ==> r == 0.0
    ensures total > 0 ==> r * (total as real) == 100.0 * (finished as real)
  {
    if total > 0 then (finished as real / total as real) * 100.0 else 0.0
  }

  /** `getStats`. */
  function GetStats(s: Snapshot): (st: Stats)
    ensures s.plan.None? || !HasCareer(s.currentCareer) ==> st == Stats(0, 0, 0.0, 0.0)
    ensures s.plan.Some? && HasCareer(s.currentCareer) ==>
      var opts := StatsOptatives(s.selectedOptatives, s.currentCareer.value);
      && st.totalCourses == |s.plan.value.courses| + RequiredOptatives(s.currentCareer.value)
      && st.finishedCourses == |FinishedIds(CourseIds(s.plan.value.courses), s.progress, s.currentCareer)|
                              + |FinishedIds(opts, s.progress, s.currentCareer)|
      && st.finishedCourses <= |s.plan.value.courses| + |opts|
      && st.averageGrade == Mean(Grades(CourseIds(s.plan.value.courses) + opts, s.progress, s.currentCareer))
      && (Grades(CourseIds(s.plan.value.courses) + opts, s.progress, s.currentCareer) == [] ==> st.averageGrade == 0.0)
      && (st.totalCourses == 0 ==> st.progressPercentage == 0.0)
      && (st.totalCourses > 0 ==> st.progressPercentage == Percentage(st.finishedCourses, st.totalCourses))
  {
    if s.plan.None? || !HasCareer(s.currentCareer) then Stats(0, 0, 0.0, 0.0)
    else
      var career := s.currentCareer.value;
      var courses := s.plan.value.courses;
      var opts := StatsOptatives(s.selectedOptatives, career);
      var total := |courses| + RequiredOptatives(career);
      var finishedMandatory := |FinishedIds(CourseIds(courses), s.progress, s.currentCareer)|;
      var finishedOptatives := |FinishedIds(opts, s.progress, s.currentCareer)|;
      var finished := finishedMandatory + finishedOptatives;
      var grades := Grades(CourseIds(courses) + opts, s.progress, s.currentCareer);
      Stats(total, finished, Mean(grades), Percentage(finished, total))
  }

  class PlanStore {
    var plan: Option<Plan>
    var progress: Progress
    var currentCareer: Option<string>
    var selectedOptatives: Dict

    ghost predicate Valid()
      reads this
    {
      GradeOnlyWhenFinal(progress) && DistinctKeys(selectedOptatives)
    }

    function Snap(): Snapshot
      reads this
    {
      Snapshot(plan, progress, currentCareer, selectedOptatives)
    }

    /** The initial state: nothing loaded, nothing recorded. */
    constructor ()
      ensures Valid()
      ensures plan == None && progress == map[] && currentCareer == None && selectedOptatives == []
    {
      plan := None;
      progress := map[];
      currentCareer := None;
      selectedOptatives := [];
    }

    method SetPlan(p: Plan)
      requires Valid()
      modifies this
      ensures Valid()
      ensures plan == Some(p)
      ensures progress == old(progress) && currentCareer == old(currentCareer)
      ensures selectedOptatives == old(selectedOptatives)
    {
      plan := Some(p);
    }

    method SetCurrentCareer(careerId: string)
      requires Valid()
      modifies this
      ensures Valid()
      ensures currentCareer == Some(careerId)
      ensures plan == old(plan) && progress == old(progress)
      ensures selectedOptatives == old(selectedOptatives)
    {
      currentCareer := Some(careerId);
    }

    /** Replaces the record at the course's progress key. */
    method SetCourseState(courseId: string, state: CourseState, grade: Option<real>)
      requires Valid()
      modifies this
      ensures Valid()
      ensures progress == Commit(old(progress), old(currentCareer), courseId, state, grade)
      ensures plan == old(plan) && currentCareer == old(currentCareer)
      ensures selectedOptatives == old(selectedOptatives)
    {
      CommitKeepsGradeOnlyWhenFinal(progress, currentCareer, courseId, state, grade);
      progress := Commit(progress, currentCareer, courseId, state, grade);
    }

    /** Overwrites one slot entry; no duplicate check is made here. */
    method SelectOptative(groupId: string, optativeId: string)
      requires Valid()
      modifies this
      ensures Valid()
      ensures selectedOptatives == Put(old(selectedOptatives), groupId, optativeId)
      ensures plan == old(plan) && progress == old(progress) && currentCareer == old(currentCareer)
    {
      PutKeepsDistinct(selectedOptatives, groupId, optativeId);
      selectedOptatives := Put(selectedOptatives, groupId, optativeId);
    }

    /** `getStats` only reads the store. */
    function Stats(): (st: Stats)
      reads this
      ensures plan.None? || !HasCareer(currentCareer) ==>
        st.totalCourses == 0 && st.finishedCourses == 0 && st.averageGrade == 0.0 && st.progressPercentage == 0.0
      ensures plan.Some? && HasCareer(currentCareer) ==>
        var ids := CourseIds(plan.value.courses);
        var opts := StatsOptatives(selectedOptatives, currentCareer.value);
        && st.totalCourses == |plan.value.courses| + RequiredOptatives(currentCareer.value)
        && st.finishedCourses == |FinishedIds(ids, progress, currentCareer)| + |FinishedIds(opts, progress, currentCareer)|
        && st.averageGrade == Mean(Grades(ids + opts, progress, currentCareer))
        && st.progressPercentage == Percentage(st.finishedCourses, st.totalCourses)
    {
      GetStats(Snap())
    }
  }

  // ---- Properties of the keying function ----

  lemma SharedIdsHaveNoUnderscore()
    ensures forall s :: s in SharedCourses ==> '_' !in s
  {
  }

  /** Shared ids are keyed bare, whatever the career. */
  lemma SharedKeyIgnoresCareer(c1: Option<string>, c2: Option<string>, id: string)
    requires IsShared(id)
    ensures ProgressKey(c1, id) == id == ProgressKey(c2, id)
  {
  }

  /** Under a career, the key determines the course: distinct ids never share a record. */
  lemma {:induction false} ProgressKeyInjective(career: Option<string>, x: string, y: string)
    requires HasCareer(career) && x != y
    ensures ProgressKey(career, x) != ProgressKey(career, y)
  {
    var c := career.value;
    SharedIdsHaveNoUnderscore();
    if !IsShared(x) && !IsShared(y) {
      assert (c + "_" + x)[|c| + 1..] == x;
      assert (c + "_" + y)[|c| + 1..] == y;
    } else if !IsShared(x) {
      assert (c + "_" + x)[|c|] == '_';
    } else if !IsShared(y) {
      assert (c + "_" + y)[|c|] == '_';
    }
  }

  /** Two different careers keep a non-shared course in different records. */
  lemma {:induction false} CareersIsolated(a: string, b: string, id: string)
    requires a != "" && b != "" && a != b && !IsShared(id)
    ensures ProgressKey(Some(a), id) != ProgressKey(Some(b), id)
  {
    if |a| == |b| {
      assert (a + "_" + id)[..|a|] == a;
      assert (b + "_" + id)[..|b|] == b;
    }
  }

  // ---- Properties of setCourseState ----

  /** Only the course's own record changes; every other key keeps its record. */
  lemma CommitChangesOneKey(progress: Progress, career: Option<string>, id: string, state: CourseState, grade: Option<real>, k: string)
    requires k != ProgressKey(career, id)
    ensures Lookup(Commit(progress, career, id, state, grade), k) == Lookup(progress, k)
  {
  }

  /** Read back through the same career, the written course holds the new record
    * and every other course keeps its old one. */
  lemma {:induction false} CommitReadBack(progress: Progress, career: Option<string>, id: string, state: CourseState,
                                          grade: Option<real>, other: string)
    requires HasCareer(career) && other != id
    ensures Lookup(Commit(progress, career, id, state, grade), ProgressKey(career, id)) == Some(Committed(state, grade))
    ensures Lookup(Commit(progress, career, id, state, grade), ProgressKey(career, other)) == Lookup(progress, ProgressKey(career, other))
  {
    ProgressKeyInjective(career, other, id);
  }

  /** A shared course written under career A is read back under career B. */
  lemma SharedVisibleAcrossCareers(progress: Progress, a: string, b: string, id: string, state: CourseState, grade: Option<real>)
    requires IsShared(id)
    ensures Lookup(Commit(progress, Some(a), id, state, grade), ProgressKey(Some(b), id)) == Some(Committed(state, grade))
  {
  }

  /** A non-shared course written under career A is invisible under career B. */
  lemma {:induction false} NonSharedInvisibleAcrossCareers(progress: Progress, a: string, b: string, id: string,
                                                          state: CourseState, grade: Option<real>)
    requires a != "" && b != "" && a != b && !IsShared(id)
    ensures Lookup(Commit(progress, Some(a), id, state, grade), ProgressKey(Some(b), id)) == Lookup(progress, ProgressKey(Some(b), id))
  {
    CareersIsolated(a, b, id);
  }

  /** Writes through `setCourseState` keep grades confined to final records. */
  lemma CommitKeepsGradeOnlyWhenFinal(progress: Progress, career: Option<string>, id: string, state: CourseState, grade: Option<real>)
    requires GradeOnlyWhenFinal(progress)
    ensures GradeOnlyWhenFinal(Commit(progress, career, id, state, grade))
  {
  }

  /** Re-entering final with another grade changes only the grade. */
  lemma RegradeKeepsFinal(progress: Progress, career: Option<string>, id: string, g1: real, g2: real)
    ensures var p := Commit(Commit(progress, career, id, Final, Some(g1)), career, id, Final, Some(g2));
      p == Commit(progress, career, id, Final, Some(g2)) && p[ProgressKey(career, id)] == CourseProgress(Final, Some(g2))
  {
  }

  // ---- Properties of the statistics ----

  lemma {:induction false} SumBounds(xs: seq<real>, lo: real, hi: real)
    requires forall i :: 0 <= i < |xs| ==> lo <= xs[i] <= hi
    ensures (|xs| as real) * lo <= Sum(xs) <= (|xs| as real) * hi
  {
    if xs != [] {
      SumBounds(xs[1..], lo, hi);
      var n := |xs[1..]| as real;
      assert (|xs| as real) * lo == n * lo + lo;
      assert (|xs| as real) * hi == n * hi + hi;
    }
  }

  /** A mean of values in [lo, hi] lies in [lo, hi]. */
  lemma {:induction false} MeanBounds(xs: seq<real>, lo: real, hi: real)
    requires |xs| > 0
    requires forall i :: 0 <= i < |xs| ==> lo <= xs[i] <= hi
    ensures lo <= Mean(xs) <= hi
  {
    SumBounds(xs, lo, hi);
    var n := |xs| as real;
    assert Mean(xs) * n == Sum(xs);
  }

  /** One graded course among the counted ones: the average is its grade. */
  lemma {:induction false} OneGradeAverage(s: Snapshot, id: string, g: real)
    requires s.plan.Some? && HasCareer(s.currentCareer)
    requires var ids := CourseIds(s.plan.value.courses) + StatsOptatives(s.selectedOptatives, s.currentCareer.value);
      && multiset(ids)[id] == 1
      && GradeOf(s.progress, s.currentCareer, id) == Some(g)
      && forall x :: x in ids && x != id ==> GradeOf(s.progress, s.currentCareer, x).None?
    ensures GetStats(s).averageGrade == g
  {
    var ids := CourseIds(s.plan.value.courses) + StatsOptatives(s.selectedOptatives, s.currentCareer.value);
    FilterSingle(ids, x => GradeOf(s.progress, s.currentCareer, x).Some?, id);
    var gs := Grades(ids, s.progress, s.currentCareer);
    assert gs == [g];
    assert Sum(gs) == g;
  }

  /** `averageGrade` is the mean of the defined grades, and lies in [1, 10]
    * when every stored grade does. */
  lemma {:induction false} AverageGradeInRange(s: Snapshot)
    requires s.plan.Some? && HasCareer(s.currentCareer)
    requires forall k :: k in s.progress && s.progress[k].grade.Some? ==> 1.0 <= s.progress[k].grade.value <= 10.0
    ensures var gs := Grades(CourseIds(s.plan.value.courses) + StatsOptatives(s.selectedOptatives, s.currentCareer.value),
                             s.progress, s.currentCareer);
      GetStats(s).averageGrade == Mean(gs) && (gs != [] ==> 1.0 <= GetStats(s).averageGrade <= 10.0)
  {
    var ids := CourseIds(s.plan.value.courses) + StatsOptatives(s.selectedOptatives, s.currentCareer.value);
    GradesInRange(ids, s.progress, s.currentCareer);
    var gs := Grades(ids, s.progress, s.currentCareer);
    if gs != [] {
      MeanBounds(gs, 1.0, 10.0);
    }
  }

  lemma {:induction false} GradesInRange(ids: seq<string>, progress: Progress, career: Option<string>)
    requires forall k :: k in progress && progress[k].grade.Some? ==> 1.0 <= progress[k].grade.value <= 10.0
    ensures forall i :: 0 <= i < |Grades(ids, progress, career)| ==> 1.0 <= Grades(ids, progress, career)[i] <= 10.0
  {
    if ids != [] {
      GradesInRange(ids[1..], progress, career);
    }
  }

  /** Under the store invariant every counted grade belongs to a finished course,
    * so there are never more grades than finished courses. */
  lemma {:induction false} GradesAtMostFinished(ids: seq<string>, progress: Progress, career: Option<string>)
    requires GradeOnlyWhenFinal(progress)
    ensures |Grades(ids, progress, career)| <= |FinishedIds(ids, progress, career)|
  {
    if ids != [] {
      GradesAtMostFinished(ids[1..], progress, career);
      var f := id => IsFinished(progress, career, id);
      assert FinishedIds(ids, progress, career) == (if f(ids[0]) then [ids[0]] else []) + FinishedIds(ids[1..], progress, career);
    }
  }

  /** With no more finished courses than courses to finish, the percentage is in [0, 100]. */
  lemma PercentageBounds(finished: nat, total: nat)
    requires finished <= total
    ensures 0.0 <= Percentage(finished, total) <= 100.0
  {
    if total > 0 {
      var t := total as real;
      assert Percentage(finished, total) * t == 100.0 * (finished as real);
    }
  }

  /** The slot count is part of the total; finished courses are counted separately. */
  lemma {:induction false} FinishedMandatoryBound(s: Snapshot)
    requires s.plan.Some? && HasCareer(s.currentCareer)
    requires StatsOptatives(s.selectedOptatives, s.currentCareer.value) == []
    ensures GetStats(s).finishedCourses <= |s.plan.value.courses|
    ensures GetStats(s).finishedCourses <= GetStats(s).totalCourses
    ensures 0.0 <= GetStats(s).progressPercentage <= 100.0
  {
    var st := GetStats(s);
    PercentageBounds(st.finishedCourses, st.totalCourses);
  }

  /** Fewer finished courses than courses to finish keep the percentage below 100. */
  lemma PercentageBelowFull(finished: nat, total: nat)
    requires finished < total
    ensures Percentage(finished, total) < 100.0
  {
    var t := total as real;
    assert Percentage(finished, total) * t == 100.0 * (finished as real);
  }

  /** With no `_OPT-` key, a career that requires optatives never reaches 100%. */
  lemma {:induction false} NeverComplete(s: Snapshot)
    requires s.plan.Some? && HasCareer(s.currentCareer)
    requires StatsOptatives(s.selectedOptatives, s.currentCareer.value) == []
    requires RequiredOptatives(s.currentCareer.value) > 0
    ensures GetStats(s).progressPercentage < 100.0
  {
    var st := GetStats(s);
    FinishedMandatoryBound(s);
    assert st.finishedCourses < st.totalCourses;
    PercentageBelowFull(st.finishedCourses, st.totalCourses);
  }

  // ---- What the finished count counts ----

  /** Writing the record of an id that is not listed leaves the listed finished ids as they were. */
  lemma {:induction false} FinishedIdsUnchanged(ids: seq<string>, progress: Progress, career: Option<string>,
                                                id: string, r: CourseProgress)
    requires HasCareer(career) && id !in ids
    ensures FinishedIds(ids, progress[ProgressKey(career, id) := r], career) == FinishedIds(ids, progress, career)
  {
    if ids != [] {
      var p2 := progress[ProgressKey(career, id) := r];
      FinishedIdsUnchanged(ids[1..], progress, career, id, r);
      ProgressKeyInjective(career, ids[0], id);
      assert IsFinished(p2, career, ids[0]) == IsFinished(progress, career, ids[0]);
      var f1 := x => IsFinished(progress, career, x);
      var f2 := x => IsFinished(p2, career, x);
      assert FinishedIds(ids, progress, career) == (if f1(ids[0]) then [ids[0]] else []) + FinishedIds(ids[1..], progress, career);
      assert FinishedIds(ids, p2, career) == (if f2(ids[0]) then [ids[0]] else []) + FinishedIds(ids[1..], p2, career);
    }
  }

  /** Passing the final of a listed, unfinished id that occurs once adds exactly one finished id. */
  lemma {:induction false} FinishedCommitAddsOne(ids: seq<string>, progress: Progress, career: Option<string>,
                                                 id: string, grade: Option<real>)
    requires HasCareer(career) && multiset(ids)[id] == 1 && !IsFinished(progress, career, id)
    ensures |FinishedIds(ids, Commit(progress, career, id, Final, grade), career)| == |FinishedIds(ids, progress, career)| + 1
  {
    var p2 := Commit(progress, career, id, Final, grade);
    assert ids == [ids[0]] + ids[1..];
    var f1 := x => IsFinished(progress, career, x);
    var f2 := x => IsFinished(p2, career, x);
    assert FinishedIds(ids, progress, career) == (if f1(ids[0]) then [ids[0]] else []) + FinishedIds(ids[1..], progress, career);
    assert FinishedIds(ids, p2, career) == (if f2(ids[0]) then [ids[0]] else []) + FinishedIds(ids[1..], p2, career);
    if ids[0] == id {
      assert multiset(ids[1..])[id] == 0;
      FinishedIdsUnchanged(ids[1..], progress, career, id, Committed(Final, grade));
      assert f2(id) && !f1(id);
    } else {
      assert multiset(ids[1..])[id] == 1;
      FinishedCommitAddsOne(ids[1..], progress, career, id, grade);
      ProgressKeyInjective(career, ids[0], id);
      assert f1(ids[0]) == f2(ids[0]);
    }
  }

  /** Passing the final of a mandatory course listed once, not yet finished and not a
    * counted optative raises `finishedCourses` by one and leaves the total alone. */
  lemma {:induction false} FinalCommitCountsOnce(s: Snapshot, id: string, grade: Option<real>)
    requires s.plan.Some? && HasCareer(s.currentCareer)
    requires multiset(CourseIds(s.plan.value.courses))[id] == 1
    requires id !in StatsOptatives(s.selectedOptatives, s.currentCareer.value)
    requires !IsFinished(s.progress, s.currentCareer, id)
    ensures var s2 := s.(progress := Commit(s.progress, s.currentCareer, id, Final, grade));
      && GetStats(s2).finishedCourses == GetStats(s).finishedCourses + 1
      && GetStats(s2).totalCourses == GetStats(s).totalCourses
  {
    var opts := StatsOptatives(s.selectedOptatives, s.currentCareer.value);
    FinishedCommitAddsOne(CourseIds(s.plan.value.courses), s.progress, s.currentCareer, id, grade);
    FinishedIdsUnchanged(opts, s.progress, s.currentCareer, id, Committed(Final, grade));
  }

  /** When every listed course is finished, the finished ids are all of them. */
  lemma {:induction false} AllFinished(courses: seq<Course>, progress: Progress, career: Option<string>)
    requires forall c :: c in courses ==> IsFinished(progress, career, c.id)
    ensures FinishedIds(CourseIds(courses), progress, career) == CourseIds(courses)
  {
    var ids := CourseIds(courses);
    forall x | x in ids ensures IsFinished(progress, career, x) {
      var i :| 0 <= i < |ids| && ids[i] == x;
      assert courses[i] in courses;
    }
    FilterAll(ids, x => IsFinished(progress, career, x));
  }

  lemma PercentageFull(n: nat)
    requires n > 0
    ensures Percentage(n, n) == 100.0
  {
    var t := n as real;
    assert Percentage(n, n) * t == 100.0 * t;
  }

  /** Every mandatory course finished, in a career without optatives, is 100%. */
  lemma {:induction false} AllFinalIsComplete(s: Snapshot)
    requires s.plan.Some? && HasCareer(s.currentCareer) && s.plan.value.courses != []
    requires RequiredOptatives(s.currentCareer.value) == 0
    requires StatsOptatives(s.selectedOptatives, s.currentCareer.value) == []
    requires forall c :: c in s.plan.value.courses ==> IsFinished(s.progress, s.currentCareer, c.id)
    ensures GetStats(s).progressPercentage == 100.0
  {
    var courses := s.plan.value.courses;
    AllFinished(courses, s.progress, s.currentCareer);
    var st := GetStats(s);
    assert st.finishedCourses == |courses| == st.totalCourses;
    PercentageFull(|courses|);
  }
}
