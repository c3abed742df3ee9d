/**
 * The plan data model: courses, a plan with its rule configuration, the four
 * progress states of a course, a progress record, and the aggregate statistics.
 */
module PlanTypes {
  import opened Wrappers

  /** A course's prerequisites: one conjunctive list. The eligibility code also
    * tolerates the list itself being absent, so it is optional here. */
  datatype Prereqs = Prereqs(allOf: Option<seq<string>>)

  /** Placement is optional; year 0 denotes a leveling course. */
  datatype Course = Course(
    id: string,
    name: string,
    year: Option<nat>,
    semester: Option<nat>,
    prereqs: Option<Prereqs>)

  datatype EnrollRules = EnrollRules(allOf: seq<string>)

  datatype FinalRules = FinalRules(allOf: seq<string>, requireFinal: Option<bool>)

  datatype Rules = Rules(canEnrollIf: EnrollRules, canTakeFinalIf: FinalRules)

  datatype Plan = Plan(
    name: string,
    courses: seq<Course>,
    optatives: Option<seq<Course>>,
    rules: Rules)

  datatype CourseState = Pending | Enrolled | Approved | Final

  /** One progress record: a state and an optional grade. */
  datatype CourseProgress = CourseProgress(state: CourseState, grade: Option<real>)

  datatype Stats = Stats(
    totalCourses: nat,
    finishedCourses: nat,
    averageGrade: real,
    progressPercentage: real)

  /** A progress map, keyed by progress key (or by bare course id once projected). */
  type Progress = map<string, CourseProgress>

  /** `progress[id]`, with `undefined` as None. */
  function Lookup(progress: Progress, id: string): (r: Option<CourseProgress>)
    ensures r.Some? <==> id in progress
    ensures r.Some? ==> r.value == progress[id]
  {
    if id in progress then Some(progress[id]) else None
  }

  /** `progress[id]?.state`, with `undefined` as None. */
  function StateOf(p: Option<CourseProgress>): (r: Option<CourseState>)
    ensures r.Some? <==> p.Some?
    ensures p.Some? ==> r.value == p.value.state
  {
    match p
    case Some(r) => Some(r.state)
    case None => None
  }

  /** JavaScript truthiness of the current career: null and "" are false. */
  function HasCareer(career: Option<string>): (b: bool)
    ensures career.None? || career == Some("") ==> !b
    ensures b ==> career.Some? && |career.value| > 0
  {
    career.Some? && career.value != ""
  }

  /** `courses.find(c => c.id === id)`: the first course with that id. */
  function FindById(courses: seq<Course>, id: string): (r: Option<Course>)
    ensures r.Some? ==> r.value in courses && r.value.id == id
    ensures r.None? <==> forall c :: c in courses ==> c.id != id
    ensures r.Some? ==> exists i :: 0 <= i < |courses| && courses[i] == r.value &&
                                    forall j :: 0 <= j < i ==> courses[j].id != id
  {
    if courses == [] then None
    else if courses[0].id == id then Some(courses[0])
    else
      var r := FindById(courses[1..], id);
      assert r.Some? ==> exists i :: 1 <= i < |courses| && courses[i] == r.value &&
                                     forall j :: 0 <= j < i ==> courses[j].id != id by {
        if r.Some? {
          var i :| 0 <= i < |courses[1..]| && courses[1..][i] == r.value &&
                   forall j :: 0 <= j < i ==> courses[1..][j].id != id;
          assert courses[i + 1] == r.value;
          forall j | 0 <= j < i + 1 ensures courses[j].id != id {
            if j > 0 { assert courses[j] == courses[1..][j - 1]; }
          }
        }
      }
      r
  }
}
