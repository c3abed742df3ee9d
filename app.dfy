/**
 * The application shell's logic: the optative slot configuration per career,
 * slot ids and the "selected for this career" query, binding a chosen optative
 * to a slot, resolving a slot for display, and laying the mandatory courses
 * out in (year, semester) groups in numeric order.
 */
module App {
  import opened Wrappers
  import opened PlanTypes
  import opened Seqs
  import opened Decimal
  import opened Dictionary
  import opened Store
  import opened OptativesView
  import CourseCard

  // ---- Optative slots ----

  datatype Placement = Placement(year: nat, semester: nat)

  datatype SlotsConfig = SlotsConfig(totalSlots: nat, yearSemester: seq<Placement>)

  /** `getOptativeSlotsConfig`. */
  function GetOptativeSlotsConfig(career: Option<string>): (cfg: SlotsConfig)
    ensures cfg.totalSlots == |cfg.yearSemester|
    ensures cfg.totalSlots == if HasCareer(career) then RequiredOptatives(career.value) else 0
    ensures forall p :: p in cfg.yearSemester ==> p.year >= 4
  {
    if !HasCareer(career) then SlotsConfig(0, [])
    else if career.value == "ls" then SlotsConfig(2, [Placement(4, 2), Placement(5, 1)])
    else if career.value == "is" then SlotsConfig(1, [Placement(4, 2)])
    else if career.value == "se" then SlotsConfig(1, [Placement(4, 2)])
    else SlotsConfig(0, [])
  }

  function SlotPrefix(career: string): string {
    career + "_SLOT-"
  }

  /** `${career}_SLOT-${slotIndex}`. */
  function SlotId(career: string, slotIndex: nat): (id: string)
    ensures SlotPrefix(career) <= id
    ensures id[|SlotPrefix(career)|..] == NatToString(slotIndex)
  {
    SlotPrefix(career) + NatToString(slotIndex)
  }

  /** `getSelectedOptativesForCareer`: the values of the career's slot keys, in key order,
    * one per slot key. */
  function SelectedForCareer(selected: Dict, career: Option<string>): (r: seq<string>)
    ensures !HasCareer(career) ==> r == []
    ensures HasCareer(career) ==> |r| == |PrefixedEntries(selected, SlotPrefix(career.value))|
    ensures HasCareer(career) ==> forall i :: 0 <= i < |r| ==> r[i] == PrefixedEntries(selected, SlotPrefix(career.value))[i].1
    ensures HasCareer(career) ==> forall i :: 0 <= i < |selected| && SlotPrefix(career.value) <= selected[i].0 ==> selected[i].1 in r
    ensures HasCareer(career) ==> forall v :: v in r ==>
      exists i :: 0 <= i < |selected| && SlotPrefix(career.value) <= selected[i].0 && selected[i].1 == v
  {
    if !HasCareer(career) then [] else ValuesWithPrefix(selected, SlotPrefix(career.value))
  }

  /** `handleOptativeSelected`: binds the slot of the current career; nothing without a career. */
  method HandleOptativeSelected(store: PlanStore, optativeId: string, slotIndex: nat)
    requires store.Valid()
    modifies store
    ensures store.Valid()
    ensures !HasCareer(old(store.currentCareer)) ==> store.selectedOptatives == old(store.selectedOptatives)
    ensures HasCareer(old(store.currentCareer)) ==>
      store.selectedOptatives == Put(old(store.selectedOptatives), SlotId(old(store.currentCareer).value, slotIndex), optativeId)
    ensures store.plan == old(store.plan) && store.progress == old(store.progress)
    ensures store.currentCareer == old(store.currentCareer)
  {
    if !HasCareer(store.currentCareer) {
      return;
    }
    var slotId := SlotId(store.currentCareer.value, slotIndex);
    store.SelectOptative(slotId, optativeId);
  }

  /** How a slot is shown: nothing, its bound optative, or a placeholder with the counts. */
  datatype SlotView = Hidden | Filled(optative: Course) | Placeholder(selectedCount: nat, totalSlots: nat)

  /** `renderOptativeSlot`. */
  function RenderOptativeSlot(s: Snapshot, slotIndex: nat): (v: SlotView)
    ensures v == Hidden <==> !HasCareer(s.currentCareer)
    ensures v.Filled? <==>
      && HasCareer(s.currentCareer)
      && var bound := Get(s.selectedOptatives, SlotId(s.currentCareer.value, slotIndex));
         bound.Some? && bound.value != "" && exists o :: o in PlanOptatives(s.plan) && o.id == bound.value
    ensures v.Filled? ==>
      && v.optative in PlanOptatives(s.plan)
      && Get(s.selectedOptatives, SlotId(s.currentCareer.value, slotIndex)) == Some(v.optative.id)
    ensures v.Placeholder? ==>
      v.selectedCount == |SelectedForCareer(s.selectedOptatives, s.currentCareer)| &&
      v.totalSlots == RequiredOptatives(s.currentCareer.value)
  {
    if !HasCareer(s.currentCareer) then Hidden
    else
      var bound := Get(s.selectedOptatives, SlotId(s.currentCareer.value, slotIndex));
      var found := if bound.Some? && bound.value != "" then FindById(PlanOptatives(s.plan), bound.value) else None;
      if found.Some? then Filled(found.value)
      else Placeholder(|SelectedForCareer(s.selectedOptatives, s.currentCareer)|,
                       GetOptativeSlotsConfig(s.currentCareer).totalSlots)
  }

  /** The optatives section: one view per configured slot. */
  function OptativeSlots(s: Snapshot): (vs: seq<SlotView>)
    ensures |vs| == GetOptativeSlotsConfig(s.currentCareer).totalSlots
    ensures forall i :: 0 <= i < |vs| ==> vs[i] == RenderOptativeSlot(s, i)
  {
    seq(GetOptativeSlotsConfig(s.currentCareer).totalSlots, i requires i >= 0 => RenderOptativeSlot(s, i))
  }

  /** A click on an optative in selection mode: it is bound to the slot only when
    * the view marks it selectable against the career's current selections. */
  method ChooseOptative(store: PlanStore, opt: Course, slotIndex: nat) returns (chosen: bool)
    requires store.Valid() && HasCareer(store.currentCareer)
    modifies store
    ensures store.Valid()
    ensures chosen <==> CardFor(old(store.Snap()), opt, SelectedForCareer(old(store.selectedOptatives), old(store.currentCareer))).selectable
    ensures chosen ==> opt.id !in SelectedForCareer(old(store.selectedOptatives), old(store.currentCareer))
    ensures chosen ==> store.selectedOptatives == Put(old(store.selectedOptatives), SlotId(old(store.currentCareer).value, slotIndex), opt.id)
    ensures !chosen ==> store.selectedOptatives == old(store.selectedOptatives)
    ensures NoDuplicates(SelectedForCareer(old(store.selectedOptatives), old(store.currentCareer))) ==>
            NoDuplicates(SelectedForCareer(store.selectedOptatives, store.currentCareer))
    ensures store.plan == old(store.plan) && store.progress == old(store.progress)
    ensures store.currentCareer == old(store.currentCareer)
  {
    var selected := SelectedForCareer(store.selectedOptatives, store.currentCareer);
    var card := CardFor(store.Snap(), opt, selected);
    chosen := card.selectable;
    if chosen {
      var c := store.currentCareer.value;
      ghost var before := store.selectedOptatives;
      SlotIdHasPrefix(c, slotIndex);
      if NoDuplicates(selected) {
        PutKeepsValuesDistinct(before, SlotPrefix(c), SlotId(c, slotIndex), opt.id);
      }
      HandleOptativeSelected(store, opt.id, slotIndex);
    }
  }

  // ---- Properties of the slots ----

  /** With no duplicate check, one optative bound to two slots is counted twice. */
  lemma SameOptativeCountedTwice(career: string, optativeId: string)
    requires career != ""
    ensures SelectedForCareer([(SlotId(career, 0), optativeId), (SlotId(career, 1), optativeId)], Some(career))
            == [optativeId, optativeId]
  {
    var d := [(SlotId(career, 0), optativeId), (SlotId(career, 1), optativeId)];
    assert d[1..][1..] == [];
  }

  lemma SlotIdHasPrefix(career: string, slotIndex: nat)
    ensures SlotPrefix(career) <= SlotId(career, slotIndex)
  {
  }

  /** Different slot indexes give different slot ids. */
  lemma {:induction false} SlotIdsDistinct(career: string, i: nat, j: nat)
    requires i != j
    ensures SlotId(career, i) != SlotId(career, j)
  {
    var p := SlotPrefix(career);
    if SlotId(career, i) == SlotId(career, j) {
      assert SlotId(career, i)[|p|..] == NatToString(i);
      assert SlotId(career, j)[|p|..] == NatToString(j);
      ParseFormat(i);
      ParseFormat(j);
    }
  }

  /** Selecting for slot i changes only the value stored at that slot id. */
  lemma SelectWritesOneSlot(d: Dict, career: string, i: nat, optativeId: string, k: string)
    ensures Get(Put(d, SlotId(career, i), optativeId), k) == if k == SlotId(career, i) then Some(optativeId) else Get(d, k)
  {
    GetPut(d, SlotId(career, i), optativeId, k);
  }

  /** Slot ids never carry the `_OPT-` marker that the statistics look for, so with
    * careers free of '_' slot writes never feed the optative statistics. */
  lemma {:induction false} SlotIdIsNotStatsKey(statsCareer: string, career: string, i: nat)
    requires '_' !in statsCareer && '_' !in career
    ensures !(statsCareer + "_OPT-" <= SlotId(career, i))
  {
    var key := SlotId(career, i);
    var p := statsCareer + "_OPT-";
    var at := if |statsCareer| < |career| then |statsCareer| else if |statsCareer| > |career| then |career| else |career| + 1;
    assert at < |p| && at < |key|;
    if |statsCareer| < |career| {
      assert key[at] == career[at] && career[at] in career;
    } else if |statsCareer| > |career| {
      assert p[at] == statsCareer[at] && statsCareer[at] in statsCareer;
    }
    assert p[at] != key[at];
  }

  /** Hence, starting without `_OPT-` entries, optative selections keep the
    * statistics' optative list empty. */
  lemma {:induction false} SelectionKeepsStatsOptativesEmpty(d: Dict, statsCareer: string, career: string, i: nat, optativeId: string)
    requires '_' !in statsCareer && '_' !in career
    requires StatsOptatives(d, statsCareer) == []
    ensures StatsOptatives(Put(d, SlotId(career, i), optativeId), statsCareer) == []
  {
    SlotIdIsNotStatsKey(statsCareer, career, i);
    PutOutsidePrefix(d, statsCareer + "_OPT-", SlotId(career, i), optativeId);
  }

  // ---- Course layout ----

  datatype GroupKey = GroupKey(year: nat, semester: nat)

  /** `${course.year || 0}-${course.semester || 0}`, kept as its two numbers. */
  function KeyOf(c: Course): (k: GroupKey)
    ensures k.year == 0 <==> (c.year.None? || c.year == Some(0))
    ensures k.semester == 0 <==> (c.semester.None? || c.semester == Some(0))
    ensures c.year.Some? ==> k.year == c.year.value
    ensures c.semester.Some? ==> k.semester == c.semester.value
  {
    GroupKey(c.year.GetOr(0), c.semester.GetOr(0))
  }

  /** The text of a group key. */
  function KeyText(k: GroupKey): (t: string)
    ensures var n := |NatToString(k.year)|;
      && n < |t| - 1 && t[n] == '-'
      && t[..n] == NatToString(k.year) && t[n + 1..] == NatToString(k.semester)
      && AllDigits(t[..n]) && AllDigits(t[n + 1..])
  {
    var a, b := NatToString(k.year), NatToString(k.semester);
    assert (a + "-" + b)[..|a|] == a && (a + "-" + b)[|a| + 1..] == b;
    a + "-" + b
  }

  /** The first index of `c` in `s`, or |s|. */
  function IndexOf(s: string, c: char): (i: nat)
    ensures i <= |s|
    ensures forall j :: 0 <= j < i ==> s[j] != c
    ensures i < |s| ==> s[i] == c
  {
    if s == [] then 0 else if s[0] == c then 0 else 1 + IndexOf(s[1..], c)
  }

  /** `key.split('-').map(Number)`, taking the first two parts, for digit parts. */
  function ParseKeyText(t: string): (r: Option<GroupKey>)
    ensures (forall n :: 0 <= n < |t| ==> t[n] != '-') ==> r.None?
    ensures r.Some? ==> exists i :: 0 < i < |t| - 1 && t[i] == '-' && AllDigits(t[..i]) && r.value.year == DigitsValue(t[..i])
  {
    var i := IndexOf(t, '-');
    var rest := if i < |t| then t[i + 1..] else "";
    var j := IndexOf(rest, '-');
    var y, sm := t[..i], rest[..j];
    if i < |t| && y != "" && sm != "" && AllDigits(y) && AllDigits(sm) then
      assert 0 < i < |t| - 1 && t[i] == '-';
      Some(GroupKey(DigitsValue(y), DigitsValue(sm)))
    else None
  }

  /** The app orders groups by parsing their text keys; the parse gives back
    * the numbers the key was made from. */
  lemma {:induction false} KeyTextRoundTrip(k: GroupKey)
    ensures ParseKeyText(KeyText(k)) == Some(k)
  {
    var a, b := NatToString(k.year), NatToString(k.semester);
    var t := KeyText(k);
    DigitsHaveNo(k.year, '-');
    DigitsHaveNo(k.semester, '-');
    var i := IndexOf(t, '-');
    assert t[|a|] == '-';
    assert forall n :: 0 <= n < |a| ==> t[n] == a[n] && a[n] in a;
    assert i == |a|;
    assert t[i + 1..] == b;
    var j := IndexOf(b, '-');
    assert forall n :: 0 <= n < |b| ==> b[n] in b;
    assert t[..i] == a && b[..j] == b;
    ParseFormat(k.year);
    ParseFormat(k.semester);
  }

  /** Distinct keys have distinct texts. */
  lemma KeyTextInjective(a: GroupKey, b: GroupKey)
    requires a != b
    ensures KeyText(a) != KeyText(b)
  {
    KeyTextRoundTrip(a);
    KeyTextRoundTrip(b);
  }

  datatype Group = Group(key: GroupKey, courses: seq<Course>)

  /** The plan's courses placed at `k`, in plan order. */
  function CoursesAt(courses: seq<Course>, k: GroupKey): (r: seq<Course>)
    ensures IsSubseq(r, courses)
    ensures forall c :: c in r <==> c in courses && KeyOf(c) == k
  {
    FilterIsSubseq(courses, c => KeyOf(c) == k);
    Filter(courses, c => KeyOf(c) == k)
  }

  /** The index of the group with key `k`, or |groups|. */
  function FindGroup(groups: seq<Group>, k: GroupKey): (i: nat)
    ensures i <= |groups|
    ensures i < |groups| ==> groups[i].key == k
    ensures i == |groups| ==> forall j :: 0 <= j < |groups| ==> groups[j].key != k
  {
    if groups == [] then 0 else if groups[0].key == k then 0 else 1 + FindGroup(groups[1..], k)
  }

  predicate KeysDistinct(groups: seq<Group>) {
    forall i, j :: 0 <= i < j < |groups| ==> groups[i].key != groups[j].key
  }

  /** What the grouping has built after seeing the courses `seen`. */
  ghost predicate GroupsOf(groups: seq<Group>, seen: seq<Course>) {
    && KeysDistinct(groups)
    && (forall g :: 0 <= g < |groups| ==>
          groups[g].courses == CoursesAt(seen, groups[g].key) && groups[g].courses != [])
    && (forall m :: 0 <= m < |seen| ==> FindGroup(groups, KeyOf(seen[m])) < |groups|)
  }

  lemma {:induction false} CoursesAtAppend(seen: seq<Course>, c: Course, k: GroupKey)
    ensures CoursesAt(seen + [c], k) == CoursesAt(seen, k) + (if KeyOf(c) == k then [c] else [])
  {
    FilterAppend(seen, c, x => KeyOf(x) == k);
  }

  /** A course whose key no earlier course has is alone at that key. */
  lemma {:induction false} CoursesAtFresh(seen: seq<Course>, c: Course)
    requires forall m :: 0 <= m < |seen| ==> KeyOf(seen[m]) != KeyOf(c)
    ensures CoursesAt(seen + [c], KeyOf(c)) == [c]
  {
    FilterNone(seen, x => KeyOf(x) == KeyOf(c));
    CoursesAtAppend(seen, c, KeyOf(c));
  }

  /** A course whose key has no group yet opens a new group. */
  lemma {:induction false} OpenGroup(groups: seq<Group>, seen: seq<Course>, c: Course)
    requires GroupsOf(groups, seen) && FindGroup(groups, KeyOf(c)) == |groups|
    ensures GroupsOf(groups + [Group(KeyOf(c), [c])], seen + [c])
  {
    var k := KeyOf(c);
    var ng := groups + [Group(k, [c])];
    forall m | 0 <= m < |seen| ensures KeyOf(seen[m]) != k {
      assert groups[FindGroup(groups, KeyOf(seen[m]))].key == KeyOf(seen[m]);
    }
    CoursesAtFresh(seen, c);
    OpenedDistinct(groups, k);
    OpenedCourses(groups, seen, c);
    OpenedFound(groups, seen, c);
  }

  /** A key no group has keeps the keys distinct when its group is appended. */
  lemma OpenedDistinct(groups: seq<Group>, k: GroupKey)
    requires KeysDistinct(groups) && forall j :: 0 <= j < |groups| ==> groups[j].key != k
    ensures KeysDistinct(groups + [Group(k, [])]) && forall cs :: KeysDistinct(groups + [Group(k, cs)])
  {
    forall cs ensures KeysDistinct(groups + [Group(k, cs)]) {
      var ng := groups + [Group(k, cs)];
      forall i, j | 0 <= i < j < |ng| ensures ng[i].key != ng[j].key {
        assert ng[i] == groups[i];
      }
    }
  }

  /** After opening, every earlier group still holds exactly the courses seen with its key. */
  lemma {:induction false} OpenedCourses(groups: seq<Group>, seen: seq<Course>, c: Course)
    requires forall j :: 0 <= j < |groups| ==> groups[j].key != KeyOf(c)
    requires forall g :: 0 <= g < |groups| ==> groups[g].courses == CoursesAt(seen, groups[g].key) && groups[g].courses != []
    requires CoursesAt(seen + [c], KeyOf(c)) == [c]
    ensures var ng := groups + [Group(KeyOf(c), [c])];
      forall g :: 0 <= g < |ng| ==> ng[g].courses == CoursesAt(seen + [c], ng[g].key) && ng[g].courses != []
  {
    var ng := groups + [Group(KeyOf(c), [c])];
    forall g | 0 <= g < |ng| ensures ng[g].courses == CoursesAt(seen + [c], ng[g].key) && ng[g].courses != [] {
      if g < |groups| {
        assert ng[g] == groups[g];
        CoursesAtAppend(seen, c, ng[g].key);
      }
    }
  }

  /** After opening, every course seen so far, and the new one, has a group. */
  lemma {:induction false} OpenedFound(groups: seq<Group>, seen: seq<Course>, c: Course)
    requires forall m :: 0 <= m < |seen| ==> FindGroup(groups, KeyOf(seen[m])) < |groups|
    ensures var ng := groups + [Group(KeyOf(c), [c])];
      forall m :: 0 <= m < |seen + [c]| ==> FindGroup(ng, KeyOf((seen + [c])[m])) < |ng|
  {
    var ng := groups + [Group(KeyOf(c), [c])];
    forall m | 0 <= m < |seen + [c]| ensures FindGroup(ng, KeyOf((seen + [c])[m])) < |ng| {
      var k := KeyOf((seen + [c])[m]);
      var j := if m < |seen| then FindGroup(groups, k) else |groups|;
      if m < |seen| {
        assert (seen + [c])[m] == seen[m];
      }
      assert ng[j].key == k;
      FindGroupBelow(ng, k, j);
    }
  }

  /** A group with key `k` at `j` means the lookup stops at or before `j`. */
  lemma {:induction false} FindGroupBelow(groups: seq<Group>, k: GroupKey, j: nat)
    requires j < |groups| && groups[j].key == k
    ensures FindGroup(groups, k) <= j
  {
    if groups[0].key != k {
      FindGroupBelow(groups[1..], k, j - 1);
    }
  }

  /** A course whose key has group `i` is pushed onto it. */
  lemma {:induction false} PushOntoGroup(groups: seq<Group>, seen: seq<Course>, c: Course, i: nat)
    requires GroupsOf(groups, seen) && i == FindGroup(groups, KeyOf(c)) < |groups|
    ensures GroupsOf(groups[i := groups[i].(courses := groups[i].courses + [c])], seen + [c])
  {
    var ng := groups[i := groups[i].(courses := groups[i].courses + [c])];
    SameKeys(groups, ng);
    PushedCourses(groups, seen, c, i);
    PushedFound(groups, ng, seen, c, i);
  }

  /** Under the same keys in the same places, distinctness is kept. */
  lemma SameKeys(a: seq<Group>, b: seq<Group>)
    requires KeysDistinct(a) && |a| == |b| && forall j :: 0 <= j < |a| ==> a[j].key == b[j].key
    ensures KeysDistinct(b)
  {
  }

  /** After the push every course seen so far, and the new one, still has a group. */
  lemma {:induction false} PushedFound(groups: seq<Group>, ng: seq<Group>, seen: seq<Course>, c: Course, i: nat)
    requires |groups| == |ng| && forall j :: 0 <= j < |groups| ==> groups[j].key == ng[j].key
    requires i == FindGroup(groups, KeyOf(c)) < |groups|
    requires forall m :: 0 <= m < |seen| ==> FindGroup(groups, KeyOf(seen[m])) < |groups|
    ensures forall m :: 0 <= m < |seen + [c]| ==> FindGroup(ng, KeyOf((seen + [c])[m])) < |ng|
  {
    forall m | 0 <= m < |seen + [c]| ensures FindGroup(ng, KeyOf((seen + [c])[m])) < |ng| {
      FindGroupKeys(groups, ng, KeyOf((seen + [c])[m]));
      if m < |seen| {
        assert (seen + [c])[m] == seen[m];
      }
    }
  }

  /** After the push every group still holds exactly the courses seen with its key. */
  lemma {:induction false} PushedCourses(groups: seq<Group>, seen: seq<Course>, c: Course, i: nat)
    requires i < |groups| && groups[i].key == KeyOf(c) && KeysDistinct(groups)
    requires forall g :: 0 <= g < |groups| ==> groups[g].courses == CoursesAt(seen, groups[g].key) && groups[g].courses != []
    ensures var ng := groups[i := groups[i].(courses := groups[i].courses + [c])];
      forall g :: 0 <= g < |ng| ==> ng[g].courses == CoursesAt(seen + [c], ng[g].key) && ng[g].courses != []
  {
    var ng := groups[i := groups[i].(courses := groups[i].courses + [c])];
    forall g | 0 <= g < |ng| ensures ng[g].courses == CoursesAt(seen + [c], ng[g].key) && ng[g].courses != [] {
      CoursesAtAppend(seen, c, ng[g].key);
      if g != i {
        assert ng[g] == groups[g] && groups[g].key != KeyOf(c);
      }
    }
  }

  /** Groups with the same keys in the same places are found at the same index. */
  lemma {:induction false} FindGroupKeys(a: seq<Group>, b: seq<Group>, k: GroupKey)
    requires |a| == |b| && forall j :: 0 <= j < |a| ==> a[j].key == b[j].key
    ensures FindGroup(a, k) == FindGroup(b, k)
  {
    if a != [] {
      FindGroupKeys(a[1..], b[1..], k);
    }
  }

  /** `groupedCourses`: each course is pushed onto the group of its key, created on first use. */
  method GroupCourses(courses: seq<Course>) returns (groups: seq<Group>)
    ensures KeysDistinct(groups)
    ensures forall g :: 0 <= g < |groups| ==>
      groups[g].courses == CoursesAt(courses, groups[g].key) && groups[g].courses != []
    ensures forall c :: c in courses ==> FindGroup(groups, KeyOf(c)) < |groups|
  {
    groups := [];
    for n := 0 to |courses|
      invariant GroupsOf(groups, courses[..n])
    {
      var c := courses[n];
      assert courses[..n + 1] == courses[..n] + [c];
      var i := FindGroup(groups, KeyOf(c));
      if i == |groups| {
        OpenGroup(groups, courses[..n], c);
        groups := groups + [Group(KeyOf(c), [c])];
      } else {
        PushOntoGroup(groups, courses[..n], c, i);
        groups := groups[i := groups[i].(courses := groups[i].courses + [c])];
      }
    }
    assert courses[..|courses|] == courses;
  }

  // ---- Section order and titles ----

  /** The comparator of `sortedKeys`: by year, then by semester. */
  function KeyLe(a: GroupKey, b: GroupKey): (le: bool)
    ensures le <==> (if a.year != b.year then a.year - b.year else a.semester - b.semester) <= 0
  {
    a.year < b.year || (a.year == b.year && a.semester <= b.semester)
  }

  /** The comparator is a total order on keys, so every correct sort of distinct
    * keys gives the same list. */
  lemma KeyLeTotalOrder(a: GroupKey, b: GroupKey, c: GroupKey)
    ensures KeyLe(a, b) || KeyLe(b, a)
    ensures KeyLe(a, b) && KeyLe(b, a) ==> a == b
    ensures KeyLe(a, b) && KeyLe(b, c) ==> KeyLe(a, c)
  {
  }

  predicate SortedKeys(s: seq<GroupKey>) {
    forall i, j :: 0 <= i < j < |s| ==> KeyLe(s[i], s[j])
  }

  function InsertKey(k: GroupKey, s: seq<GroupKey>): seq<GroupKey> {
    if s == [] then [k]
    else if KeyLe(k, s[0]) then [k] + s
    else [s[0]] + InsertKey(k, s[1..])
  }

  /** `Object.keys(groupedCourses).sort(...)`, written as an insertion sort on the parsed keys. */
  function SortKeys(ks: seq<GroupKey>): (r: seq<GroupKey>)
    ensures SortedKeys(r)
    ensures multiset(r) == multiset(ks)
  {
    if ks == [] then []
    else
      var rest := SortKeys(ks[1..]);
      SortKeysStep(ks, rest);
      InsertKey(ks[0], rest)
  }

  /** One insertion step of the sort keeps it sorted and a permutation. */
  lemma SortKeysStep(ks: seq<GroupKey>, rest: seq<GroupKey>)
    requires ks != [] && SortedKeys(rest) && multiset(rest) == multiset(ks[1..])
    ensures SortedKeys(InsertKey(ks[0], rest)) && multiset(InsertKey(ks[0], rest)) == multiset(ks)
  {
    InsertKeySorted(ks[0], rest);
    InsertKeyPermutes(ks[0], rest);
    assert ks == [ks[0]] + ks[1..];
  }

  lemma {:induction false} InsertKeyPermutes(k: GroupKey, s: seq<GroupKey>)
    ensures multiset(InsertKey(k, s)) == multiset(s) + multiset{k}
  {
    if s != [] && !KeyLe(k, s[0]) {
      InsertKeyPermutes(k, s[1..]);
      assert s == [s[0]] + s[1..];
    }
  }

  lemma {:induction false} InsertKeySorted(k: GroupKey, s: seq<GroupKey>)
    requires SortedKeys(s)
    ensures SortedKeys(InsertKey(k, s))
  {
    if s != [] && !KeyLe(k, s[0]) {
      InsertKeySorted(k, s[1..]);
      InsertKeyPermutes(k, s[1..]);
      var r := InsertKey(k, s[1..]);
      forall x | x in r ensures KeyLe(s[0], x) {
        assert x in multiset(r);
        if x != k {
          assert x in multiset(s[1..]);
        }
      }
    }
  }

  /** `Object.keys(groupedCourses)`: the group keys in the order the groups were opened. */
  function GroupKeys(groups: seq<Group>): (ks: seq<GroupKey>)
    ensures |ks| == |groups|
    ensures forall i :: 0 <= i < |groups| ==> ks[i] == groups[i].key
  {
    if groups == [] then [] else [groups[0].key] + GroupKeys(groups[1..])
  }

  /** `sortedKeys`: the sections in ascending (year, semester) order, each group once. */
  function SectionOrder(groups: seq<Group>): (ks: seq<GroupKey>)
    ensures SortedKeys(ks)
    ensures multiset(ks) == multiset(GroupKeys(groups))
  {
    SortKeys(GroupKeys(groups))
  }

  /** The heading of a section of the mandatory plan. */
  datatype SectionTitle = LevelingSection | YearSection(year: nat, half: CourseCard.Half)

  /** `getSectionTitle`: year 0 is the leveling section; any semester other than 1 reads as the second. */
  function GetSectionTitle(k: GroupKey): (t: SectionTitle)
    ensures t == LevelingSection <==> k.year == 0
    ensures t.YearSection? ==> t.year == k.year && (t.half == CourseCard.FirstHalf <==> k.semester == 1)
  {
    if k.year == 0 then LevelingSection
    else YearSection(k.year, if k.semester == 1 then CourseCard.FirstHalf else CourseCard.SecondHalf)
  }

  /**
   * The section heading and the card's own label agree for a placed course, but
   * not for a course without a year: the grouping files it under leveling while
   * the card shows no semester line at all.
   */
  lemma SectionAndCardLabels(c: Course)
    ensures c.year.Some? && c.year.value > 0 && c.semester.Some? && c.semester.value > 0 ==>
      GetSectionTitle(KeyOf(c)) == YearSection(c.year.value, CourseCard.GetSemesterInfo(c.year, c.semester).half)
    ensures c.year.None? ==>
      GetSectionTitle(KeyOf(c)) == LevelingSection && CourseCard.GetSemesterInfo(c.year, c.semester) == CourseCard.NoInfo
    ensures c.year.Some? && c.year.value > 0 && c.semester.None? ==>
      GetSectionTitle(KeyOf(c)) == YearSection(c.year.value, CourseCard.SecondHalf)
      && CourseCard.GetSemesterInfo(c.year, c.semester) == CourseCard.NoInfo
  {
  }
}
