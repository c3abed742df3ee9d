/**
 * The career-progress projection that the components build before asking the
 * eligibility evaluator anything: the entries whose key starts with
 * `career + "_"`, re-keyed by the rest of the key. Entries under unprefixed
 * keys (where the store files shared courses) are dropped.
 */
module CareerProgress {
  import opened Wrappers
  import opened PlanTypes

  function Prefix(career: string): string {
    career + "_"
  }

  /** The ids left after removing `prefix` from each key that starts with it. */
  function Stripped(keys: set<string>, prefix: string): set<string> {
    set k | k in keys && prefix <= k :: k[|prefix|..]
  }

  /** The specification of the projection. */
  function Project(progress: Progress, career: string): (r: Progress)
    ensures forall id :: id in r <==> Prefix(career) + id in progress
    ensures forall id :: id in r ==> r[id] == progress[Prefix(career) + id]
  {
    var p := Prefix(career);
    var r := map id | id in Stripped(progress.Keys, p) && p + id in progress :: progress[p + id];
    forall id | p + id in progress ensures id in r {
      assert (p + id)[|p|..] == id;
    }
    r
  }

  lemma StripPrefix(prefix: string, k: string)
    requires prefix <= k
    ensures prefix + k[|prefix|..] == k
  {
    assert k == k[..|prefix|] + k[|prefix|..];
  }

  /** The projection holds `id` exactly when the store holds `career_id`, with the same record. */
  lemma {:induction false} ProjectAt(progress: Progress, career: string, id: string)
    ensures Lookup(Project(progress, career), id) == Lookup(progress, Prefix(career) + id)
  {
    var p := Prefix(career);
    if p + id in progress {
      assert (p + id)[|p|..] == id;
      assert id in Stripped(progress.Keys, p);
    }
  }

  /** Every key of the projection comes from a prefixed key of the store. */
  lemma {:induction false} ProjectKeys(progress: Progress, career: string)
    ensures forall id :: id in Project(progress, career) <==> Prefix(career) + id in progress
  {
    forall id ensures id in Project(progress, career) <==> Prefix(career) + id in progress {
      ProjectAt(progress, career, id);
    }
  }

  /** Changing a store entry whose key lacks the prefix leaves the projection unchanged. */
  lemma {:induction false} ProjectIgnoresUnprefixed(progress: Progress, career: string, k: string, r: CourseProgress)
    requires !(Prefix(career) <= k)
    ensures Project(progress[k := r], career) == Project(progress, career)
  {
    var p1, p2 := Project(progress[k := r], career), Project(progress, career);
    forall id ensures Lookup(p1, id) == Lookup(p2, id) {
      ProjectAt(progress[k := r], career, id);
      ProjectAt(progress, career, id);
      assert Prefix(career) <= Prefix(career) + id;
    }
    assert p1.Keys == p2.Keys;
  }

  /** `Object.keys(progress).forEach(key => { if (key.startsWith(p)) result[strip(key)] = progress[key] })`. */
  method BuildProjection(progress: Progress, career: string) returns (result: Progress)
    ensures result == Project(progress, career)
  {
    var p := Prefix(career);
    result := map[];
    var todo := progress.Keys;
    while todo != {}
      invariant todo <= progress.Keys
      invariant forall id :: id in result <==> p + id in progress && p + id !in todo
      invariant forall id :: id in result ==> result[id] == progress[p + id]
      decreases todo
    {
      var key :| key in todo;
      if p <= key {
        StripPrefix(p, key);
        result := result[key[|p|..] := progress[key]];
      }
      todo := todo - {key};
    }
    ProjectKeys(progress, career);
    forall id | id in result ensures result[id] == Project(progress, career)[id] {
      ProjectAt(progress, career, id);
    }
  }
}
