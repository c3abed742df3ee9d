/**
 * A JavaScript object used as a string-keyed dictionary whose keys are not
 * integer-like (such as slot ids): for those keys `Object.keys` lists them in
 * insertion order, and `{...d, [k]: v}` replaces the value of a present key in
 * place and appends a new key at the end.
 */
module Dictionary {
  import opened Wrappers
  import opened Seqs

  type Dict = seq<(string, string)>

  function KeysOf(d: Dict): (ks: seq<string>)
    ensures |ks| == |d|
    ensures forall i :: 0 <= i < |d| ==> ks[i] == d[i].0
  {
    if d == [] then [] else [d[0].0] + KeysOf(d[1..])
  }

  /** Every key occurs once, as in a real object. */
  predicate DistinctKeys(d: Dict) {
    forall i, j :: 0 <= i < j < |d| ==> d[i].0 != d[j].0
  }

  /** `d[k]`, with `undefined` as None. */
  function Get(d: Dict, k: string): (r: Option<string>)
    ensures r.Some? <==> exists i :: 0 <= i < |d| && d[i].0 == k
    ensures r.Some? ==> exists i :: 0 <= i < |d| && d[i] == (k, r.value)
  {
    if d == [] then None
    else if d[0].0 == k then Some(d[0].1)
    else Get(d[1..], k)
  }

  /** `{...d, [k]: v}`. */
  function Put(d: Dict, k: string, v: string): (r: Dict)
    ensures KeysOf(r) == if k in KeysOf(d) then KeysOf(d) else KeysOf(d) + [k]
    ensures forall e :: e in r ==> e == (k, v) || e in d
  {
    if d == [] then [(k, v)]
    else if d[0].0 == k then [(k, v)] + d[1..]
    else [d[0]] + Put(d[1..], k, v)
  }

  /** The entries whose key starts with `prefix`, in key order. */
  function PrefixedEntries(d: Dict, prefix: string): seq<(string, string)> {
    Filter(d, (e: (string, string)) => prefix <= e.0)
  }

  /** The values of the keys that start with `prefix`, in key order
    * (`Object.keys(d).filter(k => k.startsWith(prefix)).map(k => d[k])`):
    * one value per prefixed entry, so a value bound under two keys is listed twice. */
  function ValuesWithPrefix(d: Dict, prefix: string): (vs: seq<string>)
    ensures |vs| == |PrefixedEntries(d, prefix)| <= |d|
    ensures forall i :: 0 <= i < |vs| ==> vs[i] == PrefixedEntries(d, prefix)[i].1
    ensures forall i :: 0 <= i < |d| && prefix <= d[i].0 ==> d[i].1 in vs
    ensures forall v :: v in vs ==> exists i :: 0 <= i < |d| && prefix <= d[i].0 && d[i].1 == v
  {
    if d == [] then []
    else
      var rest := ValuesWithPrefix(d[1..], prefix);
      assert forall i :: 1 <= i < |d| ==> d[i] == d[1..][i - 1];
      assert PrefixedEntries(d, prefix) ==
        (if prefix <= d[0].0 then [d[0]] else []) + PrefixedEntries(d[1..], prefix);
      (if prefix <= d[0].0 then [d[0].1] else []) + rest
  }

  lemma {:induction false} GetPut(d: Dict, k: string, v: string, k': string)
    ensures Get(Put(d, k, v), k') == if k' == k then Some(v) else Get(d, k')
  {
    if d != [] && d[0].0 != k {
      GetPut(d[1..], k, v, k');
      assert Put(d, k, v)[1..] == Put(d[1..], k, v);
    }
  }

  lemma {:induction false} PutKeepsDistinct(d: Dict, k: string, v: string)
    requires DistinctKeys(d)
    ensures DistinctKeys(Put(d, k, v))
  {
    var r := Put(d, k, v);
    forall i, j | 0 <= i < j < |r| ensures r[i].0 != r[j].0 {
      assert KeysOf(r)[i] == r[i].0 && KeysOf(r)[j] == r[j].0;
      if j == |d| {
        assert k !in KeysOf(d);
        assert KeysOf(d)[i] in KeysOf(d);
      }
    }
  }

  /** Writing a key outside the prefix leaves the prefixed values as they were. */
  lemma {:induction false} PutOutsidePrefix(d: Dict, prefix: string, k: string, v: string)
    requires !(prefix <= k)
    ensures ValuesWithPrefix(Put(d, k, v), prefix) == ValuesWithPrefix(d, prefix)
  {
    if d != [] && d[0].0 != k {
      PutOutsidePrefix(d[1..], prefix, k, v);
      assert Put(d, k, v)[1..] == Put(d[1..], k, v);
    }
  }

  /** Writing a value absent from the prefixed values keeps them free of duplicates. */
  lemma {:induction false} PutKeepsValuesDistinct(d: Dict, prefix: string, k: string, v: string)
    requires DistinctKeys(d)
    requires NoDuplicates(ValuesWithPrefix(d, prefix))
    requires v !in ValuesWithPrefix(d, prefix)
    ensures NoDuplicates(ValuesWithPrefix(Put(d, k, v), prefix))
  {
    if d != [] {
      var old1 := ValuesWithPrefix(d[1..], prefix);
      var head: seq<string> := if prefix <= d[0].0 then [d[0].1] else [];
      assert ValuesWithPrefix(d, prefix) == head + old1;
      NoDuplicatesSuffix(head, old1);
      if d[0].0 == k {
        PutAtHead(d, prefix, k, v);
      } else {
        assert DistinctKeys(d[1..]);
        assert v !in old1;
        PutKeepsValuesDistinct(d[1..], prefix, k, v);
        PutBehindHead(d, prefix, k, v);
      }
    }
  }

  lemma PutAtHead(d: Dict, prefix: string, k: string, v: string)
    requires d != [] && d[0].0 == k
    requires NoDuplicates(ValuesWithPrefix(d[1..], prefix))
    requires v !in ValuesWithPrefix(d, prefix)
    ensures NoDuplicates(ValuesWithPrefix(Put(d, k, v), prefix))
  {
    var r := Put(d, k, v);
    var old1 := ValuesWithPrefix(d[1..], prefix);
    assert r[0] == (k, v) && r[1..] == d[1..];
    var nh: seq<string> := if prefix <= k then [v] else [];
    assert ValuesWithPrefix(r, prefix) == nh + old1;
    NoDuplicatesCons(nh, old1);
  }

  lemma {:induction false} PutBehindHead(d: Dict, prefix: string, k: string, v: string)
    requires d != [] && d[0].0 != k
    requires NoDuplicates(ValuesWithPrefix(d, prefix))
    requires v !in ValuesWithPrefix(d, prefix)
    requires NoDuplicates(ValuesWithPrefix(Put(d[1..], k, v), prefix))
    ensures NoDuplicates(ValuesWithPrefix(Put(d, k, v), prefix))
  {
    var r := Put(d, k, v);
    var old1 := ValuesWithPrefix(d[1..], prefix);
    var head: seq<string> := if prefix <= d[0].0 then [d[0].1] else [];
    assert ValuesWithPrefix(d, prefix) == head + old1;
    assert r[0] == d[0] && r[1..] == Put(d[1..], k, v);
    var rest := ValuesWithPrefix(Put(d[1..], k, v), prefix);
    assert ValuesWithPrefix(r, prefix) == head + rest;
    PutValues(d[1..], prefix, k, v);
    forall x | x in head ensures x !in rest {
      assert x in head + old1;
      NoDuplicatesDisjoint(head, old1, x);
    }
    NoDuplicatesCons(head, rest);
  }

  /** After a write, every prefixed value is the written one or an old one. */
  lemma {:induction false} PutValues(d: Dict, prefix: string, k: string, v: string)
    ensures forall x :: x in ValuesWithPrefix(Put(d, k, v), prefix) ==> x == v || x in ValuesWithPrefix(d, prefix)
  {
    if d != [] {
      PutValues(d[1..], prefix, k, v);
      var r := Put(d, k, v);
      if d[0].0 == k {
        assert r[1..] == d[1..];
      } else {
        assert r[0] == d[0] && r[1..] == Put(d[1..], k, v);
      }
    }
  }

  lemma NoDuplicatesDisjoint(a: seq<string>, b: seq<string>, x: string)
    requires NoDuplicates(a + b) && x in a
    ensures x !in b
  {
    var i :| 0 <= i < |a| && a[i] == x;
    forall j | 0 <= j < |b| ensures b[j] != x {
      assert (a + b)[i] == a[i] && (a + b)[|a| + j] == b[j];
    }
  }

  lemma NoDuplicatesSuffix(a: seq<string>, b: seq<string>)
    requires NoDuplicates(a + b)
    ensures NoDuplicates(b)
  {
    forall i, j | 0 <= i < j < |b| ensures b[i] != b[j] {
      assert (a + b)[|a| + i] == b[i] && (a + b)[|a| + j] == b[j];
    }
  }

  lemma NoDuplicatesCons(a: seq<string>, b: seq<string>)
    requires |a| <= 1 && NoDuplicates(b)
    requires forall x :: x in a ==> x !in b
    ensures NoDuplicates(a + b)
  {
    forall i, j | 0 <= i < j < |a + b| ensures (a + b)[i] != (a + b)[j] {
      if i < |a| {
        assert (a + b)[i] in a && (a + b)[j] == b[j - |a|];
      } else {
        assert (a + b)[i] == b[i - |a|] && (a + b)[j] == b[j - |a|];
      }
    }
  }
}
