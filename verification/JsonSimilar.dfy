/** Comparison without a look at its search: equality up to the order of members. */
module JsonSimilarity {
  import opened Basics
  import opened Json
  import opened JsonCompare

  /** p and q pair the members of two objects, one of the other's inverse, key by key. */
  predicate Pairs(ms: seq<Member>, ns: seq<Member>, p: seq<nat>, q: seq<nat>, caseSensitive: bool) {
    && |p| == |ms| && |q| == |ns|
    && (forall i :: 0 <= i < |p| ==> p[i] < |ns| && q[p[i]] == i && SameKey(ms[i].key, ns[p[i]].key, caseSensitive))
    && (forall j :: 0 <= j < |q| ==> q[j] < |ms| && p[q[j]] == j)
  }

  /** The same but for the order of members, and for what strings hold behind a zero byte. */
  ghost predicate Similar(a: Json, b: Json, caseSensitive: bool)
    decreases a
  {
    match (a, b)
    case (Null, Null) => true
    case (False, False) => true
    case (True, True) => true
    case (Number(x), Number(y)) => CompareDouble(x, y)
    case (String(s), String(t)) => Seen(s) == Seen(t)
    case (Array(xs), Array(ys)) =>
      |xs| == |ys| && forall i :: 0 <= i < |xs| ==> Similar(xs[i], ys[i], caseSensitive)
    case (Object(ms), Object(ns)) =>
      exists p, q :: Pairs(ms, ns, p, q, caseSensitive)
                     && forall i :: 0 <= i < |ms| ==> Similar(ms[i].value, ns[p[i]].value, caseSensitive)
    case _ => false
  }

  // Keys

  lemma SameKeySymmetric(a: string, b: string, caseSensitive: bool)
    ensures SameKey(a, b, caseSensitive) == SameKey(b, a, caseSensitive)
  {
  }

  lemma SameKeyTransitive(a: string, b: string, c: string, caseSensitive: bool)
    requires SameKey(a, b, caseSensitive) && SameKey(b, c, caseSensitive)
    ensures SameKey(a, c, caseSensitive)
  {
  }

  predicate KeysApart(ms: seq<Member>, caseSensitive: bool) {
    forall i, k :: 0 <= i < |ms| && 0 <= k < |ms| && SameKey(ms[i].key, ms[k].key, caseSensitive) ==> i == k
  }

  lemma DistinctApart(v: Json, caseSensitive: bool)
    requires v.Object? && DistinctKeys(v, caseSensitive)
    ensures KeysApart(v.members, caseSensitive)
  {
    hide SameKey;
    forall i, k | 0 <= i < |v.members| && 0 <= k < |v.members| && SameKey(v.members[i].key, v.members[k].key, caseSensitive)
      ensures i == k
    {
      SameKeySymmetric(v.members[i].key, v.members[k].key, caseSensitive);
    }
  }

  /** The search finds the one member with the key. */
  lemma FindsOnly(ns: seq<Member>, key: string, k: nat, caseSensitive: bool)
    requires KeysApart(ns, caseSensitive) && k < |ns| && SameKey(key, ns[k].key, caseSensitive)
    ensures Find(ns, key, caseSensitive) == Some(k)
  {
    hide SameKey, FindFrom;
    var f := Find(ns, key, caseSensitive);
    if f.Some? {
      SameKeySymmetric(key, ns[f.value].key, caseSensitive);
      SameKeyTransitive(ns[f.value].key, key, ns[k].key, caseSensitive);
    }
  }

  // Objects

  lemma Matched(a: Json, b: Json, i: nat, caseSensitive: bool)
    requires a.Object? && b.Object? && Compare(a, b, caseSensitive) && i < |a.members|
    ensures var f := Find(b.members, a.members[i].key, caseSensitive);
            f.Some? && Compare(a.members[i].value, b.members[f.value].value, caseSensitive)
  {
    assert MemberFound(a, b, i, caseSensitive);
  }

  /** What each member of one object finds in another that it compares equal to. */
  function Findings(ms: seq<Member>, ns: seq<Member>, caseSensitive: bool): (p: seq<nat>)
    ensures |p| == |ms|
  {
    seq(|ms|, i requires 0 <= i < |ms| =>
      var f := Find(ns, ms[i].key, caseSensitive); if f.Some? then f.value else 0)
  }

  lemma FindingsInverse(a: Json, b: Json, i: nat, caseSensitive: bool)
    requires a.Object? && b.Object? && Compare(a, b, caseSensitive) && Compare(b, a, caseSensitive) && i < |a.members|
    requires KeysApart(a.members, caseSensitive)
    ensures var p, q := Findings(a.members, b.members, caseSensitive), Findings(b.members, a.members, caseSensitive);
            p[i] < |b.members| && q[p[i]] == i && SameKey(a.members[i].key, b.members[p[i]].key, caseSensitive)
  {
    hide SameKey, FindFrom, Compare;
    Matched(a, b, i, caseSensitive);
    var k := Find(b.members, a.members[i].key, caseSensitive).value;
    Matched(b, a, k, caseSensitive);
    SameKeySymmetric(a.members[i].key, b.members[k].key, caseSensitive);
    FindsOnly(a.members, b.members[k].key, i, caseSensitive);
  }

  lemma {:induction false} ObjectsSimilar(a: Json, b: Json, caseSensitive: bool)
    requires a.Object? && b.Object? && DistinctKeys(a, caseSensitive) && DistinctKeys(b, caseSensitive)
    requires Compare(a, b, caseSensitive)
    ensures Similar(a, b, caseSensitive)
    decreases a, 0
  {
    var ms, ns := a.members, b.members;
    var p, q := Findings(ms, ns, caseSensitive), Findings(ns, ms, caseSensitive);
    CompareSymmetric(a, b, caseSensitive);
    DistinctApart(a, caseSensitive);
    DistinctApart(b, caseSensitive);
    forall i | 0 <= i < |ms|
      ensures p[i] < |ns| && q[p[i]] == i && SameKey(ms[i].key, ns[p[i]].key, caseSensitive)
      ensures Similar(ms[i].value, ns[p[i]].value, caseSensitive)
    {
      hide Compare, Find, SameKey, Findings;
      FindingsInverse(a, b, i, caseSensitive);
      MatchedThere(a, b, i, caseSensitive);
      CompareSimilar(ms[i].value, ns[p[i]].value, caseSensitive);
    }
    forall j | 0 <= j < |ns|
      ensures q[j] < |ms| && p[q[j]] == j
    {
      FindingsInverse(b, a, j, caseSensitive);
    }
    assert Pairs(ms, ns, p, q, caseSensitive);
  }

  lemma MatchedThere(a: Json, b: Json, i: nat, caseSensitive: bool)
    requires a.Object? && b.Object? && Compare(a, b, caseSensitive) && i < |a.members|
    ensures var p := Findings(a.members, b.members, caseSensitive);
            p[i] < |b.members| && Compare(a.members[i].value, b.members[p[i]].value, caseSensitive)
  {
    hide Compare, FindFrom;
    Matched(a, b, i, caseSensitive);
  }

  lemma {:induction false} ObjectsCompare(a: Json, b: Json, caseSensitive: bool)
    requires a.Object? && b.Object? && DistinctKeys(a, caseSensitive) && DistinctKeys(b, caseSensitive)
    requires Similar(a, b, caseSensitive)
    ensures Compare(a, b, caseSensitive)
    decreases a, 0
  {
    var ms, ns := a.members, b.members;
    DistinctApart(a, caseSensitive);
    DistinctApart(b, caseSensitive);
    var p, q :| Pairs(ms, ns, p, q, caseSensitive)
                && forall i :: 0 <= i < |ms| ==> Similar(ms[i].value, ns[p[i]].value, caseSensitive);
    forall i | 0 <= i < |ms|
      ensures MemberFound(a, b, i, caseSensitive)
      ensures Compare(ms[i].value, ns[p[i]].value, caseSensitive)
    {
      CompareSimilar(ms[i].value, ns[p[i]].value, caseSensitive);
      FindsOnly(ns, ms[i].key, p[i], caseSensitive);
    }
    forall j | 0 <= j < |ns|
      ensures MemberFound(b, a, j, caseSensitive)
    {
      var i := q[j];
      SameKeySymmetric(ms[i].key, ns[j].key, caseSensitive);
      FindsOnly(ms, ns[j].key, i, caseSensitive);
      CompareSymmetric(ms[i].value, ns[j].value, caseSensitive);
    }
  }

  /** Values without repeated keys compare equal exactly if they are the same up to the order of
    * members. */
  lemma {:induction false} CompareSimilar(a: Json, b: Json, caseSensitive: bool)
    requires DistinctKeys(a, caseSensitive) && DistinctKeys(b, caseSensitive)
    ensures Compare(a, b, caseSensitive) <==> Similar(a, b, caseSensitive)
    decreases a, 1
  {
    if a.Array? && b.Array? && |a.items| == |b.items| {
      forall i | 0 <= i < |a.items|
        ensures Compare(a.items[i], b.items[i], caseSensitive) <==> Similar(a.items[i], b.items[i], caseSensitive)
      {
        CompareSimilar(a.items[i], b.items[i], caseSensitive);
      }
    } else if a.Object? && b.Object? {
      if Compare(a, b, caseSensitive) {
        ObjectsSimilar(a, b, caseSensitive);
      }
      if Similar(a, b, caseSensitive) {
        ObjectsCompare(a, b, caseSensitive);
      }
    }
  }
}
