/** cJSON_Compare of c/cjson/cJSON.c on two separate trees. */
module JsonCompare {
  import opened Basics
  import opened Json

  /** 2^-52. */
  const DBL_EPSILON: real := 1.0 / 4503599627370496.0

  function Abs(x: real): real {
    if x < 0.0 then -x else x
  }

  predicate CompareDouble(a: real, b: real) {
    var maxVal := if Abs(a) > Abs(b) then Abs(a) else Abs(b);
    Abs(a - b) <= maxVal * DBL_EPSILON
  }

  function Lower(c: char): char {
    if 'A' <= c <= 'Z' then (c as int + 32) as char else c
  }

  /** Letters are the same in either case, and nothing else is the same as another character. */
  lemma CaseFolds(c: char, d: char)
    ensures Lower(c) == Lower(d)
            <==> || c == d
                 || (65 <= c as int <= 90 && d as int == c as int + 32)
                 || (65 <= d as int <= 90 && c as int == d as int + 32)
  {
  }

  /** Numbers are the same up to one part in 2^52 of the larger one. */
  lemma NumbersClose(a: real, b: real)
    ensures CompareDouble(a, b)
            <==> && 4503599627370496.0 * (a - b) <= (if Abs(a) > Abs(b) then Abs(a) else Abs(b))
                 && 4503599627370496.0 * (b - a) <= (if Abs(a) > Abs(b) then Abs(a) else Abs(b))
  {
  }

  predicate SameLower(a: string, b: string) {
    |a| == |b| && forall i :: 0 <= i < |a| ==> Lower(a[i]) == Lower(b[i])
  }

  /** strcmp or its case-insensitive counterpart finds no difference. */
  predicate SameKey(a: string, b: string, caseSensitive: bool) {
    if caseSensitive then Seen(a) == Seen(b) else SameLower(Seen(a), Seen(b))
  }

  /** get_object_item: the first member with a key. */
  function FindFrom(ms: seq<Member>, key: string, caseSensitive: bool, i: nat): (r: Option<nat>)
    requires i <= |ms|
    ensures r.Some? ==> i <= r.value < |ms| && SameKey(key, ms[r.value].key, caseSensitive)
    ensures r.Some? ==> forall k :: i <= k < r.value ==> !SameKey(key, ms[k].key, caseSensitive)
    ensures r.None? ==> forall k :: i <= k < |ms| ==> !SameKey(key, ms[k].key, caseSensitive)
    decreases |ms| - i
  {
    if i == |ms| then None
    else if SameKey(key, ms[i].key, caseSensitive) then Some(i)
    else FindFrom(ms, key, caseSensitive, i + 1)
  }

  function Find(ms: seq<Member>, key: string, caseSensitive: bool): (r: Option<nat>)
    ensures r.Some? ==> r.value < |ms| && SameKey(key, ms[r.value].key, caseSensitive)
    ensures r.Some? ==> forall k :: 0 <= k < r.value ==> !SameKey(key, ms[k].key, caseSensitive)
    ensures r.None? ==> forall k :: 0 <= k < |ms| ==> !SameKey(key, ms[k].key, caseSensitive)
  {
    FindFrom(ms, key, caseSensitive, 0)
  }

  /** How many values a tree holds: what the two walks of a comparison use up. */
  function Size(v: Json): nat
    decreases v, 1, 0
  {
    match v
    case Array(items) => 1 + ItemsSize(v, 0)
    case Object(members) => 1 + ItemsSize(v, 0)
    case _ => 1
  }

  function ItemsSize(v: Json, i: nat): nat
    requires v.Array? || v.Object?
    requires i <= Count(v)
    decreases v, 0, Count(v) - i
  {
    if i == Count(v) then 0 else Size(Child(v, i)) + ItemsSize(v, i + 1)
  }

  function Count(v: Json): nat
    requires v.Array? || v.Object?
  {
    if v.Array? then |v.items| else |v.members|
  }

  function Child(v: Json, i: nat): Json
    requires (v.Array? || v.Object?) && i < Count(v)
  {
    if v.Array? then v.items[i] else v.members[i].value
  }

  lemma {:induction false} ChildSmaller(v: Json, i: nat, k: nat)
    requires (v.Array? || v.Object?) && k <= i < Count(v)
    ensures Size(Child(v, i)) <= ItemsSize(v, k)
    decreases i - k
  {
    if k < i {
      ChildSmaller(v, i, k + 1);
    }
  }

  /** Whether the i-th member of a compares equal to the member of b with its key. */
  predicate MemberFound(a: Json, b: Json, i: nat, caseSensitive: bool)
    requires a.Object? && b.Object? && i < |a.members|
    decreases Size(a) + Size(b), 0
  {
    var f := Find(b.members, a.members[i].key, caseSensitive);
    && f.Some?
    && (ChildSmaller(a, i, 0); ChildSmaller(b, f.value, 0);
        Compare(a.members[i].value, b.members[f.value].value, caseSensitive))
  }

  predicate Compare(a: Json, b: Json, caseSensitive: bool)
    decreases Size(a) + Size(b), 1
  {
    match (a, b)
    case (Null, Null) => true
    case (False, False) => true
    case (True, True) => true
    case (Number(x), Number(y)) => CompareDouble(x, y)
    case (String(s), String(t)) => Seen(s) == Seen(t)
    case (Array(xs), Array(ys)) =>
      && |xs| == |ys|
      && forall i :: 0 <= i < |xs| ==> (ChildSmaller(a, i, 0); ChildSmaller(b, i, 0); Compare(xs[i], ys[i], caseSensitive))
    case (Object(ms), Object(ns)) =>
      && (forall i :: 0 <= i < |ms| ==> MemberFound(a, b, i, caseSensitive))
      && (forall i :: 0 <= i < |ns| ==> MemberFound(b, a, i, caseSensitive))
    case _ => false
  }

  /** The order of the arguments does not matter. */
  lemma {:induction false} CompareSymmetric(a: Json, b: Json, caseSensitive: bool)
    ensures Compare(a, b, caseSensitive) == Compare(b, a, caseSensitive)
    decreases Size(a) + Size(b)
  {
    if a.Array? && b.Array? && |a.items| == |b.items| {
      forall i | 0 <= i < |a.items|
        ensures Compare(a.items[i], b.items[i], caseSensitive) == Compare(b.items[i], a.items[i], caseSensitive)
      {
        ChildSmaller(a, i, 0);
        ChildSmaller(b, i, 0);
        CompareSymmetric(a.items[i], b.items[i], caseSensitive);
      }
    }
  }

  /** No object has two members with the same key. */
  predicate DistinctKeys(v: Json, caseSensitive: bool) {
    match v
    case Array(items) => forall i :: 0 <= i < |items| ==> DistinctKeys(items[i], caseSensitive)
    case Object(members) =>
      && (forall i, k :: 0 <= i < k < |members| ==> !SameKey(members[k].key, members[i].key, caseSensitive))
      && (forall i :: 0 <= i < |members| ==> DistinctKeys(members[i].value, caseSensitive))
    case _ => true
  }

  /** A member that an earlier one with the same key shadows equals that one. */
  predicate ShadowsEqual(v: Json, caseSensitive: bool) {
    match v
    case Array(items) => forall i :: 0 <= i < |items| ==> ShadowsEqual(items[i], caseSensitive)
    case Object(members) =>
      forall i :: 0 <= i < |members| ==>
        var f := Find(members, members[i].key, caseSensitive);
        f.Some? && (if f.value == i then ShadowsEqual(members[i].value, caseSensitive)
                    else Compare(members[i].value, members[f.value].value, caseSensitive))
    case _ => true
  }

  lemma SameKeyReflexive(key: string, caseSensitive: bool)
    ensures SameKey(key, key, caseSensitive)
  {
  }

  lemma FindsItself(ms: seq<Member>, i: nat, caseSensitive: bool)
    requires i < |ms|
    ensures Find(ms, ms[i].key, caseSensitive).Some? && Find(ms, ms[i].key, caseSensitive).value <= i
  {
    SameKeyReflexive(ms[i].key, caseSensitive);
  }

  lemma CloseToItself(d: real)
    ensures CompareDouble(d, d)
  {
  }

  lemma FoundInCopy(v: Json, i: nat, caseSensitive: bool)
    requires v.Object? && i < |v.members|
    requires Compare(v.members[i].value, v.members[i].value, caseSensitive) <==> ShadowsEqual(v.members[i].value, caseSensitive)
    ensures var ms := v.members;
            var f := Find(ms, ms[i].key, caseSensitive);
            && f.Some?
            && (MemberFound(v, v, i, caseSensitive)
                <==> if f.value == i then ShadowsEqual(ms[i].value, caseSensitive)
                     else Compare(ms[i].value, ms[f.value].value, caseSensitive))
  {
    hide ShadowsEqual, Compare, SameKey, FindFrom;
    FindsItself(v.members, i, caseSensitive);
  }

  /** A tree compares equal to a copy of itself exactly when no object in it has two different
    * values under one key. */
  lemma {:induction false} CopyAccepted(v: Json, caseSensitive: bool)
    ensures Compare(v, v, caseSensitive) <==> ShadowsEqual(v, caseSensitive)
    decreases Size(v)
  {
    hide SameKey, Find, CompareDouble, MemberFound, Seen;
    match v
    case Number(d) => CloseToItself(d);
    case Array(items) =>
      forall i | 0 <= i < |items|
        ensures Compare(items[i], items[i], caseSensitive) <==> ShadowsEqual(items[i], caseSensitive)
      {
        ChildSmaller(v, i, 0);
        CopyAccepted(items[i], caseSensitive);
      }
    case Object(members) =>
      forall i | 0 <= i < |members|
        ensures Find(members, members[i].key, caseSensitive).Some?
        ensures var f := Find(members, members[i].key, caseSensitive).value;
                MemberFound(v, v, i, caseSensitive)
                <==> if f == i then ShadowsEqual(members[i].value, caseSensitive)
                     else Compare(members[i].value, members[f].value, caseSensitive)
      {
        ChildSmaller(v, i, 0);
        CopyAccepted(members[i].value, caseSensitive);
        FoundInCopy(v, i, caseSensitive);
      }
    case _ =>
  }

  lemma {:induction false} DistinctShadowsNothing(v: Json, caseSensitive: bool)
    requires DistinctKeys(v, caseSensitive)
    ensures ShadowsEqual(v, caseSensitive)
    decreases v
  {
    match v
    case Array(items) =>
      forall i | 0 <= i < |items|
        ensures ShadowsEqual(items[i], caseSensitive)
      {
        DistinctShadowsNothing(items[i], caseSensitive);
      }
    case Object(members) =>
      forall i | 0 <= i < |members|
        ensures Find(members, members[i].key, caseSensitive) == Some(i) && ShadowsEqual(members[i].value, caseSensitive)
      {
        FindsItself(members, i, caseSensitive);
        DistinctShadowsNothing(members[i].value, caseSensitive);
      }
    case _ =>
  }

  /** Distinct keys are enough. */
  lemma DistinctCopyAccepted(v: Json, caseSensitive: bool)
    requires DistinctKeys(v, caseSensitive)
    ensures Compare(v, v, caseSensitive)
  {
    DistinctShadowsNothing(v, caseSensitive);
    CopyAccepted(v, caseSensitive);
  }

  /** Null and true under two keys: the copy is refused exactly if strcmp, or its case-insensitive
    * counterpart, takes them for the same key, as it does with keys that differ only behind a zero
    * byte. */
  lemma RepeatedKeyRefused(a: string, b: string, caseSensitive: bool)
    ensures var v := Object([Member(a, Null), Member(b, True)]); Compare(v, v, caseSensitive) <==> !SameKey(b, a, caseSensitive)
    ensures SameKey("a\0c", "a\0b", caseSensitive)
  {
    hide Seen, SameLower;
    var v := Object([Member(a, Null), Member(b, True)]);
    var ms := v.members;
    CopyAccepted(v, caseSensitive);
    FindsItself(ms, 0, caseSensitive);
    FindsItself(ms, 1, caseSensitive);
    assert ms[0].key == a && ms[1].key == b;
    CutKeys();
    SameKeyReflexive("a", caseSensitive);
  }

  lemma CutKeys()
    ensures Seen("a\0b") == Seen("a\0c") == Seen("a")
  {
    assert "a\0b"[1..] == "\0b" && "a\0c"[1..] == "\0c" && "a"[1..] == "";
    assert Seen("\0b") == Seen("\0c") == Seen("") == "";
  }
}
