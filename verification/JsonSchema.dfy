/** Column types inferred from sampled JSON messages. */
module JsonSchema {
  import opened Base
  import opened Sequences

  const SAMPLE_SIZE := 100
  const DEFAULT_MAX_FIELDS := 64

  datatype FieldType = String | Int64 | Float64 | Boolean | Object | Array

  /** A parsed message value; integers are the ones that fit 64 bits, signed or not. */
  datatype Json = JNull | JBool(b: bool) | JInteger(i: int) | JFloat(f: real) | JString(s: string)
                | JArray(a: seq<Json>) | JObject(m: map<string, Json>)

  /** A raw value is absent here when it is not valid JSON. */
  type Sample = Option<Json>

  datatype Field = Field(name: string, fieldType: FieldType, nullable: bool, count: nat)

  // ---- The widening order ----

  function Widen(a: FieldType, b: FieldType): FieldType {
    if a == b then a
    else if (a == Int64 && b == Float64) || (a == Float64 && b == Int64) then Float64
    else String
  }

  predicate Leq(a: FieldType, b: FieldType) {
    a == b || b == String || (a == Int64 && b == Float64)
  }

  predicate UpperBound(t: FieldType, types: set<FieldType>) {
    forall u :: u in types ==> Leq(u, t)
  }

  /** The least type every one of the given types widens to. */
  ghost predicate IsJoin(t: FieldType, types: set<FieldType>) {
    UpperBound(t, types) && forall u :: UpperBound(u, types) ==> Leq(t, u)
  }

  /** Widening is the join of two types, so it is commutative, associative and idempotent. */
  lemma {:induction false} WidenIsJoin(a: FieldType, b: FieldType, c: FieldType)
    ensures IsJoin(Widen(a, b), {a, b})
    ensures Widen(a, b) == Widen(b, a) && Widen(a, a) == a
    ensures Widen(Widen(a, b), c) == Widen(a, Widen(b, c))
  {
    forall u | UpperBound(u, {a, b}) ensures Leq(Widen(a, b), u) {
      assert Leq(a, u) && Leq(b, u);
    }
  }

  lemma {:induction false} JoinUnique(s: FieldType, t: FieldType, types: set<FieldType>)
    requires IsJoin(s, types) && IsJoin(t, types)
    ensures s == t
  {
    assert Leq(s, t) && Leq(t, s);
  }

  lemma {:induction false} JoinExtend(t: FieldType, types: set<FieldType>, u: FieldType)
    requires IsJoin(t, types)
    ensures IsJoin(Widen(t, u), types + {u})
  {
    forall v | UpperBound(v, types + {u}) ensures Leq(Widen(t, u), v) {
      assert UpperBound(v, types) && Leq(u, v);
    }
    forall v | v in types + {u} ensures Leq(v, Widen(t, u)) {
      if v in types {
        assert Leq(v, t);
      }
    }
  }

  // ---- Scanning the samples ----

  function DetectType(v: Json): FieldType {
    match v
    case JNull => String
    case JBool(_) => Boolean
    case JInteger(_) => Int64
    case JFloat(_) => Float64
    case JString(_) => String
    case JArray(_) => Array
    case JObject(_) => Object
  }

  /** A message counts when it is valid JSON and an object. */
  predicate IsValid(s: Sample) {
    s.Some? && s.value.JObject?
  }

  predicate HasField(s: Sample, name: string) {
    IsValid(s) && name in s.value.m
  }

  /** Type so far and number of occurrences, by field name. */
  type FieldMap = map<string, (FieldType, nat)>

  function Tally(fields: FieldMap, name: string, t: FieldType): FieldMap {
    fields[name := if name in fields then (Widen(fields[name].0, t), fields[name].1 + 1) else (t, 1)]
  }

  /** One object after the given of its entries have been tallied. */
  function TallyEntries(fields: FieldMap, m: map<string, Json>, keys: seq<string>): FieldMap
    requires forall k :: k in keys ==> k in m
  {
    if keys == [] then fields
    else
      var key := keys[|keys| - 1];
      Tally(TallyEntries(fields, m, keys[..|keys| - 1]), key, DetectType(m[key]))
  }

  function Scan(walk: Walk, samples: seq<Sample>): FieldMap
    requires IsWalk(walk)
  {
    if samples == [] then map[]
    else
      var before := Scan(walk, samples[..|samples| - 1]);
      var s := samples[|samples| - 1];
      if IsValid(s) then
        assert forall k :: k in walk(s.value.m.Keys) ==> k in s.value.m.Keys;
        TallyEntries(before, s.value.m, walk(s.value.m.Keys))
      else before
  }

  /** The types a field shows across the samples. */
  function Detected(samples: seq<Sample>, name: string): set<FieldType> {
    set s | s in samples && HasField(s, name) :: DetectType(s.value.m[name])
  }

  predicate Present(samples: seq<Sample>, name: string) {
    exists i :: 0 <= i < |samples| && HasField(samples[i], name)
  }

  function Occurrences(samples: seq<Sample>, name: string): nat {
    CountIf(s => HasField(s, name), samples)
  }

  function ValidSamples(samples: seq<Sample>): nat {
    CountIf(IsValid, samples)
  }

  lemma {:induction false} TallyEntriesEntry(fields: FieldMap, m: map<string, Json>, keys: seq<string>, name: string)
    requires Distinct(keys) && forall k :: k in keys ==> k in m
    ensures var r := TallyEntries(fields, m, keys);
            && (name in r <==> name in fields || name in keys)
            && (name !in keys && name in fields ==> r[name] == fields[name])
            && (name in keys ==> r[name] == Tally(fields, name, DetectType(m[name]))[name])
  {
    hide DetectType, Widen;
    if keys != [] {
      var front, key := keys[..|keys| - 1], keys[|keys| - 1];
      assert keys == front + [key];
      TallyEntriesEntry(fields, m, front, name);
    }
  }

  /** What one entry of the scan must hold: the join of the types seen and their number. */
  ghost predicate EntryMeans(fields: FieldMap, samples: seq<Sample>, name: string) {
    && (name in fields <==> Present(samples, name))
    && (name in fields ==> IsJoin(fields[name].0, Detected(samples, name)) && fields[name].1 == Occurrences(samples, name))
  }

  lemma {:induction false} DetectedSnoc(samples: seq<Sample>, s: Sample, name: string)
    ensures Detected(samples + [s], name) ==
            if HasField(s, name) then Detected(samples, name) + {DetectType(s.value.m[name])} else Detected(samples, name)
    ensures Present(samples + [s], name) <==> Present(samples, name) || HasField(s, name)
    ensures Occurrences(samples + [s], name) == Occurrences(samples, name) + if HasField(s, name) then 1 else 0
  {
    var all := samples + [s];
    assert all[..|all| - 1] == samples;
    assert all[|samples|] == s;
    if i :| 0 <= i < |samples| && HasField(samples[i], name) {
      assert HasField(all[i], name);
    }
    if HasField(s, name) {
      assert HasField(all[|samples|], name);
    }
  }

  lemma {:induction false} AbsentMeansNone(samples: seq<Sample>, name: string)
    requires !Present(samples, name)
    ensures Detected(samples, name) == {}
    ensures Occurrences(samples, name) == 0
  {
    if samples != [] {
      var n := |samples| - 1;
      assert !HasField(samples[n], name);
      AbsentMeansNone(samples[..n], name);
    }
  }

  lemma {:induction false} SingleIsJoin(t: FieldType)
    ensures IsJoin(t, {t})
  {
    forall u | UpperBound(u, {t}) ensures Leq(t, u) {
      assert t in {t};
    }
  }

  /** The scan holds, for every field, the join of its types and the number of samples that have it. */
  lemma {:induction false} ScanMeans(walk: Walk, samples: seq<Sample>, name: string)
    requires IsWalk(walk)
    ensures EntryMeans(Scan(walk, samples), samples, name)
  {
    hide IsJoin, Detected, Occurrences, Present, DetectType, TallyEntries;
    if samples == [] {
      EmptyScan(name);
    } else {
      var n := |samples| - 1;
      var before, s := samples[..n], samples[n];
      ScanMeans(walk, before, name);
      assert before + [s] == samples;
      DetectedSnoc(before, s, name);
      if IsValid(s) {
        TallyEntriesEntry(Scan(walk, before), s.value.m, walk(s.value.m.Keys), name);
        if HasField(s, name) {
          TallyMeans(Scan(walk, before), before, s, name);
        }
      }
    }
  }

  lemma {:induction false} EmptyScan(name: string)
    ensures !Present([], name)
  {
  }

  lemma {:induction false} TallyMeans(fields: FieldMap, before: seq<Sample>, s: Sample, name: string)
    requires EntryMeans(fields, before, name) && HasField(s, name)
    ensures var t := DetectType(s.value.m[name]);
            && IsJoin(Tally(fields, name, t)[name].0, Detected(before, name) + {t})
            && Tally(fields, name, t)[name].1 == Occurrences(before, name) + 1
  {
    hide IsJoin, Detected, Occurrences, DetectType, Widen;
    var t := DetectType(s.value.m[name]);
    if name in fields {
      JoinExtend(fields[name].0, Detected(before, name), t);
    } else {
      AbsentMeansNone(before, name);
      SingleIsJoin(t);
      assert Detected(before, name) + {t} == {t};
    }
  }

  // ---- The field list ----

  predicate LexLess(a: string, b: string) {
    b != [] && (a == [] || a[0] < b[0] || (a[0] == b[0] && LexLess(a[1..], b[1..])))
  }

  /** More frequent fields first, then by name. */
  predicate Before(a: Field, b: Field) {
    a.count > b.count || (a.count == b.count && LexLess(a.name, b.name))
  }

  function MakeField(fields: FieldMap, valid: nat, name: string): Field
    requires name in fields
  {
    Field(name, fields[name].0, fields[name].1 < valid, fields[name].1)
  }

  function FieldList(fields: FieldMap, valid: nat, names: seq<string>): seq<Field>
    requires forall n :: n in names ==> n in fields
  {
    seq(|names|, i requires 0 <= i < |names| => assert names[i] in names; MakeField(fields, valid, names[i]))
  }

  function Limit(maxFields: nat): nat {
    if maxFields == 0 then DEFAULT_MAX_FIELDS else maxFields
  }

  /** `infer`, for any order in which the maps are walked. */
  function Infer(walk: Walk, values: seq<Sample>, maxFields: nat): Option<seq<Field>>
    requires IsWalk(walk)
  {
    var samples := Truncate(values, SAMPLE_SIZE);
    var fields := Scan(walk, samples);
    if ValidSamples(samples) == 0 || fields == map[] then None
    else Some(Truncate(Sorted(walk, fields, ValidSamples(samples)), Limit(maxFields)))
  }

  function Sorted(walk: Walk, fields: FieldMap, valid: nat): seq<Field>
    requires IsWalk(walk)
  {
    assert forall k :: k in walk(fields.Keys) ==> k in fields.Keys;
    SortBy(Before, FieldList(fields, valid, walk(fields.Keys)))
  }

  /** The sampling loops. */
  method InferSchema(walk: Walk, values: seq<Sample>, maxFields: nat) returns (r: Option<seq<Field>>)
    requires IsWalk(walk)
    ensures r == Infer(walk, values, maxFields)
  {
    hide TallyEntries, SortBy, FieldList;
    var samples := Truncate(values, SAMPLE_SIZE);
    var fields: FieldMap := map[];
    var valid := 0;
    for i := 0 to |samples|
      invariant fields == Scan(walk, samples[..i])
      invariant valid == ValidSamples(samples[..i])
    {
      assert samples[..i + 1][..i] == samples[..i];
      if IsValid(samples[i]) {
        valid := valid + 1;
        fields := TallyObject(walk, fields, samples[i].value.m);
      }
    }
    assert samples[..|samples|] == samples;
    if valid == 0 || fields == map[] {
      return None;
    }
    r := Some(Truncate(Sorted(walk, fields, valid), Limit(maxFields)));
  }

  method TallyObject(walk: Walk, fields: FieldMap, m: map<string, Json>) returns (r: FieldMap)
    requires IsWalk(walk)
    ensures (forall k :: k in walk(m.Keys) ==> k in m) && r == TallyEntries(fields, m, walk(m.Keys))
  {
    var keys := walk(m.Keys);
    assert forall k :: k in keys ==> k in m.Keys;
    r := fields;
    for i := 0 to |keys|
      invariant r == TallyEntries(fields, m, keys[..i])
    {
      assert keys[..i + 1][..i] == keys[..i];
      assert keys[i] in keys;
      r := Tally(r, keys[i], DetectType(m[keys[i]]));
    }
    assert keys[..|keys|] == keys;
  }

  // -- the order is strict and total --

  lemma {:induction false} LexOrder(a: string, b: string)
    ensures !(LexLess(a, b) && LexLess(b, a))
    ensures a != b ==> LexLess(a, b) || LexLess(b, a)
  {
    if a != [] && b != [] && a[0] == b[0] {
      LexOrder(a[1..], b[1..]);
      assert a == [a[0]] + a[1..] && b == [b[0]] + b[1..];
    }
  }

  /** The usual order of strings: a proper prefix first, otherwise by the first difference. */
  lemma {:induction false} LexLessMeans(a: string, b: string, n: nat)
    requires n <= |a| && n <= |b| && a[..n] == b[..n]
    ensures n == |a| ==> (LexLess(a, b) <==> |a| < |b|)
    ensures n == |b| ==> !LexLess(a, b)
    ensures n < |a| && n < |b| && a[n] != b[n] ==> (LexLess(a, b) <==> a[n] < b[n])
  {
    if n > 0 {
      assert a[0] == a[..n][0] == b[0];
      assert a[1..][..n - 1] == a[..n][1..] == b[1..][..n - 1];
      LexLessMeans(a[1..], b[1..], n - 1);
    }
  }

  lemma {:induction false} LexTransitive(a: string, b: string, c: string)
    requires LexLess(a, b) && LexLess(b, c)
    ensures LexLess(a, c)
  {
    if a != [] && a[0] == b[0] && b[0] == c[0] {
      LexTransitive(a[1..], b[1..], c[1..]);
    }
  }

  lemma {:induction false} BeforeIsStrict()
    ensures Asymmetric(Before) && TransitiveOrder(Before)
  {
    forall x, y ensures !(Before(x, y) && Before(y, x)) {
      LexOrder(x.name, y.name);
    }
    forall x, y, z | Before(x, y) && Before(y, z) ensures Before(x, z) {
      if x.count == z.count {
        LexTransitive(x.name, y.name, z.name);
      }
    }
  }

  lemma {:induction false} FieldListOrdered(fields: FieldMap, valid: nat, names: seq<string>)
    requires Distinct(names) && forall n :: n in names ==> n in fields
    ensures SortedBy(Before, SortBy(Before, FieldList(fields, valid, names)))
  {
    hide LexLess;
    var list := FieldList(fields, valid, names);
    BeforeIsStrict();
    forall x, y | x in list && y in list && x != y ensures Before(x, y) || Before(y, x) {
      LexOrder(x.name, y.name);
    }
    forall i, j | 0 <= i < j < |list| ensures list[i] != list[j] {
      assert list[i].name == names[i] && list[j].name == names[j];
    }
    SortBySorts(Before, list);
  }

  /** The same fields in another order are the same multiset. */
  lemma {:induction false} FieldListPermutation(fields: FieldMap, valid: nat, a: seq<string>, b: seq<string>)
    requires (forall n :: n in a ==> n in fields) && forall n :: n in b ==> n in fields
    requires multiset(a) == multiset(b)
    ensures multiset(FieldList(fields, valid, a)) == multiset(FieldList(fields, valid, b))
  {
    var f := n => if n in fields then MakeField(fields, valid, n) else Field("", String, false, 0);
    assert FieldList(fields, valid, a) == Map(f, a);
    assert FieldList(fields, valid, b) == Map(f, b);
    MapPermutation(f, a, b);
  }

  lemma {:induction false} WalksAgree(walk: Walk, other: Walk, keys: set<string>)
    requires IsWalk(walk) && IsWalk(other)
    ensures multiset(walk(keys)) == multiset(other(keys))
  {
    DistinctMultiset(walk(keys));
    DistinctMultiset(other(keys));
    forall k ensures multiset(walk(keys))[k] == multiset(other(keys))[k] {
      assert k in walk(keys) <==> k in keys;
      assert k in other(keys) <==> k in keys;
      assert k in multiset(walk(keys)) <==> k in walk(keys);
      assert k in multiset(other(keys)) <==> k in other(keys);
      assert multiset(walk(keys))[k] <= 1 && multiset(other(keys))[k] <= 1;
    }
  }

  lemma {:induction false} SortedAgree(walk: Walk, other: Walk, fields: FieldMap, valid: nat)
    requires IsWalk(walk) && IsWalk(other)
    ensures Sorted(walk, fields, valid) == Sorted(other, fields, valid)
  {
    hide FieldList, SortBy, LexLess, Before;
    var a, b := walk(fields.Keys), other(fields.Keys);
    assert forall k :: k in a ==> k in fields.Keys;
    assert forall k :: k in b ==> k in fields.Keys;
    FieldListOrdered(fields, valid, a);
    FieldListOrdered(fields, valid, b);
    WalksAgree(walk, other, fields.Keys);
    FieldListPermutation(fields, valid, a, b);
    SortByContents(Before, FieldList(fields, valid, a));
    SortByContents(Before, FieldList(fields, valid, b));
    BeforeIsStrict();
    SortedUnique(Before, Sorted(walk, fields, valid), Sorted(other, fields, valid));
  }

  // ---- Order of the samples does not matter ----

  lemma {:induction false} SameElements<A>(a: seq<A>, b: seq<A>, x: A)
    requires multiset(a) == multiset(b)
    ensures x in a <==> x in b
  {
    assert x in a <==> x in multiset(a);
    assert x in b <==> x in multiset(b);
  }

  lemma {:induction false} PresentPermutation(a: seq<Sample>, b: seq<Sample>, name: string)
    requires multiset(a) == multiset(b)
    ensures Present(a, name) ==> Present(b, name)
    ensures Detected(a, name) == Detected(b, name)
  {
    forall s ensures s in a <==> s in b {
      SameElements(a, b, s);
    }
    if Present(a, name) {
      var i :| 0 <= i < |a| && HasField(a[i], name);
      assert a[i] in b;
    }
  }

  lemma {:induction false} ScanPermutation(walk: Walk, other: Walk, a: seq<Sample>, b: seq<Sample>)
    requires IsWalk(walk) && IsWalk(other) && multiset(a) == multiset(b)
    ensures Scan(walk, a) == Scan(other, b)
  {
    hide Scan, Detected, Present, CountIf, IsJoin;
    var f, g := Scan(walk, a), Scan(other, b);
    forall name ensures (name in f <==> name in g) && (name in f && name in g ==> f[name] == g[name]) {
      ScanMeans(walk, a, name);
      ScanMeans(other, b, name);
      PresentPermutation(a, b, name);
      PresentPermutation(b, a, name);
      CountPermutation(s => HasField(s, name), a, b);
      if name in f {
        JoinUnique(f[name].0, g[name].0, Detected(a, name));
      }
    }
    assert f == g;
  }

  /** Up to 100 samples give the same schema in whatever order they come and the maps are walked. */
  lemma {:induction false} InferPermutation(walk: Walk, other: Walk, a: seq<Sample>, b: seq<Sample>, maxFields: nat)
    requires IsWalk(walk) && IsWalk(other) && multiset(a) == multiset(b) && |a| <= SAMPLE_SIZE
    ensures Infer(walk, a, maxFields) == Infer(other, b, maxFields)
  {
    hide Scan, Sorted, CountIf;
    assert |multiset(a)| == |a| && |multiset(b)| == |b|;
    ScanPermutation(walk, other, a, b);
    CountPermutation(IsValid, a, b);
    SortedAgree(walk, other, Scan(walk, a), ValidSamples(a));
  }

  // ---- What the schema says ----

  /** Some value of the field across the samples. */
  predicate ValueOf(samples: seq<Sample>, name: string, v: Json) {
    exists i :: 0 <= i < |samples| && HasField(samples[i], name) && samples[i].value.m[name] == v
  }

  /** What a column type promises of the values: all of one kind, or all numbers and not all integers; anything else is text. */
  ghost predicate TypeMeans(t: FieldType, samples: seq<Sample>, name: string) {
    && (t == Boolean <==> forall v :: ValueOf(samples, name, v) ==> v.JBool?)
    && (t == Array <==> forall v :: ValueOf(samples, name, v) ==> v.JArray?)
    && (t == Object <==> forall v :: ValueOf(samples, name, v) ==> v.JObject?)
    && (t == Int64 <==> forall v :: ValueOf(samples, name, v) ==> v.JInteger?)
    && (t == Float64 <==>
          && (forall v :: ValueOf(samples, name, v) ==> v.JInteger? || v.JFloat?)
          && exists v :: ValueOf(samples, name, v) && v.JFloat?)
  }

  lemma {:induction false} DetectedHas(samples: seq<Sample>, name: string, v: Json)
    requires ValueOf(samples, name, v)
    ensures DetectType(v) in Detected(samples, name)
  {
    var i :| 0 <= i < |samples| && HasField(samples[i], name) && samples[i].value.m[name] == v;
    assert samples[i] in samples;
  }

  lemma {:induction false} DetectedFrom(samples: seq<Sample>, name: string, t: FieldType) returns (v: Json)
    requires t in Detected(samples, name)
    ensures ValueOf(samples, name, v) && DetectType(v) == t
  {
    var s :| s in samples && HasField(s, name) && DetectType(s.value.m[name]) == t;
    var i :| 0 <= i < |samples| && samples[i] == s;
    v := s.value.m[name];
  }

  /** A join other than text is the only type there is, or decimal over integers and at least one decimal. */
  lemma {:induction false} JoinMeans(t: FieldType, types: set<FieldType>)
    requires IsJoin(t, types) && types != {}
    ensures forall u :: u != String && u != Float64 ==> (t == u <==> types == {u})
    ensures t == Float64 <==> types <= {Int64, Float64} && Float64 in types
  {
    var some :| some in types;
    assert Leq(some, t);
    forall u | u != String && u != Float64 ensures t == u <==> types == {u} {
      assert types == {u} ==> UpperBound(u, types);
      if t == u {
        assert forall v :: v in types ==> Leq(v, u) && v == u;
        assert types == {u};
      }
    }
    assert types <= {Int64, Float64} ==> UpperBound(Float64, types);
    assert Float64 in types ==> Leq(Float64, t);
    if t == Float64 {
      assert forall v :: v in types ==> Leq(v, Float64);
      assert Float64 !in types ==> UpperBound(Int64, types);
    }
  }

  lemma {:induction false} AllOfKind(samples: seq<Sample>, name: string, t: FieldType)
    requires Present(samples, name)
    ensures Detected(samples, name) != {}
    ensures Detected(samples, name) == {t} <==> forall v :: ValueOf(samples, name, v) ==> DetectType(v) == t
  {
    hide DetectType;
    var i :| 0 <= i < |samples| && HasField(samples[i], name);
    var some := samples[i].value.m[name];
    assert ValueOf(samples, name, some);
    DetectedHas(samples, name, some);
    if Detected(samples, name) == {t} {
      forall v | ValueOf(samples, name, v) ensures DetectType(v) == t {
        DetectedHas(samples, name, v);
      }
    }
    if forall v :: ValueOf(samples, name, v) ==> DetectType(v) == t {
      forall u | u in Detected(samples, name) ensures u == t {
        var v := DetectedFrom(samples, name, u);
      }
      assert Detected(samples, name) == {t};
    }
  }

  lemma {:induction false} SomeDecimal(samples: seq<Sample>, name: string)
    ensures Float64 in Detected(samples, name) <==> exists v :: ValueOf(samples, name, v) && v.JFloat?
    ensures Detected(samples, name) <= {Int64, Float64} <==> forall v :: ValueOf(samples, name, v) ==> v.JInteger? || v.JFloat?
  {
    hide Detected, ValueOf;
    if Float64 in Detected(samples, name) {
      var v := DetectedFrom(samples, name, Float64);
    }
    if v :| ValueOf(samples, name, v) && v.JFloat? {
      DetectedHas(samples, name, v);
    }
    if Detected(samples, name) <= {Int64, Float64} {
      forall v | ValueOf(samples, name, v) ensures v.JInteger? || v.JFloat? {
        DetectedHas(samples, name, v);
      }
    }
    if forall v :: ValueOf(samples, name, v) ==> v.JInteger? || v.JFloat? {
      forall u | u in Detected(samples, name) ensures u in {Int64, Float64} {
        var v := DetectedFrom(samples, name, u);
      }
    }
  }

  lemma {:induction false} JoinTypeMeans(t: FieldType, samples: seq<Sample>, name: string)
    requires Present(samples, name) && IsJoin(t, Detected(samples, name))
    ensures TypeMeans(t, samples, name)
  {
    hide Detected, ValueOf, IsJoin, Present;
    AllOfKind(samples, name, Boolean);
    AllOfKind(samples, name, Array);
    AllOfKind(samples, name, Object);
    AllOfKind(samples, name, Int64);
    SomeDecimal(samples, name);
    JoinMeans(t, Detected(samples, name));
  }

  /** The field describes the samples: its type joins the types seen, and it is nullable iff a valid sample lacks it. */
  ghost predicate Describes(f: Field, samples: seq<Sample>) {
    && Present(samples, f.name)
    && IsJoin(f.fieldType, Detected(samples, f.name)) && TypeMeans(f.fieldType, samples, f.name)
    && f.count == CountIf((s: Sample) => HasField(s, f.name), samples)
    && (f.nullable <==> exists i :: 0 <= i < |samples| && IsValid(samples[i]) && !HasField(samples[i], f.name))
  }

  lemma {:induction false} MadeFieldDescribes(walk: Walk, samples: seq<Sample>, name: string)
    requires IsWalk(walk) && name in Scan(walk, samples)
    ensures Describes(MakeField(Scan(walk, samples), ValidSamples(samples), name), samples)
  {
    hide Scan, CountIf, IsJoin, Detected, TypeMeans;
    ScanMeans(walk, samples, name);
    JoinTypeMeans(Scan(walk, samples)[name].0, samples, name);
    CountStrict(s => HasField(s, name), IsValid, samples);
  }

  lemma {:induction false} SortedHas(walk: Walk, fields: FieldMap, valid: nat, f: Field)
    requires IsWalk(walk)
    ensures f in Sorted(walk, fields, valid) <==> f.name in fields && f == MakeField(fields, valid, f.name)
  {
    hide SortBy;
    var names := walk(fields.Keys);
    assert forall k :: k in names <==> k in fields.Keys;
    var list := FieldList(fields, valid, names);
    SortByContents(Before, list);
    SameElements(SortBy(Before, list), list, f);
    if f.name in fields && f == MakeField(fields, valid, f.name) {
      var i :| 0 <= i < |names| && names[i] == f.name;
      assert list[i] == f;
    }
  }

  /** The first field occurs in more samples, or in as many and its name is smaller. */
  predicate Ranked(list: seq<Field>) {
    forall i, j :: 0 <= i < j < |list| ==>
      list[i].count > list[j].count || (list[i].count == list[j].count && LexLess(list[i].name, list[j].name))
  }

  lemma {:induction false} SortedIsRanked(list: seq<Field>)
    requires SortedBy(Before, list)
    ensures Ranked(list)
  {
    hide LexLess;
  }

  /**
   At most 100 messages are looked at, and at most the given number of fields listed, or 64. Every listed
   field describes the samples, the list is ranked, and nothing left off comes before it.
   */
  lemma {:induction false} InferDescribes(walk: Walk, values: seq<Sample>, maxFields: nat)
    requires IsWalk(walk)
    ensures var samples, limit := if |values| > 100 then values[..100] else values, if maxFields == 0 then 64 else maxFields;
            match Infer(walk, values, maxFields)
            case None => forall name :: !Present(samples, name)
            case Some(list) =>
              && list != [] && Ranked(list) && |list| <= limit
              && (forall f :: f in list ==> Describes(f, samples))
              && (forall f :: Describes(f, samples) ==> f in list || (|list| == limit && forall g :: g in list ==> Ranked([g, f])))
  {
    hide LexLess;
    InferMeans(walk, values, maxFields);
    var samples := Truncate(values, SAMPLE_SIZE);
    if Infer(walk, values, maxFields).Some? {
      var list := Infer(walk, values, maxFields).value;
      SortedIsRanked(list);
      forall f, g | Describes(f, samples) && f !in list && g in list ensures Ranked([g, f]) {
        assert Before(g, f);
      }
    }
  }

  lemma {:induction false} InferMeans(walk: Walk, values: seq<Sample>, maxFields: nat)
    requires IsWalk(walk)
    ensures var samples := Truncate(values, SAMPLE_SIZE);
            match Infer(walk, values, maxFields)
            case None => forall name :: !Present(samples, name)
            case Some(list) =>
              && list != [] && SortedBy(Before, list) && |list| <= Limit(maxFields)
              && (forall f :: f in list ==> Describes(f, samples))
              && (forall f :: Describes(f, samples) ==> f in list || (|list| == Limit(maxFields) && forall g :: g in list ==> Before(g, f)))
  {
    hide Describes, SortBy, FieldList, Scan, Before, IsJoin, Detected;
    var samples := Truncate(values, SAMPLE_SIZE);
    var fields, valid := Scan(walk, samples), ValidSamples(samples);
    forall name ensures name in fields <==> Present(samples, name) {
      ScanMeans(walk, samples, name);
    }
    if fields == map[] {
      assert forall name :: name !in fields;
    } else {
      var name: string := Pick(fields.Keys);
      assert name in fields;
      SomeValid(samples, name);
      var all := Sorted(walk, fields, valid);
      assert forall k :: k in walk(fields.Keys) ==> k in fields.Keys;
      FieldListOrdered(fields, valid, walk(fields.Keys));
      SortedHas(walk, fields, valid, MakeField(fields, valid, name));
      var list := Truncate(all, Limit(maxFields));
      assert Infer(walk, values, maxFields) == Some(list);
      assert all != [];
      forall f ensures f in all <==> Describes(f, samples) {
        AllDescribe(walk, samples, f);
      }
      forall f | Describes(f, samples) && f !in list
        ensures |list| == Limit(maxFields) && forall g :: g in list ==> Before(g, f)
      {
        TruncatedRest(all, Limit(maxFields), f);
      }
    }
  }

  lemma {:induction false} TruncatedRest(all: seq<Field>, n: nat, f: Field)
    requires SortedBy(Before, all) && f in all && f !in Truncate(all, n)
    ensures |Truncate(all, n)| == n && forall g :: g in Truncate(all, n) ==> Before(g, f)
  {
    hide Before;
    var j :| 0 <= j < |all| && all[j] == f;
  }

  lemma {:induction false} SomeValid(samples: seq<Sample>, name: string)
    requires Present(samples, name)
    ensures ValidSamples(samples) > 0
  {
    hide CountIf;
    CountStrict(s => false, IsValid, samples);
    var i :| 0 <= i < |samples| && HasField(samples[i], name);
    assert IsValid(samples[i]) && !(s => false)(samples[i]);
  }

  lemma {:induction false} AllDescribe(walk: Walk, samples: seq<Sample>, f: Field)
    requires IsWalk(walk)
    ensures f in Sorted(walk, Scan(walk, samples), ValidSamples(samples)) <==> Describes(f, samples)
  {
    hide Sorted, Scan, CountIf, IsJoin, Detected, TypeMeans;
    var fields, valid := Scan(walk, samples), ValidSamples(samples);
    SortedHas(walk, fields, valid, f);
    ScanMeans(walk, samples, f.name);
    if f.name in fields {
      MadeFieldDescribes(walk, samples, f.name);
      if Describes(f, samples) {
        JoinUnique(f.fieldType, fields[f.name].0, Detected(samples, f.name));
      }
    }
  }
}
