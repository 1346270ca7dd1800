/** The configuration manager: layered loading, runtime updates and the lookup cache. */
module ConfigManager {
  import opened Base
  import opened Sequences
  import opened Text
  import opened ConfigValues

  datatype ConfigError = TypeMismatch | Invalid

  /** The current configuration and the values remembered by path. */
  datatype State = State(config: ConfigValue, cache: map<string, ConfigValue>)

  /** Every validator accepts; validators are a predicate here. */
  type Validator = ConfigValue -> bool

  // ---- Steps ----

  /** `get`: the cache first, then the configuration, remembering what was found. */
  function Get(s: State, path: string): (State, Option<ConfigValue>) {
    if path in s.cache then (s, Some(s.cache[path]))
    else match Lookup(s.config, Segments(path))
      case Some(v) => (s.(cache := s.cache[path := v]), Some(v))
      case None => (s, None)
  }

  /** The first parents of a path, shortest first. */
  function Parents(parts: Path, n: nat): set<string>
    requires 1 <= n <= |parts|
  {
    set i | 1 <= i < n :: Dotted(parts[..i])
  }

  lemma {:induction false} ParentsStart(parts: Path)
    requires parts != []
    ensures Parents(parts, 1) == {}
  {
  }

  lemma {:induction false} ParentsStep(parts: Path, n: nat)
    requires 1 <= n < |parts|
    ensures Parents(parts, n + 1) == Parents(parts, n) + {Dotted(parts[..n])}
  {
  }

  /** The path itself and each of its proper parents. */
  function Stale(path: string): set<string> {
    {path} + Parents(Segments(path), |Segments(path)|)
  }

  /** `set`: an error leaves everything as it was. */
  function Set(s: State, path: string, value: ConfigValue, valid: Validator): (State, Result<(), ConfigError>) {
    if !s.config.Object? then (s, Err(TypeMismatch))
    else
      var config := Object(SetNested(s.config.m, Segments(path), value));
      if valid(config) then (State(config, s.cache - Stale(path)), Ok(())) else (s, Err(Invalid))
  }

  /** The providers' configurations merged in order; a failed provider is passed over. */
  function MergeAll(provided: seq<Option<ConfigValue>>): ConfigValue {
    if provided == [] then Object(map[])
    else
      var before := MergeAll(provided[..|provided| - 1]);
      match provided[|provided| - 1]
      case Some(config) => Merge(before, config)
      case None => before
  }

  function Load(s: State, provided: seq<Option<ConfigValue>>, valid: Validator): (State, Result<(), ConfigError>) {
    var config := MergeAll(provided);
    if valid(config) then (State(config, map[]), Ok(())) else (s, Err(Invalid))
  }

  // ---- The manager object ----

  class Manager {
    var config: ConfigValue
    var cache: map<string, ConfigValue>

    function View(): State
      reads this
    {
      State(config, cache)
    }

    constructor ()
      ensures View() == State(Object(map[]), map[])
    {
      config := Object(map[]);
      cache := map[];
    }

    method GetValue(path: string) returns (r: Option<ConfigValue>)
      modifies this
      ensures (View(), r) == Get(old(View()), path)
    {
      if path in cache {
        return Some(cache[path]);
      }
      r := GetPath(config, path);
      if r.Some? {
        cache := cache[path := r.value];
      }
    }

    method InvalidateCache(path: string)
      modifies `cache
      ensures cache == old(cache) - Stale(path)
    {
      hide Parents, Segments, Dotted;
      var parts := Segments(path);
      assert Parents(parts, 1) == {} by { ParentsStart(parts); }
      cache := cache - {path};
      for i := 1 to |parts|
        invariant cache == old(cache) - {path} - Parents(parts, i)
      {
        ParentsStep(parts, i);
        cache := cache - {Dotted(parts[..i])};
      }
    }

    method SetValue(path: string, value: ConfigValue, valid: Validator) returns (r: Result<(), ConfigError>)
      modifies this
      ensures (View(), r) == Set(old(View()), path, value, valid)
    {
      if !config.Object? {
        return Err(TypeMismatch);
      }
      var updated := Object(SetNested(config.m, Segments(path), value));
      if !valid(updated) {
        return Err(Invalid);
      }
      config := updated;
      InvalidateCache(path);
      r := Ok(());
    }

    method LoadAll(walk: Walk, provided: seq<Option<ConfigValue>>, valid: Validator) returns (r: Result<(), ConfigError>)
      requires IsWalk(walk)
      modifies this
      ensures (View(), r) == Load(old(View()), provided, valid)
    {
      var merged := Object(map[]);
      for i := 0 to |provided|
        invariant merged == MergeAll(provided[..i])
        invariant View() == old(View())
      {
        assert provided[..i + 1][..i] == provided[..i];
        if provided[i].Some? {
          merged := MergeConfigs(walk, merged, provided[i].value);
        }
      }
      assert provided[..|provided|] == provided;
      if !valid(merged) {
        return Err(Invalid);
      }
      config := merged;
      cache := map[];
      r := Ok(());
    }
  }

  // ---- Cache coherence ----

  predicate Agrees(s: State, path: string) {
    path in s.cache ==> Lookup(s.config, Segments(path)) == Some(s.cache[path])
  }

  /** Every remembered value is the one the current configuration holds. */
  ghost predicate Coherent(s: State) {
    forall path :: Agrees(s, path)
  }

  /** The second path lies strictly below the first. */
  predicate Below(path: string, q: string) {
    Segments(path) < Segments(q)
  }

  /** From a coherent state a read answers with the current configuration. */
  lemma {:induction false} GetIsCurrent(s: State, path: string)
    requires Coherent(s)
    ensures Get(s, path).1 == Lookup(s.config, Segments(path))
    ensures Coherent(Get(s, path).0) && Get(s, path).0.config == s.config
  {
    assert Agrees(s, path);
    forall q ensures Agrees(Get(s, path).0, q) {
      assert Agrees(s, q);
    }
  }

  /** What is forgotten is exactly the path and the paths above it. */
  lemma {:induction false} StaleIsAbove(path: string, q: string)
    ensures q in Stale(path) <==> Segments(q) <= Segments(path)
  {
    var parts := Segments(path);
    JoinSplit(path, '.');
    JoinSplit(q, '.');
    if Segments(q) <= parts {
      var i := |Segments(q)|;
      assert parts[..i] == Segments(q);
      if i == |parts| {
        assert Segments(q) == parts;
      }
    } else if q in Stale(path) {
      var i :| 1 <= i < |parts| && q == Dotted(parts[..i]);
      SplitJoin(parts[..i], '.');
    }
  }

  /** After a successful update an entry survives unless it is at or above the path, and agrees unless it is below. */
  lemma {:induction false} SetEntry(s: State, path: string, value: ConfigValue, valid: Validator, q: string)
    requires Set(s, path, value, valid).1.Ok?
    ensures var t := Set(s, path, value, valid).0;
            && (q in t.cache <==> q in s.cache && !(Segments(q) <= Segments(path)))
            && (q in t.cache ==> t.cache[q] == s.cache[q])
            && (Below(path, q) ==> Lookup(t.config, Segments(q)) == Lookup(value, Segments(q)[|Segments(path)|..]))
            && (!Comparable(Segments(path), Segments(q)) ==> Lookup(t.config, Segments(q)) == Lookup(s.config, Segments(q)))
  {
    hide SetNested, Segments, Dotted, Lookup, Stale;
    StaleIsAbove(path, q);
    var p, parts := Segments(path), Segments(q);
    if p < parts {
      GetAfterSet(s.config.m, p, value, parts[|p|..]);
      assert p + parts[|p|..] == parts;
    } else if !Comparable(p, parts) {
      SetFrame(s.config.m, p, value, parts);
    }
  }

  /** The cached entries below the updated path hold what the new value holds there. */
  ghost predicate EntriesBelowMatch(s: State, path: string, value: ConfigValue) {
    forall q :: q in s.cache && Below(path, q) ==> Lookup(value, Segments(q)[|Segments(path)|..]) == Some(s.cache[q])
  }

  /** One update of a coherent state: an entry can only go wrong below the updated path. */
  lemma {:induction false} OnlyEntriesBelowGoStale(s: State, path: string, value: ConfigValue, valid: Validator, q: string)
    requires Coherent(s) && !Agrees(Set(s, path, value, valid).0, q)
    ensures Below(path, q) && q in s.cache && Lookup(value, Segments(q)[|Segments(path)|..]) != Some(s.cache[q])
  {
    hide SetNested, Segments, Dotted, Lookup, Stale;
    assert Agrees(s, q);
    SetEntry(s, path, value, valid, q);
  }

  /** Coherence survives an update exactly when the cached entries below the path match the new value. */
  lemma {:induction false} SetKeepsCoherenceIff(s: State, path: string, value: ConfigValue, valid: Validator)
    requires Coherent(s) && Set(s, path, value, valid).1.Ok?
    ensures Coherent(Set(s, path, value, valid).0) <==> EntriesBelowMatch(s, path, value)
  {
    hide SetNested, Segments, Dotted, Lookup, Stale, Set;
    var t := Set(s, path, value, valid).0;
    if Coherent(t) {
      forall q | q in s.cache && Below(path, q)
        ensures Lookup(value, Segments(q)[|Segments(path)|..]) == Some(s.cache[q])
      {
        SetEntry(s, path, value, valid, q);
        assert Agrees(t, q);
      }
    }
    if EntriesBelowMatch(s, path, value) {
      forall q ensures Agrees(t, q) {
        if !Agrees(t, q) {
          OnlyEntriesBelowGoStale(s, path, value, valid, q);
        }
      }
    }
  }

  // ---- Whole runs ----

  datatype Op =
    | GetOp(path: string)
    | SetOp(path: string, value: ConfigValue, valid: Validator)
    | LoadOp(provided: seq<Option<ConfigValue>>, valid: Validator)

  function Apply(s: State, op: Op): State {
    match op
    case GetOp(path) => Get(s, path).0
    case SetOp(path, value, valid) => Set(s, path, value, valid).0
    case LoadOp(provided, valid) => Load(s, provided, valid).0
  }

  function Run(s: State, ops: seq<Op>): State {
    if ops == [] then s else Apply(Run(s, ops[..|ops| - 1]), ops[|ops| - 1])
  }

  /** The operation overwrites nothing that is remembered with another value further down. */
  ghost predicate Harmless(s: State, op: Op) {
    op.SetOp? && Set(s, op.path, op.value, op.valid).1.Ok? ==> EntriesBelowMatch(s, op.path, op.value)
  }

  ghost predicate AllHarmless(s: State, ops: seq<Op>) {
    forall i :: 0 <= i < |ops| ==> Harmless(Run(s, ops[..i]), ops[i])
  }

  lemma {:induction false} ApplyCoherentIff(s: State, op: Op)
    requires Coherent(s)
    ensures Coherent(Apply(s, op)) <==> Harmless(s, op)
  {
    hide SetNested, Segments, Dotted, Lookup, Stale, Set, Coherent, MergeAll, EntriesBelowMatch;
    match op
    case GetOp(path) => GetIsCurrent(s, path);
    case SetOp(path, value, valid) =>
      if Set(s, path, value, valid).1.Ok? {
        SetKeepsCoherenceIff(s, path, value, valid);
      } else {
        SetErrorKeepsState(s, path, value, valid);
      }
    case LoadOp(provided, valid) => LoadIsCoherent(s, provided, valid);
  }

  lemma {:induction false} SetErrorKeepsState(s: State, path: string, value: ConfigValue, valid: Validator)
    ensures Set(s, path, value, valid).1.Err? ==> Set(s, path, value, valid).0 == s
  {
  }

  lemma {:induction false} LoadIsCoherent(s: State, provided: seq<Option<ConfigValue>>, valid: Validator)
    requires Coherent(s)
    ensures Coherent(Load(s, provided, valid).0)
  {
    hide MergeAll;
    forall q ensures Agrees(Load(s, provided, valid).0, q) {
      assert Agrees(s, q);
    }
  }

  /** The cache is coherent after every step of a run exactly when every update in it is harmless. */
  lemma {:induction false} RunCoherentIff(s: State, ops: seq<Op>)
    requires Coherent(s)
    ensures (forall i :: 0 <= i <= |ops| ==> Coherent(Run(s, ops[..i]))) <==> AllHarmless(s, ops)
  {
    hide Coherent, Harmless, Apply;
    if AllHarmless(s, ops) {
      forall i | 0 <= i <= |ops| ensures Coherent(Run(s, ops[..i])) {
        HarmlessRunIsCoherent(s, ops, i);
      }
    }
    if forall i :: 0 <= i <= |ops| ==> Coherent(Run(s, ops[..i])) {
      forall i | 0 <= i < |ops| ensures Harmless(Run(s, ops[..i]), ops[i]) {
        RunStep(s, ops, i);
        assert Coherent(Run(s, ops[..i])) && Coherent(Run(s, ops[..i + 1]));
        ApplyCoherentIff(Run(s, ops[..i]), ops[i]);
      }
    }
  }

  lemma {:induction false} RunStep(s: State, ops: seq<Op>, i: nat)
    requires i < |ops|
    ensures Run(s, ops[..i + 1]) == Apply(Run(s, ops[..i]), ops[i])
  {
    assert ops[..i + 1][..i] == ops[..i];
  }

  lemma {:induction false} HarmlessRunIsCoherent(s: State, ops: seq<Op>, n: nat)
    requires Coherent(s) && AllHarmless(s, ops) && n <= |ops|
    ensures Coherent(Run(s, ops[..n]))
  {
    hide Coherent, Harmless, Apply;
    if n > 0 {
      HarmlessRunIsCoherent(s, ops, n - 1);
      RunStep(s, ops, n - 1);
      ApplyCoherentIff(Run(s, ops[..n - 1]), ops[n - 1]);
    } else {
      assert Run(s, ops[..0]) == s;
    }
  }

  // ---- Validation ----

  /** An update goes through exactly if the configuration is an object and the updated one passes; otherwise nothing changes. */
  lemma {:induction false} SetSucceedsIff(s: State, path: string, value: ConfigValue, valid: Validator)
    ensures Set(s, path, value, valid).1.Ok? <==>
            s.config.Object? && valid(Object(SetNested(s.config.m, Segments(path), value)))
    ensures !s.config.Object? ==> Set(s, path, value, valid) == (s, Err(TypeMismatch))
    ensures s.config.Object? && Set(s, path, value, valid).1.Err? ==> Set(s, path, value, valid) == (s, Err(Invalid))
    ensures Set(s, path, value, valid).1.Ok? ==>
              && valid(Set(s, path, value, valid).0.config)
              && Lookup(Set(s, path, value, valid).0.config, Segments(path)) == Some(value)
  {
    hide Lookup, SetNested, Segments, Stale;
    if s.config.Object? {
      var parts := Segments(path);
      GetAfterSet(s.config.m, parts, value, []);
      assert parts + [] == parts;
      assert Lookup(value, []) == Some(value) by { LookupHere(value); }
    }
  }

  lemma {:induction false} LookupHere(v: ConfigValue)
    ensures Lookup(v, []) == Some(v)
  {
  }

  ghost predicate Validates(op: Op, valid: Validator) {
    match op
    case GetOp(_) => true
    case SetOp(_, _, v) => v == valid
    case LoadOp(_, v) => v == valid
  }

  /** Where every update and every load is checked by the same validators, the configuration always passes them. */
  lemma {:induction false} RunStaysValid(s: State, ops: seq<Op>, valid: Validator)
    requires valid(s.config) && forall i :: 0 <= i < |ops| ==> Validates(ops[i], valid)
    ensures valid(Run(s, ops).config)
  {
    hide SetNested, Segments, Stale, MergeAll, Lookup;
    if ops != [] {
      RunStaysValid(s, ops[..|ops| - 1], valid);
      assert Validates(ops[|ops| - 1], valid);
    }
  }

  /** Reading a child, overwriting its parent and reading the child again answers with the old child. */
  lemma {:induction false} StaleRead(valid: Validator)
    requires forall c :: valid(c)
    ensures var s := State(Object(map["a" := Object(map["b" := Integer(1)])]), map[]);
            var t := Run(s, [GetOp("a.b"), SetOp("a", Integer(2), valid)]);
            && Get(t, "a.b").1 == Some(Integer(1))
            && Lookup(t.config, Segments("a.b")) == None
  {
    hide Segments, Dotted, Parents;
    var s := State(Object(map["a" := Object(map["b" := Integer(1)])]), map[]);
    var ops := [GetOp("a.b"), SetOp("a", Integer(2), valid)];
    SplitExample();
    assert ["a", "b"][1..] == ["b"] && ["b"][1..] == [];
    assert Lookup(s.config, ["a", "b"]) == Some(Integer(1));
    RunStep(s, ops, 0);
    RunStep(s, ops, 1);
    assert ops[..2] == ops && ops[..0] == [];
    SetEntry(Get(s, "a.b").0, "a", Integer(2), valid, "a.b");
  }

  lemma {:induction false} SplitExample()
    ensures Segments("a") == ["a"] && Segments("a.b") == ["a", "b"]
  {
    SplitSegment("a", '.', "b");
    SplitSegment("b", '.', "");
    assert "a" + ['.'] + "b" == "a.b";
  }

  // ---- Loading ----

  /** The last provider that says anything about a path, with nothing on the way to it, decides. */
  lemma {:induction false} LastProviderWins(provided: seq<Option<ConfigValue>>, k: nat, path: Path)
    requires k < |provided| && provided[k].Some? && Lookup(provided[k].value, path).Some?
    requires !Lookup(provided[k].value, path).value.Object?
    requires forall j :: k < j < |provided| && provided[j].Some? ==>
               Lookup(provided[j].value, path).None? && !Blocked(provided[j].value, path)
    ensures Lookup(MergeAll(provided), path) == Lookup(provided[k].value, path)
  {
    var n := |provided| - 1;
    if provided[n].Some? {
      MergeLookup(MergeAll(provided[..n]), provided[n].value, path);
    }
    if k < n {
      LastProviderWins(provided[..n], k, path);
    }
  }
}
