/** Nested configuration values: dotted paths, lookup, update, merge and difference. */
module ConfigValues {
  import opened Base
  import opened Sequences
  import opened Text

  datatype ConfigValue =
    | Null
    | Bool(b: bool)
    | Integer(i: int)
    | Float(f: real)
    | Str(s: string)
    | Array(a: seq<ConfigValue>)
    | Object(m: map<string, ConfigValue>)

  type Path = seq<string>

  // ---- Dotted paths ----

  function Segments(path: string): (r: Path)
    ensures r != []
  {
    Split(path, '.')
  }

  function Dotted(path: Path): string {
    Join(path, '.')
  }

  // ---- Lookup and update ----

  function Lookup(v: ConfigValue, path: Path): Option<ConfigValue> {
    if path == [] then Some(v)
    else if v.Object? && path[0] in v.m then Lookup(v.m[path[0]], path[1..])
    else None
  }

  /** `get_path`, which walks down segment by segment. */
  method GetPath(v: ConfigValue, path: string) returns (r: Option<ConfigValue>)
    ensures r == Lookup(v, Segments(path))
  {
    var parts := Segments(path);
    var current := v;
    for i := 0 to |parts|
      invariant Lookup(v, parts) == Lookup(current, parts[i..])
    {
      assert parts[i..][1..] == parts[i + 1..];
      match current {
        case Object(m) =>
          if parts[i] !in m {
            return None;
          }
          current := m[parts[i]];
        case _ => return None;
      }
    }
    assert parts[|parts|..] == [];
    r := Some(current);
  }

  /** `set_nested_value` for a non-empty path: anything on the way that is not an object is replaced by one. */
  function SetNested(m: map<string, ConfigValue>, path: Path, value: ConfigValue): map<string, ConfigValue>
    requires path != []
    decreases |path|
  {
    if |path| == 1 then m[path[0] := value]
    else
      var inner := if path[0] in m && m[path[0]].Object? then m[path[0]].m else map[];
      m[path[0] := Object(SetNested(inner, path[1..], value))]
  }

  lemma {:induction false} LookupAppend(v: ConfigValue, p: Path, r: Path)
    ensures Lookup(v, p + r) == if Lookup(v, p).Some? then Lookup(Lookup(v, p).value, r) else None
  {
    if p == [] {
      assert p + r == r;
    } else if v.Object? && p[0] in v.m {
      assert (p + r)[1..] == p[1..] + r;
      LookupAppend(v.m[p[0]], p[1..], r);
    }
  }

  /** Reading at or below the path just set reads from the value just set. */
  lemma {:induction false} GetAfterSet(m: map<string, ConfigValue>, path: Path, value: ConfigValue, rest: Path)
    requires path != []
    ensures Lookup(Object(SetNested(m, path, value)), path + rest) == Lookup(value, rest)
    decreases |path|
  {
    assert (path + rest)[1..] == path[1..] + rest;
    if |path| == 1 {
      assert path[1..] + rest == rest;
    } else {
      var inner := if path[0] in m && m[path[0]].Object? then m[path[0]].m else map[];
      GetAfterSet(inner, path[1..], value, rest);
    }
  }

  predicate Comparable(p: Path, q: Path) {
    p <= q || q <= p
  }

  /** Setting a path changes nothing at paths that lead elsewhere, even where it replaces a value on the way. */
  lemma {:induction false} SetFrame(m: map<string, ConfigValue>, path: Path, value: ConfigValue, q: Path)
    requires path != [] && !Comparable(path, q)
    ensures Lookup(Object(SetNested(m, path, value)), q) == Lookup(Object(m), q)
    decreases |path|
  {
    assert q != [];
    if q[0] == path[0] {
      assert |path| > 1;
      var inner := if path[0] in m && m[path[0]].Object? then m[path[0]].m else map[];
      assert !Comparable(path[1..], q[1..]) by {
        assert path == [path[0]] + path[1..] && q == [q[0]] + q[1..];
      }
      SetFrame(inner, path[1..], value, q[1..]);
      assert q[1..] != [];
    }
  }

  // ---- Merge ----

  /** `merge_configs`: objects merge key by key, anything else is overridden. */
  function Merge(base: ConfigValue, overlay: ConfigValue): ConfigValue
    decreases overlay
  {
    if base.Object? && overlay.Object? then
      Object(map k | k in base.m.Keys + overlay.m.Keys ::
        if k in overlay.m then (if k in base.m then Merge(base.m[k], overlay.m[k]) else overlay.m[k]) else base.m[k])
    else overlay
  }

  /** The base after the given overlay entries have been merged in, in that order. */
  function MergeOver(base: map<string, ConfigValue>, overlay: map<string, ConfigValue>, keys: seq<string>): map<string, ConfigValue>
    requires forall k :: k in keys ==> k in overlay
  {
    if keys == [] then base
    else
      var m := MergeOver(base, overlay, keys[..|keys| - 1]);
      var key := keys[|keys| - 1];
      m[key := if key in m then Merge(m[key], overlay[key]) else overlay[key]]
  }

  lemma {:induction false} MergeOverEntry(base: map<string, ConfigValue>, overlay: map<string, ConfigValue>, keys: seq<string>, k: string)
    requires Distinct(keys) && forall k :: k in keys ==> k in overlay
    ensures k in MergeOver(base, overlay, keys) <==> k in base || k in keys
    ensures k !in keys && k in base ==> MergeOver(base, overlay, keys)[k] == base[k]
    ensures k in keys ==>
              MergeOver(base, overlay, keys)[k] == if k in base then Merge(base[k], overlay[k]) else overlay[k]
  {
    hide Merge;
    if keys != [] {
      var front, key := keys[..|keys| - 1], keys[|keys| - 1];
      assert keys == front + [key];
      MergeOverEntry(base, overlay, front, k);
    }
  }

  lemma {:induction false} MergeOverAll(base: ConfigValue, overlay: ConfigValue, keys: seq<string>)
    requires base.Object? && overlay.Object?
    requires Distinct(keys) && forall k :: k in keys <==> k in overlay.m
    ensures Object(MergeOver(base.m, overlay.m, keys)) == Merge(base, overlay)
  {
    hide MergeOver;
    forall k ensures k in MergeOver(base.m, overlay.m, keys) <==> k in Merge(base, overlay).m
             ensures k in Merge(base, overlay).m && k in MergeOver(base.m, overlay.m, keys) ==>
                     MergeOver(base.m, overlay.m, keys)[k] == Merge(base, overlay).m[k]
    {
      MergeOverEntry(base.m, overlay.m, keys, k);
    }
    assert MergeOver(base.m, overlay.m, keys) == Merge(base, overlay).m;
  }

  /** The merge loop, entry by entry of the overlay. */
  method MergeConfigs(walk: Walk, base: ConfigValue, overlay: ConfigValue) returns (merged: ConfigValue)
    requires IsWalk(walk)
    ensures merged == Merge(base, overlay)
    decreases overlay
  {
    if base.Object? && overlay.Object? {
      hide Merge;
      var m := base.m;
      var keys := walk(overlay.m.Keys);
      for i := 0 to |keys|
        invariant m == MergeOver(base.m, overlay.m, keys[..i])
      {
        assert keys[..i + 1][..i] == keys[..i];
        var key := keys[i];
        assert key in keys;
        if key in m {
          var value := MergeConfigs(walk, m[key], overlay.m[key]);
          m := m[key := value];
        } else {
          m := m[key := overlay.m[key]];
        }
      }
      assert keys[..|keys|] == keys;
      MergeOverAll(base, overlay, keys);
      merged := Object(m);
    } else {
      merged := overlay;
    }
  }

  /** The overlay has a value on the way to the path that is not an object. */
  predicate Blocked(v: ConfigValue, path: Path) {
    if path == [] then false
    else !v.Object? || (path[0] in v.m && Blocked(v.m[path[0]], path[1..]))
  }

  /** The overlay wins wherever it says anything; elsewhere the base shows through. */
  lemma {:induction false} MergeLookup(base: ConfigValue, overlay: ConfigValue, path: Path)
    ensures Lookup(overlay, path).Some? ==>
              Lookup(Merge(base, overlay), path) ==
                Some(if Lookup(base, path).Some? then Merge(Lookup(base, path).value, Lookup(overlay, path).value)
                     else Lookup(overlay, path).value)
    ensures Lookup(overlay, path).None? && !Blocked(overlay, path) ==> Lookup(Merge(base, overlay), path) == Lookup(base, path)
    ensures Blocked(overlay, path) ==> Lookup(Merge(base, overlay), path) == None
    decreases |path|
  {
    if path != [] && base.Object? && overlay.Object? && path[0] in overlay.m && path[0] in base.m {
      MergeLookup(base.m[path[0]], overlay.m[path[0]], path[1..]);
    } else if path != [] && overlay.Object? && path[0] in overlay.m {
      BlockedIsNone(overlay.m[path[0]], path[1..]);
    }
  }

  lemma {:induction false} BlockedIsNone(v: ConfigValue, path: Path)
    ensures Blocked(v, path) ==> Lookup(v, path) == None
  {
    if path != [] && v.Object? && path[0] in v.m {
      BlockedIsNone(v.m[path[0]], path[1..]);
    }
  }
}
