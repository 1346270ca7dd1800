/** What subscribers are told when a configuration changes. */
module ConfigChanges {
  import opened Base
  import opened Sequences
  import opened Text
  import opened ConfigValues

  datatype Change = Change(path: Path, was: Option<ConfigValue>, now: ConfigValue)

  /** `find_changes`, relative to a prefix. */
  function FindChanges(walk: Walk, was: ConfigValue, now: ConfigValue, prefix: Path): seq<Change>
    decreases now, 2, 0
  {
    if was.Object? && now.Object? then
      Present(walk, was, now, walk(now.m.Keys), prefix) + Removed(was, now, walk(was.m.Keys), prefix)
    else if was != now then [Change(prefix, Some(was), now)]
    else []
  }

  /** New and modified keys; a modified key is reported itself and then searched. */
  function Present(walk: Walk, was: ConfigValue, now: ConfigValue, keys: seq<string>, prefix: Path): seq<Change>
    requires was.Object? && now.Object?
    decreases now, 1, |keys|
  {
    if keys == [] then []
    else Present(walk, was, now, keys[..|keys| - 1], prefix) + AtKey(walk, was, now, keys[|keys| - 1], prefix)
  }

  function AtKey(walk: Walk, was: ConfigValue, now: ConfigValue, key: string, prefix: Path): seq<Change>
    requires was.Object? && now.Object?
    decreases now, 0, 0
  {
    if key !in now.m then []
    else if key !in was.m then [Change(prefix + [key], None, now.m[key])]
    else if was.m[key] != now.m[key] then
      [Change(prefix + [key], Some(was.m[key]), now.m[key])] + FindChanges(walk, was.m[key], now.m[key], prefix + [key])
    else []
  }

  function Removed(was: ConfigValue, now: ConfigValue, keys: seq<string>, prefix: Path): seq<Change>
    requires was.Object? && now.Object?
  {
    if keys == [] then []
    else
      var key := keys[|keys| - 1];
      var front := Removed(was, now, keys[..|keys| - 1], prefix);
      if key in was.m && key !in now.m then front + [Change(prefix + [key], Some(was.m[key]), Null)] else front
  }

  // -- the text of a reported path --

  /** The path as it is written out while descending: the separator is left out after an empty prefix. */
  function PathText(path: Path): string {
    if path == [] then ""
    else
      var prefix := PathText(path[..|path| - 1]);
      if prefix == "" then path[|path| - 1] else prefix + "." + path[|path| - 1]
  }

  /** The text is never longer than the dotted path, and shorter as soon as a separator was left out. */
  lemma {:induction false} TextLength(path: Path)
    requires path != []
    ensures |PathText(path)| <= |Dotted(path)|
    ensures |path| >= 2 && path[0] == "" ==> |PathText(path)| < |Dotted(path)|
    ensures path[0] != "" ==> PathText(path) == Dotted(path) != ""
  {
    hide PathText, Join;
    var n := |path| - 1;
    var front, last := path[..n], path[n];
    assert path == front + [last];
    TextSnoc(front, last);
    if n == 0 {
      assert path == [last];
      ShortTexts(last);
    } else {
      TextLength(front);
      JoinSnoc(front, last, '.');
      assert front[0] == path[0];
      assert Dotted(path) == Dotted(front) + ['.'] + last;
      if n == 1 {
        assert front == [path[0]];
        ShortTexts(path[0]);
      }
    }
  }

  lemma {:induction false} ShortTexts(key: string)
    ensures PathText([]) == "" && PathText([key]) == key && Dotted([key]) == key
  {
    assert [key][..0] == [];
  }

  /** A reported path reads as the dotted path exactly when it does not descend below an empty top-level key. */
  lemma {:induction false} TextIsPathIff(path: Path)
    ensures PathText(path) == Dotted(path) <==> (|path| >= 2 ==> path[0] != "")
  {
    if path != [] {
      TextLength(path);
    }
  }

  /** No segment is empty or contains the separator. */
  predicate CleanPath(path: Path) {
    forall i :: 0 <= i < |path| ==> path[i] != "" && '.' !in path[i]
  }

  /**
   Looking up the announced text leads back to the changed path exactly when no key on the path
   contains a dot and the path does not descend below an empty top-level key.
   */
  lemma {:induction false} TextLeadsBackIff(path: Path)
    ensures Segments(PathText(path)) == path <==>
            path != [] && (|path| >= 2 ==> path[0] != "") && forall i :: 0 <= i < |path| ==> '.' !in path[i]
  {
    hide Split, Join, PathText;
    TextIsPathIff(path);
    if Segments(PathText(path)) == path {
      JoinSplit(PathText(path), '.');
    }
    if path != [] && (|path| >= 2 ==> path[0] != "") && forall i :: 0 <= i < |path| ==> '.' !in path[i] {
      SplitJoin(path, '.');
    }
  }

  /** Clean paths are announced under texts of their own. */
  lemma {:induction false} CleanTextInjective(p: Path, q: Path)
    requires CleanPath(p) && CleanPath(q) && PathText(p) == PathText(q)
    ensures p == q
  {
    hide Split, Join;
    TextLeadsBackIff(p);
    TextLeadsBackIff(q);
    if p == [] && q != [] {
      TextLength(q);
    }
    if q == [] && p != [] {
      TextLength(p);
    }
  }

  /** A key below an empty top-level key is announced under another key's name. */
  lemma {:induction false} EmptyKeyIsLost()
    ensures PathText(["", "a"]) == "a" == PathText(["a"]) && Dotted(["", "a"]) == ".a"
  {
    assert ["", "a"][..1] == [""] && [""][..0] == [] && ["a"][..0] == [] && ["", "a"][1..] == ["a"];
    assert PathText([""]) == "";
  }

  // -- the loops, which write paths out as text --

  /** What a subscriber receives. */
  datatype Update = Update(path: string, was: Option<ConfigValue>, now: ConfigValue)

  function Announce(c: Change): Update {
    Update(PathText(c.path), c.was, c.now)
  }

  function Announced(changes: seq<Change>): (r: seq<Update>)
    ensures |r| == |changes|
    ensures forall i :: 0 <= i < |r| ==> r[i] == Announce(changes[i])
  {
    Map(Announce, changes)
  }

  lemma {:induction false} AnnouncedAppend(a: seq<Change>, b: seq<Change>)
    ensures Announced(a + b) == Announced(a) + Announced(b)
  {
    hide Announce;
    MapAppend(Announce, a, b);
  }

  lemma {:induction false} TextSnoc(at: Path, key: string)
    ensures PathText(at + [key]) == if PathText(at) == "" then key else PathText(at) + "." + key
  {
    assert (at + [key])[..|at|] == at;
  }

  function Extend(prefix: string, key: string): string {
    if prefix == "" then key else prefix + "." + key
  }

  /** One entry of the new map; `at` is the path that `prefix` spells. */
  method CollectKey(walk: Walk, was: ConfigValue, now: ConfigValue, key: string, ghost at: Path, prefix: string) returns (updates: seq<Update>)
    requires IsWalk(walk) && was.Object? && now.Object? && key in now.m && prefix == PathText(at)
    ensures updates == Announced(AtKey(walk, was, now, key, at))
    decreases now, 0
  {
    hide PathText, Announced, FindChanges;
    var path := Extend(prefix, key);
    TextSnoc(at, key);
    if key in was.m {
      if was.m[key] != now.m[key] {
        var nested := CollectChanges(walk, was.m[key], now.m[key], at + [key], path);
        ghost var here := Change(at + [key], Some(was.m[key]), now.m[key]);
        AnnouncedAppend([here], FindChanges(walk, was.m[key], now.m[key], at + [key]));
        assert Announced([here]) == [Announce(here)];
        updates := [Update(path, Some(was.m[key]), now.m[key])] + nested;
      } else {
        updates := [];
      }
    } else {
      updates := [Update(path, None, now.m[key])];
    }
  }

  /** The loop over the new map. */
  method CollectPresent(walk: Walk, was: ConfigValue, now: ConfigValue, ghost at: Path, prefix: string) returns (updates: seq<Update>)
    requires IsWalk(walk) && was.Object? && now.Object? && prefix == PathText(at)
    ensures updates == Announced(Present(walk, was, now, walk(now.m.Keys), at))
    decreases now, 1
  {
    hide PathText, Announced, AtKey;
    updates := [];
    var keys := walk(now.m.Keys);
    for i := 0 to |keys|
      invariant updates == Announced(Present(walk, was, now, keys[..i], at))
    {
      assert keys[..i + 1][..i] == keys[..i];
      assert keys[i] in keys;
      AnnouncedAppend(Present(walk, was, now, keys[..i], at), AtKey(walk, was, now, keys[i], at));
      var found := CollectKey(walk, was, now, keys[i], at, prefix);
      updates := updates + found;
    }
    assert keys[..|keys|] == keys;
  }

  /** The loop over the old map. */
  method CollectRemoved(walk: Walk, was: ConfigValue, now: ConfigValue, ghost at: Path, prefix: string) returns (updates: seq<Update>)
    requires IsWalk(walk) && was.Object? && now.Object? && prefix == PathText(at)
    ensures updates == Announced(Removed(was, now, walk(was.m.Keys), at))
  {
    hide PathText, Announced;
    updates := [];
    var keys := walk(was.m.Keys);
    assert Announced([]) == [];
    for i := 0 to |keys|
      invariant updates == Announced(Removed(was, now, keys[..i], at))
    {
      assert keys[..i + 1][..i] == keys[..i];
      var key := keys[i];
      assert key in keys;
      if key !in now.m {
        TextSnoc(at, key);
        ghost var here := Change(at + [key], Some(was.m[key]), Null);
        AnnouncedAppend(Removed(was, now, keys[..i], at), [here]);
        assert Announced([here]) == [Announce(here)];
        updates := updates + [Update(Extend(prefix, key), Some(was.m[key]), Null)];
      }
    }
    assert keys[..|keys|] == keys;
  }

  method CollectChanges(walk: Walk, was: ConfigValue, now: ConfigValue, ghost at: Path, prefix: string) returns (updates: seq<Update>)
    requires IsWalk(walk) && prefix == PathText(at)
    ensures updates == Announced(FindChanges(walk, was, now, at))
    decreases now, 2
  {
    if was.Object? && now.Object? {
      var present := CollectPresent(walk, was, now, at, prefix);
      var removed := CollectRemoved(walk, was, now, at, prefix);
      AnnouncedAppend(Present(walk, was, now, walk(now.m.Keys), at), Removed(was, now, walk(was.m.Keys), at));
      updates := present + removed;
    } else if was != now {
      updates := [Update(prefix, Some(was), now)];
    } else {
      updates := [];
    }
  }

  /** `notify_changes`: everything found from the root is sent. */
  method NotifyChanges(walk: Walk, was: ConfigValue, now: ConfigValue) returns (sent: seq<Update>)
    requires IsWalk(walk)
    ensures sent == Announced(FindChanges(walk, was, now, []))
  {
    sent := CollectChanges(walk, was, now, [], "");
  }

  // -- what is reported is true --

  /** The change is a real difference at its path, with Null standing for a removal. */
  predicate Truthful(was: ConfigValue, now: ConfigValue, prefix: Path, c: Change) {
    prefix <= c.path &&
    var rel := c.path[|prefix|..];
    && Lookup(was, rel) == c.was
    && Lookup(was, rel) != Lookup(now, rel)
    && (Lookup(now, rel) == Some(c.now) || (Lookup(now, rel) == None && c.now == Null))
  }

  lemma {:induction false} TruthfulBelow(was: ConfigValue, now: ConfigValue, prefix: Path, key: string, c: Change)
    requires was.Object? && now.Object? && key in was.m && key in now.m
    requires Truthful(was.m[key], now.m[key], prefix + [key], c)
    ensures Truthful(was, now, prefix, c)
  {
    var n := |prefix|;
    assert c.path[..n] == (prefix + [key])[..n] == prefix;
    assert c.path[n] == (prefix + [key])[n] == key;
    assert c.path[n..][1..] == c.path[n + 1..];
  }

  lemma {:induction false} TruthfulAtKey(was: ConfigValue, now: ConfigValue, prefix: Path, key: string, c: Change)
    requires was.Object? && now.Object? && c.path == prefix + [key]
    requires c.was == (if key in was.m then Some(was.m[key]) else None)
    requires if key in now.m then c.now == now.m[key] else c.now == Null
    requires key in was.m || key in now.m
    requires key in was.m && key in now.m ==> was.m[key] != now.m[key]
    ensures Truthful(was, now, prefix, c)
  {
    assert c.path[|prefix|..] == [key] && [key][1..] == [];
  }

  lemma {:induction false} ChangesAreTruthful(walk: Walk, was: ConfigValue, now: ConfigValue, prefix: Path, c: Change)
    requires IsWalk(walk) && c in FindChanges(walk, was, now, prefix)
    ensures Truthful(was, now, prefix, c)
    decreases now, 1, 0
  {
    if was.Object? && now.Object? {
      if c in Present(walk, was, now, walk(now.m.Keys), prefix) {
        PresentIsTruthful(walk, was, now, walk(now.m.Keys), prefix, c);
      } else {
        RemovedIsTruthful(was, now, walk(was.m.Keys), prefix, c);
      }
    } else {
      assert c.path[|prefix|..] == [];
    }
  }

  lemma {:induction false} PresentIsTruthful(walk: Walk, was: ConfigValue, now: ConfigValue, keys: seq<string>, prefix: Path, c: Change)
    requires IsWalk(walk) && was.Object? && now.Object? && c in Present(walk, was, now, keys, prefix)
    ensures Truthful(was, now, prefix, c)
    decreases now, 0, |keys|
  {
    var key := keys[|keys| - 1];
    if c in Present(walk, was, now, keys[..|keys| - 1], prefix) {
      PresentIsTruthful(walk, was, now, keys[..|keys| - 1], prefix, c);
    } else if c.path == prefix + [key] && c == AtKey(walk, was, now, key, prefix)[0] {
      TruthfulAtKey(was, now, prefix, key, c);
    } else {
      ChangesAreTruthful(walk, was.m[key], now.m[key], prefix + [key], c);
      TruthfulBelow(was, now, prefix, key, c);
    }
  }

  lemma {:induction false} RemovedIsTruthful(was: ConfigValue, now: ConfigValue, keys: seq<string>, prefix: Path, c: Change)
    requires was.Object? && now.Object? && c in Removed(was, now, keys, prefix)
    ensures Truthful(was, now, prefix, c)
  {
    var key := keys[|keys| - 1];
    if c in Removed(was, now, keys[..|keys| - 1], prefix) {
      RemovedIsTruthful(was, now, keys[..|keys| - 1], prefix, c);
    } else {
      TruthfulAtKey(was, now, prefix, key, c);
    }
  }

  /** Every update sent is of a path whose old and new value differ and are the ones sent, Null standing for a removal. */
  lemma {:induction false} UpdatesAreTruthful(walk: Walk, was: ConfigValue, now: ConfigValue, u: Update) returns (path: Path)
    requires IsWalk(walk) && u in Announced(FindChanges(walk, was, now, []))
    ensures u.path == PathText(path) && u.was == Lookup(was, path) && Lookup(was, path) != Lookup(now, path)
    ensures u.now == if Lookup(now, path).Some? then Lookup(now, path).value else Null
  {
    hide FindChanges, PathText, Lookup;
    var changes := FindChanges(walk, was, now, []);
    var i :| 0 <= i < |changes| && Announced(changes)[i] == u;
    var c := changes[i];
    ChangesAreTruthful(walk, was, now, [], c);
    path := c.path;
    assert path[0..] == path;
  }

  // -- every difference is reported --

  /** Some change is reported at the path or above it. */
  ghost predicate Reported(changes: seq<Change>, path: Path) {
    exists c :: c in changes && c.path <= path
  }

  lemma {:induction false} PresentHas(walk: Walk, was: ConfigValue, now: ConfigValue, keys: seq<string>, prefix: Path, key: string, c: Change)
    requires was.Object? && now.Object? && key in keys && c in AtKey(walk, was, now, key, prefix)
    ensures c in Present(walk, was, now, keys, prefix)
  {
    var n := |keys| - 1;
    if key != keys[n] {
      PresentHas(walk, was, now, keys[..n], prefix, key, c);
    }
  }

  lemma {:induction false} RemovedHas(was: ConfigValue, now: ConfigValue, keys: seq<string>, prefix: Path, key: string)
    requires was.Object? && now.Object? && key in keys && key in was.m && key !in now.m
    ensures Change(prefix + [key], Some(was.m[key]), Null) in Removed(was, now, keys, prefix)
  {
    var n := |keys| - 1;
    if key != keys[n] {
      RemovedHas(was, now, keys[..n], prefix, key);
    }
  }

  /** A differing key of two objects is reported under its own path. */
  lemma {:induction false} KeyIsReported(walk: Walk, was: ConfigValue, now: ConfigValue, prefix: Path, key: string) returns (c: Change)
    requires IsWalk(walk) && was.Object? && now.Object?
    requires key in was.m || key in now.m
    requires key in was.m && key in now.m ==> was.m[key] != now.m[key]
    ensures c in FindChanges(walk, was, now, prefix) && c.path == prefix + [key]
  {
    if key in now.m {
      c := AtKey(walk, was, now, key, prefix)[0];
      assert key in walk(now.m.Keys);
      PresentHas(walk, was, now, walk(now.m.Keys), prefix, key, c);
    } else {
      c := Change(prefix + [key], Some(was.m[key]), Null);
      assert key in walk(was.m.Keys);
      RemovedHas(was, now, walk(was.m.Keys), prefix, key);
    }
  }

  /** Each path at which the two configurations differ has a reported prefix; only the root of two objects is implied. */
  lemma {:induction false} DifferencesAreReported(walk: Walk, was: ConfigValue, now: ConfigValue, prefix: Path, path: Path)
    requires IsWalk(walk) && Lookup(was, path) != Lookup(now, path)
    requires path == [] ==> !was.Object? || !now.Object?
    ensures Reported(FindChanges(walk, was, now, prefix), prefix + path)
  {
    var changes := FindChanges(walk, was, now, prefix);
    if was.Object? && now.Object? {
      var c := KeyIsReported(walk, was, now, prefix, path[0]);
      ReportedAt(changes, c, prefix, path[0], path);
    } else {
      assert changes[0].path <= prefix + path;
    }
  }

  lemma {:induction false} ReportedAt(changes: seq<Change>, c: Change, prefix: Path, key: string, path: Path)
    requires c in changes && c.path == prefix + [key] && path != [] && path[0] == key
    ensures Reported(changes, prefix + path)
  {
    assert prefix + path == prefix + [key] + path[1..];
  }

  lemma {:induction false} DifferingKey(was: ConfigValue, now: ConfigValue) returns (key: string)
    requires was.Object? && now.Object? && was != now
    ensures key in was.m || key in now.m
    ensures key in was.m && key in now.m ==> was.m[key] != now.m[key]
  {
    if was.m.Keys == now.m.Keys {
      key :| key in was.m && was.m[key] != now.m[key];
    } else if k :| k in was.m && k !in now.m {
      key := k;
    } else {
      key :| key in now.m && key !in was.m;
    }
  }

  /** No change is reported exactly when the configurations are equal. */
  lemma {:induction false} NoChangesIffEqual(walk: Walk, was: ConfigValue, now: ConfigValue, prefix: Path)
    requires IsWalk(walk)
    ensures FindChanges(walk, was, now, prefix) == [] <==> was == now
  {
    var changes := FindChanges(walk, was, now, prefix);
    if was == now {
      if changes != [] {
        ChangesAreTruthful(walk, was, now, prefix, changes[0]);
      }
    } else if was.Object? && now.Object? {
      var key := DifferingKey(was, now);
      var c := KeyIsReported(walk, was, now, prefix, key);
    }
  }

  // -- how often a path is reported --

  function AtPath(path: Path): Change -> bool {
    (c: Change) => c.path == path
  }

  function Reports(changes: seq<Change>, path: Path): nat {
    CountIf(AtPath(path), changes)
  }

  /** Both configurations hold an object at the path. */
  predicate BothObjects(was: ConfigValue, now: ConfigValue, path: Path) {
    var a, b := Lookup(was, path), Lookup(now, path);
    a.Some? && b.Some? && a.value.Object? && b.value.Object?
  }

  predicate BothPresent(was: ConfigValue, now: ConfigValue, path: Path) {
    Lookup(was, path).Some? && Lookup(now, path).Some?
  }

  /**
   How often a path must be reported: a key added to or removed from an object that both sides
   have, once; a value that differs, twice unless both sides are objects; the root once less.
   */
  function ReportsDue(was: ConfigValue, now: ConfigValue, path: Path): nat {
    if Lookup(was, path) == Lookup(now, path) then 0
    else if BothPresent(was, now, path) then
      (if path == [] then 0 else 1) + (if BothObjects(was, now, path) then 0 else 1)
    else if path != [] && BothObjects(was, now, path[..|path| - 1]) then 1
    else 0
  }

  /** What the search finds below one key of two objects. */
  lemma {:induction false} DueBelow(was: ConfigValue, now: ConfigValue, path: Path)
    requires path != [] && was.Object? && now.Object? && path[0] in was.m && path[0] in now.m
    ensures var a, b := was.m[path[0]], now.m[path[0]];
            ReportsDue(was, now, path) ==
              if a == b then 0 else (if |path| == 1 then 1 else 0) + ReportsDue(a, b, path[1..])
  {
    var rest := path[1..];
    if rest != [] {
      assert path[..|path| - 1][1..] == rest[..|rest| - 1];
    }
  }

  /** A key that only one of two objects has is due once, and nothing is due below it. */
  lemma {:induction false} DueAtOneSide(was: ConfigValue, now: ConfigValue, path: Path)
    requires path != [] && was.Object? && now.Object? && (path[0] in was.m <==> path[0] !in now.m)
    ensures ReportsDue(was, now, path) == if |path| == 1 then 1 else 0
  {
    var parent := path[..|path| - 1];
    if |path| == 1 {
      assert parent == [] && path[1..] == [];
      assert BothObjects(was, now, parent);
      assert Lookup(was, path).Some? <==> path[0] in was.m;
      assert Lookup(now, path).Some? <==> path[0] in now.m;
    } else {
      assert parent[0] == path[0];
    }
  }

  lemma {:induction false} DueNowhere(was: ConfigValue, now: ConfigValue, path: Path)
    requires path != [] && !(was.Object? && now.Object? && (path[0] in was.m || path[0] in now.m))
    ensures ReportsDue(was, now, path) == 0
  {
  }

  lemma {:induction false} ElsewhereNotReported(walk: Walk, was: ConfigValue, now: ConfigValue, prefix: Path, path: Path)
    requires IsWalk(walk) && !(prefix <= path)
    ensures Reports(FindChanges(walk, was, now, prefix), path) == 0
  {
    hide FindChanges, Truthful;
    var changes := FindChanges(walk, was, now, prefix);
    forall c | c in changes ensures !AtPath(path)(c) {
      ChangesAreTruthful(walk, was, now, prefix, c);
      TruthfulExtends(was, now, prefix, c);
    }
    CountNone(AtPath(path), changes);
  }

  lemma {:induction false} TruthfulExtends(was: ConfigValue, now: ConfigValue, prefix: Path, c: Change)
    requires Truthful(was, now, prefix, c)
    ensures prefix <= c.path
  {
  }

  lemma {:induction false} CountOne(c: Change, path: Path)
    ensures Reports([c], path) == if c.path == path then 1 else 0
  {
    assert [c][..0] == [];
    assert CountIf(AtPath(path), []) == 0;
    assert AtPath(path)(c) == (c.path == path);
  }

  lemma {:induction false} AtKeyReports(walk: Walk, was: ConfigValue, now: ConfigValue, key: string, prefix: Path, path: Path)
    requires IsWalk(walk) && was.Object? && now.Object? && path != [] && key in now.m
    ensures Reports(AtKey(walk, was, now, key, prefix), prefix + path) ==
            if key == path[0] then ReportsDue(was, now, path) else 0
    decreases now, 0, 0
  {
    hide ReportsDue, CountIf, FindChanges;
    var here, below := prefix + [key], prefix + path;
    assert below[|prefix|] == path[0] && here[|prefix|] == key;
    assert here == below <==> path == [key];
    assert Reports([], below) == 0 by { CountNone(AtPath(below), []); }
    if key !in was.m {
      CountOne(Change(here, None, now.m[key]), below);
      if key == path[0] {
        DueAtOneSide(was, now, path);
      }
    } else if was.m[key] != now.m[key] {
      var c := Change(here, Some(was.m[key]), now.m[key]);
      CountOne(c, below);
      CountAppend(AtPath(below), [c], FindChanges(walk, was.m[key], now.m[key], here));
      if key == path[0] {
        assert here + path[1..] == below;
        FindReports(walk, was.m[key], now.m[key], here, path[1..]);
        DueBelow(was, now, path);
      } else {
        ElsewhereNotReported(walk, was.m[key], now.m[key], here, below);
      }
    } else if key == path[0] {
      DueBelow(was, now, path);
    }
  }

  lemma {:induction false} PresentReports(walk: Walk, was: ConfigValue, now: ConfigValue, keys: seq<string>, prefix: Path, path: Path)
    requires IsWalk(walk) && was.Object? && now.Object? && path != []
    requires Distinct(keys) && forall k :: k in keys ==> k in now.m
    ensures Reports(Present(walk, was, now, keys, prefix), prefix + path) ==
            if path[0] in keys then ReportsDue(was, now, path) else 0
    decreases now, 1, |keys|
  {
    hide ReportsDue, CountIf, AtKey;
    if keys == [] {
      CountNone(AtPath(prefix + path), []);
    } else {
      var n := |keys| - 1;
      var front, key := keys[..n], keys[n];
      assert keys == front + [key];
      PresentReports(walk, was, now, front, prefix, path);
      AtKeyReports(walk, was, now, key, prefix, path);
      CountAppend(AtPath(prefix + path), Present(walk, was, now, front, prefix), AtKey(walk, was, now, key, prefix));
    }
  }

  lemma {:induction false} RemovedReports(was: ConfigValue, now: ConfigValue, keys: seq<string>, prefix: Path, path: Path)
    requires was.Object? && now.Object? && path != [] && Distinct(keys) && forall k :: k in keys ==> k in was.m
    ensures Reports(Removed(was, now, keys, prefix), prefix + path) ==
            if path[0] in keys && path[0] !in now.m && |path| == 1 then 1 else 0
  {
    hide CountIf;
    if keys == [] {
      CountNone(AtPath(prefix + path), []);
    } else {
      var n := |keys| - 1;
      var front, key := keys[..n], keys[n];
      assert keys == front + [key];
      RemovedReports(was, now, front, prefix, path);
      var c := Change(prefix + [key], Some(was.m[key]), Null);
      CountOne(c, prefix + path);
      CountAppend(AtPath(prefix + path), Removed(was, now, front, prefix), [c]);
      assert (prefix + path)[|prefix|..] == path && c.path[|prefix|..] == [key];
    }
  }

  /** Every path is reported exactly as often as is due. */
  lemma {:induction false} FindReports(walk: Walk, was: ConfigValue, now: ConfigValue, prefix: Path, path: Path)
    requires IsWalk(walk)
    ensures Reports(FindChanges(walk, was, now, prefix), prefix + path) == ReportsDue(was, now, path)
    decreases now, 2, 0
  {
    if was.Object? && now.Object? {
      if path == [] {
        RootNotReported(walk, was, now, prefix);
      } else {
        KeyReports(walk, was, now, prefix, path);
      }
    } else {
      assert prefix + path == prefix <==> path == [];
      if was != now {
        CountOne(Change(prefix, Some(was), now), prefix + path);
      }
      if path != [] {
        DueNowhere(was, now, path);
      }
    }
  }

  lemma {:induction false} KeyReports(walk: Walk, was: ConfigValue, now: ConfigValue, prefix: Path, path: Path)
    requires IsWalk(walk) && was.Object? && now.Object? && path != []
    ensures Reports(FindChanges(walk, was, now, prefix), prefix + path) == ReportsDue(was, now, path)
    decreases now, 1, |now.m| + 1
  {
    hide ReportsDue, CountIf, Present, Removed;
    var newKeys, oldKeys := walk(now.m.Keys), walk(was.m.Keys);
    assert forall k :: k in newKeys <==> k in now.m.Keys;
    assert forall k :: k in oldKeys <==> k in was.m.Keys;
    WalkLength(walk, now.m.Keys);
    PresentReports(walk, was, now, newKeys, prefix, path);
    RemovedReports(was, now, oldKeys, prefix, path);
    CountAppend(AtPath(prefix + path), Present(walk, was, now, newKeys, prefix), Removed(was, now, oldKeys, prefix));
    if path[0] !in now.m {
      if path[0] in was.m {
        DueAtOneSide(was, now, path);
      } else {
        DueNowhere(was, now, path);
      }
    }
  }

  lemma {:induction false} WalkLength(walk: Walk, keys: set<string>)
    requires IsWalk(walk)
    ensures |walk(keys)| == |keys|
  {
    DistinctCardinality(walk(keys));
    assert Elements(walk(keys)) == keys;
  }

  lemma {:induction false} RootNotReported(walk: Walk, was: ConfigValue, now: ConfigValue, prefix: Path)
    requires IsWalk(walk) && was.Object? && now.Object?
    ensures Reports(FindChanges(walk, was, now, prefix), prefix + []) == 0 == ReportsDue(was, now, [])
  {
    var changes := FindChanges(walk, was, now, prefix);
    assert prefix + [] == prefix;
    forall c | c in changes ensures !AtPath(prefix)(c) {
      if c in Present(walk, was, now, walk(now.m.Keys), prefix) {
        PresentGoesDeeper(walk, was, now, walk(now.m.Keys), prefix, c);
      } else {
        RemovedGoesDeeper(was, now, walk(was.m.Keys), prefix, c);
      }
    }
    CountNone(AtPath(prefix), changes);
  }

  lemma {:induction false} PresentGoesDeeper(walk: Walk, was: ConfigValue, now: ConfigValue, keys: seq<string>, prefix: Path, c: Change)
    requires IsWalk(walk) && was.Object? && now.Object? && c in Present(walk, was, now, keys, prefix)
    ensures |c.path| > |prefix|
  {
    var n := |keys| - 1;
    if c in Present(walk, was, now, keys[..n], prefix) {
      PresentGoesDeeper(walk, was, now, keys[..n], prefix, c);
    } else if c != AtKey(walk, was, now, keys[n], prefix)[0] {
      ChangesAreTruthful(walk, was.m[keys[n]], now.m[keys[n]], prefix + [keys[n]], c);
    }
  }

  lemma {:induction false} RemovedGoesDeeper(was: ConfigValue, now: ConfigValue, keys: seq<string>, prefix: Path, c: Change)
    requires was.Object? && now.Object? && c in Removed(was, now, keys, prefix)
    ensures |c.path| > |prefix|
  {
    var n := |keys| - 1;
    if c in Removed(was, now, keys[..n], prefix) {
      RemovedGoesDeeper(was, now, keys[..n], prefix, c);
    }
  }

  /** Some value that is not an object on both sides differs, below the root. */
  ghost predicate ScalarDiffers(was: ConfigValue, now: ConfigValue, path: Path) {
    path != [] && BothPresent(was, now, path) && Lookup(was, path) != Lookup(now, path) && !BothObjects(was, now, path)
  }

  /** No change is announced twice if and only if every path that both sides have differs only between objects. */
  lemma {:induction false} NoChangeTwiceIff(walk: Walk, was: ConfigValue, now: ConfigValue, prefix: Path)
    requires IsWalk(walk)
    ensures Distinct(FindChanges(walk, was, now, prefix)) <==> forall path :: !ScalarDiffers(was, now, path)
  {
    hide FindChanges, ReportsDue, CountIf, Truthful, BothObjects, BothPresent;
    var changes := FindChanges(walk, was, now, prefix);
    if path :| ScalarDiffers(was, now, path) {
      FindReports(walk, was, now, prefix, path);
      DueTwiceIff(was, now, path);
      var i, j := CountTwo(AtPath(prefix + path), changes);
      ChangesAreTruthful(walk, was, now, prefix, changes[i]);
      ChangesAreTruthful(walk, was, now, prefix, changes[j]);
      SamePathSameChange(was, now, prefix, path, changes[i], changes[j]);
    }
    if !Distinct(changes) {
      var i, j :| 0 <= i < j < |changes| && changes[i] == changes[j];
      ChangesAreTruthful(walk, was, now, prefix, changes[i]);
      TruthfulExtends(was, now, prefix, changes[i]);
      var path := changes[i].path[|prefix|..];
      assert prefix + path == changes[i].path;
      TwoCount(AtPath(prefix + path), changes, i, j);
      FindReports(walk, was, now, prefix, path);
      DueTwiceIff(was, now, path);
    }
  }

  lemma {:induction false} DueTwiceIff(was: ConfigValue, now: ConfigValue, path: Path)
    ensures ReportsDue(was, now, path) <= 2
    ensures ReportsDue(was, now, path) == 2 <==> ScalarDiffers(was, now, path)
  {
  }

  lemma {:induction false} SamePathSameChange(was: ConfigValue, now: ConfigValue, prefix: Path, path: Path, c: Change, d: Change)
    requires Truthful(was, now, prefix, c) && Truthful(was, now, prefix, d)
    requires c.path == d.path == prefix + path && BothPresent(was, now, path)
    ensures c == d
  {
    assert c.path[|prefix|..] == path;
  }

  /** Changing one scalar is announced twice. */
  lemma {:induction false} ScalarChangeReportedTwice(walk: Walk)
    requires IsWalk(walk)
    ensures var was, now := Object(map["a" := Integer(1)]), Object(map["a" := Integer(2)]);
            && Reports(FindChanges(walk, was, now, []), ["a"]) == 2
            && !Distinct(FindChanges(walk, was, now, []))
  {
    hide FindChanges, CountIf;
    var was, now := Object(map["a" := Integer(1)]), Object(map["a" := Integer(2)]);
    assert ["a"][1..] == [] && [] + ["a"] == ["a"];
    assert Lookup(was, ["a"]) == Some(Integer(1)) && Lookup(now, ["a"]) == Some(Integer(2));
    FindReports(walk, was, now, [], ["a"]);
    assert ScalarDiffers(was, now, ["a"]);
    NoChangeTwiceIff(walk, was, now, []);
  }

  // -- what is announced twice --

  /** The value an update carries as the new one. */
  function NewValue(now: ConfigValue, path: Path): ConfigValue {
    if Lookup(now, path).Some? then Lookup(now, path).value else Null
  }

  /** Two reported paths that read the same, with the same old and new value. */
  predicate TextClash(was: ConfigValue, now: ConfigValue, p: Path, q: Path) {
    && p != q && PathText(p) == PathText(q)
    && ReportsDue(was, now, p) > 0 && ReportsDue(was, now, q) > 0
    && Lookup(was, p) == Lookup(was, q) && NewValue(now, p) == NewValue(now, q)
  }

  /** A reported change is determined by its path. */
  lemma {:induction false} ChangeAt(walk: Walk, was: ConfigValue, now: ConfigValue, c: Change)
    requires IsWalk(walk) && c in FindChanges(walk, was, now, [])
    ensures c == Change(c.path, Lookup(was, c.path), NewValue(now, c.path)) && ReportsDue(was, now, c.path) > 0
  {
    hide FindChanges, ReportsDue, CountIf;
    var changes := FindChanges(walk, was, now, []);
    ChangesAreTruthful(walk, was, now, [], c);
    assert c.path[0..] == c.path && [] + c.path == c.path;
    FindReports(walk, was, now, [], c.path);
    var i :| 0 <= i < |changes| && changes[i] == c;
    CountWithout(AtPath(c.path), changes, i);
  }

  lemma {:induction false} ReportedSomewhere(walk: Walk, was: ConfigValue, now: ConfigValue, path: Path) returns (i: nat)
    requires IsWalk(walk) && ReportsDue(was, now, path) > 0
    ensures i < |FindChanges(walk, was, now, [])| && FindChanges(walk, was, now, [])[i].path == path
  {
    hide FindChanges, ReportsDue, CountIf;
    FindReports(walk, was, now, [], path);
    assert [] + path == path;
    i := CountSome(AtPath(path), FindChanges(walk, was, now, []));
  }

  lemma {:induction false} ClashRepeats(walk: Walk, was: ConfigValue, now: ConfigValue, p: Path, q: Path)
    requires IsWalk(walk) && TextClash(was, now, p, q)
    ensures !Distinct(Announced(FindChanges(walk, was, now, [])))
  {
    hide FindChanges, ReportsDue, PathText, Lookup;
    var changes := FindChanges(walk, was, now, []);
    var i := ReportedSomewhere(walk, was, now, p);
    var j := ReportedSomewhere(walk, was, now, q);
    ChangeAt(walk, was, now, changes[i]);
    ChangeAt(walk, was, now, changes[j]);
    var updates := Announced(changes);
    assert updates[i] == updates[j] && i != j;
  }

  lemma {:induction false} RepeatClashes(walk: Walk, was: ConfigValue, now: ConfigValue) returns (p: Path, q: Path)
    requires IsWalk(walk) && Distinct(FindChanges(walk, was, now, [])) && !Distinct(Announced(FindChanges(walk, was, now, [])))
    ensures TextClash(was, now, p, q)
  {
    hide FindChanges, ReportsDue, PathText, Lookup;
    var changes := FindChanges(walk, was, now, []);
    var updates := Announced(changes);
    var i, j :| 0 <= i < j < |updates| && updates[i] == updates[j];
    ChangeAt(walk, was, now, changes[i]);
    ChangeAt(walk, was, now, changes[j]);
    p, q := changes[i].path, changes[j].path;
  }

  lemma {:induction false} RepeatedChangeRepeats(changes: seq<Change>)
    requires !Distinct(changes)
    ensures !Distinct(Announced(changes))
  {
    var i, j :| 0 <= i < j < |changes| && changes[i] == changes[j];
    assert Announced(changes)[i] == Announced(changes)[j];
  }

  /**
   Subscribers never receive the same update twice if and only if no value that is not an object on
   both sides differs below the root, and no two reported paths read the same and carry the same values.
   */
  lemma {:induction false} NoUpdateTwiceIff(walk: Walk, was: ConfigValue, now: ConfigValue)
    requires IsWalk(walk)
    ensures Distinct(Announced(FindChanges(walk, was, now, []))) <==>
            (forall path :: !ScalarDiffers(was, now, path)) && (forall p, q :: !TextClash(was, now, p, q))
  {
    hide FindChanges, ScalarDiffers, TextClash, Distinct, Announced;
    NoChangeTwiceIff(walk, was, now, []);
    if !Distinct(FindChanges(walk, was, now, [])) {
      RepeatedChangeRepeats(FindChanges(walk, was, now, []));
    } else if p, q :| TextClash(was, now, p, q) {
      ClashRepeats(walk, was, now, p, q);
    } else if !Distinct(Announced(FindChanges(walk, was, now, []))) {
      var p, q := RepeatClashes(walk, was, now);
    }
  }

  /** Every key anywhere in the configuration is non-empty and free of dots. */
  ghost predicate CleanKeys(v: ConfigValue) {
    forall path :: Lookup(v, path).Some? ==> CleanPath(path)
  }

  lemma {:induction false} DueIsPresent(was: ConfigValue, now: ConfigValue, path: Path)
    requires ReportsDue(was, now, path) > 0
    ensures Lookup(was, path).Some? || Lookup(now, path).Some?
  {
  }

  /** With clean keys only the scalars matter. */
  lemma {:induction false} NoUpdateTwiceWithCleanKeys(walk: Walk, was: ConfigValue, now: ConfigValue)
    requires IsWalk(walk) && CleanKeys(was) && CleanKeys(now)
    ensures Distinct(Announced(FindChanges(walk, was, now, []))) <==> forall path :: !ScalarDiffers(was, now, path)
  {
    hide FindChanges, ReportsDue, ScalarDiffers, PathText, CleanPath;
    NoUpdateTwiceIff(walk, was, now);
    forall p, q ensures !TextClash(was, now, p, q) {
      if TextClash(was, now, p, q) {
        DueIsPresent(was, now, p);
        DueIsPresent(was, now, q);
        CleanTextInjective(p, q);
      }
    }
  }

  /** A dotted key and a nested one: the new value 1 is announced twice as "a.b", though no scalar was changed. */
  lemma {:induction false} DottedKeyAnnouncedTwice(walk: Walk)
    requires IsWalk(walk)
    ensures var was := Object(map["a" := Object(map[])]);
            var now := Object(map["a" := Object(map["b" := Integer(1)]), "a.b" := Integer(1)]);
            && Distinct(FindChanges(walk, was, now, []))
            && !Distinct(Announced(FindChanges(walk, was, now, [])))
  {
    hide FindChanges;
    var was := Object(map["a" := Object(map[])]);
    var now := Object(map["a" := Object(map["b" := Integer(1)]), "a.b" := Integer(1)]);
    DottedClash(was, now);
    NoUpdateTwiceIff(walk, was, now);
    NoChangeTwiceIff(walk, was, now, []);
    forall path ensures !ScalarDiffers(was, now, path) {
      OnlyTheObjectIsShared(was, now, path);
    }
  }

  lemma {:induction false} OnlyTheObjectIsShared(was: ConfigValue, now: ConfigValue, path: Path)
    requires was == Object(map["a" := Object(map[])])
    requires now == Object(map["a" := Object(map["b" := Integer(1)]), "a.b" := Integer(1)])
    ensures !ScalarDiffers(was, now, path)
  {
    if path != [] && BothPresent(was, now, path) {
      assert path[0] == "a";
      assert Lookup(Object(map[]), path[1..]).Some?;
      assert path[1..] == [];
      assert Lookup(was, path) == Some(was.m["a"]) && Lookup(now, path) == Some(now.m["a"]);
      assert BothObjects(was, now, path);
    }
  }

  lemma {:induction false} DottedClash(was: ConfigValue, now: ConfigValue)
    requires was == Object(map["a" := Object(map[])])
    requires now == Object(map["a" := Object(map["b" := Integer(1)]), "a.b" := Integer(1)])
    ensures TextClash(was, now, ["a", "b"], ["a.b"])
  {
    var p, q := ["a", "b"], ["a.b"];
    assert p[..1] == ["a"] && ["a"][..0] == [] && q[..0] == [] && p[1..] == ["b"] && ["b"][1..] == [] && q[1..] == [] && ["a"][1..] == [];
    assert PathText(["a"]) == "a" && PathText(q) == "a.b";
    assert PathText(p) == "a" + "." + "b" == "a.b";
    var inner := Object(map["b" := Integer(1)]);
    assert Lookup(inner, ["b"]) == Some(Integer(1));
    assert Lookup(now, p) == Some(Integer(1)) && Lookup(now, q) == Some(Integer(1));
    assert Lookup(Object(map[]), ["b"]) == None;
    assert Lookup(was, p) == None && Lookup(was, q) == None;
    assert Lookup(was, ["a"]) == Some(Object(map[])) && Lookup(now, ["a"]) == Some(inner);
    assert BothObjects(was, now, p[..1]) && BothObjects(was, now, q[..0]);
  }
}
