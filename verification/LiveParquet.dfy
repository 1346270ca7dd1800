/**
 The always-current Parquet table: a file listing that many tasks refresh at once.

 `current_table` is split at its lock and await points, so that any number of
 tasks can interleave between them, and the clock can move between any two steps.
 */
module LiveParquet {
  import opened Base

  datatype Table = Table(urls: seq<string>)

  datatype BuildError = TableRejected

  type Outcome = Result<Option<Table>, BuildError>

  /**
   Everything foreign to the provider: the URL parser, the table constructor and the
   refresh interval. The path source answers each resolution with whatever paths it likes.
   */
  datatype Env = Env(
    parse: string -> Option<string>,
    accepts: seq<string> -> bool,
    interval: nat)

  datatype Listing = Listing(paths: seq<string>, table: Option<Table>, lastRefresh: nat)

  const EMPTY := Listing([], None, 0)

  /** The URLs of the parseable paths, in path order. */
  function Urls(env: Env, paths: seq<string>): (urls: seq<string>)
    ensures forall u :: u in urls <==> exists p :: p in paths && env.parse(p) == Some(u)
  {
    if paths == [] then []
    else
      (match env.parse(paths[0])
       case Some(url) => [url]
       case None => []) + Urls(env, paths[1..])
  }

  function TableOver(env: Env, paths: seq<string>): (r: Outcome)
  {
    var urls := Urls(env, paths);
    if urls == [] then Ok(None)
    else if env.accepts(urls) then Ok(Some(Table(urls)))
    else Err(TableRejected)
  }

  lemma {:induction false} UrlsAppend(env: Env, a: seq<string>, b: seq<string>)
    ensures Urls(env, a + b) == Urls(env, a) + Urls(env, b)
  {
    if a == [] {
      assert a + b == b;
    } else {
      assert (a + b)[1..] == a[1..] + b;
      UrlsAppend(env, a[1..], b);
    }
  }

  lemma {:induction false} UrlsSnoc(env: Env, paths: seq<string>, i: nat)
    requires i < |paths|
    ensures Urls(env, paths[..i + 1]) ==
            Urls(env, paths[..i]) + match env.parse(paths[i]) case Some(url) => [url] case None => []
  {
    assert paths[..i + 1] == paths[..i] + [paths[i]];
    UrlsAppend(env, paths[..i], [paths[i]]);
    assert [paths[i]][1..] == [];
    assert Urls(env, []) == [];
  }

  /** How many of the first `n` paths parse. */
  function Parseable(env: Env, paths: seq<string>, n: nat): nat
    requires n <= |paths|
  {
    if n == 0 then 0 else Parseable(env, paths, n - 1) + if env.parse(paths[n - 1]).Some? then 1 else 0
  }

  /** One URL for each path that parses, in path order: the one it parses to. */
  predicate OneUrlPerPath(env: Env, paths: seq<string>, urls: seq<string>) {
    && |urls| == Parseable(env, paths, |paths|)
    && forall i :: 0 <= i < |paths| && env.parse(paths[i]).Some? ==>
         Parseable(env, paths, i) < |urls| && env.parse(paths[i]) == Some(urls[Parseable(env, paths, i)])
  }

  lemma {:induction false} ParseableGrows(env: Env, paths: seq<string>, m: nat, n: nat)
    requires m <= n <= |paths|
    ensures Parseable(env, paths, m) <= Parseable(env, paths, n)
  {
    if m < n {
      ParseableGrows(env, paths, m, n - 1);
    }
  }

  lemma {:induction false} ParseableOfPrefix(env: Env, paths: seq<string>, n: nat, m: nat)
    requires n <= m <= |paths|
    ensures Parseable(env, paths[..m], n) == Parseable(env, paths, n)
  {
    if n > 0 {
      ParseableOfPrefix(env, paths, n - 1, m);
    }
  }

  lemma {:induction false} UrlsMean(env: Env, paths: seq<string>)
    ensures OneUrlPerPath(env, paths, Urls(env, paths))
  {
    hide Urls;
    if paths == [] {
      NoUrls(env);
    } else {
      var n := |paths| - 1;
      var front, urls := paths[..n], Urls(env, paths);
      UrlsMean(env, front);
      UrlsSnoc(env, paths, n);
      assert paths[..n + 1] == paths;
      ParseableOfPrefix(env, paths, n, n);
      forall i | 0 <= i < |paths| && env.parse(paths[i]).Some?
        ensures Parseable(env, paths, i) < |urls| && env.parse(paths[i]) == Some(urls[Parseable(env, paths, i)])
      {
        if i < n {
          assert front[i] == paths[i];
          ParseableOfPrefix(env, paths, i, n);
        }
      }
    }
  }

  lemma {:induction false} NoUrls(env: Env)
    ensures Urls(env, []) == []
  {
  }

  /** The position of a URL among the paths. */
  lemma {:induction false} PathOf(env: Env, paths: seq<string>, n: nat, k: nat) returns (i: nat)
    requires n <= |paths| && k < Parseable(env, paths, n)
    ensures i < n && env.parse(paths[i]).Some? && Parseable(env, paths, i) == k
  {
    if k < Parseable(env, paths, n - 1) {
      i := PathOf(env, paths, n - 1, k);
    } else {
      i := n - 1;
    }
  }

  /** The paths determine the URLs. */
  lemma {:induction false} UrlsAreDetermined(env: Env, paths: seq<string>, urls: seq<string>)
    requires OneUrlPerPath(env, paths, urls)
    ensures urls == Urls(env, paths)
  {
    hide Urls;
    UrlsMean(env, paths);
    forall k | 0 <= k < |urls| ensures urls[k] == Urls(env, paths)[k] {
      var i := PathOf(env, paths, |paths|, k);
    }
  }

  /**
   What a table over paths is: none exactly if no path parses; otherwise one over the URLs of the paths
   that parse, one each and in path order, or an error exactly if the constructor refuses that list.
   */
  ghost predicate IsTableOver(env: Env, paths: seq<string>, out: Outcome) {
    && (out == Ok(None) <==> forall i :: 0 <= i < |paths| ==> env.parse(paths[i]).None?)
    && (out.Ok? && out.value.Some? ==> OneUrlPerPath(env, paths, out.value.value.urls) && env.accepts(out.value.value.urls))
    && (out.Err? ==> forall urls :: OneUrlPerPath(env, paths, urls) ==> !env.accepts(urls))
  }

  lemma {:induction false} TableOverMeans(env: Env, paths: seq<string>)
    ensures IsTableOver(env, paths, TableOver(env, paths))
  {
    hide Urls;
    var urls := Urls(env, paths);
    UrlsMean(env, paths);
    if urls == [] {
      forall i | 0 <= i < |paths| ensures env.parse(paths[i]).None? {
        assert |urls| == 0;
      }
    } else {
      var i := PathOf(env, paths, |paths|, 0);
    }
    if TableOver(env, paths).Err? {
      forall other | OneUrlPerPath(env, paths, other) ensures !env.accepts(other) {
        UrlsAreDetermined(env, paths, other);
      }
    }
  }

  /** The parsing loop: a path that does not parse is skipped. */
  method ParseAll(env: Env, paths: seq<string>) returns (urls: seq<string>)
    ensures urls == Urls(env, paths)
  {
    urls := [];
    for i := 0 to |paths|
      invariant urls == Urls(env, paths[..i])
    {
      UrlsSnoc(env, paths, i);
      match env.parse(paths[i]) {
        case Some(url) => urls := urls + [url];
        case None =>
      }
    }
    assert paths[..|paths|] == paths;
  }

  /** `build_table`: one unusable path is skipped, it never takes down the table. */
  method BuildTable(env: Env, paths: seq<string>) returns (r: Outcome)
    ensures r == TableOver(env, paths) && IsTableOver(env, paths, r)
  {
    TableOverMeans(env, paths);
    if paths == [] {
      return Ok(None);
    }
    var urls := ParseAll(env, paths);
    if urls == [] {
      return Ok(None);
    }
    if env.accepts(urls) {
      r := Ok(Some(Table(urls)));
    } else {
      r := Err(TableRejected);
    }
  }

  predicate Fresh(env: Env, l: Listing, now: nat) {
    l.lastRefresh != 0 && SaturatingSub(now, l.lastRefresh) < env.interval
  }

  /** The write-locked tail of `current_table`, for a task that read `now` on entry. */
  function Commit(env: Env, l: Listing, now: nat, clock: nat, paths: seq<string>): (Listing, Outcome) {
    if Fresh(env, l, clock) && l.paths == paths then
      (l, Ok(l.table))
    else if l.table.Some? && l.paths == paths then
      (l.(lastRefresh := now), Ok(l.table))
    else
      var r := TableOver(env, paths);
      if r.Ok? then (Listing(paths, r.value, now), r) else (l, r)
  }

  /** The shared listing, with the two critical sections of `current_table`. */
  class LiveTable {
    var paths: seq<string>
    var table: Option<Table>
    var lastRefresh: nat

    function View(): Listing
      reads this
    {
      Listing(paths, table, lastRefresh)
    }

    constructor ()
      ensures View() == EMPTY
    {
      paths, table, lastRefresh := [], None, 0;
    }

    method TryServe(env: Env, now: nat) returns (served: Option<Option<Table>>)
      ensures served == if Fresh(env, View(), now) then Some(table) else None
    {
      if lastRefresh != 0 && SaturatingSub(now, lastRefresh) < env.interval {
        served := Some(table);
      } else {
        served := None;
      }
    }

    method CommitResolved(env: Env, now: nat, clock: nat, resolved: seq<string>) returns (r: Outcome)
      modifies this
      ensures (View(), r) == Commit(env, old(View()), now, clock, resolved)
    {
      if lastRefresh != 0 && SaturatingSub(clock, lastRefresh) < env.interval && paths == resolved {
        return Ok(table);
      }
      if table.Some? && paths == resolved {
        lastRefresh := now;
        return Ok(table);
      }
      r := BuildTable(env, resolved);
      if r.Ok? {
        paths := resolved;
        table := r.value;
        lastRefresh := now;
      }
    }
  }

  /** One resolution: when it was asked for, when it answered, and with which paths. */
  datatype Resolution = Resolution(began: nat, ended: nat, paths: seq<string>)

  datatype Phase =
    | Called(now: nat)
    | Stale(now: nat)
    | Resolving(now: nat, began: nat)
    | Resolved(now: nat, res: Resolution)
    | Returned(now: nat, out: Outcome, res: Resolution)

  /** `origin` records where `listing.paths` came from and `answers` all resolutions; nothing in the code reads them. */
  datatype State = State(clock: nat, listing: Listing, tasks: map<nat, Phase>, origin: Resolution, answers: set<Resolution>)

  datatype Step =
    | Tick(elapsed: nat)
    | Call(task: nat)
    | ReadLock(task: nat)
    | BeginResolve(task: nat)
    | EndResolve(task: nat, paths: seq<string>)
    | WriteLock(task: nat)

  const INIT := State(0, EMPTY, map[], Resolution(0, 0, []), {})

  /** One step of one task or of the clock; a step that is not enabled changes nothing. */
  function Apply(env: Env, s: State, step: Step): State {
    match step
    case Tick(elapsed) => s.(clock := s.clock + elapsed)
    case Call(t) =>
      if t in s.tasks then s else s.(tasks := s.tasks[t := Called(s.clock)])
    case ReadLock(t) =>
      if t in s.tasks && s.tasks[t].Called? then
        var now := s.tasks[t].now;
        s.(tasks := s.tasks[t :=
          if Fresh(env, s.listing, now) then Returned(now, Ok(s.listing.table), s.origin) else Stale(now)])
      else s
    case BeginResolve(t) =>
      if t in s.tasks && s.tasks[t].Stale? then
        s.(tasks := s.tasks[t := Resolving(s.tasks[t].now, s.clock)])
      else s
    case EndResolve(t, paths) =>
      if t in s.tasks && s.tasks[t].Resolving? then
        var res := Resolution(s.tasks[t].began, s.clock, paths);
        s.(tasks := s.tasks[t := Resolved(s.tasks[t].now, res)], answers := s.answers + {res})
      else s
    case WriteLock(t) =>
      if t in s.tasks && s.tasks[t].Resolved? then
        var Resolved(now, res) := s.tasks[t];
        var (l, out) := Commit(env, s.listing, now, s.clock, res.paths);
        s.(listing := l, tasks := s.tasks[t := Returned(now, out, res)],
           origin := if l == s.listing then s.origin else res)
      else s
  }

  /** The listing was refreshed less than one interval before. */
  predicate Recent(env: Env, l: Listing, at: nat) {
    l.lastRefresh != 0 && at < l.lastRefresh + env.interval
  }

  /** A call is served from the listing, without a resolution, exactly while the listing is recent. */
  lemma {:induction false} ServedIffRecent(env: Env, s: State, t: nat)
    requires t in s.tasks && s.tasks[t].Called? && env.interval > 0
    ensures var now, after := s.tasks[t].now, Apply(env, s, ReadLock(t));
            && after.listing == s.listing
            && after.tasks == s.tasks[t := if Recent(env, s.listing, now) then Returned(now, Ok(s.listing.table), s.origin) else Stale(now)]
  {
  }

  /**
   After a resolution the listing has its paths and the table that is returned, and counts as refreshed when
   the call was made, unless it is recent and has those paths anyway. A table that is there for the same
   paths is not built again, and an error leaves the listing alone.
   */
  lemma {:induction false} CommitMeans(env: Env, l: Listing, now: nat, clock: nat, paths: seq<string>)
    requires env.interval > 0
    ensures var (after, out) := Commit(env, l, now, clock, paths);
            && (out.Err? ==> after == l)
            && (out.Ok? ==> after == Listing(paths, out.value, if l.paths == paths && Recent(env, l, clock) then l.lastRefresh else now))
            && (l.paths == paths && (l.table.Some? || Recent(env, l, clock)) ==> out == Ok(l.table))
            && (l.paths != paths || (l.table.None? && !Recent(env, l, clock)) ==> out == TableOver(env, paths))
  {
  }

  function Run(env: Env, steps: seq<Step>): State {
    if steps == [] then INIT else Apply(env, Run(env, steps[..|steps| - 1]), steps[|steps| - 1])
  }

  /** The resolution took place, between two instants of the past. */
  predicate Happened(s: State, res: Resolution) {
    res in s.answers && res.began <= res.ended <= s.clock
  }

  /** `res` is recent enough for a call that read the clock at `now`. */
  predicate RecentFor(env: Env, res: Resolution, now: nat) {
    res.began >= now || res.began + env.interval > now
  }

  /** The listing never claims to be newer than the resolution it came from. */
  predicate ListingInv(env: Env, s: State) {
    s.listing.lastRefresh != 0 || s.listing.table.Some? ==>
      && Happened(s, s.origin)
      && s.listing.lastRefresh <= s.origin.began
      && s.listing.paths == s.origin.paths
      && TableOver(env, s.listing.paths) == Ok(s.listing.table)
  }

  predicate PhaseInv(env: Env, s: State, p: Phase) {
    match p
    case Called(now) => now <= s.clock
    case Stale(now) => now <= s.clock
    case Resolving(now, began) => now <= began <= s.clock
    case Resolved(now, res) => now <= res.began && Happened(s, res)
    case Returned(now, out, res) => Happened(s, res) && RecentFor(env, res, now) && out == TableOver(env, res.paths)
  }

  ghost predicate Inv(env: Env, s: State) {
    && ListingInv(env, s)
    && forall t :: t in s.tasks ==> PhaseInv(env, s, s.tasks[t])
  }

  lemma {:induction false} ApplyKeepsInv(env: Env, s: State, step: Step)
    requires Inv(env, s)
    ensures Inv(env, Apply(env, s, step))
  {
    hide TableOver;
    var s' := Apply(env, s, step);
    if !step.Tick? && step.task in s.tasks {
      assert PhaseInv(env, s, s.tasks[step.task]);
    }
    forall t | t in s'.tasks
      ensures PhaseInv(env, s', s'.tasks[t])
    {
      if t in s.tasks {
        assert PhaseInv(env, s, s.tasks[t]);
      }
    }
  }

  lemma {:induction false} RunInv(env: Env, steps: seq<Step>)
    ensures Inv(env, Run(env, steps))
  {
    if steps != [] {
      hide Apply, Inv;
      RunInv(env, steps[..|steps| - 1]);
      ApplyKeepsInv(env, Run(env, steps[..|steps| - 1]), steps[|steps| - 1]);
    }
  }

  /**
   Bounded staleness: whatever the interleaving and whatever the source answers, a call that read
   `now` returns exactly the table over the paths that a resolution gave which took place and began
   less than one refresh interval before `now` (or after it).
   */
  lemma {:induction false} BoundedStaleness(env: Env, steps: seq<Step>, t: nat)
    requires t in Run(env, steps).tasks && Run(env, steps).tasks[t].Returned?
    ensures var Returned(now, out, res) := Run(env, steps).tasks[t];
            && Happened(Run(env, steps), res)
            && (res.began >= now || res.began + env.interval > now)
            && IsTableOver(env, res.paths, out)
            && out == TableOver(env, res.paths)
  {
    hide Run, IsTableOver;
    RunInv(env, steps);
    TableOverMeans(env, Run(env, steps).tasks[t].res.paths);
  }

  /** Every resolution of the run that began at `since` or later finds the path. */
  ghost predicate VisibleSince(s: State, path: string, since: nat) {
    forall res :: res in s.answers && res.began >= since ==> path in res.paths
  }

  /**
   What the provider is for: a usable segment that every resolution finds from some instant on is in
   the table of every call made an interval later.
   */
  lemma {:induction false} NoSegmentStaysInvisible(env: Env, steps: seq<Step>, t: nat, path: string, since: nat)
    requires t in Run(env, steps).tasks && Run(env, steps).tasks[t].Returned?
    requires Run(env, steps).tasks[t].out.Ok?
    requires since + env.interval <= Run(env, steps).tasks[t].now
    requires VisibleSince(Run(env, steps), path, since) && env.parse(path).Some?
    ensures Run(env, steps).tasks[t].out.value.Some?
    ensures env.parse(path).value in Run(env, steps).tasks[t].out.value.value.urls
  {
    hide Run;
    BoundedStaleness(env, steps, t);
    var res := Run(env, steps).tasks[t].res;
    assert path in res.paths;
    assert env.parse(path).value in Urls(env, res.paths);
  }

  /** A slow task may put back an older listing, and the claim above still holds for later readers. */
  lemma {:induction false} ServedFromListingIsRecent(env: Env, steps: seq<Step>, now: nat)
    requires Fresh(env, Run(env, steps).listing, now)
    ensures var s := Run(env, steps);
            && Happened(s, s.origin) && s.listing.paths == s.origin.paths
            && s.origin.began + env.interval > now
            && IsTableOver(env, s.listing.paths, Ok(s.listing.table))
  {
    hide Run, IsTableOver;
    RunInv(env, steps);
    TableOverMeans(env, Run(env, steps).listing.paths);
  }
}
