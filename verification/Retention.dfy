/** Which backups a schedule's retention policy keeps. */
module Retention {
  import opened Sequences

  /** Timestamps are instants in nanoseconds. */
  const DAY := 24 * 60 * 60 * 1_000_000_000

  datatype Backup = Backup(id: string, time: int)

  datatype Policy = Policy(
    keepAllDays: nat, keepDailyDays: nat, keepWeeklyWeeks: nat,
    keepMonthlyMonths: nat, keepYearlyYears: nat, minimumBackups: nat)

  datatype Cutoffs = Cutoffs(all: int, daily: int, weekly: int, monthly: int, yearly: int)

  /** The date, ISO week, month and year an instant falls in. */
  datatype Calendar = Calendar(day: int -> int, week: int -> int, month: int -> int, year: int -> int)

  function CutoffsOf(p: Policy, now: int): Cutoffs {
    Cutoffs(
      now - p.keepAllDays * DAY, now - p.keepDailyDays * DAY, now - p.keepWeeklyWeeks * 7 * DAY,
      now - p.keepMonthlyMonths * 30 * DAY, now - p.keepYearlyYears * 365 * DAY)
  }

  /** One backup per bucket is kept among those from `lo` up to but not including `hi`. */
  datatype Window = Window(lo: int, hi: int, bucket: int -> int)

  function Windows(c: Cutoffs, cal: Calendar): (ws: seq<Window>)
    ensures |ws| == 4
  {
    [Window(c.daily, c.all, cal.day), Window(c.weekly, c.daily, cal.week),
     Window(c.monthly, c.weekly, cal.month), Window(c.yearly, c.monthly, cal.year)]
  }

  predicate InWindow(w: Window, b: Backup) {
    w.lo <= b.time < w.hi
  }

  predicate SameBucket(w: Window, a: Backup, b: Backup) {
    w.bucket(a.time) == w.bucket(b.time)
  }

  // ---- What each loop collects ----

  function KeepAll(bs: seq<Backup>, cutoff: int): seq<string> {
    if bs == [] then []
    else
      var front, b := KeepAll(bs[..|bs| - 1], cutoff), bs[|bs| - 1];
      if b.time >= cutoff then front + [b.id] else front
  }

  /** The backup is the first of its bucket in the window, in list order. */
  predicate Chosen(bs: seq<Backup>, w: Window, i: nat)
    requires i < |bs|
  {
    InWindow(w, bs[i]) && forall j :: 0 <= j < i && InWindow(w, bs[j]) ==> !SameBucket(w, bs[j], bs[i])
  }

  function FirstPerBucket(bs: seq<Backup>, w: Window): seq<string> {
    if bs == [] then []
    else
      var n := |bs| - 1;
      var front := FirstPerBucket(bs[..n], w);
      if Chosen(bs, w, n) then front + [bs[n].id] else front
  }

  function PerBucket(bs: seq<Backup>, ws: seq<Window>): seq<string> {
    if ws == [] then [] else PerBucket(bs, ws[..|ws| - 1]) + FirstPerBucket(bs, ws[|ws| - 1])
  }

  predicate Newer(a: Backup, b: Backup) {
    a.time > b.time
  }

  function AddMissing(keep: seq<string>, bs: seq<Backup>): seq<string> {
    if bs == [] then keep
    else
      var front, b := AddMissing(keep, bs[..|bs| - 1]), bs[|bs| - 1];
      if b.id in front then front else front + [b.id]
  }

  /** `identify_backups_to_keep` */
  function Keep(bs: seq<Backup>, c: Cutoffs, cal: Calendar, minimum: nat): seq<string> {
    AddMissing(KeepAll(bs, c.all) + PerBucket(bs, Windows(c, cal)), Truncate(SortBy(Newer, bs), minimum))
  }

  // ---- The loops ----

  method KeepRecent(bs: seq<Backup>, cutoff: int) returns (keep: seq<string>)
    ensures keep == KeepAll(bs, cutoff)
  {
    keep := [];
    for i := 0 to |bs|
      invariant keep == KeepAll(bs[..i], cutoff)
    {
      assert bs[..i + 1][..i] == bs[..i];
      if bs[i].time >= cutoff {
        keep := keep + [bs[i].id];
      }
    }
    assert bs[..|bs|] == bs;
  }

  /** One of the four bucket loops, with its set of buckets already served. */
  method KeepFirstPerBucket(bs: seq<Backup>, w: Window, keep: seq<string>) returns (r: seq<string>)
    ensures r == keep + FirstPerBucket(bs, w)
  {
    r := keep;
    var seen: set<int> := {};
    for i := 0 to |bs|
      invariant r == keep + FirstPerBucket(bs[..i], w)
      invariant forall d :: d in seen <==> exists j :: 0 <= j < i && InWindow(w, bs[j]) && w.bucket(bs[j].time) == d
    {
      assert bs[..i + 1][..i] == bs[..i];
      if w.lo <= bs[i].time < w.hi {
        var d := w.bucket(bs[i].time);
        assert d !in seen <==> Chosen(bs[..i + 1], w, i);
        if d !in seen {
          seen := seen + {d};
          r := r + [bs[i].id];
        }
      }
    }
    assert bs[..|bs|] == bs;
  }

  method IdentifyBackupsToKeep(bs: seq<Backup>, policy: Policy, now: int, cal: Calendar) returns (keep: seq<string>)
    ensures keep == Keep(bs, CutoffsOf(policy, now), cal, policy.minimumBackups)
  {
    hide KeepAll, FirstPerBucket, CutoffsOf, SortBy;
    var c := CutoffsOf(policy, now);
    ghost var ws := Windows(c, cal);
    PerBucketFour(bs, ws);
    keep := KeepRecent(bs, c.all);
    keep := KeepFirstPerBucket(bs, Window(c.daily, c.all, cal.day), keep);
    keep := KeepFirstPerBucket(bs, Window(c.weekly, c.daily, cal.week), keep);
    keep := KeepFirstPerBucket(bs, Window(c.monthly, c.weekly, cal.month), keep);
    keep := KeepFirstPerBucket(bs, Window(c.yearly, c.monthly, cal.year), keep);
    ghost var bucketed := keep;
    assert bucketed == KeepAll(bs, c.all) + PerBucket(bs, ws);
    var newest := Truncate(SortBy(Newer, bs), policy.minimumBackups);
    for i := 0 to |newest|
      invariant keep == AddMissing(bucketed, newest[..i])
    {
      assert newest[..i + 1][..i] == newest[..i];
      if newest[i].id !in keep {
        keep := keep + [newest[i].id];
      }
    }
    assert newest[..|newest|] == newest;
  }

  lemma {:induction false} PerBucketStep(bs: seq<Backup>, ws: seq<Window>, n: nat)
    requires 1 <= n <= |ws|
    ensures PerBucket(bs, ws[..n]) == PerBucket(bs, ws[..n - 1]) + FirstPerBucket(bs, ws[n - 1])
  {
    assert ws[..n][..n - 1] == ws[..n - 1];
  }

  lemma {:induction false} PerBucketFour(bs: seq<Backup>, ws: seq<Window>)
    requires |ws| == 4
    ensures PerBucket(bs, ws) == FirstPerBucket(bs, ws[0]) + FirstPerBucket(bs, ws[1]) +
                                 FirstPerBucket(bs, ws[2]) + FirstPerBucket(bs, ws[3])
  {
    hide FirstPerBucket;
    assert ws[..4] == ws && ws[..0] == [];
    forall n | 1 <= n <= 4 ensures PerBucket(bs, ws[..n]) == PerBucket(bs, ws[..n - 1]) + FirstPerBucket(bs, ws[n - 1]) {
      PerBucketStep(bs, ws, n);
    }
    assert PerBucket(bs, ws[..0]) == [];
    assert PerBucket(bs, ws[..1]) == FirstPerBucket(bs, ws[0]);
    assert PerBucket(bs, ws[..2]) == FirstPerBucket(bs, ws[0]) + FirstPerBucket(bs, ws[1]);
    assert PerBucket(bs, ws[..3]) == FirstPerBucket(bs, ws[0]) + FirstPerBucket(bs, ws[1]) + FirstPerBucket(bs, ws[2]);
  }

  // ---- What is kept ----

  predicate UniqueIds(bs: seq<Backup>) {
    forall i, j :: 0 <= i < j < |bs| ==> bs[i].id != bs[j].id
  }

  predicate NewestFirst(bs: seq<Backup>) {
    forall i, j :: 0 <= i < j < |bs| ==> bs[i].time >= bs[j].time
  }

  lemma {:induction false} InKeepAll(bs: seq<Backup>, cutoff: int, id: string)
    ensures id in KeepAll(bs, cutoff) <==> exists i :: 0 <= i < |bs| && bs[i].time >= cutoff && bs[i].id == id
  {
    if bs != [] {
      var n := |bs| - 1;
      InKeepAll(bs[..n], cutoff, id);
      if i :| 0 <= i < n && bs[i].time >= cutoff && bs[i].id == id {
        assert bs[..n][i] == bs[i];
      }
    }
  }

  lemma {:induction false} InFirstPerBucket(bs: seq<Backup>, w: Window, id: string)
    ensures id in FirstPerBucket(bs, w) <==> exists i :: 0 <= i < |bs| && Chosen(bs, w, i) && bs[i].id == id
  {
    if bs != [] {
      var n := |bs| - 1;
      InFirstPerBucket(bs[..n], w, id);
      forall i | 0 <= i < n ensures Chosen(bs[..n], w, i) <==> Chosen(bs, w, i) {
        ChosenPrefix(bs, w, n, i);
      }
      if id in FirstPerBucket(bs[..n], w) {
        var i :| 0 <= i < n && Chosen(bs[..n], w, i) && bs[..n][i].id == id;
        assert Chosen(bs, w, i) && bs[i].id == id;
      }
      if i :| 0 <= i < n && Chosen(bs, w, i) && bs[i].id == id {
        assert Chosen(bs[..n], w, i) && bs[..n][i].id == id;
      }
    }
  }

  lemma {:induction false} ChosenPrefix(bs: seq<Backup>, w: Window, n: nat, i: nat)
    requires i < n <= |bs|
    ensures Chosen(bs[..n], w, i) <==> Chosen(bs, w, i)
  {
    var front := bs[..n];
    assert forall j :: 0 <= j <= i ==> front[j] == bs[j];
    if Chosen(front, w, i) {
      forall j | 0 <= j < i && InWindow(w, bs[j]) ensures !SameBucket(w, bs[j], bs[i]) {
        assert InWindow(w, front[j]);
      }
    }
  }

  lemma {:induction false} InPerBucket(bs: seq<Backup>, ws: seq<Window>, id: string)
    ensures id in PerBucket(bs, ws) <==> exists k :: 0 <= k < |ws| && id in FirstPerBucket(bs, ws[k])
  {
    hide FirstPerBucket;
    if ws != [] {
      var n := |ws| - 1;
      InPerBucket(bs, ws[..n], id);
      if k :| 0 <= k < n && id in FirstPerBucket(bs, ws[k]) {
        assert ws[..n][k] == ws[k];
      }
    }
  }

  lemma {:induction false} InAddMissing(keep: seq<string>, bs: seq<Backup>, id: string)
    ensures id in AddMissing(keep, bs) <==> id in keep || exists i :: 0 <= i < |bs| && bs[i].id == id
  {
    if bs != [] {
      var n := |bs| - 1;
      InAddMissing(keep, bs[..n], id);
      if i :| 0 <= i < n && bs[i].id == id {
        assert bs[..n][i] == bs[i];
      }
    }
  }

  /** Sorting a list that is already newest first changes nothing. */
  lemma {:induction false} SortedAlready(bs: seq<Backup>)
    requires NewestFirst(bs)
    ensures SortBy(Newer, bs) == bs
  {
    if bs != [] {
      SortedAlready(bs[1..]);
      assert |bs| > 1 ==> !Newer(bs[1..][0], bs[0]);
      assert bs == [bs[0]] + bs[1..];
    }
  }

  /** The backup is in the period, and no other one there with the same bucket is newer, nor as new and listed earlier. */
  ghost predicate NewestIn(bs: seq<Backup>, from: int, until: int, bucket: int -> int, i: nat)
    requires i < |bs|
  {
    && from <= bs[i].time < until
    && forall j :: 0 <= j < |bs| && from <= bs[j].time < until && bucket(bs[j].time) == bucket(bs[i].time) ==>
         bs[j].time < bs[i].time || (bs[j].time == bs[i].time && i <= j)
  }

  lemma {:induction false} ChosenIsNewest(bs: seq<Backup>, w: Window, i: nat)
    requires NewestFirst(bs) && i < |bs|
    ensures Chosen(bs, w, i) <==> NewestIn(bs, w.lo, w.hi, w.bucket, i)
  {
    if NewestIn(bs, w.lo, w.hi, w.bucket, i) {
      forall j | 0 <= j < i && InWindow(w, bs[j]) ensures !SameBucket(w, bs[j], bs[i]) {
        assert bs[j].time >= bs[i].time;
      }
    }
  }

  lemma {:induction false} KeptByWindow(bs: seq<Backup>, w: Window, i: nat)
    requires UniqueIds(bs) && NewestFirst(bs) && i < |bs|
    ensures bs[i].id in FirstPerBucket(bs, w) <==> NewestIn(bs, w.lo, w.hi, w.bucket, i)
  {
    hide FirstPerBucket, Chosen, NewestIn, NewestFirst;
    InFirstPerBucket(bs, w, bs[i].id);
    ChosenIsNewest(bs, w, i);
  }

  /**
   Kept are exactly the backups since the first cutoff, the newest of each day down to the daily cutoff, of
   each week to the weekly one, of each month to the monthly one and of each year to the yearly one, and the
   newest few overall.
   */
  lemma {:induction false} KeepsExactly(bs: seq<Backup>, c: Cutoffs, cal: Calendar, minimum: nat, i: nat)
    requires UniqueIds(bs) && NewestFirst(bs) && i < |bs|
    ensures bs[i].id in Keep(bs, c, cal, minimum) <==>
            || bs[i].time >= c.all
            || NewestIn(bs, c.daily, c.all, cal.day, i)
            || NewestIn(bs, c.weekly, c.daily, cal.week, i)
            || NewestIn(bs, c.monthly, c.weekly, cal.month, i)
            || NewestIn(bs, c.yearly, c.monthly, cal.year, i)
            || i < minimum
  {
    hide KeepAll, FirstPerBucket, PerBucket, AddMissing, SortBy, NewestIn, NewestFirst;
    var ws, id := Windows(c, cal), bs[i].id;
    SortedAlready(bs);
    InAddMissing(KeepAll(bs, c.all) + PerBucket(bs, ws), Truncate(bs, minimum), id);
    InKeepAll(bs, c.all, id);
    PerBucketFour(bs, ws);
    KeptByWindow(bs, ws[0], i);
    KeptByWindow(bs, ws[1], i);
    KeptByWindow(bs, ws[2], i);
    KeptByWindow(bs, ws[3], i);
    if i < minimum {
      assert Truncate(bs, minimum)[i] == bs[i];
    }
  }

  /** Every id kept is the id of one of the backups. */
  lemma {:induction false} NothingInvented(bs: seq<Backup>, c: Cutoffs, cal: Calendar, minimum: nat, id: string)
    requires id in Keep(bs, c, cal, minimum)
    ensures exists i :: 0 <= i < |bs| && bs[i].id == id
  {
    hide KeepAll, FirstPerBucket, PerBucket, AddMissing, SortBy, Chosen;
    var ws, newest := Windows(c, cal), Truncate(SortBy(Newer, bs), minimum);
    InAddMissing(KeepAll(bs, c.all) + PerBucket(bs, ws), newest, id);
    InKeepAll(bs, c.all, id);
    InPerBucket(bs, ws, id);
    if k :| 0 <= k < 4 && id in FirstPerBucket(bs, ws[k]) {
      InFirstPerBucket(bs, ws[k], id);
    } else if j :| 0 <= j < |newest| && newest[j].id == id {
      SortByContents(Newer, bs);
      assert newest[j] in multiset(SortBy(Newer, bs));
      assert newest[j] in bs;
    }
  }

  // ---- No id twice ----

  /** The five selections by age: everything recent, then the four windows. */
  predicate InSlot(c: Cutoffs, cal: Calendar, k: nat, time: int)
    requires k <= 4
  {
    if k == 0 then time >= c.all else InWindow(Windows(c, cal)[k - 1], Backup("", time))
  }

  ghost predicate DisjointSlots(c: Cutoffs, cal: Calendar) {
    forall j, k, t :: 0 <= j < k <= 4 ==> !(InSlot(c, cal, j, t) && InSlot(c, cal, k, t))
  }

  /** Where a slot begins; each one but the first ends where the one before begins. */
  function SlotLow(c: Cutoffs, k: nat): int
    requires k <= 4
  {
    if k == 0 then c.all else if k == 1 then c.daily else if k == 2 then c.weekly else if k == 3 then c.monthly else c.yearly
  }

  /** The later slot, the earlier one or their overlap is empty. */
  predicate PairApart(c: Cutoffs, j: nat, k: nat)
    requires j < k <= 4
  {
    var begin := Max(SlotLow(c, j), SlotLow(c, k));
    SlotLow(c, k - 1) <= begin || (j > 0 && SlotLow(c, j - 1) <= begin)
  }

  predicate CutoffsApart(c: Cutoffs) {
    forall j, k :: 0 <= j < k <= 4 ==> PairApart(c, j, k)
  }

  lemma {:induction false} SlotBounds(c: Cutoffs, cal: Calendar, k: nat, t: int)
    requires k <= 4
    ensures InSlot(c, cal, k, t) <==> SlotLow(c, k) <= t && (k > 0 ==> t < SlotLow(c, k - 1))
  {
  }

  /** Two slots that are not apart share the later of their beginnings. */
  lemma {:induction false} PairApartIff(c: Cutoffs, cal: Calendar, j: nat, k: nat)
    requires j < k <= 4
    ensures PairApart(c, j, k) <==> forall t :: !(InSlot(c, cal, j, t) && InSlot(c, cal, k, t))
  {
    hide InSlot, SlotLow;
    var begin := Max(SlotLow(c, j), SlotLow(c, k));
    SlotBounds(c, cal, j, begin);
    SlotBounds(c, cal, k, begin);
    if PairApart(c, j, k) {
      forall t ensures !(InSlot(c, cal, j, t) && InSlot(c, cal, k, t)) {
        SlotBounds(c, cal, j, t);
        SlotBounds(c, cal, k, t);
      }
    }
  }

  /** Ten comparisons of the five cutoffs decide whether any instant lies in two slots. */
  lemma {:induction false} DisjointSlotsIff(c: Cutoffs, cal: Calendar)
    ensures DisjointSlots(c, cal) <==> CutoffsApart(c)
  {
    hide InSlot, PairApart;
    if DisjointSlots(c, cal) {
      forall j, k | 0 <= j < k <= 4 ensures PairApart(c, j, k) {
        PairApartIff(c, cal, j, k);
      }
    } else {
      var j, k, t :| 0 <= j < k <= 4 && InSlot(c, cal, j, t) && InSlot(c, cal, k, t);
      PairApartIff(c, cal, j, k);
    }
  }

  /** The cutoffs of a policy in days before now. */
  function Periods(p: Policy): Cutoffs {
    var all: int, daily: int, weeks: int := p.keepAllDays, p.keepDailyDays, p.keepWeeklyWeeks;
    var months: int, years: int := p.keepMonthlyMonths, p.keepYearlyYears;
    Cutoffs(0 - all, 0 - daily, 0 - 7 * weeks, 0 - 30 * months, 0 - 365 * years)
  }

  lemma {:induction false} ScaleLow(p: Policy, now: int, k: nat)
    requires k <= 4
    ensures SlotLow(CutoffsOf(p, now), k) == now + SlotLow(Periods(p), k) * DAY
  {
  }

  lemma {:induction false} ScaleApart(p: Policy, now: int)
    ensures CutoffsApart(CutoffsOf(p, now)) <==> CutoffsApart(Periods(p))
  {
    hide SlotLow, CutoffsOf, Periods;
    forall j, k | 0 <= j < k <= 4 ensures PairApart(CutoffsOf(p, now), j, k) <==> PairApart(Periods(p), j, k) {
      ScaleLow(p, now, j);
      ScaleLow(p, now, k);
      ScaleLow(p, now, k - 1);
      if j > 0 {
        ScaleLow(p, now, j - 1);
      }
    }
  }

  predicate Ordered(c: Cutoffs) {
    c.yearly <= c.monthly <= c.weekly <= c.daily <= c.all
  }

  lemma {:induction false} OrderedIsDisjoint(c: Cutoffs, cal: Calendar)
    requires Ordered(c)
    ensures DisjointSlots(c, cal)
  {
  }

  lemma {:induction false} OrderedPolicyIff(p: Policy, now: int)
    ensures Ordered(CutoffsOf(p, now)) <==>
            p.keepAllDays <= p.keepDailyDays <= 7 * p.keepWeeklyWeeks <= 30 * p.keepMonthlyMonths <= 365 * p.keepYearlyYears
  {
  }

  /** What the k-th selection collects. */
  function Slot(bs: seq<Backup>, c: Cutoffs, cal: Calendar, k: nat): seq<string>
    requires k <= 4
  {
    if k == 0 then KeepAll(bs, c.all) else FirstPerBucket(bs, Windows(c, cal)[k - 1])
  }

  lemma {:induction false} KeepAllDistinct(bs: seq<Backup>, cutoff: int)
    requires UniqueIds(bs)
    ensures Distinct(KeepAll(bs, cutoff))
  {
    if bs != [] {
      var n := |bs| - 1;
      KeepAllDistinct(bs[..n], cutoff);
      InKeepAll(bs[..n], cutoff, bs[n].id);
    }
  }

  lemma {:induction false} FirstPerBucketDistinct(bs: seq<Backup>, w: Window)
    requires UniqueIds(bs)
    ensures Distinct(FirstPerBucket(bs, w))
  {
    if bs != [] {
      var n := |bs| - 1;
      FirstPerBucketDistinct(bs[..n], w);
      InFirstPerBucket(bs[..n], w, bs[n].id);
    }
  }

  lemma {:induction false} SlotMembers(bs: seq<Backup>, c: Cutoffs, cal: Calendar, k: nat, id: string)
    requires k <= 4 && id in Slot(bs, c, cal, k)
    ensures exists i :: 0 <= i < |bs| && bs[i].id == id && InSlot(c, cal, k, bs[i].time)
  {
    hide KeepAll, FirstPerBucket;
    if k == 0 {
      InKeepAll(bs, c.all, id);
    } else {
      InFirstPerBucket(bs, Windows(c, cal)[k - 1], id);
    }
  }

  lemma {:induction false} SlotsShareNothing(bs: seq<Backup>, c: Cutoffs, cal: Calendar, j: nat, k: nat, id: string)
    requires UniqueIds(bs) && DisjointSlots(c, cal) && j < k <= 4 && id in Slot(bs, c, cal, j)
    ensures id !in Slot(bs, c, cal, k)
  {
    hide Slot, InSlot;
    SlotMembers(bs, c, cal, j, id);
    if id in Slot(bs, c, cal, k) {
      SlotMembers(bs, c, cal, k, id);
    }
  }

  /** The first slots one after the other. */
  function Slots(bs: seq<Backup>, c: Cutoffs, cal: Calendar, n: nat): seq<string>
    requires n <= 5
  {
    if n == 0 then [] else Slots(bs, c, cal, n - 1) + Slot(bs, c, cal, n - 1)
  }

  lemma {:induction false} SlotsAre(bs: seq<Backup>, c: Cutoffs, cal: Calendar, n: nat)
    requires 1 <= n <= 5
    ensures Slots(bs, c, cal, n) == KeepAll(bs, c.all) + PerBucket(bs, Windows(c, cal)[..n - 1])
  {
    hide KeepAll, FirstPerBucket, Windows;
    if n == 1 {
      assert Slots(bs, c, cal, 1) == [] + KeepAll(bs, c.all);
    } else {
      SlotsAre(bs, c, cal, n - 1);
      PerBucketStep(bs, Windows(c, cal), n - 1);
    }
  }

  lemma {:induction false} KeepIsSlots(bs: seq<Backup>, c: Cutoffs, cal: Calendar, minimum: nat)
    ensures Keep(bs, c, cal, minimum) == AddMissing(Slots(bs, c, cal, 5), Truncate(SortBy(Newer, bs), minimum))
  {
    hide KeepAll, AddMissing, SortBy, PerBucket, Slots;
    SlotsAre(bs, c, cal, 5);
    assert Windows(c, cal)[..4] == Windows(c, cal);
  }

  lemma {:induction false} InSlots(bs: seq<Backup>, c: Cutoffs, cal: Calendar, n: nat, id: string)
    requires n <= 5
    ensures id in Slots(bs, c, cal, n) <==> exists k :: 0 <= k < n && id in Slot(bs, c, cal, k)
  {
    hide Slot;
    if n > 0 {
      InSlots(bs, c, cal, n - 1, id);
    }
  }

  lemma {:induction false} SlotsDistinct(bs: seq<Backup>, c: Cutoffs, cal: Calendar, n: nat)
    requires UniqueIds(bs) && DisjointSlots(c, cal) && n <= 5
    ensures Distinct(Slots(bs, c, cal, n))
  {
    hide KeepAll, FirstPerBucket, InSlot, UniqueIds, DisjointSlots;
    if n > 0 {
      var front, last := Slots(bs, c, cal, n - 1), Slot(bs, c, cal, n - 1);
      SlotsDistinct(bs, c, cal, n - 1);
      if n == 1 {
        KeepAllDistinct(bs, c.all);
      } else {
        FirstPerBucketDistinct(bs, Windows(c, cal)[n - 2]);
      }
      forall id | id in front ensures id !in last {
        InSlots(bs, c, cal, n - 1, id);
        var k :| 0 <= k < n - 1 && id in Slot(bs, c, cal, k);
        SlotsShareNothing(bs, c, cal, k, n - 1, id);
      }
      DistinctAppend(front, last);
    }
  }

  lemma {:induction false} AddMissingDistinct(keep: seq<string>, bs: seq<Backup>)
    ensures Distinct(AddMissing(keep, bs)) <==> Distinct(keep)
    ensures keep <= AddMissing(keep, bs)
  {
    if bs != [] {
      var n := |bs| - 1;
      AddMissingDistinct(keep, bs[..n]);
      DistinctAppend(AddMissing(keep, bs[..n]), [bs[n].id]);
    }
  }

  /** With disjoint slots no id is listed twice. */
  lemma {:induction false} NoIdTwice(bs: seq<Backup>, c: Cutoffs, cal: Calendar, minimum: nat)
    requires UniqueIds(bs) && DisjointSlots(c, cal)
    ensures Distinct(Keep(bs, c, cal, minimum))
  {
    hide Slots, AddMissing, Keep, SortBy;
    KeepIsSlots(bs, c, cal, minimum);
    SlotsDistinct(bs, c, cal, 5);
    AddMissingDistinct(Slots(bs, c, cal, 5), Truncate(SortBy(Newer, bs), minimum));
  }

  /** A backup in two slots is listed twice when it is alone. */
  lemma {:induction false} OverlapListsTwice(c: Cutoffs, cal: Calendar, minimum: nat, j: nat, k: nat, t: int)
    requires j < k <= 4 && InSlot(c, cal, j, t) && InSlot(c, cal, k, t)
    ensures !Distinct(Keep([Backup("b", t)], c, cal, minimum))
  {
    hide AddMissing, Keep, SortBy, InSlot, Slot, Slots;
    var bs := [Backup("b", t)];
    AloneInSlot(c, cal, j, t);
    AloneInSlot(c, cal, k, t);
    SlotsNotDistinct(bs, c, cal, j, k, 5, "b");
    KeepIsSlots(bs, c, cal, minimum);
    AddMissingDistinct(Slots(bs, c, cal, 5), Truncate(SortBy(Newer, bs), minimum));
  }

  lemma {:induction false} AloneInSlot(c: Cutoffs, cal: Calendar, k: nat, t: int)
    requires k <= 4 && InSlot(c, cal, k, t)
    ensures "b" in Slot([Backup("b", t)], c, cal, k)
  {
    hide KeepAll, FirstPerBucket;
    var bs := [Backup("b", t)];
    assert bs[0].id == "b";
    if k == 0 {
      InKeepAll(bs, c.all, "b");
    } else {
      var w := Windows(c, cal)[k - 1];
      assert Chosen(bs, w, 0);
      InFirstPerBucket(bs, w, "b");
    }
  }

  lemma {:induction false} SlotsNotDistinct(bs: seq<Backup>, c: Cutoffs, cal: Calendar, j: nat, k: nat, n: nat, id: string)
    requires j < k < n <= 5 && id in Slot(bs, c, cal, j) && id in Slot(bs, c, cal, k)
    ensures !Distinct(Slots(bs, c, cal, n))
  {
    hide Slot, Distinct;
    DistinctAppend(Slots(bs, c, cal, n - 1), Slot(bs, c, cal, n - 1));
    if k == n - 1 {
      InSlots(bs, c, cal, n - 1, id);
    } else {
      SlotsNotDistinct(bs, c, cal, j, k, n - 1, id);
    }
  }

  /** Whatever the backups, no id is listed twice exactly when the cutoffs leave no instant in two slots. */
  lemma {:induction false} NeverTwiceIff(c: Cutoffs, cal: Calendar, minimum: nat)
    ensures (forall bs :: UniqueIds(bs) ==> Distinct(Keep(bs, c, cal, minimum))) <==> DisjointSlots(c, cal)
  {
    hide Keep, InSlot, Distinct;
    if DisjointSlots(c, cal) {
      forall bs | UniqueIds(bs) ensures Distinct(Keep(bs, c, cal, minimum)) {
        NoIdTwice(bs, c, cal, minimum);
      }
    } else {
      var j, k, t :| 0 <= j < k <= 4 && InSlot(c, cal, j, t) && InSlot(c, cal, k, t);
      OverlapListsTwice(c, cal, minimum, j, k, t);
      assert UniqueIds([Backup("b", t)]);
    }
  }

  /** A policy never lists an id twice, whatever the backups and the time, if and only if its periods are apart. */
  lemma {:induction false} PolicyNeverTwiceIff(p: Policy, now: int, cal: Calendar)
    ensures (forall bs :: UniqueIds(bs) ==> Distinct(Keep(bs, CutoffsOf(p, now), cal, p.minimumBackups))) <==> CutoffsApart(Periods(p))
  {
    hide Keep, Distinct, CutoffsOf, DisjointSlots, CutoffsApart, Periods;
    NeverTwiceIff(CutoffsOf(p, now), cal, p.minimumBackups);
    DisjointSlotsIff(CutoffsOf(p, now), cal);
    ScaleApart(p, now);
  }

  /** Periods in order are apart, but order is not needed: a policy may do without monthly and yearly backups. */
  lemma {:induction false} OrderIsNotNeeded(p: Policy, now: int)
    requires 0 < p.keepAllDays <= p.keepDailyDays <= 7 * p.keepWeeklyWeeks
    requires p.keepMonthlyMonths == 0 && p.keepYearlyYears == 0
    ensures CutoffsApart(Periods(p))
    ensures !Ordered(CutoffsOf(p, now))
  {
    hide CutoffsOf, Ordered;
    OrderedPolicyIff(p, now);
    forall j, k | 0 <= j < k <= 4 ensures PairApart(Periods(p), j, k) {
      assert k == 1 || k == 2 || k == 3 || k == 4;
    }
  }

  /** A policy that keeps daily backups for longer than weekly ones lists a backup twice. */
  lemma {:induction false} UnorderedPolicyListsTwice(cal: Calendar)
    ensures var p := Policy(0, 30, 1, 1, 0, 0);
            !Distinct(Keep([Backup("b", -10 * DAY)], CutoffsOf(p, 0), cal, p.minimumBackups))
  {
    var p := Policy(0, 30, 1, 1, 0, 0);
    var c := CutoffsOf(p, 0);
    assert InSlot(c, cal, 1, -10 * DAY) && InSlot(c, cal, 3, -10 * DAY);
    OverlapListsTwice(c, cal, 0, 1, 3, -10 * DAY);
  }

  // ---- Applying the policy ----

  /** The ids a schedule takes for its own: its name, a dash, anything. */
  predicate Matches(name: string, id: string) {
    name + "-" <= id
  }

  function OfSchedule(bs: seq<Backup>, name: string): seq<Backup> {
    if bs == [] then []
    else
      var front, b := OfSchedule(bs[..|bs| - 1], name), bs[|bs| - 1];
      if Matches(name, b.id) then front + [b] else front
  }

  function NotIn(bs: seq<Backup>, keep: seq<string>): seq<string> {
    if bs == [] then []
    else
      var front, b := NotIn(bs[..|bs| - 1], keep), bs[|bs| - 1];
      if b.id !in keep then front + [b.id] else front
  }

  /** The backups `apply_retention_policy` marks for deletion. */
  function Deleted(found: seq<Backup>, name: string, p: Policy, now: int, cal: Calendar): seq<string> {
    var mine := OfSchedule(SortBy(Newer, found), name);
    if |mine| <= p.minimumBackups then []
    else NotIn(mine, Keep(mine, CutoffsOf(p, now), cal, p.minimumBackups))
  }

  method ApplyRetention(found: seq<Backup>, name: string, p: Policy, now: int, cal: Calendar) returns (deleted: seq<string>)
    ensures deleted == Deleted(found, name, p, now, cal)
  {
    hide SortBy, Keep, CutoffsOf;
    var listed := SortBy(Newer, found);
    var mine: seq<Backup> := [];
    for i := 0 to |listed|
      invariant mine == OfSchedule(listed[..i], name)
    {
      assert listed[..i + 1][..i] == listed[..i];
      if Matches(name, listed[i].id) {
        mine := mine + [listed[i]];
      }
    }
    assert listed[..|listed|] == listed;
    if |mine| <= p.minimumBackups {
      return [];
    }
    var keep := IdentifyBackupsToKeep(mine, p, now, cal);
    deleted := [];
    for i := 0 to |mine|
      invariant deleted == NotIn(mine[..i], keep)
    {
      assert mine[..i + 1][..i] == mine[..i];
      if mine[i].id !in keep {
        deleted := deleted + [mine[i].id];
      }
    }
    assert mine[..|mine|] == mine;
  }

  lemma {:induction false} InsertKeepsNewestFirst(b: Backup, bs: seq<Backup>)
    requires NewestFirst(bs)
    ensures NewestFirst(InsertBy(Newer, b, bs))
  {
    if bs != [] && Newer(bs[0], b) {
      InsertKeepsNewestFirst(b, bs[1..]);
      InsertByContents(Newer, b, bs[1..]);
      var rest := InsertBy(Newer, b, bs[1..]);
      forall j | 0 <= j < |rest| ensures bs[0].time >= rest[j].time {
        assert rest[j] in multiset(rest);
        assert rest[j] == b || rest[j] in bs[1..];
      }
    }
  }

  /** The listing comes newest first. */
  lemma {:induction false} ListingIsNewestFirst(found: seq<Backup>)
    ensures NewestFirst(SortBy(Newer, found))
  {
    if found != [] {
      ListingIsNewestFirst(found[1..]);
      InsertKeepsNewestFirst(found[0], SortBy(Newer, found[1..]));
    }
  }

  lemma {:induction false} OfScheduleMembers(bs: seq<Backup>, name: string, b: Backup)
    ensures b in OfSchedule(bs, name) <==> b in bs && Matches(name, b.id)
  {
    hide Matches;
    if bs != [] {
      var n := |bs| - 1;
      OfScheduleMembers(bs[..n], name, b);
      assert bs == bs[..n] + [bs[n]];
    }
  }

  lemma {:induction false} OfScheduleKeepsOrder(bs: seq<Backup>, name: string)
    ensures NewestFirst(bs) ==> NewestFirst(OfSchedule(bs, name))
    ensures UniqueIds(bs) ==> UniqueIds(OfSchedule(bs, name))
  {
    hide Matches;
    if bs != [] {
      var n := |bs| - 1;
      OfScheduleKeepsOrder(bs[..n], name);
      var front := OfSchedule(bs[..n], name);
      forall b | b in front ensures exists k :: 0 <= k < n && bs[k] == b {
        OfScheduleMembers(bs[..n], name, b);
        var k :| 0 <= k < n && bs[..n][k] == b;
        assert bs[k] == b;
      }
      forall i | 0 <= i < |front|
        ensures NewestFirst(bs) ==> front[i].time >= bs[n].time
        ensures UniqueIds(bs) ==> front[i].id != bs[n].id
      {
        assert front[i] in front;
        var k :| 0 <= k < n && bs[k] == front[i];
      }
    }
  }

  lemma {:induction false} NotInMembers(bs: seq<Backup>, keep: seq<string>, id: string)
    ensures id in NotIn(bs, keep) <==> id !in keep && exists i :: 0 <= i < |bs| && bs[i].id == id
  {
    if bs != [] {
      var n := |bs| - 1;
      NotInMembers(bs[..n], keep, id);
      if i :| 0 <= i < n && bs[i].id == id {
        assert bs[..n][i] == bs[i];
      }
    }
  }

  lemma {:induction false} NotInAtMost(bs: seq<Backup>, keep: seq<string>, m: nat)
    requires m <= |bs| && forall i :: 0 <= i < m ==> bs[i].id in keep
    ensures |NotIn(bs, keep)| <= |bs| - m
  {
    if bs != [] {
      var n := |bs| - 1;
      NotInAtMost(bs[..n], keep, if m > n then n else m);
    }
  }

  lemma {:induction false} SortedIdsUnique(found: seq<Backup>)
    requires UniqueIds(found)
    ensures UniqueIds(SortBy(Newer, found))
  {
    var ids := (b: Backup) => b.id;
    SortByContents(Newer, found);
    MapPermutation(ids, SortBy(Newer, found), found);
    assert Distinct(Map(ids, found));
    DistinctMultiset(Map(ids, found));
    DistinctMultiset(Map(ids, SortBy(Newer, found)));
    forall i, j | 0 <= i < j < |SortBy(Newer, found)| ensures SortBy(Newer, found)[i].id != SortBy(Newer, found)[j].id {
      assert Map(ids, SortBy(Newer, found))[i] != Map(ids, SortBy(Newer, found))[j];
    }
  }

  /** The policy keeps the i-th newest backup of the schedule, its periods counted in days before now. */
  ghost predicate KeptByPolicy(mine: seq<Backup>, p: Policy, now: int, cal: Calendar, i: nat)
    requires i < |mine|
  {
    || i < p.minimumBackups
    || mine[i].time >= now - p.keepAllDays * DAY
    || NewestIn(mine, now - p.keepDailyDays * DAY, now - p.keepAllDays * DAY, cal.day, i)
    || NewestIn(mine, now - p.keepWeeklyWeeks * 7 * DAY, now - p.keepDailyDays * DAY, cal.week, i)
    || NewestIn(mine, now - p.keepMonthlyMonths * 30 * DAY, now - p.keepWeeklyWeeks * 7 * DAY, cal.month, i)
    || NewestIn(mine, now - p.keepYearlyYears * 365 * DAY, now - p.keepMonthlyMonths * 30 * DAY, cal.year, i)
  }

  /** The schedule's backups, newest first: exactly those found that match its name. */
  lemma {:induction false} OfScheduleIsExact(found: seq<Backup>, name: string)
    requires UniqueIds(found)
    ensures var mine := OfSchedule(SortBy(Newer, found), name);
            && NewestFirst(mine) && UniqueIds(mine)
            && forall b :: b in mine <==> b in found && name + "-" <= b.id
  {
    hide SortBy, NewestFirst, OfSchedule;
    var listed := SortBy(Newer, found);
    ListingIsNewestFirst(found);
    SortedIdsUnique(found);
    OfScheduleKeepsOrder(listed, name);
    SortByContents(Newer, found);
    forall b ensures b in OfSchedule(listed, name) <==> b in found && name + "-" <= b.id {
      OfScheduleMembers(listed, name, b);
      assert b in listed <==> b in multiset(listed);
      assert b in found <==> b in multiset(found);
    }
  }

  /** What a run deletes: exactly the backups of the schedule that the policy does not keep. */
  lemma {:induction false} DeletesExactly(found: seq<Backup>, name: string, p: Policy, now: int, cal: Calendar, i: nat)
    requires UniqueIds(found) && i < |OfSchedule(SortBy(Newer, found), name)|
    ensures var mine := OfSchedule(SortBy(Newer, found), name);
            mine[i].id in Deleted(found, name, p, now, cal) <==> !KeptByPolicy(mine, p, now, cal, i)
  {
    hide SortBy, Keep, OfSchedule, NotIn, NewestIn, NewestFirst;
    var mine := OfSchedule(SortBy(Newer, found), name);
    OfScheduleIsExact(found, name);
    if |mine| > p.minimumBackups {
      var c := CutoffsOf(p, now);
      KeepsExactly(mine, c, cal, p.minimumBackups, i);
      NotInMembers(mine, Keep(mine, c, cal, p.minimumBackups), mine[i].id);
    }
  }

  /** A run deletes only backups of the schedule, never a recent one, and leaves the minimum number standing. */
  lemma {:induction false} RetentionIsSafe(found: seq<Backup>, name: string, p: Policy, now: int, cal: Calendar)
    requires UniqueIds(found)
    ensures var mine := OfSchedule(SortBy(Newer, found), name);
            var deleted := Deleted(found, name, p, now, cal);
            && |mine| - |deleted| >= Min(p.minimumBackups, |mine|)
            && forall id :: id in deleted ==>
                 exists i :: 0 <= i < |mine| && mine[i].id == id && Matches(name, id) && mine[i].time < CutoffsOf(p, now).all
  {
    hide SortBy, Keep, CutoffsOf, OfSchedule, NotIn, Windows;
    var listed := SortBy(Newer, found);
    var mine := OfSchedule(listed, name);
    ListingIsNewestFirst(found);
    SortedIdsUnique(found);
    OfScheduleKeepsOrder(listed, name);
    if |mine| > p.minimumBackups {
      var c := CutoffsOf(p, now);
      var keep := Keep(mine, c, cal, p.minimumBackups);
      forall i | 0 <= i < p.minimumBackups ensures mine[i].id in keep {
        KeepsExactly(mine, c, cal, p.minimumBackups, i);
      }
      NotInAtMost(mine, keep, p.minimumBackups);
      forall id | id in NotIn(mine, keep)
        ensures exists i :: 0 <= i < |mine| && mine[i].id == id && Matches(name, id) && mine[i].time < c.all
      {
        NotInMembers(mine, keep, id);
        var i :| 0 <= i < |mine| && mine[i].id == id;
        KeepsExactly(mine, c, cal, p.minimumBackups, i);
        OfScheduleMembers(listed, name, mine[i]);
      }
    }
  }

  /** Ids are a schedule name, a dash and a timestamp; a schedule also takes those of any schedule whose name extends its own with a dash. */
  lemma {:induction false} MatchesOtherIff(name: string, other: string, stamp: string)
    requires '-' !in stamp
    ensures Matches(name, other + "-" + stamp) <==> name == other || Matches(name, other)
  {
    var id := other + "-" + stamp;
    assert "-" == ['-'];
    assert id[|other|] == '-' && id[..|other|] == other;
    if Matches(name, id) {
      assert id[|name|] == (name + "-")[|name|] == '-';
      assert id[..|name|] == (name + "-")[..|name|] == name;
      if |name| < |other| {
        assert other[..|name|] == name && other[|name|] == '-';
        assert other[..|name| + 1] == name + "-";
      }
    }
  }

  /** The schedule "daily" takes the backups of the schedule "daily-full" for its own. */
  lemma {:induction false} TakesOtherSchedule()
    ensures Matches("daily", "daily-full" + "-" + "1700000000")
  {
    assert "daily" + "-" <= "daily-full" by {
      assert "daily-full"[..6] == "daily" + "-";
    }
    MatchesOtherIff("daily", "daily-full", "1700000000");
  }
}
