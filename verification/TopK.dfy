/**
 Nearest-neighbour selection: what "the k smallest" means, the sort-and-truncate
 that every search ends with, and how partial answers combine.
 */
module TopK {
  import opened Base
  import opened Sequences

  /** A scored candidate; the smaller the distance, the better. */
  datatype Hit<T> = Hit(item: T, distance: real)

  /** Where a vector of a topic is. */
  datatype Located = Located(partition: int, offset: I64)

  function Place(partition: int): I64 -> Located {
    (offset: I64) => Located(partition, offset)
  }

  predicate Ascending<T>(s: seq<Hit<T>>) {
    forall i, j :: 0 <= i < j < |s| ==> s[i].distance <= s[j].distance
  }

  /**
   `r` is a correct answer to "the k nearest of `pool`": in order, nothing invented, as
   many as there can be, and nothing left behind is nearer than anything returned.
   */
  ghost predicate IsTopK<T>(r: seq<Hit<T>>, pool: multiset<Hit<T>>, k: nat) {
    && Ascending(r)
    && multiset(r) <= pool
    && |r| == Min(k, |pool|)
    && forall x, y :: x in pool - multiset(r) && y in r ==> y.distance <= x.distance
  }

  predicate Closer<T>(a: Hit<T>, b: Hit<T>) {
    a.distance < b.distance
  }

  /** The stable ascending sort by distance. */
  function Sort<T>(s: seq<Hit<T>>): seq<Hit<T>> {
    SortBy(Closer, s)
  }

  lemma {:induction false} InsertAscending<T>(h: Hit<T>, s: seq<Hit<T>>)
    requires Ascending(s)
    ensures Ascending(InsertBy(Closer, h, s))
  {
    if s != [] && Closer(s[0], h) {
      var rest := InsertBy(Closer, h, s[1..]);
      InsertAscending(h, s[1..]);
      InsertByContents(Closer, h, s[1..]);
      forall j | 0 <= j < |rest|
        ensures s[0].distance <= rest[j].distance
      {
        assert rest[j] in multiset(rest);
        assert rest[j] == h || rest[j] in s[1..];
      }
    }
  }

  lemma {:induction false} SortSorts<T>(s: seq<Hit<T>>)
    ensures Ascending(Sort(s))
    ensures multiset(Sort(s)) == multiset(s)
  {
    SortByContents(Closer, s);
    if s != [] {
      SortSorts(s[1..]);
      InsertAscending(s[0], Sort(s[1..]));
    }
  }

  lemma {:induction false} SortSingle<T>(h: Hit<T>)
    ensures Sort([h]) == [h]
  {
    assert [h][1..] == [];
    assert SortBy(Closer<T>, []) == [];
    assert InsertBy(Closer<T>, h, []) == [h];
  }

  /** `sort_by` on the distance followed by `truncate(k)`. */
  function Select<T>(s: seq<Hit<T>>, k: nat): seq<Hit<T>> {
    Truncate(Sort(s), k)
  }

  lemma {:induction false} SelectNothing<T>(k: nat)
    ensures Select<T>([], k) == []
  {
  }

  lemma {:induction false} SelectIsTopK<T>(s: seq<Hit<T>>, k: nat)
    ensures IsTopK(Select(s, k), multiset(s), k)
  {
    SortSorts(s);
    var sorted := Sort(s);
    var r := Select(s, k);
    assert sorted == r + sorted[|r|..];
    assert |multiset(s)| == |multiset(sorted)|;
    SplitIsTopK(r, sorted[|r|..], k);
  }

  lemma {:induction false} SubmultisetOfSameSize<A>(a: multiset<A>, b: multiset<A>)
    requires a <= b && |a| == |b|
    ensures a == b
  {
    assert b == a + (b - a);
    assert |b - a| == 0;
  }

  /**
   One pool may stand in for a larger one: replacing a pool by its own top k does not
   change what the top k of the whole is.
   */
  lemma {:induction false} TopKOfTopK<T>(part: seq<Hit<T>>, pool: multiset<Hit<T>>, others: multiset<Hit<T>>, r: seq<Hit<T>>, k: nat)
    requires IsTopK(part, pool, k)
    requires IsTopK(r, multiset(part) + others, k)
    ensures IsTopK(r, pool + others, k)
  {
    var near := multiset(part) + others;
    var all := pool + others;
    assert near <= all;
    assert |near| == |part| + |others| && |all| == |pool| + |others|;
    forall x, y | x in all - multiset(r) && y in r
      ensures y.distance <= x.distance
    {
      if near[x] > multiset(r)[x] {
        assert x in near - multiset(r);
      } else {
        assert pool[x] > multiset(part)[x];
        assert x in pool - multiset(part);
        if multiset(part) <= multiset(r) {
          if |part| == |r| {
            SubmultisetOfSameSize(multiset(part), multiset(r));
            assert y in multiset(part);
          } else {
            assert |part| < k;
            SubmultisetOfSameSize(multiset(part), pool);
          }
        } else {
          var z :| multiset(part)[z] > multiset(r)[z];
          assert z in near - multiset(r);
          assert z in part;
        }
      }
    }
  }

  /** `parts[i]` answers for `pools[i]`. */
  ghost predicate AllTopK<T>(parts: seq<seq<Hit<T>>>, pools: seq<seq<Hit<T>>>, k: nat) {
    |parts| == |pools| && forall i :: 0 <= i < |parts| ==> IsTopK(parts[i], multiset(pools[i]), k)
  }

  lemma {:induction false} MergeInto<T>(
    parts: seq<seq<Hit<T>>>, pools: seq<seq<Hit<T>>>, done: multiset<Hit<T>>, r: seq<Hit<T>>, k: nat)
    requires AllTopK(parts, pools, k)
    requires IsTopK(r, multiset(Flatten(parts)) + done, k)
    ensures IsTopK(r, multiset(Flatten(pools)) + done, k)
  {
    hide IsTopK, Flatten;
    if parts == [] {
      assert Flatten(parts) == Flatten(pools);
    } else {
      var part, pool := parts[0], multiset(pools[0]);
      var rest := multiset(Flatten(parts[1..])) + done;
      FlattenFirst(parts);
      FlattenFirst(pools);
      assert multiset(Flatten(parts)) + done == multiset(part) + rest;
      TopKOfTopK(part, pool, rest, r, k);
      assert pool + rest == multiset(Flatten(parts[1..])) + (pool + done);
      MergeInto(parts[1..], pools[1..], pool + done, r, k);
      assert multiset(Flatten(pools)) + done == multiset(Flatten(pools[1..])) + (pool + done);
    }
  }

  lemma {:induction false} FlattenFirst<A>(ss: seq<seq<A>>)
    requires ss != []
    ensures multiset(Flatten(ss)) == multiset(ss[0]) + multiset(Flatten(ss[1..]))
  {
  }

  /**
   Scatter and gather: sorting and truncating the concatenated per-pool answers gives the
   top k of all the pools together, whatever order the pools come in.
   */
  lemma {:induction false} MergedTopK<T>(parts: seq<seq<Hit<T>>>, pools: seq<seq<Hit<T>>>, k: nat)
    requires AllTopK(parts, pools, k)
    ensures IsTopK(Select(Flatten(parts), k), multiset(Flatten(pools)), k)
  {
    var r := Select(Flatten(parts), k);
    SelectIsTopK(Flatten(parts), k);
    assert multiset(Flatten(parts)) + multiset{} == multiset(Flatten(parts));
    MergeInto(parts, pools, multiset{}, r, k);
    assert multiset(Flatten(pools)) + multiset{} == multiset(Flatten(pools));
  }

  function MapItems<T, U>(f: T -> U, s: seq<Hit<T>>): (r: seq<Hit<U>>)
    ensures |r| == |s|
  {
    Map((h: Hit<T>) => Hit(f(h.item), h.distance), s)
  }

  function Items<T>(s: seq<Hit<T>>): (r: seq<T>)
    ensures |r| == |s|
  {
    Map((h: Hit<T>) => h.item, s)
  }

  function DistancesOf<T>(s: seq<Hit<T>>): (r: seq<real>)
    ensures |r| == |s|
  {
    Map((h: Hit<T>) => h.distance, s)
  }

  lemma {:induction false} ItemsAppend<T>(a: seq<Hit<T>>, b: seq<Hit<T>>)
    ensures Items(a + b) == Items(a) + Items(b)
  {
  }

  lemma {:induction false} ItemsPermutation<T>(a: seq<Hit<T>>, b: seq<Hit<T>>)
    requires multiset(a) == multiset(b)
    ensures multiset(Items(a)) == multiset(Items(b))
    ensures |a| == |b|
  {
    MapPermutation((h: Hit<T>) => h.item, a, b);
    assert |multiset(a)| == |multiset(b)|;
  }

  /** `r` in front and `rest` behind it, with nothing behind that is nearer. */
  predicate Splits<T>(r: seq<Hit<T>>, rest: seq<Hit<T>>, k: nat) {
    && Ascending(r)
    && |r| == Min(k, |r| + |rest|)
    && forall i, j :: 0 <= i < |rest| && 0 <= j < |r| ==> r[j].distance <= rest[i].distance
  }

  lemma {:induction false} SplitIsTopK<T>(r: seq<Hit<T>>, rest: seq<Hit<T>>, k: nat)
    requires Splits(r, rest, k)
    ensures IsTopK(r, multiset(r) + multiset(rest), k)
  {
    assert multiset(r) + multiset(rest) - multiset(r) == multiset(rest);
    forall x, y | x in multiset(rest) && y in r
      ensures y.distance <= x.distance
    {
      var i :| 0 <= i < |rest| && rest[i] == x;
      var j :| 0 <= j < |r| && r[j] == y;
    }
  }

  lemma {:induction false} TopKSplits<T>(r: seq<Hit<T>>, pool: multiset<Hit<T>>, k: nat) returns (rest: seq<Hit<T>>)
    requires IsTopK(r, pool, k)
    ensures Splits(r, rest, k) && multiset(r) + multiset(rest) == pool
  {
    rest := SeqOf(pool - multiset(r));
    Complement(multiset(r), pool);
    assert |multiset(rest)| == |rest|;
    LeftBehindIsFarther(r, pool, rest, k);
  }

  lemma {:induction false} LeftBehindIsFarther<T>(r: seq<Hit<T>>, pool: multiset<Hit<T>>, rest: seq<Hit<T>>, k: nat)
    requires IsTopK(r, pool, k) && multiset(rest) == pool - multiset(r)
    ensures forall i, j :: 0 <= i < |rest| && 0 <= j < |r| ==> r[j].distance <= rest[i].distance
  {
    forall i, j | 0 <= i < |rest| && 0 <= j < |r|
      ensures r[j].distance <= rest[i].distance
    {
      assert rest[i] in multiset(rest) && r[j] in r;
    }
  }

  lemma {:induction false} Complement<A>(a: multiset<A>, b: multiset<A>)
    requires a <= b
    ensures a + (b - a) == b && |a| + |b - a| == |b|
  {
  }

  /** Relabelling the candidates relabels the answer. */
  lemma {:induction false} RelabelTopK<T, U>(f: T -> U, r: seq<Hit<T>>, pool: seq<Hit<T>>, k: nat)
    requires IsTopK(r, multiset(pool), k)
    ensures IsTopK(MapItems(f, r), multiset(MapItems(f, pool)), k)
  {
    var rest := TopKSplits(r, multiset(pool), k);
    var g := (h: Hit<T>) => Hit(f(h.item), h.distance);
    assert multiset(pool) == multiset(r + rest);
    MapPermutation(g, pool, r + rest);
    MapAppend(g, r, rest);
    SplitIsTopK(Map(g, r), Map(g, rest), k);
  }

  lemma {:induction false} TopKIsPart<T>(r: seq<Hit<T>>, pool: multiset<Hit<T>>, k: nat)
    requires IsTopK(r, pool, k)
    ensures multiset(r) <= pool && (k == 0 ==> r == [])
  {
  }

  /** If everything fits, everything is returned. */
  lemma {:induction false} TopKOfAll<T>(r: seq<Hit<T>>, pool: multiset<Hit<T>>, k: nat)
    requires IsTopK(r, pool, k) && |pool| <= k
    ensures multiset(r) == pool
  {
    SubmultisetOfSameSize(multiset(r), pool);
  }

  /** Correct answers to the same question can differ only in how they break ties. */
  lemma {:induction false} TopKDistancesUnique<T>(a: seq<Hit<T>>, b: seq<Hit<T>>, pool: multiset<Hit<T>>, k: nat)
    requires IsTopK(a, pool, k) && IsTopK(b, pool, k)
    ensures DistancesOf(a) == DistancesOf(b)
  {
    forall i | 0 <= i < |a|
      ensures a[i].distance == b[i].distance
    {
      if a[i].distance < b[i].distance {
        NotNearer(a, b, pool, k, i);
      } else if b[i].distance < a[i].distance {
        NotNearer(b, a, pool, k, i);
      }
    }
  }

  lemma {:induction false} NotNearer<T>(a: seq<Hit<T>>, b: seq<Hit<T>>, pool: multiset<Hit<T>>, k: nat, i: nat)
    requires IsTopK(a, pool, k) && IsTopK(b, pool, k) && i < |a|
    ensures a[i].distance >= b[i].distance
  {
    var rest := TopKSplits(b, pool, k);
    NotNearerThan(a, b, rest, i);
  }

  lemma {:induction false} NotNearerThan<T>(a: seq<Hit<T>>, b: seq<Hit<T>>, rest: seq<Hit<T>>, i: nat)
    requires Ascending(a) && Ascending(b) && i < |a| && i < |b|
    requires multiset(a) <= multiset(b) + multiset(rest)
    requires forall j :: 0 <= j < |rest| ==> b[i].distance <= rest[j].distance
    ensures a[i].distance >= b[i].distance
  {
    var near, front := a[..i + 1], b[..i];
    var z := LargerHasMore(multiset(near), multiset(front));
    NearestFirst(a, i, z);
    assert multiset(near)[z] <= multiset(a)[z] by {
      assert a == near + a[i + 1..];
    }
    BehindIsFarther(b, rest, i, z);
  }

  lemma {:induction false} BehindIsFarther<T>(b: seq<Hit<T>>, rest: seq<Hit<T>>, i: nat, z: Hit<T>)
    requires Ascending(b) && i < |b|
    requires forall j :: 0 <= j < |rest| ==> b[i].distance <= rest[j].distance
    requires multiset(b)[z] + multiset(rest)[z] > multiset(b[..i])[z]
    ensures b[i].distance <= z.distance
  {
    assert b == b[..i] + b[i..];
    if z in b[i..] {
      var j :| 0 <= j < |b[i..]| && b[i..][j] == z;
      assert b[i + j] == z;
    } else {
      assert z in multiset(rest);
      var j :| 0 <= j < |rest| && rest[j] == z;
    }
  }

  lemma {:induction false} NearestFirst<T>(a: seq<Hit<T>>, i: nat, z: Hit<T>)
    requires Ascending(a) && i < |a| && multiset(a[..i + 1])[z] > 0
    ensures z.distance <= a[i].distance
  {
    assert z in a[..i + 1];
    var j :| 0 <= j <= i && a[j] == z;
  }

  lemma {:induction false} ItemOf<T>(hits: seq<Hit<T>>, item: T) returns (h: Hit<T>)
    requires item in Items(hits)
    ensures h in hits && h.item == item
  {
    var i :| 0 <= i < |hits| && Items(hits)[i] == item;
    h := hits[i];
  }

  lemma {:induction false} OnePerItem<T>(pool: seq<Hit<T>>, a: Hit<T>, b: Hit<T>)
    requires Distinct(Items(pool)) && a in pool && b in pool && a.item == b.item
    ensures a == b
  {
    var i :| 0 <= i < |pool| && pool[i] == a;
    var j :| 0 <= j < |pool| && pool[j] == b;
    assert Items(pool)[i] == Items(pool)[j];
  }

  lemma {:induction false} ReturnedIsInPool<T>(r: seq<Hit<T>>, pool: seq<Hit<T>>, k: nat, h: Hit<T>)
    requires IsTopK(r, multiset(pool), k) && h in r
    ensures h in pool
  {
    assert h in multiset(r);
    assert h in multiset(pool);
  }

  lemma {:induction false} NotReturned<T>(r: seq<Hit<T>>, h: Hit<T>)
    ensures h in r ==> h.item in Items(r)
  {
    if h in r {
      var i :| 0 <= i < |r| && r[i] == h;
      assert Items(r)[i] == h.item;
    }
  }

  /** Where no item has two candidates, one that is returned is no farther than one that is not. */
  lemma {:induction false} ReturnedIsNoFarther<T>(r: seq<Hit<T>>, pool: seq<Hit<T>>, k: nat, a: Hit<T>, b: Hit<T>)
    requires IsTopK(r, multiset(pool), k) && Distinct(Items(pool)) && a in pool && b in pool
    requires a.item in Items(r) && b.item !in Items(r)
    ensures a in r && a.distance <= b.distance
  {
    var h := ItemOf(r, a.item);
    ReturnedIsInPool(r, pool, k, h);
    OnePerItem(pool, h, a);
    NotReturned(r, b);
    assert b !in multiset(r) && b in multiset(pool);
    assert b in multiset(pool) - multiset(r);
  }

  // ---- Candidates labelled with their partition ----

  /** The pools of several partitions, each labelled with its own. */
  ghost predicate Labelled(partitions: seq<int>, pools: seq<seq<Hit<I64>>>, labelled: seq<seq<Hit<Located>>>) {
    && |partitions| == |pools| == |labelled|
    && forall i :: 0 <= i < |pools| ==> labelled[i] == MapItems(Place(partitions[i]), pools[i])
  }

  lemma {:induction false} LabelledHas(
    partitions: seq<int>, pools: seq<seq<Hit<I64>>>, labelled: seq<seq<Hit<Located>>>, i: nat, h: Hit<I64>)
    requires Labelled(partitions, pools, labelled) && i < |pools| && h in pools[i]
    ensures Hit(Located(partitions[i], h.item), h.distance) in Flatten(labelled)
  {
    var j :| 0 <= j < |pools[i]| && pools[i][j] == h;
    assert labelled[i][j] == Hit(Located(partitions[i], h.item), h.distance);
    FlattenContains(labelled, labelled[i][j]);
  }

  lemma {:induction false} LabelledFrom(
    partitions: seq<int>, pools: seq<seq<Hit<I64>>>, labelled: seq<seq<Hit<Located>>>, x: Hit<Located>) returns (i: nat, h: Hit<I64>)
    requires Labelled(partitions, pools, labelled) && x in Flatten(labelled)
    ensures i < |pools| && h in pools[i] && x == Hit(Located(partitions[i], h.item), h.distance)
  {
    FlattenContains(labelled, x);
    i :| 0 <= i < |labelled| && x in labelled[i];
    var j :| 0 <= j < |labelled[i]| && labelled[i][j] == x;
    h := pools[i][j];
  }

  lemma {:induction false} LabelsDistinct(p: int, pool: seq<Hit<I64>>)
    requires Distinct(Items(pool))
    ensures Distinct(Items(MapItems(Place(p), pool)))
    ensures forall l :: l in Items(MapItems(Place(p), pool)) ==> l.partition == p
  {
    var labelled := MapItems(Place(p), pool);
    forall i, j | 0 <= i < j < |pool| ensures Items(labelled)[i] != Items(labelled)[j] {
      assert Items(pool)[i] != Items(pool)[j];
    }
  }

  lemma {:induction false} LabelledDistinct(partitions: seq<int>, pools: seq<seq<Hit<I64>>>, labelled: seq<seq<Hit<Located>>>)
    requires Labelled(partitions, pools, labelled) && Distinct(partitions)
    requires forall i :: 0 <= i < |pools| ==> Distinct(Items(pools[i]))
    ensures Distinct(Items(Flatten(labelled)))
    ensures forall l :: l in Items(Flatten(labelled)) ==> l.partition in partitions
  {
    hide Labelled, Distinct, MapItems;
    if partitions == [] {
      LabelledNothing(partitions, pools, labelled);
    } else {
      LabelledStep(partitions, pools, labelled);
      LabelledDistinct(partitions[1..], pools[1..], labelled[1..]);
      LabelsDistinct(partitions[0], pools[0]);
      var rest := Flatten(labelled[1..]);
      ItemsAppend(labelled[0], rest);
      DistinctAppend(Items(labelled[0]), Items(rest));
    }
  }

  lemma {:induction false} LabelledNothing(partitions: seq<int>, pools: seq<seq<Hit<I64>>>, labelled: seq<seq<Hit<Located>>>)
    requires Labelled(partitions, pools, labelled) && partitions == []
    ensures Flatten(labelled) == []
    ensures Distinct(Items(Flatten(labelled)))
  {
  }

  lemma {:induction false} LabelledStep(partitions: seq<int>, pools: seq<seq<Hit<I64>>>, labelled: seq<seq<Hit<Located>>>)
    requires Labelled(partitions, pools, labelled) && partitions != [] && Distinct(partitions)
    ensures pools != [] && labelled != [] && labelled[0] == MapItems(Place(partitions[0]), pools[0])
    ensures Labelled(partitions[1..], pools[1..], labelled[1..])
    ensures Distinct(partitions[1..]) && partitions[0] !in partitions[1..]
    ensures Flatten(labelled) == labelled[0] + Flatten(labelled[1..])
  {
  }
}
