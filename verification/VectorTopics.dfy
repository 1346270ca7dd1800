/** Topic-wide vector search: one answer gathered from the indexes of many partitions. */
module VectorTopics {
  import opened Base
  import opened Sequences
  import RealArithmetic
  import opened Distances
  import opened DistanceLaws
  import opened TopK
  import opened VectorIndex
  import opened VectorSearch

  datatype Shard = Shard(partition: int, index: Index)

  predicate AllInv(shards: seq<Shard>) {
    forall i :: 0 <= i < |shards| ==> Inv(shards[i].index)
  }

  /** Each shard's own answer, labelled with its partition. */
  function Answers(shards: seq<Shard>, env: Env, query: Vec, k: nat): (r: seq<seq<Hit<Located>>>)
    requires AllInv(shards)
    ensures |r| == |shards|
  {
    seq(|shards|, i requires 0 <= i < |shards| =>
      MapItems(Place(shards[i].partition), Search(shards[i].index, env, query, k)))
  }

  /** What each shard's answer is chosen from, labelled with its partition. */
  function Pools(shards: seq<Shard>, env: Env, query: Vec, k: nat): (r: seq<seq<Hit<Located>>>)
    requires AllInv(shards)
    ensures |r| == |shards|
  {
    seq(|shards|, i requires 0 <= i < |shards| =>
      MapItems(Place(shards[i].partition), RankedPool(shards[i].index, env, query, k)))
  }

  /** `search_topic_model`: collect every partition's answer, sort ascending, truncate. */
  function SearchTopic(shards: seq<Shard>, env: Env, query: Vec, k: nat): seq<Hit<Located>>
    requires AllInv(shards)
  {
    Select(Flatten(Answers(shards, env, query, k)), k)
  }

  /**
   For distance metrics the topic-wide answer is the k nearest over all partitions, in every
   mode; where an index re-scores, over its re-scored candidates.
   */
  lemma {:induction false} TopicSearchFindsNearest(shards: seq<Shard>, env: Env, query: Vec, k: nat)
    requires AllInv(shards) && Exact(env)
    requires forall i :: 0 <= i < |shards| ==> !shards[i].index.config.metric.DotProduct?
    ensures IsTopK(SearchTopic(shards, env, query, k), multiset(Flatten(Pools(shards, env, query, k))), k)
  {
    hide Inv, Exact, IsTopK, Ranked, RankedPool;
    var parts, pools := Answers(shards, env, query, k), Pools(shards, env, query, k);
    forall i | 0 <= i < |shards|
      ensures IsTopK(parts[i], multiset(pools[i]), k)
    {
      var s := shards[i].index;
      RankedTopK(s, env, query, k);
      RelabelTopK(Place(shards[i].partition), Search(s, env, query, k), RankedPool(s, env, query, k), k);
    }
    MergedTopK(parts, pools, k);
  }

  /** No two of the given shards are of the same partition. */
  predicate OnePerPartition(shards: seq<Shard>) {
    forall i, j :: 0 <= i < j < |shards| ==> shards[i].partition != shards[j].partition
  }

  function Partitions(shards: seq<Shard>): (r: seq<int>)
    ensures |r| == |shards| && forall i :: 0 <= i < |r| ==> r[i] == shards[i].partition
  {
    Map((s: Shard) => s.partition, shards)
  }

  /** Every shard ranks whole vectors by the metric. */
  predicate AllWhole(shards: seq<Shard>, m: Metric) {
    forall i :: 0 <= i < |shards| ==> shards[i].index.config.metric == m && WholeVectors(shards[i].index.config)
  }

  /** The candidates of each shard: everything it stores. */
  function ShardScores(shards: seq<Shard>, m: Metric, env: Env, query: Vec): (r: seq<seq<Hit<I64>>>)
    ensures |r| == |shards| && forall i :: 0 <= i < |r| ==> r[i] == Scores(m, env.root, query, shards[i].index.Stored())
  {
    seq(|shards|, i requires 0 <= i < |shards| => Scores(m, env.root, query, shards[i].index.Stored()))
  }

  lemma {:induction false} PoolIsScores(s: Index, env: Env, query: Vec, k: nat)
    requires Inv(s) && WholeVectors(s.config)
    ensures RankedPool(s, env, query, k) == Scores(s.config.metric, env.root, query, s.Stored())
  {
    PointsAreWhole(s.config, s.built);
    ScoresAppend(s.config.metric, env.root, query, s.built, s.pending);
  }

  lemma {:induction false} PoolsAreLabelled(shards: seq<Shard>, m: Metric, env: Env, query: Vec, k: nat)
    requires AllInv(shards) && AllWhole(shards, m)
    ensures Labelled(Partitions(shards), ShardScores(shards, m, env, query), Pools(shards, env, query, k))
  {
    hide Inv, RankedPool, Scores, WholeVectors;
    forall i | 0 <= i < |shards|
      ensures Pools(shards, env, query, k)[i] == MapItems(Place(Partitions(shards)[i]), ShardScores(shards, m, env, query)[i])
    {
      PoolIsScores(shards[i].index, env, query, k);
    }
  }

  lemma {:induction false} PoolsDistinct(shards: seq<Shard>, m: Metric, env: Env, query: Vec, k: nat)
    requires AllInv(shards) && AllWhole(shards, m) && OnePerPartition(shards)
    ensures Distinct(Items(Flatten(Pools(shards, env, query, k))))
  {
    hide Inv, Pools, Scores, WholeVectors, Labelled;
    PoolsAreLabelled(shards, m, env, query, k);
    forall i | 0 <= i < |shards| ensures Distinct(Items(ShardScores(shards, m, env, query)[i])) {
      ScoreItemsDistinct(shards[i].index, env, query);
    }
    LabelledDistinct(Partitions(shards), ShardScores(shards, m, env, query), Pools(shards, env, query, k));
  }

  /** The hit of a vector stored in one of the shards. */
  function LocatedHit(shard: Shard, m: Metric, root: Root, query: Vec, e: Entry): Hit<Located> {
    Hit(Located(shard.partition, AsI64(e.id)), Distance(m, root, query, e.vec))
  }

  lemma {:induction false} StoredIsCandidate(shards: seq<Shard>, m: Metric, env: Env, query: Vec, k: nat, i: nat, e: Entry)
    requires AllInv(shards) && AllWhole(shards, m) && i < |shards| && e in shards[i].index.Stored()
    ensures LocatedHit(shards[i], m, env.root, query, e) in Flatten(Pools(shards, env, query, k))
  {
    hide Inv, Pools, Scores, WholeVectors, Labelled, Distance;
    PoolsAreLabelled(shards, m, env, query, k);
    ScoresOf(m, env.root, query, shards[i].index.Stored(), e);
    LabelledHas(Partitions(shards), ShardScores(shards, m, env, query), Pools(shards, env, query, k), i,
      Hit(AsI64(e.id), Distance(m, env.root, query, e.vec)));
  }

  /** Every hit names the partition and the offset of a stored vector, with its own distance. */
  lemma {:induction false} TopicAnswerIsStored(shards: seq<Shard>, m: Metric, env: Env, query: Vec, k: nat, x: Hit<Located>)
    returns (i: nat, e: Entry)
    requires AllInv(shards) && AllWhole(shards, m) && Exact(env) && !m.DotProduct? && x in SearchTopic(shards, env, query, k)
    ensures i < |shards| && e in shards[i].index.Stored()
    ensures x == Hit(Located(shards[i].partition, AsI64(e.id)), Distance(m, env.root, query, e.vec))
  {
    hide Inv, Pools, Scores, WholeVectors, Labelled, Exact, IsTopK, SearchTopic, Distance;
    TopicSearchFindsNearest(shards, env, query, k);
    ReturnedIsInPool(SearchTopic(shards, env, query, k), Flatten(Pools(shards, env, query, k)), k, x);
    PoolsAreLabelled(shards, m, env, query, k);
    var h;
    i, h := LabelledFrom(Partitions(shards), ShardScores(shards, m, env, query), Pools(shards, env, query, k), x);
    e := ScoresFrom(m, env.root, query, shards[i].index.Stored(), h);
  }

  /** In plain terms: a vector that the topic search returns is no farther from the query than one it does not. */
  lemma {:induction false} TopicAnswerIsNearest(
    shards: seq<Shard>, m: Metric, env: Env, query: Vec, k: nat, i: nat, a: Entry, j: nat, b: Entry)
    requires AllInv(shards) && AllWhole(shards, m) && OnePerPartition(shards) && Exact(env) && IsSqrt(env.root) && !m.DotProduct?
    requires i < |shards| && a in shards[i].index.Stored() && j < |shards| && b in shards[j].index.Stored()
    requires Located(shards[i].partition, AsI64(a.id)) in Items(SearchTopic(shards, env, query, k))
    requires Located(shards[j].partition, AsI64(b.id)) !in Items(SearchTopic(shards, env, query, k))
    requires Comparable(m, query, a.vec, b.vec)
    ensures NoFarther(m, env.root, query, a.vec, b.vec)
  {
    hide Inv, Pools, WholeVectors, Exact, IsTopK, SearchTopic, Distance, Comparable, NoFarther, OnePerPartition;
    TopicSearchFindsNearest(shards, env, query, k);
    PoolsDistinct(shards, m, env, query, k);
    StoredIsCandidate(shards, m, env, query, k, i, a);
    StoredIsCandidate(shards, m, env, query, k, j, b);
    ReturnedIsNoFarther(SearchTopic(shards, env, query, k), Flatten(Pools(shards, env, query, k)), k,
      LocatedHit(shards[i], m, env.root, query, a), LocatedHit(shards[j], m, env.root, query, b));
    DistanceOrders(m, env.root, query, a.vec, b.vec);
  }

  /** `hits` are the k nearest of `pool`, in whatever order. */
  ghost predicate HoldsNearest<T>(hits: seq<Hit<T>>, pool: multiset<Hit<T>>, k: nat) {
    && multiset(hits) <= pool
    && |hits| == Min(k, |pool|)
    && forall x, y :: x in pool - multiset(hits) && y in multiset(hits) ==> y.distance <= x.distance
  }

  predicate AllTied<T>(hits: seq<Hit<T>>) {
    forall i, j :: 0 <= i < j < |hits| ==> hits[i].distance == hits[j].distance
  }

  lemma {:induction false} NegatedPermutation<T>(a: seq<Hit<T>>, b: seq<Hit<T>>)
    requires multiset(a) == multiset(b)
    ensures multiset(Negated(a)) == multiset(Negated(b))
  {
    MapPermutation((h: Hit<T>) => Hit(h.item, -h.distance), a, b);
  }

  lemma {:induction false} NegatedAppend<T>(a: seq<Hit<T>>, b: seq<Hit<T>>)
    ensures Negated(a + b) == Negated(a) + Negated(b)
  {
  }

  lemma {:induction false} NegatedFlatten<T>(parts: seq<seq<Hit<T>>>, negs: seq<seq<Hit<T>>>)
    requires |parts| == |negs|
    requires forall i :: 0 <= i < |parts| ==> negs[i] == Negated(parts[i])
    ensures Flatten(negs) == Negated(Flatten(parts))
  {
    if parts != [] {
      NegatedFlatten(parts[1..], negs[1..]);
      NegatedAppend(parts[0], Flatten(parts[1..]));
    }
  }

  lemma {:induction false} SameContentsHoldNearest<T>(a: seq<Hit<T>>, b: seq<Hit<T>>, pool: multiset<Hit<T>>, k: nat)
    requires IsTopK(a, pool, k) && multiset(a) == multiset(b)
    ensures HoldsNearest(b, pool, k)
  {
    assert |multiset(a)| == |multiset(b)|;
  }

  /** The two ends of a sorted list that is not all ties. */
  lemma {:induction false} SortedEnds<T>(hits: seq<Hit<T>>)
    requires !AllTied(hits)
    ensures |Sort(hits)| == |hits| > 1 && Sort(hits)[0].distance < Sort(hits)[|hits| - 1].distance
  {
    var sorted := Sort(hits);
    SortSorts(hits);
    assert |multiset(sorted)| == |multiset(hits)|;
    var i, j :| 0 <= i < j < |hits| && hits[i].distance != hits[j].distance;
    assert hits[i] in multiset(sorted) && hits[j] in multiset(sorted);
    var i' :| 0 <= i' < |sorted| && sorted[i'] == hits[i];
    var j' :| 0 <= j' < |sorted| && sorted[j'] == hits[j];
  }

  /** What is negated back after a cut at `k` is split between the kept and the dropped part. */
  lemma {:induction false} NegatedParts<T>(near: seq<Hit<T>>, k: nat)
    requires k < |near|
    ensures |Sort(Negated(near))| == |near|
    ensures var sorted := Sort(Negated(near));
            multiset(near) == multiset(Negated(sorted[..k])) + multiset(Negated(sorted[k..]))
  {
    hide SortBy, Negated;
    var scores := Negated(near);
    SortSorts(scores);
    var sorted := Sort(scores);
    assert |multiset(sorted)| == |multiset(scores)|;
    assert sorted == sorted[..k] + sorted[k..];
    NegatedAppend(sorted[..k], sorted[k..]);
    NegatedPermutation(sorted, scores);
    NegatedTwice(near);
  }

  /** Ranking similarities the wrong way round leaves the most similar candidate out. */
  lemma {:induction false} WrongWayLosesNearest<T>(near: seq<Hit<T>>, pool: multiset<Hit<T>>, k: nat)
    requires multiset(near) <= pool && 0 < k < |near| && !AllTied(Negated(near))
    ensures !HoldsNearest(Negated(Select(Negated(near), k)), pool, k)
  {
    hide Sort, AllTied;
    var scores := Negated(near);
    SortedEnds(scores);
    NegatedParts(near, k);
    var sorted := Sort(scores);
    var r, rest := Negated(sorted[..k]), Negated(sorted[k..]);
    assert Select(scores, k) == sorted[..k];
    var worst, best := r[0], rest[|rest| - 1];
    assert worst in multiset(r);
    assert best in multiset(rest);
    assert best in pool - multiset(r);
    assert best.distance < worst.distance;
  }

  /** If all the candidates tie, any k of them are nearest. */
  lemma {:induction false} TiesHoldNearest<T>(near: seq<Hit<T>>, chosen: seq<Hit<T>>, pool: multiset<Hit<T>>, k: nat)
    requires IsTopK(Select(near, k), pool, k) && multiset(near) <= pool
    requires AllTied(near) && 0 < k < |near|
    requires multiset(chosen) <= multiset(near) && |chosen| == k
    ensures HoldsNearest(chosen, pool, k)
  {
    hide Select;
    SelectIsTopK(near, k);
    SubmultisetSize(multiset(near), pool);
    forall x, y | x in pool - multiset(chosen) && y in multiset(chosen)
      ensures y.distance <= x.distance
    {
      assert y in multiset(near);
      OutsideIsNoNearer(near, pool, k, x, y);
    }
  }

  lemma {:induction false} OutsideIsNoNearer<T>(near: seq<Hit<T>>, pool: multiset<Hit<T>>, k: nat, x: Hit<T>, y: Hit<T>)
    requires IsTopK(Select(near, k), pool, k) && AllTied(near) && 0 < k < |near|
    requires x in pool && y in near
    ensures y.distance <= x.distance
  {
    hide Select;
    if x !in near {
      var top := Select(near, k);
      SelectIsTopK(near, k);
      assert x !in multiset(near);
      assert |multiset(near)| == |near|;
      assert top[0] in multiset(top);
      assert top[0] in multiset(near);
      assert x in pool - multiset(top);
    }
  }

  lemma {:induction false} FlattenOfEmpty<A>(ss: seq<seq<A>>)
    requires forall i :: 0 <= i < |ss| ==> ss[i] == []
    ensures Flatten(ss) == []
  {
    if ss != [] {
      FlattenOfEmpty(ss[1..]);
    }
  }

  /** How many candidates the shards hand in: each all it stores, but at most k. */
  function AnswerSize(shards: seq<Shard>, k: nat): nat {
    if shards == [] then 0
    else AnswerSize(shards[..|shards| - 1], k) + Min(k, |shards[|shards| - 1].index.Stored()|)
  }

  lemma {:induction false} AnswersSize(shards: seq<Shard>, env: Env, query: Vec, k: nat)
    requires AllInv(shards) && Exact(env)
    ensures |Flatten(Answers(shards, env, query, k))| == AnswerSize(shards, k)
  {
    hide Inv, Exact, Search;
    if shards != [] {
      var n := |shards| - 1;
      AnswersSize(shards[..n], env, query, k);
      SearchSize(shards[n].index, env, query, k);
      var last := MapItems(Place(shards[n].partition), Search(shards[n].index, env, query, k));
      assert Answers(shards, env, query, k) == Answers(shards[..n], env, query, k) + [last];
      FlattenSnoc(Answers(shards[..n], env, query, k), last);
    }
  }

  /**
   Dot products come back as similarities, larger being better, but the merge still sorts
   ascending. The answer is therefore the k most similar vectors, best first, exactly when all
   candidates tie; and it holds the k most similar in whatever order exactly when, besides,
   there are no more than k candidates.
   */
  lemma {:induction false} DotTopicSearchIff(shards: seq<Shard>, env: Env, query: Vec, k: nat)
    requires AllInv(shards) && Exact(env)
    requires forall i :: 0 <= i < |shards| ==> shards[i].index.config.metric.DotProduct?
    ensures IsTopK(Negated(SearchTopic(shards, env, query, k)), multiset(Flatten(Pools(shards, env, query, k))), k)
       <==> AllTied(Flatten(Answers(shards, env, query, k)))
    ensures HoldsNearest(Negated(SearchTopic(shards, env, query, k)), multiset(Flatten(Pools(shards, env, query, k))), k)
       <==> AnswerSize(shards, k) <= k || AllTied(Flatten(Answers(shards, env, query, k)))
  {
    AnswersSize(shards, env, query, k);
    hide Inv, Exact, IsTopK, HoldsNearest, Answers, Pools, AllTied, Select;
    var near := DotCandidates(shards, env, query, k);
    SimilarityMergeIff(near, multiset(Flatten(Pools(shards, env, query, k))), k);
    OrderedMergeIff(near, multiset(Flatten(Pools(shards, env, query, k))), k);
  }

  lemma {:induction false} OrderedIsHoldsNearest<T>(hits: seq<Hit<T>>, pool: multiset<Hit<T>>, k: nat)
    ensures IsTopK(hits, pool, k) <==> Ascending(hits) && HoldsNearest(hits, pool, k)
  {
    assert forall y :: y in hits <==> y in multiset(hits);
  }

  /** Ranked the wrong way round, candidates that do not all tie do not come best first, even if all are returned. */
  lemma {:induction false} OrderedMergeIff<T>(near: seq<Hit<T>>, pool: multiset<Hit<T>>, k: nat)
    requires multiset(near) <= pool && IsTopK(Select(near, k), pool, k)
    requires k == 0 ==> near == []
    ensures IsTopK(Negated(Select(Negated(near), k)), pool, k) <==> AllTied(Negated(near))
  {
    hide IsTopK, HoldsNearest;
    var scores := Negated(near);
    var r := Negated(Select(scores, k));
    OrderedIsHoldsNearest(r, pool, k);
    SimilarityMergeIff(near, pool, k);
    if AllTied(scores) {
      TiedIsAscending(scores, k);
    } else if |near| <= k {
      hide Sort;
      SortedEnds(scores);
      assert Select(scores, k) == Sort(scores);
      assert r[0].distance > r[|near| - 1].distance;
    }
  }

  lemma {:induction false} TiedIsAscending<T>(scores: seq<Hit<T>>, k: nat)
    requires AllTied(scores)
    ensures Ascending(Negated(Select(scores, k)))
  {
    var r := Select(scores, k);
    SelectIsTopK(scores, k);
    forall i, j | 0 <= i < j < |r| ensures r[i].distance == r[j].distance {
      assert r[i] in multiset(r) && r[j] in multiset(r);
      assert r[i] in multiset(scores) && r[j] in multiset(scores);
      var a :| 0 <= a < |scores| && scores[a] == r[i];
      var b :| 0 <= b < |scores| && scores[b] == r[j];
    }
  }

  lemma {:induction false} SimilarityMergeIff<T>(near: seq<Hit<T>>, pool: multiset<Hit<T>>, k: nat)
    requires multiset(near) <= pool && IsTopK(Select(near, k), pool, k)
    requires k == 0 ==> near == []
    ensures HoldsNearest(Negated(Select(Negated(near), k)), pool, k) <==> |near| <= k || AllTied(Negated(near))
  {
    if |near| <= k {
      AllCandidatesHoldNearest(near, pool, k);
    } else if AllTied(Negated(near)) {
      forall i, j | 0 <= i < j < |near|
        ensures near[i].distance == near[j].distance
      {
        assert Negated(near)[i].distance == Negated(near)[j].distance;
      }
      SelectIsTopK(Negated(near), k);
      NegatedSubset(Select(Negated(near), k), Negated(near));
      NegatedTwice(near);
      TiesHoldNearest(near, Negated(Select(Negated(near), k)), pool, k);
    } else {
      WrongWayLosesNearest(near, pool, k);
    }
  }

  lemma {:induction false} AllCandidatesHoldNearest<T>(near: seq<Hit<T>>, pool: multiset<Hit<T>>, k: nat)
    requires IsTopK(Select(near, k), pool, k) && |near| <= k
    ensures HoldsNearest(Negated(Select(Negated(near), k)), pool, k)
  {
    var scores := Negated(near);
    SelectIsTopK(scores, k);
    SelectIsTopK(near, k);
    TopKOfAll(Select(scores, k), multiset(scores), k);
    TopKOfAll(Select(near, k), multiset(near), k);
    NegatedPermutation(Select(scores, k), scores);
    NegatedTwice(near);
    SameContentsHoldNearest(Select(near, k), Negated(Select(scores, k)), pool, k);
  }

  lemma {:induction false} NegatedSubset<T>(a: seq<Hit<T>>, b: seq<Hit<T>>)
    requires multiset(a) <= multiset(b)
    ensures multiset(Negated(a)) <= multiset(Negated(b))
  {
    var rest := SeqOf(multiset(b) - multiset(a));
    assert multiset(a + rest) == multiset(b);
    NegatedPermutation(a + rest, b);
    NegatedAppend(a, rest);
  }

  /** The distances behind the similarities that the partitions returned. */
  lemma {:induction false} DotCandidates(shards: seq<Shard>, env: Env, query: Vec, k: nat) returns (near: seq<Hit<Located>>)
    requires AllInv(shards) && Exact(env)
    requires forall i :: 0 <= i < |shards| ==> shards[i].index.config.metric.DotProduct?
    ensures Flatten(Answers(shards, env, query, k)) == Negated(near)
    ensures multiset(near) <= multiset(Flatten(Pools(shards, env, query, k)))
    ensures IsTopK(Select(near, k), multiset(Flatten(Pools(shards, env, query, k))), k)
    ensures k == 0 ==> near == []
  {
    hide Inv, Exact, IsTopK, Ranked, RankedPool, Search, Select, MapItems, Negated;
    var parts := seq(|shards|, i requires 0 <= i < |shards| =>
      MapItems(Place(shards[i].partition), Ranked(shards[i].index, env, query, k)));
    var answers, pools := Answers(shards, env, query, k), Pools(shards, env, query, k);
    near := Flatten(parts);
    forall i | 0 <= i < |shards|
      ensures IsTopK(parts[i], multiset(pools[i]), k) && answers[i] == Negated(parts[i])
      ensures multiset(parts[i]) <= multiset(pools[i]) && (k == 0 ==> parts[i] == [])
    {
      DotShard(shards[i], env, query, k);
      TopKIsPart(parts[i], multiset(pools[i]), k);
    }
    NegatedFlatten(parts, answers);
    MergedTopK(parts, pools, k);
    FlattenSubset(parts, pools);
    if k == 0 {
      FlattenOfEmpty(parts);
    }
  }

  lemma {:induction false} DotShard(shard: Shard, env: Env, query: Vec, k: nat)
    requires Inv(shard.index) && Exact(env) && shard.index.config.metric.DotProduct?
    ensures var place := Place(shard.partition);
            var near := MapItems(place, Ranked(shard.index, env, query, k));
            && IsTopK(near, multiset(MapItems(place, RankedPool(shard.index, env, query, k))), k)
            && MapItems(place, Search(shard.index, env, query, k)) == Negated(near)
  {
    hide Inv, Exact, IsTopK, Ranked, RankedPool;
    RankedTopK(shard.index, env, query, k);
    RelabelTopK(Place(shard.partition), Ranked(shard.index, env, query, k), RankedPool(shard.index, env, query, k), k);
    RelabelNegated(Place(shard.partition), Ranked(shard.index, env, query, k));
  }

  lemma {:induction false} RelabelNegated<T, U>(f: T -> U, hits: seq<Hit<T>>)
    ensures MapItems(f, Negated(hits)) == Negated(MapItems(f, hits))
  {
  }

  lemma {:induction false} FlattenSubset<A>(parts: seq<seq<A>>, pools: seq<seq<A>>)
    requires |parts| == |pools|
    requires forall i :: 0 <= i < |parts| ==> multiset(parts[i]) <= multiset(pools[i])
    ensures multiset(Flatten(parts)) <= multiset(Flatten(pools))
  {
    if parts != [] {
      FlattenSubset(parts[1..], pools[1..]);
    }
  }

  /** An unbuilt one-dimensional dot-product index holding one vector. */
  function Single(x: real): (s: Index)
    ensures Inv(s) && s.config == Config(1, DotProduct, F32, 0, false)
    ensures s.built == [] && s.pending == [Entry(0, [x])] && s.graph == None
  {
    var config := Config(1, DotProduct, F32, 0, false);
    EmptyInv(config, "default");
    AddKeepsInv(Empty(config, "default"), 0, [x]);
    Add(Empty(config, "default"), 0, [x]).0
  }

  lemma {:induction false} SingleAnswer(x: real, env: Env, k: nat)
    requires k > 0
    ensures Search(Single(x), env, [1.0], k) == [Hit(0, x)]
  {
    hide Inv, Single;
    var s := Single(x);
    assert Products([1.0], [x]) == [x] && [x][..0] == [];
    assert RealArithmetic.Sum([x]) == x;
    var only: Hit<I64> := Hit(0, -x);
    assert s.pending == [Entry(0, [x])] && s.built == [];
    assert PendingScores(s, env, [1.0]) == [only];
    SortSingle(only);
    assert SearchPending(s, env, [1.0], k) == [only];
    assert SearchBuilt(s, env, [1.0], k) == [];
    assert Candidates(s, env, [1.0], k) == [] + [only] == [only];
  }

  function SingleShard(partition: int, x: real): (shard: Shard)
    ensures Inv(shard.index) && shard.index.config.metric.DotProduct?
  {
    Shard(partition, Single(x))
  }

  function TwoShards(): (shards: seq<Shard>)
    ensures AllInv(shards) && forall i :: 0 <= i < |shards| ==> shards[i].index.config.metric.DotProduct?
  {
    var a, b := SingleShard(0, 1.0), SingleShard(1, 2.0);
    PairInv(a, b);
    [a, b]
  }

  lemma {:induction false} PairInv(a: Shard, b: Shard)
    requires Inv(a.index) && Inv(b.index) && a.index.config.metric.DotProduct? && b.index.config.metric.DotProduct?
    ensures AllInv([a, b]) && forall i :: 0 <= i < 2 ==> [a, b][i].index.config.metric.DotProduct?
  {
    hide Inv;
  }

  lemma {:induction false} TwoShardAnswers(env: Env, k: nat)
    requires k > 0
    ensures Flatten(Answers(TwoShards(), env, [1.0], k)) == [Hit(Located(0, 0), 1.0), Hit(Located(1, 0), 2.0)]
  {
    hide Inv, Search, Single;
    var shards := TwoShards();
    SingleAnswer(1.0, env, k);
    SingleAnswer(2.0, env, k);
    var a, b := Hit(Located(0, 0), 1.0), Hit(Located(1, 0), 2.0);
    var answers := Answers(shards, env, [1.0], k);
    assert answers[0] == [a] && answers[1] == [b];
    assert answers == [[a], [b]];
    FlattenPair([a], [b]);
  }

  lemma {:induction false} NotTied(a: Hit<Located>, b: Hit<Located>)
    requires a.distance != b.distance
    ensures !AllTied([a, b])
  {
    assert [a, b][0].distance != [a, b][1].distance;
  }

  /**
   Two partitions with one vector each: asked for one, search returns the less similar vector;
   asked for more, it returns both with the less similar one first.
   */
  lemma {:induction false} DotTopicSearchFails(env: Env, k: nat)
    requires Exact(env) && k > 0
    ensures var answer := Negated(SearchTopic(TwoShards(), env, [1.0], k));
            var pool := multiset(Flatten(Pools(TwoShards(), env, [1.0], k)));
            && !IsTopK(answer, pool, k)
            && (k == 1 ==> !HoldsNearest(answer, pool, k))
  {
    hide Inv, Search, Pools, SearchTopic, HoldsNearest, Answers, IsTopK, Exact, AllTied, TwoShards;
    TwoShardAnswers(env, k);
    AnswersSize(TwoShards(), env, [1.0], k);
    DotTopicSearchIff(TwoShards(), env, [1.0], k);
    NotTied(Hit(Located(0, 0), 1.0), Hit(Located(1, 0), 2.0));
  }
}
