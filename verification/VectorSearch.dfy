/**
 Searching one partition's two tiers, and merging the answers of a topic's partitions.

 The graph library is a parameter. `Exact` says that it finds the true nearest
 neighbours among the points it was built over; nothing else is assumed of it.
 */
module VectorSearch {
  import opened Base
  import opened Sequences
  import RealArithmetic
  import opened Distances
  import opened DistanceLaws
  import opened Quantizer
  import opened QuantizedDistances
  import opened TopK
  import opened VectorIndex

  datatype Env = Env(root: Root, graphSearch: (Metric, seq<Entry>, Vec, nat) -> seq<Hit<I64>>)

  function ScoreOf(m: Metric, root: Root, query: Vec): Entry -> Hit<I64> {
    (e: Entry) => Hit(AsI64(e.id), Distance(m, root, query, e.vec))
  }

  function Scores(m: Metric, root: Root, query: Vec, entries: seq<Entry>): (r: seq<Hit<I64>>)
    ensures |r| == |entries|
  {
    Map(ScoreOf(m, root, query), entries)
  }

  ghost predicate Exact(env: Env) {
    forall m, points, query, k ::
      IsTopK(env.graphSearch(m, points, query, k), multiset(Scores(m, env.root, query, points)), k)
  }

  function QuantizedScores(m: Metric, root: Root, q: ScalarQuantizer, query: Vec, entries: seq<QuantizedEntry>): (r: seq<Hit<I64>>)
    requires q.Usable()
    requires forall e :: e in entries ==> |e.bytes| <= q.dimensions
    ensures |r| == |entries|
    ensures forall i :: 0 <= i < |r| ==> r[i].item == AsI64(entries[i].id)
  {
    seq(|entries|, i requires 0 <= i < |entries| =>
      assert entries[i] in entries;
      Hit(AsI64(entries[i].id), QuantizedDistance(m, root, q, query, entries[i].bytes)))
  }

  function GraphQuery(config: Config, query: Vec): Vec {
    if config.Matryoshka() then TruncateVec(query, config.EffectiveDims()) else query
  }

  /** Tier 1: the graph if there is one, otherwise a scan of the built vectors. */
  function SearchBuilt(s: Index, env: Env, query: Vec, k: nat): seq<Hit<I64>> {
    match s.graph
    case Some(points) => env.graphSearch(s.config.metric, points, query, k)
    case None => if s.built != [] then Select(Scores(s.config.metric, env.root, query, s.built), k) else []
  }

  /** The distances tier 2 ranks the pending vectors by. */
  function PendingScores(s: Index, env: Env, query: Vec): seq<Hit<I64>>
    requires Inv(s)
  {
    if s.config.mode.Uint8? && s.quantizedPending != [] && s.quantizer.Some? then
      QuantizedScores(s.config.metric, env.root, s.quantizer.value, query, s.quantizedPending)
    else
      Scores(s.config.metric, env.root, query, s.pending)
  }

  function SearchPending(s: Index, env: Env, query: Vec, k: nat): seq<Hit<I64>>
    requires Inv(s)
  {
    if s.pending != [] then Select(PendingScores(s, env, query), k) else []
  }

  function Find(entries: seq<Entry>, id: U64): Option<Entry> {
    if entries == [] then None
    else if entries[0].id == id then Some(entries[0])
    else Find(entries[1..], id)
  }

  function FindStored(s: Index, id: U64): Option<Entry> {
    match Find(s.built, id)
    case Some(e) => Some(e)
    case None => Find(s.pending, id)
  }

  /** `rescore_full_dimensions`, before its final sort: full-length distances of the candidates found. */
  function Rescored(s: Index, env: Env, query: Vec, candidates: seq<Hit<I64>>): seq<Hit<I64>> {
    if candidates == [] then []
    else
      (match FindStored(s, AsU64(candidates[0].item))
       case Some(e) => [Hit(candidates[0].item, Distance(s.config.metric, env.root, query, e.vec))]
       case None => [])
      + Rescored(s, env, query, candidates[1..])
  }

  predicate Adaptive(config: Config) {
    config.Matryoshka() && config.adaptive
  }

  function Candidates(s: Index, env: Env, query: Vec, k: nat): seq<Hit<I64>>
    requires Inv(s)
  {
    var searchK := if Adaptive(s.config) then k * 3 else k;
    var q := GraphQuery(s.config, query);
    SearchBuilt(s, env, q, searchK) + SearchPending(s, env, q, searchK)
  }

  /** `search` before dot products are turned back into similarities. */
  function Ranked(s: Index, env: Env, query: Vec, k: nat): seq<Hit<I64>>
    requires Inv(s)
  {
    if s.built == [] && s.pending == [] then []
    else
      var found := Candidates(s, env, query, k);
      if Adaptive(s.config) && found != [] then Select(Rescored(s, env, query, found), k)
      else Select(found, k)
  }

  function Negated<T>(hits: seq<Hit<T>>): (r: seq<Hit<T>>)
    ensures |r| == |hits|
  {
    Map((h: Hit<T>) => Hit(h.item, -h.distance), hits)
  }

  function Search(s: Index, env: Env, query: Vec, k: nat): seq<Hit<I64>>
    requires Inv(s)
  {
    if s.config.metric.DotProduct? then Negated(Ranked(s, env, query, k)) else Ranked(s, env, query, k)
  }

  /** Everything `search` chooses from. */
  function Pool(s: Index, env: Env, query: Vec): seq<Hit<I64>>
    requires Inv(s)
  {
    var q := GraphQuery(s.config, query);
    Scores(s.config.metric, env.root, q, Points(s.config, s.built)) + PendingScores(s, env, q)
  }

  lemma {:induction false} NegatedTwice<T>(hits: seq<Hit<T>>)
    ensures Negated(Negated(hits)) == hits
  {
  }

  // ---- One partition ----

  lemma {:induction false} TierTopK(s: Index, env: Env, query: Vec, k: nat)
    requires Inv(s) && Exact(env)
    ensures var q := GraphQuery(s.config, query);
            && IsTopK(SearchBuilt(s, env, q, k), multiset(Scores(s.config.metric, env.root, q, Points(s.config, s.built))), k)
            && IsTopK(SearchPending(s, env, q, k), multiset(PendingScores(s, env, q)), k)
  {
    var q := GraphQuery(s.config, query);
    SelectIsTopK(PendingScores(s, env, q), k);
    if s.built == [] {
      assert Scores(s.config.metric, env.root, q, Points(s.config, s.built)) == [];
    }
  }

  lemma {:induction false} FlattenPair<A>(a: seq<A>, b: seq<A>)
    ensures Flatten([a, b]) == a + b
  {
    assert [a, b][1..] == [b] && [b][1..] == [];
    assert Flatten([b]) == b + [] == b;
  }

  /** Without re-scoring, the two tiers together answer for everything stored. */
  lemma {:induction false} TwoTierTopK(s: Index, env: Env, query: Vec, k: nat)
    requires Inv(s) && Exact(env) && !Adaptive(s.config)
    ensures IsTopK(Ranked(s, env, query, k), multiset(Pool(s, env, query)), k)
  {
    hide Inv, IsTopK, PendingScores, SearchBuilt, SearchPending, Scores, Select;
    var q := GraphQuery(s.config, query);
    var parts := [SearchBuilt(s, env, q, k), SearchPending(s, env, q, k)];
    var pools := [Scores(s.config.metric, env.root, q, Points(s.config, s.built)), PendingScores(s, env, q)];
    TierTopK(s, env, query, k);
    MergedTopK(parts, pools, k);
    FlattenPair(parts[0], parts[1]);
    FlattenPair(pools[0], pools[1]);
    if s.built == [] && s.pending == [] {
      NothingToFind(s, env, q, k);
    }
  }

  lemma {:induction false} NothingToFind(s: Index, env: Env, q: Vec, k: nat)
    requires Inv(s) && s.built == [] && s.pending == []
    ensures Select(SearchBuilt(s, env, q, k) + SearchPending(s, env, q, k), k) == []
  {
  }

  lemma {:induction false} PointsAreWhole(config: Config, entries: seq<Entry>)
    requires !config.Matryoshka()
    requires forall e :: e in entries ==> |e.vec| == config.dimensions
    ensures Points(config, entries) == entries
  {
    forall i | 0 <= i < |entries|
      ensures Points(config, entries)[i] == entries[i]
    {
      assert entries[i] in entries;
    }
  }

  lemma {:induction false} ScoresAppend(m: Metric, root: Root, query: Vec, a: seq<Entry>, b: seq<Entry>)
    ensures Scores(m, root, query, a + b) == Scores(m, root, query, a) + Scores(m, root, query, b)
  {
    MapAppend(ScoreOf(m, root, query), a, b);
  }

  /** No search dimensions are set below the vectors' own, and the vectors are not quantized. */
  predicate WholeVectors(config: Config) {
    (config.searchDimensions == 0 || config.searchDimensions >= config.dimensions) && !config.mode.Uint8?
  }

  /**
   With full vectors and exact distances, search returns the k nearest stored vectors,
   however they happen to be split between the tiers.
   */
  lemma {:induction false} SearchFindsNearest(s: Index, env: Env, query: Vec, k: nat)
    requires Inv(s) && Exact(env) && WholeVectors(s.config)
    ensures IsTopK(Ranked(s, env, query, k), multiset(Scores(s.config.metric, env.root, query, s.Stored())), k)
    ensures s.config.metric.DotProduct? ==> Negated(Search(s, env, query, k)) == Ranked(s, env, query, k)
    ensures !s.config.metric.DotProduct? ==> Search(s, env, query, k) == Ranked(s, env, query, k)
  {
    TwoTierTopK(s, env, query, k);
    PointsAreWhole(s.config, s.built);
    ScoresAppend(s.config.metric, env.root, query, s.built, s.pending);
    NegatedTwice(Ranked(s, env, query, k));
  }

  /** The hit of one stored vector, as callers see it: for DotProduct the similarity, otherwise the distance. */
  function Reported(m: Metric, root: Root, query: Vec, e: Entry): Hit<I64> {
    Hit(AsI64(e.id), if m.DotProduct? then Dot(query, e.vec) else Distance(m, root, query, e.vec))
  }

  lemma {:induction false} ScoresOf(m: Metric, root: Root, query: Vec, entries: seq<Entry>, e: Entry)
    requires e in entries
    ensures Hit(AsI64(e.id), Distance(m, root, query, e.vec)) in Scores(m, root, query, entries)
  {
    var i :| 0 <= i < |entries| && entries[i] == e;
    assert Scores(m, root, query, entries)[i] == Hit(AsI64(e.id), Distance(m, root, query, e.vec));
  }

  lemma {:induction false} ScoresFrom(m: Metric, root: Root, query: Vec, entries: seq<Entry>, h: Hit<I64>) returns (e: Entry)
    requires h in Scores(m, root, query, entries)
    ensures e in entries && h == Hit(AsI64(e.id), Distance(m, root, query, e.vec))
  {
    var i :| 0 <= i < |entries| && Scores(m, root, query, entries)[i] == h;
    e := entries[i];
  }

  /** The candidates of an index have different offsets. */
  lemma {:induction false} ScoreItemsDistinct(s: Index, env: Env, query: Vec)
    requires Inv(s)
    ensures Distinct(Items(Scores(s.config.metric, env.root, query, s.Stored())))
  {
    OffsetsDistinct(s.Stored());
    ScoreItems(s.config.metric, env.root, query, s.Stored());
  }

  /** Every hit is a stored vector with its own distance or similarity. */
  lemma {:induction false} AnswerIsStored(s: Index, env: Env, query: Vec, k: nat, h: Hit<I64>) returns (e: Entry)
    requires Inv(s) && Exact(env) && WholeVectors(s.config) && h in Search(s, env, query, k)
    ensures e in s.Stored() && h == Reported(s.config.metric, env.root, query, e)
  {
    hide Inv, Exact, Ranked, IsTopK, Scores;
    SearchFindsNearest(s, env, query, k);
    var r := Ranked(s, env, query, k);
    var raw := if s.config.metric.DotProduct? then Hit(h.item, -h.distance) else h;
    NegatedHas(r, h);
    ReturnedIsInPool(r, Scores(s.config.metric, env.root, query, s.Stored()), k, raw);
    e := ScoresFrom(s.config.metric, env.root, query, s.Stored(), raw);
  }

  lemma {:induction false} NegatedHas<T>(hits: seq<Hit<T>>, h: Hit<T>)
    ensures h in Negated(hits) ==> Hit(h.item, -h.distance) in hits
  {
    if h in Negated(hits) {
      var i :| 0 <= i < |hits| && Negated(hits)[i] == h;
      assert hits[i] == Hit(h.item, -h.distance);
    }
  }

  /**
   In plain terms: of two stored vectors of which search returns only the first, the first is no farther
   from the query, in difference, in angle or in dot product.
   */
  lemma {:induction false} AnswerIsNearest(s: Index, env: Env, query: Vec, k: nat, a: Entry, b: Entry)
    requires Inv(s) && Exact(env) && IsSqrt(env.root) && WholeVectors(s.config)
    requires a in s.Stored() && b in s.Stored() && Comparable(s.config.metric, query, a.vec, b.vec)
    requires AsI64(a.id) in Items(Search(s, env, query, k)) && AsI64(b.id) !in Items(Search(s, env, query, k))
    ensures NoFarther(s.config.metric, env.root, query, a.vec, b.vec)
  {
    hide Inv, Exact, Ranked, IsTopK, Scores, Distance, Comparable, NoFarther;
    var m, pool := s.config.metric, Scores(s.config.metric, env.root, query, s.Stored());
    SearchFindsNearest(s, env, query, k);
    NegatedItems(Ranked(s, env, query, k));
    ScoresOf(m, env.root, query, s.Stored(), a);
    ScoresOf(m, env.root, query, s.Stored(), b);
    ScoreItemsDistinct(s, env, query);
    ReturnedIsNoFarther(Ranked(s, env, query, k), pool, k,
      Hit(AsI64(a.id), Distance(m, env.root, query, a.vec)), Hit(AsI64(b.id), Distance(m, env.root, query, b.vec)));
    DistanceOrders(m, env.root, query, a.vec, b.vec);
  }

  /** And of two that it returns, the first in the list is no farther. */
  lemma {:induction false} AnswerIsRanked(s: Index, env: Env, query: Vec, k: nat, i: nat, j: nat, a: Entry, b: Entry)
    requires Inv(s) && Exact(env) && IsSqrt(env.root) && WholeVectors(s.config)
    requires i < j < |Search(s, env, query, k)| && Comparable(s.config.metric, query, a.vec, b.vec)
    requires Search(s, env, query, k)[i] == Reported(s.config.metric, env.root, query, a)
    requires Search(s, env, query, k)[j] == Reported(s.config.metric, env.root, query, b)
    ensures NoFarther(s.config.metric, env.root, query, a.vec, b.vec)
  {
    hide Inv, Exact, Ranked, Scores, Comparable, NoFarther;
    SearchFindsNearest(s, env, query, k);
    DistanceOrders(s.config.metric, env.root, query, a.vec, b.vec);
  }

  // ---- Quantized vectors ----

  lemma {:induction false} PendingScoreAt(s: Index, env: Env, query: Vec, i: nat)
    requires Inv(s) && s.config.mode.Uint8? && s.built != [] && i < |s.pending|
    ensures |PendingScores(s, env, query)| == |s.pending| && |s.pending[i].vec| == s.config.dimensions
    ensures s.quantizer.Some? && s.quantizer.value.dimensions == s.config.dimensions && s.quantizer.value.Ordered()
    ensures var q := s.quantizer.value;
            PendingScores(s, env, query)[i] ==
            Hit(AsI64(s.pending[i].id), QuantizedDistance(s.config.metric, env.root, q, query, q.Quantize(s.pending[i].vec)))
  {
    hide QuantizedDistance, Fit;
    assert s.built[0] in s.built && s.pending[i] in s.pending;
    FitIsOrdered(Vectors(s.built), s.config.dimensions, 0);
    assert s.quantizedPending[i].bytes == s.quantizer.value.Quantize(s.pending[i].vec);
  }

  /** The distance that ranks a pending vector is close to its true one, measured to the vector moved into the trained bounds. */
  lemma {:induction false} PendingScoreIsClose(s: Index, env: Env, query: Vec, i: nat)
    requires Inv(s) && IsSqrt(env.root) && s.config.mode.Uint8? && s.built != []
    requires i < |s.pending| && |query| <= s.config.dimensions
    ensures |PendingScores(s, env, query)| == |s.pending| && s.quantizer.Some? && s.quantizer.value.Ordered()
    ensures var h, q, near := PendingScores(s, env, query)[i], s.quantizer.value, s.quantizer.value.Clamped(s.pending[i].vec);
            && h.item == AsI64(s.pending[i].id)
            && (s.config.metric.Euclidean? ==>
                  RealArithmetic.Abs(h.distance - Distance(Euclidean, env.root, query, near)) <= env.root(Squares(q.Steps()[..|query|])))
            && (s.config.metric.DotProduct? ==>
                  RealArithmetic.Abs(h.distance + Dot(query, near)) <= RealArithmetic.Sum(q.TermErrors(query)))
            && (s.config.metric.Cosine? ==>
                  var rough := TruncateVec(q.Dequantize(q.Quantize(s.pending[i].vec)), |query|);
                  && 0.0 <= h.distance <= 2.0
                  && RealArithmetic.Abs((1.0 - h.distance) * (env.root(Squares(query)) * env.root(Squares(rough))) - Dot(query, near))
                       <= RealArithmetic.Sum(q.TermErrors(query)))
  {
    hide QuantizedDistance, Fit, RealArithmetic.Sum, Dot, Distance, PendingScores;
    PendingScoreAt(s, env, query, i);
    var q, v := s.quantizer.value, s.pending[i].vec;
    match s.config.metric
    case Euclidean => EuclideanError(env.root, q, query, v);
    case DotProduct => DotProductError(env.root, q, query, v);
    case Cosine => CosineError(env.root, q, query, v);
  }

  lemma {:induction false} NegatedDistances<T>(a: seq<Hit<T>>, b: seq<Hit<T>>)
    requires DistancesOf(a) == DistancesOf(b)
    ensures DistancesOf(Negated(a)) == DistancesOf(Negated(b))
  {
    assert |a| == |b|;
    forall i | 0 <= i < |a|
      ensures DistancesOf(Negated(a))[i] == DistancesOf(Negated(b))[i]
    {
      assert DistancesOf(a)[i] == DistancesOf(b)[i];
    }
  }

  /** The distances returned depend on what is stored, not on which tier holds it. */
  lemma {:induction false} SplitDoesNotMatter(s: Index, t: Index, env: Env, query: Vec, k: nat)
    requires Inv(s) && Inv(t) && Exact(env) && s.config == t.config && s.Stored() == t.Stored()
    requires WholeVectors(s.config)
    ensures DistancesOf(Search(s, env, query, k)) == DistancesOf(Search(t, env, query, k))
  {
    SearchFindsNearest(s, env, query, k);
    SearchFindsNearest(t, env, query, k);
    var a, b := Ranked(s, env, query, k), Ranked(t, env, query, k);
    TopKDistancesUnique(a, b, multiset(Scores(s.config.metric, env.root, query, s.Stored())), k);
    NegatedDistances(a, b);
  }

  /** So neither a rebuild nor a restart changes the distances of any answer. */
  lemma {:induction false} RebuildKeepsAnswers(s: Index, env: Env, query: Vec, k: nat, op: Op)
    requires Inv(s) && Exact(env) && WholeVectors(s.config) && !op.AddOp?
    ensures Inv(Apply(s, op))
    ensures DistancesOf(Search(Apply(s, op), env, query, k)) == DistancesOf(Search(s, env, query, k))
  {
    ApplyKeepsInv(s, op);
    SplitDoesNotMatter(Apply(s, op), s, env, query, k);
  }

  /** The hits of stored vectors cut to their first `d` components, for a query cut likewise. */
  function CutHits(m: Metric, root: Root, query: Vec, entries: seq<Entry>, d: nat): (r: seq<Hit<I64>>)
    requires d <= |query| && forall e :: e in entries ==> d <= |e.vec|
    ensures |r| == |entries|
    ensures forall i :: 0 <= i < |r| ==> r[i] == Hit(AsI64(entries[i].id), Distance(m, root, query[..d], entries[i].vec[..d]))
  {
    seq(|entries|, i requires 0 <= i < |entries| =>
      assert entries[i] in entries;
      Hit(AsI64(entries[i].id), Distance(m, root, query[..d], entries[i].vec[..d])))
  }

  /**
   With vectors cut to the search dimensions, both tiers rank by the cut distance, for
   Euclidean and DotProduct. `TruncatedCosineAgreesIff` says when Cosine does.
   */
  lemma {:induction false} TruncatedSearchFindsNearest(s: Index, env: Env, query: Vec, k: nat)
    requires Inv(s) && Exact(env) && !s.config.adaptive && !s.config.mode.Uint8?
    requires s.config.metric != Cosine && 0 < s.config.searchDimensions < s.config.dimensions == |query|
    ensures forall e :: e in s.Stored() ==> s.config.searchDimensions <= |e.vec|
    ensures IsTopK(Ranked(s, env, query, k),
                   multiset(CutHits(s.config.metric, env.root, query, s.Stored(), s.config.searchDimensions)), k)
  {
    var q := GraphQuery(s.config, query);
    TwoTierTopK(s, env, query, k);
    CutScoresAgree(s.config, env.root, q, s.pending);
    PointsAppend(s.config, s.built, s.pending);
    ScoresAppend(s.config.metric, env.root, q, Points(s.config, s.built), Points(s.config, s.pending));
    CutHitsAreScores(s.config, env.root, query, s.Stored());
  }

  lemma {:induction false} CutHitsAreScores(config: Config, root: Root, query: Vec, entries: seq<Entry>)
    requires 0 < config.searchDimensions < config.dimensions == |query|
    requires forall e :: e in entries ==> |e.vec| == config.dimensions
    ensures CutHits(config.metric, root, query, entries, config.searchDimensions) ==
            Scores(config.metric, root, GraphQuery(config, query), Points(config, entries))
  {
    hide Distance;
    forall i | 0 <= i < |entries|
      ensures CutHits(config.metric, root, query, entries, config.searchDimensions)[i] ==
              Scores(config.metric, root, GraphQuery(config, query), Points(config, entries))[i]
    {
      assert entries[i] in entries;
    }
  }

  lemma {:induction false} PointsAppend(config: Config, a: seq<Entry>, b: seq<Entry>)
    ensures Points(config, a + b) == Points(config, a) + Points(config, b)
  {
  }

  lemma {:induction false} CutScoresAgree(config: Config, root: Root, q: Vec, entries: seq<Entry>)
    requires config.metric != Cosine && |q| == config.EffectiveDims()
    requires forall e :: e in entries ==> |e.vec| == config.dimensions
    ensures Scores(config.metric, root, q, entries) == Scores(config.metric, root, q, Points(config, entries))
  {
    forall i | 0 <= i < |entries|
      ensures Scores(config.metric, root, q, entries)[i] == Scores(config.metric, root, q, Points(config, entries))[i]
    {
      assert entries[i] in entries;
      TruncatedQueryAgrees(config.metric, root, q, entries[i].vec);
    }
  }

  // ---- No stored vector is skipped, in any mode ----

  function Offsets(entries: seq<Entry>): (r: seq<I64>)
    ensures |r| == |entries|
  {
    Map((e: Entry) => AsI64(e.id), entries)
  }

  lemma {:induction false} ScoreItems(m: Metric, root: Root, q: Vec, entries: seq<Entry>)
    ensures Items(Scores(m, root, q, entries)) == Offsets(entries)
  {
  }

  lemma {:induction false} OffsetsAppend(a: seq<Entry>, b: seq<Entry>)
    ensures Offsets(a + b) == Offsets(a) + Offsets(b)
  {
  }

  lemma {:induction false} PointOffsets(config: Config, entries: seq<Entry>)
    ensures Offsets(Points(config, entries)) == Offsets(entries)
  {
  }

  lemma {:induction false} PendingItems(s: Index, env: Env, q: Vec)
    requires Inv(s)
    ensures Items(PendingScores(s, env, q)) == Offsets(s.pending)
  {
    ScoreItems(s.config.metric, env.root, q, s.pending);
  }

  lemma {:induction false} PoolCoversStored(s: Index, env: Env, query: Vec)
    requires Inv(s)
    ensures Items(Pool(s, env, query)) == Offsets(s.Stored())
  {
    var q := GraphQuery(s.config, query);
    var points := Points(s.config, s.built);
    ScoreItems(s.config.metric, env.root, q, points);
    PointOffsets(s.config, s.built);
    PendingItems(s, env, q);
    ItemsAppend(Scores(s.config.metric, env.root, q, points), PendingScores(s, env, q));
    OffsetsAppend(s.built, s.pending);
  }

  lemma {:induction false} FindFirst(entries: seq<Entry>, id: U64)
    ensures match Find(entries, id)
            case Some(e) => e in entries && e.id == id
            case None => id !in Ids(entries)
  {
    if entries != [] && entries[0].id != id {
      FindFirst(entries[1..], id);
      assert Ids(entries) == [entries[0].id] + Ids(entries[1..]);
    }
  }

  lemma {:induction false} FindStoredFinds(s: Index, id: U64)
    requires id in Ids(s.Stored())
    ensures FindStored(s, id).Some? && FindStored(s, id).value in s.Stored() && FindStored(s, id).value.id == id
  {
    FindFirst(s.built, id);
    FindFirst(s.pending, id);
    IdsAppend(s.built, s.pending);
  }

  /** `h` is a stored vector with its distance at full length. */
  ghost predicate ScoresStored(s: Index, env: Env, query: Vec, h: Hit<I64>) {
    exists e :: e in s.Stored() && h == ScoreOf(s.config.metric, env.root, query)(e)
  }

  lemma {:induction false} RescoredStep(s: Index, env: Env, query: Vec, candidates: seq<Hit<I64>>) returns (h: Hit<I64>)
    requires candidates != [] && AsU64(candidates[0].item) in Ids(s.Stored())
    ensures Rescored(s, env, query, candidates) == [h] + Rescored(s, env, query, candidates[1..])
    ensures h.item == candidates[0].item && ScoresStored(s, env, query, h)
  {
    var item := candidates[0].item;
    FindStoredFinds(s, AsU64(item));
    OffsetRoundTrip(item, AsU64(item));
    var e := FindStored(s, AsU64(item)).value;
    h := Hit(item, Distance(s.config.metric, env.root, query, e.vec));
    assert h == ScoreOf(s.config.metric, env.root, query)(e);
  }

  /** Re-scoring keeps every candidate, in order, and gives it its full-length distance. */
  lemma {:induction false} RescoredKeepsAll(s: Index, env: Env, query: Vec, candidates: seq<Hit<I64>>)
    requires forall h :: h in candidates ==> AsU64(h.item) in Ids(s.Stored())
    ensures Items(Rescored(s, env, query, candidates)) == Items(candidates)
    ensures forall h :: h in Rescored(s, env, query, candidates) ==> ScoresStored(s, env, query, h)
  {
    if candidates != [] {
      assert candidates[0] in candidates;
      var h := RescoredStep(s, env, query, candidates);
      RescoredKeepsAll(s, env, query, candidates[1..]);
      assert candidates == [candidates[0]] + candidates[1..];
      ItemsAppend([h], Rescored(s, env, query, candidates[1..]));
      ItemsAppend([candidates[0]], candidates[1..]);
    }
  }

  lemma {:induction false} CandidatesAreStored(s: Index, env: Env, query: Vec, k: nat)
    requires Inv(s) && Exact(env)
    ensures multiset(Candidates(s, env, query, k)) <= multiset(Pool(s, env, query))
    ensures |s.Stored()| <= k ==> multiset(Candidates(s, env, query, k)) == multiset(Pool(s, env, query))
    ensures forall h :: h in Candidates(s, env, query, k) ==> AsU64(h.item) in Ids(s.Stored())
  {
    var searchK := if Adaptive(s.config) then k * 3 else k;
    var q := GraphQuery(s.config, query);
    TierTopK(s, env, query, searchK);
    var builtPool := Scores(s.config.metric, env.root, q, Points(s.config, s.built));
    if |s.Stored()| <= k {
      TopKOfAll(SearchBuilt(s, env, q, searchK), multiset(builtPool), searchK);
      TopKOfAll(SearchPending(s, env, q, searchK), multiset(PendingScores(s, env, q)), searchK);
    }
    PoolCoversStored(s, env, query);
    forall h | h in Candidates(s, env, query, k)
      ensures AsU64(h.item) in Ids(s.Stored())
    {
      assert h in multiset(Candidates(s, env, query, k));
      assert h in multiset(Pool(s, env, query));
      var i :| 0 <= i < |Pool(s, env, query)| && Pool(s, env, query)[i] == h;
      assert Items(Pool(s, env, query))[i] == h.item == AsI64(s.Stored()[i].id);
      OffsetRoundTrip(h.item, s.Stored()[i].id);
      assert Ids(s.Stored())[i] == AsU64(h.item);
    }
  }

  /**
   No stored vector is ever out of reach of search: asked for as many as are stored, it
   returns every offset exactly once, with any metric, quantization, truncation or re-scoring.
   */
  lemma {:induction false} SearchReachesEverything(s: Index, env: Env, query: Vec, k: nat)
    requires Inv(s) && Exact(env) && |s.Stored()| <= k
    ensures multiset(Items(Search(s, env, query, k))) == multiset(Offsets(s.Stored()))
    ensures Distinct(Offsets(s.Stored()))
  {
    var chosen := RankedChooses(s, env, query, k);
    CandidatesReachEverything(s, env, query, k);
    SelectAll(chosen, k);
    NegatedItems(Ranked(s, env, query, k));
    OffsetsDistinct(s.Stored());
  }

  lemma {:induction false} CandidatesReachEverything(s: Index, env: Env, query: Vec, k: nat)
    requires Inv(s) && Exact(env) && |s.Stored()| <= k
    ensures multiset(Items(Candidates(s, env, query, k))) == multiset(Offsets(s.Stored()))
    ensures |Candidates(s, env, query, k)| == |s.Stored()|
  {
    CandidatesAreStored(s, env, query, k);
    PoolCoversStored(s, env, query);
    ItemsPermutation(Candidates(s, env, query, k), Pool(s, env, query));
    assert |Pool(s, env, query)| == |Offsets(s.Stored())|;
  }

  /** Whatever the mode, the answer is cut from a list with one hit per candidate. */
  lemma {:induction false} RankedChooses(s: Index, env: Env, query: Vec, k: nat) returns (chosen: seq<Hit<I64>>)
    requires Inv(s) && Exact(env)
    ensures Ranked(s, env, query, k) == Select(chosen, k)
    ensures Items(chosen) == Items(Candidates(s, env, query, k))
  {
    var found := Candidates(s, env, query, k);
    CandidatesAreStored(s, env, query, k);
    RescoredKeepsAll(s, env, query, found);
    chosen := if Adaptive(s.config) && found != [] then Rescored(s, env, query, found) else found;
    if s.Stored() == [] {
      CandidatesReachEverything(s, env, query, k);
    }
  }

  lemma {:induction false} SelectAll<T>(hits: seq<Hit<T>>, k: nat)
    requires |hits| <= k
    ensures multiset(Items(Select(hits, k))) == multiset(Items(hits))
  {
    SelectIsTopK(hits, k);
    TopKOfAll(Select(hits, k), multiset(hits), k);
    ItemsPermutation(Select(hits, k), hits);
  }

  lemma {:induction false} NegatedItems<T>(hits: seq<Hit<T>>)
    ensures Items(Negated(hits)) == Items(hits)
  {
  }

  lemma {:induction false} OffsetsDistinct(entries: seq<Entry>)
    requires Distinct(Ids(entries))
    ensures Distinct(Offsets(entries))
  {
    forall i, j | 0 <= i < j < |entries|
      ensures Offsets(entries)[i] != Offsets(entries)[j]
    {
      assert Ids(entries)[i] != Ids(entries)[j];
      OffsetRoundTrip(0, entries[i].id);
      OffsetRoundTrip(0, entries[j].id);
    }
  }

  /**
   With re-scoring, the answer is the k nearest, at full length, of the candidates that the
   cut vectors gave; every distance returned is a stored vector's full-length distance.
   */
  lemma {:induction false} AdaptiveSearchRescores(s: Index, env: Env, query: Vec, k: nat)
    requires Inv(s) && Exact(env) && Adaptive(s.config)
    ensures var full := Rescored(s, env, query, Candidates(s, env, query, k));
            && IsTopK(Ranked(s, env, query, k), multiset(full), k)
            && Items(full) == Items(Candidates(s, env, query, k))
            && forall h :: h in full ==> ScoresStored(s, env, query, h)
  {
    var found := Candidates(s, env, query, k);
    CandidatesAreStored(s, env, query, k);
    RescoredKeepsAll(s, env, query, found);
    SelectIsTopK(Rescored(s, env, query, found), k);
    if s.Stored() == [] {
      CandidatesAreStored(s, env, query, 0);
      assert Pool(s, env, query) == [];
      assert multiset(found) == multiset{};
      assert found == [];
    }
  }

  /** What the answer is chosen from: everything stored or, with re-scoring, the re-scored candidates. */
  function RankedPool(s: Index, env: Env, query: Vec, k: nat): seq<Hit<I64>>
    requires Inv(s)
  {
    if Adaptive(s.config) then Rescored(s, env, query, Candidates(s, env, query, k)) else Pool(s, env, query)
  }

  lemma {:induction false} RankedTopK(s: Index, env: Env, query: Vec, k: nat)
    requires Inv(s) && Exact(env)
    ensures IsTopK(Ranked(s, env, query, k), multiset(RankedPool(s, env, query, k)), k)
  {
    hide Inv, Exact, IsTopK, Ranked, Pool, Rescored, Candidates;
    if Adaptive(s.config) {
      AdaptiveSearchRescores(s, env, query, k);
    } else {
      TwoTierTopK(s, env, query, k);
    }
  }

  lemma {:induction false} CandidatesSize(s: Index, env: Env, query: Vec, k: nat)
    requires Inv(s) && Exact(env)
    ensures var searchK := if Adaptive(s.config) then k * 3 else k;
            |Candidates(s, env, query, k)| == Min(searchK, |s.built|) + Min(searchK, |s.pending|)
  {
    hide Exact, SearchBuilt, SearchPending, PendingScores;
    var q, searchK := GraphQuery(s.config, query), if Adaptive(s.config) then k * 3 else k;
    TierTopK(s, env, query, searchK);
    PendingItems(s, env, q);
    assert |PendingScores(s, env, q)| == |Items(PendingScores(s, env, q))| == |s.pending|;
    assert |Scores(s.config.metric, env.root, q, Points(s.config, s.built))| == |s.built|;
  }

  /** Search returns k hits, or as many as there are vectors, in every mode. */
  lemma {:induction false} SearchSize(s: Index, env: Env, query: Vec, k: nat)
    requires Inv(s) && Exact(env)
    ensures |Search(s, env, query, k)| == Min(k, |s.Stored()|)
  {
    hide Inv, Exact, Ranked, Rescored, Candidates, Pool;
    RankedTopK(s, env, query, k);
    if Adaptive(s.config) {
      AdaptiveSearchRescores(s, env, query, k);
      CandidatesSize(s, env, query, k);
      var full := Rescored(s, env, query, Candidates(s, env, query, k));
      assert |full| == |Items(full)| == |Candidates(s, env, query, k)|;
    } else {
      PoolCoversStored(s, env, query);
      assert |Pool(s, env, query)| == |Items(Pool(s, env, query))| == |s.Stored()|;
    }
  }

  // ---- What holds of any sound graph, however approximate ----

  ghost predicate Sound(env: Env) {
    forall m, points, query, k ::
      var r := env.graphSearch(m, points, query, k);
      |r| <= k && multiset(r) <= multiset(Scores(m, env.root, query, points))
  }

  lemma {:induction false} SubpoolItemsDistinct<T>(a: seq<Hit<T>>, b: seq<Hit<T>>)
    requires multiset(a) <= multiset(b) && Distinct(Items(b))
    ensures Distinct(Items(a))
    ensures forall x :: x in Items(a) ==> x in Items(b)
  {
    var rest := SeqOf(multiset(b) - multiset(a));
    assert multiset(a + rest) == multiset(b);
    ItemsPermutation(a + rest, b);
    ItemsAppend(a, rest);
    DistinctMultiset(Items(b));
    DistinctMultiset(Items(a));
    assert forall x :: multiset(Items(a))[x] <= multiset(Items(b))[x];
    forall x | x in Items(a)
      ensures x in Items(b)
    {
      assert x in multiset(Items(a));
      assert x in multiset(Items(b));
    }
  }

  /** With any sound graph the candidates are distinct stored vectors with their tier's distances. */
  lemma {:induction false} SoundCandidates(s: Index, env: Env, query: Vec, k: nat)
    requires Inv(s) && Sound(env)
    ensures var found := Candidates(s, env, query, k);
            && multiset(found) <= multiset(Pool(s, env, query))
            && Distinct(Items(found))
            && forall o :: o in Items(found) ==> o in Offsets(s.Stored())
  {
    var q := GraphQuery(s.config, query);
    var searchK := if Adaptive(s.config) then k * 3 else k;
    var found := Candidates(s, env, query, k);
    SelectIsTopK(PendingScores(s, env, q), searchK);
    SelectIsTopK(Scores(s.config.metric, env.root, q, s.built), searchK);
    assert multiset(SearchBuilt(s, env, q, searchK)) <= multiset(Scores(s.config.metric, env.root, q, Points(s.config, s.built)));
    assert multiset(found) <= multiset(Pool(s, env, query));
    PoolCoversStored(s, env, query);
    OffsetsDistinct(s.Stored());
    SubpoolItemsDistinct(found, Pool(s, env, query));
  }

  lemma {:induction false} OffsetsAreIds(s: Index, o: I64)
    requires o in Offsets(s.Stored())
    ensures AsU64(o) in Ids(s.Stored())
  {
    var i :| 0 <= i < |s.Stored()| && Offsets(s.Stored())[i] == o;
    OffsetRoundTrip(o, s.Stored()[i].id);
    assert Ids(s.Stored())[i] == AsU64(o);
  }

  lemma {:induction false} SoundRescored(s: Index, env: Env, query: Vec, k: nat)
    requires Inv(s) && Sound(env)
    ensures var full := Rescored(s, env, query, Candidates(s, env, query, k));
            && Items(full) == Items(Candidates(s, env, query, k))
            && forall h :: h in full ==> ScoresStored(s, env, query, h)
  {
    hide Inv, Candidates, Rescored, ScoresStored, AsU64, Sound, Pool;
    var found := Candidates(s, env, query, k);
    SoundCandidates(s, env, query, k);
    forall h | h in found ensures AsU64(h.item) in Ids(s.Stored()) {
      var i :| 0 <= i < |found| && found[i] == h;
      assert Items(found)[i] == h.item;
      OffsetsAreIds(s, h.item);
    }
    RescoredKeepsAll(s, env, query, found);
  }

  /**
   An approximate graph may miss neighbours, but search never invents, repeats or mis-scores one:
   without re-scoring each hit has its tier's distance, with re-scoring its full-length distance.
   */
  lemma {:induction false} SoundSearch(s: Index, env: Env, query: Vec, k: nat)
    requires Inv(s) && Sound(env)
    ensures |Ranked(s, env, query, k)| <= k && Ascending(Ranked(s, env, query, k))
    ensures Distinct(Items(Ranked(s, env, query, k)))
    ensures forall o :: o in Items(Ranked(s, env, query, k)) ==> o in Offsets(s.Stored())
    ensures !Adaptive(s.config) ==> multiset(Ranked(s, env, query, k)) <= multiset(Pool(s, env, query))
    ensures Adaptive(s.config) ==> forall h :: h in Ranked(s, env, query, k) ==> ScoresStored(s, env, query, h)
  {
    hide Inv, Candidates, Rescored, ScoresStored, Sound, Pool, Select;
    var found := Candidates(s, env, query, k);
    SoundCandidates(s, env, query, k);
    SoundRescored(s, env, query, k);
    var full := Rescored(s, env, query, found);
    if s.built == [] && s.pending == [] {
      assert Ranked(s, env, query, k) == [];
    } else {
      var chosen := if Adaptive(s.config) && found != [] then full else found;
      SelectIsTopK(chosen, k);
      SubpoolItemsDistinct(Select(chosen, k), chosen);
      forall h | h in Select(chosen, k) ensures h in chosen {
        assert h in multiset(Select(chosen, k));
        assert h in multiset(chosen);
      }
    }
  }

  // ---- The assumptions can be met ----

  /** A graph that scans: what `Exact` and `Sound` ask for exists, over any square root. */
  function ScanningEnv(root: Root): Env {
    Env(root, (m: Metric, points: seq<Entry>, query: Vec, k: nat) => Select(Scores(m, root, query, points), k))
  }

  lemma {:induction false} ScanningIsExact(root: Root)
    ensures Exact(ScanningEnv(root)) && Sound(ScanningEnv(root))
  {
    forall m: Metric, points: seq<Entry>, query: Vec, k: nat
      ensures IsTopK(ScanningEnv(root).graphSearch(m, points, query, k), multiset(Scores(m, root, query, points)), k)
    {
      SelectIsTopK(Scores(m, root, query, points), k);
    }
  }
}
