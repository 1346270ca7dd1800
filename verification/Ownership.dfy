/**
 Distributed queries over replicated partitions: each node answers for the partitions it
 leads, so that together they read every partition exactly once.
 */
module Ownership {
  import opened Sequences
  import opened PartitionAssignment

  type Rows = seq<string>

  /** Row batches by partition. */
  type Table = map<int, Rows>

  /** `retaining`: drop every partition that is not owned. */
  function Retaining(t: Table, owned: set<int>): Table {
    map p | p in t && p in owned :: t[p]
  }

  /** The leadership rule. */
  function Owned(m: Assignments, topic: string, node: NodeId): set<int> {
    set key | key in m && key.topic == topic && m[key].leader == node :: key.partition
  }

  /** The number of rows of a table. */
  ghost function Count(t: Table): nat
    decreases |t|
  {
    if t.Keys == {} then 0
    else
      var p := Pick(t.Keys);
      assert |t - {p}| < |t| by { Smaller(t, p); }
      |t[p]| + Count(t - {p})
  }

  lemma {:induction false} Smaller(t: Table, p: int)
    requires p in t
    ensures |t - {p}| == |t| - 1
  {
    assert (t - {p}).Keys == t.Keys - {p};
    assert |t.Keys - {p}| == |t.Keys| - 1;
  }

  /** Any partition may be counted first. */
  lemma {:induction false} CountRemove(t: Table, p: int)
    requires p in t
    ensures Count(t) == |t[p]| + Count(t - {p})
    decreases |t|
  {
    Smaller(t, p);
    var q := Pick(t.Keys);
    if q != p {
      Smaller(t, q);
      CountRemove(t - {q}, p);
      CountRemove(t - {p}, q);
      assert t - {q} - {p} == t - {p} - {q};
    }
  }

  lemma {:induction false} CountDisjointUnion(a: Table, b: Table)
    requires a.Keys !! b.Keys
    ensures Count(a + b) == Count(a) + Count(b)
    decreases |b|
  {
    hide Count;
    if b.Keys == {} {
      UnionWithNothing(a, b);
    } else {
      var p := Pick(b.Keys);
      Smaller(b, p);
      UnionWithout(a, b, p);
      CountDisjointUnion(a, b - {p});
      CountRemove(b, p);
      CountRemove(a + b, p);
    }
  }

  lemma {:induction false} UnionWithNothing(a: Table, b: Table)
    requires b.Keys == {}
    ensures Count(a + b) == Count(a) && Count(b) == 0
  {
    assert a + b == a;
  }

  lemma {:induction false} UnionWithout(a: Table, b: Table, p: int)
    requires p in b && p !in a
    ensures (a + b) - {p} == a + (b - {p}) && (a + b)[p] == b[p]
  {
  }

  /** Every replica of an assigned partition holds that partition, and no node holds anything else. */
  predicate ReplicasHold(m: Assignments, topic: string, full: Table, local: map<NodeId, Table>) {
    && (forall p :: p in full && PartitionKey(topic, p) in m ==>
          forall i :: 0 <= i < |m[PartitionKey(topic, p)].replicas| ==>
            var n := m[PartitionKey(topic, p)].replicas[i];
            n in local && p in local[n])
    && (forall n :: n in local ==> forall p :: p in local[n] ==> p in full && local[n][p] == full[p])
  }

  /** What node `n` contributes to a query. */
  function NodeAnswer(m: Assignments, topic: string, local: map<NodeId, Table>, n: NodeId): Table {
    if n in local then Retaining(local[n], Owned(m, topic, n)) else map[]
  }

  /** A partition is answered by its leader, completely, and by nobody else. */
  lemma {:induction false} AnsweredByLeader(m: Assignments, topic: string, full: Table, local: map<NodeId, Table>, n: NodeId, p: int)
    requires Valid(m) && ReplicasHold(m, topic, full, local)
    ensures p in NodeAnswer(m, topic, local, n) <==>
              p in full && PartitionKey(topic, p) in m && m[PartitionKey(topic, p)].leader == n
    ensures p in NodeAnswer(m, topic, local, n) ==> NodeAnswer(m, topic, local, n)[p] == full[p]
  {
    var key := PartitionKey(topic, p);
    if p in full && key in m && m[key].leader == n {
      assert ValidInfo(m[key]);
      var i :| 0 <= i < |m[key].replicas| && m[key].replicas[i] == n;
      assert n in local && p in local[n];
      assert p in Owned(m, topic, n);
    }
  }

  /** Two nodes never answer for the same partition, whatever the replication factor. */
  lemma {:induction false} AnswersDisjoint(m: Assignments, topic: string, full: Table, local: map<NodeId, Table>, a: NodeId, b: NodeId)
    requires Valid(m) && ReplicasHold(m, topic, full, local) && a != b
    ensures NodeAnswer(m, topic, local, a).Keys !! NodeAnswer(m, topic, local, b).Keys
  {
    forall p | p in NodeAnswer(m, topic, local, a)
      ensures p !in NodeAnswer(m, topic, local, b)
    {
      AnsweredByLeader(m, topic, full, local, a, p);
      AnsweredByLeader(m, topic, full, local, b, p);
    }
  }

  /** All the answers of a cluster put together. */
  function Gathered(m: Assignments, topic: string, local: map<NodeId, Table>, cluster: seq<NodeId>): Table {
    if cluster == [] then map[]
    else Gathered(m, topic, local, cluster[..|cluster| - 1]) + NodeAnswer(m, topic, local, cluster[|cluster| - 1])
  }

  ghost function SumOfCounts(m: Assignments, topic: string, local: map<NodeId, Table>, cluster: seq<NodeId>): nat {
    if cluster == [] then 0
    else
      SumOfCounts(m, topic, local, cluster[..|cluster| - 1])
      + Count(NodeAnswer(m, topic, local, cluster[|cluster| - 1]))
  }

  lemma {:induction false} GatheredHas(m: Assignments, topic: string, full: Table, local: map<NodeId, Table>, cluster: seq<NodeId>, p: int)
    requires Valid(m) && ReplicasHold(m, topic, full, local)
    ensures p in Gathered(m, topic, local, cluster) <==>
              p in full && PartitionKey(topic, p) in m && m[PartitionKey(topic, p)].leader in cluster
    ensures p in Gathered(m, topic, local, cluster) ==> Gathered(m, topic, local, cluster)[p] == full[p]
  {
    hide Valid, ReplicasHold, NodeAnswer;
    if cluster != [] {
      var n := |cluster| - 1;
      GatheredHas(m, topic, full, local, cluster[..n], p);
      AnsweredByLeader(m, topic, full, local, cluster[n], p);
      assert cluster == cluster[..n] + [cluster[n]];
    }
  }

  /** Adding up the nodes' counts counts the gathered rows, none of them twice. */
  lemma {:induction false} CountsAddUp(m: Assignments, topic: string, full: Table, local: map<NodeId, Table>, cluster: seq<NodeId>)
    requires Valid(m) && ReplicasHold(m, topic, full, local) && Distinct(cluster)
    ensures SumOfCounts(m, topic, local, cluster) == Count(Gathered(m, topic, local, cluster))
  {
    hide Valid, ReplicasHold, NodeAnswer;
    if cluster != [] {
      var n := |cluster| - 1;
      CountsAddUp(m, topic, full, local, cluster[..n]);
      var rest, last := Gathered(m, topic, local, cluster[..n]), NodeAnswer(m, topic, local, cluster[n]);
      forall p | p in rest
        ensures p !in last
      {
        GatheredHas(m, topic, full, local, cluster[..n], p);
        AnsweredByLeader(m, topic, full, local, cluster[n], p);
      }
      CountDisjointUnion(rest, last);
    }
  }

  /**
   After any run of assignment operations: if every replica holds its partitions and all
   partitions of the topic are assigned to a cluster, the nodes' answers are the whole
   table, and COUNT(*) added up over the nodes is that of a single node with all the data.
   */
  lemma {:induction false} EachPartitionOnce(ops: seq<Op>, topic: string, full: Table, local: map<NodeId, Table>, cluster: seq<NodeId>)
    requires ReplicasHold(Run(ops), topic, full, local) && Distinct(cluster)
    requires forall p :: p in full ==> PartitionKey(topic, p) in Run(ops) && Run(ops)[PartitionKey(topic, p)].leader in cluster
    ensures Gathered(Run(ops), topic, local, cluster) == full
    ensures SumOfCounts(Run(ops), topic, local, cluster) == Count(full)
  {
    hide ReplicasHold, Valid;
    var m := Run(ops);
    RunIsValid(ops);
    CountsAddUp(m, topic, full, local, cluster);
    forall p
      ensures p in Gathered(m, topic, local, cluster) <==> p in full
      ensures p in full ==> Gathered(m, topic, local, cluster)[p] == full[p]
    {
      GatheredHas(m, topic, full, local, cluster, p);
    }
  }

  /** Without the rule, two replicas that answer for all they hold count every row twice. */
  lemma {:induction false} HoldingIsNotOwning(rows: Rows)
    requires rows != []
    ensures var full: Table := map[0 := rows];
            var m: Assignments := map[PartitionKey("t", 0) := PartitionInfo([1, 2], 1)];
            var local: map<NodeId, Table> := map[1 := full, 2 := full];
            && Valid(m) && ReplicasHold(m, "t", full, local)
            && Count(local[1]) + Count(local[2]) == 2 * Count(full) > Count(full)
  {
    var full: Table := map[0 := rows];
    CountRemove(full, 0);
    assert full - {0} == map[];
    assert 1 in [1, 2];
  }
}
