/** Replica placement and leadership of topic partitions across the nodes of a cluster. */
module PartitionAssignment {
  import opened Base
  import opened Sequences

  type NodeId = n: int | 0 <= n < 0x1_0000_0000

  datatype PartitionKey = PartitionKey(topic: string, partition: int)

  datatype PartitionInfo = PartitionInfo(replicas: seq<NodeId>, leader: NodeId)

  type Assignments = map<PartitionKey, PartitionInfo>

  datatype AssignError =
    | EmptyReplicas | DuplicateReplicas | NotAssigned | NotAReplica
    | BadPartitionCount | BadReplicationFactor | NoNodes | TooFewNodes | LeaderNotReplica

  // ---- The duplicate test ----

  function Less(a: NodeId, b: NodeId): bool {
    a < b
  }

  /** Removes repeats of consecutive equal elements. */
  function Dedup(s: seq<NodeId>): (r: seq<NodeId>)
    ensures |r| <= |s|
  {
    if |s| <= 1 then s
    else if s[|s| - 1] == s[|s| - 2] then Dedup(s[..|s| - 1])
    else Dedup(s[..|s| - 1]) + [s[|s| - 1]]
  }

  /** `sort`, `dedup`, and compare lengths. */
  predicate HasDuplicates(replicas: seq<NodeId>) {
    |Dedup(SortBy(Less, replicas))| != |replicas|
  }

  predicate WeaklySorted(s: seq<NodeId>) {
    forall i, j :: 0 <= i < j < |s| ==> s[i] <= s[j]
  }

  lemma {:induction false} InsertKeepsOrder(x: NodeId, s: seq<NodeId>)
    requires WeaklySorted(s)
    ensures WeaklySorted(InsertBy(Less, x, s))
  {
    if s != [] && s[0] < x {
      InsertKeepsOrder(x, s[1..]);
      InsertByContents(Less, x, s[1..]);
      var rest := InsertBy(Less, x, s[1..]);
      forall j | 0 <= j < |rest|
        ensures s[0] <= rest[j]
      {
        assert rest[j] in multiset(rest);
        assert rest[j] == x || rest[j] in s[1..];
      }
      hide InsertBy;
      assert WeaklySorted([s[0]] + rest);
    }
  }

  lemma {:induction false} SortIsWeaklySorted(s: seq<NodeId>)
    ensures WeaklySorted(SortBy(Less, s))
  {
    if s != [] {
      SortIsWeaklySorted(s[1..]);
      InsertKeepsOrder(s[0], SortBy(Less, s[1..]));
    }
  }

  lemma {:induction false} DedupLength(s: seq<NodeId>)
    requires WeaklySorted(s)
    ensures |Dedup(s)| == |s| <==> Distinct(s)
  {
    if |s| > 1 {
      var n := |s| - 1;
      DedupLength(s[..n]);
      if s[n] != s[n - 1] {
        assert forall i :: 0 <= i < n ==> s[i] <= s[n - 1] < s[n];
      }
      assert Distinct(s) ==> Distinct(s[..n]);
    }
  }

  /** The test accepts exactly the duplicate-free lists. */
  lemma {:induction false} DuplicateTestIsExact(replicas: seq<NodeId>)
    ensures HasDuplicates(replicas) <==> !Distinct(replicas)
  {
    var sorted := SortBy(Less, replicas);
    SortIsWeaklySorted(replicas);
    SortByContents(Less, replicas);
    DedupLength(sorted);
    DistinctMultiset(sorted);
    DistinctMultiset(replicas);
    assert |sorted| == |multiset(sorted)| == |replicas|;
  }

  // ---- Operations ----

  /** `assign_partition`: the first replica is the preferred leader. */
  function Assign(m: Assignments, key: PartitionKey, replicas: seq<NodeId>): Result<Assignments, AssignError> {
    if replicas == [] then Err(EmptyReplicas)
    else if HasDuplicates(replicas) then Err(DuplicateReplicas)
    else Ok(m[key := PartitionInfo(replicas, replicas[0])])
  }

  function SetLeader(m: Assignments, key: PartitionKey, node: NodeId): Result<Assignments, AssignError> {
    if key !in m then Err(NotAssigned)
    else if node !in m[key].replicas then Err(NotAReplica)
    else Ok(m[key := m[key].(leader := node)])
  }

  function RemoveTopic(m: Assignments, topic: string): Assignments {
    map key | key in m && key.topic != topic :: m[key]
  }

  /** The replicas of partition `p`: consecutive nodes, starting at the leader's position. */
  function Row(nodes: seq<NodeId>, p: nat, rf: nat): (r: seq<NodeId>)
    requires nodes != []
    ensures |r| == rf
  {
    seq(rf, i requires 0 <= i => nodes[(p % |nodes| + i) % |nodes|])
  }

  function RoundRobin(nodes: seq<NodeId>, partitions: nat, rf: nat): (r: seq<seq<NodeId>>)
    requires nodes != []
    ensures |r| == partitions
  {
    seq(partitions, p requires 0 <= p => Row(nodes, p, rf))
  }

  /** `round_robin`: a negative replication factor turns into a huge one when cast. */
  method AssignRoundRobin(nodes: seq<NodeId>, partitions: nat, rf: int) returns (r: Result<seq<seq<NodeId>>, AssignError>)
    ensures r == if nodes == [] then Err(NoNodes)
                 else if rf < 0 || rf > |nodes| then Err(TooFewNodes)
                 else Ok(RoundRobin(nodes, partitions, rf))
  {
    if nodes == [] {
      return Err(NoNodes);
    }
    if rf < 0 || rf > |nodes| {
      return Err(TooFewNodes);
    }
    var rows: seq<seq<NodeId>> := [];
    for p := 0 to partitions
      invariant rows == RoundRobin(nodes, p, rf)
    {
      var row: seq<NodeId> := [];
      var leader := p % |nodes|;
      for i := 0 to rf
        invariant row == Row(nodes, p, i)
      {
        row := row + [nodes[(leader + i) % |nodes|]];
      }
      rows := rows + [row];
    }
    r := Ok(rows);
  }

  /** Assigns the rows in order and stops at the first one that is rejected. */
  function AssignRows(m: Assignments, topic: string, rows: seq<seq<NodeId>>): (Assignments, Option<AssignError>) {
    if rows == [] then (m, None)
    else
      var n := |rows| - 1;
      var (front, err) := AssignRows(m, topic, rows[..n]);
      if err.Some? then (front, err)
      else
        match Assign(front, PartitionKey(topic, n), rows[n])
        case Ok(next) => (next, None)
        case Err(e) => (front, Some(e))
  }

  function AddTopic(m: Assignments, topic: string, partitions: int, rf: int, nodes: seq<NodeId>): (Assignments, Option<AssignError>) {
    if partitions <= 0 then (m, Some(BadPartitionCount))
    else if rf <= 0 then (m, Some(BadReplicationFactor))
    else if nodes == [] then (m, Some(NoNodes))
    else if rf > |nodes| then (m, Some(TooFewNodes))
    else AssignRows(m, topic, RoundRobin(nodes, partitions, rf))
  }

  /** The leader is one of its duplicate-free replicas. */
  predicate ValidInfo(info: PartitionInfo) {
    info.leader in info.replicas && Distinct(info.replicas)
  }

  predicate Valid(m: Assignments) {
    forall key :: key in m ==> ValidInfo(m[key])
  }

  class Assignment {
    var assignments: Assignments

    constructor ()
      ensures assignments == map[] && Valid(assignments)
    {
      assignments := map[];
    }

    method AssignPartition(key: PartitionKey, replicas: seq<NodeId>) returns (err: Option<AssignError>)
      modifies this
      ensures match Assign(old(assignments), key, replicas)
              case Ok(m) => assignments == m && err == None
              case Err(e) => assignments == old(assignments) && err == Some(e)
    {
      if replicas == [] {
        return Some(EmptyReplicas);
      }
      var unique := Dedup(SortBy(Less, replicas));
      if |unique| != |replicas| {
        return Some(DuplicateReplicas);
      }
      assignments := assignments[key := PartitionInfo(replicas, replicas[0])];
      err := None;
    }

    method ChangeLeader(key: PartitionKey, node: NodeId) returns (err: Option<AssignError>)
      modifies this
      ensures match SetLeader(old(assignments), key, node)
              case Ok(m) => assignments == m && err == None
              case Err(e) => assignments == old(assignments) && err == Some(e)
    {
      if key !in assignments {
        return Some(NotAssigned);
      }
      if node !in assignments[key].replicas {
        return Some(NotAReplica);
      }
      assignments := assignments[key := assignments[key].(leader := node)];
      err := None;
    }

    method AddTopicPartitions(topic: string, partitions: int, rf: int, nodes: seq<NodeId>) returns (err: Option<AssignError>)
      modifies this
      ensures (assignments, err) == AddTopic(old(assignments), topic, partitions, rf, nodes)
    {
      if partitions <= 0 {
        return Some(BadPartitionCount);
      }
      if rf <= 0 {
        return Some(BadReplicationFactor);
      }
      if nodes == [] {
        return Some(NoNodes);
      }
      if rf > |nodes| {
        return Some(TooFewNodes);
      }
      var rows := AssignRoundRobin(nodes, partitions, rf);
      for p := 0 to partitions
        invariant (assignments, None) == AssignRows(old(assignments), topic, rows.value[..p])
      {
        assert rows.value[..p + 1][..p] == rows.value[..p];
        var rejected := AssignPartition(PartitionKey(topic, p), rows.value[p]);
        if rejected.Some? {
          RejectionStops(old(assignments), topic, rows.value, p + 1);
          return rejected;
        }
      }
      assert rows.value[..partitions] == rows.value;
      err := None;
    }

    /** `validate` visits every entry; which offending one it reports is up to the map. */
    method Validate() returns (err: Option<AssignError>)
      ensures err.None? <==> Valid(assignments)
    {
      var todo := assignments.Keys;
      while todo != {}
        invariant todo <= assignments.Keys
        invariant forall key :: key in assignments && key !in todo ==> ValidInfo(assignments[key])
        decreases todo
      {
        var key :| key in todo;
        var info := assignments[key];
        DuplicateTestIsExact(info.replicas);
        if info.leader !in info.replicas {
          assert !ValidInfo(assignments[key]);
          return Some(LeaderNotReplica);
        }
        if |Dedup(SortBy(Less, info.replicas))| != |info.replicas| {
          assert !ValidInfo(assignments[key]);
          return Some(DuplicateReplicas);
        }
        todo := todo - {key};
      }
      err := None;
    }
  }

  lemma {:induction false} RejectionStops(m: Assignments, topic: string, rows: seq<seq<NodeId>>, n: nat)
    requires n <= |rows| && AssignRows(m, topic, rows[..n]).1.Some?
    ensures AssignRows(m, topic, rows) == AssignRows(m, topic, rows[..n])
    decreases |rows| - n
  {
    if n < |rows| {
      assert rows[..n + 1][..n] == rows[..n];
      RejectionStops(m, topic, rows, n + 1);
    } else {
      assert rows[..n] == rows;
    }
  }

  // ---- Every run ----

  datatype Op =
    | AddTopicOp(topic: string, partitions: int, rf: int, nodes: seq<NodeId>)
    | AssignOp(key: PartitionKey, replicas: seq<NodeId>)
    | LeaderOp(key: PartitionKey, node: NodeId)
    | RemoveOp(topic: string)

  function Apply(m: Assignments, op: Op): Assignments {
    match op
    case AddTopicOp(topic, partitions, rf, nodes) => AddTopic(m, topic, partitions, rf, nodes).0
    case AssignOp(key, replicas) => var r := Assign(m, key, replicas); if r.Ok? then r.value else m
    case LeaderOp(key, node) => var r := SetLeader(m, key, node); if r.Ok? then r.value else m
    case RemoveOp(topic) => RemoveTopic(m, topic)
  }

  function Run(ops: seq<Op>): Assignments {
    if ops == [] then map[] else Apply(Run(ops[..|ops| - 1]), ops[|ops| - 1])
  }

  lemma {:induction false} AssignKeepsValid(m: Assignments, key: PartitionKey, replicas: seq<NodeId>)
    requires Valid(m)
    ensures Assign(m, key, replicas).Ok? <==> replicas != [] && Distinct(replicas)
    ensures Assign(m, key, replicas).Ok? ==> Valid(Assign(m, key, replicas).value)
  {
    DuplicateTestIsExact(replicas);
  }

  lemma {:induction false} RowsKeepValid(m: Assignments, topic: string, rows: seq<seq<NodeId>>)
    requires Valid(m)
    ensures Valid(AssignRows(m, topic, rows).0)
  {
    if rows != [] {
      var n := |rows| - 1;
      RowsKeepValid(m, topic, rows[..n]);
      AssignKeepsValid(AssignRows(m, topic, rows[..n]).0, PartitionKey(topic, n), rows[n]);
    }
  }

  /** After any run, also one in which adding a topic stopped half way, every assignment is valid. */
  lemma {:induction false} RunIsValid(ops: seq<Op>)
    ensures Valid(Run(ops))
  {
    if ops != [] {
      var m, op := Run(ops[..|ops| - 1]), ops[|ops| - 1];
      RunIsValid(ops[..|ops| - 1]);
      match op
      case AddTopicOp(topic, partitions, rf, nodes) =>
        if nodes != [] && partitions > 0 && rf > 0 {
          RowsKeepValid(m, topic, RoundRobin(nodes, partitions, rf));
        }
      case AssignOp(key, replicas) => AssignKeepsValid(m, key, replicas);
      case LeaderOp(key, node) =>
      case RemoveOp(topic) =>
    }
  }

  // ---- Balance of round-robin placement ----

  lemma {:induction false} ModSmall(x: nat, n: nat)
    requires 0 < n && x < 2 * n
    ensures x % n == if x < n then x else x - n
  {
    if x >= n {
      assert x == n * 1 + (x - n);
    }
  }

  lemma {:induction false} ModStep(p: nat, n: nat)
    requires n > 0
    ensures p % n == n - 1 ==> (p + 1) % n == 0 && (p + 1) / n == p / n + 1
    ensures p % n != n - 1 ==> (p + 1) % n == p % n + 1 && (p + 1) / n == p / n
  {
    var q, r := p / n, p % n;
    assert p == n * q + r;
    if r == n - 1 {
      DivModUnique(p + 1, n, q + 1, 0);
    } else {
      DivModUnique(p + 1, n, q, r + 1);
    }
  }

  lemma {:induction false} AtLeastOnce(n: int, d: int)
    requires n > 0 && d >= 1
    ensures n * d >= n
  {
  }

  lemma {:induction false} Remainders(n: int, q: int, r: int, q': int, r': int)
    requires n > 0 && n * q + r == n * q' + r' && 0 <= r < n && 0 <= r' < n
    ensures q == q' && r == r'
  {
    if q > q' {
      AtLeastOnce(n, q - q');
    } else if q < q' {
      AtLeastOnce(n, q' - q);
    }
  }

  lemma {:induction false} DivModUnique(x: int, n: int, q: int, r: int)
    requires n > 0 && x == n * q + r && 0 <= r < n
    ensures x / n == q && x % n == r
  {
    assert x == n * (x / n) + x % n;
    Remainders(n, q, r, x / n, x % n);
  }

  /** How many of the first `partitions` numbers are `j` modulo `n`. */
  function CountMod(partitions: nat, n: nat, j: nat): nat
    requires n > 0
  {
    if partitions == 0 then 0
    else CountMod(partitions - 1, n, j) + if (partitions - 1) % n == j then 1 else 0
  }

  lemma {:induction false} CountModValue(partitions: nat, n: nat, j: nat)
    requires j < n
    ensures CountMod(partitions, n, j) == partitions / n + if j < partitions % n then 1 else 0
  {
    if partitions == 0 {
      DivModUnique(0, n, 0, 0);
    } else {
      CountModValue(partitions - 1, n, j);
      ModStep(partitions - 1, n);
    }
  }

  /** `x` is the quotient rounded down or up. */
  predicate FloorOrCeil(x: nat, partitions: nat, n: nat)
    requires n > 0
  {
    x == partitions / n || (partitions % n != 0 && x == partitions / n + 1)
  }

  /** How many partitions a node leads, and how many copies it holds. */
  function Leads(rows: seq<seq<NodeId>>, node: NodeId): nat {
    if rows == [] then 0
    else
      var last := rows[|rows| - 1];
      Leads(rows[..|rows| - 1], node) + if last != [] && last[0] == node then 1 else 0
  }

  function Copies(rows: seq<seq<NodeId>>, node: NodeId): nat {
    if rows == [] then 0 else Copies(rows[..|rows| - 1], node) + multiset(rows[|rows| - 1])[node]
  }

  lemma {:induction false} RoundRobinPrefix(nodes: seq<NodeId>, partitions: nat, rf: nat)
    requires nodes != [] && partitions > 0
    ensures RoundRobin(nodes, partitions, rf)[..partitions - 1] == RoundRobin(nodes, partitions - 1, rf)
  {
  }

  /** Position `i` of row `p` is node `j` exactly when `p` is the right number modulo the cluster size. */
  lemma {:induction false} RowAt(nodes: seq<NodeId>, p: nat, i: nat, j: nat)
    requires Distinct(nodes) && i < |nodes| && j < |nodes|
    ensures nodes[(p % |nodes| + i) % |nodes|] == nodes[j] <==> p % |nodes| == (if i <= j then j - i else j + |nodes| - i)
  {
    ModSmall(p % |nodes| + i, |nodes|);
  }

  lemma {:induction false} LeadsIsCountMod(nodes: seq<NodeId>, partitions: nat, rf: nat, j: nat)
    requires Distinct(nodes) && 0 < rf <= |nodes| && j < |nodes|
    ensures Leads(RoundRobin(nodes, partitions, rf), nodes[j]) == CountMod(partitions, |nodes|, j)
  {
    if partitions > 0 {
      LeadsIsCountMod(nodes, partitions - 1, rf, j);
      RoundRobinPrefix(nodes, partitions, rf);
      RowAt(nodes, partitions - 1, 0, j);
    }
  }

  /** Leadership is balanced: every node leads the rounded-down or rounded-up share. */
  lemma {:induction false} LeadershipIsBalanced(nodes: seq<NodeId>, partitions: nat, rf: nat, j: nat)
    requires Distinct(nodes) && 0 < rf <= |nodes| && j < |nodes|
    ensures FloorOrCeil(Leads(RoundRobin(nodes, partitions, rf), nodes[j]), partitions, |nodes|)
  {
    LeadsIsCountMod(nodes, partitions, rf, j);
    CountModValue(partitions, |nodes|, j);
  }

  lemma {:induction false} RowsAreDistinct(nodes: seq<NodeId>, p: nat, rf: nat)
    requires Distinct(nodes) && nodes != [] && rf <= |nodes|
    ensures Distinct(Row(nodes, p, rf))
  {
    forall i, k | 0 <= i < k < rf
      ensures Row(nodes, p, rf)[i] != Row(nodes, p, rf)[k]
    {
      ModSmall(p % |nodes| + i, |nodes|);
      ModSmall(p % |nodes| + k, |nodes|);
    }
  }

  /** The copies that node `j` gets at the first `rf` positions of the first `partitions` rows. */
  function CopiesAt(partitions: nat, n: nat, rf: nat, j: nat): nat
    requires rf <= n && j < n
  {
    if rf == 0 then 0
    else CopiesAt(partitions, n, rf - 1, j) + CountMod(partitions, n, ShiftBack(j, rf - 1, n))
  }

  function ShiftBack(j: nat, i: nat, n: nat): (r: nat)
    requires i < n && j < n
    ensures r < n
  {
    if i <= j then j - i else j + n - i
  }

  lemma {:induction false} CopiesBounds(partitions: nat, n: nat, rf: nat, j: nat)
    requires rf <= n && j < n
    ensures Times(rf, partitions / n) <= CopiesAt(partitions, n, rf, j)
    ensures CopiesAt(partitions, n, rf, j) <= Times(rf, partitions / n + if partitions % n == 0 then 0 else 1)
  {
    hide Times;
    TimesStep(0, partitions / n);
    TimesStep(0, partitions / n + if partitions % n == 0 then 0 else 1);
    if rf > 0 {
      CopiesBounds(partitions, n, rf - 1, j);
      CountModValue(partitions, n, ShiftBack(j, rf - 1, n));
      TimesStep(rf - 1, partitions / n);
      TimesStep(rf - 1, partitions / n + if partitions % n == 0 then 0 else 1);
    }
  }

  function Times(a: nat, b: nat): nat {
    a * b
  }

  lemma {:induction false} TimesStep(a: nat, b: nat)
    ensures Times(a + 1, b) == Times(a, b) + b
    ensures Times(0, b) == 0
  {
  }

  /** The first `k` entries of row `p` that are node `j`. */
  function HitsInRow(nodes: seq<NodeId>, p: nat, k: nat, node: NodeId): nat
    requires nodes != []
  {
    if k == 0 then 0
    else HitsInRow(nodes, p, k - 1, node) + if nodes[(p % |nodes| + (k - 1)) % |nodes|] == node then 1 else 0
  }

  lemma {:induction false} RowCount(nodes: seq<NodeId>, p: nat, rf: nat, node: NodeId)
    requires nodes != []
    ensures multiset(Row(nodes, p, rf))[node] == HitsInRow(nodes, p, rf, node)
  {
    if rf > 0 {
      RowCount(nodes, p, rf - 1, node);
      assert Row(nodes, p, rf) == Row(nodes, p, rf - 1) + [nodes[(p % |nodes| + (rf - 1)) % |nodes|]];
    }
  }

  /** One more row adds its own entries, position by position. */
  lemma {:induction false} CopiesAtStep(nodes: seq<NodeId>, partitions: nat, rf: nat, j: nat)
    requires Distinct(nodes) && rf <= |nodes| && j < |nodes|
    ensures CopiesAt(partitions + 1, |nodes|, rf, j) ==
            CopiesAt(partitions, |nodes|, rf, j) + HitsInRow(nodes, partitions, rf, nodes[j])
  {
    if rf > 0 {
      CopiesAtStep(nodes, partitions, rf - 1, j);
      RowAt(nodes, partitions, rf - 1, j);
    }
  }

  lemma {:induction false} NoRowsNoCopies(n: nat, rf: nat, j: nat)
    requires rf <= n && j < n
    ensures CopiesAt(0, n, rf, j) == 0
  {
    if rf > 0 {
      NoRowsNoCopies(n, rf - 1, j);
    }
  }

  lemma {:induction false} CopiesIsCopiesAt(nodes: seq<NodeId>, partitions: nat, rf: nat, j: nat)
    requires Distinct(nodes) && rf <= |nodes| && j < |nodes|
    ensures Copies(RoundRobin(nodes, partitions, rf), nodes[j]) == CopiesAt(partitions, |nodes|, rf, j)
  {
    if partitions == 0 {
      NoRowsNoCopies(|nodes|, rf, j);
    } else {
      CopiesIsCopiesAt(nodes, partitions - 1, rf, j);
      RoundRobinPrefix(nodes, partitions, rf);
      RowCount(nodes, partitions - 1, rf, nodes[j]);
      CopiesAtStep(nodes, partitions - 1, rf, j);
    }
  }

  /** Storage is balanced: every node holds between rf times the rounded-down and rf times the rounded-up share. */
  lemma {:induction false} CopiesAreBalanced(nodes: seq<NodeId>, partitions: nat, rf: nat, j: nat)
    requires Distinct(nodes) && rf <= |nodes| && j < |nodes|
    ensures var share := partitions / |nodes|;
            rf * share
            <= Copies(RoundRobin(nodes, partitions, rf), nodes[j])
            <= rf * (share + if partitions % |nodes| == 0 then 0 else 1)
  {
    CopiesIsCopiesAt(nodes, partitions, rf, j);
    CopiesBounds(partitions, |nodes|, rf, j);
  }

  /** The first `partitions` partitions of the topic hold their rows, and everything else is as in `m`. */
  predicate Placed(m: Assignments, r: Assignments, topic: string, nodes: seq<NodeId>, partitions: nat, rf: nat)
    requires nodes != []
  {
    && (forall p :: 0 <= p < partitions ==> PlacedAt(r, topic, nodes, p, rf))
    && (forall key :: key in m && (key.topic != topic || !(0 <= key.partition < partitions)) ==> key in r && r[key] == m[key])
  }

  predicate PlacedAt(r: Assignments, topic: string, nodes: seq<NodeId>, p: nat, rf: nat)
    requires nodes != []
  {
    PartitionKey(topic, p) in r && r[PartitionKey(topic, p)] == PartitionInfo(Row(nodes, p, rf), nodes[p % |nodes|])
  }

  lemma {:induction false} AssignRow(m: Assignments, topic: string, nodes: seq<NodeId>, p: nat, rf: nat)
    requires Distinct(nodes) && 0 < rf <= |nodes|
    ensures Assign(m, PartitionKey(topic, p), Row(nodes, p, rf)) ==
            Ok(m[PartitionKey(topic, p) := PartitionInfo(Row(nodes, p, rf), nodes[p % |nodes|])])
  {
    RowsAreDistinct(nodes, p, rf);
    DuplicateTestIsExact(Row(nodes, p, rf));
    ModSmall(p % |nodes| + 0, |nodes|);
    assert Row(nodes, p, rf)[0] == nodes[p % |nodes|];
  }

  lemma {:induction false} PlacedStep(m: Assignments, r: Assignments, topic: string, nodes: seq<NodeId>, p: nat, rf: nat)
    requires nodes != [] && Placed(m, r, topic, nodes, p, rf)
    ensures Placed(m, r[PartitionKey(topic, p) := PartitionInfo(Row(nodes, p, rf), nodes[p % |nodes|])], topic, nodes, p + 1, rf)
  {
    hide Row;
    var r' := r[PartitionKey(topic, p) := PartitionInfo(Row(nodes, p, rf), nodes[p % |nodes|])];
    forall q | 0 <= q < p + 1
      ensures PlacedAt(r', topic, nodes, q, rf)
    {
      if q < p {
        assert PlacedAt(r, topic, nodes, q, rf);
      }
    }
  }

  lemma {:induction false} RowsPlaced(m: Assignments, topic: string, nodes: seq<NodeId>, partitions: nat, rf: nat)
    requires Distinct(nodes) && 0 < rf <= |nodes|
    ensures AssignRows(m, topic, RoundRobin(nodes, partitions, rf)).1 == None
    ensures Placed(m, AssignRows(m, topic, RoundRobin(nodes, partitions, rf)).0, topic, nodes, partitions, rf)
  {
    hide Row, Assign, Placed, Distinct;
    if partitions == 0 {
      PlacedNothing(m, topic, nodes, rf);
    } else {
      var p := partitions - 1;
      RowsPlaced(m, topic, nodes, p, rf);
      RoundRobinPrefix(nodes, partitions, rf);
      var before := AssignRows(m, topic, RoundRobin(nodes, p, rf)).0;
      AssignRow(before, topic, nodes, p, rf);
      PlacedStep(m, before, topic, nodes, p, rf);
    }
  }

  lemma {:induction false} PlacedNothing(m: Assignments, topic: string, nodes: seq<NodeId>, rf: nat)
    requires nodes != []
    ensures Placed(m, m, topic, nodes, 0, rf)
  {
  }

  /** On distinct nodes, adding a topic succeeds and leaves every partition with its row, led by the row's first node. */
  lemma {:induction false} AddTopicSucceeds(m: Assignments, topic: string, nodes: seq<NodeId>, partitions: nat, rf: nat)
    requires Valid(m) && Distinct(nodes) && 0 < partitions && 0 < rf <= |nodes|
    ensures AddTopic(m, topic, partitions, rf, nodes).1 == None
    ensures Placed(m, AddTopic(m, topic, partitions, rf, nodes).0, topic, nodes, partitions, rf)
    ensures Valid(AddTopic(m, topic, partitions, rf, nodes).0)
  {
    hide Placed, Valid, RoundRobin, Row;
    RowsPlaced(m, topic, nodes, partitions, rf);
    RowsKeepValid(m, topic, RoundRobin(nodes, partitions, rf));
  }

  // ---- The history of one partition ----

  function Lookup(m: Assignments, key: PartitionKey): Option<PartitionInfo> {
    if key in m then Some(m[key]) else None
  }

  /** The replicas of partition `p`: `rf` nodes in a circle, from the `p`-th on. */
  predicate IsCircle(nodes: seq<NodeId>, p: nat, rf: nat, replicas: seq<NodeId>)
    requires nodes != []
  {
    |replicas| == rf && forall i :: 0 <= i < rf ==> replicas[i] == nodes[(p + i) % |nodes|]
  }

  lemma {:induction false} ModPlus(p: nat, i: nat, n: nat)
    requires n > 0
    ensures (p % n + i) % n == (p + i) % n
  {
    var q, r := (p % n + i) / n, (p % n + i) % n;
    assert p + i == n * (p / n) + (p % n + i) == n * (p / n) + (n * q + r);
    assert n * (p / n) + n * q == n * (p / n + q);
    DivModUnique(p + i, n, p / n + q, r);
  }

  lemma {:induction false} RowIsCircle(nodes: seq<NodeId>, p: nat, rf: nat)
    requires nodes != []
    ensures IsCircle(nodes, p, rf, Row(nodes, p, rf))
  {
    forall i | 0 <= i < rf ensures Row(nodes, p, rf)[i] == nodes[(p + i) % |nodes|] {
      ModPlus(p, i, |nodes|);
    }
  }

  /** A row can be placed: it has no node twice. Rows after one that cannot are not placed either. */
  predicate Placeable(nodes: seq<NodeId>, p: nat, rf: nat)
    requires nodes != []
  {
    forall q :: 0 <= q <= p ==> Distinct(Row(nodes, q, rf))
  }

  /** What one operation makes of a partition's replicas and leader. */
  function Update(was: Option<PartitionInfo>, op: Op, key: PartitionKey): Option<PartitionInfo> {
    match op
    case AddTopicOp(topic, partitions, rf, nodes) =>
      if topic == key.topic && 0 <= key.partition < partitions && nodes != [] && 0 < rf <= |nodes| && Placeable(nodes, key.partition, rf)
      then Some(PartitionInfo(Row(nodes, key.partition, rf), nodes[key.partition % |nodes|]))
      else was
    case AssignOp(k, replicas) =>
      if k == key && replicas != [] && Distinct(replicas) then Some(PartitionInfo(replicas, replicas[0])) else was
    case LeaderOp(k, node) =>
      if k == key && was.Some? && node in was.value.replicas then Some(PartitionInfo(was.value.replicas, node)) else was
    case RemoveOp(topic) => if topic == key.topic then None else was
  }

  /** The operations one after the other, as far as they concern the partition. */
  function History(ops: seq<Op>, key: PartitionKey): Option<PartitionInfo> {
    if ops == [] then None else Update(History(ops[..|ops| - 1], key), ops[|ops| - 1], key)
  }

  lemma {:induction false} RowLeader(nodes: seq<NodeId>, p: nat, rf: nat)
    requires nodes != [] && 0 < rf
    ensures Row(nodes, p, rf)[0] == nodes[p % |nodes|]
  {
    ModSmall(p % |nodes| + 0, |nodes|);
  }

  /** What assigning rows until one is rejected makes of each partition. */
  lemma {:induction false} AssignRowsAt(m: Assignments, topic: string, nodes: seq<NodeId>, partitions: nat, rf: nat, key: PartitionKey)
    requires nodes != [] && 0 < rf
    ensures var (r, err) := AssignRows(m, topic, RoundRobin(nodes, partitions, rf));
            && (err.None? <==> partitions == 0 || Placeable(nodes, partitions - 1, rf))
            && Lookup(r, key) ==
               if topic == key.topic && 0 <= key.partition < partitions && Placeable(nodes, key.partition, rf)
               then Some(PartitionInfo(Row(nodes, key.partition, rf), nodes[key.partition % |nodes|]))
               else Lookup(m, key)
  {
    hide Row, HasDuplicates, Distinct;
    if partitions > 0 {
      var p := partitions - 1;
      AssignRowsAt(m, topic, nodes, p, rf, key);
      RoundRobinPrefix(nodes, partitions, rf);
      DuplicateTestIsExact(Row(nodes, p, rf));
      RowLeader(nodes, p, rf);
      PlaceableStep(nodes, p, rf);
      assert RoundRobin(nodes, partitions, rf)[p] == Row(nodes, p, rf) && |Row(nodes, p, rf)| == rf;
    }
  }

  lemma {:induction false} PlaceableStep(nodes: seq<NodeId>, p: nat, rf: nat)
    requires nodes != []
    ensures Placeable(nodes, p, rf) <==> (p == 0 || Placeable(nodes, p - 1, rf)) && Distinct(Row(nodes, p, rf))
    ensures forall q :: 0 <= q <= p && Placeable(nodes, p, rf) ==> Placeable(nodes, q, rf)
  {
  }

  lemma {:induction false} ApplyUpdates(m: Assignments, op: Op, key: PartitionKey)
    ensures Lookup(Apply(m, op), key) == Update(Lookup(m, key), op, key)
  {
    hide Row, HasDuplicates, Distinct, Placeable, RoundRobin, AssignRows;
    match op
    case AddTopicOp(topic, partitions, rf, nodes) =>
      if partitions > 0 && nodes != [] && 0 < rf <= |nodes| {
        AssignRowsAt(m, topic, nodes, partitions, rf, key);
      }
    case AssignOp(_, replicas) => DuplicateTestIsExact(replicas);
    case LeaderOp(_, _) =>
    case RemoveOp(_) =>
  }

  /**
   After any run, a partition has the replicas of the last operation that placed it and the leader of the
   last that chose one, and is gone if its topic was removed since: other partitions play no part.
   */
  lemma {:induction false} HistoryDecides(ops: seq<Op>, key: PartitionKey)
    ensures Lookup(Run(ops), key) == History(ops, key)
  {
    hide Apply, Update;
    if ops != [] {
      HistoryDecides(ops[..|ops| - 1], key);
      ApplyUpdates(Run(ops[..|ops| - 1]), ops[|ops| - 1], key);
    }
  }

  /** Adding a topic succeeds exactly if the counts make sense, there are enough nodes, and no row has a node twice. */
  lemma {:induction false} AddTopicSucceedsIff(m: Assignments, topic: string, partitions: int, rf: int, nodes: seq<NodeId>)
    ensures AddTopic(m, topic, partitions, rf, nodes).1.None? <==>
            partitions > 0 && nodes != [] && 0 < rf <= |nodes| && Placeable(nodes, partitions - 1, rf)
  {
    hide Row, Placeable, RoundRobin, AssignRows;
    if partitions > 0 && nodes != [] && 0 < rf <= |nodes| {
      AssignRowsAt(m, topic, nodes, partitions, rf, PartitionKey(topic, 0));
    }
  }
}
