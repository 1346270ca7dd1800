/** Small facts about sequences and multisets that several components rely on. */
module Sequences {

  function Map<A, B>(f: A -> B, s: seq<A>): (r: seq<B>)
    ensures |r| == |s|
    ensures forall i :: 0 <= i < |s| ==> r[i] == f(s[i])
  {
    seq(|s|, i requires 0 <= i < |s| => f(s[i]))
  }

  function Flatten<A>(ss: seq<seq<A>>): seq<A> {
    if ss == [] then [] else ss[0] + Flatten(ss[1..])
  }

  /** The first elements, or all of them. */
  function Truncate<A>(s: seq<A>, n: nat): seq<A> {
    if n < |s| then s[..n] else s
  }

  predicate Distinct<A(==)>(s: seq<A>) {
    forall i, j :: 0 <= i < j < |s| ==> s[i] != s[j]
  }

  function Elements<A>(s: seq<A>): set<A> {
    set x | x in s
  }

  function Min(a: int, b: int): (m: int)
    ensures m <= a && m <= b && (m == a || m == b)
  {
    if a <= b then a else b
  }

  function Max(a: int, b: int): (m: int)
    ensures m >= a && m >= b && (m == a || m == b)
  {
    if a >= b then a else b
  }

  /** The order in which a hash map is walked; any order will do. */
  type Walk = set<string> -> seq<string>

  ghost predicate IsWalk(walk: Walk) {
    forall keys :: Distinct(walk(keys)) && forall k :: k in walk(keys) <==> k in keys
  }

  lemma {:induction false} FlattenContains<A>(ss: seq<seq<A>>, x: A)
    ensures x in Flatten(ss) <==> exists i :: 0 <= i < |ss| && x in ss[i]
  {
    if ss != [] {
      FlattenContains(ss[1..], x);
      if x in Flatten(ss[1..]) {
        var i :| 0 <= i < |ss[1..]| && x in ss[1..][i];
        assert ss[i + 1] == ss[1..][i];
      }
      if i :| 0 < i < |ss| && x in ss[i] {
        assert ss[1..][i - 1] == ss[i];
      }
    }
  }

  lemma {:induction false} FlattenAppend<A>(a: seq<seq<A>>, b: seq<seq<A>>)
    ensures Flatten(a + b) == Flatten(a) + Flatten(b)
  {
    if a == [] {
      assert a + b == b;
    } else {
      assert (a + b)[1..] == a[1..] + b;
      FlattenAppend(a[1..], b);
    }
  }

  lemma {:induction false} FlattenSnoc<A>(ss: seq<seq<A>>, s: seq<A>)
    ensures Flatten(ss + [s]) == Flatten(ss) + s
  {
    FlattenAppend(ss, [s]);
    assert [s][1..] == [];
    assert Flatten([s]) == s;
  }

  /** A distinct sequence has as many elements as its set. */
  lemma {:induction false} DistinctCardinality<A>(s: seq<A>)
    requires Distinct(s)
    ensures |Elements(s)| == |s|
  {
    if s != [] {
      DistinctCardinality(s[1..]);
      assert Elements(s) == Elements(s[1..]) + {s[0]};
    }
  }

  lemma {:induction false} CardinalityBound<A>(s: seq<A>)
    ensures |Elements(s)| <= |s|
    ensures |Elements(s)| == |s| ==> Distinct(s)
  {
    if s != [] {
      CardinalityBound(s[1..]);
      assert Elements(s) == Elements(s[1..]) + {s[0]};
      if |Elements(s)| == |s| {
        assert s[0] !in s[1..];
        forall i, j | 0 <= i < j < |s|
          ensures s[i] != s[j]
        {
          assert s[j] == s[1..][j - 1];
          if i > 0 {
            assert s[i] == s[1..][i - 1];
          }
        }
      }
    }
  }

  lemma {:induction false} DistinctMultiset<A>(s: seq<A>)
    ensures Distinct(s) <==> forall x :: multiset(s)[x] <= 1
  {
    if s != [] {
      var t := s[1..];
      assert s == [s[0]] + t;
      DistinctMultiset(t);
      if Distinct(s) {
        assert Distinct(t);
        assert s[0] !in t;
      }
      if forall x :: multiset(s)[x] <= 1 {
        forall x
          ensures multiset(t)[x] <= 1
        {
          assert multiset(s)[x] <= 1;
        }
        assert multiset(s)[s[0]] <= 1;
        assert s[0] !in t;
        forall i, j | 0 <= i < j < |s|
          ensures s[i] != s[j]
        {
          assert s[j] == t[j - 1];
          if i > 0 {
            assert s[i] == t[i - 1];
          }
        }
      }
    }
  }

  lemma {:induction false} DistinctAppend<A>(a: seq<A>, b: seq<A>)
    ensures Distinct(a + b) <==> Distinct(a) && Distinct(b) && forall x :: x in a ==> x !in b
  {
    var s := a + b;
    if Distinct(s) {
      forall i, j | 0 <= i < j < |a| ensures a[i] != a[j] {
        assert s[i] != s[j];
      }
      forall i, j | 0 <= i < j < |b| ensures b[i] != b[j] {
        assert s[|a| + i] != s[|a| + j];
      }
      forall i, j | 0 <= i < |a| && 0 <= j < |b| ensures a[i] != b[j] {
        assert s[i] != s[|a| + j];
      }
    } else {
      var i, j :| 0 <= i < j < |s| && s[i] == s[j];
      if i < |a| <= j {
        assert a[i] in a && b[j - |a|] in b;
      }
    }
  }

  /** The integers of a half-open interval. */
  function Interval(lo: int, hi: int): (r: set<int>)
    ensures forall i :: i in r <==> lo <= i < hi
    ensures |r| == if lo <= hi then hi - lo else 0
    decreases hi - lo
  {
    if hi <= lo then {} else Interval(lo, hi - 1) + {hi - 1}
  }

  lemma {:induction false} SubsetCardinality<A>(a: set<A>, b: set<A>)
    requires a <= b
    ensures |a| <= |b|
    ensures |a| == |b| ==> a == b
  {
    assert |b - a| == |b| - |a|;
  }

  ghost function Pick<A>(s: set<A>): (x: A)
    requires s != {}
    ensures x in s
  {
    var x :| x in s;
    x
  }

  /** Some sequence with the given contents. */
  ghost function SeqOf<A>(m: multiset<A>): (s: seq<A>)
    ensures multiset(s) == m
    decreases |m|
  {
    if m == multiset{} then []
    else
      var x :| x in m;
      var rest := SeqOf(m - multiset{x});
      assert multiset([x] + rest) == multiset{x} + (m - multiset{x}) == m;
      [x] + rest
  }

  lemma {:induction false} MapAppend<A, B>(f: A -> B, a: seq<A>, b: seq<A>)
    ensures Map(f, a + b) == Map(f, a) + Map(f, b)
  {
  }

  function Without<A>(s: seq<A>, j: nat): seq<A>
    requires j < |s|
  {
    s[..j] + s[j + 1..]
  }

  lemma {:induction false} WithoutContents<A>(s: seq<A>, j: nat)
    requires j < |s|
    ensures multiset(s) == multiset(Without(s, j)) + multiset{s[j]}
    ensures multiset(Without(s, j)) == multiset(s) - multiset{s[j]}
  {
    assert s == s[..j] + [s[j]] + s[j + 1..];
  }

  /** A common element can be taken out of two sequences with the same contents. */
  lemma {:induction false} MatchFirst<A>(a: seq<A>, b: seq<A>) returns (j: nat)
    requires a != [] && multiset(a) == multiset(b)
    ensures j < |b| && b[j] == a[0] && multiset(a[1..]) == multiset(Without(b, j))
  {
    assert a[0] in multiset(b);
    j :| 0 <= j < |b| && b[j] == a[0];
    WithoutContents(b, j);
    WithoutContents(a, 0);
    assert Without(a, 0) == a[1..];
  }

  lemma {:induction false} MapWithout<A, B>(f: A -> B, s: seq<A>, j: nat)
    requires j < |s|
    ensures multiset(Map(f, s)) == multiset(Map(f, Without(s, j))) + multiset{f(s[j])}
  {
    assert Map(f, Without(s, j)) == Without(Map(f, s), j);
    WithoutContents(Map(f, s), j);
  }

  /** Mapping depends on the contents of a sequence only up to order. */
  lemma {:induction false} MapPermutation<A, B>(f: A -> B, a: seq<A>, b: seq<A>)
    requires multiset(a) == multiset(b)
    ensures multiset(Map(f, a)) == multiset(Map(f, b))
  {
    if a == [] {
      assert |multiset(b)| == 0;
    } else {
      var j := MatchFirst(a, b);
      MapPermutation(f, a[1..], Without(b, j));
      MapWithout(f, a, 0);
      assert Without(a, 0) == a[1..];
      MapWithout(f, b, j);
    }
  }

  lemma {:induction false} FlattenMap<A, B>(f: A -> B, ss: seq<seq<A>>)
    ensures Map(f, Flatten(ss)) == Flatten(Map(s => Map(f, s), ss))
  {
    var mapped := Map(s => Map(f, s), ss);
    if ss != [] {
      FlattenMap(f, ss[1..]);
      MapAppend(f, ss[0], Flatten(ss[1..]));
      assert mapped[1..] == Map(s => Map(f, s), ss[1..]);
    }
  }

  lemma {:induction false} SubmultisetSize<A>(a: multiset<A>, b: multiset<A>)
    requires a <= b
    ensures |a| <= |b|
  {
    assert b == a + (b - a);
  }

  lemma {:induction false} LargerHasMore<A>(a: multiset<A>, b: multiset<A>) returns (x: A)
    requires |a| > |b|
    ensures a[x] > b[x]
  {
    if a <= b {
      SubmultisetSize(a, b);
    }
    x :| a[x] > b[x];
  }

  // ---- Counting ----

  function CountIf<A>(p: A -> bool, s: seq<A>): nat {
    if s == [] then 0 else CountIf(p, s[..|s| - 1]) + if p(s[|s| - 1]) then 1 else 0
  }

  lemma {:induction false} CountLast<A>(p: A -> bool, s: seq<A>, x: A)
    ensures CountIf(p, s + [x]) == CountIf(p, s) + if p(x) then 1 else 0
  {
    assert (s + [x])[..|s|] == s;
  }

  lemma {:induction false} CountWithout<A>(p: A -> bool, s: seq<A>, j: nat)
    requires j < |s|
    ensures CountIf(p, s) == CountIf(p, Without(s, j)) + if p(s[j]) then 1 else 0
  {
    hide CountIf;
    var n := |s| - 1;
    assert s == s[..n] + [s[n]];
    CountLast(p, s[..n], s[n]);
    if j < n {
      CountWithout(p, s[..n], j);
      assert Without(s, j) == Without(s[..n], j) + [s[n]];
      CountLast(p, Without(s[..n], j), s[n]);
    } else {
      assert Without(s, j) == s[..n];
    }
  }

  lemma {:induction false} CountPermutation<A>(p: A -> bool, a: seq<A>, b: seq<A>)
    requires multiset(a) == multiset(b)
    ensures CountIf(p, a) == CountIf(p, b)
  {
    if a == [] {
      assert |multiset(b)| == 0;
    } else {
      var j := MatchFirst(a, b);
      CountPermutation(p, a[1..], Without(b, j));
      CountWithout(p, b, j);
      CountWithout(p, a, 0);
      assert Without(a, 0) == a[1..];
    }
  }

  lemma {:induction false} CountStrict<A>(p: A -> bool, q: A -> bool, s: seq<A>)
    requires forall x :: x in s && p(x) ==> q(x)
    ensures CountIf(p, s) <= CountIf(q, s)
    ensures CountIf(p, s) < CountIf(q, s) <==> exists i :: 0 <= i < |s| && q(s[i]) && !p(s[i])
  {
    if s != [] {
      var n := |s| - 1;
      var front := s[..n];
      assert forall x :: x in front ==> x in s;
      CountStrict(p, q, front);
      assert s[n] in s;
      if i :| 0 <= i < n && q(s[i]) && !p(s[i]) {
        assert q(front[i]) && !p(front[i]);
      }
      if i :| 0 <= i < |front| && q(front[i]) && !p(front[i]) {
        assert q(s[i]) && !p(s[i]);
      }
    }
  }

  lemma {:induction false} CountAppend<A>(p: A -> bool, a: seq<A>, b: seq<A>)
    ensures CountIf(p, a + b) == CountIf(p, a) + CountIf(p, b)
  {
    if b == [] {
      assert a + b == a;
    } else {
      var n := |b| - 1;
      assert (a + b)[..|a| + n] == a + b[..n];
      CountAppend(p, a, b[..n]);
    }
  }

  lemma {:induction false} CountNone<A>(p: A -> bool, s: seq<A>)
    requires forall x :: x in s ==> !p(x)
    ensures CountIf(p, s) == 0
  {
    if s != [] {
      CountNone(p, s[..|s| - 1]);
    }
  }

  lemma {:induction false} CountSome<A>(p: A -> bool, s: seq<A>) returns (i: nat)
    requires CountIf(p, s) > 0
    ensures i < |s| && p(s[i])
  {
    var n := |s| - 1;
    if p(s[n]) {
      i := n;
    } else {
      i := CountSome(p, s[..n]);
    }
  }

  /** More than one is two at different places. */
  lemma {:induction false} CountTwo<A>(p: A -> bool, s: seq<A>) returns (i: nat, j: nat)
    requires CountIf(p, s) > 1
    ensures i < j < |s| && p(s[i]) && p(s[j])
  {
    var n := |s| - 1;
    if p(s[n]) {
      j := n;
      i := CountSome(p, s[..n]);
    } else {
      i, j := CountTwo(p, s[..n]);
    }
  }

  lemma {:induction false} TwoCount<A>(p: A -> bool, s: seq<A>, i: nat, j: nat)
    requires i < j < |s| && p(s[i]) && p(s[j])
    ensures CountIf(p, s) > 1
  {
    CountWithout(p, s, j);
    assert Without(s, j)[i] == s[i];
    CountWithout(p, Without(s, j), i);
  }

  // ---- Sorting by a strict order ----

  predicate SortedBy<A(!new)>(less: (A, A) -> bool, s: seq<A>) {
    forall i, j :: 0 <= i < j < |s| ==> less(s[i], s[j])
  }

  ghost predicate Asymmetric<A(!new)>(less: (A, A) -> bool) {
    forall x, y :: !(less(x, y) && less(y, x))
  }

  ghost predicate TransitiveOrder<A(!new)>(less: (A, A) -> bool) {
    forall x, y, z :: less(x, y) && less(y, z) ==> less(x, z)
  }

  function InsertBy<A>(less: (A, A) -> bool, x: A, s: seq<A>): seq<A> {
    if s == [] then [x]
    else if less(s[0], x) then [s[0]] + InsertBy(less, x, s[1..])
    else [x] + s
  }

  /** A stable sort: an element goes after the ones that are strictly less, in front of the rest. */
  function SortBy<A>(less: (A, A) -> bool, s: seq<A>): seq<A> {
    if s == [] then [] else InsertBy(less, s[0], SortBy(less, s[1..]))
  }

  lemma {:induction false} InsertByContents<A>(less: (A, A) -> bool, x: A, s: seq<A>)
    ensures multiset(InsertBy(less, x, s)) == multiset([x]) + multiset(s)
  {
    if s != [] {
      assert s == [s[0]] + s[1..];
      if less(s[0], x) {
        InsertByContents(less, x, s[1..]);
      }
    }
  }

  lemma {:induction false} SortByContents<A>(less: (A, A) -> bool, s: seq<A>)
    ensures multiset(SortBy(less, s)) == multiset(s)
  {
    if s != [] {
      assert s == [s[0]] + s[1..];
      SortByContents(less, s[1..]);
      InsertByContents(less, s[0], SortBy(less, s[1..]));
    }
  }

  lemma {:induction false} ConsSorts<A(!new)>(less: (A, A) -> bool, x: A, s: seq<A>)
    requires SortedBy(less, s) && forall j :: 0 <= j < |s| ==> less(x, s[j])
    ensures SortedBy(less, [x] + s)
  {
  }

  lemma {:induction false} InsertBySorts<A(!new)>(less: (A, A) -> bool, x: A, s: seq<A>)
    requires TransitiveOrder(less) && SortedBy(less, s)
    requires forall y :: y in s ==> less(x, y) || less(y, x)
    ensures SortedBy(less, InsertBy(less, x, s))
  {
    if s != [] {
      assert s[0] in s;
      if less(s[0], x) {
        assert forall y :: y in s[1..] ==> y in s;
        InsertBySorts(less, x, s[1..]);
        InsertByContents(less, x, s[1..]);
        var rest := InsertBy(less, x, s[1..]);
        forall j | 0 <= j < |rest|
          ensures less(s[0], rest[j])
        {
          assert rest[j] in multiset(rest);
          assert rest[j] == x || rest[j] in s[1..];
        }
        ConsSorts(less, s[0], rest);
      } else {
        ConsSorts(less, x, s);
      }
    }
  }

  /** Sorting distinct elements that are pairwise comparable. */
  lemma {:induction false} SortBySorts<A(!new)>(less: (A, A) -> bool, s: seq<A>)
    requires TransitiveOrder(less) && Distinct(s)
    requires forall x, y :: x in s && y in s && x != y ==> less(x, y) || less(y, x)
    ensures SortedBy(less, SortBy(less, s))
  {
    if s != [] {
      var rest := SortBy(less, s[1..]);
      assert forall y :: y in s[1..] ==> y in s;
      SortBySorts(less, s[1..]);
      SortByContents(less, s[1..]);
      forall y | y in rest
        ensures less(s[0], y) || less(y, s[0])
      {
        assert y in multiset(rest);
        assert y in s[1..];
      }
      InsertBySorts(less, s[0], rest);
    }
  }

  /** There is only one way to put the same elements in strict order. */
  lemma {:induction false} SortedUnique<A(!new)>(less: (A, A) -> bool, a: seq<A>, b: seq<A>)
    requires Asymmetric(less) && SortedBy(less, a) && SortedBy(less, b)
    requires multiset(a) == multiset(b)
    ensures a == b
  {
    if a == [] {
      assert |multiset(b)| == 0;
    } else {
      var j := MatchFirst(a, b);
      var i := MatchFirst(b, a);
      assert i == 0 || j == 0;
      assert Without(b, 0) == b[1..];
      SortedUnique(less, a[1..], b[1..]);
    }
  }
}
