/**
 * A flat L2 index in the manner of FAISS IndexFlatL2: the rows are kept in
 * the order they were added, and a search ranks every row by its squared
 * Euclidean distance to the query. Coordinates are integers here.
 */
module FlatL2 {

  type Vector = seq<int>

  /** An index of dimension d holding one row per added vector. */
  datatype FlatIndex = FlatIndex(d: nat, rows: seq<Vector>)

  /** One slot of a search answer: a row position and its distance, or FAISS's label -1. */
  datatype Neighbor = Hit(pos: nat, distance: nat) | Missing

  /** The label FAISS reports for the slot. */
  function Label(nb: Neighbor): int {
    match nb
    case Hit(p, _) => p
    case Missing => -1
  }

  function Min(a: nat, b: nat): nat {
    if a <= b then a else b
  }

  // ---------------------------------------------------------------- distance

  function Square(x: int): nat {
    if x < 0 then (-x) * (-x) else x * x
  }

  /** Squared L2 distance over the coordinates both vectors have. */
  function SqDist(a: Vector, b: Vector): nat
    decreases |a|
  {
    if a == [] || b == [] then 0 else Square(a[0] - b[0]) + SqDist(a[1..], b[1..])
  }

  lemma {:induction false} SqDistSymmetric(a: Vector, b: Vector)
    ensures SqDist(a, b) == SqDist(b, a)
    decreases |a|
  {
    if a != [] && b != [] {
      assert Square(a[0] - b[0]) == Square(b[0] - a[0]);
      SqDistSymmetric(a[1..], b[1..]);
    }
  }

  lemma {:induction false} SqDistZeroIffEqual(a: Vector, b: Vector)
    requires |a| == |b|
    ensures SqDist(a, b) == 0 <==> a == b
    decreases |a|
  {
    if a != [] {
      SqDistZeroIffEqual(a[1..], b[1..]);
      if Square(a[0] - b[0]) == 0 {
        assert a[0] == b[0];
        assert a == [a[0]] + a[1..] && b == [b[0]] + b[1..];
      } else {
        assert a[0] != b[0];
      }
    }
  }

  /** The distance of every row to the query, by position. */
  function Distances(rows: seq<Vector>, q: Vector): seq<nat> {
    seq(|rows|, i requires 0 <= i < |rows| => SqDist(rows[i], q))
  }

  /** A row of the query's length is at distance 0 exactly when it is the query. */
  lemma DistanceZeroIffSame(rows: seq<Vector>, q: Vector, i: nat)
    requires i < |rows| && |rows[i]| == |q|
    ensures Distances(rows, q)[i] == 0 <==> rows[i] == q
  {
    SqDistZeroIffEqual(rows[i], q);
  }

  // ---------------------------------------------------------------- ranking

  /** Position i ranks before j: strictly nearer, or as near and added earlier. */
  predicate Before(ds: seq<nat>, i: nat, j: nat)
    requires i < |ds| && j < |ds|
  {
    ds[i] < ds[j] || (ds[i] == ds[j] && i < j)
  }

  predicate InRange(s: seq<nat>, n: nat) {
    forall i :: 0 <= i < |s| ==> s[i] < n
  }

  /** s lists positions in strictly increasing rank. */
  predicate RankedBy(ds: seq<nat>, s: seq<nat>)
    requires InRange(s, |ds|)
  {
    forall i, j :: 0 <= i < j < |s| ==> Before(ds, s[i], s[j])
  }

  function Insert(ds: seq<nat>, x: nat, s: seq<nat>): (r: seq<nat>)
    requires x < |ds| && InRange(s, |ds|)
    ensures |r| == |s| + 1 && InRange(r, |ds|)
    decreases |s|
  {
    if s == [] || Before(ds, x, s[0]) then [x] + s else [s[0]] + Insert(ds, x, s[1..])
  }

  /** Positions 0 .. n-1 in rank order. */
  function Rank(ds: seq<nat>, n: nat): (r: seq<nat>)
    requires n <= |ds|
    ensures |r| == n && InRange(r, |ds|)
  {
    if n == 0 then [] else Insert(ds, n - 1, Rank(ds, n - 1))
  }

  /** The positions 0 .. n-1 in order. */
  function Range(n: nat): (r: seq<nat>)
    ensures |r| == n
  {
    if n == 0 then [] else Range(n - 1) + [n - 1]
  }

  lemma {:induction false} RangeAt(n: nat, p: nat)
    requires p < n
    ensures Range(n)[p] == p
  {
    if p < n - 1 {
      RangeAt(n - 1, p);
    }
  }

  lemma {:induction false} InsertMultiset(ds: seq<nat>, x: nat, s: seq<nat>)
    requires x < |ds| && InRange(s, |ds|)
    ensures multiset(Insert(ds, x, s)) == multiset(s) + multiset{x}
    decreases |s|
  {
    if s != [] && !Before(ds, x, s[0]) {
      InsertMultiset(ds, x, s[1..]);
      assert s == [s[0]] + s[1..];
    }
  }

  lemma InsertElements(ds: seq<nat>, x: nat, s: seq<nat>)
    requires x < |ds| && InRange(s, |ds|)
    ensures forall y :: y in Insert(ds, x, s) <==> y == x || y in s
  {
    InsertMultiset(ds, x, s);
    forall y ensures y in Insert(ds, x, s) <==> y == x || y in s {
      assert y in Insert(ds, x, s) <==> y in multiset(Insert(ds, x, s));
      assert y in s <==> y in multiset(s);
    }
  }

  lemma {:induction false} InsertRanked(ds: seq<nat>, x: nat, s: seq<nat>)
    requires x < |ds| && InRange(s, |ds|) && RankedBy(ds, s) && x !in s
    ensures RankedBy(ds, Insert(ds, x, s))
    decreases |s|
  {
    if s != [] && !Before(ds, x, s[0]) {
      var t := s[1..];
      assert x !in t;
      assert RankedBy(ds, t) by {
        forall i, j | 0 <= i < j < |t| ensures Before(ds, t[i], t[j]) {
          assert t[i] == s[i + 1] && t[j] == s[j + 1];
        }
      }
      InsertRanked(ds, x, t);
      InsertElements(ds, x, t);
      var r := Insert(ds, x, t);
      assert x != s[0];
      forall j | 0 <= j < |r| ensures Before(ds, s[0], r[j]) {
        assert r[j] in r;
        if r[j] != x {
          var m :| 0 <= m < |t| && t[m] == r[j];
          assert t[m] == s[m + 1];
        }
      }
    }
  }

  /** The ranking lists each of the positions 0 .. n-1 exactly once. */
  lemma {:induction false} RankIsPermutation(ds: seq<nat>, n: nat)
    requires n <= |ds|
    ensures multiset(Rank(ds, n)) == multiset(Range(n))
  {
    if n > 0 {
      var prev := Rank(ds, n - 1);
      RankIsPermutation(ds, n - 1);
      InsertMultiset(ds, n - 1, prev);
      assert Rank(ds, n) == Insert(ds, n - 1, prev);
      var r := Range(n - 1);
      assert Range(n) == r + [n - 1];
      assert multiset(r + [n - 1]) == multiset(r) + multiset([n - 1]);
    }
  }

  lemma RankCovers(ds: seq<nat>, n: nat)
    requires n <= |ds|
    ensures forall p :: 0 <= p < n ==> p in Rank(ds, n)
  {
    RankIsPermutation(ds, n);
    forall p | 0 <= p < n ensures p in Rank(ds, n) {
      RangeAt(n, p);
      assert p in multiset(Range(n));
    }
  }

  lemma {:induction false} RankBelow(ds: seq<nat>, n: nat)
    requires n <= |ds|
    ensures InRange(Rank(ds, n), n)
  {
    if n > 0 {
      RankBelow(ds, n - 1);
      var s := Rank(ds, n - 1);
      InsertElements(ds, n - 1, s);
      var r := Rank(ds, n);
      forall i | 0 <= i < |r| ensures r[i] < n {
        assert r[i] in r;
      }
    }
  }

  /** The ranking is in ascending distance, equal distances by position. */
  lemma {:induction false} RankIsRanked(ds: seq<nat>, n: nat)
    requires n <= |ds|
    ensures RankedBy(ds, Rank(ds, n))
  {
    if n > 0 {
      RankIsRanked(ds, n - 1);
      var s := Rank(ds, n - 1);
      RankBelow(ds, n - 1);
      assert forall i :: 0 <= i < |s| ==> s[i] != n - 1;
      InsertRanked(ds, n - 1, s);
      assert Rank(ds, n) == Insert(ds, n - 1, s);
    }
  }

  // ---------------------------------------------------------------- search

  /**
   * index.search(q, k): the k nearest rows in rank order, then label -1
   * for the slots that find no row when the index holds fewer than k rows.
   */
  function Search(index: FlatIndex, q: Vector, k: nat): seq<Neighbor> {
    var ds := Distances(index.rows, q);
    var ranked := Rank(ds, |ds|);
    var m := Min(k, |ranked|);
    seq(k, i requires 0 <= i < k => if i < m then Hit(ranked[i], ds[ranked[i]]) else Missing)
  }

  /** k slots; the first min(k, rows) are hits, each row at most once, the rest are -1. */
  lemma SearchShape(index: FlatIndex, q: Vector, k: nat)
    ensures var r := Search(index, q, k);
      && |r| == k
      && (forall i :: 0 <= i < k ==> (r[i].Hit? <==> i < |index.rows|))
      && (forall i :: 0 <= i < k && r[i].Hit? ==>
            r[i].pos < |index.rows| && r[i].distance == SqDist(index.rows[r[i].pos], q))
      && (forall i, j :: 0 <= i < j < k && r[j].Hit? ==> r[i].pos != r[j].pos)
      && (forall i :: 0 <= i < k ==> (Label(r[i]) == -1 <==> r[i].Missing?))
  {
    var ds := Distances(index.rows, q);
    RankIsRanked(ds, |ds|);
  }

  /** Hits come in ascending distance, equal distances by ascending position. */
  lemma SearchAscending(index: FlatIndex, q: Vector, k: nat)
    ensures var r := Search(index, q, k);
      forall i, j :: 0 <= i < j < k && r[j].Hit? ==>
        r[i].Hit? && (r[i].distance < r[j].distance || (r[i].distance == r[j].distance && r[i].pos < r[j].pos))
  {
    var ds := Distances(index.rows, q);
    RankIsRanked(ds, |ds|);
  }

  /** No row left out of the answer is nearer than a row in it. */
  lemma SearchNearest(index: FlatIndex, q: Vector, k: nat)
    ensures var r := Search(index, q, k);
      forall i, p :: 0 <= i < k && r[i].Hit? && 0 <= p < |index.rows|
                     && (forall j :: 0 <= j < k ==> Label(r[j]) != p) ==>
        r[i].distance <= SqDist(index.rows[p], q)
  {
    var ds := Distances(index.rows, q);
    var ranked := Rank(ds, |ds|);
    RankIsRanked(ds, |ds|);
    RankCovers(ds, |ds|);
    var r := Search(index, q, k);
    forall i, p | 0 <= i < k && r[i].Hit? && 0 <= p < |index.rows|
                  && (forall j :: 0 <= j < k ==> Label(r[j]) != p)
      ensures r[i].distance <= SqDist(index.rows[p], q)
    {
      assert p in ranked;
      var m :| 0 <= m < |ranked| && ranked[m] == p;
      assert m < k ==> Label(r[m]) == p;
      assert i < m;
      assert Before(ds, ranked[i], ranked[m]);
    }
  }
}
