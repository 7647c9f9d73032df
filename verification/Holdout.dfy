/** Splitting cases into a held-out part and a candidate pool, over exact rationals. */
module Holdout {
  import opened Prelude

  /** Python's round: to the nearest integer, ties to the even one. */
  function RoundHalfEven(x: real): int {
    var down := x.Floor;
    var rest := x - down as real;
    if rest < 0.5 then down
    else if rest > 0.5 then down + 1
    else if down % 2 == 0 then down else down + 1
  }

  /** The integer is the nearest one, the even one of two equally near. */
  ghost predicate RoundsTo(x: real, r: int) {
    && r as real - 0.5 <= x <= r as real + 0.5
    && (x == r as real - 0.5 || x == r as real + 0.5 ==> r % 2 == 0)
  }

  lemma RoundMeans(x: real, r: int)
    ensures RoundHalfEven(x) == r <==> RoundsTo(x, r)
  {
    var down := x.Floor;
    assert down as real <= x < down as real + 1.0;
    if RoundsTo(x, r) {
      assert r == down || r == down + 1;
    }
  }

  lemma RoundIsNear(x: real)
    ensures x - 0.5 <= RoundHalfEven(x) as real <= x + 0.5
  {
  }

  lemma FartherRoundsFarther(x: real, y: real)
    requires y > x + 1.0
    ensures RoundHalfEven(x) < RoundHalfEven(y)
  {
    RoundIsNear(x);
    RoundIsNear(y);
  }

  function HoldoutSize(n: nat, ratio: real): int {
    Max(1, Min(RoundHalfEven(n as real * ratio), n - 1))
  }

  function Place(i: int, stride: real): int {
    RoundHalfEven(i as real * stride)
  }

  function HoldoutIndex(n: nat, h: int, i: int): int
    requires h > 0
  {
    Min(n - 1, Place(i, n as real / h as real))
  }

  function HoldoutIndices(n: nat, h: int): set<int>
    requires h > 0
  {
    set i | 0 <= i < h :: HoldoutIndex(n, h, i)
  }

  /** The stride is more than one, and h strides make n. */
  lemma StrideFacts(n: nat, h: int)
    requires 1 <= h <= n - 1
    ensures var stride := n as real / h as real; stride > 1.0 && h as real * stride == n as real
  {
    var stride := n as real / h as real;
    assert h as real * stride == n as real;
    if stride <= 1.0 {
      Monotone(stride, 1.0, h as real);
      assert false;
    }
  }

  lemma Monotone(a: real, b: real, c: real)
    requires c >= 0.0 && a <= b
    ensures a * c <= b * c
  {
  }

  lemma OneMore(i: int, stride: real)
    ensures (i + 1) as real * stride == i as real * stride + stride
  {
    assert (i + 1) as real == i as real + 1.0;
  }

  lemma StrideStep(i: int, j: int, stride: real)
    requires i < j && stride > 1.0
    ensures i as real * stride + 1.0 < j as real * stride
  {
    var x, y, next := i as real * stride, j as real * stride, (i + 1) as real * stride;
    OneMore(i, stride);
    Monotone((i + 1) as real, j as real, stride);
    assert next == x + stride && next <= y;
  }

  lemma PlacesIncrease(i: int, j: int, stride: real)
    requires i < j && stride > 1.0
    ensures Place(i, stride) < Place(j, stride)
  {
    StrideStep(i, j, stride);
    FartherRoundsFarther(i as real * stride, j as real * stride);
  }

  /** The first place is 0, and the place of n, one past the last, is n itself. */
  lemma PlaceEnds(n: nat, h: int, stride: real)
    requires h as real * stride == n as real
    ensures Place(0, stride) == 0 && Place(h, stride) == n
  {
    assert 0 as real * stride == 0.0;
  }

  lemma ClampNeverFires(n: nat, h: int, i: int)
    requires 1 <= h <= n - 1 && 0 <= i < h
    ensures HoldoutIndex(n, h, i) == Place(i, n as real / h as real) && 0 <= HoldoutIndex(n, h, i) <= n - 1
    ensures i == 0 ==> HoldoutIndex(n, h, i) == 0
  {
    var stride := n as real / h as real;
    StrideFacts(n, h);
    PlaceEnds(n, h, stride);
    PlacesIncrease(i, h, stride);
    if i > 0 { PlacesIncrease(0, i, stride); }
  }

  /** The rounded stride indices strictly increase, start at 0, and never reach the clamp. */
  lemma IndicesIncrease(n: nat, h: int, i: int, j: int)
    requires 1 <= h <= n - 1 && 0 <= i < j < h
    ensures HoldoutIndex(n, h, i) < HoldoutIndex(n, h, j)
  {
    StrideFacts(n, h);
    PlacesIncrease(i, j, n as real / h as real);
    ClampNeverFires(n, h, i);
    ClampNeverFires(n, h, j);
  }

  lemma {:induction false} IndicesAreDistinct(n: nat, h: int, m: nat)
    requires 1 <= h <= n - 1 && m <= h
    ensures |set i | 0 <= i < m :: HoldoutIndex(n, h, i)| == m
  {
    if m == 0 {
      assert (set i | 0 <= i < 0 :: HoldoutIndex(n, h, i)) == {};
    } else {
      var before, after := (set i | 0 <= i < m - 1 :: HoldoutIndex(n, h, i)), (set i | 0 <= i < m :: HoldoutIndex(n, h, i));
      IndicesAreDistinct(n, h, m - 1);
      forall i | 0 <= i < m - 1 ensures HoldoutIndex(n, h, i) != HoldoutIndex(n, h, m - 1) { IndicesIncrease(n, h, i, m - 1); }
      assert after == before + {HoldoutIndex(n, h, m - 1)};
    }
  }

  // ------------------------------------------------------------ the partition

  /** The cases at the given places, in order. */
  function Select<T>(cases: seq<T>, places: set<int>): seq<T> {
    if cases == [] then []
    else
      var last := |cases| - 1;
      Select(cases[..last], places) + if last in places then [cases[last]] else []
  }

  lemma {:induction false} SelectSplits<T>(cases: seq<T>, places: set<int>, others: set<int>)
    requires forall i :: 0 <= i < |cases| ==> (i in places <==> i !in others)
    ensures |Select(cases, places)| + |Select(cases, others)| == |cases|
  {
    if cases != [] { SelectSplits(cases[..|cases| - 1], places, others); }
  }

  /** A case is selected iff it stands at one of the places. */
  lemma {:induction false} SelectMembers<T>(cases: seq<T>, places: set<int>, x: T)
    ensures x in Select(cases, places) <==> exists i | i in places :: 0 <= i < |cases| && cases[i] == x
  {
    if cases != [] {
      var last := |cases| - 1;
      SelectMembers(cases[..last], places, x);
      if i :| i in places && 0 <= i < last && cases[..last][i] == x { assert cases[i] == x; }
      if i :| i in places && 0 <= i < |cases| && cases[i] == x && i < last { assert cases[..last][i] == x; }
    }
  }

  lemma {:induction false} SelectSize<T>(cases: seq<T>, places: set<int>)
    requires forall i :: i in places ==> 0 <= i < |cases|
    ensures |Select(cases, places)| == |places|
  {
    if cases == [] {
      assert forall i :: i !in places;
    } else {
      var last := |cases| - 1;
      SelectSize(cases[..last], places - {last});
      SameBelow(cases[..last], places, places - {last});
    }
  }

  lemma {:induction false} SameBelow<T>(cases: seq<T>, places: set<int>, others: set<int>)
    requires forall i :: 0 <= i < |cases| ==> (i in places <==> i in others)
    ensures Select(cases, places) == Select(cases, others)
  {
    if cases != [] { SameBelow(cases[..|cases| - 1], places, others); }
  }

  /** The part consists of the cases at these places, in the order in which they stand. */
  ghost predicate StandsAt<T>(cases: seq<T>, at: seq<int>, part: seq<T>) {
    && |part| == |at|
    && (forall i :: 0 <= i < |at| ==> 0 <= at[i] < |cases| && part[i] == cases[at[i]])
    && (forall i, j :: 0 <= i < j < |at| ==> at[i] < at[j])
  }

  lemma {:induction false} SelectStandsAt<T>(cases: seq<T>, places: set<int>) returns (at: seq<int>)
    ensures StandsAt(cases, at, Select(cases, places))
    ensures forall k :: k in at <==> 0 <= k < |cases| && k in places
  {
    at := [];
    if cases != [] {
      var last := |cases| - 1;
      at := SelectStandsAt(cases[..last], places);
      if last in places { at := at + [last]; }
    }
  }

  function Complement(n: nat, places: set<int>): set<int> {
    set i | 0 <= i < n && i !in places
  }

  ghost predicate IsPartition<T>(cases: seq<T>, ratio: real, held: seq<T>, pool: seq<T>) {
    if |cases| < 2 then held == [] && pool == cases
    else
      var n, h := |cases|, HoldoutSize(|cases|, ratio);
      var places := HoldoutIndices(n, h);
      && held == Select(cases, places) && pool == Select(cases, Complement(n, places))
  }

  /** h is the rounded share of n, but at least one case and not all of them. */
  ghost predicate ShareIs(n: nat, ratio: real, share: int, h: int) {
    RoundsTo(n as real * ratio, share) && h == if share < 1 then 1 else if share < n then share else n - 1
  }

  /** The i-th of h even strides through n cases leads to the place k. */
  ghost predicate StrideAt(n: nat, h: int, i: int, k: int) {
    0 <= i < h && RoundsTo(i as real * (n as real / h as real), k)
  }

  lemma ShareMeans(n: nat, ratio: real)
    requires n >= 2
    ensures ShareIs(n, ratio, RoundHalfEven(n as real * ratio), HoldoutSize(n, ratio))
  {
    RoundMeans(n as real * ratio, RoundHalfEven(n as real * ratio));
  }

  lemma PlaceMeans(i: int, stride: real, k: int)
    ensures Place(i, stride) == k <==> RoundsTo(i as real * stride, k)
  {
    RoundMeans(i as real * stride, k);
  }

  lemma StrideMeans(n: nat, h: int, i: int, k: int)
    requires 1 <= h <= n - 1
    ensures StrideAt(n, h, i, k) <==> 0 <= i < h && HoldoutIndex(n, h, i) == k
  {
    if 0 <= i < h {
      ClampNeverFires(n, h, i);
      PlaceMeans(i, n as real / h as real, k);
    }
  }

  lemma IndicesMean(n: nat, h: int, k: int)
    requires 1 <= h <= n - 1
    ensures k in HoldoutIndices(n, h) <==> exists i :: StrideAt(n, h, i, k)
    ensures k in HoldoutIndices(n, h) ==> 0 <= k < n
  {
    if k in HoldoutIndices(n, h) {
      var i :| 0 <= i < h && HoldoutIndex(n, h, i) == k;
      ClampNeverFires(n, h, i);
      StrideMeans(n, h, i, k);
    }
    if i :| StrideAt(n, h, i, k) { StrideMeans(n, h, i, k); }
  }

  /** The cases at h even strides are held out, with h the rounded share; the others are the pool. */
  ghost predicate Splits<T>(cases: seq<T>, ratio: real, held: seq<T>, pool: seq<T>, heldAt: seq<int>, poolAt: seq<int>) {
    var n, h := |cases|, |held|;
    && StandsAt(cases, heldAt, held) && StandsAt(cases, poolAt, pool)
    && (forall k :: 0 <= k < n ==> (k in heldAt <==> k !in poolAt))
    && (forall k :: k in heldAt <==> exists i :: StrideAt(n, h, i, k))
    && (exists share :: ShareIs(n, ratio, share, h))
  }

  lemma PartitionSplits<T>(cases: seq<T>, ratio: real, held: seq<T>, pool: seq<T>) returns (heldAt: seq<int>, poolAt: seq<int>)
    requires IsPartition(cases, ratio, held, pool) && |cases| >= 2
    ensures Splits(cases, ratio, held, pool, heldAt, poolAt)
  {
    var n, h := |cases|, HoldoutSize(|cases|, ratio);
    PartitionIsExact(cases, ratio, held, pool);
    heldAt := SelectStandsAt(cases, HoldoutIndices(n, h));
    poolAt := SelectStandsAt(cases, Complement(n, HoldoutIndices(n, h)));
    ShareMeans(n, ratio);
    forall k ensures k in heldAt <==> exists i :: StrideAt(n, h, i, k) { IndicesMean(n, h, k); }
  }

  /** For n >= 2, whatever the ratio: exactly clamp(round(n r), 1, n - 1) cases are held out, and
      every case is held out or in the pool by its place, neither part empty. */
  lemma PartitionIsExact<T>(cases: seq<T>, ratio: real, held: seq<T>, pool: seq<T>)
    requires IsPartition(cases, ratio, held, pool)
    ensures |held| + |pool| == |cases| && forall c :: c in cases <==> c in held || c in pool
    ensures |cases| >= 2 ==> |held| == HoldoutSize(|cases|, ratio) && held != [] && pool != []
  {
    var n := |cases|;
    if n >= 2 {
      var h := HoldoutSize(n, ratio);
      var places := HoldoutIndices(n, h);
      IndicesAreDistinct(n, h, h);
      forall k | k in places ensures 0 <= k < n {
        var i :| 0 <= i < h && HoldoutIndex(n, h, i) == k;
        ClampNeverFires(n, h, i);
      }
      SelectSize(cases, places);
      SelectSplits(cases, places, Complement(n, places));
      forall c ensures c in cases <==> c in held || c in pool {
        SelectMembers(cases, places, c);
        SelectMembers(cases, Complement(n, places), c);
        if c in cases {
          var i :| 0 <= i < n && cases[i] == c;
          assert i in places || i in Complement(n, places);
        }
      }
    }
  }

  method PartitionHoldout<T>(cases: seq<T>, ratio: real) returns (held: seq<T>, pool: seq<T>)
    ensures IsPartition(cases, ratio, held, pool)
    ensures |held| + |pool| == |cases| && forall c :: c in cases <==> c in held || c in pool
    ensures |cases| >= 2 ==> |held| == HoldoutSize(|cases|, ratio) && exists heldAt, poolAt :: Splits(cases, ratio, held, pool, heldAt, poolAt)
    ensures |cases| < 2 ==> held == [] && pool == cases
  {
    var n := |cases|;
    held, pool := [], [];
    if n < 2 {
      pool := cases;
      PartitionIsExact(cases, ratio, held, pool);
      return;
    }
    held, pool := Split(cases, HoldoutIndices(n, HoldoutSize(n, ratio)));
    PartitionIsExact(cases, ratio, held, pool);
    ghost var heldAt, poolAt := PartitionSplits(cases, ratio, held, pool);
  }

  method Split<T>(cases: seq<T>, places: set<int>) returns (held: seq<T>, pool: seq<T>)
    ensures held == Select(cases, places) && pool == Select(cases, Complement(|cases|, places))
  {
    ghost var others := Complement(|cases|, places);
    held, pool := [], [];
    assert cases[..|cases|] == cases;
    for i := 0 to |cases|
      invariant held == Select(cases[..i], places) && pool == Select(cases[..i], others)
    {
      assert cases[..i + 1][..i] == cases[..i];
      if i in places { held := held + [cases[i]]; } else { pool := pool + [cases[i]]; }
    }
  }
}
