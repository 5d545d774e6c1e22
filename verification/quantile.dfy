/** Histogram quantiles of the network report: cumulative clamping of bucket counts, the
    rank search, and linear interpolation inside the chosen bucket. Floats are reals plus
    one non-finite value. */
module Quantile {
  import opened Common

  /** A float: finite, or one of the infinities and NaN. */
  datatype Number = Fin(value: real) | NonFinite

  datatype Bound = Le(value: real) | PlusInf

  datatype Bucket = Bucket(le: Bound, count: Number)

  // ----- clamping -----

  /** The count of bucket `i` once counts are made cumulative. */
  function PrefixMax(b: seq<Bucket>, i: nat): real
    requires i < |b|
  {
    var c := b[i].count;
    if i == 0 then (if c.Fin? then c.value else 0.0)
    else
      var prev := PrefixMax(b, i - 1);
      if c.Fin? then MaxReal(prev, c.value) else prev
  }

  method ClampCumulative(b: seq<Bucket>) returns (out: seq<Bucket>)
    ensures |out| == |b|
    ensures forall i :: 0 <= i < |b| ==> out[i] == Bucket(b[i].le, Fin(PrefixMax(b, i)))
  {
    out := [];
    var prev: Option<real> := None;
    for i := 0 to |b|
      invariant |out| == i
      invariant forall j :: 0 <= j < i ==> out[j] == Bucket(b[j].le, Fin(PrefixMax(b, j)))
      invariant prev == if i == 0 then None else Some(PrefixMax(b, i - 1))
    {
      var count := b[i].count;
      if count.NonFinite? {
        count := Fin(if prev.None? then 0.0 else prev.value);
      } else if prev.Some? && count.value < prev.value {
        count := Fin(prev.value);
      }
      out := out + [Bucket(b[i].le, count)];
      prev := Some(count.value);
    }
  }

  function Clamped(b: seq<Bucket>): (c: seq<Bucket>)
    ensures |c| == |b|
  {
    seq(|b|, i requires 0 <= i < |b| => Bucket(b[i].le, Fin(PrefixMax(b, i))))
  }

  /** What bucket `j` brings to the maximum: its count if finite; a non-finite count brings
      nothing, except that a non-finite first count stands for zero. */
  function Brings(b: seq<Bucket>, j: nat): Option<real>
    requires j < |b|
  {
    if b[j].count.Fin? then Some(b[j].count.value) else if j == 0 then Some(0.0) else None
  }

  /** Clamping gives the maximum of what the buckets up to `i` bring: an upper bound of
      each, and equal to one. */
  lemma {:induction false} PrefixMaxIsMaximum(b: seq<Bucket>, i: nat) returns (attained: nat)
    requires i < |b|
    ensures attained <= i && Brings(b, attained) == Some(PrefixMax(b, i))
    ensures forall j :: 0 <= j <= i && Brings(b, j).Some? ==> Brings(b, j).value <= PrefixMax(b, i)
    decreases i
  {
    if i == 0 {
      attained := 0;
    } else {
      attained := PrefixMaxIsMaximum(b, i - 1);
      if b[i].count.Fin? && PrefixMax(b, i - 1) < b[i].count.value { attained := i; }
    }
  }

  lemma {:induction false} PrefixMaxMonotone(b: seq<Bucket>, i: nat, j: nat)
    requires i <= j < |b|
    ensures PrefixMax(b, i) <= PrefixMax(b, j)
    decreases j
  {
    if i < j { PrefixMaxMonotone(b, i, j - 1); }
  }

  lemma {:induction false} PrefixMaxOfClamped(b: seq<Bucket>, i: nat)
    requires i < |b|
    ensures PrefixMax(Clamped(b), i) == PrefixMax(b, i)
    decreases i
  {
    if i != 0 { PrefixMaxOfClamped(b, i - 1); }
  }

  /** Clamping twice is clamping once. */
  lemma ClampIdempotent(b: seq<Bucket>)
    ensures Clamped(Clamped(b)) == Clamped(b)
  {
    forall i | 0 <= i < |b|
      ensures Clamped(Clamped(b))[i] == Clamped(b)[i]
    {
      PrefixMaxOfClamped(b, i);
    }
  }

  // ----- the quantile -----

  /** Bounds as the bucket dictionary sorts them: strictly increasing, so that only the
      last one can be +Inf. */
  predicate Increasing(b: seq<Bucket>) {
    && (forall i :: 0 <= i < |b| - 1 ==> b[i].le.Le?)
    && (forall i, j :: 0 <= i < j < |b| && b[j].le.Le? ==> b[i].le.value < b[j].le.value)
  }

  datatype Parts = Parts(value: real, saturated: bool, lo: real, hi: Bound)

  predicate Usable(b: seq<Bucket>) {
    2 <= |b| && b[|b| - 1].le.PlusInf? && PrefixMax(b, |b| - 1) != 0.0
  }

  /** The first finite bucket at or after `i` whose cumulative count reaches `rank`, or the
      +Inf bucket. */
  function Chosen(b: seq<Bucket>, rank: real, i: nat): (k: nat)
    requires i < |b|
    ensures i <= k < |b|
    ensures k < |b| - 1 ==> rank <= PrefixMax(b, k)
    ensures forall j :: i <= j < k ==> PrefixMax(b, j) < rank
    decreases |b| - i
  {
    if i == |b| - 1 || rank <= PrefixMax(b, i) then i else Chosen(b, rank, i + 1)
  }

  /** Interpolation from `lo` to `hi` over `count` observations, `rank` of them covered. */
  function Interpolate(lo: real, hi: real, count: real, rank: real): real {
    if count == 0.0 then lo else lo + (hi - lo) * (rank / count)
  }

  function PartsAt(b: seq<Bucket>, rank: real, k: nat): Parts
    requires Increasing(b) && 2 <= |b| && k < |b|
  {
    if k == |b| - 1 then var le := b[k - 1].le.value; Parts(le, true, le, PlusInf)
    else
      var end := b[k].le.value;
      if k == 0 then
        if end <= 0.0 then Parts(end, false, end, Le(end))
        else Parts(Interpolate(0.0, end, PrefixMax(b, 0), rank), false, 0.0, Le(end))
      else
        var start := b[k - 1].le.value;
        var below := PrefixMax(b, k - 1);
        Parts(Interpolate(start, end, PrefixMax(b, k) - below, rank - below), false, start, Le(end))
  }

  function AtRank(b: seq<Bucket>, rank: real): Parts
    requires Increasing(b) && 2 <= |b|
  {
    PartsAt(b, rank, Chosen(b, rank, 0))
  }

  /** `rank` is the rank of the `q`-quantile among the observations. */
  predicate RankOf(b: seq<Bucket>, q: real, rank: real)
    requires b != []
  {
    rank == q * PrefixMax(b, |b| - 1)
  }

  predicate ClampOf(b: seq<Bucket>, items: seq<Bucket>) {
    |items| == |b| && forall i :: 0 <= i < |b| ==> items[i] == Bucket(b[i].le, Fin(PrefixMax(b, i)))
  }

  method SearchRank(b: seq<Bucket>, items: seq<Bucket>, rank: real) returns (chosen: nat)
    requires b != [] && ClampOf(b, items)
    ensures chosen == Chosen(b, rank, 0)
  {
    chosen := |items| - 1;
    for i := 0 to |items| - 1
      invariant chosen == |items| - 1
      invariant Chosen(b, rank, 0) == Chosen(b, rank, i)
    {
      if items[i].count.value >= rank { return i; }
    }
  }

  method PlaceInBucket(b: seq<Bucket>, items: seq<Bucket>, rank: real, chosen: nat) returns (p: Parts)
    requires Increasing(b) && 2 <= |b| && chosen < |b| && ClampOf(b, items)
    ensures p == PartsAt(b, rank, chosen)
  {
    if chosen == |items| - 1 {
      var le := items[chosen - 1].le.value;
      return Parts(le, true, le, PlusInf);
    }
    var end := items[chosen].le.value;
    if chosen == 0 {
      if end <= 0.0 { return Parts(end, false, end, Le(end)); }
      return Parts(Interpolate(0.0, end, items[0].count.value, rank), false, 0.0, Le(end));
    }
    var start, below := items[chosen - 1].le.value, items[chosen - 1].count.value;
    return Parts(Interpolate(start, end, items[chosen].count.value - below, rank - below), false, start, Le(end));
  }

  method PlaceRank(b: seq<Bucket>, items: seq<Bucket>, rank: real) returns (p: Parts)
    requires Increasing(b) && 2 <= |b| && ClampOf(b, items)
    ensures p == AtRank(b, rank)
  {
    var chosen := SearchRank(b, items, rank);
    p := PlaceInBucket(b, items, rank, chosen);
  }

  method QuantileParts(b: seq<Bucket>, q: Number) returns (r: Option<Parts>, ghost rank: real)
    requires Increasing(b)
    ensures r.Some? <==> Usable(b) && q.Fin?
    ensures r.Some? ==> RankOf(b, q.value, rank) && r.value == AtRank(b, rank)
  {
    rank := 0.0;
    var items := ClampCumulative(b);
    if |items| < 2 || items[|items| - 1].le.Le? { return None, 0.0; }
    var observations := items[|items| - 1].count.value;
    if observations == 0.0 || q.NonFinite? { return None, 0.0; }
    var target := q.value * observations;
    var parts := PlaceRank(b, items, target);
    return Some(parts), target;
  }

  // ----- where the quantile lies -----

  lemma RatioBounds(rank: real, count: real)
    requires 0.0 <= rank <= count && 0.0 < count
    ensures 0.0 <= rank / count <= 1.0
  {
  }

  lemma BetweenEnds(lo: real, hi: real, t: real)
    requires lo <= hi && 0.0 <= t <= 1.0
    ensures lo <= lo + (hi - lo) * t <= hi
  {
  }

  lemma InterpolateWithin(lo: real, hi: real, count: real, rank: real)
    requires lo <= hi && 0.0 <= rank <= count
    ensures lo <= Interpolate(lo, hi, count, rank) <= hi
  {
    if count != 0.0 {
      RatioBounds(rank, count);
      BetweenEnds(lo, hi, rank / count);
    }
  }

  lemma ScaleMonotone(w: real, t: real, u: real)
    requires 0.0 <= w && t <= u
    ensures w * t <= w * u
  {
  }

  predicate WithinBucket(p: Parts) {
    p.lo <= p.value && (p.hi.Le? ==> p.value <= p.hi.value) && (p.saturated <==> p.hi.PlusInf?)
  }

  lemma PartsWithinBucket(b: seq<Bucket>, rank: real)
    requires Increasing(b) && 2 <= |b| && 0.0 <= rank
    ensures WithinBucket(AtRank(b, rank))
  {
    var k := Chosen(b, rank, 0);
    if k == 0 {
      if 0.0 < b[0].le.value { InterpolateWithin(0.0, b[0].le.value, PrefixMax(b, 0), rank); }
    } else if k < |b| - 1 {
      var below := PrefixMax(b, k - 1);
      InterpolateWithin(b[k - 1].le.value, b[k].le.value, PrefixMax(b, k) - below, rank - below);
    }
  }

  lemma InterpolateInverse(lo: real, hi: real, count: real, rank: real)
    requires lo < hi && 0.0 < count
    ensures count * ((Interpolate(lo, hi, count, rank) - lo) / (hi - lo)) == rank
  {
    var t := rank / count;
    var w := hi - lo;
    assert (w * t) / w == t;
    assert count * t == rank;
  }

  /** The cumulative count the histogram assigns to `x`, linear between the ends of bucket `k`. */
  function CountBelow(b: seq<Bucket>, k: nat, lo: real, x: real): real
    requires Increasing(b) && k < |b| - 1 && lo < b[k].le.value
  {
    var below := if k == 0 then 0.0 else PrefixMax(b, k - 1);
    below + (PrefixMax(b, k) - below) * ((x - lo) / (b[k].le.value - lo))
  }

  /** The quantile inverts the cumulative count: reading the histogram back at the returned
      value gives the rank that was asked for. */
  lemma {:induction false} QuantileInvertsCounts(b: seq<Bucket>, rank: real)
    requires Increasing(b) && 2 <= |b| && 0.0 < rank && Chosen(b, rank, 0) < |b| - 1
    requires Chosen(b, rank, 0) == 0 ==> 0.0 < b[0].le.value
    ensures AtRank(b, rank).lo < b[Chosen(b, rank, 0)].le.value
    ensures CountBelow(b, Chosen(b, rank, 0), AtRank(b, rank).lo, AtRank(b, rank).value) == rank
  {
    var k := Chosen(b, rank, 0);
    var end := b[k].le.value;
    if k == 0 {
      InterpolateInverse(0.0, end, PrefixMax(b, 0), rank);
    } else {
      var below := PrefixMax(b, k - 1);
      InterpolateInverse(b[k - 1].le.value, end, PrefixMax(b, k) - below, rank - below);
    }
  }

  lemma RankNonNegative(q: real, n: real)
    requires 0.0 <= q && 0.0 < n
    ensures 0.0 <= q * n
  {
  }

  /** The quantile lies in the bucket it reports, for every histogram with observations. */
  lemma {:induction false} QuantileWithinBucket(b: seq<Bucket>, q: real, rank: real)
    requires Increasing(b) && Usable(b) && 0.0 < PrefixMax(b, |b| - 1)
    requires 0.0 <= q <= 1.0 && RankOf(b, q, rank)
    ensures WithinBucket(AtRank(b, rank))
  {
    RankNonNegative(q, PrefixMax(b, |b| - 1));
    PartsWithinBucket(b, rank);
  }

  lemma {:induction false} ChosenMonotone(b: seq<Bucket>, r: real, s: real)
    requires b != [] && r <= s
    ensures Chosen(b, r, 0) <= Chosen(b, s, 0)
  {
  }

  lemma {:induction false} SameBucketMonotone(b: seq<Bucket>, r: real, s: real, k: nat)
    requires Increasing(b) && 2 <= |b| && k < |b| && r <= s && 0.0 <= r
    requires k == 0 ==> 0.0 <= PrefixMax(b, 0)
    ensures PartsAt(b, r, k).value <= PartsAt(b, s, k).value
  {
  }

  lemma {:induction false} LaterBucketHigher(b: seq<Bucket>, r: real, s: real)
    requires Increasing(b) && 2 <= |b| && 0.0 <= r <= s && Chosen(b, r, 0) < Chosen(b, s, 0)
    ensures AtRank(b, r).value <= AtRank(b, s).value
  {
    PartsWithinBucket(b, r);
    PartsWithinBucket(b, s);
    var j, k := Chosen(b, r, 0), Chosen(b, s, 0);
    assert b[j].le.value <= b[k - 1].le.value;
  }

  lemma RankMonotone(b: seq<Bucket>, r: real, s: real)
    requires Increasing(b) && 2 <= |b| && 0.0 <= r <= s
    ensures AtRank(b, r).value <= AtRank(b, s).value
    ensures AtRank(b, r).saturated ==> AtRank(b, s).saturated
  {
    ChosenMonotone(b, r, s);
    var k := Chosen(b, r, 0);
    if k == Chosen(b, s, 0) { SameBucketMonotone(b, r, s, k); } else { LaterBucketHigher(b, r, s); }
  }

  /** A larger `q` never gives a smaller quantile, and saturation persists. */
  lemma {:induction false} QuantileMonotone(b: seq<Bucket>, q: real, p: real, r: real, s: real)
    requires Increasing(b) && Usable(b) && 0.0 < PrefixMax(b, |b| - 1)
    requires 0.0 <= q <= p <= 1.0 && RankOf(b, q, r) && RankOf(b, p, s)
    ensures AtRank(b, r).value <= AtRank(b, s).value
    ensures AtRank(b, r).saturated ==> AtRank(b, s).saturated
  {
    var n := PrefixMax(b, |b| - 1);
    RankNonNegative(q, n);
    ScaleMonotone(n, q, p);
    RankMonotone(b, r, s);
  }

  /** A quantile saturates exactly when no finite bucket reaches its rank, and then it is the
      last finite bound. */
  lemma {:induction false} SaturatedIff(b: seq<Bucket>, rank: real)
    requires Increasing(b) && 2 <= |b|
    ensures AtRank(b, rank).saturated <==> forall i :: 0 <= i < |b| - 1 ==> PrefixMax(b, i) < rank
    ensures AtRank(b, rank).saturated ==> AtRank(b, rank) == Parts(b[|b| - 2].le.value, true, b[|b| - 2].le.value, PlusInf)
  {
    var k := Chosen(b, rank, 0);
    assert k < |b| - 1 ==> rank <= PrefixMax(b, k);
  }

  /** The three percentiles a report row shows. */
  method Percentiles(b: seq<Bucket>) returns (p50: Option<Parts>, p95: Option<Parts>, p99: Option<Parts>)
    requires Increasing(b)
    ensures p50.Some? == p95.Some? == p99.Some? == Usable(b)
    ensures Usable(b) ==> var n := PrefixMax(b, |b| - 1);
              p50.value == AtRank(b, 0.50 * n) && p95.value == AtRank(b, 0.95 * n) && p99.value == AtRank(b, 0.99 * n)
    ensures Usable(b) && 0.0 < PrefixMax(b, |b| - 1) ==>
              && WithinBucket(p50.value) && WithinBucket(p95.value) && WithinBucket(p99.value)
              && p50.value.value <= p95.value.value <= p99.value.value
              && (p50.value.saturated ==> p95.value.saturated) && (p95.value.saturated ==> p99.value.saturated)
  {
    ghost var r50, r95, r99;
    p50, r50 := QuantileParts(b, Fin(0.50));
    p95, r95 := QuantileParts(b, Fin(0.95));
    p99, r99 := QuantileParts(b, Fin(0.99));
    if Usable(b) && 0.0 < PrefixMax(b, |b| - 1) {
      QuantileWithinBucket(b, 0.50, r50);
      QuantileWithinBucket(b, 0.95, r95);
      QuantileWithinBucket(b, 0.99, r99);
      QuantileMonotone(b, 0.50, 0.95, r50, r95);
      QuantileMonotone(b, 0.95, 0.99, r95, r99);
    }
  }

  lemma {:induction false} ChosenOfClamped(b: seq<Bucket>, rank: real, i: nat)
    requires i < |b|
    ensures Chosen(Clamped(b), rank, i) == Chosen(b, rank, i)
    decreases |b| - i
  {
    PrefixMaxOfClamped(b, i);
    if i != |b| - 1 { ChosenOfClamped(b, rank, i + 1); }
  }

  lemma {:induction false} PartsOfClamped(b: seq<Bucket>, c: seq<Bucket>, rank: real, k: nat)
    requires Increasing(b) && Increasing(c) && 2 <= |b| == |c| && k < |b|
    requires forall i :: 0 <= i < |b| ==> c[i].le == b[i].le && PrefixMax(c, i) == PrefixMax(b, i)
    ensures PartsAt(c, rank, k) == PartsAt(b, rank, k)
  {
  }

  /** Deltas are clamped once when built and again here; the second time changes nothing. */
  lemma {:induction false} QuantileOfClamped(b: seq<Bucket>, rank: real)
    requires Increasing(b) && 2 <= |b|
    ensures Increasing(Clamped(b)) && PrefixMax(Clamped(b), |b| - 1) == PrefixMax(b, |b| - 1)
    ensures AtRank(Clamped(b), rank) == AtRank(b, rank)
  {
    var c := Clamped(b);
    forall i | 0 <= i < |b|
      ensures c[i].le == b[i].le && PrefixMax(c, i) == PrefixMax(b, i)
    {
      PrefixMaxOfClamped(b, i);
    }
    ChosenOfClamped(b, rank, 0);
    PartsOfClamped(b, c, rank, Chosen(b, rank, 0));
  }
}
