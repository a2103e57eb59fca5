/** The accumulators of the simulations: per-player sums of ratings and of
    their squares, the same for every pair of players in a triangular
    table, and four scalar sums for white advantage and draw rate. The
    sums are modelled as `real`, without floating-point rounding. */
module Summations {
  import opened CText

  /** The number of pairs j < i < n: 0, 0, 1, 3, 6, ... */
  function Tri(n: nat): nat
  {
    if n == 0 then 0 else Tri(n - 1) + (n - 1)
  }

  /** Tri is the `(n*n - n)/2` the C computes. */
  lemma {:induction false} TriIsHalfSquare(n: nat)
    ensures Tri(n) == (n * n - n) / 2
    decreases n
  {
    if n > 0 {
      TriIsHalfSquare(n - 1);
      assert n * n - n == ((n - 1) * (n - 1) - (n - 1)) + 2 * (n - 1);
    }
  }

  /** `head2head_idx_sdev(x, y)`: the slot of the pair {x, y} in the
      triangular table. */
  function PairIndex(x: nat, y: nat): int
  {
    if y < x then (x * x - x) / 2 + y else (y * y - y) / 2 + x
  }

  /** The slot of a pair does not depend on the order of its players. */
  lemma PairIndexSymmetric(x: nat, y: nat)
    ensures PairIndex(x, y) == PairIndex(y, x)
  {
  }

  lemma {:induction false} TriGrows(a: nat, b: nat)
    requires a < b
    ensures Tri(a) + a <= Tri(b)
    decreases b - a
  {
    if a + 1 < b {
      TriGrows(a + 1, b);
    }
  }

  /** Row i of the table is the slots [Tri(i), Tri(i) + i). */
  lemma PairIndexInRow(i: nat, j: nat)
    requires j < i
    ensures PairIndex(i, j) == Tri(i) + j
  {
    TriIsHalfSquare(i);
  }

  /** For 0 <= j < i < n the slot lies in [0, Tri(n)), as asserted in
      `summations_update`. */
  lemma PairIndexBounded(i: nat, j: nat, n: nat)
    requires j < i < n
    ensures 0 <= PairIndex(i, j) < (n * n - n) / 2
  {
    TriGrows(i, n);
    PairIndexInRow(i, j);
    TriIsHalfSquare(n);
  }

  /** Distinct pairs j < i get distinct slots. */
  lemma PairIndexInjective(i: nat, j: nat, a: nat, b: nat)
    requires j < i && b < a && PairIndex(i, j) == PairIndex(a, b)
    ensures i == a && j == b
  {
    PairIndexInRow(i, j);
    PairIndexInRow(a, b);
    if i < a {
      TriGrows(i, a);
    } else if a < i {
      TriGrows(a, i);
    }
  }

  /** Every slot below Tri(n) belongs to some pair j < i < n. */
  lemma {:induction false} PairIndexOnto(idx: nat, n: nat)
    requires idx < Tri(n)
    ensures exists i: nat, j: nat :: j < i < n && PairIndex(i, j) == idx
    decreases n
  {
    assert n > 0;
    if idx < Tri(n - 1) {
      PairIndexOnto(idx, n - 1);
      var i: nat, j: nat :| j < i < n - 1 && PairIndex(i, j) == idx;
      assert j < i < n;
    } else {
      var j: nat := idx - Tri(n - 1);
      PairIndexInRow(n - 1, j);
    }
  }

  /** `struct DEVIATION_ACC`. */
  datatype DevAcc = DevAcc(sum1: real, sum2: real, sdev: real)

  const ZeroAcc: DevAcc := DevAcc(0.0, 0.0, 0.0)

  /** What one simulation adds to the accumulator of a pair with rating
      difference diff. */
  function AddDiff(a: DevAcc, diff: real): DevAcc
  {
    a.(sum1 := a.sum1 + diff, sum2 := a.sum2 + diff * diff)
  }

  /** Sets a[0 .. n) to zero. */
  method ZeroReals(a: array<real>, n: nat)
    requires n <= a.Length
    modifies a
    ensures forall k :: 0 <= k < n ==> a[k] == 0.0
    ensures a[n..] == old(a[n..])
  {
    var i := 0;
    while i < n
      invariant 0 <= i <= n
      invariant forall k :: 0 <= k < i ==> a[k] == 0.0
      invariant a[n..] == old(a[n..])
    {
      a[i] := 0.0;
      i := i + 1;
    }
  }

  /** Sets a[0 .. n) to zero accumulators. */
  method ZeroAccs(a: array<DevAcc>, n: nat)
    requires n <= a.Length
    modifies a
    ensures forall k :: 0 <= k < n ==> a[k] == ZeroAcc
  {
    var i := 0;
    while i < n
      invariant 0 <= i <= n
      invariant forall k :: 0 <= k < i ==> a[k] == ZeroAcc
    {
      a[i] := ZeroAcc;
      i := i + 1;
    }
  }

  /** The row i of `summations_update`: every pair (i, j) with j < i gets
      its difference added once. */
  method UpdateRow(relative: array<DevAcc>, i: nat, rating: seq<real>, ghost before: seq<DevAcc>)
    requires i < |rating| && Tri(i) + i <= relative.Length == |before|
    requires forall k :: Tri(i) <= k < relative.Length ==> relative[k] == before[k]
    modifies relative
    ensures forall k :: 0 <= k < Tri(i) ==> relative[k] == old(relative[k])
    ensures RowAdded(relative[..], before, rating, i)
    ensures forall k :: Tri(i) + i <= k < relative.Length ==> relative[k] == before[k]
  {
    var j := 0;
    while j < i
      invariant 0 <= j <= i
      invariant forall k :: 0 <= k < Tri(i) ==> relative[k] == old(relative[k])
      invariant forall m :: 0 <= m < j ==> relative[Tri(i) + m] == AddDiff(before[Tri(i) + m], rating[i] - rating[m])
      invariant forall k :: Tri(i) + j <= k < relative.Length ==> relative[k] == before[k]
    {
      var idx := PairIndex(i, j);
      PairIndexInRow(i, j);
      var diff := rating[i] - rating[j];
      relative[idx] := AddDiff(relative[idx], diff);
      j := j + 1;
    }
  }

  /** Row a of the table holds the old accumulators of the pairs (a, b),
      b < a, each with the difference of their ratings added once. */
  ghost predicate RowAdded(now: seq<DevAcc>, before: seq<DevAcc>, rating: seq<real>, a: nat)
  {
    a < |rating| && Tri(a) + a <= |now| == |before|
    && forall b :: 0 <= b < a ==> now[Tri(a) + b] == AddDiff(before[Tri(a) + b], rating[a] - rating[b])
  }

  /** Every row below n is added. */
  ghost predicate PairsAdded(now: seq<DevAcc>, before: seq<DevAcc>, rating: seq<real>, n: nat)
  {
    forall a :: 0 <= a < n ==> RowAdded(now, before, rating, a)
  }

  /** In terms of `head2head_idx_sdev`: after the update every slot of a
      pair j < i < n holds its old value plus the pair's difference, and
      PairIndexInjective and PairIndexOnto make that once per slot. */
  lemma AddedAtPairIndex(now: seq<DevAcc>, before: seq<DevAcc>, rating: seq<real>, n: nat, i: nat, j: nat)
    requires PairsAdded(now, before, rating, n) && j < i < n
    ensures 0 <= PairIndex(i, j) < |now| == |before| && i < |rating|
    ensures now[PairIndex(i, j)] == AddDiff(before[PairIndex(i, j)], rating[i] - rating[j])
  {
    PairIndexInRow(i, j);
    assert RowAdded(now, before, rating, i);
  }

  /** The pair loops of `summations_update` over the first topn players:
      each player's sums get its rating once, each pair j < i < topn its
      difference once, and every other entry keeps its value. */
  method UpdateTables(sum1: array<real>, sum2: array<real>, relative: array<DevAcc>, topn: nat, rating: seq<real>)
    requires topn <= |rating| && topn <= sum1.Length && topn <= sum2.Length && Tri(topn) <= relative.Length
    requires sum1 != sum2
    modifies sum1, sum2, relative
    ensures forall i :: 0 <= i < topn ==>
      sum1[i] == old(sum1[i]) + rating[i] && sum2[i] == old(sum2[i]) + rating[i] * rating[i]
    ensures sum1[topn..] == old(sum1[topn..]) && sum2[topn..] == old(sum2[topn..])
    ensures PairsAdded(relative[..], old(relative[..]), rating, topn)
    ensures forall k :: Tri(topn) <= k < relative.Length ==> relative[k] == old(relative[k])
  {
    ghost var before := relative[..];
    var i := 0;
    while i < topn
      invariant 0 <= i <= topn
      invariant forall a :: 0 <= a < i ==>
        sum1[a] == old(sum1[a]) + rating[a] && sum2[a] == old(sum2[a]) + rating[a] * rating[a]
      invariant forall a :: i <= a < sum1.Length ==> sum1[a] == old(sum1[a])
      invariant forall a :: i <= a < sum2.Length ==> sum2[a] == old(sum2[a])
      invariant PairsAdded(relative[..], before, rating, i)
      invariant forall k :: Tri(i) <= k < relative.Length ==> relative[k] == before[k]
    {
      TriGrows(i, topn);
      UpdatePlayer(sum1, sum2, relative, i, rating, before);
      i := i + 1;
    }
    assert sum1[topn..] == old(sum1[topn..]);
    assert sum2[topn..] == old(sum2[topn..]);
  }

  /** One pass of the outer loop: player i's sums, then its row. */
  method UpdatePlayer(sum1: array<real>, sum2: array<real>, relative: array<DevAcc>, i: nat, rating: seq<real>,
                      ghost before: seq<DevAcc>)
    requires i < |rating| && i < sum1.Length && i < sum2.Length && sum1 != sum2
    requires Tri(i) + i <= relative.Length == |before|
    requires PairsAdded(relative[..], before, rating, i)
    requires forall k :: Tri(i) <= k < relative.Length ==> relative[k] == before[k]
    modifies sum1, sum2, relative
    ensures sum1[..] == old(sum1[..])[i := old(sum1[i]) + rating[i]]
    ensures sum2[..] == old(sum2[..])[i := old(sum2[i]) + rating[i] * rating[i]]
    ensures PairsAdded(relative[..], before, rating, i + 1)
    ensures forall k :: Tri(i) + i <= k < relative.Length ==> relative[k] == before[k]
  {
    sum1[i] := sum1[i] + rating[i];
    sum2[i] := sum2[i] + rating[i] * rating[i];
    ghost var mid := relative[..];
    UpdateRow(relative, i, rating, before);
    RowsKept(mid, relative[..], before, rating, i);
  }

  /** Rows before i are kept by row i, which adds row i. */
  lemma RowsKept(mid: seq<DevAcc>, now: seq<DevAcc>, before: seq<DevAcc>, rating: seq<real>, i: nat)
    requires |mid| == |now| == |before| && Tri(i) <= |mid|
    requires forall k :: 0 <= k < Tri(i) ==> now[k] == mid[k]
    requires RowAdded(now, before, rating, i)
    requires PairsAdded(mid, before, rating, i)
    ensures PairsAdded(now, before, rating, i + 1)
  {
    forall a | 0 <= a < i ensures RowAdded(now, before, rating, a) {
      TriGrows(a, i);
      assert RowAdded(mid, before, rating, a);
    }
  }

  /** `struct summations`; a NULL pointer is `null`. */
  class Sums {
    var relative: array?<DevAcc>
    var sum1: array?<real>
    var sum2: array?<real>
    var sdev: array?<real>
    var waSum1: real
    var waSum2: real
    var drSum1: real
    var drSum2: real
    var waSdev: real
    var drSdev: real

    /** The tables hold np players and Tri(np) pairs, in four separate
        allocations. */
    ghost predicate Allocated(np: nat)
      reads this
    {
      relative != null && sum1 != null && sum2 != null && sdev != null
      && relative.Length == Tri(np) && sum1.Length == np && sum2.Length == np && sdev.Length == np
      && sum1 != sum2 && sum1 != sdev && sum2 != sdev
    }

    /** Every scalar, per-player and pair accumulator is zero. */
    ghost predicate Cleared(np: nat)
      reads this, relative, sum1, sum2, sdev
      requires Allocated(np)
    {
      waSum1 == 0.0 && waSum2 == 0.0 && drSum1 == 0.0 && drSum2 == 0.0 && waSdev == 0.0 && drSdev == 0.0
      && (forall k :: 0 <= k < Tri(np) ==> relative[k] == ZeroAcc)
      && (forall k :: 0 <= k < np ==> sum1[k] == 0.0 && sum2[k] == 0.0 && sdev[k] == 0.0)
    }

    /** `summations_init`: every pointer NULL and every scalar zero. */
    method Init()
      modifies this
      ensures relative == null && sum1 == null && sum2 == null && sdev == null
      ensures waSum1 == 0.0 && waSum2 == 0.0 && drSum1 == 0.0 && drSum2 == 0.0 && waSdev == 0.0 && drSdev == 0.0
    {
      relative := null;
      sum1 := null;
      sum2 := null;
      sdev := null;
      waSum1 := 0.0;
      waSum2 := 0.0;
      drSum1 := 0.0;
      drSum2 := 0.0;
      waSdev := 0.0;
      drSdev := 0.0;
    }

    /** `summations_done`: the tables are released and every pointer is
        NULL; the scalars stay. */
    method Done()
      modifies this
      ensures relative == null && sum1 == null && sum2 == null && sdev == null
      ensures waSum1 == old(waSum1) && waSum2 == old(waSum2) && drSum1 == old(drSum1)
      ensures drSum2 == old(drSum2) && waSdev == old(waSdev) && drSdev == old(drSdev)
    {
      sum1 := null;
      sum2 := null;
      sdev := null;
      relative := null;
    }

    /** `summations_clear(sm, np)`: the six scalars, the np per-player
        triples and the Tri(np) pair triples become zero. */
    method Clear(np: nat)
      requires Allocated(np)
      modifies this, relative, sum1, sum2, sdev
      ensures Allocated(np) && Cleared(np)
      ensures relative == old(relative) && sum1 == old(sum1) && sum2 == old(sum2) && sdev == old(sdev)
    {
      waSum1 := 0.0;
      waSum2 := 0.0;
      drSum1 := 0.0;
      drSum2 := 0.0;
      waSdev := 0.0;
      drSdev := 0.0;
      var est := (np * np - np) / 2;
      TriIsHalfSquare(np);
      ZeroAccs(relative, est);
      ZeroReals(sum1, np);
      ZeroReals(sum2, np);
      ZeroReals(sdev, np);
    }

    /** `summations_calloc(sm, nplayers)`: four fresh tables, cleared; when
        an allocation fails (`allocates` false) the ones already made are
        released and nothing changes. */
    method Calloc(np: nat, allocates: bool) returns (ok: bool)
      requires np > 0
      modifies this
      ensures ok == allocates
      ensures ok ==> Allocated(np) && Cleared(np)
      ensures ok ==> fresh(relative) && fresh(sum1) && fresh(sum2) && fresh(sdev)
      ensures !ok ==> relative == old(relative) && sum1 == old(sum1) && sum2 == old(sum2) && sdev == old(sdev)
    {
      if !allocates {
        return false;
      }
      sum1 := new real[np];
      sum2 := new real[np];
      sdev := new real[np];
      var est := (np * np - np) / 2;
      TriIsHalfSquare(np);
      relative := new DevAcc[est];
      Clear(np);
      return true;
    }

    /** `summations_update(sm, topn, ratingof, wa, dr)`: adds one
        simulation's values to the scalar sums, to the sums of the first
        topn players and to every pair among them, once each. */
    method Update(np: nat, topn: nat, rating: seq<real>, wa: real, dr: real)
      requires Allocated(np) && topn <= np && topn <= |rating|
      modifies this, relative, sum1, sum2
      ensures Allocated(np) && relative == old(relative) && sum1 == old(sum1) && sum2 == old(sum2) && sdev == old(sdev)
      ensures waSum1 == old(waSum1) + wa && waSum2 == old(waSum2) + wa * wa
      ensures drSum1 == old(drSum1) + dr && drSum2 == old(drSum2) + dr * dr
      ensures waSdev == old(waSdev) && drSdev == old(drSdev)
      ensures forall i :: 0 <= i < topn ==>
        sum1[i] == old(sum1[i]) + rating[i] && sum2[i] == old(sum2[i]) + rating[i] * rating[i]
      ensures sum1[topn..] == old(sum1[topn..]) && sum2[topn..] == old(sum2[topn..])
      ensures PairsAdded(relative[..], old(relative[..]), rating, topn)
      ensures forall k :: Tri(topn) <= k < relative.Length ==> relative[k] == old(relative[k])
    {
      waSum1 := waSum1 + wa;
      waSum2 := waSum2 + wa * wa;
      drSum1 := drSum1 + dr;
      drSum2 := drSum2 + dr * dr;
      if topn < np {
        TriGrows(topn, np);
      }
      UpdateTables(sum1, sum2, relative, topn, rating);
    }
  }
}
