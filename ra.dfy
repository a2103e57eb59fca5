/** The rating arrays (`struct RATINGS`): the starting point of an
    iteration, the average given to the players without a fixed rating,
    the zeroing of purged players, the results snapshot with its anchor
    shift, and the centring of the ratings of the unflagged players. */
module Ra {
  import opened CText

  /** The number of players among the first n that are not flagged. */
  function NotFlagged(flagged: seq<bool>, n: nat): nat
    requires n <= |flagged|
  {
    if n == 0 then 0 else NotFlagged(flagged, n - 1) + (if flagged[n - 1] then 0 else 1)
  }

  /** The sum of the ratings of the unflagged players among the first n. */
  function UnflaggedSum(r: seq<real>, flagged: seq<bool>, n: nat): real
    requires n <= |r| && n <= |flagged|
  {
    if n == 0 then 0.0 else UnflaggedSum(r, flagged, n - 1) + (if flagged[n - 1] then 0.0 else r[n - 1])
  }

  /** The average of the unflagged players' ratings. */
  function UnflaggedAverage(r: seq<real>, flagged: seq<bool>, n: nat): real
    requires n <= |r| && n <= |flagged| && NotFlagged(flagged, n) > 0
  {
    UnflaggedSum(r, flagged, n) / NotFlagged(flagged, n) as real
  }

  /** Ratings t that differ from r by exactly -c on every unflagged player
      have a sum c times the count lower. */
  lemma {:induction false} ShiftedSum(r: seq<real>, t: seq<real>, flagged: seq<bool>, n: nat, c: real)
    requires n <= |r| && n <= |t| && n <= |flagged|
    requires forall j :: 0 <= j < n && !flagged[j] ==> t[j] == r[j] - c
    ensures UnflaggedSum(t, flagged, n) == UnflaggedSum(r, flagged, n) - NotFlagged(flagged, n) as real * c
    decreases n
  {
    if n > 0 {
      ShiftedSum(r, t, flagged, n - 1, c);
      var k := NotFlagged(flagged, n - 1) as real;
      if !flagged[n - 1] {
        assert NotFlagged(flagged, n) as real == k + 1.0;
        assert (k + 1.0) * c == k * c + c;
      }
    }
  }

  /** After `ratings_center_to_zero` the unflagged ratings average to zero
      (in exact arithmetic). */
  lemma CenteredAverageZero(r: seq<real>, t: seq<real>, flagged: seq<bool>, n: nat)
    requires n <= |r| && n <= |t| && n <= |flagged| && NotFlagged(flagged, n) > 0
    requires forall j :: 0 <= j < n && !flagged[j] ==> t[j] == r[j] - UnflaggedAverage(r, flagged, n)
    ensures UnflaggedSum(t, flagged, n) == 0.0
  {
    var c := UnflaggedAverage(r, flagged, n);
    var k := NotFlagged(flagged, n) as real;
    ShiftedSum(r, t, flagged, n, c);
    DivMul(UnflaggedSum(r, flagged, n), k);
  }

  lemma DivMul(s: real, k: real)
    requires k > 0.0
    ensures k * (s / k) == s
  {
  }

  /** When every player is flagged, there is no unflagged player to shift. */
  lemma {:induction false} AllFlaggedNone(flagged: seq<bool>, n: nat)
    requires n <= |flagged|
    ensures NotFlagged(flagged, n) == 0 <==> forall j :: 0 <= j < n ==> flagged[j]
    decreases n
  {
    if n > 0 {
      AllFlaggedNone(flagged, n - 1);
    }
  }

  /** `ratings_set`: the general average for every player that is neither
      prefed nor flagged; the others keep their rating. */
  method RatingsSet(n: nat, generalAverage: real, prefed: seq<bool>, flagged: seq<bool>, rating: array<real>)
    requires n <= |prefed| && n <= |flagged| && n <= rating.Length
    modifies rating
    ensures forall j :: 0 <= j < n ==>
      rating[j] == (if !prefed[j] && !flagged[j] then generalAverage else old(rating[j]))
    ensures rating[n..] == old(rating[n..])
  {
    ghost var s := rating[..];
    var i := 0;
    while i < n
      invariant i <= n
      invariant forall j :: 0 <= j < i ==> rating[j] == (if !prefed[j] && !flagged[j] then generalAverage else s[j])
      invariant forall j :: i <= j < rating.Length ==> rating[j] == s[j]
    {
      if !prefed[i] && !flagged[i] {
        rating[i] := generalAverage;
      }
      i := i + 1;
    }
  }

  /** `ratings_copy`: t[0..n) becomes r[0..n). */
  method RatingsCopy(n: nat, r: array<real>, t: array<real>)
    requires n <= r.Length && n <= t.Length
    modifies t
    ensures t[..n] == r[..n]
    ensures t[n..] == old(t[n..])
  {
    CopyPrefix(r, t, n);
  }

  /** `ratings_cleared_for_purged`: zero for every flagged player, the rest
      untouched. */
  method ClearedForPurged(n: nat, flagged: seq<bool>, ratingof: array<real>)
    requires n <= |flagged| && n <= ratingof.Length
    modifies ratingof
    ensures forall j :: 0 <= j < n ==> ratingof[j] == (if flagged[j] then 0.0 else old(ratingof[j]))
    ensures ratingof[n..] == old(ratingof[n..])
  {
    ghost var s := ratingof[..];
    var j := 0;
    while j < n
      invariant j <= n
      invariant forall k :: 0 <= k < j ==> ratingof[k] == (if flagged[k] then 0.0 else s[k])
      invariant forall k :: j <= k < ratingof.Length ==> ratingof[k] == s[k]
    {
      if flagged[j] {
        ratingof[j] := 0.0;
      }
      j := j + 1;
    }
  }

  /** `ratings_center_to_zero`: when some player is unflagged, the average
      of the unflagged ratings is subtracted from each of them; flagged
      ratings never change, and with every player flagged nothing does. */
  method CenterToZero(n: nat, flagged: seq<bool>, ratingof: array<real>)
    requires n <= |flagged| && n <= ratingof.Length
    modifies ratingof
    ensures NotFlagged(flagged, n) == 0 ==> ratingof[..] == old(ratingof[..])
    ensures NotFlagged(flagged, n) > 0 ==> forall j :: 0 <= j < n ==>
      ratingof[j] == (if flagged[j] then old(ratingof[j])
                      else old(ratingof[j]) - UnflaggedAverage(old(ratingof[..]), flagged, n))
    ensures ratingof[n..] == old(ratingof[n..])
  {
    var notflagged := 0;
    var accum := 0.0;
    var j := 0;
    while j < n
      invariant j <= n
      invariant notflagged == NotFlagged(flagged, j)
      invariant accum == UnflaggedSum(ratingof[..], flagged, j)
    {
      if !flagged[j] {
        notflagged := notflagged + 1;
        accum := accum + ratingof[j];
      }
      j := j + 1;
    }
    if notflagged > 0 {
      var average := accum / notflagged as real;
      ApplyExcessCorrection(average, n, flagged, ratingof);
    }
  }

  /** `ratings_apply_excess_correction`: subtracts excess from every
      unflagged rating. */
  method ApplyExcessCorrection(excess: real, n: nat, flagged: seq<bool>, ratingof: array<real>)
    requires n <= |flagged| && n <= ratingof.Length
    modifies ratingof
    ensures forall j :: 0 <= j < n ==>
      ratingof[j] == (if flagged[j] then old(ratingof[j]) else old(ratingof[j]) - excess)
    ensures ratingof[n..] == old(ratingof[n..])
  {
    ghost var s := ratingof[..];
    var j := 0;
    while j < n
      invariant j <= n
      invariant forall k :: 0 <= k < j ==> ratingof[k] == (if flagged[k] then s[k] else s[k] - excess)
      invariant forall k :: j <= k < ratingof.Length ==> ratingof[k] == s[k]
    {
      if !flagged[j] {
        ratingof[j] := ratingof[j] - excess;
      }
      j := j + 1;
    }
  }

  /** `struct RATINGS`. */
  class Ratings {
    var ratingof: array<real>
    var ratingbk: array<real>
    var ratingofResults: array<real>
    var obtained: array<real>
    var obtainedResults: array<real>
    var playedby: array<int>
    var playedbyResults: array<int>

    /** Every array holds n players and no two of them are the same. */
    ghost predicate Valid(n: nat)
      reads this
    {
      n <= ratingof.Length && n <= ratingbk.Length && n <= ratingofResults.Length
      && n <= obtained.Length && n <= obtainedResults.Length
      && n <= playedby.Length && n <= playedbyResults.Length
      && ratingof != ratingbk && ratingof != ratingofResults && ratingof != obtained
      && ratingof != obtainedResults && ratingbk != ratingofResults && ratingbk != obtained
      && ratingbk != obtainedResults && ratingofResults != obtained
      && ratingofResults != obtainedResults && obtained != obtainedResults
      && playedby != playedbyResults
    }

    /** `ratings_starting_point`: ratingof and ratingbk start at rat0 for the
        first n players. */
    method StartingPoint(n: nat, rat0: real)
      requires Valid(n)
      modifies ratingof, ratingbk
      ensures forall i :: 0 <= i < n ==> ratingof[i] == rat0 && ratingbk[i] == rat0
      ensures ratingof[n..] == old(ratingof[n..]) && ratingbk[n..] == old(ratingbk[n..])
    {
      FillPrefix(ratingof, n, rat0);
      FillPrefix(ratingbk, n, rat0);
    }

    /** `ratings_results`: clears the purged players' ratings, copies
        ratingof, obtained and playedby to the result arrays, and then, when
        the anchor is in use and its error is relative to the average,
        shifts the result ratings so that the anchor gets the general
        average. */
    method Results(anchorErrRel2avg: bool, anchorUse: bool, anchor: nat, generalAverage: real,
                   n: nat, flagged: seq<bool>)
      requires Valid(n) && n <= |flagged|
      requires anchorErrRel2avg && anchorUse ==> anchor < n
      modifies ratingof, ratingofResults, obtainedResults, playedbyResults
      ensures forall j :: 0 <= j < n ==> ratingof[j] == (if flagged[j] then 0.0 else old(ratingof[j]))
      ensures obtainedResults[..n] == obtained[..n] && playedbyResults[..n] == playedby[..n]
      ensures !(anchorErrRel2avg && anchorUse) ==> ratingofResults[..n] == ratingof[..n]
      ensures anchorErrRel2avg && anchorUse ==>
        ratingofResults[anchor] == generalAverage
        && forall j :: 0 <= j < n ==> ratingofResults[j] == ratingof[j] + (generalAverage - ratingof[anchor])
      ensures ratingof[n..] == old(ratingof[n..]) && ratingofResults[n..] == old(ratingofResults[n..])
      ensures obtainedResults[n..] == old(obtainedResults[n..]) && playedbyResults[n..] == old(playedbyResults[n..])
    {
      ClearedForPurged(n, flagged, ratingof);
      CopyPrefix(ratingof, ratingofResults, n);
      CopyPrefix(obtained, obtainedResults, n);
      CopyPrefix(playedby, playedbyResults, n);
      if anchorErrRel2avg && anchorUse {
        var excess := generalAverage - ratingofResults[anchor];
        AddToPrefix(ratingofResults, n, excess);
      }
    }
  }

  /** The shift loop of `ratings_results`. */
  method AddToPrefix(a: array<real>, n: nat, excess: real)
    requires n <= a.Length
    modifies a
    ensures forall j :: 0 <= j < n ==> a[j] == old(a[j]) + excess
    ensures a[n..] == old(a[n..])
  {
    ghost var s := a[..];
    var j := 0;
    while j < n
      invariant j <= n
      invariant forall k :: 0 <= k < j ==> a[k] == s[k] + excess
      invariant forall k :: j <= k < a.Length ==> a[k] == s[k]
    {
      a[j] := a[j] + excess;
      j := j + 1;
    }
  }
}
