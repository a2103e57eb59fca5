/** The player table (`struct PLAYERS`): names and per-player flags, the
    purge of players whose performance cannot be rated, the marks of
    players with a prior, and the classification of players without
    games, with all wins or with all losses. */
module Plyrs {
  import opened CText
  import opened Encount

  /** The classification of `players_set_super` for one player with pla
      games and obt2 half-points: no games first; then zero points makes a
      super loser and all points a super winner, the latter test coming
      second and so winning a tie, and a player with a prior stays normal.
      A double below 0.001 is, for a count of half-points, a count of at
      most zero. */
  function PerfOf(obt2: int, pla: int, gotPrior: bool): Perf
  {
    var afterLoser := if obt2 <= 0 then (if gotPrior then PerfNormal else PerfSuperLoser) else PerfNormal;
    if pla == 0 then PerfNoGames
    else if 2 * pla - obt2 <= 0 then (if gotPrior then PerfNormal else PerfSuperWinner)
    else afterLoser
  }

  /** The classification in words: NOGAMES exactly without games; with
      games, a player without a prior is SUPERWINNER when it scored every
      point, otherwise SUPERLOSER when it scored none, otherwise NORMAL; a
      player with a prior is always NORMAL. */
  lemma PerfClassification(obt2: int, pla: int, gotPrior: bool)
    ensures PerfOf(obt2, pla, gotPrior) == PerfNoGames <==> pla == 0
    ensures pla != 0 && gotPrior ==> PerfOf(obt2, pla, gotPrior) == PerfNormal
    ensures pla != 0 && !gotPrior ==>
      (PerfOf(obt2, pla, gotPrior) == PerfSuperWinner <==> obt2 >= 2 * pla)
    ensures pla != 0 && !gotPrior ==>
      (PerfOf(obt2, pla, gotPrior) == PerfSuperLoser <==> obt2 <= 0 && obt2 < 2 * pla)
    ensures PerfOf(obt2, pla, gotPrior) != PerfNormal ==> pla == 0 || !gotPrior
    ensures !PerfOf(obt2, pla, gotPrior).PerfOther?
  {
  }

  /** The number of entries that are not PERF_NORMAL. */
  function Abnormal(p: seq<Perf>): (c: nat)
    ensures c <= |p|
  {
    if p == [] then 0 else Abnormal(p[..|p| - 1]) + (if p[|p| - 1] != PerfNormal then 1 else 0)
  }

  /** No abnormal entries exactly when every entry is normal. */
  lemma {:induction false} AbnormalZero(p: seq<Perf>)
    ensures Abnormal(p) == 0 <==> forall j :: 0 <= j < |p| ==> p[j] == PerfNormal
    decreases |p|
  {
    if p != [] {
      AbnormalZero(p[..|p| - 1]);
      assert forall j :: 0 <= j < |p| - 1 ==> p[..|p| - 1][j] == p[j];
    }
  }

  /** The flags after `players_purge`: a flag is set, or set now because the
      performance type is not normal. */
  function Purged(flagged: seq<bool>, perf: seq<Perf>): (r: seq<bool>)
    requires |flagged| == |perf|
    ensures |r| == |flagged|
  {
    seq(|flagged|, j requires 0 <= j < |flagged| => flagged[j] || perf[j] != PerfNormal)
  }

  /** Purging never clears a flag, flags every abnormal player, leaves every
      other flag as it was, and a second purge changes nothing. */
  lemma PurgeProperties(flagged: seq<bool>, perf: seq<Perf>)
    requires |flagged| == |perf|
    ensures forall j :: 0 <= j < |flagged| && flagged[j] ==> Purged(flagged, perf)[j]
    ensures forall j :: 0 <= j < |flagged| && perf[j] != PerfNormal ==> Purged(flagged, perf)[j]
    ensures forall j :: 0 <= j < |flagged| && perf[j] == PerfNormal ==> Purged(flagged, perf)[j] == flagged[j]
    ensures Purged(Purged(flagged, perf), perf) == Purged(flagged, perf)
  {
  }

  /** Whether j is an end of one of the relative priors. */
  predicate InRelPrior(rps: seq<RelPrior>, j: nat)
  {
    exists i :: 0 <= i < |rps| && (rps[i].playerA == j || rps[i].playerB == j)
  }

  /** Every relative prior is between two of the first n players. */
  predicate RelPriorsAmong(rps: seq<RelPrior>, n: nat)
  {
    forall i :: 0 <= i < |rps| ==> rps[i].playerA < n && rps[i].playerB < n
  }

  /** The index of the first name equal to s, or |names| when none is. */
  function IndexOf(names: seq<string>, s: string): (r: nat)
    ensures r <= |names| && (r < |names| ==> names[r] == s)
    ensures forall k :: 0 <= k < r ==> names[k] != s
  {
    if names == [] then 0
    else if names[0] == s then 0
    else 1 + IndexOf(names[1..], s)
  }

  /** `struct PLAYERS`. */
  class Players {
    var n: nat
    var size: nat
    var anchoredN: nat
    var perfSet: bool
    var name: array<string>
    var flagged: array<bool>
    var prefed: array<bool>
    var priored: array<bool>
    var performanceType: array<Perf>

    /** Every per-player array holds the n players, and the three flag
        arrays are distinct. */
    ghost predicate Valid()
      reads this
    {
      n <= name.Length && n <= flagged.Length && n <= prefed.Length
      && n <= priored.Length && n <= performanceType.Length
      && flagged != prefed && flagged != priored && prefed != priored
    }

    /** No player is flagged. */
    ghost predicate ClearFlags()
      reads this, flagged
      requires Valid()
    {
      forall j :: 0 <= j < n ==> !flagged[j]
    }

    /** `players_name2idx`: the first player of that name, leaving pi as it
        was when there is none. */
    method Name2Idx(playerName: string, pi: nat) returns (found: bool, r: nat)
      requires Valid()
      ensures found <==> exists k :: 0 <= k < n && name[k] == playerName
      ensures found ==> r < n && name[r] == playerName && forall k :: 0 <= k < r ==> name[k] != playerName
      ensures found ==> r == IndexOf(name[..n], playerName)
      ensures !found <==> IndexOf(name[..n], playerName) == n
      ensures !found ==> r == pi
    {
      r := FirstMatch(name, n, playerName, pi);
      found := r < n && name[r] == playerName;
      if !found {
        r := pi;
      }
    }

    /** `players_purge`: flags every unflagged player whose performance type
        is not normal. */
    method Purge(quiet: bool)
      requires Valid() && perfSet
      modifies flagged
      ensures flagged[..n] == Purged(old(flagged[..n]), performanceType[..n])
      ensures flagged[n..] == old(flagged[n..])
    {
      PurgeFlags(flagged, performanceType, n);
    }

    /** `players_set_priored_info`: a player is priored when it has a prior
        (`pr[j].isset`) or is an end of a relative prior. */
    method SetPrioredInfo(isSet: seq<bool>, rps: seq<RelPrior>)
      requires Valid() && n <= |isSet| && RelPriorsAmong(rps, n)
      modifies priored
      ensures forall j :: 0 <= j < n ==> priored[j] == (isSet[j] || InRelPrior(rps, j))
      ensures priored[n..] == old(priored[n..])
    {
      MarkPriored(priored, n, isSet, rps);
    }

    /** `players_flags_reset`: clears the flags of the n players. */
    method FlagsReset()
      requires Valid()
      modifies flagged
      ensures ClearFlags()
      ensures flagged[n..] == old(flagged[n..])
    {
      FillPrefix(flagged, n, false);
    }

    /** `players_have_clear_flags`. */
    method HaveClearFlags() returns (clear: bool)
      requires Valid()
      ensures clear <==> ClearFlags()
    {
      var j := 0;
      while j < n
        invariant j <= n
        invariant forall k :: 0 <= k < j ==> !flagged[k]
      {
        if flagged[j] {
          return false;
        }
        j := j + 1;
      }
      return true;
    }

    /** `players_set_super`: classifies every player from the points and
        games it has over the encounters, sets perf_set and returns how many
        players are not normal. */
    method SetSuper(quiet: bool, enc: seq<Enc>) returns (super: nat)
      requires Valid() && Among(enc, n)
      modifies performanceType, this`perfSet
      ensures perfSet
      ensures forall j :: 0 <= j < n ==>
        performanceType[j] == PerfOf(Obtained(enc, j), PlayedBy(enc, j), priored[j])
      ensures super == Abnormal(performanceType[..n])
      ensures performanceType[n..] == old(performanceType[n..])
    {
      var obt := new int[n];
      var pla := new int[n];
      CalcObtainedPlayedby(enc, n, obt, pla);
      super := Classify(performanceType, n, obt[..], pla[..], priored[..n]);
      perfSet := true;
    }

    /** `players_copy`: the scalars and the first n entries of every
        per-player array of source. */
    method Copy(source: Players)
      requires source.Valid() && Valid() && source != this
      requires source.n <= name.Length && source.n <= flagged.Length && source.n <= prefed.Length
      requires source.n <= priored.Length && source.n <= performanceType.Length
      requires flagged != prefed && flagged != priored && prefed != priored
      requires flagged != source.flagged && flagged != source.prefed && flagged != source.priored
      requires prefed != source.flagged && prefed != source.prefed && prefed != source.priored
      requires priored != source.flagged && priored != source.prefed && priored != source.priored
      requires name != source.name && performanceType != source.performanceType
      modifies this, name, flagged, prefed, priored, performanceType
      ensures name == old(name) && flagged == old(flagged) && prefed == old(prefed)
      ensures priored == old(priored) && performanceType == old(performanceType)
      ensures n == source.n && size == source.size && anchoredN == source.anchoredN
      ensures perfSet == source.perfSet
      ensures name[..n] == source.name[..n] && flagged[..n] == source.flagged[..n]
      ensures prefed[..n] == source.prefed[..n] && priored[..n] == source.priored[..n]
      ensures performanceType[..n] == source.performanceType[..n]
      ensures name[n..] == old(name[source.n..]) && flagged[n..] == old(flagged[source.n..])
      ensures prefed[n..] == old(prefed[source.n..]) && priored[n..] == old(priored[source.n..])
      ensures performanceType[n..] == old(performanceType[source.n..])
      ensures Valid()
    {
      var m := source.n;
      CopyPrefix(source.name, name, m);
      CopyFlags(source.flagged, source.prefed, source.priored, flagged, prefed, priored, m);
      CopyPrefix(source.performanceType, performanceType, m);
      n := m;
      size := source.size;
      anchoredN := source.anchoredN;
      perfSet := source.perfSet;
    }
  }

  /** The three flag loops of `players_copy`: the first m entries of each
      source array go to its target, the rest of every target is kept. */
  method CopyFlags(f: array<bool>, e: array<bool>, r: array<bool>,
                   f2: array<bool>, e2: array<bool>, r2: array<bool>, m: nat)
    requires m <= f.Length && m <= e.Length && m <= r.Length
    requires m <= f2.Length && m <= e2.Length && m <= r2.Length
    requires f2 != e2 && f2 != r2 && e2 != r2
    requires f2 != f && f2 != e && f2 != r && e2 != f && e2 != e && e2 != r
    requires r2 != f && r2 != e && r2 != r
    modifies f2, e2, r2
    ensures f2[..m] == f[..m] && e2[..m] == e[..m] && r2[..m] == r[..m]
    ensures f2[m..] == old(f2[m..]) && e2[m..] == old(e2[m..]) && r2[m..] == old(r2[m..])
  {
    CopyPrefix(f, f2, m);
    CopyPrefix(e, e2, m);
    CopyPrefix(r, r2, m);
  }

  /** The scan of `players_name2idx`: the first index below n holding s, or
      n when there is none. */
  method FirstMatch(name: array<string>, n: nat, s: string, pi: nat) returns (r: nat)
    requires n <= name.Length
    ensures r <= n && forall k :: 0 <= k < r ==> name[k] != s
    ensures r < n ==> name[r] == s
  {
    r := 0;
    while r < n && name[r] != s
      invariant r <= n && forall k :: 0 <= k < r ==> name[k] != s
    {
      r := r + 1;
    }
  }

  /** The loop of `players_purge`. */
  method PurgeFlags(flagged: array<bool>, perf: array<Perf>, n: nat)
    requires n <= flagged.Length && n <= perf.Length
    modifies flagged
    ensures flagged[..n] == Purged(old(flagged[..n]), perf[..n])
    ensures flagged[n..] == old(flagged[n..])
  {
    ghost var f := flagged[..];
    var j := 0;
    while j < n
      invariant j <= n
      invariant forall k :: 0 <= k < j ==> flagged[k] == (f[k] || perf[k] != PerfNormal)
      invariant forall k :: j <= k < flagged.Length ==> flagged[k] == f[k]
    {
      if !flagged[j] && perf[j] != PerfNormal {
        flagged[j] := true;
      }
      j := j + 1;
    }
  }

  /** The two loops of `players_set_priored_info`. */
  method MarkPriored(priored: array<bool>, n: nat, isSet: seq<bool>, rps: seq<RelPrior>)
    requires n <= priored.Length && n <= |isSet| && RelPriorsAmong(rps, n)
    modifies priored
    ensures forall j :: 0 <= j < n ==> priored[j] == (isSet[j] || InRelPrior(rps, j))
    ensures priored[n..] == old(priored[n..])
  {
    ghost var p := priored[..];
    var j := 0;
    while j < n
      invariant j <= n
      invariant forall k :: 0 <= k < j ==> priored[k] == isSet[k]
      invariant forall k :: n <= k < priored.Length ==> priored[k] == p[k]
    {
      priored[j] := isSet[j];
      j := j + 1;
    }
    var i := 0;
    while i < |rps|
      invariant i <= |rps|
      invariant forall k :: 0 <= k < n ==> priored[k] == (isSet[k] || InRelPrior(rps[..i], k))
      invariant forall k :: n <= k < priored.Length ==> priored[k] == p[k]
    {
      MarkEnds(priored, n, isSet, rps, i);
      i := i + 1;
    }
    assert rps[..|rps|] == rps;
  }

  /** One pass of the relative-prior loop: marks both ends of rps[i]. */
  method MarkEnds(priored: array<bool>, n: nat, isSet: seq<bool>, rps: seq<RelPrior>, i: nat)
    requires n <= priored.Length && n <= |isSet| && i < |rps| && RelPriorsAmong(rps, n)
    requires forall k :: 0 <= k < n ==> priored[k] == (isSet[k] || InRelPrior(rps[..i], k))
    modifies priored
    ensures forall k :: 0 <= k < n ==> priored[k] == (isSet[k] || InRelPrior(rps[..i + 1], k))
    ensures forall k :: n <= k < priored.Length ==> priored[k] == old(priored[k])
  {
    priored[rps[i].playerA] := true;
    priored[rps[i].playerB] := true;
    forall k | 0 <= k < n
      ensures priored[k] == (isSet[k] || InRelPrior(rps[..i + 1], k))
    {
      if InRelPrior(rps[..i], k) {
        var m :| 0 <= m < i && (rps[..i][m].playerA == k || rps[..i][m].playerB == k);
        assert rps[..i + 1][m] == rps[..i][m];
      }
      if InRelPrior(rps[..i + 1], k) {
        var m :| 0 <= m < i + 1 && (rps[..i + 1][m].playerA == k || rps[..i + 1][m].playerB == k);
        if m < i {
          assert rps[..i][m] == rps[..i + 1][m];
        }
      }
      if k == rps[i].playerA || k == rps[i].playerB {
        assert rps[..i + 1][i] == rps[i];
      }
    }
  }

  /** The classification loop of `players_set_super`, counting the players
      that are not normal. */
  method Classify(perf: array<Perf>, n: nat, obt: seq<int>, pla: seq<int>, gotPrior: seq<bool>)
    returns (super: nat)
    requires n <= perf.Length && n <= |obt| && n <= |pla| && n <= |gotPrior|
    modifies perf
    ensures forall j :: 0 <= j < n ==> perf[j] == PerfOf(obt[j], pla[j], gotPrior[j])
    ensures super == Abnormal(perf[..n])
    ensures perf[n..] == old(perf[n..])
  {
    ghost var s := perf[..];
    super := 0;
    var j := 0;
    while j < n
      invariant j <= n
      invariant forall k :: 0 <= k < j ==> perf[k] == PerfOf(obt[k], pla[k], gotPrior[k])
      invariant forall k :: j <= k < perf.Length ==> perf[k] == s[k]
      invariant super == Abnormal(perf[..j])
    {
      var p := PerfNormal;
      if pla[j] == 0 {
        p := PerfNoGames;
      } else {
        if obt[j] <= 0 {
          p := if gotPrior[j] then PerfNormal else PerfSuperLoser;
        }
        if 2 * pla[j] - obt[j] <= 0 {
          p := if gotPrior[j] then PerfNormal else PerfSuperWinner;
        }
      }
      perf[j] := p;
      assert perf[..j + 1][..j] == perf[..j];
      if p != PerfNormal {
        super := super + 1;
      }
      j := j + 1;
    }
  }
}
