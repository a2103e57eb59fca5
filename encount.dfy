/** Encounters: the games between the same white and black players folded
    into one record of games played, wins, draws and losses (from white's
    side) and white's score. Scores are kept in half-points, so a win is 2,
    a draw 1 and a loss 0. The score at or above which a game is discarded
    (DISCARD) is not part of this model's sources and is a parameter. */
module Encount {
  import opened CText

  /** The `selectivity` modes of `calc_encounters`. */
  const EncountersFull: int := 0
  const EncountersNoFlagged: int := 1

  datatype Game = Game(white: nat, black: nat, score: int)

  /** `struct ENC`: players, games played, W/D/L and white's score. */
  datatype Enc = Enc(wh: nat, bl: nat, played: int, w: int, d: int, l: int, wscore2: int)

  /** The counts an encounter carries, added field by field when merged. */
  datatype Tally = Tally(played: int, w: int, d: int, l: int, wscore2: int)
  {
    function Plus(t: Tally): Tally
    {
      Tally(played + t.played, w + t.w, d + t.d, l + t.l, wscore2 + t.wscore2)
    }
  }

  const NoTally: Tally := Tally(0, 0, 0, 0, 0)

  function TallyOf(e: Enc): Tally
  {
    Tally(e.played, e.w, e.d, e.l, e.wscore2)
  }

  /** `compare_ENC`: by white player, then black player, ascending. */
  function CompareEnc(a: Enc, b: Enc): int
  {
    if a.wh == b.wh && a.bl == b.bl then 0
    else if a.wh == b.wh then (if a.bl > b.bl then 1 else -1)
    else if a.wh > b.wh then 1 else -1
  }

  /** (wh, bl) of a comes strictly before that of b. */
  predicate KeyLess(a: Enc, b: Enc)
  {
    a.wh < b.wh || (a.wh == b.wh && a.bl < b.bl)
  }

  predicate SameKey(a: Enc, b: Enc)
  {
    a.wh == b.wh && a.bl == b.bl
  }

  /** `compare_ENC` is the lexicographic order on (wh, bl): negative,
      zero or positive exactly when a's pair is before, equal to or after
      b's, and swapping the arguments flips the sign. */
  lemma CompareEncIsLexicographic(a: Enc, b: Enc)
    ensures CompareEnc(a, b) < 0 <==> KeyLess(a, b)
    ensures CompareEnc(a, b) == 0 <==> SameKey(a, b)
    ensures CompareEnc(a, b) > 0 <==> KeyLess(b, a)
    ensures CompareEnc(b, a) == -CompareEnc(a, b)
  {
  }

  /** `encounter_merge`: the source asserts both records are for the same
      pair; the counts add up. */
  function Merge(a: Enc, b: Enc): (r: Enc)
    requires SameKey(a, b)
    ensures SameKey(r, a) && TallyOf(r) == TallyOf(a).Plus(TallyOf(b))
  {
    Enc(a.wh, a.bl, a.played + b.played, a.w + b.w, a.d + b.d, a.l + b.l, a.wscore2 + b.wscore2)
  }

  /** What record x adds to the totals of the pair (wh, bl). */
  function Part(x: Enc, wh: nat, bl: nat): Tally
  {
    if x.wh == wh && x.bl == bl then TallyOf(x) else NoTally
  }

  /** The total counts of the pair (wh, bl) over s. */
  function PairTally(s: seq<Enc>, wh: nat, bl: nat): Tally
  {
    if s == [] then NoTally else Part(s[0], wh, bl).Plus(PairTally(s[1..], wh, bl))
  }

  lemma {:induction false} PairTallySnoc(s: seq<Enc>, x: Enc, wh: nat, bl: nat)
    ensures PairTally(s + [x], wh, bl) == PairTally(s, wh, bl).Plus(Part(x, wh, bl))
    decreases |s|
  {
    if s != [] {
      assert (s + [x])[1..] == s[1..] + [x];
      PairTallySnoc(s[1..], x, wh, bl);
    } else {
      assert [x][1..] == [];
    }
  }

  // ---------------------------------------------------------------------
  // Building encounters from games

  /** Whether `calc_encounters` leaves a game out: discarded scores, and in
      the no-flagged mode games with a flagged player. */
  predicate Skipped(g: Game, selectivity: int, flagged: seq<bool>, discard: int)
    requires g.white < |flagged| && g.black < |flagged|
  {
    g.score >= discard
    || (selectivity == EncountersNoFlagged && (flagged[g.white] || flagged[g.black]))
  }

  /** The one-game encounter of a kept game. */
  function Single(g: Game): Enc
  {
    if g.score == WhiteWin then Enc(g.white, g.black, 1, 1, 0, 0, 2)
    else if g.score == ResultDraw then Enc(g.white, g.black, 1, 0, 1, 0, 1)
    else Enc(g.white, g.black, 1, 0, 0, 1, 0)
  }

  /** The games hold known players and, unless discarded, one of the three
      results. */
  predicate Scored(games: seq<Game>, flagged: seq<bool>, discard: int)
  {
    forall i :: 0 <= i < |games| ==>
      games[i].white < |flagged| && games[i].black < |flagged|
      && (games[i].score >= discard || games[i].score in {WhiteWin, ResultDraw, BlackWin})
  }

  /** The one-game encounters of the kept games, in game order. */
  function Kept(games: seq<Game>, selectivity: int, flagged: seq<bool>, discard: int): seq<Enc>
    requires Scored(games, flagged, discard)
  {
    if games == [] then []
    else
      var init := games[..|games| - 1];
      var g := games[|games| - 1];
      Kept(init, selectivity, flagged, discard) + (if Skipped(g, selectivity, flagged, discard) then [] else [Single(g)])
  }

  /** A result as a one-game tally: played once, exactly one of W/D/L, and
      white's score 1, 1/2 or 0. */
  predicate OneGame(e: Enc)
  {
    e.played == 1
    && ((e.w == 1 && e.d == 0 && e.l == 0 && e.wscore2 == 2)
        || (e.w == 0 && e.d == 1 && e.l == 0 && e.wscore2 == 1)
        || (e.w == 0 && e.d == 0 && e.l == 1 && e.wscore2 == 0))
  }

  /** Each kept game yields a one-game record for its two players. */
  lemma {:induction false} KeptAreSingleGames(games: seq<Game>, selectivity: int, flagged: seq<bool>, discard: int)
    requires Scored(games, flagged, discard)
    ensures forall k :: 0 <= k < |Kept(games, selectivity, flagged, discard)| ==>
      OneGame(Kept(games, selectivity, flagged, discard)[k])
    decreases |games|
  {
    if games != [] {
      var init := games[..|games| - 1];
      assert Scored(init, flagged, discard) by {
        assert forall i :: 0 <= i < |init| ==> init[i] == games[i];
      }
      KeptAreSingleGames(init, selectivity, flagged, discard);
    }
  }

  // ---------------------------------------------------------------------
  // shrink_ENC

  /** Runs of adjacent records for the same pair merged into one, as
      `shrink_ENC` leaves the array. */
  function Shrink(s: seq<Enc>): (r: seq<Enc>)
    ensures |r| <= |s| && (|r| == 0 <==> |s| == 0)
    ensures s != [] ==> SameKey(r[|r| - 1], s[|s| - 1])
  {
    if |s| <= 1 then s
    else
      var r := Shrink(s[..|s| - 1]);
      var x := s[|s| - 1];
      if SameKey(x, r[|r| - 1]) then r[..|r| - 1] + [Merge(r[|r| - 1], x)]
      else r + [x]
  }

  /** Shrinking keeps the totals of every pair. */
  lemma {:induction false} ShrinkKeepsTallies(s: seq<Enc>, wh: nat, bl: nat)
    ensures PairTally(Shrink(s), wh, bl) == PairTally(s, wh, bl)
    decreases |s|
  {
    if |s| > 1 {
      var init := s[..|s| - 1];
      var r := Shrink(init);
      var x := s[|s| - 1];
      ShrinkKeepsTallies(init, wh, bl);
      InitLast(s);
      PairTallySnoc(init, x, wh, bl);
      if SameKey(x, r[|r| - 1]) {
        assert Shrink(s) == r[..|r| - 1] + [Merge(r[|r| - 1], x)];
        MergeLastKeepsTallies(r, x, wh, bl);
      } else {
        assert Shrink(s) == r + [x];
        PairTallySnoc(r, x, wh, bl);
      }
    }
  }

  /** Merging x into the last record of r adds x's counts to the totals. */
  lemma MergeLastKeepsTallies(r: seq<Enc>, x: Enc, wh: nat, bl: nat)
    requires r != [] && SameKey(x, r[|r| - 1])
    ensures PairTally(r[..|r| - 1] + [Merge(r[|r| - 1], x)], wh, bl) == PairTally(r, wh, bl).Plus(Part(x, wh, bl))
  {
    var front := r[..|r| - 1];
    var a := r[|r| - 1];
    var t := PairTally(front, wh, bl);
    InitLast(r);
    calc {
      PairTally(front + [Merge(a, x)], wh, bl);
      { PairTallySnoc(front, Merge(a, x), wh, bl); }
      t.Plus(Part(Merge(a, x), wh, bl));
      { PartOfMerge(a, x, wh, bl); }
      t.Plus(Part(a, wh, bl).Plus(Part(x, wh, bl)));
      { PlusAssociates(t, Part(a, wh, bl), Part(x, wh, bl)); }
      t.Plus(Part(a, wh, bl)).Plus(Part(x, wh, bl));
      { PairTallySnoc(front, a, wh, bl); }
      PairTally(front + [a], wh, bl).Plus(Part(x, wh, bl));
    }
  }

  lemma PartOfMerge(a: Enc, x: Enc, wh: nat, bl: nat)
    requires SameKey(a, x)
    ensures Part(Merge(a, x), wh, bl) == Part(a, wh, bl).Plus(Part(x, wh, bl))
  {
    var m := Merge(a, x);
    assert m.wh == a.wh && m.bl == a.bl;
    if a.wh == wh && a.bl == bl {
      assert TallyOf(m) == TallyOf(a).Plus(TallyOf(x));
    } else {
      assert Part(m, wh, bl) == NoTally && Part(a, wh, bl) == NoTally && Part(x, wh, bl) == NoTally;
      NoTallyPlus();
    }
  }

  lemma NoTallyPlus()
    ensures NoTally.Plus(NoTally) == NoTally
  {
  }

  lemma PlusAssociates(a: Tally, b: Tally, c: Tally)
    ensures a.Plus(b.Plus(c)) == a.Plus(b).Plus(c)
  {
  }

  /** Adjacent records of a shrunk sequence are for different pairs. */
  lemma {:induction false} ShrinkSeparatesNeighbours(s: seq<Enc>)
    ensures forall k :: 0 <= k < |Shrink(s)| - 1 ==> !SameKey(Shrink(s)[k], Shrink(s)[k + 1])
    decreases |s|
  {
    if |s| > 1 {
      ShrinkSeparatesNeighbours(s[..|s| - 1]);
    }
  }

  /** Non-decreasing by pair. */
  predicate Sorted(s: seq<Enc>)
  {
    forall i, j :: 0 <= i < j < |s| ==> !KeyLess(s[j], s[i])
  }

  /** Strictly increasing by pair: at most one record per ordered pair. */
  predicate StrictlySorted(s: seq<Enc>)
  {
    forall i, j :: 0 <= i < j < |s| ==> KeyLess(s[i], s[j])
  }

  /** Shrinking a sorted sequence leaves one record per pair. */
  lemma {:induction false} ShrinkOfSorted(s: seq<Enc>)
    requires Sorted(s)
    ensures StrictlySorted(Shrink(s))
    decreases |s|
  {
    if |s| > 1 {
      var init := s[..|s| - 1];
      var x := s[|s| - 1];
      assert Sorted(init);
      ShrinkOfSorted(init);
      var r := Shrink(init);
      if SameKey(x, r[|r| - 1]) {
        var r2 := r[..|r| - 1] + [Merge(r[|r| - 1], x)];
        assert forall k :: 0 <= k < |r2| ==> SameKey(r2[k], r[k]);
      } else {
        assert KeyLess(r[|r| - 1], x) by {
          assert !KeyLess(x, init[|init| - 1]);
        }
        var r2 := r + [x];
        assert forall k :: 0 <= k < |r| ==> KeyLess(r[k], x) by {
          forall k | 0 <= k < |r| ensures KeyLess(r[k], x) {
            if k < |r| - 1 {
              assert KeyLess(r[k], r[|r| - 1]);
            }
          }
        }
      }
    }
  }

  /** `shrink_ENC(enc, N_enc)`: compacts enc[0 .. N_enc) in place with the
      write cursor g and the read cursor e, and returns the new count. */
  method ShrinkEnc(enc: array<Enc>, n: nat) returns (count: nat)
    requires n <= enc.Length
    modifies enc
    ensures count <= n
    ensures enc[..count] == Shrink(old(enc[..n]))
    ensures enc[n..] == old(enc[n..])
  {
    if n == 0 {
      return 0;
    }
    ghost var s := enc[..n];
    var g: nat := 0;
    var e: nat := 1;
    assert s[..1] == enc[..1];
    while e < n
      invariant 1 <= e <= n && g < e
      invariant enc[..g + 1] == Shrink(s[..e])
      invariant forall k :: e <= k < n ==> enc[k] == s[k]
      invariant enc[n..] == old(enc[n..])
    {
      g := ShrinkStep(enc, s, n, g, e);
      e := e + 1;
    }
    assert s[..n] == s;
    return g + 1;
  }

  /** One pass of the `shrink_ENC` loop: record e is merged into the record
      at g when they are for the same pair, else copied to g + 1. */
  method ShrinkStep(enc: array<Enc>, ghost s: seq<Enc>, n: nat, g: nat, e: nat) returns (g2: nat)
    requires n <= enc.Length && |s| == n && 1 <= e < n && g < e
    requires enc[..g + 1] == Shrink(s[..e])
    requires forall k :: e <= k < n ==> enc[k] == s[k]
    modifies enc
    ensures g2 <= e && enc[..g2 + 1] == Shrink(s[..e + 1])
    ensures forall k :: e + 1 <= k < n ==> enc[k] == s[k]
    ensures enc[n..] == old(enc[n..])
  {
    ghost var r := Shrink(s[..e]);
    ShrinkUnfold(s, e);
    if SameKey(enc[e], enc[g]) {
      enc[g] := Merge(enc[g], enc[e]);
      assert enc[..g + 1] == r[..g] + [Merge(r[g], s[e])];
      g2 := g;
    } else {
      enc[g + 1] := enc[e];
      assert enc[..g + 2] == r + [s[e]];
      g2 := g + 1;
    }
  }

  /** Shrink of one more record, in terms of Shrink of the shorter prefix. */
  lemma ShrinkUnfold(s: seq<Enc>, e: nat)
    requires 1 <= e < |s|
    ensures var r := Shrink(s[..e]);
      Shrink(s[..e + 1])
      == if SameKey(s[e], r[|r| - 1]) then r[..|r| - 1] + [Merge(r[|r| - 1], s[e])] else r + [s[e]]
  {
    assert s[..e + 1][..e] == s[..e];
  }

  // ---------------------------------------------------------------------
  // The sort

  /** x inserted before the first record whose pair is not below it. */
  function Insert(x: Enc, s: seq<Enc>): (r: seq<Enc>)
    ensures |r| == |s| + 1
    ensures multiset(r) == multiset(s) + multiset{x}
  {
    if s == [] || !KeyLess(s[0], x) then [x] + s
    else
      assert s == [s[0]] + s[1..];
      [s[0]] + Insert(x, s[1..])
  }

  /** A sort by `compare_ENC`, standing for the library's `qsort`. */
  function SortEnc(s: seq<Enc>): (r: seq<Enc>)
    ensures |r| == |s|
    ensures multiset(r) == multiset(s)
  {
    if s == [] then []
    else
      assert s == [s[0]] + s[1..];
      Insert(s[0], SortEnc(s[1..]))
  }

  lemma {:induction false} InsertSorted(x: Enc, s: seq<Enc>)
    requires Sorted(s)
    ensures Sorted(Insert(x, s))
    decreases |s|
  {
    if s != [] && KeyLess(s[0], x) {
      assert Sorted(s[1..]);
      InsertSorted(x, s[1..]);
      var t := Insert(x, s[1..]);
      assert forall k :: 0 <= k < |t| ==> t[k] in multiset(s[1..]) + multiset{x};
      assert forall k :: 0 <= k < |t| ==> !KeyLess(t[k], s[0]) by {
        forall k | 0 <= k < |t| ensures !KeyLess(t[k], s[0]) {
          assert t[k] in multiset(t);
          if t[k] != x {
            assert t[k] in s[1..];
          }
        }
      }
    }
  }

  lemma {:induction false} SortEncSorted(s: seq<Enc>)
    ensures Sorted(SortEnc(s))
    decreases |s|
  {
    if s != [] {
      SortEncSorted(s[1..]);
      InsertSorted(s[0], SortEnc(s[1..]));
    }
  }

  lemma {:induction false} InsertKeepsTallies(x: Enc, s: seq<Enc>, wh: nat, bl: nat)
    ensures PairTally(Insert(x, s), wh, bl) == PairTally([x] + s, wh, bl)
    decreases |s|
  {
    if s != [] && KeyLess(s[0], x) {
      InsertKeepsTallies(x, s[1..], wh, bl);
      assert ([s[0]] + Insert(x, s[1..]))[1..] == Insert(x, s[1..]);
      assert ([x] + s[1..])[1..] == s[1..];
      assert ([x] + s)[1..] == s;
      assert s[1..] == s[1..];
    }
  }

  lemma {:induction false} SortKeepsTallies(s: seq<Enc>, wh: nat, bl: nat)
    ensures PairTally(SortEnc(s), wh, bl) == PairTally(s, wh, bl)
    decreases |s|
  {
    if s != [] {
      SortKeepsTallies(s[1..], wh, bl);
      InsertKeepsTallies(s[0], SortEnc(s[1..]), wh, bl);
      assert ([s[0]] + SortEnc(s[1..]))[1..] == SortEnc(s[1..]);
      assert [s[0]] + s[1..] == s;
    }
  }

  // ---------------------------------------------------------------------
  // calc_encounters

  /** What `calc_encounters` leaves in enc: the kept games, shrunk, sorted
      and shrunk again. */
  function Encounters(games: seq<Game>, selectivity: int, flagged: seq<bool>, discard: int): seq<Enc>
    requires Scored(games, flagged, discard)
  {
    var a := Shrink(Kept(games, selectivity, flagged, discard));
    if |a| > 0 then Shrink(SortEnc(a)) else a
  }

  /** The encounters are sorted by (wh, bl) with at most one record per
      ordered pair. */
  lemma EncountersOnePerPair(games: seq<Game>, selectivity: int, flagged: seq<bool>, discard: int)
    requires Scored(games, flagged, discard)
    ensures StrictlySorted(Encounters(games, selectivity, flagged, discard))
  {
    var a := Shrink(Kept(games, selectivity, flagged, discard));
    if |a| > 0 {
      SortEncSorted(a);
      ShrinkOfSorted(SortEnc(a));
    }
  }

  /** Every pair's record sums exactly the kept games of that pair: games
      played, wins, draws, losses and white's score. */
  lemma EncountersKeepTallies(games: seq<Game>, selectivity: int, flagged: seq<bool>, discard: int, wh: nat, bl: nat)
    requires Scored(games, flagged, discard)
    ensures PairTally(Encounters(games, selectivity, flagged, discard), wh, bl)
         == PairTally(Kept(games, selectivity, flagged, discard), wh, bl)
  {
    var k := Kept(games, selectivity, flagged, discard);
    var a := Shrink(k);
    ShrinkKeepsTallies(k, wh, bl);
    if |a| > 0 {
      SortKeepsTallies(a, wh, bl);
      ShrinkKeepsTallies(SortEnc(a), wh, bl);
    }
  }

  /** `calc_encounters(selectivity, g, flagged, enc)`: fills enc from the
      kept games, shrinks, sorts and shrinks again. */
  method CalcEncounters(selectivity: int, games: seq<Game>, flagged: seq<bool>, discard: int, enc: array<Enc>)
    returns (ne: nat)
    requires Scored(games, flagged, discard) && |games| <= enc.Length
    modifies enc
    ensures ne <= |games| && enc[..ne] == Encounters(games, selectivity, flagged, discard)
  {
    var e := FillKept(selectivity, games, flagged, discard, enc);
    ne := ShrinkEnc(enc, e);
    if ne > 0 {
      SortPrefix(enc, ne);
      ne := ShrinkEnc(enc, ne);
    }
  }

  /** The loop of `calc_encounters` over the games: one record per kept
      game, in game order. */
  method FillKept(selectivity: int, games: seq<Game>, flagged: seq<bool>, discard: int, enc: array<Enc>)
    returns (e: nat)
    requires Scored(games, flagged, discard) && |games| <= enc.Length
    modifies enc
    ensures e <= |games| && enc[..e] == Kept(games, selectivity, flagged, discard)
  {
    e := 0;
    var i := 0;
    while i < |games|
      invariant 0 <= i <= |games| && e <= i
      invariant Scored(games[..i], flagged, discard)
      invariant enc[..e] == Kept(games[..i], selectivity, flagged, discard)
    {
      var g := games[i];
      assert games[..i + 1][..i] == games[..i];
      assert Scored(games[..i + 1], flagged, discard);
      var skip := g.score >= discard
        || (selectivity == EncountersNoFlagged && (flagged[g.white] || flagged[g.black]));
      if !skip {
        enc[e] := Single(g);
        e := e + 1;
      }
      i := i + 1;
    }
    assert games[..|games|] == games;
  }

  /** `qsort(enc, N_enc, sizeof(struct ENC), compare_ENC)`. */
  method SortPrefix(enc: array<Enc>, n: nat)
    requires n <= enc.Length
    modifies enc
    ensures enc[..n] == SortEnc(old(enc[..n]))
  {
    var sorted := SortEnc(enc[..n]);
    forall k | 0 <= k < n {
      enc[k] := sorted[k];
    }
    assert enc[..n] == sorted;
  }

  // ---------------------------------------------------------------------
  // calc_obtained_playedby

  /** Half-points player j obtained over the encounters. */
  function Obtained(enc: seq<Enc>, j: nat): int
  {
    if enc == [] then 0
    else
      var x := enc[|enc| - 1];
      Obtained(enc[..|enc| - 1], j)
      + (if x.wh == j then x.wscore2 else 0)
      + (if x.bl == j then 2 * x.played - x.wscore2 else 0)
  }

  /** Games player j played over the encounters. */
  function PlayedBy(enc: seq<Enc>, j: nat): int
  {
    if enc == [] then 0
    else
      var x := enc[|enc| - 1];
      PlayedBy(enc[..|enc| - 1], j) + (if x.wh == j then x.played else 0) + (if x.bl == j then x.played else 0)
  }

  /** Games played over the encounters. */
  function TotalPlayed(enc: seq<Enc>): int
  {
    if enc == [] then 0 else TotalPlayed(enc[..|enc| - 1]) + enc[|enc| - 1].played
  }

  /** Every encounter is between players below n. */
  predicate Among(enc: seq<Enc>, n: nat)
  {
    forall e :: 0 <= e < |enc| ==> enc[e].wh < n && enc[e].bl < n
  }

  /** Sums over the players below n. */
  function SumObtained(enc: seq<Enc>, n: nat): int
  {
    if n == 0 then 0 else SumObtained(enc, n - 1) + Obtained(enc, n - 1)
  }

  function SumPlayedBy(enc: seq<Enc>, n: nat): int
  {
    if n == 0 then 0 else SumPlayedBy(enc, n - 1) + PlayedBy(enc, n - 1)
  }

  /** What one more encounter x adds to the first n players' sums. */
  lemma {:induction false} SumsSnoc(enc: seq<Enc>, x: Enc, n: nat)
    ensures SumObtained(enc + [x], n) == SumObtained(enc, n)
      + (if x.wh < n then x.wscore2 else 0) + (if x.bl < n then 2 * x.played - x.wscore2 else 0)
    ensures SumPlayedBy(enc + [x], n) == SumPlayedBy(enc, n)
      + (if x.wh < n then x.played else 0) + (if x.bl < n then x.played else 0)
    decreases n
  {
    if n > 0 {
      SumsSnoc(enc, x, n - 1);
      assert (enc + [x])[..|enc|] == enc;
    }
  }

  /** Each game hands out one point in all and counts once for each side:
      the obtained half-points and the games played by all players both
      add up to twice the games played. */
  lemma {:induction false} PointsAndGamesBalance(enc: seq<Enc>, n: nat)
    requires Among(enc, n)
    ensures SumObtained(enc, n) == 2 * TotalPlayed(enc)
    ensures SumPlayedBy(enc, n) == 2 * TotalPlayed(enc)
    decreases |enc|
  {
    if enc == [] {
      NoEncounters(n);
    } else {
      var init := enc[..|enc| - 1];
      PointsAndGamesBalance(init, n);
      SumsSnoc(init, enc[|enc| - 1], n);
      assert init + [enc[|enc| - 1]] == enc;
    }
  }

  lemma {:induction false} NoEncounters(n: nat)
    ensures SumObtained([], n) == 0 && SumPlayedBy([], n) == 0
    decreases n
  {
    if n > 0 {
      NoEncounters(n - 1);
    }
  }

  /** `calc_obtained_playedby(enc, N_enc, n_players, obtained, playedby)`:
      zero both arrays for the players, then add each encounter's score
      and games to its two players. */
  method CalcObtainedPlayedby(enc: seq<Enc>, nPlayers: nat, obtained: array<int>, playedby: array<int>)
    requires Among(enc, nPlayers) && nPlayers <= obtained.Length && nPlayers <= playedby.Length
    requires obtained != playedby
    modifies obtained, playedby
    ensures forall j :: 0 <= j < nPlayers ==> obtained[j] == Obtained(enc, j) && playedby[j] == PlayedBy(enc, j)
    ensures obtained[nPlayers..] == old(obtained[nPlayers..]) && playedby[nPlayers..] == old(playedby[nPlayers..])
  {
    var j := 0;
    while j < nPlayers
      invariant 0 <= j <= nPlayers
      invariant forall k :: 0 <= k < j ==> obtained[k] == 0 && playedby[k] == 0
      invariant obtained[nPlayers..] == old(obtained[nPlayers..]) && playedby[nPlayers..] == old(playedby[nPlayers..])
    {
      obtained[j] := 0;
      playedby[j] := 0;
      j := j + 1;
    }
    var e := 0;
    while e < |enc|
      invariant 0 <= e <= |enc|
      invariant Credited(enc[..e], nPlayers, obtained, playedby)
      invariant obtained[nPlayers..] == old(obtained[nPlayers..]) && playedby[nPlayers..] == old(playedby[nPlayers..])
    {
      assert enc[..e + 1] == enc[..e] + [enc[e]];
      Credit(enc[..e], enc[e], nPlayers, obtained, playedby);
      e := e + 1;
    }
    assert enc[..|enc|] == enc;
  }

  /** The first nPlayers entries of the arrays hold the sums over done. */
  ghost predicate Credited(done: seq<Enc>, nPlayers: nat, obtained: array<int>, playedby: array<int>)
    reads obtained, playedby
    requires nPlayers <= obtained.Length && nPlayers <= playedby.Length
  {
    forall k :: 0 <= k < nPlayers ==> obtained[k] == Obtained(done, k) && playedby[k] == PlayedBy(done, k)
  }

  /** One pass of the encounter loop: x's score and games go to its white
      and its black player. */
  method Credit(ghost done: seq<Enc>, x: Enc, nPlayers: nat, obtained: array<int>, playedby: array<int>)
    requires x.wh < nPlayers && x.bl < nPlayers && nPlayers <= obtained.Length && nPlayers <= playedby.Length
    requires obtained != playedby && Credited(done, nPlayers, obtained, playedby)
    modifies obtained, playedby
    ensures Credited(done + [x], nPlayers, obtained, playedby)
    ensures obtained[nPlayers..] == old(obtained[nPlayers..]) && playedby[nPlayers..] == old(playedby[nPlayers..])
  {
    assert (done + [x])[..|done|] == done;
    obtained[x.wh] := obtained[x.wh] + x.wscore2;
    obtained[x.bl] := obtained[x.bl] + (2 * x.played - x.wscore2);
    playedby[x.wh] := playedby[x.wh] + x.played;
    playedby[x.bl] := playedby[x.bl] + x.played;
  }
}
