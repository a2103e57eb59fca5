/** The CEGT-style reports: the name column width, the order in which a
    player's encounters are listed, the per-player win/draw/loss tally,
    the head-to-head lines with a colour-swapped rematch folded into the
    same line, the order of those lines and the width of a printed
    number. */
module Cegt {
  import opened CText
  import opened Encount

  /** The widest name column the reports allow. */
  const NameColumnCap: nat := 50

  /** `find_maxlen(nm, n)`: the length of the longest of the first n names. */
  method FindMaxlen(names: seq<string>, n: nat) returns (maxl: nat)
    requires n <= |names|
    ensures forall i :: 0 <= i < n ==> |names[i]| <= maxl
    ensures n == 0 ==> maxl == 0
    ensures n > 0 ==> exists i :: 0 <= i < n && |names[i]| == maxl
  {
    maxl := 0;
    var i := 0;
    while i < n
      invariant 0 <= i <= n
      invariant forall k :: 0 <= k < i ==> |names[k]| <= maxl
      invariant i == 0 ==> maxl == 0
      invariant i > 0 ==> exists k :: 0 <= k < i && |names[k]| == maxl
    {
      var length := |names[i]|;
      if length > maxl {
        maxl := length;
      }
      i := i + 1;
    }
  }

  /** The column width the callers use: the longest name, at most 50. */
  method NameColumn(names: seq<string>) returns (ml: nat)
    ensures ml <= NameColumnCap
    ensures forall i :: 0 <= i < |names| ==> Min(|names[i]|, NameColumnCap) <= ml
    ensures |names| == 0 ==> ml == 0
    ensures |names| > 0 ==> exists i :: 0 <= i < |names| && ml == Min(|names[i]|, NameColumnCap)
  {
    ml := FindMaxlen(names, |names|);
    if ml > NameColumnCap {
      ml := NameColumnCap;
    }
  }

  // ---------------------------------------------------------------------
  // compare_ENC2

  function Top(e: Enc): nat
  {
    if e.wh > e.bl then e.wh else e.bl
  }

  function Bottom(e: Enc): nat
  {
    if e.wh < e.bl then e.wh else e.bl
  }

  /** `compare_ENC2` as written: 0 for the same (wh, bl); otherwise by the
      smaller index descending, then by the larger one descending, where a
      colour-swapped pair gets -1. */
  function CompareEnc2AsWritten(a: Enc, b: Enc): int
  {
    if a.wh == b.wh && a.bl == b.bl then 0
    else if Bottom(a) == Bottom(b) then (if Top(a) < Top(b) then 1 else -1)
    else if Bottom(a) < Bottom(b) then 1 else -1
  }

  /** The two colourings of one pairing compare as -1 in both directions,
      so `qsort` is given an inconsistent order. */
  lemma CompareEnc2NotAntisymmetric()
    ensures CompareEnc2AsWritten(Enc(1, 2, 1, 1, 0, 0, 2), Enc(2, 1, 1, 0, 0, 1, 0)) == -1
    ensures CompareEnc2AsWritten(Enc(2, 1, 1, 0, 0, 1, 0), Enc(1, 2, 1, 1, 0, 0, 2)) == -1
  {
  }

  /** The order `compare_ENC2` evidently intends: the smaller index
      descending, then the larger descending, and the two colourings of a
      pairing by white player descending. */
  function CompareEnc2(a: Enc, b: Enc): int
  {
    if a.wh == b.wh && a.bl == b.bl then 0
    else if Bottom(a) == Bottom(b) && Top(a) == Top(b) then (if a.wh < b.wh then 1 else -1)
    else if Bottom(a) == Bottom(b) then (if Top(a) < Top(b) then 1 else -1)
    else if Bottom(a) < Bottom(b) then 1 else -1
  }

  /** b's key (smaller, larger, white) is lexicographically below a's. */
  predicate KeyBelow(a: Enc, b: Enc)
  {
    Bottom(b) < Bottom(a)
    || (Bottom(b) == Bottom(a) && Top(b) < Top(a))
    || (Bottom(b) == Bottom(a) && Top(b) == Top(a) && b.wh < a.wh)
  }

  /** The corrected comparator is the descending order of (smaller index,
      larger index, white): zero exactly for the same pair, antisymmetric,
      and it agrees with the written one except on colour-swapped pairs. */
  lemma CompareEnc2IsOrder(a: Enc, b: Enc)
    ensures CompareEnc2(a, b) == 0 <==> SameKey(a, b)
    ensures CompareEnc2(a, b) > 0 <==> KeyBelow(b, a) && !SameKey(a, b)
    ensures CompareEnc2(b, a) == -CompareEnc2(a, b)
    ensures !(Bottom(a) == Bottom(b) && Top(a) == Top(b)) || SameKey(a, b) ==>
      CompareEnc2(a, b) == CompareEnc2AsWritten(a, b)
  {
  }

  // ---------------------------------------------------------------------
  // A player's encounters, from its side

  predicate Involves(e: Enc, target: nat)
  {
    e.wh == target || e.bl == target
  }

  /** The encounters of target, in order: the loop that fills Temp_enc. */
  function Involving(enc: seq<Enc>, target: nat): (t: seq<Enc>)
    ensures |t| <= |enc|
    ensures forall k :: 0 <= k < |t| ==> Involves(t[k], target) && t[k] in enc
  {
    if enc == [] then []
    else
      var init := Involving(enc[..|enc| - 1], target);
      if Involves(enc[|enc| - 1], target) then init + [enc[|enc| - 1]] else init
  }

  /** The loop of `all_report_prg` and `all_report_indiv_stats` that copies
      target's encounters to Temp_enc. */
  method SelectFor(enc: seq<Enc>, target: nat, temp: array<Enc>) returns (t: nat)
    requires |enc| <= temp.Length
    modifies temp
    ensures t <= |enc| && temp[..t] == Involving(enc, target)
  {
    t := 0;
    var e := 0;
    while e < |enc|
      invariant 0 <= e <= |enc| && t <= e
      invariant temp[..t] == Involving(enc[..e], target)
    {
      assert enc[..e + 1][..e] == enc[..e];
      if enc[e].wh == target || enc[e].bl == target {
        temp[t] := enc[e];
        t := t + 1;
      }
      e := e + 1;
    }
    assert enc[..|enc|] == enc;
  }

  /** Target's wins, draws and losses in one encounter. */
  function Won(e: Enc, target: nat): int
  {
    if e.wh == target then e.w else e.l
  }

  function Lost(e: Enc, target: nat): int
  {
    if e.wh == target then e.l else e.w
  }

  function Opponent(e: Enc, target: nat): nat
  {
    if e.wh == target then e.bl else e.wh
  }

  /** (won, drawn, lost) of target over t. */
  datatype Score = Score(won: int, dra: int, los: int)

  function Games(s: Score): int
  {
    s.won + s.dra + s.los
  }

  function ScoreOf(t: seq<Enc>, target: nat): Score
  {
    if t == [] then Score(0, 0, 0)
    else
      var s := ScoreOf(t[..|t| - 1], target);
      var e := t[|t| - 1];
      Score(s.won + Won(e, target), s.dra + e.d, s.los + Lost(e, target))
  }

  /** The tally loop over Temp_enc. */
  method TallyFor(temp: seq<Enc>, target: nat) returns (won: int, dra: int, los: int)
    ensures Score(won, dra, los) == ScoreOf(temp, target)
  {
    won, dra, los := 0, 0, 0;
    var e := 0;
    while e < |temp|
      invariant 0 <= e <= |temp|
      invariant Score(won, dra, los) == ScoreOf(temp[..e], target)
    {
      assert temp[..e + 1][..e] == temp[..e];
      won := won + (if temp[e].wh == target then temp[e].w else temp[e].l);
      dra := dra + temp[e].d;
      los := los + (if temp[e].wh == target then temp[e].l else temp[e].w);
      e := e + 1;
    }
    assert temp[..|temp|] == temp;
  }

  /** Each encounter's W, D and L add up to its games played, as in the
      records `calc_encounters` builds. */
  predicate Balanced(t: seq<Enc>)
  {
    forall k :: 0 <= k < |t| ==> t[k].w + t[k].d + t[k].l == t[k].played
  }

  /** won + dra + los is the number of games target played in t: each
      game is counted from target's side, as a win when target had white
      and its W, as a loss otherwise. */
  lemma {:induction false} TallyCountsGames(t: seq<Enc>, target: nat)
    requires Balanced(t)
    ensures Games(ScoreOf(t, target)) == TotalPlayed(t)
    decreases |t|
  {
    if t != [] {
      var init := t[..|t| - 1];
      assert Balanced(init) by {
        assert forall k :: 0 <= k < |init| ==> init[k] == t[k];
      }
      TallyCountsGames(init, target);
    }
  }

  // ---------------------------------------------------------------------
  // Head-to-head lines

  /** `struct OPP_LINE`: the opponent, target's W/D/L against it and the
      opponent's rating. */
  datatype OppLine = OppLine(i: nat, w: int, d: int, l: int, r: real)

  /** Whether t[e + 1] is the colour-swapped rematch of t[e]. */
  predicate Rematch(t: seq<Enc>, e: nat)
  {
    e + 1 < |t| && t[e].wh == t[e + 1].bl && t[e].bl == t[e + 1].wh
  }

  /** The lines of the loop over Temp_enc: one per encounter, except that
      an encounter followed by its rematch shares one line with it. */
  function Lines(t: seq<Enc>, target: nat, rating: seq<real>): seq<OppLine>
    requires Among(t, |rating|)
    decreases |t|
  {
    if t == [] then []
    else
      var oth := Opponent(t[0], target);
      if Rematch(t, 0) then
        assert Among(t[2..], |rating|) by {
          assert forall k :: 0 <= k < |t| - 2 ==> t[2..][k] == t[k + 2];
        }
        [OppLine(oth, Won(t[0], target) + Won(t[1], target), t[0].d + t[1].d,
                 Lost(t[0], target) + Lost(t[1], target), rating[oth])]
        + Lines(t[2..], target, rating)
      else
        assert Among(t[1..], |rating|) by {
          assert forall k :: 0 <= k < |t| - 1 ==> t[1..][k] == t[k + 1];
        }
        [OppLine(oth, Won(t[0], target), t[0].d, Lost(t[0], target), rating[oth])]
        + Lines(t[1..], target, rating)
  }

  function LineScore(ls: seq<OppLine>): Score
  {
    if ls == [] then Score(0, 0, 0)
    else
      var s := LineScore(ls[1..]);
      Score(ls[0].w + s.won, ls[0].d + s.dra, ls[0].l + s.los)
  }

  /** ScoreOf, summed from the front. */
  function ScoreFrom(t: seq<Enc>, target: nat): Score
  {
    if t == [] then Score(0, 0, 0)
    else
      var s := ScoreFrom(t[1..], target);
      Score(Won(t[0], target) + s.won, t[0].d + s.dra, Lost(t[0], target) + s.los)
  }

  lemma {:induction false} ScoreFromSnoc(t: seq<Enc>, e: Enc, target: nat)
    ensures ScoreFrom(t + [e], target)
         == Score(ScoreFrom(t, target).won + Won(e, target), ScoreFrom(t, target).dra + e.d,
                  ScoreFrom(t, target).los + Lost(e, target))
    decreases |t|
  {
    if t != [] {
      assert (t + [e])[1..] == t[1..] + [e];
      ScoreFromSnoc(t[1..], e, target);
    } else {
      assert [e][1..] == [];
    }
  }

  lemma {:induction false} ScoreFromIsScoreOf(t: seq<Enc>, target: nat)
    ensures ScoreFrom(t, target) == ScoreOf(t, target)
    decreases |t|
  {
    if t != [] {
      var init := t[..|t| - 1];
      ScoreFromIsScoreOf(init, target);
      ScoreFromSnoc(init, t[|t| - 1], target);
      assert init + [t[|t| - 1]] == t;
    }
  }

  /** Every encounter lands in exactly one line: the lines add up to the
      player's tally, wins, draws and losses alike. */
  lemma {:induction false} LinesCoverTally(t: seq<Enc>, target: nat, rating: seq<real>)
    requires Among(t, |rating|)
    ensures LineScore(Lines(t, target, rating)) == ScoreOf(t, target)
    decreases |t|
  {
    LinesCoverFrom(t, target, rating);
    ScoreFromIsScoreOf(t, target);
  }

  lemma {:induction false} LinesCoverFrom(t: seq<Enc>, target: nat, rating: seq<real>)
    requires Among(t, |rating|)
    ensures LineScore(Lines(t, target, rating)) == ScoreFrom(t, target)
    decreases |t|
  {
    if t != [] {
      if Rematch(t, 0) {
        assert Among(t[2..], |rating|) by {
          assert forall k :: 0 <= k < |t| - 2 ==> t[2..][k] == t[k + 2];
        }
        LinesCoverFrom(t[2..], target, rating);
        assert t[1..][1..] == t[2..];
      } else {
        assert Among(t[1..], |rating|) by {
          assert forall k :: 0 <= k < |t| - 1 ==> t[1..][k] == t[k + 1];
        }
        LinesCoverFrom(t[1..], target, rating);
      }
    }
  }

  /** A rematch is against the same opponent, so a folded line is about one
      pairing. */
  lemma RematchSameOpponent(t: seq<Enc>, e: nat, target: nat)
    requires Rematch(t, e) && Involves(t[e], target) && t[e].wh != t[e].bl
    ensures Opponent(t[e + 1], target) == Opponent(t[e], target)
  {
  }

  // ---------------------------------------------------------------------
  // The qsort of Temp_enc by the corrected compare_ENC2

  /** Each encounter's key (smaller index, larger index, white) strictly
      above those of the encounters after it. */
  predicate SortedForReport(t: seq<Enc>)
  {
    forall i, j :: 0 <= i < j < |t| ==> KeyBelow(t[i], t[j])
  }

  /** Report order is the order the corrected comparator asks `qsort` for:
      every earlier encounter compares below every later one. */
  lemma SortedForReportIsComparatorOrder(t: seq<Enc>)
    ensures SortedForReport(t) <==> forall i, j :: 0 <= i < j < |t| ==> CompareEnc2(t[i], t[j]) < 0
  {
    forall i, j | 0 <= i < j < |t|
      ensures KeyBelow(t[i], t[j]) <==> CompareEnc2(t[i], t[j]) < 0
    {
      CompareEnc2IsOrder(t[i], t[j]);
      CompareEnc2IsOrder(t[j], t[i]);
    }
  }

  /** One record per ordered (white, black) pair. */
  predicate DistinctPairs(t: seq<Enc>)
  {
    forall i, j :: 0 <= i < j < |t| ==> !SameKey(t[i], t[j])
  }

  /** Insertion of x into a list in report order. */
  function InsertForReport(x: Enc, s: seq<Enc>): (r: seq<Enc>)
    ensures multiset(r) == multiset(s) + multiset{x}
    decreases |s|
  {
    if s == [] || KeyBelow(x, s[0]) then [x] + s
    else
      assert s == [s[0]] + s[1..];
      [s[0]] + InsertForReport(x, s[1..])
  }

  lemma {:induction false} InsertForReportSorted(x: Enc, s: seq<Enc>)
    requires SortedForReport(s) && forall k :: 0 <= k < |s| ==> !SameKey(x, s[k])
    ensures SortedForReport(InsertForReport(x, s))
    decreases |s|
  {
    if s != [] && !KeyBelow(x, s[0]) {
      assert KeyBelow(s[0], x);
      InsertForReportSorted(x, s[1..]);
      var r := InsertForReport(x, s[1..]);
      forall k | 0 <= k < |r|
        ensures KeyBelow(s[0], r[k])
      {
        assert r[k] in multiset(r);
        if r[k] != x {
          assert r[k] in s[1..];
          var m :| 0 <= m < |s[1..]| && s[1..][m] == r[k];
          assert s[m + 1] == r[k];
        }
      }
    } else if s != [] {
      var r := [x] + s;
      forall i, j | 0 <= i < j < |r|
        ensures KeyBelow(r[i], r[j])
      {
        if i == 0 && j > 1 {
          assert KeyBelow(s[0], s[j - 1]);
        }
      }
    }
  }

  /** `qsort(Temp_enc, t, sizeof(struct ENC), compare_ENC2)` under the
      corrected comparator, as a function: an insertion sort into report
      order. */
  function SortForReport(t: seq<Enc>): (r: seq<Enc>)
    ensures multiset(r) == multiset(t)
  {
    if t == [] then []
    else
      assert t == [t[0]] + t[1..];
      InsertForReport(t[0], SortForReport(t[1..]))
  }

  /** With one record per pair, the sort leaves them in report order. */
  lemma {:induction false} SortForReportSorted(t: seq<Enc>)
    requires DistinctPairs(t)
    ensures SortedForReport(SortForReport(t))
    decreases |t|
  {
    if t != [] {
      assert DistinctPairs(t[1..]) by {
        assert forall k :: 0 <= k < |t| - 1 ==> t[1..][k] == t[k + 1];
      }
      SortForReportSorted(t[1..]);
      var r := SortForReport(t[1..]);
      forall k | 0 <= k < |r|
        ensures !SameKey(t[0], r[k])
      {
        assert r[k] in multiset(t[1..]);
        var m :| 0 <= m < |t[1..]| && t[1..][m] == r[k];
        assert t[m + 1] == r[k];
      }
      InsertForReportSorted(t[0], r);
    }
  }

  /** For an encounter of target, its smaller and larger index are those of
      target and its opponent. */
  lemma PairOfOpponent(e: Enc, target: nat)
    requires Involves(e, target)
    ensures Bottom(e) == Min(target, Opponent(e, target)) && Top(e) == Max(target, Opponent(e, target))
  {
  }

  /** In report order, every encounter after t[0], and after its rematch
      when that comes next, is against an opponent of lower index. */
  lemma RestAgainstLower(t: seq<Enc>, target: nat)
    requires |t| > 0 && SortedForReport(t) && forall k :: 0 <= k < |t| ==> Involves(t[k], target)
    ensures forall k :: (if Rematch(t, 0) then 2 else 1) <= k < |t| ==>
      Opponent(t[k], target) < Opponent(t[0], target)
  {
    forall k | (if Rematch(t, 0) then 2 else 1) <= k < |t|
      ensures Opponent(t[k], target) < Opponent(t[0], target)
    {
      PairOfOpponent(t[0], target);
      PairOfOpponent(t[k], target);
      assert KeyBelow(t[0], t[k]);
      if k >= 2 {
        PairOfOpponent(t[1], target);
        assert KeyBelow(t[0], t[1]) && KeyBelow(t[1], t[k]);
      }
    }
  }

  /** The lines of t[n..] after the line of t[0] (n is 2 when t[1] is the
      rematch, 1 otherwise). */
  lemma LinesUnfold(t: seq<Enc>, target: nat, rating: seq<real>)
    requires |t| > 0 && Among(t, |rating|)
    ensures var n := if Rematch(t, 0) then 2 else 1;
      Among(t[n..], |rating|) &&
      |Lines(t, target, rating)| == 1 + |Lines(t[n..], target, rating)| &&
      Lines(t, target, rating)[0].i == Opponent(t[0], target) &&
      Lines(t, target, rating)[1..] == Lines(t[n..], target, rating)
  {
    var n := if Rematch(t, 0) then 2 else 1;
    assert forall k :: 0 <= k < |t| - n ==> t[n..][k] == t[k + n];
  }

  /** Lines drawn from encounters against opponents below o name only
      opponents below o. */
  lemma {:induction false} LinesBelow(t: seq<Enc>, target: nat, rating: seq<real>, o: nat)
    requires Among(t, |rating|)
    requires forall k :: 0 <= k < |t| ==> Opponent(t[k], target) < o
    ensures forall j :: 0 <= j < |Lines(t, target, rating)| ==> Lines(t, target, rating)[j].i < o
    decreases |t|
  {
    if t != [] {
      var n := if Rematch(t, 0) then 2 else 1;
      LinesUnfold(t, target, rating);
      assert forall k :: 0 <= k < |t| - n ==> t[n..][k] == t[k + n];
      LinesBelow(t[n..], target, rating, o);
      var ls := Lines(t, target, rating);
      forall j | 0 < j < |ls|
        ensures ls[j].i < o
      {
        assert ls[j] == ls[1..][j - 1];
      }
    }
  }

  /** In report order, the head-to-head lines of target name its opponents
      in strictly descending index order, so each opponent gets one line. */
  lemma {:induction false} LinesDescending(t: seq<Enc>, target: nat, rating: seq<real>)
    requires Among(t, |rating|) && SortedForReport(t)
    requires forall k :: 0 <= k < |t| ==> Involves(t[k], target)
    ensures var ls := Lines(t, target, rating);
      forall j, k :: 0 <= j < k < |ls| ==> ls[k].i < ls[j].i
    decreases |t|
  {
    if t != [] {
      var n := if Rematch(t, 0) then 2 else 1;
      var rest := t[n..];
      LinesUnfold(t, target, rating);
      assert forall k :: 0 <= k < |rest| ==> rest[k] == t[k + n];
      LinesDescending(rest, target, rating);
      RestAgainstLower(t, target);
      LinesBelow(rest, target, rating, Opponent(t[0], target));
      var ls := Lines(t, target, rating);
      forall j, k | 0 <= j < k < |ls|
        ensures ls[k].i < ls[j].i
      {
        assert ls[k] == ls[1..][k - 1];
        if j > 0 {
          assert ls[j] == ls[1..][j - 1];
        }
      }
    }
  }

  /** Target's encounters, as `calc_encounters` leaves them (one record per
      ordered pair, in order): the selected encounters keep one record per
      pair, so after the sort every opponent appears on exactly one
      head-to-head line, in descending index order. */
  lemma ReportLinesDescending(enc: seq<Enc>, target: nat, rating: seq<real>)
    requires StrictlySorted(enc) && Among(enc, |rating|)
    ensures var s := SortForReport(Involving(enc, target));
      Among(s, |rating|) &&
      forall j, k :: 0 <= j < k < |Lines(s, target, rating)| ==>
        Lines(s, target, rating)[k].i < Lines(s, target, rating)[j].i
  {
    var t := Involving(enc, target);
    InvolvingStrictlySorted(enc, target);
    var s := SortForReport(t);
    SortForReportSorted(t);
    forall k | 0 <= k < |s|
      ensures Involves(s[k], target) && s[k].wh < |rating| && s[k].bl < |rating|
    {
      assert s[k] in multiset(t);
      var m :| 0 <= m < |t| && t[m] == s[k];
      var m2 :| 0 <= m2 < |enc| && enc[m2] == t[m];
    }
    LinesDescending(s, target, rating);
  }

  /** Selecting target's encounters keeps the pairs in order, one record each. */
  lemma {:induction false} InvolvingStrictlySorted(enc: seq<Enc>, target: nat)
    requires StrictlySorted(enc)
    ensures DistinctPairs(Involving(enc, target))
    decreases |enc|
  {
    if enc != [] {
      var init := enc[..|enc| - 1];
      assert StrictlySorted(init) by {
        assert forall k :: 0 <= k < |init| ==> init[k] == enc[k];
      }
      InvolvingStrictlySorted(init, target);
      var t := Involving(init, target);
      forall k | 0 <= k < |t|
        ensures KeyLess(t[k], enc[|enc| - 1])
      {
        var m :| 0 <= m < |init| && init[m] == t[k];
        assert enc[m] == t[k];
      }
    }
  }

  /** The line loop of `all_report_indiv_stats`: e moves past one encounter,
      or two when the next is the rematch, and oline[nl] gets the line. */
  method OppLines(temp: seq<Enc>, target: nat, rating: seq<real>) returns (oline: seq<OppLine>)
    requires Among(temp, |rating|)
    ensures oline == Lines(temp, target, rating)
  {
    oline := [];
    var e := 0;
    while e < |temp|
      invariant 0 <= e <= |temp|
      invariant Among(temp[e..], |rating|)
      invariant oline + Lines(temp[e..], target, rating) == Lines(temp, target, rating)
      decreases |temp| - e
    {
      var line, next := OppLineAt(temp, e, target, rating);
      oline := oline + [line];
      e := next;
    }
  }

  /** One pass of the line loop, at e. */
  method OppLineAt(temp: seq<Enc>, e: nat, target: nat, rating: seq<real>) returns (line: OppLine, next: nat)
    requires e < |temp| && Among(temp[e..], |rating|)
    ensures e < next <= |temp| && Among(temp[next..], |rating|)
    ensures Lines(temp[e..], target, rating) == [line] + Lines(temp[next..], target, rating)
  {
    var t := temp[e..];
    assert t[0] == temp[e];
    var oth := if temp[e].wh == target then temp[e].bl else temp[e].wh;
    var won := if temp[e].wh == target then temp[e].w else temp[e].l;
    var dra := temp[e].d;
    var los := if temp[e].wh == target then temp[e].l else temp[e].w;
    next := e;
    if e + 1 < |temp| && temp[e].wh == temp[e + 1].bl && temp[e].bl == temp[e + 1].wh {
      assert t[1] == temp[e + 1];
      next := e + 1;
      won := won + (if temp[next].wh == target then temp[next].w else temp[next].l);
      dra := dra + temp[next].d;
      los := los + (if temp[next].wh == target then temp[next].l else temp[next].w);
      assert t[2..] == temp[e + 2..];
    } else {
      assert t[1..] == temp[e + 1..];
    }
    line := OppLine(oth, won, dra, los, rating[oth]);
    next := next + 1;
  }

  // ---------------------------------------------------------------------
  // compare_oline and calclen

  /** `compare_oline`: by rating descending, then by opponent ascending. */
  function CompareOline(a: OppLine, b: OppLine): int
  {
    if a.r < b.r then 1
    else if a.r > b.r then -1
    else if a.i < b.i then -1
    else if a.i > b.i then 1
    else 0
  }

  /** The line order is (rating descending, opponent ascending): zero
      exactly for equal rating and opponent, and antisymmetric. */
  lemma CompareOlineIsOrder(a: OppLine, b: OppLine)
    ensures CompareOline(a, b) == 0 <==> a.r == b.r && a.i == b.i
    ensures CompareOline(a, b) < 0 <==> a.r > b.r || (a.r == b.r && a.i < b.i)
    ensures CompareOline(b, a) == -CompareOline(a, b)
  {
  }

  /** The decimal digits of n, most significant first. */
  function Digits(n: nat): (s: string)
    ensures |s| >= 1
    decreases n
  {
    if n < 10 then [DigitChar(n)] else Digits(n / 10) + [DigitChar(n % 10)]
  }

  function DigitChar(d: nat): char
    requires d < 10
  {
    ('0' as int + d) as char
  }

  /** `sprintf(s, "%ld", x)`: a minus sign for negative x, then the digits. */
  function Decimal(x: int): string
  {
    if x < 0 then "-" + Digits(-x) else Digits(x)
  }

  /** `calclen(x)`: the width of x printed in decimal. */
  function CalcLen(x: int): nat
  {
    |Decimal(x)|
  }

  /** Reading decimal digits back. */
  function ValueOf(s: string): int
  {
    if s == [] then 0 else 10 * ValueOf(s[..|s| - 1]) + (s[|s| - 1] as int - '0' as int)
  }

  /** The printed digits read back as the number, so the width is that of
      its true decimal rendering. */
  lemma {:induction false} DigitsRoundTrip(n: nat)
    ensures ValueOf(Digits(n)) == n
    ensures forall k :: 0 <= k < |Digits(n)| ==> '0' <= Digits(n)[k] <= '9'
    decreases n
  {
    if n >= 10 {
      DigitsRoundTrip(n / 10);
      var s := Digits(n / 10) + [DigitChar(n % 10)];
      assert s[..|s| - 1] == Digits(n / 10);
    } else {
      assert [DigitChar(n)][..0] == [];
    }
  }

  /** The width grows by one exactly at each power of ten: numbers below
      10 take one character, and n takes one more than n / 10. */
  lemma CalcLenSteps(n: nat)
    ensures n < 10 ==> CalcLen(n) == 1
    ensures n >= 10 ==> CalcLen(n) == CalcLen(n / 10) + 1
    ensures CalcLen(-(n as int) - 1) == CalcLen(n + 1) + 1
  {
  }
}
