/** Grouping of players by connectivity. `scan_encounters` labels every
    player with the smallest index of its group, where two players are in
    one group when a chain of encounters that are neither all wins nor all
    losses joins them, and sets aside the one-sided encounters, and those of
    them that cross groups. The group set and its lists are then built from
    those labels and the one-sided encounters that cross groups.
    Scores are in half-points, as in the encounter model. */
module Groups {
  import opened CText
  import opened Encount


  // ---------------------------------------------------------------------
  // scan_encounters

  /** `encounter_is_SL(e) || encounter_is_SW(e)`: white scored nothing
      (below 0.0001), or white's score is within 0.0001 of the games
      played. On half-points these are exact. */
  predicate OneSided(e: Enc)
  {
    e.wscore2 <= 0 || 2 * e.played - e.wscore2 <= 0
  }

  /** The labels when the scan starts: player i < n is its own label; the
      rest of the table keeps what it held. */
  function Start(b: seq<int>, n: nat): (r: seq<int>)
    requires n <= |b|
    ensures |r| == |b|
    ensures forall i :: 0 <= i < |b| ==> r[i] == (if i < n then i else b[i])
  {
    seq(|b|, i requires 0 <= i < |b| => if i < n then i else b[i])
  }

  /** The join loop: every one of the first n players labelled hi gets lo. */
  function Relabel(b: seq<int>, n: nat, hi: int, lo: int): (r: seq<int>)
    requires n <= |b|
    ensures |r| == |b|
    ensures forall i :: 0 <= i < |b| ==> r[i] == (if i < n && b[i] == hi then lo else b[i])
  {
    seq(|b|, i requires 0 <= i < |b| => if i < n && b[i] == hi then lo else b[i])
  }

  /** Whether encounter e joins two groups that the labels b keep apart. */
  predicate Joins(b: seq<int>, e: Enc)
    requires e.wh < |b| && e.bl < |b|
  {
    !OneSided(e) && b[e.wh] != b[e.bl]
  }

  /** The labels after one encounter of the scan. */
  function Step(b: seq<int>, n: nat, e: Enc): (r: seq<int>)
    requires n <= |b| && e.wh < n && e.bl < n
    ensures |r| == |b|
  {
    if Joins(b, e) then Relabel(b, n, Max(b[e.wh], b[e.bl]), Min(b[e.wh], b[e.bl])) else b
  }

  /** The labels after the first k encounters. */
  function Labels(b0: seq<int>, n: nat, enc: seq<Enc>, k: nat): (r: seq<int>)
    requires n <= |b0| && k <= |enc| && Among(enc, n)
    ensures |r| == |b0|
  {
    if k == 0 then Start(b0, n) else Step(Labels(b0, n, enc, k - 1), n, enc[k - 1])
  }

  /** The number of joins among the first k encounters. */
  function Merges(b0: seq<int>, n: nat, enc: seq<Enc>, k: nat): nat
    requires n <= |b0| && k <= |enc| && Among(enc, n)
  {
    if k == 0 then 0
    else Merges(b0, n, enc, k - 1) + (if Joins(Labels(b0, n, enc, k - 1), enc[k - 1]) then 1 else 0)
  }

  /** The one-sided encounters among the first k, in order. */
  function OneSidedOf(enc: seq<Enc>, k: nat): seq<Enc>
    requires k <= |enc|
  {
    if k == 0 then [] else OneSidedOf(enc, k - 1) + (if OneSided(enc[k - 1]) then [enc[k - 1]] else [])
  }

  /** The encounters among the first k of s whose players have different
      labels, in order. */
  function CrossOf(s: seq<Enc>, b: seq<int>, k: nat): seq<Enc>
    requires k <= |s| && Among(s, |b|)
  {
    if k == 0 then []
    else CrossOf(s, b, k - 1) + (if b[s[k - 1].wh] != b[s[k - 1].bl] then [s[k - 1]] else [])
  }

  /** The number of players among the first n that are their own label. */
  function Roots(b: seq<int>, n: nat): nat
    requires n <= |b|
  {
    if n == 0 then 0 else Roots(b, n - 1) + (if b[n - 1] == n - 1 then 1 else 0)
  }

  /** Every label is at most its player's index and is the label of itself,
      so it is the smallest index that carries it. */
  predicate Canonical(b: seq<int>, n: nat)
    requires n <= |b|
  {
    forall i :: 0 <= i < n ==> 0 <= b[i] <= i && b[b[i]] == b[i]
  }

  /** A join keeps the labels canonical, drops exactly one label (the
      higher) and keeps equal labels equal. */
  lemma JoinKeepsCanonical(b: seq<int>, n: nat, x: nat, y: nat)
    requires n <= |b| && x < n && y < n && Canonical(b, n) && b[x] != b[y]
    ensures var r := Relabel(b, n, Max(b[x], b[y]), Min(b[x], b[y]));
      Canonical(r, n) && Roots(r, n) + 1 == Roots(b, n)
      && r[x] == r[y]
      && (forall i, j :: 0 <= i < n && 0 <= j < n && b[i] == b[j] ==> r[i] == r[j])
      && (forall i :: 0 <= i < |b| ==> r[i] <= b[i])
  {
    var hi := Max(b[x], b[y]);
    var lo := Min(b[x], b[y]);
    var r := Relabel(b, n, hi, lo);
    assert hi < n && b[hi] == hi;
    RelabelRoots(b, n, hi, lo, n);
  }

  /** Relabelling the root hi to the smaller root lo removes hi from the
      roots among the first m players. */
  lemma {:induction false} RelabelRoots(b: seq<int>, n: nat, hi: int, lo: int, m: nat)
    requires m <= n <= |b| && Canonical(b, n) && 0 <= lo < hi < n && b[hi] == hi && b[lo] == lo
    ensures Roots(Relabel(b, n, hi, lo), m) + (if hi < m then 1 else 0) == Roots(b, m)
    decreases m
  {
    if m > 0 {
      RelabelRoots(b, n, hi, lo, m - 1);
    }
  }

  /** What the scan's labels are: canonical, one label fewer per join, and
      equal for the two players of every two-sided encounter. */
  lemma {:induction false} LabelsGroups(b0: seq<int>, n: nat, enc: seq<Enc>, k: nat)
    requires n <= |b0| && k <= |enc| && Among(enc, n)
    ensures var b := Labels(b0, n, enc, k);
      Canonical(b, n) && Roots(b, n) + Merges(b0, n, enc, k) == n
      && forall e :: 0 <= e < k && !OneSided(enc[e]) ==> b[enc[e].wh] == b[enc[e].bl]
    decreases k
  {
    if k == 0 {
      StartRoots(b0, n, n);
    } else {
      LabelsGroups(b0, n, enc, k - 1);
      var b := Labels(b0, n, enc, k - 1);
      var x := enc[k - 1];
      assert x.wh < n && x.bl < n;
      assert Labels(b0, n, enc, k) == Step(b, n, x);
      assert Merges(b0, n, enc, k) == Merges(b0, n, enc, k - 1) + (if Joins(b, x) then 1 else 0);
      StepGroups(b, n, x);
      forall e | 0 <= e < k && !OneSided(enc[e])
        ensures Labels(b0, n, enc, k)[enc[e].wh] == Labels(b0, n, enc, k)[enc[e].bl]
      {
        assert enc[e].wh < n && enc[e].bl < n;
      }
    }
  }

  /** One encounter of the scan keeps the labels canonical, drops one label
      exactly when it joins, unites its own two players and keeps equal
      labels equal. */
  lemma StepGroups(b: seq<int>, n: nat, x: Enc)
    requires n <= |b| && x.wh < n && x.bl < n && Canonical(b, n)
    ensures var r := Step(b, n, x);
      Canonical(r, n) && Roots(r, n) + (if Joins(b, x) then 1 else 0) == Roots(b, n)
      && (!OneSided(x) ==> r[x.wh] == r[x.bl])
      && (forall i, j :: 0 <= i < n && 0 <= j < n && b[i] == b[j] ==> r[i] == r[j])
  {
    if Joins(b, x) {
      JoinKeepsCanonical(b, n, x.wh, x.bl);
    }
  }

  /** At the start every one of the first m players is a root. */
  lemma {:induction false} StartRoots(b0: seq<int>, n: nat, m: nat)
    requires m <= n <= |b0|
    ensures Roots(Start(b0, n), m) == m
    decreases m
  {
    if m > 0 {
      StartRoots(b0, n, m - 1);
    }
  }

  /** Labels only ever decrease. */
  lemma LabelsDecrease(b0: seq<int>, n: nat, enc: seq<Enc>, k: nat, i: nat)
    requires n <= |b0| && k < |enc| && Among(enc, n) && i < |b0|
    ensures Labels(b0, n, enc, k + 1)[i] <= Labels(b0, n, enc, k)[i]
  {
    var b := Labels(b0, n, enc, k);
    LabelsGroups(b0, n, enc, k);
    if Joins(b, enc[k]) {
      JoinKeepsCanonical(b, n, enc[k].wh, enc[k].bl);
    }
  }

  /** The relabelling loop of `scan_encounters`. */
  method RelabelLoop(belong: array<int>, n: nat, hi: int, lo: int)
    requires n <= belong.Length
    modifies belong
    ensures belong[..] == Relabel(old(belong[..]), n, hi, lo)
  {
    ghost var b := belong[..];
    var i := 0;
    while i < n
      invariant i <= n
      invariant forall j :: 0 <= j < belong.Length ==>
        belong[j] == (if j < i && b[j] == hi then lo else b[j])
    {
      if belong[i] == hi {
        belong[i] := lo;
      }
      i := i + 1;
    }
  }

  /** The first loop of `scan_encounters`: every player its own label. */
  method StartLoop(belong: array<int>, n: nat)
    requires n <= belong.Length
    modifies belong
    ensures belong[..] == Start(old(belong[..]), n)
  {
    ghost var b := belong[..];
    var i := 0;
    while i < n
      invariant i <= n
      invariant forall j :: 0 <= j < belong.Length ==> belong[j] == (if j < i then j else b[j])
    {
      belong[i] := i;
      i := i + 1;
    }
  }

  /** `scan_encounters`: labels the first nPlyrs players by group and
      counts the groups; appends the one-sided encounters to SE after the
      nSe0 it already holds (`N_se` is not reset here); then SE2 becomes the
      encounters of SE whose players have different labels. */
  method ScanEncounters(enc: seq<Enc>, nPlyrs: nat, belong: array<int>, se: array<Enc>, nSe0: nat, se2: array<Enc>)
    returns (nGroups: int, nSe: nat, nSe2: nat)
    requires nPlyrs <= belong.Length && Among(enc, nPlyrs)
    requires nSe0 + |OneSidedOf(enc, |enc|)| <= se.Length && nSe0 + |OneSidedOf(enc, |enc|)| <= se2.Length
    requires Among(se[..nSe0], belong.Length) && se != se2
    modifies belong, se, se2
    ensures belong[..] == Labels(old(belong[..]), nPlyrs, enc, |enc|)
    ensures nGroups == nPlyrs - Merges(old(belong[..]), nPlyrs, enc, |enc|)
    ensures nSe == nSe0 + |OneSidedOf(enc, |enc|)| && Among(se[..nSe], belong.Length)
    ensures se[..nSe] == old(se[..nSe0]) + OneSidedOf(enc, |enc|)
    ensures nSe2 <= nSe
    ensures se2[..nSe2] == CrossOf(se[..nSe], belong[..], nSe)
  {
    ghost var b0 := belong[..];
    ghost var s0 := se[..nSe0];
    nGroups := nPlyrs;
    StartLoop(belong, nPlyrs);
    nSe := nSe0;
    OneSidedMonotone(enc, 0, |enc|);
    var e := 0;
    while e < |enc|
      invariant e <= |enc|
      invariant belong[..] == Labels(b0, nPlyrs, enc, e)
      invariant nGroups == nPlyrs - Merges(b0, nPlyrs, enc, e)
      invariant nSe == nSe0 + |OneSidedOf(enc, e)| && nSe <= se.Length && se[..nSe] == s0 + OneSidedOf(enc, e)
    {
      nGroups, nSe := ScanOne(enc, nPlyrs, belong, se, e, nGroups, nSe, b0, s0);
      e := e + 1;
    }
    assert Among(se[..nSe], belong.Length) by {
      OneSidedAmong(enc, |enc|, nPlyrs);
      assert forall j :: 0 <= j < nSe0 ==> se[..nSe][j] == s0[j];
    }
    nSe2 := CrossLoop(se, nSe, belong, se2);
  }

  /** One round of the encounter loop of `scan_encounters`. */
  method ScanOne(enc: seq<Enc>, nPlyrs: nat, belong: array<int>, se: array<Enc>, e: nat, nGroups: int, nSe: nat,
                 ghost b0: seq<int>, ghost s0: seq<Enc>) returns (nGroups2: int, nSe2: nat)
    requires nPlyrs <= belong.Length && nPlyrs <= |b0| && Among(enc, nPlyrs) && e < |enc|
    requires |s0| + |OneSidedOf(enc, |enc|)| <= se.Length
    requires belong[..] == Labels(b0, nPlyrs, enc, e) && nGroups == nPlyrs - Merges(b0, nPlyrs, enc, e)
    requires nSe == |s0| + |OneSidedOf(enc, e)| && nSe <= se.Length && se[..nSe] == s0 + OneSidedOf(enc, e)
    modifies belong, se
    ensures belong[..] == Labels(b0, nPlyrs, enc, e + 1) && nGroups2 == nPlyrs - Merges(b0, nPlyrs, enc, e + 1)
    ensures nSe2 == |s0| + |OneSidedOf(enc, e + 1)| && nSe2 <= se.Length && se[..nSe2] == s0 + OneSidedOf(enc, e + 1)
  {
    OneSidedGrows(enc, e);
    var pe := enc[e];
    assert pe.wh < nPlyrs && pe.bl < nPlyrs;
    nGroups2, nSe2 := nGroups, nSe;
    if OneSided(pe) {
      Push(se, nSe, pe);
      nSe2 := nSe + 1;
      assert OneSidedOf(enc, e + 1) == OneSidedOf(enc, e) + [pe];
    } else {
      assert OneSidedOf(enc, e + 1) == OneSidedOf(enc, e);
      var gw := belong[pe.wh];
      var gb := belong[pe.bl];
      if gw != gb {
        var lowerg := if gw < gb then gw else gb;
        var higherg := if gw > gb then gw else gb;
        RelabelLoop(belong, nPlyrs, higherg, lowerg);
        nGroups2 := nGroups - 1;
      }
    }
  }

  lemma OneSidedGrows(enc: seq<Enc>, e: nat)
    requires e < |enc|
    ensures |OneSidedOf(enc, e + 1)| <= |OneSidedOf(enc, |enc|)|
  {
    OneSidedMonotone(enc, e + 1, |enc|);
  }

  lemma {:induction false} OneSidedMonotone(enc: seq<Enc>, k: nat, m: nat)
    requires k <= m <= |enc|
    ensures |OneSidedOf(enc, k)| <= |OneSidedOf(enc, m)|
    decreases m - k
  {
    if k < m {
      OneSidedMonotone(enc, k + 1, m);
    }
  }

  lemma {:induction false} OneSidedAmong(enc: seq<Enc>, k: nat, n: nat)
    requires k <= |enc| && Among(enc, n)
    ensures Among(OneSidedOf(enc, k), n)
    decreases k
  {
    if k > 0 {
      OneSidedAmong(enc, k - 1, n);
    }
  }

  /** The last loop of `scan_encounters`. */
  method CrossLoop(se: array<Enc>, nSe: nat, belong: array<int>, se2: array<Enc>) returns (nSe2: nat)
    requires nSe <= se.Length && nSe <= se2.Length && se != se2 && Among(se[..nSe], belong.Length)
    modifies se2
    ensures nSe2 <= nSe
    ensures se2[..nSe2] == CrossOf(se[..nSe], belong[..], nSe)
  {
    ghost var s := se[..nSe];
    nSe2 := 0;
    var e := 0;
    while e < nSe
      invariant e <= nSe && nSe2 <= e
      invariant se2[..nSe2] == CrossOf(s, belong[..], e)
    {
      var x := se[e].wh;
      var y := se[e].bl;
      assert s[e] == se[e];
      if belong[x] != belong[y] {
        se2[nSe2] := se[e];
        nSe2 := nSe2 + 1;
      }
      e := e + 1;
    }
  }

  // ---------------------------------------------------------------------
  // sieve_encounters

  /** The encounters among the first k whose two players' groups agree
      (same) or differ (not same), by the group of each player given by
      bel, in order. */
  function SieveOf(enc: seq<Enc>, bel: seq<int>, same: bool, k: nat): seq<Enc>
    requires k <= |enc|
  {
    if k == 0 then []
    else SieveOf(enc, bel, same, k - 1) + (if SameGroup(bel, enc[k - 1]) == same then [enc[k - 1]] else [])
  }

  /** Whether both players of e have the same label in bel. */
  predicate SameGroup(bel: seq<int>, e: Enc)
  {
    e.wh < |bel| && e.bl < |bel| && bel[e.wh] == bel[e.bl]
  }

  /** Appending x to one of two halves adds x to their union. */
  lemma SnocSplit<T>(a: seq<T>, b: seq<T>, a': seq<T>, b': seq<T>, m: multiset<T>, x: T, same: bool)
    requires multiset(a) + multiset(b) == m
    requires same ==> a' == a + [x] && b' == b
    requires !same ==> a' == a && b' == b + [x]
    ensures multiset(a') + multiset(b') == m + multiset{x}
  {
    if same {
      assert multiset(a') == multiset(a) + multiset{x};
    } else {
      assert multiset(b') == multiset(b) + multiset{x};
    }
  }

  /** The first k elements are the first k - 1 and the k-th. */
  lemma PrefixMultiset<T>(s: seq<T>, k: nat)
    requires 0 < k <= |s|
    ensures multiset(s[..k]) == multiset(s[..k - 1]) + multiset{s[k - 1]}
  {
    assert s[..k] == s[..k - 1] + [s[k - 1]];
  }

  /** The two halves of the sieve together hold every encounter once. */
  lemma {:induction false} SieveSplits(enc: seq<Enc>, bel: seq<int>, k: nat)
    requires k <= |enc|
    ensures multiset(SieveOf(enc, bel, true, k)) + multiset(SieveOf(enc, bel, false, k)) == multiset(enc[..k])
    decreases k
  {
    if k == 0 {
      assert enc[..k] == [];
    } else {
      SieveSplits(enc, bel, k - 1);
      SieveStep(enc, bel, k);
      SnocSplit(SieveOf(enc, bel, true, k - 1), SieveOf(enc, bel, false, k - 1),
                SieveOf(enc, bel, true, k), SieveOf(enc, bel, false, k),
                multiset(enc[..k - 1]), enc[k - 1], SameGroup(bel, enc[k - 1]));
      PrefixMultiset(enc, k);
    }
  }

  /** One more encounter goes to exactly one of the two halves. */
  lemma SieveStep(enc: seq<Enc>, bel: seq<int>, k: nat)
    requires 0 < k <= |enc|
    ensures SameGroup(bel, enc[k - 1]) ==>
              SieveOf(enc, bel, true, k) == SieveOf(enc, bel, true, k - 1) + [enc[k - 1]]
              && SieveOf(enc, bel, false, k) == SieveOf(enc, bel, false, k - 1)
    ensures !SameGroup(bel, enc[k - 1]) ==>
              SieveOf(enc, bel, true, k) == SieveOf(enc, bel, true, k - 1)
              && SieveOf(enc, bel, false, k) == SieveOf(enc, bel, false, k - 1) + [enc[k - 1]]
  {
    var a, b := SieveOf(enc, bel, true, k - 1), SieveOf(enc, bel, false, k - 1);
    assert a + [] == a && b + [] == b;
  }

  /** So the two halves' lengths add up to the number of encounters. */
  lemma SieveLengths(enc: seq<Enc>, bel: seq<int>, k: nat)
    requires k <= |enc|
    ensures |SieveOf(enc, bel, true, k)| + |SieveOf(enc, bel, false, k)| == k
  {
    SieveSplits(enc, bel, k);
    assert |multiset(enc[..k])| == k;
  }

  /** `a[k++] = x`: the first k + 1 entries are the old first k and x. */
  method Push(a: array<Enc>, k: nat, x: Enc)
    requires k < a.Length
    modifies a
    ensures a[..k + 1] == old(a[..k]) + [x]
  {
    a[k] := x;
    assert a[..k + 1] == a[..k] + [x];
  }

  // ---------------------------------------------------------------------
  // The group set

  /** A player index: the lists and nodes are sized for MAXPLAYERS. */
  type Player = x: nat | x < MaxPlayers

  /** `group_t` without its set links: the group it was combined into,
      its participants (`pstart` to `plast`, as player indices), its
      connections to the players it beat (`cstart` to `clast`) and lost to
      (`lstart` to `llast`), each the player whose node it points at, its
      label and whether it has been set apart. Pointers to groups are slots
      of the group pool. */
  datatype Group = Group(combined: Option<nat>, parts: seq<Player>, beat: seq<Player>, lost: seq<Player>,
                         id: int, isolated: bool)

  /** A group as `group_reset` leaves it. */
  const Blank: Group := Group(None, [], [], [], -1, false)

  /** The first element of a chain, if any. */
  function First(chain: seq<nat>): Option<nat>
  {
    if chain == [] then None else Some(chain[0])
  }

  /** The groups of the set, in list order, are distinct slots in use other
      than the prehead's (slot 0), and none was combined into another. */
  ghost predicate Members(list: seq<Group>, chain: seq<nat>, n: nat)
  {
    n <= |list|
    && (forall j :: 0 <= j < |chain| ==> 0 < chain[j] < n && list[chain[j]].combined.None?)
    && Distinct(chain)
  }

  /** The `combined` links go from a slot in use to a slot in use of higher
      rank, so following them ends. */
  ghost predicate Forest(list: seq<Group>, rank: seq<nat>, top: nat, n: nat)
  {
    n <= |list| && n <= |rank|
    && forall k :: 0 <= k < n ==>
         (rank[k] <= top && (list[k].combined.Some? ==> list[k].combined.value < n && rank[k] < rank[list[k].combined.value]))
  }

  /** `group_combined`: the group reached by following the `combined` links. */
  ghost function Root(list: seq<Group>, rank: seq<nat>, top: nat, n: nat, g: nat): (r: nat)
    requires Forest(list, rank, top, n) && g < n
    ensures r < n && list[r].combined.None?
    decreases top - rank[g]
  {
    if list[g].combined.Some? then Root(list, rank, top, n, list[g].combined.value) else g
  }

  /** The set with g taken out. */
  function Without(chain: seq<nat>, g: nat): (r: seq<nat>)
    ensures forall x :: x in r <==> x in chain && x != g
    ensures |r| <= |chain|
  {
    if chain == [] then [] else (if chain[0] == g then [] else [chain[0]]) + Without(chain[1..], g)
  }
  /** `group_buffer.tail` is the last group of the set, or the prehead 0
      when the set is empty. */
  predicate Current(chain: seq<nat>, tail: nat)
  {
    if chain == [] then tail == 0 else tail == chain[|chain| - 1]
  }

  /** What the operations keep of the tail: the prehead only while the set
      is empty, and otherwise the last group of the set or a group that has
      left it. */
  predicate TailOk(chain: seq<nat>, tail: nat)
  {
    (tail == 0 ==> chain == []) && (Current(chain, tail) || tail !in chain)
  }

  /** Taking out a group other than the last keeps the last one. */
  lemma {:induction false} WithoutKeepsLast(chain: seq<nat>, g: nat)
    requires chain != [] && chain[|chain| - 1] != g
    ensures Without(chain, g) != [] && Without(chain, g)[|Without(chain, g)| - 1] == chain[|chain| - 1]
    decreases |chain|
  {
    if |chain| > 1 {
      WithoutKeepsLast(chain[1..], g);
    }
  }

  /** Taking a group out of the set keeps the tail's account; a current tail
      stays current unless it is the group taken out, which leaves it stale. */
  lemma TailOkWithout(chain: seq<nat>, tail: nat, g: nat)
    requires TailOk(chain, tail) && g != 0
    ensures TailOk(Without(chain, g), tail)
    ensures Current(chain, tail) && tail != g ==> Current(Without(chain, g), tail)
    ensures tail == g ==> !Current(Without(chain, g), tail)
  {
    if Current(chain, tail) && tail != g && chain != [] {
      WithoutKeepsLast(chain, g);
    }
    if tail == g && Without(chain, g) != [] {
      var r := Without(chain, g);
      assert r[|r| - 1] in r;
    }
  }

  /** No slot appears twice. */
  predicate Distinct(s: seq<nat>)
  {
    forall j, k :: 0 <= j < k < |s| ==> s[j] != s[k]
  }

  /** Taking a slot out keeps the others distinct. */
  lemma {:induction false} WithoutDistinct(chain: seq<nat>, g: nat)
    requires Distinct(chain)
    ensures Distinct(Without(chain, g))
    decreases |chain|
  {
    if chain != [] {
      var t := Without(chain[1..], g);
      assert Distinct(chain[1..]) by {
        forall j, k | 0 <= j < k < |chain[1..]|
          ensures chain[1..][j] != chain[1..][k]
        {
          assert chain[1..][j] == chain[j + 1] && chain[1..][k] == chain[k + 1];
        }
      }
      WithoutDistinct(chain[1..], g);
      var r := Without(chain, g);
      if chain[0] != g {
        assert r == [chain[0]] + t;
        assert chain[0] !in chain[1..];
        forall j, k | 0 <= j < k < |r|
          ensures r[j] != r[k]
        {
          if j == 0 {
            assert r[k] == t[k - 1] && r[k] in t;
          } else {
            assert r[j] == t[j - 1] && r[k] == t[k - 1];
          }
        }
      }
    }
  }

  /** Taking g out of the set, and changing nothing but g's record, keeps
      the set's members valid. */
  lemma MembersWithout(list: seq<Group>, list': seq<Group>, chain: seq<nat>, n: nat, g: nat)
    requires Members(list, chain, n) && |list'| == |list|
    requires forall x :: 0 <= x < n && x != g ==> list'[x].combined == list[x].combined
    ensures Members(list', Without(chain, g), n)
  {
    WithoutDistinct(chain, g);
    var r := Without(chain, g);
    forall j | 0 <= j < |r|
      ensures 0 < r[j] < n && list'[r[j]].combined.None?
    {
      assert r[j] in r;
      var i :| 0 <= i < |chain| && chain[i] == r[j];
    }
  }

  /** After h is combined into the root g, every group whose root was h
      has root g and every other group keeps its root. */
  lemma CombineRoots(list: seq<Group>, rank: seq<nat>, top: nat, n: nat, list': seq<Group>, rank': seq<nat>, top': nat,
                     g: nat, h: nat, k: nat)
    requires Forest(list, rank, top, n) && Forest(list', rank', top', n) && g < n && h < n && k < n && g != h
    requires list[g].combined.None? && list[h].combined.None? && list'[h].combined == Some(g)
    requires |list'| == |list| && forall x :: 0 <= x < n && x != h ==> list'[x].combined == list[x].combined
    ensures Root(list', rank', top', n, k) == (if Root(list, rank, top, n, k) == h then g else Root(list, rank, top, n, k))
    decreases top - rank[k]
  {
    if k != h && list[k].combined.Some? {
      CombineRoots(list, rank, top, n, list', rank', top', g, h, list[k].combined.value);
    }
  }

  /** Combining the root h into the root g, with g's rank raised above
      h's, keeps the links going up in rank. */
  lemma CombineKeepsForest(list: seq<Group>, rank: seq<nat>, top: nat, n: nat, list': seq<Group>, g: nat, h: nat)
    requires Forest(list, rank, top, n) && g < n && h < n && g != h && list[g].combined.None? && |list'| == |list|
    requires forall x :: 0 <= x < n && x != h ==> list'[x].combined == list[x].combined
    requires list'[h].combined == Some(g)
    ensures var rank' := rank[g := Max(rank[g], rank[h] + 1)]; Forest(list', rank', Max(top, rank'[g]), n)
  {
    var rank' := rank[g := Max(rank[g], rank[h] + 1)];
    var top' := Max(top, rank'[g]);
    forall k | 0 <= k < n
      ensures rank'[k] <= top' && (list'[k].combined.Some? ==> list'[k].combined.value < n && rank'[k] < rank'[list'[k].combined.value])
    {
      if k != h && list'[k].combined.Some? {
        assert list'[k].combined == list[k].combined;
      }
    }
  }

  /** The lists after `group_gocombine(g, h)`: g's participants, wins and
      losses followed by h's; h combined into g with its lists emptied. */
  function CombineLists(list: seq<Group>, g: nat, h: nat): (r: seq<Group>)
    requires g < |list| && h < |list| && g != h
    ensures |r| == |list| && r[h].combined == Some(g) && r[h].parts == [] && r[h].beat == [] && r[h].lost == []
    ensures r[g] == list[g].(parts := list[g].parts + list[h].parts, beat := list[g].beat + list[h].beat,
                             lost := list[g].lost + list[h].lost)
    ensures forall x :: 0 <= x < |list| && x != g && x != h ==> r[x] == list[x]
  {
    var gg := list[g];
    var hh := list[h];
    list[g := gg.(parts := gg.parts + hh.parts, beat := gg.beat + hh.beat, lost := gg.lost + hh.lost)]
        [h := hh.(combined := Some(g), parts := [], beat := [], lost := [])]
  }

  /** Both pools are forests over n slots, and every slot whose root was h
      in the first has root g in the second; the others keep their root. */
  ghost predicate Redirected(list: seq<Group>, rank: seq<nat>, top: nat, list': seq<Group>, rank': seq<nat>, top': nat,
                             n: nat, g: nat, h: nat)
  {
    Forest(list, rank, top, n) && Forest(list', rank', top', n)
    && forall k :: 0 <= k < n ==>
         Root(list', rank', top', n, k) == (if Root(list, rank, top, n, k) == h then g else Root(list, rank, top, n, k))
  }

  /** What `group_gocombine` does to the pool: h leaves the set, the
      links still go up in rank, and every group that led to h now leads
      to g. */
  lemma CombineStep(list: seq<Group>, rank: seq<nat>, top: nat, n: nat, chain: seq<nat>, g: nat, h: nat, l2: seq<Group>,
                    rank': seq<nat>, top': nat)
    requires Members(list, chain, n) && Forest(list, rank, top, n) && g < n && h < n && g != h
    requires list[g].combined.None? && h in chain && |l2| == |list|
    requires forall x :: 0 <= x < n && x != h ==> l2[x].combined == list[x].combined
    requires l2[h].combined == Some(g)
    requires rank' == rank[g := Max(rank[g], rank[h] + 1)] && top' == Max(top, rank'[g])
    ensures Members(l2, Without(chain, h), n) && Forest(l2, rank', top', n) && Redirected(list, rank, top, l2, rank', top', n, g, h)
  {
    MembersWithout(list, l2, chain, n, h);
    assert list[h].combined.None? by {
      var j :| 0 <= j < |chain| && chain[j] == h;
    }
    CombineKeepsForest(list, rank, top, n, l2, g, h);
    forall k | 0 <= k < n
      ensures Root(l2, rank', top', n, k) == (if Root(list, rank, top, n, k) == h then g else Root(list, rank, top, n, k))
    {
      CombineRoots(list, rank, top, n, l2, rank', top', g, h, k);
    }
  }

  /** Whether the group of some connection's node has label gid
      (the search loop of `add_connection` and `add_revconn`). */
  ghost predicate Points(list: seq<Group>, gnode: seq<Option<nat>>, conns: seq<Player>, gid: int)
    requires |gnode| == MaxPlayers && forall c :: 0 <= c < |gnode| && gnode[c].Some? ==> gnode[c].value < |list|
  {
    exists k :: 0 <= k < |conns| && gnode[conns[k]].Some? && list[gnode[conns[k]].value].id == gid
  }

  /** The label of the group of node i, -1 when it has none. */
  function NodeId(list: seq<Group>, gnode: seq<Option<nat>>, i: Player): int
    requires |gnode| == MaxPlayers && forall c :: 0 <= c < |gnode| && gnode[c].Some? ==> gnode[c].value < |list|
  {
    if gnode[i].Some? then list[gnode[i].value].id else -1
  }

  /** No two connections whose nodes have groups point at the same label. */
  ghost predicate DistinctTargets(list: seq<Group>, gnode: seq<Option<nat>>, conns: seq<Player>)
    requires |gnode| == MaxPlayers && forall c :: 0 <= c < |gnode| && gnode[c].Some? ==> gnode[c].value < |list|
  {
    forall j, k :: 0 <= j < k < |conns| && gnode[conns[j]].Some? && gnode[conns[k]].Some? ==>
      list[gnode[conns[j]].value].id != list[gnode[conns[k]].value].id
  }

  /** The connections after `add_connection` (or `add_revconn`) of node i:
      an empty list takes it; otherwise it is appended unless a connection
      already points at a group with the label of i's group. */
  ghost function Connect(list: seq<Group>, gnode: seq<Option<nat>>, conns: seq<Player>, i: Player): seq<Player>
    requires |gnode| == MaxPlayers && forall c :: 0 <= c < |gnode| && gnode[c].Some? ==> gnode[c].value < |list|
  {
    if conns == [] then [i]
    else if Points(list, gnode, conns, NodeId(list, gnode, i)) then conns
    else conns + [i]
  }

  /** Connecting a node that has a group keeps the targets distinct, and
      the connection to that label is then present. */
  lemma ConnectKeepsDistinct(list: seq<Group>, gnode: seq<Option<nat>>, conns: seq<Player>, i: Player)
    requires |gnode| == MaxPlayers && forall c :: 0 <= c < |gnode| && gnode[c].Some? ==> gnode[c].value < |list|
    requires DistinctTargets(list, gnode, conns) && gnode[i].Some?
    ensures DistinctTargets(list, gnode, Connect(list, gnode, conns, i))
    ensures Points(list, gnode, Connect(list, gnode, conns, i), NodeId(list, gnode, i))
  {
    var r := Connect(list, gnode, conns, i);
    if conns == [] {
      assert r[0] == i;
    } else if !Points(list, gnode, conns, NodeId(list, gnode, i)) {
      assert r[|conns|] == i;
      forall j, k | 0 <= j < k < |r| && gnode[r[j]].Some? && gnode[r[k]].Some?
        ensures list[gnode[r[j]].value].id != list[gnode[r[k]].value].id
      {
        if k == |conns| {
          assert r[j] == conns[j];
        } else {
          assert r[j] == conns[j] && r[k] == conns[k];
        }
      }
    }
  }

  /** The search loop of `add_connection`: whether a connection of conns
      points at a group labelled gid. */
  method HasGroupId(list: seq<Group>, gnode: seq<Option<nat>>, conns: seq<Player>, gid: int) returns (found: bool)
    requires |gnode| == MaxPlayers && forall c :: 0 <= c < |gnode| && gnode[c].Some? ==> gnode[c].value < |list|
    ensures found <==> Points(list, gnode, conns, gid)
  {
    found := false;
    var k := 0;
    while !found && k < |conns|
      invariant k <= |conns|
      invariant found ==> Points(list, gnode, conns, gid)
      invariant !found ==> forall j :: 0 <= j < k ==>
        !(gnode[conns[j]].Some? && list[gnode[conns[j]].value].id == gid)
    {
      var nd := gnode[conns[k]];
      found := nd.Some? && list[nd.value].id == gid;
      k := k + 1;
    }
  }

  /** The group pool (`group_buffer`), the nodes (`Gnode`) and the counters
      of the participant and connection pools. */
  class GroupSet {
    /** `group_buffer.list`: MAXPLAYERS slots, the first n handed out; slot
        0 is the prehead. */
    var list: seq<Group>
    var n: nat
    /** The groups linked from the prehead, in list order. */
    var chain: seq<nat>
    /** `group_buffer.tail`: the slot `groupset_add` links after. Unlinking
        and combining leave it alone. */
    var tail: nat
    /** `Gnode[i].group`, as a slot. */
    var gnode: seq<Option<nat>>
    /** `participant_buffer.n` and `connection_buffer.n`. */
    var nPart: nat
    var nConn: nat
    ghost var rank: seq<nat>
    ghost var top: nat

    /** The sizes of the pools; every node names a slot of the pool. */
    ghost predicate Shaped()
      reads this
    {
      |list| == MaxPlayers && |rank| == MaxPlayers && |gnode| == MaxPlayers
      && forall c :: 0 <= c < |gnode| && gnode[c].Some? ==> gnode[c].value < |list|
    }

    /** The set as `groupset_init` makes it and the operations keep it. */
    ghost predicate Valid()
      reads this
    {
      Shaped() && 1 <= n && Members(list, chain, n) && Forest(list, rank, top, n)
      && tail < n && TailOk(chain, tail)
    }

    /** The tail is the last group of the set, or the prehead when the set
        is empty. */
    predicate TailCurrent()
      reads this
    {
      Current(chain, tail)
    }

    /** The part of Valid() that following the links needs. */
    ghost predicate Linked()
      reads this
    {
      Shaped() && Forest(list, rank, top, n)
    }

    /** Node i names no group or a slot in use. */
    ghost predicate NodeOk(i: Player)
      reads this
      requires Shaped()
    {
      gnode[i].None? || gnode[i].value < n
    }

    /** The pools before anything is set up: every slot as zeroed memory. */
    constructor ()
      ensures Shaped() && n == 0 && nPart == 0 && nConn == 0 && chain == []
      ensures forall c :: 0 <= c < MaxPlayers ==> gnode[c].None?
    {
      list := seq(MaxPlayers, _ => Group(None, [], [], [], 0, false));
      n := 0;
      chain := [];
      gnode := seq(MaxPlayers, _ => None);
      nPart := 0;
      nConn := 0;
      rank := seq(MaxPlayers, _ => 0);
      top := 0;
    }

    /** `groupset_init`: slot 0 becomes the reset prehead, which is also
        the tail; the set is empty and one slot is in use. */
    method Init()
      requires Shaped()
      modifies this
      ensures Valid() && chain == [] && n == 1 && tail == 0
      ensures list == old(list)[0 := Blank] && gnode == old(gnode)
      ensures nPart == old(nPart) && nConn == old(nConn)
    {
      list := list[0 := Blank];
      n := 1;
      chain := [];
      tail := 0;
      rank := rank[0 := 0];
    }

    /** `convert_general_init`: both pools emptied, the set initialised and
        the first nPlyrs nodes without a group. */
    method GeneralInit(nPlyrs: nat)
      requires Shaped() && nPlyrs <= MaxPlayers
      modifies this
      ensures Valid() && chain == [] && n == 1 && nPart == 0 && nConn == 0
      ensures forall c :: 0 <= c < nPlyrs ==> gnode[c].None?
      ensures forall c :: nPlyrs <= c < MaxPlayers ==> gnode[c] == old(gnode[c])
    {
      nConn := 0;
      nPart := 0;
      Init();
      gnode := ClearNodes(gnode, nPlyrs, list);
    }

    /** `groupset_head`: the first group of the set, if any. */
    function Head(): (r: Option<nat>)
      reads this
      requires Valid()
      ensures r.Some? <==> chain != []
      ensures r.Some? ==> r.value == chain[0] && r.value < n && list[r.value].combined.None?
    {
      First(chain)
    }

    /** `groupset_tail`: the stored tail. While it is current it is the last
        group of the set, the prehead when the set is empty; once the group
        it names has been unlinked or combined away it is a group outside
        the set. */
    function Tail(): (r: nat)
      reads this
      requires Valid()
      ensures r < n && (r == 0 ==> chain == [])
      ensures TailCurrent() ==> (chain == [] <==> r == 0) && (chain != [] ==> r == chain[|chain| - 1])
      ensures !TailCurrent() ==> r !in chain
    {
      tail
    }

    /** `group_new` followed by `group_reset`, as every caller does: the next
        slot of the pool, holding a group with no links, no lists and
        label -1. */
    method Create() returns (g: nat)
      requires Valid() && n < MaxPlayers
      modifies this
      ensures Valid() && g == old(n) && n == old(n) + 1 && list == old(list)[g := Blank]
      ensures chain == old(chain) && gnode == old(gnode)
      ensures nPart == old(nPart) && nConn == old(nConn)
    {
      g := n;
      n := n + 1;
      list := list[g := Blank];
      rank := rank[g := 0];
    }

    /** `groupset_add`: a, a group in use that is not in the set and was
        not combined, is linked after the tail and becomes the tail. After a
        current tail, a joins the end of the set; after a stale one it hangs
        off a group outside the set, so the set does not change. */
    method Add(a: nat)
      requires Valid() && 0 < a < n && a !in chain && list[a].combined.None?
      modifies this
      ensures Valid() && tail == a
      ensures old(TailCurrent()) ==> chain == old(chain) + [a] && TailCurrent()
      ensures !old(TailCurrent()) ==> chain == old(chain)
      ensures list == old(list) && n == old(n) && gnode == old(gnode)
      ensures nPart == old(nPart) && nConn == old(nConn)
    {
      if TailCurrent() {
        chain := chain + [a];
      }
      tail := a;
    }

    /** `groupset_find`: the first group of the set labelled id, or None. */
    method Find(id: int) returns (r: Option<nat>)
      requires Valid()
      ensures r.None? <==> forall j :: 0 <= j < |chain| ==> list[chain[j]].id != id
      ensures r.Some? ==> exists j :: 0 <= j < |chain| && chain[j] == r.value && list[chain[j]].id == id
                                  && forall i :: 0 <= i < j ==> list[chain[i]].id != id
    {
      var j := 0;
      while j < |chain|
        invariant j <= |chain|
        invariant forall i :: 0 <= i < j ==> list[chain[i]].id != id
      {
        if id == list[chain[j]].id {
          return Some(chain[j]);
        }
        j := j + 1;
      }
      return None;
    }

    /** `group_combined`: follows the `combined` links from g to the group
        they end at. */
    method Combined(g: nat) returns (r: nat)
      requires Linked() && g < n
      ensures r == Root(list, rank, top, n, g)
    {
      r := CombinedIn(list, rank, top, n, g);
    }

    /** `group_unlink`: g leaves the set and is marked as set apart. */
    method Unlink(g: nat)
      requires Valid() && 0 < g < n
      modifies this
      ensures Valid() && chain == Without(old(chain), g) && tail == old(tail)
      ensures list == old(list)[g := old(list[g]).(isolated := true)]
      ensures n == old(n) && gnode == old(gnode) && nPart == old(nPart) && nConn == old(nConn)
      ensures old(tail) == g ==> !TailCurrent()
    {
      MembersWithout(list, list[g := list[g].(isolated := true)], chain, n, g);
      TailOkWithout(chain, tail, g);
      chain := Without(chain, g);
      list := list[g := list[g].(isolated := true)];
    }

    /** `group_gocombine`: h, unless it is already combined into g, leaves
        the set, is combined into g, and hands its participants, win and
        loss connections to g, appended to g's own, keeping none. The
        source takes h's predecessor in the set and g's last list entries
        for granted, so h must be in the set and g's lists not empty. */
    method Gocombine(g: nat, h: nat)
      requires Valid() && g < n && h < n && g != h && list[g].combined.None?
      requires list[h].combined != Some(g) ==>
        h in chain && list[g].parts != [] && list[g].beat != [] && list[g].lost != []
        && list[h].parts != [] && list[h].beat != [] && list[h].lost != []
      modifies this
      ensures Valid() && n == old(n) && gnode == old(gnode) && nPart == old(nPart) && nConn == old(nConn)
      ensures tail == old(tail) && (old(tail) == h && old(list[h].combined) != Some(g) ==> !TailCurrent())
      ensures old(list[h].combined) == Some(g) ==> list == old(list) && chain == old(chain)
      ensures old(list[h].combined) != Some(g) ==>
        chain == Without(old(chain), h) && list == CombineLists(old(list), g, h)
        && Redirected(old(list), old(rank), old(top), list, rank, top, n, g, h)
    {
      if list[h].combined == Some(g) {
        return;
      }
      var l2 := CombineLists(list, g, h);
      ghost var rank2 := rank[g := Max(rank[g], rank[h] + 1)];
      ghost var top2 := Max(top, rank2[g]);
      CombineStep(list, rank, top, n, chain, g, h, l2, rank2, top2);
      TailOkWithout(chain, tail, h);
      chain := Without(chain, h);
      list := l2;
      rank := rank2;
      top := top2;
    }

    /** `add_participant`: player i joins the end of g's participants. */
    method AddParticipant(g: nat, i: Player)
      requires Valid() && g < n && nPart < MaxPlayers
      modifies this
      ensures Valid() && list == old(list)[g := old(list[g]).(parts := old(list[g].parts) + [i])]
      ensures chain == old(chain) && n == old(n) && gnode == old(gnode) && nPart == old(nPart) + 1 && nConn == old(nConn)
    {
      nPart := nPart + 1;
      list := list[g := list[g].(parts := list[g].parts + [i])];
    }

    /** `add_connection`: a connection of g's wins to node i, appended
        unless one already points at a group with the label of i's group
        (an empty list always takes it); a connection is drawn from the
        pool either way. */
    method AddConnection(g: nat, i: Player)
      requires Valid() && g < n && nConn < MaxPlayers
      modifies this
      ensures Valid() && list == old(list)[g := old(list[g]).(beat := Connect(old(list), gnode, old(list[g].beat), i))]
      ensures chain == old(chain) && n == old(n) && gnode == old(gnode) && nPart == old(nPart) && nConn == old(nConn) + 1
    {
      nConn := nConn + 1;
      var groupId := if gnode[i].Some? then list[gnode[i].value].id else -1;
      var conns := list[g].beat;
      if conns != [] {
        var found := HasGroupId(list, gnode, conns, groupId);
        if !found {
          conns := conns + [i];
        }
      } else {
        conns := [i];
      }
      list := list[g := list[g].(beat := conns)];
    }

    /** `add_revconn`: the same for g's losses. */
    method AddRevconn(g: nat, i: Player)
      requires Valid() && g < n && nConn < MaxPlayers
      modifies this
      ensures Valid() && list == old(list)[g := old(list[g]).(lost := Connect(old(list), gnode, old(list[g].lost), i))]
      ensures chain == old(chain) && n == old(n) && gnode == old(gnode) && nPart == old(nPart) && nConn == old(nConn) + 1
    {
      nConn := nConn + 1;
      var groupId := if gnode[i].Some? then list[gnode[i].value].id else -1;
      var conns := list[g].lost;
      if conns != [] {
        var found := HasGroupId(list, gnode, conns, groupId);
        if !found {
          conns := conns + [i];
        }
      } else {
        conns := [i];
      }
      list := list[g := list[g].(lost := conns)];
    }

    /** The label of the group each player's node leads to, as
        `group_belonging` finds it; -1 for a node without a group. */
    ghost function Bel(): (r: seq<int>)
      reads this
      requires Linked()
      ensures |r| == MaxPlayers
    {
      BelOf(list, rank, top, n, gnode)
    }

    /** `group_belonging`: the label of the group that the node of plyr
        leads to, -1 when the node has no group. */
    method Belonging(plyr: Player) returns (r: int)
      requires Linked() && NodeOk(plyr)
      ensures r == Bel()[plyr]
    {
      r := BelongingIn(list, rank, top, n, gnode, plyr);
    }

    /** `sieve_encounters`: the encounters whose players belong to the same
        group go to enca and the others to encb, each in order. */
    method Sieve(enc: seq<Enc>, enca: array<Enc>, encb: array<Enc>) returns (na: nat, nb: nat)
      requires Linked() && Among(enc, MaxPlayers) && |enc| <= enca.Length && |enc| <= encb.Length && enca != encb
      requires forall e :: 0 <= e < |enc| ==> NodeOk(enc[e].wh) && NodeOk(enc[e].bl)
      modifies enca, encb
      ensures na + nb == |enc|
      ensures enca[..na] == SieveOf(enc, Bel(), true, |enc|)
      ensures encb[..nb] == SieveOf(enc, Bel(), false, |enc|)
    {
      na, nb := SieveIn(list, rank, top, n, gnode, enc, enca, encb);
    }
  }

  /** `group_combined` on the pool's values. */
  method CombinedIn(list: seq<Group>, ghost rank: seq<nat>, ghost top: nat, n: nat, g: nat) returns (r: nat)
    requires Forest(list, rank, top, n) && g < n
    ensures r == Root(list, rank, top, n, g)
  {
    r := g;
    while list[r].combined.Some?
      invariant r < n && Root(list, rank, top, n, r) == Root(list, rank, top, n, g)
      decreases top - rank[r]
    {
      r := list[r].combined.value;
    }
  }

  /** `group_belonging` on the pool's and the nodes' values. */
  method BelongingIn(list: seq<Group>, ghost rank: seq<nat>, ghost top: nat, n: nat, gnode: seq<Option<nat>>, plyr: Player)
    returns (r: int)
    requires Forest(list, rank, top, n) && |gnode| == MaxPlayers && (gnode[plyr].None? || gnode[plyr].value < n)
    ensures r == BelOf(list, rank, top, n, gnode)[plyr]
  {
    var gr := gnode[plyr];
    if gr.None? {
      return -1;
    }
    var ggg := CombinedIn(list, rank, top, n, gr.value);
    r := list[ggg].id;
  }

  /** The loop of `sieve_encounters`. */
  method SieveIn(list: seq<Group>, ghost rank: seq<nat>, ghost top: nat, n: nat, gnode: seq<Option<nat>>,
                 enc: seq<Enc>, enca: array<Enc>, encb: array<Enc>) returns (na: nat, nb: nat)
    requires Forest(list, rank, top, n) && |gnode| == MaxPlayers
    requires Among(enc, MaxPlayers) && |enc| <= enca.Length && |enc| <= encb.Length && enca != encb
    requires forall e :: 0 <= e < |enc| ==>
      ((gnode[enc[e].wh].None? || gnode[enc[e].wh].value < n) && (gnode[enc[e].bl].None? || gnode[enc[e].bl].value < n))
    modifies enca, encb
    ensures na + nb == |enc|
    ensures enca[..na] == SieveOf(enc, BelOf(list, rank, top, n, gnode), true, |enc|)
    ensures encb[..nb] == SieveOf(enc, BelOf(list, rank, top, n, gnode), false, |enc|)
  {
    ghost var bel := BelOf(list, rank, top, n, gnode);
    na, nb := 0, 0;
    var e := 0;
    while e < |enc|
      invariant e <= |enc| && na + nb == e
      invariant enca[..na] == SieveOf(enc, bel, true, e)
      invariant encb[..nb] == SieveOf(enc, bel, false, e)
    {
      var gw := BelongingIn(list, rank, top, n, gnode, enc[e].wh);
      var gb := BelongingIn(list, rank, top, n, gnode, enc[e].bl);
      assert SameGroup(bel, enc[e]) <==> gw == gb;
      SieveStep(enc, bel, e + 1);
      if gw == gb {
        Push(enca, na, enc[e]);
        na := na + 1;
      } else {
        Push(encb, nb, enc[e]);
        nb := nb + 1;
      }
      e := e + 1;
    }
  }

  /** The label of the group each node leads to, -1 for a node without a
      group in use. */
  ghost function BelOf(list: seq<Group>, rank: seq<nat>, top: nat, n: nat, gnode: seq<Option<nat>>): (r: seq<int>)
    requires Forest(list, rank, top, n) && |gnode| == MaxPlayers
    ensures |r| == MaxPlayers
    ensures forall w :: 0 <= w < MaxPlayers ==>
      r[w] == (if gnode[w].Some? && gnode[w].value < n then list[Root(list, rank, top, n, gnode[w].value)].id else -1)
  {
    seq(MaxPlayers, w requires 0 <= w < MaxPlayers =>
      if gnode[w].Some? && gnode[w].value < n then list[Root(list, rank, top, n, gnode[w].value)].id else -1)
  }

  /** The node loop of `convert_general_init`. */
  method ClearNodes(gnode: seq<Option<nat>>, nPlyrs: nat, ghost list: seq<Group>) returns (r: seq<Option<nat>>)
    requires |gnode| == MaxPlayers && nPlyrs <= MaxPlayers
    requires forall c :: 0 <= c < |gnode| && gnode[c].Some? ==> gnode[c].value < |list|
    ensures |r| == MaxPlayers && forall c :: 0 <= c < |r| ==> r[c] == (if c < nPlyrs then None else gnode[c])
    ensures forall c :: 0 <= c < |r| && r[c].Some? ==> r[c].value < |list|
  {
    r := gnode;
    var i := 0;
    while i < nPlyrs
      invariant i <= nPlyrs && |r| == MaxPlayers
      invariant forall c :: 0 <= c < |r| ==> r[c] == (if c < i then None else gnode[c])
    {
      r := r[i := None];
      i := i + 1;
    }
  }

  // ---------------------------------------------------------------------
  // The encounter buffers of scan_encounters

  /** `SE` and `SE2` as allocations (None for NULL) and their counts. */
  datatype Support = Support(se: Option<nat>, se2: Option<nat>, nSe: nat, nSe2: nat)

  /** `supporting_encmem_init` as written; a and b are what the two
      allocations return. On success the second buffer is stored into SE a
      second time, so SE2 stays as it was and the first buffer is lost. */
  function EncmemInitAsWritten(m: Support, a: Option<nat>, b: Option<nat>): (r: (bool, Support))
    ensures r.0 <==> a.Some? && b.Some?
    ensures !r.0 ==> r.1 == m
    ensures r.0 ==> r.1 == m.(se := b)
  {
    if a.None? || b.None? then (false, m) else (true, m.(se := b))
  }

  /** From the NULL start, the as-written initialisation succeeds and still
      leaves SE2 NULL, which `scan_encounters` then writes into. */
  lemma EncmemSe2Unset(a: nat, b: nat)
    requires a != b
    ensures var r := EncmemInitAsWritten(Support(None, None, 0, 0), Some(a), Some(b));
      r.0 && r.1.se2.None? && r.1.se != Some(a)
  {
  }

  /** `supporting_encmem_init` as intended: SE gets the first buffer and
      SE2 the second. */
  function EncmemInit(m: Support, a: Option<nat>, b: Option<nat>): (r: (bool, Support))
  {
    if a.None? || b.None? then (false, m) else (true, m.(se := a, se2 := b))
  }

  /** The intended initialisation succeeds exactly when both allocations
      do, and then both buffers are set and distinct whenever the
      allocations differ; on failure nothing changes. */
  lemma EncmemInitSetsBoth(m: Support, a: Option<nat>, b: Option<nat>)
    ensures var r := EncmemInit(m, a, b);
      (r.0 <==> a.Some? && b.Some?)
      && (r.0 ==> r.1.se == a && r.1.se2 == b && (a != b ==> r.1.se != r.1.se2) && r.1.nSe == m.nSe && r.1.nSe2 == m.nSe2)
      && (!r.0 ==> r.1 == m)
  {
  }

  /** `supporting_encmem_done`: the non-NULL buffers are freed (returned
      as the set freed) and both counts reset; SE and SE2 keep their
      values. */
  function EncmemDone(m: Support): (r: (set<nat>, Support))
    ensures r.1 == m.(nSe := 0, nSe2 := 0)
    ensures forall p :: p in r.0 <==> m.se == Some(p) || m.se2 == Some(p)
  {
    ((if m.se.Some? then {m.se.value} else {}) + (if m.se2.Some? then {m.se2.value} else {}), m.(nSe := 0, nSe2 := 0))
  }
}
