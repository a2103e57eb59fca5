/** The report's sorting of players by rating: a comparator on a reference
    array of ratings, an insertion sort, a hand-written quicksort that
    leaves short ranges for the final insertion sort, and the predicates
    that decide which players are listed and with which mark. Ratings
    are only compared, so they are `real`; players are indexes into the
    reference array. */
module Report {
  import opened CText

  /** size_t has 64 bits: `n - 1` wraps modulo 2^64. */
  const SizeModulus: int := 0x1_0000_0000_0000_0000

  /** Every player in s has a rating in r. */
  predicate Rated(r: seq<real>, s: seq<nat>)
  {
    forall k :: 0 <= k < |s| ==> s[k] < |r|
  }

  /** `compare__(a, b, reference)`: (r[a] < r[b]) - (r[a] > r[b]). */
  function Compare(r: seq<real>, a: nat, b: nat): int
    requires a < |r| && b < |r|
  {
    (if r[a] < r[b] then 1 else 0) - (if r[a] > r[b] then 1 else 0)
  }

  /** A descending comparator: positive when b is rated higher, negative
      when lower, zero on equal ratings, and antisymmetric. */
  lemma CompareIsDescending(r: seq<real>, a: nat, b: nat)
    requires a < |r| && b < |r|
    ensures Compare(r, a, b) > 0 <==> r[a] < r[b]
    ensures Compare(r, a, b) < 0 <==> r[a] > r[b]
    ensures Compare(r, a, b) == 0 <==> r[a] == r[b]
    ensures Compare(r, b, a) == -Compare(r, a, b)
  {
  }

  /** s[lo .. hi) is sorted by non-increasing rating. */
  predicate Descending(r: seq<real>, s: seq<nat>, lo: int, hi: int)
    requires Rated(r, s)
  {
    forall i, j :: 0 <= lo <= i < j < hi <= |s| ==> r[s[i]] >= r[s[j]]
  }

  lemma RatedPermutation(r: seq<real>, s: seq<nat>, t: seq<nat>)
    requires Rated(r, s) && multiset(s) == multiset(t)
    ensures Rated(r, t)
  {
    forall k | 0 <= k < |t| ensures t[k] < |r| {
      assert t[k] in multiset(s);
    }
  }

  /** A permutation of the whole array that leaves a suffix alone
      permutes the prefix before it. */
  lemma PrefixPermutation(s: seq<nat>, t: seq<nat>, n: nat)
    requires n <= |s| == |t| && multiset(s) == multiset(t) && s[n..] == t[n..]
    ensures multiset(s[..n]) == multiset(t[..n])
  {
    assert s == s[..n] + s[n..];
    assert t == t[..n] + t[n..];
    assert multiset(s) == multiset(s[..n]) + multiset(s[n..]);
    assert multiset(t) == multiset(t[..n]) + multiset(t[n..]);
    assert multiset(s[..n]) == multiset(s) - multiset(s[n..]);
    assert multiset(t[..n]) == multiset(t) - multiset(t[n..]);
  }

  // ---------------------------------------------------------------------
  // insertion_sort

  /** s with the element at lo moved to hi - 1 and s(lo .. hi) shifted
      down by one. */
  function Rotated(s: seq<nat>, lo: nat, hi: nat): (t: seq<nat>)
    requires lo < hi <= |s|
    ensures |t| == |s| && multiset(t) == multiset(s)
    ensures forall k :: 0 <= k < lo ==> t[k] == s[k]
    ensures forall k :: hi <= k < |s| ==> t[k] == s[k]
    ensures forall k :: lo <= k < hi - 1 ==> t[k] == s[k + 1]
    ensures t[hi - 1] == s[lo]
  {
    RotationFacts(s, lo, hi);
    s[..lo] + s[lo + 1..hi] + [s[lo]] + s[hi..]
  }

  lemma RotationFacts<T>(s: seq<T>, lo: nat, hi: nat)
    requires lo < hi <= |s|
    ensures var t := s[..lo] + s[lo + 1..hi] + [s[lo]] + s[hi..];
      |t| == |s| && multiset(t) == multiset(s)
      && (forall k :: 0 <= k < lo ==> t[k] == s[k])
      && (forall k :: hi <= k < |s| ==> t[k] == s[k])
      && (forall k :: lo <= k < hi - 1 ==> t[k] == s[k + 1])
      && t[hi - 1] == s[lo]
  {
    var a, x, m, z := s[..lo], [s[lo]], s[lo + 1..hi], s[hi..];
    assert s == a + x + m + z;
    SwapMiddle(a, x, m, z);
  }

  /** Swapping the two middle parts keeps the elements. */
  lemma SwapMiddle<T>(a: seq<T>, b: seq<T>, c: seq<T>, d: seq<T>)
    ensures multiset(a + b + c + d) == multiset(a + c + b + d)
  {
    calc {
      multiset(a + b + c + d);
      multiset(a) + multiset(b) + multiset(c) + multiset(d);
      multiset(a) + multiset(c) + multiset(b) + multiset(d);
      multiset(a + c + b + d);
    }
  }

  /** The shift of `insertion_sort`: tmp = vect[lo], vect[lo .. hi - 1)
      moved down by one, vect[hi - 1] = tmp. */
  method Rotate(vect: array<nat>, lo: nat, hi: nat)
    requires lo < hi <= vect.Length
    modifies vect
    ensures vect[..] == Rotated(old(vect[..]), lo, hi)
  {
    ghost var s := vect[..];
    var tmp := vect[lo];
    var k := lo + 1;
    while k < hi
      invariant lo + 1 <= k <= hi
      invariant forall m :: 0 <= m < lo ==> vect[m] == s[m]
      invariant forall m :: lo <= m < k - 1 ==> vect[m] == s[m + 1]
      invariant forall m :: k - 1 <= m < vect.Length && m != k - 1 ==> vect[m] == s[m]
    {
      vect[k - 1] := vect[k];
      k := k + 1;
    }
    vect[hi - 1] := tmp;
    assert vect[..] == Rotated(s, lo, hi);
  }

  /** The search of `insertion_sort`: from j on, skip the entries rated
      strictly above the one at j - 1. */
  method FindSlot(r: seq<real>, n: nat, vect: array<nat>, j: nat) returns (i: nat)
    requires 1 <= j < n <= vect.Length && Rated(r, vect[..])
    ensures j <= i <= n
    ensures forall k :: j <= k < i ==> r[vect[j - 1]] < r[vect[k]]
    ensures i < n ==> !(r[vect[j - 1]] < r[vect[i]])
  {
    i := j;
    while i < n
      invariant j <= i <= n
      invariant forall k :: j <= k < i ==> r[vect[j - 1]] < r[vect[k]]
    {
      if !(0 < Compare(r, vect[j - 1], vect[i])) {
        return;
      }
      i := i + 1;
    }
  }

  /** Moving the entry at j - 1 past the entries rated above it extends
      the sorted suffix from j to j - 1. */
  lemma InsertionExtends(r: seq<real>, s: seq<nat>, j: nat, i: nat, n: nat)
    requires 1 <= j <= i <= n <= |s| && j < n && Rated(r, s) && Descending(r, s, j, n)
    requires forall k :: j <= k < i ==> r[s[j - 1]] < r[s[k]]
    requires i < n ==> !(r[s[j - 1]] < r[s[i]])
    ensures Rated(r, Rotated(s, j - 1, i))
    ensures Descending(r, Rotated(s, j - 1, i), j - 1, n)
  {
    var t := Rotated(s, j - 1, i);
    RatedPermutation(r, s, t);
    forall a, b | j - 1 <= a < b < n ensures r[t[a]] >= r[t[b]] {
      if b < i - 1 {
        assert t[a] == s[a + 1] && t[b] == s[b + 1];
      } else if b == i - 1 {
        assert t[a] == s[a + 1];
      } else if a < i - 1 {
        assert t[a] == s[a + 1] && t[b] == s[b];
        assert r[s[i]] >= r[s[b]];
        assert r[s[j - 1]] >= r[s[i]];
      } else if a == i - 1 {
        assert r[s[j - 1]] >= r[s[i]];
        assert r[s[i]] >= r[s[b]] || b == i;
      }
    }
  }

  /** One pass of the outer loop: vect[j - 1] goes into the sorted suffix. */
  method InsertOne(r: seq<real>, n: nat, vect: array<nat>, j: nat)
    requires 1 <= j < n <= vect.Length && Rated(r, vect[..]) && Descending(r, vect[..], j, n)
    modifies vect
    ensures Rated(r, vect[..]) && Descending(r, vect[..], j - 1, n)
    ensures multiset(vect[..]) == multiset(old(vect[..]))
    ensures vect[n..] == old(vect[n..])
  {
    ghost var s := vect[..];
    var i := FindSlot(r, n, vect, j);
    InsertionExtends(r, s, j, i, n);
    RotatedKeeps(s, j - 1, i, n);
    ghost var t := Rotated(s, j - 1, i);
    if i > j {
      Rotate(vect, j - 1, i);
    }
    assert vect[..] == t;
  }

  /** The rotation leaves the suffix from n alone, and rotating a single
      entry changes nothing. */
  lemma RotatedKeeps(s: seq<nat>, lo: nat, hi: nat, n: nat)
    requires lo < hi <= n <= |s|
    ensures Rotated(s, lo, hi)[n..] == s[n..]
    ensures hi == lo + 1 ==> Rotated(s, lo, hi) == s
  {
    var t := Rotated(s, lo, hi);
    assert forall k :: 0 <= k < |s| - n ==> t[n..][k] == t[n + k] && s[n..][k] == s[n + k];
  }

  /** `insertion_sort(reference, n, vect)`: vect[0 .. n) becomes a
      permutation of itself, sorted by non-increasing rating; n < 2 leaves
      it as it is. */
  method InsertionSort(r: seq<real>, n: nat, vect: array<nat>)
    requires n <= vect.Length && Rated(r, vect[..])
    modifies vect
    ensures Rated(r, vect[..]) && Descending(r, vect[..], 0, n)
    ensures multiset(vect[..n]) == multiset(old(vect[..n]))
    ensures vect[n..] == old(vect[n..])
    ensures n < 2 ==> vect[..] == old(vect[..])
  {
    if n < 2 {
      return;
    }
    var j := n - 1;
    while j > 0
      invariant 0 <= j <= n - 1
      invariant Rated(r, vect[..]) && Descending(r, vect[..], j, n)
      invariant multiset(vect[..]) == multiset(old(vect[..]))
      invariant vect[n..] == old(vect[n..])
    {
      InsertOne(r, n, vect, j);
      j := j - 1;
    }
    PrefixPermutation(vect[..], old(vect[..]), n);
  }

  // ---------------------------------------------------------------------
  // partition, range_qsort, my_qsort

  /** Exchange two entries. */
  method Swap(vect: array<nat>, a: nat, b: nat)
    requires a < vect.Length && b < vect.Length
    modifies vect
    ensures vect[..] == old(vect[..])[a := old(vect[b])][b := old(vect[a])]
    ensures multiset(vect[..]) == multiset(old(vect[..]))
  {
    vect[a], vect[b] := vect[b], vect[a];
  }

  /** The array changed at most inside [l, h]. */
  ghost predicate Outside(s: seq<nat>, t: seq<nat>, l: nat, h: nat)
  {
    |s| == |t| && forall k :: 0 <= k < |s| && (k < l || k > h) ==> s[k] == t[k]
  }

  /** A permutation of the ratings that keeps the entries outside [l, h]. */
  ghost predicate Shuffled(r: seq<real>, s: seq<nat>, t: seq<nat>, l: nat, h: nat)
  {
    Rated(r, t) && multiset(s) == multiset(t) && Outside(s, t, l, h)
  }

  /** The loop of `partition`: i climbs over entries rated strictly above
      the pivot vect[l], while entries that are not are swapped behind h,
      until i meets h. */
  method PartitionScan(r: seq<real>, vect: array<nat>, l: nat, h: nat) returns (i: nat)
    requires l < h < vect.Length && Rated(r, vect[..])
    modifies vect
    ensures l + 1 <= i <= h && Shuffled(r, old(vect[..]), vect[..], l + 1, h)
    ensures forall k :: l + 1 <= k < i ==> r[vect[l]] < r[vect[k]]
    ensures forall k :: i < k <= h ==> !(r[vect[l]] < r[vect[k]])
  {
    i := l + 1;
    var top := h;
    while i < top
      invariant l + 1 <= i <= top <= h
      invariant Shuffled(r, old(vect[..]), vect[..], l + 1, h)
      invariant forall k :: l + 1 <= k < i ==> r[vect[l]] < r[vect[k]]
      invariant forall k :: top < k <= h ==> !(r[vect[l]] < r[vect[k]])
      decreases top - i
    {
      if 0 < Compare(r, vect[l], vect[i]) {
        i := i + 1;
      } else {
        Swap(vect, i, top);
        RatedPermutation(r, old(vect[..]), vect[..]);
        top := top - 1;
      }
    }
  }

  /** `partition(reference, vect, l, h)`: returns p in [l, h] with the old
      vect[l] at p, entries rated strictly above it before p and entries
      not rated above it after p, up to h. The only caller passes
      h >= l + 6; with h == l the C reads vect[l + 1]. */
  method Partition(r: seq<real>, vect: array<nat>, l: nat, h: nat) returns (p: nat)
    requires l < h < vect.Length && Rated(r, vect[..])
    modifies vect
    ensures l <= p <= h && Shuffled(r, old(vect[..]), vect[..], l, h)
    ensures vect[p] == old(vect[l])
    ensures forall k :: l <= k < p ==> r[vect[k]] > r[vect[p]]
    ensures forall k :: p < k <= h ==> !(r[vect[k]] > r[vect[p]])
  {
    var i := PartitionScan(r, vect, l, h);
    ghost var s := vect[..];
    var pivot := vect[l];
    p := if 0 < Compare(r, pivot, vect[i]) then i else i - 1;
    if p > l {
      Swap(vect, p, l);
      RatedPermutation(r, s, vect[..]);
      assert forall k :: l < k < p ==> vect[k] == s[k];
      assert forall k :: p < k <= h ==> vect[k] == s[k];
    }
  }

  /** The pivot choice of `range_qsort` for ranges of 7 to 13 entries:
      when h, j = l + (h - l)/2 and l are in increasing rating order, the
      middle one moves to l, then likewise with j and h swapped. */
  method ChoosePivot(r: seq<real>, vect: array<nat>, l: nat, h: nat)
    requires l < h < vect.Length && Rated(r, vect[..])
    modifies vect
    ensures Shuffled(r, old(vect[..]), vect[..], l, h)
  {
    var j := l + (h - l) / 2;
    if 0 < Compare(r, vect[h], vect[j]) && 0 < Compare(r, vect[j], vect[l]) {
      Swap(vect, j, l);
      RatedPermutation(r, old(vect[..]), vect[..]);
    }
    ghost var s := vect[..];
    if 0 < Compare(r, vect[j], vect[h]) && 0 < Compare(r, vect[h], vect[l]) {
      Swap(vect, h, l);
      RatedPermutation(r, s, vect[..]);
    }
  }

  /** `range_qsort(reference, vect, l, h)`: permutes vect[l .. h] and
      nothing else; ranges of fewer than seven entries are left untouched
      for the final insertion sort. */
  method RangeQsort(r: seq<real>, vect: array<nat>, l: nat, h: nat)
    requires l <= h < vect.Length && Rated(r, vect[..])
    modifies vect
    ensures Shuffled(r, old(vect[..]), vect[..], l, h)
    ensures h < l + 6 ==> vect[..] == old(vect[..])
    decreases h - l
  {
    if h < l + 6 {
      return;
    }
    if h <= l + 12 {
      ChoosePivot(r, vect, l, h);
    }
    var m := Partition(r, vect, l, h);
    if m - l < h - m {
      if m > l + 1 {
        RangeQsort(r, vect, l, m - 1);
      }
      if h > m + 1 {
        RangeQsort(r, vect, m + 1, h);
      }
    } else {
      if h > m + 1 {
        RangeQsort(r, vect, m + 1, h);
      }
      if m > l + 1 {
        RangeQsort(r, vect, l, m - 1);
      }
    }
  }

  /** The upper index `my_qsort` passes as written: n - 1 in size_t. */
  function QsortTopAsWritten(n: nat): (top: nat)
    requires n < SizeModulus
    ensures 0 < n ==> top == n - 1
  {
    (n + SizeModulus - 1) % SizeModulus
  }

  /** With n == 0 the top index wraps to SIZE_MAX, so `range_qsort` on an
      empty vector takes the partition path over indexes far past it. */
  lemma EmptyQsortWraps()
    ensures QsortTopAsWritten(0) == SizeModulus - 1
    ensures !(QsortTopAsWritten(0) < 0 + 6)
  {
  }

  /** `my_qsort(reference, n, vect)` with the evidently intended guard on
      n == 0: vect[0 .. n) becomes a permutation of itself sorted by
      non-increasing rating, and the rest of vect is untouched. */
  method MyQsort(r: seq<real>, n: nat, vect: array<nat>)
    requires n <= vect.Length && Rated(r, vect[..])
    modifies vect
    ensures Rated(r, vect[..]) && Descending(r, vect[..], 0, n)
    ensures multiset(vect[..n]) == multiset(old(vect[..n]))
    ensures vect[n..] == old(vect[n..])
  {
    if n > 0 {
      RangeQsort(r, vect, 0, n - 1);
      assert vect[n..] == old(vect[n..]);
      PrefixPermutation(vect[..], old(vect[..]), n);
    }
    InsertionSort(r, n, vect);
  }

  // ---------------------------------------------------------------------
  // Output selection

  /** `ok_to_out(j, ...)`: player j is listed when not flagged, with games,
      and, when a minimum is set, with at least that many games. */
  predicate OkToOut(flagged: bool, games: int, mingamesSet: bool, mingames: int)
  {
    !flagged && games > 0 && (!mingamesSet || games >= mingames)
  }

  /** A listed player has games and is not flagged; setting or raising the
      minimum only ever removes players from the list. */
  lemma OutputQualifiers(flagged: bool, games: int, mingames: int, higher: int)
    requires mingames <= higher
    ensures OkToOut(flagged, games, true, mingames) ==> OkToOut(flagged, games, false, mingames)
    ensures OkToOut(flagged, games, true, higher) ==> OkToOut(flagged, games, true, mingames)
    ensures OkToOut(flagged, games, false, mingames) <==> !flagged && games > 0
  {
  }

  /** `get_super_player_symbolstr`: the mark printed beside a player. */
  function SymbolOf(p: Perf): string
  {
    match p
    case PerfSuperLoser => "<"
    case PerfSuperWinner => ">"
    case PerfNoGames => "*"
    case PerfNormal => " "
    case PerfOther(_) => "X"
  }

  /** Every mark is one character, and the mark tells the four classes
      apart from each other and from any other code. */
  lemma SymbolsIdentify(p: Perf, q: Perf)
    ensures |SymbolOf(p)| == 1
    ensures SymbolOf(p) == SymbolOf(q) ==> p == q || (p.PerfOther? && q.PerfOther?)
  {
  }

  /** `is_old_version(j, rps)`: whether j is the second player of some
      relative prior. */
  method IsOldVersion(j: nat, rps: seq<RelPrior>) returns (found: bool)
    ensures found <==> exists i :: 0 <= i < |rps| && rps[i].playerB == j
  {
    found := false;
    var i := 0;
    while !found && i < |rps|
      invariant 0 <= i <= |rps|
      invariant found <==> exists k :: 0 <= k < i && rps[k].playerB == j
    {
      found := j == rps[i].playerB;
      i := i + 1;
    }
  }
}
