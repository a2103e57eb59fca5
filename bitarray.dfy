/** Fixed-capacity bit sets over `max` player indices, stored as an array of
    64-bit words (`pod`). A word is modelled as its 64 bits, least
    significant first, so that bit x of the set is bit x % 64 of word x / 64. */
module BitArray {
  const WordBits: nat := 64

  type Word = w: seq<bool> | |w| == 64 witness seq(64, _ => false)

  /** The all-zero word. */
  const Zero: Word := seq(64, _ => false)

  /** `~w`. */
  function Complement(w: Word): (r: Word)
    ensures forall k :: 0 <= k < 64 ==> r[k] == !w[k]
  {
    seq(64, k requires 0 <= k < 64 => !w[k])
  }

  /** `max_p`: the number of words holding `max` bits, rounded up. */
  function Pods(max: nat): (n: nat)
    ensures WordBits * n >= max
    ensures n > 0 ==> WordBits * (n - 1) < max
  {
    max / 64 + (if max % 64 > 0 then 1 else 0)
  }

  /** Bit x of the words w. */
  function Bit(w: seq<Word>, x: nat): bool
    requires x < WordBits * |w|
  {
    w[x / 64][x % 64]
  }

  /** The words after `ba_put(x)`: bit x is set when x < max; otherwise
      nothing changes. */
  function Put(w: seq<Word>, max: nat, x: nat): (r: seq<Word>)
    requires max <= WordBits * |w|
    ensures |r| == |w|
  {
    if x < max then w[x / 64 := w[x / 64][x % 64 := true]] else w
  }

  /** The words after `ba_clear` and after `ba_init`: the first n are zero. */
  function Cleared(w: seq<Word>, n: nat): (r: seq<Word>)
    requires n <= |w|
    ensures |r| == |w|
  {
    seq(|w|, i requires 0 <= i < |w| => if i < n then Zero else w[i])
  }

  /** The words after `ba_setnot`: the first n are complemented. */
  function Flipped(w: seq<Word>, n: nat): (r: seq<Word>)
    requires n <= |w|
    ensures |r| == |w|
  {
    seq(|w|, i requires 0 <= i < |w| => if i < n then Complement(w[i]) else w[i])
  }

  /** After `ba_put(x)` with x < max, x is on and every other bit is as before. */
  lemma PutSetsOnlyX(w: seq<Word>, max: nat, x: nat, y: nat)
    requires max <= WordBits * |w| && x < max && y < WordBits * |w|
    ensures Bit(Put(w, max, x), y) == (y == x || Bit(w, y))
  {
    if y / 64 == x / 64 && y != x {
      assert y % 64 != x % 64;
    }
  }

  /** `ba_put(x)` with x >= max changes nothing. */
  lemma PutOutOfRange(w: seq<Word>, max: nat, x: nat)
    requires max <= WordBits * |w| && x >= max
    ensures Put(w, max, x) == w
  {
  }

  /** Putting the same bit twice is putting it once. */
  lemma PutIdempotent(w: seq<Word>, max: nat, x: nat)
    requires max <= WordBits * |w|
    ensures Put(Put(w, max, x), max, x) == Put(w, max, x)
  {
    if x < max {
      var once := Put(w, max, x);
      assert once[x / 64][x % 64 := true] == once[x / 64];
    }
  }

  /** After clearing the words that hold max bits, every bit below max is off. */
  lemma ClearedAllOff(w: seq<Word>, max: nat, y: nat)
    requires Pods(max) <= |w| && y < max
    ensures !Bit(Cleared(w, Pods(max)), y)
  {
  }

  /** `ba_setnot` complements whole words: every stored bit flips, those at
      or past max included. */
  lemma FlippedEveryBit(w: seq<Word>, y: nat)
    requires y < WordBits * |w|
    ensures Bit(Flipped(w, |w|), y) == !Bit(w, y)
  {
  }

  /** Complementing twice restores the set. */
  lemma FlippedTwice(w: seq<Word>)
    ensures Flipped(Flipped(w, |w|), |w|) == w
  {
    var r := Flipped(Flipped(w, |w|), |w|);
    forall i | 0 <= i < |w|
      ensures r[i] == w[i]
    {
      assert r[i] == Complement(Complement(w[i]));
    }
  }

  /** `struct BITARRAY`: `pod` is null exactly when the set is not
      initialised, and then `max` is 0. */
  class BitSet {
    var max: nat
    var pod: array?<Word>

    predicate Valid()
      reads this
    {
      (pod == null ==> max == 0) && (pod != null ==> pod.Length == Pods(max))
    }

    constructor ()
      ensures Valid() && pod == null && max == 0
    {
      max := 0;
      pod := null;
    }

    /** `ba_put`. */
    method BaPut(x: nat)
      requires Valid() && pod != null && max > 0
      modifies pod
      ensures pod[..] == Put(old(pod[..]), max, x)
    {
      if x < max {
        pod[x / 64] := pod[x / 64][x % 64 := true];
      }
    }

    /** `ba_ison`. */
    method BaIsOn(x: nat) returns (on: bool)
      requires Valid() && pod != null && max > 0 && x < max
      ensures on == Bit(pod[..], x)
    {
      on := pod[x / 64][x % 64];
    }

    /** `ba_clear`. */
    method BaClear()
      requires Valid()
      modifies pod
      ensures pod != null ==> pod[..] == Cleared(old(pod[..]), Pods(max))
    {
      var maxP := Pods(max);
      if pod == null {
        return;
      }
      var i := 0;
      while i < maxP
        invariant i <= maxP
        invariant forall j :: 0 <= j < i ==> pod[j] == Zero
        invariant forall j :: i <= j < pod.Length ==> pod[j] == old(pod[j])
      {
        pod[i] := Zero;
        i := i + 1;
      }
      assert forall j :: 0 <= j < pod.Length ==> pod[..][j] == Cleared(old(pod[..]), maxP)[j];
    }

    /** `ba_setnot`. */
    method BaSetNot()
      requires Valid()
      modifies pod
      ensures pod != null ==> pod[..] == Flipped(old(pod[..]), Pods(max))
    {
      var maxP := Pods(max);
      if pod == null {
        return;
      }
      var i := 0;
      while i < maxP
        invariant i <= maxP
        invariant forall j :: 0 <= j < i ==> pod[j] == Complement(old(pod[j]))
        invariant forall j :: i <= j < pod.Length ==> pod[j] == old(pod[j])
      {
        pod[i] := Complement(pod[i]);
        i := i + 1;
      }
      assert forall j :: 0 <= j < pod.Length ==> pod[..][j] == Flipped(old(pod[..]), maxP)[j];
    }

    /** `ba_init`; `allocates` says whether the allocator returns memory. On
        failure the set is left uninitialised. */
    method BaInit(newMax: nat, allocates: bool) returns (ok: bool)
      modifies this
      ensures Valid()
      ensures ok == allocates
      ensures ok ==> max == newMax && pod != null && fresh(pod)
      ensures ok ==> forall j :: 0 <= j < pod.Length ==> pod[j] == Zero
      ensures !ok ==> max == 0 && pod == null
    {
      var maxP := Pods(newMax);
      max := 0;
      pod := null;
      ok := allocates;
      if ok {
        var ptr := new Word[maxP];
        max := newMax;
        pod := ptr;
        var i := 0;
        while i < maxP
          invariant i <= maxP && pod == ptr && max == newMax
          invariant forall j :: 0 <= j < i ==> ptr[j] == Zero
        {
          ptr[i] := Zero;
          i := i + 1;
        }
      }
    }

    /** `ba_done`. */
    method BaDone()
      requires Valid() && pod != null
      modifies this
      ensures Valid() && pod == null && max == 0
    {
      pod := null;
      max := 0;
    }
  }
}
