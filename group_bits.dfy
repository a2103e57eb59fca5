/** The bit arrays local to `groups.c` (`BA` and `BB` of the
    simplification pass): a static pod of 64-bit words and a bound, with
    their own `ba_put`, `ba_ison`, `ba_init` and `ba_done`. */
module GroupBits {
  import opened CText
  import opened BitArray


  /** The words of the local pod as declared, `MAXPLAYERS/64`. */
  const PodWordsAsWritten: nat := MaxPlayers / 64

  /** The words needed for bits 0 to MAXPLAYERS - 1, the size the pod needs
      for `ba_init(&BA, MAXPLAYERS)`. */
  const PodWords: nat := Pods(MaxPlayers)

  /** The local `ba_put` on a pod of |w| words as written: the word index
      is not checked against the pod, so None when x < max lies past it. */
  function PutAsWritten(w: seq<Word>, max: nat, x: nat): (r: Option<seq<Word>>)
    ensures r.None? <==> x < max && x / 64 >= |w|
    ensures r.Some? ==> |r.value| == |w|
    ensures r.Some? && x < max ==> Bit(r.value, x)
  {
    if x >= max then Some(w)
    else if x / 64 < |w| then Some(w[x / 64 := w[x / 64][x % 64 := true]])
    else None
  }

  /** With the declared pod and `ba_init(&BA, MAXPLAYERS)`, putting the
      last player writes past the pod. */
  lemma PodOverflow(w: seq<Word>)
    requires |w| == PodWordsAsWritten
    ensures PutAsWritten(w, MaxPlayers, MaxPlayers - 1).None?
  {
  }

  /** The clearing loop of the local `ba_init` and `ba_done` as written:
      only the max/64 whole words are cleared. */
  function ClearAsWritten(w: seq<Word>, max: nat): (r: seq<Word>)
    requires max / 64 <= |w|
    ensures |r| == |w|
    ensures forall y :: 0 <= y < WordBits * (max / 64) ==> !Bit(r, y)
    ensures forall j :: max / 64 <= j < |w| ==> r[j] == w[j]
  {
    Cleared(w, max / 64)
  }

  /** The floor leaves the last, partial word of max as it was: when the pod
      holds that word, a bit of it below max that was on stays on after
      `ba_init(max)` or after `ba_done` with that max (for max = 100, bit 69
      of word 1). */
  lemma StaleBitSurvives(w: seq<Word>, max: nat, x: nat)
    requires max / 64 < |w| && x < max && x / 64 == max / 64 && Bit(w, x)
    ensures Bit(ClearAsWritten(w, max), x)
  {
    assert ClearAsWritten(w, max)[x / 64] == w[x / 64];
  }

  /** On a pod large enough for MAXPLAYERS bits, bit MAXPLAYERS - 1 left on
      by an earlier pass stays on after `ba_init(&BA, MAXPLAYERS)`. */
  lemma StaleBitAfterInit(w: seq<Word>)
    requires |w| == PodWords && Bit(w, MaxPlayers - 1)
    ensures MaxPlayers - 1 < WordBits * |w| && Bit(ClearAsWritten(w, MaxPlayers), MaxPlayers - 1)
  {
    StaleBitSurvives(w, MaxPlayers, MaxPlayers - 1);
  }

  /** With the pod as declared, every bound `groups.c` passes (MAXPLAYERS,
      MAXPLAYERS - 1 and MAXPLAYERS - 2) has max/64 equal to the pod's size,
      so the as-written clearing zeroes the whole pod: the partial last word
      lies past the pod, and no stale bit remains inside it. */
  lemma DeclaredPodAllCleared(w: seq<Word>, max: nat, x: nat)
    requires |w| == PodWordsAsWritten && MaxPlayers - 2 <= max <= MaxPlayers
    requires x < WordBits * |w|
    ensures !Bit(ClearAsWritten(w, max), x)
  {
    assert max / 64 == |w|;
    assert ClearAsWritten(w, max)[x / 64] == Zero;
  }

  /** The local `struct BITARRAY`, a static pod of words and the bound
      max, with the pod sized for MAXPLAYERS bits and the partial last word
      cleared. */
  class LocalBits {
    var pod: array<Word>
    var max: nat

    ghost predicate Valid()
      reads this
    {
      pod.Length == PodWords && max <= MaxPlayers
    }

    /** Static storage: every word zero and max 0. */
    constructor ()
      ensures Valid() && max == 0 && forall j :: 0 <= j < pod.Length ==> pod[j] == Zero
    {
      pod := new Word[PodWords](_ => Zero);
      max := 0;
    }

    /** `ba_put`: bit x is set when x < max, nothing otherwise. */
    method BaPut(x: nat)
      requires Valid()
      modifies pod
      ensures pod[..] == Put(old(pod[..]), max, x)
    {
      if x < max {
        pod[x / 64] := pod[x / 64][x % 64 := true];
      }
    }

    /** `ba_ison`: bit x. The source checks neither max nor the pod; the
        caller keeps x inside the pod. */
    method BaIsOn(x: nat) returns (on: bool)
      requires Valid() && x < WordBits * pod.Length
      ensures on == Bit(pod[..], x)
    {
      on := pod[x / 64][x % 64];
    }

    /** `ba_init`: max becomes newMax and the words holding the bits below
        it are cleared. */
    method BaInit(newMax: nat)
      requires Valid() && newMax <= MaxPlayers
      modifies this, pod
      ensures Valid() && max == newMax && pod == old(pod)
      ensures pod[..] == Cleared(old(pod[..]), Pods(newMax))
    {
      max := newMax;
      ClearWords(pod, Pods(newMax));
    }

    /** `ba_done`, corrected as `ba_init` is: the words holding the bits
        below max, the partial last word included, are cleared, so none of
        those bits is on afterwards, and max becomes 0. */
    method BaDone()
      requires Valid()
      modifies this, pod
      ensures Valid() && max == 0 && pod == old(pod)
      ensures pod[..] == Cleared(old(pod[..]), Pods(old(max)))
      ensures forall y :: 0 <= y < old(max) ==> !Bit(pod[..], y)
    {
      ghost var w, m := pod[..], max;
      ClearWords(pod, Pods(max));
      max := 0;
      forall y | 0 <= y < m
        ensures !Bit(pod[..], y)
      {
        ClearedAllOff(w, m, y);
      }
    }
  }

  /** The clearing loop of `ba_init` and `ba_done`: the first k words become
      zero. */
  method ClearWords(pod: array<Word>, k: nat)
    requires k <= pod.Length
    modifies pod
    ensures pod[..] == Cleared(old(pod[..]), k)
  {
    ghost var w := pod[..];
    var i := 0;
    while i < k
      invariant i <= k
      invariant forall j :: 0 <= j < pod.Length ==> pod[j] == (if j < i then Zero else w[j])
    {
      pod[i] := Zero;
      i := i + 1;
    }
    assert forall j :: 0 <= j < pod.Length ==> pod[..][j] == Cleared(w, k)[j];
  }

  /** After `ba_init(max)`, whatever the pod held, no bit below max is on;
      a `ba_put` then turns on exactly its own bit. */
  lemma InitThenPut(w: seq<Word>, max: nat, x: nat, y: nat)
    requires |w| == PodWords && max <= MaxPlayers && x < max && y < max
    ensures Bit(Put(Cleared(w, Pods(max)), max, x), y) == (y == x)
  {
    ClearedAllOff(w, max, y);
    PutSetsOnlyX(Cleared(w, Pods(max)), max, x, y);
  }

}
