/** The player-name hash table: the djb2 string hash, 4096 pods of at most
    eight (player, hash) entries chosen by the low twelve bits of the hash,
    and one shared overflow array of at most 65536 entries. Player names
    live in the caller's database, here the sequence `names` indexed by
    player. */
module NameHash {
  import opened CText

  const PeaPerPod: nat := 8
  const PodBits: nat := 12
  const PodMax: nat := 4096
  const PeaRemMax: nat := 65536

  /** The seed of djb2. */
  const HashSeed: U32 := 5381

  /** The byte a string character contributes: `(unsigned char)chr`. */
  function Byte(c: char): nat
  {
    (c as int) % 256
  }

  /** One step of djb2: `(hash << 5) + hash + c` in uint32_t, i.e.
      hash * 33 + c modulo 2^32. */
  function Mix(h: U32, c: char): U32
  {
    (h * 33 + Byte(c)) % Modulus
  }

  /** `namehash(s)`, defined by the last character of s. */
  function Hash(s: string): U32
  {
    if s == [] then HashSeed else Mix(Hash(s[..|s| - 1]), s[|s| - 1])
  }

  /** An independent reading of djb2: fold the characters in from the
      left, starting from h. */
  function FoldFrom(h: U32, s: string): U32
    decreases |s|
  {
    if s == [] then h else FoldFrom(Mix(h, s[0]), s[1..])
  }

  /** Folding a string one character longer is one more step. */
  lemma {:induction false} FoldSnoc(h: U32, s: string, c: char)
    ensures FoldFrom(h, s + [c]) == Mix(FoldFrom(h, s), c)
    decreases |s|
  {
    if s != [] {
      assert (s + [c])[1..] == s[1..] + [c];
      FoldSnoc(Mix(h, s[0]), s[1..], c);
    } else {
      assert [c][1..] == [];
    }
  }

  /** The two readings agree: `namehash` is the left fold of Mix over the
      bytes, starting from 5381. */
  lemma {:induction false} HashIsFold(s: string)
    ensures Hash(s) == FoldFrom(HashSeed, s)
    decreases |s|
  {
    if s != [] {
      var init := s[..|s| - 1];
      HashIsFold(init);
      FoldSnoc(HashSeed, init, s[|s| - 1]);
      assert init + [s[|s| - 1]] == s;
    }
  }

  /** Appending a character adds one Mix step: namehash(s + c) is
      namehash(s) * 33 + c modulo 2^32. */
  lemma HashSnoc(s: string, c: char)
    ensures Hash(s + [c]) == (Hash(s) * 33 + Byte(c)) % Modulus
  {
    assert (s + [c])[..|s|] == s;
  }

  /** `namehash`: the loop over the characters of the C string. */
  method NameHashOf(s: string) returns (h: U32)
    requires NoNul(s)
    ensures h == Hash(s)
  {
    h := HashSeed;
    var i := 0;
    while i < |s|
      invariant 0 <= i <= |s|
      invariant h == Hash(s[..i])
    {
      HashSnoc(s[..i], s[i]);
      assert s[..i] + [s[i]] == s[..i + 1];
      h := Mix(h, s[i]);
      i := i + 1;
    }
    assert s[..|s|] == s;
  }

  /** `hash & PODMASK`: the pod of a hash, its low twelve bits. */
  function PodOf(hash: U32): (j: nat)
    ensures j < PodMax
  {
    hash % PodMax
  }

  /** One table entry: a player index and the hash of its name. */
  datatype Pea = Pea(pidx: nat, hash: U32)

  /** Entry e stands for the name s with hash `hash` in the database. */
  predicate Hit(e: Pea, names: seq<string>, s: string, hash: U32)
  {
    e.hash == hash && e.pidx < |names| && names[e.pidx] == s
  }

  /** Every entry names a player the database knows (the source asserts
      `database_getname` is not NULL). */
  predicate Known(peas: seq<Pea>, names: seq<string>)
  {
    forall k :: 0 <= k < |peas| ==> peas[k].pidx < |names|
  }

  /** The position of the first hit among peas, if any. */
  function FirstHit(peas: seq<Pea>, names: seq<string>, s: string, hash: U32): (r: Option<nat>)
    ensures r.Some? ==> r.value < |peas| && Hit(peas[r.value], names, s, hash)
    ensures r.Some? ==> forall k :: 0 <= k < r.value ==> !Hit(peas[k], names, s, hash)
    ensures r.None? ==> forall k :: 0 <= k < |peas| ==> !Hit(peas[k], names, s, hash)
  {
    if peas == [] then None
    else if Hit(peas[0], names, s, hash) then Some(0)
    else
      var t := FirstHit(peas[1..], names, s, hash);
      if t.Some? then Some(t.value + 1) else None
  }

  /** An entry appended for s is found, unless an earlier entry is. */
  lemma HitAfterAppend(peas: seq<Pea>, names: seq<string>, s: string, i: nat)
    requires i < |names| && names[i] == s
    ensures FirstHit(peas + [Pea(i, Hash(s))], names, s, Hash(s)).Some?
  {
    var all := peas + [Pea(i, Hash(s))];
    assert Hit(all[|peas|], names, s, Hash(s));
  }

  /** Appending never changes a hit that was already there. */
  lemma HitKept(peas: seq<Pea>, e: Pea, names: seq<string>, s: string, hash: U32)
    requires FirstHit(peas, names, s, hash).Some?
    ensures FirstHit(peas + [e], names, s, hash) == FirstHit(peas, names, s, hash)
  {
    var k := FirstHit(peas, names, s, hash).value;
    var all := peas + [e];
    assert all[k] == peas[k];
    assert forall j :: 0 <= j < k ==> all[j] == peas[j];
    FirstHitUnique(all, names, s, hash, k);
  }

  /** A hit with no hit before it is the first hit. */
  lemma FirstHitUnique(peas: seq<Pea>, names: seq<string>, s: string, hash: U32, k: nat)
    requires k < |peas| && Hit(peas[k], names, s, hash)
    requires forall j :: 0 <= j < k ==> !Hit(peas[j], names, s, hash)
    ensures FirstHit(peas, names, s, hash) == Some(k)
  {
    var r := FirstHit(peas, names, s, hash);
    assert r.Some?;
    assert !(r.value < k);
  }

  /** The pods and the overflow array. */
  class NameTable {
    /** `Namehashtab[j].pea[0 .. n)` for each pod j. */
    var pods: seq<seq<Pea>>
    /** `Nameremains[0 .. Nameremains_n)`. */
    var remains: seq<Pea>

    /** There are PodMax pods, each within PEAXPOD entries, the overflow
        within PEA_REM_MAX, and every pod entry sits in the pod of its hash. */
    predicate Valid()
      reads this
    {
      |pods| == PodMax && |remains| <= PeaRemMax
      && (forall j :: 0 <= j < PodMax ==> |pods[j]| <= PeaPerPod)
      && (forall j, k :: 0 <= j < PodMax && 0 <= k < |pods[j]| ==> PodOf(pods[j][k].hash) == j)
    }

    /** The table as the static storage starts: every pod and the overflow
        array empty. */
    constructor ()
      ensures Valid()
      ensures pods == seq(PodMax, _ => []) && remains == []
    {
      pods := seq(PodMax, _ => []);
      remains := [];
    }

    /** Every entry names a known player. */
    predicate Indexes(names: seq<string>)
      reads this
      requires Valid()
    {
      Known(remains, names) && forall j :: 0 <= j < PodMax ==> Known(pods[j], names)
    }

    /** `name_register(hash, i)`: the entry goes to its pod while that has
        room, else to the overflow array while that has room; when both are
        full it fails and nothing changes. */
    method Register(hash: U32, i: nat) returns (ok: bool)
      requires Valid()
      modifies this
      ensures Valid()
      ensures var j := PodOf(hash);
        if |old(pods)[j]| < PeaPerPod then
          ok && pods == old(pods)[j := old(pods)[j] + [Pea(i, hash)]] && remains == old(remains)
        else if |old(remains)| < PeaRemMax then
          ok && pods == old(pods) && remains == old(remains) + [Pea(i, hash)]
        else
          !ok && pods == old(pods) && remains == old(remains)
    {
      var j := PodOf(hash);
      if |pods[j]| < PeaPerPod {
        pods := pods[j := pods[j] + [Pea(i, hash)]];
        return true;
      } else if |remains| < PeaRemMax {
        remains := remains + [Pea(i, hash)];
        return true;
      } else {
        return false;
      }
    }

    /** The player `name_ispresent` reports: the first hit of the hash's
        pod, otherwise the first hit of the overflow array. */
    function Lookup(names: seq<string>, s: string, hash: U32): (r: Option<nat>)
      reads this
      requires Valid()
      ensures r.Some? ==> r.value < |names| && names[r.value] == s
    {
      var pod := pods[PodOf(hash)];
      var a := FirstHit(pod, names, s, hash);
      if a.Some? then Some(pod[a.value].pidx)
      else
        var b := FirstHit(remains, names, s, hash);
        if b.Some? then Some(remains[b.value].pidx) else None
    }

    /** `name_ispresent(d, s, hash, out_index)`: search the pod, then the
        overflow array, for an entry with this hash whose stored name is s.
        When nothing is found, the caller's `out_index` comes back as it
        was. */
    method IsPresent(names: seq<string>, s: string, hash: U32, outIndex: nat) returns (found: bool, index: nat)
      requires Valid() && Indexes(names)
      ensures found <==> Lookup(names, s, hash).Some?
      ensures found ==> index == Lookup(names, s, hash).value && names[index] == s
      ensures !found ==> index == outIndex
    {
      index := outIndex;
      var pod := pods[PodOf(hash)];
      var i := 0;
      while i < |pod|
        invariant 0 <= i <= |pod|
        invariant forall k :: 0 <= k < i ==> !Hit(pod[k], names, s, hash)
      {
        if pod[i].hash == hash && names[pod[i].pidx] == s {
          FirstHitUnique(pod, names, s, hash, i);
          return true, pod[i].pidx;
        }
        i := i + 1;
      }
      i := 0;
      while i < |remains|
        invariant 0 <= i <= |remains|
        invariant forall k :: 0 <= k < i ==> !Hit(remains[k], names, s, hash)
      {
        if remains[i].hash == hash && names[remains[i].pidx] == s {
          FirstHitUnique(remains, names, s, hash, i);
          return true, remains[i].pidx;
        }
        i := i + 1;
      }
      return false, index;
    }
  }

  /** Register a player under the hash of its name, then look the name up:
      after a successful registration the name is always present. */
  method RegisterThenFind(t: NameTable, names: seq<string>, i: nat) returns (ok: bool, found: bool)
    requires t.Valid() && t.Indexes(names) && i < |names|
    modifies t
    ensures t.Valid()
    ensures ok ==> found
  {
    var s := names[i];
    var h := Hash(s);
    ok := t.Register(h, i);
    var j := PodOf(h);
    if ok {
      if |old(t.pods)[j]| < PeaPerPod {
        HitAfterAppend(old(t.pods)[j], names, s, i);
      } else {
        assert t.pods[j] == old(t.pods)[j];
        HitAfterAppend(old(t.remains), names, s, i);
      }
    }
    assert t.Indexes(names);
    var idx;
    found, idx := t.IsPresent(names, s, h, 0);
  }
}
