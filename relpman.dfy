/** The relative-prior manager: relative priors are kept in a chain of
    fixed-size blocks, a new block being chained when the last one is full,
    and are read back one at a time by a cursor or copied to one array.
    The chain is the sequence of its blocks, first to last, each block a
    value; the cursor names a block by its place in that sequence. The
    capacity of a block (`MAX_RPBLOCK`) is a parameter, and whether an
    allocation succeeds is a parameter of the operations that allocate. */
module RelpMan {
  import opened CText

  /** The units of the blocks, block after block. */
  function Flatten<T>(ps: seq<seq<T>>): seq<T>
  {
    if ps == [] then [] else ps[0] + Flatten(ps[1..])
  }

  lemma {:induction false} FlattenAppend<T>(a: seq<seq<T>>, b: seq<seq<T>>)
    ensures Flatten(a + b) == Flatten(a) + Flatten(b)
    decreases |a|
  {
    if a == [] {
      assert a + b == b;
    } else {
      assert (a + b)[0] == a[0] && (a + b)[1..] == a[1..] + b;
      FlattenAppend(a[1..], b);
    }
  }

  /** The units of the first k + 1 blocks are those of the first k and
      then those of block k. */
  lemma FlattenSnoc<T>(ps: seq<seq<T>>, k: nat)
    requires k < |ps|
    ensures Flatten(ps[..k + 1]) == Flatten(ps[..k]) + ps[k]
  {
    assert ps[..k + 1] == ps[..k] + [ps[k]];
    FlattenAppend(ps[..k], [ps[k]]);
    assert [ps[k]][1..] == [];
  }

  /** Unit j of block k sits at the number of units before block k plus j. */
  lemma FlattenAt<T>(ps: seq<seq<T>>, k: nat, j: nat)
    requires k < |ps| && j <= |ps[k]|
    ensures |Flatten(ps[..k])| + |ps[k]| <= |Flatten(ps)|
    ensures j < |ps[k]| ==> Flatten(ps)[|Flatten(ps[..k])| + j] == ps[k][j]
  {
    assert ps == ps[..k + 1] + ps[k + 1..];
    FlattenAppend(ps[..k + 1], ps[k + 1..]);
    FlattenSnoc(ps, k);
  }

  /** `rpblock_t` without its link: the buffer u of sz slots, the first n
      of them in use. */
  datatype Block = Block(u: seq<RelPrior>, n: nat, sz: nat)

  /** What a slot holds before anything is stored in it. */
  const Filler := RelPrior(0, 0, 0.0, 0.0)

  /** A block as the manager keeps it: room for cap units, n of them used. */
  predicate BlockOk(b: Block, cap: nat)
  {
    |b.u| == cap && b.sz == cap && b.n <= b.sz
  }

  /** The units in use in a block. */
  function Used(b: Block): seq<RelPrior>
    requires b.n <= |b.u|
  {
    b.u[..b.n]
  }

  /** `rpblock_clear`: no unit in use and room for cap; the buffer is kept. */
  function Clear(b: Block, cap: nat): (r: Block)
    ensures r.u == b.u && r.sz == cap
    ensures r.n <= |r.u| && Used(r) == []
  {
    Block(b.u, 0, cap)
  }

  /** `rpblock_create` when the allocation succeeds: a cleared block. */
  function Create(cap: nat): (r: Block)
    ensures BlockOk(r, cap) && Used(r) == []
  {
    Clear(Block(seq(cap, _ => Filler), cap, cap), cap)
  }

  /** The outcome of `rpblock_add`: whether it succeeded, the block added
      to, and the block chained after it, if one was created. */
  datatype AddOutcome = AddOutcome(ok: bool, b: Block, next: Option<Block>)

  /** `rpblock_add`: x goes to the first free slot; a full block chains a
      new block that takes x, and when that block cannot be allocated
      nothing changes and the result is false. */
  function Add(b: Block, x: RelPrior, cap: nat, allocOk: bool): (r: AddOutcome)
    requires BlockOk(b, cap) && cap > 0
    ensures r.ok <==> b.n < b.sz || allocOk
    ensures !r.ok ==> r.b == b && r.next.None?
    ensures r.next.Some? <==> r.ok && b.n == b.sz
    ensures BlockOk(r.b, cap) && (r.next.Some? ==> BlockOk(r.next.value, cap))
    ensures r.next.Some? ==> r.b == b && Used(r.next.value) == [x]
    ensures r.ok && r.next.None? ==> Used(r.b) == Used(b) + [x]
  {
    if b.n == b.sz then
      if allocOk then
        var t := Create(cap);
        var t := t.(u := t.u[0 := x], n := 1);
        assert Used(t) == [t.u[0]];
        AddOutcome(true, b, Some(t))
      else AddOutcome(false, b, None)
    else
      var q := b.(u := b.u[b.n := x], n := b.n + 1);
      assert Used(q) == Used(b) + [x];
      AddOutcome(true, q, None)
  }

  /** Every block of a chain is one the manager keeps. */
  predicate ChainOk(bs: seq<Block>, cap: nat)
  {
    forall k :: 0 <= k < |bs| ==> BlockOk(bs[k], cap)
  }

  /** Every block of a chain but the last is full. */
  predicate FullButLast(bs: seq<Block>, cap: nat)
  {
    forall k :: 0 <= k < |bs| - 1 ==> bs[k].n == cap
  }

  /** The units in use of each block of a chain. */
  function Parts(bs: seq<Block>): (r: seq<seq<RelPrior>>)
    requires forall k :: 0 <= k < |bs| ==> bs[k].n <= |bs[k].u|
    ensures |r| == |bs| && forall k :: 0 <= k < |bs| ==> r[k] == Used(bs[k])
  {
    seq(|bs|, k requires 0 <= k < |bs| => Used(bs[k]))
  }

  /** The chain after `rpblock_add` on its last block: that block as
      updated, and the new block after it when one was created. */
  function AfterAdd(bs: seq<Block>, r: AddOutcome): seq<Block>
    requires bs != []
  {
    bs[..|bs| - 1] + [r.b] + (if r.next.Some? then [r.next.value] else [])
  }

  /** A successful `rpblock_add` on the last block of a chain keeps every
      block but the last full, leaves the blocks before the last as they
      were and never takes units from the last. */
  lemma AddKeepsChain(bs: seq<Block>, x: RelPrior, cap: nat, allocOk: bool)
    requires bs != [] && cap > 0 && ChainOk(bs, cap) && FullButLast(bs, cap)
    requires Add(bs[|bs| - 1], x, cap, allocOk).ok
    ensures var bs' := AfterAdd(bs, Add(bs[|bs| - 1], x, cap, allocOk));
      ChainOk(bs', cap) && FullButLast(bs', cap)
      && bs'[..|bs| - 1] == bs[..|bs| - 1] && bs'[|bs| - 1].n >= bs[|bs| - 1].n
  {
    var m := |bs| - 1;
    var r := Add(bs[m], x, cap, allocOk);
    var c := [r.b] + (if r.next.Some? then [r.next.value] else []);
    var bs' := AfterAdd(bs, r);
    assert bs' == bs[..m] + c;
    forall k | 0 <= k < |bs'|
      ensures BlockOk(bs'[k], cap) && (k < |bs'| - 1 ==> bs'[k].n == cap)
    {
      if k < m {
        assert bs'[k] == bs[k];
      } else {
        assert bs'[k] == c[k - m];
      }
    }
  }

  /** A successful `rpblock_add` on the last block of a chain appends x to
      the chain's units. */
  lemma AddAppendsUnit(bs: seq<Block>, x: RelPrior, cap: nat, allocOk: bool)
    requires bs != [] && cap > 0 && ChainOk(bs, cap)
    requires Add(bs[|bs| - 1], x, cap, allocOk).ok
    requires ChainOk(AfterAdd(bs, Add(bs[|bs| - 1], x, cap, allocOk)), cap)
    ensures Flatten(Parts(AfterAdd(bs, Add(bs[|bs| - 1], x, cap, allocOk)))) == Flatten(Parts(bs)) + [x]
  {
    var m := |bs| - 1;
    var r := Add(bs[m], x, cap, allocOk);
    var c := [r.b] + (if r.next.Some? then [r.next.value] else []);
    var bs' := AfterAdd(bs, r);
    assert bs' == bs[..m] + c;
    assert Parts(bs') == Parts(bs)[..m] + Parts(c);
    FlattenAppend(Parts(bs)[..m], Parts(c));
    assert Parts(bs)[..m + 1] == Parts(bs);
    FlattenSnoc(Parts(bs), m);
    if r.next.Some? {
      assert Parts(c) == [Used(r.b), Used(r.next.value)];
      FlattenShort(Used(r.b), Used(r.next.value));
    } else {
      assert Parts(c) == [Used(r.b)];
      FlattenShort(Used(r.b), []);
    }
  }

  /** Chains that agree on their first k blocks agree on those blocks'
      units. */
  lemma PartsPrefix(bs: seq<Block>, bs': seq<Block>, k: nat)
    requires k <= |bs| && k <= |bs'| && bs[..k] == bs'[..k]
    requires forall j :: 0 <= j < |bs| ==> bs[j].n <= |bs[j].u|
    requires forall j :: 0 <= j < |bs'| ==> bs'[j].n <= |bs'[j].u|
    ensures Parts(bs)[..k] == Parts(bs')[..k]
  {
    assert forall j :: 0 <= j < k ==> bs[j] == bs[..k][j];
  }

  /** A chain whose blocks but the last are full holds cap units per block
      but the last. */
  lemma {:induction false} FullCount(bs: seq<Block>, cap: nat)
    requires bs != [] && ChainOk(bs, cap) && FullButLast(bs, cap)
    ensures |Flatten(Parts(bs))| == (|bs| - 1) * cap + bs[|bs| - 1].n
    decreases |bs|
  {
    assert Parts(bs)[1..] == Parts(bs[1..]);
    if |bs| > 1 {
      FullCount(bs[1..], cap);
      MulSucc(|bs| - 2, cap);
    } else {
      assert Parts(bs[1..]) == [];
    }
  }

  lemma MulSucc(a: nat, c: nat)
    ensures (a + 1) * c == a * c + c
  {
  }

  /** The units of a chain of one or two blocks. */
  lemma FlattenShort(a: seq<RelPrior>, b: seq<RelPrior>)
    ensures Flatten([a]) == a && Flatten([a, b]) == a + b
  {
    assert [a][1..] == [];
    assert [a, b][1..] == [b] && [b][1..] == [];
  }

  /** `struct rpmanager`: the chain from `first` to `last` and the cursor
      made of the block `p` and the index `i` within it. */
  class Manager {
    const cap: nat
    /** The chain, first block to last; empty when `first` and `last` are
        null. */
    var blocks: seq<Block>
    /** The place of the cursor's block in the chain; None when `p` is null. */
    var p: Option<nat>
    var i: nat

    /** Every block has room for cap units, every block but the last is
        full, and the cursor points into its block. */
    ghost predicate Valid()
      reads this
    {
      cap > 0 && ChainOk(blocks, cap) && FullButLast(blocks, cap)
      && (p.Some? ==> p.value < |blocks| && i <= blocks[p.value].n)
    }

    /** The units in the chain, block after block. */
    ghost function Units(): seq<RelPrior>
      requires Valid()
      reads this
    {
      Flatten(Parts(blocks))
    }

    /** The number of units before the cursor. */
    ghost function Position(): nat
      requires Valid() && p.Some?
      reads this
    {
      |Flatten(Parts(blocks)[..p.value])| + i
    }

    /** The cursor never passes the last unit. */
    lemma PositionBound()
      requires Valid() && p.Some?
      ensures Position() <= |Units()|
    {
      FlattenAt(Parts(blocks), p.value, i);
    }

    /** Only the last block may have free slots, so the chain holds cap units
        per block but the last. */
    lemma CountByBlocks()
      requires Valid() && blocks != []
      ensures |Units()| == (|blocks| - 1) * cap + blocks[|blocks| - 1].n
    {
      FullCount(blocks, cap);
    }

    /** A manager before `rpman_init`: no chain and no cursor. */
    constructor (maxRpblock: nat)
      requires maxRpblock > 0
      ensures cap == maxRpblock && blocks == [] && p.None? && i == 0 && Valid()
    {
      cap := maxRpblock;
      blocks := [];
      p := None;
      i := 0;
    }

    /** `rpman_init`: the chain is one new empty block, or none when it
        cannot be allocated; the cursor is null either way. */
    method Init(allocOk: bool) returns (ok: bool)
      requires cap > 0
      modifies this
      ensures ok == allocOk && Valid() && p.None? && i == 0
      ensures ok ==> blocks == [Create(cap)] && Units() == []
      ensures !ok ==> blocks == []
    {
      if allocOk {
        blocks := [Create(cap)];
        assert Parts(blocks) == [Used(blocks[0])];
        FlattenShort(Used(blocks[0]), []);
      } else {
        blocks := [];
      }
      p := None;
      i := 0;
      ok := allocOk;
    }

    /** `rpman_done`: first, last and the cursor become null. */
    method Done()
      modifies this
      ensures blocks == [] && p.None? && i == 0
      ensures cap > 0 ==> Valid()
    {
      blocks := [];
      p := None;
      i := 0;
    }

    /** `rpman_count`: the number of units in the chain. */
    method Count() returns (count: nat)
      requires Valid()
      ensures count == |Units()|
    {
      count := 0;
      var k := 0;
      while k < |blocks|
        invariant k <= |blocks|
        invariant count == |Flatten(Parts(blocks)[..k])|
      {
        FlattenSnoc(Parts(blocks), k);
        count := count + blocks[k].n;
        k := k + 1;
      }
      assert Parts(blocks)[..k] == Parts(blocks);
    }

    /** `rpman_parkstart`: the cursor goes to the first unit of the first
        block (null when there is no chain). */
    method ParkStart()
      requires Valid()
      modifies this
      ensures blocks == old(blocks) && Valid()
      ensures p == (if blocks == [] then None else Some(0)) && i == 0
      ensures p.Some? ==> Position() == 0
    {
      i := 0;
      p := if blocks == [] then None else Some(0);
    }

    /** `rpman_pointnext_unit`: the unit at the cursor, which then moves
        one unit on, skipping the blocks that are used up; at the end of
        the chain the result is None and the cursor stays put. */
    method PointNextUnit() returns (r: Option<RelPrior>)
      requires Valid() && p.Some?
      modifies this
      ensures blocks == old(blocks) && Valid() && p.Some?
      ensures old(Position()) < |Units()| ==> r == Some(Units()[old(Position())]) && Position() == old(Position()) + 1
      ensures old(Position()) >= |Units()| ==> r.None? && p == old(p) && i == old(i)
    {
      var bs := blocks;
      ghost var ps := Parts(bs);
      ghost var pos := Position();
      var q := p.value;
      var j: nat := i;
      while j == bs[q].n
        invariant unchanged(this)
        invariant q < |bs| && j <= bs[q].n
        invariant |Flatten(ps[..q])| + j == pos
        decreases |bs| - q
      {
        FlattenSnoc(ps, q);
        if q + 1 == |bs| {
          assert ps[..q + 1] == ps;
          return None;
        }
        q := q + 1;
        j := 0;
      }
      FlattenAt(ps, q, j);
      r := Some(bs[q].u[j]);
      p := Some(q);
      i := j + 1;
    }

    /** `rpman_add_unit`: x joins the chain at its end. When the last block
        is full a new block is chained and becomes the last; when that block
        cannot be allocated nothing changes and the result is false. The
        cursor keeps its place. */
    method AddUnit(x: RelPrior, allocOk: bool) returns (ok: bool)
      requires Valid() && blocks != []
      modifies this
      ensures ok <==> old(blocks[|blocks| - 1].n) < cap || allocOk
      ensures Valid() && p == old(p) && i == old(i)
      ensures ok ==> Units() == old(Units()) + [x]
      ensures !ok ==> blocks == old(blocks)
      ensures |blocks| == old(|blocks|) + (if ok && old(blocks[|blocks| - 1].n) == cap then 1 else 0)
      ensures p.Some? ==> Position() == old(Position())
    {
      var m := |blocks| - 1;
      var res := Add(blocks[m], x, cap, allocOk);
      ok := res.ok;
      if ok {
        AddKeepsChain(blocks, x, cap, allocOk);
        AddAppendsUnit(blocks, x, cap, allocOk);
        ghost var old0 := blocks;
        blocks := AfterAdd(blocks, res);
        if p.Some? {
          PartsPrefix(old0, blocks, p.value);
        }
      }
    }

    /** The copy loop of `rpman_to_newarray`: from the start, every unit the
        cursor reaches goes to the next slot of a. */
    method CopyOut(a: array<RelPrior>)
      requires Valid() && blocks != [] && a.Length == |Units()|
      modifies this, a
      ensures blocks == old(blocks) && Valid() && a[..] == Units()
      ensures p.Some? && Position() == |Units()|
    {
      ghost var us := Units();
      ParkStart();
      var j := 0;
      PositionBound();
      var r := PointNextUnit();
      while r.Some?
        invariant Valid() && blocks == old(blocks) && p.Some? && us == Units()
        invariant r.Some? ==> j < |us| && r.value == us[j] && Position() == j + 1
        invariant r.None? ==> j == |us| && Position() == |us|
        invariant a.Length == |us| && a[..j] == us[..j]
        decreases |us| - j
      {
        a[j] := r.value;
        j := j + 1;
        PositionBound();
        r := PointNextUnit();
      }
      assert us[..j] == us;
    }

    /** `rpman_to_newarray`: a new array holding the chain's units in order,
        filled through the cursor; its size goes to psz. When the array
        cannot be allocated the result is null and psz keeps its value. */
    method ToNewArray(allocOk: bool, psz: nat) returns (a: array?<RelPrior>, newPsz: nat)
      requires Valid() && blocks != []
      modifies this
      ensures blocks == old(blocks) && Valid()
      ensures a == null <==> !allocOk
      ensures a == null ==> newPsz == psz
      ensures a != null ==> fresh(a) && a[..] == Units() && newPsz == a.Length
      ensures a == null ==> p == old(p) && i == old(i)
      ensures a != null ==> p.Some? && Position() == |Units()|
    {
      var sz := Count();
      if !allocOk {
        return null, psz;
      }
      a := new RelPrior[sz](_ => Filler);
      CopyOut(a);
      newPsz := sz;
    }
  }
}
