/** A list of strings with a tail pointer and a read cursor. The C list is a
    chain of nodes after a `prehead` sentinel; here the chain is the sequence
    of strings it holds, in push order, and the cursor `curr` is the position
    of the node it points at (None for NULL). Whether `malloc` succeeds is a
    parameter of the operations that allocate. */
module StrList {
  import opened CText

  /** Where `strlist_rwnd` leaves the cursor: the first node, or NULL when
      the list is empty. */
  function Rewound(items: seq<string>): Option<nat>
  {
    if items == [] then None else Some(0)
  }

  /** The string `strlist_next` returns at cursor c (None for NULL). */
  function Yield(items: seq<string>, c: Option<nat>): Option<string>
  {
    if c.Some? && c.value < |items| then Some(items[c.value]) else None
  }

  /** The cursor after `strlist_next`: the next node, NULL past the last one,
      and NULL stays NULL. */
  function Advance(items: seq<string>, c: Option<nat>): Option<nat>
  {
    if c.Some? && c.value + 1 < |items| then Some(c.value + 1) else None
  }

  /** A cursor that is NULL or points at a node of the list. */
  predicate OnList(items: seq<string>, c: Option<nat>)
  {
    c.Some? ==> c.value < |items|
  }

  /** Everything that repeated calls of `strlist_next` return from cursor c
      before the first NULL. */
  function Drain(items: seq<string>, c: Option<nat>): seq<string>
    decreases if c.Some? && c.value < |items| then |items| - c.value else 0
  {
    if c.Some? && c.value < |items| then [items[c.value]] + Drain(items, Advance(items, c)) else []
  }

  /** From the node at k on, the cursor yields the rest of the list in order. */
  lemma {:induction false} DrainFrom(items: seq<string>, k: nat)
    requires k < |items|
    ensures Drain(items, Some(k)) == items[k..]
    decreases |items| - k
  {
    if k + 1 < |items| {
      DrainFrom(items, k + 1);
    }
  }

  /** After `strlist_rwnd`, the cursor yields exactly the pushed strings, in
      push order. */
  lemma RewindDrainsAll(items: seq<string>)
    ensures Drain(items, Rewound(items)) == items
  {
    if items != [] {
      DrainFrom(items, 0);
    }
  }

  /** A push behind a cursor that still points at a node is seen by it; a
      cursor that already reached NULL misses it until the next rewind. */
  lemma {:induction false} PushSeenByLiveCursor(items: seq<string>, c: Option<nat>, s: string)
    requires OnList(items, c)
    ensures c.Some? ==> Drain(items + [s], c) == Drain(items, c) + [s]
    ensures c.None? ==> Drain(items + [s], c) == []
    decreases if c.Some? then |items| - c.value else 0
  {
    if c.Some? {
      var k := c.value;
      assert (items + [s])[k] == items[k];
      if k + 1 < |items| {
        PushSeenByLiveCursor(items, Some(k + 1), s);
      } else {
        assert Advance(items + [s], c) == Some(k + 1);
        assert Advance(items, c) == None;
        assert Drain(items + [s], Some(k + 1)) == [s];
      }
    }
  }

  /** `string_dup`: a fresh copy of s, or None when `malloc` fails. */
  method StringDup(s: string, allocates: bool) returns (r: Option<string>)
    ensures r.Some? <==> allocates
    ensures r.Some? ==> r.value == s
  {
    if !allocates {
      return None;
    }
    var p: string := [];
    var i := 0;
    while i < |s|
      invariant 0 <= i <= |s|
      invariant p == s[..i]
    {
      p := p + [s[i]];
      i := i + 1;
    }
    assert s[..|s|] == s;
    return Some(p);
  }

  class StrList {
    /** The strings of the nodes after `prehead`, in push order. */
    var items: seq<string>
    /** The node `curr` points at, None for NULL. */
    var curr: Option<nat>

    predicate Valid()
      reads this
    {
      OnList(items, curr)
    }

    /** `strlist_init`: an empty list (last is the sentinel), cursor NULL;
        it always succeeds. */
    method Init() returns (ok: bool)
      modifies this
      ensures ok && items == [] && curr == None && Valid()
    {
      items := [];
      curr := None;
      return true;
    }

    /** `strlist_push`: append a copy of s at the tail when both the node
        and the copy can be allocated (`allocNode`, `allocStr`); otherwise
        the list is unchanged. The cursor is never moved. */
    method Push(s: string, allocNode: bool, allocStr: bool) returns (ok: bool)
      requires Valid()
      modifies this
      ensures Valid()
      ensures ok <==> allocNode && allocStr
      ensures items == if ok then old(items) + [s] else old(items)
      ensures curr == old(curr)
    {
      if !allocNode {
        return false;
      }
      var ns := StringDup(s, allocStr);
      if ns.None? {
        return false;
      }
      items := items + [ns.value];
      return true;
    }

    /** `strlist_rwnd`: the cursor goes to the first node (NULL if none). */
    method Rewind()
      modifies this
      ensures Valid()
      ensures items == old(items) && curr == Rewound(items)
    {
      curr := Rewound(items);
    }

    /** `strlist_next`: the string at the cursor, advancing it; at NULL it
        returns None and changes nothing. */
    method Next() returns (r: Option<string>)
      requires Valid()
      modifies this
      ensures Valid()
      ensures r == Yield(old(items), old(curr))
      ensures items == old(items) && curr == Advance(items, old(curr))
      ensures old(curr).None? ==> r.None? && curr.None?
    {
      r := None;
      if curr.Some? {
        r := Some(items[curr.value]);
        curr := Advance(items, curr);
      }
    }

    /** `strlist_done`: unlink and free the nodes one at a time, then the
        list is as `strlist_init` leaves it. */
    method Done()
      modifies this
      ensures items == [] && curr == None && Valid()
    {
      var rest := items;
      while rest != []
        decreases |rest|
      {
        rest := rest[1..];
      }
      items := rest;
      curr := None;
    }

    /** Rewind and call `strlist_next` until it returns NULL: the strings
        come back exactly as pushed. */
    method ReadAll() returns (out: seq<string>)
      requires Valid()
      modifies this
      ensures out == old(items) && items == old(items) && curr == None
    {
      Rewind();
      RewindDrainsAll(items);
      out := [];
      var c0 := curr;
      var r := Next();
      DrainStep(items, c0);
      while r.Some?
        invariant Valid() && items == old(items)
        invariant out + Taken(r) + Drain(items, curr) == items
        invariant r.None? ==> curr.None?
        decreases |items| - |out|
      {
        out := out + [r.value];
        c0 := curr;
        r := Next();
        DrainStep(items, c0);
      }
    }
  }

  /** The string a call returned, as a sequence of zero or one strings. */
  function Taken(r: Option<string>): seq<string>
  {
    if r.Some? then [r.value] else []
  }

  /** One call of `strlist_next` takes the first string of the drain. */
  lemma DrainStep(items: seq<string>, c: Option<nat>)
    requires OnList(items, c)
    ensures Drain(items, c) == Taken(Yield(items, c)) + Drain(items, Advance(items, c))
  {
  }
}
