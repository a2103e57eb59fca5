/** The help table: one `helpline` per option, ended by an entry with no
    long name and no short letter. From it the program builds the
    `struct option` list for long options, the short-option string for the
    option scanner, and the aligned columns of the long help. */
module MyHelp {
  import opened CText

  /** The `has_arg` values of getopt.h. */
  const NoArgument: int := 0
  const RequiredArgument: int := 1
  const OptionalArgument: int := 2

  /** `struct helpline`; `variable` is the address of a flag, None for NULL. */
  datatype HelpLine = HelpLine(c: char, longc: Option<string>, hasArg: int, argstr: string,
                               variable: Option<nat>, helpstr: string)

  /** `struct option`; `val` is the short letter as an int. */
  datatype LongOption = LongOption(name: Option<string>, hasArg: int, flag: Option<nat>, val: int)

  /** `eo_helplist`: the entry that ends the table. */
  predicate EndOfList(h: HelpLine)
  {
    h.longc.None? && h.c == '\0'
  }

  /** The table has an end marker. */
  predicate Terminated(hl: seq<HelpLine>)
  {
    exists k :: 0 <= k < |hl| && EndOfList(hl[k])
  }

  /** The number of entries before the first end marker. */
  function Entries(hl: seq<HelpLine>): (n: nat)
    requires Terminated(hl)
    ensures n < |hl| && EndOfList(hl[n])
    ensures forall k :: 0 <= k < n ==> !EndOfList(hl[k])
  {
    if EndOfList(hl[0]) then 0
    else
      assert Terminated(hl[1..]) by {
        var k :| 0 <= k < |hl| && EndOfList(hl[k]);
        assert hl[1..][k - 1] == hl[k];
      }
      1 + Entries(hl[1..])
  }

  /** The `struct option` record copied from one entry. */
  function OptionOf(h: HelpLine): LongOption
  {
    LongOption(h.longc, h.hasArg, h.variable, h.c as int)
  }

  /** The all-zero record that ends a `struct option` list. */
  const NullOption: LongOption := LongOption(None, 0, None, 0)

  /** Walking the table from the start reaches the end marker at Entries. */
  method CountEntries(hl: seq<HelpLine>) returns (n: nat)
    requires Terminated(hl)
    ensures n == Entries(hl)
  {
    n := 0;
    while !EndOfList(hl[n])
      invariant n <= Entries(hl)
      decreases Entries(hl) - n
    {
      n := n + 1;
    }
  }

  /** `optionlist_new`: one record per entry, in order, and the all-zero
      terminator; None when the array cannot be allocated (`allocates`). */
  method OptionListNew(hl: seq<HelpLine>, allocates: bool) returns (r: Option<seq<LongOption>>)
    requires Terminated(hl)
    ensures r.Some? <==> allocates
    ensures r.Some? ==> |r.value| == Entries(hl) + 1
    ensures r.Some? ==> forall k :: 0 <= k < Entries(hl) ==> r.value[k] == OptionOf(hl[k])
    ensures r.Some? ==> r.value[Entries(hl)] == NullOption
  {
    var n := CountEntries(hl);
    if !allocates {
      return None;
    }
    var list: seq<LongOption> := [];
    var i := 0;
    while !EndOfList(hl[i])
      invariant i <= n && |list| == i
      invariant forall k :: 0 <= k < i ==> list[k] == OptionOf(hl[k])
      decreases n - i
    {
      list := list + [OptionOf(hl[i])];
      i := i + 1;
    }
    return Some(list + [NullOption]);
  }

  /** What one entry contributes to the short-option string: its letter,
      followed by ':' when the argument is required; nothing without a
      letter. */
  function ShortOf(h: HelpLine): string
  {
    if h.c == '\0' then "" else [h.c] + (if h.hasArg == RequiredArgument then ":" else "")
  }

  /** The short-option string of the first n entries. */
  function Shorts(hl: seq<HelpLine>, n: nat): string
    requires n <= |hl|
  {
    if n == 0 then "" else Shorts(hl, n - 1) + ShortOf(hl[n - 1])
  }

  /** The short-option string never is longer than two characters per entry. */
  lemma {:induction false} ShortsLength(hl: seq<HelpLine>, n: nat)
    requires n <= |hl|
    ensures |Shorts(hl, n)| <= 2 * n
    decreases n
  {
    if n > 0 {
      ShortsLength(hl, n - 1);
    }
  }

  /** A letter taking a required argument is followed by ':' in the short
      string; optional arguments get none, so the scanner treats them as
      flags. */
  lemma ShortOfMarksRequired(h: HelpLine)
    requires h.c != '\0'
    ensures ShortOf(h) == if h.hasArg == RequiredArgument then [h.c, ':'] else [h.c]
    ensures forall k :: 0 <= k < |ShortOf(h)| ==> ShortOf(h)[k] != '\0'
  {
  }

  /** `optionshort_build(hl, opt_input)`: writes the short-option string and
      its terminator at the start of the caller's buffer, which must have
      room for them, and returns that buffer. */
  method OptionShortBuild(hl: seq<HelpLine>, buf: array<char>) returns (r: array<char>)
    requires Terminated(hl) && buf.Length > |Shorts(hl, Entries(hl))|
    modifies buf
    ensures r == buf
    ensures buf[..|Shorts(hl, Entries(hl))| + 1] == Shorts(hl, Entries(hl)) + ['\0']
    ensures buf[|Shorts(hl, Entries(hl))| + 1..] == old(buf[|Shorts(hl, Entries(hl))| + 1..])
  {
    var n := Entries(hl);
    ghost var total := |Shorts(hl, n)|;
    ghost var rest := buf[total + 1..];
    var i := 0;
    var opt: nat := 0;
    while !EndOfList(hl[i])
      invariant i <= n && opt <= total
      invariant buf[..opt] == Shorts(hl, i)
      invariant buf[total + 1..] == rest
      decreases n - i
    {
      var h := hl[i];
      assert i < n;
      assert opt + |ShortOf(h)| <= total by {
        assert |Shorts(hl, i + 1)| == opt + |ShortOf(h)|;
        ShortsMonotone(hl, i + 1, n);
      }
      opt := PutShort(buf, opt, h, total + 1);
      i := i + 1;
    }
    buf[opt] := '\0';
    assert buf[..opt + 1] == buf[..opt] + ['\0'];
    return buf;
  }

  /** The body of the loop of `optionshort_build`: the entry's letter and
      its ':' go at opt, before the bound lim. */
  method PutShort(buf: array<char>, opt: nat, h: HelpLine, ghost lim: nat) returns (opt2: nat)
    requires opt + |ShortOf(h)| < lim <= buf.Length
    modifies buf
    ensures opt2 == opt + |ShortOf(h)|
    ensures buf[..opt2] == old(buf[..opt]) + ShortOf(h)
    ensures buf[lim..] == old(buf[lim..])
  {
    opt2 := opt;
    if h.c != '\0' {
      buf[opt2] := h.c;
      opt2 := opt2 + 1;
      if h.hasArg == RequiredArgument {
        buf[opt2] := ':';
        opt2 := opt2 + 1;
      }
    }
  }

  /** Shorts only grows with n. */
  lemma {:induction false} ShortsMonotone(hl: seq<HelpLine>, m: nat, n: nat)
    requires m <= n <= |hl|
    ensures |Shorts(hl, m)| <= |Shorts(hl, n)|
    decreases n - m
  {
    if m < n {
      ShortsMonotone(hl, m, n - 1);
      assert |Shorts(hl, n)| == |Shorts(hl, n - 1)| + |ShortOf(hl[n - 1])|;
    }
  }

  /** `build_head`: the option column of the long help, as
      `" %c%c%s %s%s%s%s%s%s"` renders it, e.g. " -a, --average=<avg>". */
  function Head(h: HelpLine): string
  {
    var short := h.c != '\0';
    var long := h.longc.Some?;
    " " + [if short then '-' else ' '] + [if short then h.c else ' ']
    + (if long && short then "," else "") + " "
    + (if long then (if short then "--" else " --") else "")
    + (if long then h.longc.value else "")
    + (if h.hasArg == OptionalArgument && long then "[" else "")
    + (if h.hasArg != NoArgument && long then "=" else "")
    + (if h.hasArg != NoArgument then h.argstr else "")
    + (if h.hasArg == OptionalArgument && long then "]" else "")
  }

  /** `"%-*s"` with width w: s, padded with blanks on the right to w. */
  function PadRight(s: string, w: int): (r: string)
    ensures |r| == Max(|s|, w) && r[..|s|] == s
  {
    s + seq(Max(w - |s|, 0), _ => ' ')
  }

  /** The first pass of `printlonghelp`: left_tab is one more than the
      widest head, so every head fits before it and the widest reaches it. */
  method LeftTab(hl: seq<HelpLine>) returns (leftTab: int)
    requires Terminated(hl)
    ensures forall k :: 0 <= k < Entries(hl) ==> |Head(hl[k])| < leftTab
    ensures Entries(hl) == 0 ==> leftTab == 1
    ensures Entries(hl) > 0 ==> exists k :: 0 <= k < Entries(hl) && |Head(hl[k])| == leftTab - 1
  {
    var longest := 0;
    var i := 0;
    ghost var widest := 0;
    while !EndOfList(hl[i])
      invariant i <= Entries(hl)
      invariant forall k :: 0 <= k < i ==> |Head(hl[k])| <= longest
      invariant i > 0 ==> widest < i && |Head(hl[widest])| == longest
      invariant i == 0 ==> longest == 0
      decreases Entries(hl) - i
    {
      var head := Head(hl[i]);
      if longest < |head| {
        longest := |head|;
        widest := i;
      }
      i := i + 1;
    }
    leftTab := longest + 1;
  }

  /** Every help text starts in column left_tab: the row `"%-*s "` writes
      the padded head and one blank, left_tab characters in all. */
  lemma RowsAligned(hl: seq<HelpLine>, leftTab: int, k: nat)
    requires Terminated(hl) && k < Entries(hl)
    requires forall j :: 0 <= j < Entries(hl) ==> |Head(hl[j])| < leftTab
    ensures |PadRight(Head(hl[k]), leftTab - 1) + " "| == leftTab
    ensures (PadRight(Head(hl[k]), leftTab - 1) + " ")[..|Head(hl[k])|] == Head(hl[k])
  {
    var head := Head(hl[k]);
    var row := PadRight(head, leftTab - 1) + " ";
    assert row[..|head|] == PadRight(head, leftTab - 1)[..|head|];
  }
}
