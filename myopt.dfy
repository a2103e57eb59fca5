/** The getopt-style option scanner. Its state lives across calls in the
    globals `opt_index` and `opt_arg` and in the static `posn`, the unread
    rest of the current option token. A result is END_OF_OPTIONS (-1), '?'
    or the option letter, as an int; `opt_arg` is None for NULL. */
module MyOpt {
  import opened CText

  const EndOfOptions: int := -1
  const SwitchChar: char := '-'
  const UnknownChar: char := '?'

  datatype OptState = OptState(index: nat, arg: Option<string>, posn: string)

  /** The state before the first call: opt_index 1, opt_arg NULL, posn "". */
  const Start: OptState := OptState(1, None, "")

  /** `strchr(legal, letter)` for a letter that is not NUL: the position of
      its first occurrence. */
  function Find(legal: string, letter: char): (r: Option<nat>)
    ensures r.Some? ==> r.value < |legal| && legal[r.value] == letter
    ensures r.Some? ==> forall k :: 0 <= k < r.value ==> legal[k] != letter
    ensures r.None? ==> forall k :: 0 <= k < |legal| ==> legal[k] != letter
  {
    if legal == [] then None
    else if legal[0] == letter then Some(0)
    else
      var t := Find(legal[1..], letter);
      if t.Some? then Some(t.value + 1) else None
  }

  /** Scanning the first letter of the non-empty rest `posn` of a token. */
  function TakeLetter(st: OptState, argv: seq<string>, legal: string): (OptState, int)
    requires st.posn != []
  {
    var letter := st.posn[0];
    var rest := st.posn[1..];
    var bump := if rest == [] then 1 else 0;
    var at := Find(legal, letter);
    if at.None? then
      (st.(index := st.index + bump, posn := rest), UnknownChar as int)
    else if At(legal, at.value + 1) == ':' then
      if rest != [] then
        (OptState(st.index + 1, Some(rest), ""), letter as int)
      else if st.index + 1 < |argv| then
        (OptState(st.index + 2, Some(argv[st.index + 1]), ""), letter as int)
      else
        (st.(index := st.index + 1, posn := ""), UnknownChar as int)
    else
      (OptState(st.index + bump, None, rest), letter as int)
  }

  /** One call of `options(argc, argv, legal)`: the new state and the
      result. */
  function Scan(st: OptState, argv: seq<string>, legal: string): (OptState, int)
  {
    if st.posn != [] then TakeLetter(st, argv, legal)
    else if st.index >= |argv| then (st, EndOfOptions)
    else
      var word := argv[st.index];
      if At(word, 0) != SwitchChar then (st.(posn := word), EndOfOptions)
      else if |word| == 1 then (st.(posn := ""), UnknownChar as int)
      else if word[1] == SwitchChar then (st.(index := st.index + 1, posn := word[1..]), EndOfOptions)
      else TakeLetter(st.(posn := word[1..]), argv, legal)
  }

  /** Past the last element, or at one without a leading '-', the scan ends
      and opt_index stays where it is. */
  lemma EndWithoutAdvance(st: OptState, argv: seq<string>, legal: string)
    requires st.posn == []
    requires st.index >= |argv| || At(argv[st.index], 0) != SwitchChar
    ensures Scan(st, argv, legal).1 == EndOfOptions
    ensures Scan(st, argv, legal).0.index == st.index
  {
  }

  /** "--" (or any token starting with two dashes) ends the options and
      opt_index moves past it. */
  lemma DoubleDashEnds(st: OptState, argv: seq<string>, legal: string)
    requires st.posn == [] && st.index < |argv|
    requires |argv[st.index]| >= 2 && argv[st.index][0] == '-' && argv[st.index][1] == '-'
    ensures Scan(st, argv, legal).1 == EndOfOptions
    ensures Scan(st, argv, legal).0.index == st.index + 1
  {
  }

  /** A lone "-" gives '?' and does not advance opt_index. */
  lemma LoneDash(st: OptState, argv: seq<string>, legal: string)
    requires st.posn == [] && st.index < |argv| && argv[st.index] == "-"
    ensures Scan(st, argv, legal) == (st, UnknownChar as int)
  {
  }

  /** The state and token position the next letter comes from: the pending
      rest of a group, or the element at opt_index after its dash. */
  predicate NextLetter(st: OptState, argv: seq<string>, letter: char, rest: string)
  {
    if st.posn != [] then st.posn == [letter] + rest
    else st.index < |argv| && argv[st.index] == ['-', letter] + rest && letter != '-'
  }

  /** A letter not in legal gives '?', and opt_index advances only when it
      was the last letter of its token; opt_arg is left alone. */
  lemma UnknownLetter(st: OptState, argv: seq<string>, legal: string, letter: char, rest: string)
    requires NextLetter(st, argv, letter, rest)
    requires forall k :: 0 <= k < |legal| ==> legal[k] != letter
    ensures Scan(st, argv, legal).1 == UnknownChar as int
    ensures Scan(st, argv, legal).0.index == st.index + (if rest == [] then 1 else 0)
    ensures Scan(st, argv, legal).0.arg == st.arg
  {
    assert Find(legal, letter).None?;
  }

  /** The letter has no ':' after its first occurrence in legal. */
  predicate Flag(legal: string, letter: char)
  {
    var at := Find(legal, letter);
    at.Some? && At(legal, at.value + 1) != ':'
  }

  /** The letter takes an argument: ':' follows its first occurrence. */
  predicate TakesArg(legal: string, letter: char)
  {
    var at := Find(legal, letter);
    at.Some? && At(legal, at.value + 1) == ':'
  }

  /** A flag is returned with opt_arg NULL, and opt_index advances only
      after the last letter of its token. */
  lemma FlagLetter(st: OptState, argv: seq<string>, legal: string, letter: char, rest: string)
    requires NextLetter(st, argv, letter, rest) && Flag(legal, letter)
    ensures Scan(st, argv, legal) == (OptState(st.index + (if rest == [] then 1 else 0), None, rest), letter as int)
  {
    if st.posn == [] {
      assert argv[st.index][1..] == [letter] + rest;
    }
  }

  /** An argument glued to its letter ("-a2400") is the rest of the token,
      and opt_index moves past the token. */
  lemma AttachedArgument(st: OptState, argv: seq<string>, legal: string, letter: char, rest: string)
    requires NextLetter(st, argv, letter, rest) && TakesArg(legal, letter) && rest != []
    ensures Scan(st, argv, legal) == (OptState(st.index + 1, Some(rest), ""), letter as int)
  {
    if st.posn == [] {
      assert argv[st.index][1..] == [letter] + rest;
    }
  }

  /** An argument in its own element ("-a 2400") is the next element, and
      opt_index moves past both; with no next element the result is '?'. */
  lemma SeparateArgument(st: OptState, argv: seq<string>, legal: string, letter: char)
    requires NextLetter(st, argv, letter, []) && TakesArg(legal, letter)
    ensures st.index + 1 < |argv| ==>
      Scan(st, argv, legal) == (OptState(st.index + 2, Some(argv[st.index + 1]), ""), letter as int)
    ensures st.index + 1 >= |argv| ==>
      Scan(st, argv, legal).1 == UnknownChar as int && Scan(st, argv, legal).0.index == st.index + 1
  {
    if st.posn == [] {
      assert argv[st.index][1..] == [letter];
    }
  }

  /** Grouped flags ("-qv") come back one per call, in order, with opt_arg
      NULL, and opt_index moves past the group only after its last letter. */
  lemma {:induction false} GroupedFlags(st: OptState, argv: seq<string>, legal: string, x: char, y: char)
    requires st.posn == [] && st.index < |argv| && argv[st.index] == ['-', x, y] && x != '-'
    requires Flag(legal, x) && Flag(legal, y)
    ensures var (s1, r1) := Scan(st, argv, legal);
      var (s2, r2) := Scan(s1, argv, legal);
      r1 == x as int && r2 == y as int && s1.index == st.index && s2.index == st.index + 1
      && s1.arg.None? && s2.arg.None?
  {
    FlagLetter(st, argv, legal, x, [y]);
    var s1 := Scan(st, argv, legal).0;
    FlagLetter(s1, argv, legal, y, []);
  }

  /** Because `strchr` also finds the ':' markers of legal, a token "-:"
      comes back as the letter ':' whenever legal holds a ':' that is not
      followed by another one; with the program's list "vhi:qLa:o:" the
      caller then reports it as an unexpected letter. */
  lemma ColonIsALetter(argv: seq<string>)
    requires |argv| == 2 && argv[1] == "-:"
    ensures Scan(Start, argv, "vhi:qLa:o:") == (OptState(2, None, ""), ':' as int)
  {
    assert Find("vhi:qLa:o:", ':') == Some(3) by {
      FirstAt("vhi:qLa:o:", ':', 3);
    }
    assert argv[1][1..] == ":";
  }

  /** Find on a suffix of legal: a letter that is not at its head is
      looked for one place on. */
  lemma FindFrom(legal: string, letter: char, k: nat)
    requires k < |legal| && legal[k] != letter
    ensures Find(legal[k..], letter) == (var t := Find(legal[k + 1..], letter); if t.Some? then Some(t.value + 1) else None)
  {
    assert legal[k..][1..] == legal[k + 1..];
  }

  /** A first occurrence found by hand is what Find reports. */
  lemma FirstAt(legal: string, letter: char, k: nat)
    requires k < |legal| && legal[k] == letter
    requires forall j :: 0 <= j < k ==> legal[j] != letter
    ensures Find(legal, letter) == Some(k)
  {
    var r := Find(legal, letter);
    assert r.Some?;
    assert !(r.value < k);
  }

  /** The characters of argv from element k on, one more per element for
      its end. */
  function Remaining(argv: seq<string>, k: nat): nat
    decreases |argv| - k
  {
    if k >= |argv| then 0 else |argv[k]| + 1 + Remaining(argv, k + 1)
  }

  /** What the scanner has yet to read: the pending rest of a group and
      the elements after it, or everything from opt_index on. */
  function Pending(st: OptState, argv: seq<string>): nat
  {
    |st.posn| + Remaining(argv, if st.posn == [] then st.index else st.index + 1)
  }

  /** A pending group belongs to an element of argv, and opt_index stays
      within argv (argv[0] being the program's own name). */
  predicate Sane(st: OptState, argv: seq<string>)
  {
    (st.posn != [] ==> st.index < |argv|) && (|argv| > 0 ==> st.index <= |argv|)
  }

  /** Scanning a letter of a group keeps the state sane, and a result other
      than '?' leaves less to read. */
  lemma TakeLetterProgress(st: OptState, argv: seq<string>, legal: string)
    requires st.posn != [] && Sane(st, argv)
    ensures Sane(TakeLetter(st, argv, legal).0, argv)
    ensures TakeLetter(st, argv, legal).1 != UnknownChar as int ==>
      Pending(TakeLetter(st, argv, legal).0, argv) < Pending(st, argv)
  {
    var rest := st.posn[1..];
    if st.index + 1 < |argv| {
      assert Remaining(argv, st.index + 1) == |argv[st.index + 1]| + 1 + Remaining(argv, st.index + 2);
    }
  }

  /** opt_index never passes argc; a call that does not end the options
      keeps the state sane (after "--" the static posn is left inside the
      element just passed), and a call that returns a letter leaves less
      to read, so a loop that stops at END_OF_OPTIONS and at '?' ends. */
  lemma Progress(st: OptState, argv: seq<string>, legal: string)
    requires Sane(st, argv)
    ensures |argv| > 0 ==> Scan(st, argv, legal).0.index <= |argv|
    ensures Scan(st, argv, legal).1 != EndOfOptions ==> Sane(Scan(st, argv, legal).0, argv)
    ensures Scan(st, argv, legal).1 != EndOfOptions && Scan(st, argv, legal).1 != UnknownChar as int ==>
      Pending(Scan(st, argv, legal).0, argv) < Pending(st, argv)
  {
    if st.posn != [] {
      TakeLetterProgress(st, argv, legal);
    } else if st.index < |argv| {
      var word := argv[st.index];
      if At(word, 0) == SwitchChar && |word| > 1 && word[1] != SwitchChar {
        var s1 := st.(posn := word[1..]);
        TakeLetterProgress(s1, argv, legal);
        assert Pending(s1, argv) < Pending(st, argv);
      }
    }
  }

  /** A letter that takes an argument always comes back with opt_arg set. */
  lemma ArgumentWithLetter(st: OptState, argv: seq<string>, legal: string, letter: char)
    requires letter != UnknownChar && TakesArg(legal, letter)
    ensures Scan(st, argv, legal).1 == letter as int ==> Scan(st, argv, legal).0.arg.Some?
  {
  }

  /** The scanner's globals and the static `posn`. */
  class Options {
    var index: nat
    var arg: Option<string>
    var posn: string

    function State(): OptState
      reads this
    {
      OptState(index, arg, posn)
    }

    /** The initial values of opt_index, opt_arg and posn. */
    constructor ()
      ensures State() == Start
    {
      index := 1;
      arg := None;
      posn := "";
    }

    /** `options(argc, argv, legal)`. */
    method Next(argv: seq<string>, legal: string) returns (r: int)
      modifies this
      ensures (State(), r) == Scan(old(State()), argv, legal)
    {
      if posn == [] {
        if index >= |argv| {
          return EndOfOptions;
        }
        posn := argv[index];
        if At(posn, 0) != SwitchChar {
          return EndOfOptions;
        }
        posn := posn[1..];
        if posn == [] {
          return UnknownChar as int;
        }
        if posn[0] == SwitchChar {
          index := index + 1;
          return EndOfOptions;
        }
      }
      var letter := posn[0];
      posn := posn[1..];
      var at := Find(legal, letter);
      if at.None? {
        if posn == [] {
          index := index + 1;
        }
        return UnknownChar as int;
      }
      if At(legal, at.value + 1) == ':' {
        if posn == [] {
          index := index + 1;
          if index < |argv| {
            arg := Some(argv[index]);
          } else {
            posn := "";
            return UnknownChar as int;
          }
        } else {
          arg := Some(posn);
        }
        posn := "";
        index := index + 1;
      } else {
        arg := None;
        if posn == [] {
          index := index + 1;
        }
      }
      return letter as int;
    }
  }
}
