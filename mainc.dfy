/** The stand-alone rating program of main.c: its command line, and the
    per-player tallies it computes from the games read. The PGN parser and
    the player table it carries are the same as those of pgnget.c and are
    modelled there; `pgn_result_report`, which stores a game, is the
    collection step of that model. */
module MainC {
  import opened CText
  import MyOpt
  import PgnGet

  /** The option letters main.c accepts; i, a and o take an argument. */
  const OptionList: string := "vhi:qLa:o:"

  /** The initial value of the global `general_average`. */
  const DefaultAverage: real := 2300.0

  /** The mode flags and arguments the option loop collects. `average` is
      the local `general_average` of `main`: None while no -a was given
      (the local is then never set). */
  datatype Flags = Flags(version: bool, license: bool, help: bool, inputMode: bool, inputf: Option<string>,
                         outputMode: bool, outputf: Option<string>, average: Option<real>, quiet: bool)

  const NoFlags: Flags := Flags(false, false, false, false, None, false, None, None, false)

  /** How the option loop ends: at END_OF_OPTIONS with the flags and
      opt_index, or with `exit(EXIT_FAILURE)` for an -a value that does
      not parse, for '?' (after `parameter_error`), or for a letter the
      switch has no case for. */
  datatype OptEnd = Parsed(flags: Flags, index: nat) | WrongAverage | ParameterError | UnexpectedOption(op: int)

  /** What the option loop relies on about the list it passes to the
      scanner: i and a take an argument. */
  predicate Letters(legal: string)
  {
    MyOpt.TakesArg(legal, 'i') && MyOpt.TakesArg(legal, 'a')
  }

  /** main.c's list: i, a and o take an argument, and v, h, q and L do
      not. */
  lemma OptionListLetters()
    ensures Letters(OptionList) && MyOpt.TakesArg(OptionList, 'o')
    ensures MyOpt.Flag(OptionList, 'v') && MyOpt.Flag(OptionList, 'h') && MyOpt.Flag(OptionList, 'q')
    ensures MyOpt.Flag(OptionList, 'L')
  {
    ListLetterV();
    ListLetterH();
    ListLetterI();
    ListLetterQ();
    ListLetterBigL();
    ListLetterA();
    ListLetterO();
  }

  lemma ListLetterV()
    ensures MyOpt.Flag(OptionList, 'v')
  {
    LetterAt(OptionList, 'v', 0);
  }

  lemma ListLetterH()
    ensures MyOpt.Flag(OptionList, 'h')
  {
    LetterAt(OptionList, 'h', 1);
  }

  lemma ListLetterI()
    ensures MyOpt.TakesArg(OptionList, 'i')
  {
    LetterAt(OptionList, 'i', 2);
  }

  lemma ListLetterQ()
    ensures MyOpt.Flag(OptionList, 'q')
  {
    LetterAt(OptionList, 'q', 4);
  }

  lemma ListLetterBigL()
    ensures MyOpt.Flag(OptionList, 'L')
  {
    LetterAt(OptionList, 'L', 5);
  }

  lemma ListLetterA()
    ensures MyOpt.TakesArg(OptionList, 'a')
  {
    LetterAt(OptionList, 'a', 6);
  }

  lemma ListLetterO()
    ensures MyOpt.TakesArg(OptionList, 'o')
  {
    LetterAt(OptionList, 'o', 8);
  }

  /** The first occurrence of a letter is where Find puts it. */
  lemma LetterAt(legal: string, letter: char, k: nat)
    requires k < |legal| && legal[k] == letter
    requires forall j :: 0 <= j < k ==> legal[j] != letter
    ensures MyOpt.Find(legal, letter) == Some(k)
  {
  }

  /** The letters the switch of `main` handles by setting a mode. */
  predicate ModeLetter(op: int)
  {
    op == 'v' as int || op == 'L' as int || op == 'h' as int || op == 'i' as int
    || op == 'o' as int || op == 'q' as int
  }

  /** The mode a letter sets; i and o also keep their argument. */
  function SetMode(f: Flags, op: int, arg: Option<string>): Flags
  {
    if op == 'v' as int then f.(version := true)
    else if op == 'L' as int then f.(version := true, license := true)
    else if op == 'h' as int then f.(help := true)
    else if op == 'i' as int then f.(inputMode := true, inputf := arg)
    else if op == 'o' as int then f.(outputMode := true, outputf := arg)
    else f.(quiet := true)
  }

  /** The `while (options(...))` loop of `main` from scanner state st with
      flags f so far, over the letter list legal; `scan` stands for
      `sscanf(.., "%lf", ..)`, None when no number can be read. */
  function OptLoop(st: MyOpt.OptState, argv: seq<string>, legal: string, f: Flags, scan: string -> Option<real>): (r: OptEnd)
    requires Letters(legal) && MyOpt.Sane(st, argv) && (f.inputMode ==> f.inputf.Some?)
    ensures r.Parsed? ==> (r.flags.inputMode ==> r.flags.inputf.Some?) && (|argv| > 0 ==> r.index <= |argv|)
    decreases MyOpt.Pending(st, argv)
  {
    MyOpt.Progress(st, argv, legal);
    MyOpt.ArgumentWithLetter(st, argv, legal, 'i');
    MyOpt.ArgumentWithLetter(st, argv, legal, 'a');
    var (s1, op) := MyOpt.Scan(st, argv, legal);
    if op == MyOpt.EndOfOptions then Parsed(f, s1.index)
    else if ModeLetter(op) then OptLoop(s1, argv, legal, SetMode(f, op, s1.arg), scan)
    else if op == 'a' as int then
      match scan(s1.arg.value)
      case None => WrongAverage
      case Some(x) => OptLoop(s1, argv, legal, f.(average := Some(x)), scan)
    else if op == MyOpt.UnknownChar as int then ParameterError
    else UnexpectedOption(op)
  }

  /** One turn of the option loop: what a call of the scanner leads to. */
  lemma OptStep(st: MyOpt.OptState, argv: seq<string>, legal: string, f: Flags, scan: string -> Option<real>)
    requires Letters(legal) && MyOpt.Sane(st, argv) && (f.inputMode ==> f.inputf.Some?)
    ensures var sc := MyOpt.Scan(st, argv, legal);
      && (sc.1 == MyOpt.EndOfOptions ==> OptLoop(st, argv, legal, f, scan) == Parsed(f, sc.0.index))
      && (sc.1 != MyOpt.EndOfOptions ==> MyOpt.Sane(sc.0, argv))
      && (ModeLetter(sc.1) ==> var g := SetMode(f, sc.1, sc.0.arg);
            (g.inputMode ==> g.inputf.Some?) && OptLoop(st, argv, legal, f, scan) == OptLoop(sc.0, argv, legal, g, scan))
      && (sc.1 == 'a' as int ==> (sc.0.arg.Some?
            && (scan(sc.0.arg.value).None? ==> OptLoop(st, argv, legal, f, scan) == WrongAverage)
            && (scan(sc.0.arg.value).Some? ==>
                  OptLoop(st, argv, legal, f, scan) == OptLoop(sc.0, argv, legal, f.(average := scan(sc.0.arg.value)), scan))))
      && (sc.1 == MyOpt.UnknownChar as int ==> OptLoop(st, argv, legal, f, scan) == ParameterError)
      && (sc.1 != MyOpt.EndOfOptions && !ModeLetter(sc.1) && sc.1 != 'a' as int && sc.1 != MyOpt.UnknownChar as int ==>
            OptLoop(st, argv, legal, f, scan) == UnexpectedOption(sc.1))
  {
    MyOpt.Progress(st, argv, legal);
    MyOpt.ArgumentWithLetter(st, argv, legal, 'i');
    MyOpt.ArgumentWithLetter(st, argv, legal, 'a');
  }

  /** What `main` goes on to do once the options are read. */
  datatype Start =
    | ShowVersion(license: bool)      // version (and licence) text, EXIT_SUCCESS
    | Banner                          // argc < 2: name, copyright and a hint, EXIT_FAILURE
    | ShowHelp                        // usage text, EXIT_SUCCESS
    | ExtraParameters                 // EXIT_FAILURE
    | NeedFileName                    // EXIT_FAILURE
    | OptionError(e: OptEnd)          // the option loop exited
    | Read(input: string, flags: Flags)

  /** The checks after the option loop, in their order: version first,
      then argc < 2, help, and the three checks on the positional
      arguments; otherwise the one input file, from -i or the remaining
      argument. */
  function Decide(argv: seq<string>, e: OptEnd): (r: Start)
    requires e.Parsed? ==> (e.flags.inputMode ==> e.flags.inputf.Some?) && (|argv| > 0 ==> e.index <= |argv|)
    ensures r.Read? ==> |argv| >= 2 && e.Parsed? && !e.flags.version && !e.flags.help
    ensures r.Read? ==> if e.flags.inputMode then e.index == |argv| && r.input == e.flags.inputf.value
                        else e.index + 1 == |argv| && r.input == argv[|argv| - 1]
  {
    if !e.Parsed? then OptionError(e)
    else
      var f := e.flags;
      var idx := e.index;
      if f.version then ShowVersion(f.license)
      else if |argv| < 2 then Banner
      else if f.help then ShowHelp
      else if |argv| - idx > 1 then ExtraParameters
      else if f.inputMode && |argv| != idx then ExtraParameters
      else if !f.inputMode && |argv| == idx then NeedFileName
      else if idx < |argv| then Read(argv[idx], f)
      else Read(f.inputf.value, f)
  }

  /** The command line of main.c, up to the reading of the games, with
      the letter list legal (OptionList in the program). */
  function CommandLine(argv: seq<string>, legal: string, scan: string -> Option<real>): Start
    requires Letters(legal)
  {
    Decide(argv, OptLoop(MyOpt.Start, argv, legal, NoFlags, scan))
  }

  /** The option loop of `main` over the scanner object. */
  method LoopOptions(argv: seq<string>, legal: string, scan: string -> Option<real>) returns (end: OptEnd)
    requires Letters(legal)
    ensures end == OptLoop(MyOpt.Start, argv, legal, NoFlags, scan)
  {
    var opts := new MyOpt.Options();
    var f := NoFlags;
    while true
      invariant MyOpt.Sane(opts.State(), argv) && (f.inputMode ==> f.inputf.Some?)
      invariant OptLoop(opts.State(), argv, legal, f, scan) == OptLoop(MyOpt.Start, argv, legal, NoFlags, scan)
      decreases MyOpt.Pending(opts.State(), argv)
    {
      ghost var st := opts.State();
      MyOpt.Progress(st, argv, legal);
      OptStep(st, argv, legal, f, scan);
      var op := opts.Next(argv, legal);
      if op == MyOpt.EndOfOptions {
        return Parsed(f, opts.index);
      } else if ModeLetter(op) {
        f := SetMode(f, op, opts.arg);
      } else if op == 'a' as int {
        var x := scan(opts.arg.value);
        if x.None? {
          return WrongAverage;
        }
        f := f.(average := x);
      } else if op == MyOpt.UnknownChar as int {
        return ParameterError;
      } else {
        return UnexpectedOption(op);
      }
    }
  }

  /** `main` up to `pgn_getresults`: the option loop and the checks that
      follow it. */
  method ParseCommandLine(argv: seq<string>, legal: string, scan: string -> Option<real>) returns (r: Start)
    requires Letters(legal)
    ensures r == CommandLine(argv, legal, scan)
  {
    var end := LoopOptions(argv, legal, scan);
    if !end.Parsed? {
      return OptionError(end);
    }
    var f := end.flags;
    if f.version {
      return ShowVersion(f.license);
    }
    if |argv| < 2 {
      return Banner;
    }
    if f.help {
      return ShowHelp;
    }
    var idx := end.index;
    if |argv| - idx > 1 || (f.inputMode && |argv| != idx) {
      return ExtraParameters;
    }
    if !f.inputMode && |argv| == idx {
      return NeedFileName;
    }
    var inputf := f.inputf;
    while idx < |argv|
      invariant end.index <= idx <= |argv|
      invariant idx == end.index ==> inputf == f.inputf
      invariant idx > end.index ==> idx == end.index + 1 && inputf == Some(argv[end.index])
    {
      inputf := Some(argv[idx]);
      idx := idx + 1;
    }
    r := Read(inputf.value, f);
  }

  /** A program name and nothing else stops at argc < 2. */
  lemma NoArguments(prog: string, legal: string, scan: string -> Option<real>)
    requires Letters(legal)
    ensures CommandLine([prog], legal, scan) == Banner
  {
    MyOpt.EndWithoutAdvance(MyOpt.Start, [prog], legal);
  }

  /** A single argument without a dash is the input file, and no flag is
      set. */
  lemma FileOnly(prog: string, file: string, legal: string, scan: string -> Option<real>)
    requires Letters(legal) && At(file, 0) != '-'
    ensures CommandLine([prog, file], legal, scan) == Read(file, NoFlags)
  {
    MyOpt.EndWithoutAdvance(MyOpt.Start, [prog, file], legal);
  }

  /** -v comes before every other check: with it, even a missing file name
      gives the version text. */
  lemma VersionFirst(prog: string, legal: string, scan: string -> Option<real>)
    requires Letters(legal) && MyOpt.Flag(legal, 'v')
    ensures CommandLine([prog, "-v"], legal, scan) == ShowVersion(false)
  {
    var argv := [prog, "-v"];
    MyOpt.FlagLetter(MyOpt.Start, argv, legal, 'v', []);
    var s1 := MyOpt.OptState(2, None, "");
    var f1 := NoFlags.(version := true);
    MyOpt.EndWithoutAdvance(s1, argv, legal);
    assert OptLoop(s1, argv, legal, f1, scan) == Parsed(f1, 2);
    assert OptLoop(MyOpt.Start, argv, legal, NoFlags, scan) == OptLoop(s1, argv, legal, f1, scan);
  }

  /** An input given both by -i and as a remaining argument is refused. */
  lemma InputTwice(prog: string, path: string, file: string, legal: string, scan: string -> Option<real>)
    requires Letters(legal) && At(file, 0) != '-'
    ensures CommandLine([prog, "-i", path, file], legal, scan) == ExtraParameters
  {
    var argv := [prog, "-i", path, file];
    MyOpt.SeparateArgument(MyOpt.Start, argv, legal, 'i');
    var s1 := MyOpt.OptState(3, Some(path), "");
    var f1 := NoFlags.(inputMode := true, inputf := Some(path));
    MyOpt.EndWithoutAdvance(s1, argv, legal);
    assert OptLoop(s1, argv, legal, f1, scan) == Parsed(f1, 3);
    assert OptLoop(MyOpt.Start, argv, legal, NoFlags, scan) == OptLoop(s1, argv, legal, f1, scan);
  }

  /** The average `init_rating` gives every player, as written: the -a case
      assigns the local `general_average` of `main`, which shadows the
      global, so the global keeps its initial value. */
  function InitAverageAsWritten(f: Flags): real
  {
    DefaultAverage
  }

  /** The average evidently intended: the value of the last -a, if any. */
  function InitAverage(f: Flags): real
  {
    if f.average.Some? then f.average.value else DefaultAverage
  }

  /** "-a x file": the value is read and printed, yet as written every
      player still starts at 2300; with the global assigned, at x. */
  lemma AverageShadowed(prog: string, s: string, file: string, x: real, legal: string, scan: string -> Option<real>)
    requires Letters(legal) && scan(s) == Some(x) && At(file, 0) != '-'
    ensures var r := CommandLine([prog, "-a", s, file], legal, scan);
      r == Read(file, NoFlags.(average := Some(x)))
      && InitAverageAsWritten(r.flags) == DefaultAverage && InitAverage(r.flags) == x
  {
    var argv := [prog, "-a", s, file];
    MyOpt.SeparateArgument(MyOpt.Start, argv, legal, 'a');
    var s1 := MyOpt.OptState(3, Some(s), "");
    var f1 := NoFlags.(average := Some(x));
    MyOpt.EndWithoutAdvance(s1, argv, legal);
    assert OptLoop(s1, argv, legal, f1, scan) == Parsed(f1, 3);
    assert OptLoop(MyOpt.Start, argv, legal, NoFlags, scan) == OptLoop(s1, argv, legal, f1, scan);
  }

  /** An -a value that is not a number ends the program. */
  lemma AverageNotANumber(prog: string, s: string, file: string, legal: string, scan: string -> Option<real>)
    requires Letters(legal) && scan(s).None?
    ensures CommandLine([prog, "-a", s, file], legal, scan) == OptionError(WrongAverage)
  {
    var argv := [prog, "-a", s, file];
    MyOpt.SeparateArgument(MyOpt.Start, argv, legal, 'a');
  }

  // ---------------------------------------------------------------------
  // The tallies of `calc_obtained_playedby` and `init_rating`.

  /** The score codes `res2int` produces. */
  predicate KnownScore(s: int)
  {
    s == WhiteWin || s == ResultDraw || s == BlackWin
  }

  /** What player j gets from game g: a point for the winner, half a point
      to each side of a draw; a score outside the three codes gives
      nothing. A player facing itself gets both shares. */
  function Points(g: PgnGet.Game, j: nat): real
  {
    (if g.score == WhiteWin && g.white == j then 1.0 else 0.0)
    + (if g.score == BlackWin && g.black == j then 1.0 else 0.0)
    + (if g.score == ResultDraw then (if g.white == j then 0.5 else 0.0) + (if g.black == j then 0.5 else 0.0) else 0.0)
  }

  /** The games g counts for player j: one per side j plays. */
  function Played(g: PgnGet.Game, j: nat): nat
  {
    (if g.white == j then 1 else 0) + (if g.black == j then 1 else 0)
  }

  /** obtained[j] after the loop over the games. */
  function Obtained(games: seq<PgnGet.Game>, j: nat): real
  {
    if games == [] then 0.0 else Obtained(games[..|games| - 1], j) + Points(games[|games| - 1], j)
  }

  /** playedby[j] after the loop over the games. */
  function PlayedBy(games: seq<PgnGet.Game>, j: nat): nat
  {
    if games == [] then 0 else PlayedBy(games[..|games| - 1], j) + Played(games[|games| - 1], j)
  }

  /** The obtained points of players 0..n-1 added up. */
  function SumObtained(games: seq<PgnGet.Game>, n: nat): real
  {
    if n == 0 then 0.0 else SumObtained(games, n - 1) + Obtained(games, n - 1)
  }

  /** The games played of players 0..n-1 added up. */
  function SumPlayedBy(games: seq<PgnGet.Game>, n: nat): nat
  {
    if n == 0 then 0 else SumPlayedBy(games, n - 1) + PlayedBy(games, n - 1)
  }

  /** Every game is between players 0..n-1. */
  predicate Among(games: seq<PgnGet.Game>, n: nat)
  {
    forall k :: 0 <= k < |games| ==> games[k].white < n && games[k].black < n
  }

  /** A game's points over players 0..n-1. */
  function GamePoints(g: PgnGet.Game, n: nat): real
  {
    if n == 0 then 0.0 else GamePoints(g, n - 1) + Points(g, n - 1)
  }

  /** A game's sides over players 0..n-1. */
  function GamePlayed(g: PgnGet.Game, n: nat): nat
  {
    if n == 0 then 0 else GamePlayed(g, n - 1) + Played(g, n - 1)
  }

  /** White's share of a game's point. */
  function WhiteShare(s: int): real
  {
    if s == WhiteWin then 1.0 else if s == ResultDraw then 0.5 else 0.0
  }

  /** Black's share of a game's point. */
  function BlackShare(s: int): real
  {
    if s == BlackWin then 1.0 else if s == ResultDraw then 0.5 else 0.0
  }

  /** Over the first n players a game hands out white's share if white is
      among them, black's share if black is, and counts one game for each
      of its sides among them. */
  lemma {:induction false} GameTotals(g: PgnGet.Game, n: nat)
    ensures GamePoints(g, n) == (if g.white < n then WhiteShare(g.score) else 0.0)
                                + (if g.black < n then BlackShare(g.score) else 0.0)
    ensures GamePlayed(g, n) == (if g.white < n then 1 else 0) + (if g.black < n then 1 else 0)
    decreases n
  {
    if n > 0 {
      GameTotals(g, n - 1);
    }
  }

  /** One more game adds its own points and sides to the sums. */
  lemma {:induction false} SumsSnoc(games: seq<PgnGet.Game>, g: PgnGet.Game, n: nat)
    ensures SumObtained(games + [g], n) == SumObtained(games, n) + GamePoints(g, n)
    ensures SumPlayedBy(games + [g], n) == SumPlayedBy(games, n) + GamePlayed(g, n)
    decreases n
  {
    if n > 0 {
      SumsSnoc(games, g, n - 1);
      assert (games + [g])[..|games|] == games;
    }
  }

  /** No games, nothing obtained or played. */
  lemma {:induction false} SumsEmpty(n: nat)
    ensures SumObtained([], n) == 0.0 && SumPlayedBy([], n) == 0
    decreases n
  {
    if n > 0 {
      SumsEmpty(n - 1);
    }
  }

  /** Each game among the players hands out exactly one point and counts
      once for each side: the obtained points add up to the number of
      games and the games played to twice that. */
  lemma {:induction false} PointsAndGamesBalance(games: seq<PgnGet.Game>, n: nat)
    requires Among(games, n)
    requires forall k :: 0 <= k < |games| ==> KnownScore(games[k].score)
    ensures SumObtained(games, n) == |games| as real
    ensures SumPlayedBy(games, n) == 2 * |games|
    decreases |games|
  {
    if games == [] {
      SumsEmpty(n);
    } else {
      var init := games[..|games| - 1];
      var g := games[|games| - 1];
      PointsAndGamesBalance(init, n);
      SumsSnoc(init, g, n);
      GameTotals(g, n);
      assert init + [g] == games;
    }
  }

  /** The tallies of player j after the games so far. */
  ghost predicate Tallied(done: seq<PgnGet.Game>, nPlayers: nat, obtained: array<real>, playedby: array<int>)
    reads obtained, playedby
    requires nPlayers <= obtained.Length && nPlayers <= playedby.Length
  {
    forall j :: 0 <= j < nPlayers ==> obtained[j] == Obtained(done, j) && playedby[j] == PlayedBy(done, j)
  }

  /** `calc_obtained_playedby`: zero the tallies of the players, then give
      each game's points and sides to its two players. */
  method CalcObtainedPlayedby(games: seq<PgnGet.Game>, nPlayers: nat, obtained: array<real>, playedby: array<int>)
    requires Among(games, nPlayers) && nPlayers <= obtained.Length && nPlayers <= playedby.Length
    modifies obtained, playedby
    ensures forall j :: 0 <= j < nPlayers ==> obtained[j] == Obtained(games, j) && playedby[j] == PlayedBy(games, j)
    ensures obtained[nPlayers..] == old(obtained[nPlayers..]) && playedby[nPlayers..] == old(playedby[nPlayers..])
  {
    FillPrefix(obtained, nPlayers, 0.0);
    FillPrefix(playedby, nPlayers, 0);
    var i := 0;
    while i < |games|
      invariant 0 <= i <= |games|
      invariant Tallied(games[..i], nPlayers, obtained, playedby)
      invariant obtained[nPlayers..] == old(obtained[nPlayers..]) && playedby[nPlayers..] == old(playedby[nPlayers..])
    {
      assert games[..i + 1] == games[..i] + [games[i]];
      Tally(games[..i], games[i], nPlayers, obtained, playedby);
      i := i + 1;
    }
    assert games[..|games|] == games;
  }

  /** One pass of the game loop, with its three separate score tests. */
  method Tally(ghost done: seq<PgnGet.Game>, g: PgnGet.Game, nPlayers: nat, obtained: array<real>, playedby: array<int>)
    requires g.white < nPlayers && g.black < nPlayers && nPlayers <= obtained.Length && nPlayers <= playedby.Length
    requires Tallied(done, nPlayers, obtained, playedby)
    modifies obtained, playedby
    ensures Tallied(done + [g], nPlayers, obtained, playedby)
    ensures obtained[nPlayers..] == old(obtained[nPlayers..]) && playedby[nPlayers..] == old(playedby[nPlayers..])
  {
    assert (done + [g])[..|done|] == done;
    var w, b, s := g.white, g.black, g.score;
    if s == WhiteWin {
      obtained[w] := obtained[w] + 1.0;
    }
    if s == BlackWin {
      obtained[b] := obtained[b] + 1.0;
    }
    if s == ResultDraw {
      obtained[w] := obtained[w] + 0.5;
      obtained[b] := obtained[b] + 0.5;
    }
    playedby[w] := playedby[w] + 1;
    playedby[b] := playedby[b] + 1;
  }

  /** `init_rating`: the current and the backup rating of every player
      start at the average. */
  method InitRating(nPlayers: nat, average: real, ratingof: array<real>, ratingbk: array<real>)
    requires nPlayers <= ratingof.Length && nPlayers <= ratingbk.Length && ratingof != ratingbk
    modifies ratingof, ratingbk
    ensures forall j :: 0 <= j < nPlayers ==> ratingof[j] == average && ratingbk[j] == average
    ensures ratingof[nPlayers..] == old(ratingof[nPlayers..]) && ratingbk[nPlayers..] == old(ratingbk[nPlayers..])
  {
    FillPrefix(ratingof, nPlayers, average);
    FillPrefix(ratingbk, nPlayers, average);
  }
}
