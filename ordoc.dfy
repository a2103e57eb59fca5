/** The command line and first steps of ordo.c's `main`, and the separator
    and end-of-game helpers that ordo.c keeps beside its copy of the PGN
    scanner. The scanner, the player registry and the tallies are the same
    code as in pgnget.c and main.c and are taken from PgnGet and MainC. */
module OrdoC {
  import opened CText
  import PgnGet
  import MainC

  /** The initial value of the global `general_average`. */
  const InitialAverage: real := 2300.0

  /** The file the CSV report is written to, whatever the command line. */
  const CsvReportFile: string := "ordo.csv"

  /** What `main` makes of its arguments: EXIT_FAILURE with no arguments at
      all, the version text with "-v", "parameter missing" for a lone "-a",
      `exit(EXIT_FAILURE)` for an -a value that sscanf cannot read, or the
      file to read with the average every player starts at. The path is
      `argv[parnumber]`, None when that is the NULL at `argv[argc]`. */
  datatype Start =
    | NoArguments
    | ShowVersion
    | ParameterMissing
    | WrongAverage
    | Read(path: Option<string>, average: real)

  /** `argv[k]` for k <= argc: None stands for the NULL at `argv[argc]`. */
  function ArgAt(argv: seq<string>, k: nat): (r: Option<string>)
    requires k <= |argv|
    ensures r.None? <==> k == |argv|
    ensures r.Some? ==> r.value == argv[k]
  {
    if k < |argv| then Some(argv[k]) else None
  }

  /** "-a" is the first argument. */
  predicate AverageGiven(argv: seq<string>)
  {
    |argv| > 1 && argv[1] == "-a"
  }

  /** The argument handling of ordo.c's `main`; `scan` stands for
      `sscanf(.., "%lf", ..)`, None when no number can be read. */
  function Args(argv: seq<string>, scan: string -> Option<real>): (r: Start)
    ensures r == NoArguments <==> |argv| == 0
    ensures r == ShowVersion <==> |argv| > 1 && argv[1] == "-v"
    ensures r == ParameterMissing <==> |argv| == 2 && argv[1] == "-a"
    ensures r == WrongAverage <==> |argv| > 2 && argv[1] == "-a" && scan(argv[2]).None?
    ensures r.Read? && AverageGiven(argv) ==> |argv| > 2 && scan(argv[2]) == Some(r.average) && r.path == ArgAt(argv, 3)
    ensures r.Read? && !AverageGiven(argv) ==> r.average == InitialAverage && r.path == ArgAt(argv, 1)
    ensures r.Read? ==> (r.path.None? <==> |argv| == 1 || (|argv| == 3 && AverageGiven(argv)))
  {
    if |argv| < 1 then NoArguments
    else if |argv| > 1 && argv[1] == "-v" then ShowVersion
    else if |argv| > 1 && argv[1] == "-a" then
      if |argv| > 2 then
        match scan(argv[2])
        case None => WrongAverage
        case Some(x) => Read(ArgAt(argv, 3), x)
      else ParameterMissing
    else Read(ArgAt(argv, 1), InitialAverage)
  }

  /** Unlike main.c, ordo.c assigns the global: "-a x file" reads file and
      every player starts at x. */
  lemma AverageTakesEffect(prog: string, s: string, file: string, x: real, scan: string -> Option<real>)
    requires scan(s) == Some(x)
    ensures Args([prog, "-a", s, file], scan) == Read(Some(file), x)
    ensures MainC.InitAverageAsWritten(MainC.NoFlags.(average := Some(x))) == InitialAverage
  {
  }

  /** Everything after the first argument is ignored unless that argument
      is "-a": then everything after the file is. */
  lemma ExtraArgumentsIgnored(argv: seq<string>, more: seq<string>, scan: string -> Option<real>)
    requires |argv| >= 4 || (|argv| >= 2 && !AverageGiven(argv))
    ensures Args(argv + more, scan) == Args(argv, scan)
  {
    assert (argv + more)[1] == argv[1];
    if |argv| > 2 {
      assert (argv + more)[2] == argv[2];
    }
    if |argv| > 3 {
      assert (argv + more)[3] == argv[3];
    }
  }

  /** How the model of `main` ends. */
  datatype Exit =
    | Refused(start: Start)
    | CannotOpen
    | OutOfMemory(errors: seq<nat>)
    | Rated(average: real, errors: seq<nat>)

  /** `main` up to `init_rating`: the arguments, `pgn_getresults` on the
      path (a closed door when `files` has no such file or the path is the
      NULL past the arguments), and every player's current and backup rating
      set to the average; the ratings past the players, and all of them on
      the other exits, are kept. */
  method RunOrdo(argv: seq<string>, scan: string -> Option<real>, files: string -> Option<seq<char>>,
                 reg: PgnGet.Registry, ratingof: array<real>, ratingbk: array<real>) returns (r: Exit)
    requires PgnGet.Valid(reg.State())
    requires PgnGet.PgnMaxPlayers <= ratingof.Length && PgnGet.PgnMaxPlayers <= ratingbk.Length && ratingof != ratingbk
    modifies reg, ratingof, ratingbk
    ensures var s := Args(argv, scan);
      && (!s.Read? ==> r == Refused(s) && reg.State() == old(reg.State()))
      && (s.Read? && (s.path.None? || files(s.path.value).None?) ==>
            r == CannotOpen && reg.State() == old(reg.State()))
      && (s.Read? && s.path.Some? && files(s.path.value).Some? ==>
            var o := PgnGet.ScanFrom(files(s.path.value).value, 0, 0, PgnGet.Fresh, old(reg.State()), []);
            reg.State() == o.db && PgnGet.Valid(o.db)
            && (o.OutOfMemory? ==> r == OutOfMemory(o.errors))
            && (o.Finished? ==> (r == Rated(s.average, o.errors)
                  && forall j :: 0 <= j < |o.db.names| ==> ratingof[j] == s.average && ratingbk[j] == s.average)))
    ensures !r.Rated? ==> ratingof[..] == old(ratingof[..]) && ratingbk[..] == old(ratingbk[..])
    ensures r.Rated? ==>
      && |reg.names| <= ratingof.Length && |reg.names| <= ratingbk.Length
      && ratingof[|reg.names|..] == old(ratingof[..])[|reg.names|..] && ratingbk[|reg.names|..] == old(ratingbk[..])[|reg.names|..]
  {
    var s := Args(argv, scan);
    if !s.Read? {
      return Refused(s);
    }
    var input: seq<char> := [];
    var isOpen := false;
    if s.path.Some? && files(s.path.value).Some? {
      input := files(s.path.value).value;
      isOpen := true;
    }
    PgnGet.ScanKeepsValid(input, 0, 0, PgnGet.Fresh, reg.State(), []);
    var ok, exited, errors := PgnGet.PgnGetResults(isOpen, input, reg);
    if !isOpen {
      return CannotOpen;
    }
    if exited {
      return OutOfMemory(errors);
    }
    MainC.InitRating(|reg.names|, s.average, ratingof, ratingbk);
    r := Rated(s.average, errors);
  }

  /** `issep`: the characters that end a token of move text. */
  predicate IsSep(c: char)
  {
    IsSpace(c) || c == '.' || c == '{' || c == '('
  }

  /** `isend`: the three results that end a game. */
  predicate IsEnd(token: string)
  {
    token == "1-0" || token == "0-1" || token == "1/2-1/2"
  }

  /** A separator is never move text, and the scan of `fpgnscan` passes
      over it or starts a comment or a variation with it. */
  lemma SeparatorsAreNotMoves(c: char)
    requires IsSep(c)
    ensures !PgnGet.IsMoveChar(c)
    ensures c != '{' && c != '(' ==> IsSpace(c) || c == '.'
  {
  }

  /** The end markers are the results `res2int` tells apart: "1-0" and
      "0-1" decide the game, "1/2-1/2" is the only end marker that gives a
      draw, and any token that is not an end marker, "*" included, counts
      as a draw as well. */
  lemma EndMarkersAndScores(token: string)
    ensures !IsEnd(token) ==> PgnGet.Res2Int(token) == ResultDraw
    ensures IsEnd(token) ==> (PgnGet.Res2Int(token) == ResultDraw <==> token == "1/2-1/2")
    ensures PgnGet.Res2Int(token) != ResultDraw ==> IsEnd(token)
  {
  }

  /** The unknown result "*" of the PGN standard does not end a game, yet
      `res2int` scores it as a draw. */
  lemma UnknownResult()
    ensures !IsEnd("*") && PgnGet.Res2Int("*") == ResultDraw
  {
  }
}
