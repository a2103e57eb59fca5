# Ordo: a verified model of its build scripts and of its rating program's data handling

Ordo rates chess players from the results of their games. This project is a
Dafny model of the parts of Ordo that are not floating-point fitting, with
proofs of what those parts promise:

- **The Ruby scripts.**
  - `build.rb`: a selector table and the assembly of one compiler command line.
  - `compile.rb`: its strict three-profile variant.
  - `commit.rb`: the release workflow. Version normalisation, prompts, file rewrites, tag, commit and clean-up are modelled over an abstract file map and a log of external commands.
- **The C program's discrete logic.**
  - Parsing:
    - the PGN reader and the player-name registry (`pgnget.c`, with the same code in `main.c` and `ordo.c`);
    - the option scanner (`myopt/myopt.c`) and the help table (`myhelp.c`);
    - the CSV splitter (`csv.c`).
  - Players and ratings:
    - encounter aggregation (`encount.c`);
    - the player and rating tables (`plyrs.c`, `ra.c`);
    - relative priors and their block-chained store (`relprior.c`, `relpman.c`);
    - connectivity grouping (`groups.c`).
  - Containers: the bit arrays, string list and name hash (`bitarray.c`, `strlist.c`, `namehash.c`).
  - String utilities: the bounded copy (`mystr.c`) and the justified printer (`justify.c`).
  - Sorting and comparing: the comparators, sorts and pair index of the reports and simulations (`report.c`, `cegt.c`, `summations.c`).
  - The 32-bit pseudo random generator (`randfast.c`).
  - The command lines of the stand-alone programs `main.c` and `ordo.c`.

Modelling conventions:

- There is one Dafny module per source file. `CText` (common.dfy) holds the shared vocabulary: optional values, `uint32_t`, game results and the C character classes.
- C strings are `seq<char>` without the terminator, which sits implicitly at index `|s|`.
- Game points are integer half-points. Doubles that are only copied, compared or summed are `real`.
- Readers that pull characters with `fgetc` work on an in-memory `seq<char>`.
- Memory allocation, `sscanf`, the opening of files and the user's answers to prompts are parameters of the operations they occur in.
- Objects whose fields the source updates in place are classes. Collections they relink are `seq`-valued fields that the methods reassign.
- `main.c` and `ordo.c` carry their own copies of the PGN scanner, `playeridx_from_str`, `addplayer` and `res2int` of `pgnget.c`. The copies behave the same on what the model covers, so they are modelled once, in `PgnGet`. They differ from `pgnget.c` as follows:
  - Their `addplayer` (main.c:341-358, ordo.c:168-187) advances `Labelbuffer_end` in place, where `pgnget.c` (137-157) works on a local pointer. The names stored and the success condition are the same.
  - Their `pgn_result_report` (main.c:423-451, ordo.c:250-280) prints "out of memory" and exits itself when a name does not fit. In `pgnget.c`, `pgn_result_collect` (194-216) returns FALSE and `fpgnscan` (324-327) prints the same message and exits.
  - Their progress output is different. Progress output is not modelled anywhere.
  - Their `playeridx_from_str` (main.c:330, ordo.c:158) returns early on an empty table, with the same result as the search.
- `OrdoC` holds only what `ordo.c` adds.
- `calc_obtained_playedby` is the same in `main.c` (817-848) and `ordo.c` (644-675) and is modelled once, in `MainC`.
- `head2head_idx_sdev` is the same in `report.c`, `summations.c` and `cegt.c` and is modelled once, in `Summations`.

## Model

| member | source | states |
|---|---|---|
| BuildRb.AssembleLine | build.rb:92-95 | the `line +=` loop yields the head followed by one blank and each fragment in order, so the line is at least one character per fragment longer than the head |
| BuildRb.FallbackIsGcc | build.rb:63-69 | any selector outside the seven named ones, and no selector at all, resolves to the 'gcc' record except for the printed banner |
| BuildRb.DebugAndProfileSwitches | build.rb:15-29 | 'debug' has empty SWITCHES, so its command has no -DNDEBUG and no -flto and keeps the blank of the empty fragment; 'profile' uses '-DNDEBUG -pg -fno-inline' |
| BuildRb.CrossToolchains | build.rb:47-61 | ADDPATH is non-empty exactly for 'win32' and 'win64', which use the mingw compilers and name ordo-win32 / ordo-win64 |
| BuildRb.LinuxWordSizes | build.rb:31-45 | 'gcc32' bakes -m32 into CC and names ordo-linux32; 'gcc64' uses plain gcc and names ordo-linux64 |
| BuildRb.CommandLayout | build.rb:75-95 | the command is CC, then ' ' + SWITCHES, INCLUDE, WARNINGS, OPT, '-o ' + NAME, SRC, LIB in that order, for every profile |
| BuildRb.PathOnlyAppends | build.rb:97-99 | PATH is unchanged exactly when ADDPATH is empty, and the old PATH is always a prefix of the new one |
| BuildRb.Shell.constructor | build.rb:1-3 | a shell with the given PATH, no output and no command run |
| BuildRb.Shell.RunBuild | build.rb:7-101 | one run prints the branch banner, appends ':' + ADDPATH to PATH only when it is set, makes exactly one compiler call with the assembled line under the new PATH, and exits 0 whatever the compiler returns |
| CompileRb.OnlyThreeSelectors | compile.rb:3-28 | the table accepts exactly 'gcc', 'win32' and 'win64' |
| CompileRb.CommandLayout | compile.rb:32-54 | the command is CC, then SWITCHES '-DNDEBUG', INCLUDE, WARNINGS, OPT '-O2', LIB, '-o ordo', SRC in that order, and does not depend on the profile's NAME |
| CompileRb.Run | compile.rb:3-57 | with any other selector the script prints 'no parameter given' and exits 0 with no command run; otherwise it runs the PATH assignment and then the compiler, both under the unchanged PATH |
| CompileRb.RunIntended | compile.rb:56-57 | the corrected script appends the toolchain directory to PATH before the one compiler call, as build.rb does |
| CompileRb.PathChangeLost | compile.rb:56 | for both Windows selectors the intended PATH differs from the PATH the compiler gets as written |
| CommitRb.Chomp | commit.rb:5 | Ruby `chomp` returns a prefix of its input, removes only '\r'/'\n' characters, and changes the string exactly when it ends in one of them |
| CommitRb.ChompKeepsStrip | commit.rb:5-8 | a chomp never changes what is left once every trailing terminator is removed |
| CommitRb.Multichomp | commit.rb:3-11 | the loop that chomps until nothing changes yields its input with every trailing '\r' and '\n' removed |
| CommitRb.StripIdempotent | commit.rb:3-11 | normalising twice gives the same string as normalising once |
| CommitRb.StripShape | commit.rb:3-11 | the normalised version ends in neither '\n' nor '\r', is a prefix of the input, and the removed suffix holds terminators only |
| CommitRb.EchoRoundTrip | commit.rb:16-24 | a version without trailing terminators, written with echo's added '\n', reads back unchanged |
| CommitRb.DistinctNames | commit.rb:16-56 | version.txt, zenityanswer.txt, commit-inp.txt, commit-out.txt and version.h are five different files |
| CommitRb.Workspace.constructor | commit.rb:16 | the working directory with its files and an empty step trace |
| CommitRb.Workspace.Release | commit.rb:16-56 | one run appends exactly the steps of the script in their order and leaves version.txt, version.h and the other files as stated by the release functions, whatever the prompts return and whatever the shell makes of a version it expands |
| CommitRb.StepOrder | commit.rb:21-56 | the run has 13 steps: echo to version.txt before the message editor, version.h after it, tag before commit, and the three rm commands last, with no step depending on a command's result |
| CommitRb.ReleasedContents | commit.rb:24 | afterwards version.txt holds the normalised answer plus '\n' when the shell leaves it unexpanded (and what the shell wrote otherwise), version.h is '#define VERSION "v"' plus two newlines, the three scratch files are gone and every other file is untouched (also lines 27, 35-38, 46-56) |
| CommitRb.NextDefaultIsThisVersion | commit.rb:16-24 | the default offered by the next release is the version just confirmed, whenever that version has nothing the shell or `echo` interprets |
| CommitRb.ScratchWritesVanish | commit.rb:21-56 | writing the scratch files and removing them afterwards leaves only the two version files changed |
| CommitRb.DollarIsExpanded | commit.rb:24 | a version with a `$` in it is not written to version.txt as typed: what is stored is what the shell made of it |
| MyStr.Result | mystr.c:32-48 | the bytes of dest after the call: what the loop wrote, then 'y' up to dest[n-1] in debug builds or the old bytes otherwise, and the old bytes from dest[n] on |
| MyStr.StrncpyAsWritten | mystr.c:31-48 | the copy as written keeps the size of dest; for n == 1 it writes no terminator |
| MyStr.StrncpyIntended | mystr.c:12-16 | the copy the comment promises keeps the size of dest and writes the terminator for every n > 0 |
| MyStr.AsWrittenFromTwo | mystr.c:31-48 | for n >= 2 dest holds the first min(strlen(src), n-1) characters of src and a NUL, dest[n..] is never touched, and the bytes after the NUL are 'y' in debug builds and untouched otherwise |
| MyStr.AsWrittenOneUnterminated | mystr.c:31-38 | with n == 1 the loop is skipped with c already NUL, so no terminator is written: a release build leaves dest as it was and a debug build stores 'y' |
| MyStr.OneByteCounterexample | mystr.c:31 | copying "abc" into a one-byte buffer holding 'a' leaves the unterminated 'a' |
| MyStr.IntendedAlwaysTerminates | mystr.c:12-13 | the corrected copy always terminates after min(strlen(src), n-1) characters and equals the written one for n >= 2 |
| MyStr.Mystrncpy | mystr.c:19-50 | the pointer loops leave dest exactly as the as-written copy describes, for every n with 0 < n <= the size of dest |
| RandFast.ShlKeepsLow | randfast.c:13 | `x << k` on uint32_t keeps the low 32-k bits of x, moved up k places |
| RandFast.ShrBelow | randfast.c:13 | `x >> (32-k)` leaves a value below 2^k, the high k bits |
| RandFast.RotIsRotation | randfast.c:13 | for 0 < k < 32, `rot(x, k)` is the 32-bit left rotation: the low 32-k bits move up by k and the high k bits come round to the bottom |
| RandFast.XorCancel | randfast.c:19 | exclusive or with the same word twice gives the word back, bit by bit |
| RandFast.XorTwice | randfast.c:19 | the same on 32-bit words |
| RandFast.AddSub | randfast.c:18-22 | adding and subtracting the same word modulo 2^32 cancel in both orders |
| RandFast.StepRoundTrip | randfast.c:15-24 | the inverse step recovers the state before a `ranval` step |
| RandFast.StepBackRoundTrip | randfast.c:15-24 | a `ranval` step after the inverse step recovers the state, so the step is a bijection on the four words |
| RandFast.StepsInjective | randfast.c:26-33 | two states that agree after k steps were equal, so two different seeds give different states after seeding |
| RandFast.RanCtx.constructor | randfast.c:11 | the static context starts with four zero words |
| RandFast.RanCtx.RanVal | randfast.c:15-24 | `ranval` computes e = a - rot(b,27), a' = b ^ rot(c,17), b' = c+d, c' = d+e, d' = e+a' modulo 2^32 and returns the new d |
| RandFast.RanCtx.RanInit | randfast.c:26-33 | `raninit` sets a = 0xf1ea5eed and b = c = d = seed, then discards exactly 20 steps |
| RandFast.Generator.constructor | randfast.c:11 | the module's single global context |
| RandFast.Generator.Init | randfast.c:35-38 | `randfast_init` leaves the global context seeded |
| RandFast.Generator.Next | randfast.c:40-43 | `randfast32` advances the global context by one step and returns its new d |
| RandFast.DrawAfterInit | randfast.c:26-43 | after `randfast_init(seed)` the k values drawn are the first k steps after seeding: the stream depends on the seed alone |
| BitArray.Complement | bitarray.c:73 | `~w` flips each of the 64 bits of a word |
| BitArray.Pods | bitarray.c:60-82 | `max_p` is the number of 64-bit words that hold `max` bits, rounded up: enough words, with no spare word |
| BitArray.Put | bitarray.c:29-37 | `ba_put` keeps the number of words |
| BitArray.Cleared | bitarray.c:52-62 | `ba_clear` keeps the number of words |
| BitArray.Flipped | bitarray.c:64-74 | `ba_setnot` keeps the number of words |
| BitArray.PutSetsOnlyX | bitarray.c:29-50 | after `ba_put(x)` with x < max, `ba_ison(x)` is true and every other bit is as before |
| BitArray.PutOutOfRange | bitarray.c:34 | `ba_put(x)` with x >= max is a no-op |
| BitArray.PutIdempotent | bitarray.c:34-36 | putting the same bit twice is the same as putting it once |
| BitArray.ClearedAllOff | bitarray.c:52-62 | after `ba_clear` every bit below max is off |
| BitArray.FlippedEveryBit | bitarray.c:64-74 | `ba_setnot` complements whole words, so every stored bit flips, including those at or past max |
| BitArray.FlippedTwice | bitarray.c:64-74 | two `ba_setnot` calls restore the set |
| BitArray.BitSet.constructor | bitarray.c:84-86 | an uninitialised set: pod NULL and max 0 |
| BitArray.BitSet.BaPut | bitarray.c:29-37 | `ba_put` on pod: sets bit x % 64 of word x / 64 when x < max, and nothing else changes |
| BitArray.BitSet.BaIsOn | bitarray.c:39-50 | `ba_ison` (which needs x < max) returns bit x of pod |
| BitArray.BitSet.BaClear | bitarray.c:52-62 | `ba_clear` zeroes the max_p words of pod and leaves the rest |
| BitArray.BitSet.BaSetNot | bitarray.c:64-74 | `ba_setnot` complements the max_p words of pod and leaves the rest |
| BitArray.BitSet.BaInit | bitarray.c:76-94 | `ba_init` succeeds exactly when the allocator returns memory, and then gives a fresh, all-zero pod of max_p words and the new max; on failure max is 0 and pod NULL |
| BitArray.BitSet.BaDone | bitarray.c:96-104 | `ba_done` leaves pod NULL and max 0 |
| Csv.Blanks | csv.c:12 | `skipblanks` stops at the first non-blank at or after p, and never past the terminator |
| Csv.BlanksSkipsBlanks | csv.c:12 | every character `skipblanks` passes over is a blank |
| Csv.Run | csv.c:41-50 | a copy loop takes at most max characters and, when it takes fewer, stops at the NUL or at its stop character |
| Csv.RunCopies | csv.c:41-50 | a copy loop copies the line's characters in order and never the NUL or the stop character |
| Csv.StripTrailing | csv.c:16-22 | `rm_blank_tails` leaves a prefix that does not end in a blank, and everything it removes is a blank |
| Csv.Quoted | csv.c:39-48 | a quoted field copies at most max characters |
| Csv.Unquoted | csv.c:50-57 | an unquoted field copies at most max characters |
| Csv.TokenFrom | csv.c:32-57 | every token copies at most max characters |
| Csv.TokenAt | csv.c:24-58 | the corrected `csv_gettoken` returns NULL exactly at the end of the line, and its token copies at most max characters |
| Csv.TokenProgress | csv.c:30-57 | each token moves the pointer strictly forward and never past the terminator |
| Csv.AsWrittenAgreesOtherwise | csv.c:43 | the written and the corrected token agree whenever the written one stays within the line |
| Csv.UnterminatedQuoteOverrun | csv.c:43 | on the line `"ab` the written `p++` returns a pointer one past the NUL, where the corrected token stops at the NUL |
| Csv.UnquotedPlain | csv.c:50-57 | an unquoted field without commas, quotes or outer blanks is copied whole and its comma consumed |
| Csv.TokenOfPlain | csv.c:30-57 | the token read at the start of such a field is the field itself, an empty one for two consecutive commas |
| Csv.FieldsOfJoin | csv.c:62-91 | splitting comma-joined plain fields from any place where they start gives them back in order |
| Csv.SplitJoin | csv.c:30-57 | commas split the line, an empty field between two commas included, and one comma at the very end adds no field (also lines 62-91) |
| Csv.QuoteStartsQuoted | csv.c:39 | a token that starts at a quote is read as a quoted field |
| Csv.QuotedVerbatim | csv.c:39-48 | a quoted field is the text between the quotes verbatim, commas included, and the blanks and comma after the closing quote are consumed |
| Csv.SkipBlanks | csv.c:12 | the `skipblanks` loop stops at the first character past the leading blanks |
| Csv.RmBlankTails | csv.c:16-22 | the loop of `rm_blank_tails` removes exactly the trailing blanks |
| Csv.CopyRun | csv.c:41-50 | the copy loop takes exactly the characters that `Run` describes |
| Csv.GetToken | csv.c:24-58 | `csv_gettoken` returns the corrected token from position p |
| Csv.PackedField | csv.c:84-86 | reading `mem` from `c->s[i]` up to its NUL gives field i |
| Csv.PackedSnoc | csv.c:84-86 | one more field goes right after the last one's NUL |
| Csv.FieldsStep | csv.c:80-89 | one turn of the field loop takes one token and skips the blanks after it |
| Csv.SplitLine | csv.c:75-89 | the token loop counts the fields, stores them back to back each with its NUL, and records where each starts |
| Csv.CsvLine.constructor | csv.c:70-71 | an empty line record |
| Csv.CsvLine.Init | csv.c:62-91 | `csv_line_init` fails only when the block cannot be allocated, leaving no fields; otherwise n, mem and the start pointers describe the line's fields |
| Csv.CsvLine.Done | csv.c:93-101 | `csv_line_done` releases mem and resets n and the start pointers |
| StrList.DrainFrom | strlist.c:130-139 | from the node at k on, repeated `strlist_next` yields the rest of the list in order, then NULL |
| StrList.RewindDrainsAll | strlist.c:123-139 | after `strlist_rwnd`, repeated `strlist_next` yields exactly the pushed strings in push order |
| StrList.PushSeenByLiveCursor | strlist.c:84-89 | a push is seen by a cursor that still points at a node; a cursor already at NULL yields nothing until the next rewind (also lines 130-139) |
| StrList.StringDup | strlist.c:45-57 | `string_dup` returns a fresh copy equal to s exactly when `malloc` succeeds, and NULL otherwise |
| StrList.StrList.Init | strlist.c:27-36 | `strlist_init` always succeeds and leaves an empty list with the cursor NULL |
| StrList.StrList.Push | strlist.c:66-92 | `strlist_push` appends a copy of s at the tail exactly when both allocations succeed; otherwise it returns FALSE and the list is unchanged; the cursor never moves |
| StrList.StrList.Rewind | strlist.c:123-127 | `strlist_rwnd` puts the cursor on the first node, NULL for an empty list |
| StrList.StrList.Next | strlist.c:130-139 | `strlist_next` returns the string at the cursor and advances it; at NULL it returns NULL and changes nothing |
| StrList.StrList.Done | strlist.c:103-120 | `strlist_done` frees every node and restores the state `strlist_init` leaves |
| StrList.StrList.ReadAll | strlist.c:123-139 | rewinding and calling `strlist_next` until NULL returns the pushed strings, in order, and leaves the cursor at NULL |
| StrList.DrainStep | strlist.c:130-139 | one `strlist_next` call takes the first string of what is left to read |
| NameHash.FoldSnoc | namehash.c:144-148 | folding one more character in is one more djb2 step |
| NameHash.HashIsFold | namehash.c:138-150 | `namehash` equals the left fold of hash*33 + c (mod 2^32) over the bytes, starting from 5381, so `namehash("")` is 5381 |
| NameHash.HashSnoc | namehash.c:147 | namehash(s + c) is namehash(s)*33 + c modulo 2^32, with c read as an unsigned char |
| NameHash.NameHashOf | namehash.c:138-150 | the `namehash` loop over the characters of the string computes that hash |
| NameHash.PodOf | namehash.c:74 | `hash & PODMASK` picks one of the 4096 pods (also line 112) |
| NameHash.FirstHit | namehash.c:83-104 | the scan finds the first entry with the same hash and stored name, and only such an entry |
| NameHash.HitAfterAppend | namehash.c:119-129 | an entry appended for a name is found by a later search for that name |
| NameHash.HitKept | namehash.c:83-104 | appending an entry never changes an earlier hit |
| NameHash.FirstHitUnique | namehash.c:83-104 | a hit with no hit before it is the one the scan reports |
| NameHash.NameTable.constructor | namehash.c:46-48 | the static tables start with every pod and the overflow array empty |
| NameHash.NameTable.Register | namehash.c:109-134 | `name_register` puts the entry in its pod while that has fewer than 8 entries, else in the overflow array while that has fewer than 65536, and fails with nothing changed when both are full; pod and overflow counts never exceed their sizes |
| NameHash.NameTable.Lookup | namehash.c:71-107 | a player reported present has the name searched for |
| NameHash.NameTable.IsPresent | namehash.c:71-107 | `name_ispresent` reports the first hit of the pod, otherwise of the overflow array; with no hit it returns FALSE and `*out_index` is untouched |
| NameHash.RegisterThenFind | namehash.c:71-134 | after a successful `name_register(namehash(s), i)` for the name s of player i, `name_ispresent` finds s |
| MyOpt.Find | myopt/myopt.c:80 | `strchr(legal, letter)`: the position of the first occurrence of the letter, or None when legal does not hold it |
| MyOpt.EndWithoutAdvance | myopt/myopt.c:62-66 | past the last element, or at an element without a leading '-', the result is END_OF_OPTIONS and opt_index stays put |
| MyOpt.DoubleDashEnds | myopt/myopt.c:71-75 | an element starting with "--" ends the options and opt_index moves past it |
| MyOpt.LoneDash | myopt/myopt.c:68-69 | a lone "-" gives '?' and leaves opt_index and opt_arg alone |
| MyOpt.UnknownLetter | myopt/myopt.c:78-84 | a letter not in legal gives '?', opt_index advances only after the last letter of its element, and opt_arg is untouched |
| MyOpt.FlagLetter | myopt/myopt.c:108-114 | a letter without ':' is returned with opt_arg NULL and the rest of its element still pending; opt_index advances only after the last letter |
| MyOpt.AttachedArgument | myopt/myopt.c:100-106 | for a letter with ':', the rest of the element ("-a2400") is opt_arg and opt_index moves past the element |
| MyOpt.SeparateArgument | myopt/myopt.c:88-106 | for a letter with ':' at the end of its element, the next element is opt_arg and opt_index moves past both; with no next element the result is '?' and opt_index is one past |
| MyOpt.GroupedFlags | myopt/myopt.c:62-114 | grouped flags "-qv" come back one per call, in order, with opt_arg NULL; opt_index moves past the group only after the second |
| MyOpt.ColonIsALetter | myopt/myopt.c:80-88 | since `strchr` also finds the ':' markers, "-:" comes back as the letter ':' with the program's list "vhi:qLa:o:" |
| MyOpt.TakeLetterProgress | myopt/myopt.c:78-114 | scanning a letter keeps opt_index within argv, and a result other than '?' leaves less of argv to read |
| MyOpt.Progress | myopt/myopt.c:56-115 | opt_index never passes argc; a call that does not end the options keeps the state consistent, and one that returns a letter leaves less to read, so a loop that stops at -1 and '?' ends |
| MyOpt.ArgumentWithLetter | myopt/myopt.c:88-106 | a letter that takes an argument is only ever returned with opt_arg set |
| MyOpt.Options.constructor | myopt/myopt.c:53-58 | opt_index starts at 1, opt_arg at NULL and posn at "" |
| MyOpt.Options.Next | myopt/myopt.c:56-115 | `options(argc, argv, legal)` updates opt_index, opt_arg and posn and returns the result exactly as the scan function does |
| Justify.Spaces | justify.c:64-68 | `carriage(f, m)` writes max(m, 0) spaces and nothing else |
| Justify.NonBlankAppend | justify.c:93-129 | the non-blank text of a concatenation is the concatenation of the non-blank texts |
| Justify.NonBlankOfBlanks | justify.c:94-107 | a run of blanks contributes no non-blank character |
| Justify.RenderSnoc | justify.c:93-129 | the text written for one more piece is the old text followed by that piece |
| Justify.LineWidthSnoc | justify.c:98-126 | a written piece uses its width on the current line, and an inserted break starts a line with no columns used |
| Justify.FitsSnoc | justify.c:98-126 | when the current line still fits, every line does |
| Justify.PlainBlanksSnoc | justify.c:99 | writing a space or a newline keeps every blank written a space or a newline |
| Justify.GotoNextStop | justify.c:34-42 | `goto_nextstop` stops at the first word break among the next rem characters, or after rem characters, never beyond the terminator |
| Justify.PrintStretch | justify.c:44-51 | `print_stretch` writes exactly the characters from sta up to end or the terminator, whichever comes first, and returns where it stopped |
| Justify.FitHorizontally | justify.c:53-62 | `fit_horizontally` is TRUE exactly when one of the next HOR + 1 characters (the terminator included) is a word break |
| Justify.Carriage | justify.c:64-68 | the loop of `carriage` writes m spaces, none for m <= 0 |
| Justify.CarriageReturn | justify.c:70-75 | `carriage_return` writes a newline followed by m spaces |
| Justify.Emit | justify.c:93-129 | writing one piece while consuming input keeps the loop's account: header plus pieces, lines that fit, and the same non-blank text as the input consumed |
| Justify.EmitOut | justify.c:91-129 | the text written stays the header spaces followed by the pieces |
| Justify.EmitLine | justify.c:98-126 | after a piece the lines still fit and the columns left on the line are accounted for |
| Justify.BreakIsBlank | justify.c:119-125 | an inserted line break writes only blanks |
| Justify.BlankIsBlank | justify.c:99 | a blank written for a blank of the input is not text |
| Justify.FprintJustified | justify.c:79-131 | `fprint_justified` writes blankheader spaces and then exactly the pieces `Layout` gives for p, round by round from a full line: lines never wider than hor columns, every blank written is ' ' or '\n' and none at the start of a line, and the non-blank characters written are exactly those of p, in order |
| Justify.Round | justify.c:93-128 | one round of the loop does what `Step` says: a blank at the start of a line is skipped and nothing written; any other blank is written as ' ' (or '\n') using one column; with no room left a line break is written without consuming input; otherwise the word round; and the round consumes input or starts a new line, which is why the loop ends |
| Justify.WordRound | justify.c:110-127 | at a word of length n: with n <= rem it is written whole and rem drops by n; with rem < n <= hor only a line break is written and nothing consumed; with n > hor its first rem characters are written, then a line break, and a full line is left |
| Justify.WholeWord | justify.c:112-116 | the characters p[i..q) are appended to the output as one text piece and use q - i columns |
| Justify.NewLine | justify.c:118-120 | a newline and margin spaces are appended, a break piece written, nothing consumed and a full line left |
| Justify.CutWord | justify.c:121-126 | the next rem characters are appended, then a newline and margin spaces; input advances by rem and a full line is left |
| Justify.Skip | justify.c:94-97 | a blank skipped at the start of a line adds no text |
| Justify.Consume | justify.c:112-116 | consuming a stretch of the input adds exactly its non-blank characters |
| Justify.WriteBlank | justify.c:98-103 | a blank after the start of a line is appended as '\n' when it is a newline and as ' ' otherwise, using one column |
| Justify.WordEnd | justify.c:34-42 | the word at i runs up to the first blank or the end of the text, with no blank inside it |
| Justify.WordEndBreaks | justify.c:28-32 | in a text without NUL, the word breaks from i on are first met at the word's end |
| Justify.Step | justify.c:93-127 | a round consumes input, or starts a new line without consuming any when the line is not already empty, and leaves at most hor columns |
| Justify.StepOfWord | justify.c:110-126 | the round at a word depends only on the word's length against rem and hor |
| Justify.StepBlanks | justify.c:93-103 | a round writes a blank only as its single piece and only on a line that already holds something |
| Justify.BlanksAfterText | justify.c:93-103 | appending pieces whose only blank comes on a non-empty line keeps every blank off line starts |
| Justify.TextsAppend | justify.c:112-125 | the text pieces of a concatenation are those of its parts, in order |
| Justify.WordsWhole | justify.c:110-126 | when no word is longer than hor, the text pieces written from i on are exactly the words of p from i on: no word is split |
| Justify.ShortWordsNeverSplit | justify.c:79-131 | for a whole text whose words all fit a line, `fprint_justified` writes every word as one unbroken piece, in order |
| Justify.PlainedOfWord | justify.c:112-116 | a word is written as it is |
| Justify.PlainedSplit | justify.c:93-128 | writing the blanks plainly distributes over a split of the text |
| Justify.RenderOne | justify.c:93-128 | the text of a single piece is that piece's own text |
| Justify.RenderAppend | justify.c:93-128 | the text written for two runs of pieces is the text of the first followed by that of the second |
| Justify.StepOnOneLine | justify.c:98-116 | on a line that holds the whole text, a round writes the next blank as ' ' or '\n', or the next word whole, and uses exactly what it writes |
| Justify.OneLineFrom | justify.c:93-128 | on a line that holds the whole text, the rest of the text is written as it is with each blank made ' ' or '\n' |
| Justify.OneLine | justify.c:79-131 | a text of at most hor characters that does not start with a blank is written on one line as it is, each blank as ' ' or '\n': no blank after the first word is dropped and no break is inserted |
| MyHelp.Entries | myhelp.c:29-41 | the entries before the first end marker (an entry with neither long name nor letter): the marker sits at that index and no earlier entry is one |
| MyHelp.CountEntries | myhelp.c:40-42 | the scan of `optionlist_new` stops at the end marker |
| MyHelp.OptionListNew | myhelp.c:35-59 | `optionlist_new` returns NULL exactly when the allocation fails; otherwise one `struct option` per entry, copied field by field in order, and the all-zero terminator |
| MyHelp.ShortsLength | myhelp.c:74-81 | the short-option string holds at most two characters per entry |
| MyHelp.ShortOfMarksRequired | myhelp.c:75-79 | an entry's letter is followed by ':' exactly when its argument is required (an optional argument gets none), and no NUL is written inside the string |
| MyHelp.OptionShortBuild | myhelp.c:68-84 | `optionshort_build` writes the letters and ':' markers of the entries in order, then the terminator, at the start of the buffer, leaves the rest alone and returns the buffer |
| MyHelp.PutShort | myhelp.c:75-79 | one entry appends its letter and, for a required argument, ':' |
| MyHelp.ShortsMonotone | myhelp.c:74-80 | the short string only grows from entry to entry, so the buffer bound for the whole string bounds every step |
| MyHelp.PadRight | myhelp.c:122 | `"%-*s"` pads its argument with blanks on the right up to the width and keeps it as its prefix |
| MyHelp.LeftTab | myhelp.c:112-117 | left_tab is one more than the widest head: every head is narrower, the widest one reaches left_tab - 1, and with no entries left_tab is 1 |
| MyHelp.RowsAligned | myhelp.c:120-123 | each row's head, padded and followed by one blank, is left_tab characters wide, so every help text starts in the same column |
| Encount.CompareEncIsLexicographic | encount.c:39-50 | `compare_ENC` is negative, zero or positive exactly when a's (white, black) pair is before, equal to or after b's in lexicographic order, and swapping the arguments flips the sign |
| Encount.Merge | encount.c:206-221 | `encounter_merge` keeps the pair and adds games, wins, draws, losses and white's score field by field |
| Encount.PairTallySnoc | encount.c:70-94 | one more record adds its counts to the totals of its own pair and nothing to any other pair |
| Encount.KeptAreSingleGames | encount.c:75-93 | every game kept by `calc_encounters` becomes a one-game record: played once, exactly one of W/D/L, and white's score 1, 1/2 or 0 |
| Encount.Shrink | encount.c:224-245 | merging adjacent records of the same pair never lengthens the sequence, leaves it empty only when it was empty, and the last record keeps the last pair |
| Encount.ShrinkKeepsTallies | encount.c:224-245 | shrinking keeps the totals of every pair |
| Encount.MergeLastKeepsTallies | encount.c:235-237 | merging a record into the last one adds its counts to the totals |
| Encount.PartOfMerge | encount.c:206-221 | a merged record counts for its pair what the two records did |
| Encount.ShrinkSeparatesNeighbours | encount.c:233-242 | after shrinking, adjacent records are for different pairs |
| Encount.ShrinkOfSorted | encount.c:97-101 | shrinking a sequence sorted by pair leaves one record per pair, strictly increasing |
| Encount.ShrinkEnc | encount.c:224-245 | `shrink_ENC` compacts enc[0..N_enc) in place into the shrunk sequence, returns its length (0 for no records) and leaves the rest of the array alone |
| Encount.ShrinkStep | encount.c:235-241 | a record for the same pair as enc[g] is merged into it, any other is copied to g + 1 |
| Encount.ShrinkUnfold | encount.c:233-242 | shrinking one more record merges or appends it |
| Encount.Insert | encount.c:99 | inserting into the sort adds one record and keeps all others (as a multiset) |
| Encount.SortEnc | encount.c:99 | the sort is a permutation of its input |
| Encount.InsertSorted | encount.c:99 | inserting keeps a sorted sequence sorted |
| Encount.SortEncSorted | encount.c:99 | `qsort` by `compare_ENC` leaves the records sorted by pair |
| Encount.InsertKeepsTallies | encount.c:99 | inserting a record keeps every pair's totals |
| Encount.SortKeepsTallies | encount.c:99 | sorting keeps every pair's totals |
| Encount.EncountersOnePerPair | encount.c:95-102 | `calc_encounters` leaves the records sorted by (white, black) with at most one record per ordered pair |
| Encount.EncountersKeepTallies | encount.c:70-102 | every pair's record sums exactly the kept games of that pair: games, wins, draws, losses and white's score |
| Encount.CalcEncounters | encount.c:54-103 | `calc_encounters` leaves in enc exactly the kept games, shrunk, sorted and shrunk again, and returns their count, never more than the games |
| Encount.FillKept | encount.c:70-94 | the loop writes one record per game that is neither discarded nor, in no-flagged mode, played by a flagged player, in game order |
| Encount.SortPrefix | encount.c:99 | `qsort` replaces enc[0..ne) by its sorted permutation |
| Encount.SumsSnoc | encount.c:120-130 | one more encounter adds its score and games to its two players' sums |
| Encount.PointsAndGamesBalance | encount.c:107-131 | over all players, the points obtained and the games played each add up to twice the games (in half-points for the points), since every game gives out one point and has two sides |
| Encount.NoEncounters | encount.c:115-118 | with no encounters every player has zero points and zero games |
| Encount.CalcObtainedPlayedby | encount.c:107-131 | `calc_obtained_playedby` leaves each player's points obtained and games played over the encounters, and touches no entry past n_players |
| Encount.Credit | encount.c:122-129 | one encounter credits white's score to white, the rest of its points to black, and its games to both |
| Report.CompareIsDescending | report.c:48-59 | `compare__` is positive exactly when b is rated higher, negative exactly when lower, zero on equal ratings, and antisymmetric: a descending order |
| Report.RatedPermutation | report.c:62-156 | permuting the players keeps every entry a valid index into the ratings |
| Report.PrefixPermutation | report.c:152-156 | a permutation of the array that keeps the suffix permutes the prefix |
| Report.Rotated | report.c:74-80 | the shift of `insertion_sort` is a permutation that moves vect[lo] to hi - 1, moves the entries between down by one and keeps the rest |
| Report.RotationFacts | report.c:74-80 | the moving of one entry past a stretch, on any sequence |
| Report.SwapMiddle | report.c:74-80 | exchanging two middle parts keeps the elements |
| Report.Rotate | report.c:74-80 | the shift loop with tmp does exactly that rotation |
| Report.FindSlot | report.c:69-73 | the search stops at the first entry from j on not rated above vect[j - 1], or at n |
| Report.InsertionExtends | report.c:67-82 | moving vect[j - 1] past the entries rated above it extends the sorted suffix by one |
| Report.InsertOne | report.c:68-82 | one pass of the outer loop extends the descending suffix from j to j - 1, permutes the array and leaves entries from n on alone |
| Report.RotatedKeeps | report.c:74-80 | the rotation leaves the suffix from n alone, and for i == j nothing moves |
| Report.InsertionSort | report.c:62-84 | `insertion_sort` leaves vect[0..n) a permutation of itself in non-increasing rating order, touches nothing from n on, and leaves n < 2 alone |
| Report.Swap | report.c:98 | the swap exchanges two entries and keeps the elements (also lines 106, 132, 135) |
| Report.PartitionScan | report.c:93-102 | the scan permutes only vect(l..h] and stops with entries rated strictly above the pivot before i and the others after it |
| Report.Partition | report.c:88-111 | `partition` returns p in [l, h] with the old vect[l] at p, players rated strictly above it before p and none rated above it after p, up to h, and permutes only vect[l..h] |
| Report.ChoosePivot | report.c:126-138 | the median-of-three pivot choice only permutes vect[l..h] |
| Report.RangeQsort | report.c:113-149 | `range_qsort` permutes vect[l..h] and nothing else, and leaves ranges of fewer than seven entries untouched for the final insertion sort |
| Report.QsortTopAsWritten | report.c:154 | the upper index `n-1` in size_t is n - 1 for n > 0 |
| Report.EmptyQsortWraps | report.c:152-156 | for n == 0 the index wraps to SIZE_MAX, so `range_qsort` takes the partition path on an empty vector |
| Report.MyQsort | report.c:151-156 | `my_qsort`, guarded for n == 0, leaves vect[0..n) a permutation of itself sorted by non-increasing rating and the rest untouched |
| Report.OutputQualifiers | report.c:256-264 | `ok_to_out`: a listed player is not flagged and has games; setting or raising the minimum of games only ever removes players |
| Report.SymbolsIdentify | report.c:185-202 | `get_super_player_symbolstr` gives a one-character mark that tells super-losers, super-winners, players with no games and normal players apart, with "X" for any other code |
| Report.IsOldVersion | report.c:204-215 | `is_old_version` is TRUE exactly when j is the second player of some relative prior |
| Summations.TriIsHalfSquare | summations.c:53-82 | the table size `(np*np-np)/2` is the number of pairs j < i < np |
| Summations.PairIndexSymmetric | summations.c:30-39 | `head2head_idx_sdev(x, y)` gives the pair {x, y} the same slot in either order |
| Summations.TriGrows | summations.c:180-190 | the rows of the triangular table follow one another: row a ends at or before row b starts when a < b |
| Summations.PairIndexInRow | summations.c:34-35 | the pairs (i, j) with j < i fill row i, the slots Tri(i) .. Tri(i) + i - 1 |
| Summations.PairIndexBounded | summations.c:184-185 | for j < i < n the slot lies in [0, (n*n-n)/2), the bound `summations_update` asserts |
| Summations.PairIndexInjective | summations.c:30-39 | distinct pairs get distinct slots |
| Summations.PairIndexOnto | summations.c:30-53 | every slot of the table belongs to some pair, so the table has no unused entry |
| Summations.ZeroReals | summations.c:69-73 | the per-player loop of `summations_clear` zeroes the first np entries and touches no other |
| Summations.ZeroAccs | summations.c:63-67 | the pair loop of `summations_clear` zeroes the first est accumulators |
| Summations.UpdateRow | summations.c:183-189 | the inner loop adds the rating difference of (i, j) to each slot of row i once, and changes no slot outside the row |
| Summations.AddedAtPairIndex | summations.c:183-189 | after the update the slot `head2head_idx_sdev(i, j)` of every pair j < i < topn holds its old sums plus the difference and its square |
| Summations.UpdateTables | summations.c:180-190 | the loops add each of the first topn ratings and its square to its player's sums, each pair's difference once to its slot, and change no other entry |
| Summations.RowsKept | summations.c:180-190 | adding row i keeps the rows added before it |
| Summations.Sums.Init | summations.c:127-142 | `summations_init` sets every pointer to NULL and every scalar sum to zero |
| Summations.Sums.Done | summations.c:144-160 | `summations_done` releases the tables and sets every pointer to NULL, leaving the scalars |
| Summations.Sums.Clear | summations.c:49-74 | `summations_clear` zeroes the six scalars, the np per-player sums and deviations, and the (np*np-np)/2 pair accumulators |
| Summations.Sums.Calloc | summations.c:78-125 | `summations_calloc` returns TRUE exactly when every allocation succeeds, and then holds four fresh, separate, cleared tables sized for np players; on failure the structure keeps its pointers |
| Summations.Sums.Update | summations.c:162-191 | `summations_update` adds white advantage and draw rate and their squares to the scalar sums, leaves their deviations untouched, and updates the first topn players and their pairs as above |
| Ra.ShiftedSum | ra.c:105-113 | subtracting c from every unflagged rating lowers their sum by c times their count |
| Ra.CenteredAverageZero | ra.c:115-135 | after `ratings_center_to_zero` the unflagged ratings sum (so average) to zero, in exact arithmetic |
| Ra.AllFlaggedNone | ra.c:121-127 | the count of unflagged players is zero exactly when every player is flagged |
| Ra.RatingsSet | ra.c:42-50 | `ratings_set` gives the general average to every player that is neither prefed nor flagged; the others, and every entry past n, keep their rating |
| Ra.RatingsCopy | ra.c:52-59 | `ratings_copy` makes t[0..n) equal to r[0..n) and leaves the rest of t |
| Ra.ClearedForPurged | ra.c:93-103 | `ratings_cleared_for_purged` zeroes the rating of every flagged player and leaves the others |
| Ra.CenterToZero | ra.c:115-135 | `ratings_center_to_zero` subtracts the average of the unflagged ratings from each unflagged rating; flagged ratings never change, and with every player flagged nothing does |
| Ra.ApplyExcessCorrection | ra.c:105-113 | `ratings_apply_excess_correction` subtracts the excess from every unflagged rating and leaves the flagged ones |
| Ra.Ratings.StartingPoint | ra.c:29-39 | `ratings_starting_point` sets the current and the backup rating of the first n players to rat0 |
| Ra.Ratings.Results | ra.c:61-91 | `ratings_results` zeroes the purged players' ratings, copies ratings, points and games to the result arrays, and, when the anchor is used with errors relative to the average, shifts every result rating by the same amount so that the anchor gets the general average |
| Ra.AddToPrefix | ra.c:86-88 | the shift loop adds the excess to each of the first n result ratings |
| Cegt.FindMaxlen | cegt.c:182-193 | `find_maxlen` returns the length of the longest of the first n names: no name is longer and one reaches it; 0 for no names |
| Cegt.NameColumn | cegt.c:374-377 | the name column is the longest name capped at 50: 0 for no names, never wider than 50, wide enough for every name up to that cap, and equal to the capped length of some name |
| Cegt.CompareEnc2NotAntisymmetric | cegt.c:331-348 | as written, the two colourings (1, 2) and (2, 1) of one pairing compare as -1 in both directions, so `qsort` gets an inconsistent order |
| Cegt.CompareEnc2IsOrder | cegt.c:331-348 | the corrected comparator is zero exactly for the same (white, black), antisymmetric, a descending order on (smaller index, larger index, white), and equal to the written one except between colour-swapped pairs |
| Cegt.Involving | cegt.c:394-398 | target's encounters are kept in order, each involves target, and each is one of the input's encounters |
| Cegt.SelectFor | cegt.c:393-398 | the copy loop puts exactly target's encounters, in order, at the start of Temp_enc and returns their count (also lines 576-581) |
| Cegt.TallyFor | cegt.c:405-411 | the tally loop sums target's wins, draws and losses, each encounter seen from target's side (also lines 588-594) |
| Cegt.TallyCountsGames | cegt.c:405-411 | won + dra + los is the number of games target played in its encounters (also line 596) |
| Cegt.ScoreFromSnoc | cegt.c:405-411 | summing one more encounter onto the tally |
| Cegt.ScoreFromIsScoreOf | cegt.c:405-411 | the tally does not depend on summing from the front or the back |
| Cegt.LinesCoverTally | cegt.c:618-652 | every encounter lands in exactly one head-to-head line: the lines add up to target's wins, draws and losses |
| Cegt.LinesCoverFrom | cegt.c:618-652 | the same, from the front of the encounters |
| Cegt.RematchSameOpponent | cegt.c:438-447 | an encounter folded in as the colour-swapped rematch is against the same opponent |
| Cegt.OppLines | cegt.c:618-652 | the line loop fills oline with one line per encounter, a rematch folded into the line before it, each with the opponent's rating |
| Cegt.OppLineAt | cegt.c:622-647 | one pass moves past one encounter, or two when the next is the rematch, and makes one line |
| Cegt.CompareOlineIsOrder | cegt.c:477-496 | `compare_oline` orders lines by opponent rating descending, then by opponent index ascending; zero exactly for equal rating and opponent, and antisymmetric |
| Cegt.Digits | cegt.c:510-516 | a printed number has at least one digit |
| Cegt.DigitsRoundTrip | cegt.c:510-516 | the digits `sprintf("%ld")` prints read back as the number |
| Cegt.CalcLenSteps | cegt.c:510-516 | `calclen`: 1 below 10, one more for each factor of ten, and one more for the minus sign of a negative number |
| Cegt.SortedForReportIsComparatorOrder | cegt.c:400 | a list is in report order exactly when every earlier encounter compares below every later one under the corrected `compare_ENC2`, the order the `qsort` call asks for |
| Cegt.InsertForReport | cegt.c:400 | inserting an encounter keeps every record and adds that one |
| Cegt.InsertForReportSorted | cegt.c:400 | inserting an encounter of a new pair into a list in report order keeps it in report order |
| Cegt.SortForReport | cegt.c:400 | the `qsort` of Temp_enc under the corrected comparator returns a permutation of its input (also line 583) |
| Cegt.SortForReportSorted | cegt.c:400 | with one record per ordered pair, the sort leaves Temp_enc in report order (also line 583) |
| Cegt.PairOfOpponent | cegt.c:335-338 | for an encounter of target, the smaller and larger index are those of target and its opponent |
| Cegt.RestAgainstLower | cegt.c:583-652 | in report order, every encounter after the first, and after its rematch when that comes next, is against an opponent of lower index |
| Cegt.LinesUnfold | cegt.c:618-652 | the first head-to-head line is against the first encounter's opponent and the others are the lines of the encounters after it and its rematch |
| Cegt.LinesBelow | cegt.c:618-652 | lines drawn from encounters against opponents below o name only opponents below o |
| Cegt.LinesDescending | cegt.c:583-652 | on encounters in report order, the head-to-head lines name target's opponents in strictly descending index order, so no opponent gets two lines |
| Cegt.ReportLinesDescending | cegt.c:576-652 | from encounters as `calc_encounters` leaves them, the selected, sorted encounters give each opponent exactly one head-to-head line, in descending index order |
| Cegt.InvolvingStrictlySorted | cegt.c:576-581 | selecting target's encounters from a list with one record per ordered pair keeps one record per pair |
| Plyrs.PerfClassification | plyrs.c:148-166 | a player is NOGAMES exactly without games; with games and no prior, SUPERWINNER exactly when it scored every point and SUPERLOSER exactly when it scored none and not every point; a player with a prior and games is NORMAL; no other code is produced |
| Plyrs.Abnormal | plyrs.c:165 | the count of players that are not normal never exceeds the players |
| Plyrs.AbnormalZero | plyrs.c:165-175 | the count is zero exactly when every player is normal |
| Plyrs.Purged | plyrs.c:57-63 | the flags after the purge, one per player |
| Plyrs.PurgeProperties | plyrs.c:47-64 | purging never clears a flag, flags every player whose performance type is not normal, leaves every other flag, and a second purge changes nothing |
| Plyrs.IndexOf | plyrs.c:36-41 | the first player with that name, or n when there is none |
| Plyrs.Players.Name2Idx | plyrs.c:31-43 | `players_name2idx` is TRUE exactly when some player has the name, then sets *pi to the first such player; otherwise *pi is left as it was |
| Plyrs.Players.Purge | plyrs.c:47-64 | `players_purge` flags every unflagged player whose performance type is not normal and touches nothing past n |
| Plyrs.Players.SetPrioredInfo | plyrs.c:66-84 | `players_set_priored_info` marks a player priored exactly when it has a prior or is an end of a relative prior |
| Plyrs.Players.FlagsReset | plyrs.c:87-101 | `players_flags_reset` leaves no player flagged |
| Plyrs.Players.HaveClearFlags | plyrs.c:202-223 | `players_have_clear_flags` is TRUE exactly when no player is flagged |
| Plyrs.Players.SetSuper | plyrs.c:104-176 | `players_set_super` classifies every player from the points and games it has over the encounters and its prior, sets perf_set, and returns how many players are not normal |
| Plyrs.Players.Copy | plyrs.c:179-198 | `players_copy` copies the four scalars and the first n entries of names, flags, prefed and priored marks and performance types; every entry of the target from the source's n on keeps its value in all five arrays |
| Plyrs.CopyFlags | plyrs.c:191-197 | the flag, prefed and priored parts of the copying loop: the first n entries of each source array reach its target, and the rest of each target is kept |
| Plyrs.FirstMatch | plyrs.c:36-41 | the scan stops at the first matching name, or after the last player |
| Plyrs.PurgeFlags | plyrs.c:57-63 | the purge loop |
| Plyrs.MarkPriored | plyrs.c:74-83 | the prior loop copies `isset`; the relative-prior loop then marks both ends of each relative prior |
| Plyrs.MarkEnds | plyrs.c:81-82 | one relative prior marks both of its players |
| Plyrs.Classify | plyrs.c:148-166 | the classification loop gives each player its performance type and counts the ones that are not normal |
| RelPriors.SmallestSigmaReachesAssert | relprior.c:102 | a sigma equal to PRIOR_SMALLEST_SIGMA passes the test of `assign_relative_prior` yet fails the assert `sigma > PRIOR_SMALLEST_SIGMA` of `set_relprior` (also lines 146-154) |
| RelPriors.KindFollowsSigma | relprior.c:146-154 | a line goes on to `set_relprior` exactly when its sigma is neither negative nor below the smallest; a prior it yields is for the first players with the two names, with the line's delta and sigma (also lines 104-120) |
| RelPriors.ScanToEnd | relprior.c:193-240 | when the loading goes through every line, every line could be split, no line was malformed or had too small a sigma, every prior was appended in line order and within capacity, and a refusal was noted exactly when some line had a negative sigma or an unknown name |
| RelPriors.EarlierRefusalForgotten | relprior.c:223-240 | as written, an unmatched line followed by a good one leaves `prior_success` TRUE, while the intended verdict reports the unmatched names |
| RelPriors.RelPriorSet.CopyFrom | relprior.c:60-71 | `relpriors_copy` copies the first r->n entries and sets s->n = r->n, leaving the rest of s |
| RelPriors.RelPriorSet.SetRelprior | relprior.c:93-138 | `set_relprior` returns FALSE with the set unchanged when player_a, or else player_b, is unknown; otherwise it increments n before the capacity test, exits when the old n was at MAX_RELPRIORS, and else appends (first p_a, first p_b, delta, sigma) at the old n |
| RelPriors.RelPriorSet.AssignRelativePrior | relprior.c:140-165 | `assign_relative_prior` returns FALSE with nothing changed for a negative sigma or an unknown name, exits for a sigma below the smallest or a full set, and otherwise appends the prior and returns TRUE |
| RelPriors.RelPriorSet.LoadLine | relprior.c:193-223 | one line: a blank line is skipped; a line that `csv_line_init` cannot split for want of memory ends the program ("Failure to input -r file"), and so does one without exactly four fields with numeric third and fourth; any other is assigned |
| RelPriors.RelPriorSet.Load | relprior.c:167-243 | `relpriors_load` exits when the file cannot be opened; otherwise it reads, with each line's allocation outcome as a parameter, the lines in order up to the first that ends the program, appends their priors in order, and exits with "not matching names" when some line was refused |
| RelPriors.LoadLines | relprior.c:193-240 | the loop over the lines of the opened file and the verdict after it |
| RelPriors.ScanSnoc | relprior.c:193-225 | one more line continues the loading from where the earlier lines left it |
| RelPriors.ScanStep | relprior.c:193-225 | the same, with the loading so far spelled out |
| RelpMan.FlattenAppend | relpman.c:125-127 | the units of two chains one after the other are the units of the first, then those of the second |
| RelpMan.FlattenSnoc | relpman.c:125-127 | walking one more block adds that block's units |
| RelpMan.FlattenAt | relpman.c:151-159 | unit j of block k comes after the units of the blocks before k |
| RelpMan.Clear | relpman.c:32-39 | `rpblock_clear` leaves no unit in use and room for MAX_RPBLOCK |
| RelpMan.Create | relpman.c:41-47 | `rpblock_create` gives an empty block with room for MAX_RPBLOCK units |
| RelpMan.Add | relpman.c:58-84 | `rpblock_add` puts the unit in the first free slot; a full block chains a new block that takes it; when that block cannot be allocated the result is FALSE and nothing changes |
| RelpMan.Parts | relpman.c:125-127 | the units in use, block by block |
| RelpMan.AddKeepsChain | relpman.c:58-84 | a successful add on the last block keeps every block but the last full and leaves the earlier blocks as they were (also lines 168-181) |
| RelpMan.AddAppendsUnit | relpman.c:58-84 | a successful add on the last block appends the unit to the chain's units (also lines 168-181) |
| RelpMan.PartsPrefix | relpman.c:168-181 | adding at the end leaves the units of the blocks before the cursor alone |
| RelpMan.FullCount | relpman.c:119-129 | a chain with every block but the last full holds MAX_RPBLOCK units per block but the last, plus the last block's |
| RelpMan.FlattenShort | relpman.c:70-81 | the units of a chain of one or two blocks |
| RelpMan.Manager.PositionBound | relpman.c:149 | the cursor never passes the chain's last unit |
| RelpMan.Manager.CountByBlocks | relpman.c:119-129 | the count of units follows from the number of blocks and the fill of the last |
| RelpMan.Manager.constructor | relpman.c:88-98 | a manager starts with no chain and a null cursor |
| RelpMan.Manager.Init | relpman.c:88-98 | `rpman_init` returns whether the first block could be allocated; the chain is then that one empty block, and the cursor is null either way |
| RelpMan.Manager.Done | relpman.c:100-117 | `rpman_done` releases the chain: first, last and the cursor become null and i becomes 0 |
| RelpMan.Manager.Count | relpman.c:119-129 | `rpman_count` returns the number of units in the chain |
| RelpMan.Manager.ParkStart | relpman.c:131-137 | `rpman_parkstart` moves the cursor to the first unit of the first block |
| RelpMan.Manager.PointNextUnit | relpman.c:139-165 | `rpman_pointnext_unit` returns the unit at the cursor and moves the cursor one unit on, skipping used-up blocks; at the end of the chain it returns NULL and leaves the cursor alone |
| RelpMan.Manager.AddUnit | relpman.c:168-181 | `rpman_add_unit` appends the unit to the chain, chaining a new last block when the last is full; it fails with nothing changed when that block cannot be allocated, and the cursor keeps its place |
| RelpMan.Manager.CopyOut | relpman.c:197-200 | the loop over `rpman_pointnext_unit` copies every unit of the chain, in order, to the array, and leaves the cursor parked past the last unit |
| RelpMan.Manager.ToNewArray | relpman.c:184-204 | `rpman_to_newarray` returns NULL with *psz and the cursor untouched when the array cannot be allocated; otherwise a new array of the chain's units in order, with its size in *psz, and the cursor parked past the last unit |
| Groups.Start | groups.c:1012-1014 | the first loop of `scan_encounters` labels player i < N_plyrs with i and leaves the rest of the table alone |
| Groups.Relabel | groups.c:1027-1031 | the join loop gives every one of the first N_plyrs players labelled higherg the label lowerg and changes no other label |
| Groups.Step | groups.c:1018-1033 | one encounter of the scan keeps the size of the label table |
| Groups.Labels | groups.c:1016-1035 | the labels after the first k encounters keep the size of the table |
| Groups.JoinKeepsCanonical | groups.c:1024-1032 | a join keeps every label the smallest index that carries it, removes exactly one label, unites the two players and never splits players with equal labels |
| Groups.RelabelRoots | groups.c:1027-1031 | relabelling the higher root to the lower removes exactly that root from the count of labels |
| Groups.LabelsGroups | groups.c:1011-1035 | after k encounters every label is the smallest index of its group, the number of labels plus the number of joins is N_plyrs, and the two players of every encounter that is not one-sided share a label |
| Groups.StepGroups | groups.c:1018-1033 | one encounter keeps the labels canonical, drops a label exactly when it joins, unites its two players when it is not one-sided, and keeps equal labels equal |
| Groups.StartRoots | groups.c:1012-1014 | at the start each of the first N_plyrs players is its own label |
| Groups.LabelsDecrease | groups.c:1024-1032 | a player's label never grows |
| Groups.RelabelLoop | groups.c:1027-1031 | the join loop on the array computes Relabel |
| Groups.StartLoop | groups.c:1012-1014 | the first loop on the array computes Start |
| Groups.ScanEncounters | groups.c:1003-1048 | `scan_encounters` leaves the labels of all encounters in group_belong, N_groups equal to N_plyrs less the joins, the one-sided encounters appended in order to SE after what it held, and in SE2 exactly those of SE whose players have different labels, in order |
| Groups.OneSidedGrows | groups.c:1019-1020 | the one-sided encounters seen so far never outnumber those of all encounters |
| Groups.OneSidedMonotone | groups.c:1019-1020 | more encounters never give fewer one-sided ones |
| Groups.OneSidedAmong | groups.c:1019-1020 | the one-sided encounters copied to SE name only players of the table |
| Groups.CrossLoop | groups.c:1037-1044 | the last loop of `scan_encounters` copies to SE2 exactly the encounters of SE that cross labels, in order, and no more than SE holds |
| Groups.SnocSplit | groups.c:362-366 | putting an encounter on one of the two outputs adds it to their union |
| Groups.PrefixMultiset | groups.c:359 | the first k encounters are the first k - 1 and the k-th |
| Groups.SieveSplits | groups.c:351-374 | the two outputs of `sieve_encounters` together hold every encounter exactly once |
| Groups.SieveStep | groups.c:363-367 | each encounter goes to enca when its two players belong to the same group and to encb otherwise, and the other output is unchanged |
| Groups.SieveLengths | groups.c:370-371 | *N_enca + *N_encb is N_enc |
| Groups.Push | groups.c:1020-1042 | `a[k++] = x` keeps the first k entries and puts x after them |
| Groups.Root | groups.c:142-147 | following the `combined` links from a group in use ends at a group in use that was not combined |
| Groups.Without | groups.c:811-824 | unlinking g leaves exactly the other groups of the set, never more of them |
| Groups.WithoutDistinct | groups.c:811-824 | unlinking keeps every group in the set at most once |
| Groups.MembersWithout | groups.c:811-824 | taking a group out of the set, with only that group's record changed, keeps the set valid (also lines 376-414) |
| Groups.CombineRoots | groups.c:142-147 | once h is combined into the root g, the groups that led to h lead to g and every other group keeps where its links lead (also line 398) |
| Groups.CombineKeepsForest | groups.c:398 | the new `combined` link keeps the links acyclic |
| Groups.CombineLists | groups.c:398-413 | after `group_gocombine(g, h)` g's participants, wins and losses are its own followed by h's, h is combined into g with empty lists, and every other group is unchanged |
| Groups.CombineStep | groups.c:376-414 | `group_gocombine` keeps the set valid and the links acyclic, and redirects to g every group whose links led to h |
| Groups.ConnectKeepsDistinct | groups.c:165-221 | connecting a node with a group never gives two connections to the same group label, and a connection to that label is then present |
| Groups.HasGroupId | groups.c:180-184 | the search loop finds a connection exactly when one of them points at a node whose group is labelled group_id (also lines 209-213) |
| Groups.GroupSet.constructor | groups.c:55-65 | the pools start zeroed: no groups, participants or connections in use and no node with a group |
| Groups.GroupSet.Init | groups.c:97-103 | `groupset_init` resets the prehead, makes it the tail, leaves the set empty with one slot in use and changes nothing else |
| Groups.GroupSet.GeneralInit | groups.c:294-305 | `convert_general_init` empties the participant and connection pools, initialises the set and takes the group from the first N_plyrs nodes, leaving the other nodes alone |
| Groups.GroupSet.Head | groups.c:106 | `groupset_head` is the first group of the set, NULL for the empty set |
| Groups.GroupSet.Tail | groups.c:105 | `groupset_tail` returns the stored tail: while it is current, the last group of the set and the prehead exactly when the set is empty; once stale, a group outside the set |
| Groups.GroupSet.Create | groups.c:127-140 | `group_new` and `group_reset` give the next slot of the pool as a group with no links, no lists and id -1 |
| Groups.GroupSet.Add | groups.c:108-114 | `groupset_add` links the group after the stored tail and makes it the tail: after a current tail the group joins the end of the set, after a stale one the set is unchanged; nothing else changes |
| Groups.GroupSet.Find | groups.c:116-123 | `groupset_find` returns the first group of the set with the given id, and NULL exactly when no group has it |
| Groups.GroupSet.Combined | groups.c:142-147 | `group_combined` returns the group that the `combined` links end at |
| Groups.GroupSet.Unlink | groups.c:811-824 | `group_unlink` takes g out of the set and marks it isolated, leaving the stored tail as it was, so unlinking the tail group leaves the tail stale; nothing else changes |
| Groups.GroupSet.Gocombine | groups.c:376-414 | `group_gocombine` does nothing when h is already combined into g; otherwise h leaves the set and is combined into g, which takes over h's lists after its own, every group that led to h leads to g, and the stored tail is left as it was (stale when it was h) |
| Groups.GroupSet.AddParticipant | groups.c:149-163 | `add_participant` appends player i to g's participants and draws one participant from the pool |
| Groups.GroupSet.AddConnection | groups.c:165-192 | `add_connection` draws a connection from the pool and appends node i to g's wins unless a connection already points at a group with the id of i's group; an empty list always takes it |
| Groups.GroupSet.AddRevconn | groups.c:194-221 | `add_revconn` does the same for g's losses |
| Groups.GroupSet.Bel | groups.c:341-349 | the label each node leads to, one per player (also lines 474-486) |
| Groups.GroupSet.Belonging | groups.c:341-349 | `group_belonging` returns the id of the group the player's node leads to, -1 for a node without a group (also lines 474-486) |
| Groups.GroupSet.Sieve | groups.c:351-374 | `sieve_encounters` puts the encounters whose players belong to the same group in enca and the others in encb, each in order, and the two counts add up to N_enc |
| Groups.CombinedIn | groups.c:142-147 | the loop of `group_combined` ends at the root of g |
| Groups.BelongingIn | groups.c:341-349 | `group_belonging` on the pool's values |
| Groups.SieveIn | groups.c:357-368 | the loop of `sieve_encounters` on the pool's values |
| Groups.BelOf | groups.c:341-349 | for each node, the id of the group its links end at, -1 when it has no group (also lines 474-486) |
| Groups.ClearNodes | groups.c:301-303 | the node loop of `convert_general_init` clears the first N_plyrs nodes and no other |
| Groups.EncmemInitAsWritten | groups.c:1059-1077 | `supporting_encmem_init` as written succeeds exactly when both allocations do, and then stores the second buffer in SE and leaves SE2 as it was; on failure nothing changes |
| Groups.EncmemSe2Unset | groups.c:1073-1074 | from the NULL start the as-written initialisation succeeds, loses the first buffer and leaves SE2 NULL for `scan_encounters` to write into (also line 1043) |
| Groups.EncmemInitSetsBoth | groups.c:1059-1077 | the intended initialisation succeeds exactly when both allocations do, then sets SE and SE2 to the two buffers and keeps the counts; on failure nothing changes |
| Groups.EncmemDone | groups.c:1079-1087 | `supporting_encmem_done` frees exactly the buffers that are not NULL and resets both counts |
| Groups.WithoutKeepsLast | groups.c:811-824 | taking a group other than the last out of the set keeps the last group |
| Groups.TailOkWithout | groups.c:376-391 | taking a group out of the set keeps the stored tail the last group or a group outside the set; it stays current unless it is the group taken out, which makes it stale (also lines 105-114, 811-824) |
| GroupBits.PutAsWritten | groups.c:419-425 | the local `ba_put` as written: a bit below max is set when its word lies in the pod; when it lies past the pod the write goes out of bounds, shown as None (also lines 25-28) |
| GroupBits.PodOverflow | groups.c:26 | with the pod declared as MAXPLAYERS/64 words and `ba_init(&BA, MAXPLAYERS)`, putting the last player writes past the pod (also lines 865, 419-425) |
| GroupBits.ClearAsWritten | groups.c:437-453 | the clearing loops of the local `ba_init` and `ba_done` as written turn off every bit of the first max/64 whole words and keep every later word, the partial last word included (lines 443 and 451) |
| GroupBits.StaleBitSurvives | groups.c:437-453 | when the pod holds the partial last word of max, a bit of that word below max that was on stays on after either clearing loop as written, for example bit 69 with max = 100 |
| GroupBits.StaleBitAfterInit | groups.c:437-444 | on a pod enlarged to hold MAXPLAYERS bits, bit MAXPLAYERS - 1 left on stays on after `ba_init(&BA, MAXPLAYERS)` (also line 865) |
| GroupBits.DeclaredPodAllCleared | groups.c:26-28 | with the pod declared as MAXPLAYERS/64 words and the bounds MAXPLAYERS, MAXPLAYERS - 1 and MAXPLAYERS - 2 that groups.c passes, the as-written clearing turns off every bit of the pod, so the stale bit cannot occur in the program as it is (also lines 443, 451, 553-554, 665-666, 865) |
| GroupBits.LocalBits.constructor | groups.c:25-28 | the static bit array starts with every word zero and max 0 |
| GroupBits.LocalBits.BaPut | groups.c:419-425 | `ba_put` sets bit x when x < max and changes nothing otherwise |
| GroupBits.LocalBits.BaIsOn | groups.c:427-435 | `ba_ison` returns bit x of the pod |
| GroupBits.LocalBits.BaInit | groups.c:437-444 | `ba_init` sets max and clears every word that holds a bit below it (the partial last word included), keeping the others |
| GroupBits.LocalBits.BaDone | groups.c:446-453 | the corrected `ba_done` (see Findings, groups.c:451): it clears every word that holds a bit below the old max, the partial last word included, so no such bit is on afterwards, and sets max to 0 |
| GroupBits.ClearWords | groups.c:443-451 | the clearing loop zeroes the first k words and no other |
| GroupBits.InitThenPut | groups.c:419-444 | after `ba_init(max)`, whatever the pod held, a `ba_put(x)` with x < max leaves exactly bit x on among the bits below max |
| PgnGet.NewlinesSplit | pgnget.c:170-171 | the newlines of a stretch of input are those of its two parts |
| PgnGet.SkipStr | pgnget.c:409-419 | `skip_string` never moves back and never passes the end of the file |
| PgnGet.SkipStrStops | pgnget.c:409-419 | `skip_string` stops right after the first '"', or at EOF when there is none, and counts every newline it passes |
| PgnGet.SkipString | pgnget.c:409-419 | the loop of `skip_string` computes SkipStr |
| PgnGet.ReadStr | pgnget.c:422-463 | `read_stringln` stores at most PGNSTRSIZE - 1 characters and never moves back or past EOF |
| PgnGet.Escape | pgnget.c:441-454 | the escaped form of a text is never shorter than the text |
| PgnGet.ReadStrEscape | pgnget.c:422-463 | reading back the escaped form of a text without newlines gives the text and consumes the closing '"', when it fits the buffer |
| PgnGet.ReadStrKeepsOtherEscape | pgnget.c:448-452 | a backslash before any other character is stored with that character when there is room |
| PgnGet.ReadStrStopsAtNewline | pgnget.c:436-439 | a newline ends the string and is pushed back |
| PgnGet.CopyOut | pgnget.c:462 | `mystrncpy` into a buffer as large as the source keeps the C string, within PGNSTRSIZE - 1 characters and without a terminator |
| PgnGet.ReadStringln | pgnget.c:422-463 | the loop of `read_stringln` computes ReadStr, and the copied-out string is its C string |
| PgnGet.SkipCom | pgnget.c:164-180 | `skip_comment` never moves back and never passes the end of the file |
| PgnGet.SkipComCounts | pgnget.c:164-180 | `skip_comment` counts every newline the comment spans, quoted strings included |
| PgnGet.SkipComAtBrace | pgnget.c:176-177 | with no '"' before it, the first '}' ends the comment |
| PgnGet.SkipComOverString | pgnget.c:172-175 | a quoted string inside a comment is passed over, a '}' in it included |
| PgnGet.SkipComment | pgnget.c:164-180 | the loop of `skip_comment` computes SkipCom |
| PgnGet.DepthSnoc | pgnget.c:396-404 | the nesting of a stretch grows by one at '(' and drops by one at ')' |
| PgnGet.SkipVar | pgnget.c:386-407 | `skip_variation` never moves back and never passes the end of the file |
| PgnGet.SkipVarCloses | pgnget.c:386-407 | `skip_variation` stops right after the first ')' that closes the variation, or at EOF with the nesting never below zero, and counts every newline it passes |
| PgnGet.SkipVariation | pgnget.c:386-407 | the loop of `skip_variation` computes SkipVar from nesting level 0 |
| PgnGet.CopyOutPlain | pgnget.c:380-381 | `mystrncpy` keeps a short C string whole |
| PgnGet.ReadTagFrom | pgnget.c:351-375 | the read loop of `read_tagln` stores at most PGNSTRSIZE - 1 characters, never moves back or past EOF, and keeps parameter strings free of terminators |
| PgnGet.DropSpaces | pgnget.c:378 | the skipped leading part is all white space, and what remains starts with none |
| PgnGet.TakeWord | pgnget.c:378 | the word is a prefix with no white space, ended by white space or the end of the text |
| PgnGet.ReadTagln | pgnget.c:351-383 | `read_tagln` returns the first word of the tag text (none when sscanf finds none), the last string read, and where the input and the line counter stand |
| PgnGet.Res2Int | pgnget.c:485-496 | `res2int` gives WHITE_WIN exactly for "1-0", BLACK_WIN exactly for "0-1" and RESULT_DRAW for anything else |
| PgnGet.Res2IntMarkers | pgnget.c:485-496 | the four result markers of the PGN standard score as a white win, a black win and two draws |
| PgnGet.ReadTagWord | pgnget.c:375 | characters that are not '"', ']' or a newline are stored one by one |
| PgnGet.SliceOf | pgnget.c:358-375 | a slice of a known part of the input is the slice of that part |
| PgnGet.ReadTagValue | pgnget.c:361-367 | a quoted value followed by ']' ends the tag with that value |
| PgnGet.MidSlice | pgnget.c:358-375 | the middle of a concatenation is the middle part |
| PgnGet.TagBodyParts | pgnget.c:358-375 | where the name, the value and the ']' of a tag pair lie |
| PgnGet.ReadTagPair | pgnget.c:351-383 | reading `[name "value"]` gives the name as the command and the value as the parameter, consumes up to the ']' and counts no line |
| PgnGet.TakeWordOf | pgnget.c:378 | the word of a symbol followed by white space is the symbol |
| PgnGet.WordOfName | pgnget.c:378 | sscanf's first word of a tag name followed by a space is the name |
| PgnGet.JoinedPrefix | pgnget.c:137-157 | the labels of the first k names are a prefix of the label buffer |
| PgnGet.LabelsFrom | pgnget.c:148-152 | at Name[i] the label buffer holds the i-th name, a NUL and the later labels |
| PgnGet.LabelsSplit | pgnget.c:148-152 | a buffer whose prefix is P + m continues with m after P |
| PgnGet.NameReadsBack | pgnget.c:147-152 | reading the label buffer as a C string at Name[i] gives the i-th name back |
| PgnGet.IndexOf | pgnget.c:125-135 | the index of the first name equal to s, and none exactly when no name is s |
| PgnGet.PlayerIdxFromStr | pgnget.c:125-135 | `playeridx_from_str` finds the first index whose name is s, and reports FALSE exactly when there is none |
| PgnGet.AddPlayerKeepsValid | pgnget.c:137-157 | `addplayer` keeps the tables valid; on success the name reads back at the next index, the earlier names stay and the buffer grows by the name and its NUL; on failure nothing changes |
| PgnGet.RegisterKeepsValid | pgnget.c:199-205 | looking a player up or adding it keeps the tables valid and the earlier names, and on success the index holds the name |
| PgnGet.RegisterKnown | pgnget.c:199-205 | a name already present is found at its index and nothing changes |
| PgnGet.PlayersKeepValid | pgnget.c:194-206 | registering both players of a game keeps the tables valid and the earlier names, and on success the two indices hold the two names |
| PgnGet.CollectPastCapacity | pgnget.c:208-213 | with MAXGAMES games stored and both players known, `pgn_result_collect` as written succeeds and stores a game one past the end of the game arrays |
| PgnGet.CollectKeepsValid | pgnget.c:194-216 | collecting keeps the tables valid; on success one game naming the record's players and holding its result is appended and the earlier names and games stay; on failure no game is stored, and with full arrays it fails |
| PgnGet.CollectKnownPlayers | pgnget.c:194-216 | a game between two registered players is appended without touching the names while there is room |
| PgnGet.Registry.constructor | pgnget.c:55-66 | the tables start with no players and no games |
| PgnGet.Registry.AddPlayer | pgnget.c:137-157 | `addplayer` on the tables does what AddPlayerOf says |
| PgnGet.Registry.Collect | pgnget.c:194-216 | `pgn_result_collect` on the tables does what Collected says |
| PgnGet.ApplyTag | pgnget.c:292-306 | a tag pair keeps both recorded names free of terminators |
| PgnGet.Dispatch | pgnget.c:247-322 | the switch of `fpgnscan` always moves on, never past EOF, and keeps the recorded names free of terminators |
| PgnGet.ScanKeepsValid | pgnget.c:225-348 | whatever the file holds, `fpgnscan` leaves the tables valid: no name twice, every game between registered players, and every table within its size |
| PgnGet.DispatchOne | pgnget.c:247-322 | one pass of the switch computes Dispatch |
| PgnGet.FPgnScan | pgnget.c:225-348 | the loop of `fpgnscan` computes ScanFrom over the whole file: the tables, the error lines and whether it ended with "out of memory" |
| PgnGet.PgnGetResults | pgnget.c:94-107 | `pgn_getresults` returns FALSE and changes nothing when the file cannot be opened; otherwise it scans the file into the tables without clearing them first |
| PgnGet.DispatchTag | pgnget.c:291-306 | a well-formed tag pair is one step of the scan that applies that tag |
| PgnGet.ScanOverStep | pgnget.c:247-336 | after a character that is not white space or '.', a complete record is collected and reset, or the scan ends with "out of memory" |
| PgnGet.ScanNewline | pgnget.c:241-244 | a newline is counted and passed over |
| PgnGet.ScanTagLine | pgnget.c:241-306 | a tag pair on a line of its own that leaves the record incomplete is applied, and the scan goes on at the next line |
| PgnGet.ApplyRosterTags | pgnget.c:294-305 | a White, Black or Result tag sets just its own field of the record and marks it present |
| PgnGet.ApplyOtherTag | pgnget.c:292-306 | any other tag leaves the record as it is |
| PgnGet.RosterNames | pgnget.c:466-482 | White, Black and Result are tag names |
| PgnGet.ScanResultTag | pgnget.c:294-337 | a Result tag after the two names completes the record: the game is collected at once and the record starts afresh |
| PgnGet.ScanGameHeader | pgnget.c:225-348 | a White, a Black and a Result tag line make one game with the names and the result the tags hold, collected as soon as the Result tag is read |
| MainC.OptionListLetters | main.c:73 | in OPTION_LIST i, a and o take an argument and v, h, q and L do not |
| MainC.ListLetterV | main.c:73 | v is a letter of OPTION_LIST without an argument |
| MainC.ListLetterH | main.c:73 | h is a letter of OPTION_LIST without an argument |
| MainC.ListLetterI | main.c:73 | i is a letter of OPTION_LIST that takes an argument |
| MainC.ListLetterQ | main.c:73 | q is a letter of OPTION_LIST without an argument |
| MainC.ListLetterBigL | main.c:73 | L is a letter of OPTION_LIST without an argument |
| MainC.ListLetterA | main.c:73 | a is a letter of OPTION_LIST that takes an argument |
| MainC.ListLetterO | main.c:73 | o is a letter of OPTION_LIST that takes an argument |
| MainC.LetterAt | main.c:73 | the first occurrence of a letter in the list is where the scanner finds it |
| MainC.OptLoop | main.c:192-226 | when the option loop reaches END_OF_OPTIONS, -i has always left a file name, and opt_index is within argc |
| MainC.OptStep | main.c:192-226 | one turn of the loop: END_OF_OPTIONS ends it; v, L, h, i, o and q set their mode and go on; a with a number records it and goes on and without one exits; '?' exits after `parameter_error`; any other letter exits with "ERROR" |
| MainC.Decide | main.c:231-275 | the program reads games only with at least one argument, no -v, -L or -h, and exactly one input: the -i file with no argument left, or else the last argument with opt_index one before argc |
| MainC.LoopOptions | main.c:192-226 | the option loop over the scanner computes OptLoop from the start |
| MainC.ParseCommandLine | main.c:175-266 | `main` up to `pgn_getresults` computes the option loop followed by the checks after it |
| MainC.NoArguments | main.c:240-245 | with no argument the program stops with its banner |
| MainC.FileOnly | main.c:262-266 | a single argument without a dash is the input file and sets no flag |
| MainC.VersionFirst | main.c:231-239 | -v wins over every later check, even a missing file name |
| MainC.InputTwice | main.c:255-258 | an input given by -i and as a remaining argument is refused as extra parameters |
| MainC.AverageShadowed | main.c:180 | "-a x file" reads x and file, yet as written every player starts at 2300 because the local `general_average` shadows the global; the intended average is x (also lines 119, 205-211, 851-861) |
| MainC.AverageNotANumber | main.c:205-211 | an -a value that sscanf cannot read ends the program |
| MainC.GameTotals | main.c:833-846 | over the first n players a game hands out the white share if white is among them, the black share if black is, and one game per side among them |
| MainC.SumsSnoc | main.c:827-847 | one more game adds its own points and sides to the totals |
| MainC.SumsEmpty | main.c:822-825 | with no games nothing is obtained or played |
| MainC.PointsAndGamesBalance | main.c:817-848 | with every score one of the three codes, the obtained points add up to the number of games and the games played to twice that |
| MainC.CalcObtainedPlayedby | main.c:817-848 | `calc_obtained_playedby` leaves for every player the points and the games of all games in which it played, and nothing past N_players changes |
| MainC.Tally | main.c:829-846 | one game adds its points and sides to its two players |
| MainC.InitRating | main.c:851-861 | `init_rating` sets the current and the backup rating of every player to the average and nothing past N_players changes |
| OrdoC.ArgAt | ordo.c:135 | `argv[parnumber]` is an argument when parnumber < argc and the NULL at `argv[argc]` when it equals argc |
| OrdoC.Args | ordo.c:104-131 | `main` stops with EXIT_FAILURE exactly when argc < 1, shows the version exactly when the first argument is "-v", reports "parameter missing" exactly for a lone "-a", and exits exactly when the -a value is not a number; otherwise it reads `argv[3]` at the -a value or `argv[1]` at 2300, the NULL past the arguments when there is none |
| OrdoC.AverageTakesEffect | ordo.c:119-131 | "-a x file" reads file with every player at x, unlike main.c, where the value is lost (also line 57) |
| OrdoC.ExtraArgumentsIgnored | ordo.c:104-135 | arguments after the file are ignored |
| OrdoC.RunOrdo | ordo.c:104-141 | `main` up to `init_rating`: a refused command line changes nothing; a file that cannot be opened returns EXIT_FAILURE with no tables changed; otherwise the file is scanned into the tables, "out of memory" exits, and every player's current and backup rating starts at the average; the ratings past the players, and all ratings on every other exit, are kept |
| OrdoC.SeparatorsAreNotMoves | ordo.c:596-600 | an `issep` character is never move text, and one that is not '{' or '(' is white space or '.' |
| OrdoC.EndMarkersAndScores | ordo.c:602-608 | a token that is not an `isend` marker scores as a draw, "1/2-1/2" is the only end marker that does, and every decisive score comes from an end marker (also lines 630-640) |
| OrdoC.UnknownResult | ordo.c:602-608 | "*" does not end a game yet scores as a draw (also lines 630-640) |

## Left out

- Floating-point fitting is not modelled:
  - the rating solvers, the simulations and the expected-score computations;
  - in `encount.c`, `calc_expected` and `calc_output_info`;
  - in `main.c` and `ordo.c`, `calc_rating`, `adjust_rating` and `xpect`.
- `summations_calc_sdev` and `get_sdev` are not modelled; they take square roots.
- `report.c`'s `rating_round` and `get_sdev_str` are not modelled, and neither are `cegt.c`'s `av_opp` and `draw_percentage`.
- Ratings and sums are `real`, so the model has no rounding. This affects the averages of `ra.c`, the sums of `summations.c` and the ratings compared by the sorts.
- All printing and report formatting are left out:
  - `all_report`, `errorsout`, `ctsout` and the `output_*` functions of `cegt.c`;
  - the output and simplification functions of `groups.c`;
  - `pgn_all_report` in `main.c` and `ordo.c`, except that the fixed file name "ordo.csv" is kept as a constant;
  - progress messages and the quiet flag;
  - the printing of `printlonghelp` and `optionlist_done`;
  - `report_error`, which becomes a list of the line numbers that are reported.
- `print_justified` is not modelled. It is `fprint_justified` on stdout, and the stream is the string written.
- `sscanf` and `getnum` are parameters (`scan`, `number`): they give the parsed value or None.
- `fopen` and `fclose` are not modelled.
  - A file is an optional character sequence; None stands for a file that cannot be opened.
  - This also covers `fopen(argv[argc])` in `ordo.c`, which C leaves undefined.
- `relpriors_load` reads the file with `fgets` into a 1024-byte buffer. The model takes whole lines; how a longer line is split is not modelled.
- `csv_line_init` stores tokens back to back in a 4096-byte buffer without a bound check. The model's buffer is unbounded and does not capture that overflow.
- `strlist_next` on a NULL list is not modelled: the list is an object that exists.
- Uninitialised C buffers are modelled as follows:
  - `read_tagln` copies an unset value when a tag has no quoted value; the model gives the empty string;
  - an `sscanf` that reads no word gives None.
- The values of DISCARD, MAX_RPBLOCK, MAX_RELPRIORS, PRIOR_SMALLEST_SIGMA and the PERF_* codes come from headers that are not part of this model. They are parameters or datatype constructors.
- The relative-prior store is modelled as a sequence of blocks in chain order.
  - The model does not capture node aliasing.
  - `rpblock_destroy` and `memrel` are modelled only as emptying the chain.
- From `groups.c`, these are not modelled:
  - the simplification pass: `simplify`, `simplify_all`, `finish_it`, `group_pointed`, `group_pointed_by_node` and `group_next_pointed_by_beat`;
  - the conversion functions `enc2groups`, `ifisolated2group` and `convert_to_groups`;
  - `groupset_sanity_check`;
  - the output functions.
- `relpriors_shuffle` (random Gaussian noise) and `relpriors_show` (printing) are not modelled.
- The memory-failure exit of `players_set_super`, and the checks `ratings_sanity` and `playedby_sanity`, are not modelled.
- The headers are not modelled. Where a header lags its `.c` file, the model follows the `.c` file, for example `struct ENC` in `mytypes.h` against the W/D/L fields that `encount.c` uses.
- Ra.Ratings.Results: requires the anchor to be a player when the anchor shift is on; the C code reads `ratingof_results[anchor]` unchecked.
- Groups.GroupSet.Create: requires a free group record. The static pool draw in `group_new` is unchecked.
- Groups.GroupSet.AddParticipant: requires a free participant record. `participant_new` draws from its pool unchecked.
- Groups.GroupSet.AddConnection: requires a free connection record. `connection_new` draws from its pool unchecked.
- Groups.GroupSet.AddRevconn: requires a free connection record. `connection_new` draws from its pool unchecked.
- Groups.GroupSet.Add: requires a live group that is not yet in the chain. Appending it twice would corrupt the doubly linked list in C.
- Groups.GroupSet.Gocombine: requires, when h is not yet combined into g, that:
  - h is in the chain, following `assert(pr)`;
  - g's three lists are non-empty, because the C code follows their last entries;
  - h's three lists are non-empty too. Combining an empty list sets g's last pointer to NULL (groups.c:401, 406, 411), and the next add to g or combine into g (groups.c:160, 187-188, 400, 405, 410) then follows NULL. The model has no last pointers, so it admits only the combinations after which g's lists stay well formed.
- Groups.GroupSet.Add: the model's set is the chain reachable from the prehead. After a stale tail, the added group hangs off a group outside the set. The model does not record that dangling link, nor what a later unlink or combine of such a group does to it.
- Cegt.OppLines: takes Temp_enc in any order. The `qsort` by `compare_ENC2` (cegt.c:400, 583) is modelled as `SortForReport` with the corrected comparator. With the comparator as written, the order `qsort` returns is unspecified, so the model does not say which lines C prints then.
- MyHelp.LeftTab: does not model the 80-character `head` buffer that `build_head` fills in `printlonghelp` (myhelp.c:107, 113, 121). A head of 80 or more characters overflows it, which C leaves undefined. The model measures heads of any length.
- CommitRb.Workspace.Release: the shell's expansion of `$`, backquotes, `\` and `"` inside `echo "v"` (commit.rb:24), and echo's reading of a leading '-', are not modelled. For such a version, what lands in version.txt is the parameter shellOut. The commands the other steps give the shell (tag, zenity) are recorded as strings and not interpreted.
- CommitRb.ReleasedContents: states version.txt's content as the normalised answer plus '\n' only for a `ShellInert` version; otherwise it is shellOut.
- CommitRb.NextDefaultIsThisVersion: the round trip through version.txt is proved only for a `ShellInert` version.
- GroupBits.LocalBits.BaIsOn: requires x to lie inside the pod. The local `ba_ison` (groups.c:427-435) reads `pod[x/64]` with no check at all.
- RelPriors.RelPriorSet.SetRelprior: requires sigma >= PRIOR_SMALLEST_SIGMA. The assert at relprior.c:102 demands sigma > PRIOR_SMALLEST_SIGMA (see the findings).
- RandFast.Rot: requires 0 < k < 32; the source only rotates by 27 and 17.

## Findings

| source | as written | input that shows it | evidently intended | confidence | as-written member | corrected member |
|---|---|---|---|---|---|---|
| mystr.c:31 | for n == 1 the copy loop is skipped and no terminator is written | copying "abc" into a one-byte buffer holding 'a' | every copy ends with a terminator, as mystr.c:12-13 promises | high, not executed | MyStr.StrncpyAsWritten, MyStr.OneByteCounterexample | MyStr.StrncpyIntended, MyStr.IntendedAlwaysTerminates |
| cegt.c:343-344 | for the same two players in either colour, `compare_ENC2` returns -1 both ways | the encounters (1, 2) and (2, 1) | an antisymmetric order, as `qsort` requires | high, not executed | Cegt.CompareEnc2AsWritten, Cegt.CompareEnc2NotAntisymmetric | Cegt.CompareEnc2IsOrder |
| report.c:154 | `n-1` in size_t wraps for n == 0 | `my_qsort` with n = 0 | an empty vector is left alone | high, not executed | Report.QsortTopAsWritten, Report.EmptyQsortWraps | Report.MyQsort |
| csv.c:43 | after an unterminated quote, `p++` steps past the NUL | the line `"ab` | the token stops at the end of the line | high, not executed | Csv.TokenAtAsWritten, Csv.UnterminatedQuoteOverrun | Csv.TokenAt |
| compile.rb:56 | the PATH assignment runs in a child shell of its own, so the compiler never sees it | the selector win32 | the cross toolchain is on PATH for the compiler, as in build.rb | high, not executed | CompileRb.Run, CompileRb.PathChangeLost | CompileRb.RunIntended |
| groups.c:26 | the pod holds MAXPLAYERS/64 words, but line 865 calls `ba_init` with max = MAXPLAYERS | putting player 49999 | the pod holds every bit below max | high, not executed | GroupBits.PutAsWritten, GroupBits.PodOverflow | GroupBits.LocalBits.BaPut, GroupBits.InitThenPut |
| groups.c:443 | `ba_init` clears only the max/64 whole words | bit 49999 left on in the partial last word by an earlier pass, on a pod enlarged to 782 words as the groups.c:26 row intends; with the pod as declared that word lies past the pod, so the defect is latent | every bit below max is off after `ba_init` | high, not executed | GroupBits.ClearAsWritten, GroupBits.StaleBitAfterInit, GroupBits.DeclaredPodAllCleared | GroupBits.LocalBits.BaInit, GroupBits.InitThenPut |
| groups.c:451 | `ba_done` likewise clears only the ba->max/64 whole words | `ba_done(&BB)` after `ba_init(&BB, MAXPLAYERS-2)` (line 554) with bit 49997 on, on the enlarged 782-word pod; latent with the declared pod for the same reason | every bit below max is off after `ba_done` | high, not executed | GroupBits.ClearAsWritten, GroupBits.StaleBitSurvives | GroupBits.LocalBits.BaDone |
| groups.c:1073-1074 | SE is assigned twice and SE2 stays NULL, yet line 1043 writes through SE2 | any initialisation from the NULL start | SE and SE2 get the two buffers | high, not executed | Groups.EncmemInitAsWritten, Groups.EncmemSe2Unset | Groups.EncmemInitSetsBoth |
| relprior.c:102 | `assign_relative_prior` lets sigma == PRIOR_SMALLEST_SIGMA through, but `set_relprior` asserts sigma > PRIOR_SMALLEST_SIGMA | a prior whose sigma equals PRIOR_SMALLEST_SIGMA | the check and the assert agree | medium, not executed | RelPriors.SmallestSigmaReachesAssert | RelPriors.RelPriorSet.SetRelprior |
| relprior.c:223 | each line overwrites `prior_success`, so only the last line decides | a line with an unknown name followed by a good line | any line with unmatched names makes the load fail | medium, not executed | RelPriors.LastDecides, RelPriors.EarlierRefusalForgotten | RelPriors.RelPriorSet.Load |
| main.c:180 | the `-a` value goes into a local that shadows the global of main.c:119 | "-a 2500 f" | every player starts at the given average | high, not executed | MainC.InitAverageAsWritten, MainC.AverageShadowed | MainC.InitAverage, MainC.AverageShadowed |
| pgnget.c:208-213 | a game is stored without checking N_games against MAXGAMES; the same holds in main.c:447-450 | MAXGAMES games stored, then one more complete game | a full game table refuses the game | high, not executed | PgnGet.CollectedAsWritten, PgnGet.CollectPastCapacity | PgnGet.Collected, PgnGet.CollectKeepsValid |
