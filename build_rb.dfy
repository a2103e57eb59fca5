/** The build script: a selector table that picks a toolchain profile, a fixed
    list of command fragments, PATH adjustment for cross toolchains and one
    compiler invocation. */
module BuildRb {
  import opened CText

  const BaseName: string := "ordo"

  /** What one branch of the selector table assigns, including the line it prints. */
  datatype Profile = Profile(banner: string, addPath: string, cc: string, name: string, switches: string)

  /** The selectors that have a branch of their own. */
  const Selectors: set<string> := {"gcc", "debug", "profile", "gcc64", "gcc32", "win32", "win64"}

  /** The if/elsif table on ARGV[0] (None when no argument is given). */
  function Resolve(arg: Option<string>): Profile
  {
    if arg == Some("gcc") then Profile("gcc selected", "", "gcc", BaseName, "-DNDEBUG -flto")
    else if arg == Some("debug") then Profile("gcc debug", "", "gcc", BaseName, "")
    else if arg == Some("profile") then Profile("gcc profile", "", "gcc", BaseName, "-DNDEBUG -pg -fno-inline")
    else if arg == Some("gcc64") then Profile("gcc64 selected", "", "gcc", BaseName + "-linux64", "-DNDEBUG -flto")
    else if arg == Some("gcc32") then Profile("gcc32 selected", "", "gcc -m32", BaseName + "-linux32", "-DNDEBUG -flto")
    else if arg == Some("win32") then
      Profile("win32 selected", "/home/miguel/mingw/w32/bin", "i686-w64-mingw32-gcc", BaseName + "-win32", "-DNDEBUG -flto")
    else if arg == Some("win64") then
      Profile("win64 selected", "/home/miguel/mingw/w64/bin", "x86_64-w64-mingw32-gcc", BaseName + "-win64", "-DNDEBUG -flto")
    else Profile("gcc selected by default", "", "gcc", BaseName, "-DNDEBUG -flto")
  }

  const Include: string := "-I myopt"
  const Warnings: string := "-Wwrite-strings -Wconversion -Wshadow -Wparentheses -Wlogical-op -Wunused -Wmissing-prototypes -Wmissing-declarations -Wdeclaration-after-statement -W -Wall -Wextra"
  const Opt: string := "-O3"
  const Lib: string := "-lm"
  const Src: string := "myopt/myopt.c mystr.c proginfo.c pgnget.c randfast.c gauss.c groups.c csv.c encount.c main.c"

  function Exe(p: Profile): string
  {
    "-o " + p.name
  }

  /** The fragments in the order they are pushed onto the array. */
  function Fragments(p: Profile): seq<string>
  {
    [p.switches, Include, Warnings, Opt, Exe(p), Src, Lib]
  }

  /** Every fragment preceded by one blank, in order (an empty fragment still brings its blank). */
  function Spaced(frags: seq<string>): string
  {
    if frags == [] then "" else " " + frags[0] + Spaced(frags[1..])
  }

  lemma {:induction false} SpacedSnoc(frags: seq<string>, x: string)
    ensures Spaced(frags + [x]) == Spaced(frags) + " " + x
  {
    if frags == [] {
      assert [x][1..] == [];
    } else {
      assert (frags + [x])[1..] == frags[1..] + [x];
      SpacedSnoc(frags[1..], x);
    }
  }

  lemma {:induction false} SpacedLength(frags: seq<string>)
    ensures |Spaced(frags)| >= |frags|
  {
    if frags != [] {
      SpacedLength(frags[1..]);
    }
  }

  /** `line = head; fragments.each { |x| line += ' ' + x }`. The Ruby loop
      of both build scripts. */
  method AssembleLine(head: string, frags: seq<string>) returns (line: string)
    ensures line == head + Spaced(frags)
    ensures |line| >= |head| + |frags|
  {
    line := head;
    var i := 0;
    while i < |frags|
      invariant 0 <= i <= |frags|
      invariant line == head + Spaced(frags[..i])
    {
      assert frags[..i + 1] == frags[..i] + [frags[i]];
      SpacedSnoc(frags[..i], frags[i]);
      line := line + " " + frags[i];
      i := i + 1;
    }
    assert frags[..i] == frags;
    SpacedLength(frags);
  }

  /** The command line the script hands to `system`. */
  function CommandLine(p: Profile): string
  {
    p.cc + Spaced(Fragments(p))
  }

  /** PATH after the conditional `ENV['PATH'] += ':' + ADDPATH`. */
  function NewPath(path: string, addPath: string): string
  {
    if addPath != "" then path + ":" + addPath else path
  }

  lemma FallbackIsGcc(arg: Option<string>)
    requires arg.None? || arg.value !in Selectors
    ensures Resolve(arg) == Resolve(Some("gcc")).(banner := "gcc selected by default")
  {
  }

  lemma DebugAndProfileSwitches()
    ensures Resolve(Some("debug")).switches == ""
    ensures CommandLine(Resolve(Some("debug"))) == "gcc" + (" " + "" + (" " + Include + (" " + Warnings + (" " + Opt
                                                   + (" " + ("-o " + BaseName) + (" " + Src + (" " + Lib)))))))
    ensures Resolve(Some("profile")).switches == "-DNDEBUG -pg -fno-inline"
  {
    CommandLayout(Resolve(Some("debug")));
  }

  /** Only the two Windows selectors set a toolchain directory, and they use mingw compilers. */
  lemma CrossToolchains(arg: Option<string>)
    ensures Resolve(arg).addPath != "" <==> arg == Some("win32") || arg == Some("win64")
    ensures arg == Some("win32") ==> Resolve(arg).cc == "i686-w64-mingw32-gcc" && Resolve(arg).name == BaseName + "-win32"
    ensures arg == Some("win64") ==> Resolve(arg).cc == "x86_64-w64-mingw32-gcc" && Resolve(arg).name == BaseName + "-win64"
  {
  }

  lemma LinuxWordSizes()
    ensures Resolve(Some("gcc32")).cc == "gcc -m32" && Resolve(Some("gcc32")).name == "ordo-linux32"
    ensures Resolve(Some("gcc64")).cc == "gcc" && Resolve(Some("gcc64")).name == "ordo-linux64"
  {
  }

  lemma {:induction false} SpacedSeven(a: string, b: string, c: string, d: string, e: string, f: string, g: string)
    ensures Spaced([a, b, c, d, e, f, g])
         == " " + a + (" " + b + (" " + c + (" " + d + (" " + e + (" " + f + (" " + g))))))
  {
    var s := [a, b, c, d, e, f, g];
    assert s[6..][1..] == [];
    assert s[5..][1..] == s[6..];
    assert s[4..][1..] == s[5..];
    assert s[3..][1..] == s[4..];
    assert s[2..][1..] == s[3..];
    assert s[1..][1..] == s[2..];
    assert s[6..] == [g];
    var r6 := Spaced(s[6..]);
    assert r6 == " " + g + Spaced([]);
    assert " " + g + [] == " " + g;
    var r5 := Spaced(s[5..]);
    assert r5 == " " + f + r6;
    var r4 := Spaced(s[4..]);
    assert r4 == " " + e + r5;
    var r3 := Spaced(s[3..]);
    assert r3 == " " + d + r4;
    var r2 := Spaced(s[2..]);
    assert r2 == " " + c + r3;
    var r1 := Spaced(s[1..]);
    assert r1 == " " + b + r2;
    assert Spaced(s) == " " + a + r1;
  }

  /** The compiler comes first, then one blank and each fragment in the fixed
      order; the output name always follows the profile. */
  lemma CommandLayout(p: Profile)
    ensures CommandLine(p) == p.cc + (" " + p.switches + (" " + Include + (" " + Warnings + (" " + Opt
                              + (" " + ("-o " + p.name) + (" " + Src + (" " + Lib)))))))
  {
    SpacedSeven(p.switches, Include, Warnings, Opt, Exe(p), Src, Lib);
  }

  /** PATH is only ever extended at its end, and only when ADDPATH is set. */
  lemma PathOnlyAppends(path: string, addPath: string)
    ensures NewPath(path, addPath) == path <==> addPath == ""
    ensures NewPath(path, addPath)[..|path|] == path
  {
    if addPath != "" {
      assert |NewPath(path, addPath)| > |path|;
    }
  }

  /** One `system` call: the command text and the PATH it runs with. */
  datatype Invocation = Invocation(command: string, path: string)

  /** The process environment and effects the two build scripts touch. */
  class Shell {
    var path: string
    var stdout: seq<string>
    var invoked: seq<Invocation>

    constructor (path: string)
      ensures this.path == path && stdout == [] && invoked == []
    {
      this.path := path;
      stdout := [];
      invoked := [];
    }

    /** One run of the build script with ARGV[0] = arg. `compilerStatus` is what
        the compiler returns; the script ends normally whatever it is. */
    method RunBuild(arg: Option<string>, compilerStatus: int) returns (exitStatus: int)
      modifies this
      ensures stdout == old(stdout) + [Resolve(arg).banner]
      ensures path == NewPath(old(path), Resolve(arg).addPath)
      ensures invoked == old(invoked) + [Invocation(CommandLine(Resolve(arg)), path)]
      ensures exitStatus == 0
    {
      var p := Resolve(arg);
      stdout := stdout + [p.banner];
      var line := AssembleLine(p.cc, Fragments(p));
      if p.addPath != "" {
        path := path + ":" + p.addPath;
      }
      invoked := invoked + [Invocation(line, path)];
      exitStatus := 0;
    }
  }
}
