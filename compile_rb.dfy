/** The strict build script: three accepted selectors, a fixed set of
    fragments, and a PATH change issued as a command of its own. */
module CompileRb {
  import opened CText
  import BuildRb

  /** What one accepted branch of the table assigns. */
  datatype Toolchain = Toolchain(newPath: string, cc: string, name: string)

  /** The table on ARGV[0]; None is the branch that prints and exits. */
  function Resolve(arg: Option<string>): Option<Toolchain>
  {
    if arg == Some("gcc") then Some(Toolchain("", "gcc", "ordo"))
    else if arg == Some("win32") then
      Some(Toolchain("/home/miguel/install/mingw-w32-bin_x86_64-linux_20111220/bin", "i686-w64-mingw32-gcc", "ordo-win32"))
    else if arg == Some("win64") then
      Some(Toolchain("/home/miguel/mingw-w64/bin", "x86_64-w64-mingw32-gcc", "ordo-win64"))
    else None
  }

  const NoParameter: string := "no parameter given"
  const Switches: string := "-DNDEBUG"
  const Opt: string := "-O2"
  const Src: string := "myopt/myopt.c mystr.c proginfo.c main.c"
  const Exe: string := "-o ordo"

  /** The fragments in push order; INCLUDE, WARNINGS and LIB have the same text as in the other build script. */
  function Fragments(): seq<string>
  {
    [Switches, BuildRb.Include, BuildRb.Warnings, Opt, BuildRb.Lib, Exe, Src]
  }

  function CommandLine(t: Toolchain): string
  {
    t.cc + BuildRb.Spaced(Fragments())
  }

  /** The command that tries to extend PATH. */
  function PathCommand(t: Toolchain): string
  {
    "PATH=$PATH:" + t.newPath
  }

  lemma OnlyThreeSelectors(arg: Option<string>)
    ensures Resolve(arg).Some? <==> arg == Some("gcc") || arg == Some("win32") || arg == Some("win64")
  {
  }

  /** Fixed switches and optimisation level, LIB before EXE and the sources,
      and the constant output flag: the per-profile NAME is never used. */
  lemma CommandLayout(t: Toolchain, otherName: string)
    ensures CommandLine(t) == t.cc + (" " + Switches + (" " + BuildRb.Include + (" " + BuildRb.Warnings + (" " + Opt
                              + (" " + BuildRb.Lib + (" " + Exe + (" " + Src)))))))
    ensures CommandLine(t) == CommandLine(t.(name := otherName))
  {
    BuildRb.SpacedSeven(Switches, BuildRb.Include, BuildRb.Warnings, Opt, BuildRb.Lib, Exe, Src);
  }

  /** One run of the script. The PATH assignment is a command run by its own
      child shell, so the compiler that follows sees the PATH unchanged. */
  method Run(sh: BuildRb.Shell, arg: Option<string>) returns (exitStatus: int)
    modifies sh
    ensures sh.path == old(sh.path)
    ensures Resolve(arg).None? ==>
      sh.stdout == old(sh.stdout) + [NoParameter] && sh.invoked == old(sh.invoked)
    ensures Resolve(arg).Some? ==>
      sh.stdout == old(sh.stdout) &&
      sh.invoked == old(sh.invoked) + [BuildRb.Invocation(PathCommand(Resolve(arg).value), old(sh.path)),
                                       BuildRb.Invocation(CommandLine(Resolve(arg).value), old(sh.path))]
    ensures exitStatus == 0
  {
    var t := Resolve(arg);
    if t.None? {
      sh.stdout := sh.stdout + [NoParameter];
      return 0;
    }
    var line := BuildRb.AssembleLine(t.value.cc, Fragments());
    sh.invoked := sh.invoked + [BuildRb.Invocation(PathCommand(t.value), sh.path)];
    sh.invoked := sh.invoked + [BuildRb.Invocation(line, sh.path)];
    exitStatus := 0;
  }

  /** The evidently intended effect of compile.rb:56: the toolchain directory
      appended to the PATH of the compiler, as the other build script does. */
  method RunIntended(sh: BuildRb.Shell, arg: Option<string>) returns (exitStatus: int)
    modifies sh
    ensures Resolve(arg).None? ==>
      sh.path == old(sh.path) && sh.stdout == old(sh.stdout) + [NoParameter] && sh.invoked == old(sh.invoked)
    ensures Resolve(arg).Some? ==>
      sh.path == BuildRb.NewPath(old(sh.path), Resolve(arg).value.newPath) &&
      sh.stdout == old(sh.stdout) &&
      sh.invoked == old(sh.invoked) + [BuildRb.Invocation(CommandLine(Resolve(arg).value), sh.path)]
    ensures exitStatus == 0
  {
    var t := Resolve(arg);
    if t.None? {
      sh.stdout := sh.stdout + [NoParameter];
      return 0;
    }
    var line := BuildRb.AssembleLine(t.value.cc, Fragments());
    if t.value.newPath != "" {
      sh.path := sh.path + ":" + t.value.newPath;
    }
    sh.invoked := sh.invoked + [BuildRb.Invocation(line, sh.path)];
    exitStatus := 0;
  }

  /** For both Windows selectors the PATH the compiler sees as written
      (`Run`) differs from the intended one (`RunIntended`). */
  lemma PathChangeLost(path: string, arg: Option<string>)
    requires arg == Some("win32") || arg == Some("win64")
    ensures BuildRb.NewPath(path, Resolve(arg).value.newPath) != path
  {
    BuildRb.PathOnlyAppends(path, Resolve(arg).value.newPath);
  }
}
