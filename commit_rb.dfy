/** The release script: normalise the stored version, let the user confirm it,
    rewrite version.txt and version.h, let the user edit a commit message,
    tag, commit and remove the scratch files. External programs (zenity, git,
    cat, echo, rm) are commands whose exit status the script never looks at. */
module CommitRb {
  predicate IsTerminator(c: char)
  {
    c == '\n' || c == '\r'
  }

  /** Ruby `String#chomp` with no argument: one trailing "\r\n", or else one
      trailing "\n" or "\r", is removed. */
  function Chomp(s: string): (r: string)
    ensures |r| <= |s| && s[..|r|] == r
    ensures forall i :: |r| <= i < |s| ==> IsTerminator(s[i])
    ensures r == s <==> s == [] || !IsTerminator(s[|s| - 1])
  {
    if |s| >= 2 && s[|s| - 2] == '\r' && s[|s| - 1] == '\n' then s[..|s| - 2]
    else if |s| >= 1 && IsTerminator(s[|s| - 1]) then s[..|s| - 1]
    else s
  }

  /** Reference meaning of `multichomp`: every trailing '\r' and '\n' removed. */
  function StripTerminators(s: string): string
  {
    if |s| > 0 && IsTerminator(s[|s| - 1]) then StripTerminators(s[..|s| - 1]) else s
  }

  lemma {:induction false} StripOfPrefix(s: string, k: nat)
    requires k <= |s|
    requires forall i :: k <= i < |s| ==> IsTerminator(s[i])
    ensures StripTerminators(s[..k]) == StripTerminators(s)
    decreases |s|
  {
    if k < |s| {
      assert IsTerminator(s[|s| - 1]);
      assert StripTerminators(s) == StripTerminators(s[..|s| - 1]);
      assert s[..|s| - 1][..k] == s[..k];
      StripOfPrefix(s[..|s| - 1], k);
    } else {
      assert s[..k] == s;
    }
  }

  lemma ChompKeepsStrip(s: string)
    ensures StripTerminators(Chomp(s)) == StripTerminators(s)
  {
    StripOfPrefix(s, |Chomp(s)|);
  }

  /** `multichomp`: chomp until the string stops changing. */
  method Multichomp(x: string) returns (z: string)
    ensures z == StripTerminators(x)
  {
    var y := x;
    z := Chomp(x);
    ChompKeepsStrip(x);
    while z != y
      invariant z == Chomp(y)
      invariant StripTerminators(z) == StripTerminators(x)
      decreases |y|
    {
      y := z;
      z := Chomp(z);
      ChompKeepsStrip(y);
    }
  }

  lemma {:induction false} StripIdempotent(x: string)
    ensures StripTerminators(StripTerminators(x)) == StripTerminators(x)
    decreases |x|
  {
    if |x| > 0 && IsTerminator(x[|x| - 1]) {
      StripIdempotent(x[..|x| - 1]);
    }
  }

  /** The result of `multichomp` ends in neither '\n' nor '\r'; it is a prefix
      of its input and the part removed consists of terminators only. */
  lemma {:induction false} StripShape(x: string)
    ensures var r := StripTerminators(x);
      (r == [] || !IsTerminator(r[|r| - 1])) &&
      |r| <= |x| && x[..|r|] == r &&
      forall i :: |r| <= i < |x| ==> IsTerminator(x[i])
    decreases |x|
  {
    if |x| > 0 && IsTerminator(x[|x| - 1]) {
      StripShape(x[..|x| - 1]);
      var r := StripTerminators(x);
      assert x[..|x| - 1][..|r|] == x[..|r|];
    }
  }

  /** What `echo "v" > version.txt` stores is read back as v by `multichomp`. */
  lemma EchoRoundTrip(v: string)
    requires v == [] || !IsTerminator(v[|v| - 1])
    ensures StripTerminators(v + "\n") == v
  {
    assert (v + "\n")[..|v|] == v;
  }

  /** A version that `echo "v"` run by the shell writes as it is: no '"',
      '$', '`' or '\', which the shell or `echo` would interpret inside the
      double quotes, and no leading '-', which `echo` may take as an option. */
  predicate ShellInert(v: string)
  {
    (forall k :: 0 <= k < |v| ==> v[k] !in {'"', '$', '`', '\\'}) && (v == [] || v[0] != '-')
  }

  /** What `echo "v" > version.txt` leaves in version.txt: v and a newline
      when the shell passes v through unchanged, and otherwise shellOut,
      whatever the shell made of the command. */
  function Echoed(v: string, shellOut: string): string
  {
    if ShellInert(v) then v + "\n" else shellOut
  }

  /** A version with an expansion in it is not stored as typed. */
  lemma DollarIsExpanded(shellOut: string)
    ensures !ShellInert("1.0$x") && Echoed("1.0$x", shellOut) == shellOut
  {
    assert "1.0$x"[3] == '$';
  }

  const VersionFile: string := "version.txt"
  const AnswerFile: string := "zenityanswer.txt"
  const MessageIn: string := "commit-inp.txt"
  const MessageOut: string := "commit-out.txt"
  const HeaderFile: string := "version.h"

  /** What the script does, one observable step at a time: a command given
      to a shell, a line printed, or a file written by the script itself. */
  datatype Step = Run(command: string) | Puts(text: string) | Write(file: string, content: string)

  /** Backticks around `cat f`: the file's content, or nothing when it is missing. */
  function Cat(files: map<string, string>, f: string): string
  {
    if f in files then files[f] else ""
  }

  function EntryCommand(default: string): string
  {
    "zenity --entry --text \"Version\" --entry-text \"" + default + "\" > " + AnswerFile
  }

  function EchoCommand(v: string): string
  {
    "echo \"" + v + "\" > " + VersionFile
  }

  const EditCommand: string := "zenity --text-info --title=Commit Message --filename=" + MessageIn + " --editable > " + MessageOut
  const CommitCommand: string := "git commit -a --file=" + MessageOut

  function TagCommand(v: string): string
  {
    "git tag -f " + v
  }

  function VersionHeader(v: string): string
  {
    "#define VERSION \"" + v + "\"" + "\n\n"
  }

  function MessageSeed(v: string): string
  {
    "[" + v + "]\n\n" + "*"
  }

  /** The whole run as a list of steps, given the files at the start, the
      text the version prompt prints (empty when it is cancelled) and the
      text the message editor prints. */
  function ReleaseSteps(files: map<string, string>, answer: string): seq<Step>
  {
    var default := StripTerminators(Cat(files, VersionFile));
    var v := StripTerminators(answer);
    [Run("cat " + VersionFile), Puts(default)]
    + [Run(EntryCommand(default)), Run("cat " + AnswerFile), Run(EchoCommand(v))]
    + [Write(MessageIn, MessageSeed(v)), Run(EditCommand)]
    + [Write(HeaderFile, VersionHeader(v)), Run(TagCommand(v)), Run(CommitCommand)]
    + [Run("rm " + MessageIn), Run("rm " + MessageOut), Run("rm " + AnswerFile)]
  }

  /** The files left at the end; shellOut is what the shell writes to
      version.txt for a version that is not `ShellInert`. */
  function ReleasedFiles(files: map<string, string>, answer: string, shellOut: string): map<string, string>
  {
    var v := StripTerminators(answer);
    files[VersionFile := Echoed(v, shellOut)][HeaderFile := VersionHeader(v)] - {MessageIn, MessageOut, AnswerFile}
  }

  lemma DistinctNames()
    ensures VersionFile != AnswerFile && VersionFile != MessageIn && VersionFile != MessageOut && VersionFile != HeaderFile
    ensures AnswerFile != MessageIn && AnswerFile != MessageOut && AnswerFile != HeaderFile
    ensures MessageIn != MessageOut && MessageIn != HeaderFile && MessageOut != HeaderFile
  {
    assert |VersionFile| == 11 && |AnswerFile| == 16 && |MessageIn| == 14 && |MessageOut| == 14 && |HeaderFile| == 9;
    assert MessageIn[7] != MessageOut[7];
  }

  /** Overwriting a file that is removed afterwards leaves no trace. */
  lemma ScratchWritesVanish<V>(m: map<string, V>, ans: string, ver: string, inp: string, out: string, hdr: string,
                               a: V, b: V, c: V, d: V, e: V)
    requires ver !in {ans, inp, out} && hdr !in {ans, inp, out}
    ensures m[ans := a][ver := b][inp := c][out := d][hdr := e] - {inp} - {out} - {ans}
         == m[ver := b][hdr := e] - {inp, out, ans}
  {
  }

  lemma AppendPhases<T>(t: seq<T>, p1: seq<T>, p2: seq<T>, p3: seq<T>, p4: seq<T>, p5: seq<T>)
    ensures t + p1 + p2 + p3 + p4 + p5 == t + (p1 + p2 + p3 + p4 + p5)
  {
  }

  /** The working directory as the script sees it. */
  class Workspace {
    var files: map<string, string>
    var trace: seq<Step>

    constructor (files: map<string, string>)
      ensures this.files == files && trace == []
    {
      this.files := files;
      trace := [];
    }

    method Release(answer: string, edited: string, shellOut: string)
      modifies this
      ensures trace == old(trace) + ReleaseSteps(old(files), answer)
      ensures files == ReleasedFiles(old(files), answer, shellOut)
    {
      DistinctNames();
      ghost var files0 := files;
      ghost var trace0 := trace;
      var current := Cat(files, VersionFile);
      var default := Multichomp(current);
      trace := trace + [Run("cat " + VersionFile), Puts(default)];

      files := files[AnswerFile := answer];
      var version := Cat(files, AnswerFile);
      assert version == answer;
      version := Multichomp(version);
      files := files[VersionFile := Echoed(version, shellOut)];
      trace := trace + [Run(EntryCommand(default)), Run("cat " + AnswerFile), Run(EchoCommand(version))];

      var versionH := VersionHeader(version);

      files := files[MessageIn := MessageSeed(version)];
      files := files[MessageOut := edited];
      trace := trace + [Write(MessageIn, MessageSeed(version)), Run(EditCommand)];

      files := files[HeaderFile := versionH];
      trace := trace + [Write(HeaderFile, versionH), Run(TagCommand(version)), Run(CommitCommand)];

      files := files - {MessageIn};
      files := files - {MessageOut};
      files := files - {AnswerFile};
      trace := trace + [Run("rm " + MessageIn), Run("rm " + MessageOut), Run("rm " + AnswerFile)];
      AppendPhases(trace0, [Run("cat " + VersionFile), Puts(default)],
                   [Run(EntryCommand(default)), Run("cat " + AnswerFile), Run(EchoCommand(version))],
                   [Write(MessageIn, MessageSeed(version)), Run(EditCommand)],
                   [Write(HeaderFile, versionH), Run(TagCommand(version)), Run(CommitCommand)],
                   [Run("rm " + MessageIn), Run("rm " + MessageOut), Run("rm " + AnswerFile)]);
      ScratchWritesVanish(files0, AnswerFile, VersionFile, MessageIn, MessageOut, HeaderFile,
                          answer, Echoed(version, shellOut), MessageSeed(version), edited, versionH);
    }
  }

  /** The fixed order: version.txt before the message prompt, version.h after
      it, the tag before the commit and the three removals last; none of them
      depends on what a command returned, so a cancelled prompt changes nothing
      in the sequence but the version text. */
  lemma StepOrder(files: map<string, string>, answer: string)
    ensures var t := ReleaseSteps(files, answer);
      var v := StripTerminators(answer);
      |t| == 13 &&
      t[4] == Run(EchoCommand(v)) && t[6] == Run(EditCommand) && t[7] == Write(HeaderFile, VersionHeader(v)) &&
      t[8] == Run(TagCommand(v)) && t[9] == Run(CommitCommand) &&
      t[10..] == [Run("rm " + MessageIn), Run("rm " + MessageOut), Run("rm " + AnswerFile)]
  {
  }

  /** The rewritten header carries the normalised answer, and so does
      version.txt when the shell writes it unchanged; the scratch files are
      gone and nothing else changes. */
  lemma ReleasedContents(files: map<string, string>, answer: string, shellOut: string)
    ensures var f := ReleasedFiles(files, answer, shellOut);
      var v := StripTerminators(answer);
      (ShellInert(v) ==> f[VersionFile] == v + "\n") && (!ShellInert(v) ==> f[VersionFile] == shellOut) &&
      f[HeaderFile] == VersionHeader(v) &&
      MessageIn !in f && MessageOut !in f && AnswerFile !in f &&
      forall name :: name in files && name !in {VersionFile, HeaderFile, MessageIn, MessageOut, AnswerFile} ==>
        name in f && f[name] == files[name]
  {
  }

  /** Reading version.txt back at the next release shows the version just
      confirmed, when the shell wrote it unchanged. */
  lemma NextDefaultIsThisVersion(files: map<string, string>, answer: string, shellOut: string)
    ensures ShellInert(StripTerminators(answer)) ==>
      StripTerminators(Cat(ReleasedFiles(files, answer, shellOut), VersionFile)) == StripTerminators(answer)
  {
    StripShape(answer);
    EchoRoundTrip(StripTerminators(answer));
  }
}
