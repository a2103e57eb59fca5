/** The PGN reader of the rating program (pgnget.c): a character loop over
    the game file that skips move text, comments and variations, reads tag
    pairs (section 8.1 of the PGN standard), and, whenever the White, Black
    and Result tags of a game have all been seen, registers both players in
    a name table backed by one label buffer and appends the game. The file
    is an in-memory character sequence; `fgetc` reads input[pos] and
    advances pos, and EOF is pos == |input|. */
module PgnGet {
  import opened CText
  import MyStr

  /** `PGNSTRSIZE`: the size of every tag and string buffer. */
  const PgnStrSize: nat := 1024
  /** At most PGNSTRSIZE - 1 characters are stored before the terminator. */
  const StrLimit: nat := PgnStrSize - 1
  /** `MAXGAMES`, `LABELBUFFERSIZE` and `MAXPLAYERS` as pgnget.c defines them. */
  const MaxGames: nat := 1000000
  const LabelBufferSize: nat := 100000
  const PgnMaxPlayers: nat := 10000

  /** 1 for a newline, which bumps the line counter, else 0. */
  function NL(c: char): nat
  {
    if c == '\n' then 1 else 0
  }

  /** The number of newlines in input[i..j]. */
  function NewlinesIn(input: seq<char>, i: nat, j: nat): nat
    requires i <= j <= |input|
    decreases j - i
  {
    if i == j then 0 else NL(input[i]) + NewlinesIn(input, i + 1, j)
  }

  lemma {:induction false} NewlinesSplit(input: seq<char>, i: nat, k: nat, j: nat)
    requires i <= k <= j <= |input|
    ensures NewlinesIn(input, i, j) == NewlinesIn(input, i, k) + NewlinesIn(input, k, j)
    decreases k - i
  {
    if i < k {
      NewlinesSplit(input, i + 1, k, j);
    }
  }

  /** The position and line counter after one of the skipping routines. */
  datatype Skip = Skip(pos: nat, lines: nat)

  // ---------------------------------------------------------------- strings

  /** `skip_string`: reads up to and including the next '"', counting
      newlines on the way. */
  function SkipStr(input: seq<char>, pos: nat, lines: nat): (r: Skip)
    requires pos <= |input|
    ensures pos <= r.pos <= |input|
    decreases |input| - pos
  {
    if pos == |input| then Skip(pos, lines)
    else if input[pos] == '"' then Skip(pos + 1, lines + NL(input[pos]))
    else SkipStr(input, pos + 1, lines + NL(input[pos]))
  }

  /** `skip_string` stops right after the first '"' at or after pos, or at
      the end of the input when there is none, and counts every newline it
      passes. */
  lemma {:induction false} SkipStrStops(input: seq<char>, pos: nat, lines: nat)
    requires pos <= |input|
    ensures var r := SkipStr(input, pos, lines);
      (forall k :: pos <= k < r.pos - 1 ==> input[k] != '"')
      && (r.pos == |input| || (r.pos > pos && input[r.pos - 1] == '"'))
      && (r.pos > pos && input[r.pos - 1] != '"' ==> r.pos == |input|)
      && r.lines == lines + NewlinesIn(input, pos, r.pos)
    decreases |input| - pos
  {
    if pos < |input| && input[pos] != '"' {
      SkipStrStops(input, pos + 1, lines + NL(input[pos]));
    }
  }

  method SkipString(input: seq<char>, pos0: nat, lines0: nat) returns (pos: nat, lines: nat)
    requires pos0 <= |input|
    ensures Skip(pos, lines) == SkipStr(input, pos0, lines0)
  {
    pos, lines := pos0, lines0;
    while pos < |input|
      invariant pos <= |input|
      invariant SkipStr(input, pos, lines) == SkipStr(input, pos0, lines0)
      decreases |input| - pos
    {
      var c := input[pos];
      pos := pos + 1;
      lines := lines + NL(c);
      if c == '"' {
        return;
      }
    }
  }

  /** `read_stringln`: the characters of a quoted string after its opening
      '"'. It stops after the closing '"', before a newline (which is
      pushed back), at EOF, or once PGNSTRSIZE - 1 characters are stored.
      A backslash followed by '"' or '\' stores that character; followed by
      anything else both characters are kept, the second only when there is
      room; a backslash at EOF ends the string. */
  function ReadStr(input: seq<char>, pos: nat, buf: seq<char>): (r: (seq<char>, nat))
    requires pos <= |input| && |buf| <= StrLimit
    ensures |r.0| <= StrLimit && pos <= r.1 <= |input|
    decreases |input| - pos
  {
    if |buf| == StrLimit || pos == |input| then (buf, pos)
    else
      var c := input[pos];
      if c == '"' then (buf, pos + 1)
      else if c == '\n' then (buf, pos)
      else if c == '\\' then
        if pos + 1 == |input| then (buf, pos + 1)
        else
          var cc := input[pos + 1];
          if cc == '"' || cc == '\\' then ReadStr(input, pos + 2, buf + [cc])
          else if |buf| + 1 < StrLimit then ReadStr(input, pos + 2, buf + [c, cc])
          else ReadStr(input, pos + 2, buf + [c])
      else ReadStr(input, pos + 1, buf + [c])
  }

  /** The string token of section 7 of the PGN standard for the text v: a
      '"' or '\' inside it is preceded by a backslash. */
  function Escape(v: seq<char>): (r: seq<char>)
    ensures |r| >= |v|
  {
    if v == [] then []
    else (if v[0] == '"' || v[0] == '\\' then ['\\', v[0]] else [v[0]]) + Escape(v[1..])
  }

  /** The text of a string token: no terminator or newline in it. */
  predicate PlainText(v: seq<char>)
  {
    forall k :: 0 <= k < |v| ==> v[k] != '\0' && v[k] != '\n'
  }

  /** Reading an escaped string back gives the text, and the closing '"'
      is consumed, as long as the text fits in the buffer. */
  lemma {:induction false} ReadStrEscape(input: seq<char>, pos: nat, buf: seq<char>, v: seq<char>)
    requires PlainText(v) && |buf| + |v| < StrLimit
    requires pos + |Escape(v)| < |input|
    requires input[pos..pos + |Escape(v)|] == Escape(v) && input[pos + |Escape(v)|] == '"'
    ensures ReadStr(input, pos, buf) == (buf + v, pos + |Escape(v)| + 1)
    decreases |v|
  {
    if v == [] {
      assert Escape(v) == [];
      assert input[pos] == '"';
      assert buf + v == buf;
    } else {
      var e := if v[0] == '"' || v[0] == '\\' then ['\\', v[0]] else [v[0]];
      assert Escape(v) == e + Escape(v[1..]);
      assert input[pos..pos + |e|] == e by {
        assert input[pos..pos + |e|] == input[pos..pos + |Escape(v)|][..|e|];
      }
      assert input[pos + |e|..pos + |e| + |Escape(v[1..])|] == Escape(v[1..]) by {
        assert input[pos + |e|..pos + |e| + |Escape(v[1..])|] == input[pos..pos + |Escape(v)|][|e|..];
      }
      assert PlainText(v[1..]) by {
        forall k | 0 <= k < |v[1..]| ensures v[1..][k] != '\0' && v[1..][k] != '\n' {
          assert v[1..][k] == v[k + 1];
        }
      }
      assert input[pos] == e[0];
      if |e| == 2 {
        assert input[pos + 1] == v[0];
      }
      ReadStrEscape(input, pos + |e|, buf + [v[0]], v[1..]);
      assert buf + [v[0]] + v[1..] == buf + v;
    }
  }

  /** A backslash before any character other than '"' and '\' is kept
      together with that character. */
  lemma ReadStrKeepsOtherEscape(input: seq<char>, pos: nat, buf: seq<char>)
    requires pos + 1 < |input| && |buf| + 1 < StrLimit
    requires input[pos] == '\\' && input[pos + 1] != '"' && input[pos + 1] != '\\'
    ensures ReadStr(input, pos, buf) == ReadStr(input, pos + 2, buf + ['\\', input[pos + 1]])
  {
  }

  /** A newline ends the string and is left in the input. */
  lemma ReadStrStopsAtNewline(input: seq<char>, pos: nat, buf: seq<char>)
    requires pos < |input| && |buf| < StrLimit && input[pos] == '\n'
    ensures ReadStr(input, pos, buf) == (buf, pos)
  {
  }

  /** The text after `mystrncpy(s, buffer, sizeof s)`: the destination is
      as large as the buffer, so the whole C string is copied. */
  function CopyOut(buf: seq<char>): (s: seq<char>)
    requires |buf| <= StrLimit
    ensures NoNul(s) && |s| <= StrLimit
  {
    MyStr.CStr(buf)
  }

  method ReadStringln(input: seq<char>, pos0: nat) returns (s: seq<char>, pos: nat)
    requires pos0 <= |input|
    ensures var r := ReadStr(input, pos0, []); s == CopyOut(r.0) && pos == r.1
  {
    var buf: seq<char> := [];
    pos := pos0;
    while |buf| < StrLimit && pos < |input|
      invariant pos <= |input| && |buf| <= StrLimit
      invariant ReadStr(input, pos, buf) == ReadStr(input, pos0, [])
      decreases |input| - pos
    {
      var c := input[pos];
      pos := pos + 1;
      if c == '"' {
        break;
      }
      if c == '\n' {
        pos := pos - 1;
        break;
      }
      if c == '\\' {
        if pos == |input| {
          break;
        }
        var cc := input[pos];
        pos := pos + 1;
        if cc == '"' || cc == '\\' {
          buf := buf + [cc];
        } else {
          if |buf| + 1 < StrLimit {
            buf := buf + [c, cc];
          } else {
            buf := buf + [c];
          }
        }
        continue;
      }
      buf := buf + [c];
    }
    s := CopyOut(buf);
  }

  // --------------------------------------------------- comments, variations

  /** `skip_comment`: reads up to and including the first '}' that is
      not inside a double-quoted string, counting newlines. */
  function SkipCom(input: seq<char>, pos: nat, lines: nat): (r: Skip)
    requires pos <= |input|
    ensures pos <= r.pos <= |input|
    decreases |input| - pos
  {
    if pos == |input| then Skip(pos, lines)
    else
      var c := input[pos];
      if c == '"' then
        var s := SkipStr(input, pos + 1, lines + NL(c));
        SkipCom(input, s.pos, s.lines)
      else if c == '}' then Skip(pos + 1, lines + NL(c))
      else SkipCom(input, pos + 1, lines + NL(c))
  }

  /** Every newline a comment spans is counted. */
  lemma {:induction false} SkipComCounts(input: seq<char>, pos: nat, lines: nat)
    requires pos <= |input|
    ensures SkipCom(input, pos, lines).lines == lines + NewlinesIn(input, pos, SkipCom(input, pos, lines).pos)
    decreases |input| - pos
  {
    if pos < |input| {
      var c := input[pos];
      if c == '"' {
        var s := SkipStr(input, pos + 1, lines + NL(c));
        SkipStrStops(input, pos + 1, lines + NL(c));
        SkipComCounts(input, s.pos, s.lines);
        NewlinesSplit(input, pos + 1, s.pos, SkipCom(input, s.pos, s.lines).pos);
      } else if c != '}' {
        SkipComCounts(input, pos + 1, lines + NL(c));
      }
    }
  }

  /** With no '"' before it, the first '}' ends the comment. */
  lemma {:induction false} SkipComAtBrace(input: seq<char>, pos: nat, lines: nat, k: nat)
    requires pos <= k < |input| && input[k] == '}'
    requires forall j :: pos <= j < k ==> input[j] != '"' && input[j] != '}'
    ensures SkipCom(input, pos, lines).pos == k + 1
    decreases k - pos
  {
    if pos < k {
      SkipComAtBrace(input, pos + 1, lines + NL(input[pos]), k);
    }
  }

  /** A quoted string inside a comment is passed over whatever it holds,
      a '}' included: the comment goes on after its closing '"'. */
  lemma SkipComOverString(input: seq<char>, pos: nat, lines: nat, q: nat)
    requires pos < q < |input| && input[pos] == '"' && input[q] == '"'
    requires forall j :: pos < j < q ==> input[j] != '"'
    ensures SkipCom(input, pos, lines).pos == SkipCom(input, q + 1, SkipStr(input, pos + 1, lines).lines).pos
  {
    SkipStrStops(input, pos + 1, lines);
    var s := SkipStr(input, pos + 1, lines);
    assert s.pos == q + 1;
  }

  method SkipComment(input: seq<char>, pos0: nat, lines0: nat) returns (pos: nat, lines: nat)
    requires pos0 <= |input|
    ensures Skip(pos, lines) == SkipCom(input, pos0, lines0)
  {
    pos, lines := pos0, lines0;
    while pos < |input|
      invariant pos <= |input|
      invariant SkipCom(input, pos, lines) == SkipCom(input, pos0, lines0)
      decreases |input| - pos
    {
      var c := input[pos];
      pos := pos + 1;
      lines := lines + NL(c);
      if c == '"' {
        pos, lines := SkipString(input, pos, lines);
        continue;
      }
      if c == '}' {
        break;
      }
    }
  }

  /** The number of '(' minus the number of ')' in input[i..j]. */
  function Depth(input: seq<char>, i: nat, j: nat): int
    requires i <= j <= |input|
    decreases j - i
  {
    if i == j then 0
    else (if input[i] == '(' then 1 else if input[i] == ')' then -1 else 0) + Depth(input, i + 1, j)
  }

  lemma {:induction false} DepthSnoc(input: seq<char>, i: nat, j: nat)
    requires i < j <= |input|
    ensures Depth(input, i, j) == Depth(input, i, j - 1)
      + (if input[j - 1] == '(' then 1 else if input[j - 1] == ')' then -1 else 0)
    decreases j - i
  {
    if i < j - 1 {
      DepthSnoc(input, i + 1, j);
    }
  }

  /** `skip_variation` at nesting level `level`: reads up to and including the
      ')' that closes the variation, counting newlines. */
  function SkipVar(input: seq<char>, pos: nat, level: nat, lines: nat): (r: Skip)
    requires pos <= |input|
    ensures pos <= r.pos <= |input|
    decreases |input| - pos
  {
    if pos == |input| then Skip(pos, lines)
    else
      var c := input[pos];
      if c == '(' then SkipVar(input, pos + 1, level + 1, lines + NL(c))
      else if c == ')' then
        if level == 0 then Skip(pos + 1, lines + NL(c))
        else SkipVar(input, pos + 1, level - 1, lines + NL(c))
      else SkipVar(input, pos + 1, level, lines + NL(c))
  }

  /** A variation ends right after the first ')' that takes the nesting
      level below zero; until then the level never drops below zero. At
      EOF with no such ')', the whole rest of the input is consumed. Every
      newline passed is counted. */
  lemma {:induction false} SkipVarCloses(input: seq<char>, pos: nat, level: nat, lines: nat)
    requires pos <= |input|
    ensures var r := SkipVar(input, pos, level, lines);
      (forall k :: pos <= k < r.pos ==> level + Depth(input, pos, k) >= 0)
      && ((r.pos > pos && input[r.pos - 1] == ')' && level + Depth(input, pos, r.pos) == -1)
          || (r.pos == |input| && level + Depth(input, pos, r.pos) >= 0))
      && r.lines == lines + NewlinesIn(input, pos, r.pos)
    decreases |input| - pos
  {
    if pos < |input| {
      var c := input[pos];
      var d := if c == '(' then 1 else if c == ')' then -1 else 0;
      if c == ')' && level == 0 {
        assert Depth(input, pos, pos + 1) == -1;
      } else {
        var level' := if c == '(' then level + 1 else if c == ')' then level - 1 else level;
        SkipVarCloses(input, pos + 1, level', lines + NL(c));
        var r := SkipVar(input, pos + 1, level', lines + NL(c));
        assert SkipVar(input, pos, level, lines) == r;
        forall k | pos <= k < r.pos
          ensures level + Depth(input, pos, k) >= 0
        {
          if k > pos {
            assert Depth(input, pos, k) == d + Depth(input, pos + 1, k);
          }
        }
        assert Depth(input, pos, r.pos) == d + Depth(input, pos + 1, r.pos);
      }
    }
  }

  method SkipVariation(input: seq<char>, pos0: nat, lines0: nat) returns (pos: nat, lines: nat)
    requires pos0 <= |input|
    ensures Skip(pos, lines) == SkipVar(input, pos0, 0, lines0)
  {
    var level: nat := 0;
    pos, lines := pos0, lines0;
    while pos < |input|
      invariant pos <= |input|
      invariant SkipVar(input, pos, level, lines) == SkipVar(input, pos0, 0, lines0)
      decreases |input| - pos
    {
      var c := input[pos];
      pos := pos + 1;
      lines := lines + NL(c);
      if c == '(' {
        level := level + 1;
      }
      if c == ')' {
        if level == 0 {
          break;
        } else {
          level := level - 1;
        }
      }
    }
  }

  // -------------------------------------------------------------- tag pairs

  /** A C string without a terminator inside comes out of `mystrncpy` whole. */
  lemma CopyOutPlain(v: seq<char>)
    requires NoNul(v) && |v| <= StrLimit
    ensures CopyOut(v) == v
  {
  }

  /** What `read_tagln` collected: the tag text (the characters outside
      strings, up to the ']'), the last string read, if any, and where the
      input and the line counter stand. */
  datatype Tag = Tag(cmmd: seq<char>, prm: Option<seq<char>>, pos: nat, lines: nat)

  /** The read loop of `read_tagln`: characters go to cmmd until a ']'
      (consumed), EOF, or PGNSTRSIZE - 1 stored characters; a '"' reads a
      string into prmstr instead; a newline is stored and counted. */
  function ReadTagFrom(input: seq<char>, pos: nat, cmmd: seq<char>, prm: Option<seq<char>>, lines: nat): (r: Tag)
    requires pos <= |input| && |cmmd| <= StrLimit
    ensures pos <= r.pos <= |input| && |r.cmmd| <= StrLimit
    ensures (prm.Some? ==> NoNul(prm.value)) ==> (r.prm.Some? ==> NoNul(r.prm.value))
    decreases |input| - pos
  {
    if |cmmd| == StrLimit || pos == |input| then Tag(cmmd, prm, pos, lines)
    else
      var c := input[pos];
      if c == '"' then
        var s := ReadStr(input, pos + 1, []);
        ReadTagFrom(input, s.1, cmmd, Some(CopyOut(s.0)), lines)
      else if c == ']' then Tag(cmmd, prm, pos + 1, lines)
      else ReadTagFrom(input, pos + 1, cmmd + [c], prm, lines + NL(c))
  }

  /** s without its leading white space. */
  function DropSpaces(s: seq<char>): (r: seq<char>)
    ensures |r| <= |s| && r == s[|s| - |r|..]
    ensures forall k :: 0 <= k < |s| - |r| ==> IsSpace(s[k])
    ensures r == [] || !IsSpace(r[0])
  {
    if s != [] && IsSpace(s[0]) then DropSpaces(s[1..]) else s
  }

  /** The longest prefix of s without white space. */
  function TakeWord(s: seq<char>): (r: seq<char>)
    ensures |r| <= |s| && r == s[..|r|]
    ensures forall k :: 0 <= k < |r| ==> !IsSpace(r[k])
    ensures |r| == |s| || IsSpace(s[|r|])
  {
    if s == [] || IsSpace(s[0]) then [] else [s[0]] + TakeWord(s[1..])
  }

  /** `sscanf(cmmd, "%s", buf)`: the first white-space delimited word. With
      none, sscanf stores nothing and buf keeps whatever it held: None. */
  function FirstWord(s: seq<char>): Option<seq<char>>
  {
    var t := DropSpaces(s);
    if t == [] then None else Some(TakeWord(t))
  }

  method ReadTagln(input: seq<char>, pos0: nat, lines0: nat)
    returns (cmd: Option<seq<char>>, prm: Option<seq<char>>, pos: nat, lines: nat)
    requires pos0 <= |input|
    ensures var r := ReadTagFrom(input, pos0, [], None, lines0);
      cmd == FirstWord(MyStr.CStr(r.cmmd)) && prm == r.prm && pos == r.pos && lines == r.lines
  {
    var cmmd: seq<char> := [];
    prm := None;
    pos, lines := pos0, lines0;
    while |cmmd| < StrLimit && pos < |input|
      invariant pos <= |input| && |cmmd| <= StrLimit
      invariant ReadTagFrom(input, pos, cmmd, prm, lines) == ReadTagFrom(input, pos0, [], None, lines0)
      decreases |input| - pos
    {
      var c := input[pos];
      pos := pos + 1;
      if c == '"' {
        var t;
        t, pos := ReadStringln(input, pos);
        prm := Some(t);
        continue;
      }
      if c == ']' {
        break;
      }
      lines := lines + NL(c);
      cmmd := cmmd + [c];
    }
    cmd := FirstWord(MyStr.CStr(cmmd));
  }

  /** `isresultcmd`, `iswhitecmd`, `isblackcmd`: the tag names are matched
      exactly, in one of two spellings. */
  predicate IsResultCmd(s: seq<char>)
  {
    s == "Result" || s == "result"
  }

  predicate IsWhiteCmd(s: seq<char>)
  {
    s == "White" || s == "white"
  }

  predicate IsBlackCmd(s: seq<char>)
  {
    s == "Black" || s == "black"
  }

  /** `res2int`: the Result tag value of a game (section 8.1.1.7 of the PGN
      standard) as a score. Only "1-0" is a white win and only "0-1" a
      black win; "1/2-1/2", the unknown result "*" and any other text count
      as a draw. */
  function Res2Int(s: seq<char>): (r: int)
    ensures r == WhiteWin || r == ResultDraw || r == BlackWin
    ensures r == WhiteWin <==> s == "1-0"
    ensures r == BlackWin <==> s == "0-1"
  {
    if s == "1-0" then WhiteWin
    else if s == "0-1" then BlackWin
    else if s == "1/2-1/2" then ResultDraw
    else ResultDraw
  }

  /** The four result markers of the standard: the last two both give a
      draw. */
  lemma Res2IntMarkers()
    ensures Res2Int("1-0") == WhiteWin && Res2Int("0-1") == BlackWin
    ensures Res2Int("1/2-1/2") == ResultDraw && Res2Int("*") == ResultDraw
  {
  }

  /** A tag name as section 8.1 of the PGN standard writes it: a non-empty
      symbol with no white space, quote, ']' or terminator. */
  predicate TagName(name: seq<char>)
  {
    name != []
    && forall k :: 0 <= k < |name| ==> !IsSpace(name[k]) && name[k] != '"' && name[k] != ']' && name[k] != '\0'
  }

  /** The text of a tag pair after its '[': name, a space, the value as a
      string token, and the closing ']'. */
  function TagBody(name: seq<char>, v: seq<char>): seq<char>
  {
    name + [' ', '"'] + Escape(v) + ['"', ']']
  }

  /** Characters that are not '"', ']' or a newline are stored one by one. */
  lemma {:induction false} ReadTagWord(input: seq<char>, pos: nat, cmmd: seq<char>, prm: Option<seq<char>>,
                                       lines: nat, w: seq<char>)
    requires pos + |w| <= |input| && input[pos..pos + |w|] == w && |cmmd| + |w| <= StrLimit
    requires forall k :: 0 <= k < |w| ==> w[k] != '"' && w[k] != ']' && w[k] != '\n'
    ensures ReadTagFrom(input, pos, cmmd, prm, lines) == ReadTagFrom(input, pos + |w|, cmmd + w, prm, lines)
    decreases |w|
  {
    if w == [] {
      assert cmmd + w == cmmd;
    } else {
      assert input[pos] == w[0];
      assert input[pos + 1..pos + |w|] == w[1..];
      ReadTagWord(input, pos + 1, cmmd + [w[0]], prm, lines, w[1..]);
      assert cmmd + [w[0]] + w[1..] == cmmd + w;
    }
  }

  /** A slice of a part of the input that is known is the slice of that part. */
  lemma SliceOf(input: seq<char>, pos: nat, b: seq<char>, i: nat, j: nat)
    requires pos + |b| <= |input| && input[pos..pos + |b|] == b && i <= j <= |b|
    ensures input[pos + i..pos + j] == b[i..j]
  {
    forall k | 0 <= k < j - i
      ensures input[pos + i..pos + j][k] == b[i..j][k]
    {
      assert input[pos + i + k] == input[pos..pos + |b|][i + k];
    }
  }

  /** A quoted value and the closing ']' end the tag with that value. */
  lemma ReadTagValue(input: seq<char>, q: nat, cmmd: seq<char>, prm: Option<seq<char>>, lines: nat, v: seq<char>)
    requires |cmmd| < StrLimit && PlainText(v) && |v| < StrLimit
    requires q + |Escape(v)| + 3 <= |input| && input[q] == '"'
    requires input[q + 1..q + 1 + |Escape(v)|] == Escape(v)
    requires input[q + 1 + |Escape(v)|] == '"' && input[q + 2 + |Escape(v)|] == ']'
    ensures ReadTagFrom(input, q, cmmd, prm, lines) == Tag(cmmd, Some(v), q + |Escape(v)| + 3, lines)
  {
    var e := Escape(v);
    ReadStrEscape(input, q + 1, [], v);
    assert ReadStr(input, q + 1, []) == (v, q + 2 + |e|) by {
      assert [] + v == v;
    }
    CopyOutPlain(v);
    var t := ReadTagFrom(input, q + 2 + |e|, cmmd, Some(v), lines);
    assert t == Tag(cmmd, Some(v), q + |e| + 3, lines);
  }

  /** The middle part of a concatenation. */
  lemma MidSlice(x: seq<char>, e: seq<char>, y: seq<char>)
    ensures (x + e + y)[|x|..|x| + |e|] == e
  {
  }

  /** Where the parts of a tag pair lie in the input. */
  lemma TagBodyParts(input: seq<char>, pos: nat, name: seq<char>, v: seq<char>)
    requires pos + |TagBody(name, v)| <= |input| && input[pos..pos + |TagBody(name, v)|] == TagBody(name, v)
    ensures var q := pos + |name| + 1; var e := Escape(v);
      |TagBody(name, v)| == |name| + |e| + 4
      && input[pos..q] == name + [' '] && input[q] == '"'
      && input[q + 1..q + 1 + |e|] == e && input[q + 1 + |e|] == '"' && input[q + 2 + |e|] == ']'
  {
    var b := TagBody(name, v);
    var x := name + [' ', '"'];
    var e := Escape(v);
    MidSlice(x, e, ['"', ']']);
    SliceOf(input, pos, b, |x|, |x| + |e|);
    SliceOf(input, pos, b, 0, |name| + 1);
    assert b[0..|name| + 1] == name + [' '] by {
      assert b[0..|name| + 1] == x[..|name| + 1];
    }
    assert input[pos + |name| + 1] == b[|name| + 1];
    assert input[pos + |x| + |e|] == b[|x| + |e|];
    assert input[pos + |x| + |e| + 1] == b[|x| + |e| + 1];
  }

  /** Reading a well-formed tag pair gives back its name as the command and
      its value as the parameter, consumes it up to and including the ']'
      and counts no line. */
  lemma ReadTagPair(input: seq<char>, pos: nat, lines: nat, name: seq<char>, v: seq<char>)
    requires TagName(name) && |name| + 1 < StrLimit && PlainText(v) && |v| < StrLimit
    requires pos + |TagBody(name, v)| <= |input| && input[pos..pos + |TagBody(name, v)|] == TagBody(name, v)
    ensures var r := ReadTagFrom(input, pos, [], None, lines);
      FirstWord(MyStr.CStr(r.cmmd)) == Some(name) && r.prm == Some(v)
      && r.pos == pos + |TagBody(name, v)| && r.lines == lines
  {
    var w := name + [' '];
    var q := pos + |w|;
    TagBodyParts(input, pos, name, v);
    ReadTagWord(input, pos, [], None, lines, w);
    assert [] + w == w;
    ReadTagValue(input, q, w, None, lines, v);
    CopyOutPlain(w);
    WordOfName(name);
  }

  /** The word of a text that starts with a symbol and a blank is the symbol. */
  lemma {:induction false} TakeWordOf(w: seq<char>, rest: seq<char>)
    requires forall k :: 0 <= k < |w| ==> !IsSpace(w[k])
    requires rest == [] || IsSpace(rest[0])
    ensures TakeWord(w + rest) == w
    decreases |w|
  {
    if w == [] {
      assert w + rest == rest;
    } else {
      assert (w + rest)[0] == w[0];
      assert (w + rest)[1..] == w[1..] + rest;
      TakeWordOf(w[1..], rest);
    }
  }

  lemma WordOfName(name: seq<char>)
    requires TagName(name)
    ensures FirstWord(name + [' ']) == Some(name)
  {
    var w := name + [' '];
    assert w[0] == name[0];
    assert DropSpaces(w) == w;
    TakeWordOf(name, [' ']);
  }

  // ------------------------------------------------------- players, games

  /** One game: the indices of its two players and its score. */
  datatype Game = Game(white: nat, black: nat, score: int)

  /** The global tables: the player names `Name[0..N_players)`, the used
      part `Labelbuffer[0..Labelbuffer_end)` of the label buffer that holds
      them, and the games `Whiteplayer`/`Blackplayer`/`Score[0..N_games)`. */
  datatype Tables = Tables(names: seq<seq<char>>, labels: seq<char>, games: seq<Game>)

  /** The label buffer filled with the names, each followed by a NUL. */
  function Joined(names: seq<seq<char>>): seq<char>
  {
    if names == [] then [] else Joined(names[..|names| - 1]) + names[|names| - 1] + ['\0']
  }

  /** Where Name[i] points: the length of the labels of the names before it. */
  function Offset(names: seq<seq<char>>, i: nat): nat
    requires i <= |names|
  {
    |Joined(names[..i])|
  }

  predicate Distinct(names: seq<seq<char>>)
  {
    forall i, j :: 0 <= i < j < |names| ==> names[i] != names[j]
  }

  /** The invariant of the tables: the label buffer holds exactly the names
      and fits, every name is a C string, no name is there twice, every game
      refers to registered players, and the tables keep to their sizes. */
  predicate Valid(db: Tables)
  {
    db.labels == Joined(db.names) && |db.labels| < LabelBufferSize && |db.names| <= PgnMaxPlayers
    && (forall i :: 0 <= i < |db.names| ==> NoNul(db.names[i]))
    && Distinct(db.names)
    && (forall k :: 0 <= k < |db.games| ==> db.games[k].white < |db.names| && db.games[k].black < |db.names|)
    && |db.games| <= MaxGames
  }

  /** The labels of a prefix of the names are a prefix of the labels. */
  lemma {:induction false} JoinedPrefix(names: seq<seq<char>>, k: nat)
    requires k <= |names|
    ensures |Joined(names[..k])| <= |Joined(names)| && Joined(names)[..|Joined(names[..k])|] == Joined(names[..k])
    decreases |names|
  {
    if k == |names| {
      assert names[..k] == names;
    } else {
      var front := names[..|names| - 1];
      JoinedPrefix(front, k);
      assert front[..k] == names[..k];
      var j := Joined(names[..k]);
      assert Joined(names) == Joined(front) + names[|names| - 1] + ['\0'];
      assert Joined(names)[..|j|] == Joined(front)[..|j|];
    }
  }

  /** From Offset(names, i) on, the label buffer holds the i-th name, a NUL
      and the labels of the names after it. */
  lemma LabelsFrom(names: seq<seq<char>>, i: nat)
    requires i < |names|
    ensures Offset(names, i + 1) == Offset(names, i) + |names[i]| + 1 <= |Joined(names)|
    ensures Joined(names)[Offset(names, i)..] == names[i] + ['\0'] + Joined(names)[Offset(names, i + 1)..]
  {
    var J := Joined(names);
    var P := Joined(names[..i]);
    var Q := Joined(names[..i + 1]);
    assert names[..i + 1][..i] == names[..i];
    assert Q == P + names[i] + ['\0'];
    JoinedPrefix(names, i + 1);
    assert J[..|Q|] == Q;
    LabelsSplit(J, P, names[i] + ['\0'], |Q|);
  }

  /** A sequence whose prefix is P + m continues with m after P. */
  lemma LabelsSplit(J: seq<char>, P: seq<char>, m: seq<char>, q: nat)
    requires q == |P| + |m| <= |J| && J[..q] == P + m
    ensures J[|P|..] == m + J[q..]
  {
    assert J == J[..q] + J[q..];
  }

  /** Name[i] points at a terminated copy of the i-th name: reading the
      label buffer as a C string at Offset(names, i) gives the name back. */
  lemma NameReadsBack(names: seq<seq<char>>, i: nat)
    requires i < |names| && NoNul(names[i])
    ensures Offset(names, i) < |Joined(names)|
    ensures MyStr.CStr(Joined(names)[Offset(names, i)..]) == names[i]
  {
    LabelsFrom(names, i);
    MyStr.CStrOfTerminated(names[i], Joined(names)[Offset(names, i + 1)..]);
  }

  /** The index of the first name equal to s, if any. */
  function IndexOf(names: seq<seq<char>>, s: seq<char>): (r: Option<nat>)
    ensures r.Some? ==> (r.value < |names| && names[r.value] == s
                         && forall j :: 0 <= j < r.value ==> names[j] != s)
    ensures r.None? ==> forall j :: 0 <= j < |names| ==> names[j] != s
  {
    if names == [] then None
    else if names[0] == s then Some(0)
    else match IndexOf(names[1..], s)
      case None => None
      case Some(k) => Some(k + 1)
  }

  /** `playeridx_from_str`: the first index whose name is s; with none the
      index is left alone and the answer is FALSE (None). */
  method PlayerIdxFromStr(names: seq<seq<char>>, s: seq<char>) returns (r: Option<nat>)
    ensures r == IndexOf(names, s)
  {
    r := None;
    var i := 0;
    var found := false;
    while !found && i < |names|
      invariant i <= |names|
      invariant found ==> r == Some(i - 1) && i > 0 && names[i - 1] == s
      invariant !found ==> r == None
      invariant forall j :: 0 <= j < i - (if found then 1 else 0) ==> names[j] != s
      decreases |names| - i
    {
      found := s == names[i];
      if found {
        r := Some(i);
      }
      i := i + 1;
    }
  }

  /** The outcome of registering a name: success, the tables after, and
      the index the name got (0 when it failed, where the source leaves the
      index unset). */
  datatype Reg = Reg(ok: bool, db: Tables, idx: nat)

  /** `addplayer`: the name fits when its length is below what remains of
      the label buffer after one byte is kept back, and there is room for
      one more player; it then gets the next index and its characters and a
      NUL are appended to the label buffer. Otherwise nothing changes. */
  function AddPlayerOf(db: Tables, s: seq<char>): Reg
  {
    if |s| + |db.labels| + 1 < LabelBufferSize && |db.names| < PgnMaxPlayers then
      Reg(true, db.(names := db.names + [s], labels := db.labels + s + ['\0']), |db.names|)
    else Reg(false, db, 0)
  }

  /** A new name keeps the tables valid; on success it reads back from the
      label buffer at its own index, the names before it keep theirs, and
      the buffer has grown by the name and its terminator. */
  lemma AddPlayerKeepsValid(db: Tables, s: seq<char>)
    requires Valid(db) && NoNul(s) && IndexOf(db.names, s).None?
    ensures var r := AddPlayerOf(db, s);
      Valid(r.db) && r.db.games == db.games
      && (r.ok ==> |r.db.labels| == |db.labels| + |s| + 1 && r.idx == |db.names|
                   && r.db.names[..|db.names|] == db.names
                   && MyStr.CStr(r.db.labels[Offset(r.db.names, r.idx)..]) == s)
      && (!r.ok ==> r.db == db)
  {
    var r := AddPlayerOf(db, s);
    if r.ok {
      var ns := db.names + [s];
      assert ns[..|ns| - 1] == db.names;
      assert Joined(ns) == db.labels + s + ['\0'];
      assert ns[..|db.names|] == db.names;
      NameReadsBack(ns, |db.names|);
    }
  }

  /** The lookup-or-add of one player in `pgn_result_collect`. */
  function RegisterOf(db: Tables, s: seq<char>): Reg
  {
    match IndexOf(db.names, s)
      case Some(i) => Reg(true, db, i)
      case None => AddPlayerOf(db, s)
  }

  /** Registering keeps the tables valid; on success the index holds the
      name and the earlier names and the games stay. */
  lemma RegisterKeepsValid(db: Tables, s: seq<char>)
    requires Valid(db) && NoNul(s)
    ensures var r := RegisterOf(db, s);
      Valid(r.db) && r.db.games == db.games
      && |db.names| <= |r.db.names| && r.db.names[..|db.names|] == db.names
      && (r.ok ==> r.idx < |r.db.names| && r.db.names[r.idx] == s)
  {
    if IndexOf(db.names, s).None? {
      AddPlayerKeepsValid(db, s);
    } else {
      assert db.names[..|db.names|] == db.names;
    }
  }

  /** A name already present is found, and nothing changes. */
  lemma RegisterKnown(db: Tables, s: seq<char>, i: nat)
    requires i < |db.names| && db.names[i] == s && Distinct(db.names)
    ensures RegisterOf(db, s) == Reg(true, db, i)
  {
  }

  /** The tag values of a game: white name, black name, result and whether
      each was seen (`struct pgn_result`). */
  datatype Record = Record(wtagPresent: bool, btagPresent: bool, resultPresent: bool,
                           result: int, wtag: seq<char>, btag: seq<char>)

  /** `pgn_result_reset`. */
  const Fresh: Record := Record(false, false, false, 0, [], [])

  /** `is_complete`. */
  predicate IsComplete(p: Record)
  {
    p.wtagPresent && p.btagPresent && p.resultPresent
  }

  /** Both player names are C strings. */
  predicate RecordOk(p: Record)
  {
    NoNul(p.wtag) && NoNul(p.btag)
  }

  /** Both players of a record looked up or added, stopping at the first
      that cannot be added. */
  datatype Pair = Pair(ok: bool, db: Tables, white: nat, black: nat)

  function PlayersOf(db: Tables, p: Record): Pair
  {
    var w := RegisterOf(db, p.wtag);
    if !w.ok then Pair(false, w.db, 0, 0)
    else
      var b := RegisterOf(w.db, p.btag);
      Pair(b.ok, b.db, w.idx, b.idx)
  }

  lemma PlayersKeepValid(db: Tables, p: Record)
    requires Valid(db) && RecordOk(p)
    ensures var q := PlayersOf(db, p);
      Valid(q.db) && q.db.games == db.games
      && |db.names| <= |q.db.names| && q.db.names[..|db.names|] == db.names
      && (q.ok ==> q.white < |q.db.names| && q.db.names[q.white] == p.wtag
                   && q.black < |q.db.names| && q.db.names[q.black] == p.btag)
  {
    RegisterKeepsValid(db, p.wtag);
    var w := RegisterOf(db, p.wtag);
    if w.ok {
      RegisterKeepsValid(w.db, p.btag);
      var b := RegisterOf(w.db, p.btag);
      assert b.db.names[..|w.db.names|] == w.db.names;
      assert b.db.names[..|db.names|] == b.db.names[..|w.db.names|][..|db.names|];
    }
  }

  /** `pgn_result_collect` as written: once both players are registered the
      game goes to index N_games of the MAXGAMES-entry game arrays, whatever
      N_games is. */
  function CollectedAsWritten(db: Tables, p: Record): (bool, Tables)
  {
    var q := PlayersOf(db, p);
    if q.ok then (true, q.db.(games := q.db.games + [Game(q.white, q.black, p.result)]))
    else (false, q.db)
  }

  /** With MAXGAMES games stored and both players known, the collect as
      written reports success and stores a game at index MAXGAMES, one past
      the end of the game arrays. */
  lemma CollectPastCapacity(db: Tables, p: Record, i: nat, j: nat)
    requires Valid(db) && |db.games| == MaxGames
    requires i < |db.names| && db.names[i] == p.wtag && j < |db.names| && db.names[j] == p.btag
    ensures CollectedAsWritten(db, p).0
    ensures |CollectedAsWritten(db, p).1.games| == MaxGames + 1
  {
    RegisterKnown(db, p.wtag, i);
    RegisterKnown(db, p.btag, j);
  }

  /** `pgn_result_collect` as intended: it also fails, like a failed
      `addplayer`, when the game arrays are full. */
  function Collected(db: Tables, p: Record): (bool, Tables)
  {
    var q := PlayersOf(db, p);
    if q.ok && |q.db.games| < MaxGames then (true, q.db.(games := q.db.games + [Game(q.white, q.black, p.result)]))
    else (false, q.db)
  }

  /** Collecting keeps the tables valid. When it succeeds exactly one game
      is appended, naming the record's white and black players and holding
      its result, and the names registered before keep their indices; with
      full game arrays it fails and stores no game. */
  lemma CollectKeepsValid(db: Tables, p: Record)
    requires Valid(db) && RecordOk(p)
    ensures var r := Collected(db, p);
      Valid(r.1)
      && |db.names| <= |r.1.names| && r.1.names[..|db.names|] == db.names
      && (r.0 ==> |r.1.games| == |db.games| + 1 && r.1.games[..|db.games|] == db.games
                  && r.1.names[r.1.games[|db.games|].white] == p.wtag
                  && r.1.names[r.1.games[|db.games|].black] == p.btag
                  && r.1.games[|db.games|].score == p.result)
      && (!r.0 ==> r.1.games == db.games)
      && (|db.games| == MaxGames ==> !r.0)
  {
    PlayersKeepValid(db, p);
    var q := PlayersOf(db, p);
    var r := Collected(db, p);
    if r.0 {
      var g := q.db.games + [Game(q.white, q.black, p.result)];
      assert g[..|db.games|] == db.games;
      forall k | 0 <= k < |g|
        ensures g[k].white < |q.db.names| && g[k].black < |q.db.names|
      {
        if k < |db.games| {
          assert g[k] == db.games[k];
        }
      }
    }
  }

  /** A game between two registered players is collected without touching
      the names while the game arrays have room. */
  lemma CollectKnownPlayers(db: Tables, p: Record, i: nat, j: nat)
    requires Valid(db) && |db.games| < MaxGames
    requires i < |db.names| && db.names[i] == p.wtag && j < |db.names| && db.names[j] == p.btag
    ensures Collected(db, p) == (true, db.(games := db.games + [Game(i, j, p.result)]))
  {
    RegisterKnown(db, p.wtag, i);
    RegisterKnown(db, p.btag, j);
  }

  /** The player and game tables (the globals of pgnget.c). */
  class Registry {
    var names: seq<seq<char>>
    var labels: seq<char>
    var games: seq<Game>

    function State(): Tables
      reads this
    {
      Tables(names, labels, games)
    }

    /** The tables at program start: no players, no games. */
    constructor ()
      ensures State() == Tables([], [], [])
    {
      names, labels, games := [], [], [];
    }

    method AddPlayer(s: seq<char>) returns (ok: bool, idx: nat)
      modifies this
      ensures Reg(ok, State(), idx) == AddPlayerOf(old(State()), s)
    {
      ok := |s| + |labels| + 1 < LabelBufferSize && |names| < PgnMaxPlayers;
      idx := 0;
      if ok {
        idx := |names|;
        names := names + [s];
        var i := 0;
        while i < |s|
          invariant i <= |s| && labels == old(labels) + s[..i]
          invariant names == old(names) + [s] && games == old(games)
        {
          labels := labels + [s[i]];
          i := i + 1;
        }
        assert s[..i] == s;
        labels := labels + ['\0'];
      }
    }

    /** `pgn_result_collect` with the capacity check. */
    method Collect(p: Record) returns (ok: bool)
      modifies this
      ensures (ok, State()) == Collected(old(State()), p)
    {
      var wi: nat := 0;
      var bi: nat := 0;
      ok := true;
      var i := PlayerIdxFromStr(names, p.wtag);
      if i.Some? {
        wi := i.value;
      } else {
        ok, wi := AddPlayer(p.wtag);
      }
      if ok {
        var j := PlayerIdxFromStr(names, p.btag);
        if j.Some? {
          bi := j.value;
        } else {
          ok, bi := AddPlayer(p.btag);
        }
      }
      if ok && |games| < MaxGames {
        games := games + [Game(wi, bi, p.result)];
      } else {
        ok := false;
      }
    }
  }

  // ------------------------------------------------------------ the scan

  /** A tag pair updates the record: a Result tag sets the score, a White or
      Black tag the player's name, each marking its field as seen; any
      other tag is ignored. Without a quoted value the source copies an
      unset buffer; the model takes the empty string. */
  function ApplyTag(p: Record, cmd: Option<seq<char>>, prm: Option<seq<char>>): (r: Record)
    ensures RecordOk(p) && (prm.Some? ==> NoNul(prm.value)) ==> RecordOk(r)
  {
    var v := if prm.Some? then prm.value else [];
    var p1 := if cmd.Some? && IsResultCmd(cmd.value) then p.(result := Res2Int(v), resultPresent := true) else p;
    var p2 := if cmd.Some? && IsWhiteCmd(cmd.value) then p1.(wtag := v, wtagPresent := true) else p1;
    if cmd.Some? && IsBlackCmd(cmd.value) then p2.(btag := v, btagPresent := true) else p2
  }

  /** The characters of move text that `fpgnscan` passes over: digits,
      piece letters, files, castling, check, mate, capture and result
      marks. */
  predicate IsMoveChar(c: char)
  {
    ('0' <= c <= '9') || ('a' <= c <= 'h')
    || c == 'R' || c == 'N' || c == 'B' || c == 'K' || c == 'Q' || c == 'O'
    || c == '+' || c == '#' || c == 'x' || c == '/' || c == '-' || c == '=' || c == '*'
  }

  /** Where the scan stands after one character and what it calls for. */
  datatype Step = Step(pos: nat, lines: nat, rec: Record, errors: seq<nat>)

  /** The `switch` of `fpgnscan` on a character c = input[pos] that is not
      white space or '.': move text is passed over, '[' reads a tag pair,
      '{' skips a comment, '(' a variation, and anything else is reported
      with its line number (counted from 1). */
  function Dispatch(input: seq<char>, pos: nat, lines: nat, p: Record, errors: seq<nat>): (r: Step)
    requires pos < |input|
    ensures pos < r.pos <= |input|
    ensures RecordOk(p) ==> RecordOk(r.rec)
  {
    var c := input[pos];
    if IsMoveChar(c) then Step(pos + 1, lines, p, errors)
    else if c == '[' then
      var t := ReadTagFrom(input, pos + 1, [], None, lines);
      Step(t.pos, t.lines, ApplyTag(p, FirstWord(MyStr.CStr(t.cmmd)), t.prm), errors)
    else if c == '{' then
      var k := SkipCom(input, pos + 1, lines);
      Step(k.pos, k.lines, p, errors)
    else if c == '(' then
      var k := SkipVar(input, pos + 1, 0, lines);
      Step(k.pos, k.lines, p, errors)
    else Step(pos + 1, lines, p, errors + [lines + 1])
  }

  /** How a scan ends: at EOF with the tables filled, or with "out of
      memory" and `exit(EXIT_FAILURE)` when a game cannot be collected. */
  datatype Outcome = Finished(db: Tables, errors: seq<nat>) | OutOfMemory(db: Tables, errors: seq<nat>)

  /** `fpgnscan` from position pos on: a newline is counted, white space and
      '.' are passed over, and after any other character a record that has
      become complete is collected and reset. */
  function ScanFrom(input: seq<char>, pos: nat, lines: nat, p: Record, db: Tables, errors: seq<nat>): Outcome
    requires pos <= |input| && RecordOk(p)
    decreases |input| - pos
  {
    if pos == |input| then Finished(db, errors)
    else
      var c := input[pos];
      if c == '\n' then ScanFrom(input, pos + 1, lines + 1, p, db, errors)
      else if IsSpace(c) || c == '.' then ScanFrom(input, pos + 1, lines, p, db, errors)
      else
        var s := Dispatch(input, pos, lines, p, errors);
        if !IsComplete(s.rec) then ScanFrom(input, s.pos, s.lines, s.rec, db, s.errors)
        else
          var r := Collected(db, s.rec);
          if r.0 then ScanFrom(input, s.pos, s.lines, Fresh, r.1, s.errors)
          else OutOfMemory(r.1, s.errors)
  }

  /** The scan keeps the tables valid: whatever the file holds, no name is
      registered twice, every game refers to registered players, and the
      label buffer, the player table and the game arrays keep to their
      sizes. */
  lemma {:induction false} ScanKeepsValid(input: seq<char>, pos: nat, lines: nat, p: Record, db: Tables, errors: seq<nat>)
    requires pos <= |input| && RecordOk(p) && Valid(db)
    ensures Valid(ScanFrom(input, pos, lines, p, db, errors).db)
    decreases |input| - pos
  {
    if pos < |input| {
      var c := input[pos];
      if c == '\n' {
        ScanKeepsValid(input, pos + 1, lines + 1, p, db, errors);
      } else if IsSpace(c) || c == '.' {
        ScanKeepsValid(input, pos + 1, lines, p, db, errors);
      } else {
        var s := Dispatch(input, pos, lines, p, errors);
        if !IsComplete(s.rec) {
          ScanKeepsValid(input, s.pos, s.lines, s.rec, db, s.errors);
        } else {
          CollectKeepsValid(db, s.rec);
          var r := Collected(db, s.rec);
          if r.0 {
            ScanKeepsValid(input, s.pos, s.lines, Fresh, r.1, s.errors);
          }
        }
      }
    }
  }

  /** The main loop of `fpgnscan`, one character at a time. */
  method DispatchOne(input: seq<char>, pos0: nat, lines0: nat, p0: Record, errors0: seq<nat>)
    returns (pos: nat, lines: nat, p: Record, errors: seq<nat>)
    requires pos0 < |input|
    ensures Step(pos, lines, p, errors) == Dispatch(input, pos0, lines0, p0, errors0)
  {
    var c := input[pos0];
    pos, lines, p, errors := pos0 + 1, lines0, p0, errors0;
    if IsMoveChar(c) {
    } else if c == '[' {
      var cmd, prm;
      cmd, prm, pos, lines := ReadTagln(input, pos, lines);
      p := ApplyTag(p, cmd, prm);
    } else if c == '{' {
      pos, lines := SkipComment(input, pos, lines);
    } else if c == '(' {
      pos, lines := SkipVariation(input, pos, lines);
    } else {
      errors := errors + [lines + 1];
    }
  }

  /** `fpgnscan` over the whole file; `exited` stands for the
      `exit(EXIT_FAILURE)` after "out of memory". The progress output is
      not modelled. */
  method FPgnScan(input: seq<char>, reg: Registry) returns (exited: bool, errors: seq<nat>)
    modifies reg
    ensures var o := ScanFrom(input, 0, 0, Fresh, old(reg.State()), []);
      exited == o.OutOfMemory? && reg.State() == o.db && errors == o.errors
  {
    var p := Fresh;
    var lines := 0;
    var pos := 0;
    errors := [];
    exited := false;
    while pos < |input|
      invariant pos <= |input| && RecordOk(p)
      invariant ScanFrom(input, pos, lines, p, reg.State(), errors) == ScanFrom(input, 0, 0, Fresh, old(reg.State()), [])
      decreases |input| - pos
    {
      var c := input[pos];
      if c == '\n' {
        pos, lines := pos + 1, lines + 1;
        continue;
      }
      if IsSpace(c) || c == '.' {
        pos := pos + 1;
        continue;
      }
      pos, lines, p, errors := DispatchOne(input, pos, lines, p, errors);
      if IsComplete(p) {
        var ok := reg.Collect(p);
        if !ok {
          exited := true;
          return;
        }
        p := Fresh;
      }
    }
  }

  /** `pgn_getresults`: FALSE when the file cannot be opened; otherwise the
      file is scanned into the tables and the answer is TRUE. The tables
      are not cleared first (`data_init` clears a separate, unused
      structure), so a second call appends to the first. */
  method PgnGetResults(isOpen: bool, input: seq<char>, reg: Registry) returns (ok: bool, exited: bool, errors: seq<nat>)
    modifies reg
    ensures !isOpen ==> !ok && !exited && errors == [] && reg.State() == old(reg.State())
    ensures isOpen ==> var o := ScanFrom(input, 0, 0, Fresh, old(reg.State()), []);
      exited == o.OutOfMemory? && ok == !exited && reg.State() == o.db && errors == o.errors
  {
    ok, exited, errors := false, false, [];
    if isOpen {
      exited, errors := FPgnScan(input, reg);
      ok := !exited;
    }
  }

  /** A tag pair `[name "value"]` at pos: the '[' and the tag body. */
  predicate TagPairAt(input: seq<char>, pos: nat, name: seq<char>, v: seq<char>)
  {
    pos + 1 + |TagBody(name, v)| <= |input| && input[pos] == '['
    && input[pos + 1..pos + 1 + |TagBody(name, v)|] == TagBody(name, v)
  }

  /** Where a tag pair at pos ends. */
  function TagEnd(pos: nat, name: seq<char>, v: seq<char>): nat
  {
    pos + 1 + |TagBody(name, v)|
  }

  /** A well-formed tag pair is one step of the scan that applies the tag. */
  lemma DispatchTag(input: seq<char>, pos: nat, lines: nat, p: Record, errors: seq<nat>, name: seq<char>, v: seq<char>)
    requires TagName(name) && |name| + 1 < StrLimit && PlainText(v) && |v| < StrLimit
    requires TagPairAt(input, pos, name, v)
    ensures Dispatch(input, pos, lines, p, errors) == Step(TagEnd(pos, name, v), lines, ApplyTag(p, Some(name), Some(v)), errors)
  {
    ReadTagPair(input, pos + 1, lines, name, v);
    var t := ReadTagFrom(input, pos + 1, [], None, lines);
    assert input[pos] == '[' && !IsMoveChar('[');
    assert Dispatch(input, pos, lines, p, errors) == Step(t.pos, t.lines, ApplyTag(p, FirstWord(MyStr.CStr(t.cmmd)), t.prm), errors);
  }

  /** One step of the scan at a character that is not white space or '.'. */
  lemma ScanOverStep(input: seq<char>, pos: nat, lines: nat, p: Record, db: Tables, errors: seq<nat>, s: Step)
    requires pos < |input| && RecordOk(p)
    requires input[pos] != '\n' && !IsSpace(input[pos]) && input[pos] != '.'
    requires Dispatch(input, pos, lines, p, errors) == s
    ensures RecordOk(s.rec) && pos < s.pos <= |input|
    ensures !IsComplete(s.rec) ==> ScanFrom(input, pos, lines, p, db, errors) == ScanFrom(input, s.pos, s.lines, s.rec, db, s.errors)
    ensures IsComplete(s.rec) ==>
      var g := Collected(db, s.rec);
      ScanFrom(input, pos, lines, p, db, errors)
        == (if g.0 then ScanFrom(input, s.pos, s.lines, Fresh, g.1, s.errors) else OutOfMemory(g.1, s.errors))
  {
  }

  /** A newline is counted and passed over. */
  lemma ScanNewline(input: seq<char>, pos: nat, lines: nat, p: Record, db: Tables, errors: seq<nat>)
    requires pos < |input| && RecordOk(p) && input[pos] == '\n'
    ensures ScanFrom(input, pos, lines, p, db, errors) == ScanFrom(input, pos + 1, lines + 1, p, db, errors)
  {
  }

  /** A tag pair on a line of its own that leaves the record incomplete
      is applied, and the scan goes on at the start of the next line. */
  lemma ScanTagLine(input: seq<char>, pos: nat, lines: nat, p: Record, db: Tables, errors: seq<nat>,
                    name: seq<char>, v: seq<char>, q: Record, next: nat, lines': nat)
    requires TagName(name) && |name| + 1 < StrLimit && PlainText(v) && |v| < StrLimit
    requires TagPairAt(input, pos, name, v) && TagEnd(pos, name, v) < |input| && input[TagEnd(pos, name, v)] == '\n'
    requires RecordOk(p) && q == ApplyTag(p, Some(name), Some(v)) && !IsComplete(q)
    requires next == TagEnd(pos, name, v) + 1 && lines' == lines + 1
    ensures RecordOk(q)
    ensures ScanFrom(input, pos, lines, p, db, errors) == ScanFrom(input, next, lines', q, db, errors)
  {
    DispatchTag(input, pos, lines, p, errors, name, v);
    var e := TagEnd(pos, name, v);
    assert input[pos] == '[';
    ScanOverStep(input, pos, lines, p, db, errors, Step(e, lines, q, errors));
    ScanNewline(input, e, lines, q, db, errors);
  }

  /** A White, Black or Result tag sets just its own field of the record. */
  lemma ApplyRosterTags(p: Record, v: seq<char>)
    ensures ApplyTag(p, Some("White"), Some(v)) == p.(wtag := v, wtagPresent := true)
    ensures ApplyTag(p, Some("Black"), Some(v)) == p.(btag := v, btagPresent := true)
    ensures ApplyTag(p, Some("Result"), Some(v)) == p.(result := Res2Int(v), resultPresent := true)
  {
    assert !IsResultCmd("White") && !IsBlackCmd("White");
    assert !IsResultCmd("Black") && !IsWhiteCmd("Black");
    assert !IsWhiteCmd("Result") && !IsBlackCmd("Result");
  }

  /** Any other tag, such as those of section 8.1.1 of the PGN standard
      besides these three, leaves the record as it is. */
  lemma ApplyOtherTag(p: Record, name: seq<char>, v: Option<seq<char>>)
    requires !IsResultCmd(name) && !IsWhiteCmd(name) && !IsBlackCmd(name)
    ensures ApplyTag(p, Some(name), v) == p
  {
  }

  lemma RosterNames()
    ensures TagName("White") && TagName("Black") && TagName("Result")
  {
  }

  /** A Result tag after the two names completes the record: the game is
      collected at once and the record starts afresh. */
  lemma ScanResultTag(input: seq<char>, pos: nat, lines: nat, db: Tables, errors: seq<nat>,
                      w: seq<char>, b: seq<char>, res: seq<char>)
    requires NoNul(w) && NoNul(b) && PlainText(res) && |res| < StrLimit
    requires TagPairAt(input, pos, "Result", res)
    ensures var g := Collected(db, Record(true, true, true, Res2Int(res), w, b));
      ScanFrom(input, pos, lines, Fresh.(wtag := w, wtagPresent := true, btag := b, btagPresent := true), db, errors)
        == (if g.0 then ScanFrom(input, TagEnd(pos, "Result", res), lines, Fresh, g.1, errors) else OutOfMemory(g.1, errors))
  {
    var r2 := Fresh.(wtag := w, wtagPresent := true, btag := b, btagPresent := true);
    var r3 := Record(true, true, true, Res2Int(res), w, b);
    RosterNames();
    ApplyRosterTags(r2, res);
    DispatchTag(input, pos, lines, r2, errors, "Result", res);
    assert input[pos] == '[';
    ScanOverStep(input, pos, lines, r2, db, errors, Step(TagEnd(pos, "Result", res), lines, r3, errors));
  }

  /** The tag roster of a game read from a file: a White tag on a line of
      its own from pos, a Black tag on a line of its own from p1 and a
      Result tag from p2 to e. The game is collected as soon as the Result
      tag is read, with the names and the result the tags hold, and the
      record starts afresh. */
  lemma ScanGameHeader(input: seq<char>, pos: nat, lines: nat, db: Tables, errors: seq<nat>,
                       w: seq<char>, b: seq<char>, res: seq<char>, p1: nat, p2: nat, e: nat)
    requires PlainText(w) && |w| < StrLimit && PlainText(b) && |b| < StrLimit && PlainText(res) && |res| < StrLimit
    requires TagPairAt(input, pos, "White", w) && p1 == TagEnd(pos, "White", w) + 1
    requires TagPairAt(input, p1, "Black", b) && p2 == TagEnd(p1, "Black", b) + 1
    requires TagPairAt(input, p2, "Result", res) && e == TagEnd(p2, "Result", res)
    requires input[p1 - 1] == '\n' && input[p2 - 1] == '\n'
    ensures var g := Collected(db, Record(true, true, true, Res2Int(res), w, b));
      ScanFrom(input, pos, lines, Fresh, db, errors)
        == (if g.0 then ScanFrom(input, e, lines + 2, Fresh, g.1, errors) else OutOfMemory(g.1, errors))
  {
    var r1 := Fresh.(wtag := w, wtagPresent := true);
    var r2 := r1.(btag := b, btagPresent := true);
    RosterNames();
    ApplyRosterTags(Fresh, w);
    ApplyRosterTags(r1, b);
    ScanTagLine(input, pos, lines, Fresh, db, errors, "White", w, r1, p1, lines + 1);
    ScanTagLine(input, p1, lines + 1, r1, db, errors, "Black", b, r2, p2, lines + 2);
    assert r2 == Fresh.(wtag := w, wtagPresent := true, btag := b, btagPresent := true);
    ScanResultTag(input, p2, lines + 2, db, errors, w, b, res);
  }
}
