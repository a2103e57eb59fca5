/** The comma-separated line splitter used for the relative-prior files: a
    simplified dialect of section 2 of RFC 4180 in which a field may be
    enclosed in double quotes (commas inside it are kept) but a quote inside
    a quoted field cannot be escaped by doubling it. A line is read as a C
    string: past its last character the terminating NUL is seen (`At`). */
module Csv {
  import opened CText

  /** `MAXSIZETOKEN`: the most characters one token copies. */
  const MaxSizeToken: nat := 1024

  predicate IsSep(c: char)
  {
    c == ','
  }

  predicate IsQuote(c: char)
  {
    c == '"'
  }

  /** Where `skipblanks` stops: the first non-blank at or after p. */
  function Blanks(line: string, p: nat): (q: nat)
    ensures p <= q
    ensures !IsSpace(At(line, q))
    ensures p <= |line| ==> q <= |line|
    decreases if p < |line| then |line| - p else 0
  {
    if IsSpace(At(line, p)) then Blanks(line, p + 1) else p
  }

  /** Everything `skipblanks` passes over is a blank. */
  lemma {:induction false} BlanksSkipsBlanks(line: string, p: nat, k: nat)
    requires p <= k < Blanks(line, p)
    ensures IsSpace(At(line, k))
    decreases if p < |line| then |line| - p else 0
  {
    if k > p {
      BlanksSkipsBlanks(line, p + 1, k);
    }
  }

  /** The characters a copy loop takes from p: it stops at the NUL, at the
      stop character, or after max characters. */
  function Run(line: string, p: nat, max: nat, stop: char): (r: string)
    ensures |r| <= max
    ensures p + |r| <= |line| || r == []
    ensures |r| < max ==> At(line, p + |r|) == '\0' || At(line, p + |r|) == stop
    decreases max
  {
    if max == 0 || At(line, p) == '\0' || At(line, p) == stop then []
    else [At(line, p)] + Run(line, p + 1, max - 1, stop)
  }

  /** A copy loop copies the line's characters, never the NUL or the stop
      character. */
  lemma {:induction false} RunCopies(line: string, p: nat, max: nat, stop: char, k: nat)
    requires k < |Run(line, p, max, stop)|
    ensures Run(line, p, max, stop)[k] == At(line, p + k)
    ensures At(line, p + k) != '\0' && At(line, p + k) != stop
    decreases max
  {
    if k > 0 {
      RunCopies(line, p + 1, max - 1, stop, k - 1);
    }
  }

  /** `rm_blank_tails`: the string without its trailing blanks. */
  function StripTrailing(s: string): (r: string)
    ensures |r| <= |s| && r == s[..|r|]
    ensures forall k :: |r| <= k < |s| ==> IsSpace(s[k])
    ensures r == [] || !IsSpace(r[|r| - 1])
  {
    if s != [] && IsSpace(s[|s| - 1]) then StripTrailing(s[..|s| - 1]) else s
  }

  datatype Token = Token(text: string, next: nat)

  /** Where the next token starts when a closing quote is at e: after the
      blanks that follow it and one comma. */
  function AfterClose(line: string, e: nat): nat
  {
    var b := Blanks(line, e + 1);
    if IsSep(At(line, b)) then b + 1 else b
  }

  /** A quoted field whose opening quote is at q, up to its closing quote;
      then the blanks and one comma after it are consumed. */
  function Quoted(line: string, q: nat, max: nat, asWritten: bool): (r: Token)
    ensures |r.text| <= max
  {
    var t := Run(line, q + 1, max, '"');
    var e := q + 1 + |t|;
    if IsQuote(At(line, e)) then Token(t, AfterClose(line, e))
    else if asWritten || At(line, e) != '\0' then Token(t, e + 1)
    else Token(t, e)
  }

  /** An unquoted field from q up to the next comma, without trailing
      blanks; the comma is consumed. */
  function Unquoted(line: string, q: nat, max: nat): (r: Token)
    ensures |r.text| <= max
  {
    var t := Run(line, q, max, ',');
    var e := q + |t|;
    Token(StripTrailing(t), if IsSep(At(line, e)) then e + 1 else e)
  }

  /** The token whose first non-blank character is at q. */
  function TokenFrom(line: string, q: nat, max: nat, asWritten: bool): (r: Token)
    ensures |r.text| <= max
  {
    if IsSep(At(line, q)) then Token([], q + 1)
    else if IsQuote(At(line, q)) then Quoted(line, q, max, asWritten)
    else Unquoted(line, q, max)
  }

  /** `csv_gettoken` as written: after a quoted field the pointer is stepped
      once more whatever it points at, so an unterminated quote steps past
      the terminating NUL. */
  function TokenAtAsWritten(line: string, p: nat, max: nat): Option<Token>
  {
    if At(line, p) == '\0' then None else Some(TokenFrom(line, Blanks(line, p), max, true))
  }

  /** `csv_gettoken` without the step past the NUL: an unterminated quoted
      field ends at the end of the line. */
  function TokenAt(line: string, p: nat, max: nat): (r: Option<Token>)
    ensures r.None? <==> At(line, p) == '\0'
    ensures r.Some? ==> |r.value.text| <= max
  {
    if At(line, p) == '\0' then None else Some(TokenFrom(line, Blanks(line, p), max, false))
  }

  /** Each token moves strictly forward and never past the terminator. */
  lemma TokenProgress(line: string, p: nat, max: nat)
    requires NoNul(line) && p <= |line| && max > 0
    ensures TokenAt(line, p, max).Some? ==>
              p < TokenAt(line, p, max).value.next <= |line|
  {
  }

  /** The two versions differ only after an unterminated quoted field. */
  lemma AsWrittenAgreesOtherwise(line: string, p: nat, max: nat)
    requires NoNul(line)
    requires TokenAtAsWritten(line, p, max).Some?
    requires TokenAtAsWritten(line, p, max).value.next <= |line|
    ensures TokenAtAsWritten(line, p, max) == TokenAt(line, p, max)
  {
  }

  /** The line `"ab` (an opening quote never closed): as written, the next
      token would be read from one place past the terminating NUL. */
  lemma UnterminatedQuoteOverrun()
    ensures TokenAtAsWritten("\"ab", 0, MaxSizeToken) == Some(Token("ab", 4))
    ensures TokenAt("\"ab", 0, MaxSizeToken) == Some(Token("ab", 3))
  {
    var line := "\"ab";
    assert Blanks(line, 0) == 0;
    assert Run(line, 3, MaxSizeToken - 2, '"') == [];
    assert Run(line, 1, MaxSizeToken, '"') == "ab";
    assert Quoted(line, 0, MaxSizeToken, true) == Token("ab", 4);
    assert Quoted(line, 0, MaxSizeToken, false) == Token("ab", 3);
  }

  /** All the tokens from p on, as the loop of `csv_line_init` takes them:
      blanks are skipped before each token. */
  function FieldsFrom(line: string, p: nat, max: nat): seq<string>
    requires NoNul(line) && p <= |line| && max > 0
    decreases |line| - p
  {
    TokenProgress(line, p, max);
    match TokenAt(line, p, max)
    case None => []
    case Some(t) => [t.text] + FieldsFrom(line, Blanks(line, t.next), max)
  }

  /** The fields `csv_line_init` stores for a line. */
  function Fields(line: string): seq<string>
    requires NoNul(line)
  {
    FieldsFrom(line, Blanks(line, 0), MaxSizeToken)
  }

  /** A field that survives being joined with commas and split again: short
      enough to be copied whole, without commas, quotes or NULs, and not
      starting or ending with a blank. */
  predicate Plain(f: string, max: nat)
  {
    |f| <= max &&
    (forall k :: 0 <= k < |f| ==> f[k] != ',' && f[k] != '"' && f[k] != '\0') &&
    (f == [] || (!IsSpace(f[0]) && !IsSpace(f[|f| - 1])))
  }

  /** The fields joined with commas. */
  function Join(fs: seq<string>): string
    requires fs != []
  {
    if |fs| == 1 then fs[0] else fs[0] + "," + Join(fs[1..])
  }

  lemma {:induction false} JoinNoNul(fs: seq<string>, max: nat)
    requires fs != [] && forall i :: 0 <= i < |fs| ==> Plain(fs[i], max)
    ensures NoNul(Join(fs))
    decreases |fs|
  {
    if |fs| > 1 {
      JoinNoNul(fs[1..], max);
    }
  }

  /** What a copy loop takes when the field is followed by the stop
      character or the end of the line. */
  lemma {:induction false} RunOfField(line: string, p: nat, max: nat, f: string, stop: char)
    requires p + |f| <= |line| && line[p..p + |f|] == f && |f| <= max
    requires forall k :: 0 <= k < |f| ==> f[k] != stop && f[k] != '\0'
    requires At(line, p + |f|) == '\0' || At(line, p + |f|) == stop
    ensures Run(line, p, max, stop) == f
    decreases |f|
  {
    if f != [] {
      assert line[p] == line[p..p + |f|][0];
      assert line[p + 1..p + |f|] == f[1..];
      RunOfField(line, p + 1, max - 1, f[1..], stop);
    }
  }

  /** An unquoted plain field is copied whole and keeps its last character. */
  lemma UnquotedPlain(line: string, p: nat, f: string, max: nat)
    requires Plain(f, max) && f != [] && p + |f| <= |line| && line[p..p + |f|] == f
    requires At(line, p + |f|) == '\0' || At(line, p + |f|) == ','
    ensures Unquoted(line, p, max) ==
              Token(f, if At(line, p + |f|) == ',' then p + |f| + 1 else p + |f|)
  {
    RunOfField(line, p, max, f, ',');
    StripTrailingKeeps(f);
  }

  lemma StripTrailingKeeps(s: string)
    requires s == [] || !IsSpace(s[|s| - 1])
    ensures StripTrailing(s) == s
  {
  }

  /** The token read at the start of a plain field. */
  lemma TokenOfPlain(line: string, p: nat, f: string, max: nat)
    requires Plain(f, max) && p + |f| <= |line| && line[p..p + |f|] == f
    requires Blanks(line, p) == p
    requires At(line, p + |f|) == '\0' || At(line, p + |f|) == ','
    requires f == [] ==> At(line, p) == ','
    ensures TokenAt(line, p, max) ==
              Some(Token(f, if At(line, p + |f|) == ',' then p + |f| + 1 else p + |f|))
  {
    if f != [] {
      var c := At(line, p);
      assert c == f[0] by {
        assert line[p] == line[p..p + |f|][0];
      }
      assert c != ',' && c != '"' && c != '\0';
      UnquotedPlain(line, p, f, max);
    }
  }

  /** The last field of a join, with at most one comma after it. */
  lemma LastField(line: string, p: nat, f: string, tail: string, max: nat)
    requires max > 0 && Plain(f, max) && f != [] && (tail == [] || tail == ",")
    requires NoNul(line) && p <= |line| && line[p..] == f + tail
    ensures FieldsFrom(line, p, max) == [f]
  {
    var e := p + |f|;
    assert line[p..e] == f by {
      assert line[p..e] == line[p..][..|f|];
    }
    assert At(line, e) == '\0' || At(line, e) == ',' by {
      if tail == "," {
        assert line[p..][|f|] == ',';
      }
    }
    assert Blanks(line, p) == p by {
      assert line[p..][0] == f[0];
    }
    TokenOfPlain(line, p, f, max);
    FieldsStep(line, p, max);
    assert Blanks(line, |line|) == |line|;
    assert FieldsFrom(line, |line|, max) == [];
  }

  /** A field of a join followed by a comma: the token is the field and the
      next one starts after the comma. */
  lemma InnerField(line: string, p: nat, f: string, after: string, max: nat)
    requires Plain(f, max) && p <= |line| && line[p..] == f + "," + after
    ensures TokenAt(line, p, max) == Some(Token(f, p + |f| + 1))
    ensures line[p + |f| + 1..] == after
  {
    var e := p + |f|;
    assert line[p..e] == f by {
      assert line[p..e] == line[p..][..|f|];
    }
    assert At(line, e) == ',' by {
      assert line[p..][|f|] == ',';
    }
    assert line[e + 1..] == after by {
      assert line[e + 1..] == line[p..][|f| + 1..];
    }
    assert Blanks(line, p) == p by {
      assert line[p..][0] == (f + ",")[0];
    }
    TokenOfPlain(line, p, f, max);
  }

  /** Splitting comma-joined plain fields gives them back, from any place in
      a line where they start (optionally followed by one more comma). */
  lemma {:induction false} FieldsOfJoin(line: string, p: nat, fs: seq<string>, tail: string, max: nat)
    requires max > 0 && fs != [] && forall i :: 0 <= i < |fs| ==> Plain(fs[i], max)
    requires fs[|fs| - 1] != []
    requires tail == [] || tail == ","
    requires NoNul(line) && p <= |line| && line[p..] == Join(fs) + tail
    ensures FieldsFrom(line, p, max) == fs
    decreases |fs|
  {
    if |fs| == 1 {
      LastField(line, p, fs[0], tail, max);
    } else {
      var q := JoinStep(line, p, fs, tail, max);
      FieldsOfJoin(line, q, fs[1..], tail, max);
      assert fs == [fs[0]] + fs[1..];
    }
  }

  /** One field of a join: the first field is split off, and the rest of
      the join starts at q. */
  lemma JoinStep(line: string, p: nat, fs: seq<string>, tail: string, max: nat) returns (q: nat)
    requires max > 0 && |fs| > 1 && forall i :: 0 <= i < |fs| ==> Plain(fs[i], max)
    requires fs[|fs| - 1] != []
    requires tail == [] || tail == ","
    requires NoNul(line) && p <= |line| && line[p..] == Join(fs) + tail
    ensures q <= |line| && line[q..] == Join(fs[1..]) + tail
    ensures forall i :: 0 <= i < |fs| - 1 ==> Plain(fs[1..][i], max)
    ensures fs[1..][|fs| - 2] != []
    ensures FieldsFrom(line, p, max) == [fs[0]] + FieldsFrom(line, q, max)
  {
    q := JoinFirst(line, p, fs, tail, max);
    PlainRest(fs, max);
    FirstNotBlank(line, q, fs[1..], tail, max);
    FieldsStep(line, p, max);
  }

  /** The first field of a join is the first token, and the rest of the
      join follows its comma. */
  lemma JoinFirst(line: string, p: nat, fs: seq<string>, tail: string, max: nat) returns (q: nat)
    requires |fs| > 1 && Plain(fs[0], max)
    requires p <= |line| && line[p..] == Join(fs) + tail
    ensures q == p + |fs[0]| + 1 && q <= |line| && line[q..] == Join(fs[1..]) + tail
    ensures TokenAt(line, p, max) == Some(Token(fs[0], q))
  {
    var f := fs[0];
    var rest := fs[1..];
    assert Join(fs) == f + "," + Join(rest);
    ConcatAssoc(f + ",", Join(rest), tail);
    InnerField(line, p, f, Join(rest) + tail, max);
    q := p + |f| + 1;
  }

  /** The fields after the first are plain, and the last is still last. */
  lemma PlainRest(fs: seq<string>, max: nat)
    requires |fs| > 1 && forall i :: 0 <= i < |fs| ==> Plain(fs[i], max)
    ensures forall i :: 0 <= i < |fs| - 1 ==> Plain(fs[1..][i], max)
    ensures fs[1..][|fs| - 2] == fs[|fs| - 1]
  {
    forall i | 0 <= i < |fs| - 1
      ensures Plain(fs[1..][i], max)
    {
      assert fs[1..][i] == fs[i + 1];
    }
  }

  /** The next field of a join starts without a blank. */
  lemma FirstNotBlank(line: string, p: nat, fs: seq<string>, tail: string, max: nat)
    requires fs != [] && forall i :: 0 <= i < |fs| ==> Plain(fs[i], max)
    requires fs[|fs| - 1] != []
    requires p <= |line| && line[p..] == Join(fs) + tail
    ensures Blanks(line, p) == p
  {
    JoinStart(fs, tail, max);
    assert At(line, p) == line[p..][0];
  }

  /** A join of plain fields whose last field is not empty starts with a
      character that is not a blank. */
  lemma JoinStart(fs: seq<string>, tail: string, max: nat)
    requires fs != [] && forall i :: 0 <= i < |fs| ==> Plain(fs[i], max)
    requires fs[|fs| - 1] != []
    ensures Join(fs) + tail != [] && !IsSpace((Join(fs) + tail)[0])
  {
    var f := fs[0];
    assert Plain(f, max);
    if |fs| == 1 {
      assert (Join(fs) + tail)[0] == f[0];
    } else {
      var j := f + "," + Join(fs[1..]);
      assert Join(fs) == j;
      if f != [] {
        assert (j + tail)[0] == f[0];
      } else {
        assert (j + tail)[0] == ',';
      }
    }
  }

  /** Commas split the line, empty fields between two commas included, and
      one comma at the very end adds no field. */
  lemma SplitJoin(fs: seq<string>)
    requires fs != [] && forall i :: 0 <= i < |fs| ==> Plain(fs[i], MaxSizeToken)
    requires fs[|fs| - 1] != []
    ensures NoNul(Join(fs)) && Fields(Join(fs)) == fs
    ensures NoNul(Join(fs) + ",") && Fields(Join(fs) + ",") == fs
  {
    SplitJoinBare(fs);
    SplitJoinComma(fs);
  }

  lemma SplitJoinBare(fs: seq<string>)
    requires fs != [] && forall i :: 0 <= i < |fs| ==> Plain(fs[i], MaxSizeToken)
    requires fs[|fs| - 1] != []
    ensures NoNul(Join(fs)) && Fields(Join(fs)) == fs
  {
    JoinNoNul(fs, MaxSizeToken);
    var line := Join(fs);
    FirstNotBlank(line, 0, fs, [], MaxSizeToken);
    assert line[0..] == Join(fs) + [];
    FieldsOfJoin(line, 0, fs, [], MaxSizeToken);
  }

  lemma SplitJoinComma(fs: seq<string>)
    requires fs != [] && forall i :: 0 <= i < |fs| ==> Plain(fs[i], MaxSizeToken)
    requires fs[|fs| - 1] != []
    ensures NoNul(Join(fs) + ",") && Fields(Join(fs) + ",") == fs
  {
    JoinNoNul(fs, MaxSizeToken);
    var line := Join(fs);
    var line2 := Join(fs) + ",";
    assert NoNul(line2) by {
      assert forall k :: 0 <= k < |line2| - 1 ==> line2[k] == line[k];
    }
    assert line2[0..] == Join(fs) + ",";
    FirstNotBlank(line2, 0, fs, ",", MaxSizeToken);
    FieldsOfJoin(line2, 0, fs, ",", MaxSizeToken);
  }

  /** A token starting at a quote is a quoted field. */
  lemma QuoteStartsQuoted(line: string, p: nat, max: nat)
    requires At(line, p) == '"'
    ensures TokenAt(line, p, max) == Some(Quoted(line, p, max, false))
  {
    assert Blanks(line, p) == p;
  }

  /** A quoted field is its text between the quotes, commas included; the
      blanks and the comma after the closing quote are consumed. */
  lemma QuotedVerbatim(line: string, p: nat, f: string, max: nat)
    requires p + |f| + 2 <= |line| && |f| <= max
    requires line[p] == '"' && line[p + 1..p + 1 + |f|] == f && line[p + 1 + |f|] == '"'
    requires forall k :: 0 <= k < |f| ==> f[k] != '"' && f[k] != '\0'
    ensures TokenAt(line, p, max) == Some(Token(f, AfterClose(line, p + 1 + |f|)))
  {
    QuoteStartsQuoted(line, p, max);
    RunOfField(line, p + 1, max, f, '"');
    assert At(line, p + 1 + |f|) == '"';
  }

  /** `skipblanks`. */
  method SkipBlanks(line: string, p: nat) returns (q: nat)
    ensures q == Blanks(line, p)
  {
    q := p;
    while IsSpace(At(line, q))
      invariant p <= q
      invariant Blanks(line, q) == Blanks(line, p)
      decreases |line| - q
    {
      q := q + 1;
    }
  }

  /** `rm_blank_tails`: the loop clears trailing blanks from the end. */
  method RmBlankTails(s: string) returns (r: string)
    ensures r == StripTrailing(s)
  {
    var t := |s|;
    assert s[..t] == s;
    while t > 0 && IsSpace(s[t - 1])
      invariant 0 <= t <= |s|
      invariant StripTrailing(s[..t]) == StripTrailing(s)
    {
      assert s[..t][..t - 1] == s[..t - 1];
      t := t - 1;
    }
    r := s[..t];
  }

  /** The copy loop of `csv_gettoken`. */
  method CopyRun(line: string, p: nat, max: nat, stop: char) returns (s: string)
    ensures s == Run(line, p, max, stop)
  {
    s := [];
    var i := p;
    while At(line, i) != '\0' && |s| < max && At(line, i) != stop
      invariant i == p + |s| && |s| <= max
      invariant s + Run(line, i, max - |s|, stop) == Run(line, p, max, stop)
      decreases max - |s|
    {
      s := s + [At(line, i)];
      i := i + 1;
    }
  }

  /** `csv_gettoken`, from position p of the line. */
  method GetToken(line: string, p: nat, max: nat) returns (r: Option<Token>)
    ensures r == TokenAt(line, p, max)
  {
    if At(line, p) == '\0' {
      return None;
    }
    var q := SkipBlanks(line, p);
    if IsSep(At(line, q)) {
      return Some(Token([], q + 1));
    }
    if IsQuote(At(line, q)) {
      var t := CopyRun(line, q + 1, max, '"');
      var e := q + 1 + |t|;
      if IsQuote(At(line, e)) {
        var b := SkipBlanks(line, e + 1);
        if IsSep(At(line, b)) {
          b := b + 1;
        }
        assert b == AfterClose(line, e);
        return Some(Token(t, b));
      }
      return Some(Token(t, if At(line, e) == '\0' then e else e + 1));
    }
    var t := CopyRun(line, q, max, ',');
    var e := q + |t|;
    var text := RmBlankTails(t);
    return Some(Token(text, if IsSep(At(line, e)) then e + 1 else e));
  }

  /** The fields laid out back to back in `mem`, each followed by a NUL. */
  function Packed(fs: seq<string>): string
  {
    if fs == [] then [] else Packed(fs[..|fs| - 1]) + fs[|fs| - 1] + ['\0']
  }

  /** Where each field starts in `mem`: `c->s[i]`. */
  function Starts(fs: seq<string>): (r: seq<nat>)
    ensures |r| == |fs|
  {
    if fs == [] then [] else Starts(fs[..|fs| - 1]) + [|Packed(fs[..|fs| - 1])|]
  }

  /** Reading `mem` from `c->s[i]` up to its NUL gives field i. */
  lemma {:induction false} PackedField(fs: seq<string>, i: nat)
    requires i < |fs| && forall j :: 0 <= j < |fs| ==> NoNul(fs[j])
    ensures Starts(fs)[i] + |fs[i]| < |Packed(fs)|
    ensures Packed(fs)[Starts(fs)[i]..Starts(fs)[i] + |fs[i]|] == fs[i]
    ensures Packed(fs)[Starts(fs)[i] + |fs[i]|] == '\0'
    decreases |fs|
  {
    var init := fs[..|fs| - 1];
    var last := fs[|fs| - 1];
    assert Packed(fs) == Packed(init) + last + ['\0'];
    if i < |fs| - 1 {
      assert fs[i] == init[i];
      PackedField(init, i);
      assert Starts(fs)[i] == Starts(init)[i];
      assert Packed(fs)[..|Packed(init)|] == Packed(init);
    } else {
      var b := |Packed(init)|;
      assert Packed(fs)[b..b + |last|] == last;
    }
  }

  lemma PackedSnoc(fs: seq<string>, f: string)
    ensures Packed(fs + [f]) == Packed(fs) + f + ['\0']
    ensures Starts(fs + [f]) == Starts(fs) + [|Packed(fs)|]
  {
    assert (fs + [f])[..|fs|] == fs;
  }

  /** One turn of the field loop. */
  lemma FieldsStep(line: string, p: nat, max: nat)
    requires NoNul(line) && p <= |line| && max > 0 && TokenAt(line, p, max).Some?
    ensures TokenAt(line, p, max).value.next <= |line|
    ensures FieldsFrom(line, p, max) ==
              [TokenAt(line, p, max).value.text] +
              FieldsFrom(line, Blanks(line, TokenAt(line, p, max).value.next), max)
  {
    TokenProgress(line, p, max);
  }

  /** The token loop of `csv_line_init`: the number of fields, the block
      they are copied into and where each starts. */
  method SplitLine(line: string, max: nat) returns (count: nat, block: string, offsets: seq<nat>)
    requires NoNul(line) && max > 0
    ensures var fs := FieldsFrom(line, Blanks(line, 0), max);
            count == |fs| && block == Packed(fs) && offsets == Starts(fs)
  {
    block := [];
    count := 0;
    offsets := [];
    ghost var fields: seq<string> := [];
    var p := SkipBlanks(line, 0);
    var tok := GetToken(line, p, max);
    while tok.Some?
      invariant p <= |line|
      invariant tok == TokenAt(line, p, max)
      invariant fields + FieldsFrom(line, p, max) == FieldsFrom(line, Blanks(line, 0), max)
      invariant block == Packed(fields) && offsets == Starts(fields) && count == |fields|
      decreases |line| - p
    {
      var t := tok.value;
      ghost var q := Blanks(line, t.next);
      assert p < t.next <= |line| && FieldsFrom(line, p, max) == [t.text] + FieldsFrom(line, q, max) by {
        FieldsStep(line, p, max);
        TokenProgress(line, p, max);
      }
      assert (fields + [t.text]) + FieldsFrom(line, q, max) == FieldsFrom(line, Blanks(line, 0), max);
      assert Packed(fields + [t.text]) == block + t.text + ['\0'] &&
             Starts(fields + [t.text]) == offsets + [|block|] by {
        PackedSnoc(fields, t.text);
      }
      offsets := offsets + [|block|];
      count := count + 1;
      block := block + t.text + ['\0'];
      fields := fields + [t.text];
      p := SkipBlanks(line, t.next);
      tok := GetToken(line, p, max);
    }
    assert FieldsFrom(line, p, max) == [];
    assert fields == FieldsFrom(line, Blanks(line, 0), max);
  }

  /** `csv_line_t`: the field count, the block the fields are copied into
      (None while no block is held) and where each field starts in it. */
  class CsvLine {
    var n: nat
    var mem: Option<string>
    var starts: seq<nat>

    constructor ()
      ensures n == 0 && mem == None && starts == []
    {
      n := 0;
      mem := None;
      starts := [];
    }

    /** `csv_line_init`; `allocates` says whether the 4096-byte block can be
        had. */
    method Init(line: string, allocates: bool) returns (ok: bool)
      requires NoNul(line)
      modifies this
      ensures ok == allocates
      ensures !ok ==> n == 0 && mem == None && starts == []
      ensures ok ==> n == |Fields(line)| && mem == Some(Packed(Fields(line))) &&
                     starts == Starts(Fields(line))
    {
      n := 0;
      starts := [];
      mem := None;
      ok := allocates;
      if ok {
        var count, block, offsets := SplitLine(line, MaxSizeToken);
        n, starts, mem := count, offsets, Some(block);
      }
    }

    /** `csv_line_done`. */
    method Done()
      modifies this
      ensures n == 0 && mem == None && starts == []
    {
      mem := None;
      n := 0;
      starts := [];
    }
  }
}
