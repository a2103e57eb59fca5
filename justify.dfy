/** Word-wrapped printing of help text: `fprint_justified` writes a C string
    in lines of at most `hor` columns, indenting the first line by
    `blankheader` and every line it breaks by `margin` spaces. The stream is
    modelled as the string written to it. */
module Justify {
  import opened CText

  /** `iswordbreak`: the terminator or a blank. */
  predicate WordBreak(c: char)
  {
    c == '\0' || IsSpace(c)
  }

  /** What `carriage(f, m)` writes: m spaces, none when m <= 0. */
  function Spaces(m: int): (s: string)
    ensures |s| == Max(m, 0) && forall k :: 0 <= k < |s| ==> s[k] == ' '
  {
    seq(Max(m, 0), _ => ' ')
  }

  /** The non-blank characters of s, in order. */
  function NonBlank(s: string): string
  {
    if s == [] then [] else NonBlank(s[..|s| - 1]) + (if IsSpace(s[|s| - 1]) then [] else [s[|s| - 1]])
  }

  lemma {:induction false} NonBlankAppend(a: string, b: string)
    ensures NonBlank(a + b) == NonBlank(a) + NonBlank(b)
    decreases |b|
  {
    if b != [] {
      var init := b[..|b| - 1];
      assert (a + b)[..|a + b| - 1] == a + init;
      NonBlankAppend(a, init);
    } else {
      assert a + b == a;
    }
  }

  /** A string of blanks has no non-blank character. */
  lemma {:induction false} NonBlankOfBlanks(s: string)
    requires forall k :: 0 <= k < |s| ==> IsSpace(s[k])
    ensures NonBlank(s) == []
    decreases |s|
  {
    if s != [] {
      NonBlankOfBlanks(s[..|s| - 1]);
    }
  }

  /** What the routine writes, piece by piece: a stretch of a word, one
      blank (' ' or '\n'), or a line break it inserts. */
  datatype Piece = Text(s: string) | Blank(c: char) | Break

  /** The columns a piece takes on its line. */
  function Width(x: Piece): nat
  {
    match x
    case Text(s) => |s|
    case Blank(_) => 1
    case Break => 0
  }

  /** The characters written for one piece. */
  function Show(x: Piece, margin: int): string
  {
    match x
    case Text(s) => s
    case Blank(c) => [c]
    case Break => "\n" + Spaces(margin)
  }

  /** The characters written for the pieces. */
  function Render(ps: seq<Piece>, margin: int): string
  {
    if ps == [] then [] else Render(ps[..|ps| - 1], margin) + Show(ps[|ps| - 1], margin)
  }

  /** Every blank written is a space or a newline. */
  predicate PlainBlanks(ps: seq<Piece>)
  {
    forall k :: 0 <= k < |ps| && ps[k].Blank? ==> ps[k].c in {' ', '\n'}
  }

  lemma RenderSnoc(ps: seq<Piece>, x: Piece, margin: int)
    ensures Render(ps + [x], margin) == Render(ps, margin) + Show(x, margin)
  {
    assert (ps + [x])[..|ps|] == ps;
  }

  lemma LineWidthSnoc(ps: seq<Piece>, x: Piece)
    ensures LineWidth(ps + [x]) == if x.Break? then 0 else LineWidth(ps) + Width(x)
  {
    assert (ps + [x])[..|ps|] == ps;
  }

  /** Every line still fits when the new current one does. */
  lemma FitsSnoc(ps: seq<Piece>, x: Piece, hor: int)
    requires Fits(ps, hor) && LineWidth(ps + [x]) <= hor
    ensures Fits(ps + [x], hor)
  {
    assert (ps + [x])[..|ps|] == ps;
  }

  lemma PlainBlanksSnoc(ps: seq<Piece>, x: Piece)
    requires PlainBlanks(ps) && (x.Blank? ==> x.c in {' ', '\n'})
    ensures PlainBlanks(ps + [x])
  {
  }

  /** The columns used on the current line: everything since the last
      inserted break. */
  function LineWidth(ps: seq<Piece>): nat
  {
    if ps == [] then 0
    else if ps[|ps| - 1].Break? then 0
    else LineWidth(ps[..|ps| - 1]) + Width(ps[|ps| - 1])
  }

  /** No line, the current one included, is ever wider than hor. */
  predicate Fits(ps: seq<Piece>, hor: int)
  {
    LineWidth(ps) <= hor && (ps == [] || Fits(ps[..|ps| - 1], hor))
  }

  /** `goto_nextstop(p, rem)` at offset i: the first word break among the
      next rem characters, or i + rem. */
  method GotoNextStop(p: string, i: nat, rem: nat) returns (q: nat)
    requires NoNul(p) && i <= |p|
    ensures i <= q <= i + rem && q <= |p|
    ensures forall j :: i <= j < q ==> !WordBreak(p[j])
    ensures q < i + rem ==> WordBreak(At(p, q))
  {
    q := i;
    while q < i + rem && !WordBreak(At(p, q))
      invariant i <= q <= i + rem && q <= |p|
      invariant forall j :: i <= j < q ==> !WordBreak(p[j])
    {
      q := q + 1;
    }
  }

  /** `print_stretch(f, sta, end)`: the characters from sta up to end or
      the terminator, whichever comes first, and where it stopped. */
  method PrintStretch(p: string, sta: nat, end: nat) returns (written: string, stop: nat)
    requires NoNul(p) && sta <= end && sta <= |p|
    ensures stop == Min(end, |p|) && written == p[sta..stop]
  {
    written := [];
    stop := sta;
    while At(p, stop) != '\0' && stop < end
      invariant sta <= stop <= Min(end, |p|)
      invariant written == p[sta..stop]
      decreases end - stop
    {
      written := written + [p[stop]];
      stop := stop + 1;
    }
  }

  /** `fit_horizontally(p, HOR)` at offset i: is there a word break among
      the next HOR + 1 characters? */
  method FitHorizontally(p: string, i: nat, hor: nat) returns (found: bool)
    requires NoNul(p) && i <= |p|
    ensures found <==> exists j :: i <= j <= i + hor && WordBreak(At(p, j))
  {
    found := false;
    var k := 0;
    while !found && k < hor + 1
      invariant 0 <= k <= hor + 1
      invariant !found ==> forall j :: i <= j < i + k ==> !WordBreak(At(p, j))
      invariant found ==> 0 < k && WordBreak(At(p, i + k - 1))
    {
      found := WordBreak(At(p, i + k));
      k := k + 1;
    }
  }

  /** `carriage(f, m)`. */
  method Carriage(m: int) returns (s: string)
    ensures s == Spaces(m)
  {
    s := [];
    var n := m;
    while n > 0
      invariant s == Spaces(m - Max(n, 0))
      invariant n <= Max(m, 0)
    {
      s := s + " ";
      n := n - 1;
    }
  }

  /** `carriage_return(f, m)`. */
  method CarriageReturn(m: int) returns (s: string)
    ensures s == "\n" + Spaces(m)
  {
    var c := Carriage(m);
    s := "\n" + c;
  }

  /** Where the word at p[i] ends: the first blank at or after i, or the
      end of the text. */
  function WordEnd(p: string, i: nat): (e: nat)
    requires i <= |p|
    ensures i <= e <= |p| && (e == |p| || IsSpace(p[e]))
    ensures forall k :: i <= k < e ==> !IsSpace(p[k])
    decreases |p| - i
  {
    if i == |p| || IsSpace(p[i]) then i else WordEnd(p, i + 1)
  }

  /** In a C string, the word breaks from i on are the blanks and the
      terminator: none before the word's end, and one at it. */
  lemma WordEndBreaks(p: string, i: nat)
    requires NoNul(p) && i <= |p|
    ensures forall k :: i <= k < WordEnd(p, i) ==> !WordBreak(At(p, k))
    ensures WordBreak(At(p, WordEnd(p, i)))
  {
  }

  /** The character written for a blank of the input. */
  function Plain(c: char): char
  {
    if c == '\n' then '\n' else ' '
  }

  /** What one round of the loop does: where the input and the room left
      stand afterwards, and the pieces it writes. */
  datatype Turn = Turn(next: nat, room: nat, written: seq<Piece>)

  /** One round at p[i] with rem of hor columns left. */
  function Step(p: string, i: nat, rem: nat, hor: nat): (t: Turn)
    requires i < |p| && rem <= hor && 0 < hor
    ensures t.next <= |p| && t.room <= hor
    ensures i < t.next || (t.next == i && rem != hor && t.room == hor)
  {
    if IsSpace(p[i]) && rem == hor then Turn(i + 1, rem, [])
    else if IsSpace(p[i]) && rem > 0 then Turn(i + 1, rem - 1, [Blank(Plain(p[i]))])
    else if rem == 0 then Turn(i, hor, [Break])
    else
      var e := WordEnd(p, i);
      if e - i <= rem then Turn(e, rem - (e - i), [Text(p[i..e])])
      else if e - i <= hor then Turn(i, hor, [Break])
      else Turn(i + rem, hor, [Text(p[i..i + rem]), Break])
  }

  /** The pieces the loop writes from p[i] on, with rem columns left. */
  function Layout(p: string, i: nat, rem: nat, hor: nat): seq<Piece>
    requires i <= |p| && rem <= hor && 0 < hor
    decreases |p| - i, if rem == hor then 0 else 1
  {
    if i == |p| then []
    else
      var t := Step(p, i, rem, hor);
      t.written + Layout(p, t.next, t.room, hor)
  }

  /** No blank is written at the start of a line: before every blank piece
      the current line already holds something. */
  predicate TextBeforeBlanks(ps: seq<Piece>)
  {
    forall k :: 0 <= k < |ps| && ps[k].Blank? ==> LineWidth(ps[..k]) > 0
  }

  /** Appending pieces of which only the first may be a blank, and that
      one only when the line holds something, keeps blanks off line starts. */
  lemma BlanksAfterText(ps: seq<Piece>, w: seq<Piece>)
    requires TextBeforeBlanks(ps)
    requires forall k :: 0 <= k < |w| && w[k].Blank? ==> k == 0 && LineWidth(ps) > 0
    ensures TextBeforeBlanks(ps + w)
  {
    forall k | 0 <= k < |ps + w| && (ps + w)[k].Blank?
      ensures LineWidth((ps + w)[..k]) > 0
    {
      if k < |ps| {
        assert (ps + w)[..k] == ps[..k];
      } else {
        assert (ps + w)[..k] == ps;
      }
    }
  }

  /** The strings of the text pieces, in order. */
  function Texts(ps: seq<Piece>): seq<string>
  {
    if ps == [] then [] else (if ps[0].Text? then [ps[0].s] else []) + Texts(ps[1..])
  }

  lemma {:induction false} TextsAppend(a: seq<Piece>, b: seq<Piece>)
    ensures Texts(a + b) == Texts(a) + Texts(b)
    decreases |a|
  {
    if a != [] {
      assert (a + b)[1..] == a[1..] + b;
      TextsAppend(a[1..], b);
    } else {
      assert a + b == b;
    }
  }

  /** The words of p from i on: the maximal runs of non-blank characters
      (the first one starting at i when p[i] is not a blank). */
  function Words(p: string, i: nat): seq<string>
    requires i <= |p|
    decreases |p| - i
  {
    if i == |p| then []
    else if IsSpace(p[i]) then Words(p, i + 1)
    else [p[i..WordEnd(p, i)]] + Words(p, WordEnd(p, i))
  }

  /** When no word is longer than hor, every word is written as one piece:
      the text pieces are exactly the words, so no word is split. */
  lemma {:induction false} WordsWhole(p: string, i: nat, rem: nat, hor: nat)
    requires i <= |p| && rem <= hor && 0 < hor
    requires forall k :: i <= k < |p| ==> WordEnd(p, k) - k <= hor
    ensures Texts(Layout(p, i, rem, hor)) == Words(p, i)
    decreases |p| - i, if rem == hor then 0 else 1
  {
    if i < |p| {
      var t := Step(p, i, rem, hor);
      WordsWhole(p, t.next, t.room, hor);
      TextsAppend(t.written, Layout(p, t.next, t.room, hor));
      if !IsSpace(p[i]) && rem > 0 && WordEnd(p, i) - i <= rem {
        assert Texts(t.written) == [p[i..WordEnd(p, i)]];
      }
    }
  }

  /** The whole text: words no longer than the line are never split. */
  lemma ShortWordsNeverSplit(p: string, hor: nat)
    requires 0 < hor
    requires forall k :: 0 <= k < |p| ==> WordEnd(p, k) - k <= hor
    ensures Texts(Layout(p, 0, hor, hor)) == Words(p, 0)
  {
    WordsWhole(p, 0, hor, hor);
  }

  /** s with each blank as the loop writes it. */
  function Plained(s: string): (r: string)
    ensures |r| == |s|
  {
    if s == [] then [] else [if IsSpace(s[0]) then Plain(s[0]) else s[0]] + Plained(s[1..])
  }

  lemma {:induction false} PlainedOfWord(s: string)
    requires forall k :: 0 <= k < |s| ==> !IsSpace(s[k])
    ensures Plained(s) == s
    decreases |s|
  {
    if s != [] {
      PlainedOfWord(s[1..]);
    }
  }

  lemma {:induction false} PlainedSplit(s: string, i: nat, k: nat)
    requires i <= k <= |s|
    ensures Plained(s[i..]) == Plained(s[i..k]) + Plained(s[k..])
    decreases k - i
  {
    if i < k {
      assert s[i..][1..] == s[i + 1..];
      assert s[i..k][1..] == s[i + 1..k];
      PlainedSplit(s, i + 1, k);
    } else {
      assert s[i..k] == [];
    }
  }

  lemma RenderOne(x: Piece, margin: int)
    ensures Render([x], margin) == Show(x, margin)
  {
    RenderSnoc([], x, margin);
    assert [] + [x] == [x];
  }

  lemma {:induction false} RenderAppend(a: seq<Piece>, b: seq<Piece>, margin: int)
    ensures Render(a + b, margin) == Render(a, margin) + Render(b, margin)
    decreases |b|
  {
    if b != [] {
      var init := b[..|b| - 1];
      assert (a + b)[..|a + b| - 1] == a + init;
      RenderAppend(a, init, margin);
    } else {
      assert a + b == a;
    }
  }

  /** One round on a line with i columns used, when the whole text fits the
      line: it writes p[i..t.next] as `Plained` does, and the room shrinks by
      what it wrote. */
  lemma StepOnOneLine(p: string, i: nat, hor: nat, margin: int)
    requires i < |p| <= hor && 0 < hor
    requires i == 0 ==> !IsSpace(p[0])
    ensures var t := Step(p, i, hor - i, hor);
      i < t.next && t.room == hor - t.next && Render(t.written, margin) == Plained(p[i..t.next])
  {
    var e := WordEnd(p, i);
    if IsSpace(p[i]) {
      assert 0 < hor - i < hor;
      assert Step(p, i, hor - i, hor) == Turn(i + 1, hor - (i + 1), [Blank(Plain(p[i]))]);
      RenderOne(Blank(Plain(p[i])), margin);
      assert Plained(p[i..i + 1]) == [Plain(p[i])];
    } else {
      assert e - i <= hor - i;
      assert Step(p, i, hor - i, hor) == Turn(e, hor - e, [Text(p[i..e])]);
      RenderOne(Text(p[i..e]), margin);
      PlainedOfWord(p[i..e]);
    }
  }

  /** From p[i] on, on a line with i columns used and rem left. */
  lemma {:induction false} OneLineFrom(p: string, i: nat, rem: nat, hor: nat, margin: int)
    requires i <= |p| <= hor && 0 < hor && rem == hor - i
    requires i == 0 && i < |p| ==> !IsSpace(p[0])
    ensures Render(Layout(p, i, rem, hor), margin) == Plained(p[i..])
    decreases |p| - i
  {
    if i == |p| {
      assert p[i..] == [];
    } else {
      var t := Step(p, i, rem, hor);
      StepOnOneLine(p, i, hor, margin);
      var rest := Layout(p, t.next, t.room, hor);
      assert Layout(p, i, rem, hor) == t.written + rest;
      OneLineFrom(p, t.next, t.room, hor, margin);
      RenderAppend(t.written, rest, margin);
      PlainedSplit(p, i, t.next);
    }
  }

  /** A text that fits on one line and does not start with a blank is
      written as it is, each blank as ' ' or '\n': no blank after the first
      word is dropped and no line is broken. */
  lemma OneLine(p: string, hor: nat, margin: int)
    requires 0 < hor && |p| <= hor && (p != [] ==> !IsSpace(p[0]))
    ensures Render(Layout(p, 0, hor, hor), margin) == Plained(p)
  {
    OneLineFrom(p, 0, hor, hor, margin);
    assert p[0..] == p;
  }

  /** What holds after each round of the main loop: the text so far is the
      header and the pieces, rem columns are left on a line that fits, and
      the non-blank text written is that of the input consumed. */
  predicate Written(p: string, blankheader: int, margin: int, hor: int,
                    i: nat, rem: int, out: string, pieces: seq<Piece>)
  {
    i <= |p| && 0 <= rem <= hor
    && out == Spaces(blankheader) + Render(pieces, margin)
    && Fits(pieces, hor) && PlainBlanks(pieces) && LineWidth(pieces) + rem == hor
    && NonBlank(out) == NonBlank(p[..i])
  }

  /** Writing one more piece while consuming the input up to i2 keeps the
      loop's account. */
  lemma Emit(p: string, blankheader: int, margin: int, hor: int, i: nat, rem: int,
             out: string, pieces: seq<Piece>, x: Piece, i2: nat, rem2: int)
    requires Written(p, blankheader, margin, hor, i, rem, out, pieces)
    requires x.Blank? ==> x.c in {' ', '\n'}
    requires i2 <= |p| && NonBlank(p[..i2]) == NonBlank(p[..i]) + NonBlank(Show(x, margin))
    requires rem2 == (if x.Break? then hor else rem - Width(x)) && 0 <= rem2
    ensures Written(p, blankheader, margin, hor, i2, rem2, out + Show(x, margin), pieces + [x])
  {
    EmitOut(blankheader, margin, out, pieces, x);
    EmitLine(hor, rem, pieces, x, rem2);
    PlainBlanksSnoc(pieces, x);
    NonBlankAppend(out, Show(x, margin));
  }

  /** The text written stays the header followed by the pieces. */
  lemma EmitOut(blankheader: int, margin: int, out: string, pieces: seq<Piece>, x: Piece)
    requires out == Spaces(blankheader) + Render(pieces, margin)
    ensures out + Show(x, margin) == Spaces(blankheader) + Render(pieces + [x], margin)
  {
    RenderSnoc(pieces, x, margin);
    ConcatAssoc(Spaces(blankheader), Render(pieces, margin), Show(x, margin));
  }

  /** The lines keep fitting and the room left is accounted for. */
  lemma EmitLine(hor: int, rem: int, pieces: seq<Piece>, x: Piece, rem2: int)
    requires Fits(pieces, hor) && LineWidth(pieces) + rem == hor
    requires rem2 == (if x.Break? then hor else rem - Width(x)) && 0 <= rem2
    ensures Fits(pieces + [x], hor) && LineWidth(pieces + [x]) + rem2 == hor
  {
    LineWidthSnoc(pieces, x);
    FitsSnoc(pieces, x, hor);
  }

  /** A break writes no non-blank character. */
  lemma BreakIsBlank(margin: int)
    ensures NonBlank(Show(Break, margin)) == []
  {
    NonBlankOfBlanks("\n" + Spaces(margin));
  }

  /** A blank piece writes no non-blank character. */
  lemma BlankIsBlank(c: char, margin: int)
    requires c in {' ', '\n'}
    ensures NonBlank(Show(Blank(c), margin)) == []
  {
    NonBlankOfBlanks([c]);
  }

  /** `fprint_justified(f, p, blankheader, margin, hor)`: the written text
      is blankheader spaces followed by the pieces `Layout` gives for p; no
      line is wider than hor; every blank written is ' ' or '\n' and none
      starts a line; and the non-blank characters are exactly those of p,
      in order. */
  method FprintJustified(p: string, blankheader: int, margin: int, hor: int)
    returns (out: string, ghost pieces: seq<Piece>)
    requires NoNul(p) && margin >= 0 && hor > 0
    ensures pieces == Layout(p, 0, hor, hor)
    ensures out == Spaces(blankheader) + Render(pieces, margin)
    ensures Fits(pieces, hor) && PlainBlanks(pieces) && TextBeforeBlanks(pieces)
    ensures NonBlank(out) == NonBlank(p)
  {
    var rem: int := hor;
    out := Carriage(blankheader);
    pieces := [];
    NonBlankOfBlanks(out);
    var i := 0;
    while i < |p|
      invariant Written(p, blankheader, margin, hor, i, rem, out, pieces)
      invariant pieces + Layout(p, i, rem, hor) == Layout(p, 0, hor, hor)
      invariant TextBeforeBlanks(pieces)
      decreases |p| - i, if rem == hor then 0 else 1
    {
      ghost var i0, rem0, pieces0 := i, rem, pieces;
      ghost var t := Step(p, i, rem, hor);
      i, rem, out, pieces := Round(p, blankheader, margin, hor, i, rem, out, pieces);
      assert Layout(p, i0, rem0, hor) == t.written + Layout(p, i, rem, hor);
      ConcatAssoc(pieces0, t.written, Layout(p, i, rem, hor));
      StepBlanks(p, i0, rem0, hor);
      BlanksAfterText(pieces0, t.written);
    }
    assert pieces + [] == pieces;
    assert p[..|p|] == p;
  }

  /** A round writes a blank only as its one piece, and only on a line
      that already holds something. */
  lemma StepBlanks(p: string, i: nat, rem: nat, hor: nat)
    requires i < |p| && rem <= hor && 0 < hor
    ensures var w := Step(p, i, rem, hor).written;
      forall k :: 0 <= k < |w| && w[k].Blank? ==> k == 0 && rem < hor
  {
  }

  /** One round of the main loop of `fprint_justified`, at p[i] with rem
      columns left: skip a blank at the start of a line, write any other
      blank, break a full line, or write (part of) the next word. Each round
      consumes input, or starts a new line without consuming any. */
  method Round(p: string, blankheader: int, margin: int, hor: int, i: nat, rem: int,
               out: string, ghost pieces: seq<Piece>)
    returns (i2: nat, rem2: int, out2: string, ghost pieces2: seq<Piece>)
    requires NoNul(p) && margin >= 0 && hor > 0 && i < |p|
    requires Written(p, blankheader, margin, hor, i, rem, out, pieces)
    ensures Written(p, blankheader, margin, hor, i2, rem2, out2, pieces2)
    ensures i < i2 || (i2 == i && rem != hor && rem2 == hor)
    ensures IsSpace(p[i]) && rem == hor ==>
      i2 == i + 1 && rem2 == rem && out2 == out && pieces2 == pieces
    ensures IsSpace(p[i]) && 0 < rem < hor ==>
      i2 == i + 1 && rem2 == rem - 1 && out2 == out + [Plain(p[i])]
      && pieces2 == pieces + [Blank(Plain(p[i]))]
    ensures rem == 0 ==>
      i2 == i && rem2 == hor && out2 == out + "\n" + Spaces(margin) && pieces2 == pieces + [Break]
    ensures var t := Step(p, i, rem, hor);
      i2 == t.next && rem2 == t.room && pieces2 == pieces + t.written
  {
    if rem == hor && IsSpace(p[i]) {
      Skip(p, i);
      assert Step(p, i, rem, hor) == Turn(i + 1, rem, []);
      assert pieces + [] == pieces;
      return i + 1, rem, out, pieces;
    } else if rem > 0 && IsSpace(p[i]) {
      i2, rem2, out2, pieces2 := WriteBlank(p, blankheader, margin, hor, i, rem, out, pieces);
      assert Step(p, i, rem, hor) == Turn(i + 1, rem - 1, [Blank(Plain(p[i]))]);
    } else if rem == 0 {
      i2, rem2, out2, pieces2 := NewLine(p, blankheader, margin, hor, i, rem, out, pieces);
      assert Step(p, i, rem, hor) == Turn(i, hor, [Break]);
    } else {
      i2, rem2, out2, pieces2 := WordRound(p, blankheader, margin, hor, i, rem, out, pieces);
      StepOfWord(p, i, rem, hor);
    }
  }

  /** A blank of the input after the start of a line: write it as ' ', or
      as '\n' when it is one. */
  method WriteBlank(p: string, blankheader: int, margin: int, hor: int, i: nat, rem: int,
                    out: string, ghost pieces: seq<Piece>)
    returns (i2: nat, rem2: int, out2: string, ghost pieces2: seq<Piece>)
    requires i < |p| && IsSpace(p[i]) && 0 < rem
    requires Written(p, blankheader, margin, hor, i, rem, out, pieces)
    ensures Written(p, blankheader, margin, hor, i2, rem2, out2, pieces2)
    ensures i2 == i + 1 && rem2 == rem - 1
    ensures out2 == out + [Plain(p[i])] && pieces2 == pieces + [Blank(Plain(p[i]))]
  {
    var c := if p[i] == '\n' then '\n' else ' ';
    Skip(p, i);
    BlankIsBlank(c, margin);
    Emit(p, blankheader, margin, hor, i, rem, out, pieces, Blank(c), i + 1, rem - 1);
    return i + 1, rem - 1, out + [c], pieces + [Blank(c)];
  }

  /** The round at a word character with room left, by the length of the word. */
  lemma StepOfWord(p: string, i: nat, rem: nat, hor: nat)
    requires i < |p| && 0 < rem <= hor && !IsSpace(p[i])
    ensures var e := WordEnd(p, i);
      Step(p, i, rem, hor) ==
        if e - i <= rem then Turn(e, rem - (e - i), [Text(p[i..e])])
        else if e - i <= hor then Turn(i, hor, [Break])
        else Turn(i + rem, hor, [Text(p[i..i + rem]), Break])
  {
  }

  /** The round at a word character with room left on the line: a word
      that ends within the room is written whole; one that does not fit
      the room but fits a line moves to a new line; a longer one is cut at
      the end of the line. */
  method WordRound(p: string, blankheader: int, margin: int, hor: int, i: nat, rem: int,
                   out: string, ghost pieces: seq<Piece>)
    returns (i2: nat, rem2: int, out2: string, ghost pieces2: seq<Piece>)
    requires NoNul(p) && margin >= 0 && hor > 0 && i < |p| && 0 < rem && !IsSpace(p[i])
    requires Written(p, blankheader, margin, hor, i, rem, out, pieces)
    ensures Written(p, blankheader, margin, hor, i2, rem2, out2, pieces2)
    ensures i < i2 || (i2 == i && rem != hor && rem2 == hor)
    ensures WordEnd(p, i) - i <= rem ==>
      i2 == WordEnd(p, i) && rem2 == rem - (i2 - i) && out2 == out + p[i..i2]
      && pieces2 == pieces + [Text(p[i..i2])]
    ensures rem < WordEnd(p, i) - i <= hor ==>
      i2 == i && rem2 == hor && out2 == out + "\n" + Spaces(margin) && pieces2 == pieces + [Break]
    ensures hor < WordEnd(p, i) - i ==>
      i2 == i + rem && rem2 == hor && out2 == out + p[i..i + rem] + "\n" + Spaces(margin)
      && pieces2 == pieces + [Text(p[i..i + rem]), Break]
  {
    var q := GotoNextStop(p, i, rem);
    WordEndBreaks(p, i);
    ghost var e := WordEnd(p, i);
    assert q <= e;
    if WordBreak(At(p, q)) {
      assert q == e;
      i2, rem2, out2, pieces2 := WholeWord(p, blankheader, margin, hor, i, rem, out, pieces, q);
      return;
    }
    assert q == i + rem && q < e;
    var fit := FitHorizontally(p, i, hor);
    assert fit <==> e <= i + hor by {
      if fit {
        var j :| i <= j <= i + hor && WordBreak(At(p, j));
        assert e <= j;
      }
    }
    if fit {
      i2, rem2, out2, pieces2 := NewLine(p, blankheader, margin, hor, i, rem, out, pieces);
    } else {
      i2, rem2, out2, pieces2 := CutWord(p, blankheader, margin, hor, i, rem, out, pieces);
    }
  }

  /** The word p[i..q) ends within the room: write it. */
  method WholeWord(p: string, blankheader: int, margin: int, hor: int, i: nat, rem: int,
                   out: string, ghost pieces: seq<Piece>, q: nat)
    returns (i2: nat, rem2: int, out2: string, ghost pieces2: seq<Piece>)
    requires NoNul(p) && i < q <= i + rem && q <= |p|
    requires Written(p, blankheader, margin, hor, i, rem, out, pieces)
    ensures Written(p, blankheader, margin, hor, i2, rem2, out2, pieces2)
    ensures i2 == q && rem2 == rem - (q - i)
    ensures out2 == out + p[i..q] && pieces2 == pieces + [Text(p[i..q])]
  {
    var x, stop := PrintStretch(p, i, q);
    Consume(p, i, q);
    Emit(p, blankheader, margin, hor, i, rem, out, pieces, Text(x), q, rem - (q - i));
    return stop, rem - (q - i), out + x, pieces + [Text(x)];
  }

  /** Start a new line without consuming input. */
  method NewLine(p: string, blankheader: int, margin: int, hor: int, i: nat, rem: int,
                 out: string, ghost pieces: seq<Piece>)
    returns (i2: nat, rem2: int, out2: string, ghost pieces2: seq<Piece>)
    requires Written(p, blankheader, margin, hor, i, rem, out, pieces)
    ensures Written(p, blankheader, margin, hor, i2, rem2, out2, pieces2)
    ensures i2 == i && rem2 == hor
    ensures out2 == out + "\n" + Spaces(margin) && pieces2 == pieces + [Break]
  {
    var nl := CarriageReturn(margin);
    BreakIsBlank(margin);
    Emit(p, blankheader, margin, hor, i, rem, out, pieces, Break, i, hor);
    return i, hor, out + nl, pieces + [Break];
  }

  /** The word is longer than a line: write the rem characters that still
      fit, then break the line. */
  method CutWord(p: string, blankheader: int, margin: int, hor: int, i: nat, rem: int,
                 out: string, ghost pieces: seq<Piece>)
    returns (i2: nat, rem2: int, out2: string, ghost pieces2: seq<Piece>)
    requires NoNul(p) && 0 < rem && i + rem <= |p|
    requires Written(p, blankheader, margin, hor, i, rem, out, pieces)
    ensures Written(p, blankheader, margin, hor, i2, rem2, out2, pieces2)
    ensures i2 == i + rem && rem2 == hor
    ensures out2 == out + p[i..i + rem] + "\n" + Spaces(margin)
    ensures pieces2 == pieces + [Text(p[i..i + rem]), Break]
  {
    ghost var w := p[i..i + rem];
    var i1, rem1, out1, pieces1 := WholeWord(p, blankheader, margin, hor, i, rem, out, pieces, i + rem);
    assert out1 == out + w && pieces1 == pieces + [Text(w)];
    i2, rem2, out2, pieces2 := NewLine(p, blankheader, margin, hor, i1, rem1, out1, pieces1);
    assert out2 == out1 + "\n" + Spaces(margin) && pieces2 == pieces1 + [Break];
    SnocTwo(pieces, Text(w), Break);
  }

  lemma SnocTwo<T>(s: seq<T>, x: T, y: T)
    ensures s + [x] + [y] == s + [x, y]
  {
  }

  /** Skipping a blank of the input keeps the non-blank text read so far. */
  lemma Skip(p: string, i: nat)
    requires i < |p| && IsSpace(p[i])
    ensures NonBlank(p[..i + 1]) == NonBlank(p[..i])
  {
    assert p[..i + 1][..i] == p[..i];
  }

  /** Consuming p[i..q] adds its non-blank characters. */
  lemma Consume(p: string, i: nat, q: nat)
    requires i <= q <= |p|
    ensures NonBlank(p[..q]) == NonBlank(p[..i]) + NonBlank(p[i..q])
  {
    assert p[..q] == p[..i] + p[i..q];
    NonBlankAppend(p[..i], p[i..q]);
  }
}
