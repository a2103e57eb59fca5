/** The set of relative priors (`struct rel_prior_set`): priors on the
    rating difference of two named players, read from a CSV file whose
    lines are "name_a, name_b, delta, sigma". */
module RelPriors {
  import opened CText
  import opened Csv
  import opened Plyrs

  /** Why `relpriors_load` ends the program. */
  datatype ExitReason = NoFile | NoLineMemory | BadLine | SigmaTooSmall | TooManyPriors | NamesNotMatched

  /** What an input line amounts to once its fields are read. */
  datatype LineKind =
    | BlankLine
    | NoMemory
    | Malformed
    | NegativeSigma
    | TooSmall
    | Unmatched
    | Prior(rp: RelPrior)

  /** The sigma test of `assign_relative_prior`: a negative sigma is
      refused, one below the smallest allowed ends the program, and any
      other goes on to `set_relprior`. */
  function SigmaKind(y: real, smallest: real): LineKind
  {
    if y < 0.0 then NegativeSigma else if y < smallest then TooSmall else Prior(RelPrior(0, 0, 0.0, y))
  }

  /** The sigma that `set_relprior` asserts against, equal to the smallest,
      passes the test of `assign_relative_prior` and then breaks that
      assert. */
  lemma SmallestSigmaReachesAssert(smallest: real)
    requires smallest >= 0.0
    ensures SigmaKind(smallest, smallest).Prior?
    ensures !(smallest > smallest)
  {
  }

  /** The prior a line with names a, b and numbers delta, sigma gives, as
      `assign_relative_prior` and `set_relprior` decide it. */
  function KindOfValues(names: seq<string>, a: string, b: string, delta: real, sigma: real, smallest: real): LineKind
  {
    if sigma < 0.0 then NegativeSigma
    else if sigma < smallest then TooSmall
    else if IndexOf(names, a) == |names| || IndexOf(names, b) == |names| then Unmatched
    else Prior(RelPrior(IndexOf(names, a), IndexOf(names, b), delta, sigma))
  }

  /** A line is blank when `skipblanks` reaches its end. */
  predicate BlankText(line: string)
  {
    Blanks(line, 0) == |line|
  }

  /** The validation of `relpriors_load`: a line that is not blank is split
      by `csv_line_init`, whose block may not be had (`allocates` false);
      then it must have exactly four fields, the third and the fourth
      numbers (as `getnum` reads them, here the parameter `number`). */
  function KindOf(line: string, allocates: bool, names: seq<string>, number: string -> Option<real>, smallest: real): LineKind
    requires NoNul(line)
  {
    if BlankText(line) then BlankLine
    else if !allocates then NoMemory
    else
      var f := Fields(line);
      if |f| != 4 || number(f[2]).None? || number(f[3]).None? then Malformed
      else KindOfValues(names, f[0], f[1], number(f[2]).value, number(f[3]).value, smallest)
  }

  /** The sigma test in KindOfValues is the one of SigmaKind. */
  lemma KindFollowsSigma(names: seq<string>, a: string, b: string, delta: real, sigma: real, smallest: real)
    ensures SigmaKind(sigma, smallest).Prior? <==>
      (KindOfValues(names, a, b, delta, sigma, smallest).Unmatched?
       || KindOfValues(names, a, b, delta, sigma, smallest).Prior?)
    ensures KindOfValues(names, a, b, delta, sigma, smallest).Prior? ==>
      var rp := KindOfValues(names, a, b, delta, sigma, smallest).rp;
      rp.playerA < |names| && names[rp.playerA] == a && rp.playerB < |names| && names[rp.playerB] == b
      && rp.delta == delta && rp.sigma == sigma && rp.sigma >= smallest
  {
  }

  /** The outcome of reading a sequence of lines: the exit, if any, the
      priors added before it, and whether some line was refused. */
  datatype Loaded = Loaded(exit: Option<ExitReason>, added: seq<RelPrior>, failed: bool)

  /** What one line does with room for `room` more priors: a line that
      cannot be split, a malformed line or a sigma below the smallest ends
      the program, and so does a
      prior for which there is no room; a refused line is noted. */
  function Step(k: LineKind, room: int): Loaded
  {
    match k
    case BlankLine => Loaded(None, [], false)
    case NoMemory => Loaded(Some(NoLineMemory), [], false)
    case Malformed => Loaded(Some(BadLine), [], false)
    case TooSmall => Loaded(Some(SigmaTooSmall), [], false)
    case NegativeSigma => Loaded(None, [], true)
    case Unmatched => Loaded(None, [], true)
    case Prior(p) => if room <= 0 then Loaded(Some(TooManyPriors), [], false) else Loaded(None, [p], false)
  }

  /** The lines in order, up to the first that ends the program. */
  function Scan(kinds: seq<LineKind>, room: int): Loaded
    decreases |kinds|
  {
    if kinds == [] then Loaded(None, [], false)
    else
      var l := Step(kinds[0], room);
      if l.exit.Some? then l else Prepend(l.added, l.failed, Scan(kinds[1..], room - |l.added|))
  }

  /** The priors among the kinds, in order. */
  function PriorsIn(kinds: seq<LineKind>): seq<RelPrior>
  {
    if kinds == [] then []
    else (if kinds[0].Prior? then [kinds[0].rp] else []) + PriorsIn(kinds[1..])
  }

  /** Whether some line was refused. */
  predicate SomeRefused(kinds: seq<LineKind>)
  {
    exists k :: 0 <= k < |kinds| && (kinds[k].NegativeSigma? || kinds[k].Unmatched?)
  }

  /** When the scan runs to the end, every line could be split, none was
      malformed or had too small a sigma, every prior was added in order and fitted, and a line was
      refused exactly when some line had a negative sigma or an unknown
      name. */
  lemma {:induction false} ScanToEnd(kinds: seq<LineKind>, room: int)
    requires Scan(kinds, room).exit.None?
    ensures forall k :: 0 <= k < |kinds| ==> !kinds[k].NoMemory? && !kinds[k].Malformed? && !kinds[k].TooSmall?
    ensures Scan(kinds, room).added == PriorsIn(kinds)
    ensures |PriorsIn(kinds)| <= room || PriorsIn(kinds) == []
    ensures Scan(kinds, room).failed <==> SomeRefused(kinds)
    decreases |kinds|
  {
    if kinds != [] {
      var rest := kinds[1..];
      if kinds[0].Prior? {
        ScanToEnd(rest, room - 1);
      } else {
        ScanToEnd(rest, room);
      }
      assert forall k :: 1 <= k < |kinds| ==> kinds[k] == rest[k - 1];
      if SomeRefused(rest) {
        var k :| 0 <= k < |rest| && (rest[k].NegativeSigma? || rest[k].Unmatched?);
        assert kinds[k + 1] == rest[k];
      }
      if SomeRefused(kinds) && !(kinds[0].NegativeSigma? || kinds[0].Unmatched?) {
        var k :| 0 <= k < |kinds| && (kinds[k].NegativeSigma? || kinds[k].Unmatched?);
        assert rest[k - 1] == kinds[k];
      }
    }
  }

  /** The program's verdict on a scan: the exit of the scan, otherwise
      NamesNotMatched when some line was refused. */
  function Verdict(l: Loaded): Option<ExitReason>
  {
    if l.exit.Some? then l.exit else if l.failed then Some(NamesNotMatched) else None
  }

  /** `prior_success` as written: every line assigns it, so only the last
      non-blank line decides. */
  function LastDecides(kinds: seq<LineKind>): bool
  {
    if kinds == [] then true
    else if kinds[|kinds| - 1].BlankLine? then LastDecides(kinds[..|kinds| - 1])
    else !(kinds[|kinds| - 1].NegativeSigma? || kinds[|kinds| - 1].Unmatched?)
  }

  /** A refused line followed by a well-formed one: as written the load
      ends normally, although a name was not matched. */
  lemma EarlierRefusalForgotten(p: RelPrior)
    ensures LastDecides([Unmatched, Prior(p)])
    ensures SomeRefused([Unmatched, Prior(p)])
    ensures Verdict(Scan([Unmatched, Prior(p)], 1)) == Some(NamesNotMatched)
  {
    var kinds := [Unmatched, Prior(p)];
    assert kinds[0].Unmatched? && kinds[1..] == [Prior(p)];
    assert [Prior(p)][1..] == [];
    assert Scan([Prior(p)], 1) == Loaded(None, [p], false);
    assert Scan(kinds, 1) == Loaded(None, [p], true);
  }

  /** What `set_relprior` reports. */
  datatype SetResult = Added | UnknownA | UnknownB | Full

  /** What `assign_relative_prior` does. */
  datatype AssignResult = Assigned(ok: bool) | AssignExit(reason: ExitReason)

  /** `struct rel_prior_set`: the first n entries of x are the priors. */
  class RelPriorSet {
    var n: nat
    var x: array<RelPrior>

    ghost predicate Valid()
      reads this
    {
      n <= x.Length
    }

    /** `relpriors_copy(r, s)` as `s.CopyFrom(r)`: the first r.n entries and
        the count. */
    method CopyFrom(r: RelPriorSet)
      requires r.Valid() && r.n <= x.Length
      modifies this`n, x
      ensures n == old(r.n) && Valid()
      ensures x[..n] == old(r.x[..r.n])
      ensures x[n..] == old(x[..])[n..]
    {
      CopyPrefix(r.x, x, r.n);
      n := r.n;
    }

    /** `set_relprior`, with the assert on sigma as evidently intended (at
        least the smallest sigma): an unknown first or second name changes
        nothing; otherwise the count grows by one before the capacity test,
        which ends the program when the set was full, and else the prior
        of the two first matching players is appended. */
    method SetRelprior(plyrs: Players, a: string, b: string, delta: real, sigma: real,
                       maxRelpriors: nat, smallest: real) returns (res: SetResult)
      requires Valid() && plyrs.Valid() && maxRelpriors <= x.Length && sigma >= smallest
      modifies this`n, x
      ensures var names := plyrs.name[..plyrs.n];
        (res == UnknownA <==> IndexOf(names, a) == |names|)
        && (res == UnknownB <==> IndexOf(names, a) < |names| && IndexOf(names, b) == |names|)
      ensures res == UnknownA || res == UnknownB ==> n == old(n) && x[..] == old(x[..])
      ensures res == Full <==> res != UnknownA && res != UnknownB && old(n) >= maxRelpriors
      ensures res == Full ==> n == old(n) + 1 && x[..] == old(x[..])
      ensures res == Added ==>
        (Valid() && n == old(n) + 1
         && x[..n] == old(x[..n]) + [RelPrior(IndexOf(plyrs.name[..plyrs.n], a), IndexOf(plyrs.name[..plyrs.n], b), delta, sigma)]
         && x[n..] == old(x[..])[n..])
      ensures res == Added && RelPriorsAmong(old(x[..n]), plyrs.n) ==> RelPriorsAmong(x[..n], plyrs.n)
    {
      var foundA, pa := plyrs.Name2Idx(a, 0);
      if !foundA {
        return UnknownA;
      }
      var foundB, pb := plyrs.Name2Idx(b, 0);
      if !foundB {
        return UnknownB;
      }
      var m := n;
      n := n + 1;
      if m >= maxRelpriors {
        return Full;
      }
      ghost var before := x[..];
      x[m] := RelPrior(pa, pb, delta, sigma);
      assert x[..m] == before[..m];
      assert x[..n] == x[..m] + [x[m]];
      assert x[n..] == before[n..];
      return Added;
    }

    /** `assign_relative_prior`: refuses a negative sigma, ends the program
        for one below the smallest, and otherwise sets the prior, reporting
        whether both names were found. */
    method AssignRelativePrior(plyrs: Players, s: string, z: string, delta: real, y: real, quiet: bool,
                               maxRelpriors: nat, smallest: real) returns (res: AssignResult)
      requires Valid() && plyrs.Valid() && maxRelpriors <= x.Length
      modifies this`n, x
      ensures var k := KindOfValues(plyrs.name[..plyrs.n], s, z, delta, y, smallest);
        (k.NegativeSigma? || k.Unmatched? ==> res == Assigned(false) && n == old(n) && x[..] == old(x[..]))
        && (k.TooSmall? ==> res == AssignExit(SigmaTooSmall) && n == old(n) && x[..] == old(x[..]))
        && (k.Prior? && old(n) >= maxRelpriors ==> res == AssignExit(TooManyPriors))
        && (k.Prior? && old(n) < maxRelpriors ==>
              (res == Assigned(true) && Valid() && n == old(n) + 1
               && x[..n] == old(x[..n]) + [k.rp] && x[n..] == old(x[..])[n..]))
      ensures RelPriorsAmong(old(x[..n]), plyrs.n) && res == Assigned(true) ==> RelPriorsAmong(x[..n], plyrs.n)
      ensures res.Assigned? ==> Valid()
    {
      if y < 0.0 {
        res := Assigned(false);
      } else if y < smallest {
        res := AssignExit(SigmaTooSmall);
      } else {
        var suc := SetRelprior(plyrs, s, z, delta, y, maxRelpriors, smallest);
        res := if suc == Full then AssignExit(TooManyPriors) else Assigned(suc == Added);
      }
    }

    /** One line of the loop of `relpriors_load`: a blank line is skipped,
        one that `csv_line_init` cannot split (`allocates` false) or a
        malformed one ends the program, any other is assigned; ok is what
        `assign_relative_prior` returns. */
    method LoadLine(plyrs: Players, line: string, allocates: bool, number: string -> Option<real>,
                    maxRelpriors: nat, smallest: real, quiet: bool) returns (stop: Option<ExitReason>, ok: bool, ghost k: LineKind)
      requires Valid() && plyrs.Valid() && maxRelpriors <= x.Length && NoNul(line)
      modifies this`n, x
      ensures k == KindOf(line, allocates, plyrs.name[..plyrs.n], number, smallest)
      ensures var l := Step(k, maxRelpriors - old(n));
        stop == l.exit && (stop.None? ==> Valid() && ok == !l.failed && x[..n] == old(x[..n]) + l.added)
    {
      k := KindOf(line, allocates, plyrs.name[..plyrs.n], number, smallest);
      if BlankText(line) {
        return None, true, k;
      }
      if !allocates {
        return Some(NoLineMemory), false, k;
      }
      var f := Fields(line);
      if |f| != 4 || number(f[2]).None? || number(f[3]).None? {
        return Some(BadLine), false, k;
      }
      var r := AssignRelativePrior(plyrs, f[0], f[1], number(f[2]).value, number(f[3]).value,
                                   quiet, maxRelpriors, smallest);
      if r.AssignExit? {
        return Some(r.reason), false, k;
      }
      return None, r.ok, k;
    }

    /** `relpriors_load` over the lines of the file (None when it cannot be
        opened), with `getnum` as the parameter `number`, with alloc(j)
        whether `csv_line_init` has its block for line j, and with
        `prior_success` kept false once a line is refused. ks are the kinds
        of the lines read: all of them, unless a line ended the program.
        The program ends as Verdict(Scan(ks, ...)) says, and when it goes on,
        the priors of the lines have been appended in order. */
    method Load(quiet: bool, plyrs: Players, file: Option<seq<string>>, alloc: nat -> bool, number: string -> Option<real>,
                maxRelpriors: nat, smallest: real) returns (exit: Option<ExitReason>, ghost ks: seq<LineKind>)
      requires Valid() && plyrs.Valid() && maxRelpriors <= x.Length
      requires file.Some? ==> forall k :: 0 <= k < |file.value| ==> NoNul(file.value[k])
      modifies this`n, x
      ensures file.None? ==> exit == Some(NoFile) && n == old(n) && x[..] == old(x[..])
      ensures file.Some? ==> |ks| <= |file.value|
      ensures file.Some? ==>
        forall j {:trigger KindOf(file.value[j], alloc(j), plyrs.name[..plyrs.n], number, smallest)} :: 0 <= j < |ks| ==>
          ks[j] == KindOf(file.value[j], alloc(j), plyrs.name[..plyrs.n], number, smallest)
      ensures file.Some? ==>
        var l := Scan(ks, maxRelpriors - old(n));
        (|ks| < |file.value| ==> l.exit.Some?) && exit == Verdict(l)
        && (l.exit.None? ==> Valid() && x[..n] == old(x[..n]) + l.added)
    {
      if file.None? {
        return Some(NoFile), [];
      }
      exit, ks := LoadLines(this, quiet, plyrs, file.value, alloc, plyrs.name[..plyrs.n], number, maxRelpriors, smallest);
    }

  }

  /** The loop of `relpriors_load` over the lines of an opened file: ks
      are the kinds of the lines read, a prefix of the file that is all of
      it unless a line ended the program. */
  method LoadLines(rs: RelPriorSet, quiet: bool, plyrs: Players, lines: seq<string>, alloc: nat -> bool, ghost names: seq<string>,
                   number: string -> Option<real>, maxRelpriors: nat, smallest: real)
    returns (exit: Option<ExitReason>, ghost ks: seq<LineKind>)
    requires rs.Valid() && plyrs.Valid() && maxRelpriors <= rs.x.Length && names == plyrs.name[..plyrs.n]
    requires forall k :: 0 <= k < |lines| ==> NoNul(lines[k])
    modifies rs`n, rs.x
    ensures |ks| <= |lines|
    ensures forall j {:trigger KindOf(lines[j], alloc(j), names, number, smallest)} :: 0 <= j < |ks| ==>
      ks[j] == KindOf(lines[j], alloc(j), names, number, smallest)
    ensures var l := Scan(ks, maxRelpriors - old(rs.n));
      (|ks| < |lines| ==> l.exit.Some?) && exit == Verdict(l)
      && (l.exit.None? ==> rs.Valid() && rs.x[..rs.n] == old(rs.x[..rs.n]) + l.added)
  {
    ghost var start := rs.x[..rs.n];
    ghost var room0 := maxRelpriors - rs.n;
    ghost var added: seq<RelPrior> := [];
    ks := [];
    var priorSuccess := true;
    var i := 0;
    while i < |lines|
      invariant i <= |lines| && |ks| == i && rs.Valid()
      invariant rs.x[..rs.n] == start + added && rs.n == |start| + |added|
      invariant forall j {:trigger KindOf(lines[j], alloc(j), names, number, smallest)} :: 0 <= j < i ==>
        ks[j] == KindOf(lines[j], alloc(j), names, number, smallest)
      invariant Scan(ks, room0) == Loaded(None, added, !priorSuccess)
    {
      ghost var room := maxRelpriors - rs.n;
      var stop, ok, k := LoadAt(rs, plyrs, lines, alloc, i, ks, names, number, maxRelpriors, smallest, quiet);
      ScanStep(ks, k, room0, added, !priorSuccess, room);
      ks := ks + [k];
      if stop.Some? {
        return stop, ks;
      }
      added := added + Step(k, room).added;
      priorSuccess := priorSuccess && ok;
      i := i + 1;
    }
    if !priorSuccess {
      return Some(NamesNotMatched), ks;
    }
    return None, ks;
  }

  /** Line i of the loop of `relpriors_load`, with k its kind. */
  method LoadAt(rs: RelPriorSet, plyrs: Players, lines: seq<string>, alloc: nat -> bool, i: nat, ghost ks: seq<LineKind>,
                ghost names: seq<string>, number: string -> Option<real>, maxRelpriors: nat, smallest: real, quiet: bool)
    returns (stop: Option<ExitReason>, ok: bool, ghost k: LineKind)
    requires rs.Valid() && plyrs.Valid() && maxRelpriors <= rs.x.Length && names == plyrs.name[..plyrs.n]
    requires i < |lines| && forall k :: 0 <= k < |lines| ==> NoNul(lines[k])
    requires |ks| == i && forall j {:trigger KindOf(lines[j], alloc(j), names, number, smallest)} :: 0 <= j < i ==>
      ks[j] == KindOf(lines[j], alloc(j), names, number, smallest)
    modifies rs`n, rs.x
    ensures forall j {:trigger KindOf(lines[j], alloc(j), names, number, smallest)} :: 0 <= j < i + 1 ==>
      (ks + [k])[j] == KindOf(lines[j], alloc(j), names, number, smallest)
    ensures var l := Step(k, maxRelpriors - old(rs.n));
      stop == l.exit && (stop.None? ==> rs.Valid() && ok == !l.failed && rs.x[..rs.n] == old(rs.x[..rs.n]) + l.added)
  {
    stop, ok, k := rs.LoadLine(plyrs, lines[i], alloc(i), number, maxRelpriors, smallest, quiet);
  }

  /** Scanning one more kind after a scan that did not end the program. */
  lemma {:induction false} ScanSnoc(ks: seq<LineKind>, k: LineKind, room: int)
    requires Scan(ks, room).exit.None?
    ensures var p := Scan(ks, room);
      var l := Step(k, room - |p.added|);
      Scan(ks + [k], room) == (if l.exit.Some? then Loaded(l.exit, p.added, p.failed) else Prepend(p.added, p.failed, l))
    decreases |ks|
  {
    if ks == [] {
      assert [k][1..] == [];
    } else {
      assert (ks + [k])[0] == ks[0] && (ks + [k])[1..] == ks[1..] + [k];
      ScanSnoc(ks[1..], k, room - |Step(ks[0], room).added|);
    }
  }

  /** ScanSnoc with the scan so far spelled out. */
  lemma ScanStep(ks: seq<LineKind>, k: LineKind, room0: int, added: seq<RelPrior>, failed: bool, room: int)
    requires Scan(ks, room0) == Loaded(None, added, failed) && room == room0 - |added|
    ensures var l := Step(k, room);
      Scan(ks + [k], room0) == (if l.exit.Some? then Loaded(l.exit, added, failed) else Loaded(None, added + l.added, failed || l.failed))
  {
    ScanSnoc(ks, k, room0);
  }

  /** A scan with priors already added and a refusal already noted. */
  function Prepend(added: seq<RelPrior>, failed: bool, l: Loaded): Loaded
  {
    Loaded(l.exit, added + l.added, failed || l.failed)
  }
}
