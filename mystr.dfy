/** mystrncpy: a bounded string copy that is meant to always leave a
    terminated string in the destination. `src` holds the characters of the
    source C string; its terminator is implicit at index |src|. */
module MyStr {
  import opened CText

  const FillingByte: char := 'y'

  /** n copies of c. */
  function Fill(c: char, n: nat): (r: seq<char>)
    ensures |r| == n && forall i :: 0 <= i < n ==> r[i] == c
  {
    if n == 0 then [] else Fill(c, n - 1) + [c]
  }

  /** The characters written before any debug filling: the copied prefix and,
      when `terminated`, a NUL. */
  function Written(src: seq<char>, n: nat, terminated: bool): (w: seq<char>)
    requires n > 0
  {
    src[..Min(|src|, n - 1)] + (if terminated then ['\0'] else [])
  }

  /** The first n bytes of dest after the call: what was written, then, in
      debug builds, 'y' up to dest[n-1], otherwise the before bytes. */
  function Result(before: seq<char>, w: seq<char>, n: nat, debug: bool): (r: seq<char>)
    requires |w| <= n <= |before|
    ensures |r| == |before|
    ensures forall j :: 0 <= j < |r| ==>
      r[j] == (if j < |w| then w[j] else if j < n && debug then FillingByte else before[j])
  {
    w + (if debug then Fill(FillingByte, n - |w|) else before[|w|..n]) + before[n..]
  }

  /** The array after mystrncpy as written: for n == 1 no terminator is written. */
  function StrncpyAsWritten(before: seq<char>, src: seq<char>, n: nat, debug: bool): (r: seq<char>)
    requires 0 < n <= |before|
    ensures |r| == |before|
  {
    Result(before, Written(src, n, n >= 2), n, debug)
  }

  /** The evidently intended behaviour: the terminator is written for every n > 0. */
  function StrncpyIntended(before: seq<char>, src: seq<char>, n: nat, debug: bool): (r: seq<char>)
    requires 0 < n <= |before|
    ensures |r| == |before|
  {
    Result(before, Written(src, n, true), n, debug)
  }

  /** The C string a buffer holds: everything before its first NUL. */
  function CStr(buf: seq<char>): (s: seq<char>)
    ensures NoNul(s) && |s| <= |buf| && s == buf[..|s|]
    ensures |s| < |buf| ==> buf[|s|] == '\0'
  {
    if buf == [] || buf[0] == '\0' then [] else [buf[0]] + CStr(buf[1..])
  }

  lemma {:induction false} CStrOfTerminated(w: seq<char>, rest: seq<char>)
    requires NoNul(w)
    ensures CStr(w + ['\0'] + rest) == w
    decreases |w|
  {
    if w == [] {
      assert (w + ['\0'] + rest)[0] == '\0';
    } else {
      assert (w + ['\0'] + rest)[1..] == w[1..] + ['\0'] + rest;
      CStrOfTerminated(w[1..], rest);
    }
  }

  /** The string a destination of size n receives: src cut to n-1 characters. */
  function Truncate(src: seq<char>, n: nat): (r: seq<char>)
    requires n > 0
    ensures |r| == Min(|src|, n - 1) && r == src[..|r|]
  {
    src[..Min(|src|, n - 1)]
  }

  /** For n >= 2 dest holds a terminated copy of the first min(strlen(src), n-1)
      characters of src; bytes from dest[n] on are never touched, and in debug
      builds the bytes after the terminator up to dest[n-1] are 'y'. */
  lemma AsWrittenFromTwo(before: seq<char>, src: seq<char>, n: nat, debug: bool)
    requires NoNul(src) && 2 <= n <= |before|
    ensures var r := StrncpyAsWritten(before, src, n, debug);
      var k := Min(|src|, n - 1);
      r[..k] == src[..k] && r[k] == '\0' && CStr(r) == Truncate(src, n) &&
      r[n..] == before[n..] &&
      (debug ==> forall i :: k < i < n ==> r[i] == FillingByte) &&
      (!debug ==> forall i :: k < i < n ==> r[i] == before[i])
  {
    var r := StrncpyAsWritten(before, src, n, debug);
    var k := Min(|src|, n - 1);
    var w := Written(src, n, true);
    CStrOfTerminated(src[..k], r[k + 1..]);
    assert r == src[..k] + ['\0'] + r[k + 1..];
  }

  /** With n == 1 the copy writes no terminator: a release build leaves dest
      untouched and a debug build stores 'y' in its only byte. */
  lemma AsWrittenOneUnterminated(before: seq<char>, src: seq<char>, debug: bool)
    requires 1 <= |before|
    ensures var r := StrncpyAsWritten(before, src, 1, debug);
      (debug ==> r[0] == FillingByte) && (!debug ==> r == before)
  {
    var r := StrncpyAsWritten(before, src, 1, debug);
    if !debug {
      assert r == [] + before[0..1] + before[1..];
    }
  }

  /** A concrete input that shows the gap: a one-byte buffer holding 'a'. */
  lemma OneByteCounterexample()
    ensures StrncpyAsWritten(['a'], "abc", 1, false) == ['a']
    ensures CStr(StrncpyAsWritten(['a'], "abc", 1, false)) == ['a']
  {
    AsWrittenOneUnterminated(['a'], "abc", false);
    assert CStr(['a']) == ['a'] + CStr([]);
  }

  /** The corrected copy always terminates and agrees with the written one from n == 2 on. */
  lemma IntendedAlwaysTerminates(before: seq<char>, src: seq<char>, n: nat, debug: bool)
    requires NoNul(src) && 0 < n <= |before|
    ensures var r := StrncpyIntended(before, src, n, debug);
      r[Min(|src|, n - 1)] == '\0' && CStr(r) == Truncate(src, n) && r[n..] == before[n..]
    ensures n >= 2 ==> StrncpyIntended(before, src, n, debug) == StrncpyAsWritten(before, src, n, debug)
  {
    var r := StrncpyIntended(before, src, n, debug);
    var k := Min(|src|, n - 1);
    CStrOfTerminated(src[..k], r[k + 1..]);
    assert r == src[..k] + ['\0'] + r[k + 1..];
  }

  /** mystrncpy on a destination array, following the pointer loop of the source. */
  method Mystrncpy(dest: array<char>, src: seq<char>, n: nat, debug: bool)
    requires NoNul(src)
    requires 0 < n <= dest.Length
    modifies dest
    ensures dest[..] == StrncpyAsWritten(old(dest[..]), src, n, debug)
  {
    ghost var old0 := dest[..];
    var c := '\0';
    var m := n;
    var i := 0;
    while m > 1
      invariant 0 <= i <= |src| && i + m == n && m >= 1
      invariant forall j :: 0 <= j < i ==> dest[j] == src[j]
      invariant forall j :: i <= j < dest.Length ==> dest[j] == old0[j]
      invariant c == '\0' <==> i == 0
      decreases m
    {
      m := m - 1;
      c := At(src, i);
      dest[i] := c;
      i := i + 1;
      if c == '\0' {
        break;
      }
    }
    ghost var w := Written(src, n, n >= 2);
    assert n >= 2 ==> (c == '\0' <==> i == Min(|src|, n - 1) + 1);
    if c != '\0' {
      m := m - 1;
      dest[i] := '\0';
      i := i + 1;
    }
    assert i == |w| && i + m == n;
    assert forall j :: 0 <= j < i ==> dest[j] == w[j];
    if debug {
      while m > 0
        invariant |w| <= i && i + m == n && m >= 0
        invariant forall j :: 0 <= j < |w| ==> dest[j] == w[j]
        invariant forall j :: |w| <= j < i ==> dest[j] == FillingByte
        invariant forall j :: i <= j < dest.Length ==> dest[j] == old0[j]
        decreases m
      {
        m := m - 1;
        dest[i] := FillingByte;
        i := i + 1;
      }
    }
    assert forall j :: 0 <= j < dest.Length ==> dest[..][j] == StrncpyAsWritten(old0, src, n, debug)[j];
  }
}
