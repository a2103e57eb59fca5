/** Small vocabulary shared by the C and Ruby models: optional values,
    uint32_t, the game results of the rating program and the C library's
    character classes in the "C" locale. */
module CText {
  datatype Option<T> = None | Some(value: T)

  /** uint32_t: integers in [0, 2^32); arithmetic on them wraps modulo 2^32. */
  const Modulus: int := 0x1_0000_0000

  type U32 = x: int | 0 <= x < 0x1_0000_0000

  /** `MAXPLAYERS` (ordolim.h): the capacity of the player tables. */
  const MaxPlayers: nat := 50000

  /** The results a game's `score` holds. */
  const WhiteWin: int := 0
  const ResultDraw: int := 1
  const BlackWin: int := 2

  /** `struct relprior`: a prior on the rating difference of two players. */
  datatype RelPrior = RelPrior(playerA: nat, playerB: nat, delta: real, sigma: real)

  /** The classes of `performance_type[]`: normal, all points won, no
      point won, no games; Other stands for any other stored code. */
  datatype Perf = PerfNormal | PerfSuperWinner | PerfSuperLoser | PerfNoGames | PerfOther(code: int)

  /** `isspace` in the "C" locale. */
  predicate IsSpace(c: char)
  {
    c == ' ' || c == '\t' || c == '\n' || c == '\U{B}' || c == '\U{C}' || c == '\r'
  }

  /** The characters of a C string: everything before its terminating NUL. */
  predicate NoNul(s: seq<char>)
  {
    forall i :: 0 <= i < |s| ==> s[i] != '\0'
  }

  /** Reading a C string at offset k: past the last character the terminator is seen. */
  function At(s: seq<char>, k: nat): char
  {
    if k < |s| then s[k] else '\0'
  }

  function Min(a: int, b: int): int
  {
    if a <= b then a else b
  }

  function Max(a: int, b: int): int
  {
    if a >= b then a else b
  }

  /** Sets the first n entries of a to x. */
  method FillPrefix<T>(a: array<T>, n: nat, x: T)
    requires n <= a.Length
    modifies a
    ensures forall j :: 0 <= j < n ==> a[j] == x
    ensures a[n..] == old(a[n..])
  {
    ghost var s := a[..];
    var j := 0;
    while j < n
      invariant j <= n
      invariant forall k :: 0 <= k < j ==> a[k] == x
      invariant forall k :: j <= k < a.Length ==> a[k] == s[k]
    {
      a[j] := x;
      j := j + 1;
    }
  }

  /** Copies the first n entries of src to dst; src may be dst. */
  method CopyPrefix<T>(src: array<T>, dst: array<T>, n: nat)
    requires n <= src.Length && n <= dst.Length
    modifies dst
    ensures dst[..n] == old(src[..n])
    ensures dst[n..] == old(dst[n..])
  {
    ghost var s := dst[..];
    ghost var t := src[..];
    var j := 0;
    while j < n
      invariant j <= n
      invariant forall k :: 0 <= k < j ==> dst[k] == t[k]
      invariant forall k :: j <= k < n ==> src[k] == t[k]
      invariant forall k :: j <= k < dst.Length ==> dst[k] == s[k]
    {
      dst[j] := src[j];
      j := j + 1;
    }
  }

  /** A non-empty sequence is its front followed by its last element. */
  lemma InitLast<T>(s: seq<T>)
    requires s != []
    ensures s[..|s| - 1] + [s[|s| - 1]] == s
  {
  }

  /** Concatenation is associative. */
  lemma ConcatAssoc<T>(a: seq<T>, b: seq<T>, c: seq<T>)
    ensures (a + b) + c == a + (b + c)
  {
  }
}
