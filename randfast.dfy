/** A small-state pseudo random generator: four 32-bit words, one mixing
    step per draw. uint32_t values are integers in [0, 2^32); addition and
    subtraction wrap modulo 2^32, and the bitwise operators are defined bit
    by bit. */
module RandFast {
  import opened CText

  function Pow2(k: nat): (r: nat)
    ensures r >= 1
  {
    if k == 0 then 1 else 2 * Pow2(k - 1)
  }

  lemma {:induction false} Pow2Add(j: nat, k: nat)
    ensures Pow2(j + k) == Pow2(j) * Pow2(k)
    decreases j
  {
    if j > 0 {
      Pow2Add(j - 1, k);
    }
  }

  function Add(x: U32, y: U32): U32
  {
    (x + y) % Modulus
  }

  function Sub(x: U32, y: U32): U32
  {
    (x - y) % Modulus
  }

  /** Bitwise exclusive or, least significant bit first. */
  function XorN(x: nat, y: nat): nat
  {
    if x == 0 && y == 0 then 0
    else 2 * XorN(x / 2, y / 2) + (x % 2 + y % 2) % 2
  }

  /** Bitwise or, least significant bit first. */
  function OrN(x: nat, y: nat): nat
  {
    if x == 0 && y == 0 then 0
    else 2 * OrN(x / 2, y / 2) + (if x % 2 == 1 || y % 2 == 1 then 1 else 0)
  }

  lemma HalfOf(q: nat, bit: nat)
    requires bit < 2
    ensures (2 * q + bit) / 2 == q && (2 * q + bit) % 2 == bit
  {
  }

  lemma {:induction false} XorBelow(x: nat, y: nat, k: nat)
    requires x < Pow2(k) && y < Pow2(k)
    ensures XorN(x, y) < Pow2(k)
    decreases k
  {
    if x != 0 || y != 0 {
      XorBelow(x / 2, y / 2, k - 1);
    }
  }

  lemma {:induction false} XorZero(x: nat)
    ensures XorN(x, 0) == x
    decreases x
  {
    if x != 0 {
      XorZero(x / 2);
    }
  }

  lemma ParityCancel(a: nat, b: nat)
    requires a < 2 && b < 2
    ensures ((a + b) % 2 + b) % 2 == a
  {
  }

  /** Exclusive or with the same word twice changes nothing. */
  lemma {:induction false} XorCancel(x: nat, y: nat)
    ensures XorN(XorN(x, y), y) == x
    decreases y
  {
    if y == 0 {
      XorZero(x);
      XorZero(XorN(x, 0));
    } else {
      XorCancel(x / 2, y / 2);
      XorLowBit(x, y, XorN(x / 2, y / 2), XorN(x, y));
    }
  }

  /** The lowest bit of XorCancel, the higher bits given. */
  lemma XorLowBit(x: nat, y: nat, q: nat, z: nat)
    requires y != 0
    requires q == XorN(x / 2, y / 2) && z == XorN(x, y)
    requires XorN(q, y / 2) == x / 2
    ensures XorN(z, y) == x
  {
    var xb, yb := x % 2, y % 2;
    var bit := (xb + yb) % 2;
    assert z == 2 * q + bit;
    HalfOf(q, bit);
    ParityCancel(xb, yb);
    assert XorN(z, y) == 2 * XorN(z / 2, y / 2) + (z % 2 + yb) % 2;
  }

  lemma Pow2Word()
    ensures Pow2(32) == Modulus
  {
    assert Pow2(8) == 256;
    Pow2Add(8, 8);
    Pow2Add(16, 16);
  }

  function Xor(x: U32, y: U32): U32
  {
    Pow2Word();
    XorBelow(x, y, 32);
    XorN(x, y)
  }

  lemma {:induction false} OrShiftedDisjoint(a: nat, b: nat, k: nat)
    requires b < Pow2(k)
    ensures OrN(a * Pow2(k), b) == a * Pow2(k) + b
    decreases k
  {
    if k == 0 {
      OrZero(a);
    } else {
      var h := a * Pow2(k - 1);
      assert a * Pow2(k) == 2 * h;
      HalfOf(h, 0);
      if h != 0 || b != 0 {
        OrShiftedDisjoint(a, b / 2, k - 1);
        assert OrN(2 * h, b) == 2 * OrN(h, b / 2) + b % 2;
      }
    }
  }

  lemma {:induction false} OrZero(x: nat)
    ensures OrN(x, 0) == x
    decreases x
  {
    if x != 0 {
      OrZero(x / 2);
    }
  }

  /** `x << k` on uint32_t: the bits shifted past bit 31 are lost. */
  function Shl(x: U32, k: nat): U32
  {
    (x * Pow2(k)) % Modulus
  }

  /** `x >> k` on uint32_t. */
  function Shr(x: U32, k: nat): U32
  {
    Quot(x, Pow2(k))
  }

  /** Division by a positive number never makes a number larger. */
  function Quot(x: nat, p: nat): (r: nat)
    requires p > 0
    ensures r <= x
  {
    QuotientAtMost(x, p);
    x / p
  }

  lemma QuotientAtMost(x: nat, p: nat)
    requires p > 0
    ensures x / p <= x
  {
    var q := x / p;
    assert q * p <= x;
    if q > 0 {
      MulAtLeast(q, p);
    }
  }

  /** `rot(x, k)`. */
  function Rot(x: U32, k: nat): U32
    requires 0 < k < 32
  {
    OrBelow(Shl(x, k), Shr(x, 32 - k));
    OrN(Shl(x, k), Shr(x, 32 - k))
  }

  lemma OrBelow(x: U32, y: U32)
    ensures OrN(x, y) < Modulus
  {
    Pow2Word();
    OrBelowN(x, y, 32);
  }

  lemma {:induction false} OrBelowN(x: nat, y: nat, k: nat)
    requires x < Pow2(k) && y < Pow2(k)
    ensures OrN(x, y) < Pow2(k)
    decreases k
  {
    if x != 0 || y != 0 {
      OrBelowN(x / 2, y / 2, k - 1);
    }
  }

  lemma MulBelow(lo: nat, m: nat, p: nat)
    requires lo < m
    ensures lo * p + p <= m * p
  {
    assert (lo + 1) * p <= m * p;
  }

  lemma {:induction false} MulAtLeast(n: int, d: int)
    requires n > 0 && d >= 1
    ensures n * d >= n
    decreases d
  {
    if d > 1 {
      MulAtLeast(n, d - 1);
      assert n * d == n * (d - 1) + n;
    }
  }

  /** Euclidean division has one quotient and one remainder. */
  lemma DivModUnique(y: int, n: int, q: int, r: int)
    requires n > 0 && 0 <= r < n && y == q * n + r
    ensures y / n == q && y % n == r
  {
    var d := q - y / n;
    assert n * d == y % n - r;
    if d >= 1 {
      MulAtLeast(n, d);
      assert false;
    }
    if d <= -1 {
      MulAtLeast(n, -d);
      assert false;
    }
  }

  lemma Distribute(hi: int, m: int, lo: int, p: int)
    ensures (hi * m + lo) * p == hi * (m * p) + lo * p
  {
  }

  /** A quotient by m of something below m * p is below p. */
  lemma QuotientBelow(x: nat, m: nat, p: nat)
    requires m > 0 && p > 0 && x < m * p
    ensures x / m < p
  {
    var hi := x / m;
    assert hi * m <= x;
    if hi >= p {
      if hi > p {
        MulAtLeast(m, hi - p);
      }
      assert false;
    }
  }

  /** Multiplying by p modulo m * p keeps x mod m, scaled by p. */
  lemma ScaledSplit(x: nat, m: nat, p: nat)
    requires m > 0 && p > 0
    ensures (x * p) % (m * p) == (x % m) * p
  {
    var lo := x % m;
    var hi := x / m;
    assert x == hi * m + lo;
    Distribute(hi, m, lo, p);
    MulBelow(lo, m, p);
    DivModUnique(x * p, m * p, hi, lo * p);
  }

  /** Shifting left by k keeps the low 32-k bits, moved up by k places. */
  lemma ShlKeepsLow(x: U32, k: nat)
    requires k <= 32
    ensures Shl(x, k) == (x % Pow2(32 - k)) * Pow2(k)
  {
    Pow2Add(32 - k, k);
    Pow2Word();
    ScaledSplit(x, Pow2(32 - k), Pow2(k));
  }

  /** Shifting right by 32-k leaves the high k bits, below 2^k. */
  lemma ShrBelow(x: U32, k: nat)
    requires k <= 32
    ensures Shr(x, 32 - k) < Pow2(k)
  {
    Pow2Add(32 - k, k);
    Pow2Word();
    QuotientBelow(x, Pow2(32 - k), Pow2(k));
  }

  /** `rot` is a 32-bit left rotation: the low 32-k bits move up by k places
      and the high k bits come round to the bottom. */
  lemma RotIsRotation(x: U32, k: nat)
    requires 0 < k < 32
    ensures Rot(x, k) == (x % Pow2(32 - k)) * Pow2(k) + x / Pow2(32 - k)
  {
    ShlKeepsLow(x, k);
    ShrBelow(x, k);
    OrShiftedDisjoint(x % Pow2(32 - k), x / Pow2(32 - k), k);
  }

  datatype State = State(a: U32, b: U32, c: U32, d: U32)

  /** One `ranval` step on the four words; the value drawn is the new d. */
  function Step(s: State): State
  {
    var e := Sub(s.a, Rot(s.b, 27));
    var a := Xor(s.b, Rot(s.c, 17));
    State(a, Add(s.c, s.d), Add(s.d, e), Add(e, a))
  }

  /** The step undone: every state has exactly one predecessor. */
  function StepBack(t: State): State
  {
    var e := Sub(t.d, t.a);
    var d := Sub(t.c, e);
    var c := Sub(t.b, d);
    var b := Xor(t.a, Rot(c, 17));
    State(Add(e, Rot(b, 27)), b, c, d)
  }

  lemma AddSub(x: U32, y: U32)
    ensures Sub(Add(x, y), y) == x && Add(Sub(x, y), y) == x
  {
  }

  lemma XorTwice(x: U32, y: U32)
    ensures Xor(Xor(x, y), y) == x
  {
    XorCancel(x, y);
  }

  lemma StepRoundTrip(s: State)
    ensures StepBack(Step(s)) == s
  {
    var e := Sub(s.a, Rot(s.b, 27));
    var a := Xor(s.b, Rot(s.c, 17));
    AddSub(e, a);
    AddSub(s.d, e);
    AddSub(s.c, s.d);
    XorTwice(s.b, Rot(s.c, 17));
    AddSub(s.a, Rot(s.b, 27));
  }

  lemma StepBackRoundTrip(t: State)
    ensures Step(StepBack(t)) == t
  {
    var e := Sub(t.d, t.a);
    var d := Sub(t.c, e);
    var c := Sub(t.b, d);
    var b := Xor(t.a, Rot(c, 17));
    AddSub(t.d, t.a);
    AddSub(t.c, e);
    AddSub(t.b, d);
    XorTwice(t.a, Rot(c, 17));
    AddSub(e, Rot(b, 27));
  }

  /** k steps from s. */
  function Steps(s: State, k: nat): State
  {
    if k == 0 then s else Step(Steps(s, k - 1))
  }

  const InitA: U32 := 0xf1ea5eed

  /** The number of values `raninit` draws and discards. */
  const Discarded: nat := 20

  /** The state `raninit` leaves: a fixed first word and the seed in the
      other three, advanced by 20 discarded steps. */
  function Seeded(seed: U32): State
  {
    Steps(State(InitA, seed, seed, seed), Discarded)
  }

  /** The k-th value drawn after seeding (k = 0 is the first). */
  function Drawn(seed: U32, k: nat): U32
  {
    Steps(Seeded(seed), k + 1).d
  }

  /** Different states stay different after any number of steps. */
  lemma {:induction false} StepsInjective(s: State, t: State, k: nat)
    requires Steps(s, k) == Steps(t, k)
    ensures s == t
    decreases k
  {
    if k > 0 {
      StepRoundTrip(Steps(s, k - 1));
      StepRoundTrip(Steps(t, k - 1));
      StepsInjective(s, t, k - 1);
    }
  }

  /** The generator context `ranctx`, updated in place. */
  class RanCtx {
    var a: U32
    var b: U32
    var c: U32
    var d: U32

    function Value(): State
      reads this
    {
      State(a, b, c, d)
    }

    constructor ()
      ensures Value() == State(0, 0, 0, 0)
    {
      a, b, c, d := 0, 0, 0, 0;
    }

    /** `ranval`: one step; returns the new d. */
    method RanVal() returns (r: U32)
      modifies this
      ensures Value() == Step(old(Value()))
      ensures r == d
    {
      var e := Sub(a, Rot(b, 27));
      a := Xor(b, Rot(c, 17));
      b := Add(c, d);
      c := Add(d, e);
      d := Add(e, a);
      r := d;
    }

    /** `raninit`: seed the words and discard 20 values. */
    method RanInit(seed: U32)
      modifies this
      ensures Value() == Seeded(seed)
    {
      a := InitA;
      b, c, d := seed, seed, seed;
      var i := 0;
      while i < Discarded
        invariant i <= Discarded
        invariant Value() == Steps(State(InitA, seed, seed, seed), i)
      {
        var _ := RanVal();
        assert Value() == Steps(State(InitA, seed, seed, seed), i + 1);
        i := i + 1;
      }
    }
  }

  /** The module's single global context, `Rndseries`. */
  class Generator {
    const series: RanCtx

    constructor ()
      ensures fresh(series)
    {
      series := new RanCtx();
    }

    /** `randfast_init`. */
    method Init(seed: U32)
      modifies series
      ensures series.Value() == Seeded(seed)
    {
      series.RanInit(seed);
    }

    /** `randfast32`: the next value of the stream. */
    method Next() returns (r: U32)
      modifies series
      ensures series.Value() == Step(old(series.Value()))
      ensures r == series.Value().d
    {
      r := series.RanVal();
    }
  }

  /** Seeding and drawing k values: the stream depends on the seed alone. */
  method DrawAfterInit(seed: U32, k: nat) returns (out: seq<U32>)
    ensures |out| == k
    ensures forall i :: 0 <= i < k ==> out[i] == Drawn(seed, i)
  {
    var g := new Generator();
    g.Init(seed);
    out := [];
    while |out| < k
      invariant |out| <= k
      invariant g.series.Value() == Steps(Seeded(seed), |out|)
      invariant forall i :: 0 <= i < |out| ==> out[i] == Drawn(seed, i)
    {
      var r := g.Next();
      assert g.series.Value() == Steps(Seeded(seed), |out| + 1);
      assert r == Drawn(seed, |out|);
      out := out + [r];
    }
  }
}
