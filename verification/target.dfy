/** Difficulty, target and hash difficulty of src/miner.c. Floating point is
    modelled by real numbers. */
module Target {
  import opened Words
  import opened Digits

  function Pow256(n: nat): (p: int)
    ensures p >= 1
  {
    if n == 0 then 1 else 256 * Pow256(n - 1)
  }

  /** The exact threshold for difficulty d: difficulty 1 is 65535 * 256^26. */
  function Threshold(d: real): real
    requires d > 0.0
  {
    65535.0 * (Pow256(26) as real) / d
  }

  /** The first scaling loop of miner_target_from_difficulty. */
  function ScaleDown(mant: real, exp: int): (real, int)
    decreases 32 - exp
  {
    if mant >= 8388608.0 && exp < 32 then ScaleDown(mant / 256.0, exp + 1) else (mant, exp)
  }

  /** The second scaling loop. */
  function ScaleUp(mant: real, exp: int): (real, int)
    decreases exp
  {
    if mant > 0.0 && mant < 32768.0 && exp > 3 then ScaleUp(mant * 256.0, exp - 1) else (mant, exp)
  }

  function Normalized(d: real): (real, int)
    requires d > 0.0
  {
    var (mant, exp) := ScaleDown(65535.0 / d, 29);
    ScaleUp(mant, exp)
  }

  /** A difficulty that is not positive counts as 1. */
  function Effective(difficulty: real): (d: real)
    ensures d > 0.0
  {
    if difficulty <= 0.0 then 1.0 else difficulty
  }

  /** The number the 32 target bytes hold: three bytes of mantissa at byte exp - 3. */
  function TargetOf(d: real): int
    requires d > 0.0
  {
    var (mant, exp) := Normalized(d);
    if exp < 3 then 0 else mant.Floor % 0x100_0000 * Pow256(exp - 3)
  }

  /** The n least significant bytes of a number, least significant first. */
  function BytesOf(v: nat, n: nat): (b: seq<Byte>)
    ensures |b| == n
  {
    if n == 0 then [] else [v % 0x100] + BytesOf(v / 0x100, n - 1)
  }

  lemma {:induction false} ValueOfBytes(v: nat, n: nat)
    requires v < Pow256(n)
    ensures Value(BytesOf(v, n), 0x100) == v
  {
    if n > 0 {
      ValueOfBytes(v / 0x100, n - 1);
      assert BytesOf(v, n)[1..] == BytesOf(v / 0x100, n - 1);
    }
  }

  /** The 32 target bytes of a difficulty. */
  function TargetBytes(d: real): (b: seq<Byte>)
    requires d > 0.0
    ensures |b| == 32
  {
    TargetMax(d);
    BytesOf(TargetOf(d), 32)
  }

  lemma TargetBytesValue(d: real)
    requires d > 0.0
    ensures Value(TargetBytes(d), 0x100) == TargetOf(d)
  {
    hide BytesOf, TargetOf, Pow256;
    TargetMax(d);
    ValueOfBytes(TargetOf(d), 32);
  }

  /** Lay three bytes of mantissa at position 32 - exp and reverse. */
  method LayBytes(m: Word, exp: int, target: array<Byte>)
    requires target.Length == 32 && 3 <= exp <= 32
    modifies target
    ensures Value(target[..], 0x100) == m % 0x100_0000 * Pow256(exp - 3)
  {
    hide Value, Pow256;
    var beTarget := new Byte[32](_ => 0);
    var idx := 32 - exp;
    beTarget[idx] := m / 0x1_0000 % 0x100;
    beTarget[idx + 1] := m / 0x100 % 0x100;
    beTarget[idx + 2] := m % 0x100;
    ghost var be := beTarget[..];
    for i := 0 to 32
      invariant beTarget[..] == be
      invariant forall j :: 0 <= j < i ==> target[j] == be[31 - j]
    {
      target[i] := beTarget[31 - i];
    }
    ThreeBytes(target[..], exp - 3, m % 0x100, m / 0x100 % 0x100, m / 0x1_0000 % 0x100);
    LowThreeBytes(m);
  }

  /** Difficulties for which the C cast of the mantissa to uint32_t is defined. */
  predicate CastDefined(difficulty: real) {
    difficulty <= 0.0 || 65535.0 / difficulty < 72057594037927936.0
  }

  /** miner_target_from_difficulty. The exponent stays in 3..32, so the
      index test of the source always holds and its other branch never runs. */
  method TargetFromDifficulty(difficulty: real, target: array<Byte>)
    requires target.Length == 32
    requires CastDefined(difficulty)
    modifies target
    ensures target[..] == TargetBytes(Effective(difficulty))
    ensures Value(target[..], 0x100) == TargetOf(Effective(difficulty))
    ensures IsTargetFor(Value(target[..], 0x100), difficulty)
  {
    hide Value, Pow256, PowReal, TargetBytes, IsTargetFor;
    var d := difficulty;
    if d <= 0.0 {
      d := 1.0;
    }
    var mant, exp := 65535.0 / d, 29;
    PowRealZero();
    while mant >= 8388608.0 && exp < 32
      invariant 29 <= exp <= 32
      invariant ScaleDown(mant, exp) == ScaleDown(65535.0 / d, 29)
      invariant 0.0 < mant && mant * PowReal(exp - 29) == 65535.0 / d
      decreases 32 - exp
    {
      DownStep(mant, exp);
      mant := mant / 256.0;
      exp := exp + 1;
    }
    MantissaFits(mant, exp, 65535.0 / d);
    while mant > 0.0 && mant < 32768.0 && exp > 3
      invariant 3 <= exp <= 32 && 0.0 < mant < 4294967296.0
      invariant ScaleUp(mant, exp) == Normalized(d)
      decreases exp
    {
      mant := mant * 256.0;
      exp := exp - 1;
    }
    LayBytes(mant.Floor, exp, target);
    TargetBytesValue(d);
    ValueInjective(target[..], TargetBytes(d), 0x100);
    IsTarget(difficulty);
  }

  function PowReal(n: nat): real {
    if n == 0 then 1.0 else 256.0 * PowReal(n - 1)
  }

  lemma PowRealZero()
    ensures PowReal(0) == 1.0
  {
  }

  lemma DownStep(mant: real, exp: int)
    requires exp >= 29
    ensures mant / 256.0 * PowReal(exp + 1 - 29) == mant * PowReal(exp - 29)
  {
  }

  lemma MantissaFits(mant: real, exp: int, q: real)
    requires 29 <= exp <= 32 && 0.0 < mant && mant * PowReal(exp - 29) == q < 72057594037927936.0
    requires mant < 8388608.0 || exp == 32
    ensures mant < 4294967296.0
  {
    if exp == 32 {
      assert PowReal(3) == 16777216.0;
    }
  }

  lemma LowThreeBytes(m: nat)
    ensures m % 0x100 + 0x100 * (m / 0x100 % 0x100) + 0x1_0000 * (m / 0x1_0000 % 0x100) == m % 0x100_0000
  {
    var q1, r0 := m / 0x100, m % 0x100;
    var q2, r1 := q1 / 0x100, q1 % 0x100;
    var q3, r2 := q2 / 0x100, q2 % 0x100;
    QuotientBy16Bits(m, q2, 0x100 * r1 + r0);
    RemainderBy24Bits(m, q3, 0x1_0000 * r2 + 0x100 * r1 + r0);
  }

  lemma QuotientBy16Bits(m: nat, q: nat, r: nat)
    requires m == 0x1_0000 * q + r && r < 0x1_0000
    ensures m / 0x1_0000 == q
  {
  }

  lemma RemainderBy24Bits(m: nat, q: nat, r: nat)
    requires m == 0x100_0000 * q + r && r < 0x100_0000
    ensures m % 0x100_0000 == r
  {
  }

  lemma {:induction false} ZeroValue(s: seq<int>, base: nat)
    requires forall i :: 0 <= i < |s| ==> s[i] == 0
    ensures Value(s, base) == 0
  {
    if s != [] {
      ZeroValue(s[1..], base);
    }
  }

  /** Bytes that are zero except three at positions k, k+1, k+2. */
  lemma {:induction false} ThreeBytes(s: seq<int>, k: nat, b0: int, b1: int, b2: int)
    requires k + 3 <= |s| && s[k] == b0 && s[k + 1] == b1 && s[k + 2] == b2
    requires forall i :: 0 <= i < |s| && (i < k || i >= k + 3) ==> s[i] == 0
    ensures Value(s, 0x100) == (b0 + 0x100 * b1 + 0x1_0000 * b2) * Pow256(k)
  {
    if k == 0 {
      assert s[1..][1..] == s[2..] && s[2..][1..] == s[3..];
      ZeroValue(s[3..], 0x100);
      assert Value(s[2..], 0x100) == b2;
      assert Value(s[1..], 0x100) == b1 + 0x100 * b2;
    } else {
      ThreeBytes(s[1..], k - 1, b0, b1, b2);
    }
  }

  // ---- The shape of the normalised mantissa ----

  lemma {:induction false} ScaleDownShape(mant: real, exp: int)
    requires mant > 0.0 && 29 <= exp <= 32
    ensures var (m, e) := ScaleDown(mant, exp);
      exp <= e <= 32 && m > 0.0 && m * PowReal(e - 3) == mant * PowReal(exp - 3)
      && (m < 8388608.0 || e == 32) && (e > exp ==> m >= 32768.0)
    decreases 32 - exp
  {
    if mant >= 8388608.0 && exp < 32 {
      ScaleDownShape(mant / 256.0, exp + 1);
    }
  }

  lemma {:induction false} ScaleUpShape(mant: real, exp: int)
    requires mant > 0.0 && 3 <= exp <= 32 && (mant < 8388608.0 || exp == 32)
    ensures var (m, e) := ScaleUp(mant, exp);
      3 <= e <= exp && m > 0.0 && m * PowReal(e - 3) == mant * PowReal(exp - 3)
      && (m < 8388608.0 || e == 32) && (m >= 32768.0 || e == 3)
    decreases exp
  {
    if mant < 32768.0 && exp > 3 {
      ScaleUpShape(mant * 256.0, exp - 1);
    }
  }

  /** The loops end with mant * 256^(exp-3) equal to the threshold and the mantissa
      in its normal range, except at the two ends of the exponent range. */
  lemma NormalizedShape(d: real)
    requires d > 0.0
    ensures var (m, e) := Normalized(d);
      3 <= e <= 32 && m > 0.0 && m * PowReal(e - 3) == Threshold(d)
      && (m < 8388608.0 || e == 32) && (m >= 32768.0 || e == 3)
  {
    hide PowReal, Threshold, ScaleDown, ScaleUp;
    var (m1, e1) := ScaleDown(65535.0 / d, 29);
    ScaleDownShape(65535.0 / d, 29);
    ScaleUpShape(m1, e1);
    ThresholdIs(d);
  }

  lemma ThresholdIs(d: real)
    requires d > 0.0
    ensures Threshold(d) == 65535.0 / d * PowReal(26)
  {
    hide PowReal, Pow256;
    PowRealIs(26);
    QuotientFirst(d, PowReal(26));
  }

  lemma QuotientFirst(d: real, p: real)
    requires d > 0.0
    ensures 65535.0 / d * p == 65535.0 * p / d
  {
  }

  lemma {:induction false} PowRealIs(n: nat)
    ensures PowReal(n) == Pow256(n) as real
  {
    if n > 0 {
      PowRealIs(n - 1);
    }
  }

  lemma {:induction false} PowMonotone(a: nat, b: nat)
    requires a <= b
    ensures Pow256(a) <= Pow256(b)
    ensures a < b ==> 256 * Pow256(a) <= Pow256(b)
    decreases b
  {
    if a < b {
      PowMonotone(a, b - 1);
    }
  }

  /** Difficulties at which the mantissa still fits its three bytes. */
  predicate Representable(d: real)
    requires d > 0.0
  {
    65535.0 / d < 281474976710656.0
  }

  lemma MantissaIsThreeBytes(d: real)
    requires d > 0.0
    ensures var (m, e) := Normalized(d); Representable(d) <==> m < 16777216.0
  {
    hide PowReal, Threshold, Normalized;
    NormalizedShape(d);
    ThresholdIs(d);
    var (m, e) := Normalized(d);
    if e == 32 {
      TopExponent(m, 65535.0 / d);
    } else {
      LowerExponent(m, e - 3, 65535.0 / d);
    }
  }

  lemma TopExponent(m: real, q: real)
    requires m * PowReal(29) == q * PowReal(26)
    ensures q < 281474976710656.0 <==> m < 16777216.0
  {
    hide PowReal;
    PowRealLarge();
    Regroup(m, PowReal(29), PowReal(26));
    CancelScale(m, q, PowReal(26));
  }

  lemma Regroup(m: real, r: real, p: real)
    requires r == 16777216.0 * p
    ensures m * (16777216.0 * p) == m * r
  {
  }

  lemma LowerExponent(m: real, n: nat, q: real)
    requires n <= 28 && 0.0 < m < 8388608.0 && m * PowReal(n) == q * PowReal(26)
    ensures q < 281474976710656.0
  {
    hide PowReal;
    PowRealLarge();
    PowRealBound(n);
    SmallScale(m, q, PowReal(26), PowReal(n));
  }

  lemma PowRealLarge()
    ensures PowReal(26) >= 1.0 && PowReal(28) == 65536.0 * PowReal(26) && PowReal(29) == 16777216.0 * PowReal(26)
  {
    PowRealIs(26);
    assert PowReal(29) == 256.0 * PowReal(28) && PowReal(28) == 256.0 * PowReal(27) && PowReal(27) == 256.0 * PowReal(26);
  }

  lemma PowRealBound(n: nat)
    requires n <= 28
    ensures 1.0 <= PowReal(n) <= PowReal(28)
  {
    PowRealIs(n);
    PowRealIs(28);
    PowMonotone(n, 28);
  }

  lemma CancelScale(m: real, q: real, p: real)
    requires p > 0.0 && m * (16777216.0 * p) == q * p
    ensures q == m * 16777216.0
  {
    assert (q - m * 16777216.0) * p == 0.0;
  }

  lemma SmallScale(m: real, q: real, p: real, r: real)
    requires p > 0.0 && 0.0 < r <= 65536.0 * p && 0.0 < m < 8388608.0 && m * r == q * p
    ensures q < 281474976710656.0
  {
    ProductBound(m, 8388608.0, r, 65536.0 * p);
    FactorBound(q, 549755813888.0, p);
  }

  lemma FactorBound(a: real, b: real, p: real)
    requires p > 0.0 && a * p <= b * p
    ensures a <= b
  {
    assert (b - a) * p >= 0.0;
  }

  lemma ProductBound(a: real, b: real, c: real, d: real)
    requires 0.0 <= a <= b && 0.0 <= c <= d
    ensures a * c <= b * d
  {
    assert a * c <= b * c;
    assert b * c <= b * d;
  }

  // ---- How close the target is to the exact threshold ----

  /** The target in terms of the normalised mantissa and exponent. */
  lemma TargetShape(d: real) returns (m: real, e: nat)
    requires d > 0.0
    ensures 3 <= e <= 32 && 0.0 < m && (m < 8388608.0 || e == 32) && (m >= 32768.0 || e == 3)
    ensures Threshold(d) == m * PowReal(e - 3)
    ensures TargetOf(d) == m.Floor % 0x100_0000 * Pow256(e - 3)
    ensures Representable(d) <==> m < 16777216.0
    ensures PowReal(e - 3) == Pow256(e - 3) as real >= 1.0
  {
    hide PowReal, Pow256, Threshold, Normalized, Representable;
    NormalizedShape(d);
    MantissaIsThreeBytes(d);
    m, e := Normalized(d).0, Normalized(d).1;
    PowRealIs(e - 3);
  }

  /** The target never exceeds the exact threshold. */
  lemma TargetBelowThreshold(d: real)
    requires d > 0.0
    ensures 0 <= TargetOf(d) && TargetOf(d) as real <= Threshold(d)
  {
    hide PowReal, Pow256, Threshold, Normalized, Representable, TargetOf;
    var m, e := TargetShape(d);
    ProductReal(m.Floor % 0x100_0000, Pow256(e - 3));
    ProductBound((m.Floor % 0x100_0000) as real, m, PowReal(e - 3), PowReal(e - 3));
  }

  lemma ProductReal(a: int, b: int)
    requires a >= 0 && b >= 1
    ensures (a * b) as real == a as real * b as real
    ensures a * b >= a
  {
  }

  function MaxReal(a: real, b: real): real {
    if a < b then b else a
  }

  /** The target is within one, or within one part in 2^15, of the threshold exactly
      for the difficulties whose mantissa fits three bytes. */
  lemma TargetAccuracy(d: real)
    requires d > 0.0
    ensures Threshold(d) - TargetOf(d) as real < MaxReal(1.0, Threshold(d) / 32768.0) <==> Representable(d)
  {
    hide PowReal, Pow256, Threshold, Normalized, Representable, TargetOf, MaxReal;
    var m, e := TargetShape(d);
    var p, f := PowReal(e - 3), m.Floor % 0x100_0000;
    var x, t := Threshold(d), TargetOf(d) as real;
    ProductReal(f, Pow256(e - 3));
    if m < 16777216.0 {
      CloseProduct(m, f as real, p, x, t);
      OneUnit(m, e, p, x);
    } else {
      FarProduct(m, f as real, p, x, t);
    }
  }

  /** One unit of the last mantissa byte. */
  lemma OneUnit(m: real, e: nat, p: real, x: real)
    requires e >= 3 && p == PowReal(e - 3) && p > 0.0 && (m >= 32768.0 || e == 3) && x == m * p
    ensures p <= MaxReal(1.0, x / 32768.0)
  {
    if m >= 32768.0 {
      ProductBound(32768.0, m, p, p);
      DivideBound(p, x);
    }
  }

  lemma DivideBound(p: real, x: real)
    requires 32768.0 * p <= x
    ensures p <= MaxReal(1.0, x / 32768.0)
  {
  }

  lemma CloseProduct(m: real, f: real, p: real, x: real, t: real)
    requires f > m - 1.0 && p >= 1.0 && x == m * p && t == f * p
    ensures x - t < p
  {
    PositiveProduct(1.0 - (m - f), p);
    assert (1.0 - (m - f)) * p == p - m * p + f * p;
  }

  lemma FarProduct(m: real, f: real, p: real, x: real, t: real)
    requires 0.0 <= f < 16777216.0 <= m && f <= m - 16777216.0 && p >= 1.0 && x == m * p && t == f * p
    ensures x - t >= MaxReal(1.0, x / 32768.0)
  {
    ProductBound(m, 2.0 * (m - f), p, p);
    assert 2.0 * (m - f) * p == 2.0 * (m * p - f * p);
    ProductBound(16777216.0, m, 1.0, p);
  }

  /** A difficulty below the bound has a target of zero: no hash but zero meets it,
      although its exact threshold is 2^256. */
  lemma TinyDifficultyFails()
    ensures var d := 65535.0 / 281474976710656.0;
      TargetOf(d) == 0 && Threshold(d) == 281474976710656.0 * (Pow256(26) as real)
  {
    hide Pow256;
    var d := 65535.0 / 281474976710656.0;
    assert 65535.0 / d == 281474976710656.0;
    assert ScaleDown(281474976710656.0, 29) == ScaleDown(1099511627776.0, 30) == ScaleDown(4294967296.0, 31)
      == ScaleDown(16777216.0, 32) == (16777216.0, 32);
    assert Normalized(d) == (16777216.0, 32);
    ThresholdOfTiny(Pow256(26) as real);
  }

  lemma ThresholdOfTiny(p: real)
    ensures 65535.0 * p / (65535.0 / 281474976710656.0) == 281474976710656.0 * p
  {
  }

  /** What TargetShape says of a mantissa and an exponent. */
  ghost predicate Shape(d: real, m: real, e: nat)
    requires d > 0.0
  {
    && 3 <= e <= 32 && 0.0 < m && (m < 8388608.0 || e == 32) && (m >= 32768.0 || e == 3)
    && Threshold(d) == m * PowReal(e - 3)
    && TargetOf(d) == m.Floor % 0x100_0000 * Pow256(e - 3)
    && (Representable(d) ==> m < 16777216.0)
    && PowReal(e - 3) >= 1.0
  }

  lemma OrderedAtSameExponent(d1: real, m1: real, d2: real, m2: real, e: nat)
    requires d1 > 0.0 && d2 > 0.0 && Shape(d1, m1, e) && Shape(d2, m2, e)
    requires Representable(d1) && Threshold(d2) <= Threshold(d1)
    ensures TargetOf(d2) <= TargetOf(d1)
  {
    hide PowReal, Pow256, Threshold, Representable, TargetOf;
    SameExponent(m1, m2, e - 3);
  }

  lemma OrderedAtLargerExponent(d1: real, m1: real, e1: nat, d2: real, m2: real, e2: nat)
    requires d1 > 0.0 && d2 > 0.0 && Shape(d1, m1, e1) && Shape(d2, m2, e2)
    requires Representable(d1) && e2 < e1
    ensures TargetOf(d2) <= TargetOf(d1)
  {
    hide PowReal, Pow256, Threshold, Representable, TargetOf;
    PowStep(e2 - 3, e1 - 3);
    LargerExponent(m1, m2, Pow256(e1 - 3), Pow256(e2 - 3));
  }

  lemma ExponentFollowsThreshold(d1: real, m1: real, e1: nat, d2: real, m2: real, e2: nat)
    requires d1 > 0.0 && d2 > 0.0 && Shape(d1, m1, e1) && Shape(d2, m2, e2) && e1 < e2
    ensures Threshold(d1) < Threshold(d2)
  {
    hide PowReal, Pow256, Threshold, Representable, TargetOf;
    PowStep(e1 - 3, e2 - 3);
    SmallerExponent(m1, m2, PowReal(e1 - 3), PowReal(e2 - 3));
  }

  /** A harder difficulty never has a larger target, as long as the easier one is
      representable. */
  lemma TargetAntitone(d1: real, d2: real)
    requires 0.0 < d1 <= d2 && Representable(d1)
    ensures TargetOf(d2) <= TargetOf(d1)
  {
    hide Threshold, Representable, TargetOf, PowReal, Pow256;
    ThresholdAntitone(d1, d2);
    var m1, e1 := TargetShape(d1);
    var m2, e2 := TargetShape(d2);
    TargetOrdered(d1, m1, e1, d2, m2, e2);
  }

  lemma TargetOrdered(d1: real, m1: real, e1: nat, d2: real, m2: real, e2: nat)
    requires d1 > 0.0 && d2 > 0.0 && Shape(d1, m1, e1) && Shape(d2, m2, e2)
    requires Representable(d1) && Threshold(d2) <= Threshold(d1)
    ensures TargetOf(d2) <= TargetOf(d1)
  {
    hide Shape, Threshold, Representable, TargetOf;
    if e1 == e2 {
      OrderedAtSameExponent(d1, m1, d2, m2, e1);
    } else if e1 < e2 {
      ExponentFollowsThreshold(d1, m1, e1, d2, m2, e2);
      assert false;
    } else {
      OrderedAtLargerExponent(d1, m1, e1, d2, m2, e2);
    }
  }

  lemma SameExponent(m1: real, m2: real, k: nat)
    requires 0.0 < m1 < 16777216.0 && 0.0 < m2 && PowReal(k) >= 1.0 && m2 * PowReal(k) <= m1 * PowReal(k)
    ensures m2.Floor % 0x100_0000 * Pow256(k) <= m1.Floor % 0x100_0000 * Pow256(k)
  {
    hide PowReal, Pow256;
    FactorBound(m2, m1, PowReal(k));
    FloorMonotone(m2, m1);
    IntProduct(m2.Floor, m1.Floor, Pow256(k), Pow256(k));
  }

  lemma FloorMonotone(x: real, y: real)
    requires 0.0 < x <= y < 16777216.0
    ensures 0 <= x.Floor <= y.Floor < 0x100_0000
  {
  }

  lemma LargerExponent(m1: real, m2: real, p1: nat, p2: nat)
    requires 32768.0 <= m1 < 16777216.0 && 0.0 < m2 < 8388608.0 && 256 * p2 <= p1
    ensures m2.Floor % 0x100_0000 * p2 <= m1.Floor % 0x100_0000 * p1
  {
    assert 32768 <= m1.Floor < 0x100_0000 && 0 <= m2.Floor < 8388608;
    IntProduct(m2.Floor, 8388608, p2, p2);
    IntProduct(32768, m1.Floor, 256 * p2, p1);
  }

  /** No target exceeds three full mantissa bytes at the top. */
  lemma TargetMax(d: real)
    requires d > 0.0
    ensures 0 <= TargetOf(d) <= 0xFF_FFFF * Pow256(29) < Pow256(32)
  {
    hide PowReal, Pow256, Threshold, Normalized, Representable, TargetOf;
    var m, e := TargetShape(d);
    PowMonotone(e - 3, 29);
    IntProduct(m.Floor % 0x100_0000, 0xFF_FFFF, Pow256(e - 3), Pow256(29));
    PowThree(29);
  }

  lemma PowThree(n: nat)
    ensures Pow256(n + 3) == 0x100_0000 * Pow256(n)
  {
    assert Pow256(n + 3) == 256 * Pow256(n + 2) && Pow256(n + 2) == 256 * Pow256(n + 1);
  }

  /** The easiest difficulty whose target has the largest mantissa and exponent. */
  const EASIEST: real := 65535.0 / 281474959933440.0

  lemma EasiestTarget()
    ensures TargetOf(EASIEST) == 0xFF_FFFF * Pow256(29)
  {
    hide Pow256;
    assert 65535.0 / EASIEST == 281474959933440.0;
    assert ScaleDown(281474959933440.0, 29) == ScaleDown(1099511562240.0, 30) == ScaleDown(4294967040.0, 31)
      == ScaleDown(16777215.0, 32) == (16777215.0, 32);
    assert Normalized(EASIEST) == (16777215.0, 32);
  }

  lemma BelowEasiest(d: real)
    requires d > 0.0 && !Representable(d)
    ensures d <= EASIEST
  {
    QuotientBack(65535.0, d);
    ProductBound(281474976710656.0, 65535.0 / d, d, d);
  }

  /** The mantissa of a difficulty that is not representable: the loop divides three
      times, and what does not fit three bytes is lost. */
  lemma LostMantissa(d: real)
    requires d > 0.0 && !Representable(d)
    ensures TargetOf(d) == (65535.0 / d / 16777216.0).Floor % 0x100_0000 * Pow256(29)
  {
    hide Pow256;
    var q := 65535.0 / d;
    assert ScaleDown(q, 29) == ScaleDown(q / 256.0, 30) == ScaleDown(q / 256.0 / 256.0, 31)
      == ScaleDown(q / 256.0 / 256.0 / 256.0, 32);
    assert q / 256.0 / 256.0 / 256.0 == q / 16777216.0;
    assert Normalized(d) == (q / 16777216.0, 32);
  }

  lemma LargestMantissa(f: nat, p: nat)
    requires p > 0
    ensures f * p == 0xFF_FFFF * p <==> f == 0xFF_FFFF
  {
    if f < 0xFF_FFFF {
      assert f * p < 0xFF_FFFF * p;
    } else if f > 0xFF_FFFF {
      assert f * p > 0xFF_FFFF * p;
    }
  }

  /** The exact condition: no larger difficulty has a larger target if and only if the
      difficulty is representable, or the three bytes of its mantissa that remain happen
      to be the largest. */
  lemma TargetAntitoneExact(d1: real)
    requires d1 > 0.0
    ensures (forall d2: real :: d2 >= d1 ==> TargetOf(d2) <= TargetOf(d1)) <==>
      Representable(d1) || (65535.0 / d1 / 16777216.0).Floor % 0x100_0000 == 0xFF_FFFF
  {
    hide Pow256, Representable, TargetOf;
    if Representable(d1) {
      forall d2: real | d2 >= d1 ensures TargetOf(d2) <= TargetOf(d1) {
        TargetAntitone(d1, d2);
      }
    } else {
      LostMantissa(d1);
      LargestMantissa((65535.0 / d1 / 16777216.0).Floor % 0x100_0000, Pow256(29));
      forall d2: real | d2 >= d1 ensures TargetOf(d2) <= 0xFF_FFFF * Pow256(29) {
        TargetMax(d2);
      }
      BelowEasiest(d1);
      EasiestTarget();
      TargetMax(d1);
    }
  }

  /** Below the bound a larger difficulty can have a larger target. */
  lemma AntitoneFails()
    ensures var d1 := 65535.0 / 281474976710656.0;
      0.0 < d1 < EASIEST && TargetOf(d1) == 0 < TargetOf(EASIEST)
  {
    hide Pow256;
    TinyDifficultyFails();
    EasiestTarget();
  }

  lemma ThresholdAntitone(d1: real, d2: real)
    requires 0.0 < d1 <= d2
    ensures 0.0 < Threshold(d2) <= Threshold(d1)
    ensures Representable(d1) ==> Representable(d2)
  {
    hide Pow256;
    QuotientAntitone(65535.0 * (Pow256(26) as real), d1, d2);
    QuotientAntitone(65535.0, d1, d2);
  }

  lemma QuotientAntitone(x: real, d1: real, d2: real)
    requires x > 0.0 && 0.0 < d1 <= d2
    ensures 0.0 < x / d2 <= x / d1
  {
    FactorBound(x / d2, x / d1, d2) by {
      assert x / d1 * d1 == x;
      ProductBound(x / d1, x / d1, d1, d2);
    }
  }

  lemma PowStep(a: nat, b: nat)
    requires a < b
    ensures 256 * Pow256(a) <= Pow256(b) && 256.0 * PowReal(a) <= PowReal(b)
  {
    hide PowReal, Pow256;
    PowMonotone(a, b);
    PowRealIs(a);
    PowRealIs(b);
  }

  lemma IntProduct(a: int, b: int, p: int, q: int)
    requires 0 <= a <= b && 0 <= p <= q
    ensures a * p <= b * q
  {
    assert a * p <= b * p;
    assert b * p <= b * q;
  }

  lemma SmallerExponent(m1: real, m2: real, p1: real, p2: real)
    requires 0.0 < m1 < 8388608.0 && m2 >= 32768.0 && 1.0 <= p1 && 256.0 * p1 <= p2
    ensures m1 * p1 < m2 * p2
  {
    ProductBound(32768.0, m2, 256.0 * p1, p2);
    assert m1 * p1 < 8388608.0 * p1;
  }

  /** A target is right for a difficulty: it does not exceed 65535 * 256^26 / difficulty
      and, as long as its mantissa fits three bytes, is less than one below it, or less
      than one part in 2^15. A difficulty that is not positive stands for 1. */
  ghost predicate IsTargetFor(target: int, difficulty: real) {
    var exact := 65535.0 * (Pow256(26) as real) / (if difficulty > 0.0 then difficulty else 1.0);
    && 0 <= target && target as real <= exact
    && (difficulty <= 0.0 ==> target == 65535 * Pow256(26))
    && (difficulty > 0.0 && 65535.0 / difficulty < 281474976710656.0 ==>
      exact - target as real < 1.0 || exact - target as real < exact / 32768.0)
  }

  lemma IsTarget(difficulty: real)
    ensures IsTargetFor(TargetOf(Effective(difficulty)), difficulty)
  {
    hide TargetOf, Pow256;
    var d := Effective(difficulty);
    TargetBelowThreshold(d);
    TargetAccuracy(d);
    TargetOfOne();
  }

  lemma TargetOfOne()
    ensures TargetOf(1.0) == 65535 * Pow256(26)
  {
    hide Pow256;
    assert 65535.0 / 1.0 == 65535.0;
    assert ScaleDown(65535.0, 29) == (65535.0, 29) && Normalized(1.0) == (65535.0, 29);
  }

  // ---- Agreement with the reported difficulty ----

  /** miner_hash_meets_target compares from the most significant byte down. */
  method HashMeetsTarget(hash: seq<Byte>, target: seq<Byte>) returns (r: bool)
    requires |hash| == 32 && |target| == 32
    ensures r <==> Value(hash, 0x100) <= Value(target, 0x100)
  {
    hide Value;
    var i := 31;
    while i >= 0
      invariant -1 <= i <= 31
      invariant forall j :: i < j < 32 ==> hash[j] == target[j]
    {
      if hash[i] < target[i] {
        TopDigitDecides(hash, target, 0x100, i);
        return true;
      }
      if hash[i] > target[i] {
        TopDigitDecides(target, hash, 0x100, i);
        return false;
      }
      i := i - 1;
    }
    assert hash == target;
    return true;
  }

  /** The difficulty of a hash value; a zero hash has infinite difficulty. */
  datatype Difficulty = Infinite | Finite(value: real)

  predicate AtLeast(a: Difficulty, d: real) {
    a.Infinite? || a.value >= d
  }

  lemma NoDigits(s: seq<Byte>)
    ensures Value(s[|s|..], 0x100) == 0
  {
  }

  lemma NextDigit(s: seq<Byte>, i: nat)
    requires i < |s|
    ensures Value(s[i..], 0x100) as real == Value(s[i + 1..], 0x100) as real * 256.0 + s[i] as real
  {
    assert s[i..][1..] == s[i + 1..];
  }

  /** The accumulation loop of miner_hash_difficulty. */
  method HashValue(hash: seq<Byte>) returns (value: real)
    requires |hash| == 32
    ensures value == Value(hash, 0x100) as real
  {
    hide Value;
    value := 0.0;
    NoDigits(hash);
    for i := 32 downto 0
      invariant value == Value(hash[i..], 0x100) as real
    {
      NextDigit(hash, i);
      value := value * 256.0 + hash[i] as real;
    }
    assert hash[0..] == hash;
  }

  /** miner_hash_difficulty. */
  method HashDifficulty(hash: seq<Byte>) returns (r: Difficulty)
    requires |hash| == 32
    ensures r == DifficultyOf(Value(hash, 0x100))
  {
    hide Value, Ratio;
    var value := HashValue(hash);
    if value <= 0.0 {
      return Infinite;
    }
    return Finite(Ratio(value));
  }

  /** Difficulty 1 divided by the hash. */
  function DifficultyOf(hash: int): Difficulty {
    if hash <= 0 then Infinite else Finite(Ratio(hash as real))
  }

  function Ratio(value: real): real
    requires value > 0.0
  {
    26959535291011309493156476344723991336010898738574164086137773096960.0 / value
  }

  lemma DifficultyOne()
    ensures 65535.0 * (Pow256(26) as real) == 26959535291011309493156476344723991336010898738574164086137773096960.0
  {
    assert Pow256(5) == 0x100_0000_0000;
    assert Pow256(10) == 0x100_0000_0000_0000_0000_00 == Pow256(5 + 5);
    assert Pow256(15) == 0x100_0000_0000_0000_0000_0000_0000_0000;
    assert Pow256(20) == 0x100_0000_0000_0000_0000_0000_0000_0000_0000_0000_00;
    assert Pow256(25) == 0x100_0000_0000_0000_0000_0000_0000_0000_0000_0000_0000_0000_0000;
  }

  /** The difficulty from which a hash is sure to meet the target of d. */
  function ClearlyEnough(d: real): real
    requires d > 0.0
  {
    if Threshold(d) < 32768.0 then d else d * 32768.0 / 32767.0
  }

  /** Every hash that meets the target of a difficulty is reported with at least that
      difficulty. The other way round, a rejected hash is below the difficulty up to
      one part in 2^15, and below it outright when the threshold is under 2^15. */
  lemma MeetingHashHasDifficulty(d: real, hash: int)
    requires d > 0.0 && hash >= 0
    ensures hash <= TargetOf(d) ==> AtLeast(DifficultyOf(hash), d)
    ensures hash > TargetOf(d) && Representable(d) ==> !AtLeast(DifficultyOf(hash), ClearlyEnough(d))
  {
    hide Pow256, TargetOf, Representable, DifficultyOf, ClearlyEnough, Threshold;
    TargetBelowThreshold(d);
    TargetAccuracy(d);
    if 0 < hash <= TargetOf(d) {
      BelowThreshold(d, hash);
    }
    if hash == 0 {
      NoHashIsInfinite();
    }
    if hash > TargetOf(d) && Representable(d) {
      AboveThreshold(d, hash, TargetOf(d));
    }
  }

  lemma NoHashIsInfinite()
    ensures DifficultyOf(0) == Infinite
  {
  }

  lemma BelowThreshold(d: real, hash: int)
    requires d > 0.0 && hash > 0 && hash as real <= Threshold(d)
    ensures AtLeast(DifficultyOf(hash), d)
  {
    hide Pow256;
    DifficultyOne();
    var one := 65535.0 * (Pow256(26) as real);
    QuotientBack(one, d);
    RatioAtLeast(one, hash as real, d, Threshold(d));
  }

  lemma AboveThreshold(d: real, hash: int, target: int)
    requires d > 0.0 && hash > target >= 0
    requires Threshold(d) - target as real < MaxReal(1.0, Threshold(d) / 32768.0)
    ensures !AtLeast(DifficultyOf(hash), ClearlyEnough(d))
  {
    hide Pow256;
    DifficultyOne();
    var one, x := 65535.0 * (Pow256(26) as real), Threshold(d);
    QuotientBack(one, d);
    assert hash as real >= target as real + 1.0;
    QuotientAntitone(one, d, d);
    if x < 32768.0 {
      RatioBelow(one, hash as real, d, x);
    } else {
      Stretched(one, d, x);
      RatioBelow(one, hash as real, d * 32768.0 / 32767.0, x * 32767.0 / 32768.0);
    }
  }

  lemma Stretched(one: real, d: real, x: real)
    requires x * d == one
    ensures x * 32767.0 / 32768.0 * (d * 32768.0 / 32767.0) == one
  {
  }

  lemma RatioAtLeast(one: real, h: real, d: real, x: real)
    requires 0.0 < h <= x && d > 0.0 && x * d == one
    ensures one / h >= d
  {
    ProductBound(h, x, d, d);
    assert one / h * h == one;
    FactorBound(d, one / h, h);
  }

  lemma RatioBelow(one: real, h: real, d: real, x: real)
    requires 0.0 < x < h && d > 0.0 && x * d == one
    ensures one / h < d
  {
    PositiveProduct(h - x, d);
    assert one < d * h;
    QuotientBack(one, h);
    FactorBelow(one / h, d, h);
  }

  lemma FactorBelow(a: real, b: real, p: real)
    requires p > 0.0 && a * p < b * p
    ensures a < b
  {
    assert (b - a) * p > 0.0;
  }

  lemma QuotientBack(a: real, b: real)
    requires b > 0.0
    ensures a / b * b == a
  {
  }

  lemma PositiveProduct(a: real, b: real)
    requires a > 0.0 && b > 0.0
    ensures a * b > 0.0
  {
  }
}
