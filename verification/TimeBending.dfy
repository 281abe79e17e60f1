// The time-bended deadline: a cube root and two fixed-point scalings over big integers, with a
// 64-bit result.
module TimeBending {
  import opened Wrappers
  import opened Words

  // 2^21, 2^42, 2^63, 2^84, 2^126: the shifts of the fixed-point formats P = 21 and Q = 42.
  const SHIFT_Q: nat := 0x400_0000_0000
  const SHIFT_3P: nat := 0x8000_0000_0000_0000
  const SHIFT_2Q: nat := 0x10_0000_0000_0000_0000_0000
  const SHIFT_3Q: nat := 0x4000_0000_0000_0000_0000_0000_0000_0000

  // Gamma(4/3) in Q42.
  const GAMMA_FP: nat := 3927365422841

  // ----- cube roots -----

  function Cube(x: nat): nat {
    x * x * x
  }

  ghost predicate IsRoot(r: nat, x: nat) {
    Cube(r) <= x < Cube(r + 1)
  }

  lemma CubeMono(x: nat, y: nat)
    ensures x <= y ==> Cube(x) <= Cube(y)
    ensures Cube(x) < Cube(y) ==> x < y
  {
    if x <= y {
      MulMono(x, y, x);
      MulMono(x, y, y);
      MulMono(x * x, y * y, x);
      MulMono(x, y, y * y);
    } else {
      MulMono(y, x, x);
      MulMono(y, x, y);
      MulMono(y * y, x * x, y);
      MulMono(y, x, x * x);
    }
  }

  lemma CubeGrows(x: nat)
    ensures x <= Cube(x)
  {
    if x > 0 {
      MulMono(1, x, x);
      MulMono(1, x * x, x);
    }
  }

  lemma {:induction false} RootExists(x: nat)
    ensures exists r: nat :: IsRoot(r, x)
  {
    if x == 0 {
      assert IsRoot(0, 0);
    } else {
      RootExists(x - 1);
      var r: nat :| IsRoot(r, x - 1);
      CubeMono(r + 2, r + 1);
      assert IsRoot(r, x) || IsRoot(r + 1, x);
    }
  }

  ghost function Cbrt(x: nat): (r: nat)
    ensures IsRoot(r, x)
  {
    RootExists(x);
    var r: nat :| IsRoot(r, x);
    r
  }

  // Cube roots never decrease; in particular there is only one.
  lemma RootMono(r: nat, x: nat, s: nat, y: nat)
    requires IsRoot(r, x) && IsRoot(s, y) && x <= y
    ensures r <= s
    ensures x == y ==> r == s
  {
    CubeMono(r, s + 1);
    CubeMono(s, r + 1);
  }

  // Doubling finds an upper bound, halving the interval finds the root.
  method IntCubeRoot(x: nat) returns (root: nat)
    ensures Cube(root) <= x < Cube(root + 1)
    ensures root == Cbrt(x)
  {
    hide Cube, Cbrt;
    var hi: nat := 1;
    SmallCubes();
    while Cube(hi) < x
      invariant hi == 1 || Cube(hi / 2) < x
      invariant hi > 0
      decreases x - hi
    {
      CubeGrows(hi);
      hi := hi * 2;
    }
    var lo: nat := hi / 2;
    CubeMono(hi, hi + 1);
    CubeStep(hi);
    while lo < hi
      invariant lo <= hi
      invariant Cube(lo) <= x < Cube(hi + 1)
    {
      var mid := (lo + hi + 1) / 2;
      if Cube(mid) <= x {
        lo := mid;
      } else {
        hi := mid - 1;
      }
    }
    root := lo;
    RootMono(root, x, Cbrt(x), x);
  }

  lemma SmallCubes()
    ensures Cube(0) == 0 && Cube(1) == 1
  {
  }

  lemma CubeStep(x: nat)
    ensures Cube(x) < Cube(x + 1)
  {
  }

  // ----- rounding -----

  // Rounding half up: the result is the nearest integer to the quotient.
  function RoundedDiv(n: nat, d: nat): (r: nat)
    requires d > 0
    ensures r * d <= n + d / 2 < r * d + d
  {
    var m := n + d / 2;
    assert m == m / d * d + m % d;
    m / d
  }

  lemma QuotientMono(x: nat, y: nat, d: nat, e: nat)
    requires x <= y && 0 < e <= d
    ensures x / d <= y / e
  {
    DivParts(x, d);
    DivParts(y, e);
    QuotientOrder(x, y, d, e, x / d, y / e, x % d, y % e);
  }

  lemma QuotientOrder(x: nat, y: nat, d: nat, e: nat, q: nat, r: nat, m: nat, n: nat)
    requires x <= y && 0 < e <= d && x == q * d + m && y == r * e + n && n < e
    ensures q <= r
  {
    MulMono(e, d, q);
    MulMono(r, q, e);
  }

  lemma QuotientBound(x: nat, d: nat, b: nat)
    requires d > 0 && x < b * d
    ensures x / d < b
  {
    assert x == x / d * d + x % d;
    MulMono(b, x / d, d);
  }

  lemma RoundedMono(x: nat, y: nat, s: nat, d: nat)
    requires x <= y && d > 0
    ensures RoundedDiv(x * s, d) <= RoundedDiv(y * s, d)
  {
    MulMono(x, y, s);
    QuotientMono(x * s + d / 2, y * s + d / 2, d, d);
  }

  // ----- the scale -----

  ghost function Denominator(blockTime: nat): nat {
    Cbrt(blockTime * SHIFT_3Q) * GAMMA_FP / SHIFT_Q
  }

  // The denominator of the scale is zero for block time zero only.
  lemma DenominatorZero(blockTime: nat)
    ensures blockTime == 0 ==> Denominator(blockTime) == 0
    ensures blockTime > 0 ==> Denominator(blockTime) >= GAMMA_FP
  {
    hide Cbrt;
    var x := blockTime * SHIFT_3Q;
    if blockTime == 0 {
      assert IsRoot(0, 0);
      RootMono(0, 0, Cbrt(x), x);
    } else {
      assert IsRoot(SHIFT_Q, SHIFT_3Q);
      MulMono(1, blockTime, SHIFT_3Q);
      RootMono(SHIFT_Q, SHIFT_3Q, Cbrt(x), x);
      MulMono(SHIFT_Q, Cbrt(x), GAMMA_FP);
      QuotientMono(SHIFT_Q * GAMMA_FP, Cbrt(x) * GAMMA_FP, SHIFT_Q, SHIFT_Q);
      DivModUnique(SHIFT_Q * GAMMA_FP, SHIFT_Q, GAMMA_FP, 0);
    }
  }

  ghost function Scale(blockTime: nat): nat
    requires blockTime > 0
  {
    DenominatorZero(blockTime);
    RoundedDiv(blockTime * SHIFT_2Q, Denominator(blockTime))
  }

  // The scale without division or root: r is the cube root of the block time, in Q42, rounded
  // down, d is r times gamma, rounded down, and s is the nearest number to block time over d.
  ghost predicate ScaleBy(s: nat, blockTime: nat, r: nat, d: nat) {
    && d > 0
    && Cube(r) <= blockTime * SHIFT_3Q < Cube(r + 1)
    && d * SHIFT_Q <= r * GAMMA_FP < d * SHIFT_Q + SHIFT_Q
    && s * d <= blockTime * SHIFT_2Q + d / 2 < s * d + d
  }

  ghost predicate IsScale(s: nat, blockTime: nat) {
    exists r: nat, d: nat :: ScaleBy(s, blockTime, r, d)
  }

  lemma ScaleIs(s: nat, blockTime: nat)
    ensures IsScale(s, blockTime) <==> blockTime > 0 && s == Scale(blockTime)
  {
    hide Cbrt, Cube, Denominator, Scale;
    if blockTime == 0 {
      NoScale(s);
      return;
    }
    ScaleParts(blockTime);
    assert ScaleBy(Scale(blockTime), blockTime, Cbrt(blockTime * SHIFT_3Q), Denominator(blockTime));
    if IsScale(s, blockTime) {
      var r: nat, d: nat :| ScaleBy(s, blockTime, r, d);
      RootMono(r, blockTime * SHIFT_3Q, Cbrt(blockTime * SHIFT_3Q), blockTime * SHIFT_3Q);
      OneQuotient(r * GAMMA_FP, SHIFT_Q, d, Denominator(blockTime));
      OneQuotient(blockTime * SHIFT_2Q + d / 2, d, s, Scale(blockTime));
    }
  }

  lemma NoScale(s: nat)
    ensures !IsScale(s, 0)
  {
    forall r: nat, d: nat
      ensures !ScaleBy(s, 0, r, d)
    {
      CubeGrows(r);
    }
  }

  lemma OneQuotient(n: nat, d: nat, q: nat, p: nat)
    requires q * d <= n < q * d + d && p * d <= n < p * d + d
    ensures q == p
  {
    MulMono(q, p, d);
    MulMono(p, q, d);
  }

  // None where the division by zero stops the program.
  method CalculateQScale(blockTime: U64) returns (r: Option<nat>)
    ensures r.None? <==> blockTime == 0
    ensures r.Some? ==> r.value == Scale(blockTime) && IsScale(r.value, blockTime)
  {
    hide Cbrt, RoundedDiv, IsScale;
    if blockTime > 0 {
      ScaleIs(Scale(blockTime), blockTime);
    }
    var blockScaled := blockTime * SHIFT_3Q;
    var tCbrt := IntCubeRoot(blockScaled);
    var numerator := blockTime * SHIFT_2Q;
    var denominator := tCbrt * GAMMA_FP / SHIFT_Q;
    DenominatorZero(blockTime);
    if denominator == 0 {
      return None;
    }
    r := Some(RoundedDiv(numerator, denominator));
  }

  // ----- the deadline -----

  ghost function Deadline(rawQuality: nat, baseTarget: nat, blockTime: nat): nat
    requires baseTarget > 0 && blockTime > 0
  {
    DeadlineAt(rawQuality, baseTarget, Scale(blockTime))
  }

  ghost function DeadlineAt(rawQuality: nat, baseTarget: nat, scale: nat): nat
    requires baseTarget > 0
  {
    RoundedDiv(Cbrt(rawQuality * SHIFT_3P / baseTarget) * scale, SHIFT_3P)
  }

  // The deadline without division or root: r is the cube root of quality over base target, in
  // Q21, rounded down, and d is the nearest number to r times the scale.
  ghost predicate DeadlineBy(d: nat, rawQuality: nat, baseTarget: nat, scale: nat, r: nat) {
    && Cube(r) * baseTarget <= rawQuality * SHIFT_3P < Cube(r + 1) * baseTarget
    && d * SHIFT_3P <= r * scale + SHIFT_3P / 2 < d * SHIFT_3P + SHIFT_3P
  }

  ghost predicate IsDeadline(d: nat, rawQuality: nat, baseTarget: nat, scale: nat) {
    exists r: nat :: DeadlineBy(d, rawQuality, baseTarget, scale, r)
  }

  lemma DeadlineIs(d: nat, rawQuality: nat, baseTarget: nat, blockTime: nat)
    requires baseTarget > 0 && blockTime > 0
    ensures IsDeadline(d, rawQuality, baseTarget, Scale(blockTime))
       <==> d == Deadline(rawQuality, baseTarget, blockTime)
  {
    hide Cbrt, Cube, Scale, RoundedDiv;
    var n, s := rawQuality * SHIFT_3P, Scale(blockTime);
    var root := Cbrt(n / baseTarget);
    RootOfQuotient(n, baseTarget, root);
    assert DeadlineBy(Deadline(rawQuality, baseTarget, blockTime), rawQuality, baseTarget, s, root);
    if IsDeadline(d, rawQuality, baseTarget, s) {
      var r: nat :| DeadlineBy(d, rawQuality, baseTarget, s, r);
      RootOfQuotient(n, baseTarget, r);
      RootMono(r, n / baseTarget, root, n / baseTarget);
      OneQuotient(r * s + SHIFT_3P / 2, SHIFT_3P, d, Deadline(rawQuality, baseTarget, blockTime));
    }
  }

  // Whatever scale and deadline the products allow is the one computed.
  lemma OnlyDeadline(rawQuality: nat, baseTarget: nat, blockTime: nat, s: nat, d: nat)
    requires baseTarget > 0 && IsScale(s, blockTime) && IsDeadline(d, rawQuality, baseTarget, s)
    ensures blockTime > 0 && d == Deadline(rawQuality, baseTarget, blockTime)
  {
    hide IsScale, IsDeadline, Scale, Deadline;
    ScaleIs(s, blockTime);
    DeadlineIs(d, rawQuality, baseTarget, blockTime);
  }

  lemma RootOfQuotient(n: nat, d: nat, r: nat)
    requires d > 0
    ensures IsRoot(r, n / d) <==> Cube(r) * d <= n < Cube(r + 1) * d
  {
    hide Cube;
    DivParts(n, d);
    MulMono(Cube(r), n / d, d);
    MulMono(n / d, Cube(r), d);
    MulMono(Cube(r + 1), n / d, d);
    MulMono(n / d, Cube(r + 1), d);
  }

  method CalculateTimeBendedDeadline(rawQuality: U64, baseTarget: U64, blockTime: U64) returns (r: Option<U64>)
    ensures r.None? <==> rawQuality > 0 && (baseTarget == 0 || blockTime == 0)
    ensures rawQuality == 0 ==> r == Some(0)
    ensures baseTarget > 0 && blockTime > 0 ==> r == Some(Mod64(Deadline(rawQuality, baseTarget, blockTime)))
    ensures forall s: nat, d: nat ::
      baseTarget > 0 && IsScale(s, blockTime) && IsDeadline(d, rawQuality, baseTarget, s) ==> r == Some(Mod64(d))
    ensures baseTarget > 0 && 0 < blockTime <= LONGEST_BLOCK ==> r == Some(Deadline(rawQuality, baseTarget, blockTime))
  {
    hide Cbrt, RoundedDiv, Scale, Mod64, IsScale, IsDeadline;
    forall s: nat, d: nat | baseTarget > 0 && IsScale(s, blockTime) && IsDeadline(d, rawQuality, baseTarget, s)
      ensures blockTime > 0 && d == Deadline(rawQuality, baseTarget, blockTime)
    {
      OnlyDeadline(rawQuality, baseTarget, blockTime, s, d);
    }
    if baseTarget > 0 && blockTime > 0 {
      if rawQuality == 0 {
        DeadlineOfZero(baseTarget, blockTime);
      }
      if blockTime <= LONGEST_BLOCK {
        DeadlineFits(rawQuality, baseTarget, blockTime);
        LowDigitOf(Deadline(rawQuality, baseTarget, blockTime));
      }
    }
    if rawQuality == 0 {
      LowDigitOf(0);
      return Some(0);
    }
    var scaleQ := CalculateQScale(blockTime);
    if scaleQ.None? || baseTarget == 0 {
      return None;
    }
    var v := rawQuality * SHIFT_3P / baseTarget;
    var root := IntCubeRoot(v);
    var rounded := RoundedDiv(root * scaleQ.value, SHIFT_3P);
    r := Some(Mod64(rounded));
  }

  lemma LowDigitOf(x: nat)
    ensures x < U64_RANGE ==> Mod64(x) == x
  {
  }

  lemma DeadlineOfZero(baseTarget: nat, blockTime: nat)
    requires baseTarget > 0 && blockTime > 0
    ensures Deadline(0, baseTarget, blockTime) == 0
  {
    hide Cbrt, Scale;
    DivModUnique(0, baseTarget, 0, 0);
    assert IsRoot(0, 0);
    RootMono(0, 0, Cbrt(0), 0);
    assert 0 * Scale(blockTime) == 0;
  }

  // A worse quality never gets an earlier deadline, a higher base target never a later one.
  lemma DeadlineMonotone(q: nat, p: nat, base: nat, lower: nat, blockTime: nat)
    requires q <= p && 0 < lower <= base && blockTime > 0
    ensures Deadline(q, base, blockTime) <= Deadline(p, lower, blockTime)
  {
    hide DeadlineAt, Scale;
    MonotoneAt(q, p, base, lower, Scale(blockTime));
  }

  lemma MonotoneAt(q: nat, p: nat, base: nat, lower: nat, scale: nat)
    requires q <= p && 0 < lower <= base
    ensures DeadlineAt(q, base, scale) <= DeadlineAt(p, lower, scale)
  {
    hide Cbrt, RoundedDiv;
    var v, w := q * SHIFT_3P / base, p * SHIFT_3P / lower;
    QuotientMono(q * SHIFT_3P, p * SHIFT_3P, base, lower);
    RootMono(Cbrt(v), v, Cbrt(w), w);
    RoundedMono(Cbrt(v), Cbrt(w), scale, SHIFT_3P);
  }

  // ----- where the deadline fits 64 bits -----

  // The largest scale, and the longest block time, at which the deadline of every quality fits.
  const SCALE_LIMIT: nat := 0x1965fea53d7170926baedf
  const LONGEST_BLOCK: nat := 0xd8062b7e664fb45a

  // The root of the longest block time, in Q42, and of the largest quality, in Q21.
  const LIMIT_ROOT: nat := 0x98656b4f33138c4a
  const WORST_ROOT: nat := 0x50a28be635c

  // The largest quality against base target 1 decides for all.
  lemma WorstDeadline(scale: nat)
    ensures DeadlineAt(MAX_U64, 1, scale) < U64_RANGE <==> scale <= SCALE_LIMIT
  {
    hide Cbrt;
    var v := MAX_U64 * SHIFT_3P;
    assert IsRoot(WORST_ROOT, v);
    RootMono(WORST_ROOT, v, Cbrt(v), v);
    DivModUnique(v, 1, v, 0);
    MulMono(scale, SCALE_LIMIT, WORST_ROOT);
    MulMono(SCALE_LIMIT, scale, WORST_ROOT);
    if scale <= SCALE_LIMIT {
      QuotientBound(WORST_ROOT * scale + SHIFT_3P / 2, SHIFT_3P, U64_RANGE);
    } else {
      DivParts(WORST_ROOT * scale + SHIFT_3P / 2, SHIFT_3P);
    }
  }

  // The deadlines at a scale fit 64 bits, all of them, exactly up to a limit of the scale.
  lemma FitsByScale(scale: nat)
    ensures AllFitAt(scale) <==> scale <= SCALE_LIMIT
  {
    hide DeadlineAt;
    WorstDeadline(scale);
    if scale <= SCALE_LIMIT {
      forall q: U64, base: nat | base > 0
        ensures DeadlineAt(q, base, scale) < U64_RANGE
      {
        MonotoneAt(q, MAX_U64, base, 1, scale);
      }
    }
  }

  ghost predicate AllFitAt(scale: nat) {
    forall q: U64, base: nat :: base > 0 ==> DeadlineAt(q, base, scale) < U64_RANGE
  }

  ghost predicate AllFit(blockTime: nat)
    requires blockTime > 0
  {
    forall q: U64, base: nat :: base > 0 ==> Deadline(q, base, blockTime) < U64_RANGE
  }

  lemma AllFitIs(blockTime: nat)
    requires blockTime > 0
    ensures AllFit(blockTime) <==> AllFitAt(Scale(blockTime))
  {
    hide DeadlineAt, Scale;
    var s := Scale(blockTime);
    assert forall q: U64, base: nat :: base > 0 ==> Deadline(q, base, blockTime) == DeadlineAt(q, base, s);
  }

  // What ties block time, root, denominator and scale together.
  lemma ScaleParts(t: nat)
    requires t > 0
    ensures var r, d, s := Cbrt(t * SHIFT_3Q), Denominator(t), Scale(t);
      && r >= SHIFT_Q && d > 0
      && SHIFT_Q * d <= r * GAMMA_FP < SHIFT_Q * d + SHIFT_Q
      && s * d <= t * SHIFT_2Q + d / 2 < s * d + d
      && Cube(r) <= t * SHIFT_3Q < Cube(r + 1)
  {
    hide Cbrt, Cube;
    DenominatorZero(t);
    DivParts(Cbrt(t * SHIFT_3Q) * GAMMA_FP, SHIFT_Q);
    assert Cube(SHIFT_Q) == SHIFT_3Q by { CubeOfQ(); }
    CubeMono(SHIFT_Q, Cbrt(t * SHIFT_3Q) + 1);
    CubeMono(Cbrt(t * SHIFT_3Q) + 1, SHIFT_Q);
  }

  lemma CubeOfQ()
    ensures Cube(SHIFT_Q) == SHIFT_3Q
  {
  }

  lemma ScaleCompares(n: nat, d: nat, s: nat, limit: nat)
    requires d > 0 && s * d <= n + d / 2 < s * d + d
    ensures s <= limit <==> n + d / 2 < limit * d + d
  {
    MulMono(s, limit, d);
    MulMono(limit, s, d);
  }

  // Roots from low to high have small scales: there the cube is below its chord.
  lemma SmallRoots(n: nat, r: nat, d: nat, low: nat, high: nat, g: nat, q: nat, limit: nat)
    requires low <= r <= high && d > 0 && q > 0 && low * g >= q
    requires r * g < q * d + q && n * q < Cube(r + 1)
    requires var c := (high + 1) * (high + 1);
      2 * c <= (2 * limit + 1) * g && 2 * (low + 1) * c <= (2 * limit + 1) * (low * g - q + 1)
    ensures n + d / 2 < limit * d + d
  {
    var c, e := (high + 1) * (high + 1), 2 * limit + 1;
    CubeBelow(r + 1, high + 1);
    Chord(r, low, c, e, g, q);
    MulMono(low, r, g);
    MulMono(r * g - q + 1, q * d, e);
    hide Cube;
    BelowMultiple(n, d, q, e, Cube(r + 1), (r + 1) * c, r * g - q + 1);
    OddMultiple(d, limit);
  }

  lemma OddMultiple(d: nat, limit: nat)
    ensures d * (2 * limit + 1) == 2 * (limit * d) + d
  {
  }

  lemma BelowMultiple(n: nat, d: nat, q: nat, e: nat, cube: nat, chord: nat, m: nat)
    requires n * q < cube <= chord && 2 * chord <= e * m && m * e <= q * d * e
    ensures 2 * n < d * e
  {
    Regroup(n, d, q, e, m);
    MulMono(d * e, 2 * n, q);
  }

  lemma Regroup(n: nat, d: nat, q: nat, e: nat, m: nat)
    ensures 2 * n * q == 2 * (n * q) && q * d * e == d * e * q && e * m == m * e
  {
  }

  lemma CubeBelow(x: nat, y: nat)
    requires x <= y
    ensures Cube(x) <= x * (y * y)
  {
    MulMono(x, y, x);
    MulMono(x, y, y);
    MulMono(x * x, y * y, x);
  }

  lemma Chord(r: nat, low: nat, c: nat, e: nat, g: nat, q: nat)
    requires low <= r && q <= low * g
    requires 2 * c <= e * g && 2 * (low + 1) * c <= e * (low * g - q + 1)
    ensures 2 * ((r + 1) * c) <= e * (r * g - q + 1)
  {
    var x := r - low;
    MulMono(2 * c, e * g, x);
    assert 2 * ((low + x + 1) * c) == 2 * (low + 1) * c + 2 * c * x;
    assert e * ((low + x) * g - q + 1) == e * (low * g - q + 1) + e * g * x by {
      assert (low + x) * g == low * g + x * g;
      assert e * (x * g) == e * g * x;
    }
  }

  // Roots beyond the limit have large ones.
  lemma LargeRoots(t: nat, r: nat, d: nat)
    requires r >= LIMIT_ROOT + 2 && d > 0
    requires SHIFT_Q * d <= r * GAMMA_FP && Cube(r) <= t * SHIFT_3Q
    ensures t * SHIFT_2Q + d / 2 >= SCALE_LIMIT * d + d
  {
    var low, e := LIMIT_ROOT + 2, (2 * SCALE_LIMIT + 1) * GAMMA_FP;
    MulMono(low, r, low);
    MulMono(low, r, r);
    MulMono(low * low, r * r, r);
    MulMono(1, 2 * low * low - e, r);
    assert 2 * (low * low) * r - e * r == (2 * low * low - e) * r;
    assert 2 * Cube(r) >= e * r + r;
  }

  lemma LimitRoots()
    ensures Cube(LIMIT_ROOT) <= LONGEST_BLOCK * SHIFT_3Q < Cube(LIMIT_ROOT + 1)
  {
  }

  // The cubes of the few roots at the limit.
  function NearCube(k: nat): nat {
    if k == 0 then 0x36018adf9993ed139235ab84f55aea6ccbc0d86efcfeb200
    else if k == 1 then 0x36018adf9993ed14a25f7258a7bd5e0dddf1c9d504e5d399
    else if k == 2 then 0x36018adf9993ed15b289392c5a1fd1b282833f163f423ee8
    else if k == 3 then 0x36018adf9993ed16c2b300000c82455ab9753832ac13f3f3
    else 0x36018adf9993ed17d2dcc6d3bee4b90682c7b52a4b5af2c0
  }

  lemma NearCubes()
    ensures Cube(LIMIT_ROOT - 2) == NearCube(0) && Cube(LIMIT_ROOT - 1) == NearCube(1)
    ensures Cube(LIMIT_ROOT) == NearCube(2) && Cube(LIMIT_ROOT + 1) == NearCube(3)
    ensures Cube(LIMIT_ROOT + 2) == NearCube(4)
  {
  }

  // These roots one by one.
  lemma NearRoots(t: nat, k: nat, d: nat)
    requires k < 4 && NearCube(k) <= t * SHIFT_3Q < NearCube(k + 1)
    requires SHIFT_Q * d <= (LIMIT_ROOT - 2 + k) * GAMMA_FP < SHIFT_Q * d + SHIFT_Q
    ensures t * SHIFT_2Q + d / 2 < SCALE_LIMIT * d + d <==> t <= LONGEST_BLOCK
  {
    if k == 0 {
      assert d == 0x88162f1944f34f16;
    } else if k == 1 {
      assert d == 0x88162f1944f34f16;
    } else if k == 2 {
      assert d == 0x88162f1944f34f17;
    } else {
      assert d == 0x88162f1944f34f18;
    }
  }

  // Every deadline of a block time fits 64 bits, so that taking the low digit loses nothing,
  // if and only if the block time is at most about 0.84 times 2^64 seconds.
  lemma FitsExactly(t: nat)
    requires t > 0
    ensures AllFit(t) <==> t <= LONGEST_BLOCK
  {
    hide Cbrt, Cube, Scale, Denominator, AllFit, AllFitAt;
    AllFitIs(t);
    FitsByScale(Scale(t));
    ScaleParts(t);
    var n, r, d := t * SHIFT_2Q, Cbrt(t * SHIFT_3Q), Denominator(t);
    ScaleCompares(n, d, Scale(t), SCALE_LIMIT);
    LimitRoots();
    CubeMono(r, LIMIT_ROOT);
    CubeMono(LIMIT_ROOT, r);
    CubeMono(LIMIT_ROOT + 1, r);
    CubeMono(r + 1, LIMIT_ROOT - 1);
    CubeMono(r + 1, LIMIT_ROOT);
    if r <= LIMIT_ROOT / 2 {
      SmallRoots(n, r, d, SHIFT_Q, LIMIT_ROOT / 2, GAMMA_FP, SHIFT_Q, SCALE_LIMIT);
    } else if r <= LIMIT_ROOT - 8 {
      SmallRoots(n, r, d, LIMIT_ROOT / 2, LIMIT_ROOT - 8, GAMMA_FP, SHIFT_Q, SCALE_LIMIT);
    } else if r <= LIMIT_ROOT - 3 {
      SmallRoots(n, r, d, LIMIT_ROOT - 8, LIMIT_ROOT - 3, GAMMA_FP, SHIFT_Q, SCALE_LIMIT);
    } else if r >= LIMIT_ROOT + 2 {
      LargeRoots(t, r, d);
    } else {
      NearCubes();
      NearRoots(t, r + 2 - LIMIT_ROOT, d);
    }
  }

  lemma DeadlineFits(rawQuality: nat, baseTarget: nat, blockTime: nat)
    requires rawQuality < U64_RANGE && baseTarget > 0 && 0 < blockTime <= LONGEST_BLOCK
    ensures Deadline(rawQuality, baseTarget, blockTime) < U64_RANGE
  {
    hide Deadline;
    FitsExactly(blockTime);
  }

  // At the far end of 64 bits it does not: the low digit is then an early deadline.
  lemma HugeBlockTimeWraps()
    ensures Deadline(U64_RANGE - 1, 1, U64_RANGE - 1) >= U64_RANGE
    ensures Mod64(Deadline(U64_RANGE - 1, 1, U64_RANGE - 1)) < U64_RANGE / 8
  {
    hide Cbrt;
    var t := U64_RANGE - 1;
    assert IsRoot(0xa14517cc6b945710, t * SHIFT_3Q);
    RootMono(0xa14517cc6b945710, t * SHIFT_3Q, Cbrt(t * SHIFT_3Q), t * SHIFT_3Q);
    assert Denominator(t) == 0x9002bdfbf254f770;
    assert IsRoot(0x50a28be635c, t * SHIFT_3P);
    RootMono(0x50a28be635c, t * SHIFT_3P, Cbrt(t * SHIFT_3P), t * SHIFT_3P);
    assert Scale(t) == 0x1c713c75380076f99f145c;
    assert Deadline(t, 1, t) == 0x11eae42fe66ca546f;
  }
}
