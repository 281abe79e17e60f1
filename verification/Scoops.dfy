// Scoops at a compression level: level c folds 2^c uncompressed nonces by XOR, with scoop and
// nonce exchanged in every odd one. The definitions are stated for any source of uncompressed
// scoops; RawOf supplies the plot nonces.
module Scoops {
  import opened Words
  import opened Layout

  type Scoop = s: seq<Word> | |s| == SCOOP_WORDS witness seq(SCOOP_WORDS, _ => 0)

  // Scoop s of uncompressed nonce n.
  type Raw = (nat, nat) -> Scoop

  function ZeroScoop(): Scoop { seq(SCOOP_WORDS, _ => 0) }

  function XorScoop(x: Scoop, y: Scoop): Scoop {
    seq(SCOOP_WORDS, i requires 0 <= i < SCOOP_WORDS => Xor(x[i], y[i]))
  }

  lemma XorScoopAssoc(x: Scoop, y: Scoop, z: Scoop)
    ensures XorScoop(XorScoop(x, y), z) == XorScoop(x, XorScoop(y, z))
  {
    hide Xor;
    forall i | 0 <= i < SCOOP_WORDS
      ensures Xor(Xor(x[i], y[i]), z[i]) == Xor(x[i], Xor(y[i], z[i]))
    {
      XorAssoc(x[i], y[i], z[i]);
    }
  }

  lemma XorScoopComm(x: Scoop, y: Scoop)
    ensures XorScoop(x, y) == XorScoop(y, x)
  {
    hide Xor;
    forall i | 0 <= i < SCOOP_WORDS
      ensures Xor(x[i], y[i]) == Xor(y[i], x[i])
    {
      XorComm(x[i], y[i]);
    }
  }

  lemma XorScoopZero(x: Scoop)
    ensures XorScoop(ZeroScoop(), x) == x && XorScoop(x, ZeroScoop()) == x && XorScoop(x, x) == ZeroScoop()
  {
    hide Xor;
    forall i | 0 <= i < SCOOP_WORDS
      ensures Xor(0, x[i]) == x[i] && Xor(x[i], 0) == x[i] && Xor(x[i], x[i]) == 0
    {
      XorZero(x[i]);
    }
  }

  // ----- the definition -----

  datatype Unit = Unit(nonce: nat, scoop: nat)

  // Work unit i of count for the given scoop, warp and nonce in warp.
  function UnitOf(scoop: nat, warp: nat, nonceInWarp: nat, count: nat, i: nat): Unit {
    var warpX := count * warp + i;
    if i % 2 == 0 then Unit(warpX * NUM_SCOOPS + nonceInWarp, scoop)
    else Unit(warpX * NUM_SCOOPS + scoop, nonceInWarp)
  }

  function XorUnits(raw: Raw, scoop: nat, warp: nat, nonceInWarp: nat, count: nat, n: nat): Scoop
    decreases n, count
  {
    if n == 0 then ZeroScoop()
    else
      var u := UnitOf(scoop, warp, nonceInWarp, count, n - 1);
      XorScoop(XorUnits(raw, scoop, warp, nonceInWarp, count, n - 1), raw(u.nonce, u.scoop))
  }

  function AtLevel(raw: Raw, scoop: nat, nonce: nat, c: nat): Scoop {
    XorUnits(raw, scoop, nonce / NUM_SCOOPS, nonce % NUM_SCOOPS, Pow2(c), Pow2(c))
  }

  // ----- the level-up law -----

  // The unit that uncompressed warp v contributes at every level above 0.
  function WarpUnit(scoop: nat, nonceInWarp: nat, v: nat): Unit {
    if v % 2 == 0 then Unit(v * NUM_SCOOPS + nonceInWarp, scoop) else Unit(v * NUM_SCOOPS + scoop, nonceInWarp)
  }

  function XorWarps(raw: Raw, scoop: nat, nonceInWarp: nat, lo: nat, n: nat): Scoop
    decreases n, lo
  {
    if n == 0 then ZeroScoop()
    else
      var u := WarpUnit(scoop, nonceInWarp, lo + n - 1);
      XorScoop(XorWarps(raw, scoop, nonceInWarp, lo, n - 1), raw(u.nonce, u.scoop))
  }

  lemma {:induction false} XorWarpsSplit(raw: Raw, scoop: nat, nonceInWarp: nat, lo: nat, n: nat, m: nat)
    ensures XorWarps(raw, scoop, nonceInWarp, lo, n + m)
         == XorScoop(XorWarps(raw, scoop, nonceInWarp, lo, n), XorWarps(raw, scoop, nonceInWarp, lo + n, m))
    decreases m
  {
    hide XorScoop;
    var x := XorWarps(raw, scoop, nonceInWarp, lo, n);
    if m == 0 {
      XorScoopZero(x);
    } else {
      XorWarpsSplit(raw, scoop, nonceInWarp, lo, n, m - 1);
      var u := WarpUnit(scoop, nonceInWarp, lo + n + m - 1);
      XorScoopAssoc(x, XorWarps(raw, scoop, nonceInWarp, lo + n, m - 1), raw(u.nonce, u.scoop));
    }
  }

  // Parity of the unit number and of the warp agree exactly when the count is even.
  lemma {:induction false} UnitsAreWarps(raw: Raw, scoop: nat, warp: nat, nonceInWarp: nat, count: nat, n: nat)
    requires count % 2 == 0
    ensures XorUnits(raw, scoop, warp, nonceInWarp, count, n) == XorWarps(raw, scoop, nonceInWarp, count * warp, n)
    decreases n
  {
    hide XorScoop;
    if n > 0 {
      UnitsAreWarps(raw, scoop, warp, nonceInWarp, count, n - 1);
      EvenMultiple(count, warp, n - 1);
    }
  }

  lemma EvenMultiple(count: nat, warp: nat, i: nat)
    requires count % 2 == 0
    ensures (count * warp + i) % 2 == i % 2
  {
    var h := count / 2;
    assert count * warp == 2 * (h * warp);
  }

  lemma AtLevelIsWarps(raw: Raw, scoop: nat, warp: nat, nonceInWarp: nat, c: nat)
    requires c >= 1 && nonceInWarp < NUM_SCOOPS
    ensures AtLevel(raw, scoop, warp * NUM_SCOOPS + nonceInWarp, c)
         == XorWarps(raw, scoop, nonceInWarp, Pow2(c) * warp, Pow2(c))
  {
    DivModUnique(warp * NUM_SCOOPS + nonceInWarp, NUM_SCOOPS, warp, nonceInWarp);
    UnitsAreWarps(raw, scoop, warp, nonceInWarp, Pow2(c), Pow2(c));
  }

  // Two neighbouring warps of level c, XORed, are one warp of level c + 1.
  lemma LevelUp(raw: Raw, scoop: nat, warp: nat, nonceInWarp: nat, c: nat)
    requires c >= 1 && nonceInWarp < NUM_SCOOPS
    ensures XorScoop(AtLevel(raw, scoop, 2 * warp * NUM_SCOOPS + nonceInWarp, c),
                     AtLevel(raw, scoop, (2 * warp + 1) * NUM_SCOOPS + nonceInWarp, c))
         == AtLevel(raw, scoop, warp * NUM_SCOOPS + nonceInWarp, c + 1)
  {
    hide XorWarps, XorScoop, AtLevel;
    var k := Pow2(c);
    AtLevelIsWarps(raw, scoop, 2 * warp, nonceInWarp, c);
    AtLevelIsWarps(raw, scoop, 2 * warp + 1, nonceInWarp, c);
    AtLevelIsWarps(raw, scoop, warp, nonceInWarp, c + 1);
    XorWarpsSplit(raw, scoop, nonceInWarp, k * (2 * warp), k, k);
    assert k * (2 * warp) + k == k * (2 * warp + 1) && 2 * k * warp == k * (2 * warp);
  }

  // A plot whose only non-zero scoops are those of nonce k.
  function Spike(k: nat, n: nat): Scoop {
    if n == k then seq(SCOOP_WORDS, _ => 1) else ZeroScoop()
  }

  // At level 1 the odd unit exchanges scoop and nonce.
  lemma LevelZeroPair(raw: Raw, scoop: nat, warp: nat, nonceInWarp: nat)
    requires nonceInWarp < NUM_SCOOPS
    ensures var even, odd := 2 * warp * NUM_SCOOPS, (2 * warp + 1) * NUM_SCOOPS;
      && AtLevel(raw, scoop, even + nonceInWarp, 0) == raw(even + nonceInWarp, scoop)
      && AtLevel(raw, scoop, odd + nonceInWarp, 0) == raw(odd + nonceInWarp, scoop)
      && AtLevel(raw, scoop, warp * NUM_SCOOPS + nonceInWarp, 1)
         == XorScoop(raw(even + nonceInWarp, scoop), raw(odd + scoop, nonceInWarp))
  {
    hide XorScoop;
    DivModUnique(2 * warp * NUM_SCOOPS + nonceInWarp, NUM_SCOOPS, 2 * warp, nonceInWarp);
    DivModUnique((2 * warp + 1) * NUM_SCOOPS + nonceInWarp, NUM_SCOOPS, 2 * warp + 1, nonceInWarp);
    DivModUnique(warp * NUM_SCOOPS + nonceInWarp, NUM_SCOOPS, warp, nonceInWarp);
    XorScoopZero(raw(2 * warp * NUM_SCOOPS + nonceInWarp, scoop));
    XorScoopZero(raw((2 * warp + 1) * NUM_SCOOPS + nonceInWarp, scoop));
    assert Pow2(0) == 1 && Pow2(1) == 2;
    assert XorUnits(raw, scoop, warp, nonceInWarp, 2, 1) == raw(2 * warp * NUM_SCOOPS + nonceInWarp, scoop);
  }

  // The XOR of n consecutive warps of level c.
  function FoldWarps(raw: Raw, scoop: nat, nonceInWarp: nat, c: nat, lo: nat, n: nat): Scoop
    decreases n, lo
  {
    if n == 0 then ZeroScoop()
    else XorScoop(FoldWarps(raw, scoop, nonceInWarp, c, lo, n - 1),
                  AtLevel(raw, scoop, (lo + n - 1) * NUM_SCOOPS + nonceInWarp, c))
  }

  lemma {:induction false} FoldIsWarps(raw: Raw, scoop: nat, nonceInWarp: nat, c: nat, lo: nat, n: nat)
    requires c >= 1 && nonceInWarp < NUM_SCOOPS
    ensures FoldWarps(raw, scoop, nonceInWarp, c, lo, n) == XorWarps(raw, scoop, nonceInWarp, Pow2(c) * lo, Pow2(c) * n)
    decreases n
  {
    hide XorScoop, AtLevel, XorWarps, Pow2;
    var k := Pow2(c);
    if n == 0 {
      NoWarps(raw, scoop, nonceInWarp, k * lo);
    } else {
      FoldIsWarps(raw, scoop, nonceInWarp, c, lo, n - 1);
      AtLevelIsWarps(raw, scoop, lo + n - 1, nonceInWarp, c);
      XorWarpsSplit(raw, scoop, nonceInWarp, k * lo, k * (n - 1), k);
      Distribute(k, lo, n - 1);
    }
  }

  lemma NoWarps(raw: Raw, scoop: nat, nonceInWarp: nat, lo: nat)
    ensures XorWarps(raw, scoop, nonceInWarp, lo, 0) == ZeroScoop()
  {
  }

  lemma Distribute(k: nat, lo: nat, n: nat)
    ensures k * n + k == k * (n + 1) && k * lo + k * n == k * (lo + n)
  {
  }

  // 2^s warps of level c, XORed, are one warp of level c + s.
  lemma LevelUpMany(raw: Raw, scoop: nat, warp: nat, nonceInWarp: nat, c: nat, s: nat)
    requires c >= 1 && nonceInWarp < NUM_SCOOPS
    ensures FoldWarps(raw, scoop, nonceInWarp, c, Pow2(s) * warp, Pow2(s))
         == AtLevel(raw, scoop, warp * NUM_SCOOPS + nonceInWarp, c + s)
  {
    hide XorScoop, AtLevel, FoldWarps, XorWarps, Pow2;
    FoldIsWarps(raw, scoop, nonceInWarp, c, Pow2(s) * warp, Pow2(s));
    AtLevelIsWarps(raw, scoop, warp, nonceInWarp, c + s);
    Pow2Add(c, s);
    assert Pow2(c) * (Pow2(s) * warp) == Pow2(c) * Pow2(s) * warp;
  }

  // ----- files at level 0 -----

  // Where scoop and nonce coincide, exchanging them changes nothing.
  lemma {:induction false} FoldOfDiagonal(raw: Raw, i: nat, lo: nat, n: nat)
    requires i < NUM_SCOOPS
    ensures FoldWarps(raw, i, i, 0, lo, n) == XorWarps(raw, i, i, lo, n)
    decreases n
  {
    hide XorScoop, AtLevel;
    if n > 0 {
      FoldOfDiagonal(raw, i, lo, n - 1);
      LevelZeroScoop(raw, i, lo + n - 1, i);
    }
  }

  lemma LevelZeroScoop(raw: Raw, scoop: nat, warp: nat, i: nat)
    requires i < NUM_SCOOPS
    ensures AtLevel(raw, scoop, warp * NUM_SCOOPS + i, 0) == raw(warp * NUM_SCOOPS + i, scoop)
  {
    hide XorScoop;
    DivModUnique(warp * NUM_SCOOPS + i, NUM_SCOOPS, warp, i);
    XorScoopZero(raw(warp * NUM_SCOOPS + i, scoop));
    assert Pow2(0) == 1;
  }

  function Spiked(k: nat): Raw {
    (n: nat, s: nat) => Spike(k, n)
  }

  // A fold of level 0 takes nonce i of every warp, so it sees a spike there.
  lemma {:induction false} FoldOfSpike(scoop: nat, i: nat, v: nat, lo: nat, n: nat)
    requires i < NUM_SCOOPS && lo <= v
    ensures FoldWarps(Spiked(v * NUM_SCOOPS + i), scoop, i, 0, lo, n) == Spike(0, if v < lo + n then 0 else 1)
    decreases n
  {
    hide XorScoop, AtLevel;
    if n > 0 {
      var raw := Spiked(v * NUM_SCOOPS + i);
      FoldOfSpike(scoop, i, v, lo, n - 1);
      LevelZeroScoop(raw, scoop, lo + n - 1, i);
      XorScoopZero(Spike(0, 0));
      XorScoopZero(ZeroScoop());
    }
  }

  // Level s takes nonce scoop of every odd warp, so it misses it.
  lemma {:induction false} LevelMissesSpike(scoop: nat, i: nat, v: nat, lo: nat, n: nat)
    requires i < NUM_SCOOPS && scoop < NUM_SCOOPS && scoop != i && v % 2 == 1
    ensures XorWarps(Spiked(v * NUM_SCOOPS + i), scoop, i, lo, n) == ZeroScoop()
    decreases n
  {
    hide XorScoop;
    if n > 0 {
      LevelMissesSpike(scoop, i, v, lo, n - 1);
      XorScoopZero(ZeroScoop());
    }
  }

  // 2^s warps of level 0, XORed, are one warp of level s for every plot if and only if scoop and
  // nonce coincide: of the 4096 nonces of a warp, one is what it would be reported as.
  lemma LevelZeroExactly(scoop: nat, warp: nat, i: nat, s: nat)
    requires scoop < NUM_SCOOPS && i < NUM_SCOOPS && s >= 1
    ensures (forall raw: Raw :: FoldIsLevel(raw, scoop, warp, i, s)) <==> scoop == i
  {
    hide XorScoop, AtLevel, FoldWarps, XorWarps;
    var lo, n := Pow2(s) * warp, Pow2(s);
    forall raw: Raw
      ensures AtLevel(raw, scoop, warp * NUM_SCOOPS + i, s) == XorWarps(raw, scoop, i, lo, n)
    {
      AtLevelIsWarps(raw, scoop, warp, i, s);
    }
    if scoop == i {
      forall raw: Raw
        ensures FoldIsLevel(raw, scoop, warp, i, s)
      {
        FoldOfDiagonal(raw, i, lo, n);
      }
    } else {
      var v := lo + 1;
      EvenMultiple(n, warp, 1);
      FoldOfSpike(scoop, i, v, lo, n);
      LevelMissesSpike(scoop, i, v, lo, n);
      assert Spike(0, 0)[0] != ZeroScoop()[0];
      assert !FoldIsLevel(Spiked(v * NUM_SCOOPS + i), scoop, warp, i, s);
    }
  }

  predicate FoldIsLevel(raw: Raw, scoop: nat, warp: nat, i: nat, s: nat) {
    FoldWarps(raw, scoop, i, 0, Pow2(s) * warp, Pow2(s)) == AtLevel(raw, scoop, warp * NUM_SCOOPS + i, s)
  }
}
