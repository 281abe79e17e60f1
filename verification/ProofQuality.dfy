// The scalar reference for proofs: the scoop of a compressed nonce, the scoop number of a block,
// and the quality of a proof.
module ProofQuality {
  import opened Wrappers
  import opened Words
  import opened Shabal
  import opened PlotChain
  import opened Layout
  import opened Nonces
  import opened Scoops
  import opened Quality
  import opened BestQuality
  import opened Cpu

  type Payload = b: seq<Byte> | |b| == 20 witness ZeroBytes(20)
  type Seed = b: seq<Byte> | |b| == 32 witness ZeroBytes(32)

  // The uncompressed scoops of one account and seed.
  function PlotScoop(payload: Payload, seed: Seed, nonce: nat, s: nat): Scoop {
    if s < NUM_SCOOPS then RawScoop(payload, seed, nonce, s) else ZeroScoop()
  }

  function RawOf(payload: Payload, seed: Seed): Raw {
    (nonce: nat, s: nat) => PlotScoop(payload, seed, nonce, s)
  }

  // ----- numbers of nonces wrap at 64 bits -----

  lemma Mod64Again(x: nat, y: nat)
    ensures Mod64(Mod64(x) + y) == Mod64(x + y) && Mod64(Mod64(x) * y) == Mod64(x * y)
  {
    DivParts(x, U64_RANGE);
    var q, r := x / U64_RANGE, Mod64(x);
    hide Mod64;
    Mod64Shift(r + y, q);
    Mod64Shift(r * y, q * y);
    MulSplit(q, U64_RANGE, r, y);
  }

  lemma Mod64Shift(x: nat, q: nat)
    ensures Mod64(x + q * U64_RANGE) == Mod64(x)
  {
    DivParts(x, U64_RANGE);
    assert x + q * U64_RANGE == (x / U64_RANGE + q) * U64_RANGE + x % U64_RANGE;
    DivModUnique(x + q * U64_RANGE, U64_RANGE, x / U64_RANGE + q, x % U64_RANGE);
  }

  // Nonce number n of unit i, as 64-bit arithmetic computes it.
  function UnitNonce(count: U64, warp: U64, i: U64, nonceInWarp: nat): U64 {
    var warpX := Mod64(Mod64(count * warp) + i);
    Mod64(Mod64(warpX * NUM_SCOOPS) + nonceInWarp)
  }

  lemma UnitNonceWraps(count: U64, warp: U64, i: U64, nonceInWarp: nat)
    ensures UnitNonce(count, warp, i, nonceInWarp) == Mod64((count * warp + i) * NUM_SCOOPS + nonceInWarp)
  {
    hide Mod64;
    Mod64Again(count * warp, i);
    Mod64Again(count * warp + i, NUM_SCOOPS);
    Mod64Again((count * warp + i) * NUM_SCOOPS, nonceInWarp);
  }

  // A nonce is hashed as eight bytes, so its number counts modulo 2^64.
  lemma NonceWraps(payload: Payload, seed: Seed, n: nat, s: nat)
    ensures PlotScoop(payload, seed, Mod64(n), s) == PlotScoop(payload, seed, n, s)
  {
    hide PlotNonce;
    BytesWrap(n);
  }

  lemma BytesWrap(n: nat)
    ensures BigEndian64(Mod64(n)) == BigEndian64(n)
  {
    hide BigEndian64;
    NumeralIs(BigEndian64(n), n);
    NumeralIs(BigEndian64(n), Mod64(n));
  }

  // A compressed nonce is the same proof under any number that agrees with its own modulo 2^64.
  lemma LevelWraps(payload: Payload, seed: Seed, scoop: nat, n: nat, c: nat)
    ensures AtLevel(RawOf(payload, seed), scoop, Mod64(n), c) == AtLevel(RawOf(payload, seed), scoop, n, c)
  {
    hide XorUnits, RawOf;
    var q, m := n / U64_RANGE, Mod64(n);
    DivParts(n, U64_RANGE);
    DivParts(m, NUM_SCOOPS);
    DivModUnique(n, NUM_SCOOPS, q * 0x10_0000_0000_0000 + m / NUM_SCOOPS, m % NUM_SCOOPS);
    UnitsWrap(payload, seed, scoop, m / NUM_SCOOPS, q, m % NUM_SCOOPS, Pow2(c), Pow2(c));
  }

  lemma {:induction false} UnitsWrap(payload: Payload, seed: Seed, scoop: nat, warp: nat, q: nat, i: nat, count: nat,
                                     n: nat)
    ensures XorUnits(RawOf(payload, seed), scoop, warp, i, count, n)
         == XorUnits(RawOf(payload, seed), scoop, q * 0x10_0000_0000_0000 + warp, i, count, n)
    decreases n
  {
    hide XorScoop, PlotScoop, Mod64, UnitOf;
    if n > 0 {
      UnitsWrap(payload, seed, scoop, warp, q, i, count, n - 1);
      var u := UnitOf(scoop, warp, i, count, n - 1);
      var v := UnitOf(scoop, q * 0x10_0000_0000_0000 + warp, i, count, n - 1);
      UnitShift(scoop, warp, q, i, count, n - 1);
      Mod64Shift(u.nonce, count * q);
      NonceWraps(payload, seed, u.nonce, u.scoop);
      NonceWraps(payload, seed, v.nonce, v.scoop);
    }
  }

  lemma UnitShift(scoop: nat, warp: nat, q: nat, i: nat, count: nat, n: nat)
    ensures var u, v := UnitOf(scoop, warp, i, count, n), UnitOf(scoop, q * 0x10_0000_0000_0000 + warp, i, count, n);
      v.scoop == u.scoop && v.nonce == u.nonce + count * q * U64_RANGE
  {
    assert count * (q * 0x10_0000_0000_0000 + warp) == 2 * (count * q * 0x8_0000_0000_0000) + count * warp;
    assert (count * (q * 0x10_0000_0000_0000 + warp) + n) % 2 == (count * warp + n) % 2;
  }

  // How many nonces level c folds, by the power of two and by the shift, in 64 bits: the power
  // wraps to 0, the shift takes its distance modulo 64.
  function PowerCount(c: nat): U64 {
    Mod64(Pow2(c))
  }

  function ShiftCount(c: nat): (n: nat) {
    Pow2(c % 64)
  }

  lemma Pow2At64()
    ensures Pow2(64) == U64_RANGE
  {
    Pow2At32();
    Pow2Add(32, 32);
  }

  // The two agree exactly up to level 63.
  lemma CountsAgree(c: nat)
    ensures c < 64 ==> PowerCount(c) == Pow2(c) == ShiftCount(c)
    ensures c >= 64 ==> PowerCount(c) == 0
    ensures PowerCount(c) == ShiftCount(c) <==> c < 64
    ensures ShiftCount(c) < U64_RANGE
  {
    hide Pow2;
    Pow2At64();
    LowerPower(c % 64);
    if c < 64 {
      DivModUnique(c, 64, 0, c);
      DivModUnique(Pow2(c), U64_RANGE, 0, Pow2(c));
    } else {
      Pow2Add(c - 64, 64);
      DivModUnique(Pow2(c), U64_RANGE, Pow2(c - 64), 0);
    }
  }

  lemma LowerPower(c: nat)
    requires c < 64
    ensures Pow2(c) < Pow2(64)
  {
    hide Pow2;
    Pow2Add(c, 63 - c);
    Pow2Next(63);
    Pow2Positive(63 - c);
    MulMono(1, Pow2(63 - c), Pow2(c));
  }

  // ----- the scoop of a compressed nonce -----

  // The scoop at its level; from level 64 on, nothing is folded.
  function ScalarScoop(payload: Payload, seed: Seed, scoop: nat, nonce: nat, compression: nat): Scoop {
    if compression < 64 then AtLevel(RawOf(payload, seed), scoop, nonce, compression) else ZeroScoop()
  }

  method GenerateScoop(cpu: Features, payload: Payload, seed: Seed, scoop: nat, nonce: U64, compression: nat)
    returns (result: Scoop)
    requires scoop < NUM_SCOOPS
    ensures result == ScalarScoop(payload, seed, scoop, nonce, compression)
  {
    hide Plotted, RawScoop, XorScoop, CacheScoop, PlotScoop, UnitNonce, Mod64, Pow2, Landed, LeavesCache;
    CountsAgree(compression);
    var warp, nonceInWarp := nonce / NUM_SCOOPS, nonce % NUM_SCOOPS;
    var count := PowerCount(compression);
    result := ZeroScoop();
    var nonceBuffer := new Word[NONCE_WORDS](_ => 0);
    for i := 0 to count
      invariant result == XorUnits(RawOf(payload, seed), scoop, warp, nonceInWarp, count, i)
    {
      var (scoopX, nonceInWarpX) := if i % 2 == 0 then (scoop, nonceInWarp) else (nonceInWarp, scoop);
      var nonceX := UnitNonce(count, warp, i, nonceInWarpX);
      ghost var was := nonceBuffer[..];
      var outcome, outside := GenerateNonces(cpu, nonceBuffer, 0, payload, seed, nonceX, 1);
      var start := scoopX * SCOOP_WORDS;
      PlottedUnit(was, nonceBuffer[..], payload, seed, count, warp, i, nonceInWarpX, scoopX);
      result := XorScoop(result, nonceBuffer[start..start + SCOOP_WORDS]);
    }
  }

  // What is plotted at the wrapped number of a unit is the scoop of the unit.
  lemma PlottedUnit(was: seq<Word>, now: seq<Word>, payload: Payload, seed: Seed, count: U64, warp: U64, i: U64,
                    nonceInWarp: nat, s: nat)
    requires |was| == NONCE_WORDS && s < NUM_SCOOPS
    requires now == Plotted(was, payload, seed, UnitNonce(count, warp, i, nonceInWarp), 0, 1)
    ensures now[s * SCOOP_WORDS..s * SCOOP_WORDS + SCOOP_WORDS]
         == PlotScoop(payload, seed, (count * warp + i) * NUM_SCOOPS + nonceInWarp, s)
  {
    hide Plotted, RawScoop, CacheScoop, PlotScoop, UnitNonce, Mod64;
    var nonce := UnitNonce(count, warp, i, nonceInWarp);
    PlottedScoop(was, payload, seed, nonce, 0, 1, 0, s);
    SingleColumn(now, s);
    PlotScoopIs(payload, seed, nonce, s);
    UnitNonceWraps(count, warp, i, nonceInWarp);
    NonceWraps(payload, seed, (count * warp + i) * NUM_SCOOPS + nonceInWarp, s);
  }

  lemma PlotScoopIs(payload: Payload, seed: Seed, nonce: nat, s: nat)
    requires s < NUM_SCOOPS
    ensures PlotScoop(payload, seed, nonce, s) == RawScoop(payload, seed, nonce, s)
  {
  }

  lemma SingleColumn(cache: seq<Word>, s: nat)
    requires |cache| == NONCE_WORDS && s < NUM_SCOOPS
    ensures CacheScoop(cache, s, 0) == cache[s * SCOOP_WORDS..s * SCOOP_WORDS + SCOOP_WORDS]
  {
  }

  // ----- the scoop number of a block -----

  function LowBits(high: Byte, low: Byte): (s: nat)
    ensures s < NUM_SCOOPS
  {
    high as nat % 16 * 256 + low as nat
  }

  // The low 12 bits of the last two digest bytes, big-endian, of generation signature and height.
  function ScoopNumber(height: nat, gensig: Seed): (s: nat)
    ensures s < NUM_SCOOPS
  {
    var h := Shabal256Of(gensig + BigEndian64(height));
    LowBits(h[30], h[31])
  }

  // It is the whole digest as a big-endian number, modulo the number of scoops.
  lemma ScoopNumberIs(height: nat, gensig: Seed, number: seq<Byte>)
    requires Numeral(number, height)
    ensures ScoopNumber(height, gensig) == BigValue(Shabal256Of(gensig + number)) % NUM_SCOOPS
  {
    hide Shabal256Of, Numeral, BigEndian64;
    NumeralIs(number, height);
    LastTwoBytes(Shabal256Of(gensig + number));
  }

  lemma LastTwoBytes(h: seq<Byte>)
    requires |h| == 32
    ensures BigValue(h) % NUM_SCOOPS == (0x100 * h[30] as nat + h[31] as nat) % NUM_SCOOPS == LowBits(h[30], h[31])
  {
    assert h[..31][..30] == h[..30];
    var x, y := BigValue(h[..30]), 0x100 * h[30] as nat + h[31] as nat;
    assert BigValue(h[..31]) == 0x100 * x + h[30] as nat;
    assert BigValue(h) == 0x1_0000 * x + y;
    SameRemainder(y, 0x1_0000 * x + y, NUM_SCOOPS, 16 * x);
    LowTwelveBits(h[30], h[31]);
  }

  lemma LowTwelveBits(high: Byte, low: Byte)
    ensures (0x100 * high as nat + low as nat) % NUM_SCOOPS == LowBits(high, low)
  {
    SameRemainder(LowBits(high, low), 0x100 * high as nat + low as nat, NUM_SCOOPS, high as nat / 16);
  }

  method CalculateScoop(height: nat, gensig: Seed) returns (s: nat)
    ensures s == ScoopNumber(height, gensig)
    ensures forall number :: Numeral(number, height) ==>
      var h := Shabal256Of(gensig + number);
      s == (0x100 * h[30] as nat + h[31] as nat) % NUM_SCOOPS
  {
    hide BigEndian64, WordsOfBytes, BytesOfWords, Hash, Shabal256Of, Digest, Numeral;
    var data := gensig + BigEndian64(height) + [0x80] + ZeroBytes(23);
    var hash := Shabal256([], None, WordsOfBytes(data));
    var bytes := BytesOfWords(hash);
    s := LowBits(bytes[30], bytes[31]);
    var msg := gensig + BigEndian64(height);
    assert bytes == Shabal256Of(msg) by { OneBlockMessage(msg); assert msg + [0x80] + ZeroBytes(23) == data; }
    LowTwelveBits(bytes[30], bytes[31]);
    forall number | Numeral(number, height)
      ensures number == BigEndian64(height)
    {
      NumeralIs(number, height);
    }
  }

  // A message of 40 bytes is one padded block.
  lemma OneBlockMessage(msg: seq<Byte>)
    requires |msg| == 40
    ensures |msg + [0x80] + ZeroBytes(23)| % 4 == 0
    ensures BytesOfWords(Digest(MessageBlocks([], None, WordsOfBytes(msg + [0x80] + ZeroBytes(23)))))
        == Shabal256Of(msg)
  {
    hide Digest, WordsOfBytes, BytesOfWords;
    var w := WordsOfBytes(PadBytes(msg));
    OneBlock(w);
    assert Blocks([]) + [w] == Blocks(w);
  }

  // ----- quality -----

  // The quality of a proof: its scoop at the claimed compression level, hashed with the generation signature.
  function ProofQualityOf(payload: Payload, seed: Seed, nonce: nat, compression: nat, scoop: nat, gensig: Seed): U64 {
    QualityOf(AtLevel(RawOf(payload, seed), scoop, nonce, compression), GensigWords(gensig))
  }

  function GensigWords(gensig: Seed): (w: seq<Word>)
    ensures |w| == 8
  {
    WordsOfBytes(gensig)
  }

  // What the scalar calculation makes of a proof.
  function ScalarQuality(payload: Payload, seed: Seed, nonce: nat, compression: nat, scoop: nat, gensig: Seed): U64 {
    QualityOf(ScalarScoop(payload, seed, scoop, nonce, compression), GensigWords(gensig))
  }

  lemma ScalarQualityIs(payload: Payload, seed: Seed, nonce: nat, compression: nat, scoop: nat, gensig: Seed)
    requires compression < 64
    ensures ScalarQuality(payload, seed, nonce, compression, scoop, gensig)
         == ProofQualityOf(payload, seed, nonce, compression, scoop, gensig)
  {
    hide QualityOf, AtLevel, GensigWords;
  }

  method CalculateQualityRaw(cpu: Features, payload: Payload, seed: Seed, nonce: U64, compression: nat, scoop: nat,
                             gensig: Seed)
    returns (r: Result<U64>)
    ensures scoop >= NUM_SCOOPS ==> r == InvalidInput
    ensures scoop < NUM_SCOOPS ==> r == Ok(ScalarQuality(payload, seed, nonce, compression, scoop, gensig))
  {
    hide QualityOf, ScalarScoop, GensigWords;
    if scoop >= NUM_SCOOPS {
      return InvalidInput;
    }
    var data := GenerateScoop(cpu, payload, seed, scoop, nonce, compression);
    var best, offset := FindBestQuality(cpu, data, 1, GensigWords(gensig));
    BestOfOne(data, GensigWords(gensig));
    return Ok(best);
  }

  lemma BestOfOne(data: Scoop, gensig: seq<Word>)
    ensures Best(Qualities(data, 1, gensig)).0 == QualityOf(data, gensig)
  {
    hide QualityOf;
    BestNext(data, 0, gensig);
    BestOfNone(data, gensig);
    assert ScoopAt(data, 0) == data;
  }

  method CalculateQualityFromHeight(cpu: Features, payload: Payload, seed: Seed, nonce: U64, compression: nat,
                                    height: nat, gensig: Seed)
    returns (r: Result<U64>)
    ensures r == Ok(ScalarQuality(payload, seed, nonce, compression, ScoopNumber(height, gensig), gensig))
  {
    hide ScalarQuality, ScoopNumber;
    var scoop := CalculateScoop(height, gensig);
    r := CalculateQualityRaw(cpu, payload, seed, nonce, compression, scoop, gensig);
  }

  // The lowest quality over a range of compression levels.
  method CalculateBestQualityInRange(cpu: Features, payload: Payload, seed: Seed, nonce: U64,
                                     minCompression: nat, maxCompression: nat, height: nat, gensig: Seed)
    returns (r: Result<U64>)
    ensures minCompression > maxCompression ==> r == InvalidInput
    ensures minCompression <= maxCompression ==> r.Ok?
    ensures r.Ok? ==> forall c :: minCompression <= c <= maxCompression ==>
      r.value <= ScalarQuality(payload, seed, nonce, c, ScoopNumber(height, gensig), gensig)
    ensures r.Ok? ==> exists c ::
      minCompression <= c <= maxCompression
      && r.value == ScalarQuality(payload, seed, nonce, c, ScoopNumber(height, gensig), gensig)
  {
    hide QualityOf, ScalarScoop, GensigWords, ScoopNumber;
    if minCompression > maxCompression {
      return InvalidInput;
    }
    var scoop := CalculateScoop(height, gensig);
    var bestQuality := NO_QUALITY;
    for c := minCompression to maxCompression + 1
      invariant forall d :: minCompression <= d < c ==>
        bestQuality <= ScalarQuality(payload, seed, nonce, d, scoop, gensig)
      invariant c == minCompression ==> bestQuality == NO_QUALITY
      invariant c > minCompression ==>
        exists d :: minCompression <= d < c && bestQuality == ScalarQuality(payload, seed, nonce, d, scoop, gensig)
    {
      var data := GenerateScoop(cpu, payload, seed, scoop, nonce, c);
      var quality, offset := FindBestQuality(cpu, data, 1, GensigWords(gensig));
      BestOfOne(data, GensigWords(gensig));
      assert quality == ScalarQuality(payload, seed, nonce, c, scoop, gensig);
      bestQuality := if quality < bestQuality then quality else bestQuality;
    }
    return Ok(bestQuality);
  }
}
