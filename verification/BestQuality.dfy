// The search for the best (lowest) quality in a run of scoops.
module BestQuality {
  import opened Words
  import opened Quality
  import opened Cpu

  // Lowest quality and the first index that has it; (NO_QUALITY, 0) when nothing is lower than NO_QUALITY.
  function Best(qs: seq<U64>): (r: (U64, nat)) {
    if |qs| == 0 then (NO_QUALITY, 0)
    else
      var b := Best(qs[..|qs| - 1]);
      if qs[|qs| - 1] < b.0 then (qs[|qs| - 1], |qs| - 1) else b
  }

  lemma {:induction false} BestIsFirstMinimum(qs: seq<U64>)
    ensures var (q, i) := Best(qs);
      && (forall k :: 0 <= k < |qs| ==> q <= qs[k])
      && (q < NO_QUALITY ==> i < |qs| && qs[i] == q && forall k :: 0 <= k < i ==> q < qs[k])
      && (q == NO_QUALITY ==> i == 0)
  {
    if |qs| > 0 {
      BestIsFirstMinimum(qs[..|qs| - 1]);
      var (q, i) := Best(qs[..|qs| - 1]);
      forall k | 0 <= k < |qs|
        ensures Best(qs).0 <= qs[k]
      {
        if k < |qs| - 1 {
          assert qs[..|qs| - 1][k] == qs[k];
        }
      }
      if qs[|qs| - 1] < q {
        forall k | 0 <= k < |qs| - 1
          ensures qs[|qs| - 1] < qs[k]
        {
          assert qs[..|qs| - 1][k] == qs[k];
        }
      } else if q < NO_QUALITY {
        assert qs[i] == qs[..|qs| - 1][i];
        forall k | 0 <= k < i
          ensures q < qs[k]
        {
          assert qs[..|qs| - 1][k] == qs[k];
        }
      }
    }
  }

  function ScoopAt(data: seq<Word>, i: nat): seq<Word>
    requires 16 * i + 16 <= |data|
  {
    data[16 * i..16 * i + 16]
  }

  // The qualities of the first n scoops.
  function Qualities(data: seq<Word>, n: nat, gensig: seq<Word>): (qs: seq<U64>)
    requires 16 * n <= |data|
    ensures |qs| == n
  {
    seq(n, i requires 0 <= i < n => QualityOf(ScoopAt(data, i), gensig))
  }

  lemma BestNext(data: seq<Word>, n: nat, gensig: seq<Word>)
    requires 16 * n + 16 <= |data|
    ensures var b := Best(Qualities(data, n, gensig));
      var q := QualityOf(ScoopAt(data, n), gensig);
      Best(Qualities(data, n + 1, gensig)) == if q < b.0 then (q, n) else b
  {
    hide QualityOf;
    assert Qualities(data, n + 1, gensig)[..n] == Qualities(data, n, gensig);
  }

  method FindBestQuality32(data: seq<Word>, numberOfNonces: nat, gensig: seq<Word>)
    returns (bestQuality: U64, bestOffset: nat)
    requires |gensig| == 8
    ensures (bestQuality, bestOffset) == Best(Qualities(data, Min(numberOfNonces, |data| / 16), gensig))
  {
    hide QualityOf, Best;
    bestQuality, bestOffset := NO_QUALITY, 0;
    BestOfNone(data, gensig);
    for i := 0 to numberOfNonces
      invariant (bestQuality, bestOffset) == Best(Qualities(data, Min(i, |data| / 16), gensig))
    {
      if 16 * i + 16 <= |data| {
        var quality := Shabal256Lite(data[16 * i..16 * i + 16], gensig);
        BestNext(data, i, gensig);
        if quality < bestQuality {
          bestQuality := quality;
          bestOffset := i;
        }
      }
    }
  }

  lemma BestOfNone(data: seq<Word>, gensig: seq<Word>)
    ensures Best(Qualities(data, 0, gensig)) == (NO_QUALITY, 0)
  {
  }

  // How many leading scoops the vector search looks at: a batch that does not fit is skipped whole.
  function VectorCount(width: nat, n: nat, available: nat): (k: nat)
    requires width > 0
    ensures k <= available
  {
    WholeBatches(width, available / width, 0, available);
    if available < n / width * width then available / width * width else Min(n, available)
  }

  // q whole batches and r more items: the quotient and remainder are q and r.
  lemma WholeBatches(width: nat, q: nat, r: nat, n: nat)
    requires width > 0
    ensures n / width * width <= n
    ensures r < width ==> (q * width + r) / width == q
    ensures q * width <= n < q * width + width ==> n / width == q
  {
    assert n == n / width * width + n % width;
    if r < width {
      DivModUnique(q * width + r, width, q, r);
    }
    if q * width <= n < q * width + width {
      DivModUnique(n, width, q, n - q * width);
    }
  }

  lemma BatchSeen(width: nat, batch: nat, available: nat)
    requires width > 0
    ensures batch * width + width <= available ==>
      VectorCount(width, batch * width, available) == batch * width &&
      VectorCount(width, (batch + 1) * width, available) == batch * width + width
    ensures batch * width + width > available ==>
      VectorCount(width, (batch + 1) * width, available) == VectorCount(width, batch * width, available)
  {
    WholeBatches(width, batch, 0, available);
    WholeBatches(width, batch + 1, 0, available);
    assert (batch + 1) * width == batch * width + width;
  }

  lemma RemainderSeen(width: nat, batches: nat, i: nat, available: nat)
    requires width > 0 && i + 1 < width
    ensures var n := batches * width + i;
      && (n < available ==> VectorCount(width, n, available) == n && VectorCount(width, n + 1, available) == n + 1)
      && (n >= available ==> VectorCount(width, n + 1, available) == VectorCount(width, n, available))
  {
    WholeBatches(width, batches, i, available);
    WholeBatches(width, batches, i + 1, available);
  }

  method SearchBatch(width: nat, data: seq<Word>, startOffset: nat, gensig: seq<Word>,
                     quality: U64, offset: nat) returns (bestQuality: U64, bestOffset: nat)
    requires |gensig| == 8 && 16 * (startOffset + width) <= |data|
    requires (quality, offset) == Best(Qualities(data, startOffset, gensig))
    ensures (bestQuality, bestOffset) == Best(Qualities(data, startOffset + width, gensig))
  {
    hide QualityOf, Best;
    bestQuality, bestOffset := quality, offset;
    var batchData := data[16 * startOffset..16 * startOffset + 16 * width];
    var qualities := VShabal256Lite(width, batchData, gensig);
    for i := 0 to width
      invariant (bestQuality, bestOffset) == Best(Qualities(data, startOffset + i, gensig))
    {
      SliceOfSlice(data, 16 * startOffset, 16 * width, 16 * i, 16);
      BestNext(data, startOffset + i, gensig);
      if qualities[i] < bestQuality {
        bestQuality := qualities[i];
        bestOffset := startOffset + i;
      }
    }
  }

  method FindBestQualityVector(width: nat, data: seq<Word>, numberOfNonces: nat, gensig: seq<Word>)
    returns (bestQuality: U64, bestOffset: nat)
    requires width > 0 && |gensig| == 8
    ensures (bestQuality, bestOffset) == Best(Qualities(data, VectorCount(width, numberOfNonces, |data| / 16), gensig))
  {
    hide QualityOf, Best, Qualities, VectorCount;
    bestQuality, bestOffset := NO_QUALITY, 0;
    BestOfNone(data, gensig);
    var simdBatches, remainder := numberOfNonces / width, numberOfNonces % width;
    ghost var available := |data| / 16;
    NothingSeen(width, available);
    for batch := 0 to simdBatches
      invariant (bestQuality, bestOffset) == Best(Qualities(data, VectorCount(width, batch * width, available), gensig))
    {
      var startOffset := batch * width;
      BatchSeen(width, batch, available);
      if 16 * startOffset + 16 * width <= |data| {
        bestQuality, bestOffset := SearchBatch(width, data, startOffset, gensig, bestQuality, bestOffset);
      }
    }
    if remainder > 0 {
      bestQuality, bestOffset := SearchRemainder(width, data, simdBatches, remainder, gensig, bestQuality, bestOffset);
    }
    assert simdBatches * width + remainder == numberOfNonces;
  }

  method SearchRemainder(width: nat, data: seq<Word>, simdBatches: nat, remainder: nat, gensig: seq<Word>,
                         quality: U64, offset: nat) returns (bestQuality: U64, bestOffset: nat)
    requires remainder < width && |gensig| == 8
    requires (quality, offset) == Best(Qualities(data, VectorCount(width, simdBatches * width, |data| / 16), gensig))
    ensures (bestQuality, bestOffset)
         == Best(Qualities(data, VectorCount(width, simdBatches * width + remainder, |data| / 16), gensig))
  {
    hide QualityOf, Best, Qualities, VectorCount;
    bestQuality, bestOffset := quality, offset;
    var remainingStart := simdBatches * width;
    for i := 0 to remainder
      invariant (bestQuality, bestOffset)
             == Best(Qualities(data, VectorCount(width, remainingStart + i, |data| / 16), gensig))
    {
      var k := remainingStart + i;
      RemainderSeen(width, simdBatches, i, |data| / 16);
      if 16 * k + 16 <= |data| {
        var quality := Shabal256Lite(data[16 * k..16 * k + 16], gensig);
        BestNext(data, k, gensig);
        if quality < bestQuality {
          bestQuality := quality;
          bestOffset := k;
        }
      }
    }
  }

  lemma NothingSeen(width: nat, available: nat)
    requires width > 0
    ensures VectorCount(width, 0, available) == 0
  {
  }

  // The vector search looks at the same scoops as the scalar one exactly when the data does not
  // end inside a whole batch.
  lemma VectorCountIsScalar(width: nat, n: nat, available: nat)
    requires width > 0
    ensures VectorCount(width, n, available) == Min(n, available)
       <==> n / width * width <= available || available % width == 0
  {
    WholeBatches(width, n / width, 0, n);
    assert available == available / width * width + available % width;
  }

  // Data that ends inside a batch: the vector search skips scoops that the scalar one sees.
  lemma ShortDataDiffers()
    ensures VectorCount(8, 8, 5) == 0 && Min(8, 5) == 5
  {
  }

  method FindBestQuality(cpu: Features, data: seq<Word>, numberOfNonces: nat, gensig: seq<Word>)
    returns (bestQuality: U64, bestOffset: nat)
    requires |gensig| == 8
    ensures var available := |data| / 16;
      var seen := if cpu.Width() == 1 then Min(numberOfNonces, available)
                  else VectorCount(cpu.Width(), numberOfNonces, available);
      (bestQuality, bestOffset) == Best(Qualities(data, seen, gensig))
    ensures 16 * numberOfNonces <= |data| ==>
      (bestQuality, bestOffset) == Best(Qualities(data, numberOfNonces, gensig))
  {
    hide Best, Qualities;
    ghost var available := |data| / 16;
    if cpu.avx512f {
      bestQuality, bestOffset := FindBestQualityVector(16, data, numberOfNonces, gensig);
      VectorCountIsScalar(16, numberOfNonces, available);
    } else if cpu.avx2 {
      bestQuality, bestOffset := FindBestQualityVector(8, data, numberOfNonces, gensig);
      VectorCountIsScalar(8, numberOfNonces, available);
    } else if cpu.avx || cpu.sse2 {
      bestQuality, bestOffset := FindBestQualityVector(4, data, numberOfNonces, gensig);
      VectorCountIsScalar(4, numberOfNonces, available);
    } else {
      bestQuality, bestOffset := FindBestQuality32(data, numberOfNonces, gensig);
    }
  }
}
