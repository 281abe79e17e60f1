// The vector nonce generator: one interleaved buffer in which every lane runs its own chain.
module PlotLanes {
  import opened Wrappers
  import opened Words
  import opened Shabal
  import opened Lanes
  import opened PlotChain

  // The termination blocks of every lane are those of its own seed, payload and nonce.
  ghost predicate Terminated(width: nat, tails: seq<Tail>, t1: seq<Reg>, t2: seq<Reg>, t3: seq<Reg>, seeds: seq<Reg>) {
    && |tails| == width
    && BlockRows(t1, width) && BlockRows(t2, width) && BlockRows(t3, width)
    && |seeds| == 8 && Wide(seeds, width)
    && forall l :: 0 <= l < width ==>
         && Lane(t1, width, l) == T1(tails[l])
         && Lane(t2, width, l) == T2(tails[l])
         && Lane(t3, width, l) == T3()
         && Lane(seeds, width, l) == tails[l][..8]
  }

  method VWriteSlot(width: nat, buffer: array<Reg>, i: nat, hash: seq<Reg>)
    requires |hash| == 8 && Wide(hash, width) && i + 8 <= buffer.Length && Wide(buffer[..], width)
    modifies buffer
    ensures Wide(buffer[..], width)
    ensures buffer[..] == old(buffer[..i]) + hash + old(buffer[i + 8..])
    ensures buffer[i..] == hash + old(buffer[i + 8..])
  {
    for j := 0 to 8
      invariant forall k :: 0 <= k < j ==> buffer[i + k] == hash[k]
      invariant forall k :: 0 <= k < buffer.Length && (k < i || i + 8 <= k) ==> buffer[k] == old(buffer[k])
    {
      buffer[i + j] := hash[j];
    }
    assert buffer[..] == old(buffer[..i]) + hash + old(buffer[i + 8..]);
  }

  lemma LaneSlice(rows: seq<Reg>, width: nat, l: nat, lo: nat, hi: nat)
    requires Wide(rows, width) && l < width && lo <= hi <= |rows|
    ensures Wide(rows[lo..hi], width)
    ensures Lane(rows[lo..hi], width, l) == Lane(rows, width, l)[lo..hi]
  {
  }

  lemma LaneConcat(x: seq<Reg>, y: seq<Reg>, width: nat, l: nat)
    requires Wide(x, width) && Wide(y, width) && l < width
    ensures Wide(x + y, width)
    ensures Lane(x + y, width, l) == Lane(x, width, l) + Lane(y, width, l)
  {
  }

  // Lane l of the rows from i on, continued to a full buffer.
  ghost function FillLane(tails: seq<Tail>, rows: seq<Reg>, width: nat, l: nat, k: nat): seq<Word>
    requires |tails| == width && l < width && Wide(rows, width) && |rows| == HASH_WORDS * k && k <= NUM_SLOTS
  {
    Fill(tails[l], Lane(rows, width, l), k)
  }

  lemma FillLaneStep(tails: seq<Tail>, rows: seq<Reg>, hash: seq<Reg>, width: nat, l: nat, k: nat)
    requires |tails| == width && l < width && Wide(rows, width) && |rows| == HASH_WORDS * k && k < NUM_SLOTS
    requires |hash| == 8 && Wide(hash, width) && Lane(hash, width, l) == NextSlot(tails[l], Lane(rows, width, l))
    ensures Wide(hash + rows, width)
    ensures FillLane(tails, hash + rows, width, l, k + 1) == FillLane(tails, rows, width, l, k)
  {
    LaneConcat(hash, rows, width, l);
    FillStep(tails[l], Lane(rows, width, l), k, Lane(hash, width, l));
  }

  method VEarlyRounds(width: nat, buffer: array<Reg>, t1: seq<Reg>, pt2: seq<Reg>, t2: seq<Reg>, t3: seq<Reg>,
                      seeds: seq<Reg>, ghost tails: seq<Tail>)
    requires Terminated(width, tails, t1, t2, t3, seeds)
    requires buffer.Length == NONCE_WORDS && Wide(buffer[..], width)
    requires pt2 == buffer[NONCE_WORDS - 8..] + seeds
    requires forall l :: 0 <= l < width ==> Lane(buffer[NONCE_WORDS - 8..], width, l) == NextSlot(tails[l], [])
    modifies buffer
    ensures Wide(buffer[..], width)
    ensures forall l :: 0 <= l < width ==>
      FillLane(tails, buffer[NONCE_WORDS - CAP_WORDS..], width, l, 128) == Fill(tails[l], [], 0)
  {
    hide Digest, Hash, Fill, NextSlot, T1, T2, T3, PT2, MessageBlocks;
    ghost var first := buffer[NONCE_WORDS - 8..];
    var i := NONCE_WORDS - HASH_WORDS;
    ghost var k := 1;
    forall l | 0 <= l < width
      ensures FillLane(tails, first, width, l, 1) == Fill(tails[l], [], 0)
      ensures BlockRows(pt2, width) && Lane(pt2, width, l) == PT2(tails[l], Lane(first, width, l))
    {
      FillLaneStep(tails, [], first, width, l, 0);
      assert first + [] == first;
      assert Lane([], width, l) == [];
      LaneConcat(first, seeds, width, l);
      PT2Is(tails[l], Lane(first, width, l));
    }
    while i >= NONCE_WORDS - CAP_WORDS + HASH_WORDS
      invariant 1 <= k <= 128 && i == NONCE_WORDS - 8 * k
      invariant Wide(buffer[..], width) && buffer[NONCE_WORDS - 8..] == first
      invariant forall l :: 0 <= l < width ==> FillLane(tails, buffer[i..], width, l, k) == Fill(tails[l], [], 0)
      decreases i
    {
      ghost var rows := buffer[i..];
      var hash;
      if 4 * i % 64 == 0 {
        hash := VShabal256(width, buffer[i..], None, t1);
      } else {
        hash := VShabal256(width, buffer[i..], Some(pt2), t2);
      }
      VWriteSlot(width, buffer, i - HASH_WORDS, hash);
      forall l | 0 <= l < width
        ensures FillLane(tails, buffer[i - 8..], width, l, k + 1) == Fill(tails[l], [], 0)
      {
        var buf := Lane(rows, width, l);
        assert rows[|rows| - 8..] == first;
        assert buf[|buf| - 8..] == Lane(first, width, l);
        EarlySlot(tails[l], buf, k, i);
        FillLaneStep(tails, rows, hash, width, l, k);
      }
      i := i - HASH_WORDS;
      k := k + 1;
    }
  }

  lemma PT2Is(tail: Tail, first: seq<Word>)
    requires |first| == 8
    ensures PT2(tail, first) == first + tail[..8]
  {
  }

  method VLateRounds(width: nat, buffer: array<Reg>, t1: seq<Reg>, t2: seq<Reg>, t3: seq<Reg>,
                     seeds: seq<Reg>, ghost tails: seq<Tail>)
    requires Terminated(width, tails, t1, t2, t3, seeds)
    requires buffer.Length == NONCE_WORDS && Wide(buffer[..], width)
    modifies buffer
    ensures Wide(buffer[..], width)
    ensures forall l :: 0 <= l < width ==>
      Lane(buffer[..], width, l) == old(FillLane(tails, buffer[NONCE_WORDS - CAP_WORDS..], width, l, 128))
  {
    hide Digest, Hash, Fill, NextSlot, T1, T2, T3, MessageBlocks;
    var i := NONCE_WORDS - CAP_WORDS;
    ghost var k := 128;
    ghost var start := buffer[i..];
    while i >= HASH_WORDS
      invariant 128 <= k <= NUM_SLOTS && i == NONCE_WORDS - 8 * k
      invariant Wide(buffer[..], width)
      invariant forall l :: 0 <= l < width ==>
        FillLane(tails, buffer[i..], width, l, k) == FillLane(tails, start, width, l, 128)
      decreases i
    {
      ghost var rows := buffer[i..];
      ghost var buffer0 := buffer[..];
      var hash := VShabal256(width, buffer[i..i + CAP_WORDS], None, t3);
      VWriteSlot(width, buffer, i - HASH_WORDS, hash);
      forall l | 0 <= l < width
        ensures FillLane(tails, buffer[i - 8..], width, l, k + 1) == FillLane(tails, start, width, l, 128)
      {
        var buf := Lane(rows, width, l);
        LaneSlice(rows, width, l, 0, CAP_WORDS);
        assert buf[..CAP_WORDS] == buf[0..CAP_WORDS];
        LateSlot(tails[l], buf);
        assert Lane(hash, width, l) == NextSlot(tails[l], buf) by {
          assert buffer0[i..i + CAP_WORDS] == rows[..CAP_WORDS];
        }
        FillLaneStep(tails, rows, hash, width, l, k);
      }
      i := i - HASH_WORDS;
      k := k + 1;
    }
    assert buffer[..] == buffer[i..];
    forall l | 0 <= l < width
      ensures Lane(buffer[..], width, l) == FillLane(tails, start, width, l, 128)
    {
      FillDone(tails[l], Lane(buffer[..], width, l));
    }
  }

  // Lane l of the buffer is the plot nonce of lane l's seed, payload and nonce.
  method VNonceBuffer(width: nat, t1: seq<Reg>, t2: seq<Reg>, t3: seq<Reg>, seeds: seq<Reg>, ghost tails: seq<Tail>)
    returns (buffer: array<Reg>)
    requires Terminated(width, tails, t1, t2, t3, seeds)
    ensures fresh(buffer) && buffer.Length == NONCE_WORDS && Wide(buffer[..], width)
    ensures forall l :: 0 <= l < width ==> Lane(buffer[..], width, l) == PlotNonce(tails[l])
  {
    hide Digest, Hash, Fill, NextSlot, T1, T2, T3, MessageBlocks, XorFinal;
    buffer := new Reg[NONCE_WORDS](_ => Splat(width, 0));
    var hash := VShabal256(width, [], None, t1);
    forall l | 0 <= l < width
      ensures Lane(hash, width, l) == NextSlot(tails[l], [])
    {
      assert Lane([], width, l) == [];
      EvenSlot(tails[l], []);
      FirstSlot(tails[l]);
    }
    VWriteSlot(width, buffer, NONCE_WORDS - HASH_WORDS, hash);
    assert buffer[NONCE_WORDS - 8..] == hash;
    var pt2 := hash + seeds;
    VEarlyRounds(width, buffer, t1, pt2, t2, t3, seeds, tails);
    VLateRounds(width, buffer, t1, t2, t3, seeds, tails);
    ghost var filled := buffer[..];
    var final := VShabal256(width, buffer[..], None, t1);
    forall l | 0 <= l < width
      ensures Lane(final, width, l) == Hash(Lane(filled, width, l) + tails[l])
    {
      FinalHash(tails[l], Lane(filled, width, l));
    }
    VXorInPlace(width, buffer, final);
  }

  // Chunk by chunk: row i of the buffer meets row i % 8 of the final hash.
  method VXorInPlace(width: nat, buffer: array<Reg>, final: seq<Reg>)
    requires |final| == 8 && Wide(final, width) && Wide(buffer[..], width) && buffer.Length % 8 == 0
    modifies buffer
    ensures Wide(buffer[..], width)
    ensures forall l :: 0 <= l < width ==>
      Lane(buffer[..], width, l) == XorFinal(old(Lane(buffer[..], width, l)), Lane(final, width, l))
  {
    hide Xor;
    ghost var rows := buffer[..];
    var chunkStart := 0;
    ghost var c := 0;
    while chunkStart < buffer.Length
      invariant chunkStart <= buffer.Length && chunkStart == 8 * c
      invariant forall k :: 0 <= k < chunkStart ==> buffer[k] == VZip(Xor, rows[k], final[k % 8])
      invariant forall k :: chunkStart <= k < buffer.Length ==> buffer[k] == rows[k]
    {
      for i := 0 to 8
        invariant forall k :: 0 <= k < chunkStart + i ==> buffer[k] == VZip(Xor, rows[k], final[k % 8])
        invariant forall k :: chunkStart + i <= k < buffer.Length ==> buffer[k] == rows[k]
      {
        DivModUnique(chunkStart + i, 8, c, i);
        buffer[chunkStart + i] := VZip(Xor, buffer[chunkStart + i], final[i]);
      }
      chunkStart := chunkStart + 8;
      c := c + 1;
    }
    forall l | 0 <= l < width
      ensures Lane(buffer[..], width, l) == XorFinal(Lane(rows, width, l), Lane(final, width, l))
    {
    }
  }
}
