// Vector registers of a given width in words and the vector form of Shabal-256. Every lane of a
// vector computation is proved to be the scalar computation on that lane's words,
// for every width.
module Lanes {
  import opened Wrappers
  import opened Words
  import opened KeyedPermutation
  import opened Shabal

  type Reg = seq<Word>

  // rows of registers, all of the same width; interleaved memory is such a sequence of rows
  ghost predicate Wide(rows: seq<Reg>, width: nat) {
    forall i :: 0 <= i < |rows| ==> |rows[i]| == width
  }

  ghost function Lane(rows: seq<Reg>, width: nat, l: nat): (r: seq<Word>)
    requires Wide(rows, width) && l < width
    ensures |r| == |rows|
  {
    seq(|rows|, i requires 0 <= i < |rows| => rows[i][l])
  }

  // ----- register operations -----

  function VMap(f: Word -> Word, x: Reg): (r: Reg)
    ensures |r| == |x|
  {
    seq(|x|, i requires 0 <= i < |x| => f(x[i]))
  }

  function VZip(f: (Word, Word) -> Word, x: Reg, y: Reg): (r: Reg)
    requires |x| == |y|
    ensures |r| == |x|
  {
    seq(|x|, i requires 0 <= i < |x| => f(x[i], y[i]))
  }

  function Splat(width: nat, w: Word): (r: Reg)
    ensures |r| == width
  {
    seq(width, _ => w)
  }

  // ----- one step -----

  function VMixA(x: Reg, y: Reg, c: Reg, b1: Reg, b2: Reg, b3: Reg, m: Reg): (r: Reg)
    requires |x| == |y| == |c| == |b1| == |b2| == |b3| == |m|
    ensures |r| == |x|
  {
    var t := VMap(RotL15, y);
    var t := VZip(Plus, VMap(Shl2, t), t);
    var t := VZip(Xor, VZip(Xor, x, t), c);
    var t := VZip(Plus, VMap(Shl1, t), t);
    VZip(Xor, VZip(Xor, t, b1), VZip(Xor, VZip(AndNot, b2, b3), m))
  }

  function VMixB(b: Reg, x: Reg): (r: Reg)
    requires |b| == |x|
    ensures |r| == |b|
  {
    VZip(Xor, VMap(RotL1, b), VZip(Xor, x, Splat(|x|, 0xFFFF_FFFF)))
  }

  lemma VMixALane(x: Reg, y: Reg, c: Reg, b1: Reg, b2: Reg, b3: Reg, m: Reg, l: nat)
    requires |x| == |y| == |c| == |b1| == |b2| == |b3| == |m| && l < |x|
    ensures VMixA(x, y, c, b1, b2, b3, m)[l] == MixA(x[l], V(y[l]), c[l], b1[l], AndNot(b2[l], b3[l]), m[l])
  {
    hide Xor, AndNot, Plus, RotL15, Shl1, Shl2, Times3, Times5;
    VectorMultiples(RotL15(y[l]));
    var u := Xor(Xor(x[l], Times5(RotL15(y[l]))), c[l]);
    VectorMultiples(u);
    XorAssoc(Xor(Times3(u), b1[l]), AndNot(b2[l], b3[l]), m[l]);
  }

  lemma VMixBLane(b: Reg, x: Reg, l: nat)
    requires |b| == |x| && l < |b|
    ensures VMixB(b, x)[l] == MixB(b[l], x[l])
  {
    hide Xor, Not, RotL1;
    VectorNot(RotL1(b[l]), x[l]);
  }

  // ----- the state of one lane -----

  ghost predicate Registers(a: seq<Reg>, b: seq<Reg>, c: seq<Reg>, width: nat) {
    |a| == 12 && |b| == 16 && |c| == 16 && Wide(a, width) && Wide(b, width) && Wide(c, width)
  }

  ghost predicate BlockRows(m: seq<Reg>, width: nat) {
    |m| == 16 && Wide(m, width)
  }

  ghost function LaneAB(a: seq<Reg>, b: seq<Reg>, width: nat, l: nat): AB
    requires |a| == 12 && |b| == 16 && Wide(a, width) && Wide(b, width) && l < width
  {
    AB(Lane(a, width, l), Lane(b, width, l))
  }

  ghost function LaneState(a: seq<Reg>, b: seq<Reg>, c: seq<Reg>, width: nat, l: nat): State
    requires Registers(a, b, c, width) && l < width
  {
    State(Lane(a, width, l), Lane(b, width, l), Lane(c, width, l))
  }

  // ----- the permutation -----

  method VPermElt(width: nat, a: array<Reg>, b: array<Reg>, i: nat, j: nat, c: seq<Reg>, m: seq<Reg>)
    requires Registers(a[..], b[..], c, width) && BlockRows(m, width) && a != b && i < 12 && j < 16
    modifies a, b
    ensures Registers(a[..], b[..], c, width)
    ensures forall l :: 0 <= l < width ==>
      LaneAB(a[..], b[..], width, l)
        == Elt(old(LaneAB(a[..], b[..], width, l)), i, j, Lane(c, width, l), Lane(m, width, l))
  {
    hide VMixA, VMixB, MixA, MixB, V, AndNot;
    ghost var a0, b0 := a[..], b[..];
    var i1, j1, j2, j3, k := Wrap(i + 11, 12), Wrap(j + 13, 16), Wrap(j + 9, 16), Wrap(j + 6, 16), Wrap(24 - j, 16);
    a[i] := VMixA(a[i], a[i1], c[k], b[j1], b[j2], b[j3], m[j]);
    b[j] := VMixB(b[j], a[i]);
    forall l | 0 <= l < width
      ensures LaneAB(a[..], b[..], width, l)
          == Elt(LaneAB(a0, b0, width, l), i, j, Lane(c, width, l), Lane(m, width, l))
    {
      VMixALane(a0[i], a0[i1], c[k], b0[j1], b0[j2], b0[j3], m[j], l);
      VMixBLane(b0[j], a[i], l);
      var s := Elt(LaneAB(a0, b0, width, l), i, j, Lane(c, width, l), Lane(m, width, l));
      assert Lane(a[..], width, l) == s.a;
      assert Lane(b[..], width, l) == s.b;
    }
  }

  method VApplyP(width: nat, a: array<Reg>, b: array<Reg>, c: seq<Reg>, m: seq<Reg>)
    requires Registers(a[..], b[..], c, width) && BlockRows(m, width) && a != b
    modifies a, b
    ensures Registers(a[..], b[..], c, width)
    ensures forall l :: 0 <= l < width ==>
      LaneAB(a[..], b[..], width, l) == P(old(LaneAB(a[..], b[..], width, l)), Lane(c, width, l), Lane(m, width, l))
  {
    hide Elt, AddC, RotL17, Plus;
    VRotateB(width, b);
    ghost var a1, b1 := a[..], b[..];
    for k := 0 to 48
      invariant Registers(a[..], b[..], c, width)
      invariant forall l :: 0 <= l < width ==>
        LaneAB(a[..], b[..], width, l) == Steps(LaneAB(a1, b1, width, l), k, Lane(c, width, l), Lane(m, width, l))
    {
      VPermElt(width, a, b, k % 12, k % 16, c, m);
    }
    VAddC(width, a, c);
  }

  method VRotateB(width: nat, b: array<Reg>)
    requires BlockRows(b[..], width)
    modifies b
    ensures BlockRows(b[..], width)
    ensures forall l :: 0 <= l < width ==> Lane(b[..], width, l) == RotateB(old(Lane(b[..], width, l)))
  {
    hide RotL17;
    for i := 0 to 16
      invariant Wide(b[..], width)
      invariant forall k, l :: 0 <= k < i && 0 <= l < width ==> b[k][l] == RotL17(old(b[k])[l])
      invariant forall k :: i <= k < 16 ==> b[k] == old(b[k])
    {
      b[i] := VMap(RotL17, b[i]);
    }
  }

  method VAddC(width: nat, a: array<Reg>, c: seq<Reg>)
    requires |a[..]| == 12 && Wide(a[..], width) && BlockRows(c, width)
    modifies a
    ensures |a[..]| == 12 && Wide(a[..], width)
    ensures forall l :: 0 <= l < width ==>
      Lane(a[..], width, l) == AddC(old(Lane(a[..], width, l)), Lane(c, width, l), 36)
  {
    hide Plus, AddC;
    ghost var a0 := a[..];
    for i := 0 to 12
      invariant Wide(a[..], width)
      invariant forall k, l :: 0 <= k < i && 0 <= l < width ==>
        a[k][l] == Plus(Plus(Plus(a0[k][l], c[(k + 11) % 16][l]), c[(k + 15) % 16][l]), c[(k + 3) % 16][l])
      invariant forall k :: i <= k < 12 ==> a[k] == a0[k]
    {
      a[i] := VZip(Plus, VZip(Plus, VZip(Plus, a[i], c[(i + 11) % 16]), c[(i + 15) % 16]), c[(i + 3) % 16]);
    }
    forall l | 0 <= l < width
      ensures Lane(a[..], width, l) == AddC(Lane(a0, width, l), Lane(c, width, l), 36)
    {
      forall k | 0 <= k < 12
        ensures Lane(a[..], width, l)[k] == AddC(Lane(a0, width, l), Lane(c, width, l), 36)[k]
      {
        ClosingAdditions(Lane(a0, width, l), Lane(c, width, l), k);
      }
    }
  }

  // ----- the hash -----

  method VInputBlockAdd(width: nat, b: array<Reg>, m: seq<Reg>)
    requires BlockRows(b[..], width) && BlockRows(m, width)
    modifies b
    ensures BlockRows(b[..], width)
    ensures forall l :: 0 <= l < width ==>
      Lane(b[..], width, l) == AddBlock(old(Lane(b[..], width, l)), Lane(m, width, l))
  {
    hide Plus;
    for i := 0 to 16
      invariant Wide(b[..], width)
      invariant forall k, l :: 0 <= k < i && 0 <= l < width ==> b[k][l] == Plus(old(b[k])[l], m[k][l])
      invariant forall k :: i <= k < 16 ==> b[k] == old(b[k])
    {
      b[i] := VZip(Plus, b[i], m[i]);
    }
  }

  method VInputBlockSub(width: nat, c: array<Reg>, m: seq<Reg>)
    requires BlockRows(c[..], width) && BlockRows(m, width)
    modifies c
    ensures BlockRows(c[..], width)
    ensures forall l :: 0 <= l < width ==>
      Lane(c[..], width, l) == SubBlock(old(Lane(c[..], width, l)), Lane(m, width, l))
  {
    hide Minus;
    for i := 0 to 16
      invariant Wide(c[..], width)
      invariant forall k, l :: 0 <= k < i && 0 <= l < width ==> c[k][l] == Minus(old(c[k])[l], m[k][l])
      invariant forall k :: i <= k < 16 ==> c[k] == old(c[k])
    {
      c[i] := VZip(Minus, c[i], m[i]);
    }
  }

  method VXorW(width: nat, a: array<Reg>, wLow: Word, wHigh: Word, ghost w: nat)
    requires a.Length == 12 && Wide(a[..], width) && Halves(wLow, wHigh, w)
    modifies a
    ensures a.Length == 12 && Wide(a[..], width)
    ensures forall l :: 0 <= l < width ==> Lane(a[..], width, l) == XorCounter(old(Lane(a[..], width, l)), w)
  {
    hide Xor;
    a[0] := VZip(Xor, a[0], Splat(width, wLow));
    a[1] := VZip(Xor, a[1], Splat(width, wHigh));
  }

  ghost predicate Separate(a: array<Reg>, b: array<Reg>, c: array<Reg>) {
    a != b && a != c && b != c
  }

  method VMessageRound(width: nat, a: array<Reg>, b: array<Reg>, c: array<Reg>, m: seq<Reg>,
                       wLow: Word, wHigh: Word, ghost w: nat)
    requires Separate(a, b, c) && Registers(a[..], b[..], c[..], width) && BlockRows(m, width)
    requires Halves(wLow, wHigh, w)
    modifies a, b, c
    ensures Registers(a[..], c[..], b[..], width)
    ensures forall l :: 0 <= l < width ==>
      LaneState(a[..], c[..], b[..], width, l)
        == Round(old(LaneState(a[..], b[..], c[..], width, l)), w, Lane(m, width, l))
  {
    hide AddBlock, SubBlock, XorCounter, P;
    VInputBlockAdd(width, b, m);
    VXorW(width, a, wLow, wHigh, w);
    VApplyP(width, a, b, c[..], m);
    VInputBlockSub(width, c, m);
  }

  ghost predicate OptionalRows(m: Option<seq<Reg>>, width: nat) {
    m.Some? ==> BlockRows(m.value, width)
  }

  ghost function LaneOption(m: Option<seq<Reg>>, width: nat, l: nat): Option<Block>
    requires OptionalRows(m, width) && l < width
  {
    if m.Some? then Some(Lane(m.value, width, l)) else None
  }

  ghost function LanePreTerm(m: Option<seq<Reg>>, width: nat, l: nat): seq<Block>
    requires OptionalRows(m, width) && l < width
  {
    if m.Some? then [Lane(m.value, width, l)] else []
  }

  method InitialRegisters(width: nat) returns (a: array<Reg>, b: array<Reg>, c: array<Reg>)
    ensures fresh(a) && fresh(b) && fresh(c) && Separate(a, b, c)
    ensures Registers(a[..], b[..], c[..], width)
    ensures forall l :: 0 <= l < width ==> LaneState(a[..], b[..], c[..], width, l) == INIT
  {
    a := new Reg[12](i requires 0 <= i < 12 => Splat(width, A_INIT[i]));
    b := new Reg[16](i requires 0 <= i < 16 => Splat(width, B_INIT[i]));
    c := new Reg[16](i requires 0 <= i < 16 => Splat(width, C_INIT[i]));
    forall l | 0 <= l < width
      ensures LaneState(a[..], b[..], c[..], width, l) == INIT
    {
      assert Lane(a[..], width, l) == A_INIT;
      assert Lane(b[..], width, l) == B_INIT;
      assert Lane(c[..], width, l) == C_INIT;
    }
  }

  // The blocks of one lane of a message in interleaved memory.
  ghost function LaneBlocks(data: seq<Reg>, width: nat, l: nat, k: nat): (r: seq<Block>)
    requires Wide(data, width) && l < width && k <= |data| / 16
    ensures |r| == k
  {
    Blocks(Lane(data, width, l))[..k]
  }

  lemma NextLaneBlock(data: seq<Reg>, width: nat, l: nat, k: nat)
    requires Wide(data, width) && l < width && k < |data| / 16
    ensures 16 * k + 16 <= |data|
    ensures Wide(data[16 * k..16 * k + 16], width)
    ensures LaneBlocks(data, width, l, k + 1)
        == LaneBlocks(data, width, l, k) + [Lane(data[16 * k..16 * k + 16], width, l)]
  {
    assert 16 * (|data| / 16) <= |data|;
    var m := data[16 * k..16 * k + 16];
    assert Blocks(Lane(data, width, l))[k] == Lane(m, width, l);
  }

  method VShabal256(width: nat, data: seq<Reg>, preTerm: Option<seq<Reg>>, term: seq<Reg>) returns (target: seq<Reg>)
    requires Wide(data, width) && OptionalRows(preTerm, width) && BlockRows(term, width)
    ensures |target| == 8 && Wide(target, width)
    ensures forall l :: 0 <= l < width ==>
      Lane(target, width, l)
        == Digest(MessageBlocks(Lane(data, width, l), LaneOption(preTerm, width, l), Lane(term, width, l)))
  {
    hide Round, Halves, Blocks, Absorb, Digest;
    var a, b, c := InitialRegisters(width);
    var wHigh: Word, wLow: Word := 0, 1;
    var num := |data| / 16;
    var ptr := 0;
    ghost var k := 0;
    FirstCounter();
    AbsorbNone();
    while num > 0
      invariant fresh(a) && fresh(b) && fresh(c) && Separate(a, b, c)
      invariant num >= 0 && ptr == 16 * k && k + num == |data| / 16
      invariant Registers(a[..], b[..], c[..], width)
      invariant forall l :: 0 <= l < width ==>
        LaneState(a[..], b[..], c[..], width, l) == Absorb(LaneBlocks(data, width, l, k))
      invariant Halves(wLow, wHigh, k + 1)
      decreases num
    {
      assert ptr + 16 <= 16 * (|data| / 16) <= |data|;
      var m := data[ptr..ptr + 16];
      VMessageRound(width, a, b, c, m, wLow, wHigh, k + 1);
      b, c := c, b;
      wLow, wHigh := IncrW(wLow, wHigh, k + 1);
      forall l | 0 <= l < width
        ensures LaneState(a[..], b[..], c[..], width, l) == Absorb(LaneBlocks(data, width, l, k + 1))
      {
        NextLaneBlock(data, width, l, k);
        AbsorbOne(LaneBlocks(data, width, l, k), Lane(m, width, l));
      }
      k := k + 1;
      ptr := ptr + 16;
      num := num - 1;
    }
    if preTerm.Some? {
      VMessageRound(width, a, b, c, preTerm.value, wLow, wHigh, k + 1);
      b, c := c, b;
      wLow, wHigh := IncrW(wLow, wHigh, k + 1);
      forall l | 0 <= l < width
        ensures LaneState(a[..], b[..], c[..], width, l)
          == Absorb(Blocks(Lane(data, width, l)) + LanePreTerm(preTerm, width, l))
      {
        assert LaneBlocks(data, width, l, k) == Blocks(Lane(data, width, l));
        AbsorbOne(LaneBlocks(data, width, l, k), Lane(preTerm.value, width, l));
      }
      k := k + 1;
    } else {
      forall l | 0 <= l < width
        ensures LaneState(a[..], b[..], c[..], width, l)
          == Absorb(Blocks(Lane(data, width, l)) + LanePreTerm(preTerm, width, l))
      {
        assert LaneBlocks(data, width, l, k) == Blocks(Lane(data, width, l)) + [];
      }
    }
    target := VTerminate(width, a, b, c, term, wLow, wHigh,
                         l requires 0 <= l < width => Blocks(Lane(data, width, l)) + LanePreTerm(preTerm, width, l), k);
    forall l | 0 <= l < width
      ensures Blocks(Lane(data, width, l)) + LanePreTerm(preTerm, width, l) + [Lane(term, width, l)]
           == MessageBlocks(Lane(data, width, l), LaneOption(preTerm, width, l), Lane(term, width, l))
    {
    }
  }

  lemma AbsorbNone()
    ensures Absorb([]) == INIT
  {
  }

  method VTerminate(width: nat, a: array<Reg>, b: array<Reg>, c: array<Reg>, term: seq<Reg>,
                    wLow: Word, wHigh: Word, ghost done: nat --> seq<Block>, ghost n: nat) returns (target: seq<Reg>)
    requires Separate(a, b, c) && Registers(a[..], b[..], c[..], width) && BlockRows(term, width)
    requires forall l :: 0 <= l < width ==> done.requires(l) && |done(l)| == n
    requires forall l :: 0 <= l < width ==> LaneState(a[..], b[..], c[..], width, l) == Absorb(done(l))
    requires Halves(wLow, wHigh, n + 1)
    modifies a, b, c
    ensures |target| == 8 && Wide(target, width)
    ensures forall l :: 0 <= l < width ==> Lane(target, width, l) == Digest(done(l) + [Lane(term, width, l)])
  {
    hide XorCounter, AddBlock, SubBlock, P, Absorb, Halves;
    VInputBlockAdd(width, b, term);
    VXorW(width, a, wLow, wHigh, n + 1);
    VApplyP(width, a, b, c[..], term);
    var x, y := b, c;
    forall l | 0 <= l < width
      ensures UniformState(a[..], x[..], y[..], term, width, l)
          == Finish(Absorb(done(l) + [Lane(term, width, l)]), n + 1, Lane(term, width, l), 0)
    {
      AbsorbOne(done(l), Lane(term, width, l));
    }
    for i := 0 to 3
      invariant {x, y} == {b, c} && Separate(a, x, y) && Registers(a[..], x[..], y[..], width)
      invariant forall l :: 0 <= l < width ==>
        UniformState(a[..], x[..], y[..], term, width, l)
          == Finish(Absorb(done(l) + [Lane(term, width, l)]), n + 1, Lane(term, width, l), i)
    {
      ghost var a0, x0, y0 := a[..], x[..], y[..];
      x, y := y, x;
      VXorW(width, a, wLow, wHigh, n + 1);
      VApplyP(width, a, x, y[..], term);
      forall l | 0 <= l < width
        ensures UniformState(a[..], x[..], y[..], term, width, l)
          == Finish(Absorb(done(l) + [Lane(term, width, l)]), n + 1, Lane(term, width, l), i + 1)
      {
        RoundAfterSub(LaneState(a0, x0, y0, width, l), n + 1, Lane(term, width, l));
      }
    }
    target := x[8..];
    forall l | 0 <= l < width
      ensures Lane(target, width, l) == Digest(done(l) + [Lane(term, width, l)])
    {
      var blocks := done(l) + [Lane(term, width, l)];
      assert blocks[|blocks| - 1] == Lane(term, width, l);
      assert Lane(target, width, l) == Lane(x[..], width, l)[8..];
    }
  }

  // Registers that still lack the block subtraction of the published round.
  ghost function UniformState(a: seq<Reg>, b: seq<Reg>, c: seq<Reg>, term: seq<Reg>, width: nat, l: nat): State
    requires Registers(a, b, c, width) && BlockRows(term, width) && l < width
  {
    State(Lane(a, width, l), SubBlock(Lane(c, width, l), Lane(term, width, l)), Lane(b, width, l))
  }
}
