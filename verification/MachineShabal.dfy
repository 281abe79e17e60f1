// Shabal-256 on machine words: registers of bit vectors that shift by one place a step.
module MachineShabal {
  import opened Words
  import opened KeyedPermutation
  import opened Shabal
  import opened MachineWords

  datatype Twelve = Twelve(
    w0: Bits, w1: Bits, w2: Bits, w3: Bits, w4: Bits, w5: Bits,
    w6: Bits, w7: Bits, w8: Bits, w9: Bits, w10: Bits, w11: Bits)

  datatype Sixteen = Sixteen(
    w0: Bits, w1: Bits, w2: Bits, w3: Bits, w4: Bits, w5: Bits, w6: Bits, w7: Bits,
    w8: Bits, w9: Bits, w10: Bits, w11: Bits, w12: Bits, w13: Bits, w14: Bits, w15: Bits)

  // ----- the hash on bits -----

  datatype Registers = Registers(a: Twelve, b: Sixteen)

  function NextA(x: Bits, y: Bits, c: Bits, b1: Bits, b2: Bits, b3: Bits, m: Bits): Bits {
    var t := BitXor(BitXor(x, BitFivefold(BitRotL15(y))), c);
    BitXor(BitXor(BitXor(BitTriple(t), b1), BitAndNot(b2, b3)), m)
  }

  function NextB(b: Bits, x: Bits): Bits {
    !(b.RotateLeft(1) ^ x)
  }

  // One step: the new words of A and B come in at the end.
  function Step(r: Registers, c: Bits, m: Bits): Registers {
    var a, b := r.a, r.b;
    var x := NextA(a.w0, a.w11, c, b.w13, b.w9, b.w6, m);
    Registers(Twelve(a.w1, a.w2, a.w3, a.w4, a.w5, a.w6, a.w7, a.w8, a.w9, a.w10, a.w11, x),
              Sixteen(b.w1, b.w2, b.w3, b.w4, b.w5, b.w6, b.w7, b.w8,
                      b.w9, b.w10, b.w11, b.w12, b.w13, b.w14, b.w15, NextB(b.w0, x)))
  }

  function Four(r: Registers, c0: Bits, c1: Bits, c2: Bits, c3: Bits,
                m0: Bits, m1: Bits, m2: Bits, m3: Bits): Registers {
    Step(Step(Step(Step(r, c0, m0), c1, m1), c2, m2), c3, m3)
  }

  // Sixteen steps: C is read downwards from word 8.
  function Pass(r: Registers, c: Sixteen, m: Sixteen): Registers {
    var r := Four(r, c.w8, c.w7, c.w6, c.w5, m.w0, m.w1, m.w2, m.w3);
    var r := Four(r, c.w4, c.w3, c.w2, c.w1, m.w4, m.w5, m.w6, m.w7);
    var r := Four(r, c.w0, c.w15, c.w14, c.w13, m.w8, m.w9, m.w10, m.w11);
    Four(r, c.w12, c.w11, c.w10, c.w9, m.w12, m.w13, m.w14, m.w15)
  }

  function Turn17(b: Sixteen): Sixteen {
    Sixteen(BitRotL17(b.w0), BitRotL17(b.w1), BitRotL17(b.w2), BitRotL17(b.w3),
            BitRotL17(b.w4), BitRotL17(b.w5), BitRotL17(b.w6), BitRotL17(b.w7),
            BitRotL17(b.w8), BitRotL17(b.w9), BitRotL17(b.w10), BitRotL17(b.w11),
            BitRotL17(b.w12), BitRotL17(b.w13), BitRotL17(b.w14), BitRotL17(b.w15))
  }

  function Plus12(a: Twelve, x: Twelve): Twelve {
    Twelve(BitPlus(a.w0, x.w0), BitPlus(a.w1, x.w1), BitPlus(a.w2, x.w2), BitPlus(a.w3, x.w3),
           BitPlus(a.w4, x.w4), BitPlus(a.w5, x.w5), BitPlus(a.w6, x.w6), BitPlus(a.w7, x.w7),
           BitPlus(a.w8, x.w8), BitPlus(a.w9, x.w9), BitPlus(a.w10, x.w10), BitPlus(a.w11, x.w11))
  }

  // Twelve words of a ring of sixteen.
  function From3(c: Sixteen): Twelve {
    Twelve(c.w3, c.w4, c.w5, c.w6, c.w7, c.w8, c.w9, c.w10, c.w11, c.w12, c.w13, c.w14)
  }

  function From11(c: Sixteen): Twelve {
    Twelve(c.w11, c.w12, c.w13, c.w14, c.w15, c.w0, c.w1, c.w2, c.w3, c.w4, c.w5, c.w6)
  }

  function From15(c: Sixteen): Twelve {
    Twelve(c.w15, c.w0, c.w1, c.w2, c.w3, c.w4, c.w5, c.w6, c.w7, c.w8, c.w9, c.w10)
  }

  function Close(a: Twelve, c: Sixteen): Twelve {
    Plus12(Plus12(Plus12(a, From11(c)), From15(c)), From3(c))
  }

  function Plus16(b: Sixteen, m: Sixteen): Sixteen {
    Sixteen(BitPlus(b.w0, m.w0), BitPlus(b.w1, m.w1), BitPlus(b.w2, m.w2), BitPlus(b.w3, m.w3),
            BitPlus(b.w4, m.w4), BitPlus(b.w5, m.w5), BitPlus(b.w6, m.w6), BitPlus(b.w7, m.w7),
            BitPlus(b.w8, m.w8), BitPlus(b.w9, m.w9), BitPlus(b.w10, m.w10), BitPlus(b.w11, m.w11),
            BitPlus(b.w12, m.w12), BitPlus(b.w13, m.w13), BitPlus(b.w14, m.w14), BitPlus(b.w15, m.w15))
  }

  function Minus16(b: Sixteen, m: Sixteen): Sixteen {
    Sixteen(BitMinus(b.w0, m.w0), BitMinus(b.w1, m.w1), BitMinus(b.w2, m.w2), BitMinus(b.w3, m.w3),
            BitMinus(b.w4, m.w4), BitMinus(b.w5, m.w5), BitMinus(b.w6, m.w6), BitMinus(b.w7, m.w7),
            BitMinus(b.w8, m.w8), BitMinus(b.w9, m.w9), BitMinus(b.w10, m.w10), BitMinus(b.w11, m.w11),
            BitMinus(b.w12, m.w12), BitMinus(b.w13, m.w13), BitMinus(b.w14, m.w14), BitMinus(b.w15, m.w15))
  }

  datatype Chain = Chain(a: Twelve, b: Sixteen, c: Sixteen)

  // The registers before the steps of a round, and the state after its additions.
  function Opened(s: Chain, low: Bits, high: Bits, m: Sixteen): Registers {
    var a := s.a.(w0 := BitXor(s.a.w0, low), w1 := BitXor(s.a.w1, high));
    Registers(a, Turn17(Plus16(s.b, m)))
  }

  function Closed(s: Chain, m: Sixteen, r: Registers): Chain {
    Chain(Close(r.a, s.c), Minus16(s.c, m), r.b)
  }

  function RoundBits(s: Chain, low: Bits, high: Bits, m: Sixteen): Chain {
    Closed(s, m, Pass(Pass(Pass(Opened(s, low, high, m), s.c, m), s.c, m), s.c, m))
  }

  // ----- the words that the bits stand for -----

  function At12(q: Twelve, k: nat): Bits {
    if k == 0 then q.w0 else if k == 1 then q.w1 else if k == 2 then q.w2 else if k == 3 then q.w3 else
    if k == 4 then q.w4 else if k == 5 then q.w5 else if k == 6 then q.w6 else if k == 7 then q.w7 else
    if k == 8 then q.w8 else if k == 9 then q.w9 else if k == 10 then q.w10 else q.w11
  }

  function At16(q: Sixteen, k: nat): Bits {
    if k == 0 then q.w0 else if k == 1 then q.w1 else if k == 2 then q.w2 else if k == 3 then q.w3 else
    if k == 4 then q.w4 else if k == 5 then q.w5 else if k == 6 then q.w6 else if k == 7 then q.w7 else
    if k == 8 then q.w8 else if k == 9 then q.w9 else if k == 10 then q.w10 else if k == 11 then q.w11 else
    if k == 12 then q.w12 else if k == 13 then q.w13 else if k == 14 then q.w14 else q.w15
  }

  function List12(q: Twelve): (r: seq<Bits>)
    ensures |r| == 12
  {
    seq(12, k requires 0 <= k < 12 => At12(q, k))
  }

  function List16(q: Sixteen): (r: seq<Bits>)
    ensures |r| == 16
  {
    seq(16, k requires 0 <= k < 16 => At16(q, k))
  }

  // The words are the numbers of the bits.
  ghost predicate Is12(a: AState, q: Twelve) {
    forall k | 0 <= k < 12 :: a[k] == Num(At12(q, k))
  }

  ghost predicate Is16(b: Block, q: Sixteen) {
    forall k | 0 <= k < 16 :: b[k] == Num(At16(q, k))
  }

  ghost predicate Is(s: State, q: Chain) {
    Is12(s.a, q.a) && Is16(s.b, q.b) && Is16(s.c, q.c)
  }

  // ----- one step is one step -----

  lemma NextBIs(b: Bits, x: Bits)
    ensures NextB(b, x) == BitNot(BitXor(BitRotL1(b), x))
  {
  }

  lemma NextAOfMachine(x: Bits, y: Bits, c: Bits, b1: Bits, b2: Bits, b3: Bits, m: Bits)
    ensures MixA(Num(x), V(Num(y)), Num(c), Num(b1), AndNot(Num(b2), Num(b3)), Num(m))
         == Num(NextA(x, y, c, b1, b2, b3, m))
  {
    hide Num, Xor, AndNot, RotL15, Times3, Times5;
    hide BitXor, BitAndNot, BitTriple, BitFivefold, BitRotL15;
    var v := BitFivefold(BitRotL15(y));
    var t := BitXor(BitXor(x, v), c);
    var u := BitXor(BitTriple(t), b1);
    RotationsOfMachine(y);
    FivefoldOfMachine(BitRotL15(y));
    XorOfMachine(x, v);
    XorOfMachine(BitXor(x, v), c);
    TripleOfMachine(t);
    AndNotOfMachine(b2, b3);
    XorOfMachine(BitTriple(t), b1);
    XorOfMachine(u, BitAndNot(b2, b3));
    XorOfMachine(BitXor(u, BitAndNot(b2, b3)), m);
  }

  lemma NextBOfMachine(b: Bits, x: Bits)
    ensures MixB(Num(b), Num(x)) == Num(NextB(b, x))
  {
    hide Num, Xor, RotL1, NextB, BitXor, BitNot, BitRotL1;
    NextBIs(b, x);
    RotationsOfMachine(b);
    XorOfMachine(BitRotL1(b), x);
    NotOfMachine(BitXor(BitRotL1(b), x));
  }

  // A ring s read from position p on is the queue q.
  ghost predicate Reads(s: seq<Word>, p: nat, q: seq<Bits>) {
    && |q| == |s| && p < |s|
    && forall k | 0 <= k < |s| :: s[Wrap(p + k, |s|)] == Num(q[k])
  }

  // To replace the word at the position and move on is to take the front of the queue and append.
  lemma Queue(s: seq<Word>, p: nat, q: seq<Bits>, w: Bits)
    requires Reads(s, p, q)
    ensures Reads(s[p := Num(w)], Wrap(p + 1, |s|), q[1..] + [w])
  {
    hide Num;
    var n, t, r := |s|, s[p := Num(w)], q[1..] + [w];
    forall k | 0 <= k < n
      ensures t[Wrap(Wrap(p + 1, n) + k, n)] == Num(r[k])
    {
      if k < n - 1 {
        assert s[Wrap(p + (k + 1), n)] == Num(q[k + 1]);
      }
    }
  }

  // The registers r are those of s at the positions i and j.
  ghost predicate Stands(r: Registers, s: AB, i: nat, j: nat) {
    Reads(s.a, i, List12(r.a)) && Reads(s.b, j, List16(r.b))
  }

  lemma StepOfMachine(r: Registers, s: AB, i: nat, j: nat, c: Block, m: Block, cw: Bits, mw: Bits)
    requires Stands(r, s, i, j)
    requires Num(cw) == c[Wrap(24 - j, 16)] && Num(mw) == m[j]
    ensures Stands(Step(r, cw, mw), Elt(s, i, j, c, m), Wrap(i + 1, 12), Wrap(j + 1, 16))
  {
    hide Num, MixA, MixB, NextA, NextB, V, AndNot, List12, List16, Step, Reads;
    var a, b, u := r.a, r.b, Step(r, cw, mw);
    OperandsA(s.a, i, a);
    OperandsB(s.b, j, b);
    NextAOfMachine(a.w0, a.w11, cw, b.w13, b.w9, b.w6, mw);
    NextBOfMachine(b.w0, u.a.w11);
    Moved(r, cw, mw);
    Queue(s.a, i, List12(a), u.a.w11);
    Queue(s.b, j, List16(b), u.b.w15);
  }

  lemma OperandsA(s: AState, i: nat, a: Twelve)
    requires Reads(s, i, List12(a))
    ensures i < 12 && s[i] == Num(a.w0) && s[Wrap(i + 11, 12)] == Num(a.w11)
  {
    hide Num, List12;
    var q := List12(a);
    assert s[Wrap(i + 0, 12)] == Num(q[0]) && s[Wrap(i + 11, 12)] == Num(q[11]);
    EndsOf(a);
  }

  lemma OperandsB(s: Block, j: nat, b: Sixteen)
    requires Reads(s, j, List16(b))
    ensures j < 16 && s[j] == Num(b.w0) && s[Wrap(j + 13, 16)] == Num(b.w13)
    ensures s[Wrap(j + 9, 16)] == Num(b.w9) && s[Wrap(j + 6, 16)] == Num(b.w6)
  {
    hide Num, List16;
    var q := List16(b);
    assert s[Wrap(j + 0, 16)] == Num(q[0]) && s[Wrap(j + 13, 16)] == Num(q[13]);
    assert s[Wrap(j + 9, 16)] == Num(q[9]) && s[Wrap(j + 6, 16)] == Num(q[6]);
    AllOf(b);
  }

  lemma Moved(r: Registers, cw: Bits, mw: Bits)
    ensures var u := Step(r, cw, mw);
            && u.a.w11 == NextA(r.a.w0, r.a.w11, cw, r.b.w13, r.b.w9, r.b.w6, mw)
            && u.b.w15 == NextB(r.b.w0, u.a.w11)
            && List12(u.a) == List12(r.a)[1..] + [u.a.w11]
            && List16(u.b) == List16(r.b)[1..] + [u.b.w15]
  {
    hide NextA, NextB, List12, List16;
    var u := Step(r, cw, mw);
    MovedA(r.a, u.a);
    MovedB(r.b, u.b);
  }

  lemma MovedA(a: Twelve, u: Twelve)
    requires u == Twelve(a.w1, a.w2, a.w3, a.w4, a.w5, a.w6, a.w7, a.w8, a.w9, a.w10, a.w11, u.w11)
    ensures List12(u) == List12(a)[1..] + [u.w11]
  {
  }

  lemma MovedB(b: Sixteen, u: Sixteen)
    requires u == Sixteen(b.w1, b.w2, b.w3, b.w4, b.w5, b.w6, b.w7, b.w8,
                          b.w9, b.w10, b.w11, b.w12, b.w13, b.w14, b.w15, u.w15)
    ensures List16(u) == List16(b)[1..] + [u.w15]
  {
  }

  lemma EndsOf(a: Twelve)
    ensures List12(a)[0] == a.w0 && List12(a)[11] == a.w11
  {
  }

  lemma AllOf(b: Sixteen)
    ensures var q := List16(b);
            && q[0] == b.w0 && q[1] == b.w1 && q[2] == b.w2 && q[3] == b.w3
            && q[4] == b.w4 && q[5] == b.w5 && q[6] == b.w6 && q[7] == b.w7
            && q[8] == b.w8 && q[9] == b.w9 && q[10] == b.w10 && q[11] == b.w11
            && q[12] == b.w12 && q[13] == b.w13 && q[14] == b.w14 && q[15] == b.w15
  {
  }

  // ----- sixteen steps, and all of them -----

  lemma StepAt(r: Registers, s: AB, k: nat, j: nat, c: Block, m: Block, cw: Bits, mw: Bits)
    requires j == k % 16 && Stands(r, Steps(s, k, c, m), k % 12, j)
    requires Num(cw) == c[Wrap(24 - j, 16)] && Num(mw) == m[j]
    ensures Stands(Step(r, cw, mw), Steps(s, k + 1, c, m), (k + 1) % 12, Wrap(j + 1, 16))
  {
    hide Num, Stands, Step, Steps, Elt;
    OneStep(s, k, c, m);
    OneOn(k);
    StepOfMachine(r, Steps(s, k, c, m), k % 12, j, c, m, cw, mw);
  }

  lemma OneStep(s: AB, k: nat, c: Block, m: Block)
    ensures Steps(s, k + 1, c, m) == Elt(Steps(s, k, c, m), k % 12, k % 16, c, m)
  {
    hide Elt;
  }

  lemma OneOn(k: nat)
    ensures (k + 1) % 12 == Wrap(k % 12 + 1, 12)
  {
  }

  lemma Within(k: nat, j: nat)
    requires j == k % 16 && j <= 12
    ensures (k + 1) % 16 == j + 1 && (k + 2) % 16 == j + 2 && (k + 3) % 16 == j + 3
  {
  }

  lemma FourAt(r: Registers, s: AB, k: nat, j: nat, c: Block, m: Block,
               c0: Bits, c1: Bits, c2: Bits, c3: Bits, m0: Bits, m1: Bits, m2: Bits, m3: Bits)
    requires j == k % 16 && j <= 12 && Stands(r, Steps(s, k, c, m), k % 12, j)
    requires Num(c0) == c[Wrap(24 - j, 16)] && Num(c1) == c[Wrap(23 - j, 16)]
    requires Num(c2) == c[Wrap(22 - j, 16)] && Num(c3) == c[Wrap(21 - j, 16)]
    requires Num(m0) == m[j] && Num(m1) == m[j + 1] && Num(m2) == m[j + 2] && Num(m3) == m[j + 3]
    ensures Stands(Four(r, c0, c1, c2, c3, m0, m1, m2, m3), Steps(s, k + 4, c, m), (k + 4) % 12, Wrap(j + 4, 16))
  {
    hide Num, Stands, Step, Steps, Elt;
    Within(k, j);
    StepAt(r, s, k, j, c, m, c0, m0);
    var r1 := Step(r, c0, m0);
    StepAt(r1, s, k + 1, j + 1, c, m, c1, m1);
    var r2 := Step(r1, c1, m1);
    StepAt(r2, s, k + 2, j + 2, c, m, c2, m2);
    StepAt(Step(r2, c2, m2), s, k + 3, j + 3, c, m, c3, m3);
  }

  lemma WordsOf(s: Block, b: Sixteen)
    requires Is16(s, b)
    ensures s[0] == Num(b.w0) && s[1] == Num(b.w1) && s[2] == Num(b.w2) && s[3] == Num(b.w3)
    ensures s[4] == Num(b.w4) && s[5] == Num(b.w5) && s[6] == Num(b.w6) && s[7] == Num(b.w7)
    ensures s[8] == Num(b.w8) && s[9] == Num(b.w9) && s[10] == Num(b.w10) && s[11] == Num(b.w11)
    ensures s[12] == Num(b.w12) && s[13] == Num(b.w13) && s[14] == Num(b.w14) && s[15] == Num(b.w15)
  {
    hide Num;
  }

  lemma Quarters(k: nat)
    requires k % 16 == 0
    ensures (k + 4) % 16 == 4 && (k + 8) % 16 == 8 && (k + 12) % 16 == 12
  {
  }

  lemma PassOfMachine(r: Registers, s: AB, k: nat, c: Block, m: Block, cq: Sixteen, mq: Sixteen)
    requires k % 16 == 0 && Stands(r, Steps(s, k, c, m), k % 12, 0)
    requires Is16(c, cq) && Is16(m, mq)
    ensures Stands(Pass(r, cq, mq), Steps(s, k + 16, c, m), (k + 16) % 12, 0)
  {
    hide Num, Stands, Four, Steps, Is16;
    WordsOf(c, cq);
    WordsOf(m, mq);
    Quarters(k);
    FourAt(r, s, k, 0, c, m, cq.w8, cq.w7, cq.w6, cq.w5, mq.w0, mq.w1, mq.w2, mq.w3);
    var r4 := Four(r, cq.w8, cq.w7, cq.w6, cq.w5, mq.w0, mq.w1, mq.w2, mq.w3);
    FourAt(r4, s, k + 4, 4, c, m, cq.w4, cq.w3, cq.w2, cq.w1, mq.w4, mq.w5, mq.w6, mq.w7);
    var r8 := Four(r4, cq.w4, cq.w3, cq.w2, cq.w1, mq.w4, mq.w5, mq.w6, mq.w7);
    FourAt(r8, s, k + 8, 8, c, m, cq.w0, cq.w15, cq.w14, cq.w13, mq.w8, mq.w9, mq.w10, mq.w11);
    var r12 := Four(r8, cq.w0, cq.w15, cq.w14, cq.w13, mq.w8, mq.w9, mq.w10, mq.w11);
    FourAt(r12, s, k + 12, 12, c, m, cq.w12, cq.w11, cq.w10, cq.w9, mq.w12, mq.w13, mq.w14, mq.w15);
  }

  // ----- what goes before and after the steps -----

  lemma AtTurn17(b: Sixteen, k: nat)
    ensures At16(Turn17(b), k) == BitRotL17(At16(b, k))
  {
    hide BitRotL17;
  }

  lemma AtPlus16(b: Sixteen, m: Sixteen, k: nat)
    ensures At16(Plus16(b, m), k) == BitPlus(At16(b, k), At16(m, k))
  {
    hide BitPlus;
  }

  lemma AtMinus16(b: Sixteen, m: Sixteen, k: nat)
    ensures At16(Minus16(b, m), k) == BitMinus(At16(b, k), At16(m, k))
  {
    hide BitMinus;
  }

  lemma AtPlus12(a: Twelve, x: Twelve, k: nat)
    ensures At12(Plus12(a, x), k) == BitPlus(At12(a, k), At12(x, k))
  {
    hide BitPlus;
  }

  lemma Entries12(q: Twelve)
    ensures At12(q, 0) == q.w0 && At12(q, 1) == q.w1 && At12(q, 2) == q.w2 && At12(q, 3) == q.w3
    ensures At12(q, 4) == q.w4 && At12(q, 5) == q.w5 && At12(q, 6) == q.w6 && At12(q, 7) == q.w7
    ensures At12(q, 8) == q.w8 && At12(q, 9) == q.w9 && At12(q, 10) == q.w10 && At12(q, 11) == q.w11
  {
  }

  lemma LowEntries(q: Sixteen)
    ensures At16(q, 0) == q.w0 && At16(q, 1) == q.w1 && At16(q, 2) == q.w2 && At16(q, 3) == q.w3
    ensures At16(q, 4) == q.w4 && At16(q, 5) == q.w5 && At16(q, 6) == q.w6 && At16(q, 7) == q.w7
  {
  }

  lemma HighEntries(q: Sixteen)
    ensures At16(q, 8) == q.w8 && At16(q, 9) == q.w9 && At16(q, 10) == q.w10 && At16(q, 11) == q.w11
    ensures At16(q, 12) == q.w12 && At16(q, 13) == q.w13 && At16(q, 14) == q.w14 && At16(q, 15) == q.w15
  {
  }

  lemma Words3(c: Sixteen)
    ensures At12(From3(c), 0) == At16(c, 3) && At12(From3(c), 1) == At16(c, 4)
    ensures At12(From3(c), 2) == At16(c, 5) && At12(From3(c), 3) == At16(c, 6)
    ensures At12(From3(c), 4) == At16(c, 7) && At12(From3(c), 5) == At16(c, 8)
    ensures At12(From3(c), 6) == At16(c, 9) && At12(From3(c), 7) == At16(c, 10)
    ensures At12(From3(c), 8) == At16(c, 11) && At12(From3(c), 9) == At16(c, 12)
    ensures At12(From3(c), 10) == At16(c, 13) && At12(From3(c), 11) == At16(c, 14)
  {
    hide At12, At16;
    Entries12(From3(c));
    LowEntries(c);
    HighEntries(c);
  }

  lemma Words11(c: Sixteen)
    ensures At12(From11(c), 0) == At16(c, 11) && At12(From11(c), 1) == At16(c, 12)
    ensures At12(From11(c), 2) == At16(c, 13) && At12(From11(c), 3) == At16(c, 14)
    ensures At12(From11(c), 4) == At16(c, 15) && At12(From11(c), 5) == At16(c, 0)
    ensures At12(From11(c), 6) == At16(c, 1) && At12(From11(c), 7) == At16(c, 2)
    ensures At12(From11(c), 8) == At16(c, 3) && At12(From11(c), 9) == At16(c, 4)
    ensures At12(From11(c), 10) == At16(c, 5) && At12(From11(c), 11) == At16(c, 6)
  {
    hide At12, At16;
    Entries12(From11(c));
    LowEntries(c);
    HighEntries(c);
  }

  lemma Words15(c: Sixteen)
    ensures At12(From15(c), 0) == At16(c, 15) && At12(From15(c), 1) == At16(c, 0)
    ensures At12(From15(c), 2) == At16(c, 1) && At12(From15(c), 3) == At16(c, 2)
    ensures At12(From15(c), 4) == At16(c, 3) && At12(From15(c), 5) == At16(c, 4)
    ensures At12(From15(c), 6) == At16(c, 5) && At12(From15(c), 7) == At16(c, 6)
    ensures At12(From15(c), 8) == At16(c, 7) && At12(From15(c), 9) == At16(c, 8)
    ensures At12(From15(c), 10) == At16(c, 9) && At12(From15(c), 11) == At16(c, 10)
  {
    hide At12, At16;
    Entries12(From15(c));
    LowEntries(c);
    HighEntries(c);
  }

  lemma Front(s: AB, r: Registers)
    ensures Stands(r, s, 0, 0) <==> Is12(s.a, r.a) && Is16(s.b, r.b)
  {
    hide Num, At12, At16;
    if Stands(r, s, 0, 0) {
      forall k | 0 <= k < 12
        ensures s.a[k] == Num(At12(r.a, k))
      {
        assert s.a[Wrap(0 + k, 12)] == Num(List12(r.a)[k]);
      }
      forall k | 0 <= k < 16
        ensures s.b[k] == Num(At16(r.b, k))
      {
        assert s.b[Wrap(0 + k, 16)] == Num(List16(r.b)[k]);
      }
    }
  }

  lemma OperationsOfMachine(b: Block, bq: Sixteen, m: Block, mq: Sixteen)
    requires Is16(b, bq) && Is16(m, mq)
    ensures Is16(RotateB(b), Turn17(bq))
    ensures Is16(AddBlock(b, m), Plus16(bq, mq))
    ensures Is16(SubBlock(b, m), Minus16(bq, mq))
  {
    hide Num, At16, RotL17, Plus, Minus, BitRotL17, BitPlus, BitMinus, Turn17, Plus16, Minus16;
    forall k | 0 <= k < 16
      ensures RotL17(b[k]) == Num(At16(Turn17(bq), k))
      ensures Plus(b[k], m[k]) == Num(At16(Plus16(bq, mq), k))
      ensures Minus(b[k], m[k]) == Num(At16(Minus16(bq, mq), k))
    {
      AtTurn17(bq, k);
      AtPlus16(bq, mq, k);
      AtMinus16(bq, mq, k);
      RotationsOfMachine(At16(bq, k));
      PlusOfMachine(At16(bq, k), At16(mq, k));
      MinusOfMachine(At16(bq, k), At16(mq, k));
    }
  }

  lemma ThreeSums(w: Bits, x: Bits, y: Bits, z: Bits)
    ensures Plus(Plus(Plus(Num(w), Num(x)), Num(y)), Num(z)) == Num(BitPlus(BitPlus(BitPlus(w, x), y), z))
  {
    hide Num, Plus, BitPlus;
    PlusOfMachine(w, x);
    PlusOfMachine(BitPlus(w, x), y);
    PlusOfMachine(BitPlus(BitPlus(w, x), y), z);
  }

  lemma ReadAhead(c: Block, cq: Sixteen, k: nat)
    requires k < 12 && Is16(c, cq)
    ensures c[(k + 11) % 16] == Num(At16(cq, Wrap(k + 11, 16)))
    ensures c[(k + 15) % 16] == Num(At16(cq, Wrap(k + 15, 16)))
    ensures c[(k + 3) % 16] == Num(At16(cq, k + 3))
  {
    hide Num, At16;
  }

  lemma CloseAt(a: AState, aq: Twelve, c: Block, cq: Sixteen, k: nat)
    requires k < 12 && Is12(a, aq) && Is16(c, cq)
    requires At12(From3(cq), k) == At16(cq, k + 3)
    requires At12(From11(cq), k) == At16(cq, Wrap(k + 11, 16))
    requires At12(From15(cq), k) == At16(cq, Wrap(k + 15, 16))
    ensures AddC(a, c, 36)[k] == Num(At12(Close(aq, cq), k))
  {
    hide Num, At12, At16, Is16, Plus, BitPlus, Plus12, From3, From11, From15, AddC;
    var x, y, z := From11(cq), From15(cq), From3(cq);
    var ax := Plus12(aq, x);
    AtPlus12(aq, x, k);
    AtPlus12(ax, y, k);
    AtPlus12(Plus12(ax, y), z, k);
    ClosingAdditions(a, c, k);
    ThreeSums(At12(aq, k), At12(x, k), At12(y, k), At12(z, k));
    ReadAhead(c, cq, k);
  }

  lemma CloseOfMachine(a: AState, aq: Twelve, c: Block, cq: Sixteen)
    requires Is12(a, aq) && Is16(c, cq)
    ensures Is12(AddC(a, c, 36), Close(aq, cq))
  {
    hide Num, At12, At16, Is16, Close, From3, From11, From15, AddC;
    Words3(cq);
    Words11(cq);
    Words15(cq);
    CloseAt(a, aq, c, cq, 0);
    CloseAt(a, aq, c, cq, 1);
    CloseAt(a, aq, c, cq, 2);
    CloseAt(a, aq, c, cq, 3);
    CloseAt(a, aq, c, cq, 4);
    CloseAt(a, aq, c, cq, 5);
    CloseAt(a, aq, c, cq, 6);
    CloseAt(a, aq, c, cq, 7);
    CloseAt(a, aq, c, cq, 8);
    CloseAt(a, aq, c, cq, 9);
    CloseAt(a, aq, c, cq, 10);
    CloseAt(a, aq, c, cq, 11);
  }

  // A round on machine words is a round on words.
  lemma RoundOfMachine(s: State, q: Chain, w: nat, low: Bits, high: Bits, m: Block, mq: Sixteen)
    requires Is(s, q) && Is16(m, mq)
    requires Num(low) == w % WORD_RANGE && Num(high) == w / WORD_RANGE % WORD_RANGE
    ensures Is(Round(s, w, m), RoundBits(q, low, high, mq))
  {
    hide Num, Is16, Steps, AddC, RotateB, AddBlock, SubBlock, Close, Pass, Turn17, Plus16, Minus16, Stands;
    var r := Opened(q, low, high, mq);
    var x := AB(XorCounter(s.a, w), RotateB(AddBlock(s.b, m)));
    CounterOfMachine(s.a, q.a, w, low, high);
    OperationsOfMachine(s.b, q.b, m, mq);
    OperationsOfMachine(AddBlock(s.b, m), Plus16(q.b, mq), m, mq);
    OperationsOfMachine(s.c, q.c, m, mq);
    PassesOfMachine(r, x, s.c, m, q.c, mq);
    var t := Steps(x, 48, s.c, m);
    CloseOfMachine(t.a, Pass(Pass(Pass(r, q.c, mq), q.c, mq), q.c, mq).a, s.c, q.c);
  }

  lemma CounterOfMachine(a: AState, q: Twelve, w: nat, low: Bits, high: Bits)
    requires Is12(a, q) && Num(low) == w % WORD_RANGE && Num(high) == w / WORD_RANGE % WORD_RANGE
    ensures Is12(XorCounter(a, w), q.(w0 := BitXor(q.w0, low), w1 := BitXor(q.w1, high)))
  {
    hide Num, Xor, BitXor;
    XorOfMachine(q.w0, low);
    XorOfMachine(q.w1, high);
    var u := q.(w0 := BitXor(q.w0, low), w1 := BitXor(q.w1, high));
    assert a[0] == Num(At12(q, 0)) && a[1] == Num(At12(q, 1));
    assert forall k | 2 <= k < 12 :: At12(u, k) == At12(q, k);
    hide At12;
  }

  lemma NoSteps(s: AB, c: Block, m: Block)
    ensures Steps(s, 0, c, m) == s
  {
  }

  lemma PassesOfMachine(r: Registers, s: AB, c: Block, m: Block, cq: Sixteen, mq: Sixteen)
    requires Is12(s.a, r.a) && Is16(s.b, r.b) && Is16(c, cq) && Is16(m, mq)
    ensures var t, u := Steps(s, 48, c, m), Pass(Pass(Pass(r, cq, mq), cq, mq), cq, mq);
            Is12(t.a, u.a) && Is16(t.b, u.b)
  {
    hide Num, Is12, Is16, Stands, Pass, Steps;
    NoSteps(s, c, m);
    Front(s, r);
    PassOfMachine(r, s, 0, c, m, cq, mq);
    PassOfMachine(Pass(r, cq, mq), s, 16, c, m, cq, mq);
    PassOfMachine(Pass(Pass(r, cq, mq), cq, mq), s, 32, c, m, cq, mq);
    Front(Steps(s, 48, c, m), Pass(Pass(Pass(r, cq, mq), cq, mq), cq, mq));
  }
}
