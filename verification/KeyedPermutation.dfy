// The keyed permutation P of Shabal: 48 steps on the registers (A, B), driven by
// the register C and one message block. The published form (two index-formula
// loops) is the specification; the straight-line form is proved equal to it, and
// P is proved a bijection on (A, B).
module KeyedPermutation {
  import opened Words

  type AState = s: seq<Word> | |s| == 12 witness seq(12, _ => 0)
  type Block = s: seq<Word> | |s| == 16 witness seq(16, _ => 0)

  datatype AB = AB(a: AState, b: Block)

  // ----- one step -----

  function V(y: Word): Word { Times5(RotL15(y)) }

  function MixA(x: Word, v: Word, c: Word, b1: Word, b2: Word, m: Word): Word {
    Xor(Xor(Xor(Times3(Xor(Xor(x, v), c)), b1), b2), m)
  }

  function MixB(b: Word, x: Word): Word { Not(Xor(RotL1(b), x)) }

  // Reduces an index below 2n modulo n.
  function Wrap(x: nat, n: nat): nat {
    if x < n then x else x - n
  }

  function Elt(s: AB, i: nat, j: nat, c: Block, m: Block): AB
    requires i < 12 && j < 16
  {
    var x := MixA(s.a[i], V(s.a[Wrap(i + 11, 12)]), c[Wrap(24 - j, 16)],
                  s.b[Wrap(j + 13, 16)], AndNot(s.b[Wrap(j + 9, 16)], s.b[Wrap(j + 6, 16)]), m[j]);
    AB(s.a[i := x], s.b[j := MixB(s.b[j], x)])
  }

  // ----- P as published: rotate B, 48 steps by index formula, 36 additions of C -----

  function RotateB(b: Block): Block {
    seq(16, i requires 0 <= i < 16 => RotL17(b[i]))
  }

  function Steps(s: AB, k: nat, c: Block, m: Block): AB
    decreases k, |m|
  {
    if k == 0 then s else Elt(Steps(s, k - 1, c, m), (k - 1) % 12, (k - 1) % 16, c, m)
  }

  function AddC(a: AState, c: Block, k: nat): AState
    decreases k, |c|
  {
    if k == 0 then a else
      var p := AddC(a, c, k - 1);
      p[(k - 1) % 12 := Plus(p[(k - 1) % 12], c[(k + 2) % 16])]
  }

  function P(s: AB, c: Block, m: Block): AB {
    var t := Steps(AB(s.a, RotateB(s.b)), 48, c, m);
    AB(AddC(t.a, c, 36), t.b)
  }

  // ----- the straight-line form -----

  // The registers after k of the 48 steps from s.
  ghost predicate At(a: seq<Word>, b: seq<Word>, s: AB, k: nat, c: Block, m: Block) {
    |a| == 12 && |b| == 16 && AB(a, b) == Steps(s, k, c, m)
  }

  lemma ModByDifference(k: nat, i: nat)
    requires i < 12 && (k - i) % 12 == 0
    ensures k % 12 == i
  {
  }

  method PermElt(a: array<Word>, b: array<Word>,
                 xa0: nat, xa1: nat, xb0: nat, xb1: nat, xb2: nat, xb3: nat, xc: Word, xm: Word,
                 ghost s: AB, ghost k: nat, ghost c: Block, ghost m: Block)
    requires a.Length == 12 && b.Length == 16 && a != b
    requires xa0 < 12 && (k - xa0) % 12 == 0 && xa1 == Wrap(xa0 + 11, 12)
    requires xb0 == k % 16 && xb1 == Wrap(xb0 + 13, 16) && xb2 == Wrap(xb0 + 9, 16) && xb3 == Wrap(xb0 + 6, 16)
    requires xc == c[Wrap(24 - xb0, 16)] && xm == m[xb0]
    requires At(a[..], b[..], s, k, c, m)
    modifies a, b
    ensures At(a[..], b[..], s, k + 1, c, m)
  {
    hide MixA, MixB, V, AndNot;
    ModByDifference(k, xa0);
    a[xa0] := MixA(a[xa0], V(a[xa1]), xc, b[xb1], AndNot(b[xb2], b[xb3]), xm);
    b[xb0] := MixB(b[xb0], a[xa0]);
  }

  method PermFirstRound(a: array<Word>, b: array<Word>, c: Block, m: Block, ghost s: AB)
    requires a.Length == 12 && b.Length == 16 && a != b
    requires At(a[..], b[..], s, 0, c, m)
    modifies a, b
    ensures At(a[..], b[..], s, 16, c, m)
  {
    hide MixA, MixB, V, AndNot, Steps, At;
    PermElt(a, b, 0, 11, 0, 13, 9, 6, c[8], m[0], s, 0, c, m);
    PermElt(a, b, 1, 0, 1, 14, 10, 7, c[7], m[1], s, 1, c, m);
    PermElt(a, b, 2, 1, 2, 15, 11, 8, c[6], m[2], s, 2, c, m);
    PermElt(a, b, 3, 2, 3, 0, 12, 9, c[5], m[3], s, 3, c, m);
    PermElt(a, b, 4, 3, 4, 1, 13, 10, c[4], m[4], s, 4, c, m);
    PermElt(a, b, 5, 4, 5, 2, 14, 11, c[3], m[5], s, 5, c, m);
    PermElt(a, b, 6, 5, 6, 3, 15, 12, c[2], m[6], s, 6, c, m);
    PermElt(a, b, 7, 6, 7, 4, 0, 13, c[1], m[7], s, 7, c, m);
    PermElt(a, b, 8, 7, 8, 5, 1, 14, c[0], m[8], s, 8, c, m);
    PermElt(a, b, 9, 8, 9, 6, 2, 15, c[15], m[9], s, 9, c, m);
    PermElt(a, b, 10, 9, 10, 7, 3, 0, c[14], m[10], s, 10, c, m);
    PermElt(a, b, 11, 10, 11, 8, 4, 1, c[13], m[11], s, 11, c, m);
    PermElt(a, b, 0, 11, 12, 9, 5, 2, c[12], m[12], s, 12, c, m);
    PermElt(a, b, 1, 0, 13, 10, 6, 3, c[11], m[13], s, 13, c, m);
    PermElt(a, b, 2, 1, 14, 11, 7, 4, c[10], m[14], s, 14, c, m);
    PermElt(a, b, 3, 2, 15, 12, 8, 5, c[9], m[15], s, 15, c, m);
  }

  method PermSecondRound(a: array<Word>, b: array<Word>, c: Block, m: Block, ghost s: AB)
    requires a.Length == 12 && b.Length == 16 && a != b
    requires At(a[..], b[..], s, 16, c, m)
    modifies a, b
    ensures At(a[..], b[..], s, 32, c, m)
  {
    hide MixA, MixB, V, AndNot, Steps, At;
    PermElt(a, b, 4, 3, 0, 13, 9, 6, c[8], m[0], s, 16, c, m);
    PermElt(a, b, 5, 4, 1, 14, 10, 7, c[7], m[1], s, 17, c, m);
    PermElt(a, b, 6, 5, 2, 15, 11, 8, c[6], m[2], s, 18, c, m);
    PermElt(a, b, 7, 6, 3, 0, 12, 9, c[5], m[3], s, 19, c, m);
    PermElt(a, b, 8, 7, 4, 1, 13, 10, c[4], m[4], s, 20, c, m);
    PermElt(a, b, 9, 8, 5, 2, 14, 11, c[3], m[5], s, 21, c, m);
    PermElt(a, b, 10, 9, 6, 3, 15, 12, c[2], m[6], s, 22, c, m);
    PermElt(a, b, 11, 10, 7, 4, 0, 13, c[1], m[7], s, 23, c, m);
    PermElt(a, b, 0, 11, 8, 5, 1, 14, c[0], m[8], s, 24, c, m);
    PermElt(a, b, 1, 0, 9, 6, 2, 15, c[15], m[9], s, 25, c, m);
    PermElt(a, b, 2, 1, 10, 7, 3, 0, c[14], m[10], s, 26, c, m);
    PermElt(a, b, 3, 2, 11, 8, 4, 1, c[13], m[11], s, 27, c, m);
    PermElt(a, b, 4, 3, 12, 9, 5, 2, c[12], m[12], s, 28, c, m);
    PermElt(a, b, 5, 4, 13, 10, 6, 3, c[11], m[13], s, 29, c, m);
    PermElt(a, b, 6, 5, 14, 11, 7, 4, c[10], m[14], s, 30, c, m);
    PermElt(a, b, 7, 6, 15, 12, 8, 5, c[9], m[15], s, 31, c, m);
  }

  method PermThirdRound(a: array<Word>, b: array<Word>, c: Block, m: Block, ghost s: AB)
    requires a.Length == 12 && b.Length == 16 && a != b
    requires At(a[..], b[..], s, 32, c, m)
    modifies a, b
    ensures At(a[..], b[..], s, 48, c, m)
  {
    hide MixA, MixB, V, AndNot, Steps, At;
    PermElt(a, b, 8, 7, 0, 13, 9, 6, c[8], m[0], s, 32, c, m);
    PermElt(a, b, 9, 8, 1, 14, 10, 7, c[7], m[1], s, 33, c, m);
    PermElt(a, b, 10, 9, 2, 15, 11, 8, c[6], m[2], s, 34, c, m);
    PermElt(a, b, 11, 10, 3, 0, 12, 9, c[5], m[3], s, 35, c, m);
    PermElt(a, b, 0, 11, 4, 1, 13, 10, c[4], m[4], s, 36, c, m);
    PermElt(a, b, 1, 0, 5, 2, 14, 11, c[3], m[5], s, 37, c, m);
    PermElt(a, b, 2, 1, 6, 3, 15, 12, c[2], m[6], s, 38, c, m);
    PermElt(a, b, 3, 2, 7, 4, 0, 13, c[1], m[7], s, 39, c, m);
    PermElt(a, b, 4, 3, 8, 5, 1, 14, c[0], m[8], s, 40, c, m);
    PermElt(a, b, 5, 4, 9, 6, 2, 15, c[15], m[9], s, 41, c, m);
    PermElt(a, b, 6, 5, 10, 7, 3, 0, c[14], m[10], s, 42, c, m);
    PermElt(a, b, 7, 6, 11, 8, 4, 1, c[13], m[11], s, 43, c, m);
    PermElt(a, b, 8, 7, 12, 9, 5, 2, c[12], m[12], s, 44, c, m);
    PermElt(a, b, 9, 8, 13, 10, 6, 3, c[11], m[13], s, 45, c, m);
    PermElt(a, b, 10, 9, 14, 11, 7, 4, c[10], m[14], s, 46, c, m);
    PermElt(a, b, 11, 10, 15, 12, 8, 5, c[9], m[15], s, 47, c, m);
  }

  method Perm(a: array<Word>, b: array<Word>, c: Block, m: Block)
    requires a.Length == 12 && b.Length == 16 && a != b
    modifies a, b
    ensures AB(a[..], b[..]) == Steps(old(AB(a[..], b[..])), 48, c, m)
  {
    ghost var s := AB(a[..], b[..]);
    PermFirstRound(a, b, c, m, s);
    PermSecondRound(a, b, c, m, s);
    PermThirdRound(a, b, c, m, s);
  }

  // ----- the closing additions -----

  // Register i after the first n of its additions in the published loop.
  function Sum(a: AState, c: Block, i: nat, n: nat): Word
    requires i < 12
    decreases n, |a|
  {
    if n == 0 then a[i] else Plus(Sum(a, c, i, n - 1), c[(i + 12 * (n - 1) + 3) % 16])
  }

  // The number of steps below k that touch register i.
  function Visits(k: nat, i: nat): nat
    requires i < 12
  {
    (k + 11 - i) / 12
  }

  lemma VisitsZero(i: nat)
    requires i < 12
    ensures Visits(0, i) == 0
  {
  }

  lemma VisitsStep(k: nat, i: nat)
    requires 0 < k && i < 12
    ensures (k - 1) % 12 == i ==> Visits(k - 1, i) + 1 == Visits(k, i) && k - 1 == i + 12 * Visits(k - 1, i)
    ensures (k - 1) % 12 != i ==> Visits(k - 1, i) == Visits(k, i)
  {
  }

  lemma {:induction false} AddCIsSum(a: AState, c: Block, i: nat, k: nat)
    requires i < 12
    ensures AddC(a, c, k)[i] == Sum(a, c, i, Visits(k, i))
    decreases k
  {
    hide Plus, Visits;
    if k == 0 {
      assert Visits(0, i) == 0 by { VisitsZero(i); }
    } else {
      AddCIsSum(a, c, i, k - 1);
      VisitsStep(k, i);
    }
  }

  lemma SumOfThree(a: AState, c: Block, i: nat)
    requires i < 12
    ensures Visits(36, i) == 3
    ensures Sum(a, c, i, 3) == Plus(Plus(Plus(a[i], c[(i + 3) % 16]), c[(i + 15) % 16]), c[(i + 11) % 16])
  {
    hide Plus;
    assert (i + 27) % 16 == (i + 11) % 16;
    assert Sum(a, c, i, 1) == Plus(a[i], c[(i + 3) % 16]);
    assert Sum(a, c, i, 2) == Plus(Sum(a, c, i, 1), c[(i + 15) % 16]);
  }

  // The code adds the same three words of C to each register, in another order.
  lemma ClosingAdditions(a: AState, c: Block, i: nat)
    requires i < 12
    ensures AddC(a, c, 36)[i] == Plus(Plus(Plus(a[i], c[(i + 11) % 16]), c[(i + 15) % 16]), c[(i + 3) % 16])
  {
    hide Plus, AddC, Sum, Visits;
    AddCIsSum(a, c, i, 36);
    SumOfThree(a, c, i);
    PlusReorder(a[i], c[(i + 3) % 16], c[(i + 15) % 16], c[(i + 11) % 16]);
  }

  lemma PlusReorder(w: Word, x: Word, y: Word, z: Word)
    ensures Plus(Plus(Plus(w, x), y), z) == Plus(Plus(Plus(w, z), y), x)
  {
    hide Plus;
    PlusSwap(Plus(w, x), y, z);
    PlusSwap(w, x, z);
    PlusSwap(Plus(w, z), x, y);
  }

  lemma PlusSwap(w: Word, x: Word, y: Word)
    ensures Plus(Plus(w, x), y) == Plus(Plus(w, y), x)
  {
    hide Plus;
    PlusAssoc(w, x, y);
    PlusAssoc(w, y, x);
    PlusComm(x, y);
  }

  method ApplyP(a: array<Word>, b: array<Word>, c: Block, m: Block)
    requires a.Length == 12 && b.Length == 16 && a != b
    modifies a, b
    ensures AB(a[..], b[..]) == P(old(AB(a[..], b[..])), c, m)
  {
    hide RotL17, Plus, AddC, Steps;
    for i := 0 to 16
      invariant a[..] == old(a[..])
      invariant forall k :: 0 <= k < i ==> b[k] == RotL17(old(b[k]))
      invariant forall k :: i <= k < 16 ==> b[k] == old(b[k])
    {
      b[i] := RotL17(b[i]);
    }
    assert b[..] == RotateB(old(b[..]));
    Perm(a, b, c, m);
    ghost var t := AB(a[..], b[..]);
    for i := 0 to 12
      invariant b[..] == t.b
      invariant forall k :: 0 <= k < i ==>
        a[k] == Plus(Plus(Plus(t.a[k], c[(k + 11) % 16]), c[(k + 15) % 16]), c[(k + 3) % 16])
      invariant forall k :: i <= k < 12 ==> a[k] == t.a[k]
    {
      a[i] := Plus(Plus(Plus(a[i], c[(i + 11) % 16]), c[(i + 15) % 16]), c[(i + 3) % 16]);
    }
    forall i | 0 <= i < 12
      ensures a[i] == AddC(t.a, c, 36)[i]
    {
      ClosingAdditions(t.a, c, i);
    }
    assert a[..] == AddC(t.a, c, 36);
  }

  // ----- P is a bijection on (A, B) -----

  function UnMixA(z: Word, v: Word, c: Word, b1: Word, b2: Word, m: Word): Word {
    Xor(Xor(Third(Xor(Xor(Xor(z, m), b2), b1)), c), v)
  }

  function UnMixB(b: Word, x: Word): Word { RotR1(Xor(Not(b), x)) }

  function UnElt(s: AB, i: nat, j: nat, c: Block, m: Block): AB
    requires i < 12 && j < 16
  {
    var x := UnMixA(s.a[i], V(s.a[Wrap(i + 11, 12)]), c[Wrap(24 - j, 16)],
                    s.b[Wrap(j + 13, 16)], AndNot(s.b[Wrap(j + 9, 16)], s.b[Wrap(j + 6, 16)]), m[j]);
    AB(s.a[i := x], s.b[j := UnMixB(s.b[j], s.a[i])])
  }

  lemma MixAInverse(x: Word, v: Word, c: Word, b1: Word, b2: Word, m: Word)
    ensures UnMixA(MixA(x, v, c, b1, b2, m), v, c, b1, b2, m) == x
    ensures MixA(UnMixA(x, v, c, b1, b2, m), v, c, b1, b2, m) == x
  {
    hide Xor, Times3, Third;
    var t := Times3(Xor(Xor(x, v), c));
    XorCancel(Xor(Xor(t, b1), b2), m);
    XorCancel(Xor(t, b1), b2);
    XorCancel(t, b1);
    TripleThird(Xor(Xor(x, v), c));
    XorCancel(Xor(x, v), c);
    XorCancel(x, v);
    var u := Third(Xor(Xor(Xor(x, m), b2), b1));
    XorCancel(Xor(u, c), v);
    XorCancel(u, c);
    TripleThird(Xor(Xor(Xor(x, m), b2), b1));
    XorCancel(Xor(Xor(x, m), b2), b1);
    XorCancel(Xor(x, m), b2);
    XorCancel(x, m);
  }

  lemma MixBInverse(b: Word, x: Word)
    ensures UnMixB(MixB(b, x), x) == b
    ensures MixB(UnMixB(b, x), x) == b
  {
    hide Xor, Not, RotL1, RotR1;
    NotNot(Xor(RotL1(b), x));
    XorCancel(RotL1(b), x);
    RotateBack(b, RotL1(b));
    RotateBack(RotR1(Xor(Not(b), x)), Xor(Not(b), x));
    XorCancel(Not(b), x);
    NotNot(b);
  }

  // The words a step reads besides the two it rewrites are not the ones it rewrites.
  lemma EltInverse(s: AB, i: nat, j: nat, c: Block, m: Block)
    requires i < 12 && j < 16
    ensures UnElt(Elt(s, i, j, c, m), i, j, c, m) == s
    ensures Elt(UnElt(s, i, j, c, m), i, j, c, m) == s
  {
    hide MixA, MixB, UnMixA, UnMixB, V, AndNot;
    var v, cc := V(s.a[Wrap(i + 11, 12)]), c[Wrap(24 - j, 16)];
    var b1, b2 := s.b[Wrap(j + 13, 16)], AndNot(s.b[Wrap(j + 9, 16)], s.b[Wrap(j + 6, 16)]);
    MixAInverse(s.a[i], v, cc, b1, b2, m[j]);
    MixBInverse(s.b[j], MixA(s.a[i], v, cc, b1, b2, m[j]));
    MixBInverse(s.b[j], s.a[i]);
    var t, u := Elt(s, i, j, c, m), UnElt(s, i, j, c, m);
    assert UnElt(t, i, j, c, m).a == s.a && UnElt(t, i, j, c, m).b == s.b;
    assert Elt(u, i, j, c, m).a == s.a && Elt(u, i, j, c, m).b == s.b;
  }

  // Steps k - 1, ..., 0 undone in that order.
  function UnSteps(s: AB, k: nat, c: Block, m: Block): AB
    decreases k, |m|
  {
    if k == 0 then s else UnSteps(UnElt(s, (k - 1) % 12, (k - 1) % 16, c, m), k - 1, c, m)
  }

  lemma {:induction false} StepsInverse(s: AB, k: nat, c: Block, m: Block)
    ensures UnSteps(Steps(s, k, c, m), k, c, m) == s
    ensures Steps(UnSteps(s, k, c, m), k, c, m) == s
    decreases k
  {
    hide Elt, UnElt;
    if k > 0 {
      EltInverse(Steps(s, k - 1, c, m), (k - 1) % 12, (k - 1) % 16, c, m);
      StepsInverse(s, k - 1, c, m);
      EltInverse(s, (k - 1) % 12, (k - 1) % 16, c, m);
      StepsInverse(UnElt(s, (k - 1) % 12, (k - 1) % 16, c, m), k - 1, c, m);
    }
  }

  function UnAddC(a: AState, c: Block, k: nat): AState
    decreases k, |c|
  {
    if k == 0 then a else
      UnAddC(a[(k - 1) % 12 := Minus(a[(k - 1) % 12], c[(k + 2) % 16])], c, k - 1)
  }

  lemma {:induction false} AddCInverse(a: AState, c: Block, k: nat)
    ensures UnAddC(AddC(a, c, k), c, k) == a
    ensures AddC(UnAddC(a, c, k), c, k) == a
    decreases k
  {
    hide Plus, Minus;
    if k > 0 {
      var i, w := (k - 1) % 12, c[(k + 2) % 16];
      var p := AddC(a, c, k - 1);
      PlusMinus(p[i], w);
      assert AddC(a, c, k)[i := Minus(AddC(a, c, k)[i], w)] == p;
      AddCInverse(a, c, k - 1);
      var q := a[i := Minus(a[i], w)];
      PlusMinus(a[i], w);
      AddCInverse(q, c, k - 1);
      assert q[i := Plus(q[i], w)] == a;
    }
  }

  function UnrotateB(b: Block): Block {
    seq(16, i requires 0 <= i < 16 => RotR17(b[i]))
  }

  lemma RotateBInverse(b: Block)
    ensures UnrotateB(RotateB(b)) == b && RotateB(UnrotateB(b)) == b
  {
    hide RotL17, RotR17;
    forall i | 0 <= i < 16
      ensures RotR17(RotL17(b[i])) == b[i] && RotL17(RotR17(b[i])) == b[i]
    {
      RotateBack(b[i], RotL17(b[i]));
      RotateBack(RotR17(b[i]), b[i]);
    }
  }

  function UnP(s: AB, c: Block, m: Block): AB {
    var t := UnSteps(AB(UnAddC(s.a, c, 36), s.b), 48, c, m);
    AB(t.a, UnrotateB(t.b))
  }

  // For fixed C and message block, P is a bijection on (A, B) with inverse UnP.
  lemma PBijective(s: AB, c: Block, m: Block)
    ensures UnP(P(s, c, m), c, m) == s
    ensures P(UnP(s, c, m), c, m) == s
  {
    hide Steps, UnSteps, AddC, UnAddC, RotateB, UnrotateB;
    var t := Steps(AB(s.a, RotateB(s.b)), 48, c, m);
    AddCInverse(t.a, c, 36);
    StepsInverse(AB(s.a, RotateB(s.b)), 48, c, m);
    RotateBInverse(s.b);
    var u := UnSteps(AB(UnAddC(s.a, c, 36), s.b), 48, c, m);
    RotateBInverse(u.b);
    StepsInverse(AB(UnAddC(s.a, c, 36), s.b), 48, c, m);
    AddCInverse(s.a, c, 36);
  }
}
