// The words as 32 bits of a machine: Num is the number that a bit vector stands for,
// and every named operation on words is the machine's own operation on the bits.
module MachineWords {
  import opened Words

  type Bits = bv32

  // ----- numbers -----

  function Byte0(a: Bits): bv8 { (a & 0xFF) as bv8 }
  function Byte1(a: Bits): bv8 { ((a >> 8) & 0xFF) as bv8 }
  function Byte2(a: Bits): bv8 { ((a >> 16) & 0xFF) as bv8 }
  function Byte3(a: Bits): bv8 { ((a >> 24) & 0xFF) as bv8 }
  function ByteNum(a: bv8): nat { a as nat }

  function Num(a: Bits): Word {
    BytesBounded(a);
    ByteNum(Byte0(a)) + 0x100 * (ByteNum(Byte1(a)) + 0x100 * (ByteNum(Byte2(a)) + 0x100 * ByteNum(Byte3(a))))
  }

  lemma BytesBounded(a: Bits)
    ensures ByteNum(Byte0(a)) < 0x100 && ByteNum(Byte1(a)) < 0x100
    ensures ByteNum(Byte2(a)) < 0x100 && ByteNum(Byte3(a)) < 0x100
  {
    hide ByteNum;
    ByteBounded(Byte0(a));
    ByteBounded(Byte1(a));
    ByteBounded(Byte2(a));
    ByteBounded(Byte3(a));
  }

  lemma ByteBounded(a: bv8)
    ensures ByteNum(a) < 0x100 && (a < 0x80 ==> ByteNum(a) < 0x80)
  {
  }

  lemma Literals(a: Bits)
    ensures Num(0) == 0 && Num(1) == 1 && Num(0xFFFF_FFFF) == WORD_RANGE - 1
    ensures Num(a) == 0 ==> a == 0
  {
  }

  // ----- the machine's operations -----

  function BitXor(a: Bits, b: Bits): Bits { a ^ b }
  function BitAndNot(a: Bits, b: Bits): Bits { a & !b }
  function BitNot(a: Bits): Bits { !a }
  function BitPlus(a: Bits, b: Bits): Bits { a + b }
  function BitMinus(a: Bits, b: Bits): Bits { a - b }
  function BitTriple(a: Bits): Bits { a * 3 }
  function BitFivefold(a: Bits): Bits { a * 5 }
  function BitRotL1(a: Bits): Bits { a.RotateLeft(1) }
  function BitRotL15(a: Bits): Bits { a.RotateLeft(15) }
  function BitRotL17(a: Bits): Bits { a.RotateLeft(17) }

  // ----- addition, by counting -----

  function Next(a: Bits): Bits { a + 1 }
  function Prev(a: Bits): Bits { a - 1 }
  function NextByte(a: bv8): bv8 { a + 1 }

  lemma NextByteNum(a: bv8)
    ensures ByteNum(NextByte(a)) == if a == 0xFF then 0 else ByteNum(a) + 1
    ensures a == 0xFF <==> ByteNum(a) == 0xFF
  {
  }

  lemma NextBytes(a: Bits)
    ensures var carry1 := Byte0(a) == 0xFF;
            var carry2 := carry1 && Byte1(a) == 0xFF;
            && Byte0(Next(a)) == NextByte(Byte0(a))
            && Byte1(Next(a)) == (if carry1 then NextByte(Byte1(a)) else Byte1(a))
            && Byte2(Next(a)) == (if carry2 then NextByte(Byte2(a)) else Byte2(a))
            && Byte3(Next(a)) == (if carry2 && Byte2(a) == 0xFF then NextByte(Byte3(a)) else Byte3(a))
  {
  }

  lemma NextNum(a: Bits)
    ensures Num(Next(a)) == if Num(a) == WORD_RANGE - 1 then 0 else Num(a) + 1
  {
    hide ByteNum, NextByte, Next, Byte0, Byte1, Byte2, Byte3;
    NextByteNum(Byte0(a));
    NextByteNum(Byte1(a));
    NextByteNum(Byte2(a));
    NextByteNum(Byte3(a));
    BytesBounded(a);
    NextBytes(a);
  }

  lemma OneOver(a: Bits, b: Bits)
    ensures BitPlus(a, b) == BitPlus(Next(a), Prev(b)) && Next(Prev(b)) == b && BitPlus(a, 0) == a
  {
  }

  lemma {:induction false} PlusOfMachine(a: Bits, b: Bits)
    ensures Plus(Num(a), Num(b)) == Num(BitPlus(a, b))
    decreases Num(b)
  {
    hide Num, Next, Prev, BitPlus;
    OneOver(a, b);
    Literals(b);
    if b != 0 {
      NextNum(Prev(b));
      NextNum(a);
      PlusOfMachine(Next(a), Prev(b));
    }
  }

  lemma MinusOfMachine(a: Bits, b: Bits)
    ensures Minus(Num(a), Num(b)) == Num(BitMinus(a, b))
  {
    hide Num, BitPlus, BitMinus, Plus, Minus;
    Restored(a, b);
    PlusOfMachine(BitMinus(a, b), b);
    PlusMinus(Num(BitMinus(a, b)), Num(b));
  }

  lemma Restored(a: Bits, b: Bits)
    ensures BitPlus(BitMinus(a, b), b) == a && BitPlus(a, BitNot(a)) == 0xFFFF_FFFF
  {
  }

  lemma NotOfMachine(a: Bits)
    ensures Num(a) + Num(BitNot(a)) == WORD_RANGE - 1
  {
    hide Num, BitPlus, BitNot;
    Restored(a, a);
    PlusOfMachine(a, BitNot(a));
    Literals(a);
  }

  lemma TripleOfMachine(a: Bits)
    ensures Times3(Num(a)) == Num(BitTriple(a))
  {
    hide Num, BitPlus, BitTriple;
    Sums(a);
    PlusOfMachine(a, a);
    PlusOfMachine(BitPlus(a, a), a);
    AddMod(Num(a) + Num(a), Num(a), WORD_RANGE);
  }

  lemma FivefoldOfMachine(a: Bits)
    ensures Times5(Num(a)) == Num(BitFivefold(a))
  {
    hide Num, BitPlus, BitFivefold;
    Sums(a);
    PlusOfMachine(a, a);
    PlusOfMachine(BitPlus(a, a), BitPlus(a, a));
    PlusOfMachine(BitPlus(BitPlus(a, a), BitPlus(a, a)), a);
    FiveTimes(Num(a));
  }

  lemma FiveTimes(x: Word)
    ensures Plus(Plus(Plus(x, x), Plus(x, x)), x) == Times5(x)
  {
    AddMod(x + x, (x + x) % WORD_RANGE, WORD_RANGE);
    AddMod(x + x, x + x, WORD_RANGE);
    AddMod(4 * x, x, WORD_RANGE);
  }

  lemma Sums(a: Bits)
    ensures BitTriple(a) == BitPlus(BitPlus(a, a), a)
    ensures BitFivefold(a) == BitPlus(BitPlus(BitPlus(a, a), BitPlus(a, a)), a)
  {
  }

  // ----- bit by bit -----

  function Double(a: Bits): Bits { a << 1 }
  function Half(a: Bits): Bits { a >> 1 }
  function Last(a: Bits): Bits { a & 1 }

  lemma Doubled(a: Bits)
    ensures Double(a) == BitPlus(a, a)
  {
  }

  lemma Halved(a: Bits)
    ensures BitPlus(Double(Half(a)), Last(a)) == a && (Last(a) == 0 || Last(a) == 1)
    ensures Byte3(Half(a)) < 0x80
  {
  }

  lemma HalfBound(a: Bits)
    ensures Num(Half(a)) < 0x8000_0000
  {
    hide Half, ByteNum, Byte0, Byte1, Byte2, Byte3;
    Halved(a);
    ByteBounded(Byte3(Half(a)));
    BytesBounded(Half(a));
  }

  lemma HalfNum(a: Bits)
    ensures Num(a) / 2 == Num(Half(a)) && Num(a) % 2 == Num(Last(a)) == if Last(a) == 1 then 1 else 0
  {
    hide BitPlus, Double, Half, Last, Num;
    var h := Half(a);
    Halved(a);
    HalfBound(a);
    Literals(a);
    Doubled(h);
    PlusOfMachine(h, h);
    PlusOfMachine(Double(h), Last(a));
  }

  lemma HalfOfXor(a: Bits, b: Bits)
    ensures Half(BitXor(a, b)) == BitXor(Half(a), Half(b))
    ensures Last(BitXor(a, b)) == if Last(a) == Last(b) then 0 else 1
    ensures BitXor(0, 0) == 0
  {
  }

  lemma HalfOfAndNot(a: Bits, b: Bits)
    ensures Half(BitAndNot(a, b)) == BitAndNot(Half(a), Half(b))
    ensures Last(BitAndNot(a, b)) == if Last(a) == 1 && Last(b) == 0 then 1 else 0
    ensures BitAndNot(0, 0) == 0
  {
  }

  lemma {:induction false} XorOfMachine(a: Bits, b: Bits)
    ensures Xor(Num(a), Num(b)) == Num(BitXor(a, b))
    decreases Num(a) + Num(b)
  {
    hide Num, Half, Last, BitXor, XorBits;
    XorBitsHalves(Num(a), Num(b));
    HalfNum(a);
    HalfNum(b);
    HalfOfXor(a, b);
    if Num(a) == 0 && Num(b) == 0 {
      Literals(a);
      Literals(b);
      XorBitsZero(0);
    } else {
      XorOfMachine(Half(a), Half(b));
      HalfNum(BitXor(a, b));
      Halved(a);
      Halved(b);
    }
  }

  lemma {:induction false} AndNotOfMachine(a: Bits, b: Bits)
    ensures AndNot(Num(a), Num(b)) == Num(BitAndNot(a, b))
    decreases Num(a) + Num(b)
  {
    hide Num, Half, Last, BitAndNot, AndNotBits;
    AndNotBitsHalves(Num(a), Num(b));
    HalfNum(a);
    HalfNum(b);
    HalfOfAndNot(a, b);
    if Num(a) == 0 && Num(b) == 0 {
      Literals(a);
      Literals(b);
      AndNotBitsZero();
    } else {
      AndNotOfMachine(Half(a), Half(b));
      HalfNum(BitAndNot(a, b));
      Halved(a);
      Halved(b);
    }
  }

  // ----- shifts and rotations -----

  function Left(a: Bits, n: nat): Bits
    decreases n
  {
    if n == 0 then a else Double(Left(a, n - 1))
  }

  function Right(a: Bits, n: nat): Bits
    decreases n
  {
    if n == 0 then a else Half(Right(a, n - 1))
  }

  lemma {:induction false} RightNum(a: Bits, n: nat)
    ensures Num(Right(a, n)) == Num(a) / Pow2(n)
  {
    hide Num, Half, Last;
    if n > 0 {
      RightNum(a, n - 1);
      HalfNum(Right(a, n - 1));
      DivDiv(Num(a), Pow2(n - 1), 2);
    }
  }

  lemma {:induction false} LeftNum(a: Bits, n: nat)
    ensures Num(Left(a, n)) == Num(a) * Pow2(n) % WORD_RANGE
  {
    hide Num, Double, BitPlus;
    if n > 0 {
      LeftNum(a, n - 1);
      Doubled(Left(a, n - 1));
      PlusOfMachine(Left(a, n - 1), Left(a, n - 1));
      var x := Num(a) * Pow2(n - 1);
      AddMod(x, x, WORD_RANGE);
      AddMod(x, x % WORD_RANGE, WORD_RANGE);
      Twice(Num(a), Pow2(n - 1));
    }
  }

  function Turn(a: Bits, n: nat, k: nat): Bits { BitPlus(Left(a, n), Right(a, k)) }

  lemma TurnNum(a: Bits, n: nat, k: nat)
    requires Pow2(n) * Pow2(k) == WORD_RANGE
    ensures Num(Turn(a, n, k)) == Rotate(Num(a), Pow2(n), Pow2(k))
  {
    hide Num, BitPlus, Left, Right, Pow2, Plus, Rotate;
    LeftNum(a, n);
    RightNum(a, k);
    PlusOfMachine(Left(a, n), Right(a, k));
    PartsOfRotation(Num(a), Pow2(n), Pow2(k), Num(Left(a, n)), Num(Right(a, k)));
  }

  lemma PartsOfRotation(x: Word, a: nat, b: nat, left: Word, right: Word)
    requires 0 < a && 0 < b && a * b == WORD_RANGE
    requires left == x * a % WORD_RANGE && right == x / b
    ensures Plus(left, right) == Rotate(x, a, b)
  {
    RotateBound(x, a, b);
  }

  function LeftFour(a: Bits): Bits { a << 4 }
  function RightFour(a: Bits): Bits { a >> 4 }

  lemma Fours(a: Bits)
    ensures Double(Double(Double(Double(a)))) == LeftFour(a)
    ensures Half(Half(Half(Half(a)))) == RightFour(a)
  {
  }

  lemma FourMore(a: Bits, n: nat)
    ensures Left(a, n + 4) == LeftFour(Left(a, n))
    ensures Right(a, n + 4) == RightFour(Right(a, n))
  {
    hide Double, Half, LeftFour, RightFour;
    assert Left(a, n + 2) == Double(Left(a, n + 1)) == Double(Double(Left(a, n)));
    assert Right(a, n + 2) == Half(Right(a, n + 1)) == Half(Half(Right(a, n)));
    Fours(Left(a, n));
    Fours(Right(a, n));
  }

  lemma Turned1(a: Bits)
    ensures BitRotL1(a) == BitPlus(Double(a), Half(Half(Half(RightFour(RightFour(RightFour(RightFour(
      RightFour(RightFour(RightFour(a)))))))))))
  {
  }

  lemma Turned15(a: Bits)
    ensures BitRotL15(a)
         == BitPlus(Double(Double(Double(LeftFour(LeftFour(LeftFour(a)))))),
                    Half(RightFour(RightFour(RightFour(RightFour(a))))))
  {
  }

  lemma Turned17(a: Bits)
    ensures BitRotL17(a)
         == BitPlus(Double(LeftFour(LeftFour(LeftFour(LeftFour(a))))),
                    Half(Half(Half(RightFour(RightFour(RightFour(a)))))))
  {
  }

  lemma TurnsOfMachine(a: Bits)
    ensures Turn(a, 1, 31) == BitRotL1(a)
    ensures Turn(a, 15, 17) == BitRotL15(a)
    ensures Turn(a, 17, 15) == BitRotL17(a)
  {
    hide BitPlus, Double, Half, LeftFour, RightFour, BitRotL1, BitRotL15, BitRotL17;
    FourMore(a, 0);
    FourMore(a, 4);
    FourMore(a, 8);
    FourMore(a, 12);
    FourMore(a, 16);
    FourMore(a, 20);
    FourMore(a, 24);
    Turned1(a);
    Turned15(a);
    Turned17(a);
  }

  lemma RotationsOfMachine(a: Bits)
    ensures RotL1(Num(a)) == Num(BitRotL1(a))
    ensures RotL15(Num(a)) == Num(BitRotL15(a))
    ensures RotL17(Num(a)) == Num(BitRotL17(a))
  {
    hide Turn, Num, BitRotL1, BitRotL15, BitRotL17;
    TurnsOfMachine(a);
    Powers();
    TurnNum(a, 1, 31);
    TurnNum(a, 15, 17);
    TurnNum(a, 17, 15);
  }

  lemma Powers()
    ensures Pow2(1) == 2 && Pow2(15) == 0x8000 && Pow2(17) == 0x2_0000 && Pow2(31) == 0x8000_0000
  {
    assert Pow2(8) == 0x100;
    assert Pow2(16) == 0x1_0000;
    assert Pow2(24) == 0x100_0000;
  }

  // ----- every word is the number of its bits -----

  lemma {:induction false} EveryWord(w: Word)
    ensures exists a: Bits :: Num(a) == w
    decreases w
  {
    hide Num, Double, Next, BitPlus;
    Literals(0);
    if w == 0 {
      assert Num(0) == w;
    } else {
      EveryWord(w / 2);
      var h: Bits :| Num(h) == w / 2;
      Doubled(h);
      PlusOfMachine(h, h);
      NextNum(Double(h));
      assert Num(Double(h)) == w || Num(Next(Double(h))) == w;
    }
  }
}
