// 32-bit machine words with wrapping arithmetic, bytes, and the little-endian
// view between them. A word is the integer it denotes; bitwise operations are
// defined bit by bit. Everything above this module uses the named operations and
// their laws only.
module Words {
  const WORD_RANGE: nat := 0x1_0000_0000

  type Byte = b: nat | b < 256
  type Word = w: nat | w < WORD_RANGE

  const U64_RANGE: nat := 0x1_0000_0000_0000_0000

  type U64 = x: nat | x < U64_RANGE

  const MAX_U64: U64 := U64_RANGE - 1

  // What 64 bits hold of a number: arithmetic on them wraps.
  function Mod64(x: nat): U64 {
    x % U64_RANGE
  }

  function Min(x: nat, y: nat): nat {
    if x <= y then x else y
  }

  // ----- bitwise operations on naturals -----

  function XorBits(x: nat, y: nat): nat
    decreases x + y
  {
    if x == 0 && y == 0 then 0 else 2 * XorBits(x / 2, y / 2) + (if x % 2 == y % 2 then 0 else 1)
  }

  function AndNotBits(x: nat, y: nat): nat
    decreases x + y
  {
    if x == 0 && y == 0 then 0
    else 2 * AndNotBits(x / 2, y / 2) + (if x % 2 == 1 && y % 2 == 0 then 1 else 0)
  }

  function Pow2(n: nat): nat
    ensures Pow2(n) > 0
  {
    if n == 0 then 1 else 2 * Pow2(n - 1)
  }

  lemma Pow2At32()
    ensures Pow2(32) == WORD_RANGE
  {
    assert Pow2(8) == 0x100;
    assert Pow2(16) == 0x1_0000;
    assert Pow2(24) == 0x100_0000;
  }

  lemma Pow2Positive(s: nat)
    ensures Pow2(s) > 0
  {
  }

  lemma Pow2Next(s: nat)
    ensures Pow2(s + 1) == 2 * Pow2(s)
  {
  }

  lemma {:induction false} Pow2Add(a: nat, b: nat)
    ensures Pow2(a + b) == Pow2(a) * Pow2(b)
    decreases b
  {
    if b > 0 {
      Pow2Add(a, b - 1);
      Twice(Pow2(a), Pow2(b - 1));
    }
  }

  lemma Twice(p: nat, q: nat)
    ensures p * (2 * q) == 2 * (p * q)
  {
  }

  lemma {:induction false} BitsBounded(x: nat, y: nat, n: nat)
    requires x < Pow2(n) && y < Pow2(n)
    ensures XorBits(x, y) < Pow2(n) && AndNotBits(x, y) < Pow2(n)
  {
    if n > 0 {
      BitsBounded(x / 2, y / 2, n - 1);
    }
  }

  lemma {:induction false} XorBitsComm(x: nat, y: nat)
    ensures XorBits(x, y) == XorBits(y, x)
    decreases x + y
  {
    if x != 0 || y != 0 {
      XorBitsComm(x / 2, y / 2);
    }
  }

  lemma XorBitsHalves(x: nat, y: nat)
    ensures XorBits(x, y) / 2 == XorBits(x / 2, y / 2)
    ensures XorBits(x, y) % 2 == if x % 2 == y % 2 then 0 else 1
  {
  }

  lemma AndNotBitsHalves(x: nat, y: nat)
    ensures AndNotBits(x, y) / 2 == AndNotBits(x / 2, y / 2)
    ensures AndNotBits(x, y) % 2 == if x % 2 == 1 && y % 2 == 0 then 1 else 0
  {
  }

  lemma AndNotBitsZero()
    ensures AndNotBits(0, 0) == 0
  {
  }

  lemma {:induction false} XorBitsAssoc(x: nat, y: nat, z: nat)
    ensures XorBits(XorBits(x, y), z) == XorBits(x, XorBits(y, z))
    decreases x + y + z
  {
    if x != 0 || y != 0 || z != 0 {
      XorBitsAssoc(x / 2, y / 2, z / 2);
      var p, q := XorBits(x, y), XorBits(y, z);
      var l, r := XorBits(p, z), XorBits(x, q);
      hide XorBits;
      XorBitsHalves(x, y);
      XorBitsHalves(y, z);
      XorBitsHalves(p, z);
      XorBitsHalves(x, q);
      assert l / 2 == r / 2 && l % 2 == r % 2;
    } else {
      XorBitsZero(0);
    }
  }

  lemma {:induction false} XorBitsZero(x: nat)
    ensures XorBits(x, x) == 0 && XorBits(x, 0) == x
  {
    if x > 0 {
      XorBitsZero(x / 2);
    }
  }

  lemma {:induction false} XorBitsOnes(x: nat, n: nat)
    requires x < Pow2(n)
    ensures XorBits(x, Pow2(n) - 1) == Pow2(n) - 1 - x
  {
    if n > 0 {
      var p := Pow2(n - 1);
      assert Pow2(n) == 2 * p;
      XorBitsOnes(x / 2, n - 1);
      hide XorBits, Pow2;
      XorBitsHalves(x, 2 * p - 1);
    }
  }

  // ----- quotients and remainders -----

  lemma MulMono(x: int, y: int, c: nat)
    ensures x <= y ==> x * c <= y * c
    ensures x + 1 <= y ==> x * c + c <= y * c
  {
    if x <= y {
      MulGap(x, y - x, c);
    }
  }

  lemma MulGap(x: int, d: nat, c: nat)
    ensures (x + d) * c == x * c + d * c
    ensures 0 <= d * c && (1 <= d ==> c <= d * c)
  {
  }

  lemma DivParts(n: nat, d: nat)
    requires d > 0
    ensures n == n / d * d + n % d && 0 <= n / d && 0 <= n % d < d
  {
  }

  lemma DivModUnique(n: int, d: nat, q: int, r: nat)
    requires n == q * d + r && r < d
    ensures n / d == q && n % d == r
  {
    assert n == n / d * d + n % d;
    MulMono(q, n / d, d);
    MulMono(n / d, q, d);
  }

  // A rotation splits x as q * b + r and turns it into r * a + q; swapping a and b undoes it.
  function Rotate(x: nat, a: nat, b: nat): nat
    requires 0 < a && 0 < b && 0 < a * b
  {
    x * a % (a * b) + x / b
  }

  lemma RotateBound(x: nat, a: nat, b: nat)
    requires 0 < a && 0 < b && x < a * b
    ensures Rotate(x, a, b) < a * b
  {
    hide Rotate;
    var q, r := x / b, x % b;
    assert x == q * b + r;
    RotateParts(x, a, b, q, r);
    MulMono(a, q, b);
    MulMono(r, b, a);
    RotateProduct(x, a, b, q, r);
  }

  lemma RotateUndo(x: nat, a: nat, b: nat)
    requires 0 < a && 0 < b && x < a * b && 0 < a * b && b * a == a * b
    ensures Rotate(Rotate(x, a, b), b, a) == x
  {
    var q, r := x / b, x % b;
    assert x == q * b + r;
    RotateParts(x, a, b, q, r);
    MulMono(a, q, b);
    RotateParts(r * a + q, b, a, r, q);
  }

  lemma RotateParts(x: nat, a: nat, b: nat, q: nat, r: nat)
    requires 0 < a && 0 < b && 0 < a * b && x == q * b + r && r < b
    ensures Rotate(x, a, b) == r * a + q
  {
    RotateProduct(x, a, b, q, r);
    MulMono(r, b, a);
    assert b * a == a * b;
    DivModUnique(x * a, a * b, q, r * a);
    DivModUnique(x, b, q, r);
  }

  lemma RotateProduct(x: nat, a: nat, b: nat, q: nat, r: nat)
    requires x == q * b + r
    ensures x * a == q * (a * b) + r * a
    ensures b * a == a * b
  {
  }

  lemma AddMod(x: int, y: int, m: nat)
    requires m > 0
    ensures (x % m + y) % m == (x + y) % m
    ensures (x + y % m) % m == (x + y) % m
  {
    SameRemainder(x % m + y, x + y, m, x / m);
    SameRemainder(x + y % m, x + y, m, y / m);
  }

  lemma SameRemainder(x: int, y: int, m: nat, k: int)
    requires m > 0 && y == x + k * m
    ensures x % m == y % m
  {
    assert x == x / m * m + x % m;
    assert (x / m + k) * m == x / m * m + k * m;
    DivModUnique(y, m, x / m + k, x % m);
  }

  // ----- operations on words -----

  function Plus(x: Word, y: Word): Word { (x + y) % WORD_RANGE }
  function Minus(x: Word, y: Word): Word { (x - y) % WORD_RANGE }
  function Not(x: Word): Word { WORD_RANGE - 1 - x }
  function Times3(x: Word): Word { x * 3 % WORD_RANGE }
  function Times5(x: Word): Word { x * 5 % WORD_RANGE }
  function Third(x: Word): Word { x * 0xAAAA_AAAB % WORD_RANGE }
  function Shl1(x: Word): Word { x * 2 % WORD_RANGE }
  function Shl2(x: Word): Word { x * 4 % WORD_RANGE }

  // The two shifted parts of a rotation have no bit in common, so their union is their sum.
  function RotL1(x: Word): Word { RotateBound(x, 2, 0x8000_0000); Rotate(x, 2, 0x8000_0000) }
  function RotL15(x: Word): Word { RotateBound(x, 0x8000, 0x2_0000); Rotate(x, 0x8000, 0x2_0000) }
  function RotL17(x: Word): Word { RotateBound(x, 0x2_0000, 0x8000); Rotate(x, 0x2_0000, 0x8000) }
  function RotR1(x: Word): Word { RotateBound(x, 0x8000_0000, 2); Rotate(x, 0x8000_0000, 2) }
  function RotR17(x: Word): Word { RotateBound(x, 0x8000, 0x2_0000); Rotate(x, 0x8000, 0x2_0000) }

  function Xor(x: Word, y: Word): Word {
    Pow2At32();
    BitsBounded(x, y, 32);
    XorBits(x, y)
  }

  function AndNot(x: Word, y: Word): Word {
    Pow2At32();
    BitsBounded(x, y, 32);
    AndNotBits(x, y)
  }

  // ----- laws -----

  lemma PlusComm(x: Word, y: Word)
    ensures Plus(x, y) == Plus(y, x)
  {
  }

  lemma PlusAssoc(x: Word, y: Word, z: Word)
    ensures Plus(Plus(x, y), z) == Plus(x, Plus(y, z))
  {
    AddMod(x + y, z, WORD_RANGE);
    AddMod(x, y + z, WORD_RANGE);
  }

  lemma PlusMinus(x: Word, y: Word)
    ensures Minus(Plus(x, y), y) == x
    ensures Plus(Minus(x, y), y) == x
  {
    Wraps(x + y, Plus(x, y));
    Wraps(x - y, Minus(x, y));
  }

  // A sum or a difference of two words wraps at most once.
  lemma Wraps(sum: int, w: Word)
    requires w == sum % WORD_RANGE && 0 < sum + WORD_RANGE && sum < 2 * WORD_RANGE
    ensures w == if sum < 0 then sum + WORD_RANGE else if sum < WORD_RANGE then sum else sum - WORD_RANGE
  {
  }

  lemma XorComm(x: Word, y: Word)
    ensures Xor(x, y) == Xor(y, x)
  {
    XorBitsComm(x, y);
  }

  lemma XorAssoc(x: Word, y: Word, z: Word)
    ensures Xor(Xor(x, y), z) == Xor(x, Xor(y, z))
  {
    XorBitsAssoc(x, y, z);
  }

  lemma XorZero(x: Word)
    ensures Xor(x, 0) == x && Xor(0, x) == x && Xor(x, x) == 0
  {
    XorBitsZero(x);
    XorBitsComm(x, 0);
  }

  lemma XorCancel(x: Word, y: Word)
    ensures Xor(Xor(x, y), y) == x
  {
    XorAssoc(x, y, y);
    XorZero(x);
    XorZero(y);
  }

  lemma NotNot(x: Word)
    ensures Not(Not(x)) == x
  {
  }

  // 3 is invertible modulo 2^32.
  lemma TripleThird(x: Word)
    ensures Third(Times3(x)) == x
    ensures Times3(Third(x)) == x
  {
    MulMod(x * 3, 0xAAAA_AAAB, WORD_RANGE);
    MulMod(x * 0xAAAA_AAAB, 3, WORD_RANGE);
    DivModUnique(x * 0x2_0000_0001, WORD_RANGE, 2 * x, x);
  }

  lemma MulMod(x: nat, k: nat, m: nat)
    requires m > 0
    ensures x % m * k % m == x * k % m
  {
    var q := x / m;
    assert x == q * m + x % m;
    MulSplit(q, m, x % m, k);
    SameRemainder(x % m * k, x * k, m, q * k);
  }

  lemma MulSplit(q: nat, m: nat, r: nat, k: nat)
    ensures (q * m + r) * k == r * k + q * k * m
  {
  }

  // Each right rotation undoes the left one, and the other way round.
  lemma RotateBack(x: Word, y: Word)
    ensures y == RotL1(x) <==> x == RotR1(y)
    ensures y == RotL17(x) <==> x == RotR17(y)
  {
    hide Rotate;
    RotateUndo(x, 2, 0x8000_0000);
    RotateUndo(y, 0x8000_0000, 2);
    RotateUndo(x, 0x2_0000, 0x8000);
    RotateUndo(y, 0x8000, 0x2_0000);
  }

  // The shift-and-add and complement forms that the vector code uses instead.
  lemma VectorMultiples(x: Word)
    ensures Plus(Shl2(x), x) == Times5(x)
    ensures Plus(Shl1(x), x) == Times3(x)
  {
    AddMod(x * 4, x, WORD_RANGE);
    AddMod(x * 2, x, WORD_RANGE);
  }

  lemma VectorNot(x: Word, y: Word)
    ensures Xor(x, Xor(y, 0xFFFF_FFFF)) == Not(Xor(x, y))
  {
    hide XorBits;
    XorAssoc(x, y, 0xFFFF_FFFF);
    Pow2At32();
    XorBitsOnes(Xor(x, y), 32);
  }

  // ----- words in memory -----

  // A word as it lies in memory on the little-endian targets of the library.
  function BytesOfWord(w: Word): (b: seq<Byte>)
    ensures |b| == 4
  {
    var b0: Byte, b1: Byte := w % 0x100, w / 0x100 % 0x100;
    var b2: Byte, b3: Byte := w / 0x1_0000 % 0x100, w / 0x100_0000;
    [b0, b1, b2, b3]
  }

  function WordOfBytes(b: seq<Byte>): Word
    requires |b| == 4
  {
    b[0] as nat + 0x100 * b[1] as nat + 0x1_0000 * b[2] as nat + 0x100_0000 * b[3] as nat
  }

  lemma WordRoundTrip(w: Word)
    ensures WordOfBytes(BytesOfWord(w)) == w
  {
    var q1 := w / 0x100;
    var q2 := q1 / 0x100;
    var q3 := q2 / 0x100;
    DivDiv(w, 0x100, 0x100);
    DivDiv(w, 0x1_0000, 0x100);
    assert w == 0x100 * q1 + w % 0x100 && q1 == 0x100 * q2 + q1 % 0x100 && q2 == 0x100 * q3 + q2 % 0x100;
  }

  lemma DivDiv(x: nat, a: nat, b: nat)
    requires a > 0 && b > 0
    ensures a * b > 0 && x / (a * b) == x / a / b
  {
    var q, r, y, z := x / a / b, x / a % b, x / a, x % a;
    DivParts(x, a);
    DivParts(x / a, b);
    MulSplit(q, b, r, a);
    MulTurn(q, b, a);
    MulMono(r, b, a);
    DivModUnique(x, a * b, q, r * a + z);
  }

  lemma MulTurn(q: nat, b: nat, a: nat)
    ensures q * b * a == q * (a * b) && b * a == a * b
    ensures a > 0 && b > 0 ==> a * b > 0
  {
  }

  lemma SliceOfSlice<T>(x: seq<T>, a: nat, n: nat, b: nat, m: nat)
    requires a + n <= |x| && b + m <= n
    ensures x[a..a + n][b..b + m] == x[a + b..a + b + m]
  {
    var y, z := x[a..a + n][b..b + m], x[a + b..a + b + m];
    forall i | 0 <= i < m
      ensures y[i] == z[i]
    {
      assert x[a..a + n][b + i] == x[a + (b + i)];
    }
    assert y == z;
  }

  lemma SliceOfPrefix<T>(x: seq<T>, n: nat, b: nat, m: nat)
    requires n <= |x| && b + m <= n
    ensures x[..n][b..b + m] == x[b..b + m]
  {
  }

  lemma BytesRoundTrip(b: seq<Byte>)
    requires |b| == 4
    ensures BytesOfWord(WordOfBytes(b)) == b
  {
    var w := WordOfBytes(b);
    var h2 := b[2] as nat + 0x100 * b[3] as nat;
    var h1 := b[1] as nat + 0x100 * h2;
    DivModUnique(w, 0x100, h1, b[0]);
    DivModUnique(h1, 0x100, h2, b[1]);
    DivModUnique(h2, 0x100, b[3], b[2]);
    DivDiv(w, 0x100, 0x100);
    DivDiv(w, 0x1_0000, 0x100);
  }

  // ----- numerals -----

  // The number that bytes are, most significant byte first.
  function BigValue(b: seq<Byte>): nat {
    if |b| == 0 then 0 else 0x100 * BigValue(b[..|b| - 1]) + b[|b| - 1]
  }

  // And least significant byte first.
  function LittleValue(b: seq<Byte>): nat {
    if |b| == 0 then 0 else b[0] + 0x100 * LittleValue(b[1..])
  }

  lemma {:induction false} SameNumeral(a: seq<Byte>, b: seq<Byte>)
    requires |a| == |b| && BigValue(a) == BigValue(b)
    ensures a == b
  {
    var n := |a| - 1;
    if |a| > 0 {
      SameNumeral(a[..n], b[..n]);
      assert a == a[..n] + [a[n]] && b == b[..n] + [b[n]];
    }
  }

  lemma {:induction false} BigConcat(a: seq<Byte>, b: seq<Byte>)
    ensures BigValue(a + b) == Pow2(8 * |b|) * BigValue(a) + BigValue(b)
  {
    if |b| == 0 {
      assert a + b == a;
    } else {
      var n := |b| - 1;
      assert (a + b)[..|a + b| - 1] == a + b[..n];
      BigConcat(a, b[..n]);
      EightBits(n, BigValue(a));
    }
  }

  lemma {:induction false} LittleConcat(a: seq<Byte>, b: seq<Byte>)
    ensures LittleValue(a + b) == LittleValue(a) + Pow2(8 * |a|) * LittleValue(b)
  {
    if |a| == 0 {
      assert a + b == b;
    } else {
      assert (a + b)[1..] == a[1..] + b;
      LittleConcat(a[1..], b);
      EightBits(|a| - 1, LittleValue(b));
    }
  }

  lemma EightBits(n: nat, x: nat)
    ensures Pow2(8 * (n + 1)) * x == 0x100 * (Pow2(8 * n) * x)
  {
    Pow2Add(8 * n, 8);
    assert Pow2(8) == 0x100;
  }

  // Four bytes are a little-endian word.
  lemma WordIsLittleEndian(b: seq<Byte>)
    requires |b| == 4
    ensures WordOfBytes(b) == LittleValue(b)
  {
    assert b[1..][1..] == b[2..] && b[2..][1..] == b[3..] && b[3..][1..] == [];
    assert LittleValue(b[3..]) == b[3] as nat;
    assert LittleValue(b[2..]) == b[2] as nat + 0x100 * b[3] as nat;
    assert LittleValue(b[1..]) == b[1] as nat + 0x100 * (b[2] as nat + 0x100 * b[3] as nat);
  }

  // And four bytes the other way round are a big-endian one.
  lemma ReversedIsBigEndian(b: seq<Byte>)
    requires |b| == 4
    ensures BigValue([b[3], b[2], b[1], b[0]]) == WordOfBytes(b)
  {
    var r := [b[3], b[2], b[1], b[0]];
    assert r[..3] == [b[3], b[2], b[1]] && r[..3][..2] == [b[3], b[2]] && r[..2][..1] == [b[3]];
    assert BigValue([b[3]]) == b[3] as nat;
    assert BigValue([b[3], b[2]]) == 0x100 * b[3] as nat + b[2] as nat;
    assert BigValue(r[..3]) == 0x100 * (0x100 * b[3] as nat + b[2] as nat) + b[1] as nat;
  }
}
