/** Which changes to the data of a slot its checksum notices. */
module Detection {
  import opened Bytes
  import opened Crc
  import opened Ring

  // The difference of two blocks of at most four bytes, packed into one word.
  function ByteDiff(m: seq<byte>, n: seq<byte>, k: nat): bv32
    requires |m| == |n|
  {
    if k < |m| then Xor(Widen(m[k]), Widen(n[k])) else 0
  }

  function Up(x: bv32): bv32 {
    x << 8
  }

  function Packed(m: seq<byte>, n: seq<byte>): bv32
    requires |m| == |n|
  {
    Xor(ByteDiff(m, n, 0), Up(Xor(ByteDiff(m, n, 1), Up(Xor(ByteDiff(m, n, 2), Up(ByteDiff(m, n, 3)))))))
  }

  // ---------------------------------------------------------------- bits

  function Power(n: nat): nat {
    if n == 0 then 1 else 2 * Power(n - 1)
  }

  function BitLimit(n: nat): bv32
    requires n <= 8
  {
    [1 as bv32, 2, 4, 8, 16, 32, 64, 128, 256][n]
  }

  lemma JoinedRange(x: bv32, low: bool, n: nat)
    requires n < 8 && x < BitLimit(n)
    ensures Joined(x, low) < BitLimit(n + 1)
  {
    if n == 0 {
      assert x < 1 ==> Joined(x, low) < 2;
    } else if n == 1 {
      assert x < 2 ==> Joined(x, low) < 4;
    } else if n == 2 {
      assert x < 4 ==> Joined(x, low) < 8;
    } else if n == 3 {
      assert x < 8 ==> Joined(x, low) < 16;
    } else if n == 4 {
      assert x < 16 ==> Joined(x, low) < 32;
    } else if n == 5 {
      assert x < 32 ==> Joined(x, low) < 64;
    } else if n == 6 {
      assert x < 64 ==> Joined(x, low) < 128;
    } else {
      assert x < 128 ==> Joined(x, low) < 256;
    }
  }

  lemma BitLimits(n: nat)
    requires n <= 8
    ensures BitLimit(n) <= 0x100
  {
  }

  lemma JoinedInjective(x: bv32, y: bv32, low: bool, low2: bool)
    requires x < 0x100 && y < 0x100
    ensures Joined(x, low) == Joined(y, low2) <==> x == y && low == low2
  {
  }

  lemma {:induction false} BitsRange(b: nat, n: nat)
    requires n <= 8
    ensures Bits(b, n) < BitLimit(n) <= 0x100
  {
    hide Joined, BitLimit;
    BitLimits(n);
    if n > 0 {
      BitsRange(b / 2, n - 1);
      JoinedRange(Bits(b / 2, n - 1), b % 2 == 1, n - 1);
    } else {
      NoBits();
    }
  }

  lemma NoBits()
    ensures BitLimit(0) == 1
  {
  }

  lemma {:induction false} BitsInjective(b: nat, c: nat, n: nat)
    requires n <= 8 && b < Power(n) && c < Power(n)
    ensures Bits(b, n) == Bits(c, n) <==> b == c
  {
    hide Joined, BitLimit;
    if n > 0 {
      BitsInjective(b / 2, c / 2, n - 1);
      BitsRange(b / 2, n - 1);
      BitsRange(c / 2, n - 1);
      JoinedInjective(Bits(b / 2, n - 1), Bits(c / 2, n - 1), b % 2 == 1, c % 2 == 1);
    }
  }

  lemma WidenRange(b: byte)
    ensures Widen(b) < 0x100
  {
    hide Joined;
    BitsRange(b, 8);
  }

  lemma Widened(x: bv8, y: bv8)
    ensures x as bv32 == y as bv32 <==> x == y
  {
  }

  lemma WidenInjective(b: byte, c: byte)
    ensures Widen(b) == Widen(c) <==> b == c
  {
    hide Joined, Bits;
    assert Power(8) == 256;
    BitsInjective(b, c, 8);
  }

  lemma XorZero(x: bv32, y: bv32)
    ensures Xor(x, y) == 0 <==> x == y
  {
    assert x ^ y == 0 ==> x == (x ^ y) ^ y;
  }

  lemma XorByte(x: bv32, y: bv32)
    requires x < 0x100 && y < 0x100
    ensures Xor(x, y) < 0x100
  {
  }

  lemma DiffRange(m: seq<byte>, n: seq<byte>, k: nat)
    requires |m| == |n|
    ensures ByteDiff(m, n, k) < 0x100
    ensures k < |m| ==> (ByteDiff(m, n, k) == 0 <==> m[k] == n[k])
  {
    hide Widen, Xor;
    if k < |m| {
      WidenRange(m[k]);
      WidenRange(n[k]);
      WidenInjective(m[k], n[k]);
      XorZero(Widen(m[k]), Widen(n[k]));
      XorByte(Widen(m[k]), Widen(n[k]));
    }
  }

  // A word packed from small pieces is zero only if each of them is.
  lemma PackZero(a: bv32, b: bv32, c: bv32, d: bv32)
    requires a < 0x100 && b < 0x100 && c < 0x100 && d < 0x100
    ensures Xor(a, Up(Xor(b, Up(Xor(c, Up(d)))))) == 0 <==> a == 0 && b == 0 && c == 0 && d == 0
    ensures d == 0 ==> Xor(a, Up(Xor(b, Up(Xor(c, Up(d)))))) < 0x0800_0000
  {
  }

  // Two blocks differ exactly when their packed difference is not zero.
  lemma PackedZero(m: seq<byte>, n: seq<byte>)
    requires |m| == |n| <= 4
    ensures Packed(m, n) == 0 <==> m == n
    ensures |m| <= 3 ==> Packed(m, n) < 0x0800_0000
  {
    hide ByteDiff, Xor, Up;
    DiffRange(m, n, 0);
    DiffRange(m, n, 1);
    DiffRange(m, n, 2);
    DiffRange(m, n, 3);
    PackZero(ByteDiff(m, n, 0), ByteDiff(m, n, 1), ByteDiff(m, n, 2), ByteDiff(m, n, 3));
    if |m| <= 3 {
      assert ByteDiff(m, n, 3) == 0 by { NoByte(m, n, 3); }
    }
    forall k | 0 <= k < |m|
      ensures ByteDiff(m, n, k) == 0 <==> m[k] == n[k]
    {
      DiffRange(m, n, k);
    }
    AllZero(m, n);
  }

  lemma NoByte(m: seq<byte>, n: seq<byte>, k: nat)
    requires |m| == |n| <= k
    ensures ByteDiff(m, n, k) == 0
  {
  }

  lemma AllZero(m: seq<byte>, n: seq<byte>)
    requires |m| == |n| <= 4
    requires forall k :: 0 <= k < |m| ==> (ByteDiff(m, n, k) == 0 <==> m[k] == n[k])
    ensures m == n <==>
              ByteDiff(m, n, 0) == 0 && ByteDiff(m, n, 1) == 0 && ByteDiff(m, n, 2) == 0 && ByteDiff(m, n, 3) == 0
  {
    hide Xor, Widen;
    if ByteDiff(m, n, 0) == 0 && ByteDiff(m, n, 1) == 0 && ByteDiff(m, n, 2) == 0 && ByteDiff(m, n, 3) == 0 {
      forall k | 0 <= k < |m|
        ensures m[k] == n[k]
      {
        assert k == 0 || k == 1 || k == 2 || k == 3;
      }
    }
  }

  // ---------------------------------------------------------------- the register

  lemma XorAssoc(a: bv32, b: bv32, c: bv32)
    ensures Xor(Xor(a, b), c) == Xor(a, Xor(b, c))
  {
  }

  lemma XorCommutes(a: bv32, b: bv32)
    ensures Xor(a, b) == Xor(b, a)
  {
  }

  lemma XorTurns(a: bv32, b: bv32, c: bv32, d: bv32)
    ensures Xor(Xor(a, b), Xor(c, d)) == Xor(Xor(a, c), Xor(b, d))
  {
    hide Xor;
    XorAssoc(a, b, Xor(c, d));
    XorAssoc(b, c, d);
    XorCommutes(b, c);
    XorAssoc(c, b, d);
    XorAssoc(a, c, Xor(b, d));
  }

  // One byte each: the registers differ by the shifted difference.
  lemma AbsorbDiff(c: bv32, d: bv32, x: byte, y: byte)
    ensures Xor(Absorb(c, x), Absorb(d, y)) == Shifts(Xor(Xor(c, d), Xor(Widen(x), Widen(y))), 8)
  {
    hide Shifts, Xor, Widen;
    ShiftsLinear(Xor(c, Widen(x)), Xor(d, Widen(y)), 8);
    XorTurns(c, Widen(x), d, Widen(y));
    AbsorbIs(c, x);
    AbsorbIs(d, y);
  }

  lemma AbsorbIs(c: bv32, x: byte)
    ensures Absorb(c, x) == Shifts(Xor(c, Widen(x)), 8)
  {
    hide Shifts, Widen;
  }

  function Double(x: bv32): bv32 {
    x << 1
  }

  lemma ShiftDouble(x: bv32)
    ensures x < 0x8000_0000 ==> Shift(Double(x)) == x
  {
  }

  lemma DoubleBelow(x: bv32)
    ensures x < 0x100_0000 ==> Double(x) < 0x200_0000
    ensures x < 0x200_0000 ==> Double(x) < 0x400_0000
    ensures x < 0x400_0000 ==> Double(x) < 0x800_0000
    ensures x < 0x800_0000 ==> Double(x) < 0x1000_0000
    ensures x < 0x1000_0000 ==> Double(x) < 0x2000_0000
    ensures x < 0x2000_0000 ==> Double(x) < 0x4000_0000
    ensures x < 0x4000_0000 ==> Double(x) < 0x8000_0000
  {
  }

  function Doubled(x: bv32, n: nat): bv32 {
    if n == 0 then x else Double(Doubled(x, n - 1))
  }

  lemma EightDoubles(x: bv32)
    ensures Up(x) == Double(Double(Double(Double(Double(Double(Double(Double(x))))))))
  {
  }

  lemma DoubledOnce(x: bv32, n: nat)
    ensures Doubled(x, n + 1) == Double(Doubled(x, n))
  {
  }

  lemma UpIsDoubled(x: bv32)
    ensures Up(x) == Doubled(x, 8)
  {
    hide Double, Up;
    EightDoubles(x);
    assert Doubled(x, 4) == Double(Double(Double(Double(x)))) by {
      DoubledOnce(x, 0);
      DoubledOnce(x, 1);
      DoubledOnce(x, 2);
      DoubledOnce(x, 3);
    }
    DoubledOnce(x, 4);
    DoubledOnce(x, 5);
    DoubledOnce(x, 6);
    DoubledOnce(x, 7);
  }

  // The bound on a 24-bit value doubled k times.
  function DoubledBound(k: nat): bv32
    requires k < 8
  {
    [0x100_0000, 0x200_0000, 0x400_0000, 0x800_0000, 0x1000_0000, 0x2000_0000, 0x4000_0000, 0x8000_0000][k]
  }

  lemma {:induction false} DoubledBelow(x: bv32, k: nat)
    requires x < 0x100_0000 && k < 8
    ensures Doubled(x, k) < DoubledBound(k) <= 0x8000_0000
  {
    hide Double;
    if k > 0 {
      DoubledBelow(x, k - 1);
      DoubleBelow(Doubled(x, k - 1));
    }
  }

  lemma {:induction false} Undouble(x: bv32, n: nat)
    requires forall k :: 0 <= k < n ==> Doubled(x, k) < 0x8000_0000
    ensures Shifts(Doubled(x, n), n) == x
  {
    hide Shift, Double;
    if n > 0 {
      ShiftDouble(Doubled(x, n - 1));
      Undouble(x, n - 1);
      ShiftsCompose(Doubled(x, n), 1, n - 1);
      assert Shifts(Doubled(x, n), 1) == Shift(Shifts(Doubled(x, n), 0));
    }
  }

  // Eight steps undo a shift up by eight bits that lost none.
  lemma Unshift(x: bv32)
    requires x < 0x100_0000
    ensures Shifts(Up(x), 8) == x
  {
    hide Shift, Double, Up, Doubled;
    UpIsDoubled(x);
    forall k | 0 <= k < 8
      ensures Doubled(x, k) < 0x8000_0000
    {
      DoubledBelow(x, k);
    }
    Undouble(x, 8);
  }

  lemma PackSmall(a: bv32, b: bv32, c: bv32)
    requires a < 0x100 && b < 0x100 && c < 0x100
    ensures Xor(a, Up(Xor(b, Up(Xor(c, Up(0)))))) == Xor(a, Up(Xor(b, Up(c)))) < 0x100_0000
  {
  }

  lemma PackedTail(m: seq<byte>, n: seq<byte>)
    requires 1 <= |m| == |n| <= 4
    ensures Packed(m, n) == Xor(ByteDiff(m, n, 0), Up(Packed(m[1..], n[1..])))
    ensures Packed(m[1..], n[1..]) < 0x100_0000
  {
    hide Xor, Up, Widen;
    var p, q := m[1..], n[1..];
    assert ByteDiff(p, q, 0) == ByteDiff(m, n, 1) && ByteDiff(p, q, 1) == ByteDiff(m, n, 2);
    assert ByteDiff(p, q, 2) == ByteDiff(m, n, 3);
    assert ByteDiff(p, q, 3) == 0;
    DiffRange(m, n, 1);
    DiffRange(m, n, 2);
    DiffRange(m, n, 3);
    PackSmall(ByteDiff(m, n, 1), ByteDiff(m, n, 2), ByteDiff(m, n, 3));
  }

  lemma FoldFirst(c: bv32, m: seq<byte>)
    requires m != []
    ensures Fold(c, m) == Fold(Absorb(c, m[0]), m[1..])
  {
    hide Absorb;
    assert m == [m[0]] + m[1..];
    FoldAppend(c, [m[0]], m[1..]);
    assert Fold(c, [m[0]]) == Absorb(c, m[0]) by { assert [m[0]][..0] == []; }
  }

  // The registers after two blocks of up to four bytes differ by their packed difference, shifted.
  lemma {:induction false} BlockDiff(c: bv32, d: bv32, m: seq<byte>, n: seq<byte>)
    requires |m| == |n| <= 4
    ensures Xor(Fold(c, m), Fold(d, n)) == Shifts(Xor(Xor(c, d), Packed(m, n)), 8 * |m|)
    decreases |m|
  {
    hide Absorb, Shifts, Xor, Up, Packed, Fold, Widen;
    if m == [] {
      EmptyBlock(c, d, m, n);
    } else {
      FoldFirst(c, m);
      FoldFirst(d, n);
      var e, p, x := ByteDiff(m, n, 0), Packed(m[1..], n[1..]), Xor(c, d);
      PackedTail(m, n);
      BlockDiff(Absorb(c, m[0]), Absorb(d, n[0]), m[1..], n[1..]);
      AbsorbDiff(c, d, m[0], n[0]);
      Unshift(p);
      ShiftsLinear(Xor(x, e), Up(p), 8);
      XorAssoc(x, e, Up(p));
      ShiftsCompose(Xor(Xor(x, e), Up(p)), 8, 8 * |m[1..]|);
    }
  }

  lemma EmptyBlock(c: bv32, d: bv32, m: seq<byte>, n: seq<byte>)
    requires m == n == []
    ensures Xor(Fold(c, m), Fold(d, n)) == Shifts(Xor(Xor(c, d), Packed(m, n)), 0)
  {
    hide Absorb;
    PackedZero(m, n);
    assert Packed(m, n) == 0;
  }

  lemma XorBound(x: bv32, y: bv32)
    requires x < 0x0800_0000 && y < 0x0800_0000
    ensures Xor(x, y) < 0x0800_0000
  {
  }

  // Below 2^27 the same bytes keep different registers different.
  lemma {:induction false} SuffixDiff(c: bv32, d: bv32, b: seq<byte>)
    requires c < 0x0800_0000 && d < 0x0800_0000
    ensures Fold(c, b) == Fold(d, b) <==> c == d
    ensures Fold(c, b) < 0x0800_0000 && Fold(d, b) < 0x0800_0000
    decreases |b|
  {
    hide Absorb, Shifts, Xor, Widen;
    if b != [] {
      var x, y, z := Fold(c, b[..|b| - 1]), Fold(d, b[..|b| - 1]), b[|b| - 1];
      SuffixDiff(c, d, b[..|b| - 1]);
      AbsorbDiff(x, y, z, z);
      XorZero(Widen(z), Widen(z));
      NothingAdded(Xor(x, y), Xor(Widen(z), Widen(z)));
      XorBound(x, y);
      ShiftsKernel(Xor(x, y), 8);
      XorZero(x, y);
      XorZero(Absorb(x, z), Absorb(y, z));
      AbsorbBound(x, z);
      AbsorbBound(y, z);
    }
  }

  lemma NothingAdded(x: bv32, z: bv32)
    requires z == 0
    ensures Xor(x, z) == x && Xor(z, x) == x
  {
  }

  // ---------------------------------------------------------------- checksums as numbers

  lemma LowByte(x: bv32, y: bv32)
    ensures Low(x) == Low(y) <==> x & 0xFF == y & 0xFF
    ensures Low(x) < 0x100
  {
    var a, b := (x & 0xFF) as bv8, (y & 0xFF) as bv8;
    Widened(a, b);
    assert a as bv32 == x & 0xFF && b as bv32 == y & 0xFF;
  }

  function ByteAt(x: bv32, k: nat): bv32
    requires k < 4
  {
    if k == 0 then x & 0xFF
    else if k == 1 then (x >> 8) & 0xFF
    else if k == 2 then (x >> 16) & 0xFF
    else (x >> 24) & 0xFF
  }

  lemma FourBytes(x: bv32, y: bv32)
    requires ByteAt(x, 0) == ByteAt(y, 0) && ByteAt(x, 1) == ByteAt(y, 1)
    requires ByteAt(x, 2) == ByteAt(y, 2) && ByteAt(x, 3) == ByteAt(y, 3)
    ensures x == y
  {
  }

  lemma OneDigit(a: nat, x: nat, b: nat, y: nat)
    requires a < 0x100 && b < 0x100 && a + 0x100 * x == b + 0x100 * y
    ensures a == b && x == y
  {
  }

  lemma DigitsUnique(a0: nat, a1: nat, a2: nat, a3: nat, b0: nat, b1: nat, b2: nat, b3: nat)
    requires a0 < 0x100 && a1 < 0x100 && a2 < 0x100 && a3 < 0x100 && b0 < 0x100 && b1 < 0x100 && b2 < 0x100
    requires b3 < 0x100
    requires a0 + 0x100 * a1 + 0x1_0000 * a2 + 0x100_0000 * a3 == b0 + 0x100 * b1 + 0x1_0000 * b2 + 0x100_0000 * b3
    ensures a0 == b0 && a1 == b1 && a2 == b2 && a3 == b3
  {
    OneDigit(a0, a1 + 0x100 * a2 + 0x1_0000 * a3, b0, b1 + 0x100 * b2 + 0x1_0000 * b3);
    OneDigit(a1, a2 + 0x100 * a3, b1, b2 + 0x100 * b3);
    OneDigit(a2, a3, b2, b3);
  }

  function Low1(x: bv32): nat {
    Low(x >> 8)
  }

  function Low2(x: bv32): nat {
    Low(x >> 16)
  }

  function Low3(x: bv32): nat {
    Low(x >> 24)
  }

  lemma LowBytes(x: bv32, y: bv32)
    ensures Low(x) == Low(y) ==> ByteAt(x, 0) == ByteAt(y, 0)
    ensures Low1(x) == Low1(y) ==> ByteAt(x, 1) == ByteAt(y, 1)
    ensures Low2(x) == Low2(y) ==> ByteAt(x, 2) == ByteAt(y, 2)
    ensures Low3(x) == Low3(y) ==> ByteAt(x, 3) == ByteAt(y, 3)
  {
    hide Low;
    LowByte(x, y);
    LowByte(x >> 8, y >> 8);
    LowByte(x >> 16, y >> 16);
    LowByte(x >> 24, y >> 24);
  }

  lemma SameLows(x: bv32, y: bv32)
    requires Low(x) == Low(y) && Low1(x) == Low1(y) && Low2(x) == Low2(y) && Low3(x) == Low3(y)
    ensures x == y
  {
    hide Low, Low1, Low2, Low3, ByteAt;
    LowBytes(x, y);
    FourBytes(x, y);
  }

  lemma NumberDigits(x: bv32)
    ensures Number(x) == Low(x) + 0x100 * Low1(x) + 0x1_0000 * Low2(x) + 0x100_0000 * Low3(x)
    ensures Low(x) < 0x100 && Low1(x) < 0x100 && Low2(x) < 0x100 && Low3(x) < 0x100
  {
    hide Low;
  }

  // Different register values stand for different numbers.
  lemma NumberInjective(x: bv32, y: bv32)
    ensures Number(x) == Number(y) <==> x == y
  {
    hide Number, Low, Low1, Low2, Low3;
    NumberDigits(x);
    NumberDigits(y);
    if Number(x) == Number(y) {
      DigitsUnique(Low(x), Low1(x), Low2(x), Low3(x), Low(y), Low1(y), Low2(y), Low3(y));
      SameLows(x, y);
    }
  }

  // ---------------------------------------------------------------- what is noticed

  // Within the packed difference only what survives the first five steps can be noticed; that is all of
  // it below 2^27.
  lemma FiveSteps(x: bv32, n: nat)
    requires n >= 5
    ensures Shifts(x, n) == 0 <==> Shifts(x, 5) == 0
    ensures x < 0x0800_0000 ==> (Shifts(x, 5) == 0 <==> x == 0)
    ensures Shifts(x, n) < 0x0800_0000
  {
    hide Shift;
    ShiftBound(Shifts(x, 0));
    ShiftBound(Shifts(x, 1));
    ShiftBound(Shifts(x, 2));
    ShiftBound(Shifts(x, 3));
    ShiftBound(Shifts(x, 4));
    assert Shifts(x, 5) == Shift(Shifts(x, 4));
    ShiftsCompose(x, 5, n - 5);
    ShiftsKernel(Shifts(x, 5), n - 5);
    if x < 0x0800_0000 {
      ShiftsKernel(x, 5);
    }
  }

  lemma SumsApart(s: seq<byte>, t: seq<byte>)
    ensures Sum(s) == Sum(t) <==> Fold(0xFFFF_FFFF, s) == Fold(0xFFFF_FFFF, t)
  {
    hide Fold, Number;
    NumberInjective(Fold(0xFFFF_FFFF, s), Fold(0xFFFF_FFFF, t));
  }

  lemma FoldParts(a: seq<byte>, m: seq<byte>, b: seq<byte>)
    ensures Fold(0xFFFF_FFFF, a + m + b) == Fold(Fold(Fold(0xFFFF_FFFF, a), m), b)
  {
    hide Fold;
    FoldAppend(0xFFFF_FFFF, a + m, b);
    FoldAppend(0xFFFF_FFFF, a, m);
  }

  // Replacing a block of up to four bytes goes unnoticed exactly when five steps take the packed
  // difference to zero.
  lemma BlockChange(a: seq<byte>, m: seq<byte>, n: seq<byte>, b: seq<byte>)
    requires |m| == |n| <= 4
    ensures Sum(a + m + b) == Sum(a + n + b) <==> Shifts(Packed(m, n), 5) == 0
  {
    hide Fold, Shifts, Packed, Xor, Sum;
    var c := Fold(0xFFFF_FFFF, a);
    SumsApart(a + m + b, a + n + b);
    FoldParts(a, m, b);
    FoldParts(a, n, b);
    PackedZero(m, n);
    FiveSteps(Packed(m, n), 5);
    if m != [] {
      BlockDiff(c, c, m, n);
      XorZero(c, c);
      NothingAdded(Packed(m, n), Xor(c, c));
      FiveSteps(Packed(m, n), 8 * |m|);
      XorZero(Fold(c, m), Fold(c, n));
      FoldBound(c, m);
      FoldBound(c, n);
      SuffixDiff(Fold(c, m), Fold(c, n), b);
    } else {
      FiveSteps(0, 5);
    }
  }

  // Changes confined to three consecutive bytes are always noticed.
  lemma ThreeByteChange(a: seq<byte>, m: seq<byte>, n: seq<byte>, b: seq<byte>)
    requires |m| == |n| <= 3
    ensures Sum(a + m + b) == Sum(a + n + b) <==> m == n
  {
    hide Shifts, Packed, Sum;
    BlockChange(a, m, n, b);
    PackedZero(m, n);
    FiveSteps(Packed(m, n), 5);
  }

  // Changes to four are not: these two blocks cannot be told apart anywhere.
  lemma FourByteBlindSpot(a: seq<byte>, b: seq<byte>)
    ensures Sum(a + [0, 0, 0, 0] + b) == Sum(a + [0xE3, 0xED, 0xD8, 0x0B] + b)
  {
    hide Sum;
    var m, n := [0, 0, 0, 0], [0xE3, 0xED, 0xD8, 0x0B];
    BlockChange(a, m, n, b);
    BlindDifference(m, n);
  }

  lemma BlindDifference(m: seq<byte>, n: seq<byte>)
    requires m == [0, 0, 0, 0] && n == [0xE3, 0xED, 0xD8, 0x0B]
    ensures Shifts(Packed(m, n), 5) == 0
  {
    var x := Packed(m, n);
    assert x == 0x0BD8_EDE3;
    assert Shifts(x, 1) == Shift(Shifts(x, 0)) == 0;
    assert Shifts(x, 2) == 0;
    assert Shifts(x, 3) == 0;
    assert Shifts(x, 4) == 0;
  }

  // For the slots of an area: a record that fits its data fits no data that differs from it in at most
  // three consecutive bytes.
  lemma DamageIsNoticed(s: Slot, a: seq<byte>, m: seq<byte>, n: seq<byte>, b: seq<byte>)
    requires |m| == |n| <= 3 && s.data == a + m + b && Intact(s)
    ensures Intact(s.(data := a + n + b)) <==> m == n
  {
    hide Sum;
    ThreeByteChange(a, m, n, b);
    SameChecksum(s.data, a + n + b, s.version);
  }

  lemma SameChecksum(s: seq<byte>, t: seq<byte>, version: nat)
    ensures Checksum(s, version) == Checksum(t, version) <==> Sum(s) == Sum(t)
  {
    hide Fold, Number;
    var x, y: int := Sum(s) + version, Sum(t) + version;
    var q, r := x / WORD_LIMIT, y / WORD_LIMIT;
    assert x == q * WORD_LIMIT + x % WORD_LIMIT && y == r * WORD_LIMIT + y % WORD_LIMIT;
  }
}
