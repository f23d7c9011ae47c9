/** Which number a register value stands for, and which register value a byte becomes. */
module Numbers {
  import opened Bytes
  import opened Crc
  import Detection

  lemma ByteSuccessor(y: bv8)
    ensures (0 as bv8) as nat == 0 && (0xFF as bv8) as nat == 0xFF
    ensures y != 0xFF ==> (y + 1) as nat == y as nat + 1
  {
  }

  lemma LowBits(x: bv32)
    ensures ((x + 1) & 0xFF) as bv8 == ((x & 0xFF) as bv8) + 1
    ensures ((x & 0xFF) as bv8 == 0xFF) <==> x & 0xFF == 0xFF
  {
  }

  lemma HighBits(x: bv32)
    ensures x & 0xFF != 0xFF ==> (x + 1) >> 8 == x >> 8
    ensures x & 0xFF == 0xFF && x != 0xFFFF_FFFF ==> (x + 1) >> 8 == (x >> 8) + 1 && x >> 8 != 0xFFFF_FFFF
  {
  }

  lemma LowSuccessor(x: bv32)
    ensures Low(x + 1) == if x & 0xFF == 0xFF then 0 else Low(x) + 1
    ensures x & 0xFF == 0xFF ==> Low(x) == 0xFF
  {
    LowBits(x);
    ByteSuccessor((x & 0xFF) as bv8);
  }

  function Upper(x: bv32): bv32 {
    x >> 8
  }

  lemma UpperTwice(x: bv32)
    ensures x >> 16 == Upper(Upper(x)) && x >> 24 == Upper(Upper(Upper(x))) && Upper(Upper(Upper(Upper(x)))) == 0
  {
  }

  lemma UpperSuccessor(x: bv32)
    ensures x & 0xFF != 0xFF ==> Upper(x + 1) == Upper(x)
    ensures x & 0xFF == 0xFF && x != 0xFFFF_FFFF ==> Upper(x + 1) == Upper(x) + 1 && Upper(x) != 0xFFFF_FFFF
  {
    HighBits(x);
  }

  lemma LowOfZero()
    ensures Low(0) == 0
  {
    ByteSuccessor(0);
  }

  // The lowest byte counts for ones, the rest for 256 times what it stands for itself.
  lemma NumberParts(x: bv32)
    ensures Number(x) == Low(x) + 0x100 * Number(Upper(x))
    ensures Number(0) == 0
  {
    hide Low, Upper, Number;
    UpperTwice(x);
    UpperTwice(Upper(x));
    UpperTwice(0);
    LowOfZero();
    assert Upper(0) == 0 by { ZeroUpper(); }
    DigitsOf(x);
    DigitsOf(Upper(x));
    DigitsOf(0);
  }

  lemma ZeroUpper()
    ensures Upper(0) == 0
  {
  }

  lemma DigitsOf(x: bv32)
    ensures Number(x)
         == Low(x) + 0x100 * Low(Upper(x)) + 0x1_0000 * Low(Upper(Upper(x))) + 0x100_0000 * Low(Upper(Upper(Upper(x))))
  {
    hide Low;
    UpperTwice(x);
  }

  // Register values stand for the numbers in order: 0 for 0, and the next one for the next.
  lemma NumberSuccessor(x: bv32)
    requires x != 0xFFFF_FFFF
    ensures Number(0) == 0 && Number(x + 1) == Number(x) + 1
  {
    hide Low, Upper, Number;
    SuccessorUpTo(x, 4);
    NumberParts(0);
  }

  lemma {:induction false} SuccessorUpTo(x: bv32, n: nat)
    requires x != 0xFFFF_FFFF
    requires n == 4 || (n == 3 && x < 0x100_0000) || (n == 2 && x < 0x1_0000) || (n == 1 && x < 0x100)
    ensures Number(x + 1) == Number(x) + 1
  {
    hide Low, Upper, Number;
    NumberParts(x);
    NumberParts(x + 1);
    LowSuccessor(x);
    UpperSuccessor(x);
    if x & 0xFF == 0xFF {
      UpperSmaller(x);
      if n == 1 {
        NumberParts(0);
        NumberOfOne();
        assert Upper(x) == 0 && Upper(x + 1) == 1;
      } else {
        SuccessorUpTo(Upper(x), n - 1);
      }
    }
  }

  lemma UpperSmaller(x: bv32)
    ensures Upper(x) < 0x100_0000
    ensures x < 0x100_0000 ==> Upper(x) < 0x1_0000
    ensures x < 0x1_0000 ==> Upper(x) < 0x100
    ensures x < 0x100 ==> Upper(x) == 0
  {
  }

  lemma NumberOfOne()
    ensures Number(1) == 1
  {
    hide Number;
    NumberParts(1);
    NumberParts(0);
    LowSuccessor(0);
    LowOfZero();
    assert Upper(1) == 0;
  }

  // A byte becomes the register value that stands for it.
  lemma {:induction false} WidenIsByte(b: byte)
    ensures Number(Widen(b)) == b
    decreases b as int
  {
    hide Number, Widen;
    if b == 0 {
      WidenZero();
      NumberParts(0);
    } else {
      var c: byte := b - 1;
      WidenIsByte(c);
      WidenSuccessor(c);
      NumberSuccessor(Widen(c));
    }
  }

  lemma WidenZero()
    ensures Widen(0) == 0
  {
  }

  predicate IsNext(x: bv32, y: bv32) {
    y == x + 1
  }

  lemma JoinedSuccessor(x: bv32, y: bv32)
    ensures IsNext(Joined(x, false), Joined(x, true))
    ensures x < 0x100 && IsNext(x, y) ==> IsNext(Joined(x, true), Joined(y, false))
  {
  }

  lemma {:induction false} BitsSuccessor(b: nat, n: nat)
    requires n <= 8 && b + 1 < Detection.Power(n)
    ensures IsNext(Bits(b, n), Bits(b + 1, n))
  {
    hide Joined, Bits, IsNext;
    if n > 0 {
      var half := b / 2;
      if b % 2 == 1 {
        assert (b + 1) / 2 == half + 1 && (b + 1) % 2 == 0;
        BitsSuccessor(half, n - 1);
        BitsBelow(half, n - 1);
        BitsStep(b, n, true);
        BitsStep(b + 1, n, false);
        JoinedSuccessor(Bits(half, n - 1), Bits(half + 1, n - 1));
      } else {
        assert (b + 1) / 2 == half && (b + 1) % 2 == 1;
        BitsStep(b, n, false);
        BitsStep(b + 1, n, true);
        JoinedSuccessor(Bits(half, n - 1), Bits(half, n - 1));
      }
    }
  }

  lemma BitsBelow(b: nat, n: nat)
    requires n <= 8
    ensures Bits(b, n) < 0x100
  {
    hide Bits, Detection.BitLimit;
    Detection.BitsRange(b, n);
  }

  lemma BitsStep(b: nat, n: nat, low: bool)
    requires n > 0 && (low <==> b % 2 == 1)
    ensures Bits(b, n) == Joined(Bits(b / 2, n - 1), low)
  {
  }

  lemma WidenSuccessor(c: byte)
    requires c < 0xFF
    ensures Widen(c + 1) == Widen(c) + 1 && Widen(c) != 0xFFFF_FFFF
  {
    hide Joined, Bits, Detection.BitLimit;
    assert Detection.Power(8) == 256;
    BitsSuccessor(c, 8);
    BitsBelow(c, 8);
  }
}
