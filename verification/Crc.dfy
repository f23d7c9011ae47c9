/** The checksum of ftl.c: a reflected shift register over 32-bit words. */
module Crc {
  import opened Bytes

  const POLY: bv32 := 0x05EC_76F1

  // Every register value from the first byte on is below this bound, which is 2^27.
  const REGISTER_LIMIT: bv32 := 0x0800_0000

  function Shift(crc: bv32): bv32 {
    (crc >> 1) ^ (POLY & (0 - (crc & 1)))
  }

  function Shifts(crc: bv32, n: nat): bv32
    decreases n
  {
    if n == 0 then crc else Shift(Shifts(crc, n - 1))
  }

  // The n lowest bits of b.
  function Bits(b: nat, n: nat): bv32
    decreases n
  {
    if n == 0 then 0 else Joined(Bits(b / 2, n - 1), b % 2 == 1)
  }

  function Joined(high: bv32, low: bool): bv32 {
    (high << 1) | (if low then 1 else 0)
  }

  // A byte as a 32-bit word.
  function Widen(b: byte): bv32 {
    Bits(b, 8)
  }

  function Absorb(crc: bv32, b: byte): bv32 {
    Shifts(crc ^ Widen(b), 8)
  }

  // One pass over the whole of s, starting from register value crc.
  function Fold(crc: bv32, s: seq<byte>): bv32
    decreases |s|
  {
    if s == [] then crc else Absorb(Fold(crc, s[..|s| - 1]), s[|s| - 1])
  }

  function Low(x: bv32): (n: nat)
    ensures n < 0x100
  {
    ((x & 0xFF) as bv8) as nat
  }

  function Digits(b0: nat, b1: nat, b2: nat, b3: nat): (n: nat)
    requires b0 < 0x100 && b1 < 0x100 && b2 < 0x100 && b3 < 0x100
    ensures n < WORD_LIMIT
  {
    b0 + 0x100 * b1 + 0x1_0000 * b2 + 0x100_0000 * b3
  }

  // The number a register value stands for.
  function Number(x: bv32): (n: nat)
    ensures n < WORD_LIMIT
  {
    Digits(Low(x), Low(x >> 8), Low(x >> 16), Low(x >> 24))
  }

  // The checksum of a block, as a number.
  function Sum(s: seq<byte>): (n: nat)
    ensures n < WORD_LIMIT
  {
    Number(Fold(0xFFFF_FFFF, s))
  }

  lemma ShiftStep(r: bv32, mask: bv32)
    requires mask == 0 - (r & 1)
    ensures (r >> 1) ^ (0x05EC_76F1 & mask) == Shift(r)
  {
  }

  method Crc32c(crc: bv32, buf: seq<byte>) returns (r: bv32)
    ensures r == Fold(crc, buf)
  {
    hide Shift, Widen;
    r := crc;
    var k := 0;
    while k != |buf|
      invariant 0 <= k <= |buf|
      invariant r == Fold(crc, buf[..k])
    {
      ghost var before := r;
      r := r ^ Widen(buf[k]);
      var i := 0;
      while i < 8
        invariant 0 <= i <= 8
        invariant r == Shifts(before ^ Widen(buf[k]), i)
      {
        var mask: bv32 := 0 - (r & 1);
        ShiftStep(r, mask);
        r := (r >> 1) ^ (0x05EC_76F1 & mask);
        i := i + 1;
      }
      assert buf[..k + 1][..k] == buf[..k];
      k := k + 1;
    }
    assert buf[..k] == buf;
  }

  // Folding a concatenation is folding one part after the other.
  lemma {:induction false} FoldAppend(crc: bv32, s: seq<byte>, t: seq<byte>)
    ensures Fold(crc, s + t) == Fold(Fold(crc, s), t)
    decreases |t|
  {
    hide Absorb;
    if t == [] {
      assert s + t == s;
    } else {
      assert (s + t)[..|s + t| - 1] == s + t[..|t| - 1];
      FoldAppend(crc, s, t[..|t| - 1]);
    }
  }

  // ---------------------------------------------------------------- linearity

  lemma ShiftByLowBit(x: bv32)
    ensures x & 1 == 0 || x & 1 == 1
    ensures x & 1 == 0 ==> Shift(x) == x >> 1
    ensures x & 1 == 1 ==> Shift(x) == (x >> 1) ^ POLY
  {
  }

  lemma XorParts(x: bv32, y: bv32)
    ensures (x ^ y) >> 1 == (x >> 1) ^ (y >> 1)
    ensures (x ^ y) & 1 == (x & 1) ^ (y & 1)
  {
  }

  lemma XorCancels(a: bv32, b: bv32, p: bv32)
    ensures (a ^ p) ^ (b ^ p) == a ^ b
    ensures (a ^ p) ^ b == (a ^ b) ^ p == a ^ (b ^ p)
  {
  }

  lemma ShiftLinear(x: bv32, y: bv32)
    ensures Shift(Xor(x, y)) == Xor(Shift(x), Shift(y))
  {
    hide Shift;
    ShiftByLowBit(x);
    ShiftByLowBit(y);
    ShiftByLowBit(x ^ y);
    XorParts(x, y);
    XorCancels(x >> 1, y >> 1, POLY);
  }

  function Xor(x: bv32, y: bv32): bv32 {
    x ^ y
  }

  lemma {:induction false} ShiftsLinear(x: bv32, y: bv32, n: nat)
    ensures Shifts(Xor(x, y), n) == Xor(Shifts(x, n), Shifts(y, n))
    decreases n
  {
    hide Shift, Xor;
    if n > 0 {
      ShiftsLinear(x, y, n - 1);
      ShiftLinear(Shifts(x, n - 1), Shifts(y, n - 1));
    }
  }

  lemma {:induction false} ShiftsCompose(x: bv32, m: nat, n: nat)
    ensures Shifts(Shifts(x, m), n) == Shifts(x, m + n)
    decreases n
  {
    hide Shift;
    if n > 0 {
      ShiftsCompose(x, m, n - 1);
    }
  }

  // ---------------------------------------------------------------- the 27-bit bound

  lemma ShiftBound(x: bv32)
    ensures x < 0x1000_0000 ==> Shift(x) < 0x0800_0000
    ensures x < 0x2000_0000 ==> Shift(x) < 0x1000_0000
    ensures x < 0x4000_0000 ==> Shift(x) < 0x2000_0000
    ensures x < 0x8000_0000 ==> Shift(x) < 0x4000_0000
    ensures Shift(x) < 0x8000_0000
  {
  }

  // After one byte the register fits in 27 bits, whatever it held before.
  lemma AbsorbBound(crc: bv32, b: byte)
    ensures Absorb(crc, b) < REGISTER_LIMIT
  {
    hide Shift, Widen;
    var x := crc ^ Widen(b);
    ShiftBound(Shifts(x, 0));
    ShiftBound(Shifts(x, 1));
    ShiftBound(Shifts(x, 2));
    ShiftBound(Shifts(x, 3));
    ShiftBound(Shifts(x, 4));
    ShiftBound(Shifts(x, 5));
    ShiftBound(Shifts(x, 6));
    ShiftBound(Shifts(x, 7));
    assert Shifts(x, 8) == Shift(Shifts(x, 7));
  }

  lemma FoldBound(crc: bv32, s: seq<byte>)
    requires s != []
    ensures Fold(crc, s) < REGISTER_LIMIT
  {
    AbsorbBound(Fold(crc, s[..|s| - 1]), s[|s| - 1]);
  }

  lemma TopByte(x: bv32)
    requires x < 0x0800_0000
    ensures ((x >> 24) & 0xFF) as bv8 < 8
  {
  }

  lemma ByteValue(x: bv8)
    requires x < 8
    ensures x as nat < 8
  {
  }

  lemma TopDigit(x: bv32)
    requires x < 0x0800_0000
    ensures Low(x >> 24) < 8
  {
    TopByte(x);
    ByteValue(((x >> 24) & 0xFF) as bv8);
  }

  lemma NumberBound(x: bv32)
    requires Low(x >> 24) < 8
    ensures Number(x) < 0x0800_0000
  {
    hide Low;
  }

  // The checksum of a non-empty block is below 2^27.
  lemma SumBound(s: seq<byte>)
    requires s != []
    ensures Sum(s) < 0x0800_0000
  {
    hide Fold, Low, Number;
    FoldBound(0xFFFF_FFFF, s);
    TopDigit(Fold(0xFFFF_FFFF, s));
    NumberBound(Fold(0xFFFF_FFFF, s));
  }

  // ---------------------------------------------------------------- injectivity below 2^27

  lemma ShiftKernel(x: bv32)
    requires x < 0x0800_0000
    ensures Shift(x) < 0x0800_0000
    ensures Shift(x) == 0 <==> x == 0
  {
  }

  lemma {:induction false} ShiftsKernel(x: bv32, n: nat)
    requires x < 0x0800_0000
    ensures Shifts(x, n) < 0x0800_0000
    ensures Shifts(x, n) == 0 <==> x == 0
    decreases n
  {
    hide Shift;
    if n > 0 {
      ShiftsKernel(x, n - 1);
      ShiftKernel(Shifts(x, n - 1));
    }
  }
}
