/** Bytes, little-endian 32-bit words, and replacing a stretch of a byte sequence. */
module Bytes {

  type byte = x: int | 0 <= x < 256

  // The value every byte of an erased page reads as.
  const ERASED: byte := 0xFF

  const WORD_LIMIT: nat := 0x1_0000_0000

  // An erased 32-bit word.
  const ERASED_WORD: nat := 0xFFFF_FFFF

  function Word(b: seq<byte>): (w: nat)
    requires |b| == 4
    ensures w < WORD_LIMIT
  {
    var b0: int, b1: int, b2: int, b3: int := b[0], b[1], b[2], b[3];
    b0 + 0x100 * b1 + 0x1_0000 * b2 + 0x100_0000 * b3
  }

  function WordBytes(w: nat): (b: seq<byte>)
    requires w < WORD_LIMIT
    ensures |b| == 4
  {
    [w % 0x100, w / 0x100 % 0x100, w / 0x1_0000 % 0x100, w / 0x100_0000]
  }

  // Words are little-endian: the first byte counts for ones, and each byte for 256 times the one before it.
  lemma WordIsLittleEndian(b: seq<byte>, k: nat)
    requires |b| == 4 && k < 4
    ensures Word([0, 0, 0, 0]) == 0 && Word([1, 0, 0, 0]) == 1
    ensures k < 3 ==> Word([0, 0, 0, 0][k + 1 := 1]) == 0x100 * Word([0, 0, 0, 0][k := 1])
    ensures Word(b) == Word(b[k := 0]) + b[k] * Word([0, 0, 0, 0][k := 1])
  {
    assert k == 0 || k == 1 || k == 2 || k == 3;
  }

  lemma WordRoundTrip(w: nat)
    requires w < WORD_LIMIT
    ensures Word(WordBytes(w)) == w
  {
    assert w / 0x1_0000 == w / 0x100 / 0x100;
    assert w / 0x100_0000 == w / 0x100 / 0x100 / 0x100;
  }

  lemma LowDigit(low: nat, high: nat)
    requires low < 0x100
    ensures (low + 0x100 * high) / 0x100 == high && (low + 0x100 * high) % 0x100 == low
  {
  }

  lemma DivTwice(w: nat)
    ensures w / 0x1_0000 == w / 0x100 / 0x100 && w / 0x100_0000 == w / 0x100 / 0x100 / 0x100
  {
  }

  lemma BytesRoundTrip(b: seq<byte>)
    requires |b| == 4
    ensures WordBytes(Word(b)) == b
  {
    var b0: nat, b1: nat, b2: nat, b3: nat := b[0], b[1], b[2], b[3];
    LowDigit(b0, b1 + 0x100 * b2 + 0x1_0000 * b3);
    LowDigit(b1, b2 + 0x100 * b3);
    LowDigit(b2, b3);
    DivTwice(Word(b));
  }

  // A word reads as erased exactly when each of its bytes does.
  lemma ErasedWord(b: seq<byte>)
    requires |b| == 4
    ensures Word(b) == ERASED_WORD <==> b == [ERASED, ERASED, ERASED, ERASED]
  {
  }

  // s with the bytes from position at on replaced by b.
  function Splice(s: seq<byte>, at: nat, b: seq<byte>): (r: seq<byte>)
    requires at + |b| <= |s|
    ensures |r| == |s|
    ensures forall k :: 0 <= k < |s| ==> r[k] == if at <= k < at + |b| then b[k - at] else s[k]
  {
    s[..at] + b + s[at + |b|..]
  }

  function Repeat(b: byte, n: nat): (r: seq<byte>)
    ensures |r| == n
    ensures forall k :: 0 <= k < n ==> r[k] == b
  {
    seq(n, _ => b)
  }

  lemma SliceOfSlice(s: seq<byte>, at: nat, n: nat, lo: nat, hi: nat)
    requires at + n <= |s| && lo <= hi <= n
    ensures s[at..at + n][lo..hi] == s[at + lo..at + hi]
  {
    var x, y := s[at..at + n][lo..hi], s[at + lo..at + hi];
    assert |x| == |y|;
    assert forall k :: 0 <= k < |x| ==> x[k] == y[k];
  }
}
