/** How the three meta items of a slot are laid out in a buffer of 32-bit words. */
module MetaItems {
  import opened Bytes

  const N_ITEMS: nat := 3
  const BUFFER_WORDS: nat := 12

  // The word of the buffer that holds item i.
  function WordIndex(i: nat, itemSize: nat): nat {
    i * itemSize / 4
  }

  // It is the word in which the item begins.
  lemma WordOfItem(i: nat, itemSize: nat)
    ensures 4 * WordIndex(i, itemSize) <= i * itemSize < 4 * WordIndex(i, itemSize) + 4
  {
  }

  // A zeroed buffer with the first n items stored.
  function Stored(items: seq<nat>, itemSize: nat, n: nat): (w: seq<nat>)
    requires |items| == N_ITEMS && n <= N_ITEMS && 4 <= itemSize <= 16
    ensures |w| == BUFFER_WORDS
  {
    if n == 0 then seq(BUFFER_WORDS, _ => 0)
    else Stored(items, itemSize, n - 1)[WordIndex(n - 1, itemSize) := items[n - 1]]
  }

  predicate AllWords(w: seq<nat>) {
    forall k :: 0 <= k < |w| ==> w[k] < WORD_LIMIT
  }

  lemma {:induction false} StoredWords(items: seq<nat>, itemSize: nat, n: nat)
    requires |items| == N_ITEMS && n <= N_ITEMS && 4 <= itemSize <= 16 && AllWords(items)
    ensures AllWords(Stored(items, itemSize, n))
  {
    if n > 0 {
      StoredWords(items, itemSize, n - 1);
    }
  }

  // The bytes of a word buffer in memory.
  function AsBytes(w: seq<nat>): (b: seq<byte>)
    requires AllWords(w)
    ensures |b| == 4 * |w|
  {
    seq(4 * |w|, k requires 0 <= k < 4 * |w| => WordBytes(w[k / 4])[k % 4])
  }

  lemma WordOfBytes(w: seq<nat>, j: nat)
    requires AllWords(w) && j < |w|
    ensures Word(AsBytes(w)[4 * j..4 * j + 4]) == w[j]
  {
    assert AsBytes(w)[4 * j..4 * j + 4] == WordBytes(w[j]);
    WordRoundTrip(w[j]);
  }

  // For every item size up to 16 bytes, also when it is no multiple of 4, the items read back from
  // the first 3 * itemSize bytes of the buffer are the ones stored, and they do not overlap.
  lemma MetaRoundTrip(items: seq<nat>, itemSize: nat, i: nat)
    requires |items| == N_ITEMS && AllWords(items) && 4 <= itemSize <= 16 && i < N_ITEMS
    ensures AllWords(Stored(items, itemSize, 3))
    ensures 4 * WordIndex(i, itemSize) + 4 <= 3 * itemSize
    ensures var j := 4 * WordIndex(i, itemSize);
            Word(AsBytes(Stored(items, itemSize, 3))[..3 * itemSize][j..j + 4]) == items[i]
  {
    hide Word;
    StoredWords(items, itemSize, 3);
    var w := Stored(items, itemSize, 3);
    assert w == Stored(items, itemSize, 2)[WordIndex(2, itemSize) := items[2]];
    assert Stored(items, itemSize, 2) == Stored(items, itemSize, 1)[WordIndex(1, itemSize) := items[1]];
    assert Stored(items, itemSize, 1) == Stored(items, itemSize, 0)[0 := items[0]];
    assert WordIndex(0, itemSize) == 0 < WordIndex(1, itemSize) < WordIndex(2, itemSize);
    assert i == 0 || i == 1 || i == 2;
    var j := WordIndex(i, itemSize);
    assert w[j] == items[i];
    WordOfBytes(w, j);
    SliceOfSlice(AsBytes(w), 0, 3 * itemSize, 4 * j, 4 * j + 4);
  }

  // One item padded with zeros.
  function Padded(w: nat, itemSize: nat): (b: seq<byte>)
    requires w < WORD_LIMIT && itemSize >= 4
    ensures |b| == itemSize
  {
    WordBytes(w) + Repeat(0, itemSize - 4)
  }

  // When items are made of whole words, each starts on an item boundary and is padded with zeros.
  lemma StoredIsPadded(items: seq<nat>, itemSize: nat)
    requires |items| == N_ITEMS && AllWords(items) && itemSize in {4, 8, 12, 16}
    ensures AllWords(Stored(items, itemSize, 3))
    ensures AsBytes(Stored(items, itemSize, 3))[..3 * itemSize]
         == Padded(items[0], itemSize) + Padded(items[1], itemSize) + Padded(items[2], itemSize)
  {
    StoredWords(items, itemSize, 3);
    var t := itemSize / 4;
    var w := Stored(items, itemSize, 3);
    assert w == Stored(items, itemSize, 2)[2 * t := items[2]];
    assert Stored(items, itemSize, 2) == Stored(items, itemSize, 1)[t := items[1]];
    assert Stored(items, itemSize, 1) == Stored(items, itemSize, 0)[0 := items[0]];
    var image := Padded(items[0], itemSize) + Padded(items[1], itemSize) + Padded(items[2], itemSize);
    forall k | 0 <= k < 3 * itemSize
      ensures AsBytes(w)[k] == image[k]
    {
      PaddedByte(items, itemSize, t, w, k);
    }
  }

  lemma PaddedByte(items: seq<nat>, itemSize: nat, t: nat, w: seq<nat>, k: nat)
    requires |items| == N_ITEMS && AllWords(items) && itemSize == 4 * t && 1 <= t <= 4 && k < 3 * itemSize
    requires |w| == BUFFER_WORDS && AllWords(w)
    requires forall j :: 0 <= j < BUFFER_WORDS ==>
               w[j] == if j == 0 then items[0] else if j == t then items[1] else if j == 2 * t then items[2] else 0
    ensures AsBytes(w)[k] == (Padded(items[0], itemSize) + Padded(items[1], itemSize) + Padded(items[2], itemSize))[k]
  {
    var i := if k < itemSize then 0 else if k < 2 * itemSize then 1 else 2;
    var r := k - i * itemSize;
    assert (Padded(items[0], itemSize) + Padded(items[1], itemSize) + Padded(items[2], itemSize))[k]
        == Padded(items[i], itemSize)[r];
    assert k / 4 == i * t + r / 4 && k % 4 == r % 4;
    if r < 4 {
      assert w[k / 4] == items[i];
    } else {
      assert w[k / 4] == 0;
      assert WordBytes(0) == [0, 0, 0, 0];
    }
  }

  // Where item i begins in the first 3 * itemSize bytes.
  lemma ItemPlace(i: nat, itemSize: nat)
    requires i < N_ITEMS && 4 <= itemSize <= 16
    ensures 4 * WordIndex(i, itemSize) + 4 <= 3 * itemSize
    ensures itemSize in {4, 8, 12, 16} ==> 4 * WordIndex(i, itemSize) == i * itemSize
  {
    assert i == 0 || i == 1 || i == 2;
  }

  // The buffer write_meta_core fills in, as the bytes it programs: zeros but for the items, each of which
  // can be read back.
  method BuildBuffer(items: seq<nat>, itemSize: nat) returns (bytes: seq<byte>)
    requires |items| == N_ITEMS && AllWords(items) && 4 <= itemSize <= 16
    ensures |bytes| == 4 * BUFFER_WORDS && AllWords(Stored(items, itemSize, 3))
    ensures bytes == AsBytes(Stored(items, itemSize, 3))
    ensures forall i :: 0 <= i < N_ITEMS ==>
              var j := 4 * WordIndex(i, itemSize); j + 4 <= |bytes| && Word(bytes[j..j + 4]) == items[i]
  {
    hide AsBytes, Word, Stored;
    var buf := new nat[BUFFER_WORDS](_ => 0);
    var k := 0;
    StoredNothing(items, itemSize);
    assert buf[..] == Stored(items, itemSize, 0);
    while k < N_ITEMS
      invariant 0 <= k <= 3
      invariant buf[..] == Stored(items, itemSize, k)
    {
      StoredMore(items, itemSize, k);
      buf[WordIndex(k, itemSize)] := items[k];
      k := k + 1;
    }
    StoredWords(items, itemSize, 3);
    bytes := AsBytes(buf[..]);
    forall i | 0 <= i < N_ITEMS
      ensures var j := 4 * WordIndex(i, itemSize); j + 4 <= |bytes| && Word(bytes[j..j + 4]) == items[i]
    {
      MetaRoundTrip(items, itemSize, i);
      ItemPlace(i, itemSize);
      var j := 4 * WordIndex(i, itemSize);
      SliceOfSlice(bytes, 0, 3 * itemSize, j, j + 4);
    }
  }

  lemma StoredNothing(items: seq<nat>, itemSize: nat)
    requires |items| == N_ITEMS && 4 <= itemSize <= 16
    ensures Stored(items, itemSize, 0) == seq(BUFFER_WORDS, _ => 0)
  {
  }

  lemma StoredMore(items: seq<nat>, itemSize: nat, k: nat)
    requires |items| == N_ITEMS && 4 <= itemSize <= 16 && k < N_ITEMS
    ensures Stored(items, itemSize, k + 1) == Stored(items, itemSize, k)[WordIndex(k, itemSize) := items[k]]
  {
  }

  // The items found in the first 3 * itemSize bytes of a buffer.
  method PickItems(buf: seq<byte>, itemSize: nat) returns (items: seq<nat>)
    requires 4 <= itemSize <= 16 && |buf| == 3 * itemSize
    ensures |items| == N_ITEMS
    ensures forall i :: 0 <= i < N_ITEMS ==>
              var j := 4 * WordIndex(i, itemSize); j + 4 <= |buf| && items[i] == Word(buf[j..j + 4])
  {
    hide Word;
    items := [];
    var k := 0;
    while k < N_ITEMS
      invariant 0 <= k <= 3 && |items| == k
      invariant forall i :: 0 <= i < k ==>
                  var j := 4 * WordIndex(i, itemSize); j + 4 <= |buf| && items[i] == Word(buf[j..j + 4])
    {
      ItemPlace(k, itemSize);
      var w := WordIndex(k, itemSize);
      items := items + [Word(buf[4 * w..4 * w + 4])];
      k := k + 1;
    }
  }
}
