/** Programming the meta record of a slot, completely or not. */
module Sealing {
  import opened Bytes
  import opened Flash
  import opened Geometry
  import opened MetaItems
  import opened Ring
  import opened Slots
  import opened Tearing

  lemma SlotWords(g: Layout, m: seq<byte>, i: nat)
    requires Fits(g, m) && i < g.SlotCount()
    ensures var s := SlotAt(g, m, i);
            s.version < WORD_LIMIT && s.checksum < WORD_LIMIT && s.checksum2 < WORD_LIMIT
  {
  }

  // The chip once the version and checksum items are programmed but not the copy of the checksum.
  ghost function HalfSealed(g: Layout, c: Chip, n: nat, version: nat, sum: nat): (d: Chip)
    requires Holds(g, c) && n < g.SlotCount() && version < WORD_LIMIT && sum < WORD_LIMIT
    ensures Holds(g, d) && |d.mem| == |c.mem|
  {
    SlotPlace(g, n);
    Program(c, MetaBase(g, n), Item(g, version) + Item(g, sum))
  }

  ghost function WithImage(g: Layout, c: Chip, n: nat, version: nat, sum: nat, sum2: nat): (d: Chip)
    requires Holds(g, c) && n < g.SlotCount() && version < WORD_LIMIT && sum < WORD_LIMIT && sum2 < WORD_LIMIT
    ensures Holds(g, d) && |d.mem| == |c.mem|
  {
    SlotPlace(g, n);
    Program(c, MetaBase(g, n), MetaImage(g, version, sum, sum2))
  }

  // The last item is programmed by a call of its own.
  lemma ImageInTwoCalls(g: Layout, c: Chip, n: nat, version: nat, sum: nat, sum2: nat)
    requires Holds(g, c) && n < g.SlotCount() && version < WORD_LIMIT && sum < WORD_LIMIT && sum2 < WORD_LIMIT
    requires MetaBase(g, n) >= 0 && MetaBase(g, n) + g.MetaSize() <= |c.mem|
    ensures Program(HalfSealed(g, c, n, version, sum), MetaBase(g, n) + 2 * g.ItemSize(), Item(g, sum2))
         == WithImage(g, c, n, version, sum, sum2)
  {
    ProgramExtend(c, MetaBase(g, n), Item(g, version) + Item(g, sum), Item(g, sum2));
  }

  lemma HalfSealedSlot(g: Layout, c: Chip, n: nat, version: nat, sum: nat)
    requires Holds(g, c) && n < g.SlotCount() && version < WORD_LIMIT && sum < WORD_LIMIT
    requires MetaBase(g, n) >= 0
    ensures SameOutside(c, HalfSealed(g, c, n, version, sum), MetaBase(g, n), g.SlotBase(n) + g.SlotSize())
    ensures var s, t := SlotAt(g, c.mem, n), SlotAt(g, HalfSealed(g, c, n, version, sum).mem, n);
            t == s.(version := version, checksum := sum)
  {
    hide Layout.SlotSize, Layout.SlotCount, Layout.SlotBase, WordAt;
    SlotPlace(g, n);
    var a, t := MetaBase(g, n), g.ItemSize();
    var pad := Repeat(0, t - 4);
    var d := HalfSealed(g, c, n, version, sum).mem;
    assert Item(g, version) + Item(g, sum) == [] + WordBytes(version) + (pad + Item(g, sum));
    ImageWord(c.mem, a, [], version, pad + Item(g, sum));
    assert Item(g, version) + Item(g, sum) == Item(g, version) + WordBytes(sum) + pad;
    ImageWord(c.mem, a, Item(g, version), sum, pad);
    SameWord(c.mem, d, a + 2 * t);
    assert SlotAt(g, d, n).data == SlotAt(g, c.mem, n).data;
  }

  lemma WithImageSlot(g: Layout, c: Chip, n: nat, version: nat, sum: nat, sum2: nat)
    requires Holds(g, c) && n < g.SlotCount() && version < WORD_LIMIT && sum < WORD_LIMIT && sum2 < WORD_LIMIT
    requires MetaBase(g, n) >= 0
    ensures SameOutside(c, WithImage(g, c, n, version, sum, sum2), MetaBase(g, n), g.SlotBase(n) + g.SlotSize())
    ensures SlotAt(g, WithImage(g, c, n, version, sum, sum2).mem, n)
         == Slot(SlotAt(g, c.mem, n).data, version, sum, sum2)
  {
    hide Layout.SlotSize, Layout.SlotCount, Layout.SlotBase, SlotAt;
    SlotPlace(g, n);
    ImageSlot(g, c, n, version, sum, sum2);
  }

  // write_meta was cut short: data untouched, version and checksum each erased or complete.
  ghost predicate CutSeal(g: Layout, c: Chip, d: Chip, n: nat, version: nat)
    requires Holds(g, c) && n < g.SlotCount()
  {
    && d.wear == c.wear
    && SameOutside(c, d, g.SlotBase(n), g.SlotBase(n) + g.SlotSize())
    && var s, t := SlotAt(g, c.mem, n), SlotAt(g, d.mem, n);
       && t.data == s.data
       && (t.version == ERASED_WORD || t.version == version)
       && (t.checksum == ERASED_WORD || t.checksum == Checksum(s.data, version))
  }

  lemma TornSeal(g: Layout, c: Chip, d: Chip, n: nat, version: nat, whole: set<Meta>)
    requires Holds(g, c) && n < g.SlotCount() && version < WORD_LIMIT && WholeWords(g, whole)
    requires MetaBase(g, n) >= 0
    requires Blank(c, MetaBase(g, n), g.SlotBase(n) + g.SlotSize())
    requires var sum := Checksum(SlotAt(g, c.mem, n).data, version);
             || Torn(c, HalfSealed(g, c, n, version, sum), d, whole)
             || Torn(HalfSealed(g, c, n, version, sum), WithImage(g, c, n, version, sum, sum), d, whole)
    ensures CutSeal(g, c, d, n, version)
  {
    hide Layout.SlotSize, Layout.SlotCount, Layout.SlotBase, SlotAt, Torn, Checksum, HalfSealed, WithImage, Item;
    SlotPlace(g, n);
    var sum := Checksum(SlotAt(g, c.mem, n).data, version);
    var h, w := HalfSealed(g, c, n, version, sum), WithImage(g, c, n, version, sum, sum);
    HalfSealedSlot(g, c, n, version, sum);
    SealingWear(g, c, n, version, sum, sum);
    TornWear(c, h, d, whole);
    TornWear(h, w, d, whole);
    if Torn(c, h, d, whole) {
      HalfSealedIs(g, c, n, version, sum);
      TornRecord(g, c, h, d, n, whole);
    } else {
      WithImageSlot(g, c, n, version, sum, sum);
      TornCopy(g, h, w, d, n, whole);
    }
  }

  lemma HalfSealedIs(g: Layout, c: Chip, n: nat, version: nat, sum: nat)
    requires Holds(g, c) && n < g.SlotCount() && version < WORD_LIMIT && sum < WORD_LIMIT
    requires MetaBase(g, n) >= 0 && MetaBase(g, n) + g.MetaSize() <= |c.mem|
    ensures HalfSealed(g, c, n, version, sum) == Program(c, MetaBase(g, n), Item(g, version) + Item(g, sum))
  {
  }

  // The meta items of slot i were rewritten on the way from c to d, and at most the second checksum
  // reads differently.
  ghost predicate Mended(g: Layout, c: Chip, d: Chip, i: nat)
    requires Holds(g, c) && i < g.SlotCount()
  {
    && MetaBase(g, i) >= 0
    && SameOutside(c, d, MetaBase(g, i), g.SlotBase(i) + g.SlotSize())
    && d.wear == c.wear
    && exists w: nat :: SlotAt(g, d.mem, i) == SlotAt(g, c.mem, i).(checksum2 := w)
  }

  lemma SealingWear(g: Layout, c: Chip, n: nat, version: nat, sum: nat, sum2: nat)
    requires Holds(g, c) && n < g.SlotCount() && version < WORD_LIMIT && sum < WORD_LIMIT && sum2 < WORD_LIMIT
    ensures HalfSealed(g, c, n, version, sum).wear == c.wear
    ensures WithImage(g, c, n, version, sum, sum2).wear == c.wear
  {
    hide Layout.SlotSize, Layout.SlotCount, Layout.SlotBase, Splice, Item, MetaImage;
  }

  lemma TornMend(g: Layout, c: Chip, d: Chip, n: nat, whole: set<Meta>)
    requires Holds(g, c) && n < g.SlotCount() && WholeWords(g, whole)
    requires var s := SlotAt(g, c.mem, n);
             || Torn(c, HalfSealed(g, c, n, s.version, s.checksum), d, whole)
             || Torn(HalfSealed(g, c, n, s.version, s.checksum),
                     WithImage(g, c, n, s.version, s.checksum, s.checksum), d, whole)
    ensures Mended(g, c, d, n)
  {
    hide Layout.SlotSize, Layout.SlotCount, Layout.SlotBase, SlotAt, Torn, HalfSealed, WithImage;
    SlotPlace(g, n);
    SlotWords(g, c.mem, n);
    var s := SlotAt(g, c.mem, n);
    var h, w := HalfSealed(g, c, n, s.version, s.checksum), WithImage(g, c, n, s.version, s.checksum, s.checksum);
    HalfSealedSlot(g, c, n, s.version, s.checksum);
    SealingWear(g, c, n, s.version, s.checksum, s.checksum);
    TornWear(c, h, d, whole);
    TornWear(h, w, d, whole);
    if Torn(c, h, d, whole) {
      TornCopy(g, c, h, d, n, whole);
    } else {
      WithImageSlot(g, c, n, s.version, s.checksum, s.checksum);
      TornCopy(g, h, w, d, n, whole);
    }
  }

  lemma ImageBytes(g: Layout, version: nat, checksum: nat, checksum2: nat, bytes: seq<byte>)
    requires version < WORD_LIMIT && checksum < WORD_LIMIT && checksum2 < WORD_LIMIT
    requires 3 * g.ItemSize() <= |bytes|
    requires bytes[..3 * g.ItemSize()]
          == Padded(version, g.ItemSize()) + Padded(checksum, g.ItemSize()) + Padded(checksum2, g.ItemSize())
    ensures bytes[0..2 * g.ItemSize()] == Item(g, version) + Item(g, checksum)
    ensures bytes[2 * g.ItemSize()..2 * g.ItemSize() + g.ItemSize()] == Item(g, checksum2)
  {
    var t := g.ItemSize();
    assert bytes[0..2 * t] == bytes[..3 * t][..2 * t];
    assert bytes[2 * t..3 * t] == bytes[..3 * t][2 * t..];
  }

  lemma WordBytesAre(m: seq<byte>, a: nat, w: nat)
    requires a + 4 <= |m| && WordAt(m, a) == w
    ensures w < WORD_LIMIT && m[a..a + 4] == WordBytes(w)
  {
    hide Word, WordBytes;
    BytesRoundTrip(m[a..a + 4]);
  }

  // Version and checksum items may be programmed over a record that holds the same version and checksum.
  lemma RepairsRecord(g: Layout, c: Chip, i: nat, version: nat, sum: nat)
    requires Holds(g, c) && i < g.SlotCount() && MetaBase(g, i) >= 0
    requires version == SlotAt(g, c.mem, i).version && sum == SlotAt(g, c.mem, i).checksum
    ensures version < WORD_LIMIT && sum < WORD_LIMIT
    ensures Repairs(c.mem, MetaOf(g, i), MetaBase(g, i), Item(g, version) + Item(g, sum))
  {
    hide Layout.SlotSize, Layout.SlotCount, Layout.SlotBase, WordAt, WordBytes, Repairs;
    SlotPlace(g, i);
    ItemSizes(g);
    var a, t := MetaBase(g, i), g.ItemSize();
    WordBytesAre(c.mem, a, version);
    WordBytesAre(c.mem, a + t, sum);
    var b := Item(g, version) + Item(g, sum);
    assert b[0..4] == WordBytes(version);
    assert b[t..t + 4] == WordBytes(sum);
    SameWordsRepair(c.mem, a, t, b);
  }

  lemma SameWordsRepair(m: seq<byte>, a: nat, t: nat, b: seq<byte>)
    requires 4 <= t && |b| == 2 * t && a + 2 * t <= |m|
    requires b[0..4] == m[a..a + 4] && b[t..t + 4] == m[a + t..a + t + 4]
    ensures Repairs(m, Meta(a, t), a, b)
  {
    SameWordBytes(m, a, b, 0);
    SameWordBytes(m, a + t, b, t);
  }

  lemma SameWordBytes(m: seq<byte>, a: nat, b: seq<byte>, j: nat)
    requires a + 4 <= |m| && j + 4 <= |b| && m[a..a + 4] == b[j..j + 4]
    ensures forall k :: a <= k < a + 4 ==> b[k - a + j] == m[k]
  {
    forall k | a <= k < a + 4
      ensures b[k - a + j] == m[k]
    {
      assert b[j..j + 4][k - a] == m[a..a + 4][k - a];
    }
  }

  // The copy of the checksum lies in no version or checksum word, but next to one.
  lemma RepairsCopy(g: Layout, m: seq<byte>, i: nat, b: seq<byte>)
    requires g.Valid() && i < g.SlotCount() && |b| == g.ItemSize() && MetaBase(g, i) >= 0
    ensures Repairs(m, MetaOf(g, i), MetaBase(g, i) + 2 * g.ItemSize(), b)
  {
    hide Layout.SlotSize, Layout.SlotCount, Layout.SlotBase;
    SlotPlace(g, i);
    ItemSizes(g);
  }

  lemma BlankPart(c: Chip, lo: nat, mid: nat, hi: nat)
    requires c.Valid() && Blank(c, lo, hi) && lo <= mid <= hi
    ensures Blank(c, lo, mid) && Blank(c, mid, hi)
  {
  }
}
