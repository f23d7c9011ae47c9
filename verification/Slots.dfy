/** The slots of an area as they lie in memory. */
module Slots {
  import opened Bytes
  import opened Flash
  import opened Geometry
  import MetaItems
  import opened Ring

  ghost predicate Fits(g: Layout, m: seq<byte>) {
    g.Valid() && g.area + g.areaSize <= |m|
  }

  // An area may end where the memory does.
  lemma AreaMayEndMemory(g: Layout, m: seq<byte>)
    requires g.Valid() && |m| == g.area + g.areaSize
    ensures Fits(g, m)
  {
  }

  function WordAt(m: seq<byte>, a: nat): nat
    requires a + 4 <= |m|
  {
    Word(m[a..a + 4])
  }

  // Address of the meta items of slot i.
  function MetaBase(g: Layout, i: nat): int {
    g.SlotBase(i) + g.MetaOffset()
  }

  // Everything a proof needs to know about where slot i lies.
  lemma SlotPlace(g: Layout, i: nat)
    requires g.Valid() && i < g.SlotCount()
    ensures g.area <= g.SlotBase(i)
    ensures g.SlotBase(i) + g.dataSize <= MetaBase(g, i)
    ensures MetaBase(g, i) + 3 * g.ItemSize() == g.SlotBase(i) + g.SlotSize() <= g.area + g.areaSize
  {
    SlotInArea(g, i);
    SlotHoldsData(g);
  }

  ghost function SlotAt(g: Layout, m: seq<byte>, i: nat): (s: Slot)
    requires Fits(g, m) && i < g.SlotCount()
    ensures |s.data| == g.dataSize
  {
    SlotPlace(g, i);
    var b, a, t := g.SlotBase(i), MetaBase(g, i), g.ItemSize();
    Slot(m[b..b + g.dataSize], WordAt(m, a), WordAt(m, a + t), WordAt(m, a + 2 * t))
  }

  ghost function View(g: Layout, m: seq<byte>): (v: seq<Slot>)
    requires Fits(g, m)
    ensures |v| == g.SlotCount()
  {
    seq(g.SlotCount(), i requires 0 <= i < g.SlotCount() => SlotAt(g, m, i))
  }

  // One meta item, padded to a whole number of write units.
  function Item(g: Layout, w: nat): (b: seq<byte>)
    requires w < WORD_LIMIT
    ensures |b| == g.ItemSize()
  {
    MetaItems.Padded(w, g.ItemSize())
  }

  function MetaImage(g: Layout, version: nat, checksum: nat, checksum2: nat): (b: seq<byte>)
    requires version < WORD_LIMIT && checksum < WORD_LIMIT && checksum2 < WORD_LIMIT
    ensures |b| == g.MetaSize()
  {
    Item(g, version) + Item(g, checksum) + Item(g, checksum2)
  }

  // ---------------------------------------------------------------- steps on the chip

  ghost predicate Holds(g: Layout, c: Chip) {
    c.Valid() && Fits(g, c.mem)
  }

  ghost function Erased(g: Layout, c: Chip, n: nat): (d: Chip)
    requires Holds(g, c) && n < g.SlotCount()
    ensures Holds(g, d) && |d.mem| == |c.mem|
  {
    SlotPlace(g, n);
    EraseRange(c, g.SlotBase(n), g.SlotBase(n) + g.SlotSize())
  }

  // Programs b at offset at of slot n's data.
  ghost function Filled(g: Layout, c: Chip, n: nat, at: nat, b: seq<byte>): (d: Chip)
    requires Holds(g, c) && n < g.SlotCount() && at + |b| <= g.dataSize
    ensures Holds(g, d) && |d.mem| == |c.mem|
  {
    SlotPlace(g, n);
    Program(c, g.SlotBase(n) + at, b)
  }

  // Programs the meta items that go with version and the data already in slot n.
  ghost function Sealed(g: Layout, c: Chip, n: nat, version: nat): (d: Chip)
    requires Holds(g, c) && n < g.SlotCount() && version < WORD_LIMIT
    ensures Holds(g, d) && |d.mem| == |c.mem|
  {
    SlotPlace(g, n);
    var sum := Checksum(SlotAt(g, c.mem, n).data, version);
    Program(c, MetaBase(g, n), MetaImage(g, version, sum, sum))
  }

  // ---------------------------------------------------------------- reading a slot back

  lemma ViewAt(g: Layout, m: seq<byte>, i: nat)
    requires Fits(g, m) && i < g.SlotCount()
    ensures View(g, m)[i] == SlotAt(g, m, i)
  {
  }

  lemma SameWord(m: seq<byte>, d: seq<byte>, a: nat)
    requires a + 4 <= |m| == |d|
    requires forall k :: a <= k < a + 4 ==> d[k] == m[k]
    ensures WordAt(d, a) == WordAt(m, a)
  {
    assert d[a..a + 4] == m[a..a + 4];
  }

  // A slot reads the same when none of its bytes changed.
  lemma SameSlot(g: Layout, m: seq<byte>, d: seq<byte>, i: nat)
    requires Fits(g, m) && |d| == |m| && i < g.SlotCount()
    requires forall k :: g.SlotBase(i) <= k < g.SlotBase(i) + g.SlotSize() ==> k < |m| ==> d[k] == m[k]
    ensures SlotAt(g, d, i) == SlotAt(g, m, i)
  {
    hide Layout.SlotSize, Layout.SlotCount, Layout.SlotBase, WordAt;
    SlotPlace(g, i);
    var b, a, t := g.SlotBase(i), MetaBase(g, i), g.ItemSize();
    assert d[b..b + g.dataSize] == m[b..b + g.dataSize];
    SameWord(m, d, a);
    SameWord(m, d, a + t);
    SameWord(m, d, a + 2 * t);
  }

  // A change inside one slot shows in that slot only.
  lemma ViewAfter(g: Layout, c: Chip, d: Chip, n: nat)
    requires Holds(g, c) && n < g.SlotCount()
    requires SameOutside(c, d, g.SlotBase(n), g.SlotBase(n) + g.SlotSize())
    ensures View(g, d.mem) == View(g, c.mem)[n := SlotAt(g, d.mem, n)]
  {
    hide Layout.SlotSize, Layout.SlotCount, Layout.SlotBase, SlotAt;
    forall i | 0 <= i < g.SlotCount() && i != n
      ensures SlotAt(g, d.mem, i) == SlotAt(g, c.mem, i)
    {
      SlotPlace(g, i);
      if i < n {
        SlotsApart(g, i, n);
      } else {
        SlotsApart(g, n, i);
      }
      SameSlot(g, c.mem, d.mem, i);
    }
    assert forall i :: 0 <= i < g.SlotCount() ==> View(g, d.mem)[i] == View(g, c.mem)[n := SlotAt(g, d.mem, n)][i];
  }

  // A change outside the area does not show at all.
  lemma ViewElsewhere(g: Layout, c: Chip, d: Chip, lo: nat, hi: nat)
    requires Holds(g, c) && SameOutside(c, d, lo, hi)
    requires hi <= g.area || g.area + g.areaSize <= lo
    ensures View(g, d.mem) == View(g, c.mem)
  {
    hide Layout.SlotSize, Layout.SlotCount, Layout.SlotBase, SlotAt;
    forall i | 0 <= i < g.SlotCount()
      ensures SlotAt(g, d.mem, i) == SlotAt(g, c.mem, i)
    {
      SlotPlace(g, i);
      SameSlot(g, c.mem, d.mem, i);
    }
    assert forall i :: 0 <= i < g.SlotCount() ==> View(g, d.mem)[i] == View(g, c.mem)[i];
  }

  lemma ErasedSlot(g: Layout, c: Chip, n: nat)
    requires Holds(g, c) && n < g.SlotCount()
    ensures SameOutside(c, Erased(g, c, n), g.SlotBase(n), g.SlotBase(n) + g.SlotSize())
    ensures Blank(Erased(g, c, n), g.SlotBase(n), g.SlotBase(n) + g.SlotSize())
    ensures !Live(SlotAt(g, Erased(g, c, n).mem, n))
    ensures SlotAt(g, Erased(g, c, n).mem, n).data == Repeat(ERASED, g.dataSize)
  {
    hide Layout.SlotSize, Layout.SlotCount, Layout.SlotBase;
    SlotPlace(g, n);
    var m := Erased(g, c, n).mem;
    BlankWord(Erased(g, c, n), MetaBase(g, n));
    assert SlotAt(g, m, n).data == Repeat(ERASED, g.dataSize);
  }

  lemma BlankWord(c: Chip, a: nat)
    requires c.Valid() && Blank(c, a, a + 4)
    ensures WordAt(c.mem, a) == ERASED_WORD
  {
    ErasedWord(c.mem[a..a + 4]);
  }

  lemma FilledSlot(g: Layout, c: Chip, n: nat, at: nat, b: seq<byte>)
    requires Holds(g, c) && n < g.SlotCount() && at + |b| <= g.dataSize
    ensures SameOutside(c, Filled(g, c, n, at, b), g.SlotBase(n) + at, g.SlotBase(n) + at + |b|)
    ensures SameOutside(c, Filled(g, c, n, at, b), g.SlotBase(n), g.SlotBase(n) + g.SlotSize())
    ensures var s, t := SlotAt(g, c.mem, n), SlotAt(g, Filled(g, c, n, at, b).mem, n);
            t == s.(data := Splice(s.data, at, b))
  {
    hide Layout.SlotSize, Layout.SlotCount, Layout.SlotBase, WordAt;
    SlotPlace(g, n);
    var m, d := c.mem, Filled(g, c, n, at, b).mem;
    var a, t := MetaBase(g, n), g.ItemSize();
    SameWord(m, d, a);
    SameWord(m, d, a + t);
    SameWord(m, d, a + 2 * t);
    assert SlotAt(g, d, n).data == Splice(SlotAt(g, m, n).data, at, b);
  }

  lemma ImageWord(m: seq<byte>, at: nat, x: seq<byte>, w: nat, y: seq<byte>)
    requires w < WORD_LIMIT && at + |x| + 4 + |y| <= |m|
    ensures WordAt(Splice(m, at, x + WordBytes(w) + y), at + |x|) == w
  {
    var d := Splice(m, at, x + WordBytes(w) + y);
    assert d[at + |x|..at + |x| + 4] == WordBytes(w);
    WordRoundTrip(w);
  }

  // Meta items read back as they were written.
  lemma ImageSlot(g: Layout, c: Chip, n: nat, version: nat, sum: nat, sum2: nat)
    requires Holds(g, c) && n < g.SlotCount()
    requires version < WORD_LIMIT && sum < WORD_LIMIT && sum2 < WORD_LIMIT
    requires MetaBase(g, n) >= 0 && MetaBase(g, n) + g.MetaSize() <= |c.mem|
    ensures var d := Program(c, MetaBase(g, n), MetaImage(g, version, sum, sum2));
            SlotAt(g, d.mem, n) == Slot(SlotAt(g, c.mem, n).data, version, sum, sum2)
  {
    hide Layout.SlotSize, Layout.SlotCount, Layout.SlotBase, WordAt;
    SlotPlace(g, n);
    var a, t := MetaBase(g, n), g.ItemSize();
    var image := MetaImage(g, version, sum, sum2);
    var pad := Repeat(0, t - 4);
    var d := Splice(c.mem, a, image);
    assert image == [] + WordBytes(version) + (pad + Item(g, sum) + Item(g, sum2));
    ImageWord(c.mem, a, [], version, pad + Item(g, sum) + Item(g, sum2));
    assert image == Item(g, version) + WordBytes(sum) + (pad + Item(g, sum2));
    ImageWord(c.mem, a, Item(g, version), sum, pad + Item(g, sum2));
    assert image == (Item(g, version) + Item(g, sum)) + WordBytes(sum2) + pad;
    ImageWord(c.mem, a, Item(g, version) + Item(g, sum), sum2, pad);
    assert SlotAt(g, d, n).data == SlotAt(g, c.mem, n).data;
  }

  // A sealed slot holds the record of its data.
  lemma SealedSlot(g: Layout, c: Chip, n: nat, version: nat)
    requires Holds(g, c) && n < g.SlotCount() && version < WORD_LIMIT
    ensures SameOutside(c, Sealed(g, c, n, version), MetaBase(g, n), g.SlotBase(n) + g.SlotSize())
    ensures SameOutside(c, Sealed(g, c, n, version), g.SlotBase(n), g.SlotBase(n) + g.SlotSize())
    ensures SlotAt(g, Sealed(g, c, n, version).mem, n) == Record(SlotAt(g, c.mem, n).data, version)
  {
    hide Layout.SlotSize, Layout.SlotCount, Layout.SlotBase, SlotAt, Checksum;
    SlotPlace(g, n);
    var sum := Checksum(SlotAt(g, c.mem, n).data, version);
    ImageSlot(g, c, n, version, sum, sum);
  }
}
