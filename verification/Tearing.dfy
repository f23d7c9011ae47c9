/** What a slot holds after a power cut in each kind of erase and program call the library makes. */
module Tearing {
  import opened Bytes
  import opened Flash
  import opened Geometry
  import Ring
  import opened Slots

  // The place of the record of slot i.
  function MetaOf(g: Layout, i: nat): Meta
    requires g.Valid()
  {
    Meta(MetaBase(g, i), g.ItemSize())
  }

  // The version and checksum words of an area are never split by a power cut.
  ghost predicate WholeWords(g: Layout, whole: set<Meta>)
    requires g.Valid()
  {
    forall i: nat :: i < g.SlotCount() ==> MetaOf(g, i) in whole
  }

  // An update of slot n to data under version was cut short on the way from c to d.
  ghost predicate CutShort(g: Layout, c: Chip, d: Chip, n: nat, data: seq<byte>, version: nat)
    requires Holds(g, c) && n < g.SlotCount()
  {
    && SameOutside(c, d, g.SlotBase(n), g.SlotBase(n) + g.SlotSize())
    && Ring.Interrupted(SlotAt(g, c.mem, n), SlotAt(g, d.mem, n), data, version)
  }

  // Slot n was opened on the way from c to d, and no version was written to it.
  ghost predicate OpenedUp(g: Layout, c: Chip, d: Chip, n: nat)
    requires Holds(g, c) && n < g.SlotCount()
  {
    && SameOutside(c, d, g.SlotBase(n), g.SlotBase(n) + g.SlotSize())
    && Ring.Opened(SlotAt(g, c.mem, n), SlotAt(g, d.mem, n))
  }

  // A stretch that already held its target bytes is safe.
  lemma TornKeeps(before: Chip, target: Chip, after: Chip, whole: set<Meta>, lo: nat, hi: nat)
    requires Torn(before, target, after, whole)
    requires lo <= hi <= |before.mem| && before.mem[lo..hi] == target.mem[lo..hi]
    ensures |after.mem| == |before.mem| && after.mem[lo..hi] == before.mem[lo..hi]
  {
    forall k | lo <= k < hi
      ensures after.mem[k] == before.mem[k]
    {
      assert before.mem[k] == before.mem[lo..hi][k - lo] == target.mem[lo..hi][k - lo];
    }
  }

  lemma TornKeepsWord(before: Chip, target: Chip, after: Chip, whole: set<Meta>, a: nat)
    requires Torn(before, target, after, whole) && a + 4 <= |before.mem|
    requires |target.mem| == |before.mem| && WordAt(before.mem, a) == WordAt(target.mem, a)
    ensures |after.mem| == |before.mem| && WordAt(after.mem, a) == WordAt(before.mem, a)
  {
    hide Torn, Word;
    BytesRoundTrip(before.mem[a..a + 4]);
    BytesRoundTrip(target.mem[a..a + 4]);
    TornKeeps(before, target, after, whole, a, a + 4);
  }

  lemma WholeWord(before: Chip, target: Chip, after: Chip, r: Meta, a: nat, whole: set<Meta>)
    requires Torn(before, target, after, whole) && r in whole && (a == r.at || a == r.at + r.item)
    requires a + 4 <= |before.mem|
    ensures |after.mem| == |before.mem| == |target.mem|
    ensures WordAt(after.mem, a) == WordAt(before.mem, a) || WordAt(after.mem, a) == WordAt(target.mem, a)
  {
  }

  lemma TornErase(g: Layout, c: Chip, d: Chip, n: nat, whole: set<Meta>)
    requires Holds(g, c) && n < g.SlotCount() && WholeWords(g, whole)
    requires Torn(c, Erased(g, c, n), d, whole)
    ensures OpenedUp(g, c, d, n)
  {
    hide Layout.SlotSize, Layout.SlotCount, Layout.SlotBase, Torn, WordAt, Erased, SameOutside;
    SlotPlace(g, n);
    ErasedSlot(g, c, n);
    var t := Erased(g, c, n);
    TornValid(c, t, d, whole);
    TornOutside(c, t, d, whole, g.SlotBase(n), g.SlotBase(n) + g.SlotSize());
    var a := MetaBase(g, n);
    var b := a + g.ItemSize();
    BlankWord(t, a);
    WholeWord(c, t, d, MetaOf(g, n), a, whole);
    BlankWord(t, b);
    if WordAt(c.mem, b) == ERASED_WORD {
      TornKeepsWord(c, t, d, whole, b);
    }
  }

  // A cut while the data part of a slot is being programmed leaves the meta items alone.
  lemma TornFill(g: Layout, c: Chip, d: Chip, n: nat, at: nat, b: seq<byte>, whole: set<Meta>)
    requires Holds(g, c) && n < g.SlotCount() && at + |b| <= g.dataSize
    requires Torn(c, Filled(g, c, n, at, b), d, whole)
    ensures SameOutside(c, d, g.SlotBase(n), g.SlotBase(n) + g.SlotSize())
    ensures SlotAt(g, d.mem, n).version == SlotAt(g, c.mem, n).version
  {
    hide Layout.SlotSize, Layout.SlotCount, Layout.SlotBase, Torn, WordAt, Filled, SameOutside;
    SlotPlace(g, n);
    FilledSlot(g, c, n, at, b);
    var t := Filled(g, c, n, at, b);
    TornValid(c, t, d, whole);
    TornOutside(c, t, d, whole, g.SlotBase(n), g.SlotBase(n) + g.SlotSize());
    TornKeepsWord(c, t, d, whole, MetaBase(g, n));
  }

  // A cut while the version and checksum items are programmed on blank memory: each of the two words
  // is erased or complete.
  lemma TornRecord(g: Layout, c: Chip, target: Chip, d: Chip, n: nat, whole: set<Meta>)
    requires Holds(g, c) && Holds(g, target) && n < g.SlotCount() && WholeWords(g, whole) && MetaBase(g, n) >= 0
    requires Blank(c, MetaBase(g, n), g.SlotBase(n) + g.SlotSize())
    requires SameOutside(c, target, MetaBase(g, n), g.SlotBase(n) + g.SlotSize())
    requires Torn(c, target, d, whole)
    ensures SameOutside(c, d, MetaBase(g, n), g.SlotBase(n) + g.SlotSize())
    ensures SlotAt(g, d.mem, n).data == SlotAt(g, c.mem, n).data
    ensures SlotAt(g, d.mem, n).version in {ERASED_WORD, SlotAt(g, target.mem, n).version}
    ensures SlotAt(g, d.mem, n).checksum in {ERASED_WORD, SlotAt(g, target.mem, n).checksum}
  {
    hide Layout.SlotSize, Layout.SlotCount, Layout.SlotBase, WordAt, Layout.Valid, Torn;
    SlotPlace(g, n);
    var a, t, b := MetaBase(g, n), g.ItemSize(), g.SlotBase(n);
    TornOutside(c, target, d, whole, a, b + g.SlotSize());
    assert d.mem[b..b + g.dataSize] == c.mem[b..b + g.dataSize];
    BlankWord(c, a);
    BlankWord(c, a + t);
    WholeWord(c, target, d, MetaOf(g, n), a, whole);
    WholeWord(c, target, d, MetaOf(g, n), a + t, whole);
  }

  // A cut while only the second checksum item changes leaves data, version and checksum alone.
  lemma TornCopy(g: Layout, c: Chip, target: Chip, d: Chip, n: nat, whole: set<Meta>)
    requires Holds(g, c) && n < g.SlotCount() && MetaBase(g, n) >= 0
    requires target.Valid() && |target.mem| == |c.mem|
    requires SameOutside(c, target, MetaBase(g, n), g.SlotBase(n) + g.SlotSize())
    requires SlotAt(g, target.mem, n).version == SlotAt(g, c.mem, n).version
    requires SlotAt(g, target.mem, n).checksum == SlotAt(g, c.mem, n).checksum
    requires Torn(c, target, d, whole)
    ensures SameOutside(c, d, MetaBase(g, n), g.SlotBase(n) + g.SlotSize())
    ensures exists w: nat :: SlotAt(g, d.mem, n) == SlotAt(g, c.mem, n).(checksum2 := w)
  {
    hide Layout.SlotSize, Layout.SlotCount, Layout.SlotBase, WordAt, Torn;
    SlotPlace(g, n);
    var a, t, b := MetaBase(g, n), g.ItemSize(), g.SlotBase(n);
    TornOutside(c, target, d, whole, a, b + g.SlotSize());
    TornKeepsWord(c, target, d, whole, a);
    TornKeepsWord(c, target, d, whole, a + t);
    assert d.mem[b..b + g.dataSize] == c.mem[b..b + g.dataSize];
    var w := WordAt(d.mem, a + 2 * t);
    assert SlotAt(g, d.mem, n) == SlotAt(g, c.mem, n).(checksum2 := w);
  }
}
