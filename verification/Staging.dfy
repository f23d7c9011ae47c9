/** Steps of an open transaction. */
module Staging {
  import opened Arithmetic
  import opened Bytes
  import opened Flash
  import opened Geometry
  import opened Ring
  import opened Slots
  import opened Tearing
  import opened Tracker
  import opened Updates

  // more takes units first .. first + n on top of those of marks.
  ghost predicate MarksMore(marks: Marks, more: Marks, first: nat, n: nat) {
    && |more.bits| == |marks.bits|
    && forall j: nat :: Taken(more, j) <==> first <= j < first + n || Taken(marks, j)
  }

  lemma MarkRangeMarksMore(marks: Marks, first: nat, n: nat)
    requires (first + n + 7) / 8 <= |marks.bits|
    ensures MarksMore(marks, marks.(bits := MarkRange(marks.bits, first, n)), first, n)
  {
    hide Marked;
    var more := marks.(bits := MarkRange(marks.bits, first, n));
    forall j: nat
      ensures Taken(more, j) <==> first <= j < first + n || Taken(marks, j)
    {
      RangeMarks(marks.bits, first, n, j);
    }
  }

  // Byte k lies in one of the n units from first on exactly when it lies in the bytes they span.
  lemma UnitRange(g: Layout, first: nat, n: nat, k: nat)
    requires g.nvm.writeSize > 0
    ensures first <= UnitOf(g, k) < first + n <==> first * g.nvm.writeSize <= k < (first + n) * g.nvm.writeSize
  {
    QuotientBelow(k, g.nvm.writeSize, first);
    QuotientBelow(k, g.nvm.writeSize, first + n);
  }

  // Bytes at .. at + n are the ones more takes on top of those of marks.
  ghost predicate MarksBytes(g: Layout, marks: Marks, more: Marks, at: nat, n: nat) {
    && |more.bits| == |marks.bits|
    && forall k :: 0 <= k < g.dataSize ==>
         (Taken(more, UnitOf(g, k)) <==> at <= k < at + n || Taken(marks, UnitOf(g, k)))
  }

  // Programming whole units of the next slot and marking them splices them into the newer data, and
  // leaves the committed data alone.
  lemma StageStep(g: Layout, c: Chip, d: Chip, marks: Marks, more: Marks, at: nat, seg: seq<byte>)
    requires Ready(g, c) && StagingOk(g, c, Next(View(g, c.mem)), marks)
    requires MarksBytes(g, marks, more, at, |seg|)
    requires at + |seg| <= g.dataSize
    requires d == Filled(g, c, Next(View(g, c.mem)), at, seg)
    ensures OpenedUp(g, c, d, Next(View(g, c.mem)))
    ensures Ready(g, d)
    ensures var v, w := View(g, c.mem), View(g, d.mem);
            Current(w) == Current(v) && Committed(w) == Committed(v) && Version(w) == Version(v)
    ensures StagingOk(g, d, Next(View(g, d.mem)), more)
    ensures Newer(g, d.mem, more) == Splice(Newer(g, c.mem, marks), at, seg)
  {
    hide Layout.SlotSize, Layout.SlotCount, Layout.SlotBase, View, SlotAt, Bystander, Intact, Taken, Filled,
         OpenedUp, StagingOk, Newer, Splice, MarksBytes;
    var n := Next(View(g, c.mem));
    StageOpens(g, c, d, n, at, seg, marks);
    OpenedIsReady(g, c, d);
    StagedBytes(g, c, d, marks, more, n, at, seg);
    StagedNewer(g, c, d, marks, more, at, seg);
  }

  lemma MarkedBytes(g: Layout, marks: Marks, more: Marks, first: nat, count: nat)
    requires g.nvm.writeSize > 0 && MarksMore(marks, more, first, count)
    ensures MarksBytes(g, marks, more, first * g.nvm.writeSize, count * g.nvm.writeSize)
  {
    hide Taken;
    SumOfProducts(first, count, g.nvm.writeSize);
    forall k | 0 <= k < g.dataSize
      ensures Taken(more, UnitOf(g, k)) <==>
              first * g.nvm.writeSize <= k < (first + count) * g.nvm.writeSize || Taken(marks, UnitOf(g, k))
    {
      hide UnitOf;
      UnitRange(g, first, count, k);
    }
  }

  lemma StageOpens(g: Layout, c: Chip, d: Chip, n: nat, at: nat, seg: seq<byte>, marks: Marks)
    requires Holds(g, c) && n < g.SlotCount() && StagingOk(g, c, n, marks)
    requires at + |seg| <= g.dataSize && d == Filled(g, c, n, at, seg)
    ensures OpenedUp(g, c, d, n)
    ensures SlotAt(g, d.mem, n).data == Splice(SlotAt(g, c.mem, n).data, at, seg)
  {
    hide Layout.SlotSize, Layout.SlotCount, Layout.SlotBase, SlotAt, Filled;
    FilledSlot(g, c, n, at, seg);
    BlankVersion(g, c, n);
  }

  lemma StagedNewer(g: Layout, c: Chip, d: Chip, marks: Marks, more: Marks, at: nat, seg: seq<byte>)
    requires Holds(g, c) && Holds(g, d) && Current(View(g, c.mem)) >= 0
    requires Current(View(g, d.mem)) == Current(View(g, c.mem))
    requires Committed(View(g, c.mem)) == Committed(View(g, d.mem))
    requires at + |seg| <= g.dataSize
    requires var n := Next(View(g, c.mem));
             SlotAt(g, d.mem, n).data == Splice(SlotAt(g, c.mem, n).data, at, seg)
    requires MarksBytes(g, marks, more, at, |seg|)
    ensures Newer(g, d.mem, more) == Splice(Newer(g, c.mem, marks), at, seg)
  {
    hide Layout.SlotSize, Layout.SlotCount, Layout.SlotBase, View, SlotAt, Taken;
    var n := Next(View(g, c.mem));
    ViewAt(g, c.mem, n);
    ViewAt(g, d.mem, n);
    var x, y := Newer(g, d.mem, more), Splice(Newer(g, c.mem, marks), at, seg);
    assert |x| == |y|;
    assert forall k :: 0 <= k < |x| ==> x[k] == y[k];
  }

  lemma BlankVersion(g: Layout, c: Chip, n: nat)
    requires Holds(g, c) && n < g.SlotCount() && MetaBase(g, n) >= 0
    requires Blank(c, MetaBase(g, n), g.SlotBase(n) + g.SlotSize())
    ensures !Live(SlotAt(g, c.mem, n))
  {
    hide Layout.SlotSize, Layout.SlotCount, Layout.SlotBase;
    SlotPlace(g, n);
    BlankWord(c, MetaBase(g, n));
  }

  lemma StagedBytes(g: Layout, c: Chip, d: Chip, marks: Marks, more: Marks, n: nat, at: nat, seg: seq<byte>)
    requires Holds(g, c) && n < g.SlotCount() && StagingOk(g, c, n, marks) && at + |seg| <= g.dataSize
    requires d == Filled(g, c, n, at, seg)
    requires MarksBytes(g, marks, more, at, |seg|)
    ensures StagingOk(g, d, n, more)
  {
    hide Layout.SlotSize, Layout.SlotCount, Layout.SlotBase, Taken;
    SlotPlace(g, n);
  }

  // Once every unit is marked the next slot holds all of the newer data.
  lemma AllMarked(g: Layout, m: seq<byte>, marks: Marks)
    requires Fits(g, m) && Current(View(g, m)) >= 0
    requires forall k :: 0 <= k < g.dataSize ==> Taken(marks, UnitOf(g, k))
    ensures SlotAt(g, m, Next(View(g, m))).data == Newer(g, m, marks)
  {
    hide Taken;
    var n := Next(View(g, m));
    ViewAt(g, m, n);
    var x, y := SlotAt(g, m, n).data, Newer(g, m, marks);
    assert forall k :: 0 <= k < g.dataSize ==> x[k] == y[k];
  }
}
