/** Updates of an area as steps of its ring, and what an open transaction has staged. */
module Updates {
  import opened Bytes
  import opened Flash
  import opened Geometry
  import opened Ring
  import opened Sealing
  import opened Slots
  import opened Tearing
  import Tracker

  // The area is in a state the slot search copes with.
  ghost predicate Ready(g: Layout, c: Chip) {
    Holds(g, c) && RingOk(View(g, c.mem))
  }

  ghost predicate InMeta(g: Layout, i: nat, k: int) {
    MetaBase(g, i) <= k < g.SlotBase(i) + g.SlotSize()
  }

  // From c to d nothing about the area changed but the meta record of its current slot, and nothing
  // its user can see.
  ghost predicate Same(g: Layout, c: Chip, d: Chip) {
    && Ready(g, c) && Ready(g, d) && |c.mem| == |d.mem|
    && var v, w := View(g, c.mem), View(g, d.mem);
       && Current(w) == Current(v) && Committed(w) == Committed(v) && Version(w) == Version(v)
       && w[Next(w)] == v[Next(v)]
       && forall k :: g.area <= k < g.area + g.areaSize ==>
            && d.wear[k] == c.wear[k]
            && (!InMeta(g, Current(v), k) ==> d.mem[k] == c.mem[k] && d.blank[k] == c.blank[k])
  }

  lemma SameTrans(g: Layout, c: Chip, d: Chip, e: Chip)
    requires Same(g, c, d) && Same(g, d, e)
    ensures Same(g, c, e)
  {
    hide Layout.SlotSize, Layout.SlotCount, Layout.SlotBase, View, RingAt, InMeta;
  }

  lemma SameRefl(g: Layout, c: Chip)
    requires Ready(g, c)
    ensures Same(g, c, c)
  {
  }

  lemma SameOutsideRefl(c: Chip, lo: nat, hi: nat)
    requires c.Valid()
    ensures SameOutside(c, c, lo, hi)
  {
  }

  lemma SameParts(g: Layout, c: Chip, d: Chip)
    requires Same(g, c, d)
    ensures Ready(g, c) && Ready(g, d) && |c.mem| == |d.mem|
    ensures var v, w := View(g, c.mem), View(g, d.mem);
            Current(w) == Current(v) && Committed(w) == Committed(v) && Version(w) == Version(v)
  {
  }

  lemma NextDiffers(v: seq<Slot>)
    requires RingOk(v)
    ensures Next(v) != Current(v)
  {
  }

  lemma CommittedLength(g: Layout, c: Chip)
    requires Ready(g, c)
    ensures |Committed(View(g, c.mem))| == g.dataSize
  {
  }

  // Repairing the meta record of the current slot.
  lemma MendedIsSame(g: Layout, c: Chip, d: Chip)
    requires Ready(g, c) && Mended(g, c, d, Current(View(g, c.mem)))
    ensures Same(g, c, d)
    ensures SameOutside(c, d, g.area, g.area + g.areaSize)
  {
    hide Layout.SlotSize, Layout.SlotCount, Layout.SlotBase, View, SlotAt, Bystander, Intact, SameOutside;
    var v := View(g, c.mem);
    var i := Current(v);
    SlotPlace(g, i);
    SameOutsideWider(c, d, MetaBase(g, i), g.SlotBase(i) + g.SlotSize(), g.SlotBase(i), g.SlotBase(i) + g.SlotSize());
    SameOutsideWider(c, d, g.SlotBase(i), g.SlotBase(i) + g.SlotSize(), g.area, g.area + g.areaSize);
    ViewAfter(g, c, d, i);
    ViewAt(g, c.mem, i);
    var w: nat :| SlotAt(g, d.mem, i) == SlotAt(g, c.mem, i).(checksum2 := w);
    MendStep(v, w);
    NextDiffers(v);
    MendedBytes(g, c, d, i);
  }

  lemma MendedBytes(g: Layout, c: Chip, d: Chip, i: nat)
    requires Holds(g, c) && i < g.SlotCount() && Mended(g, c, d, i)
    ensures Holds(g, d) && |c.mem| == |d.mem|
    ensures forall k :: g.area <= k < g.area + g.areaSize ==>
              && d.wear[k] == c.wear[k]
              && (!InMeta(g, i, k) ==> d.mem[k] == c.mem[k] && d.blank[k] == c.blank[k])
  {
    hide Layout.SlotSize, Layout.SlotCount, Layout.SlotBase, SlotAt;
  }

  // A change outside the area.
  lemma ElsewhereIsSame(g: Layout, c: Chip, d: Chip, lo: nat, hi: nat)
    requires Ready(g, c) && SameOutside(c, d, lo, hi)
    requires hi <= g.area || g.area + g.areaSize <= lo
    ensures Same(g, c, d)
  {
    hide Layout.SlotSize, Layout.SlotCount, Layout.SlotBase, View, SlotAt, Bystander, Intact;
    ViewElsewhere(g, c, d, lo, hi);
  }

  lemma SpliceAll(s: seq<byte>, b: seq<byte>)
    requires |s| == |b|
    ensures Splice(s, 0, b) == b
  {
  }

  lemma SameOutsideTrans(c: Chip, d: Chip, e: Chip, lo: nat, hi: nat)
    requires SameOutside(c, d, lo, hi) && SameOutside(d, e, lo, hi)
    ensures SameOutside(c, e, lo, hi)
  {
  }

  lemma SameOutsideWider(c: Chip, d: Chip, lo: nat, hi: nat, lo2: nat, hi2: nat)
    requires SameOutside(c, d, lo, hi) && lo2 <= lo && hi <= hi2
    ensures SameOutside(c, d, lo2, hi2)
  {
  }

  // ---------------------------------------------------------------- where memory changes

  // Byte k belongs to the record of the current slot of the area, or to its next slot, as they are in c.
  ghost predicate InRecord(g: Layout, c: Chip, k: int) {
    Ready(g, c) && InMeta(g, Current(View(g, c.mem)), k)
  }

  ghost predicate InNextSlot(g: Layout, c: Chip, k: int) {
    && Ready(g, c)
    && var n := Next(View(g, c.mem));
       g.SlotBase(n) <= k < g.SlotBase(n) + g.SlotSize()
  }

  // How far a call may reach: to the records it repairs, also to units of the next slot it programs, or to
  // the whole next slot, which it erases first.
  datatype Scope = OnlyRecords | NextUnits | NextSlot

  function Wider(p: Scope, q: Scope): Scope {
    if p == NextSlot || q == NextSlot then NextSlot
    else if p == NextUnits || q == NextUnits then NextUnits
    else OnlyRecords
  }

  // From c to d no byte changed but in the records of the current slots of g and of h and, if scope says so,
  // in the next slot of g; and no byte was erased but, if it says so, at most once in that slot.
  ghost predicate Confined(g: Layout, h: Layout, c: Chip, d: Chip, scope: Scope) {
    && c.Valid() && d.Valid() && |d.mem| == |c.mem|
    && (forall k ::
          0 <= k < |c.mem| && !InRecord(g, c, k) && !InRecord(h, c, k)
          && !(scope != OnlyRecords && InNextSlot(g, c, k)) ==>
            d.mem[k] == c.mem[k] && d.blank[k] == c.blank[k])
    && (forall k :: 0 <= k < |c.mem| ==>
          d.wear[k] == c.wear[k] || (scope == NextSlot && InNextSlot(g, c, k) && d.wear[k] == c.wear[k] + 1))
  }

  // The area has the same current slot in c and in d.
  ghost predicate SameCurrent(g: Layout, c: Chip, d: Chip) {
    Ready(g, c) && Ready(g, d) && Current(View(g, d.mem)) == Current(View(g, c.mem))
  }

  lemma SameIsSameCurrent(g: Layout, c: Chip, d: Chip)
    requires Same(g, c, d)
    ensures SameCurrent(g, c, d)
  {
    hide Ready, View;
    SameParts(g, c, d);
  }

  lemma SameCurrentTrans(g: Layout, c: Chip, d: Chip, e: Chip)
    requires SameCurrent(g, c, d) && SameCurrent(g, d, e)
    ensures SameCurrent(g, c, e)
  {
    hide RingAt, View;
  }

  lemma NothingConfined(g: Layout, h: Layout, c: Chip, scope: Scope)
    requires c.Valid()
    ensures Confined(g, h, c, c, scope)
  {
    hide InRecord, InNextSlot;
  }

  lemma RecordConfined(g: Layout, h: Layout, c: Chip, d: Chip)
    requires Ready(g, c) && Mended(g, c, d, Current(View(g, c.mem)))
    ensures Confined(g, h, c, d, OnlyRecords) && Confined(h, g, c, d, OnlyRecords)
  {
    hide Layout.SlotSize, Layout.SlotCount, Layout.SlotBase, Layout.Valid, View, SlotAt, Bystander, Intact;
  }

  lemma NextConfined(g: Layout, h: Layout, c: Chip, d: Chip)
    requires Ready(g, c)
    requires var n := Next(View(g, c.mem));
             && SameOutside(c, d, g.SlotBase(n), g.SlotBase(n) + g.SlotSize())
             && WornOnce(c, d, g.SlotBase(n), g.SlotBase(n) + g.SlotSize())
    ensures Confined(g, h, c, d, NextSlot)
  {
    hide Layout.SlotSize, Layout.SlotCount, Layout.SlotBase, Layout.Valid, View, Bystander, Intact, InRecord;
  }

  lemma UnitsConfined(g: Layout, h: Layout, c: Chip, d: Chip)
    requires Ready(g, c) && d.wear == c.wear
    requires var n := Next(View(g, c.mem)); SameOutside(c, d, g.SlotBase(n), g.SlotBase(n) + g.SlotSize())
    ensures Confined(g, h, c, d, NextUnits)
  {
    hide Layout.SlotSize, Layout.SlotCount, Layout.SlotBase, Layout.Valid, View, Bystander, Intact, InRecord;
  }

  lemma ConfinedWider(g: Layout, h: Layout, c: Chip, d: Chip)
    requires || Confined(g, g, c, d, OnlyRecords)
             || Confined(h, h, c, d, OnlyRecords)
             || Confined(g, h, c, d, OnlyRecords)
    ensures forall scope :: Confined(g, h, c, d, scope)
  {
    hide InRecord, InNextSlot;
  }

  lemma SamePlaces(g: Layout, c: Chip, d: Chip, k: int)
    requires SameCurrent(g, c, d)
    ensures InRecord(g, d, k) <==> InRecord(g, c, k)
    ensures InNextSlot(g, d, k) <==> InNextSlot(g, c, k)
  {
    hide Layout.SlotSize, Layout.SlotBase, Layout.Valid, RingAt;
  }

  lemma ConfinedTrans(g: Layout, h: Layout, c: Chip, d: Chip, e: Chip, p: Scope, q: Scope)
    requires Confined(g, h, c, d, p) && Confined(g, h, d, e, q) && (p != NextSlot || q != NextSlot)
    requires SameCurrent(g, c, d) && SameCurrent(h, c, d)
    ensures Confined(g, h, c, e, Wider(p, q))
  {
    hide InRecord, InNextSlot, SameCurrent;
    forall k | 0 <= k < |c.mem|
      ensures InRecord(g, d, k) <==> InRecord(g, c, k)
      ensures InRecord(h, d, k) <==> InRecord(h, c, k)
      ensures InNextSlot(g, d, k) <==> InNextSlot(g, c, k)
    {
      SamePlaces(g, c, d, k);
      SamePlaces(h, c, d, k);
    }
  }

  // All of that lies inside the two areas.
  lemma ConfinedInside(g: Layout, h: Layout, c: Chip, d: Chip, scope: Scope, k: nat)
    requires Confined(g, h, c, d, scope) && k < |c.mem|
    requires !(g.area <= k < g.area + g.areaSize) && !(h.area <= k < h.area + h.areaSize)
    ensures d.mem[k] == c.mem[k] && d.blank[k] == c.blank[k] && d.wear[k] == c.wear[k]
  {
    hide InRecord, InNextSlot;
    PlacesInside(g, c, k);
    PlacesInside(h, c, k);
  }

  lemma PlacesInside(g: Layout, c: Chip, k: int)
    ensures InRecord(g, c, k) || InNextSlot(g, c, k) ==> g.area <= k < g.area + g.areaSize
  {
    hide Layout.SlotSize, Layout.SlotCount, Layout.SlotBase, Layout.Valid, View, Bystander, Intact;
    if Ready(g, c) {
      SlotPlace(g, Current(View(g, c.mem)));
      SlotPlace(g, Next(View(g, c.mem)));
    }
  }

  // ---------------------------------------------------------------- updates

  // The bytes of [lo, hi) have been erased once more than in c, no other byte has.
  ghost predicate WornOnce(c: Chip, d: Chip, lo: nat, hi: nat) {
    && |d.wear| == |c.wear|
    && forall k :: 0 <= k < |c.wear| ==> d.wear[k] == if lo <= k < hi then c.wear[k] + 1 else c.wear[k]
  }

  // No byte of the area has been erased from c to d.
  ghost predicate WearKept(g: Layout, c: Chip, d: Chip) {
    && |d.wear| == |c.wear|
    && forall k :: g.area <= k < g.area + g.areaSize && k < |c.wear| ==> d.wear[k] == c.wear[k]
  }

  // From c to d the next slot has been erased once, and no other byte of the area has been.
  ghost predicate NextWorn(g: Layout, c: Chip, d: Chip)
    requires Ready(g, c)
  {
    var n := Next(View(g, c.mem));
    && |d.wear| == |c.wear|
    && forall k :: g.area <= k < g.area + g.areaSize && k < |c.wear| ==>
         d.wear[k] == if g.SlotBase(n) <= k < g.SlotBase(n) + g.SlotSize() then c.wear[k] + 1 else c.wear[k]
  }

  lemma SameKeepsWear(g: Layout, c: Chip, d: Chip)
    requires Same(g, c, d)
    ensures WearKept(g, c, d)
  {
    hide View, RingAt, Layout.Valid;
  }

  lemma WearKeptTrans(g: Layout, c: Chip, d: Chip, e: Chip)
    requires WearKept(g, c, d) && WearKept(g, d, e)
    ensures WearKept(g, c, e)
  {
  }

  // From c to d nothing of the area was erased, and its current slot stayed the same.
  ghost predicate Steady(g: Layout, c: Chip, d: Chip) {
    SameCurrent(g, c, d) && WearKept(g, c, d)
  }

  lemma SteadyNow(g: Layout, c: Chip)
    requires Ready(g, c)
    ensures Steady(g, c, c) && Confined(g, g, c, c, NextUnits)
  {
    hide View, RingAt, Layout.Valid;
    NothingConfined(g, g, c, NextUnits);
  }

  lemma SteadyTrans(g: Layout, c: Chip, d: Chip, e: Chip)
    requires Steady(g, c, d) && Confined(g, g, c, d, NextUnits) && Confined(g, g, d, e, NextUnits)
    ensures Confined(g, g, c, e, NextUnits)
    ensures Steady(g, d, e) ==> Steady(g, c, e)
  {
    hide SameCurrent, WearKept, Confined;
    ConfinedTrans(g, g, c, d, e, NextUnits, NextUnits);
    if Steady(g, d, e) {
      SameCurrentTrans(g, c, d, e);
      WearKeptTrans(g, c, d, e);
    }
  }

  lemma SteadyParts(g: Layout, c: Chip, d: Chip)
    ensures Steady(g, c, d) <==> SameCurrent(g, c, d) && WearKept(g, c, d)
  {
  }

  // The data pointer of an area tells its current slot.
  lemma SamePointer(g: Layout, c: Chip, d: Chip, data: Ref, tx: Tracking, tx2: Tracking)
    requires StateOk(g, c, data, tx) && StateOk(g, d, data, tx2) && data.At?
    ensures SameCurrent(g, c, d)
  {
    hide Layout.SlotSize, Layout.SlotCount, Layout.SlotBase, Layout.Valid, View, Bystander, Intact, StagingOk;
    SlotIndexOfBase(g, Current(View(g, c.mem)));
    SlotIndexOfBase(g, Current(View(g, d.mem)));
  }

  lemma OnceIsNextWorn(g: Layout, c: Chip, mid: Chip, d: Chip)
    requires Same(g, c, mid)
    requires var n := Next(View(g, mid.mem)); WornOnce(mid, d, g.SlotBase(n), g.SlotBase(n) + g.SlotSize())
    ensures Ready(g, c) && NextWorn(g, c, d)
  {
    hide View, Bystander, Intact, Layout.Valid, Layout.SlotSize, Layout.SlotCount, Layout.SlotBase;
  }

  lemma NextWornThenKept(g: Layout, c: Chip, d: Chip, e: Chip)
    requires Ready(g, c) && NextWorn(g, c, d) && WearKept(g, d, e)
    ensures NextWorn(g, c, e)
  {
    hide View, Bystander, Intact, Layout.Valid, Layout.SlotSize, Layout.SlotCount, Layout.SlotBase;
  }

  // From c to d the area took one complete update to data: its next slot now holds the record of data,
  // and no byte outside that slot changed.
  ghost predicate UpdatedTo(g: Layout, c: Chip, d: Chip, data: seq<byte>)
    requires Ready(g, c)
  {
    var v := View(g, c.mem);
    var n := Next(v);
    && SameOutside(c, d, g.SlotBase(n), g.SlotBase(n) + g.SlotSize())
    && View(g, d.mem) == Updated(v, data)
  }

  // From c to d an update of the area to data was cut short.
  ghost predicate UpdateCut(g: Layout, c: Chip, d: Chip, data: seq<byte>)
    requires Ready(g, c)
  {
    var v := View(g, c.mem);
    CutShort(g, c, d, Next(v), data, NewVersion(Version(v)))
  }

  lemma SealCompletes(g: Layout, c: Chip, f: Chip, data: seq<byte>)
    requires Ready(g, c) && Holds(g, f)
    requires var n := Next(View(g, c.mem));
             && SameOutside(c, f, g.SlotBase(n), g.SlotBase(n) + g.SlotSize())
             && SlotAt(g, f.mem, n).data == data
    ensures var v := View(g, c.mem);
            UpdatedTo(g, c, Sealed(g, f, Next(v), NewVersion(Version(v))), data)
  {
    hide Layout.SlotSize, Layout.SlotCount, Layout.SlotBase, SlotAt, Bystander, SameOutside, Record, View, Program,
         Checksum, MetaImage;
    var v := View(g, c.mem);
    var n := Next(v);
    var d := Sealed(g, f, n, NewVersion(Version(v)));
    SealedSlot(g, f, n, NewVersion(Version(v)));
    SameOutsideTrans(c, f, d, g.SlotBase(n), g.SlotBase(n) + g.SlotSize());
    ViewAfter(g, c, d, n);
  }

  lemma SealedWear(g: Layout, c: Chip, n: nat, version: nat)
    requires Holds(g, c) && n < g.SlotCount() && version < WORD_LIMIT
    ensures Sealed(g, c, n, version).wear == c.wear
  {
    hide Layout.SlotSize, Layout.SlotCount, Layout.SlotBase, SlotAt, Splice, Checksum, MetaImage;
  }

  // Cuts before the version is written, and while the record is written, both leave an update cut short.
  lemma OpenedIsCut(g: Layout, c: Chip, d: Chip, data: seq<byte>)
    requires Ready(g, c) && OpenedUp(g, c, d, Next(View(g, c.mem)))
    ensures UpdateCut(g, c, d, data)
  {
    hide Layout.SlotSize, Layout.SlotCount, Layout.SlotBase, SlotAt, RingAt, SameOutside, View;
  }

  lemma SealCutIsCut(g: Layout, c: Chip, f: Chip, d: Chip, data: seq<byte>)
    requires Ready(g, c) && Holds(g, f) && |data| == g.dataSize
    requires var v := View(g, c.mem);
             var n := Next(v);
             && SameOutside(c, f, g.SlotBase(n), g.SlotBase(n) + g.SlotSize())
             && SlotAt(g, f.mem, n).data == data
             && CutSeal(g, f, d, n, NewVersion(Version(v)))
    ensures UpdateCut(g, c, d, data) && d.wear == f.wear
  {
    hide Layout.SlotSize, Layout.SlotCount, Layout.SlotBase, SlotAt, Bystander, SameOutside, View, Checksum;
    var v := View(g, c.mem);
    var n := Next(v);
    SameOutsideTrans(c, f, d, g.SlotBase(n), g.SlotBase(n) + g.SlotSize());
  }

  // What a completed update means for the area.
  lemma UpdatedIsReady(g: Layout, c: Chip, d: Chip, data: seq<byte>)
    requires Ready(g, c) && UpdatedTo(g, c, d, data) && |data| == g.dataSize
    requires Version(View(g, c.mem)) + 1 < ERASED_WORD
    ensures Ready(g, d)
    ensures var v, w := View(g, c.mem), View(g, d.mem);
            Current(w) == Next(v) && Committed(w) == data && Version(w) == Version(v) + 1
  {
    hide Layout.SlotSize, Layout.SlotCount, Layout.SlotBase, SlotAt, RingAt, View, Updated;
    CommittedLength(g, c);
    UpdateStep(View(g, c.mem), data);
  }

  // An interrupted update leaves the area with the old data or with the new data.
  lemma CutIsReady(g: Layout, c: Chip, d: Chip, data: seq<byte>)
    requires Ready(g, c) && UpdateCut(g, c, d, data) && |data| == g.dataSize
    requires Version(View(g, c.mem)) < MAX_VERSION
    ensures Ready(g, d)
    ensures var v, w := View(g, c.mem), View(g, d.mem);
            || (Current(w) == Current(v) && Committed(w) == Committed(v) && Version(w) == Version(v))
            || (Current(w) == Next(v) && Committed(w) == data && Version(w) == Version(v) + 1)
  {
    hide Layout.SlotSize, Layout.SlotCount, Layout.SlotBase, Layout.Valid, View, SlotAt, SameOutside, Bystander,
         Intact, Interrupted;
    var v := View(g, c.mem);
    SameOutsideHolds(g, c, d, g.SlotBase(Next(v)), g.SlotBase(Next(v)) + g.SlotSize());
    ViewAt(g, c.mem, Next(v));
    ViewAfter(g, c, d, Next(v));
    CommittedLength(g, c);
    InterruptedStep(v, SlotAt(g, d.mem, Next(v)), data);
  }

  lemma SameOutsideHolds(g: Layout, c: Chip, d: Chip, lo: nat, hi: nat)
    requires Holds(g, c) && SameOutside(c, d, lo, hi)
    ensures Holds(g, d)
  {
  }

  // Opening the next slot changes nothing the user can see.
  lemma OpenedIsReady(g: Layout, c: Chip, d: Chip)
    requires Ready(g, c) && OpenedUp(g, c, d, Next(View(g, c.mem)))
    ensures Ready(g, d)
    ensures var v, w := View(g, c.mem), View(g, d.mem);
            Current(w) == Current(v) && Committed(w) == Committed(v) && Version(w) == Version(v)
  {
    hide Layout.SlotSize, Layout.SlotCount, Layout.SlotBase, Layout.Valid, View, SlotAt, SameOutside, Bystander,
         Intact, Opened;
    var v := View(g, c.mem);
    SameOutsideHolds(g, c, d, g.SlotBase(Next(v)), g.SlotBase(Next(v)) + g.SlotSize());
    ViewAt(g, c.mem, Next(v));
    ViewAfter(g, c, d, Next(v));
    OpenStep(v, SlotAt(g, d.mem, Next(v)));
  }

  // ---------------------------------------------------------------- open transactions

  ghost predicate BlankAt(c: Chip, a: nat) {
    a < |c.blank| && c.blank[a]
  }

  // The units of the next slot that hold new data: those marked in the tracker and, while the
  // transaction is being committed, the first `copied` ones.
  datatype Marks = Marks(bits: seq<bv8>, copied: nat)

  ghost predicate Taken(marks: Marks, unit: nat) {
    Tracker.Marked(marks.bits, unit) || unit < marks.copied
  }

  // The write unit byte k of the data lies in.
  function UnitOf(g: Layout, k: nat): nat {
    if g.nvm.writeSize == 0 then 0 else k / g.nvm.writeSize
  }

  // The next slot n is open: its meta items are blank, and so is every data unit not taken.
  ghost predicate StagingOk(g: Layout, c: Chip, n: nat, marks: Marks)
    requires Holds(g, c)
  {
    && |marks.bits| >= g.TrackerSize()
    && MetaBase(g, n) >= 0
    && Blank(c, MetaBase(g, n), g.SlotBase(n) + g.SlotSize())
    && forall k :: 0 <= k < g.dataSize && !Taken(marks, UnitOf(g, k)) ==> BlankAt(c, g.SlotBase(n) + k)
  }

  // The data as the open transaction would leave it: taken units from the next slot, all others from
  // the current one.
  ghost function Newer(g: Layout, m: seq<byte>, marks: Marks): (b: seq<byte>)
    requires Fits(g, m) && Current(View(g, m)) >= 0
    ensures |b| == g.dataSize
  {
    var v := View(g, m);
    seq(g.dataSize, k requires 0 <= k < g.dataSize =>
      if Taken(marks, UnitOf(g, k)) then v[Next(v)].data[k] else Committed(v)[k])
  }

  lemma SameStaging(g: Layout, c: Chip, d: Chip, marks: Marks)
    requires Same(g, c, d) && StagingOk(g, c, Next(View(g, c.mem)), marks)
    ensures StagingOk(g, d, Next(View(g, d.mem)), marks)
    ensures Newer(g, d.mem, marks) == Newer(g, c.mem, marks)
  {
    hide Layout.SlotSize, Layout.SlotCount, Layout.SlotBase, View, Bystander, Intact, Taken;
    var v := View(g, c.mem);
    var n, i := Next(v), Current(v);
    NextDiffers(v);
    SlotPlace(g, n);
    SlotPlace(g, i);
    if i < n {
      SlotsApart(g, i, n);
    } else {
      SlotsApart(g, n, i);
    }
  }

  // ---------------------------------------------------------------- the state of an area

  // ctx->data: the physical address of the current slot, once it is known.
  datatype Ref = Invalid | At(addr: nat)

  // ctx->transaction_tracker
  datatype Tracking = Closed | Open(marks: Marks)

  // The area is in a recoverable state; data, if known, is the slot the search would find; and an open
  // transaction has its next slot open.
  ghost predicate StateOk(g: Layout, c: Chip, data: Ref, tx: Tracking) {
    && Ready(g, c)
    && (data.At? ==> data.addr == g.SlotBase(Current(View(g, c.mem))))
    && (tx.Open? ==> data.At? && StagingOk(g, c, Next(View(g, c.mem)), tx.marks))
  }

  lemma SameStateOk(g: Layout, c: Chip, d: Chip, data: Ref, tx: Tracking)
    requires StateOk(g, c, data, tx) && Same(g, c, d)
    ensures StateOk(g, d, data, tx)
    ensures Committed(View(g, d.mem)) == Committed(View(g, c.mem))
    ensures tx.Open? ==> Newer(g, d.mem, tx.marks) == Newer(g, c.mem, tx.marks)
  {
    hide Layout.SlotSize, Layout.SlotCount, Layout.SlotBase, View, Bystander, Intact, StagingOk, Newer;
    SameParts(g, c, d);
    if tx.Open? {
      SameStaging(g, c, d, tx.marks);
    }
  }

  lemma ReadyOfState(g: Layout, c: Chip, data: Ref, tx: Tracking)
    requires StateOk(g, c, data, tx)
    ensures Ready(g, c)
  {
    hide View, RingAt;
  }
}
