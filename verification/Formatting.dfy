/** Formatting an area. */
module Formatting {
  import opened Areas
  import opened Arithmetic
  import opened Bytes
  import opened Contents
  import opened Flash
  import opened Ftl
  import opened Geometry
  import Operations
  import Registry
  import opened Ring
  import opened Sealing
  import opened Slots
  import opened Tearing
  import Tracker
  import opened Updates

  function FormatEnd(g: Layout): nat {
    g.area + g.Pages() * g.nvm.eraseSize
  }

  // Erasing every whole page of the area erases every slot, and nothing outside the area.
  lemma PagesCoverSlots(g: Layout, i: nat)
    requires g.Valid() && i < g.SlotCount()
    ensures g.Pages() > 0
    ensures g.SlotBase(i) + g.SlotSize() <= FormatEnd(g) <= g.area + g.areaSize
  {
    hide Layout.SlotSize, Layout.SlotCount;
    SlotCountBounds(g);
    SlotHoldsData(g);
    MulMonotone(i + 1, g.SlotCount(), g.SlotSize());
    SlotsAreWholePages(g, g.SlotCount());
    DivBounds(g.areaSize, g.nvm.eraseSize);
  }

  lemma SlotsAreWholePages(g: Layout, n: nat)
    requires g.Valid() && n * g.SlotSize() <= g.areaSize
    ensures n * g.SlotSize() <= g.Pages() * g.nvm.eraseSize
  {
    var e, p := g.nvm.eraseSize, g.PagesInSlot();
    assert n * g.SlotSize() == (n * p) * e;
    WholePages(n * p, e, g.areaSize);
  }

  lemma WholePages(q: nat, e: nat, size: nat)
    requires e > 0 && q * e <= size
    ensures q * e <= (size / e) * e
  {
    DivBounds(size, e);
    if q > size / e {
      MulMonotone(size / e + 1, q, e);
    } else {
      MulMonotone(q, size / e, e);
    }
  }

  // The chip after its whole area was erased.
  ghost function AreaErased(g: Layout, c: Chip): (d: Chip)
    requires Holds(g, c)
    ensures Holds(g, d) && |d.mem| == |c.mem|
  {
    SlotCountBounds(g);
    PagesCoverSlots(g, 0);
    EraseRange(c, g.area, FormatEnd(g))
  }

  ghost function FormattedChip(g: Layout, c: Chip): (d: Chip)
    requires Holds(g, c)
    ensures Holds(g, d) && |d.mem| == |c.mem|
  {
    SlotCountBounds(g);
    Sealed(g, AreaErased(g, c), 0, 1)
  }

  // From c to d every whole page of the area was erased once, the record of slot 0 was programmed, and nothing
  // else happened.
  ghost predicate WholeAreaErased(g: Layout, c: Chip, d: Chip)
    requires g.nvm.eraseSize > 0
  {
    var end, record := g.area + g.areaSize - g.areaSize % g.nvm.eraseSize, g.area + g.SlotSize() - 3 * g.ItemSize();
    && c.Valid() && d.Valid() && |d.mem| == |c.mem|
    && (forall k :: g.area <= k < end && k < |c.mem| ==> d.wear[k] == c.wear[k] + 1)
    && (forall k :: g.area <= k < end && k < |c.mem| && !(record <= k < g.area + g.SlotSize()) ==>
          d.mem[k] == ERASED && d.blank[k])
    && (forall k :: 0 <= k < |c.mem| && !(g.area <= k < end) ==>
          d.mem[k] == c.mem[k] && d.blank[k] == c.blank[k] && d.wear[k] == c.wear[k])
  }

  lemma FormattedBytes(g: Layout, c: Chip)
    requires Holds(g, c)
    ensures WholeAreaErased(g, c, FormattedChip(g, c))
  {
    hide Layout.SlotSize, Layout.SlotCount, SlotAt, Checksum, MetaImage, Layout.Pages, Splice;
    SlotCountBounds(g);
    PagesAreWhole(g);
    PagesCoverSlots(g, 0);
    SlotPlace(g, 0);
    SlotsAdjoin(g, 0);
  }

  lemma ErasedSlots(g: Layout, c: Chip, i: nat)
    requires Holds(g, c) && i < g.SlotCount()
    ensures Blank(AreaErased(g, c), g.SlotBase(i), g.SlotBase(i) + g.SlotSize())
    ensures SlotAt(g, AreaErased(g, c).mem, i) == BlankSlot(g.dataSize)
    ensures SameOutside(c, AreaErased(g, c), g.area, g.area + g.areaSize)
  {
    hide Layout.SlotSize, Layout.SlotCount, Layout.SlotBase, FormatEnd, WordAt;
    SlotPlace(g, i);
    PagesCoverSlots(g, i);
    var d := AreaErased(g, c);
    BlankWord(d, MetaBase(g, i));
    BlankWord(d, MetaBase(g, i) + g.ItemSize());
    BlankWord(d, MetaBase(g, i) + 2 * g.ItemSize());
    assert SlotAt(g, d.mem, i).data == Repeat(ERASED, g.dataSize);
  }

  // After formatting, slot 0 holds version 1 of all-erased data, and no other slot holds anything.
  lemma FormattedRing(g: Layout, c: Chip)
    requires Holds(g, c)
    ensures Ready(g, FormattedChip(g, c))
    ensures var v := View(g, FormattedChip(g, c).mem);
            Current(v) == 0 && Version(v) == 1 && Committed(v) == Repeat(ERASED, g.dataSize)
    ensures SameOutside(c, FormattedChip(g, c), g.area, g.area + g.areaSize)
  {
    hide Layout.SlotSize, Layout.SlotCount, Layout.SlotBase, SlotAt, Sealed, Checksum, SameOutside, AreaErased,
         View, RingAt;
    SlotCountBounds(g);
    var e, d := AreaErased(g, c), FormattedChip(g, c);
    ErasedSlots(g, c, 0);
    SealedSlot(g, e, 0, 1);
    ViewAfter(g, e, d, 0);
    InsideSlotIsInsideArea(g, e, d, 0);
    SameOutsideTrans(c, e, d, g.area, g.area + g.areaSize);
    var v := View(g, d.mem);
    forall i | 1 <= i < |v|
      ensures v[i] == BlankSlot(g.dataSize)
    {
      ErasedSlots(g, c, i);
      ViewAt(g, e.mem, i);
    }
    FormatStep(v);
  }

  // A transaction that was open is then one that has written erased bytes, if anything.
  lemma FormattedStaging(g: Layout, c: Chip, bits: seq<bv8>)
    requires Holds(g, c) && |bits| >= g.TrackerSize()
    ensures Ready(g, FormattedChip(g, c))
    ensures var d := FormattedChip(g, c);
            && StagingOk(g, d, Next(View(g, d.mem)), Marks(bits, 0))
            && Newer(g, d.mem, Marks(bits, 0)) == Repeat(ERASED, g.dataSize)
  {
    hide Layout.SlotSize, Layout.SlotCount, Layout.SlotBase, SlotAt, Sealed, AreaErased, View, Bystander, Intact,
         Layout.TrackerSize, Tracker.Marked, Checksum, Layout.Valid;
    FormattedRing(g, c);
    SlotCountBounds(g);
    var e, d := AreaErased(g, c), FormattedChip(g, c);
    SealedSlot(g, e, 0, 1);
    ErasedSlots(g, c, 1);
    ViewAfter(g, e, d, 0);
    ViewAt(g, e.mem, 1);
    ViewAt(g, d.mem, 0);
    SlotsApart(g, 0, 1);
    SlotPlace(g, 1);
    var x, y := Newer(g, d.mem, Marks(bits, 0)), Repeat(ERASED, g.dataSize);
    assert forall k :: 0 <= k < g.dataSize ==> x[k] == y[k];
  }

  lemma CutFormat(g: Layout, c: Chip, d: Chip)
    requires Holds(g, c) && CutSeal(g, AreaErased(g, c), d, 0, 1) && g.SlotCount() > 0
    ensures SameOutside(c, d, g.area, g.area + g.areaSize)
  {
    hide Layout.SlotSize, Layout.SlotCount, Layout.SlotBase, SlotAt, AreaErased, SameOutside;
    ErasedSlots(g, c, 0);
    InsideSlotIsInsideArea(g, AreaErased(g, c), d, 0);
    SameOutsideTrans(c, AreaErased(g, c), d, g.area, g.area + g.areaSize);
  }

  lemma AreaErasedIs(g: Layout, c: Chip)
    requires Holds(g, c)
    ensures FormatEnd(g) == g.area + g.Pages() * g.nvm.eraseSize <= |c.mem| && g.Pages() > 0 && g.SlotCount() > 0
    ensures AreaErased(g, c) == EraseRange(c, g.area, g.area + g.Pages() * g.nvm.eraseSize)
    ensures MetaBase(g, 0) >= 0 && Blank(AreaErased(g, c), MetaBase(g, 0), g.SlotBase(0) + g.SlotSize())
    ensures FormattedChip(g, c) == Sealed(g, AreaErased(g, c), 0, 1)
    ensures SameOutside(c, AreaErased(g, c), g.area, g.area + g.areaSize)
  {
    hide Layout.SlotSize, Layout.SlotCount, Layout.SlotBase, EraseRange, Blank, SameOutside, SlotAt, Sealed;
    SlotCountBounds(g);
    PagesCoverSlots(g, 0);
    SlotPlace(g, 0);
    ErasedSlots(g, c, 0);
    BlankPart(AreaErased(g, c), g.SlotBase(0), MetaBase(g, 0), g.SlotBase(0) + g.SlotSize());
  }

  // lftl_format. A power cut may leave the area without any valid slot.
  method FormatArea(a: Area) returns (o: Outcome)
    requires a.g.nvm.writeSize <= WU_MAX_SIZE ==> a.Sound()
    modifies a.flash, a`data
    ensures a.flash.cuts == old(a.flash.cuts) + if o == PowerCut then 1 else 0
    ensures o.Raised? <==> a.g.nvm.writeSize > WU_MAX_SIZE
    ensures o.Raised? ==>
              o.code == ERROR_WU_SIZE_TOO_LARGE && a.flash.chip == old(a.flash.chip) && a.data == old(a.data)
    ensures o == Done ==> a.flash.chip == FormattedChip(a.g, old(a.flash.chip)) && a.data == At(a.g.area)
    ensures o == Done ==> a.g.nvm.eraseSize > 0 && WholeAreaErased(a.g, old(a.flash.chip), a.flash.chip)
    ensures o == PowerCut ==> SameOutside(old(a.flash.chip), a.flash.chip, a.g.area, a.g.area + a.g.areaSize)
  {
    hide Layout.SlotSize, Layout.SlotCount, Layout.SlotBase, Torn, SameOutside, Sealed, Blank, SlotAt, CutSeal,
         FormatEnd, AreaErased, FormattedChip, EraseRange, WholeWords, Layout.Pages, WholeAreaErased;
    if a.g.nvm.writeSize > WU_MAX_SIZE {
      return Raised(ERROR_WU_SIZE_TOO_LARGE);
    }
    ghost var c := a.flash.chip;
    AreaErasedIs(a.g, c);
    FormattedBytes(a.g, c);
    var ok := a.NvmErase(a.g.area, a.g.Pages());
    if !ok {
      TornOutside(c, AreaErased(a.g, c), a.flash.chip, a.flash.whole, a.g.area, a.g.area + a.g.areaSize);
      return PowerCut;
    }
    a.data := At(a.g.area);
    ok := a.WriteMeta(0, 1);
    if !ok {
      CutFormat(a.g, c, a.flash.chip);
      return PowerCut;
    }
    o := Done;
  }

  function OldTx(x: Area, g: Layout): Staged
    reads x
  {
    if x.tracker == null then NoTransaction else Newest(Repeat(ERASED, g.dataSize))
  }

  lemma SmallUnit(g: Layout)
    requires g.Valid()
    ensures g.nvm.writeSize <= WU_MAX_SIZE
  {
  }

  lemma FirstSlot(g: Layout)
    ensures g.SlotBase(0) == g.area
  {
  }

  lemma FormatDone(lib: Registry.Library, ctx: Area, i: nat, s: seq<Content>, c: Chip)
    requires lib.Linked() && OwnTrackers(lib) && i < |lib.areas| && ctx == lib.areas[i]
    requires HeldExcept(lib, s, c, i) && WholeWords(ctx.g, lib.flash.whole) && Ready(ctx.g, lib.flash.chip)
    requires forall a :: a in lib.areas && a != ctx ==> a.Ok() && Same(a.g, c, lib.flash.chip)
    requires ctx.data == At(ctx.g.area)
    requires var v := View(ctx.g, lib.flash.chip.mem);
             Current(v) == 0 && Version(v) == 1 && Committed(v) == Repeat(ERASED, ctx.g.dataSize)
    requires ctx.tracker != null ==>
               && StagingOk(ctx.g, lib.flash.chip, Next(View(ctx.g, lib.flash.chip.mem)), ctx.Tx().marks)
               && Newer(ctx.g, lib.flash.chip.mem, ctx.Tx().marks) == Repeat(ERASED, ctx.g.dataSize)
    ensures Valid(lib) && Holding(lib, s[i := Content(1, Repeat(ERASED, ctx.g.dataSize), OldTx(ctx, ctx.g))])
  {
    hide Layout.SlotSize, Layout.SlotCount, Layout.SlotBase, Layout.Valid, View, Bystander, Intact, StagingOk, Same,
         WholeWords, Newer, Area.Ok, OwnTrackers;
    FirstSlot(ctx.g);
    assert ctx.flash == lib.flash;
    Operations.OkOf(ctx);
    forall j | 0 <= j < |s| && j != i
      ensures Same(lib.areas[j].g, c, lib.flash.chip)
    {
      assert lib.areas[j] != ctx;
    }
    HoldingAfter(lib, s, i, c);
  }

  // The area may hold anything beforehand; the others keep what they hold, also if the power fails.
  method Format(lib: Registry.Library, ctx: Area, ghost i: nat, ghost s: seq<Content>) returns (o: Outcome)
    requires lib.Linked() && OwnTrackers(lib) && i < |lib.areas| && ctx == lib.areas[i]
    requires HeldExcept(lib, s, lib.flash.chip, i) && Holds(ctx.g, lib.flash.chip)
    requires forall a :: a in lib.areas ==> WholeWords(a.g, lib.flash.whole)
    requires forall a :: a in lib.areas && a != ctx ==> StateOk(a.g, lib.flash.chip, a.data, a.Tx())
    requires ctx.copied == 0 && (ctx.tracker != null ==> ctx.tracker.Length >= ctx.g.TrackerSize())
    modifies lib.flash, ctx`data
    ensures lib.flash.cuts == old(lib.flash.cuts) + if o == PowerCut then 1 else 0
    ensures o in {Done, PowerCut}
    ensures o == Done ==> lib.flash.chip == FormattedChip(ctx.g, old(lib.flash.chip)) && ctx.data == At(ctx.g.area)
    ensures o == Done ==> WholeAreaErased(ctx.g, old(lib.flash.chip), lib.flash.chip)
    ensures SameOutside(old(lib.flash.chip), lib.flash.chip, ctx.g.area, ctx.g.area + ctx.g.areaSize)
    ensures o == Done ==>
              Valid(lib) && Holding(lib, s[i := Content(1, Repeat(ERASED, ctx.g.dataSize), OldTx(ctx, ctx.g))])
    ensures forall a :: a in lib.areas && a != ctx ==> a.Ok() && Same(a.g, old(lib.flash.chip), lib.flash.chip)
  {
    hide Layout.SlotSize, Layout.SlotCount, Layout.SlotBase, Layout.Valid, View, Bystander, Intact, StagingOk, Same,
         SameOutside, WholeWords, Newer, SlotAt, FormattedChip, OwnTrackers, HeldExcept, Layout.TrackerSize,
         StateOk, Area.Ok, WholeAreaErased;
    ghost var c := lib.flash.chip;
    SmallUnit(ctx.g);
    o := FormatArea(ctx);
    FormattedBytes(ctx.g, c);
    FormattedRing(ctx.g, c);
    if ctx.tracker != null {
      FormattedStaging(ctx.g, c, ctx.tracker[..]);
    }
    OthersAfterWrite(lib, ctx, c);
    if o == Done {
      FormatDone(lib, ctx, i, s, c);
    }
  }
}
