/** The public calls outside transactions. */
module Operations {
  import opened Areas
  import Arithmetic
  import opened Bytes
  import opened Contents
  import opened Flash
  import opened Ftl
  import opened Geometry
  import opened Registry
  import opened Ring
  import opened Slots
  import opened Tearing
  import opened Updates
  import Writing

  lemma HeldNow(lib: Library, s: seq<Content>)
    requires Holding(lib, s)
    ensures Held(lib, s, lib.flash.chip)
  {
  }

  // An area one update on.
  ghost function OneUpdateOn(x: Content, data: seq<byte>): Content {
    Content(x.version + 1, data, NoTransaction)
  }

  lemma OkOf(x: Area)
    requires x.g.Valid() && WholeWords(x.g, x.flash.whole) && StateOk(x.g, x.flash.chip, x.data, x.Tx())
    ensures x.Ok()
  {
  }

  // Area x was updated to data on the way from mid; the others were left alone.
  lemma AfterUpdate(lib: Library, x: Area, i: nat, s: seq<Content>, c: Chip, mid: Chip, data: seq<byte>)
    requires Around(lib, x, c, mid) && HeldExcept(lib, s, c, i) && i < |lib.areas| && x == lib.areas[i]
    requires x.tracker == null
    requires Ready(x.g, mid) && UpdatedTo(x.g, mid, lib.flash.chip, data) && |data| == x.g.dataSize
    requires x.data == At(x.g.SlotBase(Next(View(x.g, mid.mem))))
    requires s[i].version == Version(View(x.g, mid.mem)) && s[i].version + 1 < ERASED_WORD
    ensures Valid(lib) && Holding(lib, s[i := OneUpdateOn(s[i], data)])
  {
    hide Layout.SlotSize, Layout.SlotCount, Layout.SlotBase, View, Same, SameOutside, Bystander, Intact, UpdatedTo,
         StagingOk, Area.Ok, Layout.Valid, WholeWords;
    assert x in lib.areas;
    var d := lib.flash.chip;
    UpdatedIsReady(x.g, mid, d, data);
    assert x.flash == lib.flash;
    OkOf(x);
    AllTrans(lib, x, c, mid, i);
    HoldingAfter(lib, s, i, c);
  }

  // An update of area x to data was cut short on the way from mid.
  lemma AfterCut(lib: Library, x: Area, i: nat, s: seq<Content>, c: Chip, mid: Chip, data: seq<byte>)
    requires Around(lib, x, c, mid) && HeldExcept(lib, s, c, i) && i < |lib.areas| && x == lib.areas[i]
    requires Ready(x.g, mid) && UpdateCut(x.g, mid, lib.flash.chip, data) && |data| == x.g.dataSize
    requires s[i].version == Version(View(x.g, mid.mem)) && s[i].data == Committed(View(x.g, mid.mem))
    requires s[i].version < MAX_VERSION
    ensures Persists(lib, s) || Persists(lib, s[i := OneUpdateOn(s[i], data)])
  {
    hide Layout.SlotSize, Layout.SlotCount, Layout.SlotBase, View, Same, SameOutside, Bystander, Intact, UpdateCut,
         StagingOk, Area.Ok, Layout.Valid, WholeWords, Persists;
    assert x in lib.areas;
    CutIsReady(x.g, mid, lib.flash.chip, data);
    PersistsOthers(lib, s, x, i, c, mid);
    PersistsAlike(lib, s, i);
  }

  // What a call that updates area i to data leaves behind: an error changes nothing; a completed call
  // changes area i to the new data and no other area; a power cut leaves the old data or the new data.
  // The versions have to stay clear of the erased word, and of those whose record a power cut could
  // forge.
  ghost predicate UpdateResult(lib: Library, i: nat, s: seq<Content>, data: seq<byte>, o: Outcome)
    reads lib, lib.areas, lib.flash, set a | a in lib.areas :: a.tracker
  {
    && i < |s|
    && (o.Raised? ==> Valid(lib) && Holding(lib, s))
    && (o == Done && s[i].version + 1 < ERASED_WORD ==>
          Valid(lib) && Holding(lib, s[i := OneUpdateOn(s[i], data)]))
    && (o == PowerCut && s[i].version < MAX_VERSION ==>
          Persists(lib, s) || Persists(lib, s[i := OneUpdateOn(s[i], data)]))
  }

  // Only version and data survive.
  lemma PersistsAlike(lib: Library, s: seq<Content>, i: nat)
    requires i < |s|
    ensures Persists(lib, s[i := s[i].(staged := NoTransaction)]) ==> Persists(lib, s)
  {
    var t := s[i := s[i].(staged := NoTransaction)];
    assert forall j :: 0 <= j < |s| ==> t[j].(staged := NoTransaction) == s[j].(staged := NoTransaction);
  }

  // What a call that ends in write_core leaves behind.
  lemma AfterWriteCore(lib: Library, x: Area, i: nat, s: seq<Content>, c: Chip, mid: Chip, dst: nat, src: Pointer,
                       size: nat, o: Outcome)
    requires Around(lib, x, c, mid) && Held(lib, s, c) && i < |lib.areas| && x == lib.areas[i]
    requires o.Raised? ==> lib.flash.chip == mid
    requires o == Done ==> x.tracker == null
    requires || o.Raised?
             || (o == PowerCut && lib.flash.chip == mid)
             || WriteOutcome(lib, x, c, mid, dst, src, size, false, o)
    ensures o.Raised? ==> Holding(lib, s)
    ensures var data := WrittenTo(x.g, s[i].data, dst, SourceContent(lib.areas, s, c.mem, src, size));
            && (o == Done && s[i].version + 1 < ERASED_WORD ==>
                  Valid(lib) && Holding(lib, s[i := OneUpdateOn(s[i], data)]))
            && (o == PowerCut && s[i].version < MAX_VERSION ==>
                Persists(lib, s) || Persists(lib, s[i := OneUpdateOn(s[i], data)]))
    ensures o == Done ==> x.data.At? && Ready(x.g, c) && NextWorn(x.g, c, lib.flash.chip)
  {
    hide Layout.SlotSize, Layout.SlotCount, Layout.SlotBase, Layout.Valid, View, Same, SameOutside, Bystander,
         Intact, UpdateCut, StagingOk, Area.Ok, UpdatedTo, Image, WrittenTo, SourceContent, SourceOk, WriteCheck,
         Around, Held, Holding, Persists, Valid, NextWorn, WornOnce;
    if o.Raised? || (o == PowerCut && lib.flash.chip == mid) {
      HoldingSame(lib, s, x, i, c);
    } else {
      OutcomeParts(lib, x, c, mid, dst, src, size, o);
      AroundSame(lib, x, c, mid);
      SameHeld(lib, s, c, mid, i);
      ImageIsWritten(lib, s, c, i, dst, src, size);
      var image := Image(lib.areas, x.g, c, dst, src, size);
      if o == Done {
        OnceIsNextWorn(x.g, c, mid, lib.flash.chip);
        if s[i].version + 1 < ERASED_WORD {
          AfterUpdate(lib, x, i, s, c, mid, image);
        }
      }
      if o == PowerCut && s[i].version < MAX_VERSION {
        AfterCut(lib, x, i, s, c, mid, image);
      }
    }
  }

  lemma AroundSame(lib: Library, x: Area, c: Chip, mid: Chip)
    requires Around(lib, x, c, mid) && x in lib.areas
    ensures Same(x.g, c, mid)
  {
    hide Same;
  }

  lemma SameHeld(lib: Library, s: seq<Content>, c: Chip, mid: Chip, i: nat)
    requires Held(lib, s, c) && i < |lib.areas| && Same(lib.areas[i].g, c, mid)
    ensures |s| == |lib.areas| && HeldExcept(lib, s, c, i)
    ensures Ready(lib.areas[i].g, mid)
    ensures s[i].version == Version(View(lib.areas[i].g, mid.mem))
    ensures s[i].data == Committed(View(lib.areas[i].g, mid.mem))
  {
    hide Same, StagingOk, RingAt, View;
    SameParts(lib.areas[i].g, c, mid);
  }

  lemma HeldSize(lib: Library, s: seq<Content>, c: Chip)
    requires Held(lib, s, c)
    ensures |s| == |lib.areas|
  {
  }

  lemma OutcomeParts(lib: Library, ctx: Area, c: Chip, mid: Chip, dst: nat, src: Pointer, size: nat, o: Outcome)
    requires WriteOutcome(lib, ctx, c, mid, dst, src, size, false, o)
    ensures Writable(lib.areas, ctx.g, c, dst, src, size) && Ready(ctx.g, mid)
    ensures var image := Image(lib.areas, ctx.g, c, dst, src, size);
            && |image| == ctx.g.dataSize
            && (o == Done ==> UpdatedTo(ctx.g, mid, lib.flash.chip, image)
                              && ctx.data == At(ctx.g.SlotBase(Next(View(ctx.g, mid.mem)))))
            && (o == PowerCut ==> UpdateCut(ctx.g, mid, lib.flash.chip, image))
    ensures o == Done ==> var n := Next(View(ctx.g, mid.mem));
                          WornOnce(mid, lib.flash.chip, ctx.g.SlotBase(n), ctx.g.SlotBase(n) + ctx.g.SlotSize())
  {
  }

  // lftl_basic_write: the area takes one update, to its old data with the bytes of the source written at
  // dst; what the source stands for is its content before the call, also when it lies in the same area
  // and overlaps the destination. A power cut leaves the old data or the new data. No other area changes.
  method BasicWrite(lib: Library, ctx: Area, dst: nat, src: Pointer, size: nat, ghost i: nat, ghost s: seq<Content>)
    returns (o: Outcome)
    requires Valid(lib) && Holding(lib, s) && i < |lib.areas| && ctx == lib.areas[i]
    requires SourceOk(lib.areas, ctx, lib.flash.chip.mem, src, size)
    modifies lib.flash, lib.areas`data
    ensures lib.flash.cuts == old(lib.flash.cuts) + if o == PowerCut then 1 else 0
    ensures o != PowerCut ==>
              o == if size == 0 then Done
                   else WriteCheck(lib.areas, ctx.g, ctx.tracker != null, dst, src, size, false, false)
    ensures size == 0 ==> Valid(lib) && Holding(lib, s)
    ensures var b := SourceContent(lib.areas, s, old(lib.flash.chip).mem, src, size);
            size > 0 ==> UpdateResult(lib, i, s, WrittenTo(ctx.g, s[i].data, dst, b), o)
    ensures Confined(ctx.g, SourceLayout(lib.areas, ctx.g, src), old(lib.flash.chip), lib.flash.chip,
                     Within(o, NextSlot))
    ensures size > 0 && o == Done ==>
              ctx.data.At? && Ready(ctx.g, old(lib.flash.chip)) && NextWorn(ctx.g, old(lib.flash.chip), lib.flash.chip)
  {
    hide Layout.SlotSize, Layout.SlotCount, Layout.SlotBase, Layout.Valid, View, Same, SameOutside, Bystander,
         Intact, UpdateCut, StagingOk, Area.Ok, UpdatedTo, Image, WrittenTo, SourceContent, SourceOk, Around, Held,
         Holding, Persists, Valid, WriteOutcome, NextWorn, Confined, SourceLayout;
    ghost var c := lib.flash.chip;
    ValidChip(lib, ctx);
    NothingConfined(ctx.g, SourceLayout(lib.areas, ctx.g, src), c, NextSlot);
    if size == 0 {
      return Done;
    }
    HeldNow(lib, s);
    ValidParts(lib);
    ReadyIn(lib, ctx);
    ghost var mid;
    o, mid := WriteCore(lib, ctx, dst, src, size, false, false);
    AfterWriteCore(lib, ctx, i, s, c, mid, dst, src, size, o);
  }

  // ---------------------------------------------------------------- erase

  // The errors erase can end with, in the order in which it looks for them.
  function EraseCheck(g: Layout, open: bool, dst: nat, size: nat): Outcome
    requires g.nvm.writeSize > 0
  {
    if dst % g.nvm.writeSize != 0 then Raised(ERROR_BASE_MISALIGNED)
    else if size % g.nvm.writeSize != 0 then Raised(ERROR_SIZE_MISALIGNED)
    else if RangeCheck(g, dst, size) != Done then RangeCheck(g, dst, size)
    else if open then Raised(ERROR_TRANSACTION_ONGOING)
    else Done
  }

  lemma EraseCodes(g: Layout, open: bool, dst: nat, size: nat)
    requires g.nvm.writeSize > 0
    ensures var o, w := EraseCheck(g, open, dst, size), g.nvm.writeSize;
            if dst % w != 0 then o == Raised(0x05)
            else if size % w != 0 then o == Raised(0x06)
            else if dst < g.area || g.area + g.dataSize < dst then o == Raised(0x03)
            else if g.area + g.dataSize < dst + size then o == Raised(0x04)
            else if open then o == Raised(0x07)
            else o == Done
  {
  }

  lemma UpdateStaysInside(g: Layout, mid: Chip, d: Chip, data: seq<byte>)
    requires Ready(g, mid) && (UpdatedTo(g, mid, d, data) || UpdateCut(g, mid, d, data))
    ensures SameOutside(mid, d, g.area, g.area + g.areaSize)
    ensures var n := Next(View(g, mid.mem)); SameOutside(mid, d, g.SlotBase(n), g.SlotBase(n) + g.SlotSize())
  {
    hide Layout.SlotSize, Layout.SlotCount, Layout.SlotBase, View, SlotAt, SameOutside, Bystander, Intact, WornOnce,
         Checksum, Updated, Interrupted, Layout.Valid;
    InsideSlotIsInsideArea(g, mid, d, Next(View(g, mid.mem)));
  }

  // The part of erase after its checks.
  method EraseNow(lib: Library, ctx: Area, offset: nat, size: nat, ghost c: Chip)
    returns (ok: bool, ghost image: seq<byte>)
    requires Valid(lib) && ctx in lib.areas && ctx.data.At? && Ready(ctx.g, c)
    requires forall a :: a in lib.areas ==> Same(a.g, c, lib.flash.chip)
    requires ctx.g.nvm.writeSize > 0
    requires offset % ctx.g.nvm.writeSize == 0 && size % ctx.g.nvm.writeSize == 0 && offset + size <= ctx.g.dataSize
    modifies lib.flash, ctx`data
    ensures lib.flash.cuts == old(lib.flash.cuts) + if ok then 0 else 1
    ensures |image| == ctx.g.dataSize == |Committed(View(ctx.g, c.mem))|
    ensures image == Splice(Committed(View(ctx.g, c.mem)), offset, Repeat(ERASED, size))
    ensures Around(lib, ctx, c, old(lib.flash.chip))
    ensures Ready(ctx.g, old(lib.flash.chip))
    ensures ok ==> UpdatedTo(ctx.g, old(lib.flash.chip), lib.flash.chip, image)
                   && ctx.data == At(ctx.g.SlotBase(Next(View(ctx.g, old(lib.flash.chip).mem))))
    ensures !ok ==> UpdateCut(ctx.g, old(lib.flash.chip), lib.flash.chip, image)
    ensures ok ==> NextWorn(ctx.g, c, lib.flash.chip)
    ensures Confined(ctx.g, ctx.g, old(lib.flash.chip), lib.flash.chip, NextSlot)
  {
    hide Layout.SlotSize, Layout.SlotCount, Layout.SlotBase, Layout.Valid, View, Same, SameOutside, Bystander,
         Intact, UpdateCut, StagingOk, UpdatedTo, Around, Valid, WholeWords, OwnTrackers, Library.Linked, Splice,
         NextWorn, WornOnce, Confined;
    ghost var mid := lib.flash.chip;
    ValidParts(lib);
    ReadyIn(lib, ctx);
    StatesOf(lib);
    var cur := ctx.CurrentSlotIndex();
    var index := ctx.NextSlotIndex();
    ViewAt(ctx.g, mid.mem, cur);
    SameParts(ctx.g, c, mid);
    CommittedLength(ctx.g, c);
    image := Splice(Committed(View(ctx.g, c.mem)), offset, Repeat(ERASED, size));
    ok := Writing.BuildErase(ctx, index, cur, offset, size, image);
    if ok {
      OnceIsNextWorn(ctx.g, c, mid, lib.flash.chip);
    }
    UpdateStaysInside(ctx.g, mid, lib.flash.chip, image);
    NextConfined(ctx.g, ctx.g, mid, lib.flash.chip);
    OthersAfterWrite(lib, ctx, mid);
    MakeAround(lib, ctx, c, mid);
  }

  // The current slot is known while a transaction is open.
  lemma OpenIsResolved(lib: Library, ctx: Area)
    requires Valid(lib) && ctx in lib.areas && ctx.tracker != null
    ensures ctx.data.At?
  {
    hide Layout.Valid, View, RingAt, Library.Linked;
    assert ctx.Ok();
  }

  // erase: an update of the range to erased bytes.
  method Erase(lib: Library, ctx: Area, dst: nat, size: nat, ghost i: nat, ghost s: seq<Content>) returns (o: Outcome)
    requires Valid(lib) && Holding(lib, s) && i < |lib.areas| && ctx == lib.areas[i]
    modifies lib.flash, lib.areas`data
    ensures lib.flash.cuts == old(lib.flash.cuts) + if o == PowerCut then 1 else 0
    ensures ctx.g.nvm.writeSize > 0 && (o != PowerCut ==> o == EraseCheck(ctx.g, ctx.tracker != null, dst, size))
    ensures ctx.tracker != null ==> o.Raised?
    ensures UpdateResult(lib, i, s, WrittenTo(ctx.g, s[i].data, dst, Repeat(ERASED, size)), o)
    ensures Confined(ctx.g, ctx.g, old(lib.flash.chip), lib.flash.chip, Within(o, NextSlot))
    ensures o == Done ==>
              ctx.data.At? && Ready(ctx.g, old(lib.flash.chip)) && NextWorn(ctx.g, old(lib.flash.chip), lib.flash.chip)
  {
    hide Layout.SlotSize, Layout.SlotCount, Layout.SlotBase, Layout.Valid, View, Same, SameOutside, Bystander,
         Intact, UpdateCut, StagingOk, Area.Ok, UpdatedTo, WrittenTo, Around, Held, Holding, Persists, Valid,
         NextWorn, Confined, Current, Library.Linked, OwnTrackers;
    ghost var c := lib.flash.chip;
    if ctx.tracker != null {
      OpenIsResolved(lib, ctx);
    }
    HeldNow(lib, s);
    HeldSize(lib, s, c);
    ValidParts(lib);
    ReadyIn(lib, ctx);
    AllSame(lib);
    NothingElse(lib, ctx, c, c);
    ValidChip(lib, ctx);
    NothingConfined(ctx.g, ctx.g, c, OnlyRecords);
    var writeSize := ctx.g.nvm.writeSize;
    if dst % writeSize != 0 {
      return Raised(ERROR_BASE_MISALIGNED);
    }
    if size % writeSize != 0 {
      return Raised(ERROR_SIZE_MISALIGNED);
    }
    var phys;
    o, phys := Translate(lib, ctx, dst, size);
    NothingElse(lib, ctx, c, lib.flash.chip);
    HoldingSame(lib, s, ctx, i, c);
    if o != Done {
      ConfinedWider(ctx.g, ctx.g, c, lib.flash.chip);
      return;
    }
    var offset := phys - ctx.data.addr;
    if ctx.tracker != null {
      return Raised(ERROR_TRANSACTION_ONGOING);
    }
    OffsetAligned(ctx.g, dst, offset);
    ghost var mid := lib.flash.chip;
    var ok;
    ghost var image;
    ok, image := EraseNow(lib, ctx, offset, size, c);
    SameIsSameCurrent(ctx.g, c, mid);
    ConfinedTrans(ctx.g, ctx.g, c, mid, lib.flash.chip, OnlyRecords, NextSlot);
    o := if ok then Done else PowerCut;
    HeldData(lib, s, c, i);
    AroundSame(lib, ctx, c, mid);
    SameHeld(lib, s, c, mid, i);
    assert image == WrittenTo(ctx.g, s[i].data, dst, Repeat(ERASED, size)) by {
      ErasedImage(ctx.g, s[i].data, dst, size);
    }
    if o == Done && s[i].version + 1 < ERASED_WORD {
      AfterUpdate(lib, ctx, i, s, c, mid, image);
    }
    if o == PowerCut && s[i].version < MAX_VERSION {
      AfterCut(lib, ctx, i, s, c, mid, image);
    }
  }

  lemma ErasedImage(g: Layout, data: seq<byte>, dst: nat, size: nat)
    requires g.area <= dst && dst - g.area + size <= |data|
    ensures WrittenTo(g, data, dst, Repeat(ERASED, size)) == Splice(data, dst - g.area, Repeat(ERASED, size))
  {
  }

  lemma HeldData(lib: Library, s: seq<Content>, c: Chip, i: nat)
    requires Held(lib, s, c) && i < |lib.areas|
    ensures |s| == |lib.areas| && Ready(lib.areas[i].g, c)
    ensures s[i].data == Committed(View(lib.areas[i].g, c.mem)) && |s[i].data| == lib.areas[i].g.dataSize
    ensures s[i].version == Version(View(lib.areas[i].g, c.mem))
    ensures s[i].staged.NoTransaction? <==> lib.areas[i].tracker == null
  {
    hide RingAt, View, StagingOk;
    CommittedLength(lib.areas[i].g, c);
  }

  lemma OffsetAligned(g: Layout, dst: nat, offset: nat)
    requires g.Valid() && dst % g.nvm.writeSize == 0 && g.area <= dst && offset == dst - g.area
    ensures offset % g.nvm.writeSize == 0
  {
    Arithmetic.ModAdd(g.area, offset, g.nvm.writeSize);
  }

  // lftl_erase_all: the whole data reads as erased afterwards.
  method EraseAll(lib: Library, ctx: Area, ghost i: nat, ghost s: seq<Content>) returns (o: Outcome)
    requires Valid(lib) && Holding(lib, s) && i < |lib.areas| && ctx == lib.areas[i]
    modifies lib.flash, lib.areas`data
    ensures lib.flash.cuts == old(lib.flash.cuts) + if o == PowerCut then 1 else 0
    ensures o != PowerCut ==> o == if ctx.tracker != null then Raised(ERROR_TRANSACTION_ONGOING) else Done
    ensures ctx.tracker != null ==> o.Raised?
    ensures UpdateResult(lib, i, s, Repeat(ERASED, ctx.g.dataSize), o)
    ensures Confined(ctx.g, ctx.g, old(lib.flash.chip), lib.flash.chip, Within(o, NextSlot))
    ensures o == Done ==>
              ctx.data.At? && Ready(ctx.g, old(lib.flash.chip)) && NextWorn(ctx.g, old(lib.flash.chip), lib.flash.chip)
  {
    hide Layout.SlotSize, Valid, Holding, Held, Persists, NextWorn, Confined;
    HeldNow(lib, s);
    HeldData(lib, s, lib.flash.chip, i);
    ValidParts(lib);
    ErasedImage(ctx.g, s[i].data, ctx.g.area, ctx.g.dataSize);
    SpliceAll(s[i].data, Repeat(ERASED, ctx.g.dataSize));
    o := Erase(lib, ctx, ctx.g.area, ctx.g.dataSize, i, s);
  }

  // ---------------------------------------------------------------- reading

  // lftl_read: the committed data, also while a transaction is open.
  method Read(lib: Library, ctx: Area, addr: nat, size: nat, ghost i: nat, ghost s: seq<Content>)
    returns (o: Outcome, b: seq<byte>)
    requires Valid(lib) && Holding(lib, s) && i < |lib.areas| && ctx == lib.areas[i]
    modifies lib.flash, ctx`data
    ensures lib.flash.cuts == old(lib.flash.cuts) + if o == PowerCut then 1 else 0
    ensures Valid(lib) && Holding(lib, s) && Persists(lib, s)
    ensures Confined(ctx.g, ctx.g, old(lib.flash.chip), lib.flash.chip, OnlyRecords)
    ensures o != PowerCut ==> o == if size == 0 then Done else RangeCheck(ctx.g, addr, size)
    ensures old(ctx.data).At? ==> o != PowerCut && ctx.data == old(ctx.data) && lib.flash.chip == old(lib.flash.chip)
    ensures o == Done ==> |b| == size
    ensures o == Done && size > 0 ==> ctx.data.At?
    ensures o == Done && size > 0 ==>
              ctx.g.area <= addr && addr - ctx.g.area + size <= |s[i].data|
              && b == s[i].data[addr - ctx.g.area..addr - ctx.g.area + size]
  {
    hide Layout.SlotSize, Layout.SlotCount, Layout.SlotBase, Layout.Valid, View, Same, SameOutside, RingAt,
         StagingOk, Around, Held, Holding, Persists, Valid, Confined, Current, Library.Linked, OwnTrackers,
         WholeWords, Committed, Layout.ItemSize;
    ghost var c := lib.flash.chip;
    HeldNow(lib, s);
    AllSame(lib);
    NothingElse(lib, ctx, c, c);
    HoldingSame(lib, s, ctx, i, c);
    ValidChip(lib, ctx);
    NothingConfined(ctx.g, ctx.g, c, OnlyRecords);
    b := [];
    if size == 0 {
      return Done, b;
    }
    var phys;
    o, phys := Translate(lib, ctx, addr, size);
    NothingElse(lib, ctx, c, lib.flash.chip);
    HoldingSame(lib, s, ctx, i, c);
    if o == Done {
      HeldData(lib, s, c, i);
      ValidParts(lib);
      ReadyIn(lib, ctx);
      SameParts(ctx.g, c, lib.flash.chip);
      CurrentRead(ctx.g, lib.flash.chip, addr - ctx.g.area, size);
      b := ctx.NvmRead(phys, size);
    }
  }
}
