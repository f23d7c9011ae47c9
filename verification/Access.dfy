/** The calls that work with or without an open transaction, and on any memory. */
module Access {
  import opened Areas
  import opened Bytes
  import opened Contents
  import opened Flash
  import opened Ftl
  import opened Geometry
  import opened Operations
  import opened Reading
  import opened Registry
  import opened Transactions
  import opened Updates

  // A write in the transaction of ctx, if one is open, has to keep to the units its tracker covers.
  ghost predicate TxReach(ctx: Area, dst: nat, n: nat)
    reads ctx`tracker, ctx`copied
  {
    ctx.copied == 0 && (ctx.tracker != null ==> InTracker(ctx, dst, n))
  }

  // lftl_write
  method Write(lib: Library, ctx: Area, dst: nat, src: Pointer, size: nat, ghost i: nat, ghost s: seq<Content>)
    returns (o: Outcome)
    requires Valid(lib) && Holding(lib, s) && i < |lib.areas| && ctx == lib.areas[i]
    requires SourceOk(lib.areas, ctx, lib.flash.chip.mem, src, size)
    requires TxReach(ctx, dst, WholeUnits(ctx.g, size))
    modifies lib.flash, lib.areas`data, if ctx.tracker == null then {} else {ctx.tracker}
    ensures lib.flash.cuts == old(lib.flash.cuts) + if o == PowerCut then 1 else 0
    ensures size == 0 ==> o == Done && Valid(lib) && Holding(lib, s)
    ensures Confined(ctx.g, SourceLayout(lib.areas, ctx.g, src), old(lib.flash.chip), lib.flash.chip,
                     if size == 0 then OnlyRecords else Within(o, WriteScope(old(ctx.tracker) != null)))
    ensures size == 0 && old(ctx.tracker) != null ==> old(ctx.tracker)[..] == old(ctx.tracker[..])
    ensures size > 0 && old(ctx.tracker) == null && o == Done ==>
              Ready(ctx.g, old(lib.flash.chip)) && NextWorn(ctx.g, old(lib.flash.chip), lib.flash.chip)
    ensures size > 0 && old(ctx.tracker) == null && o != PowerCut ==>
              ctx.g.nvm.writeSize > 0 && o == WriteCheck(lib.areas, ctx.g, false, dst, src, size, false, false)
    ensures size > 0 && old(ctx.tracker) == null ==>
              UpdateResult(lib, i, s,
                  WrittenTo(ctx.g, s[i].data, dst, SourceContent(lib.areas, s, old(lib.flash.chip).mem, src, size)), o)
    ensures size > 0 && old(ctx.tracker) != null ==>
              WriteResult(lib, ctx, old(ctx.tracker[..]), old(lib.flash.chip).mem, dst, src, size, true,
                          WholeUnits(ctx.g, size), i, s, o)
  {
    hide Layout.SlotSize, Layout.Valid, Valid, Holding, SourceOk, Persists, HoldingStaged, TxWriteCheck,
         SourceContent, UpdateResult, WriteResult, InTracker, WholeUnits, WriteCheck, Confined, SourceLayout,
         NextWorn;
    ValidParts(lib);
    ValidChip(lib, ctx);
    NothingConfined(ctx.g, SourceLayout(lib.areas, ctx.g, src), lib.flash.chip, OnlyRecords);
    if size == 0 {
      return Done;
    }
    if ctx.tracker == null {
      o := BasicWrite(lib, ctx, dst, src, size, i, s);
    } else {
      o := TransactionWrite(lib, ctx, dst, src, size, i, s);
    }
  }

  // lftl_write_any
  method WriteAny(lib: Library, ctx: Area, dst: nat, src: Pointer, size: nat, ghost i: nat, ghost s: seq<Content>)
    returns (o: Outcome)
    requires Valid(lib) && Holding(lib, s) && i < |lib.areas| && ctx == lib.areas[i]
    requires SourceOk(lib.areas, ctx, lib.flash.chip.mem, src, size)
    requires TxReach(ctx, dst, ReachedUnits(ctx.g, dst, size))
    modifies lib.flash, lib.areas`data, if ctx.tracker == null then {} else {ctx.tracker}
    ensures lib.flash.cuts == old(lib.flash.cuts) + if o == PowerCut then 1 else 0
    ensures size == 0 ==> o == Done && Valid(lib) && Holding(lib, s)
    ensures Confined(ctx.g, SourceLayout(lib.areas, ctx.g, src), old(lib.flash.chip), lib.flash.chip,
                     if size == 0 then OnlyRecords else Within(o, WriteScope(old(ctx.tracker) != null)))
    ensures size == 0 && old(ctx.tracker) != null ==> old(ctx.tracker)[..] == old(ctx.tracker[..])
    ensures size > 0 && old(ctx.tracker) == null && o == Done ==>
              Ready(ctx.g, old(lib.flash.chip)) && NextWorn(ctx.g, old(lib.flash.chip), lib.flash.chip)
    ensures size > 0 && old(ctx.tracker) == null && o != PowerCut ==>
              ctx.g.nvm.writeSize > 0 && o == WriteCheck(lib.areas, ctx.g, false, dst, src, size, false, false)
    ensures size > 0 && old(ctx.tracker) == null ==>
              UpdateResult(lib, i, s,
                  WrittenTo(ctx.g, s[i].data, dst, SourceContent(lib.areas, s, old(lib.flash.chip).mem, src, size)), o)
    ensures size > 0 && old(ctx.tracker) != null ==>
              WriteResult(lib, ctx, old(ctx.tracker[..]), old(lib.flash.chip).mem, dst, src, size,
                  WholeRange(ctx.g, dst, size),
                          ReachedUnits(ctx.g, dst, size), i, s, o)
  {
    hide Layout.SlotSize, Layout.Valid, Valid, Holding, SourceOk, Persists, HoldingStaged, TxWriteCheck,
         SourceContent, UpdateResult, WriteResult, InTracker, ReachedUnits, WriteCheck, Confined, SourceLayout,
         NextWorn;
    ValidParts(lib);
    ValidChip(lib, ctx);
    NothingConfined(ctx.g, SourceLayout(lib.areas, ctx.g, src), lib.flash.chip, OnlyRecords);
    if size == 0 {
      return Done;
    }
    if ctx.tracker == null {
      o := BasicWrite(lib, ctx, dst, src, size, i, s);
    } else {
      o := TransactionWriteAny(lib, ctx, dst, src, size, i, s);
    }
  }

  predicate WholeRange(g: Layout, dst: nat, size: nat) {
    g.nvm.writeSize > 0 && dst % g.nvm.writeSize == 0 && size % g.nvm.writeSize == 0
  }

  // The data a newer read of an area sees.
  function Visible(x: Content): seq<byte> {
    if x.staged.Newest? then x.staged.data else x.data
  }

  // Reads of the newer data keep to the units of the area while a transaction is open.
  ghost predicate NewerReach(ctx: Area, addr: nat, size: nat)
    reads ctx`tracker, ctx`copied
  {
    && ctx.copied == 0
    && (ctx.tracker != null ==> ctx.g.area <= addr && FirstUnit(ctx.g, addr) + WholeUnits(ctx.g, size) <= ctx.g.Units())
  }

  // lftl_read_newer
  method ReadNewer(lib: Library, ctx: Area, addr: nat, size: nat, ghost i: nat, ghost s: seq<Content>)
    returns (o: Outcome, b: seq<byte>)
    requires Valid(lib) && Holding(lib, s) && i < |lib.areas| && ctx == lib.areas[i]
    requires NewerReach(ctx, addr, size)
    modifies lib.flash, ctx`data
    ensures lib.flash.cuts == old(lib.flash.cuts) + if o == PowerCut then 1 else 0
    ensures Valid(lib) && Holding(lib, s) && (o == PowerCut ==> Persists(lib, s))
    ensures Confined(ctx.g, ctx.g, old(lib.flash.chip), lib.flash.chip, OnlyRecords)
    ensures o != PowerCut ==> o == if size == 0 || ctx.tracker != null then Done else RangeCheck(ctx.g, addr, size)
    ensures i < |s| && (o == Done ==> NewerBytes(ctx.g, s[i], addr, size, b))
  {
    hide Layout.SlotSize, Layout.Units, Layout.Valid, Valid, Holding, Persists, UnitsOf, Held, Confined;
    HeldNow(lib, s);
    HeldData(lib, s, lib.flash.chip, i);
    ValidChip(lib, ctx);
    NothingConfined(ctx.g, ctx.g, lib.flash.chip, OnlyRecords);
    b := [];
    if size == 0 {
      return Done, b;
    }
    if ctx.tracker == null {
      o, b := Read(lib, ctx, addr, size, i, s);
    } else {
      o, b := TransactionRead(lib, ctx, addr, size, i, s);
    }
  }

  // What lftl_read_newer delivers: any stretch of the committed data, or whole units of the newer data.
  ghost predicate NewerBytes(g: Layout, x: Content, addr: nat, size: nat, b: seq<byte>) {
    if size == 0 then b == []
    else if x.staged.Newest? then b == UnitsOf(g, x.staged.data, addr, size)
    else g.area <= addr && addr - g.area + size <= |x.data| && b == x.data[addr - g.area..addr - g.area + size]
  }

  // On whole units lftl_read_newer delivers just the bytes asked for, transaction or not.
  lemma NewerWholeUnits(g: Layout, x: Content, addr: nat, size: nat, b: seq<byte>)
    requires g.Valid() && |Visible(x)| == g.dataSize && WholeRange(g, addr, size)
    requires g.area <= addr && addr - g.area + size <= g.dataSize
    ensures NewerBytes(g, x, addr, size, b) <==> b == Visible(x)[addr - g.area..addr - g.area + size]
  {
    hide Layout.SlotSize, UnitsOf;
    WholeUnitRead(g, Visible(x), addr, size);
  }

  lemma PlainSource(areas: seq<Area>, s: seq<Content>, m: seq<byte>, src: Pointer, size: nat)
    requires src.Readable(m, size) && (src.Nvm? ==> Owner(areas, src.addr) < 0)
    ensures SourceContent(areas, s, m, src, size) == src.Read(m, size) && SourceCheck(areas, src, size) == Done
  {
  }

  lemma OwnedSource(areas: seq<Area>, s: seq<Content>, m: seq<byte>, src: Pointer, size: nat, i: nat, off: nat)
    requires src.Nvm? && i < |areas| && i == Owner(areas, src.addr) && areas[i].g.area + off == src.addr
    requires i < |s| && off + size <= |s[i].data|
    ensures SourceContent(areas, s, m, src, size) == s[i].data[off..off + size]
  {
  }

  ghost predicate Owned(areas: seq<Area>, src: Pointer) {
    src.Nvm? && Owner(areas, src.addr) >= 0
  }

  // A read changes at most the record of the current slot of the area src lies in.
  ghost predicate ReadConfined(areas: seq<Area>, src: Pointer, c: Chip, d: Chip) {
    if Owned(areas, src) then
      var g := areas[Owner(areas, src.addr)].g;
      Confined(g, g, c, d, OnlyRecords)
    else d == c
  }

  // lftl_memread: whatever src points to, the bytes it stands for.
  method MemRead(lib: Library, src: Pointer, size: nat, ghost s: seq<Content>) returns (o: Outcome, b: seq<byte>)
    requires Valid(lib) && Holding(lib, s) && lib.areas != [] && src.Readable(lib.flash.chip.mem, size)
    modifies lib.flash, lib.areas`data
    ensures lib.flash.cuts == old(lib.flash.cuts) + if o == PowerCut then 1 else 0
    ensures Valid(lib) && Holding(lib, s) && (o == PowerCut ==> Persists(lib, s))
    ensures ReadConfined(lib.areas, src, old(lib.flash.chip), lib.flash.chip)
    ensures o != PowerCut ==> o == if size == 0 then Done else SourceCheck(lib.areas, src, size)
    ensures o == Done ==> b == if size == 0 then [] else SourceContent(lib.areas, s, old(lib.flash.chip).mem, src, size)
  {
    hide Layout.SlotSize, Layout.Valid, Valid, Holding, Held, Persists, Library.Linked, SourceContent,
         Pointer.Readable, Pointer.Read, Owner, RangeCheck, Confined;
    ValidParts(lib);
    ghost var m := lib.flash.chip.mem;
    HeldNow(lib, s);
    HeldSize(lib, s, lib.flash.chip);
    var owner := lib.IsInAnyNvm(src);
    if owner != null && owner.IsInData(src.addr) {
      ghost var i := Owner(lib.areas, src.addr);
      o, b := Read(lib, owner, src.addr, size, i, s);
      if o == Done && size > 0 {
        OwnedSource(lib.areas, s, m, src, size, i, src.addr - owner.g.area);
      }
    } else {
      PlainSource(lib.areas, s, m, src, size);
      b := ReadPlain(owner, src, size, lib.flash);
      o := Done;
    }
  }

  // Memory outside every area: through the NVM's own read callback if it lies in an NVM.
  method ReadPlain(owner: Area?, src: Pointer, size: nat, flash: Device) returns (b: seq<byte>)
    requires src.Readable(flash.chip.mem, size)
    requires owner != null ==> owner.flash == flash && src.Nvm?
    ensures b == src.Read(flash.chip.mem, size)
  {
    if owner == null {
      b := src.Read(flash.chip.mem, size);
    } else {
      b := owner.NvmRead(src.addr, size);
    }
  }

  // The area src lies in has a transaction open.
  ghost predicate OpenOwner(areas: seq<Area>, src: Pointer)
    reads areas`tracker
  {
    Owned(areas, src) && areas[Owner(areas, src.addr)].tracker != null
  }

  ghost predicate OwnerReach(areas: seq<Area>, src: Pointer, size: nat)
    reads areas`tracker, areas`copied
  {
    Owned(areas, src) ==> NewerReach(areas[Owner(areas, src.addr)], src.addr, size)
  }

  // What lftl_memread_newer delivers, when the memory was m.
  ghost predicate NewestBytes(areas: seq<Area>, s: seq<Content>, m: seq<byte>, src: Pointer, size: nat, b: seq<byte>) {
    if Owned(areas, src) then
      var i := Owner(areas, src.addr);
      i < |s| && NewerBytes(areas[i].g, s[i], src.addr, size, b)
    else src.Readable(m, size) && b == src.Read(m, size)
  }

  // lftl_memread_newer: as lftl_memread, but from the open transaction of the area, if there is one.
  method MemReadNewer(lib: Library, src: Pointer, size: nat, ghost s: seq<Content>) returns (o: Outcome, b: seq<byte>)
    requires Valid(lib) && Holding(lib, s) && lib.areas != [] && src.Readable(lib.flash.chip.mem, size)
    requires OwnerReach(lib.areas, src, size)
    modifies lib.flash, lib.areas`data
    ensures lib.flash.cuts == old(lib.flash.cuts) + if o == PowerCut then 1 else 0
    ensures Valid(lib) && Holding(lib, s) && (o == PowerCut ==> Persists(lib, s))
    ensures ReadConfined(lib.areas, src, old(lib.flash.chip), lib.flash.chip)
    ensures o != PowerCut ==>
              o == if size == 0 || OpenOwner(lib.areas, src) then Done else SourceCheck(lib.areas, src, size)
    ensures o == Done ==> NewestBytes(lib.areas, s, old(lib.flash.chip).mem, src, size, b)
  {
    hide Layout.SlotSize, Layout.Valid, Valid, Holding, Held, Persists, Library.Linked, Pointer.Readable,
         Pointer.Read, Owner, RangeCheck, NewerBytes, Confined;
    ValidParts(lib);
    ghost var m := lib.flash.chip.mem;
    HeldNow(lib, s);
    HeldSize(lib, s, lib.flash.chip);
    var owner := lib.IsInAnyNvm(src);
    if owner != null && owner.IsInData(src.addr) {
      o, b := ReadNewer(lib, owner, src.addr, size, Owner(lib.areas, src.addr), s);
    } else {
      b := ReadPlain(owner, src, size, lib.flash);
      o := Done;
    }
  }
}
