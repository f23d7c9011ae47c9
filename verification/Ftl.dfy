/** The registered areas taken together, and write_core. */
module Ftl {
  import opened Areas
  import opened Arithmetic
  import opened Bytes
  import opened Flash
  import opened Geometry
  import opened Registry
  import opened Ring
  import opened Slots
  import opened Tearing
  import opened Updates
  import opened Writing

  // Every registered area is in order, and no two transactions share a tracker.
  ghost predicate Valid(lib: Library)
    reads lib, lib.areas, lib.flash, set a | a in lib.areas :: a.tracker
  {
    && lib.Linked()
    && (forall a :: a in lib.areas ==> a.Ok())
    && OwnTrackers(lib)
  }

  ghost predicate OwnTrackers(lib: Library)
    reads lib, lib.areas`tracker
  {
    forall a, b :: a in lib.areas && b in lib.areas && a != b && a.tracker != null ==> a.tracker != b.tracker
  }

  // Up to mid slots were searched for, from mid on only area x changed.
  ghost predicate Around(lib: Library, x: Area, c: Chip, mid: Chip)
    reads lib, lib.areas, lib.flash, set a | a in lib.areas :: a.tracker
  {
    && lib.Linked() && OwnTrackers(lib)
    && (forall a :: a in lib.areas ==> WholeWords(a.g, lib.flash.whole) && Same(a.g, c, mid))
    && (forall a :: a in lib.areas && a != x ==> a.Ok() && Same(a.g, mid, lib.flash.chip))
  }

  // What translate_addr makes of a source that lies in the data of some area.
  ghost function SourceCheck(areas: seq<Area>, src: Pointer, size: nat): Outcome {
    if src.Nvm? && Owner(areas, src.addr) >= 0 then RangeCheck(areas[Owner(areas, src.addr)].g, src.addr, size)
    else Done
  }

  // The area a source lies in, or g.
  ghost function SourceLayout(areas: seq<Area>, g: Layout, src: Pointer): Layout {
    if src.Nvm? && Owner(areas, src.addr) >= 0 then areas[Owner(areas, src.addr)].g else g
  }

  lemma RamLayout(areas: seq<Area>, g: Layout, buf: seq<byte>)
    ensures SourceLayout(areas, g, Ram(buf, 0)) == g
  {
  }

  // The bytes a source stands for: committed data if it lies in an area, plain memory otherwise.
  ghost function SourceBytes(areas: seq<Area>, m: seq<byte>, src: Pointer, size: nat): (b: seq<byte>)
    requires src.Readable(m, size) && SourceCheck(areas, src, size) == Done
    requires src.Nvm? && Owner(areas, src.addr) >= 0 ==>
               var g := areas[Owner(areas, src.addr)].g; Fits(g, m) && Current(View(g, m)) >= 0
    ensures |b| == size
  {
    if src.Nvm? && Owner(areas, src.addr) >= 0 then
      var g := areas[Owner(areas, src.addr)].g;
      ViewAt(g, m, Current(View(g, m)));
      Committed(View(g, m))[src.addr - g.area..src.addr - g.area + size]
    else src.Read(m, size)
  }

  // The size bytes at p lie neither in the next slot of the area nor in the record of the current one.
  ghost predicate ClearOf(g: Layout, m: seq<byte>, p: Pointer, size: nat) {
    && Fits(g, m) && Current(View(g, m)) >= 0
    && var n, i := Next(View(g, m)), Current(View(g, m));
       && MetaBase(g, i) >= 0
       && p.Avoids(g.SlotBase(n), g.SlotBase(n) + g.SlotSize(), size)
       && p.Avoids(MetaBase(g, i), g.SlotBase(i) + g.SlotSize(), size)
  }

  // A source outside all data ranges must keep clear of what the call itself changes in the area written to.
  ghost predicate SourceOk(areas: seq<Area>, ctx: Area, m: seq<byte>, src: Pointer, size: nat) {
    && src.Readable(m, size)
    && (src.Nvm? && Owner(areas, src.addr) < 0 ==> ClearOf(ctx.g, m, src, size))
  }

  lemma SlotAvoided(g: Layout, n: nat, p: Pointer, size: nat)
    requires g.Valid() && n < g.SlotCount() && p.Avoids(g.area, g.area + g.areaSize, size)
    ensures p.Avoids(g.SlotBase(n), g.SlotBase(n) + g.SlotSize(), size)
  {
    hide Layout.SlotSize, Layout.SlotCount, Layout.SlotBase;
    SlotPlace(g, n);
  }

  // Memory outside the area is clear of both.
  lemma OutsideIsClear(g: Layout, c: Chip, p: Pointer, size: nat)
    requires Ready(g, c) && p.Avoids(g.area, g.area + g.areaSize, size)
    ensures ClearOf(g, c.mem, p, size)
  {
    hide Layout.SlotSize, Layout.SlotCount, Layout.SlotBase, Layout.Valid, View, Bystander, Intact;
    SlotPlace(g, Next(View(g, c.mem)));
    SlotPlace(g, Current(View(g, c.mem)));
  }

  lemma StaysClear(g: Layout, c: Chip, d: Chip, p: Pointer, size: nat)
    requires Same(g, c, d) && ClearOf(g, c.mem, p, size)
    ensures ClearOf(g, d.mem, p, size)
  {
    hide Layout.SlotSize, Layout.SlotCount, Layout.SlotBase, Layout.Valid, View, Bystander, Intact;
    SameParts(g, c, d);
  }

  // What is clear of the record of the current slot is not changed by a search.
  lemma ClearRead(g: Layout, c: Chip, d: Chip, p: Pointer, size: nat)
    requires Ready(g, c) && Confined(g, g, c, d, OnlyRecords)
    requires p.Readable(c.mem, size) && (p.Nvm? ==> ClearOf(g, c.mem, p, size))
    ensures p.Readable(d.mem, size) && p.Read(d.mem, size) == p.Read(c.mem, size)
  {
    hide Layout.SlotSize, Layout.SlotCount, Layout.SlotBase, Layout.Valid, View, Bystander, Intact, Current;
    if p.Nvm? {
      SameSlice(c.mem, d.mem, p.addr, size);
    }
  }

  // Reading from the current slot of an area.
  lemma CurrentRead(g: Layout, c: Chip, off: nat, size: nat)
    requires Ready(g, c) && off + size <= g.dataSize
    ensures var p := g.SlotBase(Current(View(g, c.mem))) + off;
            && g.area <= p && p + size <= g.area + g.areaSize
            && c.mem[p..p + size] == Committed(View(g, c.mem))[off..off + size]
            && Nvm(p).Avoids(g.SlotBase(Next(View(g, c.mem))), g.SlotBase(Next(View(g, c.mem))) + g.SlotSize(), size)
  {
    hide Layout.SlotSize, Layout.SlotCount, Layout.SlotBase, View, SlotAt, Bystander, Intact;
    var v := View(g, c.mem);
    SlotPlace(g, Current(v));
    NextDiffers(v);
    ViewAt(g, c.mem, Current(v));
    SameOutsideRefl(c, g.SlotBase(Next(v)), g.SlotBase(Next(v)) + g.SlotSize());
    CurrentStays(g, c, c, Next(v), Current(v), off, size);
  }

  // An operation of area x that stays inside x leaves every other area as it was.
  lemma OthersKept(lib: Library, x: Area, c: Chip, a: Area)
    requires lib.Linked() && x in lib.areas && a in lib.areas && a != x
    requires a.Sound() && StateOk(a.g, c, a.data, a.Tx())
    requires SameOutside(c, lib.flash.chip, x.g.area, x.g.area + x.g.areaSize)
    ensures a.Ok() && Same(a.g, c, lib.flash.chip)
    ensures Committed(View(a.g, lib.flash.chip.mem)) == Committed(View(a.g, c.mem))
  {
    hide Layout.Valid, StateOk, Same, SameOutside, View, RingAt;
    assert Apart(a.g, x.g) || Apart(x.g, a.g);
    ReadyOfState(a.g, c, a.data, a.Tx());
    ElsewhereIsSame(a.g, c, lib.flash.chip, x.g.area, x.g.area + x.g.areaSize);
    SameStateOk(a.g, c, lib.flash.chip, a.data, a.Tx());
  }

  // The whole-library view of a change to area x alone, made since the memory was c.
  lemma OthersAllKept(lib: Library, x: Area, c: Chip)
    requires lib.Linked() && x in lib.areas
    requires forall a :: a in lib.areas && a != x ==> a.Sound() && StateOk(a.g, c, a.data, a.Tx())
    requires SameOutside(c, lib.flash.chip, x.g.area, x.g.area + x.g.areaSize)
    ensures forall a :: a in lib.areas && a != x ==> a.Ok() && Same(a.g, c, lib.flash.chip)
  {
    hide Layout.Valid, StateOk, Same, SameOutside, View;
    forall a | a in lib.areas && a != x
      ensures a.Ok() && Same(a.g, c, lib.flash.chip)
    {
      OthersKept(lib, x, c, a);
    }
  }

  // translate_addr, seen from the whole library.
  method Translate(lib: Library, x: Area, addr: nat, size: nat) returns (o: Outcome, phys: nat)
    requires Valid(lib) && x in lib.areas
    modifies lib.flash, x`data
    ensures lib.flash.cuts == old(lib.flash.cuts) + if o == PowerCut then 1 else 0
    ensures Valid(lib)
    ensures forall a :: a in lib.areas ==> Same(a.g, old(lib.flash.chip), lib.flash.chip)
    ensures SameOutside(old(lib.flash.chip), lib.flash.chip, x.g.area, x.g.area + x.g.areaSize)
    ensures Confined(x.g, x.g, old(lib.flash.chip), lib.flash.chip, OnlyRecords)
    ensures old(x.data).At? ==> lib.flash.chip == old(lib.flash.chip) && x.data == old(x.data) && o != PowerCut
    ensures o != PowerCut ==> o == RangeCheck(x.g, addr, size)
    ensures o == Done ==> x.data.At? && phys == x.data.addr + (addr - x.g.area)
  {
    hide Layout.SlotSize, Layout.SlotCount, Layout.SlotBase, View, Same, SameOutside, StateOk, Confined;
    ghost var c := lib.flash.chip;
    o, phys := x.TranslateAddr(addr, size);
    ValidAgain(lib, x, c);
  }

  // Area x is in order again, the others were before the change and kept out of it.
  lemma ValidAgain(lib: Library, x: Area, c: Chip)
    requires lib.Linked() && x in lib.areas && x.Ok()
    requires OwnTrackers(lib)
    requires forall a :: a in lib.areas && a != x ==>
               WholeWords(a.g, lib.flash.whole) && StateOk(a.g, c, a.data, a.Tx())
    requires SameOutside(c, lib.flash.chip, x.g.area, x.g.area + x.g.areaSize)
    ensures Valid(lib)
    ensures forall a :: a in lib.areas && a != x ==> Same(a.g, c, lib.flash.chip)
  {
    hide Layout.Valid, StateOk, Same, SameOutside, View, WholeWords;
    forall a | a in lib.areas && a != x
      ensures a.Sound()
    {
      SoundAfter(a.g, c, lib.flash.chip, a.data, a.Tx(), x.g.area, x.g.area + x.g.areaSize);
    }
    OthersAllKept(lib, x, c);
  }

  lemma SoundAfter(g: Layout, c: Chip, d: Chip, data: Ref, tx: Tracking, lo: nat, hi: nat)
    requires StateOk(g, c, data, tx) && SameOutside(c, d, lo, hi)
    ensures Holds(g, d)
  {
  }

  lemma FoundSource(g: Layout, h: Layout, c: Chip, d: Chip, addr: nat, size: nat)
    requires Same(g, c, d) && Ready(h, d) && (g == h || Apart(g, h))
    requires RangeCheck(g, addr, size) == Done
    ensures var p := Nvm(g.SlotBase(Current(View(g, d.mem))) + (addr - g.area));
            && p.Readable(d.mem, size)
            && p.Read(d.mem, size) == Committed(View(g, c.mem))[addr - g.area..addr - g.area + size]
            && var n := Next(View(h, d.mem));
               p.Avoids(h.SlotBase(n), h.SlotBase(n) + h.SlotSize(), size)
    ensures addr - g.area + size <= |Committed(View(g, c.mem))|
  {
    hide Layout.SlotSize, Layout.SlotCount, Layout.SlotBase, View, Bystander, Intact, Same;
    SameParts(g, c, d);
    CommittedLength(g, d);
    CurrentRead(g, d, addr - g.area, size);
    if g != h {
      SlotAvoided(h, Next(View(h, d.mem)), Nvm(g.SlotBase(Current(View(g, d.mem))) + (addr - g.area)), size);
    }
  }

  // Where the source really is. A source inside an area is read from that area's current slot, which
  // may have to be searched for first.
  method ResolveSource(lib: Library, ctx: Area, src: Pointer, size: nat)
    returns (o: Outcome, phys: Pointer, srcArea: Area)
    requires Valid(lib) && ctx in lib.areas && SourceOk(lib.areas, ctx, lib.flash.chip.mem, src, size)
    modifies lib.flash, lib.areas`data
    ensures lib.flash.cuts == old(lib.flash.cuts) + if o == PowerCut then 1 else 0
    ensures Valid(lib) && srcArea in lib.areas
    ensures forall a :: a in lib.areas ==> Same(a.g, old(lib.flash.chip), lib.flash.chip)
    ensures Confined(ctx.g, SourceLayout(lib.areas, ctx.g, src), old(lib.flash.chip), lib.flash.chip, OnlyRecords)
    ensures old(ctx.data).At? ==> ctx.data == old(ctx.data)
    ensures o != PowerCut ==> o == SourceCheck(lib.areas, src, size)
    ensures o == Done ==> ResolvedTo(lib, ctx, old(lib.flash.chip), src, phys, size)
  {
    hide Layout.SlotSize, Layout.SlotCount, Layout.SlotBase, Layout.Valid, View, Same, SameOutside, Area.Ok,
         ResolvedTo, Library.Linked, Valid, Confined;
    ValidParts(lib);
    phys := src;
    o := Done;
    srcArea := ctx;
    ghost var c := lib.flash.chip;
    AllSame(lib);
    ValidChip(lib, ctx);
    NothingConfined(ctx.g, SourceLayout(lib.areas, ctx.g, src), c, OnlyRecords);
    var owner := lib.IsInAnyNvm(src);
    if owner != null {
      srcArea := owner;
      if owner.IsInData(src.addr) {
        var p;
        o, p := Translate(lib, owner, src.addr, size);
        phys := Nvm(p);
        ConfinedWider(ctx.g, owner.g, c, lib.flash.chip);
        if o == Done {
          ResolvedOwned(lib, ctx, owner, c, src, size, p);
        }
        return;
      }
    }
    ResolvedPlain(lib, ctx, src, size);
  }

  lemma ValidChip(lib: Library, ctx: Area)
    requires Valid(lib) && ctx in lib.areas
    ensures lib.flash.chip.Valid()
  {
    hide Layout.Valid, RingAt, View;
    ReadyIn(lib, ctx);
  }

  lemma ResolvedPlain(lib: Library, ctx: Area, src: Pointer, size: nat)
    requires Valid(lib) && ctx in lib.areas && SourceOk(lib.areas, ctx, lib.flash.chip.mem, src, size)
    requires src.Nvm? ==> Owner(lib.areas, src.addr) < 0
    ensures ResolvedTo(lib, ctx, lib.flash.chip, src, src, size)
  {
    hide Layout.SlotSize, Layout.SlotCount, Layout.SlotBase, Layout.Valid, View, Bystander, Intact, WholeWords,
         Committed;
    assert ctx.Ok();
  }

  lemma ResolvedOwned(lib: Library, ctx: Area, owner: Area, c: Chip, src: Pointer, size: nat, p: nat)
    requires Valid(lib) && ctx in lib.areas && src.Nvm? && src.Readable(c.mem, size)
    requires Owner(lib.areas, src.addr) >= 0 && owner == lib.areas[Owner(lib.areas, src.addr)]
    requires Same(owner.g, c, lib.flash.chip) && RangeCheck(owner.g, src.addr, size) == Done
    requires owner.data.At? && p == owner.data.addr + (src.addr - owner.g.area)
    ensures ResolvedTo(lib, ctx, c, src, Nvm(p), size)
  {
    hide Layout.SlotSize, Layout.SlotCount, Layout.SlotBase, Layout.Valid, View, Bystander, Intact, WholeWords,
         Committed, Same, Current, Owner, Pointer.Readable, Pointer.Read, Pointer.Avoids, StagingOk;
    assert owner.Ok() && ctx.Ok();
    SameParts(owner.g, c, lib.flash.chip);
    if owner != ctx {
      assert Apart(owner.g, ctx.g) || Apart(ctx.g, owner.g);
    }
    FoundSource(owner.g, ctx.g, c, lib.flash.chip, src.addr, size);
  }

  // phys is where the bytes src stood for when the memory was c can be read now, clear of the next
  // slot of ctx.
  ghost predicate ResolvedTo(lib: Library, ctx: Area, c: Chip, src: Pointer, phys: Pointer, size: nat)
    reads lib, lib.flash
  {
    && SourceCheck(lib.areas, src, size) == Done
    && ctx.g.Valid()
    && src.Readable(c.mem, size)
    && phys.Readable(lib.flash.chip.mem, size)
    && (src.Nvm? && Owner(lib.areas, src.addr) >= 0 ==> Ready(lib.areas[Owner(lib.areas, src.addr)].g, c))
    && Ready(ctx.g, lib.flash.chip)
    && phys.Read(lib.flash.chip.mem, size) == SourceBytes(lib.areas, c.mem, src, size)
    && var n := Next(View(ctx.g, lib.flash.chip.mem));
       phys.Avoids(ctx.g.SlotBase(n), ctx.g.SlotBase(n) + ctx.g.SlotSize(), size)
  }

  lemma ValidParts(lib: Library)
    requires Valid(lib)
    ensures lib.Linked() && OwnTrackers(lib)
    ensures forall a :: a in lib.areas ==> a.flash == lib.flash && a.g.Valid() && a.g.nvm.writeSize > 0
  {
    hide Area.Ok;
  }

  lemma OthersDiffer(lib: Library, i: nat)
    requires lib.Linked() && i < |lib.areas|
    ensures forall j :: 0 <= j < |lib.areas| && j != i ==> lib.areas[j] != lib.areas[i]
  {
    hide Layout.Valid, Apart;
  }

  lemma ReadyIn(lib: Library, ctx: Area)
    requires Valid(lib) && ctx in lib.areas
    ensures ctx.Ok() && Ready(ctx.g, lib.flash.chip)
  {
    hide Layout.Valid, RingAt;
  }

  lemma AllSame(lib: Library)
    requires Valid(lib)
    ensures forall a :: a in lib.areas ==> Same(a.g, lib.flash.chip, lib.flash.chip)
  {
    hide Layout.Valid, Same, View;
    forall a | a in lib.areas
      ensures Same(a.g, lib.flash.chip, lib.flash.chip)
    {
      assert a.Ok();
      SameRefl(a.g, lib.flash.chip);
    }
  }

  // ---------------------------------------------------------------- write_core

  // size extended from the start of the write unit dst lies in to the end of the last one it reaches.
  function AlignedSize(g: Layout, dst: nat, size: nat): (n: nat)
    requires g.nvm.writeSize > 0
  {
    var x := size + dst % g.nvm.writeSize;
    if x % g.nvm.writeSize == 0 then x else x + g.nvm.writeSize - x % g.nvm.writeSize
  }

  // The errors write_core can end with, in the order in which it looks for them.
  ghost function WriteCheck(areas: seq<Area>, g: Layout, open: bool, dst: nat, src: Pointer, size: nat,
                            transaction: bool, aligned: bool): Outcome
    requires g.nvm.writeSize > 0
  {
    if aligned && dst % g.nvm.writeSize != 0 then Raised(ERROR_BASE_MISALIGNED)
    else if aligned && size % g.nvm.writeSize != 0 then Raised(ERROR_SIZE_MISALIGNED)
    else if RangeCheck(g, dst - dst % g.nvm.writeSize, AlignedSize(g, dst, size)) != Done then
      RangeCheck(g, dst - dst % g.nvm.writeSize, AlignedSize(g, dst, size))
    else if SourceCheck(areas, src, size) != Done then SourceCheck(areas, src, size)
    else if !transaction && open then Raised(ERROR_TRANSACTION_ONGOING)
    else Done
  }

  // What write_core raises. Unless the range must be aligned it is taken to the units it reaches, from lo to
  // hi.
  lemma WriteCodes(areas: seq<Area>, g: Layout, open: bool, dst: nat, src: Pointer, size: nat, transaction: bool,
                   aligned: bool, lo: nat, hi: nat)
    requires var w := g.nvm.writeSize;
             w > 0 && lo % w == 0 && lo <= dst < lo + w && hi % w == 0 && hi - w < dst + size <= hi
    ensures var o := WriteCheck(areas, g, open, dst, src, size, transaction, aligned);
            var w := g.nvm.writeSize;
            if aligned && dst % w != 0 then o == Raised(0x05)
            else if aligned && size % w != 0 then o == Raised(0x06)
            else if lo < g.area || g.area + g.dataSize < lo then o == Raised(0x03)
            else if g.area + g.dataSize < hi then o == Raised(0x04)
            else if SourceCheck(areas, src, size) != Done then o == SourceCheck(areas, src, size)
            else if open && !transaction then o == Raised(0x07)
            else o == Done
  {
    hide SourceCheck;
    var w := g.nvm.writeSize;
    ModUnique(dst, w, lo / w, dst - lo);
    AlignedSizeFacts(g, dst, size);
    assert dst - dst % w == lo;
    SameMultiple(lo, AlignedSize(g, dst, size), dst + size, hi, w);
  }

  // There is but one multiple of w among w numbers in a row.
  lemma SameMultiple(lo: nat, n: nat, end: nat, hi: nat, w: nat)
    requires w > 0 && lo % w == 0 && n % w == 0 && hi % w == 0
    requires hi - w < end <= hi && end <= lo + n < end + w
    ensures lo + n == hi
  {
    ModAdd(lo, n, w);
    var a, b := (lo + n) / w, hi / w;
    assert lo + n == a * w && hi == b * w;
    if a < b {
      MulMonotone(a + 1, b, w);
    } else if b < a {
      MulMonotone(b + 1, a, w);
    }
  }

  lemma AlignedSizeFacts(g: Layout, dst: nat, size: nat)
    requires g.nvm.writeSize > 0
    ensures var w := g.nvm.writeSize;
            && AlignedSize(g, dst, size) % w == 0
            && size + dst % w <= AlignedSize(g, dst, size) < size + dst % w + w
  {
    var w := g.nvm.writeSize;
    var x := size + dst % w;
    if x % w != 0 {
      ModUnique(x + w - x % w, w, x / w + 1, 0);
    }
  }

  // dst and src name data and bytes that exist when the memory is c.
  ghost predicate Writable(areas: seq<Area>, g: Layout, c: Chip, dst: nat, src: Pointer, size: nat) {
    && Ready(g, c)
    && g.area <= dst && dst - g.area + size <= g.dataSize
    && src.Readable(c.mem, size) && SourceCheck(areas, src, size) == Done
    && (src.Nvm? && Owner(areas, src.addr) >= 0 ==> Ready(areas[Owner(areas, src.addr)].g, c))
  }

  // The data of an area with the bytes at src, as they are in c, written to dst.
  ghost function Image(areas: seq<Area>, g: Layout, c: Chip, dst: nat, src: Pointer, size: nat): (b: seq<byte>)
    requires Writable(areas, g, c, dst, src, size)
    ensures |b| == g.dataSize
  {
    CommittedLength(g, c);
    Splice(Committed(View(g, c.mem)), dst - g.area, SourceBytes(areas, c.mem, src, size))
  }

  // Searching slots beforehand does not change what a source stands for.
  lemma ImageKept(areas: seq<Area>, ctx: Area, c: Chip, d: Chip, dst: nat, src: Pointer, size: nat)
    requires ctx in areas && SourceOk(areas, ctx, c.mem, src, size)
    requires Writable(areas, ctx.g, c, dst, src, size)
    requires forall a :: a in areas ==> Same(a.g, c, d)
    requires Confined(ctx.g, ctx.g, c, d, OnlyRecords)
    ensures Writable(areas, ctx.g, d, dst, src, size)
    ensures SourceOk(areas, ctx, d.mem, src, size)
    ensures Image(areas, ctx.g, d, dst, src, size) == Image(areas, ctx.g, c, dst, src, size)
    ensures SourceBytes(areas, d.mem, src, size) == SourceBytes(areas, c.mem, src, size)
  {
    hide Layout.Valid, View, Bystander, Intact, Same, Splice;
    SameParts(ctx.g, c, d);
    if src.Nvm? && Owner(areas, src.addr) >= 0 {
      SameParts(areas[Owner(areas, src.addr)].g, c, d);
    } else {
      ClearRead(ctx.g, c, d, src, size);
      if src.Nvm? {
        StaysClear(ctx.g, c, d, src, size);
      }
    }
  }

  ghost predicate NextBlank(g: Layout, c: Chip, k: nat)
    requires Ready(g, c)
  {
    BlankAt(c, g.SlotBase(Next(View(g, c.mem))) + k)
  }

  // Bytes from .. to of the data of the next slot have not been programmed since its last erase.
  ghost predicate RangeBlank(g: Layout, c: Chip, from: int, to: int)
    requires Ready(g, c)
  {
    forall k :: from <= k < to && 0 <= k < g.dataSize ==> NextBlank(g, c, k)
  }

  lemma RangeBlankKept(g: Layout, c: Chip, d: Chip, from: int, to: int)
    requires Same(g, c, d) && RangeBlank(g, c, from, to)
    ensures RangeBlank(g, d, from, to)
  {
    hide Layout.SlotSize, Layout.SlotCount, Layout.SlotBase, View, Bystander, Intact;
    var v := View(g, c.mem);
    var n, i := Next(v), Current(v);
    NextDiffers(v);
    SlotPlace(g, n);
    SlotPlace(g, i);
    if i < n {
      SlotsApart(g, i, n);
    } else {
      SlotsApart(g, n, i);
    }
    SameParts(g, c, d);
    forall k | from <= k < to && 0 <= k < g.dataSize
      ensures NextBlank(g, d, k)
    {
      assert NextBlank(g, c, k);
      assert !InMeta(g, i, g.SlotBase(n) + k);
    }
  }

  lemma BlankFromRange(g: Layout, c: Chip, from: nat, to: nat)
    requires Ready(g, c) && RangeBlank(g, c, from, to) && to <= g.dataSize
    ensures var n := Next(View(g, c.mem));
            Blank(c, g.SlotBase(n) + from, g.SlotBase(n) + to)
  {
    hide Layout.SlotSize, Layout.SlotCount, Layout.SlotBase, View, Bystander, Intact;
    var n := Next(View(g, c.mem));
    SlotPlace(g, n);
    forall k | g.SlotBase(n) + from <= k < g.SlotBase(n) + to
      ensures c.blank[k]
    {
      assert NextBlank(g, c, k - g.SlotBase(n));
    }
  }

  lemma SettingFor(lib: Library, ctx: Area, c: Chip, dst: nat, src: Pointer, phys: Pointer, size: nat)
    requires Valid(lib) && ctx in lib.areas
    requires Writable(lib.areas, ctx.g, c, dst, src, size) && ResolvedTo(lib, ctx, c, src, phys, size)
    requires Same(ctx.g, c, lib.flash.chip)
    ensures var v := View(ctx.g, lib.flash.chip.mem);
            Setting(ctx.g, lib.flash.chip, Next(v), Current(v), dst - ctx.g.area, phys, size,
                    Image(lib.areas, ctx.g, c, dst, src, size))
  {
    hide Layout.SlotSize, Layout.SlotCount, Layout.SlotBase, View, Bystander, Intact, Same, Splice,
         Pointer.Readable, Pointer.Read, Pointer.Avoids;
    var d := lib.flash.chip;
    var v := View(ctx.g, d.mem);
    SameParts(ctx.g, c, d);
    NextDiffers(v);
    ViewAt(ctx.g, d.mem, Current(v));
  }

  // How far a write may reach when a transaction is open, or none is.
  function WriteScope(open: bool): Scope {
    if open then NextUnits else NextSlot
  }

  // What write_core did between mid and now, if it got as far as programming.
  ghost predicate WriteOutcome(lib: Library, ctx: Area, c: Chip, mid: Chip, dst: nat, src: Pointer, size: nat,
                               transaction: bool, o: Outcome)
    reads lib, lib.flash, ctx
  {
    && Writable(lib.areas, ctx.g, c, dst, src, size)
    && Ready(ctx.g, mid)
    && var image := Image(lib.areas, ctx.g, c, dst, src, size);
       var n := Next(View(ctx.g, mid.mem));
       var from := dst - dst % ctx.g.nvm.writeSize - ctx.g.area;
       if transaction then
         && from >= 0
         && (o == Done ==> FilledTo(ctx.g, mid, lib.flash.chip, n, from, from + AlignedSize(ctx.g, dst, size), image))
         && (o == PowerCut ==> CutFill(ctx.g, mid, lib.flash.chip, n))
       else
         && (o in {Done, PowerCut} ==>
               WornOnce(mid, lib.flash.chip, ctx.g.SlotBase(n), ctx.g.SlotBase(n) + ctx.g.SlotSize()))
         && (o == Done ==>
               && UpdatedTo(ctx.g, mid, lib.flash.chip, image)
               && ctx.data == At(ctx.g.SlotBase(n)))
         && (o == PowerCut ==> UpdateCut(ctx.g, mid, lib.flash.chip, image))
  }

  lemma InsideSlotIsInsideArea(g: Layout, c: Chip, d: Chip, n: nat)
    requires g.Valid() && n < g.SlotCount()
    requires SameOutside(c, d, g.SlotBase(n), g.SlotBase(n) + g.SlotSize())
    ensures SameOutside(c, d, g.area, g.area + g.areaSize)
  {
    hide Layout.SlotSize, Layout.SlotCount, Layout.SlotBase;
    SlotPlace(g, n);
  }

  lemma OutcomeStaysInside(lib: Library, ctx: Area, c: Chip, mid: Chip, dst: nat, src: Pointer, size: nat,
                           transaction: bool, o: Outcome)
    requires WriteOutcome(lib, ctx, c, mid, dst, src, size, transaction, o) && o in {Done, PowerCut}
    ensures Ready(ctx.g, mid)
    ensures var n := Next(View(ctx.g, mid.mem));
            SameOutside(mid, lib.flash.chip, ctx.g.SlotBase(n), ctx.g.SlotBase(n) + ctx.g.SlotSize())
    ensures SameOutside(mid, lib.flash.chip, ctx.g.area, ctx.g.area + ctx.g.areaSize)
  {
    hide Layout.SlotSize, Layout.SlotCount, Layout.SlotBase, View, SlotAt, SameOutside, Bystander, Intact, FilledTo,
         AlignedSize, Image, WornOnce, Updated, Interrupted;
    var n := Next(View(ctx.g, mid.mem));
    var from := dst - dst % ctx.g.nvm.writeSize - ctx.g.area;
    if transaction && o == Done {
      FilledOutside(ctx.g, mid, lib.flash.chip, n, from, from + AlignedSize(ctx.g, dst, size),
                    Image(lib.areas, ctx.g, c, dst, src, size));
    }
    InsideSlotIsInsideArea(ctx.g, mid, lib.flash.chip, n);
  }

  // The programming part of write_core: an update, or one write of an open transaction.
  method WriteNow(lib: Library, ctx: Area, srcArea: Area, offset: nat, misalign: nat, sizeAligned: nat, phys: Pointer,
                  size: nat, transaction: bool, ghost c: Chip, ghost dst: nat, ghost src: Pointer) returns (ok: bool)
    requires Valid(lib) && ctx in lib.areas && srcArea in lib.areas && ctx.data.At?
    requires Writable(lib.areas, ctx.g, c, dst, src, size) && Same(ctx.g, c, lib.flash.chip)
    requires ResolvedTo(lib, ctx, c, src, phys, size)
    requires ctx.g.nvm.writeSize > 0
    requires misalign == dst % ctx.g.nvm.writeSize && sizeAligned == AlignedSize(ctx.g, dst, size)
    requires offset == dst - misalign - ctx.g.area && offset + sizeAligned <= ctx.g.dataSize
    requires transaction ==> RangeBlank(ctx.g, lib.flash.chip, offset, offset + sizeAligned)
    modifies lib.flash, ctx`data
    ensures lib.flash.cuts == old(lib.flash.cuts) + if ok then 0 else 1
    ensures transaction || !ok ==> ctx.data == old(ctx.data)
    ensures WriteOutcome(lib, ctx, c, old(lib.flash.chip), dst, src, size, transaction, if ok then Done else PowerCut)
  {
    hide Layout.SlotSize, Layout.SlotCount, Layout.SlotBase, Layout.Valid, View, Same, SameOutside, Bystander,
         Intact, ResolvedTo, Library.Linked, UpdatedTo, UpdateCut, Filled, FilledTo, CutFill, Splice, Setting,
         RangeBlank, Blank, WornOnce, Checksum, AlignedSize, Image, WholeWords, StagingOk, OwnTrackers, Current;
    ghost var mid := lib.flash.chip;
    ghost var image := Image(lib.areas, ctx.g, c, dst, src, size);
    ValidParts(lib);
    assert ctx.Ok();
    var cur := ctx.CurrentSlotIndex();
    var index := ctx.NextSlotIndex();
    NextDiffers(ctx.Slots());
    SettingFor(lib, ctx, c, dst, src, phys, size);
    AlignedSizeFacts(ctx.g, dst, size);
    AlignedOffset(ctx.g, dst, offset);
    if transaction {
      BlankFromRange(ctx.g, mid, offset, offset + sizeAligned);
      FillNothing(ctx.g, mid, index, offset, image);
      ok := ProgramRange(ctx, srcArea, index, cur, offset, misalign, sizeAligned, phys, size, mid, offset, image);
    } else {
      ok := BuildUpdate(ctx, srcArea, index, cur, offset, misalign, sizeAligned, phys, size, image);
    }
  }

  lemma AlignedOffset(g: Layout, dst: nat, offset: nat)
    requires g.Valid() && offset == dst - dst % g.nvm.writeSize - g.area
    ensures offset % g.nvm.writeSize == 0
  {
    var w := g.nvm.writeSize;
    MulMod(dst / w, w);
    assert g.area + offset == (dst / w) * w;
    ModAdd(g.area, offset, w);
  }

  lemma OthersOk(lib: Library, ctx: Area)
    requires Valid(lib)
    ensures lib.Linked()
    ensures forall a :: a in lib.areas && a != ctx ==> a.Ok() && Same(a.g, lib.flash.chip, lib.flash.chip)
  {
    hide Area.Ok, Same;
    AllSame(lib);
  }

  lemma StatesOf(lib: Library)
    requires Valid(lib)
    ensures forall a :: a in lib.areas ==>
              WholeWords(a.g, lib.flash.whole) && StateOk(a.g, lib.flash.chip, a.data, a.Tx())
  {
    hide StateOk, WholeWords, Library.Linked;
    forall a | a in lib.areas
      ensures WholeWords(a.g, lib.flash.whole) && StateOk(a.g, lib.flash.chip, a.data, a.Tx())
    {
      ValidParts(lib);
      assert a.Ok();
    }
  }

  lemma OthersAfterWrite(lib: Library, x: Area, c: Chip)
    requires lib.Linked() && x in lib.areas
    requires forall a :: a in lib.areas && a != x ==>
               WholeWords(a.g, lib.flash.whole) && StateOk(a.g, c, a.data, a.Tx())
    requires SameOutside(c, lib.flash.chip, x.g.area, x.g.area + x.g.areaSize)
    ensures forall a :: a in lib.areas && a != x ==> a.Ok() && Same(a.g, c, lib.flash.chip)
  {
    hide Layout.Valid, StateOk, Same, SameOutside, View, WholeWords;
    forall a | a in lib.areas && a != x
      ensures a.Sound()
    {
      SoundAfter(a.g, c, lib.flash.chip, a.data, a.Tx(), x.g.area, x.g.area + x.g.areaSize);
    }
    OthersAllKept(lib, x, c);
  }

  lemma SourceStaysOk(areas: seq<Area>, ctx: Area, c: Chip, d: Chip, src: Pointer, size: nat)
    requires SourceOk(areas, ctx, c.mem, src, size) && Same(ctx.g, c, d)
    ensures SourceOk(areas, ctx, d.mem, src, size)
  {
    hide ClearOf, Same;
    SameParts(ctx.g, c, d);
    if src.Nvm? && Owner(areas, src.addr) < 0 {
      StaysClear(ctx.g, c, d, src, size);
    }
  }

  lemma AllSameTrans(areas: seq<Area>, c: Chip, d: Chip, e: Chip)
    requires forall a :: a in areas ==> Same(a.g, c, d)
    requires forall a :: a in areas ==> Same(a.g, d, e)
    ensures forall a :: a in areas ==> Same(a.g, c, e)
  {
    hide Same;
    forall a | a in areas
      ensures Same(a.g, c, e)
    {
      SameTrans(a.g, c, d, e);
    }
  }

  lemma RangeStaysBlank(g: Layout, c: Chip, d: Chip, from: int, to: int, transaction: bool)
    requires Same(g, c, d) && Ready(g, c) && Ready(g, d)
    requires transaction ==> RangeBlank(g, c, from, to)
    ensures transaction ==> RangeBlank(g, d, from, to)
  {
    if transaction {
      RangeBlankKept(g, c, d, from, to);
    }
  }

  // From c to d the slot of ctx was searched for, then the source was resolved.
  lemma WriteIsReady(lib: Library, ctx: Area, c: Chip, d: Chip, dst: nat, src: Pointer, phys: Pointer, size: nat)
    requires ctx in lib.areas && ctx.g.nvm.writeSize > 0
    requires SourceOk(lib.areas, ctx, c.mem, src, size)
    requires RangeCheck(ctx.g, dst - dst % ctx.g.nvm.writeSize, AlignedSize(ctx.g, dst, size)) == Done
    requires forall a :: a in lib.areas ==> Same(a.g, c, d)
    requires Confined(ctx.g, ctx.g, c, d, OnlyRecords)
    requires ResolvedTo(lib, ctx, d, src, phys, size)
    ensures Writable(lib.areas, ctx.g, c, dst, src, size)
    ensures ResolvedTo(lib, ctx, c, src, phys, size)
    ensures dst - dst % ctx.g.nvm.writeSize >= ctx.g.area
    ensures dst - dst % ctx.g.nvm.writeSize - ctx.g.area + AlignedSize(ctx.g, dst, size) <= ctx.g.dataSize
  {
    hide Layout.Valid, View, Same, Bystander, Intact, Splice, SameOutside, Pointer.Readable, Pointer.Read,
         Pointer.Avoids, AlignedSize;
    AlignedSizeFacts(ctx.g, dst, size);
    SameParts(ctx.g, c, d);
    if src.Nvm? && Owner(lib.areas, src.addr) >= 0 {
      SameParts(lib.areas[Owner(lib.areas, src.addr)].g, c, d);
    }
    ImageKept(lib.areas, ctx, c, d, dst, src, size);
  }

  lemma NothingElse(lib: Library, x: Area, c: Chip, mid: Chip)
    requires Valid(lib) && mid == lib.flash.chip
    requires forall a :: a in lib.areas ==> Same(a.g, c, mid)
    ensures Around(lib, x, c, mid)
  {
    hide Same, StateOk;
    OthersOk(lib, x);
    StatesOf(lib);
  }

  lemma MakeAround(lib: Library, x: Area, c: Chip, mid: Chip)
    requires lib.Linked() && OwnTrackers(lib)
    requires forall a :: a in lib.areas ==> WholeWords(a.g, lib.flash.whole) && Same(a.g, c, mid)
    requires forall a :: a in lib.areas && a != x ==> a.Ok() && Same(a.g, mid, lib.flash.chip)
    ensures Around(lib, x, c, mid)
  {
    hide Same, Area.Ok, WholeWords;
  }

  // The part of write_core after the slot of ctx is known: finds the source, then writes.
  method WriteResolved(lib: Library, ctx: Area, offset: nat, misalign: nat, sizeAligned: nat, src: Pointer, size: nat,
                       transaction: bool, ghost c: Chip, ghost dst: nat) returns (o: Outcome, ghost mid: Chip)
    requires Valid(lib) && ctx in lib.areas && ctx.data.At? && SourceOk(lib.areas, ctx, c.mem, src, size)
    requires ctx.g.nvm.writeSize > 0 && Ready(ctx.g, c)
    requires forall a :: a in lib.areas ==> Same(a.g, c, lib.flash.chip)
    requires Confined(ctx.g, ctx.g, c, lib.flash.chip, OnlyRecords)
    requires misalign <= dst && misalign == dst % ctx.g.nvm.writeSize && sizeAligned == AlignedSize(ctx.g, dst, size)
    requires RangeCheck(ctx.g, dst - misalign, sizeAligned) == Done && offset == dst - misalign - ctx.g.area
    requires transaction ==> ctx.tracker != null && RangeBlank(ctx.g, c, offset, offset + sizeAligned)
    modifies lib.flash, lib.areas`data
    ensures lib.flash.cuts == old(lib.flash.cuts) + if o == PowerCut then 1 else 0
    ensures transaction || o != Done ==> ctx.data == old(ctx.data)
    ensures Around(lib, ctx, c, mid)
    ensures Confined(ctx.g, SourceLayout(lib.areas, ctx.g, src), c, mid, OnlyRecords)
    ensures Confined(ctx.g, SourceLayout(lib.areas, ctx.g, src), c, lib.flash.chip, WriteScope(transaction))
    ensures o != PowerCut ==>
              o == if SourceCheck(lib.areas, src, size) != Done then SourceCheck(lib.areas, src, size)
                   else if !transaction && ctx.tracker != null then Raised(ERROR_TRANSACTION_ONGOING) else Done
    ensures o.Raised? ==> Valid(lib) && lib.flash.chip == mid
    ensures o.Raised? || (o == PowerCut && lib.flash.chip == mid)
         || WriteOutcome(lib, ctx, c, mid, dst, src, size, transaction, o)
  {
    hide Layout.SlotSize, Layout.SlotCount, Layout.SlotBase, Layout.Valid, View, Same, SameOutside, Area.Ok,
         ResolvedTo, Library.Linked, Valid, WriteOutcome, StateOk, Ready, RangeBlank, SourceOk, Image, AlignedSize,
         SourceCheck, WholeWords, Around, OwnTrackers, Confined, SourceLayout;
    ghost var d := lib.flash.chip;
    SourceStaysOk(lib.areas, ctx, c, d, src, size);
    var source, srcArea;
    o, source, srcArea := ResolveSource(lib, ctx, src, size);
    mid := lib.flash.chip;
    ValidParts(lib);
    SearchesConfined(lib.areas, ctx, src, c, d, mid, transaction);
    AllSameTrans(lib.areas, c, d, mid);
    NothingElse(lib, ctx, c, mid);
    if o != Done {
      return;
    }
    if !transaction && ctx.tracker != null {
      return Raised(ERROR_TRANSACTION_ONGOING), mid;
    }
    WriteIsReady(lib, ctx, c, d, dst, src, source, size);
    StatesOf(lib);
    SameParts(ctx.g, c, mid);
    RangeStaysBlank(ctx.g, c, mid, offset, offset + sizeAligned, transaction);
    var ok := WriteNow(lib, ctx, srcArea, offset, misalign, sizeAligned, source, size, transaction, c, dst, src);
    o := if ok then Done else PowerCut;
    OutcomeStaysInside(lib, ctx, c, mid, dst, src, size, transaction, o);
    WriteConfined(lib, ctx, c, mid, dst, src, size, transaction, o);
    OthersAfterWrite(lib, ctx, mid);
    MakeAround(lib, ctx, c, mid);
  }

  // The searches before a write touch only the records of the two slots they find.
  lemma SearchesConfined(areas: seq<Area>, ctx: Area, src: Pointer, c: Chip, d: Chip, mid: Chip,
                         transaction: bool)
    requires ctx in areas
    requires forall a :: a in areas ==> Same(a.g, c, d)
    requires Confined(ctx.g, ctx.g, c, d, OnlyRecords)
    requires Confined(ctx.g, SourceLayout(areas, ctx.g, src), d, mid, OnlyRecords)
    ensures Confined(ctx.g, SourceLayout(areas, ctx.g, src), c, mid, OnlyRecords)
    ensures Confined(ctx.g, SourceLayout(areas, ctx.g, src), c, mid, WriteScope(transaction))
  {
    hide Same, Confined, Owner, Current, InRecord, InNextSlot, SameCurrent;
    var h := SourceLayout(areas, ctx.g, src);
    SameIsSameCurrent(ctx.g, c, d);
    SameIsSameCurrent(h, c, d);
    ConfinedWider(ctx.g, h, c, d);
    ConfinedTrans(ctx.g, h, c, d, mid, OnlyRecords, OnlyRecords);
    ConfinedWider(ctx.g, h, c, mid);
  }

  lemma OutcomeWear(lib: Library, ctx: Area, c: Chip, mid: Chip, dst: nat, src: Pointer, size: nat,
                    transaction: bool, o: Outcome)
    requires WriteOutcome(lib, ctx, c, mid, dst, src, size, transaction, o) && o in {Done, PowerCut}
    ensures Ready(ctx.g, mid)
    ensures if transaction then lib.flash.chip.wear == mid.wear
            else var n := Next(View(ctx.g, mid.mem));
                 WornOnce(mid, lib.flash.chip, ctx.g.SlotBase(n), ctx.g.SlotBase(n) + ctx.g.SlotSize())
  {
    hide Layout.SlotSize, Layout.SlotCount, Layout.SlotBase, View, SlotAt, SameOutside, Bystander, Intact,
         AlignedSize, Image, WornOnce, Updated, Interrupted, Splice;
  }

  // The write itself touches only the next slot.
  lemma WriteConfined(lib: Library, ctx: Area, c: Chip, mid: Chip, dst: nat, src: Pointer, size: nat,
                      transaction: bool, o: Outcome)
    requires ctx in lib.areas && forall a :: a in lib.areas ==> Same(a.g, c, mid)
    requires Confined(ctx.g, SourceLayout(lib.areas, ctx.g, src), c, mid, OnlyRecords)
    requires WriteOutcome(lib, ctx, c, mid, dst, src, size, transaction, o) && o in {Done, PowerCut}
    ensures Confined(ctx.g, SourceLayout(lib.areas, ctx.g, src), c, lib.flash.chip, WriteScope(transaction))
  {
    hide Same, Confined, Owner, WriteOutcome, SameOutside, View, Bystander, Intact, Layout.SlotSize,
         Layout.SlotBase, Layout.Valid;
    var h := SourceLayout(lib.areas, ctx.g, src);
    SameIsSameCurrent(ctx.g, c, mid);
    SameIsSameCurrent(h, c, mid);
    OutcomeStaysInside(lib, ctx, c, mid, dst, src, size, transaction, o);
    OutcomeWear(lib, ctx, c, mid, dst, src, size, transaction, o);
    if transaction {
      UnitsConfined(ctx.g, h, mid, lib.flash.chip);
    } else {
      NextConfined(ctx.g, h, mid, lib.flash.chip);
    }
    ConfinedTrans(ctx.g, h, c, mid, lib.flash.chip, OnlyRecords, WriteScope(transaction));
  }

  // Extends the range to whole write units, unless it is known to be made of them.
  method AlignRange(g: Layout, dst: nat, size: nat, aligned: bool)
    returns (misalign: nat, dstAligned: nat, sizeAligned: nat)
    requires g.nvm.writeSize > 0
    requires aligned ==> dst % g.nvm.writeSize == 0 && size % g.nvm.writeSize == 0
    ensures misalign == dst % g.nvm.writeSize && misalign <= dst && dstAligned == dst - misalign
    ensures sizeAligned == AlignedSize(g, dst, size)
  {
    var writeSize := g.nvm.writeSize;
    if aligned {
      misalign, dstAligned, sizeAligned := 0, dst, size;
    } else {
      misalign := dst % writeSize;
      dstAligned := dst - misalign;
      sizeAligned := size + misalign;
      if sizeAligned % writeSize != 0 {
        sizeAligned := sizeAligned + writeSize - sizeAligned % writeSize;
      }
    }
  }

  // write_core. mid is the memory once the slots of ctx and of the source have been searched for; an
  // update or a transaction write then touches nothing but the next slot of ctx.
  method WriteCore(lib: Library, ctx: Area, dst: nat, src: Pointer, size: nat, transaction: bool, aligned: bool)
    returns (o: Outcome, ghost mid: Chip)
    requires Valid(lib) && ctx in lib.areas && SourceOk(lib.areas, ctx, lib.flash.chip.mem, src, size)
    requires Ready(ctx.g, lib.flash.chip) && ctx.g.nvm.writeSize > 0
    requires transaction ==> ctx.tracker != null
    requires transaction && (aligned ==> dst % ctx.g.nvm.writeSize == 0 && size % ctx.g.nvm.writeSize == 0) ==>
               var from := dst - dst % ctx.g.nvm.writeSize - ctx.g.area;
               RangeBlank(ctx.g, lib.flash.chip, from, from + AlignedSize(ctx.g, dst, size))
    modifies lib.flash, lib.areas`data
    ensures lib.flash.cuts == old(lib.flash.cuts) + if o == PowerCut then 1 else 0
    ensures Around(lib, ctx, old(lib.flash.chip), mid)
    ensures Confined(ctx.g, SourceLayout(lib.areas, ctx.g, src), old(lib.flash.chip), mid, OnlyRecords)
    ensures Confined(ctx.g, SourceLayout(lib.areas, ctx.g, src), old(lib.flash.chip), lib.flash.chip,
                     WriteScope(transaction))
    ensures o != PowerCut ==>
              o == WriteCheck(lib.areas, ctx.g, ctx.tracker != null, dst, src, size, transaction, aligned)
    ensures o.Raised? ==> Valid(lib) && lib.flash.chip == mid
    ensures old(ctx.data).At? && (transaction || o != Done) ==> ctx.data == old(ctx.data)
    ensures o.Raised? || (o == PowerCut && lib.flash.chip == mid)
         || WriteOutcome(lib, ctx, old(lib.flash.chip), mid, dst, src, size, transaction, o)
  {
    hide Layout.SlotSize, Layout.SlotCount, Layout.SlotBase, Layout.Valid, View, Same, SameOutside, Area.Ok,
         ResolvedTo, Library.Linked, Valid, WriteOutcome, StateOk, Ready, RangeBlank, SourceOk, Image, AlignedSize,
         WholeWords, Around, OwnTrackers, Confined, SourceLayout;
    ghost var c := lib.flash.chip;
    mid := c;
    ValidParts(lib);
    AllSame(lib);
    NothingElse(lib, ctx, c, mid);
    ValidChip(lib, ctx);
    NothingConfined(ctx.g, SourceLayout(lib.areas, ctx.g, src), c, OnlyRecords);
    NothingConfined(ctx.g, SourceLayout(lib.areas, ctx.g, src), c, WriteScope(transaction));
    var writeSize := ctx.g.nvm.writeSize;
    if aligned {
      if dst % writeSize != 0 {
        return Raised(ERROR_BASE_MISALIGNED), mid;
      }
      if size % writeSize != 0 {
        return Raised(ERROR_SIZE_MISALIGNED), mid;
      }
    }
    var misalign, dstAligned, sizeAligned := AlignRange(ctx.g, dst, size, aligned);
    var phys;
    o, phys := Translate(lib, ctx, dstAligned, sizeAligned);
    mid := lib.flash.chip;
    ConfinedWider(ctx.g, SourceLayout(lib.areas, ctx.g, src), c, mid);
    if o != Done {
      NothingElse(lib, ctx, c, mid);
      return;
    }
    var offset := phys - ctx.data.addr;
    assert offset == dst - misalign - ctx.g.area;
    o, mid := WriteResolved(lib, ctx, offset, misalign, sizeAligned, src, size, transaction, c, dst);
  }
}
