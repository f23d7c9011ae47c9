/** Carrying out any program of library calls, with resets whenever the power fails. */
module Program {
  import opened Access
  import opened Areas
  import Arithmetic
  import opened Batch
  import opened Bytes
  import Commit
  import opened Contents
  import opened Flash
  import opened Ftl
  import opened Geometry
  import opened Operations
  import Overlay
  import Reading
  import opened Registry
  import opened Restart
  import opened Ring
  import opened Script
  import opened Slots
  import Tearing
  import opened Traces
  import opened Tracker
  import opened Transactions
  import opened Updates

  // The bits of the transaction of an area, if one is open.
  ghost function BitsOf(x: Area): seq<bv8>
    reads x`tracker, x.tracker
  {
    if x.tracker == null then [] else x.tracker[..]
  }

  ghost function TrackerSet(areas: seq<Area>): set<array<bv8>>
    reads areas`tracker
  {
    set a | a in areas && a.tracker != null :: a.tracker
  }

  // marks are the bits of the areas.
  ghost predicate Tracks(areas: seq<Area>, marks: seq<seq<bv8>>)
    reads areas`tracker, set a | a in areas :: a.tracker
  {
    |marks| == |areas| && forall j :: 0 <= j < |areas| ==> BitsOf(areas[j]) == marks[j]
  }

  function Pointed(layouts: seq<Layout>, src: Source): Pointer {
    match src
    case Buffer(b) => Ram(b, 0)
    case Data(j, off) => if j < |layouts| then Nvm(layouts[j].area + off) else Ram([], 0)
    case Fixed(addr) => Nvm(addr)
  }

  lemma ChipHolds(lib: Library, i: nat)
    requires Valid(lib) && i < |lib.areas|
    ensures lib.areas[i].g.Valid() && lib.areas[i].g.area + lib.areas[i].g.areaSize <= |lib.flash.chip.mem|
    ensures forall j, k :: 0 <= j < k < |lib.areas| ==> Apart(lib.areas[j].g, lib.areas[k].g)
    ensures forall j :: 0 <= j < |lib.areas| ==> lib.areas[j].g.Valid()
  {
    hide Layout.Valid, View, RingAt, StagingOk;
    ReadyIn(lib, lib.areas[i]);
  }

  lemma SourceInArea(lib: Library, layouts: seq<Layout>, j: nat, off: nat, size: nat)
    requires Valid(lib) && Idle(lib, lib.areas, layouts) && j < |layouts| && off + size <= layouts[j].dataSize
    ensures Owner(lib.areas, layouts[j].area + off) == j
    ensures layouts[j].area + off + size <= |lib.flash.chip.mem|
  {
    hide Layout.SlotSize, Valid, Layout.Valid;
    ChipHolds(lib, j);
    OwnerIsUnique(lib.areas, layouts[j].area + off, j);
    SlotHoldsData(layouts[j]);
    DataInArea(layouts[j]);
  }

  lemma DataInArea(g: Layout)
    requires g.Valid()
    ensures g.dataSize < g.areaSize
  {
    SlotHoldsData(g);
  }

  // Memory outside all areas is in the data of none.
  lemma FixedHasNoOwner(lib: Library, layouts: seq<Layout>, addr: nat, size: nat)
    requires Valid(lib) && Idle(lib, lib.areas, layouts) && OutsideAll(layouts, addr, size)
    ensures Owner(lib.areas, addr) < 0
  {
    hide Layout.SlotSize, Valid, Layout.Valid;
    var j := Owner(lib.areas, addr);
    if j >= 0 {
      ChipHolds(lib, j);
      DataInArea(layouts[j]);
    }
  }

  // From c to d no byte outside the areas changed.
  ghost predicate Untouched(layouts: seq<Layout>, c: Chip, d: Chip) {
    && c.Valid() && d.Valid() && |d.mem| == |c.mem|
    && forall k: nat :: k < |c.mem| && OutsideAll(layouts, k, 1) ==>
         d.mem[k] == c.mem[k] && d.blank[k] == c.blank[k] && d.wear[k] == c.wear[k]
  }

  lemma FixedStays(layouts: seq<Layout>, c: Chip, d: Chip, addr: nat, size: nat)
    requires Untouched(layouts, c, d) && OutsideAll(layouts, addr, size) && addr + size <= |c.mem|
    ensures |d.mem| == |c.mem| && d.mem[addr..addr + size] == c.mem[addr..addr + size]
  {
    var x, y := d.mem[addr..addr + size], c.mem[addr..addr + size];
    forall k: nat | k < size
      ensures x[k] == y[k]
    {
      assert OutsideAll(layouts, addr + k, 1);
    }
  }

  lemma ConfinedUntouched(layouts: seq<Layout>, i: nat, j: nat, start: Chip, c: Chip, d: Chip, scope: Scope)
    requires Untouched(layouts, start, c) && i < |layouts| && j < |layouts|
    requires Confined(layouts[i], layouts[j], c, d, scope)
    ensures Untouched(layouts, start, d)
  {
    hide InRecord, InNextSlot;
    forall k: nat | k < |c.mem| && OutsideAll(layouts, k, 1)
      ensures d.mem[k] == c.mem[k] && d.blank[k] == c.blank[k] && d.wear[k] == c.wear[k]
    {
      ConfinedInside(layouts[i], layouts[j], c, d, scope, k);
    }
  }

  lemma WriteUntouched(areas: seq<Area>, layouts: seq<Layout>, i: nat, src: Pointer, start: Chip, c: Chip, d: Chip,
                       scope: Scope)
    requires |areas| == |layouts| && forall j :: 0 <= j < |areas| ==> areas[j].g == layouts[j]
    requires Untouched(layouts, start, c) && i < |layouts|
    requires Confined(layouts[i], SourceLayout(areas, layouts[i], src), c, d, scope)
    ensures Untouched(layouts, start, d)
  {
    hide Untouched, Confined, Owner;
    var j := if src.Nvm? && Owner(areas, src.addr) >= 0 then Owner(areas, src.addr) else i;
    ConfinedUntouched(layouts, i, j, start, c, d, scope);
  }

  lemma MakeEffect(layouts: seq<Layout>, j: nat, cmd: Command, open: bool, o: Outcome, c: Chip, d: Chip)
    requires cmd.area < |layouts| && j < |layouts|
    requires Confined(layouts[cmd.area], layouts[j], c, d, ScopeOf(cmd, open, o))
    requires o == Done && Erases(cmd, open) ==> Ready(layouts[cmd.area], c) && NextWorn(layouts[cmd.area], c, d)
    ensures Effect(layouts, cmd, open, o, c, d)
  {
    hide Confined, NextWorn, Ready, ScopeOf;
  }

  lemma WriteEffect(areas: seq<Area>, layouts: seq<Layout>, cmd: Command, src: Pointer, open: bool, o: Outcome,
                    c: Chip, d: Chip)
    requires |areas| == |layouts| && forall j :: 0 <= j < |areas| ==> areas[j].g == layouts[j]
    requires cmd.Write? && cmd.area < |layouts|
    requires Confined(layouts[cmd.area], SourceLayout(areas, layouts[cmd.area], src), c, d,
                      if cmd.size == 0 then OnlyRecords else Within(o, WriteScope(open)))
    requires o == Done && Erases(cmd, open) ==> Ready(layouts[cmd.area], c) && NextWorn(layouts[cmd.area], c, d)
    ensures Effect(layouts, cmd, open, o, c, d)
  {
    hide Confined, NextWorn, Ready, Owner;
    var j := if src.Nvm? && Owner(areas, src.addr) >= 0 then Owner(areas, src.addr) else cmd.area;
    MakeEffect(layouts, j, cmd, open, o, c, d);
  }

  // A source of a command is one the library can read, and stands for the bytes it should.
  lemma SourceReads(lib: Library, layouts: seq<Layout>, s: seq<Content>, cmd: Command, start: Chip)
    requires Valid(lib) && Idle(lib, lib.areas, layouts) && cmd.Write? && Meant(layouts, |start.mem|, cmd)
    requires Held(lib, s, lib.flash.chip)
    requires Untouched(layouts, start, lib.flash.chip)
    ensures var p := Pointed(layouts, cmd.src);
            && SourceOk(lib.areas, lib.areas[cmd.area], lib.flash.chip.mem, p, cmd.size)
            && SourceCheck(lib.areas, p, cmd.size) == Done
            && SourceContent(lib.areas, s, lib.flash.chip.mem, p, cmd.size)
               == SourceValue(start.mem, s, cmd.src, cmd.size)
            && |SourceValue(start.mem, s, cmd.src, cmd.size)| == cmd.size
  {
    hide Layout.SlotSize, Valid, Layout.Valid, Held, Owner, View, RingAt, StagingOk, Newer, ClearOf;
    ValidParts(lib);
    match cmd.src
    case Buffer(b) =>
    case Data(j, off) =>
      SourceInArea(lib, layouts, j, off, cmd.size);
      HeldData(lib, s, lib.flash.chip, j);
    case Fixed(addr) =>
      FixedHasNoOwner(lib, layouts, addr, cmd.size);
      ReadyIn(lib, lib.areas[cmd.area]);
      OutsideIsClear(layouts[cmd.area], lib.flash.chip, Nvm(addr), cmd.size);
      FixedStays(layouts, start, lib.flash.chip, addr, cmd.size);
  }

  // write_core and the tracker accept a range inside the area.
  lemma RangeAccepted(areas: seq<Area>, g: Layout, at: nat, src: Pointer, size: nat)
    requires g.Valid() && at + size <= g.dataSize && SourceCheck(areas, src, size) == Done
    ensures WriteCheck(areas, g, false, g.area + at, src, size, false, false) == Done
    ensures WriteCheck(areas, g, true, g.area + at, src, size, true, WholeRange(g, g.area + at, size)) == Done
  {
    hide Layout.SlotSize, AlignedSize, SourceCheck;
    var w := g.nvm.writeSize;
    var dst := g.area + at;
    AlignedSizeFacts(g, dst, size);
    SameFirstUnit(g, dst);
    var from := dst - dst % w - g.area;
    AlignedOffset(g, dst, from);
    AlignedFits(from, AlignedSize(g, dst, size), at + size, g.dataSize, w);
  }

  // Only what survives a reset matters to Persists.
  lemma PersistsSettled(lib: Library, s: seq<Content>, t: seq<Content>)
    requires AllSettled(s) == AllSettled(t)
    ensures Persists(lib, s) ==> Persists(lib, t)
  {
    hide Layout.Valid, View, RingAt, Tearing.WholeWords, Library.Linked, Recovered, Ready;
    assert forall j :: 0 <= j < |s| ==> s[j].(staged := NoTransaction) == AllSettled(s)[j] == AllSettled(t)[j];
  }

  lemma SettledTwice(s: seq<Content>)
    ensures AllSettled(AllSettled(s)) == AllSettled(s)
  {
  }

  // From what an updating call leaves behind to what its command means.
  lemma UpdateExplained(lib: Library, i: nat, s: seq<Content>, data: seq<byte>, o: Outcome) returns (t: seq<Content>)
    requires UpdateResult(lib, i, s, data, o) && s[i].version + 1 < MAX_VERSION
    ensures TakesUpdate(s, i, data, o, t) && |t| == |s|
    ensures if o == PowerCut then Persists(lib, t) else Valid(lib) && Holding(lib, t)
  {
    hide Valid, Holding, Persists;
    var next := s[i := OneUpdateOn(s[i], data)];
    match o {
      case Raised(_) => t := s;
      case Done => t := next;
      case PowerCut =>
        t := AllSettled(if Persists(lib, s) then s else next);
        SettledTwice(s);
        SettledTwice(next);
        PersistsSettled(lib, s, AllSettled(s));
        PersistsSettled(lib, next, AllSettled(next));
    }
  }

  // What a call leaves behind that stages b for area i, or spoiled if it is refused.
  lemma StagedExplained(lib: Library, i: nat, s: seq<Content>, b: seq<byte>, spoiled: seq<byte>, o: Outcome)
    returns (t: seq<Content>)
    requires i < |s|
    requires o == Done ==> Valid(lib) && HoldingStaged(lib, s, i, b)
    requires o.Raised? ==> Valid(lib) && HoldingStaged(lib, s, i, spoiled)
    requires o == PowerCut ==> Persists(lib, s)
    ensures Stages(s, i, Newest(if o.Raised? then spoiled else b), o, t) && |t| == |s|
    ensures if o == PowerCut then Persists(lib, t) else Valid(lib) && Holding(lib, t)
  {
    hide Valid, Holding, Persists;
    if o == PowerCut {
      t := AllSettled(s);
      SettledTwice(s);
      PersistsSettled(lib, s, t);
    } else {
      t := s[i := s[i].(staged := Newest(if o.Raised? then spoiled else b))];
    }
  }

  // What a write in an open transaction did.
  lemma StagedWrite(lib: Library, ctx: Area, bits: seq<bv8>, m: seq<byte>, dst: nat, src: Pointer, size: nat,
                    aligned: bool, n: nat, i: nat, s: seq<Content>, o: Outcome) returns (t: seq<Content>)
    requires i < |s| && WriteResult(lib, ctx, bits, m, dst, src, size, aligned, n, i, s, o)
    ensures o.Raised? ==>
              && |t| == |s|
              && Stages(s, i, Newest(SpoiledBy(ctx.g, bits, NewestOf(s, i), FirstUnit(ctx.g, dst), n)), o, t)
    ensures !o.Raised? ==>
              |t| == |s| && Stages(s, i, Newest(StagedWith(lib.areas, ctx.g, s, m, i, dst, src, size)), o, t)
    ensures if o == PowerCut then Persists(lib, t) else Valid(lib) && Holding(lib, t)
  {
    hide Valid, Holding, Persists, TxWriteCheck, StagedWith, SpoiledBy, HoldingStaged;
    t := StagedExplained(lib, i, s, StagedWith(lib.areas, ctx.g, s, m, i, dst, src, size),
                         SpoiledBy(ctx.g, bits, NewestOf(s, i), FirstUnit(ctx.g, dst), n), o);
  }

  // The library is between two calls; areas are the contexts registered, with these layouts.
  ghost predicate Idle(lib: Library, areas: seq<Area>, layouts: seq<Layout>)
    reads lib, areas`copied
  {
    && lib.areas == areas && |areas| == |layouts|
    && forall i :: 0 <= i < |areas| ==> areas[i].g == layouts[i] && areas[i].copied == 0
  }

  lemma WrittenIsPatched(g: Layout, d: seq<byte>, at: nat, b: seq<byte>)
    requires |d| == g.dataSize
    ensures WrittenTo(g, d, g.area + at, b) == Patched(d, at, b)
  {
  }

  // A write inside the area keeps to its tracker.
  lemma WriteReach(lib: Library, s: seq<Content>, c: Chip, i: nat, at: nat, b: seq<byte>)
    requires Held(lib, s, c) && i < |lib.areas| && lib.areas[i].copied == 0 && lib.areas[i].g.Valid()
    requires at + |b| <= lib.areas[i].g.dataSize
    ensures var g := lib.areas[i].g; TxReach(lib.areas[i], g.area + at, ReachedUnits(g, g.area + at, |b|))
  {
    hide Layout.SlotSize, Layout.Valid, FirstUnit, ReachedUnits, Layout.TrackerSize, Held, View, RingAt;
    var x := lib.areas[i];
    if x.tracker != null {
      HeldStaged(lib, s, c, i);
      PatchInTracker(x.g, Overlay.Patch(at, b), x.tracker.Length);
    }
  }

  // What a completed, refused or interrupted write means.
  lemma WriteExplained(lib: Library, rom: seq<byte>, ctx: Area, s: seq<Content>, cmd: Command, open: bool,
                       bits: seq<bv8>, m: seq<byte>,
                       src: Pointer, n: nat, aligned: bool, o: Outcome) returns (t: seq<Content>)
    requires cmd.Write? && cmd.area < |s| && cmd.size > 0 && (open <==> s[cmd.area].staged.Newest?)
    requires ctx.g.nvm.writeSize > 0 && |s[cmd.area].data| == ctx.g.dataSize
    requires open ==> |s[cmd.area].staged.data| == ctx.g.dataSize
    requires s[cmd.area].version + 1 < MAX_VERSION
    requires SourceContent(lib.areas, s, m, src, cmd.size) == SourceValue(rom, s, cmd.src, cmd.size)
    requires WriteCheck(lib.areas, ctx.g, false, ctx.g.area + cmd.at, src, cmd.size, false, false) == Done
    requires WriteCheck(lib.areas, ctx.g, true, ctx.g.area + cmd.at, src, cmd.size, true, aligned) == Done
    requires !open && o != PowerCut ==>
               o == WriteCheck(lib.areas, ctx.g, false, ctx.g.area + cmd.at, src, cmd.size, false, false)
    requires !open ==> UpdateResult(lib, cmd.area, s,
                                    WrittenTo(ctx.g, s[cmd.area].data, ctx.g.area + cmd.at,
                                        SourceContent(lib.areas, s, m, src, cmd.size)), o)
    requires open ==>
               WriteResult(lib, ctx, bits, m, ctx.g.area + cmd.at, src, cmd.size, aligned, n, cmd.area, s, o)
    requires n == ReachedUnits(ctx.g, ctx.g.area + cmd.at, cmd.size)
    ensures Explains(rom, s, cmd, o, t) && |t| == |s|
    ensures open && o != PowerCut ==>
              WriteAccounted(ctx.g, cmd.at, cmd.size, s[cmd.area].staged.data, t[cmd.area].staged, bits, BitsOf(ctx), o)
    ensures if o == PowerCut then Persists(lib, t) else Valid(lib) && Holding(lib, t)
  {
    hide Layout.SlotSize, Layout.Valid, Valid, Holding, Persists, UpdateResult, SourceContent, FirstUnit,
         WriteCheck, SourceValue, WrittenTo, Patched, HoldingStaged, SpoiledBy, ReachedUnits, NoneMarkedIn,
         Unmarked, MarkRange;
    var x := s[cmd.area];
    WrittenIsPatched(ctx.g, x.data, cmd.at, SourceValue(rom, s, cmd.src, cmd.size));
    if open {
      WrittenIsPatched(ctx.g, x.staged.data, cmd.at, SourceValue(rom, s, cmd.src, cmd.size));
      t := StagedWrite(lib, ctx, bits, m, ctx.g.area + cmd.at, src, cmd.size, aligned, n, cmd.area, s, o);
    } else {
      t := UpdateExplained(lib, cmd.area, s, Patched(x.data, cmd.at, SourceValue(rom, s, cmd.src, cmd.size)), o);
    }
  }

  method DoWrite(lib: Library, areas: seq<Area>, ctx: Area, layouts: seq<Layout>, cmd: Command, ghost s: seq<Content>,
                 ghost start: Chip)
    returns (o: Outcome, ghost t: seq<Content>)
    requires Valid(lib) && Holding(lib, s) && Idle(lib, areas, layouts)
    requires cmd.area < |areas| && ctx == areas[cmd.area] && cmd.Write? && Meant(layouts, |start.mem|, cmd)
    requires |s| == |layouts| && s[cmd.area].version + 1 < MAX_VERSION
    requires Untouched(layouts, start, lib.flash.chip)
    modifies lib.flash, areas`data, if ctx.tracker == null then {} else {ctx.tracker}
    ensures Untouched(layouts, start, lib.flash.chip)
    ensures |s| == |layouts| && Effect(layouts, cmd, s[cmd.area].staged.Newest?, o, old(lib.flash.chip), lib.flash.chip)
    ensures lib.flash.cuts == old(lib.flash.cuts) + if o == PowerCut then 1 else 0
    ensures Explains(start.mem, s, cmd, o, t) && |t| == |s|
    ensures o != PowerCut ==>
              Accounts(layouts[cmd.area], cmd, s[cmd.area], t[cmd.area], old(BitsOf(ctx)), BitsOf(ctx), o)
    ensures if o == PowerCut then Persists(lib, t) else Valid(lib) && Holding(lib, t)
  {
    hide Layout.SlotSize, Layout.Valid, Valid, Holding, Held, Persists, UpdateResult, WriteResult, SourceContent,
         SourceCheck, SourceOk, FirstUnit, ReachedUnits, Layout.TrackerSize, WriteCheck, SourceValue, TxReach,
         Pointed, WrittenTo, WriteAccounted, Untouched, Confined, SourceLayout;
    ghost var i, c := cmd.area, lib.flash.chip;
    var src := Pointed(layouts, cmd.src);
    WriteReady(lib, areas, layouts, s, cmd, start);
    ghost var open, bits := ctx.tracker != null, [];
    if open {
      bits := ctx.tracker[..];
    }
    ghost var n, aligned := ReachedUnits(ctx.g, ctx.g.area + cmd.at, cmd.size),
                                         WholeRange(ctx.g, ctx.g.area + cmd.at, cmd.size);
    o := WriteAny(lib, ctx, ctx.g.area + cmd.at, src, cmd.size, i, s);
    WriteUntouched(areas, layouts, i, src, start, c, lib.flash.chip,
                   if cmd.size == 0 then OnlyRecords else Within(o, WriteScope(open)));
    WriteEffect(areas, layouts, cmd, src, open, o, c, lib.flash.chip);
    if cmd.size == 0 {
      t := s;
    } else {
      t := WriteExplained(lib, start.mem, ctx, s, cmd, open, bits, c.mem, src, n, aligned, o);
    }
  }

  // Everything a write command needs to know beforehand.
  lemma WriteReady(lib: Library, areas: seq<Area>, layouts: seq<Layout>, s: seq<Content>, cmd: Command, start: Chip)
    requires Valid(lib) && Holding(lib, s) && Idle(lib, areas, layouts) && cmd.Write?
    requires Meant(layouts, |start.mem|, cmd)
    requires Untouched(layouts, start, lib.flash.chip)
    ensures |s| == |areas|
    ensures var g, p, x := layouts[cmd.area], Pointed(layouts, cmd.src), s[cmd.area];
            && g.nvm.writeSize > 0
            && SourceOk(areas, areas[cmd.area], lib.flash.chip.mem, p, cmd.size)
            && SourceContent(areas, s, lib.flash.chip.mem, p, cmd.size) == SourceValue(start.mem, s, cmd.src, cmd.size)
            && WriteCheck(areas, g, false, g.area + cmd.at, p, cmd.size, false, false) == Done
            && WriteCheck(areas, g, true, g.area + cmd.at, p, cmd.size, true, WholeRange(g, g.area + cmd.at, cmd.size))
                == Done
            && TxReach(areas[cmd.area], g.area + cmd.at, ReachedUnits(g, g.area + cmd.at, cmd.size))
            && |x.data| == g.dataSize && (areas[cmd.area].tracker != null <==> x.staged.Newest?)
            && (x.staged.Newest? ==> |x.staged.data| == g.dataSize)
  {
    hide Layout.SlotSize, Layout.Valid, Valid, Holding, Held, SourceContent, SourceCheck, SourceOk, FirstUnit,
         ReachedUnits, Layout.TrackerSize, WriteCheck, SourceValue, TxReach, Pointed, View, Bystander, Intact,
         StagingOk, Newer;
    var i, c := cmd.area, lib.flash.chip;
    HeldNow(lib, s);
    HeldData(lib, s, c, i);
    SourceReads(lib, layouts, s, cmd, start);
    ValidParts(lib);
    RangeAccepted(areas, layouts[i], cmd.at, Pointed(layouts, cmd.src), cmd.size);
    WriteReach(lib, s, c, i, cmd.at, SourceValue(start.mem, s, cmd.src, cmd.size));
    if areas[i].tracker != null {
      HeldStaged(lib, s, c, i);
    }
  }

  // A transaction starts on an area whose current slot is known; a read of one byte makes it known.
  method Resolve(lib: Library, ctx: Area, ghost i: nat, ghost s: seq<Content>) returns (o: Outcome)
    requires Valid(lib) && Holding(lib, s) && i < |lib.areas| && ctx == lib.areas[i]
    modifies lib.flash, ctx`data
    ensures Confined(ctx.g, ctx.g, old(lib.flash.chip), lib.flash.chip, OnlyRecords)
    ensures lib.flash.cuts == old(lib.flash.cuts) + if o == PowerCut then 1 else 0
    ensures o in {Done, PowerCut} && Valid(lib) && Holding(lib, s)
    ensures SameCurrent(ctx.g, old(lib.flash.chip), lib.flash.chip)
    ensures o == Done ==> ctx.data.At?
    ensures o == PowerCut ==> Persists(lib, s) && ctx.tracker == null
  {
    hide Layout.SlotSize, Layout.Valid, Valid, Holding, Held, Persists, Confined;
    o := Done;
    HeldNow(lib, s);
    HeldData(lib, s, lib.flash.chip, i);
    ReadyIn(lib, ctx);
    ghost var c := lib.flash.chip;
    ValidChip(lib, ctx);
    NothingConfined(ctx.g, ctx.g, lib.flash.chip, OnlyRecords);
    ValidParts(lib);
    if ctx.tracker != null {
      OpenIsResolved(lib, ctx);
    }
    if ctx.data == Invalid {
      SomeData(ctx.g);
      var b;
      o, b := Read(lib, ctx, ctx.g.area, 1, i, s);
    }
    HeldNow(lib, s);
    HeldData(lib, s, lib.flash.chip, i);
    ReadyIn(lib, ctx);
    SameVersionSameCurrent(ctx.g, c, lib.flash.chip);
  }

  lemma SomeData(g: Layout)
    requires g.Valid()
    ensures g.dataSize >= 1
  {
  }

  lemma StartEffect(layouts: seq<Layout>, cmd: Command, open: bool, o: Outcome, c: Chip, mid: Chip, d: Chip)
    requires cmd.Start? && cmd.area < |layouts| && (o.Raised? <==> open)
    requires var g := layouts[cmd.area];
             && Confined(g, g, c, mid, OnlyRecords)
             && (d == mid || (SameCurrent(g, c, mid) && Confined(g, g, mid, d, Within(o, NextSlot))))
             && (o == Done ==> SameCurrent(g, c, mid) && Ready(g, mid) && NextWorn(g, mid, d))
    ensures Confined(layouts[cmd.area], layouts[cmd.area], c, d, Within(o, NextSlot))
    ensures Effect(layouts, cmd, open, o, c, d)
  {
    hide Confined, NextWorn, SameCurrent, Ready;
    var g := layouts[cmd.area];
    if d == mid {
      ConfinedWider(g, g, c, d);
    } else {
      ConfinedTrans(g, g, c, mid, d, OnlyRecords, Within(o, NextSlot));
    }
    if o == Done {
      StartWorn(g, c, mid, d);
    }
    MakeEffect(layouts, cmd.area, cmd, open, o, c, d);
  }

  lemma StartWorn(g: Layout, c: Chip, mid: Chip, d: Chip)
    requires Confined(g, g, c, mid, OnlyRecords) && SameCurrent(g, c, mid) && Ready(g, mid) && NextWorn(g, mid, d)
    ensures Ready(g, c) && NextWorn(g, c, d)
  {
    hide Layout.SlotSize, Layout.SlotBase, Layout.SlotCount, Layout.Valid, View, RingAt, InRecord, InNextSlot;
  }

  // What the areas hold tells their current slots.
  lemma SameVersionSameCurrent(g: Layout, c: Chip, d: Chip)
    requires Ready(g, c) && Ready(g, d) && Version(View(g, c.mem)) == Version(View(g, d.mem))
    ensures SameCurrent(g, c, d)
  {
    hide Layout.SlotSize, Layout.SlotBase, Layout.SlotCount, Layout.Valid, View, Bystander, Intact, Current;
    CommittedLength(g, c);
    CommittedLength(g, d);
    SlotsAreCounted(g, c);
    SlotsAreCounted(g, d);
  }

  lemma SlotsAreCounted(g: Layout, c: Chip)
    requires Ready(g, c)
    ensures |View(g, c.mem)| == g.SlotCount()
  {
    hide Layout.SlotSize, Layout.SlotBase, Layout.SlotCount, Layout.Valid, RingAt;
  }

  method DoStart(lib: Library, areas: seq<Area>, ctx: Area, layouts: seq<Layout>, cmd: Command, ghost s: seq<Content>,
                 ghost start: Chip)
    returns (o: Outcome, ghost t: seq<Content>)
    requires Valid(lib) && Holding(lib, s) && Idle(lib, areas, layouts)
    requires cmd.area < |areas| && ctx == areas[cmd.area] && cmd.Start? && cmd.area < |layouts|
    requires Untouched(layouts, start, lib.flash.chip)
    modifies lib.flash, areas`data, ctx`tracker, ctx`copied
    ensures Untouched(layouts, start, lib.flash.chip)
    ensures |s| == |layouts| && Effect(layouts, cmd, s[cmd.area].staged.Newest?, o, old(lib.flash.chip), lib.flash.chip)
    ensures lib.flash.cuts == old(lib.flash.cuts) + if o == PowerCut then 1 else 0
    ensures |s| == |areas| == |t| && Explains(start.mem, s, cmd, o, t)
    ensures if o == PowerCut then Persists(lib, t) else Valid(lib) && Holding(lib, t) && Idle(lib, areas, layouts)
    ensures o != PowerCut ==>
              Accounts(layouts[cmd.area], cmd, s[cmd.area], t[cmd.area], old(BitsOf(ctx)), BitsOf(ctx), o)
    ensures var tracker := ctx.tracker;
            o == PowerCut || tracker == old(ctx.tracker) || (tracker != null && fresh(tracker))
  {
    hide Layout.SlotSize, Layout.Valid, Valid, Holding, Held, Persists, Layout.TrackerSize, NextWorn, Cleared,
         Ready, Untouched, Confined;
    ghost var i := cmd.area;
    HeldNow(lib, s);
    HeldData(lib, s, lib.flash.chip, i);
    SettledTwice(s);
    ghost var c := lib.flash.chip;
    o := Resolve(lib, ctx, i, s);
    ghost var mid := lib.flash.chip;
    if o == Done {
      var tracker := new bv8[ctx.g.TrackerSize()];
      o := TransactionStart(lib, ctx, tracker, i, s);
    }
    StartEffect(layouts, cmd, s[i].staged.Newest?, o, c, mid, lib.flash.chip);
    ConfinedUntouched(layouts, i, i, start, c, lib.flash.chip, Within(o, NextSlot));
    PersistsSettled(lib, s, AllSettled(s));
    t := if o == PowerCut then AllSettled(s) else if o == Done then s[i := s[i].(staged := Newest(s[i].data))] else s;
  }

  method DoClear(lib: Library, areas: seq<Area>, ctx: Area, layouts: seq<Layout>, cmd: Command, ghost s: seq<Content>,
                 ghost start: Chip)
    returns (o: Outcome, ghost t: seq<Content>)
    requires Valid(lib) && Holding(lib, s) && Idle(lib, areas, layouts)
    requires cmd.area < |areas| && ctx == areas[cmd.area] && cmd.Clear? && cmd.area < |layouts| == |s|
    requires s[cmd.area].version + 1 < MAX_VERSION
    requires Untouched(layouts, start, lib.flash.chip)
    modifies lib.flash, areas`data
    ensures Untouched(layouts, start, lib.flash.chip)
    ensures |s| == |layouts| && Effect(layouts, cmd, s[cmd.area].staged.Newest?, o, old(lib.flash.chip), lib.flash.chip)
    ensures lib.flash.cuts == old(lib.flash.cuts) + if o == PowerCut then 1 else 0
    ensures Explains(start.mem, s, cmd, o, t)
    ensures if o == PowerCut then Persists(lib, t) else Valid(lib) && Holding(lib, t)
  {
    hide Layout.SlotSize, Layout.Valid, Valid, Holding, Held, Persists, UpdateResult, NextWorn, Ready, Untouched,
         Confined;
    HeldNow(lib, s);
    HeldData(lib, s, lib.flash.chip, cmd.area);
    ghost var blank := Repeat(ERASED, |s[cmd.area].data|);
    ghost var c := lib.flash.chip;
    o := EraseAll(lib, ctx, cmd.area, s);
    ConfinedUntouched(layouts, cmd.area, cmd.area, start, c, lib.flash.chip, Within(o, NextSlot));
    t := UpdateExplained(lib, cmd.area, s, blank, o);
    MakeEffect(layouts, cmd.area, cmd, s[cmd.area].staged.Newest?, o, c, lib.flash.chip);
  }

  method DoCommit(lib: Library, areas: seq<Area>, ctx: Area, layouts: seq<Layout>, cmd: Command, ghost s: seq<Content>,
                  ghost start: Chip)
    returns (o: Outcome, ghost t: seq<Content>)
    requires Valid(lib) && Holding(lib, s) && Idle(lib, areas, layouts)
    requires cmd.area < |areas| && ctx == areas[cmd.area] && cmd.Commit? && cmd.area < |layouts| == |s|
    requires s[cmd.area].version + 1 < MAX_VERSION
    requires Untouched(layouts, start, lib.flash.chip)
    modifies lib.flash, areas`data, ctx`tracker, ctx`copied
    ensures Untouched(layouts, start, lib.flash.chip)
    ensures |s| == |layouts| && Effect(layouts, cmd, s[cmd.area].staged.Newest?, o, old(lib.flash.chip), lib.flash.chip)
    ensures lib.flash.cuts == old(lib.flash.cuts) + if o == PowerCut then 1 else 0
    ensures Explains(start.mem, s, cmd, o, t) && |t| == |s|
    ensures if o == PowerCut then Persists(lib, t) else Valid(lib) && Holding(lib, t) && Idle(lib, areas, layouts)
    ensures o != PowerCut ==>
              Accounts(layouts[cmd.area], cmd, s[cmd.area], t[cmd.area], old(BitsOf(ctx)), BitsOf(ctx), o)
    ensures o == PowerCut || ctx.tracker == null
  {
    hide Layout.SlotSize, Layout.Valid, Valid, Holding, Held, Persists, UpdateResult, WearKept, Ready, Untouched,
         Confined;
    HeldNow(lib, s);
    HeldData(lib, s, lib.flash.chip, cmd.area);
    ghost var c := lib.flash.chip;
    o := Commit.TransactionCommit(lib, ctx, cmd.area, s);
    ConfinedUntouched(layouts, cmd.area, cmd.area, start, c, lib.flash.chip, Within(o, NextUnits));
    MakeEffect(layouts, cmd.area, cmd, s[cmd.area].staged.Newest?, o, c, lib.flash.chip);
    t := UpdateExplained(lib, cmd.area, s, NewestOf(s, cmd.area), o);
  }

  method DoAbort(lib: Library, areas: seq<Area>, ctx: Area, layouts: seq<Layout>, cmd: Command, ghost s: seq<Content>,
                 ghost start: Chip)
    returns (o: Outcome, ghost t: seq<Content>)
    requires Valid(lib) && Holding(lib, s) && Idle(lib, areas, layouts)
    requires cmd.area < |areas| && ctx == areas[cmd.area] && cmd.Abort? && cmd.area < |layouts| == |s|
    modifies ctx`tracker, ctx`copied
    ensures o == Done && Explains(start.mem, s, cmd, o, t) && |t| == |s|
    ensures Valid(lib) && Holding(lib, t) && Idle(lib, areas, layouts)
    ensures ctx.tracker == null
    ensures Effect(layouts, cmd, s[cmd.area].staged.Newest?, o, lib.flash.chip, lib.flash.chip)
  {
    hide Layout.SlotSize, Layout.Valid, Valid, Holding, Untouched, Confined;
    ValidChip(lib, ctx);
    NothingConfined(ctx.g, ctx.g, lib.flash.chip, OnlyRecords);
    MakeEffect(layouts, cmd.area, cmd, s[cmd.area].staged.Newest?, Done, lib.flash.chip, lib.flash.chip);
    TransactionAbort(lib, ctx, cmd.area, s);
    o, t := Done, s[cmd.area := s[cmd.area].(staged := NoTransaction)];
  }

  method DoFetch(lib: Library, areas: seq<Area>, ctx: Area, layouts: seq<Layout>, cmd: Command, ghost s: seq<Content>,
                 ghost start: Chip)
    returns (o: Outcome, b: seq<byte>, ghost t: seq<Content>)
    requires Valid(lib) && Holding(lib, s) && Idle(lib, areas, layouts)
    requires cmd.area < |areas| && ctx == areas[cmd.area] && cmd.Fetch? && Meant(layouts, |start.mem|, cmd)
    requires Untouched(layouts, start, lib.flash.chip)
    modifies lib.flash, areas`data
    ensures Untouched(layouts, start, lib.flash.chip)
    ensures |s| == |layouts| && Effect(layouts, cmd, s[cmd.area].staged.Newest?, o, old(lib.flash.chip), lib.flash.chip)
    ensures lib.flash.cuts == old(lib.flash.cuts) + if o == PowerCut then 1 else 0
    ensures |s| == |areas| && Explains(start.mem, s, cmd, o, t) && Delivers(s, cmd, Reply(o, b))
    ensures if o == PowerCut then Persists(lib, t) else Valid(lib) && Holding(lib, t)
  {
    hide Layout.SlotSize, Layout.Valid, Valid, Holding, Held, Persists, Ready, Untouched, Confined;
    HeldNow(lib, s);
    HeldData(lib, s, lib.flash.chip, cmd.area);
    SettledTwice(s);
    ghost var c := lib.flash.chip;
    o, b := Read(lib, ctx, ctx.g.area + cmd.at, cmd.size, cmd.area, s);
    ConfinedUntouched(layouts, cmd.area, cmd.area, start, c, lib.flash.chip, OnlyRecords);
    MakeEffect(layouts, cmd.area, cmd, s[cmd.area].staged.Newest?, o, c, lib.flash.chip);
    PersistsSettled(lib, s, AllSettled(s));
    t := if o == PowerCut then AllSettled(s) else s;
  }

  method DoFetchNewer(lib: Library, areas: seq<Area>, ctx: Area, layouts: seq<Layout>, cmd: Command,
                      ghost s: seq<Content>, ghost start: Chip)
    returns (o: Outcome, b: seq<byte>, ghost t: seq<Content>)
    requires Valid(lib) && Holding(lib, s) && Idle(lib, areas, layouts)
    requires cmd.area < |areas| && ctx == areas[cmd.area] && cmd.FetchNewer? && Meant(layouts, |start.mem|, cmd)
    requires Untouched(layouts, start, lib.flash.chip)
    modifies lib.flash, areas`data
    ensures Untouched(layouts, start, lib.flash.chip)
    ensures |s| == |layouts| && Effect(layouts, cmd, s[cmd.area].staged.Newest?, o, old(lib.flash.chip), lib.flash.chip)
    ensures lib.flash.cuts == old(lib.flash.cuts) + if o == PowerCut then 1 else 0
    ensures |s| == |areas| && Explains(start.mem, s, cmd, o, t) && Delivers(s, cmd, Reply(o, b))
    ensures if o == PowerCut then Persists(lib, t) else Valid(lib) && Holding(lib, t)
  {
    hide Layout.SlotSize, Layout.Valid, Layout.Units, Valid, Holding, Held, Persists, Ready, NewerBytes, FirstUnit,
         WholeUnits, Untouched, Confined, Library.Linked, Current;
    var addr := ctx.g.area + cmd.at;
    ValidParts(lib);
    HeldNow(lib, s);
    NewestSize(lib, s, lib.flash.chip, cmd.area);
    SettledTwice(s);
    RangeInUnits(ctx.g, cmd.at, cmd.size);
    ghost var c := lib.flash.chip;
    o, b := ReadNewer(lib, ctx, addr, cmd.size, cmd.area, s);
    ConfinedUntouched(layouts, cmd.area, cmd.area, start, c, lib.flash.chip, OnlyRecords);
    MakeEffect(layouts, cmd.area, cmd, s[cmd.area].staged.Newest?, o, c, lib.flash.chip);
    if o == Done {
      NewerWholeUnits(ctx.g, s[cmd.area], addr, cmd.size, b);
    }
    PersistsSettled(lib, s, AllSettled(s));
    t := if o == PowerCut then AllSettled(s) else s;
  }

  lemma NewestSize(lib: Library, s: seq<Content>, c: Chip, i: nat)
    requires Held(lib, s, c) && i < |lib.areas|
    ensures |s| == |lib.areas| && |Visible(s[i])| == |s[i].data| == lib.areas[i].g.dataSize
  {
    hide Layout.Valid, View, Bystander, Intact, StagingOk, Newer, Held;
    HeldData(lib, s, c, i);
    if lib.areas[i].tracker != null {
      HeldStaged(lib, s, c, i);
    }
  }

  // A range inside the data keeps to the units of the area.
  lemma RangeInUnits(g: Layout, at: nat, size: nat)
    requires g.Valid() && at + size <= g.dataSize
    ensures FirstUnit(g, g.area + at) + WholeUnits(g, size) <= g.Units()
  {
    hide Layout.SlotSize, Layout.Units, FirstUnit, WholeUnits;
    var w := g.nvm.writeSize;
    Reading.UnitFloor(g, g.area + at, size);
    UnitsAreData(g);
    Arithmetic.SumOfProducts(FirstUnit(g, g.area + at), WholeUnits(g, size), w);
    NoMoreUnits(FirstUnit(g, g.area + at) + WholeUnits(g, size), g.Units(), w);
  }

  // All versions are at least n updates away from the end of the version budget.
  predicate Budget(s: seq<Content>, n: nat) {
    forall i :: 0 <= i < |s| ==> s[i].version + n < MAX_VERSION
  }

  lemma BudgetStep(rom: seq<byte>, s: seq<Content>, cmd: Command, o: Outcome, t: seq<Content>, n: nat)
    requires Explains(rom, s, cmd, o, t) && Budget(s, n + 1)
    ensures Budget(t, n)
  {
    hide SourceValue, Patched;
  }

  lemma BudgetFacts(s: seq<Content>, n: nat)
    requires Budget(s, n)
    ensures Budget(AllSettled(s), n) && (n >= 1 ==> Budget(s, 1))
  {
  }

  lemma FreshIsIdle(lib: Library, areas: seq<Area>, layouts: seq<Layout>)
    requires Fresh(lib, layouts, |layouts|) && lib.areas == areas
    ensures Idle(lib, areas, layouts) && forall a :: a in areas ==> a.tracker == null
  {
  }

  // One command.
  method Execute(lib: Library, areas: seq<Area>, ctx: Area, layouts: seq<Layout>, cmd: Command, ghost s: seq<Content>,
                 ghost start: Chip)
    returns (o: Outcome, b: seq<byte>, ghost t: seq<Content>)
    requires Valid(lib) && Holding(lib, s) && Idle(lib, areas, layouts)
    requires cmd.area < |areas| && ctx == areas[cmd.area] && Meant(layouts, |start.mem|, cmd)
    requires |s| == |layouts| && Budget(s, 1)
    requires Untouched(layouts, start, lib.flash.chip)
    modifies lib.flash, areas`data, ctx`tracker, ctx`copied
    modifies if ctx.tracker == null then {} else {ctx.tracker}
    ensures Untouched(layouts, start, lib.flash.chip)
    ensures |s| == |layouts| && Effect(layouts, cmd, s[cmd.area].staged.Newest?, o, old(lib.flash.chip), lib.flash.chip)
    ensures lib.flash.cuts == old(lib.flash.cuts) + if o == PowerCut then 1 else 0
    ensures Explains(start.mem, s, cmd, o, t) && Delivers(s, cmd, Reply(o, b)) && |t| == |s|
    ensures if o == PowerCut then Persists(lib, t) else Valid(lib) && Holding(lib, t) && Idle(lib, areas, layouts)
    ensures o != PowerCut ==>
              Accounts(layouts[cmd.area], cmd, s[cmd.area], t[cmd.area], old(BitsOf(ctx)), BitsOf(ctx), o)
    ensures var tracker := ctx.tracker;
            o == PowerCut || tracker == old(ctx.tracker) || tracker == null || fresh(tracker)
  {
    hide Layout.SlotSize, Layout.Valid, Valid, Holding, Persists, Explains, WriteAccounted, Cleared, BitsOf,
         Untouched, Confined, Effect, Library.Linked, OwnTrackers, Meant;
    b := [];
    match cmd {
      case Write(_, _, _, _) => o, t := DoWrite(lib, areas, ctx, layouts, cmd, s, start);
      case Clear(_) => o, t := DoClear(lib, areas, ctx, layouts, cmd, s, start);
      case Start(_) => o, t := DoStart(lib, areas, ctx, layouts, cmd, s, start);
      case Commit(_) => o, t := DoCommit(lib, areas, ctx, layouts, cmd, s, start);
      case Abort(_) =>
        o, t := DoAbort(lib, areas, ctx, layouts, cmd, s, start);
        NoBits(ctx);
      case Fetch(_, _, _) => o, b, t := DoFetch(lib, areas, ctx, layouts, cmd, s, start);
      case FetchNewer(_, _, _) => o, b, t := DoFetchNewer(lib, areas, ctx, layouts, cmd, s, start);
    }
    ExplainsLength(start.mem, s, cmd, o, t);
  }

  lemma NoBits(x: Area)
    ensures x.tracker == null ==> BitsOf(x) == []
  {
  }

  lemma ExplainsLength(rom: seq<byte>, s: seq<Content>, cmd: Command, o: Outcome, t: seq<Content>)
    requires Explains(rom, s, cmd, o, t)
    ensures |t| == |s|
  {
  }

  lemma LongerRun(layouts: seq<Layout>, rom: seq<byte>, cmds: seq<Command>, replies: seq<Reply>, states: seq<State>,
                  k: nat, r: Reply, y: State)
    requires k < |cmds| && Run(layouts, rom, cmds[..k], replies, states)
    requires StepOf(layouts, rom, states[k], cmds[k], r, y)
    ensures Run(layouts, rom, cmds[..k + 1], replies + [r], states + [y])
  {
    hide StepOf;
    var states2, replies2 := states + [y], replies + [r];
    forall j | 0 <= j < k + 1
      ensures StepOf(layouts, rom, states2[j], cmds[..k + 1][j], replies2[j], states2[j + 1])
    {
      assert j < k ==> cmds[..k + 1][j] == cmds[..k][j];
    }
  }

  lemma EmptyRun(layouts: seq<Layout>, rom: seq<byte>, x: State)
    ensures Run(layouts, rom, [], [], [x])
  {
  }

  lemma SurvivesLength(flash: Device, layouts: seq<Layout>, s: seq<Content>)
    requires Survives(flash, layouts, s)
    ensures |s| == |layouts|
  {
  }

  lemma SameLayouts(lib: Library, areas: seq<Area>, layouts: seq<Layout>)
    requires lib.areas == areas && |areas| == |layouts| && forall i :: 0 <= i < |areas| ==> areas[i].g == layouts[i]
    ensures LayoutsOf(lib) == layouts
  {
  }

  lemma SettledAfterCut(rom: seq<byte>, s: seq<Content>, cmd: Command, t: seq<Content>)
    requires Explains(rom, s, cmd, PowerCut, t)
    ensures AllSettled(t) == t
  {
    hide SourceValue, Patched;
  }

  // The library is between two calls and in state x.
  ghost predicate InState(lib: Library, areas: seq<Area>, layouts: seq<Layout>, x: State)
    reads lib, lib.areas, lib.flash, set a | a in lib.areas :: a.tracker, areas, set a | a in areas :: a.tracker
  {
    && Valid(lib) && Idle(lib, areas, layouts)
    && |x.contents| == |layouts| && Holding(lib, x.contents) && Tracks(areas, x.marks)
  }

  // Nothing of the state before a reset that is not in the memory survives it.
  method Reset(flash: Device, layouts: seq<Layout>, ghost s: seq<Content>)
    returns (lib: Library, areas: seq<Area>, ghost x: State)
    requires Survives(flash, layouts, s)
    ensures fresh(lib) && fresh(areas) && lib.flash == flash && forall a :: a in areas ==> a.tracker == null
    ensures x == Initial(s) && InState(lib, areas, layouts, x)
  {
    hide Valid, Holding, Survives, AllSettled;
    SurvivesLength(flash, layouts, s);
    lib, areas := Boot(flash, layouts, s);
    FreshIsIdle(lib, areas, layouts);
    x := Initial(s);
  }

  // Different areas have different trackers.
  lemma Separate(lib: Library, areas: seq<Area>, i: nat)
    requires Valid(lib) && lib.areas == areas && i < |areas|
    ensures forall j :: 0 <= j < |areas| && j != i ==>
              areas[j] != areas[i] && (areas[j].tracker == null || areas[j].tracker != areas[i].tracker)
  {
    hide Area.Ok, Layout.Valid, Apart;
  }

  // One command, and the state it leaves unless the power fails.
  method Carry(lib: Library, areas: seq<Area>, layouts: seq<Layout>, cmd: Command, ghost x: State, ghost start: Chip)
    returns (r: Reply, ghost y: State)
    requires InState(lib, areas, layouts, x) && Untouched(layouts, start, lib.flash.chip)
    requires Meant(layouts, |start.mem|, cmd) && Budget(x.contents, 1)
    modifies lib.flash, areas`data, areas`tracker, areas`copied, TrackerSet(areas)
    ensures lib.flash.cuts == old(lib.flash.cuts) + if r.outcome == PowerCut then 1 else 0
    ensures Untouched(layouts, start, lib.flash.chip)
    ensures Effect(layouts, cmd, OpenIn(x, cmd.area), r.outcome, old(lib.flash.chip), lib.flash.chip)
    ensures Explains(start.mem, x.contents, cmd, r.outcome, y.contents) && Delivers(x.contents, cmd, r)
    ensures if r.outcome == PowerCut then Persists(lib, y.contents)
            else InState(lib, areas, layouts, y) && StepOf(layouts, start.mem, x, cmd, r, y)
    ensures r.outcome == PowerCut || forall x :: x in TrackerSet(areas) ==> fresh(x) || x in old(TrackerSet(areas))
  {
    hide Layout.SlotSize, Layout.Valid, Valid, Holding, Persists, Explains, Delivers, Accounts, Budget, Untouched,
         Effect;
    ghost var i := cmd.area;
    var ctx := areas[cmd.area];
    Separate(lib, areas, i);
    var o, b;
    ghost var t;
    o, b, t := Execute(lib, areas, ctx, layouts, cmd, x.contents, start);
    r := Reply(o, b);
    y := State(t, x.marks[i := BitsOf(ctx)]);
    if o != PowerCut {
      forall j | 0 <= j < |areas|
        ensures BitsOf(areas[j]) == y.marks[j]
      {
        assert j != i ==> BitsOf(areas[j]) == x.marks[j];
      }
    }
  }

  lemma CutStep(layouts: seq<Layout>, rom: seq<byte>, x: State, cmd: Command, r: Reply, y: State)
    requires Explains(rom, x.contents, cmd, PowerCut, y.contents) && Delivers(x.contents, cmd, r)
    requires r.outcome == PowerCut
    requires cmd.area < |layouts| == |x.contents| == |x.marks| && y.marks == seq(|layouts|, _ => [])
    ensures StepOf(layouts, rom, x, cmd, r, y)
  {
    hide Explains, Delivers;
  }

  lemma StepBudget(layouts: seq<Layout>, rom: seq<byte>, x: State, cmd: Command, r: Reply, y: State, n: nat)
    requires StepOf(layouts, rom, x, cmd, r, y) && Budget(x.contents, n + 1)
    ensures Budget(y.contents, n)
  {
    hide Explains, Budget, Delivers, Accounts;
    BudgetStep(rom, x.contents, cmd, r.outcome, y.contents, n);
  }

  // One command, followed by a reset if the power fails.
  method Perform(lib: Library, areas: seq<Area>, layouts: seq<Layout>, cmd: Command, ghost x: State, ghost start: Chip)
    returns (r: Reply, lib2: Library, areas2: seq<Area>, ghost y: State)
    requires InState(lib, areas, layouts, x) && Untouched(layouts, start, lib.flash.chip)
    requires Meant(layouts, |start.mem|, cmd) && Budget(x.contents, 1)
    modifies lib.flash, areas`data, areas`tracker, areas`copied, TrackerSet(areas)
    ensures lib.flash.cuts == old(lib.flash.cuts) + if r.outcome == PowerCut then 1 else 0
    ensures Untouched(layouts, start, lib.flash.chip)
    ensures Effect(layouts, cmd, OpenIn(x, cmd.area), r.outcome, old(lib.flash.chip), lib.flash.chip)
    ensures lib2.flash == lib.flash && InState(lib2, areas2, layouts, y) && StepOf(layouts, start.mem, x, cmd, r, y)
    ensures (lib2 == lib && areas2 == areas) || (fresh(lib2) && fresh(areas2))
    ensures forall x :: x in TrackerSet(areas2) ==> fresh(x) || x in old(TrackerSet(areas))
  {
    hide Layout.SlotSize, Layout.Valid, Valid, Holding, Persists, Explains, Delivers, Accounts, Budget, AllSettled,
         Meant, Untouched, Effect;
    lib2, areas2 := lib, areas;
    MeantArea(layouts, start.mem, cmd);
    r, y := Carry(lib, areas, layouts, cmd, x, start);
    if r.outcome == PowerCut {
      SameLayouts(lib, areas, layouts);
      PersistsSurvives(lib, y.contents);
      SettledAfterCut(start.mem, x.contents, cmd, y.contents);
      ghost var t := y.contents;
      lib2, areas2, y := Reset(lib.flash, layouts, t);
      CutStep(layouts, start.mem, x, cmd, r, y);
    }
  }

  lemma MeantArea(layouts: seq<Layout>, rom: seq<byte>, cmd: Command)
    requires Meant(layouts, |rom|, cmd)
    ensures cmd.area < |layouts|
  {
  }

  lemma OneMoreReply(replies: seq<Reply>, r: Reply)
    ensures Cuts(replies + [r]) == Cuts(replies) + if r.outcome == PowerCut then 1 else 0
  {
    assert (replies + [r])[..|replies|] == replies;
  }

  // Carries out any program of commands on any areas, with the power failing at any number of points
  // and a reset after each failure. Every command has its meaning or, if the power really fails in it,
  // all or nothing of it; every read delivers what the areas hold; afterwards the areas hold just what
  // that comes to, and no byte outside them has changed.
  method RunProgram(flash: Device, layouts: seq<Layout>, cmds: seq<Command>, ghost s: seq<Content>)
    returns (lib: Library, replies: seq<Reply>, ghost states: seq<State>, ghost chips: seq<Chip>)
    requires flash.chip.Valid() && Survives(flash, layouts, s) && Budget(s, |cmds|)
    requires forall k :: 0 <= k < |cmds| ==> Meant(layouts, |flash.chip.mem|, cmds[k])
    modifies flash
    ensures flash.cuts == old(flash.cuts) + Cuts(replies)
    ensures Untouched(layouts, old(flash.chip), flash.chip)
    ensures Run(layouts, old(flash.chip).mem, cmds, replies, states)
    ensures Trace(layouts, cmds, replies, states, chips)
    ensures chips[0] == old(flash.chip) && chips[|cmds|] == flash.chip
    ensures states[0] == Initial(s) && Sized(layouts, states[0].contents)
    ensures lib.flash == flash && Valid(lib) && Holding(lib, states[|cmds|].contents) && LayoutsOf(lib) == layouts
  {
    hide Layout.SlotSize, Layout.Valid, Valid, Holding, Meant, Survives, Run, StepOf, AllSettled, Budget, InState,
         Untouched, Sized, Library.Linked, OwnTrackers, Tracks, Idle, Trace, Effect, Shows;
    ghost var start := flash.chip;
    UntouchedNow(layouts, start);
    var areas;
    ghost var x;
    lib, areas, x := Reset(flash, layouts, s);
    StateSized(lib, areas, layouts, x);
    BudgetFacts(s, |cmds|);
    replies, states, chips := [], [x], [start];
    EmptyRun(layouts, start.mem, x);
    StateShows(lib, areas, layouts, x);
    EmptyTrace(layouts, x, start);
    assert cmds[..0] == [];
    var k := 0;
    while k < |cmds|
      invariant 0 <= k <= |cmds| && |states| == k + 1 && states[k] == x && states[0] == Initial(s)
      invariant fresh(lib) && fresh(areas) && lib.flash == flash
      invariant forall x :: x in TrackerSet(areas) ==> fresh(x)
      invariant flash.cuts == old(flash.cuts) + Cuts(replies) && Untouched(layouts, start, flash.chip)
      invariant Budget(x.contents, |cmds| - k)
      invariant InState(lib, areas, layouts, x)
      invariant Run(layouts, start.mem, cmds[..k], replies, states)
      invariant Trace(layouts, cmds[..k], replies, states, chips) && |chips| == k + 1
      invariant chips[0] == start && chips[k] == flash.chip
    {
      ghost var before := x;
      var r;
      BudgetFacts(x.contents, |cmds| - k);
      r, lib, areas, x := Perform(lib, areas, layouts, cmds[k], before, start);
      StepBudget(layouts, start.mem, before, cmds[k], r, x, |cmds| - k - 1);
      StateShows(lib, areas, layouts, x);
      LongerTrace(layouts, cmds, replies, states, chips, k, r, x, flash.chip);
      LongerRun(layouts, start.mem, cmds, replies, states, k, r, x);
      OneMoreReply(replies, r);
      replies, states, chips := replies + [r], states + [x], chips + [flash.chip];
      k := k + 1;
    }
    assert cmds[..k] == cmds;
    StateParts(lib, areas, layouts, x);
    SameLayouts(lib, areas, layouts);
  }

  lemma StateShows(lib: Library, areas: seq<Area>, layouts: seq<Layout>, x: State)
    requires InState(lib, areas, layouts, x)
    ensures Shows(layouts, lib.flash.chip, x.contents)
  {
    hide Layout.Valid, View, RingAt, Tearing.WholeWords, Apart, Valid, Holding, Tracks, Held, StagingOk, Newer,
         Library.Linked;
    var s, c := x.contents, lib.flash.chip;
    HeldNow(lib, s);
    forall i | 0 <= i < |layouts|
      ensures Ready(layouts[i], c) && Recovered(layouts[i], c) == Settled(s[i])
    {
      ReadyIn(lib, areas[i]);
      HeldData(lib, s, c, i);
    }
  }

  lemma EmptyTrace(layouts: seq<Layout>, x: State, c: Chip)
    requires Shows(layouts, c, x.contents)
    ensures Trace(layouts, [], [], [x], [c])
  {
    hide Shows;
  }

  lemma LongerTrace(layouts: seq<Layout>, cmds: seq<Command>, replies: seq<Reply>, states: seq<State>,
                    chips: seq<Chip>, k: nat, r: Reply, y: State, d: Chip)
    requires k < |cmds| && Trace(layouts, cmds[..k], replies, states, chips) && Shows(layouts, d, y.contents)
    requires Effect(layouts, cmds[k], OpenIn(states[k], cmds[k].area), r.outcome, chips[k], d)
    ensures Trace(layouts, cmds[..k + 1], replies + [r], states + [y], chips + [d])
  {
    hide Shows, Effect;
    assert forall j :: 0 <= j < k ==> cmds[..k + 1][j] == cmds[..k][j];
  }

  lemma StateSized(lib: Library, areas: seq<Area>, layouts: seq<Layout>, x: State)
    requires InState(lib, areas, layouts, x)
    ensures Sized(layouts, x.contents)
  {
    hide Valid, Holding, Held, Tracks;
    HeldNow(lib, x.contents);
    forall j | 0 <= j < |layouts|
      ensures |x.contents[j].data| == |Visible(x.contents[j])| == layouts[j].dataSize
    {
      NewestSize(lib, x.contents, lib.flash.chip, j);
    }
  }

  lemma UntouchedNow(layouts: seq<Layout>, c: Chip)
    requires c.Valid()
    ensures Untouched(layouts, c, c)
  {
  }

  lemma StateParts(lib: Library, areas: seq<Area>, layouts: seq<Layout>, x: State)
    requires InState(lib, areas, layouts, x)
    ensures Valid(lib) && Holding(lib, x.contents) && Idle(lib, areas, layouts)
  {
  }
}
