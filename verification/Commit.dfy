/** Committing a transaction: copying what it left alone, and sealing the slot it filled. */
module Commit {
  import opened Areas
  import opened Arithmetic
  import opened Bytes
  import opened Contents
  import opened Flash
  import opened Ftl
  import opened Geometry
  import opened Operations
  import opened Registry
  import opened Ring
  import opened Slots
  import opened Staging
  import opened Tearing
  import opened Tracker
  import opened Transactions
  import opened Updates
  import Writing

  // Unit k of the data spans these bytes.
  lemma UnitPlace(g: Layout, k: nat)
    requires g.Valid() && k < g.Units()
    ensures k * g.nvm.writeSize + g.nvm.writeSize <= g.dataSize
    ensures (k * g.nvm.writeSize) % g.nvm.writeSize == 0
    ensures (g.area + k * g.nvm.writeSize) % g.nvm.writeSize == 0
    ensures g.nvm.writeSize % g.nvm.writeSize == 0
    ensures forall j :: 0 <= j < g.dataSize ==>
              (UnitOf(g, j) == k <==> k * g.nvm.writeSize <= j < k * g.nvm.writeSize + g.nvm.writeSize)
  {
    hide Layout.SlotSize;
    var w := g.nvm.writeSize;
    assert g.dataSize == (g.dataSize / w) * w;
    MulMonotone(k + 1, g.dataSize / w, w);
    MulMod(k, w);
    ModAdd(g.area, k * w, w);
    ModUnique(w, w, 1, 0);
    SumOfProducts(k, 1, w);
    forall j | 0 <= j < g.dataSize
      ensures UnitOf(g, j) == k <==> k * w <= j < k * w + w
    {
      UnitRange(g, k, 1, j);
    }
  }

  // Looking at one more unit, which need not be copied if it is marked.
  lemma OneMoreUnit(g: Layout, bits: seq<bv8>, k: nat)
    requires g.Valid() && k < g.Units()
    ensures MarksBytes(g, Marks(bits, k), Marks(bits, k + 1), k * g.nvm.writeSize, g.nvm.writeSize)
  {
    hide Layout.SlotSize, Layout.Valid, Marked, UnitOf;
    UnitPlace(g, k);
  }

  lemma MarkedUnitIsTaken(g: Layout, c: Chip, bits: seq<bv8>, k: nat)
    requires Ready(g, c) && Marked(bits, k)
    ensures StagingOk(g, c, Next(View(g, c.mem)), Marks(bits, k)) ==>
              StagingOk(g, c, Next(View(g, c.mem)), Marks(bits, k + 1))
    ensures Newer(g, c.mem, Marks(bits, k + 1)) == Newer(g, c.mem, Marks(bits, k))
  {
    hide View, Bystander, Intact, Marked, UnitOf, Layout.SlotSize, Layout.SlotBase;
    assert forall j: nat :: Taken(Marks(bits, k + 1), j) <==> Taken(Marks(bits, k), j);
    var x, y := Newer(g, c.mem, Marks(bits, k + 1)), Newer(g, c.mem, Marks(bits, k));
    assert forall j :: 0 <= j < |x| ==> x[j] == y[j];
  }

  lemma SpliceSame(b: seq<byte>, d: seq<byte>, at: nat, n: nat)
    requires at + n <= |d| && SameIn(b, d, at, n)
    ensures Splice(b, at, d[at..at + n]) == b
  {
    var x := Splice(b, at, d[at..at + n]);
    assert forall j :: 0 <= j < |b| ==> x[j] == b[j];
  }

  // Copying committed bytes to where nothing was staged makes no difference to the newer data.
  lemma CopyIsNeutral(g: Layout, c: Chip, marks: Marks, at: nat, n: nat)
    requires Ready(g, c) && at + n <= g.dataSize
    requires forall j :: at <= j < at + n && j < g.dataSize ==> !Taken(marks, UnitOf(g, j))
    ensures |Committed(View(g, c.mem))| == g.dataSize
    ensures var d := Committed(View(g, c.mem));
            && Splice(Newer(g, c.mem, marks), at, d[at..at + n]) == Newer(g, c.mem, marks)
            && Splice(d, at, d[at..at + n]) == d
  {
    hide View, Bystander, Intact, Taken, UnitOf, Layout.SlotSize, Layout.Valid, Splice, Newer;
    CommittedLength(g, c);
    UnstagedRange(g, c, marks, at, n);
    var d := Committed(View(g, c.mem));
    SpliceSame(Newer(g, c.mem, marks), d, at, n);
    SpliceSame(d, d, at, n);
  }

  // Nothing was staged in a unit that is neither marked nor copied.
  lemma UntakenUnit(g: Layout, bits: seq<bv8>, k: nat)
    requires g.Valid() && k < g.Units() && !Marked(bits, k)
    ensures forall j :: k * g.nvm.writeSize <= j < k * g.nvm.writeSize + g.nvm.writeSize && j < g.dataSize ==>
              !Taken(Marks(bits, k), UnitOf(g, j))
  {
    hide Layout.SlotSize, Layout.Valid, Marked, UnitOf;
    UnitPlace(g, k);
  }

  lemma UntakenUnitBlank(g: Layout, c: Chip, bits: seq<bv8>, k: nat)
    requires Ready(g, c) && k < g.Units() && !Marked(bits, k)
    requires StagingOk(g, c, Next(View(g, c.mem)), Marks(bits, k))
    ensures RangeBlank(g, c, k * g.nvm.writeSize, k * g.nvm.writeSize + g.nvm.writeSize)
  {
    hide View, Bystander, Intact, Marked, UnitOf, Layout.SlotSize, Layout.Valid, Layout.SlotBase, Layout.SlotCount,
         StagingOk;
    UnitPlace(g, k);
    var w := g.nvm.writeSize;
    forall j | k * w <= j < k * w + w && 0 <= j < g.dataSize
      ensures NextBlank(g, c, j)
    {
      assert UnitOf(g, j) == k;
      UntakenBlank(g, c, Next(View(g, c.mem)), Marks(bits, k), j);
    }
  }

  // ---------------------------------------------------------------- commit

  // One more unit of the transaction was looked at; nothing else changes.
  method Advance(lib: Library, x: Area, k: nat, ghost i: nat, ghost s: seq<Content>, ghost c: Chip, ghost mid: Chip)
    requires Around(lib, x, c, mid) && HeldExcept(lib, s, c, i) && i < |lib.areas| && x == lib.areas[i]
    modifies x`copied
    ensures Around(lib, x, c, mid) && HeldExcept(lib, s, c, i) && x.copied == k
  {
    hide Same, WholeWords, TxOk, ContentOf, StateOk, OwnTrackers, Layout.Valid;
    x.copied := k;
  }

  lemma UnitAddress(g: Layout, k: nat, addr: nat)
    requires g.Valid() && k < g.Units() && addr == g.area + k * g.nvm.writeSize
    ensures addr % g.nvm.writeSize == 0 && addr - addr % g.nvm.writeSize - g.area == k * g.nvm.writeSize
    ensures AlignedSize(g, addr, g.nvm.writeSize) == g.nvm.writeSize
    ensures addr - g.area + g.nvm.writeSize <= g.dataSize
    ensures RangeCheck(g, addr, g.nvm.writeSize) == Done
  {
    hide Layout.SlotSize, Layout.Valid;
    UnitPlace(g, k);
  }

  // write_core has nothing to object to when commit hands it one unit.
  lemma UnitWrite(areas: seq<Area>, g: Layout, addr: nat, buf: seq<byte>)
    requires g.nvm.writeSize > 0 && addr % g.nvm.writeSize == 0
    requires AlignedSize(g, addr, g.nvm.writeSize) == g.nvm.writeSize
    requires RangeCheck(g, addr, g.nvm.writeSize) == Done
    ensures WriteCheck(areas, g, true, addr, Ram(buf, 0), g.nvm.writeSize, true, true) == Done
  {
    ModUnique(g.nvm.writeSize, g.nvm.writeSize, 1, 0);
  }

  lemma CopyImage(lib: Library, x: Area, s: seq<Content>, c: Chip, i: nat, addr: nat, buf: seq<byte>)
    requires Held(lib, s, c) && i < |lib.areas| && x == lib.areas[i]
    requires Writable(lib.areas, x.g, c, addr, Ram(buf, 0), |buf|)
    requires i < |s| && addr - x.g.area + |buf| <= |s[i].data|
    requires buf == s[i].data[addr - x.g.area..addr - x.g.area + |buf|]
    ensures Image(lib.areas, x.g, c, addr, Ram(buf, 0), |buf|) == s[i].data
  {
    hide View, RingAt, StagingOk, Newer, Layout.SlotSize, Layout.Valid, Splice, Image, Held, Ready;
    ImageIsWritten(lib, s, c, i, addr, Ram(buf, 0), |buf|);
    assert buf[0..|buf|] == buf;
    SpliceSame(s[i].data, s[i].data, addr - x.g.area, |buf|);
  }

  // The unit was copied, and is now counted as copied.
  lemma CopyDone(lib: Library, x: Area, i: nat, s: seq<Content>, c: Chip, mid: Chip, k: nat, at: nat)
    requires Around(lib, x, c, mid) && HeldExcept(lib, s, c, i) && i < |lib.areas| && x == lib.areas[i]
    requires x.tracker != null && x.copied == k + 1 && k < x.g.Units() && !Marked(x.tracker[..], k)
    requires StateOk(x.g, mid, x.data, Open(Marks(x.tracker[..], k)))
    requires s[i] == ContentOf(x.g, mid, Open(Marks(x.tracker[..], k)))
    requires at == k * x.g.nvm.writeSize && at + x.g.nvm.writeSize <= x.g.dataSize == |s[i].data|
    requires lib.flash.chip == Filled(x.g, mid, Next(View(x.g, mid.mem)), at, s[i].data[at..at + x.g.nvm.writeSize])
    ensures Valid(lib) && Holding(lib, s)
  {
    hide Layout.SlotSize, Layout.SlotCount, Layout.SlotBase, Layout.Valid, View, Bystander, Intact, Same,
         SameOutside, StagingOk, WholeWords, Area.Ok, Filled, Taken, UnitOf, OpenedUp, Newer, OwnTrackers, Marked,
         MarksBytes, Splice, Current;
    assert x in lib.areas && x.flash == lib.flash;
    var bits := x.tracker[..];
    var seg := s[i].data[at..at + x.g.nvm.writeSize];
    OneMoreUnit(x.g, bits, k);
    StageStep(x.g, mid, lib.flash.chip, Marks(bits, k), Marks(bits, k + 1), at, seg);
    UntakenUnit(x.g, bits, k);
    CopyIsNeutral(x.g, mid, Marks(bits, k), at, x.g.nvm.writeSize);
    OkOf(x);
    AllTrans(lib, x, c, mid, i);
    HoldingAfter(lib, s, i, c);
    assert s[i := ContentOf(x.g, lib.flash.chip, x.Tx())] == s;
  }

  // One round of the commit loop for a unit not marked in the tracker.
  method CopyUnit(lib: Library, ctx: Area, addr: nat, k: nat, ghost i: nat, ghost s: seq<Content>) returns (o: Outcome)
    requires Valid(lib) && Holding(lib, s) && i < |lib.areas| && ctx == lib.areas[i]
    requires ctx.tracker != null && ctx.copied == k < ctx.g.Units() && !Marked(ctx.tracker[..], k)
    requires addr == ctx.g.area + k * ctx.g.nvm.writeSize
    modifies lib.flash, lib.areas`data, ctx`copied
    ensures lib.flash.cuts == old(lib.flash.cuts) + if o == PowerCut then 1 else 0
    ensures o in {Done, PowerCut}
    ensures o == Done ==> Valid(lib) && Holding(lib, s) && ctx.copied == k + 1
    ensures o == PowerCut ==> Persists(lib, s)
    ensures Confined(ctx.g, ctx.g, old(lib.flash.chip), lib.flash.chip, NextUnits)
    ensures o == Done ==> Steady(ctx.g, old(lib.flash.chip), lib.flash.chip)
  {
    hide Layout.SlotSize, Layout.SlotCount, Layout.SlotBase, Layout.Valid, View, RingAt, Same, SameOutside,
         StagingOk, WholeWords, WearKept, Steady, Confined, SourceLayout, SameCurrent, Area.Ok, Marked, Valid,
         Holding, Held, HeldExcept, Persists, Around, WriteOutcome, StateOk, Filled, SourceContent, RangeBlank,
         Image, WriteCheck, AlignedSize, ContentOf, OwnTrackers, Library.Linked;
    ghost var c := lib.flash.chip;
    var writeSize := ctx.g.nvm.writeSize;
    HeldNow(lib, s);
    HeldData(lib, s, c, i);
    HeldStaged(lib, s, c, i);
    StatesOf(lib);
    ghost var tx := ctx.Tx();
    StateAt(ctx.g, c, ctx.data, tx);
    ValidParts(lib);
    UnitAddress(ctx.g, k, addr);
    var buf;
    o, buf := Read(lib, ctx, addr, writeSize, i, s);
    UnitWrite(lib.areas, ctx.g, addr, buf);
    UntakenUnitBlank(ctx.g, c, ctx.tracker[..], k);
    ghost var mid;
    o, mid := WriteCore(lib, ctx, addr, Ram(buf, 0), writeSize, true, true);
    RamLayout(lib.areas, ctx.g, buf);
    AtMid(lib, ctx, i, s, c, mid);
    if o == PowerCut {
      if lib.flash.chip == mid {
        HoldingSame(lib, s, ctx, i, c);
      } else {
        WriteMarkedCut(lib, ctx, i, s, c, mid, addr, Ram(buf, 0), writeSize);
      }
    } else {
      WrittenKeepsWear(lib, ctx, c, mid, addr, Ram(buf, 0), writeSize);
      WrittenWhere(lib, ctx, c, mid, addr, Ram(buf, 0), writeSize);
      CopyImage(lib, ctx, s, c, i, addr, buf);
      Advance(lib, ctx, k + 1, i, s, c, mid);
      CopyDone(lib, ctx, i, s, c, mid, k, k * writeSize);
      StatesOf(lib);
      SamePointer(ctx.g, c, lib.flash.chip, ctx.data, tx, ctx.Tx());
      SteadyParts(ctx.g, c, lib.flash.chip);
    }
  }

  // A unit that is marked is only counted.
  method SkipUnit(lib: Library, ctx: Area, k: nat, ghost i: nat, ghost s: seq<Content>)
    requires Valid(lib) && Holding(lib, s) && i < |lib.areas| && ctx == lib.areas[i]
    requires ctx.tracker != null && ctx.copied == k && Marked(ctx.tracker[..], k)
    modifies ctx`copied
    ensures Valid(lib) && Holding(lib, s) && ctx.copied == k + 1
  {
    hide Layout.SlotSize, Layout.SlotCount, Layout.SlotBase, Layout.Valid, View, RingAt, Same, StagingOk,
         WholeWords, Area.Ok, Marked, Valid, Holding, Held, HeldExcept, Around, StateOk, OwnTrackers,
         Library.Linked, Newer;
    ghost var c := lib.flash.chip;
    HeldNow(lib, s);
    HeldData(lib, s, c, i);
    ExceptHeld(lib, s, c, i);
    StatesOf(lib);
    ValidParts(lib);
    AllSame(lib);
    NothingElse(lib, ctx, c, c);
    AtMid(lib, ctx, i, s, c, c);
    Advance(lib, ctx, k + 1, i, s, c, c);
    SkipDone(lib, ctx, i, s, c, k);
  }

  lemma SkipDone(lib: Library, x: Area, i: nat, s: seq<Content>, c: Chip, k: nat)
    requires Around(lib, x, c, c) && HeldExcept(lib, s, c, i) && i < |lib.areas| && x == lib.areas[i]
    requires c == lib.flash.chip
    requires x.tracker != null && x.copied == k + 1 && Marked(x.tracker[..], k)
    requires StateOk(x.g, c, x.data, Open(Marks(x.tracker[..], k)))
    requires s[i] == ContentOf(x.g, c, Open(Marks(x.tracker[..], k)))
    ensures Valid(lib) && Holding(lib, s)
  {
    hide Layout.SlotSize, Layout.SlotCount, Layout.SlotBase, Layout.Valid, View, Bystander, Intact, Same, StagingOk,
         WholeWords, Area.Ok, Newer, OwnTrackers, Marked;
    assert x in lib.areas && x.flash == lib.flash;
    MarkedUnitIsTaken(x.g, c, x.tracker[..], k);
    OkOf(x);
    AllTrans(lib, x, c, c, i);
    HoldingAfter(lib, s, i, c);
    assert s[i := ContentOf(x.g, c, x.Tx())] == s;
  }

  lemma BitOfUnit(bits: seq<bv8>, b: nat, bi: nat, mask: bv8)
    requires b < |bits| && bi < 8 && mask == Mask(bi)
    ensures Marked(bits, 8 * b + bi) <==> bits[b] & mask != 0
  {
    hide Mask;
    assert (8 * b + bi) / 8 == b && (8 * b + bi) % 8 == bi;
  }

  // One round of the commit loop.
  method VisitUnit(lib: Library, ctx: Area, trackByte: bv8, mask: bv8, addr: nat, count: nat, ghost b: nat,
                   ghost bi: nat, ghost i: nat, ghost s: seq<Content>) returns (o: Outcome)
    requires Valid(lib) && Holding(lib, s) && i < |lib.areas| && ctx == lib.areas[i]
    requires ctx.tracker != null && b < ctx.tracker.Length && trackByte == ctx.tracker[b]
    requires bi < 8 && mask == Mask(bi) && ctx.copied == count == 8 * b + bi < ctx.g.Units()
    requires addr == ctx.g.area + count * ctx.g.nvm.writeSize
    modifies lib.flash, lib.areas`data, ctx`copied
    ensures lib.flash.cuts == old(lib.flash.cuts) + if o == PowerCut then 1 else 0
    ensures o in {Done, PowerCut}
    ensures o == Done ==> Valid(lib) && Holding(lib, s) && ctx.copied == count + 1
    ensures o == PowerCut ==> Persists(lib, s)
    ensures Confined(ctx.g, ctx.g, old(lib.flash.chip), lib.flash.chip, NextUnits)
    ensures o == Done ==> Steady(ctx.g, old(lib.flash.chip), lib.flash.chip)
  {
    hide Valid, Holding, Persists, Layout.Valid, Layout.SlotSize, Mask, Layout.Units, Marked, Steady, Confined,
         Ready, Current;
    ReadyIn(lib, ctx);
    SteadyNow(ctx.g, lib.flash.chip);
    BitOfUnit(ctx.tracker[..], b, bi, mask);
    o := Done;
    if trackByte & mask == 0 {
      o := CopyUnit(lib, ctx, addr, count, i, s);
    } else {
      SkipUnit(lib, ctx, count, i, s);
    }
  }

  lemma NextMask(bi: nat, mask: bv8)
    requires bi < 8 && mask == Mask(bi)
    ensures bi + 1 < 8 ==> mask << 1 == Mask(bi + 1)
  {
    hide Mask;
    if bi < 7 {
      MaskShift(bi);
    }
  }

  // The number of units looked at once byte b of the tracker is done with.
  function UnitsUpTo(b: nat, units: nat): nat {
    if 8 * b + 8 <= units then 8 * b + 8 else units
  }

  // The inner loop of commit: the units whose bits are in byte b of the tracker.
  method CopyByte(lib: Library, ctx: Area, b: nat, addr0: nat, count0: nat, units: nat, ghost i: nat,
                  ghost s: seq<Content>)
    returns (o: Outcome, addr: nat, count: nat)
    requires Valid(lib) && Holding(lib, s) && i < |lib.areas| && ctx == lib.areas[i]
    requires ctx.tracker != null && b < ctx.tracker.Length
    requires ctx.copied == count0 == 8 * b < units == ctx.g.Units()
    requires addr0 == ctx.g.area + count0 * ctx.g.nvm.writeSize
    modifies lib.flash, lib.areas`data, ctx`copied
    ensures lib.flash.cuts == old(lib.flash.cuts) + if o == PowerCut then 1 else 0
    ensures o in {Done, PowerCut}
    ensures o == Done ==> Valid(lib) && Holding(lib, s)
    ensures o == Done ==> ctx.copied == count == UnitsUpTo(b, units)
    ensures o == Done ==> addr == ctx.g.area + count * ctx.g.nvm.writeSize
    ensures o == PowerCut ==> Persists(lib, s)
    ensures Confined(ctx.g, ctx.g, old(lib.flash.chip), lib.flash.chip, NextUnits)
    ensures o == Done ==> Steady(ctx.g, old(lib.flash.chip), lib.flash.chip)
  {
    hide Valid, Holding, Persists, Layout.Valid, Layout.SlotSize, Mask, Layout.Units, Marked, Steady, Confined,
         Ready;
    ReadyIn(lib, ctx);
    SteadyNow(ctx.g, lib.flash.chip);
    addr, count := addr0, count0;
    var trackByte := ctx.tracker[b];
    var mask: bv8 := 1;
    MaskTable(0);
    var bi := 0;
    while bi < 8
      invariant 0 <= bi <= 8 && count == 8 * b + bi && (bi < 8 ==> count < units)
      invariant bi < 8 ==> mask == Mask(bi)
      invariant count <= units && ctx.copied == count
      invariant addr == ctx.g.area + count * ctx.g.nvm.writeSize
      invariant lib.flash.cuts == old(lib.flash.cuts)
      invariant Valid(lib) && Holding(lib, s)
      invariant Steady(ctx.g, old(lib.flash.chip), lib.flash.chip)
      invariant Confined(ctx.g, ctx.g, old(lib.flash.chip), lib.flash.chip, NextUnits)
    {
      ghost var c := lib.flash.chip;
      o := VisitUnit(lib, ctx, trackByte, mask, addr, count, b, bi, i, s);
      SteadyTrans(ctx.g, old(lib.flash.chip), c, lib.flash.chip);
      if o == PowerCut {
        return;
      }
      NextMask(bi, mask);
      SumOfProducts(count, 1, ctx.g.nvm.writeSize);
      mask := mask << 1;
      addr := addr + ctx.g.nvm.writeSize;
      count := count + 1;
      bi := bi + 1;
      if count == units {
        break;
      }
    }
    o := Done;
  }

  lemma UnitsOfTracker(g: Layout)
    requires g.Valid()
    ensures g.Units() > 0 && (g.Units() + 7) / 8 <= g.TrackerSize()
  {
    TrackerCovers(g, g.dataSize - 1);
  }

  // The loops of commit: every unit not marked is copied from the committed data.
  method CopyAll(lib: Library, ctx: Area, ghost i: nat, ghost s: seq<Content>) returns (o: Outcome)
    requires Valid(lib) && Holding(lib, s) && i < |lib.areas| && ctx == lib.areas[i]
    requires ctx.tracker != null && ctx.copied == 0
    modifies lib.flash, lib.areas`data, ctx`copied
    ensures lib.flash.cuts == old(lib.flash.cuts) + if o == PowerCut then 1 else 0
    ensures o in {Done, PowerCut}
    ensures o == Done ==> Valid(lib) && Holding(lib, s) && ctx.copied == ctx.g.Units()
    ensures o == PowerCut ==> Persists(lib, s)
    ensures Confined(ctx.g, ctx.g, old(lib.flash.chip), lib.flash.chip, NextUnits)
    ensures o == Done ==> Steady(ctx.g, old(lib.flash.chip), lib.flash.chip)
  {
    hide Valid, Holding, Persists, Layout.Valid, Layout.SlotSize, Layout.TrackerSize, Held, Steady, Confined, Ready;
    ReadyIn(lib, ctx);
    SteadyNow(ctx.g, lib.flash.chip);
    HeldNow(lib, s);
    HeldStaged(lib, s, lib.flash.chip, i);
    ValidParts(lib);
    UnitsOfTracker(ctx.g);
    var units := ctx.g.dataSize / ctx.g.nvm.writeSize;
    var addr, count := ctx.g.area, 0;
    var b := 0;
    while b < (units + 7) / 8
      invariant 0 <= b <= (units + 7) / 8
      invariant count == (if 8 * b <= units then 8 * b else units) && ctx.copied == count
      invariant addr == ctx.g.area + count * ctx.g.nvm.writeSize
      invariant lib.flash.cuts == old(lib.flash.cuts)
      invariant Valid(lib) && Holding(lib, s)
      invariant Steady(ctx.g, old(lib.flash.chip), lib.flash.chip)
      invariant Confined(ctx.g, ctx.g, old(lib.flash.chip), lib.flash.chip, NextUnits)
    {
      ghost var c := lib.flash.chip;
      o, addr, count := CopyByte(lib, ctx, b, addr, count, units, i, s);
      SteadyTrans(ctx.g, old(lib.flash.chip), c, lib.flash.chip);
      if o == PowerCut {
        return;
      }
      b := b + 1;
    }
    o := Done;
  }

  // Once every unit was looked at, the next slot holds all of the newer data and a blank record.
  lemma AllCopied(g: Layout, c: Chip, bits: seq<bv8>)
    requires Ready(g, c)
    requires StagingOk(g, c, Next(View(g, c.mem)), Marks(bits, g.Units()))
    ensures var n := Next(View(g, c.mem));
            && SlotAt(g, c.mem, n).data == Newer(g, c.mem, Marks(bits, g.Units()))
            && MetaBase(g, n) >= 0 && Blank(c, MetaBase(g, n), g.SlotBase(n) + g.SlotSize())
  {
    hide Layout.SlotSize, Layout.SlotCount, Layout.SlotBase, View, Bystander, Intact, Marked, Newer, Layout.Units,
         UnitOf;
    forall k | 0 <= k < g.dataSize
      ensures Taken(Marks(bits, g.Units()), UnitOf(g, k))
    {
      TrackerCovers(g, k);
    }
    AllMarked(g, c.mem, Marks(bits, g.Units()));
  }

  // The last part of commit: writes the record that makes the next slot the current one.
  method FinishCommit(lib: Library, ctx: Area, ghost i: nat, ghost s: seq<Content>) returns (o: Outcome)
    requires Valid(lib) && Holding(lib, s) && i < |lib.areas| && ctx == lib.areas[i]
    requires ctx.tracker != null && ctx.copied == ctx.g.Units()
    modifies lib.flash, ctx`data, ctx`tracker, ctx`copied
    ensures lib.flash.cuts == old(lib.flash.cuts) + if o == PowerCut then 1 else 0
    ensures o in {Done, PowerCut}
    ensures UpdateResult(lib, i, s, NewestOf(s, i), o)
    ensures o == Done ==> ctx.tracker == null && ctx.copied == 0 && ctx.data.At?
    ensures Confined(ctx.g, ctx.g, old(lib.flash.chip), lib.flash.chip, NextUnits)
    ensures o == Done ==> WearKept(ctx.g, old(lib.flash.chip), lib.flash.chip)
  {
    hide Layout.SlotSize, Layout.SlotCount, Layout.SlotBase, Layout.Valid, View, Bystander, Intact, Valid, Holding,
         Held, Persists, StagingOk, Same, SameOutside, WholeWords, OwnTrackers, Library.Linked, Layout.Units, Blank,
         HeldExcept, Newer, SlotAt, UpdatedTo, UpdateCut, Around, WearKept, Confined, Current;
    ghost var c := lib.flash.chip;
    HeldNow(lib, s);
    HeldData(lib, s, c, i);
    HeldStaged(lib, s, c, i);
    ExceptHeld(lib, s, c, i);
    ValidParts(lib);
    ReadyIn(lib, ctx);
    AllSame(lib);
    StatesOf(lib);
    StateAt(ctx.g, c, ctx.data, ctx.Tx());
    AllCopied(ctx.g, c, ctx.tracker[..]);
    ghost var image := s[i].staged.data;
    var index := ctx.NextSlotIndex();
    var cur := ctx.CurrentSlotIndex();
    SameOutsideRefl(c, ctx.g.SlotBase(index), ctx.g.SlotBase(index) + ctx.g.SlotSize());
    var ok := Writing.FinishUpdate(ctx, index, cur, c, image);
    UpdateStaysInside(ctx.g, c, lib.flash.chip, image);
    UnitsConfined(ctx.g, ctx.g, c, lib.flash.chip);
    FillKeepsWear(ctx.g, c, lib.flash.chip);
    if ok {
      CloseTracker(lib, ctx, i, s, c);
    }
    OthersAfterWrite(lib, ctx, c);
    MakeAround(lib, ctx, c, c);
    if ok {
      o := Done;
      if s[i].version + 1 < ERASED_WORD {
        AfterUpdate(lib, ctx, i, s, c, c, image);
      }
    } else {
      o := PowerCut;
      if s[i].version < MAX_VERSION {
        AfterCut(lib, ctx, i, s, c, c, image);
      }
    }
  }

  // lftl_transaction_commit: all the writes of the transaction become visible at once.
  method TransactionCommit(lib: Library, ctx: Area, ghost i: nat, ghost s: seq<Content>) returns (o: Outcome)
    requires Valid(lib) && Holding(lib, s) && i < |lib.areas| && ctx == lib.areas[i] && ctx.copied == 0
    modifies lib.flash, lib.areas`data, ctx`tracker, ctx`copied
    ensures lib.flash.cuts == old(lib.flash.cuts) + if o == PowerCut then 1 else 0
    ensures o.Raised? <==> old(ctx.tracker) == null
    ensures o.Raised? ==> o.code == ERROR_NO_TRANSACTION && ctx.tracker == null && ctx.copied == 0
    ensures UpdateResult(lib, i, s, NewestOf(s, i), o)
    ensures o == Done ==> ctx.tracker == null && ctx.copied == 0 && ctx.data.At?
    ensures Confined(ctx.g, ctx.g, old(lib.flash.chip), lib.flash.chip, Within(o, NextUnits))
    ensures o == Done ==> WearKept(ctx.g, old(lib.flash.chip), lib.flash.chip)
  {
    hide Layout.Valid, Layout.SlotSize, Valid, Holding, Persists, Held, WearKept, Steady, Confined, SameCurrent;
    HeldNow(lib, s);
    HeldSize(lib, s, lib.flash.chip);
    if ctx.tracker == null {
      ValidChip(lib, ctx);
      NothingConfined(ctx.g, ctx.g, lib.flash.chip, OnlyRecords);
      return Raised(ERROR_NO_TRANSACTION);
    }
    o := CopyAll(lib, ctx, i, s);
    if o == Done {
      ghost var c := lib.flash.chip;
      o := FinishCommit(lib, ctx, i, s);
      SteadyTrans(ctx.g, old(lib.flash.chip), c, lib.flash.chip);
      if o == Done {
        SteadyParts(ctx.g, old(lib.flash.chip), c);
        WearKeptTrans(ctx.g, old(lib.flash.chip), c, lib.flash.chip);
      }
    }
  }
}
