/** One area: lftl_ctx_t and the functions that touch nothing but it and its memory. */
module Areas {
  import opened Bytes
  import opened Crc
  import opened Flash
  import opened Geometry
  import opened MetaItems
  import opened Ring
  import opened Sealing
  import opened Slots
  import opened Tearing
  import opened Updates

  // How a call ends: normally, in the error handler, or because the power failed.
  datatype Outcome = Done | Raised(code: nat) | PowerCut

  const ERROR_VERSION_COLLISION: nat := 0x01
  const ERROR_NO_VALID_VERSION: nat := 0x02
  const ERROR_FIRST_NOT_IN_DATA: nat := 0x03
  const ERROR_LAST_NOT_IN_DATA: nat := 0x04
  const ERROR_BASE_MISALIGNED: nat := 0x05
  const ERROR_SIZE_MISALIGNED: nat := 0x06
  const ERROR_TRANSACTION_ONGOING: nat := 0x07
  const ERROR_NO_TRANSACTION: nat := 0x08
  const ERROR_TRANSACTION_OVERWRITE: nat := 0x09
  const ERROR_WU_SIZE_TOO_LARGE: nat := 0x0A

  const WU_MAX_SIZE: nat := 128

  // is_in_range, which admits the address just past the end.
  predicate InRange(addr: nat, base: nat, size: nat) {
    base <= addr <= base + size
  }

  class Area {
    const g: Layout
    const flash: Device
    var data: Ref
    var tracker: array?<bv8>
    var next: Area?
    // While a transaction is being committed: how many units have been looked at.
    ghost var copied: nat

    constructor (g: Layout, flash: Device)
      ensures this.g == g && this.flash == flash && data == Invalid && tracker == null && next == null && copied == 0
    {
      this.g := g;
      this.flash := flash;
      data := Invalid;
      tracker := null;
      next := null;
      copied := 0;
    }

    ghost predicate Sound()
      reads flash
    {
      Holds(g, flash.chip) && WholeWords(g, flash.whole)
    }

    ghost function Slots(): seq<Slot>
      requires Sound()
      reads flash
    {
      View(g, flash.chip.mem)
    }

    ghost function Tx(): Tracking
      reads this`tracker, this`copied, tracker
    {
      if tracker == null then Closed else Open(Marks(tracker[..], copied))
    }

    ghost predicate Ok()
      reads this, flash, tracker
    {
      Sound() && StateOk(g, flash.chip, data, Tx())
    }

    // -------------------------------------------------------------- accessors

    method NvmErase(base: nat, pages: nat) returns (ok: bool)
      requires flash.chip.Valid() && base + pages * g.nvm.eraseSize <= |flash.chip.mem|
      modifies flash
      ensures flash.cuts == old(flash.cuts) + if ok then 0 else 1
      ensures ok ==> flash.chip == EraseRange(old(flash.chip), base, base + pages * g.nvm.eraseSize)
      ensures !ok ==> Torn(old(flash.chip), EraseRange(old(flash.chip), base, base + pages * g.nvm.eraseSize),
                           flash.chip, flash.whole)
    {
      hide EraseRange, Torn;
      var n := pages * g.nvm.eraseSize;
      if pages == 0 {
        EraseNothing(flash.chip, base);
        return true;
      }
      ok := flash.Erase(base, base + n);
    }

    // Destination and size are always whole write units. What is programmed over what is there already is
    // part of the record of one slot.
    method NvmWrite(dst: nat, src: Pointer, size: nat) returns (ok: bool)
      requires flash.chip.Valid() && dst + size <= |flash.chip.mem|
      requires g.nvm.writeSize > 0 && dst % g.nvm.writeSize == 0 && size % g.nvm.writeSize == 0
      requires src.Readable(flash.chip.mem, size) && src.Avoids(dst, dst + size, size)
      requires || Blank(flash.chip, dst, dst + size)
               || RepairsSlot(g, flash.chip.mem, dst, src.Read(flash.chip.mem, size), flash.whole)
      modifies flash
      ensures flash.cuts == old(flash.cuts) + if ok then 0 else 1
      ensures ok ==> flash.chip == Program(old(flash.chip), dst, src.Read(old(flash.chip).mem, size))
      ensures !ok ==> Torn(old(flash.chip), Program(old(flash.chip), dst, src.Read(old(flash.chip).mem, size)),
                           flash.chip, flash.whole)
    {
      if size == 0 {
        ProgramNothing(flash.chip, dst);
        assert src.Read(flash.chip.mem, 0) == [];
        return true;
      }
      ok := flash.Write(dst, src, size);
    }

    method NvmRead(src: nat, size: nat) returns (b: seq<byte>)
      requires src + size <= |flash.chip.mem|
      ensures b == flash.chip.mem[src..src + size]
    {
      b := flash.chip.mem[src..src + size];
    }

    predicate IsInNvm(p: Pointer) {
      p.Nvm? && InRange(p.addr, g.nvm.base, g.nvm.size)
    }

    method MemRead(src: Pointer, size: nat) returns (b: seq<byte>)
      requires src.Readable(flash.chip.mem, size)
      ensures b == src.Read(flash.chip.mem, size)
    {
      if IsInNvm(src) {
        b := NvmRead(src.addr, size);
      } else {
        b := src.Read(flash.chip.mem, size);
      }
    }

    // Reads at most 128 bytes at a time.
    method ChecksumOf(src: nat, size: nat) returns (r: bv32)
      requires src + size <= |flash.chip.mem|
      ensures r == Fold(0xFFFF_FFFF, flash.chip.mem[src..src + size])
    {
      hide Fold;
      var at, left := src, size;
      r := 0xFFFF_FFFF;
      ghost var m := flash.chip.mem;
      assert m[src..src] == [];
      FoldNothing(r);
      while left != 0
        invariant at + left == src + size && src <= at
        invariant r == Fold(0xFFFF_FFFF, m[src..at])
        decreases left
      {
        var readSize := if left > 128 then 128 else left;
        var buf := MemRead(Nvm(at), readSize);
        FoldAppend(0xFFFF_FFFF, m[src..at], buf);
        assert m[src..at] + buf == m[src..at + readSize];
        r := Crc32c(r, buf);
        left := left - readSize;
        at := at + readSize;
      }
    }

    // -------------------------------------------------------------- meta items

    method GetSlotMeta(i: nat) returns (items: seq<nat>)
      requires Sound() && i < g.SlotCount()
      ensures |items| == 3
      ensures var s := SlotAt(g, flash.chip.mem, i); items == [s.version, s.checksum, s.checksum2]
    {
      hide Layout.SlotSize, Layout.SlotCount, Layout.SlotBase, Word, WordIndex;
      SlotPlace(g, i);
      ItemSizes(g);
      var itemSize := g.ItemSize();
      var base := MetaBase(g, i);
      var buf := NvmRead(base, 3 * itemSize);
      ItemPlace(0, itemSize);
      ItemPlace(1, itemSize);
      ItemPlace(2, itemSize);
      SliceOfSlice(flash.chip.mem, base, 3 * itemSize, 0, 4);
      SliceOfSlice(flash.chip.mem, base, 3 * itemSize, itemSize, itemSize + 4);
      SliceOfSlice(flash.chip.mem, base, 3 * itemSize, 2 * itemSize, 2 * itemSize + 4);
      items := PickItems(buf, itemSize);
    }

    method SlotIntegrityCheckOk(i: nat) returns (ok: bool)
      requires Sound() && i < g.SlotCount()
      ensures ok == Intact(SlotAt(g, flash.chip.mem, i))
    {
      hide Layout.SlotSize, Layout.SlotCount, Layout.SlotBase, WordAt, Fold, Number;
      SlotPlace(g, i);
      var meta := GetSlotMeta(i);
      var crc := ChecksumOf(g.SlotBase(i), g.dataSize);
      ok := meta[1] == (Number(crc) + meta[0]) % WORD_LIMIT;
    }

    // The bytes of a record.
    method RecordBytes(version: nat, checksum: nat, checksum2: nat) returns (bytes: seq<byte>)
      requires g.Valid() && version < WORD_LIMIT && checksum < WORD_LIMIT && checksum2 < WORD_LIMIT
      ensures |bytes| >= 3 * g.ItemSize()
      ensures bytes[0..2 * g.ItemSize()] == Item(g, version) + Item(g, checksum)
      ensures bytes[2 * g.ItemSize()..2 * g.ItemSize() + g.ItemSize()] == Item(g, checksum2)
    {
      hide Padded, AsBytes, Stored, Word;
      ItemSizes(g);
      var items := [version, checksum, checksum2];
      bytes := BuildBuffer(items, g.ItemSize());
      StoredIsPadded(items, g.ItemSize());
      ImageBytes(g, version, checksum, checksum2, bytes);
    }

    // Version and checksum go first, in one call; the copy of the checksum goes last.
    // A record that is already there may only be written again with the same version and checksum.
    method WriteMetaCore(i: nat, version: nat, checksum: nat, checksum2: nat) returns (ok: bool)
      requires Sound() && i < g.SlotCount()
      requires version < WORD_LIMIT && checksum < WORD_LIMIT && checksum2 < WORD_LIMIT
      requires || (MetaBase(g, i) >= 0 && Blank(flash.chip, MetaBase(g, i), g.SlotBase(i) + g.SlotSize()))
               || (var s := SlotAt(g, flash.chip.mem, i); version == s.version && checksum == s.checksum)
      modifies flash
      ensures flash.cuts == old(flash.cuts) + if ok then 0 else 1
      ensures ok ==> flash.chip == WithImage(g, old(flash.chip), i, version, checksum, checksum2)
      ensures !ok ==>
                || Torn(old(flash.chip), HalfSealed(g, old(flash.chip), i, version, checksum), flash.chip, flash.whole)
                || Torn(HalfSealed(g, old(flash.chip), i, version, checksum),
                        WithImage(g, old(flash.chip), i, version, checksum, checksum2), flash.chip, flash.whole)
    {
      hide Layout.SlotSize, Layout.SlotCount, Layout.SlotBase, Layout.Valid, Torn, Item, EraseRange, Program,
           HalfSealed, WithImage, Blank, WholeWords, Repairs, RepairsSlot, SlotAt;
      SlotPlace(g, i);
      SlotAligned(g, i);
      UnitPositive(g);
      var itemSize := g.ItemSize();
      var base := MetaBase(g, i);
      var bytes := RecordBytes(version, checksum, checksum2);
      ghost var before := flash.chip;
      HalfSealedIs(g, before, i, version, checksum);
      MayProgramRecord(g, before, i, version, checksum, flash.whole);
      ok := NvmWrite(base, Ram(bytes, 0), 2 * itemSize);
      if !ok {
        return;
      }
      ImageInTwoCalls(g, before, i, version, checksum, checksum2);
      RepairsCopy(g, flash.chip.mem, i, Item(g, checksum2));
      OneSlot(g, flash.chip.mem, i, base + 2 * itemSize, Item(g, checksum2), flash.whole);
      ok := NvmWrite(base + 2 * itemSize, Ram(bytes, 2 * itemSize), itemSize);
    }

    method WriteMeta(i: nat, version: nat) returns (ok: bool)
      requires Sound() && i < g.SlotCount() && version < WORD_LIMIT
      requires MetaBase(g, i) >= 0 && Blank(flash.chip, MetaBase(g, i), g.SlotBase(i) + g.SlotSize())
      modifies flash
      ensures flash.cuts == old(flash.cuts) + if ok then 0 else 1
      ensures ok ==> flash.chip == Sealed(g, old(flash.chip), i, version)
      ensures !ok ==> CutSeal(g, old(flash.chip), flash.chip, i, version)
    {
      hide Layout.SlotSize, Layout.SlotCount, Layout.SlotBase, WordAt, Fold, Number, Torn, CutSeal, HalfSealed;
      SlotPlace(g, i);
      var crc := ChecksumOf(g.SlotBase(i), g.dataSize);
      var sum := (Number(crc) + version) % WORD_LIMIT;
      assert sum == Checksum(SlotAt(g, flash.chip.mem, i).data, version);
      ghost var before := flash.chip;
      ok := WriteMetaCore(i, version, sum, sum);
      if !ok {
        TornSeal(g, before, flash.chip, i, version, flash.whole);
      }
    }

    // -------------------------------------------------------------- slot search

    // The search loop: the index of the newest valid slot, or the error raised.
    method SearchSlots() returns (o: Outcome, best: int)
      requires Sound()
      ensures best == Current(Slots()) && -1 <= best < g.SlotCount()
      ensures o == SearchOutcome(Slots()) && (best == -1 <==> o != Done)
      ensures o == Raised(0x01) <==> Collides(Slots(), g.SlotCount())
      ensures (forall s :: s in Slots() ==> s == BlankSlot(g.dataSize)) ==> o == Raised(0x02)
    {
      hide Layout.SlotSize, Layout.SlotCount, Layout.SlotBase, View, WordAt, Intact, SlotAt, Collides, MaxBefore;
      var ns := g.SlotCount();
      best := -1;
      var maxVersion := 0;
      ghost var slots := Slots();
      SearchErrors(slots, ns);
      SearchCodes(slots);
      SlotSizes(g, flash.chip.mem);
      BlankSlots(slots, g.dataSize);
      var i := 0;
      while i < ns
        invariant 0 <= i <= ns
        invariant Scan(slots, i) == Best(best, maxVersion)
      {
        ViewAt(g, flash.chip.mem, i);
        var meta := GetSlotMeta(i);
        var version := meta[0];
        if version == ERASED_WORD {
          i := i + 1;
          continue;
        }
        if version == maxVersion {
          ScanStaysCollided(slots, i + 1);
          return Raised(ERROR_VERSION_COLLISION), -1;
        }
        if version > maxVersion {
          var ok := SlotIntegrityCheckOk(i);
          if ok {
            best := i;
            maxVersion := version;
          }
        }
        i := i + 1;
      }
      o := if best == -1 then Raised(ERROR_NO_VALID_VERSION) else Done;
    }

    // find_current_slot: raises an error exactly when the search over the decoded slots finds a collision
    // or nothing; otherwise resolves data to the slot found, and completes its meta record if need be.
    method FindCurrentSlot() returns (o: Outcome)
      requires Sound()
      modifies flash, this`data
      ensures flash.cuts == old(flash.cuts) + if o == PowerCut then 1 else 0
      ensures Sound()
      ensures var c := Current(old(Slots()));
              if c == -1 then
                && o == SearchOutcome(old(Slots())) && o.Raised?
                && flash.chip == old(flash.chip) && data == old(data)
              else
                && SearchOutcome(old(Slots())) == Done && o in {Done, PowerCut}
                && data == At(g.SlotBase(c))
                && (if old(Slots())[c].checksum2 == old(Slots())[c].checksum
                    then o == Done && flash.chip == old(flash.chip)
                    else Mended(g, old(flash.chip), flash.chip, c))
                && (o == Done ==> SlotAt(g, flash.chip.mem, c)
                                  == old(Slots())[c].(checksum2 := old(Slots())[c].checksum))
    {
      hide Layout.SlotSize, Layout.SlotCount, Layout.SlotBase, WordAt, Intact, SlotAt, Torn, Scan, HalfSealed,
           WithImage, Collides;
      var best;
      o, best := SearchSlots();
      if o != Done {
        return;
      }
      data := At(g.SlotBase(best));
      ghost var before := flash.chip;
      ViewAt(g, before.mem, best);
      ghost var s := SlotAt(g, before.mem, best);
      var meta := GetSlotMeta(best);
      if meta[2] != meta[1] {
        SlotPlace(g, best);
        SlotWords(g, before.mem, best);
        var ok := WriteMetaCore(best, meta[0], meta[1], meta[1]);
        if !ok {
          TornMend(g, before, flash.chip, best, flash.whole);
          return PowerCut;
        }
        WithImageSlot(g, before, best, s.version, s.checksum, s.checksum);
        SealingWear(g, before, best, s.version, s.checksum, s.checksum);
      }
      return Done;
    }

    predicate IsInData(addr: nat) {
      InRange(addr, g.area, g.dataSize)
    }

    // Searches for the slot data is to point to.
    method FindData() returns (o: Outcome)
      requires Ok() && data == Invalid
      modifies flash, this`data
      ensures flash.cuts == old(flash.cuts) + if o == PowerCut then 1 else 0
      ensures Ok() && data.At? && o in {Done, PowerCut}
      ensures Same(g, old(flash.chip), flash.chip) && Confined(g, g, old(flash.chip), flash.chip, OnlyRecords)
      ensures SameOutside(old(flash.chip), flash.chip, g.area, g.area + g.areaSize)
    {
      hide Layout.SlotSize, Layout.SlotCount, Layout.SlotBase, Layout.Valid, View, SlotAt, Bystander, Intact, Same,
           SameOutside, Mended, Confined, Current, WholeWords, SearchOutcome;
      ghost var c := flash.chip;
      o := FindCurrentSlot();
      AfterSearch(g, c, flash.chip);
    }

    // Where the data at logical address addr is in the current slot. The slot search may have to run
    // first; nothing the user can see changes.
    method TranslateAddr(addr: nat, size: nat) returns (o: Outcome, phys: nat)
      requires Ok()
      modifies flash, this`data
      ensures flash.cuts == old(flash.cuts) + if o == PowerCut then 1 else 0
      ensures Ok()
      ensures Same(g, old(flash.chip), flash.chip)
      ensures SameOutside(old(flash.chip), flash.chip, g.area, g.area + g.areaSize)
      ensures Confined(g, g, old(flash.chip), flash.chip, OnlyRecords)
      ensures old(data).At? ==> flash.chip == old(flash.chip) && data == old(data) && o != PowerCut
      ensures o != PowerCut ==> o == RangeCheck(g, addr, size)
      ensures o == Done ==> data.At? && phys == data.addr + (addr - g.area)
    {
      hide Layout.SlotSize, Layout.SlotCount, Layout.SlotBase, Layout.Valid, View, RingAt, Same, SameOutside,
           Confined, StateOk, WholeWords;
      phys := 0;
      ReadyOfState(g, flash.chip, data, Tx());
      SameRefl(g, flash.chip);
      SameOutsideRefl(flash.chip, g.area, g.area + g.areaSize);
      NothingConfined(g, g, flash.chip, OnlyRecords);
      if !IsInData(addr) {
        return Raised(ERROR_FIRST_NOT_IN_DATA), phys;
      }
      if data == Invalid {
        o := FindData();
        if o != Done {
          return o, phys;
        }
      }
      var offset := addr - g.area;
      if offset + size > g.dataSize {
        return Raised(ERROR_LAST_NOT_IN_DATA), phys;
      }
      return Done, data.addr + offset;
    }

    // The current slot is known.
    ghost predicate Resolved()
      reads this`data, flash
    {
      Sound() && RingOk(Slots()) && data == At(g.SlotBase(Current(Slots())))
    }

    // Index of the slot data points to.
    method CurrentSlotIndex() returns (i: nat)
      requires Resolved()
      ensures i == Current(Slots())
    {
      SlotIndexOfBase(g, Current(Slots()));
      i := g.SlotIndex(data.addr);
    }

    method NextSlotIndex() returns (i: nat)
      requires Resolved()
      ensures i == Next(Slots())
    {
      NextSlotIsCyclic(g, Current(Slots()));
      i := g.NextSlot(data.addr);
    }

    method EraseSlot(n: nat) returns (ok: bool)
      requires Sound() && n < g.SlotCount()
      modifies flash
      ensures flash.cuts == old(flash.cuts) + if ok then 0 else 1
      ensures ok ==> flash.chip == Erased(g, old(flash.chip), n)
      ensures !ok ==> OpenedUp(g, old(flash.chip), flash.chip, n)
      ensures flash.chip.wear == Erased(g, old(flash.chip), n).wear
    {
      hide Layout.SlotCount, Layout.SlotBase, SlotAt, Torn, EraseRange, OpenedUp;
      SlotPlace(g, n);
      SlotHoldsData(g);
      PagesPositive(g);
      ghost var before := flash.chip;
      ok := NvmErase(g.SlotBase(n), g.PagesInSlot());
      if !ok {
        assert Erased(g, before, n)
            == EraseRange(before, g.SlotBase(n), g.SlotBase(n) + g.PagesInSlot() * g.nvm.eraseSize);
        TornErase(g, before, flash.chip, n, flash.whole);
        TornWear(before, Erased(g, before, n), flash.chip, flash.whole);
      }
    }
  }

  // A search changes nothing but the record of the slot it finds, and nothing a user can see.
  lemma AfterSearch(g: Layout, c: Chip, d: Chip)
    requires Ready(g, c) && (d == c || Mended(g, c, d, Current(View(g, c.mem))))
    ensures Same(g, c, d) && Ready(g, d) && Current(View(g, d.mem)) == Current(View(g, c.mem))
    ensures Confined(g, g, c, d, OnlyRecords) && SameOutside(c, d, g.area, g.area + g.areaSize)
  {
    hide Layout.SlotSize, Layout.SlotCount, Layout.SlotBase, Layout.Valid, View, Bystander, Intact, Same, Mended,
         Confined, SameOutside;
    if d == c {
      SameRefl(g, c);
      SameOutsideRefl(c, g.area, g.area + g.areaSize);
      NothingConfined(g, g, c, OnlyRecords);
    } else {
      MendedIsSame(g, c, d);
      RecordConfined(g, g, c, d);
    }
    SameParts(g, c, d);
  }

  lemma UnitPositive(g: Layout)
    requires g.Valid()
    ensures g.nvm.writeSize > 0
  {
  }

  // The bytes b, programmed at dst, lie within the record of one slot and keep its version and checksum.
  ghost predicate RepairsSlot(g: Layout, mem: seq<byte>, dst: nat, b: seq<byte>, whole: set<Meta>) {
    g.Valid() && exists i: nat :: i < g.SlotCount() && MetaOf(g, i) in whole && Repairs(mem, MetaOf(g, i), dst, b)
  }

  // So they lie in the area, behind the data of that slot.
  lemma RepairsStayInside(g: Layout, mem: seq<byte>, dst: nat, b: seq<byte>, whole: set<Meta>)
    requires RepairsSlot(g, mem, dst, b, whole)
    ensures exists i: nat ::
              && i < g.SlotCount() && g.SlotBase(i) + g.dataSize <= dst
              && dst + |b| <= g.SlotBase(i) + g.SlotSize() <= g.area + g.areaSize
  {
    hide Layout.SlotSize, Layout.SlotCount, Layout.SlotBase, Layout.Valid;
    var i: nat :| i < g.SlotCount() && MetaOf(g, i) in whole && Repairs(mem, MetaOf(g, i), dst, b);
    SlotPlace(g, i);
  }

  lemma OneSlot(g: Layout, mem: seq<byte>, i: nat, dst: nat, b: seq<byte>, whole: set<Meta>)
    requires g.Valid() && i < g.SlotCount() && WholeWords(g, whole) && Repairs(mem, MetaOf(g, i), dst, b)
    ensures RepairsSlot(g, mem, dst, b, whole)
  {
    hide Repairs, Layout.SlotSize, Layout.SlotCount, Layout.SlotBase;
  }

  // The first two items may be programmed on a blank record, or over one with the same version and checksum.
  lemma MayProgramRecord(g: Layout, c: Chip, i: nat, version: nat, checksum: nat, whole: set<Meta>)
    requires Holds(g, c) && i < g.SlotCount() && WholeWords(g, whole) && version < WORD_LIMIT && checksum < WORD_LIMIT
    requires || (MetaBase(g, i) >= 0 && Blank(c, MetaBase(g, i), g.SlotBase(i) + g.SlotSize()))
             || (var s := SlotAt(g, c.mem, i); version == s.version && checksum == s.checksum)
    ensures MetaBase(g, i) >= 0
    ensures || Blank(c, MetaBase(g, i), MetaBase(g, i) + 2 * g.ItemSize())
            || RepairsSlot(g, c.mem, MetaBase(g, i), Item(g, version) + Item(g, checksum), whole)
  {
    hide Layout.SlotSize, Layout.SlotCount, Layout.SlotBase, Layout.Valid, Item, Blank, WholeWords, Repairs,
         RepairsSlot, SlotAt;
    SlotPlace(g, i);
    var base, t := MetaBase(g, i), g.ItemSize();
    if Blank(c, base, base + 3 * t) {
      BlankPart(c, base, base + 2 * t, base + 3 * t);
    } else {
      RepairsRecord(g, c, i, version, checksum);
      OneSlot(g, c.mem, i, base, Item(g, version) + Item(g, checksum), whole);
    }
  }

  // A call that is refused reaches no further than the records.
  function Within(o: Outcome, scope: Scope): Scope {
    if o.Raised? then OnlyRecords else scope
  }

  // How a search for the current slot ends.
  ghost function SearchOutcome(slots: seq<Slot>): Outcome {
    if Collides(slots, |slots|) then Raised(ERROR_VERSION_COLLISION)
    else if forall i :: 0 <= i < |slots| ==> !(Live(slots[i]) && Intact(slots[i])) then Raised(ERROR_NO_VALID_VERSION)
    else Done
  }

  // 0x01 is raised exactly when a slot in use repeats the greatest version of the intact ones before it, 0x02
  // exactly when that is not so and no slot in use is intact, as in an area that was never formatted.
  lemma SearchCodes(slots: seq<Slot>)
    ensures SearchOutcome(slots) == Raised(0x01) <==>
              exists i :: 0 <= i < |slots| && Live(slots[i]) && slots[i].version == MaxBefore(slots, i)
    ensures SearchOutcome(slots) == Raised(0x02) <==>
              && (forall i :: 0 <= i < |slots| ==> !(Live(slots[i]) && slots[i].version == MaxBefore(slots, i)))
              && (forall i :: 0 <= i < |slots| ==> !(Live(slots[i]) && Intact(slots[i])))
    ensures SearchOutcome(slots) in {Done, Raised(0x01), Raised(0x02)}
    ensures SearchOutcome(slots) == Done <==> Current(slots) >= 0
    ensures (forall i :: 0 <= i < |slots| ==> slots[i] == BlankSlot(|slots[i].data|)) ==>
              SearchOutcome(slots) == Raised(0x02)
  {
    hide Intact;
    SearchErrors(slots, |slots|);
  }

  lemma BlankSlots(slots: seq<Slot>, n: nat)
    requires forall i :: 0 <= i < |slots| ==> |slots[i].data| == n
    ensures (forall s :: s in slots ==> s == BlankSlot(n)) ==>
              forall i :: 0 <= i < |slots| ==> slots[i] == BlankSlot(|slots[i].data|)
  {
    forall i | 0 <= i < |slots| && (forall s :: s in slots ==> s == BlankSlot(n))
      ensures slots[i] == BlankSlot(|slots[i].data|)
    {
      assert slots[i] in slots;
    }
  }

  lemma SlotSizes(g: Layout, m: seq<byte>)
    requires Fits(g, m)
    ensures forall i :: 0 <= i < |View(g, m)| ==> |View(g, m)[i].data| == g.dataSize
  {
    hide Layout.SlotSize, Layout.SlotCount, Layout.SlotBase, WordAt;
  }

  // is_in_data and is_in_nvm also admit the address just past the end.
  lemma EndsAreInside(a: Area, addr: nat, buf: seq<byte>)
    ensures a.IsInData(addr) <==> a.g.area <= addr <= a.g.area + a.g.dataSize
    ensures a.IsInNvm(Nvm(addr)) <==> a.g.nvm.base <= addr <= a.g.nvm.base + a.g.nvm.size
    ensures !a.IsInNvm(Ram(buf, addr))
  {
  }

  // The numbers of lean-ftl.h.
  lemma ErrorNumbers()
    ensures [ERROR_VERSION_COLLISION, ERROR_NO_VALID_VERSION, ERROR_FIRST_NOT_IN_DATA, ERROR_LAST_NOT_IN_DATA,
             ERROR_BASE_MISALIGNED, ERROR_SIZE_MISALIGNED, ERROR_TRANSACTION_ONGOING, ERROR_NO_TRANSACTION,
             ERROR_TRANSACTION_OVERWRITE, ERROR_WU_SIZE_TOO_LARGE] == [1, 2, 3, 4, 5, 6, 7, 8, 9, 10]
    ensures WU_MAX_SIZE == 128
  {
  }

  lemma PagesPositive(g: Layout)
    requires g.Valid()
    ensures g.PagesInSlot() > 0
  {
    SlotHoldsData(g);
  }

  // What translate_addr makes of a logical range, once the current slot is known.
  function RangeCheck(g: Layout, addr: nat, size: nat): Outcome {
    if !InRange(addr, g.area, g.dataSize) then Raised(ERROR_FIRST_NOT_IN_DATA)
    else if addr - g.area + size > g.dataSize then Raised(ERROR_LAST_NOT_IN_DATA)
    else Done
  }

  // 0x03 is raised for ranges that begin before the data or after its end, 0x04 for those that begin in it or
  // at its end and go on past it.
  lemma RangeCodes(g: Layout, addr: nat, size: nat)
    ensures RangeCheck(g, addr, size) == Raised(0x03) <==> addr < g.area || g.area + g.dataSize < addr
    ensures RangeCheck(g, addr, size) == Raised(0x04) <==>
              g.area <= addr <= g.area + g.dataSize < addr + size
    ensures RangeCheck(g, addr, size) == Done <==> g.area <= addr && addr + size <= g.area + g.dataSize
  {
  }

  lemma {:induction false} ScanStaysCollided(slots: seq<Slot>, k: nat)
    requires k <= |slots| && Scan(slots, k) == Collision
    ensures Scan(slots, |slots|) == Collision
    decreases |slots| - k
  {
    if k < |slots| {
      ScanStaysCollided(slots, k + 1);
    }
  }

  lemma FoldNothing(crc: bv32)
    ensures Fold(crc, []) == crc
  {
  }
}
