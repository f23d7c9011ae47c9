/** Reading the newer data of an open transaction. */
module Reading {
  import opened Areas
  import opened Arithmetic
  import opened Bytes
  import Commit
  import opened Contents
  import Flash
  import opened Ftl
  import opened Geometry
  import Operations
  import Registry
  import opened Ring
  import opened Slots
  import opened Tearing
  import opened Tracker
  import opened Transactions
  import opened Updates

  // Bytes at.. of b, w of them, lie at address `from`.
  ghost predicate LiesAt(m: seq<byte>, from: nat, b: seq<byte>, at: nat, w: nat) {
    at + w <= |b| && from + w <= |m| && m[from..from + w] == b[at..at + w]
  }

  // The slot write unit k of the newer data is read from.
  ghost function SlotOfUnit(g: Layout, m: seq<byte>, bits: seq<bv8>, k: nat): nat
    requires Fits(g, m) && Current(View(g, m)) >= 0
  {
    if Marked(bits, k) then Next(View(g, m)) else Current(View(g, m))
  }

  lemma SlotSlice(g: Layout, m: seq<byte>, i: nat, at: nat, w: nat)
    requires Fits(g, m) && i < g.SlotCount() && at + w <= g.dataSize
    ensures LiesAt(m, g.SlotBase(i) + at, SlotAt(g, m, i).data, at, w)
  {
    hide Layout.SlotSize, Layout.SlotCount, Layout.SlotBase, WordAt;
    SlotPlace(g, i);
    SliceOfSlice(m, g.SlotBase(i), g.dataSize, at, at + w);
  }

  // Where lftl_transaction_read finds write unit k.
  lemma NewerUnit(g: Layout, c: Flash.Chip, bits: seq<bv8>, k: nat, at: nat)
    requires Ready(g, c) && k < g.Units() && at == k * g.nvm.writeSize
    ensures LiesAt(c.mem, g.SlotBase(SlotOfUnit(g, c.mem, bits, k)) + at, Newer(g, c.mem, Marks(bits, 0)), at,
              g.nvm.writeSize)
  {
    hide Layout.SlotSize, Layout.SlotCount, Layout.SlotBase, View, Bystander, Intact, Marked, UnitOf, Layout.Units,
         SlotAt, Layout.Valid;
    Commit.UnitPlace(g, k);
    var w := g.nvm.writeSize;
    var i := SlotOfUnit(g, c.mem, bits, k);
    ViewAt(g, c.mem, i);
    SlotSlice(g, c.mem, i, at, w);
    var b, d := Newer(g, c.mem, Marks(bits, 0)), SlotAt(g, c.mem, i).data;
    assert forall j :: at <= j < at + w ==> b[j] == d[j];
    assert b[at..at + w] == d[at..at + w];
  }

  // The write units of b a read of the newer data covers: those from the unit of addr on, as many as
  // fit in size.
  function UnitsOf(g: Layout, b: seq<byte>, addr: nat, size: nat): (r: seq<byte>) {
    var from, n := FirstUnit(g, addr) * g.nvm.writeSize, WholeUnits(g, size) * g.nvm.writeSize;
    if from + n <= |b| then b[from..from + n] else []
  }

  // A read of the newer data delivers the bytes asked for, and all of them, exactly when it is made of
  // whole write units; otherwise it starts too early or stops too soon.
  lemma WholeUnitRead(g: Layout, b: seq<byte>, addr: nat, size: nat)
    requires g.Valid() && g.area <= addr && addr - g.area + size <= |b| == g.dataSize
    ensures addr % g.nvm.writeSize == 0 && size % g.nvm.writeSize == 0 ==>
              UnitsOf(g, b, addr, size) == b[addr - g.area..addr - g.area + size]
    ensures |UnitsOf(g, b, addr, size)| == size - size % g.nvm.writeSize
    ensures |UnitsOf(g, b, addr, size)| == size <==> size % g.nvm.writeSize == 0
    ensures FirstUnit(g, addr) * g.nvm.writeSize == addr - g.area - addr % g.nvm.writeSize
  {
    hide Layout.SlotSize, Layout.Valid, FirstUnit, WholeUnits, UnitsOf;
    UnitFloor(g, addr, size);
    UnitsAre(g, b, addr, size, FirstUnit(g, addr) * g.nvm.writeSize, WholeUnits(g, size) * g.nvm.writeSize);
  }

  lemma UnitsAre(g: Layout, b: seq<byte>, addr: nat, size: nat, from: nat, n: nat)
    requires from == FirstUnit(g, addr) * g.nvm.writeSize && n == WholeUnits(g, size) * g.nvm.writeSize
    ensures UnitsOf(g, b, addr, size) == if from + n <= |b| then b[from..from + n] else []
  {
    hide FirstUnit, WholeUnits;
  }

  lemma UnitFloor(g: Layout, addr: nat, size: nat)
    requires g.Valid() && g.area <= addr
    ensures FirstUnit(g, addr) * g.nvm.writeSize == addr - g.area - addr % g.nvm.writeSize >= 0
    ensures WholeUnits(g, size) * g.nvm.writeSize == size - size % g.nvm.writeSize
  {
    hide Layout.SlotSize;
    ModAdd(g.area, addr - g.area, g.nvm.writeSize);
    DivMod(addr - g.area, g.nvm.writeSize);
    DivMod(size, g.nvm.writeSize);
  }

  lemma UnitsWithin(g: Layout, addr: nat, size: nat, k: nat)
    requires g.Valid() && FirstUnit(g, addr) + WholeUnits(g, size) <= g.Units()
    ensures var from, n := FirstUnit(g, addr) * g.nvm.writeSize, WholeUnits(g, size) * g.nvm.writeSize;
            from + n <= g.dataSize
    ensures k < WholeUnits(g, size) ==>
              FirstUnit(g, addr) + k < g.Units() && (FirstUnit(g, addr) + k) / 8 < g.TrackerSize()
  {
    hide Layout.SlotSize, FirstUnit, WholeUnits;
    var w := g.nvm.writeSize;
    SumOfProducts(FirstUnit(g, addr), WholeUnits(g, size), w);
    MulMonotone(FirstUnit(g, addr) + WholeUnits(g, size), g.Units(), w);
    assert g.Units() * w == g.dataSize by { TrackerCovers(g, 0); }
    TrackerCovers(g, g.dataSize - 1);
  }

  lemma OneMorePart(b: seq<byte>, from: nat, mid: nat, to: nat)
    requires from <= mid <= to <= |b|
    ensures b[from..mid] + b[mid..to] == b[from..to]
  {
  }

  // Reads write unit k of the newer data.
  method ReadUnit(ctx: Area, index: nat, k: nat, at: nat, ghost newest: seq<byte>) returns (b: seq<byte>)
    requires ctx.Resolved() && ctx.tracker != null && k / 8 < ctx.tracker.Length
    requires k < ctx.g.Units() && at == k * ctx.g.nvm.writeSize
    requires index == Next(ctx.Slots()) && newest == Newer(ctx.g, ctx.flash.chip.mem, Marks(ctx.tracker[..], 0))
    ensures at + ctx.g.nvm.writeSize <= |newest| && b == newest[at..at + ctx.g.nvm.writeSize]
  {
    hide Layout.SlotSize, Layout.SlotCount, Layout.SlotBase, View, Bystander, Intact, Newer, Mask, Layout.Units,
         WholeWords;
    NewerUnit(ctx.g, ctx.flash.chip, ctx.tracker[..], k, at);
    var byteIndex, bitIndex := k / 8, k % 8;
    var mask := Mask(bitIndex);
    if ctx.tracker[byteIndex] & mask != 0 {
      b := ctx.NvmRead(ctx.g.SlotBase(index) + at, ctx.g.nvm.writeSize);
    } else {
      b := ctx.NvmRead(ctx.data.addr + at, ctx.g.nvm.writeSize);
    }
  }

  // The loop of lftl_transaction_read.
  method ReadUnits(ctx: Area, addr: nat, size: nat, ghost newest: seq<byte>) returns (b: seq<byte>)
    requires ctx.Resolved() && ctx.tracker != null && ctx.tracker.Length >= ctx.g.TrackerSize()
    requires ctx.g.area <= addr && FirstUnit(ctx.g, addr) + WholeUnits(ctx.g, size) <= ctx.g.Units()
    requires newest == Newer(ctx.g, ctx.flash.chip.mem, Marks(ctx.tracker[..], 0))
    ensures b == UnitsOf(ctx.g, newest, addr, size)
  {
    hide Layout.SlotSize, Layout.SlotCount, Layout.SlotBase, View, Bystander, Intact, Newer, Layout.Units,
         Layout.TrackerSize, WholeWords, Current;
    var g := ctx.g;
    var writeSize := g.nvm.writeSize;
    var units := size / writeSize;
    var offset := addr - g.area;
    var first := offset / writeSize;
    var index := ctx.NextSlotIndex();
    UnitsWithin(g, addr, size, 0);
    b := [];
    var k := 0;
    while k < units
      invariant 0 <= k <= units && first * writeSize <= (first + k) * writeSize <= |newest|
      invariant b == newest[first * writeSize..(first + k) * writeSize]
    {
      UnitsWithin(g, addr, size, k);
      var unit := ReadUnit(ctx, index, first + k, (first + k) * writeSize, newest);
      SumOfProducts(first + k, 1, writeSize);
      OneMorePart(newest, first * writeSize, (first + k) * writeSize, (first + k) * writeSize + writeSize);
      b := b + unit;
      k := k + 1;
    }
    SumOfProducts(first, units, writeSize);
  }

  // lftl_transaction_read. There is no range check: addr and size have to name units of the area.
  method TransactionRead(lib: Registry.Library, ctx: Area, addr: nat, size: nat, ghost i: nat, ghost s: seq<Content>)
    returns (o: Outcome, b: seq<byte>)
    requires Valid(lib) && Holding(lib, s) && i < |lib.areas| && ctx == lib.areas[i] && ctx.copied == 0
    requires ctx.g.area <= addr && FirstUnit(ctx.g, addr) + WholeUnits(ctx.g, size) <= ctx.g.Units()
    ensures o == if ctx.tracker == null then Raised(ERROR_NO_TRANSACTION) else Done
    ensures o == Done && size > 0 ==> b == UnitsOf(ctx.g, NewestOf(s, i), addr, size)
    ensures size == 0 ==> b == []
  {
    hide Layout.SlotSize, Layout.SlotCount, Layout.SlotBase, View, Bystander, Intact, Newer, Layout.Units,
         Layout.TrackerSize, Layout.Valid, Valid, Holding, Held, UnitsOf, FirstUnit, WholeUnits, WholeWords;
    b := [];
    if ctx.tracker == null {
      return Raised(ERROR_NO_TRANSACTION), b;
    }
    if size == 0 {
      return Done, b;
    }
    Operations.HeldNow(lib, s);
    HeldStaged(lib, s, lib.flash.chip, i);
    ValidParts(lib);
    ReadyIn(lib, ctx);
    b := ReadUnits(ctx, addr, size, s[i].staged.data);
    o := Done;
  }
}
