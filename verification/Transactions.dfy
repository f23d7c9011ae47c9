/** Transactions: writes staged in the next slot and made visible all at once. */
module Transactions {
  import opened Areas
  import opened Arithmetic
  import opened Bytes
  import opened Contents
  import opened Flash
  import opened Ftl
  import opened Geometry
  import opened Operations
  import opened Registry
  import opened Ring
  import opened Slots
  import opened Staging
  import opened Tearing
  import opened Tracker
  import opened Updates
  import opened Writing

  // The tracker has a bit for every write unit of the data.
  lemma TrackerCovers(g: Layout, k: nat)
    requires g.Valid() && k < g.dataSize
    ensures UnitOf(g, k) < g.Units() <= 8 * g.TrackerSize()
    ensures UnitOf(g, k) / 8 < g.TrackerSize()
    ensures g.Units() * g.nvm.writeSize == g.dataSize
  {
    hide Layout.SlotSize;
    var w := g.nvm.writeSize;
    var n := g.dataSize / w;
    assert g.dataSize == n * w;
    DivUnique(g.dataSize + w - 1, w, n);
    DivBounds(k, w);
    if k / w >= n {
      MulMonotone(n, k / w, w);
    }
  }

  predicate Cleared(bits: seq<bv8>, n: nat) {
    n <= |bits| && forall k :: 0 <= k < n ==> bits[k] == 0
  }

  lemma ClearedUnmarked(bits: seq<bv8>, n: nat, k: nat)
    requires Cleared(bits, n) && k / 8 < n
    ensures !Marked(bits, k)
  {
    hide Mask;
    ZeroAnd(Mask(k % 8));
  }

  lemma ZeroAnd(x: bv8)
    ensures 0 & x == 0
  {
  }

  // A freshly erased next slot with a cleared tracker stages exactly the committed data.
  lemma OpenedFresh(g: Layout, c: Chip, bits: seq<bv8>)
    requires Ready(g, c) && Cleared(bits, g.TrackerSize())
    ensures var n := Next(View(g, c.mem));
            var d := Erased(g, c, n);
            var marks := Marks(bits, 0);
            && Ready(g, d) && Next(View(g, d.mem)) == n
            && Current(View(g, d.mem)) == Current(View(g, c.mem))
            && Committed(View(g, d.mem)) == Committed(View(g, c.mem))
            && Version(View(g, d.mem)) == Version(View(g, c.mem))
            && StagingOk(g, d, n, marks)
            && Newer(g, d.mem, marks) == Committed(View(g, c.mem))
            && SameOutside(c, d, g.area, g.area + g.areaSize)
  {
    hide Layout.SlotSize, Layout.SlotCount, Layout.SlotBase, Layout.Valid, View, Bystander, Intact, SlotAt,
         SameOutside, Erased, Marked, Cleared, Blank, Layout.TrackerSize;
    var v := View(g, c.mem);
    var n := Next(v);
    var d := Erased(g, c, n);
    ErasedSlot(g, c, n);
    ErasedFacts(g, c, n);
    OpenedIsReady(g, c, d);
    InsideSlotIsInsideArea(g, c, d, n);
    NoneMarked(g, bits);
    FreshStaging(g, d, n, bits);
    CommittedLength(g, c);
    var x, y := Newer(g, d.mem, Marks(bits, 0)), Committed(v);
    assert forall k :: 0 <= k < g.dataSize ==> x[k] == y[k];
  }

  lemma NoneMarked(g: Layout, bits: seq<bv8>)
    requires g.Valid() && Cleared(bits, g.TrackerSize())
    ensures |bits| >= g.TrackerSize()
    ensures forall k :: 0 <= k < g.dataSize ==> !Taken(Marks(bits, 0), UnitOf(g, k))
  {
    hide Marked, Layout.Valid, Layout.TrackerSize;
    forall k | 0 <= k < g.dataSize
      ensures !Taken(Marks(bits, 0), UnitOf(g, k))
    {
      TrackerCovers(g, k);
      ClearedUnmarked(bits, g.TrackerSize(), UnitOf(g, k));
    }
  }

  lemma FreshStaging(g: Layout, d: Chip, n: nat, bits: seq<bv8>)
    requires Holds(g, d) && n < g.SlotCount() && |bits| >= g.TrackerSize()
    requires MetaBase(g, n) >= 0 && Blank(d, MetaBase(g, n), g.SlotBase(n) + g.SlotSize())
    requires Blank(d, g.SlotBase(n), g.SlotBase(n) + g.dataSize)
    ensures StagingOk(g, d, n, Marks(bits, 0))
  {
    hide Layout.SlotSize, Layout.SlotCount, Layout.SlotBase, Layout.Valid, Marked, Layout.TrackerSize;
  }

  // lftl_transaction_start. The current slot must already be known: next_slot is computed from data
  // without a search.
  method TransactionStart(lib: Library, ctx: Area, t: array<bv8>, ghost i: nat, ghost s: seq<Content>)
    returns (o: Outcome)
    requires Valid(lib) && Holding(lib, s) && i < |lib.areas| && ctx == lib.areas[i]
    requires ctx.data.At?
    requires t.Length >= ctx.g.TrackerSize() && forall a :: a in lib.areas ==> a.tracker != t
    modifies lib.flash, ctx`tracker, ctx`copied, t
    ensures lib.flash.cuts == old(lib.flash.cuts) + if o == PowerCut then 1 else 0
    ensures o.Raised? <==> old(ctx.tracker) != null
    ensures o.Raised? ==> o.code == ERROR_TRANSACTION_ONGOING && Valid(lib) && Holding(lib, s)
    ensures o.Raised? ==> ctx.tracker == old(ctx.tracker) && ctx.copied == old(ctx.copied)
    ensures o == Done ==> Valid(lib) && Holding(lib, s[i := s[i].(staged := Newest(s[i].data))])
    ensures o == Done ==> ctx.tracker == t && ctx.copied == 0 && Cleared(t[..], ctx.g.TrackerSize())
    ensures forall k :: (ctx.g.Units() + 7) / 8 <= k < t.Length ==> t[k] == old(t[k])
    ensures o == Done ==> Ready(ctx.g, old(lib.flash.chip)) && NextWorn(ctx.g, old(lib.flash.chip), lib.flash.chip)
    ensures o == PowerCut ==> Persists(lib, s)
    ensures Confined(ctx.g, ctx.g, old(lib.flash.chip), lib.flash.chip, Within(o, NextSlot))
    ensures o == Done ==> SameCurrent(ctx.g, old(lib.flash.chip), lib.flash.chip)
  {
    hide Layout.SlotSize, Layout.SlotCount, Layout.SlotBase, Layout.Valid, View, Bystander, Intact, Valid, Holding,
         Held, Persists, Layout.TrackerSize, StagingOk, Erased, OpenedUp, Same, SameOutside, WholeWords,
         OwnTrackers, Library.Linked, HeldExcept, Cleared, Newer, SlotAt, Blank, NextWorn, WornOnce, Confined,
         Current;
    if ctx.tracker != null {
      ValidChip(lib, ctx);
      NothingConfined(ctx.g, ctx.g, lib.flash.chip, OnlyRecords);
      return Raised(ERROR_TRANSACTION_ONGOING);
    }
    ghost var c := lib.flash.chip;
    HeldNow(lib, s);
    HeldData(lib, s, c, i);
    ValidParts(lib);
    ReadyIn(lib, ctx);
    AllSame(lib);
    OpenTracker(lib, ctx, t, i, s);
    var index := ctx.NextSlotIndex();
    var ok := ctx.EraseSlot(index);
    o := if ok then Done else PowerCut;
    ErasedFacts(ctx.g, c, Next(View(ctx.g, c.mem)));
    SameWear(c, Erased(ctx.g, c, index), lib.flash.chip, ctx.g.SlotBase(index),
      ctx.g.SlotBase(index) + ctx.g.SlotSize());
    if ok {
      OpenedFresh(ctx.g, c, t[..]);
      OnceIsNextWorn(ctx.g, c, c, lib.flash.chip);
      ErasedSlot(ctx.g, c, index);
      NextConfined(ctx.g, ctx.g, c, lib.flash.chip);
      StartDone(lib, ctx, i, s, c);
    } else {
      OpenedConfined(ctx.g, c, lib.flash.chip);
      StartCut(lib, ctx, i, s, c);
    }
  }

  lemma OpenedConfined(g: Layout, c: Chip, d: Chip)
    requires Ready(g, c) && OpenedUp(g, c, d, Next(View(g, c.mem)))
    requires var n := Next(View(g, c.mem)); WornOnce(c, d, g.SlotBase(n), g.SlotBase(n) + g.SlotSize())
    ensures Confined(g, g, c, d, NextSlot)
  {
    hide Layout.SlotSize, Layout.SlotCount, Layout.SlotBase, Layout.Valid, View, SlotAt, SameOutside, Bystander,
         Intact, Opened, Confined;
    NextConfined(g, g, c, d);
  }

  // The words of all areas are whole, and all areas but x are in order on chip c.
  ghost predicate RestOk(lib: Library, x: Area, c: Chip)
    reads lib, lib.areas, lib.flash, set a | a in lib.areas :: a.tracker
    requires lib.Linked()
  {
    && (forall a :: a in lib.areas ==> WholeWords(a.g, lib.flash.whole))
    && (forall a :: a in lib.areas && a != x ==> StateOk(a.g, c, a.data, a.Tx()))
  }

  // Installs and clears the tracker.
  method OpenTracker(lib: Library, ctx: Area, t: array<bv8>, ghost i: nat, ghost s: seq<Content>)
    requires Valid(lib) && Held(lib, s, lib.flash.chip) && i < |lib.areas| && ctx == lib.areas[i]
    requires t.Length >= ctx.g.TrackerSize() && forall a :: a in lib.areas ==> a.tracker != t
    modifies ctx`tracker, ctx`copied, t
    ensures ctx.tracker == t && ctx.copied == 0 && Cleared(t[..], ctx.g.TrackerSize())
    ensures forall k :: (ctx.g.Units() + 7) / 8 <= k < t.Length ==> t[k] == old(t[k])
    ensures lib.Linked() && OwnTrackers(lib) && HeldExcept(lib, s, lib.flash.chip, i)
    ensures RestOk(lib, ctx, lib.flash.chip)
  {
    hide Layout.Valid, Layout.TrackerSize, View, RingAt, StagingOk, StateOk, WholeWords, TxOk, ContentOf,
         Library.Linked, Valid;
    ValidParts(lib);
    StatesOf(lib);
    OthersDiffer(lib, i);
    TrackerIsLeast(ctx.g);
    ctx.tracker := t;
    ctx.copied := 0;
    var size := ctx.g.TrackerSize();
    forall k | 0 <= k < size {
      t[k] := 0;
    }
  }

  lemma ExceptHeld(lib: Library, s: seq<Content>, c: Chip, i: nat)
    requires Held(lib, s, c)
    ensures HeldExcept(lib, s, c, i)
  {
  }

  // After the next slot of ctx was opened.
  lemma StartDone(lib: Library, ctx: Area, i: nat, s: seq<Content>, c: Chip)
    requires lib.Linked() && OwnTrackers(lib) && i < |lib.areas| && ctx == lib.areas[i]
    requires forall a :: a in lib.areas ==> WholeWords(a.g, lib.flash.whole) && Same(a.g, c, c)
    requires forall a :: a in lib.areas && a != ctx ==> StateOk(a.g, c, a.data, a.Tx())
    requires HeldExcept(lib, s, c, i) && Ready(ctx.g, c)
    requires s[i].data == Committed(View(ctx.g, c.mem)) && s[i].version == Version(View(ctx.g, c.mem))
    requires SameOutside(c, lib.flash.chip, ctx.g.area, ctx.g.area + ctx.g.areaSize)
    requires StateOk(ctx.g, lib.flash.chip, ctx.data, ctx.Tx())
    requires Committed(View(ctx.g, lib.flash.chip.mem)) == Committed(View(ctx.g, c.mem))
    requires Version(View(ctx.g, lib.flash.chip.mem)) == Version(View(ctx.g, c.mem))
    ensures Valid(lib) && Holding(lib, s[i := s[i].(staged := ContentOf(ctx.g, lib.flash.chip, ctx.Tx()).staged)])
  {
    hide Layout.Valid, View, RingAt, Same, SameOutside, StagingOk, WholeWords, OwnTrackers, Newer;
    OthersAfterWrite(lib, ctx, c);
    MakeAround(lib, ctx, c, c);
    assert ctx.flash == lib.flash;
    OkOf(ctx);
    AllTrans(lib, ctx, c, c, i);
    HoldingAfter(lib, s, i, c);
    assert s[i].(staged := ContentOf(ctx.g, lib.flash.chip, ctx.Tx()).staged)
        == ContentOf(ctx.g, lib.flash.chip, ctx.Tx());
  }

  lemma StartCut(lib: Library, ctx: Area, i: nat, s: seq<Content>, c: Chip)
    requires lib.Linked() && OwnTrackers(lib) && i < |lib.areas| && ctx == lib.areas[i]
    requires forall a :: a in lib.areas ==> WholeWords(a.g, lib.flash.whole) && Same(a.g, c, c)
    requires forall a :: a in lib.areas && a != ctx ==> StateOk(a.g, c, a.data, a.Tx())
    requires HeldExcept(lib, s, c, i) && Ready(ctx.g, c)
    requires s[i].data == Committed(View(ctx.g, c.mem)) && s[i].version == Version(View(ctx.g, c.mem))
    requires OpenedUp(ctx.g, c, lib.flash.chip, Next(View(ctx.g, c.mem)))
    ensures Persists(lib, s)
  {
    hide Layout.Valid, View, Bystander, Intact, Same, SameOutside, StagingOk, WholeWords, OwnTrackers, Opened,
         SlotAt, StateOk, Layout.SlotSize, Layout.SlotCount, Layout.SlotBase, Persists;
    OpenedIsReady(ctx.g, c, lib.flash.chip);
    InsideSlotIsInsideArea(ctx.g, c, lib.flash.chip, Next(View(ctx.g, c.mem)));
    OthersAfterWrite(lib, ctx, c);
    MakeAround(lib, ctx, c, c);
    PersistsOthers(lib, s, ctx, i, c, c);
    PersistsAlike(lib, s, i);
  }

  // ---------------------------------------------------------------- abort

  // lftl_transaction_abort: whatever was staged is forgotten; the committed data is untouched.
  method TransactionAbort(lib: Library, ctx: Area, ghost i: nat, ghost s: seq<Content>)
    requires Valid(lib) && Holding(lib, s) && i < |lib.areas| && ctx == lib.areas[i]
    modifies ctx`tracker, ctx`copied
    ensures Valid(lib) && Holding(lib, s[i := s[i].(staged := NoTransaction)])
    ensures ctx.tracker == null && ctx.copied == 0
  {
    hide Layout.SlotSize, Layout.SlotCount, Layout.SlotBase, Layout.Valid, View, Bystander, Intact, Persists,
         StagingOk, Same, SameOutside, WholeWords, Library.Linked, Valid, Holding, Held, HeldExcept, OwnTrackers;
    ghost var c := lib.flash.chip;
    HeldNow(lib, s);
    HeldData(lib, s, c, i);
    ValidParts(lib);
    ReadyIn(lib, ctx);
    AllSame(lib);
    StatesOf(lib);
    CloseTracker(lib, ctx, i, s, c);
    SameOutsideRefl(c, ctx.g.area, ctx.g.area + ctx.g.areaSize);
    StartDone(lib, ctx, i, s, c);
  }

  method CloseTracker(lib: Library, ctx: Area, ghost i: nat, ghost s: seq<Content>, ghost c: Chip)
    requires lib.Linked() && OwnTrackers(lib) && i < |lib.areas| && ctx == lib.areas[i]
    requires HeldExcept(lib, s, c, i) || Held(lib, s, c)
    requires RestOk(lib, ctx, c)
    modifies ctx`tracker, ctx`copied
    ensures ctx.tracker == null && ctx.copied == 0
    ensures lib.Linked() && OwnTrackers(lib) && HeldExcept(lib, s, c, i)
    ensures RestOk(lib, ctx, c)
  {
    hide Layout.Valid, View, RingAt, StagingOk, StateOk, WholeWords, TxOk, ContentOf, Library.Linked;
    OthersDiffer(lib, i);
    ctx.tracker := null;
    ctx.copied := 0;
  }

  // ---------------------------------------------------------------- marking units

  // b with n bytes from at on erased.
  function Spoiled(b: seq<byte>, at: nat, n: nat): (r: seq<byte>)
    ensures |r| == |b|
  {
    seq(|b|, k requires 0 <= k < |b| => if at <= k < at + n then ERASED else b[k])
  }

  // Marking units before they are programmed makes them read as erased.
  lemma MarkedContent(g: Layout, c: Chip, marks: Marks, more: Marks, at: nat, n: nat)
    requires Ready(g, c) && StagingOk(g, c, Next(View(g, c.mem)), marks)
    requires MarksBytes(g, marks, more, at, n)
    requires forall k :: at <= k < at + n && k < g.dataSize ==> !Taken(marks, UnitOf(g, k))
    ensures StagingOk(g, c, Next(View(g, c.mem)), more)
    ensures Newer(g, c.mem, more) == Spoiled(Newer(g, c.mem, marks), at, n)
    ensures RangeBlank(g, c, at, at + n)
  {
    hide Layout.SlotSize, Layout.SlotCount, Layout.SlotBase, View, Bystander, Intact, Taken, SlotAt, MarksBytes,
         StagingOk, UnitOf;
    MarkedStays(g, c, Next(View(g, c.mem)), marks, more, at, n);
    forall k | 0 <= k < g.dataSize && at <= k < at + n
      ensures NextBlank(g, c, k)
    {
      UntakenBlank(g, c, Next(View(g, c.mem)), marks, k);
    }
    var x, y := Newer(g, c.mem, more), Spoiled(Newer(g, c.mem, marks), at, n);
    forall k | 0 <= k < g.dataSize
      ensures x[k] == y[k]
    {
      MarkedByte(g, c, marks, more, at, n, k);
    }
  }

  lemma MarkedStays(g: Layout, c: Chip, m: nat, marks: Marks, more: Marks, at: nat, n: nat)
    requires Holds(g, c) && StagingOk(g, c, m, marks) && MarksBytes(g, marks, more, at, n)
    ensures StagingOk(g, c, m, more)
  {
    hide Layout.SlotSize, Layout.SlotCount, Layout.SlotBase, Taken, UnitOf;
  }

  lemma UntakenBlank(g: Layout, c: Chip, m: nat, marks: Marks, k: nat)
    requires Holds(g, c) && m < g.SlotCount() && StagingOk(g, c, m, marks)
    requires k < g.dataSize && !Taken(marks, UnitOf(g, k))
    ensures BlankAt(c, g.SlotBase(m) + k) && SlotAt(g, c.mem, m).data[k] == ERASED
  {
    hide Layout.SlotSize, Layout.SlotCount, Layout.SlotBase, Taken, UnitOf;
    DataByte(g, c.mem, m, k);
  }

  lemma MarkedByte(g: Layout, c: Chip, marks: Marks, more: Marks, at: nat, n: nat, k: nat)
    requires Ready(g, c) && StagingOk(g, c, Next(View(g, c.mem)), marks)
    requires MarksBytes(g, marks, more, at, n) && k < g.dataSize
    requires at <= k < at + n ==> !Taken(marks, UnitOf(g, k))
    ensures Newer(g, c.mem, more)[k] == Spoiled(Newer(g, c.mem, marks), at, n)[k]
  {
    hide Layout.SlotSize, Layout.SlotCount, Layout.SlotBase, View, Bystander, Intact, Taken, SlotAt, StagingOk,
         UnitOf;
    var m := Next(View(g, c.mem));
    ViewAt(g, c.mem, m);
    if at <= k < at + n {
      UntakenBlank(g, c, m, marks, k);
    }
  }

  lemma DataByte(g: Layout, m: seq<byte>, i: nat, k: nat)
    requires Fits(g, m) && i < g.SlotCount() && k < g.dataSize
    ensures g.SlotBase(i) + k < |m| && SlotAt(g, m, i).data[k] == m[g.SlotBase(i) + k]
  {
    hide Layout.SlotSize, Layout.SlotCount, Layout.SlotBase;
    SlotPlace(g, i);
  }

  // ---------------------------------------------------------------- transaction writes

  method MarkTracker(lib: Library, ctx: Area, first: nat, n: nat, ghost i: nat, ghost s: seq<Content>)
    returns (ok: bool)
    requires Valid(lib) && Held(lib, s, lib.flash.chip) && i < |lib.areas| && ctx == lib.areas[i]
    requires ctx.tracker != null && (first + n + 7) / 8 <= ctx.tracker.Length
    modifies ctx.tracker
    ensures ok <==> NoneMarkedIn(old(ctx.tracker[..]), first, n)
    ensures MarkedUpTo(old(ctx.tracker[..]), first, n, ctx.tracker[..])
    ensures lib.Linked() && OwnTrackers(lib) && HeldExcept(lib, s, lib.flash.chip, i)
    ensures RestOk(lib, ctx, lib.flash.chip)
  {
    hide Layout.Valid, View, RingAt, StagingOk, StateOk, WholeWords, TxOk, ContentOf, Marked, Unmarked;
    StatesOf(lib);
    ok := MarkUnits(ctx.tracker, first, n);
  }

  lemma UntakenRange(g: Layout, bits: seq<bv8>, first: nat, n: nat)
    requires g.nvm.writeSize > 0
    requires forall k :: first <= k < first + n ==> !Marked(bits, k)
    ensures forall k ::
              first * g.nvm.writeSize <= k < first * g.nvm.writeSize + n * g.nvm.writeSize && k < g.dataSize ==>
                !Taken(Marks(bits, 0), UnitOf(g, k))
  {
    hide Marked;
    SumOfProducts(first, n, g.nvm.writeSize);
    forall k | first * g.nvm.writeSize <= k < first * g.nvm.writeSize + n * g.nvm.writeSize && k < g.dataSize
      ensures !Taken(Marks(bits, 0), UnitOf(g, k))
    {
      hide UnitOf;
      UnitRange(g, first, n, k);
    }
  }

  // The data staged for area i.
  function NewestOf(s: seq<Content>, i: nat): seq<byte> {
    if i < |s| && s[i].staged.Newest? then s[i].staged.data else []
  }

  // The areas hold s, except that b is staged for area i.
  ghost predicate HoldingStaged(lib: Library, s: seq<Content>, i: nat, b: seq<byte>)
    reads lib, lib.areas`tracker, lib.areas`copied, lib.flash, set a | a in lib.areas :: a.tracker
  {
    i < |s| && s[i].staged.Newest? && Holding(lib, s[i := s[i].(staged := Newest(b))])
  }

  // b with n write units from `first` on erased.
  function SpoiledUnits(g: Layout, b: seq<byte>, first: nat, n: nat): (r: seq<byte>)
    ensures |r| == |b|
  {
    Spoiled(b, first * g.nvm.writeSize, n * g.nvm.writeSize)
  }

  // more is bits after the n units from `first` on were marked, up to the first one that was marked before.
  ghost predicate MarkedUpTo(bits: seq<bv8>, first: nat, n: nat, more: seq<bv8>) {
    var done := Unmarked(bits, first, n);
    (first + done + 7) / 8 <= |bits| && more == MarkRange(bits, first, done)
  }

  // b with the units marked on that occasion erased.
  function SpoiledBy(g: Layout, bits: seq<bv8>, b: seq<byte>, first: nat, n: nat): (r: seq<byte>)
    ensures |r| == |b|
  {
    SpoiledUnits(g, b, first, Unmarked(bits, first, n))
  }

  // n units of the next slot from `first` on are unprogrammed.
  ghost predicate UnitsBlank(g: Layout, c: Chip, first: nat, n: nat) {
    Ready(g, c) && RangeBlank(g, c, first * g.nvm.writeSize, first * g.nvm.writeSize + n * g.nvm.writeSize)
  }

  predicate SameIn(b: seq<byte>, d: seq<byte>, at: nat, n: nat) {
    |b| == |d| && forall k :: at <= k < at + n && k < |b| ==> b[k] == d[k]
  }

  // Nothing is staged yet in n units from `first` on.
  predicate UnstagedIn(g: Layout, x: Content, first: nat, n: nat) {
    x.staged.Newest? && SameIn(x.staged.data, x.data, first * g.nvm.writeSize, n * g.nvm.writeSize)
  }

  // Marks n units from `first` on; on the way their staged bytes become erased ones. A unit marked before
  // stops the marking.
  method MarkStep(lib: Library, ctx: Area, first: nat, n: nat, ghost i: nat, ghost s: seq<Content>)
    returns (ok: bool)
    requires Valid(lib) && Holding(lib, s) && i < |lib.areas| && ctx == lib.areas[i]
    requires ctx.tracker != null && ctx.copied == 0 && (first + n + 7) / 8 <= ctx.tracker.Length
    modifies ctx.tracker
    ensures ok <==> NoneMarkedIn(old(ctx.tracker[..]), first, n)
    ensures MarkedUpTo(old(ctx.tracker[..]), first, n, ctx.tracker[..])
    ensures Valid(lib)
    ensures HoldingStaged(lib, s, i, SpoiledBy(ctx.g, old(ctx.tracker[..]), NewestOf(s, i), first, n))
    ensures ok ==> UnitsBlank(ctx.g, lib.flash.chip, first, n)
    ensures |s| == |lib.areas| && (ok ==> UnstagedIn(ctx.g, s[i], first, n))
  {
    hide Layout.SlotSize, Layout.SlotCount, Layout.SlotBase, Layout.Valid, View, Bystander, Intact, Persists,
         StagingOk, Same, SameOutside, WholeWords, Library.Linked, Valid, Holding, Held, HeldExcept, OwnTrackers,
         Marked, Newer, RangeBlank, MarksBytes, Taken, Spoiled;
    ghost var c, w := lib.flash.chip, ctx.g.nvm.writeSize;
    ghost var bits := ctx.tracker[..];
    HeldNow(lib, s);
    HeldData(lib, s, c, i);
    HeldStaged(lib, s, c, i);
    ValidParts(lib);
    ReadyIn(lib, ctx);
    AllSame(lib);
    ok := MarkTracker(lib, ctx, first, n, i, s);
    ghost var done := Unmarked(bits, first, n);
    assert ok ==> done == n;
    MarkRangeMarksMore(Marks(bits, 0), first, done);
    MarkedBytes(ctx.g, Marks(bits, 0), Marks(ctx.tracker[..], 0), first, done);
    UntakenRange(ctx.g, bits, first, done);
    MarkedContent(ctx.g, c, Marks(bits, 0), Marks(ctx.tracker[..], 0), first * w, done * w);
    SameOutsideRefl(c, ctx.g.area, ctx.g.area + ctx.g.areaSize);
    UnstagedRange(ctx.g, c, Marks(bits, 0), first * w, done * w);
    StartDone(lib, ctx, i, s, c);
  }

  lemma UnstagedRange(g: Layout, c: Chip, marks: Marks, at: nat, n: nat)
    requires Ready(g, c)
    requires forall k :: at <= k < at + n && k < g.dataSize ==> !Taken(marks, UnitOf(g, k))
    ensures SameIn(Newer(g, c.mem, marks), Committed(View(g, c.mem)), at, n)
  {
    hide View, Bystander, Intact, Taken, UnitOf;
    CommittedLength(g, c);
  }

  lemma HeldStaged(lib: Library, s: seq<Content>, c: Chip, i: nat)
    requires Held(lib, s, c) && i < |lib.areas| && lib.areas[i].tracker != null
    ensures |s| == |lib.areas| && s[i].staged.Newest? && Ready(lib.areas[i].g, c)
    ensures s[i].staged.data == Newer(lib.areas[i].g, c.mem, lib.areas[i].Tx().marks)
    ensures StagingOk(lib.areas[i].g, c, Next(View(lib.areas[i].g, c.mem)), lib.areas[i].Tx().marks)
  {
    hide RingAt, View, StagingOk, Newer;
  }

  // The units a write reaches.
  lemma UnitsReached(g: Layout, dst: nat, size: nat, first: nat, n: nat)
    requires g.Valid() && g.area <= dst
    requires first == (dst - g.area) / g.nvm.writeSize && n == AlignedSize(g, dst, size) / g.nvm.writeSize
    ensures dst % g.nvm.writeSize <= dst - g.area
    ensures first * g.nvm.writeSize == dst - dst % g.nvm.writeSize - g.area
    ensures n * g.nvm.writeSize == AlignedSize(g, dst, size)
  {
    hide Layout.SlotSize, AlignedSize;
    var w := g.nvm.writeSize;
    AlignedSizeFacts(g, dst, size);
    var off := dst - g.area;
    ModAdd(g.area, off, w);
    assert off == (off / w) * w + off % w;
    var a := AlignedSize(g, dst, size);
    assert a == (a / w) * w + a % w;
  }

  // After a completed write to units that were marked before.
  lemma AfterStaging(lib: Library, x: Area, i: nat, t: seq<Content>, c: Chip, mid: Chip, at: nat, seg: seq<byte>)
    requires Around(lib, x, c, mid) && HeldExcept(lib, t, c, i) && i < |lib.areas| && x == lib.areas[i]
    requires t[i].staged.Newest? && StateOk(x.g, mid, x.data, x.Tx()) && x.Tx().Open?
    requires t[i] == ContentOf(x.g, mid, x.Tx())
    requires at + |seg| <= x.g.dataSize
    requires forall k :: at <= k < at + |seg| ==> Taken(x.Tx().marks, UnitOf(x.g, k))
    requires lib.flash.chip == Filled(x.g, mid, Next(View(x.g, mid.mem)), at, seg)
    ensures at + |seg| <= |t[i].staged.data|
    ensures Valid(lib) && Holding(lib, t[i := t[i].(staged := Newest(Splice(t[i].staged.data, at, seg)))])
  {
    hide Layout.SlotSize, Layout.SlotCount, Layout.SlotBase, Layout.Valid, View, Bystander, Intact, Same,
         SameOutside, StagingOk, WholeWords, Area.Ok, Filled, Taken, UnitOf, OpenedUp, Newer, OwnTrackers;
    assert x in lib.areas && x.flash == lib.flash;
    var marks := x.Tx().marks;
    StageStep(x.g, mid, lib.flash.chip, marks, marks, at, seg);
    OkOf(x);
    AllTrans(lib, x, c, mid, i);
    HoldingAfter(lib, t, i, c);
    assert t[i].(staged := Newest(Splice(t[i].staged.data, at, seg))) == ContentOf(x.g, lib.flash.chip, x.Tx());
  }

  // After a write to the open next slot was cut short.
  lemma AfterStagingCut(lib: Library, x: Area, i: nat, t: seq<Content>, c: Chip, mid: Chip)
    requires Around(lib, x, c, mid) && HeldExcept(lib, t, c, i) && i < |lib.areas| && x == lib.areas[i]
    requires StateOk(x.g, mid, x.data, x.Tx()) && x.Tx().Open?
    requires t[i] == ContentOf(x.g, mid, x.Tx())
    requires CutFill(x.g, mid, lib.flash.chip, Next(View(x.g, mid.mem)))
    ensures Persists(lib, t)
  {
    hide Layout.SlotSize, Layout.SlotCount, Layout.SlotBase, Layout.Valid, View, Bystander, Intact, Same,
         SameOutside, WholeWords, Area.Ok, UnitOf, Newer, OwnTrackers, SlotAt, Persists, Blank, Around;
    BlankVersion(x.g, mid, Next(View(x.g, mid.mem)));
    OpenedIsReady(x.g, mid, lib.flash.chip);
    PersistsOthers(lib, t, x, i, c, mid);
    PersistsAlike(lib, t, i);
  }

  // ---------------------------------------------------------------- the public transaction writes

  // The errors a transaction write can end with, in the order in which it looks for them.
  ghost function TxWriteCheck(areas: seq<Area>, g: Layout, bits: seq<bv8>, first: nat, n: nat, dst: nat, src: Pointer,
                              size: nat, aligned: bool): Outcome
    requires g.nvm.writeSize > 0
  {
    if !NoneMarkedIn(bits, first, n) then Raised(ERROR_TRANSACTION_OVERWRITE)
    else WriteCheck(areas, g, true, dst, src, size, true, aligned)
  }

  // The data staged after the bytes of a source were written at dst.
  ghost function StagedWith(areas: seq<Area>, g: Layout, s: seq<Content>, m: seq<byte>, i: nat, dst: nat, src: Pointer,
                            size: nat): seq<byte>
  {
    WrittenTo(g, NewestOf(s, i), dst, SourceContent(areas, s, m, src, size))
  }

  // The part of a transaction write after its units were marked: t is what the areas hold now.
  method WriteMarked(lib: Library, ctx: Area, dst: nat, src: Pointer, size: nat, aligned: bool,
                     ghost i: nat, ghost s: seq<Content>, ghost first: nat, ghost n: nat) returns (o: Outcome)
    requires Valid(lib) && i < |lib.areas| == |s| && ctx == lib.areas[i] && ctx.tracker != null && ctx.copied == 0
    requires HoldingStaged(lib, s, i, SpoiledUnits(ctx.g, NewestOf(s, i), first, n))
    requires SourceOk(lib.areas, ctx, lib.flash.chip.mem, src, size)
    requires Ready(ctx.g, lib.flash.chip) && ctx.g.nvm.writeSize > 0
    requires NoneLeft(ctx.tracker[..], first, n)
    requires (aligned && (dst % ctx.g.nvm.writeSize != 0 || size % ctx.g.nvm.writeSize != 0))
          || (ctx.g.area <= dst && first == (dst - ctx.g.area) / ctx.g.nvm.writeSize
              && n == AlignedSize(ctx.g, dst, size) / ctx.g.nvm.writeSize
              && UnitsBlank(ctx.g, lib.flash.chip, first, n) && UnstagedIn(ctx.g, s[i], first, n))
    modifies lib.flash, lib.areas`data
    ensures lib.flash.cuts == old(lib.flash.cuts) + if o == PowerCut then 1 else 0
    ensures o != PowerCut ==> o == WriteCheck(lib.areas, ctx.g, true, dst, src, size, true, aligned)
    ensures o.Raised? ==> Valid(lib) && HoldingStaged(lib, s, i, SpoiledUnits(ctx.g, NewestOf(s, i), first, n))
    ensures o == Done ==>
              && Valid(lib)
              && HoldingStaged(lib, s, i, StagedWith(lib.areas, ctx.g, s, old(lib.flash.chip).mem, i, dst, src, size))
    ensures o == PowerCut ==> Persists(lib, s)
    ensures Confined(ctx.g, SourceLayout(lib.areas, ctx.g, src), old(lib.flash.chip), lib.flash.chip,
                     Within(o, NextUnits))
    ensures o == Done ==> Steady(ctx.g, old(lib.flash.chip), lib.flash.chip)
  {
    hide Layout.SlotSize, Layout.SlotCount, Layout.SlotBase, Layout.Valid, View, Same, SameOutside, Bystander,
         Intact, UpdateCut, StagingOk, Area.Ok, UpdatedTo, Image, WrittenTo, SourceContent, SourceOk, Around, Held,
         Holding, Persists, Valid, WriteOutcome, WriteCheck, StateOk, Spoiled, AlignedSize, UnstagedIn, NoneLeft,
         Ready, WholeWords, WearKept, Steady, Confined, SourceLayout, SameCurrent;
    ghost var c := lib.flash.chip;
    ghost var t := s[i := s[i].(staged := Newest(SpoiledUnits(ctx.g, NewestOf(s, i), first, n)))];
    HeldNow(lib, t);
    StatesOf(lib);
    ghost var tx := ctx.Tx();
    StateAt(ctx.g, c, ctx.data, tx);
    ValidParts(lib);
    WhereBlank(ctx.g, c, dst, size, aligned, first, n);
    ghost var mid;
    o, mid := WriteCore(lib, ctx, dst, src, size, true, aligned);
    if o.Raised? || (o == PowerCut && lib.flash.chip == mid) {
      HoldingSame(lib, t, ctx, i, c);
      StagedDoesNotPersist(lib, s, t, i);
    } else if o == PowerCut {
      WriteMarkedCut(lib, ctx, i, t, c, mid, dst, src, size);
      StagedDoesNotPersist(lib, s, t, i);
    } else {
      WrittenKeepsWear(lib, ctx, c, mid, dst, src, size);
      CheckedAligned(lib.areas, ctx.g, true, dst, src, size, true, aligned);
      WriteMarkedDone(lib, ctx, i, s, t, c, mid, dst, src, size, aligned, first, n);
      StatesOf(lib);
      SamePointer(ctx.g, c, lib.flash.chip, ctx.data, tx, ctx.Tx());
      SteadyParts(ctx.g, c, lib.flash.chip);
    }
    RaisedConfined(ctx.g, SourceLayout(lib.areas, ctx.g, src), c, lib.flash.chip);
  }

  lemma RaisedConfined(g: Layout, h: Layout, c: Chip, d: Chip)
    ensures Confined(g, h, c, d, OnlyRecords) ==> Confined(g, h, c, d, NextUnits)
  {
    hide InRecord, InNextSlot;
  }

  lemma CheckedAligned(areas: seq<Area>, g: Layout, open: bool, dst: nat, src: Pointer, size: nat, transaction: bool,
                       aligned: bool)
    requires g.nvm.writeSize > 0 && WriteCheck(areas, g, open, dst, src, size, transaction, aligned) == Done
    ensures aligned ==> dst % g.nvm.writeSize == 0 && size % g.nvm.writeSize == 0
  {
  }

  lemma StateAt(g: Layout, c: Chip, data: Ref, tx: Tracking)
    requires StateOk(g, c, data, tx)
    ensures tx.Open? ==> data.At?
  {
  }

  lemma WhereBlank(g: Layout, c: Chip, dst: nat, size: nat, aligned: bool, first: nat, n: nat)
    requires Ready(g, c) && g.nvm.writeSize > 0
    requires (aligned && (dst % g.nvm.writeSize != 0 || size % g.nvm.writeSize != 0))
          || (g.area <= dst && first == (dst - g.area) / g.nvm.writeSize
              && n == AlignedSize(g, dst, size) / g.nvm.writeSize && UnitsBlank(g, c, first, n))
    ensures (aligned ==> dst % g.nvm.writeSize == 0 && size % g.nvm.writeSize == 0) ==>
              var from := dst - dst % g.nvm.writeSize - g.area;
              RangeBlank(g, c, from, from + AlignedSize(g, dst, size))
  {
    hide RingAt, AlignedSize, RangeBlank, View;
    if aligned ==> dst % g.nvm.writeSize == 0 && size % g.nvm.writeSize == 0 {
      UnitsReached(g, dst, size, first, n);
    }
  }

  lemma StagedDoesNotPersist(lib: Library, s: seq<Content>, t: seq<Content>, i: nat)
    requires i < |s| == |t| && t == s[i := s[i].(staged := t[i].staged)]
    ensures Persists(lib, t) ==> Persists(lib, s)
  {
    assert forall j :: 0 <= j < |s| ==> t[j].(staged := NoTransaction) == s[j].(staged := NoTransaction);
  }

  // What is known about area x at mid, when slots were searched for since c.
  lemma AtMid(lib: Library, x: Area, i: nat, t: seq<Content>, c: Chip, mid: Chip)
    requires Around(lib, x, c, mid) && Held(lib, t, c) && i < |lib.areas| && x == lib.areas[i]
    requires StateOk(x.g, c, x.data, x.Tx())
    ensures |t| == |lib.areas| && HeldExcept(lib, t, c, i)
    ensures StateOk(x.g, mid, x.data, x.Tx()) && t[i] == ContentOf(x.g, mid, x.Tx())
    ensures t[i].data == Committed(View(x.g, c.mem))
    ensures t[i].staged.Newest? <==> x.tracker != null
    ensures x.tracker != null ==> |t[i].staged.data| == x.g.dataSize
    ensures |t[i].data| == x.g.dataSize
  {
    hide Same, View, RingAt, StagingOk, Newer, WholeWords, Area.Ok;
    AroundSame(lib, x, c, mid);
    SameContent(x.g, c, mid, x.Tx());
    SameStateOk(x.g, c, mid, x.data, x.Tx());
    CommittedLength(x.g, c);
  }

  lemma WriteMarkedCut(lib: Library, x: Area, i: nat, t: seq<Content>, c: Chip, mid: Chip, dst: nat, src: Pointer,
                       size: nat)
    requires Around(lib, x, c, mid) && Held(lib, t, c) && i < |lib.areas| && x == lib.areas[i] && x.tracker != null
    requires StateOk(x.g, c, x.data, x.Tx())
    requires WriteOutcome(lib, x, c, mid, dst, src, size, true, PowerCut)
    ensures Persists(lib, t)
  {
    hide Same, View, RingAt, StagingOk, Newer, WholeWords, Area.Ok, StateOk, Around, Held, HeldExcept, Persists,
         CutFill, Image, ContentOf;
    AtMid(lib, x, i, t, c, mid);
    AfterStagingCut(lib, x, i, t, c, mid);
  }

  // Programming whole units over spoiled ones: only the bytes of the source make a difference.
  lemma OverSpoiled(newest: seq<byte>, data: seq<byte>, at: nat, n: nat, off: nat, b: seq<byte>)
    requires |newest| == |data| && at <= off && off + |b| <= at + n <= |data|
    requires SameIn(newest, data, at, n)
    ensures Splice(Spoiled(newest, at, n), at, Splice(data, off, b)[at..at + n]) == Splice(newest, off, b)
  {
    var seg := Splice(data, off, b)[at..at + n];
    var x, y := Splice(Spoiled(newest, at, n), at, seg), Splice(newest, off, b);
    forall k | 0 <= k < |data|
      ensures x[k] == y[k]
    {
      if at <= k < at + n {
        assert x[k] == seg[k - at];
      }
    }
  }

  lemma SameSources(areas: seq<Area>, s: seq<Content>, t: seq<Content>, i: nat, m: seq<byte>, src: Pointer, size: nat)
    requires i < |s| == |t| && t == s[i := s[i].(staged := t[i].staged)]
    ensures SourceContent(areas, t, m, src, size) == SourceContent(areas, s, m, src, size)
  {
    assert forall j :: 0 <= j < |s| ==> t[j].data == s[j].data;
  }

  lemma WriteMarkedDone(lib: Library, x: Area, i: nat, s: seq<Content>, t: seq<Content>, c: Chip, mid: Chip, dst: nat,
                        src: Pointer, size: nat, aligned: bool, first: nat, n: nat)
    requires Around(lib, x, c, mid) && Held(lib, t, c) && i < |lib.areas| == |s| && x == lib.areas[i]
    requires x.tracker != null && x.copied == 0 && StateOk(x.g, c, x.data, x.Tx())
    requires x.g.Valid() && x.g.nvm.writeSize > 0 && WriteOutcome(lib, x, c, mid, dst, src, size, true, Done)
    requires s[i].staged.Newest? && t == s[i := s[i].(staged := Newest(SpoiledUnits(x.g, s[i].staged.data, first, n)))]
    requires NoneLeft(x.tracker[..], first, n)
    requires x.g.area <= dst && first == (dst - x.g.area) / x.g.nvm.writeSize
    requires n == AlignedSize(x.g, dst, size) / x.g.nvm.writeSize && UnstagedIn(x.g, s[i], first, n)
    ensures Valid(lib) && HoldingStaged(lib, s, i, StagedWith(lib.areas, x.g, s, c.mem, i, dst, src, size))
  {
    hide Same, View, RingAt, StagingOk, Newer, WholeWords, Area.Ok, StateOk, Around, Held, HeldExcept, Persists,
         CutFill, Image, ContentOf, Layout.SlotSize, Layout.SlotCount, Layout.SlotBase, Layout.Valid, Filled,
         Splice, Spoiled, AlignedSize, Valid, Holding, NoneLeft, Taken, SourceContent, Library.Linked, WrittenTo;
    AtMid(lib, x, i, t, c, mid);
    UnitsReached(x.g, dst, size, first, n);
    AlignedSizeFacts(x.g, dst, size);
    WrittenWhere(lib, x, c, mid, dst, src, size);
    var image := Image(lib.areas, x.g, c, dst, src, size);
    ImageIsWritten(lib, t, c, i, dst, src, size);
    SameSources(lib.areas, s, t, i, c.mem, src, size);
    var at, len := dst - dst % x.g.nvm.writeSize - x.g.area, AlignedSize(x.g, dst, size);
    TakenRange(x.g, x.Tx().marks, first, n, at, len);
    AfterStaging(lib, x, i, t, c, mid, at, image[at..at + len]);
    OverSpoiled(s[i].staged.data, s[i].data, at, len, dst - x.g.area, SourceContent(lib.areas, s, c.mem, src, size));
    WrittenIsSplice(x.g, s[i].data, dst, SourceContent(lib.areas, s, c.mem, src, size));
    WrittenIsSplice(x.g, s[i].staged.data, dst, SourceContent(lib.areas, s, c.mem, src, size));
    var b := Splice(t[i].staged.data, at, image[at..at + len]);
    assert b == StagedWith(lib.areas, x.g, s, c.mem, i, dst, src, size);
    assert t[i := t[i].(staged := Newest(b))] == s[i := s[i].(staged := Newest(b))];
  }

  lemma WrittenIsSplice(g: Layout, data: seq<byte>, dst: nat, b: seq<byte>)
    ensures g.area <= dst && dst - g.area + |b| <= |data| ==>
              WrittenTo(g, data, dst, b) == Splice(data, dst - g.area, b)
  {
    hide Splice;
  }

  // Every one of the n units from `first` on is marked.
  predicate NoneLeft(bits: seq<bv8>, first: nat, n: nat) {
    forall k :: first <= k < first + n ==> Marked(bits, k)
  }

  lemma WrittenWhere(lib: Library, x: Area, c: Chip, mid: Chip, dst: nat, src: Pointer, size: nat)
    requires WriteOutcome(lib, x, c, mid, dst, src, size, true, Done)
    ensures Writable(lib.areas, x.g, c, dst, src, size) && Ready(x.g, mid)
    ensures var image := Image(lib.areas, x.g, c, dst, src, size);
            var at, len := dst - dst % x.g.nvm.writeSize - x.g.area, AlignedSize(x.g, dst, size);
            && at >= 0 && at + len <= x.g.dataSize == |image|
            && lib.flash.chip == Filled(x.g, mid, Next(View(x.g, mid.mem)), at, image[at..at + len])
  {
    hide View, RingAt, Image, Filled, AlignedSize, CutFill, UpdatedTo, UpdateCut, WornOnce;
  }

  lemma WrittenKeepsWear(lib: Library, x: Area, c: Chip, mid: Chip, dst: nat, src: Pointer, size: nat)
    requires Around(lib, x, c, mid) && x in lib.areas && WriteOutcome(lib, x, c, mid, dst, src, size, true, Done)
    ensures WearKept(x.g, c, lib.flash.chip)
  {
    hide View, RingAt, Image, AlignedSize, CutFill, UpdatedTo, UpdateCut, WornOnce, WearKept, Same, Splice,
         Layout.Valid;
    AroundSame(lib, x, c, mid);
    SameKeepsWear(x.g, c, mid);
    FillKeepsWear(x.g, mid, lib.flash.chip);
    WearKeptTrans(x.g, c, mid, lib.flash.chip);
  }

  lemma FillKeepsWear(g: Layout, c: Chip, d: Chip)
    ensures c.wear == d.wear ==> WearKept(g, c, d)
  {
  }

  lemma TakenRange(g: Layout, marks: Marks, first: nat, n: nat, at: nat, len: nat)
    requires g.nvm.writeSize > 0 && at == first * g.nvm.writeSize && len == n * g.nvm.writeSize
    requires NoneLeft(marks.bits, first, n)
    ensures forall k :: at <= k < at + len ==> Taken(marks, UnitOf(g, k))
  {
    hide Marked;
    SumOfProducts(first, n, g.nvm.writeSize);
    forall k | at <= k < at + len
      ensures Taken(marks, UnitOf(g, k))
    {
      hide UnitOf;
      UnitRange(g, first, n, k);
    }
  }

  // first and n are the units the range reaches, unless it is misaligned where it must not be.
  predicate Reaches(g: Layout, dst: nat, size: nat, aligned: bool, first: nat, n: nat) {
    && g.nvm.writeSize > 0
    && ((aligned && (dst % g.nvm.writeSize != 0 || size % g.nvm.writeSize != 0))
        || (g.area <= dst && first == (dst - g.area) / g.nvm.writeSize
            && n == AlignedSize(g, dst, size) / g.nvm.writeSize))
  }

  // lftl_transaction_write and lftl_transaction_write_any, with the units they reach worked out. The call
  // is refused when one of its units is marked already, or on the grounds write_core has; a refused call
  // leaves the units it marked on the way erased in the newer data. A call that succeeds splices the bytes
  // of the source into the newer data; the committed data never changes.
  method WriteUnits(lib: Library, ctx: Area, dst: nat, src: Pointer, size: nat, aligned: bool, first: nat, n: nat,
                    ghost i: nat, ghost s: seq<Content>) returns (o: Outcome)
    requires Valid(lib) && Holding(lib, s) && i < |lib.areas| && ctx == lib.areas[i]
    requires ctx.tracker != null && ctx.copied == 0 && (first + n + 7) / 8 <= ctx.tracker.Length
    requires SourceOk(lib.areas, ctx, lib.flash.chip.mem, src, size)
    requires Reaches(ctx.g, dst, size, aligned, first, n)
    modifies lib.flash, lib.areas`data, ctx.tracker
    ensures lib.flash.cuts == old(lib.flash.cuts) + if o == PowerCut then 1 else 0
    ensures MarkedUpTo(old(ctx.tracker[..]), first, n, old(ctx.tracker)[..])
    ensures o != PowerCut ==>
              o == TxWriteCheck(lib.areas, ctx.g, old(ctx.tracker[..]), first, n, dst, src, size, aligned)
    ensures o.Raised? ==>
              && Valid(lib)
              && HoldingStaged(lib, s, i, SpoiledBy(ctx.g, old(ctx.tracker[..]), NewestOf(s, i), first, n))
    ensures o == Done ==> Valid(lib)
                          && HoldingStaged(lib, s, i,
                              StagedWith(lib.areas, ctx.g, s, old(lib.flash.chip).mem, i, dst, src, size))
    ensures o == PowerCut ==> Persists(lib, s)
    ensures Confined(ctx.g, SourceLayout(lib.areas, ctx.g, src), old(lib.flash.chip), lib.flash.chip,
                     Within(o, NextUnits))
    ensures o == Done ==> Steady(ctx.g, old(lib.flash.chip), lib.flash.chip)
  {
    hide Layout.SlotSize, Layout.SlotCount, Layout.SlotBase, Layout.Valid, View, Same, SameOutside, RingAt,
         StagingOk, Area.Ok, Holding, Persists, Valid, Marked, SourceOk, WriteCheck, NoneMarkedIn, NoneLeft,
         SpoiledUnits, Unmarked, MarkRange, StagedWith, AlignedSize, UnstagedIn, UnitsBlank, Steady, Confined,
         SourceLayout;
    var ok;
    ok := MarkStep(lib, ctx, first, n, i, s);
    if !ok {
      ValidChip(lib, ctx);
      NothingConfined(ctx.g, SourceLayout(lib.areas, ctx.g, src), lib.flash.chip, OnlyRecords);
      return Raised(ERROR_TRANSACTION_OVERWRITE);
    }
    AllUnmarked(old(ctx.tracker[..]), first, n);
    AllMarkedNow(old(ctx.tracker[..]), first, n);
    ReadyIn(lib, ctx);
    o := WriteMarked(lib, ctx, dst, src, size, aligned, i, s, first, n);
  }

  lemma AllMarkedNow(bits: seq<bv8>, first: nat, n: nat)
    requires (first + n + 7) / 8 <= |bits|
    ensures NoneLeft(MarkRange(bits, first, n), first, n)
  {
    hide Marked;
    forall k | first <= k < first + n
      ensures Marked(MarkRange(bits, first, n), k)
    {
      RangeMarks(bits, first, n, k);
    }
  }

  // The write unit logical address dst lies in.
  function FirstUnit(g: Layout, dst: nat): nat {
    if g.nvm.writeSize == 0 || dst < g.area then 0 else (dst - g.area) / g.nvm.writeSize
  }

  // The units an aligned write covers, and the units any write reaches.
  function WholeUnits(g: Layout, size: nat): nat {
    if g.nvm.writeSize == 0 then 0 else size / g.nvm.writeSize
  }

  function ReachedUnits(g: Layout, dst: nat, size: nat): nat {
    if g.nvm.writeSize == 0 then 0 else (size + dst % g.nvm.writeSize + g.nvm.writeSize - 1) / g.nvm.writeSize
  }

  // dst lies in the area or after it, and the tracker has a bit for every unit a write of n units covers.
  ghost predicate InTracker(ctx: Area, dst: nat, n: nat)
    reads ctx`tracker
  {
    ctx.tracker != null && ctx.g.area <= dst && (FirstUnit(ctx.g, dst) + n + 7) / 8 <= ctx.tracker.Length
  }

  lemma AlignedReach(g: Layout, dst: nat, size: nat)
    requires g.nvm.writeSize > 0 && g.area <= dst
    ensures Reaches(g, dst, size, true, FirstUnit(g, dst), WholeUnits(g, size))
  {
  }

  lemma UnalignedReach(g: Layout, dst: nat, size: nat)
    requires g.nvm.writeSize > 0 && g.area <= dst
    ensures Reaches(g, dst, size, false, FirstUnit(g, dst), ReachedUnits(g, dst, size))
  {
    var w := g.nvm.writeSize;
    var x := size + dst % w;
    assert x == (x / w) * w + x % w;
    if x % w == 0 {
      DivUnique(x + w - 1, w, x / w);
    } else {
      DivUnique(x + w - 1, w, x / w + 1);
      DivUnique(x + w - x % w, w, x / w + 1);
    }
  }

  // lftl_transaction_write
  method TransactionWrite(lib: Library, ctx: Area, dst: nat, src: Pointer, size: nat, ghost i: nat,
                          ghost s: seq<Content>)
    returns (o: Outcome)
    requires Valid(lib) && Holding(lib, s) && i < |lib.areas| && ctx == lib.areas[i] && ctx.copied == 0
    requires SourceOk(lib.areas, ctx, lib.flash.chip.mem, src, size)
    requires ctx.tracker != null ==> InTracker(ctx, dst, WholeUnits(ctx.g, size))
    modifies lib.flash, lib.areas`data, if ctx.tracker == null then {} else {ctx.tracker}
    ensures lib.flash.cuts == old(lib.flash.cuts) + if o == PowerCut then 1 else 0
    ensures old(ctx.tracker) == null ==> o == Raised(ERROR_NO_TRANSACTION) && Valid(lib) && Holding(lib, s)
    ensures old(ctx.tracker) != null ==>
              && WriteResult(lib, ctx, old(ctx.tracker[..]), old(lib.flash.chip).mem, dst, src, size, true,
                             WholeUnits(ctx.g, size), i, s, o)
    ensures old(ctx.tracker) != null && o != PowerCut ==>
              ctx.g.nvm.writeSize > 0 && Misaligned(ctx.g, old(ctx.tracker[..]), dst, size, o)
    ensures Confined(ctx.g, SourceLayout(lib.areas, ctx.g, src), old(lib.flash.chip), lib.flash.chip,
                     Within(o, NextUnits))
    ensures o == Done ==> Steady(ctx.g, old(lib.flash.chip), lib.flash.chip)
  {
    hide Layout.SlotSize, Layout.Valid, Valid, Holding, SourceOk, Reaches, Persists, HoldingStaged, TxWriteCheck,
         Steady, Confined, SourceLayout, Misaligned;
    if ctx.tracker == null {
      ValidChip(lib, ctx);
      NothingConfined(ctx.g, SourceLayout(lib.areas, ctx.g, src), lib.flash.chip, OnlyRecords);
      return Raised(ERROR_NO_TRANSACTION);
    }
    ValidParts(lib);
    AlignedReach(ctx.g, dst, size);
    var writeSize := ctx.g.nvm.writeSize;
    var units := size / writeSize;
    var offset := dst - ctx.g.area;
    o := WriteUnits(lib, ctx, dst, src, size, true, offset / writeSize, units, i, s);
    if o != PowerCut {
      MisalignedCodes(lib.areas, ctx.g, old(ctx.tracker[..]), FirstUnit(ctx.g, dst), WholeUnits(ctx.g, size), dst, src,
        size);
    }
  }

  // A unit touched before is the first ground for a refusal, the alignment of address and size the next ones.
  predicate Misaligned(g: Layout, bits: seq<bv8>, dst: nat, size: nat, o: Outcome)
    requires g.nvm.writeSize > 0
  {
    if !NoneMarkedIn(bits, FirstUnit(g, dst), WholeUnits(g, size)) then o == Raised(0x09)
    else && (dst % g.nvm.writeSize != 0 ==> o == Raised(0x05))
         && (dst % g.nvm.writeSize == 0 && size % g.nvm.writeSize != 0 ==> o == Raised(0x06))
  }

  lemma MisalignedCodes(areas: seq<Area>, g: Layout, bits: seq<bv8>, first: nat, n: nat, dst: nat, src: Pointer,
                        size: nat)
    requires g.nvm.writeSize > 0 && first == FirstUnit(g, dst) && n == WholeUnits(g, size)
    ensures Misaligned(g, bits, dst, size, TxWriteCheck(areas, g, bits, first, n, dst, src, size, true))
  {
    hide FirstUnit, WholeUnits, NoneMarkedIn;
  }

  // An aligned write covers all its whole write units, and a write the units it reaches into.
  lemma WholeUnitsAre(g: Layout, size: nat)
    requires g.nvm.writeSize > 0
    ensures WholeUnits(g, size) * g.nvm.writeSize <= size < (WholeUnits(g, size) + 1) * g.nvm.writeSize
  {
    DivBounds(size, g.nvm.writeSize);
  }

  // What a transaction write did to the tracker, which held bits, and to the data.
  ghost predicate WriteResult(lib: Library, ctx: Area, bits: seq<bv8>, m: seq<byte>, dst: nat, src: Pointer, size: nat,
                              aligned: bool, n: nat, i: nat, s: seq<Content>, o: Outcome)
    reads lib, lib.areas, lib.flash, set a | a in lib.areas :: a.tracker, ctx, ctx.tracker
  {
    var first := FirstUnit(ctx.g, dst);
    && ctx.tracker != null && ctx.g.nvm.writeSize > 0 && MarkedUpTo(bits, first, n, ctx.tracker[..])
    && (o != PowerCut ==> o == TxWriteCheck(lib.areas, ctx.g, bits, first, n, dst, src, size, aligned))
    && (o.Raised? ==> Valid(lib) && HoldingStaged(lib, s, i, SpoiledBy(ctx.g, bits, NewestOf(s, i), first, n)))
    && (o == Done ==>
          Valid(lib) && HoldingStaged(lib, s, i, StagedWith(lib.areas, ctx.g, s, m, i, dst, src, size)))
    && (o == PowerCut ==> Persists(lib, s))
  }

  lemma WholeIsReached(g: Layout, dst: nat, size: nat)
    requires g.nvm.writeSize > 0 && dst % g.nvm.writeSize == 0 && size % g.nvm.writeSize == 0
    ensures ReachedUnits(g, dst, size) == WholeUnits(g, size)
  {
    var w := g.nvm.writeSize;
    assert size == (size / w) * w;
    DivUnique(size + w - 1, w, size / w);
  }

  lemma SameFirstUnit(g: Layout, dst: nat)
    requires g.Valid() && g.area <= dst
    ensures dst - dst % g.nvm.writeSize >= g.area
    ensures (dst - dst % g.nvm.writeSize - g.area) / g.nvm.writeSize == FirstUnit(g, dst)
  {
    FloorAgain(g.area, dst - g.area, g.nvm.writeSize);
  }

  lemma FloorAgain(base: nat, off: nat, w: nat)
    requires w > 0 && base % w == 0
    ensures (base + off) % w <= off
    ensures (off - (base + off) % w) / w == off / w
  {
    var q, r := off / w, off % w;
    ModAdd(base, off, w);
    assert off == q * w + r;
    DivUnique(q * w, w, q);
  }

  // lftl_transaction_write_any
  method TransactionWriteAny(lib: Library, ctx: Area, dst: nat, src: Pointer, size: nat, ghost i: nat,
                             ghost s: seq<Content>)
    returns (o: Outcome)
    requires Valid(lib) && Holding(lib, s) && i < |lib.areas| && ctx == lib.areas[i] && ctx.copied == 0
    requires SourceOk(lib.areas, ctx, lib.flash.chip.mem, src, size)
    requires ctx.tracker != null ==> InTracker(ctx, dst, ReachedUnits(ctx.g, dst, size))
    modifies lib.flash, lib.areas`data, if ctx.tracker == null then {} else {ctx.tracker}
    ensures lib.flash.cuts == old(lib.flash.cuts) + if o == PowerCut then 1 else 0
    ensures old(ctx.tracker) == null ==> o == Raised(ERROR_NO_TRANSACTION) && Valid(lib) && Holding(lib, s)
    ensures old(ctx.tracker) != null && ctx.g.nvm.writeSize > 0 ==>
              var aligned := dst % ctx.g.nvm.writeSize == 0 && size % ctx.g.nvm.writeSize == 0;
              WriteResult(lib, ctx, old(ctx.tracker[..]), old(lib.flash.chip).mem, dst, src, size, aligned,
                          ReachedUnits(ctx.g, dst, size), i, s, o)
    ensures Confined(ctx.g, SourceLayout(lib.areas, ctx.g, src), old(lib.flash.chip), lib.flash.chip,
                     Within(o, NextUnits))
    ensures o == Done ==> Steady(ctx.g, old(lib.flash.chip), lib.flash.chip)
  {
    hide Layout.SlotSize, Layout.Valid, Valid, Holding, SourceOk, Reaches, Persists, HoldingStaged, TxWriteCheck,
         SpoiledUnits, StagedWith, FirstUnit, ReachedUnits, Steady, Confined, SourceLayout;
    ValidParts(lib);
    var writeSize := ctx.g.nvm.writeSize;
    var misalign := dst % writeSize;
    if misalign == 0 && size % writeSize == 0 {
      WholeIsReached(ctx.g, dst, size);
      o := TransactionWrite(lib, ctx, dst, src, size, i, s);
    } else {
      o := WriteUnaligned(lib, ctx, dst, src, size, i, s);
    }
  }

  // The branch of lftl_transaction_write_any for ranges that are not whole units.
  method WriteUnaligned(lib: Library, ctx: Area, dst: nat, src: Pointer, size: nat, ghost i: nat, ghost s: seq<Content>)
    returns (o: Outcome)
    requires Valid(lib) && Holding(lib, s) && i < |lib.areas| && ctx == lib.areas[i] && ctx.copied == 0
    requires SourceOk(lib.areas, ctx, lib.flash.chip.mem, src, size)
    requires ctx.tracker != null ==> InTracker(ctx, dst, ReachedUnits(ctx.g, dst, size))
    modifies lib.flash, lib.areas`data, if ctx.tracker == null then {} else {ctx.tracker}
    ensures lib.flash.cuts == old(lib.flash.cuts) + if o == PowerCut then 1 else 0
    ensures old(ctx.tracker) == null ==> o == Raised(ERROR_NO_TRANSACTION) && Valid(lib) && Holding(lib, s)
    ensures old(ctx.tracker) != null ==>
              WriteResult(lib, ctx, old(ctx.tracker[..]), old(lib.flash.chip).mem, dst, src, size, false,
                          ReachedUnits(ctx.g, dst, size), i, s, o)
    ensures Confined(ctx.g, SourceLayout(lib.areas, ctx.g, src), old(lib.flash.chip), lib.flash.chip,
                     Within(o, NextUnits))
    ensures o == Done ==> Steady(ctx.g, old(lib.flash.chip), lib.flash.chip)
  {
    hide Layout.SlotSize, Layout.Valid, Valid, Holding, SourceOk, Reaches, Persists, HoldingStaged, TxWriteCheck,
         SpoiledUnits, StagedWith, FirstUnit, Steady, Confined, SourceLayout, Library.Linked, MarkRange;
    if ctx.tracker == null {
      ValidChip(lib, ctx);
      NothingConfined(ctx.g, SourceLayout(lib.areas, ctx.g, src), lib.flash.chip, OnlyRecords);
      return Raised(ERROR_NO_TRANSACTION);
    }
    ValidParts(lib);
    UnalignedReach(ctx.g, dst, size);
    SameFirstUnit(ctx.g, dst);
    var writeSize := ctx.g.nvm.writeSize;
    var misalign := dst % writeSize;
    var dstAligned := dst - misalign;
    var units := (size + misalign + writeSize - 1) / writeSize;
    var offset := dstAligned - ctx.g.area;
    o := WriteUnits(lib, ctx, dst, src, size, false, offset / writeSize, units, i, s);
  }

  // ---------------------------------------------------------------- refused writes

  // Every byte of n units from `first` on is erased in b.
  predicate ErasedUnits(g: Layout, b: seq<byte>, first: nat, n: nat) {
    var at, len := first * g.nvm.writeSize, n * g.nvm.writeSize;
    forall k :: at <= k < at + len && k < |b| ==> b[k] == ERASED
  }

  lemma SpoiledSame(g: Layout, b: seq<byte>, first: nat, n: nat)
    ensures SpoiledUnits(g, b, first, n) == b <==> ErasedUnits(g, b, first, n)
  {
    var at, len := first * g.nvm.writeSize, n * g.nvm.writeSize;
    SpoiledStretch(b, at, len);
  }

  lemma SpoiledStretch(b: seq<byte>, at: nat, len: nat)
    ensures Spoiled(b, at, len) == b <==> forall k :: at <= k < at + len && k < |b| ==> b[k] == ERASED
  {
    var r := Spoiled(b, at, len);
    if forall k :: at <= k < at + len && k < |b| ==> b[k] == ERASED {
      assert forall k :: 0 <= k < |b| ==> r[k] == b[k];
    }
    if r == b {
      assert forall k :: at <= k < at + len && k < |b| ==> r[k] == ERASED;
    }
  }

  // The memory and the trackers determine what the areas hold.
  lemma HoldingOnce(lib: Library, s: seq<Content>, t: seq<Content>)
    requires Holding(lib, s) && Holding(lib, t)
    ensures s == t
  {
    hide TxOk, ContentOf;
  }

  // A transaction write that is refused leaves what the areas hold as it was exactly when the units it
  // reaches before the first one touched already are erased in the newer data anyway. A commit after it
  // would otherwise commit erased bytes there (Isolation.RefusedIsCommitted).
  lemma RefusedIsHarmless(lib: Library, ctx: Area, bits: seq<bv8>, m: seq<byte>, dst: nat, src: Pointer, size: nat,
                          aligned: bool, n: nat, i: nat, s: seq<Content>, o: Outcome)
    requires WriteResult(lib, ctx, bits, m, dst, src, size, aligned, n, i, s, o) && o.Raised?
    ensures i < |s| && s[i].staged.Newest?
    ensures var first := FirstUnit(ctx.g, dst);
            Holding(lib, s) <==> ErasedUnits(ctx.g, s[i].staged.data, first, Unmarked(bits, first, n))
  {
    hide Valid, Holding, ErasedUnits, SpoiledUnits, FirstUnit, TxWriteCheck, MarkRange, Unmarked;
    var first := FirstUnit(ctx.g, dst);
    var b, done := s[i].staged.data, Unmarked(bits, first, n);
    var t := s[i := s[i].(staged := Newest(SpoiledUnits(ctx.g, b, first, done)))];
    SpoiledSame(ctx.g, b, first, done);
    if Holding(lib, s) {
      HoldingOnce(lib, s, t);
      assert t[i].staged.data == b;
    }
    if ErasedUnits(ctx.g, b, first, done) {
      assert t == s;
    }
  }
}
