/** A whole transaction: start, any number of writes, commit. */
module Batch {
  import opened Areas
  import opened Arithmetic
  import Access
  import opened Bytes
  import opened Commit
  import opened Contents
  import opened Flash
  import opened Ftl
  import opened Geometry
  import opened Operations
  import opened Overlay
  import opened Registry
  import Staging
  import opened Tracker
  import opened Transactions
  import opened Updates

  // A write of p reaches write unit u.
  predicate Touches(g: Layout, p: Patch, u: nat) {
    var first := FirstUnit(g, g.area + p.at);
    first <= u < first + ReachedUnits(g, g.area + p.at, |p.bytes|)
  }

  // No two patches reach the same write unit.
  ghost predicate UnitsApart(g: Layout, ps: seq<Patch>) {
    forall i, j, u: nat :: 0 <= i < j < |ps| && Touches(g, ps[i], u) ==> !Touches(g, ps[j], u)
  }

  // The units a patch reaches span its bytes.
  lemma PatchUnits(g: Layout, p: Patch, k: nat)
    requires g.Valid() && Inside(p, g.dataSize)
    ensures p.Covers(k) ==> Touches(g, p, UnitOf(g, k))
    ensures FirstUnit(g, g.area + p.at) + ReachedUnits(g, g.area + p.at, |p.bytes|) <= g.Units()
  {
    hide Layout.SlotSize, Layout.Valid, Layout.Units, ReachedUnits, FirstUnit, UnitOf;
    var dst := g.area + p.at;
    PatchReach(g, p);
    var first, n := FirstUnit(g, dst), ReachedUnits(g, dst, |p.bytes|);
    if p.Covers(k) {
      Staging.UnitRange(g, first, n, k);
    }
    assert g.Units() * g.nvm.writeSize == g.dataSize by { UnitsAreData(g); }
    NoMoreUnits(first + n, g.Units(), g.nvm.writeSize);
  }

  lemma UnitsAreData(g: Layout)
    requires g.Valid()
    ensures g.Units() * g.nvm.writeSize == g.dataSize && g.nvm.writeSize > 0
  {
    hide Layout.SlotSize;
    TrackerCovers(g, 0);
  }

  lemma NoMoreUnits(a: nat, b: nat, w: nat)
    ensures a * w < b * w + w ==> a <= b
  {
    if a > b {
      MulMonotone(b + 1, a, w);
    }
  }

  // The first unit begins at or before the patch, the last one ends less than a unit after it.
  lemma PatchReach(g: Layout, p: Patch)
    requires g.Valid() && Inside(p, g.dataSize)
    ensures var w, first, n := g.nvm.writeSize, FirstUnit(g, g.area + p.at), ReachedUnits(g, g.area + p.at, |p.bytes|);
            first * w <= p.at && p.at + |p.bytes| <= (first + n) * w < p.at + |p.bytes| + w
  {
    hide Layout.SlotSize;
    var w := g.nvm.writeSize;
    var dst := g.area + p.at;
    var first, n := FirstUnit(g, dst), ReachedUnits(g, dst, |p.bytes|);
    ModAdd(g.area, p.at, w);
    assert p.at == first * w + p.at % w;
    DivBounds(|p.bytes| + dst % w + w - 1, w);
    SumOfProducts(first, n, w);
  }

  // Patches that reach no unit in common cover no byte in common.
  lemma ApartIsDisjoint(g: Layout, ps: seq<Patch>)
    requires g.Valid() && AllInside(ps, g.dataSize) && UnitsApart(g, ps)
    ensures Disjoint(ps)
  {
    hide Touches, UnitOf, Layout.Valid, Layout.Units, FirstUnit, ReachedUnits;
    forall i, j, k | 0 <= i < j < |ps| && ps[i].Covers(k)
      ensures !ps[j].Covers(k)
    {
      PatchUnits(g, ps[i], k);
      PatchUnits(g, ps[j], k);
    }
  }

  lemma StaysApart(g: Layout, ps: seq<Patch>, qs: seq<Patch>)
    requires UnitsApart(g, ps) && multiset(ps) == multiset(qs)
    ensures UnitsApart(g, qs)
  {
    hide Touches;
    forall i, j, u: nat | 0 <= i < j < |qs| && Touches(g, qs[i], u)
      ensures !Touches(g, qs[j], u)
    {
      TwoPlaces(ps, qs, i, j);
    }
  }

  // ps without its member number k.
  function Skip(ps: seq<Patch>, k: nat): (r: seq<Patch>)
    requires k < |ps|
    ensures |r| == |ps| - 1
  {
    ps[..k] + ps[k + 1..]
  }

  lemma Skipped(ps: seq<Patch>, k: nat, l: nat)
    requires k < |ps| && l < |ps| - 1
    ensures Skip(ps, k)[l] == ps[if l < k then l else l + 1]
  {
  }

  lemma SkippedMultiset(ps: seq<Patch>, k: nat)
    requires k < |ps|
    ensures multiset(Skip(ps, k)) == multiset(ps) - multiset{ps[k]}
  {
    assert ps == ps[..k] + [ps[k]] + ps[k + 1..];
  }

  // Two members of a sequence are found at two places of any permutation of it.
  lemma TwoPlaces(ps: seq<Patch>, qs: seq<Patch>, i: nat, j: nat)
    requires multiset(ps) == multiset(qs) && i < j < |qs|
    ensures exists k, l :: 0 <= k < |ps| && 0 <= l < |ps| && k != l && ps[k] == qs[i] && ps[l] == qs[j]
  {
    hide Skip;
    SamePatches(qs, ps, i);
    var k :| 0 <= k < |ps| && ps[k] == qs[i];
    SkippedMultiset(ps, k);
    SkippedMultiset(qs, i);
    Skipped(qs, i, j - 1);
    SamePatches(Skip(qs, i), Skip(ps, k), j - 1);
    var l :| 0 <= l < |Skip(ps, k)| && Skip(ps, k)[l] == qs[j];
    Skipped(ps, k, l);
  }

  // Writes that can be made in one transaction can be made in any order, to the same effect.
  lemma AnyOrder(g: Layout, d: seq<byte>, ps: seq<Patch>, qs: seq<Patch>)
    requires g.Valid() && |d| == g.dataSize && AllInside(ps, |d|) && UnitsApart(g, ps) && multiset(ps) == multiset(qs)
    ensures UnitsApart(g, qs) && AllInside(qs, |d|) && Overlaid(d, qs) == Overlaid(d, ps)
  {
    hide Layout.Valid, Touches, Overlaid, UnitsApart;
    StaysApart(g, ps, qs);
    forall i | 0 <= i < |qs|
      ensures Inside(qs[i], |d|)
    {
      SamePatches(qs, ps, i);
    }
    ApartIsDisjoint(g, ps);
    ApartIsDisjoint(g, qs);
    OrderDoesNotMatter(d, ps, qs);
  }

  // What write_core and the tracker have to say about writing p from RAM while bits are marked.
  lemma PatchCheck(areas: seq<Area>, g: Layout, bits: seq<bv8>, p: Patch)
    requires g.Valid() && Inside(p, g.dataSize)
    ensures var dst, size := g.area + p.at, |p.bytes|;
            TxWriteCheck(areas, g, bits, FirstUnit(g, dst), ReachedUnits(g, dst, size), dst, Ram(p.bytes, 0), size,
                         Access.WholeRange(g, dst, size))
            == (if NoneMarkedIn(bits, FirstUnit(g, dst), ReachedUnits(g, dst, size)) then Done
                else Raised(ERROR_TRANSACTION_OVERWRITE))
  {
    hide Layout.SlotSize, ReachedUnits, FirstUnit, NoneMarkedIn, AlignedSize;
    var w := g.nvm.writeSize;
    var dst, size := g.area + p.at, |p.bytes|;
    AlignedSizeFacts(g, dst, size);
    SameFirstUnit(g, dst);
    ModUnique(g.dataSize, w, g.dataSize / w, 0);
    var at := dst - dst % w - g.area;
    AlignedOffset(g, dst, at);
    AlignedFits(at, AlignedSize(g, dst, size), p.at + size, g.dataSize, w);
  }

  // A whole number of units that ends less than a unit after `end` ends at or before any unit boundary
  // after `end`.
  lemma AlignedFits(at: nat, n: nat, end: nat, limit: nat, w: nat)
    requires w > 0 && at % w == 0 && n % w == 0 && limit % w == 0
    requires at + n < end + w && end <= limit
    ensures at + n <= limit
  {
    ModAdd(at, n, w);
    var a, l := (at + n) / w, limit / w;
    assert at + n == a * w && limit == l * w;
    if a > l {
      MulMonotone(l + 1, a, w);
    } else {
      MulMonotone(a, l, w);
    }
  }

  lemma PatchStaged(areas: seq<Area>, g: Layout, s: seq<Content>, m: seq<byte>, i: nat, p: Patch)
    requires i < |s| && s[i].staged.Newest? && Inside(p, |s[i].staged.data|)
    ensures StagedWith(areas, g, s, m, i, g.area + p.at, Ram(p.bytes, 0), |p.bytes|)
              == Splice(s[i].staged.data, p.at, p.bytes)
  {
    assert p.bytes[0..|p.bytes|] == p.bytes;
  }

  // bits are those of the units the patches reach.
  ghost predicate MarksPatches(g: Layout, bits: seq<bv8>, ps: seq<Patch>) {
    forall u: nat :: u < g.Units() ==> (Marked(bits, u) <==> exists i :: 0 <= i < |ps| && Touches(g, ps[i], u))
  }

  lemma NothingMarked(g: Layout, bits: seq<bv8>)
    requires g.Valid() && Cleared(bits, g.TrackerSize())
    ensures MarksPatches(g, bits, [])
  {
    hide Layout.SlotSize, Marked, Layout.TrackerSize, Layout.Units;
    UnitsOfTracker(g);
    forall u: nat | u < g.Units()
      ensures !Marked(bits, u)
    {
      ClearedUnmarked(bits, g.TrackerSize(), u);
    }
  }

  // The units of one more patch were marked.
  lemma OneMorePatch(g: Layout, bits: seq<bv8>, ps: seq<Patch>, p: Patch)
    requires MarksPatches(g, bits, ps)
    requires (FirstUnit(g, g.area + p.at) + ReachedUnits(g, g.area + p.at, |p.bytes|) + 7) / 8 <= |bits|
    ensures MarksPatches(g, MarkRange(bits, FirstUnit(g, g.area + p.at), ReachedUnits(g, g.area + p.at, |p.bytes|)),
              ps + [p])
  {
    hide Marked, FirstUnit, ReachedUnits, MarkRange, Layout.Units, Touches;
    var first, n := FirstUnit(g, g.area + p.at), ReachedUnits(g, g.area + p.at, |p.bytes|);
    forall u: nat | u < g.Units()
      ensures Marked(MarkRange(bits, first, n), u) <==> exists i :: 0 <= i < |ps + [p]| && Touches(g, (ps + [p])[i], u)
    {
      RangeMarks(bits, first, n, u);
      TouchesMore(g, ps, p, u);
      TouchesWhat(g, p, u);
    }
  }

  lemma TouchesWhat(g: Layout, p: Patch, u: nat)
    ensures var first := FirstUnit(g, g.area + p.at);
            Touches(g, p, u) <==> first <= u < first + ReachedUnits(g, g.area + p.at, |p.bytes|)
  {
  }

  lemma TouchesMore(g: Layout, ps: seq<Patch>, p: Patch, u: nat)
    ensures (exists i :: 0 <= i < |ps + [p]| && Touches(g, (ps + [p])[i], u))
       <==> Touches(g, p, u) || exists i :: 0 <= i < |ps| && Touches(g, ps[i], u)
  {
    hide Touches;
    var more := ps + [p];
    assert more[|ps|] == p && forall i :: 0 <= i < |ps| ==> more[i] == ps[i];
    if Touches(g, p, u) {
      assert Touches(g, more[|ps|], u);
    }
    if i :| 0 <= i < |ps| && Touches(g, ps[i], u) {
      assert Touches(g, more[i], u);
    }
  }

  // No unit of the patch is marked exactly when it keeps apart from every earlier one.
  lemma FreeIsApart(g: Layout, bits: seq<bv8>, ps: seq<Patch>, p: Patch)
    requires MarksPatches(g, bits, ps) && UnitsApart(g, ps)
    requires FirstUnit(g, g.area + p.at) + ReachedUnits(g, g.area + p.at, |p.bytes|) <= g.Units()
    ensures NoneMarkedIn(bits, FirstUnit(g, g.area + p.at), ReachedUnits(g, g.area + p.at, |p.bytes|))
       <==> UnitsApart(g, ps + [p])
  {
    hide Marked, FirstUnit, ReachedUnits;
    var first, n := FirstUnit(g, g.area + p.at), ReachedUnits(g, g.area + p.at, |p.bytes|);
    var more := ps + [p];
    assert forall i :: 0 <= i < |ps| ==> more[i] == ps[i];
    assert more[|ps|] == p;
    if !NoneMarkedIn(bits, first, n) {
      var u: nat :| first <= u < first + n && Marked(bits, u);
      var i :| 0 <= i < |ps| && Touches(g, ps[i], u);
      assert Touches(g, more[i], u) && Touches(g, more[|ps|], u);
    }
    if NoneMarkedIn(bits, first, n) {
      forall i, j, u: nat | 0 <= i < j < |more| && Touches(g, more[i], u)
        ensures !Touches(g, more[j], u)
      {
        assert Touches(g, ps[i], u);
        if j < |ps| {
          assert !Touches(g, ps[j], u);
        } else {
          assert u < g.Units() ==> Marked(bits, u);
        }
      }
    }
  }

  lemma ApartPrefix(g: Layout, ps: seq<Patch>, n: nat)
    requires n <= |ps|
    ensures UnitsApart(g, ps) ==> UnitsApart(g, ps[..n])
  {
    hide Touches;
  }

  // Where patch p has its bits, and why they are in the tracker.
  lemma PatchInTracker(g: Layout, p: Patch, length: nat)
    requires g.Valid() && Inside(p, g.dataSize) && length >= g.TrackerSize()
    ensures (FirstUnit(g, g.area + p.at) + ReachedUnits(g, g.area + p.at, |p.bytes|) + 7) / 8 <= length
  {
    hide Layout.SlotSize, FirstUnit, ReachedUnits, Layout.Units;
    PatchUnits(g, p, 0);
    UnitsOfTracker(g);
  }

  // A write of p found the tracker at bits and left it at more.
  ghost predicate PatchMarked(g: Layout, p: Patch, bits: seq<bv8>, more: seq<bv8>, o: Outcome) {
    var first, n := FirstUnit(g, g.area + p.at), ReachedUnits(g, g.area + p.at, |p.bytes|);
    && (o.Raised? ==> !NoneMarkedIn(bits, first, n))
    && (o == Done ==>
          NoneMarkedIn(bits, first, n) && (first + n + 7) / 8 <= |bits| && more == MarkRange(bits, first, n))
  }

  // lftl_transaction_write_any from RAM.
  method WritePatch(lib: Library, ctx: Area, p: Patch, ghost i: nat, ghost s: seq<Content>)
    returns (o: Outcome, ghost b: seq<byte>)
    requires Valid(lib) && Holding(lib, s) && i < |lib.areas| && ctx == lib.areas[i] && ctx.copied == 0
    requires ctx.tracker != null && ctx.tracker.Length >= ctx.g.TrackerSize()
    requires i < |s| && s[i].staged.Newest? && Inside(p, |s[i].staged.data|) && |s[i].staged.data| == ctx.g.dataSize
    modifies lib.flash, lib.areas`data, ctx.tracker
    ensures lib.flash.cuts == old(lib.flash.cuts) + if o == PowerCut then 1 else 0
    ensures o.Raised? ==> o.code == ERROR_TRANSACTION_OVERWRITE
    ensures PatchMarked(ctx.g, p, old(ctx.tracker[..]), old(ctx.tracker)[..], o)
    ensures o == Done ==> b == Splice(s[i].staged.data, p.at, p.bytes)
    ensures o != PowerCut ==> Valid(lib) && Holding(lib, s[i := s[i].(staged := Newest(b))])
    ensures o == PowerCut ==> Persists(lib, s)
    ensures Confined(ctx.g, ctx.g, old(lib.flash.chip), lib.flash.chip, NextUnits)
    ensures o == Done ==> Steady(ctx.g, old(lib.flash.chip), lib.flash.chip)
  {
    hide Steady, Confined, SourceLayout, Layout.SlotSize, Layout.Valid, Layout.TrackerSize, Valid, Holding,
         Persists, TxWriteCheck, FirstUnit, ReachedUnits, StagedWith, NoneMarkedIn, SpoiledBy, Unmarked, MarkRange;
    ValidParts(lib);
    PatchInTracker(ctx.g, p, ctx.tracker.Length);
    AllUnmarked(ctx.tracker[..], FirstUnit(ctx.g, ctx.g.area + p.at),
      ReachedUnits(ctx.g, ctx.g.area + p.at, |p.bytes|));
    PatchCheck(lib.areas, ctx.g, ctx.tracker[..], p);
    ghost var m := lib.flash.chip.mem;
    o := TransactionWriteAny(lib, ctx, ctx.g.area + p.at, Ram(p.bytes, 0), |p.bytes|, i, s);
    RamLayout(lib.areas, ctx.g, p.bytes);
    RaisedConfined(ctx.g, ctx.g, old(lib.flash.chip), lib.flash.chip);
    PatchStaged(lib.areas, ctx.g, s, m, i, p);
    b := if o == Done then Splice(s[i].staged.data, p.at, p.bytes)
         else SpoiledBy(ctx.g, old(ctx.tracker[..]), NewestOf(s, i), FirstUnit(ctx.g, ctx.g.area + p.at),
                ReachedUnits(ctx.g, ctx.g.area + p.at, |p.bytes|));
  }

  // What area i holds while the first k of the patches have been written.
  ghost function Midway(s: seq<Content>, i: nat, ps: seq<Patch>, k: nat): seq<Content>
    requires i < |s| && k <= |ps| && AllInside(ps, |s[i].data|)
  {
    s[i := s[i].(staged := Newest(Overlaid(s[i].data, ps[..k])))]
  }

  lemma MidwayStep(s: seq<Content>, i: nat, ps: seq<Patch>, k: nat)
    requires i < |s| && k < |ps| && AllInside(ps, |s[i].data|)
    ensures var x := Midway(s, i, ps, k);
            && x[i].staged.Newest? && |x[i].staged.data| == |s[i].data| && Inside(ps[k], |s[i].data|)
            && Midway(s, i, ps, k + 1)
               == x[i := x[i].(staged := Newest(Splice(x[i].staged.data, ps[k].at, ps[k].bytes)))]
  {
    hide Splice;
    assert ps[..k + 1][..k] == ps[..k];
  }

  // Patch number k of a transaction that has written the ones before it.
  method WriteNext(lib: Library, ctx: Area, ps: seq<Patch>, k: nat, ghost i: nat, ghost s: seq<Content>)
    returns (o: Outcome)
    requires Valid(lib) && i < |lib.areas| && ctx == lib.areas[i] && ctx.copied == 0
    requires ctx.tracker != null && ctx.tracker.Length >= ctx.g.TrackerSize()
    requires i < |s| && |s[i].data| == ctx.g.dataSize && AllInside(ps, ctx.g.dataSize) && k < |ps|
    requires Holding(lib, Midway(s, i, ps, k))
    requires MarksPatches(ctx.g, ctx.tracker[..], ps[..k]) && UnitsApart(ctx.g, ps[..k])
    modifies lib.flash, lib.areas`data, ctx.tracker
    ensures lib.flash.cuts == old(lib.flash.cuts) + if o == PowerCut then 1 else 0
    ensures o != PowerCut ==> o == if UnitsApart(ctx.g, ps[..k + 1]) then Done else Raised(ERROR_TRANSACTION_OVERWRITE)
    ensures o == Done ==> Valid(lib) && Holding(lib, Midway(s, i, ps, k + 1))
    ensures o == Done ==> MarksPatches(ctx.g, old(ctx.tracker)[..], ps[..k + 1])
    ensures o.Raised? ==> Valid(lib) && exists b :: HoldingStaged(lib, Midway(s, i, ps, 0), i, b)
    ensures o == PowerCut ==> Persists(lib, s)
    ensures Confined(ctx.g, ctx.g, old(lib.flash.chip), lib.flash.chip, NextUnits)
    ensures o == Done ==> Steady(ctx.g, old(lib.flash.chip), lib.flash.chip)
  {
    hide Steady, Confined, Ready, Layout.SlotSize, Layout.Valid, Layout.TrackerSize, Valid, Holding, Persists,
         MarksPatches, UnitsApart, FirstUnit, ReachedUnits, MarkRange, NoneMarkedIn, Overlaid, Splice;
    ValidParts(lib);
    ghost var before, bits := Midway(s, i, ps, k), ctx.tracker[..];
    PatchUnits(ctx.g, ps[k], 0);
    FreeIsApart(ctx.g, bits, ps[..k], ps[k]);
    PatchInTracker(ctx.g, ps[k], |bits|);
    OneMorePatch(ctx.g, bits, ps[..k], ps[k]);
    assert ps[..k] + [ps[k]] == ps[..k + 1];
    MidwayStep(s, i, ps, k);
    ghost var b;
    o, b := WritePatch(lib, ctx, ps[k], i, before);
    if o != Done {
      StagedDoesNotPersist(lib, s, before, i);
      RefusedMidway(lib, s, i, ps, k, b);
    }
  }

  // The writes of a transaction, one after the other.
  method WriteAll(lib: Library, ctx: Area, ps: seq<Patch>, ghost i: nat, ghost s: seq<Content>) returns (o: Outcome)
    requires Valid(lib) && i < |lib.areas| && ctx == lib.areas[i] && ctx.copied == 0
    requires ctx.tracker != null && ctx.tracker.Length >= ctx.g.TrackerSize()
    requires Cleared(ctx.tracker[..], ctx.g.TrackerSize())
    requires i < |s| && |s[i].data| == ctx.g.dataSize && AllInside(ps, ctx.g.dataSize)
    requires Holding(lib, Midway(s, i, ps, 0))
    modifies lib.flash, lib.areas`data, ctx.tracker
    ensures lib.flash.cuts == old(lib.flash.cuts) + if o == PowerCut then 1 else 0
    ensures o != PowerCut ==> o == if UnitsApart(ctx.g, ps) then Done else Raised(ERROR_TRANSACTION_OVERWRITE)
    ensures o == Done ==> Valid(lib) && Holding(lib, Midway(s, i, ps, |ps|))
    ensures o.Raised? ==> Valid(lib) && exists b :: HoldingStaged(lib, Midway(s, i, ps, 0), i, b)
    ensures o == PowerCut ==> Persists(lib, s)
    ensures Confined(ctx.g, ctx.g, old(lib.flash.chip), lib.flash.chip, NextUnits)
    ensures o == Done ==> Steady(ctx.g, old(lib.flash.chip), lib.flash.chip)
  {
    hide Steady, Confined, Ready, Layout.SlotSize, Layout.Valid, Layout.TrackerSize, Valid, Holding, HoldingStaged,
         Persists, MarksPatches, UnitsApart, Midway, Cleared, Library.Linked, OwnTrackers, Overlaid, AllInside;
    ValidParts(lib);
    var k := 0;
    NothingMarked(ctx.g, ctx.tracker[..]);
    assert ps[..0] == [];
    NoneApart(ctx.g);
    ReadyIn(lib, ctx);
    SteadyNow(ctx.g, lib.flash.chip);
    while k < |ps|
      invariant 0 <= k <= |ps|
      invariant Valid(lib) && Holding(lib, Midway(s, i, ps, k))
      invariant MarksPatches(ctx.g, ctx.tracker[..], ps[..k]) && UnitsApart(ctx.g, ps[..k])
      invariant lib.flash.cuts == old(lib.flash.cuts) && Steady(ctx.g, old(lib.flash.chip), lib.flash.chip)
      invariant Confined(ctx.g, ctx.g, old(lib.flash.chip), lib.flash.chip, NextUnits)
    {
      ghost var c := lib.flash.chip;
      o := WriteNext(lib, ctx, ps, k, i, s);
      SteadyTrans(ctx.g, old(lib.flash.chip), c, lib.flash.chip);
      if o != Done {
        ApartPrefix(ctx.g, ps, k + 1);
        return;
      }
      k := k + 1;
    }
    assert ps[..k] == ps;
    o := Done;
  }

  lemma RefusedMidway(lib: Library, s: seq<Content>, i: nat, ps: seq<Patch>, k: nat, b: seq<byte>)
    requires i < |s| && k <= |ps| && AllInside(ps, |s[i].data|)
    ensures var x := Midway(s, i, ps, k);
            Holding(lib, x[i := x[i].(staged := Newest(b))]) ==> HoldingStaged(lib, Midway(s, i, ps, 0), i, b)
  {
    hide Holding, Overlaid;
    var x, y := Midway(s, i, ps, k), Midway(s, i, ps, 0);
    assert x[i := x[i].(staged := Newest(b))] == y[i := y[i].(staged := Newest(b))];
  }

  lemma NoneApart(g: Layout)
    ensures UnitsApart(g, [])
  {
  }

  lemma StartsMidway(s: seq<Content>, i: nat, ps: seq<Patch>)
    requires i < |s| && AllInside(ps, |s[i].data|)
    ensures Midway(s, i, ps, 0) == s[i := s[i].(staged := Newest(s[i].data))]
  {
    assert ps[..0] == [];
  }

  // Starts a transaction, makes the writes in turn, and commits. The transaction goes through exactly
  // when no two writes reach a common unit, and then has the effect of all writes at once; a refused one
  // is aborted without effect; and a power cut at any point leaves the data of before or all of it.
  method RunTransaction(lib: Library, ctx: Area, t: array<bv8>, ps: seq<Patch>, ghost i: nat, ghost s: seq<Content>)
    returns (o: Outcome)
    requires Valid(lib) && Holding(lib, s) && i < |lib.areas| && ctx == lib.areas[i] && ctx.copied == 0
    requires ctx.data.At? && ctx.tracker == null
    requires t.Length >= ctx.g.TrackerSize() && forall a :: a in lib.areas ==> a.tracker != t
    requires AllInside(ps, ctx.g.dataSize)
    modifies lib.flash, lib.areas`data, ctx`tracker, ctx`copied, t
    ensures lib.flash.cuts == old(lib.flash.cuts) + if o == PowerCut then 1 else 0
    ensures i < |s| && |s[i].data| == ctx.g.dataSize
    ensures o != PowerCut ==> o == if UnitsApart(ctx.g, ps) then Done else Raised(ERROR_TRANSACTION_OVERWRITE)
    ensures o != PowerCut ==> ctx.tracker == null && ctx.copied == 0 && ctx.data.At?
    ensures UpdateResult(lib, i, s, Overlaid(s[i].data, ps), o)
    ensures Confined(ctx.g, ctx.g, old(lib.flash.chip), lib.flash.chip, NextSlot)
    ensures o == Done ==> Ready(ctx.g, old(lib.flash.chip)) && NextWorn(ctx.g, old(lib.flash.chip), lib.flash.chip)
  {
    hide WearKept, Steady, Confined, SameCurrent, NextWorn, Ready, Layout.SlotSize, Layout.Valid,
         Layout.TrackerSize, Valid, Holding, Persists, Held, MarksPatches, UnitsApart, FirstUnit, ReachedUnits,
         Marked, Overlaid, Cleared;
    HeldNow(lib, s);
    HeldData(lib, s, lib.flash.chip, i);
    StartsMidway(s, i, ps);
    o := TransactionStart(lib, ctx, t, i, s);
    if o == PowerCut {
      return;
    }
    ghost var started := lib.flash.chip;
    o := WriteAll(lib, ctx, ps, i, s);
    ghost var written := lib.flash.chip;
    ConfinedTrans(ctx.g, ctx.g, old(lib.flash.chip), started, written, NextSlot, NextUnits);
    if o.Raised? {
      OpenIsResolved(lib, ctx);
      ghost var b :| HoldingStaged(lib, Midway(s, i, ps, 0), i, b);
      ghost var x := Midway(s, i, ps, 0);
      TransactionAbort(lib, ctx, i, x[i := x[i].(staged := Newest(b))]);
      assert x[i := x[i].(staged := Newest(b))][i := s[i].(staged := NoTransaction)] == s;
    }
    if o == Done {
      assert ps[..|ps|] == ps;
      ghost var x := Midway(s, i, ps, |ps|);
      o := TransactionCommit(lib, ctx, i, x);
      SteadyParts(ctx.g, started, written);
      SameCurrentTrans(ctx.g, old(lib.flash.chip), started, written);
      ConfinedTrans(ctx.g, ctx.g, old(lib.flash.chip), written, lib.flash.chip, NextSlot, NextUnits);
      if o == Done {
        WearKeptTrans(ctx.g, started, written, lib.flash.chip);
        NextWornThenKept(ctx.g, old(lib.flash.chip), started, lib.flash.chip);
      }
      StagedCommitted(lib, s, x, i, Overlaid(s[i].data, ps), o);
    }
  }

  // The result of an update does not depend on what was staged before.
  lemma StagedCommitted(lib: Library, s: seq<Content>, x: seq<Content>, i: nat, d: seq<byte>, o: Outcome)
    requires i < |s| == |x| && x == s[i := s[i].(staged := x[i].staged)] && !o.Raised?
    requires UpdateResult(lib, i, x, d, o)
    ensures UpdateResult(lib, i, s, d, o)
  {
    hide Valid, Holding, Persists;
    assert x[i := OneUpdateOn(x[i], d)] == s[i := OneUpdateOn(s[i], d)];
    StagedDoesNotPersist(lib, s, x, i);
  }
}
