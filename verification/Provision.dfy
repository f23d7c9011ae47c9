/** Runs that begin with formatting. */
module Provision {
  import opened Areas
  import opened Bytes
  import opened Contents
  import opened Flash
  import opened Formatting
  import opened Ftl
  import opened Geometry
  import opened Histories
  import opened Jobs
  import opened Program
  import opened Registry
  import opened Restart
  import opened Ring
  import opened Script
  import opened Slots
  import opened Tearing
  import opened Traces
  import Transactions
  import opened Updates
  import opened Wear

  // What an area holds once it is formatted.
  function FreshContent(g: Layout): Content {
    Content(1, Repeat(ERASED, g.dataSize), NoTransaction)
  }

  function AllFresh(layouts: seq<Layout>): (s: seq<Content>)
    ensures |s| == |layouts| && forall i :: 0 <= i < |s| ==> s[i] == FreshContent(layouts[i])
  {
    seq(|layouts|, i requires 0 <= i < |layouts| => FreshContent(layouts[i]))
  }

  // There is room for areas with these layouts, whatever the memory holds.
  ghost predicate Roomy(flash: Device, layouts: seq<Layout>)
    reads flash
  {
    && flash.chip.Valid()
    && (forall i, j :: 0 <= i < j < |layouts| ==> Apart(layouts[i], layouts[j]))
    && (forall i :: 0 <= i < |layouts| ==> Fits(layouts[i], flash.chip.mem) && WholeWords(layouts[i], flash.whole))
  }

  // The area is freshly formatted.
  ghost predicate Provisioned(g: Layout, c: Chip) {
    Ready(g, c) && Recovered(g, c) == FreshContent(g)
  }

  lemma FormattedIsProvisioned(g: Layout, c: Chip)
    requires Holds(g, c)
    ensures Provisioned(g, FormattedChip(g, c))
  {
    hide View, Bystander, Intact, FormattedChip, Layout.Valid;
    FormattedRing(g, c);
  }

  lemma ProvisionedElsewhere(g: Layout, h: Layout, c: Chip, d: Chip)
    requires Provisioned(g, c) && (Apart(g, h) || Apart(h, g)) && SameOutside(c, d, h.area, h.area + h.areaSize)
    ensures Provisioned(g, d)
  {
    hide View, RingAt, Same, SameOutside, Layout.Valid;
    ElsewhereIsSame(g, c, d, h.area, h.area + h.areaSize);
    SameParts(g, c, d);
  }

  // Formats one area.
  method FormatOne(flash: Device, g: Layout) returns (o: Outcome)
    requires Holds(g, flash.chip) && WholeWords(g, flash.whole)
    modifies flash
    ensures o in {Done, PowerCut} && flash.cuts == old(flash.cuts) + if o == PowerCut then 1 else 0
    ensures SameOutside(old(flash.chip), flash.chip, g.area, g.area + g.areaSize)
    ensures o == Done ==> Provisioned(g, flash.chip) && FreshlyWorn(g, old(flash.chip), flash.chip)
  {
    hide Layout.Valid, WholeWords, Provisioned, SameOutside, FormattedChip, Ready, View, Current, FreshlyWorn;
    ghost var c := flash.chip;
    var ctx := new Area(g, flash);
    SmallUnit(g);
    o := FormatArea(ctx);
    FormattedRing(g, c);
    FormattedIsProvisioned(g, c);
    FormattedIsFresh(g, c);
  }

  // If every byte of the area had been erased equally often in c, it is evenly worn in d.
  ghost predicate FreshlyWorn(g: Layout, c: Chip, d: Chip) {
    forall w: nat :: WornAlike(g, c, w) ==> EvenlyWorn(g, d, w + 1, 0)
  }

  lemma FormattedIsFresh(g: Layout, c: Chip)
    requires Holds(g, c)
    ensures FreshlyWorn(g, c, FormattedChip(g, c))
  {
    hide Layout.Valid, FormattedChip, WornAlike, EvenlyWorn;
    forall w: nat | WornAlike(g, c, w)
      ensures EvenlyWorn(g, FormattedChip(g, c), w + 1, 0)
    {
      WearFormatted(g, c, w);
    }
  }

  // What happens to the wear of an area while another one is formatted.
  lemma WearElsewhere(g: Layout, h: Layout, start: Chip, c: Chip, d: Chip)
    requires Holds(g, c) && (Apart(g, h) || Apart(h, g)) && SameOutside(c, d, h.area, h.area + h.areaSize)
    ensures FreshlyWorn(g, start, c) ==> FreshlyWorn(g, start, d)
    ensures WearKept(g, start, c) ==> WearKept(g, start, d)
  {
    hide Layout.SlotSize, Layout.SlotCount, Layout.SlotBase;
    forall w: nat | EvenlyWorn(g, c, w, 0)
      ensures EvenlyWorn(g, d, w, 0)
    {
      forall i: nat, k: nat | i < g.SlotCount() && InSlot(g, i, k) && k < |d.wear|
        ensures d.wear[k] == c.wear[k]
      {
        SlotPlace(g, i);
      }
    }
  }

  lemma FreshFrom(g: Layout, start: Chip, c: Chip, d: Chip)
    requires Holds(g, c) && WearKept(g, start, c) && FreshlyWorn(g, c, d)
    ensures FreshlyWorn(g, start, d)
  {
    hide Layout.Valid, EvenlyWorn;
    forall w: nat | WornAlike(g, start, w)
      ensures WornAlike(g, c, w)
    {
    }
  }

  // Formats every area, whatever the memory held before.
  method FormatAll(flash: Device, layouts: seq<Layout>) returns (o: Outcome)
    requires Roomy(flash, layouts)
    modifies flash
    ensures o in {Done, PowerCut} && flash.cuts == old(flash.cuts) + if o == PowerCut then 1 else 0
    ensures Untouched(layouts, old(flash.chip), flash.chip)
    ensures o == Done ==> Survives(flash, layouts, AllFresh(layouts))
    ensures o == Done ==> forall j :: 0 <= j < |layouts| ==> FreshlyWorn(layouts[j], old(flash.chip), flash.chip)
  {
    hide Layout.Valid, WholeWords, Provisioned, SameOutside, Apart, Untouched, Survives, FreshlyWorn, WearKept;
    ghost var start := flash.chip;
    forall j | 0 <= j < |layouts|
      ensures WearKept(layouts[j], start, start)
    {
      Transactions.FillKeepsWear(layouts[j], start, start);
    }
    UntouchedNow(layouts, start);
    var k := 0;
    while k < |layouts|
      invariant 0 <= k <= |layouts| && flash.cuts == old(flash.cuts)
      invariant Roomy(flash, layouts) && Untouched(layouts, start, flash.chip)
      invariant forall j :: 0 <= j < k ==>
                  Provisioned(layouts[j], flash.chip) && FreshlyWorn(layouts[j], start, flash.chip)
      invariant forall j :: k <= j < |layouts| ==> WearKept(layouts[j], start, flash.chip)
    {
      ghost var c := flash.chip;
      o := FormatOne(flash, layouts[k]);
      AreaUntouched(layouts, k, start, c, flash.chip);
      if o != Done {
        return;
      }
      FreshFrom(layouts[k], start, c, flash.chip);
      forall j | 0 <= j < k
        ensures Provisioned(layouts[j], flash.chip) && FreshlyWorn(layouts[j], start, flash.chip)
      {
        ProvisionedElsewhere(layouts[j], layouts[k], c, flash.chip);
        WearElsewhere(layouts[j], layouts[k], start, c, flash.chip);
      }
      forall j | k < j < |layouts|
        ensures WearKept(layouts[j], start, flash.chip)
      {
        WearElsewhere(layouts[j], layouts[k], start, c, flash.chip);
      }
      k := k + 1;
    }
    o := Done;
    AllProvisioned(flash, layouts);
  }

  lemma AreaUntouched(layouts: seq<Layout>, k: nat, start: Chip, c: Chip, d: Chip)
    requires Untouched(layouts, start, c) && k < |layouts|
    requires SameOutside(c, d, layouts[k].area, layouts[k].area + layouts[k].areaSize)
    ensures Untouched(layouts, start, d)
    ensures d.Valid() && |d.mem| == |c.mem|
  {
  }

  lemma AllProvisioned(flash: Device, layouts: seq<Layout>)
    requires Roomy(flash, layouts) && forall j :: 0 <= j < |layouts| ==> Provisioned(layouts[j], flash.chip)
    ensures Survives(flash, layouts, AllFresh(layouts))
  {
    hide Layout.Valid, WholeWords, Apart, Ready, Recovered;
  }

  // Any program on freshly formatted areas: RunProgram with nothing assumed of the memory it begins with.
  method FormatAndRun(flash: Device, layouts: seq<Layout>, cmds: seq<Command>)
    returns (o: Outcome, replies: seq<Reply>, ghost rom: seq<byte>, ghost states: seq<State>, ghost chips: seq<Chip>)
    requires Roomy(flash, layouts) && |cmds| + 1 < MAX_VERSION
    requires forall k :: 0 <= k < |cmds| ==> Meant(layouts, |flash.chip.mem|, cmds[k])
    modifies flash
    ensures o in {Done, PowerCut}
    ensures o == PowerCut ==> flash.cuts == old(flash.cuts) + 1
    ensures o == Done ==> flash.cuts == old(flash.cuts) + Cuts(replies)
    ensures Untouched(layouts, old(flash.chip), flash.chip)
    ensures o == Done ==> Run(layouts, rom, cmds, replies, states)
    ensures o == Done ==> Trace(layouts, cmds, replies, states, chips) && chips[|cmds|] == flash.chip
    ensures o == Done ==> forall j :: 0 <= j < |layouts| ==> FreshlyWorn(layouts[j], old(flash.chip), chips[0])
    ensures o == Done ==> states[0] == Initial(AllFresh(layouts)) && Survives(flash, layouts, states[|cmds|].contents)
    ensures SameElsewhere(layouts, old(flash.chip).mem, rom)
  {
    hide Layout.Valid, Meant, Untouched, Survives, Run, Initial, Roomy, FreshlyWorn, Shows, Effect;
    ghost var start := flash.chip;
    replies, rom, states, chips := [], flash.chip.mem, [], [];
    o := FormatAll(flash, layouts);
    RomElsewhere(layouts, start, start);
    if o == PowerCut {
      return;
    }
    ghost var formatted := flash.chip;
    rom := formatted.mem;
    RomElsewhere(layouts, start, formatted);
    FreshBudget(layouts, |cmds|);
    var lib;
    lib, replies, states, chips := RunProgram(flash, layouts, cmds, AllFresh(layouts));
    RunLength(layouts, rom, cmds, replies, states);
    UntouchedTrans(layouts, start, formatted, flash.chip);
    HoldingSurvives(lib, states[|cmds|].contents);
  }

  lemma RunLength(layouts: seq<Layout>, rom: seq<byte>, cmds: seq<Command>, replies: seq<Reply>, states: seq<State>)
    requires Run(layouts, rom, cmds, replies, states)
    ensures |states| == |cmds| + 1
  {
  }

  // The two memories agree outside the areas.
  ghost predicate SameElsewhere(layouts: seq<Layout>, m: seq<byte>, m2: seq<byte>) {
    |m2| == |m| && forall k: nat :: k < |m| && OutsideAll(layouts, k, 1) ==> m2[k] == m[k]
  }

  lemma RomElsewhere(layouts: seq<Layout>, c: Chip, d: Chip)
    requires Untouched(layouts, c, d) || d == c
    ensures SameElsewhere(layouts, c.mem, d.mem)
    ensures Untouched(layouts, c, d) ==> d.Valid()
  {
  }

  lemma UntouchedTrans(layouts: seq<Layout>, c: Chip, d: Chip, e: Chip)
    requires Untouched(layouts, c, d) && Untouched(layouts, d, e)
    ensures Untouched(layouts, c, e)
  {
    hide OutsideAll;
  }

  lemma FreshBudget(layouts: seq<Layout>, n: nat)
    requires 1 + n < MAX_VERSION
    ensures Budget(AllFresh(layouts), n)
  {
  }

  // Any number of updates of a freshly formatted area whose bytes had all been erased w times: if the
  // power does not fail, no byte of a slot has then been erased more than once more than any other.
  method FormatAndWear(lib: Library, ctx: Area, jobs: seq<Job>, ghost i: nat, ghost s: seq<Content>, ghost w: nat)
    returns (o: Outcome)
    requires lib.Linked() && OwnTrackers(lib) && i < |lib.areas| && ctx == lib.areas[i]
    requires HeldExcept(lib, s, lib.flash.chip, i) && Holds(ctx.g, lib.flash.chip)
    requires forall a :: a in lib.areas ==> WholeWords(a.g, lib.flash.whole)
    requires forall a :: a in lib.areas && a != ctx ==> StateOk(a.g, lib.flash.chip, a.data, a.Tx())
    requires ctx.copied == 0 && ctx.tracker == null && 1 + |jobs| < MAX_VERSION
    requires forall j :: 0 <= j < |jobs| ==> Runnable(ctx.g, jobs[j])
    requires WornAlike(ctx.g, lib.flash.chip, w)
    modifies lib.flash, lib.areas`data, ctx`tracker, ctx`copied
    ensures lib.flash.cuts == old(lib.flash.cuts) + if o == PowerCut then 1 else 0
    ensures o in {Done, PowerCut}
    ensures o == Done ==> Valid(lib) && Holding(lib, s[i := AfterJobs(FreshContent(ctx.g), jobs, |jobs|)])
    ensures o == Done ==> EvenlyWorn(ctx.g, lib.flash.chip, w + 1, |jobs|) && WearWithinOne(ctx.g, lib.flash.chip)
  {
    hide Layout.Valid, Valid, Holding, WholeWords, StateOk, OwnTrackers, HeldExcept, Runnable, EvenlyWorn,
         Library.Linked, WearWithinOne, WornAlike, Same, SameOutside, Persists, FormattedChip, AfterJobs, Area.Ok;
    ghost var c := lib.flash.chip;
    ExceptLength(lib, s, c, i);
    o := Format(lib, ctx, i, s);
    if o == PowerCut {
      return;
    }
    WearFormatted(ctx.g, c, w);
    ghost var t := s[i := FreshContent(ctx.g)];
    ghost var k;
    o, k := RunJobs(lib, ctx, jobs, i, t, w + 1);
    if o == Done {
      assert t[i := AfterJobs(t[i], jobs, k)] == s[i := AfterJobs(FreshContent(ctx.g), jobs, k)];
      EvenIsWithinOne(ctx.g, lib.flash.chip, w + 1, |jobs|);
    }
  }

  lemma ExceptLength(lib: Library, s: seq<Content>, c: Chip, i: nat)
    requires HeldExcept(lib, s, c, i)
    ensures |s| == |lib.areas|
  {
  }

  // Every byte of the area has been erased w times.
  ghost predicate WornAlike(g: Layout, c: Chip, w: nat) {
    forall k :: g.area <= k < g.area + g.areaSize && k < |c.wear| ==> c.wear[k] == w
  }

  lemma WearFormatted(g: Layout, c: Chip, w: nat)
    requires Holds(g, c) && WornAlike(g, c, w)
    ensures EvenlyWorn(g, FormattedChip(g, c), w + 1, 0)
  {
    hide EvenlyWorn, Layout.Valid, FormattedChip;
    FormatWear(g, c, w);
  }

  ghost predicate WearWithinOne(g: Layout, c: Chip) {
    forall i: nat, k: nat, j: nat, l: nat ::
      i < g.SlotCount() && j < g.SlotCount() && InSlot(g, i, k) && InSlot(g, j, l) && k < |c.wear| && l < |c.wear| ==>
        c.wear[k] <= c.wear[l] + 1
  }

  lemma EvenIsWithinOne(g: Layout, c: Chip, w: nat, m: nat)
    requires EvenlyWorn(g, c, w, m)
    ensures WearWithinOne(g, c)
  {
    hide EvenlyWorn, InSlot, Layout.SlotCount;
    forall i: nat, k: nat, j: nat, l: nat
      | i < g.SlotCount() && j < g.SlotCount() && InSlot(g, i, k) && InSlot(g, j, l) && k < |c.wear| && l < |c.wear|
      ensures c.wear[k] <= c.wear[l] + 1
    {
      WearSpread(g, c, w, m, i, k, j, l);
    }
  }

  lemma FreshLevel(layouts: seq<Layout>, i: nat)
    requires i < |layouts|
    ensures i < |Initial(AllFresh(layouts)).contents| && Level(Initial(AllFresh(layouts)), i) == 0
  {
  }

  lemma FreshEven(g: Layout, c: Chip, d: Chip, w: nat)
    requires FreshlyWorn(g, c, d) && WornAlike(g, c, w)
    ensures EvenlyWorn(g, d, w + 1, 0)
  {
    hide WornAlike, EvenlyWorn;
  }

  // A program on freshly formatted areas that gives up no transaction of an area, with no power cut, wears
  // the area evenly.
  lemma FormattedRunWearsEvenly(layouts: seq<Layout>, start: Chip, rom: seq<byte>, cmds: seq<Command>,
                                replies: seq<Reply>, states: seq<State>, chips: seq<Chip>, i: nat, w: nat)
    requires Run(layouts, rom, cmds, replies, states) && Trace(layouts, cmds, replies, states, chips)
    requires AllApart(layouts) && i < |layouts| && Thrifty(cmds, replies, states, i)
    requires states[0] == Initial(AllFresh(layouts))
    requires FreshlyWorn(layouts[i], start, chips[0]) && WornAlike(layouts[i], start, w)
    ensures WearWithinOne(layouts[i], chips[|cmds|])
  {
    hide EvenlyWorn, WornAlike, WearWithinOne, Run, Trace, AllApart, FreshlyWorn, Thrifty, Level, Initial, AllFresh;
    FirstShown(layouts, cmds, replies, states, chips, i);
    FreshLevel(layouts, i);
    FreshEven(layouts[i], start, chips[0], w);
    ThriftyRunWearsEvenly(layouts, rom, cmds, replies, states, chips, i, w + 1);
    EvenIsWithinOne(layouts[i], chips[|cmds|], w + 1, Level(states[|cmds|], i));
  }

  // RunsAreSafe for an area that was just formatted.
  lemma FormattedRunsAreSafe(g: Layout, c: Chip, chips: seq<Chip>, events: seq<Event>) returns (more: seq<seq<byte>>)
    requires Holds(g, c) && Legal(g, chips, events) && chips[0] == FormattedChip(g, c)
    requires 1 + Begun(events) < MAX_VERSION
    ensures forall k :: 0 <= k < |chips| ==> Ready(g, chips[k])
    ensures Chosen(events, more) && Completed(events) <= |more| <= Begun(events)
    ensures Recovers(g, chips[|events|], [Repeat(ERASED, g.dataSize)] + more, 1 + |more|)
  {
    hide StepOk, FormattedChip, Ready, Recovers, Chosen, View;
    FormattedRing(g, c);
    RecoversNow(g, chips[0]);
    more := RunsAreSafe(g, chips, events, [Repeat(ERASED, g.dataSize)], 1);
  }
}
