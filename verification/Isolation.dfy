/** What reads see while a transaction is open, after it was aborted, and after it was committed. */
module Isolation {
  import opened Access
  import opened Areas
  import opened Arithmetic
  import opened Batch
  import opened Bytes
  import Commit
  import opened Contents
  import opened Geometry
  import opened Overlay
  import opened Restart
  import opened Runs
  import opened Script
  import opened Tracker
  import opened Transactions
  import opened Updates

  // ---------------------------------------------------------------- after an abort

  // cmd does not write to area i.
  predicate Quiet(cmd: Command, i: nat) {
    cmd.area == i ==> !cmd.Write? && !cmd.Clear? && !cmd.Commit?
  }

  // The newer data of the area is its committed data.
  predicate Plain(x: State, i: nat) {
    i < |x.contents| && Visible(x.contents[i]) == x.contents[i].data
  }

  lemma QuietStep(rom: seq<byte>, x: State, cmd: Command, o: Outcome, t: seq<Content>, i: nat)
    requires Explains(rom, x.contents, cmd, o, t) && Plain(x, i) && Quiet(cmd, i)
    ensures |t| == |x.contents| && Visible(t[i]) == t[i].data == x.contents[i].data
  {
    hide SourceValue, Patched;
    if cmd.area != i {
      OneStepElsewhere(rom, x.contents, cmd, o, t, i);
    }
  }

  lemma {:induction false} QuietRun(layouts: seq<Layout>, rom: seq<byte>, cmds: seq<Command>, replies: seq<Reply>,
                                    states: seq<State>, i: nat)
    requires Run(layouts, rom, cmds, replies, states) && Plain(states[0], i)
    requires forall k :: 0 <= k < |cmds| ==> Quiet(cmds[k], i)
    ensures Plain(states[|cmds|], i) && states[|cmds|].contents[i].data == states[0].contents[i].data
    decreases |cmds|
  {
    hide Run, Explains, Delivers, Accounts, Quiet;
    if cmds != [] {
      var n := |cmds| - 1;
      LastStep(layouts, rom, cmds, replies, states);
      QuietRun(layouts, rom, cmds[..n], replies[..n], states[..n + 1], i);
      QuietStep(rom, states[n], cmds[n], replies[n].outcome, states[n + 1].contents, i);
    }
  }

  // After an abort both reads deliver the data of before the transaction, until the area is written to
  // again; through further transactions begun and given up, power cuts and resets.
  lemma ReadsAfterAbort(layouts: seq<Layout>, rom: seq<byte>, cmds: seq<Command>, replies: seq<Reply>,
                        states: seq<State>, i: nat, k: nat)
    requires Run(layouts, rom, cmds, replies, states) && 0 < k < |cmds| && cmds[0] == Abort(i)
    requires forall l :: 0 <= l < k ==> Quiet(cmds[l], i)
    requires (cmds[k].Fetch? || cmds[k].FetchNewer?) && cmds[k].area == i && replies[k].outcome == Done
    ensures i < |states[0].contents|
    ensures var c, d := cmds[k], states[0].contents[i].data;
            c.at + c.size <= |d| && replies[k].bytes == d[c.at..c.at + c.size]
  {
    hide Run, Quiet, Accounts, SourceValue, Patched;
    StepAt(layouts, rom, cmds, replies, states, 0);
    StepAt(layouts, rom, cmds, replies, states, k);
    RunSlice(layouts, rom, cmds, replies, states, 1, k);
    QuietRun(layouts, rom, cmds[1..k], replies[1..k], states[1..k + 1], i);
  }

  // ---------------------------------------------------------------- while a transaction is open

  lemma SizedStep(layouts: seq<Layout>, rom: seq<byte>, x: State, cmd: Command, r: Reply, y: State)
    requires StepOf(layouts, rom, x, cmd, r, y) && Sized(layouts, x.contents)
    ensures Sized(layouts, y.contents)
  {
    hide SourceValue, Delivers, FirstUnit, ReachedUnits, MarkRange, NoneMarkedIn, Spoiled;
    var s, t, i := x.contents, y.contents, cmd.area;
    forall j | 0 <= j < |t|
      ensures |t[j].data| == |Visible(t[j])| == layouts[j].dataSize
    {
      if j != i {
        OneStepElsewhere(rom, s, cmd, r.outcome, t, j);
      }
    }
  }

  lemma {:induction false} SizedRun(layouts: seq<Layout>, rom: seq<byte>, cmds: seq<Command>, replies: seq<Reply>,
                                    states: seq<State>, k: nat)
    requires Run(layouts, rom, cmds, replies, states) && Sized(layouts, states[0].contents) && k <= |cmds|
    ensures Sized(layouts, states[k].contents)
  {
    hide Run, StepOf, Sized;
    if k > 0 {
      SizedRun(layouts, rom, cmds, replies, states, k - 1);
      StepAt(layouts, rom, cmds, replies, states, k - 1);
      SizedStep(layouts, rom, states[k - 1], cmds[k - 1], replies[k - 1], states[k]);
    }
  }

  // A write of area i, and all of it.
  predicate Writing(cmd: Command, i: nat) {
    cmd.Write? && cmd.area == i && cmd.size > 0
  }

  // The bits of the transaction of area i in state x.
  function BitsIn(x: State, i: nat): seq<bv8> {
    if i < |x.marks| then x.marks[i] else []
  }

  // Erased bytes in the units a write reaches before the first one that is marked.
  function ErasedPatch(g: Layout, bits: seq<bv8>, at: nat, size: nat): Patch {
    var first, n := FirstUnit(g, g.area + at), ReachedUnits(g, g.area + at, size);
    Patch(first * g.nvm.writeSize, Repeat(ERASED, Unmarked(bits, first, n) * g.nvm.writeSize))
  }

  // What a write adds to the newer data: its own bytes or, if it is refused, erased ones.
  function Addition(g: Layout, rom: seq<byte>, x: State, cmd: Command, o: Outcome): Patch
    requires cmd.Write?
  {
    if o == Done then Patch(cmd.at, SourceValue(rom, x.contents, cmd.src, cmd.size))
    else ErasedPatch(g, BitsIn(x, cmd.area), cmd.at, cmd.size)
  }

  // What the writes of area i among cmds add, with the bytes their sources stood for when they were made.
  function Patches(g: Layout, rom: seq<byte>, cmds: seq<Command>, replies: seq<Reply>, states: seq<State>, i: nat)
    : seq<Patch>
    requires |cmds| == |replies| <= |states|
    decreases |cmds|
  {
    if cmds == [] then []
    else
      var n := |cmds| - 1;
      var ps := Patches(g, rom, cmds[..n], replies[..n], states[..n], i);
      if Writing(cmds[n], i) then ps + [Addition(g, rom, states[n], cmds[n], replies[n].outcome)] else ps
  }

  // An erased patch covers whole units, none of them marked, and erases what a refused write spoils.
  lemma ErasedPatchIs(g: Layout, bits: seq<bv8>, at: nat, size: nat, b: seq<byte>)
    requires g.Valid() && at + size <= g.dataSize == |b|
    ensures var p, dst := ErasedPatch(g, bits, at, size), g.area + at;
            var first, n := FirstUnit(g, dst), ReachedUnits(g, dst, size);
            && Inside(p, g.dataSize)
            && FirstUnit(g, g.area + p.at) == first
            && ReachedUnits(g, g.area + p.at, |p.bytes|) == Unmarked(bits, first, n)
            && Splice(b, p.at, p.bytes) == SpoiledBy(g, bits, b, first, n)
  {
    hide Layout.SlotSize, Unmarked, FirstUnit, ReachedUnits, Layout.Units, Splice, Spoiled;
    var w, dst := g.nvm.writeSize, g.area + at;
    var first, n := FirstUnit(g, dst), ReachedUnits(g, dst, size);
    var m := Unmarked(bits, first, n);
    PatchUnits(g, Patch(at, Repeat(0, size)), 0);
    UnitsAreData(g);
    MulMonotone(first + m, g.Units(), w);
    SumOfProducts(first, m, w);
    WholeUnitsReach(g, first, m);
    SpliceErased(b, first * w, m * w);
  }

  lemma WholeUnitsReach(g: Layout, first: nat, m: nat)
    requires g.Valid()
    ensures FirstUnit(g, g.area + first * g.nvm.writeSize) == first
    ensures ReachedUnits(g, g.area + first * g.nvm.writeSize, m * g.nvm.writeSize) == m
  {
    hide Layout.SlotSize;
    var w := g.nvm.writeSize;
    ModAdd(g.area, first * w, w);
    DivUnique(first * w, w, first);
    ModUnique(first * w, w, first, 0);
    DivUnique(m * w + w - 1, w, m);
  }

  lemma SpliceErased(b: seq<byte>, at: nat, n: nat)
    requires at + n <= |b|
    ensures Splice(b, at, Repeat(ERASED, n)) == Spoiled(b, at, n)
  {
    var x, y := Splice(b, at, Repeat(ERASED, n)), Spoiled(b, at, n);
    assert forall k :: 0 <= k < |b| ==> x[k] == y[k];
  }

  // What the meaning of commands says of a write to an open transaction.
  lemma WriteStep(layouts: seq<Layout>, rom: seq<byte>, x: State, cmd: Command, r: Reply, y: State, i: nat)
    requires StepOf(layouts, rom, x, cmd, r, y) && Writing(cmd, i) && r.outcome != PowerCut
    requires i < |x.contents| && x.contents[i].staged.Newest?
    ensures i < |layouts| == |x.contents| == |y.contents| == |x.marks| == |y.marks|
    ensures var g, d, bits := layouts[i], x.contents[i].staged.data, x.marks[i];
            var first, n := FirstUnit(g, g.area + cmd.at), ReachedUnits(g, g.area + cmd.at, cmd.size);
            && (r.outcome == Done <==> NoneMarkedIn(bits, first, n))
            && MarkedUpTo(bits, first, n, y.marks[i])
            && y.contents[i].staged == Newest(
                 if r.outcome == Done then Patched(d, cmd.at, SourceValue(rom, x.contents, cmd.src, cmd.size))
                 else SpoiledBy(g, bits, d, first, n))
  {
    hide SourceValue, FirstUnit, ReachedUnits, SpoiledBy, Delivers, NoneMarkedIn, MarkedUpTo, Patched;
  }

  // Patch p was written to newer data d, now staged, and its units, all free in bits, are marked in more.
  ghost predicate Adds(g: Layout, d: seq<byte>, staged: Staged, bits: seq<bv8>, more: seq<bv8>, p: Patch) {
    var first, n := FirstUnit(g, g.area + p.at), ReachedUnits(g, g.area + p.at, |p.bytes|);
    && Inside(p, |d|) && staged == Newest(Splice(d, p.at, p.bytes))
    && NoneMarkedIn(bits, first, n)
    && (first + n + 7) / 8 <= |bits| && more == MarkRange(bits, first, n)
  }

  lemma AcceptedAdds(g: Layout, d: seq<byte>, bits: seq<bv8>, more: seq<bv8>, p: Patch)
    requires Inside(p, |d|)
    requires var first, n := FirstUnit(g, g.area + p.at), ReachedUnits(g, g.area + p.at, |p.bytes|);
             NoneMarkedIn(bits, first, n) && MarkedUpTo(bits, first, n, more)
    ensures Adds(g, d, Newest(Patched(d, p.at, p.bytes)), bits, more, p)
  {
    hide FirstUnit, ReachedUnits, Unmarked, NoneMarkedIn, MarkRange, Splice;
    AllUnmarked(bits, FirstUnit(g, g.area + p.at), ReachedUnits(g, g.area + p.at, |p.bytes|));
  }

  lemma RefusedAdds(g: Layout, d: seq<byte>, bits: seq<bv8>, more: seq<bv8>, at: nat, size: nat)
    requires g.Valid() && at + size <= g.dataSize == |d|
    requires MarkedUpTo(bits, FirstUnit(g, g.area + at), ReachedUnits(g, g.area + at, size), more)
    ensures var first, n := FirstUnit(g, g.area + at), ReachedUnits(g, g.area + at, size);
            Adds(g, d, Newest(SpoiledBy(g, bits, d, first, n)), bits, more, ErasedPatch(g, bits, at, size))
  {
    hide FirstUnit, ReachedUnits, NoneMarkedIn, MarkRange, Splice, SpoiledBy, ErasedPatch, Layout.Valid;
    ErasedPatchIs(g, bits, at, size, d);
  }

  // A write to an open transaction, refused or not, splices its addition into the newer data and marks the
  // units of it, none of which was marked before.
  lemma WriteAdds(layouts: seq<Layout>, rom: seq<byte>, x: State, cmd: Command, r: Reply, y: State, i: nat)
    requires StepOf(layouts, rom, x, cmd, r, y) && Meant(layouts, |rom|, cmd) && Sized(layouts, x.contents)
    requires Writing(cmd, i) && r.outcome != PowerCut
    requires i < |x.contents| && x.contents[i].staged.Newest?
    requires i < |layouts| && layouts[i].Valid()
    ensures |layouts| == |x.contents| == |y.contents| == |x.marks| == |y.marks|
    ensures Adds(layouts[i], x.contents[i].staged.data, y.contents[i].staged, x.marks[i], y.marks[i],
                 Addition(layouts[i], rom, x, cmd, r.outcome))
  {
    hide Layout.Valid, SourceValue, FirstUnit, ReachedUnits, SpoiledBy, StepOf, MarkedUpTo, OutsideAll,
         NoneMarkedIn, ErasedPatch, Adds, Patched;
    WriteStep(layouts, rom, x, cmd, r, y, i);
    SourceLength(layouts, rom, x.contents, cmd);
    var g, d := layouts[i], x.contents[i].staged.data;
    if r.outcome == Done {
      AcceptedAdds(g, d, x.marks[i], y.marks[i], Addition(g, rom, x, cmd, r.outcome));
    } else {
      RefusedAdds(g, d, x.marks[i], y.marks[i], cmd.at, cmd.size);
    }
  }

  // The area as its writes have left it: their additions are staged over data, in units they share with no
  // other.
  ghost predicate Overlays(layouts: seq<Layout>, x: State, i: nat, data: seq<byte>, ps: seq<Patch>) {
    && i < |layouts| == |x.contents| == |x.marks|
    && |data| == layouts[i].dataSize && AllInside(ps, |data|)
    && x.contents[i].staged == Newest(Overlaid(data, ps))
    && UnitsApart(layouts[i], ps) && MarksPatches(layouts[i], x.marks[i], ps)
  }

  // One more command while the transaction is open.
  lemma OverlayStep(layouts: seq<Layout>, rom: seq<byte>, x: State, cmd: Command, r: Reply, y: State, i: nat,
                    data: seq<byte>, ps: seq<Patch>)
    requires StepOf(layouts, rom, x, cmd, r, y) && Meant(layouts, |rom|, cmd) && Sized(layouts, x.contents)
    requires Overlays(layouts, x, i, data, ps) && layouts[i].Valid()
    requires r.outcome != PowerCut && (cmd.area == i ==> !cmd.Commit? && !cmd.Abort?)
    ensures Overlays(layouts, y, i, data,
                     if Writing(cmd, i) then ps + [Addition(layouts[i], rom, x, cmd, r.outcome)] else ps)
  {
    hide Layout.Valid, Layout.SlotSize, SourceValue, FirstUnit, ReachedUnits, MarkRange, MarksPatches, UnitsApart,
         Overlaid, SpoiledBy, Delivers, Sized, Layout.Units, OutsideAll, Cleared, NoneMarkedIn, Unmarked, Addition;
    if Writing(cmd, i) {
      var p := Addition(layouts[i], rom, x, cmd, r.outcome);
      WriteAdds(layouts, rom, x, cmd, r, y, i);
      PatchUnits(layouts[i], p, 0);
      FreeIsApart(layouts[i], x.marks[i], ps, p);
      OneMorePatch(layouts[i], x.marks[i], ps, p);
      OverlaidMore(data, ps, p);
    } else if cmd.area != i {
      OneStepElsewhere(rom, x.contents, cmd, r.outcome, y.contents, i);
    }
  }

  lemma OverlaidMore(data: seq<byte>, ps: seq<Patch>, p: Patch)
    requires AllInside(ps, |data|) && Inside(p, |data|)
    ensures AllInside(ps + [p], |data|)
    ensures Overlaid(data, ps + [p]) == Splice(Overlaid(data, ps), p.at, p.bytes)
  {
    hide Splice;
    assert (ps + [p])[..|ps|] == ps;
  }

  // While a transaction is open, whatever goes on elsewhere, its newer data is the data it began with
  // overlaid with what its writes add, whose sources may lie in RAM, in any area or outside all of them;
  // and the additions share no write unit.
  lemma {:induction false} OpenOverlay(layouts: seq<Layout>, rom: seq<byte>, cmds: seq<Command>, replies: seq<Reply>,
                                       states: seq<State>, i: nat, data: seq<byte>)
    requires Run(layouts, rom, cmds, replies, states) && Undisturbed(cmds, replies, i)
    requires forall k :: 0 <= k < |cmds| ==> Meant(layouts, |rom|, cmds[k])
    requires Sized(layouts, states[0].contents) && Overlays(layouts, states[0], i, data, []) && layouts[i].Valid()
    ensures Overlays(layouts, states[|cmds|], i, data, Patches(layouts[i], rom, cmds, replies, states, i))
    decreases |cmds|
  {
    hide Run, StepOf, Meant, Sized, Overlays, Layout.Valid, Addition;
    if cmds != [] {
      var n := |cmds| - 1;
      LastStep(layouts, rom, cmds, replies, states);
      OverlaysOpen(layouts, states[0], i, data, []);
      OpenOverlay(layouts, rom, cmds[..n], replies[..n], states[..n + 1], i, data);
      SizedRun(layouts, rom, cmds, replies, states, n);
      assert states[..n + 1][..n] == states[..n];
      SamePatchesPrefix(layouts[i], rom, cmds[..n], replies[..n], states[..n + 1], states[..n], i);
      OverlayStep(layouts, rom, states[n], cmds[n], replies[n], states[n + 1], i, data,
                  Patches(layouts[i], rom, cmds[..n], replies[..n], states[..n], i));
    }
  }

  // Only the states before the commands matter.
  lemma {:induction false} SamePatchesPrefix(g: Layout, rom: seq<byte>, cmds: seq<Command>, replies: seq<Reply>,
                                             states: seq<State>, states2: seq<State>, i: nat)
    requires |cmds| == |replies| <= |states| && |cmds| <= |states2| && states[..|cmds|] == states2[..|cmds|]
    ensures Patches(g, rom, cmds, replies, states, i) == Patches(g, rom, cmds, replies, states2, i)
    decreases |cmds|
  {
    hide Addition;
    if cmds != [] {
      var n := |cmds| - 1;
      assert states[..n] == states[..|cmds|][..n] == states2[..n];
      assert states[n] == states[..|cmds|][n] == states2[n];
    }
  }

  // ---------------------------------------------------------------- whole transactions

  lemma StartOverlays(layouts: seq<Layout>, rom: seq<byte>, x: State, r: Reply, y: State, i: nat)
    requires StepOf(layouts, rom, x, Start(i), r, y) && r.outcome == Done && Sized(layouts, x.contents)
    requires layouts[i].Valid()
    ensures Overlays(layouts, y, i, x.contents[i].data, [])
    ensures Settled(y.contents[i]) == Settled(x.contents[i])
  {
    hide Layout.Valid, Layout.SlotSize, MarksPatches, UnitsApart, Delivers, Cleared, Layout.TrackerSize;
    NothingMarked(layouts[i], y.marks[i]);
    NoneApart(layouts[i]);
  }

  // What a transaction of area i that began with command 0 has come to by command k: the committed data
  // is what it was, the newer data is that overlaid with what the writes so far have added.
  lemma Midway(layouts: seq<Layout>, rom: seq<byte>, cmds: seq<Command>, replies: seq<Reply>, states: seq<State>,
               i: nat, k: nat)
    requires Run(layouts, rom, cmds, replies, states) && 0 < k <= |cmds| && cmds[0] == Start(i)
    requires replies[0].outcome == Done
    requires |replies| == |cmds| && Undisturbed(cmds[1..k], replies[1..k], i)
    requires forall l :: 0 <= l < |cmds| ==> Meant(layouts, |rom|, cmds[l])
    requires Sized(layouts, states[0].contents) && forall j :: 0 <= j < |layouts| ==> layouts[j].Valid()
    ensures i < |layouts| && i < |states[0].contents| && i < |states[k].contents|
    ensures Settled(states[k].contents[i]) == Settled(states[0].contents[i])
    ensures Overlays(layouts, states[k], i, states[0].contents[i].data,
                     Patches(layouts[i], rom, cmds[1..k], replies[1..k], states[1..k + 1], i))
  {
    hide Run, StepOf, Meant, Sized, Layout.Valid, Undisturbed, Overlays, Explains, Patches, Overlaid, AllInside,
         UnitsApart;
    StepAt(layouts, rom, cmds, replies, states, 0);
    StartArea(layouts, rom, states[0], cmds[0], replies[0], states[1], i);
    StartOverlays(layouts, rom, states[0], replies[0], states[1], i);
    SizedRun(layouts, rom, cmds, replies, states, 1);
    RunSlice(layouts, rom, cmds, replies, states, 1, k);
    OverlaysOpen(layouts, states[1], i, states[0].contents[i].data, []);
    OpenOverlay(layouts, rom, cmds[1..k], replies[1..k], states[1..k + 1], i, states[0].contents[i].data);
    OpenIsIsolated(layouts, rom, cmds[1..k], replies[1..k], states[1..k + 1], i);
  }

  lemma StartArea(layouts: seq<Layout>, rom: seq<byte>, x: State, cmd: Command, r: Reply, y: State, i: nat)
    requires StepOf(layouts, rom, x, cmd, r, y) && cmd == Start(i)
    ensures i < |layouts| == |x.contents| == |y.contents|
  {
  }

  lemma OverlaysOpen(layouts: seq<Layout>, x: State, i: nat, data: seq<byte>, ps: seq<Patch>)
    requires Overlays(layouts, x, i, data, ps)
    ensures i < |x.contents| && AllInside(ps, |data|) && x.contents[i].staged == Newest(Overlaid(data, ps))
    ensures i < |layouts| && UnitsApart(layouts[i], ps)
  {
    hide UnitsApart, MarksPatches;
  }

  // While a transaction is open lftl_read delivers the data of before it, and lftl_read_newer that data
  // overlaid with what the writes so far have added.
  lemma ReadsWhileOpen(layouts: seq<Layout>, rom: seq<byte>, cmds: seq<Command>, replies: seq<Reply>,
                       states: seq<State>, i: nat, k: nat)
    requires Run(layouts, rom, cmds, replies, states) && 0 < k < |cmds| && cmds[0] == Start(i)
    requires replies[0].outcome == Done
    requires |replies| == |cmds| && Undisturbed(cmds[1..k], replies[1..k], i)
    requires forall l :: 0 <= l < |cmds| ==> Meant(layouts, |rom|, cmds[l])
    requires Sized(layouts, states[0].contents) && forall j :: 0 <= j < |layouts| ==> layouts[j].Valid()
    requires (cmds[k].Fetch? || cmds[k].FetchNewer?) && cmds[k].area == i && replies[k].outcome == Done
    ensures |states| == |cmds| + 1 && i < |states[0].contents| && i < |layouts|
    ensures var ps := Patches(layouts[i], rom, cmds[1..k], replies[1..k], states[1..k + 1], i);
            var c, d := cmds[k], states[0].contents[i].data;
            && AllInside(ps, |d|) && c.at + c.size <= |d|
            && replies[k].bytes == (if c.Fetch? then d else Overlaid(d, ps))[c.at..c.at + c.size]
  {
    hide Run, Meant, Sized, Layout.Valid, Undisturbed, Overlays, Explains, Overlaid, Accounts;
    StepAt(layouts, rom, cmds, replies, states, k);
    Midway(layouts, rom, cmds, replies, states, i, k);
    OverlaysOpen(layouts, states[k], i, states[0].contents[i].data,
                 Patches(layouts[i], rom, cmds[1..k], replies[1..k], states[1..k + 1], i));
  }

  // A transaction that is committed makes all its writes take effect at once, whatever else was called in
  // between. Their additions share no write unit, so they could have been made in any other order.
  lemma WholeTransaction(layouts: seq<Layout>, rom: seq<byte>, cmds: seq<Command>, replies: seq<Reply>,
                         states: seq<State>, i: nat)
    requires Run(layouts, rom, cmds, replies, states) && |replies| == |cmds| >= 2
    requires cmds[0] == Start(i) && replies[0].outcome == Done
    requires cmds[|cmds| - 1] == Commit(i) && replies[|cmds| - 1].outcome == Done
    requires Undisturbed(cmds[1..|cmds| - 1], replies[1..|cmds| - 1], i)
    requires forall l :: 0 <= l < |cmds| ==> Meant(layouts, |rom|, cmds[l])
    requires Sized(layouts, states[0].contents) && forall j :: 0 <= j < |layouts| ==> layouts[j].Valid()
    ensures |states| == |cmds| + 1 && i < |states[0].contents| == |states[|cmds|].contents| && i < |layouts|
    ensures var ps := Patches(layouts[i], rom, cmds[1..|cmds| - 1], replies[1..|cmds| - 1], states[1..|cmds|], i);
            var x := states[0].contents[i];
            && UnitsApart(layouts[i], ps) && AllInside(ps, |x.data|)
            && states[|cmds|].contents[i] == Content(x.version + 1, Overlaid(x.data, ps), NoTransaction)
  {
    hide Run, Meant, Sized, Layout.Valid, Undisturbed, Overlays, Overlaid, Accounts, UnitsApart, Delivers;
    var n := |cmds| - 1;
    StepAt(layouts, rom, cmds, replies, states, 0);
    StepAt(layouts, rom, cmds, replies, states, n);
    Midway(layouts, rom, cmds, replies, states, i, n);
    OverlaysOpen(layouts, states[n], i, states[0].contents[i].data,
                 Patches(layouts[i], rom, cmds[1..n], replies[1..n], states[1..n + 1], i));
  }

  // ---------------------------------------------------------------- what is staged stays staged

  lemma TouchedByteStep(layouts: seq<Layout>, rom: seq<byte>, x: State, cmd: Command, r: Reply, y: State, i: nat,
                        k: nat)
    requires StepOf(layouts, rom, x, cmd, r, y) && Meant(layouts, |rom|, cmd) && Sized(layouts, x.contents)
    requires r.outcome != PowerCut && (cmd.area == i ==> !cmd.Commit? && !cmd.Abort?)
    requires i < |layouts| && layouts[i].Valid() && k < layouts[i].dataSize
    requires i < |x.contents| && x.contents[i].staged.Newest?
    requires i < |x.marks| && Marked(x.marks[i], UnitOf(layouts[i], k))
    ensures i < |y.contents| && y.contents[i].staged.Newest?
    ensures |y.contents[i].staged.data| == |x.contents[i].staged.data| == layouts[i].dataSize
    ensures y.contents[i].staged.data[k] == x.contents[i].staged.data[k]
  {
    hide Layout.Valid, SourceValue, FirstUnit, ReachedUnits, OutsideAll, MarkRange, Addition, UnitOf, Delivers,
         Accounts, Layout.Units, Patched, Marked;
    if Writing(cmd, i) {
      var p := Addition(layouts[i], rom, x, cmd, r.outcome);
      WriteAdds(layouts, rom, x, cmd, r, y, i);
      PatchUnits(layouts[i], p, k);
    } else if cmd.area != i {
      OneStepElsewhere(rom, x.contents, cmd, r.outcome, y.contents, i);
    }
  }

  // While a transaction is open no byte of a unit it has touched changes in its newer data, whatever is
  // called, refused writes to that unit included.
  lemma {:induction false} TouchedBytesStay(layouts: seq<Layout>, rom: seq<byte>, cmds: seq<Command>,
                                            replies: seq<Reply>, states: seq<State>, i: nat, k: nat)
    requires Run(layouts, rom, cmds, replies, states) && Undisturbed(cmds, replies, i)
    requires forall l :: 0 <= l < |cmds| ==> Meant(layouts, |rom|, cmds[l])
    requires Sized(layouts, states[0].contents)
    requires i < |layouts| && layouts[i].Valid() && k < layouts[i].dataSize
    requires i < |states[0].contents| && states[0].contents[i].staged.Newest?
    requires i < |states[0].marks| && Marked(states[0].marks[i], UnitOf(layouts[i], k))
    ensures i < |states[|cmds|].contents| && states[|cmds|].contents[i].staged.Newest?
    ensures |states[|cmds|].contents[i].staged.data| == |states[0].contents[i].staged.data| == layouts[i].dataSize
    ensures states[|cmds|].contents[i].staged.data[k] == states[0].contents[i].staged.data[k]
    decreases |cmds|
  {
    hide Run, StepOf, Meant, Layout.Valid, Marked, UnitOf;
    if cmds != [] {
      var n := |cmds| - 1;
      LastStep(layouts, rom, cmds, replies, states);
      TouchedBytesStay(layouts, rom, cmds[..n], replies[..n], states[..n + 1], i, k);
      TouchedStays(layouts, rom, cmds[..n], replies[..n], states[..n + 1], i, UnitOf(layouts[i], k));
      SizedRun(layouts, rom, cmds, replies, states, n);
      TouchedByteStep(layouts, rom, states[n], cmds[n], replies[n], states[n + 1], i, k);
    }
  }

  // The bytes of an accepted write are in the newer data from then on, until the transaction ends.
  lemma AcceptedLasts(layouts: seq<Layout>, rom: seq<byte>, cmds: seq<Command>, replies: seq<Reply>,
                      states: seq<State>, i: nat)
    requires Run(layouts, rom, cmds, replies, states) && Undisturbed(cmds, replies, i) && cmds != []
    requires forall l :: 0 <= l < |cmds| ==> Meant(layouts, |rom|, cmds[l])
    requires Sized(layouts, states[0].contents) && i < |layouts| && layouts[i].Valid()
    requires i < |states[0].contents| && states[0].contents[i].staged.Newest?
    requires Writing(cmds[0], i) && replies[0].outcome == Done
    ensures i < |states[|cmds|].contents| && states[|cmds|].contents[i].staged.Newest?
    ensures var c, d := cmds[0], states[|cmds|].contents[i].staged.data;
            c.at + c.size <= |d| && d[c.at..c.at + c.size] == SourceValue(rom, states[0].contents, c.src, c.size)
  {
    hide Run, StepOf, Meant, Layout.Valid, Marked, UnitOf, Sized, Addition, Adds, SourceValue;
    var n, c := |cmds|, cmds[0];
    StepAt(layouts, rom, cmds, replies, states, 0);
    RunSlice(layouts, rom, cmds, replies, states, 1, n);
    var b := SourceValue(rom, states[0].contents, c.src, c.size);
    SizedRun(layouts, rom, cmds, replies, states, 1);
    AcceptedStep(layouts, rom, states[0], c, replies[0], states[1], i);
    OpenIsIsolated(layouts, rom, cmds, replies, states, i);
    SizedRun(layouts, rom, cmds, replies, states, n);
    SizedNewer(layouts, states[n].contents, i);
    var d := states[n].contents[i].staged.data;
    forall k: nat | k < c.size
      ensures d[c.at + k] == b[k]
    {
      AcceptedByte(layouts, rom, states[0], c, replies[0], states[1], i, c.at + k);
      TouchedBytesStay(layouts, rom, cmds[1..n], replies[1..n], states[1..n + 1], i, c.at + k);
    }
  }

  lemma SizedNewer(layouts: seq<Layout>, s: seq<Content>, i: nat)
    requires Sized(layouts, s) && i < |s|
    ensures i < |layouts| && |s[i].data| == |Visible(s[i])| == layouts[i].dataSize
  {
  }

  lemma AcceptedStep(layouts: seq<Layout>, rom: seq<byte>, x: State, cmd: Command, r: Reply, y: State, i: nat)
    requires StepOf(layouts, rom, x, cmd, r, y) && Meant(layouts, |rom|, cmd) && Sized(layouts, x.contents)
    requires Writing(cmd, i) && r.outcome == Done && i < |x.contents| && x.contents[i].staged.Newest?
    ensures i < |layouts| == |x.contents| == |y.contents| == |y.marks| && y.contents[i].staged.Newest?
    ensures cmd.at + cmd.size <= layouts[i].dataSize
    ensures |SourceValue(rom, x.contents, cmd.src, cmd.size)| == cmd.size
  {
    hide OutsideAll, SourceValue, Patched, Accounts, Delivers;
    SourceLength(layouts, rom, x.contents, cmd);
  }

  lemma AcceptedByte(layouts: seq<Layout>, rom: seq<byte>, x: State, cmd: Command, r: Reply, y: State, i: nat, k: nat)
    requires StepOf(layouts, rom, x, cmd, r, y) && Meant(layouts, |rom|, cmd) && Sized(layouts, x.contents)
    requires Writing(cmd, i) && r.outcome == Done && i < |x.contents| && x.contents[i].staged.Newest?
    requires i < |layouts| && layouts[i].Valid() && cmd.at <= k < cmd.at + cmd.size
    ensures i < |y.contents| == |y.marks| && y.contents[i].staged.Newest?
    ensures Marked(y.marks[i], UnitOf(layouts[i], k)) && k < |y.contents[i].staged.data|
    ensures |SourceValue(rom, x.contents, cmd.src, cmd.size)| == cmd.size
    ensures y.contents[i].staged.data[k] == SourceValue(rom, x.contents, cmd.src, cmd.size)[k - cmd.at]
  {
    hide Layout.Valid, SourceValue, FirstUnit, ReachedUnits, OutsideAll, MarkRange, UnitOf, StepOf, NoneMarkedIn,
         Layout.Units, Marked;
    var p := Addition(layouts[i], rom, x, cmd, r.outcome);
    SourceLength(layouts, rom, x.contents, cmd);
    WriteAdds(layouts, rom, x, cmd, r, y, i);
    PatchUnits(layouts[i], p, k);
    var dst := layouts[i].area + p.at;
    RangeMarks(x.marks[i], FirstUnit(layouts[i], dst), ReachedUnits(layouts[i], dst, |p.bytes|),
               UnitOf(layouts[i], k));
  }

  // What an accepted write of a transaction wrote is what a later commit commits, whatever was refused,
  // read or done elsewhere in between.
  lemma AcceptedIsCommitted(layouts: seq<Layout>, rom: seq<byte>, cmds: seq<Command>, replies: seq<Reply>,
                            states: seq<State>, i: nat)
    requires Run(layouts, rom, cmds, replies, states) && |replies| == |cmds| >= 2
    requires var n := |cmds| - 1;
             Undisturbed(cmds[..n], replies[..n], i) && cmds[n] == Commit(i) && replies[n].outcome == Done
    requires forall l :: 0 <= l < |cmds| ==> Meant(layouts, |rom|, cmds[l])
    requires Sized(layouts, states[0].contents) && i < |layouts| && layouts[i].Valid()
    requires i < |states[0].contents| && states[0].contents[i].staged.Newest?
    requires Writing(cmds[0], i) && replies[0].outcome == Done
    ensures |states| == |cmds| + 1 && i < |states[|cmds|].contents|
    ensures var c, d := cmds[0], states[|cmds|].contents[i].data;
            c.at + c.size <= |d| && d[c.at..c.at + c.size] == SourceValue(rom, states[0].contents, c.src, c.size)
  {
    hide Run, Meant, Layout.Valid, Sized, SourceValue, Accounts, Delivers;
    var n := |cmds| - 1;
    LastStep(layouts, rom, cmds, replies, states);
    AcceptedLasts(layouts, rom, cmds[..n], replies[..n], states[..n + 1], i);
  }

  // ---------------------------------------------------------------- what a refused write does

  function RefusedProgram(g: Layout, b: seq<byte>): seq<Command> {
    var w := g.nvm.writeSize;
    [Start(0), Write(0, w, Buffer(b), w), Write(0, 0, Buffer(b), 2 * w), Commit(0)]
  }

  lemma StartIsFree(layouts: seq<Layout>, rom: seq<byte>, x: State, r: Reply, y: State, i: nat, first: nat, n: nat)
    requires StepOf(layouts, rom, x, Start(i), r, y) && r.outcome != PowerCut
    requires layouts[i].Valid() && first + n <= layouts[i].Units()
    requires i < |x.contents| && x.contents[i].staged == NoTransaction
    ensures i < |y.contents| == |y.marks| && y.contents[i].staged == Newest(x.contents[i].data)
    ensures r.outcome == Done && NoneMarkedIn(y.marks[i], first, n)
  {
    hide Layout.SlotSize, Marked, Layout.TrackerSize, Layout.Units, Cleared, Delivers;
    Commit.UnitsOfTracker(layouts[i]);
    forall u: nat | first <= u < first + n
      ensures !Marked(y.marks[i], u)
    {
      ClearedUnmarked(y.marks[i], layouts[i].TrackerSize(), u);
    }
  }

  // Unit 1 is written, then units 0 and 1.
  lemma SecondIsRefused(layouts: seq<Layout>, rom: seq<byte>, x: State, b: seq<byte>, r: Reply, y: State, q: Reply,
                        z: State)
    requires layouts != [] && layouts[0].Valid() && |b| == 2 * layouts[0].nvm.writeSize <= layouts[0].dataSize
    requires var cmds := RefusedProgram(layouts[0], b);
             StepOf(layouts, rom, x, cmds[1], r, y) && StepOf(layouts, rom, y, cmds[2], q, z)
    requires r.outcome != PowerCut && q.outcome != PowerCut
    requires x.contents != [] && x.contents[0].staged.Newest? && |x.contents[0].staged.data| == layouts[0].dataSize
    requires x.marks != [] && NoneMarkedIn(x.marks[0], 0, 2)
    ensures r.outcome == Done && q.outcome == Raised(ERROR_TRANSACTION_OVERWRITE)
    ensures z.contents != [] && z.contents[0].staged.Newest? && |z.contents[0].staged.data| == layouts[0].dataSize
    ensures forall k :: 0 <= k < layouts[0].nvm.writeSize ==> z.contents[0].staged.data[k] == ERASED
  {
    hide Layout.Valid, FirstUnit, ReachedUnits, Marked, MarkRange, Unmarked, Delivers, Accounts, Splice;
    var g, cmds := layouts[0], RefusedProgram(layouts[0], b);
    WholeUnitsReach(g, 1, 1);
    WholeUnitsReach(g, 0, 2);
    WriteStep(layouts, rom, x, cmds[1], r, y, 0);
    AllUnmarked(x.marks[0], 1, 1);
    RangeMarks(x.marks[0], 1, 1, 0);
    RangeMarks(x.marks[0], 1, 1, 1);
    WriteStep(layouts, rom, y, cmds[2], q, z, 0);
    UnmarkedIs(y.marks[0], 0, 2, 1);
  }

  // A refused write is not without effect. Here the second write of a transaction is refused because its
  // second unit was written before; the commit then commits erased bytes in its first unit, which no
  // accepted write has touched, whatever the area held there.
  lemma RefusedIsCommitted(layouts: seq<Layout>, rom: seq<byte>, b: seq<byte>, replies: seq<Reply>,
                           states: seq<State>)
    requires layouts != [] && layouts[0].Valid() && |b| == 2 * layouts[0].nvm.writeSize <= layouts[0].dataSize
    requires Run(layouts, rom, RefusedProgram(layouts[0], b), replies, states) && Cuts(replies) == 0
    requires Sized(layouts, states[0].contents) && states[0].contents[0].staged == NoTransaction
    ensures |replies| == 4 && |states| == 5 && replies[1].outcome == Done
    ensures replies[2].outcome == Raised(ERROR_TRANSACTION_OVERWRITE) && states[4].contents != []
    ensures |states[4].contents[0].data| == layouts[0].dataSize
    ensures forall k :: 0 <= k < layouts[0].nvm.writeSize ==> states[4].contents[0].data[k] == ERASED
  {
    hide Layout.SlotSize, Layout.Units, Run, StepOf, Marked;
    var g, cmds := layouts[0], RefusedProgram(layouts[0], b);
    StepAt(layouts, rom, cmds, replies, states, 0);
    StepAt(layouts, rom, cmds, replies, states, 1);
    StepAt(layouts, rom, cmds, replies, states, 2);
    StepAt(layouts, rom, cmds, replies, states, 3);
    WithoutCuts(replies, 0);
    WithoutCuts(replies, 1);
    WithoutCuts(replies, 2);
    WithoutCuts(replies, 3);
    UnitsAreData(g);
    NoMoreUnits(2, g.Units(), g.nvm.writeSize);
    StartIsFree(layouts, rom, states[0], replies[0], states[1], 0, 0, 2);
    SizedNewer(layouts, states[0].contents, 0);
    SecondIsRefused(layouts, rom, states[1], b, replies[1], states[2], replies[2], states[3]);
    CommitTakes(layouts, rom, states[3], replies[3], states[4], 0);
  }

  lemma CommitTakes(layouts: seq<Layout>, rom: seq<byte>, x: State, r: Reply, y: State, i: nat)
    requires StepOf(layouts, rom, x, Commit(i), r, y) && r.outcome != PowerCut
    requires i < |x.contents| && x.contents[i].staged.Newest?
    ensures i < |y.contents| && y.contents[i].data == x.contents[i].staged.data
  {
    hide Delivers, Accounts;
  }
}
