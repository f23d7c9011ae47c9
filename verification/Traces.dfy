/** The memory through a run: which bytes each command may change and erase, and what earlier ones leave. */
module Traces {
  import opened Areas
  import opened Arithmetic
  import opened Bytes
  import opened Contents
  import opened Flash
  import opened Geometry
  import opened Registry
  import Restart
  import opened Ring
  import opened Runs
  import opened Script
  import opened Slots
  import Transactions
  import opened Updates
  import opened Wear

  // cmd erases the next slot if it goes through, issued while a transaction of its area is open or not.
  predicate Erases(cmd: Command, open: bool) {
    !open && ((cmd.Write? && cmd.size > 0) || cmd.Clear? || cmd.Start?)
  }

  function ScopeOf(cmd: Command, open: bool, o: Outcome): Scope {
    if o.Raised? then OnlyRecords
    else if Erases(cmd, open) then NextSlot
    else if (cmd.Write? && cmd.size > 0) || cmd.Commit? then NextUnits
    else OnlyRecords
  }

  // What cmd does to the memory: it changes nothing but records of current slots and, as far as it may, the
  // next slot of its area, which it erases exactly once if it is to erase it and the power does not fail.
  ghost predicate Effect(layouts: seq<Layout>, cmd: Command, open: bool, o: Outcome, c: Chip, d: Chip) {
    && cmd.area < |layouts|
    && (exists j: nat :: j < |layouts| && Confined(layouts[cmd.area], layouts[j], c, d, ScopeOf(cmd, open, o)))
    && (o == Done && Erases(cmd, open) ==> Ready(layouts[cmd.area], c) && NextWorn(layouts[cmd.area], c, d))
  }

  // The areas can be recovered from c, to the versions and data of s.
  ghost predicate Shows(layouts: seq<Layout>, c: Chip, s: seq<Content>) {
    && |s| == |layouts|
    && forall i :: 0 <= i < |layouts| ==> Ready(layouts[i], c) && Recovered(layouts[i], c) == Restart.Settled(s[i])
  }

  // A transaction of area i is open.
  predicate OpenIn(x: State, i: nat) {
    i < |x.contents| && x.contents[i].staged.Newest?
  }

  // The memory before the first command of a run and after each.
  ghost predicate Trace(layouts: seq<Layout>, cmds: seq<Command>, replies: seq<Reply>, states: seq<State>,
                        chips: seq<Chip>) {
    && |replies| == |cmds| && |states| == |chips| == |cmds| + 1
    && (forall k :: 0 <= k < |chips| ==> Shows(layouts, chips[k], states[k].contents))
    && (forall k :: 0 <= k < |cmds| ==>
          Effect(layouts, cmds[k], OpenIn(states[k], cmds[k].area), replies[k].outcome, chips[k], chips[k + 1]))
  }

  ghost predicate AllApart(layouts: seq<Layout>) {
    forall i, j :: 0 <= i < j < |layouts| ==> Apart(layouts[i], layouts[j])
  }

  // The last command of a trace, and the trace before it.
  lemma LastOfTrace(layouts: seq<Layout>, cmds: seq<Command>, replies: seq<Reply>, states: seq<State>,
                    chips: seq<Chip>)
    requires Trace(layouts, cmds, replies, states, chips) && cmds != []
    ensures var n := |cmds| - 1;
            && |replies| == n + 1 && |states| == |chips| == n + 2
            && Trace(layouts, cmds[..n], replies[..n], states[..n + 1], chips[..n + 1])
            && Shows(layouts, chips[n], states[n].contents) && Shows(layouts, chips[n + 1], states[n + 1].contents)
            && Effect(layouts, cmds[n], OpenIn(states[n], cmds[n].area), replies[n].outcome, chips[n], chips[n + 1])
  {
    hide Shows, Effect;
  }

  // What the memory shows of one area.
  lemma Shown(layouts: seq<Layout>, c: Chip, s: seq<Content>, i: nat)
    requires Shows(layouts, c, s) && i < |layouts|
    ensures |s| == |layouts| && Ready(layouts[i], c) && |View(layouts[i], c.mem)| == layouts[i].SlotCount() >= 2
    ensures var v := View(layouts[i], c.mem);
            && s[i].version == Version(v) >= 1 && s[i].data == Committed(v)
            && Current(v) == (Version(v) - 1) % |v| && Next(v) == Version(v) % |v|
  {
    hide Layout.SlotSize, Layout.SlotCount, Layout.SlotBase, View, Bystander, Intact, Current;
    assert Restart.Settled(s[i]) == Recovered(layouts[i], c);
    NextInTurn(layouts[i], c);
  }

  // ---------------------------------------------------------------- earlier data

  lemma DataIsNoRecord(g: Layout, c: Chip, t: nat, k: int)
    requires g.Valid() && t < g.SlotCount() && g.SlotBase(t) <= k < g.SlotBase(t) + g.dataSize
    ensures !InRecord(g, c, k)
  {
    hide Layout.SlotSize, Layout.SlotCount, Layout.SlotBase, Layout.Valid, View, Bystander, Intact, Current;
    if Ready(g, c) {
      var cur := Current(View(g, c.mem));
      SlotPlace(g, t);
      SlotPlace(g, cur);
      if InSlot(g, cur, k) {
        InOneSlot(g, t, cur, k);
      }
    }
  }

  lemma OtherSlotIsNotNext(g: Layout, c: Chip, t: nat, k: int)
    requires g.Valid() && t < g.SlotCount() && InSlot(g, t, k) && (Ready(g, c) ==> t != Next(View(g, c.mem)))
    ensures !InNextSlot(g, c, k)
  {
    hide Layout.SlotSize, Layout.SlotCount, Layout.SlotBase, Layout.Valid, View, Bystander, Intact;
    if InNextSlot(g, c, k) {
      InOneSlot(g, t, Next(View(g, c.mem)), k);
    }
  }

  lemma ApartPair(layouts: seq<Layout>, i: nat, j: nat)
    requires AllApart(layouts) && i < |layouts| && j < |layouts| && i != j
    ensures Apart(layouts[i], layouts[j]) || Apart(layouts[j], layouts[i])
  {
  }

  // Bytes of other areas are in no record and no next slot of this one.
  lemma NotOfOther(layouts: seq<Layout>, i: nat, j: nat, c: Chip, k: int)
    requires AllApart(layouts) && i < |layouts| && j < |layouts| && i != j
    requires layouts[i].area <= k < layouts[i].area + layouts[i].areaSize
    ensures !InRecord(layouts[j], c, k) && !InNextSlot(layouts[j], c, k)
  {
    hide InRecord, InNextSlot;
    PlacesInside(layouts[j], c, k);
    ApartPair(layouts, i, j);
  }

  // No command changes the data in a slot unless it is the next slot of its area.
  lemma DataStep(layouts: seq<Layout>, cmd: Command, open: bool, o: Outcome, c: Chip, d: Chip, i: nat, t: nat)
    requires Effect(layouts, cmd, open, o, c, d) && AllApart(layouts) && i < |layouts|
    requires Ready(layouts[i], c) && Ready(layouts[i], d) && t < layouts[i].SlotCount()
    requires cmd.area == i ==> t != Next(View(layouts[i], c.mem))
    ensures SlotAt(layouts[i], d.mem, t).data == SlotAt(layouts[i], c.mem, t).data
  {
    hide Layout.SlotSize, Layout.SlotCount, Layout.SlotBase, Layout.Valid, View, RingAt, Current, InRecord,
         InNextSlot, AllApart, ScopeOf, NextWorn, WordAt;
    var g := layouts[i];
    var j: nat :| j < |layouts| && Confined(layouts[cmd.area], layouts[j], c, d, ScopeOf(cmd, open, o));
    SlotPlace(g, t);
    var b := g.SlotBase(t);
    forall k | b <= k < b + g.dataSize
      ensures d.mem[k] == c.mem[k]
    {
      DataByteKept(layouts, cmd.area, j, c, i, t, k);
    }
    assert d.mem[b..b + g.dataSize] == c.mem[b..b + g.dataSize];
  }

  lemma DataByteKept(layouts: seq<Layout>, a: nat, j: nat, c: Chip, i: nat, t: nat, k: int)
    requires AllApart(layouts) && i < |layouts| && a < |layouts| && j < |layouts|
    requires layouts[i].Valid() && t < layouts[i].SlotCount()
    requires Ready(layouts[i], c) && (a == i ==> t != Next(View(layouts[i], c.mem)))
    requires layouts[i].SlotBase(t) <= k < layouts[i].SlotBase(t) + layouts[i].dataSize
    ensures !InRecord(layouts[a], c, k) && !InRecord(layouts[j], c, k) && !InNextSlot(layouts[a], c, k)
  {
    hide Layout.SlotSize, Layout.SlotCount, Layout.SlotBase, Layout.Valid, View, RingAt, Current, InRecord,
         InNextSlot, AllApart;
    SlotPlace(layouts[i], t);
    DataIsNoRecord(layouts[i], c, t, k);
    if a == i {
      OtherSlotIsNotNext(layouts[i], c, t, k);
    } else {
      NotOfOther(layouts, i, a, c, k);
    }
    if j != i {
      NotOfOther(layouts, i, j, c, k);
    }
  }

  lemma DifferentTurns(a: nat, b: nat, n: nat)
    requires a < b < a + n
    ensures a % n != b % n
  {
    var q, r := a / n, a % n + (b - a);
    if r < n {
      ModUnique(b, n, q, r);
    } else {
      ModUnique(b, n, q + 1, r - n);
    }
  }

  // While the version of an area grows by at most its number of slots less two, the data it held stays in
  // its slot.
  lemma {:induction false} DataRemains(layouts: seq<Layout>, rom: seq<byte>, cmds: seq<Command>, replies: seq<Reply>,
                                       states: seq<State>, chips: seq<Chip>, i: nat)
    requires Run(layouts, rom, cmds, replies, states) && Trace(layouts, cmds, replies, states, chips)
    requires AllApart(layouts) && i < |layouts| && i < |states[0].contents| && i < |states[|cmds|].contents|
    requires states[|cmds|].contents[i].version <= states[0].contents[i].version + layouts[i].SlotCount() - 2
    ensures Ready(layouts[i], chips[|cmds|]) && states[0].contents[i].version >= 1 && layouts[i].SlotCount() >= 2
    ensures var t := (states[0].contents[i].version - 1) % layouts[i].SlotCount();
            SlotAt(layouts[i], chips[|cmds|].mem, t).data == states[0].contents[i].data
    decreases |cmds|
  {
    hide Layout.SlotSize, Layout.SlotCount, Layout.SlotBase, Layout.Valid, View, RingAt, Current, Run, Trace, Shows,
         Effect, StepOf, AllApart, SlotAt;
    FirstShown(layouts, cmds, replies, states, chips, i);
    var g, u := layouts[i], states[0].contents[i].version;
    if cmds == [] {
      ViewAt(g, chips[0].mem, Current(View(g, chips[0].mem)));
    } else {
      var n := |cmds| - 1;
      LastOfTrace(layouts, cmds, replies, states, chips);
      LastStep(layouts, rom, cmds, replies, states);
      Shown(layouts, chips[n], states[n].contents, i);
      Shown(layouts, chips[n + 1], states[n + 1].contents, i);
      RunSlice(layouts, rom, cmds, replies, states, n, n + 1);
      VersionsGrow(layouts, rom, cmds[n..n + 1], replies[n..n + 1], states[n..n + 2], i);
      VersionsGrow(layouts, rom, cmds[..n], replies[..n], states[..n + 1], i);
      DataRemains(layouts, rom, cmds[..n], replies[..n], states[..n + 1], chips[..n + 1], i);
      DifferentTurns(u - 1, states[n].contents[i].version, g.SlotCount());
      DataStep(layouts, cmds[n], OpenIn(states[n], cmds[n].area), replies[n].outcome, chips[n], chips[n + 1], i,
               (u - 1) % g.SlotCount());
    }
  }

  lemma FirstShown(layouts: seq<Layout>, cmds: seq<Command>, replies: seq<Reply>, states: seq<State>,
                   chips: seq<Chip>, i: nat)
    requires Trace(layouts, cmds, replies, states, chips) && i < |layouts|
    ensures |replies| == |cmds| && |states| == |chips| == |cmds| + 1
    ensures |states[0].contents| == |layouts| && Ready(layouts[i], chips[0])
    ensures |View(layouts[i], chips[0].mem)| == layouts[i].SlotCount() >= 2
    ensures var v, x := View(layouts[i], chips[0].mem), states[0].contents[i];
            x.version == Version(v) >= 1 && x.data == Committed(v) && Current(v) == (Version(v) - 1) % |v|
  {
    hide Effect, Shows, Ready, View, Current;
    Shown(layouts, chips[0], states[0].contents, i);
  }

  // After any run the data an area held at any earlier moment, and its record, are still in the memory, if
  // its version has since grown by no more than its number of slots less two.
  lemma EarlierDataStays(layouts: seq<Layout>, rom: seq<byte>, cmds: seq<Command>, replies: seq<Reply>,
                         states: seq<State>, chips: seq<Chip>, i: nat, k: nat)
    requires Run(layouts, rom, cmds, replies, states) && Trace(layouts, cmds, replies, states, chips)
    requires AllApart(layouts) && i < |layouts| && k <= |cmds|
    requires i < |states[k].contents| && i < |states[|cmds|].contents|
    requires states[|cmds|].contents[i].version <= states[k].contents[i].version + layouts[i].SlotCount() - 2
    ensures Ready(layouts[i], chips[|cmds|]) && states[k].contents[i].version >= 1 && layouts[i].SlotCount() >= 2
    ensures var x := states[k].contents[i];
            var s := SlotAt(layouts[i], chips[|cmds|].mem, (x.version - 1) % layouts[i].SlotCount());
            s.data == x.data && s.version == x.version && Intact(s)
  {
    hide Layout.SlotSize, Layout.SlotCount, Layout.SlotBase, Layout.Valid, View, RingAt, Current, Run, Trace, Shows,
         Effect, StepOf, AllApart, SlotAt, Intact;
    var n := |cmds|;
    LaterTrace(layouts, cmds, replies, states, chips, k);
    RunSlice(layouts, rom, cmds, replies, states, k, n);
    var g, x := layouts[i], states[k].contents[i];
    assert cmds[k..n] == cmds[k..] && replies[k..n] == replies[k..] && states[k..n + 1] == states[k..];
    DataRemains(layouts, rom, cmds[k..], replies[k..], states[k..], chips[k..], i);
    VersionsGrow(layouts, rom, cmds[k..n], replies[k..n], states[k..n + 1], i);
    Shown(layouts, chips[n], states[n].contents, i);
    RecordBehind(g, chips[n], x.version);
  }

  lemma LaterTrace(layouts: seq<Layout>, cmds: seq<Command>, replies: seq<Reply>, states: seq<State>,
                   chips: seq<Chip>, k: nat)
    requires Trace(layouts, cmds, replies, states, chips) && k <= |cmds|
    ensures |replies| == |cmds| && |states| == |chips| == |cmds| + 1
    ensures Trace(layouts, cmds[k..], replies[k..], states[k..], chips[k..])
    ensures Shows(layouts, chips[|cmds|], states[|cmds|].contents)
  {
    hide Shows, Effect;
  }

  // The record of version u of an area whose version is no more than its number of slots less two ahead.
  lemma RecordBehind(g: Layout, c: Chip, u: nat)
    requires Ready(g, c) && 1 <= u <= Version(View(g, c.mem)) <= u + g.SlotCount() - 2
    requires |View(g, c.mem)| == g.SlotCount()
    ensures var s := SlotAt(g, c.mem, (u - 1) % g.SlotCount()); s.version == u && Intact(s)
  {
    hide Layout.SlotSize, Layout.SlotCount, Layout.SlotBase, Layout.Valid, View, SlotAt, Intact, Bystander, Current;
    var v := View(g, c.mem);
    var n, behind := |v|, Version(v) - u;
    PreviousIntact(v, behind);
    BackInTurn(Version(v) - 1, u - 1, n);
    ViewAt(g, c.mem, (u - 1) % n);
  }

  lemma BackInTurn(a: nat, b: nat, n: nat)
    requires b <= a < b + n
    ensures Back(a % n, a - b, n) == b % n
  {
    var q, r, k := a / n, a % n, a - b;
    assert a == q * n + r;
    if k <= r {
      ModUnique(b, n, q, r - k);
    } else {
      assert (q - 1) * n == q * n - n;
      ModUnique(b, n, q - 1, r - k + n);
    }
  }

  // ---------------------------------------------------------------- wear

  // It is the turn of slot j of area i to be erased by cmd, issued in state x.
  predicate Turn(g: Layout, cmd: Command, x: State, i: nat, j: nat)
  {
    && cmd.area == i < |x.contents| && Erases(cmd, OpenIn(x, i))
    && g.SlotCount() > 0 && x.contents[i].version % g.SlotCount() == j
  }

  // How often a command of a run has erased slot j of area i; if cuts, those the power failed in included.
  function Erasures(g: Layout, cmds: seq<Command>, replies: seq<Reply>, states: seq<State>, i: nat, j: nat,
                    cuts: bool): nat
    requires |cmds| == |replies| < |states|
    decreases |cmds|
  {
    if cmds == [] then 0
    else
      var n := |cmds| - 1;
      var o := replies[n].outcome;
      Erasures(g, cmds[..n], replies[..n], states[..n + 1], i, j, cuts)
      + if Turn(g, cmds[n], states[n], i, j) && (o == Done || (cuts && o == PowerCut)) then 1 else 0
  }

  lemma {:induction false} ErasuresWithoutCuts(g: Layout, cmds: seq<Command>, replies: seq<Reply>,
                                               states: seq<State>, i: nat, j: nat)
    requires |cmds| == |replies| < |states| && forall k :: 0 <= k < |cmds| ==> replies[k].outcome != PowerCut
    ensures Erasures(g, cmds, replies, states, i, j, true) == Erasures(g, cmds, replies, states, i, j, false)
    decreases |cmds|
  {
    hide Turn;
    if cmds != [] {
      var n := |cmds| - 1;
      ErasuresWithoutCuts(g, cmds[..n], replies[..n], states[..n + 1], i, j);
    }
  }

  // What one command does to the wear of a byte of slot j of area i.
  lemma WearOfStep(layouts: seq<Layout>, cmd: Command, x: State, o: Outcome, c: Chip, d: Chip, i: nat, j: nat, k: nat)
    requires Effect(layouts, cmd, OpenIn(x, cmd.area), o, c, d) && Shows(layouts, c, x.contents)
    requires AllApart(layouts) && i < |layouts| && j < layouts[i].SlotCount() && InSlot(layouts[i], j, k)
    requires k < |c.mem|
    ensures |c.wear| == |d.wear| == |d.mem| == |c.mem|
    ensures if !Turn(layouts[i], cmd, x, i, j) || o.Raised? then d.wear[k] == c.wear[k]
            else if o == Done then d.wear[k] == c.wear[k] + 1
            else c.wear[k] <= d.wear[k] <= c.wear[k] + 1
  {
    hide Layout.SlotSize, Layout.SlotCount, Layout.SlotBase, Layout.Valid, View, RingAt, Current, InRecord,
         AllApart, InSlot, Shows, InNextSlot;
    Shown(layouts, c, x.contents, i);
    SlotPlace(layouts[i], j);
    if cmd.area == i {
      NextOrNot(layouts[i], c, j, k);
    } else {
      ByteInArea(layouts[i], j, k);
      NotOfOther(layouts, i, cmd.area, c, k);
    }
  }

  lemma ByteInArea(g: Layout, j: nat, k: int)
    requires g.Valid() && j < g.SlotCount() && InSlot(g, j, k)
    ensures g.area <= k < g.area + g.areaSize
  {
    hide Layout.SlotSize, Layout.SlotCount, Layout.SlotBase;
    SlotPlace(g, j);
  }

  lemma NextOrNot(g: Layout, c: Chip, j: nat, k: nat)
    requires Ready(g, c) && j < g.SlotCount() && InSlot(g, j, k) && k < |c.mem|
    ensures InNextSlot(g, c, k) <==> Next(View(g, c.mem)) == j
    ensures forall d :: NextWorn(g, c, d) && |d.wear| == |c.mem| ==>
              d.wear[k] == c.wear[k] + if Next(View(g, c.mem)) == j then 1 else 0
  {
    hide Layout.SlotSize, Layout.SlotCount, Layout.SlotBase, Layout.Valid, View, Bystander, Intact, Current;
    ByteInArea(g, j, k);
    if InSlot(g, Next(View(g, c.mem)), k) {
      InOneSlot(g, Next(View(g, c.mem)), j, k);
    }
  }

  // In any run every byte of a slot is erased once for every command that had its turn with the slot and was
  // carried out, at most once for one the power failed in, and on no other occasion.
  lemma {:induction false} WearCounted(layouts: seq<Layout>, cmds: seq<Command>, replies: seq<Reply>,
                                       states: seq<State>, chips: seq<Chip>, i: nat, j: nat, k: nat)
    requires Trace(layouts, cmds, replies, states, chips) && AllApart(layouts) && i < |layouts|
    requires j < layouts[i].SlotCount() && InSlot(layouts[i], j, k) && k < |chips[0].mem|
    ensures |replies| == |cmds| && |states| == |chips| == |cmds| + 1
    ensures |chips[0].wear| == |chips[|cmds|].wear| == |chips[0].mem| == |chips[|cmds|].mem|
    ensures chips[0].wear[k] + Erasures(layouts[i], cmds, replies, states, i, j, false) <= chips[|cmds|].wear[k]
    ensures chips[|cmds|].wear[k] <= chips[0].wear[k] + Erasures(layouts[i], cmds, replies, states, i, j, true)
    ensures (forall l :: 0 <= l < |cmds| ==> replies[l].outcome != PowerCut) ==>
              chips[|cmds|].wear[k] == chips[0].wear[k] + Erasures(layouts[i], cmds, replies, states, i, j, true)
    decreases |cmds|
  {
    hide Layout.SlotSize, Layout.SlotCount, Layout.SlotBase, Layout.Valid, Trace, Shows, Effect, AllApart, Turn,
         InSlot;
    TraceLengths(layouts, cmds, replies, states, chips, i);
    if cmds != [] {
      var n := |cmds| - 1;
      LastOfTrace(layouts, cmds, replies, states, chips);
      WearCounted(layouts, cmds[..n], replies[..n], states[..n + 1], chips[..n + 1], i, j, k);
      WearOfStep(layouts, cmds[n], states[n], replies[n].outcome, chips[n], chips[n + 1], i, j, k);
    }
    if forall l :: 0 <= l < |cmds| ==> replies[l].outcome != PowerCut {
      ErasuresWithoutCuts(layouts[i], cmds, replies, states, i, j);
    }
  }

  lemma TraceLengths(layouts: seq<Layout>, cmds: seq<Command>, replies: seq<Reply>, states: seq<State>,
                     chips: seq<Chip>, i: nat)
    requires Trace(layouts, cmds, replies, states, chips) && i < |layouts|
    ensures |replies| == |cmds| && |states| == |chips| == |cmds| + 1
    ensures |chips[0].wear| == |chips[0].mem|
  {
    hide Effect, Shows, View, RingAt, Layout.Valid;
    Shown(layouts, chips[0], states[0].contents, i);
  }

  // How many updates of area i have had their erase, when each transaction begun is committed.
  function Level(x: State, i: nat): int
    requires i < |x.contents|
  {
    x.contents[i].version - 1 + if x.contents[i].staged.Newest? then 1 else 0
  }

  // No transaction of area i is given up: none is aborted, and the power never fails.
  predicate Thrifty(cmds: seq<Command>, replies: seq<Reply>, states: seq<State>, i: nat) {
    && |replies| == |cmds| < |states|
    && forall k :: 0 <= k < |cmds| ==>
         replies[k].outcome != PowerCut && !(cmds[k] == Abort(i) && OpenIn(states[k], i))
  }

  lemma LevelStep(rom: seq<byte>, g: Layout, x: State, cmd: Command, o: Outcome, y: State, i: nat)
    requires Explains(rom, x.contents, cmd, o, y.contents) && o != PowerCut && i < |x.contents|
    requires !(cmd == Abort(i) && OpenIn(x, i))
    ensures i < |y.contents|
    ensures Level(y, i) == Level(x, i) + if cmd.area == i && Erases(cmd, OpenIn(x, i)) && o == Done then 1 else 0
  {
    hide SourceValue, Patched, Transactions.NewestOf;
    if cmd.area != i {
      OneStepElsewhere(rom, x.contents, cmd, o, y.contents, i);
    }
  }

  // A run in which no transaction of the area is given up and the power does not fail wears it evenly.
  lemma {:induction false} ThriftyRunWearsEvenly(layouts: seq<Layout>, rom: seq<byte>, cmds: seq<Command>,
                                                 replies: seq<Reply>, states: seq<State>, chips: seq<Chip>, i: nat,
                                                 w: nat)
    requires Run(layouts, rom, cmds, replies, states) && Trace(layouts, cmds, replies, states, chips)
    requires AllApart(layouts) && i < |layouts| && i < |states[0].contents| && Thrifty(cmds, replies, states, i)
    requires Level(states[0], i) >= 0 && EvenlyWorn(layouts[i], chips[0], w, Level(states[0], i))
    ensures i < |states[|cmds|].contents| && Level(states[|cmds|], i) >= 0
    ensures EvenlyWorn(layouts[i], chips[|cmds|], w, Level(states[|cmds|], i))
    decreases |cmds|
  {
    hide Layout.SlotSize, Layout.SlotCount, Layout.SlotBase, Layout.Valid, Run, Trace, Shows, Effect, StepOf,
         AllApart, EvenlyWorn, Level, Explains;
    if cmds != [] {
      var n := |cmds| - 1;
      LastOfTrace(layouts, cmds, replies, states, chips);
      LastStep(layouts, rom, cmds, replies, states);
      ThriftyRunWearsEvenly(layouts, rom, cmds[..n], replies[..n], states[..n + 1], chips[..n + 1], i, w);
      StepExplains(layouts, rom, states[n], cmds[n], replies[n], states[n + 1]);
      EvenStep(layouts, rom, states[n], cmds[n], replies[n].outcome, states[n + 1], chips[n], chips[n + 1], i, w);
    }
  }

  lemma StepExplains(layouts: seq<Layout>, rom: seq<byte>, x: State, cmd: Command, r: Reply, y: State)
    requires StepOf(layouts, rom, x, cmd, r, y)
    ensures Explains(rom, x.contents, cmd, r.outcome, y.contents)
  {
    hide Explains, Delivers, Accounts;
  }

  lemma EvenStep(layouts: seq<Layout>, rom: seq<byte>, x: State, cmd: Command, o: Outcome, y: State, c: Chip, d: Chip,
                 i: nat, w: nat)
    requires Explains(rom, x.contents, cmd, o, y.contents) && Effect(layouts, cmd, OpenIn(x, cmd.area), o, c, d)
    requires Shows(layouts, c, x.contents) && Shows(layouts, d, y.contents) && AllApart(layouts)
    requires i < |layouts| && i < |x.contents| && o != PowerCut && !(cmd == Abort(i) && OpenIn(x, i))
    requires Level(x, i) >= 0 && EvenlyWorn(layouts[i], c, w, Level(x, i))
    ensures i < |y.contents| && Level(y, i) >= 0 && EvenlyWorn(layouts[i], d, w, Level(y, i))
  {
    hide Layout.SlotSize, Layout.SlotCount, Layout.SlotBase, Layout.Valid, Shows, View, RingAt, Current, AllApart,
         Explains, InSlot, Hits, Effect;
    var g := layouts[i];
    LevelStep(rom, g, x, cmd, o, y, i);
    Shown(layouts, c, x.contents, i);
    Shown(layouts, d, y.contents, i);
    forall j: nat, k: nat | j < g.SlotCount() && InSlot(g, j, k) && k < |d.wear|
      ensures d.wear[k] == w + Hits(j, Level(y, i), g.SlotCount())
    {
      ReadyLength(g, c, d);
      ByteOnChip(g, c, j, k);
      WearOfStep(layouts, cmd, x, o, c, d, i, j, k);
      OneMoreHit(j, Level(x, i), g.SlotCount());
    }
  }

  lemma OneMoreHit(j: nat, m: nat, n: nat)
    requires n > 0
    ensures Hits(j, m + 1, n) == Hits(j, m, n) + if (m + 1) % n == j then 1 else 0
  {
  }

  lemma ReadyLength(g: Layout, c: Chip, d: Chip)
    requires Ready(g, c) && Ready(g, d)
    ensures |c.wear| == |c.mem| && |d.wear| == |d.mem|
  {
    hide View, RingAt;
  }

  lemma ByteOnChip(g: Layout, c: Chip, j: nat, k: int)
    requires Ready(g, c) && j < g.SlotCount() && InSlot(g, j, k)
    ensures k < |c.mem|
  {
    hide Layout.SlotSize, Layout.SlotCount, Layout.SlotBase, View, RingAt;
    SlotPlace(g, j);
  }
}
