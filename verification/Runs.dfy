/** What every run of a program of library calls keeps. */
module Runs {
  import opened Areas
  import opened Bytes
  import opened Contents
  import opened Geometry
  import opened Restart
  import opened Script
  import opened Tracker
  import opened Transactions

  // Part of a run is a run.
  lemma RunSlice(layouts: seq<Layout>, rom: seq<byte>, cmds: seq<Command>, replies: seq<Reply>, states: seq<State>,
                 lo: nat, hi: nat)
    requires Run(layouts, rom, cmds, replies, states) && lo <= hi <= |cmds|
    ensures |replies| == |cmds| && |states| == |cmds| + 1
    ensures Run(layouts, rom, cmds[lo..hi], replies[lo..hi], states[lo..hi + 1])
  {
    hide StepOf;
  }

  lemma StepAt(layouts: seq<Layout>, rom: seq<byte>, cmds: seq<Command>, replies: seq<Reply>, states: seq<State>,
               k: nat)
    requires Run(layouts, rom, cmds, replies, states) && k < |cmds|
    ensures |replies| == |cmds| && |states| == |cmds| + 1
    ensures StepOf(layouts, rom, states[k], cmds[k], replies[k], states[k + 1])
  {
    hide StepOf;
  }

  // The last command of a run, and the run before it.
  lemma LastStep(layouts: seq<Layout>, rom: seq<byte>, cmds: seq<Command>, replies: seq<Reply>, states: seq<State>)
    requires Run(layouts, rom, cmds, replies, states) && cmds != []
    ensures var n := |cmds| - 1;
            && |replies| == |cmds| && |states| == |cmds| + 1
            && Run(layouts, rom, cmds[..n], replies[..n], states[..n + 1])
            && StepOf(layouts, rom, states[n], cmds[n], replies[n], states[n + 1])
  {
    hide StepOf;
  }

  // Without a power cut no command comes back with one.
  lemma {:induction false} WithoutCuts(replies: seq<Reply>, k: nat)
    requires Cuts(replies) == 0 && k < |replies|
    ensures replies[k].outcome != PowerCut
    decreases |replies|
  {
    if k < |replies| - 1 {
      WithoutCuts(replies[..|replies| - 1], k);
    }
  }

  // ---------------------------------------------------------------- what a step may change

  lemma OneStepElsewhere(rom: seq<byte>, s: seq<Content>, cmd: Command, o: Outcome, t: seq<Content>, j: nat)
    requires Explains(rom, s, cmd, o, t) && j < |s| && cmd.area != j
    ensures |t| == |s| && Settled(t[j]) == Settled(s[j])
    ensures o != PowerCut ==> t[j] == s[j]
  {
    hide SourceValue, Patched;
  }

  // Commands on other areas, even when the power fails in them, never change the version or the data of
  // an area.
  lemma {:induction false} OthersUntouched(layouts: seq<Layout>, rom: seq<byte>, cmds: seq<Command>,
                                           replies: seq<Reply>, states: seq<State>, j: nat)
    requires Run(layouts, rom, cmds, replies, states) && j < |states[0].contents|
    requires forall k :: 0 <= k < |cmds| ==> cmds[k].area != j
    ensures |states[|cmds|].contents| == |states[0].contents|
    ensures Settled(states[|cmds|].contents[j]) == Settled(states[0].contents[j])
    decreases |cmds|
  {
    hide SourceValue, Patched, Run, Accounts;
    if cmds != [] {
      var n := |cmds| - 1;
      LastStep(layouts, rom, cmds, replies, states);
      OthersUntouched(layouts, rom, cmds[..n], replies[..n], states[..n + 1], j);
      OneStepElsewhere(rom, states[n].contents, cmds[n], replies[n].outcome, states[n + 1].contents, j);
    }
  }

  // cmd, issued in state x, is no update of area i: it is neither an erase nor a commit, nor a write
  // outside a transaction.
  predicate NoUpdate(cmd: Command, x: State, i: nat) {
    cmd.area == i ==>
      && !cmd.Clear? && !cmd.Commit?
      && (cmd.Write? && cmd.size > 0 ==> i < |x.contents| && x.contents[i].staged.Newest?)
  }

  // Until the next update of an area its version and data stay, through reads, transactions begun,
  // written to and aborted, refused calls, power cuts and resets.
  lemma {:induction false} NoUpdateNoChange(layouts: seq<Layout>, rom: seq<byte>, cmds: seq<Command>,
                                            replies: seq<Reply>, states: seq<State>, i: nat)
    requires Run(layouts, rom, cmds, replies, states) && i < |states[0].contents|
    requires forall k :: 0 <= k < |cmds| ==> NoUpdate(cmds[k], states[k], i)
    ensures |states[|cmds|].contents| == |states[0].contents|
    ensures Settled(states[|cmds|].contents[i]) == Settled(states[0].contents[i])
    decreases |cmds|
  {
    hide SourceValue, Patched, Run, Accounts, NoUpdate;
    if cmds != [] {
      var n := |cmds| - 1;
      LastStep(layouts, rom, cmds, replies, states);
      NoUpdateNoChange(layouts, rom, cmds[..n], replies[..n], states[..n + 1], i);
      NoUpdateStep(rom, states[n], cmds[n], replies[n].outcome, states[n + 1].contents, i);
    }
  }

  lemma NoUpdateStep(rom: seq<byte>, x: State, cmd: Command, o: Outcome, t: seq<Content>, i: nat)
    requires Explains(rom, x.contents, cmd, o, t) && i < |x.contents| && NoUpdate(cmd, x, i)
    ensures |t| == |x.contents| && Settled(t[i]) == Settled(x.contents[i])
  {
    hide SourceValue, Patched;
    if cmd.area != i {
      OneStepElsewhere(rom, x.contents, cmd, o, t, i);
    }
  }

  // A read of committed data delivers what the area held at any earlier moment since which it was not
  // updated.
  lemma FetchesStable(layouts: seq<Layout>, rom: seq<byte>, cmds: seq<Command>, replies: seq<Reply>, states: seq<State>,
                      j: nat, k: nat)
    requires Run(layouts, rom, cmds, replies, states) && j <= k < |cmds|
    requires cmds[k].Fetch? && replies[k].outcome == Done && cmds[k].area < |states[j].contents|
    requires forall l :: j <= l < k ==> NoUpdate(cmds[l], states[l], cmds[k].area)
    ensures var c, d := cmds[k], states[j].contents[cmds[k].area].data;
            c.at + c.size <= |d| && replies[k].bytes == d[c.at..c.at + c.size]
  {
    hide Run, NoUpdate, Explains, Accounts;
    RunSlice(layouts, rom, cmds, replies, states, j, k);
    NoUpdateNoChange(layouts, rom, cmds[j..k], replies[j..k], states[j..k + 1], cmds[k].area);
    StepAt(layouts, rom, cmds, replies, states, k);
  }

  lemma SourceLength(layouts: seq<Layout>, rom: seq<byte>, s: seq<Content>, cmd: Command)
    requires Meant(layouts, |rom|, cmd) && cmd.Write? && Sized(layouts, s)
    ensures |SourceValue(rom, s, cmd.src, cmd.size)| == cmd.size
  {
    hide OutsideAll;
  }

  // What was written outside a transaction is what a read delivers, until the area is updated again: the
  // bytes of the source where it was written, the old ones everywhere else.
  lemma WriteThenFetch(layouts: seq<Layout>, rom: seq<byte>, cmds: seq<Command>, replies: seq<Reply>,
                       states: seq<State>, k: nat, p: nat)
    requires Run(layouts, rom, cmds, replies, states) && 0 < k < |cmds| && Sized(layouts, states[0].contents)
    requires Meant(layouts, |rom|, cmds[0]) && cmds[0].Write? && replies[0].outcome == Done
    requires cmds[0].area < |states[0].contents| && !states[0].contents[cmds[0].area].staged.Newest?
    requires forall l :: 1 <= l < k ==> NoUpdate(cmds[l], states[l], cmds[0].area)
    requires cmds[k].Fetch? && cmds[k].area == cmds[0].area && replies[k].outcome == Done && p < cmds[k].size
    ensures |SourceValue(rom, states[0].contents, cmds[0].src, cmds[0].size)| == cmds[0].size
    ensures |replies[k].bytes| == cmds[k].size
    ensures var w, d, q := cmds[0], states[0].contents[cmds[0].area].data, cmds[k].at + p;
            && q < |d|
            && replies[k].bytes[p] == if w.at <= q < w.at + w.size
                                      then SourceValue(rom, states[0].contents, w.src, w.size)[q - w.at] else d[q]
  {
    hide Run, NoUpdate, Accounts, SourceValue, Delivers, OutsideAll;
    StepAt(layouts, rom, cmds, replies, states, 0);
    SourceLength(layouts, rom, states[0].contents, cmds[0]);
    FetchesStable(layouts, rom, cmds, replies, states, 1, k);
  }

  // After an erase every read delivers erased bytes, until the area is updated again.
  lemma ClearThenFetch(layouts: seq<Layout>, rom: seq<byte>, cmds: seq<Command>, replies: seq<Reply>,
                       states: seq<State>, k: nat)
    requires Run(layouts, rom, cmds, replies, states) && 0 < k < |cmds|
    requires cmds[0].Clear? && replies[0].outcome == Done
    requires forall l :: 1 <= l < k ==> NoUpdate(cmds[l], states[l], cmds[0].area)
    requires cmds[k].Fetch? && cmds[k].area == cmds[0].area && replies[k].outcome == Done
    ensures replies[k].bytes == Repeat(0xFF, cmds[k].size)
  {
    hide Run, NoUpdate, Accounts, SourceValue, Delivers;
    StepAt(layouts, rom, cmds, replies, states, 0);
    FetchesStable(layouts, rom, cmds, replies, states, 1, k);
  }

  // A power cut in a write outside a transaction leaves the area as it was or as it was to be, one version
  // on, and every other area as it was.
  lemma CutWrite(layouts: seq<Layout>, rom: seq<byte>, x: State, cmd: Command, r: Reply, y: State, j: nat)
    requires StepOf(layouts, rom, x, cmd, r, y) && r.outcome == PowerCut
    requires cmd.Write? && !x.contents[cmd.area].staged.Newest? && j < |x.contents|
    requires Meant(layouts, |rom|, cmd) && Sized(layouts, x.contents)
    ensures |y.contents| == |x.contents| && y.contents[j].staged == NoTransaction
    ensures |SourceValue(rom, x.contents, cmd.src, cmd.size)| == cmd.size
    ensures var s, t, b := x.contents[j], y.contents[j], SourceValue(rom, x.contents, cmd.src, cmd.size);
            || (t.version == s.version && t.data == s.data)
            || (j == cmd.area && t.version == s.version + 1 && |t.data| == |s.data|
                && forall p :: 0 <= p < |s.data| ==>
                     t.data[p] == if cmd.at <= p < cmd.at + cmd.size then b[p - cmd.at] else s.data[p])
  {
    hide Accounts, SourceValue, Delivers, OutsideAll;
    SourceLength(layouts, rom, x.contents, cmd);
  }

  // Versions never go down, and go up by at most one for every command.
  lemma {:induction false} VersionsGrow(layouts: seq<Layout>, rom: seq<byte>, cmds: seq<Command>, replies: seq<Reply>,
                                        states: seq<State>, i: nat)
    requires Run(layouts, rom, cmds, replies, states) && i < |states[0].contents|
    ensures |states[|cmds|].contents| == |states[0].contents|
    ensures var x, y := states[0].contents[i], states[|cmds|].contents[i];
            && x.version <= y.version <= x.version + |cmds|
            && (y.version == x.version ==> y.data == x.data)
    decreases |cmds|
  {
    hide SourceValue, Patched, Run, Accounts;
    if cmds != [] {
      var n := |cmds| - 1;
      LastStep(layouts, rom, cmds, replies, states);
      VersionsGrow(layouts, rom, cmds[..n], replies[..n], states[..n + 1], i);
    }
  }

  // ---------------------------------------------------------------- open transactions

  // No power cut, and neither commit nor abort of area i.
  predicate Undisturbed(cmds: seq<Command>, replies: seq<Reply>, i: nat) {
    && |replies| == |cmds|
    && forall k :: 0 <= k < |cmds| ==>
         replies[k].outcome != PowerCut && (cmds[k].area == i ==> !cmds[k].Commit? && !cmds[k].Abort?)
  }

  // While a transaction is open nothing changes what the area holds outside of it, whatever becomes of
  // the calls made.
  lemma {:induction false} OpenIsIsolated(layouts: seq<Layout>, rom: seq<byte>, cmds: seq<Command>, replies: seq<Reply>,
                                          states: seq<State>, i: nat)
    requires Run(layouts, rom, cmds, replies, states) && Undisturbed(cmds, replies, i)
    requires i < |states[0].contents| && states[0].contents[i].staged.Newest?
    ensures |states[|cmds|].contents| == |states[0].contents|
    ensures states[|cmds|].contents[i].staged.Newest?
    ensures Settled(states[|cmds|].contents[i]) == Settled(states[0].contents[i])
    decreases |cmds|
  {
    hide SourceValue, Patched, Run, Accounts;
    if cmds != [] {
      var n := |cmds| - 1;
      LastStep(layouts, rom, cmds, replies, states);
      OpenIsIsolated(layouts, rom, cmds[..n], replies[..n], states[..n + 1], i);
      if cmds[n].area != i {
        OneStepElsewhere(rom, states[n].contents, cmds[n], replies[n].outcome, states[n + 1].contents, i);
      }
    }
  }

  // A unit that was touched stays touched until the transaction ends.
  lemma {:induction false} TouchedStays(layouts: seq<Layout>, rom: seq<byte>, cmds: seq<Command>, replies: seq<Reply>,
                                        states: seq<State>, i: nat, u: nat)
    requires Run(layouts, rom, cmds, replies, states) && Undisturbed(cmds, replies, i)
    requires i < |states[0].contents| && states[0].contents[i].staged.Newest?
    requires i < |states[0].marks| && Marked(states[0].marks[i], u)
    ensures i < |states[|cmds|].marks| && Marked(states[|cmds|].marks[i], u)
    decreases |cmds|
  {
    hide Delivers, Run, Marked, MarkRange, NoneMarkedIn, SpoiledUnits, FirstUnit, ReachedUnits, SourceValue,
         Patched;
    if cmds != [] {
      var n := |cmds| - 1;
      LastStep(layouts, rom, cmds, replies, states);
      TouchedStays(layouts, rom, cmds[..n], replies[..n], states[..n + 1], i, u);
      OpenIsIsolated(layouts, rom, cmds[..n], replies[..n], states[..n + 1], i);
      var bits, more := states[n].marks[i], states[n + 1].marks[i];
      if more != bits {
        var first := FirstUnit(layouts[i], layouts[i].area + cmds[n].at);
        var n := ReachedUnits(layouts[i], layouts[i].area + cmds[n].at, cmds[n].size);
        RangeMarks(bits, first, Unmarked(bits, first, n), u);
      }
    }
  }

  // cmd is a write of area i that reaches write unit u.
  predicate WritesUnit(layouts: seq<Layout>, cmd: Command, i: nat, u: nat) {
    && cmd.Write? && cmd.area == i < |layouts| && cmd.size > 0
    && var first := FirstUnit(layouts[i], layouts[i].area + cmd.at);
       first <= u < first + ReachedUnits(layouts[i], layouts[i].area + cmd.at, cmd.size)
  }

  // Within one transaction a write that reaches a unit an earlier write has reached is refused.
  lemma SecondWriteRefused(layouts: seq<Layout>, rom: seq<byte>, cmds: seq<Command>, replies: seq<Reply>,
                           states: seq<State>, i: nat, u: nat)
    requires Run(layouts, rom, cmds, replies, states) && Undisturbed(cmds, replies, i) && |cmds| >= 2
    requires i < |states[0].contents| && states[0].contents[i].staged.Newest?
    requires WritesUnit(layouts, cmds[0], i, u) && WritesUnit(layouts, cmds[|cmds| - 1], i, u)
    requires replies[0].outcome == Done
    ensures replies[|cmds| - 1].outcome == Raised(ERROR_TRANSACTION_OVERWRITE)
  {
    hide Delivers, Run, Marked, MarkRange, SpoiledUnits, FirstUnit, ReachedUnits, SourceValue, Patched;
    var n := |cmds| - 1;
    StepAt(layouts, rom, cmds, replies, states, 0);
    StepAt(layouts, rom, cmds, replies, states, n);
    RunSlice(layouts, rom, cmds, replies, states, 1, n);
    RunSlice(layouts, rom, cmds, replies, states, 0, n);
    var dst := layouts[i].area + cmds[0].at;
    AllUnmarked(states[0].marks[i], FirstUnit(layouts[i], dst), ReachedUnits(layouts[i], dst, cmds[0].size));
    RangeMarks(states[0].marks[i], FirstUnit(layouts[i], dst), ReachedUnits(layouts[i], dst, cmds[0].size), u);
    assert Marked(states[1].marks[i], u);
    TouchedStays(layouts, rom, cmds[1..n], replies[1..n], states[1..n + 1], i, u);
    OpenIsIsolated(layouts, rom, cmds[0..n], replies[0..n], states[0..n + 1], i);
  }
}
