/** Programs of library calls on any number of areas, and what they mean. */
module Script {
  import opened Access
  import opened Areas
  import opened Bytes
  import opened Contents
  import opened Geometry
  import Operations
  import opened Restart
  import Tracker
  import opened Transactions

  // Where the bytes of a write come from: a RAM buffer, the data of an area, or memory outside all areas.
  datatype Source = Buffer(bytes: seq<byte>) | Data(area: nat, off: nat) | Fixed(addr: nat)

  // lftl_write_any, lftl_erase_all, lftl_transaction_start (after an lftl_read of one byte, if the current
  // slot of the area is not known yet), lftl_transaction_commit and _abort, lftl_read and lftl_read_newer.
  datatype Command =
    | Write(area: nat, at: nat, src: Source, size: nat)
    | Clear(area: nat)
    | Start(area: nat)
    | Commit(area: nat)
    | Abort(area: nat)
    | Fetch(area: nat, at: nat, size: nat)
    | FetchNewer(area: nat, at: nat, size: nat)

  // How a command ended, and the bytes it read.
  datatype Reply = Reply(outcome: Outcome, bytes: seq<byte>)

  // Nothing from addr on, size bytes long, belongs to an area.
  predicate OutsideAll(layouts: seq<Layout>, addr: nat, size: nat) {
    forall i :: 0 <= i < |layouts| ==>
      (addr < layouts[i].area && addr + size <= layouts[i].area) || layouts[i].area + layouts[i].areaSize <= addr
  }

  // Sources and destinations lie inside their areas, buffers and memory of this size, and newer data is
  // read in whole units.
  predicate Meant(layouts: seq<Layout>, memory: nat, cmd: Command) {
    && cmd.area < |layouts|
    && (cmd.Write? ==>
          && cmd.at + cmd.size <= layouts[cmd.area].dataSize
          && match cmd.src
             case Buffer(b) => cmd.size <= |b|
             case Data(j, off) => j < |layouts| && off + cmd.size <= layouts[j].dataSize
             case Fixed(addr) => addr + cmd.size <= memory && OutsideAll(layouts, addr, cmd.size))
    && (cmd.Fetch? || cmd.FetchNewer? ==> cmd.at + cmd.size <= layouts[cmd.area].dataSize)
    && (cmd.FetchNewer? ==> WholeRange(layouts[cmd.area], layouts[cmd.area].area + cmd.at, cmd.size))
  }

  // Every write and read inside the data of an area is among them, to its last byte, from a buffer that is
  // just long enough, from the same stretch of any area of that size, or from memory up to an area's edge.
  lemma InsideIsMeant(layouts: seq<Layout>, memory: nat, i: nat, at: nat, size: nat, b: seq<byte>, j: nat)
    requires i < |layouts| && at + size <= layouts[i].dataSize && |b| == size
    requires j < |layouts| && at + size <= layouts[j].dataSize
    ensures Meant(layouts, memory, Write(i, at, Buffer(b), size))
    ensures Meant(layouts, memory, Write(i, at, Data(j, at), size))
    ensures size <= memory && (forall k :: 0 <= k < |layouts| ==> 0 < layouts[k].area && size <= layouts[k].area) ==>
              Meant(layouts, memory, Write(i, at, Fixed(0), size))
    ensures Meant(layouts, memory, Fetch(i, at, size))
    ensures WholeRange(layouts[i], layouts[i].area + at, size) ==> Meant(layouts, memory, FetchNewer(i, at, size))
    ensures forall cmd: Command ::
              cmd in {Clear(i), Start(i), Commit(i), Abort(i)} ==> Meant(layouts, memory, cmd)
  {
  }

  // ---------------------------------------------------------------- what commands mean

  // The bytes a source stands for: those of an area are its committed ones; rom is the memory outside
  // the areas.
  function SourceValue(rom: seq<byte>, s: seq<Content>, src: Source, size: nat): seq<byte> {
    match src
    case Buffer(b) => if size <= |b| then b[..size] else []
    case Data(j, off) => if j < |s| && off + size <= |s[j].data| then s[j].data[off..off + size] else []
    case Fixed(addr) => if addr + size <= |rom| then rom[addr..addr + size] else []
  }

  function Patched(d: seq<byte>, at: nat, b: seq<byte>): seq<byte> {
    if at + |b| <= |d| then Splice(d, at, b) else d
  }

  // A call that updates area i to data takes the areas from s to t. After a power cut and a reset the
  // area has its old or its new data, and no transaction is open anywhere.
  ghost predicate TakesUpdate(s: seq<Content>, i: nat, data: seq<byte>, o: Outcome, t: seq<Content>) {
    && i < |s|
    && match o
       case Raised(_) => t == s
       case Done => t == s[i := Operations.OneUpdateOn(s[i], data)]
       case PowerCut => t == AllSettled(s) || t == AllSettled(s[i := Operations.OneUpdateOn(s[i], data)])
  }

  // A call that does no more than change what is staged for area i.
  ghost predicate Stages(s: seq<Content>, i: nat, staged: Staged, o: Outcome, t: seq<Content>) {
    && i < |s|
    && t == if o == PowerCut then AllSettled(s) else s[i := s[i].(staged := staged)]
  }

  // Carrying out cmd on areas that hold s ends with o, and with the areas holding t.
  ghost predicate Explains(rom: seq<byte>, s: seq<Content>, cmd: Command, o: Outcome, t: seq<Content>) {
    && cmd.area < |s| == |t|
    && var x := s[cmd.area];
       var open := x.staged.Newest?;
       match cmd
       case Write(i, at, src, size) =>
         var b := SourceValue(rom, s, src, size);
         if size == 0 then o == Done && t == s
         else if !open then !o.Raised? && TakesUpdate(s, i, Patched(x.data, at, b), o, t)
         else if o.Raised? then
           && o.code == ERROR_TRANSACTION_OVERWRITE
           && t[i].staged.Newest? && Stages(s, i, t[i].staged, o, t)
         else Stages(s, i, Newest(Patched(x.staged.data, at, b)), o, t)
       case Clear(i) =>
         && TakesUpdate(s, i, Repeat(ERASED, |x.data|), o, t)
         && (if open then o == Raised(ERROR_TRANSACTION_ONGOING) else !o.Raised?)
       case Start(i) =>
         && Stages(s, i, if open then x.staged else Newest(x.data), o, t)
         && (if open then o == Raised(ERROR_TRANSACTION_ONGOING) else !o.Raised?)
       case Commit(i) =>
         && TakesUpdate(s, i, NewestOf(s, i), o, t)
         && (if open then !o.Raised? else o == Raised(ERROR_NO_TRANSACTION))
       case Abort(i) =>
         Stages(s, i, NoTransaction, o, t) && o == Done
       case Fetch(i, _, _) =>
         Stages(s, i, x.staged, o, t) && !o.Raised?
       case FetchNewer(i, _, _) =>
         Stages(s, i, x.staged, o, t) && !o.Raised?
  }

  // Reads deliver the committed data, and those of the newer data what the open transaction, if there is
  // one, has assembled.
  ghost predicate Delivers(s: seq<Content>, cmd: Command, r: Reply) {
    && cmd.area < |s|
    && (r.outcome == Done && (cmd.Fetch? || cmd.FetchNewer?) ==>
          var d := if cmd.Fetch? then s[cmd.area].data else Visible(s[cmd.area]);
          cmd.at + cmd.size <= |d| && r.bytes == d[cmd.at..cmd.at + cmd.size])
  }

  // How a write of an open transaction is accounted for in its tracker, which held bits and now holds
  // more: it goes through exactly when no unit it reaches was marked, and then marks them all; a refused one
  // has marked those before the first that was, which read as erased until the transaction ends.
  ghost predicate WriteAccounted(g: Layout, at: nat, size: nat, newest: seq<byte>, staged: Staged,
                                 bits: seq<bv8>, more: seq<bv8>, o: Outcome) {
    var first, n := FirstUnit(g, g.area + at), ReachedUnits(g, g.area + at, size);
    && (o == Done <==> Tracker.NoneMarkedIn(bits, first, n))
    && MarkedUpTo(bits, first, n, more)
    && (o != Done ==> staged == Newest(SpoiledBy(g, bits, newest, first, n)))
  }

  // What becomes of the tracker of the area of cmd, whose content goes from x to y.
  ghost predicate Accounts(g: Layout, cmd: Command, x: Content, y: Content, bits: seq<bv8>, more: seq<bv8>,
                           o: Outcome) {
    match cmd
    case Write(_, at, _, size) =>
      if size > 0 && x.staged.Newest? then WriteAccounted(g, at, size, x.staged.data, y.staged, bits, more, o)
      else more == bits
    case Start(_) => if o == Done then Cleared(more, g.TrackerSize()) else more == bits
    case Commit(_) => if o == Done then more == [] else more == bits
    case Abort(_) => more == []
    case _ => more == bits
  }

  // ---------------------------------------------------------------- runs

  // What the areas hold, and what the trackers of their transactions hold.
  datatype State = State(contents: seq<Content>, marks: seq<seq<bv8>>)

  // All areas hold, and stage, as much data as their layouts say.
  ghost predicate Sized(layouts: seq<Layout>, s: seq<Content>) {
    && |s| == |layouts|
    && forall j :: 0 <= j < |s| ==> |s[j].data| == |Visible(s[j])| == layouts[j].dataSize
  }

  // The step from x to y that cmd takes when it comes back with r.
  ghost predicate StepOf(layouts: seq<Layout>, rom: seq<byte>, x: State, cmd: Command, r: Reply, y: State) {
    && Explains(rom, x.contents, cmd, r.outcome, y.contents) && Delivers(x.contents, cmd, r)
    && cmd.area < |layouts| == |x.contents| == |x.marks| == |y.marks|
    && if r.outcome == PowerCut then forall j :: 0 <= j < |y.marks| ==> y.marks[j] == []
       else
         && y.marks == x.marks[cmd.area := y.marks[cmd.area]]
         && Accounts(layouts[cmd.area], cmd, x.contents[cmd.area], y.contents[cmd.area], x.marks[cmd.area],
                     y.marks[cmd.area], r.outcome)
  }

  // A run: the states before and after each command, and what each command came back with.
  ghost predicate Run(layouts: seq<Layout>, rom: seq<byte>, cmds: seq<Command>, replies: seq<Reply>,
                      states: seq<State>) {
    && |replies| == |cmds| && |states| == |cmds| + 1
    && forall k :: 0 <= k < |cmds| ==> StepOf(layouts, rom, states[k], cmds[k], replies[k], states[k + 1])
  }

  // How many commands a power cut ended.
  function Cuts(replies: seq<Reply>): nat {
    if replies == [] then 0
    else Cuts(replies[..|replies| - 1]) + if replies[|replies| - 1].outcome == PowerCut then 1 else 0
  }

  // The state after a reset.
  function Initial(s: seq<Content>): State {
    State(AllSettled(s), seq(|s|, _ => []))
  }
}
