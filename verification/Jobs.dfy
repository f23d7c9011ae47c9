/** Any number of updates of one area, one after the other. */
module Jobs {
  import opened Areas
  import opened Batch
  import opened Bytes
  import opened Contents
  import opened Flash
  import opened Ftl
  import opened Geometry
  import opened Operations
  import opened Overlay
  import Registry
  import opened Ring
  import Transactions
  import opened Updates
  import opened Wear

  // A basic write, an erase of everything, or a whole transaction.
  datatype Job = Put(patch: Patch) | Clear | Together(patches: seq<Patch>)

  // The library has nothing to object to.
  ghost predicate Runnable(g: Layout, job: Job) {
    match job
    case Put(p) => Inside(p, g.dataSize) && p.bytes != []
    case Clear => true
    case Together(ps) => AllInside(ps, g.dataSize) && UnitsApart(g, ps)
  }

  function Result(d: seq<byte>, job: Job): (r: seq<byte>)
    ensures |r| == |d|
  {
    match job
    case Put(p) => if Inside(p, |d|) then Splice(d, p.at, p.bytes) else d
    case Clear => Repeat(ERASED, |d|)
    case Together(ps) => if AllInside(ps, |d|) then Overlaid(d, ps) else d
  }

  // What an area that held x holds after the first k jobs.
  ghost function AfterJobs(x: Content, jobs: seq<Job>, k: nat): (y: Content)
    requires k <= |jobs| && x.staged.NoTransaction?
    ensures y.version == x.version + k && |y.data| == |x.data| && y.staged.NoTransaction?
  {
    if k == 0 then x
    else var y := AfterJobs(x, jobs, k - 1); OneUpdateOn(y, Result(y.data, jobs[k - 1]))
  }

  // write_core accepts a write of p from RAM outside transactions.
  lemma PutCheck(areas: seq<Area>, g: Layout, p: Patch)
    requires g.Valid() && Inside(p, g.dataSize)
    ensures WriteCheck(areas, g, false, g.area + p.at, Ram(p.bytes, 0), |p.bytes|, false, false) == Done
  {
    hide Layout.SlotSize, AlignedSize;
    var w := g.nvm.writeSize;
    var dst, size := g.area + p.at, |p.bytes|;
    AlignedSizeFacts(g, dst, size);
    Transactions.SameFirstUnit(g, dst);
    var at := dst - dst % w - g.area;
    AlignedOffset(g, dst, at);
    AlignedFits(at, AlignedSize(g, dst, size), p.at + size, g.dataSize, w);
  }

  lemma PutResult(areas: seq<Area>, g: Layout, s: seq<Content>, m: seq<byte>, i: nat, p: Patch)
    requires i < |s| && Inside(p, |s[i].data|)
    ensures WrittenTo(g, s[i].data, g.area + p.at, SourceContent(areas, s, m, Ram(p.bytes, 0), |p.bytes|))
              == Result(s[i].data, Put(p))
  {
    assert p.bytes[0..|p.bytes|] == p.bytes;
  }

  method RunJob(lib: Registry.Library, ctx: Area, job: Job, ghost i: nat, ghost s: seq<Content>) returns (o: Outcome)
    requires Valid(lib) && Holding(lib, s) && i < |lib.areas| && ctx == lib.areas[i] && ctx.copied == 0
    requires ctx.data.At? && ctx.tracker == null && Runnable(ctx.g, job)
    modifies lib.flash, lib.areas`data, ctx`tracker, ctx`copied
    ensures lib.flash.cuts == old(lib.flash.cuts) + if o == PowerCut then 1 else 0
    ensures o in {Done, PowerCut} && i < |s| && UpdateResult(lib, i, s, Result(s[i].data, job), o)
    ensures o == Done ==> ctx.data.At? && ctx.tracker == null && ctx.copied == 0
    ensures o == Done ==> Ready(ctx.g, old(lib.flash.chip)) && NextWorn(ctx.g, old(lib.flash.chip), lib.flash.chip)
  {
    hide Layout.SlotSize, Layout.Valid, Valid, Holding, Held, UpdateResult, NextWorn, Ready, WriteCheck,
         SourceContent, WrittenTo, UnitsApart, Overlaid, Splice, Current;
    HeldNow(lib, s);
    HeldData(lib, s, lib.flash.chip, i);
    ValidParts(lib);
    match job {
      case Put(p) =>
        PutCheck(lib.areas, ctx.g, p);
        PutResult(lib.areas, ctx.g, s, lib.flash.chip.mem, i, p);
        o := BasicWrite(lib, ctx, ctx.g.area + p.at, Ram(p.bytes, 0), |p.bytes|, i, s);
      case Clear =>
        o := EraseAll(lib, ctx, i, s);
      case Together(ps) =>
        var t := new bv8[ctx.g.TrackerSize()];
        o := RunTransaction(lib, ctx, t, ps, i, s);
    }
  }

  // A sequence of updates takes effect up to some point when the power fails, and in full otherwise; in
  // the second case it leaves the area as evenly worn as it was.
  method RunJobs(lib: Registry.Library, ctx: Area, jobs: seq<Job>, ghost i: nat, ghost s: seq<Content>, ghost w0: nat)
    returns (o: Outcome, ghost k: nat)
    requires Valid(lib) && Holding(lib, s) && i < |lib.areas| && ctx == lib.areas[i] && ctx.copied == 0
    requires ctx.data.At? && ctx.tracker == null && forall j :: 0 <= j < |jobs| ==> Runnable(ctx.g, jobs[j])
    requires i < |s| && s[i].staged.NoTransaction? && 1 <= s[i].version && s[i].version + |jobs| < MAX_VERSION
    requires EvenlyWorn(ctx.g, lib.flash.chip, w0, s[i].version - 1)
    modifies lib.flash, lib.areas`data, ctx`tracker, ctx`copied
    ensures lib.flash.cuts == old(lib.flash.cuts) + if o == PowerCut then 1 else 0
    ensures o in {Done, PowerCut} && k <= |jobs| && (o == Done ==> k == |jobs|)
    ensures o == Done ==> Valid(lib) && Holding(lib, s[i := AfterJobs(s[i], jobs, k)])
    ensures o == Done ==> EvenlyWorn(ctx.g, lib.flash.chip, w0, s[i].version - 1 + k)
    ensures o == PowerCut ==> Persists(lib, s[i := AfterJobs(s[i], jobs, k)])
  {
    hide Layout.SlotSize, Layout.Valid, Valid, Holding, Held, Persists, NextWorn, Ready, Runnable, Result,
         EvenlyWorn, Current;
    k := 0;
    var next := 0;
    assert s[i := s[i]] == s;
    while next < |jobs|
      invariant 0 <= next <= |jobs| && k == next
      invariant ctx.data.At? && ctx.tracker == null && ctx.copied == 0
      invariant Valid(lib) && Holding(lib, s[i := AfterJobs(s[i], jobs, k)])
      invariant EvenlyWorn(ctx.g, lib.flash.chip, w0, s[i].version - 1 + k)
      invariant lib.flash.cuts == old(lib.flash.cuts)
    {
      ghost var x := s[i := AfterJobs(s[i], jobs, k)];
      ghost var c := lib.flash.chip;
      HeldNow(lib, x);
      HeldData(lib, x, c, i);
      o := RunJob(lib, ctx, jobs[next], i, x);
      ghost var y := OneUpdateOn(x[i], Result(x[i].data, jobs[next]));
      assert x[i := y] == s[i := AfterJobs(s[i], jobs, k + 1)];
      if o == PowerCut {
        if !Persists(lib, x) {
          k := k + 1;
        }
        return;
      }
      HeldNow(lib, x[i := y]);
      HeldData(lib, x[i := y], lib.flash.chip, i);
      WearStep(ctx.g, c, lib.flash.chip, w0, s[i].version - 1 + k);
      next := next + 1;
      k := k + 1;
    }
    o := Done;
  }
}
