/** Whole runs of one area, power cuts and searches included. */
module Histories {
  import opened Bytes
  import opened Flash
  import opened Geometry
  import opened Ring
  import opened Sealing
  import opened Slots
  import Tearing
  import opened Updates

  // What can happen to the memory: an update of the area completes or is cut short; its next slot is
  // opened or written by a transaction, completely or not; its current slot is searched for and its
  // record repaired, completely or not; or something happens outside the area.
  datatype Event = Update(data: seq<byte>) | Cut(data: seq<byte>) | Stage | Repair | Elsewhere(lo: nat, hi: nat)

  ghost predicate StepOk(g: Layout, c: Chip, e: Event, d: Chip)
    requires Ready(g, c)
  {
    match e
    case Update(data) => |data| == g.dataSize && UpdatedTo(g, c, d, data)
    case Cut(data) => |data| == g.dataSize && UpdateCut(g, c, d, data)
    case Stage => Tearing.OpenedUp(g, c, d, Next(View(g, c.mem)))
    case Repair => d == c || Mended(g, c, d, Current(View(g, c.mem)))
    case Elsewhere(lo, hi) => SameOutside(c, d, lo, hi) && (hi <= g.area || g.area + g.areaSize <= lo)
  }

  // chips are the memory before and after each of the events.
  ghost predicate Legal(g: Layout, chips: seq<Chip>, events: seq<Event>) {
    && |chips| == |events| + 1
    && Ready(g, chips[0])
    && forall k :: 0 <= k < |events| && Ready(g, chips[k]) ==> StepOk(g, chips[k], events[k], chips[k + 1])
  }

  // The data of some update of the run, and no later update completed.
  ghost predicate IsLatest(events: seq<Event>, k: int, data: seq<byte>) {
    && 0 <= k < |events|
    && (events[k] == Update(data) || events[k] == Cut(data))
    && forall j :: k < j < |events| ==> !events[j].Update?
  }

  // What an area may hold after a run that began with data d0: the data of the last completed update,
  // or of an interrupted one after it.
  ghost predicate MayHold(d0: seq<byte>, events: seq<Event>, data: seq<byte>) {
    || (data == d0 && forall j :: 0 <= j < |events| ==> !events[j].Update?)
    || exists k :: IsLatest(events, k, data)
  }

  function Completed(events: seq<Event>): nat {
    if events == [] then 0
    else Completed(events[..|events| - 1]) + if events[|events| - 1].Update? then 1 else 0
  }

  function Begun(events: seq<Event>): nat {
    if events == [] then 0
    else Begun(events[..|events| - 1]) + if events[|events| - 1].Update? || events[|events| - 1].Cut? then 1 else 0
  }

  // The area can be recovered from c at this version, to the last of the data in past, and still holds
  // the ones before it, as far back as it has slots to spare.
  ghost predicate Recovers(g: Layout, c: Chip, past: seq<seq<byte>>, version: nat) {
    Ready(g, c) && Retains(View(g, c.mem), past) && Version(View(g, c.mem)) == version
  }

  lemma RecoversNow(g: Layout, c: Chip)
    requires Ready(g, c)
    ensures var v := View(g, c.mem); Recovers(g, c, [Committed(v)], Version(v))
  {
    hide View, Bystander, Intact;
    RetainsNow(View(g, c.mem));
  }

  lemma RecoversLast(g: Layout, c: Chip, past: seq<seq<byte>>, version: nat)
    requires Recovers(g, c, past, version)
    ensures Ready(g, c) && past != [] && Committed(View(g, c.mem)) == past[|past| - 1]
    ensures Version(View(g, c.mem)) == version
  {
    hide View, Bystander, Intact;
    var v := View(g, c.mem);
    assert Back(Current(v), 0, |v|) == Current(v);
  }

  // No event touches the records of any slot but the next one.
  lemma OnlyNextChanges(g: Layout, c: Chip, e: Event, d: Chip)
    requires Ready(g, c) && StepOk(g, c, e, d)
    ensures Holds(g, d) && OthersSame(View(g, c.mem), View(g, d.mem), Next(View(g, c.mem)))
  {
    hide Layout.SlotSize, Layout.SlotCount, Layout.SlotBase, Layout.Valid, View, SlotAt, Bystander, Intact,
         Interrupted, Opened, SameOutside, Record;
    var v := View(g, c.mem);
    match e {
      case Update(data) =>
        SameOutsideHolds(g, c, d, g.SlotBase(Next(v)), g.SlotBase(Next(v)) + g.SlotSize());
      case Cut(data) =>
        SameOutsideHolds(g, c, d, g.SlotBase(Next(v)), g.SlotBase(Next(v)) + g.SlotSize());
        ViewAfter(g, c, d, Next(v));
      case Stage =>
        SameOutsideHolds(g, c, d, g.SlotBase(Next(v)), g.SlotBase(Next(v)) + g.SlotSize());
        ViewAfter(g, c, d, Next(v));
      case Repair =>
        if d != c {
          MendedView(g, c, d, Current(v));
        }
      case Elsewhere(lo, hi) =>
        SameOutsideHolds(g, c, d, lo, hi);
        ViewElsewhere(g, c, d, lo, hi);
    }
  }

  lemma MendedView(g: Layout, c: Chip, d: Chip, i: nat)
    requires Holds(g, c) && i < g.SlotCount() && Mended(g, c, d, i)
    ensures Holds(g, d)
    ensures forall n: nat :: n < g.SlotCount() ==> OthersSame(View(g, c.mem), View(g, d.mem), n)
  {
    hide Layout.SlotSize, Layout.SlotCount, Layout.SlotBase, Layout.Valid, View, SlotAt, SameOutside;
    SameOutsideHolds(g, c, d, MetaBase(g, i), g.SlotBase(i) + g.SlotSize());
    MetaInSlot(g, i);
    SameOutsideWider(c, d, MetaBase(g, i), g.SlotBase(i) + g.SlotSize(), g.SlotBase(i), g.SlotBase(i) + g.SlotSize());
    ViewAfter(g, c, d, i);
    ViewAt(g, c.mem, i);
  }

  lemma MetaInSlot(g: Layout, i: nat)
    requires g.Valid() && i < g.SlotCount()
    ensures g.SlotBase(i) <= MetaBase(g, i)
  {
    hide Layout.SlotSize, Layout.SlotCount, Layout.SlotBase;
    SlotPlace(g, i);
  }

  // One event: the area stays recoverable, and holds the old data or the new data.
  lemma OneEvent(g: Layout, c: Chip, e: Event, d: Chip, past: seq<seq<byte>>, v0: nat)
    returns (more: seq<seq<byte>>, version: nat)
    requires Recovers(g, c, past, v0) && StepOk(g, c, e, d) && v0 < MAX_VERSION
    ensures Recovers(g, d, more, version)
    ensures || (!e.Update? && more == past && version == v0)
            || ((e.Update? || e.Cut?) && more == past + [e.data] && version == v0 + 1)
  {
    hide Layout.SlotSize, Layout.SlotCount, Layout.SlotBase, Layout.Valid, View, Bystander, Intact, UpdatedTo,
         UpdateCut, Tearing.OpenedUp, Mended, SameOutside, Same, Retains, OthersSame;
    RecoversLast(g, c, past, v0);
    OnlyNextChanges(g, c, e, d);
    match e {
      case Update(data) => UpdatedIsReady(g, c, d, data);
      case Cut(data) => CutIsReady(g, c, d, data);
      case Stage => OpenedIsReady(g, c, d);
      case Repair =>
        if d != c {
          MendedIsSame(g, c, d);
          SameParts(g, c, d);
        }
      case Elsewhere(lo, hi) =>
        ElsewhereIsSame(g, c, d, lo, hi);
        SameParts(g, c, d);
    }
    var v, w := View(g, c.mem), View(g, d.mem);
    version := Version(w);
    more := if version == v0 then past else past + [Committed(w)];
    RetainStep(v, w, past);
  }

  lemma LegalPrefix(g: Layout, chips: seq<Chip>, events: seq<Event>)
    requires Legal(g, chips, events) && events != []
    ensures Legal(g, chips[..|events|], events[..|events| - 1])
  {
    hide Ready, StepOk;
    var n := |events| - 1;
    forall k | 0 <= k < n && Ready(g, chips[..|events|][k])
      ensures StepOk(g, chips[..|events|][k], events[..n][k], chips[..|events|][k + 1])
    {
      assert chips[..|events|][k] == chips[k];
    }
  }

  lemma HoldsAfter(d0: seq<byte>, events: seq<Event>, before: seq<byte>, data: seq<byte>)
    requires events != [] && MayHold(d0, events[..|events| - 1], before)
    requires var e := events[|events| - 1];
             (!e.Update? && data == before) || ((e.Update? || e.Cut?) && data == e.data)
    ensures MayHold(d0, events, data)
  {
    var n := |events| - 1;
    var e := events[n];
    if (e.Update? || e.Cut?) && data == e.data {
      assert IsLatest(events, n, data);
    } else if k :| IsLatest(events[..n], k, before) {
      assert forall j :: k < j < n ==> events[..n][j] == events[j];
      assert IsLatest(events, k, data);
    } else {
      assert forall j :: 0 <= j < n ==> events[..n][j] == events[j];
    }
  }

  // more lists the data of all completed updates of the run, in order, and of some of those cut short.
  ghost predicate Chosen(events: seq<Event>, more: seq<seq<byte>>)
    decreases |events|
  {
    if events == [] then more == []
    else
      var n, m := |events| - 1, |more| - 1;
      var taken := (events[n].Update? || events[n].Cut?) && m >= 0 && more[m] == events[n].data
                   && Chosen(events[..n], more[..m]);
      taken || (!events[n].Update? && Chosen(events[..n], more))
  }

  function Last(s: seq<seq<byte>>): seq<byte> {
    if s == [] then [] else s[|s| - 1]
  }

  lemma LastAdded(s: seq<seq<byte>>, d: seq<byte>)
    ensures Last(s + [d]) == d
  {
  }

  // In every run from a recoverable state, however often the power fails and whatever it leaves
  // behind, every state is recoverable and holds old or new data in full; and the data before it are
  // intact too, as far back as the area has slots to spare. The one limit is the version budget, of
  // which every completed or interrupted update uses up at most one.
  lemma {:induction false} RunsAreSafe(g: Layout, chips: seq<Chip>, events: seq<Event>, past: seq<seq<byte>>, v0: nat)
    returns (more: seq<seq<byte>>)
    requires Legal(g, chips, events) && Recovers(g, chips[0], past, v0) && past != []
    requires v0 + Begun(events) < MAX_VERSION
    ensures forall k :: 0 <= k < |chips| ==> Ready(g, chips[k])
    ensures Chosen(events, more) && Completed(events) <= |more| <= Begun(events)
    ensures Recovers(g, chips[|events|], past + more, v0 + |more|)
    ensures MayHold(Last(past), events, Last(past + more))
    decreases |events|
  {
    hide Layout.Valid, Ready, StepOk, MayHold, Recovers, Last;
    if events == [] {
      NothingYet(Last(past));
      RecoversLast(g, chips[0], past, v0);
      assert past + [] == past;
      return [];
    }
    var n := |events| - 1;
    LegalPrefix(g, chips, events);
    var before := RunsAreSafe(g, chips[..n + 1], events[..n], past, v0);
    assert forall k :: 0 <= k <= n ==> chips[..n + 1][k] == chips[k];
    assert Ready(g, chips[n]);
    var all, version := OneEvent(g, chips[n], events[n], chips[n + 1], past + before, v0 + |before|);
    RecoversLast(g, chips[n + 1], all, version);
    if all != past + before {
      LastAdded(past + before, events[n].data);
    }
    HoldsAfter(Last(past), events, Last(past + before), Last(all));
    more := all[|past|..];
    assert all == past + more;
    assert version == v0 + |before| + 1 ==> more[..|more| - 1] == before;
    assert version == v0 + |before| ==> more == before;
  }

  lemma NothingYet(d0: seq<byte>)
    ensures MayHold(d0, [], d0)
  {
  }

  // An update that completed is what the area holds as long as no later one begins.
  lemma UpdatesLast(d0: seq<byte>, events: seq<Event>, k: nat, data: seq<byte>)
    requires k < |events| && events[k].Update? && MayHold(d0, events, data)
    requires forall j :: k < j < |events| ==> !events[j].Update? && !events[j].Cut?
    ensures data == events[k].data
  {
    if i :| IsLatest(events, i, data) {
      assert i == k;
    }
  }
}
