/** Searching for the current slot, interrupted and repeated. */
module Recovery {
  import opened Areas
  import Flash
  import opened Geometry
  import opened Ring
  import Sealing
  import opened Slots
  import Tearing
  import opened Updates

  // The record of the current slot has its second checksum.
  ghost predicate Complete(g: Layout, c: Flash.Chip) {
    && Ready(g, c)
    && var s := View(g, c.mem)[Current(View(g, c.mem))];
       s.checksum2 == s.checksum
  }

  // One search.
  method SearchOnce(a: Area) returns (o: Outcome)
    requires a.Sound() && Ready(a.g, a.flash.chip)
    modifies a.flash, a`data
    ensures a.flash.cuts == old(a.flash.cuts) + if o == PowerCut then 1 else 0
    ensures a.Sound() && o in {Done, PowerCut}
    ensures Same(a.g, old(a.flash.chip), a.flash.chip)
    ensures Ready(a.g, a.flash.chip) && Current(a.Slots()) == Current(old(a.Slots()))
    ensures a.data == At(a.g.SlotBase(Current(a.Slots())))
    ensures o == Done ==> Complete(a.g, a.flash.chip)
    ensures Complete(a.g, old(a.flash.chip)) ==> o == Done && a.flash.chip == old(a.flash.chip)
  {
    hide Layout.SlotSize, Layout.SlotCount, Layout.SlotBase, Layout.Valid, View, Bystander, Intact, Same,
         Sealing.Mended, SlotAt, Tearing.WholeWords;
    ghost var c := a.flash.chip;
    o := a.FindCurrentSlot();
    AfterSearch(a.g, c, a.flash.chip);
    ViewAt(a.g, a.flash.chip.mem, Current(a.Slots()));
  }

  // However often the search and its repair are cut short, every further search finds the same slot with
  // the same data; the first search the power does not fail in leaves nothing to be done to later ones.
  method SearchRepeatedly(a: Area, attempts: nat) returns (o: Outcome)
    requires a.Sound() && Ready(a.g, a.flash.chip) && attempts > 0
    modifies a.flash, a`data
    ensures if o == PowerCut then a.flash.cuts == old(a.flash.cuts) + attempts
            else old(a.flash.cuts) <= a.flash.cuts < old(a.flash.cuts) + attempts
    ensures a.Sound() && o in {Done, PowerCut}
    ensures Same(a.g, old(a.flash.chip), a.flash.chip)
    ensures Ready(a.g, a.flash.chip) && Current(a.Slots()) == Current(old(a.Slots()))
    ensures a.data == At(a.g.SlotBase(Current(a.Slots())))
    ensures o == Done ==> Complete(a.g, a.flash.chip)
  {
    hide Layout.SlotSize, Layout.SlotCount, Layout.SlotBase, Layout.Valid, View, Bystander, Intact, Same,
         Sealing.Mended, SlotAt, Tearing.WholeWords, Complete;
    ghost var c := a.flash.chip;
    SameRefl(a.g, c);
    o := SearchOnce(a);
    var k := 1;
    while k < attempts && o == PowerCut
      invariant 1 <= k <= attempts
      invariant a.flash.cuts == old(a.flash.cuts) + if o == PowerCut then k else k - 1
      invariant a.Sound() && Ready(a.g, a.flash.chip) && o in {Done, PowerCut}
      invariant Same(a.g, c, a.flash.chip) && Current(a.Slots()) == Current(View(a.g, c.mem))
      invariant a.data == At(a.g.SlotBase(Current(a.Slots())))
      invariant o == Done ==> Complete(a.g, a.flash.chip)
    {
      ghost var d := a.flash.chip;
      o := SearchOnce(a);
      SameTrans(a.g, c, d, a.flash.chip);
      k := k + 1;
    }
  }
}
