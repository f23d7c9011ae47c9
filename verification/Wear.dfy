/** Wear levelling: how often each slot of an area has been erased. */
module Wear {
  import opened Arithmetic
  import Bytes
  import opened Flash
  import opened Formatting
  import opened Geometry
  import opened Ring
  import opened Slots
  import opened Updates

  // How many of the numbers 1 to m leave remainder i modulo n.
  function Hits(i: nat, m: nat, n: nat): nat
    requires n > 0
  {
    if m == 0 then 0 else Hits(i, m - 1, n) + if m % n == i then 1 else 0
  }

  lemma {:induction false} HitsAre(i: nat, m: nat, n: nat)
    requires i < n
    ensures Hits(i, m, n) == m / n + if 1 <= i <= m % n then 1 else 0
  {
    if m > 0 {
      HitsAre(i, m - 1, n);
      CountOn(m - 1, n);
    } else {
      ModUnique(0, n, 0, 0);
    }
  }

  lemma CountOn(m: nat, n: nat)
    requires n > 0
    ensures (m + 1) / n == if m % n + 1 == n then m / n + 1 else m / n
    ensures (m + 1) % n == if m % n + 1 == n then 0 else m % n + 1
  {
    var q, r := m / n, m % n;
    assert m + 1 == q * n + r + 1;
    if r + 1 == n {
      ModUnique(m + 1, n, q + 1, 0);
    } else {
      ModUnique(m + 1, n, q, r + 1);
    }
  }

  predicate InSlot(g: Layout, i: nat, k: int) {
    g.SlotBase(i) <= k < g.SlotBase(i) + g.SlotSize()
  }

  // After m updates of an area whose slots had all been erased w0 times.
  ghost predicate EvenlyWorn(g: Layout, c: Chip, w0: nat, m: nat) {
    && Holds(g, c)
    && forall i: nat, k: nat :: i < g.SlotCount() && InSlot(g, i, k) && k < |c.wear| ==>
         c.wear[k] == w0 + Hits(i, m, g.SlotCount())
  }

  // No slot has been erased more than once more than any other.
  lemma WearSpread(g: Layout, c: Chip, w0: nat, m: nat, i: nat, k: nat, j: nat, l: nat)
    requires EvenlyWorn(g, c, w0, m) && i < g.SlotCount() && j < g.SlotCount()
    requires InSlot(g, i, k) && InSlot(g, j, l) && k < |c.wear| && l < |c.wear|
    ensures c.wear[k] <= c.wear[l] + 1
    ensures m % g.SlotCount() == 0 ==> c.wear[k] == c.wear[l]
  {
    hide Layout.SlotSize, Layout.SlotCount, Layout.SlotBase, Layout.Valid;
    HitsAre(i, m, g.SlotCount());
    HitsAre(j, m, g.SlotCount());
  }

  lemma InOneSlot(g: Layout, i: nat, j: nat, k: int)
    requires g.Valid() && InSlot(g, i, k) && InSlot(g, j, k)
    ensures i == j
  {
    hide Layout.SlotSize, Layout.SlotBase;
    if i < j {
      SlotsApart(g, i, j);
    } else if j < i {
      SlotsApart(g, j, i);
    }
  }

  // The slot an update erases is the one whose turn it is.
  lemma NextInTurn(g: Layout, c: Chip)
    requires Ready(g, c)
    ensures var v := View(g, c.mem);
            Version(v) >= 1 && |v| == g.SlotCount() && Version(v) % g.SlotCount() == Next(v)
  {
    hide Layout.SlotSize, Layout.SlotCount, View, Bystander, Intact;
    var v := View(g, c.mem);
    NextResidue(Version(v), |v|);
  }

  // One more erase of the next slot, as every update makes it, keeps the wear even.
  lemma WearStep(g: Layout, c: Chip, d: Chip, w0: nat, m: nat)
    requires Ready(g, c) && Ready(g, d) && EvenlyWorn(g, c, w0, m) && m + 1 == Version(View(g, c.mem))
    requires NextWorn(g, c, d)
    ensures EvenlyWorn(g, d, w0, m + 1)
  {
    hide Layout.SlotSize, Layout.SlotCount, Layout.SlotBase, Layout.Valid, View, Bystander, Intact;
    var v := View(g, c.mem);
    NextInTurn(g, c);
    forall i: nat, k: nat | i < g.SlotCount() && InSlot(g, i, k) && k < |d.wear|
      ensures d.wear[k] == w0 + Hits(i, m + 1, g.SlotCount())
    {
      SlotPlace(g, i);
      if InSlot(g, Next(v), k) {
        InOneSlot(g, i, Next(v), k);
      }
    }
  }

  // Formatting an area worn evenly leaves it worn evenly.
  lemma FormatWear(g: Layout, c: Chip, w: nat)
    requires Holds(g, c)
    requires forall k :: g.area <= k < g.area + g.areaSize && k < |c.wear| ==> c.wear[k] == w
    ensures EvenlyWorn(g, FormattedChip(g, c), w + 1, 0)
  {
    hide Layout.SlotSize, Layout.SlotCount, Layout.SlotBase, Bytes.Splice, SlotAt, Checksum, MetaImage;
    SlotCountBounds(g);
    var d := FormattedChip(g, c);
    forall i: nat, k: nat | i < g.SlotCount() && InSlot(g, i, k) && k < |d.wear|
      ensures d.wear[k] == w + 1
    {
      SlotPlace(g, i);
      PagesCoverSlots(g, i);
    }
  }
}
