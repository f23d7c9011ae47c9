/** Where an area keeps its slots, and where a slot keeps its data and its meta items. */
module Geometry {
  import opened Arithmetic

  // lftl_nvm_props_t
  datatype NvmProps = NvmProps(base: nat, size: nat, writeSize: nat, eraseSize: nat)

  // The constant fields of lftl_ctx_t.
  datatype Layout = Layout(nvm: NvmProps, area: nat, areaSize: nat, dataSize: nat) {

    // The write unit is 1, 2 or a multiple of 4 up to 16 bytes; pages, data and the area itself are
    // made of whole write units; the area lies in the NVM and has room for at least two slots.
    predicate Valid() {
      && 1 <= nvm.writeSize <= 16
      && (4 % nvm.writeSize == 0 || nvm.writeSize % 4 == 0)
      && 1 <= nvm.eraseSize
      && 1 <= dataSize
      && nvm.eraseSize % nvm.writeSize == 0
      && area % nvm.writeSize == 0
      && dataSize % nvm.writeSize == 0
      && nvm.base <= area
      && area + areaSize <= nvm.base + nvm.size
      && 2 * SlotSize() <= areaSize
    }

    function ItemSize(): (n: nat)
      ensures n >= 4
    {
      if nvm.writeSize > 4 then nvm.writeSize else 4
    }

    function MetaSize(): nat {
      3 * ItemSize()
    }

    function PagesInSlot(): nat {
      if nvm.eraseSize == 0 then 0
      else (dataSize + MetaSize() + nvm.eraseSize - 1) / nvm.eraseSize
    }

    function SlotSize(): nat {
      PagesInSlot() * nvm.eraseSize
    }

    function SlotCount(): nat {
      if SlotSize() == 0 then 0 else areaSize / SlotSize()
    }

    function SlotBase(i: nat): nat {
      area + i * SlotSize()
    }

    function MetaOffset(): int {
      SlotSize() - MetaSize()
    }

    function Pages(): nat {
      if nvm.eraseSize == 0 then 0 else areaSize / nvm.eraseSize
    }

    // LFTL_TRANSACTION_TRACKER_SIZE
    function TrackerSize(): nat {
      if nvm.writeSize == 0 then 0
      else ((dataSize + nvm.writeSize - 1) / nvm.writeSize + 7) / 8
    }

    function Units(): nat {
      if nvm.writeSize == 0 then 0 else dataSize / nvm.writeSize
    }

    function SlotIndex(data: nat): int {
      if SlotSize() == 0 then 0 else (data - area) / SlotSize()
    }

    // next_slot: wrap to 0 unless there is room for one more slot after the one data points to.
    function NextSlot(data: nat): int {
      if data + 2 * SlotSize() > area + areaSize then 0 else SlotIndex(data) + 1
    }
  }

  // ---------------------------------------------------------------- the layout of an area

  // Every slot has room for the data followed by the meta items, which fill its tail.
  lemma SlotHoldsData(g: Layout)
    requires g.Valid()
    ensures g.dataSize + g.MetaSize() <= g.SlotSize()
    ensures g.dataSize <= g.MetaOffset()
  {
    var need := g.dataSize + g.MetaSize();
    DivBounds(need + g.nvm.eraseSize - 1, g.nvm.eraseSize);
  }

  // A meta item is the least whole number of write units with room for a word.
  lemma ItemIsLeast(g: Layout, n: nat)
    requires g.Valid()
    ensures g.ItemSize() >= 4 && g.ItemSize() % g.nvm.writeSize == 0
    ensures n >= 4 && n % g.nvm.writeSize == 0 ==> g.ItemSize() <= n
  {
    var w := g.nvm.writeSize;
    if w > 4 {
      ModUnique(w, w, 1, 0);
      if n < w {
        ModUnique(n, w, 0, n);
      }
    }
  }

  // A slot is made of whole pages, and has not one more than its data and three items need.
  lemma SlotIsLeast(g: Layout)
    requires g.nvm.eraseSize > 0 && g.dataSize > 0
    ensures g.SlotSize() == g.PagesInSlot() * g.nvm.eraseSize
    ensures g.SlotSize() - g.nvm.eraseSize < g.dataSize + 3 * g.ItemSize() <= g.SlotSize()
  {
    DivBounds(g.dataSize + g.MetaSize() + g.nvm.eraseSize - 1, g.nvm.eraseSize);
  }

  // The slots of an area lie one behind the other, from its first byte on.
  lemma SlotsAdjoin(g: Layout, i: nat)
    ensures g.SlotBase(0) == g.area && g.SlotBase(i + 1) == g.SlotBase(i) + g.SlotSize()
  {
    hide Layout.SlotSize;
    OneMore(i, g.SlotSize());
  }

  // Formatting goes over as many whole pages as the area holds.
  lemma PagesAreWhole(g: Layout)
    requires g.nvm.eraseSize > 0
    ensures g.Pages() * g.nvm.eraseSize == g.areaSize - g.areaSize % g.nvm.eraseSize
  {
    DivMod(g.areaSize, g.nvm.eraseSize);
  }

  // The tracker is as small as it can be with one bit for every write unit.
  lemma TrackerIsLeast(g: Layout)
    requires g.Valid()
    ensures g.Units() * g.nvm.writeSize == g.dataSize
    ensures 8 * (g.TrackerSize() - 1) < g.Units() <= 8 * g.TrackerSize()
    ensures g.TrackerSize() == (g.Units() + 7) / 8
  {
    hide Layout.SlotSize;
    var w := g.nvm.writeSize;
    DivMod(g.dataSize, w);
    DivUnique(g.dataSize + w - 1, w, g.dataSize / w);
  }

  lemma SlotCountBounds(g: Layout)
    requires g.Valid()
    ensures g.SlotCount() >= 2
    ensures g.SlotCount() * g.SlotSize() <= g.areaSize < (g.SlotCount() + 1) * g.SlotSize()
  {
    hide Layout.SlotSize;
    SlotHoldsData(g);
    DivBounds(g.areaSize, g.SlotSize());
    if g.SlotCount() < 2 {
      MulMonotone(g.SlotCount() + 1, 2, g.SlotSize());
    }
  }

  // Slots do not overlap and stay inside the area.
  lemma SlotInArea(g: Layout, i: nat)
    requires g.Valid() && i < g.SlotCount()
    ensures g.area <= g.SlotBase(i)
    ensures g.SlotBase(i) + g.SlotSize() <= g.area + g.areaSize
  {
    hide Layout.SlotSize, Layout.SlotCount, Layout.Valid;
    SlotCountBounds(g);
    OneMore(i, g.SlotSize());
    MulMonotone(i + 1, g.SlotCount(), g.SlotSize());
  }

  lemma SlotsApart(g: Layout, i: nat, j: nat)
    requires g.Valid() && i < j
    ensures g.SlotBase(i) + g.SlotSize() <= g.SlotBase(j)
  {
    hide Layout.SlotSize, Layout.Valid;
    OneMore(i, g.SlotSize());
    MulMonotone(i + 1, j, g.SlotSize());
  }

  lemma SlotIndexOfBase(g: Layout, i: nat)
    requires g.Valid()
    ensures g.SlotIndex(g.SlotBase(i)) == i
  {
    hide Layout.SlotSize;
    SlotHoldsData(g);
    DivUnique(i * g.SlotSize(), g.SlotSize(), i);
  }

  // next_slot goes round the ring, also when the area is not a whole number of slots.
  lemma NextSlotIsCyclic(g: Layout, i: nat)
    requires g.Valid() && i < g.SlotCount()
    ensures g.NextSlot(g.SlotBase(i)) == (i + 1) % g.SlotCount()
    ensures g.NextSlot(g.SlotBase(i)) == if i + 1 == g.SlotCount() then 0 else i + 1
  {
    hide Layout.SlotSize, Layout.SlotCount;
    SlotCountBounds(g);
    SlotIndexOfBase(g, i);
    var n, s := g.SlotCount(), g.SlotSize();
    assert g.SlotBase(i) + 2 * s == g.area + (i + 2) * s;
    if i + 1 == n {
      ModUnique(i + 1, n, 1, 0);
    } else {
      MulMonotone(i + 2, n, s);
      ModUnique(i + 1, n, 0, i + 1);
    }
  }

  // Slots, meta items and the end of the data all sit on write-unit boundaries.
  lemma SlotAligned(g: Layout, i: nat)
    requires g.Valid()
    ensures g.SlotBase(i) % g.nvm.writeSize == 0
    ensures g.ItemSize() % g.nvm.writeSize == 0
    ensures (g.SlotBase(i) + g.MetaOffset()) % g.nvm.writeSize == 0
    ensures (g.SlotBase(i) + g.MetaOffset() + 2 * g.ItemSize()) % g.nvm.writeSize == 0
    ensures (2 * g.ItemSize()) % g.nvm.writeSize == 0
  {
    var w := g.nvm.writeSize;
    ModMul(g.PagesInSlot(), g.nvm.eraseSize, w);
    AlignedFrom(g, i);
  }

  lemma AlignedFrom(g: Layout, i: nat)
    requires g.Valid()
    requires g.SlotSize() % g.nvm.writeSize == 0
    ensures g.SlotBase(i) % g.nvm.writeSize == 0
    ensures g.ItemSize() % g.nvm.writeSize == 0
    ensures (g.SlotBase(i) + g.MetaOffset()) % g.nvm.writeSize == 0
    ensures (g.SlotBase(i) + g.MetaOffset() + 2 * g.ItemSize()) % g.nvm.writeSize == 0
    ensures (2 * g.ItemSize()) % g.nvm.writeSize == 0
  {
    hide Layout.SlotSize;
    var w, s, t := g.nvm.writeSize, g.SlotSize(), g.ItemSize();
    ModMul(i, s, w);
    ModAdd(g.area, i * s, w);
    if w > 4 {
      ModUnique(w, w, 1, 0);
    }
    ModMul(2, t, w);
    ModMul(3, t, w);
    SlotHoldsData(g);
    ModAdd(3 * t, s - 3 * t, w);
    ModAdd(g.SlotBase(i), s - 3 * t, w);
    ModAdd(g.SlotBase(i) + s - 3 * t, 2 * t, w);
  }

  // ---------------------------------------------------------------- areas as they are declared

  // LFTL_DIV_CEIL
  function DivCeil(d: nat, q: nat): nat
    requires q > 0
  {
    (d + q - 1) / q
  }

  lemma DivCeilIsLeast(d: nat, q: nat)
    requires q > 0 && d > 0
    ensures (DivCeil(d, q) - 1) * q < d <= DivCeil(d, q) * q
  {
    DivBounds(d + q - 1, q);
    OneMore(DivCeil(d, q) - 1, q);
  }

  // LFTL_AREA with this wear levelling factor: the data and three write units, rounded up to pages, that
  // many times.
  predicate Declared(g: Layout, factor: nat) {
    && g.nvm.eraseSize > 0 && g.dataSize > 0
    && g.areaSize == DivCeil(g.dataSize + 3 * g.nvm.writeSize, g.nvm.eraseSize) * g.nvm.eraseSize * factor
  }

  // The area has as many slots as that factor if and only if three items need no more pages than three
  // write units do, as is the case for write units of at least 4 bytes; otherwise it has fewer.
  lemma DeclaredSlots(g: Layout, factor: nat)
    requires Declared(g, factor) && factor > 0
    ensures var pages := DivCeil(g.dataSize + 3 * g.nvm.writeSize, g.nvm.eraseSize);
            && (g.SlotCount() == factor <==> g.dataSize + 3 * g.ItemSize() <= pages * g.nvm.eraseSize)
            && g.SlotCount() <= factor
    ensures g.nvm.writeSize >= 4 ==> g.SlotCount() == factor
  {
    hide Layout.SlotSize;
    var e := g.nvm.eraseSize;
    var pages, p := DivCeil(g.dataSize + 3 * g.nvm.writeSize, e), g.PagesInSlot();
    SlotIsLeast(g);
    DivCeilIsLeast(g.dataSize + 3 * g.nvm.writeSize, e);
    FewerPages(g, e, pages, p);
    var need := pages * e;
    assert g.areaSize == factor * need;
    assert need <= g.SlotSize();
    if need == g.SlotSize() {
      DivUnique(factor * need, need, factor);
    } else {
      DivBounds(g.areaSize, g.SlotSize());
      if g.SlotCount() >= factor {
        MulMonotone(factor, g.SlotCount(), g.SlotSize());
        MulLess(factor, need, g.SlotSize());
      }
    }
  }

  // With pages, data and base made of write units of 1, 2, 4, 8, 12 or 16 bytes such an area is one the model
  // covers, if it has two slots; with write units of at least 4 bytes and a factor of at least 2 it has.
  lemma DeclaredIsValid(g: Layout, factor: nat)
    requires Declared(g, factor) && g.nvm.writeSize in {1, 2, 4, 8, 12, 16}
    requires g.nvm.eraseSize % g.nvm.writeSize == 0 && g.dataSize % g.nvm.writeSize == 0
    requires g.area % g.nvm.writeSize == 0
    requires g.nvm.base <= g.area && g.area + g.areaSize <= g.nvm.base + g.nvm.size
    ensures g.Valid() <==> g.SlotCount() >= 2
    ensures g.nvm.writeSize >= 4 && factor >= 2 ==> g.Valid()
  {
    hide Layout.SlotSize;
    SlotIsLeast(g);
    DivBounds(g.areaSize, g.SlotSize());
    if g.SlotCount() >= 2 {
      MulMonotone(2, g.SlotCount(), g.SlotSize());
    } else {
      MulMonotone(g.SlotCount() + 1, 2, g.SlotSize());
    }
    if factor > 0 {
      DeclaredSlots(g, factor);
    }
  }

  lemma MulLess(n: nat, a: nat, b: nat)
    requires n > 0 && a < b
    ensures n * a < n * b
  {
  }

  lemma FewerPages(g: Layout, e: nat, pages: nat, p: nat)
    requires e == g.nvm.eraseSize > 0 && p == g.PagesInSlot() && g.dataSize > 0
    requires (pages - 1) * e < g.dataSize + 3 * g.nvm.writeSize <= pages * e
    ensures pages * e <= p * e
    ensures g.dataSize + 3 * g.ItemSize() <= pages * e <==> pages * e == p * e
    ensures g.nvm.writeSize >= 4 ==> pages * e == p * e
  {
    hide Layout.PagesInSlot;
    SlotIsLeast(g);
    if pages > p {
      MulMonotone(p, pages - 1, e);
    } else {
      MulMonotone(pages, p, e);
    }
    if pages < p {
      MulMonotone(pages, p - 1, e);
      OneMore(p - 1, e);
    }
  }

  lemma ItemSizes(g: Layout)
    requires g.Valid()
    ensures g.ItemSize() in {4, 8, 12, 16}
  {
  }
}
