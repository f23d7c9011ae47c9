/** Where the guarantees end: inputs for which the code does not do what it is for. */
module Limits {
  import opened Areas
  import opened Arithmetic
  import opened Bytes
  import opened Crc
  import Detection
  import opened Geometry
  import opened MetaItems
  import opened Ring

  // ---------------------------------------------------------------- the version budget

  const FORGED: seq<byte> := [0xDE, 0x74, 0x43]

  lemma ShiftTimesEight(x: bv32)
    ensures Shifts(x, 8) == Shift(Shift(Shift(Shift(Shift(Shift(Shift(Shift(x))))))))
  {
    hide Shift;
    assert Shifts(x, 1) == Shift(Shifts(x, 0));
    assert Shifts(x, 2) == Shift(Shifts(x, 1));
    assert Shifts(x, 3) == Shift(Shifts(x, 2));
    assert Shifts(x, 4) == Shift(Shifts(x, 3));
    assert Shifts(x, 5) == Shift(Shifts(x, 4));
    assert Shifts(x, 6) == Shift(Shifts(x, 5));
    assert Shifts(x, 7) == Shift(Shifts(x, 6));
  }

  lemma ForgedSteps()
    ensures Absorb(0xFFFF_FFFF, 0xDE) == 0x03A2_9A0B
    ensures Absorb(0x03A2_9A0B, 0x74) == 0x06FB_C72B
    ensures Absorb(0x06FB_C72B, 0x43) == 0x07FF_FFFF
  {
    hide Shifts;
    ShiftTimesEight(0xFFFF_FF21);
    ShiftTimesEight(0x03A2_9A7F);
    ShiftTimesEight(0x06FB_C768);
    assert Widen(0xDE) == 0xDE && Widen(0x74) == 0x74 && Widen(0x43) == 0x43;
    assert 0xFFFF_FFFF as bv32 ^ 0xDE == 0xFFFF_FF21;
    assert 0x03A2_9A0B as bv32 ^ 0x74 == 0x03A2_9A7F;
    assert 0x06FB_C72B as bv32 ^ 0x43 == 0x06FB_C768;
  }

  // A block with the greatest checksum there is.
  lemma ForgedSum()
    ensures Sum(FORGED) == 0x07FF_FFFF
  {
    hide Absorb;
    ForgedSteps();
    assert FORGED[..2] == [0xDE, 0x74] && [0xDE as byte, 0x74][..1] == [0xDE] && [0xDE as byte][..0] == [];
    assert Fold(0xFFFF_FFFF, [0xDE]) == Absorb(0xFFFF_FFFF, 0xDE);
    assert Fold(0xFFFF_FFFF, [0xDE, 0x74]) == Absorb(Fold(0xFFFF_FFFF, [0xDE]), 0x74);
    assert Fold(0xFFFF_FFFF, FORGED) == 0x07FF_FFFF;
    LargestNumber();
  }

  lemma LargestNumber()
    ensures Number(0x07FF_FFFF) == 0x07FF_FFFF
  {
    assert Low(0x07FF_FFFF) == 0xFF;
    assert Low(0x0007_FFFF) == 0xFF;
    assert Low(0x0000_07FF) == 0xFF;
    assert Low(0x0000_0007) == 0x07;
  }

  // An update cut short at MAX_VERSION, then another one cut short while it erases, can make the search
  // settle on data that is neither the old nor the new data of any update. So the version budget of the
  // guarantees cannot be any larger.
  lemma BeyondTheBudget(before: seq<byte>, after: seq<byte>)
    returns (slots: seq<Slot>, s: Slot, t: Slot)
    requires |before| == |after| == 3 && after != FORGED && before != FORGED
    ensures RingOk(slots) && Version(slots) == MAX_VERSION && Committed(slots) == before
    ensures Interrupted(slots[Next(slots)], s, after, Version(slots) + 1)
    ensures var r := slots[Next(slots) := s];
            Current(r) == Current(slots) && Opened(r[Next(slots)], t)
    ensures var r := slots[Next(slots) := s][Next(slots) := t];
            Current(r) == Next(slots) && Committed(r) == FORGED
  {
    hide Sum;
    s := Slot(after, MAX_VERSION + 1, ERASED_WORD, ERASED_WORD);
    t := Slot(FORGED, MAX_VERSION + 1, ERASED_WORD, ERASED_WORD);
    var c := Record(before, MAX_VERSION);
    slots := [c, Slot(before, ERASED_WORD, ERASED_WORD, ERASED_WORD)];
    RingSearch(slots, 0);
    ForgedSum();
    ErasedChecksumPasses(s);
    ErasedChecksumPasses(t);
    Detection.ThreeByteChange([], after, FORGED, []);
    assert [] + after + [] == after && [] + FORGED + [] == FORGED;
    TwoSlots(c, s);
    TwoSlots(c, t);
    assert slots[1 := s] == [c, s] && slots[1 := s][1 := t] == [c, t];
  }

  // The search over two slots, of which the first is intact and the second claims to be newer.
  lemma TwoSlots(c: Slot, s: Slot)
    requires Live(c) && Intact(c) && 1 <= c.version < s.version < ERASED_WORD
    ensures Current([c, s]) == if Intact(s) then 1 else 0
  {
    hide Intact;
    assert Scan([c, s], 0) == Best(-1, 0);
    assert Scan([c, s], 1) == Best(0, c.version);
  }

  // ---------------------------------------------------------------- the last version

  // The new data of an update is found again exactly when the new version is not the erased word; past
  // that an update that completed is lost with the next reset.
  lemma FoundAgain(slots: seq<Slot>, data: seq<byte>)
    requires RingOk(slots) && |data| == |Committed(slots)|
    ensures Current(Updated(slots, data)) == Next(slots) <==> Version(slots) + 1 < ERASED_WORD
    ensures Version(slots) + 1 == ERASED_WORD ==> Current(Updated(slots, data)) == Current(slots)
  {
    hide Checksum, Intact;
    if Version(slots) + 1 < ERASED_WORD {
      UpdateStep(slots, data);
    } else {
      var s := Record(data, ERASED_WORD);
      assert Updated(slots, data) == slots[Next(slots) := s];
      OpenStep(slots, s);
      assert Next(slots) != Current(slots);
    }
  }

  // ---------------------------------------------------------------- other erased words

  // w is what slots would read as if erased words read as e, not 0xFFFFFFFF: a slot without a version has
  // version e, and its record does not fit its data.
  ghost predicate ErasedAs(slots: seq<Slot>, w: seq<Slot>, e: nat) {
    && |w| == |slots| && e != ERASED_WORD
    && forall i :: 0 <= i < |slots| ==>
         if Live(slots[i]) then w[i] == slots[i] else w[i].version == e && (e == 0 || !Intact(w[i]))
  }

  // A record of erased words fits the data if and only if the data has checksum 0.
  lemma ErasedRecordFits(s: Slot)
    requires s.data != [] && s.version == s.checksum < WORD_LIMIT
    ensures Intact(s) <==> Sum(s.data) == 0
  {
    hide Sum;
    SumBound(s.data);
  }

  // Some slot before slot k without a version comes when the greatest version so far is e.
  ghost predicate Meets(slots: seq<Slot>, e: nat, k: nat)
    requires k <= |slots|
  {
    exists i :: 0 <= i < k && !Live(slots[i]) && MaxBefore(slots, i) == e
  }

  lemma {:induction false} ScanErasedAs(slots: seq<Slot>, w: seq<Slot>, e: nat, k: nat)
    requires ErasedAs(slots, w, e) && k <= |slots| && Scan(slots, k).Best?
    ensures Scan(w, k) == if Meets(slots, e, k) then Collision else Scan(slots, k)
  {
    hide Intact;
    if k > 0 {
      ScanErasedAs(slots, w, e, k - 1);
      SearchErrors(slots, k - 1);
      assert Meets(slots, e, k) <==> Meets(slots, e, k - 1) || (!Live(slots[k - 1]) && MaxBefore(slots, k - 1) == e);
    }
  }

  // A slot of a ring that has no version comes after the current slot, or it is slot 0 and the next one.
  lemma WithoutVersion(slots: seq<Slot>, i: nat)
    requires RingOk(slots) && i < |slots| && !Live(slots[i])
    ensures i > Current(slots) || (i == 0 && Next(slots) == 0)
    ensures MaxBefore(slots, i) == if i > Current(slots) then Version(slots) else 0
  {
    hide Intact;
    var c := Current(slots);
    assert (slots[c].version - 1) % |slots| == c ==> slots[c].version > c;
    assert i != c && Bystander(slots, c, i);
    if i > c {
      NewestBefore(slots, c, i);
    }
  }

  lemma {:induction false} NewestBefore(slots: seq<Slot>, c: nat, i: nat)
    requires RingAt(slots, c) && c < i <= |slots|
    ensures MaxBefore(slots, i) == slots[c].version
  {
    hide Checksum;
    MaxBeforeIs(slots, i);
    MaxBeforeHas(slots, i, c);
    if j :| 0 <= j < i && Live(slots[j]) && Intact(slots[j]) && slots[j].version == MaxBefore(slots, i) && j != c {
      assert Bystander(slots, c, j);
      if slots[j].version == slots[c].version + 1 {
        HalfWrittenIsRejected(slots[j]);
      }
    }
  }

  lemma MaxBeforeHas(slots: seq<Slot>, i: nat, c: nat)
    requires c < i <= |slots| && Live(slots[c]) && Intact(slots[c])
    ensures slots[c].version <= MaxBefore(slots, i)
  {
    MaxBeforeIs(slots, i);
  }

  // With any other erased word the search over a ring settles on the slot it should, except in two cases,
  // in which it ends in a collision: the version has reached the erased word while a slot after the current
  // one is erased, or erased words are 0 and slot 0 is erased for the next update.
  lemma OtherErasedWord(slots: seq<Slot>, w: seq<Slot>, e: nat)
    requires RingOk(slots) && ErasedAs(slots, w, e)
    ensures var blocked := || (e == Version(slots) && exists i :: Current(slots) < i < |slots| && !Live(slots[i]))
                           || (e == 0 && !Live(slots[0]));
            if blocked then Scan(w, |w|) == Collision else Current(w) == Current(slots)
  {
    hide Intact, Live;
    var c := Current(slots);
    RingSearch(slots, c);
    ScanErasedAs(slots, w, e, |slots|);
    forall i | 0 <= i < |slots| && !Live(slots[i])
      ensures i > c || i == 0
      ensures MaxBefore(slots, i) == if i > c then Version(slots) else 0
    {
      WithoutVersion(slots, i);
    }
  }

  // Such a moment is one update away from any area of two slots that has been updated once.
  lemma ZeroIsReached(first: seq<Slot>, b: seq<byte>) returns (slots: seq<Slot>, w: seq<Slot>)
    requires Formatted(first) && |first| == 2 && |b| == |first[0].data|
    ensures RingOk(first) && slots == Updated(first, b) && RingOk(slots) && Next(slots) == 0
    ensures var blank := BlankSlot(|b|);
            Opened(slots[0], blank) && ErasedAs(slots[0 := blank], w, 0) && w[0] == Slot(Repeat(0, |b|), 0, 0, 0)
    ensures Scan(w, 2) == Collision
  {
    hide Checksum, Bystander;
    FormatStep(first);
    slots := Updated(first, b);
    UpdateStep(first, b);
    OpenStep(slots, BlankSlot(|b|));
    w := slots[0 := Slot(Repeat(0, |b|), 0, 0, 0)];
    OtherErasedWord(slots[0 := BlankSlot(|b|)], w, 0);
  }

  // ---------------------------------------------------------------- starting without a current slot

  // next_slot on addresses below w; it counts slots in 32 bits.
  function WrappedNextSlot(g: Layout, data: nat, w: nat): nat
    requires w > 0 && g.Valid() && g.area <= data
  {
    SlotHoldsData(g);
    if (data + 2 * g.SlotSize()) % w > g.area + g.areaSize then 0
    else ((data - g.area) / g.SlotSize() % WORD_LIMIT + 1) % WORD_LIMIT
  }

  // With data still invalid, all address bits set, next_slot names a slot of the area exactly if the number
  // of slots that fit between the area and the end of the address space happens to do so in its low bits.
  // On 32-bit addresses it never does: a transaction must not be started before the current slot is known.
  lemma UnresolvedNextSlot(g: Layout, w: nat)
    requires g.Valid() && g.area + g.areaSize < w
    ensures g.SlotSize() > 0
    ensures WrappedNextSlot(g, w - 1, w) == ((w - 1 - g.area) / g.SlotSize() + 1) % WORD_LIMIT
    ensures w <= WORD_LIMIT ==> WrappedNextSlot(g, w - 1, w) > g.SlotCount()
  {
    hide Layout.SlotSize;
    SlotHoldsData(g);
    var s := g.SlotSize();
    ModUnique(w - 1 + 2 * s, w, 1, 2 * s - 1);
    NextModulo((w - 1 - g.area) / s);
    if w <= WORD_LIMIT {
      FewSlots(g, w, s);
    }
  }

  lemma NextModulo(a: nat)
    ensures (a % WORD_LIMIT + 1) % WORD_LIMIT == (a + 1) % WORD_LIMIT
  {
  }

  lemma FewSlots(g: Layout, w: nat, s: nat)
    requires g.Valid() && g.area + g.areaSize < w <= WORD_LIMIT && s == g.SlotSize() && s >= 12
    ensures ((w - 1 - g.area) / s + 1) % WORD_LIMIT > g.SlotCount()
  {
    hide Layout.SlotSize, Layout.Valid;
    var q, r := g.areaSize / s, (w - 1 - g.area) / s;
    DivBounds(g.areaSize, s);
    DivBounds(w - 1 - g.area, s);
    assert q <= r by {
      if r < q {
        MulMonotone(r + 1, q, s);
      }
    }
    MulMonotone(2, s, r);
    ModUnique(r + 1, WORD_LIMIT, 0, r + 1);
  }

  // On 64-bit addresses it may: here it names slot 0 of a new area, which holds the data of the area from
  // its formatting on.
  lemma UnresolvedOnWideAddresses()
    ensures var g := Layout(NvmProps(0, 0x10000, 8, 0x1000), 0, 0x4000, 64);
            g.Valid() && WrappedNextSlot(g, 0xFFFF_FFFF_FFFF_FFFF, 0x1_0000_0000_0000_0000) == 0
  {
    var g := Layout(NvmProps(0, 0x10000, 8, 0x1000), 0, 0x4000, 64);
    assert g.PagesInSlot() == 1;
    assert g.SlotSize() == 0x1000;
    UnresolvedNextSlot(g, 0x1_0000_0000_0000_0000);
  }

  // ---------------------------------------------------------------- ranges at the end of the address space

  // The checks of translate_addr on addresses and sizes below w.
  function WrappedRangeCheck(g: Layout, addr: nat, size: nat, w: nat): Outcome
    requires w > 0
  {
    if !InRange(addr, g.area, g.dataSize) then Raised(ERROR_FIRST_NOT_IN_DATA)
    else if (addr - g.area + size) % w > g.dataSize then Raised(ERROR_LAST_NOT_IN_DATA)
    else Done
  }

  // For addresses in the data they are those of RangeCheck exactly if the end of the range, counted from the
  // area, stays below w. A range for which it does not passes, whatever lies behind the data.
  lemma WrappedRange(g: Layout, addr: nat, size: nat, w: nat)
    requires g.Valid() && g.area + g.areaSize <= w && addr < w && size < w
    ensures InRange(addr, g.area, g.dataSize) ==>
              (WrappedRangeCheck(g, addr, size, w) == RangeCheck(g, addr, size) <==> addr - g.area + size < w)
    ensures InRange(addr, g.area, g.dataSize) && addr - g.area + size >= w ==>
              WrappedRangeCheck(g, addr, size, w) == Done
    ensures !InRange(addr, g.area, g.dataSize) ==>
              WrappedRangeCheck(g, addr, size, w) == RangeCheck(g, addr, size)
  {
    hide Layout.SlotSize;
    SlotHoldsData(g);
    if InRange(addr, g.area, g.dataSize) {
      var end := addr - g.area + size;
      if end < w {
        ModUnique(end, w, 0, end);
      } else {
        ModUnique(end, w, 1, end - w);
      }
    }
  }

  // ---------------------------------------------------------------- large write units

  // The three meta items fit the buffer they are assembled in exactly for write sizes up to 16, although
  // lftl_format goes on up to 128; and from 24 on the third item is stored behind its end.
  lemma ItemsFitBuffer(writeSize: nat)
    requires writeSize <= WU_MAX_SIZE
    ensures var itemSize := if writeSize > 4 then writeSize else 4;
            && (N_ITEMS * itemSize <= 4 * BUFFER_WORDS <==> writeSize <= 16)
            && (WordIndex(N_ITEMS - 1, itemSize) < BUFFER_WORDS <==> writeSize < 24)
  {
  }

  // ---------------------------------------------------------------- areas declared for small write units

  // LFTL_AREA counts three write units for the record of a slot, not three items of at least 4 bytes. An area
  // of 58 bytes of data on pages of 64 bytes and write units of 2 bytes, declared with factor 2, has a page
  // too few for every slot, and room for one slot alone.
  lemma DeclaredTooSmall()
    ensures var g := Layout(NvmProps(0, 0x1000, 2, 64), 0, 128, 58);
            Declared(g, 2) && g.SlotSize() == 128 && g.SlotCount() == 1 && !g.Valid()
  {
    var g := Layout(NvmProps(0, 0x1000, 2, 64), 0, 128, 58);
    assert g.PagesInSlot() == 2;
  }
}
