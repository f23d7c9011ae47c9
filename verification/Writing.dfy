/** The part of write_core that assembles and programs the write units of the new slot. */
module Writing {
  import opened Areas
  import opened Arithmetic
  import opened Bytes
  import opened Flash
  import opened Geometry
  import opened Ring
  import opened Sealing
  import opened Slots
  import opened Tearing
  import opened Updates

  // Slot n of c had bytes at.. of its data programmed up to (not including) to, with those of image.
  ghost predicate FilledTo(g: Layout, c: Chip, d: Chip, n: nat, at: nat, to: nat, image: seq<byte>)
    requires Holds(g, c) && n < g.SlotCount()
  {
    at <= to <= |image| == g.dataSize && d == Filled(g, c, n, at, image[at..to])
  }

  // A program call on the data part of slot n was cut short somewhere on the way from c to d.
  ghost predicate CutFill(g: Layout, c: Chip, d: Chip, n: nat)
    requires Holds(g, c) && n < g.SlotCount()
  {
    && SameOutside(c, d, g.SlotBase(n), g.SlotBase(n) + g.SlotSize())
    && SlotAt(g, d.mem, n).version == SlotAt(g, c.mem, n).version
    && d.wear == c.wear
  }

  lemma FillNothing(g: Layout, c: Chip, n: nat, at: nat, image: seq<byte>)
    requires Holds(g, c) && n < g.SlotCount() && at <= g.dataSize == |image|
    ensures FilledTo(g, c, c, n, at, at, image)
  {
    hide Layout.SlotSize, Layout.SlotCount, Layout.SlotBase, Program;
    SlotPlace(g, n);
    assert image[at..at] == [];
    ProgramNothing(c, g.SlotBase(n) + at);
  }

  lemma FillMore(g: Layout, c: Chip, d: Chip, e: Chip, n: nat, at: nat, to: nat, end: nat, image: seq<byte>)
    requires Holds(g, c) && n < g.SlotCount() && FilledTo(g, c, d, n, at, to, image)
    requires to <= end <= g.dataSize && Holds(g, d) && e == Filled(g, d, n, to, image[to..end])
    ensures FilledTo(g, c, e, n, at, end, image)
  {
    hide Layout.SlotSize, Layout.SlotCount, Layout.SlotBase, Program;
    SlotPlace(g, n);
    assert image[at..to] + image[to..end] == image[at..end];
    ProgramExtend(c, g.SlotBase(n) + at, image[at..to], image[to..end]);
  }

  lemma FilledWear(g: Layout, c: Chip, n: nat, at: nat, b: seq<byte>)
    requires Holds(g, c) && n < g.SlotCount() && at + |b| <= g.dataSize
    ensures Filled(g, c, n, at, b).wear == c.wear
  {
    hide Layout.SlotSize, Layout.SlotCount, Layout.SlotBase;
    SlotPlace(g, n);
  }

  lemma CutAfterFill(g: Layout, c: Chip, d: Chip, e: Chip, n: nat, at: nat, to: nat, end: nat, image: seq<byte>,
                     whole: set<Meta>)
    requires Holds(g, c) && n < g.SlotCount() && FilledTo(g, c, d, n, at, to, image)
    requires to <= end <= g.dataSize && Holds(g, d) && Torn(d, Filled(g, d, n, to, image[to..end]), e, whole)
    ensures CutFill(g, c, e, n)
  {
    hide Layout.SlotSize, Layout.SlotCount, Layout.SlotBase, Filled, SlotAt, Torn, SameOutside;
    FilledSlot(g, c, n, at, image[at..to]);
    FilledWear(g, c, n, at, image[at..to]);
    FilledWear(g, d, n, to, image[to..end]);
    TornFill(g, d, e, n, to, image[to..end], whole);
    TornWear(d, Filled(g, d, n, to, image[to..end]), e, whole);
    SameOutsideTrans(c, d, e, g.SlotBase(n), g.SlotBase(n) + g.SlotSize());
  }

  // Programs the next stretch of the image.
  method FillNext(a: Area, n: nat, to: nat, src: Pointer, size: nat,
                  ghost c: Chip, ghost at: nat, ghost image: seq<byte>) returns (ok: bool)
    requires a.Sound() && Holds(a.g, c) && n < a.g.SlotCount()
    requires FilledTo(a.g, c, a.flash.chip, n, at, to, image)
    requires to + size <= a.g.dataSize
    requires to % a.g.nvm.writeSize == 0 && size % a.g.nvm.writeSize == 0
    requires src.Readable(a.flash.chip.mem, size)
    requires src.Avoids(a.g.SlotBase(n), a.g.SlotBase(n) + a.g.SlotSize(), size)
    requires src.Read(a.flash.chip.mem, size) == image[to..to + size]
    requires Blank(a.flash.chip, a.g.SlotBase(n) + to, a.g.SlotBase(n) + to + size)
    modifies a.flash
    ensures a.flash.cuts == old(a.flash.cuts) + if ok then 0 else 1
    ensures a.flash.chip.Valid() && |a.flash.chip.mem| == |old(a.flash.chip).mem|
    ensures ok ==> FilledTo(a.g, c, a.flash.chip, n, at, to + size, image)
    ensures ok ==> a.flash.chip == Filled(a.g, old(a.flash.chip), n, to, image[to..to + size])
    ensures !ok ==> CutFill(a.g, c, a.flash.chip, n)
  {
    hide Layout.SlotSize, Layout.SlotCount, Layout.SlotBase, Torn, Blank, FilledTo, CutFill, SameOutside,
         WholeWords, Program, Pointer.Readable, Pointer.Read;
    SlotPlace(a.g, n);
    SlotAligned(a.g, n);
    ModAdd(a.g.SlotBase(n), to, a.g.nvm.writeSize);
    ghost var d := a.flash.chip;
    assert to <= |image| == a.g.dataSize by { FilledBounds(a.g, c, d, n, at, to, image); }
    ok := a.NvmWrite(a.g.SlotBase(n) + to, src, size);
    if ok {
      FillMore(a.g, c, d, a.flash.chip, n, at, to, to + size, image);
    } else {
      CutAfterFill(a.g, c, d, a.flash.chip, n, at, to, to + size, image, a.flash.whole);
      TornValid(d, Filled(a.g, d, n, to, image[to..to + size]), a.flash.chip, a.flash.whole);
    }
  }

  lemma FilledBounds(g: Layout, c: Chip, d: Chip, n: nat, at: nat, to: nat, image: seq<byte>)
    requires Holds(g, c) && n < g.SlotCount() && FilledTo(g, c, d, n, at, to, image)
    ensures at <= to <= |image| == g.dataSize
  {
  }

  // ---------------------------------------------------------------- what filling a slot leaves alone

  lemma StillBlankAfter(g: Layout, c: Chip, d: Chip, n: nat, at: nat, to: nat, end: nat, image: seq<byte>)
    requires Holds(g, c) && n < g.SlotCount() && FilledTo(g, c, d, n, at, to, image)
    requires to <= end <= g.dataSize && Blank(c, g.SlotBase(n) + at, g.SlotBase(n) + end)
    ensures d.Valid() && Blank(d, g.SlotBase(n) + to, g.SlotBase(n) + end)
  {
    hide Layout.SlotSize, Layout.SlotCount, Layout.SlotBase;
    SlotPlace(g, n);
  }

  lemma SourceStays(g: Layout, c: Chip, d: Chip, n: nat, p: Pointer, size: nat, used: nat, m: nat)
    requires Holds(g, c) && n < g.SlotCount()
    requires SameOutside(c, d, g.SlotBase(n), g.SlotBase(n) + g.SlotSize())
    requires p.Readable(c.mem, size) && p.Avoids(g.SlotBase(n), g.SlotBase(n) + g.SlotSize(), size)
    requires used + m <= size
    ensures p.Plus(used).Readable(d.mem, m)
    ensures p.Plus(used).Avoids(g.SlotBase(n), g.SlotBase(n) + g.SlotSize(), m)
    ensures p.Plus(used).Read(d.mem, m) == p.Read(c.mem, size)[used..used + m]
  {
    hide Layout.SlotSize, Layout.SlotCount, Layout.SlotBase, Layout.Valid;
    PartOfSource(p, c.mem, d.mem, g.SlotBase(n), g.SlotBase(n) + g.SlotSize(), size, used, m);
  }

  // Part of a source that keeps clear of the only bytes that changed.
  lemma PartOfSource(p: Pointer, mem: seq<byte>, now: seq<byte>, lo: nat, hi: nat, size: nat, used: nat, m: nat)
    requires p.Readable(mem, size) && p.Avoids(lo, hi, size) && used + m <= size && |now| == |mem| && lo <= hi
    requires forall k :: 0 <= k < |mem| && !(lo <= k < hi) ==> now[k] == mem[k]
    ensures p.Plus(used).Readable(now, m) && p.Plus(used).Avoids(lo, hi, m)
    ensures p.Plus(used).Read(now, m) == p.Read(mem, size)[used..used + m]
  {
    match p
    case Ram(buf, off) =>
      PartOfMemory(buf, buf, off, size, used, m);
      assert p.Plus(used).Read(now, m) == buf[off + used..off + used + m];
      assert p.Read(mem, size) == buf[off..off + size];
    case Nvm(addr) =>
      PartOfMemory(mem, now, addr, size, used, m);
      assert p.Plus(used).Read(now, m) == now[addr + used..addr + used + m];
      assert p.Read(mem, size) == mem[addr..addr + size];
  }

  lemma PartOfMemory(mem: seq<byte>, now: seq<byte>, addr: nat, size: nat, used: nat, m: nat)
    requires |now| == |mem| && addr + size <= |mem| && used + m <= size
    requires forall k :: addr + used <= k < addr + used + m ==> now[k] == mem[k]
    ensures now[addr + used..addr + used + m] == mem[addr..addr + size][used..used + m]
  {
    SliceOfSlice(mem, addr, size, used, used + m);
    SameSlice(mem, now, addr + used, m);
  }

  lemma SameSlice(mem: seq<byte>, now: seq<byte>, from: nat, m: nat)
    requires |now| == |mem| && from + m <= |mem| && forall k :: from <= k < from + m ==> now[k] == mem[k]
    ensures now[from..from + m] == mem[from..from + m]
  {
  }

  lemma CurrentStays(g: Layout, c: Chip, d: Chip, n: nat, cur: nat, x: nat, m: nat)
    requires Holds(g, c) && n < g.SlotCount() && cur < g.SlotCount() && cur != n
    requires SameOutside(c, d, g.SlotBase(n), g.SlotBase(n) + g.SlotSize())
    requires x + m <= g.dataSize
    ensures g.SlotBase(cur) + x + m <= |d.mem|
    ensures Nvm(g.SlotBase(cur) + x).Avoids(g.SlotBase(n), g.SlotBase(n) + g.SlotSize(), m)
    ensures d.mem[g.SlotBase(cur) + x..g.SlotBase(cur) + x + m] == SlotAt(g, c.mem, cur).data[x..x + m]
  {
    hide Layout.SlotSize, Layout.SlotCount, Layout.SlotBase, WordAt, Layout.Valid;
    SlotPlace(g, cur);
    SlotPlace(g, n);
    if cur < n {
      SlotsApart(g, cur, n);
    } else {
      SlotsApart(g, n, cur);
    }
    var b := g.SlotBase(cur);
    SliceOfSlice(c.mem, b, g.dataSize, x, x + m);
    assert d.mem[b + x..b + x + m] == c.mem[b + x..b + x + m];
  }

  lemma FilledOutside(g: Layout, c: Chip, d: Chip, n: nat, at: nat, to: nat, image: seq<byte>)
    requires Holds(g, c) && n < g.SlotCount() && FilledTo(g, c, d, n, at, to, image)
    ensures SameOutside(c, d, g.SlotBase(n), g.SlotBase(n) + g.SlotSize())
    ensures Holds(g, d)
  {
    hide Layout.SlotSize, Layout.SlotCount, Layout.SlotBase, Filled;
    FilledSlot(g, c, n, at, image[at..to]);
  }

  // ---------------------------------------------------------------- write units made of two or three parts

  // The unit from offset on, of which the source covers the bytes from misalign on.
  lemma HeadUnit(data: seq<byte>, src: seq<byte>, offset: nat, misalign: nat, ws: nat, used: nat, wu: seq<byte>)
    requires misalign < ws && offset + ws <= |data| && offset + misalign + |src| <= |data|
    requires used == if ws - misalign > |src| then |src| else ws - misalign
    requires ws <= |wu|
    requires wu[..misalign] == data[offset..offset + misalign]
    requires wu[misalign..misalign + used] == src[..used]
    requires wu[misalign + used..ws] == data[offset + misalign + used..offset + ws]
    ensures wu[0..ws] == Splice(data, offset + misalign, src)[offset..offset + ws]
  {
    var x, y := wu[0..ws], Splice(data, offset + misalign, src)[offset..offset + ws];
    assert |x| == |y|;
    forall k | 0 <= k < ws
      ensures x[k] == y[k]
    {
      if k < misalign {
        assert x[k] == wu[..misalign][k];
      } else if k < misalign + used {
        assert x[k] == wu[misalign..misalign + used][k - misalign];
      } else {
        assert x[k] == wu[misalign + used..ws][k - misalign - used];
      }
    }
  }

  // The unit from last on, of which the source covers the first part bytes.
  lemma TailUnit(data: seq<byte>, src: seq<byte>, at: nat, last: nat, part: nat, ws: nat, wu: seq<byte>)
    requires at <= last && last + part == at + |src| && part <= ws && last + ws <= |data|
    requires ws <= |wu|
    requires wu[..part] == src[|src| - part..]
    requires wu[part..ws] == data[last + part..last + ws]
    ensures wu[0..ws] == Splice(data, at, src)[last..last + ws]
  {
    var x, y := wu[0..ws], Splice(data, at, src)[last..last + ws];
    assert |x| == |y|;
    forall k | 0 <= k < ws
      ensures x[k] == y[k]
    {
      if k < part {
        assert x[k] == wu[..part][k];
      } else {
        assert x[k] == wu[part..ws][k - part];
      }
    }
  }

  lemma MiddleUnits(data: seq<byte>, src: seq<byte>, at: nat, from: nat, to: nat)
    requires at <= from <= to <= at + |src| <= |data|
    ensures Splice(data, at, src)[from..to] == src[from - at..to - at]
  {
    var x, y := Splice(data, at, src)[from..to], src[from - at..to - at];
    assert |x| == |y|;
    assert forall k :: 0 <= k < |x| ==> x[k] == y[k];
  }

  // The last, partly covered unit holds size % ws bytes of the source.
  lemma PartOfLastUnit(size: nat, sizeAligned: nat, ws: nat)
    requires ws > 0 && sizeAligned % ws == 0 && sizeAligned < size < sizeAligned + ws
    ensures size % ws == size - sizeAligned
  {
    ModUnique(size, ws, sizeAligned / ws, size - sizeAligned);
  }

  lemma RamUnit(wu: seq<byte>, ws: nat, m: seq<byte>, lo: nat, hi: nat)
    requires ws <= |wu|
    ensures Ram(wu, 0).Readable(m, ws) && Ram(wu, 0).Avoids(lo, hi, ws)
    ensures Ram(wu, 0).Read(m, ws) == wu[0..ws]
  {
  }

  // image is the data of slot cur of c with the size bytes at src put in at position at; it is to be
  // programmed into slot n, which the source keeps clear of.
  ghost predicate Setting(g: Layout, c: Chip, n: nat, cur: nat, at: nat, src: Pointer, size: nat, image: seq<byte>) {
    && Holds(g, c) && n < g.SlotCount() && cur < g.SlotCount() && cur != n
    && src.Readable(c.mem, size) && src.Avoids(g.SlotBase(n), g.SlotBase(n) + g.SlotSize(), size)
    && at + size <= g.dataSize
    && image == Splice(SlotAt(g, c.mem, cur).data, at, src.Read(c.mem, size))
  }

  // Assembles the unit at offset, of which the source covers the bytes from misalign on.
  method HeadBytes(a: Area, srcArea: Area, n: nat, cur: nat, offset: nat, misalign: nat, src: Pointer, size: nat,
                   ghost c: Chip, ghost image: seq<byte>) returns (wu: seq<byte>, consumed: nat)
    requires a.Sound() && srcArea.flash == a.flash
    requires Setting(a.g, c, n, cur, offset + misalign, src, size, image)
    requires SameOutside(c, a.flash.chip, a.g.SlotBase(n), a.g.SlotBase(n) + a.g.SlotSize())
    requires offset + a.g.nvm.writeSize <= a.g.dataSize && misalign < a.g.nvm.writeSize
    ensures consumed == if a.g.nvm.writeSize - misalign > size then size else a.g.nvm.writeSize - misalign
    ensures |wu| >= a.g.nvm.writeSize
    ensures wu[0..a.g.nvm.writeSize] == image[offset..offset + a.g.nvm.writeSize]
  {
    hide Layout.SlotSize, Layout.SlotCount, Layout.SlotBase, SlotAt, SameOutside, Pointer.Readable, Pointer.Read,
         Pointer.Avoids, Splice, Layout.Valid, WholeWords, Area.Sound, Repeat;
    var ws := a.g.nvm.writeSize;
    var buffer := Repeat(0x55, (ws + 7) / 8 * 8);
    ghost var tail;
    wu, consumed, tail := TailBytes(a, n, cur, offset, misalign, size, buffer, c);
    CurrentStays(a.g, c, a.flash.chip, n, cur, offset, misalign);
    var head := a.NvmRead(a.g.SlotBase(cur) + offset, misalign);
    wu := Splice(wu, 0, head);
    SourceStays(a.g, c, a.flash.chip, n, src, size, 0, consumed);
    var body := srcArea.MemRead(src.Plus(0), consumed);
    wu := Splice(wu, misalign, body);
    assert head == SlotAt(a.g, c.mem, cur).data[offset..offset + |head|];
    assert body == src.Read(c.mem, size)[..|body|];
    assert image == Splice(SlotAt(a.g, c.mem, cur).data, offset + |head|, src.Read(c.mem, size));
    AssembledHead(buffer, ws, SlotAt(a.g, c.mem, cur).data, src.Read(c.mem, size), offset, head, body, tail);
  }

  // Puts the old bytes behind a source that ends inside the unit at offset into the buffer.
  method TailBytes(a: Area, n: nat, cur: nat, offset: nat, misalign: nat, size: nat, buffer: seq<byte>, ghost c: Chip)
    returns (wu: seq<byte>, consumed: nat, ghost tail: seq<byte>)
    requires a.Sound() && Holds(a.g, c) && n < a.g.SlotCount() && cur < a.g.SlotCount() && cur != n
    requires SameOutside(c, a.flash.chip, a.g.SlotBase(n), a.g.SlotBase(n) + a.g.SlotSize())
    requires offset + a.g.nvm.writeSize <= a.g.dataSize && misalign < a.g.nvm.writeSize <= |buffer|
    ensures consumed == if a.g.nvm.writeSize - misalign > size then size else a.g.nvm.writeSize - misalign
    ensures misalign + consumed + |tail| == a.g.nvm.writeSize && wu == Splice(buffer, misalign + consumed, tail)
    ensures tail == SlotAt(a.g, c.mem, cur).data[offset + misalign + consumed..offset + a.g.nvm.writeSize]
  {
    hide Layout.SlotSize, Layout.SlotCount, Layout.SlotBase, SlotAt, SameOutside, Splice, Layout.Valid, WholeWords;
    var ws := a.g.nvm.writeSize;
    wu, tail, consumed := buffer, [], ws - misalign;
    SpliceNothing(wu, ws);
    if consumed > size {
      var tailSize := consumed - size;
      consumed := size;
      CurrentStays(a.g, c, a.flash.chip, n, cur, offset + misalign + size, tailSize);
      var rest := a.NvmRead(a.g.SlotBase(cur) + offset + misalign + size, tailSize);
      wu := Splice(wu, misalign + size, rest);
      tail := rest;
    }
  }

  lemma AssembledHead(s: seq<byte>, ws: nat, data: seq<byte>, src: seq<byte>, offset: nat, head: seq<byte>,
                      body: seq<byte>, tail: seq<byte>)
    requires |head| + |body| + |tail| == ws <= |s| && |head| < ws && offset + ws <= |data|
    requires offset + |head| + |src| <= |data| && |body| == if ws - |head| > |src| then |src| else ws - |head|
    requires head == data[offset..offset + |head|] && body == src[..|body|]
    requires tail == data[offset + |head| + |body|..offset + ws]
    ensures var wu := Splice(Splice(Splice(s, |head| + |body|, tail), 0, head), |head|, body);
            wu[0..ws] == Splice(data, offset + |head|, src)[offset..offset + ws]
  {
    hide Splice;
    var wu := Splice(Splice(Splice(s, |head| + |body|, tail), 0, head), |head|, body);
    ThreeParts(s, ws, head, body, tail);
    HeadUnit(data, src, offset, |head|, ws, |body|, wu);
  }

  lemma SpliceNothing(s: seq<byte>, at: nat)
    requires at <= |s|
    ensures Splice(s, at, []) == s
  {
  }

  // Three stretches put in one after the other, the last one first.
  lemma ThreeParts(s: seq<byte>, ws: nat, head: seq<byte>, body: seq<byte>, tail: seq<byte>)
    requires |head| + |body| + |tail| == ws <= |s|
    ensures var w := Splice(Splice(Splice(s, |head| + |body|, tail), 0, head), |head|, body);
            && w[..|head|] == head
            && w[|head|..|head| + |body|] == body
            && w[|head| + |body|..ws] == tail
  {
  }

  // Programs the unit at offset, of which the source covers the bytes from misalign on.
  method ProgramHead(a: Area, srcArea: Area, n: nat, cur: nat, offset: nat, misalign: nat, src: Pointer, size: nat,
                     ghost c: Chip, ghost from: nat, ghost image: seq<byte>) returns (ok: bool, consumed: nat)
    requires a.Sound() && srcArea.flash == a.flash
    requires Setting(a.g, c, n, cur, offset + misalign, src, size, image)
    requires FilledTo(a.g, c, a.flash.chip, n, from, offset, image)
    requires offset % a.g.nvm.writeSize == 0 && misalign < a.g.nvm.writeSize
    requires offset + a.g.nvm.writeSize <= a.g.dataSize
    requires Blank(c, a.g.SlotBase(n) + from, a.g.SlotBase(n) + offset + a.g.nvm.writeSize)
    modifies a.flash
    ensures a.flash.cuts == old(a.flash.cuts) + if ok then 0 else 1
    ensures consumed == if a.g.nvm.writeSize - misalign > size then size else a.g.nvm.writeSize - misalign
    ensures a.flash.chip.Valid() && |a.flash.chip.mem| == |old(a.flash.chip).mem|
    ensures ok ==> FilledTo(a.g, c, a.flash.chip, n, from, offset + a.g.nvm.writeSize, image)
    ensures !ok ==> CutFill(a.g, c, a.flash.chip, n)
  {
    hide Layout.SlotSize, Layout.SlotCount, Layout.SlotBase, SlotAt, FilledTo, CutFill, SameOutside, Blank,
         Pointer.Readable, Pointer.Read, Pointer.Avoids, Splice, Filled;
    var ws := a.g.nvm.writeSize;
    ghost var d := a.flash.chip;
    FilledBounds(a.g, c, d, n, from, offset, image);
    FilledOutside(a.g, c, d, n, from, offset, image);
    var wu;
    wu, consumed := HeadBytes(a, srcArea, n, cur, offset, misalign, src, size, c, image);
    RamUnit(wu, ws, d.mem, a.g.SlotBase(n), a.g.SlotBase(n) + a.g.SlotSize());
    StillBlankAfter(a.g, c, d, n, from, offset, offset + ws, image);
    ModUnique(ws, ws, 1, 0);
    ok := FillNext(a, n, offset, Ram(wu, 0), ws, c, from, image);
  }

  // The unit at last, of which the source covers the first part bytes; data from at on is already in.
  method ProgramTail(a: Area, srcArea: Area, n: nat, cur: nat, last: nat, part: nat, src: Pointer,
                     ghost c: Chip, ghost from: nat, ghost at: nat, ghost src0: Pointer, ghost size0: nat,
                     ghost image: seq<byte>) returns (ok: bool)
    requires a.Sound() && srcArea.flash == a.flash
    requires Setting(a.g, c, n, cur, at, src0, size0, image)
    requires FilledTo(a.g, c, a.flash.chip, n, from, last, image)
    requires last % a.g.nvm.writeSize == 0 && last + a.g.nvm.writeSize <= a.g.dataSize
    requires part < a.g.nvm.writeSize && at <= last && last + part == at + size0
    requires src == src0.Plus(size0 - part)
    requires Blank(c, a.g.SlotBase(n) + from, a.g.SlotBase(n) + last + a.g.nvm.writeSize)
    modifies a.flash
    ensures a.flash.cuts == old(a.flash.cuts) + if ok then 0 else 1
    ensures ok ==> FilledTo(a.g, c, a.flash.chip, n, from, last + a.g.nvm.writeSize, image)
    ensures !ok ==> CutFill(a.g, c, a.flash.chip, n)
  {
    hide Layout.SlotSize, Layout.SlotCount, Layout.SlotBase, SlotAt, FilledTo, CutFill, SameOutside, Blank,
         Pointer.Readable, Pointer.Read, Pointer.Avoids, Splice, Filled, Layout.Valid, WholeWords;
    var ws := a.g.nvm.writeSize;
    var currentBase := a.g.SlotBase(cur);
    ghost var d := a.flash.chip;
    ghost var data := SlotAt(a.g, c.mem, cur).data;
    FilledBounds(a.g, c, d, n, from, last, image);
    FilledOutside(a.g, c, d, n, from, last, image);
    var wu := Repeat(0x55, (ws + 7) / 8 * 8);
    SourceStays(a.g, c, d, n, src0, size0, size0 - part, part);
    var wu1 := srcArea.MemRead(src, part);
    wu := Splice(wu, 0, wu1);
    assert size0 - part + part == size0;
    assert wu1 == src0.Read(c.mem, size0)[size0 - part..];
    CurrentStays(a.g, c, d, n, cur, last + part, ws - part);
    var wu2 := a.NvmRead(currentBase + last + part, ws - part);
    wu := Splice(wu, part, wu2);
    assert wu[..part] == wu1;
    assert wu[part..ws] == wu2 == data[last + part..last + ws];
    TailUnit(data, src0.Read(c.mem, size0), at, last, part, ws, wu);
    RamUnit(wu, ws, d.mem, a.g.SlotBase(n), a.g.SlotBase(n) + a.g.SlotSize());
    StillBlankAfter(a.g, c, d, n, from, last, last + ws, image);
    ModUnique(ws, ws, 1, 0);
    ok := FillNext(a, n, last, Ram(wu, 0), ws, c, from, image);
  }

  // Programs the write units from offset on, sizeAligned bytes in all, so that they hold the current
  // data with size bytes from src in place of those from offset + misalign on.
  method ProgramRange(a: Area, srcArea: Area, n: nat, cur: nat, offset0: nat, misalign: nat, sizeAligned0: nat,
                      src0: Pointer, size0: nat, ghost c: Chip, ghost from: nat, ghost image: seq<byte>)
    returns (ok: bool)
    requires a.Sound() && srcArea.flash == a.flash
    requires Setting(a.g, c, n, cur, offset0 + misalign, src0, size0, image)
    requires FilledTo(a.g, c, a.flash.chip, n, from, offset0, image)
    requires offset0 % a.g.nvm.writeSize == 0 && sizeAligned0 % a.g.nvm.writeSize == 0
    requires misalign < a.g.nvm.writeSize && size0 + misalign <= sizeAligned0 < size0 + misalign + a.g.nvm.writeSize
    requires offset0 + sizeAligned0 <= a.g.dataSize
    requires Blank(c, a.g.SlotBase(n) + from, a.g.SlotBase(n) + offset0 + sizeAligned0)
    modifies a.flash
    ensures a.flash.cuts == old(a.flash.cuts) + if ok then 0 else 1
    ensures ok ==> FilledTo(a.g, c, a.flash.chip, n, from, offset0 + sizeAligned0, image)
    ensures !ok ==> CutFill(a.g, c, a.flash.chip, n)
  {
    hide Layout.SlotSize, Layout.SlotCount, Layout.SlotBase, SlotAt, FilledTo, CutFill, SameOutside, Blank,
         Pointer.Readable, Pointer.Read, Pointer.Avoids, Splice, Filled;
    var ws := a.g.nvm.writeSize;
    ghost var lo, at, end := a.g.SlotBase(n), offset0 + misalign, offset0 + sizeAligned0;
    var offset, sizeAligned, size, src := offset0, sizeAligned0, size0, src0;
    FilledBounds(a.g, c, a.flash.chip, n, from, offset, image);
    ModUnique(ws, ws, 1, 0);
    ghost var used := 0;
    PlusNothing(src0);
    if misalign != 0 {
      AtLeastOne(sizeAligned, ws);
      BlankPart(c, lo + from, lo + offset + ws, lo + end);
      var consumed;
      ok, consumed := ProgramHead(a, srcArea, n, cur, offset, misalign, src, size, c, from, image);
      if !ok {
        return;
      }
      ModAdd(ws, offset, ws);
      ModAdd(ws, sizeAligned - ws, ws);
      offset := offset + ws;
      src := src.Plus(consumed);
      sizeAligned := sizeAligned - ws;
      size := size - consumed;
      used := consumed;
    }
    if size != sizeAligned {
      AtLeastOne(sizeAligned, ws);
      ModAdd(ws, sizeAligned - ws, ws);
      sizeAligned := sizeAligned - ws;
    }
    ok := ProgramRest(a, srcArea, n, cur, offset, sizeAligned, src, size, used, c, from, at, src0, size0, image, end);
  }

  lemma PlusNothing(p: Pointer)
    ensures p.Plus(0) == p
  {
  }

  lemma AtLeastOne(a: nat, w: nat)
    requires w > 0 && a > 0 && a % w == 0
    ensures a >= w
  {
    if a < w {
      ModUnique(a, w, 0, a);
    }
  }

  // The whole units, straight from the source, and the partly covered unit after them, if any.
  method ProgramRest(a: Area, srcArea: Area, n: nat, cur: nat, offset: nat, sizeAligned: nat, src: Pointer, size: nat,
                     ghost used: nat, ghost c: Chip, ghost from: nat, ghost at: nat, ghost src0: Pointer,
                     ghost size0: nat, ghost image: seq<byte>, ghost end: nat) returns (ok: bool)
    requires a.Sound() && srcArea.flash == a.flash
    requires Setting(a.g, c, n, cur, at, src0, size0, image)
    requires FilledTo(a.g, c, a.flash.chip, n, from, offset, image)
    requires offset % a.g.nvm.writeSize == 0 && sizeAligned % a.g.nvm.writeSize == 0
    requires used + size == size0 && src == src0.Plus(used)
    requires sizeAligned <= size < sizeAligned + a.g.nvm.writeSize
    requires size > 0 ==> offset == at + used
    requires end == if size == sizeAligned then offset + sizeAligned else offset + sizeAligned + a.g.nvm.writeSize
    requires end <= a.g.dataSize
    requires Blank(c, a.g.SlotBase(n) + from, a.g.SlotBase(n) + end)
    modifies a.flash
    ensures a.flash.cuts == old(a.flash.cuts) + if ok then 0 else 1
    ensures ok ==> FilledTo(a.g, c, a.flash.chip, n, from, end, image)
    ensures !ok ==> CutFill(a.g, c, a.flash.chip, n)
  {
    hide Layout.SlotSize, Layout.SlotCount, Layout.SlotBase, SlotAt, FilledTo, CutFill, SameOutside, Blank,
         Pointer.Readable, Pointer.Read, Pointer.Avoids, Splice, Filled;
    var ws := a.g.nvm.writeSize;
    ghost var lo := a.g.SlotBase(n);
    ghost var data, bytes := SlotAt(a.g, c.mem, cur).data, src0.Read(c.mem, size0);
    ghost var d := a.flash.chip;
    FilledBounds(a.g, c, d, n, from, offset, image);
    FilledOutside(a.g, c, d, n, from, offset, image);
    SourceStays(a.g, c, d, n, src0, size0, used, sizeAligned);
    if sizeAligned > 0 {
      MiddleUnits(data, bytes, at, offset, offset + sizeAligned);
    } else {
      assert bytes[used..used] == [] == image[offset..offset];
    }
    BlankPart(c, lo + from, lo + offset + sizeAligned, lo + end);
    StillBlankAfter(a.g, c, d, n, from, offset, offset + sizeAligned, image);
    ok := FillNext(a, n, offset, src, sizeAligned, c, from, image);
    if !ok {
      return;
    }
    if size != sizeAligned {
      PartOfLastUnit(size, sizeAligned, ws);
      ModAdd(offset, sizeAligned, ws);
      ok := ProgramTail(a, srcArea, n, cur, offset + sizeAligned, size % ws, src.Plus(sizeAligned),
                        c, from, at, src0, size0, image);
    }
  }

  // ---------------------------------------------------------------- a whole update

  lemma SettingStays(g: Layout, c: Chip, d: Chip, n: nat, cur: nat, at: nat, src: Pointer, size: nat, image: seq<byte>)
    requires Setting(g, c, n, cur, at, src, size, image) && Holds(g, d)
    requires SameOutside(c, d, g.SlotBase(n), g.SlotBase(n) + g.SlotSize())
    ensures Setting(g, d, n, cur, at, src, size, image)
  {
    hide Layout.SlotSize, Layout.SlotCount, Layout.SlotBase, WordAt, SameOutside, Splice, Pointer.Readable,
         Pointer.Read, Pointer.Avoids;
    SourceStays(g, c, d, n, src, size, 0, size);
    PlusNothing(src);
    CurrentStays(g, c, d, n, cur, 0, g.dataSize);
    assert src.Read(c.mem, size)[0..size] == src.Read(c.mem, size);
    var x := SlotAt(g, c.mem, cur).data;
    assert x[0..g.dataSize] == x;
  }

  lemma OldParts(data: seq<byte>, at: nat, src: seq<byte>, from: nat, to: nat)
    requires from <= to <= |data| && at + |src| <= |data|
    requires to <= at || at + |src| <= from
    ensures Splice(data, at, src)[from..to] == data[from..to]
  {
    var x, y := Splice(data, at, src)[from..to], data[from..to];
    assert |x| == |y|;
    assert forall k :: 0 <= k < |x| ==> x[k] == y[k];
  }

  // Copies bytes from .. to of the current data to the same place in slot n.
  method CopyOld(a: Area, n: nat, cur: nat, from: nat, to: nat, ghost c: Chip, ghost start: nat, ghost image: seq<byte>)
    returns (ok: bool)
    requires a.Sound() && Holds(a.g, c) && n < a.g.SlotCount() && cur < a.g.SlotCount() && cur != n
    requires FilledTo(a.g, c, a.flash.chip, n, start, from, image)
    requires from <= to <= a.g.dataSize
    requires from % a.g.nvm.writeSize == 0 && to % a.g.nvm.writeSize == 0
    requires SlotAt(a.g, c.mem, cur).data[from..to] == image[from..to]
    requires Blank(c, a.g.SlotBase(n) + start, a.g.SlotBase(n) + to)
    modifies a.flash
    ensures a.flash.cuts == old(a.flash.cuts) + if ok then 0 else 1
    ensures a.flash.chip.Valid() && |a.flash.chip.mem| == |old(a.flash.chip).mem|
    ensures ok ==> FilledTo(a.g, c, a.flash.chip, n, start, to, image)
    ensures !ok ==> CutFill(a.g, c, a.flash.chip, n)
  {
    hide Layout.SlotSize, Layout.SlotCount, Layout.SlotBase, SlotAt, FilledTo, CutFill, SameOutside, Blank, Filled;
    ghost var d := a.flash.chip;
    FilledOutside(a.g, c, d, n, start, from, image);
    CurrentStays(a.g, c, d, n, cur, from, to - from);
    StillBlankAfter(a.g, c, d, n, start, from, to, image);
    AlignedDifference(from, to, a.g.nvm.writeSize);
    ok := FillNext(a, n, from, Nvm(a.g.SlotBase(cur) + from), to - from, c, start, image);
  }

  lemma AlignedDifference(from: nat, to: nat, w: nat)
    requires w > 0 && from <= to && from % w == 0 && to % w == 0
    ensures (to - from) % w == 0
  {
    ModAdd(from, to - from, w);
  }

  // Programs all of slot n, freshly erased: prefix, range and suffix.
  method FillSlot(a: Area, srcArea: Area, n: nat, cur: nat, offset: nat, misalign: nat, sizeAligned: nat,
                  src: Pointer, size: nat, ghost image: seq<byte>) returns (ok: bool)
    requires a.Sound() && srcArea.flash == a.flash
    requires Setting(a.g, a.flash.chip, n, cur, offset + misalign, src, size, image)
    requires offset % a.g.nvm.writeSize == 0 && sizeAligned % a.g.nvm.writeSize == 0
    requires misalign < a.g.nvm.writeSize && size + misalign <= sizeAligned < size + misalign + a.g.nvm.writeSize
    requires offset + sizeAligned <= a.g.dataSize
    requires Blank(a.flash.chip, a.g.SlotBase(n), a.g.SlotBase(n) + a.g.dataSize)
    modifies a.flash
    ensures a.flash.cuts == old(a.flash.cuts) + if ok then 0 else 1
    ensures a.flash.chip.Valid() && |a.flash.chip.mem| == |old(a.flash.chip).mem|
    ensures ok ==> FilledTo(a.g, old(a.flash.chip), a.flash.chip, n, 0, a.g.dataSize, image)
    ensures !ok ==> CutFill(a.g, old(a.flash.chip), a.flash.chip, n)
  {
    hide Layout.SlotSize, Layout.SlotCount, Layout.SlotBase, SlotAt, FilledTo, CutFill, SameOutside, Blank, Filled,
         Pointer.Readable, Pointer.Read, Pointer.Avoids, Splice;
    var end := offset + sizeAligned;
    ghost var e, lo, at := a.flash.chip, a.g.SlotBase(n), offset + misalign;
    ghost var data, bytes := SlotAt(a.g, e.mem, cur).data, src.Read(e.mem, size);
    FillNothing(a.g, e, n, 0, image);
    if offset != 0 {
      OldParts(data, at, bytes, 0, offset);
      BlankPart(e, lo, lo + offset, lo + a.g.dataSize);
      ModUnique(0, a.g.nvm.writeSize, 0, 0);
      ok := CopyOld(a, n, cur, 0, offset, e, 0, image);
      if !ok {
        return;
      }
    }
    BlankPart(e, lo, lo + end, lo + a.g.dataSize);
    ok := ProgramRange(a, srcArea, n, cur, offset, misalign, sizeAligned, src, size, e, 0, image);
    if !ok {
      CutKeeps(a.g, e, a.flash.chip, n);
      return;
    }
    var remaining := a.g.dataSize - end;
    FilledOutside(a.g, e, a.flash.chip, n, 0, end, image);
    SameOutsideValid(e, a.flash.chip, lo, lo + a.g.SlotSize());
    if remaining != 0 {
      OldParts(data, at, bytes, end, a.g.dataSize);
      ModAdd(offset, sizeAligned, a.g.nvm.writeSize);
      ok := CopyOld(a, n, cur, end, a.g.dataSize, e, 0, image);
    }
  }

  lemma CutKeeps(g: Layout, c: Chip, d: Chip, n: nat)
    requires Holds(g, c) && n < g.SlotCount() && CutFill(g, c, d, n)
    ensures d.Valid() && |d.mem| == |c.mem|
  {
  }

  lemma SameOutsideValid(c: Chip, d: Chip, lo: nat, hi: nat)
    requires SameOutside(c, d, lo, hi)
    ensures d.Valid() && |d.mem| == |c.mem|
  {
  }

  // Writes the record that makes slot n, already filled with image, the current one.
  method FinishUpdate(a: Area, n: nat, cur: nat, ghost c: Chip, ghost image: seq<byte>) returns (ok: bool)
    requires a.Sound() && Ready(a.g, c) && |image| == a.g.dataSize
    requires cur == Current(View(a.g, c.mem)) && n == Next(View(a.g, c.mem))
    requires SameOutside(c, a.flash.chip, a.g.SlotBase(n), a.g.SlotBase(n) + a.g.SlotSize())
    requires SlotAt(a.g, a.flash.chip.mem, n).data == image
    requires MetaBase(a.g, n) >= 0 && Blank(a.flash.chip, MetaBase(a.g, n), a.g.SlotBase(n) + a.g.SlotSize())
    modifies a.flash, a`data
    ensures a.flash.cuts == old(a.flash.cuts) + if ok then 0 else 1
    ensures ok ==> UpdatedTo(a.g, c, a.flash.chip, image) && a.data == At(a.g.SlotBase(n))
    ensures a.flash.chip.wear == old(a.flash.chip).wear
    ensures !ok ==> UpdateCut(a.g, c, a.flash.chip, image) && a.data == old(a.data)
  {
    hide Layout.SlotSize, Layout.SlotCount, Layout.SlotBase, SlotAt, Bystander, Intact, SameOutside, Blank,
         UpdateCut, UpdatedTo, View, CutSeal, Sealed, WornOnce, Record;
    ghost var f := a.flash.chip;
    NextDiffers(View(a.g, c.mem));
    ViewAfter(a.g, c, f, n);
    ViewAt(a.g, f.mem, cur);
    var meta := a.GetSlotMeta(cur);
    var version := (1 + meta[0]) % WORD_LIMIT;
    assert version == NewVersion(Version(View(a.g, c.mem)));
    ok := a.WriteMeta(n, version);
    if ok {
      SealCompletes(a.g, c, f, image);
      SealedWear(a.g, f, n, version);
      a.data := At(a.g.SlotBase(n));
    } else {
      SealCutIsCut(a.g, c, f, a.flash.chip, image);
    }
  }

  lemma SameWear(c: Chip, f: Chip, d: Chip, lo: nat, hi: nat)
    requires WornOnce(c, f, lo, hi) && d.wear == f.wear
    ensures WornOnce(c, d, lo, hi)
  {
  }

  lemma ErasedFacts(g: Layout, c: Chip, n: nat)
    requires Holds(g, c) && n < g.SlotCount()
    ensures WornOnce(c, Erased(g, c, n), g.SlotBase(n), g.SlotBase(n) + g.SlotSize())
    ensures MetaBase(g, n) >= 0
    ensures Blank(Erased(g, c, n), MetaBase(g, n), g.SlotBase(n) + g.SlotSize())
    ensures Blank(Erased(g, c, n), g.SlotBase(n), g.SlotBase(n) + g.dataSize)
  {
    hide Layout.SlotSize, Layout.SlotCount, Layout.SlotBase;
    SlotPlace(g, n);
  }

  // Filling the data part only.
  lemma FilledFacts(g: Layout, c: Chip, e: Chip, f: Chip, n: nat, image: seq<byte>)
    requires Holds(g, c) && n < g.SlotCount() && Holds(g, e)
    requires FilledTo(g, e, f, n, 0, g.dataSize, image)
    requires WornOnce(c, e, g.SlotBase(n), g.SlotBase(n) + g.SlotSize()) && |c.mem| == |e.mem|
    requires MetaBase(g, n) >= 0 && Blank(e, MetaBase(g, n), g.SlotBase(n) + g.SlotSize())
    ensures SlotAt(g, f.mem, n).data == image
    ensures WornOnce(c, f, g.SlotBase(n), g.SlotBase(n) + g.SlotSize())
    ensures Blank(f, MetaBase(g, n), g.SlotBase(n) + g.SlotSize())
  {
    hide Layout.SlotSize, Layout.SlotCount, Layout.SlotBase, WordAt;
    SlotPlace(g, n);
    assert image[0..g.dataSize] == image;
    FilledSlot(g, e, n, 0, image);
    SpliceAll(SlotAt(g, e.mem, n).data, image);
  }

  // Erases slot n and programs into it the current data with size bytes from src in place of those from
  // offset + misalign on, then the record that makes it the current slot.
  method BuildUpdate(a: Area, srcArea: Area, n: nat, cur: nat, offset: nat, misalign: nat, sizeAligned: nat,
                     src: Pointer, size: nat, ghost image: seq<byte>) returns (ok: bool)
    requires a.Sound() && Ready(a.g, a.flash.chip) && srcArea.flash == a.flash
    requires cur == Current(a.Slots()) && n == Next(a.Slots())
    requires Setting(a.g, a.flash.chip, n, cur, offset + misalign, src, size, image)
    requires offset % a.g.nvm.writeSize == 0 && sizeAligned % a.g.nvm.writeSize == 0
    requires misalign < a.g.nvm.writeSize && size + misalign <= sizeAligned < size + misalign + a.g.nvm.writeSize
    requires offset + sizeAligned <= a.g.dataSize
    modifies a.flash, a`data
    ensures a.flash.cuts == old(a.flash.cuts) + if ok then 0 else 1
    ensures ok ==> UpdatedTo(a.g, old(a.flash.chip), a.flash.chip, image) && a.data == At(a.g.SlotBase(n))
    ensures WornOnce(old(a.flash.chip), a.flash.chip, a.g.SlotBase(n), a.g.SlotBase(n) + a.g.SlotSize())
    ensures !ok ==> UpdateCut(a.g, old(a.flash.chip), a.flash.chip, image) && a.data == old(a.data)
  {
    hide Layout.SlotSize, Layout.SlotCount, Layout.SlotBase, SlotAt, Bystander, Intact, FilledTo, CutFill,
         SameOutside, Blank, Pointer.Readable, Pointer.Read, Pointer.Avoids, Splice, Filled, Erased, OpenedUp,
         UpdateCut, UpdatedTo, View, WornOnce;
    ghost var c := a.flash.chip;
    ok := a.EraseSlot(n);
    ErasedFacts(a.g, c, n);
    SameWear(c, Erased(a.g, c, n), a.flash.chip, a.g.SlotBase(n), a.g.SlotBase(n) + a.g.SlotSize());
    if !ok {
      OpenedIsCut(a.g, c, a.flash.chip, image);
      return;
    }
    ghost var e := a.flash.chip;
    ErasedSlot(a.g, c, n);
    SettingStays(a.g, c, e, n, cur, offset + misalign, src, size, image);
    ok := FillSlot(a, srcArea, n, cur, offset, misalign, sizeAligned, src, size, image);
    if !ok {
      FillCutIsCut(a.g, c, e, a.flash.chip, image);
      SameWear(c, e, a.flash.chip, a.g.SlotBase(n), a.g.SlotBase(n) + a.g.SlotSize());
      return;
    }
    FilledFacts(a.g, c, e, a.flash.chip, n, image);
    FilledOutside(a.g, e, a.flash.chip, n, 0, a.g.dataSize, image);
    SameOutsideTrans(c, e, a.flash.chip, a.g.SlotBase(n), a.g.SlotBase(n) + a.g.SlotSize());
    ghost var f := a.flash.chip;
    ok := FinishUpdate(a, n, cur, c, image);
    SameWear(c, f, a.flash.chip, a.g.SlotBase(n), a.g.SlotBase(n) + a.g.SlotSize());
  }

  lemma FillCutIsCut(g: Layout, c: Chip, e: Chip, d: Chip, image: seq<byte>)
    requires Ready(g, c) && e == Erased(g, c, Next(View(g, c.mem))) && CutFill(g, e, d, Next(View(g, c.mem)))
    ensures UpdateCut(g, c, d, image) && d.wear == e.wear
  {
    hide Layout.SlotSize, Layout.SlotCount, Layout.SlotBase, SlotAt, Bystander, Intact, SameOutside, Erased,
         UpdateCut, View;
    var n := Next(View(g, c.mem));
    ErasedSlot(g, c, n);
    SameOutsideTrans(c, e, d, g.SlotBase(n), g.SlotBase(n) + g.SlotSize());
    OpenedIsCut(g, c, d, image);
  }

  // ---------------------------------------------------------------- erase

  lemma SlotStays(g: Layout, c: Chip, d: Chip, n: nat, cur: nat)
    requires Holds(g, c) && Holds(g, d) && n < g.SlotCount() && cur < g.SlotCount() && cur != n
    requires SameOutside(c, d, g.SlotBase(n), g.SlotBase(n) + g.SlotSize())
    ensures SlotAt(g, d.mem, cur).data == SlotAt(g, c.mem, cur).data
  {
    hide Layout.SlotSize, Layout.SlotCount, Layout.SlotBase, WordAt, SameOutside;
    CurrentStays(g, c, d, n, cur, 0, g.dataSize);
    var x := SlotAt(g, c.mem, cur).data;
    assert x[0..g.dataSize] == x;
  }

  // Two separate stretches of a freshly erased slot were filled: what is between reads as erased.
  lemma GapIsErased(g: Layout, c: Chip, e: Chip, f: Chip, d: Chip, n: nat, offset: nat, end: nat, data: seq<byte>)
    requires Holds(g, c) && Holds(g, e) && Holds(g, f) && n < g.SlotCount() && |data| == g.dataSize
    requires offset <= end <= g.dataSize
    requires var image := Splice(data, offset, Repeat(ERASED, end - offset));
             && SlotAt(g, e.mem, n).data == Repeat(ERASED, g.dataSize)
             && FilledTo(g, e, f, n, 0, offset, image) && FilledTo(g, f, d, n, end, g.dataSize, image)
    requires WornOnce(c, e, g.SlotBase(n), g.SlotBase(n) + g.SlotSize()) && |c.mem| == |e.mem|
    requires MetaBase(g, n) >= 0 && Blank(e, MetaBase(g, n), g.SlotBase(n) + g.SlotSize())
    ensures Holds(g, d)
    ensures SlotAt(g, d.mem, n).data == Splice(data, offset, Repeat(ERASED, end - offset))
    ensures SameOutside(e, d, g.SlotBase(n), g.SlotBase(n) + g.SlotSize())
    ensures WornOnce(c, d, g.SlotBase(n), g.SlotBase(n) + g.SlotSize())
    ensures Blank(d, MetaBase(g, n), g.SlotBase(n) + g.SlotSize())
  {
    hide Layout.SlotSize, Layout.SlotCount, Layout.SlotBase, SlotAt, Filled, SameOutside, WornOnce, Blank;
    var image := Splice(data, offset, Repeat(ERASED, end - offset));
    FilledSlot(g, e, n, 0, image[0..offset]);
    FilledSlot(g, f, n, end, image[end..g.dataSize]);
    SameOutsideTrans(e, f, d, g.SlotBase(n), g.SlotBase(n) + g.SlotSize());
    var x := SlotAt(g, d.mem, n).data;
    assert |x| == |image|;
    assert forall k :: 0 <= k < |x| ==> x[k] == image[k];
    FilledKeeps(g, c, e, f, n, 0, offset, image);
    FilledKeeps(g, c, f, d, n, end, g.dataSize, image);
  }

  lemma FilledKeeps(g: Layout, c: Chip, e: Chip, f: Chip, n: nat, at: nat, to: nat, image: seq<byte>)
    requires Holds(g, c) && Holds(g, e) && n < g.SlotCount() && |c.mem| == |e.mem|
    requires FilledTo(g, e, f, n, at, to, image)
    requires WornOnce(c, e, g.SlotBase(n), g.SlotBase(n) + g.SlotSize())
    requires MetaBase(g, n) >= 0 && Blank(e, MetaBase(g, n), g.SlotBase(n) + g.SlotSize())
    ensures WornOnce(c, f, g.SlotBase(n), g.SlotBase(n) + g.SlotSize())
    ensures f.Valid() && Blank(f, MetaBase(g, n), g.SlotBase(n) + g.SlotSize())
  {
    hide Layout.SlotSize, Layout.SlotCount, Layout.SlotBase;
    SlotPlace(g, n);
  }

  // Copies what lies before offset and after offset + size of the current data to slot n, just erased.
  method FillAround(a: Area, n: nat, cur: nat, offset: nat, size: nat, ghost c: Chip,
                    ghost data: seq<byte>) returns (ok: bool)
    requires a.Sound() && Holds(a.g, c) && n < a.g.SlotCount() && cur < a.g.SlotCount() && cur != n
    requires a.flash.chip == Erased(a.g, c, n)
    requires offset % a.g.nvm.writeSize == 0 && size % a.g.nvm.writeSize == 0 && offset + size <= a.g.dataSize
    requires data == SlotAt(a.g, c.mem, cur).data
    modifies a.flash
    ensures a.flash.cuts == old(a.flash.cuts) + if ok then 0 else 1
    ensures ok ==>
              && Holds(a.g, a.flash.chip)
              && SlotAt(a.g, a.flash.chip.mem, n).data == Splice(data, offset, Repeat(ERASED, size))
              && SameOutside(old(a.flash.chip), a.flash.chip, a.g.SlotBase(n), a.g.SlotBase(n) + a.g.SlotSize())
              && WornOnce(c, a.flash.chip, a.g.SlotBase(n), a.g.SlotBase(n) + a.g.SlotSize())
              && MetaBase(a.g, n) >= 0
              && Blank(a.flash.chip, MetaBase(a.g, n), a.g.SlotBase(n) + a.g.SlotSize())
    ensures !ok ==> CutFill(a.g, old(a.flash.chip), a.flash.chip, n)
  {
    hide Layout.SlotSize, Layout.SlotCount, Layout.SlotBase, SlotAt, FilledTo, CutFill, SameOutside, Blank, Splice,
         Filled, Erased, WornOnce;
    ghost var e := a.flash.chip;
    ghost var lo := a.g.SlotBase(n);
    ghost var image := Splice(data, offset, Repeat(ERASED, size));
    ErasedSlot(a.g, c, n);
    ErasedFacts(a.g, c, n);
    SlotStays(a.g, c, e, n, cur);
    var end := offset + size;
    ModAdd(offset, size, a.g.nvm.writeSize);
    ModUnique(0, a.g.nvm.writeSize, 0, 0);
    OldParts(data, offset, Repeat(ERASED, size), 0, offset);
    OldParts(data, offset, Repeat(ERASED, size), end, a.g.dataSize);
    BlankPart(e, lo, lo + offset, lo + a.g.dataSize);
    ok := FillPart(a, n, cur, 0, offset, image);
    if !ok {
      return;
    }
    ghost var f := a.flash.chip;
    FilledOutside(a.g, e, f, n, 0, offset, image);
    SlotStays(a.g, e, f, n, cur);
    StillBlankAfter(a.g, e, f, n, 0, offset, a.g.dataSize, image);
    BlankPart(f, lo + offset, lo + end, lo + a.g.dataSize);
    ok := FillPart(a, n, cur, end, a.g.dataSize, image);
    if ok {
      GapIsErased(a.g, c, e, f, a.flash.chip, n, offset, end, data);
    } else {
      CutFillTrans(a.g, e, f, a.flash.chip, n, 0, offset, image);
    }
  }

  // The part of erase after its checks: like an update, but the range is left as the erase left it.
  method BuildErase(a: Area, n: nat, cur: nat, offset: nat, size: nat, ghost image: seq<byte>) returns (ok: bool)
    requires a.Sound() && Ready(a.g, a.flash.chip)
    requires cur == Current(a.Slots()) && n == Next(a.Slots())
    requires offset % a.g.nvm.writeSize == 0 && size % a.g.nvm.writeSize == 0 && offset + size <= a.g.dataSize
    requires image == Splice(SlotAt(a.g, a.flash.chip.mem, cur).data, offset, Repeat(ERASED, size))
    modifies a.flash, a`data
    ensures a.flash.cuts == old(a.flash.cuts) + if ok then 0 else 1
    ensures ok ==> UpdatedTo(a.g, old(a.flash.chip), a.flash.chip, image) && a.data == At(a.g.SlotBase(n))
    ensures WornOnce(old(a.flash.chip), a.flash.chip, a.g.SlotBase(n), a.g.SlotBase(n) + a.g.SlotSize())
    ensures !ok ==> UpdateCut(a.g, old(a.flash.chip), a.flash.chip, image) && a.data == old(a.data)
  {
    hide Layout.SlotSize, Layout.SlotCount, Layout.SlotBase, SlotAt, Bystander, Intact, CutFill, SameOutside, Blank,
         Splice, Erased, OpenedUp, UpdateCut, UpdatedTo, View, WornOnce;
    ghost var c := a.flash.chip;
    NextDiffers(View(a.g, c.mem));
    ok := a.EraseSlot(n);
    ErasedFacts(a.g, c, n);
    SameWear(c, Erased(a.g, c, n), a.flash.chip, a.g.SlotBase(n), a.g.SlotBase(n) + a.g.SlotSize());
    if !ok {
      OpenedIsCut(a.g, c, a.flash.chip, image);
      return;
    }
    ghost var e := a.flash.chip;
    ErasedSlot(a.g, c, n);
    ok := FillAround(a, n, cur, offset, size, c, SlotAt(a.g, c.mem, cur).data);
    if !ok {
      FillCutIsCut(a.g, c, e, a.flash.chip, image);
      SameWear(c, e, a.flash.chip, a.g.SlotBase(n), a.g.SlotBase(n) + a.g.SlotSize());
      return;
    }
    SameOutsideTrans(c, e, a.flash.chip, a.g.SlotBase(n), a.g.SlotBase(n) + a.g.SlotSize());
    ghost var f := a.flash.chip;
    ok := FinishUpdate(a, n, cur, c, image);
    SameWear(c, f, a.flash.chip, a.g.SlotBase(n), a.g.SlotBase(n) + a.g.SlotSize());
  }

  lemma CutFillTrans(g: Layout, c: Chip, d: Chip, e: Chip, n: nat, at: nat, to: nat, image: seq<byte>)
    requires Holds(g, c) && Holds(g, d) && n < g.SlotCount()
    requires FilledTo(g, c, d, n, at, to, image) && CutFill(g, d, e, n)
    ensures CutFill(g, c, e, n)
  {
    hide Layout.SlotSize, Layout.SlotCount, Layout.SlotBase, SlotAt, Filled, SameOutside;
    FilledSlot(g, c, n, at, image[at..to]);
    FilledWear(g, c, n, at, image[at..to]);
    SameOutsideTrans(c, d, e, g.SlotBase(n), g.SlotBase(n) + g.SlotSize());
  }

  // Copies from .. to of the current data to slot n, unless the range is empty.
  method FillPart(a: Area, n: nat, cur: nat, from: nat, to: nat, ghost image: seq<byte>) returns (ok: bool)
    requires a.Sound() && n < a.g.SlotCount() && cur < a.g.SlotCount() && cur != n
    requires from <= to <= a.g.dataSize == |image|
    requires from % a.g.nvm.writeSize == 0 && to % a.g.nvm.writeSize == 0
    requires SlotAt(a.g, a.flash.chip.mem, cur).data[from..to] == image[from..to]
    requires Blank(a.flash.chip, a.g.SlotBase(n) + from, a.g.SlotBase(n) + to)
    modifies a.flash
    ensures a.flash.cuts == old(a.flash.cuts) + if ok then 0 else 1
    ensures a.flash.chip.Valid() && |a.flash.chip.mem| == |old(a.flash.chip).mem|
    ensures ok ==> FilledTo(a.g, old(a.flash.chip), a.flash.chip, n, from, to, image)
    ensures !ok ==> CutFill(a.g, old(a.flash.chip), a.flash.chip, n)
  {
    hide Layout.SlotSize, Layout.SlotCount, Layout.SlotBase, SlotAt, FilledTo, CutFill, SameOutside, Blank, Filled;
    FillNothing(a.g, a.flash.chip, n, from, image);
    ok := true;
    if from != to {
      ok := CopyOld(a, n, cur, from, to, a.flash.chip, from, image);
    }
  }
}
