/** The non-volatile memory: what its erase and program callbacks do, also when the power fails. */
module Flash {
  import opened Bytes

  // mem is the address space that holds every NVM; blank marks the bytes not programmed since their
  // last erase; wear counts the erases of each byte.
  datatype Chip = Chip(mem: seq<byte>, blank: seq<bool>, wear: seq<nat>) {
    predicate Valid() {
      && |blank| == |mem| == |wear|
      && forall k :: 0 <= k < |mem| && blank[k] ==> mem[k] == ERASED
    }
  }

  // A C pointer: into a RAM buffer, or to an address of the NVM address space.
  datatype Pointer = Ram(buf: seq<byte>, off: nat) | Nvm(addr: nat) {
    predicate Readable(mem: seq<byte>, size: nat) {
      match this
      case Ram(buf, off) => off + size <= |buf|
      case Nvm(addr) => addr + size <= |mem|
    }

    function Read(mem: seq<byte>, size: nat): (b: seq<byte>)
      requires Readable(mem, size)
      ensures |b| == size
    {
      match this
      case Ram(buf, off) => buf[off..off + size]
      case Nvm(addr) => mem[addr..addr + size]
    }

    function Plus(n: nat): Pointer {
      match this
      case Ram(buf, off) => Ram(buf, off + n)
      case Nvm(addr) => Nvm(addr + n)
    }

    // The size bytes from here on lie outside [lo, hi).
    predicate Avoids(lo: nat, hi: nat, size: nat) {
      Nvm? ==> addr + size <= lo || hi <= addr
    }
  }

  function EraseRange(c: Chip, lo: nat, hi: nat): (r: Chip)
    requires c.Valid() && lo <= hi <= |c.mem|
    ensures r.Valid() && |r.mem| == |c.mem|
  {
    Chip(seq(|c.mem|, k requires 0 <= k < |c.mem| => if lo <= k < hi then ERASED else c.mem[k]),
         seq(|c.mem|, k requires 0 <= k < |c.mem| => lo <= k < hi || c.blank[k]),
         seq(|c.mem|, k requires 0 <= k < |c.mem| => if lo <= k < hi then c.wear[k] + 1 else c.wear[k]))
  }

  function Program(c: Chip, at: nat, b: seq<byte>): (r: Chip)
    requires c.Valid() && at + |b| <= |c.mem|
    ensures r.Valid() && |r.mem| == |c.mem|
  {
    Chip(Splice(c.mem, at, b),
         seq(|c.mem|, k requires 0 <= k < |c.mem| => c.blank[k] && !(at <= k < at + |b|)),
         c.wear)
  }

  // Where a meta record lies: three items of this size, which begin with the version, the checksum and its
  // copy.
  datatype Meta = Meta(at: int, item: nat)

  // The word at a is untouched or finished.
  predicate WordSettled(before: seq<byte>, target: seq<byte>, after: seq<byte>, a: int)
    requires |before| == |target| == |after|
  {
    0 <= a && a + 4 <= |before| ==> after[a..a + 4] == before[a..a + 4] || after[a..a + 4] == target[a..a + 4]
  }

  // A callback that would have taken the chip from before to target was cut short. A byte that
  // already held its target value keeps it; any other byte may hold anything, except that the words
  // of the records listed in whole that it never splits are each either untouched or finished.
  predicate Torn(before: Chip, target: Chip, after: Chip, whole: set<Meta>) {
    && before.Valid() && target.Valid() && |before.mem| == |target.mem|
    && |after.mem| == |after.blank| == |before.mem|
    && after.wear == target.wear
    && (forall k :: 0 <= k < |before.mem| && before.mem[k] == target.mem[k] ==> after.mem[k] == target.mem[k])
    && (forall k :: 0 <= k < |before.mem| ==> after.blank[k] == (before.blank[k] && target.blank[k]))
    && (forall r :: r in whole ==>
          && WordSettled(before.mem, target.mem, after.mem, r.at)
          && WordSettled(before.mem, target.mem, after.mem, r.at + r.item))
  }

  // That is all there is to be relied on: a torn call may leave nothing done, everything done, or any bytes at
  // all where it was to change something and no record of those listed has its first two words.
  lemma TornMayHold(before: Chip, target: Chip, m: seq<byte>, whole: set<Meta>)
    requires before.Valid() && target.Valid() && |before.mem| == |target.mem| == |m|
    requires forall k :: 0 <= k < |m| && before.mem[k] == target.mem[k] ==> m[k] == target.mem[k]
    requires forall k, r ::
               0 <= k < |m| && r in whole && (r.at <= k < r.at + 4 || r.at + r.item <= k < r.at + r.item + 4) ==>
                 m[k] == before.mem[k]
    ensures exists after: Chip :: after.mem == m && Torn(before, target, after, whole)
    ensures exists after: Chip :: after.mem == target.mem && Torn(before, target, after, whole)
  {
    var blank := seq(|m|, k requires 0 <= k < |m| => before.blank[k] && target.blank[k]);
    forall r | r in whole
      ensures WordSettled(before.mem, target.mem, m, r.at) && WordSettled(before.mem, target.mem, m, r.at + r.item)
    {
      SameWordSettled(before.mem, target.mem, m, r.at);
      SameWordSettled(before.mem, target.mem, m, r.at + r.item);
    }
    assert Torn(before, target, Chip(m, blank, target.wear), whole);
    assert Torn(before, target, Chip(target.mem, blank, target.wear), whole);
  }

  lemma SameWordSettled(before: seq<byte>, target: seq<byte>, after: seq<byte>, a: int)
    requires |before| == |target| == |after|
    requires forall k :: a <= k < a + 4 && 0 <= k < |before| ==> after[k] == before[k]
    ensures WordSettled(before, target, after, a)
  {
  }

  // The two chips agree outside [lo, hi).
  ghost predicate SameOutside(c: Chip, d: Chip, lo: nat, hi: nat) {
    && c.Valid() && d.Valid() && |c.mem| == |d.mem|
    && forall k :: 0 <= k < |c.mem| && !(lo <= k < hi) ==>
         d.mem[k] == c.mem[k] && d.blank[k] == c.blank[k] && d.wear[k] == c.wear[k]
  }

  ghost predicate Blank(c: Chip, lo: nat, hi: nat)
    requires c.Valid()
  {
    hi <= |c.mem| && forall k :: lo <= k < hi ==> c.blank[k]
  }

  // The bytes b, programmed at dst over what is there already, lie within record r and leave every byte of
  // its version and checksum words at the value it has.
  predicate Repairs(mem: seq<byte>, r: Meta, dst: nat, b: seq<byte>) {
    && r.at <= dst && dst + |b| <= r.at + 3 * r.item
    && forall k :: dst <= k < dst + |b| && k < |mem| && (r.at <= k < r.at + 4 || r.at + r.item <= k < r.at + r.item + 4)
         ==> b[k - dst] == mem[k]
  }

  // They do so with one of the records that may be written to again.
  ghost predicate RepairsOne(mem: seq<byte>, dst: nat, b: seq<byte>, whole: set<Meta>) {
    exists r :: r in whole && Repairs(mem, r, dst, b)
  }

  // Whatever else is programmed over again, the version word of a record is not changed by it, nor is
  // anything beyond the third item.
  lemma RepairsAreBounded(mem: seq<byte>, dst: nat, b: seq<byte>, whole: set<Meta>)
    requires RepairsOne(mem, dst, b, whole) && dst + |b| <= |mem|
    ensures exists r :: r in whole && r.at <= dst && dst + |b| <= r.at + 3 * r.item
              && forall k :: dst <= k < dst + |b| && k < r.at + 4 ==> b[k - dst] == mem[k]
  {
    var r :| r in whole && Repairs(mem, r, dst, b);
    assert r.at <= dst && dst + |b| <= r.at + 3 * r.item;
  }

  class Device {
    var chip: Chip
    // How many calls a power cut has interrupted.
    var cuts: nat
    // The meta records: a power cut never splits their version and checksum words.
    const whole: set<Meta>

    constructor (mem: seq<byte>, whole: set<Meta>)
      ensures chip.Valid() && chip.mem == mem && this.whole == whole
    {
      chip := Chip(mem, seq(|mem|, _ => false), seq(|mem|, _ => 0));
      this.whole := whole;
      cuts := 0;
    }

    method Erase(lo: nat, hi: nat) returns (ok: bool)
      requires chip.Valid() && lo <= hi <= |chip.mem|
      modifies this
      ensures cuts == old(cuts) + if ok then 0 else 1
      ensures ok ==> chip == EraseRange(old(chip), lo, hi)
      ensures !ok ==> Torn(old(chip), EraseRange(old(chip), lo, hi), chip, whole)
    {
      ok := Settle(EraseRange(chip, lo, hi));
    }

    // The callback may rely on the source not overlapping the destination. Bytes are programmed once
    // between two erases, except in the repair of a meta record.
    method Write(dst: nat, src: Pointer, size: nat) returns (ok: bool)
      requires chip.Valid() && dst + size <= |chip.mem|
      requires src.Readable(chip.mem, size) && src.Avoids(dst, dst + size, size)
      requires Blank(chip, dst, dst + size) || RepairsOne(chip.mem, dst, src.Read(chip.mem, size), whole)
      modifies this
      ensures cuts == old(cuts) + if ok then 0 else 1
      ensures ok ==> chip == Program(old(chip), dst, src.Read(old(chip).mem, size))
      ensures !ok ==> Torn(old(chip), Program(old(chip), dst, src.Read(old(chip).mem, size)), chip, whole)
    {
      ok := Settle(Program(chip, dst, src.Read(chip.mem, size)));
    }

    // The power may fail before the chip reaches its target state.
    method Settle(target: Chip) returns (ok: bool)
      requires chip.Valid() && target.Valid() && |target.mem| == |chip.mem|
      modifies this
      ensures cuts == old(cuts) + if ok then 0 else 1
      ensures ok ==> chip == target
      ensures !ok ==> Torn(old(chip), target, chip, whole)
    {
      if * {
        chip := target;
        ok := true;
      } else {
        var after: Chip := *;
        if Torn(chip, target, after, whole) {
          chip := after;
        } else {
          chip := NothingDone(chip, target);
        }
        cuts := cuts + 1;
        ok := false;
      }
    }
  }

  function NothingDone(c: Chip, target: Chip): (r: Chip)
    requires c.Valid() && target.Valid() && |target.mem| == |c.mem|
    ensures forall whole :: Torn(c, target, r, whole)
  {
    Chip(c.mem, seq(|c.mem|, k requires 0 <= k < |c.mem| => c.blank[k] && target.blank[k]), target.wear)
  }

  // ---------------------------------------------------------------- facts about chips

  lemma TornWear(before: Chip, target: Chip, after: Chip, whole: set<Meta>)
    ensures Torn(before, target, after, whole) ==> after.wear == target.wear
  {
  }

  lemma TornValid(before: Chip, target: Chip, after: Chip, whole: set<Meta>)
    requires Torn(before, target, after, whole)
    ensures after.Valid() && |after.mem| == |before.mem|
  {
  }

  lemma TornOutside(before: Chip, target: Chip, after: Chip, whole: set<Meta>, lo: nat, hi: nat)
    requires Torn(before, target, after, whole)
    requires SameOutside(before, target, lo, hi)
    ensures SameOutside(before, after, lo, hi)
  {
  }

  lemma EraseNothing(c: Chip, at: nat)
    requires c.Valid() && at <= |c.mem|
    ensures EraseRange(c, at, at) == c
  {
    var r := EraseRange(c, at, at);
    assert r.mem == c.mem && r.blank == c.blank && r.wear == c.wear;
  }

  lemma ProgramNothing(c: Chip, at: nat)
    requires c.Valid() && at <= |c.mem|
    ensures Program(c, at, []) == c
  {
    assert Program(c, at, []).mem == c.mem;
    assert Program(c, at, []).blank == c.blank;
  }

  // Programming two stretches one after the other is programming both at once.
  lemma ProgramExtend(c: Chip, at: nat, x: seq<byte>, y: seq<byte>)
    requires c.Valid() && at + |x| + |y| <= |c.mem|
    ensures Program(Program(c, at, x), at + |x|, y) == Program(c, at, x + y)
  {
    var p, q := Program(Program(c, at, x), at + |x|, y), Program(c, at, x + y);
    assert p.mem == q.mem;
    assert p.blank == q.blank;
  }
}
