/** The slot protocol, seen as a ring of decoded slots. */
module Ring {
  import Arithmetic
  import opened Bytes
  import opened Crc

  // A slot's data and its three meta items.
  datatype Slot = Slot(data: seq<byte>, version: nat, checksum: nat, checksum2: nat)

  // Up to this version an erased checksum word cannot pass the integrity check.
  const MAX_VERSION: nat := 0xF7FF_FFFF

  function Checksum(data: seq<byte>, version: nat): (n: nat)
    ensures n < WORD_LIMIT
  {
    (Sum(data) + version) % WORD_LIMIT
  }

  predicate Intact(s: Slot) {
    s.checksum == Checksum(s.data, s.version)
  }

  predicate Live(s: Slot) {
    s.version != ERASED_WORD
  }

  // ---------------------------------------------------------------- the slot search

  // Where the search of find_current_slot stands: stopped by a version collision, or the best slot
  // so far (-1 for none) with its version (0 for none).
  datatype Search = Collision | Best(index: int, version: nat)

  function Visit(found: Search, s: Slot, i: nat): Search {
    match found
    case Collision => Collision
    case Best(_, v) =>
      if !Live(s) then found
      else if s.version == v then Collision
      else if s.version > v && Intact(s) then Best(i, s.version)
      else found
  }

  function Scan(slots: seq<Slot>, k: nat): (r: Search)
    requires k <= |slots|
    ensures r.Best? ==> -1 <= r.index < k
  {
    if k == 0 then Best(-1, 0) else Visit(Scan(slots, k - 1), slots[k - 1], k - 1)
  }

  // The slot the search settles on, or -1 when it raises an error.
  function Current(slots: seq<Slot>): (c: int)
    ensures -1 <= c < |slots|
  {
    match Scan(slots, |slots|)
    case Collision => -1
    case Best(i, _) => i
  }

  // The greatest version of an intact slot before slot i, or 0.
  function MaxBefore(slots: seq<Slot>, i: nat): nat
    requires i <= |slots|
  {
    if i == 0 then 0
    else
      var m := MaxBefore(slots, i - 1);
      if Live(slots[i - 1]) && Intact(slots[i - 1]) && slots[i - 1].version > m then slots[i - 1].version else m
  }

  lemma {:induction false} MaxBeforeIs(slots: seq<Slot>, i: nat)
    requires i <= |slots|
    ensures forall j :: 0 <= j < i && Live(slots[j]) && Intact(slots[j]) ==> slots[j].version <= MaxBefore(slots, i)
    ensures MaxBefore(slots, i) == 0
         || exists j :: 0 <= j < i && Live(slots[j]) && Intact(slots[j]) && slots[j].version == MaxBefore(slots, i)
  {
    hide Intact;
    if i > 0 {
      MaxBeforeIs(slots, i - 1);
    }
  }

  // Some slot has the version of the newest intact slot before it, or version 0 and none before it.
  ghost predicate Collides(slots: seq<Slot>, k: nat)
    requires k <= |slots|
  {
    exists i :: 0 <= i < k && Live(slots[i]) && slots[i].version == MaxBefore(slots, i)
  }

  // The search raises a collision exactly then, whatever the slots hold; and otherwise finds nothing
  // exactly when no slot is intact.
  lemma {:induction false} SearchErrors(slots: seq<Slot>, k: nat)
    requires k <= |slots|
    ensures Scan(slots, k).Collision? <==> Collides(slots, k)
    ensures !Collides(slots, k) ==>
              && Scan(slots, k).version == MaxBefore(slots, k)
              && (Scan(slots, k).index == -1 <==> forall i :: 0 <= i < k ==> !(Live(slots[i]) && Intact(slots[i])))
  {
    hide Intact;
    if k > 0 {
      SearchErrors(slots, k - 1);
      MaxBeforeIs(slots, k - 1);
      if i :| 0 <= i < k - 1 && Live(slots[i]) && slots[i].version == MaxBefore(slots, i) {
        assert Collides(slots, k - 1);
      }
    }
  }

  ghost predicate Searchable(slots: seq<Slot>) {
    && (forall i :: 0 <= i < |slots| && Live(slots[i]) ==> slots[i].version != 0)
    && (forall i, j :: 0 <= i < j < |slots| && Live(slots[i]) && Live(slots[j]) ==>
          slots[i].version != slots[j].version)
  }

  // c is the intact live slot with the greatest version.
  ghost predicate IsNewest(slots: seq<Slot>, c: int) {
    && 0 <= c < |slots| && Live(slots[c]) && Intact(slots[c])
    && forall i :: 0 <= i < |slots| && Live(slots[i]) && Intact(slots[i]) ==> slots[i].version <= slots[c].version
  }

  lemma {:induction false} ScanPrefix(slots: seq<Slot>, k: nat)
    requires Searchable(slots) && k <= |slots|
    ensures var r := Scan(slots, k);
            && r.Best?
            && (r.index == -1 ==> r.version == 0)
            && (r.index == -1 ==> forall i :: 0 <= i < k ==> !(Live(slots[i]) && Intact(slots[i])))
            && (r.index != -1 ==> IsNewest(slots[..k], r.index) && r.version == slots[r.index].version)
  {
    hide Intact;
    if k > 0 {
      ScanPrefix(slots, k - 1);
      var r := Scan(slots, k - 1);
      assert forall i :: 0 <= i < k - 1 ==> slots[..k][i] == slots[..k - 1][i];
      assert slots[..k][k - 1] == slots[k - 1];
    }
  }

  // With distinct non-zero versions and at least one intact slot, the search raises no error and
  // settles on the newest intact slot, and on no other.
  lemma SearchIsArgmax(slots: seq<Slot>, c: int)
    requires Searchable(slots)
    requires exists i :: 0 <= i < |slots| && Live(slots[i]) && Intact(slots[i])
    ensures Current(slots) == c <==> IsNewest(slots, c)
    ensures Current(slots) >= 0 && Scan(slots, |slots|) == Best(Current(slots), Version(slots))
  {
    hide Intact;
    ScanPrefix(slots, |slots|);
    assert slots[..|slots|] == slots;
    var i :| 0 <= i < |slots| && Live(slots[i]) && Intact(slots[i]);
    var r := Scan(slots, |slots|);
    assert IsNewest(slots, r.index);
  }

  // ---------------------------------------------------------------- the invariant

  function After(c: nat, n: nat): nat {
    if c + 1 == n then 0 else c + 1
  }

  // How many versions the last full round left slot i behind slot c.
  function Behind(i: nat, c: nat, n: nat): int {
    if i < c then c - i else c - i + n
  }

  // A record whose version reached the chip but whose checksum did not.
  predicate HalfWritten(s: Slot, version: nat) {
    s.version == version <= MAX_VERSION && s.checksum == ERASED_WORD
  }

  // A slot nothing was written to since it was erased.
  function BlankSlot(size: nat): Slot {
    Slot(Repeat(ERASED, size), ERASED_WORD, ERASED_WORD, ERASED_WORD)
  }

  // What a slot other than the current one holds: the intact record that was current Behind(i, c, n)
  // updates ago or, in the first round, nothing. Only the next slot may hold anything else: it may be
  // partly erased or partly written, still under its old version, under none, or under the next version
  // without a checksum.
  predicate Bystander(slots: seq<Slot>, c: nat, i: nat)
    requires c < |slots| && i < |slots|
  {
    var n, v := |slots|, slots[c].version;
    if i == After(c, n) then
      || !Live(slots[i])
      || (v > Behind(i, c, n) && slots[i].version == v - Behind(i, c, n))
      || HalfWritten(slots[i], v + 1)
    else if v > Behind(i, c, n) then slots[i].version == v - Behind(i, c, n) && Intact(slots[i])
    else slots[i] == BlankSlot(|slots[c].data|)
  }

  // The current slot c holds an intact record at the place its version gives it; every other slot holds
  // an intact record, each one version older than the one after it, or was never written to since the
  // area was formatted. Only the next slot may be in transition.
  ghost predicate RingAt(slots: seq<Slot>, c: int) {
    && 2 <= |slots|
    && 0 <= c < |slots|
    && 1 <= slots[c].version < ERASED_WORD
    && Intact(slots[c])
    && (slots[c].version - 1) % |slots| == c
    && (forall i :: 0 <= i < |slots| ==> |slots[i].data| == |slots[c].data| >= 1)
    && (forall i :: 0 <= i < |slots| && i != c ==> Bystander(slots, c, i))
  }

  ghost predicate RingOk(slots: seq<Slot>) {
    RingAt(slots, Current(slots))
  }

  // The data the area holds for its user.
  function Committed(slots: seq<Slot>): seq<byte>
    requires Current(slots) >= 0
  {
    slots[Current(slots)].data
  }

  function Version(slots: seq<Slot>): nat
    requires Current(slots) >= 0
  {
    slots[Current(slots)].version
  }

  // An erased checksum word passes the integrity check exactly when the checksum of the data makes
  // up for the distance of the version to the erased word ...
  lemma ErasedChecksumPasses(s: Slot)
    requires s.data != [] && s.version < WORD_LIMIT && s.checksum == ERASED_WORD
    ensures Intact(s) <==> Sum(s.data) + s.version == ERASED_WORD
  {
    hide Sum;
    SumBound(s.data);
  }

  // ... which never happens up to MAX_VERSION, and cannot be excluded from the version after it on.
  lemma HalfWrittenIsRejected(s: Slot)
    requires s.data != [] && s.version <= MAX_VERSION && s.checksum == ERASED_WORD
    ensures !Intact(s)
  {
    hide Sum;
    SumBound(s.data);
  }

  // Within the same bound a record whose second checksum was never written is always noticed.
  lemma MissingCopyIsNoticed(s: Slot)
    requires s.data != [] && s.version <= MAX_VERSION && Intact(s) && s.checksum2 == ERASED_WORD
    ensures s.checksum2 != s.checksum
  {
    hide Sum;
    SumBound(s.data);
  }

  lemma RingSearchable(slots: seq<Slot>, c: int)
    requires RingAt(slots, c)
    ensures Searchable(slots)
  {
    hide Intact, Checksum;
    forall i, j | 0 <= i < j < |slots| && Live(slots[i]) && Live(slots[j])
      ensures slots[i].version != slots[j].version
    {
      assert i == c || Bystander(slots, c, i);
      assert j == c || Bystander(slots, c, j);
    }
    forall i | 0 <= i < |slots| && Live(slots[i])
      ensures slots[i].version != 0
    {
      assert i == c || Bystander(slots, c, i);
    }
  }

  // In a ring the search succeeds and finds its current slot.
  lemma RingSearch(slots: seq<Slot>, c: int)
    requires RingAt(slots, c)
    ensures Current(slots) == c
    ensures Scan(slots, |slots|) == Best(c, slots[c].version)
  {
    hide Checksum;
    RingSearchable(slots, c);
    forall i | 0 <= i < |slots| && Live(slots[i]) && Intact(slots[i])
      ensures slots[i].version <= slots[c].version
    {
      assert i == c || Bystander(slots, c, i);
      if i != c && slots[i].version == slots[c].version + 1 {
        HalfWrittenIsRejected(slots[i]);
      }
    }
    assert IsNewest(slots, c);
    SearchIsArgmax(slots, c);
  }

  // ---------------------------------------------------------------- steps of the protocol

  function Next(slots: seq<Slot>): (n: nat)
    requires Current(slots) >= 0
    ensures n < |slots|
  {
    After(Current(slots), |slots|)
  }

  function NewVersion(v: nat): (w: nat)
    ensures w < WORD_LIMIT
  {
    (v + 1) % WORD_LIMIT
  }

  // The record of an update.
  function Record(data: seq<byte>, version: nat): Slot {
    Slot(data, version, Checksum(data, version), Checksum(data, version))
  }

  // A completed update.
  function Updated(slots: seq<Slot>, data: seq<byte>): (r: seq<Slot>)
    requires Current(slots) >= 0
    ensures |r| == |slots|
  {
    slots[Next(slots) := Record(data, NewVersion(Version(slots)))]
  }

  // What the next slot may hold once its erase has begun and as long as no version is written to it.
  predicate Opened(before: Slot, s: Slot) {
    && |s.data| == |before.data|
    && (|| !Live(s)
        || (s.version == before.version && (before.checksum == ERASED_WORD ==> s.checksum == ERASED_WORD)))
  }

  // What the next slot may hold when an update to version is cut short.
  predicate Interrupted(before: Slot, s: Slot, data: seq<byte>, version: nat) {
    || Opened(before, s)
    || (s.version == version && s.data == data && (s.checksum == ERASED_WORD || Intact(s)))
  }

  lemma UpdateStep(slots: seq<Slot>, data: seq<byte>)
    requires RingOk(slots) && |data| == |Committed(slots)|
    requires Version(slots) + 1 < ERASED_WORD
    ensures RingOk(Updated(slots, data))
    ensures Current(Updated(slots, data)) == Next(slots)
    ensures Committed(Updated(slots, data)) == data
    ensures Version(Updated(slots, data)) == Version(slots) + 1
  {
    hide Checksum;
    AdvanceStep(slots, Record(data, Version(slots) + 1));
  }

  // The record an update writes is complete: a search that follows it has nothing to repair.
  lemma UpdatedRecord(slots: seq<Slot>, data: seq<byte>)
    requires Current(slots) >= 0
    ensures var s := Updated(slots, data)[Next(slots)];
            && s.data == data && s.version == (Version(slots) + 1) % WORD_LIMIT
            && s.checksum2 == s.checksum == (Sum(data) + s.version) % WORD_LIMIT
    ensures forall i :: 0 <= i < |slots| && i != Next(slots) ==> Updated(slots, data)[i] == slots[i]
  {
    hide Sum;
  }

  lemma NextResidue(v: nat, n: nat)
    requires n >= 2 && v >= 1
    ensures v % n == After((v - 1) % n, n)
  {
    var q, c := (v - 1) / n, (v - 1) % n;
    assert v == q * n + c + 1;
    if c + 1 == n {
      Arithmetic.ModUnique(v, n, q + 1, 0);
    } else {
      Arithmetic.ModUnique(v, n, q, c + 1);
    }
  }

  // An intact record with the next version takes over as the current slot.
  lemma AdvanceStep(slots: seq<Slot>, s: Slot)
    requires RingOk(slots) && |s.data| == |Committed(slots)|
    requires s.version == Version(slots) + 1 < ERASED_WORD && Intact(s)
    ensures RingAt(slots[Next(slots) := s], Next(slots))
    ensures Current(slots[Next(slots) := s]) == Next(slots)
  {
    hide Intact;
    var c, n := Current(slots), |slots|;
    var next := Next(slots);
    var r := slots[next := s];
    NextResidue(slots[c].version, n);
    forall i | 0 <= i < n && i != next
      ensures Bystander(r, next, i)
    {
      assert i == c || Bystander(slots, c, i);
    }
    RingSearch(r, next);
  }

  // Opening the next slot does not change what the area holds.
  lemma OpenStep(slots: seq<Slot>, s: Slot)
    requires RingOk(slots) && Opened(slots[Next(slots)], s)
    ensures RingOk(slots[Next(slots) := s])
    ensures Current(slots[Next(slots) := s]) == Current(slots)
    ensures Committed(slots[Next(slots) := s]) == Committed(slots)
    ensures Version(slots[Next(slots) := s]) == Version(slots)
  {
    hide Intact;
    var c := Current(slots);
    var r := slots[Next(slots) := s];
    forall i | 0 <= i < |slots| && i != c
      ensures Bystander(r, c, i)
    {
      assert Bystander(slots, c, i);
    }
    RingSearch(r, c);
  }

  // An update cut short leaves the old data or the new data, never anything else; it is the new data
  // exactly when the whole version and checksum words reached the chip.
  lemma InterruptedStep(slots: seq<Slot>, s: Slot, data: seq<byte>)
    requires RingOk(slots) && |data| == |Committed(slots)|
    requires Version(slots) < MAX_VERSION
    requires Interrupted(slots[Next(slots)], s, data, Version(slots) + 1)
    ensures RingOk(slots[Next(slots) := s])
    ensures var r := slots[Next(slots) := s];
            if s.version == Version(slots) + 1 && Intact(s)
            then Current(r) == Next(slots) && Committed(r) == data && Version(r) == Version(slots) + 1
            else Current(r) == Current(slots) && Committed(r) == Committed(slots) && Version(r) == Version(slots)
  {
    hide Checksum;
    var next := slots[Next(slots)];
    assert Bystander(slots, Current(slots), Next(slots));
    if Opened(next, s) {
      if s.version == Version(slots) + 1 {
        HalfWrittenIsRejected(s);
      }
      OpenStep(slots, s);
    } else if Intact(s) {
      AdvanceStep(slots, s);
    } else {
      var r := slots[Next(slots) := s];
      forall i | 0 <= i < |slots| && i != Current(slots)
        ensures Bystander(r, Current(slots), i)
      {
        assert Bystander(slots, Current(slots), i);
      }
      RingSearch(r, Current(slots));
    }
  }

  // Rewriting the second checksum of the current slot changes nothing the search looks at.
  lemma MendStep(slots: seq<Slot>, checksum2: nat)
    requires RingOk(slots)
    ensures var c := Current(slots);
            var r := slots[c := slots[c].(checksum2 := checksum2)];
            RingOk(r) && Current(r) == c && Committed(r) == Committed(slots) && Version(r) == Version(slots)
  {
    hide Checksum;
    var c := Current(slots);
    var r := slots[c := slots[c].(checksum2 := checksum2)];
    forall i | 0 <= i < |slots| && i != c
      ensures Bystander(r, c, i)
    {
      assert Bystander(slots, c, i);
    }
    RingSearch(r, c);
  }

  // ---------------------------------------------------------------- earlier data

  // Where in a ring of n the record k versions before that of slot c lies.
  function Back(c: nat, k: nat, n: nat): nat
    requires c < n && k < n
  {
    if k <= c then c - k else c - k + n
  }

  // The last |past| data of the area, the current one last, are still in their slots under intact
  // records, except for that in the next slot.
  ghost predicate Retains(slots: seq<Slot>, past: seq<seq<byte>>) {
    && RingOk(slots) && 0 < |past| <= Version(slots)
    && forall k: nat :: k < |past| && k <= |slots| - 2 ==>
         var s := slots[Back(Current(slots), k, |slots|)];
         s.data == past[|past| - 1 - k] && s.version == Version(slots) - k && Intact(s)
  }

  // All but one of the slots hold intact records of consecutive versions, as far as there were that many.
  lemma PreviousIntact(slots: seq<Slot>, k: nat)
    requires RingOk(slots) && k <= |slots| - 2
    ensures var s := slots[Back(Current(slots), k, |slots|)];
            if k < Version(slots) then s.version == Version(slots) - k && Intact(s)
            else s == BlankSlot(|Committed(slots)|)
  {
    hide Intact;
    var i := Back(Current(slots), k, |slots|);
    assert i == Current(slots) || Bystander(slots, Current(slots), i);
  }

  // From v to w no slot but number n changed in anything the search looks at.
  ghost predicate OthersSame(v: seq<Slot>, w: seq<Slot>, n: nat) {
    && |v| == |w|
    && forall i :: 0 <= i < |v| && i != n ==>
         w[i].data == v[i].data && w[i].version == v[i].version && w[i].checksum == v[i].checksum
  }

  lemma RetainsNow(slots: seq<Slot>)
    requires RingOk(slots)
    ensures Retains(slots, [Committed(slots)])
  {
    hide Intact, Bystander;
  }

  // A step that leaves the other slots alone keeps what they retain, and a new version adds to it.
  lemma RetainStep(v: seq<Slot>, w: seq<Slot>, past: seq<seq<byte>>)
    requires Retains(v, past) && RingOk(w) && OthersSame(v, w, Next(v))
    requires || (Current(w) == Current(v) && Version(w) == Version(v))
             || (Current(w) == Next(v) && Version(w) == Version(v) + 1)
    ensures Retains(w, if Version(w) == Version(v) then past else past + [Committed(w)])
  {
    hide Bystander, Current, Checksum;
    var n, c := |v|, Current(v);
    var more := if Version(w) == Version(v) then past else past + [Committed(w)];
    forall k: nat | k < |more| && k <= n - 2
      ensures var s := w[Back(Current(w), k, n)];
              s.data == more[|more| - 1 - k] && s.version == Version(w) - k && Intact(s)
    {
      if Version(w) == Version(v) {
        assert Back(c, k, n) != Next(v);
      } else if k > 0 {
        assert Back(Current(w), k, n) == Back(c, k - 1, n) != Next(v);
      }
    }
  }

  // A formatted area.
  ghost predicate Formatted(slots: seq<Slot>) {
    && 2 <= |slots|
    && slots[0].data != []
    && slots[0] == Record(slots[0].data, 1)
    && (forall i :: 0 <= i < |slots| ==> |slots[i].data| == |slots[0].data|)
    && (forall i :: 1 <= i < |slots| ==> slots[i] == BlankSlot(|slots[0].data|))
  }

  lemma FormatStep(slots: seq<Slot>)
    requires Formatted(slots)
    ensures RingOk(slots) && Current(slots) == 0 && Version(slots) == 1
  {
    hide Checksum;
    assert RingAt(slots, 0);
    RingSearch(slots, 0);
  }
}
