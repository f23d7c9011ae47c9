/** The transaction tracker: one bit per write unit, packed in bytes. */
module Tracker {

  // 1 << j on a byte
  function Mask(j: nat): bv8
    requires j < 8
  {
    (1 as bv8) << j
  }

  lemma MaskTable(j: nat)
    requires j < 8
    ensures Mask(j) == [1 as bv8, 2, 4, 8, 16, 32, 64, 128][j]
  {
  }

  // Shifting the mask moves on to the next bit.
  lemma MaskShift(j: nat)
    requires j < 7
    ensures Mask(j + 1) == Mask(j) << 1
  {
    MaskTable(j);
    MaskTable(j + 1);
  }

  predicate Marked(t: seq<bv8>, k: nat) {
    k / 8 < |t| && t[k / 8] & Mask(k % 8) != 0
  }

  predicate NoneMarkedIn(t: seq<bv8>, first: nat, n: nat) {
    forall k :: first <= k < first + n ==> !Marked(t, k)
  }

  // How many of the n bits from first on come before the first one that is set.
  function Unmarked(t: seq<bv8>, first: nat, n: nat): (r: nat)
    ensures r <= n && NoneMarkedIn(t, first, r)
    ensures r < n ==> Marked(t, first + r)
    decreases n
  {
    if n == 0 || Marked(t, first) then 0 else 1 + Unmarked(t, first + 1, n - 1)
  }

  // No other number has that property.
  lemma UnmarkedIs(t: seq<bv8>, first: nat, n: nat, r: nat)
    requires r <= n && NoneMarkedIn(t, first, r) && (r < n ==> Marked(t, first + r))
    ensures Unmarked(t, first, n) == r
  {
    hide Marked;
  }

  lemma AllUnmarked(t: seq<bv8>, first: nat, n: nat)
    ensures NoneMarkedIn(t, first, n) <==> Unmarked(t, first, n) == n
  {
    hide Marked;
    assert Unmarked(t, first, n) < n ==> Marked(t, first + Unmarked(t, first, n));
  }

  // t with bit k set.
  function Mark(t: seq<bv8>, k: nat): (r: seq<bv8>)
    requires k / 8 < |t|
    ensures |r| == |t|
  {
    t[k / 8 := t[k / 8] | Mask(k % 8)]
  }

  lemma MaskOr(b: bv8, x: bv8, y: bv8)
    requires x in {1, 2, 4, 8, 16, 32, 64, 128} && y in {1, 2, 4, 8, 16, 32, 64, 128}
    ensures (b | x) & y != 0 <==> x == y || b & y != 0
  {
  }

  lemma MaskInjective(i: nat, j: nat)
    requires i < 8 && j < 8
    ensures Mask(i) in {1, 2, 4, 8, 16, 32, 64, 128}
    ensures Mask(i) == Mask(j) <==> i == j
  {
    MaskTable(i);
    MaskTable(j);
  }

  // Setting a bit sets that bit and no other.
  lemma MarkSets(t: seq<bv8>, k: nat, j: nat)
    requires k / 8 < |t|
    ensures Marked(Mark(t, k), j) <==> j == k || Marked(t, j)
  {
    hide Mask;
    MaskInjective(k % 8, j % 8);
    MaskInjective(j % 8, k % 8);
    if j / 8 == k / 8 {
      MaskOr(t[k / 8], Mask(k % 8), Mask(j % 8));
    }
  }

  // t with the n bits from first on set.
  function MarkRange(t: seq<bv8>, first: nat, n: nat): (r: seq<bv8>)
    requires (first + n + 7) / 8 <= |t|
    ensures |r| == |t|
  {
    if n == 0 then t else Mark(MarkRange(t, first, n - 1), first + n - 1)
  }

  lemma {:induction false} RangeMarks(t: seq<bv8>, first: nat, n: nat, j: nat)
    requires (first + n + 7) / 8 <= |t|
    ensures Marked(MarkRange(t, first, n), j) <==> first <= j < first + n || Marked(t, j)
  {
    hide Mask, Mark, Marked;
    if n > 0 {
      RangeMarks(t, first, n - 1, j);
      MarkSets(MarkRange(t, first, n - 1), first + n - 1, j);
    }
  }

  // Marks one unit, unless it is marked already.
  method MarkUnit(tracker: array<bv8>, unit: nat) returns (ok: bool)
    requires unit / 8 < tracker.Length
    modifies tracker
    ensures ok <==> !Marked(old(tracker[..]), unit)
    ensures tracker[..] == if ok then Mark(old(tracker[..]), unit) else old(tracker[..])
  {
    hide Mask;
    var byteIndex, bitIndex := unit / 8, unit % 8;
    var mask := Mask(bitIndex);
    ok := tracker[byteIndex] & mask == 0;
    if ok {
      tracker[byteIndex] := tracker[byteIndex] | mask;
    }
  }

  // Marks the n units from first on, stopping at the first one marked already.
  method MarkUnits(tracker: array<bv8>, first: nat, n: nat) returns (ok: bool)
    requires (first + n + 7) / 8 <= tracker.Length
    modifies tracker
    ensures ok <==> NoneMarkedIn(old(tracker[..]), first, n)
    ensures tracker[..] == MarkRange(old(tracker[..]), first, Unmarked(old(tracker[..]), first, n))
  {
    hide Mask, Marked, Mark, Unmarked;
    var i := 0;
    while i < n
      invariant 0 <= i <= n
      invariant NoneMarkedIn(old(tracker[..]), first, i)
      invariant tracker[..] == MarkRange(old(tracker[..]), first, i)
    {
      RangeMarks(old(tracker[..]), first, i, first + i);
      ok := MarkUnit(tracker, first + i);
      if !ok {
        UnmarkedIs(old(tracker[..]), first, n, i);
        return;
      }
      i := i + 1;
    }
    UnmarkedIs(old(tracker[..]), first, n, n);
    ok := true;
  }
}
