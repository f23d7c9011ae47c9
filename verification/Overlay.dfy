/** Data overlaid with writes to disjoint places. */
module Overlay {
  import opened Bytes
  import opened Tracker

  datatype Patch = Patch(at: nat, bytes: seq<byte>) {
    predicate Covers(k: int) {
      at <= k < at + |bytes|
    }
  }

  predicate Inside(p: Patch, n: nat) {
    p.at + |p.bytes| <= n
  }

  predicate AllInside(ps: seq<Patch>, n: nat) {
    forall i :: 0 <= i < |ps| ==> Inside(ps[i], n)
  }

  // d with the patches written to it, first to last.
  function Overlaid(d: seq<byte>, ps: seq<Patch>): (r: seq<byte>)
    requires AllInside(ps, |d|)
    ensures |r| == |d|
    decreases |ps|
  {
    if ps == [] then d
    else Splice(Overlaid(d, ps[..|ps| - 1]), ps[|ps| - 1].at, ps[|ps| - 1].bytes)
  }

  ghost predicate Disjoint(ps: seq<Patch>) {
    forall i, j, k :: 0 <= i < j < |ps| && ps[i].Covers(k) ==> !ps[j].Covers(k)
  }

  // Byte k of d overlaid with disjoint patches is that of the one patch that covers it, if any.
  lemma {:induction false} OverlaidByte(d: seq<byte>, ps: seq<Patch>, k: nat)
    requires AllInside(ps, |d|) && Disjoint(ps) && k < |d|
    ensures forall i :: 0 <= i < |ps| && ps[i].Covers(k) ==> Overlaid(d, ps)[k] == ps[i].bytes[k - ps[i].at]
    ensures (forall i :: 0 <= i < |ps| ==> !ps[i].Covers(k)) ==> Overlaid(d, ps)[k] == d[k]
    decreases |ps|
  {
    if ps != [] {
      OverlaidByte(d, ps[..|ps| - 1], k);
    }
  }

  lemma SamePatches(ps: seq<Patch>, qs: seq<Patch>, i: nat)
    requires multiset(ps) == multiset(qs) && i < |ps|
    ensures exists j :: 0 <= j < |qs| && qs[j] == ps[i]
  {
    assert ps[i] in multiset(qs);
  }

  lemma SameByte(d: seq<byte>, ps: seq<Patch>, qs: seq<Patch>, k: nat)
    requires AllInside(ps, |d|) && AllInside(qs, |d|) && Disjoint(ps) && Disjoint(qs)
    requires multiset(ps) == multiset(qs) && k < |d|
    ensures Overlaid(d, ps)[k] == Overlaid(d, qs)[k]
  {
    hide Overlaid, Disjoint;
    OverlaidByte(d, ps, k);
    OverlaidByte(d, qs, k);
    if i :| 0 <= i < |ps| && ps[i].Covers(k) {
      SamePatches(ps, qs, i);
    } else {
      forall j | 0 <= j < |qs|
        ensures !qs[j].Covers(k)
      {
        SamePatches(qs, ps, j);
      }
    }
  }

  // Writes to disjoint places can be made in any order.
  lemma OrderDoesNotMatter(d: seq<byte>, ps: seq<Patch>, qs: seq<Patch>)
    requires AllInside(ps, |d|) && AllInside(qs, |d|) && Disjoint(ps) && Disjoint(qs)
    requires multiset(ps) == multiset(qs)
    ensures Overlaid(d, ps) == Overlaid(d, qs)
  {
    hide Overlaid, Disjoint, AllInside;
    var x, y := Overlaid(d, ps), Overlaid(d, qs);
    forall k | 0 <= k < |d|
      ensures x[k] == y[k]
    {
      SameByte(d, ps, qs, k);
    }
  }

  // After n units from first on were marked, marking m units from other on is possible exactly when
  // none of them was marked before and the two stretches have no unit in common.
  lemma SecondTouchIsRefused(bits: seq<bv8>, first: nat, n: nat, other: nat, m: nat)
    requires (first + n + 7) / 8 <= |bits|
    ensures NoneMarkedIn(MarkRange(bits, first, n), other, m)
       <==> NoneMarkedIn(bits, other, m) && (n == 0 || m == 0 || first + n <= other || other + m <= first)
  {
    hide Marked, MarkRange;
    var more := MarkRange(bits, first, n);
    forall k: nat
      ensures Marked(more, k) <==> first <= k < first + n || Marked(bits, k)
    {
      RangeMarks(bits, first, n, k);
    }
    if n > 0 && m > 0 && !(first + n <= other || other + m <= first) {
      assert Marked(more, if first <= other then other else first);
    }
  }
}
