/** A reset: everything in RAM is lost, and the application registers its areas again. */
module Restart {
  import Areas
  import opened Contents
  import opened Flash
  import opened Ftl
  import opened Geometry
  import opened Registry
  import opened Ring
  import opened Slots
  import opened Tearing
  import opened Updates

  // What is left of an area's content after a reset.
  function Settled(x: Content): Content {
    x.(staged := NoTransaction)
  }

  function AllSettled(s: seq<Content>): (t: seq<Content>)
    ensures |t| == |s| && forall i :: 0 <= i < |s| ==> t[i] == Settled(s[i])
  {
    seq(|s|, i requires 0 <= i < |s| => Settled(s[i]))
  }

  ghost function LayoutsOf(lib: Library): (l: seq<Layout>)
    reads lib
    ensures |l| == |lib.areas| && forall i :: 0 <= i < |l| ==> l[i] == lib.areas[i].g
  {
    var areas := lib.areas;
    seq(|areas|, i requires 0 <= i < |areas| => areas[i].g)
  }

  // Areas with these layouts lie apart from each other on the chip and can all be recovered from it,
  // to the version and data of s.
  ghost predicate Survives(flash: Device, layouts: seq<Layout>, s: seq<Content>)
    reads flash
  {
    && |s| == |layouts|
    && (forall i, j :: 0 <= i < j < |layouts| ==> Apart(layouts[i], layouts[j]))
    && (forall i :: 0 <= i < |layouts| ==>
          && Ready(layouts[i], flash.chip) && WholeWords(layouts[i], flash.whole)
          && Recovered(layouts[i], flash.chip) == Settled(s[i]))
  }

  lemma PersistsSurvives(lib: Library, s: seq<Content>)
    requires Persists(lib, s)
    ensures Survives(lib.flash, LayoutsOf(lib), s)
  {
    hide Layout.Valid, View, RingAt, WholeWords, Apart, Recovered;
    var l := LayoutsOf(lib);
    forall i, j | 0 <= i < j < |l|
      ensures Apart(l[i], l[j])
    {
      assert lib.areas[i] != lib.areas[j];
    }
  }

  // Between two calls the memory is at any moment in a state a reset recovers from.
  lemma HoldingSurvives(lib: Library, s: seq<Content>)
    requires Valid(lib) && Holding(lib, s)
    ensures Survives(lib.flash, LayoutsOf(lib), s)
  {
    hide Layout.Valid, View, Bystander, Intact, WholeWords, Apart, StagingOk, Newer;
    var l := LayoutsOf(lib);
    forall i, j | 0 <= i < j < |l|
      ensures Apart(l[i], l[j])
    {
      assert lib.areas[i] != lib.areas[j];
    }
    forall i | 0 <= i < |l|
      ensures Ready(l[i], lib.flash.chip) && WholeWords(l[i], lib.flash.whole)
      ensures Recovered(l[i], lib.flash.chip) == Settled(s[i])
    {
      assert lib.areas[i].Ok() && lib.areas[i].flash == lib.flash;
    }
  }

  // The areas were just registered, none of them is resolved yet.
  ghost predicate Fresh(lib: Library, layouts: seq<Layout>, n: nat)
    reads lib, lib.areas
  {
    && lib.Linked() && n <= |layouts| && |lib.areas| == n
    && forall i :: 0 <= i < n ==>
         && lib.areas[i].g == layouts[i] && lib.areas[i].data == Invalid
         && lib.areas[i].tracker == null && lib.areas[i].copied == 0
  }

  lemma Revived(lib: Library, layouts: seq<Layout>, s: seq<Content>)
    requires Fresh(lib, layouts, |layouts|) && Survives(lib.flash, layouts, s)
    ensures Valid(lib) && Holding(lib, AllSettled(s))
  {
    hide Layout.Valid, View, Bystander, Intact, WholeWords, Apart, Current;
    forall a | a in lib.areas
      ensures a.Ok()
    {
      var i :| 0 <= i < |lib.areas| && lib.areas[i] == a;
      assert Ready(layouts[i], lib.flash.chip);
    }
    var t := AllSettled(s);
    forall i | 0 <= i < |t|
      ensures TxOk(lib.areas[i].g, lib.flash.chip, lib.areas[i].Tx())
      ensures t[i] == ContentOf(lib.areas[i].g, lib.flash.chip, lib.areas[i].Tx())
    {
      assert Ready(layouts[i], lib.flash.chip);
    }
  }

  // After a reset in any state a power cut may leave behind, every area holds the version and data that
  // persisted, and no transaction is open.
  method Boot(flash: Device, layouts: seq<Layout>, ghost s: seq<Content>) returns (lib: Library, areas: seq<Areas.Area>)
    requires Survives(flash, layouts, s)
    ensures fresh(lib) && fresh(areas) && lib.flash == flash && lib.areas == areas
    ensures Fresh(lib, layouts, |layouts|)
    ensures Valid(lib) && Holding(lib, AllSettled(s))
  {
    hide Layout.Valid, Ready, WholeWords, Recovered, Valid, Holding, Current, Apart;
    lib := new Library(flash);
    areas := [];
    var k := 0;
    while k < |layouts|
      invariant 0 <= k <= |layouts|
      invariant fresh(lib) && fresh(areas) && lib.flash == flash && lib.areas == areas
      invariant Fresh(lib, layouts, k)
    {
      var ctx := new Areas.Area(layouts[k], flash);
      ReadyLayout(layouts[k], flash.chip);
      lib.RegisterArea(ctx);
      areas := areas + [ctx];
      k := k + 1;
    }
    Revived(lib, layouts, s);
  }

  lemma ReadyLayout(g: Layout, c: Chip)
    requires Ready(g, c)
    ensures g.Valid()
  {
    hide Layout.Valid, View, RingAt;
  }
}
