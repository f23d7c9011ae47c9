/** What the registered areas hold, as their user sees it. */
module Contents {
  import opened Areas
  import opened Bytes
  import opened Flash
  import opened Ftl
  import opened Geometry
  import opened Registry
  import opened Ring
  import opened Slots
  import opened Tearing
  import opened Updates

  datatype Staged = NoTransaction | Newest(data: seq<byte>)

  // The version and data of an area that survive a power cut, and the data its open transaction, if
  // any, has assembled so far.
  datatype Content = Content(version: nat, data: seq<byte>, staged: Staged)

  ghost function ContentOf(g: Layout, c: Chip, tx: Tracking): Content
    requires Ready(g, c)
  {
    var v := View(g, c.mem);
    Content(Version(v), Committed(v), if tx.Closed? then NoTransaction else Newest(Newer(g, c.mem, tx.marks)))
  }

  // The staging area of an open transaction is in order.
  ghost predicate TxOk(g: Layout, c: Chip, tx: Tracking) {
    Ready(g, c) && (tx.Open? ==> StagingOk(g, c, Next(View(g, c.mem)), tx.marks))
  }

  lemma SameContent(g: Layout, c: Chip, d: Chip, tx: Tracking)
    requires TxOk(g, c, tx) && Same(g, c, d)
    ensures TxOk(g, d, tx) && ContentOf(g, d, tx) == ContentOf(g, c, tx)
  {
    hide View, RingAt, StagingOk, Newer;
    SameParts(g, c, d);
    if tx.Open? {
      SameStaging(g, c, d, tx.marks);
    }
  }

  // Area number i holds s[i], transactions included.
  ghost predicate Holding(lib: Library, s: seq<Content>)
    reads lib, lib.areas`tracker, lib.areas`copied, lib.flash, set a | a in lib.areas :: a.tracker
  {
    && |s| == |lib.areas|
    && forall i :: 0 <= i < |s| ==>
         && TxOk(lib.areas[i].g, lib.flash.chip, lib.areas[i].Tx())
         && s[i] == ContentOf(lib.areas[i].g, lib.flash.chip, lib.areas[i].Tx())
  }

  // Area number i can be recovered from memory, and will then be at the version and data of s[i].
  ghost predicate Persists(lib: Library, s: seq<Content>)
    reads lib, lib.areas`next, lib.flash
  {
    && lib.Linked()
    && |s| == |lib.areas|
    && forall i :: 0 <= i < |s| ==>
         && WholeWords(lib.areas[i].g, lib.flash.whole)
         && Ready(lib.areas[i].g, lib.flash.chip)
         && Recovered(lib.areas[i].g, lib.flash.chip) == s[i].(staged := NoTransaction)
  }

  ghost function Recovered(g: Layout, c: Chip): Content
    requires Ready(g, c)
  {
    ContentOf(g, c, Closed)
  }

  // All areas but number i held s when the memory was c.
  ghost predicate HeldExcept(lib: Library, s: seq<Content>, c: Chip, i: nat)
    reads lib, lib.areas`tracker, lib.areas`copied, set a | a in lib.areas :: a.tracker
  {
    && |s| == |lib.areas|
    && forall j :: 0 <= j < |s| && j != i ==>
         && TxOk(lib.areas[j].g, c, lib.areas[j].Tx())
         && s[j] == ContentOf(lib.areas[j].g, c, lib.areas[j].Tx())
  }

  // The state of all areas after area i alone changed.
  lemma HoldingAfter(lib: Library, s: seq<Content>, i: nat, c: Chip)
    requires HeldExcept(lib, s, c, i) && i < |s|
    requires forall j :: 0 <= j < |s| && j != i ==> Same(lib.areas[j].g, c, lib.flash.chip)
    requires TxOk(lib.areas[i].g, lib.flash.chip, lib.areas[i].Tx())
    ensures Holding(lib, s[i := ContentOf(lib.areas[i].g, lib.flash.chip, lib.areas[i].Tx())])
  {
    hide Same, StagingOk, ContentOf, RingOk;
    forall j | 0 <= j < |s| && j != i
      ensures TxOk(lib.areas[j].g, lib.flash.chip, lib.areas[j].Tx())
      ensures s[j] == ContentOf(lib.areas[j].g, lib.flash.chip, lib.areas[j].Tx())
    {
      SameContent(lib.areas[j].g, c, lib.flash.chip, lib.areas[j].Tx());
    }
  }

  // All areas held s when the memory was c.
  ghost predicate Held(lib: Library, s: seq<Content>, c: Chip)
    reads lib, lib.areas`tracker, lib.areas`copied, set a | a in lib.areas :: a.tracker
  {
    && |s| == |lib.areas|
    && forall j :: 0 <= j < |s| ==>
         && TxOk(lib.areas[j].g, c, lib.areas[j].Tx())
         && s[j] == ContentOf(lib.areas[j].g, c, lib.areas[j].Tx())
  }

  lemma AllTrans(lib: Library, x: Area, c: Chip, mid: Chip, i: nat)
    requires Around(lib, x, c, mid) && i < |lib.areas| && x == lib.areas[i]
    ensures forall j :: 0 <= j < |lib.areas| && j != i ==> Same(lib.areas[j].g, c, lib.flash.chip)
    ensures mid == lib.flash.chip ==> forall j :: 0 <= j < |lib.areas| ==> Same(lib.areas[j].g, c, lib.flash.chip)
  {
    hide Same, Layout.Valid, Area.Ok, WholeWords;
    forall j | 0 <= j < |lib.areas| && j != i
      ensures Same(lib.areas[j].g, c, lib.flash.chip)
    {
      assert lib.areas[j] != x;
      SameTrans(lib.areas[j].g, c, mid, lib.flash.chip);
    }
  }

  // Searching for slots changes nothing the user can see, and nothing that survives a power cut.
  lemma HoldingSame(lib: Library, s: seq<Content>, x: Area, i: nat, c: Chip)
    requires Held(lib, s, c) && Around(lib, x, c, lib.flash.chip) && i < |lib.areas| && x == lib.areas[i]
    ensures Holding(lib, s) && Persists(lib, s)
  {
    hide Same, StagingOk, RingAt, View, WholeWords, Layout.Valid, Area.Ok, Newer;
    AllTrans(lib, x, c, lib.flash.chip, i);
    forall j | 0 <= j < |s|
      ensures TxOk(lib.areas[j].g, lib.flash.chip, lib.areas[j].Tx())
      ensures s[j] == ContentOf(lib.areas[j].g, lib.flash.chip, lib.areas[j].Tx())
      ensures WholeWords(lib.areas[j].g, lib.flash.whole)
      ensures Recovered(lib.areas[j].g, lib.flash.chip) == s[j].(staged := NoTransaction)
    {
      SameContent(lib.areas[j].g, c, lib.flash.chip, lib.areas[j].Tx());
    }
  }

  lemma PersistsOthers(lib: Library, s: seq<Content>, x: Area, i: nat, c: Chip, mid: Chip)
    requires HeldExcept(lib, s, c, i) && Around(lib, x, c, mid) && i < |lib.areas| && x == lib.areas[i]
    requires Ready(x.g, lib.flash.chip)
    ensures Persists(lib, s[i := Recovered(x.g, lib.flash.chip)])
  {
    hide Same, StagingOk, RingAt, View, WholeWords, Layout.Valid, Area.Ok;
    AllTrans(lib, x, c, mid, i);
    var t := s[i := Recovered(x.g, lib.flash.chip)];
    forall j | 0 <= j < |t|
      ensures Ready(lib.areas[j].g, lib.flash.chip)
      ensures WholeWords(lib.areas[j].g, lib.flash.whole)
      ensures Recovered(lib.areas[j].g, lib.flash.chip) == t[j].(staged := NoTransaction)
    {
      assert lib.areas[j] in lib.areas;
      if j != i {
        SameParts(lib.areas[j].g, c, lib.flash.chip);
      }
    }
  }

  // The bytes a source stands for, in terms of what the areas hold.
  ghost function SourceContent(areas: seq<Area>, s: seq<Content>, m: seq<byte>, src: Pointer, size: nat): seq<byte> {
    if src.Nvm? && Owner(areas, src.addr) >= 0 then
      var j := Owner(areas, src.addr);
      var off := src.addr - areas[j].g.area;
      if j < |s| && off + size <= |s[j].data| then s[j].data[off..off + size] else []
    else if src.Readable(m, size) then src.Read(m, size)
    else []
  }

  // data with the bytes b written at logical address dst.
  ghost function WrittenTo(g: Layout, data: seq<byte>, dst: nat, b: seq<byte>): seq<byte> {
    if g.area <= dst && dst - g.area + |b| <= |data| then Splice(data, dst - g.area, b) else data
  }

  lemma ImageIsWritten(lib: Library, s: seq<Content>, c: Chip, i: nat, dst: nat, src: Pointer, size: nat)
    requires Held(lib, s, c) && i < |s|
    requires Writable(lib.areas, lib.areas[i].g, c, dst, src, size)
    ensures Image(lib.areas, lib.areas[i].g, c, dst, src, size)
         == WrittenTo(lib.areas[i].g, s[i].data, dst, SourceContent(lib.areas, s, c.mem, src, size))
    ensures |SourceContent(lib.areas, s, c.mem, src, size)| == size
  {
    hide StagingOk, RingOk, View, Splice;
    CommittedLength(lib.areas[i].g, c);
    if src.Nvm? && Owner(lib.areas, src.addr) >= 0 {
      CommittedLength(lib.areas[Owner(lib.areas, src.addr)].g, c);
    }
  }
}
