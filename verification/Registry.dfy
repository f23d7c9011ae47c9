/** The list of registered areas. */
module Registry {
  import opened Areas
  import opened Flash
  import opened Geometry

  ghost predicate Apart(g: Layout, h: Layout) {
    g.area + g.areaSize <= h.area || h.area + h.areaSize <= g.area
  }

  // Position of the area whose data range holds addr (its end included), or -1.
  ghost function Owner(areas: seq<Area>, addr: nat): (i: int)
    ensures -1 <= i < |areas|
    ensures i >= 0 ==> areas[i].IsInData(addr)
    ensures i < 0 ==> forall j :: 0 <= j < |areas| ==> !areas[j].IsInData(addr)
  {
    if areas == [] then -1
    else if areas[|areas| - 1].IsInData(addr) then |areas| - 1
    else Owner(areas[..|areas| - 1], addr)
  }

  function Succ(i: nat, n: nat): nat {
    if i + 1 == n then 0 else i + 1
  }

  ghost predicate SeveralNvms(areas: seq<Area>) {
    exists i :: 0 <= i < |areas| && areas[i].g.nvm != areas[0].g.nvm
  }

  ghost predicate Placed(areas: seq<Area>, flash: Device) {
    && (forall i :: 0 <= i < |areas| ==> areas[i].flash == flash && areas[i].g.Valid())
    && (forall i, j :: 0 <= i < j < |areas| ==> areas[i] != areas[j] && Apart(areas[i].g, areas[j].g))
  }

  lemma LastIsOnce(areas: seq<Area>, flash: Device)
    requires Placed(areas, flash)
    ensures forall i :: 0 <= i < |areas| - 1 ==> areas[i] != areas[|areas| - 1]
  {
  }

  lemma OneMorePlaced(areas: seq<Area>, flash: Device, ctx: Area)
    requires Placed(areas, flash) && ctx !in areas && ctx.flash == flash && ctx.g.Valid()
    requires forall i :: 0 <= i < |areas| ==> Apart(areas[i].g, ctx.g)
    ensures Placed(areas + [ctx], flash)
  {
    hide Layout.Valid;
  }

  lemma OneMoreNvm(areas: seq<Area>, ctx: Area)
    ensures areas == [] ==> !SeveralNvms(areas) && !SeveralNvms(areas + [ctx])
    ensures areas != [] ==> (SeveralNvms(areas + [ctx]) <==> SeveralNvms(areas) || ctx.g.nvm != areas[0].g.nvm)
  {
    var more := areas + [ctx];
    assert more[|areas|] == ctx;
    assert forall i :: 0 <= i < |areas| ==> more[i] == areas[i];
  }

  // No two areas claim the same address, not even at the inclusive ends of their data ranges.
  lemma OwnerIsUnique(areas: seq<Area>, addr: nat, i: nat)
    requires forall j :: 0 <= j < |areas| ==> areas[j].g.Valid()
    requires forall j, k :: 0 <= j < k < |areas| ==> Apart(areas[j].g, areas[k].g)
    requires i < |areas| && areas[i].IsInData(addr)
    ensures Owner(areas, addr) == i
  {
    hide Layout.SlotSize;
    var j := Owner(areas, addr);
    SlotHoldsData(areas[i].g);
    SlotHoldsData(areas[j].g);
  }

  class Library {
    const flash: Device
    var firstArea: Area?
    var lastArea: Area?
    var hasSeveralNvms: bool
    ghost var areas: seq<Area>

    // lftl_init_lib
    constructor (flash: Device)
      ensures Linked() && areas == [] && this.flash == flash
    {
      this.flash := flash;
      firstArea := null;
      lastArea := null;
      hasSeveralNvms := false;
      areas := [];
    }

    // The registered areas form a ring in order of registration; they share the memory but no byte of
    // it; and hasSeveralNvms says whether more than one NVM is in use.
    ghost predicate Linked()
      reads this, areas`next
    {
      && Placed(areas, flash)
      && (areas == [] ==> firstArea == null && lastArea == null)
      && (areas != [] ==> firstArea == areas[0] && lastArea == areas[|areas| - 1])
      && (forall i :: 0 <= i < |areas| ==> areas[i].next == areas[Succ(i, |areas|)])
      && hasSeveralNvms == SeveralNvms(areas)
    }

    method RegisterArea(ctx: Area)
      requires Linked() && ctx !in areas && ctx.flash == flash && ctx.g.Valid()
      requires forall i :: 0 <= i < |areas| ==> Apart(areas[i].g, ctx.g)
      modifies this, ctx`next, areas`next
      ensures Linked() && areas == old(areas) + [ctx]
    {
      hide Layout.Valid, Apart, SeveralNvms, Placed;
      OneMoreNvm(areas, ctx);
      OneMorePlaced(areas, flash, ctx);
      LastIsOnce(areas, flash);
      if firstArea == null {
        firstArea := ctx;
      } else {
        lastArea.next := ctx;
        if ctx.g.nvm != firstArea.g.nvm {
          hasSeveralNvms := true;
        }
      }
      lastArea := ctx;
      ctx.next := firstArea;
      ghost var before := areas;
      areas := areas + [ctx];
      forall i | 0 <= i < |areas|
        ensures areas[i].next == areas[Succ(i, |areas|)]
      {
        if i + 1 < |before| {
          assert areas[i] == before[i] && areas[i + 1] == before[i + 1];
        } else if i < |before| {
          assert areas[i] == before[i];
        }
      }
    }

    // get_other_ctx: the area other than ctx whose data range holds addr. The walk ends after one round.
    method GetOtherCtx(ctx: Area, addr: nat) returns (r: Area?)
      requires Linked() && ctx in areas
      ensures !ctx.IsInData(addr) ==>
                r == if Owner(areas, addr) >= 0 then areas[Owner(areas, addr)] else null
      ensures r != null ==> r in areas && r != ctx && r.IsInData(addr)
    {
      hide Layout.Valid, SeveralNvms, Apart, Owner;
      var stop := ctx;
      ghost var start :| 0 <= start < |areas| && areas[start] == ctx;
      ghost var i, steps := start, 0;
      var c := ctx;
      while c.next != stop
        invariant 0 <= i < |areas| && c == areas[i] && 0 <= steps < |areas|
        invariant i == if start + steps < |areas| then start + steps else start + steps - |areas|
        invariant forall k :: 0 <= k < |areas| && Walked(start, steps, k, |areas|) ==> !areas[k].IsInData(addr)
        decreases |areas| - steps
      {
        if c.next == null {
          break;
        }
        c := c.next;
        i := Succ(i, |areas|);
        steps := steps + 1;
        if c.IsInData(addr) {
          OwnerIsUnique(areas, addr, i);
          return c;
        }
      }
      r := null;
    }

    method GetAnyCtx(ctx: Area, addr: nat) returns (r: Area?)
      requires Linked() && ctx in areas
      ensures r == if Owner(areas, addr) >= 0 then areas[Owner(areas, addr)] else null
    {
      if ctx.IsInData(addr) {
        ghost var i :| 0 <= i < |areas| && areas[i] == ctx;
        OwnerIsUnique(areas, addr, i);
        return ctx;
      }
      r := GetOtherCtx(ctx, addr);
    }

    // lftl_get_ctx
    method GetCtx(addr: nat) returns (r: Area?)
      requires Linked() && areas != []
      ensures r == if Owner(areas, addr) >= 0 then areas[Owner(areas, addr)] else null
    {
      r := GetAnyCtx(firstArea, addr);
    }

    // is_in_any_nvm: the area that owns the address; if there is none, some area on the NVM the address
    // lies in; and no area only for addresses outside every NVM.
    method IsInAnyNvm(p: Pointer) returns (r: Area?)
      requires Linked() && areas != []
      ensures p.Ram? ==> r == null
      ensures p.Nvm? && Owner(areas, p.addr) >= 0 ==> r == areas[Owner(areas, p.addr)]
      ensures p.Nvm? && Owner(areas, p.addr) < 0 && r != null ==> r in areas && r.IsInNvm(p)
      ensures r == null ==> forall i :: 0 <= i < |areas| ==> !areas[i].IsInNvm(p)
    {
      hide Layout.Valid, Apart;
      r := null;
      if p.Ram? {
        return;
      }
      r := GetAnyCtx(firstArea, p.addr);
      if r != null {
        return;
      }
      var c := firstArea;
      if c.IsInNvm(p) {
        return c;
      }
      if hasSeveralNvms {
        var stop := c;
        ghost var i := 0;
        while c.next != stop
          invariant 0 <= i < |areas| && c == areas[i]
          invariant forall k :: 0 <= k <= i ==> !areas[k].IsInNvm(p)
          decreases |areas| - i
        {
          if c.next == null {
            break;
          }
          c := c.next;
          i := i + 1;
          if c.IsInNvm(p) {
            return c;
          }
        }
      } else {
        forall k | 0 <= k < |areas|
          ensures !areas[k].IsInNvm(p)
        {
          assert areas[k].g.nvm == areas[0].g.nvm;
        }
      }
    }
  }

  // Position k of a ring of n is one of the first `steps` after start.
  ghost predicate Walked(start: nat, steps: nat, k: nat, n: nat) {
    start < k <= start + steps || start < k + n <= start + steps
  }
}
