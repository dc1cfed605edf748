/** The registry as a whole (`struct handle_storage` of skynet_handle.c): slots
    and names change together under one lock.  If names are only given to live
    handles, a name never leads to a handle that is not live. */
module HandleStorage {
  import opened Common
  import HandleRegistry
  import HandleNames

  type Ctx = HandleRegistry.Ctx
  type Name = HandleNames.Name

  class Storage {
    const slots: HandleRegistry.Handles
    const names: HandleNames.NameTable

    ghost predicate Valid()
      reads this, slots, slots.slot, names, names.name
    {
      slots.Valid() && names.Valid()
    }

    /** Every name leads to a live handle. */
    ghost predicate NamesLive()
      reads this, slots, names
    {
      forall n :: n in names.names ==> names.names[n] in slots.live
    }

    constructor (harborId: nat)
      ensures Valid() && NamesLive() && fresh(slots) && fresh(slots.slot) && fresh(names) && fresh(names.name)
      ensures slots.live == map[] && names.names == map[]
    {
      slots := new HandleRegistry.Handles(harborId);
      names := new HandleNames.NameTable();
    }

    /** `skynet_handle_register` */
    method Register(ctx: Ctx) returns (handle: nat)
      requires Valid()
      requires slots.k < 24 || exists j :: 0 <= j < slots.slot.Length && slots.slot[j].Free?
      modifies slots, slots.slot
      ensures Valid() && (slots.slot == old(slots.slot) || fresh(slots.slot))
      ensures handle !in old(slots.live) && slots.live == old(slots.live)[handle := ctx] &&
        names.names == old(names.names)
      ensures old(NamesLive()) ==> NamesLive()
    {
      ghost var x;
      handle, x := slots.Register(ctx);
    }

    /** `skynet_handle_retire`: a live handle goes with all its names; otherwise
        nothing changes, names included. */
    method Retire(handle: nat) returns (ret: bool)
      requires Valid()
      modifies slots, slots.slot, names, names.name
      ensures Valid() && slots.slot == old(slots.slot) && names.name == old(names.name)
      ensures ret == (handle in old(slots.live)) && slots.live == old(slots.live) - {handle}
      ensures names.names ==
        if ret then map n | n in old(names.names) && old(names.names)[n] != handle :: old(names.names)[n]
                             else old(names.names)
      ensures old(NamesLive()) ==> NamesLive()
    {
      ret := slots.Retire(handle);
      if ret { names.Forget(handle); }
    }

    /** `skynet_handle_namehandle` */
    method NameHandle(n: Name, handle: nat) returns (ok: bool)
      requires Valid()
      modifies names, names.name
      ensures Valid() && (names.name == old(names.name) || fresh(names.name))
      ensures ok == (n !in old(names.names)) && names.names == if ok then old(names.names)[n := handle]
        else old(names.names)
      ensures old(NamesLive()) && handle in slots.live ==> NamesLive()
    {
      ok := names.NameHandle(n, handle);
    }

    /** `skynet_handle_findname`, then `skynet_handle_grab`: a name finds the
        context it was given to, as long as that is live. */
    method GrabByName(n: Name) returns (result: Opt<Ctx>)
      requires Valid() && n in names.names
      ensures var h := names.names[n]; result == if h in slots.live then Some(slots.live[h]) else None
      ensures NamesLive() ==> result.Some?
    {
      var handle := names.FindName(n);
      result := slots.Grab(handle);
    }
  }
}
