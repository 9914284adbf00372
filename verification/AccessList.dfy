/** The access list of a transaction (pkg/core/statedb/access_list.go): addresses and storage slots. */
module AccessLists {
  import opened Wrappers

  type Address = a: seq<Byte> | |a| == 20 witness seq(20, i => 0)
  type Hash = h: seq<Byte> | |h| == 32 witness seq(32, i => 0)

  ghost predicate ListOk(addresses: map<Address, int>, slots: seq<set<Hash>>) {
    && (forall a :: a in addresses ==> -1 <= addresses[a] < |slots|)
    && (forall a, b :: a in addresses && b in addresses && a != b && addresses[a] >= 0 ==> addresses[a] != addresses[b])
  }

  /** The listed pairs of address and slot. */
  ghost function PairsOf(addresses: map<Address, int>, slots: seq<set<Hash>>): iset<(Address, Hash)> {
    iset a: Address, s: Hash | a in addresses && 0 <= addresses[a] < |slots| && s in slots[addresses[a]] :: (a, s)
  }

  /** The first slot of an address opens a set of its own. */
  lemma FirstSlot(addresses: map<Address, int>, slots: seq<set<Hash>>, a: Address, s: Hash)
    requires ListOk(addresses, slots) && (a in addresses ==> addresses[a] == -1)
    ensures ListOk(addresses[a := |slots|], slots + [{s}])
    ensures PairsOf(addresses[a := |slots|], slots + [{s}]) == PairsOf(addresses, slots) + iset{(a, s)}
  {
  }

  /** A further slot goes to the set of its address, which no other address uses. */
  lemma NextSlot(addresses: map<Address, int>, slots: seq<set<Hash>>, a: Address, s: Hash)
    requires ListOk(addresses, slots) && a in addresses && addresses[a] >= 0
    ensures var slots' := slots[addresses[a] := slots[addresses[a]] + {s}];
      ListOk(addresses, slots') && PairsOf(addresses, slots') == PairsOf(addresses, slots) + iset{(a, s)}
  {
  }

  class AccessList {
    /** The index into `slots`, or -1 for an address without slots. */
    var addresses: map<Address, int>
    var slots: seq<set<Hash>>

    ghost predicate Valid()
      reads this
    {
      ListOk(addresses, slots)
    }

    ghost function Pairs(): iset<(Address, Hash)>
      reads this
    {
      PairsOf(addresses, slots)
    }

    constructor ()
      ensures Valid() && addresses == map[] && addresses.Keys == {} && Pairs() == iset{}
    {
      addresses, slots := map[], [];
    }

    method Contains(address: Address, slot: Hash) returns (addressPresent: bool, slotPresent: bool)
      requires Valid()
      ensures addressPresent == (address in addresses) && slotPresent == ((address, slot) in Pairs())
      ensures slotPresent ==> addressPresent
    {
      if address !in addresses {
        return false, false;
      }
      var idx := addresses[address];
      if idx == -1 {
        return true, false;
      }
      return true, slot in slots[idx];
    }

    /** A list of its own: later changes of one do not show in the other. */
    method Copy() returns (cp: AccessList)
      requires Valid()
      ensures fresh(cp) && cp.Valid() && cp.addresses == addresses && cp.Pairs() == Pairs()
    {
      cp := new AccessList();
      cp.addresses, cp.slots := addresses, slots;
    }

    method AddAddress(address: Address) returns (changed: bool)
      requires Valid()
      modifies this
      ensures Valid() && addresses.Keys == old(addresses.Keys) + {address} && Pairs() == old(Pairs())
      ensures changed == (address !in old(addresses))
    {
      if address in addresses {
        return false;
      }
      addresses := addresses[address := -1];
      changed := true;
    }

    method AddSlot(address: Address, slot: Hash) returns (addrChange: bool, slotChange: bool)
      requires Valid()
      modifies this
      ensures Valid() && addresses.Keys == old(addresses.Keys) + {address}
      ensures Pairs() == old(Pairs()) + iset{(address, slot)}
      ensures addrChange == (address !in old(addresses)) && slotChange == ((address, slot) !in old(Pairs()))
    {
      if address !in addresses || addresses[address] == -1 {
        addrChange, slotChange := address !in addresses, true;
        FirstSlot(addresses, slots, address, slot);
        addresses := addresses[address := |slots|];
        slots := slots + [{slot}];
        return;
      }
      var idx := addresses[address];
      if slot !in slots[idx] {
        NextSlot(addresses, slots, address, slot);
        slots := slots[idx := slots[idx] + {slot}];
        return false, true;
      }
      return false, false;
    }
  }
}
