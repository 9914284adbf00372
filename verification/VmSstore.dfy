/**
 Gas and refunds of SSTORE (pkg/vm/operations_acl.go, makeGasSStoreFunc, and opSstore in
 pkg/vm/instructions.go) over the state of a transaction: net metering as in EIP-2200, with the
 access list of EIP-2929 and either clearing refund (EIP-2200 or EIP-3529).
 */
module VmSstore {
  import opened Wrappers
  import opened Storage
  import opened MemStore
  import opened AccessLists
  import opened StateDb

  const Sentry: nat := 2300
  const Set: nat := 20000
  const Reset: nat := 5000
  const ColdSload: nat := 2100
  const WarmRead: nat := 100
  const ResetWarm: nat := 2900 // Reset less ColdSload

  datatype SStoreError = NotEnoughGas | AddressNotListed | OutOfGas | WriteProtection

  // ---- one store ----

  /** What EIP-2200 and EIP-2929 charge for a store, apart from a cold slot. */
  function WarmCost(original: Hash, current: Hash, value: Hash): nat {
    if current == value || original != current then WarmRead
    else if original == ZeroHash() then Set
    else ResetWarm
  }

  /** What EIP-2200 adds to the refund counter. */
  function RefundChange(original: Hash, current: Hash, value: Hash, clearing: nat): int {
    if current == value then 0
    else
      -(if original != ZeroHash() && current == ZeroHash() then clearing else 0)
      + (if original != ZeroHash() && value == ZeroHash() then clearing else 0)
      + (if original != current && original == value then
          (if original == ZeroHash() then Set - WarmRead else ResetWarm - WarmRead)
        else 0)
  }

  /** What a slot that went from `original` to `current` has cost beyond the reads. */
  function Potential(original: Hash, current: Hash, clearing: nat): int {
    if original == current then 0
    else if original == ZeroHash() then Set - WarmRead
    else ResetWarm - WarmRead - (if current == ZeroHash() then clearing else 0)
  }

  /** Net metering: what a store costs beyond a read depends only on where the slot was and where it goes. */
  lemma NetMetering(original: Hash, current: Hash, value: Hash, clearing: nat)
    ensures WarmCost(original, current, value) - RefundChange(original, current, value, clearing)
      == WarmRead + Potential(original, value, clearing) - Potential(original, current, clearing)
  {
  }

  /** Cost less refunds of storing these values one after the other. */
  function NetCost(original: Hash, current: Hash, values: seq<Hash>, clearing: nat): int
    decreases |values|
  {
    if values == [] then 0
    else
      WarmCost(original, current, values[0]) - RefundChange(original, current, values[0], clearing)
      + NetCost(original, values[0], values[1..], clearing)
  }

  /** However often a slot is written, only its first and last value and the number of stores count. */
  lemma {:induction false} NetCostTelescopes(original: Hash, current: Hash, values: seq<Hash>, clearing: nat)
    ensures NetCost(original, current, values, clearing) ==
      WarmRead * |values| + Potential(original, if values == [] then current else values[|values| - 1], clearing)
      - Potential(original, current, clearing)
    decreases |values|
  {
    if values != [] {
      NetMetering(original, current, values[0], clearing);
      NetCostTelescopes(original, values[0], values[1..], clearing);
    }
  }

  // ---- the same in numbers ----

  /**
   What a store takes and what it adds to the counter. A slot that is still as it was before the transaction
   is clean: creating it takes 20000, changing or clearing it 2900. Any other store takes 100. Clearing a slot
   that held a value adds the refund for it, filling it again takes that back, and putting back what was
   there at first adds what had been paid beyond 100.
   */
  ghost predicate Metered(original: Hash, current: Hash, value: Hash, clearing: nat, cost: int, change: int) {
    var zero := ZeroHash();
    && (current == value ==> cost == 100 && change == 0)
    && (current != value && original == current && original == zero ==> cost == 20000 && change == 0)
    && (current != value && original == current && original != zero && value != zero ==> cost == 2900 && change == 0)
    && (current != value && original == current && original != zero && value == zero ==> cost == 2900 && change == clearing)
    && (current != value && original != current ==> cost == 100)
    && (current != value && original != current && original == zero ==> change == if value == zero then 19900 else 0)
    && (current != value && original != current && original != zero && current == zero ==>
        change == (if value == original then 2800 else 0) - clearing)
    && (current != value && original != current && original != zero && current != zero ==>
        change == (if value == zero then clearing else 0) + (if value == original then 2800 else 0))
  }

  lemma {:induction false} PricesInNumbers(original: Hash, current: Hash, value: Hash, clearing: nat)
    ensures Metered(original, current, value, clearing,
      WarmCost(original, current, value), RefundChange(original, current, value, clearing))
  {
  }

  /** The gas and the refund of a number of stores to one slot. */
  function GasOf(original: Hash, current: Hash, values: seq<Hash>): nat
    decreases |values|
  {
    if values == [] then 0 else WarmCost(original, current, values[0]) + GasOf(original, values[0], values[1..])
  }

  function RefundOf(original: Hash, current: Hash, values: seq<Hash>, clearing: nat): int
    decreases |values|
  {
    if values == [] then 0
    else RefundChange(original, current, values[0], clearing) + RefundOf(original, values[0], values[1..], clearing)
  }

  lemma {:induction false} NetIsGasLessRefund(original: Hash, current: Hash, values: seq<Hash>, clearing: nat)
    ensures NetCost(original, current, values, clearing) == GasOf(original, current, values) - RefundOf(original, current, values, clearing)
    decreases |values|
  {
    if values != [] { NetIsGasLessRefund(original, values[0], values[1..], clearing); }
  }

  /**
   However a clean slot is written, in the end a slot that is as before has cost 100 for every store, one that
   was created 19900 more, and one that was changed 2800 more, less the refund for clearing if it is empty.
   */
  lemma {:induction false} StoresInNumbers(original: Hash, values: seq<Hash>, clearing: nat)
    requires values != []
    ensures var last := values[|values| - 1];
      GasOf(original, original, values) - RefundOf(original, original, values, clearing) == 100 * |values|
        + if last == original then 0
          else if original == ZeroHash() then 19900
          else if last == ZeroHash() then 2800 - clearing
          else 2800
  {
    NetCostTelescopes(original, original, values, clearing);
    NetIsGasLessRefund(original, original, values, clearing);
  }

  /** No access list was replaced. */
  ghost predicate SameObjects(db: StateDB, list: AccessList, repr: set<object>)
    requires db.snapshot < |db.memStores|
    reads db, db.CurrentStore()
  {
    db.CurrentStore().accesslist == list && db.CurrentStore().repr == repr
  }

  /** The gas function: charges, lists the slot and adjusts the refund counter of the current layer. */
  method GasSStore(db: StateDB, gas: nat, address: Address, slot: Hash, value: Hash, clearing: nat)
    returns (r: Result<nat, SStoreError>)
    requires db.Valid()
    modifies db.CurrentStore(), db.CurrentStore().store, db.CurrentStore().accesslist
    ensures db.Valid() && SameObjects(db, old(db.CurrentStore().accesslist), old(db.CurrentStore().repr))
    ensures r.Err? <==> gas <= Sentry || address !in old(db.Current()).addresses
    ensures gas <= Sentry <==> r == Err(NotEnoughGas)
    ensures gas <= Sentry ==> db.States() == old(db.States())
    ensures r.Ok? ==> IsCharged(old(db.States()), db.States(), address, slot, value, clearing, r.value)
    ensures r == Err(AddressNotListed) ==> db.States() == After(old(db.States()), AddSlot(address, slot))
    ensures gas > Sentry && r.Err? ==> r.error == AddressNotListed
    ensures db.States() == Replaced(old(db.States()), db.Current())
  {
    hide WarmCost, RefundChange, Metered, StateAt, IsCharged;
    if gas <= Sentry {
      return Err(NotEnoughGas);
    }
    var current := db.GetState(address, slot);
    var cost, listed := TouchSlot(db, address, slot);
    if !listed {
      return Err(AddressNotListed);
    }
    var warm := MeterListed(db, address, slot, current, value, clearing, old(db.States()));
    return Ok(cost + warm);
  }

  /** The rest of the charge, once the slot is listed. */
  method MeterListed(db: StateDB, address: Address, slot: Hash, current: Hash, value: Hash, clearing: nat, ghost was: seq<Plain>)
    returns (warm: nat)
    requires db.Valid() && was != [] && db.States() == After(was, AddSlot(address, slot))
    requires current == StateAt(was[|was| - 1].storage, address, slot)
    modifies db.CurrentStore(), db.CurrentStore().store, db.CurrentStore().accesslist
    ensures db.Valid() && SameObjects(db, old(db.CurrentStore().accesslist), old(db.CurrentStore().repr))
    ensures IsCharged(was, db.States(), address, slot, value, clearing,
      warm + if (address, slot) in was[|was| - 1].slots then 0 else ColdSload)
    ensures db.States() == Replaced(was, db.Current())
  {
    hide WarmCost, RefundChange, Metered, StateAt, IsCharged;
    ListedStorage(was, address, slot);
    warm := Meter(db, address, slot, current, value, clearing);
    ChargedIs(was, address, slot, value, clearing);
  }

  lemma ListedStorage(states: seq<Plain>, address: Address, slot: Hash)
    requires states != []
    ensures var listed := After(states, AddSlot(address, slot));
      listed[0].storage == states[0].storage && listed[|states| - 1].storage == states[|states| - 1].storage
  {
  }

  /** The slot is listed, and gas and counter are as metered, with 2100 more for a slot that was not listed. */
  ghost predicate IsCharged(was: seq<Plain>, now: seq<Plain>, address: Address, slot: Hash, value: Hash, clearing: nat, gas: int) {
    && was != []
    && var p := was[|was| - 1];
      var original, current := StateAt(was[0].storage, address, slot), StateAt(p.storage, address, slot);
      var change := RefundChange(original, current, value, clearing);
      && now == Replaced(was, Charged(p, address, slot, change)) && gas == StoreCost(was, address, slot, value)
      && Metered(original, current, value, clearing, gas - (if (address, slot) in p.slots then 0 else 2100), change)
  }

  lemma ChargedIs(states: seq<Plain>, address: Address, slot: Hash, value: Hash, clearing: nat)
    requires states != []
    ensures var listed, p := After(states, AddSlot(address, slot)), states[|states| - 1];
      var original, current := StateAt(states[0].storage, address, slot), StateAt(p.storage, address, slot);
      IsCharged(states, Replaced(listed, Refunded(listed[|states| - 1], RefundChange(original, current, value, clearing))),
        address, slot, value, clearing,
        WarmCost(original, current, value) + if (address, slot) in p.slots then 0 else ColdSload)
  {
    hide StateAt, WarmCost, RefundChange;
    PricesInNumbers(StateAt(states[0].storage, address, slot), StateAt(states[|states| - 1].storage, address, slot), value, clearing);
  }

  /** A slot that is not in the access list is cold; it is listed, which needs its address listed before. */
  method TouchSlot(db: StateDB, address: Address, slot: Hash) returns (cost: nat, listed: bool)
    requires db.Valid()
    modifies db.CurrentStore(), db.CurrentStore().store, db.CurrentStore().accesslist
    ensures db.Valid() && SameObjects(db, old(db.CurrentStore().accesslist), old(db.CurrentStore().repr))
    ensures listed <==> address in old(db.Current()).addresses
    ensures cost == if (address, slot) in old(db.Current()).slots then 0 else ColdSload
    ensures db.States() == After(old(db.States()), AddSlot(address, slot))
  {
    var addrPresent, slotPresent := db.SlotInAccessList(address, slot);
    if slotPresent {
      ListedAlready(db.Current(), address, slot);
      return 0, true;
    }
    db.Apply(AddSlot(address, slot));
    return ColdSload, addrPresent;
  }

  lemma ListedAlready(p: Plain, address: Address, slot: Hash)
    requires address in p.addresses
    ensures (address, slot) in p.slots ==> Effect(p, AddSlot(address, slot)) == p
  {
  }

  /** The cost of a store to a slot that is listed, and the change of the refund counter. */
  method Meter(db: StateDB, address: Address, slot: Hash, current: Hash, value: Hash, clearing: nat) returns (cost: nat)
    requires db.Valid() && current == StateAt(db.Current().storage, address, slot)
    modifies db.CurrentStore(), db.CurrentStore().store, db.CurrentStore().accesslist
    ensures db.Valid() && SameObjects(db, old(db.CurrentStore().accesslist), old(db.CurrentStore().repr))
    ensures var original := StateAt(old(db.States())[0].storage, address, slot);
      && cost == WarmCost(original, current, value)
      && db.States() == Replaced(old(db.States()), Refunded(old(db.Current()), RefundChange(original, current, value, clearing)))
  {
    if current == value {
      return WarmRead;
    }
    var original := db.GetCommittedState(address, slot);
    if original == current {
      if original == ZeroHash() {
        return Set;
      }
      if value == ZeroHash() {
        db.Apply(AddRefund(clearing));
      }
      return Reset - ColdSload;
    }
    DirtyRefund(db, original, current, value, clearing);
    return WarmRead;
  }

  method DirtyRefund(db: StateDB, original: Hash, current: Hash, value: Hash, clearing: nat)
    requires db.Valid() && original != current && current != value
    modifies db.CurrentStore(), db.CurrentStore().store, db.CurrentStore().accesslist
    ensures db.Valid() && SameObjects(db, old(db.CurrentStore().accesslist), old(db.CurrentStore().repr))
    ensures db.States() == Replaced(old(db.States()), Refunded(old(db.Current()), RefundChange(original, current, value, clearing)))
  {
    ghost var was := db.States();
    ClearingRefund(db, original, current, value, clearing);
    RestoringRefund(db, original, value);
    RefundTwice(was, ClearingChange(original, current, value, clearing), RestoringChange(original, value));
  }

  /** Taking a refund for clearing back, or giving one. */
  function ClearingChange(original: Hash, current: Hash, value: Hash, clearing: nat): int {
    if original == ZeroHash() then 0
    else if current == ZeroHash() then 0 - clearing
    else if value == ZeroHash() then clearing
    else 0
  }

  function RestoringChange(original: Hash, value: Hash): int {
    if original != value then 0 else if original == ZeroHash() then Set - WarmRead else ResetWarm - WarmRead
  }

  lemma RefundTwice(states: seq<Plain>, a: int, b: int)
    requires states != []
    ensures var once := Replaced(states, Refunded(states[|states| - 1], a));
      Replaced(once, Refunded(once[|once| - 1], b)) == Replaced(states, Refunded(states[|states| - 1], a + b))
  {
  }

  method ClearingRefund(db: StateDB, original: Hash, current: Hash, value: Hash, clearing: nat)
    requires db.Valid()
    modifies db.CurrentStore(), db.CurrentStore().store, db.CurrentStore().accesslist
    ensures db.Valid() && SameObjects(db, old(db.CurrentStore().accesslist), old(db.CurrentStore().repr))
    ensures db.States() == Replaced(old(db.States()), Refunded(old(db.Current()), ClearingChange(original, current, value, clearing)))
  {
    if original != ZeroHash() {
      if current == ZeroHash() {
        db.Apply(SubRefund(clearing));
      } else if value == ZeroHash() {
        db.Apply(AddRefund(clearing));
      }
    }
  }

  method RestoringRefund(db: StateDB, original: Hash, value: Hash)
    requires db.Valid()
    modifies db.CurrentStore(), db.CurrentStore().store, db.CurrentStore().accesslist
    ensures db.Valid() && SameObjects(db, old(db.CurrentStore().accesslist), old(db.CurrentStore().repr))
    ensures db.States() == Replaced(old(db.States()), Refunded(old(db.Current()), RestoringChange(original, value)))
  {
    if original == value {
      if original == ZeroHash() {
        db.Apply(AddRefund(Set - WarmRead));
      } else {
        db.Apply(AddRefund((Reset - ColdSload) - WarmRead));
      }
    }
  }

  function Refunded(p: Plain, change: int): Plain {
    p.(refund := p.refund + change)
  }

  /** The state after listing the slot and adjusting the counter. */
  function Charged(p: Plain, address: Address, slot: Hash, change: int): Plain {
    p.(addresses := p.addresses + {address}, slots := p.slots + iset{(address, slot)}, refund := p.refund + change)
  }

  function Replaced(states: seq<Plain>, p: Plain): seq<Plain>
    requires states != []
  {
    states[|states| - 1 := p]
  }

  /** What a store costs: by its values as EIP-2200 says, and more when the slot is cold. */
  ghost function StoreCost(states: seq<Plain>, address: Address, slot: Hash, value: Hash): nat
    requires states != []
  {
    var p := states[|states| - 1];
    WarmCost(StateAt(states[0].storage, address, slot), StateAt(p.storage, address, slot), value)
    + if (address, slot) in p.slots then 0 else ColdSload
  }

  /**
   The state after a store: the slot holds the value and is listed, everything else is as before, and gas and
   counter are as metered, with 2100 more for a slot that was not listed.
   */
  ghost predicate IsStored(was: seq<Plain>, now: seq<Plain>, address: Address, slot: Hash, value: Hash, clearing: nat, gas: int) {
    && 0 < |was| == |now| && now[..|was| - 1] == was[..|was| - 1]
    && var p, q := was[|was| - 1], now[|now| - 1];
      && q == p.(storage := q.storage, slots := q.slots, addresses := q.addresses, refund := q.refund)
      && q.storage == p.storage[StorageKey(address, slot) := value]
      && q.slots == p.slots + iset{(address, slot)} && q.addresses == p.addresses + {address}
      && Metered(StateAt(was[0].storage, address, slot), StateAt(p.storage, address, slot), value, clearing,
          gas - (if (address, slot) in p.slots then 0 else 2100), q.refund - p.refund)
  }

  lemma {:induction false} StoredInNumbers(states: seq<Plain>, address: Address, slot: Hash, value: Hash, clearing: nat)
    requires states != []
    ensures IsStored(states, Stored(states, address, slot, value, clearing), address, slot, value, clearing,
      StoreCost(states, address, slot, value))
    ensures StoreCost(states, address, slot, value) >= 100
  {
    var p := states[|states| - 1];
    PricesInNumbers(StateAt(states[0].storage, address, slot), StateAt(p.storage, address, slot), value, clearing);
  }

  /** A slot that is set and cleared again in one transaction: 20100 gas, of which 19900 come back. */
  lemma {:induction false} SetAndCleared(states: seq<Plain>, address: Address, slot: Hash, value: Hash, clearing: nat)
    requires |states| > 1 && value != ZeroHash()
    requires StateAt(states[0].storage, address, slot) == ZeroHash() == StateAt(states[|states| - 1].storage, address, slot)
    requires (address, slot) in states[|states| - 1].slots
    ensures var filled := Stored(states, address, slot, value, clearing);
      var cleared := Stored(filled, address, slot, ZeroHash(), clearing);
      && StateAt(filled[|filled| - 1].storage, address, slot) == value
      && StateAt(cleared[|cleared| - 1].storage, address, slot) == ZeroHash()
      && StoreCost(states, address, slot, value) + StoreCost(filled, address, slot, ZeroHash()) == 20100
      && cleared[|cleared| - 1].refund == states[|states| - 1].refund + 19900
  {
  }

  /** The whole instruction: the gas is charged, and then the value is stored. */
  method SStore(db: StateDB, gas: nat, address: Address, slot: Hash, value: Hash, readOnly: bool, clearing: nat)
    returns (left: Result<nat, SStoreError>)
    requires db.Valid()
    modifies db.CurrentStore(), db.CurrentStore().store, db.CurrentStore().accesslist
    ensures db.Valid() && SameObjects(db, old(db.CurrentStore().accesslist), old(db.CurrentStore().repr))
    ensures left.Err? ==> db.States() == Replaced(old(db.States()), db.Current())
    ensures left.Ok? ==> db.States() == Stored(old(db.States()), address, slot, value, clearing)
    ensures left.Ok? ==> IsStored(old(db.States()), db.States(), address, slot, value, clearing, gas - left.value)
    ensures left.Ok? <==>
      && gas > 2300 && address in old(db.Current()).addresses && !readOnly
      && StoreCost(old(db.States()), address, slot, value) <= gas
    ensures left == Err(NotEnoughGas) <==> gas <= 2300
    ensures left == Err(AddressNotListed) <==> gas > 2300 && address !in old(db.Current()).addresses
    ensures left == Err(OutOfGas) <==>
      gas > 2300 && address in old(db.Current()).addresses && gas < StoreCost(old(db.States()), address, slot, value)
  {
    ghost var was := db.States();
    var cost := GasSStore(db, gas, address, slot, value, clearing);
    if cost.Err? {
      return Err(cost.error);
    }
    if gas < cost.value {
      return Err(OutOfGas);
    }
    if readOnly {
      return Err(WriteProtection);
    }
    StoredIs(was, address, slot, value, clearing);
    StoredInNumbers(was, address, slot, value, clearing);
    db.SetState(address, slot, value);
    return Ok(gas - cost.value);
  }

  lemma StoredIs(states: seq<Plain>, address: Address, slot: Hash, value: Hash, clearing: nat)
    requires states != []
    ensures var p := states[|states| - 1];
      var original, current := StateAt(states[0].storage, address, slot), StateAt(p.storage, address, slot);
      var charged := Charged(p, address, slot, RefundChange(original, current, value, clearing));
      After(Replaced(states, charged), PutItem(StorageKey(address, slot), value)) == Stored(states, address, slot, value, clearing)
  {
  }

  /** The states after a store in the current layer. */
  function Stored(states: seq<Plain>, address: Address, slot: Hash, value: Hash, clearing: nat): seq<Plain>
    requires states != []
  {
    var p := states[|states| - 1];
    var original, current := StateAt(states[0].storage, address, slot), StateAt(p.storage, address, slot);
    var charged := Charged(p, address, slot, RefundChange(original, current, value, clearing));
    Replaced(states, charged.(storage := p.storage[StorageKey(address, slot) := value]))
  }

  // ---- the refund counter over a transaction ----

  /** A storage slot of a contract that runs code; native contracts keep their own items in the same store. */
  predicate IsSlotKey(k: Key, natives: set<Address>) {
    |k| == 53 && k[0] == STStorage && k[1..21] !in natives
  }

  /** The slots that held a value before the transaction and hold none now. */
  function Cleared(base: map<Key, Value>, now: map<Key, Value>, natives: set<Address>): set<Key> {
    set k | k in base && IsSlotKey(k, natives) && ToHash(base[k]) != ZeroHash() && (k in now ==> ToHash(now[k]) == ZeroHash())
  }

  /** In every layer the counter covers the refunds for all slots that are cleared there. */
  ghost predicate RefundOk(states: seq<Plain>, natives: set<Address>, clearing: nat) {
    && states != [] && states[0].refund >= 0
    && forall i :: 1 <= i < |states| ==>
      states[i].refund >= clearing * |Cleared(states[0].storage, states[i].storage, natives)|
  }

  lemma {:induction false} ClearedAfter(natives: set<Address>, base: map<Key, Value>, now: map<Key, Value>, address: Address, slot: Hash, value: Hash)
    ensures var k := StorageKey(address, slot);
      var original, current := StateAt(base, address, slot), StateAt(now, address, slot);
      && (k in Cleared(base, now, natives) <==> address !in natives && original != ZeroHash() && current == ZeroHash())
      && Cleared(base, now[k := value], natives) ==
        if address !in natives && original != ZeroHash() && value == ZeroHash()
          then Cleared(base, now, natives) + {k} else Cleared(base, now, natives) - {k}
  {
  }

  /** The counter covers the refund that recreating a slot takes back, so it does not go below zero. */
  lemma RecreateCovered(states: seq<Plain>, natives: set<Address>, address: Address, slot: Hash, clearing: nat)
    requires RefundOk(states, natives, clearing) && |states| > 1 && address !in natives
    requires StateAt(states[0].storage, address, slot) != ZeroHash()
    requires StateAt(states[|states| - 1].storage, address, slot) == ZeroHash()
    ensures states[|states| - 1].refund >= clearing
  {
    var base, now := states[0].storage, states[|states| - 1].storage;
    ClearedAfter(natives, base, now, address, slot, ZeroHash());
    var k := StorageKey(address, slot);
    assert Cleared(base, now, natives) == (Cleared(base, now, natives) - {k}) + {k};
    AtLeastOnce(clearing, |Cleared(base, now, natives)|);
  }

  lemma AtLeastOnce(c: nat, n: nat)
    requires n > 0
    ensures c * n >= c
  {
    assert c * n == c * (n - 1) + c;
  }

  lemma {:induction false} StoredKeepsRefund(states: seq<Plain>, natives: set<Address>, address: Address, slot: Hash, value: Hash, clearing: nat)
    requires RefundOk(states, natives, clearing) && |states| > 1 && address !in natives
    ensures RefundOk(Stored(states, address, slot, value, clearing), natives, clearing)
  {
    var p := states[|states| - 1];
    CoverMoves(natives, states[0].storage, p.storage, address, slot, value, clearing);
    var states' := Stored(states, address, slot, value, clearing);
    forall i | 1 <= i < |states'|
      ensures states'[i].refund >= clearing * |Cleared(states'[0].storage, states'[i].storage, natives)|
    {
      if i < |states| - 1 { assert states'[i] == states[i]; }
    }
  }

  /** The counter moves at least as much as the refunds for cleared slots. */
  lemma CoverMoves(natives: set<Address>, base: map<Key, Value>, now: map<Key, Value>, address: Address, slot: Hash, value: Hash, clearing: nat)
    requires address !in natives
    ensures var original, current := StateAt(base, address, slot), StateAt(now, address, slot);
      RefundChange(original, current, value, clearing)
        >= clearing * |Cleared(base, now[StorageKey(address, slot) := value], natives)| - clearing * |Cleared(base, now, natives)|
  {
    hide Cleared, StateAt;
    var k := StorageKey(address, slot);
    ClearedAfter(natives, base, now, address, slot, value);
    WithOrWithout(Cleared(base, now, natives), k, clearing);
    WithOrWithout(Cleared(base, now[k := value], natives), k, clearing);
    assert Cleared(base, now[k := value], natives) - {k} == Cleared(base, now, natives) - {k};
  }

  lemma WithOrWithout(s: set<Key>, k: Key, c: nat)
    ensures c * |s| == c * |s - {k}| + if k in s then c else 0
  {
    if k in s {
      assert s == (s - {k}) + {k};
      Distributes(c, |s - {k}|);
    } else {
      assert s == s - {k};
    }
  }

  lemma Distributes(c: nat, n: nat)
    ensures c * (n + 1) == c * n + c
  {
  }

  // ---- runs ----

  /** What other instructions and native contracts do: not the slots of contracts, and not the counter. */
  predicate Harmless(op: Op, natives: set<Address>) {
    match op
    case PutItem(key, _) => !IsSlotKey(key, natives)
    case DeleteItem(key) => !IsSlotKey(key, natives)
    case AddRefund(_) => false
    case SubRefund(_) => false
    case _ => true
  }

  datatype Event = Store(address: Address, slot: Hash, value: Hash) | Other(op: Op) | Snap | Undo(id: nat)

  /** Stores take place inside calls, which begin with a snapshot. */
  predicate Possible(states: seq<Plain>, natives: set<Address>, e: Event) {
    match e
    case Store(address, _, _) => |states| > 1 && address !in natives
    case Other(op) => states != [] && Harmless(op, natives)
    case Snap => states != []
    case Undo(id) => id + 1 < |states|
  }

  /** One event, with the snapshot as the code takes it. */
  function Happened(states: seq<Plain>, natives: set<Address>, e: Event, clearing: nat): (r: seq<Plain>)
    requires Possible(states, natives, e)
    ensures r != []
  {
    match e
    case Store(address, slot, value) => Stored(states, address, slot, value, clearing)
    case Other(op) => After(states, op)
    case Snap => states + [Cloned(states[|states| - 1])]
    case Undo(id) => states[..id + 1]
  }

  predicate AllPossible(states: seq<Plain>, natives: set<Address>, events: seq<Event>, clearing: nat)
    decreases |events|
  {
    events == [] || (
      && Possible(states, natives, events[0])
      && AllPossible(Happened(states, natives, events[0], clearing), natives, events[1..], clearing))
  }

  function AfterAll(states: seq<Plain>, natives: set<Address>, events: seq<Event>, clearing: nat): seq<Plain>
    requires AllPossible(states, natives, events, clearing)
    decreases |events|
  {
    if events == [] then states
    else AfterAll(Happened(states, natives, events[0], clearing), natives, events[1..], clearing)
  }

  /** The most that one store adds to the counter. */
  const MaxRefund: nat := 19900

  ghost predicate Bounded(states: seq<Plain>, bound: int) {
    forall i :: 0 <= i < |states| ==> states[i].refund <= bound
  }

  lemma {:induction false} EventKeeps(states: seq<Plain>, natives: set<Address>, e: Event, clearing: nat, bound: int)
    requires RefundOk(states, natives, clearing) && Bounded(states, bound) && Possible(states, natives, e)
    requires clearing <= MaxRefund && bound < TWO63
    ensures RefundOk(Happened(states, natives, e, clearing), natives, clearing)
    ensures Bounded(Happened(states, natives, e, clearing), bound + if e.Store? then MaxRefund else 0)
  {
    match e {
      case Store(address, slot, value) =>
        StoredKeepsRefund(states, natives, address, slot, value, clearing);
      case Other(op) =>
        OtherKeeps(states, natives, op, clearing);
      case Snap =>
        var p := states[|states| - 1];
        assert clearing * |Cleared(states[0].storage, p.storage, natives)| >= 0;
        CloneFits(p);
        if |states| == 1 { assert Cleared(p.storage, p.storage, natives) == {}; }
      case Undo(id) =>
    }
  }

  lemma {:induction false} OtherKeeps(states: seq<Plain>, natives: set<Address>, op: Op, clearing: nat)
    requires RefundOk(states, natives, clearing) && Harmless(op, natives)
    ensures RefundOk(After(states, op), natives, clearing)
  {
    var states' := After(states, op);
    forall i | 1 <= i < |states'|
      ensures states'[i].refund >= clearing * |Cleared(states'[0].storage, states'[i].storage, natives)|
    {
      assert Cleared(states'[0].storage, states'[i].storage, natives) == Cleared(states[0].storage, states[i].storage, natives);
    }
  }

  /** Over any run of stores, other instructions, snapshots and reverts the counter covers all cleared slots. */
  lemma {:induction false} RefundCovers(states: seq<Plain>, natives: set<Address>, events: seq<Event>, clearing: nat, bound: int)
    requires RefundOk(states, natives, clearing) && Bounded(states, bound) && AllPossible(states, natives, events, clearing)
    requires clearing <= MaxRefund && bound + MaxRefund * |events| < TWO63
    ensures RefundOk(AfterAll(states, natives, events, clearing), natives, clearing)
    decreases |events|
  {
    if events != [] {
      EventKeeps(states, natives, events[0], clearing, bound);
      RefundCovers(Happened(states, natives, events[0], clearing), natives, events[1..], clearing, bound + MaxRefund);
    }
  }
}
