/**
 The state of a transaction (pkg/core/statedb/statedb.go): a stack of layers, each a private store
 over the one below with its own refund counter, logs and access list. It behaves like a stack of
 plain states that are copied at each snapshot.
 */
module StateDb {
  import opened Wrappers
  import opened Storage
  import opened MemStore
  import opened AccessLists

  type Log = seq<Byte>

  /** Everything that can be read of a layer. */
  datatype Plain = Plain(
    storage: map<Key, Value>, refund: int, logs: seq<Log>, preimages: map<Hash, seq<Byte>>,
    addresses: set<Address>, slots: iset<(Address, Hash)>)

  datatype Op =
    | PutItem(key: Key, value: Value)
    | DeleteItem(key: Key)
    | AddRefund(amount: nat)
    | SubRefund(amount: nat)
    | AddLog(log: Log)
    | AddPreimage(hash: Hash, preimage: seq<Byte>)
    | NewAccessList
    | AddAddress(address: Address)
    | AddSlot(address: Address, slot: Hash)

  /** What an operation does to a plain state. */
  function Effect(p: Plain, op: Op): Plain {
    match op
    case PutItem(key, value) => p.(storage := p.storage[key := value])
    case DeleteItem(key) => p.(storage := p.storage - {key})
    case AddRefund(amount) => p.(refund := p.refund + amount)
    case SubRefund(amount) => p.(refund := p.refund - amount)
    case AddLog(log) => p.(logs := p.logs + [log])
    case AddPreimage(hash, preimage) => p.(preimages := p.preimages[hash := preimage])
    case NewAccessList => p.(addresses := {}, slots := iset{})
    case AddAddress(address) => p.(addresses := p.addresses + {address})
    case AddSlot(address, slot) => p.(addresses := p.addresses + {address}, slots := p.slots + iset{(address, slot)})
  }

  /** An operation changes its own part of the state only, and what was logged stays. */
  lemma {:induction false} OwnPartOnly(p: Plain, op: Op)
    ensures var q := Effect(p, op);
      && (!op.PutItem? && !op.DeleteItem? ==> q.storage == p.storage)
      && (op.PutItem? ==> q.storage.Keys == p.storage.Keys + {op.key} && forall k :: k in q.storage ==>
          q.storage[k] == if k == op.key then op.value else p.storage[k])
      && (op.DeleteItem? ==> q.storage.Keys == p.storage.Keys - {op.key} && forall k :: k in q.storage ==> q.storage[k] == p.storage[k])
      && q.refund - p.refund == (if op.AddRefund? then op.amount else 0) - (if op.SubRefund? then op.amount else 0)
      && p.logs <= q.logs && |q.logs| == |p.logs| + (if op.AddLog? then 1 else 0) && (op.AddLog? ==> op.log in q.logs)
      && (!op.AddPreimage? ==> q.preimages == p.preimages)
      && (!op.NewAccessList? ==> p.addresses <= q.addresses && p.slots <= q.slots)
      && (!op.NewAccessList? && !op.AddAddress? && !op.AddSlot? ==> q.addresses == p.addresses && q.slots == p.slots)
  {
  }

  const TWO63: int := 0x8000_0000_0000_0000
  const TWO64: int := 0x1_0000_0000_0000_0000

  /** The refund counter is a big integer, but a clone takes it through a signed 64-bit integer. */
  function Int64(x: int): int {
    var low := (if x < 0 then -x else x) % TWO64;
    var signed := if low >= TWO63 then low - TWO64 else low;
    if x < 0 && signed != -TWO63 then -signed else signed
  }

  /** It wraps around. */
  lemma {:induction false} Int64Wraps(x: int)
    ensures -TWO63 <= Int64(x) < TWO63 && (x - Int64(x)) % TWO64 == 0
  {
    var a := if x < 0 then -x else x;
    var low, q := a % TWO64, a / TWO64;
    assert a == TWO64 * q + low;
    var d := x - Int64(x);
    assert d == TWO64 * q || d == TWO64 * (q + 1) || d == TWO64 * -q || d == TWO64 * (-q - 1);
    if d == TWO64 * q { RemainderIs(d, TWO64, q, 0); }
    if d == TWO64 * (q + 1) { RemainderIs(d, TWO64, q + 1, 0); }
    if d == TWO64 * -q { RemainderIs(d, TWO64, -q, 0); }
    if d == TWO64 * (-q - 1) { RemainderIs(d, TWO64, -q - 1, 0); }
  }

  /** A clone is the same state exactly when the refund counter fits. */
  lemma CloneFits(p: Plain)
    ensures Cloned(p) == p <==> -TWO63 <= p.refund < TWO63
  {
  }

  function Cloned(p: Plain): Plain {
    p.(refund := Int64(p.refund))
  }

  // ---- storage of contracts ----

  function ZeroHash(): (h: Hash) {
    seq(32, i => 0)
  }

  /** The last 32 bytes, with zeros before a shorter value. */
  function ToHash(b: seq<Byte>): (h: Hash)
    ensures |b| == 32 ==> h == b
  {
    if |b| >= 32 then b[|b| - 32..] else seq(32 - |b|, i => 0) + b
  }

  function StorageKey(address: Address, slot: Hash): (k: Key)
    ensures |k| == 53 && k[1..21] == address && k[21..] == slot
  {
    [STStorage] + address + slot
  }

  /** What a slot holds; nothing is zero. */
  function StateAt(m: map<Key, Value>, address: Address, slot: Hash): Hash {
    if StorageKey(address, slot) in m then ToHash(m[StorageKey(address, slot)]) else ZeroHash()
  }

  class Layer {
    const store: MemCachedStore
    var fund: int
    var preimages: map<Hash, seq<Byte>>
    var logs: seq<Log>
    var accesslist: AccessList

    ghost const below: Layer?
    ghost var repr: set<object>
    /** What can be read of the layers below, oldest first, and of this one. */
    ghost var states: seq<Plain>

    ghost predicate Valid()
      reads this, repr
      ensures Valid() ==> states != []
      decreases repr
    {
      && this in repr && store in repr && accesslist in repr && store.repr <= repr
      && store.Valid() && accesslist.Valid()
      && (below != null ==> (
          && below in repr && below.repr < repr && this !in below.repr && store !in below.repr && accesslist !in below.repr
          && store.ps == below.store && store.private && below.Valid()))
      && states == Lower() + [Plain(store.contents, fund, logs, preimages, accesslist.addresses.Keys, accesslist.Pairs())]
    }

    ghost function Lower(): seq<Plain>
      reads this, below
    {
      if below == null then [] else below.states
    }

    ghost function Top(): Plain
      requires states != []
      reads this
    {
      states[|states| - 1]
    }

    constructor (store: MemCachedStore)
      requires store.Valid()
      ensures Valid() && this.store == store && below == null && fresh(repr - store.repr)
      ensures states == [Plain(store.contents, 0, [], map[], {}, iset{})]
    {
      this.store := store;
      fund, preimages, logs := 0, map[], [];
      var list := new AccessList();
      accesslist := list;
      below := null;
      repr := {this, store, list} + store.repr;
      states := [Plain(store.contents, 0, [], map[], {}, iset{})];
      new;
      assert Lower() + states == states;
    }

    constructor Over(below: Layer, store: MemCachedStore, accesslist: AccessList)
      requires below.Valid() && store.Valid() && accesslist.Valid() && store.ps == below.store && store.private
      requires store !in below.repr && accesslist !in below.repr && store.repr == {store} + below.store.repr
      ensures Valid() && this.store == store && this.accesslist == accesslist && this.below == below
      ensures states == below.states + [Plain(store.contents, Int64(below.fund), below.logs, below.preimages, accesslist.addresses.Keys, accesslist.Pairs())]
      ensures repr == {this, store, accesslist} + below.repr
    {
      this.store, this.accesslist, this.below := store, accesslist, below;
      fund, preimages, logs := Int64(below.fund), below.preimages, below.logs;
      repr := {this, store, accesslist} + below.repr;
      states := below.states + [Plain(store.contents, Int64(below.fund), below.logs, below.preimages, accesslist.addresses.Keys, accesslist.Pairs())];
    }

    /** A copy with a private store over this one. */
    method Clone() returns (mc: Layer)
      requires Valid()
      ensures fresh(mc) && mc.Valid() && mc.below == this && fresh(mc.repr - repr)
      ensures mc.states == states + [Cloned(Top())]
    {
      var private := new MemCachedStore(store, true);
      var list := accesslist.Copy();
      mc := new Layer.Over(this, private, list);
    }

    /** The state of this layer changes, those below do not. */
    ghost predicate Became(before: seq<Plain>, p: Plain)
      reads this
    {
      before != [] && states == before[|before| - 1 := p]
    }

    method Put(key: Key, value: Value)
      requires Valid()
      modifies this`states, store`mem, store`stor, store`contents
      ensures Valid() && Became(old(states), Effect(old(Top()), PutItem(key, value)))
    {
      store.Put(key, value);
      states := Lower() + [Effect(Top(), PutItem(key, value))];
    }

    method Delete(key: Key)
      requires Valid()
      modifies this`states, store`mem, store`stor, store`contents
      ensures Valid() && Became(old(states), Effect(old(Top()), DeleteItem(key)))
    {
      store.Delete(key);
      states := Lower() + [Effect(Top(), DeleteItem(key))];
    }

    method AddFund(amount: int)
      requires Valid()
      modifies this`states, this`fund
      ensures Valid() && Became(old(states), old(Top()).(refund := old(Top()).refund + amount))
    {
      fund := fund + amount;
      states := Lower() + [Top().(refund := fund)];
    }

    method Note(log: Log)
      requires Valid()
      modifies this`states, this`logs
      ensures Valid() && Became(old(states), Effect(old(Top()), AddLog(log)))
    {
      logs := logs + [log];
      states := Lower() + [Effect(Top(), AddLog(log))];
    }

    method NotePreimage(hash: Hash, preimage: seq<Byte>)
      requires Valid()
      modifies this`states, this`preimages
      ensures Valid() && Became(old(states), Effect(old(Top()), AddPreimage(hash, preimage)))
    {
      preimages := preimages[hash := preimage];
      states := Lower() + [Effect(Top(), AddPreimage(hash, preimage))];
    }

    method ResetAccessList()
      requires Valid()
      modifies this`states, this`accesslist, this`repr
      ensures Valid() && Became(old(states), Effect(old(Top()), NewAccessList)) && fresh(repr - old(repr))
    {
      var list := new AccessList();
      assert list !in repr;
      accesslist := list;
      repr := repr + {list};
      states := Lower() + [Effect(Top(), NewAccessList)];
    }

    method ListAddress(address: Address)
      requires Valid()
      modifies this`states, accesslist
      ensures Valid() && Became(old(states), Effect(old(Top()), AddAddress(address)))
    {
      var _ := accesslist.AddAddress(address);
      states := Lower() + [Effect(Top(), AddAddress(address))];
    }

    method ListSlot(address: Address, slot: Hash)
      requires Valid()
      modifies this`states, accesslist
      ensures Valid() && Became(old(states), Effect(old(Top()), AddSlot(address, slot)))
    {
      var _, _ := accesslist.AddSlot(address, slot);
      states := Lower() + [Effect(Top(), AddSlot(address, slot))];
    }

    method Apply(op: Op)
      requires Valid()
      modifies this, store`mem, store`stor, store`contents, accesslist
      ensures Valid() && fresh(repr - old(repr)) && Became(old(states), Effect(old(Top()), op))
      ensures op != NewAccessList ==> accesslist == old(accesslist) && repr == old(repr)
    {
      match op {
        case PutItem(key, value) => Put(key, value);
        case DeleteItem(key) => Delete(key);
        case AddRefund(amount) => AddFund(amount);
        case SubRefund(amount) => AddFund(0 - amount as int);
        case AddLog(log) => Note(log);
        case AddPreimage(hash, preimage) => NotePreimage(hash, preimage);
        case NewAccessList => ResetAccessList();
        case AddAddress(address) => ListAddress(address);
        case AddSlot(address, slot) => ListSlot(address, slot);
      }
    }

    /** Hands the storage over to the layer below; the rest of this layer is dropped. */
    method Persist()
      requires Valid() && below != null
      modifies store`mem, store`stor, below.store`mem, below.store`stor, below.store`contents, below`states
      ensures below.Valid() && below.Became(old(below.states), old(below.Top()).(storage := old(Top()).storage))
    {
      var _ := store.PersistPrivate(false);
      below.states := below.Lower() + [below.Top().(storage := store.contents)];
    }
  }

  class StateDB {
    const ps: Layer
    var memStores: seq<Layer>
    var snapshot: int

    ghost predicate Valid()
      reads this, if snapshot < |memStores| then {CurrentStore()} + CurrentStore().repr else {}
      ensures Valid() ==> snapshot < |memStores| && CurrentStore() in CurrentStore().repr
    {
      && snapshot == |memStores| - 1 && ps.below == null
      && (forall i :: 0 <= i < |memStores| ==> memStores[i].below == LayerNo(i - 1))
      && CurrentStore().Valid() && this !in CurrentStore().repr && |CurrentStore().states| == |memStores| + 1
    }

    /** The layer that was current when `i` was the last snapshot. */
    function LayerNo(i: int): Layer
      requires i < |memStores|
      reads this
    {
      if i < 0 then ps else memStores[i]
    }

    /** The plain states that the layers stand for, oldest first. */
    ghost function States(): seq<Plain>
      requires snapshot < |memStores|
      reads this, CurrentStore()
    {
      CurrentStore().states
    }

    constructor (store: MemCachedStore)
      requires store.Valid()
      ensures Valid() && ps.store == store && snapshot == -1 && fresh(CurrentStore().repr - store.repr)
      ensures States() == [Plain(store.contents, 0, [], map[], {}, iset{})]
    {
      ps := new Layer(store);
      memStores, snapshot := [], -1;
    }

    function CurrentStore(): (l: Layer)
      requires snapshot < |memStores|
      reads this
    {
      LayerNo(snapshot)
    }

    /** The copy is taken of the current layer; its index is what a later revert is given. */
    method Snapshot() returns (id: int)
      requires Valid()
      modifies this
      ensures Valid() && id == |old(States())| - 1 && fresh(CurrentStore().repr - old(CurrentStore().repr))
      ensures States() == old(States()) + [Cloned(old(States())[|old(States())| - 1])]
    {
      var layer := CurrentStore().Clone();
      memStores := memStores + [layer];
      snapshot := snapshot + 1;
      id := snapshot;
    }

    /** Any layer is as it was when it was the current one. */
    lemma LayerAt(i: int)
      requires Valid() && -1 <= i <= snapshot
      ensures var l := LayerNo(i);
        l in CurrentStore().repr && l.repr <= CurrentStore().repr && l.Valid() && l.states == States()[..i + 2]
      decreases snapshot - i
    {
      if i == snapshot {
        assert States()[..i + 2] == States();
      } else {
        LayerAt(i + 1);
        var upper := memStores[i + 1];
        assert upper.below == LayerNo(i) && upper.Valid();
        assert States()[..i + 3][..i + 2] == States()[..i + 2];
        assert LayerNo(i).states == upper.states[..i + 2];
      }
    }

    method RevertToSnapshot(revid: int)
      requires Valid() && 0 <= revid <= snapshot
      modifies this
      ensures Valid() && States() == old(States())[..revid + 1] && CurrentStore().repr <= old(CurrentStore().repr)
    {
      LayerAt(revid - 1);
      memStores := memStores[..revid];
      snapshot := revid - 1;
    }

    /** An operation on the current layer changes no other. */
    method Apply(op: Op)
      requires Valid()
      modifies CurrentStore(), CurrentStore().store, CurrentStore().accesslist
      ensures Valid() && States() == After(old(States()), op) && fresh(CurrentStore().repr - old(CurrentStore().repr))
      ensures op != NewAccessList ==>
        CurrentStore().accesslist == old(CurrentStore().accesslist) && CurrentStore().repr == old(CurrentStore().repr)
    {
      CurrentStore().Apply(op);
    }

    // ---- reading ----

    ghost function Current(): Plain
      requires snapshot < |memStores| && States() != []
      reads this, CurrentStore()
    {
      States()[|States()| - 1]
    }

    method GetState(address: Address, slot: Hash) returns (h: Hash)
      requires Valid()
      ensures h == StateAt(Current().storage, address, slot)
    {
      var item := CurrentStore().store.Get(StorageKey(address, slot));
      if item.None? {
        return ZeroHash();
      }
      h := ToHash(item.value);
    }

    /** The state before the first snapshot. */
    method GetCommittedState(address: Address, slot: Hash) returns (h: Hash)
      requires Valid()
      ensures h == StateAt(States()[0].storage, address, slot)
    {
      LayerAt(-1);
      var item := ps.store.Get(StorageKey(address, slot));
      assert States()[..1][0] == States()[0];
      h := if item.None? then ToHash([]) else ToHash(item.value);
    }

    method SetState(address: Address, slot: Hash, value: Hash)
      requires Valid()
      modifies CurrentStore(), CurrentStore().store, CurrentStore().accesslist
      ensures Valid() && States() == After(old(States()), PutItem(StorageKey(address, slot), value))
      ensures CurrentStore().accesslist == old(CurrentStore().accesslist) && CurrentStore().repr == old(CurrentStore().repr)
    {
      Apply(PutItem(StorageKey(address, slot), value));
    }

    /** The low 64 bits of the counter's absolute value. */
    method GetRefund() returns (r: nat)
      requires Valid()
      ensures r == (if Current().refund < 0 then -Current().refund else Current().refund) % TWO64
    {
      var fund := CurrentStore().fund;
      r := (if fund < 0 then -fund else fund) % TWO64;
    }

    method SlotInAccessList(address: Address, slot: Hash) returns (addressOk: bool, slotOk: bool)
      requires Valid()
      ensures addressOk == (address in Current().addresses) && slotOk == ((address, slot) in Current().slots)
      ensures slotOk ==> addressOk
    {
      addressOk, slotOk := CurrentStore().accesslist.Contains(address, slot);
    }

    /** Persists layer by layer, from the top. Everything but the storage is that of the first layer. */
    method Commit()
      requires Valid()
      modifies this, CurrentStore().repr
      ensures Valid() && snapshot == -1 && CurrentStore().repr <= old(CurrentStore().repr)
      ensures States() == [old(States())[0].(storage := old(States())[|old(States())| - 1].storage)]
    {
      ghost var was := States();
      ghost var all := CurrentStore().repr;
      assert Flattened(was, |was|) == was by { FlattenedEnds(was); }
      while snapshot >= 0
        invariant Valid() && -1 <= snapshot && snapshot + 2 <= |was|
        invariant CurrentStore().repr <= all
        invariant States() == Flattened(was, snapshot + 2)
        decreases snapshot
      {
        ghost var n, before := snapshot + 2, States();
        PersistTop();
        assert States() == Flattened(before, n - 1) == Flattened(was, n - 1) by {
          FlattenedTwice(was, n);
        }
      }
      FlattenedEnds(was);
    }

    method PersistTop()
      requires Valid() && snapshot >= 0
      modifies this, CurrentStore().repr
      ensures Valid() && snapshot == old(snapshot) - 1 && CurrentStore().repr <= old(CurrentStore().repr)
      ensures States() == Flattened(old(States()), snapshot + 2)
    {
      var cur := CurrentStore();
      LayerAt(snapshot - 1);
      cur.Persist();
      memStores := memStores[..snapshot];
      snapshot := snapshot - 1;
    }
  }

  /** The first `n` states, the last of them with the storage of the very last. */
  function Flattened(states: seq<Plain>, n: nat): seq<Plain>
    requires 0 < n <= |states|
  {
    states[..n][n - 1 := states[n - 1].(storage := states[|states| - 1].storage)]
  }

  lemma FlattenedEnds(states: seq<Plain>)
    requires states != []
    ensures Flattened(states, |states|) == states
    ensures Flattened(states, 1) == [states[0].(storage := states[|states| - 1].storage)]
  {
  }

  lemma FlattenedTwice(states: seq<Plain>, n: nat)
    requires 1 < n <= |states|
    ensures Flattened(Flattened(states, n), n - 1) == Flattened(states, n - 1)
  {
  }

  /** An operation on the last of the states. */
  function After(states: seq<Plain>, op: Op): seq<Plain>
    requires states != []
  {
    states[|states| - 1 := Effect(states[|states| - 1], op)]
  }

  // ---- runs ----

  datatype Command = Do(op: Op) | TakeSnapshot | Revert(id: nat) | Save

  /** A machine that copies the whole state at each snapshot. */
  function Run(states: seq<Plain>, commands: seq<Command>): (r: seq<Plain>)
    requires states != []
    ensures r != []
    decreases |commands|
  {
    if commands == [] then states else Run(Next(states, commands[0]), commands[1..])
  }

  function Next(states: seq<Plain>, c: Command): (r: seq<Plain>)
    requires states != []
    ensures r != []
  {
    match c
    case Do(op) => After(states, op)
    case TakeSnapshot => states + [states[|states| - 1]]
    case Revert(id) => if id + 1 < |states| then states[..id + 1] else states
    case Save => [states[0].(storage := states[|states| - 1].storage)]
  }

  /** Reverts name snapshots that were taken and not yet reverted, and the refund counter fits when it is copied. */
  predicate Runs(states: seq<Plain>, commands: seq<Command>)
    requires states != []
    decreases |commands|
  {
    commands == [] || (
      && (commands[0].Revert? ==> commands[0].id + 1 < |states|)
      && (commands[0].TakeSnapshot? ==> -TWO63 <= states[|states| - 1].refund < TWO63)
      && Runs(Next(states, commands[0]), commands[1..]))
  }

  /** Over any run the layers read like the machine that copies. */
  method Execute(db: StateDB, commands: seq<Command>)
    requires db.Valid() && Runs(db.States(), commands)
    modifies db, db.CurrentStore(), db.CurrentStore().repr
    ensures db.Valid() && db.States() == Run(old(db.States()), commands)
  {
    ghost var was := db.States();
    ghost var repr := db.CurrentStore().repr;
    var i := 0;
    while i < |commands|
      invariant 0 <= i <= |commands| && db.Valid() && Runs(db.States(), commands[i..])
      invariant Run(was, commands) == Run(db.States(), commands[i..])
      invariant fresh(db.CurrentStore().repr - repr)
    {
      assert commands[i..][1..] == commands[i + 1..];
      Perform(db, commands[i]);
      i := i + 1;
    }
  }

  method Perform(db: StateDB, c: Command)
    requires db.Valid() && Runs(db.States(), [c])
    modifies db, db.CurrentStore().repr
    ensures db.Valid() && db.States() == Next(old(db.States()), c)
    ensures fresh(db.CurrentStore().repr - old(db.CurrentStore().repr))
  {
    match c {
      case Do(op) => db.Apply(op);
      case TakeSnapshot =>
        CloneFits(db.Current());
        var _ := db.Snapshot();
      case Revert(id) => db.RevertToSnapshot(id);
      case Save => db.Commit();
    }
  }

  predicate AtLeast(commands: seq<Command>, id: nat) {
    forall c :: c in commands ==> c != Save && (c.Revert? ==> c.id >= id)
  }

  /** Commands that do not commit and revert to later snapshots only leave the earlier states alone. */
  lemma {:induction false} EarlierStay(states: seq<Plain>, commands: seq<Command>, n: nat)
    requires 0 < n < |states| && AtLeast(commands, n)
    ensures |Run(states, commands)| > n && Run(states, commands)[..n] == states[..n]
    decreases |commands|
  {
    if commands != [] {
      EarlierStay(Next(states, commands[0]), commands[1..], n);
    }
  }

  lemma {:induction false} RunConcat(states: seq<Plain>, a: seq<Command>, b: seq<Command>)
    requires states != []
    ensures Run(states, a + b) == Run(Run(states, a), b)
    decreases |a|
  {
    if a == [] {
      assert a + b == b;
    } else {
      assert (a + b)[1..] == a[1..] + b;
      RunConcat(Next(states, a[0]), a[1..], b);
    }
  }

  /** A revert brings back exactly the states at the snapshot, whatever was done meanwhile. */
  lemma {:induction false} RevertRestores(states: seq<Plain>, meanwhile: seq<Command>)
    requires states != [] && AtLeast(meanwhile, |states|)
    ensures Run(states, [TakeSnapshot] + meanwhile + [Revert(|states| - 1)]) == states
  {
    var copied := states + [states[|states| - 1]];
    RunConcat(states, [TakeSnapshot] + meanwhile, [Revert(|states| - 1)]);
    RunConcat(states, [TakeSnapshot], meanwhile);
    assert [TakeSnapshot][1..] == [];
    assert Run(states, [TakeSnapshot]) == copied;
    EarlierStay(copied, meanwhile, |states|);
    assert copied[..|states|] == states;
    var last := Run(copied, meanwhile);
    assert [Revert(|states| - 1)][1..] == [];
    assert Run(last, [Revert(|states| - 1)]) == last[..|states|];
  }
}
