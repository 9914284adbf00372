/**
 Frames of the virtual machine (pkg/vm/interpreter.go, evm.go, instructions.go) over the state of a
 transaction, with the instructions as arbitrary inputs: what counts is their gas, their stores and
 the calls they make. Gas is the measure by which everything ends.
 */
module VmRun {
  import opened Wrappers
  import opened Storage
  import opened MemStore
  import opened AccessLists
  import opened StateDb
  import opened VmSstore
  import Gas = VmGas

  // ---- the instruction table ----

  const StopOp: Byte := 0x00
  const SLoadOp: Byte := 0x54
  const SStoreOp: Byte := 0x55
  const ReturnOp: Byte := 0xf3
  const RevertOp: Byte := 0xfd
  const SelfDestructOp: Byte := 0xff

  /** The instructions of the London table that call, and those that create. */
  predicate Calls(op: Byte) {
    op == 0xf1 || op == 0xf2 || op == 0xf4 || op == 0xfa
  }

  predicate Creates(op: Byte) {
    op == 0xf0 || op == 0xf5
  }

  predicate Defined(op: Byte) {
    || op <= 0x0b || 0x10 <= op <= 0x1d || op == 0x20 || 0x30 <= op <= 0x48 || 0x50 <= op <= 0x5b || 0x60 <= op <= 0xa4
    || Creates(op) || Calls(op) || op == ReturnOp || op == RevertOp || op == SelfDestructOp
  }

  /** What every instruction of the table costs before it is looked at closer. */
  function ConstantGas(op: Byte): nat {
    if !Defined(op) then 0
    else if op == StopOp || op == 0x0a || op == SLoadOp || op == SStoreOp || op == ReturnOp || op == RevertOp || 0xa0 <= op <= 0xa4 then 0
    else if op == 0x02 || 0x04 <= op <= 0x07 || op == 0x0b || op == 0x47 then 5
    else if op == 0x08 || op == 0x09 || op == 0x56 then 8
    else if op == 0x57 then 10
    else if op == 0x5b then 1
    else if op == 0x40 then 20
    else if op == 0x20 then 30
    else if op == 0x31 || op == 0x3b || op == 0x3c || op == 0x3f || Calls(op) then WarmAccess
    else if Creates(op) then CreateGas
    else if op == SelfDestructOp then 5000
    else if op <= 0x1d || op == 0x35 || op == 0x37 || op == 0x39 || op == 0x3e || 0x51 <= op <= 0x53 || 0x60 <= op <= 0x9f then 3
    else 2
  }

  /** The least that its gas function adds. */
  function LeastDynamicGas(op: Byte): nat {
    if op == 0x0a then 10 else if op == SLoadOp || op == SStoreOp then WarmAccess else if 0xa0 <= op <= 0xa4 then 375 else 0
  }

  predicate Ends(op: Byte) {
    !Defined(op) || op == StopOp || op == ReturnOp || op == RevertOp || op == SelfDestructOp
  }

  /** Only what ends a frame is free. */
  lemma {:induction false} EveryStepCosts(op: Byte)
    ensures ConstantGas(op) + LeastDynamicGas(op) == 0 ==> Ends(op)
    ensures Calls(op) || Creates(op) || op == SStoreOp ==> !Ends(op)
  {
  }

  datatype Outcome = Done | Reverted | Failed

  /** What is found at the called address. */
  datatype Target = Missing | NoCode | Code | Builtin(cost: nat, ok: bool, ops: seq<Op>)

  datatype Kind = Call | CallCode | Delegate | Static

  /** A decoded instruction, with everything about it that its gas, its stores and its calls depend on. */
  datatype Instr =
    | Step(op: Byte, gas: nat, listed: seq<Op>, ops: seq<Op>)
    | Halt(op: Byte, gas: nat, listed: seq<Op>, ops: seq<Op>, outcome: Outcome)
    | Write(address: Address, slot: Hash, value: Hash)
    | Invoke(kind: Kind, warm: bool, listed: seq<Op>, pays: bool, isNew: bool, memoryGas: Gas.U64, requested: nat,
        affordable: bool, transfer: seq<Op>, target: Target)
    | Create(gas: nat, listed: seq<Op>, affordable: bool, prepare: seq<Op>, collides: bool, transfer: seq<Op>,
        codeOk: bool, codeSize: nat, setCode: seq<Op>)

  predicate AllHarmless(ops: seq<Op>, natives: set<Address>) {
    forall op :: op in ops ==> Harmless(op, natives)
  }

  /** All that a gas function does to the state. */
  predicate OnlyLists(ops: seq<Op>) {
    forall op :: op in ops ==> op.AddAddress? || op.AddSlot?
  }

  /**
   What an instruction of the table can be: its gas is at least its price there, a frame ends well by three of
   them and is reverted by one, and any may fail.
   */
  predicate InstrOk(i: Instr, natives: set<Address>) {
    match i
    case Step(op, gas, listed, ops) =>
      && !Ends(op) && !Calls(op) && !Creates(op) && op != SStoreOp && gas >= ConstantGas(op) + LeastDynamicGas(op)
      && OnlyLists(listed) && AllHarmless(ops, natives)
    case Halt(op, gas, listed, ops, outcome) =>
      && (outcome == Done ==> op == StopOp || op == ReturnOp || op == SelfDestructOp) && (outcome == Reverted ==> op == RevertOp)
      && (outcome != Failed ==> gas >= ConstantGas(op)) && OnlyLists(listed) && AllHarmless(ops, natives)
    case Write(address, _, _) => address !in natives
    case Invoke(kind, _, listed, pays, isNew, memoryGas, _, _, transfer, target) =>
      && memoryGas < Gas.MaxFee && (kind == Delegate || kind == Static ==> !pays) && (kind != Call ==> !isNew)
      && (kind == CallCode || kind == Delegate ==> transfer == [])
      && OnlyLists(listed) && AllHarmless(transfer, natives)
      && (target.Builtin? ==> AllHarmless(target.ops, natives))
    case Create(_, listed, _, prepare, _, transfer, _, _, setCode) =>
      && OnlyLists(listed) && AllHarmless(prepare, natives) && AllHarmless(transfer, natives) && AllHarmless(setCode, natives)
  }

  const WarmAccess: nat := 100
  const CreateGas: nat := 32000
  const CreateDataGas: nat := 200
  const CallCreateDepth: nat := 1024

  /** The part of a transaction that does not change while it runs. */
  datatype Setting = Setting(natives: set<Address>, clearing: nat)

  /** The most that one gas can add to the refund counter: a store costs a hundred at least. */
  const RefundPerGas: nat := 199

  /**
   The counter of every layer covers its cleared slots, and is not above the bound. That is so as long as the
   bound fits the signed 64-bit integer that a snapshot takes the counter through.
   */
  ghost predicate Good(states: seq<Plain>, t: Setting, bound: int) {
    && states != [] && t.clearing <= MaxRefund
    && (bound < TWO63 ==> RefundOk(states, t.natives, t.clearing) && Bounded(states, bound))
  }

  /** The refund counter of the current layer. */
  function Counter(states: seq<Plain>): int {
    if states == [] then 0 else states[|states| - 1].refund
  }

  /** The layers below the current one stay. */
  ghost predicate Keeps(was: seq<Plain>, now: seq<Plain>) {
    0 < |was| <= |now| && now[..|was| - 1] == was[..|was| - 1]
  }

  lemma KeepsTrans(a: seq<Plain>, b: seq<Plain>, c: seq<Plain>)
    requires Keeps(a, b) && Keeps(b, c)
    ensures Keeps(a, c)
  {
    assert c[..|a| - 1] == c[..|b| - 1][..|a| - 1] == b[..|a| - 1];
  }

  lemma GoodMono(states: seq<Plain>, t: Setting, bound: int, bound': int)
    requires Good(states, t, bound) && bound <= bound'
    ensures Good(states, t, bound')
  {
  }

  lemma HappensGood(states: seq<Plain>, t: Setting, e: Event, bound: int)
    requires Good(states, t, bound) && Possible(states, t.natives, e) && !e.Undo?
    ensures var now := Happened(states, t.natives, e, t.clearing);
      Good(now, t, bound + if e.Store? then MaxRefund else 0) && Keeps(states, now)
  {
    if bound < TWO63 { EventKeeps(states, t.natives, e, t.clearing, bound); }
  }

  /** The storage slots of contracts that run code. */
  function Slots(p: Plain, natives: set<Address>): map<Key, Value> {
    map k | k in p.storage && IsSlotKey(k, natives) :: p.storage[k]
  }

  /** No slot of the current layer has changed, nor the counter, as long as the bound fits. */
  ghost predicate Untouched(was: seq<Plain>, now: seq<Plain>, natives: set<Address>, bound: int) {
    && was != [] && now != [] && Slots(was[|was| - 1], natives) == Slots(now[|now| - 1], natives)
    && (bound < TWO63 ==> Counter(now) == Counter(was))
  }

  lemma UntouchedTrans(a: seq<Plain>, b: seq<Plain>, c: seq<Plain>, natives: set<Address>, bound: int, bound': int)
    requires Untouched(a, b, natives, bound) && Untouched(b, c, natives, bound') && bound <= bound'
    ensures Untouched(a, c, natives, bound')
  {
  }

  /** Only the current layer has changed, and of it neither the slots nor the counter. */
  ghost predicate Quiet(was: seq<Plain>, now: seq<Plain>, natives: set<Address>) {
    && was != [] && |now| == |was| && now[..|was| - 1] == was[..|was| - 1]
    && Slots(now[|now| - 1], natives) == Slots(was[|was| - 1], natives) && Counter(now) == Counter(was)
  }

  lemma QuietTrans(a: seq<Plain>, b: seq<Plain>, c: seq<Plain>, natives: set<Address>)
    requires Quiet(a, b, natives) && Quiet(b, c, natives)
    ensures Quiet(a, c, natives)
  {
  }

  lemma QuietMeans(was: seq<Plain>, now: seq<Plain>, natives: set<Address>, bound: int)
    requires Quiet(was, now, natives)
    ensures |now| == |was| && Keeps(was, now) && Counter(now) == Counter(was) && Untouched(was, now, natives, bound)
  {
  }

  lemma HarmlessQuiet(states: seq<Plain>, op: Op, natives: set<Address>)
    requires states != [] && Harmless(op, natives)
    ensures Quiet(states, After(states, op), natives)
  {
    var now := After(states, op);
    var p, q := states[|states| - 1], now[|now| - 1];
    forall k ensures k in Slots(p, natives) <==> k in Slots(q, natives) {
    }
    assert Slots(p, natives) == Slots(q, natives);
  }

  lemma FrozenKeeps(states: seq<Plain>, t: Setting, bound: int)
    requires Good(states, t, bound)
    ensures Untouched(states, states + [Cloned(states[|states| - 1])], t.natives, bound)
  {
    var p := states[|states| - 1];
    assert t.clearing * |Cleared(states[0].storage, p.storage, t.natives)| >= 0;
    if bound < TWO63 { CloneFits(p); }
  }

  /** The states after a number of operations. */
  function AfterOps(states: seq<Plain>, ops: seq<Op>): (r: seq<Plain>)
    ensures |r| == |states|
  {
    if ops == [] || states == [] then states else After(AfterOps(states, ops[..|ops| - 1]), ops[|ops| - 1])
  }

  /** The first `i` of a number of operations are done. */
  ghost predicate Applied(was: seq<Plain>, now: seq<Plain>, ops: seq<Op>, i: nat, t: Setting, bound: int) {
    i <= |ops| && Good(now, t, bound) && Quiet(was, now, t.natives) && now == AfterOps(was, ops[..i])
  }

  lemma AppliedNone(states: seq<Plain>, ops: seq<Op>, t: Setting, bound: int)
    requires Good(states, t, bound)
    ensures Applied(states, states, ops, 0, t, bound)
  {
  }

  lemma AppliedAll(was: seq<Plain>, now: seq<Plain>, ops: seq<Op>, t: Setting, bound: int)
    requires Applied(was, now, ops, |ops|, t, bound)
    ensures Good(now, t, bound) && Quiet(was, now, t.natives) && now == AfterOps(was, ops)
  {
    assert ops[..|ops|] == ops;
  }

  lemma AppliedOne(was: seq<Plain>, now: seq<Plain>, ops: seq<Op>, i: nat, t: Setting, bound: int)
    requires Applied(was, now, ops, i, t, bound) && i < |ops| && Harmless(ops[i], t.natives)
    ensures now != [] && Applied(was, After(now, ops[i]), ops, i + 1, t, bound)
  {
    hide Harmless;
    assert ops[..i + 1][..i] == ops[..i];
    QuietNotEmpty(was, now, t.natives);
    hide Quiet;
    HarmlessQuiet(now, ops[i], t.natives);
    QuietTrans(was, now, After(now, ops[i]), t.natives);
    HappensGood(now, t, Other(ops[i]), bound);
  }

  /** A number of harmless operations. */
  method ApplyAll(db: StateDB, ops: seq<Op>, ghost t: Setting, ghost bound: int)
    requires db.Valid() && Good(db.States(), t, bound) && AllHarmless(ops, t.natives)
    modifies db, db.CurrentStore().repr
    ensures db.Valid() && Good(db.States(), t, bound) && Quiet(old(db.States()), db.States(), t.natives)
    ensures db.States() == AfterOps(old(db.States()), ops)
    ensures fresh(db.CurrentStore().repr - old(db.CurrentStore().repr))
  {
    hide AfterOps, Applied, Good, Quiet, Harmless, StateDB.States;
    ghost var was := db.States();
    ghost var repr := db.CurrentStore().repr;
    var i := 0;
    AppliedNone(was, ops, t, bound);
    while i < |ops|
      invariant 0 <= i <= |ops| && db.Valid() && fresh(db.CurrentStore().repr - repr)
      invariant Applied(was, db.States(), ops, i, t, bound)
    {
      AppliedOne(was, db.States(), ops, i, t, bound);
      db.Apply(ops[i]);
      i := i + 1;
    }
    AppliedAll(was, db.States(), ops, t, bound);
  }

  lemma QuietNotEmpty(was: seq<Plain>, now: seq<Plain>, natives: set<Address>)
    requires Quiet(was, now, natives)
    ensures was != [] && now != []
  {
  }

  /** All layers of before are still there, below the current one. */
  ghost predicate Above(was: seq<Plain>, now: seq<Plain>) {
    0 < |was| < |now| && now[..|was|] == was
  }

  lemma AboveKeeps(was: seq<Plain>, frozen: seq<Plain>, now: seq<Plain>)
    requires Above(was, frozen) && Keeps(frozen, now)
    ensures Above(was, now) && Keeps(was, now)
  {
    assert now[..|was|] == now[..|frozen| - 1][..|was|] == frozen[..|was|];
    assert now[..|was| - 1] == now[..|was|][..|was| - 1];
  }

  /** The states after a snapshot. */
  function Frozen(states: seq<Plain>): seq<Plain> {
    if states == [] then [] else states + [Cloned(states[|states| - 1])]
  }

  /** Taking a snapshot freezes all layers; reverting to it brings them back. */
  method Freeze(db: StateDB, ghost t: Setting, ghost bound: int) returns (id: int)
    requires db.Valid() && Good(db.States(), t, bound)
    modifies db
    ensures db.Valid() && Good(db.States(), t, bound) && id == |old(db.States())| - 1
    ensures Above(old(db.States()), db.States()) && Untouched(old(db.States()), db.States(), t.natives, bound)
    ensures db.States() == Frozen(old(db.States()))
    ensures fresh(db.CurrentStore().repr - old(db.CurrentStore().repr))
  {
    HappensGood(db.States(), t, Snap, bound);
    FrozenKeeps(db.States(), t, bound);
    id := db.Snapshot();
  }

  method Thaw(db: StateDB, id: int, ghost was: seq<Plain>)
    requires db.Valid() && id == |was| - 1 && Above(was, db.States())
    modifies db
    ensures db.Valid() && db.States() == was && db.CurrentStore().repr <= old(db.CurrentStore().repr)
  {
    db.RevertToSnapshot(id);
  }

  /** The end of a frame: an error reverts, and uses up the gas unless it is a revert. */
  method Settle(db: StateDB, id: int, gas: nat, outcome: Outcome, ghost was: seq<Plain>) returns (left: nat)
    requires db.Valid() && id == |was| - 1 && Above(was, db.States())
    modifies db
    ensures db.Valid() && db.CurrentStore().repr <= old(db.CurrentStore().repr)
    ensures db.States() == if outcome == Done then old(db.States()) else was
    ensures left == if outcome == Failed then 0 else gas
  {
    left := gas;
    if outcome != Done {
      Thaw(db, id, was);
      if outcome != Reverted {
        left := 0;
      }
    }
  }

  /** Charges, after what the gas function listed. */
  method Charge(db: StateDB, gas: nat, cost: nat, listed: seq<Op>, ghost t: Setting, ghost bound: int) returns (left: nat, ok: bool)
    requires db.Valid() && Good(db.States(), t, bound) && AllHarmless(listed, t.natives)
    modifies db, db.CurrentStore().repr
    ensures db.Valid() && Good(db.States(), t, bound) && Quiet(old(db.States()), db.States(), t.natives)
    ensures ok == (cost <= gas) && left == if ok then gas - cost else gas
    ensures db.States() == AfterOps(old(db.States()), listed)
    ensures fresh(db.CurrentStore().repr - old(db.CurrentStore().repr))
  {
    ApplyAll(db, listed, t, bound);
    if gas < cost {
      return gas, false;
    }
    return gas - cost, true;
  }

  /** An instruction without stores and calls. */
  method DoStep(db: StateDB, gas: nat, cost: nat, listed: seq<Op>, ops: seq<Op>, readOnly: bool, ghost t: Setting, ghost bound: int)
    returns (left: nat, ok: bool)
    requires db.Valid() && Good(db.States(), t, bound)
    requires AllHarmless(listed, t.natives) && AllHarmless(ops, t.natives)
    modifies db, db.CurrentStore().repr
    ensures db.Valid() && Good(db.States(), t, bound) && Quiet(old(db.States()), db.States(), t.natives)
    ensures ok == (cost <= gas && !(readOnly && ops != [])) && left == if cost <= gas then gas - cost else gas
    ensures ok ==> db.States() == AfterOps(AfterOps(old(db.States()), listed), ops)
    ensures fresh(db.CurrentStore().repr - old(db.CurrentStore().repr))
  {
    hide Quiet, Good;
    ghost var was := db.States();
    left, ok := Charge(db, gas, cost, listed, t, bound);
    if !ok || (readOnly && ops != []) {
      return left, false;
    }
    ghost var between := db.States();
    ApplyAll(db, ops, t, bound);
    QuietTrans(was, between, db.States(), t.natives);
  }

  /** A store: the counter gains no more than the gas that is used allows. */
  method DoWrite(db: StateDB, gas: nat, address: Address, slot: Hash, value: Hash, readOnly: bool, t: Setting, ghost bound: int)
    returns (left: nat, ok: bool)
    requires db.Valid() && |db.States()| > 1 && Good(db.States(), t, bound) && address !in t.natives
    modifies db, db.CurrentStore().repr
    ensures db.Valid() && Keeps(old(db.States()), db.States())
    ensures left <= gas && (ok ==> left < gas && Good(db.States(), t, bound + RefundPerGas * (gas - left)))
    ensures ok <==>
      && gas > 2300 && address in old(db.Current()).addresses && !readOnly
      && StoreCost(old(db.States()), address, slot, value) <= gas
    ensures ok ==> IsStored(old(db.States()), db.States(), address, slot, value, t.clearing, gas - left)
    ensures db.CurrentStore().repr == old(db.CurrentStore().repr)
  {
    ghost var was := db.States();
    HappensGood(was, t, Store(address, slot, value), bound);
    var r := SStore(db, gas, address, slot, value, readOnly, t.clearing);
    if r.Err? {
      return gas, false;
    }
    GoodMono(db.States(), t, bound + MaxRefund, bound + RefundPerGas * (gas - r.value));
    return r.value, true;
  }

  // ---- frames ----

  /**
   A frame that ran code: what it was given, how deep it and the frames below it were, how it ended, and the
   states at its start and end. It is read-only when it or a frame above it was entered by a static call.
   */
  datatype Frame = Frame(gas: nat, readOnly: bool, depth: nat, deepest: nat, left: nat, outcome: Outcome, start: seq<Plain>, end: seq<Plain>)

  /** Frames are nested no deeper than the limit allows. */
  const MaxDepth: nat := 1025

  ghost predicate Nested(inner: Option<Frame>, depth: nat) {
    inner.Some? ==> inner.value.depth == depth + 1 && depth < inner.value.deepest <= MaxDepth
  }

  function Deeper(deepest: nat, inner: Option<Frame>): nat {
    if inner.Some? && inner.value.deepest > deepest then inner.value.deepest else deepest
  }

  /** The loop of the interpreter. */
  method Run(db: StateDB, gas: Gas.U64, readOnly: bool, depth: nat, t: Setting, ghost bound: int)
    returns (left: nat, outcome: Outcome, ghost frame: Frame)
    requires db.Valid() && |db.States()| > 1 && Good(db.States(), t, bound) && depth <= MaxDepth
    modifies db, db.CurrentStore().repr
    ensures db.Valid() && Keeps(old(db.States()), db.States())
    ensures left <= gas
    ensures frame == Frame(gas, readOnly, depth, frame.deepest, left, outcome, old(db.States()), db.States())
    ensures depth <= frame.deepest <= MaxDepth
    ensures outcome == Done ==> Good(db.States(), t, bound + RefundPerGas * (gas - left))
    ensures outcome != Failed && readOnly ==> Untouched(old(db.States()), db.States(), t.natives, bound + RefundPerGas * (gas - left))
    ensures fresh(db.CurrentStore().repr - old(db.CurrentStore().repr))
    decreases gas, 1
  {
    hide Good, Untouched, InstrOk, StateDB.Valid, CallIs, CreationIs, IsStored, AfterOps, Permitted;
    ghost var was := db.States();
    ghost var repr := db.CurrentStore().repr;
    NothingTouched(was, t.natives, bound);
    left := gas;
    ghost var deepest := depth;
    while true
      invariant db.Valid() && Keeps(was, db.States()) && fresh(db.CurrentStore().repr - repr)
      invariant left <= gas && Good(db.States(), t, bound + RefundPerGas * (gas - left))
      invariant readOnly ==> Untouched(was, db.States(), t.natives, bound + RefundPerGas * (gas - left))
      invariant depth <= deepest <= MaxDepth
      decreases left
    {
      ghost var before, start := db.States(), left;
      var i: Instr := Next(t.natives);
      var ok, child;
      ghost var inner;
      left, ok, child, inner := Do(db, left, i, readOnly, depth, t, bound + RefundPerGas * (gas - left));
      KeepsTrans(was, before, db.States());
      deepest := Deeper(deepest, inner);
      if !ok {
        return left, Failed, Frame(gas, readOnly, depth, deepest, left, Failed, was, db.States());
      }
      if readOnly {
        UntouchedTrans(was, before, db.States(), t.natives, bound + RefundPerGas * (gas - start), bound + RefundPerGas * (gas - left));
      }
      if i.Halt? {
        return left, i.outcome, Frame(gas, readOnly, depth, deepest, left, i.outcome, was, db.States());
      }
    }
  }

  /** Any instruction at all. */
  method Next(natives: set<Address>) returns (i: Instr)
    ensures InstrOk(i, natives)
  {
    assert InstrOk(Halt(StopOp, 0, [], [], Done), natives);
    i :| InstrOk(i, natives);
  }

  /** What a read-only frame may do: no store, no creation, no call with value, and no other change of its own. */
  predicate Permitted(i: Instr) {
    match i
    case Step(_, _, _, ops) => ops == []
    case Halt(_, _, _, ops, _) => ops == []
    case Write(_, _, _) => false
    case Invoke(kind, _, _, pays, _, _, _, _, _, _) => !(kind == Call && pays)
    case Create(_, _, _, _, _, _, _, _, _) => false
  }

  /**
   One instruction. Unless it ends the frame it uses gas, and a frame that it makes gets less gas than there
   was before it. In a read-only frame it fails unless it is permitted, and touches nothing.
   */
  method Do(db: StateDB, gas: Gas.U64, i: Instr, readOnly: bool, depth: nat, t: Setting, ghost bound: int)
    returns (left: nat, ok: bool, child: nat, ghost inner: Option<Frame>)
    requires db.Valid() && |db.States()| > 1 && Good(db.States(), t, bound) && InstrOk(i, t.natives) && depth <= MaxDepth
    modifies db, db.CurrentStore().repr
    ensures db.Valid() && Keeps(old(db.States()), db.States())
    ensures left <= gas && (ok && !i.Halt? ==> left < gas && (child == 0 || child < gas))
    ensures ok ==> Good(db.States(), t, bound + RefundPerGas * (gas - left))
    ensures ok && readOnly ==> Permitted(i) && Untouched(old(db.States()), db.States(), t.natives, bound + RefundPerGas * (gas - left))
    ensures Nested(inner, depth) && (inner.Some? && readOnly ==> inner.value.readOnly)
    ensures ok && (i.Step? || i.Halt?) ==> db.States() == AfterOps(AfterOps(old(db.States()), i.listed), i.ops)
    ensures ok && i.Write? ==>
      IsStored(old(db.States()), db.States(), i.address, i.slot, i.value, t.clearing, gas - left)
    ensures ok && i.Invoke? ==>
      exists returned :: CallIs(i, child, readOnly, depth, AfterOps(old(db.States()), i.listed), db.States(), returned, inner)
    ensures ok && i.Create? ==>
      exists returned :: CreationIs(i, child, depth, AfterOps(old(db.States()), i.listed), db.States(), returned, inner)
    ensures fresh(db.CurrentStore().repr - old(db.CurrentStore().repr))
    decreases gas, 0
  {
    hide Good, Untouched, Quiet, StateDB.Valid, IsStored, CallIs, CreationIs, AfterOps;
    child, inner := 0, None;
    ghost var was := db.States();
    match i {
      case Step(op, cost, listed, ops) =>
        EveryStepCosts(op);
        OnlyListsHarmless(listed, t.natives);
        left, ok := DoStep(db, gas, cost, listed, ops, readOnly, t, bound);
        QuietMeans(was, db.States(), t.natives, bound);
        GoodMono(db.States(), t, bound, bound + RefundPerGas * (gas - left));
        UntouchedMono(was, db.States(), t.natives, bound, bound + RefundPerGas * (gas - left));
      case Halt(_, cost, listed, ops, _) =>
        OnlyListsHarmless(listed, t.natives);
        left, ok := DoStep(db, gas, cost, listed, ops, readOnly, t, bound);
        QuietMeans(was, db.States(), t.natives, bound);
        GoodMono(db.States(), t, bound, bound + RefundPerGas * (gas - left));
        UntouchedMono(was, db.States(), t.natives, bound, bound + RefundPerGas * (gas - left));
      case Write(address, slot, value) =>
        left, ok := DoWrite(db, gas, address, slot, value, readOnly, t, bound);
      case Invoke(_, _, _, _, _, _, _, _, _, _) =>
        if gas < WarmAccess {
          return gas, false, 0, None;
        }
        ghost var returned;
        left, ok, child, returned, inner := DoInvoke(db, gas - WarmAccess, i, readOnly, depth, t, bound);
        if ok {
          GoodMono(db.States(), t, bound + RefundPerGas * (gas - WarmAccess - left), bound + RefundPerGas * (gas - left));
          if readOnly {
            UntouchedMono(was, db.States(), t.natives, bound + RefundPerGas * (gas - WarmAccess - left), bound + RefundPerGas * (gas - left));
          }
        }
      case Create(_, _, _, _, _, _, _, _, _) =>
        if gas < CreateGas {
          return gas, false, 0, None;
        }
        ghost var returned;
        left, ok, child, returned, inner := DoCreate(db, gas - CreateGas, i, readOnly, depth, t, bound);
        if ok { GoodMono(db.States(), t, bound + RefundPerGas * (gas - CreateGas - left), bound + RefundPerGas * (gas - left)); }
    }
  }

  lemma UntouchedMono(was: seq<Plain>, now: seq<Plain>, natives: set<Address>, bound: int, bound': int)
    requires Untouched(was, now, natives, bound) && bound <= bound'
    ensures Untouched(was, now, natives, bound')
  {
  }

  /** Too deep, or more than the caller can pay. */
  predicate Refused(i: Instr, depth: nat)
    requires i.Invoke? || i.Create?
  {
    depth > 1024 || !i.affordable
  }

  /**
   What comes back of the gas that a call was given. A call that is refused or finds no code keeps it, a
   built-in contract takes its cost, and code leaves what it leaves; an error that is no revert uses up all.
   Code runs one level deeper, on all of the gas, and read-only if the caller is or the call is static.
   */
  ghost predicate Called(i: Instr, gas: nat, readOnly: bool, depth: nat, left: nat, outcome: Outcome, inner: Option<Frame>)
    requires i.Invoke?
  {
    && (inner.Some? <==> !Refused(i, depth) && i.target.Code?)
    && (Refused(i, depth) ==> left == gas && outcome == Failed)
    && (!Refused(i, depth) && (i.target.Missing? || i.target.NoCode?) ==> left == gas && outcome == Done)
    && (!Refused(i, depth) && i.target.Builtin? ==>
        && (outcome == Done <==> i.target.cost <= gas && i.target.ok) && outcome != Reverted
        && left == if outcome == Done then gas - i.target.cost else 0)
    && (inner.Some? ==>
        && inner.value.gas == gas && inner.value.readOnly == (readOnly || i.kind == Static)
        && outcome == inner.value.outcome && left == if outcome == Failed then 0 else inner.value.left)
  }

  /**
   What a call does to the state: nothing when it fails; else the transfer, and what the built-in contract or
   the code does, in a layer of its own. A call without value of what does not exist does nothing.
   */
  ghost predicate Took(i: Instr, was: seq<Plain>, now: seq<Plain>, outcome: Outcome, inner: Option<Frame>)
    requires i.Invoke?
  {
    if outcome != Done then now == was
    else if i.kind == Call && i.target.Missing? && !i.pays then now == Frozen(was)
    else
      var moved := AfterOps(Frozen(was), i.transfer);
      match i.target
      case Builtin(_, _, ops) => now == AfterOps(moved, ops)
      case Code => inner.Some? && inner.value.start == moved && inner.value.end == now
      case _ => now == moved
  }

  ghost predicate CallIs(i: Instr, gas: nat, readOnly: bool, depth: nat, was: seq<Plain>, now: seq<Plain>, left: nat, inner: Option<Frame>)
    requires i.Invoke?
  {
    exists outcome :: Called(i, gas, readOnly, depth, left, outcome, inner) && Took(i, was, now, outcome, inner)
  }

  /**
   The call instructions. The called frame gets what was asked for, but no more than all but one 64th of what
   is left after the rest of the charge, and a stipend when value is paid, which the rest of the charge covers:
   never more than the caller had. What it leaves comes back.
   */
  method DoInvoke(db: StateDB, gas: Gas.U64, i: Instr, readOnly: bool, depth: nat, t: Setting, ghost bound: int)
    returns (left: nat, ok: bool, child: nat, ghost returned: nat, ghost inner: Option<Frame>)
    requires db.Valid() && |db.States()| > 1 && Good(db.States(), t, bound) && i.Invoke? && InstrOk(i, t.natives) && depth <= MaxDepth
    modifies db, db.CurrentStore().repr
    ensures db.Valid() && Keeps(old(db.States()), db.States())
    ensures left <= gas && (ok ==> Good(db.States(), t, bound + RefundPerGas * (gas - left)))
    ensures ok && readOnly ==> Untouched(old(db.States()), db.States(), t.natives, bound + RefundPerGas * (gas - left))
    ensures var extra, stipend := Gas.Extra(i.warm, i.pays, i.isNew, i.memoryGas), if i.pays then 2300 else 0;
      && (ok <==> extra <= gas && !(readOnly && i.pays && i.kind == Call))
      && (ok ==>
        && child == stipend + Gas.Smaller(i.requested, Gas.AllButOne64th(gas - extra)) && child <= gas
        && left == gas - extra - (child - stipend) + returned && returned <= child
        && CallIs(i, child, readOnly, depth, AfterOps(old(db.States()), i.listed), db.States(), returned, inner))
    ensures Nested(inner, depth) && (inner.Some? && readOnly ==> inner.value.readOnly) && (!ok ==> inner.None?)
    ensures fresh(db.CurrentStore().repr - old(db.CurrentStore().repr))
    decreases gas, 4
  {
    hide Good, AllHarmless, StateDB.Valid, Untouched, Quiet, Called, Took, AfterOps;
    OnlyListsHarmless(i.listed, t.natives);
    ghost var was := db.States();
    ApplyAll(db, i.listed, t, bound);
    QuietMeans(was, db.States(), t.natives, bound);
    var charge := Gas.GasCall(gas, i.warm, i.pays, i.isNew, i.memoryGas, i.requested);
    if charge.None? || gas < charge.value.all || (readOnly && i.pays && i.kind == Call) {
      return gas, false, 0, 0, None;
    }
    child := charge.value.call + if i.pays then Gas.CallStipend else 0;
    assert child <= gas && gas - charge.value.all + child <= gas;
    ghost var between := db.States();
    var outcome, back;
    back, outcome, inner := Enter(db, child, i, readOnly, depth, t, bound);
    CalledReadOnly(i, child, readOnly, depth, back, outcome, inner);
    assert CallIs(i, child, readOnly, depth, between, db.States(), back, inner);
    left, ok, returned := gas - charge.value.all + back, true, back;
    if outcome == Done {
      AboveKeeps(between, db.States(), db.States());
      GoodMono(db.States(), t, bound + RefundPerGas * (child - back), bound + RefundPerGas * (gas - left));
    } else {
      GoodMono(between, t, bound, bound + RefundPerGas * (gas - left));
    }
    KeepsTrans(was, between, db.States());
    if readOnly {
      InvokedKeeps(was, between, db.States(), t.natives, bound, bound + RefundPerGas * (child - back), bound + RefundPerGas * (gas - left), outcome);
    }
  }

  lemma CalledReadOnly(i: Instr, gas: nat, readOnly: bool, depth: nat, left: nat, outcome: Outcome, inner: Option<Frame>)
    requires i.Invoke? && Called(i, gas, readOnly, depth, left, outcome, inner)
    ensures inner.Some? && readOnly ==> inner.value.readOnly
  {
  }

  lemma InvokedKeeps(was: seq<Plain>, between: seq<Plain>, now: seq<Plain>, natives: set<Address>, bound: int, bound': int, bound'': int, outcome: Outcome)
    requires Untouched(was, between, natives, bound) && bound <= bound' <= bound''
    requires if outcome == Done then Untouched(between, now, natives, bound') else now == between
    ensures Untouched(was, now, natives, bound'')
  {
  }

  /**
   Call, CallCode, DelegateCall and StaticCall, also as the outermost call of a transaction. An error leaves
   all states as they were, and uses up all gas unless it is a revert or the call was refused at once. A
   static call, and any call of a read-only frame, touches nothing.
   */
  method Enter(db: StateDB, gas: Gas.U64, i: Instr, readOnly: bool, depth: nat, t: Setting, ghost bound: int)
    returns (left: nat, outcome: Outcome, ghost inner: Option<Frame>)
    requires db.Valid() && Good(db.States(), t, bound) && i.Invoke? && InstrOk(i, t.natives) && (readOnly ==> !(i.kind == Call && i.pays))
    modifies db, db.CurrentStore().repr
    ensures db.Valid() && left <= gas
    ensures Called(i, gas, readOnly, depth, left, outcome, inner) && Nested(inner, depth)
    ensures Took(i, old(db.States()), db.States(), outcome, inner)
    ensures outcome != Done ==> db.States() == old(db.States())
    ensures outcome == Done ==>
      && Good(db.States(), t, bound + RefundPerGas * (gas - left))
      && Above(old(db.States()), db.States())
    ensures outcome == Done && (readOnly || i.kind == Static) ==>
      Untouched(old(db.States()), db.States(), t.natives, bound + RefundPerGas * (gas - left))
    ensures fresh(db.CurrentStore().repr - old(db.CurrentStore().repr))
    decreases gas, 3
  {
    hide Good, InstrOk, StateDB.Valid, Untouched, Quiet, AfterOps;
    if depth > CallCreateDepth || !i.affordable {
      return gas, Failed, None;
    }
    ghost var was := db.States();
    var id := Freeze(db, t, bound);
    ghost var frozen := db.States();
    left, outcome, inner := Execute(db, gas, i, readOnly, depth, t, bound);
    AboveKeeps(was, frozen, db.States());
    if outcome == Done && (readOnly || i.kind == Static) {
      UntouchedTrans(was, frozen, db.States(), t.natives, bound, bound + RefundPerGas * (gas - left));
    }
    left := Settle(db, id, left, outcome, was);
  }

  /** The same once the call is not refused, before an error is settled. */
  ghost predicate Ran(i: Instr, gas: nat, readOnly: bool, left: nat, outcome: Outcome, inner: Option<Frame>)
    requires i.Invoke?
  {
    && (inner.Some? <==> i.target.Code?)
    && (i.target.Missing? || i.target.NoCode? ==> left == gas && outcome == Done)
    && (i.target.Builtin? ==>
        && (outcome == Done <==> i.target.cost <= gas && i.target.ok) && outcome != Reverted
        && (outcome == Done ==> left == gas - i.target.cost))
    && (inner.Some? ==>
        && inner.value.gas == gas && inner.value.readOnly == (readOnly || i.kind == Static)
        && outcome == inner.value.outcome && left == inner.value.left)
  }

  ghost predicate Did(i: Instr, was: seq<Plain>, now: seq<Plain>, inner: Option<Frame>)
    requires i.Invoke?
  {
    if i.kind == Call && i.target.Missing? && !i.pays then now == was
    else
      var moved := AfterOps(was, i.transfer);
      match i.target
      case Builtin(_, _, ops) => now == AfterOps(moved, ops)
      case Code => inner.Some? && inner.value.start == moved && inner.value.end == now
      case _ => now == moved
  }

  /** The transfer, and then the called code or what is built in at the address. */
  method Execute(db: StateDB, gas: Gas.U64, i: Instr, readOnly: bool, depth: nat, t: Setting, ghost bound: int)
    returns (left: nat, outcome: Outcome, ghost inner: Option<Frame>)
    requires db.Valid() && |db.States()| > 1 && Good(db.States(), t, bound) && i.Invoke? && InstrOk(i, t.natives) && depth <= CallCreateDepth
    modifies db, db.CurrentStore().repr
    ensures db.Valid() && Keeps(old(db.States()), db.States()) && left <= gas
    ensures Ran(i, gas, readOnly, left, outcome, inner) && Nested(inner, depth)
    ensures outcome == Done ==> Did(i, old(db.States()), db.States(), inner)
    ensures outcome == Done ==> Good(db.States(), t, bound + RefundPerGas * (gas - left))
    ensures outcome == Done && (readOnly || i.kind == Static) ==>
      Untouched(old(db.States()), db.States(), t.natives, bound + RefundPerGas * (gas - left))
    ensures fresh(db.CurrentStore().repr - old(db.CurrentStore().repr))
    decreases gas, 2
  {
    hide Good, AllHarmless, StateDB.Valid, Untouched, Quiet, AfterOps;
    inner := None;
    ghost var was := db.States();
    if i.kind == Call && i.target.Missing? && !i.pays {
      NothingTouched(was, t.natives, bound);
      return gas, Done, None;
    }
    ApplyAll(db, i.transfer, t, bound);
    ghost var between := db.States();
    QuietMeans(was, between, t.natives, bound);
    match i.target {
      case Builtin(cost, ok, ops) =>
        if gas < cost {
          return 0, Failed, None;
        }
        ApplyAll(db, ops, t, bound);
        QuietMeans(between, db.States(), t.natives, bound);
        GoodMono(db.States(), t, bound, bound + RefundPerGas * cost);
        UntouchedMono(between, db.States(), t.natives, bound, bound + RefundPerGas * cost);
        left, outcome := gas - cost, if ok then Done else Failed;
      case Code =>
        ghost var frame;
        left, outcome, frame := Run(db, gas, readOnly || i.kind == Static, depth + 1, t, bound);
        inner := Some(frame);
      case _ =>
        left, outcome := gas, Done;
        NothingTouched(between, t.natives, bound);
    }
    KeepsTrans(was, between, db.States());
    if outcome == Done && (readOnly || i.kind == Static) {
      UntouchedTrans(was, between, db.States(), t.natives, bound, bound + RefundPerGas * (gas - left));
    }
  }

  lemma NothingTouched(states: seq<Plain>, natives: set<Address>, bound: int)
    requires states != []
    ensures Untouched(states, states, natives, bound)
  {
  }

  /**
   What comes back of the gas that a creation was given: all of it when it is refused, none when the address is
   taken, and else what the code leaves, less 200 for every byte of the contract; an error that is no revert
   uses up all.
   */
  ghost predicate Created(i: Instr, gas: nat, depth: nat, left: nat, outcome: Outcome, inner: Option<Frame>)
    requires i.Create?
  {
    && (inner.Some? <==> !Refused(i, depth) && !i.collides)
    && (Refused(i, depth) ==> left == gas && outcome == Failed)
    && (!Refused(i, depth) && i.collides ==> left == 0 && outcome == Failed)
    && (inner.Some? ==>
        && inner.value.gas == gas && !inner.value.readOnly
        && (outcome == Done <==> inner.value.outcome == Done && i.codeOk && i.codeSize * 200 <= inner.value.left)
        && (outcome == Reverted <==> inner.value.outcome == Reverted)
        && (outcome == Done ==> left == inner.value.left - i.codeSize * 200)
        && (outcome == Reverted ==> left == inner.value.left)
        && (outcome == Failed ==> left == 0))
  }

  /**
   What a creation does to the state: nothing when it is refused; else first what stays in any case, and if it
   does not fail the transfer, the code in a layer of its own, and the code of the contract.
   */
  ghost predicate Grew(i: Instr, depth: nat, was: seq<Plain>, now: seq<Plain>, outcome: Outcome, inner: Option<Frame>)
    requires i.Create?
  {
    if Refused(i, depth) then now == was
    else
      var prepared := AfterOps(was, i.prepare);
      if outcome != Done then now == prepared
      else inner.Some? && inner.value.start == AfterOps(Frozen(prepared), i.transfer) && now == AfterOps(inner.value.end, i.setCode)
  }

  ghost predicate CreationIs(i: Instr, gas: nat, depth: nat, was: seq<Plain>, now: seq<Plain>, left: nat, inner: Option<Frame>)
    requires i.Create?
  {
    exists outcome :: Created(i, gas, depth, left, outcome, inner) && Grew(i, depth, was, now, outcome, inner)
  }

  /** The creating instructions: all but one 64th of the gas that is left goes to the new frame, and what it leaves comes back. */
  method DoCreate(db: StateDB, gas: Gas.U64, i: Instr, readOnly: bool, depth: nat, t: Setting, ghost bound: int)
    returns (left: nat, ok: bool, child: nat, ghost returned: nat, ghost inner: Option<Frame>)
    requires db.Valid() && |db.States()| > 1 && Good(db.States(), t, bound) && i.Create? && InstrOk(i, t.natives) && depth <= MaxDepth
    modifies db, db.CurrentStore().repr
    ensures db.Valid() && Keeps(old(db.States()), db.States())
    ensures left <= gas && (ok ==> Good(db.States(), t, bound + RefundPerGas * (gas - left)))
    ensures ok <==> i.gas <= gas && !readOnly
    ensures ok ==>
      && child == Gas.AllButOne64th(gas - i.gas) && left == gas - i.gas - child + returned && returned <= child
      && CreationIs(i, child, depth, AfterOps(old(db.States()), i.listed), db.States(), returned, inner)
    ensures Nested(inner, depth) && (!ok ==> inner.None?)
    ensures fresh(db.CurrentStore().repr - old(db.CurrentStore().repr))
    decreases gas, 5
  {
    hide Good, AllHarmless, StateDB.Valid, Untouched, Quiet, Created, Grew, AfterOps;
    OnlyListsHarmless(i.listed, t.natives);
    ghost var was := db.States();
    left, ok := Charge(db, gas, i.gas, i.listed, t, bound);
    QuietMeans(was, db.States(), t.natives, bound);
    if !ok || readOnly {
      return left, false, 0, 0, None;
    }
    child := Gas.AllButOne64th(left);
    ghost var between := db.States();
    ghost var prepared;
    var back, outcome;
    back, outcome, prepared, inner := Make(db, child, i, depth, t, bound);
    assert CreationIs(i, child, depth, between, db.States(), back, inner);
    GoodMono(db.States(), t, bound + RefundPerGas * (child - back), bound + RefundPerGas * (gas - (left - child + back)));
    left, returned := left - child + back, back;
    KeepsTrans(was, between, db.States());
  }

  /**
   Runs the code that creates a contract, also as the outermost one of a transaction. What was done before
   the snapshot stays even on an error; an error goes back to that state, and uses up all gas unless it is a
   revert or the creation was refused at once.
   */
  method Make(db: StateDB, gas: Gas.U64, i: Instr, depth: nat, t: Setting, ghost bound: int)
    returns (left: nat, outcome: Outcome, ghost prepared: seq<Plain>, ghost inner: Option<Frame>)
    requires db.Valid() && Good(db.States(), t, bound) && i.Create? && InstrOk(i, t.natives)
    modifies db, db.CurrentStore().repr
    ensures db.Valid() && left <= gas && Keeps(old(db.States()), db.States())
    ensures Good(db.States(), t, bound + RefundPerGas * (gas - left))
    ensures Created(i, gas, depth, left, outcome, inner) && Nested(inner, depth)
    ensures Grew(i, depth, old(db.States()), db.States(), outcome, inner)
    ensures Refused(i, depth) ==> prepared == old(db.States())
    ensures |prepared| == |old(db.States())| && Keeps(old(db.States()), prepared) && Good(prepared, t, bound)
    ensures if outcome == Done then Above(prepared, db.States()) else db.States() == prepared
    ensures fresh(db.CurrentStore().repr - old(db.CurrentStore().repr))
    decreases gas, 4
  {
    hide Good, InstrOk, StateDB.Valid, Untouched, Quiet, AllHarmless, AfterOps;
    ghost var was := db.States();
    prepared, inner := was, None;
    GoodMono(was, t, bound, bound + RefundPerGas * 0);
    if depth > CallCreateDepth || !i.affordable {
      return gas, Failed, prepared, None;
    }
    CreateHarmless(i, t.natives);
    ApplyAll(db, i.prepare, t, bound);
    prepared := db.States();
    QuietMeans(was, prepared, t.natives, bound);
    GoodMono(prepared, t, bound, bound + RefundPerGas * gas);
    if i.collides {
      return 0, Failed, prepared, None;
    }
    left, outcome, inner := Build(db, gas, i, depth, t, bound);
    KeepsTrans(was, prepared, db.States());
  }

  lemma OnlyListsHarmless(ops: seq<Op>, natives: set<Address>)
    requires OnlyLists(ops)
    ensures AllHarmless(ops, natives)
  {
  }

  lemma CreateHarmless(i: Instr, natives: set<Address>)
    requires i.Create? && InstrOk(i, natives)
    ensures AllHarmless(i.prepare, natives) && AllHarmless(i.transfer, natives) && AllHarmless(i.setCode, natives)
  {
  }

  method Build(db: StateDB, gas: Gas.U64, i: Instr, depth: nat, t: Setting, ghost bound: int)
    returns (left: nat, outcome: Outcome, ghost inner: Option<Frame>)
    requires db.Valid() && Good(db.States(), t, bound) && i.Create? && InstrOk(i, t.natives) && !Refused(i, depth) && !i.collides
    modifies db, db.CurrentStore().repr
    ensures db.Valid() && left <= gas && Keeps(old(db.States()), db.States())
    ensures Good(db.States(), t, bound + RefundPerGas * (gas - left))
    ensures Created(i, gas, depth, left, outcome, inner) && Nested(inner, depth)
    ensures outcome == Done ==>
      && inner.Some? && db.States() == AfterOps(inner.value.end, i.setCode)
      && inner.value.start == AfterOps(Frozen(old(db.States())), i.transfer)
    ensures if outcome == Done then Above(old(db.States()), db.States()) else db.States() == old(db.States())
    ensures fresh(db.CurrentStore().repr - old(db.CurrentStore().repr))
    decreases gas, 3
  {
    hide Good, InstrOk, StateDB.Valid, Untouched, Quiet, AfterOps;
    ghost var was := db.States();
    var id := Freeze(db, t, bound);
    ghost var frozen := db.States();
    ghost var frame;
    left, outcome, frame := Construct(db, gas, i, depth, t, bound);
    inner := Some(frame);
    AboveKeeps(was, frozen, db.States());
    left := Settle(db, id, left, outcome, was);
    if outcome != Done {
      GoodMono(was, t, bound, bound + RefundPerGas * (gas - left));
    }
  }

  /** The code of the new contract is what its frame returns, and storing it costs by its size. */
  method Construct(db: StateDB, gas: Gas.U64, i: Instr, depth: nat, t: Setting, ghost bound: int)
    returns (left: nat, outcome: Outcome, ghost frame: Frame)
    requires db.Valid() && |db.States()| > 1 && Good(db.States(), t, bound) && i.Create? && InstrOk(i, t.natives) && depth <= CallCreateDepth
    modifies db, db.CurrentStore().repr
    ensures db.Valid() && Keeps(old(db.States()), db.States()) && left <= gas
    ensures outcome == Done ==> Good(db.States(), t, bound + RefundPerGas * (gas - left))
    ensures frame.gas == gas && !frame.readOnly && Nested(Some(frame), depth)
    ensures outcome == Done <==> frame.outcome == Done && i.codeOk && i.codeSize * 200 <= frame.left
    ensures outcome == Reverted <==> frame.outcome == Reverted
    ensures outcome == Done ==> left == frame.left - i.codeSize * 200
    ensures outcome == Reverted ==> left == frame.left
    ensures frame.start == AfterOps(old(db.States()), i.transfer) && (outcome == Done ==> db.States() == AfterOps(frame.end, i.setCode))
    ensures fresh(db.CurrentStore().repr - old(db.CurrentStore().repr))
    decreases gas, 2
  {
    hide Good, AllHarmless, InstrOk, StateDB.Valid, Untouched, Quiet, AfterOps;
    CreateHarmless(i, t.natives);
    ghost var was := db.States();
    ApplyAll(db, i.transfer, t, bound);
    ghost var between := db.States();
    QuietMeans(was, between, t.natives, bound);
    left, outcome, frame := Run(db, gas, false, depth + 1, t, bound);
    KeepsTrans(was, between, db.States());
    if outcome != Done {
      return;
    }
    if !i.codeOk || left < i.codeSize * CreateDataGas {
      return left, Failed, frame;
    }
    ghost var after := db.States();
    ApplyAll(db, i.setCode, t, bound + RefundPerGas * (gas - left));
    QuietMeans(after, db.States(), t.natives, bound);
    KeepsTrans(was, after, db.States());
    GoodMono(db.States(), t, bound + RefundPerGas * (gas - left), bound + RefundPerGas * (gas - (left - i.codeSize * CreateDataGas)));
    left := left - i.codeSize * CreateDataGas;
  }

  // ---- transactions ----

  /** A transaction: the state changes before and after its outermost call or creation. */
  datatype Tx = Tx(gas: Gas.U64, before: seq<Op>, outermost: Instr, after: seq<Op>)

  predicate TxOk(tx: Tx, natives: set<Address>) {
    && AllHarmless(tx.before, natives) && AllHarmless(tx.after, natives)
    && (tx.outermost.Invoke? || tx.outermost.Create?) && InstrOk(tx.outermost, natives)
  }

  /** Between transactions: one layer, and nothing on its counter. */
  ghost predicate Idle(states: seq<Plain>) {
    |states| == 1 && states[0].refund == 0
  }

  /** What comes of the outermost call or creation. */
  ghost predicate IsOutermost(i: Instr, gas: nat, left: nat, outcome: Outcome, inner: Option<Frame>)
    requires i.Invoke? || i.Create?
  {
    Nested(inner, 0) && if i.Invoke? then Called(i, gas, false, 0, left, outcome, inner) else Created(i, gas, 0, left, outcome, inner)
  }

  /** What it does to the states. */
  ghost predicate OutermostDid(i: Instr, was: seq<Plain>, now: seq<Plain>, outcome: Outcome, inner: Option<Frame>)
    requires i.Invoke? || i.Create?
  {
    if i.Invoke? then Took(i, was, now, outcome, inner) else Grew(i, 0, was, now, outcome, inner)
  }

  /** First what comes before the outermost call or creation, then this, and last what comes after. */
  ghost predicate TxDid(tx: Tx, was: seq<Plain>, now: seq<Plain>, outcome: Outcome, inner: Option<Frame>)
    requires tx.outermost.Invoke? || tx.outermost.Create?
  {
    exists done :: OutermostDid(tx.outermost, AfterOps(was, tx.before), done, outcome, inner) && now == AfterOps(done, tx.after)
  }

  /** The storage of the last layer is taken over, and all layers but the first go. */
  function Committed(states: seq<Plain>): seq<Plain> {
    if states == [] then [] else [states[0].(storage := states[|states| - 1].storage)]
  }

  /** A whole transaction, and what comes back of its gas. */
  ghost predicate TxStep(tx: Tx, was: seq<Plain>, now: seq<Plain>, left: nat) {
    && (tx.outermost.Invoke? || tx.outermost.Create?)
    && exists ended, outcome, inner ::
        TxDid(tx, was, ended, outcome, inner) && IsOutermost(tx.outermost, tx.gas, left, outcome, inner) && now == Committed(ended)
  }

  /**
   One transaction over the state of its block: the counter that is read at its end is the true one, at least
   the refund for every slot that it has cleared and at most what its gas allows, if that fits 63 bits. A
   transaction that does not succeed gets no refund; after it the state is idle again.
   */
  method Transact(db: StateDB, tx: Tx, t: Setting)
    returns (left: nat, outcome: Outcome, refund: nat, ghost ended: seq<Plain>, ghost inner: Option<Frame>)
    requires db.Valid() && Idle(db.States()) && TxOk(tx, t.natives) && t.clearing <= MaxRefund
    modifies db, db.CurrentStore().repr
    ensures db.Valid() && Idle(db.States()) && left <= tx.gas && ended != [] && IsOutermost(tx.outermost, tx.gas, left, outcome, inner)
    ensures db.States() == Committed(ended) && TxDid(tx, old(db.States()), ended, outcome, inner)
    ensures RefundPerGas * (tx.gas - left) < TWO63 ==> refund == Counter(ended) <= RefundPerGas * (tx.gas - left)
    ensures RefundPerGas * (tx.gas - left) < TWO63 && outcome == Done ==>
      refund >= t.clearing * |Cleared(ended[0].storage, ended[|ended| - 1].storage, t.natives)|
    ensures outcome != Done ==> refund == 0 && |ended| == 1
    ensures fresh(db.CurrentStore().repr - old(db.CurrentStore().repr))
  {
    hide Good, TxOk, InstrOk, AllHarmless, Cleared, Layer.Valid, IsOutermost, TxDid;
    left, outcome, inner := RunTx(db, tx, t);
    ended := db.States();
    if RefundPerGas * (tx.gas - left) < TWO63 { CounterExact(ended, t, RefundPerGas * (tx.gas - left)); }
    refund := db.GetRefund();
    db.Commit();
  }

  lemma IdleGood(states: seq<Plain>, t: Setting)
    requires Idle(states) && t.clearing <= MaxRefund
    ensures Good(states, t, 0)
  {
  }

  method RunTx(db: StateDB, tx: Tx, t: Setting) returns (left: nat, outcome: Outcome, ghost inner: Option<Frame>)
    requires db.Valid() && Idle(db.States()) && TxOk(tx, t.natives) && t.clearing <= MaxRefund
    modifies db, db.CurrentStore().repr
    ensures db.Valid() && left <= tx.gas && Good(db.States(), t, RefundPerGas * (tx.gas - left))
    ensures IsOutermost(tx.outermost, tx.gas, left, outcome, inner) && TxDid(tx, old(db.States()), db.States(), outcome, inner)
    ensures |db.States()| >= 1 && db.States()[0].refund == 0 && (outcome == Done <==> |db.States()| > 1)
    ensures fresh(db.CurrentStore().repr - old(db.CurrentStore().repr))
  {
    hide Quiet, AfterOps, OutermostDid, IsOutermost, Good;
    IdleGood(db.States(), t);
    ghost var was := db.States();
    ApplyAll(db, tx.before, t, 0);
    QuietMeans(was, db.States(), t.natives, 0);
    left, outcome, inner := Outermost(db, tx.gas, tx.outermost, t);
    ghost var between := db.States();
    ApplyAll(db, tx.after, t, RefundPerGas * (tx.gas - left));
    QuietMeans(between, db.States(), t.natives, 0);
    if |between| > 1 { assert db.States()[..|between| - 1][0] == between[..|between| - 1][0]; }
  }

  /** The outermost call or creation, on a state with one layer. */
  method Outermost(db: StateDB, gas: Gas.U64, i: Instr, t: Setting) returns (left: nat, outcome: Outcome, ghost inner: Option<Frame>)
    requires db.Valid() && Good(db.States(), t, 0) && |db.States()| == 1 && (i.Invoke? || i.Create?) && InstrOk(i, t.natives)
    modifies db, db.CurrentStore().repr
    ensures db.Valid() && left <= gas && Good(db.States(), t, RefundPerGas * (gas - left)) && IsOutermost(i, gas, left, outcome, inner)
    ensures OutermostDid(i, old(db.States()), db.States(), outcome, inner)
    ensures |db.States()| >= 1 && db.States()[0].refund == 0 && (outcome == Done <==> |db.States()| > 1)
    ensures fresh(db.CurrentStore().repr - old(db.CurrentStore().repr))
  {
    hide InstrOk;
    ghost var was := db.States();
    if i.Invoke? {
      left, outcome, inner := Enter(db, gas, i, false, 0, t, 0);
      GoodMono(was, t, 0, RefundPerGas * (gas - left));
      assert db.States()[..1][0] == was[0];
    } else {
      ghost var prepared;
      left, outcome, prepared, inner := Make(db, gas, i, 0, t, 0);
      assert db.States()[..1][0] == prepared[0];
    }
  }

  lemma CounterExact(states: seq<Plain>, t: Setting, bound: int)
    requires Good(states, t, bound) && bound < TWO63
    ensures states != [] && 0 <= Counter(states) <= bound && Counter(states) % TWO64 == Counter(states)
    ensures |states| > 1 ==> states[|states| - 1].refund >= t.clearing * |Cleared(states[0].storage, states[|states| - 1].storage, t.natives)|
  {
    assert t.clearing * |Cleared(states[0].storage, states[|states| - 1].storage, t.natives)| >= 0;
  }

  /** Transactions one after the other, from one idle state to the next. */
  ghost predicate Chain(txs: seq<Tx>, states: seq<seq<Plain>>, left: seq<nat>) {
    && |states| == |txs| + 1 && |left| == |txs| && Idle(states[|txs|])
    && forall k :: 0 <= k < |txs| ==> Idle(states[k]) && TxStep(txs[k], states[k], states[k + 1], left[k])
  }

  lemma ChainGrows(txs: seq<Tx>, states: seq<seq<Plain>>, left: seq<nat>, tx: Tx, now: seq<Plain>, l: nat)
    requires Chain(txs, states, left) && TxStep(tx, states[|txs|], now, l) && Idle(now)
    ensures Chain(txs + [tx], states + [now], left + [l])
  {
    hide TxStep, Idle;
    var txs', states', left' := txs + [tx], states + [now], left + [l];
    forall k | 0 <= k < |txs'| ensures Idle(states'[k]) && TxStep(txs'[k], states'[k], states'[k + 1], left'[k]) {
      if k < |txs| { assert TxStep(txs[k], states[k], states[k + 1], left[k]); }
    }
  }

  /** Any number of transactions over a new state. */
  method Block(store: MemCachedStore, txs: seq<Tx>, t: Setting)
    returns (db: StateDB, left: seq<nat>, ghost states: seq<seq<Plain>>)
    requires store.Valid() && t.clearing <= MaxRefund
    requires forall k :: 0 <= k < |txs| ==> TxOk(txs[k], t.natives)
    modifies store.repr
    ensures db.Valid() && Chain(txs, states, left)
    ensures states[0] == [Plain(old(store.contents), 0, [], map[], {}, iset{})] && states[|txs|] == db.States()
  {
    hide TxOk;
    db := new StateDB(store);
    ghost var repr := store.repr;
    left, states := [], [db.States()];
    var k := 0;
    while k < |txs|
      invariant k <= |txs| && db.Valid() && fresh(db) && fresh(db.CurrentStore().repr - repr)
      invariant Chain(txs[..k], states, left) && states[k] == db.States()
      invariant states[0] == [Plain(old(store.contents), 0, [], map[], {}, iset{})]
    {
      hide TxStep, StateDB.Valid;
      assert txs[..k + 1] == txs[..k] + [txs[k]];
      var l := OneTx(db, txs[k], t);
      ChainGrows(txs[..k], states, left, txs[k], db.States(), l);
      left, states, k := left + [l], states + [db.States()], k + 1;
    }
    assert txs[..k] == txs;
  }

  method OneTx(db: StateDB, tx: Tx, t: Setting) returns (left: nat)
    requires db.Valid() && Idle(db.States()) && TxOk(tx, t.natives) && t.clearing <= MaxRefund
    modifies db, db.CurrentStore().repr
    ensures db.Valid() && Idle(db.States()) && TxStep(tx, old(db.States()), db.States(), left)
    ensures fresh(db.CurrentStore().repr - old(db.CurrentStore().repr))
  {
    hide TxDid, IsOutermost;
    ghost var ended, inner;
    var outcome, refund;
    left, outcome, refund, ended, inner := Transact(db, tx, t);
    assert TxDid(tx, old(db.States()), ended, outcome, inner);
  }
}
