/**
 The memory pool (pkg/core/mempool/mem_pool.go): a list sorted by priority, an index by hash, and
 for each payer the balance and the sum of the costs of its transactions.
 */
module Mempool {
  import opened Wrappers

  type Hash = nat
  type Account = nat
  type Data = nat

  datatype Tx = Tx(hash: Hash, from: Account, nonce: nat, gasPrice: nat, gas: nat, cost: nat, feePerByte: nat)

  datatype Item = Item(txn: Tx, blockStamp: nat, data: Option<Data>)

  datatype Fees = Fees(balance: nat, feeSum: nat)

  function Charged(f: Fees, cost: nat): Fees {
    f.(feeSum := f.feeSum + cost)
  }

  function Released(f: Fees, cost: nat): Fees {
    if cost <= f.feeSum then f.(feeSum := f.feeSum - cost) else f
  }

  /** What the pool asks the chain. */
  datatype Feer = Feer(height: nat, feePerByte: nat, balanceOf: Account -> nat)

  datatype PoolError = InsufficientFunds | Conflict | Dup | OOM

  // ---- priority ----

  /** Positive when the first has priority. */
  function CompareTo(a: Tx, b: Tx): int {
    if a.gasPrice != b.gasPrice then (if a.gasPrice > b.gasPrice then 1 else -1)
    else if a.gas != b.gas then (if a.gas > b.gas then 1 else -1)
    else if a.hash != b.hash then (if a.hash > b.hash then 1 else -1)
    else 0
  }

  predicate Beats(a: Tx, b: Tx, orEqual: bool) {
    if orEqual then CompareTo(a, b) >= 0 else CompareTo(a, b) > 0
  }

  /** All before `n` keep their place against `tx`, all from `n` on do not. */
  ghost predicate IsPlace(tx: Tx, v: seq<Item>, n: nat, orEqual: bool) {
    && n <= |v|
    && (forall i :: 0 <= i < n ==> !Beats(tx, v[i].txn, orEqual))
    && (forall i :: n <= i < |v| ==> Beats(tx, v[i].txn, orEqual))
  }

  /** Same sender and nonce, and a lower gas price. */
  ghost predicate Replaces(tx: Tx, existTx: Tx) {
    existTx.from == tx.from && existTx.nonce == tx.nonce && existTx.gasPrice < tx.gasPrice
  }

  ghost predicate Descending(v: seq<Item>) {
    forall i, j :: 0 <= i < j < |v| ==> CompareTo(v[i].txn, v[j].txn) > 0
  }

  /** A transaction comes before another one: by gas price, then by gas, then by hash, the larger first. */
  predicate Ahead(a: Tx, b: Tx) {
    a.gasPrice > b.gasPrice || (a.gasPrice == b.gasPrice && (a.gas > b.gas || (a.gas == b.gas && a.hash > b.hash)))
  }

  lemma Priority(v: seq<Item>)
    ensures Descending(v) <==> forall i, j :: 0 <= i < j < |v| ==> Ahead(v[i].txn, v[j].txn)
  {
  }

  /** The costs that a payer has in the list. */
  function SumOf(v: seq<Item>, payer: Account): nat {
    if v == [] then 0
    else (if v[0].txn.from == payer then v[0].txn.cost else 0) + SumOf(v[1..], payer)
  }

  lemma {:induction false} SumConcat(a: seq<Item>, b: seq<Item>, payer: Account)
    ensures SumOf(a + b, payer) == SumOf(a, payer) + SumOf(b, payer)
  {
    if a == [] {
      assert a + b == b;
    } else {
      SumConcat(a[1..], b, payer);
      assert (a + b)[1..] == a[1..] + b;
    }
  }

  /** The sum of a list with one more item in it. */
  lemma SumWith(v: seq<Item>, n: nat, x: Item, payer: Account)
    requires n <= |v|
    ensures SumOf(v[..n] + [x] + v[n..], payer) == SumOf(v, payer) + if x.txn.from == payer then x.txn.cost else 0
  {
    SumConcat(v[..n] + [x], v[n..], payer);
    SumConcat(v[..n], [x], payer);
    SumConcat(v[..n], v[n..], payer);
    assert v[..n] + v[n..] == v;
    assert [x][1..] == [];
  }

  /** The index holds exactly the transactions of the list. */
  ghost predicate Indexed(v: seq<Item>, m: map<Hash, Tx>) {
    && (forall i :: 0 <= i < |v| ==> v[i].txn.hash in m && m[v[i].txn.hash] == v[i].txn)
    && (forall h :: h in m ==> Pooled(v, h))
  }

  ghost predicate Pooled(v: seq<Item>, h: Hash) {
    exists i :: 0 <= i < |v| && v[i].txn.hash == h
  }

  /** Per payer the pooled costs are within the recorded sum, and that within the recorded balance. */
  ghost predicate Covered(v: seq<Item>, fees: map<Account, Fees>) {
    && (forall i :: 0 <= i < |v| ==> v[i].txn.from in fees)
    && (forall p :: p in fees ==> SumOf(v, p) <= fees[p].feeSum <= fees[p].balance)
  }

  ghost predicate PoolOk(v: seq<Item>, m: map<Hash, Tx>, fees: map<Account, Fees>, capacity: nat) {
    Descending(v) && Indexed(v, m) && Covered(v, fees) && |v| <= capacity
  }

  lemma InsertOrder(v: seq<Item>, n: nat, x: Item)
    requires Descending(v) && n <= |v| && forall i :: 0 <= i < |v| ==> v[i].txn.hash != x.txn.hash
    requires forall i :: 0 <= i < n ==> CompareTo(x.txn, v[i].txn) <= 0
    requires forall i :: n <= i < |v| ==> CompareTo(x.txn, v[i].txn) > 0
    ensures Descending(v[..n] + [x] + v[n..])
  {
    var v' := v[..n] + [x] + v[n..];
    forall i, j | 0 <= i < j < |v'| ensures CompareTo(v'[i].txn, v'[j].txn) > 0 {
      var i', j' := if i < n then i else i - 1, if j < n then j else j - 1;
      if i != n && j != n {
        assert v'[i] == v[i'] && v'[j] == v[j'];
      } else if j == n {
        assert v'[i] == v[i];
      } else {
        assert v'[j] == v[j'];
      }
    }
  }

  lemma InsertIndexed(v: seq<Item>, m: map<Hash, Tx>, n: nat, x: Item)
    requires Indexed(v, m) && x.txn.hash !in m && n <= |v|
    ensures Indexed(v[..n] + [x] + v[n..], m[x.txn.hash := x.txn])
  {
    var v', m' := v[..n] + [x] + v[n..], m[x.txn.hash := x.txn];
    forall i | 0 <= i < |v'| ensures v'[i].txn.hash in m' && m'[v'[i].txn.hash] == v'[i].txn {
      if i != n { assert v'[i] == v[if i < n then i else i - 1]; }
    }
    forall h | h in m' ensures Pooled(v', h) {
      if h == x.txn.hash {
        assert v'[n].txn.hash == h;
      } else {
        assert Pooled(v, h);
        var i :| 0 <= i < |v| && v[i].txn.hash == h;
        assert v'[if i < n then i else i + 1].txn.hash == h;
      }
    }
  }

  /** No two transactions of the pool have the same hash. */
  lemma HashesDiffer(v: seq<Item>, m: map<Hash, Tx>, i: nat, j: nat)
    requires Descending(v) && Indexed(v, m) && i < |v| && j < |v| && i != j
    ensures v[i].txn.hash != v[j].txn.hash
  {
    assert CompareTo(v[if i < j then i else j].txn, v[if i < j then j else i].txn) > 0;
  }

  /** The list without one item. */
  function Dropped(v: seq<Item>, n: nat): (r: seq<Item>)
    requires n < |v|
    ensures |r| == |v| - 1 && forall i :: 0 <= i < |r| ==> r[i] == v[Behind(i, n)]
  {
    v[..n] + v[n + 1..]
  }

  function Behind(i: nat, n: nat): nat {
    if i < n then i else i + 1
  }

  lemma RemoveOrder(v: seq<Item>, n: nat)
    requires Descending(v) && n < |v|
    ensures Descending(Dropped(v, n))
  {
  }

  lemma RemoveIndexed(v: seq<Item>, m: map<Hash, Tx>, n: nat)
    requires Descending(v) && Indexed(v, m) && n < |v|
    ensures Indexed(Dropped(v, n), m - {v[n].txn.hash})
  {
    var v', m' := Dropped(v, n), m - {v[n].txn.hash};
    forall i | 0 <= i < |v'| ensures v'[i].txn.hash in m' && m'[v'[i].txn.hash] == v'[i].txn {
      HashesDiffer(v, m, Behind(i, n), n);
    }
    forall h | h in m' ensures Pooled(v', h) {
      assert Pooled(v, h);
      var i :| 0 <= i < |v| && v[i].txn.hash == h;
      StillThere(v, n, i);
    }
  }

  lemma Unpooled(v: seq<Item>, m: map<Hash, Tx>, hash: Hash)
    requires Indexed(v, m) && hash !in m
    ensures forall x :: x in v ==> x.txn.hash != hash
  {
  }

  lemma DroppedItems(v: seq<Item>, m: map<Hash, Tx>, n: nat)
    requires Descending(v) && Indexed(v, m) && n < |v|
    ensures forall x :: x in Dropped(v, n) <==> x in v && x.txn.hash != v[n].txn.hash
  {
    forall x | x in v && x.txn.hash != v[n].txn.hash ensures x in Dropped(v, n) {
      var i :| 0 <= i < |v| && v[i] == x;
      assert Dropped(v, n)[if i < n then i else i - 1] == v[i];
    }
    forall i: nat | i < |v| && i != n ensures v[i].txn.hash != v[n].txn.hash { HashesDiffer(v, m, i, n); }
  }

  lemma StillThere(v: seq<Item>, n: nat, i: nat)
    requires n < |v| && i < |v| && i != n
    ensures Pooled(Dropped(v, n), v[i].txn.hash)
  {
    assert Dropped(v, n)[if i < n then i else i - 1] == v[i];
  }

  lemma SumWithout(v: seq<Item>, n: nat, payer: Account)
    requires n < |v|
    ensures SumOf(v, payer) == SumOf(Dropped(v, n), payer) + if v[n].txn.from == payer then v[n].txn.cost else 0
  {
    var v' := Dropped(v, n);
    SumWith(v', n, v[n], payer);
    assert v'[..n] + [v[n]] + v'[n..] == v;
  }

  /** Without one item the sums of the others are covered as before, and that of its payer without its cost. */
  lemma RemoveCovered(v: seq<Item>, n: nat, fees: map<Account, Fees>)
    requires Covered(v, fees) && n < |v|
    ensures var tx := v[n].txn; var f := fees[tx.from];
      f.feeSum >= tx.cost && Covered(Dropped(v, n), fees[tx.from := Released(f, tx.cost)])
    ensures Covered(Dropped(v, n), fees)
  {
    var v', tx := Dropped(v, n), v[n].txn;
    forall p ensures SumOf(v, p) == SumOf(v', p) + if tx.from == p then tx.cost else 0 {
      SumWithout(v, n, p);
    }
  }

  /** Of all transactions this one comes last. */
  ghost predicate IsLast(m: map<Hash, Tx>, h: Hash) {
    h in m && forall g :: g in m && g != h ==> Ahead(m[g], m[h])
  }

  /** The items of all other transactions. */
  ghost predicate WithoutHash(v': seq<Item>, v: seq<Item>, hash: Hash) {
    forall x :: x in v' <==> x in v && x.txn.hash != hash
  }

  /** A transaction is taken out. */
  lemma OneOut(v: seq<Item>, m: map<Hash, Tx>, fees: map<Account, Fees>, capacity: nat, n: nat)
    requires PoolOk(v, m, fees, capacity) && n < |v|
    ensures var tx := v[n].txn;
      && tx.from in fees && tx.cost <= fees[tx.from].feeSum
      && PoolOk(Dropped(v, n), m - {tx.hash}, fees[tx.from := Released(fees[tx.from], tx.cost)], capacity)
    ensures WithoutHash(Dropped(v, n), v, v[n].txn.hash)
  {
    RemoveOrder(v, n);
    DroppedItems(v, m, n);
    RemoveIndexed(v, m, n);
    RemoveCovered(v, n, fees);
  }

  /** The transaction is added; when the pool was full the last one, which comes after it, has gone. */
  ghost predicate Admits(tx: Tx, m: map<Hash, Tx>, full: bool, m': map<Hash, Tx>) {
    if full then exists h: Hash :: IsLast(m, h) && Ahead(tx, m[h]) && m' == (m - {h})[tx.hash := tx]
    else m' == m[tx.hash := tx]
  }

  /** The transaction has taken the place of a rival, whose cost is not recorded any longer. */
  ghost predicate TakesPlace(tx: Tx, rival: Tx, m: map<Hash, Tx>, fees: map<Account, Fees>, f: Fees, m': map<Hash, Tx>, fees': map<Account, Fees>) {
    m' == (m - {rival.hash})[tx.hash := tx] && rival.cost <= f.feeSum && fees' == fees[tx.from := Fees(f.balance, f.feeSum - rival.cost + tx.cost)]
  }

  /** Adding a transaction that is not pooled and replaces none. */
  ghost predicate PlainAddition(tx: Tx, err: Option<PoolError>, m: map<Hash, Tx>, fees: map<Account, Fees>, f: Fees, capacity: nat,
    m': map<Hash, Tx>, fees': map<Account, Fees>)
  {
    && (err == Some(InsufficientFunds) <==> f.balance < tx.cost)
    && (err == Some(Conflict) <==> tx.cost <= f.balance < tx.cost + f.feeSum)
    && (err == Some(OOM) <==> tx.cost + f.feeSum <= f.balance && |m| == capacity && forall h :: h in m ==> !Ahead(tx, m[h]))
    && (err.None? ==> Admits(tx, m, |m| == capacity, m') && fees' == fees[tx.from := Fees(f.balance, f.feeSum + tx.cost)])
  }

  /** Adding a transaction that replaces one: the balance counts without the cost of that one. */
  ghost predicate Replacement(tx: Tx, err: Option<PoolError>, m: map<Hash, Tx>, fees: map<Account, Fees>, f: Fees,
    m': map<Hash, Tx>, fees': map<Account, Fees>)
  {
    exists h :: h in m && Replaces(tx, m[h])
      && (err == Some(InsufficientFunds) <==> f.balance < tx.cost)
      && (err == Some(Conflict) <==> tx.cost <= f.balance < tx.cost + f.feeSum - m[h].cost)
      && err != Some(OOM)
      && (err.None? ==> TakesPlace(tx, m[h], m, fees, f, m', fees'))
  }

  lemma LastIs(v: seq<Item>, m: map<Hash, Tx>)
    requires Descending(v) && Indexed(v, m) && v != []
    ensures var tx := v[|v| - 1].txn; IsLast(m, tx.hash) && m[tx.hash] == tx
  {
    forall g | g in m && g != v[|v| - 1].txn.hash ensures Ahead(m[g], v[|v| - 1].txn) {
      assert Pooled(v, g);
    }
  }

  lemma Opened(v: seq<Item>, m: map<Hash, Tx>, fees: map<Account, Fees>, capacity: nat)
    requires PoolOk(v, m, fees, capacity)
    ensures Descending(v) && Indexed(v, m) && Covered(v, fees) && |v| <= capacity && |v| == |m|
  {
    SameSize(v, m);
  }

  lemma ReleasedIs(f: Fees, cost: nat)
    requires cost <= f.feeSum
    ensures Released(f, cost) == Fees(f.balance, f.feeSum - cost)
  {
  }

  lemma ReplacementIs(tx: Tx, rival: Tx, err: Option<PoolError>, m: map<Hash, Tx>, fees: map<Account, Fees>, f: Fees,
    m': map<Hash, Tx>, fees': map<Account, Fees>)
    requires rival.hash in m && m[rival.hash] == rival && Replaces(tx, rival) && rival.cost <= f.feeSum
    requires var r := CheckBalance(tx, f.(feeSum := f.feeSum - rival.cost)); err == if r.Ok? then None else Some(r.error)
    requires err.None? ==> TakesPlace(tx, rival, m, fees, f, m', fees')
    ensures Replacement(tx, err, m, fees, f, m', fees')
  {
    assert rival.hash in m && Replaces(tx, m[rival.hash]);
  }

  lemma AdditionIs(tx: Tx, err: Option<PoolError>, m: map<Hash, Tx>, fees: map<Account, Fees>, f: Fees, capacity: nat,
    m': map<Hash, Tx>, fees': map<Account, Fees>)
    requires var r := CheckBalance(tx, f); if r.Err? then err == Some(r.error) else err == None || err == Some(OOM)
    requires err == Some(OOM) ==> |m| == capacity && forall h :: h in m ==> !Ahead(tx, m[h])
    requires err.None? ==> Admits(tx, m, |m| == capacity, m') && fees' == fees[tx.from := Charged(f, tx.cost)]
    ensures PlainAddition(tx, err, m, fees, f, capacity, m', fees')
  {
  }

  lemma Exchanged(tx: Tx, rival: Tx, m: map<Hash, Tx>, fees: map<Account, Fees>, f: Fees)
    requires rival.cost <= f.feeSum
    ensures TakesPlace(tx, rival, m, fees, f, (m - {rival.hash})[tx.hash := tx],
      fees[tx.from := Released(f, rival.cost)][tx.from := Charged(Released(f, rival.cost), tx.cost)])
  {
  }

  lemma NoneBehind(tx: Tx, v: seq<Item>, m: map<Hash, Tx>)
    requires Indexed(v, m) && IsPlace(tx, v, |v|, false)
    ensures forall h :: h in m ==> !Ahead(tx, m[h])
  {
    forall h | h in m ensures !Ahead(tx, m[h]) {
      assert Pooled(v, h);
    }
  }

  lemma SomeBehind(tx: Tx, v: seq<Item>, n: nat)
    requires IsPlace(tx, v, n, false) && n < |v|
    ensures Ahead(tx, v[|v| - 1].txn) && IsPlace(tx, v[..|v| - 1], n, false)
  {
  }

  /** The list has as many items as the index. */
  lemma {:induction false} SameSize(v: seq<Item>, m: map<Hash, Tx>)
    requires Descending(v) && Indexed(v, m)
    ensures |v| == |m|
  {
    var hashes := set i | 0 <= i < |v| :: v[i].txn.hash;
    CountHashes(v);
    assert hashes == m.Keys by {
      forall h | h in m ensures h in hashes { assert Pooled(v, h); }
    }
    assert |m.Keys| == |m|;
  }

  lemma {:induction false} CountHashes(v: seq<Item>)
    requires forall i, j :: 0 <= i < j < |v| ==> v[i].txn.hash != v[j].txn.hash
    ensures |set i | 0 <= i < |v| :: v[i].txn.hash| == |v|
  {
    if v != [] {
      var w := v[..|v| - 1];
      CountHashes(w);
      assert (set i | 0 <= i < |v| :: v[i].txn.hash) == (set i | 0 <= i < |w| :: w[i].txn.hash) + {v[|v| - 1].txn.hash};
    }
  }

  class Pool {
    var verifiedMap: map<Hash, Tx>
    var verifiedTxes: seq<Item>
    var fees: map<Account, Fees>
    const capacity: nat
    var feePerByte: nat

    ghost predicate Valid()
      reads this
    {
      PoolOk(verifiedTxes, verifiedMap, fees, capacity)
    }

    constructor (capacity: nat)
      ensures Valid() && this.capacity == capacity && verifiedTxes == [] && fees == map[]
    {
      verifiedMap, verifiedTxes, fees, this.capacity, feePerByte := map[], [], map[], capacity, 0;
    }

    /** The balance and costs of a payer; the balance is asked for when the payer is new. */
    function FeesOf(payer: Account, feer: Feer): Fees
      reads this
    {
      if payer in fees then fees[payer] else Fees(feer.balanceOf(payer), 0)
    }

    /** Records the cost of a transaction, unless a check is asked for and fails. */
    method TryAddSendersFee(tx: Tx, feer: Feer, needCheck: bool) returns (ok: bool)
      modifies this`fees
      ensures var f := old(FeesOf(tx.from, feer)); ok == (!needCheck || f.feeSum + tx.cost <= f.balance)
      ensures var f := old(FeesOf(tx.from, feer));
        fees == old(fees)[tx.from := if ok then Charged(f, tx.cost) else f]
    {
      var senderFee := FeesOf(tx.from, feer);
      fees := fees[tx.from := senderFee];
      if needCheck {
        var newFeeSum := CheckBalance(tx, senderFee);
        if newFeeSum.Err? {
          return false;
        }
        senderFee := senderFee.(feeSum := newFeeSum.value);
      } else {
        senderFee := senderFee.(feeSum := senderFee.feeSum + tx.cost);
      }
      fees := fees[tx.from := senderFee];
      ok := true;
    }

    /** Binary search: the first position whose transaction comes after `tx` (or is not before it). */
    method Search(tx: Tx, orEqual: bool) returns (n: nat)
      requires Descending(verifiedTxes)
      ensures IsPlace(tx, verifiedTxes, n, orEqual)
    {
      n := 0;
      var j := |verifiedTxes|;
      while n < j
        invariant n <= j <= |verifiedTxes|
        invariant forall i :: 0 <= i < n ==> !Beats(tx, verifiedTxes[i].txn, orEqual)
        invariant forall i :: j <= i < |verifiedTxes| ==> Beats(tx, verifiedTxes[i].txn, orEqual)
      {
        var h := (n + j) / 2;
        if Beats(tx, verifiedTxes[h].txn, orEqual) {
          j := h;
        } else {
          n := h + 1;
        }
      }
    }

    /** A pooled transaction is to be replaced. */
    ghost predicate HasRival(tx: Tx)
      reads this
    {
      exists h :: h in verifiedMap && Replaces(tx, verifiedMap[h])
    }

    /** A transaction of the same sender and nonce that pays less is to be replaced; then the balance counts. */
    method CheckTxConflicts(tx: Tx, feer: Feer) returns (conflict: Option<Tx>, r: Result<nat, PoolError>)
      requires Valid()
      ensures conflict.Some? ==> Replaces(tx, conflict.value) && InPool(conflict.value)
      ensures conflict.Some? <==> HasRival(tx)
      ensures var f := FeesOf(tx.from, feer);
        conflict.Some? ==> conflict.value.cost <= f.feeSum
      ensures var f := FeesOf(tx.from, feer);
        r == CheckBalance(tx, f.(feeSum := f.feeSum - if conflict.Some? then conflict.value.cost else 0))
    {
      var expected := FeesOf(tx.from, feer);
      conflict := None;
      var todo := verifiedMap.Keys;
      while todo != {}
        invariant todo <= verifiedMap.Keys && conflict.None? && expected == FeesOf(tx.from, feer)
        invariant forall h :: h in verifiedMap && h !in todo ==> !Replaces(tx, verifiedMap[h])
      {
        var h :| h in todo;
        var existTx := verifiedMap[h];
        if existTx.from == tx.from && existTx.nonce == tx.nonce && existTx.gasPrice < tx.gasPrice {
          conflict := Some(existTx);
          PooledCost(h);
          expected := expected.(feeSum := expected.feeSum - existTx.cost);
          break;
        }
        todo := todo - {h};
      }
      r := CheckBalance(tx, expected);
    }

    lemma PooledCost(h: Hash)
      requires Valid() && h in verifiedMap
      ensures InPool(verifiedMap[h]) && verifiedMap[h].from in fees
      ensures verifiedMap[h].cost <= fees[verifiedMap[h].from].feeSum
    {
      assert Pooled(verifiedTxes, h);
      var i :| 0 <= i < |verifiedTxes| && verifiedTxes[i].txn.hash == h;
      CostIncluded(verifiedTxes, i, verifiedTxes[i].txn.from);
    }

    predicate InPool(tx: Tx)
      reads this
    {
      tx.hash in verifiedMap && verifiedMap[tx.hash] == tx
    }

    /** Takes a transaction out of the list and the index, and its cost from the sum of its payer. */
    method RemoveInternal(hash: Hash)
      requires Valid()
      modifies this`verifiedMap, this`verifiedTxes, this`fees
      ensures Valid() && verifiedMap == old(verifiedMap) - {hash}
      ensures hash !in old(verifiedMap) ==> verifiedTxes == old(verifiedTxes) && fees == old(fees)
      ensures WithoutHash(verifiedTxes, old(verifiedTxes), hash)
      ensures hash in old(verifiedMap) ==> |verifiedTxes| == |old(verifiedTxes)| - 1
      ensures hash in old(verifiedMap) ==> exists n: nat ::
        n < |old(verifiedTxes)| && old(verifiedTxes)[n].txn.hash == hash && verifiedTxes == Dropped(old(verifiedTxes), n)
      ensures hash in old(verifiedMap) ==>
        var tx := old(verifiedMap)[hash];
        && tx.from in old(fees) && old(fees)[tx.from].feeSum >= tx.cost
        && fees == old(fees)[tx.from := Released(old(fees)[tx.from], tx.cost)]
    {
      if hash in verifiedMap {
        var num := Find(hash);
        TakeOut(num);
      } else {
        Unpooled(verifiedTxes, verifiedMap, hash);
        assert verifiedMap - {hash} == verifiedMap;
      }
    }

    method TakeOut(num: nat)
      requires Valid() && num < |verifiedTxes|
      modifies this`verifiedMap, this`verifiedTxes, this`fees
      ensures Valid() && verifiedTxes == Dropped(old(verifiedTxes), num)
      ensures WithoutHash(verifiedTxes, old(verifiedTxes), old(verifiedTxes)[num].txn.hash)
      ensures var tx := old(verifiedTxes)[num].txn;
        && verifiedMap == old(verifiedMap) - {tx.hash}
        && tx.from in old(fees) && old(fees)[tx.from].feeSum >= tx.cost
        && fees == old(fees)[tx.from := Released(old(fees)[tx.from], tx.cost)]
    {
      hide PoolOk, Dropped, WithoutHash, Released;
      var tx, v, m, f := verifiedTxes[num].txn, verifiedTxes, verifiedMap, fees;
      OneOut(v, m, f, capacity, num);
      verifiedMap, verifiedTxes, fees := m - {tx.hash}, Dropped(v, num), f[tx.from := Released(f[tx.from], tx.cost)];
    }

    method Find(hash: Hash) returns (num: nat)
      requires Valid() && hash in verifiedMap
      ensures num < |verifiedTxes| && verifiedTxes[num].txn == verifiedMap[hash] && verifiedMap[hash].hash == hash
    {
      assert Pooled(verifiedTxes, hash);
      num := 0;
      while verifiedTxes[num].txn.hash != hash
        invariant num < |verifiedTxes| && forall i :: 0 <= i < num ==> verifiedTxes[i].txn.hash != hash
        decreases |verifiedTxes| - num
      {
        num := num + 1;
      }
    }

    /** Tries to add a transaction; on an error nothing changes. */
    method Add(tx: Tx, feer: Feer, data: Option<Data>) returns (err: Option<PoolError>)
      requires Valid()
      modifies this
      ensures Valid()
      ensures err.Some? ==> verifiedMap == old(verifiedMap) && verifiedTxes == old(verifiedTxes) && fees == old(fees)
      ensures err == Some(Dup) <==> tx.hash in old(verifiedMap)
      ensures err.None? ==> Item(tx, feer.height, data) in verifiedTxes
      ensures forall x :: x in verifiedTxes ==> x in old(verifiedTxes) || x == Item(tx, feer.height, data)
      ensures err != Some(Dup) && old(HasRival(tx)) ==>
        Replacement(tx, err, old(verifiedMap), old(fees), old(FeesOf(tx.from, feer)), verifiedMap, fees)
      ensures err != Some(Dup) && !old(HasRival(tx)) ==>
        PlainAddition(tx, err, old(verifiedMap), old(fees), old(FeesOf(tx.from, feer)), capacity, verifiedMap, fees)
    {
      if tx.hash in verifiedMap {
        return Some(Dup);
      }
      hide PoolOk, Admits, Ahead, Replaces, TakesPlace, Charged, PlainAddition, Replacement, Affords;
      Opened(verifiedTxes, verifiedMap, fees, capacity);
      ghost var m, fees0, f := verifiedMap, fees, FeesOf(tx.from, feer);
      var conflict, r := CheckTxConflicts(tx, feer);
      if conflict.Some? {
        if r.Ok? {
          Replace(tx, conflict.value, feer, data);
        }
        err := if r.Ok? then None else Some(r.error);
        ReplacementIs(tx, conflict.value, err, m, fees0, f, verifiedMap, fees);
        return;
      }
      var ok := false;
      if r.Ok? {
        ok := Admit(Item(tx, feer.height, data), feer);
      }
      err := if r.Err? then Some(r.error) else if ok then None else Some(OOM);
      AdditionIs(tx, err, m, fees0, f, capacity, verifiedMap, fees);
    }

    /** Puts a transaction in the place of one that pays less. */
    method Replace(tx: Tx, rival: Tx, feer: Feer, data: Option<Data>)
      requires Valid() && tx.hash !in verifiedMap && Replaces(tx, rival) && InPool(rival)
      requires var f := FeesOf(tx.from, feer); tx.cost + f.feeSum - rival.cost <= f.balance
      modifies this
      ensures Valid() && Item(tx, feer.height, data) in verifiedTxes
      ensures TakesPlace(tx, rival, old(verifiedMap), old(fees), old(FeesOf(tx.from, feer)), verifiedMap, fees)
      ensures forall x :: x in verifiedTxes ==> x in old(verifiedTxes) || x == Item(tx, feer.height, data)
    {
      hide PoolOk, Admits, Ahead, TakesPlace, Charged, Released, Dropped;
      Opened(verifiedTxes, verifiedMap, fees, capacity);
      ghost var f := FeesOf(tx.from, feer);
      RemoveInternal(rival.hash);
      ReleasedIs(f, rival.cost);
      var ok := Admit(Item(tx, feer.height, data), feer);
      Exchanged(tx, rival, old(verifiedMap), old(fees), f);
    }

    /** Puts an item in the list, in place of the last one when the pool is full. */
    method Admit(x: Item, feer: Feer) returns (ok: bool)
      requires Valid() && x.txn.hash !in verifiedMap
      requires FeesOf(x.txn.from, feer).feeSum + x.txn.cost <= FeesOf(x.txn.from, feer).balance
      modifies this
      ensures Valid()
      ensures !ok ==> verifiedMap == old(verifiedMap) && verifiedTxes == old(verifiedTxes) && fees == old(fees)
      ensures !ok ==>
        |verifiedTxes| == capacity && forall h :: h in verifiedMap ==> !Ahead(x.txn, verifiedMap[h])
      ensures ok ==> x in verifiedTxes && Admits(x.txn, old(verifiedMap), |old(verifiedTxes)| == capacity, verifiedMap)
      ensures ok ==> fees == old(fees)[x.txn.from := Charged(old(FeesOf(x.txn.from, feer)), x.txn.cost)]
      ensures forall y :: y in verifiedTxes ==> y in old(verifiedTxes) || y == x
      ensures |old(verifiedTxes)| < capacity ==> ok && verifiedMap == old(verifiedMap)[x.txn.hash := x.txn]
    {
      hide PoolOk, Descending, Indexed, IsPlace, Ahead, IsLast;
      Opened(verifiedTxes, verifiedMap, fees, capacity);
      var n := Search(x.txn, false);
      if |verifiedTxes| == capacity {
        if n == |verifiedTxes| {
          NoneBehind(x.txn, verifiedTxes, verifiedMap);
          return false;
        }
        ghost var _ := EvictFor(x.txn, n);
      }
      Insert(x, n, feer);
      ok := true;
    }

    method EvictFor(tx: Tx, ghost n: nat) returns (ghost h: Hash)
      requires Valid() && IsPlace(tx, verifiedTxes, n, false) && n < |verifiedTxes|
      modifies this`verifiedMap, this`verifiedTxes
      ensures Valid() && |verifiedTxes| == |old(verifiedTxes)| - 1 && IsPlace(tx, verifiedTxes, n, false)
      ensures IsLast(old(verifiedMap), h) && Ahead(tx, old(verifiedMap)[h]) && verifiedMap == old(verifiedMap) - {h}
      ensures forall y :: y in verifiedTxes ==> y in old(verifiedTxes)
    {
      hide PoolOk, Descending, Indexed, IsPlace, Ahead, IsLast;
      h := verifiedTxes[|verifiedTxes| - 1].txn.hash;
      Opened(verifiedTxes, verifiedMap, fees, capacity);
      LastIs(verifiedTxes, verifiedMap);
      SomeBehind(tx, verifiedTxes, n);
      EvictLast();
    }

    /** Drops the last transaction; its cost stays in the sum of its payer. */
    method EvictLast()
      requires Valid() && verifiedTxes != []
      modifies this`verifiedMap, this`verifiedTxes
      ensures Valid() && verifiedTxes == old(verifiedTxes)[..|old(verifiedTxes)| - 1]
      ensures verifiedMap == old(verifiedMap) - {old(verifiedTxes)[|old(verifiedTxes)| - 1].txn.hash}
    {
      var last := |verifiedTxes| - 1;
      var v := verifiedTxes;
      RemoveOrder(v, last);
      RemoveIndexed(v, verifiedMap, last);
      RemoveCovered(v, last, fees);
      assert Dropped(v, last) == v[..last];
      verifiedMap := verifiedMap - {v[last].txn.hash};
      verifiedTxes := v[..last];
    }

    method Remove(hash: Hash)
      requires Valid()
      modifies this
      ensures Valid() && verifiedMap == old(verifiedMap) - {hash} && feePerByte == old(feePerByte)
      ensures WithoutHash(verifiedTxes, old(verifiedTxes), hash)
      ensures hash !in old(verifiedMap) ==> fees == old(fees)
      ensures hash in old(verifiedMap) ==>
        var tx := old(verifiedMap)[hash];
        && tx.from in old(fees) && old(fees)[tx.from].feeSum >= tx.cost
        && fees == old(fees)[tx.from := Released(old(fees)[tx.from], tx.cost)]
    {
      hide Released;
      RemoveInternal(hash);
    }

    /**
     Says whether the payer can pay for the transaction besides what is recorded for it, without the cost
     of a pooled transaction that it is to replace.
     */
    method Verify(tx: Tx, feer: Feer) returns (ok: bool)
      requires Valid()
      ensures !HasRival(tx) ==> (ok <==> Affords(tx, FeesOf(tx.from, feer), 0))
      ensures HasRival(tx) ==> exists h :: (h in verifiedMap && Replaces(tx, verifiedMap[h])
        && (ok <==> Affords(tx, FeesOf(tx.from, feer), verifiedMap[h].cost)))
      ensures var most := FeesOf(tx.from, feer).balance;
        ok ==> (
          || (!HasRival(tx) && SumOf(verifiedTxes, tx.from) + tx.cost <= most)
          || exists h :: (h in verifiedMap && Replaces(tx, verifiedMap[h])
            && SumOf(verifiedTxes, tx.from) - verifiedMap[h].cost + tx.cost <= most))
    {
      var conflict, r := CheckTxConflicts(tx, feer);
      if tx.from !in fees { NotPaying(verifiedTxes, fees, tx.from); }
      if conflict.Some? {
        assert conflict.value.hash in verifiedMap && verifiedMap[conflict.value.hash] == conflict.value;
      }
      ok := r.Ok?;
    }

    method TryGetValue(hash: Hash) returns (tx: Option<Tx>)
      requires Valid()
      ensures tx == if hash in verifiedMap then Some(verifiedMap[hash]) else None
      ensures tx.Some? <==> Pooled(verifiedTxes, hash)
    {
      tx := if hash in verifiedMap then Some(verifiedMap[hash]) else None;
    }

    /** Finds the item of a hash by binary search; it is there exactly when the hash is pooled. */
    method TryGetData(hash: Hash) returns (data: Option<Option<Data>>)
      requires Valid()
      ensures data.Some? <==> Pooled(verifiedTxes, hash)
      ensures data.Some? ==> exists i :: 0 <= i < |verifiedTxes| && verifiedTxes[i].txn.hash == hash && verifiedTxes[i].data == data.value
    {
      if hash !in verifiedMap {
        return None;
      }
      var tx := verifiedMap[hash];
      var at: nat := Position(hash);
      var n := Search(tx, true);
      assert n == at by {
        assert CompareTo(tx, verifiedTxes[at].txn) == 0;
        assert n < at ==> CompareTo(verifiedTxes[n].txn, verifiedTxes[at].txn) > 0;
      }
      // No two items have the same priority, so the first one found is the only one to look at.
      if n < |verifiedTxes| && verifiedTxes[n].txn.hash == hash {
        return Some(verifiedTxes[n].data);
      }
      data := None;
    }

    lemma Position(hash: Hash) returns (at: nat)
      requires Valid() && hash in verifiedMap
      ensures at < |verifiedTxes| && verifiedTxes[at].txn == verifiedMap[hash] && verifiedMap[hash].hash == hash
    {
      assert Pooled(verifiedTxes, hash);
      at :| 0 <= at < |verifiedTxes| && verifiedTxes[at].txn.hash == hash;
    }

    method RemoveIfStale(all: seq<Item>, i: nat, isOK: Tx -> bool, minFee: Option<nat>, feer: Feer)
      requires Stale(all, i, verifiedTxes, verifiedMap, fees, isOK, minFee, feer) && i < |all|
      modifies this`verifiedMap, this`verifiedTxes, this`fees
      ensures Stale(all, i + 1, verifiedTxes, verifiedMap, fees, isOK, minFee, feer)
    {
      hide Stale, SumOf;
      var itm := all[i];
      ghost var v, was := verifiedTxes, fees;
      StaleSum(all, i, v, verifiedMap, was, isOK, minFee, feer, itm.txn.from);
      var keep := isOK(itm.txn) && (minFee.None? || itm.txn.feePerByte >= minFee.value);
      if keep {
        StaleAsk(all, i, v, verifiedMap, was, isOK, minFee, feer, itm.txn.from);
        keep := TryAddSendersFee(itm.txn, feer, true);
      }
      if keep {
        StaleKeep(all, i, v, verifiedMap, was, isOK, minFee, feer);
        verifiedTxes := verifiedTxes + [itm];
      } else {
        StaleDrop(all, i, v, verifiedMap, fees, isOK, minFee, feer);
        verifiedMap := verifiedMap - {itm.txn.hash};
      }
    }

    /**
     Drops what is no longer valid, and counts the costs afresh: the sums are exact again. Of the old items,
     in their order, exactly those stay that are valid, pay a fee that has been raised, and can be paid by
     the balance besides those of the same payer that stay before them.
     */
    method RemoveStale(isOK: Tx -> bool, feer: Feer)
      requires Valid()
      modifies this
      ensures Valid()
      ensures forall x :: x in verifiedTxes ==> x in old(verifiedTxes)
      ensures forall x :: x in old(verifiedTxes) ==> (x in verifiedTxes <==>
        && isOK(x.txn)
        && (feer.feePerByte > old(feePerByte) ==> x.txn.feePerByte >= feer.feePerByte)
        && SumOf(Before(verifiedTxes, x.txn), x.txn.from) + x.txn.cost <= feer.balanceOf(x.txn.from))
      ensures feePerByte == if feer.feePerByte > old(feePerByte) then feer.feePerByte else old(feePerByte)
      ensures Exact(verifiedTxes, fees, feer)
    {
      var minFee := NewMinFee(feer, feePerByte);
      if minFee.Some? {
        feePerByte := minFee.value;
      }
      Sweep(isOK, minFee, feer);
      KeptExactly(old(verifiedTxes), isOK, minFee, feer);
    }

    method Sweep(isOK: Tx -> bool, minFee: Option<nat>, feer: Feer)
      requires Valid()
      modifies this`verifiedMap, this`verifiedTxes, this`fees
      ensures Valid() && Exact(verifiedTxes, fees, feer)
      ensures verifiedTxes == Kept(old(verifiedTxes), isOK, minFee, feer)
    {
      var all := verifiedTxes;
      StaleInit(all, verifiedMap, isOK, minFee, feer);
      verifiedTxes, fees := [], map[];
      var i := 0;
      while i < |all|
        modifies this`verifiedMap, this`verifiedTxes, this`fees
        invariant 0 <= i <= |all| && Stale(all, i, verifiedTxes, verifiedMap, fees, isOK, minFee, feer)
      {
        RemoveIfStale(all, i, isOK, minFee, feer);
        i := i + 1;
      }
      StaleDone(all, verifiedTxes, verifiedMap, fees, isOK, minFee, feer, capacity);
    }

    /** Puts an item at its place, moving those behind it. */
    method Insert(x: Item, n: nat, feer: Feer)
      requires Valid() && |verifiedTxes| < capacity && x.txn.hash !in verifiedMap
      requires IsPlace(x.txn, verifiedTxes, n, false)
      requires FeesOf(x.txn.from, feer).feeSum + x.txn.cost <= FeesOf(x.txn.from, feer).balance
      modifies this`verifiedMap, this`verifiedTxes, this`fees
      ensures Valid() && verifiedMap == old(verifiedMap)[x.txn.hash := x.txn]
      ensures fees == old(fees)[x.txn.from := Charged(old(FeesOf(x.txn.from, feer)), x.txn.cost)]
      ensures verifiedTxes == old(verifiedTxes)[..n] + [x] + old(verifiedTxes)[n..]
    {
      ghost var v := verifiedTxes;
      InsertOrder(v, n, x);
      InsertIndexed(v, verifiedMap, n, x);
      InsertCovered(v, n, x, fees, FeesOf(x.txn.from, feer));
      Place(x, n);
      verifiedMap := verifiedMap[x.txn.hash := x.txn];
      var _ := TryAddSendersFee(x.txn, feer, false);
    }

    method Place(x: Item, n: nat)
      requires n <= |verifiedTxes|
      modifies this`verifiedTxes
      ensures verifiedTxes == old(verifiedTxes)[..n] + [x] + old(verifiedTxes)[n..]
    {
      verifiedTxes := verifiedTxes + [x];
      if n != |verifiedTxes| - 1 {
        verifiedTxes := verifiedTxes[..n + 1] + verifiedTxes[n..|verifiedTxes| - 1];
        verifiedTxes := verifiedTxes[n := x];
      }
    }
  }

  lemma NotPaying(v: seq<Item>, fees: map<Account, Fees>, p: Account)
    requires Covered(v, fees) && p !in fees
    ensures SumOf(v, p) == 0
  {
    NoCost(v, p);
  }

  // ---- removing what is stale ----

  /** In order, what is valid, pays enough by size, and can be paid besides what is kept before it. */
  function Kept(v: seq<Item>, isOK: Tx -> bool, minFee: Option<nat>, feer: Feer): seq<Item> {
    if v == [] then []
    else
      var kept := Kept(v[..|v| - 1], isOK, minFee, feer);
      var x := v[|v| - 1];
      if Keeps(kept, x.txn, isOK, minFee, feer) then kept + [x] else kept
  }

  /** The items that come before a transaction. */
  function Before(v: seq<Item>, tx: Tx): seq<Item> {
    if v != [] && Ahead(v[0].txn, tx) then [v[0]] + Before(v[1..], tx) else []
  }

  lemma {:induction false} BeforeIs(v: seq<Item>, w: seq<Item>, tx: Tx)
    requires forall x :: x in v ==> Ahead(x.txn, tx)
    requires w != [] ==> !Ahead(w[0].txn, tx)
    ensures Before(v + w, tx) == v
  {
    if v == [] {
      assert v + w == w;
    } else {
      assert (v + w)[1..] == v[1..] + w;
      BeforeIs(v[1..], w, tx);
    }
  }

  /** What is kept of a start of the list is a start of what is kept. */
  lemma {:induction false} KeptSplit(all: seq<Item>, i: nat, isOK: Tx -> bool, minFee: Option<nat>, feer: Feer) returns (rest: seq<Item>)
    requires i <= |all|
    ensures Kept(all, isOK, minFee, feer) == Kept(all[..i], isOK, minFee, feer) + rest
    ensures forall x :: x in rest ==> x in all[i..]
  {
    if i == |all| {
      assert all[..i] == all;
      rest := [];
    } else {
      var n := |all| - 1;
      rest := KeptSplit(all[..n], i, isOK, minFee, feer);
      assert all[..n][..i] == all[..i] && all[i..] == all[..n][i..] + [all[n]];
      if Keeps(Kept(all[..n], isOK, minFee, feer), all[n].txn, isOK, minFee, feer) {
        rest := rest + [all[n]];
      }
    }
  }

  /** The items that stay are those that can, one after the other. */
  lemma {:induction false} KeptExactly(all: seq<Item>, isOK: Tx -> bool, minFee: Option<nat>, feer: Feer)
    requires Descending(all)
    ensures var kept := Kept(all, isOK, minFee, feer);
      && (forall x :: x in kept ==> x in all)
      && (forall x :: x in all ==> (x in kept <==>
        && isOK(x.txn) && (minFee.Some? ==> x.txn.feePerByte >= minFee.value)
        && SumOf(Before(kept, x.txn), x.txn.from) + x.txn.cost <= feer.balanceOf(x.txn.from)))
  {
    var kept := Kept(all, isOK, minFee, feer);
    forall x | x in kept ensures x in all {
      var rest := KeptSplit(all, 0, isOK, minFee, feer);
      assert Kept([], isOK, minFee, feer) + rest == rest && all[..0] == [] && all[0..] == all;
    }
    forall x | x in all ensures x in kept <==>
      && isOK(x.txn) && (minFee.Some? ==> x.txn.feePerByte >= minFee.value)
      && SumOf(Before(kept, x.txn), x.txn.from) + x.txn.cost <= feer.balanceOf(x.txn.from)
    {
      var i :| 0 <= i < |all| && all[i] == x;
      StaysOrGoes(all, i, isOK, minFee, feer);
    }
  }

  lemma {:induction false} StaysOrGoes(all: seq<Item>, i: nat, isOK: Tx -> bool, minFee: Option<nat>, feer: Feer)
    requires Descending(all) && i < |all|
    ensures var kept, earlier := Kept(all, isOK, minFee, feer), Kept(all[..i], isOK, minFee, feer);
      Before(kept, all[i].txn) == earlier && (all[i] in kept <==> Keeps(earlier, all[i].txn, isOK, minFee, feer))
  {
    var tx := all[i].txn;
    var earlier := Kept(all[..i], isOK, minFee, feer);
    var none := KeptSplit(all[..i], 0, isOK, minFee, feer);
    assert all[..i][..0] == [] && all[..i][0..] == all[..i] && [] + none == none;
    var rest := KeptSplit(all, i, isOK, minFee, feer);
    var later := KeptSplit(all, i + 1, isOK, minFee, feer);
    assert all[..i + 1][..i] == all[..i];
    Sides(all, i);
    hide Descending, Ahead;
    BeforeIs(earlier, rest, tx);
  }

  lemma Sides(all: seq<Item>, i: nat)
    requires Descending(all) && i < |all|
    ensures forall x :: x in all[..i] ==> Ahead(x.txn, all[i].txn)
    ensures forall x :: x in all[i..] ==> !Ahead(x.txn, all[i].txn)
    ensures all[i] !in all[..i] && all[i] !in all[i + 1..]
  {
  }

  predicate Keeps(kept: seq<Item>, tx: Tx, isOK: Tx -> bool, minFee: Option<nat>, feer: Feer) {
    && isOK(tx) && (minFee.None? || tx.feePerByte >= minFee.value)
    && SumOf(kept, tx.from) + tx.cost <= feer.balanceOf(tx.from)
  }

  /** The sums are the pooled costs, the balances those of now. */
  ghost predicate Exact(v: seq<Item>, fees: map<Account, Fees>, feer: Feer) {
    forall p :: p in fees ==> fees[p] == Fees(feer.balanceOf(p), SumOf(v, p))
  }

  /** The first `i` items are dealt with. */
  ghost predicate Stale(all: seq<Item>, i: nat, v: seq<Item>, m: map<Hash, Tx>, fees: map<Account, Fees>,
    isOK: Tx -> bool, minFee: Option<nat>, feer: Feer)
  {
    && i <= |all| && Descending(all) && v == Kept(all[..i], isOK, minFee, feer) && |v| <= i
    && Indexed(v + all[i..], m) && Descending(v + all[i..])
    && (forall k :: 0 <= k < |v| ==> v[k].txn.from in fees)
    && (forall p :: p in fees ==> fees[p] == Fees(feer.balanceOf(p), SumOf(v, p)) && SumOf(v, p) <= feer.balanceOf(p))
  }

  function Payer(fees: map<Account, Fees>, p: Account, feer: Feer): Fees {
    if p in fees then fees[p] else Fees(feer.balanceOf(p), 0)
  }

  /** While stale items are removed the sums are exact. */
  lemma StaleSum(all: seq<Item>, i: nat, v: seq<Item>, m: map<Hash, Tx>, fees: map<Account, Fees>,
    isOK: Tx -> bool, minFee: Option<nat>, feer: Feer, p: Account)
    requires Stale(all, i, v, m, fees, isOK, minFee, feer)
    ensures Payer(fees, p, feer) == Fees(feer.balanceOf(p), SumOf(v, p))
  {
    if p !in fees { NoCost(v, p); }
  }

  lemma StaleKeep(all: seq<Item>, i: nat, v: seq<Item>, m: map<Hash, Tx>, fees: map<Account, Fees>,
    isOK: Tx -> bool, minFee: Option<nat>, feer: Feer)
    requires Stale(all, i, v, m, fees, isOK, minFee, feer) && i < |all|
    requires Keeps(v, all[i].txn, isOK, minFee, feer)
    ensures var tx := all[i].txn;
      Stale(all, i + 1, v + [all[i]], m, fees[tx.from := Fees(feer.balanceOf(tx.from), SumOf(v, tx.from) + tx.cost)], isOK, minFee, feer)
  {
    hide Descending, Indexed;
    var x := all[i];
    assert all[..i + 1][..i] == all[..i];
    assert (v + [x]) + all[i + 1..] == v + all[i..];
    forall p ensures SumOf(v + [x], p) == SumOf(v, p) + if x.txn.from == p then x.txn.cost else 0 {
      SumConcat(v, [x], p);
      assert [x][1..] == [];
    }
    StaleSum(all, i, v, m, fees, isOK, minFee, feer, x.txn.from);
  }

  lemma StaleDrop(all: seq<Item>, i: nat, v: seq<Item>, m: map<Hash, Tx>, fees: map<Account, Fees>,
    isOK: Tx -> bool, minFee: Option<nat>, feer: Feer)
    requires Stale(all, i, v, m, fees, isOK, minFee, feer) && i < |all|
    requires !Keeps(v, all[i].txn, isOK, minFee, feer)
    ensures Stale(all, i + 1, v, m - {all[i].txn.hash}, fees, isOK, minFee, feer)
  {
    assert all[..i + 1][..i] == all[..i];
    var both := v + all[i..];
    assert both[|v|] == all[i];
    assert Dropped(both, |v|) == v + all[i + 1..];
    RemoveOrder(both, |v|);
    RemoveIndexed(both, m, |v|);
  }

  /** A payer that is asked about is recorded, whether it can pay or not. */
  lemma StaleAsk(all: seq<Item>, i: nat, v: seq<Item>, m: map<Hash, Tx>, fees: map<Account, Fees>,
    isOK: Tx -> bool, minFee: Option<nat>, feer: Feer, p: Account)
    requires Stale(all, i, v, m, fees, isOK, minFee, feer)
    ensures Stale(all, i, v, m, fees[p := Payer(fees, p, feer)], isOK, minFee, feer)
  {
    StaleSum(all, i, v, m, fees, isOK, minFee, feer, p);
    if p !in fees { NoCost(v, p); }
  }

  /** The fee for size counts only when it has just been raised. */
  function NewMinFee(feer: Feer, feePerByte: nat): Option<nat> {
    if feer.feePerByte > feePerByte then Some(feer.feePerByte) else None
  }

  lemma StaleInit(all: seq<Item>, m: map<Hash, Tx>, isOK: Tx -> bool, minFee: Option<nat>, feer: Feer)
    requires Descending(all) && Indexed(all, m)
    ensures Stale(all, 0, [], m, map[], isOK, minFee, feer)
  {
    assert [] + all[0..] == all && all[..0] == [];
  }

  lemma StaleDone(all: seq<Item>, v: seq<Item>, m: map<Hash, Tx>, fees: map<Account, Fees>,
    isOK: Tx -> bool, minFee: Option<nat>, feer: Feer, capacity: nat)
    requires Stale(all, |all|, v, m, fees, isOK, minFee, feer) && |all| <= capacity
    ensures PoolOk(v, m, fees, capacity) && v == Kept(all, isOK, minFee, feer)
    ensures Exact(v, fees, feer)
  {
    assert all[..|all|] == all && v + all[|all|..] == v;
  }

  lemma InsertCovered(v: seq<Item>, n: nat, x: Item, fees: map<Account, Fees>, f: Fees)
    requires Covered(v, fees) && n <= |v| && f.feeSum + x.txn.cost <= f.balance
    requires x.txn.from in fees ==> f == fees[x.txn.from]
    ensures Covered(v[..n] + [x] + v[n..], fees[x.txn.from := Charged(f, x.txn.cost)])
  {
    var v', fees' := v[..n] + [x] + v[n..], fees[x.txn.from := Charged(f, x.txn.cost)];
    forall i | 0 <= i < |v'| ensures v'[i].txn.from in fees' {
      if i != n { assert v'[i] == v[if i < n then i else i - 1]; }
    }
    forall p | p in fees' ensures SumOf(v', p) <= fees'[p].feeSum <= fees'[p].balance {
      SumWith(v, n, x, p);
      if p !in fees { NoCost(v, p); }
    }
  }

  lemma {:induction false} NoCost(v: seq<Item>, p: Account)
    requires forall i :: 0 <= i < |v| ==> v[i].txn.from != p
    ensures SumOf(v, p) == 0
  {
    if v != [] { NoCost(v[1..], p); }
  }

  lemma CostIncluded(v: seq<Item>, n: nat, payer: Account)
    requires n < |v| && v[n].txn.from == payer
    ensures v[n].txn.cost <= SumOf(v, payer)
  {
    SumWithout(v, n, payer);
  }

  /** The balance covers the transaction besides what is recorded, without this cost. */
  predicate Affords(tx: Tx, f: Fees, less: nat) {
    f.feeSum - less + tx.cost <= f.balance && tx.cost <= f.balance
  }

  /** The new sum of costs, if the balance covers it. */
  function CheckBalance(tx: Tx, f: Fees): (r: Result<nat, PoolError>)
    ensures r.Ok? <==> tx.cost + f.feeSum <= f.balance
    ensures r.Ok? ==> r.value == tx.cost + f.feeSum
    ensures r == Err(InsufficientFunds) <==> f.balance < tx.cost
  {
    if f.balance < tx.cost then Err(InsufficientFunds)
    else if f.balance < tx.cost + f.feeSum then Err(Conflict)
    else Ok(tx.cost + f.feeSum)
  }
}
