/**
 Gas of calls and of memory (pkg/vm/gas.go, gas_table.go, operations_acl.go), on 64-bit unsigned
 integers that wrap around.
 */
module VmGas {
  import opened Wrappers

  const TWO64: int := 0x1_0000_0000_0000_0000

  type U64 = x: nat | x < TWO64

  /** Subtraction below zero wraps around. */
  function Sub64(a: U64, b: U64): U64 {
    if a >= b then a - b else a - b + TWO64
  }

  function Add64(a: U64, b: U64): U64 {
    if a + b < TWO64 then a + b else a + b - TWO64
  }

  /** SafeAdd: None on overflow. */
  function SafeAdd(a: U64, b: U64): Option<U64> {
    if a + b < TWO64 then Some(a + b) else None
  }

  function AllButOne64th(gas: nat): (r: nat)
    ensures r <= gas && 64 * (gas - r) <= gas < 64 * (gas - r) + 64
  {
    gas - gas / 64
  }

  /** The gas for a call: what was asked for, but not more than all but one 64th of what is left after the base cost. */
  function CallGas(available: U64, base: U64, callCost: nat): (gas: U64)
    ensures gas <= callCost
  {
    var left := Sub64(available, base);
    var gas := left - left / 64;
    if callCost >= TWO64 || gas < callCost then gas else callCost
  }

  /**
   The base cost may be more than is available, and then the subtraction wraps. The charge for base
   cost and call gas succeeds exactly when it is not, and then the cap of EIP-150 holds.
   */
  lemma CallGasCapped(available: U64, base: U64, callCost: nat)
    ensures var gas := CallGas(available, base, callCost);
      && (base + gas <= available <==> base <= available)
      && (base <= available ==>
          gas == if callCost < AllButOne64th(available - base) then callCost else AllButOne64th(available - base))
  {
  }

  // ---- memory ----

  const MemoryGas: nat := 3
  const QuadCoeffDiv: nat := 512

  /** Words of 32 bytes, rounded up. */
  function ToWordSize(size: U64): (words: nat)
    ensures 32 * (words - 1) < size <= 32 * words
  {
    if size > TWO64 - 32 then (TWO64 - 1) / 32 + 1 else (size + 31) / 32
  }

  /** What a memory of so many words costs in all. */
  function TotalFee(words: nat): (fee: nat)
    ensures fee == 3 * words + words * words / 512
  {
    words * MemoryGas + words * words / QuadCoeffDiv
  }

  lemma {:induction false} SquareMono(a: nat, b: nat)
    requires a <= b
    ensures a * a <= b * b
  {
    assert b * b == a * a + (b - a) * (b + a);
    assert (b - a) * (b + a) >= 0;
  }

  lemma {:induction false} FeeMono(a: nat, b: nat)
    requires a <= b
    ensures TotalFee(a) <= TotalFee(b)
  {
    SquareMono(a, b);
  }

  /** No fee comes near the point where a sum would wrap. */
  const MaxFee: nat := 0x100_0000_0000_0000

  lemma {:induction false} FeeBounded(words: nat)
    requires words <= 0xFFFF_FFFF
    ensures words * words < TWO64 && TotalFee(words) < MaxFee
  {
    SquareMono(words, 0xFFFF_FFFF);
  }

  function Smaller(a: nat, b: nat): nat {
    if a < b then a else b
  }

  function Larger(a: nat, b: nat): nat {
    if a < b then b else a
  }

  /** The memory of a frame. It has been paid for up to its length. */
  class Memory {
    var len: nat
    var lastGasCost: nat

    ghost predicate Valid()
      reads this
    {
      len % 32 == 0 && len / 32 <= 0xFFFF_FFFF && lastGasCost == TotalFee(len / 32)
    }

    constructor ()
      ensures Valid() && len == 0
    {
      len, lastGasCost := 0, 0;
    }

    /** The fee is what the larger memory costs in all less what was paid already. */
    method MemoryGasCost(newMemSize: U64) returns (fee: Option<U64>)
      requires Valid()
      modifies this`lastGasCost
      ensures fee.None? <==> newMemSize > 0x1F_FFFF_FFE0
      ensures fee.None? ==> lastGasCost == old(lastGasCost)
      ensures fee.Some? ==>
        var words := Larger(ToWordSize(newMemSize), len / 32);
        && words <= 0xFFFF_FFFF && lastGasCost == TotalFee(words)
        && fee.value == TotalFee(words) - TotalFee(len / 32) && fee.value < MaxFee
    {
      if newMemSize == 0 {
        return Some(0);
      }
      if newMemSize > 0x1F_FFFF_FFE0 {
        return None;
      }
      var newMemSizeWords := ToWordSize(newMemSize);
      FeeBounded(newMemSizeWords);
      if newMemSizeWords * 32 > len {
        var square := newMemSizeWords * newMemSizeWords;
        var newTotalFee := newMemSizeWords * MemoryGas + square / QuadCoeffDiv;
        FeeMono(len / 32, newMemSizeWords);
        var charge := newTotalFee - lastGasCost;
        lastGasCost := newTotalFee;
        return Some(charge);
      }
      return Some(0);
    }

    /** The memory grows to whole words, once the fee is charged. */
    method Resize(newMemSize: U64)
      requires newMemSize <= 0x1F_FFFF_FFE0 && len % 32 == 0
      requires lastGasCost == TotalFee(Larger(ToWordSize(newMemSize), len / 32)) && len / 32 <= 0xFFFF_FFFF
      modifies this`len
      ensures Valid() && len / 32 == Larger(ToWordSize(newMemSize), old(len) / 32)
    {
      var size := ToWordSize(newMemSize) * 32;
      if size > len {
        len := size;
      }
    }

    /** Whatever the steps in which it grows, all of the memory is paid for once. */
    method Grow(sizes: seq<U64>) returns (total: nat)
      requires Valid() && forall i :: 0 <= i < |sizes| ==> sizes[i] <= 0x1F_FFFF_FFE0
      modifies this
      ensures Valid() && total == TotalFee(len / 32) - TotalFee(old(len) / 32)
      ensures len >= old(len) && forall i :: 0 <= i < |sizes| ==> len >= sizes[i]
    {
      total := 0;
      var i := 0;
      while i < |sizes|
        modifies this
        invariant 0 <= i <= |sizes| && Valid() && len >= old(len)
        invariant total == TotalFee(len / 32) - TotalFee(old(len) / 32)
        invariant forall j :: 0 <= j < i ==> len >= sizes[j]
      {
        var fee := MemoryGasCost(sizes[i]);
        Resize(sizes[i]);
        total := total + fee.value;
        i := i + 1;
      }
    }
  }

  // ---- the charge for a call ----

  const CallValueTransferGas: nat := 9000
  const CallNewAccountGas: nat := 25000
  const CallStipend: nat := 2300
  /** Cold access less the warm access that is charged as a constant. */
  const ColdCost: nat := 2500

  datatype Charge = Charge(all: U64, call: U64)

  /** What is charged besides the gas that the called frame gets. */
  function Extra(warm: bool, value: bool, isNew: bool, memoryGas: nat): nat {
    (if warm then 0 else ColdCost) + (if value then CallValueTransferGas else 0)
    + (if value && isNew then CallNewAccountGas else 0) + memoryGas
  }

  /**
   gasCall behind its access-list wrapper: a cold account is charged first, so that it counts for
   the cap, then given back, and charged with the rest. None is an error.
   */
  method GasCall(gas: U64, warm: bool, value: bool, isNew: bool, memoryGas: U64, requested: nat) returns (r: Option<Charge>)
    requires memoryGas < MaxFee
    ensures r.Some? ==> r.value.call <= requested && r.value.all == Extra(warm, value, isNew, memoryGas) + r.value.call
    ensures r.Some? && r.value.all <= gas ==>
      r.value.call == Smaller(requested, AllButOne64th(gas - Extra(warm, value, isNew, memoryGas)))
    ensures Extra(warm, value, isNew, memoryGas) <= gas <==> r.Some? && r.value.all <= gas
    ensures var cold, pays, creates := if warm then 0 else 2500, if value then 9000 else 0, if value && isNew then 25000 else 0;
      r.Some? ==> r.value.all == memoryGas + cold + pays + creates + r.value.call
  {
    var left := gas;
    if !warm {
      if left < ColdCost {
        return None;
      }
      left := left - ColdCost;
    }
    var base := (if value && isNew then CallNewAccountGas else 0) + (if value then CallValueTransferGas else 0) + memoryGas;
    var call := CallGas(left, base, requested);
    CallGasCapped(left, base, requested);
    var sum := SafeAdd(base, call);
    if sum.None? {
      return None;
    }
    if warm {
      return Some(Charge(sum.value, call));
    }
    return Some(Charge(Add64(sum.value, ColdCost), call));
  }
}
