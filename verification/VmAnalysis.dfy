/**
 Jump-destination analysis (pkg/vm/analysis.go, pkg/vm/contract.go): a bitmap with one bit per code
 byte, set for the bytes that are arguments of PUSH instructions.
 */
module VmAnalysis {
  import opened Wrappers

  const JUMPDEST: Byte := 0x5b
  const PUSH1: Byte := 0x60
  const PUSH32: Byte := 0x7f

  // ---- the linear sweep ----

  /** The number of argument bytes that follow an opcode. */
  function PushSize(op: Byte): (n: nat)
    ensures 96 <= op <= 127 ==> n == op - 95
    ensures op < 96 || op > 127 ==> n == 0
  {
    if PUSH1 <= op <= PUSH32 then op - PUSH1 + 1 else 0
  }

  /** Reading instructions one after the other from `pc`, one starts at `i`. */
  predicate IsStart(code: seq<Byte>, pc: nat, i: nat)
    decreases |code| - pc
  {
    pc < |code| && (pc == i || IsStart(code, pc + 1 + PushSize(code[pc]), i))
  }

  lemma {:induction false} StartsAhead(code: seq<Byte>, pc: nat, i: nat)
    requires IsStart(code, pc, i)
    ensures pc <= i < |code|
    decreases |code| - pc
  {
    if pc != i { StartsAhead(code, pc + 1 + PushSize(code[pc]), i); }
  }

  /** Past the instruction at `pc` the sweep from there is the same sweep, and its arguments start nothing. */
  lemma {:induction false} NextStart(code: seq<Byte>, pc: nat, i: nat)
    requires pc < |code|
    ensures var next := pc + 1 + PushSize(code[pc]);
      && (i >= next ==> (IsStart(code, pc, i) <==> IsStart(code, next, i)))
      && (pc < i < next ==> !IsStart(code, pc, i))
  {
    var next := pc + 1 + PushSize(code[pc]);
    if pc < i < next && IsStart(code, pc, i) { StartsAhead(code, next, i); }
  }

  // ---- bits of bytes ----

  predicate BitOf(b: bv8, j: nat)
    requires j < 8
  {
    (b >> j) & 1 == 1
  }

  lemma OrBits(a: bv8, b: bv8, j: nat)
    requires j < 8
    ensures BitOf(a | b, j) <==> BitOf(a, j) || BitOf(b, j)
  {
  }

  lemma NotBits(a: bv8, j: nat)
    requires j < 8
    ensures BitOf(!a, j) <==> !BitOf(a, j)
  {
  }

  lemma MaskBits(k: nat, j: nat)
    requires k < 8 && j < 8
    ensures BitOf((0xFF as bv8) << k, j) <==> j >= k
  {
  }

  /** The mask of `n` ones. */
  function Ones(n: nat): bv16
    requires 1 <= n <= 7
  {
    match n case 1 => 0x1 case 2 => 0x3 case 3 => 0x7 case 4 => 0xF case 5 => 0x1F case 6 => 0x3F case _ => 0x7F
  }

  lemma OnesBits(n: nat, k: nat, j: nat)
    requires 1 <= n <= 7 && k < 8 && j < 8
    ensures BitOf(LowByte(n, k), j) <==> k <= j < k + n
    ensures BitOf(HighByte(n, k), j) <==> k <= j + 8 < k + n
  {
  }

  // ---- the bitmap ----

  predicate Bit(bits: seq<bv8>, i: nat) {
    i / 8 < |bits| && BitOf(bits[i / 8], i % 8)
  }

  /** `new` is `was` with the bits from `pos` to `pos + n` set. */
  ghost predicate Marks(was: seq<bv8>, now: seq<bv8>, pos: nat, n: nat) {
    |now| == |was| && forall i: nat :: Bit(now, i) <==> Bit(was, i) || pos <= i < pos + n
  }

  ghost predicate ClearFrom(bits: seq<bv8>, pos: nat) {
    forall i: nat :: i >= pos ==> !Bit(bits, i)
  }

  /** A byte with no bit set. */
  lemma ZeroByte(bits: seq<bv8>, pos: nat, k: nat)
    requires ClearFrom(bits, pos) && pos / 8 < k < |bits|
    ensures forall j: nat :: j < 8 ==> !BitOf(bits[k], j)
  {
    forall j: nat | j < 8 ensures !BitOf(bits[k], j) {
      assert !Bit(bits, 8 * k + j);
    }
  }

  method Set1(bits: array<bv8>, pos: nat)
    requires pos / 8 < bits.Length
    modifies bits
    ensures Marks(old(bits[..]), bits[..], pos, 1)
  {
    bits[pos / 8] := bits[pos / 8] | (1 << (pos % 8));
    forall i: nat ensures Bit(bits[..], i) <==> Bit(old(bits[..]), i) || i == pos {
      if i / 8 == pos / 8 { OneBit(old(bits[pos / 8]), pos % 8, i % 8); }
    }
  }

  lemma OneBit(a: bv8, k: nat, j: nat)
    requires k < 8 && j < 8
    ensures BitOf(a | (1 << k), j) <==> BitOf(a, j) || j == k
  {
  }

  /** Sets `n` bits; a second byte is assigned, not combined, so it must be clear. */
  method SetN(bits: array<bv8>, n: nat, pos: nat)
    requires 2 <= n <= 7 && (pos + n - 1) / 8 < bits.Length && ClearFrom(bits[..], pos)
    modifies bits
    ensures Marks(old(bits[..]), bits[..], pos, n)
  {
    var k := pos % 8;
    SecondByte(n, k);
    ghost var was := bits[..];
    PutBytes(bits, pos / 8, LowByte(n, k), HighByte(n, k));
    forall i: nat ensures Bit(bits[..], i) <==> Bit(was, i) || pos <= i < pos + n {
      SetNBit(was, bits[..], n, pos, i);
    }
  }

  method PutBytes(bits: array<bv8>, at: nat, low: bv8, high: bv8)
    requires at < bits.Length && (high != 0 ==> at + 1 < bits.Length)
    modifies bits
    ensures bits[at] == old(bits[at]) | low
    ensures at + 1 < bits.Length ==> bits[at + 1] == if high != 0 then high else old(bits[at + 1])
    ensures forall k :: 0 <= k < bits.Length && k != at && k != at + 1 ==> bits[k] == old(bits[k])
  {
    bits[at] := bits[at] | low;
    if high != 0 {
      bits[at + 1] := high;
    }
  }

  /** The low and the high byte of `n` ones at bit `k`. */
  function LowByte(n: nat, k: nat): bv8
    requires 1 <= n <= 7 && k < 8
  {
    ((Ones(n) << k) & 0xFF) as bv8
  }

  function HighByte(n: nat, k: nat): bv8
    requires 1 <= n <= 7 && k < 8
  {
    (((Ones(n) << k) >> 8) & 0xFF) as bv8
  }

  lemma SetNBit(was: seq<bv8>, now: seq<bv8>, n: nat, pos: nat, i: nat)
    requires 2 <= n <= 7 && pos / 8 < |was| == |now| && ClearFrom(was, pos)
    requires now[pos / 8] == was[pos / 8] | LowByte(n, pos % 8)
    requires pos / 8 + 1 < |was| ==>
      now[pos / 8 + 1] == if HighByte(n, pos % 8) != 0 then HighByte(n, pos % 8) else was[pos / 8 + 1]
    requires forall k :: 0 <= k < |was| && k != pos / 8 && k != pos / 8 + 1 ==> now[k] == was[k]
    requires (pos + n - 1) / 8 < |was|
    ensures Bit(now, i) <==> Bit(was, i) || pos <= i < pos + n
  {
    var j, k := i % 8, pos % 8;
    OnesBits(n, k, j);
    if i / 8 == pos / 8 {
      OrBits(was[pos / 8], LowByte(n, k), j);
    } else if i / 8 == pos / 8 + 1 < |was| {
      ZeroByte(was, pos, i / 8);
      NoBits(HighByte(n, k), j);
    }
  }

  lemma NoBits(b: bv8, j: nat)
    requires j < 8
    ensures b == 0 ==> !BitOf(b, j)
  {
  }

  lemma SecondByte(n: nat, k: nat)
    requires 2 <= n <= 7 && k < 8
    ensures HighByte(n, k) != 0 ==> k + n > 8
  {
  }

  method Set8(bits: array<bv8>, pos: nat)
    requires pos / 8 + 1 < bits.Length && ClearFrom(bits[..], pos)
    modifies bits
    ensures Marks(old(bits[..]), bits[..], pos, 8)
  {
    var k := pos % 8;
    var a: bv8 := 0xFF << k;
    bits[pos / 8] := bits[pos / 8] | a;
    bits[pos / 8 + 1] := !a;
    ghost var was := old(bits[..]);
    forall i: nat ensures Bit(bits[..], i) <==> Bit(was, i) || pos <= i < pos + 8 {
      var j := i % 8;
      MaskBits(k, j);
      if i / 8 == pos / 8 {
        OrBits(was[pos / 8], a, j);
      } else if i / 8 == pos / 8 + 1 {
        NotBits(a, j);
        ZeroByte(was, pos, i / 8);
      }
    }
  }

  method Set16(bits: array<bv8>, pos: nat)
    requires pos / 8 + 2 < bits.Length && ClearFrom(bits[..], pos)
    modifies bits
    ensures Marks(old(bits[..]), bits[..], pos, 16)
  {
    var a: bv8 := 0xFF << (pos % 8);
    ghost var was := bits[..];
    bits[pos / 8] := bits[pos / 8] | a;
    bits[pos / 8 + 1] := 0xFF;
    bits[pos / 8 + 2] := !a;
    forall i: nat ensures Bit(bits[..], i) <==> Bit(was, i) || pos <= i < pos + 16 {
      Set16Bit(was, bits[..], pos, i);
    }
  }

  lemma Set16Bit(was: seq<bv8>, now: seq<bv8>, pos: nat, i: nat)
    requires pos / 8 + 2 < |was| && ClearFrom(was, pos)
    requires now == was[pos / 8 := was[pos / 8] | (0xFF << (pos % 8))][pos / 8 + 1 := 0xFF][pos / 8 + 2 := !(0xFF << (pos % 8))]
    ensures Bit(now, i) <==> Bit(was, i) || pos <= i < pos + 16
  {
    var j, k := i % 8, pos % 8;
    MaskBits(k, j);
    if i / 8 == pos / 8 {
      OrBits(was[pos / 8], 0xFF << k, j);
    } else if i / 8 == pos / 8 + 1 {
      MaskBits(0, j);
      ZeroByte(was, pos, i / 8);
    } else if i / 8 == pos / 8 + 2 {
      NotBits(0xFF << k, j);
      ZeroByte(was, pos, i / 8);
    }
  }

  /** A position is in the code segment when its bit is not set. */
  predicate CodeSegment(bits: seq<bv8>, pos: nat)
    requires pos / 8 < |bits|
  {
    (bits[pos / 8] >> (pos % 8)) & 1 == 0
  }

  /** The bitmap tells instructions from arguments, for every position of the code. */
  ghost predicate IsBitmap(code: seq<Byte>, bits: seq<bv8>) {
    && |bits| >= |code| / 8 + 1
    && forall i: nat :: i < |code| ==> (CodeSegment(bits, i) <==> IsStart(code, 0, i))
  }

  /** The bitmap of the part of the sweep below `pc`. */
  ghost predicate SweptTo(code: seq<Byte>, bits: seq<bv8>, pc: nat) {
    && ClearFrom(bits, pc)
    && (forall i: nat :: i < |code| && i < pc ==> (Bit(bits, i) <==> !IsStart(code, 0, i)))
    && (forall i: nat :: i >= pc ==> (IsStart(code, 0, i) <==> IsStart(code, pc, i)))
  }

  lemma {:induction false} SweepStep(code: seq<Byte>, was: seq<bv8>, now: seq<bv8>, pc: nat)
    requires pc < |code| && SweptTo(code, was, pc) && Marks(was, now, pc + 1, PushSize(code[pc]))
    ensures SweptTo(code, now, pc + 1 + PushSize(code[pc]))
  {
    var next := pc + 1 + PushSize(code[pc]);
    assert IsStart(code, 0, pc);
    forall i: nat | i < |code| && i < next ensures Bit(now, i) <==> !IsStart(code, 0, i) {
      NextStart(code, pc, i);
    }
    forall i: nat | i >= next ensures IsStart(code, 0, i) <==> IsStart(code, next, i) {
      NextStart(code, pc, i);
    }
  }

  lemma MarksTwice(a: seq<bv8>, b: seq<bv8>, d: seq<bv8>, pos: nat, n: nat, m: nat)
    requires Marks(a, b, pos, n) && Marks(b, d, pos + n, m) && ClearFrom(a, pos)
    ensures Marks(a, d, pos, n + m) && ClearFrom(b, pos + n)
  {
  }

  /** Marks the `n` argument bytes at `pos`, in chunks of 16 and 8 and a rest. */
  method MarkPush(bits: array<bv8>, pos: nat, n: nat)
    requires 1 <= n <= 32 && (pos + n) / 8 < bits.Length && ClearFrom(bits[..], pos)
    modifies bits
    ensures Marks(old(bits[..]), bits[..], pos, n)
  {
    ghost var was := bits[..];
    var pc, numbits := pos, n;
    while numbits >= 16
      invariant pc + numbits == pos + n && numbits >= 0
      invariant Marks(was, bits[..], pos, pc - pos) && pc >= pos && ClearFrom(bits[..], pc)
    {
      ghost var b := bits[..];
      Set16(bits, pc);
      MarksTwice(was, b, bits[..], pos, pc - pos, 16);
      pc, numbits := pc + 16, numbits - 16;
    }
    while numbits >= 8
      invariant pc + numbits == pos + n && 0 <= numbits < 16
      invariant Marks(was, bits[..], pos, pc - pos) && pc >= pos && ClearFrom(bits[..], pc)
    {
      ghost var b := bits[..];
      Set8(bits, pc);
      MarksTwice(was, b, bits[..], pos, pc - pos, 8);
      pc, numbits := pc + 8, numbits - 8;
    }
    ghost var b := bits[..];
    if numbits == 1 {
      Set1(bits, pc);
    } else if numbits >= 2 {
      SetN(bits, numbits, pc);
    }
    MarksTwice(was, b, bits[..], pos, pc - pos, numbits);
  }

  /** Four bytes beyond the code are enough for a PUSH32 at its end. */
  method CodeBitmapInternal(code: seq<Byte>, bits: array<bv8>)
    requires bits.Length == |code| / 8 + 5 && forall k :: 0 <= k < bits.Length ==> bits[k] == 0
    modifies bits
    ensures IsBitmap(code, bits[..])
  {
    var pc := 0;
    while pc < |code|
      invariant SweptTo(code, bits[..], pc)
      decreases |code| - pc
    {
      ghost var was := bits[..];
      var op := code[pc];
      if PUSH1 <= op <= PUSH32 {
        MarkPush(bits, pc + 1, op - PUSH1 + 1);
      }
      SweepStep(code, was, bits[..], pc);
      pc := pc + 1 + PushSize(op);
    }
    forall i: nat | i < |code| ensures CodeSegment(bits[..], i) <==> IsStart(code, 0, i) {
      assert Bit(bits[..], i) <==> !IsStart(code, 0, i);
      OneOrZero(bits[i / 8], i % 8);
    }
  }

  lemma OneOrZero(b: bv8, j: nat)
    requires j < 8
    ensures (b >> j) & 1 == 0 <==> !BitOf(b, j)
  {
  }

  method CodeBitmap(code: seq<Byte>) returns (r: seq<bv8>)
    ensures IsBitmap(code, r)
  {
    var bits := new bv8[|code| / 8 + 1 + 4](i => 0);
    CodeBitmapInternal(code, bits);
    r := bits[..];
  }

  // ---- contracts and their caches ----

  /** The hash of contract code, None for the empty hash. No two codes have one hash. */
  datatype CodeHash = CodeHash(code: seq<Byte>)

  /** The analyses that a contract shares with those it calls. */
  class Jumpdests {
    var m: map<CodeHash, seq<bv8>>

    constructor ()
      ensures Valid()
    {
      m := map[];
    }

    ghost predicate Valid()
      reads this
    {
      forall h :: h in m ==> IsBitmap(h.code, m[h])
    }
  }

  class Contract {
    var code: seq<Byte>
    var codeHash: Option<CodeHash>
    var analysis: Option<seq<bv8>>
    var jumpdests: Jumpdests

    ghost predicate Valid()
      reads this, jumpdests
    {
      && jumpdests.Valid()
      && (codeHash.Some? ==> codeHash.value.code == code)
      && (analysis.Some? ==> IsBitmap(code, analysis.value))
    }

    /** A contract that is called by another one uses its analyses. */
    constructor (parent: Option<Jumpdests>, code: seq<Byte>, hashed: bool)
      requires parent.Some? ==> parent.value.Valid()
      ensures Valid() && this.code == code
      ensures parent.Some? ==> jumpdests == parent.value
    {
      if parent.Some? {
        jumpdests := parent.value;
      } else {
        jumpdests := new Jumpdests();
      }
      this.code, analysis := code, None;
      codeHash := if hashed then Some(CodeHash(code)) else None;
    }

    /** Instructions of init code are found without the shared map, all others through it. */
    method IsCode(udest: nat) returns (r: bool)
      requires Valid() && udest < |code|
      modifies this`analysis, jumpdests
      ensures Valid() && (r <==> IsStart(code, 0, udest))
      ensures codeHash.None? ==> jumpdests.m == old(jumpdests.m)
      ensures forall h :: h in old(jumpdests.m) ==> h in jumpdests.m && jumpdests.m[h] == old(jumpdests.m)[h]
    {
      if analysis.Some? {
        return CodeSegment(analysis.value, udest);
      }
      if codeHash.Some? {
        var a;
        if codeHash.value in jumpdests.m {
          a := jumpdests.m[codeHash.value];
        } else {
          a := CodeBitmap(code);
          jumpdests.m := jumpdests.m[codeHash.value := a];
        }
        analysis := Some(a);
        return CodeSegment(a, udest);
      }
      var a := CodeBitmap(code);
      analysis := Some(a);
      r := CodeSegment(a, udest);
    }

    /** A jump may go exactly to the JUMPDEST instructions of the sweep, whichever cache answers. */
    method ValidJumpdest(dest: nat) returns (r: bool)
      requires Valid()
      modifies this`analysis, jumpdests
      ensures Valid()
      ensures r <==> dest < 0x1_0000_0000_0000_0000 && dest < |code| && code[dest] == 0x5b && IsStart(code, 0, dest)
    {
      if dest >= 0x1_0000_0000_0000_0000 || dest >= |code| || code[dest] != JUMPDEST {
        return false;
      }
      r := IsCode(dest);
    }
  }
}
