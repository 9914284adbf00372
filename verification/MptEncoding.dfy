/**
 The byte encoding of nodes (pkg/core/mpt/base.go, branch.go, extension.go, leaf.go, hash.go and
 the variable-length integers of pkg/io), over an arbitrary hash function.
 */
module MptEncoding {
  import opened Wrappers
  import opened MptTree

  const HASH_LENGTH := 32

  type Bytes = seq<Byte>
  type Digest = d: Bytes | |d| == HASH_LENGTH witness seq(HASH_LENGTH, i => 0)
  type HashFunction = Bytes -> Digest

  const BRANCH_T: Byte := 0
  const EXTENSION_T: Byte := 1
  const LEAF_T: Byte := 2
  const HASH_T: Byte := 3
  const EMPTY_T: Byte := 4

  /** A decoded node; its children may be of any type. */
  datatype Raw =
    | RBranch(children: seq<Raw>)
    | RExtension(key: Bytes, next: Raw)
    | RLeaf(value: Bytes)
    | RHash(hash: Digest)
    | REmpty

  // ---- variable-length integers ----

  function LittleEndian(n: nat, size: nat): (b: Bytes)
    ensures |b| == size
  {
    if size == 0 then [] else [n % 256] + LittleEndian(n / 256, size - 1)
  }

  function FromLittleEndian(b: Bytes): nat {
    if b == [] then 0 else b[0] + 256 * FromLittleEndian(b[1..])
  }

  function Pow256(n: nat): (p: nat)
    ensures p > 0
  {
    if n == 0 then 1 else 256 * Pow256(n - 1)
  }

  lemma {:induction false} LittleEndianRoundTrip(n: nat, size: nat)
    requires n < Pow256(size)
    ensures FromLittleEndian(LittleEndian(n, size)) == n
  {
    if size > 0 {
      LittleEndianRoundTrip(n / 256, size - 1);
    }
  }

  function PutVarUint(val: nat): Bytes {
    if val < 0xfd then [val]
    else if val < 0xffff then [0xfd] + LittleEndian(val, 2)
    else if val < 0xffffffff then [0xfe] + LittleEndian(val, 4)
    else [0xff] + LittleEndian(val, 8)
  }

  /** The next `n` bytes and what follows them. */
  function ReadBytes(b: Bytes, n: nat): Option<(Bytes, Bytes)> {
    if n <= |b| then Some((b[..n], b[n..])) else None
  }

  function ReadVarUint(b: Bytes): (r: Option<(nat, Bytes)>)
    ensures r.Some? ==> |r.value.1| < |b|
  {
    if b == [] then None
    else
      var size := if b[0] == 0xfd then 2 else if b[0] == 0xfe then 4 else if b[0] == 0xff then 8 else 0;
      if size == 0 then Some((b[0], b[1..]))
      else match ReadBytes(b[1..], size)
        case None => None
        case Some((num, rest)) => Some((FromLittleEndian(num), rest))
  }

  const MAX_UINT64 := 0xffff_ffff_ffff_ffff

  lemma VarUintRoundTrip(val: nat, rest: Bytes)
    requires val <= MAX_UINT64
    ensures ReadVarUint(PutVarUint(val) + rest) == Some((val, rest))
  {
    var b := PutVarUint(val) + rest;
    if val < 0xfd {
      assert b[1..] == rest;
    } else {
      var size := if val < 0xffff then 2 else if val < 0xffffffff then 4 else 8;
      assert val < Pow256(size) by { Powers(); }
      SizedRoundTrip(val, size, b[0], rest);
      assert b == [b[0]] + LittleEndian(val, size) + rest;
    }
  }

  lemma SizedRoundTrip(val: nat, size: nat, tag: Byte, rest: Bytes)
    requires val < Pow256(size)
    ensures var b := ([tag] + LittleEndian(val, size) + rest)[1..];
      ReadBytes(b, size) == Some((LittleEndian(val, size), rest)) && FromLittleEndian(LittleEndian(val, size)) == val
  {
    LittleEndianRoundTrip(val, size);
    var b := ([tag] + LittleEndian(val, size) + rest)[1..];
    assert b == LittleEndian(val, size) + rest;
    assert b[..size] == LittleEndian(val, size) && b[size..] == rest;
  }

  lemma Powers()
    ensures Pow256(2) == 0x1_0000 && Pow256(4) == 0x1_0000_0000 && Pow256(8) == MAX_UINT64 + 1
  {
    assert Pow256(2) == 0x1_0000;
    assert Pow256(4) == 256 * Pow256(3) && Pow256(3) == 256 * Pow256(2);
    assert Pow256(8) == 256 * Pow256(7) && Pow256(7) == 256 * Pow256(6) && Pow256(6) == 256 * Pow256(5) && Pow256(5) == 256 * Pow256(4);
  }

  function VarBytes(v: Bytes): Bytes {
    PutVarUint(|v|) + v
  }

  function ReadVarBytes(b: Bytes, max: nat): (r: Option<(Bytes, Bytes)>)
    ensures r.Some? ==> |r.value.1| < |b|
  {
    match ReadVarUint(b)
    case None => None
    case Some((n, rest)) => if n > max then None else ReadBytes(rest, n)
  }

  /** Up to the limit a byte string is read back; a longer one is refused. */
  lemma VarBytesRoundTrip(v: Bytes, max: nat, rest: Bytes)
    requires |v| <= MAX_UINT64
    ensures ReadVarBytes(VarBytes(v) + rest, max) == if |v| <= max then Some((v, rest)) else None
  {
    assert VarBytes(v) + rest == PutVarUint(|v|) + (v + rest);
    VarUintRoundTrip(|v|, v + rest);
    assert (v + rest)[..|v|] == v && (v + rest)[|v|..] == rest;
  }

  // ---- nodes ----

  /** The encoding of a node with its type, as it is hashed and stored. */
  function Encode(hash: HashFunction, t: Tree): Bytes
    decreases t, 0
  {
    match t
    case Nil => [EMPTY_T]
    case Leaf(v) => [LEAF_T] + VarBytes(v)
    case Ext(key, next) => [EXTENSION_T] + VarBytes(key) + EncodeAsChild(hash, next)
    case Branch(kids) => [BRANCH_T] + EncodeKids(hash, kids)
  }

  function EncodeAsChild(hash: HashFunction, t: Tree): Bytes
    decreases t, 1
  {
    if t == Nil then [EMPTY_T] else [HASH_T] + hash(Encode(hash, t))
  }

  function EncodeKids(hash: HashFunction, kids: seq<Tree>): Bytes
    decreases kids, 0
  {
    if kids == [] then [] else EncodeAsChild(hash, kids[0]) + EncodeKids(hash, kids[1..])
  }

  /** Decodes a node from the front of `b`; trailing bytes are left over. */
  function Decode(b: Bytes): (r: Option<(Raw, Bytes)>)
    ensures r.Some? ==> |r.value.1| < |b|
    decreases |b|, 0, 0
  {
    if b == [] then None
    else if b[0] == BRANCH_T then
      match DecodeKids(b[1..], CHILDREN_COUNT)
      case None => None
      case Some((children, rest)) => Some((RBranch(children), rest))
    else if b[0] == EXTENSION_T then
      match ReadVarBytes(b[1..], MAX_PATH_LENGTH)
      case None => None
      case Some((key, rest)) =>
        match Decode(rest)
        case None => None
        case Some((next, rest')) => Some((RExtension(key, next), rest'))
    else if b[0] == LEAF_T then
      match ReadVarBytes(b[1..], MAX_VALUE_LENGTH)
      case None => None
      case Some((v, rest)) => Some((RLeaf(v), rest))
    else if b[0] == HASH_T then
      match ReadBytes(b[1..], HASH_LENGTH)
      case None => None
      case Some((h, rest)) => Some((RHash(h), rest))
    else if b[0] == EMPTY_T then Some((REmpty, b[1..]))
    else None
  }

  function DecodeKids(b: Bytes, n: nat): (r: Option<(seq<Raw>, Bytes)>)
    ensures r.Some? ==> |r.value.1| <= |b| && |r.value.0| == n
    decreases |b|, 1, n
  {
    if n == 0 then Some(([], b))
    else match Decode(b)
      case None => None
      case Some((child, rest)) =>
        match DecodeKids(rest, n - 1)
        case None => None
        case Some((children, rest')) => Some(([child] + children, rest'))
  }

  // ---- the bytes themselves ----

  /** One byte for small numbers, and else a mark and two, four or eight bytes, the lowest first. */
  lemma VarUintBytes(val: nat)
    requires val <= MAX_UINT64
    ensures var b := PutVarUint(val);
      && (val < 253 ==> b == [val])
      && (253 <= val < 65535 ==> b == [253, val % 256, val / 256])
      && (65535 <= val < 4294967295 ==> b == [254, val % 256, val / 256 % 256, val / 65536 % 256, val / 16777216])
      && (4294967295 <= val ==> b[0] == 255 && |b| == 9 && forall i :: 0 <= i < 8 ==> b[1 + i] == val / Pow256(i) % 256)
  {
    if 253 <= val < 65535 {
      assert LittleEndian(val, 2) == [val % 256] + LittleEndian(val / 256, 1);
      assert LittleEndian(val / 256, 1) == [val / 256 % 256] + LittleEndian(val / 256 / 256, 0);
    } else if 65535 <= val < 4294967295 {
      FourBytes(val);
    } else if 4294967295 <= val {
      forall i | 0 <= i < 8 ensures LittleEndian(val, 8)[i] == val / Pow256(i) % 256 { ByteAt(val, 8, i); }
    }
  }

  lemma FourBytes(val: nat)
    requires val < 0x1_0000_0000
    ensures LittleEndian(val, 4) == [val % 256, val / 256 % 256, val / 65536 % 256, val / 16777216]
  {
    assert LittleEndian(val, 4) == [val % 256] + LittleEndian(val / 256, 3);
    assert LittleEndian(val / 256, 3) == [val / 256 % 256] + LittleEndian(val / 256 / 256, 2);
    assert LittleEndian(val / 65536, 2) == [val / 65536 % 256] + LittleEndian(val / 65536 / 256, 1);
    assert LittleEndian(val / 16777216, 1) == [val / 16777216 % 256] + LittleEndian(val / 16777216 / 256, 0);
  }

  lemma {:induction false} ByteAt(val: nat, size: nat, i: nat)
    requires i < size
    ensures LittleEndian(val, size)[i] == val / Pow256(i) % 256
  {
    if i > 0 {
      ByteAt(val / 256, size - 1, i - 1);
      DivideTwice(val, Pow256(i - 1));
    }
  }

  lemma DivideTwice(val: nat, d: nat)
    requires d > 0
    ensures val / 256 / d == val / (256 * d)
  {
    var q, r := val / 256 / d, val / 256 % d;
    var low := val % 256;
    assert val == 256 * (val / 256) + low && val / 256 == d * q + r;
    assert val == 256 * (d * q + r) + low == (256 * d) * q + (256 * r + low);
    assert 256 * r + low < 256 * d;
    RemainderIs(val, 256 * d, q, 256 * r + low);
  }

  /**
   A node is its type and its parts: 0 and the children in order, 1, key and child, or 2 and the value. A
   child is 4 when it is empty, and else 3 and its hash.
   */
  lemma {:induction false} NodeBytes(hash: HashFunction, t: Tree)
    ensures EncodeAsChild(hash, t) == if t == Nil then [4] else [3] + hash(Encode(hash, t))
    ensures match t
      case Nil => Encode(hash, t) == [4]
      case Leaf(v) => Encode(hash, t) == [2] + PutVarUint(|v|) + v
      case Ext(key, next) => Encode(hash, t) == [1] + PutVarUint(|key|) + key + EncodeAsChild(hash, next)
      case Branch(kids) =>
        forall i :: 0 <= i < |kids| ==>
          Encode(hash, t) == [0] + EncodeKids(hash, kids[..i]) + EncodeAsChild(hash, kids[i]) + EncodeKids(hash, kids[i + 1..])
  {
    if t.Branch? {
      forall i | 0 <= i < |t.kids|
        ensures Encode(hash, t) == [0] + EncodeKids(hash, t.kids[..i]) + EncodeAsChild(hash, t.kids[i]) + EncodeKids(hash, t.kids[i + 1..])
      {
        KidsSplit(hash, t.kids, i);
      }
    }
  }

  lemma {:induction false} KidsSplit(hash: HashFunction, kids: seq<Tree>, i: nat)
    requires i < |kids|
    ensures EncodeKids(hash, kids) == EncodeKids(hash, kids[..i]) + EncodeAsChild(hash, kids[i]) + EncodeKids(hash, kids[i + 1..])
  {
    if i == 0 {
      assert kids[..0] == [];
    } else {
      KidsSplit(hash, kids[1..], i - 1);
      assert kids[..i][1..] == kids[1..][..i - 1] && kids[1..][i..] == kids[i + 1..];
    }
  }

  /** The key or the value of this node is within the limit that decoding enforces. */
  predicate Fits(t: Tree) {
    match t
    case Nil => true
    case Leaf(v) => |v| <= MAX_VALUE_LENGTH
    case Ext(key, _) => |key| <= MAX_PATH_LENGTH
    case Branch(_) => true
  }

  /** A branch has its children, and lengths are numbers of 64 bits. */
  predicate Sized(t: Tree) {
    match t
    case Nil => true
    case Leaf(v) => |v| <= MAX_UINT64
    case Ext(key, _) => |key| <= MAX_UINT64
    case Branch(kids) => |kids| == CHILDREN_COUNT
  }

  /** Every node of the tree fits. */
  ghost predicate Bounded(t: Tree)
    ensures Bounded(t) ==> Fits(t) && Sized(t)
  {
    match t
    case Nil => true
    case Leaf(_) => Fits(t)
    case Ext(_, next) => Fits(t) && Bounded(next)
    case Branch(kids) => |kids| == CHILDREN_COUNT && forall i :: 0 <= i < |kids| ==> Bounded(kids[i])
  }

  /** Keys are byte strings, so their paths have even length, and keys and values are within the limits. */
  ghost predicate Storable(t: Tree) {
    forall p: Path :: Lookup(t, p).Some? ==>
      |p| % 2 == 0 && |p| <= MAX_PATH_LENGTH && |Lookup(t, p).value| <= MAX_VALUE_LENGTH
  }

  /** Paths below `used` nibbles, and values, are within the limits. */
  ghost predicate Within(t: Tree, used: nat) {
    forall p: Path :: Lookup(t, p).Some? ==> used + |p| <= MAX_PATH_LENGTH && |Lookup(t, p).value| <= MAX_VALUE_LENGTH
  }

  /** A canonical tree is within the limits when its contents are: no node is longer than a path. */
  lemma {:induction false} WithinIsBounded(t: Tree, used: nat)
    requires Canonical(t) && Within(t, used)
    ensures Bounded(t)
  {
    match t
    case Nil =>
    case Leaf(v) => assert Lookup(t, []) == Some(v);
    case Ext(key, next) =>
      forall q: Path | Lookup(next, q).Some?
        ensures used + |key| + |q| <= MAX_PATH_LENGTH && |Lookup(next, q).value| <= MAX_VALUE_LENGTH
      {
        ExtLookup(key, next, q);
      }
      WithinIsBounded(next, used + |key|);
      var p := SomePath(t);
      assert key <= p;
    case Branch(kids) =>
      forall i | 0 <= i < |kids| ensures Bounded(kids[i]) {
        forall q: Path | Lookup(kids[i], q).Some?
          ensures used + |q| <= MAX_PATH_LENGTH && |Lookup(kids[i], q).value| <= MAX_VALUE_LENGTH
        {
          KidLookup(kids, i, q);
        }
        WithinIsBounded(kids[i], used);
      }
  }

  lemma KidLookup(kids: seq<Tree>, i: nat, q: Path)
    requires CanonicalKids(kids) && i < |kids| && Lookup(kids[i], q).Some?
    ensures exists p: Path :: |p| >= |q| && Lookup(Branch(kids), p) == Lookup(kids[i], q)
  {
    if i < LAST_CHILD {
      var p: Path := [i] + q;
      assert p[1..] == q && Lookup(Branch(kids), p) == Lookup(kids[i], q);
    } else {
      assert q == [] && Lookup(Branch(kids), []) == Lookup(kids[i], q);
    }
  }

  function RawChild(hash: HashFunction, t: Tree): Raw {
    if t == Nil then REmpty else RHash(hash(Encode(hash, t)))
  }

  function RawKids(hash: HashFunction, kids: seq<Tree>): (r: seq<Raw>)
    ensures |r| == |kids| && forall i :: 0 <= i < |kids| ==> r[i] == RawChild(hash, kids[i])
  {
    seq(|kids|, i requires 0 <= i < |kids| => RawChild(hash, kids[i]))
  }

  /** The node with its children given by hash. */
  function RawNode(hash: HashFunction, t: Tree): Raw {
    match t
    case Nil => REmpty
    case Leaf(v) => RLeaf(v)
    case Ext(key, next) => RExtension(key, RawChild(hash, next))
    case Branch(kids) => RBranch(RawKids(hash, kids))
  }

  lemma {:induction false} ChildRoundTrip(hash: HashFunction, t: Tree, rest: Bytes)
    ensures Decode(EncodeAsChild(hash, t) + rest) == Some((RawChild(hash, t), rest))
  {
    var b := EncodeAsChild(hash, t) + rest;
    if t == Nil {
      assert b[1..] == rest;
    } else {
      var h := hash(Encode(hash, t));
      assert b[1..] == h + rest;
      assert b[1..][..HASH_LENGTH] == h && b[1..][HASH_LENGTH..] == rest;
    }
  }

  lemma {:induction false} KidsRoundTrip(hash: HashFunction, kids: seq<Tree>, rest: Bytes)
    ensures DecodeKids(EncodeKids(hash, kids) + rest, |kids|) == Some((RawKids(hash, kids), rest))
  {
    if kids == [] {
      assert EncodeKids(hash, kids) + rest == rest;
    } else {
      var tail := EncodeKids(hash, kids[1..]) + rest;
      assert EncodeKids(hash, kids) + rest == EncodeAsChild(hash, kids[0]) + tail;
      ChildRoundTrip(hash, kids[0], tail);
      KidsRoundTrip(hash, kids[1..], rest);
      assert [RawChild(hash, kids[0])] + RawKids(hash, kids[1..]) == RawKids(hash, kids);
    }
  }

  /** Decoding an encoding gives the node back, with its children by hash, and fails exactly for one that is too long. */
  lemma {:induction false} EncodingRoundTrip(hash: HashFunction, t: Tree)
    requires Sized(t)
    ensures Decode(Encode(hash, t)) == if Fits(t) then Some((RawNode(hash, t), [])) else None
  {
    var b := Encode(hash, t);
    match t
    case Nil =>
      assert b[1..] == [];
    case Leaf(v) =>
      assert b[1..] == VarBytes(v) + [];
      VarBytesRoundTrip(v, MAX_VALUE_LENGTH, []);
    case Ext(key, next) =>
      var child := EncodeAsChild(hash, next);
      assert b[1..] == VarBytes(key) + child;
      VarBytesRoundTrip(key, MAX_PATH_LENGTH, child);
      assert child == child + [];
      ChildRoundTrip(hash, next, []);
    case Branch(kids) =>
      assert b[1..] == EncodeKids(hash, kids) + [];
      KidsRoundTrip(hash, kids, []);
  }
}
