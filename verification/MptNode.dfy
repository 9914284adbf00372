/**
 Nodes as the trie holds them: any subtree may be compressed to its hash. A hash is ideal:
 `HashOf` is injective, so a digest stands for exactly one tree, but nothing reads the tree back
 out of a digest except a lookup in the store.
 */
module MptNode {
  import opened MptTree

  datatype Hash = HashOf(tree: Tree)

  datatype Node =
    | EmptyNode
    | LeafNode(value: Value)
    | ExtensionNode(key: Path, next: Node)
    | BranchNode(children: seq<Node>)
    | HashNode(hash: Hash)

  /** The tree a node stands for once every hash node is resolved. */
  function Expand(n: Node): Tree {
    match n
    case EmptyNode => Nil
    case LeafNode(v) => Leaf(v)
    case ExtensionNode(key, next) => Ext(key, Expand(next))
    case BranchNode(cs) => Branch(seq(|cs|, i requires 0 <= i < |cs| => Expand(cs[i])))
    case HashNode(h) => h.tree
  }

  function ExpandAll(cs: seq<Node>): (ts: seq<Tree>)
    ensures |ts| == |cs| && forall i :: 0 <= i < |cs| ==> ts[i] == Expand(cs[i])
  {
    seq(|cs|, i requires 0 <= i < |cs| => Expand(cs[i]))
  }

  lemma ExpandBranch(cs: seq<Node>)
    ensures Expand(BranchNode(cs)) == Branch(ExpandAll(cs))
  {
    assert Expand(BranchNode(cs)).kids == ExpandAll(cs);
  }

  lemma ExpandUpdate(cs: seq<Node>, i: nat, c: Node)
    requires i < |cs|
    ensures ExpandAll(cs[i := c]) == ExpandAll(cs)[i := Expand(c)]
  {
  }

  /** A child as it is written into its parent's encoding: empty or a hash. */
  function AsChild(t: Tree): Node {
    if t == Nil then EmptyNode else HashNode(HashOf(t))
  }

  /** The content of a node's encoding: the node with its children given by hash. */
  function Shallow(t: Tree): Node {
    match t
    case Nil => EmptyNode
    case Leaf(v) => LeafNode(v)
    case Ext(key, next) => ExtensionNode(key, AsChild(next))
    case Branch(kids) => BranchNode(seq(|kids|, i requires 0 <= i < |kids| => AsChild(kids[i])))
  }

  /** Decoding an encoding gives back a node for the same tree. */
  lemma ExpandShallow(t: Tree)
    ensures Expand(Shallow(t)) == t
  {
    match t
    case Nil =>
    case Leaf(_) =>
    case Ext(_, _) =>
    case Branch(kids) =>
      assert Expand(Shallow(t)).kids == kids;
  }

  /** Number of positions at which the (non-empty) tree `x` occurs in `t`. */
  ghost function Occ(t: Tree, x: Tree): nat
    decreases t, 1
  {
    (if t == x && t != Nil then 1 else 0) + OccBelow(t, x)
  }

  ghost function OccBelow(t: Tree, x: Tree): nat
    decreases t, 0
  {
    match t
    case Nil => 0
    case Leaf(_) => 0
    case Ext(_, next) => Occ(next, x)
    case Branch(kids) => OccAll(kids, x)
  }

  ghost function OccAll(ts: seq<Tree>, x: Tree): nat
    decreases ts, 0
  {
    if ts == [] then 0 else Occ(ts[0], x) + OccAll(ts[1..], x)
  }

  lemma OccSmall(v: Value, x: Tree)
    ensures Occ(Nil, x) == 0
    ensures Occ(Leaf(v), x) == if x == Leaf(v) then 1 else 0
  {
  }

  lemma {:induction false} OccUpdate(ts: seq<Tree>, i: nat, t: Tree, x: Tree)
    requires i < |ts|
    ensures OccAll(ts[i := t], x) == OccAll(ts, x) - Occ(ts[i], x) + Occ(t, x)
  {
    if i == 0 {
      assert ts[0 := t][1..] == ts[1..];
    } else {
      assert ts[i := t][1..] == ts[1..][i - 1 := t];
      OccUpdate(ts[1..], i - 1, t, x);
    }
  }

  lemma {:induction false} OccKid(ts: seq<Tree>, i: nat, x: Tree)
    requires i < |ts|
    ensures Occ(ts[i], x) <= OccAll(ts, x)
  {
    if i > 0 {
      OccKid(ts[1..], i - 1, x);
    }
  }

  lemma {:induction false} OccNone(ts: seq<Tree>, x: Tree)
    requires forall i :: 0 <= i < |ts| ==> ts[i] == Nil
    ensures OccAll(ts, x) == 0
  {
    if ts != [] {
      OccNone(ts[1..], x);
    }
  }

  /** When at most child `i` is not empty, it accounts for all occurrences. */
  lemma {:induction false} OccOnly(ts: seq<Tree>, i: nat, x: Tree)
    requires i < |ts|
    requires forall j :: 0 <= j < |ts| && j != i ==> ts[j] == Nil
    ensures OccAll(ts, x) == Occ(ts[i], x)
  {
    OccUpdate(ts, i, Nil, x);
    OccNone(ts[i := Nil], x);
  }

  /** Size of the expanded tree, a bound for the recursion of the updates. */
  ghost function Size(t: Tree): nat
    decreases t, 0
  {
    match t
    case Nil => 0
    case Leaf(_) => 1
    case Ext(key, next) => 1 + |key| + Size(next)
    case Branch(kids) => 1 + SizeAll(kids)
  }

  ghost function SizeAll(ts: seq<Tree>): nat
    decreases ts, 0
  {
    if ts == [] then 0 else Size(ts[0]) + SizeAll(ts[1..])
  }

  lemma {:induction false} SizeUpdate(ts: seq<Tree>, i: nat, t: Tree)
    requires i < |ts|
    ensures SizeAll(ts[i := t]) == SizeAll(ts) - Size(ts[i]) + Size(t)
    ensures Size(ts[i]) <= SizeAll(ts)
  {
    if i == 0 {
      assert ts[0 := t][1..] == ts[1..];
    } else {
      assert ts[i := t][1..] == ts[1..][i - 1 := t];
      SizeUpdate(ts[1..], i - 1, t);
    }
  }
}
