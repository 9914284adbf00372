/**
 The meaning of the Merkle-Patricia trie of pkg/core/mpt: the fully expanded tree
 behind a (partly collapsed) node, the map from nibble paths to values that it
 denotes, and the canonical form of pkg/core/mpt/doc.go.
 */
module MptTree {
  import opened Wrappers

  type Nibble = n: int | 0 <= n < 16
  type Path = seq<Nibble>
  type Value = seq<Byte>

  const CHILDREN_COUNT := 17
  const LAST_CHILD := 16
  const MAX_KEY_LENGTH := 68
  const MAX_PATH_LENGTH := 136
  const MAX_VALUE_LENGTH := 65539

  /** A tree without hash nodes. `Nil` is the empty tree. */
  datatype Tree =
    | Nil
    | Leaf(value: Value)
    | Ext(key: Path, next: Tree)
    | Branch(kids: seq<Tree>)

  /** Index of the child to follow and the rest of the path. */
  function SplitPath(path: Path): (int, Path) {
    if path != [] then (path[0], path[1..]) else (LAST_CHILD, path)
  }

  /** The value stored at `path`, if any. */
  function Lookup(t: Tree, path: Path): Option<Value> {
    match t
    case Nil => None
    case Leaf(v) => if path == [] then Some(v) else None
    case Ext(key, next) => if key <= path then Lookup(next, path[|key|..]) else None
    case Branch(kids) =>
      var (i, rest) := SplitPath(path);
      if i < |kids| then Lookup(kids[i], rest) else None
  }

  ghost predicate HasTwo(kids: seq<Tree>) {
    exists i, j :: 0 <= i < j < |kids| && kids[i] != Nil && kids[j] != Nil
  }

  /** What the children of a branch satisfy, whatever their number. */
  ghost predicate CanonicalKids(kids: seq<Tree>) {
    && |kids| == CHILDREN_COUNT
    && (forall i :: 0 <= i < |kids| ==> Canonical(kids[i]))
    && (kids[LAST_CHILD].Nil? || kids[LAST_CHILD].Leaf?)
  }

  /**
   The three invariants of the documentation: a branch has at least two children, an
   extension key is not empty, and an extension never leads to an extension.
   */
  ghost predicate Canonical(t: Tree) {
    match t
    case Nil => true
    case Leaf(_) => true
    case Ext(key, next) => key != [] && (next.Leaf? || next.Branch?) && Canonical(next)
    case Branch(kids) =>
      && |kids| == CHILDREN_COUNT
      && (forall i :: 0 <= i < |kids| ==> Canonical(kids[i]))
      && (kids[LAST_CHILD].Nil? || kids[LAST_CHILD].Leaf?)
      && HasTwo(kids)
  }

  ghost predicate SameMap(a: Tree, b: Tree) {
    forall p: Path :: Lookup(a, p) == Lookup(b, p)
  }

  /** A canonical tree other than Nil stores something. */
  lemma {:induction false} SomePath(t: Tree) returns (p: Path)
    requires Canonical(t) && t != Nil
    ensures Lookup(t, p).Some?
  {
    match t
    case Leaf(_) => p := [];
    case Ext(key, next) =>
      var q := SomePath(next);
      p := key + q;
      assert p[|key|..] == q;
    case Branch(kids) =>
      var i, j :| 0 <= i < j < |kids| && kids[i] != Nil && kids[j] != Nil;
      p := PathInto(kids, i);
  }

  /** A path through child `i` of a branch, when that child is not Nil. */
  lemma {:induction false} PathInto(kids: seq<Tree>, i: nat) returns (p: Path)
    requires CanonicalKids(kids) && i < LAST_CHILD + 1 && kids[i] != Nil
    ensures Lookup(Branch(kids), p).Some? && SplitPath(p).0 == i
    decreases kids
  {
    if i == LAST_CHILD {
      p := [];
    } else {
      var q := SomePath(kids[i]);
      p := [i] + q;
      assert p[1..] == q;
    }
  }

  /** A branch stores two paths that do not start alike; in particular one of them is not empty. */
  lemma {:induction false} BranchDiverges(t: Tree) returns (p: Path, q: Path)
    requires t.Branch? && Canonical(t)
    ensures Lookup(t, p).Some? && Lookup(t, q).Some?
    ensures p != [] && (q == [] || q[0] != p[0])
  {
    var i, j :| 0 <= i < j < |t.kids| && t.kids[i] != Nil && t.kids[j] != Nil;
    p := PathInto(t.kids, i);
    q := PathInto(t.kids, j);
  }

  lemma {:induction false} ExtLookup(key: Path, next: Tree, q: Path)
    ensures Lookup(Ext(key, next), key + q) == Lookup(next, q)
  {
    assert (key + q)[|key|..] == q;
  }

  /** Two extensions over the same map have the same key. */
  lemma {:induction false} ExtKeysAgree(a: Tree, b: Tree)
    requires a.Ext? && b.Ext? && Canonical(a) && Canonical(b) && SameMap(a, b)
    requires |a.key| <= |b.key|
    ensures a.key == b.key
  {
    var q0 := SomePath(a.next);
    ExtLookup(a.key, a.next, q0);
    assert Lookup(b, a.key + q0).Some?;
    assert b.key <= a.key + q0;
    assert a.key == b.key[..|a.key|];
    if |a.key| < |b.key| {
      var p: Path, q: Path := q0, q0;
      if a.next.Branch? {
        p, q := BranchDiverges(a.next);
      }
      ExtLookup(a.key, a.next, p);
      ExtLookup(a.key, a.next, q);
      assert false;
    }
  }

  lemma {:induction false} SameShape(a: Tree, b: Tree)
    requires Canonical(a) && Canonical(b) && SameMap(a, b)
    requires a.Branch? || (a.Ext? && !b.Branch?) || (a.Leaf? && b.Nil?)
    ensures a.Branch? <==> b.Branch?
    ensures a.Ext? <==> b.Ext?
    ensures a.Leaf? <==> b.Leaf?
  {
    if a.Branch? {
      var p, q := BranchDiverges(a);
      assert Lookup(b, p).Some? && Lookup(b, q).Some?;
    } else {
      var p := SomePath(a);
      assert Lookup(b, p).Some?;
    }
  }

  /**
   History independence: a canonical tree is determined by the map it denotes. Together with
   the update contracts (MptTrie), the root depends on the contents only.
   */
  lemma {:induction false} CanonicalUnique(a: Tree, b: Tree)
    requires Canonical(a) && Canonical(b) && SameMap(a, b)
    ensures a == b
    decreases a, 1
  {
    if a.Branch? || (a.Ext? && !b.Branch?) || (a.Leaf? && b.Nil?) {
      SameShape(a, b);
    } else if b.Branch? || b.Ext? || b.Leaf? {
      if !a.Leaf? || !b.Leaf? { SameShape(b, a); }
    }
    match a
    case Nil =>
    case Leaf(_) =>
      assert Lookup(a, []) == Lookup(b, []);
    case Ext(key, next) =>
      if |a.key| <= |b.key| { ExtKeysAgree(a, b); } else { ExtKeysAgree(b, a); }
      forall q: Path ensures Lookup(a.next, q) == Lookup(b.next, q) {
        ExtLookup(a.key, a.next, q);
        ExtLookup(b.key, b.next, q);
        assert Lookup(a, a.key + q) == Lookup(b, b.key + q);
      }
      CanonicalUnique(a.next, b.next);
    case Branch(kids) =>
      forall i | 0 <= i < CHILDREN_COUNT ensures a.kids[i] == b.kids[i] {
        KidUnique(a, b, i);
      }
  }

  lemma {:induction false} KidUnique(a: Tree, b: Tree, i: nat)
    requires a.Branch? && b.Branch? && Canonical(a) && Canonical(b) && SameMap(a, b)
    requires i < CHILDREN_COUNT
    ensures a.kids[i] == b.kids[i]
    decreases a, 0
  {
    if i == LAST_CHILD {
      assert Lookup(a, []) == Lookup(b, []);
    } else {
      forall q: Path ensures Lookup(a.kids[i], q) == Lookup(b.kids[i], q) {
        var p: Path := [i] + q;
        assert p[1..] == q;
        assert Lookup(a, p) == Lookup(b, p);
      }
      CanonicalUnique(a.kids[i], b.kids[i]);
    }
  }

  function High(b: Byte): Nibble {
    b / 16
  }

  function Low(b: Byte): Nibble {
    b % 16
  }

  function Join(high: Nibble, low: Nibble): (b: Byte)
    ensures High(b) == high && Low(b) == low
  {
    16 * high + low
  }

  /** Splits every byte into its high and low half. */
  function ToNibbles(key: seq<Byte>): (path: Path)
    ensures |path| == 2 * |key|
    ensures forall i :: 0 <= i < |key| ==> path[2 * i] == High(key[i]) && path[2 * i + 1] == Low(key[i])
  {
    if key == [] then [] else ToNibbles(key[..|key| - 1]) + [High(key[|key| - 1]), Low(key[|key| - 1])]
  }

  /** Joins nibbles to bytes again; a last odd nibble is dropped. */
  function FromNibbles(path: Path): (key: seq<Byte>)
  {
    seq(|path| / 2, i requires 0 <= i < |path| / 2 => Join(path[2 * i], path[2 * i + 1]))
  }

  lemma KeyRoundTrip(key: seq<Byte>)
    ensures FromNibbles(ToNibbles(key)) == key
  {
    var path := ToNibbles(key);
    forall i | 0 <= i < |key| ensures FromNibbles(path)[i] == key[i] {
      assert path[2 * i] == High(key[i]) && path[2 * i + 1] == Low(key[i]);
    }
  }

  lemma NibblesRoundTrip(key: seq<Byte>, path: Path)
    ensures FromNibbles(ToNibbles(key)) == key
    ensures |path| % 2 == 0 ==> ToNibbles(FromNibbles(path)) == path
  {
    KeyRoundTrip(key);
    if |path| % 2 == 0 {
      var back := ToNibbles(FromNibbles(path));
      forall i | 0 <= i < |path| ensures back[i] == path[i] {
        NibbleBack(path, i / 2);
      }
    }
  }

  lemma NibbleBack(path: Path, j: nat)
    requires |path| % 2 == 0 && 2 * j < |path|
    ensures var back := ToNibbles(FromNibbles(path)); back[2 * j] == path[2 * j] && back[2 * j + 1] == path[2 * j + 1]
  {
    assert FromNibbles(path)[j] == Join(path[2 * j], path[2 * j + 1]);
  }

  /** Keys are byte strings, so their paths have even length. */
  ghost predicate EvenKeys(t: Tree) {
    forall p: Path :: Lookup(t, p).Some? ==> |p| % 2 == 0
  }

  /** The nodes from the root to the leaf at `path`. */
  function PathNodes(t: Tree, path: Path): seq<Tree> {
    match t
    case Nil => []
    case Leaf(_) => if path == [] then [t] else []
    case Ext(key, next) => if key <= path then [t] + PathNodes(next, path[|key|..]) else []
    case Branch(kids) =>
      var (i, rest) := SplitPath(path);
      [t] + if i < |kids| then PathNodes(kids[i], rest) else []
  }
}
