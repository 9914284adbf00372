/**
 What an update of the trie has to achieve, stated on the map a tree denotes, and the facts
 about single nodes that the update methods of MptTrie rest on.
 */
module MptUpdate {
  import opened Wrappers
  import opened MptTree

  /** One change: a value to store, or None to remove the key. */
  datatype KeyValue = KeyValue(key: Path, value: Option<Value>)

  /** The value seen at `p` after the changes `kv` have been made in order. */
  ghost function Apply(kv: seq<KeyValue>, p: Path, was: Option<Value>): Option<Value> {
    if kv == [] then was
    else Apply(kv[1..], p, if kv[0].key == p then kv[0].value else was)
  }

  /** `after` is canonical and denotes the map of `before` changed by `kv`. */
  ghost predicate IsUpdate(before: Tree, kv: seq<KeyValue>, after: Tree) {
    && Canonical(after)
    && forall p: Path :: Lookup(after, p) == Apply(kv, p, Lookup(before, p))
  }

  ghost predicate IsChange(before: Tree, path: Path, value: Option<Value>, after: Tree) {
    && Canonical(after)
    && forall p: Path :: Lookup(after, p) == if p == path then value else Lookup(before, p)
  }

  /** `t` below `path`: an extension, unless the path is empty. */
  function Prefixed(path: Path, t: Tree): Tree {
    if path == [] then t else Ext(path, t)
  }

  /** Seventeen empty children. */
  function NoKids(): (ts: seq<Tree>)
    ensures |ts| == CHILDREN_COUNT && forall i :: 0 <= i < |ts| ==> ts[i] == Nil
  {
    seq(CHILDREN_COUNT, i => Nil)
  }

  lemma PrefixedLookup(path: Path, t: Tree, p: Path)
    ensures Lookup(Prefixed(path, t), p) == if path <= p then Lookup(t, p[|path|..]) else None
  {
    if path == [] { assert p[0..] == p; }
  }

  lemma {:induction false} ChangeIsUpdate(before: Tree, c: KeyValue, after: Tree)
    ensures IsChange(before, c.key, c.value, after) <==> IsUpdate(before, [c], after)
  {
    forall p: Path
      ensures Apply([c], p, Lookup(before, p)) == if p == c.key then c.value else Lookup(before, p)
    {
      assert [c][1..] == [];
    }
  }

  /** Changing a child changes the branch in the same way, as long as two children remain. */
  lemma {:induction false} BranchChange(kids: seq<Tree>, path: Path, value: Option<Value>, kid: Tree)
    requires CanonicalKids(kids)
    requires IsChange(kids[SplitPath(path).0], SplitPath(path).1, value, kid)
    requires path == [] ==> kid.Nil? || kid.Leaf?
    ensures var after := kids[SplitPath(path).0 := kid];
      && CanonicalKids(after)
      && (HasTwo(after) ==> IsChange(Branch(kids), path, value, Branch(after)))
      && forall p: Path :: Lookup(Branch(after), p) == if p == path then value else Lookup(Branch(kids), p)
  {
    var (i, rest) := SplitPath(path);
    var after := kids[i := kid];
    forall p: Path
      ensures Lookup(Branch(after), p) == if p == path then value else Lookup(Branch(kids), p)
    {
      var (j, q) := SplitPath(p);
      if j == i {
        assert p == path <==> q == rest by {
          if p != [] && path != [] {
            assert p == [p[0]] + p[1..] && path == [path[0]] + path[1..];
          }
        }
        assert Lookup(kid, q) == if q == rest then value else Lookup(kids[i], q);
      }
    }
  }

  lemma {:induction false} StillTwo(kids: seq<Tree>, i: nat, kid: Tree)
    requires HasTwo(kids) && i < |kids| && kid != Nil
    ensures HasTwo(kids[i := kid])
  {
    var j, k :| 0 <= j < k < |kids| && kids[j] != Nil && kids[k] != Nil;
    var after := kids[i := kid];
    assert after[j] != Nil && after[k] != Nil;
  }

  lemma {:induction false} ExtChange(key: Path, next: Tree, path: Path, value: Option<Value>, next': Tree)
    requires key <= path
    requires IsChange(next, path[|key|..], value, next')
    ensures forall p: Path ::
      Lookup(Prefixed(key, next'), p) == if p == path then value else Lookup(Ext(key, next), p)
    ensures key != [] && (next'.Leaf? || next'.Branch?) ==>
      IsChange(Ext(key, next), path, value, Ext(key, next'))
  {
    forall p: Path
      ensures Lookup(Prefixed(key, next'), p) == if p == path then value else Lookup(Ext(key, next), p)
    {
      PrefixedLookup(key, next', p);
      if key <= p {
        var q := p[|key|..];
        assert p == key + q && path == key + path[|key|..];
        assert Lookup(next', q) == if q == path[|key|..] then value else Lookup(next, q);
      }
    }
    if key != [] {
      assert forall p: Path :: Lookup(Ext(key, next'), p) == Lookup(Prefixed(key, next'), p);
    }
  }

  /** Extending the key of an extension: the node below a longer path. */
  lemma {:induction false} PrefixedTwice(a: Path, b: Path, t: Tree)
    requires b != []
    ensures forall p: Path :: Lookup(Prefixed(a, Ext(b, t)), p) == Lookup(Ext(a + b, t), p)
  {
    forall p: Path
      ensures Lookup(Prefixed(a, Ext(b, t)), p) == Lookup(Ext(a + b, t), p)
    {
      PrefixedLookup(a, Ext(b, t), p);
      if a + b <= p {
        assert a <= p && b <= p[|a|..];
        assert p[|a|..][|b|..] == p[|a + b|..];
      }
    }
  }

  /** The only child of a branch takes its place, below its index. */
  lemma {:induction false} OnlyChild(kids: seq<Tree>, i: Nibble)
    requires |kids| == CHILDREN_COUNT
    requires forall j :: 0 <= j < |kids| && j != i ==> kids[j] == Nil
    ensures forall p: Path :: Lookup(Branch(kids), p) == Lookup(Prefixed([i], kids[i]), p)
  {
    forall p: Path ensures Lookup(Branch(kids), p) == Lookup(Prefixed([i], kids[i]), p)
    {
      PrefixedLookup([i], kids[i], p);
      if p != [] && p[0] == i {
        assert [i] <= p;
      } else {
        assert !([i] <= p);
      }
    }
  }

  lemma {:induction false} OnlyLastChild(kids: seq<Tree>)
    requires CanonicalKids(kids)
    requires forall j :: 0 <= j < LAST_CHILD ==> kids[j] == Nil
    ensures forall p: Path :: Lookup(Branch(kids), p) == Lookup(kids[LAST_CHILD], p)
  {
  }

  lemma {:induction false} EmptyPut(path: Path, value: Value)
    ensures IsChange(Nil, path, Some(value), Prefixed(path, Leaf(value)))
  {
    forall p: Path
      ensures Lookup(Prefixed(path, Leaf(value)), p) == if p == path then Some(value) else None
    {
      PrefixedLookup(path, Leaf(value), p);
      if path <= p && p[|path|..] == [] { assert p == path; }
    }
  }

  /** Storing under a non-empty path next to a leaf. */
  lemma {:induction false} LeafSplit(was: Value, path: Path, value: Value)
    requires path != []
    ensures IsChange(Leaf(was), path, Some(value),
      Branch(NoKids()[path[0] := Prefixed(path[1..], Leaf(value))][LAST_CHILD := Leaf(was)]))
  {
    var kid := Prefixed(path[1..], Leaf(value));
    var kids := NoKids()[path[0] := kid][LAST_CHILD := Leaf(was)];
    assert Canonical(Branch(kids)) by {
      assert kids[path[0]] != Nil && kids[LAST_CHILD] != Nil;
      assert Canonical(kid);
    }
    forall p: Path
      ensures Lookup(Branch(kids), p) == if p == path then Some(value) else Lookup(Leaf(was), p)
    {
      if p != [] && p[0] == path[0] {
        PrefixedLookup(path[1..], Leaf(value), p[1..]);
        assert p == [p[0]] + p[1..] && path == [path[0]] + path[1..];
        if path[1..] <= p[1..] && p[1..][|path[1..]|..] == [] {
          assert p[1..] == path[1..];
        }
      }
    }
  }

  /** Storing under a path that leaves an extension after the common part `key[..lp]`. */
  lemma {:induction false} ExtSplit(key: Path, next: Tree, path: Path, value: Value, lp: nat)
    requires Canonical(Ext(key, next))
    requires lp < |key| && lp <= |path| && key[..lp] == path[..lp]
    requires lp < |path| ==> key[lp] != path[lp]
    ensures var (i, rest) := SplitPath(path[lp..]);
      var kids := NoKids()[key[lp] := Prefixed(key[lp + 1..], next)][i := Prefixed(rest, Leaf(value))];
      && kids[key[lp]] == Prefixed(key[lp + 1..], next)
      && kids[i] == Prefixed(rest, Leaf(value))
      && IsChange(Ext(key, next), path, Some(value), Prefixed(key[..lp], Branch(kids)))
  {
    var tail := path[lp..];
    var (i, rest) := SplitPath(tail);
    var kids := NoKids()[key[lp] := Prefixed(key[lp + 1..], next)][i := Prefixed(rest, Leaf(value))];
    assert i != key[lp];
    assert Canonical(Branch(kids)) by {
      assert kids[key[lp]] != Nil && kids[i] != Nil;
    }
    assert Canonical(Prefixed(key[..lp], Branch(kids)));
    forall p: Path
      ensures Lookup(Prefixed(key[..lp], Branch(kids)), p)
           == if p == path then Some(value) else Lookup(Ext(key, next), p)
    {
      PrefixedLookup(key[..lp], Branch(kids), p);
      if key[..lp] <= p {
        var q := p[lp..];
        assert p == key[..lp] + q;
        assert path == key[..lp] + tail;
        ExtSplitBelow(key, next, lp, tail, value, kids, q);
        assert key <= p <==> key[lp..] <= q by { PrefixSplit(key, lp, q); }
      }
    }
  }

  lemma PrefixSplit(key: Path, lp: nat, q: Path)
    requires lp <= |key|
    ensures key <= key[..lp] + q <==> key[lp..] <= q
    ensures key <= key[..lp] + q ==> (key[..lp] + q)[|key|..] == q[|key| - lp..]
  {
    var p := key[..lp] + q;
    assert p[lp..] == q;
    assert key == key[..lp] + key[lp..];
    if key <= p {
      assert forall i :: 0 <= i < |key| - lp ==> key[lp..][i] == key[lp + i] == p[lp + i] == q[i];
    }
    if key[lp..] <= q {
      assert forall i :: lp <= i < |key| ==> key[i] == key[lp..][i - lp] == q[i - lp] == p[i];
    }
  }

  lemma {:induction false} ExtSplitBelow(key: Path, next: Tree, lp: nat, tail: Path, value: Value, kids: seq<Tree>, q: Path)
    requires lp < |key|
    requires tail != [] ==> tail[0] != key[lp]
    requires kids == NoKids()[key[lp] := Prefixed(key[lp + 1..], next)][SplitPath(tail).0 := Prefixed(SplitPath(tail).1, Leaf(value))]
    ensures Lookup(Branch(kids), q)
         == if q == tail then Some(value) else if key[lp..] <= q then Lookup(next, q[|key| - lp..]) else None
  {
    var (i, rest) := SplitPath(tail);
    var (j, r) := SplitPath(q);
    assert key[lp..] == [key[lp]] + key[lp + 1..];
    if q != [] { assert q == [q[0]] + q[1..]; }
    if tail != [] { assert tail == [tail[0]] + tail[1..]; }
    if j == i {
      PrefixedLookup(rest, Leaf(value), r);
      if rest <= r && r[|rest|..] == [] {
        assert r == rest;
      }
      assert !(key[lp..] <= q);
    } else if j == key[lp] {
      PrefixedLookup(key[lp + 1..], next, r);
      if key[lp + 1..] <= r {
        assert r[|key[lp + 1..]|..] == q[|key| - lp..];
      }
    }
  }

  /** `t` below `prefix`, keeping an extension from leading to an extension. */
  function Merge(prefix: Path, t: Tree): Tree {
    match t
    case Nil => Nil
    case Ext(key, next) => Ext(prefix + key, next)
    case _ => Prefixed(prefix, t)
  }

  lemma {:induction false} MergeCorrect(prefix: Path, t: Tree)
    requires Canonical(t)
    ensures Canonical(Merge(prefix, t))
    ensures forall p: Path :: Lookup(Merge(prefix, t), p) == Lookup(Prefixed(prefix, t), p)
  {
    if t.Ext? {
      PrefixedTwice(prefix, t.key, t.next);
    }
  }

  /** `i` is the only child that may be present. */
  ghost predicate OnlyAt(kids: seq<Tree>, i: nat) {
    forall j :: 0 <= j < |kids| && j != i ==> kids[j] == Nil
  }

  /** The node that stands for a branch with at most one child. */
  function Strip(kids: seq<Tree>, i: nat): Tree
    requires |kids| == CHILDREN_COUNT && i < CHILDREN_COUNT
  {
    if i == LAST_CHILD then kids[i] else Merge([i], kids[i])
  }

  lemma {:induction false} StripCorrect(kids: seq<Tree>, i: nat)
    requires CanonicalKids(kids) && i < CHILDREN_COUNT && OnlyAt(kids, i)
    ensures Canonical(Strip(kids, i))
    ensures forall p: Path :: Lookup(Strip(kids, i), p) == Lookup(Branch(kids), p)
  {
    if i == LAST_CHILD {
      OnlyLastChild(kids);
    } else {
      OnlyChild(kids, i);
      MergeCorrect([i], kids[i]);
    }
  }

  /** `node` sits at `prefix` and holds everything that `t` stores below `path`. */
  ghost predicate IsStart(t: Tree, path: Path, node: Tree, prefix: Path) {
    && path <= prefix
    && (forall q: Path :: Lookup(t, prefix + q) == Lookup(node, q))
    && (forall p: Path :: path <= p && Lookup(t, p).Some? ==> prefix <= p)
  }

  ghost predicate NothingBelow(t: Tree, path: Path) {
    forall p: Path :: path <= p ==> Lookup(t, p) == None
  }

  lemma {:induction false} StartHere(t: Tree, path: Path)
    ensures path == [] ==> IsStart(t, path, t, [])
    ensures t.Leaf? && path != [] ==> NothingBelow(t, path)
    ensures t.Branch? && path != [] && path[0] >= |t.kids| ==> NothingBelow(t, path)
  {
    assert forall q: Path :: [] + q == q;
  }

  lemma {:induction false} StartInBranch(kids: seq<Tree>, path: Path, node: Tree, prefix: Path)
    requires path != [] && path[0] < |kids|
    ensures IsStart(kids[path[0]], path[1..], node, prefix) ==> IsStart(Branch(kids), path, node, [path[0]] + prefix)
    ensures NothingBelow(kids[path[0]], path[1..]) ==> NothingBelow(Branch(kids), path)
  {
    var i, rest := path[0], path[1..];
    assert path == [i] + rest;
    forall p: Path | path <= p ensures p != [] && p[0] == i && rest <= p[1..] && p == [i] + p[1..] {
    }
    if IsStart(kids[i], rest, node, prefix) {
      forall q: Path ensures Lookup(Branch(kids), [i] + prefix + q) == Lookup(node, q) {
        assert ([i] + prefix + q)[1..] == prefix + q;
      }
      assert path <= [i] + prefix;
    }
  }

  lemma {:induction false} StartInExt(key: Path, next: Tree, path: Path, node: Tree, prefix: Path)
    requires key <= path && IsStart(next, path[|key|..], node, prefix)
    ensures IsStart(Ext(key, next), path, node, key + prefix)
  {
    var t := Ext(key, next);
    assert path == key + path[|key|..];
    forall q: Path ensures Lookup(t, key + prefix + q) == Lookup(node, q) {
      assert key + prefix + q == key + (prefix + q);
      ExtLookup(key, next, prefix + q);
    }
    forall p: Path | path <= p && Lookup(t, p).Some? ensures key + prefix <= p {
      var q := p[|key|..];
      assert p == key + q && path[|key|..] <= q;
      ExtLookup(key, next, q);
      assert prefix <= q;
      assert key + prefix == key + q[..|prefix|];
    }
  }

  lemma {:induction false} NothingInExt(key: Path, next: Tree, path: Path)
    requires key <= path && NothingBelow(next, path[|key|..])
    ensures NothingBelow(Ext(key, next), path)
  {
    forall p: Path | path <= p ensures Lookup(Ext(key, next), p) == None {
      assert path[|key|..] <= p[|key|..];
    }
  }

  lemma {:induction false} StartBelowKey(key: Path, next: Tree, path: Path)
    requires path <= key
    ensures IsStart(Ext(key, next), path, next, key)
  {
    forall q: Path ensures Lookup(Ext(key, next), key + q) == Lookup(next, q) {
      ExtLookup(key, next, q);
    }
  }

  lemma {:induction false} NothingOffKey(key: Path, next: Tree, path: Path)
    requires !(key <= path)
    ensures Lookup(Ext(key, next), path) == None
    ensures !(path <= key) ==> NothingBelow(Ext(key, next), path)
  {
  }
}
