/**
 Restoring a trie node by node (pkg/core/mpt/billet.go). A billet holds the part of a trie that is
 not complete yet; what is complete is collapsed to its hash. The state after any legal order of
 restores is a function of the set of restored positions.
 */
module MptBillet {
  import opened Wrappers
  import opened MptTree
  import opened MptNode
  import opened MptStore

  /** A node of a billet; a collapsed hash stands for a part that is completely restored. */
  datatype BNode =
    | EmptyB
    | LeafB(value: Value)
    | ExtB(key: Path, next: BNode)
    | BranchB(children: seq<BNode>)
    | HashB(hash: Hash, collapsed: bool)

  function ExpandB(n: BNode): Tree {
    match n
    case EmptyB => Nil
    case LeafB(v) => Leaf(v)
    case ExtB(key, next) => Ext(key, ExpandB(next))
    case BranchB(cs) => Branch(seq(|cs|, i requires 0 <= i < |cs| => ExpandB(cs[i])))
    case HashB(h, _) => h.tree
  }

  /** A node and where it sits. */
  datatype Pos = Pos(path: Path, tree: Tree)

  function ChildPath(at: Path, i: nat): Path {
    if i < LAST_CHILD then at + [i] else at
  }

  // ---- what is restored ----

  predicate AllDone(t: Tree, at: Path, done: set<Pos>) {
    match t
    case Nil => true
    case Leaf(_) => Pos(at, t) in done
    case Ext(key, next) => Pos(at, t) in done && AllDone(next, at + key, done)
    case Branch(kids) => Pos(at, t) in done && forall i :: 0 <= i < |kids| ==> AllDone(kids[i], ChildPath(at, i), done)
  }

  predicate NoneDone(t: Tree, at: Path, done: set<Pos>) {
    match t
    case Nil => true
    case Leaf(_) => Pos(at, t) !in done
    case Ext(key, next) => Pos(at, t) !in done && NoneDone(next, at + key, done)
    case Branch(kids) => Pos(at, t) !in done && forall i :: 0 <= i < |kids| ==> NoneDone(kids[i], ChildPath(at, i), done)
  }

  /** No node is restored before its parent. */
  predicate Closed(t: Tree, at: Path, done: set<Pos>) {
    if Pos(at, t) !in done then NoneDone(t, at, done)
    else
      match t
      case Nil => true
      case Leaf(_) => true
      case Ext(key, next) => Closed(next, at + key, done)
      case Branch(kids) => forall i :: 0 <= i < |kids| ==> Closed(kids[i], ChildPath(at, i), done)
  }

  /** The billet when these positions are restored. */
  function Shape(t: Tree, at: Path, done: set<Pos>): BNode {
    if t == Nil then EmptyB
    else if Pos(at, t) !in done then HashB(HashOf(t), false)
    else if AllDone(t, at, done) then HashB(HashOf(t), true)
    else
      match t
      case Leaf(v) => LeafB(v)
      case Ext(key, next) => ExtB(key, Shape(next, at + key, done))
      case Branch(kids) => BranchB(seq(|kids|, i requires 0 <= i < |kids| => Shape(kids[i], ChildPath(at, i), done)))
  }

  /** How often the tree `x` is restored in `t`. */
  ghost function DoneCount(t: Tree, at: Path, done: set<Pos>, x: Tree): nat
    decreases t, 1
  {
    (if t == x && t != Nil && Pos(at, t) in done then 1 else 0)
    + match t
      case Nil => 0
      case Leaf(_) => 0
      case Ext(key, next) => DoneCount(next, at + key, done, x)
      case Branch(kids) => DoneCountAll(kids, 0, at, done, x)
  }

  ghost function DoneCountAll(kids: seq<Tree>, i: nat, at: Path, done: set<Pos>, x: Tree): nat
    requires i <= |kids|
    decreases kids, 0, |kids| - i
  {
    if i == |kids| then 0
    else DoneCount(kids[i], ChildPath(at, i), done, x) + DoneCountAll(kids, i + 1, at, done, x)
  }

  /** `path` leads to the node `x` that is to be restored next: its parents are, it is not. */
  predicate Legal(t: Tree, at: Path, done: set<Pos>, path: Path, x: Tree) {
    && t != Nil
    && if path == [] && x == t then Pos(at, t) !in done
       else
        && Pos(at, t) in done
        && match t
          case Ext(key, next) => key <= path && Legal(next, at + key, done, path[|key|..], x)
          case Branch(kids) =>
            var (i, rest) := SplitPath(path);
            i < |kids| && Legal(kids[i], ChildPath(at, i), done, rest, x)
          case _ => false
  }

  // ---- positions elsewhere ----

  /** The position cannot be one of `t` at `at`. */
  predicate Elsewhere(t: Tree, at: Path, pos: Pos) {
    t.Nil? || !(at <= pos.path) || (t.Leaf? && pos != Pos(at, t))
  }

  lemma {:induction false} ElsewhereSame(t: Tree, at: Path, done: set<Pos>, pos: Pos)
    requires Canonical(t) && Elsewhere(t, at, pos)
    ensures AllDone(t, at, done + {pos}) == AllDone(t, at, done)
    ensures NoneDone(t, at, done + {pos}) == NoneDone(t, at, done)
    ensures Closed(t, at, done + {pos}) == Closed(t, at, done)
    ensures Shape(t, at, done + {pos}) == Shape(t, at, done)
  {
    match t
    case Nil =>
    case Leaf(_) =>
    case Ext(key, next) =>
      assert !(at + key <= pos.path) by { Longer(at, key, pos.path); }
      ElsewhereSame(next, at + key, done, pos);
    case Branch(kids) =>
      forall i | 0 <= i < |kids|
        ensures AllDone(kids[i], ChildPath(at, i), done + {pos}) == AllDone(kids[i], ChildPath(at, i), done)
        ensures NoneDone(kids[i], ChildPath(at, i), done + {pos}) == NoneDone(kids[i], ChildPath(at, i), done)
        ensures Closed(kids[i], ChildPath(at, i), done + {pos}) == Closed(kids[i], ChildPath(at, i), done)
        ensures Shape(kids[i], ChildPath(at, i), done + {pos}) == Shape(kids[i], ChildPath(at, i), done)
      {
        KidElsewhere(kids, at, pos, i);
        ElsewhereSame(kids[i], ChildPath(at, i), done, pos);
      }
      BranchSame(kids, at, done, pos);
  }

  lemma KidElsewhere(kids: seq<Tree>, at: Path, pos: Pos, i: nat)
    requires CanonicalKids(kids) && i < |kids| && !(at <= pos.path)
    ensures Elsewhere(kids[i], ChildPath(at, i), pos)
  {
    if i < LAST_CHILD { Longer(at, [i], pos.path); }
  }

  lemma BranchSame(kids: seq<Tree>, at: Path, done: set<Pos>, pos: Pos)
    requires !(at <= pos.path)
    requires forall i :: 0 <= i < |kids| ==>
      && AllDone(kids[i], ChildPath(at, i), done + {pos}) == AllDone(kids[i], ChildPath(at, i), done)
      && NoneDone(kids[i], ChildPath(at, i), done + {pos}) == NoneDone(kids[i], ChildPath(at, i), done)
      && Closed(kids[i], ChildPath(at, i), done + {pos}) == Closed(kids[i], ChildPath(at, i), done)
      && Shape(kids[i], ChildPath(at, i), done + {pos}) == Shape(kids[i], ChildPath(at, i), done)
    ensures AllDone(Branch(kids), at, done + {pos}) == AllDone(Branch(kids), at, done)
    ensures NoneDone(Branch(kids), at, done + {pos}) == NoneDone(Branch(kids), at, done)
    ensures Closed(Branch(kids), at, done + {pos}) == Closed(Branch(kids), at, done)
    ensures Shape(Branch(kids), at, done + {pos}) == Shape(Branch(kids), at, done)
  {
  }

  lemma Longer(at: Path, more: Path, path: Path)
    ensures at + more <= path ==> at <= path
  {
    if at + more <= path { assert at == (at + more)[..|at|] == path[..|at|]; }
  }

  // ---- one restore ----

  /** The siblings of the child that a path enters are not on the path. */
  lemma SiblingElsewhere(kids: seq<Tree>, at: Path, path: Path, x: Tree, j: nat)
    requires CanonicalKids(kids) && j < |kids| && j != SplitPath(path).0
    requires SplitPath(path).0 == LAST_CHILD ==> x == kids[LAST_CHILD]
    ensures Elsewhere(kids[j], ChildPath(at, j), Pos(at + path, x))
  {
    if path == [] {
      assert !(at + [j] <= at + path);
    } else if j < LAST_CHILD {
      assert (at + path)[|at|] == path[0] && (at + [j])[|at|] == j;
    } else {
      assert at + path != at;
    }
  }

  /** A legal path that ends at a branch leads to its value. */
  lemma LegalValue(kids: seq<Tree>, at: Path, done: set<Pos>, rest: Path, x: Tree)
    requires CanonicalKids(kids) && Legal(kids[LAST_CHILD], at, done, rest, x)
    ensures x == kids[LAST_CHILD] && rest == []
  {
  }

  lemma {:induction false} LegalNotDone(t: Tree, at: Path, done: set<Pos>, path: Path, x: Tree)
    requires Legal(t, at, done, path, x) && Canonical(t)
    ensures !AllDone(t, at, done)
  {
    if !(path == [] && x == t) {
      match t
      case Ext(key, next) => LegalNotDone(next, at + key, done, path[|key|..], x);
      case Branch(kids) =>
        var (i, rest) := SplitPath(path);
        LegalNotDone(kids[i], ChildPath(at, i), done, rest, x);
    }
  }

  /** What is done when nothing below is. */
  lemma {:induction false} NoneDoneShape(t: Tree, at: Path, done: set<Pos>, pos: Pos)
    requires NoneDone(t, at, done) && Elsewhere(t, at, pos) && Canonical(t)
    ensures Closed(t, at, done + {pos}) && Closed(t, at, done)
    ensures Shape(t, at, done + {pos}) == if t == Nil then EmptyB else HashB(HashOf(t), false)
    ensures t != Nil ==> !AllDone(t, at, done + {pos})
  {
    ElsewhereSame(t, at, done, pos);
  }

  /** The node itself, with its children by hash. */
  function Opened(t: Tree): BNode {
    match t
    case Nil => EmptyB
    case Leaf(v) => LeafB(v)
    case Ext(key, next) => ExtB(key, AsChildB(next))
    case Branch(kids) => BranchB(seq(|kids|, i requires 0 <= i < |kids| => AsChildB(kids[i])))
  }

  function AsChildB(t: Tree): BNode {
    if t == Nil then EmptyB else HashB(HashOf(t), false)
  }

  lemma ExpandOpened(t: Tree)
    ensures ExpandB(Opened(t)) == t
  {
    match t
    case Nil =>
    case Leaf(_) =>
    case Ext(_, _) =>
    case Branch(kids) => assert ExpandB(Opened(t)).kids == kids;
  }

  lemma {:induction false} ExpandShape(t: Tree, at: Path, done: set<Pos>)
    ensures ExpandB(Shape(t, at, done)) == t
  {
    var n := Shape(t, at, done);
    match t
    case Nil =>
    case Leaf(_) =>
    case Ext(key, next) => ExpandShape(next, at + key, done);
    case Branch(kids) =>
      if n.BranchB? {
        forall i | 0 <= i < |kids| ensures ExpandB(n.children[i]) == kids[i] {
          ExpandShape(kids[i], ChildPath(at, i), done);
        }
        assert ExpandB(n).kids == kids;
      }
  }

  /** A restored node is a collapsed leaf, or open over children that are still to be restored. */
  lemma {:induction false} RestoredShape(t: Tree, at: Path, done: set<Pos>)
    requires t != Nil && NoneDone(t, at, done) && Canonical(t)
    ensures Shape(t, at, done + {Pos(at, t)}) == if t.Leaf? then HashB(HashOf(t), true) else Opened(t)
    ensures Closed(t, at, done + {Pos(at, t)})
  {
    var pos := Pos(at, t);
    match t
    case Leaf(_) =>
    case Ext(key, next) =>
      assert !(at + key <= at);
      NoneDoneShape(next, at + key, done, pos);
    case Branch(kids) =>
      forall i | 0 <= i < |kids|
        ensures Closed(kids[i], ChildPath(at, i), done + {pos})
        ensures Shape(kids[i], ChildPath(at, i), done + {pos}) == AsChildB(kids[i])
        ensures kids[i] != Nil ==> !AllDone(kids[i], ChildPath(at, i), done + {pos})
      {
        assert i < LAST_CHILD ==> !(at + [i] <= at);
        NoneDoneShape(kids[i], ChildPath(at, i), done, pos);
      }
      assert Shape(t, at, done + {pos}).children == Opened(t).children;
  }

  /** The restored positions stay closed under parents. */
  lemma {:induction false} ClosedStep(t: Tree, at: Path, done: set<Pos>, path: Path, x: Tree)
    requires Legal(t, at, done, path, x) && Closed(t, at, done) && Canonical(t)
    ensures Closed(t, at, done + {Pos(at + path, x)})
  {
    var pos := Pos(at + path, x);
    if path == [] && x == t {
      assert at + path == at;
      RestoredShape(t, at, done);
    } else {
      match t
      case Ext(key, next) =>
        assert (at + key) + path[|key|..] == at + path;
        ClosedStep(next, at + key, done, path[|key|..], x);
      case Branch(kids) =>
        var (i, rest) := SplitPath(path);
        assert ChildPath(at, i) + rest == at + path;
        ClosedStep(kids[i], ChildPath(at, i), done, rest, x);
        if i == LAST_CHILD { LegalValue(kids, at, done, rest, x); }
        forall j | 0 <= j < |kids| ensures Closed(kids[j], ChildPath(at, j), done + {pos}) {
          if j != i {
            SiblingElsewhere(kids, at, path, x, j);
            ElsewhereSame(kids[j], ChildPath(at, j), done, pos);
          }
        }
    }
  }

  // ---- counting ----

  lemma {:induction false} CountElsewhere(t: Tree, at: Path, done: set<Pos>, pos: Pos, y: Tree)
    requires Canonical(t) && Elsewhere(t, at, pos)
    ensures DoneCount(t, at, done + {pos}, y) == DoneCount(t, at, done, y)
    decreases t, 1
  {
    match t
    case Nil =>
    case Leaf(_) =>
    case Ext(key, next) =>
      Longer(at, key, pos.path);
      CountElsewhere(next, at + key, done, pos, y);
    case Branch(kids) =>
      forall i | 0 <= i < |kids| ensures Elsewhere(kids[i], ChildPath(at, i), pos) {
        if i < LAST_CHILD { Longer(at, [i], pos.path); }
      }
      CountAllElsewhere(kids, 0, at, done, pos, y);
  }

  lemma {:induction false} CountAllElsewhere(kids: seq<Tree>, i: nat, at: Path, done: set<Pos>, pos: Pos, y: Tree)
    requires CanonicalKids(kids) && i <= |kids|
    requires forall j :: i <= j < |kids| ==> Elsewhere(kids[j], ChildPath(at, j), pos)
    ensures DoneCountAll(kids, i, at, done + {pos}, y) == DoneCountAll(kids, i, at, done, y)
    decreases kids, 0, |kids| - i
  {
    if i < |kids| {
      CountElsewhere(kids[i], ChildPath(at, i), done, pos, y);
      CountAllElsewhere(kids, i + 1, at, done, pos, y);
    }
  }

  /** One restore adds one to the count of its node, and to no other. */
  lemma {:induction false} CountStep(t: Tree, at: Path, done: set<Pos>, path: Path, x: Tree, y: Tree)
    requires Legal(t, at, done, path, x) && Canonical(t)
    ensures DoneCount(t, at, done + {Pos(at + path, x)}, y) == DoneCount(t, at, done, y) + if y == x then 1 else 0
    decreases t, 1
  {
    var pos := Pos(at + path, x);
    if path == [] && x == t {
      assert at + path == at;
      match t
      case Leaf(_) =>
      case Ext(key, next) =>
        assert !(at + key <= at);
        CountElsewhere(next, at + key, done, pos, y);
      case Branch(kids) =>
        forall i | 0 <= i < |kids| ensures Elsewhere(kids[i], ChildPath(at, i), pos) {
          assert i < LAST_CHILD ==> !(at + [i] <= at);
        }
        CountAllElsewhere(kids, 0, at, done, pos, y);
    } else {
      NotHere(t, at, done, path, x);
      match t
      case Ext(key, next) =>
        assert (at + key) + path[|key|..] == at + path;
        CountStep(next, at + key, done, path[|key|..], x, y);
      case Branch(kids) =>
        CountStepAll(kids, 0, at, done, path, x, y);
    }
  }

  /** Below the node at `at` is not the node at `at`. */
  lemma NotHere(t: Tree, at: Path, done: set<Pos>, path: Path, x: Tree)
    requires Legal(t, at, done, path, x) && Canonical(t) && !(path == [] && x == t)
    ensures Pos(at + path, x) != Pos(at, t)
  {
    if path == [] {
    } else {
      assert |at + path| > |at|;
    }
  }

  lemma {:induction false} CountStepAll(kids: seq<Tree>, i: nat, at: Path, done: set<Pos>, path: Path, x: Tree, y: Tree)
    requires CanonicalKids(kids) && i <= |kids|
    requires Legal(kids[SplitPath(path).0], ChildPath(at, SplitPath(path).0), done, SplitPath(path).1, x)
    ensures DoneCountAll(kids, i, at, done + {Pos(at + path, x)}, y) ==
      DoneCountAll(kids, i, at, done, y) + if y == x && i <= SplitPath(path).0 then 1 else 0
    decreases kids, 0, |kids| - i
  {
    if i < |kids| {
      var (c, rest) := SplitPath(path);
      CountStepAll(kids, i + 1, at, done, path, x, y);
      if c == LAST_CHILD { LegalValue(kids, at, done, rest, x); }
      if i == c {
        assert ChildPath(at, i) + rest == at + path;
        CountStep(kids[i], ChildPath(at, i), done, rest, x, y);
      } else {
        SiblingElsewhere(kids, at, path, x, i);
        CountElsewhere(kids[i], ChildPath(at, i), done, Pos(at + path, x), y);
      }
    }
  }

  /** When everything is restored, a tree is counted at every position that it has. */
  lemma {:induction false} CountDone(t: Tree, at: Path, done: set<Pos>, y: Tree)
    requires AllDone(t, at, done)
    ensures DoneCount(t, at, done, y) == Occ(t, y)
    decreases t, 1
  {
    match t
    case Nil =>
    case Leaf(_) =>
    case Ext(key, next) => CountDone(next, at + key, done, y);
    case Branch(kids) =>
      CountDoneAll(kids, 0, at, done, y);
      assert kids[0..] == kids;
  }

  lemma {:induction false} CountDoneAll(kids: seq<Tree>, i: nat, at: Path, done: set<Pos>, y: Tree)
    requires i <= |kids| && forall j :: i <= j < |kids| ==> AllDone(kids[j], ChildPath(at, j), done)
    ensures DoneCountAll(kids, i, at, done, y) == OccAll(kids[i..], y)
    decreases kids, 0, |kids| - i
  {
    if i < |kids| {
      CountDone(kids[i], ChildPath(at, i), done, y);
      CountDoneAll(kids, i + 1, at, done, y);
      assert kids[i..][1..] == kids[i + 1..];
    }
  }

  // ---- the billet ----

  /** RestoreFailed is returned; Bug stands for a panic. */
  datatype RestoreError = RestoreFailed | Bug

  /** The store has an item of this node which is not in use any more. */
  ghost predicate Inactive(store: Store, y: Tree) {
    HashOf(y) in store && store[HashOf(y)].Counted? && !store[HashOf(y)].active
  }

  /** One more reference to `x`, if it is not there as an inactive item, and no other change. */
  ghost predicate CountedOnce(store: Store, store': Store, mode: Mode, x: Tree) {
    && ItemsOk(store', mode)
    && (forall h :: h in store' <==> h in store || h == HashOf(x))
    && (forall h :: h in store && h != HashOf(x) ==> store'[h] == store[h])
    && (forall y: Tree :: Inactive(store', y) <==> Inactive(store, y))
    && (mode.RC() ==> forall y: Tree :: CountOf(store', y) == CountOf(store, y) + if y == x && !Inactive(store, y) then 1 else 0)
  }

  /** The node is stored once more. */
  function Incremented(store: Store, mode: Mode, x: Tree): Store {
    var h := HashOf(x);
    if !mode.RC() then store[h := Plain(Shallow(x))]
    else if h in store && store[h].Counted? then store[h := store[h].(tail := store[h].tail + 1)]
    else store[h := Counted(Shallow(x), true, 1)]
  }

  predicate IsCollapsed(n: BNode) {
    n.EmptyB? || (n.HashB? && n.collapsed)
  }

  function TryCollapseExtension(n: BNode): BNode
    requires n.ExtB?
  {
    if n.next.HashB? && n.next.collapsed then HashB(HashOf(ExpandB(n)), true) else n
  }

  function TryCollapseBranch(n: BNode): BNode
    requires n.BranchB?
  {
    if forall i :: 0 <= i < |n.children| ==> IsCollapsed(n.children[i]) then HashB(HashOf(ExpandB(n)), true) else n
  }

  lemma ExpandBUpdate(cs: seq<BNode>, i: nat, c: BNode)
    requires i < |cs| && ExpandB(c) == ExpandB(cs[i])
    ensures ExpandB(BranchB(cs[i := c])) == ExpandB(BranchB(cs))
  {
    assert ExpandB(BranchB(cs[i := c])).kids == ExpandB(BranchB(cs)).kids;
  }

  /** `curr` is the billet of `t` with `done` restored, and `val` the node to be restored at `path`. */
  ghost predicate Due(curr: BNode, val: BNode, t: Tree, at: Path, done: set<Pos>, path: Path, x: Tree) {
    && curr == Shape(t, at, done) && val == Opened(x)
    && Canonical(t) && Closed(t, at, done) && Legal(t, at, done, path, x)
  }

  /** The child that the path enters is due as well. */
  lemma DueChild(curr: BNode, val: BNode, t: Tree, at: Path, done: set<Pos>, path: Path, x: Tree)
    requires Due(curr, val, t, at, done, path, x) && Pos(at, t) in done
    ensures !(path == [] && x == t) && (curr.ExtB? || curr.BranchB?)
    ensures curr.ExtB? ==>
      && curr.key <= path && path != []
      && Due(curr.next, val, t.next, at + curr.key, done, path[|curr.key|..], x)
    ensures curr.BranchB? ==>
      && |curr.children| == CHILDREN_COUNT
      && var (i, rest) := SplitPath(path); Due(curr.children[i], val, t.kids[i], ChildPath(at, i), done, rest, x)
  {
    LegalNotDone(t, at, done, path, x);
  }

  /** A hash node that is met on a legal path is the node that is due. */
  lemma DueHash(curr: BNode, val: BNode, t: Tree, at: Path, done: set<Pos>, path: Path, x: Tree)
    requires Due(curr, val, t, at, done, path, x) && Pos(at, t) !in done
    ensures path == [] && x == t && curr == HashB(HashOf(t), false) && ExpandB(val) == t && NoneDone(t, at, done)
    ensures Shape(t, at, done + {Pos(at, t)}) == if val.LeafB? then HashB(HashOf(t), true) else val
  {
    ExpandOpened(t);
    RestoredShape(t, at, done);
  }

  lemma DueExtDone(curr: BNode, val: BNode, t: Tree, at: Path, done: set<Pos>, path: Path, x: Tree, next: BNode)
    requires Due(curr, val, t, at, done, path, x) && curr.ExtB? && Pos(at, t) in done && t.Ext? && curr.key == t.key <= path
    requires next == Shape(t.next, at + t.key, done + {Pos(at + t.key + path[|t.key|..], x)})
    ensures TryCollapseExtension(ExtB(curr.key, next)) == Shape(t, at, done + {Pos(at + path, x)})
  {
    assert at + t.key + path[|t.key|..] == at + path;
    ExpandShape(t.next, at + t.key, done + {Pos(at + path, x)});
    NotNilShape(t.next, at + t.key, done + {Pos(at + path, x)});
  }

  /** A part of a billet is collapsed exactly when it is completely restored. */
  lemma NotNilShape(t: Tree, at: Path, done: set<Pos>)
    requires Canonical(t)
    ensures IsCollapsed(Shape(t, at, done)) <==> AllDone(t, at, done)
    ensures Shape(t, at, done).EmptyB? <==> t == Nil
  {
    if t != Nil && Pos(at, t) !in done { assert !AllDone(t, at, done); }
  }

  lemma KidDone(t: Tree, at: Path, done: set<Pos>, path: Path, x: Tree, j: nat)
    requires t.Branch? && Canonical(t) && Pos(at, t) in done && Legal(t, at, done, path, x) && j < CHILDREN_COUNT
    ensures var shape := Shape(t.kids[j], ChildPath(at, j), done + {Pos(at + path, x)});
      && (j != SplitPath(path).0 ==> shape == Shape(t.kids[j], ChildPath(at, j), done))
      && ExpandB(shape) == t.kids[j]
      && (IsCollapsed(shape) <==> AllDone(t.kids[j], ChildPath(at, j), done + {Pos(at + path, x)}))
  {
    var done' := done + {Pos(at + path, x)};
    if j != SplitPath(path).0 {
      SiblingElsewhere(t.kids, at, path, x, j);
      ElsewhereSame(t.kids[j], ChildPath(at, j), done, Pos(at + path, x));
    }
    ExpandShape(t.kids[j], ChildPath(at, j), done');
    NotNilShape(t.kids[j], ChildPath(at, j), done');
  }

  lemma DueBranchDone(curr: BNode, val: BNode, t: Tree, at: Path, done: set<Pos>, path: Path, x: Tree, kid: BNode)
    requires Due(curr, val, t, at, done, path, x) && curr.BranchB? && t.Branch? && Pos(at, t) in done
    requires var (i, rest) := SplitPath(path);
      Legal(t.kids[i], ChildPath(at, i), done, rest, x) &&
      kid == Shape(t.kids[i], ChildPath(at, i), done + {Pos(ChildPath(at, i) + rest, x)})
    ensures |curr.children| == CHILDREN_COUNT
    ensures TryCollapseBranch(BranchB(curr.children[SplitPath(path).0 := kid])) == Shape(t, at, done + {Pos(at + path, x)})
  {
    var (i, rest) := SplitPath(path);
    var done' := done + {Pos(at + path, x)};
    assert ChildPath(at, i) + rest == at + path;
    if i == LAST_CHILD { LegalValue(t.kids, at, done, rest, x); }
    var cs := curr.children[i := kid];
    forall j | 0 <= j < CHILDREN_COUNT
      ensures cs[j] == Shape(t.kids[j], ChildPath(at, j), done') && ExpandB(cs[j]) == t.kids[j]
      ensures IsCollapsed(cs[j]) <==> AllDone(t.kids[j], ChildPath(at, j), done')
    {
      KidDone(t, at, done, path, x, j);
    }
    hide IsCollapsed, Canonical, Closed;
    assert ExpandB(BranchB(cs)).kids == t.kids;
    if !AllDone(t, at, done') { assert Shape(t, at, done').children == cs; }
  }

  class Billet {
    const mode: Mode
    var root: BNode
    var store: Store
    /** Temporary contract storage. */
    var temp: map<seq<Byte>, Value>

    constructor (root: Hash, mode: Mode, store: Store)
      ensures this.mode == mode && this.root == HashB(root, false) && this.store == store && temp == map[]
    {
      this.mode, this.root, this.store, temp := mode, HashB(root, false), store, map[];
    }

    /**
     Stores a node once more: its count goes up by one and that of no other node changes, except that an
     item which is no longer active stays so and has the index in its place changed.
     */
    method IncrementRefAndStore(x: Tree)
      modifies this`store
      ensures store == Incremented(old(store), mode, x)
      ensures x != Nil && ItemsOk(old(store), mode) ==> CountedOnce(old(store), store, mode, x)
    {
      if x != Nil && ItemsOk(store, mode) { IncrementedCounts(store, mode, x); }
      var h := HashOf(x);
      if mode.RC() {
        if h in store && store[h].Counted? {
          store := store[h := store[h].(tail := store[h].tail + 1)];
        } else {
          store := store[h := Counted(Shallow(x), true, 1)];
        }
      } else {
        store := store[h := Plain(Shallow(x))];
      }
    }

    /** Puts a node in its place. Whatever is put, the tree that the billet stands for does not change. */
    method PutIntoNode(curr: BNode, path: Path, val: BNode, ghost t: Tree, ghost at: Path, ghost done: set<Pos>, ghost x: Tree)
      returns (res: Result<BNode, RestoreError>)
      modifies this`store
      ensures res.Err? ==> store == old(store)
      ensures res.Ok? ==> ExpandB(res.value) == ExpandB(curr) && store == Incremented(old(store), mode, ExpandB(val))
      ensures Due(curr, val, t, at, done, path, x) ==> res == Ok(Shape(t, at, done + {Pos(at + path, x)}))
      decreases curr
    {
      ghost var due := Due(curr, val, t, at, done, path, x);
      if due {
        if Pos(at, t) in done { DueChild(curr, val, t, at, done, path, x); } else { DueHash(curr, val, t, at, done, path, x); }
      }
      match curr
      case LeafB(_) =>
        if path != [] || ExpandB(curr) != ExpandB(val) {
          return Err(RestoreFailed);
        }
        return Err(Bug);
      case BranchB(cs) =>
        if path == [] && ExpandB(curr) == ExpandB(val) {
          return Err(Bug);
        }
        res := PutIntoBranch(curr, path, val, t, at, done, x);
      case ExtB(key, next) =>
        if path == [] {
          return Err(if ExpandB(curr) != ExpandB(val) then RestoreFailed else Bug);
        }
        if !(key <= path) {
          return Err(RestoreFailed);
        }
        var r := PutIntoNode(next, path[|key|..], val, if t.Ext? then t.next else Nil, at + key, done, x);
        if r.Err? {
          return r;
        }
        if due { DueExtDone(curr, val, t, at, done, path, x, r.value); }
        return Ok(TryCollapseExtension(ExtB(key, r.value)));
      case HashB(h, collapsed) =>
        if path != [] || ExpandB(val) != h.tree {
          return Err(RestoreFailed);
        }
        if collapsed {
          return Err(Bug);
        }
        if due { assert at + path == at; }
        IncrementRefAndStore(ExpandB(val));
        return Ok(if val.LeafB? then HashB(h, true) else val);
      case EmptyB =>
        return Err(RestoreFailed);
    }

    method PutIntoBranch(curr: BNode, path: Path, val: BNode, ghost t: Tree, ghost at: Path, ghost done: set<Pos>, ghost x: Tree)
      returns (res: Result<BNode, RestoreError>)
      requires curr.BranchB? && !(path == [] && ExpandB(curr) == ExpandB(val))
      modifies this`store
      ensures res.Err? ==> store == old(store)
      ensures res.Ok? ==> ExpandB(res.value) == ExpandB(curr) && store == Incremented(old(store), mode, ExpandB(val))
      ensures Due(curr, val, t, at, done, path, x) ==> res == Ok(Shape(t, at, done + {Pos(at + path, x)}))
      decreases curr, 0
    {
      ghost var due := Due(curr, val, t, at, done, path, x);
      var (i, rest) := SplitPath(path);
      if due {
        assert Pos(at, t) in done;
        DueChild(curr, val, t, at, done, path, x);
      }
      if i >= |curr.children| {
        return Err(Bug);
      }
      var r := PutIntoNode(curr.children[i], rest, val, if t.Branch? && i < |t.kids| then t.kids[i] else Nil, ChildPath(at, i), done, x);
      if r.Err? {
        return r;
      }
      ExpandBUpdate(curr.children, i, r.value);
      if due { DueBranchDone(curr, val, t, at, done, path, x, r.value); }
      return Ok(TryCollapseBranch(BranchB(curr.children[i := r.value])));
    }

    /**
     Restores the node at a path. Whatever is offered, an error changes nothing, and the root hash
     never changes; a node that is due is taken.
     */
    method RestoreHashNode(path: Path, node: BNode, ghost t: Tree, ghost done: set<Pos>, ghost x: Tree) returns (err: Option<RestoreError>)
      modifies this
      ensures ExpandB(root) == old(ExpandB(root))
      ensures err.Some? ==> root == old(root) && store == old(store) && temp == old(temp)
      ensures err.None? ==> store == Incremented(old(store), mode, ExpandB(node))
      ensures err.None? ==> temp == if node.LeafB? then old(temp)[FromNibbles(path) := node.value] else old(temp)
      ensures Due(old(root), node, t, [], done, path, x) ==> err == None && root == Shape(t, [], done + {Pos(path, x)})
    {
      if Due(root, node, t, [], done, path, x) { LegalNotNil(t, [], done, path, x); }
      if node.HashB? || node.EmptyB? {
        return Some(RestoreFailed);
      }
      assert [] + path == path;
      var r := PutIntoNode(root, path, node, t, [], done, x);
      if r.Err? {
        return Some(r.error);
      }
      root := r.value;
      if node.LeafB? {
        temp := temp[FromNibbles(path) := node.value];
      }
      err := None;
    }
  }

  // ---- a whole restore ----

  function PosSet(ps: seq<Pos>): set<Pos> {
    set p | p in ps
  }

  /** Every node once, none before its parent, and in the end all of them. */
  ghost predicate RestoreOrder(t: Tree, ps: seq<Pos>) {
    && (forall k :: 0 <= k < |ps| ==> Legal(t, [], PosSet(ps[..k]), ps[k].path, ps[k].tree))
    && AllDone(t, [], PosSet(ps))
  }

  /** What these restores have added to the store: a reference for every one, but none to an inactive item. */
  ghost predicate Stored(store0: Store, store: Store, mode: Mode, t: Tree, done: set<Pos>) {
    && ItemsOk(store, mode)
    && (forall h :: h in store0 ==> h in store)
    && (forall y: Tree :: Inactive(store, y) <==> Inactive(store0, y))
    && (forall y: Tree :: DoneCount(t, [], done, y) > 0 ==> HashOf(y) in store)
    && (mode.RC() ==> forall y: Tree ::
        CountOf(store, y) == CountOf(store0, y) + if Inactive(store0, y) then 0 else DoneCount(t, [], done, y))
  }

  lemma {:induction false} StoredStep(store0: Store, store: Store, mode: Mode, t: Tree, done: set<Pos>, path: Path, x: Tree)
    requires Stored(store0, store, mode, t, done) && Legal(t, [], done, path, x) && Canonical(t)
    ensures Stored(store0, Incremented(store, mode, x), mode, t, done + {Pos(path, x)})
  {
    LegalNotNil(t, [], done, path, x);
    assert [] + path == path;
    IncrementedCounts(store, mode, x);
    forall y: Tree ensures DoneCount(t, [], done + {Pos(path, x)}, y) == DoneCount(t, [], done, y) + if y == x then 1 else 0 {
      CountStep(t, [], done, path, x, y);
    }
  }

  lemma IncrementedCounts(store: Store, mode: Mode, x: Tree)
    requires ItemsOk(store, mode) && x != Nil
    ensures CountedOnce(store, Incremented(store, mode, x), mode, x)
  {
  }

  lemma {:induction false} LegalNotNil(t: Tree, at: Path, done: set<Pos>, path: Path, x: Tree)
    requires Legal(t, at, done, path, x)
    ensures x != Nil
  {
    if !(path == [] && x == t) {
      match t
      case Ext(key, next) => LegalNotNil(next, at + key, done, path[|key|..], x);
      case Branch(kids) => LegalNotNil(kids[SplitPath(path).0], ChildPath(at, SplitPath(path).0), done, SplitPath(path).1, x);
    }
  }

  /** A leaf that is due holds the value of its path. */
  lemma {:induction false} LegalLookup(t: Tree, at: Path, done: set<Pos>, path: Path, v: Value)
    requires Legal(t, at, done, path, Leaf(v)) && Canonical(t)
    ensures Lookup(t, path) == Some(v)
  {
    if !(path == [] && t == Leaf(v)) {
      match t
      case Ext(key, next) => LegalLookup(next, at + key, done, path[|key|..], v);
      case Branch(kids) =>
        LegalLookup(kids[SplitPath(path).0], ChildPath(at, SplitPath(path).0), done, SplitPath(path).1, v);
    }
  }

  /** When all is restored, the leaf of every path is. */
  lemma {:induction false} DoneLookup(t: Tree, at: Path, done: set<Pos>, path: Path)
    requires AllDone(t, at, done) && Lookup(t, path).Some? && Canonical(t)
    ensures Pos(at + path, Leaf(Lookup(t, path).value)) in done
  {
    match t
    case Leaf(_) => assert at + path == at;
    case Ext(key, next) =>
      assert (at + key) + path[|key|..] == at + path;
      DoneLookup(next, at + key, done, path[|key|..]);
    case Branch(kids) =>
      var (i, rest) := SplitPath(path);
      assert ChildPath(at, i) + rest == at + path;
      DoneLookup(kids[i], ChildPath(at, i), done, rest);
  }

  ghost predicate TempOk(temp: map<seq<Byte>, Value>, t: Tree, done: set<Pos>) {
    && (forall k :: k in temp ==> Lookup(t, ToNibbles(k)) == Some(temp[k]))
    && (forall p :: p in done && p.tree.Leaf? ==> FromNibbles(p.path) in temp)
  }

  /** The temporary storage holds exactly the contents of the trie. */
  ghost predicate SameContents(temp: map<seq<Byte>, Value>, t: Tree) {
    forall k: seq<Byte> :: (if k in temp then Some(temp[k]) else None) == Lookup(t, ToNibbles(k))
  }

  lemma TempDone(temp: map<seq<Byte>, Value>, t: Tree, done: set<Pos>)
    requires TempOk(temp, t, done) && AllDone(t, [], done) && Canonical(t)
    ensures SameContents(temp, t)
  {
    forall k: seq<Byte> ensures (if k in temp then Some(temp[k]) else None) == Lookup(t, ToNibbles(k)) {
      var p := ToNibbles(k);
      if Lookup(t, p).Some? {
        DoneLookup(t, [], done, p);
        assert [] + p == p;
        assert Pos(p, Leaf(Lookup(t, p).value)) in done;
        NibblesRoundTrip(k, p);
      }
    }
  }

  /** What a complete restore leaves: a reference for every position, but none to an item that was inactive. */
  ghost predicate Restocked(store0: Store, store: Store, mode: Mode, t: Tree) {
    && ItemsOk(store, mode)
    && (forall h :: h in store0 ==> h in store)
    && (forall y: Tree :: Inactive(store, y) <==> Inactive(store0, y))
    && (forall y: Tree :: Occ(t, y) > 0 ==> HashOf(y) in store)
    && (mode.RC() ==> forall y: Tree :: CountOf(store, y) == CountOf(store0, y) + if Inactive(store0, y) then 0 else Occ(t, y))
  }

  /**
   Restoring all nodes of a trie over any store, in any order that puts parents first: no step fails, and
   in the end the billet is collapsed to the root hash, the store has a reference more for every position,
   and the temporary storage holds the contents of the trie. Over an empty store it is as if the trie had
   been flushed. The trie can be read exactly if none of its nodes was there as an inactive item.
   */
  method RestoreAll(t: Tree, ps: seq<Pos>, mode: Mode, store0: Store) returns (b: Billet)
    requires Canonical(t) && t != Nil && EvenKeys(t) && RestoreOrder(t, ps) && ItemsOk(store0, mode)
    ensures b.root == HashB(HashOf(t), true) && b.mode == mode && SameContents(b.temp, t)
    ensures Restocked(store0, b.store, mode, t)
    ensures store0 == map[] ==> StoreMatches(b.store, mode, t)
    ensures Covered(b.store, mode, t) <==> forall y: Tree :: Occ(t, y) > 0 ==> !Inactive(store0, y)
  {
    b := new Billet(HashOf(t), mode, store0);
    Begun(store0, mode, t, ps);
    var k := 0;
    while k < |ps|
      invariant 0 <= k <= |ps| && b.mode == mode && Restored(store0, b.root, b.store, mode, b.temp, t, PosSet(ps[..k]))
    {
      NextPos(ps, k);
      Restore(b, store0, t, PosSet(ps[..k]), ps[k]);
      k := k + 1;
    }
    assert ps[..k] == ps;
    Finished(store0, b.root, b.store, mode, b.temp, t, PosSet(ps));
    Readable(store0, b.store, mode, t);
  }

  lemma {:induction false} Readable(store0: Store, store: Store, mode: Mode, t: Tree)
    requires Restocked(store0, store, mode, t)
    ensures Covered(store, mode, t) <==> forall y: Tree :: Occ(t, y) > 0 ==> !Inactive(store0, y)
  {
    CoveredIffAvail(store, mode, t);
  }

  lemma NextPos(ps: seq<Pos>, k: nat)
    requires k < |ps|
    ensures PosSet(ps[..k + 1]) == PosSet(ps[..k]) + {ps[k]}
  {
  }

  /** The billet and its stores after these restores. */
  ghost predicate IsRestored(store0: Store, root: BNode, store: Store, mode: Mode, temp: map<seq<Byte>, Value>, t: Tree, done: set<Pos>) {
    root == Shape(t, [], done) && Closed(t, [], done) && Stored(store0, store, mode, t, done) && TempOk(temp, t, done)
  }

  /** The same, kept out of sight of the loop that only hands it on. */
  ghost predicate Restored(store0: Store, root: BNode, store: Store, mode: Mode, temp: map<seq<Byte>, Value>, t: Tree, done: set<Pos>) {
    forall n: BNode {:trigger Mention(n)} :: n == root ==> IsRestored(store0, n, store, mode, temp, t, done)
  }

  lemma Begun(store0: Store, mode: Mode, t: Tree, ps: seq<Pos>)
    requires t != Nil && ItemsOk(store0, mode)
    ensures Restored(store0, HashB(HashOf(t), false), store0, mode, map[], t, PosSet(ps[..0]))
  {
    StartShape(t, ps);
    forall y: Tree ensures DoneCount(t, [], {}, y) == 0 {
      NothingCounted(t, [], y);
    }
    assert IsRestored(store0, HashB(HashOf(t), false), store0, mode, map[], t, PosSet(ps[..0]));
  }

  lemma Finished(store0: Store, root: BNode, store: Store, mode: Mode, temp: map<seq<Byte>, Value>, t: Tree, done: set<Pos>)
    requires Restored(store0, root, store, mode, temp, t, done) && AllDone(t, [], done) && Canonical(t) && t != Nil
    ensures root == HashB(HashOf(t), true) && Restocked(store0, store, mode, t) && SameContents(temp, t)
    ensures store0 == map[] ==> StoreMatches(store, mode, t)
  {
    assert Mention(root);
    forall y: Tree ensures DoneCount(t, [], done, y) == Occ(t, y) {
      CountDone(t, [], done, y);
    }
    TempDone(temp, t, done);
  }

  method Restore(b: Billet, ghost store0: Store, t: Tree, ghost done: set<Pos>, p: Pos)
    requires Canonical(t) && EvenKeys(t) && Legal(t, [], done, p.path, p.tree)
    requires Restored(store0, b.root, b.store, b.mode, b.temp, t, done)
    modifies b
    ensures Restored(store0, b.root, b.store, b.mode, b.temp, t, done + {p})
  {
    assert Mention(b.root);
    StoredStep(store0, b.store, b.mode, t, done, p.path, p.tree);
    ClosedStep(t, [], done, p.path, p.tree);
    assert [] + p.path == p.path;
    ExpandOpened(p.tree);
    TempStep(b.temp, t, done, p);
    LegalNotNil(t, [], done, p.path, p.tree);
    var err := b.RestoreHashNode(p.path, Opened(p.tree), t, done, p.tree);
    assert IsRestored(store0, b.root, b.store, b.mode, b.temp, t, done + {p});
  }

  lemma TempStep(temp: map<seq<Byte>, Value>, t: Tree, done: set<Pos>, p: Pos)
    requires TempOk(temp, t, done) && EvenKeys(t) && Canonical(t) && Legal(t, [], done, p.path, p.tree)
    ensures TempOk(if p.tree.Leaf? then temp[FromNibbles(p.path) := p.tree.value] else temp, t, done + {p})
  {
    if p.tree.Leaf? {
      LegalLookup(t, [], done, p.path, p.tree.value);
      NibblesRoundTrip([], p.path);
      TempAdd(temp, t, done, FromNibbles(p.path), p);
    }
  }

  lemma TempAdd(temp: map<seq<Byte>, Value>, t: Tree, done: set<Pos>, k: seq<Byte>, p: Pos)
    requires TempOk(temp, t, done) && p.tree.Leaf? && k == FromNibbles(p.path)
    requires Lookup(t, ToNibbles(k)) == Some(p.tree.value)
    ensures TempOk(temp[k := p.tree.value], t, done + {p})
  {
  }

  lemma StartShape(t: Tree, ps: seq<Pos>)
    requires t != Nil
    ensures PosSet(ps[..0]) == {} && Shape(t, [], {}) == HashB(HashOf(t), false) && Closed(t, [], {})
  {
    NothingDone(t, []);
  }

  lemma {:induction false} NothingDone(t: Tree, at: Path)
    ensures NoneDone(t, at, {})
  {
    match t
    case Nil =>
    case Leaf(_) =>
    case Ext(key, next) => NothingDone(next, at + key);
    case Branch(kids) =>
      forall i | 0 <= i < |kids| ensures NoneDone(kids[i], ChildPath(at, i), {}) {
        NothingDone(kids[i], ChildPath(at, i));
      }
  }

  lemma {:induction false} NothingCounted(t: Tree, at: Path, y: Tree)
    ensures DoneCount(t, at, {}, y) == 0
    decreases t, 1
  {
    match t
    case Nil =>
    case Leaf(_) =>
    case Ext(key, next) => NothingCounted(next, at + key, y);
    case Branch(kids) => NothingCountedAll(kids, 0, at, y);
  }

  lemma {:induction false} NothingCountedAll(kids: seq<Tree>, i: nat, at: Path, y: Tree)
    requires i <= |kids|
    ensures DoneCountAll(kids, i, at, {}, y) == 0
    decreases kids, 0, |kids| - i
  {
    if i < |kids| {
      NothingCounted(kids[i], ChildPath(at, i), y);
      NothingCountedAll(kids, i + 1, at, y);
    }
  }
}
