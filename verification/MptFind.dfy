/**
 Prefix search (pkg/core/mpt/trie.go, Find, and the traversal of pkg/core/mpt/billet.go): which
 entries a traversal meets, and that a search returns exactly those below the prefix that follow
 the given start.
 */
module MptFind {
  import opened Wrappers
  import opened MptTree
  import opened MptNode
  import opened MptUpdate
  import opened MptStore
  import opened MptBatch
  import opened MptTrie
  import opened MptKeys
  import Storage

  datatype Entry = Entry(path: Path, value: Value)

  /** The entries of `t`, which sits at `path`, from `from` on, in the order of the traversal. */
  function Visit(t: Tree, path: Path, from: Path): seq<Entry>
    decreases t, 1
  {
    match t
    case Nil => []
    case Leaf(v) => if from == [] then [Entry(path, v)] else []
    case Ext(key, next) =>
      if from != [] && key <= from then Visit(next, path + key, from[|key|..])
      else if from == [] || LexLess(from, key) then Visit(next, path + key, [])
      else []
    case Branch(kids) =>
      if from == [] then VisitKids(kids, path, 0, CHILDREN_COUNT)
      else
        (if from[0] < |kids| then Visit(kids[from[0]], path + [from[0]], from[1..]) else [])
        + VisitKids(kids, path, from[0] as int + 1, LAST_CHILD)
  }

  /** All entries of the children `i` up to `end`; the value of the branch itself is child 16. */
  function VisitKids(kids: seq<Tree>, path: Path, i: nat, end: nat): seq<Entry>
    decreases kids, 0, CHILDREN_COUNT - i
  {
    if i >= end || i >= |kids| || i >= CHILDREN_COUNT then []
    else Visit(kids[i], if i == LAST_CHILD then path else path + [i], []) + VisitKids(kids, path, i + 1, end)
  }

  // ---- what a traversal meets ----

  lemma {:induction false} VisitUnder(t: Tree, path: Path, from: Path, e: Entry)
    requires e in Visit(t, path, from)
    ensures path <= e.path
    decreases t, 1
  {
    match t
    case Nil =>
    case Leaf(_) =>
    case Ext(key, next) =>
      VisitUnder(next, path + key, if from != [] && key <= from then from[|key|..] else [], e);
    case Branch(kids) =>
      if from == [] {
        KidsUnder(kids, path, 0, CHILDREN_COUNT, e);
      } else if from[0] < |kids| && e in Visit(kids[from[0]], path + [from[0]], from[1..]) {
        VisitUnder(kids[from[0]], path + [from[0]], from[1..], e);
      } else {
        KidsUnder(kids, path, from[0] as int + 1, LAST_CHILD, e);
      }
  }

  lemma {:induction false} KidsUnder(kids: seq<Tree>, path: Path, i: nat, end: nat, e: Entry)
    requires e in VisitKids(kids, path, i, end)
    ensures path <= e.path
    decreases kids, 0, CHILDREN_COUNT - i
  {
    var here := if i == LAST_CHILD then path else path + [i];
    if e in Visit(kids[i], here, []) {
      VisitUnder(kids[i], here, [], e);
    } else {
      KidsUnder(kids, path, i + 1, end, e);
    }
  }

  /** The traversal meets the entry at `path + q` exactly when it is there and not before the start. */
  lemma {:induction false} VisitHas(t: Tree, path: Path, from: Path, q: Path, v: Value)
    requires Canonical(t)
    ensures Entry(path + q, v) in Visit(t, path, from) <==> Lookup(t, q) == Some(v) && !LexLess(q, from)
    decreases t, 1
  {
    var e := Entry(path + q, v);
    match t
    case Nil =>
    case Leaf(_) =>
      assert path + q == path <==> q == [];
    case Ext(key, next) =>
      var from' := if from != [] && key <= from then from[|key|..] else [];
      if key <= q {
        var rest := q[|key|..];
        assert q == key + rest;
        assert path + q == (path + key) + rest;
        ExtLookup(key, next, rest);
        VisitHas(next, path + key, from', rest, v);
        if from != [] && key <= from { LexPrefix(|key|, q, from); } else { LexOff(key, rest, from); }
      } else if e in Visit(next, path + key, from') {
        VisitUnder(next, path + key, from', e);
        DropPrefix(path, key, q);
      }
    case Branch(kids) =>
      var (c, rest) := SplitPath(q);
      if from == [] {
        KidsHave(kids, path, 0, CHILDREN_COUNT, q, v);
      } else {
        KidsHave(kids, path, from[0] as int + 1, LAST_CHILD, q, v);
        var f := from[0];
        if e in Visit(kids[f], path + [f], from[1..]) {
          VisitUnder(kids[f], path + [f], from[1..], e);
          assert [f] == (path + [f])[|path|..] <= (path + q)[|path|..] == q;
        }
        if c == f {
          assert path + q == (path + [f]) + rest;
          VisitHas(kids[f], path + [f], from[1..], rest, v);
        }
      }
  }

  lemma {:induction false} KidsHave(kids: seq<Tree>, path: Path, i: nat, end: nat, q: Path, v: Value)
    requires CanonicalKids(kids) && end <= CHILDREN_COUNT
    ensures Entry(path + q, v) in VisitKids(kids, path, i, end) <==>
      i <= SplitPath(q).0 < end && Lookup(Branch(kids), q) == Some(v)
    decreases kids, 0, CHILDREN_COUNT - i
  {
    var e := Entry(path + q, v);
    if i < end {
      KidsHave(kids, path, i + 1, end, q, v);
      var (c, rest) := SplitPath(q);
      if i == LAST_CHILD {
        assert path + q == path <==> q == [];
        assert e in Visit(kids[i], path, []) <==> c == i && Lookup(kids[i], rest) == Some(v);
      } else {
        if e in Visit(kids[i], path + [i], []) {
          VisitUnder(kids[i], path + [i], [], e);
          assert [i] == (path + [i])[|path|..] <= (path + q)[|path|..] == q;
        }
        if c == i {
          assert path + q == (path + [i]) + rest;
          VisitHas(kids[i], path + [i], [], rest, v);
        }
      }
    }
  }

  /** Off the path of the start everything below a key is on the same side of it. */
  lemma {:induction false} LexOff(key: Path, rest: Path, from: Path)
    requires from == [] || !(key <= from)
    ensures LexLess(key + rest, from) <==> from != [] && !LexLess(from, key)
  {
    if from != [] && key != [] && key[0] == from[0] {
      assert (key + rest)[1..] == key[1..] + rest;
      if from[1..] == [] {
        assert !LexLess(key[1..] + rest, []);
      } else {
        assert key == [key[0]] + key[1..] && from == [from[0]] + from[1..];
      }
      LexOff(key[1..], rest, from[1..]);
    }
  }

  // ---- the order of a traversal ----

  /** A traversal meets `a` before `b`: a longer path before the one that it extends, and else by nibbles. */
  predicate Precedes(a: Path, b: Path) {
    !(a <= b) && (b <= a || LexLess(a, b))
  }

  ghost predicate Ordered(xs: seq<Entry>) {
    forall i, j :: 0 <= i < j < |xs| ==> Precedes(xs[i].path, xs[j].path)
  }

  /** The order of the keys as strings, in which a proper prefix comes first. */
  ghost predicate Ascending(xs: seq<Entry>) {
    forall i, j :: 0 <= i < j < |xs| ==> LexLess(xs[i].path, xs[j].path)
  }

  ghost predicate PrefixFree(xs: seq<Entry>) {
    forall x, y :: x in xs && y in xs && x.path <= y.path ==> x.path == y.path
  }

  lemma OrderedConcat(a: seq<Entry>, b: seq<Entry>)
    requires Ordered(a) && Ordered(b)
    requires forall x, y :: x in a && y in b ==> Precedes(x.path, y.path)
    ensures Ordered(a + b)
  {
    forall i, j | 0 <= i < j < |a + b| ensures Precedes((a + b)[i].path, (a + b)[j].path) {
      if i < |a| <= j { assert (a + b)[i] in a && (a + b)[j] in b; }
    }
  }

  /** Where the entries of the children from `i` on lie. */
  ghost predicate FromKid(path: Path, i: nat, e: Entry) {
    e.path == path || (path <= e.path && |e.path| > |path| && e.path[|path|] >= i)
  }

  lemma {:induction false} KidsFrom(kids: seq<Tree>, path: Path, i: nat, end: nat, e: Entry)
    requires CanonicalKids(kids) && e in VisitKids(kids, path, i, end)
    ensures FromKid(path, i, e)
    decreases CHILDREN_COUNT - i
  {
    KidsUnder(kids, path, i, end, e);
    if e in Visit(kids[i], if i == LAST_CHILD then path else path + [i], []) {
      if i < LAST_CHILD { VisitUnder(kids[i], path + [i], [], e); }
    } else {
      KidsFrom(kids, path, i + 1, end, e);
    }
  }

  /** A child comes before the later ones, and before the value of the branch. */
  lemma KidPrecedes(path: Path, i: Nibble, x: Entry, y: Entry)
    requires path + [i] <= x.path && FromKid(path, i + 1, y)
    ensures Precedes(x.path, y.path)
  {
    assert x.path[..|path|] == (path + [i])[..|path|] == path && x.path[|path|] == (path + [i])[|path|] == i;
    if y.path == path {
      assert y.path <= x.path && |y.path| < |x.path|;
    } else {
      LexPrefix(|path|, x.path, y.path);
      assert x.path[|path|..][0] == i < y.path[|path|..][0] == y.path[|path|];
    }
  }

  /** A traversal meets its entries in this order, and so none twice. */
  lemma {:induction false} VisitOrdered(t: Tree, path: Path, from: Path)
    requires Canonical(t)
    ensures Ordered(Visit(t, path, from))
    decreases t, 1
  {
    match t
    case Nil =>
    case Leaf(_) =>
    case Ext(key, next) =>
      VisitOrdered(next, path + key, if from != [] && key <= from then from[|key|..] else []);
    case Branch(kids) =>
      if from == [] {
        KidsOrdered(kids, path, 0, CHILDREN_COUNT);
      } else {
        var f := from[0];
        var a, b := Visit(kids[f], path + [f], from[1..]), VisitKids(kids, path, f as int + 1, LAST_CHILD);
        VisitOrdered(kids[f], path + [f], from[1..]);
        KidsOrdered(kids, path, f as int + 1, LAST_CHILD);
        forall x, y | x in a && y in b ensures Precedes(x.path, y.path) {
          VisitUnder(kids[f], path + [f], from[1..], x);
          KidsFrom(kids, path, f as int + 1, LAST_CHILD, y);
          KidPrecedes(path, f, x, y);
        }
        OrderedConcat(a, b);
      }
  }

  lemma {:induction false} KidsOrdered(kids: seq<Tree>, path: Path, i: nat, end: nat)
    requires CanonicalKids(kids) && end <= CHILDREN_COUNT
    ensures Ordered(VisitKids(kids, path, i, end))
    decreases kids, 0, CHILDREN_COUNT - i
  {
    if i < end {
      var here := if i == LAST_CHILD then path else path + [i];
      var a, b := Visit(kids[i], here, []), VisitKids(kids, path, i + 1, end);
      VisitOrdered(kids[i], here, []);
      KidsOrdered(kids, path, i + 1, end);
      forall x, y | x in a && y in b ensures Precedes(x.path, y.path) {
        VisitUnder(kids[i], here, [], x);
        KidsFrom(kids, path, i + 1, end, y);
        KidPrecedes(path, i, x, y);
      }
      OrderedConcat(a, b);
    }
  }

  lemma BothOrders(xs: seq<Entry>, x: Entry, y: Entry)
    requires Ordered(xs) && Ascending(xs) && x in xs && y in xs && x != y
    ensures (Precedes(x.path, y.path) && LexLess(x.path, y.path)) || (Precedes(y.path, x.path) && LexLess(y.path, x.path))
  {
    var i :| 0 <= i < |xs| && xs[i] == x;
    var j :| 0 <= j < |xs| && xs[j] == y;
    if i < j {
      assert Precedes(xs[i].path, xs[j].path);
    } else {
      assert Precedes(xs[j].path, xs[i].path);
    }
  }

  /** Entries in the order of a traversal are in the order of their keys exactly if no key is a prefix of another. */
  lemma {:induction false} AscendingExactly(xs: seq<Entry>)
    requires Ordered(xs)
    ensures Ascending(xs) <==> PrefixFree(xs)
  {
    if Ascending(xs) {
      forall x, y | x in xs && y in xs && x.path <= y.path ensures x.path == y.path {
        if x != y {
          BothOrders(xs, x, y);
          LexExtends(x.path, y.path);
        }
      }
    }
    if PrefixFree(xs) {
      forall i, j | 0 <= i < j < |xs| ensures LexLess(xs[i].path, xs[j].path) {
        assert xs[i] in xs && xs[j] in xs && Precedes(xs[i].path, xs[j].path);
      }
    }
  }

  /**
   Going on after the entry at `i` by its key finds the entries after it except those that its key extends,
   and finds those before it again that extend its key.
   */
  lemma {:induction false} PagingExactly(xs: seq<Entry>, i: nat, j: nat)
    requires Ordered(xs) && i < |xs| && j < |xs|
    ensures i < j ==> (LexLess(xs[i].path, xs[j].path) <==> !(xs[j].path <= xs[i].path))
    ensures j <= i ==> (LexLess(xs[i].path, xs[j].path) <==> xs[i].path < xs[j].path)
  {
    var a, b := xs[i].path, xs[j].path;
    if i < j {
      assert Precedes(a, b);
      if b <= a { LexExtends(b, a); }
    } else if i == j {
      LexTotal(a, a);
    } else {
      assert Precedes(b, a);
      LexTotal(a, b);
      if a <= b { ProperPrefixLess(a, b); }
    }
  }

  lemma {:induction false} ProperPrefixLess(a: Path, b: Path)
    requires a < b
    ensures LexLess(a, b)
  {
    if a != [] {
      assert a[1..] < b[1..];
      ProperPrefixLess(a[1..], b[1..]);
    }
  }

  /** A branch gives its value last: the key [0, 0] comes before the empty one, which no search after it finds. */
  lemma {:induction false} ShorterKeyLast(a: Value, b: Value, t: Tree)
    requires t == Branch(seq(CHILDREN_COUNT, i => if i == 0 then Ext([0], Leaf(a)) else if i == LAST_CHILD then Leaf(b) else Nil))
    ensures Canonical(t) && Visit(t, [], []) == [Entry([0, 0], a), Entry([], b)]
    ensures !Ascending(Visit(t, [], [])) && !Wanted(t, [], Some([0, 0]), [], b)
  {
    var kids := t.kids;
    assert kids[0] != Nil && kids[LAST_CHILD] != Nil;
    OnlyValue(kids, 1);
    var xs, zero: Path := Visit(t, [], []), [0];
    assert [] + zero == zero && zero + zero == [0, 0];
    assert |kids| == CHILDREN_COUNT && kids[0] == Ext(zero, Leaf(a));
    assert xs == VisitKids(kids, [], 0, CHILDREN_COUNT);
    assert VisitKids(kids, [], 0, CHILDREN_COUNT) == Visit(kids[0], [] + zero, []) + VisitKids(kids, [], 0 + 1, CHILDREN_COUNT);
    assert xs == Visit(kids[0], zero, []) + VisitKids(kids, [], 1, CHILDREN_COUNT);
    assert Visit(kids[0], zero, []) == [Entry([0, 0], a)];
    assert !LexLess(xs[0].path, xs[1].path);
  }

  lemma {:induction false} OnlyValue(kids: seq<Tree>, i: nat)
    requires |kids| == CHILDREN_COUNT && 1 <= i <= LAST_CHILD && kids[LAST_CHILD].Leaf?
    requires forall j :: i <= j < LAST_CHILD ==> kids[j] == Nil
    ensures VisitKids(kids, [], i, CHILDREN_COUNT) == [Entry([], kids[LAST_CHILD].value)]
    decreases LAST_CHILD - i
  {
    if i < LAST_CHILD {
      OnlyValue(kids, i + 1);
    } else {
      assert VisitKids(kids, [], i + 1, CHILDREN_COUNT) == [];
    }
  }

  // ---- the traversal ----

  /** Without the entry at the start itself. */
  function Without(xs: seq<Entry>, skip: Option<Path>): seq<Entry> {
    if xs == [] then []
    else if skip == Some(xs[0].path) then Without(xs[1..], skip)
    else [xs[0]] + Without(xs[1..], skip)
  }

  lemma {:induction false} WithoutHas(xs: seq<Entry>, skip: Option<Path>, x: Entry)
    ensures x in Without(xs, skip) <==> x in xs && skip != Some(x.path)
  {
    if xs != [] {
      WithoutHas(xs[1..], skip, x);
      assert xs == [xs[0]] + xs[1..];
    }
  }

  lemma {:induction false} WithoutConcat(a: seq<Entry>, b: seq<Entry>, skip: Option<Path>)
    ensures Without(a + b, skip) == Without(a, skip) + Without(b, skip)
  {
    if a == [] {
      assert a + b == b;
    } else {
      WithoutConcat(a[1..], b, skip);
      assert (a + b)[1..] == a[1..] + b && (a + b)[0] == a[0];
      EntriesAssociate([a[0]], Without(a[1..], skip), Without(b, skip));
    }
  }

  lemma EntriesAssociate(a: seq<Entry>, b: seq<Entry>, c: seq<Entry>)
    ensures a + (b + c) == (a + b) + c
  {
  }

  lemma {:induction false} WithoutOrdered(xs: seq<Entry>, skip: Option<Path>)
    requires Ordered(xs)
    ensures Ordered(Without(xs, skip))
  {
    if xs != [] {
      WithoutOrdered(xs[1..], skip);
      if skip != Some(xs[0].path) {
        forall y | y in Without(xs[1..], skip) ensures Precedes(xs[0].path, y.path) {
          WithoutHas(xs[1..], skip, y);
        }
        OrderedConcat([xs[0]], Without(xs[1..], skip));
      }
    }
  }

  function Take(xs: seq<Entry>, max: nat): seq<Entry> {
    if |xs| <= max then xs else xs[..max]
  }

  /** What a step of the search must do: add these entries, and stop as soon as there are enough. */
  ghost predicate Collects(res: seq<Entry>, more: seq<Entry>, res': seq<Entry>, stop: bool, max: nat) {
    res' == Take(res + more, max) && (stop <==> |res + more| >= max)
  }

  lemma CollectsBoth(res: seq<Entry>, a: seq<Entry>, mid: seq<Entry>, b: seq<Entry>, res': seq<Entry>, stop: bool, max: nat)
    requires |res| < max && Collects(res, a, mid, false, max) && Collects(mid, b, res', stop, max)
    ensures Collects(res, a + b, res', stop, max)
  {
    assert res + (a + b) == (res + a) + b;
  }

  lemma CollectsEnough(res: seq<Entry>, a: seq<Entry>, b: seq<Entry>, res': seq<Entry>, max: nat)
    requires |res| < max && Collects(res, a, res', true, max)
    ensures Collects(res, a + b, res', true, max)
  {
    assert res + (a + b) == (res + a) + b;
    assert |res + a| >= max ==> ((res + a) + b)[..max] == (res + a)[..max];
  }

  /** One more child is traversed, and with a stop the rest does not matter. */
  lemma KidCollected(was: seq<Entry>, seen: seq<Entry>, mid: seq<Entry>, a: seq<Entry>, b: seq<Entry>, res: seq<Entry>,
    stop: bool, max: nat, skip: Option<Path>)
    requires |was| < max && |mid| < max
    requires Collects(was, Without(seen, skip), mid, false, max) && Collects(mid, Without(a, skip), res, stop, max)
    ensures seen + (a + b) == (seen + a) + b
    ensures !stop ==> Collects(was, Without(seen + a, skip), res, false, max)
    ensures stop ==> Collects(was, Without(seen + (a + b), skip), res, true, max)
  {
    EntriesAssociate(seen, a, b);
    WithoutConcat(seen, a, skip);
    CollectsBoth(was, Without(seen, skip), mid, Without(a, skip), res, stop, max);
    if stop {
      WithoutConcat(seen + a, b, skip);
      CollectsEnough(was, Without(seen + a, skip), Without(b, skip), res, max);
    }
  }

  /** The part of the store that a search reads. */
  class Finder {
    const store: Store
    const mode: Mode
    const max: nat
    const skip: Option<Path>
    var res: seq<Entry>

    constructor (store: Store, mode: Mode, max: nat, skip: Option<Path>)
      ensures this.store == store && this.mode == mode && this.max == max && this.skip == skip && res == []
    {
      this.store, this.mode, this.max, this.skip, res := store, mode, max, skip, [];
    }

    /** Notes a leaf, and says whether there are enough. */
    method Process(path: Path, node: Node) returns (stop: bool)
      requires |res| < max
      modifies this
      ensures Collects(old(res), Without(if node.LeafNode? then [Entry(path, node.value)] else [], skip), res, stop, max)
    {
      if node.LeafNode? {
        ghost var one := [Entry(path, node.value)];
        assert one[1..] == [] && Without(one[1..], skip) == [];
        assert Without(one, skip) == if skip == Some(path) then [] else one;
        if skip != Some(path) {
          res := res + [Entry(path, node.value)];
        }
      }
      assert old(res) + [] == old(res);
      return |res| >= max;
    }

    method Traverse(curr: Node, path: Path, from: Path) returns (stop: bool)
      requires |res| < max && Resolvable(store, mode, curr) && Canonical(Expand(curr))
      modifies this
      ensures Collects(old(res), Without(Visit(Expand(curr), path, from), skip), res, stop, max)
      decreases Expand(curr), if curr.HashNode? then 1 else 0, CHILDREN_COUNT + 2
    {
      if curr.EmptyNode? {
        return false;
      }
      if curr.HashNode? {
        assert Avail(store, mode, curr.hash.tree);
        ShallowResolvable(store, mode, curr.hash.tree);
        stop := Traverse(store[curr.hash].bytes, path, from);
        return;
      }
      stop := TraverseNode(curr, path, from);
    }

    method TraverseNode(curr: Node, path: Path, from: Path) returns (stop: bool)
      requires |res| < max && Resolvable(store, mode, curr) && Canonical(Expand(curr)) && !curr.HashNode? && !curr.EmptyNode?
      modifies this
      ensures Collects(old(res), Without(Visit(Expand(curr), path, from), skip), res, stop, max)
      decreases Expand(curr), 0, CHILDREN_COUNT + 1
    {
      if from == [] {
        stop := Process(path, curr);
        if stop {
          return;
        }
      }
      stop := false;
      assert res + [] == res;
      match curr {
        case LeafNode(_) =>
        case BranchNode(cs) =>
          stop := TraverseBranch(cs, path, from);
        case ExtensionNode(key, next) =>
          if from != [] && key <= from {
            stop := Traverse(next, path + key, from[|key|..]);
          } else if from == [] || LexLess(from, key) {
            stop := Traverse(next, path + key, []);
          }
      }
    }

    method TraverseBranch(cs: seq<Node>, path: Path, from: Path) returns (stop: bool)
      requires |res| < max && Resolvable(store, mode, BranchNode(cs)) && Canonical(Expand(BranchNode(cs)))
      modifies this
      ensures Collects(old(res), Without(Visit(Expand(BranchNode(cs)), path, from), skip), res, stop, max)
      decreases Expand(BranchNode(cs)), 0, CHILDREN_COUNT
    {
      ExpandBranch(cs);
      ghost var was := res;
      if from == [] {
        stop := TraverseKids(cs, path, 0, CHILDREN_COUNT);
        return;
      }
      var f := from[0];
      ghost var a, b := Visit(Expand(cs[f]), path + [f], from[1..]), VisitKids(ExpandAll(cs), path, f as int + 1, LAST_CHILD);
      WithoutConcat(a, b, skip);
      stop := Traverse(cs[f], path + [f], from[1..]);
      if stop {
        CollectsEnough(was, Without(a, skip), Without(b, skip), res, max);
        return;
      }
      ghost var mid := res;
      stop := TraverseKids(cs, path, f as int + 1, LAST_CHILD);
      CollectsBoth(was, Without(a, skip), mid, Without(b, skip), res, stop, max);
    }

    method TraverseKids(cs: seq<Node>, path: Path, start: nat, end: nat) returns (stop: bool)
      requires |res| < max && start <= end <= CHILDREN_COUNT
      requires Resolvable(store, mode, BranchNode(cs)) && Canonical(Expand(BranchNode(cs)))
      modifies this
      ensures Collects(old(res), Without(VisitKids(ExpandAll(cs), path, start, end), skip), res, stop, max)
      decreases Expand(BranchNode(cs)), 0, 0
    {
      ExpandBranch(cs);
      ghost var kids, was := ExpandAll(cs), res;
      ghost var seen := [];
      var i := start;
      while i < end
        invariant start <= i <= end && |res| < max
        invariant VisitKids(kids, path, start, end) == seen + VisitKids(kids, path, i, end)
        invariant Collects(was, Without(seen, skip), res, false, max)
      {
        ghost var mid := res;
        var here := if i == LAST_CHILD then path else path + [i];
        ghost var a, b := Visit(kids[i], here, []), VisitKids(kids, path, i + 1, end);
        stop := Traverse(cs[i], here, []);
        KidCollected(was, seen, mid, a, b, res, stop, max, skip);
        if stop {
          return;
        }
        seen := seen + a;
        i := i + 1;
      }
      assert seen + [] == seen;
      stop := false;
    }
  }

  // ---- the search ----

  /** Where the traversal of the tree at `path` must start to meet what is not before `from`; None if all is. */
  function StartFrom(path: Path, from: Path): Option<Path> {
    if from == [] then Some([])
    else if path <= from then Some(from[|path|..])
    else if from <= path then Some([])
    else if LexLess(path, from) then None
    else Some([])
  }

  lemma {:induction false} LexTotal(a: Path, b: Path)
    ensures LexLess(a, b) || a == b || LexLess(b, a)
    ensures !(LexLess(a, b) && LexLess(b, a)) && !LexLess(a, a)
  {
    if a != [] && b != [] {
      LexTotal(a[1..], b[1..]);
      if a[0] == b[0] { assert a == [a[0]] + a[1..] && b == [b[0]] + b[1..]; }
    }
    if a != [] { LexTotal(a[1..], a[1..]); }
  }

  lemma {:induction false} LexExtends(a: Path, b: Path)
    requires a <= b
    ensures !LexLess(b, a)
  {
    if a != [] { LexExtends(a[1..], b[1..]); }
  }

  lemma {:induction false} StartFromIs(path: Path, from: Path, q: Path)
    ensures StartFrom(path, from).None? ==> LexLess(path + q, from)
    ensures StartFrom(path, from).Some? ==> (LexLess(path + q, from) <==> LexLess(q, StartFrom(path, from).value))
  {
    if from == [] {
    } else if path <= from {
      LexPrefix(|path|, path + q, from);
      assert (path + q)[|path|..] == q;
    } else if from <= path {
      assert from <= path + q;
      LexExtends(from, path + q);
    } else {
      LexOff(path, q, from);
      LexTotal(path, from);
    }
  }

  /** Below the prefix, and strictly after the start if one is given. */
  ghost predicate Wanted(t: Tree, prefix: Path, from: Option<Path>, s: Path, v: Value) {
    Lookup(t, prefix + s) == Some(v) && (from.Some? ==> LexLess(from.value, s))
  }

  /** Searching from the start node meets exactly what is wanted. */
  lemma {:induction false} SearchExact(t: Tree, prefix: Path, from: Option<Path>, node: Tree, full: Path, s: Path, v: Value)
    requires IsStart(t, prefix, node, full) && Canonical(node)
    ensures Wanted(t, prefix, from, s, v) <==> Entry(s, v) in Hits(node, full[|prefix|..], from)
  {
    var path := full[|prefix|..];
    assert full == prefix + path;
    if path <= s {
      var q := s[|path|..];
      assert s == path + q && prefix + s == full + q;
      HitsBelow(node, path, from, q, v);
    } else {
      NoHits(node, path, from, s, v);
      assert prefix <= prefix + s;
      DropPrefix(prefix, path, s);
    }
  }

  lemma DropPrefix(prefix: Path, path: Path, s: Path)
    ensures prefix + path <= prefix + s ==> path <= s
  {
    if prefix + path <= prefix + s {
      assert (prefix + path)[|prefix|..] == path && (prefix + s)[|prefix|..] == s;
    }
  }

  /** What a search that starts at a node meets. */
  function Hits(node: Tree, path: Path, from: Option<Path>): seq<Entry> {
    var start := StartFrom(path, if from.Some? then from.value else []);
    if start.None? then [] else Without(Visit(node, path, start.value), from)
  }

  lemma {:induction false} HitsBelow(node: Tree, path: Path, from: Option<Path>, q: Path, v: Value)
    requires Canonical(node)
    ensures Entry(path + q, v) in Hits(node, path, from) <==>
      Lookup(node, q) == Some(v) && (from.Some? ==> LexLess(from.value, path + q))
  {
    var from' := if from.Some? then from.value else [];
    var start := StartFrom(path, from');
    StartFromIs(path, from', q);
    LexTotal(path + q, from');
    if start.Some? {
      WithoutHas(Visit(node, path, start.value), from, Entry(path + q, v));
      VisitHas(node, path, start.value, q, v);
    }
  }

  lemma {:induction false} NoHits(node: Tree, path: Path, from: Option<Path>, s: Path, v: Value)
    requires !(path <= s)
    ensures Entry(s, v) !in Hits(node, path, from)
  {
    var start := StartFrom(path, if from.Some? then from.value else []);
    if start.Some? {
      WithoutHas(Visit(node, path, start.value), from, Entry(s, v));
      if Entry(s, v) in Visit(node, path, start.value) { VisitUnder(node, path, start.value, Entry(s, v)); }
    }
  }

  /** The path that was found belongs to the key that is returned, as keys are byte strings. */
  lemma FoundKey(prefix: seq<Byte>, s: Path)
    requires |s| % 2 == 0
    ensures ToNibbles(prefix + FromNibbles(s)) == ToNibbles(prefix) + s
  {
    var key := FromNibbles(s);
    NibblesRoundTrip(key, s);
    NibblesConcat(prefix, key);
  }

  lemma {:induction false} NibblesConcat(a: seq<Byte>, b: seq<Byte>)
    ensures ToNibbles(a + b) == ToNibbles(a) + ToNibbles(b)
  {
    if b == [] {
      assert a + b == a;
    } else {
      assert (a + b)[..|a + b| - 1] == a + b[..|b| - 1];
      NibblesConcat(a, b[..|b| - 1]);
    }
  }

  datatype FindError = BadPrefix | BadFrom | NoStart

  /** Everything wanted, in the order of the traversal. */
  ghost predicate IsListing(t: Tree, prefix: Path, from: Option<Path>, all: seq<Entry>) {
    Ordered(all) && forall s: Path, v: Value :: Wanted(t, prefix, from, s, v) <==> Entry(s, v) in all
  }

  /** No key that is wanted is the start of another. */
  ghost predicate KeysFree(t: Tree, prefix: Path, from: Option<Path>) {
    forall s, s', v, v' :: Wanted(t, prefix, from, s, v) && Wanted(t, prefix, from, s', v') && s <= s' ==> s == s'
  }

  /** What is wanted decides whether the listing is sorted by keys, and then every page of it is. */
  lemma {:induction false} SortedExactly(t: Tree, prefix: Path, from: Option<Path>, all: seq<Entry>, max: nat)
    requires IsListing(t, prefix, from, all)
    ensures Ascending(all) <==> KeysFree(t, prefix, from)
    ensures KeysFree(t, prefix, from) ==> Ascending(Take(all, max))
  {
    hide Wanted;
    AscendingExactly(all);
    if PrefixFree(all) {
      forall s, s', v, v' | Wanted(t, prefix, from, s, v) && Wanted(t, prefix, from, s', v') && s <= s' ensures s == s' {
        assert Entry(s, v) in all && Entry(s', v') in all;
      }
    }
    if KeysFree(t, prefix, from) {
      forall x, y | x in all && y in all && x.path <= y.path ensures x.path == y.path {
        assert Entry(x.path, x.value) in all && Entry(y.path, y.value) in all;
      }
    }
  }

  /** The key that is returned for an entry. */
  function KeyOf(prefix: seq<Byte>, e: Entry): seq<Byte> {
    prefix + FromNibbles(e.path)
  }

  /** The key has the prefix, its rest comes after `from` in the order of bytes, and the trie has this value for it. */
  ghost predicate KeyWanted(t: Tree, prefix: seq<Byte>, from: Option<seq<Byte>>, key: seq<Byte>, v: Value) {
    && prefix <= key && Lookup(t, ToNibbles(key)) == Some(v)
    && (from.Some? ==> Storage.Less(from.value, key[|prefix|..]))
  }

  /** The entries are those of all keys that are wanted. */
  ghost predicate IsKeyListing(t: Tree, prefix: seq<Byte>, from: Option<seq<Byte>>, all: seq<Entry>) {
    && (forall e :: e in all ==> e.path == ToNibbles(FromNibbles(e.path)) && KeyWanted(t, prefix, from, KeyOf(prefix, e), e.value))
    && (forall key, v :: KeyWanted(t, prefix, from, key, v) ==> Entry(ToNibbles(key[|prefix|..]), v) in all)
  }

  /** What is wanted by its path is wanted by its key. */
  lemma {:induction false} WantedKey(t: Tree, prefix: seq<Byte>, from: Option<seq<Byte>>, rest: seq<Byte>, v: Value)
    ensures KeyWanted(t, prefix, from, prefix + rest, v) <==> Wanted(t, ToNibbles(prefix), PathOf(from), ToNibbles(rest), v)
  {
    assert (prefix + rest)[|prefix|..] == rest;
    NibblesConcat(prefix, rest);
    if from.Some? { NibbleOrder(from.value, rest); }
  }

  lemma {:induction false} KeysListed(t: Tree, prefix: seq<Byte>, from: Option<seq<Byte>>, all: seq<Entry>)
    requires IsListing(t, ToNibbles(prefix), PathOf(from), all) && EvenKeys(t)
    ensures IsKeyListing(t, prefix, from, all)
  {
    hide Ordered;
    forall e | e in all
      ensures e.path == ToNibbles(FromNibbles(e.path)) && KeyWanted(t, prefix, from, KeyOf(prefix, e), e.value)
    {
      EvenRest(t, prefix, from, e);
      NibblesRoundTrip([], e.path);
      WantedKey(t, prefix, from, FromNibbles(e.path), e.value);
    }
    hide Wanted;
    forall key, v | KeyWanted(t, prefix, from, key, v) ensures Entry(ToNibbles(key[|prefix|..]), v) in all {
      assert key == prefix + key[|prefix|..];
      WantedKey(t, prefix, from, key[|prefix|..], v);
    }
  }

  lemma EvenRest(t: Tree, prefix: seq<Byte>, from: Option<seq<Byte>>, e: Entry)
    requires EvenKeys(t) && Wanted(t, ToNibbles(prefix), PathOf(from), e.path, e.value)
    ensures |e.path| % 2 == 0
  {
    hide Lookup;
    var p := ToNibbles(prefix);
    assert Lookup(t, p + e.path).Some? && |p + e.path| == 2 * |prefix| + |e.path|;
  }

  /** Ascending in the order of bytes. */
  ghost predicate KeysAscending(prefix: seq<Byte>, xs: seq<Entry>) {
    forall i, j :: 0 <= i < j < |xs| ==> Storage.Less(KeyOf(prefix, xs[i]), KeyOf(prefix, xs[j]))
  }

  lemma {:induction false} AscendingKeys(prefix: seq<Byte>, xs: seq<Entry>)
    requires forall e :: e in xs ==> e.path == ToNibbles(FromNibbles(e.path))
    ensures Ascending(xs) <==> KeysAscending(prefix, xs)
  {
    forall i, j | 0 <= i < j < |xs|
      ensures LexLess(xs[i].path, xs[j].path) <==> Storage.Less(KeyOf(prefix, xs[i]), KeyOf(prefix, xs[j]))
    {
      NibbleOrder(FromNibbles(xs[i].path), FromNibbles(xs[j].path));
      Storage.LessBehind(prefix, FromNibbles(xs[i].path), FromNibbles(xs[j].path));
    }
  }

  lemma KeyResults(t: Tree, prefix: seq<Byte>, from: Option<seq<Byte>>, all: seq<Entry>, max: nat)
    requires IsListing(t, ToNibbles(prefix), PathOf(from), all)
    ensures EvenKeys(t) ==>
      IsKeyListing(t, prefix, from, all) && (KeysAscending(prefix, Take(all, max)) <==> Ascending(Take(all, max)))
  {
    hide IsListing, KeyWanted, Ascending, KeysAscending;
    if EvenKeys(t) {
      KeysListed(t, prefix, from, all);
      AscendingKeys(prefix, Take(all, max));
    }
  }

  /** There is only one such list. */
  lemma {:induction false} ListingUnique(xs: seq<Entry>, ys: seq<Entry>)
    requires Ordered(xs) && Ordered(ys) && forall e :: e in xs <==> e in ys
    ensures xs == ys
  {
    if xs == [] {
      FirstIn(ys);
    } else {
      assert xs[0] in ys;
      assert ys[0] in xs;
      var i :| 0 <= i < |ys| && ys[i] == xs[0];
      var j :| 0 <= j < |xs| && xs[j] == ys[0];
      assert 0 < i ==> Precedes(ys[0].path, ys[i].path);
      assert 0 < j ==> Precedes(xs[0].path, xs[j].path);
      assert 0 < i && 0 < j ==> false by { LexTotal(xs[0].path, ys[0].path); }
      forall e ensures e in xs[1..] <==> e in ys[1..] {
        NotFirst(xs, e);
        NotFirst(ys, e);
      }
      ListingUnique(xs[1..], ys[1..]);
    }
  }

  lemma FirstIn(xs: seq<Entry>)
    ensures xs != [] ==> xs[0] in xs
  {
  }

  lemma NotFirst(xs: seq<Entry>, e: Entry)
    requires xs != [] && Ordered(xs)
    ensures e in xs[1..] <==> e in xs && e != xs[0]
  {
    if e in xs[1..] {
      var k :| 0 <= k < |xs[1..]| && xs[1..][k] == e;
      assert Precedes(xs[0].path, xs[k + 1].path);
    }
  }

  /**
   Finds the entries below a prefix that follow a start: the first `max` of all of them, in the order of the
   traversal. An error says that a key is too long or that nothing is there.
   */
  method Find(t: Trie, prefix: seq<Byte>, from: Option<seq<Byte>>, max: nat)
    returns (res: Result<seq<Entry>, FindError>, ghost all: seq<Entry>)
    requires t.Readable() && Canonical(Expand(t.root)) && max > 0
    modifies t`refcount
    ensures t.Readable() && (old(t.Valid()) ==> t.Valid())
    ensures res == Err(BadPrefix) <==> |prefix| > MAX_KEY_LENGTH
    ensures res == Err(BadFrom) <==> |prefix| <= MAX_KEY_LENGTH && from.Some? && |from.value| > MAX_KEY_LENGTH - |prefix|
    ensures res == Err(NoStart) <==>
      |prefix| <= MAX_KEY_LENGTH && (from.Some? ==> |from.value| <= MAX_KEY_LENGTH - |prefix|)
      && NothingBelow(Expand(t.root), ToNibbles(prefix))
    ensures res.Ok? ==> IsListing(Expand(t.root), ToNibbles(prefix), PathOf(from), all) && res.value == Take(all, max)
    ensures res.Ok? ==> (Ascending(res.value) <==> PrefixFree(res.value))
    ensures res.Ok? && KeysFree(Expand(t.root), ToNibbles(prefix), PathOf(from)) ==> Ascending(res.value)
    ensures res.Ok? && EvenKeys(Expand(t.root)) ==>
      && IsKeyListing(Expand(t.root), prefix, from, all)
      && (KeysAscending(prefix, res.value) <==> Ascending(res.value))
    ensures res.Ok? && |all| <= max ==> (Ascending(res.value) <==> KeysFree(Expand(t.root), ToNibbles(prefix), PathOf(from)))
  {
    hide IsListing, IsKeyListing, Ascending, KeysAscending, PrefixFree, KeysFree, EvenKeys, ToNibbles;
    all := [];
    if |prefix| > MAX_KEY_LENGTH {
      return Err(BadPrefix), all;
    }
    if from.Some? && |from.value| > MAX_KEY_LENGTH - |prefix| {
      return Err(BadFrom), all;
    }
    var prefixP := ToNibbles(prefix);
    var _, start, full := t.GetWithPath(t.root, prefixP, false);
    if start.None? {
      return Err(NoStart), all;
    }
    SomethingBelow(Expand(t.root), prefixP, Expand(start.value), full);
    var path := full[|prefixP|..];
    var found;
    found, all := Collect(t, start.value, path, PathOf(from), max);
    HitsListed(Expand(t.root), prefixP, PathOf(from), Expand(start.value), full, all, max);
    KeyResults(Expand(t.root), prefix, from, all, max);
    res := Ok(found);
  }

  lemma {:induction false} HitsListed(t: Tree, prefix: Path, from: Option<Path>, node: Tree, full: Path, all: seq<Entry>, max: nat)
    requires IsStart(t, prefix, node, full) && Canonical(node)
    requires all == Hits(node, full[|prefix|..], from) && Ordered(all) && Ordered(Take(all, max))
    ensures IsListing(t, prefix, from, all)
    ensures Ascending(Take(all, max)) <==> PrefixFree(Take(all, max))
    ensures KeysFree(t, prefix, from) ==> Ascending(Take(all, max))
    ensures |all| <= max ==> (Ascending(Take(all, max)) <==> KeysFree(t, prefix, from))
  {
    hide Wanted, Ordered;
    forall s: Path, v: Value ensures Wanted(t, prefix, from, s, v) <==> Entry(s, v) in all {
      SearchExact(t, prefix, from, node, full, s, v);
    }
    AscendingExactly(Take(all, max));
    SortedExactly(t, prefix, from, all, max);
  }

  lemma SomethingBelow(t: Tree, prefix: Path, node: Tree, full: Path)
    requires IsStart(t, prefix, node, full) && Canonical(node) && node != Nil
    ensures !NothingBelow(t, prefix)
  {
    var q := SomePath(node);
    assert Lookup(t, full + q).Some? && prefix <= full + q;
  }

  lemma HitsOrdered(node: Tree, path: Path, from: Option<Path>, max: nat)
    requires Canonical(node)
    ensures var all := Hits(node, path, from); Ordered(all) && Ordered(Take(all, max))
  {
    hide Visit, Precedes, Canonical;
    var start := StartFrom(path, if from.Some? then from.value else []);
    if start.Some? {
      VisitOrdered(node, path, start.value);
      WithoutOrdered(Visit(node, path, start.value), from);
    }
  }

  method Collect(t: Trie, start: Node, path: Path, from: Option<Path>, max: nat) returns (found: seq<Entry>, ghost all: seq<Entry>)
    requires Resolvable(t.store, t.mode, start) && Canonical(Expand(start)) && max > 0
    ensures all == Hits(Expand(start), path, from) && Ordered(all)
    ensures found == Take(all, max) && Ordered(found)
  {
    hide Visit, Without, Ordered, Resolvable, Canonical;
    all := Hits(Expand(start), path, from);
    HitsOrdered(Expand(start), path, from, max);
    var begin := StartFrom(path, if from.Some? then from.value else []);
    if begin.None? {
      return [], all;
    }
    var finder := new Finder(t.store, t.mode, max, from);
    var _ := finder.Traverse(start, path, begin.value);
    assert [] + all == all;
    found := finder.res;
  }

  function PathOf(from: Option<seq<Byte>>): Option<Path> {
    if from.Some? then Some(ToNibbles(from.value)) else None
  }
}
