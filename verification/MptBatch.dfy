/**
 Batches of changes as pkg/core/mpt/batch.go orders, groups and shortens them, and what doing so
 means for the map a tree denotes.
 */
module MptBatch {
  import opened Wrappers
  import opened MptTree
  import opened MptNode
  import opened MptUpdate

  /** Byte-wise order of nibble strings; a proper prefix comes first. */
  predicate LexLess(a: Path, b: Path) {
    if b == [] then false
    else if a == [] then true
    else if a[0] != b[0] then a[0] < b[0]
    else LexLess(a[1..], b[1..])
  }

  ghost predicate Sorted(kv: seq<KeyValue>) {
    forall i, j :: 0 <= i < j < |kv| ==> LexLess(kv[i].key, kv[j].key)
  }

  lemma SortedSuffix(a: seq<KeyValue>, b: seq<KeyValue>)
    requires Sorted(a + b)
    ensures Sorted(b)
  {
    forall i, j | 0 <= i < j < |b| ensures LexLess(b[i].key, b[j].key) {
      assert b[i] == (a + b)[|a| + i] && b[j] == (a + b)[|a| + j];
    }
  }

  ghost predicate AllUnder(pref: Path, kv: seq<KeyValue>) {
    forall i :: 0 <= i < |kv| ==> pref <= kv[i].key
  }

  /** The batch with the first `n` nibbles of every key removed. */
  function StripPrefix(n: nat, kv: seq<KeyValue>): (r: seq<KeyValue>)
    requires forall i :: 0 <= i < |kv| ==> n <= |kv[i].key|
    ensures |r| == |kv|
  {
    seq(|kv|, i requires 0 <= i < |kv| => KeyValue(kv[i].key[n..], kv[i].value))
  }

  lemma {:induction false} LexPrefix(n: nat, a: Path, b: Path)
    requires n <= |a| && n <= |b| && a[..n] == b[..n]
    ensures LexLess(a[n..], b[n..]) <==> LexLess(a, b)
  {
    if n == 0 {
      assert a[0..] == a && b[0..] == b;
    } else {
      assert a[0] == a[..n][0] == b[..n][0] == b[0];
      assert a[1..][..n - 1] == a[..n][1..] == b[..n][1..] == b[1..][..n - 1];
      LexPrefix(n - 1, a[1..], b[1..]);
      assert a[1..][n - 1..] == a[n..] && b[1..][n - 1..] == b[n..];
    }
  }

  lemma {:induction false} StripSorted(pref: Path, kv: seq<KeyValue>)
    requires Sorted(kv) && AllUnder(pref, kv)
    ensures Sorted(StripPrefix(|pref|, kv))
  {
    forall i, j | 0 <= i < j < |kv|
      ensures LexLess(StripPrefix(|pref|, kv)[i].key, StripPrefix(|pref|, kv)[j].key)
    {
      assert kv[i].key[..|pref|] == pref == kv[j].key[..|pref|];
      LexPrefix(|pref|, kv[i].key, kv[j].key);
    }
  }

  lemma {:induction false} ApplyConcat(a: seq<KeyValue>, b: seq<KeyValue>, p: Path, was: Option<Value>)
    ensures Apply(a + b, p, was) == Apply(b, p, Apply(a, p, was))
  {
    if a == [] {
      assert a + b == b;
    } else {
      assert (a + b)[1..] == a[1..] + b;
      ApplyConcat(a[1..], b, p, if a[0].key == p then a[0].value else was);
    }
  }

  /** Below a common prefix the batch acts like the shortened batch; elsewhere it does nothing. */
  lemma {:induction false} ApplyStrip(pref: Path, kv: seq<KeyValue>, p: Path, was: Option<Value>)
    requires AllUnder(pref, kv)
    ensures Apply(kv, p, was)
         == if pref <= p then Apply(StripPrefix(|pref|, kv), p[|pref|..], was) else was
  {
    if kv != [] {
      var n := |pref|;
      assert StripPrefix(n, kv)[1..] == StripPrefix(n, kv[1..]);
      if pref <= p {
        assert p == pref + p[n..] && kv[0].key == pref + kv[0].key[n..];
      }
      ApplyStrip(pref, kv[1..], p, if kv[0].key == p then kv[0].value else was);
    }
  }

  /** The update of what lies below `pref`, seen from above it. */
  lemma {:induction false} UpdateUnder(pref: Path, t: Tree, kv: seq<KeyValue>, t': Tree)
    requires AllUnder(pref, kv) && IsUpdate(t, StripPrefix(|pref|, kv), t')
    ensures Canonical(Merge(pref, t'))
    ensures forall p: Path ::
      Lookup(Merge(pref, t'), p) == Apply(kv, p, Lookup(Prefixed(pref, t), p))
  {
    MergeCorrect(pref, t');
    forall p: Path
      ensures Lookup(Merge(pref, t'), p) == Apply(kv, p, Lookup(Prefixed(pref, t), p))
    {
      PrefixedLookup(pref, t, p);
      PrefixedLookup(pref, t', p);
      ApplyStrip(pref, kv, p, Lookup(Prefixed(pref, t), p));
    }
  }

  /** The changes to the keys that continue into child `c` of a branch. */
  ghost predicate IsGroup(c: nat, group: seq<KeyValue>) {
    && c < CHILDREN_COUNT
    && if c == LAST_CHILD then |group| == 1 && group[0].key == []
       else group != [] && AllUnder([c], group)
  }

  function ForChild(c: nat, group: seq<KeyValue>): seq<KeyValue>
    requires IsGroup(c, group)
  {
    if c == LAST_CHILD then group else StripPrefix(1, group)
  }

  lemma {:induction false} OnlyEmptyPath(t: Tree)
    requires Canonical(t) && forall p: Path :: p != [] ==> Lookup(t, p).None?
    ensures t.Nil? || t.Leaf?
  {
    if t.Branch? {
      var p, q := BranchDiverges(t);
    } else if t.Ext? {
      var p := SomePath(t);
    }
  }

  lemma {:induction false} BranchUpdate(kids: seq<Tree>, c: nat, group: seq<KeyValue>, kid: Tree)
    requires CanonicalKids(kids) && IsGroup(c, group)
    requires IsUpdate(kids[c], ForChild(c, group), kid)
    ensures CanonicalKids(kids[c := kid])
    ensures forall p: Path ::
      Lookup(Branch(kids[c := kid]), p) == Apply(group, p, Lookup(Branch(kids), p))
  {
    forall p: Path
      ensures Lookup(Branch(kids[c := kid]), p) == Apply(group, p, Lookup(Branch(kids), p))
    {
      var (j, q) := SplitPath(p);
      if c == LAST_CHILD {
        assert group[1..] == [];
      } else {
        ApplyStrip([c], group, p, Lookup(Branch(kids), p));
        assert [c] <= p <==> j == c;
      }
    }
    if c == LAST_CHILD {
      forall p: Path | p != [] ensures Lookup(kid, p).None? {
        assert group[1..] == [];
        assert Lookup(kids[c], p).None?;
        assert Lookup(kid, p) == Apply(group, p, None) == Apply(group[1..], p, None);
      }
      OnlyEmptyPath(kid);
    }
  }

  /** First nibble of a key, with the empty key before all others. */
  function Head(key: Path): int {
    if key == [] then -1 else key[0]
  }

  lemma LexHead(a: Path, b: Path)
    requires LexLess(a, b)
    ensures Head(a) <= Head(b) && b != []
  {
  }

  /** A measure of the work a batch contains. */
  ghost function KvSize(kv: seq<KeyValue>): nat {
    if kv == [] then 0 else 2 * |kv[0].key| + 2 + KvSize(kv[1..])
  }

  lemma {:induction false} KvSizeConcat(a: seq<KeyValue>, b: seq<KeyValue>)
    ensures KvSize(a + b) == KvSize(a) + KvSize(b)
    ensures KvSize(a) >= 2 * |a|
  {
    if a == [] {
      assert a + b == b;
    } else {
      assert (a + b)[1..] == a[1..] + b;
      KvSizeConcat(a[1..], b);
    }
  }

  lemma {:induction false} KvSizeStrip(n: nat, kv: seq<KeyValue>)
    requires forall i :: 0 <= i < |kv| ==> n <= |kv[i].key|
    ensures KvSize(StripPrefix(n, kv)) <= KvSize(kv)
    ensures n > 0 && kv != [] ==> KvSize(StripPrefix(n, kv)) + 2 <= KvSize(kv)
  {
    if kv != [] {
      assert StripPrefix(n, kv)[1..] == StripPrefix(n, kv[1..]);
      KvSizeStrip(n, kv[1..]);
    }
  }

  /** The keys common prefix: every key starts with it, and no longer string has that property. */
  ghost predicate IsLcpMany(kv: seq<KeyValue>, p: Path) {
    AllUnder(p, kv) && forall q: Path :: AllUnder(q, kv) ==> |q| <= |p|
  }

  /** `after` is `base`, changed by `kv`, below the path `pref`. */
  ghost predicate IsUpdateUnder(pref: Path, base: Tree, kv: seq<KeyValue>, after: Tree) {
    && Canonical(after)
    && forall p: Path ::
      Lookup(after, p) == (if pref <= p then Apply(kv, p[|pref|..], Lookup(base, p[|pref|..])) else None)
  }

  lemma {:induction false} MergeIsUnder(pref: Path, base: Tree, kv: seq<KeyValue>, t: Tree)
    requires Canonical(t)
    requires forall q: Path :: Lookup(t, q) == Apply(kv, q, Lookup(base, q))
    ensures IsUpdateUnder(pref, base, kv, Merge(pref, t))
  {
    MergeCorrect(pref, t);
    forall p: Path
      ensures Lookup(Merge(pref, t), p)
           == if pref <= p then Apply(kv, p[|pref|..], Lookup(base, p[|pref|..])) else None
    {
      PrefixedLookup(pref, t, p);
    }
  }

  /** A leading deletion of the empty key makes the rest of the batch start from nothing. */
  lemma {:induction false} SkipDeletion(pref: Path, base: Tree, kv: seq<KeyValue>, after: Tree)
    requires kv != [] && kv[0].key == [] && kv[0].value == None
    requires base.Nil? || base.Leaf?
    requires IsUpdateUnder(pref, Nil, kv[1..], after)
    ensures IsUpdateUnder(pref, base, kv, after)
  {
    forall p: Path | pref <= p
      ensures Lookup(after, p) == Apply(kv, p[|pref|..], Lookup(base, p[|pref|..]))
    {
      assert Lookup(after, p) == Apply(kv[1..], p[|pref|..], Lookup(Nil, p[|pref|..]));
    }
  }

  /** A leading change of the empty key overrides whatever leaf was there. */
  lemma {:induction false} FirstOverrides(kv: seq<KeyValue>, a: Tree, b: Tree, q: Path)
    requires kv != [] && kv[0].key == [] && (a.Nil? || a.Leaf?) && (b.Nil? || b.Leaf?)
    ensures Apply(kv, q, Lookup(a, q)) == Apply(kv, q, Lookup(b, q))
  {
  }

  function Below(pref: Path, p: Path): Path {
    if pref <= p then p[|pref|..] else p
  }

  lemma {:induction false} SingleUnder(pref: Path, base: Tree, c: KeyValue)
    requires c.key == [] && (base.Nil? || base.Leaf?)
    ensures c.value.None? ==> IsUpdateUnder(pref, base, [c], Nil)
    ensures c.value.Some? ==> IsUpdateUnder(pref, base, [c], Prefixed(pref, Leaf(c.value.value)))
  {
    forall p: Path
      ensures Apply([c], Below(pref, p), Lookup(base, Below(pref, p)))
           == if Below(pref, p) == [] then c.value else None
    {
      assert [c][1..] == [];
    }
    if c.value.Some? {
      forall p: Path {
        PrefixedLookup(pref, Leaf(c.value.value), p);
      }
    }
  }

  lemma {:induction false} FromNothing(pref: Path, kv: seq<KeyValue>, after: Tree)
    requires AllUnder(pref, kv) && IsUpdateUnder(pref, Nil, StripPrefix(|pref|, kv), after)
    ensures IsUpdate(Nil, kv, after)
  {
    forall p: Path
      ensures Lookup(after, p) == Apply(kv, p, Lookup(Nil, p))
    {
      ApplyStrip(pref, kv, p, None);
    }
  }

  /** A branch whose only child continues a key denotes what an extension by that key would. */
  lemma {:induction false} ExtAsBranch(key: Path, next: Tree, kids: seq<Tree>)
    requires key != [] && kids == NoKids()[key[0] := Prefixed(key[1..], next)]
    ensures forall p: Path :: Lookup(Branch(kids), p) == Lookup(Ext(key, next), p)
  {
    OnlyChild(kids, key[0]);
    assert [key[0]] + key[1..] == key;
    if key[1..] == [] {
      assert key == [key[0]];
    } else {
      PrefixedTwice([key[0]], key[1..], next);
    }
  }

  lemma {:induction false} SizeOnly(kids: seq<Tree>, i: nat)
    requires i < |kids| && OnlyAt(kids, i)
    ensures SizeAll(kids) == Size(kids[i])
  {
    SizeUpdate(kids, i, Nil);
    SizeNone(kids[i := Nil]);
  }

  lemma {:induction false} SizeNone(ts: seq<Tree>)
    requires forall i :: 0 <= i < |ts| ==> ts[i] == Nil
    ensures SizeAll(ts) == 0
  {
    if ts != [] {
      SizeNone(ts[1..]);
    }
  }

  lemma {:induction false} SizeTwo(ts: seq<Tree>, i: nat, j: nat)
    requires i < |ts| && j < |ts| && i != j
    ensures Size(ts[i]) + Size(ts[j]) <= SizeAll(ts)
  {
    SizeUpdate(ts, i, Nil);
    SizeUpdate(ts[i := Nil], j, Nil);
  }

  /** The changes for one child are sorted again and are less work than the whole batch. */
  lemma {:induction false} GroupFits(kids: seq<Tree>, kv: seq<KeyValue>, done: seq<KeyValue>, rest: seq<KeyValue>, c: nat, i: nat, extra: nat)
    requires |kids| == CHILDREN_COUNT && kv == done + rest && Sorted(kv)
    requires 0 < i <= |rest| && IsGroup(c, rest[..i])
    requires done != [] ==> rest[0].key != []
    requires extra == 0 ==> kv[0].key != [] || |kv| > 1
    requires extra > 0 ==> exists j :: 0 <= j < LAST_CHILD && kids[j] != Nil
    ensures Sorted(rest) && Sorted(ForChild(c, rest[..i])) && ForChild(c, rest[..i]) != []
    ensures Size(kids[c]) + KvSize(ForChild(c, rest[..i])) + 1 < SizeAll(kids) + KvSize(kv) + extra
  {
    GroupSorted(done, rest, c, i);
    if c == LAST_CHILD {
      assert rest[..i][0] == rest[0];
      assert done == [] && rest == kv;
      ValueGroupFits(kids, kv, i, extra);
    } else {
      KvSizeConcat(done, rest);
      assert rest == rest[..i] + rest[i..];
      KvSizeConcat(rest[..i], rest[i..]);
      SizeUpdate(kids, c, Nil);
      KvSizeStrip(1, rest[..i]);
    }
  }

  lemma GroupSorted(done: seq<KeyValue>, rest: seq<KeyValue>, c: nat, i: nat)
    requires Sorted(done + rest) && 0 < i <= |rest| && IsGroup(c, rest[..i])
    ensures Sorted(rest) && Sorted(ForChild(c, rest[..i])) && ForChild(c, rest[..i]) != []
  {
    SortedSuffix(done, rest);
    if c != LAST_CHILD { StripSorted([c], rest[..i]); }
  }

  /** The group of the empty key is one entry, and there is a later one or another child. */
  lemma {:induction false} ValueGroupFits(kids: seq<Tree>, kv: seq<KeyValue>, i: nat, extra: nat)
    requires |kids| == CHILDREN_COUNT && 0 < i <= |kv| && IsGroup(LAST_CHILD, kv[..i])
    requires extra == 0 ==> kv[0].key != [] || |kv| > 1
    requires extra > 0 ==> exists j :: 0 <= j < LAST_CHILD && kids[j] != Nil
    ensures Size(kids[LAST_CHILD]) + KvSize(ForChild(LAST_CHILD, kv[..i])) + 1 < SizeAll(kids) + KvSize(kv) + extra
  {
    var group, later := kv[..i], kv[i..];
    assert kv == group + later && group[0] == kv[0];
    KvSizeConcat(group, later);
    SizeUpdate(kids, LAST_CHILD, Nil);
    assert KvSize(group) == 2 by { assert group == [group[0]]; assert group[1..] == []; }
    if extra == 0 {
      assert |later| > 0;
    } else {
      var j :| 0 <= j < LAST_CHILD && kids[j] != Nil;
      SizeTwo(kids, LAST_CHILD, j);
      assert Size(kids[j]) > 0;
    }
  }

  lemma LcpLongest(a: Path, b: Path, p: Path, q: Path)
    requires p <= a && p <= b && (|p| < |a| && |p| < |b| ==> a[|p|] != b[|p|])
    requires q <= a && q <= b
    ensures |q| <= |p| && q <= p
  {
  }

  /** The children from the one that `key` continues into onwards are still the original ones. */
  ghost predicate Untouched(cs: seq<Node>, b: seq<Node>, key: Path) {
    |cs| == |b| && forall j :: 0 <= j < LAST_CHILD && j < |cs| && Head(key) <= j ==> b[j] == cs[j]
  }

  lemma {:induction false} UpdateTrans(a: seq<Tree>, kv: seq<KeyValue>, b: seq<Tree>, kv': seq<KeyValue>, c: seq<Tree>)
    requires forall p: Path :: Lookup(Branch(b), p) == Apply(kv, p, Lookup(Branch(a), p))
    requires forall p: Path :: Lookup(Branch(c), p) == Apply(kv', p, Lookup(Branch(b), p))
    ensures forall p: Path :: Lookup(Branch(c), p) == Apply(kv + kv', p, Lookup(Branch(a), p))
  {
    forall p: Path
      ensures Lookup(Branch(c), p) == Apply(kv + kv', p, Lookup(Branch(a), p))
    {
      ApplyConcat(kv, kv', p, Lookup(Branch(a), p));
    }
  }

  /** The changes `done` have reached the children `b` of a branch that started with `cs`. */
  ghost predicate Progress(cs: seq<Node>, kv: seq<KeyValue>, done: seq<KeyValue>, rest: seq<KeyValue>, b: seq<Node>) {
    && kv == done + rest
    && CanonicalKids(ExpandAll(b)) && |cs| == |b|
    && (forall p: Path :: Lookup(Branch(ExpandAll(b)), p) == Apply(done, p, Lookup(Branch(ExpandAll(cs)), p)))
    && (done == [] ==> b == cs)
    && (rest != [] ==> Untouched(cs, b, rest[0].key))
    && (rest != [] && done != [] ==> rest[0].key != [])
  }

  lemma {:induction false} StepProgress(cs: seq<Node>, kv: seq<KeyValue>, done: seq<KeyValue>, rest: seq<KeyValue>, b: seq<Node>, i: nat, b': seq<Node>)
    requires Progress(cs, kv, done, rest, b) && 0 < i <= |rest|
    requires CanonicalKids(ExpandAll(b'))
    requires forall p: Path ::
      Lookup(Branch(ExpandAll(b')), p) == Apply(rest[..i], p, Lookup(Branch(ExpandAll(b)), p))
    requires i < |rest| ==> Untouched(cs, b', rest[i].key) && rest[i].key != []
    ensures Progress(cs, kv, done + rest[..i], rest[i..], b')
  {
    UpdateTrans(ExpandAll(cs), done, ExpandAll(b), rest[..i], ExpandAll(b'));
    assert done + rest[..i] + rest[i..] == done + rest;
  }
}
