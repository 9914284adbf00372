/**
 The merge of pkg/core/storage/memcached_store.go (mergeFunc and the loop after it) with its cursor
 variables, and the collecting and sorting of the changes.
 */
module SeekCursor {
  import opened Wrappers
  import opened Storage
  import opened Seek

  // ---- callbacks and the cursors of merges around them ----

  datatype Visitor =
    | User(seen: seq<KV<Value>>, go: seq<KV<Value>> -> bool)
    | Cursor(mem: seq<Change>, iMem: nat, kvKey: seq<Byte>, kvValue: Option<Value>, haveMem: bool,
        done: bool, backwards: bool, next: Visitor)

  function Depth(v: Visitor): nat {
    match v case User(_, _) => 0 case Cursor(_, _, _, _, _, _, _, next) => Depth(next) + 1
  }

  ghost predicate VisitorOk(v: Visitor) {
    match v
    case User(_, _) => true
    case Cursor(mem, iMem, kvKey, kvValue, haveMem, _, _, next) =>
      && iMem <= |mem| && VisitorOk(next)
      && (if haveMem then iMem > 0 && mem[iMem - 1].key == kvKey && mem[iMem - 1].value == kvValue else iMem == |mem|)
  }

  /** What a callback with its cursors stands for. */
  ghost function Abs(v: Visitor): Sink
    requires VisitorOk(v)
  {
    match v
    case User(seen, go) => Callback(seen, go)
    case Cursor(mem, iMem, kvKey, _, haveMem, done, backwards, next) =>
      if done then Merge([], [], true, backwards, Abs(next))
      else Merge(if haveMem then mem[iMem - 1..] else [], kvKey, false, backwards, Abs(next))
  }

  /** Handing on one change that comes before the entry leaves the same to do. */
  lemma GiveStep(rest: seq<Change>, last: seq<Byte>, backwards: bool, next: Sink, x: KV<Value>)
    requires rest != [] && Before(rest[0].key, x.key, backwards)
    ensures var (next', more) := Feed(next, Live(rest[..1]));
      Give(Merge(rest, last, false, backwards, next), x) ==
        if more then Give(Merge(rest[1..], Current(rest, last, 1), false, backwards, next'), x)
        else (Merge([], [], true, backwards, next'), false)
  {
    var n := Leading(rest, x.key, backwards);
    var tail := if Current(rest, last, n) == x.key then [] else [x];
    assert rest[..n] == rest[..1] + rest[1..][..n - 1];
    assert rest[1..][n - 1..] == rest[n..];
    LiveConcat(rest[..1], rest[1..][..n - 1]);
    assert Live(rest[..n]) + tail == Live(rest[..1]) + (Live(rest[1..][..n - 1]) + tail);
    FeedConcat(next, Live(rest[..1]), Live(rest[1..][..n - 1]) + tail);
  }

  /** With no change before it, the entry is handed on unless it is changed itself. */
  lemma GiveNow(rest: seq<Change>, last: seq<Byte>, backwards: bool, next: Sink, x: KV<Value>)
    requires rest == [] || (rest[0].key == last && !Before(last, x.key, backwards))
    ensures Give(Merge(rest, last, false, backwards, next), x) ==
      if last == x.key then (Merge(rest, last, false, backwards, next), true)
      else
        var (next', more) := Give(next, x);
        (if more then Merge(rest, last, false, backwards, next') else Merge([], [], true, backwards, next'), more)
  {
    assert rest[..0] == [] && rest[0..] == rest && Live(rest[..0]) == [];
    FeedOne(next, x);
    assert [] + [x] == [x];
  }

  lemma FeedOne(s: Sink, x: KV<Value>)
    ensures Feed(s, [x]) == Give(s, x)
  {
    assert [x][1..] == [];
  }

  lemma LiveOne(x: Change)
    ensures Live([x]) == if x.value.Some? then [KV(x.key, x.value.value)] else []
  {
    assert [x][1..] == [];
  }

  /** The next change becomes the current one. */
  function Advance(v: Visitor, next: Visitor): Visitor
    requires v.Cursor? && v.iMem <= |v.mem|
  {
    if v.iMem < |v.mem| then
      v.(kvKey := v.mem[v.iMem].key, kvValue := v.mem[v.iMem].value, iMem := v.iMem + 1, next := next)
    else v.(haveMem := false, next := next)
  }

  /** Hands on the current change, which comes before the entry `x`, if it is not a deletion. */
  method GiveChange(v: Visitor, ghost x: KV<Value>) returns (v': Visitor, more: bool)
    requires VisitorOk(v) && v.Cursor? && !v.done && v.haveMem && Before(v.kvKey, x.key, v.backwards)
    ensures VisitorOk(v') && v'.Cursor? && Depth(v') == Depth(v) && more == !v'.done && (more ==> Left(v') < Left(v))
    ensures if more then Give(Abs(v'), x) == Give(Abs(v), x) else Give(Abs(v), x) == (Abs(v'), false)
    decreases Depth(v), 0
  {
    var next := v.next;
    ghost var rest := v.mem[v.iMem - 1..];
    assert rest[..1] == [rest[0]];
    LiveOne(rest[0]);
    GiveStep(rest, v.kvKey, v.backwards, Abs(v.next), x);
    if v.kvValue.Some? {
      var y := KV(v.mem[v.iMem - 1].key, v.kvValue.value);
      FeedOne(Abs(v.next), y);
      next, more := Visit(v.next, y);
      if !more {
        return v.(done := true, next := next), false;
      }
    }
    AdvanceIs(v, next);
    return Advance(v, next), true;
  }

  /** What a cursor still holds. */
  function Left(v: Visitor): nat {
    if v.Cursor? && v.iMem <= |v.mem| && v.haveMem then |v.mem| - v.iMem + 1 else 0
  }

  lemma AdvanceIs(v: Visitor, next: Visitor)
    requires VisitorOk(v) && v.Cursor? && !v.done && v.haveMem && VisitorOk(next) && Depth(next) == Depth(v.next)
    ensures var v', rest := Advance(v, next), v.mem[v.iMem - 1..];
      && VisitorOk(v') && v'.Cursor? && !v'.done && Depth(v') == Depth(v) && Left(v') < Left(v)
      && Abs(v') == Merge(rest[1..], Current(rest, v.kvKey, 1), false, v.backwards, Abs(next))
  {
    assert v.mem[v.iMem - 1..][1..] == v.mem[v.iMem..];
  }

  /** Hands an entry to a callback; a cursor hands on the changes that come first. */
  method Visit(v: Visitor, x: KV<Value>) returns (v': Visitor, more: bool)
    requires VisitorOk(v)
    ensures VisitorOk(v') && Depth(v') == Depth(v) && Give(Abs(v), x) == (Abs(v'), more)
    decreases Depth(v), 1
  {
    if v.User? {
      return User(v.seen + [x], v.go), v.go(v.seen + [x]);
    }
    if v.done {
      return v, false;
    }
    v', more := v, true;
    while v'.haveMem && Before(v'.kvKey, x.key, v'.backwards)
      invariant VisitorOk(v') && v'.Cursor? && !v'.done && Depth(v') == Depth(v)
      invariant Give(Abs(v), x) == Give(Abs(v'), x)
      decreases Left(v')
    {
      v', more := GiveChange(v', x);
      if !more {
        return;
      }
    }
    v', more := GiveEntry(v', x);
  }

  method GiveEntry(v: Visitor, x: KV<Value>) returns (v': Visitor, more: bool)
    requires VisitorOk(v) && v.Cursor? && !v.done && !(v.haveMem && Before(v.kvKey, x.key, v.backwards))
    ensures VisitorOk(v') && Depth(v') == Depth(v) && Give(Abs(v), x) == (Abs(v'), more)
    decreases Depth(v), 0
  {
    GiveNow(Abs(v).rest, v.kvKey, v.backwards, Abs(v.next), x);
    if v.kvKey == x.key {
      return v, true;
    }
    var next;
    next, more := Visit(v.next, x);
    v' := v.(next := next, done := !more);
  }

  /** Hands entries over until no more are wanted. */
  method VisitAll(v: Visitor, xs: seq<KV<Value>>) returns (v': Visitor, more: bool)
    requires VisitorOk(v)
    ensures VisitorOk(v') && Depth(v') == Depth(v) && Feed(Abs(v), xs) == (Abs(v'), more)
  {
    v', more := v, true;
    var i := 0;
    while i < |xs|
      invariant 0 <= i <= |xs| && VisitorOk(v') && Depth(v') == Depth(v)
      invariant Feed(Abs(v), xs) == Feed(Abs(v'), xs[i..])
    {
      v', more := Visit(v', xs[i]);
      assert xs[i..][1..] == xs[i + 1..];
      if !more {
        return;
      }
      i := i + 1;
    }
    more := true;
  }

  /** After the lower layer has ended the changes that are left are handed on. */
  method Drain(v: Visitor) returns (next: Visitor)
    requires VisitorOk(v) && v.Cursor?
    ensures VisitorOk(next) && Abs(next) == Drained(Abs(v))
  {
    next := v.next;
    if v.done || !v.haveMem {
      return;
    }
    var i := v.iMem - 1;
    while i < |v.mem|
      invariant 0 <= i <= |v.mem| && VisitorOk(next)
      invariant Feed(Abs(v.next), Live(v.mem[v.iMem - 1..])).0 == Feed(Abs(next), Live(v.mem[i..])).0
    {
      var kv := v.mem[i];
      LiveSuffix(v.mem, i);
      if kv.value.Some? {
        var more;
        ghost var x := KV(kv.key, kv.value.value);
        FeedConcat(Abs(next), [x], Live(v.mem[i + 1..]));
        FeedOne(Abs(next), x);
        next, more := Visit(next, KV(kv.key, kv.value.value));
        if !more {
          return;
        }
      }
      i := i + 1;
    }
    assert Live(v.mem[i..]) == [];
  }

  lemma LiveSuffix(mem: seq<Change>, i: nat)
    requires i < |mem|
    ensures Live(mem[i..]) ==
      (if mem[i].value.Some? then [KV(mem[i].key, mem[i].value.value)] else []) + Live(mem[i + 1..])
    ensures mem[i].value.None? ==> Live(mem[i..]) == Live(mem[i + 1..])
  {
    assert mem[i..][1..] == mem[i + 1..];
    assert [] + Live(mem[i + 1..]) == Live(mem[i + 1..]);
  }

  // ---- collecting and sorting ----

  /** The entry goes behind all that come before it. */
  function Inserted<T>(xs: seq<KV<T>>, x: KV<T>, backwards: bool): seq<KV<T>> {
    if xs == [] || !Before(xs[0].key, x.key, backwards) then [x] + xs
    else [xs[0]] + Inserted(xs[1..], x, backwards)
  }

  lemma {:induction false} InsertedHas<T(!new)>(xs: seq<KV<T>>, x: KV<T>, backwards: bool, y: KV<T>)
    ensures y in Inserted(xs, x, backwards) <==> y == x || y in xs
  {
    if xs != [] && Before(xs[0].key, x.key, backwards) {
      InsertedHas(xs[1..], x, backwards, y);
      assert xs == [xs[0]] + xs[1..];
    }
  }

  lemma {:induction false} InsertedOrdered<T(!new)>(xs: seq<KV<T>>, x: KV<T>, backwards: bool)
    requires Ordered(xs, backwards) && !Has(xs, x.key)
    ensures Ordered(Inserted(xs, x, backwards), backwards)
  {
    if xs == [] {
    } else if !Before(xs[0].key, x.key, backwards) {
      HasTail(xs, x.key);
      BeforeTotal(xs[0].key, x.key, backwards);
      forall y | y in xs ensures Before(x.key, y.key, backwards) {
        After(xs, y, backwards);
        KeyAfter(x.key, xs[0].key, y.key, backwards);
      }
    } else {
      HasTail(xs, x.key);
      InsertedOrdered(xs[1..], x, backwards);
      forall y | y in Inserted(xs[1..], x, backwards) ensures Before(xs[0].key, y.key, backwards) {
        InsertedHas(xs[1..], x, backwards, y);
      }
    }
  }

  lemma InsertedListing<T(!new)>(xs: seq<KV<T>>, m: map<Key, T>, rng: Range, k: Key, value: T)
    requires IsListing(xs, m, rng) && k !in m && InRange(k, rng)
    ensures IsListing(Inserted(xs, KV(k, value), rng.backwards), m[k := value], rng)
  {
    var x := KV(k, value);
    var ys := Inserted(xs, x, rng.backwards);
    InsertedOrdered(xs, x, rng.backwards);
    var m' := m[k := value];
    forall i | 0 <= i < |ys| ensures InRange(ys[i].key, rng) && ys[i].key in m' && m'[ys[i].key] == ys[i].value {
      InsertedHas(xs, x, rng.backwards, ys[i]);
    }
    forall l | l in m' && InRange(l, rng) ensures Has(ys, l) {
      var y := KV(l, m'[l]);
      if l != k { assert Has(xs, l); }
      InsertedHas(xs, x, rng.backwards, y);
      assert y in ys;
    }
  }

  /** The entries of a map in the range, sorted. */
  method SortedRange<T(!new)>(m: map<Key, T>, rng: Range) returns (xs: seq<KV<T>>)
    ensures IsListing(xs, m, rng)
  {
    xs := [];
    var todo := m.Keys;
    ghost var seen: map<Key, T> := map[];
    while todo != {}
      invariant todo <= m.Keys && seen == map k | k in m && k !in todo :: m[k]
      invariant IsListing(xs, seen, rng)
    {
      var k :| k in todo;
      ghost var was := seen;
      seen := was[k := m[k]];
      if InRange(k, rng) {
        InsertedListing(xs, was, rng, k, m[k]);
        xs := Inserted(xs, KV(k, m[k]), rng.backwards);
      }
      todo := todo - {k};
    }
    assert seen == m;
  }
}
