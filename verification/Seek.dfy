/**
 Ordered seek through layers of changes (pkg/core/storage/memcached_store.go, seek): the entries of
 the lower layer are merged, one by one, with the sorted changes of this layer.
 */
module Seek {
  import opened Wrappers
  import opened Storage

  type Change = KV<Option<Value>>

  // ---- two sorted lists merged ----

  /** The entries that are not deletions. */
  function Live(xs: seq<Change>): seq<KV<Value>> {
    if xs == [] then []
    else if xs[0].value.None? then Live(xs[1..])
    else [KV(xs[0].key, xs[0].value.value)] + Live(xs[1..])
  }

  lemma {:induction false} LiveConcat(a: seq<Change>, b: seq<Change>)
    ensures Live(a + b) == Live(a) + Live(b)
  {
    if a == [] {
      assert a + b == b;
    } else {
      LiveConcat(a[1..], b);
      assert (a + b)[1..] == a[1..] + b && (a + b)[0] == a[0];
      if a[0].value.Some? { Associate([KV(a[0].key, a[0].value.value)], Live(a[1..]), Live(b)); }
    }
  }

  lemma Associate(a: seq<KV<Value>>, b: seq<KV<Value>>, c: seq<KV<Value>>)
    ensures a + (b + c) == (a + b) + c
  {
  }

  lemma {:induction false} LiveHas(xs: seq<Change>, x: KV<Value>)
    ensures x in Live(xs) <==> KV(x.key, Some(x.value)) in xs
  {
    if xs != [] { LiveHas(xs[1..], x); }
  }

  /** Changes win over entries with the same key. */
  function Merged(mem: seq<Change>, under: seq<KV<Value>>, backwards: bool): seq<KV<Value>> {
    if mem == [] then under
    else if under == [] then Live(mem)
    else if Before(mem[0].key, under[0].key, backwards) then Live(mem[..1]) + Merged(mem[1..], under, backwards)
    else if mem[0].key == under[0].key then Merged(mem, under[1..], backwards)
    else [under[0]] + Merged(mem, under[1..], backwards)
  }

  lemma After<T(!new)>(xs: seq<KV<T>>, x: KV<T>, backwards: bool)
    requires Ordered(xs, backwards) && x in xs
    ensures x == xs[0] || Before(xs[0].key, x.key, backwards)
  {
  }

  /** What a merge holds: the changes, and the entries whose keys are not changed. */
  lemma {:induction false} MergedHas(mem: seq<Change>, under: seq<KV<Value>>, backwards: bool, x: KV<Value>)
    requires Ordered(mem, backwards) && Ordered(under, backwards)
    ensures x in Merged(mem, under, backwards) <==>
      KV(x.key, Some(x.value)) in mem || (x in under && !Has(mem, x.key))
  {
    if mem == [] {
    } else if under == [] {
      LiveHas(mem, x);
    } else if Before(mem[0].key, under[0].key, backwards) {
      MergedHas(mem[1..], under, backwards, x);
      LiveHas(mem[..1], x);
      assert mem == [mem[0]] + mem[1..];
      if x in under {
        After(under, x, backwards);
        KeyAfter(mem[0].key, under[0].key, x.key, backwards);
        assert Has(mem[1..], x.key) <==> Has(mem, x.key) by { HasTail(mem, x.key); }
      }
    } else {
      MergedHas(mem, under[1..], backwards, x);
      assert under == [under[0]] + under[1..];
      BeforeTotal(mem[0].key, under[0].key, backwards);
      if mem[0].key == under[0].key {
        assert Has(mem, under[0].key);
      } else {
        NotHas(mem, under[0].key, backwards);
      }
    }
  }

  lemma KeyAfter(a: Key, b: Key, c: Key, backwards: bool)
    requires Before(a, b, backwards) && (b == c || Before(b, c, backwards))
    ensures Before(a, c, backwards) && a != c
  {
    if b != c { BeforeTrans(a, b, c, backwards); }
    BeforeTotal(a, a, backwards);
  }

  lemma HasTail<T(!new)>(xs: seq<KV<T>>, k: Key)
    requires xs != []
    ensures Has(xs, k) <==> xs[0].key == k || Has(xs[1..], k)
  {
    if Has(xs, k) && xs[0].key != k {
      var i :| 0 <= i < |xs| && xs[i].key == k;
      assert xs[1..][i - 1].key == k;
    }
    if Has(xs[1..], k) {
      var i :| 0 <= i < |xs[1..]| && xs[1..][i].key == k;
      assert xs[i + 1].key == k;
    }
  }

  lemma NotHas<T(!new)>(xs: seq<KV<T>>, k: Key, backwards: bool)
    requires Ordered(xs, backwards) && xs != [] && Before(k, xs[0].key, backwards)
    ensures !Has(xs, k)
  {
    forall i | 0 <= i < |xs| ensures xs[i].key != k {
      After(xs, xs[i], backwards);
      KeyAfter(k, xs[0].key, xs[i].key, backwards);
    }
  }

  lemma {:induction false} MergedOrdered(mem: seq<Change>, under: seq<KV<Value>>, backwards: bool)
    requires Ordered(mem, backwards) && Ordered(under, backwards)
    ensures Ordered(Merged(mem, under, backwards), backwards)
  {
    if mem == [] {
    } else if under == [] {
      LiveOrdered(mem, backwards);
    } else if Before(mem[0].key, under[0].key, backwards) {
      var rest := Merged(mem[1..], under, backwards);
      MergedOrdered(mem[1..], under, backwards);
      forall x | x in rest ensures Before(mem[0].key, x.key, backwards) {
        MergedHas(mem[1..], under, backwards, x);
        if x in under {
          After(under, x, backwards);
          KeyAfter(mem[0].key, under[0].key, x.key, backwards);
        }
      }
      assert Live(mem[..1]) == if mem[0].value.Some? then [KV(mem[0].key, mem[0].value.value)] else [] by {
        assert mem[..1][1..] == [];
      }
      if mem[0].value.Some? {
        OrderedCons(KV(mem[0].key, mem[0].value.value), rest, backwards);
      } else {
        assert [] + rest == rest;
      }
    } else {
      var rest := Merged(mem, under[1..], backwards);
      MergedOrdered(mem, under[1..], backwards);
      BeforeTotal(mem[0].key, under[0].key, backwards);
      if mem[0].key != under[0].key {
        forall x | x in rest ensures Before(under[0].key, x.key, backwards) {
          MergedHas(mem, under[1..], backwards, x);
          if x !in under[1..] {
            After(mem, KV(x.key, Some(x.value)), backwards);
            KeyAfter(under[0].key, mem[0].key, x.key, backwards);
          }
        }
        OrderedCons(under[0], rest, backwards);
      }
    }
  }

  lemma OrderedCons<T(!new)>(x: KV<T>, xs: seq<KV<T>>, backwards: bool)
    requires Ordered(xs, backwards) && forall y :: y in xs ==> Before(x.key, y.key, backwards)
    ensures Ordered([x] + xs, backwards)
  {
  }

  lemma {:induction false} LiveOrdered(mem: seq<Change>, backwards: bool)
    requires Ordered(mem, backwards)
    ensures Ordered(Live(mem), backwards)
  {
    if mem != [] {
      LiveOrdered(mem[1..], backwards);
      forall x | x in Live(mem[1..]) ensures Before(mem[0].key, x.key, backwards) {
        LiveHas(mem[1..], x);
      }
      if mem[0].value.Some? { OrderedCons(KV(mem[0].key, mem[0].value.value), Live(mem[1..]), backwards); }
    }
  }

  /** Merging the listing of the changes with that of the lower map lists the map they stand for. */
  lemma {:induction false} MergedListing(mem: seq<Change>, changes: Changes, under: seq<KV<Value>>, m: map<Key, Value>, rng: Range)
    requires IsListing(mem, changes, rng) && IsListing(under, m, rng)
    ensures IsListing(Merged(mem, under, rng.backwards), Flat(m, changes), rng)
  {
    var xs := Merged(mem, under, rng.backwards);
    MergedOrdered(mem, under, rng.backwards);
    forall i | 0 <= i < |xs|
      ensures InRange(xs[i].key, rng) && xs[i].key in Flat(m, changes) && Flat(m, changes)[xs[i].key] == xs[i].value
    {
      var x := xs[i];
      MergedHas(mem, under, rng.backwards, x);
      if KV(x.key, Some(x.value)) !in mem {
        assert x.key in changes && InRange(x.key, rng) ==> Has(mem, x.key);
      }
    }
    forall k | k in Flat(m, changes) && InRange(k, rng) ensures Has(xs, k) {
      var x := KV(k, Flat(m, changes)[k]);
      MergedHas(mem, under, rng.backwards, x);
      if k in changes {
        assert Has(mem, k);
      } else {
        assert Has(under, k);
      }
      assert x in xs;
    }
  }

  // ---- callbacks ----

  /**
   What a seek hands its entries to: the caller's function, which decides from what it has seen so far
   whether to go on, or the merge of an upper layer with the changes that are still to be handed on.
   `last` is the key that was looked at last.
   */
  datatype Sink =
    | Callback(seen: seq<KV<Value>>, go: seq<KV<Value>> -> bool)
    | Merge(rest: seq<Change>, last: seq<Byte>, done: bool, backwards: bool, next: Sink)
  {
    function Depth(): nat {
      match this case Callback(_, _) => 0 case Merge(_, _, _, _, n) => n.Depth() + 1
    }
  }

  /** The number of changes that come before a key. */
  function Leading(rest: seq<Change>, k: Key, backwards: bool): (n: nat)
    ensures n <= |rest|
    ensures forall i :: 0 <= i < n ==> Before(rest[i].key, k, backwards)
    ensures n < |rest| ==> !Before(rest[n].key, k, backwards)
  {
    if rest == [] || !Before(rest[0].key, k, backwards) then 0 else 1 + Leading(rest[1..], k, backwards)
  }

  /** The key in hand after `n` changes. */
  function Current(rest: seq<Change>, last: seq<Byte>, n: nat): seq<Byte>
    requires n <= |rest|
  {
    if n < |rest| then rest[n].key else if n > 0 then rest[n - 1].key else last
  }

  /** Hands one entry over; the second result says whether more is wanted. */
  function Give(s: Sink, x: KV<Value>): (r: (Sink, bool))
    ensures r.0.Depth() == s.Depth()
    ensures s.Merge? ==> r.0.Merge? && (r.0.done <==> !r.1)
    decreases s.Depth(), 0
  {
    match s
    case Callback(seen, go) => (Callback(seen + [x], go), go(seen + [x]))
    case Merge(rest, last, done, backwards, next) =>
      if done then (s, false)
      else
        var n := Leading(rest, x.key, backwards);
        var key := Current(rest, last, n);
        var (next', more) := Feed(next, Live(rest[..n]) + if key == x.key then [] else [x]);
        if more then (Merge(rest[n..], key, false, backwards, next'), true)
        else (Merge([], [], true, backwards, next'), false)
  }

  /** Hands entries over for as long as more is wanted. */
  function Feed(s: Sink, xs: seq<KV<Value>>): (r: (Sink, bool))
    ensures r.0.Depth() == s.Depth()
    ensures s.Merge? ==> r.0.Merge?
    decreases s.Depth(), |xs|
  {
    if xs == [] then (s, true)
    else
      var (s', more) := Give(s, xs[0]);
      if more then Feed(s', xs[1..]) else (s', false)
  }

  lemma {:induction false} FeedConcat(s: Sink, a: seq<KV<Value>>, b: seq<KV<Value>>)
    ensures Feed(s, a + b) == if Feed(s, a).1 then Feed(Feed(s, a).0, b) else Feed(s, a)
    decreases |a|
  {
    if a == [] {
      assert a + b == b;
    } else {
      assert (a + b)[1..] == a[1..] + b;
      if Give(s, a[0]).1 { FeedConcat(Give(s, a[0]).0, a[1..], b); }
    }
  }

  /** A caller's function sees the entries up to and including the first at which it stops. */
  lemma {:induction false} CallbackSees(seen: seq<KV<Value>>, go: seq<KV<Value>> -> bool, xs: seq<KV<Value>>) returns (n: nat)
    ensures n <= |xs| && (xs != [] ==> n > 0)
    ensures Feed(Callback(seen, go), xs).0 == Callback(seen + xs[..n], go)
    ensures forall i :: 0 < i < n ==> go(seen + xs[..i])
    ensures n < |xs| ==> !go(seen + xs[..n])
    decreases |xs|
  {
    n := 0;
    if xs == [] {
      assert seen + xs[..0] == seen;
    } else if go(seen + [xs[0]]) {
      var m := CallbackSees(seen + [xs[0]], go, xs[1..]);
      n := m + 1;
      assert forall i :: 1 <= i <= |xs| ==> seen + [xs[0]] + xs[1..][..i - 1] == seen + xs[..i];
      assert xs[..1] == [xs[0]];
    } else {
      n := 1;
      assert xs[..1] == [xs[0]];
    }
  }

  // ---- a merge hands on the merged list ----

  /** `n` changes, then the first entry unless it is changed, then the merge of what is left. */
  function MergedFrom(mem: seq<Change>, under: seq<KV<Value>>, n: nat, backwards: bool): seq<KV<Value>>
    requires n <= |mem| && under != []
  {
    Live(mem[..n])
    + (if n < |mem| && mem[n].key == under[0].key then [] else [under[0]])
    + Merged(mem[n..], under[1..], backwards)
  }

  lemma {:induction false} MergedLeading(mem: seq<Change>, under: seq<KV<Value>>, backwards: bool)
    requires Ordered(mem, backwards) && under != []
    ensures Merged(mem, under, backwards) == MergedFrom(mem, under, Leading(mem, under[0].key, backwards), backwards)
  {
    var n := Leading(mem, under[0].key, backwards);
    if n == 0 {
      NoneLeading(mem, under, backwards);
    } else {
      MergedLeading(mem[1..], under, backwards);
      LeadingStep(mem, under, backwards);
    }
  }

  lemma NoneLeading(mem: seq<Change>, under: seq<KV<Value>>, backwards: bool)
    requires under != [] && (mem == [] || !Before(mem[0].key, under[0].key, backwards))
    ensures Merged(mem, under, backwards) == MergedFrom(mem, under, 0, backwards)
  {
    assert mem[0..] == mem && mem[..0] == [];
    var x := if 0 < |mem| && mem[0].key == under[0].key then [] else [under[0]];
    NoneBefore(x, Merged(mem, under[1..], backwards));
    assert mem == [] ==> under == [under[0]] + under[1..];
  }

  lemma NoneBefore(x: seq<KV<Value>>, r: seq<KV<Value>>)
    ensures Live([]) + x + r == x + r && (x == [] ==> x + r == r)
  {
  }

  lemma LeadingStep(mem: seq<Change>, under: seq<KV<Value>>, backwards: bool)
    requires mem != [] && under != [] && Before(mem[0].key, under[0].key, backwards)
    ensures var n := Leading(mem, under[0].key, backwards);
      && n == 1 + Leading(mem[1..], under[0].key, backwards)
      && Live(mem[..1]) + MergedFrom(mem[1..], under, n - 1, backwards) == MergedFrom(mem, under, n, backwards)
  {
    var n := Leading(mem, under[0].key, backwards);
    assert mem[..n] == mem[..1] + mem[1..][..n - 1];
    assert mem[n..] == mem[1..][n - 1..];
    LiveConcat(mem[..1], mem[1..][..n - 1]);
    var x := if n < |mem| && mem[n].key == under[0].key then [] else [under[0]];
    Reassociate(Live(mem[..1]), Live(mem[1..][..n - 1]), x, Merged(mem[n..], under[1..], backwards));
  }

  lemma Reassociate(a: seq<KV<Value>>, b: seq<KV<Value>>, x: seq<KV<Value>>, r: seq<KV<Value>>)
    ensures a + (b + x + r) == (a + b) + x + r
  {
  }

  /** What is left over when the lower layer has no more entries. */
  function Drained(s: Sink): Sink
    requires s.Merge?
  {
    if s.done then s.next else Feed(s.next, Live(s.rest)).0
  }

  /** The layers below need not know: the caller gets the merged list, up to where it stops. */
  lemma {:induction false} MergeFeeds(next: Sink, rest: seq<Change>, last: seq<Byte>, under: seq<KV<Value>>, backwards: bool)
    requires Ordered(rest, backwards) && Ordered(under, backwards)
    requires last == [] || rest != [] || (under != [] ==> Before(last, under[0].key, backwards))
    ensures Drained(Feed(Merge(rest, last, false, backwards, next), under).0) == Feed(next, Merged(rest, under, backwards)).0
    decreases |under|
  {
    if under == [] {
      assert rest == [] ==> Live(rest) == [];
    } else {
      var x := under[0];
      var n := Leading(rest, x.key, backwards);
      var key := Current(rest, last, n);
      CurrentIs(rest, last, x, n, backwards);
      MergedLeading(rest, under, backwards);
      var sent := Live(rest[..n]) + if key == x.key then [] else [x];
      FeedConcat(next, sent, Merged(rest[n..], under[1..], backwards));
      var (next', more) := Feed(next, sent);
      if more {
        if n == |rest| && under[1..] != [] { KeyAfterLast(key, x.key, under[1].key, backwards); }
        MergeFeeds(next', rest[n..], key, under[1..], backwards);
      }
    }
  }

  lemma CurrentIs(rest: seq<Change>, last: seq<Byte>, x: KV<Value>, n: nat, backwards: bool)
    requires n == Leading(rest, x.key, backwards)
    requires last == [] || rest != [] || Before(last, x.key, backwards)
    ensures Current(rest, last, n) == x.key <==> n < |rest| && rest[n].key == x.key
    ensures n == |rest| ==> Current(rest, last, n) == [] || Before(Current(rest, last, n), x.key, backwards)
  {
    BeforeTotal(x.key, x.key, backwards);
  }

  lemma KeyAfterLast(last: seq<Byte>, a: Key, b: Key, backwards: bool)
    requires last == [] || Before(last, a, backwards)
    requires Before(a, b, backwards)
    ensures last == [] || Before(last, b, backwards)
  {
    if last != [] { BeforeTrans(last, a, b, backwards); }
  }
}
