/**
 Key-value maps with pending changes (pkg/core/storage): what a layer of changes over a map means,
 and the ordered listing of a map that a seek produces.
 */
module Storage {
  import opened Wrappers

  type Key = k: seq<Byte> | |k| > 0 witness [0]
  type Value = seq<Byte>

  /** Pending changes; None marks a deleted key. */
  type Changes = map<Key, Option<Value>>

  /** The map that changes over a map stand for. */
  function Flat(under: map<Key, Value>, changes: Changes): (r: map<Key, Value>)
    ensures forall k :: k in r <==> if k in changes then changes[k].Some? else k in under
    ensures forall k :: k in r ==> r[k] == if k in changes then changes[k].value else under[k]
  {
    map k | k in under.Keys + changes.Keys && (k in changes ==> changes[k].Some?) ::
      if k in changes then changes[k].value else under[k]
  }

  lemma FlatCompose(under: map<Key, Value>, a: Changes, b: Changes)
    ensures Flat(Flat(under, a), b) == Flat(under, a + b)
  {
  }

  lemma FlatPut(under: map<Key, Value>, a: Changes, k: Key, v: Value)
    ensures Flat(under, a[k := Some(v)]) == Flat(under, a)[k := v]
  {
  }

  lemma FlatDelete(under: map<Key, Value>, a: Changes, k: Key)
    ensures Flat(under, a[k := None]) == Flat(under, a) - {k}
  {
  }

  /** Changes that were taken over may be looked at again. */
  lemma FlatTwice(under: map<Key, Value>, a: Changes)
    ensures Flat(Flat(under, a), a) == Flat(under, a)
  {
  }

  lemma FlatNone(under: map<Key, Value>, a: Changes, b: Changes)
    requires |a| == 0 && |b| == 0
    ensures a + b == map[] && a == map[] && b == map[] && Flat(under, a + b) == under
  {
  }

  // ---- order ----

  /** Byte-wise order, a prefix before its extensions. */
  predicate Less(a: seq<Byte>, b: seq<Byte>) {
    if b == [] then false
    else if a == [] then true
    else a[0] < b[0] || (a[0] == b[0] && Less(a[1..], b[1..]))
  }

  /** The first byte in which the two differ decides, and a start comes before the whole. */
  lemma {:induction false} LessExactly(a: seq<Byte>, b: seq<Byte>)
    ensures Less(a, b) <==> (a <= b && a != b) || exists i :: 0 <= i < |a| && i < |b| && a[..i] == b[..i] && a[i] < b[i]
  {
    if a != [] && b != [] && a[0] == b[0] {
      var c, d := a[1..], b[1..];
      LessExactly(c, d);
      assert a == [a[0]] + c && b == [a[0]] + d;
      if i :| 0 <= i < |c| && i < |d| && c[..i] == d[..i] && c[i] < d[i] {
        assert a[..i + 1] == [a[0]] + c[..i] && b[..i + 1] == [a[0]] + d[..i];
        assert a[i + 1] < b[i + 1];
      }
      if i :| 0 <= i < |a| && i < |b| && a[..i] == b[..i] && a[i] < b[i] {
        assert a[..i][1..] == c[..i - 1] && b[..i][1..] == d[..i - 1];
        assert c[i - 1] < d[i - 1];
      }
    } else if a != [] && b != [] {
      assert a[..0] == b[..0];
    }
  }

  lemma {:induction false} LessTotal(a: seq<Byte>, b: seq<Byte>)
    ensures Less(a, b) || a == b || Less(b, a)
    ensures !(Less(a, b) && Less(b, a)) && !Less(a, a)
  {
    if a != [] && b != [] && a[0] == b[0] {
      LessTotal(a[1..], b[1..]);
      assert a == [a[0]] + a[1..] && b == [b[0]] + b[1..];
    }
    if a != [] { LessTotal(a[1..], a[1..]); }
  }

  lemma {:induction false} LessTrans(a: seq<Byte>, b: seq<Byte>, c: seq<Byte>)
    requires Less(a, b) && Less(b, c)
    ensures Less(a, c)
  {
    if a != [] && a[0] == b[0] == c[0] { LessTrans(a[1..], b[1..], c[1..]); }
  }

  /** The order of a seek. */
  predicate Before(a: seq<Byte>, b: seq<Byte>, backwards: bool) {
    if backwards then Less(b, a) else Less(a, b)
  }

  lemma BeforeTotal(a: seq<Byte>, b: seq<Byte>, backwards: bool)
    ensures Before(a, b, backwards) || a == b || Before(b, a, backwards)
    ensures !(Before(a, b, backwards) && Before(b, a, backwards)) && !Before(a, a, backwards)
  {
    LessTotal(a, b);
    LessTotal(a, a);
  }

  lemma BeforeTrans(a: seq<Byte>, b: seq<Byte>, c: seq<Byte>, backwards: bool)
    requires Before(a, b, backwards) && Before(b, c, backwards)
    ensures Before(a, c, backwards)
  {
    if backwards { LessTrans(c, b, a); } else { LessTrans(a, b, c); }
  }

  // ---- ranges and listings ----

  /** The keys with a prefix that follow, in the order of the seek, the given start. */
  datatype Range = Range(prefix: Key, start: seq<Byte>, backwards: bool)

  predicate HasPrefix(k: seq<Byte>, p: seq<Byte>) {
    |p| <= |k| && k[..|p|] == p
  }

  predicate InRange(k: seq<Byte>, rng: Range) {
    && HasPrefix(k, rng.prefix)
    && (rng.start == [] || !Before(k[|rng.prefix|..], rng.start, rng.backwards))
  }

  lemma {:induction false} LessBehind(prefix: seq<Byte>, a: seq<Byte>, b: seq<Byte>)
    ensures Less(prefix + a, prefix + b) <==> Less(a, b)
  {
    if prefix == [] {
      assert prefix + a == a && prefix + b == b;
    } else {
      assert (prefix + a)[1..] == prefix[1..] + a && (prefix + b)[1..] == prefix[1..] + b;
      LessBehind(prefix[1..], a, b);
    }
  }

  /** A range holds the keys with its prefix that are not before prefix and start, in the direction of the seek. */
  lemma {:induction false} RangeExactly(k: seq<Byte>, rng: Range)
    ensures InRange(k, rng) <==>
      && rng.prefix <= k
      && (rng.start == [] || k == rng.prefix + rng.start
        || if rng.backwards then Less(k, rng.prefix + rng.start) else Less(rng.prefix + rng.start, k))
  {
    if HasPrefix(k, rng.prefix) {
      var rest := k[|rng.prefix|..];
      assert k == rng.prefix + rest;
      LessBehind(rng.prefix, rest, rng.start);
      LessBehind(rng.prefix, rng.start, rest);
      LessTotal(rest, rng.start);
      assert k == rng.prefix + rng.start ==> rest == rng.start;
    }
  }

  datatype KV<T> = KV(key: Key, value: T)

  ghost predicate Ordered<T(!new)>(xs: seq<KV<T>>, backwards: bool) {
    forall i, j :: 0 <= i < j < |xs| ==> Before(xs[i].key, xs[j].key, backwards)
  }

  /** The entries of `m` in the range, once each, in order. */
  ghost predicate IsListing<T(!new)>(xs: seq<KV<T>>, m: map<Key, T>, rng: Range) {
    && Ordered(xs, rng.backwards)
    && (forall i :: 0 <= i < |xs| ==> InRange(xs[i].key, rng) && xs[i].key in m && m[xs[i].key] == xs[i].value)
    && (forall k :: k in m && InRange(k, rng) ==> Has(xs, k))
  }

  ghost predicate Has<T(!new)>(xs: seq<KV<T>>, k: Key) {
    exists i :: 0 <= i < |xs| && xs[i].key == k
  }

  /** There is only one such list. */
  lemma {:induction false} ListingUnique<T(!new)>(xs: seq<KV<T>>, ys: seq<KV<T>>, m: map<Key, T>, rng: Range)
    requires IsListing(xs, m, rng) && IsListing(ys, m, rng)
    ensures xs == ys
  {
    assert xs != [] ==> Has(ys, xs[0].key);
    assert ys != [] ==> Has(xs, ys[0].key);
    if xs != [] && ys != [] {
      FirstLeast(xs, ys, m, rng);
      FirstLeast(ys, xs, m, rng);
      BeforeTotal(xs[0].key, ys[0].key, rng.backwards);
      var m' := m - {xs[0].key};
      ListingTail(xs, m, rng);
      ListingTail(ys, m, rng);
      ListingUnique(xs[1..], ys[1..], m', rng);
      assert xs == [xs[0]] + xs[1..] && ys == [ys[0]] + ys[1..];
    }
  }

  lemma FirstLeast<T(!new)>(xs: seq<KV<T>>, ys: seq<KV<T>>, m: map<Key, T>, rng: Range)
    requires IsListing(xs, m, rng) && IsListing(ys, m, rng) && xs != [] && ys != []
    ensures xs[0].key == ys[0].key || Before(xs[0].key, ys[0].key, rng.backwards)
  {
    assert Has(xs, ys[0].key);
    var i :| 0 <= i < |xs| && xs[i].key == ys[0].key;
  }

  lemma ListingTail<T(!new)>(xs: seq<KV<T>>, m: map<Key, T>, rng: Range)
    requires IsListing(xs, m, rng) && xs != []
    ensures IsListing(xs[1..], m - {xs[0].key}, rng)
  {
    BeforeTotal(xs[0].key, xs[0].key, rng.backwards);
    var m' := m - {xs[0].key};
    forall i | 0 <= i < |xs[1..]| ensures xs[1..][i].key in m' {
      assert Before(xs[0].key, xs[i + 1].key, rng.backwards);
    }
    forall k | k in m' && InRange(k, rng) ensures Has(xs[1..], k) {
      assert Has(xs, k);
      var i :| 0 <= i < |xs| && xs[i].key == k;
      assert xs[1..][i - 1].key == k;
    }
  }
}
