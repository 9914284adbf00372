/**
 Keys and their paths (pkg/core/mpt/helpers.go): the order of nibble paths is the byte order of keys.
 */
module MptKeys {
  import opened Wrappers
  import opened MptTree
  import opened MptBatch
  import Storage

  /** The first byte of a key makes the first two nibbles, the high half first. */
  lemma {:induction false} FirstNibbles(key: seq<Byte>)
    requires key != []
    ensures var path := ToNibbles(key);
      && path == [path[0], path[1]] + ToNibbles(key[1..])
      && 16 * (path[0] as int) + path[1] as int == key[0]
  {
    var path, rest := ToNibbles(key), ToNibbles(key[1..]);
    forall j: nat | j < |rest| ensures path[j + 2] == rest[j] {
      var i := j / 2;
      assert key[1..][i] == key[i + 1];
      assert path[2 * (i + 1)] == rest[2 * i] && path[2 * (i + 1) + 1] == rest[2 * i + 1];
    }
  }

  lemma {:induction false} TwoNibbles(h: Nibble, l: Nibble, p: Path, h': Nibble, l': Nibble, q: Path)
    ensures var a, b := [h, l] + p, [h', l'] + q;
      && (LexLess(a, b) <==> h < h' || (h == h' && (l < l' || (l == l' && LexLess(p, q)))))
      && (a <= b <==> h == h' && l == l' && p <= q)
  {
    var a, b := [h, l] + p, [h', l'] + q;
    assert a[1..] == [l] + p && b[1..] == [l'] + q && a[1..][1..] == p && b[1..][1..] == q;
    assert a[2..] == p && b[2..] == q;
    if a <= b { assert b[..|a|][2..] == q[..|p|]; }
    if h == h' && l == l' && p <= q { assert b[..|a|] == a; }
  }

  /** Paths are ordered as their keys are, and one starts with another as their keys do. */
  lemma {:induction false} NibbleOrder(a: seq<Byte>, b: seq<Byte>)
    ensures LexLess(ToNibbles(a), ToNibbles(b)) <==> Storage.Less(a, b)
    ensures ToNibbles(a) <= ToNibbles(b) <==> a <= b
  {
    hide ToNibbles;
    if a != [] && b != [] {
      var p, q := ToNibbles(a), ToNibbles(b);
      FirstNibbles(a);
      FirstNibbles(b);
      TwoNibbles(p[0], p[1], ToNibbles(a[1..]), q[0], q[1], ToNibbles(b[1..]));
      NibbleOrder(a[1..], b[1..]);
      assert a == [a[0]] + a[1..] && b == [b[0]] + b[1..];
    }
  }
}
