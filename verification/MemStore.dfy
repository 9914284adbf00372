/**
 Stacks of stores (pkg/core/storage/memory_store.go, memcached_store.go): each layer keeps the
 changes to the layer below in two maps, and behaves like one plain map.
 */
module MemStore {
  import opened Wrappers
  import opened Storage
  import opened Seek
  import opened SeekCursor

  const STStorage: Byte := 0x70
  const STTempStorage: Byte := 0x71

  /** Contract storage has a map of its own. */
  predicate IsStor(k: Key) {
    k[0] == STStorage || k[0] == STTempStorage
  }

  /** The changes of a layer, each in the map for its key. */
  ghost predicate Split(mem: Changes, stor: Changes) {
    (forall k :: k in mem ==> !IsStor(k)) && (forall k :: k in stor ==> IsStor(k))
  }

  /** Applied writes: a value to put, or None to delete. */
  function Writes(m: map<Key, Value>, ws: seq<KV<Option<Value>>>): map<Key, Value> {
    if ws == [] then m
    else
      var w := ws[|ws| - 1];
      var m' := Writes(m, ws[..|ws| - 1]);
      if w.value.Some? then m'[w.key := w.value.value] else m' - {w.key}
  }

  /** `contents` is the plain map for these changes over `under`; kept out of sight of the methods. */
  ghost predicate LayerOk(under: map<Key, Value>, mem: Changes, stor: Changes, contents: map<Key, Value>) {
    forall m: Changes {:trigger Mention(m)} :: m == mem ==> Split(m, stor) && contents == Flat(under, m + stor)
  }

  lemma LayerIs(under: map<Key, Value>, mem: Changes, stor: Changes, contents: map<Key, Value>)
    ensures LayerOk(under, mem, stor, contents) <==> Split(mem, stor) && contents == Flat(under, mem + stor)
  {
    assert Mention(mem);
  }

  lemma LayerNone(under: map<Key, Value>, mem: Changes, stor: Changes)
    requires |mem| == 0 && |stor| == 0
    ensures mem == map[] && stor == map[]
    ensures forall contents :: LayerOk(under, mem, stor, contents) <==> contents == under
  {
    FlatNone(under, mem, stor);
    forall contents ensures LayerOk(under, mem, stor, contents) <==> contents == under {
      LayerIs(under, mem, stor, contents);
    }
  }

  lemma ChangeOne(mem: Changes, stor: Changes, k: Key, o: Option<Value>)
    requires Split(mem, stor)
    ensures IsStor(k) ==> Split(mem, stor[k := o]) && mem + stor[k := o] == (mem + stor)[k := o]
    ensures !IsStor(k) ==> Split(mem[k := o], stor) && mem[k := o] + stor == (mem + stor)[k := o]
  {
  }

  lemma ChangeMany(mem: Changes, stor: Changes, puts: Changes, stores: Changes)
    requires Split(mem, stor) && Split(puts, stores)
    ensures Split(mem + puts, stor + stores) && (mem + puts) + (stor + stores) == (mem + stor) + (puts + stores)
  {
  }

  /** A change of one key is made in the map that the key belongs to. */
  lemma LayerPut(under: map<Key, Value>, mem: Changes, stor: Changes, contents: map<Key, Value>, k: Key, v: Value)
    requires LayerOk(under, mem, stor, contents)
    ensures IsStor(k) ==> LayerOk(under, mem, stor[k := Some(v)], contents[k := v])
    ensures !IsStor(k) ==> LayerOk(under, mem[k := Some(v)], stor, contents[k := v])
  {
    LayerIs(under, mem, stor, contents);
    FlatPut(under, mem + stor, k, v);
    ChangeOne(mem, stor, k, Some(v));
    LayerIs(under, mem, stor[k := Some(v)], contents[k := v]);
    LayerIs(under, mem[k := Some(v)], stor, contents[k := v]);
  }

  lemma LayerDelete(under: map<Key, Value>, mem: Changes, stor: Changes, contents: map<Key, Value>, k: Key)
    requires LayerOk(under, mem, stor, contents)
    ensures IsStor(k) ==> LayerOk(under, mem, stor[k := None], contents - {k})
    ensures !IsStor(k) ==> LayerOk(under, mem[k := None], stor, contents - {k})
  {
    LayerIs(under, mem, stor, contents);
    FlatDelete(under, mem + stor, k);
    ChangeOne(mem, stor, k, None);
    LayerIs(under, mem, stor[k := None], contents - {k});
    LayerIs(under, mem[k := None], stor, contents - {k});
  }

  /** Two layers are one: their changes join, the upper ones win. */
  lemma LayersJoin(under: map<Key, Value>, mem: Changes, stor: Changes, middle: map<Key, Value>,
    puts: Changes, stores: Changes, contents: map<Key, Value>)
    requires LayerOk(under, mem, stor, middle) && LayerOk(middle, puts, stores, contents)
    ensures LayerOk(under, mem + puts, stor + stores, contents)
  {
    LayerIs(under, mem, stor, middle);
    LayerIs(middle, puts, stores, contents);
    FlatCompose(under, mem + stor, puts + stores);
    ChangeMany(mem, stor, puts, stores);
    LayerIs(under, mem + puts, stor + stores, contents);
  }

  /** Once the map below has taken the changes over, they change nothing. */
  lemma LayerTwice(under: map<Key, Value>, mem: Changes, stor: Changes, contents: map<Key, Value>)
    requires LayerOk(under, mem, stor, contents)
    ensures LayerOk(contents, mem, stor, contents)
  {
    LayerIs(under, mem, stor, contents);
    FlatTwice(under, mem + stor);
    LayerIs(contents, mem, stor, contents);
  }

  /** The keys of a range are all in the map of its prefix. */
  lemma InOneMap(mem: Changes, stor: Changes, rng: Range)
    requires Split(mem, stor)
    ensures var m := if IsStor(rng.prefix) then stor else mem;
      forall k: Key :: InRange(k, rng) ==> ((k in m <==> k in mem + stor) && (k in m ==> m[k] == (mem + stor)[k]))
  {
    forall k: Key | InRange(k, rng) ensures IsStor(k) <==> IsStor(rng.prefix) {
      assert k[0] == k[..|rng.prefix|][0];
    }
  }

  lemma SameListing<T(!new)>(xs: seq<KV<T>>, m: map<Key, T>, m': map<Key, T>, rng: Range)
    requires IsListing(xs, m, rng)
    requires forall k: Key :: InRange(k, rng) ==> ((k in m <==> k in m') && (k in m ==> m[k] == m'[k]))
    ensures IsListing(xs, m', rng)
  {
  }

  /** The cursor at the first of the sorted changes. */
  function Start(memRes: seq<Change>, backwards: bool, next: Visitor): Visitor {
    if memRes == [] then Cursor([], 0, [], None, false, false, backwards, next)
    else Cursor(memRes, 1, memRes[0].key, memRes[0].value, true, false, backwards, next)
  }

  lemma StartIs(memRes: seq<Change>, backwards: bool, next: Visitor)
    requires VisitorOk(next)
    ensures var v := Start(memRes, backwards, next);
      && VisitorOk(v) && v.Cursor?
      && Abs(v) == Merge(memRes, if memRes == [] then [] else memRes[0].key, false, backwards, Abs(next))
  {
    assert memRes[0..] == memRes;
  }

  /** A layer over the store `ps`, or the store in memory at the bottom when there is none. */
  class MemCachedStore {
    var mem: Changes
    var stor: Changes
    const private: bool
    var ps: MemCachedStore?
    ghost var repr: set<MemCachedStore>

    /** The plain map that the stack behaves like. */
    ghost var contents: map<Key, Value>

    ghost predicate Valid()
      reads this, repr
      decreases repr
    {
      && this in repr && (ps == null ==> repr == {this})
      && (ps != null ==> ps in repr && ps.repr < repr && this !in ps.repr && repr == {this} + ps.repr && ps.Valid())
      && LayerOk(Under(), mem, stor, contents)
    }

    /** The map below this layer. */
    ghost function Under(): map<Key, Value>
      reads this, ps
    {
      if ps == null then map[] else ps.contents
    }

    constructor (lower: MemCachedStore?, private: bool)
      requires lower != null ==> lower.Valid()
      ensures Valid() && ps == lower && this.private == private && mem == map[] && stor == map[]
      ensures repr == {this} + if lower == null then {} else lower.repr
      ensures contents == if lower == null then map[] else lower.contents
    {
      mem, stor, ps, this.private := map[], map[], lower, private;
      repr := {this} + if lower == null then {} else lower.repr;
      contents := if lower == null then map[] else lower.contents;
      LayerNone(if lower == null then map[] else lower.contents, map[], map[]);
    }

    method Get(key: Key) returns (r: Option<Value>)
      requires Valid()
      ensures r == if key in contents then Some(contents[key]) else None
      decreases repr
    {
      LayerIs(Under(), mem, stor, contents);
      var m := if IsStor(key) then stor else mem;
      if key in m {
        return m[key];
      }
      if ps == null {
        return None;
      }
      r := ps.Get(key);
    }

    method Put(key: Key, value: Value)
      requires Valid()
      modifies this`mem, this`stor, this`contents
      ensures Valid() && contents == old(contents)[key := value] && Under() == old(Under())
    {
      LayerPut(Under(), mem, stor, contents, key, value);
      if IsStor(key) {
        stor := stor[key := Some(value)];
      } else {
        mem := mem[key := Some(value)];
      }
      contents := contents[key := value];
    }

    method Delete(key: Key)
      requires Valid()
      modifies this`mem, this`stor, this`contents
      ensures Valid() && contents == old(contents) - {key} && Under() == old(Under())
    {
      LayerDelete(Under(), mem, stor, contents, key);
      if IsStor(key) {
        stor := stor[key := None];
      } else {
        mem := mem[key := None];
      }
      contents := contents - {key};
    }

    /** Takes over a set of changes. */
    method PutChangeSet(puts: Changes, stores: Changes, ghost after: map<Key, Value>)
      requires Valid() && LayerOk(contents, puts, stores, after)
      modifies this`mem, this`stor, this`contents
      ensures Valid() && contents == after && Under() == old(Under())
    {
      LayersJoin(Under(), mem, stor, contents, puts, stores, after);
      mem, stor := mem + puts, stor + stores;
      contents := after;
    }

    /**
     Hands the entries of the range to the callback, in order and once each, until it stops; `xs`
     are the entries of the plain map, so layers and deleted keys do not show.
     */
    method Seek(rng: Range, f: Visitor) returns (f': Visitor, ghost xs: seq<KV<Value>>)
      requires Valid() && VisitorOk(f)
      ensures VisitorOk(f') && IsListing(xs, contents, rng) && Abs(f') == Feed(Abs(f), xs).0
      decreases repr
    {
      if ps == null {
        f', xs := SeekBottom(rng, f);
        return;
      }
      var m := if IsStor(rng.prefix) then stor else mem;
      LayerIs(Under(), mem, stor, contents);
      InOneMap(mem, stor, rng);
      var memRes := SortedRange(m, rng);
      SameListing(memRes, m, mem + stor, rng);
      StartIs(memRes, rng.backwards, f);
      ghost var under;
      var v;
      v, under := ps.Seek(rng, Start(memRes, rng.backwards, f));
      f' := Drain(v);
      xs := Merged(memRes, under, rng.backwards);
      MergedListing(memRes, mem + stor, under, ps.contents, rng);
      MergeFeeds(Abs(f), memRes, if memRes == [] then [] else memRes[0].key, under, rng.backwards);
    }

    method SeekBottom(rng: Range, f: Visitor) returns (f': Visitor, ghost xs: seq<KV<Value>>)
      requires Valid() && VisitorOk(f) && ps == null
      ensures VisitorOk(f') && IsListing(xs, contents, rng) && Abs(f') == Feed(Abs(f), xs).0
    {
      var m := if IsStor(rng.prefix) then stor else mem;
      LayerIs(Under(), mem, stor, contents);
      InOneMap(mem, stor, rng);
      var list := SortedRange(Flat(map[], m), rng);
      SameListing(list, Flat(map[], m), contents, rng);
      var more;
      f', more := VisitAll(f, list);
      xs := list;
    }

    // ---- persist ----

    /** Hands all changes of a private layer to the store below. `fails` says that this returns an error. */
    method PersistPrivate(fails: bool) returns (keys: nat)
      requires Valid() && private && ps != null
      modifies this`mem, this`stor, ps`mem, ps`stor, ps`contents
      ensures Valid() && contents == old(contents) && keys == if fails then 0 else old(|mem| + |stor|)
      ensures !fails ==> ps.contents == old(contents) && mem == map[] && stor == map[]
      ensures fails ==> ps.contents == old(ps.contents) && mem == old(mem) && stor == old(stor)
    {
      keys := |mem| + |stor|;
      if keys == 0 {
        LayerNone(ps.contents, mem, stor);
        return;
      }
      if fails {
        return 0;
      }
      ps.PutChangeSet(mem, stor, contents);
      mem, stor := map[], map[];
      LayerNone(ps.contents, mem, stor);
    }

    /**
     First locked section of persist: the changes move to a store of their own, between this layer
     and the one below; writers go on with empty maps.
     */
    method BeginPersist() returns (temp: MemCachedStore)
      requires Valid() && !private && ps != null
      modifies this`mem, this`stor, this`ps, this`repr
      ensures Valid() && fresh(temp) && ps == temp && temp.ps == old(ps) && temp.ps != null
      ensures repr == old(repr) + {temp} && temp.repr == {temp} + temp.ps.repr
      ensures contents == old(contents) && temp.contents == old(contents) && temp.ps.contents == old(ps.contents)
      ensures mem == map[] && stor == map[] && temp.mem == old(mem) && temp.stor == old(stor)
    {
      temp := new MemCachedStore(ps, false);
      temp.mem, temp.stor, temp.contents := mem, stor, contents;
      ps, mem, stor := temp, map[], map[];
      repr := {this} + temp.repr;
      LayerNone(temp.contents, mem, stor);
    }

    /** Between the locked sections: the lower store takes the changes over. */
    method Flush(temp: MemCachedStore)
      requires Valid() && ps == temp && temp.ps != null
      modifies temp.ps`mem, temp.ps`stor, temp.ps`contents
      ensures Valid() && contents == old(contents)
      ensures temp.contents == old(temp.contents) && temp.ps.contents == old(temp.contents)
    {
      LayerTwice(temp.ps.contents, temp.mem, temp.stor, temp.contents);
      temp.ps.PutChangeSet(temp.mem, temp.stor, temp.contents);
    }

    /**
     Second locked section: the store in between goes away again. After a failure the changes made
     meanwhile join the old ones.
     */
    method EndPersist(temp: MemCachedStore, fails: bool)
      requires Valid() && ps == temp && temp.ps != null
      requires !fails ==> temp.contents == temp.ps.contents
      modifies this`mem, this`stor, this`ps, this`repr
      ensures Valid() && ps == temp.ps && contents == old(contents) && ps.contents == old(temp.ps.contents)
      ensures repr == old(repr) - {temp}
    {
      assert temp.Valid() && temp.ps.Valid();
      if fails {
        LayersJoin(temp.ps.contents, temp.mem, temp.stor, temp.contents, mem, stor, contents);
        mem, stor := temp.mem + mem, temp.stor + stor;
      }
      ps := temp.ps;
      repr := {this} + ps.repr;
    }

    /** Any number of writes. */
    method WriteAll(ws: seq<KV<Option<Value>>>)
      requires Valid()
      modifies this`mem, this`stor, this`contents
      ensures Valid() && contents == Writes(old(contents), ws) && Under() == old(Under())
    {
      var i := 0;
      while i < |ws|
        modifies this`mem, this`stor, this`contents
        invariant 0 <= i <= |ws| && Valid() && contents == Writes(old(contents), ws[..i]) && Under() == old(Under())
      {
        assert ws[..i + 1][..i] == ws[..i];
        if ws[i].value.Some? {
          Put(ws[i].key, ws[i].value.value);
        } else {
          Delete(ws[i].key);
        }
        i := i + 1;
      }
      assert ws[..i] == ws;
    }

    /**
     Persist with writes `before` and `after` the flush, by others: what is read is always the old
     map with these writes, and on success the lower store holds the map of the start.
     */
    method Persist(before: seq<KV<Option<Value>>>, after: seq<KV<Option<Value>>>, fails: bool) returns (keys: nat)
      requires Valid() && !private && ps != null
      modifies this`mem, this`stor, this`ps, this`repr, this`contents, ps`mem, ps`stor, ps`contents
      ensures Valid() && ps == old(ps) && repr == old(repr)
      ensures contents == Writes(Writes(old(contents), before), after)
      ensures ps.contents == (if fails then old(ps.contents) else old(contents)) && keys == old(|mem| + |stor|)
    {
      keys := |mem| + |stor|;
      if keys == 0 {
        LayerNone(ps.contents, mem, stor);
        WriteAll(before);
        WriteAll(after);
        return;
      }
      var temp := BeginPersist();
      WriteAll(before);
      if !fails {
        Flush(temp);
      }
      WriteAll(after);
      EndPersist(temp, fails);
    }
  }
}
