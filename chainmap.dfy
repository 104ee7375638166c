/**
 * The `ChainMap` backport of distlib/compat.py: a list of mappings searched in order for
 * reads, while writes, deletions and `clear` act on the first mapping only.
 */
module ChainMaps {
  import opened Wrappers

  /** The value of `key` in the first mapping that has it. */
  function Lookup<K(!new), V>(ms: seq<map<K, V>>, key: K): Option<V>
  {
    if ms == [] then None
    else if key in ms[0] then Some(ms[0][key])
    else Lookup(ms[1..], key)
  }

  /** `Lookup` finds `key` in the earliest mapping holding it, and finds nothing iff no mapping holds it. */
  lemma {:induction false} LookupFirst<K(!new), V>(ms: seq<map<K, V>>, key: K)
    ensures Lookup(ms, key).None? <==> forall i :: 0 <= i < |ms| ==> key !in ms[i]
    ensures Lookup(ms, key).Some? ==>
      exists i :: 0 <= i < |ms| && key in ms[i] && ms[i][key] == Lookup(ms, key).value &&
        forall j :: 0 <= j < i ==> key !in ms[j]
  {
    if ms != [] && key !in ms[0] {
      LookupFirst(ms[1..], key);
      if Lookup(ms, key).Some? {
        var i :| 0 <= i < |ms[1..]| && key in ms[1..][i] && ms[1..][i][key] == Lookup(ms, key).value &&
                 forall j :: 0 <= j < i ==> key !in ms[1..][j];
        assert forall j :: 0 <= j < i + 1 ==> key !in ms[j] by {
          forall j | 0 <= j < i + 1 ensures key !in ms[j] {
            if j > 0 { assert ms[j] == ms[1..][j - 1]; }
          }
        }
        assert key in ms[i + 1];
      } else {
        forall i | 0 <= i < |ms| ensures key !in ms[i] {
          if i > 0 { assert ms[i] == ms[1..][i - 1]; }
        }
      }
    }
  }

  /** The union of the keys of all mappings. */
  function Union<K(!new), V>(ms: seq<map<K, V>>): (r: set<K>)
    ensures forall k :: k in r <==> exists i :: 0 <= i < |ms| && k in ms[i]
  {
    if ms == [] then {}
    else
      var rest := Union(ms[1..]);
      assert forall k :: k in rest <==> exists i :: 1 <= i < |ms| && k in ms[i] by {
        forall k | k in rest ensures exists i :: 1 <= i < |ms| && k in ms[i] {
          var i :| 0 <= i < |ms[1..]| && k in ms[1..][i];
          assert k in ms[i + 1];
        }
        forall k | (exists i :: 1 <= i < |ms| && k in ms[i]) ensures k in rest {
          var i :| 1 <= i < |ms| && k in ms[i];
          assert k in ms[1..][i - 1];
        }
      }
      ms[0].Keys + rest
  }

  /** A key is in the union iff a lookup finds it. */
  lemma UnionLookup<K(!new), V>(ms: seq<map<K, V>>, key: K)
    ensures key in Union(ms) <==> Lookup(ms, key).Some?
  {
    LookupFirst(ms, key);
  }

  /** Writing `key` into the first mapping makes it visible; every other lookup is unchanged. */
  lemma LookupPutFirst<K(!new), V>(ms: seq<map<K, V>>, key: K, value: V, k: K)
    requires ms != []
    ensures Lookup([ms[0][key := value]] + ms[1..], k) == if k == key then Some(value) else Lookup(ms, k)
  {
    assert ([ms[0][key := value]] + ms[1..])[1..] == ms[1..];
  }

  /** Deleting `key` from the first mapping exposes the value it has in the later ones. */
  lemma LookupRemoveFirst<K(!new), V>(ms: seq<map<K, V>>, key: K, k: K)
    requires ms != []
    ensures Lookup([ms[0] - {key}] + ms[1..], k) == if k == key then Lookup(ms[1..], k) else Lookup(ms, k)
  {
    assert ([ms[0] - {key}] + ms[1..])[1..] == ms[1..];
  }

  /** A new empty child hides nothing. */
  lemma LookupNewChild<K(!new), V>(ms: seq<map<K, V>>, k: K)
    ensures Lookup([map[]] + ms, k) == Lookup(ms, k)
  {
    assert ([map[]] + ms)[1..] == ms;
  }

  /** The mappings of `ChainMap(*maps)`: the given ones, or one empty mapping. */
  function Chain<K(!new), V>(ms: seq<map<K, V>>): (r: seq<map<K, V>>)
    ensures r != [] && (ms != [] ==> r == ms)
  {
    if ms == [] then [map[]] else ms
  }

  class ChainMap<K(==,!new), V> {
    /** `maps`; never empty. */
    var maps: seq<map<K, V>>

    ghost predicate Valid()
      reads this
    {
      maps != []
    }

    /** `ChainMap(*ms)`: the given mappings, or a single empty one. */
    constructor (ms: seq<map<K, V>>)
      ensures Valid() && maps == Chain(ms)
    {
      maps := Chain(ms);
    }

    /** `cm[key]`: the first mapping that has `key` answers; `KeyError` when none has it. */
    method GetItem(key: K) returns (r: Result<V, K>)
      requires Valid()
      ensures r.Ok? <==> Lookup(maps, key).Some?
      ensures r.Ok? ==> r.value == Lookup(maps, key).value
      ensures r.Err? ==> r.error == key
    {
      var i := 0;
      while i < |maps|
        invariant 0 <= i <= |maps|
        invariant Lookup(maps, key) == Lookup(maps[i..], key)
      {
        assert maps[i..][1..] == maps[i + 1..];
        if key in maps[i] {
          return Ok(maps[i][key]);
        }
        i := i + 1;
      }
      return Err(key);
    }

    /** `key in cm`: some mapping has `key`. */
    predicate Contains(key: K)
      reads this
    {
      exists i :: 0 <= i < |maps| && key in maps[i]
    }

    /** Membership agrees with lookup and with the union of keys that `iter(cm)` walks. */
    lemma ContainsIffLookup(key: K)
      ensures Contains(key) <==> Lookup(maps, key).Some?
      ensures Contains(key) <==> key in Union(maps)
    {
      LookupFirst(maps, key);
    }

    /** `cm.get(key, default)`: the looked-up value when some mapping has `key`, else the default. */
    method Get(key: K, default: V) returns (r: V)
      requires Valid()
      ensures Contains(key) ==> Lookup(maps, key) == Some(r)
      ensures !Contains(key) ==> r == default
    {
      LookupFirst(maps, key);
      if Contains(key) {
        var v := GetItem(key);
        return v.value;
      }
      return default;
    }

    /** `len(cm)`: the number of distinct keys over all mappings. */
    function Len(): (n: nat)
      reads this
      ensures n == |Union(maps)|
      ensures n == 0 <==> forall i :: 0 <= i < |maps| ==> maps[i] == map[]
    {
      var u := Union(maps);
      assert u == {} <==> forall i :: 0 <= i < |maps| ==> maps[i] == map[] by {
        if u != {} {
          var k :| k in u;
          var i :| 0 <= i < |maps| && k in maps[i];
          assert maps[i] != map[];
        } else {
          forall i | 0 <= i < |maps| ensures maps[i] == map[] {
            assert maps[i].Keys <= u;
          }
        }
      }
      |u|
    }

    /** `bool(cm)`: some mapping is non-empty. */
    predicate Bool()
      reads this
    {
      exists i :: 0 <= i < |maps| && maps[i] != map[]
    }

    /** A chain map is truthy iff it has a key. */
    lemma BoolIffNonEmpty()
      ensures Bool() <==> Len() > 0
    {
    }

    /** `ChainMap.fromkeys(ks, value)`: one mapping from every key of `ks` to `value`. */
    static method FromKeys(ks: seq<K>, value: V) returns (c: ChainMap<K, V>)
      ensures c.Valid() && fresh(c)
      ensures |c.maps| == 1 && forall k :: (k in c.maps[0] <==> k in ks) && (k in c.maps[0] ==> c.maps[0][k] == value)
    {
      c := new ChainMap([map k | k in ks :: value]);
    }

    /** `cm.copy()`: a new chain map with the same mappings. */
    method Copy() returns (c: ChainMap<K, V>)
      requires Valid()
      ensures c.Valid() && fresh(c) && c.maps == maps
    {
      c := new ChainMap([maps[0]] + maps[1..]);
      assert [maps[0]] + maps[1..] == maps;
    }

    /** `cm.new_child()`: a new chain map with an empty mapping in front. */
    method NewChild() returns (c: ChainMap<K, V>)
      requires Valid()
      ensures c.Valid() && fresh(c) && c.maps == [map[]] + maps
    {
      c := new ChainMap([map[]] + maps);
    }

    /** `cm.parents`: a new chain map without the first mapping. */
    method Parents() returns (c: ChainMap<K, V>)
      requires Valid()
      ensures c.Valid() && fresh(c) && c.maps == Chain(maps[1..])
    {
      c := new ChainMap(maps[1..]);
    }

    /** `cm[key] = value`: writes into the first mapping only. */
    method SetItem(key: K, value: V)
      requires Valid()
      modifies this
      ensures Valid() && maps == [old(maps)[0][key := value]] + old(maps)[1..]
    {
      maps := [maps[0][key := value]] + maps[1..];
    }

    /** `del cm[key]`: deletes from the first mapping; `KeyError` when the first mapping lacks `key`. */
    method DelItem(key: K) returns (err: Option<K>)
      requires Valid()
      modifies this
      ensures Valid()
      ensures key !in old(maps)[0] ==> err == Some(key) && maps == old(maps)
      ensures key in old(maps)[0] ==> err == None && maps == [old(maps)[0] - {key}] + old(maps)[1..]
    {
      if key !in maps[0] {
        return Some(key);
      }
      maps := [maps[0] - {key}] + maps[1..];
      return None;
    }

    /** `cm.popitem()`: some pair of the first mapping, removed; `KeyError` when it is empty. */
    method PopItem() returns (r: Option<(K, V)>)
      requires Valid()
      modifies this
      ensures Valid()
      ensures old(maps)[0] == map[] ==> r == None && maps == old(maps)
      ensures old(maps)[0] != map[] ==>
        r.Some? && r.value.0 in old(maps)[0] && r.value.1 == old(maps)[0][r.value.0] &&
        maps == [old(maps)[0] - {r.value.0}] + old(maps)[1..]
    {
      if maps[0] == map[] {
        return None;
      }
      var k :| k in maps[0];
      var v := maps[0][k];
      maps := [maps[0] - {k}] + maps[1..];
      return Some((k, v));
    }

    /** `cm.pop(key, default)`: removes `key` from the first mapping; else the default, or `KeyError` without one. */
    method Pop(key: K, default: Option<V>) returns (r: Result<V, K>)
      requires Valid()
      modifies this
      ensures Valid()
      ensures key in old(maps)[0] ==> r == Ok(old(maps)[0][key]) && maps == [old(maps)[0] - {key}] + old(maps)[1..]
      ensures key !in old(maps)[0] ==> maps == old(maps)
      ensures key !in old(maps)[0] ==> r == if default.Some? then Ok(default.value) else Err(key)
    {
      if key in maps[0] {
        var v := maps[0][key];
        maps := [maps[0] - {key}] + maps[1..];
        return Ok(v);
      }
      if default.Some? {
        return Ok(default.value);
      }
      return Err(key);
    }

    /** `cm.clear()`: empties the first mapping, leaving the others intact. */
    method Clear()
      requires Valid()
      modifies this
      ensures Valid() && maps == [map[]] + old(maps)[1..]
    {
      maps := [map[]] + maps[1..];
    }
  }
}
