/**
 * The `OrderedDict` backport of distlib/compat.py: a dictionary plus a circular doubly linked
 * list of links with a sentinel, and a map from each key to its link.  Iteration walks the
 * list, so keys come out in first-insertion order.
 */
module OrderedDicts {
  import opened Wrappers

  /** A link `[PREV, NEXT, KEY]`; the sentinel has no key. */
  class Link<K> {
    var prev: Link?<K>
    var next: Link?<K>
    const key: Option<K>

    constructor (prev: Link?<K>, next: Link?<K>, key: Option<K>)
      ensures this.prev == prev && this.next == next && this.key == key
    {
      this.prev := prev;
      this.next := next;
      this.key := key;
    }
  }

  /** The keys in reverse order. */
  function Reverse<K>(xs: seq<K>): (r: seq<K>)
    ensures |r| == |xs|
    ensures forall i :: 0 <= i < |xs| ==> r[i] == xs[|xs| - 1 - i]
  {
    if xs == [] then [] else Reverse(xs[1..]) + [xs[0]]
  }

  /** Reversing twice gives the keys back. */
  lemma ReverseReverse<K>(xs: seq<K>)
    ensures Reverse(Reverse(xs)) == xs
  {
  }

  /** All elements different. */
  predicate Distinct<K(==)>(xs: seq<K>)
  {
    forall i, j :: 0 <= i < j < |xs| ==> xs[i] != xs[j]
  }

  lemma AppendDistinct<K>(xs: seq<K>, x: K)
    requires Distinct(xs) && x !in xs
    ensures Distinct(xs + [x])
  {
  }

  /** `xs` without its element at `i`. */
  function RemoveAt<K>(xs: seq<K>, i: nat): (r: seq<K>)
    requires i < |xs|
    ensures |r| == |xs| - 1
    ensures forall j :: 0 <= j < i ==> r[j] == xs[j]
    ensures forall j :: i <= j < |r| ==> r[j] == xs[j + 1]
  {
    xs[..i] + xs[i + 1..]
  }

  lemma RemoveAtDistinct<K>(xs: seq<K>, i: nat)
    requires i < |xs| && Distinct(xs)
    ensures Distinct(RemoveAt(xs, i))
    ensures forall x :: x in RemoveAt(xs, i) <==> x in xs && x != xs[i]
  {
    var r := RemoveAt(xs, i);
    forall x | x in xs && x != xs[i] ensures x in r {
      var j :| 0 <= j < |xs| && xs[j] == x;
      if j < i { assert r[j] == x; } else { assert r[j - 1] == x; }
    }
  }

  /** The key order after setting each of `ks` in turn: a key not yet present goes at the end. */
  function AddKeys<K(==)>(keys: seq<K>, ks: seq<K>): seq<K>
    decreases |ks|
  {
    if ks == [] then keys
    else
      var r := AddKeys(keys, ks[..|ks| - 1]);
      if ks[|ks| - 1] in r then r else r + [ks[|ks| - 1]]
  }

  /** Setting keys adds exactly those keys. */
  lemma {:induction false} AddKeysContents<K>(keys: seq<K>, ks: seq<K>)
    ensures forall x :: x in AddKeys(keys, ks) <==> x in keys || x in ks
    decreases |ks|
  {
    if ks != [] {
      var init := ks[..|ks| - 1];
      AddKeysContents(keys, init);
      assert ks == init + [ks[|ks| - 1]];
    }
  }

  /** Setting keys never moves a key already present, and never repeats one. */
  lemma {:induction false} AddKeysKeepsOrder<K>(keys: seq<K>, ks: seq<K>)
    requires Distinct(keys)
    ensures keys <= AddKeys(keys, ks)
    ensures Distinct(AddKeys(keys, ks))
    decreases |ks|
  {
    if ks != [] {
      AddKeysKeepsOrder(keys, ks[..|ks| - 1]);
      var r := AddKeys(keys, ks[..|ks| - 1]);
      if ks[|ks| - 1] !in r {
        AppendDistinct(r, ks[|ks| - 1]);
      }
    }
  }

  /** Setting distinct keys into an empty dictionary keeps their order. */
  lemma {:induction false} AddKeysDistinct<K>(ks: seq<K>)
    requires Distinct(ks)
    ensures AddKeys([], ks) == ks
    decreases |ks|
  {
    if ks != [] {
      var init := ks[..|ks| - 1];
      AddKeysDistinct(init);
      assert ks[|ks| - 1] !in init;
      assert ks == init + [ks[|ks| - 1]];
    }
  }

  /** The first components of a sequence of pairs. */
  function Firsts<K, V>(ps: seq<(K, V)>): (r: seq<K>)
    ensures |r| == |ps| && forall i :: 0 <= i < |ps| ==> r[i] == ps[i].0
  {
    seq(|ps|, i requires 0 <= i < |ps| => ps[i].0)
  }

  /** The dictionary after setting each pair in turn. */
  function PutAll<K, V>(d: map<K, V>, ps: seq<(K, V)>): map<K, V>
    decreases |ps|
  {
    if ps == [] then d else PutAll(d, ps[..|ps| - 1])[ps[|ps| - 1].0 := ps[|ps| - 1].1]
  }

  /** A key ends up with the value of its last pair, or keeps its old value when no pair names it. */
  lemma {:induction false} PutAllValue<K, V>(d: map<K, V>, ps: seq<(K, V)>, k: K)
    ensures k in PutAll(d, ps) <==> k in d || k in Firsts(ps)
    ensures k in Firsts(ps) ==> exists j :: 0 <= j < |ps| && ps[j].0 == k && PutAll(d, ps)[k] == ps[j].1 &&
                                          forall j' :: j < j' < |ps| ==> ps[j'].0 != k
    ensures k !in Firsts(ps) && k in d ==> PutAll(d, ps)[k] == d[k]
    decreases |ps|
  {
    if ps != [] {
      var init := ps[..|ps| - 1];
      PutAllValue(d, init, k);
      assert Firsts(ps) == Firsts(init) + [ps[|ps| - 1].0];
      if k in Firsts(ps) && k != ps[|ps| - 1].0 {
        var j :| 0 <= j < |init| && init[j].0 == k && PutAll(d, init)[k] == init[j].1 &&
                 forall j' :: j < j' < |init| ==> init[j'].0 != k;
        assert ps[j].0 == k;
      }
    }
  }

  /** Setting the pairs of a dictionary, each key once, into an empty one rebuilds it. */
  lemma PutAllItems<K(!new), V>(keys: seq<K>, d: map<K, V>, items: seq<(K, V)>)
    requires Distinct(keys) && |items| == |keys| && (forall k :: k in d <==> k in keys)
    requires forall i :: 0 <= i < |items| ==> items[i].0 == keys[i] && keys[i] in d && items[i].1 == d[keys[i]]
    ensures PutAll(map[], items) == d
  {
    var m := PutAll(map[], items);
    assert Firsts(items) == keys;
    forall k ensures k in m.Keys <==> k in d.Keys {
      PutAllValue(map[], items, k);
    }
    forall k | k in d ensures m[k] == d[k] {
      PutAllValue(map[], items, k);
      assert k in Firsts(items);
      var j :| 0 <= j < |items| && items[j].0 == k && m[k] == items[j].1;
    }
    assert m.Keys == d.Keys;
  }

  /** The dictionary mapping every key of `ks` to `v`. */
  function ConstMap<K, V>(ks: seq<K>, v: V): map<K, V>
  {
    map k | k in ks :: v
  }

  /** Setting every key of `ks` to `v` in turn gives the constant dictionary. */
  lemma {:induction false} PutAllConst<K(!new), V>(ks: seq<K>, v: V, pairs: seq<(K, V)>)
    requires |pairs| == |ks| && forall i :: 0 <= i < |ks| ==> pairs[i] == (ks[i], v)
    ensures PutAll(map[], pairs) == ConstMap(ks, v)
    decreases |ks|
  {
    if ks != [] {
      var n := |ks| - 1;
      PutAllConst(ks[..n], v, pairs[..n]);
      var a := ConstMap(ks, v);
      var b := ConstMap(ks[..n], v)[ks[n] := v];
      assert ks == ks[..n] + [ks[n]];
      assert forall k :: k in a <==> k in ks[..n] || k == ks[n];
      assert a.Keys == b.Keys;
    }
  }

  /** The link after position `i` of the circle `[root] + nodes`; position `-1` is the sentinel. */
  ghost function After<K>(root: Link<K>, nodes: seq<Link<K>>, i: int): Link<K>
    requires -1 <= i < |nodes|
  {
    if i + 1 < |nodes| then nodes[i + 1] else root
  }

  /** The link before position `i`; position `|nodes|` is the sentinel. */
  ghost function Before<K>(root: Link<K>, nodes: seq<Link<K>>, i: int): Link<K>
    requires 0 <= i <= |nodes|
  {
    if i == 0 then root else nodes[i - 1]
  }

  /** The sentinel and the nodes form one circle, in list order. */
  ghost predicate Circle<K>(root: Link<K>, nodes: seq<Link<K>>)
    reads root, set x | x in nodes
  {
    root.next == After(root, nodes, -1) && root.prev == Before(root, nodes, |nodes|) &&
    (forall i {:trigger nodes[i].next} :: 0 <= i < |nodes| ==> nodes[i].next == After(root, nodes, i)) &&
    (forall i {:trigger nodes[i].prev} :: 0 <= i < |nodes| ==> nodes[i].prev == Before(root, nodes, i))
  }

  /** Links a new node for `key` in between the last node and the sentinel. */
  method LinkLast<K>(root: Link<K>, ghost ns: seq<Link<K>>, key: K) returns (link: Link<K>)
    requires Circle(root, ns) && root !in ns && Distinct(ns)
    modifies root, ns
    ensures fresh(link) && link.key == Some(key)
    ensures Circle(root, ns + [link])
  {
    label L0:
    var last := root.prev;
    link := new Link<K>(last, root, Some(key));
    last.next := link;
    root.prev := link;
    ghost var ms := ns + [link];
    forall i | 0 <= i < |ms|
      ensures ms[i].next == After(root, ms, i) && ms[i].prev == Before(root, ms, i)
    {
      if i < |ns| {
        assert ms[i] == ns[i] && ns[i] != root && ns[i] != link;
        assert ms[i].prev == old@L0(ns[i].prev);
        if i < |ns| - 1 {
          assert ns[i] != last;
          assert ms[i].next == old@L0(ns[i].next);
        }
      }
    }
  }

  /** Unlinks the node at position `i` by joining its two neighbours. */
  method Unlink<K>(root: Link<K>, ghost ns: seq<Link<K>>, link: Link<K>, ghost i: nat)
    requires Circle(root, ns) && root !in ns && Distinct(ns)
    requires i < |ns| && link == ns[i]
    modifies root, ns
    ensures Circle(root, RemoveAt(ns, i))
  {
    label L0:
    var before := link.prev;
    var after := link.next;
    before.next := after;
    after.prev := before;
    ghost var rs := RemoveAt(ns, i);
    forall j | 0 <= j < |rs|
      ensures rs[j].next == After(root, rs, j) && rs[j].prev == Before(root, rs, j)
    {
      if j < i {
        assert rs[j] == ns[j] && rs[j] != root;
        assert rs[j] != after;
        assert rs[j].prev == old@L0(ns[j].prev);
        if j < i - 1 {
          assert rs[j] != before;
          assert rs[j].next == old@L0(ns[j].next);
        }
      } else {
        assert rs[j] == ns[j + 1] && rs[j] != root;
        assert rs[j] != before;
        assert rs[j].next == old@L0(ns[j + 1].next);
        if j > i {
          assert rs[j] != after;
          assert rs[j].prev == old@L0(ns[j + 1].prev);
        }
      }
    }
  }

  /** A non-empty sequence holds its first element. */
  lemma HeadIsElement<K>(s: seq<K>)
    ensures s == [] || s[0] in s
  {
  }

  /** The keys, the dictionary and the key-to-link map agree with the list of nodes. */
  ghost predicate Indexed<K(!new), V>(root: Link<K>, keys: seq<K>, nodes: seq<Link<K>>,
                                      dict: map<K, V>, links: map<K, Link<K>>)
  {
    |nodes| == |keys| &&
    (forall i :: 0 <= i < |nodes| ==> nodes[i] != root && nodes[i].key == Some(keys[i])) &&
    Distinct(nodes) && Distinct(keys) &&
    (forall k :: k in dict <==> k in keys) &&
    (forall k :: k in links <==> k in keys) &&
    (forall i :: 0 <= i < |keys| ==> links[keys[i]] == nodes[i])
  }

  lemma IndexedAppend<K(!new), V>(root: Link<K>, keys: seq<K>, nodes: seq<Link<K>>,
                                  dict: map<K, V>, links: map<K, Link<K>>,
                                  key: K, value: V, link: Link<K>)
    requires Indexed(root, keys, nodes, dict, links)
    requires key !in dict && link != root && link !in nodes && link.key == Some(key)
    ensures Indexed(root, keys + [key], nodes + [link], dict[key := value], links[key := link])
  {
    AppendDistinct(keys, key);
    AppendDistinct(nodes, link);
  }

  lemma IndexedRemove<K(!new), V>(root: Link<K>, keys: seq<K>, nodes: seq<Link<K>>,
                                  dict: map<K, V>, links: map<K, Link<K>>, i: nat)
    requires Indexed(root, keys, nodes, dict, links) && i < |keys|
    ensures Indexed(root, RemoveAt(keys, i), RemoveAt(nodes, i), dict - {keys[i]}, links - {keys[i]})
  {
    RemoveAtDistinct(keys, i);
    RemoveAtDistinct(nodes, i);
  }

  class OrderedDict<K(==,!new), V> {
    /** The inherited dictionary. */
    var dict: map<K, V>
    /** `__map`: key to link. */
    var links: map<K, Link<K>>
    /** `__root`, the sentinel. */
    const root: Link<K>
    /** The keys in list order, and the link of each. */
    ghost var keys: seq<K>
    ghost var nodes: seq<Link<K>>
    ghost var Repr: set<object>

    ghost predicate Valid()
      reads this, Repr
    {
      this in Repr && root in Repr && root.key == None &&
      (forall i :: 0 <= i < |nodes| ==> nodes[i] in Repr) &&
      Indexed(root, keys, nodes, dict, links) && Circle(root, nodes)
    }

    /** `OrderedDict()`: the sentinel linked to itself. */
    constructor ()
      ensures Valid() && fresh(Repr)
      ensures keys == [] && dict == map[]
    {
      var r := new Link<K>(null, null, None);
      root := r;
      dict := map[];
      links := map[];
      keys := [];
      nodes := [];
      new;
      r.prev := r;
      r.next := r;
      Repr := {this, r};
    }

    /** `od[key] = value`: a new key gets a new link at the end; an existing key keeps its place. */
    method SetItem(key: K, value: V)
      requires Valid()
      modifies Repr
      ensures Valid() && fresh(Repr - old(Repr))
      ensures dict == old(dict)[key := value]
      ensures key in old(dict) ==> keys == old(keys)
      ensures key !in old(dict) ==> keys == old(keys) + [key]
    {
      if key !in dict {
        var link := LinkLast(root, nodes, key);
        IndexedAppend(root, keys, nodes, dict, links, key, value, link);
        links := links[key := link];
        dict := dict[key := value];
        keys := keys + [key];
        nodes := nodes + [link];
        Repr := Repr + {link};
      } else {
        dict := dict[key := value];
      }
    }

    /** The position of `key` in the list. */
    ghost function IndexOf(key: K): (i: nat)
      reads this, Repr
      requires Valid() && key in keys
      ensures i < |keys| && keys[i] == key
    {
      var i :| 0 <= i < |keys| && keys[i] == key; i
    }

    /** `del od[key]`: `KeyError` when absent; otherwise the key's link is unlinked from its neighbours. */
    method DelItem(key: K) returns (err: Option<K>)
      requires Valid()
      modifies Repr
      ensures Valid() && Repr <= old(Repr)
      ensures key !in old(dict) ==> err == Some(key) && dict == old(dict) && keys == old(keys)
      ensures key in old(dict) ==> err == None && dict == old(dict) - {key} && keys == RemoveAt(old(keys), old(IndexOf(key)))
    {
      if key !in dict {
        return Some(key);
      }
      ghost var i := IndexOf(key);
      var link := links[key];
      RemoveLink(link, key, i);
      return None;
    }

    /** Unlinks `link`, the node of `key` at position `i`, and forgets the key. */
    method RemoveLink(link: Link<K>, key: K, ghost i: nat)
      requires Valid() && i < |keys| && link == nodes[i] && key == keys[i]
      modifies Repr
      ensures Valid() && Repr <= old(Repr)
      ensures keys == RemoveAt(old(keys), i) && dict == old(dict) - {key}
    {
      Unlink(root, nodes, link, i);
      IndexedRemove(root, keys, nodes, dict, links, i);
      dict := dict - {key};
      links := links - {key};
      keys := RemoveAt(keys, i);
      nodes := RemoveAt(nodes, i);
    }

    /** `list(od)`: the keys, walking `NEXT` from the sentinel. */
    method Iter() returns (r: seq<K>)
      requires Valid()
      ensures r == keys
    {
      r := [];
      var curr := root.next;
      var i := 0;
      while curr != root
        invariant 0 <= i <= |nodes|
        invariant curr == (if i < |nodes| then nodes[i] else root)
        invariant r == keys[..i]
        decreases |nodes| - i
      {
        r := r + [curr.key.value];
        curr := curr.next;
        i := i + 1;
      }
    }

    /** `list(reversed(od))`: the keys, walking `PREV` from the sentinel. */
    method Reversed() returns (r: seq<K>)
      requires Valid()
      ensures r == Reverse(keys)
    {
      r := [];
      var curr := root.prev;
      var i := |nodes|;
      while curr != root
        invariant 0 <= i <= |nodes|
        invariant curr == (if i > 0 then nodes[i - 1] else root)
        invariant r == Reverse(keys[i..])
        decreases i
      {
        assert keys[i - 1..] == [keys[i - 1]] + keys[i..];
        r := r + [curr.key.value];
        curr := curr.prev;
        i := i - 1;
      }
    }

    /** `od.popitem(last)`: the newest pair when `last`, else the oldest; `KeyError` when empty. */
    method PopItem(last: bool) returns (r: Option<(K, V)>)
      requires Valid()
      modifies Repr
      ensures Valid() && Repr <= old(Repr)
      ensures old(keys) == [] ==> r == None && keys == old(keys) && dict == old(dict)
      ensures old(keys) != [] && last ==>
        r == Some((old(keys)[|old(keys)| - 1], old(dict)[old(keys)[|old(keys)| - 1]])) &&
        keys == old(keys)[..|old(keys)| - 1] && dict == old(dict) - {old(keys)[|old(keys)| - 1]}
      ensures old(keys) != [] && !last ==>
        r == Some((old(keys)[0], old(dict)[old(keys)[0]])) &&
        keys == old(keys)[1..] && dict == old(dict) - {old(keys)[0]}
    {
      if dict == map[] {
        HeadIsElement(keys);
        return None;
      }
      assert keys != [] by {
        var k :| k in dict;
        assert k in keys;
      }
      var link: Link<K>;
      ghost var i: nat;
      if last {
        i := |nodes| - 1;
        link := root.prev;
      } else {
        i := 0;
        link := root.next;
      }
      assert link == nodes[i];
      var key := link.key.value;
      var value := dict[key];
      assert RemoveAt(keys, i) == if last then keys[..i] else keys[1..];
      RemoveLink(link, key, i);
      return Some((key, value));
    }

    /** `od.pop(key, default)`: the value, removed; else the default, or `KeyError` without one. */
    method Pop(key: K, default: Option<V>) returns (r: Result<V, K>)
      requires Valid()
      modifies Repr
      ensures Valid() && Repr <= old(Repr)
      ensures key in old(dict) ==> r == Ok(old(dict)[key]) && dict == old(dict) - {key}
      ensures key in old(dict) ==> keys == RemoveAt(old(keys), old(IndexOf(key)))
      ensures key !in old(dict) ==> dict == old(dict) && keys == old(keys)
      ensures key !in old(dict) ==> r == (if default.Some? then Ok(default.value) else Err(key))
    {
      if key in dict {
        var result := dict[key];
        var e := DelItem(key);
        return Ok(result);
      }
      if default.None? {
        return Err(key);
      }
      return Ok(default.value);
    }

    /** `od.clear()`: the sentinel is linked to itself again and both maps are emptied. */
    method Clear()
      requires Valid()
      modifies Repr
      ensures Valid() && Repr == old(Repr)
      ensures keys == [] && dict == map[]
    {
      root.prev := root;
      root.next := root;
      links := map[];
      dict := map[];
      keys := [];
      nodes := [];
    }

    /** `od.items()`: the pairs in key order. */
    method Items() returns (r: seq<(K, V)>)
      requires Valid()
      ensures |r| == |keys|
      ensures forall i :: 0 <= i < |r| ==> r[i].0 == keys[i] && keys[i] in dict && r[i].1 == dict[keys[i]]
    {
      var ks := Iter();
      r := seq(|ks|, i requires 0 <= i < |ks| && ks[i] in dict reads this => (ks[i], dict[ks[i]]));
    }

    /** `od.values()`: the values in key order. */
    method Values() returns (r: seq<V>)
      requires Valid()
      ensures |r| == |keys|
      ensures forall i :: 0 <= i < |r| ==> keys[i] in dict && r[i] == dict[keys[i]]
    {
      var ks := Iter();
      r := seq(|ks|, i requires 0 <= i < |ks| && ks[i] in dict reads this => dict[ks[i]]);
    }

    /** `od.update(pairs)`: each pair is set in turn. */
    method Update(pairs: seq<(K, V)>)
      requires Valid()
      modifies Repr
      ensures Valid() && fresh(Repr - old(Repr))
      ensures dict == PutAll(old(dict), pairs)
      ensures keys == AddKeys(old(keys), Firsts(pairs))
    {
      var i := 0;
      while i < |pairs|
        invariant 0 <= i <= |pairs|
        invariant Valid() && fresh(Repr - old(Repr))
        invariant dict == PutAll(old(dict), pairs[..i])
        invariant keys == AddKeys(old(keys), Firsts(pairs[..i]))
      {
        assert pairs[..i + 1][..i] == pairs[..i];
        assert Firsts(pairs[..i + 1])[..i] == Firsts(pairs[..i]);
        SetItem(pairs[i].0, pairs[i].1);
        i := i + 1;
      }
      assert pairs[..i] == pairs;
    }

    /** `OrderedDict.fromkeys(ks, value)`: every key of `ks`, in first-occurrence order, mapped to `value`. */
    static method FromKeys(ks: seq<K>, value: V) returns (d: OrderedDict<K, V>)
      ensures d.Valid() && fresh(d.Repr)
      ensures d.keys == AddKeys([], ks)
      ensures d.dict == ConstMap(ks, value)
    {
      d := new OrderedDict();
      var pairs := seq(|ks|, i requires 0 <= i < |ks| => (ks[i], value));
      d.Update(pairs);
      assert Firsts(pairs) == ks;
      PutAllConst(ks, value, pairs);
    }

    /** `od.copy()`: a new ordered dictionary with the same pairs in the same order. */
    method Copy() returns (c: OrderedDict<K, V>)
      requires Valid()
      ensures c.Valid() && fresh(c.Repr)
      ensures c.keys == keys && c.dict == dict
    {
      var items := Items();
      c := new OrderedDict();
      c.Update(items);
      assert Firsts(items) == keys;
      AddKeysDistinct(keys);
      PutAllItems(keys, dict, items);
    }

    /** `od.setdefault(key, default)`: an existing value is returned and kept. */
    method SetDefault(key: K, default: V) returns (r: V)
      requires Valid()
      modifies Repr
      ensures Valid() && fresh(Repr - old(Repr))
      ensures key in old(dict) ==> r == old(dict)[key] && dict == old(dict) && keys == old(keys)
      ensures key !in old(dict) ==> r == default && dict == old(dict)[key := default] && keys == old(keys) + [key]
    {
      if key in dict {
        return dict[key];
      }
      SetItem(key, default);
      return default;
    }
  }
}
