/** Python's insertion-ordered `dict`, and the "first occurrences" order that a dict
    built from a sequence of keys ends up with. */
module Dicts {

  /** No element occurs twice. */
  ghost predicate Distinct<T>(s: seq<T>) {
    forall i, j :: 0 <= i < j < |s| ==> s[i] != s[j]
  }

  /** Position of the first occurrence of `x` in `s`. */
  function FirstIndex<T(==)>(s: seq<T>, x: T): (i: nat)
    requires x in s
    ensures i < |s| && s[i] == x && x !in s[..i]
  {
    if s[0] == x then 0 else 1 + FirstIndex(s[1..], x)
  }

  /** The keys of `dict.fromkeys(s)`: every element once, at its first occurrence. */
  function Dedup<T(==)>(s: seq<T>): (r: seq<T>)
    ensures Distinct(r)
    ensures forall x :: x in r ==> x in s
    ensures forall x :: x in s ==> x in r
  {
    if s == [] then []
    else
      var r := Dedup(s[..|s| - 1]);
      if s[|s| - 1] in r then r else r + [s[|s| - 1]]
  }

  /** `Dedup` keeps the order in which elements first occur. */
  lemma {:induction false} DedupKeepsFirstOrder<T>(s: seq<T>)
    ensures forall i, j :: 0 <= i < j < |Dedup(s)| ==>
      FirstIndex(s, Dedup(s)[i]) < FirstIndex(s, Dedup(s)[j])
  {
    if s != [] {
      var s', x := s[..|s| - 1], s[|s| - 1];
      assert s == s' + [x];
      DedupKeepsFirstOrder(s');
      var r' := Dedup(s');
      forall y | y in s'
        ensures FirstIndex(s, y) == FirstIndex(s', y)
      {
        FirstIndexOfPrefix(s', [x], y);
      }
      if x !in r' {
        assert x !in s';
        assert s[..|s'|] == s';
        assert FirstIndex(s, x) == |s'|;
      }
    }
  }

  lemma {:induction false} FirstIndexOfPrefix<T>(a: seq<T>, b: seq<T>, y: T)
    requires y in a
    ensures FirstIndex(a + b, y) == FirstIndex(a, y)
  {
    if a[0] != y {
      assert (a + b)[1..] == a[1..] + b;
      FirstIndexOfPrefix(a[1..], b, y);
    }
  }

  /** A sequence without repetitions is its own `Dedup`. */
  lemma {:induction false} DedupOfDistinct<T>(s: seq<T>)
    requires Distinct(s)
    ensures Dedup(s) == s
  {
    if s != [] {
      DedupOfDistinct(s[..|s| - 1]);
    }
  }

  /** Appending one element: it is added at the end unless already present. */
  lemma DedupSnoc<T>(s: seq<T>, x: T)
    ensures Dedup(s + [x]) == if x in s then Dedup(s) else Dedup(s) + [x]
  {
    assert (s + [x])[..|s|] == s;
  }

  lemma DistinctConcat<T>(a: seq<T>, b: seq<T>)
    requires Distinct(a) && Distinct(b)
    requires forall x :: x in a ==> x !in b
    ensures Distinct(a + b)
  {
    forall i, j | 0 <= i < j < |a + b|
      ensures (a + b)[i] != (a + b)[j]
    {
      if j >= |a| && i < |a| {
        assert (a + b)[i] in a && (a + b)[j] == b[j - |a|];
      }
    }
  }

  lemma ConcatAssoc<T>(x: seq<T>, y: seq<T>, z: seq<T>)
    ensures (x + y) + z == x + (y + z)
  {
  }

  lemma SnocAssoc<T>(x: seq<T>, y: seq<T>)
    requires y != []
    ensures x + y == (x + y[..|y| - 1]) + [y[|y| - 1]]
  {
    assert y == y[..|y| - 1] + [y[|y| - 1]];
    ConcatAssoc(x, y[..|y| - 1], [y[|y| - 1]]);
  }

  /** A Python `dict`: keys in insertion order, and the mapping itself. */
  datatype Dict<K, V> = Dict(keys: seq<K>, items: map<K, V>) {

    ghost predicate Valid() {
      Distinct(keys) && (forall k :: k in items ==> k in keys) && (forall k :: k in keys ==> k in items)
    }

    /** `d[k] = v`: overwrites in place, or appends a new key at the end. */
    function Put(k: K, v: V): (d: Dict<K, V>)
      ensures d.items == items[k := v]
      ensures Valid() ==> d.Valid() && d.keys == Dedup(keys + [k])
    {
      if k in items then
        assert Valid() ==> k in keys && Dedup(keys + [k]) == keys by {
          if Valid() { DedupOfDistinct(keys); DedupSnoc(keys, k); }
        }
        Dict(keys, items[k := v])
      else
        assert Valid() ==> k !in keys && Dedup(keys + [k]) == keys + [k] by {
          if Valid() { DedupOfDistinct(keys); DedupSnoc(keys, k); }
        }
        Dict(keys + [k], items[k := v])
    }

    /** `d.get(k, default)` */
    function Get(k: K, default: V): V {
      if k in items then items[k] else default
    }

    /** `d.values()`, in key order. */
    function Values(): (vs: seq<V>)
      requires Valid()
      ensures |vs| == |keys| && forall i :: 0 <= i < |keys| ==> vs[i] == items[keys[i]]
    {
      ValuesOf(keys, items)
    }
  }

  function ValuesOf<K, V>(keys: seq<K>, items: map<K, V>): (vs: seq<V>)
    requires forall k :: k in keys ==> k in items
    ensures |vs| == |keys| && forall i :: 0 <= i < |keys| ==> vs[i] == items[keys[i]]
  {
    if keys == [] then [] else [items[keys[0]]] + ValuesOf(keys[1..], items)
  }

  function Empty<K, V>(): (d: Dict<K, V>)
    ensures d.Valid() && d.keys == []
  {
    Dict([], map[])
  }

  /** `{k: v for k in ks}`: each key once, in first-occurrence order, all mapped to `v`. */
  function FromKeys<K, V>(ks: seq<K>, v: V): (d: Dict<K, V>)
    ensures d.Valid() && d.keys == Dedup(ks)
    ensures forall k :: k in d.items ==> d.items[k] == v
  {
    if ks == [] then Empty()
    else
      assert ks == ks[..|ks| - 1] + [ks[|ks| - 1]];
      FromKeys(ks[..|ks| - 1], v).Put(ks[|ks| - 1], v)
  }

  // ----- Building dicts from other dicts and from sequences -----

  /** Deduplicating a prefix first changes nothing ... */
  lemma {:induction false} DedupOfDedupPrefix<T>(x: seq<T>, y: seq<T>)
    ensures Dedup(Dedup(x) + y) == Dedup(x + y)
    decreases |y|
  {
    if y == [] {
      assert Dedup(x) + y == Dedup(x) && x + y == x;
      DedupOfDistinct(Dedup(x));
    } else {
      var y', z := y[..|y| - 1], y[|y| - 1];
      assert Dedup(x) + y == (Dedup(x) + y') + [z];
      assert x + y == (x + y') + [z];
      DedupOfDedupPrefix(x, y');
      DedupSnoc(Dedup(x) + y', z);
      DedupSnoc(x + y', z);
    }
  }

  /** ... nor does deduplicating a suffix first. */
  lemma {:induction false} DedupOfDedupSuffix<T>(x: seq<T>, y: seq<T>)
    ensures Dedup(x + Dedup(y)) == Dedup(x + y)
    decreases |y|
  {
    if y == [] {
      assert x + Dedup(y) == x && x + y == x;
    } else {
      var y', z := y[..|y| - 1], y[|y| - 1];
      assert y == y' + [z];
      assert x + y == (x + y') + [z] by { SnocAssoc(x, y); }
      assert Dedup(x + Dedup(y')) == Dedup(x + y') by { DedupOfDedupSuffix(x, y'); }
      DedupSnoc(y', z);
      DedupSnoc(x + y', z);
      if z !in y' {
        assert x + Dedup(y) == (x + Dedup(y')) + [z] by {
          ConcatAssoc(x, Dedup(y'), [z]);
        }
        DedupSnoc(x + Dedup(y'), z);
      }
    }
  }

  /** `{**d, **other}`: the entries of `other`, in its key order, put into `d`. */
  function PutAll<K, V>(d: Dict<K, V>, other: Dict<K, V>): (r: Dict<K, V>)
    requires other.Valid()
    ensures r.items == d.items + other.items
    ensures d.Valid() ==> r.Valid() && r.keys == Dedup(d.keys + other.keys)
  {
    var r := PutKeys(d, other.keys, other.items);
    assert r.items == d.items + other.items;
    PutKeysValid(d, other.keys, other.items);
    r
  }

  function PutKeys<K, V>(d: Dict<K, V>, ks: seq<K>, items: map<K, V>): (r: Dict<K, V>)
    requires forall k :: k in ks ==> k in items
    ensures forall k :: k in ks ==> k in r.items && r.items[k] == items[k]
    ensures forall k :: k in d.items && k !in ks ==> k in r.items && r.items[k] == d.items[k]
    ensures forall k :: k in r.items ==> k in d.items || k in ks
    decreases |ks|
  {
    if ks == [] then d
    else PutKeys(d, ks[..|ks| - 1], items).Put(ks[|ks| - 1], items[ks[|ks| - 1]])
  }

  lemma {:induction false} PutKeysValid<K, V>(d: Dict<K, V>, ks: seq<K>, items: map<K, V>)
    requires forall k :: k in ks ==> k in items
    ensures d.Valid() ==> PutKeys(d, ks, items).Valid() && PutKeys(d, ks, items).keys == Dedup(d.keys + ks)
    decreases |ks|
  {
    if d.Valid() {
      if ks == [] {
        assert d.keys + ks == d.keys;
        DedupOfDistinct(d.keys);
      } else {
        var ks', k := ks[..|ks| - 1], ks[|ks| - 1];
        var r' := PutKeys(d, ks', items);
        PutKeysValid(d, ks', items);
        assert PutKeys(d, ks, items) == r'.Put(k, items[k]);
        assert r'.Put(k, items[k]).keys == Dedup(Dedup(d.keys + ks') + [k]);
        SnocAssoc(d.keys, ks);
        DedupOfDedupPrefix(d.keys + ks', [k]);
      }
    }
  }

  /** The key of each element, in order. */
  function KeysOf<K, V>(vs: seq<V>, key: V -> K): (ks: seq<K>)
    ensures |ks| == |vs| && forall i :: 0 <= i < |vs| ==> ks[i] == key(vs[i])
  {
    if vs == [] then [] else KeysOf(vs[..|vs| - 1], key) + [key(vs[|vs| - 1])]
  }

  /** Position of the last element of `vs` whose key is `k`. */
  function LastKeyed<K(==), V>(vs: seq<V>, key: V -> K, k: K): (i: nat)
    requires k in KeysOf(vs, key)
    ensures i < |vs| && key(vs[i]) == k
    ensures forall j :: i < j < |vs| ==> key(vs[j]) != k
  {
    var last := vs[|vs| - 1];
    if key(last) == k then |vs| - 1
    else
      assert KeysOf(vs, key) == KeysOf(vs[..|vs| - 1], key) + [key(last)];
      LastKeyed(vs[..|vs| - 1], key, k)
  }

  /** `{key(v): v for v in vs}`: each key once, at its first occurrence ... */
  function Index<K(==), V>(vs: seq<V>, key: V -> K): (d: Dict<K, V>)
    ensures d.Valid() && d.keys == Dedup(KeysOf(vs, key))
  {
    if vs == [] then Empty()
    else
      var vs', v := vs[..|vs| - 1], vs[|vs| - 1];
      assert KeysOf(vs, key) == KeysOf(vs', key) + [key(v)];
      Index(vs', key).Put(key(v), v)
  }

  /** ... mapped to the last element with that key. */
  lemma {:induction false} IndexAt<K, V>(vs: seq<V>, key: V -> K, k: K)
    requires k in KeysOf(vs, key)
    ensures k in Index(vs, key).items && Index(vs, key).items[k] == vs[LastKeyed(vs, key, k)]
    decreases |vs|
  {
    var vs', v := vs[..|vs| - 1], vs[|vs| - 1];
    if key(v) != k {
      assert KeysOf(vs, key) == KeysOf(vs', key) + [key(v)];
      IndexAt(vs', key, k);
      assert vs[LastKeyed(vs', key, k)] == vs'[LastKeyed(vs', key, k)];
    }
  }

  lemma KeysOfConcat<K, V>(a: seq<V>, b: seq<V>, key: V -> K)
    ensures KeysOf(a + b, key) == KeysOf(a, key) + KeysOf(b, key)
  {
  }

  /** The last position with key `k` is the one after which no element has key `k`. */
  lemma LastKeyedAt<K, V>(vs: seq<V>, key: V -> K, k: K, i: nat)
    requires i < |vs| && key(vs[i]) == k
    requires forall j :: i < j < |vs| ==> key(vs[j]) != k
    ensures k in KeysOf(vs, key) && LastKeyed(vs, key, k) == i
  {
    assert KeysOf(vs, key)[i] == k;
  }

  lemma LastKeyedInSuffix<K, V>(a: seq<V>, b: seq<V>, key: V -> K, k: K)
    requires k in KeysOf(b, key)
    ensures k in KeysOf(a + b, key) && LastKeyed(a + b, key, k) == |a| + LastKeyed(b, key, k)
  {
    var i := LastKeyed(b, key, k);
    assert (a + b)[|a| + i] == b[i];
    forall j | |a| + i < j < |a + b| ensures key((a + b)[j]) != k {
      assert (a + b)[j] == b[j - |a|];
    }
    LastKeyedAt(a + b, key, k, |a| + i);
  }

  lemma LastKeyedInPrefix<K, V>(a: seq<V>, b: seq<V>, key: V -> K, k: K)
    requires k in KeysOf(a, key) && k !in KeysOf(b, key)
    ensures k in KeysOf(a + b, key) && LastKeyed(a + b, key, k) == LastKeyed(a, key, k)
  {
    var i := LastKeyed(a, key, k);
    assert (a + b)[i] == a[i];
    forall j | i < j < |a + b| ensures key((a + b)[j]) != k {
      if j >= |a| {
        assert (a + b)[j] == b[j - |a|];
        assert KeysOf(b, key)[j - |a|] == key(b[j - |a|]);
      }
    }
    LastKeyedAt(a + b, key, k, i);
  }

  /** A comprehension over `a + b` is the one over `a` with the one over `b` unpacked
      into it. */
  lemma IndexConcat<K, V>(a: seq<V>, b: seq<V>, key: V -> K)
    ensures Index(a + b, key) == PutAll(Index(a, key), Index(b, key))
  {
    IndexConcatKeys(a, b, key);
    IndexConcatItems(a, b, key);
  }

  lemma IndexConcatItems<K, V>(a: seq<V>, b: seq<V>, key: V -> K)
    ensures Index(a + b, key).items == PutAll(Index(a, key), Index(b, key)).items
  {
    var l, r := Index(a + b, key), PutAll(Index(a, key), Index(b, key));
    forall k | k in KeysOf(a + b, key)
      ensures k in l.items && k in r.items && l.items[k] == r.items[k]
    {
      IndexConcatAt(a, b, key, k);
    }
    forall k | k in l.items || k in r.items ensures k in KeysOf(a + b, key) {
      IndexConcatHas(a, b, key, k);
    }
    SameEntries(l.items, r.items, KeysOf(a + b, key));
  }

  /** Two maps that agree on a sequence of keys holding both their domains are equal. */
  lemma SameEntries<K, V>(m: map<K, V>, n: map<K, V>, ks: seq<K>)
    requires forall k :: k in ks ==> k in m && k in n && m[k] == n[k]
    requires forall k :: k in m || k in n ==> k in ks
    ensures m == n
  {
  }

  lemma IndexConcatHas<K, V>(a: seq<V>, b: seq<V>, key: V -> K, k: K)
    requires k in Index(a + b, key).items || k in PutAll(Index(a, key), Index(b, key)).items
    ensures k in KeysOf(a + b, key)
  {
    IndexConcatKeys(a, b, key);
    assert k in Index(a + b, key).keys;
  }

  lemma IndexConcatKeys<K, V>(a: seq<V>, b: seq<V>, key: V -> K)
    ensures Index(a + b, key).keys == PutAll(Index(a, key), Index(b, key)).keys
  {
    KeysOfConcat(a, b, key);
    DedupOfDedupPrefix(KeysOf(a, key), Dedup(KeysOf(b, key)));
    DedupOfDedupSuffix(KeysOf(a, key), KeysOf(b, key));
  }

  lemma IndexConcatAt<K, V>(a: seq<V>, b: seq<V>, key: V -> K, k: K)
    requires k in KeysOf(a + b, key)
    ensures k in Index(a + b, key).items
    ensures k in PutAll(Index(a, key), Index(b, key)).items
    ensures Index(a + b, key).items[k] == PutAll(Index(a, key), Index(b, key)).items[k]
  {
    if k in KeysOf(b, key) {
      var i := LastKeyed(b, key, k);
      LastKeyedInSuffix(a, b, key, k);
      IndexAt(a + b, key, k);
      IndexAt(b, key, k);
      assert (a + b)[|a| + i] == b[i];
    } else {
      KeysOfConcatMember(a, b, key, k);
      var i := LastKeyed(a, key, k);
      LastKeyedInPrefix(a, b, key, k);
      IndexAt(a + b, key, k);
      IndexAt(a, key, k);
      assert k !in Index(b, key).items;
      assert (a + b)[i] == a[i];
    }
  }

  lemma KeysOfConcatMember<K, V>(a: seq<V>, b: seq<V>, key: V -> K, k: K)
    requires k in KeysOf(a + b, key) && k !in KeysOf(b, key)
    ensures k in KeysOf(a, key)
  {
    KeysOfConcat(a, b, key);
  }

  /** Two sequences with the same keys have the same last position for each key. */
  lemma LastKeyedSame<K, V, W>(vs: seq<V>, key: V -> K, ws: seq<W>, key': W -> K, k: K)
    requires KeysOf(vs, key) == KeysOf(ws, key') && k in KeysOf(vs, key)
    ensures LastKeyed(vs, key, k) == LastKeyed(ws, key', k)
  {
    var i := LastKeyed(vs, key, k);
    assert key'(ws[i]) == KeysOf(ws, key')[i];
    forall j | i < j < |ws| ensures key'(ws[j]) != k {
      assert key'(ws[j]) == KeysOf(ws, key')[j] == key(vs[j]);
    }
    LastKeyedAt(ws, key', k, i);
  }
}
