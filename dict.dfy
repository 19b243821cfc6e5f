/** A JavaScript object used as a dictionary: string keys, one value per key, and the
    enumeration order of `Object.keys` / `for ... in`, which is the order in which keys
    were first assigned. `obj[k] = v` on a new key appends it; on an existing key it keeps
    its place; `delete obj[k]` drops it. */
module Dict {

  datatype RawDict<V> = RawDict(keys: seq<string>, items: map<string, V>)

  /** The keys are listed once each, and exactly the keys that have an item. */
  predicate IsDict<V>(d: RawDict<V>)
  {
    Distinct(d.keys)
    && (forall i :: 0 <= i < |d.keys| ==> d.keys[i] in d.items)
    && (forall k :: k in d.items ==> k in d.keys)
  }

  type Dict<V> = d: RawDict<V> | IsDict(d) witness RawDict([], map[])

  function Empty<V>(): (r: Dict<V>)
    ensures r.keys == [] && r.items == map[]
  {
    RawDict([], map[])
  }

  /** `obj[k] = v`. */
  function Put<V>(d: Dict<V>, k: string, v: V): (r: Dict<V>)
    ensures r.items == d.items[k := v]
    ensures r.keys == if k in d.items then d.keys else d.keys + [k]
  {
    RawDict(if k in d.items then d.keys else d.keys + [k], d.items[k := v])
  }

  /** `s` with every occurrence of `k` taken out, the rest in order. */
  function Without(s: seq<string>, k: string): (r: seq<string>)
    ensures forall x :: x in r <==> x in s && x != k
    ensures |r| <= |s|
  {
    if s == [] then []
    else if s[0] == k then Without(s[1..], k)
    else [s[0]] + Without(s[1..], k)
  }

  predicate Distinct(s: seq<string>)
  {
    forall i, j :: 0 <= i < j < |s| ==> s[i] != s[j]
  }

  /** Taking a key out of a duplicate-free list leaves it duplicate-free. */
  lemma {:induction false} WithoutDistinct(s: seq<string>, k: string)
    requires Distinct(s)
    ensures Distinct(Without(s, k))
  {
    if s != [] {
      assert Distinct(s[1..]) by {
        forall i, j | 0 <= i < j < |s| - 1 ensures s[1..][i] != s[1..][j] {
          assert s[1..][i] == s[i + 1] && s[1..][j] == s[j + 1];
        }
      }
      WithoutDistinct(s[1..], k);
      var t := Without(s[1..], k);
      if s[0] != k {
        assert s[0] !in s[1..] by {
          forall j | 0 <= j < |s| - 1 ensures s[1..][j] != s[0] {
            assert s[1..][j] == s[j + 1];
          }
        }
        assert s[0] !in t;
        var r := [s[0]] + t;
        forall i, j | 0 <= i < j < |r| ensures r[i] != r[j] {
          if i == 0 {
            assert r[j] == t[j - 1] && r[j] in t;
          } else {
            assert r[i] == t[i - 1] && r[j] == t[j - 1];
          }
        }
        assert Without(s, k) == r;
      }
    }
  }

  /** Taking out a key that is not listed changes nothing. */
  lemma {:induction false} WithoutAbsent(s: seq<string>, k: string)
    requires k !in s
    ensures Without(s, k) == s
  {
    if s != [] {
      WithoutAbsent(s[1..], k);
      assert s == [s[0]] + s[1..];
    }
  }

  /** Taking out the key that was appended last gives the list back. */
  lemma {:induction false} WithoutLast(s: seq<string>, k: string)
    requires k !in s
    ensures Without(s + [k], k) == s
  {
    if s == [] {
      assert [k][1..] == [];
    } else {
      assert (s + [k])[1..] == s[1..] + [k];
      WithoutLast(s[1..], k);
      assert s == [s[0]] + s[1..];
    }
  }

  /** `delete obj[k]`: the key and its item go, every other key keeps its item and its
      place in the order. */
  function Remove<V>(d: Dict<V>, k: string): (r: Dict<V>)
    ensures r.items == d.items - {k}
    ensures r.keys == Without(d.keys, k)
  {
    RemoveIsDict(d, k);
    RawDict(Without(d.keys, k), d.items - {k})
  }

  /** Taking a key out of both the order and the items leaves a dictionary. */
  lemma RemoveIsDict<V>(d: Dict<V>, k: string)
    ensures IsDict(RawDict(Without(d.keys, k), d.items - {k}))
  {
    WithoutDistinct(d.keys, k);
    var ks := Without(d.keys, k);
    forall i | 0 <= i < |ks| ensures ks[i] in d.items - {k} {
      assert ks[i] in ks;
    }
  }

  /** Inserting a new key and then deleting it gives the dictionary back, order included. */
  lemma PutRemoveRoundTrip<V>(d: Dict<V>, k: string, v: V)
    requires k !in d.items
    ensures Remove(Put(d, k, v), k) == d
  {
    WithoutLast(d.keys, k);
    assert d.items[k := v] - {k} == d.items;
  }

  /** Deleting a key that is absent changes nothing. */
  lemma RemoveAbsent<V>(d: Dict<V>, k: string)
    requires k !in d.items
    ensures Remove(d, k) == d
  {
    WithoutAbsent(d.keys, k);
    assert d.items - {k} == d.items;
  }
}
