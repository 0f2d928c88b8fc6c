/**
 * Insertion-ordered dictionaries, as JavaScript's `Map` and plain-object
 * records keep them: a key list in insertion order beside the key-to-value map.
 * Setting an existing key keeps its position; a new key goes to the end;
 * deleting removes the key from the order.
 */
module OrderedMaps {

  datatype OMap<K(==,!new), V> = OMap(keys: seq<K>, vals: map<K, V>) {

    /** The key list has no repetitions and holds exactly the keys of the map. */
    ghost predicate Valid() {
      && (forall i, j :: 0 <= i < j < |keys| ==> keys[i] != keys[j])
      && (forall k :: k in vals <==> k in keys)
    }

    /** `m.set(k, v)`. */
    function Set(k: K, v: V): (r: OMap<K, V>)
      requires Valid()
      ensures r.Valid()
      ensures r.vals == vals[k := v]
      ensures k in vals ==> r.keys == keys
      ensures k !in vals ==> r.keys == keys + [k]
    {
      if k in vals then OMap(keys, vals[k := v]) else OMap(keys + [k], vals[k := v])
    }

    /** `m.delete(k)`. */
    function Delete(k: K): (r: OMap<K, V>)
      requires Valid()
      ensures r.Valid()
      ensures r.vals == vals - {k}
      ensures r.keys == Without(keys, k)
    {
      WithoutMembers(keys, k);
      WithoutDistinct(keys, k);
      OMap(Without(keys, k), vals - {k})
    }
  }

  function Empty<K(==,!new), V>(): (r: OMap<K, V>)
    ensures r.Valid() && r.keys == [] && r.vals == map[]
  {
    OMap([], map[])
  }

  /** `ks` with every occurrence of `k` removed, the rest in order. */
  function Without<K(==,!new)>(ks: seq<K>, k: K): seq<K>
  {
    if |ks| == 0 then [] else if ks[|ks| - 1] == k then Without(ks[..|ks| - 1], k) else Without(ks[..|ks| - 1], k) + [ks[|ks| - 1]]
  }

  lemma {:induction false} WithoutMembers<K(!new)>(ks: seq<K>, k: K)
    ensures forall x :: x in Without(ks, k) <==> x in ks && x != k
  {
    if |ks| > 0 {
      WithoutMembers(ks[..|ks| - 1], k);
      assert ks == ks[..|ks| - 1] + [ks[|ks| - 1]];
    }
  }

  lemma {:induction false} WithoutDistinct<K(!new)>(ks: seq<K>, k: K)
    requires forall i, j :: 0 <= i < j < |ks| ==> ks[i] != ks[j]
    ensures forall i, j :: 0 <= i < j < |Without(ks, k)| ==> Without(ks, k)[i] != Without(ks, k)[j]
  {
    if |ks| > 0 {
      var init := ks[..|ks| - 1];
      WithoutDistinct(init, k);
      WithoutMembers(init, k);
      var w0 := Without(init, k);
      forall i | 0 <= i < |w0| ensures w0[i] != ks[|ks| - 1] {
        assert w0[i] in w0;
      }
    }
  }

  /** The keys of `ks` that are not keys of `m`, in order. */
  function NotIn<K(==,!new), V>(ks: seq<K>, m: map<K, V>): seq<K>
  {
    if |ks| == 0 then [] else if ks[|ks| - 1] in m then NotIn(ks[..|ks| - 1], m) else NotIn(ks[..|ks| - 1], m) + [ks[|ks| - 1]]
  }

  /** Sets the keys `ks` one by one to their values in `src`, in order. */
  function Assign<K(==,!new), V>(m: OMap<K, V>, ks: seq<K>, src: map<K, V>): OMap<K, V>
    requires m.Valid()
    requires forall k :: k in ks ==> k in src
    decreases |ks|
  {
    if |ks| == 0 then m else Assign(m.Set(ks[0], src[ks[0]]), ks[1..], src)
  }

  /**
   * `{ ...m, ...data }`: every key of `m` keeps its position, keys that only
   * `data` has are appended in `data`'s order, and `data`'s values win.
   */
  function Spread<K(==,!new), V>(m: OMap<K, V>, data: OMap<K, V>): (r: OMap<K, V>)
    requires m.Valid() && data.Valid()
    ensures r.Valid()
    ensures r.vals == m.vals + data.vals
    ensures r.keys == m.keys + NotIn(data.keys, m.vals)
  {
    AssignSpec(m, data.keys, data.vals);
    Assign(m, data.keys, data.vals)
  }

  lemma {:induction false} AssignSpec<K(!new), V>(m: OMap<K, V>, ks: seq<K>, src: map<K, V>)
    requires m.Valid()
    requires forall k :: k in ks ==> k in src
    requires forall i, j :: 0 <= i < j < |ks| ==> ks[i] != ks[j]
    ensures Assign(m, ks, src).Valid()
    ensures Assign(m, ks, src).vals == m.vals + (map k | k in ks :: src[k])
    ensures Assign(m, ks, src).keys == m.keys + NotIn(ks, m.vals)
    decreases |ks|
  {
    if |ks| > 0 {
      var m1 := m.Set(ks[0], src[ks[0]]);
      var rest := ks[1..];
      assert forall k :: k in rest ==> k in src by {
        forall k | k in rest ensures k in src { assert k in ks; }
      }
      assert forall i, j :: 0 <= i < j < |rest| ==> rest[i] != rest[j] by {
        forall i, j | 0 <= i < j < |rest| ensures rest[i] != rest[j] { assert rest[i] == ks[i + 1] && rest[j] == ks[j + 1]; }
      }
      AssignSpec(m1, rest, src);
      assert Assign(m, ks, src) == Assign(m1, rest, src);
      UnionStep(m.vals, ks, src);
      SetThenNotIn(m, ks, src[ks[0]]);
    }
  }

  /** Setting the first key, then appending the new ones among the rest, appends the new ones among all. */
  lemma SetThenNotIn<K(!new), V>(m: OMap<K, V>, ks: seq<K>, v: V)
    requires m.Valid() && |ks| > 0
    requires forall i, j :: 0 <= i < j < |ks| ==> ks[i] != ks[j]
    ensures m.Set(ks[0], v).keys + NotIn(ks[1..], m.Set(ks[0], v).vals) == m.keys + NotIn(ks, m.vals)
  {
    var m1 := m.Set(ks[0], v);
    NotInStep(ks, m.vals, v);
    var first := if ks[0] in m.vals then [] else [ks[0]];
    assert m1.keys == m.keys + first;
    ConcatAssoc(m.keys, first, NotIn(ks[1..], m1.vals));
  }

  lemma ConcatAssoc<K>(a: seq<K>, b: seq<K>, c: seq<K>)
    ensures (a + b) + c == a + (b + c)
  {
  }

  lemma UnionStep<K(!new), V>(m: map<K, V>, ks: seq<K>, src: map<K, V>)
    requires |ks| > 0
    requires forall k :: k in ks ==> k in src
    ensures m[ks[0] := src[ks[0]]] + (map k | k in ks[1..] :: src[k]) == m + (map k | k in ks :: src[k])
  {
    var a := m[ks[0] := src[ks[0]]] + (map k | k in ks[1..] :: src[k]);
    var b := m + (map k | k in ks :: src[k]);
    assert forall k :: k in ks <==> k == ks[0] || k in ks[1..];
    assert a.Keys == b.Keys;
    forall k | k in a.Keys ensures a[k] == b[k] {
    }
  }

  /** Deciding the first key, then the rest against the grown map, filters like deciding all at once. */
  lemma {:induction false} NotInStep<K(!new), V>(ks: seq<K>, m: map<K, V>, v: V)
    requires |ks| > 0
    requires forall i, j :: 0 <= i < j < |ks| ==> ks[i] != ks[j]
    ensures (if ks[0] in m then [] else [ks[0]]) + NotIn(ks[1..], m[ks[0] := v]) == NotIn(ks, m)
  {
    if |ks| == 1 {
      assert ks[1..] == [];
      assert ks[..0] == [];
    } else {
      var init := ks[..|ks| - 1];
      NotInStep(init, m, v);
      assert ks[1..][..|ks[1..]| - 1] == init[1..];
      assert ks[|ks| - 1] != ks[0];
    }
  }

  /** `{ ...{}, ...data }` is `data` itself, order included. */
  lemma SpreadOfEmpty<K(!new), V>(data: OMap<K, V>)
    requires data.Valid()
    ensures Spread(Empty(), data) == data
  {
    var r := Spread(Empty(), data);
    SpreadOfEmptyKeys(data.keys, Empty<K, V>().vals, r.keys);
    SpreadOfEmptyVals(data.vals, r.vals);
  }

  lemma SpreadOfEmptyKeys<K(!new), V>(ks: seq<K>, m: map<K, V>, rs: seq<K>)
    requires m == map[] && rs == [] + NotIn(ks, m)
    ensures rs == ks
  {
    NotInEmpty(ks, m);
  }

  lemma SpreadOfEmptyVals<K(!new), V>(vs: map<K, V>, rs: map<K, V>)
    requires rs == map[] + vs
    ensures rs == vs
  {
  }

  lemma {:induction false} NotInEmpty<K(!new), V>(ks: seq<K>, m: map<K, V>)
    requires m == map[]
    ensures NotIn(ks, m) == ks
  {
    if |ks| > 0 {
      NotInEmpty(ks[..|ks| - 1], m);
      assert ks[..|ks| - 1] + [ks[|ks| - 1]] == ks;
    }
  }

  /** A valid ordered map has as many entries as its key list has keys (`m.size`). */
  lemma SizeOfValid<K(!new), V>(m: OMap<K, V>)
    requires m.Valid()
    ensures |m.vals| == |m.keys|
  {
    DistinctCard(m.keys);
    assert m.vals.Keys == set k | k in m.keys;
  }

  lemma {:induction false} DistinctCard<K(!new)>(ks: seq<K>)
    requires forall i, j :: 0 <= i < j < |ks| ==> ks[i] != ks[j]
    ensures |set k | k in ks| == |ks|
  {
    if |ks| > 0 {
      var init := ks[..|ks| - 1];
      DistinctCard(init);
      assert (set k | k in ks) == (set k | k in init) + {ks[|ks| - 1]};
      assert ks[|ks| - 1] !in init;
    }
  }
}
