/** What `Array.from(new Map(xs.map(x => [key(x), x])).values())` computes, and
    what filling a plain object with `obj[key(x)] = x` and reading
    `Object.values(obj)` computes for non-integer-like keys: one entry per key,
    placed where the key first occurred, holding the key's LAST element (a
    second `set` of a present key overwrites the value but keeps the position). */
module KeyedMap {

  function Keys<T, K>(xs: seq<T>, key: T -> K): (ks: seq<K>)
    ensures |ks| == |xs|
    ensures forall i :: 0 <= i < |xs| ==> ks[i] == key(xs[i])
  {
    seq(|xs|, i requires 0 <= i < |xs| => key(xs[i]))
  }

  /** The index of the first occurrence of `k` in `ks`. */
  function FirstIndex<K(==)>(ks: seq<K>, k: K): (i: nat)
    requires k in ks
    ensures i < |ks| && ks[i] == k && k !in ks[..i]
  {
    if ks[0] == k then 0 else 1 + FirstIndex(ks[1..], k)
  }

  /** The index of the last occurrence of `k` in `ks`. */
  function LastIndex<K(==)>(ks: seq<K>, k: K): (i: nat)
    requires k in ks
    ensures i < |ks| && ks[i] == k && k !in ks[i + 1..]
  {
    if ks[|ks| - 1] == k then |ks| - 1 else LastIndex(ks[..|ks| - 1], k)
  }

  ghost predicate Distinct<K>(ks: seq<K>) {
    forall i, j :: 0 <= i < j < |ks| ==> ks[i] != ks[j]
  }

  /** The keys of `ks`, each once, in order of first occurrence. */
  function Dedup<K(==)>(ks: seq<K>): seq<K> {
    if ks == [] then []
    else
      var d := Dedup(ks[..|ks| - 1]);
      if ks[|ks| - 1] in d then d else d + [ks[|ks| - 1]]
  }

  /** One `map.set(key(x), x)` step on the insertion-ordered entries `acc`. */
  function Set<T, K(==)>(acc: seq<T>, x: T, key: T -> K): seq<T>
  {
    var ks := Keys(acc, key);
    if key(x) in ks then acc[FirstIndex(ks, key(x)) := x] else acc + [x]
  }

  /** The values of the map built from `xs`, in insertion order. */
  function MapValues<T, K(==)>(xs: seq<T>, key: T -> K): (r: seq<T>)
    ensures |r| <= |xs|
  {
    if xs == [] then [] else Set(MapValues(xs[..|xs| - 1], key), xs[|xs| - 1], key)
  }

  /** The entries' keys are the distinct keys in first-occurrence order. */
  lemma {:induction false} MapValuesKeys<T, K>(xs: seq<T>, key: T -> K)
    ensures Keys(MapValues(xs, key), key) == Dedup(Keys(xs, key))
  {
    if xs != [] {
      var init := xs[..|xs| - 1];
      var x := xs[|xs| - 1];
      MapValuesKeys(init, key);
      assert Keys(xs, key)[..|xs| - 1] == Keys(init, key);
      var acc := MapValues(init, key);
      var kacc := Keys(acc, key);
      if key(x) in kacc {
        assert Keys(Set(acc, x, key), key) == kacc[FirstIndex(kacc, key(x)) := key(x)];
      } else {
        assert Keys(Set(acc, x, key), key) == kacc + [key(x)];
      }
    }
  }

  lemma {:induction false} DedupDistinct<K>(ks: seq<K>)
    ensures Distinct(Dedup(ks))
  {
    if ks != [] {
      DedupDistinct(ks[..|ks| - 1]);
    }
  }

  lemma {:induction false} DedupMembers<K>(ks: seq<K>)
    ensures forall k :: k in Dedup(ks) <==> k in ks
  {
    if ks != [] {
      DedupMembers(ks[..|ks| - 1]);
      assert ks == ks[..|ks| - 1] + [ks[|ks| - 1]];
    }
  }

  lemma DedupMember<K>(ks: seq<K>, k: K)
    requires k in Dedup(ks)
    ensures k in ks
  {
    DedupMembers(ks);
  }

  /** Earlier in `Dedup(ks)` means first seen earlier in `ks`. */
  lemma {:induction false} DedupOrder<K>(ks: seq<K>, i: nat, j: nat)
    requires i < j < |Dedup(ks)|
    ensures Dedup(ks)[i] in ks && Dedup(ks)[j] in ks
    ensures FirstIndex(ks, Dedup(ks)[i]) < FirstIndex(ks, Dedup(ks)[j])
  {
    var init := ks[..|ks| - 1];
    var d := Dedup(init);
    DedupMembers(ks);
    DedupMembers(init);
    assert ks == init + [ks[|ks| - 1]];
    if j < |d| {
      DedupOrder(init, i, j);
      FirstIndexPrefix(init, [ks[|ks| - 1]], d[i]);
      FirstIndexPrefix(init, [ks[|ks| - 1]], d[j]);
    } else {
      // Dedup(ks)[j] is the last key, seen for the first time at the end
      assert Dedup(ks) == d + [ks[|ks| - 1]];
      assert i < |d|;
      assert Dedup(ks)[i] == d[i] && d[i] in d;
      DedupMember(init, d[i]);
      assert d[i] in init;
      FirstIndexPrefix(init, [ks[|ks| - 1]], d[i]);
      assert ks[|ks| - 1] !in init;
      assert FirstIndex(ks, ks[|ks| - 1]) == |init|;
    }
  }

  lemma {:induction false} FirstIndexPrefix<K>(a: seq<K>, b: seq<K>, k: K)
    requires k in a
    ensures FirstIndex(a + b, k) == FirstIndex(a, k)
  {
    if a[0] != k {
      assert (a + b)[1..] == a[1..] + b;
      FirstIndexPrefix(a[1..], b, k);
    }
  }

  /** Every entry holds the last element of `xs` with its key. */
  lemma {:induction false} MapValuesLast<T, K>(xs: seq<T>, key: T -> K, i: nat)
    requires i < |MapValues(xs, key)|
    ensures key(MapValues(xs, key)[i]) in Keys(xs, key)
    ensures MapValues(xs, key)[i] == xs[LastIndex(Keys(xs, key), key(MapValues(xs, key)[i]))]
  {
    var init := xs[..|xs| - 1];
    var x := xs[|xs| - 1];
    var acc := MapValues(init, key);
    var kacc := Keys(acc, key);
    var ks, ks' := Keys(init, key), Keys(xs, key);
    assert ks' == ks + [key(x)];
    var r := MapValues(xs, key);
    MapValuesKeys(init, key);
    DedupDistinct(ks);
    if key(x) in kacc && i == FirstIndex(kacc, key(x)) {
      assert r[i] == x;
    } else if i < |acc| {
      assert r[i] == acc[i];
      MapValuesLast(init, key, i);
      assert key(acc[i]) != key(x);
      assert ks'[..|ks'| - 1] == ks;
    } else {
      assert r[i] == x;
    }
  }

  /** What a `filter` with a `seen` set computes: the elements whose key has not
      been seen before, in their original order. */
  function FirstByKey<T, K(==)>(xs: seq<T>, key: T -> K): (r: seq<T>)
    ensures |r| <= |xs|
  {
    if xs == [] then []
    else
      var r := FirstByKey(xs[..|xs| - 1], key);
      if key(xs[|xs| - 1]) in Keys(r, key) then r else r + [xs[|xs| - 1]]
  }

  /** The `seen`-set filter loop. */
  method FilterFirstByKey<T, K(==)>(xs: seq<T>, key: T -> K) returns (r: seq<T>)
    ensures r == FirstByKey(xs, key)
  {
    var seen: set<K> := {};
    r := [];
    for i := 0 to |xs|
      invariant r == FirstByKey(xs[..i], key)
      invariant seen == set j | 0 <= j < |r| :: key(r[j])
    {
      assert xs[..i + 1][..i] == xs[..i];
      var k := key(xs[i]);
      assert k in seen <==> k in Keys(r, key);
      if k !in seen {
        var r' := r + [xs[i]];
        forall j | 0 <= j < |r| ensures r'[j] == r[j] { }
        assert key(r'[|r|]) == k;
        assert (set j | 0 <= j < |r'| :: key(r'[j])) == seen + {k};
        seen := seen + {k};
        r := r';
      }
    }
    assert xs[..|xs|] == xs;
  }

  /** The kept elements' keys are the distinct keys in first-occurrence order. */
  lemma {:induction false} FirstByKeyKeys<T, K>(xs: seq<T>, key: T -> K)
    ensures Keys(FirstByKey(xs, key), key) == Dedup(Keys(xs, key))
  {
    if xs != [] {
      var init := xs[..|xs| - 1];
      FirstByKeyKeys(init, key);
      assert Keys(xs, key)[..|xs| - 1] == Keys(init, key);
      var r := FirstByKey(init, key);
      if key(xs[|xs| - 1]) !in Keys(r, key) {
        assert Keys(r + [xs[|xs| - 1]], key) == Keys(r, key) + [key(xs[|xs| - 1])];
      }
    }
  }

  /** Every kept element is the first element of `xs` with its key. */
  lemma {:induction false} FirstByKeyFirst<T, K>(xs: seq<T>, key: T -> K, i: nat)
    requires i < |FirstByKey(xs, key)|
    ensures key(FirstByKey(xs, key)[i]) in Keys(xs, key)
    ensures FirstByKey(xs, key)[i] == xs[FirstIndex(Keys(xs, key), key(FirstByKey(xs, key)[i]))]
  {
    var init := xs[..|xs| - 1];
    var x := xs[|xs| - 1];
    var r := FirstByKey(init, key);
    var ks, ks' := Keys(init, key), Keys(xs, key);
    assert ks' == ks + [key(x)];
    if i < |r| {
      FirstByKeyFirst(init, key, i);
      FirstIndexPrefix(ks, [key(x)], key(r[i]));
    } else {
      assert FirstByKey(xs, key) == r + [x];
      FirstByKeyKeys(init, key);
      assert key(x) !in Keys(r, key);
      DedupMembers(ks);
      assert key(x) in Dedup(ks) <==> key(x) in ks;
      assert FirstIndex(ks', key(x)) == |ks|;
    }
  }

  /** No two kept elements share a key, and every key of the input is kept. */
  lemma FirstByKeyUnique<T, K>(xs: seq<T>, key: T -> K)
    ensures forall i, j :: 0 <= i < j < |FirstByKey(xs, key)| ==>
      key(FirstByKey(xs, key)[i]) != key(FirstByKey(xs, key)[j])
    ensures forall i :: 0 <= i < |xs| ==> key(xs[i]) in Keys(FirstByKey(xs, key), key)
  {
    var r := FirstByKey(xs, key);
    FirstByKeyKeys(xs, key);
    DedupDistinct(Keys(xs, key));
    DedupMembers(Keys(xs, key));
    assert forall i :: 0 <= i < |r| ==> Keys(r, key)[i] == key(r[i]);
    forall i | 0 <= i < |xs|
      ensures key(xs[i]) in Keys(r, key)
    {
      assert Keys(xs, key)[i] == key(xs[i]);
      assert key(xs[i]) in Dedup(Keys(xs, key)) <==> key(xs[i]) in Keys(xs, key);
    }
  }

  /** A prefix whose keys are already distinct comes through whole and first. */
  lemma {:induction false} FirstByKeyKeepsDistinctPrefix<T, K>(a: seq<T>, b: seq<T>, key: T -> K)
    requires forall i, j :: 0 <= i < j < |a| ==> key(a[i]) != key(a[j])
    ensures |a| <= |FirstByKey(a + b, key)| && FirstByKey(a + b, key)[..|a|] == a
  {
    if b == [] {
      assert a + b == a;
      FirstByKeyOfDistinct(a, key);
    } else {
      var b' := b[..|b| - 1];
      assert (a + b)[..|a + b| - 1] == a + b';
      FirstByKeyKeepsDistinctPrefix(a, b', key);
    }
  }

  lemma {:induction false} FirstByKeyOfDistinct<T, K>(a: seq<T>, key: T -> K)
    requires forall i, j :: 0 <= i < j < |a| ==> key(a[i]) != key(a[j])
    ensures FirstByKey(a, key) == a
  {
    if a != [] {
      var init := a[..|a| - 1];
      FirstByKeyOfDistinct(init, key);
      assert forall i :: 0 <= i < |init| ==> Keys(init, key)[i] != key(a[|a| - 1]);
    }
  }
}
