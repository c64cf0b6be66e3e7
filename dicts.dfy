/** Python list and dictionary idioms used by the linker: `list.index`, `dict(zip(...))`,
    dictionary inversion and the "symmetrised" base-pair map `{**d, **{v: k for k, v in d.items()}}`. */
module Dicts {
  import opened Wrappers

  /** Each element occurs once. */
  predicate NoDup<T(==)>(s: seq<T>) {
    forall i, j :: 0 <= i < j < |s| ==> s[i] != s[j]
  }

  /** Python `s.index(x)`: the first position of `x`. */
  function IndexOf<T(==)>(s: seq<T>, x: T): (k: nat)
    requires x in s
    ensures k < |s| && s[k] == x
    ensures forall j :: 0 <= j < k ==> s[j] != x
  {
    if s[0] == x then 0 else 1 + IndexOf(s[1..], x)
  }

  lemma IndexOfDistinct<T>(s: seq<T>, k: nat)
    requires NoDup(s) && k < |s|
    ensures IndexOf(s, s[k]) == k
  {
  }

  /** Python `dict(zip(keys, vals))`: later pairs overwrite earlier ones, zip stops at the shorter list. */
  function ZipMap<K, V>(keys: seq<K>, vals: seq<V>): map<K, V>
    decreases |keys|
  {
    var n := if |keys| < |vals| then |keys| else |vals|;
    if n == 0 then map[] else ZipMap(keys[..n - 1], vals[..n - 1])[keys[n - 1] := vals[n - 1]]
  }

  /** The keys of `dict(zip(keys, vals))` are the zipped keys, and each key is bound to the value
      paired with its LAST occurrence. */
  lemma {:induction false} ZipMapSpec<K, V>(keys: seq<K>, vals: seq<V>)
    requires |keys| <= |vals|
    ensures ZipMap(keys, vals).Keys == set k | k in keys
    ensures forall j :: 0 <= j < |keys| && (forall l :: j < l < |keys| ==> keys[l] != keys[j]) ==>
              ZipMap(keys, vals)[keys[j]] == vals[j]
    ensures forall k :: k in ZipMap(keys, vals) ==>
              exists j :: 0 <= j < |keys| && keys[j] == k && ZipMap(keys, vals)[k] == vals[j]
  {
    if |keys| > 0 {
      var n := |keys|;
      ZipMapSpec(keys[..n - 1], vals[..n - 1]);
      assert keys == keys[..n - 1] + [keys[n - 1]];
      assert forall k :: k in keys <==> k in keys[..n - 1] || k == keys[n - 1];
      forall j | 0 <= j < |keys| && (forall l :: j < l < |keys| ==> keys[l] != keys[j])
        ensures ZipMap(keys, vals)[keys[j]] == vals[j]
      {
        if j < n - 1 {
          assert keys[..n - 1][j] == keys[j];
          assert vals[..n - 1][j] == vals[j];
        }
      }
      forall k | k in ZipMap(keys, vals)
        ensures exists j :: 0 <= j < |keys| && keys[j] == k && ZipMap(keys, vals)[k] == vals[j]
      {
        if k != keys[n - 1] {
          var j :| 0 <= j < n - 1 && keys[..n - 1][j] == k && ZipMap(keys[..n - 1], vals[..n - 1])[k] == vals[..n - 1][j];
          assert keys[j] == k && vals[j] == vals[..n - 1][j];
        }
      }
    }
  }

  /** With distinct keys, the k-th key is bound to the k-th value. */
  lemma ZipMapDistinct<K, V>(keys: seq<K>, vals: seq<V>, k: nat)
    requires |keys| <= |vals| && NoDup(keys) && k < |keys|
    ensures keys[k] in ZipMap(keys, vals) && ZipMap(keys, vals)[keys[k]] == vals[k]
  {
    ZipMapSpec(keys, vals);
  }

  /** A dictionary comprehension with a filter, `{k: v for ... if ...}`: the candidate entries in
      iteration order, `None` where the filter drops one; a later entry overwrites an earlier one
      with the same key. */
  function DictComp<K, V>(entries: seq<(K, Option<V>)>): map<K, V>
    decreases |entries|
  {
    if entries == [] then map[]
    else
      var m := DictComp(entries[..|entries| - 1]);
      var e := entries[|entries| - 1];
      if e.1.Some? then m[e.0 := e.1.value] else m
  }

  /** The keys are those of the entries that pass the filter. */
  lemma {:induction false} DictCompKeys<K, V>(entries: seq<(K, Option<V>)>)
    ensures forall k :: k in DictComp(entries) <==> exists i :: 0 <= i < |entries| && entries[i].0 == k && entries[i].1.Some?
    decreases |entries|
  {
    if entries != [] {
      var n := |entries| - 1;
      var pre := entries[..n];
      DictCompKeys(pre);
      assert forall i :: 0 <= i < n ==> pre[i] == entries[i];
      var m := DictComp(entries);
      assert m == if entries[n].1.Some? then DictComp(pre)[entries[n].0 := entries[n].1.value] else DictComp(pre);
      forall k ensures k in m <==> exists i :: 0 <= i < |entries| && entries[i].0 == k && entries[i].1.Some? {
        if k in m && !(entries[n].0 == k && entries[n].1.Some?) {
          assert k in DictComp(pre);
          var i :| 0 <= i < |pre| && pre[i].0 == k && pre[i].1.Some?;
          assert entries[i] == pre[i];
        }
        if exists i :: 0 <= i < |entries| && entries[i].0 == k && entries[i].1.Some? {
          var i :| 0 <= i < |entries| && entries[i].0 == k && entries[i].1.Some?;
          if i < n {
            assert pre[i].0 == k && pre[i].1.Some?;
          }
        }
      }
    }
  }

  /** Every stored value comes from an entry for its key. */
  lemma {:induction false} DictCompWitness<K, V>(entries: seq<(K, Option<V>)>)
    ensures forall k :: k in DictComp(entries) ==>
              exists i :: 0 <= i < |entries| && entries[i].0 == k && entries[i].1 == Some(DictComp(entries)[k])
    decreases |entries|
  {
    if entries != [] {
      var n := |entries| - 1;
      var pre := entries[..n];
      DictCompWitness(pre);
      var m := DictComp(entries);
      forall k | k in m ensures exists i :: 0 <= i < |entries| && entries[i].0 == k && entries[i].1 == Some(m[k]) {
        if !(entries[n].0 == k && entries[n].1.Some?) {
          assert k in DictComp(pre) && m[k] == DictComp(pre)[k];
          var i :| 0 <= i < |pre| && pre[i].0 == k && pre[i].1 == Some(DictComp(pre)[k]);
          assert entries[i] == pre[i];
        }
      }
    }
  }

  /** The keys are those of the entries that pass the filter, and each is bound to the value of
      the last such entry. */
  lemma {:induction false} DictCompSpec<K, V>(entries: seq<(K, Option<V>)>)
    ensures forall k :: k in DictComp(entries) <==> exists i :: 0 <= i < |entries| && entries[i].0 == k && entries[i].1.Some?
    ensures forall i :: 0 <= i < |entries| && entries[i].1.Some?
              && (forall j :: i < j < |entries| && entries[j].1.Some? ==> entries[j].0 != entries[i].0)
              ==> DictComp(entries)[entries[i].0] == entries[i].1.value
    decreases |entries|
  {
    DictCompKeys(entries);
    if entries != [] {
      var n := |entries| - 1;
      var pre := entries[..n];
      DictCompSpec(pre);
      assert forall i :: 0 <= i < n ==> pre[i] == entries[i];
    }
  }

  /** A loop that stores the entries one by one into `m0` has, after `k + 1` of them, the
      comprehension over those `k + 1` laid over `m0`. */
  lemma DictCompExtend<K, V>(m0: map<K, V>, entries: seq<(K, Option<V>)>, k: nat)
    requires k < |entries| && entries[k].1.Some?
    ensures m0 + DictComp(entries[..k + 1]) == (m0 + DictComp(entries[..k]))[entries[k].0 := entries[k].1.value]
  {
    assert entries[..k + 1][..k] == entries[..k];
  }

  /** The entries of `{key[x]: g[x] for x in all}`. */
  function Entries<B, K, V>(key: map<B, K>, g: map<B, V>, all: seq<B>): (r: seq<(K, Option<V>)>)
    requires forall i :: 0 <= i < |all| ==> all[i] in g && all[i] in key
    ensures |r| == |all|
  {
    seq(|all|, i requires 0 <= i < |all| => (key[all[i]], Some(g[all[i]])))
  }

  /** `{key[x]: g[x] for x in all}` where `all` lists every key of `g`: keyed by the items' keys,
      each value that of the item `src` names for its key, and each item's own when no two items
      share a key. */
  lemma KeyedBy<B, K, V>(key: map<B, K>, g: map<B, V>, all: seq<B>) returns (src: map<K, B>)
    requires g.Keys <= key.Keys && forall x :: x in all <==> x in g
    ensures var m := DictComp(Entries(key, g, all));
      m.Keys == src.Keys
      && (forall b :: b in g ==> key[b] in m)
      && (forall f :: f in src ==> src[f] in g && key[src[f]] == f && m[f] == g[src[f]])
      && (Injective(key) ==> forall b :: b in g ==> m[key[b]] == g[b])
  {
    assert forall i :: 0 <= i < |all| ==> all[i] in all;
    var e := Entries(key, g, all);
    var m := DictComp(e);
    DictCompKeys(e);
    DictCompWitness(e);
    forall b | b in g ensures key[b] in m {
      var i :| 0 <= i < |all| && all[i] == b;
      assert e[i].0 == key[b] && e[i].1.Some?;
    }
    src := map f | f in m :: var i :| 0 <= i < |e| && e[i].0 == f && e[i].1 == Some(m[f]); all[i];
    if Injective(key) {
      forall b | b in g ensures m[key[b]] == g[b] {
        var f := key[b];
        var i :| 0 <= i < |e| && e[i].0 == f && e[i].1 == Some(m[f]);
        assert all[i] in g && key[all[i]] == f;
      }
    }
  }

  predicate Injective<K, V(==)>(m: map<K, V>) {
    forall x, y :: x in m && y in m && x != y ==> m[x] != m[y]
  }

  /** `r` is an inversion of `m`, as `{v: k for k, v in m.items()}` builds one: every value of `m`
      becomes a key, bound to one of the keys that carried it. */
  predicate IsInverse<K, V>(m: map<K, V>, r: map<V, K>) {
    r.Keys == m.Values && forall v :: v in r ==> r[v] in m && m[r[v]] == v
  }

  /** `{v: k for k, v in m.items()}`.  The comprehension walks the dictionary in insertion order,
      which a map does not record, so the keys are taken here in an arbitrary order; for a value
      carried by several keys the last one taken wins. */
  method Invert<K, V(==)>(m: map<K, V>) returns (r: map<V, K>)
    ensures IsInverse(m, r)
  {
    r := map[];
    var todo := m.Keys;
    while todo != {}
      invariant todo <= m.Keys
      invariant forall k :: k in m && k !in todo ==> m[k] in r
      invariant forall v :: v in r ==> r[v] in m && m[r[v]] == v
      decreases todo
    {
      var k :| k in todo;
      r := r[m[k] := k];
      todo := todo - {k};
    }
    forall v | v in m.Values ensures v in r {
      var k :| k in m && m[k] == v;
    }
  }

  /** A key that carries the value `v`. */
  lemma KeyFor<K, V>(m: map<K, V>, v: V) returns (k: K)
    requires v in m.Values
    ensures k in m && m[k] == v
  {
    k :| k in m && m[k] == v;
  }

  /** An injective map has exactly one inversion: each value goes back to the key it came from. */
  lemma InverseOfInjective<K, V>(m: map<K, V>, r: map<V, K>, k: K)
    requires Injective(m) && IsInverse(m, r) && k in m
    ensures m[k] in r && r[m[k]] == k
  {
    assert m[k] in m.Values;
  }

  /** `{**m, **{v: k for k, v in m.items()}}`, given the inversion the comprehension produced: on
      a key that is also a value the inverted entry wins. */
  function Symmetrize<K>(m: map<K, K>, inv: map<K, K>): (r: map<K, K>)
    requires IsInverse(m, inv)
    ensures r.Keys == m.Keys + m.Values
    ensures forall v :: v in m.Values ==> r[v] in m && m[r[v]] == v
    ensures forall k :: k in m && k !in m.Values ==> r[k] == m[k]
  {
    m + inv
  }

  /** For an injective map whose keys and values are disjoint (scaffold fit-ids against staple
      fit-ids), the symmetrised map is an involution without fixed points: the partner of a
      partner is the base itself. */
  lemma SymmetrizeInvolution<K>(m: map<K, K>, inv: map<K, K>, x: K)
    requires Injective(m) && m.Keys !! m.Values && IsInverse(m, inv)
    requires x in m.Keys + m.Values
    ensures var s := Symmetrize(m, inv); x in s && s[x] in s && s[s[x]] == x && s[x] != x
  {
    var s := Symmetrize(m, inv);
    if x in m {
      assert x !in m.Values;
      assert s[x] == m[x] && m[x] in m.Values;
      InverseOfInjective(m, inv, x);
    } else {
      var k := inv[x];
      assert s[x] == k && k in m && m[k] == x;
      assert k !in m.Values;
    }
  }
}
