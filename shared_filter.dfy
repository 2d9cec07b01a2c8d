/** The last step of both groupers: count how often each group value occurs
    (collections.Counter over the dict's values) and keep, in dict order, the
    (key, value) items whose value occurs more than once. */
module SharedFilter {
  import opened Fingerprints

  /** Counter(values)[v]. */
  function Count<V(==)>(values: seq<V>, v: V): (n: nat)
    ensures n <= |values|
    ensures n > 0 <==> v in values
  {
    if values == [] then 0
    else Count(values[..|values| - 1], v) + (if values[|values| - 1] == v then 1 else 0)
  }

  /** A value is counted more than once exactly when two positions hold it. */
  lemma {:induction false} CountAboveOne<V>(values: seq<V>, v: V)
    ensures Count(values, v) > 1 <==>
            exists i, j | 0 <= i < j < |values| :: values[i] == v && values[j] == v
  {
    if values != [] {
      var init, last := values[..|values| - 1], values[|values| - 1];
      CountAboveOne(init, v);
      if Count(values, v) > 1 {
        if last == v && Count(init, v) == 1 {
          var i :| 0 <= i < |init| && init[i] == v;
          assert values[i] == v && values[|values| - 1] == v;
        } else {
          var i, j :| 0 <= i < j < |init| && init[i] == v && init[j] == v;
          assert values[i] == v && values[j] == v;
        }
      }
      if exists i, j | 0 <= i < j < |values| :: values[i] == v && values[j] == v {
        var i, j :| 0 <= i < j < |values| && values[i] == v && values[j] == v;
        if j < |values| - 1 {
          assert init[i] == v && init[j] == v;
        } else {
          assert init[i] == v;
        }
      }
    }
  }

  /** dict.values() for a dict whose keys, in order, are `keys`. */
  function Values<V>(keys: seq<string>, m: map<string, V>): (vs: seq<V>)
    requires forall k | k in keys :: k in m
    ensures |vs| == |keys|
    ensures forall i | 0 <= i < |keys| :: vs[i] == m[keys[i]]
  {
    if keys == [] then [] else Values(keys[..|keys| - 1], m) + [m[keys[|keys| - 1]]]
  }

  /** dict.items() for a dict whose keys, in order, are `keys`. */
  function Items<V>(keys: seq<string>, m: map<string, V>): (items: seq<(string, V)>)
    requires forall k | k in keys :: k in m
    ensures |items| == |keys|
    ensures forall i | 0 <= i < |keys| :: items[i] == (keys[i], m[keys[i]])
  {
    if keys == [] then [] else Items(keys[..|keys| - 1], m) + [(keys[|keys| - 1], m[keys[|keys| - 1]])]
  }

  /** filter(lambda g: cnt[g[1]] > 1, items), keeping the items' order. */
  function Shared<V(==)>(items: seq<(string, V)>, values: seq<V>): (out: seq<(string, V)>)
    ensures |out| <= |items|
    ensures forall e | e in out :: e in items && Count(values, e.1) > 1
    ensures forall e | e in items && Count(values, e.1) > 1 :: e in out
  {
    if items == [] then []
    else
      var init, last := items[..|items| - 1], items[|items| - 1];
      assert items == init + [last];
      Shared(init, values) + (if Count(values, last.1) > 1 then [last] else [])
  }

  /** The filtered items of a dict (its keys in order, its mapping m). */
  function SharedEntries<V(==)>(keys: seq<string>, m: map<string, V>): (out: seq<(string, V)>)
    requires forall k | k in keys :: k in m
    ensures |out| <= |keys|
    ensures forall e | e in out :: e.0 in keys && e.1 == m[e.0] && Count(Values(keys, m), e.1) > 1
  {
    Shared(Items(keys, m), Values(keys, m))
  }

  /** Every filtered item is an item of the dict: a key with its own value. */
  lemma SharedEntryAt<V>(keys: seq<string>, m: map<string, V>, i: nat)
    requires forall k | k in keys :: k in m
    requires i < |SharedEntries(keys, m)|
    ensures SharedEntries(keys, m)[i].0 in keys
    ensures SharedEntries(keys, m)[i].1 == m[SharedEntries(keys, m)[i].0]
  {
    var out, items := SharedEntries(keys, m), Items(keys, m);
    assert out[i] in out;
    var j :| 0 <= j < |items| && items[j] == out[i];
    assert items[j] == (keys[j], m[keys[j]]);
  }

  predicate Distinct(keys: seq<string>)
  {
    forall i, j | 0 <= i < j < |keys| :: keys[i] != keys[j]
  }

  /** An item survives the filter exactly when another key of the dict
      carries the same value. */
  lemma SharedEntriesIff<V>(keys: seq<string>, m: map<string, V>, k: string, v: V)
    requires forall k | k in keys :: k in m
    requires Distinct(keys)
    ensures (k, v) in SharedEntries(keys, m) <==>
            k in keys && m[k] == v && exists k' | k' in keys && k' != k :: m[k'] == v
  {
    var items, values := Items(keys, m), Values(keys, m);
    CountAboveOne(values, v);
    if (k, v) in SharedEntries(keys, m) {
      var i, j :| 0 <= i < j < |values| && values[i] == v && values[j] == v;
      if keys[i] == k {
        assert keys[j] != k && m[keys[j]] == v;
      } else {
        assert keys[i] != k && m[keys[i]] == v;
      }
    }
    if k in keys && m[k] == v && exists k' | k' in keys && k' != k :: m[k'] == v {
      var k' :| k' in keys && k' != k && m[k'] == v;
      var i :| 0 <= i < |keys| && keys[i] == k;
      var j :| 0 <= j < |keys| && keys[j] == k';
      assert items[i] == (k, v);
      if i < j {
        assert values[i] == v && values[j] == v;
      } else {
        assert values[j] == v && values[i] == v;
      }
    }
  }

  /** The filter keeps or drops a whole value class: every key carrying a
      surviving value survives too. */
  lemma SharedKeepsClasses<V>(keys: seq<string>, m: map<string, V>, k: string, k': string)
    requires forall k | k in keys :: k in m
    requires Distinct(keys)
    requires k in keys && k' in keys && m[k'] == m[k] && (k, m[k]) in SharedEntries(keys, m)
    ensures (k', m[k']) in SharedEntries(keys, m)
  {
    SharedEntriesIff(keys, m, k, m[k]);
    SharedEntriesIff(keys, m, k', m[k]);
    if k' != k {
      assert k in keys && k != k' && m[k] == m[k'];
    }
  }

  /** No key occurs twice among the items. */
  predicate KeysDistinct<V>(items: seq<(string, V)>)
  {
    forall i, j | 0 <= i < j < |items| :: items[i].0 != items[j].0
  }

  /** Every key appears at most once in the filtered items. */
  lemma {:induction false} SharedDistinct<V>(items: seq<(string, V)>, values: seq<V>)
    requires KeysDistinct(items)
    ensures KeysDistinct(Shared(items, values))
  {
    if items != [] {
      var init, last := items[..|items| - 1], items[|items| - 1];
      SharedDistinct(init, values);
      var out := Shared(items, values);
      var pre := Shared(init, values);
      assert items == init + [last];
      assert out == pre + (if Count(values, last.1) > 1 then [last] else []);
      forall i, j | 0 <= i < j < |out| ensures out[i].0 != out[j].0 {
        if j == |pre| {
          assert out[i] == pre[i] && out[i] in pre;
          var n :| 0 <= n < |init| && init[n] == out[i];
          assert init[n] == items[n] && out[j] == last == items[|items| - 1];
        } else {
          assert out[i] == pre[i] && out[j] == pre[j];
        }
      }
    }
  }

  /** Some item of `out` has key k. */
  predicate Listed<V>(out: seq<(string, V)>, k: string)
  {
    exists i | 0 <= i < |out| :: out[i].0 == k
  }

  /** Some other key shares k's cluster. */
  predicate HasMate(keys: seq<string>, hashes: map<string, Fingerprint>, threshold: nat, k: string)
    requires WellFormed(keys, hashes)
  {
    exists k' | k' in hashes && k' != k :: Clustered(keys, hashes, threshold, k, k')
  }

  /** What a grouper is meant to output for a clustering: each key at most
      once; a key is listed exactly when its cluster has another member; two
      listed keys share a value exactly when they share a cluster. */
  ghost predicate ReportsClusters<V>(keys: seq<string>, hashes: map<string, Fingerprint>, threshold: nat,
                                     out: seq<(string, V)>)
    requires WellFormed(keys, hashes)
  {
    && KeysDistinct(out)
    && (forall i | 0 <= i < |out| :: out[i].0 in hashes)
    && (forall k | k in hashes :: Listed(out, k) <==> HasMate(keys, hashes, threshold, k))
    && (forall i, j | 0 <= i < |out| && 0 <= j < |out| ::
          out[i].1 == out[j].1 <==> Clustered(keys, hashes, threshold, out[i].0, out[j].0))
  }

  /** A key is listed by the filter exactly when another key shares its value. */
  lemma ListedIff<V>(keys: seq<string>, m: map<string, V>, k: string)
    requires forall k | k in keys :: k in m
    requires Distinct(keys) && k in keys
    ensures Listed(SharedEntries(keys, m), k) <==> exists k' | k' in keys && k' != k :: m[k'] == m[k]
  {
    var out := SharedEntries(keys, m);
    SharedEntriesIff(keys, m, k, m[k]);
    if Listed(out, k) {
      var i :| 0 <= i < |out| && out[i].0 == k;
      SharedEntryAt(keys, m, i);
      assert out[i] in out;
      assert out[i] == (k, m[k]);
    }
    if exists k' | k' in keys && k' != k :: m[k'] == m[k] {
      var i :| 0 <= i < |out| && out[i] == (k, m[k]);
    }
  }

  /** The filtered keys are keys of the dict, and carry their own values. */
  lemma SharedEntriesAt<V>(keys: seq<string>, m: map<string, V>)
    requires forall k | k in keys :: k in m
    ensures var out := SharedEntries(keys, m);
            forall i | 0 <= i < |out| :: out[i].0 in keys && out[i].1 == m[out[i].0]
  {
    var out := SharedEntries(keys, m);
    forall i | 0 <= i < |out| ensures out[i].0 in keys && out[i].1 == m[out[i].0] {
      SharedEntryAt(keys, m, i);
    }
  }

  /** Under a labelling that follows the clusters, a key is listed exactly
      when its cluster has another member. The labelled dict lists the keys
      of the hashes in its own order. */
  lemma ListedIffClusteredAt<V>(order: seq<string>, keys: seq<string>, hashes: map<string, Fingerprint>,
                                threshold: nat, m: map<string, V>, k: string)
    requires WellFormed(keys, hashes) && k in hashes
    requires Distinct(order) && forall k | k in hashes :: k in order
    requires forall k | k in order :: k in hashes && k in m
    requires forall a, b | a in order && b in order :: m[a] == m[b] <==> Clustered(keys, hashes, threshold, a, b)
    ensures Listed(SharedEntries(order, m), k) <==> HasMate(keys, hashes, threshold, k)
  {
    ListedIff(order, m, k);
    if Listed(SharedEntries(order, m), k) {
      var k' :| k' in order && k' != k && m[k'] == m[k];
      assert k' in hashes && Clustered(keys, hashes, threshold, k, k');
    }
    if HasMate(keys, hashes, threshold, k) {
      var k' :| k' in hashes && k' != k && Clustered(keys, hashes, threshold, k, k');
      assert k' in order && m[k'] == m[k];
    }
  }

  /** Under a labelling that follows the clusters, two listed keys share a
      value exactly when they share a cluster. */
  lemma SameValueIffClustered<V>(order: seq<string>, keys: seq<string>, hashes: map<string, Fingerprint>,
                                 threshold: nat, m: map<string, V>)
    requires WellFormed(keys, hashes)
    requires forall k | k in order :: k in hashes && k in m
    requires forall a, b | a in order && b in order :: m[a] == m[b] <==> Clustered(keys, hashes, threshold, a, b)
    ensures var out := SharedEntries(order, m);
            forall i, j | 0 <= i < |out| && 0 <= j < |out| ::
              out[i].1 == out[j].1 <==> Clustered(keys, hashes, threshold, out[i].0, out[j].0)
  {
    var out := SharedEntries(order, m);
    SharedEntriesAt(order, m);
    forall i, j | 0 <= i < |out| && 0 <= j < |out|
      ensures out[i].1 == out[j].1 <==> Clustered(keys, hashes, threshold, out[i].0, out[j].0)
    {
      assert m[out[i].0] == m[out[j].0] <==> Clustered(keys, hashes, threshold, out[i].0, out[j].0);
    }
  }

  /** A labelling in which two keys share a label exactly when they share a
      cluster, filtered by the counter, reports the clusters, whatever the
      order in which the labelled dict lists the keys. */
  lemma SharedReportsClusters<V>(order: seq<string>, keys: seq<string>, hashes: map<string, Fingerprint>,
                                 threshold: nat, m: map<string, V>)
    requires WellFormed(keys, hashes)
    requires Distinct(order) && forall k | k in hashes :: k in order
    requires forall k | k in order :: k in hashes && k in m
    requires forall a, b | a in order && b in order :: m[a] == m[b] <==> Clustered(keys, hashes, threshold, a, b)
    ensures ReportsClusters(keys, hashes, threshold, SharedEntries(order, m))
  {
    var out := SharedEntries(order, m);
    assert KeysDistinct(Items(order, m));
    SharedDistinct(Items(order, m), Values(order, m));
    SharedEntriesAt(order, m);
    forall k | k in hashes ensures Listed(out, k) <==> HasMate(keys, hashes, threshold, k) {
      ListedIffClusteredAt(order, keys, hashes, threshold, m, k);
    }
    SameValueIffClustered(order, keys, hashes, threshold, m);
  }
}
