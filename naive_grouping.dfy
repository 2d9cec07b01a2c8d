/** find.py's group_hashes: every key gets a label, a fresh one if it has
    none when the outer loop reaches it; each key within the threshold of the
    outer key takes the outer key's label, and when it already had a label,
    every key carrying that label is relabelled. The labels that occur more
    than once are then kept by the counter. */
module NaiveGrouping {
  import opened Closure
  import opened Fingerprints
  import opened SharedFilter

  /** uuid.uuid4().hex[:10]: a label no key carries yet, drawn here from a counter. */
  type Label = nat

  /** Every joined key has a label, and two labelled keys share a label
      exactly when the pairs joined so far connect them. */
  ghost predicate Follows(groups: map<string, Label>, edges: seq<Edge>)
  {
    && (forall t | 0 <= t < |edges| :: edges[t].0 in groups && edges[t].1 in groups)
    && (forall x, y {:trigger Conn(edges, x, y)} | x in groups && y in groups ::
          groups[x] == groups[y] <==> Conn(edges, x, y))
  }

  /** The state of the loops: `order` lists the labelled keys in the order
      the dict received them, each label is below the counter, and the
      labels follow the pairs joined so far. */
  ghost predicate Labelled(hashes: map<string, Fingerprint>, groups: map<string, Label>, order: seq<string>,
                           next: Label, edges: seq<Edge>)
  {
    && Distinct(order)
    && (forall i | 0 <= i < |order| :: order[i] in groups)
    && (forall k {:trigger groups[k]} | k in groups :: k in order && k in hashes && groups[k] < next)
    && Follows(groups, edges)
  }

  /** The labels after every key labelled `from` is relabelled `to`: the two
      label classes merge into one, the label `from` disappears, and every
      other class keeps its keys and its label. */
  ghost function Relabelled(groups: map<string, Label>, from: Label, to: Label): (r: map<string, Label>)
    ensures r.Keys == groups.Keys
    ensures from != to ==> forall k | k in r :: r[k] != from
    ensures forall k | k in groups && groups[k] != from :: r[k] == groups[k]
    ensures forall a, b | a in groups && b in groups ::
              r[a] == r[b] <==>
                groups[a] == groups[b] ||
                ((groups[a] == from || groups[a] == to) && (groups[b] == from || groups[b] == to))
  {
    map k | k in groups :: if groups[k] == from then to else groups[k]
  }

  /** A key that no pair mentions is connected to nothing else. */
  lemma Apart(edges: seq<Edge>, groups: map<string, Label>, k: string, x: string)
    requires forall t | 0 <= t < |edges| :: edges[t].0 in groups && edges[t].1 in groups
    requires k !in groups && x != k
    ensures !Conn(edges, k, x) && !Conn(edges, x, k)
  {
    assert forall t :: 0 <= t < |edges| ==> edges[t].0 != k && edges[t].1 != k;
    if Conn(edges, x, k) {
      ConnSymmetric(edges, x, k);
      UntouchedAlone(edges, k, x);
    }
    if Conn(edges, k, x) {
      UntouchedAlone(edges, k, x);
    }
  }

  /** A fresh label for a key no pair mentions keeps the labels following the pairs. */
  lemma FreshFollows(groups: map<string, Label>, edges: seq<Edge>, k: string, next: Label)
    requires Follows(groups, edges) && k !in groups
    requires forall x | x in groups :: groups[x] < next
    ensures Follows(groups[k := next], edges)
  {
    var r := groups[k := next];
    forall x, y | x in r && y in r ensures r[x] == r[y] <==> Conn(edges, x, y) {
      if x == k && y == k {
        ConnReflexive(edges, k);
      } else if x == k {
        Apart(edges, groups, k, y);
      } else if y == k {
        Apart(edges, groups, k, x);
      } else {
        assert groups[x] == groups[y] <==> Conn(edges, x, y);
      }
    }
  }

  /** k2 has no label yet: it takes k1's, and the pair (k1, k2) is joined. */
  lemma JoinNewFollows(groups: map<string, Label>, edges: seq<Edge>, k1: string, k2: string)
    requires Follows(groups, edges) && k1 in groups && k2 !in groups
    ensures Follows(groups[k2 := groups[k1]], edges + [(k1, k2)])
  {
    var r, e := groups[k2 := groups[k1]], edges + [(k1, k2)];
    ConnReflexive(edges, k2);
    Apart(edges, groups, k2, k1);
    forall x, y | x in r && y in r ensures r[x] == r[y] <==> Conn(e, x, y) {
      ConnSnoc(edges, (k1, k2), x, y);
      if x != k2 {
        Apart(edges, groups, k2, x);
        assert groups[x] == groups[k1] <==> Conn(edges, x, k1);
      }
      if y != k2 {
        Apart(edges, groups, k2, y);
        assert groups[y] == groups[k1] <==> Conn(edges, y, k1);
      }
      if x != k2 && y != k2 {
        assert groups[x] == groups[y] <==> Conn(edges, x, y);
      }
    }
    assert forall t | 0 <= t < |e| :: e[t].0 in r && e[t].1 in r by {
      forall t | 0 <= t < |e| ensures e[t].0 in r && e[t].1 in r {
        if t < |edges| {
          assert e[t] == edges[t];
        }
      }
    }
  }

  /** k2 already has a label: every key carrying it takes k1's label, and the
      pair (k1, k2) is joined. */
  lemma JoinOldFollows(groups: map<string, Label>, edges: seq<Edge>, k1: string, k2: string)
    requires Follows(groups, edges) && k1 in groups && k2 in groups
    ensures Follows(Relabelled(groups, groups[k2], groups[k1]), edges + [(k1, k2)])
  {
    var r, e := Relabelled(groups, groups[k2], groups[k1]), edges + [(k1, k2)];
    forall x, y | x in r && y in r ensures r[x] == r[y] <==> Conn(e, x, y) {
      ConnSnoc(edges, (k1, k2), x, y);
      assert groups[x] == groups[k1] <==> Conn(edges, x, k1);
      assert groups[x] == groups[k2] <==> Conn(edges, x, k2);
      assert groups[y] == groups[k1] <==> Conn(edges, y, k1);
      assert groups[y] == groups[k2] <==> Conn(edges, y, k2);
      assert groups[x] == groups[y] <==> Conn(edges, x, y);
    }
    assert forall t | 0 <= t < |e| :: e[t].0 in r && e[t].1 in r by {
      forall t | 0 <= t < |e| ensures e[t].0 in r && e[t].1 in r {
        if t < |edges| {
          assert e[t] == edges[t];
        }
      }
    }
  }

  /** `for g in groups: if groups[g] == original_id: groups[g] = img_id`. */
  method Relabel(groups: map<string, Label>, order: seq<string>, from: Label, to: Label)
    returns (r: map<string, Label>)
    requires Distinct(order) && forall k {:trigger groups[k]} | k in groups :: k in order
    requires forall i | 0 <= i < |order| :: order[i] in groups
    ensures r == Relabelled(groups, from, to)
  {
    r := groups;
    var i := 0;
    while i < |order|
      invariant 0 <= i <= |order|
      invariant r.Keys == groups.Keys
      invariant forall j | 0 <= j < i :: r[order[j]] == if groups[order[j]] == from then to else groups[order[j]]
      invariant forall j | i <= j < |order| :: r[order[j]] == groups[order[j]]
    {
      var g := order[i];
      if r[g] == from {
        r := r[g := to];
      }
      i := i + 1;
    }
    forall k | k in groups ensures r[k] == Relabelled(groups, from, to)[k] {
      var j :| 0 <= j < |order| && order[j] == k;
    }
  }

  /** The start of the outer loop's body: k1 keeps its label, or gets a fresh one. */
  method LabelOuter(hashes: map<string, Fingerprint>, groups: map<string, Label>, order: seq<string>,
                    next: Label, k1: string, ghost edges: seq<Edge>)
    returns (groups': map<string, Label>, order': seq<string>, next': Label, img: Label)
    requires k1 in hashes && Labelled(hashes, groups, order, next, edges)
    ensures Labelled(hashes, groups', order', next', edges)
    ensures k1 in groups' && groups'[k1] == img
    ensures k1 in groups ==> img == groups[k1] && groups' == groups
    ensures k1 !in groups ==> forall k | k in groups :: groups[k] != img
    ensures forall k {:trigger groups[k]} | k in groups :: k in groups'
  {
    groups', order', next' := groups, order, next;
    if k1 in groups {
      img := groups[k1];
    } else {
      img := next;
      FreshFollows(groups, edges, k1, next);
      groups' := groups[k1 := img];
      order' := order + [k1];
      next' := next + 1;
    }
  }

  /** One turn of the inner loop: k2 is joined to k1 when it is another key
      within the threshold. */
  method VisitPair(hashes: map<string, Fingerprint>, threshold: nat, groups: map<string, Label>,
                   order: seq<string>, next: Label, k1: string, img: Label, k2: string, ghost edges: seq<Edge>)
    returns (groups': map<string, Label>, order': seq<string>)
    requires UniformWidth(hashes) && k1 in hashes && k2 in hashes
    requires Labelled(hashes, groups, order, next, edges) && k1 in groups && groups[k1] == img
    ensures var step := if k1 != k2 && Close(hashes, threshold, k1, k2) then [(k1, k2)] else [];
            Labelled(hashes, groups', order', next, edges + step)
    ensures k1 in groups' && groups'[k1] == img
    ensures forall k {:trigger groups[k]} | k in groups :: k in groups'
  {
    groups', order' := groups, order;
    if k1 == k2 || !Close(hashes, threshold, k1, k2) {
      assert edges + [] == edges;
      return;
    }
    if k2 !in groups {
      JoinNewFollows(groups, edges, k1, k2);
      groups' := groups[k2 := img];
      order' := order + [k2];
    } else {
      JoinOldFollows(groups, edges, k1, k2);
      groups' := Relabel(groups, order, groups[k2], img);
    }
  }

  /** The pairs joined once the inner loop has visited one more key. */
  lemma InnerEdgesStep(hashes: map<string, Fingerprint>, threshold: nat, base: seq<Edge>, k1: string,
                       keys: seq<string>, j: nat)
    requires UniformWidth(hashes) && k1 in hashes && (forall k | k in keys :: k in hashes) && j < |keys|
    ensures base + PairsOf(hashes, threshold, k1, keys[..j + 1]) ==
            base + PairsOf(hashes, threshold, k1, keys[..j]) +
            (if k1 != keys[j] && Close(hashes, threshold, k1, keys[j]) then [(k1, keys[j])] else [])
  {
    PairsOfStep(hashes, threshold, k1, keys, j + 1);
  }

  /** The inner loop for the outer key k1, whose label is img: it joins k1
      with every other key within the threshold, in the order of `keys`. */
  method JoinClose(keys: seq<string>, hashes: map<string, Fingerprint>, threshold: nat,
                   groups: map<string, Label>, order: seq<string>, next: Label, k1: string, img: Label,
                   ghost base: seq<Edge>)
    returns (groups': map<string, Label>, order': seq<string>)
    requires UniformWidth(hashes) && k1 in hashes && forall k | k in keys :: k in hashes
    requires Labelled(hashes, groups, order, next, base) && k1 in groups && groups[k1] == img
    ensures Labelled(hashes, groups', order', next, base + PairsOf(hashes, threshold, k1, keys))
    ensures forall k {:trigger groups[k]} | k in groups :: k in groups'
  {
    groups', order' := groups, order;
    ghost var edges := base;
    assert PairsOf(hashes, threshold, k1, keys[..0]) == [];
    var j := 0;
    while j < |keys|
      invariant 0 <= j <= |keys|
      invariant edges == base + PairsOf(hashes, threshold, k1, keys[..j])
      invariant Labelled(hashes, groups', order', next, edges)
      invariant k1 in groups' && groups'[k1] == img
      invariant forall k {:trigger groups[k]} | k in groups :: k in groups'
    {
      InnerEdgesStep(hashes, threshold, base, k1, keys, j);
      ghost var step := if k1 != keys[j] && Close(hashes, threshold, k1, keys[j]) then [(k1, keys[j])] else [];
      groups', order' := VisitPair(hashes, threshold, groups', order', next, k1, img, keys[j], edges);
      edges := edges + step;
      j := j + 1;
    }
    assert keys[..|keys|] == keys;
  }

  /** One turn of the outer loop, for the i-th key. */
  method VisitKey(keys: seq<string>, hashes: map<string, Fingerprint>, threshold: nat,
                  groups: map<string, Label>, order: seq<string>, next: Label, i: nat)
    returns (groups': map<string, Label>, order': seq<string>, next': Label)
    requires WellFormed(keys, hashes) && i < |keys|
    requires Labelled(hashes, groups, order, next, ClosePairs(hashes, threshold, keys[..i], keys))
    requires forall t | 0 <= t < i :: keys[t] in groups
    ensures Labelled(hashes, groups', order', next', ClosePairs(hashes, threshold, keys[..i + 1], keys))
    ensures forall t | 0 <= t < i + 1 :: keys[t] in groups'
  {
    var k1 := keys[i];
    ghost var base := ClosePairs(hashes, threshold, keys[..i], keys);
    var g1, o1, img;
    g1, o1, next', img := LabelOuter(hashes, groups, order, next, k1, base);
    groups', order' := JoinClose(keys, hashes, threshold, g1, o1, next', k1, img, base);
    ClosePairsStep(hashes, threshold, keys, keys, i + 1);
    assert forall t | 0 <= t < i + 1 :: keys[t] in g1;
  }

  /** Once every key has been the outer key, the labels follow the clusters,
      so the counter's filter reports them. */
  lemma LabelledReports(keys: seq<string>, hashes: map<string, Fingerprint>, threshold: nat,
                        groups: map<string, Label>, order: seq<string>, next: Label)
    requires WellFormed(keys, hashes)
    requires Labelled(hashes, groups, order, next, ClosePairs(hashes, threshold, keys[..|keys|], keys))
    requires forall t | 0 <= t < |keys| :: keys[t] in groups
    ensures forall k | k in order :: k in groups
    ensures ReportsClusters(keys, hashes, threshold, SharedEntries(order, groups))
  {
    assert keys[..|keys|] == keys;
    forall a, b | a in order && b in order
      ensures groups[a] == groups[b] <==> Clustered(keys, hashes, threshold, a, b)
    {
      assert groups[a] == groups[b] <==> Conn(ClosePairs(hashes, threshold, keys, keys), a, b);
    }
    forall k | k in hashes ensures k in order {
      var t :| 0 <= t < |keys| && keys[t] == k;
      assert groups[k] == groups[keys[t]];
    }
    SharedReportsClusters(order, keys, hashes, threshold, groups);
  }

  /** Before the outer loop nothing is labelled and nothing is joined. */
  lemma LabelledStart(keys: seq<string>, hashes: map<string, Fingerprint>, threshold: nat)
    requires WellFormed(keys, hashes)
    ensures Labelled(hashes, map[], [], 0, ClosePairs(hashes, threshold, keys[..0], keys))
  {
    assert ClosePairs(hashes, threshold, keys[..0], keys) == [];
  }

  /** find.py's group_hashes: the filtered items report the clusters. */
  method GroupHashes(keys: seq<string>, hashes: map<string, Fingerprint>, threshold: nat)
    returns (filtered: seq<(string, Label)>)
    requires WellFormed(keys, hashes)
    ensures ReportsClusters(keys, hashes, threshold, filtered)
  {
    var groups: map<string, Label> := map[];
    var order: seq<string> := [];
    var next: Label := 0;
    var i := 0;
    LabelledStart(keys, hashes, threshold);
    while i < |keys|
      invariant 0 <= i <= |keys|
      invariant Labelled(hashes, groups, order, next, ClosePairs(hashes, threshold, keys[..i], keys))
      invariant forall t | 0 <= t < i :: keys[t] in groups
    {
      groups, order, next := VisitKey(keys, hashes, threshold, groups, order, next, i);
      i := i + 1;
    }
    LabelledReports(keys, hashes, threshold, groups, order, next);
    filtered := SharedEntries(order, groups);
  }
}
