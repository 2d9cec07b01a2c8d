/** photoburn.py's group_hashes: put the keys of the hash dict into a Groups
    structure, unite every ordered pair of distinct keys whose fingerprints
    are within the threshold, then filter the raw parent map by the counter. */
module PhotoburnGrouping {
  import opened Closure
  import opened UnionFind
  import opened Fingerprints
  import opened SharedFilter

  /** The two maps of a Groups object. */
  type State = (map<string, string>, map<string, nat>)

  /** The maps relate two keys exactly when `edges` connects them. */
  ghost predicate Tracks(s: State, edges: seq<Edge>)
    requires Forest(s.0, s.1)
  {
    forall a, b {:trigger SameSet(s.0, s.1, a, b)} | a in s.0 && b in s.0 :: SameSet(s.0, s.1, a, b) <==> Conn(edges, a, b)
  }

  /** The maps Groups(keys) starts from: a forest over exactly the keys, in
      which every key is a root, alone in its set. */
  ghost function Initial(hashes: map<string, Fingerprint>): (s: State)
    ensures s.0.Keys == hashes.Keys && Forest(s.0, s.1)
    ensures forall k | k in hashes :: IsRoot(s.0, k)
  {
    (map k | k in hashes :: k, map k | k in hashes :: 0)
  }

  lemma InitialForest(hashes: map<string, Fingerprint>)
    ensures Forest(Initial(hashes).0, Initial(hashes).1) && Initial(hashes).0.Keys == hashes.Keys
  {
    InitialTracks(hashes);
  }

  lemma UnitedForest(parent: map<string, string>, rank: map<string, nat>, x: string, y: string)
    requires Forest(parent, rank) && x in parent && y in parent
    ensures Forest(United(parent, rank, x, y).0, United(parent, rank, x, y).1)
    ensures United(parent, rank, x, y).0.Keys == parent.Keys
  {
    UniteMerges(parent, rank, x, y);
  }

  /** The start state is a forest of singletons: nothing is joined yet. */
  lemma InitialTracks(hashes: map<string, Fingerprint>)
    ensures Forest(Initial(hashes).0, Initial(hashes).1) && Initial(hashes).0.Keys == hashes.Keys
    ensures Tracks(Initial(hashes), [])
  {
    var s := Initial(hashes);
    forall k | k in s.0 ensures ParentBelow(s.0, s.1, k) { }
    forall a, b | a in s.0 && b in s.0 ensures SameSet(s.0, s.1, a, b) <==> Conn([], a, b) {
      assert Root(s.0, s.1, a) == a && Root(s.0, s.1, b) == b;
    }
  }

  /** The maps after the inner loop has visited the first n keys of ks for
      the outer key k1, whose representative img was found before the loop. */
  ghost function InnerPass(s: State, hashes: map<string, Fingerprint>, threshold: nat,
                           k1: string, img: string, ks: seq<string>, n: nat): (s': State)
    requires Forest(s.0, s.1) && img in s.0
    requires UniformWidth(hashes) && k1 in hashes
    requires forall k | k in ks :: k in hashes && k in s.0
    requires n <= |ks|
    ensures Forest(s'.0, s'.1) && s'.0.Keys == s.0.Keys
  {
    if n == 0 then s
    else
      var prev := InnerPass(s, hashes, threshold, k1, img, ks, n - 1);
      var k2 := ks[n - 1];
      if k1 != k2 && Close(hashes, threshold, k1, k2) then
        UnitedForest(prev.0, prev.1, img, k2);
        United(prev.0, prev.1, img, k2)
      else prev
  }

  /** The maps after the outer loop has visited the first n keys: for each
      k1, find it, then run the inner loop with its representative. */
  ghost function OuterPass(keys: seq<string>, hashes: map<string, Fingerprint>, threshold: nat, n: nat): (s: State)
    requires WellFormed(keys, hashes) && n <= |keys|
    ensures Forest(s.0, s.1) && s.0.Keys == hashes.Keys
  {
    if n == 0 then
      InitialForest(hashes);
      Initial(hashes)
    else
      var prev := OuterPass(keys, hashes, threshold, n - 1);
      var k1 := keys[n - 1];
      InnerPass((Compressed(prev.0, prev.1, k1), prev.1), hashes, threshold, k1, Root(prev.0, prev.1, k1), keys, |keys|)
  }

  /** The maps when both loops have finished. */
  ghost function Grouped(keys: seq<string>, hashes: map<string, Fingerprint>, threshold: nat): (s: State)
    requires WellFormed(keys, hashes)
    ensures Forest(s.0, s.1) && s.0.Keys == hashes.Keys
  {
    OuterPass(keys, hashes, threshold, |keys|)
  }

  /** One unite(img, k2) with img in k1's set joins the pair (k1, k2). */
  lemma UniteTracksPair(s: State, edges: seq<Edge>, img: string, k1: string, k2: string, a: string, b: string)
    requires Forest(s.0, s.1) && img in s.0 && k1 in s.0 && k2 in s.0 && a in s.0 && b in s.0
    requires Tracks(s, edges) && SameSet(s.0, s.1, img, k1)
    ensures var u := United(s.0, s.1, img, k2);
            Forest(u.0, u.1) && (SameSet(u.0, u.1, a, b) <==> Conn(edges + [(k1, k2)], a, b))
  {
    UnitedSameAt(s.0, s.1, img, k2, a, b);
    ConnSnoc(edges, (k1, k2), a, b);
    assert SameSet(s.0, s.1, a, k1) <==> Conn(edges, a, k1);
    assert SameSet(s.0, s.1, b, k1) <==> Conn(edges, b, k1);
    assert SameSet(s.0, s.1, a, img) <==> SameSet(s.0, s.1, a, k1);
    assert SameSet(s.0, s.1, b, img) <==> SameSet(s.0, s.1, b, k1);
    assert SameSet(s.0, s.1, a, k2) <==> Conn(edges, a, k2);
    assert SameSet(s.0, s.1, b, k2) <==> Conn(edges, b, k2);
    assert SameSet(s.0, s.1, a, b) <==> Conn(edges, a, b);
  }

  /** unite(img, k2) with img in k1's set joins the pair (k1, k2) for every two keys. */
  lemma UniteTracks(s: State, edges: seq<Edge>, img: string, k1: string, k2: string)
    requires Forest(s.0, s.1) && img in s.0 && k1 in s.0 && k2 in s.0
    requires Tracks(s, edges) && SameSet(s.0, s.1, img, k1)
    ensures var u := United(s.0, s.1, img, k2);
            Forest(u.0, u.1) && Tracks(u, edges + [(k1, k2)]) && SameSet(u.0, u.1, img, k1)
  {
    var u := United(s.0, s.1, img, k2);
    UniteMerges(s.0, s.1, img, k2);
    forall a, b | a in u.0 && b in u.0 ensures SameSet(u.0, u.1, a, b) <==> Conn(edges + [(k1, k2)], a, b) {
      UniteTracksPair(s, edges, img, k1, k2, a, b);
    }
  }

  /** One more turn of the inner loop joins the next pair when it is close. */
  lemma InnerTracksStep(s: State, hashes: map<string, Fingerprint>, threshold: nat,
                        k1: string, img: string, ks: seq<string>, n: nat, edges: seq<Edge>)
    requires Forest(s.0, s.1) && img in s.0 && k1 in s.0
    requires UniformWidth(hashes) && k1 in hashes
    requires forall k | k in ks :: k in hashes && k in s.0
    requires 0 < n <= |ks|
    requires var prev := InnerPass(s, hashes, threshold, k1, img, ks, n - 1);
             Tracks(prev, edges + PairsOf(hashes, threshold, k1, ks[..n - 1])) && SameSet(prev.0, prev.1, img, k1)
    ensures var next := InnerPass(s, hashes, threshold, k1, img, ks, n);
            Tracks(next, edges + PairsOf(hashes, threshold, k1, ks[..n])) && SameSet(next.0, next.1, img, k1)
  {
    var k2 := ks[n - 1];
    var prev := InnerPass(s, hashes, threshold, k1, img, ks, n - 1);
    var p := PairsOf(hashes, threshold, k1, ks[..n - 1]);
    PairsOfStep(hashes, threshold, k1, ks, n);
    if k1 != k2 && Close(hashes, threshold, k1, k2) {
      assert edges + (p + [(k1, k2)]) == (edges + p) + [(k1, k2)];
      UniteTracks(prev, edges + p, img, k1, k2);
    } else {
      assert p + [] == p;
    }
  }

  /** The inner loop joins exactly the close pairs (k1, k2) it visits. */
  lemma {:induction false} InnerTracks(s: State, hashes: map<string, Fingerprint>, threshold: nat,
                                       k1: string, img: string, ks: seq<string>, n: nat, edges: seq<Edge>)
    requires Forest(s.0, s.1) && img in s.0 && k1 in s.0
    requires UniformWidth(hashes) && k1 in hashes
    requires forall k | k in ks :: k in hashes && k in s.0
    requires n <= |ks|
    requires Tracks(s, edges) && SameSet(s.0, s.1, img, k1)
    ensures var s' := InnerPass(s, hashes, threshold, k1, img, ks, n);
            Tracks(s', edges + PairsOf(hashes, threshold, k1, ks[..n])) && SameSet(s'.0, s'.1, img, k1)
  {
    if n == 0 {
      assert edges + PairsOf(hashes, threshold, k1, ks[..0]) == edges;
    } else {
      InnerTracks(s, hashes, threshold, k1, img, ks, n - 1, edges);
      InnerTracksStep(s, hashes, threshold, k1, img, ks, n, edges);
    }
  }

  /** Finding k1 keeps what the maps track, and its root is in k1's set. */
  lemma CompressTracks(s: State, edges: seq<Edge>, k1: string)
    requires Forest(s.0, s.1) && k1 in s.0 && Tracks(s, edges)
    ensures var s1 := (Compressed(s.0, s.1, k1), s.1);
            && Forest(s1.0, s1.1) && s1.0.Keys == s.0.Keys && Root(s.0, s.1, k1) in s1.0
            && Tracks(s1, edges) && SameSet(s1.0, s1.1, Root(s.0, s.1, k1), k1)
  {
    var s1 := (Compressed(s.0, s.1, k1), s.1);
    var img := Root(s.0, s.1, k1);
    assert Root(s.0, s.1, img) == img;
    forall a, b | a in s1.0 && b in s1.0 ensures SameSet(s1.0, s1.1, a, b) <==> Conn(edges, a, b) {
      assert SameSet(s.0, s.1, a, b) <==> Conn(edges, a, b);
    }
  }

  /** One more turn of the outer loop adds the pairs of the next outer key. */
  lemma OuterTracksStep(keys: seq<string>, hashes: map<string, Fingerprint>, threshold: nat, n: nat)
    requires WellFormed(keys, hashes) && 0 < n <= |keys|
    requires Tracks(OuterPass(keys, hashes, threshold, n - 1), ClosePairs(hashes, threshold, keys[..n - 1], keys))
    ensures Tracks(OuterPass(keys, hashes, threshold, n), ClosePairs(hashes, threshold, keys[..n], keys))
  {
    var k1 := keys[n - 1];
    var prev := OuterPass(keys, hashes, threshold, n - 1);
    var edges := ClosePairs(hashes, threshold, keys[..n - 1], keys);
    CompressTracks(prev, edges, k1);
    var s1 := (Compressed(prev.0, prev.1, k1), prev.1);
    var img := Root(prev.0, prev.1, k1);
    ClosePairsStep(hashes, threshold, keys, keys, n);
    InnerTracks(s1, hashes, threshold, k1, img, keys, |keys|, edges);
    assert keys[..|keys|] == keys;
  }

  /** Before the outer loop, no pair is joined. */
  lemma OuterTracksStart(keys: seq<string>, hashes: map<string, Fingerprint>, threshold: nat)
    requires WellFormed(keys, hashes)
    ensures Tracks(OuterPass(keys, hashes, threshold, 0), ClosePairs(hashes, threshold, keys[..0], keys))
  {
    InitialTracks(hashes);
    assert ClosePairs(hashes, threshold, keys[..0], keys) == [];
  }

  /** After the outer loop has visited the first n keys, the maps relate
      exactly the keys that the close pairs (k1, k2) with k1 among them connect. */
  lemma {:induction false} OuterTracks(keys: seq<string>, hashes: map<string, Fingerprint>, threshold: nat, n: nat)
    requires WellFormed(keys, hashes) && n <= |keys|
    ensures Tracks(OuterPass(keys, hashes, threshold, n), ClosePairs(hashes, threshold, keys[..n], keys))
  {
    if n == 0 {
      OuterTracksStart(keys, hashes, threshold);
    } else {
      OuterTracks(keys, hashes, threshold, n - 1);
      OuterTracksStep(keys, hashes, threshold, n);
    }
  }

  /** At the end, two keys share a representative exactly when they are
      clustered: chains of close pairs, and nothing else, are merged. */
  lemma GroupedClusters(keys: seq<string>, hashes: map<string, Fingerprint>, threshold: nat, a: string, b: string)
    requires WellFormed(keys, hashes) && a in hashes && b in hashes
    ensures var s := Grouped(keys, hashes, threshold);
            SameSet(s.0, s.1, a, b) <==> Clustered(keys, hashes, threshold, a, b)
  {
    OuterTracks(keys, hashes, threshold, |keys|);
    assert keys[..|keys|] == keys;
  }

  lemma GroupedAllClusters(keys: seq<string>, hashes: map<string, Fingerprint>, threshold: nat)
    requires WellFormed(keys, hashes)
    ensures var s := Grouped(keys, hashes, threshold);
            forall a, b {:trigger Clustered(keys, hashes, threshold, a, b)} | a in hashes && b in hashes :: SameSet(s.0, s.1, a, b) <==> Clustered(keys, hashes, threshold, a, b)
  {
    OuterTracks(keys, hashes, threshold, |keys|);
    assert keys[..|keys|] == keys;
  }

  /** One more step of the inner loop: unite with the next key when it is close. */
  lemma InnerStep(s: State, hashes: map<string, Fingerprint>, threshold: nat,
                  k1: string, img: string, ks: seq<string>, n: nat)
    requires Forest(s.0, s.1) && img in s.0
    requires UniformWidth(hashes) && k1 in hashes
    requires forall k | k in ks :: k in hashes && k in s.0
    requires n < |ks|
    ensures var prev := InnerPass(s, hashes, threshold, k1, img, ks, n);
            InnerPass(s, hashes, threshold, k1, img, ks, n + 1) ==
              if k1 != ks[n] && Close(hashes, threshold, k1, ks[n]) then United(prev.0, prev.1, img, ks[n]) else prev
  {
  }

  /** One turn of the inner loop: skip k2 == k1, and unite img with k2 when
      the two fingerprints are within the threshold. */
  method VisitPair(g: Groups, keys: seq<string>, hashes: map<string, Fingerprint>, threshold: nat,
                   k1: string, img: string, ghost start: State, j: nat)
    requires Forest(start.0, start.1) && img in start.0 && start.0.Keys == hashes.Keys
    requires g.Valid() && g.Keys == hashes.Keys && img in g.Keys
    requires UniformWidth(hashes) && k1 in hashes && forall k | k in keys :: k in hashes
    requires j < |keys|
    requires (g.parent, g.rank) == InnerPass(start, hashes, threshold, k1, img, keys, j)
    modifies g
    ensures g.Valid() && g.Keys == hashes.Keys
    ensures (g.parent, g.rank) == InnerPass(start, hashes, threshold, k1, img, keys, j + 1)
  {
    var k2 := keys[j];
    if k1 != k2 && Close(hashes, threshold, k1, k2) {
      g.Unite(img, k2);
    }
  }

  /** The inner loop of group_hashes for one outer key k1: unite img, the
      representative found for k1, with every other key close to k1. */
  method JoinClose(g: Groups, keys: seq<string>, hashes: map<string, Fingerprint>, threshold: nat,
                   k1: string, img: string)
    requires g.Valid() && g.Keys == hashes.Keys && img in g.Keys
    requires UniformWidth(hashes) && k1 in hashes && forall k | k in keys :: k in hashes
    modifies g
    ensures g.Valid() && g.Keys == hashes.Keys
    ensures (g.parent, g.rank) == InnerPass(old((g.parent, g.rank)), hashes, threshold, k1, img, keys, |keys|)
  {
    ghost var start := (g.parent, g.rank);
    assert Forest(start.0, start.1) && img in start.0 && start.0.Keys == hashes.Keys;
    var j := 0;
    while j < |keys|
      invariant 0 <= j <= |keys|
      invariant g.Valid() && g.Keys == hashes.Keys
      invariant (g.parent, g.rank) == InnerPass(start, hashes, threshold, k1, img, keys, j)
    {
      VisitPair(g, keys, hashes, threshold, k1, img, start, j);
      j := j + 1;
    }
  }

  /** One turn of the outer loop: find k1's representative img, then run
      the inner loop with it. */
  method VisitKey(g: Groups, keys: seq<string>, hashes: map<string, Fingerprint>, threshold: nat, i: nat)
    requires WellFormed(keys, hashes) && i < |keys| && g.Keys == hashes.Keys
    requires (g.parent, g.rank) == OuterPass(keys, hashes, threshold, i)
    modifies g
    ensures (g.parent, g.rank) == OuterPass(keys, hashes, threshold, i + 1)
  {
    var k1 := keys[i];
    var img := g.Find(k1);
    JoinClose(g, keys, hashes, threshold, k1, img);
  }

  /** The outer loop of group_hashes, on a Groups object over the keys. */
  method RunPasses(g: Groups, keys: seq<string>, hashes: map<string, Fingerprint>, threshold: nat)
    requires WellFormed(keys, hashes)
    requires g.Valid() && g.Keys == hashes.Keys
    requires (g.parent, g.rank) == OuterPass(keys, hashes, threshold, 0)
    modifies g
    ensures (g.parent, g.rank) == OuterPass(keys, hashes, threshold, |keys|)
  {
    for i := 0 to |keys|
      invariant g.Keys == hashes.Keys
      invariant (g.parent, g.rank) == OuterPass(keys, hashes, threshold, i)
    {
      VisitKey(g, keys, hashes, threshold, i);
    }
  }

  /** The two nested loops of group_hashes, run on a fresh Groups object. */
  method Cluster(keys: seq<string>, hashes: map<string, Fingerprint>, threshold: nat) returns (g: Groups)
    requires WellFormed(keys, hashes)
    ensures fresh(g) && g.Valid() && g.Keys == hashes.Keys
    ensures (g.parent, g.rank) == Grouped(keys, hashes, threshold)
    ensures forall a, b {:trigger Clustered(keys, hashes, threshold, a, b)} | a in hashes && b in hashes :: g.Rep(a) == g.Rep(b) <==> Clustered(keys, hashes, threshold, a, b)
  {
    g := new Groups(hashes.Keys);
    InitialTracks(hashes);
    RunPasses(g, keys, hashes, threshold);
    GroupedAllClusters(keys, hashes, threshold);
  }

  /** The representatives of a Groups object, as a plain map. */
  ghost function Reps(g: Groups): (r: map<string, string>)
    reads g
    requires g.Valid()
    ensures r.Keys == g.Keys && forall k {:trigger r[k]} | k in g.Keys :: r[k] == g.Rep(k)
  {
    map k | k in g.Keys :: g.Rep(k)
  }

  /** Labelling every key with a key of the same set, in a forest whose sets
      are the clusters, pairs each key with a member of its cluster. */
  lemma LabelsInCluster(keys: seq<string>, hashes: map<string, Fingerprint>, threshold: nat,
                        s: State, labels: map<string, string>)
    requires WellFormed(keys, hashes)
    requires Forest(s.0, s.1) && s.0.Keys == hashes.Keys && labels.Keys == hashes.Keys
    requires forall a, b {:trigger Clustered(keys, hashes, threshold, a, b)} | a in hashes && b in hashes :: SameSet(s.0, s.1, a, b) <==> Clustered(keys, hashes, threshold, a, b)
    requires forall k {:trigger LabelInSet(s.0, s.1, labels, k)} | k in labels :: LabelInSet(s.0, s.1, labels, k)
    ensures KeysDistinct(SharedEntries(keys, labels))
    ensures var out := SharedEntries(keys, labels);
            forall i | 0 <= i < |out| ::
              && out[i].0 in hashes && out[i].1 in hashes
              && Clustered(keys, hashes, threshold, out[i].0, out[i].1)
  {
    var out := SharedEntries(keys, labels);
    SharedDistinct(Items(keys, labels), Values(keys, labels));
    forall i | 0 <= i < |out|
      ensures out[i].0 in hashes && out[i].1 in hashes
      ensures Clustered(keys, hashes, threshold, out[i].0, out[i].1)
    {
      SharedEntryAt(keys, labels, i);
      var k := out[i].0;
      assert LabelInSet(s.0, s.1, labels, k);
      assert SameSet(s.0, s.1, k, labels[k]);
    }
  }

  /** Singletons are filtered: a key the counter keeps shares its parent
      value with another key, and both lie in the set of that value, so the
      key has a cluster mate. */
  lemma ListedHasMate(keys: seq<string>, hashes: map<string, Fingerprint>, threshold: nat, k: string)
    requires WellFormed(keys, hashes) && k in hashes
    requires Listed(SharedEntries(keys, Grouped(keys, hashes, threshold).0), k)
    ensures HasMate(keys, hashes, threshold, k)
  {
    var s := Grouped(keys, hashes, threshold);
    ListedIff(keys, s.0, k);
    var k' :| k' in keys && k' != k && s.0[k'] == s.0[k];
    assert ParentBelow(s.0, s.1, k) && ParentBelow(s.0, s.1, k');
    GroupedClusters(keys, hashes, threshold, k, k');
  }

  /** The root of every cluster with two or more members is some other key's
      parent, so the counter sees it twice and keeps it. */
  lemma RootListed(keys: seq<string>, hashes: map<string, Fingerprint>, threshold: nat, k: string)
    requires WellFormed(keys, hashes) && k in hashes && HasMate(keys, hashes, threshold, k)
    ensures var s := Grouped(keys, hashes, threshold);
            Listed(SharedEntries(keys, s.0), Root(s.0, s.1, k))
  {
    var s := Grouped(keys, hashes, threshold);
    var r := Root(s.0, s.1, k);
    var k' :| k' in hashes && k' != k && Clustered(keys, hashes, threshold, k, k');
    GroupedClusters(keys, hashes, threshold, k, k');
    var below := if r != k then k else k';
    var c := RootHasDirectChild(s.0, s.1, below);
    ListedIff(keys, s.0, r);
    assert c in keys && c != r && s.0[c] == s.0[r];
  }

  /** group_hashes as written: the counter runs over the raw parent map that
      g.get() returns. Every surviving item pairs a key with a member of its
      own cluster, but see GroupHashesByRoot. */
  method GroupHashes(keys: seq<string>, hashes: map<string, Fingerprint>, threshold: nat)
    returns (filtered: seq<(string, string)>)
    requires WellFormed(keys, hashes)
    ensures filtered == SharedEntries(keys, Grouped(keys, hashes, threshold).0)
    ensures KeysDistinct(filtered)
    ensures forall i | 0 <= i < |filtered| ::
              && filtered[i].0 in hashes && filtered[i].1 in hashes
              && Clustered(keys, hashes, threshold, filtered[i].0, filtered[i].1)
    ensures forall k | k in hashes && Listed(filtered, k) :: HasMate(keys, hashes, threshold, k)
    ensures var s := Grouped(keys, hashes, threshold);
            forall k | k in hashes && HasMate(keys, hashes, threshold, k) :: Listed(filtered, Root(s.0, s.1, k))
  {
    var g := Cluster(keys, hashes, threshold);
    var groupResult := g.Get();
    GroupedAllClusters(keys, hashes, threshold);
    LabelsInCluster(keys, hashes, threshold, (g.parent, g.rank), groupResult);
    filtered := SharedEntries(keys, groupResult);
    forall k | k in hashes && Listed(filtered, k) ensures HasMate(keys, hashes, threshold, k) {
      ListedHasMate(keys, hashes, threshold, k);
    }
    forall k | k in hashes && HasMate(keys, hashes, threshold, k)
      ensures Listed(filtered, Root(g.parent, g.rank, k))
    {
      RootListed(keys, hashes, threshold, k);
    }
  }

  /** find(k) for one more key: the representative, which finding leaves unchanged. */
  method LabelOf(g: Groups, k: string, ghost reps: map<string, string>) returns (r: string)
    requires g.Valid() && k in g.Keys && reps == Reps(g)
    modifies g
    ensures g.Valid() && reps == Reps(g)
    ensures r == reps[k]
  {
    r := g.Find(k);
    assert forall x | x in g.Keys :: g.Rep(x) == reps[x];
  }

  /** Labels that agree with representatives which follow the clusters report the clusters. */
  lemma RootLabelsReport(keys: seq<string>, hashes: map<string, Fingerprint>, threshold: nat,
                         reps: map<string, string>, labels: map<string, string>)
    requires WellFormed(keys, hashes)
    requires reps.Keys == hashes.Keys
    requires forall a, b {:trigger Clustered(keys, hashes, threshold, a, b)} | a in hashes && b in hashes :: reps[a] == reps[b] <==> Clustered(keys, hashes, threshold, a, b)
    requires forall k | k in keys :: k in labels && labels[k] == reps[k]
    ensures ReportsClusters(keys, hashes, threshold, SharedEntries(keys, labels))
  {
    SharedReportsClusters(keys, keys, hashes, threshold, labels);
  }

  /** The loop that labels every key with find(k); finding changes no representative. */
  method LabelAll(g: Groups, keys: seq<string>, ghost reps: map<string, string>) returns (labels: map<string, string>)
    requires g.Valid() && reps == Reps(g) && forall k | k in keys :: k in g.Keys
    modifies g
    ensures g.Valid() && reps == Reps(g)
    ensures forall k | k in keys :: k in labels && labels[k] == reps[k]
  {
    labels := map[];
    var i := 0;
    while i < |keys|
      invariant 0 <= i <= |keys|
      invariant g.Valid() && reps == Reps(g)
      invariant forall j | 0 <= j < i :: keys[j] in labels && labels[keys[j]] == reps[keys[j]]
    {
      var r := LabelOf(g, keys[i], reps);
      labels := labels[keys[i] := r];
      i := i + 1;
    }
  }

  /** group_hashes labelling each key by find(k), its representative, before
      counting: the output reports the clusters. */
  method GroupHashesByRoot(keys: seq<string>, hashes: map<string, Fingerprint>, threshold: nat)
    returns (filtered: seq<(string, string)>)
    requires WellFormed(keys, hashes)
    ensures ReportsClusters(keys, hashes, threshold, filtered)
  {
    var g := Cluster(keys, hashes, threshold);
    ghost var reps := Reps(g);
    forall a, b | a in hashes && b in hashes
      ensures reps[a] == reps[b] <==> Clustered(keys, hashes, threshold, a, b)
    {
      assert reps[a] == g.Rep(a) && reps[b] == g.Rep(b);
    }
    var labels := LabelAll(g, keys, reps);
    RootLabelsReport(keys, hashes, threshold, reps, labels);
    filtered := SharedEntries(keys, labels);
  }
}
