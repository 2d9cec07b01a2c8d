/** Fingerprints, their distance, and the pairs both groupers visit.
    A fingerprint is imagehash's perceptual hash seen as its bits; `v1 - v2`
    in the scripts is the number of differing bits. */
module Fingerprints {
  import opened Closure

  type Fingerprint = seq<bool>

  /** imagehash's `h1 - h2`: the number of bit positions where the hashes differ. */
  function Hamming(a: Fingerprint, b: Fingerprint): (d: nat)
    requires |a| == |b|
    ensures d <= |a|
    ensures d == 0 <==> a == b
  {
    if a == [] then 0
    else (if a[0] != b[0] then 1 else 0) + Hamming(a[1..], b[1..])
  }

  lemma {:induction false} HammingSymmetric(a: Fingerprint, b: Fingerprint)
    requires |a| == |b|
    ensures Hamming(a, b) == Hamming(b, a)
  {
    if a != [] {
      HammingSymmetric(a[1..], b[1..]);
    }
  }

  /** Every fingerprint has the same width (imagehash refuses to subtract
      hashes of different shapes; phash always yields 64 bits). */
  predicate UniformWidth(hashes: map<string, Fingerprint>)
  {
    forall a, b {:trigger hashes[a], hashes[b]} | a in hashes && b in hashes :: |hashes[a]| == |hashes[b]|
  }

  /** The dict of hashes as the groupers see it: its keys in iteration
      order, each once, and fingerprints of one width. */
  predicate WellFormed(keys: seq<string>, hashes: map<string, Fingerprint>)
  {
    && (forall i, j | 0 <= i < j < |keys| :: keys[i] != keys[j])
    && (forall i | 0 <= i < |keys| :: keys[i] in hashes)
    && (forall k | k in hashes :: k in keys)
    && UniformWidth(hashes)
  }

  /** The comparison `v1 - v2 <= THRESHOLD` of both scripts. Equal
      fingerprints are always close, so only the loops' `k1 != k2` test keeps
      a key from being joined with itself. */
  function Close(hashes: map<string, Fingerprint>, threshold: nat, a: string, b: string): (close: bool)
    requires UniformWidth(hashes) && a in hashes && b in hashes
    ensures hashes[a] == hashes[b] ==> close
  {
    Hamming(hashes[a], hashes[b]) <= threshold
  }

  lemma CloseSymmetric(hashes: map<string, Fingerprint>, threshold: nat, a: string, b: string)
    requires UniformWidth(hashes) && a in hashes && b in hashes
    ensures Close(hashes, threshold, a, b) <==> Close(hashes, threshold, b, a)
  {
    HammingSymmetric(hashes[a], hashes[b]);
  }

  /** The pairs (k1, k2) the inner loop joins for one k1, in the order of `ks`. */
  function PairsOf(hashes: map<string, Fingerprint>, threshold: nat, k1: string, ks: seq<string>): (r: seq<Edge>)
    requires UniformWidth(hashes) && k1 in hashes && forall k | k in ks :: k in hashes
    ensures |r| <= |ks|
    ensures forall e | e in r :: e.0 == k1 && e.1 in ks && e.1 != k1 && Close(hashes, threshold, k1, e.1)
  {
    if ks == [] then []
    else
      var k2 := ks[|ks| - 1];
      PairsOf(hashes, threshold, k1, ks[..|ks| - 1]) +
      (if k1 != k2 && Close(hashes, threshold, k1, k2) then [(k1, k2)] else [])
  }

  /** The inner loop joins k1 with every other key within the threshold, and nothing else. */
  lemma {:induction false} PairsOfMembers(hashes: map<string, Fingerprint>, threshold: nat, k1: string, ks: seq<string>)
    requires UniformWidth(hashes) && k1 in hashes && forall k | k in ks :: k in hashes
    ensures forall p :: p in PairsOf(hashes, threshold, k1, ks) <==>
              p.0 == k1 && p.1 in ks && p.1 != k1 && Close(hashes, threshold, k1, p.1)
  {
    if ks != [] {
      var init, k2 := ks[..|ks| - 1], ks[|ks| - 1];
      PairsOfMembers(hashes, threshold, k1, init);
      assert ks == init + [k2];
    }
  }

  /** All pairs the nested loops join, outer key by outer key. */
  function ClosePairs(hashes: map<string, Fingerprint>, threshold: nat, outer: seq<string>, ks: seq<string>): (r: seq<Edge>)
    requires UniformWidth(hashes)
    requires forall k | k in outer :: k in hashes
    requires forall k | k in ks :: k in hashes
    ensures forall e | e in r :: e.0 in outer && e.1 in ks && e.0 != e.1 && Close(hashes, threshold, e.0, e.1)
  {
    if outer == [] then []
    else
      ClosePairs(hashes, threshold, outer[..|outer| - 1], ks) + PairsOf(hashes, threshold, outer[|outer| - 1], ks)
  }

  /** The nested loops join exactly the ordered pairs of distinct keys within
      the threshold whose first key is an outer key. */
  lemma {:induction false} ClosePairsMembers(hashes: map<string, Fingerprint>, threshold: nat, outer: seq<string>,
                                             ks: seq<string>)
    requires UniformWidth(hashes)
    requires forall k | k in outer :: k in hashes
    requires forall k | k in ks :: k in hashes
    ensures forall p :: p in ClosePairs(hashes, threshold, outer, ks) <==>
              p.0 in outer && p.1 in ks && p.0 != p.1 && Close(hashes, threshold, p.0, p.1)
  {
    if outer != [] {
      var init, k1 := outer[..|outer| - 1], outer[|outer| - 1];
      ClosePairsMembers(hashes, threshold, init, ks);
      PairsOfMembers(hashes, threshold, k1, ks);
      assert outer == init + [k1];
    }
  }

  /** The inner loop's pairs grow by at most one pair per visited key. */
  lemma PairsOfStep(hashes: map<string, Fingerprint>, threshold: nat, k1: string, ks: seq<string>, n: nat)
    requires UniformWidth(hashes) && k1 in hashes && forall k | k in ks :: k in hashes
    requires 0 < n <= |ks|
    ensures PairsOf(hashes, threshold, k1, ks[..n]) ==
            PairsOf(hashes, threshold, k1, ks[..n - 1]) +
            (if k1 != ks[n - 1] && Close(hashes, threshold, k1, ks[n - 1]) then [(k1, ks[n - 1])] else [])
  {
    assert ks[..n][..n - 1] == ks[..n - 1];
  }

  /** The outer loop's pairs grow by the inner loop's pairs of the next key. */
  lemma ClosePairsStep(hashes: map<string, Fingerprint>, threshold: nat, outer: seq<string>, ks: seq<string>, n: nat)
    requires UniformWidth(hashes)
    requires forall k | k in outer :: k in hashes
    requires forall k | k in ks :: k in hashes
    requires 0 < n <= |outer|
    ensures ClosePairs(hashes, threshold, outer[..n], ks) ==
            ClosePairs(hashes, threshold, outer[..n - 1], ks) + PairsOf(hashes, threshold, outer[n - 1], ks)
  {
    assert outer[..n][..n - 1] == outer[..n - 1];
  }

  /** a and b end up in one cluster: related once every close pair is joined. */
  predicate Clustered(keys: seq<string>, hashes: map<string, Fingerprint>, threshold: nat, a: string, b: string)
    requires WellFormed(keys, hashes)
  {
    Conn(ClosePairs(hashes, threshold, keys, keys), a, b)
  }

  /** A path of keys in which each key is within the threshold of the next. */
  predicate IsCloseChain(hashes: map<string, Fingerprint>, threshold: nat, path: seq<string>)
    requires UniformWidth(hashes)
  {
    && |path| > 0
    && (forall i | 0 <= i < |path| :: path[i] in hashes)
    && forall i | 0 <= i < |path| - 1 :: Close(hashes, threshold, path[i], path[i + 1])
  }

  lemma {:induction false} ChainStaysAmongKeys(keys: seq<string>, hashes: map<string, Fingerprint>, threshold: nat,
                                               path: seq<string>, i: nat)
    requires WellFormed(keys, hashes)
    requires IsChain(ClosePairs(hashes, threshold, keys, keys), path) && path[0] in hashes
    requires i < |path|
    ensures path[i] in hashes
  {
    if i > 0 {
      ChainStaysAmongKeys(keys, hashes, threshold, path, i - 1);
      var e := ClosePairs(hashes, threshold, keys, keys);
      ClosePairsMembers(hashes, threshold, keys, keys);
      assert Adjacent(e, path[i - 1], path[i]);
    }
  }

  lemma CloseChainOfChain(keys: seq<string>, hashes: map<string, Fingerprint>, threshold: nat, path: seq<string>)
    requires WellFormed(keys, hashes)
    requires IsChain(ClosePairs(hashes, threshold, keys, keys), path) && path[0] in hashes
    ensures IsCloseChain(hashes, threshold, path)
  {
    var e := ClosePairs(hashes, threshold, keys, keys);
    ClosePairsMembers(hashes, threshold, keys, keys);
    forall i | 0 <= i < |path| ensures path[i] in hashes {
      ChainStaysAmongKeys(keys, hashes, threshold, path, i);
    }
    forall i | 0 <= i < |path| - 1 ensures Close(hashes, threshold, path[i], path[i + 1]) {
      assert Adjacent(e, path[i], path[i + 1]);
      CloseSymmetric(hashes, threshold, path[i], path[i + 1]);
    }
  }

  lemma ChainOfCloseChain(keys: seq<string>, hashes: map<string, Fingerprint>, threshold: nat, path: seq<string>)
    requires WellFormed(keys, hashes)
    requires IsCloseChain(hashes, threshold, path)
    ensures IsChain(ClosePairs(hashes, threshold, keys, keys), path)
  {
    var e := ClosePairs(hashes, threshold, keys, keys);
    ClosePairsMembers(hashes, threshold, keys, keys);
    forall i | 0 <= i < |path| - 1 ensures Adjacent(e, path[i], path[i + 1]) {
      if path[i] != path[i + 1] {
        assert (path[i], path[i + 1]) in e;
      }
    }
  }

  /** Two keys share a cluster exactly when a chain of keys, each within the
      threshold of the next, leads from one to the other: closeness is
      extended transitively, as the grouping intends. */
  lemma ClusteredIffCloseChain(keys: seq<string>, hashes: map<string, Fingerprint>, threshold: nat, a: string, b: string)
    requires WellFormed(keys, hashes) && a in hashes && b in hashes
    ensures Clustered(keys, hashes, threshold, a, b) <==>
            exists path :: IsCloseChain(hashes, threshold, path) && path[0] == a && path[|path| - 1] == b
  {
    var e := ClosePairs(hashes, threshold, keys, keys);
    ClosePairsMembers(hashes, threshold, keys, keys);
    ConnIffChain(e, a, b);
    if Clustered(keys, hashes, threshold, a, b) {
      var path :| IsChain(e, path) && path[0] == a && path[|path| - 1] == b;
      CloseChainOfChain(keys, hashes, threshold, path);
    }
    if exists path :: IsCloseChain(hashes, threshold, path) && path[0] == a && path[|path| - 1] == b {
      var path :| IsCloseChain(hashes, threshold, path) && path[0] == a && path[|path| - 1] == b;
      ChainOfCloseChain(keys, hashes, threshold, path);
    }
  }

  /** Two keys within the threshold share a cluster. */
  lemma CloseClustered(keys: seq<string>, hashes: map<string, Fingerprint>, threshold: nat, a: string, b: string)
    requires WellFormed(keys, hashes) && a in hashes && b in hashes
    requires Close(hashes, threshold, a, b)
    ensures Clustered(keys, hashes, threshold, a, b)
  {
    var e := ClosePairs(hashes, threshold, keys, keys);
    ClosePairsMembers(hashes, threshold, keys, keys);
    if a == b {
      ConnReflexive(e, a);
    } else {
      assert Adjacent(e, a, b);
      AdjacentConn(e, a, b);
    }
  }

  /** A key farther than the threshold from every other key is alone in its cluster. */
  lemma FarKeyAlone(keys: seq<string>, hashes: map<string, Fingerprint>, threshold: nat, a: string, b: string)
    requires WellFormed(keys, hashes) && a in hashes
    requires forall k | k in hashes && k != a :: !Close(hashes, threshold, a, k)
    requires Clustered(keys, hashes, threshold, a, b)
    ensures a == b
  {
    var e := ClosePairs(hashes, threshold, keys, keys);
    ClosePairsMembers(hashes, threshold, keys, keys);
    forall i | 0 <= i < |e| ensures e[i].0 != a && e[i].1 != a {
      assert e[i] in e;
      if e[i].1 == a {
        CloseSymmetric(hashes, threshold, e[i].0, a);
      }
    }
    UntouchedAlone(e, a, b);
  }
}
