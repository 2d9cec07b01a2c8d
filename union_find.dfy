/** The disjoint-set structure of groups.py: a parent map and a rank map keyed
    by the same strings, with a recursive, path-compressing find and a
    union by rank. The pure functions below give the state each operation
    leaves behind; the class Groups holds the two maps and updates them in place. */
module UnionFind {

  /** Keys ranked strictly above x; it shrinks at every step towards a root. */
  ghost function Above(rank: map<string, nat>, x: string): set<string>
    requires x in rank
  {
    set k | k in rank && rank[k] > rank[x]
  }

  /** The invariant the two maps keep: same keys, parents are keys, and a
      non-root is ranked strictly below its parent. */
  ghost predicate Forest(parent: map<string, string>, rank: map<string, nat>)
  {
    && parent.Keys == rank.Keys
    && forall k {:trigger ParentBelow(parent, rank, k)} | k in parent :: ParentBelow(parent, rank, k)
  }

  /** k's parent is a key, and ranked above k unless k is a root. */
  ghost predicate ParentBelow(parent: map<string, string>, rank: map<string, nat>, k: string)
    requires parent.Keys == rank.Keys && k in parent
  {
    parent[k] in parent && (parent[k] != k ==> rank[k] < rank[parent[k]])
  }

  ghost predicate IsRoot(parent: map<string, string>, r: string)
  {
    r in parent && parent[r] == r
  }

  lemma AboveShrinks(parent: map<string, string>, rank: map<string, nat>, x: string)
    requires Forest(parent, rank) && x in parent && parent[x] != x
    ensures parent[x] in parent && rank[x] < rank[parent[x]]
    ensures Above(rank, parent[x]) < Above(rank, x)
  {
    assert ParentBelow(parent, rank, x);
    var p := parent[x];
    assert p in Above(rank, x);
    assert p !in Above(rank, p);
  }

  /** The representative of x: the root reached by following parents. */
  ghost function Root(parent: map<string, string>, rank: map<string, nat>, x: string): (r: string)
    requires Forest(parent, rank) && x in parent
    ensures IsRoot(parent, r)
    ensures r != x ==> rank[x] < rank[r]
    decreases Above(rank, x)
  {
    if parent[x] == x then x
    else
      AboveShrinks(parent, rank, x);
      Root(parent, rank, parent[x])
  }

  /** a and b are in the same set. */
  ghost predicate SameSet(parent: map<string, string>, rank: map<string, nat>, a: string, b: string)
    requires Forest(parent, rank) && a in parent && b in parent
  {
    Root(parent, rank, a) == Root(parent, rank, b)
  }

  /** Pointing x straight at its root keeps the forest and every representative. */
  lemma RedirectToRoot(parent: map<string, string>, rank: map<string, nat>, x: string)
    requires Forest(parent, rank) && x in parent
    ensures Forest(parent[x := Root(parent, rank, x)], rank)
    ensures forall k {:trigger Root(parent[x := Root(parent, rank, x)], rank, k)} | k in parent ::
              Root(parent[x := Root(parent, rank, x)], rank, k) == Root(parent, rank, k)
  {
    var p' := parent[x := Root(parent, rank, x)];
    forall k {:trigger ParentBelow(p', rank, k)} | k in p' ensures ParentBelow(p', rank, k) {
      assert ParentBelow(parent, rank, k);
    }
    forall k {:trigger Root(p', rank, k)} | k in parent ensures Root(p', rank, k) == Root(parent, rank, k) {
      RedirectRootAt(parent, rank, x, k);
    }
  }

  lemma {:induction false} RedirectRootAt(parent: map<string, string>, rank: map<string, nat>, x: string, k: string)
    requires Forest(parent, rank) && x in parent && k in parent
    requires Forest(parent[x := Root(parent, rank, x)], rank)
    ensures Root(parent[x := Root(parent, rank, x)], rank, k) == Root(parent, rank, k)
    decreases Above(rank, k)
  {
    var r := Root(parent, rank, x);
    var p' := parent[x := r];
    if k == x {
      if r != x {
        assert p'[r] == r;
        assert Root(p', rank, r) == r;
      }
    } else if parent[k] != k {
      AboveShrinks(parent, rank, k);
      RedirectRootAt(parent, rank, x, parent[k]);
    }
  }

  /** The parent map after find(x) (groups.py:7-12): x and every node on its
      path now point at the root; representatives are unchanged. */
  ghost function Compressed(parent: map<string, string>, rank: map<string, nat>, x: string): (p': map<string, string>)
    requires Forest(parent, rank) && x in parent
    ensures p'.Keys == parent.Keys
    ensures Forest(p', rank)
    ensures forall k {:trigger Root(p', rank, k)} | k in parent :: Root(p', rank, k) == Root(parent, rank, k)
    ensures p'[x] == Root(parent, rank, x)
    ensures forall k {:trigger p'[k]} | k in parent :: p'[k] == parent[k] || p'[k] == Root(parent, rank, k)
    decreases Above(rank, x)
  {
    if parent[x] == x then parent
    else
      AboveShrinks(parent, rank, x);
      var p1 := Compressed(parent, rank, parent[x]);
      RedirectToRoot(p1, rank, x);
      p1[x := Root(parent, rank, x)]
  }

  /** The root that survives unite's link (groups.py:21-26): one of the two,
      ranked at least as high as both, and rx on a tie. */
  function Winner(rank: map<string, nat>, rx: string, ry: string): (w: string)
    requires rx in rank && ry in rank
    ensures w == rx || w == ry
    ensures rank[w] >= rank[rx] && rank[w] >= rank[ry]
    ensures rank[rx] == rank[ry] ==> w == rx
  {
    if rank[rx] < rank[ry] then ry else rx
  }

  /** unite's link of two distinct roots: the lower-ranked root goes under the
      other; on a tie ry goes under rx and rx's rank grows by one. Either way
      the root that moves ends ranked strictly below its new parent, and no
      rank grows by more than one. */
  function Link(parent: map<string, string>, rank: map<string, nat>, rx: string, ry: string)
    : (r: (map<string, string>, map<string, nat>))
    requires rx in rank && ry in rank
    ensures r.1.Keys == rank.Keys
    ensures rx != ry ==>
              || (rx in r.0 && r.0[rx] == ry && r.1[rx] < r.1[ry])
              || (ry in r.0 && r.0[ry] == rx && r.1[ry] < r.1[rx])
    ensures forall k | k in parent && k != rx && k != ry :: k in r.0 && r.0[k] == parent[k]
    ensures forall k | k in rank :: rank[k] <= r.1[k] <= rank[k] + 1
  {
    if rank[rx] < rank[ry] then (parent[rx := ry], rank)
    else (parent[ry := rx], if rank[rx] == rank[ry] then rank[rx := rank[rx] + 1] else rank)
  }

  lemma LinkKeepsForest(parent: map<string, string>, rank: map<string, nat>, rx: string, ry: string)
    requires Forest(parent, rank) && IsRoot(parent, rx) && IsRoot(parent, ry) && rx != ry
    ensures Forest(Link(parent, rank, rx, ry).0, Link(parent, rank, rx, ry).1)
    ensures Link(parent, rank, rx, ry).0.Keys == parent.Keys
  {
    var (p', r') := Link(parent, rank, rx, ry);
    forall k {:trigger ParentBelow(p', r', k)} | k in p' ensures ParentBelow(p', r', k) {
      assert ParentBelow(parent, rank, k);
    }
  }

  lemma {:induction false} LinkRootAt(parent: map<string, string>, rank: map<string, nat>, rx: string, ry: string, k: string)
    requires Forest(parent, rank) && IsRoot(parent, rx) && IsRoot(parent, ry) && rx != ry && k in parent
    requires Forest(Link(parent, rank, rx, ry).0, Link(parent, rank, rx, ry).1)
    ensures var (p', r') := Link(parent, rank, rx, ry);
            var old_root := Root(parent, rank, k);
            Root(p', r', k) == if old_root == rx || old_root == ry then Winner(rank, rx, ry) else old_root
    decreases Above(rank, k)
  {
    var (p', r') := Link(parent, rank, rx, ry);
    var w := Winner(rank, rx, ry);
    if parent[k] == k {
      if k == rx || k == ry {
        assert p'[w] == w;
        assert Root(p', r', w) == w;
      }
    } else {
      AboveShrinks(parent, rank, k);
      LinkRootAt(parent, rank, rx, ry, parent[k]);
    }
  }

  /** Linking two roots merges exactly their two sets under the winner. */
  lemma LinkMerges(parent: map<string, string>, rank: map<string, nat>, rx: string, ry: string)
    requires Forest(parent, rank) && IsRoot(parent, rx) && IsRoot(parent, ry) && rx != ry
    ensures Forest(Link(parent, rank, rx, ry).0, Link(parent, rank, rx, ry).1)
    ensures Link(parent, rank, rx, ry).0.Keys == parent.Keys
    ensures forall k {:trigger Root(Link(parent, rank, rx, ry).0, Link(parent, rank, rx, ry).1, k)} | k in parent ::
              var old_root := Root(parent, rank, k);
              Root(Link(parent, rank, rx, ry).0, Link(parent, rank, rx, ry).1, k)
                == if old_root == rx || old_root == ry then Winner(rank, rx, ry) else old_root
  {
    LinkKeepsForest(parent, rank, rx, ry);
    forall k {:trigger Root(Link(parent, rank, rx, ry).0, Link(parent, rank, rx, ry).1, k)} | k in parent
      ensures var old_root := Root(parent, rank, k);
              Root(Link(parent, rank, rx, ry).0, Link(parent, rank, rx, ry).1, k)
                == if old_root == rx || old_root == ry then Winner(rank, rx, ry) else old_root
    {
      LinkRootAt(parent, rank, rx, ry, k);
    }
  }

  /** The maps after unite(x, y) (groups.py:14-26): find x, find y, and link
      the two roots unless they coincide. */
  ghost function United(parent: map<string, string>, rank: map<string, nat>, x: string, y: string)
    : (r: (map<string, string>, map<string, nat>))
    requires Forest(parent, rank) && x in parent && y in parent
    ensures r.0.Keys == parent.Keys && r.1.Keys == rank.Keys
    ensures forall k | k in rank :: rank[k] <= r.1[k] <= rank[k] + 1
  {
    var p1 := Compressed(parent, rank, x);
    var rx := Root(parent, rank, x);
    var p2 := Compressed(p1, rank, y);
    var ry := Root(p1, rank, y);
    if rx == ry then (p2, rank) else Link(p2, rank, rx, ry)
  }

  /** The representative of one key after unite(x, y): the two roots of x and
      y become the winner of the link, every other representative stays. */
  lemma UnitedRootAt(parent: map<string, string>, rank: map<string, nat>, x: string, y: string, k: string)
    requires Forest(parent, rank) && x in parent && y in parent && k in parent
    ensures var u := United(parent, rank, x, y);
      && Forest(u.0, u.1) && u.0.Keys == parent.Keys
      && Root(u.0, u.1, k) == MergedRoot(parent, rank, x, y, k)
  {
    var p1 := Compressed(parent, rank, x);
    var rx := Root(parent, rank, x);
    var p2 := Compressed(p1, rank, y);
    var ry := Root(p1, rank, y);
    assert ry == Root(parent, rank, y);
    assert Root(p2, rank, k) == Root(p1, rank, k) == Root(parent, rank, k);
    if rx != ry {
      LinkKeepsForest(p2, rank, rx, ry);
      LinkRootAt(p2, rank, rx, ry, k);
    }
  }

  /** k's representative once the sets of x and y are merged. */
  ghost function MergedRoot(parent: map<string, string>, rank: map<string, nat>, x: string, y: string, k: string): string
    requires Forest(parent, rank) && x in parent && y in parent && k in parent
  {
    var rx, ry, rk := Root(parent, rank, x), Root(parent, rank, y), Root(parent, rank, k);
    if rx != ry && (rk == rx || rk == ry) then Winner(rank, rx, ry) else rk
  }

  lemma MergedSame(parent: map<string, string>, rank: map<string, nat>, x: string, y: string, a: string, b: string)
    requires Forest(parent, rank) && x in parent && y in parent && a in parent && b in parent
    ensures MergedRoot(parent, rank, x, y, a) == MergedRoot(parent, rank, x, y, b) <==>
              || SameSet(parent, rank, a, b)
              || ((SameSet(parent, rank, a, x) || SameSet(parent, rank, a, y)) &&
                  (SameSet(parent, rank, b, x) || SameSet(parent, rank, b, y)))
  {
    var rx, ry := Root(parent, rank, x), Root(parent, rank, y);
    var ra, rb := Root(parent, rank, a), Root(parent, rank, b);
    assert Winner(rank, rx, ry) == rx || Winner(rank, rx, ry) == ry;
  }

  /** unite merges the set of x with the set of y and changes no other set;
      when they already coincide no rank and no representative changes. */
  lemma UniteMerges(parent: map<string, string>, rank: map<string, nat>, x: string, y: string)
    requires Forest(parent, rank) && x in parent && y in parent
    ensures var u := United(parent, rank, x, y);
      && Forest(u.0, u.1) && u.0.Keys == parent.Keys
      && SameSet(u.0, u.1, x, y)
      && (forall a, b {:trigger SameSet(u.0, u.1, a, b)} | a in parent && b in parent ::
            SameSet(u.0, u.1, a, b) <==>
              || SameSet(parent, rank, a, b)
              || ((SameSet(parent, rank, a, x) || SameSet(parent, rank, a, y)) &&
                  (SameSet(parent, rank, b, x) || SameSet(parent, rank, b, y))))
      && (SameSet(parent, rank, x, y) ==>
            u.1 == rank && forall k {:trigger Root(u.0, u.1, k)} | k in parent :: Root(u.0, u.1, k) == Root(parent, rank, k))
  {
    var u := United(parent, rank, x, y);
    UnitedSameAt(parent, rank, x, y, x, y);
    if SameSet(parent, rank, x, y) {
      UnitedKeepsRoots(parent, rank, x, y);
    }
    forall a, b {:trigger SameSet(u.0, u.1, a, b)} | a in parent && b in parent
      ensures SameSet(u.0, u.1, a, b) <==>
              || SameSet(parent, rank, a, b)
              || ((SameSet(parent, rank, a, x) || SameSet(parent, rank, a, y)) &&
                  (SameSet(parent, rank, b, x) || SameSet(parent, rank, b, y)))
    {
      UnitedSameAt(parent, rank, x, y, a, b);
    }
  }

  /** unite of two keys of one set changes no rank and no representative. */
  lemma UnitedKeepsRoots(parent: map<string, string>, rank: map<string, nat>, x: string, y: string)
    requires Forest(parent, rank) && x in parent && y in parent && SameSet(parent, rank, x, y)
    ensures var u := United(parent, rank, x, y);
      && Forest(u.0, u.1) && u.1 == rank
      && forall k {:trigger Root(u.0, u.1, k)} | k in parent :: Root(u.0, u.1, k) == Root(parent, rank, k)
  {
    var u := United(parent, rank, x, y);
    UnitedRootAt(parent, rank, x, y, x);
    assert Root(Compressed(parent, rank, x), rank, y) == Root(parent, rank, y);
    forall k {:trigger Root(u.0, u.1, k)} | k in parent ensures Root(u.0, u.1, k) == Root(parent, rank, k) {
      UnitedRootAt(parent, rank, x, y, k);
    }
  }

  lemma UnitedSameAt(parent: map<string, string>, rank: map<string, nat>, x: string, y: string, a: string, b: string)
    requires Forest(parent, rank) && x in parent && y in parent && a in parent && b in parent
    ensures var u := United(parent, rank, x, y);
      && Forest(u.0, u.1) && u.0.Keys == parent.Keys
      && (SameSet(u.0, u.1, a, b) <==>
            || SameSet(parent, rank, a, b)
            || ((SameSet(parent, rank, a, x) || SameSet(parent, rank, a, y)) &&
                (SameSet(parent, rank, b, x) || SameSet(parent, rank, b, y))))
  {
    UnitedRootAt(parent, rank, x, y, a);
    UnitedRootAt(parent, rank, x, y, b);
    MergedSame(parent, rank, x, y, a, b);
  }

  /** A root whose set has another member is the direct parent of some other key. */
  lemma {:induction false} RootHasDirectChild(parent: map<string, string>, rank: map<string, nat>, k: string)
    returns (c: string)
    requires Forest(parent, rank) && k in parent && Root(parent, rank, k) != k
    ensures c in parent && c != Root(parent, rank, k) && parent[c] == Root(parent, rank, k)
    decreases Above(rank, k)
  {
    if parent[k] == Root(parent, rank, k) {
      c := k;
    } else {
      AboveShrinks(parent, rank, k);
      c := RootHasDirectChild(parent, rank, parent[k]);
    }
  }

  /** The label m gives k is a key of k's own set. */
  ghost predicate LabelInSet(parent: map<string, string>, rank: map<string, nat>, m: map<string, string>, k: string)
    requires Forest(parent, rank) && k in parent && k in m
  {
    m[k] in parent && Root(parent, rank, m[k]) == Root(parent, rank, k)
  }

  /** same() is an equivalence relation in every state the structure can reach. */
  lemma SameSetEquivalence(parent: map<string, string>, rank: map<string, nat>)
    requires Forest(parent, rank)
    ensures forall a {:trigger SameSet(parent, rank, a, a)} | a in parent :: SameSet(parent, rank, a, a)
    ensures forall a, b {:trigger SameSet(parent, rank, a, b)} | a in parent && b in parent :: SameSet(parent, rank, a, b) ==> SameSet(parent, rank, b, a)
    ensures forall a, b, c {:trigger SameSet(parent, rank, a, b), SameSet(parent, rank, b, c)} | a in parent && b in parent && c in parent ::
              SameSet(parent, rank, a, b) && SameSet(parent, rank, b, c) ==> SameSet(parent, rank, a, c)
  {
  }

  class Groups {
    /** The keys given to the constructor; the maps are keyed by exactly these. */
    ghost const Keys: set<string>
    var parent: map<string, string>
    var rank: map<string, nat>

    ghost predicate Valid()
      reads this
    {
      Forest(parent, rank) && parent.Keys == Keys
    }

    /** The representative find(x) would return. */
    ghost function Rep(x: string): string
      reads this
      requires Valid() && x in Keys
    {
      Root(parent, rank, x)
    }

    constructor (keys: set<string>)
      ensures Valid() && Keys == keys
      ensures parent == (map k | k in keys :: k)
      ensures rank == (map k | k in keys :: 0)
      ensures forall k {:trigger Rep(k)} | k in keys :: Rep(k) == k
    {
      Keys := keys;
      rank := map k | k in keys :: 0;
      parent := map k | k in keys :: k;
    }

    method Find(x: string) returns (r: string)
      requires Valid() && x in Keys
      modifies this
      ensures Valid() && rank == old(rank)
      ensures parent == Compressed(old(parent), rank, x)
      ensures r == Root(old(parent), rank, x) && parent[r] == r && parent[x] == r
      decreases Above(rank, x)
    {
      if parent[x] == x {
        r := x;
      } else {
        AboveShrinks(parent, rank, x);
        var root := Find(parent[x]);
        parent := parent[x := root];
        r := parent[x];
        assert parent == Compressed(old(parent), rank, x);
      }
    }

    method Unite(x: string, y: string)
      requires Valid() && x in Keys && y in Keys
      modifies this
      ensures Valid()
      ensures (parent, rank) == United(old(parent), old(rank), x, y)
      ensures SameSet(parent, rank, x, y)
      ensures forall a, b {:trigger SameSet(parent, rank, a, b)} | a in Keys && b in Keys ::
                SameSet(parent, rank, a, b) <==>
                  || old(SameSet(parent, rank, a, b))
                  || (old(SameSet(parent, rank, a, x) || SameSet(parent, rank, a, y)) &&
                      old(SameSet(parent, rank, b, x) || SameSet(parent, rank, b, y)))
      ensures old(SameSet(parent, rank, x, y)) ==>
                rank == old(rank) && forall k {:trigger Root(parent, rank, k)} | k in Keys :: Root(parent, rank, k) == old(Root(parent, rank, k))
    {
      ghost var p0, r0 := parent, rank;
      var rx := Find(x);
      ghost var p1 := parent;
      var ry := Find(y);
      ghost var p2 := parent;
      assert United(p0, r0, x, y) == if rx == ry then (p2, r0) else Link(p2, r0, rx, ry);
      if rx != ry {
        if rank[rx] < rank[ry] {
          parent := parent[rx := ry];
        } else {
          parent := parent[ry := rx];
          if rank[rx] == rank[ry] {
            rank := rank[rx := rank[rx] + 1];
          }
        }
        assert (parent, rank) == Link(p2, r0, rx, ry);
      }
      assert (parent, rank) == United(p0, r0, x, y);
      UniteMerges(p0, r0, x, y);
    }

    method Same(x: string, y: string) returns (b: bool)
      requires Valid() && x in Keys && y in Keys
      modifies this
      ensures Valid() && rank == old(rank)
      ensures parent == Compressed(Compressed(old(parent), rank, x), rank, y)
      ensures b <==> old(Rep(x) == Rep(y))
      ensures forall k {:trigger Rep(k)} | k in Keys :: Rep(k) == old(Rep(k))
    {
      var rx := Find(x);
      var ry := Find(y);
      b := rx == ry;
    }

    /** The raw parent map: each value is in its key's set but need not be its root. */
    method Get() returns (m: map<string, string>)
      requires Valid()
      ensures m == parent && m.Keys == Keys
      ensures forall k {:trigger LabelInSet(parent, rank, m, k)} | k in m :: LabelInSet(parent, rank, m, k)
    {
      m := parent;
      forall k | k in m ensures LabelInSet(parent, rank, m, k) {
        assert ParentBelow(parent, rank, k);
      }
    }
  }
}
