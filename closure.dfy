/** The equivalence relation generated by a sequence of "these two belong
    together" pairs, built one pair at a time. Both groupings of the
    repository (the union-find one and the earlier relabelling one) are
    proved to produce exactly this relation for the pairs they visit. */
module Closure {

  type Edge = (string, string)

  /** a and b are related once every pair of `edges` has been joined, in order:
      joining (x, y) merges the class of x with the class of y. */
  predicate Conn(edges: seq<Edge>, a: string, b: string)
    decreases |edges|
  {
    if edges == [] then a == b
    else
      var rest, e := edges[..|edges| - 1], edges[|edges| - 1];
      Conn(rest, a, b) ||
      ((Conn(rest, a, e.0) || Conn(rest, a, e.1)) && (Conn(rest, b, e.0) || Conn(rest, b, e.1)))
  }

  /** Joining one more pair (x, y): a and b are related iff they were, or
      each was related to x or to y. */
  lemma ConnSnoc(edges: seq<Edge>, e: Edge, a: string, b: string)
    ensures Conn(edges + [e], a, b) <==>
              || Conn(edges, a, b)
              || ((Conn(edges, a, e.0) || Conn(edges, a, e.1)) && (Conn(edges, b, e.0) || Conn(edges, b, e.1)))
  {
    assert (edges + [e])[..|edges|] == edges;
  }

  lemma {:induction false} ConnReflexive(edges: seq<Edge>, a: string)
    ensures Conn(edges, a, a)
    decreases |edges|
  {
    if edges != [] {
      ConnReflexive(edges[..|edges| - 1], a);
    }
  }

  lemma {:induction false} ConnSymmetric(edges: seq<Edge>, a: string, b: string)
    requires Conn(edges, a, b)
    ensures Conn(edges, b, a)
    decreases |edges|
  {
    if edges != [] {
      var rest := edges[..|edges| - 1];
      if Conn(rest, a, b) {
        ConnSymmetric(rest, a, b);
      }
    }
  }

  lemma {:induction false} ConnTransitive(edges: seq<Edge>, a: string, b: string, c: string)
    requires Conn(edges, a, b) && Conn(edges, b, c)
    ensures Conn(edges, a, c)
    decreases |edges|
  {
    if edges != [] {
      var rest, e := edges[..|edges| - 1], edges[|edges| - 1];
      if Conn(rest, a, b) && Conn(rest, b, c) {
        ConnTransitive(rest, a, b, c);
      } else if Conn(rest, a, b) {
        // b is in the merged class, hence so is a
        if Conn(rest, b, e.0) { ConnTransitive(rest, a, b, e.0); } else { ConnTransitive(rest, a, b, e.1); }
      } else if Conn(rest, b, c) {
        ConnSymmetric(rest, b, c);
        if Conn(rest, b, e.0) { ConnTransitive(rest, c, b, e.0); } else { ConnTransitive(rest, c, b, e.1); }
      }
    }
  }

  /** Conn is an equivalence relation for every edge sequence. */
  lemma ConnEquivalence(edges: seq<Edge>)
    ensures forall a :: Conn(edges, a, a)
    ensures forall a, b :: Conn(edges, a, b) ==> Conn(edges, b, a)
    ensures forall a, b, c :: Conn(edges, a, b) && Conn(edges, b, c) ==> Conn(edges, a, c)
  {
    forall a ensures Conn(edges, a, a) { ConnReflexive(edges, a); }
    forall a, b | Conn(edges, a, b) ensures Conn(edges, b, a) { ConnSymmetric(edges, a, b); }
    forall a, b, c | Conn(edges, a, b) && Conn(edges, b, c) ensures Conn(edges, a, c) {
      ConnTransitive(edges, a, b, c);
    }
  }

  /** Joining more pairs never separates anything. */
  lemma {:induction false} ConnGrows(edges: seq<Edge>, more: seq<Edge>, a: string, b: string)
    requires Conn(edges, a, b)
    ensures Conn(edges + more, a, b)
    decreases |more|
  {
    if more != [] {
      var m := more[..|more| - 1];
      var all := edges + more;
      assert all[..|all| - 1] == edges + m;
      ConnGrows(edges, m, a, b);
      assert all != [] && Conn(all[..|all| - 1], a, b);
    } else {
      assert edges + more == edges;
    }
  }

  /** Every pair that was joined is related. */
  lemma {:induction false} ConnHasEdges(edges: seq<Edge>, i: nat)
    requires i < |edges|
    ensures Conn(edges, edges[i].0, edges[i].1)
  {
    var pre := edges[..i + 1];
    ConnReflexive(edges[..i], edges[i].0);
    ConnReflexive(edges[..i], edges[i].1);
    assert pre[..i] == edges[..i];
    assert Conn(pre, edges[i].0, edges[i].1);
    ConnGrows(pre, edges[i + 1..], edges[i].0, edges[i].1);
    assert pre + edges[i + 1..] == edges;
  }

  /** u and v are one step apart: equal, or joined directly in either direction. */
  predicate Adjacent(edges: seq<Edge>, u: string, v: string)
  {
    u == v || (u, v) in edges || (v, u) in edges
  }

  /** A non-empty path whose consecutive entries are adjacent. */
  predicate IsChain(edges: seq<Edge>, path: seq<string>)
  {
    |path| > 0 && forall i :: 0 <= i < |path| - 1 ==> Adjacent(edges, path[i], path[i + 1])
  }

  lemma AdjacentConn(edges: seq<Edge>, u: string, v: string)
    requires Adjacent(edges, u, v)
    ensures Conn(edges, u, v)
  {
    if u == v {
      ConnReflexive(edges, u);
    } else if (u, v) in edges {
      var i :| 0 <= i < |edges| && edges[i] == (u, v);
      ConnHasEdges(edges, i);
    } else {
      var i :| 0 <= i < |edges| && edges[i] == (v, u);
      ConnHasEdges(edges, i);
      ConnSymmetric(edges, v, u);
    }
  }

  /** The ends of a chain are related. */
  lemma {:induction false} ChainConn(edges: seq<Edge>, path: seq<string>)
    requires IsChain(edges, path)
    ensures Conn(edges, path[0], path[|path| - 1])
    decreases |path|
  {
    if |path| == 1 {
      ConnReflexive(edges, path[0]);
    } else {
      var init := path[..|path| - 1];
      assert IsChain(edges, init) by {
        forall i | 0 <= i < |init| - 1 ensures Adjacent(edges, init[i], init[i + 1]) {
          assert init[i] == path[i] && init[i + 1] == path[i + 1];
        }
      }
      ChainConn(edges, init);
      AdjacentConn(edges, path[|path| - 2], path[|path| - 1]);
      ConnTransitive(edges, path[0], path[|path| - 2], path[|path| - 1]);
    }
  }

  lemma ChainGrows(edges: seq<Edge>, more: seq<Edge>, path: seq<string>)
    requires IsChain(edges, path)
    ensures IsChain(edges + more, path)
  {
    forall i | 0 <= i < |path| - 1 ensures Adjacent(edges + more, path[i], path[i + 1]) {
      assert Adjacent(edges, path[i], path[i + 1]);
    }
  }

  lemma ChainJoin(edges: seq<Edge>, p: seq<string>, q: seq<string>)
    requires IsChain(edges, p) && IsChain(edges, q) && p[|p| - 1] == q[0]
    ensures IsChain(edges, p + q[1..])
    ensures (p + q[1..])[0] == p[0] && (p + q[1..])[|p + q[1..]| - 1] == q[|q| - 1]
  {
    var r := p + q[1..];
    forall i | 0 <= i < |r| - 1 ensures Adjacent(edges, r[i], r[i + 1]) {
      if i < |p| - 1 {
        assert r[i] == p[i] && r[i + 1] == p[i + 1];
      } else {
        var j := i - |p| + 1;
        assert r[i] == q[j] && r[i + 1] == q[j + 1];
      }
    }
  }

  /** Related elements are linked by a chain of joined pairs. */
  lemma {:induction false} ConnChain(edges: seq<Edge>, a: string, b: string) returns (path: seq<string>)
    requires Conn(edges, a, b)
    ensures IsChain(edges, path) && path[0] == a && path[|path| - 1] == b
    decreases |edges|
  {
    if edges == [] {
      path := [a];
    } else {
      var rest, e := edges[..|edges| - 1], edges[|edges| - 1];
      assert rest + [e] == edges;
      if Conn(rest, a, b) {
        path := ConnChain(rest, a, b);
        ChainGrows(rest, [e], path);
      } else {
        // a reaches e.0 or e.1, b reaches e.0 or e.1, and e joins the two
        var pa, pb;
        if Conn(rest, a, e.0) { pa := ConnChain(rest, a, e.0); } else { pa := ConnChain(rest, a, e.1); }
        if Conn(rest, b, e.0) {
          ConnSymmetric(rest, b, e.0);
          pb := ConnChain(rest, e.0, b);
        } else {
          ConnSymmetric(rest, b, e.1);
          pb := ConnChain(rest, e.1, b);
        }
        ChainGrows(rest, [e], pa);
        ChainGrows(rest, [e], pb);
        assert e in edges;
        var step := [pa[|pa| - 1], pb[0]];
        assert IsChain(edges, step) by {
          assert Adjacent(edges, step[0], step[1]);
        }
        ChainJoin(edges, pa, step);
        path := pa + step[1..];
        ChainJoin(edges, path, pb);
        path := path + pb[1..];
      }
    }
  }

  /** Conn is exactly "connected by a chain of joined pairs". */
  lemma ConnIffChain(edges: seq<Edge>, a: string, b: string)
    ensures Conn(edges, a, b) <==>
            exists path :: IsChain(edges, path) && path[0] == a && path[|path| - 1] == b
  {
    if Conn(edges, a, b) {
      var path := ConnChain(edges, a, b);
    }
    if exists path :: IsChain(edges, path) && path[0] == a && path[|path| - 1] == b {
      var path :| IsChain(edges, path) && path[0] == a && path[|path| - 1] == b;
      ChainConn(edges, path);
    }
  }

  /** An element no pair mentions stays alone. */
  lemma {:induction false} UntouchedAlone(edges: seq<Edge>, a: string, b: string)
    requires forall i :: 0 <= i < |edges| ==> edges[i].0 != a && edges[i].1 != a
    requires Conn(edges, a, b)
    ensures a == b
    decreases |edges|
  {
    if edges != [] {
      var rest, e := edges[..|edges| - 1], edges[|edges| - 1];
      if Conn(rest, a, b) {
        UntouchedAlone(rest, a, b);
      } else if Conn(rest, a, e.0) {
        UntouchedAlone(rest, a, e.0);
      } else {
        UntouchedAlone(rest, a, e.1);
      }
    }
  }
}
