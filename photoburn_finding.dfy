/** A run of photoburn.py's group_hashes, as written, on five images whose
    clusters are not reported: the counter runs over the raw parent map of
    g.get(), and a key whose parent is neither a root nor shared with another
    key is filtered out although its cluster has five members. */
module PhotoburnFinding {
  import opened Closure
  import opened UnionFind
  import opened Fingerprints
  import opened SharedFilter
  import opened PhotoburnGrouping

  /** Four bits of a fingerprint, each spread over a block of five bits. */
  type Bits = (bool, bool, bool, bool)

  function Block(bit: bool): (f: Fingerprint)
    ensures |f| == 5
  {
    seq(5, _ => bit)
  }

  /** The 64-bit fingerprint: four blocks, then 44 zero bits. */
  function Print(b: Bits): (f: Fingerprint)
    ensures |f| == 64
  {
    Block(b.0) + Block(b.1) + Block(b.2) + Block(b.3) + seq(44, _ => false)
  }

  /** The number of the four bits in which x and y differ. */
  function Diff(x: Bits, y: Bits): nat
  {
    (if x.0 != y.0 then 1 else 0) + (if x.1 != y.1 then 1 else 0) +
    (if x.2 != y.2 then 1 else 0) + (if x.3 != y.3 then 1 else 0)
  }

  lemma {:induction false} HammingAppend(a1: Fingerprint, a2: Fingerprint, b1: Fingerprint, b2: Fingerprint)
    requires |a1| == |b1| && |a2| == |b2|
    ensures Hamming(a1 + a2, b1 + b2) == Hamming(a1, b1) + Hamming(a2, b2)
    decreases |a1|
  {
    if a1 == [] {
      assert a1 + a2 == a2 && b1 + b2 == b2;
    } else {
      assert (a1 + a2)[1..] == a1[1..] + a2 && (b1 + b2)[1..] == b1[1..] + b2;
      HammingAppend(a1[1..], a2, b1[1..], b2);
    }
  }

  lemma {:induction false} HammingAllDiffer(a: Fingerprint, b: Fingerprint)
    requires |a| == |b| && forall i | 0 <= i < |a| :: a[i] != b[i]
    ensures Hamming(a, b) == |a|
  {
    if a != [] {
      HammingAllDiffer(a[1..], b[1..]);
    }
  }

  lemma HammingBlock(x: bool, y: bool)
    ensures Hamming(Block(x), Block(y)) == if x != y then 5 else 0
  {
    if x != y {
      HammingAllDiffer(Block(x), Block(y));
    }
  }

  lemma HammingConcat(a0: Fingerprint, a1: Fingerprint, a2: Fingerprint, a3: Fingerprint,
                       b0: Fingerprint, b1: Fingerprint, b2: Fingerprint, b3: Fingerprint, z: Fingerprint)
    requires |a0| == |b0| && |a1| == |b1| && |a2| == |b2| && |a3| == |b3|
    ensures Hamming(a0 + a1 + a2 + a3 + z, b0 + b1 + b2 + b3 + z) ==
            Hamming(a0, b0) + Hamming(a1, b1) + Hamming(a2, b2) + Hamming(a3, b3)
  {
    HammingAppend(a0, a1, b0, b1);
    HammingAppend(a0 + a1, a2, b0 + b1, b2);
    HammingAppend(a0 + a1 + a2, a3, b0 + b1 + b2, b3);
    HammingAppend(a0 + a1 + a2 + a3, z, b0 + b1 + b2 + b3, z);
  }

  /** Spreading bits over blocks of five multiplies distances by five. */
  lemma PrintDistance(x: Bits, y: Bits)
    ensures Hamming(Print(x), Print(y)) == 5 * Diff(x, y)
  {
    HammingBlock(x.0, y.0);
    HammingBlock(x.1, y.1);
    HammingBlock(x.2, y.2);
    HammingBlock(x.3, y.3);
    HammingConcat(Block(x.0), Block(x.1), Block(x.2), Block(x.3),
                  Block(y.0), Block(y.1), Block(y.2), Block(y.3), seq(44, _ => false));
  }

  /** The bits of the five images, named A to E. */
  function BitsOf(k: string): Bits
  {
    if k == "A" then (false, false, false, false)
    else if k == "B" then (true, false, false, false)
    else if k == "C" then (false, true, true, true)
    else if k == "D" then (false, true, true, false)
    else (false, true, false, false)
  }

  /** The order in which the dict yields the five images. */
  function ExampleKeys(): seq<string>
  {
    ["A", "C", "B", "D", "E"]
  }

  function ExampleHashes(): (h: map<string, Fingerprint>)
    ensures h.Keys == {"A", "B", "C", "D", "E"}
    ensures forall k | k in h :: h[k] == Print(BitsOf(k))
  {
    map k | k in {"A", "B", "C", "D", "E"} :: Print(BitsOf(k))
  }

  /** The close pairs of the run below, in either order: a-b, a-e, e-d and d-c. */
  predicate Linked(a: string, b: string, c: string, d: string, e: string, x: string, y: string)
  {
    || (x == a && y == b) || (x == b && y == a) || (x == a && y == e) || (x == e && y == a)
    || (x == e && y == d) || (x == d && y == e) || (x == d && y == c) || (x == c && y == d)
  }

  /** What the run below needs of the hashes: five distinct keys a to e, and
      two distinct ones are within the threshold exactly when they are linked. */
  predicate Shape(h: map<string, Fingerprint>, a: string, b: string, c: string, d: string, e: string)
  {
    && a != b && a != c && a != d && a != e && b != c && b != d && b != e && c != d && c != e && d != e
    && h.Keys == {a, b, c, d, e}
    && UniformWidth(h)
    && forall x, y {:trigger Close(h, 5, x, y)} | x in h && y in h ::
         Close(h, 5, x, y) <==> x == y || Linked(a, b, c, d, e, x, y)
  }

  /** Two distinct example images differ in at most one bit exactly when they are linked. */
  lemma LinkedBits(x: string, y: string)
    requires x in {"A", "B", "C", "D", "E"} && y in {"A", "B", "C", "D", "E"}
    ensures Diff(BitsOf(x), BitsOf(y)) <= 1 <==> x == y || Linked("A", "B", "C", "D", "E", x, y)
  {
    assert "A"[0] == 'A' && "B"[0] == 'B' && "C"[0] == 'C' && "D"[0] == 'D' && "E"[0] == 'E';
    if x == "A" {
    } else if x == "B" {
    } else if x == "C" {
    } else if x == "D" {
    } else {
    }
  }

  /** With HASH_THRESHOLD 5 the example hashes have that shape. */
  lemma ExampleHashesShape()
    ensures Shape(ExampleHashes(), "A", "B", "C", "D", "E")
  {
    var h := ExampleHashes();
    forall x, y | x in h && y in h ensures Close(h, 5, x, y) <==> x == y || Linked("A", "B", "C", "D", "E", x, y) {
      PrintDistance(BitsOf(x), BitsOf(y));
      LinkedBits(x, y);
    }
  }

  /** find on a key whose parent is a root changes nothing. */
  lemma CompressedShallow(p: map<string, string>, r: map<string, nat>, x: string)
    requires Forest(p, r) && x in p && IsRoot(p, p[x])
    ensures Compressed(p, r, x) == p && Root(p, r, x) == p[x]
  {
    if p[x] != x {
      AboveShrinks(p, r, x);
      assert Compressed(p, r, p[x]) == p && Root(p, r, p[x]) == p[x];
      assert p[x := p[x]] == p;
    }
  }

  /** find on a key two steps below its root points it at the root. */
  lemma CompressedDepthTwo(p: map<string, string>, r: map<string, nat>, x: string)
    requires Forest(p, r) && x in p && p[x] in p && IsRoot(p, p[p[x]]) && p[x] != p[p[x]]
    ensures Compressed(p, r, x) == p[x := p[p[x]]] && Root(p, r, x) == p[p[x]]
  {
    AboveShrinks(p, r, x);
    CompressedShallow(p, r, p[x]);
  }

  /** unite on two keys whose parents are the distinct roots rx and ry links them. */
  lemma UnitedLink(p: map<string, string>, r: map<string, nat>, x: string, y: string, rx: string, ry: string)
    requires Forest(p, r) && x in p && y in p && p[x] == rx && p[y] == ry
    requires IsRoot(p, rx) && IsRoot(p, ry) && rx != ry
    ensures United(p, r, x, y) == Link(p, r, rx, ry)
  {
    CompressedShallow(p, r, x);
    CompressedShallow(p, r, y);
  }

  /** unite on two keys whose parents are one root changes nothing. */
  lemma UnitedSame(p: map<string, string>, r: map<string, nat>, x: string, y: string, root: string)
    requires Forest(p, r) && x in p && y in p && p[x] == root && p[y] == root && IsRoot(p, root)
    ensures United(p, r, x, y) == (p, r)
  {
    CompressedShallow(p, r, x);
    CompressedShallow(p, r, y);
  }

  /** A turn of the inner loop that unites img with the close key ks[n]. */
  lemma InnerJoin(s: State, h: map<string, Fingerprint>, k1: string, img: string, ks: seq<string>, n: nat)
    requires Forest(s.0, s.1) && img in s.0
    requires UniformWidth(h) && k1 in h
    requires forall k | k in ks :: k in h && k in s.0
    requires n < |ks| && k1 != ks[n] && Close(h, 5, k1, ks[n])
    ensures var prev := InnerPass(s, h, 5, k1, img, ks, n);
            InnerPass(s, h, 5, k1, img, ks, n + 1) == United(prev.0, prev.1, img, ks[n])
  {
  }

  /** A turn of the inner loop that unites nothing. */
  lemma InnerSkip(s: State, h: map<string, Fingerprint>, k1: string, img: string, ks: seq<string>, n: nat)
    requires Forest(s.0, s.1) && img in s.0
    requires UniformWidth(h) && k1 in h
    requires forall k | k in ks :: k in h && k in s.0
    requires n < |ks| && (k1 == ks[n] || !Close(h, 5, k1, ks[n]))
    ensures InnerPass(s, h, 5, k1, img, ks, n + 1) == InnerPass(s, h, 5, k1, img, ks, n)
  {
  }

  /** The four links of the run, each of two roots. */
  lemma Links(h: map<string, Fingerprint>, a: string, b: string, c: string, d: string, e: string)
    requires a != b && a != c && a != d && a != e && b != c && b != d && b != e && c != d && c != e && d != e
    requires h.Keys == {a, b, c, d, e}
    ensures Link(P0(h), R0(h), a, b) == (P1(h, a, b), R1(h, a))
    ensures Link(P1(h, a, b), R1(h, a), a, e) == (P2(h, a, b, e), R1(h, a))
    ensures Link(P2(h, a, b, e), R1(h, a), c, d) == (P3(h, a, b, c, d, e), R3(h, a, c))
    ensures Link(P3(h, a, b, c, d, e), R3(h, a, c), c, a) == (P4(h, a, b, c, d, e), R4(h, a, c))
  {
  }

  /** A turn of the outer loop: find k1, then the inner loop with its representative. */
  lemma OuterStep(keys: seq<string>, h: map<string, Fingerprint>, n: nat, s: State, p1: map<string, string>, img: string)
    requires WellFormed(keys, h) && 0 < n <= |keys|
    requires OuterPass(keys, h, 5, n - 1) == s && Forest(s.0, s.1)
    requires Compressed(s.0, s.1, keys[n - 1]) == p1 && Root(s.0, s.1, keys[n - 1]) == img
    ensures Forest(p1, s.1) && img in p1
    ensures OuterPass(keys, h, 5, n) == InnerPass((p1, s.1), h, 5, keys[n - 1], img, keys, |keys|)
  {
  }

  /** The parent maps and rank maps of the run, outer key by outer key. */
  ghost function P0(h: map<string, Fingerprint>): map<string, string> { Initial(h).0 }
  ghost function R0(h: map<string, Fingerprint>): map<string, nat> { Initial(h).1 }
  ghost function P1(h: map<string, Fingerprint>, a: string, b: string): map<string, string> { P0(h)[b := a] }
  ghost function R1(h: map<string, Fingerprint>, a: string): map<string, nat> { R0(h)[a := 1] }
  ghost function P2(h: map<string, Fingerprint>, a: string, b: string, e: string): map<string, string> { P1(h, a, b)[e := a] }
  ghost function P3(h: map<string, Fingerprint>, a: string, b: string, c: string, d: string, e: string): map<string, string> { P2(h, a, b, e)[d := c] }
  ghost function R3(h: map<string, Fingerprint>, a: string, c: string): map<string, nat> { R1(h, a)[c := 1] }
  ghost function P4(h: map<string, Fingerprint>, a: string, b: string, c: string, d: string, e: string): map<string, string> { P3(h, a, b, c, d, e)[a := c] }
  ghost function R4(h: map<string, Fingerprint>, a: string, c: string): map<string, nat> { R3(h, a, c)[c := 2] }
  ghost function P5(h: map<string, Fingerprint>, a: string, b: string, c: string, d: string, e: string): map<string, string> { P4(h, a, b, c, d, e)[e := c] }

  /** The parents the run's finds and unites look up. */
  lemma Parents(h: map<string, Fingerprint>, a: string, b: string, c: string, d: string, e: string)
    requires a != b && a != c && a != d && a != e && b != c && b != d && b != e && c != d && c != e && d != e
    requires h.Keys == {a, b, c, d, e}
    ensures P0(h)[a] == a && P0(h)[b] == b
    ensures P1(h, a, b)[a] == a && P1(h, a, b)[e] == e
    ensures P2(h, a, b, e)[c] == c && P2(h, a, b, e)[d] == d
    ensures var p := P3(h, a, b, c, d, e); p[a] == a && p[b] == a && p[c] == c && p[d] == c && p[e] == a
    ensures var p := P4(h, a, b, c, d, e); p[a] == c && p[c] == c && p[e] == a
    ensures var p := P5(h, a, b, c, d, e); p[a] == c && p[b] == a && p[c] == c && p[d] == c && p[e] == c
  {
  }

  /** The inner loop for outer key a, up to b: b goes under a. */
  lemma InnerAB(h: map<string, Fingerprint>, a: string, b: string, c: string, d: string, e: string)
    requires Shape(h, a, b, c, d, e)
    ensures Forest(P0(h), R0(h)) && a in P0(h)
    ensures InnerPass((P0(h), R0(h)), h, 5, a, a, [a, c, b, d, e], 3) == (P1(h, a, b), R1(h, a))
  {
    var keys := [a, c, b, d, e];
    InitialForest(h);
    var s := (P0(h), R0(h));
    InnerSkip(s, h, a, a, keys, 0);
    InnerSkip(s, h, a, a, keys, 1);
    assert InnerPass(s, h, 5, a, a, keys, 2) == s;
    InnerJoin(s, h, a, a, keys, 2);
    Parents(h, a, b, c, d, e);
    UnitedLink(P0(h), R0(h), a, b, a, b);
    Links(h, a, b, c, d, e);
  }

  /** The inner loop for outer key a: b and e go under a. */
  lemma InnerA(h: map<string, Fingerprint>, a: string, b: string, c: string, d: string, e: string)
    requires Shape(h, a, b, c, d, e)
    ensures Forest(P0(h), R0(h)) && a in P0(h)
    ensures InnerPass((P0(h), R0(h)), h, 5, a, a, [a, c, b, d, e], 5) == (P2(h, a, b, e), R1(h, a))
  {
    var keys := [a, c, b, d, e];
    var s := (P0(h), R0(h));
    InnerAB(h, a, b, c, d, e);
    var s3 := InnerPass(s, h, 5, a, a, keys, 3);
    assert Forest(s3.0, s3.1) && s3 == (P1(h, a, b), R1(h, a));
    InnerSkip(s, h, a, a, keys, 3);
    InnerJoin(s, h, a, a, keys, 4);
    Parents(h, a, b, c, d, e);
    UnitedLink(P1(h, a, b), R1(h, a), a, e, a, e);
    Links(h, a, b, c, d, e);
  }

  lemma ShapeWellFormed(h: map<string, Fingerprint>, a: string, b: string, c: string, d: string, e: string)
    requires Shape(h, a, b, c, d, e)
    ensures WellFormed([a, c, b, d, e], h)
  {
  }

  /** The outer loop's first turn: a is a root, so img is a itself. */
  lemma OuterA(h: map<string, Fingerprint>, a: string, b: string, c: string, d: string, e: string)
    requires Shape(h, a, b, c, d, e)
    ensures WellFormed([a, c, b, d, e], h)
    ensures OuterPass([a, c, b, d, e], h, 5, 1) == (P2(h, a, b, e), R1(h, a))
  {
    var keys := [a, c, b, d, e];
    ShapeWellFormed(h, a, b, c, d, e);
    InitialForest(h);
    CompressedShallow(P0(h), R0(h), a);
    OuterStep(keys, h, 1, (P0(h), R0(h)), P0(h), a);
    InnerA(h, a, b, c, d, e);
  }

  /** The inner loop for outer key c, up to d: d goes under c. */
  lemma InnerCD(h: map<string, Fingerprint>, a: string, b: string, c: string, d: string, e: string)
    requires Shape(h, a, b, c, d, e) && Forest(P2(h, a, b, e), R1(h, a))
    ensures InnerPass((P2(h, a, b, e), R1(h, a)), h, 5, c, c, [a, c, b, d, e], 4) == (P3(h, a, b, c, d, e), R3(h, a, c))
  {
    var keys := [a, c, b, d, e];
    var s := (P2(h, a, b, e), R1(h, a));
    InnerSkip(s, h, c, c, keys, 0);
    InnerSkip(s, h, c, c, keys, 1);
    InnerSkip(s, h, c, c, keys, 2);
    assert InnerPass(s, h, 5, c, c, keys, 3) == s;
    InnerJoin(s, h, c, c, keys, 3);
    Parents(h, a, b, c, d, e);
    UnitedLink(s.0, s.1, c, d, c, d);
    Links(h, a, b, c, d, e);
  }

  /** The inner loop for outer key c: only d goes under c. */
  lemma InnerC(h: map<string, Fingerprint>, a: string, b: string, c: string, d: string, e: string)
    requires Shape(h, a, b, c, d, e) && Forest(P2(h, a, b, e), R1(h, a))
    ensures InnerPass((P2(h, a, b, e), R1(h, a)), h, 5, c, c, [a, c, b, d, e], 5) == (P3(h, a, b, c, d, e), R3(h, a, c))
  {
    InnerCD(h, a, b, c, d, e);
    InnerSkip((P2(h, a, b, e), R1(h, a)), h, c, c, [a, c, b, d, e], 4);
  }

  /** Entering the outer loop's second turn: c is a root, so find(c) changes nothing. */
  lemma OuterCEntry(h: map<string, Fingerprint>, a: string, b: string, c: string, d: string, e: string)
    requires Shape(h, a, b, c, d, e)
    ensures WellFormed([a, c, b, d, e], h)
    ensures var s := (P2(h, a, b, e), R1(h, a));
      OuterPass([a, c, b, d, e], h, 5, 1) == s && Forest(s.0, s.1) && Compressed(s.0, s.1, c) == s.0 && Root(s.0, s.1, c) == c
  {
    OuterA(h, a, b, c, d, e);
    var s := (P2(h, a, b, e), R1(h, a));
    assert Forest(s.0, s.1);
    Parents(h, a, b, c, d, e);
    CompressedShallow(s.0, s.1, c);
  }

  lemma OuterC(h: map<string, Fingerprint>, a: string, b: string, c: string, d: string, e: string)
    requires Shape(h, a, b, c, d, e)
    ensures WellFormed([a, c, b, d, e], h)
    ensures OuterPass([a, c, b, d, e], h, 5, 2) == (P3(h, a, b, c, d, e), R3(h, a, c))
  {
    OuterCEntry(h, a, b, c, d, e);
    var s := (P2(h, a, b, e), R1(h, a));
    OuterStep([a, c, b, d, e], h, 2, s, s.0, c);
    InnerC(h, a, b, c, d, e);
  }

  /** The inner loop for outer key b, whose representative is a: unite(a, a) only. */
  lemma InnerB(h: map<string, Fingerprint>, a: string, b: string, c: string, d: string, e: string)
    requires Shape(h, a, b, c, d, e) && Forest(P3(h, a, b, c, d, e), R3(h, a, c))
    ensures InnerPass((P3(h, a, b, c, d, e), R3(h, a, c)), h, 5, b, a, [a, c, b, d, e], 5) == (P3(h, a, b, c, d, e), R3(h, a, c))
  {
    var keys := [a, c, b, d, e];
    var s := (P3(h, a, b, c, d, e), R3(h, a, c));
    InnerJoin(s, h, b, a, keys, 0);
    Parents(h, a, b, c, d, e);
    UnitedSame(s.0, s.1, a, a, a);
    InnerSkip(s, h, b, a, keys, 1);
    InnerSkip(s, h, b, a, keys, 2);
    InnerSkip(s, h, b, a, keys, 3);
    InnerSkip(s, h, b, a, keys, 4);
  }

  /** Entering the outer loop's third turn: b hangs directly under the root a, so find(b) is a and changes nothing. */
  lemma OuterBEntry(h: map<string, Fingerprint>, a: string, b: string, c: string, d: string, e: string)
    requires Shape(h, a, b, c, d, e)
    ensures WellFormed([a, c, b, d, e], h)
    ensures var s := (P3(h, a, b, c, d, e), R3(h, a, c));
      OuterPass([a, c, b, d, e], h, 5, 2) == s && Forest(s.0, s.1) && Compressed(s.0, s.1, b) == s.0 && Root(s.0, s.1, b) == a
  {
    OuterC(h, a, b, c, d, e);
    var s := (P3(h, a, b, c, d, e), R3(h, a, c));
    assert Forest(s.0, s.1);
    Parents(h, a, b, c, d, e);
    CompressedShallow(s.0, s.1, b);
  }

  lemma OuterB(h: map<string, Fingerprint>, a: string, b: string, c: string, d: string, e: string)
    requires Shape(h, a, b, c, d, e)
    ensures WellFormed([a, c, b, d, e], h)
    ensures OuterPass([a, c, b, d, e], h, 5, 3) == (P3(h, a, b, c, d, e), R3(h, a, c))
  {
    OuterBEntry(h, a, b, c, d, e);
    var s := (P3(h, a, b, c, d, e), R3(h, a, c));
    OuterStep([a, c, b, d, e], h, 3, s, s.0, a);
    InnerB(h, a, b, c, d, e);
  }

  /** The inner loop for outer key d, whose representative is c: unite(c, e)
      links the roots c and a, of equal rank, so a goes under c. */
  lemma InnerD(h: map<string, Fingerprint>, a: string, b: string, c: string, d: string, e: string)
    requires Shape(h, a, b, c, d, e) && Forest(P3(h, a, b, c, d, e), R3(h, a, c))
    ensures InnerPass((P3(h, a, b, c, d, e), R3(h, a, c)), h, 5, d, c, [a, c, b, d, e], 5) == (P4(h, a, b, c, d, e), R4(h, a, c))
  {
    var keys := [a, c, b, d, e];
    var s := (P3(h, a, b, c, d, e), R3(h, a, c));
    InnerSkip(s, h, d, c, keys, 0);
    InnerJoin(s, h, d, c, keys, 1);
    UnitedSame(s.0, s.1, c, c, c);
    InnerSkip(s, h, d, c, keys, 2);
    InnerSkip(s, h, d, c, keys, 3);
    assert InnerPass(s, h, 5, d, c, keys, 4) == s;
    InnerJoin(s, h, d, c, keys, 4);
    Parents(h, a, b, c, d, e);
    UnitedLink(s.0, s.1, c, e, c, a);
    Links(h, a, b, c, d, e);
  }

  lemma OuterD(h: map<string, Fingerprint>, a: string, b: string, c: string, d: string, e: string)
    requires Shape(h, a, b, c, d, e)
    ensures WellFormed([a, c, b, d, e], h)
    ensures OuterPass([a, c, b, d, e], h, 5, 4) == (P4(h, a, b, c, d, e), R4(h, a, c))
  {
    var keys := [a, c, b, d, e];
    OuterB(h, a, b, c, d, e);
    var s := (P3(h, a, b, c, d, e), R3(h, a, c));
    assert Forest(s.0, s.1);
    Parents(h, a, b, c, d, e);
    CompressedShallow(s.0, s.1, d);
    OuterStep(keys, h, 4, s, s.0, c);
    InnerD(h, a, b, c, d, e);
  }

  /** The inner loop for outer key e, whose representative is now c: both unites are no-ops. */
  lemma InnerE(h: map<string, Fingerprint>, a: string, b: string, c: string, d: string, e: string)
    requires Shape(h, a, b, c, d, e) && Forest(P5(h, a, b, c, d, e), R4(h, a, c))
    ensures InnerPass((P5(h, a, b, c, d, e), R4(h, a, c)), h, 5, e, c, [a, c, b, d, e], 5) == (P5(h, a, b, c, d, e), R4(h, a, c))
  {
    var keys := [a, c, b, d, e];
    var s := (P5(h, a, b, c, d, e), R4(h, a, c));
    InnerJoin(s, h, e, c, keys, 0);
    Parents(h, a, b, c, d, e);
    UnitedSame(s.0, s.1, c, a, c);
    InnerSkip(s, h, e, c, keys, 1);
    InnerSkip(s, h, e, c, keys, 2);
    InnerJoin(s, h, e, c, keys, 3);
    UnitedSame(s.0, s.1, c, d, c);
    InnerSkip(s, h, e, c, keys, 4);
  }

  /** The outer loop's last turn: find(e) points e straight at c. */
  lemma OuterE(h: map<string, Fingerprint>, a: string, b: string, c: string, d: string, e: string)
    requires Shape(h, a, b, c, d, e)
    ensures WellFormed([a, c, b, d, e], h)
    ensures Grouped([a, c, b, d, e], h, 5) == (P5(h, a, b, c, d, e), R4(h, a, c))
  {
    var keys := [a, c, b, d, e];
    OuterD(h, a, b, c, d, e);
    var s := (P4(h, a, b, c, d, e), R4(h, a, c));
    assert Forest(s.0, s.1);
    Parents(h, a, b, c, d, e);
    CompressedDepthTwo(s.0, s.1, e);
    OuterStep(keys, h, 5, s, P5(h, a, b, c, d, e), c);
    InnerE(h, a, b, c, d, e);
  }

  /** A key whose parent no other key has is filtered out by the counter. */
  lemma LoneParentDropped(p: map<string, string>, a: string, b: string, c: string, d: string, e: string)
    requires forall k | k in [a, c, b, d, e] :: k in p
    requires p[b] == a && p[a] != a && p[c] != a && p[d] != a && p[e] != a
    ensures !Listed(SharedEntries([a, c, b, d, e], p), b)
  {
    var keys := [a, c, b, d, e];
    var values := Values(keys, p);
    assert values[0] != a && values[1] != a && values[2] == a && values[3] != a && values[4] != a;
    CountAboveOne(values, a);
    assert Count(values, a) <= 1;
    var items := Items(keys, p);
    assert forall j | 0 <= j < |items| && items[j].0 == b :: items[j].1 == a;
  }

  /** After the run b's parent is a, which no other key has as parent. */
  lemma OnlyBUnderA(h: map<string, Fingerprint>, a: string, b: string, c: string, d: string, e: string)
    requires Shape(h, a, b, c, d, e)
    ensures WellFormed([a, c, b, d, e], h)
    ensures !Listed(SharedEntries([a, c, b, d, e], Grouped([a, c, b, d, e], h, 5).0), b)
  {
    OuterE(h, a, b, c, d, e);
    Parents(h, a, b, c, d, e);
    LoneParentDropped(P5(h, a, b, c, d, e), a, b, c, d, e);
  }

  /** An output that leaves out a key with a cluster mate does not report the clusters. */
  lemma UnlistedMateNotReported<V>(keys: seq<string>, h: map<string, Fingerprint>, threshold: nat,
                                   out: seq<(string, V)>, k: string, mate: string)
    requires WellFormed(keys, h) && k in h && mate in h && k != mate
    requires Clustered(keys, h, threshold, k, mate) && !Listed(out, k)
    ensures HasMate(keys, h, threshold, k)
    ensures !ReportsClusters(keys, h, threshold, out)
  {
  }

  /** As written, group_hashes leaves b out although b and a are within the
      threshold: the output misses a key that has a cluster mate. */
  lemma GroupHashesDropsMember(h: map<string, Fingerprint>, a: string, b: string, c: string, d: string, e: string)
    requires Shape(h, a, b, c, d, e)
    ensures WellFormed([a, c, b, d, e], h) && b in h && a in h && b != a
    ensures Clustered([a, c, b, d, e], h, 5, b, a)
    ensures !Listed(SharedEntries([a, c, b, d, e], Grouped([a, c, b, d, e], h, 5).0), b)
  {
    ShapeWellFormed(h, a, b, c, d, e);
    CloseClustered([a, c, b, d, e], h, 5, b, a);
    OnlyBUnderA(h, a, b, c, d, e);
  }

  /** The images A to E, in the order A, C, B, D, E, with HASH_THRESHOLD 5:
      B is within the threshold of A, yet the output of group_hashes omits
      it, so that output does not report the clusters. */
  lemma ExampleDropsB()
    ensures WellFormed(ExampleKeys(), ExampleHashes())
    ensures Clustered(ExampleKeys(), ExampleHashes(), 5, "B", "A")
    ensures !Listed(SharedEntries(ExampleKeys(), Grouped(ExampleKeys(), ExampleHashes(), 5).0), "B")
  {
    ExampleHashesShape();
    GroupHashesDropsMember(ExampleHashes(), "A", "B", "C", "D", "E");
  }

  /** The example's output, as written, does not report the clusters. */
  lemma ExampleNotReported()
    ensures WellFormed(ExampleKeys(), ExampleHashes())
    ensures !ReportsClusters(ExampleKeys(), ExampleHashes(), 5,
                             SharedEntries(ExampleKeys(), Grouped(ExampleKeys(), ExampleHashes(), 5).0))
  {
    ExampleDropsB();
    assert "A"[0] != "B"[0];
    UnlistedMateNotReported(ExampleKeys(), ExampleHashes(), 5,
                            SharedEntries(ExampleKeys(), Grouped(ExampleKeys(), ExampleHashes(), 5).0), "B", "A");
  }
}
