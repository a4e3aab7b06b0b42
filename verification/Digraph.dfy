/** Finite directed graphs given by successor lists, and reachability in them. */
module Digraph {

  /** Every successor of a node is itself a node. */
  ghost predicate IsGraph<V(!new)>(g: map<V, seq<V>>) {
    forall v, w :: v in g && w in g[v] ==> w in g
  }

  /** `y` is reached from `x` by following exactly `n` edges. */
  ghost predicate Walk<V(!new)>(g: map<V, seq<V>>, x: V, y: V, n: nat)
    decreases n
  {
    if n == 0 then x == y else x in g && exists z :: z in g[x] && Walk(g, z, y, n - 1)
  }

  ghost predicate Reach<V(!new)>(g: map<V, seq<V>>, x: V, y: V) {
    exists n: nat :: Walk(g, x, y, n)
  }

  ghost predicate Mutual<V(!new)>(g: map<V, seq<V>>, x: V, y: V) {
    Reach(g, x, y) && Reach(g, y, x)
  }

  ghost predicate ClosedUnder<V(!new)>(g: map<V, seq<V>>, s: set<V>) {
    forall v, w :: v in s && v in g && w in g[v] ==> w in s
  }

  /** `c` is a strongly connected component: from any of its nodes, the mutually reachable nodes are exactly `c`. */
  ghost predicate IsComponent<V(!new)>(g: map<V, seq<V>>, c: set<V>) {
    && c != {}
    && c <= g.Keys
    && forall x, y :: x in c && y in g ==> (y in c <==> Mutual(g, x, y))
  }

  /** `x` lies on a cycle all of whose nodes are in `s`. */
  ghost predicate OnCycleWithin<V(!new)>(g: map<V, seq<V>>, s: set<V>, x: V) {
    exists n: nat :: n > 0 && Walk(Induced(g, s), x, x, n)
  }

  /** The subgraph on the nodes of `s`. */
  ghost function Induced<V(!new)>(g: map<V, seq<V>>, s: set<V>): map<V, seq<V>> {
    map v | v in g && v in s :: Restrict(g[v], s)
  }

  ghost function Restrict<V(!new)>(vs: seq<V>, s: set<V>): (r: seq<V>)
    ensures forall v :: v in r <==> v in vs && v in s
  {
    if vs == [] then []
    else if vs[0] in s then [vs[0]] + Restrict(vs[1..], s)
    else Restrict(vs[1..], s)
  }

  lemma WalkConcat<V(!new)>(g: map<V, seq<V>>, x: V, y: V, z: V, m: nat, n: nat)
    requires Walk(g, x, y, m) && Walk(g, y, z, n)
    ensures Walk(g, x, z, m + n)
    decreases m
  {
    if m > 0 {
      var u :| u in g[x] && Walk(g, u, y, m - 1);
      WalkConcat(g, u, y, z, m - 1, n);
    }
  }

  lemma ReachSelf<V(!new)>(g: map<V, seq<V>>, x: V)
    ensures Reach(g, x, x)
  {
    assert Walk(g, x, x, 0);
  }

  lemma ReachEdge<V(!new)>(g: map<V, seq<V>>, x: V, y: V)
    requires x in g && y in g[x]
    ensures Reach(g, x, y)
  {
    assert Walk(g, y, y, 0);
    assert Walk(g, x, y, 1);
  }

  lemma ReachTrans<V(!new)>(g: map<V, seq<V>>, x: V, y: V, z: V)
    requires Reach(g, x, y) && Reach(g, y, z)
    ensures Reach(g, x, z)
  {
    var m: nat :| Walk(g, x, y, m);
    var n: nat :| Walk(g, y, z, n);
    WalkConcat(g, x, y, z, m, n);
  }

  lemma {:induction false} WalkStays<V(!new)>(g: map<V, seq<V>>, s: set<V>, x: V, y: V, n: nat)
    requires ClosedUnder(g, s) && x in s && Walk(g, x, y, n)
    ensures y in s
    decreases n
  {
    if n > 0 {
      var u :| u in g[x] && Walk(g, u, y, n - 1);
      WalkStays(g, s, u, y, n - 1);
    }
  }

  /** Nothing outside a successor-closed set is reachable from inside it. */
  lemma ReachStays<V(!new)>(g: map<V, seq<V>>, s: set<V>, x: V, y: V)
    requires ClosedUnder(g, s) && x in s && Reach(g, x, y)
    ensures y in s
  {
    var n: nat :| Walk(g, x, y, n);
    WalkStays(g, s, x, y, n);
  }
}
