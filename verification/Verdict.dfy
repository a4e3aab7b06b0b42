/** The pass/fail verdict of tools/gen_state_machine/check_reachability.py. */
module Verdict {
  import opened Digraph
  import opened Tarjan

  const DEADLINE_STATES: set<string> := {"Connecting", "Discovering"}

  /** The nodes labelled with a deadline-carrying state. */
  ghost function DeadlineNodes<V(!new)>(stateOf: map<V, string>): set<V> {
    set v | v in stateOf && stateOf[v] in DEADLINE_STATES
  }

  /** Some cycle stays inside `d`, and every node that could detour from it and come back is in `d` too. */
  ghost predicate TrappedAt<V(!new)>(g: map<V, seq<V>>, d: set<V>, x: V) {
    OnCycleWithin(g, d, x) && forall y :: y in g && Mutual(g, x, y) ==> y in d
  }

  ghost predicate OnCycle<V(!new)>(g: map<V, seq<V>>, x: V) {
    exists n: nat :: n > 0 && Walk(g, x, x, n)
  }

  /** The script's test for "this component contains a cycle". */
  ghost predicate Cyclic<V(!new)>(g: map<V, seq<V>>, c: seq<V>) {
    |c| > 1 || (c != [] && c[0] in g && c[0] in g[c[0]])
  }

  /** It is exact: a component passes the test precisely when its nodes lie on cycles of the graph. */
  lemma CyclicIsOnCycle<V(!new)>(g: map<V, seq<V>>, c: seq<V>, x: V)
    requires IsGraph(g) && IsComponent(g, Members(c)) && Distinct(c) && x in c
    ensures Cyclic(g, c) <==> OnCycle(g, x)
  {
    if OnCycle(g, x) && |c| == 1 {
      var n: nat :| n > 0 && Walk(g, x, x, n);
      var z :| z in g[x] && Walk(g, z, x, n - 1);
      ReachEdge(g, x, z);
      assert x in Members(c) && z in Members(c);
    }
    if |c| > 1 {
      var y := if c[0] == x then c[1] else c[0];
      assert x in Members(c) && y in Members(c) && x != y;
      var m: nat :| Walk(g, x, y, m);
      var n: nat :| Walk(g, y, x, n);
      WalkConcat(g, x, y, x, m, n);
      assert Walk(g, x, x, m + n);
    } else if Cyclic(g, c) {
      assert Walk(g, x, x, 0);
      assert Walk(g, x, x, 1);
    }
  }

  /** A cycle through `x` never leaves the nodes mutually reachable with `x`. */
  lemma {:induction false} CycleStaysMutual<V(!new)>(g: map<V, seq<V>>, d: set<V>, x: V, y: V, n: nat)
    requires IsGraph(g) && y in g && Reach(g, x, y) && Walk(g, y, x, n)
    requires forall z :: z in g && Mutual(g, x, z) ==> z in d
    ensures Walk(Induced(g, d), y, x, n)
    decreases n
  {
    if n > 0 {
      var z :| z in g[y] && Walk(g, z, x, n - 1);
      ReachEdge(g, y, z);
      ReachTrans(g, x, y, z);
      assert Mutual(g, x, y) && Mutual(g, x, z);
      CycleStaysMutual(g, d, x, z, n - 1);
    }
  }

  lemma {:induction false} InducedWalk<V(!new)>(g: map<V, seq<V>>, d: set<V>, x: V, y: V, n: nat)
    requires Walk(Induced(g, d), x, y, n)
    ensures Walk(g, x, y, n)
    decreases n
  {
    if n > 0 {
      var z :| z in Induced(g, d)[x] && Walk(Induced(g, d), z, y, n - 1);
      InducedWalk(g, d, z, y, n - 1);
    }
  }

  /** What the script reports for one component is what the graph says about each of its nodes. */
  lemma ComponentVerdict<V(!new)>(g: map<V, seq<V>>, d: set<V>, c: seq<V>, x: V)
    requires IsGraph(g) && IsComponent(g, Members(c)) && Distinct(c) && x in c
    ensures Cyclic(g, c) && Members(c) <= d <==> TrappedAt(g, d, x)
  {
    CyclicIsOnCycle(g, c, x);
    assert x in Members(c) && x in g;
    if Cyclic(g, c) && Members(c) <= d {
      var n: nat :| n > 0 && Walk(g, x, x, n);
      ReachSelf(g, x);
      forall z | z in g && Mutual(g, x, z) ensures z in d { assert z in Members(c); }
      CycleStaysMutual(g, d, x, x, n);
    }
    if TrappedAt(g, d, x) {
      var n: nat :| n > 0 && Walk(Induced(g, d), x, x, n);
      InducedWalk(g, d, x, x, n);
      forall z | z in Members(c) ensures z in d { assert Mutual(g, x, z); }
    }
  }

  /** Over all components: some component is confined exactly when some node is trapped. */
  lemma CondensationVerdict<V(!new)>(g: map<V, seq<V>>, d: set<V>, sccs: seq<seq<V>>)
    requires IsGraph(g) && IsCondensation(g, sccs)
    ensures (exists k :: 0 <= k < |sccs| && Confined(g, d, sccs[k])) <==> exists x :: x in g && TrappedAt(g, d, x)
  {
    hide Cyclic;
    hide TrappedAt;
    hide Distinct;
    if k :| 0 <= k < |sccs| && Confined(g, d, sccs[k]) {
      var x :| x in Members(sccs[k]);
      ComponentVerdict(g, d, sccs[k], x);
    }
    if x :| x in g && TrappedAt(g, d, x) {
      assert Emits(sccs, x);
      var k :| 0 <= k < |sccs| && x in sccs[k];
      ComponentVerdict(g, d, sccs[k], x);
    }
  }

  /** A component that contains a cycle and lies wholly in `d`. */
  ghost predicate Confined<V(!new)>(g: map<V, seq<V>>, d: set<V>, c: seq<V>) { Cyclic(g, c) && Members(c) <= d }

  /** The body of the script's loop over components. */
  method IsConfined<V(==,!new)>(nodes: seq<V>, stateOf: map<V, string>, edges: seq<(V, V)>, scc: seq<V>)
    returns (r: bool)
    requires scc != [] && forall v <- scc :: v in nodes && v in stateOf
    ensures r <==> Confined(Adjacency(nodes, edges), DeadlineNodes(stateOf), scc)
  {
    if |scc| == 1 {
      TargetsMeaning(nodes, edges, scc[0], scc[0]);
      if (scc[0], scc[0]) !in edges { return false; }
    }
    var states := set n | n in scc :: stateOf[n];
    assert scc[0] in scc && forall n <- scc :: stateOf[n] in states;
    assert states <= DEADLINE_STATES <==> forall n <- scc :: n in DeadlineNodes(stateOf);
    assert |scc| == 1 ==> Cyclic(Adjacency(nodes, edges), scc);
    r := states != {} && states <= DEADLINE_STATES;
  }

  lemma ComponentNodes<V(!new)>(nodes: seq<V>, edges: seq<(V, V)>, sccs: seq<seq<V>>, i: nat)
    requires IsCondensation(Adjacency(nodes, edges), sccs) && i < |sccs|
    ensures sccs[i] != [] && forall v <- sccs[i] :: v in nodes
  {
    hide Distinct;
    var c := sccs[i];
    assert IsComponent(Adjacency(nodes, edges), Members(c));
    assert forall v <- c :: v in Members(c);
  }

  /** Exit code 1 (FAIL) exactly when some confined cycle cannot be left and re-entered through a safe state. */
  method Check<V(==,!new)>(nodes: seq<V>, stateOf: map<V, string>, edges: seq<(V, V)>) returns (code: int)
    requires forall v :: v in nodes <==> v in stateOf
    ensures code == 0 || code == 1
    ensures code == 1 <==> exists x :: x in nodes && TrappedAt(Adjacency(nodes, edges), DeadlineNodes(stateOf), x)
  {
    hide TrappedAt, DeadlineNodes, IsGraph, IsCondensation;
    var sccs := TarjanSccs(nodes, edges);
    ghost var g, d := Adjacency(nodes, edges), DeadlineNodes(stateOf);
    AdjacencyIsGraph(nodes, edges);
    CondensationVerdict(g, d, sccs);
    hide Confined, Adjacency;
    var confined: seq<seq<V>> := [];
    for i := 0 to |sccs|
      invariant confined != [] <==> exists k :: 0 <= k < i && Confined(g, d, sccs[k])
    {
      ComponentNodes(nodes, edges, sccs, i);
      var r := IsConfined(nodes, stateOf, edges, sccs[i]);
      if r { confined := confined + [sccs[i]]; }
    }
    code := if confined != [] then 1 else 0;
  }

  /** FAIL therefore implies a confined cycle, but the converse promised by the script's header does not hold. */
  lemma ConfinedCycleCanPass()
    ensures var nodes, edges := [0, 1], [(0, 0), (0, 1), (1, 0)];
      var g, d := Adjacency(nodes, edges), DeadlineNodes(map[0 := "Connecting", 1 := "Idle"]);
      OnCycleWithin(g, d, 0) && !exists x :: x in nodes && TrappedAt(g, d, x)
  {
    var nodes, edges := [0, 1], [(0, 0), (0, 1), (1, 0)];
    var g, d := Adjacency(nodes, edges), DeadlineNodes(map[0 := "Connecting", 1 := "Idle"]);
    TargetsMeaning(nodes, edges, 0, 0);
    TargetsMeaning(nodes, edges, 0, 1);
    TargetsMeaning(nodes, edges, 1, 0);
    assert 0 in d && 1 !in d by { assert "Idle"[0] == 'I' && "Connecting"[0] == 'C' && "Discovering"[0] == 'D'; }
    assert 0 in Induced(g, d)[0];
    assert Walk(Induced(g, d), 0, 0, 0) && Walk(Induced(g, d), 0, 0, 1);
    ReachEdge(g, 0, 1);
    ReachEdge(g, 1, 0);
    ReachSelf(g, 1);
    assert Mutual(g, 0, 1) && Mutual(g, 1, 1);
  }
}
