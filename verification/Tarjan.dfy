/** The iterative Tarjan search of tools/gen_state_machine/check_reachability.py. */
module Tarjan {
  import opened Digraph

  /** An entry of the explicit work stack: a node and how far its successor iterator has advanced. */
  datatype Frame<V> = Frame(node: V, pos: nat)

  /** The locals of the search, packaged so that each step can be reasoned about on its own. */
  datatype State<V> = State(
    counter: nat, index: map<V, nat>, lowlink: map<V, nat>, onStack: map<V, bool>,
    stack: seq<V>, work: seq<Frame<V>>, sccs: seq<seq<V>>)
  {
    ghost predicate On(v: V) { v in onStack && onStack[v] }
    /** The node belongs to an emitted component: visited, and no longer on the stack. */
    ghost predicate Done(v: V) { v in index && !On(v) }
    ghost function Num(v: V): nat { if v in index then index[v] else counter }
    ghost function Low(v: V): nat { if v in lowlink then lowlink[v] else counter }

    /** Edge `x -> y` has been taken out of `x`'s iterator (all edges, once `x` has left the work stack). */
    ghost predicate Taken(g: map<V, seq<V>>, x: V, y: V) {
      x in index && x in g && exists e :: 0 <= e < |g[x]| && g[x][e] == y && TakenAt(x, e)
    }
    ghost predicate TakenAt(x: V, e: nat) {
      forall j :: 0 <= j < |work| && work[j].node == x ==> e < work[j].pos
    }
  }

  /** Numbering: every visited node has an index below the counter. */
  ghost predicate Numbered<V(!new)>(g: map<V, seq<V>>, s: State<V>) {
    && s.index.Keys == s.lowlink.Keys == s.onStack.Keys <= g.Keys
    && (forall v :: v in s.index ==> s.index[v] < s.counter)
  }

  /** The stack holds exactly the nodes flagged `onStack`, in strictly increasing index order. */
  ghost predicate Stacked<V(!new)>(s: State<V>) {
    && (forall v :: s.On(v) ==> v in s.stack)
    && (forall i :: 0 <= i < |s.stack| ==> s.On(s.stack[i]))
    && (forall i, j :: 0 <= i < j < |s.stack| ==> s.Num(s.stack[i]) < s.Num(s.stack[j]))
  }

  /** The work stack lists nodes on the stack, in strictly increasing index order. */
  ghost predicate WorkPath<V(!new)>(g: map<V, seq<V>>, s: State<V>) {
    && (forall j :: 0 <= j < |s.work| ==>
          var f := s.work[j]; s.On(f.node) && f.node in g && f.pos <= |g[f.node]|)
    && (forall i, j :: 0 <= i < j < |s.work| ==> s.Num(s.work[i].node) < s.Num(s.work[j].node))
  }

  /** Taken edges lead to visited nodes, and a finished component is never left for unfinished nodes. */
  ghost predicate Explored<V(!new)>(g: map<V, seq<V>>, s: State<V>) {
    && (forall x, y :: s.Taken(g, x, y) ==> y in s.index)
    && (forall x, y :: x in g && s.Done(x) && y in g[x] ==> s.Done(y))
  }

  /** Every stack node reaches an older-or-equal work node; every stack node reaches all younger stack nodes. */
  ghost predicate Connected<V(!new)>(g: map<V, seq<V>>, s: State<V>) {
    && (forall x {:trigger HasAnchor(g, s, x)} :: s.On(x) ==> HasAnchor(g, s, x))
    && (forall x, y :: s.On(x) && s.On(y) && s.Num(x) <= s.Num(y) ==> Reach(g, x, y))
  }

  ghost predicate HasAnchor<V(!new)>(g: map<V, seq<V>>, s: State<V>, x: V) {
    exists j :: 0 <= j < |s.work| && s.Num(s.work[j].node) <= s.Num(x) && Reach(g, x, s.work[j].node)
  }

  /** The low link of a work node is the index of some stack node it reaches. */
  ghost predicate LowSound<V(!new)>(g: map<V, seq<V>>, s: State<V>, v: V) {
    && s.Low(v) <= s.Num(v)
    && exists y :: s.On(y) && s.Num(y) == s.Low(v) && Reach(g, v, y)
  }

  /** Segment of work entry `j`: the stack nodes from it up to the next work node. */
  ghost predicate InSegment<V(!new)>(s: State<V>, j: nat, x: V)
    requires j < |s.work|
  {
    && s.On(x)
    && s.Num(s.work[j].node) <= s.Num(x)
    && (j + 1 < |s.work| ==> s.Num(x) < s.Num(s.work[j + 1].node))
  }

  /** The low link of a work node is a lower bound for the stack targets of its segment's taken edges. */
  ghost predicate LowComplete<V(!new)>(g: map<V, seq<V>>, s: State<V>, j: nat)
    requires j < |s.work|
  {
    forall x, y :: InSegment(s, j, x) && s.Taken(g, x, y) && s.On(y) ==> s.Low(s.work[j].node) <= s.Num(y)
  }

  ghost predicate LowLinks<V(!new)>(g: map<V, seq<V>>, s: State<V>) {
    forall j :: 0 <= j < |s.work| ==> LowSound(g, s, s.work[j].node) && LowComplete(g, s, j)
  }

  ghost function Members<V(!new)>(c: seq<V>): set<V> { set v | v in c }

  ghost predicate Distinct<V(!new)>(c: seq<V>) { forall a, b :: 0 <= a < b < |c| ==> c[a] != c[b] }

  ghost predicate Emits<V(!new)>(sccs: seq<seq<V>>, v: V) { exists i :: 0 <= i < |sccs| && v in sccs[i] }

  /** What has been emitted: disjoint components that together hold exactly the finished nodes, sinks first. */
  ghost predicate Emitted<V(!new)>(g: map<V, seq<V>>, s: State<V>) {
    && (forall i :: 0 <= i < |s.sccs| ==> IsComponent(g, Members(s.sccs[i])) && Distinct(s.sccs[i]))
    && (forall v :: s.Done(v) <==> Emits(s.sccs, v))
    && (forall i, j, v :: 0 <= i < j < |s.sccs| && v in s.sccs[i] ==> v !in s.sccs[j])
    && (forall i, x, y :: 0 <= i < |s.sccs| && x in s.sccs[i] && x in g && y in g[x] ==> Emits(s.sccs[..i + 1], y))
  }

  ghost predicate Inv<V(!new)>(g: map<V, seq<V>>, s: State<V>) {
    && IsGraph(g) && Numbered(g, s) && Stacked(s) && WorkPath(g, s)
    && Explored(g, s) && Connected(g, s) && LowLinks(g, s) && Emitted(g, s)
  }

  lemma StackReachesTop<V(!new)>(g: map<V, seq<V>>, s: State<V>, x: V)
    requires WorkPath(g, s) && Connected(g, s) && s.On(x)
    ensures s.work != [] && Reach(g, x, Top(s))
  {
    assert HasAnchor(g, s, x);
    var j :| 0 <= j < |s.work| && s.Num(s.work[j].node) <= s.Num(x) && Reach(g, x, s.work[j].node);
    ReachTrans(g, x, s.work[j].node, Top(s));
  }

  // ---- The steps of the search, as relations between packaged states ----

  ghost function Top<V(!new)>(s: State<V>): V
    requires s.work != []
  {
    s.work[|s.work| - 1].node
  }

  /** The next edge out of the top of the work stack leads to `v`. */
  ghost predicate NextEdge<V(!new)>(g: map<V, seq<V>>, s: State<V>, v: V) {
    && s.work != []
    && var top := s.work[|s.work| - 1];
    && top.node in g && top.pos < |g[top.node]| && g[top.node][top.pos] == v
  }

  /** `t`'s work stack is `s`'s with the top iterator advanced, then (if `entering`) one fresh entry for `v`. */
  ghost predicate Advanced<V(!new)>(s: State<V>, t: State<V>, v: V, entering: bool) {
    && |t.work| == |s.work| + (if entering then 1 else 0)
    && (entering ==> t.work[|s.work|] == Frame(v, 0))
    && (forall j :: 0 <= j < |s.work| ==> t.work[j].node == s.work[j].node)
    && (forall j :: 0 <= j < |s.work| ==> t.work[j].pos == s.work[j].pos + (if j == |s.work| - 1 then 1 else 0))
  }

  /** Entering an unvisited node `v`, as a root or along the next edge. */
  ghost predicate Entered<V(!new)>(g: map<V, seq<V>>, s: State<V>, t: State<V>, v: V) {
    && v in g && v !in s.index && (s.work == [] || NextEdge(g, s, v))
    && Numbered(g, t) && t.index.Keys == s.index.Keys + {v}
    && Advanced(s, t, v, true) && t.stack == s.stack + [v] && t.sccs == s.sccs
    && (forall u :: t.On(u) <==> s.On(u) || u == v)
    && (forall u :: t.Done(u) <==> s.Done(u))
    && (forall u :: s.On(u) ==> t.Num(u) == s.Num(u) < t.Num(v) && t.Low(u) == s.Low(u))
    && t.Num(v) == t.Low(v)
  }

  /** Following the next edge to a visited node `v`: the low link drops to its index if `v` is still on the stack. */
  ghost predicate Revisited<V(!new)>(g: map<V, seq<V>>, s: State<V>, t: State<V>, v: V) {
    && v in s.index && NextEdge(g, s, v)
    && Numbered(g, t) && t.index == s.index
    && Advanced(s, t, v, false) && t.stack == s.stack && t.sccs == s.sccs
    && (forall u :: t.On(u) <==> s.On(u))
    && (forall u :: t.Done(u) <==> s.Done(u))
    && (forall u :: t.Num(u) == s.Num(u))
    && (forall u :: u != Top(s) ==> t.Low(u) == s.Low(u))
    && t.Low(Top(s)) == if s.On(v) then Min(s.Low(Top(s)), s.Num(v)) else s.Low(Top(s))
  }

  /** Popping the finished top of the work stack, handing its low link to its parent. */
  ghost predicate Retired<V(!new)>(g: map<V, seq<V>>, s: State<V>, t: State<V>) {
    && Finished(g, s)
    && t.work == s.work[..|s.work| - 1]
    && Numbered(g, t) && t.index == s.index
    && (forall u :: t.Num(u) == s.Num(u))
    && (forall u :: t.work == [] || u != Top(t) ==> t.Low(u) == s.Low(u))
    && (t.work != [] ==> t.Low(Top(t)) == Min(s.Low(Top(t)), s.Low(Top(s))))
  }

  /** ... without emitting a component. */
  ghost predicate Kept<V(!new)>(g: map<V, seq<V>>, s: State<V>, t: State<V>) {
    && Retired(g, s, t) && s.Low(Top(s)) < s.Num(Top(s))
    && t.stack == s.stack && t.sccs == s.sccs
    && (forall u :: t.On(u) <==> s.On(u))
    && (forall u :: t.Done(u) <==> s.Done(u))
  }

  /** ... and emitting the component `c` of all stack nodes from it upwards. */
  ghost predicate Released<V(!new)>(g: map<V, seq<V>>, s: State<V>, t: State<V>, c: seq<V>) {
    && Retired(g, s, t) && s.Low(Top(s)) == s.Num(Top(s))
    && Stacked(t) && t.sccs == s.sccs + [c] && Distinct(c)
    && (forall u :: u in c <==> s.On(u) && s.Num(Top(s)) <= s.Num(u))
    && (forall u :: t.On(u) <==> s.On(u) && u !in c)
    && (forall u :: t.Done(u) <==> s.Done(u) || u in c)
  }

  function Min(a: nat, b: nat): nat { if a <= b then a else b }

  ghost predicate Finished<V(!new)>(g: map<V, seq<V>>, s: State<V>) {
    s.work != [] && Top(s) in g && s.work[|s.work| - 1].pos == |g[Top(s)]|
  }

  // ---- Each step keeps the invariant ----

  lemma AdvancedTaken<V(!new)>(g: map<V, seq<V>>, s: State<V>, t: State<V>, v: V, entering: bool, x: V, y: V)
    requires Advanced(s, t, v, entering) && (s.work == [] || NextEdge(g, s, v))
    requires t.Taken(g, x, y) && (entering ==> t.index.Keys == s.index.Keys + {v}) && (!entering ==> t.index == s.index)
    ensures s.Taken(g, x, y) || (s.work != [] && x == Top(s) && y == v)
  {
    var e :| 0 <= e < |g[x]| && g[x][e] == y && t.TakenAt(x, e);
    if entering { assert t.work[|s.work|].node == v; }
    if !s.TakenAt(x, e) {
      var j :| 0 <= j < |s.work| && s.work[j].node == x && e >= s.work[j].pos;
      assert t.work[j].node == x;
    }
  }

  lemma EnterStacked<V(!new)>(g: map<V, seq<V>>, s: State<V>, t: State<V>, v: V)
    requires Stacked(s) && Entered(g, s, t, v)
    ensures Stacked(t)
  {
    hide State.On, State.Num, Numbered, Advanced;
    assert forall i :: 0 <= i < |s.stack| ==> t.stack[i] == s.stack[i];
    assert t.stack[|s.stack|] == v;
  }

  lemma EnterWorkPath<V(!new)>(g: map<V, seq<V>>, s: State<V>, t: State<V>, v: V)
    requires WorkPath(g, s) && Entered(g, s, t, v)
    ensures WorkPath(g, t)
  {
    hide State.On, State.Num, Numbered;
  }

  /** Nothing finished, nothing emitted. */
  lemma EmittedSame<V(!new)>(g: map<V, seq<V>>, s: State<V>, t: State<V>)
    requires Emitted(g, s) && t.sccs == s.sccs && forall u :: t.Done(u) <==> s.Done(u)
    ensures Emitted(g, t)
  {
    hide IsComponent, Distinct, State.Done;
  }

  lemma EnterConnected<V(!new)>(g: map<V, seq<V>>, s: State<V>, t: State<V>, v: V)
    requires WorkPath(g, s) && Connected(g, s) && Entered(g, s, t, v)
    ensures Connected(g, t)
  {
    hide State.On;
    hide State.Num;
    ReachSelf(g, v);
    forall x | t.On(x) ensures HasAnchor(g, t, x) && Reach(g, x, v) {
      if x == v {
        assert t.work[|s.work|].node == v;
      } else {
        StackReachesTop(g, s, x);
        ReachEdge(g, Top(s), v);
        ReachTrans(g, x, Top(s), v);
        assert HasAnchor(g, s, x);
        var j :| 0 <= j < |s.work| && s.Num(s.work[j].node) <= s.Num(x) && Reach(g, x, s.work[j].node);
        assert t.work[j].node == s.work[j].node;
      }
    }
  }

  lemma EnterLow<V(!new)>(g: map<V, seq<V>>, s: State<V>, t: State<V>, v: V, j: nat)
    requires Numbered(g, s) && WorkPath(g, s) && Explored(g, s) && Entered(g, s, t, v) && j < |t.work|
    requires j < |s.work| ==> LowSound(g, s, s.work[j].node) && LowComplete(g, s, j)
    ensures LowSound(g, t, t.work[j].node) && LowComplete(g, t, j)
  {
    ReachSelf(g, v);
    forall x, y | InSegment(t, j, x) && t.Taken(g, x, y) && t.On(y)
      ensures t.Low(t.work[j].node) <= t.Num(y)
    {
      AdvancedTaken(g, s, t, v, true, x, y);
      if j < |s.work| && y != v { assert InSegment(s, j, x); }
    }
  }

  lemma EnterExplored<V(!new)>(g: map<V, seq<V>>, s: State<V>, t: State<V>, v: V)
    requires Explored(g, s) && Entered(g, s, t, v)
    ensures Explored(g, t)
  {
    forall x, y | t.Taken(g, x, y) ensures y in t.index { AdvancedTaken(g, s, t, v, true, x, y); }
  }

  lemma EnterKeepsInv<V(!new)>(g: map<V, seq<V>>, s: State<V>, t: State<V>, v: V)
    requires Inv(g, s) && Entered(g, s, t, v)
    ensures Inv(g, t)
  {
    EmittedSame(g, s, t);
    EnterStacked(g, s, t, v);
    EnterWorkPath(g, s, t, v);
    hide Connected, Explored, Emitted, Stacked, WorkPath, LowSound, LowComplete, State.On, State.Num;
    EnterConnected(g, s, t, v);
    EnterExplored(g, s, t, v);
    forall j | 0 <= j < |t.work| ensures LowSound(g, t, t.work[j].node) && LowComplete(g, t, j) {
      EnterLow(g, s, t, v, j);
    }
  }

  lemma RevisitConnected<V(!new)>(g: map<V, seq<V>>, s: State<V>, t: State<V>, v: V)
    requires WorkPath(g, s) && Connected(g, s) && Revisited(g, s, t, v)
    ensures Connected(g, t)
  {
    hide State.On;
    hide State.Num;
    forall x | t.On(x) ensures HasAnchor(g, t, x) {
      assert HasAnchor(g, s, x);
      var j :| 0 <= j < |s.work| && s.Num(s.work[j].node) <= s.Num(x) && Reach(g, x, s.work[j].node);
      assert t.work[j].node == s.work[j].node;
    }
  }

  lemma RevisitStacked<V(!new)>(g: map<V, seq<V>>, s: State<V>, t: State<V>, v: V)
    requires Stacked(s) && WorkPath(g, s) && Revisited(g, s, t, v)
    ensures Stacked(t) && WorkPath(g, t)
  {
    hide State.On, State.Num, State.Low, Numbered;
  }

  lemma RevisitLow<V(!new)>(g: map<V, seq<V>>, s: State<V>, t: State<V>, v: V, j: nat)
    requires WorkPath(g, s) && Revisited(g, s, t, v) && j < |s.work|
    requires LowSound(g, s, s.work[j].node) && LowComplete(g, s, j)
    ensures LowSound(g, t, t.work[j].node) && LowComplete(g, t, j)
  {
    ReachEdge(g, Top(s), v);
    forall x, y | InSegment(t, j, x) && t.Taken(g, x, y) && t.On(y)
      ensures t.Low(t.work[j].node) <= t.Num(y)
    {
      AdvancedTaken(g, s, t, v, false, x, y);
      assert InSegment(s, j, x);
      if j < |s.work| - 1 { assert !InSegment(s, j, Top(s)); }
    }
  }

  lemma RevisitExplored<V(!new)>(g: map<V, seq<V>>, s: State<V>, t: State<V>, v: V)
    requires Explored(g, s) && Revisited(g, s, t, v)
    ensures Explored(g, t)
  {
    forall x, y | t.Taken(g, x, y) ensures y in t.index { AdvancedTaken(g, s, t, v, false, x, y); }
  }

  lemma RevisitKeepsInv<V(!new)>(g: map<V, seq<V>>, s: State<V>, t: State<V>, v: V)
    requires Inv(g, s) && Revisited(g, s, t, v)
    ensures Inv(g, t)
  {
    EmittedSame(g, s, t);
    RevisitStacked(g, s, t, v);
    hide Connected, Explored, Emitted, Stacked, WorkPath, LowSound, LowComplete, State.On, State.Num;
    RevisitConnected(g, s, t, v);
    RevisitExplored(g, s, t, v);
    forall j | 0 <= j < |t.work| ensures LowSound(g, t, t.work[j].node) && LowComplete(g, t, j) {
      RevisitLow(g, s, t, v, j);
    }
  }

  /** Dropping a finished node from the work stack changes no edge's status. */
  lemma RetiredTaken<V(!new)>(g: map<V, seq<V>>, s: State<V>, t: State<V>, x: V, y: V)
    requires Finished(g, s)
    requires t.work == s.work[..|s.work| - 1] && t.index == s.index && t.Taken(g, x, y)
    ensures s.Taken(g, x, y)
  {
    var e :| 0 <= e < |g[x]| && g[x][e] == y && t.TakenAt(x, e);
    forall j | 0 <= j < |s.work| && s.work[j].node == x ensures e < s.work[j].pos {
      if j < |t.work| { assert t.work[j] == s.work[j]; }
    }
    assert s.TakenAt(x, e);
  }

  /** A node whose low link is below its index reaches an older work node. */
  lemma LowReachesOlder<V(!new)>(g: map<V, seq<V>>, s: State<V>, v: V) returns (a: nat)
    requires Connected(g, s) && LowSound(g, s, v) && s.Low(v) < s.Num(v)
    ensures a < |s.work| && s.Num(s.work[a].node) < s.Num(v) && Reach(g, v, s.work[a].node)
  {
    var y :| s.On(y) && s.Num(y) == s.Low(v) && Reach(g, v, y);
    assert HasAnchor(g, s, y);
    a :| 0 <= a < |s.work| && s.Num(s.work[a].node) <= s.Num(y) && Reach(g, y, s.work[a].node);
    ReachTrans(g, v, y, s.work[a].node);
  }

  lemma KeepConnected<V(!new)>(g: map<V, seq<V>>, s: State<V>, t: State<V>)
    requires WorkPath(g, s) && Connected(g, s) && Kept(g, s, t) && LowSound(g, s, Top(s))
    ensures Connected(g, t) && t.work != []
  {
    hide Numbered;
    hide State.On;
    hide State.Num;
    hide State.Low;
    var v := Top(s);
    var a := LowReachesOlder(g, s, v);
    assert t.work[a] == s.work[a];
    forall x | t.On(x) ensures HasAnchor(g, t, x) {
      assert HasAnchor(g, s, x);
      var j :| 0 <= j < |s.work| && s.Num(s.work[j].node) <= s.Num(x) && Reach(g, x, s.work[j].node);
      if j < |t.work| {
        assert t.work[j] == s.work[j];
      } else {
        ReachTrans(g, x, v, s.work[a].node);
      }
    }
  }

  lemma KeepLowSound<V(!new)>(g: map<V, seq<V>>, s: State<V>, t: State<V>, j: nat)
    requires WorkPath(g, s) && Connected(g, s) && Kept(g, s, t) && j < |t.work|
    requires LowSound(g, s, s.work[j].node) && LowSound(g, s, Top(s))
    ensures LowSound(g, t, t.work[j].node)
  {
    hide State.On;
    hide State.Num;
    assert t.work[j] == s.work[j];
    var y :| s.On(y) && s.Num(y) == s.Low(Top(s)) && Reach(g, Top(s), y);
    ReachTrans(g, s.work[j].node, Top(s), y);
  }

  lemma KeepLowComplete<V(!new)>(g: map<V, seq<V>>, s: State<V>, t: State<V>, j: nat)
    requires Kept(g, s, t) && j < |t.work|
    requires LowComplete(g, s, j) && LowComplete(g, s, j + 1)
    ensures LowComplete(g, t, j)
  {
    hide State.On;
    hide State.Num;
    assert t.work[j] == s.work[j];
    forall x, y | InSegment(t, j, x) && t.Taken(g, x, y) && t.On(y)
      ensures t.Low(t.work[j].node) <= t.Num(y)
    {
      RetiredTaken(g, s, t, x, y);
      if j + 1 < |t.work| { assert t.work[j + 1] == s.work[j + 1]; }
      assert InSegment(s, j, x) || (j + 1 == |t.work| && InSegment(s, j + 1, x));
    }
  }

  lemma KeepExplored<V(!new)>(g: map<V, seq<V>>, s: State<V>, t: State<V>)
    requires Explored(g, s) && Kept(g, s, t)
    ensures Explored(g, t)
  {
    forall x, y | t.Taken(g, x, y) ensures y in t.index { RetiredTaken(g, s, t, x, y); }
  }

  lemma KeepStacked<V(!new)>(g: map<V, seq<V>>, s: State<V>, t: State<V>)
    requires Stacked(s) && WorkPath(g, s) && Kept(g, s, t)
    ensures Stacked(t) && WorkPath(g, t)
  {
    hide State.On, State.Num, State.Low, Numbered;
  }

  lemma KeepKeepsInv<V(!new)>(g: map<V, seq<V>>, s: State<V>, t: State<V>)
    requires Inv(g, s) && Kept(g, s, t)
    ensures Inv(g, t)
  {
    EmittedSame(g, s, t);
    KeepStacked(g, s, t);
    hide Connected, Explored, Emitted, Stacked, WorkPath, LowSound, LowComplete, State.On, State.Num;
    assert LowSound(g, s, Top(s)) by { assert s.work[|s.work| - 1].node == Top(s); }
    KeepConnected(g, s, t);
    KeepExplored(g, s, t);
    forall j | 0 <= j < |t.work| ensures LowSound(g, t, t.work[j].node) && LowComplete(g, t, j) {
      KeepLowSound(g, s, t, j);
      KeepLowComplete(g, s, t, j);
    }
  }

  /** From a component about to be emitted, every edge stays inside it or leads to a finished node. */
  lemma ReleaseEdges<V(!new)>(g: map<V, seq<V>>, s: State<V>, t: State<V>, c: seq<V>, x: V, y: V)
    requires WorkPath(g, s) && Explored(g, s) && Released(g, s, t, c) && LowComplete(g, s, |s.work| - 1)
    requires x in c && x in g && y in g[x]
    ensures y in c || s.Done(y)
  {
    var e :| 0 <= e < |g[x]| && g[x][e] == y;
    assert s.TakenAt(x, e);
    assert s.Taken(g, x, y);
    if s.On(y) { assert InSegment(s, |s.work| - 1, x); }
  }

  /** ... so what it reaches and is reached from is exactly itself. */
  lemma ReleaseComponent<V(!new)>(g: map<V, seq<V>>, s: State<V>, t: State<V>, c: seq<V>)
    requires Numbered(g, s) && WorkPath(g, s) && Explored(g, s) && Connected(g, s)
    requires Released(g, s, t, c) && LowComplete(g, s, |s.work| - 1)
    ensures IsComponent(g, Members(c))
  {
    var v := Top(s);
    assert s.work[|s.work| - 1].node == v;
    var done := set u | u in s.index && s.Done(u);
    forall x, y | x in c + [] && x in g && y in g[x] ensures y in c || s.Done(y) { ReleaseEdges(g, s, t, c, x, y); }
    assert ClosedUnder(g, done + Members(c)) && ClosedUnder(g, done);
    forall x, y | x in Members(c) && y in g ensures y in Members(c) <==> Mutual(g, x, y) {
      hide IsComponent;
      hide ClosedUnder;
      if y in c {
        StackReachesTop(g, s, x);
        StackReachesTop(g, s, y);
        ReachTrans(g, x, v, y);
        ReachTrans(g, y, v, x);
      } else if Mutual(g, x, y) {
        ReachStays(g, done + Members(c), x, y);
        ReachStays(g, done, y, x);
      }
    }
    assert v in Members(c);
  }

  lemma ReleaseExplored<V(!new)>(g: map<V, seq<V>>, s: State<V>, t: State<V>, c: seq<V>)
    requires WorkPath(g, s) && Explored(g, s) && Released(g, s, t, c) && LowComplete(g, s, |s.work| - 1)
    ensures Explored(g, t)
  {
    forall x, y | t.Taken(g, x, y) ensures y in t.index { RetiredTaken(g, s, t, x, y); }
    forall x, y | x in g && t.Done(x) && y in g[x] ensures t.Done(y) {
      if x in c { ReleaseEdges(g, s, t, c, x, y); }
    }
  }

  lemma ReleaseWorkPath<V(!new)>(g: map<V, seq<V>>, s: State<V>, t: State<V>, c: seq<V>)
    requires WorkPath(g, s) && Released(g, s, t, c)
    ensures WorkPath(g, t)
  {
    forall j | 0 <= j < |t.work| ensures t.work[j] == s.work[j] && s.Num(t.work[j].node) < s.Num(Top(s)) {}
  }

  lemma ReleaseConnected<V(!new)>(g: map<V, seq<V>>, s: State<V>, t: State<V>, c: seq<V>)
    requires WorkPath(g, s) && Connected(g, s) && Released(g, s, t, c)
    ensures Connected(g, t)
  {
    hide Numbered;
    hide Stacked;
    hide Distinct;
    hide State.On;
    hide State.Num;
    hide State.Low;
    forall x | t.On(x) ensures HasAnchor(g, t, x) {
      assert HasAnchor(g, s, x);
      var j :| 0 <= j < |s.work| && s.Num(s.work[j].node) <= s.Num(x) && Reach(g, x, s.work[j].node);
      assert t.work[j] == s.work[j];
    }
  }

  lemma ReleaseLow<V(!new)>(g: map<V, seq<V>>, s: State<V>, t: State<V>, c: seq<V>, j: nat)
    requires WorkPath(g, s) && Released(g, s, t, c) && j < |t.work|
    requires LowSound(g, s, s.work[j].node) && LowComplete(g, s, j)
    ensures LowSound(g, t, t.work[j].node) && LowComplete(g, t, j)
  {
    hide State.On;
    hide State.Num;
    hide State.Low;
    assert t.work[j] == s.work[j];
    forall x, y | InSegment(t, j, x) && t.Taken(g, x, y) && t.On(y)
      ensures t.Low(t.work[j].node) <= t.Num(y)
    {
      RetiredTaken(g, s, t, x, y);
      if j + 1 < |t.work| { assert t.work[j + 1] == s.work[j + 1]; }
      assert InSegment(s, j, x);
    }
  }

  lemma ReleaseEmitted<V(!new)>(g: map<V, seq<V>>, s: State<V>, t: State<V>, c: seq<V>)
    requires WorkPath(g, s) && Explored(g, s) && Released(g, s, t, c) && LowComplete(g, s, |s.work| - 1)
    requires Emitted(g, s) && IsComponent(g, Members(c))
    ensures Emitted(g, t)
  {
    var n := |s.sccs|;
    hide IsComponent;
    hide Explored;
    hide LowComplete;
    hide Distinct;
    hide State.Num;
    hide State.Low;
    forall u ensures t.Done(u) <==> Emits(t.sccs, u) {
      if u in c { assert u in t.sccs[n]; }
      if Emits(s.sccs, u) {
        var i :| 0 <= i < n && u in s.sccs[i];
        assert u in t.sccs[i];
      }
    }
    forall i, u | 0 <= i < n && u in s.sccs[i] ensures u !in c {
      assert Emits(s.sccs, u);
    }
    forall i, x, y | 0 <= i < |t.sccs| && x in t.sccs[i] && x in g && y in g[x] ensures Emits(t.sccs[..i + 1], y) {
      if i < n {
        assert t.sccs[..i + 1] == s.sccs[..i + 1];
      } else {
        assert t.sccs[..i + 1] == t.sccs;
        ReleaseEdges(g, s, t, c, x, y);
      }
    }
  }

  lemma ReleaseKeepsInv<V(!new)>(g: map<V, seq<V>>, s: State<V>, t: State<V>, c: seq<V>)
    requires Inv(g, s) && Released(g, s, t, c)
    ensures Inv(g, t)
  {
    hide Connected, Explored, Emitted, WorkPath, LowSound, LowComplete, IsComponent, Distinct, State.On, State.Num;
    ReleaseComponent(g, s, t, c);
    ReleaseExplored(g, s, t, c);
    ReleaseWorkPath(g, s, t, c);
    ReleaseConnected(g, s, t, c);
    ReleaseEmitted(g, s, t, c);
    forall j | 0 <= j < |t.work| ensures LowSound(g, t, t.work[j].node) && LowComplete(g, t, j) {
      assert t.work[j] == s.work[j];
      ReleaseLow(g, s, t, c, j);
    }
  }

  // ---- The search itself ----

  /** The successor list of `n`: the targets of its edges inside `nodes`, in edge order. */
  function Targets<V(==)>(nodes: seq<V>, edges: seq<(V, V)>, n: V): seq<V> {
    if edges == [] then []
    else
      var k := |edges| - 1;
      Targets(nodes, edges[..k], n) + if edges[k].0 == n && edges[k].1 in nodes then [edges[k].1] else []
  }

  lemma {:induction false} TargetsMeaning<V>(nodes: seq<V>, edges: seq<(V, V)>, n: V, y: V)
    ensures y in Targets(nodes, edges, n) <==> y in nodes && (n, y) in edges
  {
    if edges != [] {
      var k := |edges| - 1;
      assert edges == edges[..k] + [edges[k]];
      TargetsMeaning(nodes, edges[..k], n, y);
    }
  }

  function Adjacency<V(==)>(nodes: seq<V>, edges: seq<(V, V)>): map<V, seq<V>> {
    map n | n in nodes :: Targets(nodes, edges, n)
  }

  /**
   * `sccs` lists the strongly connected components of `g`: each is one, without repeats; every node is in
   * exactly one; and no edge leads from a component to a later one.
   */
  ghost predicate IsCondensation<V(!new)>(g: map<V, seq<V>>, sccs: seq<seq<V>>) {
    && (forall i :: 0 <= i < |sccs| ==> IsComponent(g, Members(sccs[i])) && Distinct(sccs[i]))
    && (forall v :: v in g <==> Emits(sccs, v))
    && (forall i, j, v :: 0 <= i < j < |sccs| && v in sccs[i] ==> v !in sccs[j])
    && (forall i, x, y :: 0 <= i < |sccs| && x in sccs[i] && x in g && y in g[x] ==> Emits(sccs[..i + 1], y))
  }

  lemma AdjacencyIsGraph<V(!new)>(nodes: seq<V>, edges: seq<(V, V)>)
    ensures IsGraph(Adjacency(nodes, edges))
  {
    var adj := Adjacency(nodes, edges);
    forall v, w | v in adj && w in adj[v] ensures w in adj { TargetsMeaning(nodes, edges, v, w); }
  }

  lemma TargetsStep<V>(nodes: seq<V>, edges: seq<(V, V)>, i: nat, n: V)
    requires i < |edges|
    ensures Targets(nodes, edges[..i + 1], n) ==
            Targets(nodes, edges[..i], n) + (if edges[i].0 == n && edges[i].1 in nodes then [edges[i].1] else [])
  {
    assert edges[..i + 1][..i] == edges[..i];
  }

  method BuildAdjacency<V(==,!new)>(nodes: seq<V>, edges: seq<(V, V)>) returns (adj: map<V, seq<V>>)
    ensures adj == Adjacency(nodes, edges) && IsGraph(adj)
  {
    adj := map n | n in nodes :: [];
    var i := 0;
    while i < |edges|
      invariant i <= |edges|
      invariant forall n :: n in adj <==> n in nodes
      invariant forall n <- nodes :: adj[n] == Targets(nodes, edges[..i], n)
    {
      var (src, dst) := edges[i];
      forall n | n in nodes { TargetsStep(nodes, edges, i, n); }
      if src in adj && dst in adj {
        adj := adj[src := adj[src] + [dst]];
      }
      i := i + 1;
    }
    assert edges[..|edges|] == edges;
    AdjacencyIsGraph(nodes, edges);
  }

  // ---- The assignments the search makes are those steps ----

  lemma TopOnStack<V(!new)>(g: map<V, seq<V>>, s: State<V>)
    requires Inv(g, s) && s.work != []
    ensures Top(s) in s.stack && Distinct(s.stack)
    ensures forall v <- s.stack :: v in s.onStack
    ensures forall v <- s.work :: v.node in s.lowlink
  {
    hide Explored;
    hide Connected;
    hide LowLinks;
    hide Emitted;
  }

  /** What the code itself relies on: look-ups on the top of the work stack cannot fail. */
  lemma TopFacts<V(!new)>(g: map<V, seq<V>>, s: State<V>)
    requires Inv(g, s)
    ensures s.index.Keys <= g.Keys
    ensures s.work != [] ==>
      && Top(s) in s.index && Top(s) in s.lowlink && Top(s) in g && s.work[|s.work| - 1].pos <= |g[Top(s)]|
      && (forall v <- g[Top(s)] :: v in g) && s.index.Keys == s.lowlink.Keys == s.onStack.Keys
  {
    hide Explored;
    hide Connected;
    hide LowLinks;
    hide Emitted;
  }

  lemma VisitIsEntered<V(!new)>(g: map<V, seq<V>>, s: State<V>, w: seq<Frame<V>>, v: V)
    requires Numbered(g, s) && v in g && v !in s.index
    requires w == s.work == [] ||
      (NextEdge(g, s, v) && w == s.work[|s.work| - 1 := Frame(Top(s), s.work[|s.work| - 1].pos + 1)])
    ensures Entered(g, s, State(s.counter + 1, s.index[v := s.counter], s.lowlink[v := s.counter], s.onStack[v := true],
                                s.stack + [v], w + [Frame(v, 0)], s.sccs), v)
  {
  }

  lemma VisitEnters<V(!new)>(g: map<V, seq<V>>, s: State<V>, w: seq<Frame<V>>, v: V)
    requires Inv(g, s) && v in g && v !in s.index
    requires w == s.work == [] ||
      (NextEdge(g, s, v) && w == s.work[|s.work| - 1 := Frame(Top(s), s.work[|s.work| - 1].pos + 1)])
    ensures Inv(g, State(s.counter + 1, s.index[v := s.counter], s.lowlink[v := s.counter], s.onStack[v := true],
                         s.stack + [v], w + [Frame(v, 0)], s.sccs))
  {
    var t := State(s.counter + 1, s.index[v := s.counter], s.lowlink[v := s.counter], s.onStack[v := true],
                   s.stack + [v], w + [Frame(v, 0)], s.sccs);
    assert Numbered(g, s);
    hide *;
    VisitIsEntered(g, s, w, v);
    EnterKeepsInv(g, s, t, v);
  }

  lemma SkipIsRevisited<V(!new)>(g: map<V, seq<V>>, s: State<V>, w: seq<Frame<V>>, v: V)
    requires Numbered(g, s) && NextEdge(g, s, v) && v in s.index && Top(s) in s.index
    requires w == s.work[|s.work| - 1 := Frame(Top(s), s.work[|s.work| - 1].pos + 1)]
    ensures Top(s) in s.lowlink && v in s.onStack
    ensures var low := if s.onStack[v] then s.lowlink[Top(s) := Min(s.lowlink[Top(s)], s.index[v])] else s.lowlink;
      Revisited(g, s, s.(work := w, lowlink := low), v)
  {
  }

  lemma SkipRevisits<V(!new)>(g: map<V, seq<V>>, s: State<V>, w: seq<Frame<V>>, v: V)
    requires Inv(g, s) && NextEdge(g, s, v) && v in s.index
    requires w == s.work[|s.work| - 1 := Frame(Top(s), s.work[|s.work| - 1].pos + 1)]
    ensures Top(s) in s.lowlink && v in s.onStack
    ensures var low := if s.onStack[v] then s.lowlink[Top(s) := Min(s.lowlink[Top(s)], s.index[v])] else s.lowlink;
      Inv(g, s.(work := w, lowlink := low))
  {
    TopFacts(g, s);
    assert Numbered(g, s) && s.work != [];
    hide *;
    SkipIsRevisited(g, s, w, v);
    var low := if s.onStack[v] then s.lowlink[Top(s) := Min(s.lowlink[Top(s)], s.index[v])] else s.lowlink;
    RevisitKeepsInv(g, s, s.(work := w, lowlink := low), v);
  }

  ghost function HandUp<V(!new)>(s: State<V>): map<V, nat>
    requires s.work != [] && Top(s) in s.lowlink
  {
    var k := |s.work| - 1;
    if k > 0 && s.work[k - 1].node in s.lowlink then
      var p := s.work[k - 1].node; s.lowlink[p := Min(s.lowlink[p], s.lowlink[Top(s)])]
    else s.lowlink
  }

  lemma PopRetires<V(!new)>(g: map<V, seq<V>>, s: State<V>, t: State<V>)
    requires Numbered(g, s) && WorkPath(g, s) && Finished(g, s)
    requires t.index == s.index && t.counter == s.counter && t.lowlink == HandUp(s) && t.work == s.work[..|s.work| - 1]
    requires t.onStack.Keys == s.onStack.Keys
    ensures Retired(g, s, t)
  {
    var k := |s.work| - 1;
    if k > 0 { assert t.work[k - 1] == s.work[k - 1]; }
  }

  lemma PopKeeps<V(!new)>(g: map<V, seq<V>>, s: State<V>, t: State<V>)
    requires Inv(g, s) && Finished(g, s) && Top(s) in s.lowlink && s.lowlink[Top(s)] != s.index[Top(s)]
    requires t == s.(lowlink := HandUp(s), work := s.work[..|s.work| - 1])
    ensures Inv(g, t)
  {
    assert LowSound(g, s, Top(s)) by { assert s.work[|s.work| - 1].node == Top(s); }
    hide Explored;
    hide Connected;
    hide LowLinks;
    hide Emitted;
    PopRetires(g, s, t);
    assert Kept(g, s, t);
    hide *;
    KeepKeepsInv(g, s, t);
  }

  /** `c` is `stack[m..]` in popping order. */
  ghost predicate Popped<V(!new)>(stack: seq<V>, m: nat, c: seq<V>) {
    && m <= |stack| && |c| == |stack| - m
    && forall a :: 0 <= a < |c| ==> c[a] == stack[|stack| - 1 - a]
  }

  lemma PoppedMembers<V(!new)>(s: State<V>, m: nat, c: seq<V>, v: V, u: V)
    requires Stacked(s) && m < |s.stack| && s.stack[m] == v && Popped(s.stack, m, c)
    ensures u in c <==> s.On(u) && s.Num(v) <= s.Num(u)
    ensures Distinct(c)
  {
    hide State.Num;
    hide State.On;
    if u in c {
      var a :| 0 <= a < |c| && c[a] == u;
      assert s.stack[|s.stack| - 1 - a] == u;
    }
    if s.On(u) && s.Num(v) <= s.Num(u) {
      var i :| 0 <= i < |s.stack| && s.stack[i] == u;
      assert c[|s.stack| - 1 - i] == u;
    }
  }

  lemma PopStacked<V(!new)>(s: State<V>, t: State<V>, m: nat, c: seq<V>, v: V)
    requires Stacked(s) && m < |s.stack| && s.stack[m] == v
    requires t.stack == s.stack[..m] && forall u :: t.Num(u) == s.Num(u)
    requires forall u :: u in c <==> s.On(u) && s.Num(v) <= s.Num(u)
    requires forall u :: t.On(u) <==> s.On(u) && u !in c
    ensures Stacked(t)
  {
    hide State.On, State.Num;
    forall i | 0 <= i < m ensures t.On(t.stack[i]) && t.stack[i] == s.stack[i] { assert s.On(s.stack[i]); }
    forall u | t.On(u) ensures u in t.stack {
      var i :| 0 <= i < |s.stack| && s.stack[i] == u;
      assert i < m;
      assert t.stack[i] == u;
    }
  }

  lemma PopReleases<V(!new)>(g: map<V, seq<V>>, s: State<V>, t: State<V>, m: nat, c: seq<V>)
    requires Inv(g, s) && Finished(g, s) && Top(s) in s.lowlink && s.lowlink[Top(s)] == s.index[Top(s)]
    requires m < |s.stack| && s.stack[m] == Top(s) && Popped(s.stack, m, c)
    requires t.onStack.Keys == s.onStack.Keys
    requires forall v :: v in t.onStack ==> t.onStack[v] == (s.onStack[v] && v !in c)
    requires t.index == s.index && t.counter == s.counter && t.lowlink == HandUp(s) && t.work == s.work[..|s.work| - 1]
    requires t.stack == s.stack[..m] && t.sccs == s.sccs + [c]
    ensures Inv(g, t)
  {
    hide Explored;
    hide Connected;
    hide LowLinks;
    hide Emitted;
    PopRetires(g, s, t);
    assert Distinct(c) by { PoppedMembers(s, m, c, Top(s), Top(s)); }
    forall u ensures u in c <==> s.On(u) && s.Num(Top(s)) <= s.Num(u) { PoppedMembers(s, m, c, Top(s), u); }
    PopStacked(s, t, m, c, Top(s));
    assert Released(g, s, t, c);
    hide *;
    ReleaseKeepsInv(g, s, t, c);
  }

  /** Once no work is left and every node is numbered, the emitted components are all of them. */
  lemma SearchComplete<V(!new)>(g: map<V, seq<V>>, s: State<V>)
    requires Inv(g, s) && s.work == [] && forall v :: v in g ==> v in s.index
    ensures IsCondensation(g, s.sccs)
  {
    hide IsComponent;
    hide Distinct;
    hide Explored;
    hide LowLinks;
    forall v ensures v in g <==> Emits(s.sccs, v) {
      assert s.On(v) ==> HasAnchor(g, s, v);
    }
  }

  /** The search: its fields are the locals the nested loops share. */
  class Search<V(==,!new)> {
    const adj: map<V, seq<V>>
    var counter: nat
    var index: map<V, nat>
    var lowlink: map<V, nat>
    var onStack: map<V, bool>
    var stack: seq<V>
    var work: seq<Frame<V>>
    var sccs: seq<seq<V>>

    ghost function St(): State<V> reads this { State(counter, index, lowlink, onStack, stack, work, sccs) }

    ghost predicate Valid() reads this { Inv(adj, St()) }

    constructor (adj: map<V, seq<V>>)
      requires IsGraph(adj)
      ensures this.adj == adj && Valid() && index == map[] && work == []
    {
      this.adj := adj;
      counter, index, lowlink, onStack, stack, work, sccs := 0, map[], map[], map[], [], [], [];
    }

    /** Numbers an unvisited node and puts it on both stacks. */
    method Visit(v: V)
      requires v in adj && v !in index
      modifies this
      ensures index == old(index)[v := old(counter)] && lowlink == old(lowlink)[v := old(counter)]
      ensures onStack == old(onStack)[v := true] && counter == old(counter) + 1
      ensures stack == old(stack) + [v] && work == old(work) + [Frame(v, 0)] && sccs == old(sccs)
    {
      index, lowlink := index[v := counter], lowlink[v := counter];
      counter := counter + 1;
      stack := stack + [v];
      onStack := onStack[v := true];
      work := work + [Frame(v, 0)];
    }

    /** Runs the top iterator until it enters an unvisited node (`advanced`) or is exhausted. */
    method ScanEdges() returns (advanced: bool)
      requires Valid() && work != []
      modifies this
      ensures Valid() && index.Keys >= old(index.Keys)
      ensures advanced ==> index.Keys > old(index.Keys)
      ensures !advanced ==> index == old(index) && |work| == |old(work)| && Finished(adj, St())
    {
      hide Inv;
      TopFacts(adj, St());
      var k := |work| - 1;
      var node := work[k].node;
      var pos := work[k].pos;
      while pos < |adj[node]|
        invariant Valid() && index == old(index) && |work| == |old(work)| == k + 1
        invariant node in adj && work[k] == Frame(node, pos) && pos <= |adj[node]|
        decreases |adj[node]| - pos
      {
        ghost var s := St();
        TopFacts(adj, s);
        var succ := adj[node][pos];
        pos := pos + 1;
        work := work[k := Frame(node, pos)];
        if succ !in index {
          VisitEnters(adj, s, work, succ);
          Visit(succ);
          return true;
        }
        SkipRevisits(adj, s, work, succ);
        if succ in onStack && onStack[succ] {
          lowlink := lowlink[node := Min(lowlink[node], index[succ])];
        }
      }
      advanced := false;
    }

    /** Pops the stack down to and including `node`, clearing the flags of what it pops. */
    method PopDownTo(node: V, ghost m: nat) returns (scc: seq<V>)
      requires m < |stack| && stack[m] == node && Distinct(stack) && forall v <- stack :: v in onStack
      modifies this`stack, this`onStack
      ensures stack == old(stack)[..m] && Popped(old(stack), m, scc)
      ensures onStack.Keys == old(onStack).Keys
      ensures forall v :: v in onStack ==> onStack[v] == (old(onStack)[v] && v !in scc)
    {
      scc := [];
      while true
        invariant m < |stack| <= |old(stack)| && stack == old(stack)[..|stack|] && Popped(old(stack), |stack|, scc)
        invariant onStack.Keys == old(onStack).Keys
        invariant forall v :: v in onStack ==> onStack[v] == (old(onStack)[v] && v !in scc)
        decreases |stack|
      {
        var w := stack[|stack| - 1];
        stack := stack[..|stack| - 1];
        onStack := onStack[w := false];
        scc := scc + [w];
        if w == node { break; }
      }
    }

    /** Leaves the finished top node: hands its low link to its parent and emits its component, if it roots one. */
    method Leave()
      requires Valid() && Finished(adj, St())
      modifies this
      ensures Valid() && index == old(index) && |work| == |old(work)| - 1
    {
      hide Inv;
      ghost var s := St();
      TopFacts(adj, s);
      TopOnStack(adj, s);
      var node := work[|work| - 1].node;
      work := work[..|work| - 1];
      if work != [] {
        var parent := work[|work| - 1].node;
        lowlink := lowlink[parent := Min(lowlink[parent], lowlink[node])];
      }
      if lowlink[node] == index[node] {
        ghost var m :| 0 <= m < |stack| && stack[m] == node;
        var scc := PopDownTo(node, m);
        sccs := sccs + [scc];
        PopReleases(adj, s, St(), m, scc);
      } else {
        PopKeeps(adj, s, St());
      }
    }
  }

  method TarjanSccs<V(==,!new)>(nodes: seq<V>, edges: seq<(V, V)>) returns (sccs: seq<seq<V>>)
    ensures IsCondensation(Adjacency(nodes, edges), sccs)
  {
    hide Inv;
    hide IsCondensation;
    var adj := BuildAdjacency(nodes, edges);
    var search := new Search(adj);
    var n := 0;
    while n < |nodes|
      invariant n <= |nodes| && search.Valid() && search.work == [] && search.adj == adj
      invariant forall v <- nodes[..n] :: v in search.index
    {
      var start := nodes[n];
      n := n + 1;
      if start in search.index { continue; }
      VisitEnters(adj, search.St(), [], start);
      search.Visit(start);
      while search.work != []
        invariant search.Valid() && search.adj == adj
        invariant forall v <- nodes[..n] :: v in search.index
        decreases adj.Keys - search.index.Keys, |search.work|
      {
        TopFacts(adj, search.St());
        var advanced := search.ScanEdges();
        TopFacts(adj, search.St());
        if advanced { continue; }
        search.Leave();
      }
    }
    SearchComplete(adj, search.St());
    sccs := search.sccs;
  }
}
