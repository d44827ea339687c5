/**
 * The call graph of the design extractor (pkb/call_graph.cpp): an adjacency map from caller
 * to callees, a depth-first cycle check that works on a copy it prunes as it goes, and the
 * search for a callee that no procedure defines.
 */
module PkbCallGraph {
  import SimpleAst

  type Graph = map<string, set<string>>

  ghost predicate Edge(g: Graph, x: string, y: string)
  {
    x in g && y in g[x]
  }

  /** A non-empty walk along edges of g. */
  ghost predicate IsPath(g: Graph, p: seq<string>)
  {
    |p| >= 1 && forall i :: 0 <= i < |p| - 1 ==> Edge(g, p[i], p[i + 1])
  }

  /** A walk of at least one edge that ends where it started; a self-call is one. */
  ghost predicate HasCycle(g: Graph)
  {
    exists p :: IsPath(g, p) && |p| >= 2 && p[0] == p[|p| - 1]
  }

  /** A walk of at least one edge whose last node occurs earlier on it. */
  ghost predicate IsLasso(g: Graph, p: seq<string>)
  {
    IsPath(g, p) && |p| >= 2 && exists i :: 0 <= i < |p| - 1 && p[i] == p[|p| - 1]
  }

  /** No walk from x runs into a cycle. */
  ghost predicate Safe(g: Graph, x: string)
  {
    forall p :: IsLasso(g, p) ==> p[0] != x
  }

  /** t is g with some callees, and some callers, removed. */
  ghost predicate SubGraph(t: Graph, g: Graph)
  {
    forall k :: k in t ==> k in g && t[k] <= g[k]
  }

  /** Every caller still in t has a callee left. */
  ghost predicate NonEmpty(t: Graph)
  {
    forall k :: k in t ==> t[k] != {}
  }

  /** Every edge of g that the search has removed from t leads to a safe node. */
  ghost predicate RemovedSafe(g: Graph, t: Graph)
  {
    forall x, y :: Edge(g, x, y) && !Edge(t, x, y) ==> Safe(g, y)
  }

  ghost function Elems(p: seq<string>): set<string>
  {
    set i | 0 <= i < |p| :: p[i]
  }

  /** The graph after addEdge(a, b). */
  function WithEdge(g: Graph, a: string, b: string): Graph
  {
    g[a := (if a in g then g[a] else {}) + {b}]
  }

  /** addEdge adds exactly the edge a -> b. */
  lemma WithEdgeEdges(g: Graph, a: string, b: string, x: string, y: string)
    ensures Edge(WithEdge(g, a, b), x, y) <==> Edge(g, x, y) || (x == a && y == b)
  {
  }

  /** addEdge has set semantics: adding the same pair twice changes nothing. */
  lemma WithEdgeIdempotent(g: Graph, a: string, b: string)
    ensures WithEdge(WithEdge(g, a, b), a, b) == WithEdge(g, a, b)
  {
  }

  /** A self-call is a cycle. */
  lemma SelfCallIsCycle(g: Graph, a: string)
    requires Edge(g, a, a)
    ensures HasCycle(g)
  {
    assert IsPath(g, [a, a]);
  }

  /** A node on the current path that is reached again closes a cycle. */
  lemma CycleFromPath(g: Graph, path: seq<string>, a: string)
    requires a in Elems(path)
    requires IsPath(g, path + [a])
    ensures HasCycle(g)
  {
    var i :| 0 <= i < |path| && path[i] == a;
    var q := path + [a];
    var p := q[i..];
    assert forall j :: 0 <= j < |p| ==> p[j] == q[i + j];
    assert IsPath(g, p) && |p| >= 2 && p[0] == p[|p| - 1];
  }

  /** Dropping the first node of a lasso leaves a lasso from the second (closing the loop
   *  again through the first node when that is where the lasso ended). */
  lemma LassoTail(g: Graph, p: seq<string>) returns (q: seq<string>)
    requires IsLasso(g, p)
    ensures IsLasso(g, q) && q[0] == p[1] && Edge(g, p[0], p[1])
  {
    var i :| 0 <= i < |p| - 1 && p[i] == p[|p| - 1];
    if i >= 1 {
      q := p[1..];
      assert forall j :: 0 <= j < |q| ==> q[j] == p[j + 1];
      assert q[i - 1] == q[|q| - 1];
    } else {
      q := p[1..] + [p[1]];
      assert forall j :: 0 <= j < |q| - 1 ==> q[j] == p[j + 1];
      assert q[|q| - 2] == p[0] && q[|q| - 1] == p[1];
      assert IsPath(g, q);
      assert q[0] == q[|q| - 1];
    }
  }

  /** A node all of whose callees are safe is safe. */
  lemma SuccessorsSafe(g: Graph, x: string)
    requires forall y :: Edge(g, x, y) ==> Safe(g, y)
    ensures Safe(g, x)
  {
    forall p | IsLasso(g, p) ensures p[0] != x {
      var q := LassoTail(g, p);
      assert !Safe(g, p[1]);
    }
  }

  /** Once every edge has been removed and found to lead to a safe node, there is no cycle. */
  lemma NoCycleLeft(g: Graph)
    requires RemovedSafe(g, map[])
    ensures !HasCycle(g)
  {
    forall p | IsPath(g, p) && |p| >= 2 ensures p[0] != p[|p| - 1] {
      assert Edge(g, p[|p| - 2], p[|p| - 1]);
    }
  }

  lemma ElemsSnoc(p: seq<string>, a: string)
    ensures Elems(p + [a]) == Elems(p) + {a}
  {
    var q := p + [a];
    forall x | x in Elems(q) ensures x in Elems(p) + {a} {
      var i :| 0 <= i < |q| && q[i] == x;
      if i < |p| { assert p[i] == x; }
    }
    forall x | x in Elems(p) + {a} ensures x in Elems(q) {
      if x == a {
        assert q[|p|] == a;
      } else {
        var i :| 0 <= i < |p| && p[i] == x;
        assert q[i] == x;
      }
    }
  }

  lemma PathSnoc(g: Graph, p: seq<string>, s: string)
    requires IsPath(g, p) && Edge(g, p[|p| - 1], s)
    ensures IsPath(g, p + [s])
  {
    var q := p + [s];
    assert forall j :: 0 <= j < |p| ==> q[j] == p[j];
  }

  /** tempAdj after `s` has been erased from the callees of `a`, and `a` itself once it has
   *  no callee left. */
  function Without(t: Graph, a: string, s: string): Graph
    requires a in t
  {
    var rest := t[a] - {s};
    if rest == {} then t - {a} else t[a := rest]
  }

  /** Erasing an edge to a safe node keeps the search invariants, touches no other caller and
   *  shrinks the callee set of `a`. */
  lemma WithoutKeeps(g: Graph, t: Graph, a: string, s: string)
    requires a in t && s in t[a]
    requires NonEmpty(t) && RemovedSafe(g, t) && Safe(g, s)
    ensures NonEmpty(Without(t, a, s)) && RemovedSafe(g, Without(t, a, s))
    ensures SubGraph(Without(t, a, s), t)
    ensures forall k :: k != a && k in t ==> k in Without(t, a, s) && Without(t, a, s)[k] == t[k]
    ensures a in Without(t, a, s) ==> |Without(t, a, s)[a]| < |t[a]|
  {
    var w := Without(t, a, s);
    forall x, y | Edge(g, x, y) && !Edge(w, x, y) ensures Safe(g, y) {
      if Edge(t, x, y) { assert x == a && y == s; }
    }
    if a in w { assert w[a] < t[a]; }
  }

  lemma SubGraphTrans(a: Graph, b: Graph, c: Graph)
    requires SubGraph(a, b) && SubGraph(b, c)
    ensures SubGraph(a, c)
  {
  }

  lemma SubsetCard(a: set<string>, b: set<string>)
    requires a <= b
    ensures |a| <= |b|
  {
    assert b == a + (b - a);
  }

  /** A caller whose callees are all defined procedures, or a callee that names none. */
  ghost predicate Called(g: Graph, name: string)
  {
    exists a :: a in g && name in g[a]
  }

  predicate Defined(procs: seq<SimpleAst.Procedure>, name: string)
  {
    exists i :: 0 <= i < |procs| && procs[i].name == name
  }

  ghost predicate AllDefined(g: Graph, procs: seq<SimpleAst.Procedure>)
  {
    forall a, c :: a in g && c in g[a] ==> Defined(procs, c)
  }

  /** The find_if of missingProc: is some procedure called `name`? */
  method FindProcedure(procs: seq<SimpleAst.Procedure>, name: string) returns (found: bool)
    ensures found <==> Defined(procs, name)
  {
    var i := 0;
    while i < |procs|
      invariant 0 <= i <= |procs|
      invariant forall j :: 0 <= j < i ==> procs[j].name != name
    {
      if procs[i].name == name {
        return true;
      }
      i := i + 1;
    }
    return false;
  }

  /**
   * dfs(a, tempAdj, visited). `visited` is the current path (ghost `path`). A call that
   * returns false has removed `a` from tempAdj and left `visited` as it was; every edge it
   * removed leads to a node from which no cycle can be reached.
   */
  method Dfs(a: string, t: Graph, visited: set<string>, ghost g: Graph, ghost path: seq<string>)
    returns (found: bool, t': Graph, visited': set<string>)
    requires SubGraph(t, g) && NonEmpty(t) && RemovedSafe(g, t)
    requires visited == Elems(path)
    requires IsPath(g, path + [a])
    ensures SubGraph(t', t) && NonEmpty(t') && RemovedSafe(g, t')
    ensures forall k :: k in visited && k in t ==> k in t' && t'[k] == t[k]
    ensures found ==> HasCycle(g)
    ensures !found ==> visited' == visited && a !in t' && Safe(g, a)
    decreases |t.Keys - visited|
  {
    if a in visited {
      CycleFromPath(g, path, a);
      return true, t, visited;
    }
    visited' := visited + {a};
    t' := t;
    ElemsSnoc(path, a);
    while a in t'
      invariant SubGraph(t', t) && NonEmpty(t') && RemovedSafe(g, t')
      invariant forall k :: k in visited && k in t ==> k in t' && t'[k] == t[k]
      invariant visited' == visited + {a}
      decreases if a in t' then |t'[a]| else 0
    {
      var s :| s in t'[a];
      PathSnoc(g, path + [a], s);
      assert t'.Keys - visited' <= (t.Keys - visited) - {a};
      SubsetCard(t'.Keys - visited', (t.Keys - visited) - {a});
      var f, t2, v2 := Dfs(s, t', visited', g, path + [a]);
      if f {
        SubGraphTrans(t2, t', t);
        return true, t2, v2;
      }
      WithoutKeeps(g, t2, a, s);
      SubGraphTrans(Without(t2, a, s), t2, t');
      SubGraphTrans(Without(t2, a, s), t', t);
      visited' := v2;
      t' := Without(t2, a, s);
    }
    visited' := visited' - {a};
    forall y | Edge(g, a, y) ensures Safe(g, y) {
      assert !Edge(t', a, y);
    }
    SuccessorsSafe(g, a);
    found := false;
  }

  class CallGraph {
    var adj: Graph

    constructor ()
      ensures adj == map[]
    {
      adj := map[];
    }

    /** addEdge: record that procedure a calls procedure b. */
    method AddEdge(a: string, b: string)
      modifies this
      ensures adj == WithEdge(old(adj), a, b)
    {
      adj := adj[a := (if a in adj then adj[a] else {}) + {b}];
    }

    /** cycleExists: run the depth-first search from some caller of the copy until the copy is
     *  empty; adj itself is not touched. */
    method CycleExists() returns (r: bool)
      ensures r <==> HasCycle(adj)
    {
      var tempAdj := map k | k in adj && adj[k] != {} :: adj[k];
      var visited: set<string> := {};
      while tempAdj != map[]
        invariant SubGraph(tempAdj, adj) && NonEmpty(tempAdj) && RemovedSafe(adj, tempAdj)
        invariant visited == {}
        decreases |tempAdj.Keys|
      {
        var a :| a in tempAdj;
        assert Elems([]) == {};
        var res, t2, v2 := Dfs(a, tempAdj, visited, adj, []);
        if res {
          return true;
        }
        SubsetCard(t2.Keys, tempAdj.Keys - {a});
        tempAdj, visited := t2, v2;
      }
      NoCycleLeft(adj);
      return false;
    }

    /** missingProc: a callee that no procedure defines, or "" when every callee is defined. */
    method MissingProc(procs: seq<SimpleAst.Procedure>) returns (r: string)
      ensures (Called(adj, r) && !Defined(procs, r)) || (r == "" && AllDefined(adj, procs))
      ensures AllDefined(adj, procs) ==> r == ""
    {
      var callers := adj.Keys;
      while callers != {}
        invariant callers <= adj.Keys
        invariant forall a, c :: a in adj && a !in callers && c in adj[a] ==> Defined(procs, c)
      {
        var a :| a in callers;
        var callees := adj[a];
        while callees != {}
          invariant callees <= adj[a]
          invariant forall c :: c in adj[a] && c !in callees ==> Defined(procs, c)
        {
          var callee :| callee in callees;
          var found := FindProcedure(procs, callee);
          if !found {
            return callee;
          }
          callees := callees - {callee};
        }
        callers := callers - {a};
      }
      return "";
    }
  }
}
