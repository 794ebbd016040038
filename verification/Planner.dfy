/** The dependency planner of the signed catalog: a depth-first search with an explicit visiting set. */
module Planner {

  datatype Reason = Planned | PlanCycle | PlanIncomplete

  /** Package identifiers and what each one depends on. */
  type Graph = map<string, seq<string>>

  // ----- what a plan is, without the search -----

  predicate Edge(g: Graph, a: string, b: string) {
    a in g && b in g[a]
  }

  /** A non-empty walk along dependencies. */
  predicate IsPath(g: Graph, p: seq<string>) {
    0 < |p| && forall i :: 0 < i < |p| ==> Edge(g, p[i - 1], p[i])
  }

  /** A walk from `root` that comes back to a package it has already been at. */
  predicate Loops(g: Graph, root: string, p: seq<string>) {
    IsPath(g, p) && p[0] == root && p[|p| - 1] in p[..|p| - 1]
  }

  /** A walk from `root` that ends at a package nobody offers. */
  predicate Misses(g: Graph, root: string, p: seq<string>) {
    IsPath(g, p) && p[0] == root && p[|p| - 1] !in g
  }

  /** Everything reachable exists and nothing reachable depends on itself. */
  ghost predicate Plannable(g: Graph, root: string) {
    (forall p :: !Loops(g, root, p)) && (forall p :: !Misses(g, root, p))
  }

  // ----- the certificate the search builds -----

  /** Packages in finishing order: each one exists and depends only on earlier ones. */
  predicate Ordered(g: Graph, order: seq<string>) {
    && (forall i, j :: 0 <= i < j < |order| ==> order[i] != order[j])
    && forall i :: 0 <= i < |order| ==> order[i] in g && forall d :: d in g[order[i]] ==> d in order[..i]
  }

  /** Along a walk from an ordered package, positions only go down. */
  lemma {:induction false} WalkDescends(g: Graph, order: seq<string>, p: seq<string>, i: nat) returns (at: nat)
    requires Ordered(g, order) && IsPath(g, p) && p[0] in order && i < |p|
    ensures at < |order| && order[at] == p[i]
    ensures forall j :: 0 <= j < i ==> p[j] in order && p[j] != p[i]
    ensures forall j :: 0 <= j < i ==> p[j] !in order[..at]
    decreases i
  {
    if i == 0 {
      at :| 0 <= at < |order| && order[at] == p[0];
    } else {
      var above := WalkDescends(g, order, p, i - 1);
      assert Edge(g, p[i - 1], p[i]) && p[i] in order[..above];
      at :| 0 <= at < above && order[at] == p[i];
      forall j | 0 <= j < i ensures p[j] in order && p[j] !in order[..at] && p[j] != p[i] {
        assert order[..at] <= order[..above];
        if j == i - 1 {
          assert p[j] == order[above];
        }
      }
    }
  }

  /** An order that contains the root is a proof that the root can be planned. */
  lemma {:induction false} OrderPlans(g: Graph, order: seq<string>, root: string)
    requires Ordered(g, order) && root in order
    ensures Plannable(g, root)
  {
    forall p ensures !Loops(g, root, p) && !Misses(g, root, p) {
      if IsPath(g, p) && p[0] == root {
        var at := WalkDescends(g, order, p, |p| - 1);
      }
    }
  }

  lemma {:induction false} OrderedSnoc(g: Graph, order: seq<string>, id: string)
    requires Ordered(g, order) && id in g && id !in order && forall d :: d in g[id] ==> d in order
    ensures Ordered(g, order + [id])
  {
    var longer := order + [id];
    forall i | 0 <= i < |longer| ensures longer[i] in g && forall d :: d in g[longer[i]] ==> d in longer[..i] {
      if i == |order| { assert longer[..i] == order; } else { assert longer[..i] == order[..i]; }
    }
  }

  lemma {:induction false} PathSnoc(g: Graph, p: seq<string>, id: string)
    requires IsPath(g, p) && Edge(g, p[|p| - 1], id)
    ensures IsPath(g, p + [id])
  {
  }

  // ----- the search -----

  class Search {
    const graph: Graph
    var visiting: set<string>
    var visited: set<string>
    ghost var order: seq<string>

    constructor (g: Graph)
      ensures graph == g && visiting == {} && visited == {} && order == []
    {
      graph := g;
      visiting, visited, order := {}, {}, [];
    }

    /** `path` is the walk in progress, its last package being about to be visited. */
    ghost predicate Valid(path: seq<string>)
      reads this
    {
      && IsPath(graph, path)
      && visiting == (set i | 0 <= i < |path| - 1 :: path[i]) && visiting <= graph.Keys && visiting !! visited
      && visited == (set x | x in order) && Ordered(graph, order)
    }

    /** Terminates on every graph; `walk` shows why a refusal is right. */
    method Visit(id: string, ghost path: seq<string>) returns (reason: Reason, ghost walk: seq<string>)
      requires Valid(path) && path[|path| - 1] == id
      modifies this
      ensures old(order) <= order
      ensures reason.Planned? ==> Valid(path) && visiting == old(visiting) && id in order
      ensures reason.PlanCycle? ==> Loops(graph, path[0], walk)
      ensures reason.PlanIncomplete? ==> Misses(graph, path[0], walk)
      decreases graph.Keys - visiting
    {
      walk := path;
      if id in visiting {
        return PlanCycle, path;
      }
      if id in visited { return Planned, path; }
      if id !in graph { return PlanIncomplete, path; }
      ghost var before := visiting;
      visiting := visiting + {id};
      var dependencies := graph[id];
      for k := 0 to |dependencies|
        invariant visiting == before + {id} && old(order) <= order
        invariant visiting <= graph.Keys && visiting !! visited && visited == (set x | x in order) &&
                  Ordered(graph, order)
        invariant forall j :: 0 <= j < k ==> dependencies[j] in order
      {
        ghost var longer := path + [dependencies[k]];
        PathSnoc(graph, path, dependencies[k]);
        assert (set i | 0 <= i < |longer| - 1 :: longer[i]) == before + {id} by {
          assert forall i :: 0 <= i < |path| ==> longer[i] == path[i];
        }
        reason, walk := Visit(dependencies[k], longer);
        if !reason.Planned? { return; }
      }
      visiting := visiting - {id};
      visited := visited + {id};
      OrderedSnoc(graph, order, id);
      order := order + [id];
      return Planned, path;
    }
  }

  /** The verdict on a catalog: a missing target needs no plan, and any other is planned exactly when it can be. */
  method Plan(g: Graph, root: string) returns (reason: Reason)
    ensures reason.Planned? <==> root !in g || Plannable(g, root)
    ensures reason.PlanCycle? ==> exists p :: Loops(g, root, p)
    ensures reason.PlanIncomplete? ==> exists p :: Misses(g, root, p)
  {
    if root !in g { return Planned; }
    var s := new Search(g);
    ghost var walk;
    reason, walk := s.Visit(root, [root]);
    if reason.Planned? { OrderPlans(g, s.order, root); }
  }
}
