/** The order in which a worker prepares the packs of a job. */
module PackOrder {
  import opened Artifact
  import opened Digraph

  function Digests(ids: seq<ID>): set<string> {
    set t | t in ids :: t.digest
  }

  function PackInputs(inputs: seq<ID>): seq<string> {
    if inputs == [] then []
    else (if inputs[0].kind.Pack? then [inputs[0].digest] else []) + PackInputs(inputs[1..])
  }

  /** The pack nodes of a DAG by digest; a later node replaces an earlier one. */
  function PackNodes(dag: seq<DAGNode>): map<string, DAGNode> {
    if dag == [] then map[]
    else
      var n := dag[|dag| - 1];
      var nodes := PackNodes(dag[..|dag| - 1]);
      if n.kind.Pack? then nodes[n.id.digest := n] else nodes
  }

  /** Edges from every pack to the packs it needs. */
  function PackGraph(dag: seq<DAGNode>): Graph {
    var nodes := PackNodes(dag);
    map d | d in nodes :: PackInputs(nodes[d].inputs)
  }

  /** Node i is the last pack node with that digest. */
  ghost predicate LastPack(dag: seq<DAGNode>, digest: string, i: nat) {
    && i < |dag| && dag[i].kind.Pack? && dag[i].id.digest == digest
    && forall j | i < j < |dag| && dag[j].kind.Pack? :: dag[j].id.digest != digest
  }

  /** The pack a has the pack b among its inputs; of several nodes for a the last one counts. */
  ghost predicate PackInput(dag: seq<DAGNode>, a: string, b: string) {
    exists i: nat :: LastPack(dag, a, i) && ID(Pack, b) in dag[i].inputs
  }

  /** The pack a needs the pack b, directly or through others. */
  ghost predicate PackNeeds(dag: seq<DAGNode>, a: string, b: string) {
    exists p: seq<string> :: |p| >= 2 && p[0] == a && p[|p| - 1] == b && PackChain(dag, p)
  }

  ghost predicate PackChain(dag: seq<DAGNode>, p: seq<string>) {
    forall k | 0 <= k < |p| - 1 :: PackInput(dag, p[k], p[k + 1])
  }

  lemma {:induction false} PackInputsMember(inputs: seq<ID>, d: string)
    ensures d in PackInputs(inputs) <==> ID(Pack, d) in inputs
  {
    if inputs != [] {
      PackInputsMember(inputs[1..], d);
      assert inputs == [inputs[0]] + inputs[1..];
      assert inputs[0].kind.Pack? ==> inputs[0] == ID(Pack, inputs[0].digest);
    }
  }

  lemma {:induction false} PackNodesLast(dag: seq<DAGNode>, d: string)
    ensures forall i: nat | LastPack(dag, d, i) :: d in PackNodes(dag) && PackNodes(dag)[d] == dag[i]
    ensures d in PackNodes(dag) ==> exists i: nat :: LastPack(dag, d, i)
  {
    if dag != [] {
      var n := |dag| - 1;
      PackNodesLast(dag[..n], d);
      forall i: nat | i < n && !(dag[n].kind.Pack? && dag[n].id.digest == d)
        ensures LastPack(dag, d, i) <==> LastPack(dag[..n], d, i)
      {
      }
      if dag[n].kind.Pack? && dag[n].id.digest == d {
        assert LastPack(dag, d, n);
      }
    }
  }

  lemma EdgeIsInput(dag: seq<DAGNode>, a: string, b: string)
    ensures b in Succ(PackGraph(dag), a) <==> PackInput(dag, a, b)
  {
    PackNodesLast(dag, a);
    forall i: nat | i < |dag|
      ensures b in PackInputs(dag[i].inputs) <==> ID(Pack, b) in dag[i].inputs
    {
      PackInputsMember(dag[i].inputs, b);
    }
  }

  lemma PathsAreChains(dag: seq<DAGNode>, p: seq<string>)
    ensures IsPath(PackGraph(dag), p) <==> PackChain(dag, p)
  {
    forall k | 0 <= k < |p| - 1
      ensures p[k + 1] in Succ(PackGraph(dag), p[k]) <==> PackInput(dag, p[k], p[k + 1])
    {
      EdgeIsInput(dag, p[k], p[k + 1]);
    }
  }

  lemma NeedsIsReach(dag: seq<DAGNode>, a: string, b: string)
    ensures PackNeeds(dag, a, b) <==> Reach(PackGraph(dag), a, b)
  {
    var g := PackGraph(dag);
    ReachIffPath(g, a, b);
    forall p
      ensures PathOf(g, a, b, p) <==> |p| >= 2 && p[0] == a && p[|p| - 1] == b && PackChain(dag, p)
    {
      PathsAreChains(dag, p);
    }
  }

  /** In ids every pack that a pack not on a cycle needs, directly or not, stands before that pack. */
  ghost predicate NeedsFirst(dag: seq<DAGNode>, ids: seq<ID>) {
    forall i, j | 0 <= i < |ids| && 0 <= j < |ids| && PackNeeds(dag, ids[i].digest, ids[j].digest)
                  && !PackNeeds(dag, ids[i].digest, ids[i].digest) :: j < i
  }

  /** All digests the search can meet. */
  function Universe(g: Graph, targets: set<string>): set<string> {
    g.Keys + targets + set a, b | a in g && b in g[a] :: b
  }

  /** In ids every target that a pack not on a cycle needs, directly or not, stands before that pack. */
  ghost predicate DepsFirst(g: Graph, ids: seq<ID>) {
    forall i, j | 0 <= i < |ids| && 0 <= j < |ids| && !OnCycle(g, ids[i].digest)
                  && Reach(g, ids[i].digest, ids[j].digest) :: j < i
  }

  ghost predicate Distinct(ids: seq<ID>) {
    forall i, j | 0 <= i < j < |ids| :: ids[i] != ids[j]
  }

  /** What the depth-first search keeps; open holds the digests whose visit is under way. */
  ghost predicate SearchInv(g: Graph, targets: set<string>, visited: set<string>, ordered: seq<ID>, open: set<string>) {
    && open <= visited <= Universe(g, targets)
    && (forall u, s | u in visited - open && s in Succ(g, u) :: s in visited)
    && (forall t | t in ordered :: t.kind.Pack?)
    && Digests(ordered) == (visited - open) * targets
    && Distinct(ordered)
    && forall i, t | 0 <= i < |ordered| && t in targets && !OnCycle(g, ordered[i].digest)
                     && Reach(g, ordered[i].digest, t) :: ID(Pack, t) in ordered[..i]
  }

  lemma Opened(g: Graph, targets: set<string>, visited: set<string>, ordered: seq<ID>, open: set<string>, d: string)
    requires SearchInv(g, targets, visited, ordered, open) && d in Universe(g, targets) && d !in visited
    ensures SearchInv(g, targets, visited + {d}, ordered, open + {d})
  {
    assert visited + {d} - (open + {d}) == visited - open;
  }

  /** When the visit of d ends, all targets d needs have been listed, unless d is on a cycle. */
  lemma NeedsListed(g: Graph, targets: set<string>, visited: set<string>, ordered: seq<ID>, open: set<string>, d: string,
                    t: string)
    requires SearchInv(g, targets, visited, ordered, open + {d})
    requires forall s | s in Succ(g, d) :: s in visited
    requires AllLeadTo(g, open, d)
    requires t in targets && !OnCycle(g, d) && Reach(g, d, t)
    ensures ID(Pack, t) in ordered
  {
    var inner := open + {d};
    var n: nat :| ReachIn(g, d, t, n);
    ReachInside(g, d, t, n, visited - inner, inner);
    if t !in visited - inner {
      var w :| w in inner && Reach(g, d, w);
      if w != d {
        ReachTrans(g, d, w, d);
      }
    }
    assert t in Digests(ordered);
  }

  lemma Closed(g: Graph, targets: set<string>, visited: set<string>, ordered: seq<ID>, open: set<string>, d: string)
    requires SearchInv(g, targets, visited, ordered, open + {d}) && d !in open
    requires forall s | s in Succ(g, d) :: s in visited
    requires AllLeadTo(g, open, d)
    ensures SearchInv(g, targets, visited, if d in targets then ordered + [ID(Pack, d)] else ordered, open)
  {
    assert visited - open == (visited - (open + {d})) + {d};
    if d in targets {
      var longer := ordered + [ID(Pack, d)];
      assert d !in Digests(ordered);
      assert forall t :: t in longer <==> t in ordered || t == ID(Pack, d);
      assert Digests(longer) == Digests(ordered) + {d};
      forall i, t | 0 <= i < |longer| && t in targets && !OnCycle(g, longer[i].digest) && Reach(g, longer[i].digest, t)
        ensures ID(Pack, t) in longer[..i]
      {
        if i < |ordered| {
          assert longer[..i] == ordered[..i];
        } else {
          NeedsListed(g, targets, visited, ordered, open, d, t);
          assert longer[..i] == ordered;
        }
      }
    }
  }

  lemma FirstOverInputs(dag: seq<DAGNode>, ids: seq<ID>)
    requires DepsFirst(PackGraph(dag), ids)
    ensures NeedsFirst(dag, ids)
  {
    forall i, j | 0 <= i < |ids| && 0 <= j < |ids| && PackNeeds(dag, ids[i].digest, ids[j].digest)
                  && !PackNeeds(dag, ids[i].digest, ids[i].digest)
      ensures j < i
    {
      NeedsIsReach(dag, ids[i].digest, ids[j].digest);
      NeedsIsReach(dag, ids[i].digest, ids[i].digest);
    }
  }

  /** The state of the depth-first search. */
  class Search {
    const g: Graph
    const targets: set<string>
    var visited: set<string>
    var ordered: seq<ID>

    constructor (g: Graph, targets: set<string>)
      ensures this.g == g && this.targets == targets && visited == {} && ordered == []
    {
      this.g := g;
      this.targets := targets;
      visited := {};
      ordered := [];
    }

    ghost predicate Valid(open: set<string>)
      reads this
    {
      SearchInv(g, targets, visited, ordered, open)
    }

    method Visit(d: string, ghost open: set<string>)
      requires Valid(open) && d in Universe(g, targets)
      requires AllLeadTo(g, open, d)
      modifies this
      ensures Valid(open) && d in visited && old(visited) <= visited
      decreases Universe(g, targets) - visited
    {
      if d in visited {
        return;
      }
      Opened(g, targets, visited, ordered, open, d);
      visited := visited + {d};
      var inputs := Succ(g, d);
      for i := 0 to |inputs|
        invariant Valid(open + {d}) && old(visited) + {d} <= visited
        invariant forall k | 0 <= k < i :: inputs[k] in visited
      {
        PathsExtend(g, open, d, inputs[i]);
        Visit(inputs[i], open + {d});
      }
      Closed(g, targets, visited, ordered, open, d);
      if d in targets {
        ordered := ordered + [ID(Pack, d)];
      }
    }
  }

  /** The order is complete and, for every pack not on a cycle, dependencies come first. */
  method TopoSortFromDag(targets: seq<ID>, dag: seq<DAGNode>) returns (out: seq<ID>)
    ensures forall t | t in out :: t.kind.Pack?
    ensures Digests(out) == Digests(targets) && Distinct(out)
    ensures DepsFirst(PackGraph(dag), out) && NeedsFirst(dag, out)
  {
    var nodes: map<string, DAGNode> := map[];
    for i := 0 to |dag|
      invariant nodes == PackNodes(dag[..i])
    {
      assert dag[..i + 1][..i] == dag[..i];
      if dag[i].kind.Pack? {
        nodes := nodes[dag[i].id.digest := dag[i]];
      }
    }
    assert dag[..|dag|] == dag;
    var g: Graph := map d | d in nodes :: PackInputs(nodes[d].inputs);
    var ids := Digests(targets);
    var s := new Search(g, ids);
    var rest := ids;
    while rest != {}
      invariant s.g == g && s.targets == ids && rest <= ids
      invariant s.Valid({}) && ids - rest <= s.visited
      decreases rest
    {
      var d :| d in rest;
      rest := rest - {d};
      s.Visit(d, {});
    }
    out := s.ordered;
    assert s.visited - {} == s.visited;
    forall i, j | 0 <= i < |out| && 0 <= j < |out| && !OnCycle(g, out[i].digest)
                  && Reach(g, out[i].digest, out[j].digest)
      ensures j < i
    {
      assert out[j].digest in Digests(out);
      assert ID(Pack, out[j].digest) in out[..i];
    }
    FirstOverInputs(dag, out);
  }
}
