/** The graph functions of the plan view: focus set and layered layout. */
module DagView {
  import opened Text
  import opened Digraph

  /** A DAG node as the view receives it; an empty id or input is one the JSON did not supply. */
  datatype Node = Node(id: string, inputs: seq<string>, kind: string, title: string)

  function Filled(xs: seq<string>): seq<string> {
    if xs == [] then [] else (if xs[0] == "" then [] else [xs[0]]) + Filled(xs[1..])
  }

  /** inputsById: the last node with an id decides. */
  function InputsById(nodes: seq<Node>): Graph {
    if nodes == [] then map[]
    else
      var n := nodes[|nodes| - 1];
      var m := InputsById(nodes[..|nodes| - 1]);
      if n.id == "" then m else m[n.id := Filled(n.inputs)]
  }

  function Within(xs: seq<string>, keys: set<string>): seq<string> {
    if xs == [] then [] else (if xs[0] in keys then [xs[0]] else []) + Within(xs[1..], keys)
  }

  /** The edges of m between known nodes. */
  function Known(m: Graph): Graph {
    map a | a in m :: Within(m[a], m.Keys)
  }

  lemma {:induction false} WithinMembers(xs: seq<string>, keys: set<string>)
    ensures forall x :: x in Within(xs, keys) <==> x in xs && x in keys
  {
    if xs != [] {
      WithinMembers(xs[1..], keys);
      assert xs == [xs[0]] + xs[1..];
    }
  }

  /** The edges of Known(m) are exactly the inputs that are known nodes. */
  lemma KnownSucc(m: Graph, a: string)
    ensures forall b :: b in Succ(Known(m), a) <==> b in Succ(m, a) && b in m
  {
    if a in m {
      WithinMembers(m[a], m.Keys);
    }
  }

  // ----- The same over the nodes themselves -----

  ghost predicate IsNode(nodes: seq<Node>, id: string) {
    id != "" && exists i :: 0 <= i < |nodes| && nodes[i].id == id
  }

  /** Node i is the last one with that id. */
  ghost predicate LastNamed(nodes: seq<Node>, id: string, i: nat) {
    id != "" && i < |nodes| && nodes[i].id == id && forall j | i < j < |nodes| :: nodes[j].id != id
  }

  /** The node b is among the inputs of the node a; of several nodes called a the last one counts. */
  ghost predicate Feeds(nodes: seq<Node>, b: string, a: string) {
    IsNode(nodes, b) && exists i: nat :: LastNamed(nodes, a, i) && b in nodes[i].inputs
  }

  /** Node a needs node b, directly or through others. */
  ghost predicate Needs(nodes: seq<Node>, a: string, b: string) {
    exists p: seq<string> :: |p| >= 2 && p[0] == a && p[|p| - 1] == b && Chain(nodes, p)
  }

  ghost predicate Chain(nodes: seq<Node>, p: seq<string>) {
    forall k | 0 <= k < |p| - 1 :: Feeds(nodes, p[k + 1], p[k])
  }

  lemma {:induction false} FilledMembers(xs: seq<string>, x: string)
    ensures x in Filled(xs) <==> x in xs && x != ""
  {
    if xs != [] {
      FilledMembers(xs[1..], x);
      assert xs == [xs[0]] + xs[1..];
    }
  }

  lemma {:induction false} IdsAreNodes(nodes: seq<Node>, k: string)
    ensures k in InputsById(nodes) <==> IsNode(nodes, k)
  {
    if nodes != [] {
      var init := nodes[..|nodes| - 1];
      IdsAreNodes(init, k);
      if IsNode(init, k) {
        var i :| 0 <= i < |init| && init[i].id == k;
        assert nodes[i].id == k;
      }
    }
  }

  /** The inputs on record are those of the last node with the id, without empty ones. */
  lemma {:induction false} InputsOfLast(nodes: seq<Node>, a: string, i: nat, b: string)
    requires LastNamed(nodes, a, i)
    ensures b in Succ(InputsById(nodes), a) <==> b in nodes[i].inputs && b != ""
  {
    var n := |nodes| - 1;
    if i == n {
      FilledMembers(nodes[n].inputs, b);
    } else {
      InputsOfLast(nodes[..n], a, i, b);
    }
  }

  lemma {:induction false} LastExists(nodes: seq<Node>, a: string) returns (i: nat)
    requires IsNode(nodes, a)
    ensures LastNamed(nodes, a, i)
  {
    var n := |nodes| - 1;
    if nodes[n].id == a {
      i := n;
    } else {
      i := LastExists(nodes[..n], a);
    }
  }

  /** The edges between known nodes are what the nodes' own inputs say. */
  lemma EdgesAreFeeds(nodes: seq<Node>, a: string, b: string)
    ensures b in Succ(Known(InputsById(nodes)), a) <==> Feeds(nodes, b, a)
  {
    KnownSucc(InputsById(nodes), a);
    IdsAreNodes(nodes, a);
    IdsAreNodes(nodes, b);
    if IsNode(nodes, a) {
      var i := LastExists(nodes, a);
      InputsOfLast(nodes, a, i, b);
      forall j: nat | LastNamed(nodes, a, j)
        ensures j == i
      {
      }
    }
  }

  lemma PathsAreChains(nodes: seq<Node>, p: seq<string>)
    ensures IsPath(Known(InputsById(nodes)), p) <==> Chain(nodes, p)
  {
    forall k | 0 <= k < |p| - 1
      ensures p[k + 1] in Succ(Known(InputsById(nodes)), p[k]) <==> Feeds(nodes, p[k + 1], p[k])
    {
      EdgesAreFeeds(nodes, p[k], p[k + 1]);
    }
  }

  lemma NeedsIsReach(nodes: seq<Node>, a: string, b: string)
    ensures Needs(nodes, a, b) <==> Reach(Known(InputsById(nodes)), a, b)
  {
    var g := Known(InputsById(nodes));
    ReachIffPath(g, a, b);
    forall p
      ensures PathOf(g, a, b, p) <==> |p| >= 2 && p[0] == a && p[|p| - 1] == b && Chain(nodes, p)
    {
      PathsAreChains(nodes, p);
    }
  }

  // ----- Longest paths -----

  /** A path of n edges starts at a. */
  ghost predicate HasPath(g: Graph, a: string, n: nat)
    decreases n
  {
    n == 0 || exists s :: s in Succ(g, a) && HasPath(g, s, n - 1)
  }

  /** d is the number of edges on the longest path from a. */
  ghost predicate Longest(g: Graph, a: string, d: nat) {
    HasPath(g, a, d) && !HasPath(g, a, d + 1)
  }

  /** No cycle can be reached from a. */
  ghost predicate Grounded(g: Graph, a: string) {
    !OnCycle(g, a) && forall c | Reach(g, a, c) :: !OnCycle(g, c)
  }

  /** A chain of n inputs starts at node a, each node fed by the next. */
  ghost predicate ChainFrom(nodes: seq<Node>, a: string, n: nat) {
    exists p: seq<string> :: |p| == n + 1 && p[0] == a && Chain(nodes, p)
  }

  /** d is the number of inputs on the longest chain from node a. */
  ghost predicate LongestChain(nodes: seq<Node>, a: string, d: nat) {
    ChainFrom(nodes, a, d) && !ChainFrom(nodes, a, d + 1)
  }

  /** Neither node a nor anything it needs needs itself. */
  ghost predicate OffCycles(nodes: seq<Node>, a: string) {
    !Needs(nodes, a, a) && forall c | Needs(nodes, a, c) :: !Needs(nodes, c, c)
  }

  lemma PathTail(g: Graph, p: seq<string>)
    requires IsPath(g, p) && p != []
    ensures IsPath(g, p[1..])
  {
    forall k | 0 <= k < |p[1..]| - 1
      ensures p[1..][k + 1] in Succ(g, p[1..][k])
    {
      assert p[k + 1 + 1] in Succ(g, p[k + 1]);
    }
  }

  lemma {:induction false} PathFrom(g: Graph, a: string, n: nat)
    ensures HasPath(g, a, n) <==> exists p :: |p| == n + 1 && p[0] == a && IsPath(g, p)
    decreases n
  {
    if n == 0 {
      assert IsPath(g, [a]);
    } else {
      if HasPath(g, a, n) {
        var s :| s in Succ(g, a) && HasPath(g, s, n - 1);
        PathFrom(g, s, n - 1);
        var rest :| |rest| == n && rest[0] == s && IsPath(g, rest);
        assert IsPath(g, [a] + rest);
      }
      if p :| |p| == n + 1 && p[0] == a && IsPath(g, p) {
        PathTail(g, p);
        PathFrom(g, p[1], n - 1);
      }
    }
  }

  lemma ChainIsPath(nodes: seq<Node>, a: string, n: nat)
    ensures ChainFrom(nodes, a, n) <==> HasPath(Known(InputsById(nodes)), a, n)
  {
    PathFrom(Known(InputsById(nodes)), a, n);
    forall p
      ensures IsPath(Known(InputsById(nodes)), p) <==> Chain(nodes, p)
    {
      PathsAreChains(nodes, p);
    }
  }

  lemma LongestChainIff(nodes: seq<Node>, a: string, d: nat)
    ensures LongestChain(nodes, a, d) <==> Longest(Known(InputsById(nodes)), a, d)
  {
    ChainIsPath(nodes, a, d);
    ChainIsPath(nodes, a, d + 1);
  }

  lemma OffCyclesIff(nodes: seq<Node>, a: string)
    ensures OffCycles(nodes, a) <==> Grounded(Known(InputsById(nodes)), a)
  {
    NeedsIsReach(nodes, a, a);
    forall c
      ensures Needs(nodes, a, c) <==> Reach(Known(InputsById(nodes)), a, c)
      ensures Needs(nodes, c, c) <==> Reach(Known(InputsById(nodes)), c, c)
    {
      NeedsIsReach(nodes, a, c);
      NeedsIsReach(nodes, c, c);
    }
  }

  lemma GroundedStep(g: Graph, a: string, s: string)
    requires Grounded(g, a) && s in Succ(g, a)
    ensures Grounded(g, s)
  {
    ReachStep(g, a, s);
    forall c | Reach(g, s, c)
      ensures !OnCycle(g, c)
    {
      ReachTrans(g, a, s, c);
    }
  }

  lemma {:induction false} ShorterPath(g: Graph, a: string, n: nat, m: nat)
    requires HasPath(g, a, n) && m <= n
    ensures HasPath(g, a, m)
    decreases n
  {
    if 0 < m {
      var s :| s in Succ(g, a) && HasPath(g, s, n - 1);
      ShorterPath(g, s, n - 1, m - 1);
    }
  }

  lemma LongestUnique(g: Graph, a: string, d: nat, e: nat)
    requires Longest(g, a, d) && Longest(g, a, e)
    ensures d == e
  {
    if d < e {
      ShorterPath(g, a, e, d + 1);
    } else if e < d {
      ShorterPath(g, a, d, e + 1);
    }
  }

  /** An edge leads from a larger to a smaller longest path. */
  lemma EdgeShortens(g: Graph, a: string, s: string, d: nat, e: nat)
    requires s in Succ(g, a) && Longest(g, a, d) && Longest(g, s, e)
    ensures e < d
  {
    assert HasPath(g, a, e + 1);
    if d < e + 1 {
      ShorterPath(g, a, e + 1, d + 1);
    }
  }

  /** From a cycle there are paths of every length. */
  lemma {:induction false} CyclesGoOn(g: Graph, a: string, c: string, n: nat)
    requires OnCycle(g, c) && (a == c || Reach(g, a, c))
    ensures HasPath(g, a, n)
    decreases n
  {
    if n > 0 {
      var s := ReachFirst(g, a, c);
      CyclesGoOn(g, s, c, n - 1);
    }
  }

  /** d is the longest path from a as far as its first i inputs are concerned. */
  ghost predicate SoFar(m: Graph, a: string, i: nat, d: nat)
    requires a in m && i <= |m[a]|
  {
    Grounded(Known(m), a) ==>
      && HasPath(Known(m), a, d)
      && forall k | 0 <= k < i && m[a][k] in m :: !HasPath(Known(m), m[a][k], d)
  }

  ghost predicate DepthOf(m: Graph, a: string, d: nat) {
    Grounded(Known(m), a) ==> Longest(Known(m), a, d)
  }

  lemma InputTaken(m: Graph, a: string, i: nat, d: nat, e: nat)
    requires a in m && i < |m[a]| && m[a][i] in m
    requires SoFar(m, a, i, d) && DepthOf(m, m[a][i], e)
    ensures SoFar(m, a, i + 1, if e + 1 > d then e + 1 else d)
  {
    var g := Known(m);
    if Grounded(g, a) {
      KnownSucc(m, a);
      GroundedStep(g, a, m[a][i]);
      var best := if e + 1 > d then e + 1 else d;
      assert HasPath(g, a, e + 1);
      forall k | 0 <= k <= i && m[a][k] in m
        ensures !HasPath(g, m[a][k], best)
      {
        if HasPath(g, m[a][k], best) {
          ShorterPath(g, m[a][k], best, if k < i then d else e + 1);
        }
      }
    }
  }

  lemma AllTaken(m: Graph, a: string, d: nat)
    requires a in m && SoFar(m, a, |m[a]|, d)
    ensures DepthOf(m, a, d)
  {
    KnownSucc(m, a);
  }

  lemma Descend(m: Graph, open: set<string>, a: string, input: string)
    requires a in m && input in m[a] && input in m && AllLeadTo(Known(m), open, a)
    ensures AllLeadTo(Known(m), open + {a}, input)
  {
    KnownSucc(m, a);
    PathsExtend(Known(m), open, a, input);
  }

  /** The memoised depth computation; visiting holds the nodes whose computation is under way. */
  class Depths {
    const m: Graph
    var depth: map<string, nat>
    var visiting: set<string>

    constructor (m: Graph)
      ensures this.m == m && depth == map[] && visiting == {}
    {
      this.m := m;
      depth := map[];
      visiting := {};
    }

    ghost predicate Valid()
      reads this
    {
      && visiting <= m.Keys && depth.Keys <= m.Keys
      && forall k | k in depth :: DepthOf(m, k, depth[k])
    }

    /** On every graph the computation ends, and from a node that reaches no cycle it returns the length of
        the longest path. */
    method DepthFor(id: string) returns (d: nat)
      requires Valid() && id in m
      requires AllLeadTo(Known(m), visiting, id)
      modifies this
      ensures Valid() && visiting == old(visiting)
      ensures old(depth).Keys <= depth.Keys
      ensures id !in old(visiting) ==> id in depth
      ensures DepthOf(m, id, d)
      decreases m.Keys - visiting, 0
    {
      if id in depth {
        return depth[id];
      }
      if id in visiting {
        return 0;
      }
      visiting := visiting + {id};
      d := OverInputs(id, old(visiting));
      visiting := visiting - {id};
      depth := depth[id := d];
    }

    /** The loop over the inputs of a node under way. */
    method OverInputs(id: string, ghost open: set<string>) returns (d: nat)
      requires Valid() && id in m && visiting == open + {id}
      requires AllLeadTo(Known(m), open, id)
      modifies this
      ensures Valid() && visiting == old(visiting)
      ensures old(depth).Keys <= depth.Keys
      ensures DepthOf(m, id, d)
      decreases m.Keys - visiting, 1
    {
      var inputs := m[id];
      d := 0;
      for i := 0 to |inputs|
        invariant Valid() && visiting == open + {id} && old(depth).Keys <= depth.Keys
        invariant SoFar(m, id, i, d)
      {
        if inputs[i] !in m {
          continue;
        }
        Descend(m, open, id, inputs[i]);
        var e := DepthFor(inputs[i]);
        InputTaken(m, id, i, d, e);
        if e + 1 > d {
          d := e + 1;
        }
      }
      AllTaken(m, id, d);
    }
  }

  lemma AcyclicGrounded(g: Graph, a: string)
    requires Acyclic(g)
    ensures Grounded(g, a)
  {
  }

  /** The depth is a longest path exactly when no cycle can be reached; otherwise there is none. */
  lemma LongestIffGrounded(g: Graph, a: string, d: nat)
    requires Grounded(g, a) ==> Longest(g, a, d)
    ensures Grounded(g, a) <==> Longest(g, a, d)
  {
    if !Grounded(g, a) {
      var c :| (c == a || Reach(g, a, c)) && OnCycle(g, c);
      CyclesGoOn(g, a, c, d + 1);
    }
  }
}
