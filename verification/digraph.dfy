/** Directed graphs given by successor lists, and reachability in them. */
module Digraph {

  type Graph = map<string, seq<string>>

  function Succ(g: Graph, a: string): seq<string> {
    if a in g then g[a] else []
  }

  /** There is a path of n + 1 edges from a to b. */
  ghost predicate ReachIn(g: Graph, a: string, b: string, n: nat)
    decreases n
  {
    if n == 0 then b in Succ(g, a) else exists m :: m in Succ(g, a) && ReachIn(g, m, b, n - 1)
  }

  /** There is a path of at least one edge from a to b. */
  ghost predicate Reach(g: Graph, a: string, b: string) {
    exists n: nat :: ReachIn(g, a, b, n)
  }

  ghost predicate OnCycle(g: Graph, a: string) {
    Reach(g, a, a)
  }

  ghost predicate Acyclic(g: Graph) {
    forall a :: !OnCycle(g, a)
  }

  lemma ReachStep(g: Graph, a: string, b: string)
    requires b in Succ(g, a)
    ensures Reach(g, a, b)
  {
    assert ReachIn(g, a, b, 0);
  }

  lemma {:induction false} ReachInTrans(g: Graph, a: string, b: string, c: string, m: nat, n: nat)
    requires ReachIn(g, a, b, m) && ReachIn(g, b, c, n)
    ensures ReachIn(g, a, c, m + n + 1)
    decreases m
  {
    if m == 0 {
    } else {
      var x :| x in Succ(g, a) && ReachIn(g, x, b, m - 1);
      ReachInTrans(g, x, b, c, m - 1, n);
    }
  }

  lemma ReachTrans(g: Graph, a: string, b: string, c: string)
    requires Reach(g, a, b) && Reach(g, b, c)
    ensures Reach(g, a, c)
  {
    var m: nat :| ReachIn(g, a, b, m);
    var n: nat :| ReachIn(g, b, c, n);
    ReachInTrans(g, a, b, c, m, n);
  }

  /** A path starts with an edge. */
  lemma ReachFirst(g: Graph, a: string, b: string) returns (x: string)
    requires Reach(g, a, b)
    ensures x in Succ(g, a) && (x == b || Reach(g, x, b))
  {
    var n: nat :| ReachIn(g, a, b, n);
    if n == 0 {
      x := b;
    } else {
      x :| x in Succ(g, a) && ReachIn(g, x, b, n - 1);
    }
  }

  /** A path out of a set whose edges stay inside it, except for edges to the exits, stays inside it or
      passes through an exit. */
  lemma {:induction false} ReachInside(g: Graph, a: string, b: string, n: nat, inside: set<string>, exits: set<string>)
    requires ReachIn(g, a, b, n)
    requires forall s | s in Succ(g, a) :: s in inside || s in exits
    requires forall u, s | u in inside && s in Succ(g, u) :: s in inside || s in exits
    ensures b in inside || exists w :: w in exits && Reach(g, a, w)
    decreases n
  {
    if n == 0 {
      if b in exits {
        ReachStep(g, a, b);
      }
    } else {
      var x :| x in Succ(g, a) && ReachIn(g, x, b, n - 1);
      ReachStep(g, a, x);
      if x !in exits {
        ReachInside(g, x, b, n - 1, inside, exits);
        if b !in inside {
          var w :| w in exits && Reach(g, x, w);
          ReachTrans(g, a, x, w);
        }
      }
    }
  }

  /** Every node of from leads to a. */
  ghost predicate AllLeadTo(g: Graph, from: set<string>, a: string) {
    forall o | o in from :: Reach(g, o, a)
  }

  lemma PathsExtend(g: Graph, open: set<string>, d: string, s: string)
    requires s in Succ(g, d) && AllLeadTo(g, open, d)
    ensures AllLeadTo(g, open + {d}, s)
  {
    ReachStep(g, d, s);
    forall o | o in open
      ensures Reach(g, o, s)
    {
      ReachTrans(g, o, d, s);
    }
  }

  /** p is a path along the edges of g, given by the nodes on it. */
  ghost predicate IsPath(g: Graph, p: seq<string>) {
    forall k | 0 <= k < |p| - 1 :: p[k + 1] in Succ(g, p[k])
  }

  ghost predicate PathOf(g: Graph, a: string, b: string, p: seq<string>) {
    |p| >= 2 && p[0] == a && p[|p| - 1] == b && IsPath(g, p)
  }

  lemma {:induction false} PathReaches(g: Graph, a: string, b: string, p: seq<string>)
    requires PathOf(g, a, b, p)
    ensures Reach(g, a, b)
    decreases p
  {
    ReachStep(g, a, p[1]);
    if |p| > 2 {
      assert forall k | 0 <= k < |p[1..]| - 1 :: p[1..][k + 1] in Succ(g, p[1..][k]) by {
        assert forall k | 0 <= k < |p| - 1 :: p[k + 1] in Succ(g, p[k]);
      }
      PathReaches(g, p[1], b, p[1..]);
      ReachTrans(g, a, p[1], b);
    }
  }

  lemma {:induction false} ReachHasPath(g: Graph, a: string, b: string, n: nat) returns (p: seq<string>)
    requires ReachIn(g, a, b, n)
    ensures PathOf(g, a, b, p)
    decreases n
  {
    if n == 0 {
      p := [a, b];
    } else {
      var m :| m in Succ(g, a) && ReachIn(g, m, b, n - 1);
      var rest := ReachHasPath(g, m, b, n - 1);
      p := [a] + rest;
    }
  }

  /** Reachability is the existence of a path. */
  lemma ReachIffPath(g: Graph, a: string, b: string)
    ensures Reach(g, a, b) <==> exists p :: PathOf(g, a, b, p)
  {
    if Reach(g, a, b) {
      var n: nat :| ReachIn(g, a, b, n);
      var p := ReachHasPath(g, a, b, n);
    }
    if p :| PathOf(g, a, b, p) {
      PathReaches(g, a, b, p);
    }
  }
}
