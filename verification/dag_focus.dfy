/** The focus set of the plan view: a node with its ancestors and descendants. */
module DagFocus {
  import opened Text
  import opened Digraph
  import opened DagView

  function Without(xs: seq<string>, blocked: set<string>): seq<string> {
    if xs == [] then [] else (if xs[0] in blocked then [] else [xs[0]]) + Without(xs[1..], blocked)
  }

  /** The edges of g that do not lead into blocked. */
  function Outside(g: Graph, blocked: set<string>): Graph {
    map a | a in g :: Without(g[a], blocked)
  }

  lemma {:induction false} WithoutMembers(xs: seq<string>, blocked: set<string>)
    ensures forall x :: x in Without(xs, blocked) <==> x in xs && x !in blocked
  {
    if xs != [] {
      WithoutMembers(xs[1..], blocked);
      assert xs == [xs[0]] + xs[1..];
    }
  }

  lemma OutsideSucc(g: Graph, blocked: set<string>, a: string)
    ensures forall b :: b in Succ(Outside(g, blocked), a) <==> b in Succ(g, a) && b !in blocked
  {
    if a in g {
      WithoutMembers(g[a], blocked);
    }
  }

  /** All nodes an edge of g leads to. */
  function Heads(g: Graph): set<string> {
    set a, b | a in g && b in g[a] :: b
  }

  ghost predicate FloodInv(g: Graph, start: string, blocked: set<string>, active: set<string>, stack: seq<string>) {
    && blocked <= active <= blocked + Heads(g)
    && (forall s | s in stack :: s == start || s in active - blocked)
    && (forall x | x in active - blocked :: Reach(Outside(g, blocked), start, x))
    && forall u, s | (u == start || u in active - blocked) && u !in stack && s in Succ(g, u) :: s in active
  }

  lemma FloodDone(g: Graph, start: string, blocked: set<string>, active: set<string>, x: string)
    requires FloodInv(g, start, blocked, active, []) && start in blocked
    ensures x in active <==> x in blocked || Reach(Outside(g, blocked), start, x)
  {
    if Reach(Outside(g, blocked), start, x) {
      var n: nat :| ReachIn(Outside(g, blocked), start, x, n);
      forall u, s | (u == start || u in active - blocked) && s in Succ(Outside(g, blocked), u)
        ensures s in active - blocked
      {
        OutsideSucc(g, blocked, u);
      }
      ReachInside(Outside(g, blocked), start, x, n, active - blocked, {});
    }
  }

  /** The children of one node are entered and pushed unless they are active already. */
  method Push(g: Graph, current: string, active: set<string>, stack: seq<string>)
    returns (active': set<string>, stack': seq<string>)
    ensures active' == active + set s | s in Succ(g, current)
    ensures stack <= stack'
    ensures forall s :: s in stack' <==> s in stack || s in active' - active
    ensures active' == active ==> stack' == stack
  {
    active', stack' := active, stack;
    var next := Succ(g, current);
    for i := 0 to |next|
      invariant active' == active + set s | s in next[..i]
      invariant stack <= stack'
      invariant forall s :: s in stack' <==> s in stack || s in active' - active
      invariant active' == active ==> stack' == stack
    {
      assert next[..i + 1] == next[..i] + [next[i]];
      if next[i] in active' {
        continue;
      }
      active' := active' + {next[i]};
      stack' := stack' + [next[i]];
    }
    assert next[..|next|] == next;
  }

  /** One worklist: everything reachable from start without entering what was active before. */
  method Flood(g: Graph, start: string, blocked: set<string>) returns (active: set<string>)
    requires start in blocked
    ensures forall x :: x in active <==> x in blocked || Reach(Outside(g, blocked), start, x)
  {
    active := blocked;
    var stack := [start];
    while stack != []
      invariant FloodInv(g, start, blocked, active, stack)
      decreases blocked + Heads(g) - active, |stack|
    {
      var current, rest := stack[|stack| - 1], stack[..|stack| - 1];
      assert stack == rest + [current];
      ghost var before := active;
      var pushed: seq<string>;
      active, pushed := Push(g, current, active, rest);
      StepFlood(g, start, blocked, before, stack, current, active, pushed);
      assert before == active ==> pushed == rest;
      stack := pushed;
    }
    forall x
      ensures x in active <==> x in blocked || Reach(Outside(g, blocked), start, x)
    {
      FloodDone(g, start, blocked, active, x);
    }
  }

  lemma StepFlood(g: Graph, start: string, blocked: set<string>, active: set<string>, stack: seq<string>,
                  current: string, active': set<string>, stack': seq<string>)
    requires FloodInv(g, start, blocked, active, stack) && stack != [] && current == stack[|stack| - 1]
    requires active' == active + set s | s in Succ(g, current)
    requires forall s :: s in stack' <==> s in stack[..|stack| - 1] || s in active' - active
    ensures FloodInv(g, start, blocked, active', stack')
    ensures active <= active' <= blocked + Heads(g)
  {
    assert stack == stack[..|stack| - 1] + [current];
    forall s | s in stack'
      ensures s == start || s in active' - blocked
    {
      if s in stack[..|stack| - 1] {
        assert s in stack;
      }
    }
    forall x | x in active' - blocked
      ensures Reach(Outside(g, blocked), start, x)
    {
      if x !in active {
        OutsideSucc(g, blocked, current);
        ReachStep(Outside(g, blocked), current, x);
        if current != start {
          ReachTrans(Outside(g, blocked), start, current, x);
        }
      }
    }
  }

  /** childrenById: every named node is a child of each of its inputs. */
  function ChildrenById(nodes: seq<Node>): Graph {
    if nodes == [] then map[]
    else
      var n := nodes[|nodes| - 1];
      var m := ChildrenById(nodes[..|nodes| - 1]);
      if n.id == "" then m else AddChild(m, Filled(n.inputs), n.id)
  }

  function AddChild(m: Graph, inputs: seq<string>, child: string): Graph
    decreases inputs
  {
    if inputs == [] then m
    else AddChild(m[inputs[0] := Succ(m, inputs[0]) + [child]], inputs[1..], child)
  }

  lemma KnownHeads(m: Graph)
    ensures forall a, b | Reach(Known(m), a, b) :: b in m
  {
    forall a, b | Reach(Known(m), a, b)
      ensures b in m
    {
      var n: nat :| ReachIn(Known(m), a, b, n);
      LastKnown(m, a, b, n);
    }
  }

  lemma {:induction false} LastKnown(m: Graph, a: string, b: string, n: nat)
    requires ReachIn(Known(m), a, b, n)
    ensures b in m
    decreases n
  {
    if n == 0 {
      KnownEdge(m, a, b);
    } else {
      var x :| x in Succ(Known(m), a) && ReachIn(Known(m), x, b, n - 1);
      LastKnown(m, x, b, n - 1);
    }
  }

  /** Leaving out the edges back to the start changes nothing for the other nodes. */
  lemma AvoidingStart(g: Graph, start: string)
    ensures forall x | x != start :: Reach(Outside(g, {start}), start, x) <==> Reach(g, start, x)
  {
    forall x | x != start
      ensures Reach(Outside(g, {start}), start, x) <==> Reach(g, start, x)
    {
      if Reach(Outside(g, {start}), start, x) {
        var n: nat :| ReachIn(Outside(g, {start}), start, x, n);
        OutsideReaches(g, {start}, start, x, n);
      }
      if Reach(g, start, x) {
        var n: nat :| ReachIn(g, start, x, n);
        LastDeparture(g, start, start, x, n);
      }
    }
  }

  lemma OutsideEdge(g: Graph, blocked: set<string>, a: string, b: string)
    ensures b in Succ(Outside(g, blocked), a) <==> b in Succ(g, a) && b !in blocked
  {
    OutsideSucc(g, blocked, a);
  }

  lemma {:induction false} OutsideReaches(g: Graph, blocked: set<string>, a: string, b: string, n: nat)
    requires ReachIn(Outside(g, blocked), a, b, n)
    ensures Reach(g, a, b)
    decreases n
  {
    if n == 0 {
      OutsideEdge(g, blocked, a, b);
      ReachStep(g, a, b);
    } else {
      var x :| x in Succ(Outside(g, blocked), a) && ReachIn(Outside(g, blocked), x, b, n - 1);
      OutsideEdge(g, blocked, a, x);
      ReachStep(g, a, x);
      OutsideReaches(g, blocked, x, b, n - 1);
      ReachTrans(g, a, x, b);
    }
  }

  lemma {:induction false} LastDeparture(g: Graph, start: string, a: string, x: string, n: nat)
    requires ReachIn(g, a, x, n) && x != start
    ensures Reach(Outside(g, {start}), start, x) || Reach(Outside(g, {start}), a, x)
    decreases n
  {
    var h := Outside(g, {start});
    OutsideSucc(g, {start}, a);
    if n == 0 {
      ReachStep(h, a, x);
    } else {
      var y :| y in Succ(g, a) && ReachIn(g, y, x, n - 1);
      LastDeparture(g, start, y, x, n - 1);
      if y != start {
        ReachStep(h, a, y);
        if Reach(h, y, x) {
          ReachTrans(h, a, y, x);
        }
      }
    }
  }

  lemma {:induction false} AddChildSucc(m: Graph, inputs: seq<string>, child: string, a: string)
    ensures forall b :: b in Succ(AddChild(m, inputs, child), a) <==> b in Succ(m, a) || (b == child && a in inputs)
    decreases inputs
  {
    if inputs != [] {
      AddChildSucc(m[inputs[0] := Succ(m, inputs[0]) + [child]], inputs[1..], child, a);
      assert inputs == [inputs[0]] + inputs[1..];
    }
  }

  /** Some node b has a among its inputs. */
  ghost predicate UsedBy(nodes: seq<Node>, a: string, b: string) {
    a != "" && b != "" && exists i :: 0 <= i < |nodes| && nodes[i].id == b && a in nodes[i].inputs
  }

  lemma {:induction false} ChildrenAre(nodes: seq<Node>, a: string, b: string)
    ensures b in Succ(ChildrenById(nodes), a) <==> UsedBy(nodes, a, b)
  {
    if nodes != [] {
      var init, n := nodes[..|nodes| - 1], nodes[|nodes| - 1];
      ChildrenAre(init, a, b);
      if n.id != "" {
        AddChildSucc(ChildrenById(init), Filled(n.inputs), n.id, a);
        FilledMembers(n.inputs, a);
      }
      if UsedBy(init, a, b) {
        var i :| 0 <= i < |init| && init[i].id == b && a in init[i].inputs;
        assert nodes[i] == init[i];
      }
    }
  }

  /** A way leads from the focus down to x that passes through no node the focus needs, nor back to it. */
  ghost predicate Below(nodes: seq<Node>, focus: string, x: string) {
    exists p: seq<string> :: |p| >= 2 && p[0] == focus && p[|p| - 1] == x && WayDown(nodes, focus, p)
  }

  ghost predicate WayDown(nodes: seq<Node>, focus: string, p: seq<string>) {
    forall k | 0 <= k < |p| - 1 :: StepDown(nodes, focus, p[k], p[k + 1])
  }

  ghost predicate StepDown(nodes: seq<Node>, focus: string, a: string, b: string) {
    UsedBy(nodes, a, b) && b != focus && !Needs(nodes, focus, b)
  }

  /** The node itself and everything it needs, directly or not. */
  ghost function Ancestors(nodes: seq<Node>, focus: string): set<string> {
    set x | x in InputsById(nodes).Keys + {focus} && (x == focus || Reach(Known(InputsById(nodes)), focus, x))
  }

  lemma AncestorsExactly(nodes: seq<Node>, focus: string, x: string)
    ensures x in Ancestors(nodes, focus) <==> x == focus || Reach(Known(InputsById(nodes)), focus, x)
    ensures x in Ancestors(nodes, focus) <==> x == focus || Needs(nodes, focus, x)
  {
    KnownHeads(InputsById(nodes));
    NeedsIsReach(nodes, focus, x);
  }

  lemma WaysAreDown(nodes: seq<Node>, focus: string, p: seq<string>)
    ensures IsPath(Outside(ChildrenById(nodes), Ancestors(nodes, focus)), p) <==> WayDown(nodes, focus, p)
  {
    forall k | 0 <= k < |p| - 1
      ensures p[k + 1] in Succ(Outside(ChildrenById(nodes), Ancestors(nodes, focus)), p[k]) <==>
              StepDown(nodes, focus, p[k], p[k + 1])
    {
      OutsideEdge(ChildrenById(nodes), Ancestors(nodes, focus), p[k], p[k + 1]);
      ChildrenAre(nodes, p[k], p[k + 1]);
      AncestorsExactly(nodes, focus, p[k + 1]);
    }
  }

  lemma BelowIsReach(nodes: seq<Node>, focus: string, x: string)
    ensures Below(nodes, focus, x) <==> FoundBelow(nodes, focus, x)
  {
    var g := Outside(ChildrenById(nodes), Ancestors(nodes, focus));
    ReachIffPath(g, focus, x);
    forall p
      ensures PathOf(g, focus, x, p) <==> |p| >= 2 && p[0] == focus && p[|p| - 1] == x && WayDown(nodes, focus, p)
    {
      WaysAreDown(nodes, focus, p);
    }
  }

  /** The nodes the second worklist can reach from the focus without entering its ancestors. */
  ghost predicate FoundBelow(nodes: seq<Node>, focus: string, x: string) {
    Reach(Outside(ChildrenById(nodes), Ancestors(nodes, focus)), focus, x)
  }

  /** The focus set, for any graph: the node, everything it needs, and everything that can be reached
      downwards without passing through those; none exactly if there is no such node. */
  method CollectDagFocusSet(nodes: seq<Node>, focus: string) returns (r: Option<set<string>>)
    ensures r.None? <==> !IsNode(nodes, focus)
    ensures r.Some? ==>
              forall x :: x in r.value <==> x == focus || Needs(nodes, focus, x) || Below(nodes, focus, x)
  {
    IdsAreNodes(nodes, focus);
    if focus == "" {
      return None;
    }
    var inputsById := InputsById(nodes);
    var childrenById := ChildrenById(nodes);
    if focus !in inputsById {
      return None;
    }
    var active := Flood(Known(inputsById), focus, {focus});
    AvoidingStart(Known(inputsById), focus);
    KnownHeads(inputsById);
    assert active == Ancestors(nodes, focus);
    active := Flood(childrenById, focus, active);
    forall x
      ensures x in active <==> x == focus || Needs(nodes, focus, x) || Below(nodes, focus, x)
    {
      AncestorsExactly(nodes, focus, x);
      BelowIsReach(nodes, focus, x);
    }
    r := Some(active);
  }

  // ----- Distinct ids -----

  ghost predicate DistinctIds(nodes: seq<Node>) {
    forall i, j | 0 <= i < j < |nodes| && nodes[i].id != "" :: nodes[i].id != nodes[j].id
  }

  /** With distinct ids the children are the inputs turned round. */
  lemma {:induction false} ChildrenReverse(nodes: seq<Node>, a: string, b: string)
    requires DistinctIds(nodes)
    ensures b in Succ(ChildrenById(nodes), a) <==> a in Succ(InputsById(nodes), b)
  {
    if nodes != [] {
      var init, n := nodes[..|nodes| - 1], nodes[|nodes| - 1];
      ChildrenReverse(init, a, b);
      if n.id != "" {
        AddChildSucc(ChildrenById(init), Filled(n.inputs), n.id, a);
        IdsAreNodes(init, n.id);
      }
    }
  }

  /** An edge down that avoids blocked nodes is an edge up turned round. */
  lemma DownEdge(nodes: seq<Node>, blocked: set<string>, a: string, b: string)
    requires DistinctIds(nodes) && a in InputsById(nodes)
    ensures b in Succ(Outside(ChildrenById(nodes), blocked), a) <==> a in Succ(Known(InputsById(nodes)), b) && b !in blocked
    ensures b in Succ(Outside(ChildrenById(nodes), blocked), a) ==> b in InputsById(nodes)
  {
    OutsideEdge(ChildrenById(nodes), blocked, a, b);
    ChildrenReverse(nodes, a, b);
    KnownSucc(InputsById(nodes), b);
  }

  /** Downward paths that avoid blocked nodes are upward paths turned round. */
  lemma {:induction false} DownIsUp(nodes: seq<Node>, blocked: set<string>, a: string, x: string, n: nat)
    requires DistinctIds(nodes) && ReachIn(Outside(ChildrenById(nodes), blocked), a, x, n) && a in InputsById(nodes)
    ensures Reach(Known(InputsById(nodes)), x, a)
    decreases n
  {
    var g, h := Known(InputsById(nodes)), Outside(ChildrenById(nodes), blocked);
    if n == 0 {
      DownEdge(nodes, blocked, a, x);
      ReachStep(g, x, a);
    } else {
      var y :| y in Succ(h, a) && ReachIn(h, y, x, n - 1);
      DownEdge(nodes, blocked, a, y);
      ReachStep(g, y, a);
      DownIsUp(nodes, blocked, y, x, n - 1);
      ReachTrans(g, x, y, a);
    }
  }

  /** What needs a node on no cycle is not among the node's ancestors. */
  lemma NotAncestor(nodes: seq<Node>, focus: string, x: string)
    requires Reach(Known(InputsById(nodes)), x, focus) && !OnCycle(Known(InputsById(nodes)), focus)
    ensures x !in Ancestors(nodes, focus)
  {
    if Reach(Known(InputsById(nodes)), focus, x) {
      ReachTrans(Known(InputsById(nodes)), focus, x, focus);
    }
  }

  /** If every edge on the way to a in g is turned round in h, so is the whole way. */
  lemma {:induction false} TurnedRound(g: Graph, h: Graph, x: string, a: string, n: nat)
    requires ReachIn(g, x, a, n)
    requires forall u, v | v in Succ(g, u) && Reach(g, u, a) :: u in Succ(h, v)
    ensures Reach(h, a, x)
    decreases n
  {
    assert Reach(g, x, a);
    if n == 0 {
      ReachStep(h, a, x);
    } else {
      var y :| y in Succ(g, x) && ReachIn(g, y, a, n - 1);
      ReachStep(h, y, x);
      TurnedRound(g, h, y, a, n - 1);
      ReachTrans(h, a, y, x);
    }
  }

  lemma KnownEdge(m: Graph, a: string, b: string)
    requires b in Succ(Known(m), a)
    ensures b in m
  {
    KnownSucc(m, a);
  }

  /** A descendant of a node that is on no cycle is found by the second worklist. */
  lemma DescendantFound(nodes: seq<Node>, focus: string, x: string)
    requires DistinctIds(nodes) && Reach(Known(InputsById(nodes)), x, focus)
    requires !OnCycle(Known(InputsById(nodes)), focus)
    ensures Reach(Outside(ChildrenById(nodes), Ancestors(nodes, focus)), focus, x)
  {
    var g, blocked := Known(InputsById(nodes)), Ancestors(nodes, focus);
    var h := Outside(ChildrenById(nodes), blocked);
    forall u, v | v in Succ(g, u) && Reach(g, u, focus)
      ensures u in Succ(h, v)
    {
      KnownEdge(InputsById(nodes), u, v);
      NotAncestor(nodes, focus, u);
      DownEdge(nodes, blocked, v, u);
    }
    var n: nat :| ReachIn(g, x, focus, n);
    TurnedRound(g, h, x, focus, n);
  }

  /** Every node outside the ancestors that needs an ancestor which itself needs the focus is found below. Only a
      cycle through the focus has such ancestors. */
  ghost predicate BorderFound(nodes: seq<Node>, focus: string) {
    forall y, p | OnBorder(nodes, focus, y, p) :: FoundBelow(nodes, focus, y)
  }

  ghost predicate OnBorder(nodes: seq<Node>, focus: string, y: string, p: string) {
    && y !in Ancestors(nodes, focus) && p in Ancestors(nodes, focus)
    && p in Succ(Known(InputsById(nodes)), y) && Reach(Known(InputsById(nodes)), p, focus)
  }

  lemma FoundFurther(nodes: seq<Node>, focus: string, x: string, y: string)
    requires DistinctIds(nodes) && FoundBelow(nodes, focus, y)
    requires y in Succ(Known(InputsById(nodes)), x) && x !in Ancestors(nodes, focus)
    ensures FoundBelow(nodes, focus, x)
  {
    var down := Outside(ChildrenById(nodes), Ancestors(nodes, focus));
    KnownEdge(InputsById(nodes), x, y);
    DownEdge(nodes, Ancestors(nodes, focus), y, x);
    ReachStep(down, y, x);
    ReachTrans(down, focus, y, x);
  }

  lemma FoundAtOnce(nodes: seq<Node>, focus: string, x: string)
    requires DistinctIds(nodes) && focus in InputsById(nodes)
    requires focus in Succ(Known(InputsById(nodes)), x) && x !in Ancestors(nodes, focus)
    ensures FoundBelow(nodes, focus, x)
  {
    DownEdge(nodes, Ancestors(nodes, focus), focus, x);
    ReachStep(Outside(ChildrenById(nodes), Ancestors(nodes, focus)), focus, x);
  }

  /** From a descendant outside the ancestors, climb to the first ancestor on the way to the focus. */
  lemma {:induction false} ClimbToBorder(nodes: seq<Node>, focus: string, x: string, n: nat)
    requires DistinctIds(nodes) && focus in InputsById(nodes) && BorderFound(nodes, focus)
    requires ReachIn(Known(InputsById(nodes)), x, focus, n) && x !in Ancestors(nodes, focus)
    ensures FoundBelow(nodes, focus, x)
    decreases n
  {
    var up, blocked := Known(InputsById(nodes)), Ancestors(nodes, focus);
    if n == 0 {
      FoundAtOnce(nodes, focus, x);
    } else {
      var y :| y in Succ(up, x) && ReachIn(up, y, focus, n - 1);
      assert Reach(up, y, focus);
      if y !in blocked {
        ClimbToBorder(nodes, focus, y, n - 1);
        FoundFurther(nodes, focus, x, y);
      } else {
        assert OnBorder(nodes, focus, x, y);
      }
    }
  }

  lemma BorderIsDescendant(nodes: seq<Node>, focus: string, y: string, p: string)
    requires p in Succ(Known(InputsById(nodes)), y) && Reach(Known(InputsById(nodes)), p, focus)
    ensures Reach(Known(InputsById(nodes)), y, focus)
  {
    ReachStep(Known(InputsById(nodes)), y, p);
    ReachTrans(Known(InputsById(nodes)), y, p, focus);
  }

  /** With distinct ids the focus set holds every descendant if and only if the border is found. */
  lemma DescendantsFoundIff(nodes: seq<Node>, focus: string)
    requires DistinctIds(nodes) && focus in InputsById(nodes)
    ensures (forall x | Reach(Known(InputsById(nodes)), x, focus) ::
               x == focus || Reach(Known(InputsById(nodes)), focus, x) || FoundBelow(nodes, focus, x))
            <==> BorderFound(nodes, focus)
  {
    var up := Known(InputsById(nodes));
    if BorderFound(nodes, focus) {
      forall x | Reach(up, x, focus)
        ensures x == focus || Reach(up, focus, x) || FoundBelow(nodes, focus, x)
      {
        AncestorsExactly(nodes, focus, x);
        if x !in Ancestors(nodes, focus) {
          var n: nat :| ReachIn(up, x, focus, n);
          ClimbToBorder(nodes, focus, x, n);
        }
      }
    } else {
      var y, p :| OnBorder(nodes, focus, y, p) && !FoundBelow(nodes, focus, y);
      AncestorsExactly(nodes, focus, y);
      BorderIsDescendant(nodes, focus, y, p);
    }
  }

  lemma FoundIsDescendant(nodes: seq<Node>, focus: string, x: string)
    requires DistinctIds(nodes) && IsNode(nodes, focus) && Below(nodes, focus, x)
    ensures Needs(nodes, x, focus)
  {
    BelowIsReach(nodes, focus, x);
    NeedsIsReach(nodes, x, focus);
    IdsAreNodes(nodes, focus);
    var n: nat :| ReachIn(Outside(ChildrenById(nodes), Ancestors(nodes, focus)), focus, x, n);
    DownIsUp(nodes, Ancestors(nodes, focus), focus, x, n);
  }

  /** If the ids are distinct and the focus node is on no cycle, its focus set is the node, its ancestors and
      its descendants: the node set both worklists share hides nothing. */
  lemma FocusIsAncestorsAndDescendants(nodes: seq<Node>, focus: string, x: string)
    requires DistinctIds(nodes) && IsNode(nodes, focus) && !Needs(nodes, focus, focus)
    ensures (x == focus || Needs(nodes, focus, x) || Below(nodes, focus, x))
            <==> (x == focus || Needs(nodes, focus, x) || Needs(nodes, x, focus))
  {
    if Below(nodes, focus, x) {
      FoundIsDescendant(nodes, focus, x);
    }
    if Needs(nodes, x, focus) {
      NeedsIsReach(nodes, x, focus);
      NeedsIsReach(nodes, focus, focus);
      DescendantFound(nodes, focus, x);
      BelowIsReach(nodes, focus, x);
    }
  }

  /** Every node that the focus does not need, but that has an input which the focus needs and which itself needs
      the focus, is found below. Only a cycle through the focus has such inputs. */
  ghost predicate CycleFeedsFound(nodes: seq<Node>, focus: string) {
    forall y, p | y != focus && !Needs(nodes, focus, y) && (p == focus || Needs(nodes, focus, p))
                  && Feeds(nodes, p, y) && Needs(nodes, p, focus) ::
      Below(nodes, focus, y)
  }

  lemma OnBorderIff(nodes: seq<Node>, focus: string, y: string, p: string)
    ensures OnBorder(nodes, focus, y, p) <==>
            && y != focus && !Needs(nodes, focus, y) && (p == focus || Needs(nodes, focus, p))
            && Feeds(nodes, p, y) && Needs(nodes, p, focus)
  {
    AncestorsExactly(nodes, focus, y);
    AncestorsExactly(nodes, focus, p);
    EdgesAreFeeds(nodes, y, p);
    NeedsIsReach(nodes, p, focus);
  }

  lemma BorderIff(nodes: seq<Node>, focus: string)
    ensures BorderFound(nodes, focus) <==> CycleFeedsFound(nodes, focus)
  {
    if BorderFound(nodes, focus) {
      forall y, p | y != focus && !Needs(nodes, focus, y) && (p == focus || Needs(nodes, focus, p))
                    && Feeds(nodes, p, y) && Needs(nodes, p, focus)
        ensures Below(nodes, focus, y)
      {
        OnBorderIff(nodes, focus, y, p);
        BelowIsReach(nodes, focus, y);
      }
    }
    if CycleFeedsFound(nodes, focus) {
      forall y, p | OnBorder(nodes, focus, y, p)
        ensures FoundBelow(nodes, focus, y)
      {
        OnBorderIff(nodes, focus, y, p);
        BelowIsReach(nodes, focus, y);
      }
    }
  }

  /** With distinct ids the focus set is the node, its ancestors and its descendants if and only if no input on a
      cycle through the focus hides one; it never holds anything else. */
  lemma FocusSetExactIff(nodes: seq<Node>, focus: string)
    requires DistinctIds(nodes) && IsNode(nodes, focus)
    ensures forall x | Below(nodes, focus, x) :: Needs(nodes, x, focus)
    ensures (forall x :: x == focus || Needs(nodes, focus, x) || Below(nodes, focus, x)
                         <==> x == focus || Needs(nodes, focus, x) || Needs(nodes, x, focus))
            <==> CycleFeedsFound(nodes, focus)
  {
    IdsAreNodes(nodes, focus);
    forall x | Below(nodes, focus, x)
      ensures Needs(nodes, x, focus)
    {
      FoundIsDescendant(nodes, focus, x);
    }
    DescendantsFoundIff(nodes, focus);
    BorderIff(nodes, focus);
    forall x
      ensures Needs(nodes, focus, x) <==> Reach(Known(InputsById(nodes)), focus, x)
      ensures Needs(nodes, x, focus) <==> Reach(Known(InputsById(nodes)), x, focus)
      ensures Below(nodes, focus, x) <==> FoundBelow(nodes, focus, x)
    {
      NeedsIsReach(nodes, focus, x);
      NeedsIsReach(nodes, x, focus);
      BelowIsReach(nodes, focus, x);
    }
  }

  const KNOT: seq<Node> := [Node("p", ["f"], "", ""), Node("f", ["p"], "", ""), Node("c", ["p"], "", "")]

  lemma KnotInputs()
    ensures InputsById(KNOT) == map["p" := ["f"], "f" := ["p"], "c" := ["p"]] && DistinctIds(KNOT)
  {
    assert KNOT[..2] == [Node("p", ["f"], "", ""), Node("f", ["p"], "", "")];
    assert KNOT[..2][..1] == [Node("p", ["f"], "", "")] && KNOT[..1][..0] == [];
    assert ["f"][1..] == [] && ["p"][1..] == [] && Filled(["f"]) == ["f"] && Filled(["p"]) == ["p"];
    assert InputsById(KNOT[..1]) == map["p" := ["f"]];
    assert InputsById(KNOT[..2]) == map["p" := ["f"], "f" := ["p"]];
  }

  /** On a cycle it may hide some: with f and p needing each other, c needs f through p but is not found. */
  lemma CycleHidesDescendant()
    ensures Needs(KNOT, "c", "f") && !Below(KNOT, "f", "c")
  {
    KnotInputs();
    NeedsIsReach(KNOT, "c", "f");
    BelowIsReach(KNOT, "f", "c");
    var m, g, blocked := InputsById(KNOT), Known(InputsById(KNOT)), Ancestors(KNOT, "f");
    KnownSucc(m, "c");
    KnownSucc(m, "p");
    KnownSucc(m, "f");
    ReachStep(g, "c", "p");
    ReachStep(g, "p", "f");
    ReachStep(g, "f", "p");
    ReachTrans(g, "c", "p", "f");
    assert "p" in blocked;
    var h := Outside(ChildrenById(KNOT), blocked);
    forall b
      ensures b !in Succ(h, "f")
    {
      DownEdge(KNOT, blocked, "f", b);
      KnownSucc(m, b);
    }
    forall n: nat
      ensures !ReachIn(h, "f", "c", n)
    {
    }
  }
}
