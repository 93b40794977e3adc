/** How a worker finds the wheel, packs and runtime of a plan entry. */
module Matcher {
  import opened Text
  import opened Artifact
  import opened PlanSpec
  import opened PlanProps
  import opened PackOrder
  import PackPriority
  import opened Digraph
  import Catalog
  import Keys
  import Sorting

  /** What a worker learns about the wheel of a plan entry. */
  datatype Found = Found(digest: string, action: string, packs: seq<ID>, runtime: Option<ID>)

  predicate WheelMatches(n: DAGNode, node: FlatNode, pyTag: string, platformTag: string) {
    && n.kind.Wheel?
    && EqualFold(n.name, node.name) && n.version == node.version
    && (n.pyTag == "" || n.pyTag == node.pyTag || n.pyTag == pyTag)
    && (n.platformTag == "" || n.platformTag == node.platformTag || n.platformTag == platformTag)
  }

  /** A wheel node fits an entry if it agrees on the name, ignoring case, and the version, and has for each tag
      none, the entry's, or the one asked for. */
  lemma WheelMatchesIff(n: DAGNode, node: FlatNode, pyTag: string, platformTag: string)
    ensures WheelMatches(n, node, pyTag, platformTag) <==>
            && n.kind == Wheel && (exists t :: Text.Lowers(n.name, t) && Text.Lowers(node.name, t)) && n.version == node.version
            && n.pyTag in {"", node.pyTag, pyTag} && n.platformTag in {"", node.platformTag, platformTag}
  {
    Text.ToLowerIff(n.name, ToLower(n.name));
    Text.ToLowerIff(node.name, ToLower(node.name));
    if t :| Text.Lowers(n.name, t) && Text.Lowers(node.name, t) {
      Text.ToLowerIff(n.name, t);
      Text.ToLowerIff(node.name, t);
    }
  }

  function PacksAmong(inputs: seq<ID>): seq<ID> {
    if inputs == [] then []
    else
      var n := |inputs| - 1;
      PacksAmong(inputs[..n]) + (if inputs[n].kind.Pack? then [inputs[n]] else [])
  }

  function LastRuntime(inputs: seq<ID>): Option<ID> {
    if inputs == [] then None
    else
      var n := |inputs| - 1;
      if inputs[n].kind.Runtime? then Some(inputs[n]) else LastRuntime(inputs[..n])
  }

  lemma {:induction false} PacksAmongIs(a: seq<ID>, b: seq<ID>, id: ID)
    ensures PacksAmong(a + b) == PacksAmong(a) + PacksAmong(b)
    ensures id in PacksAmong(b) <==> id in b && id.kind == Pack
  {
    if b == [] {
      assert a + b == a;
    } else {
      var n := |b| - 1;
      assert (a + b)[..|a| + n] == a + b[..n] && b == b[..n] + [b[n]];
      PacksAmongIs(a, b[..n], id);
    }
  }

  /** The runtime is the last input of that kind. */
  lemma {:induction false} LastRuntimeIs(inputs: seq<ID>, id: ID)
    ensures LastRuntime(inputs) == Some(id) <==>
            exists k :: 0 <= k < |inputs| && inputs[k] == id && id.kind == Runtime
                        && forall j | k < j < |inputs| :: inputs[j].kind != Runtime
  {
    if inputs != [] {
      var n := |inputs| - 1;
      LastRuntimeIs(inputs[..n], id);
      assert forall k | 0 <= k < n :: inputs[..n][k] == inputs[k];
      if inputs[n].kind.Runtime? {
        assert inputs[n] == id || LastRuntime(inputs) != Some(id);
      }
    }
  }

  /** Node at is the first wheel that fits the plan entry, and found tells its digest, action and inputs. */
  ghost predicate FirstFit(dag: seq<DAGNode>, node: FlatNode, pyTag: string, platformTag: string, found: Found, at: nat) {
    && at < |dag| && WheelMatches(dag[at], node, pyTag, platformTag)
    && (forall i | 0 <= i < at :: !WheelMatches(dag[i], node, pyTag, platformTag))
    && found == Found(dag[at].id.digest, dag[at].action, PacksAmong(dag[at].inputs), LastRuntime(dag[at].inputs))
  }

  method FindWheelArtifact(dag: seq<DAGNode>, node: FlatNode, pyTag: string, platformTag: string)
    returns (found: Option<Found>, ghost at: nat)
    ensures found.None? <==> forall i | 0 <= i < |dag| :: !WheelMatches(dag[i], node, pyTag, platformTag)
    ensures found.Some? ==> FirstFit(dag, node, pyTag, platformTag, found.value, at)
  {
    at := 0;
    for i := 0 to |dag|
      invariant forall k | 0 <= k < i :: !WheelMatches(dag[k], node, pyTag, platformTag)
    {
      var n := dag[i];
      if !n.kind.Wheel? {
        continue;
      }
      if !EqualFold(n.name, node.name) || n.version != node.version {
        continue;
      }
      if n.pyTag != "" && n.pyTag != node.pyTag && n.pyTag != pyTag {
        continue;
      }
      if n.platformTag != "" && n.platformTag != node.platformTag && n.platformTag != platformTag {
        continue;
      }
      var packs: seq<ID> := [];
      var runtime: Option<ID> := None;
      for k := 0 to |n.inputs|
        invariant packs == PacksAmong(n.inputs[..k]) && runtime == LastRuntime(n.inputs[..k])
      {
        assert n.inputs[..k + 1][..k] == n.inputs[..k];
        if n.inputs[k].kind.Pack? {
          packs := packs + [n.inputs[k]];
        }
        if n.inputs[k].kind.Runtime? {
          runtime := Some(n.inputs[k]);
        }
      }
      assert n.inputs[..|n.inputs|] == n.inputs;
      return Some(Found(n.id.digest, n.action, packs, runtime)), i;
    }
    found := None;
  }

  lemma {:induction false} OfKindMembers(dag: seq<DAGNode>, kind: Kind)
    ensures forall n :: n in OfKind(dag, kind) <==> n in dag && n.kind == kind
  {
    if dag != [] {
      OfKindMembers(dag[..|dag| - 1], kind);
      assert dag == dag[..|dag| - 1] + [dag[|dag| - 1]];
    }
  }

  lemma {:induction false} InputsOfWheel(rt: ID, packs: seq<ID>)
    requires rt.kind.Runtime? && forall p | p in packs :: p.kind.Pack?
    ensures PacksAmong([rt] + packs) == packs && LastRuntime([rt] + packs) == Some(rt)
  {
    var all := [rt] + packs;
    var n := |packs|;
    if n == 0 {
      assert all[..0] == [];
    } else {
      assert all[..n] == [rt] + packs[..n - 1];
      assert packs[n - 1] in packs;
      InputsOfWheel(rt, packs[..n - 1]);
      assert packs[..n - 1] + [packs[n - 1]] == packs;
    }
  }

  /** Every wheel node of a plan has the plan's runtime and the selected packs as inputs. */
  lemma WheelOfPlan(o: Options, ps: PlanState, n: DAGNode)
    requires PlanInv(o, ps) && n in ps.packs.dag && n.kind.Wheel?
    ensures n.pyTag == PyTag(o) && n.platformTag == o.platformTag
    ensures n.inputs == [RuntimeID(o)] + IDs(o, SelectPacks(o, n.name))
  {
    OfKindMembers(ps.packs.dag, Wheel);
    var ws, rs := OfKind(ps.packs.dag, Wheel), OfKind(ps.packs.dag, Repair);
    var i :| 0 <= i < |ws| && ws[i] == n;
    assert Made(o, ps.nodes[i], ws[i], rs[i]);
  }

  lemma EntryMatchesItsWheel(o: Options, ps: PlanState, i: nat, pyTag: string, platformTag: string)
    requires PlanInv(o, ps) && i < |ps.nodes|
    ensures var w := OfKind(ps.packs.dag, Wheel)[i];
            w in ps.packs.dag && WheelMatches(w, ps.nodes[i], pyTag, platformTag)
  {
    OfKindMembers(ps.packs.dag, Wheel);
    var ws, rs := OfKind(ps.packs.dag, Wheel), OfKind(ps.packs.dag, Repair);
    assert ws[i] in ws;
    assert Made(o, ps.nodes[i], ws[i], rs[i]);
  }

  /** found is a wheel of the entry's name, ignoring case, and version: the first such wheel of the DAG,
      with the one runtime of the plan and with packs that are earlier nodes of the plan. */
  ghost predicate Agrees(dag: seq<DAGNode>, node: FlatNode, found: Found, at: nat) {
    && at < |dag| && dag[at].kind.Wheel? && found.digest == dag[at].id.digest && found.action == dag[at].action
    && EqualFold(dag[at].name, node.name) && dag[at].version == node.version
    && dag[0].kind.Runtime? && found.runtime == Some(dag[0].id)
    && (forall p | p in found.packs :: exists j :: 0 <= j < at && dag[j].kind.Pack? && dag[j].id == p)
    && forall k | 0 <= k < at && dag[k].kind.Wheel? :: !EqualFold(dag[k].name, node.name) || dag[k].version != node.version
  }

  lemma NoEarlierWheel(o: Options, ps: PlanState, i: nat, pyTag: string, platformTag: string, found: Found, at: nat, k: nat)
    requires PlanInv(o, ps) && i < |ps.nodes|
    requires FirstFit(ps.packs.dag, ps.nodes[i], pyTag, platformTag, found, at)
    requires k < at && ps.packs.dag[k].kind.Wheel?
    ensures !EqualFold(ps.packs.dag[k].name, ps.nodes[i].name) || ps.packs.dag[k].version != ps.nodes[i].version
  {
    EntryTags(o, ps, i);
    WheelOfPlan(o, ps, ps.packs.dag[k]);
    assert !WheelMatches(ps.packs.dag[k], ps.nodes[i], pyTag, platformTag);
  }

  lemma FoundAgrees(o: Options, ps: PlanState, i: nat, pyTag: string, platformTag: string, found: Found, at: nat)
    requires PlanInv(o, ps) && i < |ps.nodes|
    requires FirstFit(ps.packs.dag, ps.nodes[i], pyTag, platformTag, found, at)
    ensures Agrees(ps.packs.dag, ps.nodes[i], found, at)
  {
    var dag := ps.packs.dag;
    WheelOfPlan(o, ps, dag[at]);
    var packs := IDs(o, SelectPacks(o, dag[at].name));
    InputsOfWheel(RuntimeID(o), packs);
    PacksAreNodes(o, ps, at, packs);
    forall k | 0 <= k < at && dag[k].kind.Wheel?
      ensures !EqualFold(dag[k].name, ps.nodes[i].name) || dag[k].version != ps.nodes[i].version
    {
      NoEarlierWheel(o, ps, i, pyTag, platformTag, found, at, k);
    }
  }

  /** Two entries that differ at most in the case of their names. */
  predicate SameFolded(a: FlatNode, b: FlatNode) {
    EqualFold(a.name, b.name) && a.version == b.version
  }

  /** Node at is the wheel node of entry i. */
  ghost predicate OwnWheel(dag: seq<DAGNode>, i: nat, at: nat) {
    at < |dag| && i < |OfKind(dag, Wheel)| && dag[at] == OfKind(dag, Wheel)[i]
  }

  /** The place of a wheel node among the wheel nodes. */
  lemma WheelPlace(dag: seq<DAGNode>, at: nat)
    requires at < |dag| && dag[at].kind.Wheel?
    ensures var m := |OfKind(dag[..at], Wheel)|;
            && m < |OfKind(dag, Wheel)| && OfKind(dag, Wheel)[m] == dag[at]
            && forall j | 0 <= j < m :: OfKind(dag, Wheel)[j] in dag[..at] && OfKind(dag, Wheel)[j].kind.Wheel?
  {
    var upTo := dag[..at + 1];
    assert dag == upTo + dag[at + 1..] && upTo[..at] == dag[..at];
    OfKindConcat(upTo, dag[at + 1..], Wheel);
    OfKindMembers(dag[..at], Wheel);
    forall j | 0 <= j < |OfKind(dag[..at], Wheel)|
      ensures OfKind(dag, Wheel)[j] in dag[..at] && OfKind(dag, Wheel)[j].kind.Wheel?
    {
      assert OfKind(dag, Wheel)[j] == OfKind(dag[..at], Wheel)[j];
      assert OfKind(dag[..at], Wheel)[j] in OfKind(dag[..at], Wheel);
    }
  }

  lemma WheelOfEntry(o: Options, ps: PlanState, i: nat)
    requires PlanInv(o, ps) && i < |ps.nodes|
    ensures var ws := OfKind(ps.packs.dag, Wheel);
            i < |ws| && ws[i].name == ps.nodes[i].name && ws[i].version == ps.nodes[i].version
  {
    var ws, rs := OfKind(ps.packs.dag, Wheel), OfKind(ps.packs.dag, Repair);
    assert Made(o, ps.nodes[i], ws[i], rs[i]);
  }

  /** The wheel found belongs to the first entry that agrees with entry i. */
  lemma FirstOfItsName(o: Options, ps: PlanState, i: nat, pyTag: string, platformTag: string, found: Found, at: nat)
    returns (m: nat)
    requires PlanInv(o, ps) && i < |ps.nodes|
    requires FirstFit(ps.packs.dag, ps.nodes[i], pyTag, platformTag, found, at)
    ensures m <= i && OwnWheel(ps.packs.dag, m, at) && SameFolded(ps.nodes[m], ps.nodes[i])
    ensures forall j | 0 <= j < m :: !SameFolded(ps.nodes[j], ps.nodes[i])
  {
    var dag := ps.packs.dag;
    var ws := OfKind(dag, Wheel);
    WheelPlace(dag, at);
    m := |OfKind(dag[..at], Wheel)|;
    WheelOfEntry(o, ps, m);
    forall j | 0 <= j < m
      ensures !SameFolded(ps.nodes[j], ps.nodes[i])
    {
      WheelOfEntry(o, ps, j);
      var k :| 0 <= k < at && dag[k] == ws[j];
      NoEarlierWheel(o, ps, i, pyTag, platformTag, found, at, k);
    }
    assert SameFolded(ps.nodes[i], ps.nodes[i]);
  }

  /** So it belongs to entry i itself if and only if no earlier entry agrees with it. */
  lemma OwnWheelIff(o: Options, ps: PlanState, i: nat, pyTag: string, platformTag: string, found: Found, at: nat)
    requires PlanInv(o, ps) && i < |ps.nodes|
    requires FirstFit(ps.packs.dag, ps.nodes[i], pyTag, platformTag, found, at)
    ensures OwnWheel(ps.packs.dag, i, at) <==> forall j | 0 <= j < i :: !SameFolded(ps.nodes[j], ps.nodes[i])
  {
    var m := FirstOfItsName(o, ps, i, pyTag, platformTag, found, at);
    WheelOfEntry(o, ps, m);
    WheelOfEntry(o, ps, i);
    if m < i {
      assert EntryKey(ps.nodes[m]) != EntryKey(ps.nodes[i]);
    }
  }

  /** For every entry of a generated plan the worker finds a wheel that agrees with it. */
  method FindInPlan(o: Options, reqs: seq<DepSpec>, wheels: seq<WheelInput>, ghost order: seq<string>,
                    nodes: seq<FlatNode>, dag: seq<DAGNode>, i: nat, pyTag: string, platformTag: string)
    returns (found: Option<Found>, ghost at: nat)
    requires NamedCatalog(o) && Keys.PackInjective(o.hash)
    requires Plan(o, reqs, wheels, order) == Planned(nodes, dag) && i < |nodes|
    ensures found.Some? && Agrees(dag, nodes[i], found.value, at)
    ensures OwnWheel(dag, i, at) <==> forall j | 0 <= j < i :: !SameFolded(nodes[j], nodes[i])
  {
    ghost var ps := AddAllCollected(o, Read(o, reqs, wheels), order);
    ReadKeeps(o, reqs, wheels);
    CollectedKeep(o, Read(o, reqs, wheels), order);
    EntryMatchesItsWheel(o, ps, i, pyTag, platformTag);
    found, at := FindWheelArtifact(dag, nodes[i], pyTag, platformTag);
    FoundAgrees(o, ps, i, pyTag, platformTag, found.value, at);
    OwnWheelIff(o, ps, i, pyTag, platformTag, found.value, at);
  }

  lemma EntryTags(o: Options, ps: PlanState, i: nat)
    requires PlanInv(o, ps) && i < |ps.nodes|
    ensures ps.nodes[i].pyTag == PyTag(o) && ps.nodes[i].platformTag == o.platformTag
  {
    var ws, rs := OfKind(ps.packs.dag, Wheel), OfKind(ps.packs.dag, Repair);
    assert Made(o, ps.nodes[i], ws[i], rs[i]);
  }

  lemma PacksAreNodes(o: Options, ps: PlanState, at: nat, packs: seq<ID>)
    requires PlanInv(o, ps) && at < |ps.packs.dag|
    requires ps.packs.dag[at].inputs == [RuntimeID(o)] + packs
    requires forall p | p in packs :: p.kind.Pack?
    ensures forall p | p in packs ::
              exists j :: 0 <= j < at && ps.packs.dag[j].kind.Pack? && ps.packs.dag[j].id == p
  {
    var dag := ps.packs.dag;
    forall p | p in packs
      ensures exists j :: 0 <= j < at && dag[j].kind.Pack? && dag[j].id == p
    {
      var k :| 0 <= k < |packs| && packs[k] == p;
      assert dag[at].inputs[k + 1] == p;
      assert HasID(dag, dag[at].inputs[k + 1], at);
      var j :| 0 <= j < at && dag[j].id == p;
      assert dag[j].id.kind == dag[j].kind;
    }
  }

  // ----- Plans whose packs the re-sort puts in the wrong order -----

  /** The wheel node of an entry and its inputs. */
  lemma EntryWheelAt(o: Options, ps: PlanState, i: nat) returns (at: nat)
    requires PlanInv(o, ps) && i < |ps.nodes|
    ensures at < |ps.packs.dag|
    ensures ps.packs.dag[at].inputs == [RuntimeID(o)] + IDs(o, SelectPacks(o, ps.nodes[i].name))
  {
    EntryMatchesItsWheel(o, ps, i, "", "");
    WheelOfEntry(o, ps, i);
    var w := OfKind(ps.packs.dag, Wheel)[i];
    WheelOfPlan(o, ps, w);
    at :| 0 <= at < |ps.packs.dag| && ps.packs.dag[at] == w;
  }

  /** The pack node of a selected pack, with the packs it needs as inputs. */
  lemma SelectedPackNode(o: Options, ps: PlanState, i: nat, c: Catalog.PackDef) returns (j: nat)
    requires NamedCatalog(o) && Keys.PackInjective(o.hash) && PlanInv(o, ps) && i < |ps.nodes|
    requires c in SelectPacks(o, ps.nodes[i].name)
    ensures j < |ps.packs.dag| && ps.packs.dag[j] == PackNode(o, c)
  {
    var at := EntryWheelAt(o, ps, i);
    var defs := SelectPacks(o, ps.nodes[i].name);
    var k :| 0 <= k < |defs| && defs[k] == c;
    assert IDs(o, defs)[k] == PackID(o, c);
    InputNode(ps.packs.dag, at, k + 1, PackID(o, c));
    j :| 0 <= j < at && ps.packs.dag[j].id == PackID(o, c);
    PackNodeIs(o, ps.packs, j, c);
  }

  lemma InputNode(dag: seq<DAGNode>, at: nat, k: nat, id: ID)
    requires TopoClosed(dag) && at < |dag| && k < |dag[at].inputs| && dag[at].inputs[k] == id
    ensures exists j :: 0 <= j < at && dag[j].id == id
  {
    assert HasID(dag, dag[at].inputs[k], at);
  }

  /** A node with the identifier of a pack is its pack node. */
  lemma PackNodeIs(o: Options, p: PackState, j: nat, c: Catalog.PackDef)
    requires PackInv(o, p) && Keys.PackInjective(o.hash) && j < |p.dag| && p.dag[j].id == PackID(o, c)
    ensures p.dag[j] == PackNode(o, c)
  {
    assert p.dag[j].id.kind == p.dag[j].kind;
    assert Genuine(o, p.dag[j]);
    var def :| Offered(o, def) && p.dag[j] == PackNode(o, def);
    assert KeyOf(def) == KeyOf(c);
  }

  lemma {:induction false} PackInputsHas(inputs: seq<ID>, id: ID)
    requires id in inputs && id.kind.Pack?
    ensures id.digest in PackInputs(inputs)
  {
    if inputs[0] != id {
      assert id in inputs[1..];
      PackInputsHas(inputs[1..], id);
    }
  }

  /** In every plan: if the packs of an entry include one outside the priority table and one it needs, then
      whatever order the re-sort gives them, some pack comes before what it needs. */
  lemma OutsideTableFails(o: Options, reqs: seq<DepSpec>, wheels: seq<WheelInput>, order: seq<string>, i: nat,
                          c: Catalog.PackDef, z: Catalog.PackDef, out: seq<ID>)
    requires NamedCatalog(o) && Keys.PackInjective(o.hash)
    requires Plan(o, reqs, wheels, order).Planned? && i < |Plan(o, reqs, wheels, order).nodes|
    requires var packs := SelectPacks(o, Plan(o, reqs, wheels, order).nodes[i].name);
             && c in packs && z in packs && z in Needs(o, c) && c.name !in PackPriority.PRIORITIES
             && multiset(out) == multiset(IDs(o, packs))
    requires PackPriority.Ranked(PackNodes(Plan(o, reqs, wheels, order).dag), out)
    ensures !PackPriority.AllNeedsFirst(Plan(o, reqs, wheels, order).dag, out)
  {
    var ps := AddAllCollected(o, Read(o, reqs, wheels), order);
    ReadKeeps(o, reqs, wheels);
    CollectedKeep(o, Read(o, reqs, wheels), order);
    PlansArePlannerMade(o, reqs, wheels, order);
    var dag, ids := ps.packs.dag, IDs(o, SelectPacks(o, ps.nodes[i].name));
    var j := SelectedPackNode(o, ps, i, c);
    PackNodesAt(dag, j);
    EdgeToNeed(o, dag, c, z);
    IDIn(o, SelectPacks(o, ps.nodes[i].name), c);
    IDIn(o, SelectPacks(o, ps.nodes[i].name), z);
    ReachStep(PackGraph(dag), PackID(o, c).digest, PackID(o, z).digest);
    NeedsIsReach(dag, PackID(o, c).digest, PackID(o, z).digest);
    assert PackPriority.Unranked(dag, ids);
    PackPriority.ResortKeepsOrderIff(dag, ids, out);
  }

  lemma IDIn(o: Options, defs: seq<Catalog.PackDef>, c: Catalog.PackDef)
    requires c in defs
    ensures PackID(o, c) in IDs(o, defs)
  {
    var k :| 0 <= k < |defs| && defs[k] == c;
    assert IDs(o, defs)[k] == PackID(o, c);
  }

  lemma PackNodesAt(dag: seq<DAGNode>, j: nat)
    requires PackPriority.PlannerMade(dag) && j < |dag| && dag[j].kind.Pack?
    ensures dag[j].id.digest in PackNodes(dag) && PackNodes(dag)[dag[j].id.digest] == dag[j]
  {
    PackPriority.PackNodesAt(dag);
    var d := dag[j].id.digest;
    var i :| 0 <= i < |dag| && dag[i].kind.Pack? && dag[i].id.digest == d && PackNodes(dag)[d] == dag[i];
    assert i == j;
  }

  lemma EdgeToNeed(o: Options, dag: seq<DAGNode>, c: Catalog.PackDef, z: Catalog.PackDef)
    requires PackID(o, c).digest in PackNodes(dag) && PackNodes(dag)[PackID(o, c).digest] == PackNode(o, c)
    requires z in Needs(o, c)
    ensures PackID(o, z).digest in Succ(PackGraph(dag), PackID(o, c).digest)
  {
    IDIn(o, Needs(o, c), z);
    PackInputsHas(IDs(o, Needs(o, c)), PackID(o, z));
  }

  const CPYTHON := Catalog.PackDef("cpython", "3.11", "", "")
  const ZLIB := Catalog.PackDef("zlib", "1.3", "", "")
  const BOTH_PACKS := Catalog.Catalog(map["cpython" := CPYTHON, "zlib" := ZLIB], [Catalog.Rule("", "", ["cpython", "zlib"])])

  lemma BothSelected(o: Options)
    requires o.catalog == Some(BOTH_PACKS)
    ensures CPYTHON in SelectPacks(o, "x") && ZLIB in SelectPacks(o, "x")
  {
    var c, r := BOTH_PACKS, BOTH_PACKS.rules[0];
    Catalog.MentionedExactly(c, c.rules, "x", "");
    assert r in c.rules && Catalog.Matches(r, "x", "") && "cpython" in r.packs && "zlib" in r.packs;
    var mentioned := Catalog.Mentioned(c, c.rules, "x", "");
    assert "cpython" in c.packs && "zlib" in c.packs;
    assert "cpython" in mentioned && "zlib" in mentioned;
    var names, defs := Catalog.SelectedNames(c, "x", ""), Catalog.Selected(c, "x", "");
    assert "cpython" in names && "zlib" in names;
    var i :| 0 <= i < |names| && names[i] == "cpython";
    var j :| 0 <= j < |names| && names[j] == "zlib";
    assert defs[i] == CPYTHON && defs[j] == ZLIB;
    Sorting.SortSorts(defs, DefName);
    assert CPYTHON in multiset(SelectPacks(o, "x")) && ZLIB in multiset(SelectPacks(o, "x"));
  }

  lemma CpythonNeedsZlib(o: Options)
    requires o.catalog == Some(BOTH_PACKS)
    ensures ZLIB in Needs(o, CPYTHON) && "cpython" !in PackPriority.PRIORITIES
  {
    assert Text.ToLower("cpython") == "cpython";
    NamedDef(BOTH_PACKS, Catalog.CPYTHON_NEEDS, 2);
  }

  lemma {:induction false} NamedDef(c: Catalog.Catalog, names: seq<string>, k: nat)
    requires k < |names| && names[k] in c.packs
    ensures c.packs[names[k]] in DefsIn(c, names)
  {
    if k > 0 {
      NamedDef(c, names[1..], k - 1);
    }
  }

  /** Such plans exist: with cpython and zlib selected for x, the plan of the single requirement x==1.0 has
      packs that no re-sort by priority leaves in order. */
  lemma CpythonComesFirst(o: Options, out: seq<ID>)
    requires o.catalog == Some(BOTH_PACKS) && Keys.PackInjective(o.hash)
    requires multiset(out) == multiset(IDs(o, SelectPacks(o, "x")))
    ensures var reqs := [DepSpec("x", "1.0")];
            && Walk(["x"], Read(o, reqs, []).deps.Keys)
            && var r := Plan(o, reqs, [], ["x"]);
               && r.Planned? && |r.nodes| >= 1 && r.nodes[0].name == "x"
               && (PackPriority.Ranked(PackNodes(r.dag), out) ==> !PackPriority.AllNeedsFirst(r.dag, out))
  {
    OneRequirement(o);
    BothSelected(o);
    CpythonNeedsZlib(o);
    var r := Plan(o, [DepSpec("x", "1.0")], [], ["x"]);
    if PackPriority.Ranked(PackNodes(r.dag), out) {
      OutsideTableFails(o, [DepSpec("x", "1.0")], [], ["x"], 0, CPYTHON, ZLIB, out);
    }
  }

  lemma NameOfX()
    ensures NormalizeName("x") == "x"
  {
    assert Text.TrimSpace("x") == "x" && Dashed("x") == "x" && Text.ToLower("x") == "x";
  }

  lemma OneRequirement(o: Options)
    requires NamedCatalog(o)
    ensures Walk(["x"], Read(o, [DepSpec("x", "1.0")], []).deps.Keys)
    ensures var r := Plan(o, [DepSpec("x", "1.0")], [], ["x"]);
            r.Planned? && |r.nodes| >= 1 && r.nodes[0].name == "x"
  {
    var reqs, spec := [DepSpec("x", "1.0")], DepSpec("x", "1.0");
    NameOfX();
    assert reqs[..|reqs| - 1] == [] && reqs[|reqs| - 1] == spec;
    assert AddRequirements(o, Start(o), []) == Start(o);
    assert AddRequirements(o, Start(o), reqs) == AddRequirement(o, AddRequirements(o, Start(o), []), spec);
    var ps := Read(o, reqs, []);
    assert ps == AddRequirement(o, Start(o), spec);
    assert |ps.nodes| == 1 && ps.nodes[0].name == "x" && ps.deps.Keys == {"x"};
    assert ["x"][..0] == [];
    assert AddAllCollected(o, ps, ["x"]) == AddCollected(o, ps, "x");
  }
}
