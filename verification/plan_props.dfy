/** What holds of every plan: closure of the DAG, distinct packs, pairing of plan entries with DAG nodes. */
module PlanProps {
  import opened Text
  import opened Artifact
  import opened Keys
  import opened Catalog
  import opened PlanSpec
  import PackPriority
  import Sorting

  // ----- Packs -----

  /** Some node among the first n has this identifier. */
  ghost predicate HasID(dag: seq<DAGNode>, id: ID, n: nat)
    requires n <= |dag|
  {
    exists j :: 0 <= j < n && dag[j].id == id
  }

  /** Every input of every node is the identifier of an earlier node. */
  ghost predicate TopoClosed(dag: seq<DAGNode>) {
    forall i, k | 0 <= i < |dag| && 0 <= k < |dag[i].inputs| :: HasID(dag, dag[i].inputs[k], i)
  }

  ghost predicate Offered(o: Options, def: PackDef) {
    o.catalog.Some? && def in o.catalog.value.packs.Values
  }

  /** The node of a pack of the catalog. */
  ghost predicate Genuine(o: Options, n: DAGNode) {
    exists def :: Offered(o, def) && n == PackNode(o, def)
  }

  lemma NeedsOffered(o: Options, def: PackDef)
    requires NamedCatalog(o)
    ensures forall d | d in Needs(o, def) :: Offered(o, d)
  {
    if o.catalog.Some? {
      var names := PackDependencies(def.name);
      forall n | n in names
        ensures PackRank(n) < PackRank(def.name)
      {
        DependenciesRankLower(def.name, n);
      }
      DefsInRank(o.catalog.value, names, PackRank(def.name));
    }
  }

  lemma SelectedOffered(o: Options, pkg: string)
    ensures forall d | d in SelectPacks(o, pkg) :: Offered(o, d)
  {
    if o.catalog.Some? {
      var c := o.catalog.value;
      var defs, names := Selected(c, pkg, ""), SelectedNames(c, pkg, "");
      MentionedExactly(c, c.rules, pkg, "");
      Sorting.SortSorts(defs, DefName);
      forall d | d in SelectPacks(o, pkg)
        ensures Offered(o, d)
      {
        assert d in multiset(SelectPacks(o, pkg)) && d in defs;
        var i :| 0 <= i < |defs| && defs[i] == d;
        assert names[i] in names && c.packs[names[i]] == d;
      }
    }
  }

  /** Each node's identifier has the node's own type. */
  ghost predicate KindsFit(dag: seq<DAGNode>) {
    forall i | 0 <= i < |dag| :: dag[i].id.kind == dag[i].kind
  }

  ghost predicate PackInv(o: Options, p: PackState) {
    && TopoClosed(p.dag)
    && KindsFit(p.dag)
    && (forall i | 0 <= i < |p.dag| && p.dag[i].kind.Pack? :: Genuine(o, p.dag[i]) && p.dag[i].id.digest in p.seen)
    && (forall i, j | 0 <= i < j < |p.dag| && p.dag[i].kind.Pack? && p.dag[j].kind.Pack? ::
          p.dag[i].id.digest != p.dag[j].id.digest)
    && forall d | d in p.seen :: HasID(p.dag, ID(Pack, d), |p.dag|)
  }

  /** q extends p by pack nodes only. */
  ghost predicate Grown(o: Options, p: PackState, q: PackState) {
    && PackInv(o, q)
    && p.dag <= q.dag && p.seen <= q.seen
    && forall i | |p.dag| <= i < |q.dag| :: q.dag[i].kind.Pack?
  }

  lemma ClosedAppend(dag: seq<DAGNode>, n: DAGNode)
    requires TopoClosed(dag)
    requires forall k | 0 <= k < |n.inputs| :: HasID(dag, n.inputs[k], |dag|)
    ensures TopoClosed(dag + [n])
  {
    var longer := dag + [n];
    forall i, k | 0 <= i < |longer| && 0 <= k < |longer[i].inputs|
      ensures HasID(longer, longer[i].inputs[k], i)
    {
      if i < |dag| {
        assert HasID(dag, dag[i].inputs[k], i);
        var j :| 0 <= j < i && dag[j].id == dag[i].inputs[k];
        assert longer[j].id == longer[i].inputs[k];
      } else {
        var j :| 0 <= j < |dag| && dag[j].id == n.inputs[k];
        assert longer[j].id == longer[i].inputs[k];
      }
    }
  }

  lemma PackAppended(o: Options, q: PackState, def: PackDef)
    requires PackInv(o, q) && Offered(o, def) && PackID(o, def).digest !in q.seen
    requires forall d | d in Needs(o, def) :: PackID(o, d).digest in q.seen
    ensures Grown(o, q, PackState(q.dag + [PackNode(o, def)], q.seen + {PackID(o, def).digest}))
  {
    var n := PackNode(o, def);
    forall k | 0 <= k < |n.inputs|
      ensures HasID(q.dag, n.inputs[k], |q.dag|)
    {
      assert Needs(o, def)[k] in Needs(o, def);
    }
    ClosedAppend(q.dag, n);
    var r := PackState(q.dag + [n], q.seen + {n.id.digest});
    assert Genuine(o, n);
    forall d | d in r.seen
      ensures HasID(r.dag, ID(Pack, d), |r.dag|)
    {
      if d in q.seen {
        assert HasID(q.dag, ID(Pack, d), |q.dag|);
        var j :| 0 <= j < |q.dag| && q.dag[j].id == ID(Pack, d);
        assert r.dag[j].id == ID(Pack, d);
      } else {
        assert r.dag[|q.dag|].id == ID(Pack, d);
      }
    }
  }

  /** The digests q has and p has not belong to packs of rank below r. */
  ghost predicate NewBelow(o: Options, p: PackState, q: PackState, r: nat) {
    forall d | d in q.seen && d !in p.seen :: RankedDigest(o, d, r)
  }

  ghost predicate RankedDigest(o: Options, d: string, r: nat) {
    exists def: PackDef :: PackRank(def.name) < r && PackID(o, def).digest == d
  }

  lemma NotItself(o: Options, p: PackState, q: PackState, def: PackDef)
    requires PackInjective(o.hash) && NewBelow(o, p, q, PackRank(def.name)) && PackID(o, def).digest !in p.seen
    ensures PackID(o, def).digest !in q.seen
  {
    forall e: PackDef | PackRank(e.name) < PackRank(def.name)
      ensures PackID(o, e).digest != PackID(o, def).digest
    {
      assert KeyOf(e) != KeyOf(def);
    }
    assert !RankedDigest(o, PackID(o, def).digest, PackRank(def.name));
  }

  /** Adding a pack adds what it needs first, each digest once. */
  lemma {:induction false} AddPackKeeps(o: Options, p: PackState, def: PackDef)
    requires NamedCatalog(o) && PackInjective(o.hash) && PackInv(o, p) && Offered(o, def)
    ensures Grown(o, p, AddPack(o, p, def)) && NewBelow(o, p, AddPack(o, p, def), PackRank(def.name) + 1)
    ensures PackID(o, def).digest in AddPack(o, p, def).seen
    decreases 2 * PackRank(def.name) + 1, 0
  {
    if PackID(o, def).digest !in p.seen {
      NeedsRank(o, def);
      NeedsOffered(o, def);
      var r := PackRank(def.name);
      var q := AddPacks(o, p, Needs(o, def), r);
      AddPacksKeeps(o, p, Needs(o, def), r);
      NotItself(o, p, q, def);
      PackAppended(o, q, def);
      forall d | d in AddPack(o, p, def).seen && d !in p.seen
        ensures RankedDigest(o, d, r + 1)
      {
        if d in q.seen {
          assert RankedDigest(o, d, r);
        }
      }
    }
  }

  lemma {:induction false} AddPacksKeeps(o: Options, p: PackState, defs: seq<PackDef>, r: nat)
    requires NamedCatalog(o) && PackInjective(o.hash) && PackInv(o, p)
    requires forall d | d in defs :: PackRank(d.name) < r && Offered(o, d)
    ensures Grown(o, p, AddPacks(o, p, defs, r)) && NewBelow(o, p, AddPacks(o, p, defs, r), r)
    ensures forall d | d in defs :: PackID(o, d).digest in AddPacks(o, p, defs, r).seen
    decreases 2 * r, |defs|
  {
    if defs != [] {
      var n := |defs| - 1;
      assert defs[n] in defs && defs == defs[..n] + [defs[n]];
      var q := AddPacks(o, p, defs[..n], r);
      AddPacksKeeps(o, p, defs[..n], r);
      AddPackKeeps(o, q, defs[n]);
      GrownThen(o, p, q, AddPack(o, q, defs[n]), r, PackRank(defs[n].name) + 1);
    }
  }

  lemma GrownThen(o: Options, p: PackState, q: PackState, s: PackState, r: nat, k: nat)
    requires Grown(o, p, q) && Grown(o, q, s) && NewBelow(o, p, q, r) && NewBelow(o, q, s, k) && k <= r
    ensures Grown(o, p, s) && NewBelow(o, p, s, r)
  {
    forall d | d in s.seen && d !in p.seen
      ensures RankedDigest(o, d, r)
    {
      assert RankedDigest(o, d, r) || RankedDigest(o, d, k);
    }
  }

  // ----- The whole plan -----

  /** What a pass of the planner asks for, and what one plan entry is made for. */
  datatype Request = Request(name: string, version: string, source: string, compatible: bool)

  function EntryOf(o: Options, r: Request): FlatNode {
    PlanNodeFor(o, r.name, r.version, r.compatible)
  }

  function WheelOf(o: Options, r: Request): DAGNode {
    WheelNode(o, r.name, r.version, r.source, r.compatible)
  }

  function OfKind(dag: seq<DAGNode>, kind: Kind): seq<DAGNode> {
    if dag == [] then []
    else OfKind(dag[..|dag| - 1], kind) + (if dag[|dag| - 1].kind == kind then [dag[|dag| - 1]] else [])
  }

  lemma {:induction false} OfKindConcat(a: seq<DAGNode>, b: seq<DAGNode>, kind: Kind)
    ensures OfKind(a + b, kind) == OfKind(a, kind) + OfKind(b, kind)
  {
    if b == [] {
      assert a + b == a;
    } else {
      var n := |b| - 1;
      assert (a + b)[..|a| + n] == a + b[..n];
      OfKindConcat(a, b[..n], kind);
    }
  }

  lemma {:induction false} OfKindNone(dag: seq<DAGNode>, kind: Kind)
    requires forall n | n in dag :: n.kind != kind
    ensures OfKind(dag, kind) == []
  {
    if dag != [] {
      assert dag[|dag| - 1] in dag;
      OfKindNone(dag[..|dag| - 1], kind);
    }
  }

  ghost predicate MadeFor(o: Options, r: Request, node: FlatNode, wheel: DAGNode, repair: DAGNode) {
    node == EntryOf(o, r) && wheel == WheelOf(o, r) && repair == RepairNode(o, wheel)
  }

  ghost predicate Made(o: Options, node: FlatNode, wheel: DAGNode, repair: DAGNode) {
    exists r :: MadeFor(o, r, node, wheel, repair)
  }

  /** The i-th plan entry, the i-th wheel node and the i-th repair node were made for one request. */
  ghost predicate Paired(o: Options, nodes: seq<FlatNode>, dag: seq<DAGNode>) {
    var wheels, repairs := OfKind(dag, Wheel), OfKind(dag, Repair);
    && |nodes| == |wheels| == |repairs|
    && forall i | 0 <= i < |nodes| :: Made(o, nodes[i], wheels[i], repairs[i])
  }

  function EntryKey(n: FlatNode): string {
    SeenKey(n.name, n.version)
  }

  ghost predicate KeysMatch(nodes: seq<FlatNode>, seen: set<string>) {
    && (forall i | 0 <= i < |nodes| :: EntryKey(nodes[i]) in seen)
    && (forall s | s in seen :: exists i :: 0 <= i < |nodes| && EntryKey(nodes[i]) == s)
    && forall i, j | 0 <= i < j < |nodes| :: EntryKey(nodes[i]) != EntryKey(nodes[j])
  }

  /** The only runtime of a DAG is its first node. */
  ghost predicate OneRuntime(o: Options, dag: seq<DAGNode>) {
    && |dag| > 0 && dag[0] == RuntimeNode(o)
    && forall i | 0 < i < |dag| :: !dag[i].kind.Runtime?
  }

  ghost predicate PlanInv(o: Options, ps: PlanState) {
    && PackInv(o, ps.packs)
    && OneRuntime(o, ps.packs.dag)
    && Paired(o, ps.nodes, ps.packs.dag)
    && KeysMatch(ps.nodes, ps.seen)
  }

  lemma StartKeeps(o: Options)
    ensures PlanInv(o, Start(o))
  {
    var dag := [RuntimeNode(o)];
    OfKindNone(dag, Wheel);
    OfKindNone(dag, Repair);
  }

  lemma InputsPresent(o: Options, q: PackState, name: string)
    requires PackInv(o, q) && OneRuntime(o, q.dag)
    requires forall d | d in SelectPacks(o, name) :: PackID(o, d).digest in q.seen
    ensures forall id | id in [RuntimeID(o)] + IDs(o, SelectPacks(o, name)) :: HasID(q.dag, id, |q.dag|)
  {
    var defs := SelectPacks(o, name);
    assert q.dag[0].id == RuntimeID(o);
    forall id | id in IDs(o, defs)
      ensures HasID(q.dag, id, |q.dag|)
    {
      var k :| 0 <= k < |defs| && IDs(o, defs)[k] == id;
      assert defs[k] in defs;
    }
  }

  lemma NonPackAppended(o: Options, q: PackState, n: DAGNode)
    requires PackInv(o, q) && OneRuntime(o, q.dag)
    requires n.id.kind == n.kind && (n.kind.Wheel? || n.kind.Repair?)
    requires forall id | id in n.inputs :: HasID(q.dag, id, |q.dag|)
    ensures var r := q.(dag := q.dag + [n]);
            PackInv(o, r) && OneRuntime(o, r.dag) && HasID(r.dag, n.id, |r.dag|)
  {
    ClosedAppend(q.dag, n);
    var r := q.(dag := q.dag + [n]);
    assert r.dag[|q.dag|].id == n.id;
    forall d | d in r.seen
      ensures HasID(r.dag, ID(Pack, d), |r.dag|)
    {
      assert HasID(q.dag, ID(Pack, d), |q.dag|);
      var j :| 0 <= j < |q.dag| && q.dag[j].id == ID(Pack, d);
      assert r.dag[j].id == ID(Pack, d);
    }
  }

  lemma TwoAppended(dag: seq<DAGNode>, a: DAGNode, b: DAGNode)
    ensures dag + [a] + [b] == dag + [a, b]
  {
  }

  /** A wheel and its repair node go after everything they need. */
  lemma WheelAppended(o: Options, q: PackState, name: string, wheel: DAGNode, repair: DAGNode)
    requires PackInv(o, q) && OneRuntime(o, q.dag) && wheel.kind.Wheel? && wheel.id.kind.Wheel?
    requires wheel.inputs == [RuntimeID(o)] + IDs(o, SelectPacks(o, name))
    requires repair.kind.Repair? && repair.id.kind.Repair? && repair.inputs == [wheel.id]
    requires forall d | d in SelectPacks(o, name) :: PackID(o, d).digest in q.seen
    ensures var r := q.(dag := q.dag + [wheel, repair]);
            PackInv(o, r) && OneRuntime(o, r.dag)
  {
    InputsPresent(o, q, name);
    NonPackAppended(o, q, wheel);
    NonPackAppended(o, q.(dag := q.dag + [wheel]), repair);
    TwoAppended(q.dag, wheel, repair);
  }

  lemma GrownKeepsRuntime(o: Options, p: PackState, q: PackState)
    requires Grown(o, p, q) && OneRuntime(o, p.dag)
    ensures OneRuntime(o, q.dag)
  {
    forall i | 0 < i < |q.dag|
      ensures !q.dag[i].kind.Runtime?
    {
      if i < |p.dag| {
        assert q.dag[i] == p.dag[i];
      }
    }
  }

  lemma OfKindGrown(o: Options, p: PackState, q: PackState, kind: Kind)
    requires Grown(o, p, q) && !kind.Pack?
    ensures OfKind(q.dag, kind) == OfKind(p.dag, kind)
  {
    var added := q.dag[|p.dag|..];
    assert q.dag == p.dag + added;
    OfKindNone(added, kind);
    OfKindConcat(p.dag, added, kind);
  }

  lemma OfKindPair(dag: seq<DAGNode>, wheel: DAGNode, repair: DAGNode)
    requires wheel.kind.Wheel? && repair.kind.Repair?
    ensures OfKind(dag + [wheel, repair], Wheel) == OfKind(dag, Wheel) + [wheel]
    ensures OfKind(dag + [wheel, repair], Repair) == OfKind(dag, Repair) + [repair]
  {
    TwoAppended(dag, wheel, repair);
    assert (dag + [wheel])[..|dag|] == dag;
    assert (dag + [wheel] + [repair])[..|dag| + 1] == dag + [wheel];
  }

  lemma PairsKept(o: Options, nodes: seq<FlatNode>, p: PackState, q: PackState, r: Request, node: FlatNode,
                  wheel: DAGNode, repair: DAGNode)
    requires Paired(o, nodes, p.dag) && Grown(o, p, q)
    requires MadeFor(o, r, node, wheel, repair)
    ensures Paired(o, nodes + [node], q.dag + [wheel, repair])
  {
    OfKindGrown(o, p, q, Wheel);
    OfKindGrown(o, p, q, Repair);
    OfKindPair(q.dag, wheel, repair);
    assert Made(o, node, wheel, repair);
    var ws, rs := OfKind(p.dag, Wheel), OfKind(p.dag, Repair);
    forall i | 0 <= i < |nodes|
      ensures Made(o, (nodes + [node])[i], (ws + [wheel])[i], (rs + [repair])[i])
    {
      assert Made(o, nodes[i], ws[i], rs[i]);
    }
  }

  lemma EmitKeeps(o: Options, ps: PlanState, name: string, version: string, source: string, compatible: bool)
    requires NamedCatalog(o) && PackInjective(o.hash) && PlanInv(o, ps)
    ensures PlanInv(o, EmitNew(o, ps, name, version, source, compatible))
  {
    if SeenKey(name, version) !in ps.seen {
      var defs := SelectPacks(o, name);
      AllBelowTop(defs);
      SelectedOffered(o, name);
      var q := AddPacks(o, ps.packs, defs, TOP_RANK);
      AddPacksKeeps(o, ps.packs, defs, TOP_RANK);
      GrownKeepsRuntime(o, ps.packs, q);
      var wheel := WheelNode(o, name, version, source, compatible);
      WheelAppended(o, q, name, wheel, RepairNode(o, wheel));
      PairsKept(o, ps.nodes, ps.packs, q, Request(name, version, source, compatible),
                PlanNodeFor(o, name, version, compatible), wheel, RepairNode(o, wheel));
      KeysAppended(ps.nodes, ps.seen, PlanNodeFor(o, name, version, compatible));
    }
  }

  lemma KeysAppended(nodes: seq<FlatNode>, seen: set<string>, n: FlatNode)
    requires KeysMatch(nodes, seen) && EntryKey(n) !in seen
    ensures KeysMatch(nodes + [n], seen + {EntryKey(n)})
  {
    var longer := nodes + [n];
    forall s | s in seen + {EntryKey(n)}
      ensures exists i :: 0 <= i < |longer| && EntryKey(longer[i]) == s
    {
      if s in seen {
        var i :| 0 <= i < |nodes| && EntryKey(nodes[i]) == s;
        assert EntryKey(longer[i]) == s;
      } else {
        assert EntryKey(longer[|nodes|]) == s;
      }
    }
  }

  lemma {:induction false} CollectKeeps(o: Options, ps: PlanState, deps: seq<DepSpec>)
    ensures var q := Collect(o, ps, deps);
            q.nodes == ps.nodes && q.packs == ps.packs && q.seen == ps.seen && q.hasInput == ps.hasInput
    decreases deps
  {
    if deps != [] {
      CollectKeeps(o, ps, deps[1..]);
      CollectKeeps(o, CollectOne(o, ps, deps[0]), deps[1..]);
    }
  }

  lemma RequirementKeeps(o: Options, ps: PlanState, spec: DepSpec)
    requires NamedCatalog(o) && PackInjective(o.hash) && PlanInv(o, ps)
    ensures PlanInv(o, AddRequirement(o, ps, spec))
  {
    var name := NormalizeName(spec.name);
    var version := RequiredVersion(o, spec);
    var ps1 := ps.(hasInput := true, deps := ps.deps[name := version]);
    assert PlanInv(o, ps1);
    EmitKeeps(o, ps1, name, version, SourceDigest(o, name, version), false);
  }

  lemma WheelKeeps(o: Options, ps: PlanState, w: WheelInput)
    requires NamedCatalog(o) && PackInjective(o.hash) && PlanInv(o, ps)
    ensures PlanInv(o, AddWheel(o, ps, w))
  {
    if Usable(w) {
      var c := Collect(o, ps.(hasInput := true), w.requires_);
      CollectKeeps(o, ps.(hasInput := true), w.requires_);
      assert PlanInv(o, c);
      var ov := Overridden(o, w.name);
      if ov.Some? {
        EmitKeeps(o, c, w.name, ov.value, SourceDigest(o, w.name, ov.value), false);
      } else {
        EmitKeeps(o, c, w.name, w.version,
                  if w.digest == "" then SourceDigest(o, w.name, w.version) else w.digest, IsCompatible(o, w));
      }
    }
  }

  lemma {:induction false} RequirementsKeep(o: Options, reqs: seq<DepSpec>)
    requires NamedCatalog(o) && PackInjective(o.hash)
    ensures PlanInv(o, AddRequirements(o, Start(o), reqs))
  {
    if reqs == [] {
      StartKeeps(o);
    } else {
      RequirementsKeep(o, reqs[..|reqs| - 1]);
      RequirementKeeps(o, AddRequirements(o, Start(o), reqs[..|reqs| - 1]), reqs[|reqs| - 1]);
    }
  }

  lemma {:induction false} ReadKeeps(o: Options, reqs: seq<DepSpec>, wheels: seq<WheelInput>)
    requires NamedCatalog(o) && PackInjective(o.hash)
    ensures PlanInv(o, Read(o, reqs, wheels))
  {
    if wheels == [] {
      RequirementsKeep(o, reqs);
    } else {
      ReadKeeps(o, reqs, wheels[..|wheels| - 1]);
      WheelKeeps(o, Read(o, reqs, wheels[..|wheels| - 1]), wheels[|wheels| - 1]);
    }
  }

  lemma {:induction false} CollectedKeep(o: Options, ps: PlanState, order: seq<string>)
    requires NamedCatalog(o) && PackInjective(o.hash) && PlanInv(o, ps)
    ensures PlanInv(o, AddAllCollected(o, ps, order))
  {
    if order != [] {
      var n := |order| - 1;
      CollectedKeep(o, ps, order[..n]);
      var q := AddAllCollected(o, ps, order[..n]);
      if order[n] in q.deps {
        var version := CollectedVersion(o, order[n], q.deps[order[n]]);
        EmitKeeps(o, q, order[n], version, SourceDigest(o, order[n], version), false);
      }
    }
  }

  // ----- Main results -----

  /** Every plan's DAG is closed: each input of each node is an earlier node; no pack digest occurs twice;
      the runtime comes first and is the only one. */
  lemma PlansAreClosed(o: Options, reqs: seq<DepSpec>, wheels: seq<WheelInput>, order: seq<string>)
    requires NamedCatalog(o) && PackInjective(o.hash)
    requires Plan(o, reqs, wheels, order).Planned?
    ensures var dag := Plan(o, reqs, wheels, order).dag;
            && TopoClosed(dag)
            && OneRuntime(o, dag)
            && forall i, j | 0 <= i < j < |dag| && dag[i].kind.Pack? && dag[j].kind.Pack? ::
                 dag[i].id.digest != dag[j].id.digest
  {
    ReadKeeps(o, reqs, wheels);
    CollectedKeep(o, Read(o, reqs, wheels), order);
  }

  /** In every plan (name, version) pairs are distinct and the i-th entry has the i-th wheel node and the
      i-th repair node: same name and version, the runtime as input, and the repair fed by that wheel. */
  lemma PlansArePaired(o: Options, reqs: seq<DepSpec>, wheels: seq<WheelInput>, order: seq<string>)
    requires NamedCatalog(o) && PackInjective(o.hash)
    requires Plan(o, reqs, wheels, order).Planned?
    ensures var r := Plan(o, reqs, wheels, order);
            var ws, rs := OfKind(r.dag, Wheel), OfKind(r.dag, Repair);
            && |r.nodes| == |ws| == |rs|
            && (forall i, j | 0 <= i < j < |r.nodes| ::
                  r.nodes[i].name != r.nodes[j].name || r.nodes[i].version != r.nodes[j].version)
            && forall i | 0 <= i < |r.nodes| ::
                 && ws[i].name == r.nodes[i].name && ws[i].version == r.nodes[i].version
                 && ws[i].pyTag == r.nodes[i].pyTag && ws[i].platformTag == r.nodes[i].platformTag
                 && ws[i].inputs == [RuntimeID(o)] + IDs(o, SelectPacks(o, r.nodes[i].name))
                 && rs[i].inputs == [ws[i].id]
  {
    ReadKeeps(o, reqs, wheels);
    CollectedKeep(o, Read(o, reqs, wheels), order);
    var r := Plan(o, reqs, wheels, order);
    var ws, rs := OfKind(r.dag, Wheel), OfKind(r.dag, Repair);
    forall i | 0 <= i < |r.nodes|
      ensures ws[i].name == r.nodes[i].name && ws[i].version == r.nodes[i].version
      ensures ws[i].pyTag == r.nodes[i].pyTag && ws[i].platformTag == r.nodes[i].platformTag
      ensures ws[i].inputs == [RuntimeID(o)] + IDs(o, SelectPacks(o, r.nodes[i].name))
      ensures rs[i].inputs == [ws[i].id]
    {
      assert Made(o, r.nodes[i], ws[i], rs[i]);
      var q :| MadeFor(o, q, r.nodes[i], ws[i], rs[i]);
    }
  }

  /** The packs of every plan meet what the worker's re-sort asks of a DAG. */
  lemma PlansArePlannerMade(o: Options, reqs: seq<DepSpec>, wheels: seq<WheelInput>, order: seq<string>)
    requires NamedCatalog(o) && PackInjective(o.hash)
    requires Plan(o, reqs, wheels, order).Planned?
    ensures PackPriority.PlannerMade(Plan(o, reqs, wheels, order).dag)
  {
    ReadKeeps(o, reqs, wheels);
    CollectedKeep(o, Read(o, reqs, wheels), order);
    var ps := AddAllCollected(o, Read(o, reqs, wheels), order);
    var dag := ps.packs.dag;
    forall i, k | 0 <= i < |dag| && dag[i].kind.Pack? && 0 <= k < |dag[i].inputs|
      ensures PackPriority.NeedsEarlier(dag, i, dag[i].inputs[k])
    {
      PackInputEarlier(o, ps.packs, i, k);
    }
  }

  lemma PackInputEarlier(o: Options, p: PackState, i: nat, k: nat)
    requires NamedCatalog(o) && PackInjective(o.hash) && PackInv(o, p)
    requires i < |p.dag| && p.dag[i].kind.Pack? && k < |p.dag[i].inputs|
    ensures PackPriority.NeedsEarlier(p.dag, i, p.dag[i].inputs[k])
  {
    var dag := p.dag;
    assert Genuine(o, dag[i]);
    var def :| Offered(o, def) && dag[i] == PackNode(o, def);
    NeedsRank(o, def);
    assert Needs(o, def)[k] in Needs(o, def);
    assert HasID(dag, dag[i].inputs[k], i);
    var j :| 0 <= j < i && dag[j].id == dag[i].inputs[k];
    assert Genuine(o, dag[j]);
    var e :| Offered(o, e) && dag[j] == PackNode(o, e);
    assert KeyOf(e) == KeyOf(Needs(o, def)[k]);
  }
}
