/** The planner as the Go code runs it: one object whose lists, maps and flags the passes update. */
module Planner {
  import opened Text
  import opened Artifact
  import opened Keys
  import opened Catalog
  import opened PlanSpec
  import opened PlanProps
  import opened PlanResults
  import opened PlanOrder
  import PackPriority
  import Sorting

  class Planner {
    const o: Options
    var nodes: seq<FlatNode>
    var dagNodes: seq<DAGNode>
    var packSeen: set<string>
    var seen: set<string>
    var depSeen: map<string, string>
    var hasInput: bool
    var depTruncated: bool

    ghost function State(): PlanState
      reads this
    {
      PlanState(nodes, Packs(), seen, depSeen, hasInput, depTruncated)
    }

    ghost function Packs(): PackState
      reads this
    {
      PackState(dagNodes, packSeen)
    }

    constructor (o: Options)
      ensures this.o == o && State() == Start(o)
    {
      this.o := o;
      nodes := [];
      dagNodes := [RuntimeNode(o)];
      packSeen := {};
      seen := {};
      depSeen := map[];
      hasInput := false;
      depTruncated := false;
    }

    /** Adds a pack after the packs it needs. */
    method AddPack(def: PackDef)
      requires NamedCatalog(o)
      modifies `dagNodes, `packSeen
      ensures Packs() == PlanSpec.AddPack(o, old(Packs()), def)
      decreases PackRank(def.name)
    {
      var id := PackID(o, def);
      if id.digest in packSeen {
        return;
      }
      var needs := Needs(o, def);
      NeedsRank(o, def);
      for i := 0 to |needs|
        invariant Packs() == PlanSpec.AddPacks(o, old(Packs()), needs[..i], PackRank(def.name))
      {
        assert needs[..i + 1][..i] == needs[..i];
        AddPack(needs[i]);
      }
      assert needs[..|needs|] == needs;
      dagNodes := dagNodes + [DAGNode(id, Pack, IDs(o, needs), def.name, def.version, "", "", Action(o, id))];
      packSeen := packSeen + {id.digest};
    }

    method AddPackNodes(defs: seq<PackDef>)
      requires NamedCatalog(o) && forall d | d in defs :: PackRank(d.name) < TOP_RANK
      modifies `dagNodes, `packSeen
      ensures Packs() == PlanSpec.AddPacks(o, old(Packs()), defs, TOP_RANK)
    {
      for i := 0 to |defs|
        invariant Packs() == PlanSpec.AddPacks(o, old(Packs()), defs[..i], TOP_RANK)
      {
        assert defs[..i + 1][..i] == defs[..i];
        AddPack(defs[i]);
      }
      assert defs[..|defs|] == defs;
    }

    /** Plans one wheel unless its key has been planned. */
    method EmitNew(name: string, version: string, source: string, compatible: bool)
      requires NamedCatalog(o)
      modifies this
      ensures State() == PlanSpec.EmitNew(o, old(State()), name, version, source, compatible)
    {
      var key := name + "::" + version;
      if key in seen {
        return;
      }
      seen := seen + {key};
      var defs := SelectPacks(name);
      AllBelowTop(defs);
      AddPackNodes(defs);
      ghost var q := Packs();
      nodes := nodes + [PlanNodeFor(o, name, version, compatible)];
      var wheel := WheelNode(o, name, version, source, compatible);
      dagNodes := dagNodes + [wheel];
      AddRepair(wheel);
      assert dagNodes == q.dag + [wheel, RepairNode(o, wheel)];
    }

    method SelectPacks(name: string) returns (defs: seq<PackDef>)
      ensures defs == PlanSpec.SelectPacks(o, name)
    {
      if o.catalog.None? {
        return [];
      }
      defs := Select(o.catalog.value, name, "");
      defs := Sorting.SortBy(defs, DefName);
    }

    method AddRepair(wheel: DAGNode)
      modifies `dagNodes
      ensures dagNodes == old(dagNodes) + [RepairNode(o, wheel)]
    {
      var id := ID(Repair, o.hash.repair(RepairKey(wheel.id.digest, "", "")));
      dagNodes := dagNodes + [DAGNode(id, Repair, [wheel.id], wheel.name, wheel.version, "", "", Action(o, id))];
    }

    method AddRequirement(spec: DepSpec)
      requires NamedCatalog(o)
      modifies this
      ensures State() == PlanSpec.AddRequirement(o, old(State()), spec)
    {
      var name := NormalizeName(spec.name);
      if name == "" {
        return;
      }
      hasInput := true;
      var version := TrimSpace(spec.version);
      if version == "" || HasPrefix(version, ">=") || HasPrefix(version, "~=") {
        var latest := Resolve(o, name);
        if latest.Some? {
          version := latest.value;
        }
      }
      depSeen := depSeen[name := version];
      EmitNew(name, version, SourceDigest(o, name, version), false);
    }

    method CollectDeps(deps: seq<DepSpec>)
      modifies `depSeen, `depTruncated
      ensures State() == Collect(o, old(State()), deps)
    {
      for i := 0 to |deps|
        invariant Collect(o, State(), deps[i..]) == Collect(o, old(State()), deps)
      {
        var dep := deps[i];
        assert deps[i..][1..] == deps[i + 1..];
        if dep.name == "" {
          continue;
        }
        if |depSeen| >= MaxDeps(o) {
          depTruncated := true;
          return;
        }
        if dep.name in depSeen && depSeen[dep.name] != "" {
          continue;
        }
        var version := dep.version;
        if version == "" {
          var latest := Resolve(o, dep.name);
          if latest.Some? {
            version := latest.value;
          }
        }
        depSeen := depSeen[dep.name := version];
      }
      assert deps[|deps|..] == [];
    }

    method AddWheel(w: WheelInput)
      requires NamedCatalog(o)
      modifies this
      ensures State() == PlanSpec.AddWheel(o, old(State()), w)
    {
      if w.name == "" || w.version == "" {
        return;
      }
      hasInput := true;
      CollectDeps(w.requires_);
      var ov := Overridden(o, w.name);
      if ov.Some? {
        EmitNew(w.name, ov.value, SourceDigest(o, w.name, ov.value), false);
      } else {
        var source := w.digest;
        if source == "" {
          source := SourceDigest(o, w.name, w.version);
        }
        EmitNew(w.name, w.version, source, IsCompatible(o, w));
      }
    }

    method AddCollected(dep: string)
      requires NamedCatalog(o) && dep in depSeen
      modifies this
      ensures State() == PlanSpec.AddCollected(o, old(State()), dep)
    {
      if dep == "" {
        return;
      }
      var n := NormalizeName(dep);
      var version := depSeen[dep];
      if n in o.overrides && o.overrides[n] != "" {
        version := TrimPrefix(TrimSpace(o.overrides[n]), "==");
      }
      if n in o.constraints && o.constraints[n] != "" {
        version := o.constraints[n];
      }
      var latest := Resolve(o, dep);
      if version == "" {
        if latest.Some? {
          version := latest.value;
        }
        if version == "" {
          version := "latest";
        }
      }
      if o.eager && latest.Some? && latest.value != "" {
        version := latest.value;
      }
      EmitNew(dep, version, SourceDigest(o, dep, version), false);
    }

    /** The whole computation; the collected names are walked in an arbitrary order, which is returned. */
    method Compute(reqs: seq<DepSpec>, wheels: seq<WheelInput>) returns (r: Result, ghost order: seq<string>)
      requires NamedCatalog(o) && State() == Start(o)
      modifies this
      ensures Walk(order, Read(o, reqs, wheels).deps.Keys)
      ensures r == Plan(o, reqs, wheels, order)
    {
      for i := 0 to |reqs|
        invariant State() == AddRequirements(o, Start(o), reqs[..i])
      {
        assert reqs[..i + 1][..i] == reqs[..i];
        AddRequirement(reqs[i]);
      }
      assert reqs[..|reqs|] == reqs;
      for i := 0 to |wheels|
        invariant State() == Read(o, reqs, wheels[..i])
      {
        assert wheels[..i + 1][..i] == wheels[..i];
        AddWheel(wheels[i]);
      }
      assert wheels[..|wheels|] == wheels;
      order := [];
      ghost var ps := State();
      var rest := depSeen.Keys;
      while rest != {}
        invariant State() == AddAllCollected(o, ps, order)
        invariant depSeen == ps.deps && rest <= depSeen.Keys
        invariant Walk(order, depSeen.Keys - rest)
        decreases rest
      {
        var dep :| dep in rest;
        rest := rest - {dep};
        assert (order + [dep])[..|order|] == order;
        CollectedSame(o, ps, order + [dep]);
        AddCollected(dep);
        order := order + [dep];
      }
      if !hasInput {
        return NoInput, order;
      }
      if depTruncated {
        return TooManyDeps, order;
      }
      r := Planned(nodes, dagNodes);
    }
  }

  /** Two runs of the planner on the same inputs, each walking the collected names as it likes, give the
      same entries and the same DAG nodes, and each DAG is one the worker's ordering relies on. */
  method PlanTwice(o: Options, reqs: seq<DepSpec>, wheels: seq<WheelInput>) returns (a: Result, b: Result)
    requires NamedCatalog(o) && PackInjective(o.hash) && AllPlain(Read(o, reqs, wheels).deps.Keys)
    ensures SamePlan(a, b)
    ensures a.Planned? ==> TopoClosed(a.dag) && PackPriority.PlannerMade(a.dag)
  {
    var p := new Planner(o);
    var q := new Planner(o);
    ghost var order1, order2;
    a, order1 := p.Compute(reqs, wheels);
    b, order2 := q.Compute(reqs, wheels);
    PlainNamesDoNotClash(o, Read(o, reqs, wheels), Read(o, reqs, wheels).deps.Keys);
    WalkDoesNotMatter(o, reqs, wheels, order1, order2);
    if a.Planned? {
      PlansAreClosed(o, reqs, wheels, order1);
      PlansArePlannerMade(o, reqs, wheels, order1);
    }
  }
}
