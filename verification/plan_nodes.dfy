/** The DAG nodes of a plan: their fields, which packs a wheel gets, and that no pack is there for nothing. */
module PlanNodes {
  import opened Text
  import opened Artifact
  import opened Keys
  import opened Catalog
  import opened PlanSpec
  import opened PlanProps
  import opened PlanResults
  import opened PlanRequests
  import opened PlanValues
  import opened PlanEntries
  import Matcher
  import Sorting

  // ----- Which packs a wheel gets -----

  /** The rule has no pattern or one that occurs in the package name, ignoring case, and no backend. */
  ghost predicate RuleFits(r: Rule, pkg: string) {
    && (r.pattern == ""
        || exists p, t, i :: Lowers(pkg, p) && Lowers(r.pattern, t) && 0 <= i <= |p| && t <= p[i..])
    && r.backend == ""
  }

  lemma RuleFitsIff(r: Rule, pkg: string)
    ensures RuleFits(r, pkg) <==> Matches(r, pkg, "")
  {
    var p, t := ToLower(pkg), ToLower(r.pattern);
    ToLowerIff(pkg, p);
    ToLowerIff(r.pattern, t);
    ContainsIff(p, t);
    forall q | Lowers(pkg, q)
      ensures q == p
    {
      ToLowerIff(pkg, q);
    }
    forall q | Lowers(r.pattern, q)
      ensures q == t
    {
      ToLowerIff(r.pattern, q);
    }
    assert ToLower("") == ToLower(r.backend) ==> |r.backend| == 0;
  }

  /** A rule of the catalog that fits the package lists the pack filed under key. */
  ghost predicate Lists(c: Catalog, pkg: string, key: string) {
    key in c.packs && exists r :: r in c.rules && RuleFits(r, pkg) && key in r.packs
  }

  /** A package gets exactly the packs that fitting rules list, sorted by name. */
  lemma SelectedIff(o: Options, pkg: string)
    ensures forall d :: d in SelectPacks(o, pkg) <==>
              o.catalog.Some? && exists key :: Lists(o.catalog.value, pkg, key) && o.catalog.value.packs[key] == d
    ensures forall i, j | 0 <= i < j < |SelectPacks(o, pkg)| ::
              Sorting.StringLeq(SelectPacks(o, pkg)[i].name, SelectPacks(o, pkg)[j].name)
  {
    if o.catalog.Some? {
      var c := o.catalog.value;
      var defs, names := Selected(c, pkg, ""), SelectedNames(c, pkg, "");
      Sorting.SortSorts(defs, DefName);
      forall i, j | 0 <= i < j < |SelectPacks(o, pkg)|
        ensures Sorting.StringLeq(SelectPacks(o, pkg)[i].name, SelectPacks(o, pkg)[j].name)
      {
        assert Sorting.StringLeq(DefName(SelectPacks(o, pkg)[i]), DefName(SelectPacks(o, pkg)[j]));
      }
      forall key
        ensures key in names <==> Lists(c, pkg, key)
      {
        ListedIff(c, pkg, key);
      }
      forall d
        ensures d in SelectPacks(o, pkg) <==> exists key :: Lists(c, pkg, key) && c.packs[key] == d
      {
        assert d in SelectPacks(o, pkg) <==> d in multiset(defs);
        DefsMember(c, names, d);
      }
    }
  }

  lemma ListedIff(c: Catalog, pkg: string, key: string)
    ensures key in SelectedNames(c, pkg, "") <==> Lists(c, pkg, key)
  {
    MentionedExactly(c, c.rules, pkg, "");
    forall r
      ensures RuleFits(r, pkg) <==> Matches(r, pkg, "")
    {
      RuleFitsIff(r, pkg);
    }
  }

  lemma DefsMember(c: Catalog, names: seq<string>, d: PackDef)
    requires forall n | n in names :: n in c.packs
    ensures d in DefsOf(c, names) <==> exists n :: n in names && c.packs[n] == d
  {
    var defs := DefsOf(c, names);
    if d in defs {
      var i :| 0 <= i < |defs| && defs[i] == d;
      assert names[i] in names;
    }
    if n :| n in names && c.packs[n] == d {
      var i :| 0 <= i < |names| && names[i] == n;
      assert defs[i] == d;
    }
  }

  lemma {:induction false} DefsInMember(c: Catalog, names: seq<string>, d: PackDef)
    ensures d in DefsIn(c, names) <==> exists n :: n in names && n in c.packs && c.packs[n] == d
  {
    if names != [] {
      DefsInMember(c, names[1..], d);
      assert names == [names[0]] + names[1..];
    }
  }

  // ----- Fields of the nodes -----

  ghost predicate IsPackID(id: ID, o: Options, d: PackDef) {
    id == ID(Pack, o.hash.pack(PackKey("s390x", "", d.name, d.version, d.recipeDigest)))
  }

  /** n is the node of pack d, and its inputs are the packs of the catalog that the dependency table names. */
  ghost predicate ShowsPack(o: Options, c: Catalog, d: PackDef, n: DAGNode) {
    && IsPackID(n.id, o, d)
    && n == DAGNode(n.id, Pack, n.inputs, d.name, d.version, "", "", n.action)
    && BuiltUnlessStored(o, n)
    && forall id :: id in n.inputs <==> exists key :: key in PackDependencies(d.name) && key in c.packs && IsPackID(id, o, c.packs[key])
  }

  ghost predicate InCatalog(o: Options, c: Catalog, n: DAGNode) {
    exists key :: key in c.packs && ShowsPack(o, c, c.packs[key], n)
  }

  ghost predicate ShowsRuntime(o: Options, n: DAGNode) {
    && n == DAGNode(ID(Runtime, o.hash.runtime(RuntimeKey("s390x", "", o.pythonVersion, "", "", ""))), Runtime, [],
                    "", "", PyTag(o), o.platformTag, n.action)
    && BuiltUnlessStored(o, n)
  }

  lemma PackNodeShows(o: Options, d: PackDef)
    requires o.catalog.Some?
    ensures ShowsPack(o, o.catalog.value, d, PackNode(o, d))
  {
    var c, needs, n := o.catalog.value, Needs(o, d), PackNode(o, d);
    forall id
      ensures id in n.inputs <==> exists key :: key in PackDependencies(d.name) && key in c.packs && IsPackID(id, o, c.packs[key])
    {
      NeedInput(o, d, id);
    }
  }

  lemma NeedInput(o: Options, d: PackDef, id: ID)
    requires o.catalog.Some?
    ensures var c := o.catalog.value;
            id in IDs(o, Needs(o, d)) <==>
            exists key :: key in PackDependencies(d.name) && key in c.packs && IsPackID(id, o, c.packs[key])
  {
    var c, needs := o.catalog.value, Needs(o, d);
    if id in IDs(o, needs) {
      var i :| 0 <= i < |needs| && IDs(o, needs)[i] == id;
      DefsInMember(c, PackDependencies(d.name), needs[i]);
    }
    if key :| key in PackDependencies(d.name) && key in c.packs && IsPackID(id, o, c.packs[key]) {
      DefsInMember(c, PackDependencies(d.name), c.packs[key]);
      var i :| 0 <= i < |needs| && needs[i] == c.packs[key];
      assert IDs(o, needs)[i] == id;
    }
  }

  /** Every node of a plan is its runtime, a pack of the catalog, or the wheel or repair of an entry. */
  lemma NodesAreMade(o: Options, reqs: seq<DepSpec>, wheels: seq<WheelInput>, order: seq<string>, n: DAGNode)
    requires NamedCatalog(o) && PackInjective(o.hash)
    requires Plan(o, reqs, wheels, order).Planned? && n in Plan(o, reqs, wheels, order).dag
    ensures var dag := Plan(o, reqs, wheels, order).dag;
            match n.kind
            case Runtime => n == dag[0] && n.id == RuntimeID(o) && ShowsRuntime(o, n)
            case Pack => o.catalog.Some? && InCatalog(o, o.catalog.value, n)
            case Wheel => n in OfKind(dag, Wheel)
            case Repair => n in OfKind(dag, Repair)
  {
    ReadKeeps(o, reqs, wheels);
    CollectedKeep(o, Read(o, reqs, wheels), order);
    var dag := Plan(o, reqs, wheels, order).dag;
    Matcher.OfKindMembers(dag, n.kind);
    if n.kind.Pack? {
      assert Genuine(o, n);
      var d :| Offered(o, d) && n == PackNode(o, d);
      PackNodeShows(o, d);
      var key :| key in o.catalog.value.packs && o.catalog.value.packs[key] == d;
    }
  }

  // ----- No idle packs -----

  /** A later node has node i among its inputs. */
  ghost predicate UsedLater(dag: seq<DAGNode>, i: nat) {
    i < |dag| && exists j :: i < j < |dag| && dag[i].id in dag[j].inputs
  }

  lemma UsedStays(dag: seq<DAGNode>, more: seq<DAGNode>, i: nat)
    requires UsedLater(dag, i)
    ensures UsedLater(dag + more, i)
  {
    var j :| i < j < |dag| && dag[i].id in dag[j].inputs;
    assert (dag + more)[j] == dag[j];
  }

  /** Every node that q has and p has not is a pack, and one of ids or used later. */
  ghost predicate Loose(p: seq<DAGNode>, q: seq<DAGNode>, ids: seq<ID>) {
    p <= q && forall i: nat | |p| <= i < |q| :: q[i].kind.Pack? && (q[i].id in ids || UsedLater(q, i))
  }

  lemma LooseThen(p: seq<DAGNode>, q: seq<DAGNode>, r: seq<DAGNode>, a: seq<ID>, b: seq<ID>)
    requires Loose(p, q, a) && Loose(q, r, b)
    ensures Loose(p, r, a + b)
  {
    forall i: nat | |p| <= i < |r|
      ensures r[i].kind.Pack? && (r[i].id in a + b || UsedLater(r, i))
    {
      if i < |q| && UsedLater(q, i) {
        UsedStays(q, r[|q|..], i);
        assert q + r[|q|..] == r;
      }
    }
  }

  lemma UsedByNew(p: seq<DAGNode>, q: seq<DAGNode>, n: DAGNode, ids: seq<ID>)
    requires Loose(p, q, ids) && n.kind.Pack? && forall id | id in ids :: id in n.inputs
    ensures Loose(p, q + [n], [n.id])
  {
    var r := q + [n];
    forall i: nat | |p| <= i < |r|
      ensures r[i].kind.Pack? && (r[i].id in [n.id] || UsedLater(r, i))
    {
      if i < |q| {
        if q[i].id in ids {
          assert r[|q|] == n && r[i].id in r[|q|].inputs;
        } else {
          UsedStays(q, [n], i);
        }
      }
    }
  }

  lemma {:induction false} PackLoose(o: Options, p: PackState, def: PackDef)
    requires NamedCatalog(o)
    ensures Loose(p.dag, AddPack(o, p, def).dag, [PackID(o, def)])
    decreases 2 * PackRank(def.name) + 1, 0
  {
    if PackID(o, def).digest !in p.seen {
      NeedsRank(o, def);
      var q := AddPacks(o, p, Needs(o, def), PackRank(def.name));
      PacksLoose(o, p, Needs(o, def), PackRank(def.name));
      UsedByNew(p.dag, q.dag, PackNode(o, def), IDs(o, Needs(o, def)));
    }
  }

  lemma {:induction false} PacksLoose(o: Options, p: PackState, defs: seq<PackDef>, r: nat)
    requires NamedCatalog(o) && forall d | d in defs :: PackRank(d.name) < r
    ensures Loose(p.dag, AddPacks(o, p, defs, r).dag, IDs(o, defs))
    decreases 2 * r, |defs|
  {
    if defs != [] {
      var n := |defs| - 1;
      assert defs[n] in defs;
      var q := AddPacks(o, p, defs[..n], r);
      PacksLoose(o, p, defs[..n], r);
      PackLoose(o, q, defs[n]);
      LooseThen(p.dag, q.dag, AddPack(o, q, defs[n]).dag, IDs(o, defs[..n]), [PackID(o, defs[n])]);
      assert IDs(o, defs[..n]) + [PackID(o, defs[n])] == IDs(o, defs);
    }
  }

  ghost predicate NoIdle(dag: seq<DAGNode>) {
    forall i: nat | i < |dag| && dag[i].kind.Pack? :: UsedLater(dag, i)
  }

  /** The wheel uses the packs that are new and not used yet. */
  lemma WheelUses(p: seq<DAGNode>, q: seq<DAGNode>, ids: seq<ID>, wheel: DAGNode, repair: DAGNode)
    requires NoIdle(p) && Loose(p, q, ids) && wheel.kind.Wheel? && repair.kind.Repair?
    requires forall id | id in ids :: id in wheel.inputs
    ensures NoIdle(q + [wheel, repair])
  {
    var r := q + [wheel, repair];
    forall i: nat | i < |r| && r[i].kind.Pack?
      ensures UsedLater(r, i)
    {
      if i < |p| {
        UsedStays(p, r[|p|..], i);
        assert p + r[|p|..] == r;
      } else if q[i].id in ids {
        assert r[|q|] == wheel && r[i].id in r[|q|].inputs;
      } else {
        UsedStays(q, [wheel, repair], i);
      }
    }
  }

  lemma EmitNoIdle(o: Options, ps: PlanState, r: Request)
    requires NamedCatalog(o) && NoIdle(ps.packs.dag)
    ensures NoIdle(EmitNew(o, ps, r.name, r.version, r.source, r.compatible).packs.dag)
  {
    var defs := SelectPacks(o, r.name);
    AllBelowTop(defs);
    PacksLoose(o, ps.packs, defs, TOP_RANK);
    WheelUses(ps.packs.dag, AddPacks(o, ps.packs, defs, TOP_RANK).dag, IDs(o, defs), WheelOf(o, r), RepairNode(o, WheelOf(o, r)));
  }

  lemma {:induction false} RequirementsNoIdle(o: Options, reqs: seq<DepSpec>)
    requires NamedCatalog(o)
    ensures NoIdle(AddRequirements(o, Start(o), reqs).packs.dag)
  {
    if reqs != [] {
      RequirementsNoIdle(o, reqs[..|reqs| - 1]);
      var ps, spec := AddRequirements(o, Start(o), reqs[..|reqs| - 1]), reqs[|reqs| - 1];
      var r := ReqRequest(o, spec);
      EmitNoIdle(o, ps.(hasInput := true, deps := ps.deps[r.name := r.version]), r);
    }
  }

  lemma {:induction false} ReadNoIdle(o: Options, reqs: seq<DepSpec>, wheels: seq<WheelInput>)
    requires NamedCatalog(o)
    ensures NoIdle(Read(o, reqs, wheels).packs.dag)
  {
    if wheels == [] {
      RequirementsNoIdle(o, reqs);
    } else {
      ReadNoIdle(o, reqs, wheels[..|wheels| - 1]);
      var ps, w := Read(o, reqs, wheels[..|wheels| - 1]), wheels[|wheels| - 1];
      if Usable(w) {
        CollectKeeps(o, ps.(hasInput := true), w.requires_);
        EmitNoIdle(o, Collect(o, ps.(hasInput := true), w.requires_), WheelRequest(o, w));
      }
    }
  }

  lemma {:induction false} CollectedNoIdle(o: Options, ps: PlanState, order: seq<string>)
    requires NamedCatalog(o) && NoIdle(ps.packs.dag)
    ensures NoIdle(AddAllCollected(o, ps, order).packs.dag)
  {
    if order != [] {
      var init, dep := order[..|order| - 1], order[|order| - 1];
      CollectedNoIdle(o, ps, init);
      CollectedSame(o, ps, init);
      if dep != "" && dep in ps.deps {
        EmitNoIdle(o, AddAllCollected(o, ps, init), CollectedRequest(o, dep, ps.deps[dep]));
      }
    }
  }

  /** Every pack of a plan is an input of a later node. */
  lemma PlansHaveNoIdlePacks(o: Options, reqs: seq<DepSpec>, wheels: seq<WheelInput>, order: seq<string>)
    requires NamedCatalog(o) && Plan(o, reqs, wheels, order).Planned?
    ensures NoIdle(Plan(o, reqs, wheels, order).dag)
  {
    ReadNoIdle(o, reqs, wheels);
    CollectedNoIdle(o, Read(o, reqs, wheels), order);
  }

  // ----- Reuse -----

  /** The store holds a wheel whose key is k up to the order of its packs. */
  ghost predicate Stored(o: Options, k: WheelKey) {
    exists s :: Equivalent(s, k) && ID(Wheel, WheelDigest(o.hash, s)) in o.store
  }

  lemma StoredIff(o: Options, k: WheelKey)
    requires WheelInjective(o.hash)
    ensures ID(Wheel, WheelDigest(o.hash, k)) in o.store <==> Stored(o, k)
  {
    forall s | Equivalent(s, k)
      ensures WheelDigest(o.hash, s) == WheelDigest(o.hash, k)
    {
      WheelDigestIff(o.hash, s, k);
    }
    assert Equivalent(k, k);
  }

  /** The wheel of an entry is reused exactly when the entry itself is, or the store holds a wheel with the
      same source, tags, runtime and packs, in any order; the source is that of whoever asked first. */
  lemma EntriesReusedIffStored(o: Options, reqs: seq<DepSpec>, wheels: seq<WheelInput>, order: seq<string>, i: nat)
    requires NamedCatalog(o) && WheelInjective(o.hash) && Walk(order, Read(o, reqs, wheels).deps.Keys)
    requires Plan(o, reqs, wheels, order).Planned? && i < |Plan(o, reqs, wheels, order).nodes|
    ensures var p := Plan(o, reqs, wheels, order);
            && i < |OfKind(p.dag, Wheel)|
            && exists r :: FirstAsked(o, reqs, wheels, r)
                 && r.name == p.nodes[i].name && r.version == p.nodes[i].version
                 && (OfKind(p.dag, Wheel)[i].action == "reuse" <==>
                       p.nodes[i].action == "reuse" || Stored(o, WheelKeyOf(o, r.name, r.source)))
  {
    EntriesAreFirstAsked(o, reqs, wheels, order, i);
    var p := Plan(o, reqs, wheels, order);
    var r :| FirstAsked(o, reqs, wheels, r) && Shows(o, r, p.nodes[i], OfKind(p.dag, Wheel)[i], OfKind(p.dag, Repair)[i]);
    KeyOfShown(o, r, p.nodes[i], OfKind(p.dag, Wheel)[i], OfKind(p.dag, Repair)[i]);
    StoredIff(o, WheelKeyOf(o, r.name, r.source));
  }

  lemma KeyOfShown(o: Options, r: Request, node: FlatNode, wheel: DAGNode, repair: DAGNode)
    requires Shows(o, r, node, wheel, repair)
    ensures wheel.id == ID(Wheel, WheelDigest(o.hash, WheelKeyOf(o, r.name, r.source)))
  {
    var packs := IDs(o, SelectPacks(o, r.name));
    assert WheelNamed(o, r.source, wheel) && wheel.inputs == [RuntimeID(o)] + packs;
    var ds :| |ds| + 1 == |wheel.inputs| && (forall k | 0 <= k < |ds| :: ds[k] == wheel.inputs[k + 1].digest)
              && wheel.id == ID(Wheel, WheelDigest(o.hash, WheelKey(r.source, PyTag(o), o.platformTag,
                                                                    RuntimeID(o).digest, ds, "", "", "", "")));
    DigestsAre(RuntimeID(o), packs, ds);
  }

  lemma DigestsAre(first: ID, packs: seq<ID>, ds: seq<string>)
    requires |ds| == |packs| && forall k | 0 <= k < |ds| :: ds[k] == ([first] + packs)[k + 1].digest
    ensures ds == DigestsOf(packs)
  {
    forall k | 0 <= k < |ds|
      ensures ds[k] == DigestsOf(packs)[k]
    {
      assert ds[k] == ([first] + packs)[k + 1].digest;
    }
  }

  // ----- A pinned requirement under the eager strategy -----

  ghost predicate HasEntry(nodes: seq<FlatNode>, name: string, version: string) {
    exists i :: 0 <= i < |nodes| && nodes[i].name + "::" + nodes[i].version == name + "::" + version
  }

  lemma PinnedText(o: Options)
    ensures RequiredVersion(o, DepSpec("x", "1.0")) == "1.0" && NormalizeName("x") == "x"
  {
    Matcher.NameOfX();
    assert TrimSpace("1.0") == "1.0";
  }

  /** The name of a requirement is collected too: with an eager resolver that knows x 2.0, the
      requirement x==1.0 alone is planned twice, as 1.0 and as 2.0. */
  lemma EagerPlansPinnedTwice(o: Options)
    requires NamedCatalog(o) && o.eager && Offers(o, "x", "2.0")
    ensures var p := Plan(o, [DepSpec("x", "1.0")], [], ["x"]);
            p.Planned? && HasEntry(p.nodes, "x", "1.0") && HasEntry(p.nodes, "x", "2.0")
  {
    var spec := DepSpec("x", "1.0");
    var reqs := [spec];
    Matcher.OneRequirement(o);
    PinnedText(o);
    var first := ReqRequest(o, spec);
    ReqAsksIff(o, spec, first);
    assert ReqAsks(o, reqs[0], first);
    AskedHasEntry(o, reqs, [], ["x"], first);
    NewRequirement(o, [], spec);
    assert [] + [spec] == reqs && NormalizeName(reqs[0].name) == "x";
    var second := Request("x", "2.0", SourceDigest(o, "x", "2.0"), false);
    SourceIs(o, second);
    assert Settled(o, reqs, Dependencies([]), "x", "1.0") && CollectedAs(o, "x", "1.0", "2.0");
    assert CollectedAsks(o, reqs, Dependencies([]), second);
    AskedHasEntry(o, reqs, [], ["x"], second);
  }
}
