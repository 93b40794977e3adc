/** The plan does not depend on the order in which the map of collected names is walked. */
module PlanOrder {
  import opened Text
  import opened Artifact
  import opened Keys
  import opened Catalog
  import opened PlanSpec
  import opened PlanProps
  import opened PlanResults
  import opened PlanRequests

  ghost function NodeSet(dag: seq<DAGNode>): set<DAGNode> {
    set n | n in dag
  }

  ghost function EntrySet(nodes: seq<FlatNode>): set<FlatNode> {
    set n | n in nodes
  }

  /** The pack nodes a pack brings along: its own and those of everything it needs. */
  ghost function Closure(o: Options, def: PackDef): set<DAGNode>
    requires NamedCatalog(o)
    decreases 2 * PackRank(def.name) + 1, 0
  {
    NeedsRank(o, def);
    ClosureAll(o, Needs(o, def), PackRank(def.name)) + {PackNode(o, def)}
  }

  ghost function ClosureAll(o: Options, defs: seq<PackDef>, r: nat): set<DAGNode>
    requires NamedCatalog(o) && forall d | d in defs :: PackRank(d.name) < r
    decreases 2 * r, |defs|
  {
    if defs == [] then {}
    else
      var n := |defs| - 1;
      assert defs[n] in defs;
      ClosureAll(o, defs[..n], r) + Closure(o, defs[n])
  }

  /** Whatever is marked as seen is there, with everything it needs. */
  ghost predicate Complete(o: Options, p: PackState)
    requires NamedCatalog(o)
  {
    forall def: PackDef | PackID(o, def).digest in p.seen :: Closure(o, def) <= NodeSet(p.dag)
  }

  lemma ClosureOfKey(o: Options, a: PackDef, b: PackDef)
    requires NamedCatalog(o) && PackInjective(o.hash) && PackID(o, a).digest == PackID(o, b).digest
    ensures Closure(o, a) == Closure(o, b)
  {
    assert KeyOf(a) == KeyOf(b);
  }

  lemma NodeSetConcat(a: seq<DAGNode>, b: seq<DAGNode>)
    ensures NodeSet(a + b) == NodeSet(a) + NodeSet(b)
  {
  }

  lemma {:induction false} AddPackSet(o: Options, p: PackState, def: PackDef)
    requires NamedCatalog(o) && PackInjective(o.hash) && Complete(o, p)
    ensures Complete(o, AddPack(o, p, def))
    ensures NodeSet(AddPack(o, p, def).dag) == NodeSet(p.dag) + Closure(o, def)
    decreases 2 * PackRank(def.name) + 1, 0
  {
    if PackID(o, def).digest !in p.seen {
      NeedsRank(o, def);
      var q := AddPacks(o, p, Needs(o, def), PackRank(def.name));
      AddPacksSet(o, p, Needs(o, def), PackRank(def.name));
      NodeSetConcat(q.dag, [PackNode(o, def)]);
      var r := AddPack(o, p, def);
      forall e: PackDef | PackID(o, e).digest in r.seen
        ensures Closure(o, e) <= NodeSet(r.dag)
      {
        if PackID(o, e).digest in q.seen {
          assert Closure(o, e) <= NodeSet(q.dag);
        } else {
          ClosureOfKey(o, e, def);
        }
      }
    }
  }

  lemma {:induction false} AddPacksSet(o: Options, p: PackState, defs: seq<PackDef>, r: nat)
    requires NamedCatalog(o) && PackInjective(o.hash) && Complete(o, p)
    requires forall d | d in defs :: PackRank(d.name) < r
    ensures Complete(o, AddPacks(o, p, defs, r))
    ensures NodeSet(AddPacks(o, p, defs, r).dag) == NodeSet(p.dag) + ClosureAll(o, defs, r)
    decreases 2 * r, |defs|
  {
    if defs != [] {
      var n := |defs| - 1;
      assert defs[n] in defs;
      AddPacksSet(o, p, defs[..n], r);
      AddPackSet(o, AddPacks(o, p, defs[..n], r), defs[n]);
    }
  }

  /** The DAG nodes one plan entry needs. */
  ghost function EmitSet(o: Options, name: string, version: string, source: string, compatible: bool): set<DAGNode>
    requires NamedCatalog(o)
  {
    AllBelowTop(SelectPacks(o, name));
    var wheel := WheelNode(o, name, version, source, compatible);
    ClosureAll(o, SelectPacks(o, name), TOP_RANK) + {wheel, RepairNode(o, wheel)}
  }

  lemma EmitSets(o: Options, ps: PlanState, name: string, version: string, source: string, compatible: bool)
    requires NamedCatalog(o) && PackInjective(o.hash) && Complete(o, ps.packs)
    ensures var q := Emit(o, ps, name, version, source, compatible);
            && Complete(o, q.packs)
            && NodeSet(q.packs.dag) == NodeSet(ps.packs.dag) + EmitSet(o, name, version, source, compatible)
            && EntrySet(q.nodes) == EntrySet(ps.nodes) + {PlanNodeFor(o, name, version, compatible)}
  {
    var defs := SelectPacks(o, name);
    AllBelowTop(defs);
    var p := AddPacks(o, ps.packs, defs, TOP_RANK);
    AddPacksSet(o, ps.packs, defs, TOP_RANK);
    var wheel := WheelNode(o, name, version, source, compatible);
    NodeSetConcat(p.dag, [wheel, RepairNode(o, wheel)]);
    assert NodeSet([wheel, RepairNode(o, wheel)]) == {wheel, RepairNode(o, wheel)};
    var q := Emit(o, ps, name, version, source, compatible);
    forall e: PackDef | PackID(o, e).digest in q.packs.seen
      ensures Closure(o, e) <= NodeSet(q.packs.dag)
    {
      assert Closure(o, e) <= NodeSet(p.dag);
    }
  }

  lemma EmitNewComplete(o: Options, ps: PlanState, name: string, version: string, source: string, compatible: bool)
    requires NamedCatalog(o) && PackInjective(o.hash) && Complete(o, ps.packs)
    ensures Complete(o, EmitNew(o, ps, name, version, source, compatible).packs)
  {
    EmitSets(o, ps, name, version, source, compatible);
  }

  lemma {:induction false} RequirementsComplete(o: Options, reqs: seq<DepSpec>)
    requires NamedCatalog(o) && PackInjective(o.hash)
    ensures Complete(o, AddRequirements(o, Start(o), reqs).packs)
  {
    if reqs != [] {
      RequirementsComplete(o, reqs[..|reqs| - 1]);
      var ps, spec := AddRequirements(o, Start(o), reqs[..|reqs| - 1]), reqs[|reqs| - 1];
      var name, version := NormalizeName(spec.name), RequiredVersion(o, spec);
      EmitNewComplete(o, ps.(hasInput := true, deps := ps.deps[name := version]), name, version,
                      SourceDigest(o, name, version), false);
    }
  }

  lemma WheelComplete(o: Options, ps: PlanState, w: WheelInput)
    requires NamedCatalog(o) && PackInjective(o.hash) && Complete(o, ps.packs) && Usable(w)
    ensures Complete(o, AddWheel(o, ps, w).packs)
  {
    CollectKeeps(o, ps.(hasInput := true), w.requires_);
    var c := Collect(o, ps.(hasInput := true), w.requires_);
    var ov := Overridden(o, w.name);
    if ov.Some? {
      EmitNewComplete(o, c, w.name, ov.value, SourceDigest(o, w.name, ov.value), false);
    } else {
      EmitNewComplete(o, c, w.name, w.version,
                      if w.digest == "" then SourceDigest(o, w.name, w.version) else w.digest, IsCompatible(o, w));
    }
  }

  lemma {:induction false} ReadComplete(o: Options, reqs: seq<DepSpec>, wheels: seq<WheelInput>)
    requires NamedCatalog(o) && PackInjective(o.hash)
    ensures Complete(o, Read(o, reqs, wheels).packs)
  {
    if wheels == [] {
      RequirementsComplete(o, reqs);
    } else {
      ReadComplete(o, reqs, wheels[..|wheels| - 1]);
      if Usable(wheels[|wheels| - 1]) {
        WheelComplete(o, Read(o, reqs, wheels[..|wheels| - 1]), wheels[|wheels| - 1]);
      }
    }
  }

  // ----- The last pass -----

  /** The collected name dep is planned by the last pass that starts from ps. */
  ghost predicate Adds(o: Options, ps: PlanState, dep: string) {
    dep != "" && dep in ps.deps && SeenKey(dep, CollectedVersion(o, dep, ps.deps[dep])) !in ps.seen
  }

  ghost function AddedNodes(o: Options, ps: PlanState, dep: string): set<DAGNode>
    requires NamedCatalog(o)
  {
    if Adds(o, ps, dep) then
      var v := CollectedVersion(o, dep, ps.deps[dep]);
      EmitSet(o, dep, v, SourceDigest(o, dep, v), false)
    else {}
  }

  ghost function AddedEntries(o: Options, ps: PlanState, dep: string): set<FlatNode> {
    if Adds(o, ps, dep) then {PlanNodeFor(o, dep, CollectedVersion(o, dep, ps.deps[dep]), false)} else {}
  }

  /** q is ps with exactly what the names in done add. */
  ghost predicate Extended(o: Options, ps: PlanState, q: PlanState, done: set<string>)
    requires NamedCatalog(o)
  {
    && q.deps == ps.deps
    && Complete(o, q.packs)
    && (forall x :: x in NodeSet(q.packs.dag) <==>
          x in NodeSet(ps.packs.dag) || exists d :: d in done && x in AddedNodes(o, ps, d))
    && (forall x :: x in EntrySet(q.nodes) <==>
          x in EntrySet(ps.nodes) || exists d :: d in done && x in AddedEntries(o, ps, d))
    && (forall s :: s in q.seen <==>
          s in ps.seen || exists d :: d in done && d != "" && d in ps.deps && s == SeenKey(d, CollectedVersion(o, d, ps.deps[d])))
  }

  /** The key under which the last pass plans the collected name dep. */
  function LastKey(o: Options, ps: PlanState, dep: string): string
    requires dep in ps.deps
  {
    SeenKey(dep, CollectedVersion(o, dep, ps.deps[dep]))
  }

  /** No two of the names are planned under one key, unless that key was planned before. */
  ghost predicate NoClash(o: Options, ps: PlanState, names: set<string>) {
    forall d, e | d in names && e in names && d in ps.deps && e in ps.deps && d != "" && e != "" && d != e ::
      LastKey(o, ps, d) == LastKey(o, ps, e) ==> LastKey(o, ps, d) in ps.seen
  }

  lemma ExtendedStep(o: Options, ps: PlanState, q: PlanState, done: set<string>, dep: string)
    requires NamedCatalog(o) && PackInjective(o.hash)
    requires Extended(o, ps, q, done) && dep !in done
    requires NoClash(o, ps, done + {dep})
    ensures Extended(o, ps, AddCollected(o, q, dep), done + {dep})
  {
    var r := AddCollected(o, q, dep);
    if dep != "" && dep in ps.deps {
      var v := CollectedVersion(o, dep, ps.deps[dep]);
      assert SeenKey(dep, v) in q.seen <==> SeenKey(dep, v) in ps.seen by {
        forall d | d in done && d != "" && d in ps.deps && LastKey(o, ps, d) == LastKey(o, ps, dep)
          ensures LastKey(o, ps, dep) in ps.seen
        {
        }
      }
      EmitSets(o, q, dep, v, SourceDigest(o, dep, v), false);
      assert NodeSet(r.packs.dag) == NodeSet(q.packs.dag) + AddedNodes(o, ps, dep);
      assert EntrySet(r.nodes) == EntrySet(q.nodes) + AddedEntries(o, ps, dep);
    } else {
      assert r == q && AddedNodes(o, ps, dep) == {} && AddedEntries(o, ps, dep) == {};
    }
  }

  lemma {:induction false} LastPass(o: Options, ps: PlanState, order: seq<string>)
    requires NamedCatalog(o) && PackInjective(o.hash) && Complete(o, ps.packs)
    requires NoClash(o, ps, SetOf(order)) && forall i, j | 0 <= i < j < |order| :: order[i] != order[j]
    ensures Extended(o, ps, AddAllCollected(o, ps, order), SetOf(order))
  {
    if order != [] {
      var n := |order| - 1;
      assert order == order[..n] + [order[n]];
      SetOfConcat(order[..n], [order[n]]);
      assert SetOf(order[..n]) + {order[n]} == SetOf(order);
      LastPass(o, ps, order[..n]);
      ExtendedStep(o, ps, AddAllCollected(o, ps, order[..n]), SetOf(order[..n]), order[n]);
    }
  }

  /** Two results with the same entries and the same DAG nodes, or the same failure. */
  ghost predicate SamePlan(a: Result, b: Result) {
    if a.Planned? && b.Planned? then NodeSet(a.dag) == NodeSet(b.dag) && EntrySet(a.nodes) == EntrySet(b.nodes)
    else a == b
  }

  /** Whichever way the collected names are walked, the plan has the same entries and the same DAG nodes,
      if no two of those names clash. */
  lemma WalkDoesNotMatter(o: Options, reqs: seq<DepSpec>, wheels: seq<WheelInput>, order1: seq<string>, order2: seq<string>)
    requires NamedCatalog(o) && PackInjective(o.hash)
    requires var ps := Read(o, reqs, wheels);
             NoClash(o, ps, ps.deps.Keys) && Walk(order1, ps.deps.Keys) && Walk(order2, ps.deps.Keys)
    ensures SamePlan(Plan(o, reqs, wheels, order1), Plan(o, reqs, wheels, order2))
  {
    var ps := Read(o, reqs, wheels);
    ReadComplete(o, reqs, wheels);
    CollectedSame(o, ps, order1);
    CollectedSame(o, ps, order2);
    WalkIsSet(order1, ps.deps.Keys);
    WalkIsSet(order2, ps.deps.Keys);
    LastPass(o, ps, order1);
    LastPass(o, ps, order2);
    SameExtension(o, ps, AddAllCollected(o, ps, order1), AddAllCollected(o, ps, order2), ps.deps.Keys);
  }

  /** Plain names do not clash. */
  lemma PlainNamesDoNotClash(o: Options, ps: PlanState, names: set<string>)
    requires AllPlain(names)
    ensures NoClash(o, ps, names)
  {
    forall d, e | d in names && e in names && d in ps.deps && e in ps.deps && d != "" && e != "" && d != e
      ensures LastKey(o, ps, d) != LastKey(o, ps, e)
    {
      if LastKey(o, ps, d) == LastKey(o, ps, e) {
        KeyIsUnique(d, CollectedVersion(o, d, ps.deps[d]), e, CollectedVersion(o, e, ps.deps[e]));
      }
    }
  }

  // ----- When the walk matters -----

  lemma {:induction false} WalkExists(keys: set<string>) returns (order: seq<string>)
    ensures Walk(order, keys)
    decreases keys
  {
    if keys == {} {
      order := [];
    } else {
      var k :| k in keys;
      var rest := WalkExists(keys - {k});
      order := [k] + rest;
    }
  }

  lemma {:induction false} FirstCollected(o: Options, ps: PlanState, d: string, rest: seq<string>)
    requires d in ps.deps && d != ""
    ensures var rs := CollectedRequests(o, ps.deps, [d] + rest); rs != [] && rs[0] == CollectedRequest(o, d, ps.deps[d])
  {
    if rest == [] {
      assert [d][..0] == [];
    } else {
      var n := |rest| - 1;
      assert ([d] + rest)[..n + 1] == [d] + rest[..n];
      FirstCollected(o, ps, d, rest[..n]);
    }
  }

  lemma AskedAt(rs: seq<Request>, j: nat)
    requires j < |rs|
    ensures Asked(rs, RequestKey(rs[j]))
  {
    assert rs[j] in rs;
  }

  /** Of the requests with the key of the name that is walked first, only that name's own is planned. */
  lemma WalkedFirst(o: Options, ps: PlanState, rs: seq<Request>, d: string, rest: seq<string>, r: Request)
    requires NamedCatalog(o) && Tracks(o, ps, rs) && d in ps.deps && d != ""
    requires LastKey(o, ps, d) !in ps.seen && RequestKey(r) == LastKey(o, ps, d)
    ensures r in FirstOfKey(rs + CollectedRequests(o, ps.deps, [d] + rest)) <==> r == CollectedRequest(o, d, ps.deps[d])
  {
    var more := CollectedRequests(o, ps.deps, [d] + rest);
    var all, n := rs + more, |rs|;
    FirstCollected(o, ps, d, rest);
    FirstOfKeyMember(all, r);
    forall j | 0 <= j < n
      ensures RequestKey(all[j]) != RequestKey(r)
    {
      AskedAt(rs, j);
    }
    assert all[n] == CollectedRequest(o, d, ps.deps[d]);
    forall i: nat | i < |all| && all[i] == r && IsFirst(all, i)
      ensures i == n
    {
    }
    if r == CollectedRequest(o, d, ps.deps[d]) {
      assert IsFirst(all, n);
    }
  }

  lemma EntryOfMember(o: Options, rs: seq<Request>, node: FlatNode)
    ensures node in EntrySet(Entries(o, rs)) <==> exists r :: r in rs && EntryOf(o, r) == node
  {
    if node in Entries(o, rs) {
      var i :| 0 <= i < |rs| && Entries(o, rs)[i] == node;
      assert rs[i] in rs && EntryOf(o, rs[i]) == node;
    }
    if r :| r in rs && EntryOf(o, r) == node {
      var i :| 0 <= i < |rs| && rs[i] == r;
      assert Entries(o, rs)[i] == node;
    }
  }

  /** Two names that clash: whichever is walked first keeps the other out of the plan. */
  lemma ClashShows(o: Options, ps: PlanState, rs: seq<Request>, d: string, e: string, rest1: seq<string>, rest2: seq<string>)
    requires NamedCatalog(o) && Tracks(o, ps, rs) && d in ps.deps && e in ps.deps && d != "" && e != "" && d != e
    requires LastKey(o, ps, d) == LastKey(o, ps, e) && LastKey(o, ps, d) !in ps.seen
    ensures EntrySet(AddAllCollected(o, ps, [d] + rest1).nodes) != EntrySet(AddAllCollected(o, ps, [e] + rest2).nodes)
  {
    var firsts1 := FirstOfKey(rs + CollectedRequests(o, ps.deps, [d] + rest1));
    var firsts2 := FirstOfKey(rs + CollectedRequests(o, ps.deps, [e] + rest2));
    CollectedTrack(o, ps, rs, [d] + rest1);
    CollectedTrack(o, ps, rs, [e] + rest2);
    var r := CollectedRequest(o, d, ps.deps[d]);
    WalkedFirst(o, ps, rs, d, rest1, r);
    EntryOfMember(o, firsts1, EntryOf(o, r));
    EntryOfMember(o, firsts2, EntryOf(o, r));
    if q :| q in firsts2 && EntryOf(o, q) == EntryOf(o, r) {
      WalkedFirst(o, ps, rs, e, rest2, q);
    }
  }

  lemma WalkFrom(keys: set<string>, d: string) returns (rest: seq<string>)
    requires d in keys
    ensures Walk([d] + rest, keys)
  {
    rest := WalkExists(keys - {d});
  }

  lemma ClashMatters(o: Options, reqs: seq<DepSpec>, wheels: seq<WheelInput>, d: string, e: string)
    returns (order1: seq<string>, order2: seq<string>)
    requires NamedCatalog(o) && Read(o, reqs, wheels).hasInput && !Read(o, reqs, wheels).truncated
    requires var ps := Read(o, reqs, wheels);
             && d in ps.deps && e in ps.deps && d != "" && e != "" && d != e
             && LastKey(o, ps, d) == LastKey(o, ps, e) && LastKey(o, ps, d) !in ps.seen
    ensures Walk(order1, Read(o, reqs, wheels).deps.Keys) && Walk(order2, Read(o, reqs, wheels).deps.Keys)
    ensures !SamePlan(Plan(o, reqs, wheels, order1), Plan(o, reqs, wheels, order2))
  {
    var ps := Read(o, reqs, wheels);
    var rest1 := WalkFrom(ps.deps.Keys, d);
    var rest2 := WalkFrom(ps.deps.Keys, e);
    order1, order2 := [d] + rest1, [e] + rest2;
    ReadTracks(o, reqs, wheels);
    ClashShows(o, ps, ReadRequests(o, reqs, wheels), d, e, rest1, rest2);
    OutcomeOfRead(o, reqs, wheels, order1);
    OutcomeOfRead(o, reqs, wheels, order2);
  }

  /** The plan is the same for every walk exactly when no two collected names clash. */
  lemma WalkMattersIff(o: Options, reqs: seq<DepSpec>, wheels: seq<WheelInput>)
    requires NamedCatalog(o) && PackInjective(o.hash)
    requires Read(o, reqs, wheels).hasInput && !Read(o, reqs, wheels).truncated
    ensures var ps := Read(o, reqs, wheels);
            NoClash(o, ps, ps.deps.Keys) <==>
            forall order1, order2 | Walk(order1, ps.deps.Keys) && Walk(order2, ps.deps.Keys) ::
              SamePlan(Plan(o, reqs, wheels, order1), Plan(o, reqs, wheels, order2))
  {
    var ps := Read(o, reqs, wheels);
    if NoClash(o, ps, ps.deps.Keys) {
      forall order1, order2 | Walk(order1, ps.deps.Keys) && Walk(order2, ps.deps.Keys)
        ensures SamePlan(Plan(o, reqs, wheels, order1), Plan(o, reqs, wheels, order2))
      {
        WalkDoesNotMatter(o, reqs, wheels, order1, order2);
      }
    } else {
      var d, e :| d in ps.deps && e in ps.deps && d != "" && e != "" && d != e
                  && LastKey(o, ps, d) == LastKey(o, ps, e) && LastKey(o, ps, d) !in ps.seen;
      var order1, order2 := ClashMatters(o, reqs, wheels, d, e);
    }
  }

  lemma SameExtension(o: Options, ps: PlanState, q: PlanState, r: PlanState, done: set<string>)
    requires NamedCatalog(o) && Extended(o, ps, q, done) && Extended(o, ps, r, done)
    ensures NodeSet(q.packs.dag) == NodeSet(r.packs.dag) && EntrySet(q.nodes) == EntrySet(r.nodes)
  {
  }

  /** A wheel that needs "a" in version ":b" and "a:" in version "b". */
  const CLASHING := WheelInput("w", "1", "cp311", "none", "any", "", [DepSpec("a", ":b"), DepSpec("a:", "b")])

  lemma CollectTwo(o: Options, ps: PlanState, d: DepSpec, e: DepSpec)
    requires ps.deps == map[] && MaxDeps(o) >= 2
    requires d.name != "" && e.name != "" && d.version != "" && d.name != e.name && e.version != ""
    ensures Collect(o, ps, [d, e]) == ps.(deps := map[d.name := d.version, e.name := e.version])
  {
    assert [d, e][1..] == [e] && [e][1..] == [];
    var one := CollectOne(o, ps, d);
    assert one.deps == map[d.name := d.version] && one.deps.Keys == {d.name};
    assert |one.deps| == |one.deps.Keys| == 1;
    assert Collect(o, one, [e]) == Collect(o, CollectOne(o, one, e), []);
  }

  lemma OneWheel(o: Options, w: WheelInput)
    requires NamedCatalog(o)
    ensures Read(o, [], [w]) == AddWheel(o, Start(o), w)
    ensures ReadRequests(o, [], [w]) == if Usable(w) then [WheelRequest(o, w)] else []
  {
    var ws := [w];
    assert ws[..|ws| - 1] == [] && ws[|ws| - 1] == w;
    assert AddRequirements(o, Start(o), []) == Start(o) && AddWheels(o, Start(o), []) == Start(o);
    assert AddWheels(o, Start(o), ws) == AddWheel(o, AddWheels(o, Start(o), []), w);
    assert WheelRequests(o, []) == [] && ReqRequests(o, []) == [];
  }

  lemma ClashingRead(o: Options)
    requires NamedCatalog(o) && o.overrides == map[] && MaxDeps(o) >= 2
    ensures var ps := Read(o, [], [CLASHING]);
            ps.deps == map["a" := ":b", "a:" := "b"] && ps.hasInput && !ps.truncated
    ensures ReadRequests(o, [], [CLASHING]) == [WheelRequest(o, CLASHING)] && WheelRequest(o, CLASHING).version == "1"
  {
    OneWheel(o, CLASHING);
    CollectTwo(o, Start(o).(hasInput := true), CLASHING.requires_[0], CLASHING.requires_[1]);
    WheelDeps(o, Start(o), CLASHING);
  }

  lemma ClashingKeys()
    ensures SeenKey("w", "1") != SeenKey("a", ":b") == SeenKey("a:", "b")
  {
    assert SeenKey("w", "1")[0] == 'w' && SeenKey("a", ":b")[0] == 'a';
  }

  lemma TwoCollected(o: Options, deps: map<string, string>, d: string, e: string)
    requires d in deps && e in deps && d != "" && e != "" && deps[d] != "" && deps[e] != ""
    requires o.overrides == map[] && o.constraints == map[] && !o.eager
    ensures CollectedRequests(o, deps, [d, e]) == [CollectedRequest(o, d, deps[d]), CollectedRequest(o, e, deps[e])]
    ensures CollectedRequest(o, d, deps[d]).version == deps[d] && CollectedRequest(o, e, deps[e]).version == deps[e]
  {
    assert [d, e][..1] == [d] && [d][..0] == [];
    assert CollectedRequests(o, deps, [d]) == [CollectedRequest(o, d, deps[d])];
  }

  lemma ClashingRequests(o: Options, d: string, e: string)
    requires NamedCatalog(o) && o.overrides == map[] && o.constraints == map[] && !o.eager && MaxDeps(o) >= 2
    requires (d == "a" && e == "a:") || (d == "a:" && e == "a")
    ensures var rs := Requests(o, [], [CLASHING], [d, e]);
            && |rs| == 3 && rs[0].name == "w" && rs[1].name == d && rs[2].name == e
            && RequestKey(rs[0]) != RequestKey(rs[1]) == RequestKey(rs[2])
  {
    ClashingRead(o);
    ClashingKeys();
    TwoCollected(o, map["a" := ":b", "a:" := "b"], d, e);
  }

  lemma FirstOfClash(o: Options, rs: seq<Request>)
    requires |rs| == 3
    requires RequestKey(rs[0]) != RequestKey(rs[1]) == RequestKey(rs[2])
    requires rs[0].name != rs[1].name && rs[1].name != rs[2].name && rs[0].name != rs[2].name
    ensures Names(Entries(o, FirstOfKey(rs))) == {rs[0].name, rs[1].name}
  {
    assert IsFirst(rs, 0) && IsFirst(rs, 1) && !IsFirst(rs, 2);
    forall n
      ensures n in Names(Entries(o, FirstOfKey(rs))) <==> n == rs[0].name || n == rs[1].name
    {
      NamesOfEntries(o, rs, n);
    }
  }

  lemma ClashingWalk(o: Options, d: string, e: string)
    requires NamedCatalog(o) && o.overrides == map[] && o.constraints == map[] && !o.eager && MaxDeps(o) >= 2
    requires (d == "a" && e == "a:") || (d == "a:" && e == "a")
    ensures Walk([d, e], Read(o, [], [CLASHING]).deps.Keys)
    ensures var p := Plan(o, [], [CLASHING], [d, e]); p.Planned? && Names(p.nodes) == {"w", d}
  {
    ClashingRead(o);
    OutcomeOfRead(o, [], [CLASHING], [d, e]);
    ClashingRequests(o, d, e);
    PlanIsFirstRequests(o, [], [CLASHING], [d, e]);
    FirstOfClash(o, Requests(o, [], [CLASHING], [d, e]));
  }

  /** Plain names are needed: from one wheel that needs "a" in version ":b" and "a:" in version "b", only the
      one that is walked first is planned. */
  lemma CollidingNamesDependOnWalk(o: Options)
    requires NamedCatalog(o) && o.overrides == map[] && o.constraints == map[] && !o.eager && MaxDeps(o) >= 2
    ensures var keys := Read(o, [], [CLASHING]).deps.Keys; Walk(["a", "a:"], keys) && Walk(["a:", "a"], keys)
    ensures var p, q := Plan(o, [], [CLASHING], ["a", "a:"]), Plan(o, [], [CLASHING], ["a:", "a"]);
            && p.Planned? && Names(p.nodes) == {"w", "a"}
            && q.Planned? && Names(q.nodes) == {"w", "a:"}
  {
    ClashingWalk(o, "a", "a:");
    ClashingWalk(o, "a:", "a");
  }
}
