/** A plan is the list of its requests without those whose key was requested before. */
module PlanRequests {
  import opened Text
  import opened Artifact
  import opened Keys
  import opened Catalog
  import opened PlanSpec
  import opened PlanProps
  import opened PlanResults

  function RequestKey(r: Request): string {
    SeenKey(r.name, r.version)
  }

  /** What a requirement asks for. */
  function ReqRequest(o: Options, spec: DepSpec): Request {
    var name, version := NormalizeName(spec.name), RequiredVersion(o, spec);
    Request(name, version, SourceDigest(o, name, version), false)
  }

  function ReqRequests(o: Options, reqs: seq<DepSpec>): seq<Request> {
    if reqs == [] then []
    else
      var n := |reqs| - 1;
      ReqRequests(o, reqs[..n]) + (if NormalizeName(reqs[n].name) == "" then [] else [ReqRequest(o, reqs[n])])
  }

  /** What a usable wheel asks for: its override if there is one, else itself. */
  function WheelRequest(o: Options, w: WheelInput): Request {
    var ov := Overridden(o, w.name);
    if ov.Some? then Request(w.name, ov.value, SourceDigest(o, w.name, ov.value), false)
    else Request(w.name, w.version, if w.digest == "" then SourceDigest(o, w.name, w.version) else w.digest,
                 IsCompatible(o, w))
  }

  function WheelRequests(o: Options, wheels: seq<WheelInput>): seq<Request> {
    if wheels == [] then []
    else
      var n := |wheels| - 1;
      WheelRequests(o, wheels[..n]) + (if Usable(wheels[n]) then [WheelRequest(o, wheels[n])] else [])
  }

  /** What a collected name with the constraint spec asks for. */
  function CollectedRequest(o: Options, dep: string, spec: string): Request {
    var version := CollectedVersion(o, dep, spec);
    Request(dep, version, SourceDigest(o, dep, version), false)
  }

  function CollectedRequests(o: Options, deps: map<string, string>, order: seq<string>): seq<Request> {
    if order == [] then []
    else
      var n := |order| - 1;
      CollectedRequests(o, deps, order[..n])
      + (if order[n] == "" || order[n] !in deps then [] else [CollectedRequest(o, order[n], deps[order[n]])])
  }

  /** What is asked for before the collected names are walked. */
  function ReadRequests(o: Options, reqs: seq<DepSpec>, wheels: seq<WheelInput>): seq<Request> {
    ReqRequests(o, reqs) + WheelRequests(o, wheels)
  }

  function Requests(o: Options, reqs: seq<DepSpec>, wheels: seq<WheelInput>, order: seq<string>): seq<Request>
    requires NamedCatalog(o)
  {
    ReadRequests(o, reqs, wheels) + CollectedRequests(o, Read(o, reqs, wheels).deps, order)
  }

  predicate Asked(rs: seq<Request>, key: string) {
    exists r :: r in rs && RequestKey(r) == key
  }

  /** The requests whose key was not asked for before. */
  function FirstOfKey(rs: seq<Request>): seq<Request> {
    if rs == [] then []
    else
      var n := |rs| - 1;
      FirstOfKey(rs[..n]) + (if Asked(rs[..n], RequestKey(rs[n])) then [] else [rs[n]])
  }

  ghost predicate IsFirst(rs: seq<Request>, i: nat)
    requires i < |rs|
  {
    forall j | 0 <= j < i :: RequestKey(rs[j]) != RequestKey(rs[i])
  }

  function Entries(o: Options, rs: seq<Request>): seq<FlatNode> {
    seq(|rs|, i requires 0 <= i < |rs| => EntryOf(o, rs[i]))
  }

  function WheelNodes(o: Options, rs: seq<Request>): seq<DAGNode> {
    seq(|rs|, i requires 0 <= i < |rs| => WheelOf(o, rs[i]))
  }

  function RepairNodes(o: Options, rs: seq<Request>): seq<DAGNode> {
    seq(|rs|, i requires 0 <= i < |rs| => RepairNode(o, WheelOf(o, rs[i])))
  }

  /** The entries, wheels and repairs planned so far are those of the requests rs without repeated keys. */
  ghost predicate Tracks(o: Options, ps: PlanState, rs: seq<Request>) {
    && ps.nodes == Entries(o, FirstOfKey(rs))
    && OfKind(ps.packs.dag, Wheel) == WheelNodes(o, FirstOfKey(rs))
    && OfKind(ps.packs.dag, Repair) == RepairNodes(o, FirstOfKey(rs))
    && KeysAsked(ps.seen, rs)
  }

  ghost predicate KeysAsked(seen: set<string>, rs: seq<Request>) {
    forall s :: s in seen <==> Asked(rs, s)
  }

  lemma AskedAppend(rs: seq<Request>, r: Request, s: string)
    ensures Asked(rs + [r], s) <==> Asked(rs, s) || RequestKey(r) == s
  {
    if RequestKey(r) == s {
      assert r in rs + [r];
    }
    if Asked(rs, s) {
      var q :| q in rs && RequestKey(q) == s;
      assert q in rs + [r];
    }
  }

  lemma FirstOfKeyAppend(rs: seq<Request>, r: Request)
    ensures FirstOfKey(rs + [r]) == FirstOfKey(rs) + (if Asked(rs, RequestKey(r)) then [] else [r])
  {
    assert (rs + [r])[..|rs|] == rs;
  }

  lemma EntriesAppend(o: Options, rs: seq<Request>, r: Request)
    ensures Entries(o, rs + [r]) == Entries(o, rs) + [EntryOf(o, r)]
    ensures WheelNodes(o, rs + [r]) == WheelNodes(o, rs) + [WheelOf(o, r)]
    ensures RepairNodes(o, rs + [r]) == RepairNodes(o, rs) + [RepairNode(o, WheelOf(o, r))]
  {
  }

  /** Packs bring pack nodes only. */
  lemma {:induction false} PackAddsPacks(o: Options, p: PackState, def: PackDef, kind: Kind)
    requires NamedCatalog(o) && !kind.Pack?
    ensures OfKind(AddPack(o, p, def).dag, kind) == OfKind(p.dag, kind)
    decreases 2 * PackRank(def.name) + 1, 0
  {
    if PackID(o, def).digest !in p.seen {
      NeedsRank(o, def);
      PacksAddPacks(o, p, Needs(o, def), PackRank(def.name), kind);
      var q := AddPacks(o, p, Needs(o, def), PackRank(def.name));
      OfKindAppend(q.dag, PackNode(o, def), kind);
    }
  }

  lemma {:induction false} PacksAddPacks(o: Options, p: PackState, defs: seq<PackDef>, r: nat, kind: Kind)
    requires NamedCatalog(o) && !kind.Pack? && forall d | d in defs :: PackRank(d.name) < r
    ensures OfKind(AddPacks(o, p, defs, r).dag, kind) == OfKind(p.dag, kind)
    decreases 2 * r, |defs|
  {
    if defs != [] {
      var n := |defs| - 1;
      assert defs[n] in defs;
      PacksAddPacks(o, p, defs[..n], r, kind);
      PackAddsPacks(o, AddPacks(o, p, defs[..n], r), defs[n], kind);
    }
  }

  lemma OfKindAppend(dag: seq<DAGNode>, n: DAGNode, kind: Kind)
    ensures OfKind(dag + [n], kind) == OfKind(dag, kind) + (if n.kind == kind then [n] else [])
  {
    assert (dag + [n])[..|dag|] == dag;
  }

  lemma EmitNodes(o: Options, ps: PlanState, r: Request)
    requires NamedCatalog(o)
    ensures var q := Emit(o, ps, r.name, r.version, r.source, r.compatible);
            && q.nodes == ps.nodes + [EntryOf(o, r)]
            && OfKind(q.packs.dag, Wheel) == OfKind(ps.packs.dag, Wheel) + [WheelOf(o, r)]
            && OfKind(q.packs.dag, Repair) == OfKind(ps.packs.dag, Repair) + [RepairNode(o, WheelOf(o, r))]
  {
    var defs := SelectPacks(o, r.name);
    AllBelowTop(defs);
    PacksAddPacks(o, ps.packs, defs, TOP_RANK, Wheel);
    PacksAddPacks(o, ps.packs, defs, TOP_RANK, Repair);
    OfKindPair(AddPacks(o, ps.packs, defs, TOP_RANK).dag, WheelOf(o, r), RepairNode(o, WheelOf(o, r)));
  }

  lemma KeysAskedAppend(seen: set<string>, rs: seq<Request>, r: Request)
    requires KeysAsked(seen, rs)
    ensures KeysAsked(seen + {RequestKey(r)}, rs + [r])
  {
    forall s
      ensures Asked(rs + [r], s) <==> Asked(rs, s) || RequestKey(r) == s
    {
      AskedAppend(rs, r, s);
    }
  }

  /** Whichever pass asks, an entry is planned exactly when its key is new. */
  lemma EmitTracks(o: Options, ps: PlanState, rs: seq<Request>, r: Request)
    requires NamedCatalog(o) && Tracks(o, ps, rs)
    ensures Tracks(o, EmitNew(o, ps, r.name, r.version, r.source, r.compatible), rs + [r])
  {
    FirstOfKeyAppend(rs, r);
    KeysAskedAppend(ps.seen, rs, r);
    if RequestKey(r) in ps.seen {
      assert ps.seen + {RequestKey(r)} == ps.seen;
    } else {
      EntriesAppend(o, FirstOfKey(rs), r);
      EmitNodes(o, ps, r);
    }
  }

  lemma RequirementTracks(o: Options, ps: PlanState, rs: seq<Request>, spec: DepSpec)
    requires NamedCatalog(o) && Tracks(o, ps, rs) && NormalizeName(spec.name) != ""
    ensures Tracks(o, AddRequirement(o, ps, spec), rs + [ReqRequest(o, spec)])
  {
    var r := ReqRequest(o, spec);
    EmitTracks(o, ps.(hasInput := true, deps := ps.deps[r.name := r.version]), rs, r);
  }

  lemma NothingAdded(rs: seq<Request>)
    ensures rs + [] == rs
  {
  }

  lemma {:induction false} RequirementsTrack(o: Options, reqs: seq<DepSpec>)
    requires NamedCatalog(o)
    ensures Tracks(o, AddRequirements(o, Start(o), reqs), ReqRequests(o, reqs))
  {
    if reqs != [] {
      var init, spec := reqs[..|reqs| - 1], reqs[|reqs| - 1];
      RequirementsTrack(o, init);
      NothingAdded(ReqRequests(o, init));
      if NormalizeName(spec.name) != "" {
        RequirementTracks(o, AddRequirements(o, Start(o), init), ReqRequests(o, init), spec);
      }
    }
  }

  lemma WheelTracks(o: Options, ps: PlanState, rs: seq<Request>, w: WheelInput)
    requires NamedCatalog(o) && Tracks(o, ps, rs) && Usable(w)
    ensures Tracks(o, AddWheel(o, ps, w), rs + [WheelRequest(o, w)])
  {
    CollectKeeps(o, ps.(hasInput := true), w.requires_);
    EmitTracks(o, Collect(o, ps.(hasInput := true), w.requires_), rs, WheelRequest(o, w));
  }

  lemma Shift(a: seq<Request>, b: seq<Request>, c: seq<Request>)
    ensures a + (b + c) == a + b + c
  {
  }

  lemma {:induction false} ReadTracks(o: Options, reqs: seq<DepSpec>, wheels: seq<WheelInput>)
    requires NamedCatalog(o)
    ensures Tracks(o, Read(o, reqs, wheels), ReadRequests(o, reqs, wheels))
  {
    if wheels == [] {
      RequirementsTrack(o, reqs);
      NothingAdded(ReqRequests(o, reqs));
    } else {
      var init, w := wheels[..|wheels| - 1], wheels[|wheels| - 1];
      ReadTracks(o, reqs, init);
      NothingAdded(WheelRequests(o, init));
      if Usable(w) {
        WheelTracks(o, Read(o, reqs, init), ReadRequests(o, reqs, init), w);
        Shift(ReqRequests(o, reqs), WheelRequests(o, init), [WheelRequest(o, w)]);
      }
    }
  }

  lemma {:induction false} CollectedTrack(o: Options, ps: PlanState, rs: seq<Request>, order: seq<string>)
    requires NamedCatalog(o) && Tracks(o, ps, rs)
    ensures Tracks(o, AddAllCollected(o, ps, order), rs + CollectedRequests(o, ps.deps, order))
  {
    if order == [] {
      NothingAdded(rs);
    } else {
      var init, dep := order[..|order| - 1], order[|order| - 1];
      CollectedTrack(o, ps, rs, init);
      CollectedSame(o, ps, init);
      NothingAdded(CollectedRequests(o, ps.deps, init));
      if dep != "" && dep in ps.deps {
        var r := CollectedRequest(o, dep, ps.deps[dep]);
        EmitTracks(o, AddAllCollected(o, ps, init), rs + CollectedRequests(o, ps.deps, init), r);
        Shift(rs, CollectedRequests(o, ps.deps, init), [r]);
      }
    }
  }

  /** The planner's bookkeeping comes down to this: the entries of a plan are, in order, those of the requests
      of the three passes without the ones whose key occurred before; so are its wheel and repair nodes. */
  lemma PlanIsFirstRequests(o: Options, reqs: seq<DepSpec>, wheels: seq<WheelInput>, order: seq<string>)
    requires NamedCatalog(o) && Plan(o, reqs, wheels, order).Planned?
    ensures var r, firsts := Plan(o, reqs, wheels, order), FirstOfKey(Requests(o, reqs, wheels, order));
            && r.nodes == Entries(o, firsts)
            && OfKind(r.dag, Wheel) == WheelNodes(o, firsts)
            && OfKind(r.dag, Repair) == RepairNodes(o, firsts)
  {
    ReadTracks(o, reqs, wheels);
    CollectedTrack(o, Read(o, reqs, wheels), ReadRequests(o, reqs, wheels), order);
  }

  // ----- Which version a collected name has -----

  lemma {:induction false} CollectKeepsVersions(o: Options, ps: PlanState, deps: seq<DepSpec>, d: string)
    requires d in ps.deps && ps.deps[d] != ""
    ensures var q := Collect(o, ps, deps).deps; d in q && q[d] == ps.deps[d]
    decreases deps
  {
    if deps != [] {
      CollectKeepsVersions(o, ps, deps[1..], d);
      CollectKeepsVersions(o, CollectOne(o, ps, deps[0]), deps[1..], d);
    }
  }

  /** The version a requirement fixes for a name is not changed by what wheels ask of that name; nor is the
      one an earlier wheel fixes changed by a later wheel. */
  lemma {:induction false} EarlierVersionsStay(o: Options, ps: PlanState, wheels: seq<WheelInput>, d: string)
    requires NamedCatalog(o) && d in ps.deps && ps.deps[d] != ""
    ensures var q := AddWheels(o, ps, wheels).deps; d in q && q[d] == ps.deps[d]
  {
    if wheels != [] {
      var init, w := wheels[..|wheels| - 1], wheels[|wheels| - 1];
      EarlierVersionsStay(o, ps, init, d);
      var p := AddWheels(o, ps, init);
      if Usable(w) {
        CollectKeepsVersions(o, p.(hasInput := true), w.requires_, d);
        WheelDeps(o, p, w);
      }
    }
  }

  // ----- Which names a plan covers -----

  lemma {:induction false} FirstOfKeyMember(rs: seq<Request>, r: Request)
    ensures r in FirstOfKey(rs) <==> exists i: nat :: i < |rs| && rs[i] == r && IsFirst(rs, i)
  {
    if rs != [] {
      var n := |rs| - 1;
      var init := rs[..n];
      FirstOfKeyMember(init, r);
      forall i: nat | i < n
        ensures IsFirst(rs, i) <==> IsFirst(init, i)
      {
      }
      NewIffFirst(rs);
    }
  }

  lemma NewIffFirst(rs: seq<Request>)
    requires rs != []
    ensures var n := |rs| - 1; Asked(rs[..n], RequestKey(rs[n])) <==> !IsFirst(rs, n)
  {
    var n := |rs| - 1;
    if !IsFirst(rs, n) {
      var j :| 0 <= j < n && RequestKey(rs[j]) == RequestKey(rs[n]);
      assert rs[..n][j] in rs[..n];
    }
  }

  /** The first request with the key of request i. */
  lemma {:induction false} FirstExists(rs: seq<Request>, i: nat) returns (k: nat)
    requires i < |rs|
    ensures k <= i && RequestKey(rs[k]) == RequestKey(rs[i]) && IsFirst(rs, k)
    decreases i
  {
    if IsFirst(rs, i) {
      k := i;
    } else {
      var j :| 0 <= j < i && RequestKey(rs[j]) == RequestKey(rs[i]);
      k := FirstExists(rs, j);
    }
  }

  /** Some request for the name is the first of its key. */
  ghost predicate Wins(rs: seq<Request>, name: string) {
    exists i: nat :: i < |rs| && rs[i].name == name && IsFirst(rs, i)
  }

  ghost function NamesIn(rs: seq<Request>): set<string> {
    set r | r in rs :: r.name
  }

  lemma NamesOfEntries(o: Options, rs: seq<Request>, name: string)
    ensures name in Names(Entries(o, FirstOfKey(rs))) <==> Wins(rs, name)
  {
    var firsts, nodes := FirstOfKey(rs), Entries(o, FirstOfKey(rs));
    if name in Names(nodes) {
      var i :| 0 <= i < |nodes| && nodes[i].name == name;
      assert firsts[i] in firsts;
      FirstOfKeyMember(rs, firsts[i]);
    }
    if Wins(rs, name) {
      var i: nat :| i < |rs| && rs[i].name == name && IsFirst(rs, i);
      FirstOfKeyMember(rs, rs[i]);
      var k :| 0 <= k < |firsts| && firsts[k] == rs[i];
      assert nodes[k] in nodes;
    }
  }

  lemma NamesInConcat(a: seq<Request>, b: seq<Request>)
    ensures NamesIn(a + b) == NamesIn(a) + NamesIn(b)
  {
    assert forall r :: r in a + b <==> r in a || r in b;
  }

  lemma {:induction false} ReqRequestNames(o: Options, reqs: seq<DepSpec>)
    ensures NamesIn(ReqRequests(o, reqs)) == ReqNames(reqs)
  {
    if reqs != [] {
      var init, spec := reqs[..|reqs| - 1], reqs[|reqs| - 1];
      ReqRequestNames(o, init);
      ReqNamesStep(reqs);
      NamesInConcat(ReqRequests(o, init), [ReqRequest(o, spec)]);
      NothingAdded(ReqRequests(o, init));
    }
  }

  lemma {:induction false} WheelRequestNames(o: Options, wheels: seq<WheelInput>)
    ensures NamesIn(WheelRequests(o, wheels)) == WheelNames(wheels)
  {
    if wheels != [] {
      var init, w := wheels[..|wheels| - 1], wheels[|wheels| - 1];
      WheelRequestNames(o, init);
      WheelNamesStep(wheels);
      NamesInConcat(WheelRequests(o, init), [WheelRequest(o, w)]);
      NothingAdded(WheelRequests(o, init));
    }
  }

  lemma {:induction false} CollectedRequestNames(o: Options, deps: map<string, string>, order: seq<string>)
    requires forall d | d in order :: d in deps && d != ""
    ensures NamesIn(CollectedRequests(o, deps, order)) == SetOf(order)
  {
    if order != [] {
      var init, dep := order[..|order| - 1], order[|order| - 1];
      assert order == init + [dep] && dep in order;
      SetOfConcat(init, [dep]);
      CollectedRequestNames(o, deps, init);
      NamesInConcat(CollectedRequests(o, deps, init), [CollectedRequest(o, dep, deps[dep])]);
    }
  }

  /** What must be covered: the named requirements, the usable wheels and their named dependencies. */
  ghost function Wanted(reqs: seq<DepSpec>, wheels: seq<WheelInput>): set<string> {
    ReqNames(reqs) + WheelNames(wheels) + SetOf(DepNames(wheels))
  }

  lemma RequestNames(o: Options, reqs: seq<DepSpec>, wheels: seq<WheelInput>, order: seq<string>)
    requires NamedCatalog(o) && PackInjective(o.hash)
    requires Walk(order, Read(o, reqs, wheels).deps.Keys) && !Read(o, reqs, wheels).truncated
    ensures NamesIn(Requests(o, reqs, wheels, order)) == Wanted(reqs, wheels)
  {
    var deps := Read(o, reqs, wheels).deps;
    UncappedDeps(o, reqs, wheels);
    WalkIsSet(order, deps.Keys);
    ReqRequestNames(o, reqs);
    WheelRequestNames(o, wheels);
    CollectedRequestNames(o, deps, order);
    NamesInConcat(ReqRequests(o, reqs), WheelRequests(o, wheels));
    NamesInConcat(ReadRequests(o, reqs, wheels), CollectedRequests(o, deps, order));
  }

  /** On success the plan has no name that is not wanted, and it has all wanted names exactly when each of
      them has a request that comes before all others with the same key. */
  lemma PlansCoverIff(o: Options, reqs: seq<DepSpec>, wheels: seq<WheelInput>, order: seq<string>)
    requires NamedCatalog(o) && PackInjective(o.hash)
    requires Walk(order, Read(o, reqs, wheels).deps.Keys) && Plan(o, reqs, wheels, order).Planned?
    ensures var names, rs := Names(Plan(o, reqs, wheels, order).nodes), Requests(o, reqs, wheels, order);
            && names <= Wanted(reqs, wheels)
            && (names == Wanted(reqs, wheels) <==> forall n | n in Wanted(reqs, wheels) :: Wins(rs, n))
  {
    var nodes, rs := Plan(o, reqs, wheels, order).nodes, Requests(o, reqs, wheels, order);
    PlanIsFirstRequests(o, reqs, wheels, order);
    OutcomeOfRead(o, reqs, wheels, order);
    RequestNames(o, reqs, wheels, order);
    forall n
      ensures n in Names(nodes) <==> Wins(rs, n)
      ensures Wins(rs, n) ==> n in NamesIn(rs)
    {
      NamesOfEntries(o, rs, n);
      if Wins(rs, n) {
        var i: nat :| i < |rs| && rs[i].name == n && IsFirst(rs, i);
        assert rs[i] in rs;
      }
    }
  }

  lemma PlainWins(rs: seq<Request>, name: string)
    requires AllPlain(NamesIn(rs)) && name in NamesIn(rs)
    ensures Wins(rs, name)
  {
    var i :| 0 <= i < |rs| && rs[i].name == name;
    var k := FirstExists(rs, i);
    assert rs[i] in rs && rs[k] in rs;
    KeyIsUnique(rs[i].name, rs[i].version, rs[k].name, rs[k].version);
  }

  /** With plain names nothing is missing. */
  lemma PlansCoverExactly(o: Options, reqs: seq<DepSpec>, wheels: seq<WheelInput>, order: seq<string>)
    requires NamedCatalog(o) && PackInjective(o.hash) && AllPlain(Wanted(reqs, wheels))
    requires Walk(order, Read(o, reqs, wheels).deps.Keys) && Plan(o, reqs, wheels, order).Planned?
    ensures Names(Plan(o, reqs, wheels, order).nodes) == Wanted(reqs, wheels)
  {
    var rs := Requests(o, reqs, wheels, order);
    PlansCoverIff(o, reqs, wheels, order);
    OutcomeOfRead(o, reqs, wheels, order);
    RequestNames(o, reqs, wheels, order);
    forall n | n in Wanted(reqs, wheels)
      ensures Wins(rs, n)
    {
      PlainWins(rs, n);
    }
  }
}
