/** The planner as functions on its state: what each requirement, wheel and collected dependency adds. */
module PlanSpec {
  import opened Text
  import opened Artifact
  import opened Keys
  import opened Catalog
  import Sorting

  /** A requirement or dependency: a name and a version constraint, possibly empty. */
  datatype DepSpec = DepSpec(name: string, version: string)

  datatype WheelInput = WheelInput(name: string, version: string, pyTag: string, abiTag: string,
                                   platformTag: string, digest: string, requires_: seq<DepSpec>)

  datatype FlatNode = FlatNode(name: string, version: string, pythonVersion: string, pyTag: string,
                               platformTag: string, action: string)

  /** Everything planning depends on besides its inputs. The resolver is partial; the store is the set of
      artifacts it holds. */
  datatype Options = Options(
    pythonVersion: string,
    platformTag: string,
    maxDeps: int,
    overrides: map<string, string>,
    constraints: map<string, string>,
    eager: bool,
    resolver: Option<string -> Option<string>>,
    catalog: Option<Catalog>,
    store: set<ID>,
    hash: Hash)

  /** deps are the collected names with their version constraints; seen are the keys already planned. */
  datatype PlanState = PlanState(nodes: seq<FlatNode>, packs: PackState, seen: set<string>,
                                 deps: map<string, string>, hasInput: bool, truncated: bool)

  /** The DAG so far and the digests of its packs. */
  datatype PackState = PackState(dag: seq<DAGNode>, seen: set<string>)

  datatype Result = Planned(nodes: seq<FlatNode>, dag: seq<DAGNode>) | NoInput | TooManyDeps

  // ----- Names, versions and tags -----

  function Dashed(s: string): string {
    seq(|s|, i requires 0 <= i < |s| => if s[i] == '_' then '-' else s[i])
  }

  function NormalizeName(name: string): string {
    ToLower(Dashed(TrimSpace(name)))
  }

  function WithoutDots(s: string): string {
    if s == "" then "" else (if s[0] == '.' then "" else [s[0]]) + WithoutDots(s[1..])
  }

  function NormalizePyTag(pythonVersion: string): string {
    if HasPrefix(pythonVersion, "cp") then pythonVersion else "cp" + WithoutDots(pythonVersion)
  }

  function PyTag(o: Options): string {
    NormalizePyTag(o.pythonVersion)
  }

  function MaxDeps(o: Options): nat {
    if o.maxDeps <= 0 then 1000 else o.maxDeps
  }

  function SeenKey(name: string, version: string): string {
    name + "::" + version
  }

  function Resolve(o: Options, name: string): Option<string> {
    if o.resolver.Some? then o.resolver.value(name) else None
  }

  function SourceDigest(o: Options, name: string, version: string): string {
    o.hash.source(NormalizeName(name) + "==" + TrimSpace(version))
  }

  predicate IsCompatible(o: Options, w: WheelInput) {
    && (w.pyTag == PyTag(o) || HasPrefix(w.pyTag, "py3") || HasPrefix(w.pyTag, "cp3"))
    && (w.platformTag == "any" || w.platformTag == o.platformTag)
    && (w.abiTag == "none" || HasPrefix(w.abiTag, "cp3"))
  }

  function Action(o: Options, id: ID): string {
    if id in o.store then "reuse" else "build"
  }

  // ----- Packs -----

  function RuntimeID(o: Options): ID {
    ID(Runtime, o.hash.runtime(RuntimeKey("s390x", "", o.pythonVersion, "", "", "")))
  }

  function RuntimeNode(o: Options): DAGNode {
    DAGNode(RuntimeID(o), Runtime, [], "", "", PyTag(o), o.platformTag, Action(o, RuntimeID(o)))
  }

  function KeyOf(def: PackDef): PackKey {
    PackKey("s390x", "", def.name, def.version, def.recipeDigest)
  }

  function PackID(o: Options, def: PackDef): ID {
    ID(Pack, o.hash.pack(KeyOf(def)))
  }

  function DefsIn(c: Catalog, names: seq<string>): seq<PackDef> {
    if names == [] then []
    else (if names[0] in c.packs then [c.packs[names[0]]] else []) + DefsIn(c, names[1..])
  }

  /** The packs of the catalog a pack depends on. */
  function Needs(o: Options, def: PackDef): seq<PackDef> {
    if o.catalog.Some? then DefsIn(o.catalog.value, PackDependencies(def.name)) else []
  }

  function IDs(o: Options, defs: seq<PackDef>): seq<ID> {
    seq(|defs|, i requires 0 <= i < |defs| => PackID(o, defs[i]))
  }

  function PackNode(o: Options, def: PackDef): DAGNode {
    DAGNode(PackID(o, def), Pack, IDs(o, Needs(o, def)), def.name, def.version, "", "", Action(o, PackID(o, def)))
  }

  ghost predicate NamedCatalog(o: Options) {
    o.catalog.Some? ==> Named(o.catalog.value)
  }

  lemma {:induction false} DefsInRank(c: Catalog, names: seq<string>, r: nat)
    requires Named(c) && forall n | n in names :: PackRank(n) < r
    ensures forall d | d in DefsIn(c, names) :: PackRank(d.name) < r && d in c.packs.Values && d.name in names
  {
    if names != [] {
      assert names[0] in names;
      DefsInRank(c, names[1..], r);
    }
  }

  lemma NeedsRank(o: Options, def: PackDef)
    requires NamedCatalog(o)
    ensures forall d | d in Needs(o, def) ::
              PackRank(d.name) < PackRank(def.name) && d.name in PackDependencies(def.name)
  {
    if o.catalog.Some? {
      forall n | n in PackDependencies(def.name)
        ensures PackRank(n) < PackRank(def.name)
      {
        DependenciesRankLower(def.name, n);
      }
      DefsInRank(o.catalog.value, PackDependencies(def.name), PackRank(def.name));
    }
  }

  function AddPack(o: Options, p: PackState, def: PackDef): PackState
    requires NamedCatalog(o)
    decreases 2 * PackRank(def.name) + 1, 0
  {
    if PackID(o, def).digest in p.seen then p
    else
      NeedsRank(o, def);
      var q := AddPacks(o, p, Needs(o, def), PackRank(def.name));
      PackState(q.dag + [PackNode(o, def)], q.seen + {PackID(o, def).digest})
  }

  /** Adds packs of rank below r, one after the other. */
  function AddPacks(o: Options, p: PackState, defs: seq<PackDef>, r: nat): PackState
    requires NamedCatalog(o) && forall d | d in defs :: PackRank(d.name) < r
    decreases 2 * r, |defs|
  {
    if defs == [] then p
    else
      var n := |defs| - 1;
      assert defs[n] in defs;
      AddPack(o, AddPacks(o, p, defs[..n], r), defs[n])
  }

  const TOP_RANK := 3

  function DefName(d: PackDef): string {
    d.name
  }

  /** The packs selected for a package, sorted by name. */
  function SelectPacks(o: Options, name: string): seq<PackDef> {
    if o.catalog.None? then [] else Sorting.SortBy(Selected(o.catalog.value, name, ""), DefName)
  }

  // ----- Emission -----

  function DigestsOf(ids: seq<ID>): seq<string> {
    seq(|ids|, i requires 0 <= i < |ids| => ids[i].digest)
  }

  function WheelKeyOf(o: Options, name: string, source: string): WheelKey {
    WheelKey(source, PyTag(o), o.platformTag, RuntimeID(o).digest, DigestsOf(IDs(o, SelectPacks(o, name))), "", "", "", "")
  }

  function WheelNode(o: Options, name: string, version: string, source: string, compatible: bool): DAGNode {
    var id := ID(Wheel, WheelDigest(o.hash, WheelKeyOf(o, name, source)));
    DAGNode(id, Wheel, [RuntimeID(o)] + IDs(o, SelectPacks(o, name)), name, version, PyTag(o), o.platformTag,
            if compatible then "reuse" else Action(o, id))
  }

  function RepairNode(o: Options, wheel: DAGNode): DAGNode {
    var id := ID(Repair, o.hash.repair(RepairKey(wheel.id.digest, "", "")));
    DAGNode(id, Repair, [wheel.id], wheel.name, wheel.version, "", "", Action(o, id))
  }

  function PlanNodeFor(o: Options, name: string, version: string, compatible: bool): FlatNode {
    FlatNode(name, version, o.pythonVersion, PyTag(o), o.platformTag, if compatible then "reuse" else "build")
  }

  lemma AllBelowTop(defs: seq<PackDef>)
    ensures forall d | d in defs :: PackRank(d.name) < TOP_RANK
  {
  }

  /** Plans one wheel: its packs, its plan entry, its wheel node and its repair node. */
  function Emit(o: Options, ps: PlanState, name: string, version: string, source: string, compatible: bool): PlanState
    requires NamedCatalog(o)
  {
    AllBelowTop(SelectPacks(o, name));
    var q := AddPacks(o, ps.packs, SelectPacks(o, name), TOP_RANK);
    var wheel := WheelNode(o, name, version, source, compatible);
    ps.(nodes := ps.nodes + [PlanNodeFor(o, name, version, compatible)],
        packs := q.(dag := q.dag + [wheel, RepairNode(o, wheel)]),
        seen := ps.seen + {SeenKey(name, version)})
  }

  function EmitNew(o: Options, ps: PlanState, name: string, version: string, source: string, compatible: bool): PlanState
    requires NamedCatalog(o)
  {
    if SeenKey(name, version) in ps.seen then ps else Emit(o, ps, name, version, source, compatible)
  }

  // ----- The three passes -----

  function Start(o: Options): PlanState {
    PlanState([], PackState([RuntimeNode(o)], {}), {}, map[], false, false)
  }

  function RequiredVersion(o: Options, spec: DepSpec): string {
    var version := TrimSpace(spec.version);
    var latest := Resolve(o, NormalizeName(spec.name));
    if (version == "" || HasPrefix(version, ">=") || HasPrefix(version, "~=")) && latest.Some? then latest.value
    else version
  }

  function AddRequirement(o: Options, ps: PlanState, spec: DepSpec): PlanState
    requires NamedCatalog(o)
  {
    var name := NormalizeName(spec.name);
    if name == "" then ps
    else
      var version := RequiredVersion(o, spec);
      EmitNew(o, ps.(hasInput := true, deps := ps.deps[name := version]), name, version,
              SourceDigest(o, name, version), false)
  }

  function AddRequirements(o: Options, ps: PlanState, reqs: seq<DepSpec>): PlanState
    requires NamedCatalog(o)
  {
    if reqs == [] then ps
    else AddRequirement(o, AddRequirements(o, ps, reqs[..|reqs| - 1]), reqs[|reqs| - 1])
  }

  /** Collects one named dependency; a name that already has a version keeps it. */
  function CollectOne(o: Options, ps: PlanState, d: DepSpec): PlanState {
    if d.name in ps.deps && ps.deps[d.name] != "" then ps
    else
      var latest := Resolve(o, d.name);
      var version := if d.version == "" && latest.Some? then latest.value else d.version;
      ps.(deps := ps.deps[d.name := version])
  }

  /** Collects the dependencies of one wheel; the rest of the list is dropped when the cap is reached. */
  function Collect(o: Options, ps: PlanState, deps: seq<DepSpec>): PlanState
    decreases deps
  {
    if deps == [] then ps
    else if deps[0].name == "" then Collect(o, ps, deps[1..])
    else if |ps.deps| >= MaxDeps(o) then ps.(truncated := true)
    else Collect(o, CollectOne(o, ps, deps[0]), deps[1..])
  }

  function Overridden(o: Options, name: string): Option<string> {
    var n := NormalizeName(name);
    if n in o.overrides && o.overrides[n] != "" then Some(TrimPrefix(TrimSpace(o.overrides[n]), "==")) else None
  }

  predicate Usable(w: WheelInput) {
    w.name != "" && w.version != ""
  }

  function AddWheel(o: Options, ps: PlanState, w: WheelInput): PlanState
    requires NamedCatalog(o)
  {
    if !Usable(w) then ps
    else
      var collected := Collect(o, ps.(hasInput := true), w.requires_);
      var ov := Overridden(o, w.name);
      if ov.Some? then
        EmitNew(o, collected, w.name, ov.value, SourceDigest(o, w.name, ov.value), false)
      else
        EmitNew(o, collected, w.name, w.version,
                if w.digest == "" then SourceDigest(o, w.name, w.version) else w.digest, IsCompatible(o, w))
  }

  function AddWheels(o: Options, ps: PlanState, wheels: seq<WheelInput>): PlanState
    requires NamedCatalog(o)
  {
    if wheels == [] then ps
    else AddWheel(o, AddWheels(o, ps, wheels[..|wheels| - 1]), wheels[|wheels| - 1])
  }

  /** The version planned for a collected name whose constraint is spec. */
  function CollectedVersion(o: Options, dep: string, spec: string): string {
    var n := NormalizeName(dep);
    var v1 := if n in o.overrides && o.overrides[n] != "" then TrimPrefix(TrimSpace(o.overrides[n]), "==") else spec;
    var v2 := if n in o.constraints && o.constraints[n] != "" then o.constraints[n] else v1;
    var latest := Resolve(o, dep);
    var v3 := if v2 != "" then v2 else if latest.Some? && latest.value != "" then latest.value else "latest";
    if o.eager && latest.Some? && latest.value != "" then latest.value else v3
  }

  function AddCollected(o: Options, ps: PlanState, dep: string): PlanState
    requires NamedCatalog(o)
  {
    if dep == "" || dep !in ps.deps then ps
    else
      var version := CollectedVersion(o, dep, ps.deps[dep]);
      EmitNew(o, ps, dep, version, SourceDigest(o, dep, version), false)
  }

  /** The last pass, for one order in which the map of collected names is walked. */
  function AddAllCollected(o: Options, ps: PlanState, order: seq<string>): PlanState
    requires NamedCatalog(o)
  {
    if order == [] then ps
    else AddCollected(o, AddAllCollected(o, ps, order[..|order| - 1]), order[|order| - 1])
  }

  /** The state after both inputs have been read. */
  function Read(o: Options, reqs: seq<DepSpec>, wheels: seq<WheelInput>): PlanState
    requires NamedCatalog(o)
  {
    AddWheels(o, AddRequirements(o, Start(o), reqs), wheels)
  }

  function Finish(ps: PlanState): Result {
    if !ps.hasInput then NoInput
    else if ps.truncated then TooManyDeps
    else Planned(ps.nodes, ps.packs.dag)
  }

  /** order is an order in which a map with the given keys can be walked. */
  ghost predicate Walk(order: seq<string>, keys: set<string>) {
    && (forall i, j | 0 <= i < j < |order| :: order[i] != order[j])
    && (forall k :: k in order <==> k in keys)
  }

  /** The plan for given inputs and a given walk of the collected names. */
  function Plan(o: Options, reqs: seq<DepSpec>, wheels: seq<WheelInput>, order: seq<string>): Result
    requires NamedCatalog(o)
  {
    Finish(AddAllCollected(o, Read(o, reqs, wheels), order))
  }
}
