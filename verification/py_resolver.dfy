/** The Python resolver: which wheels are reused, which versions are built, which requirements are missing. */
module PyResolver {
  import opened Text
  import Sorting

  datatype Spec = Spec(operator: string, version: string)

  /** A requirement: its name, its version specifiers and its text. */
  datatype Requirement = Requirement(name: string, specs: seq<Spec>, text: string)

  /** An input wheel; compatible says that it is pure Python or supports the target. */
  datatype Wheel = Wheel(name: string, version: string, compatible: bool, required: seq<Requirement>)

  datatype Job = Job(name: string, version: string, depth: nat)

  /** The packaging library: parsing and printing of versions, their equality and order, and specifier
      matching. A V is a parsed version with its spelling: 1.0 and 1.0.0 are two of them, and the same. */
  datatype Versions<!V(==,!new)> = Versions(parse: string -> Option<V>, show: V -> string, same: (V, V) -> bool,
                                            greater: (V, V) -> bool, contains: (seq<Spec>, V) -> bool)

  /** Printing a version and parsing it again gives the same spelling; sameness is an equivalence, and greater
      is transitive and decides between versions exactly when they are not the same. */
  ghost predicate Sound<V(!new)>(vs: Versions<V>) {
    && (forall v :: vs.parse(vs.show(v)) == Some(v))
    && (forall v :: vs.same(v, v))
    && (forall u, v :: vs.same(u, v) ==> vs.same(v, u))
    && (forall u, v, w :: vs.same(u, v) && vs.same(v, w) ==> vs.same(u, w))
    && (forall u, v, w :: vs.greater(u, v) && vs.greater(v, w) ==> vs.greater(u, w))
    && (forall u, v :: vs.same(u, v) <==> !vs.greater(u, v) && !vs.greater(v, u))
  }

  /** A set has a version that is the same as v. */
  predicate Has<V(!new)>(vs: Versions<V>, s: set<V>, v: V) {
    exists u :: u in s && vs.same(u, v)
  }

  /** A set keeps the version it has and ignores one that is the same. */
  function AddTo<V(!new)>(vs: Versions<V>, s: set<V>, v: V): set<V> {
    if Has(vs, s, v) then s else s + {v}
  }

  /** One set updated with another. */
  function Updated<V(!new)>(vs: Versions<V>, a: set<V>, b: set<V>): set<V> {
    a + set v | v in b && !Has(vs, a, v)
  }

  ghost predicate AllDifferent<V(!new)>(vs: Versions<V>, s: set<V>) {
    forall u, v | u in s && v in s && vs.same(u, v) :: u == v
  }

  lemma UpdatedHas<V(!new)>(vs: Versions<V>, a: set<V>, b: set<V>, v: V)
    requires Sound(vs)
    ensures Has(vs, Updated(vs, a, b), v) <==> Has(vs, a, v) || Has(vs, b, v)
  {
    if Has(vs, a, v) {
      var u :| u in a && vs.same(u, v);
      assert u in Updated(vs, a, b);
    }
    if Has(vs, b, v) {
      var u :| u in b && vs.same(u, v);
      if Has(vs, a, u) {
        var x :| x in a && vs.same(x, u);
        assert x in Updated(vs, a, b) && vs.same(x, v);
      } else {
        assert u in Updated(vs, a, b);
      }
    }
  }

  lemma UpdatedDifferent<V(!new)>(vs: Versions<V>, a: set<V>, b: set<V>)
    requires Sound(vs) && AllDifferent(vs, a) && AllDifferent(vs, b)
    ensures AllDifferent(vs, Updated(vs, a, b))
  {
  }

  /** index gives the versions an index offers for a name; without an index nothing is looked up or expanded. */
  datatype Config<!V> = Config(eager: bool, fallbackLatest: bool, index: Option<string -> set<V>>,
                               maxDepth: int, maxExpansions: int)

  /** An index gives a set of versions: none of them is the same as another. */
  ghost predicate IndexFits<V(!new)>(vs: Versions<V>, cfg: Config<V>) {
    cfg.index.Some? ==> forall name :: AllDifferent(vs, cfg.index.value(name))
  }

  predicate Fits<V(!new)>(vs: Versions<V>, req: Requirement, v: V) {
    req.specs == [] || vs.contains(req.specs, v)
  }

  predicate Satisfies<V(!new)>(vs: Versions<V>, req: Requirement, versions: set<V>) {
    exists v :: v in versions && Fits(vs, req, v)
  }

  /** v is a fitting one of the versions, and no fitting one is greater. */
  ghost predicate IsBest<V(!new)>(vs: Versions<V>, req: Requirement, versions: set<V>, v: V) {
    && v in versions && Fits(vs, req, v)
    && forall u | u in versions && Fits(vs, req, u) :: vs.same(u, v) || vs.greater(v, u)
  }

  lemma OneBest<V(!new)>(vs: Versions<V>, req: Requirement, versions: set<V>, u: V, v: V)
    requires Sound(vs) && AllDifferent(vs, versions) && IsBest(vs, req, versions, u) && IsBest(vs, req, versions, v)
    ensures u == v
  {
    assert vs.same(u, v) || vs.greater(v, u);
    assert vs.same(v, u) || vs.greater(u, v);
    assert vs.same(u, u) && !vs.greater(u, u);
  }

  /** The version of a requirement with exactly one specifier that pins it. */
  function Pinned(req: Requirement): Option<string> {
    if |req.specs| == 1 && (req.specs[0].operator == "==" || req.specs[0].operator == "===") && req.specs[0].version != ""
    then Some(req.specs[0].version) else None
  }

  lemma PinnedIff(req: Requirement, t: string)
    ensures Pinned(req) == Some(t) <==> t != "" && (req.specs == [Spec("==", t)] || req.specs == [Spec("===", t)])
  {
  }

  predicate SameJob(a: Job, b: Job) {
    ToLower(a.name) == ToLower(b.name) && a.version == b.version
  }

  predicate AlreadyPlanned(name: string, version: string, jobs: seq<Job>) {
    exists j :: j in jobs && ToLower(j.name) == ToLower(name) && j.version == version
  }

  ghost predicate DistinctJobs(jobs: seq<Job>) {
    forall i, j | 0 <= i < j < |jobs| :: !SameJob(jobs[i], jobs[j])
  }

  lemma JobsStayDistinct(jobs: seq<Job>, name: string, version: string)
    requires DistinctJobs(jobs) && !AlreadyPlanned(name, version, jobs)
    ensures DistinctJobs(jobs + [Job(name, version, 0)])
  {
    forall i | 0 <= i < |jobs|
      ensures !SameJob(jobs[i], Job(name, version, 0))
    {
      assert jobs[i] in jobs;
    }
  }

  lemma ToLowerTwice(s: string)
    ensures ToLower(ToLower(s)) == ToLower(s)
  {
  }

  function VersionsOf<V>(m: map<string, set<V>>, name: string): set<V> {
    if name in m then m[name] else {}
  }

  function WithVersion<V(!new)>(vs: Versions<V>, m: map<string, set<V>>, name: string, v: V): map<string, set<V>> {
    m[name := AddTo(vs, VersionsOf(m, name), v)]
  }

  ghost predicate GrownMap<V>(a: map<string, set<V>>, b: map<string, set<V>>) {
    forall n :: VersionsOf(a, n) <= VersionsOf(b, n)
  }

  ghost predicate DifferentIn<V(!new)>(vs: Versions<V>, m: map<string, set<V>>) {
    forall n :: AllDifferent(vs, VersionsOf(m, n))
  }

  lemma WithVersionFits<V(!new)>(vs: Versions<V>, m: map<string, set<V>>, name: string, v: V)
    requires Sound(vs) && DifferentIn(vs, m)
    ensures var m' := WithVersion(vs, m, name, v);
            && DifferentIn(vs, m') && GrownMap(m, m') && Has(vs, VersionsOf(m', name), v)
            && forall n, u | u in VersionsOf(m', n) :: u in VersionsOf(m, n) || (n == name && u == v)
  {
    var m' := WithVersion(vs, m, name, v);
    assert VersionsOf(m', name) == AddTo(vs, VersionsOf(m, name), v);
    assert AllDifferent(vs, VersionsOf(m, name));
    forall n
      ensures AllDifferent(vs, VersionsOf(m', n))
    {
      assert AllDifferent(vs, VersionsOf(m, n));
    }
    if !Has(vs, VersionsOf(m, name), v) {
      assert v in VersionsOf(m', name) && vs.same(v, v);
    }
  }

  lemma HasGrows<V(!new)>(vs: Versions<V>, a: set<V>, b: set<V>, v: V)
    requires a <= b && Has(vs, a, v)
    ensures Has(vs, b, v)
  {
  }

  /** A version that fits and that no fitting version is greater than, if there is one. */
  method BestCandidate<V(==,!new)>(vs: Versions<V>, req: Requirement, versions: set<V>) returns (best: Option<V>)
    requires Sound(vs)
    ensures best.None? <==> !Satisfies(vs, req, versions)
    ensures best.Some? ==> IsBest(vs, req, versions, best.value)
  {
    best := None;
    var rest := versions;
    while rest != {}
      invariant rest <= versions
      invariant best.None? ==> forall v | v in versions - rest :: !Fits(vs, req, v)
      invariant best.Some? ==> IsBest(vs, req, versions - rest, best.value)
      decreases rest
    {
      var v :| v in rest;
      rest := rest - {v};
      if req.specs != [] && !vs.contains(req.specs, v) {
        continue;
      }
      if best.None? || vs.greater(v, best.value) {
        best := Some(v);
      }
    }
  }

  /** The version sets after the first pass: the versions of the compatible wheels, and those of the others. */
  function VersionsIn<V(!new)>(vs: Versions<V>, wheels: seq<Wheel>, compatible: bool): map<string, set<V>> {
    if wheels == [] then map[]
    else
      var n := |wheels| - 1;
      var m := VersionsIn(vs, wheels[..n], compatible);
      var v := vs.parse(wheels[n].version);
      if wheels[n].compatible == compatible && v.Some? then WithVersion(vs, m, ToLower(wheels[n].name), v.value) else m
  }

  /** The versions of all wheels. */
  function AllVersions<V(!new)>(vs: Versions<V>, wheels: seq<Wheel>): map<string, set<V>> {
    if wheels == [] then map[]
    else
      var n := |wheels| - 1;
      var m := AllVersions(vs, wheels[..n]);
      var v := vs.parse(wheels[n].version);
      if v.Some? then WithVersion(vs, m, ToLower(wheels[n].name), v.value) else m
  }

  /** Some reusable wheel or some job of that name has this version. */
  ghost predicate BackedBy<V(!new)>(vs: Versions<V>, reusable: seq<(string, string)>, jobs: seq<Job>, name: string, v: V) {
    || (exists r :: r in reusable && ToLower(r.0) == name && vs.parse(r.1) == Some(v))
    || (exists j :: j in jobs && ToLower(j.name) == name && vs.parse(j.version) == Some(v))
  }

  ghost predicate AllBacked<V(!new)>(vs: Versions<V>, reusable: seq<(string, string)>, jobs: seq<Job>, m: map<string, set<V>>) {
    forall n, v | v in VersionsOf(m, n) :: BackedBy(vs, reusable, jobs, n, v)
  }

  lemma StaysBacked<V(!new)>(vs: Versions<V>, reusable: seq<(string, string)>, jobs: seq<Job>, m: map<string, set<V>>,
                             reusable': seq<(string, string)>, jobs': seq<Job>)
    requires AllBacked(vs, reusable, jobs, m) && reusable <= reusable' && jobs <= jobs'
    ensures AllBacked(vs, reusable', jobs', m)
  {
    forall n, v | v in VersionsOf(m, n)
      ensures BackedBy(vs, reusable', jobs', n, v)
    {
      assert BackedBy(vs, reusable, jobs, n, v);
    }
  }

  lemma OneMoreBacked<V(!new)>(vs: Versions<V>, reusable: seq<(string, string)>, jobs: seq<Job>, m: map<string, set<V>>,
                               name: string, v: V)
    requires Sound(vs) && DifferentIn(vs, m) && AllBacked(vs, reusable, jobs, m) && BackedBy(vs, reusable, jobs, name, v)
    ensures AllBacked(vs, reusable, jobs, WithVersion(vs, m, name, v))
  {
    WithVersionFits(vs, m, name, v);
    forall n, u | u in VersionsOf(WithVersion(vs, m, name, v), n)
      ensures BackedBy(vs, reusable, jobs, n, u)
    {
    }
  }

  /** Every job has a version the set of its name knows. */
  ghost predicate JobsKnown<V(!new)>(vs: Versions<V>, jobs: seq<Job>, planned: map<string, set<V>>) {
    forall j | j in jobs ::
      && vs.parse(j.version).Some? && j.depth == 0
      && Has(vs, VersionsOf(planned, ToLower(j.name)), vs.parse(j.version).value)
  }

  lemma OneMoreJobKnown<V(!new)>(vs: Versions<V>, jobs: seq<Job>, planned: map<string, set<V>>, name: string, version: string)
    requires Sound(vs) && DifferentIn(vs, planned) && JobsKnown(vs, jobs, planned) && vs.parse(version).Some?
    ensures JobsKnown(vs, jobs + [Job(name, version, 0)], WithVersion(vs, planned, ToLower(name), vs.parse(version).value))
  {
    var v := vs.parse(version).value;
    var planned' := WithVersion(vs, planned, ToLower(name), v);
    WithVersionFits(vs, planned, ToLower(name), v);
    forall j | j in jobs
      ensures Has(vs, VersionsOf(planned', ToLower(j.name)), vs.parse(j.version).value)
    {
      HasGrows(vs, VersionsOf(planned, ToLower(j.name)), VersionsOf(planned', ToLower(j.name)), vs.parse(j.version).value);
    }
  }

  // ----- What the second pass does for a requirement -----

  /** The versions among which the best is looked for; all has those of the wheels. */
  function CandidatesOf<V(!new)>(vs: Versions<V>, cfg: Config<V>, all: map<string, set<V>>, req: Requirement): set<V> {
    var known := VersionsOf(all, ToLower(req.name));
    if (cfg.eager || cfg.fallbackLatest) && cfg.index.Some? then Updated(vs, known, cfg.index.value(req.name)) else known
  }

  ghost predicate NoneFits<V(!new)>(vs: Versions<V>, req: Requirement, versions: set<V>) {
    forall v | v in versions :: !Fits(vs, req, v)
  }

  /** The best version for req has a job. */
  ghost predicate BestPlanned<V(!new)>(vs: Versions<V>, req: Requirement, versions: set<V>, jobs: seq<Job>) {
    exists v :: IsBest(vs, req, versions, v) && AlreadyPlanned(req.name, vs.show(v), jobs)
  }

  /** There is no version to plan for req: none fits, or the best one has a job already. */
  ghost predicate Stuck<V(!new)>(vs: Versions<V>, req: Requirement, versions: set<V>, jobs: seq<Job>) {
    NoneFits(vs, req, versions) || BestPlanned(vs, req, versions, jobs)
  }

  lemma NotStuck<V(!new)>(vs: Versions<V>, req: Requirement, versions: set<V>, jobs: seq<Job>, best: V)
    requires Sound(vs) && AllDifferent(vs, versions) && IsBest(vs, req, versions, best)
    requires !AlreadyPlanned(req.name, vs.show(best), jobs)
    ensures !Stuck(vs, req, versions, jobs)
  {
    forall v | IsBest(vs, req, versions, v)
      ensures v == best
    {
      OneBest(vs, req, versions, v, best);
    }
  }

  lemma CandidatesDiffer<V(!new)>(vs: Versions<V>, cfg: Config<V>, all: map<string, set<V>>, req: Requirement)
    requires Sound(vs) && DifferentIn(vs, all) && IndexFits(vs, cfg)
    ensures AllDifferent(vs, CandidatesOf(vs, cfg, all, req))
  {
    assert AllDifferent(vs, VersionsOf(all, ToLower(req.name)));
    if cfg.index.Some? {
      UpdatedDifferent(vs, VersionsOf(all, ToLower(req.name)), cfg.index.value(req.name));
    }
  }

  /** Exactly one job is added. */
  ghost predicate Adds<V(!new)>(vs: Versions<V>, o: Done<V>, n: Done<V>, name: string, version: string) {
    && n.jobs == o.jobs + [Job(name, version, 0)] && n.missing == o.missing
    && vs.parse(version).Some?
    && n.planned == WithVersion(vs, o.planned, ToLower(name), vs.parse(version).value)
  }

  /** What the second pass has done so far: jobs, missing requirements and planned versions. */
  datatype Done<!V> = Done(jobs: seq<Job>, missing: seq<string>, planned: map<string, set<V>>)

  /** Resolving req does nothing if it is satisfied or does not parse; it adds a job for its pin unless there is
      one; without a pin it adds a job for the best of the candidates, or reports req as missing if there is none
      to plan. */
  ghost predicate Resolves<V(!new)>(vs: Versions<V>, req: Requirement, satisfied: bool, versions: set<V>, o: Done<V>, n: Done<V>) {
    if satisfied then n == o
    else if Pinned(req).Some? then
      if AlreadyPlanned(req.name, Pinned(req).value, o.jobs) || vs.parse(Pinned(req).value).None? then n == o
      else Adds(vs, o, n, req.name, Pinned(req).value)
    else if Stuck(vs, req, versions, o.jobs) then n == o.(missing := o.missing + [req.text])
    else exists v :: IsBest(vs, req, versions, v) && Adds(vs, o, n, req.name, vs.show(v))
  }

  /** What is left of a requirement that is not satisfied: its pin has a job, or without a pin its best candidate
      has one, or none fits and it is missing. */
  ghost predicate Settled<V(!new)>(vs: Versions<V>, req: Requirement, versions: set<V>, jobs: seq<Job>, missing: seq<string>) {
    if Pinned(req).Some? then AlreadyPlanned(req.name, Pinned(req).value, jobs)
    else BestPlanned(vs, req, versions, jobs) || (NoneFits(vs, req, versions) && req.text in missing)
  }

  /** Every text that is missing is that of a requirement without a pin for which there is nothing to plan. */
  ghost predicate MissingStuck<V(!new)>(vs: Versions<V>, cfg: Config<V>, all: map<string, set<V>>, reqs: seq<Requirement>,
                                        jobs: seq<Job>, missing: seq<string>) {
    forall t | t in missing ::
      exists r :: r in reqs && r.text == t && Pinned(r).None? && Stuck(vs, r, CandidatesOf(vs, cfg, all, r), jobs)
  }

  /** The job is for an incompatible wheel, for a pin, or for the best candidate of a requirement. */
  ghost predicate JobWanted<V(!new)>(vs: Versions<V>, cfg: Config<V>, all: map<string, set<V>>, wheels: seq<Wheel>,
                                     reqs: seq<Requirement>, j: Job) {
    || WheelJob(wheels, j)
    || (exists r :: r in reqs && Pinned(r) == Some(j.version) && j == Job(r.name, j.version, 0))
    || (exists r, v :: r in reqs && Pinned(r).None? && IsBest(vs, r, CandidatesOf(vs, cfg, all, r), v)
                       && j == Job(r.name, vs.show(v), 0))
  }

  ghost predicate WheelJob(wheels: seq<Wheel>, j: Job) {
    exists w :: w in wheels && !w.compatible && j == Job(w.name, w.version, 0)
  }

  ghost predicate JobsWanted<V(!new)>(vs: Versions<V>, cfg: Config<V>, all: map<string, set<V>>, wheels: seq<Wheel>,
                                      reqs: seq<Requirement>, jobs: seq<Job>) {
    forall j | j in jobs :: JobWanted(vs, cfg, all, wheels, reqs, j)
  }

  lemma PlannedStays(name: string, version: string, jobs: seq<Job>, more: seq<Job>)
    requires AlreadyPlanned(name, version, jobs) && jobs <= more
    ensures AlreadyPlanned(name, version, more)
  {
    var j :| j in jobs && ToLower(j.name) == ToLower(name) && j.version == version;
    assert j in more;
  }

  lemma PlannedNow(name: string, version: string, jobs: seq<Job>)
    ensures AlreadyPlanned(name, version, jobs + [Job(name, version, 0)])
  {
    assert Job(name, version, 0) in jobs + [Job(name, version, 0)];
  }

  lemma BestStays<V(!new)>(vs: Versions<V>, req: Requirement, versions: set<V>, jobs: seq<Job>, more: seq<Job>)
    requires jobs <= more
    ensures BestPlanned(vs, req, versions, jobs) ==> BestPlanned(vs, req, versions, more)
    ensures Stuck(vs, req, versions, jobs) ==> Stuck(vs, req, versions, more)
  {
    if BestPlanned(vs, req, versions, jobs) {
      var v :| IsBest(vs, req, versions, v) && AlreadyPlanned(req.name, vs.show(v), jobs);
      PlannedStays(req.name, vs.show(v), jobs, more);
    }
  }

  lemma SettledStays<V(!new)>(vs: Versions<V>, req: Requirement, versions: set<V>, jobs: seq<Job>, missing: seq<string>,
                              jobs': seq<Job>, missing': seq<string>)
    requires Settled(vs, req, versions, jobs, missing) && jobs <= jobs' && missing <= missing'
    ensures Settled(vs, req, versions, jobs', missing')
  {
    if Pinned(req).Some? {
      PlannedStays(req.name, Pinned(req).value, jobs, jobs');
    } else {
      BestStays(vs, req, versions, jobs, jobs');
    }
  }

  /** Resolving an unsatisfied requirement settles it. */
  lemma ResolvedIsSettled<V(!new)>(vs: Versions<V>, req: Requirement, versions: set<V>, o: Done<V>, n: Done<V>)
    requires Resolves(vs, req, false, versions, o, n) && !BadPin(vs, req)
    ensures Settled(vs, req, versions, n.jobs, n.missing)
  {
    if Pinned(req).Some? {
      PlannedNow(req.name, Pinned(req).value, o.jobs);
    } else if !Stuck(vs, req, versions, o.jobs) {
      var v :| IsBest(vs, req, versions, v) && Adds(vs, o, n, req.name, vs.show(v));
      PlannedNow(req.name, vs.show(v), o.jobs);
    }
  }

  /** Whatever resolving a requirement adds is wanted for it. */
  lemma ResolvedIsWanted<V(!new)>(vs: Versions<V>, cfg: Config<V>, all: map<string, set<V>>, wheels: seq<Wheel>,
                                  reqs: seq<Requirement>, req: Requirement, satisfied: bool, o: Done<V>, n: Done<V>)
    requires Resolves(vs, req, satisfied, CandidatesOf(vs, cfg, all, req), o, n)
    requires JobsWanted(vs, cfg, all, wheels, reqs, o.jobs)
    ensures JobsWanted(vs, cfg, all, wheels, reqs + [req], n.jobs)
  {
    assert req in reqs + [req];
    forall j | j in n.jobs
      ensures JobWanted(vs, cfg, all, wheels, reqs + [req], j)
    {
      if j in o.jobs {
        WantedStays(vs, cfg, all, wheels, reqs, req, j);
      }
    }
  }

  lemma WantedStays<V(!new)>(vs: Versions<V>, cfg: Config<V>, all: map<string, set<V>>, wheels: seq<Wheel>,
                             reqs: seq<Requirement>, req: Requirement, j: Job)
    requires JobWanted(vs, cfg, all, wheels, reqs, j)
    ensures JobWanted(vs, cfg, all, wheels, reqs + [req], j)
  {
    assert forall r | r in reqs :: r in reqs + [req];
  }

  /** Whatever resolving a requirement reports as missing has nothing to plan. */
  lemma ResolvedIsStuck<V(!new)>(vs: Versions<V>, cfg: Config<V>, all: map<string, set<V>>, reqs: seq<Requirement>,
                                 req: Requirement, satisfied: bool, o: Done<V>, n: Done<V>)
    requires Resolves(vs, req, satisfied, CandidatesOf(vs, cfg, all, req), o, n)
    requires MissingStuck(vs, cfg, all, reqs, o.jobs, o.missing)
    ensures MissingStuck(vs, cfg, all, reqs + [req], n.jobs, n.missing)
  {
    assert o.jobs <= n.jobs;
    forall t | t in n.missing
      ensures exists r :: r in reqs + [req] && r.text == t && Pinned(r).None?
                          && Stuck(vs, r, CandidatesOf(vs, cfg, all, r), n.jobs)
    {
      if t in o.missing {
        var r :| r in reqs && r.text == t && Pinned(r).None? && Stuck(vs, r, CandidatesOf(vs, cfg, all, r), o.jobs);
        BestStays(vs, r, CandidatesOf(vs, cfg, all, r), o.jobs, n.jobs);
        assert r in reqs + [req];
      } else {
        assert req in reqs + [req];
      }
    }
  }

  lemma MissingStays<V(!new)>(vs: Versions<V>, cfg: Config<V>, all: map<string, set<V>>, reqs: seq<Requirement>,
                              jobs: seq<Job>, more: seq<Job>, missing: seq<string>)
    requires MissingStuck(vs, cfg, all, reqs, jobs, missing) && jobs <= more
    ensures MissingStuck(vs, cfg, all, reqs, more, missing)
  {
    forall t | t in missing
      ensures exists r :: r in reqs && r.text == t && Pinned(r).None? && Stuck(vs, r, CandidatesOf(vs, cfg, all, r), more)
    {
      var r :| r in reqs && r.text == t && Pinned(r).None? && Stuck(vs, r, CandidatesOf(vs, cfg, all, r), jobs);
      BestStays(vs, r, CandidatesOf(vs, cfg, all, r), jobs, more);
    }
  }

  class Builder<V(==,!new)> {
    const vs: Versions<V>
    const cfg: Config<V>
    var reusable: seq<(string, string)>
    var toBuild: seq<Job>
    var missing: seq<string>
    var expansions: seq<Job>
    var reusableVersions: map<string, set<V>>
    var plannedVersions: map<string, set<V>>
    var allVersions: map<string, set<V>>

    /** The reusable and planned versions of a name, as the code merges them. */
    function Merged(name: string): set<V>
      reads this
    {
      Updated(vs, VersionsOf(reusableVersions, name), VersionsOf(plannedVersions, name))
    }

    ghost predicate Backed(name: string, v: V)
      reads this
    {
      BackedBy(vs, reusable, toBuild, name, v)
    }

    /** The version sets stand for wheels and jobs, and none holds two versions that are the same. */
    ghost predicate SetsFit()
      reads this
    {
      && Sound(vs)
      && DifferentIn(vs, reusableVersions) && DifferentIn(vs, plannedVersions)
      && AllBacked(vs, reusable, toBuild, reusableVersions) && AllBacked(vs, reusable, toBuild, plannedVersions)
    }

    /** Every job has a version the planned ones know, and no job occurs twice ignoring case. */
    ghost predicate Valid()
      reads this
    {
      && SetsFit() && DistinctJobs(toBuild) && JobsKnown(vs, toBuild, plannedVersions)
      && DifferentIn(vs, allVersions) && IndexFits(vs, cfg)
    }

    constructor (vs: Versions<V>, cfg: Config<V>)
      requires Sound(vs) && IndexFits(vs, cfg)
      ensures this.vs == vs && this.cfg == cfg && Valid()
      ensures toBuild == [] && missing == [] && expansions == []
      ensures reusable == [] && reusableVersions == map[] && plannedVersions == map[] && allVersions == map[]
    {
      this.vs := vs;
      this.cfg := cfg;
      reusable, toBuild, missing, expansions := [], [], [], [];
      reusableVersions, plannedVersions, allVersions := map[], map[], map[];
    }

    /** req is satisfied by the versions that are reused or planned. */
    ghost predicate Satisfied(req: Requirement)
      reads this
    {
      Satisfies(vs, req, Merged(ToLower(req.name)))
    }

    function Candidates(req: Requirement): set<V>
      reads this
    {
      CandidatesOf(vs, cfg, allVersions, req)
    }

    ghost function SoFar(): Done<V>
      reads this
    {
      Done(toBuild, missing, plannedVersions)
    }

    /** A job of that name has this version. */
    ghost predicate JobOf(name: string, v: V)
      reads this
    {
      exists j :: j in toBuild && ToLower(j.name) == name && vs.parse(j.version) == Some(v)
    }

    /** A version is planned for req and known: the one it pins, or one that fits. */
    ghost predicate PlannedFor(req: Requirement, v: V)
      reads this
    {
      && JobOf(ToLower(req.name), v) && Has(vs, Merged(ToLower(req.name)), v)
      && if Pinned(req).Some? then vs.parse(Pinned(req).value) == Some(v) else Fits(vs, req, v)
    }

    /** req is satisfied, or has no pin and is listed as missing, or a version is planned for it. */
    ghost predicate Handled(req: Requirement)
      reads this
    {
      Satisfied(req) || (Pinned(req).None? && req.text in missing) || exists v :: PlannedFor(req, v)
    }

    /** Nothing is taken back, and no wheel is added. */
    twostate predicate Grown()
      reads this
    {
      && old(toBuild) <= toBuild && old(missing) <= missing
      && reusable == old(reusable) && reusableVersions == old(reusableVersions) && allVersions == old(allVersions)
      && GrownMap(old(plannedVersions), plannedVersions)
    }

    twostate lemma MergedGrows(name: string)
      requires Grown()
      ensures old(Merged(name)) <= Merged(name)
    {
      assert old(VersionsOf(plannedVersions, name)) <= VersionsOf(plannedVersions, name);
    }

    twostate lemma StaysSatisfied(req: Requirement)
      requires Grown() && old(Satisfied(req))
      ensures Satisfied(req)
    {
      MergedGrows(ToLower(req.name));
      var v :| v in old(Merged(ToLower(req.name))) && Fits(vs, req, v);
      assert v in Merged(ToLower(req.name));
    }

    /** Being handled survives whatever is planned later. */
    twostate lemma StaysHandled(req: Requirement)
      requires Grown() && old(Handled(req))
      ensures Handled(req)
    {
      if old(Satisfied(req)) {
        StaysSatisfied(req);
      } else if !(Pinned(req).None? && req.text in old(missing)) {
        var v :| old(PlannedFor(req, v));
        MergedGrows(ToLower(req.name));
        HasGrows(vs, old(Merged(ToLower(req.name))), Merged(ToLower(req.name)), v);
        assert PlannedFor(req, v);
      }
    }

    /** A requirement that is satisfied or planned for knows every version its "===" ask for. */
    lemma HandledKnows(req: Requirement)
      requires PinsCompare(vs) && SetsFit() && Handled(req) && req.text !in missing
      ensures forall s | s in req.specs && s.operator == "===" && vs.parse(s.version).Some? ::
                Has(vs, Merged(ToLower(req.name)), vs.parse(s.version).value)
    {
      var n := ToLower(req.name);
      if Satisfied(req) {
        var w :| w in Merged(n) && Fits(vs, req, w);
        FitIsAskedFor(vs, req, w);
        assert vs.same(w, w);
        AskedIsKnown(vs, Merged(n), req.specs, w);
      } else {
        var v :| PlannedFor(req, v);
        PlannedIsAskedFor(vs, req, v);
        AskedIsKnown(vs, Merged(n), req.specs, v);
      }
    }

    /** Once a requirement is handled and not missing, later planning hides and shows nothing it asks for. */
    twostate lemma HiddenStays(req: Requirement)
      requires Grown() && SetsFit() && PinsCompare(vs)
      requires forall s | s in req.specs && s.operator == "===" && vs.parse(s.version).Some? ::
                 Has(vs, old(Merged(ToLower(req.name))), vs.parse(s.version).value)
      ensures Hidden(this, req) <==> old(Hidden(this, req))
    {
      var n := ToLower(req.name);
      MergedGrows(n);
      UpdatedDifferent(vs, VersionsOf(reusableVersions, n), VersionsOf(plannedVersions, n));
      HiddenStaysIn(vs, old(Merged(n)), Merged(n), req.specs);
    }

    /** Plans a job under its name; the version is known to parse. */
    method Plan(name: string, version: string, v: V)
      requires Valid() && vs.parse(version) == Some(v) && !AlreadyPlanned(name, version, toBuild)
      modifies `toBuild, `plannedVersions
      ensures Valid() && Grown()
      ensures toBuild == old(toBuild) + [Job(name, version, 0)]
      ensures plannedVersions == WithVersion(vs, old(plannedVersions), ToLower(name), v)
    {
      var jobs, n := toBuild + [Job(name, version, 0)], ToLower(name);
      JobsStayDistinct(toBuild, name, version);
      OneMoreJobKnown(vs, toBuild, plannedVersions, name, version);
      WithVersionFits(vs, plannedVersions, n, v);
      StaysBacked(vs, reusable, toBuild, reusableVersions, reusable, jobs);
      StaysBacked(vs, reusable, toBuild, plannedVersions, reusable, jobs);
      assert Job(name, version, 0) in jobs;
      OneMoreBacked(vs, reusable, jobs, plannedVersions, n, v);
      toBuild := jobs;
      plannedVersions := WithVersion(vs, plannedVersions, n, v);
    }

    /** First pass, one wheel; false when its version does not parse. */
    method Classify(w: Wheel) returns (ok: bool)
      requires Valid()
      modifies this
      ensures Valid() && missing == old(missing) && expansions == old(expansions)
      ensures ok <==> vs.parse(w.version).Some?
      ensures ok && w.compatible ==>
                && reusableVersions == WithVersion(vs, old(reusableVersions), ToLower(w.name), vs.parse(w.version).value)
                && plannedVersions == old(plannedVersions)
      ensures ok && !w.compatible ==>
                && reusableVersions == old(reusableVersions)
                && plannedVersions == WithVersion(vs, old(plannedVersions), ToLower(w.name), vs.parse(w.version).value)
      ensures ok && w.compatible ==> reusable == old(reusable) + [(w.name, w.version)] && toBuild == old(toBuild)
      ensures ok && !w.compatible ==>
                && reusable == old(reusable)
                && toBuild == if AlreadyPlanned(w.name, w.version, old(toBuild)) then old(toBuild)
                              else old(toBuild) + [Job(w.name, w.version, 0)]
      ensures ok ==> allVersions == WithVersion(vs, old(allVersions), ToLower(w.name), vs.parse(w.version).value)
    {
      var v := vs.parse(w.version);
      if v.None? {
        return false;
      }
      var n := ToLower(w.name);
      WithVersionFits(vs, allVersions, n, v.value);
      allVersions := WithVersion(vs, allVersions, n, v.value);
      if w.compatible {
        var more := reusable + [(w.name, w.version)];
        WithVersionFits(vs, reusableVersions, n, v.value);
        StaysBacked(vs, reusable, toBuild, reusableVersions, more, toBuild);
        StaysBacked(vs, reusable, toBuild, plannedVersions, more, toBuild);
        assert (w.name, w.version) in more;
        OneMoreBacked(vs, more, toBuild, reusableVersions, n, v.value);
        reusable := more;
        reusableVersions := WithVersion(vs, reusableVersions, n, v.value);
        return true;
      }
      if AlreadyPlanned(w.name, w.version, toBuild) {
        AlreadyHas(w.name, w.version);
        assert plannedVersions[n := VersionsOf(plannedVersions, n)] == plannedVersions;
        plannedVersions := WithVersion(vs, plannedVersions, n, v.value);
        return true;
      }
      Plan(w.name, w.version, v.value);
      return true;
    }

    lemma AlreadyHas(name: string, version: string)
      requires Valid() && AlreadyPlanned(name, version, toBuild)
      ensures vs.parse(version).Some? && ToLower(name) in plannedVersions
      ensures Has(vs, VersionsOf(plannedVersions, ToLower(name)), vs.parse(version).value)
    {
      var j :| j in toBuild && ToLower(j.name) == ToLower(name) && j.version == version;
    }

    /** Second pass, one requirement; false, and nothing done, when it is unsatisfied and its pin does not parse. */
    method Resolve(req: Requirement) returns (ok: bool)
      requires Valid()
      modifies this
      ensures Valid() && Grown() && expansions == old(expansions)
      ensures !ok <==> !old(Satisfied(req)) && Pinned(req).Some? && vs.parse(Pinned(req).value).None?
      ensures !ok ==> !Satisfied(req)
      ensures ok ==> Handled(req)
      ensures Resolves(vs, req, old(Satisfied(req)), old(Candidates(req)), old(SoFar()), SoFar())
      ensures PinsCompare(vs) && ok && req.text !in missing ==>
                (Hidden(this, req) <==> old(Hidden(this, req)))
                && (Satisfied(req) <==> !Misspelt(vs, req) && !old(Hidden(this, req)))
    {
      ok := ResolveOne(req);
      if PinsCompare(vs) && ok && req.text !in missing {
        SatisfiedIff(this, req);
      }
    }

    /** The same, without what follows from how specifiers compare. */
    method ResolveOne(req: Requirement) returns (ok: bool)
      requires Valid()
      modifies this
      ensures Valid() && Grown() && expansions == old(expansions)
      ensures !ok <==> !old(Satisfied(req)) && Pinned(req).Some? && vs.parse(Pinned(req).value).None?
      ensures !ok ==> !Satisfied(req)
      ensures ok ==> Handled(req)
      ensures Resolves(vs, req, old(Satisfied(req)), old(Candidates(req)), old(SoFar()), SoFar())
      ensures PinsCompare(vs) && ok && req.text !in missing ==> (Hidden(this, req) <==> old(Hidden(this, req)))
    {
      var n := ToLower(req.name);
      if Satisfies(vs, req, Merged(n)) {
        return true;
      }
      ToLowerTwice(req.name);
      var pin := Pinned(req);
      if pin.Some? {
        if AlreadyPlanned(n, pin.value, toBuild) {
          AlreadyHas(n, pin.value);
        } else {
          var v := vs.parse(pin.value);
          if v.None? {
            return false;
          }
          WithVersionFits(vs, plannedVersions, n, v.value);
          PlannedHidesNothing(vs, VersionsOf(reusableVersions, n), VersionsOf(plannedVersions, n), v.value, req.specs);
          Plan(req.name, pin.value, v.value);
          assert Job(req.name, pin.value, 0) in toBuild;
        }
        UpdatedHas(vs, VersionsOf(reusableVersions, n), VersionsOf(plannedVersions, n), vs.parse(pin.value).value);
        assert PlannedFor(req, vs.parse(pin.value).value);
        return true;
      }
      ok := true;
      PlanBest(req);
    }

    /** For an unsatisfied requirement without a pin: a job for the best candidate, or an entry in missing. */
    method PlanBest(req: Requirement)
      requires Valid() && !Satisfied(req) && Pinned(req).None?
      modifies `toBuild, `plannedVersions, `missing
      ensures Valid() && Grown() && Handled(req)
      ensures Resolves(vs, req, false, old(Candidates(req)), old(SoFar()), SoFar())
      ensures PinsCompare(vs) && req.text !in missing ==> (Hidden(this, req) <==> old(Hidden(this, req)))
    {
      var n := ToLower(req.name);
      ToLowerTwice(req.name);
      var candidates := VersionsOf(allVersions, n);
      if cfg.eager && cfg.index.Some? {
        candidates := Updated(vs, candidates, cfg.index.value(req.name));
      } else if cfg.fallbackLatest && cfg.index.Some? {
        candidates := Updated(vs, candidates, cfg.index.value(req.name));
      }
      assert candidates == Candidates(req);
      var best := BestCandidate(vs, req, candidates);
      if best.Some? && !AlreadyPlanned(n, vs.show(best.value), toBuild) {
        CandidatesDiffer(vs, cfg, allVersions, req);
        NotStuck(vs, req, candidates, toBuild, best.value);
        WithVersionFits(vs, plannedVersions, n, best.value);
        if PinsCompare(vs) {
          FitIsAskedFor(vs, req, best.value);
          PlannedHidesNothing(vs, VersionsOf(reusableVersions, n), VersionsOf(plannedVersions, n), best.value, req.specs);
        }
        Plan(req.name, vs.show(best.value), best.value);
        assert Job(req.name, vs.show(best.value), 0) in toBuild;
        UpdatedHas(vs, VersionsOf(reusableVersions, n), VersionsOf(plannedVersions, n), best.value);
        assert PlannedFor(req, best.value);
      } else {
        missing := missing + [req.text];
      }
    }

    twostate lemma StaysFit()
      requires Grown() && old(SetsFit()) && plannedVersions == old(plannedVersions)
      ensures SetsFit()
    {
      StaysBacked(vs, old(reusable), old(toBuild), reusableVersions, reusable, toBuild);
      StaysBacked(vs, old(reusable), old(toBuild), plannedVersions, reusable, toBuild);
    }

    /** Every requirement is handled, and one that is not satisfied is settled. */
    ghost predicate Resolved(reqs: seq<Requirement>)
      reads this
    {
      forall r | r in reqs :: Handled(r) && (Satisfied(r) || Settled(vs, r, Candidates(r), toBuild, missing))
    }

    twostate lemma StaysResolved(reqs: seq<Requirement>)
      requires Grown() && old(Resolved(reqs))
      ensures Resolved(reqs)
    {
      forall r | r in reqs
        ensures Handled(r) && (Satisfied(r) || Settled(vs, r, Candidates(r), toBuild, missing))
      {
        StaysHandled(r);
        if old(Satisfied(r)) {
          StaysSatisfied(r);
        } else {
          SettledStays(vs, r, Candidates(r), old(toBuild), old(missing), toBuild, missing);
        }
      }
    }

    /** What the second pass has done for reqs is right: they are resolved, and every missing text and every job
        has its reason. */
    ghost predicate Justified(wheels: seq<Wheel>, reqs: seq<Requirement>)
      reads this
    {
      && Resolved(reqs)
      && MissingStuck(vs, cfg, allVersions, reqs, toBuild, missing)
      && JobsWanted(vs, cfg, allVersions, wheels, reqs, toBuild)
    }

    /** One more requirement. */
    method ResolveNext(ghost wheels: seq<Wheel>, ghost reqs: seq<Requirement>, req: Requirement) returns (ok: bool)
      requires Valid() && Justified(wheels, reqs)
      modifies this
      ensures Valid() && Grown() && expansions == old(expansions)
      ensures ok ==> Justified(wheels, reqs + [req])
      ensures !ok ==> BadPin(vs, req) && !Satisfied(req)
    {
      label before:
      ghost var was, satisfied := SoFar(), Satisfied(req);
      ok := Resolve(req);
      if ok {
        StaysResolved@before(reqs);
        if satisfied {
          StaysSatisfied@before(req);
        } else {
          ResolvedIsSettled(vs, req, Candidates(req), was, SoFar());
        }
        ResolvedIsStuck(vs, cfg, allVersions, reqs, req, satisfied, was, SoFar());
        ResolvedIsWanted(vs, cfg, allVersions, wheels, reqs, req, satisfied, was, SoFar());
      }
    }

    /** Second pass, up to the first requirement that is unsatisfied and whose pin does not parse. */
    method ResolveAll(reqs: seq<Requirement>, ghost wheels: seq<Wheel>) returns (ok: bool)
      requires Valid() && Justified(wheels, [])
      modifies this
      ensures Valid() && Grown() && expansions == old(expansions)
      ensures ok <==> forall r | r in reqs && BadPin(vs, r) :: Satisfied(r)
      ensures ok ==> Justified(wheels, reqs)
    {
      for i := 0 to |reqs|
        invariant Valid() && Grown() && expansions == old(expansions)
        invariant Justified(wheels, reqs[..i])
      {
        assert reqs[..i + 1] == reqs[..i] + [reqs[i]];
        ok := ResolveNext(wheels, reqs[..i], reqs[i]);
        if !ok {
          assert reqs[i] in reqs;
          return;
        }
      }
      assert reqs[..|reqs|] == reqs;
      ok := true;
    }

    /** Dependency expansion: up to maxExpansions names that are required but neither present nor planned. */
    method Expand(wheels: seq<Wheel>, reqs: seq<Requirement>)
      requires Valid() && expansions == []
      modifies `toBuild, `expansions
      ensures DistinctJobs(toBuild) && toBuild == old(toBuild) + expansions
      ensures ExpandsTo(cfg, wheels, reqs, old(toBuild), expansions)
    {
      if cfg.index.None? || cfg.maxDepth <= 0 {
        return;
      }
      var consider := toBuild;
      if consider == [] {
        return;
      }
      var names := MissingPythonDeps(wheels, reqs, consider);
      var jobs: seq<Job> := [];
      for i := 0 to |names|
        invariant |jobs| == i && |jobs| <= if cfg.maxExpansions < 0 then 0 else cfg.maxExpansions
        invariant LatestOf(names[..i], jobs)
      {
        if |jobs| >= cfg.maxExpansions {
          break;
        }
        jobs := jobs + [Job(names[i], "latest", 1)];
      }
      ExpansionDistinct(consider, names, jobs);
      expansions := jobs;
      toBuild := toBuild + jobs;
      assert MissingNames(wheels, reqs, old(toBuild), names);
    }
  }

  /** A job for the latest version of each name. */
  ghost predicate LatestOf(names: seq<string>, jobs: seq<Job>) {
    |jobs| == |names| && forall k | 0 <= k < |jobs| :: jobs[k] == Job(names[k], "latest", 1)
  }

  /** The folded names that are required but that neither a wheel nor a planned job has, sorted, each once. */
  ghost predicate MissingNames(wheels: seq<Wheel>, reqs: seq<Requirement>, planned: seq<Job>, names: seq<string>) {
    && (forall n :: n in names <==>
          && (exists r :: r in reqs && ToLower(r.name) == n)
          && (forall w | w in wheels :: ToLower(w.name) != n)
          && (forall j | j in planned :: ToLower(j.name) != n))
    && (forall i, j | 0 <= i < j < |names| :: names[i] != names[j])
    && Sorting.SortedBy(names, Sorting.Identity)
  }

  /** With an index, a depth left and some job, the jobs are "latest" for the first of the missing names, as many
      as the cap allows; otherwise there are none. */
  ghost predicate ExpandsTo<V>(cfg: Config<V>, wheels: seq<Wheel>, reqs: seq<Requirement>, planned: seq<Job>, jobs: seq<Job>) {
    if cfg.index.None? || cfg.maxDepth <= 0 || planned == [] then jobs == []
    else exists names :: MissingNames(wheels, reqs, planned, names) && FirstLatest(names, cfg.maxExpansions, jobs)
  }

  ghost predicate FirstLatest(names: seq<string>, cap: int, jobs: seq<Job>) {
    && |jobs| == (if cap <= 0 then 0 else if cap < |names| then cap else |names|)
    && LatestOf(names[..|jobs|], jobs)
  }

  lemma ExpansionDistinct(planned: seq<Job>, names: seq<string>, jobs: seq<Job>)
    requires DistinctJobs(planned) && |jobs| <= |names|
    requires LatestOf(names[..|jobs|], jobs)
    requires forall i, j | 0 <= i < j < |names| :: names[i] != names[j]
    requires forall n | n in names :: ToLower(n) == n && forall j | j in planned :: ToLower(j.name) != n
    ensures DistinctJobs(planned + jobs)
  {
    var all, n := planned + jobs, |planned|;
    forall i, j | 0 <= i < j < |all|
      ensures !SameJob(all[i], all[j])
    {
      if j >= n {
        assert names[j - n] in names;
        if i >= n {
          assert names[i - n] in names;
        } else {
          assert planned[i] in planned;
        }
      }
    }
  }

  /** The folded names required by some wheel that neither a wheel nor a planned job has, sorted. */
  method MissingPythonDeps(wheels: seq<Wheel>, reqs: seq<Requirement>, planned: seq<Job>) returns (names: seq<string>)
    ensures MissingNames(wheels, reqs, planned, names)
    ensures forall n | n in names :: ToLower(n) == n
  {
    var plannedNames := set j | j in planned :: ToLower(j.name);
    var wheelNames := set w | w in wheels :: ToLower(w.name);
    var found: set<string> := {};
    for i := 0 to |reqs|
      invariant forall n :: n in found <==>
                  (exists r :: r in reqs[..i] && ToLower(r.name) == n) && n !in wheelNames && n !in plannedNames
    {
      var name := ToLower(reqs[i].name);
      assert reqs[..i + 1] == reqs[..i] + [reqs[i]];
      if name !in wheelNames && name !in plannedNames {
        found := found + {name};
      }
    }
    assert reqs[..|reqs|] == reqs;
    forall n | n in found
      ensures ToLower(n) == n
    {
      var r :| r in reqs && ToLower(r.name) == n;
      ToLowerTwice(r.name);
    }
    names := Sorted(found);
  }

  method Sorted(s: set<string>) returns (out: seq<string>)
    ensures forall x :: x in out <==> x in s
    ensures forall i, j | 0 <= i < j < |out| :: out[i] != out[j]
    ensures Sorting.SortedBy(out, Sorting.Identity)
  {
    var list: seq<string> := [];
    var rest := s;
    while rest != {}
      invariant rest <= s && multiset(list) == multiset(s - rest)
      decreases rest
    {
      var x :| x in rest;
      assert s - (rest - {x}) == (s - rest) + {x};
      rest := rest - {x};
      list := list + [x];
    }
    assert s - rest == s;
    Sorting.SortSorts(list, Sorting.Identity);
    out := Sorting.SortStrings(list);
    OnceEach(out, s);
  }

  lemma OnceEach(xs: seq<string>, s: set<string>)
    requires multiset(xs) == multiset(s)
    ensures forall x :: x in xs <==> x in s
    ensures forall i, j | 0 <= i < j < |xs| :: xs[i] != xs[j]
  {
    assert forall x :: x in xs <==> x in multiset(xs);
    forall i, j | 0 <= i < j < |xs|
      ensures xs[i] != xs[j]
    {
      assert xs == xs[..i] + [xs[i]] + xs[i + 1..j] + [xs[j]] + xs[j + 1..];
      assert multiset(s)[xs[i]] <= 1;
    }
  }

  function Requirements(wheels: seq<Wheel>): seq<Requirement> {
    if wheels == [] then [] else Requirements(wheels[..|wheels| - 1]) + wheels[|wheels| - 1].required
  }

  /** Every text in missing is that of a requirement without a pin. */
  ghost predicate MissingUnpinned(missing: seq<string>, reqs: seq<Requirement>) {
    forall t | t in missing :: exists r :: r in reqs && r.text == t && Pinned(r).None?
  }

  predicate AllParse<V(!new)>(vs: Versions<V>, wheels: seq<Wheel>) {
    forall w | w in wheels :: vs.parse(w.version).Some?
  }

  /** A requirement that planning cannot go past unless it is satisfied. */
  predicate BadPin<V(!new)>(vs: Versions<V>, req: Requirement) {
    Pinned(req).Some? && vs.parse(Pinned(req).value).None?
  }

  function Reusable(wheels: seq<Wheel>): seq<(string, string)> {
    if wheels == [] then []
    else
      var w := wheels[|wheels| - 1];
      Reusable(wheels[..|wheels| - 1]) + (if w.compatible then [(w.name, w.version)] else [])
  }

  /** The jobs are those of the incompatible wheels, and none of these lacks one. */
  ghost predicate WheelsPlanned(wheels: seq<Wheel>, jobs: seq<Job>) {
    && (forall j | j in jobs :: WheelJob(wheels, j))
    && forall w | w in wheels && !w.compatible :: AlreadyPlanned(w.name, w.version, jobs)
  }

  lemma OneMoreWheel(wheels: seq<Wheel>, w: Wheel, jobs: seq<Job>)
    requires WheelsPlanned(wheels, jobs)
    ensures w.compatible || AlreadyPlanned(w.name, w.version, jobs) ==> WheelsPlanned(wheels + [w], jobs)
    ensures !w.compatible ==> WheelsPlanned(wheels + [w], jobs + [Job(w.name, w.version, 0)])
  {
    assert w in wheels + [w] && forall x | x in wheels :: x in wheels + [w];
    forall j | j in jobs
      ensures WheelJob(wheels + [w], j)
    {
      assert WheelJob(wheels, j);
    }
    var more := jobs + [Job(w.name, w.version, 0)];
    PlannedNow(w.name, w.version, jobs);
    forall x | x in wheels && !x.compatible
      ensures AlreadyPlanned(x.name, x.version, more)
    {
      PlannedStays(x.name, x.version, jobs, more);
    }
  }

  /** First pass, up to the first wheel whose version does not parse. */
  method ClassifyAll<V(==,!new)>(b: Builder<V>, wheels: seq<Wheel>) returns (ok: bool)
    requires b.Valid() && b.toBuild == [] && b.missing == [] && b.expansions == [] && b.reusable == []
    requires b.reusableVersions == map[] && b.plannedVersions == map[] && b.allVersions == map[]
    modifies b
    ensures b.Valid() && b.expansions == [] && b.missing == []
    ensures ok <==> AllParse(b.vs, wheels)
    ensures ok ==> b.reusable == Reusable(wheels) && WheelsPlanned(wheels, b.toBuild)
    ensures ok ==> b.reusableVersions == VersionsIn(b.vs, wheels, true)
                   && b.plannedVersions == VersionsIn(b.vs, wheels, false)
                   && b.allVersions == AllVersions(b.vs, wheels)
  {
    for i := 0 to |wheels|
      invariant b.Valid() && b.expansions == [] && b.missing == []
      invariant AllParse(b.vs, wheels[..i])
      invariant b.reusable == Reusable(wheels[..i]) && WheelsPlanned(wheels[..i], b.toBuild)
      invariant b.reusableVersions == VersionsIn(b.vs, wheels[..i], true)
      invariant b.plannedVersions == VersionsIn(b.vs, wheels[..i], false)
      invariant b.allVersions == AllVersions(b.vs, wheels[..i])
    {
      assert wheels[..i + 1] == wheels[..i] + [wheels[i]] && wheels[..i + 1][..i] == wheels[..i];
      OneMoreWheel(wheels[..i], wheels[i], b.toBuild);
      ok := b.Classify(wheels[i]);
      if !ok {
        assert wheels[i] in wheels;
        return;
      }
    }
    assert wheels[..|wheels|] == wheels;
    ok := true;
  }

  /** v is the version of the first wheel of that name that has it, in this or another spelling. */
  ghost predicate FirstOfWheels<V(!new)>(vs: Versions<V>, wheels: seq<Wheel>, name: string, v: V) {
    exists k :: 0 <= k < |wheels| && WheelHas(vs, wheels[k], name, v)
                && forall j, u | 0 <= j < k && WheelHas(vs, wheels[j], name, u) :: !vs.same(u, v)
  }

  /** Some wheel of that name has a version that is the same as v. */
  ghost predicate SomeWheelHas<V(!new)>(vs: Versions<V>, wheels: seq<Wheel>, name: string, v: V) {
    exists k, u :: 0 <= k < |wheels| && WheelHas(vs, wheels[k], name, u) && vs.same(u, v)
  }

  ghost predicate WheelHas<V(!new)>(vs: Versions<V>, w: Wheel, name: string, v: V) {
    ToLower(w.name) == name && vs.parse(w.version) == Some(v)
  }

  /** v is the version of a wheel of that name or, if an index is there and is asked, a version it offers that
      no wheel has. */
  ghost predicate Candidate<V(!new)>(vs: Versions<V>, cfg: Config<V>, wheels: seq<Wheel>, req: Requirement, v: V) {
    || FirstOfWheels(vs, wheels, ToLower(req.name), v)
    || (cfg.index.Some? && (cfg.eager || cfg.fallbackLatest) && v in cfg.index.value(req.name)
        && !SomeWheelHas(vs, wheels, ToLower(req.name), v))
  }

  lemma {:induction false} AllVersionsAre<V(!new)>(vs: Versions<V>, wheels: seq<Wheel>, name: string, v: V)
    requires Sound(vs)
    ensures DifferentIn(vs, AllVersions(vs, wheels))
    ensures v in VersionsOf(AllVersions(vs, wheels), name) <==> FirstOfWheels(vs, wheels, name, v)
    ensures Has(vs, VersionsOf(AllVersions(vs, wheels), name), v) <==> SomeWheelHas(vs, wheels, name, v)
  {
    if wheels != [] {
      var n := |wheels| - 1;
      var init, w, m := wheels[..n], wheels[n], AllVersions(vs, wheels[..n]);
      AllVersionsAre(vs, init, name, v);
      var x := vs.parse(w.version);
      if x.Some? {
        WithVersionFits(vs, m, ToLower(w.name), x.value);
      }
      OneMoreVersion(vs, wheels, name, v);
      assert VersionsOf(AllVersions(vs, wheels), name) ==
             if x.Some? && ToLower(w.name) == name then AddTo(vs, VersionsOf(m, name), x.value) else VersionsOf(m, name);
    }
  }

  lemma OneMoreVersion<V(!new)>(vs: Versions<V>, wheels: seq<Wheel>, name: string, v: V)
    requires Sound(vs) && wheels != []
    ensures var n := |wheels| - 1;
            && (FirstOfWheels(vs, wheels, name, v) <==>
                  || FirstOfWheels(vs, wheels[..n], name, v)
                  || (WheelHas(vs, wheels[n], name, v) && !SomeWheelHas(vs, wheels[..n], name, v)))
            && (SomeWheelHas(vs, wheels, name, v) <==>
                  || SomeWheelHas(vs, wheels[..n], name, v)
                  || (ToLower(wheels[n].name) == name && vs.parse(wheels[n].version).Some?
                      && vs.same(vs.parse(wheels[n].version).value, v)))
  {
    var n := |wheels| - 1;
    assert forall k | 0 <= k < n :: wheels[..n][k] == wheels[k];
    if ToLower(wheels[n].name) == name && vs.parse(wheels[n].version).Some? {
      assert WheelHas(vs, wheels[n], name, vs.parse(wheels[n].version).value);
    }
  }

  /** The candidates of a finished plan, from its inputs. */
  lemma CandidatesAre<V(!new)>(vs: Versions<V>, cfg: Config<V>, wheels: seq<Wheel>, req: Requirement, v: V)
    requires Sound(vs)
    ensures v in CandidatesOf(vs, cfg, AllVersions(vs, wheels), req) <==> Candidate(vs, cfg, wheels, req, v)
  {
    AllVersionsAre(vs, wheels, ToLower(req.name), v);
  }

  lemma {:induction false} RequirementsMember(wheels: seq<Wheel>, r: Requirement)
    ensures r in Requirements(wheels) <==> exists w :: w in wheels && r in w.required
  {
    if wheels != [] {
      RequirementsMember(wheels[..|wheels| - 1], r);
      assert wheels == wheels[..|wheels| - 1] + [wheels[|wheels| - 1]];
    }
  }

  lemma {:induction false} ReusableMember(wheels: seq<Wheel>, name: string, version: string)
    ensures (name, version) in Reusable(wheels) <==> Wheelful(wheels, name, version)
  {
    if wheels != [] {
      var init, w := wheels[..|wheels| - 1], wheels[|wheels| - 1];
      ReusableMember(init, name, version);
      if Wheelful(init, name, version) {
        var i :| 0 <= i < |init| && init[i].compatible && init[i].name == name && init[i].version == version;
        assert wheels[i] == init[i];
      }
    }
  }

  /** A compatible wheel has that name and version. */
  ghost predicate Wheelful(wheels: seq<Wheel>, name: string, version: string) {
    exists i :: 0 <= i < |wheels| && wheels[i].compatible && wheels[i].name == name && wheels[i].version == version
  }

  /** The whole plan. It succeeds exactly when all wheel versions parse and every requirement whose pin does
      not parse is satisfied. Then every requirement of every wheel is handled, and no two jobs agree on version
      and folded name. */
  method BuildPlan<V(==,!new)>(vs: Versions<V>, cfg: Config<V>, wheels: seq<Wheel>) returns (ok: bool, b: Builder<V>)
    requires Sound(vs) && IndexFits(vs, cfg)
    ensures fresh(b) && b.vs == vs && b.cfg == cfg && b.SetsFit()
    ensures ok <==> AllParse(vs, wheels) && forall r | r in Requirements(wheels) && BadPin(vs, r) :: b.Satisfied(r)
    ensures ok ==> DistinctJobs(b.toBuild) && b.reusable == Reusable(wheels) && b.Resolved(Requirements(wheels))
    ensures ok ==> MissingStuck(vs, cfg, b.allVersions, Requirements(wheels), b.toBuild, b.missing)
    ensures ok ==> forall w | w in wheels && !w.compatible :: AlreadyPlanned(w.name, w.version, b.toBuild)
    ensures ok ==> |b.expansions| <= |b.toBuild|
                   && var planned := b.toBuild[..|b.toBuild| - |b.expansions|];
                      && b.toBuild == planned + b.expansions
                      && JobsWanted(vs, cfg, b.allVersions, wheels, Requirements(wheels), planned)
                      && ExpandsTo(cfg, wheels, Requirements(wheels), planned, b.expansions)
    ensures ok ==> b.reusableVersions == VersionsIn(vs, wheels, true)
                   && GrownMap(VersionsIn(vs, wheels, false), b.plannedVersions)
                   && b.allVersions == AllVersions(vs, wheels)
  {
    b := new Builder(vs, cfg);
    ok := ClassifyAll(b, wheels);
    if !ok {
      return;
    }
    assert b.Justified(wheels, []);
    ghost var first := b.toBuild;
    ok := b.ResolveAll(Requirements(wheels), wheels);
    if ok {
      label resolved:
      ghost var planned := b.toBuild;
      b.Expand(wheels, Requirements(wheels));
      assert b.toBuild[..|b.toBuild| - |b.expansions|] == planned;
      b.StaysFit@resolved();
      b.StaysResolved@resolved(Requirements(wheels));
      MissingStays(vs, cfg, b.allVersions, Requirements(wheels), planned, b.toBuild, b.missing);
      forall w | w in wheels && !w.compatible
        ensures AlreadyPlanned(w.name, w.version, b.toBuild)
      {
        PlannedStays(w.name, w.version, first, b.toBuild);
      }
    }
  }

  // ----- Which requirements end up satisfied or missing -----

  ghost predicate HasExact(specs: seq<Spec>) {
    exists s :: s in specs && s.operator == "==="
  }

  /** How specifiers compare: a version meets "==" with its own text; "===" compares texts ignoring case, alone
      and among others; all other specifiers treat versions alike that are the same; and parsing ignores case. */
  ghost predicate PinsCompare<V(!new)>(vs: Versions<V>) {
    && (forall t, v | vs.parse(t) == Some(v) :: vs.contains([Spec("==", t)], v))
    && (forall t, v :: vs.contains([Spec("===", t)], v) <==> ToLower(vs.show(v)) == ToLower(t))
    && (forall specs: seq<Spec>, s, v | s in specs && s.operator == "===" && vs.contains(specs, v) ::
          ToLower(vs.show(v)) == ToLower(s.version))
    && (forall specs: seq<Spec>, u, v | vs.same(u, v) && vs.contains(specs, u) && !HasExact(specs) :: vs.contains(specs, v))
    && (forall s, t :: ToLower(s) == ToLower(t) ==> vs.parse(s) == vs.parse(t))
  }

  /** A "===" pin whose text is not how its version prints, such as "===v1.0". */
  predicate Misspelt<V(!new)>(vs: Versions<V>, req: Requirement) {
    && Pinned(req).Some? && req.specs[0].operator == "==="
    && vs.parse(Pinned(req).value).Some?
    && ToLower(vs.show(vs.parse(Pinned(req).value).value)) != ToLower(Pinned(req).value)
  }

  lemma PinnedFitsIff<V(!new)>(vs: Versions<V>, req: Requirement, v: V)
    requires PinsCompare(vs) && Pinned(req).Some? && vs.parse(Pinned(req).value) == Some(v)
    ensures Fits(vs, req, v) <==> !Misspelt(vs, req)
  {
    assert req.specs == [Spec(req.specs[0].operator, Pinned(req).value)];
  }

  /** With a "===" among its specifiers only the version with that text can fit. */
  lemma ExactFits<V(!new)>(vs: Versions<V>, req: Requirement, s: Spec, v: V)
    requires Sound(vs) && PinsCompare(vs) && s in req.specs && s.operator == "===" && Fits(vs, req, v)
    ensures vs.parse(s.version) == Some(v) && ToLower(vs.show(v)) == ToLower(s.version)
  {
    assert vs.parse(vs.show(v)) == Some(v);
  }

  /** No version at all meets a misspelt pin. */
  lemma MisspeltNeverFits<V(!new)>(vs: Versions<V>, req: Requirement, v: V)
    requires Sound(vs) && PinsCompare(vs) && Misspelt(vs, req)
    ensures !Fits(vs, req, v)
  {
    if Fits(vs, req, v) {
      ExactFits(vs, req, req.specs[0], v);
    }
  }

  /** A wheel that is reused or a job of the plan meets the requirement. */
  ghost predicate Met<V(!new)>(b: Builder<V>, req: Requirement)
    reads b
  {
    exists v :: b.Backed(ToLower(req.name), v) && Fits(b.vs, req, v)
  }

  /** In a finished plan a requirement is met by a reused wheel or a job, or listed as missing, exactly when it
      is not a misspelt "===" pin; a misspelt one is planned all the same and reported nowhere. */
  lemma MetIff<V(!new)>(b: Builder<V>, reqs: seq<Requirement>, req: Requirement)
    requires PinsCompare(b.vs) && b.SetsFit()
    requires b.Handled(req) && MissingUnpinned(b.missing, reqs)
    requires forall r | r in reqs && r.text == req.text :: r.specs == req.specs
    ensures Met(b, req) || req.text in b.missing <==> !Misspelt(b.vs, req)
  {
    var n := ToLower(req.name);
    if Misspelt(b.vs, req) {
      forall v
        ensures !Fits(b.vs, req, v)
      {
        MisspeltNeverFits(b.vs, req, v);
      }
    } else if b.Satisfied(req) {
      var v :| v in b.Merged(n) && Fits(b.vs, req, v);
      assert b.Backed(n, v);
    } else if req.text !in b.missing {
      var v :| b.PlannedFor(req, v);
      if Pinned(req).Some? {
        PinnedFitsIff(b.vs, req, v);
      }
      assert b.Backed(n, v);
    }
  }

  /** A "===" asks for a version that the known ones have under another spelling, as 1.0.0 when 1.0 came first. */
  ghost predicate HiddenIn<V(!new)>(vs: Versions<V>, known: set<V>, specs: seq<Spec>) {
    exists s, u :: s in specs && s.operator == "===" && vs.parse(s.version).Some?
                   && u in known && vs.same(u, vs.parse(s.version).value) && u != vs.parse(s.version).value
  }

  ghost predicate Hidden<V(!new)>(b: Builder<V>, req: Requirement)
    reads b
  {
    HiddenIn(b.vs, b.Merged(ToLower(req.name)), req.specs)
  }

  /** Every "===" among the specifiers asks for version v or for none. */
  ghost predicate AsksOnlyFor<V(!new)>(vs: Versions<V>, specs: seq<Spec>, v: V) {
    forall s | s in specs && s.operator == "===" && vs.parse(s.version).Some? :: vs.parse(s.version).value == v
  }

  lemma FitIsAskedFor<V(!new)>(vs: Versions<V>, req: Requirement, v: V)
    requires Sound(vs) && PinsCompare(vs) && Fits(vs, req, v)
    ensures AsksOnlyFor(vs, req.specs, v)
  {
    forall s | s in req.specs && s.operator == "===" && vs.parse(s.version).Some?
      ensures vs.parse(s.version).value == v
    {
      ExactFits(vs, req, s, v);
    }
  }

  lemma PlannedIsAskedFor<V(!new)>(vs: Versions<V>, req: Requirement, v: V)
    requires Sound(vs) && PinsCompare(vs)
    requires if Pinned(req).Some? then vs.parse(Pinned(req).value) == Some(v) else Fits(vs, req, v)
    ensures AsksOnlyFor(vs, req.specs, v)
  {
    if Pinned(req).None? {
      FitIsAskedFor(vs, req, v);
    } else {
      forall s | s in req.specs
        ensures s == req.specs[0]
      {
      }
    }
  }

  lemma AskedIsKnown<V(!new)>(vs: Versions<V>, known: set<V>, specs: seq<Spec>, v: V)
    requires AsksOnlyFor(vs, specs, v) && Has(vs, known, v)
    ensures forall s | s in specs && s.operator == "===" && vs.parse(s.version).Some? :: Has(vs, known, vs.parse(s.version).value)
  {
  }

  /** A lone "===" is hidden exactly when the known spelling of its version is another. */
  lemma OneHidden<V(!new)>(vs: Versions<V>, known: set<V>, s: Spec, u: V, v: V)
    requires Sound(vs) && AllDifferent(vs, known) && u in known && vs.same(u, v)
    requires s.operator == "===" && vs.parse(s.version) == Some(v)
    ensures HiddenIn(vs, known, [s]) <==> u != v
  {
    assert s in [s];
    forall x | x in known && vs.same(x, v)
      ensures x == u
    {
      assert vs.same(v, u) && vs.same(x, u);
    }
  }

  lemma HasSame<V(!new)>(vs: Versions<V>, s: set<V>, u: V, v: V)
    requires Sound(vs) && vs.same(u, v)
    ensures Has(vs, s, u) <==> Has(vs, s, v)
  {
    assert vs.same(v, u);
  }

  /** Planning the version that is asked for hides nothing and shows nothing that was hidden. */
  lemma PlannedHidesNothing<V(!new)>(vs: Versions<V>, r: set<V>, p: set<V>, v: V, specs: seq<Spec>)
    requires AsksOnlyFor(vs, specs, v)
    ensures HiddenIn(vs, Updated(vs, r, AddTo(vs, p, v)), specs) <==> HiddenIn(vs, Updated(vs, r, p), specs)
  {
    forall u | u != v
      ensures u in Updated(vs, r, AddTo(vs, p, v)) <==> u in Updated(vs, r, p)
    {
    }
  }

  /** What is hidden when the versions asked for are known stays so, and nothing else becomes hidden. */
  lemma HiddenStaysIn<V(!new)>(vs: Versions<V>, before: set<V>, after: set<V>, specs: seq<Spec>)
    requires Sound(vs) && before <= after && AllDifferent(vs, after)
    requires forall s | s in specs && s.operator == "===" && vs.parse(s.version).Some? ::
               Has(vs, before, vs.parse(s.version).value)
    ensures HiddenIn(vs, before, specs) <==> HiddenIn(vs, after, specs)
  {
    if HiddenIn(vs, after, specs) {
      var s, u :| s in specs && s.operator == "===" && vs.parse(s.version).Some?
                  && u in after && vs.same(u, vs.parse(s.version).value) && u != vs.parse(s.version).value;
      var x :| x in before && vs.same(x, vs.parse(s.version).value);
      assert vs.same(vs.parse(s.version).value, u) && vs.same(x, u);
    }
  }

  /** The version sets the code looks at are stricter: a requirement that is not missing satisfies them exactly
      when it is neither misspelt nor hidden. */
  lemma SatisfiedIff<V(!new)>(b: Builder<V>, req: Requirement)
    requires PinsCompare(b.vs) && b.SetsFit() && b.Handled(req) && req.text !in b.missing
    ensures b.Satisfied(req) <==> !Misspelt(b.vs, req) && !Hidden(b, req)
  {
    var n := ToLower(req.name);
    UpdatedDifferent(b.vs, VersionsOf(b.reusableVersions, n), VersionsOf(b.plannedVersions, n));
    if b.Satisfied(req) {
      SatisfiedShows(b, req);
    } else {
      var v :| b.PlannedFor(req, v);
      UnsatisfiedHides(b, req, v);
    }
  }

  lemma SatisfiedShows<V(!new)>(b: Builder<V>, req: Requirement)
    requires PinsCompare(b.vs) && b.SetsFit() && b.Satisfied(req)
    requires AllDifferent(b.vs, b.Merged(ToLower(req.name)))
    ensures !Misspelt(b.vs, req) && !Hidden(b, req)
  {
    var v :| v in b.Merged(ToLower(req.name)) && Fits(b.vs, req, v);
    if Misspelt(b.vs, req) {
      MisspeltNeverFits(b.vs, req, v);
    }
    forall s | s in req.specs && s.operator == "==="
      ensures b.vs.parse(s.version) == Some(v)
    {
      ExactFits(b.vs, req, s, v);
    }
  }

  lemma UnsatisfiedHides<V(!new)>(b: Builder<V>, req: Requirement, v: V)
    requires PinsCompare(b.vs) && b.SetsFit() && !b.Satisfied(req) && b.PlannedFor(req, v)
    ensures Misspelt(b.vs, req) || Hidden(b, req)
  {
    var n := ToLower(req.name);
    if Pinned(req).Some? {
      PinnedFitsIff(b.vs, req, v);
    }
    if !Misspelt(b.vs, req) {
      var u :| u in b.Merged(n) && b.vs.same(u, v);
      assert b.vs.same(v, u) && Fits(b.vs, req, v) && !Fits(b.vs, req, u);
      assert HasExact(req.specs);
      var s :| s in req.specs && s.operator == "===";
      ExactFits(b.vs, req, s, v);
    }
  }

  // ----- Versions that the wheels fix -----

  /** How the first wheel of a name and kind spells a version that is the same as v. */
  function FirstSpelling<V(!new)>(vs: Versions<V>, wheels: seq<Wheel>, name: string, v: V, compatible: bool): Option<V> {
    if wheels == [] then None
    else
      var n := |wheels| - 1;
      var first := FirstSpelling(vs, wheels[..n], name, v, compatible);
      var u := vs.parse(wheels[n].version);
      if first.Some? then first
      else if wheels[n].compatible == compatible && ToLower(wheels[n].name) == name && u.Some? && vs.same(u.value, v) then u
      else None
  }

  /** How the version sets spell it: as the first compatible wheel does, or else the first incompatible one. */
  function FixedSpelling<V(!new)>(vs: Versions<V>, wheels: seq<Wheel>, name: string, v: V): Option<V> {
    var first := FirstSpelling(vs, wheels, name, v, true);
    if first.Some? then first else FirstSpelling(vs, wheels, name, v, false)
  }

  lemma {:induction false} SpellingIn<V(!new)>(vs: Versions<V>, wheels: seq<Wheel>, name: string, v: V, compatible: bool)
    requires Sound(vs)
    ensures DifferentIn(vs, VersionsIn(vs, wheels, compatible))
    ensures var s, first := VersionsOf(VersionsIn(vs, wheels, compatible), name), FirstSpelling(vs, wheels, name, v, compatible);
            && (first.None? <==> !Has(vs, s, v))
            && (first.Some? ==> first.value in s && vs.same(first.value, v))
  {
    if wheels != [] {
      var n := |wheels| - 1;
      SpellingIn(vs, wheels[..n], name, v, compatible);
      var u := vs.parse(wheels[n].version);
      if wheels[n].compatible == compatible && u.Some? {
        SpellingStep(vs, VersionsIn(vs, wheels[..n], compatible), ToLower(wheels[n].name), u.value, name, v);
      }
    }
  }

  lemma SpellingStep<V(!new)>(vs: Versions<V>, m: map<string, set<V>>, at: string, u: V, name: string, v: V)
    requires Sound(vs) && DifferentIn(vs, m)
    ensures var m' := WithVersion(vs, m, at, u);
            && DifferentIn(vs, m') && VersionsOf(m, name) <= VersionsOf(m', name)
            && (Has(vs, VersionsOf(m', name), v) <==> Has(vs, VersionsOf(m, name), v) || (at == name && vs.same(u, v)))
            && (!Has(vs, VersionsOf(m, name), v) && at == name && vs.same(u, v) ==> u in VersionsOf(m', name))
  {
    WithVersionFits(vs, m, at, u);
    var m' := WithVersion(vs, m, at, u);
    if Has(vs, VersionsOf(m, name), v) {
      HasGrows(vs, VersionsOf(m, name), VersionsOf(m', name), v);
    }
    if at == name && vs.same(u, v) {
      var x :| x in VersionsOf(m', name) && vs.same(x, u);
      assert vs.same(x, v);
      if x != u {
        assert x in VersionsOf(m, name);
      }
    }
  }

  /** For a version that some wheel has, the input alone decides: a "===" pin satisfies the version sets of a
      finished plan exactly when it is not misspelt and the sets spell the version as the pin's text parses. */
  lemma WheelsDecide<V(!new)>(b: Builder<V>, wheels: seq<Wheel>, req: Requirement)
    requires PinsCompare(b.vs) && b.SetsFit() && b.Handled(req) && req.text !in b.missing
    requires b.reusableVersions == VersionsIn(b.vs, wheels, true)
    requires GrownMap(VersionsIn(b.vs, wheels, false), b.plannedVersions)
    requires Pinned(req).Some? && req.specs[0].operator == "===" && b.vs.parse(Pinned(req).value).Some?
    requires FixedSpelling(b.vs, wheels, ToLower(req.name), b.vs.parse(Pinned(req).value).value).Some?
    ensures var v := b.vs.parse(Pinned(req).value).value;
            b.Satisfied(req) <==> !Misspelt(b.vs, req) && FixedSpelling(b.vs, wheels, ToLower(req.name), v) == Some(v)
  {
    var n, v := ToLower(req.name), b.vs.parse(Pinned(req).value).value;
    FixedIsMerged(b, wheels, n, v);
    var u := FixedSpelling(b.vs, wheels, n, v).value;
    UpdatedDifferent(b.vs, VersionsOf(b.reusableVersions, n), VersionsOf(b.plannedVersions, n));
    assert req.specs == [req.specs[0]];
    OneHidden(b.vs, b.Merged(n), req.specs[0], u, v);
    SatisfiedIff(b, req);
  }

  lemma FixedIsMerged<V(!new)>(b: Builder<V>, wheels: seq<Wheel>, n: string, v: V)
    requires b.SetsFit() && b.reusableVersions == VersionsIn(b.vs, wheels, true)
    requires GrownMap(VersionsIn(b.vs, wheels, false), b.plannedVersions)
    requires FixedSpelling(b.vs, wheels, n, v).Some?
    ensures var u := FixedSpelling(b.vs, wheels, n, v).value; u in b.Merged(n) && b.vs.same(u, v)
  {
    SpellingIn(b.vs, wheels, n, v, true);
    SpellingIn(b.vs, wheels, n, v, false);
    var u := FixedSpelling(b.vs, wheels, n, v).value;
    HasSame(b.vs, VersionsOf(b.reusableVersions, n), u, v);
    if FirstSpelling(b.vs, wheels, n, v, true).None? {
      assert u in VersionsOf(b.plannedVersions, n);
    }
  }

  const MISSPELT := Requirement("b", [Spec("===", "v1.0")], "b===v1.0")

  /** Such plans exist: a wheel that requires "===v1.0" of a package whose version prints as "1.0". */
  method MisspeltPinUnmet<V(==,!new)>(vs: Versions<V>, cfg: Config<V>) returns (ok: bool, b: Builder<V>)
    requires Sound(vs) && IndexFits(vs, cfg) && PinsCompare(vs) && vs.parse("1").Some?
    requires vs.parse("v1.0").Some? && vs.show(vs.parse("v1.0").value) == "1.0"
    ensures ok && fresh(b) && b.vs == vs && !Met(b, MISSPELT) && MISSPELT.text !in b.missing
  {
    var wheels := [Wheel("a", "1", true, [MISSPELT])];
    assert wheels[..0] == [];
    assert Requirements(wheels) == [MISSPELT];
    ok, b := BuildPlan(vs, cfg, wheels);
    MisspeltOutcome(b);
  }

  lemma MisspeltOutcome<V(!new)>(b: Builder<V>)
    requires PinsCompare(b.vs) && b.SetsFit() && b.Handled(MISSPELT) && MissingUnpinned(b.missing, [MISSPELT])
    requires b.vs.parse("v1.0").Some? && b.vs.show(b.vs.parse("v1.0").value) == "1.0"
    ensures !Met(b, MISSPELT) && MISSPELT.text !in b.missing
  {
    assert |ToLower("1.0")| == 3 && |ToLower("v1.0")| == 4;
    MetIff(b, [MISSPELT], MISSPELT);
  }

  const OTHERWISE_SPELT := Requirement("b", [Spec("===", "1.0.0")], "b===1.0.0")

  lemma HiddenByFirst<V(!new)>(b: Builder<V>, wheels: seq<Wheel>)
    requires Sound(b.vs) && b.vs.parse("1").Some? && b.vs.parse("1.0").Some? && b.vs.parse("1.0.0").Some?
    requires b.vs.show(b.vs.parse("1.0").value) == "1.0" && b.vs.show(b.vs.parse("1.0.0").value) == "1.0.0"
    requires b.vs.same(b.vs.parse("1.0").value, b.vs.parse("1.0.0").value)
    requires wheels == [Wheel("b", "1.0", false, []), Wheel("a", "1", true, [OTHERWISE_SPELT])]
    requires b.reusableVersions == VersionsIn(b.vs, wheels, true)
    requires GrownMap(VersionsIn(b.vs, wheels, false), b.plannedVersions)
    ensures Hidden(b, OTHERWISE_SPELT)
  {
    var u, v := b.vs.parse("1.0").value, b.vs.parse("1.0.0").value;
    var first := wheels[..1];
    assert first == [wheels[0]] && first[..0] == [];
    assert ToLower("b") == "b" && ToLower("a") == "a";
    assert VersionsIn(b.vs, first, false) == WithVersion(b.vs, map[], "b", u);
    assert VersionsIn(b.vs, wheels, false) == VersionsIn(b.vs, first, false);
    assert u in VersionsOf(VersionsIn(b.vs, wheels, false), "b");
    assert u in VersionsOf(b.plannedVersions, "b");
    assert VersionsIn(b.vs, first, true) == map[];
    assert VersionsOf(b.reusableVersions, "b") == {};
    assert u in b.Merged("b") && u != v;
    assert Spec("===", "1.0.0") in OTHERWISE_SPELT.specs;
  }

  /** And so do plans with a hidden version: b 1.0 is planned for an incompatible wheel, then "===1.0.0" is
      required; a job for 1.0.0 is added, but the version sets keep 1.0. */
  method HiddenPinUnsatisfied<V(==,!new)>(vs: Versions<V>, cfg: Config<V>) returns (ok: bool, b: Builder<V>)
    requires Sound(vs) && IndexFits(vs, cfg) && PinsCompare(vs) && vs.parse("1").Some? && vs.parse("1.0").Some? && vs.parse("1.0.0").Some?
    requires vs.show(vs.parse("1.0").value) == "1.0" && vs.show(vs.parse("1.0.0").value) == "1.0.0"
    requires vs.same(vs.parse("1.0").value, vs.parse("1.0.0").value)
    ensures ok && fresh(b) && b.vs == vs
    ensures !b.Satisfied(OTHERWISE_SPELT) && OTHERWISE_SPELT.text !in b.missing && Met(b, OTHERWISE_SPELT)
  {
    var wheels := [Wheel("b", "1.0", false, []), Wheel("a", "1", true, [OTHERWISE_SPELT])];
    RequirementsOfTwo(wheels);
    ok, b := BuildPlan(vs, cfg, wheels);
    HiddenByFirst(b, wheels);
    HiddenOutcome(b);
  }

  lemma RequirementsOfTwo(wheels: seq<Wheel>)
    requires |wheels| == 2 && wheels[0].required == []
    ensures Requirements(wheels) == wheels[1].required
  {
    assert wheels[..1] == [wheels[0]] && wheels[..1][..0] == [];
    assert Requirements(wheels[..1]) == [];
  }

  lemma HiddenOutcome<V(!new)>(b: Builder<V>)
    requires PinsCompare(b.vs) && b.SetsFit() && b.Handled(OTHERWISE_SPELT) && Hidden(b, OTHERWISE_SPELT)
    requires MissingUnpinned(b.missing, [OTHERWISE_SPELT])
    requires b.vs.parse("1.0.0").Some? && b.vs.show(b.vs.parse("1.0.0").value) == "1.0.0"
    ensures !b.Satisfied(OTHERWISE_SPELT) && OTHERWISE_SPELT.text !in b.missing && Met(b, OTHERWISE_SPELT)
  {
    MetIff(b, [OTHERWISE_SPELT], OTHERWISE_SPELT);
    SatisfiedIff(b, OTHERWISE_SPELT);
  }
}
