/** Every plan entry and DAG node, told from the inputs: who asked for it first, and its fields. */
module PlanEntries {
  import opened Text
  import opened Artifact
  import opened Keys
  import opened Catalog
  import opened PlanSpec
  import opened PlanProps
  import opened PlanResults
  import opened PlanRequests
  import opened PlanValues

  // ----- Who asks for what -----

  ghost predicate ReqAsks(o: Options, spec: DepSpec, r: Request) {
    && Normalizes(spec.name, r.name) && r.name != "" && RequiredAs(o, spec, r.name, r.version)
    && NamedSource(o, r) && !r.compatible
  }

  /** The tags of an uploaded wheel suit the target. */
  ghost predicate Fits(o: Options, w: WheelInput) {
    && (w.pyTag == PyTag(o) || "py3" <= w.pyTag || "cp3" <= w.pyTag)
    && w.platformTag in {"any", o.platformTag}
    && (w.abiTag == "none" || "cp3" <= w.abiTag)
  }

  ghost predicate Overrides(o: Options, name: string, v: string) {
    exists text :: Has(o.overrides, name, text) && Pins(text, v)
  }

  /** A wheel with an override asks for that version, to be built; any other asks for itself. */
  ghost predicate WheelAsks(o: Options, w: WheelInput, r: Request) {
    && w.name != "" && w.version != "" && r.name == w.name
    && if HasNone(o.overrides, w.name) then
         && r.version == w.version && (r.compatible <==> Fits(o, w))
         && (if w.digest == "" then NamedSource(o, r) else r.source == w.digest)
       else Overrides(o, w.name, r.version) && NamedSource(o, r) && !r.compatible
  }

  ghost predicate CollectedAsks(o: Options, reqs: seq<DepSpec>, all: seq<DepSpec>, r: Request) {
    && r.name != "" && (Required(reqs, r.name) || Mentions(all, r.name))
    && (exists v :: Settled(o, reqs, all, r.name, v) && CollectedAs(o, r.name, v, r.version))
    && NamedSource(o, r) && !r.compatible
  }

  lemma ReqAsksIff(o: Options, spec: DepSpec, r: Request)
    ensures ReqAsks(o, spec, r) <==> NormalizeName(spec.name) != "" && r == ReqRequest(o, spec)
  {
    NormalizeNameIff(spec.name, r.name);
    RequiredIff(o, spec, r.version);
    SourceIs(o, r);
  }

  lemma OverriddenIff(o: Options, name: string, v: string)
    ensures HasNone(o.overrides, name) <==> Overridden(o, name).None?
    ensures Overrides(o, name, v) <==> Overridden(o, name) == Some(v)
  {
    var n := NormalizeName(name);
    HasNoneIff(o.overrides, name);
    if n in o.overrides {
      HasIff(o.overrides, name, o.overrides[n]);
      PinsIff(o.overrides[n], v);
    }
    forall text | Has(o.overrides, name, text)
      ensures n in o.overrides && o.overrides[n] == text
    {
      HasIff(o.overrides, name, text);
    }
  }

  lemma WheelAsksIff(o: Options, w: WheelInput, r: Request)
    ensures WheelAsks(o, w, r) <==> Usable(w) && r == WheelRequest(o, w)
  {
    OverriddenIff(o, w.name, r.version);
    SourceIs(o, r);
    assert Fits(o, w) <==> IsCompatible(o, w);
  }

  lemma FirstWantedUnique(o: Options, all: seq<DepSpec>, name: string, v: string, u: string)
    requires FirstWanted(o, all, name, v) && FirstWanted(o, all, name, u)
    ensures v == u
  {
    forall k | 0 <= k < |all|
      ensures WantedAs(o, all[k], v) && WantedAs(o, all[k], u) ==> v == u
      ensures WantedAs(o, all[k], v) && WantedAs(o, all[k], "") ==> v == ""
      ensures WantedAs(o, all[k], u) && WantedAs(o, all[k], "") ==> u == ""
    {
      WantedIff(o, all[k], v);
      WantedIff(o, all[k], u);
      WantedIff(o, all[k], "");
    }
  }

  lemma SettledUnique(o: Options, reqs: seq<DepSpec>, all: seq<DepSpec>, name: string, v: string, u: string)
    requires Settled(o, reqs, all, name, v) && Settled(o, reqs, all, name, u)
    ensures v == u
  {
    if Firm(o, reqs, name) {
      var i: nat :| LastRequired(reqs, name, i) && RequiredAs(o, reqs[i], name, v);
      var j: nat :| LastRequired(reqs, name, j) && RequiredAs(o, reqs[j], name, u);
      OneLast(reqs, name, i, j);
      RequiredIff(o, reqs[i], v);
      RequiredIff(o, reqs[i], u);
    } else {
      FirstWantedUnique(o, all, name, v, u);
    }
  }

  lemma CollectedAsksIff(o: Options, reqs: seq<DepSpec>, all: seq<DepSpec>, deps: map<string, string>, r: Request)
    requires Collects(o, reqs, all, deps)
    ensures CollectedAsks(o, reqs, all, r) <==> r.name != "" && r.name in deps && r == CollectedRequest(o, r.name, deps[r.name])
  {
    SourceIs(o, r);
    if r.name != "" && r.name in deps {
      CollectedIff(o, r.name, deps[r.name], r.version);
      forall v | Settled(o, reqs, all, r.name, v)
        ensures v == deps[r.name]
      {
        SettledUnique(o, reqs, all, r.name, v, deps[r.name]);
      }
    }
  }

  // ----- Who asks first -----

  ghost predicate ReqAsksKey(o: Options, spec: DepSpec, key: string) {
    exists q :: ReqAsks(o, spec, q) && RequestKey(q) == key
  }

  ghost predicate WheelAsksKey(o: Options, w: WheelInput, key: string) {
    exists q :: WheelAsks(o, w, q) && RequestKey(q) == key
  }

  ghost predicate NoReq(o: Options, reqs: seq<DepSpec>, n: nat, key: string)
    requires n <= |reqs|
  {
    forall j | 0 <= j < n :: !ReqAsksKey(o, reqs[j], key)
  }

  ghost predicate NoWheel(o: Options, wheels: seq<WheelInput>, n: nat, key: string)
    requires n <= |wheels|
  {
    forall j | 0 <= j < n :: !WheelAsksKey(o, wheels[j], key)
  }

  /** Requirement k asks for r and none before it asks for that key. */
  ghost predicate FirstReq(o: Options, reqs: seq<DepSpec>, k: nat, r: Request) {
    k < |reqs| && ReqAsks(o, reqs[k], r) && NoReq(o, reqs, k, RequestKey(r))
  }

  ghost predicate FirstWheel(o: Options, wheels: seq<WheelInput>, k: nat, r: Request) {
    k < |wheels| && WheelAsks(o, wheels[k], r) && NoWheel(o, wheels, k, RequestKey(r))
  }

  /** Of those that ask for one key the first requirement counts, else the first wheel, else a collected name. */
  ghost predicate FirstAsked(o: Options, reqs: seq<DepSpec>, wheels: seq<WheelInput>, r: Request) {
    var key := RequestKey(r);
    if !NoReq(o, reqs, |reqs|, key) then exists k: nat :: FirstReq(o, reqs, k, r)
    else if !NoWheel(o, wheels, |wheels|, key) then exists k: nat :: FirstWheel(o, wheels, k, r)
    else CollectedAsks(o, reqs, Dependencies(wheels), r)
  }

  /** Some requirement, wheel or collected name asks for r. */
  ghost predicate Asks(o: Options, reqs: seq<DepSpec>, wheels: seq<WheelInput>, r: Request) {
    || (exists k :: 0 <= k < |reqs| && ReqAsks(o, reqs[k], r))
    || (exists k :: 0 <= k < |wheels| && WheelAsks(o, wheels[k], r))
    || CollectedAsks(o, reqs, Dependencies(wheels), r)
  }

  lemma ReqKeyIff(o: Options, spec: DepSpec, key: string)
    ensures ReqAsksKey(o, spec, key) <==> NormalizeName(spec.name) != "" && RequestKey(ReqRequest(o, spec)) == key
  {
    ReqAsksIff(o, spec, ReqRequest(o, spec));
    if q :| ReqAsks(o, spec, q) && RequestKey(q) == key {
      ReqAsksIff(o, spec, q);
    }
  }

  lemma WheelKeyIff(o: Options, w: WheelInput, key: string)
    ensures WheelAsksKey(o, w, key) <==> Usable(w) && RequestKey(WheelRequest(o, w)) == key
  {
    WheelAsksIff(o, w, WheelRequest(o, w));
    if q :| WheelAsks(o, w, q) && RequestKey(q) == key {
      WheelAsksIff(o, w, q);
    }
  }

  /** The values that are there, in order. */
  function Somes(xs: seq<Option<Request>>): seq<Request> {
    if xs == [] then []
    else
      var n := |xs| - 1;
      Somes(xs[..n]) + (if xs[n].Some? then [xs[n].value] else [])
  }

  predicate KeyAt(xs: seq<Option<Request>>, k: nat, key: string) {
    k < |xs| && xs[k].Some? && RequestKey(xs[k].value) == key
  }

  ghost predicate FirstSome(xs: seq<Option<Request>>, k: nat, r: Request) {
    k < |xs| && xs[k] == Some(r) && forall j: nat | j < k :: !KeyAt(xs, j, RequestKey(r))
  }

  lemma {:induction false} SomesFirst(xs: seq<Option<Request>>, r: Request)
    ensures r in FirstOfKey(Somes(xs)) <==> exists k: nat :: FirstSome(xs, k, r)
    ensures Asked(Somes(xs), RequestKey(r)) <==> exists k: nat :: KeyAt(xs, k, RequestKey(r))
  {
    if xs != [] {
      var n := |xs| - 1;
      var init, key := xs[..n], RequestKey(r);
      SomesFirst(init, r);
      forall k: nat
        ensures KeyAt(xs, k, key) <==> KeyAt(init, k, key) || (k == n && KeyAt(xs, n, key))
      {
      }
      SomesLast(xs, r);
      assert FirstSome(xs, n, r) <==> xs[n] == Some(r) && !Asked(Somes(init), key) by {
        assert (exists k: nat :: k < n && KeyAt(xs, k, key)) <==> exists k: nat :: KeyAt(init, k, key);
      }
      forall k: nat
        ensures FirstSome(xs, k, r) <==> FirstSome(init, k, r) || (k == n && FirstSome(xs, n, r))
      {
      }
    }
  }

  lemma SomesLast(xs: seq<Option<Request>>, r: Request)
    requires xs != []
    ensures var n, key, init := |xs| - 1, RequestKey(r), Somes(xs[..|xs| - 1]);
            && (r in FirstOfKey(Somes(xs)) <==> r in FirstOfKey(init) || (xs[n] == Some(r) && !Asked(init, key)))
            && (Asked(Somes(xs), key) <==> Asked(init, key) || KeyAt(xs, n, key))
  {
    var n, init := |xs| - 1, Somes(xs[..|xs| - 1]);
    NothingAdded(init);
    if xs[n].Some? {
      FirstOfKeyAppend(init, xs[n].value);
      AskedAppend(init, xs[n].value, RequestKey(r));
    }
  }

  function ReqAsked(o: Options, reqs: seq<DepSpec>): seq<Option<Request>> {
    seq(|reqs|, i requires 0 <= i < |reqs| => if NormalizeName(reqs[i].name) == "" then None else Some(ReqRequest(o, reqs[i])))
  }

  function WheelAsked(o: Options, wheels: seq<WheelInput>): seq<Option<Request>> {
    seq(|wheels|, i requires 0 <= i < |wheels| => if Usable(wheels[i]) then Some(WheelRequest(o, wheels[i])) else None)
  }

  lemma {:induction false} ReqSomes(o: Options, reqs: seq<DepSpec>)
    ensures ReqRequests(o, reqs) == Somes(ReqAsked(o, reqs))
  {
    if reqs != [] {
      var n := |reqs| - 1;
      ReqSomes(o, reqs[..n]);
      assert ReqAsked(o, reqs)[..n] == ReqAsked(o, reqs[..n]);
    }
  }

  lemma {:induction false} WheelSomes(o: Options, wheels: seq<WheelInput>)
    ensures WheelRequests(o, wheels) == Somes(WheelAsked(o, wheels))
  {
    if wheels != [] {
      var n := |wheels| - 1;
      WheelSomes(o, wheels[..n]);
      assert WheelAsked(o, wheels)[..n] == WheelAsked(o, wheels[..n]);
    }
  }

  lemma ReqKeys(o: Options, reqs: seq<DepSpec>, n: nat, key: string)
    requires n <= |reqs|
    ensures NoReq(o, reqs, n, key) <==> forall j: nat | j < n :: !KeyAt(ReqAsked(o, reqs), j, key)
  {
    forall j: nat | j < n
      ensures KeyAt(ReqAsked(o, reqs), j, key) <==> ReqAsksKey(o, reqs[j], key)
    {
      ReqKeyIff(o, reqs[j], key);
    }
  }

  lemma FirstReqIff(o: Options, reqs: seq<DepSpec>, k: nat, r: Request)
    ensures FirstSome(ReqAsked(o, reqs), k, r) <==> FirstReq(o, reqs, k, r)
  {
    if k < |reqs| {
      ReqAsksIff(o, reqs[k], r);
      ReqKeys(o, reqs, k, RequestKey(r));
    }
  }

  lemma ReqsFirst(o: Options, reqs: seq<DepSpec>, r: Request)
    ensures r in FirstOfKey(ReqRequests(o, reqs)) <==> exists k: nat :: FirstReq(o, reqs, k, r)
    ensures Asked(ReqRequests(o, reqs), RequestKey(r)) <==> !NoReq(o, reqs, |reqs|, RequestKey(r))
  {
    ReqSomes(o, reqs);
    SomesFirst(ReqAsked(o, reqs), r);
    ReqKeys(o, reqs, |reqs|, RequestKey(r));
    forall k: nat
      ensures FirstSome(ReqAsked(o, reqs), k, r) <==> FirstReq(o, reqs, k, r)
    {
      FirstReqIff(o, reqs, k, r);
    }
  }

  lemma WheelKeys(o: Options, wheels: seq<WheelInput>, n: nat, key: string)
    requires n <= |wheels|
    ensures NoWheel(o, wheels, n, key) <==> forall j: nat | j < n :: !KeyAt(WheelAsked(o, wheels), j, key)
  {
    forall j: nat | j < n
      ensures KeyAt(WheelAsked(o, wheels), j, key) <==> WheelAsksKey(o, wheels[j], key)
    {
      WheelKeyIff(o, wheels[j], key);
    }
  }

  lemma FirstWheelIff(o: Options, wheels: seq<WheelInput>, k: nat, r: Request)
    ensures FirstSome(WheelAsked(o, wheels), k, r) <==> FirstWheel(o, wheels, k, r)
  {
    if k < |wheels| {
      WheelAsksIff(o, wheels[k], r);
      WheelKeys(o, wheels, k, RequestKey(r));
    }
  }

  lemma WheelsFirst(o: Options, wheels: seq<WheelInput>, r: Request)
    ensures r in FirstOfKey(WheelRequests(o, wheels)) <==> exists k: nat :: FirstWheel(o, wheels, k, r)
    ensures Asked(WheelRequests(o, wheels), RequestKey(r)) <==> !NoWheel(o, wheels, |wheels|, RequestKey(r))
  {
    WheelSomes(o, wheels);
    SomesFirst(WheelAsked(o, wheels), r);
    WheelKeys(o, wheels, |wheels|, RequestKey(r));
    forall k: nat
      ensures FirstSome(WheelAsked(o, wheels), k, r) <==> FirstWheel(o, wheels, k, r)
    {
      FirstWheelIff(o, wheels, k, r);
    }
  }

  lemma {:induction false} FirstOfConcat(a: seq<Request>, b: seq<Request>, r: Request)
    ensures r in FirstOfKey(a + b) <==> r in FirstOfKey(a) || (r in FirstOfKey(b) && !Asked(a, RequestKey(r)))
    ensures Asked(a + b, RequestKey(r)) <==> Asked(a, RequestKey(r)) || Asked(b, RequestKey(r))
  {
    if b == [] {
      NothingAdded(a);
    } else {
      var init, last := b[..|b| - 1], b[|b| - 1];
      assert b == init + [last] && a + b == a + init + [last];
      FirstOfConcat(a, init, r);
      FirstOfConcat(a, init, last);
      FirstOfKeyAppend(a + init, last);
      FirstOfKeyAppend(init, last);
      AskedAppend(a + init, last, RequestKey(r));
      AskedAppend(init, last, RequestKey(r));
    }
  }

  lemma {:induction false} CollectedMember(o: Options, deps: map<string, string>, order: seq<string>, r: Request)
    ensures r in CollectedRequests(o, deps, order) <==>
            r.name != "" && r.name in order && r.name in deps && r == CollectedRequest(o, r.name, deps[r.name])
  {
    if order != [] {
      var n := |order| - 1;
      CollectedMember(o, deps, order[..n], r);
      assert order == order[..n] + [order[n]];
    }
  }

  // ----- What the entries and nodes look like -----

  /** The fields of an entry, its wheel node and its repair node, made for request r. */
  ghost predicate Shows(o: Options, r: Request, node: FlatNode, wheel: DAGNode, repair: DAGNode) {
    && node == FlatNode(r.name, r.version, o.pythonVersion, PyTag(o), o.platformTag, node.action)
    && (if r.compatible then node.action == "reuse" else node.action == "build")
    && wheel == DAGNode(wheel.id, Wheel, [RuntimeID(o)] + IDs(o, SelectPacks(o, r.name)), r.name, r.version,
                        PyTag(o), o.platformTag, wheel.action)
    && WheelNamed(o, r.source, wheel)
    && (if r.compatible || wheel.id in o.store then wheel.action == "reuse" else wheel.action == "build")
    && repair == DAGNode(ID(Repair, o.hash.repair(RepairKey(wheel.id.digest, "", ""))), Repair, [wheel.id],
                         r.name, r.version, "", "", repair.action)
    && BuiltUnlessStored(o, repair)
  }

  ghost predicate BuiltUnlessStored(o: Options, n: DAGNode) {
    if n.id in o.store then n.action == "reuse" else n.action == "build"
  }

  /** The identifier of a wheel comes from its source, its tags, its runtime and the digests of its packs. */
  ghost predicate WheelNamed(o: Options, source: string, wheel: DAGNode) {
    exists ds :: |ds| + 1 == |wheel.inputs|
      && (forall k | 0 <= k < |ds| :: ds[k] == wheel.inputs[k + 1].digest)
      && wheel.id == ID(Wheel, WheelDigest(o.hash, WheelKey(source, PyTag(o), o.platformTag, RuntimeID(o).digest, ds,
                                                             "", "", "", "")))
  }

  lemma MadeShows(o: Options, r: Request)
    ensures Shows(o, r, EntryOf(o, r), WheelOf(o, r), RepairNode(o, WheelOf(o, r)))
  {
    var wheel, ds := WheelOf(o, r), DigestsOf(IDs(o, SelectPacks(o, r.name)));
    assert |ds| + 1 == |wheel.inputs| && forall k | 0 <= k < |ds| :: ds[k] == wheel.inputs[k + 1].digest;
  }

  lemma CollectedIs(o: Options, reqs: seq<DepSpec>, wheels: seq<WheelInput>, order: seq<string>, r: Request)
    requires NamedCatalog(o) && Walk(order, Read(o, reqs, wheels).deps.Keys) && !Read(o, reqs, wheels).truncated
    ensures r in CollectedRequests(o, Read(o, reqs, wheels).deps, order) <==>
            CollectedAsks(o, reqs, Dependencies(wheels), r)
  {
    var deps := Read(o, reqs, wheels).deps;
    ReadCollects(o, reqs, wheels);
    CollectedMember(o, deps, order, r);
    CollectedAsksIff(o, reqs, Dependencies(wheels), deps, r);
  }

  lemma RequestsFirst(o: Options, reqs: seq<DepSpec>, wheels: seq<WheelInput>, order: seq<string>, r: Request)
    requires NamedCatalog(o) && Walk(order, Read(o, reqs, wheels).deps.Keys) && !Read(o, reqs, wheels).truncated
    requires r in FirstOfKey(Requests(o, reqs, wheels, order))
    ensures FirstAsked(o, reqs, wheels, r)
  {
    var a, b := ReqRequests(o, reqs), WheelRequests(o, wheels);
    var c := CollectedRequests(o, Read(o, reqs, wheels).deps, order);
    FirstOfConcat(a + b, c, r);
    FirstOfConcat(a, b, r);
    ReqsFirst(o, reqs, r);
    WheelsFirst(o, wheels, r);
    CollectedIs(o, reqs, wheels, order, r);
    FirstIsMember(c, r);
    FirstIsMember(a, r);
    FirstIsMember(b, r);
  }

  lemma AskedAnywhere(o: Options, reqs: seq<DepSpec>, wheels: seq<WheelInput>, order: seq<string>, r: Request)
    requires NamedCatalog(o) && Walk(order, Read(o, reqs, wheels).deps.Keys) && !Read(o, reqs, wheels).truncated
    requires Asks(o, reqs, wheels, r)
    ensures Asked(Requests(o, reqs, wheels, order), RequestKey(r))
  {
    var a, b := ReqRequests(o, reqs), WheelRequests(o, wheels);
    var c := CollectedRequests(o, Read(o, reqs, wheels).deps, order);
    FirstOfConcat(a + b, c, r);
    FirstOfConcat(a, b, r);
    ReqsFirst(o, reqs, r);
    WheelsFirst(o, wheels, r);
    CollectedIs(o, reqs, wheels, order, r);
    if !CollectedAsks(o, reqs, Dependencies(wheels), r) {
      AskedKey(o, reqs, wheels, r);
    }
  }

  lemma AskedKey(o: Options, reqs: seq<DepSpec>, wheels: seq<WheelInput>, r: Request)
    requires Asks(o, reqs, wheels, r) && !CollectedAsks(o, reqs, Dependencies(wheels), r)
    ensures !NoReq(o, reqs, |reqs|, RequestKey(r)) || !NoWheel(o, wheels, |wheels|, RequestKey(r))
  {
    if k :| 0 <= k < |reqs| && ReqAsks(o, reqs[k], r) {
      assert ReqAsksKey(o, reqs[k], RequestKey(r));
    } else {
      var k :| 0 <= k < |wheels| && WheelAsks(o, wheels[k], r);
      assert WheelAsksKey(o, wheels[k], RequestKey(r));
    }
  }

  lemma {:induction false} FirstIsMember(rs: seq<Request>, r: Request)
    ensures r in FirstOfKey(rs) ==> r in rs && Asked(rs, RequestKey(r))
  {
    FirstOfKeyMember(rs, r);
    if r in rs {
      var i :| 0 <= i < |rs| && rs[i] == r;
    }
  }

  lemma {:induction false} AskedIsPlanned(rs: seq<Request>, key: string) returns (i: nat)
    requires Asked(rs, key)
    ensures i < |FirstOfKey(rs)| && RequestKey(FirstOfKey(rs)[i]) == key
  {
    var r :| r in rs && RequestKey(r) == key;
    var k :| 0 <= k < |rs| && rs[k] == r;
    var j := FirstExists(rs, k);
    FirstOfKeyMember(rs, rs[j]);
    i :| 0 <= i < |FirstOfKey(rs)| && FirstOfKey(rs)[i] == rs[j];
  }

  /** Each entry of a plan is made for whoever asked first for its key, and its fields, its wheel and its repair
      are as that says. */
  lemma EntriesAreFirstAsked(o: Options, reqs: seq<DepSpec>, wheels: seq<WheelInput>, order: seq<string>, i: nat)
    requires NamedCatalog(o) && Walk(order, Read(o, reqs, wheels).deps.Keys)
    requires Plan(o, reqs, wheels, order).Planned? && i < |Plan(o, reqs, wheels, order).nodes|
    ensures var p := Plan(o, reqs, wheels, order);
            var ws, rs := OfKind(p.dag, Wheel), OfKind(p.dag, Repair);
            && i < |ws| && i < |rs|
            && exists r :: FirstAsked(o, reqs, wheels, r) && Shows(o, r, p.nodes[i], ws[i], rs[i])
  {
    var rs := Requests(o, reqs, wheels, order);
    PlanIsFirstRequests(o, reqs, wheels, order);
    OutcomeOfRead(o, reqs, wheels, order);
    var r := FirstOfKey(rs)[i];
    assert r in FirstOfKey(rs);
    RequestsFirst(o, reqs, wheels, order, r);
    MadeShows(o, r);
  }

  /** Whatever is asked for has an entry under its name and version. */
  lemma AskedHasEntry(o: Options, reqs: seq<DepSpec>, wheels: seq<WheelInput>, order: seq<string>, r: Request)
    requires NamedCatalog(o) && Walk(order, Read(o, reqs, wheels).deps.Keys)
    requires Plan(o, reqs, wheels, order).Planned? && Asks(o, reqs, wheels, r)
    ensures var nodes := Plan(o, reqs, wheels, order).nodes;
            exists i :: 0 <= i < |nodes| && nodes[i].name + "::" + nodes[i].version == r.name + "::" + r.version
  {
    var rs, key := Requests(o, reqs, wheels, order), RequestKey(r);
    PlanIsFirstRequests(o, reqs, wheels, order);
    OutcomeOfRead(o, reqs, wheels, order);
    AskedAnywhere(o, reqs, wheels, order, r);
    var i := AskedIsPlanned(rs, key);
    assert EntryOf(o, FirstOfKey(rs)[i]) == Plan(o, reqs, wheels, order).nodes[i];
  }

  // ----- Reuse -----

  /** An entry is reused exactly when the first that asks for its key is a wheel, not a requirement, and that
      wheel has no override and its tags suit the target. */
  lemma EntryReusedIff(o: Options, reqs: seq<DepSpec>, wheels: seq<WheelInput>, order: seq<string>, i: nat)
    requires NamedCatalog(o) && Walk(order, Read(o, reqs, wheels).deps.Keys)
    requires Plan(o, reqs, wheels, order).Planned? && i < |Plan(o, reqs, wheels, order).nodes|
    ensures var node := Plan(o, reqs, wheels, order).nodes[i];
            var key := node.name + "::" + node.version;
            node.action == "reuse" <==>
            && NoReq(o, reqs, |reqs|, key)
            && exists k: nat :: k < |wheels| && WheelAsksKey(o, wheels[k], key) && NoWheel(o, wheels, k, key)
                                && HasNone(o.overrides, wheels[k].name) && Fits(o, wheels[k])
  {
    EntriesAreFirstAsked(o, reqs, wheels, order, i);
    var p := Plan(o, reqs, wheels, order);
    var r :| FirstAsked(o, reqs, wheels, r) && Shows(o, r, p.nodes[i], OfKind(p.dag, Wheel)[i], OfKind(p.dag, Repair)[i]);
    FirstAskedReused(o, reqs, wheels, r);
  }

  lemma FirstAskedReused(o: Options, reqs: seq<DepSpec>, wheels: seq<WheelInput>, r: Request)
    requires FirstAsked(o, reqs, wheels, r)
    ensures var key := RequestKey(r);
            r.compatible <==>
            && NoReq(o, reqs, |reqs|, key)
            && exists k: nat :: k < |wheels| && WheelAsksKey(o, wheels[k], key) && NoWheel(o, wheels, k, key)
                                && HasNone(o.overrides, wheels[k].name) && Fits(o, wheels[k])
  {
    var key := RequestKey(r);
    if NoReq(o, reqs, |reqs|, key) && !NoWheel(o, wheels, |wheels|, key) {
      var k: nat :| FirstWheel(o, wheels, k, r);
      assert WheelAsksKey(o, wheels[k], key);
      forall j: nat | j < |wheels| && WheelAsksKey(o, wheels[j], key) && NoWheel(o, wheels, j, key)
        ensures j == k
      {
      }
    }
  }

  // ----- Constraints and pins -----

  /** The resolver has another version of name than v. */
  ghost predicate OffersOther(o: Options, name: string, v: string) {
    exists u :: u != v && Offers(o, name, u)
  }

  /** A constraint decides the version of a collected name exactly if no eager resolver has another one. */
  lemma ConstraintHonoredIff(o: Options, reqs: seq<DepSpec>, all: seq<DepSpec>, r: Request, c: string)
    requires CollectedAsks(o, reqs, all, r) && Has(o.constraints, r.name, c)
    ensures r.version == c <==> !(o.eager && OffersOther(o, r.name, c))
  {
    var v :| Settled(o, reqs, all, r.name, v) && CollectedAs(o, r.name, v, r.version);
    OneText(o.constraints, r.name);
  }

  /** The version that requirements and dependencies settle for a name without an override is the one planned for
      it as a collected name exactly if no eager resolver and no constraint has another one. */
  lemma SettledKeptIff(o: Options, reqs: seq<DepSpec>, all: seq<DepSpec>, r: Request, p: string)
    requires CollectedAsks(o, reqs, all, r) && Settled(o, reqs, all, r.name, p) && p != ""
    requires HasNone(o.overrides, r.name)
    ensures r.version == p <==>
            if o.eager && !OffersNone(o, r.name) then !OffersOther(o, r.name, p)
            else HasNone(o.constraints, r.name) || Has(o.constraints, r.name, p)
  {
    var v :| Settled(o, reqs, all, r.name, v) && CollectedAs(o, r.name, v, r.version);
    SettledUnique(o, reqs, all, r.name, v, p);
    OneText(o.constraints, r.name);
  }

  lemma OneText(m: map<string, string>, name: string)
    ensures forall a, b | Has(m, name, a) && Has(m, name, b) :: a == b
  {
    forall a, b | Has(m, name, a) && Has(m, name, b)
      ensures a == b
    {
      HasIff(m, name, a);
      HasIff(m, name, b);
    }
  }
}
