/** What the planner plans for each input, field by field, stated over the inputs. */
module PlanValues {
  import opened Text
  import opened Artifact
  import opened Keys
  import opened Catalog
  import opened PlanSpec
  import opened PlanProps
  import opened PlanResults
  import opened PlanRequests

  // ----- Names, tags and sources -----

  /** n is name trimmed, with dashes for underscores and in lower case. */
  ghost predicate Normalizes(name: string, n: string) {
    exists t :: Trims(name, t) && |n| == |t| && forall i | 0 <= i < |t| ::
      if t[i] == '_' then n[i] == '-'
      else if 65 <= t[i] as int <= 90 then n[i] as int == t[i] as int + 32
      else n[i] == t[i]
  }

  lemma NormalizeNameIff(name: string, n: string)
    ensures Normalizes(name, n) <==> n == NormalizeName(name)
  {
    var trimmed := TrimSpace(name);
    TrimSpaceIff(name, trimmed);
    var dashed := Dashed(trimmed);
    ToLowerIff(dashed, NormalizeName(name));
    if t :| Trims(name, t) && |n| == |t| && forall i | 0 <= i < |t| ::
              if t[i] == '_' then n[i] == '-'
              else if 65 <= t[i] as int <= 90 then n[i] as int == t[i] as int + 32
              else n[i] == t[i]
    {
      TrimSpaceIff(name, t);
      ToLowerIff(dashed, n);
    }
  }

  /** Only the dots go: a text without them stays, and each dot leaves nothing behind. */
  lemma {:induction false} WithoutDotsIs(s: string, t: string)
    requires '.' !in s
    ensures WithoutDots(s) == s && WithoutDots(s + t) == s + WithoutDots(t)
    ensures WithoutDots("." + t) == WithoutDots(t)
  {
    assert ("." + t)[1..] == t;
    if s == "" {
      assert s + t == t;
    } else {
      assert (s + t)[1..] == s[1..] + t && s == [s[0]] + s[1..];
      WithoutDotsIs(s[1..], t);
      assert s + WithoutDots(t) == [s[0]] + (s[1..] + WithoutDots(t));
    }
  }

  /** The tag of a Python version: the version itself if it starts with cp, else cp and the version
      without dots. */
  lemma PyTagIs(o: Options)
    ensures "cp" <= o.pythonVersion ==> PyTag(o) == o.pythonVersion
    ensures !("cp" <= o.pythonVersion) ==> PyTag(o) == "cp" + WithoutDots(o.pythonVersion)
  {
  }

  /** What stands for the source of a wheel that was not uploaded. */
  ghost predicate NamedSource(o: Options, r: Request) {
    exists n, v :: Normalizes(r.name, n) && Trims(r.version, v) && r.source == o.hash.source(n + "==" + v)
  }

  lemma SourceIs(o: Options, r: Request)
    ensures NamedSource(o, r) <==> r.source == SourceDigest(o, r.name, r.version)
  {
    NormalizeNameIff(r.name, NormalizeName(r.name));
    TrimSpaceIff(r.version, TrimSpace(r.version));
    if n, v :| Normalizes(r.name, n) && Trims(r.version, v) && r.source == o.hash.source(n + "==" + v) {
      NormalizeNameIff(r.name, n);
      TrimSpaceIff(r.version, v);
    }
  }

  // ----- Versions -----

  /** The resolver knows v as the latest version of name. */
  ghost predicate Answers(o: Options, name: string, v: string) {
    o.resolver.Some? && o.resolver.value(name) == Some(v)
  }

  ghost predicate Silent(o: Options, name: string) {
    forall v :: !Answers(o, name, v)
  }

  /** An entry for name, under its normalized form, that is not empty. */
  ghost predicate Has(m: map<string, string>, name: string, text: string) {
    text != "" && exists n :: Normalizes(name, n) && n in m && m[n] == text
  }

  ghost predicate HasNone(m: map<string, string>, name: string) {
    forall text :: !Has(m, name, text)
  }

  lemma HasIff(m: map<string, string>, name: string, text: string)
    ensures Has(m, name, text) <==> text != "" && NormalizeName(name) in m && m[NormalizeName(name)] == text
  {
    NormalizeNameIff(name, NormalizeName(name));
    if n :| Normalizes(name, n) && n in m && m[n] == text {
      NormalizeNameIff(name, n);
    }
  }

  /** v is the text of an override, trimmed and without its leading "==". */
  ghost predicate Pins(text: string, v: string) {
    exists t :: Trims(text, t) && if "==" <= t then t == "==" + v else t == v
  }

  lemma PinsIff(text: string, v: string)
    ensures Pins(text, v) <==> v == TrimPrefix(TrimSpace(text), "==")
  {
    var t := TrimSpace(text);
    TrimSpaceIff(text, t);
    if "==" <= t {
      assert t == "==" + t[2..];
    }
    if u :| Trims(text, u) && if "==" <= u then u == "==" + v else u == v {
      TrimSpaceIff(text, u);
      assert "==" <= u ==> v == u[2..];
    }
  }

  /** A requirement keeps its version, trimmed; an open one takes the latest version if there is one. */
  ghost predicate RequiredAs(o: Options, spec: DepSpec, name: string, v: string) {
    exists t :: Trims(spec.version, t) &&
      if (t == "" || ">=" <= t || "~=" <= t) && !Silent(o, name) then Answers(o, name, v) else v == t
  }

  lemma RequiredIff(o: Options, spec: DepSpec, v: string)
    ensures RequiredAs(o, spec, NormalizeName(spec.name), v) <==> v == RequiredVersion(o, spec)
  {
    var name, t := NormalizeName(spec.name), TrimSpace(spec.version);
    TrimSpaceIff(spec.version, t);
    assert Answers(o, name, v) ==> !Silent(o, name);
    assert Silent(o, name) <==> Resolve(o, name).None? by {
      if Resolve(o, name).Some? {
        assert Answers(o, name, Resolve(o, name).value);
      }
    }
    if u :| Trims(spec.version, u) && if (u == "" || ">=" <= u || "~=" <= u) && !Silent(o, name) then Answers(o, name, v) else v == u {
      TrimSpaceIff(spec.version, u);
    }
  }

  /** What constraints, overrides and the collected version spec say of the version of name: a constraint
      goes before an override, and that before spec. */
  ghost predicate Said(o: Options, name: string, spec: string, v: string) {
    if !HasNone(o.constraints, name) then Has(o.constraints, name, v)
    else if !HasNone(o.overrides, name) then exists text :: Has(o.overrides, name, text) && Pins(text, v)
    else v == spec
  }

  /** The resolver has a version of name that is not empty. */
  ghost predicate Offers(o: Options, name: string, v: string) {
    v != "" && Answers(o, name, v)
  }

  ghost predicate OffersNone(o: Options, name: string) {
    forall v :: !Offers(o, name, v)
  }

  /** What was said, if that is not empty, else what the resolver has, else "latest". */
  ghost predicate Fills(o: Options, name: string, said: string, v: string) {
    if said != "" then v == said
    else if !OffersNone(o, name) then Offers(o, name, v)
    else v == "latest"
  }

  /** An eager resolver goes before all that. */
  ghost predicate CollectedAs(o: Options, name: string, spec: string, v: string) {
    if o.eager && !OffersNone(o, name) then Offers(o, name, v)
    else exists said :: Said(o, name, spec, said) && Fills(o, name, said, v)
  }

  lemma HasNoneIff(m: map<string, string>, name: string)
    ensures HasNone(m, name) <==> !(NormalizeName(name) in m && m[NormalizeName(name)] != "")
  {
    var n := NormalizeName(name);
    if n in m {
      HasIff(m, name, m[n]);
    }
    forall text
      ensures Has(m, name, text) <==> text != "" && n in m && m[n] == text
    {
      HasIff(m, name, text);
    }
  }

  lemma SaidIff(o: Options, name: string, spec: string, v: string)
    ensures Said(o, name, spec, v) <==>
            v == var n := NormalizeName(name);
                 if n in o.constraints && o.constraints[n] != "" then o.constraints[n]
                 else if n in o.overrides && o.overrides[n] != "" then TrimPrefix(TrimSpace(o.overrides[n]), "==")
                 else spec
  {
    var n := NormalizeName(name);
    HasNoneIff(o.constraints, name);
    HasNoneIff(o.overrides, name);
    HasIff(o.constraints, name, v);
    if n in o.overrides {
      HasIff(o.overrides, name, o.overrides[n]);
      PinsIff(o.overrides[n], v);
    }
    forall text | Has(o.overrides, name, text)
      ensures n in o.overrides && o.overrides[n] == text
    {
      HasIff(o.overrides, name, text);
    }
  }

  lemma OffersIff(o: Options, name: string, v: string)
    ensures Offers(o, name, v) <==> v != "" && Resolve(o, name) == Some(v)
    ensures OffersNone(o, name) <==> Resolve(o, name) == None || Resolve(o, name) == Some("")
  {
    if Resolve(o, name).Some? {
      assert Offers(o, name, Resolve(o, name).value) || Resolve(o, name).value == "";
    }
  }

  lemma CollectedIff(o: Options, name: string, spec: string, v: string)
    ensures CollectedAs(o, name, spec, v) <==> v == CollectedVersion(o, name, spec)
  {
    OffersIff(o, name, v);
    var n := NormalizeName(name);
    var said := if n in o.constraints && o.constraints[n] != "" then o.constraints[n]
                else if n in o.overrides && o.overrides[n] != "" then TrimPrefix(TrimSpace(o.overrides[n]), "==")
                else spec;
    SaidIff(o, name, spec, said);
    forall u | Said(o, name, spec, u)
      ensures u == said
    {
      SaidIff(o, name, spec, u);
    }
  }

  // ----- The version that is collected for a name -----

  /** The named dependencies, in order. */
  function NamedOnly(deps: seq<DepSpec>): seq<DepSpec> {
    if deps == [] then [] else (if deps[0].name == "" then [] else [deps[0]]) + NamedOnly(deps[1..])
  }

  /** The named dependencies of the named and versioned wheels, in the order they are read. */
  function Dependencies(wheels: seq<WheelInput>): seq<DepSpec> {
    if wheels == [] then []
    else
      var n := |wheels| - 1;
      Dependencies(wheels[..n])
      + (if wheels[n].name != "" && wheels[n].version != "" then NamedOnly(wheels[n].requires_) else [])
  }

  lemma {:induction false} NamedOnlyMember(deps: seq<DepSpec>, d: DepSpec)
    ensures d in NamedOnly(deps) <==> d in deps && d.name != ""
  {
    if deps != [] {
      NamedOnlyMember(deps[1..], d);
      assert deps == [deps[0]] + deps[1..];
    }
  }

  /** A named and versioned wheel has the named dependency d. */
  ghost predicate HasDependency(wheels: seq<WheelInput>, d: DepSpec) {
    d.name != "" && exists i :: 0 <= i < |wheels| && wheels[i].name != "" && wheels[i].version != "" && d in wheels[i].requires_
  }

  lemma HasDependencyStep(wheels: seq<WheelInput>, d: DepSpec)
    requires wheels != []
    ensures var n := |wheels| - 1;
            HasDependency(wheels, d) <==>
            || HasDependency(wheels[..n], d)
            || (d.name != "" && wheels[n].name != "" && wheels[n].version != "" && d in wheels[n].requires_)
  {
    var init := wheels[..|wheels| - 1];
    if HasDependency(init, d) {
      var i :| 0 <= i < |init| && init[i].name != "" && init[i].version != "" && d in init[i].requires_;
      assert wheels[i] == init[i];
    }
  }

  lemma {:induction false} DependenciesMember(wheels: seq<WheelInput>, d: DepSpec)
    ensures d in Dependencies(wheels) <==> HasDependency(wheels, d)
  {
    if wheels != [] {
      DependenciesMember(wheels[..|wheels| - 1], d);
      NamedOnlyMember(wheels[|wheels| - 1].requires_, d);
      HasDependencyStep(wheels, d);
    }
  }

  /** The last requirement for the name. */
  ghost predicate LastRequired(reqs: seq<DepSpec>, name: string, i: nat) {
    && i < |reqs| && NormalizeName(reqs[i].name) == name
    && forall j | i < j < |reqs| :: NormalizeName(reqs[j].name) != name
  }

  /** A dependency without a version takes the latest one if there is one. */
  ghost predicate WantedAs(o: Options, dep: DepSpec, v: string) {
    if dep.version == "" && !Silent(o, dep.name) then Answers(o, dep.name, v) else v == dep.version
  }

  /** v is the first version that is not empty among what the dependencies named so ask for, or empty. */
  ghost predicate FirstWanted(o: Options, all: seq<DepSpec>, name: string, v: string) {
    if v == "" then forall k | 0 <= k < |all| && all[k].name == name :: WantedAs(o, all[k], "")
    else exists k :: 0 <= k < |all| && all[k].name == name && WantedAs(o, all[k], v)
                     && forall j | 0 <= j < k && all[j].name == name :: WantedAs(o, all[j], "")
  }

  /** The last requirement for a name fixes its version; if it leaves it empty, or there is none, the
      dependencies do. */
  ghost predicate Settled(o: Options, reqs: seq<DepSpec>, all: seq<DepSpec>, name: string, v: string) {
    if Firm(o, reqs, name) then Fixed(o, reqs, name, v) else FirstWanted(o, all, name, v)
  }

  ghost predicate Fixed(o: Options, reqs: seq<DepSpec>, name: string, v: string) {
    exists i: nat :: LastRequired(reqs, name, i) && RequiredAs(o, reqs[i], name, v)
  }

  ghost predicate Firm(o: Options, reqs: seq<DepSpec>, name: string) {
    exists i: nat :: LastRequired(reqs, name, i) && !RequiredAs(o, reqs[i], name, "")
  }

  ghost predicate Required(reqs: seq<DepSpec>, name: string) {
    exists i :: 0 <= i < |reqs| && NormalizeName(reqs[i].name) == name
  }

  ghost predicate Mentions(all: seq<DepSpec>, name: string) {
    exists k :: 0 <= k < |all| && all[k].name == name
  }

  ghost predicate Collects(o: Options, reqs: seq<DepSpec>, all: seq<DepSpec>, deps: map<string, string>) {
    forall name | name != "" ::
      && (name in deps <==> Required(reqs, name) || Mentions(all, name))
      && (name in deps ==> Settled(o, reqs, all, name, deps[name]))
  }

  lemma WantedIff(o: Options, dep: DepSpec, v: string)
    ensures WantedAs(o, dep, v) <==>
            v == var latest := Resolve(o, dep.name);
                 if dep.version == "" && latest.Some? then latest.value else dep.version
  {
    if Resolve(o, dep.name).Some? {
      assert Answers(o, dep.name, Resolve(o, dep.name).value);
    }
  }

  lemma FirstWantedKept(o: Options, all: seq<DepSpec>, dep: DepSpec, name: string, v: string)
    requires FirstWanted(o, all, name, v) && (dep.name != name || v != "")
    ensures FirstWanted(o, all + [dep], name, v)
  {
    var more := all + [dep];
    if v != "" {
      var k :| 0 <= k < |all| && all[k].name == name && WantedAs(o, all[k], v)
               && forall j | 0 <= j < k && all[j].name == name :: WantedAs(o, all[j], "");
      assert more[k] == all[k];
    }
  }

  lemma FirstWantedNew(o: Options, all: seq<DepSpec>, dep: DepSpec, v: string)
    requires FirstWanted(o, all, dep.name, "") && WantedAs(o, dep, v)
    ensures FirstWanted(o, all + [dep], dep.name, v)
  {
    var more := all + [dep];
    assert more[|all|] == dep;
    forall j | 0 <= j < |all| && more[j].name == dep.name
      ensures WantedAs(o, more[j], "")
    {
      assert more[j] == all[j];
    }
  }

  lemma SettledKept(o: Options, reqs: seq<DepSpec>, all: seq<DepSpec>, dep: DepSpec, name: string, v: string)
    requires Settled(o, reqs, all, name, v) && (dep.name != name || v != "")
    ensures Settled(o, reqs, all + [dep], name, v)
  {
    if FirstWanted(o, all, name, v) {
      FirstWantedKept(o, all, dep, name, v);
    }
  }

  lemma OneLast(reqs: seq<DepSpec>, name: string, i: nat, j: nat)
    requires LastRequired(reqs, name, i) && LastRequired(reqs, name, j)
    ensures i == j
  {
  }

  lemma FirmIsNotEmpty(o: Options, reqs: seq<DepSpec>, name: string)
    ensures !(Firm(o, reqs, name) && Fixed(o, reqs, name, ""))
  {
    forall i: nat, j: nat | LastRequired(reqs, name, i) && LastRequired(reqs, name, j)
      ensures i == j
    {
      OneLast(reqs, name, i, j);
    }
  }

  lemma SettledNew(o: Options, reqs: seq<DepSpec>, all: seq<DepSpec>, dep: DepSpec, v: string)
    requires Settled(o, reqs, all, dep.name, "") && WantedAs(o, dep, v)
    ensures Settled(o, reqs, all + [dep], dep.name, v)
  {
    FirmIsNotEmpty(o, reqs, dep.name);
    FirstWantedNew(o, all, dep, v);
  }

  lemma NotCollected(o: Options, reqs: seq<DepSpec>, all: seq<DepSpec>, name: string)
    requires !Required(reqs, name) && !Mentions(all, name)
    ensures Settled(o, reqs, all, name, "")
  {
  }

  lemma MentionsAppend(all: seq<DepSpec>, dep: DepSpec, name: string)
    ensures Mentions(all + [dep], name) <==> Mentions(all, name) || dep.name == name
  {
    var more := all + [dep];
    assert more[|all|] == dep;
    if k :| 0 <= k < |all| && all[k].name == name {
      assert more[k].name == name;
    }
    if k :| 0 <= k < |more| && more[k].name == name {
      assert k < |all| ==> all[k].name == name;
    }
  }

  lemma OneSettles(o: Options, ps: PlanState, reqs: seq<DepSpec>, all: seq<DepSpec>, dep: DepSpec)
    requires dep.name != "" && Collects(o, reqs, all, ps.deps)
    ensures Collects(o, reqs, all + [dep], CollectOne(o, ps, dep).deps)
  {
    var q := CollectOne(o, ps, dep);
    forall name | name != ""
      ensures name in q.deps <==> Required(reqs, name) || Mentions(all + [dep], name)
      ensures name in q.deps ==> Settled(o, reqs, all + [dep], name, q.deps[name])
    {
      MentionsAppend(all, dep, name);
      if name != dep.name || (name in ps.deps && ps.deps[name] != "") {
        if name in ps.deps {
          SettledKept(o, reqs, all, dep, name, ps.deps[name]);
        }
      } else {
        if name !in ps.deps {
          NotCollected(o, reqs, all, name);
        }
        WantedIff(o, dep, q.deps[name]);
        SettledNew(o, reqs, all, dep, q.deps[name]);
      }
    }
  }

  lemma {:induction false} CollectSettles(o: Options, ps: PlanState, reqs: seq<DepSpec>, all: seq<DepSpec>, deps: seq<DepSpec>)
    requires Collects(o, reqs, all, ps.deps) && !Collect(o, ps, deps).truncated
    ensures Collects(o, reqs, all + NamedOnly(deps), Collect(o, ps, deps).deps)
    decreases deps
  {
    if deps == [] {
      assert all + [] == all;
    } else if deps[0].name == "" {
      CollectSettles(o, ps, reqs, all, deps[1..]);
      assert NamedOnly(deps) == [] + NamedOnly(deps[1..]) == NamedOnly(deps[1..]);
    } else {
      OneSettles(o, ps, reqs, all, deps[0]);
      CollectSettles(o, CollectOne(o, ps, deps[0]), reqs, all + [deps[0]], deps[1..]);
      assert all + [deps[0]] + NamedOnly(deps[1..]) == all + NamedOnly(deps);
    }
  }

  lemma {:induction false} CutStays(o: Options, ps: PlanState, deps: seq<DepSpec>)
    requires ps.truncated
    ensures Collect(o, ps, deps).truncated
    decreases deps
  {
    if deps != [] {
      CutStays(o, ps, deps[1..]);
      CutStays(o, CollectOne(o, ps, deps[0]), deps[1..]);
    }
  }

  lemma LastRequiredAppend(reqs: seq<DepSpec>, spec: DepSpec, name: string, i: nat)
    ensures NormalizeName(spec.name) != name ==> (LastRequired(reqs + [spec], name, i) <==> LastRequired(reqs, name, i))
    ensures NormalizeName(spec.name) == name ==> (LastRequired(reqs + [spec], name, i) <==> i == |reqs|)
  {
    var more := reqs + [spec];
    assert more[|reqs|] == spec;
    assert forall j | 0 <= j < |reqs| :: more[j] == reqs[j];
  }

  lemma RequiredAppend(reqs: seq<DepSpec>, spec: DepSpec, name: string)
    ensures Required(reqs + [spec], name) <==> Required(reqs, name) || NormalizeName(spec.name) == name
  {
    var more := reqs + [spec];
    assert more[|reqs|] == spec;
    if i :| 0 <= i < |reqs| && NormalizeName(reqs[i].name) == name {
      assert NormalizeName(more[i].name) == name;
    }
  }

  lemma OtherRequirement(o: Options, reqs: seq<DepSpec>, spec: DepSpec, name: string, v: string)
    requires NormalizeName(spec.name) != name
    ensures Firm(o, reqs + [spec], name) <==> Firm(o, reqs, name)
    ensures Fixed(o, reqs + [spec], name, v) <==> Fixed(o, reqs, name, v)
  {
    var more := reqs + [spec];
    forall i: nat
      ensures LastRequired(more, name, i) <==> LastRequired(reqs, name, i)
      ensures LastRequired(reqs, name, i) ==> more[i] == reqs[i]
    {
      LastRequiredAppend(reqs, spec, name, i);
    }
  }

  lemma NewRequirement(o: Options, reqs: seq<DepSpec>, spec: DepSpec)
    ensures Settled(o, reqs + [spec], [], NormalizeName(spec.name), RequiredVersion(o, spec))
  {
    var name, v, more := NormalizeName(spec.name), RequiredVersion(o, spec), reqs + [spec];
    RequiredIff(o, spec, v);
    RequiredIff(o, spec, "");
    LastRequiredAppend(reqs, spec, name, |reqs|);
    assert more[|reqs|] == spec;
    if v == "" {
      forall i: nat | LastRequired(more, name, i)
        ensures RequiredAs(o, more[i], name, "")
      {
        LastRequiredAppend(reqs, spec, name, i);
      }
    }
  }

  lemma {:induction false} RequirementsSettle(o: Options, reqs: seq<DepSpec>)
    requires NamedCatalog(o)
    ensures Collects(o, reqs, [], AddRequirements(o, Start(o), reqs).deps)
  {
    if reqs != [] {
      var init, spec := reqs[..|reqs| - 1], reqs[|reqs| - 1];
      RequirementsSettle(o, init);
      var deps, deps' := AddRequirements(o, Start(o), init).deps, AddRequirements(o, Start(o), reqs).deps;
      assert reqs == init + [spec];
      forall name | name != ""
        ensures name in deps' <==> Required(reqs, name) || Mentions([], name)
        ensures name in deps' ==> Settled(o, reqs, [], name, deps'[name])
      {
        RequiredAppend(init, spec, name);
        if name == NormalizeName(spec.name) {
          NewRequirement(o, init, spec);
        } else if name in deps {
          OtherRequirement(o, init, spec, name, deps[name]);
        }
      }
    }
  }

  /** What is collected for the names the requirements and dependencies mention, when nothing was cut off. */
  lemma {:induction false} ReadCollects(o: Options, reqs: seq<DepSpec>, wheels: seq<WheelInput>)
    requires NamedCatalog(o) && !Read(o, reqs, wheels).truncated
    ensures Collects(o, reqs, Dependencies(wheels), Read(o, reqs, wheels).deps)
  {
    if wheels == [] {
      RequirementsSettle(o, reqs);
    } else {
      var init, w := wheels[..|wheels| - 1], wheels[|wheels| - 1];
      var ps := Read(o, reqs, init);
      if Usable(w) {
        WheelDeps(o, ps, w);
        if ps.truncated {
          CutStays(o, ps.(hasInput := true), w.requires_);
        }
        ReadCollects(o, reqs, init);
        CollectSettles(o, ps.(hasInput := true), reqs, Dependencies(init), w.requires_);
      } else {
        ReadCollects(o, reqs, init);
        assert Dependencies(init) + [] == Dependencies(init);
      }
    }
  }
}
