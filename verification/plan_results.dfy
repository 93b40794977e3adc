/** Which names planning reads, and when it fails. */
module PlanResults {
  import opened Text
  import opened Artifact
  import opened Keys
  import opened Catalog
  import opened PlanSpec
  import opened PlanProps

  // ----- The keys name::version -----

  /** name followed by "::" contains "::" only at its end. */
  predicate Plain(name: string) {
    forall i | 0 <= i < |name| :: !(name[i] == ':' && (name + ":")[i + 1] == ':')
  }

  /** A name that is not plain shares each of its keys with a shorter name. It need not contain "::": the
      name "a:" with version "b" has the key of the name "a" with version ":b". */
  lemma KeysCollideIff(n: string, v: string)
    ensures !Plain(n) <==> exists m, w :: |m| < |n| && SeenKey(m, w) == SeenKey(n, v)
    ensures SeenKey("a:", "b") == SeenKey("a", ":b")
  {
    var k := SeenKey(n, v);
    if !Plain(n) {
      var i :| 0 <= i < |n| && n[i] == ':' && (n + ":")[i + 1] == ':';
      assert k[i + 1] == ':';
      assert SeenKey(n[..i], k[i + 2..]) == k;
    }
    forall m, w | |m| < |n| && SeenKey(m, w) == k
      ensures !Plain(n)
    {
      assert SeenKey(m, w)[|m|] == ':' && SeenKey(m, w)[|m| + 1] == ':';
      assert n[|m|] == ':' && (n + ":")[|m| + 1] == ':';
    }
  }

  /** For plain names the key determines name and version. */
  lemma KeyIsUnique(n1: string, v1: string, n2: string, v2: string)
    requires Plain(n1) && Plain(n2) && SeenKey(n1, v1) == SeenKey(n2, v2)
    ensures n1 == n2 && v1 == v2
  {
    KeysCollideIff(n1, v1);
    KeysCollideIff(n2, v2);
    var k := SeenKey(n1, v1);
    assert |n1| == |n2|;
    assert n1 == k[..|n1|] && n2 == k[..|n2|];
    assert v1 == k[|n1| + 2..] && v2 == k[|n2| + 2..];
  }

  // ----- The names of a plan -----

  ghost function Names(nodes: seq<FlatNode>): set<string> {
    set n | n in nodes :: n.name
  }

  ghost function ReqNames(reqs: seq<DepSpec>): set<string> {
    set r | r in reqs && NormalizeName(r.name) != "" :: NormalizeName(r.name)
  }

  ghost function WheelNames(wheels: seq<WheelInput>): set<string> {
    set w | w in wheels && Usable(w) :: w.name
  }

  function NamedDeps(deps: seq<DepSpec>): seq<string> {
    if deps == [] then []
    else (if deps[0].name == "" then [] else [deps[0].name]) + NamedDeps(deps[1..])
  }

  /** The named dependencies of the named and versioned wheels, in the order they are read. */
  function DepNames(wheels: seq<WheelInput>): seq<string> {
    if wheels == [] then []
    else
      var w := wheels[|wheels| - 1];
      DepNames(wheels[..|wheels| - 1]) + (if Usable(w) then NamedDeps(w.requires_) else [])
  }

  function SetOf(names: seq<string>): set<string> {
    set n | n in names
  }

  ghost predicate AllPlain(names: set<string>) {
    forall n | n in names :: Plain(n)
  }

  lemma ReqNamesStep(reqs: seq<DepSpec>)
    requires reqs != []
    ensures var name := NormalizeName(reqs[|reqs| - 1].name);
            ReqNames(reqs) == ReqNames(reqs[..|reqs| - 1]) + (if name == "" then {} else {name})
  {
    assert reqs == reqs[..|reqs| - 1] + [reqs[|reqs| - 1]];
  }

  lemma WheelNamesStep(wheels: seq<WheelInput>)
    requires wheels != []
    ensures var w := wheels[|wheels| - 1];
            WheelNames(wheels) == WheelNames(wheels[..|wheels| - 1]) + (if Usable(w) then {w.name} else {})
  {
    assert wheels == wheels[..|wheels| - 1] + [wheels[|wheels| - 1]];
  }

  lemma RequirementDeps(o: Options, ps: PlanState, spec: DepSpec)
    requires NamedCatalog(o)
    ensures var q, name := AddRequirement(o, ps, spec), NormalizeName(spec.name);
            if name == "" then q == ps
            else q.deps.Keys == ps.deps.Keys + {name} && q.hasInput && q.truncated == ps.truncated
  {
    var name, version := NormalizeName(spec.name), RequiredVersion(o, spec);
    EmitKeepsDeps(o, ps.(hasInput := true, deps := ps.deps[name := version]), name, version,
                  SourceDigest(o, name, version), false);
  }

  lemma {:induction false} RequirementsDeps(o: Options, reqs: seq<DepSpec>)
    requires NamedCatalog(o)
    ensures var ps := AddRequirements(o, Start(o), reqs);
            && ps.deps.Keys == ReqNames(reqs)
            && (ps.hasInput <==> ReqNames(reqs) != {})
            && !ps.truncated
  {
    if reqs != [] {
      ReqNamesStep(reqs);
      RequirementsDeps(o, reqs[..|reqs| - 1]);
      RequirementDeps(o, AddRequirements(o, Start(o), reqs[..|reqs| - 1]), reqs[|reqs| - 1]);
    }
  }

  // ----- The cap on collected names -----

  /** While the names are read one by one onto k, the cap is already reached before some name. */
  predicate CapHit(k: set<string>, names: seq<string>, cap: nat)
    decreases names
  {
    names != [] && (|k| >= cap || CapHit(k + {names[0]}, names[1..], cap))
  }

  lemma SetOfConcat(a: seq<string>, b: seq<string>)
    ensures SetOf(a + b) == SetOf(a) + SetOf(b)
  {
  }

  lemma SubsetSize(a: set<string>, b: set<string>)
    requires a <= b
    ensures |a| <= |b|
  {
    assert b == a + (b - a);
  }

  lemma SetOfCons(n: string, rest: seq<string>)
    ensures SetOf([n] + rest) == {n} + SetOf(rest)
  {
  }

  lemma {:induction false} CapHitConcat(k: set<string>, a: seq<string>, b: seq<string>, cap: nat)
    ensures CapHit(k, a + b, cap) <==> CapHit(k, a, cap) || CapHit(k + SetOf(a), b, cap)
    decreases a
  {
    if a == [] {
      assert a + b == b && k + SetOf(a) == k;
    } else {
      assert (a + b)[1..] == a[1..] + b && a == [a[0]] + a[1..];
      SetOfCons(a[0], a[1..]);
      assert k + SetOf(a) == k + {a[0]} + SetOf(a[1..]);
      CapHitConcat(k + {a[0]}, a[1..], b, cap);
      CapHitLarge(k + SetOf(a), b, cap);
      if |k| >= cap {
        SubsetSize(k, k + SetOf(a));
      }
    }
  }

  lemma CapHitLarge(k: set<string>, names: seq<string>, cap: nat)
    ensures names != [] && |k| >= cap ==> CapHit(k, names, cap)
  {
  }

  /** It is enough to look before the last name. */
  lemma CapHitLast(k: set<string>, names: seq<string>, cap: nat)
    ensures CapHit(k, names, cap) <==> names != [] && |k + SetOf(names[..|names| - 1])| >= cap
  {
    if names != [] {
      var init, last := names[..|names| - 1], names[|names| - 1];
      assert names == init + [last];
      CapHitConcat(k, init, [last], cap);
      CapHitSize(k, init, cap);
      assert [last][1..] == [];
    }
  }

  lemma {:induction false} CapHitSize(k: set<string>, names: seq<string>, cap: nat)
    ensures CapHit(k, names, cap) ==> |k + SetOf(names)| >= cap
    decreases names
  {
    if names != [] {
      assert names == [names[0]] + names[1..];
      SetOfCons(names[0], names[1..]);
      assert k + SetOf(names) == k + {names[0]} + SetOf(names[1..]);
      CapHitSize(k + {names[0]}, names[1..], cap);
      SubsetSize(k, k + SetOf(names));
    }
  }

  /** The state after names were collected onto k; was tells whether the cap had been hit before. */
  ghost predicate Capped(q: PlanState, k: set<string>, names: seq<string>, cap: nat, was: bool) {
    && "" !in q.deps
    && (q.truncated <==> was || CapHit(k, names, cap))
    && (!CapHit(k, names, cap) ==> q.deps.Keys == k + SetOf(names))
    && (CapHit(k, names, cap) ==> |q.deps.Keys| >= cap)
  }

  lemma CappedCons(q: PlanState, k: set<string>, n: string, rest: seq<string>, cap: nat, was: bool)
    requires |k| < cap && Capped(q, k + {n}, rest, cap, was)
    ensures Capped(q, k, [n] + rest, cap, was)
  {
    assert ([n] + rest)[1..] == rest;
    SetOfCons(n, rest);
    assert k + SetOf([n] + rest) == k + {n} + SetOf(rest);
  }

  lemma CappedFull(q: PlanState, n: string, rest: seq<string>, cap: nat)
    requires q.truncated && "" !in q.deps && |q.deps.Keys| >= cap
    ensures forall was :: Capped(q, q.deps.Keys, [n] + rest, cap, was)
  {
    CapHitLarge(q.deps.Keys, [n] + rest, cap);
  }

  lemma NamedDepsStep(deps: seq<DepSpec>)
    requires deps != []
    ensures var rest := NamedDeps(deps[1..]);
            NamedDeps(deps) == if deps[0].name == "" then rest else [deps[0].name] + rest
  {
  }

  lemma OneCollected(o: Options, ps: PlanState, d: DepSpec)
    ensures CollectOne(o, ps, d).deps.Keys == ps.deps.Keys + {d.name}
    ensures CollectOne(o, ps, d).truncated == ps.truncated
  {
  }

  lemma CollectCapsCons(o: Options, ps: PlanState, deps: seq<DepSpec>)
    requires deps != [] && deps[0].name != "" && |ps.deps.Keys| < MaxDeps(o)
    requires Capped(Collect(o, CollectOne(o, ps, deps[0]), deps[1..]), ps.deps.Keys + {deps[0].name},
                    NamedDeps(deps[1..]), MaxDeps(o), ps.truncated)
    ensures Capped(Collect(o, ps, deps), ps.deps.Keys, NamedDeps(deps), MaxDeps(o), ps.truncated)
  {
    assert |ps.deps| == |ps.deps.Keys|;
    NamedDepsStep(deps);
    CappedCons(Collect(o, ps, deps), ps.deps.Keys, deps[0].name, NamedDeps(deps[1..]), MaxDeps(o), ps.truncated);
  }

  lemma {:induction false} CollectCaps(o: Options, ps: PlanState, deps: seq<DepSpec>)
    requires "" !in ps.deps
    ensures Capped(Collect(o, ps, deps), ps.deps.Keys, NamedDeps(deps), MaxDeps(o), ps.truncated)
    decreases deps
  {
    if deps == [] {
    } else if deps[0].name == "" {
      NamedDepsStep(deps);
      CollectCaps(o, ps, deps[1..]);
    } else if |ps.deps.Keys| < MaxDeps(o) {
      OneCollected(o, ps, deps[0]);
      CollectCaps(o, CollectOne(o, ps, deps[0]), deps[1..]);
      CollectCapsCons(o, ps, deps);
    } else {
      assert |ps.deps| == |ps.deps.Keys|;
      NamedDepsStep(deps);
      CappedFull(ps.(truncated := true), deps[0].name, NamedDeps(deps[1..]), MaxDeps(o));
    }
  }

  lemma CappedConcat(p: PlanState, q: PlanState, k: set<string>, a: seq<string>, b: seq<string>, cap: nat)
    requires Capped(p, k, a, cap, false)
    requires Capped(q, p.deps.Keys, b, cap, p.truncated)
    ensures Capped(q, k, a + b, cap, false)
  {
    CapHitConcat(k, a, b, cap);
    SetOfConcat(a, b);
    if CapHit(k, a, cap) && !CapHit(p.deps.Keys, b, cap) {
      SubsetSize(p.deps.Keys, q.deps.Keys);
    }
  }

  lemma {:induction false} ReadCaps(o: Options, reqs: seq<DepSpec>, wheels: seq<WheelInput>)
    requires NamedCatalog(o) && PackInjective(o.hash)
    ensures Capped(Read(o, reqs, wheels), ReqNames(reqs), DepNames(wheels), MaxDeps(o), false)
    ensures Read(o, reqs, wheels).hasInput <==> ReqNames(reqs) != {} || WheelNames(wheels) != {}
  {
    if wheels == [] {
      RequirementsDeps(o, reqs);
    } else {
      var init, w := wheels[..|wheels| - 1], wheels[|wheels| - 1];
      ReadCaps(o, reqs, init);
      WheelNamesStep(wheels);
      var ps := Read(o, reqs, init);
      if Usable(w) {
        WheelCaps(o, ps, w);
        CappedConcat(ps, Read(o, reqs, wheels), ReqNames(reqs), DepNames(init), NamedDeps(w.requires_), MaxDeps(o));
      } else {
        assert DepNames(init) + [] == DepNames(init);
      }
    }
  }

  lemma EmitKeepsDeps(o: Options, ps: PlanState, name: string, version: string, source: string, compatible: bool)
    requires NamedCatalog(o)
    ensures var q := EmitNew(o, ps, name, version, source, compatible);
            q.deps == ps.deps && q.truncated == ps.truncated && q.hasInput == ps.hasInput
  {
  }

  lemma WheelDeps(o: Options, ps: PlanState, w: WheelInput)
    requires NamedCatalog(o) && Usable(w)
    ensures var c, q := Collect(o, ps.(hasInput := true), w.requires_), AddWheel(o, ps, w);
            q.deps == c.deps && q.truncated == c.truncated && q.hasInput == c.hasInput
  {
    var c := Collect(o, ps.(hasInput := true), w.requires_);
    var ov := Overridden(o, w.name);
    if ov.Some? {
      EmitKeepsDeps(o, c, w.name, ov.value, SourceDigest(o, w.name, ov.value), false);
    } else {
      EmitKeepsDeps(o, c, w.name, w.version,
                    if w.digest == "" then SourceDigest(o, w.name, w.version) else w.digest, IsCompatible(o, w));
    }
  }

  lemma WheelCaps(o: Options, ps: PlanState, w: WheelInput)
    requires NamedCatalog(o) && Usable(w) && "" !in ps.deps
    ensures Capped(AddWheel(o, ps, w), ps.deps.Keys, NamedDeps(w.requires_), MaxDeps(o), ps.truncated)
    ensures AddWheel(o, ps, w).hasInput
  {
    CollectCaps(o, ps.(hasInput := true), w.requires_);
    CollectKeeps(o, ps.(hasInput := true), w.requires_);
    WheelDeps(o, ps, w);
  }

  lemma {:induction false} CollectedSame(o: Options, ps: PlanState, order: seq<string>)
    requires NamedCatalog(o)
    ensures var q := AddAllCollected(o, ps, order);
            q.deps == ps.deps && q.hasInput == ps.hasInput && q.truncated == ps.truncated
  {
    if order != [] {
      CollectedSame(o, ps, order[..|order| - 1]);
    }
  }

  lemma OutcomeOfRead(o: Options, reqs: seq<DepSpec>, wheels: seq<WheelInput>, order: seq<string>)
    requires NamedCatalog(o)
    ensures var r, ps := Plan(o, reqs, wheels, order), Read(o, reqs, wheels);
            && (r.NoInput? <==> !ps.hasInput)
            && (r.TooManyDeps? <==> ps.hasInput && ps.truncated)
            && (r.Planned? <==> ps.hasInput && !ps.truncated)
  {
    CollectedSame(o, Read(o, reqs, wheels), order);
  }

  lemma TruncatedIff(o: Options, reqs: seq<DepSpec>, wheels: seq<WheelInput>)
    requires NamedCatalog(o) && PackInjective(o.hash)
    ensures var deps := DepNames(wheels);
            && (Read(o, reqs, wheels).hasInput <==> ReqNames(reqs) != {} || WheelNames(wheels) != {})
            && (Read(o, reqs, wheels).truncated <==>
                  deps != [] && |ReqNames(reqs) + SetOf(deps[..|deps| - 1])| >= MaxDeps(o))
  {
    ReadCaps(o, reqs, wheels);
    CapHitLast(ReqNames(reqs), DepNames(wheels), MaxDeps(o));
  }

  /** Exactly when planning fails: without a named requirement or usable wheel, or when the cap is reached
      by the names read before the last named dependency. Otherwise the collected names fit the cap if any
      wheel has a named dependency. */
  lemma PlanningFailsIff(o: Options, reqs: seq<DepSpec>, wheels: seq<WheelInput>, order: seq<string>)
    requires NamedCatalog(o) && PackInjective(o.hash)
    ensures var r, deps := Plan(o, reqs, wheels, order), DepNames(wheels);
            var cap := if o.maxDeps <= 0 then 1000 else o.maxDeps;
            && (r.NoInput? <==> ReqNames(reqs) == {} && WheelNames(wheels) == {})
            && (r.TooManyDeps? <==> !r.NoInput? && deps != []
                                    && |ReqNames(reqs) + SetOf(deps[..|deps| - 1])| >= cap)
            && (r.Planned? && deps != [] ==> |ReqNames(reqs) + SetOf(deps)| <= cap)
  {
    OutcomeOfRead(o, reqs, wheels, order);
    TruncatedIff(o, reqs, wheels);
    if DepNames(wheels) != [] {
      OneMoreName(ReqNames(reqs), DepNames(wheels));
    }
  }

  lemma OneMoreName(k: set<string>, names: seq<string>)
    requires names != []
    ensures |k + SetOf(names)| <= |k + SetOf(names[..|names| - 1])| + 1
  {
    var n := |names| - 1;
    assert names == names[..n] + [names[n]];
    SetOfConcat(names[..n], [names[n]]);
    var s := k + SetOf(names[..n]);
    assert k + SetOf(names) == s + {names[n]};
    assert |s + {names[n]}| <= |s| + 1;
  }

  lemma WalkIsSet(order: seq<string>, keys: set<string>)
    requires Walk(order, keys)
    ensures SetOf(order) == keys
  {
  }

  lemma UncappedDeps(o: Options, reqs: seq<DepSpec>, wheels: seq<WheelInput>)
    requires NamedCatalog(o) && PackInjective(o.hash) && !Read(o, reqs, wheels).truncated
    ensures Read(o, reqs, wheels).deps.Keys == ReqNames(reqs) + SetOf(DepNames(wheels))
    ensures "" !in Read(o, reqs, wheels).deps
  {
    ReadCaps(o, reqs, wheels);
  }
}
