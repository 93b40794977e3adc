/** The pack catalog: which packs a package needs, and which packs a pack needs. */
module Catalog {
  import opened Text

  datatype PackDef = PackDef(name: string, version: string, recipeDigest: string, note: string)

  datatype Rule = Rule(pattern: string, backend: string, packs: seq<string>)

  datatype Catalog = Catalog(packs: map<string, PackDef>, rules: seq<Rule>)

  /** Every pack is filed under its own name. */
  ghost predicate Named(c: Catalog) {
    forall k | k in c.packs :: c.packs[k].name == k
  }

  predicate Matches(r: Rule, pkg: string, backend: string) {
    && (r.pattern == "" || Contains(ToLower(pkg), ToLower(r.pattern)))
    && (r.backend == "" || ToLower(backend) == ToLower(r.backend))
  }

  /** The packs of the catalog that the matching rules mention, in the order they mention them. */
  function Mentioned(c: Catalog, rules: seq<Rule>, pkg: string, backend: string): seq<string> {
    if rules == [] then []
    else
      var n := |rules| - 1;
      Mentioned(c, rules[..n], pkg, backend)
      + (if Matches(rules[n], pkg, backend) then Known(c, rules[n].packs) else [])
  }

  function Known(c: Catalog, names: seq<string>): seq<string> {
    if names == [] then []
    else
      var n := |names| - 1;
      Known(c, names[..n]) + (if names[n] in c.packs then [names[n]] else [])
  }

  /** Every element once, at its first position. */
  function Firsts(xs: seq<string>): (r: seq<string>)
    ensures forall x :: x in r <==> x in xs
    ensures forall i, j | 0 <= i < j < |r| :: r[i] != r[j]
  {
    if xs == [] then []
    else
      var n := |xs| - 1;
      var r := Firsts(xs[..n]);
      if xs[n] in r then r else r + [xs[n]]
  }

  /** Before the place where Firsts takes an element there are exactly the elements it took before. */
  lemma {:induction false} FirstsInOrder(xs: seq<string>, i: nat)
    requires i < |Firsts(xs)|
    ensures exists p :: 0 <= p < |xs| && xs[p] == Firsts(xs)[i] && forall x :: x in xs[..p] <==> x in Firsts(xs)[..i]
  {
    var n := |xs| - 1;
    var r := Firsts(xs[..n]);
    if i < |r| {
      FirstsInOrder(xs[..n], i);
      var p :| 0 <= p < n && xs[..n][p] == r[i] && forall x :: x in xs[..n][..p] <==> x in r[..i];
      assert xs[..n][..p] == xs[..p] && Firsts(xs)[..i] == r[..i];
    } else {
      assert Firsts(xs)[..i] == r;
    }
  }

  lemma {:induction false} KnownInCatalog(c: Catalog, names: seq<string>)
    ensures forall x :: x in Known(c, names) <==> x in names && x in c.packs
  {
    if names != [] {
      KnownInCatalog(c, names[..|names| - 1]);
      assert names == names[..|names| - 1] + [names[|names| - 1]];
    }
  }

  /** A pack is selected exactly when it is in the catalog and a matching rule lists it. */
  lemma {:induction false} MentionedExactly(c: Catalog, rules: seq<Rule>, pkg: string, backend: string)
    ensures forall x :: x in Mentioned(c, rules, pkg, backend) <==>
              x in c.packs && exists r :: r in rules && Matches(r, pkg, backend) && x in r.packs
  {
    if rules != [] {
      var n := |rules| - 1;
      MentionedExactly(c, rules[..n], pkg, backend);
      KnownInCatalog(c, rules[n].packs);
      assert rules == rules[..n] + [rules[n]];
    }
  }

  function SelectedNames(c: Catalog, pkg: string, backend: string): seq<string> {
    Firsts(Mentioned(c, c.rules, pkg, backend))
  }

  function DefsOf(c: Catalog, names: seq<string>): seq<PackDef>
    requires forall x | x in names :: x in c.packs
  {
    seq(|names|, i requires 0 <= i < |names| => assert names[i] in names; c.packs[names[i]])
  }

  function Selected(c: Catalog, pkg: string, backend: string): seq<PackDef> {
    MentionedExactly(c, c.rules, pkg, backend);
    DefsOf(c, SelectedNames(c, pkg, backend))
  }

  ghost predicate Filed(c: Catalog, names: seq<string>, defs: seq<PackDef>) {
    |defs| == |names| && forall i | 0 <= i < |names| :: names[i] in c.packs && defs[i] == c.packs[names[i]]
  }

  lemma FirstsAppend(xs: seq<string>, x: string)
    ensures Firsts(xs + [x]) == if x in Firsts(xs) then Firsts(xs) else Firsts(xs) + [x]
  {
    assert (xs + [x])[..|xs|] == xs;
  }

  lemma TakeStep(c: Catalog, before: seq<string>, packs: seq<string>, j: nat)
    requires j < |packs|
    ensures var prior := Firsts(before + Known(c, packs[..j]));
            Firsts(before + Known(c, packs[..j + 1]))
            == if packs[j] in c.packs && packs[j] !in prior then prior + [packs[j]] else prior
  {
    assert packs[..j + 1][..j] == packs[..j];
    var prior := before + Known(c, packs[..j]);
    assert before + Known(c, packs[..j + 1]) == if packs[j] in c.packs then prior + [packs[j]] else prior;
    FirstsAppend(prior, packs[j]);
  }

  lemma FiledAppend(c: Catalog, names: seq<string>, defs: seq<PackDef>, name: string)
    requires Filed(c, names, defs) && name in c.packs
    ensures Filed(c, names + [name], defs + [c.packs[name]])
  {
  }

  ghost predicate SameMembers(seen: set<string>, names: seq<string>) {
    forall x :: x in seen <==> x in names
  }

  lemma SameMembersAppend(seen: set<string>, names: seq<string>, name: string)
    requires SameMembers(seen, names)
    ensures SameMembers(seen + {name}, names + [name])
  {
  }

  /** The inner loop of Select: the packs of one rule, without those already taken. */
  method Take(c: Catalog, packs: seq<string>, seen: set<string>, out: seq<PackDef>,
              ghost before: seq<string>) returns (seen': set<string>, out': seq<PackDef>)
    requires SameMembers(seen, Firsts(before))
    requires Filed(c, Firsts(before), out)
    ensures SameMembers(seen', Firsts(before + Known(c, packs)))
    ensures Filed(c, Firsts(before + Known(c, packs)), out')
  {
    seen', out' := seen, out;
    assert before + [] == before;
    ghost var names := Firsts(before);
    for j := 0 to |packs|
      invariant names == Firsts(before + Known(c, packs[..j]))
      invariant SameMembers(seen', names)
      invariant Filed(c, names, out')
    {
      var name := packs[j];
      TakeStep(c, before, packs, j);
      if name in c.packs {
        if name in seen' {
          continue;
        }
        SameMembersAppend(seen', names, name);
        FiledAppend(c, names, out', name);
        seen' := seen' + {name};
        out' := out' + [c.packs[name]];
        names := names + [name];
      }
    }
    assert packs[..|packs|] == packs;
  }

  lemma MentionedStep(c: Catalog, rules: seq<Rule>, pkg: string, backend: string, i: nat)
    requires i < |rules|
    ensures Mentioned(c, rules[..i + 1], pkg, backend)
         == Mentioned(c, rules[..i], pkg, backend)
            + (if Matches(rules[i], pkg, backend) then Known(c, rules[i].packs) else [])
  {
    assert rules[..i + 1][..i] == rules[..i];
  }

  /** Select runs through the rules and takes the packs of those that match, each pack once. */
  method Select(c: Catalog, pkg: string, backend: string) returns (out: seq<PackDef>)
    ensures out == Selected(c, pkg, backend)
  {
    out := [];
    var seen: set<string> := {};
    ghost var mentioned: seq<string> := [];
    for i := 0 to |c.rules|
      invariant mentioned == Mentioned(c, c.rules[..i], pkg, backend)
      invariant SameMembers(seen, Firsts(mentioned))
      invariant Filed(c, Firsts(mentioned), out)
    {
      MentionedStep(c, c.rules, pkg, backend, i);
      var matches := Matches(c.rules[i], pkg, backend);
      if matches {
        seen, out := Take(c, c.rules[i].packs, seen, out, mentioned);
        mentioned := mentioned + Known(c, c.rules[i].packs);
      } else {
        assert mentioned + [] == mentioned;
      }
    }
    assert c.rules[..|c.rules|] == c.rules;
    MentionedExactly(c, c.rules, pkg, backend);
    assert out == DefsOf(c, Firsts(mentioned));
  }

  const CPYTHON_NEEDS: seq<string> := ["openssl", "libffi", "zlib", "xz", "bzip2", "sqlite"]

  /** The fixed table of pack dependencies. */
  function PackDependencies(name: string): seq<string> {
    var n := ToLower(name);
    if n == "openssl" || n == "libpng" || n == "libxml2" then ["zlib"]
    else if n == "freetype" then ["libpng", "jpeg"]
    else if n == "libxslt" then ["libxml2"]
    else if n in {"cpython", "cpython3.10", "cpython3.11", "cpython3.12", "runtime"} then CPYTHON_NEEDS
    else []
  }

  /** The table of pack dependencies, as declared; a name that is not in it needs nothing. */
  const DEPENDENCIES: map<string, seq<string>> := map[
    "openssl" := ["zlib"],
    "libpng" := ["zlib"],
    "freetype" := ["libpng", "jpeg"],
    "libxslt" := ["libxml2"],
    "libxml2" := ["zlib"],
    "cpython" := ["openssl", "libffi", "zlib", "xz", "bzip2", "sqlite"],
    "cpython3.10" := ["openssl", "libffi", "zlib", "xz", "bzip2", "sqlite"],
    "cpython3.11" := ["openssl", "libffi", "zlib", "xz", "bzip2", "sqlite"],
    "cpython3.12" := ["openssl", "libffi", "zlib", "xz", "bzip2", "sqlite"],
    "runtime" := ["openssl", "libffi", "zlib", "xz", "bzip2", "sqlite"],
    "libjpeg-turbo" := []]

  lemma DependenciesAreTheTable(name: string)
    ensures PackDependencies(name) == if ToLower(name) in DEPENDENCIES then DEPENDENCIES[ToLower(name)] else []
  {
  }

  /** Dependencies have a smaller rank, so following them ends. */
  function PackRank(name: string): nat {
    var n := ToLower(name);
    if n == "openssl" || n == "libpng" || n == "libxml2" then 1
    else if n == "freetype" || n == "libxslt" then 2
    else if n in {"cpython", "cpython3.10", "cpython3.11", "cpython3.12", "runtime"} then 2
    else 0
  }

  lemma DependenciesRankLower(name: string, dep: string)
    requires dep in PackDependencies(name)
    ensures PackRank(dep) < PackRank(name)
    ensures ToLower(dep) == dep
  {
    assert ToLower("zlib") == "zlib" && ToLower("libpng") == "libpng" && ToLower("jpeg") == "jpeg";
    assert ToLower("libxml2") == "libxml2" && ToLower("openssl") == "openssl" && ToLower("libffi") == "libffi";
    assert ToLower("xz") == "xz" && ToLower("bzip2") == "bzip2" && ToLower("sqlite") == "sqlite";
  }
}
