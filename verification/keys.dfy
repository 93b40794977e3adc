/** Artifact keys and their digests. */
module Keys {
  import opened Artifact
  import opened Sorting

  datatype RuntimeKey = RuntimeKey(arch: string, policyBaseDigest: string, pythonVersion: string,
                                   buildFlags: string, toolchainId: string, depsHash: string)

  datatype PackKey = PackKey(arch: string, policyBaseDigest: string, name: string, version: string, recipeDigest: string)

  datatype WheelKey = WheelKey(sourceDigest: string, pyTag: string, platformTag: string, runtimeDigest: string,
                               packDigests: seq<string>, buildFrontendVersion: string, configFlagsDigest: string,
                               repairToolVersion: string, repairPolicyRulesHash: string)

  datatype RepairKey = RepairKey(inputWheelDigest: string, repairToolVersion: string, policyRulesDigest: string)

  /** SHA-256 over the JSON form of a key, and over the text that names a source. */
  datatype Hash = Hash(runtime: RuntimeKey -> string, pack: PackKey -> string, wheel: WheelKey -> string,
                       repair: RepairKey -> string, source: string -> string)

  ghost predicate PackInjective(h: Hash) {
    forall a, b :: h.pack(a) == h.pack(b) ==> a == b
  }

  ghost predicate WheelInjective(h: Hash) {
    forall a, b :: h.wheel(a) == h.wheel(b) ==> a == b
  }

  /** The digest of a wheel key does not depend on the order in which its packs are listed. */
  function WheelDigest(h: Hash, k: WheelKey): string {
    h.wheel(if |k.packDigests| > 1 then k.(packDigests := SortStrings(k.packDigests)) else k)
  }

  predicate Equivalent(a: WheelKey, b: WheelKey) {
    && a.(packDigests := []) == b.(packDigests := [])
    && multiset(a.packDigests) == multiset(b.packDigests)
  }

  /** Equal digests mean equal keys up to the order of the packs, and the other way round. */
  lemma WheelDigestIff(h: Hash, a: WheelKey, b: WheelKey)
    requires WheelInjective(h)
    ensures WheelDigest(h, a) == WheelDigest(h, b) <==> Equivalent(a, b)
  {
    SortStringsCanonical(a.packDigests, b.packDigests);
    ShortSorted(a.packDigests);
    ShortSorted(b.packDigests);
    var x, y := a.(packDigests := SortStrings(a.packDigests)), b.(packDigests := SortStrings(b.packDigests));
    assert WheelDigest(h, a) == h.wheel(x) && WheelDigest(h, b) == h.wheel(y);
    assert x == y <==> a.(packDigests := []) == b.(packDigests := [])
                       && SortStrings(a.packDigests) == SortStrings(b.packDigests);
  }

  lemma ShortSorted(xs: seq<string>)
    ensures |xs| <= 1 ==> SortStrings(xs) == xs
  {
    if |xs| == 1 {
      assert SortStrings(xs[1..]) == [];
    }
  }
}
