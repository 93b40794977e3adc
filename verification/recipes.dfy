/** Recipe lists: how a worker merges them and when an automatic fix counts as applied. */
module Recipes {
  import opened Text
  import Sorting

  function Folded(out: seq<string>): set<string> {
    set t | t in out :: ToLower(t)
  }

  /** x adds something to out: it is not blank and not yet present, ignoring case. */
  predicate Adds(out: seq<string>, x: string) {
    TrimSpace(x) != "" && ToLower(TrimSpace(x)) !in Folded(out)
  }

  function MergeInto(out: seq<string>, xs: seq<string>): seq<string>
    decreases xs
  {
    if xs == [] then out
    else MergeInto(Next(out, xs[0]), xs[1..])
  }

  function Merge(a: seq<string>, b: seq<string>): seq<string> {
    MergeInto([], a + b)
  }

  /** What every merged list is: trimmed, without blanks, distinct ignoring case. */
  ghost predicate Clean(r: seq<string>) {
    && (forall i | 0 <= i < |r| :: r[i] != "" && TrimSpace(r[i]) == r[i])
    && (forall i, j | 0 <= i < j < |r| :: ToLower(r[i]) != ToLower(r[j]))
  }

  lemma FoldedAppend(out: seq<string>, t: string)
    ensures Folded(out + [t]) == Folded(out) + {ToLower(t)}
  {
    assert forall u :: u in out + [t] <==> u in out || u == t;
  }

  function Next(out: seq<string>, x: string): seq<string> {
    if Adds(out, x) then out + [TrimSpace(x)] else out
  }

  /** One step of the merge keeps the list clean and has nothing left to add from x. */
  lemma NextKeepsClean(out: seq<string>, x: string)
    requires Clean(out)
    ensures out <= Next(out, x) && Clean(Next(out, x)) && !Adds(Next(out, x), x)
  {
    if Adds(out, x) {
      TrimSpaceTrims(x);
      FoldedAppend(out, TrimSpace(x));
      forall i | 0 <= i < |out|
        ensures ToLower(out[i]) != ToLower(TrimSpace(x))
      {
        assert ToLower(out[i]) in Folded(out);
      }
    }
  }

  lemma FoldedMonotone(a: seq<string>, b: seq<string>, x: string)
    requires a <= b && !Adds(a, x)
    ensures !Adds(b, x)
  {
    assert forall u | u in a :: u in b;
  }

  lemma {:induction false} MergeIntoKeeps(out: seq<string>, xs: seq<string>)
    requires Clean(out)
    ensures out <= MergeInto(out, xs) && Clean(MergeInto(out, xs))
    decreases xs
  {
    if xs != [] {
      NextKeepsClean(out, xs[0]);
      MergeIntoKeeps(Next(out, xs[0]), xs[1..]);
    }
  }

  lemma {:induction false} MergeIntoCovers(out: seq<string>, xs: seq<string>, k: nat)
    requires Clean(out) && k < |xs|
    ensures !Adds(MergeInto(out, xs), xs[k])
    decreases xs
  {
    var next := Next(out, xs[0]);
    NextKeepsClean(out, xs[0]);
    if k == 0 {
      MergeIntoKeeps(next, xs[1..]);
      FoldedMonotone(next, MergeInto(next, xs[1..]), xs[0]);
    } else {
      MergeIntoCovers(next, xs[1..], k - 1);
    }
  }

  lemma {:induction false} MergeIntoNothing(out: seq<string>, xs: seq<string>)
    requires forall x | x in xs :: !Adds(out, x)
    ensures MergeInto(out, xs) == out
    decreases xs
  {
    if xs != [] {
      assert xs[0] in xs && forall x | x in xs[1..] :: x in xs;
      MergeIntoNothing(out, xs[1..]);
    }
  }

  /** The merge of a clean list extends it, stays clean, misses nothing, and grows exactly when something
      new is on offer. */
  lemma MergeIntoExtends(out: seq<string>, xs: seq<string>)
    requires Clean(out)
    ensures out <= MergeInto(out, xs)
    ensures Clean(MergeInto(out, xs))
    ensures forall x | x in xs :: !Adds(MergeInto(out, xs), x)
    ensures (exists x :: x in xs && Adds(out, x)) <==> |MergeInto(out, xs)| > |out|
  {
    MergeIntoKeeps(out, xs);
    forall x | x in xs
      ensures !Adds(MergeInto(out, xs), x)
    {
      var k :| 0 <= k < |xs| && xs[k] == x;
      MergeIntoCovers(out, xs, k);
    }
    if forall x | x in xs :: !Adds(out, x) {
      MergeIntoNothing(out, xs);
    } else {
      assert MergeInto(out, xs) != out;
    }
  }

  /** Nothing comes from nowhere: whatever the merge adds is on offer, trimmed. */
  lemma {:induction false} MergeOnlyOffers(out: seq<string>, xs: seq<string>, r: string)
    requires r in MergeInto(out, xs)
    ensures r in out || exists x :: x in xs && TrimSpace(x) == r
    decreases xs
  {
    if xs != [] {
      assert xs[0] in xs && forall x | x in xs[1..] :: x in xs;
      MergeOnlyOffers(Next(out, xs[0]), xs[1..], r);
    }
  }

  /** Feeding a clean list through the merge reproduces it before anything else is looked at. */
  lemma {:induction false} MergeIntoReplays(a: seq<string>, b: seq<string>, i: nat)
    requires Clean(a) && i <= |a|
    ensures MergeInto(a[..i], a[i..] + b) == MergeInto(a, b)
    decreases |a| - i
  {
    if i == |a| {
      assert a[..i] == a && a[i..] + b == b;
    } else {
      var xs := a[i..] + b;
      assert xs[0] == a[i] && xs[1..] == a[i + 1..] + b;
      assert a[..i] + [a[i]] == a[..i + 1];
      assert ToLower(a[i]) !in Folded(a[..i]);
      MergeIntoReplays(a, b, i + 1);
    }
  }

  lemma MergeKeepsClean(a: seq<string>, b: seq<string>)
    requires Clean(a)
    ensures Merge(a, b) == MergeInto(a, b)
    ensures a <= Merge(a, b) && Clean(Merge(a, b))
  {
    assert a[..0] == [] && a[0..] + b == a + b;
    MergeIntoReplays(a, b, 0);
    MergeIntoExtends(a, b);
  }

  lemma MergeIsClean(a: seq<string>, b: seq<string>)
    ensures Clean(Merge(a, b))
  {
    MergeIntoExtends([], a + b);
  }

  /** Merging is idempotent: the second merge with the same list changes nothing. */
  lemma MergeIdempotent(a: seq<string>, b: seq<string>)
    ensures Merge(Merge(a, b), b) == Merge(a, b)
    ensures Merge(Merge(a, b), a) == Merge(a, b)
  {
    MergeIntoExtends([], a + b);
    var m := Merge(a, b);
    assert forall x | x in a || x in b :: x in a + b;
    MergeKeepsClean(m, b);
    MergeKeepsClean(m, a);
    MergeIntoNothing(m, b);
    MergeIntoNothing(m, a);
  }

  /** The loop of mergeRecipes, which keeps the folded names it has seen in a set. */
  method MergeRecipes(a: seq<string>, b: seq<string>) returns (out: seq<string>)
    ensures out == Merge(a, b)
  {
    out := [];
    var seen: set<string> := {};
    var all := a + b;
    for i := 0 to |all|
      invariant seen == Folded(out)
      invariant MergeInto(out, all[i..]) == Merge(a, b)
    {
      var t := TrimSpace(all[i]);
      assert all[i..][1..] == all[i + 1..];
      if t == "" || ToLower(t) in seen {
        continue;
      }
      FoldedAppend(out, t);
      seen := seen + {ToLower(t)};
      out := out + [t];
    }
    assert all[|all|..] == [];
  }

  /** A catalog hint as seen by one failed job: whether it matched the log, its score, its recipes. */
  datatype HintHit = HintHit(id: string, matched: bool, score: real, recipes: seq<string>)

  /** The hint inferred from the log when no catalog hint supplied a recipe. */
  datatype Inferred = Inferred(id: string, score: real, recipes: seq<string>)

  datatype Fix = Fix(applied: bool, recipes: seq<string>, matched: seq<string>, blocked: seq<string>)

  predicate Usable(h: HintHit, threshold: real) {
    h.matched && h.score >= threshold
  }

  /** A usable catalog hint names recipe r. */
  ghost predicate InCatalog(hints: seq<HintHit>, threshold: real, r: string) {
    r != "" && exists h :: h in hints && Usable(h, threshold) && r in h.recipes
  }

  /** r is offered to the job by a usable catalog hint, or, if none names a recipe, by the inferred hint. */
  ghost predicate Offered(hints: seq<HintHit>, inferred: Option<Inferred>, threshold: real, r: string) {
    if exists c :: InCatalog(hints, threshold, c) then
      InCatalog(hints, threshold, r)
    else
      inferred.Some? && inferred.value.score >= threshold && r in inferred.value.recipes
  }

  /** The hints that matched the log with a score the threshold allows, in order, or those it does not allow. */
  function IDsOf(hints: seq<HintHit>, threshold: real, trusted: bool): seq<string> {
    if hints == [] then []
    else
      var n := |hints| - 1;
      IDsOf(hints[..n], threshold, trusted)
      + (if hints[n].matched && (hints[n].score >= threshold) == trusted then [hints[n].id] else [])
  }

  lemma {:induction false} IDsMember(hints: seq<HintHit>, threshold: real, trusted: bool, id: string)
    ensures id in IDsOf(hints, threshold, trusted) <==>
            exists i :: 0 <= i < |hints| && hints[i].id == id && hints[i].matched && (trusted <==> hints[i].score >= threshold)
  {
    if hints != [] {
      var n := |hints| - 1;
      IDsMember(hints[..n], threshold, trusted, id);
      forall i | 0 <= i < n
        ensures hints[..n][i] == hints[i]
      {
      }
    }
  }

  /** Trimmed, without blanks and without repetitions that differ at most in case, and sorted. */
  function Deduped(xs: seq<string>): seq<string> {
    Sorting.SortStrings(Merge([], xs))
  }

  lemma DedupedIs(xs: seq<string>)
    ensures Sorting.SortedBy(Deduped(xs), Sorting.Identity)
    ensures forall t :: t in Deduped(xs) <==> t in Merge([], xs)
    ensures forall t | t in Deduped(xs) :: t != "" && exists x :: x in xs && TrimSpace(x) == t
    ensures forall x | x in xs :: !Adds(Deduped(xs), x)
  {
    var m := Merge([], xs);
    Sorting.SortSorts(m, Sorting.Identity);
    assert [] + xs == xs;
    MergeIntoExtends([], xs);
    forall t
      ensures t in Deduped(xs) <==> t in m
    {
      assert t in Deduped(xs) <==> t in multiset(Deduped(xs));
    }
    forall t | t in m
      ensures t != "" && exists x :: x in xs && TrimSpace(x) == t
    {
      MergeOnlyOffers([], xs, t);
    }
    assert Folded(Deduped(xs)) == Folded(m);
  }

  method NonEmpty(xs: seq<string>) returns (out: seq<string>)
    ensures forall r :: r in out <==> r in xs && r != ""
  {
    out := [];
    for i := 0 to |xs|
      invariant forall r :: r in out <==> r in xs[..i] && r != ""
    {
      if xs[i] != "" {
        out := out + [xs[i]];
      }
    }
    assert xs[..|xs|] == xs;
  }

  method Dedupe(xs: seq<string>) returns (out: seq<string>)
    ensures out == Deduped(xs)
  {
    var merged := MergeRecipes([], xs);
    out := Sorting.SortStrings(merged);
  }

  /** The recipe side of autoFix: a fix is applied exactly when it offers a recipe the job lacks,
      unless the only hint is inferred and not trusted, in which case nothing is returned. */
  method AutoFix(enabled: bool, job: seq<string>, hints: seq<HintHit>, inferred: Option<Inferred>, threshold: real)
    returns (fix: Fix)
    requires Clean(job)
    ensures fix.applied <==> enabled && exists r :: Offered(hints, inferred, threshold, r) && Adds(job, r)
    ensures fix.applied ==> job < fix.recipes && Clean(fix.recipes)
    ensures fix.applied ==> forall r | Offered(hints, inferred, threshold, r) :: !Adds(fix.recipes, r)
    ensures forall r | r in fix.recipes && r !in job :: exists x :: Offered(hints, inferred, threshold, x) && TrimSpace(x) == r
    ensures !enabled ==> fix == Fix(false, [], [], [])
    ensures enabled ==>
              if (forall c :: !InCatalog(hints, threshold, c)) && inferred.Some? then
                if inferred.value.score < threshold then
                  fix == Fix(false, [], [], Deduped(IDsOf(hints, threshold, false) + [inferred.value.id]))
                else
                  && job <= fix.recipes && fix.blocked == Deduped(IDsOf(hints, threshold, false))
                  && fix.matched == Deduped(IDsOf(hints, threshold, true) + [inferred.value.id])
              else
                && job <= fix.recipes && fix.blocked == Deduped(IDsOf(hints, threshold, false))
                && fix.matched == Deduped(IDsOf(hints, threshold, true))
  {
    if !enabled {
      return Fix(false, [], [], []);
    }
    var matched, blocked, found: seq<string> := [], [], [];
    for i := 0 to |hints|
      invariant forall r :: r in found <==> InCatalog(hints[..i], threshold, r)
      invariant matched == IDsOf(hints[..i], threshold, true) && blocked == IDsOf(hints[..i], threshold, false)
    {
      var h := hints[i];
      assert hints[..i + 1] == hints[..i] + [h] && hints[..i + 1][..i] == hints[..i];
      if !h.matched {
        continue;
      }
      if h.score < threshold {
        blocked := blocked + [h.id];
        continue;
      }
      matched := matched + [h.id];
      var named := NonEmpty(h.recipes);
      found := found + named;
    }
    assert hints[..|hints|] == hints;
    if |found| == 0 {
      if inferred.Some? {
        if inferred.value.score < threshold {
          var all := Dedupe(blocked + [inferred.value.id]);
          return Fix(false, [], [], all);
        }
        matched := matched + [inferred.value.id];
        found := found + inferred.value.recipes;
      }
    } else {
      assert found[0] in found;
    }
    assert forall r :: r in found <==> Offered(hints, inferred, threshold, r);
    MergeKeepsClean(job, found);
    MergeIntoExtends(job, found);
    forall r | r in Merge(job, found) && r !in job
      ensures exists x :: x in found && TrimSpace(x) == r
    {
      MergeOnlyOffers(job, found, r);
    }
    var merged := MergeRecipes(job, found);
    matched := Dedupe(matched);
    blocked := Dedupe(blocked);
    fix := Fix(|merged| > |job|, merged, matched, blocked);
  }
}
