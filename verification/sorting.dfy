/** Sorting by string keys, byte by byte as Go compares strings. */
module Sorting {

  predicate StringLeq(a: string, b: string) {
    a == "" || (b != "" && (a[0] < b[0] || (a[0] == b[0] && StringLeq(a[1..], b[1..]))))
  }

  lemma {:induction false} LeqTotal(a: string, b: string)
    ensures StringLeq(a, b) || StringLeq(b, a)
    ensures StringLeq(a, b) && StringLeq(b, a) ==> a == b
  {
    if a != "" && b != "" && a[0] == b[0] {
      LeqTotal(a[1..], b[1..]);
      assert a == [a[0]] + a[1..] && b == [b[0]] + b[1..];
    }
  }

  lemma {:induction false} LeqTransitive(a: string, b: string, c: string)
    requires StringLeq(a, b) && StringLeq(b, c)
    ensures StringLeq(a, c)
  {
    if a != "" && a[0] == b[0] && b[0] == c[0] {
      LeqTransitive(a[1..], b[1..], c[1..]);
    }
  }

  /** The order is lexicographic: a comes before b if it is a prefix, or smaller where they first differ. */
  lemma {:induction false} LeqIff(a: string, b: string)
    ensures StringLeq(a, b) <==>
            a <= b || exists i :: 0 <= i < |a| && i < |b| && a[..i] == b[..i] && a[i] < b[i]
  {
    if a != "" && b != "" && a[0] == b[0] {
      LeqIff(a[1..], b[1..]);
      assert a == [a[0]] + a[1..] && b == [b[0]] + b[1..];
      forall i | 0 < i < |a| && i < |b|
        ensures a[..i] == b[..i] <==> a[1..][..i - 1] == b[1..][..i - 1]
      {
        assert a[..i] == [a[0]] + a[1..][..i - 1] && b[..i] == [b[0]] + b[1..][..i - 1];
      }
      if i :| 0 <= i < |a[1..]| && i < |b[1..]| && a[1..][..i] == b[1..][..i] && a[1..][i] < b[1..][i] {
        assert a[..i + 1] == b[..i + 1] && a[i + 1] < b[i + 1];
      }
    } else if a != "" && b != "" {
      assert a[..0] == b[..0];
    }
  }

  function Insert<T>(x: T, xs: seq<T>, key: T -> string): seq<T> {
    if xs == [] || StringLeq(key(x), key(xs[0])) then [x] + xs
    else [xs[0]] + Insert(x, xs[1..], key)
  }

  function SortBy<T>(xs: seq<T>, key: T -> string): seq<T> {
    if xs == [] then [] else Insert(xs[0], SortBy(xs[1..], key), key)
  }

  ghost predicate SortedBy<T>(xs: seq<T>, key: T -> string) {
    forall i, j | 0 <= i < j < |xs| :: StringLeq(key(xs[i]), key(xs[j]))
  }

  lemma {:induction false} InsertSorts<T>(x: T, xs: seq<T>, key: T -> string)
    requires SortedBy(xs, key)
    ensures SortedBy(Insert(x, xs, key), key)
    ensures multiset(Insert(x, xs, key)) == multiset{x} + multiset(xs)
  {
    if xs == [] {
    } else if StringLeq(key(x), key(xs[0])) {
      forall j | 0 < j < |xs|
        ensures StringLeq(key(x), key(xs[j]))
      {
        LeqTransitive(key(x), key(xs[0]), key(xs[j]));
      }
    } else {
      InsertSorts(x, xs[1..], key);
      assert xs == [xs[0]] + xs[1..];
      LeqTotal(key(x), key(xs[0]));
      var rest := Insert(x, xs[1..], key);
      forall j | 0 <= j < |rest|
        ensures StringLeq(key(xs[0]), key(rest[j]))
      {
        assert rest[j] in multiset(rest);
        assert rest[j] == x || rest[j] in xs[1..];
      }
    }
  }

  lemma {:induction false} SortSorts<T>(xs: seq<T>, key: T -> string)
    ensures SortedBy(SortBy(xs, key), key)
    ensures multiset(SortBy(xs, key)) == multiset(xs)
  {
    if xs != [] {
      SortSorts(xs[1..], key);
      InsertSorts(xs[0], SortBy(xs[1..], key), key);
      assert xs == [xs[0]] + xs[1..];
    }
  }

  function Identity(s: string): string {
    s
  }

  function SortStrings(xs: seq<string>): seq<string> {
    SortBy(xs, Identity)
  }

  /** A sorted list of strings is determined by its elements. */
  lemma {:induction false} SortedUnique(a: seq<string>, b: seq<string>)
    requires SortedBy(a, Identity) && SortedBy(b, Identity) && multiset(a) == multiset(b)
    ensures a == b
  {
    if a == [] {
      assert |multiset(b)| == 0;
    } else {
      HeadIsLeast(a, b);
      HeadIsLeast(b, a);
      LeqTotal(a[0], b[0]);
      SortedTail(a);
      SortedTail(b);
      SortedUnique(a[1..], b[1..]);
    }
  }

  lemma SortedTail(a: seq<string>)
    requires SortedBy(a, Identity) && a != []
    ensures a == [a[0]] + a[1..]
    ensures SortedBy(a[1..], Identity) && multiset(a[1..]) == multiset(a) - multiset{a[0]}
  {
    assert a == [a[0]] + a[1..];
  }

  lemma HeadIsLeast(a: seq<string>, b: seq<string>)
    requires SortedBy(b, Identity) && multiset(a) == multiset(b) && a != []
    ensures b != [] && StringLeq(b[0], a[0])
  {
    assert a[0] in multiset(b);
    var i :| 0 <= i < |b| && b[i] == a[0];
    LeqTotal(b[0], b[0]);
    assert i > 0 ==> StringLeq(Identity(b[0]), Identity(b[i]));
  }

  lemma SortStringsCanonical(a: seq<string>, b: seq<string>)
    ensures SortStrings(a) == SortStrings(b) <==> multiset(a) == multiset(b)
  {
    SortSorts(a, Identity);
    SortSorts(b, Identity);
    if multiset(a) == multiset(b) {
      SortedUnique(SortStrings(a), SortStrings(b));
    }
  }

  ghost predicate ByScore<T>(xs: seq<T>, score: T -> nat) {
    forall i, j | 0 <= i < j < |xs| :: score(xs[i]) <= score(xs[j])
  }

  predicate Lowest<T(==)>(xs: seq<T>, score: T -> nat, k: nat)
    requires k < |xs|
  {
    forall x | x in xs :: score(xs[k]) <= score(x)
  }

  lemma {:induction false} LowestExists<T>(xs: seq<T>, score: T -> nat)
    requires xs != []
    ensures exists k :: 0 <= k < |xs| && Lowest(xs, score, k)
  {
    var n := |xs| - 1;
    assert xs == xs[..n] + [xs[n]];
    if n == 0 {
      assert Lowest(xs, score, 0);
    } else {
      LowestExists(xs[..n], score);
      var k :| 0 <= k < n && Lowest(xs[..n], score, k);
      assert Lowest(xs, score, if score(xs[k]) <= score(xs[n]) then k else n);
    }
  }

  /** An unstable sort: any order in which the scores do not decrease. */
  method SortUnstable<T(==)>(xs: seq<T>, score: T -> nat) returns (out: seq<T>)
    ensures multiset(out) == multiset(xs)
    ensures ByScore(out, score)
  {
    out := [];
    var rest := xs;
    while rest != []
      invariant multiset(out) + multiset(rest) == multiset(xs)
      invariant ByScore(out, score)
      invariant forall a, b | a in out && b in rest :: score(a) <= score(b)
      decreases |rest|
    {
      LowestExists(rest, score);
      var k :| 0 <= k < |rest| && Lowest(rest, score, k);
      assert rest == rest[..k] + [rest[k]] + rest[k + 1..];
      assert forall b | b in rest[..k] + rest[k + 1..] :: b in rest;
      out := out + [rest[k]];
      rest := rest[..k] + rest[k + 1..];
    }
  }
}
