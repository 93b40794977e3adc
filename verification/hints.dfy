/** Build hints as text: the printer of catalog hints and the parser that turns them into install steps. */
module Hints {
  import opened Text

  const MARKER := "Suggested packages:"

  /** A catalog entry that matched a build log: packages and recipe steps per package manager. */
  datatype CatalogHint = CatalogHint(dnf: seq<string>, apt: seq<string>, dnfRecipes: seq<string>, aptRecipes: seq<string>)

  function Join(sep: string, xs: seq<string>): string {
    if xs == [] then "" else if |xs| == 1 then xs[0] else xs[0] + sep + Join(sep, xs[1..])
  }

  lemma Append3<T>(a: seq<T>, b: seq<T>, c: seq<T>)
    ensures a + b + c == a + (b + c)
  {
  }

  lemma InitOfConcat<T>(xs: seq<T>, ys: seq<T>)
    requires ys != []
    ensures var s := xs + ys; s[..|s| - 1] == xs + ys[..|ys| - 1] && s[|s| - 1] == ys[|ys| - 1] && |s| > 0
  {
  }

  lemma TailOfConcat<T>(xs: seq<T>, ys: seq<T>)
    requires xs != []
    ensures var s := xs + ys; s[1..] == xs[1..] + ys && s[0] == xs[0] && |s| > 0
  {
  }

  // ----- The printer -----

  function Listed(tag: string, packages: seq<string>): seq<string> {
    if packages == [] then [] else [tag + " " + Join(" ", packages)]
  }

  function RecipeText(h: CatalogHint): string {
    Join("; ", h.dnfRecipes + h.aptRecipes)
  }

  function Body(h: CatalogHint): string {
    " " + Join(" | ", Listed("dnf:", h.dnf) + Listed("apt:", h.apt))
    + (if RecipeText(h) == "" then "" else " | Recipes: " + RecipeText(h))
  }

  function HintText(h: CatalogHint): string {
    MARKER + Body(h)
  }

  lemma Literals()
    ensures "dnf: " == "dnf:" + " " && "apt: " == "apt:" + " " && "Suggested packages: " == MARKER + " "
  {
  }

  lemma ListedText(tag: string, packages: seq<string>)
    ensures Listed(tag, packages) == if packages == [] then [] else [(tag + " ") + Join(" ", packages)]
  {
  }

  method HintFromCatalog(h: CatalogHint) returns (text: string)
    ensures text == HintText(h)
  {
    Literals();
    ListedText("dnf:", h.dnf);
    ListedText("apt:", h.apt);
    var parts: seq<string> := [];
    if h.dnf != [] {
      parts := parts + ["dnf: " + Join(" ", h.dnf)];
    }
    assert parts == Listed("dnf:", h.dnf);
    if h.apt != [] {
      parts := parts + ["apt: " + Join(" ", h.apt)];
    }
    assert parts == Listed("dnf:", h.dnf) + Listed("apt:", h.apt);
    var suggestion := Join(" | ", parts);
    var steps: seq<string> := [];
    if h.dnfRecipes != [] {
      steps := steps + h.dnfRecipes;
    }
    if h.aptRecipes != [] {
      steps := steps + h.aptRecipes;
    }
    assert steps == h.dnfRecipes + h.aptRecipes;
    var recipes := Join("; ", steps);
    var tail := if recipes == "" then "" else " | Recipes: " + recipes;
    text := "Suggested packages: " + suggestion + tail;
    Append3(MARKER + " ", suggestion, tail);
    Append3(MARKER, " ", suggestion + tail);
    Append3(" ", suggestion, tail);
  }

  // ----- The parser -----

  /** What follows the last occurrence of m, or all of s. */
  function LastPart(s: string, m: string): string
    requires m != ""
  {
    if !Contains(s, m) then s
    else if m <= s then LastPart(s[|m|..], m)
    else LastPart(s[1..], m)
  }

  function Bars(s: string): (parts: seq<string>)
    ensures parts != []
  {
    if s == "" then [""]
    else if s[0] == '|' then [""] + Bars(s[1..])
    else
      var r := Bars(s[1..]);
      [[s[0]] + r[0]] + r[1..]
  }

  function RemoveAll(s: string, p: string): string
    requires p != ""
  {
    if s == "" then ""
    else if p <= s then RemoveAll(s[|p|..], p)
    else [s[0]] + RemoveAll(s[1..], p)
  }

  function WordEnd(s: string): (n: nat)
    ensures n <= |s| && (s != "" && !IsSpace(s[0]) ==> n > 0)
  {
    if s == "" || IsSpace(s[0]) then 0 else 1 + WordEnd(s[1..])
  }

  /** The maximal runs of characters that are not white space. */
  function Words(s: string): seq<string>
    decreases |s|
  {
    if s == "" then []
    else if IsSpace(s[0]) then Words(s[1..])
    else [s[..WordEnd(s)]] + Words(s[WordEnd(s)..])
  }

  /** The packages one part names for a package manager. */
  function Named(part: string, tag: string): seq<string>
    requires tag != ""
  {
    var p := TrimSpace(part);
    if tag <= p then Words(TrimSpace(RemoveAll(p, tag))) else []
  }

  function AllNamed(parts: seq<string>, tag: string): seq<string>
    requires tag != ""
  {
    if parts == [] then [] else AllNamed(parts[..|parts| - 1], tag) + Named(parts[|parts| - 1], tag)
  }

  function Install(dnf: seq<string>, apt: seq<string>): seq<string> {
    (if dnf == [] then [] else ["dnf install -y " + Join(" ", dnf)])
    + (if apt == [] then [] else ["apt-get update && apt-get install -y " + Join(" ", apt)])
  }

  function Suggestion(hint: string): string {
    TrimSpace(LastPart(hint, MARKER))
  }

  function RecipeSteps(hint: string): seq<string> {
    if Contains(hint, MARKER) then
      Install(AllNamed(Bars(Suggestion(hint)), "dnf:"), AllNamed(Bars(Suggestion(hint)), "apt:"))
    else []
  }

  lemma AllNamedSnoc(parts: seq<string>, i: nat, tag: string)
    requires i < |parts| && tag != ""
    ensures AllNamed(parts[..i + 1], tag) == AllNamed(parts[..i], tag) + Named(parts[i], tag)
  {
    assert parts[..i + 1][..i] == parts[..i];
  }

  method RecipeStepsFromHint(hint: string) returns (steps: seq<string>)
    ensures steps == RecipeSteps(hint)
  {
    steps := [];
    if Contains(hint, MARKER) {
      var parts := Bars(Suggestion(hint));
      var dnf, apt: seq<string> := [], [];
      for i := 0 to |parts|
        invariant dnf == AllNamed(parts[..i], "dnf:") && apt == AllNamed(parts[..i], "apt:")
      {
        AllNamedSnoc(parts, i, "dnf:");
        AllNamedSnoc(parts, i, "apt:");
        var part := TrimSpace(parts[i]);
        if "dnf:" <= part {
          dnf := dnf + Words(TrimSpace(RemoveAll(part, "dnf:")));
        }
        if "apt:" <= part {
          apt := apt + Words(TrimSpace(RemoveAll(part, "apt:")));
        }
      }
      assert parts[..|parts|] == parts;
      if dnf != [] {
        steps := steps + ["dnf install -y " + Join(" ", dnf)];
      }
      if apt != [] {
        steps := steps + ["apt-get update && apt-get install -y " + Join(" ", apt)];
      }
    }
  }

  // ----- Texts that survive the round trip -----

  predicate PlainToken(t: string) {
    t != "" && forall c | c in t :: !IsSpace(c) && c != '|' && c != ':'
  }

  ghost predicate PlainTokens(ts: seq<string>) {
    forall t | t in ts :: PlainToken(t)
  }

  ghost predicate Printable(h: CatalogHint) {
    && PlainTokens(h.dnf) && PlainTokens(h.apt)
    && '|' !in RecipeText(h) && !Contains(RecipeText(h), MARKER)
  }

  // ----- White space at the ends -----

  lemma {:induction false} TrimLeftBlank(u: string, s: string)
    requires forall c | c in u :: IsSpace(c)
    ensures TrimLeft(u + s) == TrimLeft(s)
  {
    if u == "" {
      assert u + s == s;
    } else {
      assert u[0] in u && (u + s)[1..] == u[1..] + s;
      TrimLeftBlank(u[1..], s);
    }
  }

  lemma {:induction false} TrimLeftAppend(s: string, c: char)
    requires IsSpace(c)
    ensures TrimLeft(s + [c]) == if TrimLeft(s) == "" then "" else TrimLeft(s) + [c]
  {
    if s == "" {
      assert s + [c] == [c] && [c][1..] == "";
    } else if IsSpace(s[0]) {
      assert (s + [c])[1..] == s[1..] + [c];
      TrimLeftAppend(s[1..], c);
    }
  }

  lemma TrimAppend(s: string, c: char)
    requires IsSpace(c)
    ensures TrimSpace(s + [c]) == TrimSpace(s)
    ensures TrimSpace([c] + s) == TrimSpace(s)
  {
    TrimLeftAppend(s, c);
    TrimLeftBlank([c], s);
    var t := TrimLeft(s);
    if t != "" {
      assert (t + [c])[..|t + [c]| - 1] == t;
    }
  }

  /** A part that reads the same after trimming, with a space on one side or both. */
  lemma TrimSpaced(s: string)
    requires s != "" && Trimmed(s)
    ensures TrimSpace(s) == s && TrimSpace(" " + s) == s && TrimSpace(s + " ") == s && TrimSpace(" " + s + " ") == s
  {
    TrimAppend(s, ' ');
    TrimAppend(" " + s, ' ');
  }

  // ----- Parts -----

  /** The parts as the parser looks at them. */
  function Parts(s: string): seq<string> {
    TrimAll(Bars(s))
  }

  function TrimAll(xs: seq<string>): seq<string> {
    if xs == [] then [] else [TrimSpace(xs[0])] + TrimAll(xs[1..])
  }

  lemma {:induction false} BarsConcat(a: string, b: string)
    requires '|' !in a
    ensures Bars(a + "|" + b) == [a] + Bars(b)
    ensures Bars(a) == [a]
  {
    if a == "" {
      assert a + "|" + b == "|" + b;
    } else {
      assert a[0] in a && forall c | c in a[1..] :: c in a;
      assert (a + "|" + b)[1..] == a[1..] + "|" + b;
      BarsConcat(a[1..], b);
      assert [a[0]] + a[1..] == a;
      assert ([a[1..]] + Bars(b))[1..] == Bars(b);
    }
  }

  /** The parts with c appended to the last one. */
  function Appended(parts: seq<string>, c: char): (r: seq<string>)
    requires parts != []
    ensures |r| == |parts|
  {
    parts[..|parts| - 1] + [parts[|parts| - 1] + [c]]
  }

  lemma AppendedLater(p: string, t: seq<string>, c: char)
    requires t != []
    ensures Appended([p] + t, c) == [p] + Appended(t, c)
  {
    InitOfConcat([p], t);
    Append3([p], t[..|t| - 1], [t[|t| - 1] + [c]]);
  }

  /** The first part with a character put in front. */
  function Begun(c: char, parts: seq<string>): (r: seq<string>)
    requires parts != []
    ensures |r| == |parts|
  {
    [[c] + parts[0]] + parts[1..]
  }

  lemma BegunAppended(b: char, t: seq<string>, c: char)
    requires t != []
    ensures Begun(b, Appended(t, c)) == Appended(Begun(b, t), c)
  {
    if |t| == 1 {
      Append3([b], t[0], [c]);
    } else {
      var init, last := t[..|t| - 1], [t[|t| - 1] + [c]];
      TailOfConcat(init, last);
      InitOfConcat([[b] + t[0]], t[1..]);
      assert init[1..] == t[1..][..|t| - 2];
    }
  }

  lemma {:induction false} BarsAppend(s: string, c: char)
    requires c != '|'
    ensures Bars(s + [c]) == Appended(Bars(s), c)
  {
    if s == "" {
      assert s + [c] == [c] && [c] + "" == [c] && "" + [c] == [c];
      assert Bars([c][1..]) == [""] && [""][..0] == [] && [""][0] + [c] == [c];
      assert Bars([c]) == [[c]];
    } else {
      TailOfConcat(s, [c]);
      BarsAppend(s[1..], c);
      if s[0] == '|' {
        AppendedLater("", Bars(s[1..]), c);
      } else {
        BegunAppended(s[0], Bars(s[1..]), c);
      }
    }
  }

  lemma {:induction false} TrimAllConcat(a: seq<string>, b: seq<string>)
    ensures TrimAll(a + b) == TrimAll(a) + TrimAll(b)
  {
    if a == [] {
      assert a + b == b;
    } else {
      assert (a + b)[1..] == a[1..] + b;
      TrimAllConcat(a[1..], b);
    }
  }

  lemma PartsIgnoreSpace(s: string, c: char)
    requires IsSpace(c)
    ensures Parts([c] + s) == Parts(s) && Parts(s + [c]) == Parts(s)
  {
    var r := Bars(s);
    assert ([c] + s)[1..] == s;
    TrimAppend(r[0], c);
    assert Bars([c] + s) == [[c] + r[0]] + r[1..];
    assert TrimAll(r) == [TrimSpace(r[0])] + TrimAll(r[1..]);
    assert ([[c] + r[0]] + r[1..])[1..] == r[1..];
    BarsAppend(s, c);
    var init, last := r[..|r| - 1], r[|r| - 1];
    TrimAppend(last, c);
    TrimAllConcat(init, [last]);
    TrimAllConcat(init, [last + [c]]);
    assert init + [last] == r;
  }

  lemma {:induction false} PartsOfTrimLeft(s: string)
    ensures Parts(TrimLeft(s)) == Parts(s)
  {
    if s != "" && IsSpace(s[0]) {
      PartsOfTrimLeft(s[1..]);
      PartsIgnoreSpace(s[1..], s[0]);
      assert [s[0]] + s[1..] == s;
    }
  }

  lemma {:induction false} PartsOfTrimRight(s: string)
    ensures Parts(TrimRight(s)) == Parts(s)
  {
    if s != "" && IsSpace(s[|s| - 1]) {
      var n := |s| - 1;
      PartsOfTrimRight(s[..n]);
      PartsIgnoreSpace(s[..n], s[n]);
      assert s[..n] + [s[n]] == s;
    }
  }

  /** Trimming the whole suggestion first makes no difference to its parts. */
  lemma PartsOfTrim(s: string)
    ensures Parts(TrimSpace(s)) == Parts(s)
  {
    PartsOfTrimLeft(s);
    PartsOfTrimRight(TrimLeft(s));
  }

  lemma {:induction false} NamedOfParts(xs: seq<string>, ys: seq<string>, tag: string)
    requires tag != "" && TrimAll(xs) == TrimAll(ys)
    ensures AllNamed(xs, tag) == AllNamed(ys, tag)
  {
    TrimAllLength(xs);
    TrimAllLength(ys);
    if xs != [] {
      var n := |xs| - 1;
      assert xs == xs[..n] + [xs[n]] && ys == ys[..n] + [ys[n]];
      TrimAllConcat(xs[..n], [xs[n]]);
      TrimAllConcat(ys[..n], [ys[n]]);
      TrimAllLength(xs[..n]);
      TrimAllLength(ys[..n]);
      assert TrimAll(xs)[..n] == TrimAll(xs[..n]) && TrimAll(ys)[..n] == TrimAll(ys[..n]);
      assert TrimAll(xs)[n] == TrimSpace(xs[n]) && TrimAll(ys)[n] == TrimSpace(ys[n]);
      NamedOfParts(xs[..n], ys[..n], tag);
    }
  }

  lemma {:induction false} TrimAllLength(xs: seq<string>)
    ensures |TrimAll(xs)| == |xs|
  {
    if xs != [] {
      TrimAllLength(xs[1..]);
    }
  }

  // ----- Words and tags -----

  lemma {:induction false} WordEndAt(t: string, rest: string)
    requires (forall c | c in t :: !IsSpace(c)) && (rest == "" || IsSpace(rest[0]))
    ensures WordEnd(t + rest) == |t|
  {
    if t == "" {
      assert t + rest == rest;
    } else {
      assert t[0] in t && (t + rest)[1..] == t[1..] + rest;
      WordEndAt(t[1..], rest);
    }
  }

  lemma {:induction false} WordsOfJoin(ts: seq<string>)
    requires PlainTokens(ts)
    ensures Words(Join(" ", ts)) == ts
  {
    if ts != [] {
      var t := ts[0];
      assert t in ts && t[0] in t;
      if |ts| == 1 {
        WordEndAt(t, "");
        assert t + "" == t && t[|t|..] == "" && Words(t) == [t] + Words("");
      } else {
        var rest := Join(" ", ts[1..]);
        WordEndAt(t, " " + rest);
        var s := t + (" " + rest);
        assert Join(" ", ts) == s && s[..|t|] == t && s[|t|..] == " " + rest && (" " + rest)[1..] == rest;
        WordsOfJoin(ts[1..]);
      }
    }
  }

  lemma {:induction false} JoinPlain(ts: seq<string>)
    requires PlainTokens(ts) && ts != []
    ensures var s := Join(" ", ts); s != "" && Trimmed(s) && '|' !in s && ':' !in s
  {
    var t := ts[0];
    assert t in ts && t[0] in t && t[|t| - 1] in t;
    if |ts| > 1 {
      JoinPlain(ts[1..]);
    }
  }

  lemma {:induction false} RemoveNothing(s: string, p: string)
    requires p != "" && p[|p| - 1] == ':' && ':' !in s
    ensures RemoveAll(s, p) == s
  {
    if s != "" {
      assert p[|p| - 1] !in s;
      assert s == [s[0]] + s[1..];
      RemoveNothing(s[1..], p);
    }
  }

  predicate IsTag(tag: string) {
    tag == "dnf:" || tag == "apt:"
  }

  lemma PartShape(tag: string, s: string)
    requires IsTag(tag) && s != "" && Trimmed(s) && '|' !in s
    ensures var part := tag + " " + s;
            && Trimmed(part) && '|' !in part
            && part[..4] == tag && part[4..] == " " + s
  {
  }

  lemma OwnNamed(part: string, tag: string, ts: seq<string>)
    requires IsTag(tag) && Trimmed(part) && |part| > 4 && part[..4] == tag
    requires PlainTokens(ts) && ts != [] && part[4..] == " " + Join(" ", ts)
    ensures Named(part, tag) == ts
  {
    var s := Join(" ", ts);
    TrimSpaced(part);
    JoinPlain(ts);
    RemoveNothing(" " + s, tag);
    TrimSpaced(s);
    WordsOfJoin(ts);
  }

  lemma OtherNamed(part: string, tag: string, other: string)
    requires IsTag(other) && |tag| == 4 && other != tag && Trimmed(part) && |part| > 4 && part[..4] == tag
    ensures Named(part, other) == []
  {
    TrimSpaced(part);
    assert |other| == 4;
    assert part[..4] != other;
  }

  /** A printed part gives back its packages under its own tag and nothing under the other. */
  lemma PartRead(tag: string, other: string, ts: seq<string>)
    requires PlainTokens(ts) && ts != [] && IsTag(tag) && IsTag(other) && other != tag
    ensures var part := tag + " " + Join(" ", ts);
            && part != "" && Trimmed(part) && '|' !in part
            && Named(part, tag) == ts && Named(part, other) == []
  {
    JoinPlain(ts);
    PartShape(tag, Join(" ", ts));
    var part := tag + " " + Join(" ", ts);
    OwnNamed(part, tag, ts);
    OtherNamed(part, tag, other);
  }

  lemma TrimKeepsFirst(s: string)
    requires s != "" && !IsSpace(s[0])
    ensures TrimSpace(s) != "" && TrimSpace(s)[0] == s[0]
  {
    KeepsFirst(s);
    TrimRightKeepsHead(s);
  }

  lemma {:induction false} KeepsFirst(s: string)
    requires s != "" && !IsSpace(s[0])
    ensures TrimRight(s) != ""
  {
    if IsSpace(s[|s| - 1]) {
      KeepsFirst(s[..|s| - 1]);
    }
  }

  /** The recipe part is read as no packages at all. */
  lemma RecipesRead(text: string)
    ensures Named(" Recipes: " + text, "dnf:") == [] && Named(" Recipes: " + text, "apt:") == []
  {
    var s := "Recipes: " + text;
    assert " Recipes: " + text == [' '] + s;
    TrimAppend(s, ' ');
    TrimKeepsFirst(s);
  }

  // ----- The marker -----

  /** p occurs in s at position i. */
  predicate At(s: string, p: string, i: nat) {
    i + |p| <= |s| && forall k | 0 <= k < |p| :: s[i + k] == p[k]
  }

  lemma AtIff(s: string, p: string, i: nat)
    ensures At(s, p, i) <==> i <= |s| && p <= s[i..]
  {
    if At(s, p, i) {
      assert p == s[i..][..|p|];
    }
  }

  lemma ContainsAt(s: string, p: string)
    ensures Contains(s, p) <==> exists i: nat :: At(s, p, i)
  {
    ContainsIff(s, p);
    forall i: nat
      ensures At(s, p, i) <==> i <= |s| && p <= s[i..]
    {
      AtIff(s, p, i);
    }
  }

  lemma MarkerChars()
    ensures |MARKER| == 19 && MARKER[0] == 'S' && MARKER[18] == ':'
    ensures forall k | 0 <= k < |MARKER| :: MARKER[k] != '|'
  {
  }

  lemma AtLeft(a: string, b: string, p: string, i: nat)
    requires i + |p| <= |a|
    ensures At(a + b, p, i) <==> At(a, p, i)
  {
    forall k | 0 <= k < |p|
      ensures (a + b)[i + k] == p[k] <==> a[i + k] == p[k]
    {
    }
  }

  lemma AtRight(a: string, b: string, p: string, i: nat)
    requires i >= |a|
    ensures At(a + b, p, i) <==> At(b, p, i - |a|)
  {
    if i + |p| <= |a + b| {
      forall k | 0 <= k < |p|
        ensures (a + b)[i + k] == p[k] <==> b[i - |a| + k] == p[k]
      {
      }
    }
  }

  lemma Differs(s: string, p: string, i: nat, k: nat)
    requires k < |p| && (i + k < |s| ==> s[i + k] != p[k])
    ensures !At(s, p, i)
  {
  }

  /** A text without bars that is not in a and not in b is not in both joined by a bar. */
  lemma AcrossBar(a: string, b: string, p: string)
    requires !Contains(a, p) && !Contains(b, p) && '|' !in p
    ensures !Contains(a + "|" + b, p)
  {
    var s, n := a + "|" + b, |a|;
    ContainsAt(a, p);
    ContainsAt(b, p);
    ContainsAt(s, p);
    forall i: nat
      ensures !At(s, p, i)
    {
      if i > n {
        AtRight(a + "|", b, p, i);
      } else if i + |p| <= n {
        AtLeft(a + "|", b, p, i);
        AtLeft(a, "|", p, i);
      } else {
        assert p[n - i] in p && s[n] == '|';
        Differs(s, p, i, n - i);
      }
    }
  }

  /** A text whose last character does not occur late enough in s is not in s. */
  lemma TooEarly(s: string, p: string, c: char)
    requires p != "" && p[|p| - 1] == c && forall i | |p| - 1 <= i < |s| :: s[i] != c
    ensures !Contains(s, p)
  {
    ContainsAt(s, p);
    forall i: nat
      ensures !At(s, p, i)
    {
      Differs(s, p, i, |p| - 1);
    }
  }

  /** A text that starts with a character the head lacks is in head + s only if it is in s. */
  lemma NotInHead(head: string, s: string, p: string)
    requires p != "" && p[0] !in head && !Contains(s, p)
    ensures !Contains(head + s, p)
  {
    ContainsAt(s, p);
    ContainsAt(head + s, p);
    forall i: nat
      ensures !At(head + s, p, i)
    {
      if i < |head| {
        assert (head + s)[i] == head[i] && head[i] in head;
        Differs(head + s, p, i, 0);
      } else {
        AtRight(head, s, p, i);
      }
    }
  }

  lemma MarkerAcrossBar(a: string, b: string)
    requires !Contains(a, MARKER) && !Contains(b, MARKER)
    ensures !Contains(a + "|" + b, MARKER)
  {
    MarkerChars();
    AcrossBar(a, b, MARKER);
  }

  /** The only colon of a printed part is its fifth character: too early for the marker. */
  lemma NoMarkerInPart(s: string)
    requires forall i | 8 <= i < |s| :: s[i] != ':'
    ensures !Contains(s, MARKER)
  {
    MarkerChars();
    TooEarly(s, MARKER, ':');
  }

  lemma NoMarkerInRecipes(text: string)
    requires !Contains(text, MARKER)
    ensures !Contains(" Recipes: " + text, MARKER)
  {
    MarkerChars();
    NotInHead(" Recipes: ", text, MARKER);
  }

  // ----- The round trip -----

  /** A body made of parts between bars. */
  function Barred(segments: seq<string>): string {
    if segments == [] then "" else if |segments| == 1 then segments[0] else segments[0] + "|" + Barred(segments[1..])
  }

  lemma {:induction false} BarsOfBarred(segments: seq<string>)
    requires segments != [] && forall s | s in segments :: '|' !in s
    ensures Bars(Barred(segments)) == segments
  {
    assert segments[0] in segments;
    if |segments| == 1 {
      BarsConcat(segments[0], "");
    } else {
      BarsConcat(segments[0], Barred(segments[1..]));
      BarsOfBarred(segments[1..]);
    }
  }

  lemma {:induction false} NoMarkerInBarred(segments: seq<string>)
    requires segments != [] && forall s | s in segments :: !Contains(s, MARKER)
    ensures !Contains(Barred(segments), MARKER)
  {
    assert segments[0] in segments;
    if |segments| > 1 {
      NoMarkerInBarred(segments[1..]);
      MarkerAcrossBar(segments[0], Barred(segments[1..]));
    }
  }

  function Padded(tag: string, ts: seq<string>, last: bool): string {
    " " + (tag + " " + Join(" ", ts)) + (if last then "" else " ")
  }

  /** The body of a printed hint, cut at its bars. */
  function Segments(h: CatalogHint): seq<string> {
    var recipes := RecipeSegments(h);
    if h.dnf == [] && h.apt == [] then [if recipes == [] then " " else "  "] + recipes
    else
      (if h.dnf == [] then [] else [Padded("dnf:", h.dnf, h.apt == [] && recipes == [])])
      + (if h.apt == [] then [] else [Padded("apt:", h.apt, recipes == [])])
      + recipes
  }

  lemma BodyIsBarred(h: CatalogHint)
    ensures Body(h) == Barred(Segments(h))
  {
    var d, a := "dnf:" + " " + Join(" ", h.dnf), "apt:" + " " + Join(" ", h.apt);
    var r := " Recipes: " + RecipeText(h);
    assert " | Recipes: " + RecipeText(h) == " " + "|" + r;
    if h.dnf == [] && h.apt == [] {
      assert Join(" | ", Listed("dnf:", h.dnf) + Listed("apt:", h.apt)) == "";
      assert [" "] + [] == [" "];
      assert RecipeText(h) != "" ==> Body(h) == "  " + "|" + r && Segments(h)[1..] == [r];
    } else if h.apt == [] {
      assert Listed("dnf:", h.dnf) + Listed("apt:", h.apt) == [d];
      if RecipeText(h) == "" {
        assert Segments(h) == [Padded("dnf:", h.dnf, true)];
      } else {
        assert Segments(h) == [Padded("dnf:", h.dnf, false), r] && Segments(h)[1..] == [r];
        assert Body(h) == (" " + d + " ") + "|" + r;
      }
    } else if h.dnf == [] {
      assert Listed("dnf:", h.dnf) + Listed("apt:", h.apt) == [a];
      if RecipeText(h) == "" {
        assert Segments(h) == [Padded("apt:", h.apt, true)];
      } else {
        assert Segments(h) == [Padded("apt:", h.apt, false), r] && Segments(h)[1..] == [r];
        assert Body(h) == (" " + a + " ") + "|" + r;
      }
    } else {
      BothBarred(h, d, a, r);
    }
  }

  lemma BothBarred(h: CatalogHint, d: string, a: string, r: string)
    requires h.dnf != [] && h.apt != []
    requires d == "dnf:" + " " + Join(" ", h.dnf) && a == "apt:" + " " + Join(" ", h.apt) && r == " Recipes: " + RecipeText(h)
    requires " | Recipes: " + RecipeText(h) == " " + "|" + r
    ensures Body(h) == Barred(Segments(h))
  {
    assert Listed("dnf:", h.dnf) + Listed("apt:", h.apt) == [d, a];
    JoinTwo(d, a);
    assert Padded("dnf:", h.dnf, false) == " " + d + " ";
    if RecipeText(h) == "" {
      assert Padded("apt:", h.apt, true) == " " + a;
      assert Segments(h) == [" " + d + " ", " " + a];
      BarredTwo(" " + d + " ", " " + a);
      BarBetween(d, a);
    } else {
      assert Padded("apt:", h.apt, false) == " " + a + " ";
      assert Segments(h) == [" " + d + " ", " " + a + " ", r];
      BarredThree(" " + d + " ", " " + a + " ", r);
      BarsBetween(d, a, r);
    }
  }

  lemma BarBetween(d: string, a: string)
    ensures " " + (d + " | " + a) == (" " + d + " ") + "|" + (" " + a)
  {
  }

  lemma BarsBetween(d: string, a: string, r: string)
    ensures " " + (d + " | " + a) + (" " + "|" + r) == (" " + d + " ") + "|" + ((" " + a + " ") + "|" + r)
  {
  }

  lemma JoinTwo(d: string, a: string)
    ensures Join(" | ", [d, a]) == d + " | " + a
  {
    assert [d, a][1..] == [a];
  }

  lemma BarredTwo(x: string, y: string)
    ensures Barred([x, y]) == x + "|" + y
  {
    assert [x, y][1..] == [y];
  }

  lemma BarredThree(x: string, y: string, z: string)
    ensures Barred([x, y, z]) == x + "|" + (y + "|" + z)
  {
    assert [x, y, z][1..] == [y, z];
    BarredTwo(y, z);
  }

  /** What each segment is: free of bars and marker, and what it names. */
  lemma PaddedRead(tag: string, other: string, ts: seq<string>, last: bool)
    requires PlainTokens(ts) && ts != [] && IsTag(tag) && IsTag(other) && other != tag
    ensures var s := Padded(tag, ts, last);
            '|' !in s && !Contains(s, MARKER) && Named(s, tag) == ts && Named(s, other) == []
  {
    var part := tag + " " + Join(" ", ts);
    PartRead(tag, other, ts);
    TrimSpaced(part);
    JoinPlain(ts);
    var s := Padded(tag, ts, last);
    assert s == if last then " " + part else " " + part + " ";
    assert forall i | 6 <= i < |part| + 1 :: s[i] == Join(" ", ts)[i - 6];
    NoMarkerInPart(s);
  }

  lemma {:induction false} AllNamedConcat(xs: seq<string>, ys: seq<string>, tag: string)
    requires tag != ""
    ensures AllNamed(xs + ys, tag) == AllNamed(xs, tag) + AllNamed(ys, tag)
  {
    if ys == [] {
      assert xs + ys == xs;
    } else {
      var n := |ys| - 1;
      InitOfConcat(xs, ys);
      AllNamedConcat(xs, ys[..n], tag);
      Append3(AllNamed(xs, tag), AllNamed(ys[..n], tag), Named(ys[n], tag));
    }
  }

  lemma AllNamedOne(s: string, tag: string)
    requires tag != ""
    ensures AllNamed([s], tag) == Named(s, tag)
  {
    assert [s][..0] == [];
  }

  function RecipeSegments(h: CatalogHint): seq<string> {
    if RecipeText(h) == "" then [] else [" Recipes: " + RecipeText(h)]
  }

  /** A segment list that names packages and can be cut at its bars again. */
  ghost predicate Reads(segments: seq<string>, tag: string, packages: seq<string>) {
    && tag != ""
    && AllNamed(segments, tag) == packages
    && forall s | s in segments :: '|' !in s && !Contains(s, MARKER)
  }

  lemma ReadsConcat(a: seq<string>, b: seq<string>, tag: string, p: seq<string>, q: seq<string>)
    requires Reads(a, tag, p) && Reads(b, tag, q)
    ensures Reads(a + b, tag, p + q)
  {
    AllNamedConcat(a, b, tag);
  }

  lemma RecipeSegmentsRead(h: CatalogHint, tag: string)
    requires Printable(h) && IsTag(tag)
    ensures Reads(RecipeSegments(h), tag, [])
  {
    if RecipeText(h) != "" {
      RecipesRead(RecipeText(h));
      NoMarkerInRecipes(RecipeText(h));
      AllNamedOne(" Recipes: " + RecipeText(h), tag);
    }
  }

  lemma BlankRead(blank: string, tag: string)
    requires blank in {" ", "  "} && IsTag(tag)
    ensures Reads([blank], tag, [])
  {
    NoMarkerInPart(blank);
    assert blank[1..] == "" || blank[1..][1..] == "";
    assert TrimSpace(blank) == "";
    AllNamedOne(blank, tag);
  }

  lemma PaddedSegmentRead(own: string, ts: seq<string>, last: bool, tag: string)
    requires PlainTokens(ts) && IsTag(tag) && IsTag(own)
    ensures Reads(if ts == [] then [] else [Padded(own, ts, last)], tag, if tag == own then ts else [])
  {
    if ts != [] {
      PaddedRead(own, if own == "dnf:" then "apt:" else "dnf:", ts, last);
      AllNamedOne(Padded(own, ts, last), tag);
    }
  }

  lemma SegmentsRead(h: CatalogHint, tag: string)
    requires Printable(h) && IsTag(tag)
    ensures Reads(Segments(h), tag, if tag == "dnf:" then h.dnf else h.apt)
  {
    var r := RecipeSegments(h);
    RecipeSegmentsRead(h, tag);
    if h.dnf == [] && h.apt == [] {
      var blank := if r == [] then " " else "  ";
      BlankRead(blank, tag);
      ReadsConcat([blank], r, tag, [], []);
    } else {
      var d := if h.dnf == [] then [] else [Padded("dnf:", h.dnf, h.apt == [] && r == [])];
      var a := if h.apt == [] then [] else [Padded("apt:", h.apt, r == [])];
      PaddedSegmentRead("dnf:", h.dnf, h.apt == [] && r == [], tag);
      PaddedSegmentRead("apt:", h.apt, r == [], tag);
      var p, q := if tag == "dnf:" then h.dnf else [], if tag == "apt:" then h.apt else [];
      ReadsConcat(d, a, tag, p, q);
      ReadsConcat(d + a, r, tag, p + q, []);
      assert p + q + [] == if tag == "dnf:" then h.dnf else h.apt;
    }
  }

  // ----- Main results -----

  /** The installation commands for packages of each manager. */
  ghost predicate Installs(steps: seq<string>, dnf: seq<string>, apt: seq<string>) {
    var d, a := "dnf install -y " + Join(" ", dnf), "apt-get update && apt-get install -y " + Join(" ", apt);
    if dnf != [] && apt != [] then steps == [d, a]
    else if dnf != [] then steps == [d]
    else if apt != [] then steps == [a]
    else steps == []
  }

  lemma {:induction false} JoinConcat(sep: string, xs: seq<string>, ys: seq<string>)
    requires xs != [] && ys != []
    ensures Join(sep, xs + ys) == Join(sep, xs) + sep + Join(sep, ys)
    ensures Join(sep, [xs[0]]) == xs[0]
  {
    if |xs| == 1 {
      assert (xs + ys)[1..] == ys;
    } else {
      TailOfConcat(xs, ys);
      JoinConcat(sep, xs[1..], ys);
      Append3(xs[0], sep, Join(sep, xs[1..]));
      Append3(xs[0] + sep, Join(sep, xs[1..]), sep);
      Append3(xs[0] + sep, Join(sep, xs[1..]) + sep, Join(sep, ys));
    }
  }

  /** What the recipes add at the end of a hint. */
  function Tail(h: CatalogHint): string {
    var recipes := Join("; ", h.dnfRecipes + h.aptRecipes);
    if recipes == "" then "" else " | Recipes: " + recipes
  }

  lemma OneListed(prefix: string, tag: string, list: string, tail: string)
    requires prefix == MARKER + " " + tag + " "
    ensures MARKER + (" " + (tag + " " + list) + tail) == prefix + list + tail
  {
  }

  lemma TwoListed(one: string, two: string, tail: string)
    ensures MARKER + (" " + (("dnf:" + " " + one) + " | " + ("apt:" + " " + two)) + tail)
            == "Suggested packages: dnf: " + one + (" | apt: " + two) + tail
  {
    var rest := " | " + ("apt:" + " " + two);
    assert " | apt: " == " | " + "apt:" + " ";
    assert rest == " | apt: " + two;
    assert "Suggested packages: dnf: " == MARKER + " " + "dnf:" + " ";
    OneListed("Suggested packages: dnf: ", "dnf:", one, rest + tail);
    assert " " + (("dnf:" + " " + one) + rest) + tail == " " + ("dnf:" + " " + one) + (rest + tail);
  }

  /** The text of a hint, for each choice of package managers. */
  lemma HintTextIs(h: CatalogHint)
    ensures h.dnf != [] && h.apt != [] ==>
              HintText(h) == "Suggested packages: dnf: " + Join(" ", h.dnf) + (" | apt: " + Join(" ", h.apt)) + Tail(h)
    ensures h.dnf != [] && h.apt == [] ==> HintText(h) == "Suggested packages: dnf: " + Join(" ", h.dnf) + Tail(h)
    ensures h.dnf == [] && h.apt != [] ==> HintText(h) == "Suggested packages: apt: " + Join(" ", h.apt) + Tail(h)
    ensures h.dnf == [] && h.apt == [] ==> HintText(h) == "Suggested packages: " + Tail(h)
  {
    var d, a := "dnf:" + " " + Join(" ", h.dnf), "apt:" + " " + Join(" ", h.apt);
    var listed := Listed("dnf:", h.dnf) + Listed("apt:", h.apt);
    if h.dnf != [] && h.apt != [] {
      assert listed == [d, a];
      JoinTwo(d, a);
      TwoListed(Join(" ", h.dnf), Join(" ", h.apt), Tail(h));
    } else if h.dnf != [] {
      assert listed == [d];
      OneListed("Suggested packages: dnf: ", "dnf:", Join(" ", h.dnf), Tail(h));
    } else if h.apt != [] {
      assert listed == [a];
      OneListed("Suggested packages: apt: ", "apt:", Join(" ", h.apt), Tail(h));
    } else {
      assert listed == [] && " " + "" == " ";
      Append3(MARKER, " ", Tail(h));
    }
  }

  /** A text that contains the marker is cut after one of its occurrences, and none follows. */
  lemma {:induction false} LastPartIs(s: string, m: string) returns (before: string)
    requires m != "" && Contains(s, m)
    ensures s == before + m + LastPart(s, m) && !Contains(LastPart(s, m), m)
    decreases |s|
  {
    if m <= s {
      var rest := s[|m|..];
      assert s == m + rest && LastPart(s, m) == LastPart(rest, m);
      if Contains(rest, m) {
        var b := LastPartIs(rest, m);
        before := m + b;
        Append3(m, b, m);
        Append3(m, b + m, LastPart(rest, m));
      } else {
        before := "";
        assert before + m == m && LastPart(rest, m) == rest;
      }
    } else {
      var b := LastPartIs(s[1..], m);
      before := [s[0]] + b;
      assert s == [s[0]] + s[1..];
      Append3([s[0]], b, m);
      Append3([s[0]], b + m, LastPart(s[1..], m));
    }
  }

  lemma LaterMarker(a: string, r: string, b: string, q: string)
    requires a + MARKER + r == b + MARKER + q && |a| < |b|
    ensures Contains(r, MARKER)
  {
    MarkerChars();
    var s, k := a + MARKER + r, |b| - |a|;
    assert s[|a| + k] == 'S';
    assert forall j | 0 < j < 19 :: s[|a| + j] == MARKER[j] && MARKER[j] != 'S';
    assert k >= 19;
    forall j | 0 <= j < 19
      ensures r[k - 19 + j] == MARKER[j]
    {
      assert s[|b| + j] == MARKER[j];
    }
    assert At(r, MARKER, k - 19);
    ContainsAt(r, MARKER);
  }

  /** What follows the last marker does not depend on what comes before it. */
  lemma AfterMarker(before: string, body: string)
    requires !Contains(body, MARKER)
    ensures Contains(before + MARKER + body, MARKER) && LastPart(before + MARKER + body, MARKER) == body
  {
    var s := before + MARKER + body;
    assert At(s, MARKER, |before|);
    ContainsAt(s, MARKER);
    var b := LastPartIs(s, MARKER);
    if |b| < |before| {
      LaterMarker(b, LastPart(s, MARKER), before, body);
    } else if |before| < |b| {
      LaterMarker(before, body, b, LastPart(s, MARKER));
    }
    assert LastPart(s, MARKER) == s[|b| + |MARKER|..] && body == s[|before| + |MARKER|..];
  }

  /** Packages of one manager, as one part of a hint. */
  datatype Part = Part(tag: string, packages: seq<string>)

  ghost predicate PlainParts(parts: seq<Part>) {
    forall p | p in parts :: IsTag(p.tag) && p.packages != [] && PlainTokens(p.packages)
  }

  function PartTexts(parts: seq<Part>): seq<string> {
    if parts == [] then [] else [Padded(parts[0].tag, parts[0].packages, false)] + PartTexts(parts[1..])
  }

  function PackagesOf(parts: seq<Part>, tag: string): seq<string> {
    if parts == [] then []
    else (if parts[0].tag == tag then parts[0].packages else []) + PackagesOf(parts[1..], tag)
  }

  lemma {:induction false} PartsRead(parts: seq<Part>, tag: string)
    requires PlainParts(parts) && IsTag(tag)
    ensures Reads(PartTexts(parts), tag, PackagesOf(parts, tag))
  {
    if parts != [] {
      assert parts[0] in parts && forall p | p in parts[1..] :: p in parts;
      PartsRead(parts[1..], tag);
      var own := if parts[0].tag == tag then parts[0].packages else [];
      PaddedSegmentRead(parts[0].tag, parts[0].packages, false, tag);
      ReadsConcat([Padded(parts[0].tag, parts[0].packages, false)], PartTexts(parts[1..]), tag, own,
                  PackagesOf(parts[1..], tag));
    }
  }

  lemma StepsOfSegments(before: string, segments: seq<string>, dnf: seq<string>, apt: seq<string>)
    requires segments != [] && Reads(segments, "dnf:", dnf) && Reads(segments, "apt:", apt)
    ensures Installs(RecipeSteps(before + MARKER + Barred(segments)), dnf, apt)
  {
    var body := Barred(segments);
    NoMarkerInBarred(segments);
    BarsOfBarred(segments);
    AfterMarker(before, body);
    PartsOfTrim(body);
    NamedOfParts(Bars(Suggestion(before + MARKER + body)), Bars(body), "dnf:");
    NamedOfParts(Bars(Suggestion(before + MARKER + body)), Bars(body), "apt:");
  }

  /** Whatever comes before the marker, and however often a manager is named after it, the steps install the
      packages of all its parts in their order. */
  lemma ParseParts(before: string, parts: seq<Part>)
    requires PlainParts(parts) && parts != []
    ensures Installs(RecipeSteps(before + MARKER + Barred(PartTexts(parts))),
                     PackagesOf(parts, "dnf:"), PackagesOf(parts, "apt:"))
  {
    PartsRead(parts, "dnf:");
    PartsRead(parts, "apt:");
    StepsOfSegments(before, PartTexts(parts), PackagesOf(parts, "dnf:"), PackagesOf(parts, "apt:"));
  }

  /** Without the marker there are no steps. */
  lemma NoMarkerNoSteps(hint: string)
    requires !Contains(hint, "Suggested packages:")
    ensures RecipeSteps(hint) == []
  {
  }

  lemma HintIsBarred(h: CatalogHint)
    ensures HintText(h) == "" + MARKER + Barred(Segments(h))
  {
    BodyIsBarred(h);
  }

  lemma SegmentsThere(h: CatalogHint)
    ensures Segments(h) != []
  {
  }

  /** Parsing a printed hint recovers exactly its packages, as one install step per package manager. */
  lemma ParsePrinted(h: CatalogHint)
    requires Printable(h)
    ensures Installs(RecipeSteps(HintText(h)), h.dnf, h.apt)
  {
    HintIsBarred(h);
    SegmentsThere(h);
    SegmentsRead(h, "dnf:");
    SegmentsRead(h, "apt:");
    StepsOfSegments("", Segments(h), h.dnf, h.apt);
  }
}
