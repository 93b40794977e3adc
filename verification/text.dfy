/** Options and the string operations the Go and Python code share, on ASCII text. */
module Text {

  datatype Option<+T> = None | Some(value: T)

  predicate IsSpace(c: char) {
    c == ' ' || '\t' <= c <= '\r'
  }

  function LowerChar(c: char): char {
    if 'A' <= c <= 'Z' then (c as int + 32) as char else c
  }

  function ToLower(s: string): string {
    seq(|s|, i requires 0 <= i < |s| => LowerChar(s[i]))
  }

  predicate EqualFold(a: string, b: string) {
    ToLower(a) == ToLower(b)
  }

  function TrimLeft(s: string): string {
    if s != "" && IsSpace(s[0]) then TrimLeft(s[1..]) else s
  }

  function TrimRight(s: string): string {
    if s != "" && IsSpace(s[|s| - 1]) then TrimRight(s[..|s| - 1]) else s
  }

  function TrimSpace(s: string): string {
    TrimRight(TrimLeft(s))
  }

  predicate HasPrefix(s: string, p: string) {
    p <= s
  }

  /** True iff p occurs in s at some position. */
  predicate Contains(s: string, p: string) {
    p <= s || (s != "" && Contains(s[1..], p))
  }

  function TrimPrefix(s: string, p: string): string {
    if p <= s then s[|p|..] else s
  }

  /** No white space at either end. */
  predicate Trimmed(s: string) {
    s != "" ==> !IsSpace(s[0]) && !IsSpace(s[|s| - 1])
  }

  lemma {:induction false} TrimRightKeepsHead(s: string)
    ensures TrimRight(s) <= s
    ensures TrimRight(s) != "" ==> !IsSpace(TrimRight(s)[|TrimRight(s)| - 1])
  {
    if s != "" && IsSpace(s[|s| - 1]) {
      TrimRightKeepsHead(s[..|s| - 1]);
    }
  }

  lemma {:induction false} TrimLeftHead(s: string)
    ensures TrimLeft(s) != "" ==> !IsSpace(TrimLeft(s)[0])
  {
    if s != "" && IsSpace(s[0]) {
      TrimLeftHead(s[1..]);
    }
  }

  lemma TrimSpaceTrims(s: string)
    ensures Trimmed(TrimSpace(s))
    ensures TrimSpace(TrimSpace(s)) == TrimSpace(s)
  {
    TrimLeftHead(s);
    TrimRightKeepsHead(TrimLeft(s));
  }

  // ----- What the operations mean -----

  /** ASCII white space: space, tab, newline, vertical tab, form feed, carriage return. */
  ghost predicate IsBlank(c: char) {
    c as int in {32, 9, 10, 11, 12, 13}
  }

  ghost predicate Blank(s: string) {
    forall i | 0 <= i < |s| :: IsBlank(s[i])
  }

  ghost predicate Inked(s: string) {
    s != "" ==> !IsBlank(s[0]) && !IsBlank(s[|s| - 1])
  }

  lemma {:induction false} TrimLeftIs(s: string) returns (n: nat)
    ensures n <= |s| && s[n..] == TrimLeft(s) && Blank(s[..n])
  {
    if s != "" && IsSpace(s[0]) {
      var k := TrimLeftIs(s[1..]);
      n := k + 1;
      assert s[..n] == [s[0]] + s[1..][..k];
    } else {
      n := 0;
    }
  }

  lemma {:induction false} TrimRightIs(s: string) returns (n: nat)
    ensures n <= |s| && s[..n] == TrimRight(s) && Blank(s[n..])
  {
    if s != "" && IsSpace(s[|s| - 1]) {
      n := TrimRightIs(s[..|s| - 1]);
      assert s[n..] == s[..|s| - 1][n..] + [s[|s| - 1]];
    } else {
      n := |s|;
    }
  }

  /** t is s without the white space at its ends. */
  ghost predicate Trims(s: string, t: string) {
    Inked(t) && exists a, b :: s == a + t + b && Blank(a) && Blank(b)
  }

  /** Trimming removes white space at both ends and nothing else, and no text trims to two others. */
  lemma TrimSpaceIff(s: string, t: string)
    ensures Trims(s, t) <==> t == TrimSpace(s)
  {
    var i := TrimLeftIs(s);
    var k := TrimRightIs(TrimLeft(s));
    TrimSpaceTrims(s);
    assert s == s[..i] + TrimSpace(s) + TrimLeft(s)[k..];
    if Trims(s, t) {
      var a, b :| s == a + t + b && Blank(a) && Blank(b);
      TrimUnique(s, s[..i], TrimSpace(s), TrimLeft(s)[k..], a, t, b);
    }
  }

  lemma TrimUnique(s: string, a: string, t: string, b: string, c: string, u: string, d: string)
    requires s == a + t + b == c + u + d && Blank(a) && Blank(b) && Blank(c) && Blank(d) && Inked(t) && Inked(u)
    ensures t == u
  {
    InkShows(s, a, t, b);
    InkShows(s, c, u, d);
    if t != "" && u != "" {
      StartsAgree(s, a, t, b, c, u, d);
      StartsAgree(s, c, u, d, a, t, b);
      EndsAgree(s, a, t, b, c, u, d);
      EndsAgree(s, c, u, d, a, t, b);
      assert t == s[|a|..|s| - |b|] && u == s[|c|..|s| - |d|];
    }
  }

  lemma InkShows(s: string, a: string, t: string, b: string)
    requires s == a + t + b && Blank(a) && Blank(b) && Inked(t)
    ensures t == "" <==> Blank(s)
  {
    if t != "" {
      assert s[|a|] == t[0];
    }
  }

  lemma StartsAgree(s: string, a: string, t: string, b: string, c: string, u: string, d: string)
    requires s == a + t + b == c + u + d && Blank(a) && Inked(u) && u != ""
    ensures |a| <= |c|
  {
    assert s[|c|] == u[0];
    assert forall i | 0 <= i < |a| :: s[i] == a[i];
  }

  lemma EndsAgree(s: string, a: string, t: string, b: string, c: string, u: string, d: string)
    requires s == a + t + b == c + u + d && Blank(b) && Inked(u) && u != ""
    ensures |b| <= |d|
  {
    assert s[|c| + |u| - 1] == u[|u| - 1];
    assert forall i | |a| + |t| <= i < |s| :: s[i] == b[i - |a| - |t|];
  }

  /** Lower-casing maps the letters A to Z to a to z and keeps length and all other characters. */
  ghost predicate Lowers(s: string, t: string) {
    |t| == |s| && forall i | 0 <= i < |s| ::
      if 65 <= s[i] as int <= 90 then t[i] as int == s[i] as int + 32 else t[i] == s[i]
  }

  lemma ToLowerIff(s: string, t: string)
    ensures Lowers(s, t) <==> t == ToLower(s)
  {
    if Lowers(s, t) {
      forall i | 0 <= i < |s|
        ensures t[i] == ToLower(s)[i]
      {
        assert (t[i] as int) as char == t[i];
      }
    }
  }

  lemma {:induction false} ContainsIff(s: string, p: string)
    ensures Contains(s, p) <==> exists i :: 0 <= i <= |s| && p <= s[i..]
  {
    assert s[0..] == s;
    if s != "" && !(p <= s) {
      ContainsIff(s[1..], p);
      forall i | 0 < i <= |s|
        ensures s[i..] == s[1..][i - 1..]
      {
      }
      if k :| 0 <= k <= |s[1..]| && p <= s[1..][k..] {
        assert p <= s[k + 1..];
      }
    }
  }
}
