/** The splitter that turns a build's output into log chunks. */
module LogStream {

  newtype Byte = x: int | 0 <= x < 256

  const NEWLINE: Byte := 10
  const LIMIT := 32 * 1024

  type Bytes = seq<Byte>

  predicate IsSpace(b: Byte) {
    b == 32 || 9 <= b <= 13
  }

  predicate Blank(line: Bytes) {
    forall b | b in line :: IsSpace(b)
  }

  /** Position of the first newline, or the length if there is none. */
  function LineEnd(s: Bytes): (n: nat)
    ensures n <= |s| && (n < |s| ==> s[n] == NEWLINE)
    ensures forall i | 0 <= i < n :: s[i] != NEWLINE
  {
    if s == [] || s[0] == NEWLINE then 0 else 1 + LineEnd(s[1..])
  }

  /** What is emitted and what stays in the buffer. */
  datatype Split = Split(chunks: seq<Bytes>, rest: Bytes)

  function Line(line: Bytes): seq<Bytes> {
    if Blank(line) then [] else [line]
  }

  /** All complete lines of s, blank ones dropped, and the unterminated remainder. */
  function Drain(s: Bytes): Split
    decreases |s|
  {
    var n := LineEnd(s);
    if n == |s| then Split([], s)
    else
      var d := Drain(s[n + 1..]);
      Split(Line(s[..n]) + d.chunks, d.rest)
  }

  /** One Write: complete lines go out; a remainder that has reached the limit goes out as well. */
  function Feed(buf: Bytes, p: Bytes): Split {
    var d := Drain(buf + p);
    if |d.rest| >= LIMIT then Split(d.chunks + [d.rest], []) else d
  }

  function Run(writes: seq<Bytes>): Split {
    if writes == [] then Split([], [])
    else
      var r := Run(writes[..|writes| - 1]);
      var f := Feed(r.rest, writes[|writes| - 1]);
      Split(r.chunks + f.chunks, f.rest)
  }

  function Remainder(rest: Bytes): seq<Bytes> {
    if rest == [] then [] else [rest]
  }

  /** Everything emitted by the writes and the final Close. */
  function Output(writes: seq<Bytes>): seq<Bytes> {
    Run(writes).chunks + Remainder(Run(writes).rest)
  }

  function Flat(writes: seq<Bytes>): Bytes {
    if writes == [] then [] else Flat(writes[..|writes| - 1]) + writes[|writes| - 1]
  }

  /** The non-blank lines and the final remainder. */
  function Canonical(s: Bytes): seq<Bytes> {
    Drain(s).chunks + Remainder(Drain(s).rest)
  }

  lemma Assoc<T>(a: seq<T>, b: seq<T>, c: seq<T>)
    ensures (a + b) + c == a + (b + c)
    ensures [] + a == a && a + [] == a
  {
  }

  // ----- Facts about lines -----

  lemma LineEndConcat(a: Bytes, b: Bytes)
    ensures LineEnd(a) < |a| ==> LineEnd(a + b) == LineEnd(a)
    ensures LineEnd(a) == |a| ==> LineEnd(a + b) == |a| + LineEnd(b)
  {
    var s, n := a + b, LineEnd(a + b);
    var m := if LineEnd(a) < |a| then LineEnd(a) else |a| + LineEnd(b);
    assert m < |s| ==> s[m] == NEWLINE;
    assert forall i | 0 <= i < m :: s[i] != NEWLINE;
    assert n < |s| ==> s[n] == NEWLINE;
  }

  lemma NoLineEnd(s: Bytes)
    requires forall i | 0 <= i < |s| :: s[i] != NEWLINE
    ensures LineEnd(s) == |s| && Drain(s) == Split([], s)
  {
  }

  lemma SplitAt(s: Bytes, n: nat)
    requires n < |s|
    ensures s == s[..n] + [s[n]] + s[n + 1..]
  {
  }

  lemma SplitAtLine(s: Bytes)
    requires LineEnd(s) < |s|
    ensures var n := LineEnd(s); s == s[..n] + [NEWLINE] + s[n + 1..] && LineEnd(s[..n]) == n
  {
    var n := LineEnd(s);
    SplitAt(s, n);
    var line := s[..n];
    forall i | 0 <= i < |line|
      ensures line[i] != NEWLINE
    {
      assert line[i] == s[i];
    }
    NoLineEnd(line);
  }

  lemma FirstLine(line: Bytes, s: Bytes)
    requires LineEnd(line) == |line|
    ensures var t := line + [NEWLINE] + s; LineEnd(t) == |line| && t[..|line|] == line && t[|line| + 1..] == s
  {
    var t := line + [NEWLINE] + s;
    Assoc(line, [NEWLINE], s);
    LineEndConcat(line, [NEWLINE] + s);
    assert LineEnd([NEWLINE] + s) == 0;
  }

  /** A complete first line leaves the rest alone. */
  lemma DrainLine(line: Bytes, s: Bytes)
    requires LineEnd(line) == |line|
    ensures Drain(line + [NEWLINE] + s) == Split(Line(line) + Drain(s).chunks, Drain(s).rest)
    ensures Canonical(line + [NEWLINE] + s) == Line(line) + Canonical(s)
  {
    FirstLine(line, s);
    Assoc(Line(line), Drain(s).chunks, Remainder(Drain(s).rest));
  }

  lemma LineThen(line: Bytes, t: Bytes, b: Bytes)
    ensures (line + [NEWLINE] + t) + b == line + [NEWLINE] + (t + b)
  {
  }

  /** Draining in two steps, carrying the remainder over. */
  lemma {:induction false} DrainConcat(a: Bytes, b: Bytes)
    ensures var d, e := Drain(a), Drain(Drain(a).rest + b);
            Drain(a + b) == Split(d.chunks + e.chunks, e.rest)
    decreases |a|
  {
    var n := LineEnd(a);
    if n < |a| {
      SplitAtLine(a);
      DrainConcat(a[n + 1..], b);
      DrainConcatLine(a[..n], a[n + 1..], b);
    } else {
      Assoc(Drain(a + b).chunks, [], []);
    }
  }

  lemma DrainConcatLine(line: Bytes, t: Bytes, b: Bytes)
    requires LineEnd(line) == |line|
    requires Drain(t + b) == Split(Drain(t).chunks + Drain(Drain(t).rest + b).chunks, Drain(Drain(t).rest + b).rest)
    ensures var a := line + [NEWLINE] + t; var e := Drain(Drain(a).rest + b);
            Drain(a + b) == Split(Drain(a).chunks + e.chunks, e.rest)
  {
    LineThen(line, t, b);
    DrainLine(line, t);
    DrainLine(line, t + b);
    Assoc(Line(line), Drain(t).chunks, Drain(Drain(t).rest + b).chunks);
  }

  lemma {:induction false} RestHasNoNewline(s: Bytes)
    ensures LineEnd(Drain(s).rest) == |Drain(s).rest|
    decreases |s|
  {
    if LineEnd(s) < |s| {
      RestHasNoNewline(s[LineEnd(s) + 1..]);
    }
  }

  // ----- When the chunks depend on the text alone -----

  predicate LineFits(line: Bytes) {
    |line| < LIMIT || (|line| == LIMIT && !Blank(line))
  }

  /** Every complete line is shorter than the limit, or as long and not blank; the remainder is not longer. */
  predicate Fits(s: Bytes)
    decreases |s|
  {
    var n := LineEnd(s);
    if n == |s| then |s| <= LIMIT else LineFits(s[..n]) && Fits(s[n + 1..])
  }

  lemma {:induction false} FitsRest(a: Bytes, b: Bytes)
    requires Fits(a + b)
    ensures Fits(Drain(a).rest + b)
    decreases |a|
  {
    var n := LineEnd(a);
    if n < |a| {
      LineEndConcat(a, b);
      assert (a + b)[n + 1..] == a[n + 1..] + b;
      FitsRest(a[n + 1..], b);
    }
  }

  /** An unterminated piece of a text that fits is at most as long as the limit, and if it is as long,
      the text ends there or the line does, and it is not blank in that case. */
  lemma FitsHead(r: Bytes, b: Bytes)
    requires LineEnd(r) == |r| && Fits(r + b)
    ensures |r| <= LIMIT
    ensures |r| == LIMIT && b != [] ==> b[0] == NEWLINE && !Blank(r)
  {
    LineEndConcat(r, b);
    var n := LineEnd(r + b);
    if n < |r + b| {
      assert |(r + b)[..n]| == n >= |r|;
      if n == |r| {
        assert (r + b)[..n] == r;
      }
    }
  }

  /** The state after writes that make up the text p: either nothing was cut, or just now a line that
      reached the limit was sent out early. */
  ghost predicate InStep(p: Bytes, r: Split) {
    || (r == Drain(p) && |r.rest| < LIMIT)
    || (r == Split(Drain(p).chunks + [Drain(p).rest], []) && |Drain(p).rest| == LIMIT)
  }

  lemma RestIsShort(s: Bytes, q: Bytes)
    requires Fits(s + q)
    ensures |Drain(s).rest| <= LIMIT
  {
    FitsRest(s, q);
    RestHasNoNewline(s);
    FitsHead(Drain(s).rest, q);
  }

  lemma StepNormal(p: Bytes, w: Bytes, q: Bytes, r: Split)
    requires r == Drain(p) && Fits(p + w + q)
    ensures var f := Feed(r.rest, w); InStep(p + w, Split(r.chunks + f.chunks, f.rest))
  {
    DrainConcat(p, w);
    RestIsShort(p + w, q);
    var d := Drain(r.rest + w);
    Assoc(r.chunks, d.chunks, [d.rest]);
  }

  /** A line that was sent out early and then ends is not sent again. */
  lemma EarlyLine(p: Bytes, tail: Bytes)
    requires |Drain(p).rest| == LIMIT && !Blank(Drain(p).rest)
    ensures var w, d := [NEWLINE] + tail, Drain(tail);
            && Drain(w) == d
            && Drain(p + w) == Split(Drain(p).chunks + [Drain(p).rest] + d.chunks, d.rest)
  {
    var head, w := Drain(p).rest, [NEWLINE] + tail;
    RestHasNoNewline(p);
    DrainLine([], tail);
    assert [] + [NEWLINE] + tail == w;
    Assoc(Drain(tail).chunks, [], []);
    DrainLine(head, tail);
    Assoc(head, [NEWLINE], tail);
    DrainConcat(p, w);
    Assoc(Drain(p).chunks, [head], Drain(tail).chunks);
  }

  lemma NewlineFirst(w: Bytes, q: Bytes)
    requires w != [] && (w + q)[0] == NEWLINE
    ensures w == [NEWLINE] + w[1..]
  {
  }

  /** What a write adds after a line that was sent out early. */
  lemma FeedEarly(p: Bytes, tail: Bytes)
    requires |Drain(p).rest| == LIMIT && !Blank(Drain(p).rest)
    requires |Drain(p + ([NEWLINE] + tail)).rest| <= LIMIT
    ensures var w, r := [NEWLINE] + tail, Drain(p).chunks + [Drain(p).rest];
            InStep(p + w, Split(r + Feed([], w).chunks, Feed([], w).rest))
  {
    var w, r, d := [NEWLINE] + tail, Drain(p).chunks + [Drain(p).rest], Drain(tail);
    EarlyLine(p, tail);
    Assoc(w, [], []);
    Assoc(r, d.chunks, [d.rest]);
  }

  lemma StepFlushed(p: Bytes, w: Bytes, q: Bytes, r: Split)
    requires r == Split(Drain(p).chunks + [Drain(p).rest], []) && |Drain(p).rest| == LIMIT && Fits(p + w + q)
    ensures var f := Feed(r.rest, w); InStep(p + w, Split(r.chunks + f.chunks, f.rest))
  {
    if w == [] {
      Assoc(p, [], []);
      Assoc(r.chunks, [], []);
    } else {
      RestHasNoNewline(p);
      Assoc(p, w, q);
      FitsRest(p, w + q);
      FitsHead(Drain(p).rest, w + q);
      NewlineFirst(w, q);
      RestIsShort(p + w, q);
      FeedEarly(p, w[1..]);
    }
  }

  lemma {:induction false} RunInStep(writes: seq<Bytes>, q: Bytes)
    requires Fits(Flat(writes) + q)
    ensures InStep(Flat(writes), Run(writes))
  {
    if writes != [] {
      var init, w := writes[..|writes| - 1], writes[|writes| - 1];
      assert Flat(writes) + q == Flat(init) + (w + q);
      assert Flat(writes) + q == Flat(init) + w + q;
      RunInStep(init, w + q);
      if Run(init) == Drain(Flat(init)) {
        StepNormal(Flat(init), w, q, Run(init));
      } else {
        StepFlushed(Flat(init), w, q, Run(init));
      }
    }
  }

  /** The same as below, over the whole text. */
  lemma ChunksAreCanonical(writes: seq<Bytes>)
    requires Fits(Flat(writes))
    ensures Output(writes) == Canonical(Flat(writes))
  {
    assert Flat(writes) + [] == Flat(writes);
    RunInStep(writes, []);
    var d := Drain(Flat(writes));
    assert d.chunks + [d.rest] + [] == d.chunks + [d.rest];
  }

  lemma RunSnoc(writes: seq<Bytes>, w: Bytes)
    ensures var r := Run(writes); var f := Feed(r.rest, w); Run(writes + [w]) == Split(r.chunks + f.chunks, f.rest)
    ensures Flat(writes + [w]) == Flat(writes) + w
  {
    assert (writes + [w])[..|writes|] == writes;
  }

  /** Fed into an empty buffer, a text comes out as its lines and its remainder. */
  lemma FeedAll(s: Bytes)
    ensures Feed([], s).chunks + Remainder(Feed([], s).rest) == Canonical(s)
  {
    Assoc(s, [], []);
    Assoc(Drain(s).chunks, [Drain(s).rest], []);
  }

  /** Two writes of which the first ends in a piece of exactly the limit. */
  lemma TwoWrites(a: Bytes, b: Bytes)
    requires |Drain(a).rest| == LIMIT
    ensures Flat([a, b]) == a + b
    ensures Output([a, b]) == Drain(a).chunks + [Drain(a).rest] + Canonical(b)
  {
    RunSnoc([], a);
    RunSnoc([a], b);
    assert [] + [a] == [a] && [a] + [b] == [a, b];
    Assoc(a, [], []);
    Assoc(Feed([], a).chunks, [], []);
    FeedAll(b);
    Assoc(Feed([], a).chunks, Feed([], b).chunks, Remainder(Feed([], b).rest));
  }

  /** The text cut in two: lines and remainder of the first part, then those of the second. */
  function CutAt(s: Bytes, q: nat): seq<Bytes>
    requires q <= |s|
  {
    Drain(s[..q]).chunks + ([Drain(s[..q]).rest] + Canonical(s[q..]))
  }

  lemma SliceAfterLine(line: Bytes, t: Bytes, k: nat)
    requires k <= |t|
    ensures var s, q := line + [NEWLINE] + t, |line| + 1 + k;
            s[..q] == line + [NEWLINE] + t[..k] && s[q..] == t[k..]
  {
  }

  lemma CutAfterLine(line: Bytes, t: Bytes, k: nat)
    requires LineEnd(line) == |line| && k <= |t|
    ensures var s, q := line + [NEWLINE] + t, |line| + 1 + k;
            && CutAt(s, q) == Line(line) + CutAt(t, k)
            && Drain(s[..q]).rest == Drain(t[..k]).rest
  {
    SliceAfterLine(line, t, k);
    DrainLine(line, t[..k]);
    var d := Drain(t[..k]);
    Assoc(Line(line), d.chunks, [d.rest] + Canonical(t[k..]));
  }

  ghost predicate Shows(s: Bytes, q: nat) {
    q <= |s| && |Drain(s[..q]).rest| == LIMIT && CutAt(s, q) != Canonical(s)
  }

  lemma SamePrefix<T>(p: seq<T>, a: seq<T>, b: seq<T>)
    requires p + a == p + b
    ensures a == b
  {
    assert (p + a)[|p|..] == a && (p + b)[|p|..] == b;
  }

  lemma ShowsAfterLine(line: Bytes, t: Bytes, k: nat)
    requires LineEnd(line) == |line| && Shows(t, k)
    ensures Shows(line + [NEWLINE] + t, |line| + 1 + k)
  {
    CutAfterLine(line, t, k);
    DrainLine(line, t);
    if Line(line) + CutAt(t, k) == Line(line) + Canonical(t) {
      SamePrefix(Line(line), CutAt(t, k), Canonical(t));
    }
  }

  /** A text that does not fit can be cut where a too long line reaches the limit, and the cut shows. */
  lemma {:induction false} CutShows(s: Bytes)
    requires !Fits(s)
    ensures exists q: nat :: Shows(s, q)
    decreases |s|
  {
    var n := LineEnd(s);
    if n == |s| {
      CutRemainder(s);
    } else {
      SplitAtLine(s);
      if LineFits(s[..n]) {
        CutShows(s[n + 1..]);
        var k: nat :| Shows(s[n + 1..], k);
        ShowsAfterLine(s[..n], s[n + 1..], k);
      } else {
        CutLine(s[..n], s[n + 1..]);
      }
    }
  }

  lemma CutRemainder(s: Bytes)
    requires LineEnd(s) == |s| > LIMIT
    ensures Shows(s, LIMIT)
  {
    var r, b := s[..LIMIT], s[LIMIT..];
    assert s == r + b;
    LineEndConcat(r, b);
    assert Drain(r) == Split([], r) && Drain(b) == Split([], b) && Drain(s) == Split([], s);
    assert |CutAt(s, LIMIT)| == 2 && |Canonical(s)| == 1;
  }

  /** A long line sent in two pieces shows: unless it is blank, its first chunk is shorter than the line. */
  lemma PiecesShow(r: Bytes, x: Bytes, t: Bytes)
    requires |r| == LIMIT && !LineFits(r + x)
    ensures [r] + (Line(x) + Canonical(t)) != Line(r + x) + Canonical(t)
  {
    var cut, whole := [r] + (Line(x) + Canonical(t)), Line(r + x) + Canonical(t);
    if Blank(r + x) {
      BlankEnd(r, x);
      assert |cut| == 1 + |Canonical(t)| && |whole| == |Canonical(t)|;
    } else {
      assert cut[0] == r && whole[0] == r + x && |r + x| > |r|;
    }
  }

  lemma BlankEnd(r: Bytes, x: Bytes)
    requires Blank(r + x)
    ensures Blank(x)
  {
    forall b | b in x
      ensures IsSpace(b)
    {
      assert b in r + x;
    }
  }

  lemma CutPieces(r: Bytes, x: Bytes, t: Bytes)
    requires |r| == LIMIT && LineEnd(r + x) == |r + x| && !LineFits(r + x)
    ensures Shows((r + x) + [NEWLINE] + t, LIMIT)
  {
    var s := (r + x) + [NEWLINE] + t;
    CutInside(r, x, t);
    LineEndConcat(r, x);
    DrainLine(x, t);
    DrainLine(r + x, t);
    PiecesShow(r, x, t);
  }

  lemma CutInside(r: Bytes, x: Bytes, t: Bytes)
    ensures var s := (r + x) + [NEWLINE] + t; s[..|r|] == r && s[|r|..] == x + [NEWLINE] + t
  {
  }

  lemma CutLine(line: Bytes, t: Bytes)
    requires LineEnd(line) == |line| && !LineFits(line)
    ensures Shows(line + [NEWLINE] + t, LIMIT)
  {
    assert line == line[..LIMIT] + line[LIMIT..];
    CutPieces(line[..LIMIT], line[LIMIT..], t);
  }

  lemma CutOutput(s: Bytes, q: nat)
    requires Shows(s, q)
    ensures Flat([s[..q], s[q..]]) == s && Output([s[..q], s[q..]]) != Canonical(s)
  {
    TwoWrites(s[..q], s[q..]);
    Assoc(Drain(s[..q]).chunks, [Drain(s[..q]).rest], Canonical(s[q..]));
    assert s[..q] + s[q..] == s;
  }

  /** This way of writing s shows in the chunks. */
  ghost predicate Tells(s: Bytes, writes: seq<Bytes>) {
    Flat(writes) == s && Output(writes) != Canonical(s)
  }

  lemma TooLongShows(s: Bytes)
    requires !Fits(s)
    ensures exists writes :: Tells(s, writes)
  {
    CutShows(s);
    var q: nat :| Shows(s, q);
    CutOutput(s, q);
    assert Tells(s, [s[..q], s[q..]]);
  }

  lemma CanonicalIff(s: Bytes)
    ensures Fits(s) <==> forall writes | Flat(writes) == s :: Output(writes) == Canonical(s)
  {
    if Fits(s) {
      forall writes | Flat(writes) == s
        ensures Output(writes) == Canonical(s)
      {
        ChunksAreCanonical(writes);
      }
    } else {
      TooLongShows(s);
      var writes :| Tells(s, writes);
    }
  }

  // ----- The same, line by line -----

  /** Lines with their newlines. */
  function Ended(lines: seq<Bytes>): Bytes {
    if lines == [] then [] else lines[0] + [NEWLINE] + Ended(lines[1..])
  }

  /** The text is these lines, each ended by a newline, and the rest. */
  ghost predicate Cut(s: Bytes, lines: seq<Bytes>, rest: Bytes) {
    s == Ended(lines) + rest && Unbroken(rest) && forall line | line in lines :: Unbroken(line)
  }

  /** No byte is a newline. */
  ghost predicate Unbroken(s: Bytes) {
    forall i | 0 <= i < |s| :: s[i] as int != 10
  }

  /** Some byte is not a space, tab, newline, vertical tab, form feed or carriage return. */
  ghost predicate HasInk(line: Bytes) {
    exists b :: b in line && b as int !in {32, 9, 10, 11, 12, 13}
  }

  ghost function Inked(lines: seq<Bytes>): seq<Bytes> {
    if lines == [] then [] else (if HasInk(lines[0]) then [lines[0]] else []) + Inked(lines[1..])
  }

  /** The lines that are not blank, and the rest unless it is empty. */
  ghost function Lines(lines: seq<Bytes>, rest: Bytes): seq<Bytes> {
    Inked(lines) + (if rest == [] then [] else [rest])
  }

  /** Each line is shorter than 32 KiB, or exactly that long and not blank; the rest is not longer. */
  ghost predicate AllFit(lines: seq<Bytes>, rest: Bytes) {
    && (forall line | line in lines :: |line| < 32768 || (|line| == 32768 && HasInk(line)))
    && |rest| <= 32768
  }

  lemma InkIff(line: Bytes)
    ensures HasInk(line) <==> !Blank(line)
  {
    assert forall b: Byte :: IsSpace(b) <==> b as int in {32, 9, 10, 11, 12, 13};
  }

  lemma NoNewline(s: Bytes)
    requires Unbroken(s)
    ensures LineEnd(s) == |s|
  {
    NoLineEnd(s);
  }

  /** Every text can be cut in one way. */
  lemma {:induction false} CutExists(s: Bytes) returns (lines: seq<Bytes>, rest: Bytes)
    ensures Cut(s, lines, rest)
    decreases |s|
  {
    var n := LineEnd(s);
    if n == |s| {
      lines, rest := [], s;
    } else {
      var more;
      more, rest := CutExists(s[n + 1..]);
      lines := [s[..n]] + more;
      SplitAtLine(s);
      assert Ended(lines) + rest == s[..n] + [NEWLINE] + (Ended(more) + rest);
    }
  }

  lemma {:induction false} CutIs(s: Bytes, lines: seq<Bytes>, rest: Bytes)
    requires Cut(s, lines, rest)
    ensures Canonical(s) == Lines(lines, rest)
    ensures Fits(s) <==> AllFit(lines, rest)
    decreases lines
  {
    if lines == [] {
      assert s == rest;
      NoNewline(rest);
    } else {
      var line, t := lines[0], Ended(lines[1..]) + rest;
      assert line in lines && forall l | l in lines[1..] :: l in lines;
      assert s == line + [NEWLINE] + t;
      NoNewline(line);
      CutIs(t, lines[1..], rest);
      DrainLine(line, t);
      FirstLine(line, t);
      InkIff(line);
      Assoc(if HasInk(line) then [line] else [], Inked(lines[1..]), if rest == [] then [] else [rest]);
      FitsMore(lines, rest);
    }
  }

  lemma FitsMore(lines: seq<Bytes>, rest: Bytes)
    requires lines != []
    ensures AllFit(lines, rest) <==>
            (|lines[0]| < 32768 || (|lines[0]| == 32768 && HasInk(lines[0]))) && AllFit(lines[1..], rest)
  {
    assert lines == [lines[0]] + lines[1..];
  }

  /** If its lines fit, the chunks of a text are its lines that are not blank and its rest, however it was written. */
  lemma ChunksAreLines(writes: seq<Bytes>, lines: seq<Bytes>, rest: Bytes)
    requires Cut(Flat(writes), lines, rest) && AllFit(lines, rest)
    ensures Output(writes) == Lines(lines, rest)
  {
    CutIs(Flat(writes), lines, rest);
    ChunksAreCanonical(writes);
  }

  /** The chunks of a text are the same for every way of writing it exactly when its lines fit. */
  lemma IndependentOfWritesIff(s: Bytes, lines: seq<Bytes>, rest: Bytes)
    requires Cut(s, lines, rest)
    ensures AllFit(lines, rest) <==> forall writes | Flat(writes) == s :: Output(writes) == Lines(lines, rest)
  {
    CutIs(s, lines, rest);
    CanonicalIff(s);
  }

  // ----- What holds for every text -----

  /** The bytes that are not white space, in order. */
  function Ink(s: Bytes): Bytes {
    if s == [] then [] else (if IsSpace(s[0]) then [] else [s[0]]) + Ink(s[1..])
  }

  lemma {:induction false} InkConcat(a: Bytes, b: Bytes)
    ensures Ink(a + b) == Ink(a) + Ink(b)
  {
    if a == [] {
      assert a + b == b;
    } else {
      assert (a + b)[1..] == a[1..] + b;
      InkConcat(a[1..], b);
    }
  }

  lemma {:induction false} InkBlank(s: Bytes)
    requires Blank(s)
    ensures Ink(s) == []
  {
    if s != [] {
      assert s[0] in s;
      InkBlank(s[1..]);
    }
  }

  lemma {:induction false} FlatConcat(a: seq<Bytes>, b: seq<Bytes>)
    ensures Flat(a + b) == Flat(a) + Flat(b)
  {
    if b == [] {
      assert a + b == a;
    } else {
      assert (a + b)[..|a + b| - 1] == a + b[..|b| - 1];
      FlatConcat(a, b[..|b| - 1]);
    }
  }

  lemma LineKeepsInk(line: Bytes)
    ensures Ink(Flat(Line(line))) == Ink(line)
  {
    if Blank(line) {
      InkBlank(line);
    } else {
      FlatOne(line);
    }
  }

  lemma FlatOne(b: Bytes)
    ensures Flat([b]) == b
  {
    assert [b][..0] == [] && [] + b == b;
  }

  lemma InkOfLine(line: Bytes, t: Bytes)
    ensures Ink(line + [NEWLINE] + t) == Ink(line) + Ink(t)
  {
    InkConcat(line + [NEWLINE], t);
    InkConcat(line, [NEWLINE]);
    InkBlank([NEWLINE]);
    Assoc(Ink(line), [], []);
  }

  lemma {:induction false} DrainKeepsInk(s: Bytes)
    ensures Ink(Flat(Drain(s).chunks)) + Ink(Drain(s).rest) == Ink(s)
    decreases |s|
  {
    var n := LineEnd(s);
    if n < |s| {
      var line, t := s[..n], s[n + 1..];
      assert s == line + [NEWLINE] + t;
      DrainKeepsInk(t);
      InkOfLine(line, t);
      LineKeepsInk(line);
      FlatConcat(Line(line), Drain(t).chunks);
      InkConcat(Flat(Line(line)), Flat(Drain(t).chunks));
      Assoc(Ink(line), Ink(Flat(Drain(t).chunks)), Ink(Drain(t).rest));
    } else {
      assert Flat([]) == [];
    }
  }

  lemma FeedKeepsInk(buf: Bytes, p: Bytes)
    ensures Ink(Flat(Feed(buf, p).chunks)) + Ink(Feed(buf, p).rest) == Ink(buf) + Ink(p)
  {
    InkConcat(buf, p);
    var d := Drain(buf + p);
    DrainKeepsInk(buf + p);
    FlatConcat(d.chunks, [d.rest]);
    FlatOne(d.rest);
    InkConcat(Flat(d.chunks), d.rest);
  }

  lemma {:induction false} RunKeepsInk(writes: seq<Bytes>)
    ensures Ink(Flat(Run(writes).chunks)) + Ink(Run(writes).rest) == Ink(Flat(writes))
  {
    if writes != [] {
      var init, w := writes[..|writes| - 1], writes[|writes| - 1];
      var r := Run(init);
      var f := Feed(r.rest, w);
      RunKeepsInk(init);
      FeedKeepsInk(r.rest, w);
      InkConcat(Flat(init), w);
      FlatConcat(r.chunks, f.chunks);
      InkConcat(Flat(r.chunks), Flat(f.chunks));
      Assoc(Ink(Flat(r.chunks)), Ink(Flat(f.chunks)), Ink(f.rest));
      Assoc(Ink(Flat(r.chunks)), Ink(r.rest), Ink(w));
    }
  }

  /** Whatever the text and however it is written, no byte but white space is lost, added or moved. */
  lemma OutputKeepsInk(writes: seq<Bytes>)
    ensures Ink(Flat(Output(writes))) == Ink(Flat(writes))
  {
    RunKeepsInk(writes);
    var r := Run(writes);
    FlatConcat(r.chunks, Remainder(r.rest));
    InkConcat(Flat(r.chunks), Flat(Remainder(r.rest)));
    if r.rest != [] {
      assert [r.rest][..0] == [] && Flat([r.rest]) == r.rest;
    }
  }

  /** After each Write the buffer holds no newline and fewer bytes than the limit. */
  lemma BufferStaysSmall(writes: seq<Bytes>)
    ensures Unbroken(Run(writes).rest) && |Run(writes).rest| < 32768
  {
    if writes != [] {
      RestHasNoNewline(Run(writes[..|writes| - 1]).rest + writes[|writes| - 1]);
    }
  }

  // ----- The writer -----

  datatype Chunk = Chunk(number: nat, content: Bytes)

  predicate Carries(c: Chunk, emitted: seq<Bytes>) {
    1 <= c.number <= |emitted| && c.content == emitted[c.number - 1]
  }

  /** The channel received a part of what was emitted, in order, under increasing numbers. */
  ghost predicate PartOf(channel: seq<Chunk>, emitted: seq<Bytes>) {
    && (forall i | 0 <= i < |channel| :: Carries(channel[i], emitted))
    && forall i, j | 0 <= i < j < |channel| :: channel[i].number < channel[j].number
  }

  lemma PartOfExtended(channel: seq<Chunk>, emitted: seq<Bytes>, content: Bytes)
    requires PartOf(channel, emitted)
    ensures PartOf(channel, emitted + [content])
    ensures PartOf(channel + [Chunk(|emitted| + 1, content)], emitted + [content])
  {
    forall i | 0 <= i < |channel|
      ensures Carries(channel[i], emitted + [content])
    {
      assert Carries(channel[i], emitted);
    }
  }

  class LogStreamWriter {
    var buf: Bytes
    var number: nat
    var channel: seq<Chunk>
    ghost var emitted: seq<Bytes>
    ghost var writes: seq<Bytes>

    /** The fields hold what the writes so far leave behind, and the channel got part of it. */
    ghost predicate Valid()
      reads this
    {
      buf == Run(writes).rest && emitted == Run(writes).chunks && Delivered()
    }

    ghost predicate Delivered()
      reads this
    {
      number == |emitted| && PartOf(channel, emitted)
    }

    constructor ()
      ensures Valid() && writes == []
    {
      buf := [];
      number := 0;
      channel := [];
      emitted := [];
      writes := [];
    }

    /** Numbers the chunk and offers it to the channel, which drops it when it is full. */
    method EmitChunk(content: Bytes)
      requires Delivered()
      modifies `number, `channel, `emitted
      ensures Delivered() && emitted == old(emitted) + [content]
      ensures channel == old(channel) || channel == old(channel) + [Chunk(number, content)]
    {
      PartOfExtended(channel, emitted, content);
      number := number + 1;
      emitted := emitted + [content];
      var accepted: bool := *;
      if accepted {
        channel := channel + [Chunk(number, content)];
      }
    }

    /** Sends out the complete lines of the buffer, without the blank ones. */
    method DrainLines()
      requires Delivered()
      modifies this
      ensures Delivered() && writes == old(writes) && old(channel) <= channel
      ensures emitted == old(emitted) + Drain(old(buf)).chunks && buf == Drain(old(buf)).rest
    {
      ghost var goal := emitted + Drain(buf).chunks;
      while LineEnd(buf) < |buf|
        invariant Delivered() && writes == old(writes) && old(channel) <= channel
        invariant emitted + Drain(buf).chunks == goal && Drain(buf).rest == Drain(old(buf)).rest
        decreases |buf|
      {
        var idx := LineEnd(buf);
        var line := buf[..idx];
        buf := buf[idx + 1..];
        Assoc(emitted, Line(line), Drain(buf).chunks);
        if Blank(line) {
          Assoc(emitted, [], []);
          continue;
        }
        EmitChunk(line);
      }
      Assoc(emitted, [], []);
    }

    method Write(p: Bytes)
      requires Valid()
      modifies this
      ensures Valid() && writes == old(writes) + [p]
      ensures old(channel) <= channel
    {
      RunSnoc(writes, p);
      buf := buf + p;
      ghost var d := Drain(buf);
      DrainLines();
      if |buf| >= LIMIT {
        EmitChunk(buf);
        Assoc(old(emitted), d.chunks, [d.rest]);
        buf := [];
      }
      writes := writes + [p];
    }

    /** Sends what is left, blank or not. */
    method Close()
      requires Valid()
      modifies this
      ensures Delivered() && buf == [] && emitted == Output(writes) && writes == old(writes)
      ensures old(channel) <= channel
    {
      if |buf| > 0 {
        EmitChunk(buf);
        buf := [];
      } else {
        assert emitted + [] == emitted;
      }
    }
  }
}
