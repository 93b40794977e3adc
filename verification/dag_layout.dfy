/** The layered layout of the plan view: levels, cells, pixel boxes and edges. */
module DagLayout {
  import opened Text
  import opened Digraph
  import opened DagView
  import Sorting

  const NODE_WIDTH := 210
  const NODE_HEIGHT := 72
  const NODE_GAP := 20
  const COL_GAP := 36
  const PAD := 18

  datatype Pos = Pos(col: nat, row: nat)

  datatype Edge = Edge(from: string, to: string)

  /** Levels in ascending order, the cell of every node, the drawn edges and the canvas size. */
  datatype Layout = Layout(columns: seq<seq<Node>>, positions: map<string, Pos>, edges: seq<Edge>,
                           width: nat, height: nat, vertical: bool)

  function HorizontalGap(vertical: bool): nat {
    if vertical then NODE_GAP else COL_GAP
  }

  function VerticalGap(vertical: bool): nat {
    if vertical then COL_GAP else NODE_GAP
  }

  /** Left and top edge of the box in a cell. */
  function Left(vertical: bool, p: Pos): nat {
    PAD + p.col * (NODE_WIDTH + HorizontalGap(vertical))
  }

  function Top(vertical: bool, p: Pos): nat {
    PAD + p.row * (NODE_HEIGHT + VerticalGap(vertical))
  }

  predicate Overlap(vertical: bool, p: Pos, q: Pos) {
    && Left(vertical, p) < Left(vertical, q) + NODE_WIDTH && Left(vertical, q) < Left(vertical, p) + NODE_WIDTH
    && Top(vertical, p) < Top(vertical, q) + NODE_HEIGHT && Top(vertical, q) < Top(vertical, p) + NODE_HEIGHT
  }

  predicate Inside(vertical: bool, p: Pos, width: nat, height: nat) {
    && PAD <= Left(vertical, p) && Left(vertical, p) + NODE_WIDTH + PAD <= width
    && PAD <= Top(vertical, p) && Top(vertical, p) + NODE_HEIGHT + PAD <= height
  }

  function Max(a: nat, b: nat): nat {
    if a >= b then a else b
  }

  function Extent(count: nat, size: nat, gap: nat): nat {
    PAD * 2 + count * size + (if count >= 1 then count - 1 else 0) * gap
  }

  function TypeRank(kind: string): nat {
    if kind == "runtime" then 0 else if kind == "pack" then 1 else if kind == "wheel" then 2
    else if kind == "repair" then 3 else 9
  }

  function DepthIn(depth: map<string, nat>, id: string): nat {
    if id in depth then depth[id] else 0
  }

  /** Depth first, then node type; ties by title are left open. */
  function ScoreIn(depth: map<string, nat>): Node -> nat {
    (n: Node) => DepthIn(depth, n.id) * 10 + TypeRank(n.kind)
  }

  function Items(nodes: seq<Node>): seq<Node> {
    if nodes == [] then []
    else Items(nodes[..|nodes| - 1]) + (if nodes[|nodes| - 1].id == "" then [] else [nodes[|nodes| - 1]])
  }

  lemma {:induction false} ItemsMembers(nodes: seq<Node>)
    ensures forall n :: n in Items(nodes) <==> n in nodes && n.id != ""
    ensures forall n | n in Items(nodes) :: n.id in InputsById(nodes)
  {
    if nodes != [] {
      var init, last := nodes[..|nodes| - 1], nodes[|nodes| - 1];
      ItemsMembers(init);
      assert nodes == init + [last];
      assert forall n :: n in Items(nodes) <==> n in Items(init) || (n == last && n.id != "");
    }
  }

  lemma {:induction false} ItemOf(nodes: seq<Node>, k: string) returns (i: nat)
    requires k in InputsById(nodes)
    ensures i < |Items(nodes)| && Items(nodes)[i].id == k
  {
    var init, last := nodes[..|nodes| - 1], nodes[|nodes| - 1];
    if last.id != "" && last.id == k {
      i := |Items(nodes)| - 1;
    } else {
      i := ItemOf(init, k);
    }
  }

  lemma NoItems(nodes: seq<Node>)
    ensures Items(nodes) == [] <==> forall n | n in nodes :: n.id == ""
  {
    ItemsMembers(nodes);
    if Items(nodes) != [] {
      assert Items(nodes)[0] in Items(nodes);
    }
  }

  lemma ItemIds(nodes: seq<Node>)
    ensures forall i | 0 <= i < |Items(nodes)| :: Items(nodes)[i].id in InputsById(nodes)
  {
    ItemsMembers(nodes);
    assert forall i | 0 <= i < |Items(nodes)| :: Items(nodes)[i] in Items(nodes);
  }

  lemma ItemKnown(nodes: seq<Node>, n: Node)
    requires n in Items(nodes)
    ensures n.id in InputsById(nodes)
  {
    ItemsMembers(nodes);
  }

  /** Every item stands in the column of its depth, and nothing else does. */
  ghost predicate Bucketed(columns: seq<seq<Node>>, items: seq<Node>, depth: map<string, nat>) {
    && (forall c, n | 0 <= c < |columns| && n in columns[c] :: n in items && DepthIn(depth, n.id) == c)
    && forall n | n in items :: DepthIn(depth, n.id) < |columns| && n in columns[DepthIn(depth, n.id)]
  }

  lemma AllItemsCovered(nodes: seq<Node>, keys: set<string>)
    requires keys <= InputsById(nodes).Keys
    requires forall k | 0 <= k < |Items(nodes)| :: Items(nodes)[k].id in keys
    ensures keys == InputsById(nodes).Keys
  {
    forall k | k in InputsById(nodes)
      ensures k in keys
    {
      var i := ItemOf(nodes, k);
    }
  }

  ghost predicate AllLongest(m: Graph, depth: map<string, nat>) {
    depth.Keys == m.Keys && forall k | k in m :: Longest(Known(m), k, depth[k])
  }

  lemma DepthsAreLongest(m: Graph, depth: map<string, nat>)
    requires Acyclic(Known(m)) && depth.Keys == m.Keys
    requires forall k | k in depth :: DepthOf(m, k, depth[k])
    ensures AllLongest(m, depth)
  {
    forall k | k in m
      ensures Longest(Known(m), k, depth[k])
    {
      AcyclicGrounded(Known(m), k);
    }
  }

  /** The depth of every named node; a longest path where no cycle can be reached. */
  method Depth(nodes: seq<Node>, items: seq<Node>, m: Graph) returns (depth: map<string, nat>)
    requires items == Items(nodes) && m == InputsById(nodes)
    ensures depth.Keys == m.Keys
    ensures forall k | k in depth :: DepthOf(m, k, depth[k])
  {
    ItemIds(nodes);
    var d := new Depths(m);
    for i := 0 to |items|
      invariant d.m == m && d.Valid() && d.visiting == {}
      invariant forall k | 0 <= k < i :: items[k].id in d.depth
    {
      var _ := d.DepthFor(items[i].id);
    }
    AllItemsCovered(nodes, d.depth.Keys);
    depth := d.depth;
  }

  /** Within a column runtimes come before packs, packs before wheels and wheels before repairs. */
  ghost predicate TypeOrdered(columns: seq<seq<Node>>) {
    forall c, i, j | 0 <= c < |columns| && 0 <= i < j < |columns[c]| ::
      TypeRank(columns[c][i].kind) <= TypeRank(columns[c][j].kind)
  }

  /** The columns with n put at the end of column c, after empty columns up to c if there were none. */
  function Put(columns: seq<seq<Node>>, c: nat, n: Node): (r: seq<seq<Node>>)
    ensures |r| == if c < |columns| then |columns| else c + 1
  {
    if c < |columns| then columns[c := columns[c] + [n]]
    else columns + seq(c - |columns|, _ => []) + [[n]]
  }

  lemma PutCell(columns: seq<seq<Node>>, c: nat, n: Node, k: nat)
    requires k < |Put(columns, c, n)|
    ensures Put(columns, c, n)[k] == (if k < |columns| then columns[k] else []) + (if k == c then [n] else [])
  {
  }

  lemma PutFinds(columns: seq<seq<Node>>, items: seq<Node>, depth: map<string, nat>, n: Node, m: Node)
    requires Bucketed(columns, items, depth) && m in items + [n]
    ensures var r := Put(columns, DepthIn(depth, n.id), n);
            DepthIn(depth, m.id) < |r| && m in r[DepthIn(depth, m.id)]
  {
    PutCell(columns, DepthIn(depth, n.id), n, DepthIn(depth, m.id));
  }

  lemma PutHolds(columns: seq<seq<Node>>, items: seq<Node>, depth: map<string, nat>, n: Node, c: nat, m: Node)
    requires Bucketed(columns, items, depth)
    requires var r := Put(columns, DepthIn(depth, n.id), n); c < |r| && m in r[c]
    ensures m in items + [n] && DepthIn(depth, m.id) == c
  {
    PutCell(columns, DepthIn(depth, n.id), n, c);
  }

  lemma PutKeepsBuckets(columns: seq<seq<Node>>, items: seq<Node>, depth: map<string, nat>, n: Node)
    requires Bucketed(columns, items, depth)
    ensures Bucketed(Put(columns, DepthIn(depth, n.id), n), items + [n], depth)
  {
    var r := Put(columns, DepthIn(depth, n.id), n);
    forall m | m in items + [n]
      ensures DepthIn(depth, m.id) < |r| && m in r[DepthIn(depth, m.id)]
    {
      PutFinds(columns, items, depth, n, m);
    }
    forall c, m | 0 <= c < |r| && m in r[c]
      ensures m in items + [n] && DepthIn(depth, m.id) == c
    {
      PutHolds(columns, items, depth, n, c, m);
    }
  }

  lemma PutKeepsOrder(columns: seq<seq<Node>>, items: seq<Node>, depth: map<string, nat>, n: Node)
    requires Bucketed(columns, items, depth) && TypeOrdered(columns)
    requires forall m | m in items :: ScoreIn(depth)(m) <= ScoreIn(depth)(n)
    ensures TypeOrdered(Put(columns, DepthIn(depth, n.id), n))
  {
    var d := DepthIn(depth, n.id);
    var r: seq<seq<Node>> := Put(columns, d, n);
    forall c: nat, i: nat, j: nat | c < |r| && i < j < |r[c]|
      ensures TypeRank(r[c][i].kind) <= TypeRank(r[c][j].kind)
    {
      PutCell(columns, d, n, c);
      if c < |columns| && j == |columns[c]| {
        CellHoldsItem(columns, items, depth, c, i);
        assert ScoreIn(depth)(columns[c][i]) <= ScoreIn(depth)(n);
      }
    }
  }

  ghost predicate BucketInv(columns: seq<seq<Node>>, items: seq<Node>, depth: map<string, nat>) {
    && Bucketed(columns, items, depth) && TypeOrdered(columns)
    && (columns != [] ==> |columns[|columns| - 1]| > 0)
  }

  lemma EarlierScores(sorted: seq<Node>, depth: map<string, nat>, i: nat)
    requires i < |sorted| && Sorting.ByScore(sorted, ScoreIn(depth))
    ensures forall m | m in sorted[..i] :: ScoreIn(depth)(m) <= ScoreIn(depth)(sorted[i])
  {
    forall m | m in sorted[..i]
      ensures ScoreIn(depth)(m) <= ScoreIn(depth)(sorted[i])
    {
      var k :| 0 <= k < i && sorted[k] == m;
    }
  }

  lemma BucketStep(columns: seq<seq<Node>>, sorted: seq<Node>, depth: map<string, nat>, i: nat)
    requires i < |sorted| && Sorting.ByScore(sorted, ScoreIn(depth)) && BucketInv(columns, sorted[..i], depth)
    ensures BucketInv(Put(columns, DepthIn(depth, sorted[i].id), sorted[i]), sorted[..i + 1], depth)
  {
    var n, items := sorted[i], sorted[..i];
    assert sorted[..i + 1] == items + [n];
    EarlierScores(sorted, depth, i);
    PutKeepsBuckets(columns, items, depth, n);
    PutKeepsOrder(columns, items, depth, n);
  }

  method Bucket(sorted: seq<Node>, depth: map<string, nat>) returns (columns: seq<seq<Node>>)
    requires Sorting.ByScore(sorted, ScoreIn(depth))
    ensures BucketInv(columns, sorted, depth)
  {
    columns := [];
    for i := 0 to |sorted|
      invariant BucketInv(columns, sorted[..i], depth)
    {
      BucketStep(columns, sorted, depth, i);
      columns := Put(columns, DepthIn(depth, sorted[i].id), sorted[i]);
    }
    assert sorted[..|sorted|] == sorted;
  }

  function Cell(vertical: bool, level: nat, rank: nat): Pos {
    if vertical then Pos(rank, level) else Pos(level, rank)
  }

  /** id has the cell of one of its occurrences in the columns. */
  ghost predicate Placed(columns: seq<seq<Node>>, vertical: bool, id: string, p: Pos) {
    exists c, r :: 0 <= c < |columns| && 0 <= r < |columns[c]| && columns[c][r].id == id && p == Cell(vertical, c, r)
  }

  ghost predicate AllPlaced(columns: seq<seq<Node>>, vertical: bool, positions: map<string, Pos>) {
    && (forall id | id in positions :: Placed(columns, vertical, id, positions[id]))
    && forall c, r | 0 <= c < |columns| && 0 <= r < |columns[c]| :: columns[c][r].id in positions
  }

  method Place(columns: seq<seq<Node>>, vertical: bool) returns (positions: map<string, Pos>, bucket: nat)
    ensures AllPlaced(columns, vertical, positions)
    ensures forall c | 0 <= c < |columns| :: |columns[c]| <= bucket
    ensures bucket > 0 ==> exists c :: 0 <= c < |columns| && |columns[c]| == bucket
  {
    positions := map[];
    bucket := 0;
    for c := 0 to |columns|
      invariant forall id | id in positions :: Placed(columns, vertical, id, positions[id])
      invariant forall k, r | 0 <= k < c && 0 <= r < |columns[k]| :: columns[k][r].id in positions
      invariant forall k | 0 <= k < c :: |columns[k]| <= bucket
      invariant bucket > 0 ==> exists k :: 0 <= k < c && |columns[k]| == bucket
    {
      bucket := Max(bucket, |columns[c]|);
      for r := 0 to |columns[c]|
        invariant forall id | id in positions :: Placed(columns, vertical, id, positions[id])
        invariant forall k, q | 0 <= k < c && 0 <= q < |columns[k]| :: columns[k][q].id in positions
        invariant forall q | 0 <= q < r :: columns[c][q].id in positions
      {
        positions := positions[columns[c][r].id := Cell(vertical, c, r)];
        assert Placed(columns, vertical, columns[c][r].id, positions[columns[c][r].id]);
      }
    }
  }

  /** An edge for every input that has a position. */
  ghost predicate Drawn(edges: seq<Edge>, items: seq<Node>, m: Graph, positions: map<string, Pos>) {
    forall e :: e in edges <==> e.from in positions && e.from in Succ(m, e.to) && exists n :: n in items && n.id == e.to
  }

  method Edges(items: seq<Node>, m: Graph, positions: map<string, Pos>) returns (edges: seq<Edge>)
    requires forall i | 0 <= i < |items| :: items[i].id in m
    ensures Drawn(edges, items, m, positions)
  {
    edges := [];
    for i := 0 to |items|
      invariant Drawn(edges, items[..i], m, positions)
    {
      assert items[..i + 1] == items[..i] + [items[i]];
      var inputs := m[items[i].id];
      var own: seq<Edge> := [];
      for k := 0 to |inputs|
        invariant forall e :: e in own <==> e.from in positions && e.to == items[i].id && e.from in inputs[..k]
      {
        assert inputs[..k + 1] == inputs[..k] + [inputs[k]];
        if inputs[k] in positions {
          own := own + [Edge(inputs[k], items[i].id)];
        }
      }
      assert inputs[..|inputs|] == inputs;
      edges := edges + own;
    }
    assert items[..|items|] == items;
  }

  /** What holds of the layout of every graph, cyclic or not: one cell per node, boxes apart from each
      other and inside the canvas, and an edge for each input that is a node. */
  ghost predicate LaidOut(nodes: seq<Node>, l: Layout) {
    && (forall a :: a in l.positions <==> IsNode(nodes, a))
    && (forall a, b | a in l.positions && b in l.positions && a != b :: !Overlap(l.vertical, l.positions[a], l.positions[b]))
    && (forall a | a in l.positions :: Inside(l.vertical, l.positions[a], l.width, l.height))
    && (forall e :: e in l.edges <==> Feeds(nodes, e.from, e.to))
    && AllPlaced(l.columns, l.vertical, l.positions)
    && forall n: Node :: n.id != "" && n in nodes <==> exists c :: 0 <= c < |l.columns| && n in l.columns[c]
  }

  /** The columns hold at most tallest nodes, one of them as many; the canvas is no larger than they need. */
  ghost predicate Sized(l: Layout, tallest: nat) {
    && l.columns != [] && tallest > 0
    && (forall c | 0 <= c < |l.columns| :: |l.columns[c]| <= tallest)
    && (exists c :: 0 <= c < |l.columns| && |l.columns[c]| == tallest)
    && if l.vertical then
         && l.width == 36 + 210 * tallest + 20 * (tallest - 1)
         && l.height == 36 + 72 * |l.columns| + 36 * (|l.columns| - 1)
       else
         && l.width == 36 + 210 * |l.columns| + 36 * (|l.columns| - 1)
         && l.height == 36 + 72 * tallest + 20 * (tallest - 1)
  }

  /** The same as LaidOut over the graph of the inputs. */
  ghost predicate WellPlaced(nodes: seq<Node>, l: Layout) {
    var m := InputsById(nodes);
    && l.positions.Keys == m.Keys
    && (forall a, b | a in l.positions && b in l.positions && a != b :: !Overlap(l.vertical, l.positions[a], l.positions[b]))
    && (forall a | a in l.positions :: Inside(l.vertical, l.positions[a], l.width, l.height))
    && forall e :: e in l.edges <==> e.to in m && e.from in Succ(Known(m), e.to)
  }

  function Level(l: Layout, id: string): nat
    requires id in l.positions
  {
    if l.vertical then l.positions[id].row else l.positions[id].col
  }

  ghost predicate Occupied(l: Layout, c: nat) {
    exists a :: a in l.positions && Level(l, a) == c
  }

  ghost predicate GroundLayered(nodes: seq<Node>, l: Layout) {
    var g := Known(InputsById(nodes));
    && (forall a | a in l.positions && Grounded(g, a) :: Longest(g, a, Level(l, a)))
    && forall e | e in l.edges && Grounded(g, e.to) ::
         e.from in l.positions && e.to in l.positions && Level(l, e.from) < Level(l, e.to)
  }

  ghost predicate Layered(nodes: seq<Node>, l: Layout) {
    var g := Known(InputsById(nodes));
    && (forall a | a in l.positions :: Longest(g, a, Level(l, a)))
    && (forall e | e in l.edges :: e.from in l.positions && e.to in l.positions && Level(l, e.from) < Level(l, e.to))
    && forall c | 0 <= c < |l.columns| :: Occupied(l, c)
  }

  /** What holds of the nodes that reach no cycle, whatever the rest of the graph: their level is their longest
      chain of inputs, and every edge to such a node comes from a smaller level. */
  ghost predicate LevelsOffCycles(nodes: seq<Node>, l: Layout) {
    && (forall a | a in l.positions && OffCycles(nodes, a) :: LongestChain(nodes, a, Level(l, a)))
    && forall e | e in l.edges && OffCycles(nodes, e.to) ::
         e.from in l.positions && e.to in l.positions && Level(l, e.from) < Level(l, e.to)
  }

  lemma LevelsOver(nodes: seq<Node>, l: Layout)
    requires GroundLayered(nodes, l)
    ensures LevelsOffCycles(nodes, l)
  {
    forall a
      ensures OffCycles(nodes, a) <==> Grounded(Known(InputsById(nodes)), a)
    {
      OffCyclesIff(nodes, a);
    }
    forall a | a in l.positions && OffCycles(nodes, a)
      ensures LongestChain(nodes, a, Level(l, a))
    {
      LongestChainIff(nodes, a, Level(l, a));
    }
  }

  lemma NoCycles(nodes: seq<Node>)
    requires forall a :: !Needs(nodes, a, a)
    ensures Acyclic(Known(InputsById(nodes)))
  {
    forall a
      ensures !OnCycle(Known(InputsById(nodes)), a)
    {
      NeedsIsReach(nodes, a, a);
    }
  }

  lemma LaidOutOver(nodes: seq<Node>, items: seq<Node>, depth: map<string, nat>, l: Layout)
    requires WellPlaced(nodes, l) && AllPlaced(l.columns, l.vertical, l.positions)
    requires items == Items(nodes) && Bucketed(l.columns, items, depth)
    ensures LaidOut(nodes, l)
  {
    forall a
      ensures a in l.positions <==> IsNode(nodes, a)
    {
      IdsAreNodes(nodes, a);
    }
    forall e: Edge
      ensures e in l.edges <==> Feeds(nodes, e.from, e.to)
    {
      EdgesAreFeeds(nodes, e.to, e.from);
    }
    ItemsMembers(nodes);
    forall n: Node
      ensures n.id != "" && n in nodes <==> exists c :: 0 <= c < |l.columns| && n in l.columns[c]
    {
      assert n in items ==> n in l.columns[DepthIn(depth, n.id)];
    }
  }

  /** The node types in the order in which a column lists them; any other type comes last. */
  const TYPES: seq<string> := ["runtime", "pack", "wheel", "repair"]

  /** n may stand before m in a column. */
  ghost predicate TypeFits(n: Node, m: Node) {
    && (n.kind !in TYPES ==> m.kind !in TYPES)
    && forall a, b | 0 <= a < |TYPES| && 0 <= b < |TYPES| && n.kind == TYPES[a] && m.kind == TYPES[b] :: a <= b
  }

  lemma TypeFitsIff(n: Node, m: Node)
    ensures TypeFits(n, m) <==> TypeRank(n.kind) <= TypeRank(m.kind)
  {
    assert TYPES[0] == "runtime" && TYPES[1] == "pack" && TYPES[2] == "wheel" && TYPES[3] == "repair";
    assert forall k: string :: k in TYPES <==> k == "runtime" || k == "pack" || k == "wheel" || k == "repair";
  }

  ghost predicate ColumnsByType(columns: seq<seq<Node>>) {
    forall c, i, j | 0 <= c < |columns| && 0 <= i < j < |columns[c]| :: TypeFits(columns[c][i], columns[c][j])
  }

  lemma ColumnsOver(columns: seq<seq<Node>>)
    requires TypeOrdered(columns)
    ensures ColumnsByType(columns)
  {
    forall c: nat, i: nat, j: nat | c < |columns| && i < j < |columns[c]|
      ensures TypeFits(columns[c][i], columns[c][j])
    {
      TypeFitsIff(columns[c][i], columns[c][j]);
    }
  }

  /** The columns of the items, sorted by depth and type. */
  method Columns(items: seq<Node>, depth: map<string, nat>) returns (columns: seq<seq<Node>>)
    ensures BucketInv(columns, items, depth)
  {
    var sorted := Sorting.SortUnstable(items, ScoreIn(depth));
    SameMembers(sorted, items);
    columns := Bucket(sorted, depth);
  }

  lemma CanvasFits(l: Layout, bucket: nat)
    requires l.columns != [] && bucket > 0
    requires forall c | 0 <= c < |l.columns| :: |l.columns[c]| <= bucket
    requires exists c :: 0 <= c < |l.columns| && |l.columns[c]| == bucket
    requires l.width == Extent(if l.vertical then bucket else |l.columns|, NODE_WIDTH, HorizontalGap(l.vertical))
    requires l.height == Extent(if l.vertical then |l.columns| else bucket, NODE_HEIGHT, VerticalGap(l.vertical))
    ensures Sized(l, bucket)
  {
  }

  /** No layout without a named node; otherwise one in which every node has a place, and the nodes that reach no
      cycle are on the level of their longest chain. Without cycles every level holds a node. */
  method BuildDagLayout(nodes: seq<Node>, vertical: bool) returns (layout: Option<Layout>, ghost tallest: nat)
    ensures layout.None? <==> forall n | n in nodes :: n.id == ""
    ensures layout.Some? ==> layout.value.vertical == vertical && LaidOut(nodes, layout.value)
                             && Sized(layout.value, tallest) && ColumnsByType(layout.value.columns)
    ensures layout.Some? ==> LevelsOffCycles(nodes, layout.value)
    ensures layout.Some? && (forall a :: !Needs(nodes, a, a)) ==>
              forall c | 0 <= c < |layout.value.columns| :: Occupied(layout.value, c)
  {
    var items := Items(nodes);
    NoItems(nodes);
    if |items| == 0 {
      return None, 0;
    }
    var m := InputsById(nodes);
    ItemIds(nodes);
    var depth := Depth(nodes, items, m);
    var columns := Columns(items, depth);
    var positions, bucket := Place(columns, vertical);
    var edges := Edges(items, m, positions);
    var levels := Max(|columns|, 1);
    var cols := Max(1, if vertical then bucket else levels);
    var rows := Max(1, if vertical then levels else bucket);
    var l := Layout(columns, positions, edges, Extent(cols, NODE_WIDTH, HorizontalGap(vertical)),
                    Extent(rows, NODE_HEIGHT, VerticalGap(vertical)), vertical);
    layout, tallest := Some(l), bucket;
    SomeColumn(columns, items, depth);
    CanvasFits(l, bucket);
    ColumnsOver(columns);
    PlacedWell(nodes, items, depth, l, bucket, cols, rows);
    PropertiesHold(nodes, items, depth, l);
  }

  lemma PropertiesHold(nodes: seq<Node>, items: seq<Node>, depth: map<string, nat>, l: Layout)
    requires items == Items(nodes) && BucketInv(l.columns, items, depth)
    requires WellPlaced(nodes, l) && AllPlaced(l.columns, l.vertical, l.positions)
    requires depth.Keys == InputsById(nodes).Keys && forall k | k in depth :: DepthOf(InputsById(nodes), k, depth[k])
    ensures LaidOut(nodes, l) && LevelsOffCycles(nodes, l)
    ensures (forall a :: !Needs(nodes, a, a)) ==> forall c | 0 <= c < |l.columns| :: Occupied(l, c)
  {
    LaidOutOver(nodes, items, depth, l);
    GroundLayeredWell(nodes, items, depth, l);
    LevelsOver(nodes, l);
    if forall a :: !Needs(nodes, a, a) {
      NoCycles(nodes);
      DepthsAreLongest(InputsById(nodes), depth);
      LayeredWell(nodes, items, depth, l);
    }
  }

  lemma SomeColumn(columns: seq<seq<Node>>, items: seq<Node>, depth: map<string, nat>)
    requires Bucketed(columns, items, depth) && items != []
    ensures exists c :: 0 <= c < |columns| && |columns[c]| > 0
  {
    assert items[0] in items && items[0] in columns[DepthIn(depth, items[0].id)];
  }

  lemma SameMembers<T>(a: seq<T>, b: seq<T>)
    requires multiset(a) == multiset(b)
    ensures (forall x :: x in a <==> x in b) && |a| == |b|
  {
    assert forall x :: x in a <==> x in multiset(a);
    assert forall x :: x in b <==> x in multiset(b);
    assert |multiset(a)| == |multiset(b)|;
  }

  lemma CellsApart(vertical: bool, p: Pos, q: Pos)
    requires p != q
    ensures !Overlap(vertical, p, q)
  {
    if p.col < q.col {
      Spread(p.col, q.col, NODE_WIDTH + HorizontalGap(vertical));
    } else if q.col < p.col {
      Spread(q.col, p.col, NODE_WIDTH + HorizontalGap(vertical));
    } else if p.row < q.row {
      Spread(p.row, q.row, NODE_HEIGHT + VerticalGap(vertical));
    } else {
      Spread(q.row, p.row, NODE_HEIGHT + VerticalGap(vertical));
    }
  }

  lemma {:induction false} Spread(a: nat, b: nat, step: nat)
    requires a < b
    ensures a * step + step <= b * step
    decreases b
  {
    assert b * step == (b - 1) * step + step;
    if a < b - 1 {
      Spread(a, b - 1, step);
    }
  }

  lemma CellInside(vertical: bool, p: Pos, cols: nat, rows: nat)
    requires p.col < cols && p.row < rows
    ensures Inside(vertical, p, Extent(cols, NODE_WIDTH, HorizontalGap(vertical)),
                   Extent(rows, NODE_HEIGHT, VerticalGap(vertical)))
  {
    Fits(p.col, cols, NODE_WIDTH, HorizontalGap(vertical));
    Fits(p.row, rows, NODE_HEIGHT, VerticalGap(vertical));
  }

  lemma Fits(i: nat, count: nat, size: nat, gap: nat)
    requires i < count
    ensures PAD + i * (size + gap) + size + PAD <= Extent(count, size, gap)
  {
    assert i * size <= (count - 1) * size && i * gap <= (count - 1) * gap;
    assert i * (size + gap) == i * size + i * gap;
    assert count * size == (count - 1) * size + size;
  }

  lemma PlacedWell(nodes: seq<Node>, items: seq<Node>, depth: map<string, nat>, l: Layout, bucket: nat, cols: nat, rows: nat)
    requires items == Items(nodes) && Bucketed(l.columns, items, depth)
    requires AllPlaced(l.columns, l.vertical, l.positions)
    requires forall c | 0 <= c < |l.columns| :: |l.columns[c]| <= bucket
    requires Drawn(l.edges, items, InputsById(nodes), l.positions)
    requires cols == Max(1, if l.vertical then bucket else Max(|l.columns|, 1))
    requires rows == Max(1, if l.vertical then Max(|l.columns|, 1) else bucket)
    requires l.width == Extent(cols, NODE_WIDTH, HorizontalGap(l.vertical))
    requires l.height == Extent(rows, NODE_HEIGHT, VerticalGap(l.vertical))
    ensures WellPlaced(nodes, l)
  {
    PositionsCover(nodes, items, depth, l);
    EdgesAreKnown(nodes, items, l);
    forall a, b | a in l.positions && b in l.positions && a != b
      ensures !Overlap(l.vertical, l.positions[a], l.positions[b])
    {
      DifferentCells(l, a, b);
      CellsApart(l.vertical, l.positions[a], l.positions[b]);
    }
    forall a | a in l.positions
      ensures Inside(l.vertical, l.positions[a], l.width, l.height)
    {
      CellBounds(l, a, bucket);
      CellInside(l.vertical, l.positions[a], cols, rows);
    }
  }

  lemma DifferentCells(l: Layout, a: string, b: string)
    requires AllPlaced(l.columns, l.vertical, l.positions) && a in l.positions && b in l.positions && a != b
    ensures l.positions[a] != l.positions[b]
  {
    assert Placed(l.columns, l.vertical, a, l.positions[a]) && Placed(l.columns, l.vertical, b, l.positions[b]);
  }

  lemma CellBounds(l: Layout, a: string, bucket: nat)
    requires AllPlaced(l.columns, l.vertical, l.positions) && a in l.positions
    requires forall c | 0 <= c < |l.columns| :: |l.columns[c]| <= bucket
    ensures (if l.vertical then l.positions[a].row else l.positions[a].col) < |l.columns|
    ensures (if l.vertical then l.positions[a].col else l.positions[a].row) < bucket
  {
    assert Placed(l.columns, l.vertical, a, l.positions[a]);
  }

  lemma EdgesAreKnown(nodes: seq<Node>, items: seq<Node>, l: Layout)
    requires items == Items(nodes) && Drawn(l.edges, items, InputsById(nodes), l.positions)
    requires l.positions.Keys == InputsById(nodes).Keys
    ensures forall e :: e in l.edges <==> e.to in InputsById(nodes) && e.from in Succ(Known(InputsById(nodes)), e.to)
  {
    var m := InputsById(nodes);
    ItemIds(nodes);
    forall e: Edge
      ensures e in l.edges <==> e.to in m && e.from in Succ(Known(m), e.to)
    {
      KnownSucc(m, e.to);
      if e.to in m {
        var i := ItemOf(nodes, e.to);
        assert items[i] in items;
      }
    }
  }

  lemma PositionsCover(nodes: seq<Node>, items: seq<Node>, depth: map<string, nat>, l: Layout)
    requires items == Items(nodes) && Bucketed(l.columns, items, depth)
    requires AllPlaced(l.columns, l.vertical, l.positions)
    ensures l.positions.Keys == InputsById(nodes).Keys
  {
    forall k | k in l.positions
      ensures k in InputsById(nodes)
    {
      PlacedIsItem(nodes, items, depth, l, k);
    }
    forall i | 0 <= i < |items|
      ensures items[i].id in l.positions.Keys
    {
      ItemIsPlaced(items, depth, l, i);
    }
    AllItemsCovered(nodes, l.positions.Keys);
  }

  lemma ItemIsPlaced(items: seq<Node>, depth: map<string, nat>, l: Layout, i: nat)
    requires Bucketed(l.columns, items, depth) && i < |items|
    requires AllPlaced(l.columns, l.vertical, l.positions)
    ensures items[i].id in l.positions
  {
    var n, c := items[i], DepthIn(depth, items[i].id);
    assert n in items && n in l.columns[c];
    var r :| 0 <= r < |l.columns[c]| && l.columns[c][r] == n;
  }

  lemma PlacedIsItem(nodes: seq<Node>, items: seq<Node>, depth: map<string, nat>, l: Layout, k: string)
    requires items == Items(nodes) && Bucketed(l.columns, items, depth)
    requires k in l.positions && Placed(l.columns, l.vertical, k, l.positions[k])
    ensures k in InputsById(nodes)
  {
    var c, r :| 0 <= c < |l.columns| && 0 <= r < |l.columns[c]| && l.columns[c][r].id == k
                && l.positions[k] == Cell(l.vertical, c, r);
    CellHoldsItem(l.columns, items, depth, c, r);
    ItemKnown(nodes, l.columns[c][r]);
  }

  lemma CellHoldsItem(columns: seq<seq<Node>>, items: seq<Node>, depth: map<string, nat>, c: nat, r: nat)
    requires Bucketed(columns, items, depth) && c < |columns| && r < |columns[c]|
    ensures columns[c][r] in items && DepthIn(depth, columns[c][r].id) == c
  {
    assert columns[c][r] in columns[c];
  }

  lemma LevelIsDepth(nodes: seq<Node>, items: seq<Node>, depth: map<string, nat>, l: Layout, a: string)
    requires Bucketed(l.columns, items, depth) && a in l.positions
    requires Placed(l.columns, l.vertical, a, l.positions[a])
    ensures Level(l, a) == DepthIn(depth, a)
  {
    var c, r :| 0 <= c < |l.columns| && 0 <= r < |l.columns[c]| && l.columns[c][r].id == a
                && l.positions[a] == Cell(l.vertical, c, r);
    CellHoldsItem(l.columns, items, depth, c, r);
  }

  /** Below a node of depth d there are nodes of every smaller depth. */
  lemma {:induction false} EveryDepthBelow(m: Graph, a: string, d: nat, c: nat) returns (b: string)
    requires a in m && Longest(Known(m), a, d) && c <= d
    ensures b in m && Longest(Known(m), b, c)
    decreases d
  {
    if c == d {
      b := a;
    } else {
      var s :| s in Succ(Known(m), a) && HasPath(Known(m), s, d - 1);
      KnownSucc(m, a);
      b := EveryDepthBelow(m, s, d - 1, c);
    }
  }

  /** Every box is on the level of its node's depth. */
  ghost predicate OnLevels(m: Graph, l: Layout) {
    l.positions.Keys == m.Keys && forall a | a in m :: Longest(Known(m), a, Level(l, a))
  }

  lemma EdgeDescends(m: Graph, l: Layout, a: string, b: string)
    requires OnLevels(m, l) && a in m && b in Succ(Known(m), a)
    ensures b in m && Level(l, b) < Level(l, a)
  {
    KnownSucc(m, a);
    EdgeShortens(Known(m), a, b, Level(l, a), Level(l, b));
  }

  lemma LevelsFit(nodes: seq<Node>, items: seq<Node>, depth: map<string, nat>, l: Layout)
    requires Bucketed(l.columns, items, depth) && AllLongest(InputsById(nodes), depth)
    requires l.positions.Keys == InputsById(nodes).Keys && AllPlaced(l.columns, l.vertical, l.positions)
    ensures OnLevels(InputsById(nodes), l)
  {
    var m := InputsById(nodes);
    forall a | a in m
      ensures Longest(Known(m), a, Level(l, a))
    {
      LevelIsDepth(nodes, items, depth, l, a);
      DepthIsLongest(m, depth, a);
    }
  }

  lemma NoGap(nodes: seq<Node>, items: seq<Node>, depth: map<string, nat>, l: Layout)
    requires items == Items(nodes) && Bucketed(l.columns, items, depth) && AllLongest(InputsById(nodes), depth)
    requires l.columns != [] ==> |l.columns[|l.columns| - 1]| > 0
    requires OnLevels(InputsById(nodes), l)
    ensures forall c | 0 <= c < |l.columns| :: Occupied(l, c)
  {
    if l.columns != [] {
      var top := TopNode(nodes, items, depth, l.columns);
      forall c | 0 <= c < |l.columns|
        ensures Occupied(l, c)
      {
        LevelOccupied(InputsById(nodes), l, top, c);
      }
    }
  }

  lemma EdgesDescend(nodes: seq<Node>, l: Layout)
    requires WellPlaced(nodes, l) && OnLevels(InputsById(nodes), l)
    ensures forall e | e in l.edges :: e.from in l.positions && e.to in l.positions && Level(l, e.from) < Level(l, e.to)
  {
    forall e | e in l.edges
      ensures e.from in l.positions && e.to in l.positions && Level(l, e.from) < Level(l, e.to)
    {
      EdgeDescends(InputsById(nodes), l, e.to, e.from);
    }
  }

  lemma LayeredWell(nodes: seq<Node>, items: seq<Node>, depth: map<string, nat>, l: Layout)
    requires WellPlaced(nodes, l) && items == Items(nodes) && Bucketed(l.columns, items, depth)
    requires AllLongest(InputsById(nodes), depth)
    requires l.columns != [] ==> |l.columns[|l.columns| - 1]| > 0
    requires AllPlaced(l.columns, l.vertical, l.positions)
    ensures Layered(nodes, l)
  {
    LevelsFit(nodes, items, depth, l);
    NoGap(nodes, items, depth, l);
    EdgesDescend(nodes, l);
  }

  lemma GroundLevel(nodes: seq<Node>, items: seq<Node>, depth: map<string, nat>, l: Layout, a: string)
    requires Bucketed(l.columns, items, depth) && AllPlaced(l.columns, l.vertical, l.positions)
    requires a in l.positions && a in depth && DepthOf(InputsById(nodes), a, depth[a])
    requires Grounded(Known(InputsById(nodes)), a)
    ensures Longest(Known(InputsById(nodes)), a, Level(l, a))
  {
    LevelIsDepth(nodes, items, depth, l, a);
  }

  lemma GroundLayeredWell(nodes: seq<Node>, items: seq<Node>, depth: map<string, nat>, l: Layout)
    requires WellPlaced(nodes, l) && Bucketed(l.columns, items, depth) && AllPlaced(l.columns, l.vertical, l.positions)
    requires depth.Keys == InputsById(nodes).Keys && forall k | k in depth :: DepthOf(InputsById(nodes), k, depth[k])
    ensures GroundLayered(nodes, l)
  {
    var m := InputsById(nodes);
    forall a | a in l.positions && Grounded(Known(m), a)
      ensures Longest(Known(m), a, Level(l, a))
    {
      GroundLevel(nodes, items, depth, l, a);
    }
    forall e | e in l.edges && Grounded(Known(m), e.to)
      ensures e.from in l.positions && e.to in l.positions && Level(l, e.from) < Level(l, e.to)
    {
      KnownSucc(m, e.to);
      GroundedStep(Known(m), e.to, e.from);
      GroundLevel(nodes, items, depth, l, e.to);
      GroundLevel(nodes, items, depth, l, e.from);
      EdgeShortens(Known(m), e.to, e.from, Level(l, e.to), Level(l, e.from));
    }
  }

  lemma LevelOccupied(m: Graph, l: Layout, top: string, c: nat)
    requires c < |l.columns| && top in m && Longest(Known(m), top, |l.columns| - 1)
    requires OnLevels(m, l)
    ensures Occupied(l, c)
  {
    var b := EveryDepthBelow(m, top, |l.columns| - 1, c);
    LongestUnique(Known(m), b, c, Level(l, b));
  }

  lemma TopNode(nodes: seq<Node>, items: seq<Node>, depth: map<string, nat>, columns: seq<seq<Node>>) returns (top: string)
    requires items == Items(nodes) && Bucketed(columns, items, depth) && columns != []
    requires |columns[|columns| - 1]| > 0
    requires AllLongest(InputsById(nodes), depth)
    ensures top in InputsById(nodes) && Longest(Known(InputsById(nodes)), top, |columns| - 1)
  {
    var last := |columns| - 1;
    top := columns[last][0].id;
    CellHoldsItem(columns, items, depth, last, 0);
    ItemKnown(nodes, columns[last][0]);
    DepthIsLongest(InputsById(nodes), depth, top);
  }

  lemma DepthIsLongest(m: Graph, depth: map<string, nat>, id: string)
    requires AllLongest(m, depth) && id in m
    ensures Longest(Known(m), id, DepthIn(depth, id))
  {
  }
}
