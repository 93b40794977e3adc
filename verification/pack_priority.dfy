/** The priority re-sort that resolvePacks applies after the topological order. */
module PackPriority {
  import opened Artifact
  import opened Digraph
  import opened PackOrder
  import opened Text
  import Catalog
  import Sorting

  /** The rank of a pack name: its place in the priority table, counted from 1, or 0 outside the table. */
  function Rank(name: string): nat {
    if name == "pkgconf" then 1 else if name == "zlib" then 2 else if name == "xz" then 3 else
    if name == "bzip2" then 4 else if name == "zstd" then 5 else if name == "openssl" then 6 else
    if name == "libffi" then 7 else if name == "sqlite" then 8 else if name == "libxml2" then 9 else
    if name == "libxslt" then 10 else if name == "libpng" then 11 else if name == "jpeg" then 12 else
    if name == "freetype" then 13 else if name == "openblas" then 14 else if name == "rust" then 15 else
    if name == "cmake" then 16 else if name == "ninja" then 17 else
    0
  }

  /** The priority table, from first to last. */
  const PRIORITIES: seq<string> :=
    ["pkgconf", "zlib", "xz", "bzip2", "zstd", "openssl", "libffi", "sqlite", "libxml2", "libxslt", "libpng", "jpeg",
     "freetype", "openblas", "rust", "cmake", "ninja"]

  lemma RankIsPlace(name: string)
    ensures forall i | 0 <= i < |PRIORITIES| && PRIORITIES[i] == name :: Rank(name) == i + 1
    ensures name !in PRIORITIES ==> Rank(name) == 0
  {
  }

  predicate InTable(name: string) {
    Rank(name) > 0
  }

  function NameOf(nodes: map<string, DAGNode>, digest: string): string {
    if digest in nodes then nodes[digest].name else ""
  }

  function RankIn(nodes: map<string, DAGNode>): ID -> nat {
    (id: ID) => Rank(NameOf(nodes, id.digest))
  }

  ghost predicate Ranked(nodes: map<string, DAGNode>, ids: seq<ID>) {
    forall i, j | 0 <= i < j < |ids| :: Rank(NameOf(nodes, ids[i].digest)) <= Rank(NameOf(nodes, ids[j].digest))
  }

  /** The sort by rank is unstable: packs of equal rank may come in any order. */
  method SortPacksByPriority(ids: seq<ID>, nodes: map<string, DAGNode>) returns (out: seq<ID>)
    ensures multiset(out) == multiset(ids)
    ensures Ranked(nodes, out)
  {
    out := Sorting.SortUnstable(ids, RankIn(nodes));
    forall i, j | 0 <= i < j < |out|
      ensures Rank(NameOf(nodes, out[i].digest)) <= Rank(NameOf(nodes, out[j].digest))
    {
      assert RankIn(nodes)(out[i]) <= RankIn(nodes)(out[j]);
    }
  }

  /** What the planner guarantees about pack nodes: each digest occurs once, and the inputs of a pack
      are earlier packs that the dependency table names for it. */
  ghost predicate PlannerMade(dag: seq<DAGNode>) {
    && (forall i, j | 0 <= i < j < |dag| && dag[i].kind.Pack? && dag[j].kind.Pack? :: dag[i].id.digest != dag[j].id.digest)
    && forall i, k | 0 <= i < |dag| && dag[i].kind.Pack? && 0 <= k < |dag[i].inputs| :: NeedsEarlier(dag, i, dag[i].inputs[k])
  }

  ghost predicate NeedsEarlier(dag: seq<DAGNode>, i: nat, input: ID)
    requires i < |dag|
  {
    exists j :: 0 <= j < i && dag[j].kind.Pack? && dag[j].id == input
                && dag[j].name in Catalog.PackDependencies(dag[i].name)
  }

  lemma {:induction false} PackNodesAt(dag: seq<DAGNode>)
    ensures forall d | d in PackNodes(dag) ::
              exists i :: 0 <= i < |dag| && dag[i].kind.Pack? && dag[i].id.digest == d && PackNodes(dag)[d] == dag[i]
    ensures forall i | 0 <= i < |dag| && dag[i].kind.Pack? :: dag[i].id.digest in PackNodes(dag)
  {
    if dag != [] {
      PackNodesAt(dag[..|dag| - 1]);
    }
  }

  lemma {:induction false} PackInputsFrom(inputs: seq<ID>, d: string)
    requires d in PackInputs(inputs)
    ensures exists k :: 0 <= k < |inputs| && inputs[k] == ID(Pack, d)
  {
    if inputs[0] == ID(Pack, d) {
    } else {
      PackInputsFrom(inputs[1..], d);
      var k :| 0 <= k < |inputs[1..]| && inputs[1..][k] == ID(Pack, d);
      assert inputs[k + 1] == ID(Pack, d);
    }
  }

  lemma EdgeIsDependency(dag: seq<DAGNode>, a: string, b: string)
    requires PlannerMade(dag) && b in Succ(PackGraph(dag), a)
    ensures a in PackNodes(dag) && b in PackNodes(dag)
    ensures NameOf(PackNodes(dag), b) in Catalog.PackDependencies(NameOf(PackNodes(dag), a))
  {
    var nodes := PackNodes(dag);
    PackNodesAt(dag);
    var i :| 0 <= i < |dag| && dag[i].kind.Pack? && dag[i].id.digest == a && nodes[a] == dag[i];
    PackInputsFrom(dag[i].inputs, b);
    var k :| 0 <= k < |dag[i].inputs| && dag[i].inputs[k] == ID(Pack, b);
    assert NeedsEarlier(dag, i, dag[i].inputs[k]);
    var j :| 0 <= j < i && dag[j].kind.Pack? && dag[j].id == dag[i].inputs[k]
             && dag[j].name in Catalog.PackDependencies(dag[i].name);
    var j' :| 0 <= j' < |dag| && dag[j'].kind.Pack? && dag[j'].id.digest == b && nodes[b] == dag[j'];
    assert j == j';
  }

  lemma DependencyRanks(name: string, dep: string)
    requires dep in Catalog.PackDependencies(name)
    ensures InTable(dep)
    ensures InTable(name) ==> Rank(dep) < Rank(name)
  {
    if InTable(name) {
      TableIsLower(name);
    }
  }

  lemma TableIsLower(name: string)
    requires InTable(name)
    ensures ToLower(name) == name
  {
    assert forall i | 0 <= i < |name| :: LowerChar(name[i]) == name[i];
  }

  /** Rank of the pack with a digest. */
  function DigestRank(dag: seq<DAGNode>, d: string): nat {
    Rank(NameOf(PackNodes(dag), d))
  }

  lemma EdgeRanks(dag: seq<DAGNode>, a: string, b: string)
    requires PlannerMade(dag) && b in Succ(PackGraph(dag), a)
    ensures DigestRank(dag, b) > 0
    ensures DigestRank(dag, a) > 0 ==> DigestRank(dag, b) < DigestRank(dag, a)
  {
    EdgeIsDependency(dag, a, b);
    DependencyRanks(NameOf(PackNodes(dag), a), NameOf(PackNodes(dag), b));
  }

  /** Along a path of dependencies the last name is in the table, and below the first if that is too. */
  lemma {:induction false} PathRanks(dag: seq<DAGNode>, a: string, b: string, n: nat)
    requires PlannerMade(dag) && ReachIn(PackGraph(dag), a, b, n)
    ensures DigestRank(dag, b) > 0
    ensures DigestRank(dag, a) > 0 ==> DigestRank(dag, b) < DigestRank(dag, a)
    decreases n
  {
    if n == 0 {
      EdgeRanks(dag, a, b);
    } else {
      var m :| m in Succ(PackGraph(dag), a) && ReachIn(PackGraph(dag), m, b, n - 1);
      EdgeRanks(dag, a, m);
      PathRanks(dag, m, b, n - 1);
    }
  }

  /** Every pack of the list stands after the packs of the list it needs, directly or not. */
  ghost predicate AllNeedsFirst(dag: seq<DAGNode>, ids: seq<ID>) {
    forall i, j | 0 <= i < |ids| && 0 <= j < |ids| && PackNeeds(dag, ids[i].digest, ids[j].digest) :: j < i
  }

  /** A pack that needs another pack of the list, directly or not, and is outside the table. */
  ghost predicate Unranked(dag: seq<DAGNode>, ids: seq<ID>) {
    exists a, b :: a in ids && b in ids && PackNeeds(dag, a.digest, b.digest)
                   && NameOf(PackNodes(dag), a.digest) !in PRIORITIES
  }

  lemma InTableIff(name: string)
    ensures InTable(name) <==> name in PRIORITIES
  {
    RankIsPlace(name);
    if name in PRIORITIES {
      var i :| 0 <= i < |PRIORITIES| && PRIORITIES[i] == name;
    }
  }

  lemma SameElements(ids: seq<ID>, out: seq<ID>)
    requires multiset(out) == multiset(ids)
    ensures forall t :: t in out <==> t in ids
  {
    assert forall t :: t in out <==> t in multiset(out);
    assert forall t :: t in ids <==> t in multiset(ids);
  }

  /** A pack outside the table comes before what it needs; one in the table comes after. */
  lemma NeedsInOrder(dag: seq<DAGNode>, out: seq<ID>, i: nat, j: nat)
    requires PlannerMade(dag) && Ranked(PackNodes(dag), out) && i < |out| && j < |out|
    requires PackNeeds(dag, out[i].digest, out[j].digest)
    ensures j < i <==> NameOf(PackNodes(dag), out[i].digest) in PRIORITIES
  {
    NeedsIsReach(dag, out[i].digest, out[j].digest);
    InTableIff(NameOf(PackNodes(dag), out[i].digest));
    var n: nat :| ReachIn(PackGraph(dag), out[i].digest, out[j].digest, n);
    PathRanks(dag, out[i].digest, out[j].digest, n);
  }

  /** Re-sorting by priority keeps every dependency first exactly when each pack of the list that needs
      another one is in the table; packs outside it, such as cpython, always come before what they need. */
  lemma ResortKeepsOrderIff(dag: seq<DAGNode>, ids: seq<ID>, out: seq<ID>)
    requires PlannerMade(dag)
    requires multiset(out) == multiset(ids) && Ranked(PackNodes(dag), out)
    ensures AllNeedsFirst(dag, out) <==> !Unranked(dag, ids)
  {
    SameElements(ids, out);
    if Unranked(dag, ids) {
      var a, b :| a in ids && b in ids && PackNeeds(dag, a.digest, b.digest)
                  && NameOf(PackNodes(dag), a.digest) !in PRIORITIES;
      var i: nat :| i < |out| && out[i] == a;
      var j: nat :| j < |out| && out[j] == b;
      NeedsInOrder(dag, out, i, j);
    } else {
      forall i, j | 0 <= i < |out| && 0 <= j < |out| && PackNeeds(dag, out[i].digest, out[j].digest)
        ensures j < i
      {
        NeedsInOrder(dag, out, i, j);
      }
    }
  }

  /** The order in which resolvePacks prepares the packs of a job: topological, then by priority. Each pack
      once, and dependencies first exactly when every pack that needs another one is in the table. */
  method ResolveOrder(targets: seq<ID>, dag: seq<DAGNode>) returns (out: seq<ID>)
    requires PlannerMade(dag)
    ensures Digests(out) == Digests(targets) && Distinct(out)
    ensures Ranked(PackNodes(dag), out)
    ensures AllNeedsFirst(dag, out) <==> !Unranked(dag, out)
  {
    var ids := TopoSortFromDag(targets, dag);
    out := SortPacksByPriority(ids, PackNodes(dag));
    PermutationKeeps(ids, out);
    ResortKeepsOrderIff(dag, ids, out);
  }

  lemma TwicePresent(ids: seq<ID>, i: nat, j: nat)
    requires i < j < |ids| && ids[i] == ids[j]
    ensures multiset(ids)[ids[i]] >= 2
  {
    var front, back := ids[..j], ids[j..];
    assert ids == front + back;
    assert front[i] in multiset(front) && back[0] in multiset(back);
  }

  lemma PermutationKeeps(ids: seq<ID>, out: seq<ID>)
    requires multiset(out) == multiset(ids) && Distinct(ids)
    ensures Distinct(out) && forall t :: t in out <==> t in ids
  {
    assert forall t :: t in out <==> t in multiset(out);
    assert forall t :: t in ids <==> t in multiset(ids);
    forall i, j | 0 <= i < j < |out|
      ensures out[i] != out[j]
    {
      OnlyOnce(ids, out[i]);
      if out[i] == out[j] {
        TwicePresent(out, i, j);
      }
    }
  }

  lemma {:induction false} OnlyOnce(ids: seq<ID>, t: ID)
    requires Distinct(ids)
    ensures multiset(ids)[t] <= 1
  {
    if ids != [] {
      var n := |ids| - 1;
      assert ids == ids[..n] + [ids[n]];
      OnlyOnce(ids[..n], t);
      if ids[n] == t {
        assert t !in ids[..n];
      }
    }
  }
}
