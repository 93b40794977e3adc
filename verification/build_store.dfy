/** The build_status table: what each SQL statement does to a row, and the store that applies them. */
module BuildStore {
  import opened Text

  datatype Status = Pending | Leased | Building | Retry | Built | Failed | Other(text: string)

  datatype Key = Key(package: string, version: string)

  /** The columns that steer the queue. Times are nanoseconds of one clock. */
  datatype Row = Row(
    status: Status,
    attempts: int,
    backoffUntil: Option<int>,
    recipes: Option<seq<string>>,
    leasedAt: Option<int>,
    startedAt: Option<int>,
    finishedAt: Option<int>,
    createdAt: int,
    updatedAt: int)

  /** The body of a status update; backoffUntil is a Unix second, 0 or less when absent. */
  datatype Report = Report(status: Status, attempts: int, backoffUntil: int, recipes: Option<seq<string>>)

  datatype PlanNode = PlanNode(name: string, version: string, action: string, recipes: seq<string>)

  const NANOS := 1_000_000_000

  function Coalesce<T>(a: Option<T>, b: Option<T>): Option<T> {
    if a.Some? then a else b
  }

  function Clamp(attempts: int): int {
    if attempts < 0 then 0 else attempts
  }

  function BackoffColumn(seconds: int): Option<int> {
    if seconds > 0 then Some(seconds * NANOS) else None
  }

  // ----- UpdateBuildStatus -----

  function InsertedRow(r: Report, now: int): Row {
    Row(r.status, Clamp(r.attempts), BackoffColumn(r.backoffUntil), r.recipes,
        if r.status.Leased? then Some(now) else None,
        if r.status.Building? then Some(now) else None,
        if r.status.Built? || r.status.Failed? then Some(now) else None,
        now, now)
  }

  function UpdatedRow(row: Row, r: Report, now: int): Row {
    Row(r.status, Clamp(r.attempts), BackoffColumn(r.backoffUntil), Coalesce(r.recipes, row.recipes),
        match r.status
        case Pending | Retry => None
        case Leased => Coalesce(row.leasedAt, Some(now))
        case _ => row.leasedAt,
        match r.status
        case Pending | Retry | Leased => None
        case Building => Coalesce(row.startedAt, Some(now))
        case _ => row.startedAt,
        match r.status
        case Pending | Retry | Leased | Building => None
        case Built | Failed => Some(now)
        case _ => row.finishedAt,
        row.createdAt, now)
  }

  function Upserted(row: Option<Row>, r: Report, now: int): Row {
    if row.Some? then UpdatedRow(row.value, r, now) else InsertedRow(r, now)
  }

  // ----- QueueBuildsFromPlan -----

  function NamedRecipes(recipes: seq<string>): seq<string> {
    if recipes == [] then []
    else (if recipes[0] == "" then [] else [recipes[0]]) + NamedRecipes(recipes[1..])
  }

  function PlanRecipes(recipes: seq<string>): Option<seq<string>> {
    var named := NamedRecipes(recipes);
    if named == [] then None else Some(named)
  }

  predicate Queued(n: PlanNode) {
    ToLower(n.action) == "build" && n.name != "" && n.version != ""
  }

  /** A re-enqueued row is pending with no attempts; it keeps its time stamps. */
  function EnqueuedRow(row: Option<Row>, recipes: Option<seq<string>>, now: int): Row {
    if row.Some? then
      row.value.(status := Pending, attempts := 0, backoffUntil := None,
                 recipes := Coalesce(recipes, row.value.recipes))
    else
      Row(Pending, 0, None, recipes, None, None, None, now, now)
  }

  function Lookup(table: map<Key, Row>, k: Key): Option<Row> {
    if k in table then Some(table[k]) else None
  }

  function EnqueuedTable(table: map<Key, Row>, nodes: seq<PlanNode>, now: int): map<Key, Row>
    decreases nodes
  {
    if nodes == [] then table
    else EnqueuedTable(EnqueueNode(table, nodes[0], now), nodes[1..], now)
  }

  function EnqueueNode(table: map<Key, Row>, n: PlanNode, now: int): map<Key, Row> {
    if Queued(n) then
      var k := Key(n.name, n.version);
      table[k := EnqueuedRow(Lookup(table, k), PlanRecipes(n.recipes), now)]
    else table
  }

  // ----- LeaseBuilds -----

  predicate Leasable(row: Row, now: int) {
    && (row.status.Pending? || row.status.Retry?)
    && (row.backoffUntil.None? || row.backoffUntil.value <= now)
  }

  function LeasedRow(row: Row, now: int): Row {
    row.(status := Leased, attempts := row.attempts + 1, leasedAt := Some(now),
         startedAt := None, finishedAt := None, updatedAt := now)
  }

  function LeasedTable(table: map<Key, Row>, batch: set<Key>, now: int): map<Key, Row> {
    map k | k in table :: if k in batch then LeasedRow(table[k], now) else table[k]
  }

  function LeasableKeys(table: map<Key, Row>, now: int): set<Key> {
    set k | k in table && Leasable(table[k], now)
  }

  // ----- RequeueStaleLeases -----

  predicate Stale(row: Row, maxAgeSec: int, now: int) {
    && row.status.Leased?
    && (if row.leasedAt.Some? then row.leasedAt.value else row.updatedAt) < now - maxAgeSec * NANOS
  }

  function ExpiredRow(row: Row, now: int): Row {
    row.(status := Pending, backoffUntil := None, leasedAt := None, startedAt := None, finishedAt := None,
         updatedAt := now)
  }

  function StaleKeys(table: map<Key, Row>, maxAgeSec: int, now: int): set<Key> {
    set k | k in table && maxAgeSec > 0 && Stale(table[k], maxAgeSec, now)
  }

  function ExpiredTable(table: map<Key, Row>, maxAgeSec: int, now: int): map<Key, Row> {
    if maxAgeSec <= 0 then table
    else map k | k in table :: if Stale(table[k], maxAgeSec, now) then ExpiredRow(table[k], now) else table[k]
  }

  // ----- DeleteBuilds -----

  function RemainingTable(table: map<Key, Row>, filter: Option<Status>): map<Key, Row> {
    map k | k in table && filter.Some? && table[k].status != filter.value :: table[k]
  }

  // ----- The time stamps -----

  predicate Before(a: Option<int>, b: Option<int>) {
    a.Some? && b.Some? ==> a.value <= b.value
  }

  /** Which stamps a status allows, and that leased <= started <= finished <= now wherever they are set. */
  predicate Stamped(row: Row, now: int) {
    && (match row.status
        case Leased => row.leasedAt.Some? && row.startedAt.None? && row.finishedAt.None?
        case Building => row.startedAt.Some? && row.finishedAt.None?
        case Built | Failed => row.finishedAt.Some?
        case Retry => row.leasedAt.None? && row.startedAt.None? && row.finishedAt.None?
        case Pending | Other(_) => true)
    && Before(row.leasedAt, row.startedAt)
    && Before(row.leasedAt, row.finishedAt)
    && Before(row.startedAt, row.finishedAt)
    && Before(row.leasedAt, Some(now))
    && Before(row.startedAt, Some(now))
    && Before(row.finishedAt, Some(now))
  }

  ghost predicate AllStamped(table: map<Key, Row>, now: int) {
    forall k | k in table :: Stamped(table[k], now)
  }

  lemma {:induction false} EnqueueKeepsStamps(table: map<Key, Row>, nodes: seq<PlanNode>, now: int)
    requires AllStamped(table, now)
    ensures AllStamped(EnqueuedTable(table, nodes, now), now)
    decreases nodes
  {
    if nodes != [] {
      EnqueueKeepsStamps(EnqueueNode(table, nodes[0], now), nodes[1..], now);
    }
  }

  /** Entry n asks for a build of row k: its action is "build" in any case, and it names k. */
  predicate BuildOf(n: PlanNode, k: Key) {
    EqualFold(n.action, "build") && n.name == k.package && n.version == k.version && k.package != "" && k.version != ""
  }

  ghost predicate Queues(nodes: seq<PlanNode>, k: Key) {
    exists n :: n in nodes && BuildOf(n, k)
  }

  ghost predicate NamesRecipes(n: PlanNode) {
    exists r :: r in n.recipes && r != ""
  }

  /** The recipe names of an entry are those that are not empty, in order. */
  lemma {:induction false} NamedRecipesAppend(a: seq<string>, r: string)
    ensures NamedRecipes(a + [r]) == NamedRecipes(a) + (if r == "" then [] else [r])
  {
    if a == [] {
      assert a + [r] == [r];
    } else {
      assert (a + [r])[1..] == a[1..] + [r];
      NamedRecipesAppend(a[1..], r);
    }
  }

  lemma {:induction false} NoneNamed(recipes: seq<string>)
    ensures NamedRecipes(recipes) == [] <==> forall r | r in recipes :: r == ""
    decreases recipes
  {
    if recipes != [] {
      NoneNamed(recipes[1..]);
      assert recipes == [recipes[0]] + recipes[1..] && recipes[0] in recipes;
      if recipes[0] != "" {
        assert NamedRecipes(recipes)[0] == recipes[0];
      } else {
        assert NamedRecipes(recipes) == [] + NamedRecipes(recipes[1..]) == NamedRecipes(recipes[1..]);
        assert forall r :: r in recipes <==> r == "" || r in recipes[1..];
      }
    }
  }

  lemma NamesRecipesIff(n: PlanNode)
    ensures PlanRecipes(n.recipes) == if NamesRecipes(n) then Some(NamedRecipes(n.recipes)) else None
  {
    NoneNamed(n.recipes);
  }

  /** Entry n queues k and names recipes for it. */
  ghost predicate Gives(n: PlanNode, k: Key) {
    BuildOf(n, k) && NamesRecipes(n)
  }

  ghost predicate LastGiving(nodes: seq<PlanNode>, k: Key, i: nat) {
    i < |nodes| && Gives(nodes[i], k) && forall j | i < j < |nodes| :: !Gives(nodes[j], k)
  }

  /** The last entry that queues k and names recipes gives the row its recipes; without one they stay. */
  ghost predicate RecipesGiven(nodes: seq<PlanNode>, k: Key, before: Option<seq<string>>, after: Option<seq<string>>) {
    || (after == before && forall j | 0 <= j < |nodes| :: !Gives(nodes[j], k))
    || exists i: nat :: LastGiving(nodes, k, i) && after == Some(NamedRecipes(nodes[i].recipes))
  }

  /** What a row that a plan queues looks like afterwards: ready to be leased as if new, with all its stamps and
      times. */
  ghost predicate Fresh(before: Option<Row>, after: Option<Row>, now: int) {
    && after.Some? && after.value.status.Pending? && after.value.attempts == 0 && after.value.backoffUntil.None?
    && (before.Some? ==>
          && after.value.leasedAt == before.value.leasedAt && after.value.startedAt == before.value.startedAt
          && after.value.finishedAt == before.value.finishedAt
          && after.value.createdAt == before.value.createdAt && after.value.updatedAt == before.value.updatedAt)
    && (before.None? ==>
          && after.value.leasedAt.None? && after.value.startedAt.None? && after.value.finishedAt.None?
          && after.value.createdAt == now && after.value.updatedAt == now)
  }

  function RecipesOf(row: Option<Row>): Option<seq<string>> {
    if row.Some? then row.value.recipes else None
  }

  lemma QueuedIff(n: PlanNode, k: Key)
    ensures Queued(n) && Key(n.name, n.version) == k <==> BuildOf(n, k)
  {
    assert ToLower("build") == "build";
  }

  lemma OneEnqueued(table: map<Key, Row>, n: PlanNode, now: int, k: Key)
    ensures var before, after := Lookup(table, k), Lookup(EnqueueNode(table, n, now), k);
            if BuildOf(n, k) then
              Fresh(before, after, now)
              && RecipesOf(after) == (if NamesRecipes(n) then Some(NamedRecipes(n.recipes)) else RecipesOf(before))
            else after == before
  {
    QueuedIff(n, k);
    NamesRecipesIff(n);
  }

  lemma FreshAgain(before: Option<Row>, between: Option<Row>, after: Option<Row>, now: int)
    requires Fresh(before, between, now) && Fresh(between, after, now)
    ensures Fresh(before, after, now)
  {
  }

  lemma QueuesTail(nodes: seq<PlanNode>, k: Key)
    requires nodes != []
    ensures Queues(nodes, k) <==> BuildOf(nodes[0], k) || Queues(nodes[1..], k)
  {
    assert nodes == [nodes[0]] + nodes[1..];
  }

  lemma LaterGives(nodes: seq<PlanNode>, k: Key, i: nat)
    requires nodes != [] && LastGiving(nodes[1..], k, i)
    ensures LastGiving(nodes, k, i + 1)
  {
    var rest := nodes[1..];
    forall j | i + 1 < j < |nodes|
      ensures !Gives(nodes[j], k)
    {
      assert nodes[j] == rest[j - 1];
    }
  }

  lemma NoneGives(nodes: seq<PlanNode>, k: Key)
    requires nodes != [] && var rest := nodes[1..]; forall j | 0 <= j < |rest| :: !Gives(rest[j], k)
    ensures forall j | 0 < j < |nodes| :: !Gives(nodes[j], k)
  {
    var rest := nodes[1..];
    forall j | 0 < j < |nodes|
      ensures !Gives(nodes[j], k)
    {
      assert nodes[j] == rest[j - 1];
    }
  }

  lemma RecipesGivenCons(nodes: seq<PlanNode>, k: Key, before: Option<seq<string>>, after: Option<seq<string>>)
    requires nodes != []
    requires RecipesGiven(nodes[1..], k, if Gives(nodes[0], k) then Some(NamedRecipes(nodes[0].recipes)) else before, after)
    ensures RecipesGiven(nodes, k, before, after)
  {
    var rest := nodes[1..];
    if i: nat :| LastGiving(rest, k, i) && after == Some(NamedRecipes(rest[i].recipes)) {
      LaterGives(nodes, k, i);
      assert nodes[i + 1] == rest[i];
    } else {
      NoneGives(nodes, k);
      if Gives(nodes[0], k) {
        assert LastGiving(nodes, k, 0);
      }
    }
  }

  /** Enqueuing a plan makes exactly the rows it queues fresh, however often it names them, and leaves the
      others alone; the last named recipes count. */
  lemma {:induction false} EnqueuedExactly(table: map<Key, Row>, nodes: seq<PlanNode>, now: int, k: Key)
    ensures var before, after := Lookup(table, k), Lookup(EnqueuedTable(table, nodes, now), k);
            && (if Queues(nodes, k) then Fresh(before, after, now) else after == before)
            && RecipesGiven(nodes, k, RecipesOf(before), RecipesOf(after))
    decreases nodes
  {
    if nodes != [] {
      var t := EnqueueNode(table, nodes[0], now);
      OneEnqueued(table, nodes[0], now, k);
      EnqueuedExactly(t, nodes[1..], now, k);
      QueuesTail(nodes, k);
      RecipesGivenCons(nodes, k, RecipesOf(Lookup(table, k)), RecipesOf(Lookup(EnqueuedTable(table, nodes, now), k)));
      if BuildOf(nodes[0], k) && Queues(nodes[1..], k) {
        FreshAgain(Lookup(table, k), Lookup(t, k), Lookup(EnqueuedTable(table, nodes, now), k), now);
      }
    }
  }

  /** after is before, just leased: one attempt more, leased now and neither started nor finished. */
  ghost predicate JustLeased(before: Row, after: Row, now: int) {
    && after.status.Leased? && after.attempts == before.attempts + 1
    && after.leasedAt == Some(now) && after.startedAt.None? && after.finishedAt.None? && after.updatedAt == now
    && after.recipes == before.recipes && after.backoffUntil == before.backoffUntil && after.createdAt == before.createdAt
  }

  /** Exactly the rows of the reply are leased: they were pending or to be retried, and due; fewer than the limit
      only if no other such row was. */
  ghost predicate Leases(before: map<Key, Row>, after: map<Key, Row>, keys: seq<Key>, limit: int, now: int) {
    && after.Keys == before.Keys
    && (forall k | k in keys :: k in before && MayBeLeased(before[k], now) && JustLeased(before[k], after[k], now))
    && (forall k | k in before && k !in keys :: after[k] == before[k])
    && (|keys| < limit ==> forall k | k in before && k !in keys :: !MayBeLeased(before[k], now))
  }

  predicate MayBeLeased(row: Row, now: int) {
    && (row.status == Pending || row.status == Retry)
    && (row.backoffUntil.Some? ==> row.backoffUntil.value <= now)
  }

  lemma LeasedExactly(table: map<Key, Row>, keys: seq<Key>, limit: nat, now: int)
    requires OldestDue(table, now, limit, keys)
    ensures Leases(table, LeasedTable(table, Elements(keys), now), keys, limit, now)
  {
    var due := LeasableKeys(table, now);
    if |keys| < limit {
      AllDueTaken(due, keys);
    }
  }

  /** If a list without repetition has as many elements as the set it draws from, it has all of them. */
  lemma {:induction false} AllDueTaken(due: set<Key>, keys: seq<Key>)
    requires (forall k | k in keys :: k in due) && |keys| == |due|
    requires forall i, j | 0 <= i < j < |keys| :: keys[i] != keys[j]
    ensures forall k | k in due :: k in keys
    decreases keys
  {
    if keys != [] {
      var n := |keys| - 1;
      assert keys == keys[..n] + [keys[n]] && keys[n] in keys;
      AllDueTaken(due - {keys[n]}, keys[..n]);
    }
  }

  /** A lease is not overdue before its age has passed since its own pop. */
  lemma LeaseLastsItsAge(before: Row, after: Row, at: int, maxAgeSec: int, now: int)
    requires JustLeased(before, after, at) && now <= at + maxAgeSec * NANOS
    ensures !Stale(after, maxAgeSec, now) && !Overdue(after, maxAgeSec, now)
  {
  }

  /** One entry of a lease reply. */
  datatype Lease = Lease(key: Key, attempts: int, recipes: seq<string>)

  function LeaseOf(k: Key, row: Row): Lease {
    Lease(k, row.attempts, if row.recipes.Some? then row.recipes.value else [])
  }

  function KeysOf(leases: seq<Lease>): seq<Key> {
    seq(|leases|, i requires 0 <= i < |leases| => leases[i].key)
  }

  /** Every entry of the reply copies the row it leases. */
  ghost predicate Copies(leases: seq<Lease>, table: map<Key, Row>) {
    forall i | 0 <= i < |leases| :: leases[i].key in table && leases[i] == LeaseOf(leases[i].key, table[leases[i].key])
  }

  function LeasesFor(table: map<Key, Row>, keys: seq<Key>): (leases: seq<Lease>)
    requires forall k | k in keys :: k in table
    ensures KeysOf(leases) == keys && Copies(leases, table)
  {
    seq(|keys|, i requires 0 <= i < |keys| => assert keys[i] in keys; LeaseOf(keys[i], table[keys[i]]))
  }

  lemma LeaseKeepsStamps(table: map<Key, Row>, batch: set<Key>, now: int)
    requires AllStamped(table, now)
    ensures AllStamped(LeasedTable(table, batch, now), now)
  {
    forall k | k in table
      ensures Stamped(LeasedTable(table, batch, now)[k], now)
    {
      assert Stamped(table[k], now);
    }
  }

  /** A leased row that has been leased, or else untouched, for longer than the age. */
  ghost predicate Overdue(row: Row, maxAgeSec: int, now: int) {
    && maxAgeSec > 0 && row.status.Leased?
    && (row.leasedAt.Some? ==> now - row.leasedAt.value > maxAgeSec * NANOS)
    && (row.leasedAt.None? ==> now - row.updatedAt > maxAgeSec * NANOS)
  }

  /** after is before, ready to be leased again: pending and unstamped, with its attempts and recipes. */
  ghost predicate TakenBack(before: Row, after: Row, now: int) {
    && after.status.Pending? && after.updatedAt == now && after.backoffUntil.None?
    && after.leasedAt.None? && after.startedAt.None? && after.finishedAt.None?
    && after.attempts == before.attempts && after.recipes == before.recipes && after.createdAt == before.createdAt
  }

  /** Exactly the overdue rows are taken back; the others stay as they are, and no row comes or goes. */
  lemma ExpiredExactly(table: map<Key, Row>, maxAgeSec: int, now: int)
    ensures var t := ExpiredTable(table, maxAgeSec, now);
            && t.Keys == table.Keys
            && (forall k | k in table ::
                  if Overdue(table[k], maxAgeSec, now) then TakenBack(table[k], t[k], now) else t[k] == table[k])
            && StaleKeys(table, maxAgeSec, now) == set k | k in table && t[k] != table[k]
  {
    var t := ExpiredTable(table, maxAgeSec, now);
    forall k | k in table
      ensures k in StaleKeys(table, maxAgeSec, now) <==> t[k] != table[k]
    {
      assert k in StaleKeys(table, maxAgeSec, now) ==> t[k].status != table[k].status;
    }
  }

  /** What a report does to a row, status by status: a first lease or start is kept, a final report stamps the
      end, waiting clears all stamps, and no report loses recipes or the creation time. */
  ghost predicate Reported(before: Option<Row>, r: Report, now: int, after: Row) {
    && after.status == r.status && after.updatedAt == now
    && after.attempts == (if r.attempts >= 0 then r.attempts else 0)
    && after.backoffUntil == (if r.backoffUntil > 0 then Some(r.backoffUntil * 1_000_000_000) else None)
    && (r.recipes.Some? ==> after.recipes == r.recipes)
    && (before.None? ==> after.createdAt == now && after.recipes == r.recipes)
    && (before.Some? ==> after.createdAt == before.value.createdAt
                         && (r.recipes.None? ==> after.recipes == before.value.recipes))
    && match r.status
       case Pending | Retry => after.leasedAt.None? && after.startedAt.None? && after.finishedAt.None?
       case Leased =>
         && after.leasedAt == Some(Earliest(before, (x: Row) => x.leasedAt, now))
         && after.startedAt.None? && after.finishedAt.None?
       case Building =>
         && after.leasedAt == Had(before, (x: Row) => x.leasedAt)
         && after.startedAt == Some(Earliest(before, (x: Row) => x.startedAt, now)) && after.finishedAt.None?
       case Built | Failed =>
         && after.leasedAt == Had(before, (x: Row) => x.leasedAt)
         && after.startedAt == Had(before, (x: Row) => x.startedAt) && after.finishedAt == Some(now)
       case Other(_) =>
         && after.leasedAt == Had(before, (x: Row) => x.leasedAt)
         && after.startedAt == Had(before, (x: Row) => x.startedAt)
         && after.finishedAt == Had(before, (x: Row) => x.finishedAt)
  }

  /** A stamp the row already has. */
  function Had(row: Option<Row>, stamp: Row -> Option<int>): Option<int> {
    if row.Some? then stamp(row.value) else None
  }

  /** A stamp the row already has, or else now. */
  function Earliest(row: Option<Row>, stamp: Row -> Option<int>, now: int): int {
    if row.Some? && stamp(row.value).Some? then stamp(row.value).value else now
  }

  /** Any report at any later time leaves stamps that fit the row's new status. */
  lemma ReportKeepsStamps(row: Option<Row>, r: Report, before: int, now: int)
    requires before <= now && (row.Some? ==> Stamped(row.value, before))
    ensures Stamped(Upserted(row, r, now), now)
  {
  }

  lemma ExpireKeepsStamps(table: map<Key, Row>, maxAgeSec: int, before: int, now: int)
    requires AllStamped(table, before) && before <= now
    ensures AllStamped(ExpiredTable(table, maxAgeSec, now), now)
  {
    forall k | k in table
      ensures Stamped(ExpiredTable(table, maxAgeSec, now)[k], now)
    {
      assert Stamped(table[k], before);
    }
  }

  class Store {
    var table: map<Key, Row>
    var clock: int

    /** The invariant of every store step. */
    ghost predicate Valid()
      reads this
    {
      AllStamped(table, clock)
    }

    constructor ()
      ensures Valid() && table == map[] && clock == 0
    {
      table := map[];
      clock := 0;
    }

    method QueueBuildsFromPlan(nodes: seq<PlanNode>, now: int)
      requires Valid() && now >= clock
      modifies this
      ensures Valid() && clock == now
      ensures table == EnqueuedTable(old(table), nodes, now)
    {
      clock := now;
      for i := 0 to |nodes|
        invariant clock == now
        invariant EnqueuedTable(table, nodes[i..], now) == EnqueuedTable(old(table), nodes, now)
      {
        var n := nodes[i];
        assert nodes[i..][1..] == nodes[i + 1..];
        if ToLower(n.action) != "build" || n.name == "" || n.version == "" {
          continue;
        }
        var k := Key(n.name, n.version);
        table := table[k := EnqueuedRow(Lookup(table, k), PlanRecipes(n.recipes), now)];
      }
      assert nodes[|nodes|..] == [];
      EnqueueKeepsStamps(old(table), nodes, now);
    }

    /** Leases the oldest rows that are due: all of them, or as many as asked for (at least one). */
    method LeaseBuilds(max: int, now: int) returns (leases: seq<Lease>)
      requires Valid() && now >= clock
      modifies this
      ensures Valid() && clock == now
      ensures OldestDue(old(table), now, if max <= 0 then 1 else max, KeysOf(leases))
      ensures table == LeasedTable(old(table), Elements(KeysOf(leases)), now)
      ensures Leases(old(table), table, KeysOf(leases), if max <= 0 then 1 else max, now)
      ensures Copies(leases, table)
    {
      clock := now;
      var keys := PickOldest(table, now, if max <= 0 then 1 else max);
      LeaseKeepsStamps(table, Elements(keys), clock);
      LeasedExactly(table, keys, if max <= 0 then 1 else max, now);
      table := LeasedTable(table, Elements(keys), now);
      leases := LeasesFor(table, keys);
    }

    method UpdateBuildStatus(k: Key, r: Report, now: int)
      requires Valid() && now >= clock
      modifies this
      ensures Valid() && clock == now
      ensures table == old(table)[k := Upserted(Lookup(old(table), k), r, now)]
      ensures Reported(Lookup(old(table), k), r, now, table[k])
      ensures forall o | o != k :: Lookup(table, o) == Lookup(old(table), o)
    {
      ReportKeepsStamps(Lookup(table, k), r, clock, now);
      clock := now;
      table := table[k := Upserted(Lookup(table, k), r, now)];
    }

    method RequeueStaleLeases(maxAgeSec: int, now: int) returns (count: nat)
      requires Valid() && now >= clock
      modifies this
      ensures Valid() && clock == now
      ensures table == ExpiredTable(old(table), maxAgeSec, now)
      ensures table.Keys == old(table).Keys
      ensures forall k | k in table ::
                if Overdue(old(table)[k], maxAgeSec, now) then TakenBack(old(table)[k], table[k], now)
                else table[k] == old(table)[k]
      ensures count == |set k | k in table && table[k] != old(table)[k]|
    {
      ExpiredExactly(table, maxAgeSec, now);
      ExpireKeepsStamps(table, maxAgeSec, clock, now);
      clock := now;
      if maxAgeSec <= 0 {
        return 0;
      }
      count := |StaleKeys(table, maxAgeSec, now)|;
      ghost var start := table;
      table := map k | k in table ::
        if Stale(table[k], maxAgeSec, now) then ExpiredRow(table[k], now) else table[k];
      assert table == ExpiredTable(start, maxAgeSec, now);
    }

    method DeleteBuilds(filter: Option<Status>, now: int) returns (count: nat)
      requires Valid() && now >= clock
      modifies this
      ensures Valid() && clock == now
      ensures table == RemainingTable(old(table), filter)
      ensures forall k :: k in table <==> k in old(table) && filter.Some? && old(table)[k].status != filter.value
      ensures forall k | k in table :: table[k] == old(table)[k]
      ensures count == |old(table)| - |table|
    {
      clock := now;
      var kept := RemainingTable(table, filter);
      KeptSize(table, kept);
      count := |table| - |kept|;
      table := kept;
    }

    /** The pop handler: stale leases go back to the queue first when a lease timeout is set. */
    method BuildQueuePop(leaseTimeout: int, max: int, now: int) returns (leases: seq<Lease>)
      requires Valid() && now >= clock
      modifies this
      ensures Valid() && clock == now
      ensures var start := ExpiredTable(old(table), leaseTimeout, now);
              && OldestDue(start, now, if max <= 0 then 1 else max, KeysOf(leases))
              && table == LeasedTable(start, Elements(KeysOf(leases)), now)
              && Leases(start, table, KeysOf(leases), if max <= 0 then 1 else max, now)
      ensures Copies(leases, table)
    {
      if leaseTimeout > 0 {
        var _ := RequeueStaleLeases(leaseTimeout, now);
      }
      leases := LeaseBuilds(max, now);
    }
  }

  function Elements(keys: seq<Key>): set<Key> {
    set k | k in keys
  }

  /** keys lists, without repetition, the limit oldest rows that are due at now, or all that are due. */
  ghost predicate OldestDue(table: map<Key, Row>, now: int, limit: nat, keys: seq<Key>) {
    var due := LeasableKeys(table, now);
    && (forall k | k in keys :: k in due)
    && (forall i, j | 0 <= i < j < |keys| :: keys[i] != keys[j])
    && |keys| == (if |due| <= limit then |due| else limit)
    && forall k, u | k in keys && u in due && u !in keys :: table[k].createdAt <= table[u].createdAt
  }

  /** The subselect of the lease statement: order by creation time, limit; ties in any order. */
  method PickOldest(table: map<Key, Row>, now: int, limit: nat) returns (keys: seq<Key>)
    ensures OldestDue(table, now, limit, keys)
  {
    keys := [];
    var due := LeasableKeys(table, now);
    var rest := due;
    while |keys| < limit && rest != {}
      invariant rest <= due && |keys| + |rest| == |due| && |keys| <= limit
      invariant forall k :: k in keys <==> k in due && k !in rest
      invariant forall i, j | 0 <= i < j < |keys| :: keys[i] != keys[j]
      invariant forall k, u | k in keys && u in rest :: table[k].createdAt <= table[u].createdAt
      decreases rest
    {
      OldestExists(table, rest);
      var k :| k in rest && forall u | u in rest :: table[k].createdAt <= table[u].createdAt;
      rest := rest - {k};
      keys := keys + [k];
    }
  }

  lemma {:induction false} OldestExists(table: map<Key, Row>, keys: set<Key>)
    requires keys != {} && keys <= table.Keys
    ensures exists k :: k in keys && forall u | u in keys :: table[k].createdAt <= table[u].createdAt
    decreases keys
  {
    var k :| k in keys;
    if keys != {k} {
      OldestExists(table, keys - {k});
      var o :| o in keys - {k} && forall u | u in keys - {k} :: table[o].createdAt <= table[u].createdAt;
      var best := if table[k].createdAt <= table[o].createdAt then k else o;
      assert best in keys && forall u | u in keys :: table[best].createdAt <= table[u].createdAt;
    }
  }

  lemma {:induction false} KeptSize(table: map<Key, Row>, kept: map<Key, Row>)
    requires kept.Keys <= table.Keys
    ensures |kept| <= |table|
  {
    assert table.Keys == kept.Keys + (table.Keys - kept.Keys);
  }
}
