/** Runs of the queue that reach the lease bound, and runs that break it when another row takes on the build. */
module LeaseBound {
  import opened Text
  import opened BuildStore
  import opened Jobs
  import opened LeaseProtocol
  import opened LeaseChain
  import opened LeaseRuns
  import Recipes

  datatype Run = Run(worlds: seq<World>, steps: seq<Step>)

  /** A run whose table never has a row outside rows. */
  ghost predicate RunIn(cfg: Config, r: Run, rows: set<Key>) {
    IsRun(cfg, r.worlds, r.steps) && Within(r.worlds, rows)
  }

  ghost predicate Within(ws: seq<World>, rows: set<Key>) {
    forall i | 0 <= i < |ws| :: ws[i].table.Keys <= rows
  }

  function Last(r: Run): World {
    if r.worlds == [] then INIT else r.worlds[|r.worlds| - 1]
  }

  lemma Extend(cfg: Config, r: Run, rows: set<Key>, e: Event, now: int) returns (s: Run)
    requires RunIn(cfg, r, rows) && Enabled(Last(r), e, now) && NextTable(Last(r), e, now).Keys <= rows
    ensures RunIn(cfg, s, rows) && Last(s) == Apply(cfg, Last(r), e, now)
  {
    s := Run(r.worlds + [Apply(cfg, Last(r), e, now)], r.steps + [Step(e, now)]);
    forall i | 0 <= i < |s.steps|
      ensures Enabled(s.worlds[i], s.steps[i].event, s.steps[i].at)
      ensures s.worlds[i + 1] == Apply(cfg, s.worlds[i], s.steps[i].event, s.steps[i].at)
    {
      if i < |r.steps| {
        assert s.worlds[i] == r.worlds[i] && s.worlds[i + 1] == r.worlds[i + 1];
      }
    }
  }

  /** All rows but k are as before. */
  ghost predicate OthersSame(a: World, b: World, k: Key) {
    forall x | x != k :: CellOf(a, x) == CellOf(b, x)
  }

  lemma SameTwice(a: World, b: World, c: World, k: Key)
    requires OthersSame(a, b, k) && OthersSame(b, c, k)
    ensures OthersSame(a, c, k)
  {
    forall x | x != k
      ensures CellOf(a, x) == CellOf(c, x)
    {
      assert CellOf(a, x) == CellOf(b, x) && CellOf(b, x) == CellOf(c, x);
    }
  }

  // ----- Single steps -----

  /** A step of a job of row k. */
  lemma WorkStep(cfg: Config, r: Run, rows: set<Key>, k: Key, e: CellEvent, now: int) returns (s: Run)
    requires RunIn(cfg, r, rows) && k in rows && now >= Last(r).now && WorkEnabled(CellOf(Last(r), k), e)
    ensures RunIn(cfg, s, rows) && Last(s).now == now
    ensures CellOf(Last(s), k) == CellApply(cfg, CellOf(Last(r), k), e, now)
    ensures OthersSame(Last(r), Last(s), k)
  {
    s := Extend(cfg, r, rows, Work(k, e), now);
    StepIsCellwise(cfg, Last(r), Work(k, e), now, k);
    forall x | x != k
      ensures CellOf(Last(s), x) == CellOf(Last(r), x)
    {
      StepIsCellwise(cfg, Last(r), Work(k, e), now, x);
    }
  }

  /** A plan queues row k with one recipe. */
  lemma EnqueueStep(cfg: Config, r: Run, rows: set<Key>, k: Key, recipe: string, now: int) returns (s: Run)
    requires RunIn(cfg, r, rows) && k in rows && now >= Last(r).now && k.package != "" && k.version != "" && recipe != ""
    ensures RunIn(cfg, s, rows) && Last(s).now == now
    ensures CellOf(Last(s), k) == CellApply(cfg, CellOf(Last(r), k), CEnqueue(Some([recipe])), now)
    ensures OthersSame(Last(r), Last(s), k)
  {
    var n := PlanNode(k.package, k.version, "build", [recipe]);
    assert ToLower("build") == "build";
    assert [recipe][1..] == [] && NamedRecipes([recipe]) == [recipe];
    s := Extend(cfg, r, rows, Enqueue(n), now);
    StepIsCellwise(cfg, Last(r), Enqueue(n), now, k);
    forall x | x != k
      ensures CellOf(Last(s), x) == CellOf(Last(r), x)
    {
      StepIsCellwise(cfg, Last(r), Enqueue(n), now, x);
    }
  }

  // ----- Pops -----

  /** Row k is the only one that is due. */
  ghost predicate OnlyDue(w: World, k: Key, now: int) {
    k in w.table && LeasableKeys(w.table, now) == {k} && now >= w.now
  }

  function LeaseNow(w: World, k: Key, now: int): Lease
    requires k in w.table
  {
    LeaseOf(k, LeasedRow(w.table[k], now))
  }

  /** A plan with the entries of the given rows, without recipes. */
  function PlanWith(rows: seq<Key>): seq<Entry> {
    seq(|rows|, i requires 0 <= i < |rows| => Entry(rows[i].package, rows[i].version, []))
  }

  ghost predicate DistinctRows(rows: seq<Key>) {
    forall i, j | 0 <= i < j < |rows| :: rows[i] != rows[j]
  }

  lemma PlanHas(rows: seq<Key>, y: Key)
    requires DistinctRows(rows)
    ensures DistinctEntries(PlanWith(rows)) && (HasEntry(PlanWith(rows), y) <==> y in rows)
    ensures forall e | e in PlanWith(rows) :: e.recipes == []
  {
    var plan := PlanWith(rows);
    if y in rows {
      var i :| 0 <= i < |rows| && rows[i] == y;
      assert plan[i] in plan;
    }
  }

  /** What a lease brings for row y, if its plan has the given rows. */
  function JobsOf(lease: Lease, rows: seq<Key>, y: Key): seq<Taken> {
    if Takes(lease.key, y) && y in rows then [Taken(lease.key == y, Recipes.Merge(lease.recipes, []))] else []
  }

  lemma JobsOfLease(lease: Lease, rows: seq<Key>, y: Key)
    requires DistinctRows(rows)
    ensures TakenFrom(lease.key == y, JobsFor(lease, PlanWith(rows)), y) == JobsOf(lease, rows, y)
  {
    PlanHas(rows, y);
    TakenExactly(lease, PlanWith(rows), lease.key == y, y);
    var ts := TakenFrom(lease.key == y, JobsFor(lease, PlanWith(rows)), y);
    if ts != [] {
      assert ts == [ts[0]];
    }
  }

  /** Row k is leased, and the plan its worker fetches has the given rows. */
  function PopOf(w: World, k: Key, rows: seq<Key>, now: int): Event
    requires k in w.table
  {
    Pop(1, [LeaseNow(w, k, now)], map[k := PlanWith(rows)])
  }

  lemma PopEnabled(w: World, k: Key, rows: seq<Key>, now: int)
    requires OnlyDue(w, k, now) && DistinctRows(rows) && k in rows
    ensures Enabled(w, PopOf(w, k, rows, now), now)
    ensures LeasedKeys(PopOf(w, k, rows, now).leases) == {k}
  {
    var e := PopOf(w, k, rows, now);
    PlanHas(rows, k);
    assert KeysOf(e.leases) == [k];
  }

  lemma AttemptOfPop(w: World, k: Key, rows: seq<Key>, q: string, now: int)
    requires k in w.table && w.table[k].attempts >= 0
    ensures AttemptOf(PopOf(w, k, rows, now).leases, q) == if QueueKey(k) == q then w.table[k].attempts + 1 else 0
  {
    assert PopOf(w, k, rows, now).leases[..0] == [];
  }

  /** What the pop means for row y. */
  function PopAt(w: World, k: Key, rows: seq<Key>, y: Key, now: int): CellEvent
    requires k in w.table
  {
    CPop(y == k, if QueueKey(k) == QueueKey(y) then w.table[k].attempts + 1 else 0, JobsOf(LeaseNow(w, k, now), rows, y))
  }

  lemma PopMeans(cfg: Config, w: World, k: Key, rows: seq<Key>, y: Key, now: int)
    requires OnlyDue(w, k, now) && DistinctRows(rows) && k in rows && w.table[k].attempts >= 0
    ensures Applicable(CellOf(w, y), PopAt(w, k, rows, y, now))
    ensures CellOf(Apply(cfg, w, PopOf(w, k, rows, now), now), y)
         == CellApply(cfg, CellOf(w, y), PopAt(w, k, rows, y, now), now)
  {
    var e := PopOf(w, k, rows, now);
    PopEnabled(w, k, rows, now);
    JobsOfLease(LeaseNow(w, k, now), rows, y);
    assert e.leases[..0] == [];
    assert JobsAt(e.leases, e.plans, y) == JobsOf(LeaseNow(w, k, now), rows, y);
    AttemptOfPop(w, k, rows, QueueKey(y), now);
    assert EventAt(w, e, now, y) == PopAt(w, k, rows, y, now);
    StepIsCellwise(cfg, w, e, now, y);
  }

  lemma PopStep(cfg: Config, r: Run, rows: set<Key>, k: Key, plan: seq<Key>, now: int) returns (s: Run)
    requires RunIn(cfg, r, rows) && OnlyDue(Last(r), k, now) && DistinctRows(plan) && k in plan
    ensures RunIn(cfg, s, rows) && Last(s) == Apply(cfg, Last(r), PopOf(Last(r), k, plan, now), now)
  {
    PopEnabled(Last(r), k, plan, now);
    s := Extend(cfg, r, rows, PopOf(Last(r), k, plan, now), now);
  }

  // ----- A job that fails -----

  /** Longer than every recipe of the list. */
  function Longer(xs: seq<string>): (n: nat)
    ensures n > 0
  {
    if xs == [] then 1 else
      var rest := Longer(xs[..|xs| - 1]);
      if |xs[|xs| - 1]| >= rest then |xs[|xs| - 1]| + 1 else rest
  }

  lemma {:induction false} LongerThanAll(xs: seq<string>, x: string)
    requires x in xs
    ensures |x| < Longer(xs)
  {
    if x in xs[..|xs| - 1] {
      LongerThanAll(xs[..|xs| - 1], x);
    }
  }

  /** A recipe the list does not have. */
  function FreshRecipe(xs: seq<string>): string {
    seq(Longer(xs), _ => 'a')
  }

  lemma FreshAdds(xs: seq<string>)
    ensures Recipes.Adds(xs, FreshRecipe(xs))
  {
    var f := FreshRecipe(xs);
    assert TrimSpace(f) == f;
    forall t | t in xs
      ensures ToLower(t) != ToLower(f)
    {
      LongerThanAll(xs, t);
      assert |ToLower(t)| == |t| && |ToLower(f)| == |f|;
    }
  }

  function Failure(c: Copy): Outcome {
    Broke([FreshRecipe(c.job)])
  }

  lemma FreshMerges(xs: seq<string>)
    requires Recipes.Clean(xs)
    ensures |Recipes.Merge(xs, [FreshRecipe(xs)])| > |xs|
  {
    var f := FreshRecipe(xs);
    FreshAdds(xs);
    Recipes.MergeKeepsClean(xs, [f]);
    Recipes.MergeIntoExtends(xs, [f]);
    assert f in [f];
  }

  /** A failed job with a new recipe on offer is retried exactly when its attempt is below the limit. */
  lemma FailureStatus(cfg: Config, c: Copy)
    requires Recipes.Clean(c.job) && c.attempt >= 0
    ensures FinalStatus(cfg, c, Failure(c)) == if c.attempt < Limit(cfg) then Retry else Failed
  {
    FreshMerges(c.job);
  }

  /** The last job of the cell has not started. */
  ghost predicate FreshJob(c: Cell) {
    c.copies != [] && var j := c.copies[|c.copies| - 1];
      j.start.Unsent? && j.final.Unsent? && Recipes.Clean(j.job) && j.attempt >= 0
  }

  /** The cell after its last job failed and said so. */
  ghost predicate AfterFailure(cfg: Config, c: Cell, d: Cell) {
    && c.copies != []
    && d.grants == c.grants && d.enqueues == c.enqueues && d.expiries == c.expiries
    && SameJobs(c.copies, d.copies)
    && var j := c.copies[|c.copies| - 1];
       && d.row.Some? && d.row.value.attempts == j.attempt
       && d.row.value.status == (if j.attempt < Limit(cfg) then Retry else Failed)
       && (j.job != [] ==> j.job <= RowRecipes(d.row) && Recipes.Clean(RowRecipes(d.row)))
  }

  ghost predicate SameJobs(a: seq<Copy>, b: seq<Copy>) {
    |a| == |b| && forall i | 0 <= i < |a| :: a[i].own == b[i].own && a[i].job == b[i].job
  }

  lemma FailureReport(cfg: Config, j: Copy, now: int)
    requires Recipes.Clean(j.job) && j.attempt >= 0
    ensures var r := FinalReport(cfg, j, Failure(j), now, 0);
            && r.status == (if j.attempt < Limit(cfg) then Retry else Failed) && r.attempts == j.attempt
            && (j.job != [] ==> r.recipes.Some? && j.job <= r.recipes.value && Recipes.Clean(r.recipes.value))
  {
    FailureStatus(cfg, j);
    Recipes.MergeKeepsClean(j.job, [FreshRecipe(j.job)]);
  }

  lemma FailureOfCell(cfg: Config, c: Cell, now: int)
    requires FreshJob(c)
    ensures var n := |c.copies| - 1;
            var e1, e2, e3 := CStart(n), CFinish(n, Failure(c.copies[n]), 0), CDeliver(n, Final);
            && WorkEnabled(c, e1)
            && var c1 := CellApply(cfg, c, e1, now);
               WorkEnabled(c1, e2)
               && var c2 := CellApply(cfg, c1, e2, now);
                  WorkEnabled(c2, e3) && AfterFailure(cfg, c, CellApply(cfg, c2, e3, now))
  {
    var n := |c.copies| - 1;
    var c1 := CellApply(cfg, c, CStart(n), now);
    FailureReport(cfg, c1.copies[n], now);
  }

  /** Row k's last job starts, fails and reports. */
  lemma Fail(cfg: Config, r: Run, rows: set<Key>, k: Key, now: int) returns (s: Run)
    requires RunIn(cfg, r, rows) && k in rows && now >= Last(r).now && FreshJob(CellOf(Last(r), k))
    ensures RunIn(cfg, s, rows) && Last(s).now == now
    ensures AfterFailure(cfg, CellOf(Last(r), k), CellOf(Last(s), k))
    ensures OthersSame(Last(r), Last(s), k)
  {
    var c := CellOf(Last(r), k);
    var n := |c.copies| - 1;
    FailureOfCell(cfg, c, now);
    var s1 := WorkStep(cfg, r, rows, k, CStart(n), now);
    var s2 := WorkStep(cfg, s1, rows, k, CFinish(n, Failure(c.copies[n]), 0), now);
    s := WorkStep(cfg, s2, rows, k, CDeliver(n, Final), now);
    forall x | x != k
      ensures CellOf(Last(s), x) == CellOf(Last(r), x)
    {
      assert CellOf(Last(s1), x) == CellOf(Last(r), x) && CellOf(Last(s2), x) == CellOf(Last(s1), x);
    }
  }

  // ----- Rounds of one row -----

  /** The row has been leased n times, once per attempt, and is the only one due. */
  ghost predicate Ready(w: World, k: Key, n: nat, now: int) {
    && OnlyDue(w, k, now) && w.table[k].attempts == n
    && Counted(w, k, n)
  }

  /** n leases after one enqueue and no expiry. */
  ghost predicate Counted(w: World, k: Key, n: nat) {
    var l := LedgerOf(w, k);
    |l.grants| == n && l.enqueues == 1 && l.expiries == 0
  }

  lemma DueAlone(w: World, k: Key, now: int)
    requires k in w.table && now >= w.now && Leasable(w.table[k], now)
    requires forall x | x in w.table && x != k :: !Waiting(Some(w.table[x]))
    ensures OnlyDue(w, k, now)
  {
  }

  /** The second from which a row may be leased. */
  function DueFrom(row: Row, now: int): int {
    if row.backoffUntil.Some? then Max(now, row.backoffUntil.value) else now
  }

  /** No row but those in keep waits for a lease. */
  ghost predicate NoneWaits(w: World, keep: set<Key>) {
    forall x | x in w.table && x !in keep :: !Waiting(Some(w.table[x]))
  }

  lemma NoneWaitsAfter(a: World, b: World, k: Key, keep: set<Key>)
    requires OthersSame(a, b, k) && k in keep && NoneWaits(a, keep)
    ensures NoneWaits(b, keep)
  {
    forall x | x in b.table && x !in keep
      ensures !Waiting(Some(b.table[x]))
    {
      assert CellOf(a, x) == CellOf(b, x);
    }
  }

  /** c is b after a lease of its own with a new job that has the row's recipes. */
  ghost predicate LeasedNow(b: Cell, c: Cell, now: int) {
    && b.row.Some? && c.row == Some(LeasedRow(b.row.value, now))
    && c.grants == b.grants + [Grant(b.row.value.attempts + 1, now)]
    && c.enqueues == b.enqueues && c.expiries == b.expiries
    && |c.copies| == |b.copies| + 1 && c.copies[..|b.copies|] == b.copies
    && FreshJob(c) && c.copies[|b.copies|].own && c.copies[|b.copies|].attempt == b.row.value.attempts + 1
    && c.copies[|b.copies|].job == Recipes.Merge(RowRecipes(b.row), [])
  }

  lemma LeaseCellNow(cfg: Config, w: World, k: Key, now: int)
    requires k in w.table && w.table[k].attempts >= 0 && k.package != "" && k.version != ""
    ensures LeasedNow(CellOf(w, k), CellApply(cfg, CellOf(w, k), PopAt(w, k, [k], k, now), now), now)
  {
    var lease := LeaseNow(w, k, now);
    Recipes.MergeIsClean(lease.recipes, []);
    LeasedCell(cfg, CellOf(w, k), w.table[k].attempts + 1, Recipes.Merge(lease.recipes, []), now);
  }

  lemma LeasedCell(cfg: Config, c: Cell, attempt: int, job: seq<string>, now: int)
    requires c.row.Some? && attempt == c.row.value.attempts + 1 >= 0
    requires Recipes.Clean(job) && job == Recipes.Merge(RowRecipes(c.row), [])
    ensures LeasedNow(c, CellApply(cfg, c, CPop(true, attempt, [Taken(true, job)]), now), now)
  {
  }

  /** A due row is leased for itself; its job is new and counts one attempt more. */
  lemma LeaseRow(cfg: Config, r: Run, rows: set<Key>, k: Key, now: int) returns (s: Run)
    requires RunIn(cfg, r, rows) && OnlyDue(Last(r), k, now)
    requires k.package != "" && k.version != "" && Last(r).table[k].attempts >= 0
    ensures RunIn(cfg, s, rows) && Last(s).now == now
    ensures OthersSame(Last(r), Last(s), k)
    ensures LeasedNow(CellOf(Last(r), k), CellOf(Last(s), k), now)
  {
    s := PopStep(cfg, r, rows, k, [k], now);
    PopMeans(cfg, Last(r), k, [k], k, now);
    LeaseCellNow(cfg, Last(r), k, now);
    forall x | x != k
      ensures CellOf(Last(s), x) == CellOf(Last(r), x)
    {
      PopElsewhere(cfg, Last(r), k, x, now);
    }
  }

  lemma PopElsewhere(cfg: Config, w: World, k: Key, x: Key, now: int)
    requires OnlyDue(w, k, now) && w.table[k].attempts >= 0 && x != k
    ensures CellOf(Apply(cfg, w, PopOf(w, k, [k], now), now), x) == CellOf(w, x)
  {
    PopMeans(cfg, w, k, [k], x, now);
    assert CellOf(w, x).copies + [] == CellOf(w, x).copies;
  }

  /** The first job of the row is its own and has the recipe "a". */
  ghost predicate StartsWithA(copies: seq<Copy>) {
    copies != [] && copies[0].own && copies[0].job == ["a"]
  }

  lemma MergeOne(a: string)
    requires a != "" && TrimSpace(a) == a
    ensures Recipes.Merge([a], []) == [a] && Recipes.Clean([a])
  {
    Recipes.MergeKeepsClean([a], []);
    Recipes.MergeIntoExtends([a], []);
  }

  lemma LettersAreTrimmed()
    ensures TrimSpace("a") == "a" && TrimSpace("b") == "b"
  {
  }

  /** One round: the row is leased, its job fails and reports. */
  lemma Round(cfg: Config, r: Run, rows: set<Key>, k: Key, n: nat, now: int) returns (s: Run)
    requires RunIn(cfg, r, rows) && Ready(Last(r), k, n, now) && NoneWaits(Last(r), {k})
    requires k in rows && k.package != "" && k.version != ""
    requires if n == 0 then LedgerOf(Last(r), k).copies == [] && RowRecipes(Lookup(Last(r).table, k)) == ["a"]
             else StartsWithA(LedgerOf(Last(r), k).copies)
    ensures RunIn(cfg, s, rows) && Last(s).now == now && Counted(Last(s), k, n + 1) && NoneWaits(Last(s), {k})
    ensures k in Last(s).table && Last(s).table[k].attempts == n + 1
    ensures Last(s).table[k].status == if n + 1 < Limit(cfg) then Retry else Failed
    ensures |LedgerOf(Last(s), k).copies| == |LedgerOf(Last(r), k).copies| + 1 && StartsWithA(LedgerOf(Last(s), k).copies)
    ensures OthersSame(Last(r), Last(s), k)
  {
    LettersAreTrimmed();
    MergeOne("a");
    var s1 := LeaseRow(cfg, r, rows, k, now);
    var c, c1 := CellOf(Last(r), k), CellOf(Last(s1), k);
    assert c1.copies[0] == (if n == 0 then c1.copies[|c.copies|] else c1.copies[..|c.copies|][0]);
    s := Fail(cfg, s1, rows, k, now);
    NoneWaitsAfter(Last(r), Last(s1), k, {k});
    NoneWaitsAfter(Last(s1), Last(s), k, {k});
    SameTwice(Last(r), Last(s1), Last(s), k);
  }

  /** A row that is to be retried becomes due. */
  lemma Retryable(w: World, k: Key) returns (now: int)
    requires k in w.table && w.table[k].status.Retry? && NoneWaits(w, {k})
    ensures OnlyDue(w, k, now)
  {
    now := DueFrom(w.table[k], w.now);
    DueAlone(w, k, now);
  }

  lemma {:induction false} Rounds(cfg: Config, rows: set<Key>, k: Key, n: nat) returns (r: Run, now: int)
    requires k in rows && k.package != "" && k.version != "" && (n == 0 || n < Limit(cfg))
    ensures RunIn(cfg, r, rows) && Ready(Last(r), k, n, now) && NoneWaits(Last(r), {k})
    ensures |LedgerOf(Last(r), k).copies| == n && OthersSame(INIT, Last(r), k)
    ensures if n == 0 then RowRecipes(Lookup(Last(r).table, k)) == ["a"] else StartsWithA(LedgerOf(Last(r), k).copies)
  {
    if n == 0 {
      now := 0;
      r := EnqueueStep(cfg, Run([INIT], []), rows, k, "a", 0);
      NoneWaitsAfter(INIT, Last(r), k, {k});
      DueAlone(Last(r), k, 0);
    } else {
      var q;
      q, now := Rounds(cfg, rows, k, n - 1);
      r := Round(cfg, q, rows, k, n - 1, now);
      SameTwice(INIT, Last(q), Last(r), k);
      now := Retryable(Last(r), k);
    }
  }

  // ----- Runs that other rows disturb -----

  /** d is c with a new job of another row's lease, with the recipe "b". */
  ghost predicate TakenByOther(c: Cell, d: Cell, attempt: int) {
    && d.grants == c.grants && d.enqueues == c.enqueues && d.expiries == c.expiries && FreshJob(d)
    && |d.copies| == |c.copies| + 1 && d.copies[..|c.copies|] == c.copies
    && d.copies[|c.copies|].attempt == attempt && d.copies[|c.copies|].job == ["b"]
  }

  /** Row o is due for its first lease, with the recipe "b". */
  ghost predicate NewWithB(w: World, o: Key) {
    o in w.table && w.table[o].attempts == 0 && w.table[o].recipes == Some(["b"])
  }

  lemma OtherCell(cfg: Config, w: World, o: Key, k: Key, now: int)
    requires NewWithB(w, o) && o != k && Takes(o, k)
    ensures TakenByOther(CellOf(w, k), CellApply(cfg, CellOf(w, k), PopAt(w, o, [k, o], k, now), now),
                         if QueueKey(o) == QueueKey(k) then 1 else 0)
  {
    LettersAreTrimmed();
    MergeOne("b");
    assert LeaseNow(w, o, now).recipes == ["b"];
    assert JobsOf(LeaseNow(w, o, now), [k, o], k) == [Taken(false, ["b"])];
  }

  /** After the pop o is leased and no other row waits than before. */
  lemma OtherRows(cfg: Config, w: World, o: Key, k: Key, now: int, x: Key)
    requires OnlyDue(w, o, now) && w.table[o].attempts >= 0 && o != k
    ensures var row := CellOf(Apply(cfg, w, PopOf(w, o, [k, o], now), now), x).row;
            row == if x == o then Some(LeasedRow(w.table[o], now)) else Lookup(w.table, x)
  {
    PopMeans(cfg, w, o, [k, o], x, now);
  }

  lemma OtherNoneWaits(cfg: Config, w: World, o: Key, k: Key, now: int)
    requires OnlyDue(w, o, now) && w.table[o].attempts >= 0 && o != k && NoneWaits(w, {o})
    ensures NoneWaits(Apply(cfg, w, PopOf(w, o, [k, o], now), now), {k})
  {
    var next := Apply(cfg, w, PopOf(w, o, [k, o], now), now);
    forall x | x in next.table && x !in {k}
      ensures !Waiting(Some(next.table[x]))
    {
      OtherRows(cfg, w, o, k, now, x);
    }
  }

  /** Row o is leased, and its worker takes on o and k. */
  lemma OtherLeased(cfg: Config, r: Run, rows: set<Key>, o: Key, k: Key, now: int) returns (s: Run)
    requires RunIn(cfg, r, rows) && o != k && Takes(o, k) && NewWithB(Last(r), o)
    requires OnlyDue(Last(r), o, now) && NoneWaits(Last(r), {o})
    ensures RunIn(cfg, s, rows) && NoneWaits(Last(s), {k})
    ensures TakenByOther(CellOf(Last(r), k), CellOf(Last(s), k), if QueueKey(o) == QueueKey(k) then 1 else 0)
  {
    s := PopStep(cfg, r, rows, o, [k, o], now);
    PopMeans(cfg, Last(r), o, [k, o], k, now);
    OtherCell(cfg, Last(r), o, k, now);
    OtherNoneWaits(cfg, Last(r), o, k, now);
  }

  /** Row o is queued with the recipe "b" and leased, and its worker takes on o and k. */
  lemma OtherTakes(cfg: Config, r: Run, rows: set<Key>, o: Key, k: Key) returns (s: Run)
    requires RunIn(cfg, r, rows) && {o, k} <= rows && o != k && o.package != "" && o.version != "" && Takes(o, k)
    requires NoneWaits(Last(r), {})
    ensures RunIn(cfg, s, rows) && NoneWaits(Last(s), {k})
    ensures TakenByOther(CellOf(Last(r), k), CellOf(Last(s), k), if QueueKey(o) == QueueKey(k) then 1 else 0)
  {
    var now := Last(r).now;
    var q := EnqueueStep(cfg, r, rows, o, "b", now);
    assert CellOf(Last(q), k) == CellOf(Last(r), k);
    NoneWaitsAfter(Last(r), Last(q), o, {o});
    DueAlone(Last(q), o, now);
    s := OtherLeased(cfg, q, rows, o, k, now);
  }

  /** The own jobs of the row do not form a chain: the first has the recipe "a", the last starts with "b". */
  ghost predicate ChainBroken(copies: seq<Copy>) {
    var owns := Own(copies);
    |owns| >= 2 && !(owns[0].job <= owns[|owns| - 1].job)
  }

  lemma {:induction false} OwnFirst(copies: seq<Copy>)
    requires copies != [] && copies[0].own
    ensures Own(copies) != [] && Own(copies)[0] == copies[0]
  {
    if |copies| > 1 {
      OwnFirst(copies[..|copies| - 1]);
    } else {
      assert copies[..0] == [];
    }
  }

  lemma FirstAndLast(copies: seq<Copy>)
    requires |copies| >= 2 && StartsWithA(copies)
    requires var last := copies[|copies| - 1]; last.own && ["b"] <= last.job
    ensures ChainBroken(copies)
  {
    var init := copies[..|copies| - 1];
    OwnFirst(init);
    assert "a" != "b" && ["b"][0] == copies[|copies| - 1].job[0];
  }

  /** A lease of k after a report with the recipe "b". */
  lemma LastJobStartsWithB(b: Cell, c: Cell, now: int)
    requires LeasedNow(b, c, now) && ["b"] <= RowRecipes(b.row) && Recipes.Clean(RowRecipes(b.row))
    ensures ["b"] <= c.copies[|c.copies| - 1].job && c.copies[|c.copies| - 1].own
  {
    Recipes.MergeKeepsClean(RowRecipes(b.row), []);
  }

  /** A worker of o takes on k, fails and asks for a retry. */
  lemma OtherRetries(cfg: Config, r: Run, rows: set<Key>, o: Key, k: Key) returns (s: Run, now: int)
    requires RunIn(cfg, r, rows) && {o, k} <= rows && o != k && o.package != "" && o.version != "" && Disturbs(cfg, o, k)
    requires NoneWaits(Last(r), {}) && StartsWithA(LedgerOf(Last(r), k).copies)
    ensures RunIn(cfg, s, rows) && OnlyDue(Last(s), k, now)
    ensures Last(s).table[k].attempts == if QueueKey(o) == QueueKey(k) then 1 else 0
    ensures ["b"] <= RowRecipes(Lookup(Last(s).table, k)) && Recipes.Clean(RowRecipes(Lookup(Last(s).table, k)))
    ensures var a, b := LedgerOf(Last(r), k), LedgerOf(Last(s), k);
            && b.grants == a.grants && b.enqueues == a.enqueues && b.expiries == a.expiries && StartsWithA(b.copies)
  {
    var q := OtherTakes(cfg, r, rows, o, k);
    var c, d := CellOf(Last(r), k), CellOf(Last(q), k);
    assert d.copies[0] == d.copies[..|c.copies|][0];
    s := Fail(cfg, q, rows, k, Last(q).now);
    NoneWaitsAfter(Last(q), Last(s), k, {k});
    now := Retryable(Last(s), k);
  }

  lemma LastJobBreaks(b: Cell, c: Cell, now: int)
    requires LeasedNow(b, c, now) && ["b"] <= RowRecipes(b.row) && Recipes.Clean(RowRecipes(b.row)) && StartsWithA(b.copies)
    ensures ChainBroken(c.copies)
  {
    LastJobStartsWithB(b, c, now);
    assert c.copies[0] == c.copies[..|b.copies|][0];
    FirstAndLast(c.copies);
  }

  /** The last lease of such a run breaks the chain of recipes. */
  lemma LastLease(cfg: Config, r: Run, rows: set<Key>, k: Key, now: int) returns (s: Run)
    requires RunIn(cfg, r, rows) && OnlyDue(Last(r), k, now) && k.package != "" && k.version != ""
    requires Last(r).table[k].attempts >= 0 && StartsWithA(LedgerOf(Last(r), k).copies)
    requires ["b"] <= RowRecipes(Lookup(Last(r).table, k)) && Recipes.Clean(RowRecipes(Lookup(Last(r).table, k)))
    ensures RunIn(cfg, s, rows) && ChainBroken(LedgerOf(Last(s), k).copies)
    ensures var a, b := LedgerOf(Last(r), k), LedgerOf(Last(s), k);
            && b.grants == a.grants + [Grant(Last(r).table[k].attempts + 1, now)]
            && b.enqueues == a.enqueues && b.expiries == a.expiries
  {
    s := LeaseRow(cfg, r, rows, k, now);
    LastJobBreaks(CellOf(Last(r), k), CellOf(Last(s), k), now);
  }

  /** If a lease of o may take on k, with an attempt that the limit lets retry, then some run with one enqueue
      of k and no expiry leases k once more than k's own leases allow; the last lease counts the attempts anew,
      and its job does not carry on with the recipes of the first. */
  lemma BoundBroken(cfg: Config, o: Key, k: Key) returns (r: Run)
    requires o != k && Disturbs(cfg, o, k)
    requires o.package != "" && o.version != "" && k.package != "" && k.version != ""
    ensures RunIn(cfg, r, {o, k}) && Counted(Last(r), k, Max(1, Limit(cfg)) + 1)
    ensures LedgerOf(Last(r), k).grants[Limit(cfg)].attempt == if QueueKey(o) == QueueKey(k) then 2 else 1
    ensures ChainBroken(LedgerOf(Last(r), k).copies)
  {
    var n, rows := Limit(cfg), {o, k};
    var now;
    r, now := Rounds(cfg, rows, k, n - 1);
    r := Round(cfg, r, rows, k, n - 1, now);
    r, now := OtherRetries(cfg, r, rows, o, k);
    r := LastLease(cfg, r, rows, k, now);
  }

  // ----- Rows that share their attempts -----

  /** Both rows are due, and no other. */
  ghost predicate BothDue(w: World, o: Key, k: Key, now: int) {
    && o != k && o in w.table && k in w.table && LeasableKeys(w.table, now) == {o, k} && now >= w.now
    && w.table[o].attempts >= 0 && w.table[k].attempts >= 0
  }

  function PopBoth(w: World, o: Key, k: Key, now: int): Event
    requires o in w.table && k in w.table
  {
    Pop(2, [LeaseNow(w, o, now), LeaseNow(w, k, now)], map[o := PlanWith([o]), k := PlanWith([k])])
  }

  lemma BothEnabled(w: World, o: Key, k: Key, now: int)
    requires BothDue(w, o, k, now)
    ensures Enabled(w, PopBoth(w, o, k, now), now)
    ensures LeasedKeys(PopBoth(w, o, k, now).leases) == {o, k}
  {
    var e := PopBoth(w, o, k, now);
    PlanHas([o], o);
    PlanHas([k], k);
    var keys := KeysOf(e.leases);
    assert keys == [o, k];
    assert Elements(keys) == {o, k};
    assert |LeasableKeys(w.table, now)| == 2;
  }

  lemma BothAttempt(w: World, o: Key, k: Key, now: int)
    requires BothDue(w, o, k, now) && QueueKey(o) == QueueKey(k)
    ensures AttemptOf(PopBoth(w, o, k, now).leases, QueueKey(k)) == Max(w.table[o].attempts, w.table[k].attempts) + 1
  {
    var leases := PopBoth(w, o, k, now).leases;
    assert leases[..1] == [LeaseNow(w, o, now)] && leases[..1][..0] == [];
    assert AttemptOf(leases[..1], QueueKey(k)) == w.table[o].attempts + 1;
  }

  lemma BothJobs(w: World, o: Key, k: Key, now: int)
    requires BothDue(w, o, k, now)
    ensures var e := PopBoth(w, o, k, now); JobsAt(e.leases, e.plans, k) == JobsOf(LeaseNow(w, k, now), [k], k)
  {
    var e := PopBoth(w, o, k, now);
    assert e.leases[..1] == [LeaseNow(w, o, now)] && e.leases[..1][..0] == [];
    JobsOfLease(LeaseNow(w, o, now), [o], k);
    JobsOfLease(LeaseNow(w, k, now), [k], k);
    assert JobsAt(e.leases[..1], e.plans, k) == [];
  }

  /** The job of k gets the larger attempt of the two. */
  lemma BothMeans(cfg: Config, w: World, o: Key, k: Key, now: int)
    requires BothDue(w, o, k, now) && QueueKey(o) == QueueKey(k)
    ensures var e := CPop(true, Max(w.table[o].attempts, w.table[k].attempts) + 1, JobsOf(LeaseNow(w, k, now), [k], k));
            && Applicable(CellOf(w, k), e)
            && CellOf(Apply(cfg, w, PopBoth(w, o, k, now), now), k) == CellApply(cfg, CellOf(w, k), e, now)
  {
    BothEnabled(w, o, k, now);
    BothAttempt(w, o, k, now);
    BothJobs(w, o, k, now);
    StepIsCellwise(cfg, w, PopBoth(w, o, k, now), now, k);
  }

  lemma BothStep(cfg: Config, r: Run, o: Key, k: Key, now: int) returns (s: Run)
    requires RunIn(cfg, r, {o, k}) && BothDue(Last(r), o, k, now)
    ensures RunIn(cfg, s, {o, k}) && Last(s) == Apply(cfg, Last(r), PopBoth(Last(r), o, k, now), now)
    ensures o in Last(s).table && !Waiting(Some(Last(s).table[o]))
  {
    BothEnabled(Last(r), o, k, now);
    s := Extend(cfg, r, {o, k}, PopBoth(Last(r), o, k, now), now);
  }

  /** o has failed once and is due again, and k is queued. */
  lemma OneBehind(cfg: Config, o: Key, k: Key) returns (r: Run, now: int)
    requires o != k && Limit(cfg) >= 2 && o.package != "" && o.version != "" && k.package != "" && k.version != ""
    ensures RunIn(cfg, r, {o, k}) && BothDue(Last(r), o, k, now) && Counted(Last(r), k, 0)
    ensures Last(r).table[o].attempts == 1 && Last(r).table[k].attempts == 0
  {
    var q;
    q, now := Rounds(cfg, {o, k}, o, 1);
    assert CellOf(Last(q), k) == CellOf(INIT, k);
    r := EnqueueStep(cfg, q, {o, k}, k, "a", now);
    assert CellOf(Last(r), o) == CellOf(Last(q), o);
    assert Last(r).table.Keys <= {o, k};
    assert LeasableKeys(Last(r).table, now) == {o, k};
  }

  /** Both are leased at once: k's first job has attempt 2. */
  lemma BothLeased(cfg: Config, r: Run, o: Key, k: Key, now: int) returns (s: Run)
    requires RunIn(cfg, r, {o, k}) && BothDue(Last(r), o, k, now) && Counted(Last(r), k, 0) && QueueKey(o) == QueueKey(k)
    requires Last(r).table[o].attempts == 1 && Last(r).table[k].attempts == 0 && k.package != "" && k.version != ""
    ensures RunIn(cfg, s, {o, k}) && Counted(Last(s), k, 1)
    ensures o in Last(s).table && !Waiting(Some(Last(s).table[o]))
    ensures var c := CellOf(Last(s), k); FreshJob(c) && c.copies[|c.copies| - 1].attempt == 2
  {
    s := BothStep(cfg, r, o, k, now);
    BothMeans(cfg, Last(r), o, k, now);
    Recipes.MergeIsClean(LeaseNow(Last(r), k, now).recipes, []);
  }

  /** With a limit of three or more, rows that share their folded name and version make a run with one enqueue
      of k and no expiry in which k's second lease carries attempt 3. */
  lemma SharedAttempts(cfg: Config, o: Key, k: Key) returns (r: Run)
    requires o != k && QueueKey(o) == QueueKey(k) && Limit(cfg) >= 3
    requires o.package != "" && o.version != "" && k.package != "" && k.version != ""
    ensures RunIn(cfg, r, {o, k}) && Counted(Last(r), k, 2) && LedgerOf(Last(r), k).grants[1].attempt == 3
  {
    var now;
    r, now := OneBehind(cfg, o, k);
    var q := BothLeased(cfg, r, o, k, now);
    var s := Fail(cfg, q, {o, k}, k, Last(q).now);
    assert CellOf(Last(s), o) == CellOf(Last(q), o) && Last(s).table.Keys <= {o, k};
    now := Retryable(Last(s), k);
    r := LeaseRow(cfg, s, {o, k}, k, now);
  }

  // ----- Main results -----

  /** Whatever the limit, some run of the queue leases a row, enqueued once and never taken back, exactly
      max(1, limit) times. */
  lemma BoundIsReached(cfg: Config, k: Key) returns (r: Run)
    requires k.package != "" && k.version != ""
    ensures RunIn(cfg, r, {k}) && Counted(Last(r), k, Max(1, Limit(cfg)))
  {
    var n := Max(1, Limit(cfg)) - 1;
    var now;
    r, now := Rounds(cfg, {k}, k, n);
    r := LeaseRow(cfg, r, {k}, k, now);
  }

  /** What k's own enqueues and expired leases allow. */
  ghost predicate OwnBound(cfg: Config, w: World, k: Key) {
    var l := LedgerOf(w, k);
    |l.grants| <= l.enqueues * Max(1, Limit(cfg)) + l.expiries * Max(1, Limit(cfg) - 1)
  }

  /** Enqueued once and never taken back, k's leases count attempts up to the limit. */
  ghost predicate OwnAttempts(cfg: Config, w: World, k: Key) {
    Once(w, k) ==>
      var l := LedgerOf(w, k);
      |l.grants| <= Max(1, Limit(cfg)) && forall j | 0 <= j < |l.grants| :: l.grants[j].attempt == j + 1
  }

  /** Enqueued once and never taken back, k's own jobs carry on with each other's recipes. */
  ghost predicate OwnRecipes(w: World, k: Key) {
    Once(w, k) ==>
      var owns := Own(LedgerOf(w, k).copies);
      forall i, j | 0 <= i < j < |owns| :: owns[i].job <= owns[j].job
  }

  ghost predicate RealRows(rows: set<Key>) {
    forall o | o in rows :: o.package != "" && o.version != ""
  }

  ghost predicate Undisturbed(cfg: Config, rows: set<Key>, k: Key) {
    forall o | o in rows && o != k :: !Disturbs(cfg, o, k)
  }

  /** A run in which another row takes on k breaks all three. */
  lemma Broken(cfg: Config, rows: set<Key>, o: Key, k: Key) returns (r: Run)
    requires k in rows && o in rows && RealRows(rows) && o != k && Disturbs(cfg, o, k)
    ensures RunIn(cfg, r, rows) && r.worlds != []
    ensures !OwnBound(cfg, Last(r), k) && !OwnAttempts(cfg, Last(r), k) && !OwnRecipes(Last(r), k)
  {
    r := BoundBroken(cfg, o, k);
    WithinMore(r.worlds, {o, k}, rows);
    var owns := Own(LedgerOf(Last(r), k).copies);
    assert !(owns[0].job <= owns[|owns| - 1].job);
  }

  /** In every run over the given rows k is leased at most as often as its own enqueues and expired leases
      allow, if and only if none of the other rows may take on k with an attempt below the limit. */
  lemma BoundHoldsIff(cfg: Config, rows: set<Key>, k: Key)
    requires k in rows && RealRows(rows)
    ensures (forall ws, es, n: nat | IsRun(cfg, ws, es) && Within(ws, rows) && n < |ws| :: OwnBound(cfg, ws[n], k))
            <==> Undisturbed(cfg, rows, k)
  {
    if Undisturbed(cfg, rows, k) {
      forall ws, es, n: nat | IsRun(cfg, ws, es) && Within(ws, rows) && n < |ws|
        ensures OwnBound(cfg, ws[n], k)
      {
        NobodyDisturbs(cfg, ws, rows, k);
        UndisturbedLeasesAreBounded(cfg, ws, es, n, k);
      }
    } else {
      var o :| o in rows && o != k && Disturbs(cfg, o, k);
      var r := Broken(cfg, rows, o, k);
      assert !OwnBound(cfg, r.worlds[|r.worlds| - 1], k);
    }
  }

  /** In every run over the given rows the own jobs of k, enqueued once and never taken back, carry on with each
      other's recipes, if and only if none of the other rows may take on k with an attempt below the limit. */
  lemma RecipesHoldIff(cfg: Config, rows: set<Key>, k: Key)
    requires k in rows && RealRows(rows)
    ensures (forall ws, es, n: nat | IsRun(cfg, ws, es) && Within(ws, rows) && n < |ws| :: OwnRecipes(ws[n], k))
            <==> Undisturbed(cfg, rows, k)
  {
    if Undisturbed(cfg, rows, k) {
      forall ws, es, n: nat | IsRun(cfg, ws, es) && Within(ws, rows) && n < |ws|
        ensures OwnRecipes(ws[n], k)
      {
        NobodyDisturbs(cfg, ws, rows, k);
        RecipesHold(cfg, ws, es, n, k);
      }
    } else {
      var o :| o in rows && o != k && Disturbs(cfg, o, k);
      var r := Broken(cfg, rows, o, k);
      assert !OwnRecipes(r.worlds[|r.worlds| - 1], k);
    }
  }

  lemma RecipesHold(cfg: Config, ws: seq<World>, es: seq<Step>, n: nat, k: Key)
    requires IsRun(cfg, ws, es) && n < |ws| && NeverDisturbed(cfg, ws, k)
    ensures OwnRecipes(ws[n], k)
  {
    if Once(ws[n], k) {
      UndisturbedIsTame(cfg, ws, es, k);
      var owns := Own(LedgerOf(ws[n], k).copies);
      forall i, j | 0 <= i < j < |owns|
        ensures owns[i].job <= owns[j].job
      {
        RecipesFormAChain(cfg, ws, es, n, k, i, j);
      }
    }
  }

  /** In every run over the given rows the leases of k, enqueued once and never taken back, count attempts up to
      the limit, if and only if none of the other rows may take on k with an attempt below the limit and, with a
      limit of three or more, none shares k's folded name and version. */
  lemma AttemptsHoldIff(cfg: Config, rows: set<Key>, k: Key)
    requires k in rows && RealRows(rows)
    ensures (forall ws, es, n: nat | IsRun(cfg, ws, es) && Within(ws, rows) && n < |ws| :: OwnAttempts(cfg, ws[n], k))
            <==> Undisturbed(cfg, rows, k)
                 && (Limit(cfg) >= 3 ==> forall o | o in rows && o != k :: QueueKey(o) != QueueKey(k))
  {
    if !Undisturbed(cfg, rows, k) {
      var o :| o in rows && o != k && Disturbs(cfg, o, k);
      var r := Broken(cfg, rows, o, k);
      assert !OwnAttempts(cfg, r.worlds[|r.worlds| - 1], k);
    } else if Limit(cfg) >= 3 && exists o :: o in rows && o != k && QueueKey(o) == QueueKey(k) {
      var o :| o in rows && o != k && QueueKey(o) == QueueKey(k);
      var r := SharedAttempts(cfg, o, k);
      WithinMore(r.worlds, {o, k}, rows);
      assert !OwnAttempts(cfg, r.worlds[|r.worlds| - 1], k);
    } else {
      forall ws, es, n: nat | IsRun(cfg, ws, es) && Within(ws, rows) && n < |ws|
        ensures OwnAttempts(cfg, ws[n], k)
      {
        AttemptsHold(cfg, rows, ws, es, n, k);
      }
    }
  }

  lemma AttemptsHold(cfg: Config, rows: set<Key>, ws: seq<World>, es: seq<Step>, n: nat, k: Key)
    requires IsRun(cfg, ws, es) && n < |ws| && Within(ws, rows) && Undisturbed(cfg, rows, k)
    requires Limit(cfg) >= 3 ==> forall o | o in rows && o != k :: QueueKey(o) != QueueKey(k)
    ensures OwnAttempts(cfg, ws[n], k)
  {
    if Once(ws[n], k) {
      NobodyDisturbs(cfg, ws, rows, k);
      UndisturbedIsTame(cfg, ws, es, k);
      OnceBound(cfg, ws, es, n, k);
      if Limit(cfg) <= 2 {
        forall j | 0 <= j < |LedgerOf(ws[n], k).grants|
          ensures LedgerOf(ws[n], k).grants[j].attempt == j + 1
        {
          SmallLimitCountsLeases(cfg, ws, es, n, k, j);
        }
      } else {
        NobodyShares(cfg, rows, ws, k);
        AloneIsTameAndExact(cfg, ws, es, k);
        AttemptsCountLeases(cfg, ws, es, n, k);
      }
    }
  }

  lemma NobodyShares(cfg: Config, rows: set<Key>, ws: seq<World>, k: Key)
    requires Within(ws, rows) && Undisturbed(cfg, rows, k) && Limit(cfg) >= 3
    requires forall o | o in rows && o != k :: QueueKey(o) != QueueKey(k)
    ensures AlwaysAlone(ws, k)
  {
    forall i | 0 <= i < |ws|
      ensures Alone(ws[i], k)
    {
      assert ws[i].table.Keys <= rows;
      forall o | o in ws[i].table && o != k
        ensures !Shares(o, k)
      {
        assert o in rows && !Disturbs(cfg, o, k);
      }
    }
  }

  lemma WithinMore(ws: seq<World>, a: set<Key>, b: set<Key>)
    requires Within(ws, a) && a <= b
    ensures Within(ws, b)
  {
  }

  lemma NobodyDisturbs(cfg: Config, ws: seq<World>, rows: set<Key>, k: Key)
    requires Within(ws, rows) && Undisturbed(cfg, rows, k)
    ensures NeverDisturbed(cfg, ws, k)
  {
    forall i, o | 0 <= i < |ws| && o in ws[i].table && o != k
      ensures !Disturbs(cfg, o, k)
    {
      assert ws[i].table.Keys <= rows;
    }
  }

  /** The case that arises when a wheel is listed in one version and required in no version: with a limit of
      one attempt, version 1.0 of x is leased twice, both times as attempt 1, because x is also queued as
      "latest". */
  lemma LatestLeasesTwice(cfg: Config) returns (r: Run)
    requires Limit(cfg) == 1
    ensures var o, k := Key("x", "latest"), Key("x", "1.0");
            && RunIn(cfg, r, {o, k}) && Counted(Last(r), k, 2)
            && LedgerOf(Last(r), k).grants[1].attempt == 1 && QueueKey(o) != QueueKey(k)
  {
    var o, k := Key("x", "latest"), Key("x", "1.0");
    assert |QueueKey(o)| == 9 && |QueueKey(k)| == 6;
    r := BoundBroken(cfg, o, k);
  }

  /** An expired lease is why the bound counts expiries: enqueued once, the row is leased twice, and both of its
      jobs are still to be reported. */
  lemma ExpiryLeasesTwice(cfg: Config, k: Key) returns (r: Run)
    requires k.package != "" && k.version != ""
    ensures RunIn(cfg, r, {k})
    ensures var l := LedgerOf(Last(r), k);
            && l.enqueues == 1 && l.expiries == 1 && |l.grants| == 2 && |l.copies| == 2
            && l.copies[0].own && l.copies[1].own && l.copies[0].final.Unsent? && l.copies[1].final.Unsent?
  {
    var now;
    r, now := Rounds(cfg, {k}, k, 0);
    r := LeaseRow(cfg, r, {k}, k, now);
    var w, e, later := Last(r), Expire(60), now + 61 * NANOS;
    StepIsCellwise(cfg, w, e, later, k);
    r := Extend(cfg, r, {k}, e, later);
    assert Last(r).table.Keys <= {k};
    DueAlone(Last(r), k, later);
    r := LeaseRow(cfg, r, {k}, k, later);
  }
}
