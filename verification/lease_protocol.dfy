/** The build queue together with its workers: every run of leases, reports, expiries, re-enqueues and
    deletions, with reports that may be delayed, reordered or lost. */
module LeaseProtocol {
  import opened Text
  import opened BuildStore
  import opened Jobs
  import Recipes
  import Backoff

  datatype Config = Config(maxRequeue: int, requeueOnFailure: bool, autoFix: bool)

  /** A status report of a worker: not sent yet, on its way, or gone (applied once, or lost). */
  datatype Slot = Unsent | InFlight(report: Report, sentAt: int) | Gone(report: Report, sentAt: int, applied: bool)

  /** A lease of a row: the attempts the row has from then on, and when. */
  datatype Grant = Grant(attempt: int, at: int)

  /** A job for a row: whether it comes from a lease of that row or from another row's, the attempt it
      reports, when it was taken on, its recipes and its two reports. */
  datatype Copy = Copy(own: bool, attempt: int, leasedAt: int, job: seq<string>, start: Slot, final: Slot,
                       outcome: Option<Outcome>)

  /** Everything about one row: the row itself, its leases, all jobs ever taken on for it, and how often it
      was enqueued from a plan and taken back from a stale lease. */
  datatype Cell = Cell(row: Option<Row>, grants: seq<Grant>, copies: seq<Copy>, enqueues: nat, expiries: nat)

  datatype Which = Start | Final

  datatype Outcome = Succeeded | Broke(found: seq<string>)

  // ----- What a worker reports -----

  function Present(recipes: seq<string>): Option<seq<string>> {
    if recipes == [] then None else Some(recipes)
  }

  function StartReport(c: Copy): Report {
    Report(Building, c.attempt, 0, Present(c.job))
  }

  predicate Applied(cfg: Config, c: Copy, o: Outcome) {
    cfg.autoFix && o.Broke? && |Recipes.Merge(c.job, o.found)| > |c.job|
  }

  /** The attempts a row may reach; failed jobs are not retried at all unless requeueing or fixing is on. */
  function Limit(cfg: Config): int {
    if cfg.requeueOnFailure || cfg.autoFix then cfg.maxRequeue else 0
  }

  predicate ShouldRequeue(cfg: Config, attempt: int) {
    cfg.requeueOnFailure && attempt < cfg.maxRequeue
  }

  function FinalStatus(cfg: Config, c: Copy, o: Outcome): Status {
    if o.Succeeded? then Built
    else if Applied(cfg, c, o) && c.attempt < cfg.maxRequeue then Retry
    else if ShouldRequeue(cfg, c.attempt) then Retry
    else Failed
  }

  function FinalReport(cfg: Config, c: Copy, o: Outcome, now: int, jitter: nat): Report
    requires jitter < NANOS
  {
    var status := FinalStatus(cfg, c, o);
    Report(status, c.attempt, if status.Retry? then Backoff.BackoffTime(c.attempt, now, jitter) else 0,
           Present(if Applied(cfg, c, o) then Recipes.Merge(c.job, o.found) else c.job))
  }

  // ----- One row -----

  datatype CellEvent =
    | Idle
    | CEnqueue(recipes: Option<seq<string>>)
    | CPop(leased: bool, attempt: int, taken: seq<Taken>)
    | CExpire(maxAgeSec: int)
    | CDelete
    | CStart(i: nat)
    | CFinish(i: nat, outcome: Outcome, jitter: nat)
    | CDeliver(i: nat, which: Which)
    | CLose(i: nat, which: Which)

  function SlotOf(c: Copy, which: Which): Slot {
    if which.Start? then c.start else c.final
  }

  function WithSlot(c: Copy, which: Which, s: Slot): Copy {
    if which.Start? then c.(start := s) else c.(final := s)
  }

  /** The batch of a pop as one row sees it. A lease of the row gives at most one job for it, with the row's
      recipes merged with the plan's; leases of other rows may give more. */
  ghost predicate PopEnabled(c: Cell, leased: bool, attempt: int, taken: seq<Taken>, now: int) {
    && (leased ==> c.row.Some? && Leasable(c.row.value, now) && attempt >= c.row.value.attempts + 1)
    && attempt >= 0
    && OwnCount(taken) <= (if leased then 1 else 0)
    && (forall t | t in taken :: Recipes.Clean(t.recipes))
    && forall t | t in taken && t.own :: MergedOnto(c.row, t.recipes)
  }

  /** The row's recipes merged with those of some plan. */
  ghost predicate MergedOnto(row: Option<Row>, recipes: seq<string>) {
    exists planned :: recipes == Recipes.Merge(RowRecipes(row), planned)
  }

  ghost predicate CellEnabled(c: Cell, e: CellEvent, now: int) {
    match e
    case Idle | CEnqueue(_) | CDelete => true
    case CPop(leased, attempt, taken) => PopEnabled(c, leased, attempt, taken, now)
    case CExpire(maxAgeSec) => c.row.Some? && maxAgeSec > 0 && Stale(c.row.value, maxAgeSec, now)
    case CStart(_) | CFinish(_, _, _) | CDeliver(_, _) | CLose(_, _) => WorkEnabled(c, e)
  }

  /** The steps of a job in hand. */
  predicate WorkEnabled(c: Cell, e: CellEvent) {
    match e
    case CStart(i) => i < |c.copies| && c.copies[i].start.Unsent?
    case CFinish(i, _, jitter) => i < |c.copies| && !c.copies[i].start.Unsent? && c.copies[i].final.Unsent? && jitter < NANOS
    case CDeliver(i, which) => i < |c.copies| && SlotOf(c.copies[i], which).InFlight?
    case CLose(i, which) => i < |c.copies| && SlotOf(c.copies[i], which).InFlight?
    case _ => false
  }

  function RowRecipes(row: Option<Row>): seq<string> {
    if row.Some? && row.value.recipes.Some? then row.value.recipes.value else []
  }

  function NewCopies(attempt: int, taken: seq<Taken>, now: int): seq<Copy> {
    seq(|taken|, i requires 0 <= i < |taken| =>
      Copy(taken[i].own, attempt, now, taken[i].recipes, Unsent, Unsent, None))
  }

  predicate Applicable(c: Cell, e: CellEvent) {
    match e
    case Idle | CEnqueue(_) | CDelete => true
    case CPop(leased, _, _) => leased ==> c.row.Some?
    case CExpire(_) => c.row.Some?
    case CStart(_) | CFinish(_, _, _) | CDeliver(_, _) | CLose(_, _) => WorkEnabled(c, e)
  }

  function CellApply(cfg: Config, c: Cell, e: CellEvent, now: int): Cell
    requires Applicable(c, e)
  {
    match e
    case Idle => c
    case CEnqueue(recipes) => c.(row := Some(EnqueuedRow(c.row, recipes, now)), enqueues := c.enqueues + 1)
    case CPop(leased, attempt, taken) =>
      c.(row := if leased then Some(LeasedRow(c.row.value, now)) else c.row,
         grants := if leased then c.grants + [Grant(c.row.value.attempts + 1, now)] else c.grants,
         copies := c.copies + NewCopies(attempt, taken, now))
    case CExpire(_) => c.(row := Some(ExpiredRow(c.row.value, now)), expiries := c.expiries + 1)
    case CDelete => c.(row := None)
    case CStart(i) =>
      c.(copies := c.copies[i := c.copies[i].(start := InFlight(StartReport(c.copies[i]), now))])
    case CFinish(i, outcome, jitter) =>
      var r := FinalReport(cfg, c.copies[i], outcome, now, jitter);
      c.(copies := c.copies[i := c.copies[i].(final := InFlight(r, now), outcome := Some(outcome))])
    case CDeliver(i, which) =>
      var s := SlotOf(c.copies[i], which);
      c.(row := Some(Upserted(c.row, s.report, now)),
         copies := c.copies[i := WithSlot(c.copies[i], which, Gone(s.report, s.sentAt, true))])
    case CLose(i, which) =>
      var s := SlotOf(c.copies[i], which);
      c.(copies := c.copies[i := WithSlot(c.copies[i], which, Gone(s.report, s.sentAt, false))])
  }

  // ----- The invariant of one row, in every run -----

  /** The recipes a final report leaves behind. */
  function Kept(r: Report): seq<string> {
    if r.recipes.Some? then r.recipes.value else []
  }

  ghost predicate CopyInv(cfg: Config, c: Copy, now: int) {
    && c.attempt >= 0 && 0 <= c.leasedAt <= now && Recipes.Clean(c.job)
    && (!c.start.Unsent? ==> c.start.report == StartReport(c))
    && (c.final.Unsent? <==> c.outcome.None?)
    && (!c.final.Unsent? ==>
          var r := c.final.report;
          && (r.status.Built? || r.status.Failed? || r.status.Retry?)
          && (r.status.Built? <==> c.outcome.value.Succeeded?)
          && r.attempts == c.attempt
          && c.leasedAt <= c.final.sentAt <= now
          && c.job <= Kept(r) && Recipes.Clean(Kept(r)) && (r.recipes.Some? ==> r.recipes.value != [])
          && (r.status.Retry? ==> c.attempt < Limit(cfg))
          && (r.status.Retry? && Backoff.OnSchedule(c.attempt) ==>
                r.backoffUntil >= c.final.sentAt / NANOS + Backoff.Schedule(c.attempt)))
  }

  ghost predicate RowInv(cfg: Config, row: Row, now: int) {
    && Stamped(row, now)
    && row.attempts >= 0
    && (row.status.Leased? ==> row.attempts >= 1)
    && (row.status.Retry? ==> row.attempts < Limit(cfg))
  }

  /** Leases a row may still be granted from its present state. */
  function RowCredit(cfg: Config, row: Option<Row>): int {
    if row.Some? && (row.value.status.Pending? || row.value.status.Retry?) then
      Max(1, Limit(cfg) - row.value.attempts)
    else 0
  }

  /** Leases the final report of a job may still bring about. */
  function CopyCredit(cfg: Config, c: Copy): int {
    if c.final.Gone? then 0 else Max(0, Limit(cfg) - c.attempt)
  }

  function Credit(cfg: Config, copies: seq<Copy>): (sum: int)
    ensures sum >= 0
  {
    if copies == [] then 0 else Credit(cfg, copies[..|copies| - 1]) + CopyCredit(cfg, copies[|copies| - 1])
  }

  /** Leases that jobs from other rows' leases may bring about. */
  function Borrowed(cfg: Config, copies: seq<Copy>): (sum: int)
    ensures sum >= 0
  {
    if copies == [] then 0
    else
      var c := copies[|copies| - 1];
      Borrowed(cfg, copies[..|copies| - 1]) + (if c.own then 0 else Max(0, Limit(cfg) - c.attempt))
  }

  function Budget(cfg: Config, c: Cell): int {
    c.enqueues * Max(1, Limit(cfg)) + c.expiries * Max(1, Limit(cfg) - 1) + Borrowed(cfg, c.copies)
  }

  ghost predicate BaseInv(cfg: Config, c: Cell, now: int) {
    && now >= 0
    && (c.row.Some? ==> RowInv(cfg, c.row.value, now))
    && (forall i | 0 <= i < |c.copies| :: CopyInv(cfg, c.copies[i], now))
    && |c.grants| + RowCredit(cfg, c.row) + Credit(cfg, c.copies) <= Budget(cfg, c)
  }

  // ----- Preservation -----

  lemma {:induction false} CreditUpdate(cfg: Config, copies: seq<Copy>, i: nat, c: Copy)
    requires i < |copies|
    ensures Credit(cfg, copies[i := c]) == Credit(cfg, copies) - CopyCredit(cfg, copies[i]) + CopyCredit(cfg, c)
  {
    var n := |copies| - 1;
    if i == n {
      assert copies[i := c][..n] == copies[..n];
    } else {
      assert copies[i := c][..n] == copies[..n][i := c];
      CreditUpdate(cfg, copies[..n], i, c);
    }
  }

  lemma {:induction false} BorrowedUpdate(cfg: Config, copies: seq<Copy>, i: nat, c: Copy)
    requires i < |copies| && c.own == copies[i].own && c.attempt == copies[i].attempt
    ensures Borrowed(cfg, copies[i := c]) == Borrowed(cfg, copies)
  {
    var n := |copies| - 1;
    if i == n {
      assert copies[i := c][..n] == copies[..n];
    } else {
      assert copies[i := c][..n] == copies[..n][i := c];
      BorrowedUpdate(cfg, copies[..n], i, c);
    }
  }

  lemma NewCopiesAppend(attempt: int, taken: seq<Taken>, now: int)
    requires taken != []
    ensures var n := |taken| - 1;
            NewCopies(attempt, taken, now)
            == NewCopies(attempt, taken[..n], now) + [Copy(taken[n].own, attempt, now, taken[n].recipes, Unsent, Unsent, None)]
  {
  }

  lemma NewCopiesAfter(copies: seq<Copy>, attempt: int, taken: seq<Taken>, now: int)
    requires taken != []
    ensures var n := |taken| - 1;
            copies + NewCopies(attempt, taken, now)
            == copies + NewCopies(attempt, taken[..n], now)
               + [Copy(taken[n].own, attempt, now, taken[n].recipes, Unsent, Unsent, None)]
  {
    NewCopiesAppend(attempt, taken, now);
  }

  lemma SumsAppend(cfg: Config, copies: seq<Copy>, c: Copy)
    ensures Credit(cfg, copies + [c]) == Credit(cfg, copies) + CopyCredit(cfg, c)
    ensures Borrowed(cfg, copies + [c]) == Borrowed(cfg, copies) + (if c.own then 0 else Max(0, Limit(cfg) - c.attempt))
  {
    assert (copies + [c])[..|copies|] == copies;
  }

  /** New jobs add to the credit what they borrow, and the row's own job what its attempts leave. */
  lemma {:induction false} TakenSums(cfg: Config, copies: seq<Copy>, attempt: int, taken: seq<Taken>, now: int)
    requires OwnCount(taken) <= 1
    ensures var more := copies + NewCopies(attempt, taken, now);
            Credit(cfg, more) - Borrowed(cfg, more)
            == Credit(cfg, copies) - Borrowed(cfg, copies)
               + (if OwnCount(taken) == 1 then Max(0, Limit(cfg) - attempt) else 0)
  {
    if taken == [] {
      assert copies + NewCopies(attempt, taken, now) == copies;
    } else {
      var n := |taken| - 1;
      var init := copies + NewCopies(attempt, taken[..n], now);
      var c := Copy(taken[n].own, attempt, now, taken[n].recipes, Unsent, Unsent, None);
      TakenSums(cfg, copies, attempt, taken[..n], now);
      NewCopiesAfter(copies, attempt, taken, now);
      SumsAppend(cfg, init, c);
    }
  }

  lemma FinalReportSound(cfg: Config, c: Copy, o: Outcome, now: int, jitter: nat)
    requires CopyInv(cfg, c, now) && c.final.Unsent? && jitter < NANOS
    ensures CopyInv(cfg, c.(final := InFlight(FinalReport(cfg, c, o, now, jitter), now), outcome := Some(o)), now)
  {
    if o.Broke? {
      Recipes.MergeKeepsClean(c.job, o.found);
    }
    if Backoff.OnSchedule(c.attempt) {
      Backoff.BackoffWindow(c.attempt, now, jitter);
    }
  }

  lemma CopiesKept(cfg: Config, c: Cell, e: CellEvent, now: int, now': int)
    requires BaseInv(cfg, c, now) && now <= now' && CellEnabled(c, e, now')
    ensures forall i | 0 <= i < |CellApply(cfg, c, e, now').copies| ::
              CopyInv(cfg, CellApply(cfg, c, e, now').copies[i], now')
  {
    forall i | 0 <= i < |c.copies|
      ensures CopyInv(cfg, c.copies[i], now')
    {
      assert CopyInv(cfg, c.copies[i], now);
    }
    match e
    case CPop(_, attempt, taken) =>
      forall t | t in NewCopies(attempt, taken, now')
        ensures CopyInv(cfg, t, now')
      {
        var i :| 0 <= i < |taken| && NewCopies(attempt, taken, now')[i] == t;
        assert taken[i] in taken;
      }
    case CFinish(i, o, jitter) =>
      FinalReportSound(cfg, c.copies[i], o, now', jitter);
    case _ =>
  }

  lemma RowKept(cfg: Config, c: Cell, e: CellEvent, now: int, now': int)
    requires BaseInv(cfg, c, now) && now <= now' && CellEnabled(c, e, now')
    ensures var row := CellApply(cfg, c, e, now').row; row.Some? ==> RowInv(cfg, row.value, now')
  {
    if e.CDeliver? {
      assert CopyInv(cfg, c.copies[e.i], now);
    }
  }

  /** Enqueuing and expiring pay for the lease they allow. */
  lemma BudgetGrows(cfg: Config, c: Cell, e: CellEvent, now: int)
    requires CellEnabled(c, e, now)
    requires c.row.Some? ==> c.row.value.attempts >= 0 && (c.row.value.status.Leased? ==> c.row.value.attempts >= 1)
    requires e.CEnqueue? || e.CExpire?
    ensures var d := CellApply(cfg, c, e, now);
            RowCredit(cfg, d.row) - RowCredit(cfg, c.row) <= Budget(cfg, d) - Budget(cfg, c)
  {
    var a, b := Max(1, Limit(cfg)), Max(1, Limit(cfg) - 1);
    assert (c.enqueues + 1) * a == c.enqueues * a + a;
    assert (c.expiries + 1) * b == c.expiries * b + b;
  }

  /** A lease is taken from the credit of its row, which passes what is left to the row's own job; jobs from
      other rows' leases borrow theirs. */
  lemma PopSpends(cfg: Config, c: Cell, e: CellEvent, now: int)
    requires CellEnabled(c, e, now) && e.CPop?
    ensures var d := CellApply(cfg, c, e, now);
            |d.grants| - |c.grants| + RowCredit(cfg, d.row) + Credit(cfg, d.copies) - Borrowed(cfg, d.copies)
            <= RowCredit(cfg, c.row) + Credit(cfg, c.copies) - Borrowed(cfg, c.copies)
  {
    TakenSums(cfg, c.copies, e.attempt, e.taken, now);
  }

  /** A report moves at most the credit of its job to the row. */
  lemma ReportMovesCredit(cfg: Config, c: Cell, e: CellEvent, now: int)
    requires WorkEnabled(c, e)
    requires CopyInv(cfg, c.copies[e.i], now)
    ensures var d := CellApply(cfg, c, e, now);
            && d.grants == c.grants && Borrowed(cfg, d.copies) == Borrowed(cfg, c.copies)
            && RowCredit(cfg, d.row) + Credit(cfg, d.copies) <= RowCredit(cfg, c.row) + Credit(cfg, c.copies)
  {
    CreditUpdate(cfg, c.copies, e.i, CellApply(cfg, c, e, now).copies[e.i]);
    BorrowedUpdate(cfg, c.copies, e.i, CellApply(cfg, c, e, now).copies[e.i]);
  }

  /** No step creates leases out of nothing: what is granted is taken from the credit, and only an
      enqueue, an expired lease or a job from another row's lease adds to the budget. */
  lemma CreditKept(cfg: Config, c: Cell, e: CellEvent, now: int, now': int)
    requires BaseInv(cfg, c, now) && now <= now' && CellEnabled(c, e, now')
    ensures var d := CellApply(cfg, c, e, now');
            |d.grants| + RowCredit(cfg, d.row) + Credit(cfg, d.copies) <= Budget(cfg, d)
  {
    if e.CEnqueue? || e.CExpire? {
      BudgetGrows(cfg, c, e, now');
    } else if e.CPop? {
      PopSpends(cfg, c, e, now');
    } else if !e.Idle? && !e.CDelete? {
      assert CopyInv(cfg, c.copies[e.i], now);
      ReportMovesCredit(cfg, c, e, now');
    }
  }

  lemma BaseKept(cfg: Config, c: Cell, e: CellEvent, now: int, now': int)
    requires BaseInv(cfg, c, now) && now <= now' && CellEnabled(c, e, now')
    ensures BaseInv(cfg, CellApply(cfg, c, e, now'), now')
  {
    CopiesKept(cfg, c, e, now, now');
    RowKept(cfg, c, e, now, now');
    CreditKept(cfg, c, e, now, now');
  }

  /** The final report carries more recipes than the job exactly when an automatic fix was applied. */
  lemma ReportedRecipes(cfg: Config, c: Copy, o: Outcome, now: int, jitter: nat)
    requires jitter < NANOS && Recipes.Clean(c.job)
    ensures var r := FinalReport(cfg, c, o, now, jitter);
            && c.job <= Kept(r)
            && (|Kept(r)| > |c.job| <==> Applied(cfg, c, o))
            && (r.status.Retry? ==> c.attempt < cfg.maxRequeue && o.Broke?)
  {
    if o.Broke? {
      Recipes.MergeKeepsClean(c.job, o.found);
    }
  }

  /** A recipe is found that the job lacks. */
  ghost predicate FindsFix(c: Copy, o: Outcome) {
    o.Broke? && exists x :: x in o.found && Recipes.Adds(c.job, x)
  }

  /** A job that failed is retried while its attempt is below the limit, if failed jobs are requeued or a fix was
      found. */
  ghost predicate ToBeRetried(cfg: Config, c: Copy, o: Outcome) {
    o.Broke? && c.attempt < cfg.maxRequeue && (cfg.requeueOnFailure || (cfg.autoFix && FindsFix(c, o)))
  }

  /** What a final report says, from the job, its outcome and the configuration: built if and only if the job
      succeeded, retry if and only if it failed and may be tried again, failed otherwise; the job's attempt; a
      retry time on schedule, or none; and the job's recipes, with the fix if there is one. */
  lemma FinalReportIs(cfg: Config, c: Copy, o: Outcome, now: int, jitter: nat)
    requires jitter < NANOS && Recipes.Clean(c.job)
    ensures var r := FinalReport(cfg, c, o, now, jitter);
            && (r.status == Built <==> o == Succeeded)
            && (r.status == Retry <==> ToBeRetried(cfg, c, o))
            && (r.status == Failed <==> o != Succeeded && !ToBeRetried(cfg, c, o))
            && r.attempts == c.attempt
            && (r.status != Retry ==> r.backoffUntil == 0)
            && (r.status == Retry && Backoff.OnSchedule(c.attempt) ==>
                  now / NANOS + Backoff.Schedule(c.attempt) <= r.backoffUntil <= now / NANOS + Backoff.Schedule(c.attempt) + 1)
            && (cfg.autoFix && FindsFix(c, o) ==> r.recipes == Some(Recipes.Merge(c.job, o.found)))
            && (!(cfg.autoFix && FindsFix(c, o)) ==> r.recipes == if c.job == [] then None else Some(c.job))
  {
    if o.Broke? {
      Recipes.MergeKeepsClean(c.job, o.found);
      Recipes.MergeIntoExtends(c.job, o.found);
    }
    if Backoff.OnSchedule(c.attempt) {
      Backoff.BackoffWindow(c.attempt, now, jitter);
    }
  }

  /** The first report says that the job is being built, with its attempt and recipes. */
  lemma StartReportIs(c: Copy)
    ensures var r := StartReport(c);
            && r.status == Building && r.attempts == c.attempt && r.backoffUntil == 0
            && (c.job == [] ==> r.recipes == None) && (c.job != [] ==> r.recipes == Some(c.job))
  {
  }
}
