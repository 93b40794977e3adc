/** What links the leases of one row: each follows from the job before it, unless another row interferes. */
module LeaseChain {
  import opened Text
  import opened BuildStore
  import opened Jobs
  import opened LeaseProtocol
  import Recipes
  import Backoff

  // ----- What a row's status rests on, in every run -----

  /** The final report of job c asked for a retry and was applied. */
  predicate Retried(c: Copy) {
    c.final.Gone? && c.final.applied && c.final.report.status.Retry?
  }

  /** The row says what the applied final report of job c said. */
  predicate ReportedBy(row: Row, c: Copy) {
    && c.final.Gone? && c.final.applied
    && row.status == c.final.report.status
    && row.attempts == c.attempt
    && row.backoffUntil == BackoffColumn(c.final.report.backoffUntil)
  }

  /** The row waits as the final report of job c told it to. */
  predicate WaitsFor(row: Row, c: Copy) {
    && Retried(c)
    && row.attempts == c.attempt
    && row.backoffUntil == BackoffColumn(c.final.report.backoffUntil)
  }

  predicate Ended(row: Row) {
    row.status.Built? || row.status.Failed? || row.status.Retry?
  }

  /** A row that is built, failed or to be retried is so by the report of one of its jobs. */
  ghost predicate Explained(c: Cell) {
    c.row.Some? && Ended(c.row.value) ==> exists i :: 0 <= i < |c.copies| && ReportedBy(c.row.value, c.copies[i])
  }

  lemma SentStays(cfg: Config, c: Cell, e: CellEvent, now: int, i: nat)
    requires Applicable(c, e) && i < |c.copies| && c.copies[i].final.Gone?
    ensures var copies := CellApply(cfg, c, e, now).copies;
            i < |copies| && copies[i].final == c.copies[i].final && copies[i].attempt == c.copies[i].attempt
  {
  }

  lemma EndArrives(cfg: Config, c: Cell, e: CellEvent, now: int)
    requires WorkEnabled(c, e) && e.CDeliver? && ReportsFit(c.copies[e.i])
    requires var s := SlotOf(c.copies[e.i], e.which).report.status; s.Built? || s.Failed? || s.Retry?
    ensures var d := CellApply(cfg, c, e, now); e.which.Final? && ReportedBy(d.row.value, d.copies[e.i])
  {
  }

  /** What the reports of a job carry. */
  predicate ReportsFit(c: Copy) {
    && (!c.start.Unsent? ==> c.start.report == StartReport(c))
    && (!c.final.Unsent? ==> c.final.report.attempts == c.attempt)
    && c.attempt >= 0
  }

  /** Every step keeps it: only an applied final report ends a build. */
  lemma StaysExplained(cfg: Config, c: Cell, e: CellEvent, now: int, now': int)
    requires BaseInv(cfg, c, now) && now <= now' && CellEnabled(c, e, now') && Applicable(c, e) && Explained(c)
    ensures Explained(CellApply(cfg, c, e, now'))
  {
    var d := CellApply(cfg, c, e, now');
    if d.row.Some? && Ended(d.row.value) {
      if e.CDeliver? {
        assert CopyInv(cfg, c.copies[e.i], now);
        EndArrives(cfg, c, e, now');
      } else {
        var i :| 0 <= i < |c.copies| && ReportedBy(c.row.value, c.copies[i]);
        SentStays(cfg, c, e, now', i);
        assert ReportedBy(d.row.value, d.copies[i]);
      }
    }
  }

  /** A leased row has the time of its last lease. */
  ghost predicate LeasedSince(c: Cell) {
    c.row.Some? && c.row.value.status.Leased? ==>
      c.grants != [] && c.row.value.leasedAt == Some(c.grants[|c.grants| - 1].at)
  }

  lemma StaysLeasedSince(cfg: Config, c: Cell, e: CellEvent, now: int, now': int)
    requires BaseInv(cfg, c, now) && CellEnabled(c, e, now') && Applicable(c, e) && LeasedSince(c)
    ensures LeasedSince(CellApply(cfg, c, e, now'))
  {
    if e.CDeliver? {
      assert CopyInv(cfg, c.copies[e.i], now);
    }
  }

  /** A lease of a row that waits for a job's retry comes no earlier than the documented delay after that job
      decided to be retried. */
  lemma LeaseWaits(cfg: Config, row: Row, c: Copy, now: int, at: int)
    requires CopyInv(cfg, c, now) && WaitsFor(row, c) && Leasable(row, at) && Backoff.OnSchedule(c.attempt)
    ensures at >= (c.final.sentAt / NANOS + Backoff.Schedule(c.attempt)) * NANOS
  {
    Backoff.ScheduleMonotone(c.attempt, c.attempt);
    var r := c.final.report;
    assert r.backoffUntil >= c.final.sentAt / NANOS + Backoff.Schedule(c.attempt) > 0;
    assert row.backoffUntil == Some(r.backoffUntil * NANOS);
  }

  // ----- A row enqueued once and never taken back, while other rows' leases do no harm -----

  /** Jobs from other rows' leases are past the limit when they are taken on, so they are never retried. */
  ghost predicate Harmless(cfg: Config, copies: seq<Copy>) {
    forall c | c in copies :: c.own || c.attempt >= Limit(cfg)
  }

  /** A pop brings the row no other jobs than harmless ones. */
  ghost predicate Tame(cfg: Config, e: CellEvent) {
    e.CPop? ==> forall t | t in e.taken :: t.own || e.attempt >= Limit(cfg)
  }

  /** A pop that leases the row lends its job no other row's attempt. */
  predicate Exact(c: Cell, e: CellEvent) {
    e.CPop? && e.leased && c.row.Some? ==> e.attempt == c.row.value.attempts + 1
  }

  lemma TameKeepsHarmless(cfg: Config, c: Cell, e: CellEvent, now: int)
    requires Applicable(c, e) && Harmless(cfg, c.copies) && Tame(cfg, e)
    ensures Harmless(cfg, CellApply(cfg, c, e, now).copies)
  {
    var d := CellApply(cfg, c, e, now);
    forall x | x in d.copies
      ensures x.own || x.attempt >= Limit(cfg)
    {
      var j :| 0 <= j < |d.copies| && d.copies[j] == x;
      if j < |c.copies| {
        assert c.copies[j] in c.copies;
      } else {
        assert e.taken[j - |c.copies|] in e.taken;
      }
    }
  }

  /** The row's own jobs, in the order they were taken on. */
  function Own(copies: seq<Copy>): seq<Copy> {
    if copies == [] then []
    else Own(copies[..|copies| - 1]) + (if copies[|copies| - 1].own then [copies[|copies| - 1]] else [])
  }

  lemma {:induction false} OwnMembers(copies: seq<Copy>)
    ensures forall x :: x in Own(copies) <==> x in copies && x.own
  {
    if copies != [] {
      var n := |copies| - 1;
      OwnMembers(copies[..n]);
      assert copies == copies[..n] + [copies[n]];
    }
  }

  lemma OwnAppend(copies: seq<Copy>, c: Copy)
    ensures Own(copies + [c]) == Own(copies) + (if c.own then [c] else [])
  {
    assert (copies + [c])[..|copies|] == copies;
  }

  /** Changing a job changes its place among the own jobs, if it is one, and nothing else. */
  lemma {:induction false} OwnUpdate(copies: seq<Copy>, i: nat, c: Copy)
    requires i < |copies| && c.own == copies[i].own
    ensures !c.own ==> Own(copies[i := c]) == Own(copies)
    ensures c.own ==> var p := |Own(copies[..i])|;
              p < |Own(copies)| && Own(copies)[p] == copies[i] && Own(copies[i := c]) == Own(copies)[p := c]
  {
    var n := |copies| - 1;
    if i == n {
      assert copies[i := c][..n] == copies[..n];
    } else {
      assert copies[i := c][..n] == copies[..n][i := c];
      assert copies[..n][..i] == copies[..i];
      OwnUpdate(copies[..n], i, c);
    }
  }

  /** A pop adds at most one own job, with the attempt of the batch and the recipes of the row. */
  lemma {:induction false} OwnTaken(copies: seq<Copy>, attempt: int, taken: seq<Taken>, now: int)
    requires OwnCount(taken) <= 1
    ensures var owns := Own(copies + NewCopies(attempt, taken, now));
            if OwnCount(taken) == 0 then owns == Own(copies)
            else exists t :: t in taken && t.own
                             && owns == Own(copies) + [Copy(true, attempt, now, t.recipes, Unsent, Unsent, None)]
  {
    if taken == [] {
      assert copies + NewCopies(attempt, taken, now) == copies;
    } else {
      var n := |taken| - 1;
      var init := copies + NewCopies(attempt, taken[..n], now);
      OwnTaken(copies, attempt, taken[..n], now);
      NewCopiesAfter(copies, attempt, taken, now);
      var c := Copy(taken[n].own, attempt, now, taken[n].recipes, Unsent, Unsent, None);
      OwnAppend(init, c);
      if OwnCount(taken[..n]) == 1 {
        var t :| t in taken[..n] && t.own && Own(init) == Own(copies) + [Copy(true, attempt, now, t.recipes, Unsent, Unsent, None)];
        assert t in taken;
      } else if taken[n].own {
        assert taken[n] in taken;
      }
    }
  }

  // ----- Links -----

  /** The lease after job a: one attempt more and not before a's back-off ends. */
  ghost predicate LeasedAgain(a: Copy, g: Grant) {
    Retried(a) && g.attempt == a.attempt + 1 && g.at >= a.final.report.backoffUntil * NANOS
  }

  /** Job b carries on with the recipes job a left behind. */
  ghost predicate CarriesOn(a: Copy, b: Copy) {
    Retried(a) && a.job <= Kept(a.final.report) <= b.job
  }

  /** Job c was taken on by lease g, with its attempt or a larger one of the batch. */
  predicate TakenBy(c: Copy, g: Grant) {
    c.attempt >= g.attempt && c.leasedAt == g.at
  }

  /** Every job was taken on by the lease of the same number, the last lease may have none, and each lease
      follows from the job before. */
  ghost predicate Links(grants: seq<Grant>, owns: seq<Copy>) {
    && |owns| <= |grants| <= |owns| + 1
    && (grants != [] ==> grants[0].attempt == 1)
    && (forall i | 0 <= i < |owns| :: TakenBy(owns[i], grants[i]))
    && (forall i: nat | i < |owns| && i + 1 < |grants| :: LeasedAgain(owns[i], grants[i + 1]))
    && (forall i: nat | i + 1 < |owns| :: CarriesOn(owns[i], owns[i + 1]))
  }

  lemma LinksLease(grants: seq<Grant>, owns: seq<Copy>, g: Grant)
    requires Links(grants, owns) && |grants| == |owns|
    requires if owns == [] then g.attempt == 1 else LeasedAgain(owns[|owns| - 1], g)
    ensures Links(grants + [g], owns)
  {
    var more := grants + [g];
    forall i | 0 <= i < |owns|
      ensures TakenBy(owns[i], more[i])
    {
      assert TakenBy(owns[i], grants[i]);
    }
    forall i: nat | i < |owns| && i + 1 < |more|
      ensures LeasedAgain(owns[i], more[i + 1])
    {
      assert i + 1 < |grants| ==> LeasedAgain(owns[i], grants[i + 1]);
    }
  }

  lemma LinksJob(grants: seq<Grant>, owns: seq<Copy>, c: Copy)
    requires Links(grants, owns) && |grants| == |owns| + 1 && TakenBy(c, grants[|owns|])
    requires owns != [] ==> CarriesOn(owns[|owns| - 1], c)
    ensures Links(grants, owns + [c])
  {
    var more := owns + [c];
    forall i | 0 <= i < |more|
      ensures TakenBy(more[i], grants[i])
    {
      assert i < |owns| ==> TakenBy(owns[i], grants[i]);
    }
    forall i: nat | i < |more| && i + 1 < |grants|
      ensures LeasedAgain(more[i], grants[i + 1])
    {
      assert LeasedAgain(owns[i], grants[i + 1]);
    }
    forall i: nat | i + 1 < |more|
      ensures CarriesOn(more[i], more[i + 1])
    {
      assert i + 1 < |owns| ==> CarriesOn(owns[i], owns[i + 1]);
    }
  }

  /** A report that is sent, applied or lost keeps the links: a retried job has no final report left. */
  lemma LinksReport(grants: seq<Grant>, owns: seq<Copy>, k: nat, c: Copy)
    requires Links(grants, owns) && k < |owns|
    requires c == owns[k].(start := c.start, final := c.final, outcome := c.outcome)
    requires Retried(owns[k]) ==> c.final == owns[k].final
    ensures Links(grants, owns[k := c])
  {
    var next := owns[k := c];
    forall i | 0 <= i < |next|
      ensures TakenBy(next[i], grants[i])
    {
      assert TakenBy(owns[i], grants[i]);
    }
    forall i: nat | i < |next| && i + 1 < |grants|
      ensures LeasedAgain(next[i], grants[i + 1])
    {
      assert LeasedAgain(owns[i], grants[i + 1]);
    }
    forall i: nat | i + 1 < |next|
      ensures CarriesOn(next[i], next[i + 1])
    {
      assert CarriesOn(owns[i], owns[i + 1]);
    }
  }

  lemma NextLeaseRetried(grants: seq<Grant>, owns: seq<Copy>, i: nat)
    requires Links(grants, owns) && i < |owns|
    ensures i + 1 < |grants| ==> Retried(owns[i])
  {
    assert i + 1 < |grants| ==> LeasedAgain(owns[i], grants[i + 1]);
  }

  ghost predicate Waiting(row: Option<Row>) {
    row.Some? && (row.value.status.Pending? || row.value.status.Retry?)
  }

  /** The row waits with what its last job left behind. */
  ghost predicate Resumes(row: Row, last: Copy) {
    WaitsFor(row, last) && (last.final.report.recipes.Some? ==> row.recipes == last.final.report.recipes)
  }

  /** A row that waits: for its first lease, or with what its last job left behind. */
  ghost predicate WaitsInTurn(row: Option<Row>, grants: seq<Grant>, owns: seq<Copy>) {
    Waiting(row) ==>
      && |owns| == |grants|
      && (row.value.status.Pending? ==> grants == [] && row.value.attempts == 0)
      && (row.value.status.Retry? ==> owns != [] && Resumes(row.value, owns[|owns| - 1]))
  }

  ghost predicate OnceInv(c: Cell) {
    && Links(c.grants, Own(c.copies))
    && (c.enqueues == 0 ==> !Waiting(c.row) && c.grants == [])
    && WaitsInTurn(c.row, c.grants, Own(c.copies))
  }

  ghost predicate ChainInv(c: Cell) {
    c.enqueues <= 1 && c.expiries == 0 ==> OnceInv(c)
  }

  // ----- Leases keep the links -----

  lemma LeaseResumes(last: Copy, row: Row, now: int)
    requires Leasable(row, now) && Resumes(row, last) && now >= 0
    ensures LeasedAgain(last, Grant(row.attempts + 1, now))
  {
  }

  lemma RecipesResume(last: Copy, row: Row, job: seq<string>)
    requires Resumes(row, last) && MergedOnto(Some(row), job)
    requires last.job <= Kept(last.final.report) && Recipes.Clean(Kept(last.final.report))
    ensures last.job <= Kept(last.final.report) <= job
  {
    var planned :| job == Recipes.Merge(RowRecipes(Some(row)), planned);
    Recipes.MergeKeepsClean(Kept(last.final.report), planned);
  }

  lemma LeaseLinks(row: Row, grants: seq<Grant>, owns: seq<Copy>, now: int)
    requires Links(grants, owns) && WaitsInTurn(Some(row), grants, owns) && Leasable(row, now) && now >= 0
    ensures Links(grants + [Grant(row.attempts + 1, now)], owns)
  {
    if owns != [] {
      LeaseResumes(owns[|owns| - 1], row, now);
    }
    LinksLease(grants, owns, Grant(row.attempts + 1, now));
  }

  lemma JobLinks(cfg: Config, row: Row, grants: seq<Grant>, owns: seq<Copy>, job: Copy, now: int)
    requires Links(grants, owns) && WaitsInTurn(Some(row), grants, owns) && Leasable(row, now) && now >= 0
    requires owns != [] ==> CopyInv(cfg, owns[|owns| - 1], now)
    requires TakenBy(job, Grant(row.attempts + 1, now)) && MergedOnto(Some(row), job.job)
    ensures Links(grants + [Grant(row.attempts + 1, now)], owns + [job])
  {
    LeaseLinks(row, grants, owns, now);
    if owns != [] {
      RecipesResume(owns[|owns| - 1], row, job.job);
    }
    LinksJob(grants + [Grant(row.attempts + 1, now)], owns, job);
  }

  /** next is owns, or owns with the job of a lease of the row. */
  ghost predicate LeasedOwns(row: Row, owns: seq<Copy>, next: seq<Copy>, now: int) {
    || next == owns
    || (next != [] && next[..|next| - 1] == owns
        && TakenBy(next[|next| - 1], Grant(row.attempts + 1, now)) && MergedOnto(Some(row), next[|next| - 1].job))
  }

  lemma OwnsOfLease(cfg: Config, c: Cell, e: CellEvent, now: int)
    requires CellEnabled(c, e, now) && e.CPop? && e.leased
    ensures LeasedOwns(c.row.value, Own(c.copies), Own(CellApply(cfg, c, e, now).copies), now)
  {
    OwnTaken(c.copies, e.attempt, e.taken, now);
  }

  lemma SplitLast<T>(s: seq<T>, init: seq<T>)
    requires s != [] && s[..|s| - 1] == init
    ensures s == init + [s[|s| - 1]]
  {
  }

  lemma LeaseKeepsLinks(cfg: Config, row: Row, grants: seq<Grant>, owns: seq<Copy>, next: seq<Copy>, now: int)
    requires owns != [] ==> CopyInv(cfg, owns[|owns| - 1], now)
    requires Links(grants, owns) && WaitsInTurn(Some(row), grants, owns) && Leasable(row, now) && now >= 0
    requires LeasedOwns(row, owns, next, now)
    ensures Links(grants + [Grant(row.attempts + 1, now)], next)
  {
    if next == owns {
      LeaseLinks(row, grants, owns, now);
    } else {
      var job := next[|next| - 1];
      SplitLast(next, owns);
      JobLinks(cfg, row, grants, owns, job, now);
    }
  }

  lemma LeaseCell(cfg: Config, c: Cell, e: CellEvent, now: int)
    requires CellEnabled(c, e, now) && e.CPop? && e.leased
    ensures var d := CellApply(cfg, c, e, now);
            && d.grants == c.grants + [Grant(c.row.value.attempts + 1, now)] && d.enqueues == c.enqueues
            && !Waiting(d.row) && Waiting(c.row) && Leasable(c.row.value, now) && d.expiries == c.expiries
  {
  }

  lemma NotWaiting(c: Cell)
    requires Links(c.grants, Own(c.copies)) && !Waiting(c.row) && (c.enqueues == 0 ==> c.grants == [])
    ensures OnceInv(c)
  {
  }

  /** A lease extends the chain of leases, and of own jobs if it has one. */
  lemma LeaseKeepsChain(cfg: Config, c: Cell, e: CellEvent, now: int)
    requires var owns := Own(c.copies); owns != [] ==> CopyInv(cfg, owns[|owns| - 1], now)
    requires now >= 0 && CellEnabled(c, e, now) && OnceInv(c) && e.CPop? && e.leased
    ensures OnceInv(CellApply(cfg, c, e, now))
  {
    var d := CellApply(cfg, c, e, now);
    OwnsOfLease(cfg, c, e, now);
    LeaseCell(cfg, c, e, now);
    LeaseKeepsLinks(cfg, c.row.value, c.grants, Own(c.copies), Own(d.copies), now);
    assert d.enqueues == c.enqueues != 0;
    NotWaiting(d);
  }

  lemma NoLeaseKeepsChain(cfg: Config, c: Cell, e: CellEvent, now: int)
    requires e.CPop? && !e.leased && CellEnabled(c, e, now) && OnceInv(c)
    ensures OnceInv(CellApply(cfg, c, e, now))
  {
    OwnTaken(c.copies, e.attempt, e.taken, now);
  }

  // ----- Reports keep the links -----

  /** The changed job of a report, in its place among the own jobs. */
  lemma ReportLinks(cfg: Config, c: Cell, e: CellEvent, now: int)
    requires WorkEnabled(c, e) && Links(c.grants, Own(c.copies))
    ensures Links(c.grants, Own(CellApply(cfg, c, e, now).copies))
  {
    var x := CellApply(cfg, c, e, now).copies[e.i];
    OwnUpdate(c.copies, e.i, x);
    if x.own {
      LinksReport(c.grants, Own(c.copies), |Own(c.copies[..e.i])|, x);
    }
  }

  /** Only the last own job can still be retried. */
  lemma OnlyLastRetries(cfg: Config, c: Cell, e: CellEvent, now: int)
    requires WorkEnabled(c, e) && Links(c.grants, Own(c.copies)) && CopyInv(cfg, c.copies[e.i], now)
    requires Harmless(cfg, c.copies)
    requires e.CDeliver? && SlotOf(c.copies[e.i], e.which).report.status.Retry?
    ensures e.which.Final? && c.copies[e.i].own
    ensures |c.grants| == |Own(c.copies)| == |Own(c.copies[..e.i])| + 1
  {
    assert c.copies[e.i] in c.copies;
    OwnUpdate(c.copies, e.i, c.copies[e.i]);
    NextLeaseRetried(c.grants, Own(c.copies), |Own(c.copies[..e.i])|);
  }

  lemma RetryResumes(cfg: Config, c: Cell, e: CellEvent, now: int)
    requires WorkEnabled(c, e) && OnceInv(c) && CopyInv(cfg, c.copies[e.i], now) && Harmless(cfg, c.copies)
    requires e.CDeliver? && SlotOf(c.copies[e.i], e.which).report.status.Retry?
    ensures var d := CellApply(cfg, c, e, now); WaitsInTurn(d.row, d.grants, Own(d.copies))
  {
    OnlyLastRetries(cfg, c, e, now);
    var d := CellApply(cfg, c, e, now);
    OwnUpdate(c.copies, e.i, d.copies[e.i]);
    EndArrives(cfg, c, e, now);
    assert Resumes(d.row.value, d.copies[e.i]);
  }

  lemma WaitsReport(row: Option<Row>, grants: seq<Grant>, owns: seq<Copy>, k: nat, c: Copy)
    requires WaitsInTurn(row, grants, owns) && k < |owns|
    requires c == owns[k].(start := c.start, final := c.final, outcome := c.outcome)
    requires Retried(owns[k]) ==> c.final == owns[k].final
    ensures WaitsInTurn(row, grants, owns[k := c])
  {
  }

  /** A report that is sent or lost leaves a waiting row to the job it waits for. */
  lemma UnreportedWaits(cfg: Config, c: Cell, e: CellEvent, now: int)
    requires WorkEnabled(c, e) && !e.CDeliver? && OnceInv(c)
    ensures var d := CellApply(cfg, c, e, now); WaitsInTurn(d.row, d.grants, Own(d.copies))
  {
    var x := CellApply(cfg, c, e, now).copies[e.i];
    OwnUpdate(c.copies, e.i, x);
    if x.own {
      WaitsReport(c.row, c.grants, Own(c.copies), |Own(c.copies[..e.i])|, x);
    }
  }

  lemma ReportKeepsChain(cfg: Config, c: Cell, e: CellEvent, now: int)
    requires WorkEnabled(c, e) && OnceInv(c) && CopyInv(cfg, c.copies[e.i], now) && Harmless(cfg, c.copies)
    ensures OnceInv(CellApply(cfg, c, e, now))
  {
    ReportLinks(cfg, c, e, now);
    if !e.CDeliver? {
      UnreportedWaits(cfg, c, e, now);
    } else if SlotOf(c.copies[e.i], e.which).report.status.Retry? {
      RetryResumes(cfg, c, e, now);
      OnlyLastRetries(cfg, c, e, now);
    }
  }

  lemma OwnSound(cfg: Config, copies: seq<Copy>, now: int)
    requires forall i | 0 <= i < |copies| :: CopyInv(cfg, copies[i], now)
    ensures forall i | 0 <= i < |Own(copies)| :: CopyInv(cfg, Own(copies)[i], now)
  {
    forall i | 0 <= i < |Own(copies)|
      ensures CopyInv(cfg, Own(copies)[i], now)
    {
      OwnMembers(copies);
      assert Own(copies)[i] in Own(copies);
    }
  }

  /** While a row has been enqueued at most once and never taken back, and other rows' leases brought it only
      harmless jobs, every step keeps the chain. */
  lemma ChainKept(cfg: Config, c: Cell, e: CellEvent, now: int, now': int)
    requires BaseInv(cfg, c, now) && now <= now' && CellEnabled(c, e, now') && Applicable(c, e)
    requires Harmless(cfg, c.copies) && ChainInv(c)
    ensures ChainInv(CellApply(cfg, c, e, now'))
  {
    if c.enqueues <= 1 && c.expiries == 0 {
      CopiesKept(cfg, c, Idle, now, now');
      OwnSound(cfg, c.copies, now');
      if e.CPop? && e.leased {
        LeaseKeepsChain(cfg, c, e, now');
      } else if e.CPop? {
        NoLeaseKeepsChain(cfg, c, e, now');
      } else if e.CStart? || e.CFinish? || e.CDeliver? || e.CLose? {
        ReportKeepsChain(cfg, c, e, now');
      }
    }
  }

  // ----- Attempts -----

  /** Every own job has the attempt of its lease. */
  ghost predicate ExactJobs(grants: seq<Grant>, owns: seq<Copy>) {
    forall i | 0 <= i < |owns| && i < |grants| :: owns[i].attempt == grants[i].attempt
  }

  lemma ExactLease(cfg: Config, c: Cell, e: CellEvent, now: int)
    requires CellEnabled(c, e, now) && Exact(c, e) && e.CPop? && e.leased
    requires |c.grants| == |Own(c.copies)| && ExactJobs(c.grants, Own(c.copies))
    ensures ExactJobs(c.grants + [Grant(c.row.value.attempts + 1, now)], Own(CellApply(cfg, c, e, now).copies))
  {
    OwnTaken(c.copies, e.attempt, e.taken, now);
  }

  lemma ExactReport(cfg: Config, c: Cell, e: CellEvent, now: int)
    requires WorkEnabled(c, e) && ExactJobs(c.grants, Own(c.copies))
    ensures ExactJobs(c.grants, Own(CellApply(cfg, c, e, now).copies))
  {
    OwnUpdate(c.copies, e.i, CellApply(cfg, c, e, now).copies[e.i]);
  }

  /** So it stays if no batch lends the row's job another row's attempt. */
  lemma ExactKept(cfg: Config, c: Cell, e: CellEvent, now: int)
    requires CellEnabled(c, e, now) && Applicable(c, e) && Exact(c, e) && ExactJobs(c.grants, Own(c.copies))
    requires e.CPop? && e.leased ==> |c.grants| == |Own(c.copies)|
    ensures var d := CellApply(cfg, c, e, now); ExactJobs(d.grants, Own(d.copies))
  {
    if e.CPop? && e.leased {
      ExactLease(cfg, c, e, now);
    } else if e.CPop? {
      OwnTaken(c.copies, e.attempt, e.taken, now);
    } else if WorkEnabled(c, e) {
      ExactReport(cfg, c, e, now);
    }
  }

  lemma LeasedInTurn(c: Cell, e: CellEvent, now: int)
    requires CellEnabled(c, e, now) && OnceInv(c)
    ensures e.CPop? && e.leased ==> |c.grants| == |Own(c.copies)|
  {
  }

  /** Linked leases count attempts if the jobs are exact. */
  lemma {:induction false} ExactCount(grants: seq<Grant>, owns: seq<Copy>, j: nat)
    requires Links(grants, owns) && ExactJobs(grants, owns) && j < |grants|
    ensures grants[j].attempt == j + 1
  {
    if j > 0 {
      ExactCount(grants, owns, j - 1);
      assert LeasedAgain(owns[j - 1], grants[j - 1 + 1]);
      assert owns[j - 1].attempt == grants[j - 1].attempt;
    }
  }

  /** Below a limit of three they count attempts whatever attempts other rows lend: a borrowed attempt is past
      the limit. */
  lemma SmallLimitCounts(cfg: Config, grants: seq<Grant>, owns: seq<Copy>, now: int, j: nat)
    requires Links(grants, owns) && Limit(cfg) <= 2 && j < |grants|
    requires forall i | 0 <= i < |owns| :: CopyInv(cfg, owns[i], now)
    ensures grants[j].attempt == j + 1
  {
    if j > 0 {
      assert LeasedAgain(owns[j - 1], grants[j - 1 + 1]) && CopyInv(cfg, owns[j - 1], now);
      AttemptsGrow(grants, owns, j - 1);
    }
  }

  lemma {:induction false} AttemptsGrow(grants: seq<Grant>, owns: seq<Copy>, j: nat)
    requires Links(grants, owns) && j < |grants|
    ensures grants[j].attempt >= j + 1
    ensures j < |owns| ==> owns[j].attempt >= j + 1
  {
    if j > 0 {
      AttemptsGrow(grants, owns, j - 1);
      assert LeasedAgain(owns[j - 1], grants[j - 1 + 1]);
    }
    assert j < |owns| ==> TakenBy(owns[j], grants[j]);
  }

  /** Linked jobs carry on with each other's recipes. */
  lemma {:induction false} LinkedJobs(grants: seq<Grant>, owns: seq<Copy>, i: nat, j: nat)
    requires Links(grants, owns) && i < j < |owns|
    ensures Retried(owns[i]) && owns[i].job <= owns[j].job
    ensures |Kept(owns[i].final.report)| > |owns[i].job| ==> owns[i].job < owns[j].job
    decreases j
  {
    assert CarriesOn(owns[j - 1], owns[j - 1 + 1]);
    if i < j - 1 {
      LinkedJobs(grants, owns, i, j - 1);
    }
  }
}
