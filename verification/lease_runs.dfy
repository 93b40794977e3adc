/** The whole queue: all rows, all workers, and every run of store and worker steps. */
module LeaseRuns {
  import opened Text
  import opened BuildStore
  import opened Jobs
  import opened LeaseProtocol
  import opened LeaseChain
  import Recipes
  import Backoff

  /** The history of one row that the table does not hold. */
  datatype Ledger = Ledger(grants: seq<Grant>, copies: seq<Copy>, enqueues: nat, expiries: nat)

  datatype World = World(table: map<Key, Row>, ledgers: map<Key, Ledger>, now: int)

  /** One atomic step. A pop leases the oldest due rows to one worker and turns them, with the plan the worker
      fetched for each, into jobs; the last form is a step of job i of row k. */
  datatype Event =
    | Enqueue(node: PlanNode)
    | Pop(max: int, leases: seq<Lease>, plans: map<Key, seq<Entry>>)
    | Expire(maxAgeSec: int)
    | Delete(filter: Option<Status>)
    | Work(k: Key, step: CellEvent)

  function LedgerOf(w: World, k: Key): Ledger {
    if k in w.ledgers then w.ledgers[k] else Ledger([], [], 0, 0)
  }

  function CellOf(w: World, k: Key): Cell {
    var l := LedgerOf(w, k);
    Cell(Lookup(w.table, k), l.grants, l.copies, l.enqueues, l.expiries)
  }

  function LeasedKeys(leases: seq<Lease>): set<Key> {
    Elements(KeysOf(leases))
  }

  /** The plan a leased row was queued from has the row; a plan that could not be fetched has nothing. */
  ghost predicate Fetched(plans: map<Key, seq<Entry>>, k: Key) {
    PlanOf(plans, k) == [] || HasEntry(PlanOf(plans, k), k)
  }

  ghost predicate Enabled(w: World, e: Event, now: int) {
    && now >= w.now
    && match e
       case Enqueue(_) | Expire(_) | Delete(_) => true
       case Pop(max, leases, plans) =>
         && OldestDue(w.table, now, if max <= 0 then 1 else max, KeysOf(leases))
         && Copies(leases, LeasedTable(w.table, LeasedKeys(leases), now))
         && DistinctPlans(plans)
         && forall i | 0 <= i < |leases| :: Fetched(plans, leases[i].key)
       case Work(k, step) => WorkEnabled(CellOf(w, k), step)
  }

  /** What the step means for row k. */
  function EventAt(w: World, e: Event, now: int, k: Key): CellEvent {
    match e
    case Enqueue(n) => if Queued(n) && Key(n.name, n.version) == k then CEnqueue(PlanRecipes(n.recipes)) else Idle
    case Pop(_, leases, plans) => CPop(k in LeasedKeys(leases), AttemptOf(leases, QueueKey(k)), JobsAt(leases, plans, k))
    case Expire(maxAgeSec) =>
      if maxAgeSec > 0 && k in w.table && Stale(w.table[k], maxAgeSec, now) then CExpire(maxAgeSec) else Idle
    case Delete(filter) =>
      if k in w.table && !(filter.Some? && w.table[k].status != filter.value) then CDelete else Idle
    case Work(o, step) => if o == k then step else Idle
  }

  /** The table after a step, by the store's own functions. */
  function NextTable(w: World, e: Event, now: int): map<Key, Row> {
    match e
    case Enqueue(n) => EnqueueNode(w.table, n, now)
    case Pop(_, leases, _) => LeasedTable(w.table, LeasedKeys(leases), now)
    case Expire(maxAgeSec) => ExpiredTable(w.table, maxAgeSec, now)
    case Delete(filter) => RemainingTable(w.table, filter)
    case Work(k, CDeliver(i, which)) =>
      var c := CellOf(w, k);
      if WorkEnabled(c, e.step) then
        w.table[k := Upserted(Lookup(w.table, k), SlotOf(c.copies[i], which).report, now)]
      else w.table
    case Work(_, _) => w.table
  }

  /** The rows a worker takes on jobs for. */
  function JobKeys(plans: map<Key, seq<Entry>>): set<Key> {
    set k, e | k in plans && e in plans[k] :: KeyOf(e)
  }

  function Touched(w: World, e: Event): set<Key> {
    match e
    case Enqueue(n) => {Key(n.name, n.version)}
    case Pop(_, leases, plans) => LeasedKeys(leases) + JobKeys(plans)
    case Expire(_) | Delete(_) => w.table.Keys
    case Work(k, _) => {k}
  }

  function NextLedger(cfg: Config, w: World, e: Event, now: int, k: Key): Ledger {
    var c := CellOf(w, k);
    var ce := EventAt(w, e, now, k);
    if Applicable(c, ce) then
      var d := CellApply(cfg, c, ce, now);
      Ledger(d.grants, d.copies, d.enqueues, d.expiries)
    else LedgerOf(w, k)
  }

  function Apply(cfg: Config, w: World, e: Event, now: int): World {
    World(NextTable(w, e, now),
          map k | k in w.ledgers.Keys + Touched(w, e) :: NextLedger(cfg, w, e, now, k),
          now)
  }

  // ----- Rows by themselves -----

  lemma LeaseIn(leases: seq<Lease>, k: Key)
    ensures k in LeasedKeys(leases) <==> exists i :: 0 <= i < |leases| && leases[i].key == k
  {
    var keys := KeysOf(leases);
    if i :| 0 <= i < |leases| && leases[i].key == k {
      assert keys[i] == k;
    }
  }

  /** Each lease copies its row with one attempt more. */
  lemma LeaseCopies(w: World, e: Event, now: int, i: nat)
    requires Enabled(w, e, now) && e.Pop? && i < |e.leases|
    ensures var l := e.leases[i];
            && l.key in w.table && Leasable(w.table[l.key], now)
            && l.attempts == w.table[l.key].attempts + 1
            && l.recipes == RowRecipes(Some(w.table[l.key]))
  {
    var keys := KeysOf(e.leases);
    assert keys[i] in keys && keys[i] in LeasableKeys(w.table, now);
    assert e.leases[i] == LeaseOf(keys[i], LeasedTable(w.table, LeasedKeys(e.leases), now)[keys[i]]);
  }

  lemma LeasesDistinct(w: World, e: Event, now: int)
    requires Enabled(w, e, now) && e.Pop?
    ensures DistinctKeys(e.leases)
  {
    var keys := KeysOf(e.leases);
    forall i, j | 0 <= i < j < |e.leases|
      ensures e.leases[i].key != e.leases[j].key
    {
      assert keys[i] != keys[j];
    }
  }

  /** A job for row k is trimmed of repetitions, and if it is k's own it carries the row's recipes. */
  lemma TakenSound(w: World, e: Event, now: int, k: Key, t: Taken)
    requires Enabled(w, e, now) && e.Pop? && t in JobsAt(e.leases, e.plans, k)
    ensures Recipes.Clean(t.recipes) && (t.own ==> MergedOnto(Lookup(w.table, k), t.recipes))
  {
    var i := JobsComeFrom(e.leases, e.plans, k, t);
    LeaseCopies(w, e, now, i);
    var planned :| t.recipes == Recipes.Merge(e.leases[i].recipes, planned);
    Recipes.MergeIsClean(e.leases[i].recipes, planned);
  }

  lemma PopEnablesCell(w: World, e: Event, now: int, k: Key)
    requires Enabled(w, e, now) && e.Pop?
    ensures CellEnabled(CellOf(w, k), EventAt(w, e, now, k), now)
  {
    LeaseIn(e.leases, k);
    AttemptIsLargest(e.leases, QueueKey(k));
    LeasesDistinct(w, e, now);
    OwnJobs(e.leases, e.plans, k);
    if k in LeasedKeys(e.leases) {
      var i :| 0 <= i < |e.leases| && e.leases[i].key == k;
      LeaseCopies(w, e, now, i);
    }
    forall t | t in JobsAt(e.leases, e.plans, k)
      ensures Recipes.Clean(t.recipes) && (t.own ==> MergedOnto(Lookup(w.table, k), t.recipes))
    {
      TakenSound(w, e, now, k, t);
    }
  }

  lemma StepEnablesCell(w: World, e: Event, now: int, k: Key)
    requires Enabled(w, e, now)
    ensures CellEnabled(CellOf(w, k), EventAt(w, e, now, k), now)
    ensures Applicable(CellOf(w, k), EventAt(w, e, now, k))
  {
    if e.Pop? {
      PopEnablesCell(w, e, now, k);
    }
  }

  lemma RowSteps(cfg: Config, w: World, e: Event, now: int, k: Key)
    requires Enabled(w, e, now) && Applicable(CellOf(w, k), EventAt(w, e, now, k))
    ensures Lookup(NextTable(w, e, now), k) == CellApply(cfg, CellOf(w, k), EventAt(w, e, now, k), now).row
  {
  }

  lemma NoJobsElsewhere(leases: seq<Lease>, plans: map<Key, seq<Entry>>, k: Key)
    requires DistinctPlans(plans) && k !in JobKeys(plans)
    ensures JobsAt(leases, plans, k) == []
  {
    if JobsAt(leases, plans, k) != [] {
      var i := JobsComeFrom(leases, plans, k, JobsAt(leases, plans, k)[0]);
    }
  }

  lemma UntouchedStays(cfg: Config, w: World, e: Event, now: int, k: Key)
    requires Enabled(w, e, now) && k !in Touched(w, e)
    ensures Applicable(CellOf(w, k), EventAt(w, e, now, k))
    ensures CellApply(cfg, CellOf(w, k), EventAt(w, e, now, k), now) == CellOf(w, k)
  {
    if e.Pop? {
      NoJobsElsewhere(e.leases, e.plans, k);
      assert CellOf(w, k).copies + [] == CellOf(w, k).copies;
    }
  }

  /** A step of the whole queue is, for every row, a step of that row: rows influence each other only through
      the attempts and jobs that a batch brings. */
  lemma StepIsCellwise(cfg: Config, w: World, e: Event, now: int, k: Key)
    requires Enabled(w, e, now)
    ensures CellEnabled(CellOf(w, k), EventAt(w, e, now, k), now)
    ensures Applicable(CellOf(w, k), EventAt(w, e, now, k))
    ensures CellOf(Apply(cfg, w, e, now), k) == CellApply(cfg, CellOf(w, k), EventAt(w, e, now, k), now)
  {
    StepEnablesCell(w, e, now, k);
    RowSteps(cfg, w, e, now, k);
    if k !in Touched(w, e) {
      UntouchedStays(cfg, w, e, now, k);
    }
  }

  // ----- Rows that no other row disturbs -----

  /** Row o may take on jobs for row k, or shares its attempts in a batch. */
  predicate Shares(o: Key, k: Key) {
    Takes(o, k) || QueueKey(o) == QueueKey(k)
  }

  /** No other row of the table shares with k: none has k's folded name with the same folded version or with
      version "latest". */
  ghost predicate Alone(w: World, k: Key) {
    forall o | o in w.table && o != k :: !Shares(o, k)
  }

  /** A pop is exact for a row that is alone. */
  lemma AloneIsExact(w: World, e: Event, now: int, k: Key)
    requires Enabled(w, e, now) && Alone(w, k) && (k in w.table ==> w.table[k].attempts >= 0)
    ensures Exact(CellOf(w, k), EventAt(w, e, now, k))
  {
    if e.Pop? && k in LeasedKeys(e.leases) {
      OwnAttempt(w, e, now, k);
    }
  }

  lemma OwnAttempt(w: World, e: Event, now: int, k: Key)
    requires Enabled(w, e, now) && e.Pop? && Alone(w, k) && k in LeasedKeys(e.leases)
    ensures k in w.table && (w.table[k].attempts >= 0 ==> AttemptOf(e.leases, QueueKey(k)) == w.table[k].attempts + 1)
  {
    LeaseIn(e.leases, k);
    AttemptIsLargest(e.leases, QueueKey(k));
    var i :| 0 <= i < |e.leases| && e.leases[i].key == k;
    LeaseCopies(w, e, now, i);
    if w.table[k].attempts >= 0 {
      var j :| 0 <= j < |e.leases| && QueueKey(e.leases[j].key) == QueueKey(k)
               && e.leases[j].attempts == AttemptOf(e.leases, QueueKey(k));
      LeaseCopies(w, e, now, j);
      assert e.leases[j].key == k;
    }
  }

  // ----- Runs -----

  datatype Step = Step(event: Event, at: int)

  const INIT := World(map[], map[], 0)

  /** ws are the worlds of a run that starts with an empty table and takes the steps es. */
  ghost predicate IsRun(cfg: Config, ws: seq<World>, es: seq<Step>) {
    && |ws| == |es| + 1
    && ws[0] == INIT
    && forall i | 0 <= i < |es| ::
         Enabled(ws[i], es[i].event, es[i].at) && ws[i + 1] == Apply(cfg, ws[i], es[i].event, es[i].at)
  }

  ghost predicate AlwaysAlone(ws: seq<World>, k: Key) {
    forall i | 0 <= i < |ws| :: Alone(ws[i], k)
  }

  ghost predicate TameStep(cfg: Config, w: World, s: Step, k: Key) {
    Tame(cfg, EventAt(w, s.event, s.at, k))
  }

  predicate ExactStep(w: World, s: Step, k: Key) {
    Exact(CellOf(w, k), EventAt(w, s.event, s.at, k))
  }

  /** In no pop of the run does a lease of another row take on a job for k with an attempt below the limit. */
  ghost predicate AlwaysTame(cfg: Config, ws: seq<World>, es: seq<Step>, k: Key)
    requires |ws| == |es| + 1
  {
    forall i | 0 <= i < |es| :: TameStep(cfg, ws[i], es[i], k)
  }

  /** In no pop of the run does k's job get the attempt of another row. */
  ghost predicate AlwaysExact(ws: seq<World>, es: seq<Step>, k: Key)
    requires |ws| == |es| + 1
  {
    forall i | 0 <= i < |es| :: ExactStep(ws[i], es[i], k)
  }

  lemma {:induction false} RunKeepsBase(cfg: Config, ws: seq<World>, es: seq<Step>, n: nat, k: Key)
    requires IsRun(cfg, ws, es) && n < |ws|
    ensures BaseInv(cfg, CellOf(ws[n], k), ws[n].now)
    decreases n
  {
    if n > 0 {
      RunKeepsBase(cfg, ws, es, n - 1, k);
      var e, now := es[n - 1].event, es[n - 1].at;
      StepIsCellwise(cfg, ws[n - 1], e, now, k);
      BaseKept(cfg, CellOf(ws[n - 1], k), EventAt(ws[n - 1], e, now, k), ws[n - 1].now, now);
    }
  }

  // ----- Main results -----

  /** In every reachable state, whatever arrives late, the time stamps fit the status and are ordered. */
  lemma StampsAlwaysFit(cfg: Config, ws: seq<World>, es: seq<Step>, n: nat, k: Key)
    requires IsRun(cfg, ws, es) && n < |ws| && k in ws[n].table
    ensures Stamped(ws[n].table[k], ws[n].now)
  {
    RunKeepsBase(cfg, ws, es, n, k);
  }

  /** In every reachable state a row waiting for a retry has attempts left. */
  lemma RetryRowsHaveAttemptsLeft(cfg: Config, ws: seq<World>, es: seq<Step>, n: nat, k: Key)
    requires IsRun(cfg, ws, es) && n < |ws| && k in ws[n].table && ws[n].table[k].status.Retry?
    ensures ws[n].table[k].attempts < cfg.maxRequeue
  {
    RunKeepsBase(cfg, ws, es, n, k);
  }

  /** Over any run, however reports are delayed, reordered or lost, a row is leased at most max(1, limit) times
      per enqueue, max(1, limit - 1) times per expired lease, and max(0, limit - a) times per job that another
      row's lease took on for it with attempt a. */
  lemma LeasesAreBounded(cfg: Config, ws: seq<World>, es: seq<Step>, n: nat, k: Key)
    requires IsRun(cfg, ws, es) && n < |ws|
    ensures var l := LedgerOf(ws[n], k);
            |l.grants| <= l.enqueues * Max(1, Limit(cfg)) + l.expiries * Max(1, Limit(cfg) - 1) + Borrowed(cfg, l.copies)
  {
    RunKeepsBase(cfg, ws, es, n, k);
  }

  /** Row o can make row k's leases exceed what its own enqueues and expired leases allow: a lease of o takes on
      the build of k with an attempt that the limit lets retry. */
  predicate Disturbs(cfg: Config, o: Key, k: Key) {
    Takes(o, k) && (if QueueKey(o) == QueueKey(k) then 1 else 0) < Limit(cfg)
  }

  ghost predicate NeverDisturbed(cfg: Config, ws: seq<World>, k: Key) {
    forall i, o | 0 <= i < |ws| && o in ws[i].table && o != k :: !Disturbs(cfg, o, k)
  }

  lemma {:induction false} HarmlessBorrowsNothing(cfg: Config, copies: seq<Copy>)
    requires Harmless(cfg, copies)
    ensures Borrowed(cfg, copies) == 0
  {
    if copies != [] {
      assert copies[|copies| - 1] in copies;
      HarmlessBorrowsNothing(cfg, copies[..|copies| - 1]);
    }
  }

  lemma UndisturbedTakes(cfg: Config, w: World, e: Event, now: int, k: Key, t: Taken)
    requires Enabled(w, e, now) && e.Pop? && t in JobsAt(e.leases, e.plans, k) && !t.own
    requires forall o | o in w.table && o != k :: !Disturbs(cfg, o, k)
    requires forall o | o in w.table :: w.table[o].attempts >= 0
    ensures AttemptOf(e.leases, QueueKey(k)) >= Limit(cfg)
  {
    var i := JobsComeFrom(e.leases, e.plans, k, t);
    LeaseCopies(w, e, now, i);
    AttemptIsLargest(e.leases, QueueKey(k));
  }

  lemma AttemptsNeverNegative(cfg: Config, ws: seq<World>, es: seq<Step>, n: nat)
    requires IsRun(cfg, ws, es) && n < |ws|
    ensures forall o | o in ws[n].table :: ws[n].table[o].attempts >= 0
  {
    forall o | o in ws[n].table
      ensures ws[n].table[o].attempts >= 0
    {
      RunKeepsBase(cfg, ws, es, n, o);
    }
  }

  /** Pops are tame for k while no row that disturbs it is in the table. */
  lemma UndisturbedIsTame(cfg: Config, ws: seq<World>, es: seq<Step>, k: Key)
    requires IsRun(cfg, ws, es) && NeverDisturbed(cfg, ws, k)
    ensures AlwaysTame(cfg, ws, es, k)
  {
    forall i | 0 <= i < |es|
      ensures TameStep(cfg, ws[i], es[i], k)
    {
      var e, now := es[i].event, es[i].at;
      AttemptsNeverNegative(cfg, ws, es, i);
      if e.Pop? {
        forall t | t in JobsAt(e.leases, e.plans, k)
          ensures t.own || AttemptOf(e.leases, QueueKey(k)) >= Limit(cfg)
        {
          if !t.own {
            UndisturbedTakes(cfg, ws[i], e, now, k, t);
          }
        }
      }
    }
  }

  /** And exact as well when k is alone: no other row has its folded name with its folded version or "latest". */
  lemma AloneIsTameAndExact(cfg: Config, ws: seq<World>, es: seq<Step>, k: Key)
    requires IsRun(cfg, ws, es) && AlwaysAlone(ws, k)
    ensures AlwaysTame(cfg, ws, es, k) && AlwaysExact(ws, es, k)
  {
    forall i, o | 0 <= i < |ws| && o in ws[i].table && o != k
      ensures !Disturbs(cfg, o, k)
    {
      assert Alone(ws[i], k);
    }
    UndisturbedIsTame(cfg, ws, es, k);
    forall i | 0 <= i < |es|
      ensures ExactStep(ws[i], es[i], k)
    {
      RunKeepsBase(cfg, ws, es, i, k);
      assert Alone(ws[i], k);
      AloneIsExact(ws[i], es[i].event, es[i].at, k);
    }
  }

  lemma {:induction false} RunKeepsHarmless(cfg: Config, ws: seq<World>, es: seq<Step>, n: nat, k: Key)
    requires IsRun(cfg, ws, es) && n < |ws| && AlwaysTame(cfg, ws, es, k)
    ensures Harmless(cfg, LedgerOf(ws[n], k).copies)
    decreases n
  {
    if n > 0 {
      RunKeepsHarmless(cfg, ws, es, n - 1, k);
      var w, e, now := ws[n - 1], es[n - 1].event, es[n - 1].at;
      StepIsCellwise(cfg, w, e, now, k);
      assert TameStep(cfg, w, es[n - 1], k);
      TameKeepsHarmless(cfg, CellOf(w, k), EventAt(w, e, now, k), now);
    }
  }

  lemma {:induction false} RunKeepsChain(cfg: Config, ws: seq<World>, es: seq<Step>, n: nat, k: Key)
    requires IsRun(cfg, ws, es) && n < |ws| && AlwaysTame(cfg, ws, es, k)
    ensures ChainInv(CellOf(ws[n], k))
    decreases n
  {
    if n > 0 {
      RunKeepsChain(cfg, ws, es, n - 1, k);
      RunKeepsBase(cfg, ws, es, n - 1, k);
      RunKeepsHarmless(cfg, ws, es, n - 1, k);
      var e, now := es[n - 1].event, es[n - 1].at;
      StepIsCellwise(cfg, ws[n - 1], e, now, k);
      ChainKept(cfg, CellOf(ws[n - 1], k), EventAt(ws[n - 1], e, now, k), ws[n - 1].now, now);
    }
  }

  /** If no job of another row's lease is taken on for k below the limit, k's own enqueues and expired leases
      bound its leases. */
  lemma TameLeasesAreBounded(cfg: Config, ws: seq<World>, es: seq<Step>, n: nat, k: Key)
    requires IsRun(cfg, ws, es) && n < |ws| && AlwaysTame(cfg, ws, es, k)
    ensures var l := LedgerOf(ws[n], k);
            |l.grants| <= l.enqueues * Max(1, Limit(cfg)) + l.expiries * Max(1, Limit(cfg) - 1)
  {
    LeasesAreBounded(cfg, ws, es, n, k);
    RunKeepsHarmless(cfg, ws, es, n, k);
    HarmlessBorrowsNothing(cfg, LedgerOf(ws[n], k).copies);
  }

  /** So it is when no row that disturbs k is ever in the table. */
  lemma UndisturbedLeasesAreBounded(cfg: Config, ws: seq<World>, es: seq<Step>, n: nat, k: Key)
    requires IsRun(cfg, ws, es) && n < |ws| && NeverDisturbed(cfg, ws, k)
    ensures var l := LedgerOf(ws[n], k);
            |l.grants| <= l.enqueues * Max(1, Limit(cfg)) + l.expiries * Max(1, Limit(cfg) - 1)
  {
    UndisturbedIsTame(cfg, ws, es, k);
    TameLeasesAreBounded(cfg, ws, es, n, k);
  }

  // ----- Rows enqueued once and never taken back -----

  /** k has been enqueued at most once and no lease of it has expired. */
  predicate Once(w: World, k: Key) {
    LedgerOf(w, k).enqueues <= 1 && LedgerOf(w, k).expiries == 0
  }

  lemma OnceSum(enqueues: nat, expiries: nat, a: int, b: int)
    requires enqueues <= 1 && expiries == 0 && a >= 1
    ensures enqueues * a + expiries * b <= a
  {
    assert enqueues == 0 || enqueues == 1;
  }

  lemma OnceBound(cfg: Config, ws: seq<World>, es: seq<Step>, n: nat, k: Key)
    requires IsRun(cfg, ws, es) && n < |ws| && AlwaysTame(cfg, ws, es, k) && Once(ws[n], k)
    ensures |LedgerOf(ws[n], k).grants| <= Max(1, Limit(cfg))
  {
    TameLeasesAreBounded(cfg, ws, es, n, k);
    var l := LedgerOf(ws[n], k);
    OnceSum(l.enqueues, l.expiries, Max(1, Limit(cfg)), Max(1, Limit(cfg) - 1));
  }

  lemma OnceBefore(cfg: Config, ws: seq<World>, es: seq<Step>, n: nat, k: Key)
    requires IsRun(cfg, ws, es) && 0 < n < |ws| && Once(ws[n], k)
    ensures Once(ws[n - 1], k)
  {
    StepIsCellwise(cfg, ws[n - 1], es[n - 1].event, es[n - 1].at, k);
  }

  lemma StepKeepsExact(cfg: Config, w: World, s: Step, k: Key)
    requires Enabled(w, s.event, s.at) && OnceInv(CellOf(w, k)) && ExactStep(w, s, k)
    requires ExactJobs(LedgerOf(w, k).grants, Own(LedgerOf(w, k).copies))
    ensures var l := LedgerOf(Apply(cfg, w, s.event, s.at), k); ExactJobs(l.grants, Own(l.copies))
  {
    StepIsCellwise(cfg, w, s.event, s.at, k);
    LeasedInTurn(CellOf(w, k), EventAt(w, s.event, s.at, k), s.at);
    ExactKept(cfg, CellOf(w, k), EventAt(w, s.event, s.at, k), s.at);
  }

  lemma {:induction false} RunKeepsExact(cfg: Config, ws: seq<World>, es: seq<Step>, n: nat, k: Key)
    requires IsRun(cfg, ws, es) && n < |ws| && AlwaysTame(cfg, ws, es, k) && AlwaysExact(ws, es, k) && Once(ws[n], k)
    ensures ExactJobs(LedgerOf(ws[n], k).grants, Own(LedgerOf(ws[n], k).copies))
    decreases n
  {
    if n > 0 {
      OnceBefore(cfg, ws, es, n, k);
      RunKeepsExact(cfg, ws, es, n - 1, k);
      RunKeepsChain(cfg, ws, es, n - 1, k);
      assert ExactStep(ws[n - 1], es[n - 1], k);
      StepKeepsExact(cfg, ws[n - 1], es[n - 1], k);
    }
  }

  /** If other rows' leases bring k no job below the limit and lend its jobs no attempt, then without expiry or
      re-enqueue the j-th lease carries attempt j and so does its job, there are at most max(1, limit) leases,
      and only the last one can still be open. */
  lemma AttemptsCountLeases(cfg: Config, ws: seq<World>, es: seq<Step>, n: nat, k: Key)
    requires IsRun(cfg, ws, es) && n < |ws| && AlwaysTame(cfg, ws, es, k) && AlwaysExact(ws, es, k) && Once(ws[n], k)
    ensures var l := LedgerOf(ws[n], k); var owns := Own(l.copies);
            && |l.grants| <= Max(1, Limit(cfg))
            && |owns| <= |l.grants| <= |owns| + 1
            && (forall j | 0 <= j < |l.grants| :: l.grants[j].attempt == j + 1)
            && (forall j | 0 <= j < |owns| :: owns[j].attempt == j + 1)
            && forall j | 0 <= j < |l.grants| - 1 :: Retried(owns[j])
  {
    RunKeepsChain(cfg, ws, es, n, k);
    RunKeepsExact(cfg, ws, es, n, k);
    OnceBound(cfg, ws, es, n, k);
    var l := LedgerOf(ws[n], k);
    var owns := Own(l.copies);
    forall j | 0 <= j < |l.grants|
      ensures l.grants[j].attempt == j + 1
    {
      ExactCount(l.grants, owns, j);
    }
    forall j | 0 <= j < |l.grants| - 1
      ensures Retried(owns[j])
    {
      NextLeaseRetried(l.grants, owns, j);
    }
  }

  /** Below a limit of three the leases count attempts even if other rows lend k's jobs theirs. */
  lemma SmallLimitCountsLeases(cfg: Config, ws: seq<World>, es: seq<Step>, n: nat, k: Key, j: nat)
    requires IsRun(cfg, ws, es) && n < |ws| && AlwaysTame(cfg, ws, es, k) && Once(ws[n], k) && Limit(cfg) <= 2
    requires j < |LedgerOf(ws[n], k).grants|
    ensures LedgerOf(ws[n], k).grants[j].attempt == j + 1
  {
    RunKeepsChain(cfg, ws, es, n, k);
    RunKeepsBase(cfg, ws, es, n, k);
    OwnSound(cfg, LedgerOf(ws[n], k).copies, ws[n].now);
    SmallLimitCounts(cfg, LedgerOf(ws[n], k).grants, Own(LedgerOf(ws[n], k).copies), ws[n].now, j);
  }

  /** If other rows' leases bring k no job below the limit, then without expiry or re-enqueue the recipes of k's
      own jobs form a chain under prefix, and a job that follows an applied fix has strictly more recipes than
      the one before. */
  lemma RecipesFormAChain(cfg: Config, ws: seq<World>, es: seq<Step>, n: nat, k: Key, i: nat, j: nat)
    requires IsRun(cfg, ws, es) && n < |ws| && AlwaysTame(cfg, ws, es, k) && Once(ws[n], k)
    requires i < j < |Own(LedgerOf(ws[n], k).copies)|
    ensures var owns := Own(LedgerOf(ws[n], k).copies);
            && owns[i].job <= owns[j].job
            && Retried(owns[i])
            && (|Kept(owns[i].final.report)| > |owns[i].job| ==> owns[i].job < owns[j].job)
  {
    RunKeepsChain(cfg, ws, es, n, k);
    LinkedJobs(LedgerOf(ws[n], k).grants, Own(LedgerOf(ws[n], k).copies), i, j);
  }

  // ----- Retries wait -----

  lemma {:induction false} RunExplains(cfg: Config, ws: seq<World>, es: seq<Step>, n: nat, k: Key)
    requires IsRun(cfg, ws, es) && n < |ws|
    ensures Explained(CellOf(ws[n], k)) && LeasedSince(CellOf(ws[n], k))
    decreases n
  {
    if n > 0 {
      RunExplains(cfg, ws, es, n - 1, k);
      RunKeepsBase(cfg, ws, es, n - 1, k);
      var e, now := es[n - 1].event, es[n - 1].at;
      StepIsCellwise(cfg, ws[n - 1], e, now, k);
      StaysExplained(cfg, CellOf(ws[n - 1], k), EventAt(ws[n - 1], e, now, k), ws[n - 1].now, now);
      StaysLeasedSince(cfg, CellOf(ws[n - 1], k), EventAt(ws[n - 1], e, now, k), ws[n - 1].now, now);
    }
  }

  /** In every run a row is built only by the applied report of a job that succeeded, and failed or to be retried
      only by that of a job that broke; it has that job's attempt. */
  lemma EndsAreEarned(cfg: Config, ws: seq<World>, es: seq<Step>, n: nat, k: Key)
    requires IsRun(cfg, ws, es) && n < |ws| && k in ws[n].table
    requires var s := ws[n].table[k].status; s == Built || s == Failed || s == Retry
    ensures exists i :: 0 <= i < |LedgerOf(ws[n], k).copies|
              && var c := LedgerOf(ws[n], k).copies[i];
                 && c.final.Gone? && c.final.applied && c.final.report.status == ws[n].table[k].status
                 && c.attempt == ws[n].table[k].attempts && c.outcome.Some?
                 && (ws[n].table[k].status == Built <==> c.outcome.value == Succeeded)
  {
    RunExplains(cfg, ws, es, n, k);
    RunKeepsBase(cfg, ws, es, n, k);
    var copies := LedgerOf(ws[n], k).copies;
    var i :| 0 <= i < |copies| && ReportedBy(ws[n].table[k], copies[i]);
    assert CopyInv(cfg, copies[i], ws[n].now);
  }

  /** In every run a leased row is taken back only after its age has passed since its own lease. */
  lemma LeasesLastTheirAge(cfg: Config, ws: seq<World>, es: seq<Step>, n: nat, k: Key)
    requires IsRun(cfg, ws, es) && n < |es| && es[n].event.Expire? && k in ws[n].table
    requires EventAt(ws[n], es[n].event, es[n].at, k).CExpire?
    ensures var grants := LedgerOf(ws[n], k).grants;
            grants != [] && es[n].at > grants[|grants| - 1].at + es[n].event.maxAgeSec * NANOS
  {
    RunExplains(cfg, ws, es, n, k);
  }

  /** In every run, whatever came before: a row that is to be retried is leased no earlier than the documented
      delay, counted from the second in which the job whose retry it waits for was decided to have failed. */
  lemma RetryRowsWait(cfg: Config, ws: seq<World>, es: seq<Step>, n: nat, k: Key)
    requires IsRun(cfg, ws, es) && n < |es| && es[n].event.Pop? && k in LeasedKeys(es[n].event.leases)
    requires k in ws[n].table && ws[n].table[k].status.Retry? && Backoff.OnSchedule(ws[n].table[k].attempts)
    ensures exists i :: 0 <= i < |LedgerOf(ws[n], k).copies|
              && WaitsFor(ws[n].table[k], LedgerOf(ws[n], k).copies[i])
              && es[n].at >= (LedgerOf(ws[n], k).copies[i].final.sentAt / NANOS
                              + Backoff.Schedule(ws[n].table[k].attempts)) * NANOS
  {
    RunExplains(cfg, ws, es, n, k);
    RunKeepsBase(cfg, ws, es, n, k);
    var copies, row := LedgerOf(ws[n], k).copies, ws[n].table[k];
    var i :| 0 <= i < |copies| && ReportedBy(row, copies[i]);
    assert CopyInv(cfg, copies[i], ws[n].now);
    StepEnablesCell(ws[n], es[n].event, es[n].at, k);
    LeaseWaits(cfg, row, copies[i], ws[n].now, es[n].at);
  }

  /** In particular, if other rows' leases bring k no job below the limit, then without expiry or re-enqueue the
      lease after k's j-th job waits for that job's retry. */
  lemma RetriesWait(cfg: Config, ws: seq<World>, es: seq<Step>, n: nat, k: Key, j: nat)
    requires IsRun(cfg, ws, es) && n < |ws| && AlwaysTame(cfg, ws, es, k) && Once(ws[n], k)
    requires 0 < j < |LedgerOf(ws[n], k).grants|
    ensures var l := LedgerOf(ws[n], k); var owns := Own(l.copies);
            && j <= |owns| && Retried(owns[j - 1])
            && (Backoff.OnSchedule(owns[j - 1].attempt) ==>
                  l.grants[j].at >= (owns[j - 1].final.sentAt / NANOS + Backoff.Schedule(owns[j - 1].attempt)) * NANOS)
  {
    RunKeepsBase(cfg, ws, es, n, k);
    RunKeepsChain(cfg, ws, es, n, k);
    var l := LedgerOf(ws[n], k);
    var owns := Own(l.copies);
    assert LeasedAgain(owns[j - 1], l.grants[j - 1 + 1]);
    OwnSound(cfg, l.copies, ws[n].now);
  }
}
