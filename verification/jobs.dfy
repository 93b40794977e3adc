/** How a worker turns a batch of leased rows and their plans into jobs, and which attempt each job reports. */
module Jobs {
  import opened Text
  import opened BuildStore
  import Recipes

  // ----- Attempts -----

  function QueueKey(k: Key): string {
    ToLower(k.package) + "::" + ToLower(k.version)
  }

  /** Without a colon in the names, two rows share a queue key exactly when they differ at most in case. */
  lemma QueueKeyIff(a: Key, b: Key)
    requires ':' !in a.package && ':' !in b.package
    ensures QueueKey(a) == QueueKey(b) <==> EqualFold(a.package, b.package) && EqualFold(a.version, b.version)
  {
    var p, q, s := ToLower(a.package), ToLower(b.package), QueueKey(a);
    NoColon(a.package);
    NoColon(b.package);
    if s == QueueKey(b) {
      assert s[|p|] == ':' && s[|q|] == ':';
      assert forall i | 0 <= i < |p| :: s[i] == p[i] && p[i] in p;
      assert forall i | 0 <= i < |q| :: s[i] == q[i] && q[i] in q;
      assert |p| == |q|;
      assert p == s[..|p|] && q == s[..|q|];
      assert ToLower(a.version) == s[|p| + 2..] && ToLower(b.version) == s[|q| + 2..];
    }
  }

  lemma NoColon(s: string)
    requires ':' !in s
    ensures ':' !in ToLower(s)
  {
    forall i | 0 <= i < |s|
      ensures ToLower(s)[i] != ':'
    {
      assert s[i] in s;
    }
  }

  function Max(a: int, b: int): int {
    if a >= b then a else b
  }

  /** The attempt a worker uses for a folded name and version: the largest of its batch, 0 if there is none. */
  function AttemptOf(reqs: seq<Lease>, q: string): int {
    if reqs == [] then 0
    else
      var n := |reqs| - 1;
      var rest := AttemptOf(reqs[..n], q);
      if QueueKey(reqs[n].key) == q then Max(rest, reqs[n].attempts) else rest
  }

  lemma {:induction false} AttemptIsLargest(reqs: seq<Lease>, q: string)
    ensures AttemptOf(reqs, q) >= 0
    ensures forall i | 0 <= i < |reqs| && QueueKey(reqs[i].key) == q :: reqs[i].attempts <= AttemptOf(reqs, q)
    ensures AttemptOf(reqs, q) > 0 ==>
              exists i :: 0 <= i < |reqs| && QueueKey(reqs[i].key) == q && reqs[i].attempts == AttemptOf(reqs, q)
  {
    if reqs != [] {
      var n := |reqs| - 1;
      AttemptIsLargest(reqs[..n], q);
      if AttemptOf(reqs[..n], q) == AttemptOf(reqs, q) > 0 {
        var i :| 0 <= i < n && QueueKey(reqs[..n][i].key) == q && reqs[..n][i].attempts == AttemptOf(reqs, q);
        assert reqs[i] == reqs[..n][i];
      }
      forall i | 0 <= i < n && QueueKey(reqs[i].key) == q
        ensures reqs[i].attempts <= AttemptOf(reqs, q)
      {
        assert reqs[i] == reqs[..n][i];
      }
    }
  }

  /** The map a worker builds from one pop, with 0 for what it does not hold. */
  method ReqAttempts(reqs: seq<Lease>) returns (m: map<string, int>)
    ensures forall q :: (if q in m then m[q] else 0) == AttemptOf(reqs, q)
  {
    m := map[];
    for n := 0 to |reqs|
      invariant forall q :: (if q in m then m[q] else 0) == AttemptOf(reqs[..n], q)
    {
      assert reqs[..n + 1][..n] == reqs[..n];
      var q := QueueKey(reqs[n].key);
      if reqs[n].attempts > (if q in m then m[q] else 0) {
        m := m[q := reqs[n].attempts];
      }
    }
    assert reqs[..|reqs|] == reqs;
  }

  // ----- Jobs -----

  /** A plan entry as the job matcher sees it, with the recipes that hints attached to it. */
  datatype Entry = Entry(name: string, version: string, recipes: seq<string>)

  datatype Job = Job(name: string, version: string, recipes: seq<string>)

  function KeyOf(e: Entry): Key {
    Key(e.name, e.version)
  }

  /** A lease of row o takes on the build of row k, if the plan of o has it. */
  predicate Takes(o: Key, k: Key) {
    && k.package != "" && k.version != ""
    && EqualFold(k.package, o.package)
    && (o.version == "" || o.version == "latest" || o.version == k.version)
  }

  predicate Wanted(req: Lease, e: Entry) {
    Takes(req.key, KeyOf(e))
  }

  function JobFor(req: Lease, e: Entry): Job {
    Job(e.name, e.version, Recipes.Merge(req.recipes, e.recipes))
  }

  function JobsFor(req: Lease, plan: seq<Entry>): seq<Job> {
    if plan == [] then []
    else
      var n := |plan| - 1;
      JobsFor(req, plan[..n]) + (if Wanted(req, plan[n]) then [JobFor(req, plan[n])] else [])
  }

  function AllJobs(reqs: seq<Lease>, plan: seq<Entry>): seq<Job> {
    if reqs == [] then []
    else AllJobs(reqs[..|reqs| - 1], plan) + JobsFor(reqs[|reqs| - 1], plan)
  }

  method Match(plan: seq<Entry>, reqs: seq<Lease>) returns (jobs: seq<Job>)
    ensures jobs == AllJobs(reqs, plan)
  {
    jobs := [];
    for i := 0 to |reqs|
      invariant jobs == AllJobs(reqs[..i], plan)
    {
      assert reqs[..i + 1][..i] == reqs[..i];
      ghost var before := jobs;
      for k := 0 to |plan|
        invariant jobs == before + JobsFor(reqs[i], plan[..k])
      {
        var e := plan[k];
        assert plan[..k + 1][..k] == plan[..k];
        if e.name == "" || e.version == "" {
          continue;
        }
        if !EqualFold(e.name, reqs[i].key.package) {
          continue;
        }
        if reqs[i].key.version != "" && reqs[i].key.version != "latest" && reqs[i].key.version != e.version {
          continue;
        }
        var recipes := Recipes.MergeRecipes(reqs[i].recipes, e.recipes);
        jobs := jobs + [Job(e.name, e.version, recipes)];
      }
      assert plan[..|plan|] == plan;
    }
    assert reqs[..|reqs|] == reqs;
  }

  /** A lease of row o may take on row k: k has a name and a version, its name is that of o ignoring case, and o
      asks for no version, for "latest", or for that of k. */
  lemma TakesIff(o: Key, k: Key)
    ensures Takes(o, k) <==>
            && k.package != "" && k.version != ""
            && (exists n :: Lowers(o.package, n) && Lowers(k.package, n))
            && o.version in {"", "latest", k.version}
  {
    ToLowerIff(o.package, ToLower(o.package));
    ToLowerIff(k.package, ToLower(k.package));
    if n :| Lowers(o.package, n) && Lowers(k.package, n) {
      ToLowerIff(o.package, n);
      ToLowerIff(k.package, n);
    }
  }

  /** The lease may take on entry e, and j is the job for it, with the recipes of both. */
  ghost predicate Yields(req: Lease, e: Entry, j: Job) {
    Takes(req.key, KeyOf(e)) && j == Job(e.name, e.version, Recipes.Merge(req.recipes, e.recipes))
  }

  lemma {:induction false} JobsForMember(req: Lease, plan: seq<Entry>, j: Job)
    ensures j in JobsFor(req, plan) <==> exists e :: e in plan && Yields(req, e, j)
  {
    if plan != [] {
      var n := |plan| - 1;
      JobsForMember(req, plan[..n], j);
      assert plan == plan[..n] + [plan[n]];
      assert forall e :: e in plan <==> e in plan[..n] || e == plan[n];
      assert JobsFor(req, plan) == JobsFor(req, plan[..n]) + (if Wanted(req, plan[n]) then [JobFor(req, plan[n])] else []);
      assert Yields(req, plan[n], j) <==> Wanted(req, plan[n]) && j == JobFor(req, plan[n]);
    }
  }

  /** The jobs of a batch are those of a lease and a plan entry it may take on, with the recipes of both. */
  lemma {:induction false} JobsMember(reqs: seq<Lease>, plan: seq<Entry>, j: Job)
    ensures j in AllJobs(reqs, plan) <==> exists req, e :: req in reqs && e in plan && Yields(req, e, j)
  {
    if reqs != [] {
      var n := |reqs| - 1;
      JobsMember(reqs[..n], plan, j);
      JobsForMember(reqs[n], plan, j);
      assert reqs == reqs[..n] + [reqs[n]];
      assert forall r :: r in reqs <==> r in reqs[..n] || r == reqs[n];
    }
  }

  lemma {:induction false} NoJobs(req: Lease, plan: seq<Entry>)
    requires forall e | e in plan :: !Wanted(req, e)
    ensures JobsFor(req, plan) == []
  {
    if plan != [] {
      assert plan[|plan| - 1] in plan;
      NoJobs(req, plan[..|plan| - 1]);
    }
  }

  lemma {:induction false} SomeJob(req: Lease, plan: seq<Entry>, i: nat)
    requires i < |plan| && Wanted(req, plan[i])
    ensures |JobsFor(req, plan)| >= 1
  {
    var n := |plan| - 1;
    if i < n {
      assert plan[..n][i] == plan[i];
      SomeJob(req, plan[..n], i);
    }
  }

  lemma {:induction false} JobsForConcat(req: Lease, a: seq<Entry>, b: seq<Entry>)
    ensures JobsFor(req, a + b) == JobsFor(req, a) + JobsFor(req, b)
  {
    if b == [] {
      assert a + b == a;
    } else {
      var n := |b| - 1;
      assert (a + b)[..|a| + n] == a + b[..n];
      JobsForConcat(req, a, b[..n]);
    }
  }

  lemma TwoJobs(req: Lease, plan: seq<Entry>, i: nat, k: nat)
    requires i < k < |plan| && Wanted(req, plan[i]) && Wanted(req, plan[k])
    ensures JobsFor(req, plan) != [JobFor(req, plan[i])] && JobsFor(req, plan) != [JobFor(req, plan[k])]
  {
    var a, b := plan[..k], plan[k..];
    assert plan == a + b;
    JobsForConcat(req, a, b);
    SomeJob(req, a, i);
    SomeJob(req, b, 0);
  }

  lemma {:induction false} OnlyJob(req: Lease, plan: seq<Entry>, i: nat)
    requires i < |plan| && Wanted(req, plan[i])
    requires forall k | 0 <= k < |plan| && k != i :: !Wanted(req, plan[k])
    ensures JobsFor(req, plan) == [JobFor(req, plan[i])]
  {
    var n := |plan| - 1;
    if i == n {
      NoJobs(req, plan[..n]);
    } else {
      OnlyJob(req, plan[..n], i);
    }
  }

  /** A leased row that was queued from entry i of a plan yields exactly one job, for that row and with the
      row's recipes merged with the plan's, if and only if no other entry of that folded name has the same
      version or meets a request for "latest". */
  lemma OneJobPerLeaseIff(req: Lease, plan: seq<Entry>, i: nat)
    requires i < |plan| && req.key == KeyOf(plan[i]) && plan[i].name != "" && plan[i].version != ""
    ensures JobsFor(req, plan) == [Job(req.key.package, req.key.version, Recipes.Merge(req.recipes, plan[i].recipes))]
            <==> forall k | 0 <= k < |plan| && k != i && plan[k].name != "" && plan[k].version != ""
                            && EqualFold(plan[k].name, req.key.package) ::
                   req.key.version != "latest" && plan[k].version != req.key.version
  {
    if k :| 0 <= k < |plan| && k != i && Wanted(req, plan[k]) {
      if i < k {
        TwoJobs(req, plan, i, k);
      } else {
        TwoJobs(req, plan, k, i);
      }
    } else {
      OnlyJob(req, plan, i);
    }
  }

  /** A row queued for version "latest" also yields a job for any other version of that name in the plan;
      that job counts as attempt 0 unless its own row is in the batch. */
  lemma LatestTakesOtherVersions(recipes: seq<string>)
    ensures var req := Lease(Key("x", "latest"), 2, recipes);
            var jobs := JobsFor(req, [Entry("x", "latest", []), Entry("x", "1.0", [])]);
            && |jobs| == 2 && jobs[1].version == "1.0"
            && AttemptOf([req], QueueKey(Key("x", "1.0"))) == 0
  {
    var req := Lease(Key("x", "latest"), 2, recipes);
    var plan := [Entry("x", "latest", []), Entry("x", "1.0", [])];
    assert plan[..1] == [Entry("x", "latest", [])] && plan[..1][..0] == [];
    assert JobsFor(req, plan[..1]) == [JobFor(req, plan[0])];
    assert |QueueKey(Key("x", "1.0"))| == 6;
    assert |QueueKey(req.key)| == 9;
    assert [req][..0] == [];
  }

  // ----- The jobs of a batch that build one row -----

  /** A job for row k: whether it comes from a lease of k itself, and its recipes. */
  datatype Taken = Taken(own: bool, recipes: seq<string>)

  /** The plan a worker fetched for a leased row; nothing if it could not fetch one. */
  function PlanOf(plans: map<Key, seq<Entry>>, k: Key): seq<Entry> {
    if k in plans then plans[k] else []
  }

  function TakenFrom(own: bool, jobs: seq<Job>, k: Key): seq<Taken> {
    if jobs == [] then []
    else
      var n := |jobs| - 1;
      TakenFrom(own, jobs[..n], k)
      + (if Key(jobs[n].name, jobs[n].version) == k then [Taken(own, jobs[n].recipes)] else [])
  }

  /** All jobs of a batch for row k, each row with the plan it was queued from. */
  function JobsAt(reqs: seq<Lease>, plans: map<Key, seq<Entry>>, k: Key): seq<Taken> {
    if reqs == [] then []
    else
      var n := |reqs| - 1;
      JobsAt(reqs[..n], plans, k) + TakenFrom(reqs[n].key == k, JobsFor(reqs[n], PlanOf(plans, reqs[n].key)), k)
  }

  /** Every (name, version) pair occurs once in a plan. */
  ghost predicate DistinctEntries(plan: seq<Entry>) {
    forall i, j | 0 <= i < j < |plan| :: KeyOf(plan[i]) != KeyOf(plan[j])
  }

  function OwnCount(ts: seq<Taken>): nat {
    if ts == [] then 0 else OwnCount(ts[..|ts| - 1]) + (if ts[|ts| - 1].own then 1 else 0)
  }

  ghost predicate HasEntry(plan: seq<Entry>, k: Key) {
    exists e :: e in plan && KeyOf(e) == k
  }

  lemma TakenAppend(own: bool, jobs: seq<Job>, j: Job, k: Key)
    ensures TakenFrom(own, jobs + [j], k)
         == TakenFrom(own, jobs, k) + (if Key(j.name, j.version) == k then [Taken(own, j.recipes)] else [])
  {
    assert (jobs + [j])[..|jobs|] == jobs;
  }

  lemma HasEntryAppend(plan: seq<Entry>, e: Entry, k: Key)
    ensures HasEntry(plan + [e], k) <==> HasEntry(plan, k) || KeyOf(e) == k
  {
    assert forall d :: d in plan + [e] <==> d in plan || d == e;
  }

  lemma DistinctLast(plan: seq<Entry>)
    requires plan != [] && DistinctEntries(plan)
    ensures !HasEntry(plan[..|plan| - 1], KeyOf(plan[|plan| - 1]))
  {
  }

  /** What a lease takes for row k: one job, if the row may take k and its plan has k; else none. */
  lemma {:induction false} TakenExactly(req: Lease, plan: seq<Entry>, own: bool, k: Key)
    requires DistinctEntries(plan)
    ensures var ts := TakenFrom(own, JobsFor(req, plan), k);
            && (if Takes(req.key, k) && HasEntry(plan, k) then
                  |ts| == 1 && ts[0].own == own
                  && exists e :: e in plan && KeyOf(e) == k && ts[0].recipes == Recipes.Merge(req.recipes, e.recipes)
                else ts == [])
  {
    if plan != [] {
      var n := |plan| - 1;
      var init, e := plan[..n], plan[n];
      assert plan == init + [e];
      TakenExactly(req, init, own, k);
      HasEntryAppend(init, e, k);
      assert JobsFor(req, init) + [] == JobsFor(req, init);
      TakenAppend(own, JobsFor(req, init), JobFor(req, e), k);
      assert TakenFrom(own, JobsFor(req, init), k) + [] == TakenFrom(own, JobsFor(req, init), k);
      if KeyOf(e) == k {
        DistinctLast(plan);
        assert Wanted(req, e) == Takes(req.key, k);
        if Wanted(req, e) {
          assert TakenFrom(own, JobsFor(req, plan), k) == [Taken(own, Recipes.Merge(req.recipes, e.recipes))];
        }
      }
    }
  }

  lemma OwnCountConcat(a: seq<Taken>, b: seq<Taken>)
    requires |b| <= 1
    ensures OwnCount(a + b) == OwnCount(a) + OwnCount(b)
  {
    if b == [] {
      assert a + b == a;
    } else {
      assert (a + b)[..|a|] == a && b[..0] == [];
    }
  }

  ghost predicate DistinctKeys(reqs: seq<Lease>) {
    forall i, j | 0 <= i < j < |reqs| :: reqs[i].key != reqs[j].key
  }

  ghost predicate DistinctPlans(plans: map<Key, seq<Entry>>) {
    forall k | k in plans :: DistinctEntries(plans[k])
  }

  /** What the last lease of a batch adds for row k. */
  function LastTaken(reqs: seq<Lease>, plans: map<Key, seq<Entry>>, k: Key): seq<Taken>
    requires reqs != []
  {
    var req := reqs[|reqs| - 1];
    TakenFrom(req.key == k, JobsFor(req, PlanOf(plans, req.key)), k)
  }

  lemma LastTakes(reqs: seq<Lease>, plans: map<Key, seq<Entry>>, k: Key)
    requires reqs != [] && DistinctPlans(plans)
    ensures var req, ts := reqs[|reqs| - 1], LastTaken(reqs, plans, k);
            && |ts| <= 1 && OwnCount(ts) == (if ts != [] && req.key == k then 1 else 0)
            && (ts != [] <==> Takes(req.key, k) && HasEntry(PlanOf(plans, req.key), k))
            && (ts != [] ==> ts[0].own == (req.key == k)
                             && exists planned :: ts[0].recipes == Recipes.Merge(req.recipes, planned))
  {
    var req := reqs[|reqs| - 1];
    TakenExactly(req, PlanOf(plans, req.key), req.key == k, k);
    var ts := LastTaken(reqs, plans, k);
    if ts != [] {
      assert ts[..0] == [];
    }
  }

  /** A batch has at most one own job for row k, and only if it leases k. */
  lemma {:induction false} OwnJobs(reqs: seq<Lease>, plans: map<Key, seq<Entry>>, k: Key)
    requires DistinctKeys(reqs) && DistinctPlans(plans)
    ensures OwnCount(JobsAt(reqs, plans, k)) <= 1
    ensures OwnCount(JobsAt(reqs, plans, k)) == 1 ==> exists i :: 0 <= i < |reqs| && reqs[i].key == k
  {
    if reqs != [] {
      var n := |reqs| - 1;
      OwnJobs(reqs[..n], plans, k);
      LastTakes(reqs, plans, k);
      OwnCountConcat(JobsAt(reqs[..n], plans, k), LastTaken(reqs, plans, k));
      if OwnCount(JobsAt(reqs[..n], plans, k)) == 1 {
        var i :| 0 <= i < n && reqs[..n][i].key == k;
        assert reqs[i].key == k;
      }
    }
  }

  /** Recipes of a lease merged with a plan's. */
  ghost predicate MergedFrom(req: Lease, recipes: seq<string>) {
    exists planned :: recipes == Recipes.Merge(req.recipes, planned)
  }

  /** Every job for k comes from a lease that may take k and whose plan has k; own ones from a lease of k. */
  lemma {:induction false} JobsComeFrom(reqs: seq<Lease>, plans: map<Key, seq<Entry>>, k: Key, t: Taken) returns (i: nat)
    requires DistinctPlans(plans) && t in JobsAt(reqs, plans, k)
    ensures i < |reqs| && Takes(reqs[i].key, k) && HasEntry(PlanOf(plans, reqs[i].key), k)
    ensures t.own == (reqs[i].key == k) && MergedFrom(reqs[i], t.recipes)
  {
    var n := |reqs| - 1;
    LastTakes(reqs, plans, k);
    if t in JobsAt(reqs[..n], plans, k) {
      i := JobsComeFrom(reqs[..n], plans, k, t);
      assert reqs[i] == reqs[..n][i];
    } else {
      i := n;
    }
  }

  /** And every lease that may take k and whose plan has k yields such a job. */
  lemma {:induction false} LeaseYieldsJob(reqs: seq<Lease>, plans: map<Key, seq<Entry>>, k: Key, i: nat)
    requires DistinctPlans(plans) && i < |reqs|
    requires Takes(reqs[i].key, k) && HasEntry(PlanOf(plans, reqs[i].key), k)
    ensures exists t :: t in JobsAt(reqs, plans, k) && t.own == (reqs[i].key == k)
  {
    var n := |reqs| - 1;
    assert JobsAt(reqs, plans, k) == JobsAt(reqs[..n], plans, k) + LastTaken(reqs, plans, k);
    if i < n {
      assert reqs[..n][i] == reqs[i];
      LeaseYieldsJob(reqs[..n], plans, k, i);
      var t :| t in JobsAt(reqs[..n], plans, k) && t.own == (reqs[i].key == k);
      assert t in JobsAt(reqs, plans, k);
    } else {
      LastTakes(reqs, plans, k);
      var t := LastTaken(reqs, plans, k)[0];
      assert t in LastTaken(reqs, plans, k) && t in JobsAt(reqs, plans, k);
    }
  }

  /** A batch yields a job for row k from another row's lease if and only if it leases some other row of that
      folded name with the same version or version "latest", whose plan has k. */
  lemma ForeignJobIff(reqs: seq<Lease>, plans: map<Key, seq<Entry>>, k: Key)
    requires DistinctPlans(plans)
    ensures (exists t :: t in JobsAt(reqs, plans, k) && !t.own)
            <==> exists i :: 0 <= i < |reqs| && reqs[i].key != k && Takes(reqs[i].key, k)
                             && HasEntry(PlanOf(plans, reqs[i].key), k)
  {
    if t :| t in JobsAt(reqs, plans, k) && !t.own {
      var i := JobsComeFrom(reqs, plans, k, t);
    }
    if i :| 0 <= i < |reqs| && reqs[i].key != k && Takes(reqs[i].key, k) && HasEntry(PlanOf(plans, reqs[i].key), k) {
      LeaseYieldsJob(reqs, plans, k, i);
    }
  }
}
