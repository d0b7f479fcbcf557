/**
 * Workers claiming, running, crashing and settling jobs against one queue, under every interleaving and any
 * passage of time.
 */
module QueueProtocol {
  import opened Common
  import opened JobQueue
  import opened Worker

  datatype Config = Config(maxAttempts: int, stale: int)

  datatype Stage = Loading | MissingPayload | Running

  /** A worker's live execution: the claim it made, and how far it has got. */
  datatype Execution = Execution(jobId: JobId, tenant: string, attempt: nat, claimedAt: int, stage: Stage)

  type WorkerId = string

  datatype Attempt = Attempt(jobId: JobId, number: nat)

  /** The history: every attempt number handed out, every requeue for retry, every attempt whose worker crashed. */
  datatype World = World(
    db: Db, now: int, live: map<WorkerId, Execution>,
    claims: seq<Attempt>, retries: seq<Attempt>, crashes: seq<Attempt>)

  datatype Step =
    | Create(id: JobId, tenant: string)
    | Submit(id: JobId, payload: Payload)
    | Claim(worker: WorkerId, id: JobId, locked: set<JobId>)
    | Load(worker: WorkerId)
    | FailMissing(worker: WorkerId)
    | Settle(worker: WorkerId, result: PipelineResult)
    | Crash(worker: WorkerId)
    | Tick(seconds: nat)

  function AttemptOf(e: Execution): Attempt {
    Attempt(e.jobId, e.attempt)
  }

  predicate Initial(w: World) {
    w.db == Db(map[], map[]) && w.live == map[] && w.claims == [] && w.retries == [] && w.crashes == []
  }

  /** Inserted by the upload route and not yet handed to the queue. */
  predicate Unsubmitted(j: Job) {
    j.status.Processing? && j.claimedAt.None?
  }

  /** The upload route creates a row once, then submits it once; everything else is up to the workers. */
  predicate Enabled(c: Config, w: World, st: Step) {
    match st
    case Create(id, _) => id !in w.db.jobs
    case Submit(id, p) => Owned(w.db, id, p.tenant) && Unsubmitted(w.db.jobs[id])
    case Claim(worker, id, locked) => worker !in w.live && Picks(w.db, id, locked, w.now, c.stale)
    case Load(worker) => worker in w.live && w.live[worker].stage.Loading?
    case FailMissing(worker) => worker in w.live && w.live[worker].stage.MissingPayload?
    case Settle(worker, _) => worker in w.live && w.live[worker].stage.Running?
    case Crash(worker) => worker in w.live
    case Tick(_) => true
  }

  function Next(c: Config, w: World, st: Step): World
    requires Enabled(c, w, st)
  {
    match st
    case Create(id, tenant) => w.(db := Created(w.db, id, tenant, w.now))
    case Submit(id, p) => w.(db := Enqueued(w.db, id, p, w.now))
    case Claim(worker, id, _) =>
      var j := w.db.jobs[id];
      w.(db := Claimed(w.db, id, worker, w.now),
         live := w.live[worker := Execution(id, j.tenant, j.attempts + 1, w.now, Loading)],
         claims := w.claims + [Attempt(id, j.attempts + 1)])
    case Load(worker) =>
      var e := w.live[worker];
      w.(live := w.live[worker :=
        e.(stage := if PayloadOf(w.db, e.jobId, e.tenant).Some? then Running else MissingPayload)])
    case FailMissing(worker) =>
      var e := w.live[worker];
      w.(db := FailedFor(w.db, e.jobId, e.tenant, "payload missing", w.now), live := w.live - {worker})
    case Settle(worker, r) =>
      var e := w.live[worker];
      w.(db := Settled(w.db, e.jobId, e.tenant, e.attempt, c.maxAttempts, r, w.now),
         live := w.live - {worker},
         retries := if r.Throws? && e.attempt < c.maxAttempts then w.retries + [Attempt(e.jobId, e.attempt)]
                    else w.retries)
    case Crash(worker) =>
      w.(live := w.live - {worker}, crashes := w.crashes + [AttemptOf(w.live[worker])])
    case Tick(seconds) => w.(now := w.now + seconds)
  }

  /** The world after taking `steps` one by one, if each is enabled when its turn comes. */
  function After(c: Config, start: World, steps: seq<Step>): Option<World> {
    if steps == [] then Some(start)
    else match After(c, start, Init(steps))
      case Some(mid) => if Enabled(c, mid, Last(steps)) then Some(Next(c, mid, Last(steps))) else None
      case None => None
  }

  /** What settling does to the job a worker holds: back to the queue, or finished and its payload gone. */
  lemma SettledMeaning(db: Db, e: Execution, maxAttempts: int, r: PipelineResult, now: int)
    requires Owned(db, e.jobId, e.tenant)
    requires e.jobId in db.payloads ==> db.payloads[e.jobId].tenant == e.tenant
    ensures var after := Settled(db, e.jobId, e.tenant, e.attempt, maxAttempts, r, now);
            && after.jobs.Keys == db.jobs.Keys
            && (forall k :: k in db.jobs && k != e.jobId ==> after.jobs[k] == db.jobs[k])
            && after.jobs[e.jobId].tenant == e.tenant
            && after.jobs[e.jobId].attempts == db.jobs[e.jobId].attempts
            && (if r.Throws? && e.attempt < maxAttempts
                then after.jobs[e.jobId].status.Queued? && after.payloads == db.payloads
                else Terminal(after.jobs[e.jobId]) && after.payloads == db.payloads - {e.jobId})
  {
  }

  predicate Terminal(j: Job) {
    j.status.Complete? || j.status.Failed?
  }

  // ---- Attempt numbers, whatever the timing ----

  predicate Distinct<T(==)>(s: seq<T>) {
    forall i, j :: 0 <= i < j < |s| ==> s[i] != s[j]
  }

  ghost predicate AttemptInv(c: Config, w: World) {
    && Distinct(w.claims) && Distinct(w.retries)
    && (forall a :: a in w.claims ==> a.jobId in w.db.jobs && 1 <= a.number <= w.db.jobs[a.jobId].attempts)
    && (forall a :: a in w.retries ==> a in w.claims && a.number < c.maxAttempts)
    && (forall x :: x in w.live ==>
          var a := Attempt(w.live[x].jobId, w.live[x].attempt);
          a in w.claims && a !in w.retries)
    && (forall x, y :: x in w.live && y in w.live && x != y ==>
          Attempt(w.live[x].jobId, w.live[x].attempt) != Attempt(w.live[y].jobId, w.live[y].attempt))
  }

  lemma AttemptsNeverDrop(c: Config, w: World, st: Step, id: JobId)
    requires Enabled(c, w, st) && id in w.db.jobs
    ensures id in Next(c, w, st).db.jobs && w.db.jobs[id].attempts <= Next(c, w, st).db.jobs[id].attempts
    ensures !(st.Claim? && st.id == id) ==> Next(c, w, st).db.jobs[id].attempts == w.db.jobs[id].attempts
  {
  }

  lemma AttemptInvStep(c: Config, w: World, st: Step)
    requires Enabled(c, w, st) && AttemptInv(c, w)
    ensures AttemptInv(c, Next(c, w, st))
  {
    hide AttemptInv, Next;
    match st
    case Claim(worker, id, locked) => ClaimNumbersFresh(c, w, worker, id, locked);
    case Settle(worker, r) => RetryNumbersFresh(c, w, worker, r);
    case _ => NumbersUntouched(c, w, st);
  }

  lemma NumbersUntouched(c: Config, w: World, st: Step)
    requires Enabled(c, w, st) && AttemptInv(c, w) && !st.Claim? && !st.Settle?
    ensures AttemptInv(c, Next(c, w, st))
  {
    forall id | id in w.db.jobs
      ensures id in Next(c, w, st).db.jobs && w.db.jobs[id].attempts <= Next(c, w, st).db.jobs[id].attempts
    {
      AttemptsNeverDrop(c, w, st, id);
    }
    hide PayloadOf, Settled;
    NumbersKept(c, w, Next(c, w, st));
  }

  lemma NumbersKept(c: Config, w: World, after: World)
    requires AttemptInv(c, w) && after.claims == w.claims && after.retries == w.retries
    requires forall id :: id in w.db.jobs ==>
               id in after.db.jobs && w.db.jobs[id].attempts <= after.db.jobs[id].attempts
    requires forall x :: x in after.live ==>
               x in w.live && after.live[x].jobId == w.live[x].jobId && after.live[x].attempt == w.live[x].attempt
    ensures AttemptInv(c, after)
  {
  }

  /** A retry is recorded by the one live execution of its attempt. */
  lemma RetryNumbersFresh(c: Config, w: World, worker: WorkerId, r: PipelineResult)
    requires Enabled(c, w, Settle(worker, r)) && AttemptInv(c, w)
    ensures AttemptInv(c, Next(c, w, Settle(worker, r)))
  {
    var after := Next(c, w, Settle(worker, r));
    forall id | id in w.db.jobs ensures id in after.db.jobs && w.db.jobs[id].attempts <= after.db.jobs[id].attempts {
      AttemptsNeverDrop(c, w, Settle(worker, r), id);
    }
    hide Settled;
  }

  /** A claim's attempt number is above all those handed out for its job. */
  lemma ClaimNumbersFresh(c: Config, w: World, worker: WorkerId, id: JobId, locked: set<JobId>)
    requires Enabled(c, w, Claim(worker, id, locked)) && AttemptInv(c, w)
    ensures AttemptInv(c, Next(c, w, Claim(worker, id, locked)))
  {
  }

  lemma {:induction false} AttemptInvReached(c: Config, start: World, steps: seq<Step>, w: World)
    requires Initial(start) && After(c, start, steps) == Some(w)
    ensures AttemptInv(c, w)
  {
    if steps != [] {
      var mid := After(c, start, Init(steps)).value;
      AttemptInvReached(c, start, Init(steps), mid);
      AttemptInvStep(c, mid, Last(steps));
    }
  }

  function CountFor(log: seq<Attempt>, id: JobId): nat {
    if log == [] then 0 else CountFor(Init(log), id) + if Last(log).jobId == id then 1 else 0
  }

  function NumbersFor(log: seq<Attempt>, id: JobId): set<int> {
    set a | a in log && a.jobId == id :: a.number
  }

  lemma NumbersSnoc(log: seq<Attempt>, a: Attempt, id: JobId)
    ensures NumbersFor(log + [a], id) == NumbersFor(log, id) + if a.jobId == id then {a.number} else {}
  {
    assert forall b :: b in log + [a] <==> b in log || b == a;
  }

  lemma {:induction false} DistinctNumbers(log: seq<Attempt>, id: JobId)
    requires Distinct(log)
    ensures |NumbersFor(log, id)| == CountFor(log, id)
  {
    if log != [] {
      var rest, a := Init(log), Last(log);
      DistinctNumbers(rest, id);
      NumbersSnoc(rest, a, id);
      assert log == rest + [a] && a !in rest;
      if a.jobId == id {
        assert a.number !in NumbersFor(rest, id);
      }
      hide NumbersFor;
    }
  }

  lemma {:induction false} RangeSize(s: set<int>, bound: nat)
    requires forall x :: x in s ==> 1 <= x <= bound
    ensures |s| <= bound
  {
    if bound == 0 {
      forall x ensures x !in s {
      }
    } else {
      RangeSize(s - {bound}, bound - 1);
      assert |s - {bound}| >= |s| - 1;
    }
  }

  /**
   * The retry bound, whatever workers crash or overrun: no attempt number of a job is handed out twice, and the
   * job is requeued for retry at most maxAttempts - 1 times.
   */
  lemma RetryBound(c: Config, start: World, steps: seq<Step>, w: World, id: JobId)
    requires Initial(start) && After(c, start, steps) == Some(w)
    ensures Distinct(w.claims)
    ensures CountFor(w.retries, id) <= if c.maxAttempts >= 1 then c.maxAttempts - 1 else 0
  {
    AttemptInvReached(c, start, steps, w);
    DistinctNumbers(w.retries, id);
    RangeSize(NumbersFor(w.retries, id), if c.maxAttempts >= 1 then c.maxAttempts - 1 else 0);
  }

  // ---- Safety, when no live worker outlasts the stale limit ----

  predicate Timely(c: Config, w: World) {
    forall x :: x in w.live ==> w.now - w.live[x].claimedAt <= c.stale
  }

  predicate TimelyRun(c: Config, start: World, steps: seq<Step>) {
    && After(c, start, steps).Some?
    && Timely(c, After(c, start, steps).value)
    && (steps != [] ==> TimelyRun(c, start, Init(steps)))
  }

  /** The worker is the one its job's row records. */
  predicate Holds(w: World, e: Execution) {
    && Owned(w.db, e.jobId, e.tenant)
    && var j := w.db.jobs[e.jobId];
       j.status.Processing? && j.claimedAt == Some(e.claimedAt) && j.attempts == e.attempt
  }

  predicate WantsPayload(j: Job) {
    j.status.Queued? || (j.status.Processing? && j.claimedAt.Some?)
  }

  /** Each live worker is the recorded holder of its job, no two of the same one. */
  ghost predicate OneHolderEach(w: World) {
    && (forall x :: x in w.live ==> Holds(w, w.live[x]) && !w.live[x].stage.MissingPayload?)
    && (forall x, y :: x in w.live && y in w.live && x != y ==> w.live[x].jobId != w.live[y].jobId)
  }

  /** A payload is stored for exactly the queued and the claimed jobs, under the job's tenant. */
  ghost predicate PayloadsMatch(db: Db) {
    && (forall id :: id in db.payloads <==> id in db.jobs && WantsPayload(db.jobs[id]))
    && (forall id :: id in db.payloads ==> db.payloads[id].tenant == db.jobs[id].tenant)
  }

  ghost predicate SafetyInv(w: World) {
    OneHolderEach(w) && PayloadsMatch(w.db)
  }

  lemma SafetyInvStep(c: Config, w: World, st: Step)
    requires Enabled(c, w, st) && SafetyInv(w) && Timely(c, w)
    ensures SafetyInv(Next(c, w, st))
  {
    hide SafetyInv, Next, Timely;
    match st
    case Claim(worker, id, locked) => ClaimIsExclusive(c, w, worker, id, locked);
    case Settle(worker, r) => SettleClosesOne(c, w, worker, r);
    case _ => HoldersUntouched(c, w, st);
  }

  lemma HoldersUntouched(c: Config, w: World, st: Step)
    requires Enabled(c, w, st) && SafetyInv(w) && !st.Claim? && !st.Settle?
    ensures SafetyInv(Next(c, w, st))
  {
    if st.Create? || st.Submit? {
      RowAdded(c, w, st);
    } else {
      PayloadsThere(w);
      hide PayloadsMatch, Settled;
    }
  }

  /** A new row, or one newly submitted, is no live worker's. */
  lemma RowAdded(c: Config, w: World, st: Step)
    requires Enabled(c, w, st) && SafetyInv(w) && (st.Create? || st.Submit?)
    ensures SafetyInv(Next(c, w, st))
  {
    var id, after := st.id, Next(c, w, st);
    forall x | x in w.live ensures w.live[x].jobId != id && Holds(after, w.live[x]) {
      assert Holds(w, w.live[x]);
    }
  }

  /** A live worker's payload is there to be loaded. */
  lemma PayloadsThere(w: World)
    requires SafetyInv(w)
    ensures forall x :: x in w.live ==> PayloadOf(w.db, w.live[x].jobId, w.live[x].tenant).Some?
  {
    forall x | x in w.live ensures PayloadOf(w.db, w.live[x].jobId, w.live[x].tenant).Some? {
      assert Holds(w, w.live[x]);
    }
  }

  /** A claimable row has no live holder: a queued one is unclaimed, a stale one would be held too long. */
  lemma ClaimIsExclusive(c: Config, w: World, worker: WorkerId, id: JobId, locked: set<JobId>)
    requires Enabled(c, w, Claim(worker, id, locked)) && SafetyInv(w) && Timely(c, w)
    ensures forall x :: x in w.live ==> w.live[x].jobId != id
    ensures SafetyInv(Next(c, w, Claim(worker, id, locked)))
  {
    forall x | x in w.live ensures w.live[x].jobId != id {
      assert Holds(w, w.live[x]);
    }
    hide Timely, OneHolderEach, PayloadsMatch, Claimable;
    ClaimKeepsHolders(c, w, worker, id, locked);
    ClaimKeepsPayloads(c, w, worker, id, locked);
  }

  lemma ClaimKeepsHolders(c: Config, w: World, worker: WorkerId, id: JobId, locked: set<JobId>)
    requires Enabled(c, w, Claim(worker, id, locked)) && OneHolderEach(w)
    requires forall x :: x in w.live ==> w.live[x].jobId != id
    ensures OneHolderEach(Next(c, w, Claim(worker, id, locked)))
  {
    hide Claimable;
  }

  lemma ClaimKeepsPayloads(c: Config, w: World, worker: WorkerId, id: JobId, locked: set<JobId>)
    requires Enabled(c, w, Claim(worker, id, locked)) && PayloadsMatch(w.db)
    ensures PayloadsMatch(Next(c, w, Claim(worker, id, locked)).db)
  {
  }

  lemma SettleClosesOne(c: Config, w: World, worker: WorkerId, r: PipelineResult)
    requires Enabled(c, w, Settle(worker, r)) && SafetyInv(w)
    ensures SafetyInv(Next(c, w, Settle(worker, r)))
  {
    var e := w.live[worker];
    assert Holds(w, e);
    SettledMeaning(w.db, e, c.maxAttempts, r, w.now);
    SettleKeepsPayloads(c, w, worker, r);
    hide Settled, PayloadsMatch, Enabled, Terminal;
    assert OneHolderEach(Next(c, w, Settle(worker, r)));
  }

  lemma SettleKeepsPayloads(c: Config, w: World, worker: WorkerId, r: PipelineResult)
    requires Enabled(c, w, Settle(worker, r)) && SafetyInv(w)
    ensures PayloadsMatch(Next(c, w, Settle(worker, r)).db)
  {
    var e := w.live[worker];
    assert Holds(w, e);
    hide OneHolderEach;
    SettledMeaning(w.db, e, c.maxAttempts, r, w.now);
    hide Settled, Enabled;
    DroppedMatches(w.db, Next(c, w, Settle(worker, r)).db, e.jobId);
  }

  lemma DroppedMatches(db: Db, after: Db, id: JobId)
    requires PayloadsMatch(db) && id in db.jobs && after.jobs.Keys == db.jobs.Keys
    requires forall k :: k in db.jobs && k != id ==> after.jobs[k] == db.jobs[k]
    requires after.jobs[id].tenant == db.jobs[id].tenant && WantsPayload(db.jobs[id])
    requires after.payloads == if WantsPayload(after.jobs[id]) then db.payloads else db.payloads - {id}
    ensures PayloadsMatch(after)
  {
  }

  lemma {:induction false} SafetyInvReached(c: Config, start: World, steps: seq<Step>)
    requires Initial(start) && TimelyRun(c, start, steps)
    ensures SafetyInv(After(c, start, steps).value)
  {
    if steps != [] {
      var mid := After(c, start, Init(steps)).value;
      SafetyInvReached(c, start, Init(steps));
      SafetyInvStep(c, mid, Last(steps));
    }
  }

  /**
   * Queue safety over every timely run: each job has at most one live holder, and its row says so; a payload is
   * stored for exactly the queued and the claimed jobs; and no claim ever finds its payload missing.
   */
  lemma QueueSafety(c: Config, start: World, steps: seq<Step>, w: World)
    requires Initial(start) && TimelyRun(c, start, steps) && After(c, start, steps) == Some(w)
    ensures forall x, y :: x in w.live && y in w.live && w.live[x].jobId == w.live[y].jobId ==> x == y
    ensures forall x :: x in w.live ==> Holds(w, w.live[x]) && !w.live[x].stage.MissingPayload?
    ensures forall id :: id in w.db.payloads <==> id in w.db.jobs && WantsPayload(w.db.jobs[id])
  {
    SafetyInvReached(c, start, steps);
  }

  // ---- When complete and failed are final ----

  ghost predicate NoHolder(w: World, id: JobId) {
    forall x :: x in w.live ==> w.live[x].jobId != id
  }

  /** A finished row that no live execution holds is neither changed nor claimed. */
  lemma FinishedRowStays(c: Config, w: World, st: Step, id: JobId)
    requires Enabled(c, w, st) && id in w.db.jobs && Terminal(w.db.jobs[id]) && NoHolder(w, id)
    ensures id in Next(c, w, st).db.jobs && Next(c, w, st).db.jobs[id] == w.db.jobs[id]
    ensures NoHolder(Next(c, w, st), id)
  {
  }

  lemma {:induction false} FinishedRowStaysAlong(c: Config, w: World, more: seq<Step>, id: JobId)
    requires id in w.db.jobs && Terminal(w.db.jobs[id]) && NoHolder(w, id) && After(c, w, more).Some?
    ensures var v := After(c, w, more).value; id in v.db.jobs && v.db.jobs[id] == w.db.jobs[id] && NoHolder(v, id)
  {
    if more != [] {
      FinishedRowStaysAlong(c, w, Init(more), id);
      FinishedRowStays(c, After(c, w, Init(more)).value, Last(more), id);
    }
  }

  /** A live execution works for the tenant of its job's row. */
  ghost predicate LiveOwned(w: World) {
    forall x :: x in w.live ==> Owned(w.db, w.live[x].jobId, w.live[x].tenant)
  }

  lemma LiveOwnedStep(c: Config, w: World, st: Step)
    requires Enabled(c, w, st) && LiveOwned(w)
    ensures LiveOwned(Next(c, w, st))
  {
    var after := Next(c, w, st);
    forall id | id in w.db.jobs ensures id in after.db.jobs && after.db.jobs[id].tenant == w.db.jobs[id].tenant {
    }
    hide Settled, FailedFor, Enqueued, Created, PayloadOf, Picks;
  }

  lemma {:induction false} LiveOwnedReached(c: Config, start: World, steps: seq<Step>, w: World)
    requires Initial(start) && After(c, start, steps) == Some(w)
    ensures LiveOwned(w)
  {
    if steps != [] {
      var mid := After(c, start, Init(steps)).value;
      LiveOwnedReached(c, start, Init(steps), mid);
      LiveOwnedStep(c, mid, Last(steps));
    }
  }

  lemma {:induction false} AfterCons(c: Config, w: World, st: Step, rest: seq<Step>)
    requires Enabled(c, w, st)
    ensures After(c, w, [st] + rest) == After(c, Next(c, w, st), rest)
  {
    hide Enabled, Next;
    if rest == [] {
      assert [st] + rest == [st] && Init([st]) == [] && Last([st]) == st;
      assert After(c, w, []) == Some(w);
    } else {
      AfterCons(c, w, st, Init(rest));
      assert Init([st] + rest) == [st] + Init(rest) && Last([st] + rest) == Last(rest);
    }
  }

  ghost predicate Changed(v: World, w: World, id: JobId)
    requires id in w.db.jobs
  {
    id in v.db.jobs && v.db.jobs[id] != w.db.jobs[id]
  }

  /** A worker that runs can still settle, with an error the row does not record yet. */
  lemma RunningCanChange(c: Config, w: World, x: WorkerId, id: JobId) returns (more: seq<Step>)
    requires LiveOwned(w) && x in w.live && w.live[x].jobId == id && id in w.db.jobs && w.live[x].stage.Running?
    ensures After(c, w, more).Some? && Changed(After(c, w, more).value, w, id)
  {
    var error := if w.db.jobs[id].lastError == Some("a") then "b" else "a";
    more := [Settle(x, Throws(error))];
    AfterCons(c, w, more[0], []);
    assert more == more[..1] + [];
    assert After(c, Next(c, w, more[0]), []) == Some(Next(c, w, more[0]));
  }

  /** One whose payload is missing can still fail the job, now or one second later. */
  lemma MissingCanChange(c: Config, w: World, x: WorkerId, id: JobId) returns (more: seq<Step>)
    requires LiveOwned(w) && x in w.live && w.live[x].jobId == id && id in w.db.jobs
    requires w.live[x].stage.MissingPayload?
    ensures After(c, w, more).Some? && Changed(After(c, w, more).value, w, id)
  {
    var wait := if w.db.jobs[id].completedAt == Some(w.now) then 1 else 0;
    var later := Next(c, w, Tick(wait));
    more := [Tick(wait)] + [FailMissing(x)];
    AfterCons(c, w, Tick(wait), [FailMissing(x)]);
    AfterCons(c, later, FailMissing(x), []);
    assert [FailMissing(x)] + [] == [FailMissing(x)];
    assert After(c, Next(c, later, FailMissing(x)), []) == Some(Next(c, later, FailMissing(x)));
  }

  lemma HolderCanChange(c: Config, w: World, x: WorkerId, id: JobId) returns (more: seq<Step>)
    requires LiveOwned(w) && x in w.live && w.live[x].jobId == id && id in w.db.jobs
    ensures After(c, w, more).Some? && Changed(After(c, w, more).value, w, id)
  {
    if w.live[x].stage.Running? {
      more := RunningCanChange(c, w, x, id);
    } else if w.live[x].stage.MissingPayload? {
      more := MissingCanChange(c, w, x, id);
    } else {
      LiveOwnedStep(c, w, Load(x));
      var loaded := Next(c, w, Load(x));
      var rest: seq<Step>;
      if loaded.live[x].stage.Running? {
        rest := RunningCanChange(c, loaded, x, id);
      } else {
        rest := MissingCanChange(c, loaded, x, id);
      }
      more := [Load(x)] + rest;
      AfterCons(c, w, Load(x), rest);
    }
  }

  /** The row is the same after every continuation. */
  ghost predicate Final(c: Config, w: World, id: JobId)
    requires id in w.db.jobs
  {
    forall more :: After(c, w, more).Some? ==>
      id in After(c, w, more).value.db.jobs && After(c, w, more).value.db.jobs[id] == w.db.jobs[id]
  }

  /**
   * Exactly when a finished row is final, in every run, whatever the timing: when no live execution holds its job.
   */
  lemma FinalIff(c: Config, start: World, steps: seq<Step>, w: World, id: JobId)
    requires Initial(start) && After(c, start, steps) == Some(w) && id in w.db.jobs && Terminal(w.db.jobs[id])
    ensures Final(c, w, id) <==> NoHolder(w, id)
  {
    LiveOwnedReached(c, start, steps, w);
    if NoHolder(w, id) {
      forall more | After(c, w, more).Some?
        ensures id in After(c, w, more).value.db.jobs && After(c, w, more).value.db.jobs[id] == w.db.jobs[id]
      {
        FinishedRowStaysAlong(c, w, more, id);
      }
    } else {
      var x :| x in w.live && w.live[x].jobId == id;
      var more := HolderCanChange(c, w, x, id);
      assert Changed(After(c, w, more).value, w, id);
    }
  }

  lemma {:induction false} AfterSplit(c: Config, start: World, steps: seq<Step>, k: nat)
    requires k <= |steps| && After(c, start, steps[..k]).Some?
    ensures After(c, After(c, start, steps[..k]).value, steps[k..]) == After(c, start, steps)
    decreases |steps|
  {
    hide Enabled, Next;
    if k == |steps| {
      assert steps[..k] == steps && steps[k..] == [];
    } else {
      assert Init(steps)[..k] == steps[..k] && Init(steps)[k..] == Init(steps[k..]) && Last(steps[k..]) == Last(steps);
      AfterSplit(c, start, Init(steps), k);
    }
  }

  lemma {:induction false} TimelyPrefix(c: Config, start: World, steps: seq<Step>, k: nat)
    requires TimelyRun(c, start, steps) && k <= |steps|
    ensures TimelyRun(c, start, steps[..k])
    decreases |steps|
  {
    if k == |steps| {
      assert steps[..k] == steps;
    } else {
      assert Init(steps)[..k] == steps[..k];
      TimelyPrefix(c, start, Init(steps), k);
    }
  }

  /** In a timely run no live execution holds a finished job: from any point on, its row never changes again. */
  lemma FinishedIsFinal(c: Config, start: World, steps: seq<Step>, k: nat, id: JobId)
    requires Initial(start) && TimelyRun(c, start, steps) && k <= |steps|
    requires After(c, start, steps[..k]).Some? && id in After(c, start, steps[..k]).value.db.jobs
    requires Terminal(After(c, start, steps[..k]).value.db.jobs[id])
    ensures id in After(c, start, steps).value.db.jobs
    ensures After(c, start, steps).value.db.jobs[id] == After(c, start, steps[..k]).value.db.jobs[id]
  {
    var w := After(c, start, steps[..k]).value;
    TimelyPrefix(c, start, steps, k);
    SafetyInvReached(c, start, steps[..k]);
    assert NoHolder(w, id);
    FinalIff(c, start, steps[..k], w, id);
    AfterSplit(c, start, steps, k);
  }

  // ---- How often a job is executed ----

  function Cap(c: Config): nat {
    if c.maxAttempts >= 1 then c.maxAttempts else 1
  }

  /** A row's attempts counter is the number of its claims. */
  ghost predicate ClaimsCounted(w: World) {
    && (forall id :: id in w.db.jobs ==> CountFor(w.claims, id) == w.db.jobs[id].attempts)
    && (forall id :: id !in w.db.jobs ==> CountFor(w.claims, id) == 0)
  }

  /** A claimed row is held by a live worker, or the worker of its last attempt crashed. */
  ghost predicate Accounted(w: World) {
    forall id :: id in w.db.jobs && w.db.jobs[id].status.Processing? && w.db.jobs[id].claimedAt.Some? ==>
      !NoHolder(w, id) || Attempt(id, w.db.jobs[id].attempts) in w.crashes
  }

  /** An execution of the job crashed on its last permitted attempt, or a later one. */
  ghost predicate CrashedAtCap(c: Config, w: World, id: JobId) {
    exists a :: a in w.crashes && a.jobId == id && a.number >= Cap(c)
  }

  /** Unless one did, the job stays within its attempts, and while it waits has one left. */
  ghost predicate WithinCap(c: Config, w: World) {
    forall id :: id in w.db.jobs && !CrashedAtCap(c, w, id) ==>
      && w.db.jobs[id].attempts <= Cap(c)
      && (w.db.jobs[id].status.Queued? || Unsubmitted(w.db.jobs[id]) ==> w.db.jobs[id].attempts < Cap(c))
  }

  ghost predicate CrashesClaimed(w: World) {
    forall a :: a in w.crashes ==> a in w.claims
  }

  lemma CountSnoc(log: seq<Attempt>, a: Attempt)
    ensures forall id :: CountFor(log + [a], id) == CountFor(log, id) + if a.jobId == id then 1 else 0
  {
    assert Init(log + [a]) == log;
  }

  lemma CountedStep(c: Config, w: World, st: Step)
    requires Enabled(c, w, st) && ClaimsCounted(w)
    ensures ClaimsCounted(Next(c, w, st))
  {
    hide CountFor;
    if st.Claim? {
      CountSnoc(w.claims, Attempt(st.id, w.db.jobs[st.id].attempts + 1));
      hide Picks;
    } else {
      forall id | id in w.db.jobs
        ensures id in Next(c, w, st).db.jobs && Next(c, w, st).db.jobs[id].attempts == w.db.jobs[id].attempts
      {
        AttemptsNeverDrop(c, w, st, id);
      }
      hide Settled, FailedFor, PayloadOf;
    }
  }

  /** A claim takes a queued row, or one whose last worker crashed; below the cap unless a crash was at the cap. */
  lemma ClaimUsesAttempt(c: Config, w: World, worker: WorkerId, id: JobId, locked: set<JobId>)
    requires Enabled(c, w, Claim(worker, id, locked)) && SafetyInv(w) && Timely(c, w) && Accounted(w)
    ensures w.db.jobs[id].status.Queued? || Attempt(id, w.db.jobs[id].attempts) in w.crashes
    ensures WithinCap(c, w) && !CrashedAtCap(c, w, id) ==> w.db.jobs[id].attempts < Cap(c)
  {
    ClaimIsExclusive(c, w, worker, id, locked);
    hide SafetyInv, Timely, Next;
    assert NoHolder(w, id);
  }

  lemma AccountedClaim(c: Config, w: World, worker: WorkerId, id: JobId, locked: set<JobId>)
    requires Enabled(c, w, Claim(worker, id, locked)) && Accounted(w)
    ensures Accounted(Next(c, w, Claim(worker, id, locked)))
  {
    var after := Next(c, w, Claim(worker, id, locked));
    assert worker in after.live && after.live[worker].jobId == id;
    forall k | k in w.db.jobs && k != id && !NoHolder(w, k) ensures !NoHolder(after, k) {
      var x :| x in w.live && w.live[x].jobId == k;
      assert x in after.live && after.live[x].jobId == k;
    }
    hide NoHolder, Picks;
  }

  /** What a step that ends one live execution does to the rows, as far as holding them goes. */
  lemma AccountedEnd(w: World, after: World, gone: WorkerId)
    requires Accounted(w) && gone in w.live && after.live == w.live - {gone}
    requires forall a :: a in w.crashes ==> a in after.crashes
    requires forall id :: id in after.db.jobs && id != w.live[gone].jobId ==>
               id in w.db.jobs && after.db.jobs[id] == w.db.jobs[id]
    requires var id := w.live[gone].jobId;
             id in after.db.jobs && after.db.jobs[id].status.Processing? ==>
               Attempt(id, after.db.jobs[id].attempts) in after.crashes
    ensures Accounted(after)
  {
    forall k | k in after.db.jobs && k != w.live[gone].jobId && !NoHolder(w, k) ensures !NoHolder(after, k) {
      var x :| x in w.live && w.live[x].jobId == k;
      assert x in after.live && after.live[x].jobId == k;
    }
    hide NoHolder;
  }

  lemma AccountedSettle(c: Config, w: World, worker: WorkerId, r: PipelineResult)
    requires Enabled(c, w, Settle(worker, r)) && SafetyInv(w) && Accounted(w)
    ensures Accounted(Next(c, w, Settle(worker, r)))
  {
    var after, e := Next(c, w, Settle(worker, r)), w.live[worker];
    assert Holds(w, e);
    SettledMeaning(w.db, e, c.maxAttempts, r, w.now);
    hide Settled, SafetyInv, Enabled, Accounted, Holds;
    AccountedEnd(w, after, worker);
  }

  lemma AccountedCrash(c: Config, w: World, worker: WorkerId)
    requires Enabled(c, w, Crash(worker)) && SafetyInv(w) && Accounted(w)
    ensures Accounted(Next(c, w, Crash(worker)))
  {
    assert Holds(w, w.live[worker]);
    hide SafetyInv, Accounted;
    AccountedEnd(w, Next(c, w, Crash(worker)), worker);
  }

  lemma AccountedOther(c: Config, w: World, st: Step)
    requires Enabled(c, w, st) && SafetyInv(w) && Accounted(w)
    requires st.Create? || st.Submit? || st.Load? || st.FailMissing? || st.Tick?
    ensures Accounted(Next(c, w, st))
  {
    hide PayloadsMatch;
    var after := Next(c, w, st);
    forall k | !NoHolder(w, k) ensures !NoHolder(after, k) {
      var x :| x in w.live && w.live[x].jobId == k;
      assert x in after.live && after.live[x].jobId == k;
    }
    hide NoHolder, Settled, PayloadOf;
  }

  lemma AccountedStep(c: Config, w: World, st: Step)
    requires Enabled(c, w, st) && SafetyInv(w) && Accounted(w)
    ensures Accounted(Next(c, w, st))
  {
    hide Accounted, SafetyInv, Next;
    match st
    case Claim(worker, id, locked) => AccountedClaim(c, w, worker, id, locked);
    case Settle(worker, r) => AccountedSettle(c, w, worker, r);
    case Crash(worker) => AccountedCrash(c, w, worker);
    case _ => AccountedOther(c, w, st);
  }

  lemma CapClaim(c: Config, w: World, worker: WorkerId, id: JobId, locked: set<JobId>)
    requires Enabled(c, w, Claim(worker, id, locked)) && WithinCap(c, w)
    requires !CrashedAtCap(c, w, id) ==> w.db.jobs[id].attempts < Cap(c)
    ensures WithinCap(c, Next(c, w, Claim(worker, id, locked)))
  {
    forall k ensures CrashedAtCap(c, Next(c, w, Claim(worker, id, locked)), k) <==> CrashedAtCap(c, w, k) {
    }
    hide CrashedAtCap, Picks;
  }

  lemma CapSettle(c: Config, w: World, worker: WorkerId, r: PipelineResult)
    requires Enabled(c, w, Settle(worker, r)) && SafetyInv(w) && WithinCap(c, w)
    ensures WithinCap(c, Next(c, w, Settle(worker, r)))
  {
    var after, e := Next(c, w, Settle(worker, r)), w.live[worker];
    assert Holds(w, e);
    SettledMeaning(w.db, e, c.maxAttempts, r, w.now);
    hide Settled, SafetyInv, Enabled, WithinCap;
    CapSettled(c, w, after, e.jobId);
  }

  lemma CapSettled(c: Config, w: World, after: World, id: JobId)
    requires WithinCap(c, w) && after.crashes == w.crashes && id in w.db.jobs && after.db.jobs.Keys == w.db.jobs.Keys
    requires forall k :: k in w.db.jobs && k != id ==> after.db.jobs[k] == w.db.jobs[k]
    requires after.db.jobs[id].attempts == w.db.jobs[id].attempts
    requires Terminal(after.db.jobs[id]) || (after.db.jobs[id].status.Queued? && after.db.jobs[id].attempts < Cap(c))
    ensures WithinCap(c, after)
  {
    forall k ensures CrashedAtCap(c, after, k) <==> CrashedAtCap(c, w, k) {
    }
    hide CrashedAtCap;
  }

  lemma CapOther(c: Config, w: World, st: Step)
    requires Enabled(c, w, st) && WithinCap(c, w) && !st.Claim? && !st.Settle?
    ensures WithinCap(c, Next(c, w, st))
  {
    var after := Next(c, w, st);
    forall k | CrashedAtCap(c, w, k) ensures CrashedAtCap(c, after, k) {
      var a :| a in w.crashes && a.jobId == k && a.number >= Cap(c);
      assert a in after.crashes;
    }
    hide CrashedAtCap, Settled, PayloadOf;
  }

  lemma CapStep(c: Config, w: World, st: Step)
    requires Enabled(c, w, st) && SafetyInv(w) && Timely(c, w) && Accounted(w) && WithinCap(c, w)
    ensures WithinCap(c, Next(c, w, st))
  {
    hide SafetyInv, Timely, Accounted, WithinCap, CrashedAtCap, Next;
    match st
    case Claim(worker, id, locked) =>
      ClaimUsesAttempt(c, w, worker, id, locked);
      CapClaim(c, w, worker, id, locked);
    case Settle(worker, r) => CapSettle(c, w, worker, r);
    case _ => CapOther(c, w, st);
  }

  lemma CrashesClaimedStep(c: Config, w: World, st: Step)
    requires Enabled(c, w, st) && AttemptInv(c, w) && CrashesClaimed(w)
    ensures CrashesClaimed(Next(c, w, st))
  {
    hide Settled, FailedFor, PayloadOf, Picks, Enqueued, Created;
  }

  lemma {:induction false} ExecutionInvReached(c: Config, start: World, steps: seq<Step>)
    requires Initial(start) && TimelyRun(c, start, steps)
    ensures var w := After(c, start, steps).value;
            ClaimsCounted(w) && Accounted(w) && WithinCap(c, w) && CrashesClaimed(w)
  {
    if steps != [] {
      var mid := After(c, start, Init(steps)).value;
      ExecutionInvReached(c, start, Init(steps));
      SafetyInvReached(c, start, Init(steps));
      AttemptInvReached(c, start, Init(steps), mid);
      hide ClaimsCounted, Accounted, WithinCap, CrashesClaimed, SafetyInv, AttemptInv, Next, Enabled, Timely;
      CountedStep(c, mid, Last(steps));
      AccountedStep(c, mid, Last(steps));
      CapStep(c, mid, Last(steps));
      CrashesClaimedStep(c, mid, Last(steps));
    }
  }

  /** At some point of the run the job was claimed after an execution of it had crashed at the cap. */
  ghost predicate ReclaimedAtCap(c: Config, start: World, steps: seq<Step>, id: JobId) {
    steps != [] &&
    (|| ReclaimedAtCap(c, start, Init(steps), id)
     || (&& Last(steps).Claim? && Last(steps).id == id
         && After(c, start, Init(steps)).Some? && CrashedAtCap(c, After(c, start, Init(steps)).value, id)))
  }

  /** The claim that goes beyond the cap, if this step is it. */
  lemma ExceedsNow(c: Config, w: World, st: Step, id: JobId)
    requires Enabled(c, w, st) && SafetyInv(w) && Timely(c, w) && AttemptInv(c, w)
    requires ClaimsCounted(w) && Accounted(w) && WithinCap(c, w) && CrashesClaimed(w)
    ensures CountFor(Next(c, w, st).claims, id) > Cap(c)
            <==> CountFor(w.claims, id) > Cap(c) || (st.Claim? && st.id == id && CrashedAtCap(c, w, id))
  {
    if st.Claim? {
      CountSnoc(w.claims, Attempt(st.id, w.db.jobs[st.id].attempts + 1));
      ClaimUsesAttempt(c, w, st.worker, st.id, st.locked);
      if st.id == id && CrashedAtCap(c, w, id) {
        var a :| a in w.crashes && a.jobId == id && a.number >= Cap(c);
        assert a in w.claims && a.number <= w.db.jobs[id].attempts;
      }
      hide CountFor, SafetyInv, Timely, AttemptInv, Accounted, CrashedAtCap, WithinCap, Picks;
    } else {
      assert Next(c, w, st).claims == w.claims;
    }
  }

  /**
   * In every timely run a job is executed more than maxAttempts times (once, if that is below one) exactly when it
   * was claimed after an execution of it crashed on its last permitted attempt or beyond. No other crash matters.
   */
  lemma {:induction false} ExecutionsExceedIff(c: Config, start: World, steps: seq<Step>, w: World, id: JobId)
    requires Initial(start) && TimelyRun(c, start, steps) && After(c, start, steps) == Some(w)
    ensures CountFor(w.claims, id) > Cap(c) <==> ReclaimedAtCap(c, start, steps, id)
    ensures id in w.db.jobs ==> CountFor(w.claims, id) == w.db.jobs[id].attempts
  {
    ExecutionInvReached(c, start, steps);
    if steps != [] {
      var mid := After(c, start, Init(steps)).value;
      ExecutionsExceedIff(c, start, Init(steps), mid, id);
      ExecutionInvReached(c, start, Init(steps));
      SafetyInvReached(c, start, Init(steps));
      AttemptInvReached(c, start, Init(steps), mid);
      hide Accounted, WithinCap, CrashesClaimed, SafetyInv, AttemptInv, Next, Enabled, Timely, CrashedAtCap;
      ExceedsNow(c, mid, Last(steps), id);
    }
  }

  predicate NoCrash(steps: seq<Step>) {
    forall st :: st in steps ==> !st.Crash?
  }

  lemma {:induction false} NoCrashRecorded(c: Config, start: World, steps: seq<Step>, w: World)
    requires Initial(start) && After(c, start, steps) == Some(w) && NoCrash(steps)
    ensures w.crashes == []
  {
    if steps != [] {
      NoCrashRecorded(c, start, Init(steps), After(c, start, Init(steps)).value);
      assert Last(steps) in steps;
      hide Settled, FailedFor, PayloadOf, Picks, Enqueued, Created;
    }
  }

  lemma {:induction false} ReclaimNeedsCrash(c: Config, start: World, steps: seq<Step>, id: JobId)
    requires Initial(start) && After(c, start, steps).Some? && NoCrash(steps)
    ensures !ReclaimedAtCap(c, start, steps, id)
  {
    if steps != [] {
      assert NoCrash(Init(steps));
      ReclaimNeedsCrash(c, start, Init(steps), id);
      NoCrashRecorded(c, start, Init(steps), After(c, start, Init(steps)).value);
    }
  }

  /** In particular, with no crash and no overrun a job is executed at most maxAttempts times. */
  lemma ExecutionBound(c: Config, start: World, steps: seq<Step>, w: World, id: JobId)
    requires Initial(start) && TimelyRun(c, start, steps) && NoCrash(steps) && After(c, start, steps) == Some(w)
    ensures CountFor(w.claims, id) <= Cap(c)
    ensures id in w.db.jobs ==> CountFor(w.claims, id) == w.db.jobs[id].attempts
  {
    ExecutionsExceedIff(c, start, steps, w, id);
    ReclaimNeedsCrash(c, start, steps, id);
  }

  // ---- What a finished row says ----

  /** How an execution may end for good. */
  datatype Verdict = Good(abstained: bool) | Bad(error: string)

  /** The verdict on the job that this step brings, if it does. */
  function VerdictOf(c: Config, w: World, st: Step, id: JobId): Option<Verdict>
    requires Enabled(c, w, st)
  {
    match st
    case FailMissing(worker) => if w.live[worker].jobId == id then Some(Bad("payload missing")) else None
    case Settle(worker, r) =>
      if w.live[worker].jobId != id then None
      else (match r
            case Finishes(failed, error, abstained) => Some(if failed then Bad(error) else Good(abstained))
            case Throws(error) => if w.live[worker].attempt >= c.maxAttempts then Some(Bad(error)) else None)
    case _ => None
  }

  /** The last verdict on the job in the run. */
  function LastVerdict(c: Config, start: World, steps: seq<Step>, id: JobId): Option<Verdict>
    requires After(c, start, steps).Some?
  {
    if steps == [] then None
    else
      var v := VerdictOf(c, After(c, start, Init(steps)).value, Last(steps), id);
      if v.Some? then v else LastVerdict(c, start, Init(steps), id)
  }

  /** The row says what the verdict was. */
  predicate Tells(j: Job, v: Verdict) {
    match v
    case Good(abstained) => j.status == Status.Complete && j.needsReview == abstained
    case Bad(error) => j.status == Status.Failed && StoredError(j.lastError, error)
  }

  /** A verdict is written to the row at once; without one no row becomes complete or failed, nor changes if it is. */
  lemma VerdictStep(c: Config, w: World, st: Step, id: JobId)
    requires Enabled(c, w, st) && LiveOwned(w)
    ensures VerdictOf(c, w, st, id).Some? ==>
              id in Next(c, w, st).db.jobs && Tells(Next(c, w, st).db.jobs[id], VerdictOf(c, w, st, id).value)
    ensures VerdictOf(c, w, st, id).None? && id in Next(c, w, st).db.jobs && Terminal(Next(c, w, st).db.jobs[id]) ==>
              id in w.db.jobs && Next(c, w, st).db.jobs[id] == w.db.jobs[id]
  {
    match st {
      case Settle(worker, r) =>
        var e := w.live[worker];
        match r {
          case Finishes(failed, error, abstained) =>
            VerdictOnRow(w.db, e.jobId, e.tenant, e.attempt, c.maxAttempts, failed, error, abstained, w.now);
          case Throws(error) =>
            RaiseOnRow(w.db, e.jobId, e.tenant, e.attempt, c.maxAttempts, error, w.now, w.now, c.stale);
        }
        hide Settled, FailedFor;
      case _ =>
    }
  }

  /**
   * In every run, timely or not: a complete or failed row tells the last verdict on its job. It is complete exactly
   * when that was not a failure, with its review flag, and otherwise it is failed, with its error.
   */
  lemma {:induction false} FinishedRowTellsVerdict(c: Config, start: World, steps: seq<Step>, w: World, id: JobId)
    requires Initial(start) && After(c, start, steps) == Some(w) && id in w.db.jobs && Terminal(w.db.jobs[id])
    ensures LastVerdict(c, start, steps, id).Some? && Tells(w.db.jobs[id], LastVerdict(c, start, steps, id).value)
  {
    if steps != [] {
      var mid := After(c, start, Init(steps)).value;
      LiveOwnedReached(c, start, Init(steps), mid);
      VerdictStep(c, mid, Last(steps), id);
      if VerdictOf(c, mid, Last(steps), id).None? {
        FinishedRowTellsVerdict(c, start, Init(steps), mid, id);
      }
      hide Tells, Next, Enabled, LiveOwned, Terminal;
    }
  }

  // ---- What the two assumptions are for ----

  const EMPTY := World(Db(map[], map[]), 0, map[], [], [], [])

  lemma Extend(c: Config, start: World, steps: seq<Step>, w: World, st: Step)
    requires After(c, start, steps) == Some(w) && Enabled(c, w, st)
    ensures After(c, start, steps + [st]) == Some(Next(c, w, st))
    ensures TimelyRun(c, start, steps) && Timely(c, Next(c, w, st)) ==> TimelyRun(c, start, steps + [st])
  {
    assert Init(steps + [st]) == steps;
  }

  /** One job of one tenant, submitted and waiting. */
  lemma OneSubmitted(c: Config, p: Payload) returns (steps: seq<Step>, w: World)
    ensures After(c, EMPTY, steps) == Some(w) && TimelyRun(c, EMPTY, steps)
    ensures w == World(Db(map["j" := Job(p.tenant, Queued, 0, None, None, 0, None, None, false)], map["j" := p]),
                       0, map[], [], [], [])
  {
    Extend(c, EMPTY, [], EMPTY, Create("j", p.tenant));
    var created := Next(c, EMPTY, Create("j", p.tenant));
    Extend(c, EMPTY, [] + [Create("j", p.tenant)], created, Submit("j", p));
    steps := [] + [Create("j", p.tenant)] + [Submit("j", p)];
    w := Next(c, created, Submit("j", p));
    assert w.db.jobs == map["j" := Job(p.tenant, Queued, 0, None, None, 0, None, None, false)];
  }

  /**
   * Outcomes carry no claim token. If a worker outlasts the stale limit, its late retry reopens a job another
   * worker has completed, whose payload is already gone.
   */
  lemma OverrunReopensCompletedJob(c: Config, p: Payload) returns (steps: seq<Step>, w: World, late: Step)
    requires c.maxAttempts >= 2 && c.stale >= 0
    ensures After(c, EMPTY, steps) == Some(w) && Enabled(c, w, late)
    ensures "j" in w.db.jobs && w.db.jobs["j"].status.Complete?
    ensures Next(c, w, late).db.jobs["j"].status.Queued? && "j" !in Next(c, w, late).db.payloads
  {
    steps, w := OneSubmitted(c, p);
    steps, w := Take(c, steps, w, Claim("a", "j", {}));
    steps, w := Take(c, steps, w, Load("a"));
    steps, w := Take(c, steps, w, Tick(c.stale + 1));
    steps, w := Take(c, steps, w, Claim("b", "j", {}));
    steps, w := Take(c, steps, w, Load("b"));
    steps, w := Take(c, steps, w, Settle("b", Finishes(false, "", false)));
    late := Settle("a", Throws("timeout"));
  }

  lemma Take(c: Config, steps: seq<Step>, w: World, st: Step) returns (more: seq<Step>, after: World)
    requires After(c, EMPTY, steps) == Some(w) && Enabled(c, w, st)
    ensures After(c, EMPTY, more) == Some(after) && after == Next(c, w, st)
    ensures TimelyRun(c, EMPTY, steps) && Timely(c, after) ==> TimelyRun(c, EMPTY, more)
  {
    Extend(c, EMPTY, steps, w, st);
    more, after := steps + [st], Next(c, w, st);
  }

  /** Reclaiming after crashes is not bounded: a job whose worker keeps dying runs any number of times. */
  lemma {:induction false} CrashesAreUnbounded(c: Config, p: Payload, n: nat) returns (steps: seq<Step>, w: World)
    requires c.stale >= 0
    ensures After(c, EMPTY, steps) == Some(w) && TimelyRun(c, EMPTY, steps)
    ensures w.live == map[] && w.db.jobs.Keys == {"j"} && Claimable(w.db.jobs["j"], w.now, c.stale)
    ensures CountFor(w.claims, "j") == n
  {
    if n == 0 {
      steps, w := OneSubmitted(c, p);
    } else {
      steps, w := CrashesAreUnbounded(c, p, n - 1);
      CountSnoc(w.claims, Attempt("j", w.db.jobs["j"].attempts + 1));
      steps, w := Take(c, steps, w, Claim("a", "j", {}));
      steps, w := Take(c, steps, w, Crash("a"));
      steps, w := Take(c, steps, w, Tick(c.stale + 1));
    }
  }
}
