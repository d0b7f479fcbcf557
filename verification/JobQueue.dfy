/** The durable queue: the jobs table and the payload table, one transaction a step. */
module JobQueue {
  import opened Common

  type JobId = string

  datatype Status = Queued | Processing | Complete | Failed

  datatype Job = Job(
    tenant: string, status: Status, attempts: nat, claimedAt: Option<int>, claimedBy: Option<string>,
    availableAt: int, completedAt: Option<int>, lastError: Option<string>, needsReview: bool)

  datatype Payload = Payload(
    tenant: string, content: seq<bv8>, filename: string, docHash: string, schemaType: Option<string>)

  datatype Db = Db(jobs: map<JobId, Job>, payloads: map<JobId, Payload>)

  datatype ClaimedJob = ClaimedJob(jobId: JobId, tenant: string, attempts: nat, payload: Payload)

  /** Row-level security and every statement's own test: the row exists and is the tenant's. */
  predicate Owned(db: Db, id: JobId, tenant: string) {
    id in db.jobs && db.jobs[id].tenant == tenant
  }

  function UpdateJob(db: Db, id: JobId, tenant: string, j: Job): Db {
    if Owned(db, id, tenant) then db.(jobs := db.jobs[id := j]) else db
  }

  function DropPayload(db: Db, id: JobId, tenant: string): Db {
    if id in db.payloads && db.payloads[id].tenant == tenant then db.(payloads := db.payloads - {id}) else db
  }

  function Truncated(error: string): string {
    if |error| <= 1000 then error else error[..1000]
  }

  /** A job row as the upload route inserts it: already 'processing', but claimed by no one. */
  function Created(db: Db, id: JobId, tenant: string, now: int): Db {
    if id in db.jobs then db
    else db.(jobs := db.jobs[id := Job(tenant, Processing, 0, None, None, now, None, None, false)])
  }

  function Enqueued(db: Db, id: JobId, p: Payload, now: int): Db {
    var stored := if id in db.payloads then db else db.(payloads := db.payloads[id := p]);
    if Owned(db, id, p.tenant)
    then UpdateJob(stored, id, p.tenant, db.jobs[id].(status := Queued, availableAt := now))
    else stored
  }

  predicate Claimable(j: Job, now: int, stale: int) {
    || (j.status.Queued? && j.availableAt <= now)
    || (j.status.Processing? && j.claimedAt.Some? && j.claimedAt.value < now - stale)
  }

  /** The row the claim locks: the earliest available claimable row that no other transaction has locked. */
  predicate Picks(db: Db, id: JobId, locked: set<JobId>, now: int, stale: int) {
    && id in db.jobs && id !in locked && Claimable(db.jobs[id], now, stale)
    && forall k :: k in db.jobs && k !in locked && Claimable(db.jobs[k], now, stale)
                   ==> db.jobs[id].availableAt <= db.jobs[k].availableAt
  }

  function Claimed(db: Db, id: JobId, worker: string, now: int): Db
    requires id in db.jobs
  {
    var j := db.jobs[id];
    db.(jobs := db.jobs[id :=
      j.(status := Processing, claimedAt := Some(now), claimedBy := Some(worker), attempts := j.attempts + 1)])
  }

  function Completed(db: Db, id: JobId, tenant: string, needsReview: bool, now: int): Db {
    DropPayload(
      if !Owned(db, id, tenant) then db
      else UpdateJob(db, id, tenant,
             db.jobs[id].(status := Complete, completedAt := Some(now), needsReview := needsReview, claimedAt := None)),
      id, tenant)
  }

  function Requeued(db: Db, id: JobId, tenant: string, error: string, delay: nat, now: int): Db {
    if !Owned(db, id, tenant) then db
    else UpdateJob(db, id, tenant,
           db.jobs[id].(status := Queued, availableAt := now + delay, lastError := Some(Truncated(error)),
                        claimedAt := None))
  }

  function FailedFor(db: Db, id: JobId, tenant: string, error: string, now: int): Db {
    DropPayload(
      if !Owned(db, id, tenant) then db
      else UpdateJob(db, id, tenant,
             db.jobs[id].(status := Failed, completedAt := Some(now), lastError := Some(Truncated(error)),
                          claimedAt := None)),
      id, tenant)
  }

  class JobQueue {
    var jobs: map<JobId, Job>
    var payloads: map<JobId, Payload>

    function State(): Db
      reads this
    {
      Db(jobs, payloads)
    }

    constructor ()
      ensures State() == Db(map[], map[])
    {
      jobs, payloads := map[], map[];
    }

    method Enqueue(id: JobId, p: Payload, now: int)
      modifies this
      ensures State() == Enqueued(old(State()), id, p, now)
    {
      if id !in payloads {
        payloads := payloads[id := p];
      }
      if id in jobs && jobs[id].tenant == p.tenant {
        jobs := jobs[id := jobs[id].(status := Queued, availableAt := now)];
      }
    }

    /** The claim statement: lock and take one row, or take none. */
    method ClaimNext(worker: string, stale: int, locked: set<JobId>, now: int) returns (r: Option<JobId>)
      modifies this`jobs
      ensures r.None? ==> State() == old(State())
                          && forall k :: k in jobs && k !in locked ==> !Claimable(jobs[k], now, stale)
      ensures r.Some? ==> Picks(old(State()), r.value, locked, now, stale)
                          && State() == Claimed(old(State()), r.value, worker, now)
    {
      r := None;
      var rest := jobs.Keys - locked;
      while rest != {}
        invariant rest <= jobs.Keys - locked
        invariant r.None? ==> forall k :: k in jobs && k !in locked && k !in rest ==> !Claimable(jobs[k], now, stale)
        invariant r.Some? ==>
                    && r.value in jobs && r.value !in locked && Claimable(jobs[r.value], now, stale)
                    && forall k :: k in jobs && k !in locked && k !in rest && Claimable(jobs[k], now, stale)
                                   ==> jobs[r.value].availableAt <= jobs[k].availableAt
        decreases rest
      {
        var k :| k in rest;
        if Claimable(jobs[k], now, stale)
           && (r.None? || jobs[k].availableAt < jobs[r.value].availableAt) {
          r := Some(k);
        }
        rest := rest - {k};
      }
      if r.Some? {
        var j := jobs[r.value];
        jobs := jobs[r.value :=
          j.(status := Processing, claimedAt := Some(now), claimedBy := Some(worker), attempts := j.attempts + 1)];
      }
    }

    /** The second transaction of a claim: load the payload, or fail the job for want of one. */
    method LoadPayload(id: JobId, tenant: string, attempts: nat, now: int) returns (r: Option<ClaimedJob>)
      modifies this
      ensures match PayloadOf(old(State()), id, tenant)
              case Some(p) => State() == old(State()) && r == Some(ClaimedJob(id, tenant, attempts, p))
              case None => State() == FailedFor(old(State()), id, tenant, "payload missing", now) && r == None
    {
      if id in payloads && payloads[id].tenant == tenant {
        return Some(ClaimedJob(id, tenant, attempts, payloads[id]));
      }
      Fail(id, tenant, "payload missing", now);
      r := None;
    }

    method Complete(id: JobId, tenant: string, needsReview: bool, now: int)
      modifies this
      ensures State() == Completed(old(State()), id, tenant, needsReview, now)
    {
      if id in jobs && jobs[id].tenant == tenant {
        jobs := jobs[id := jobs[id].(status := Status.Complete, completedAt := Some(now),
                                     needsReview := needsReview, claimedAt := None)];
      }
      RemovePayload(id, tenant);
    }

    method RetryLater(id: JobId, tenant: string, error: string, delay: nat, now: int)
      modifies this`jobs
      ensures State() == Requeued(old(State()), id, tenant, error, delay, now)
    {
      if id in jobs && jobs[id].tenant == tenant {
        jobs := jobs[id := jobs[id].(status := Queued, availableAt := now + delay,
                                     lastError := Some(Truncated(error)), claimedAt := None)];
      }
    }

    method Fail(id: JobId, tenant: string, error: string, now: int)
      modifies this
      ensures State() == FailedFor(old(State()), id, tenant, error, now)
    {
      if id in jobs && jobs[id].tenant == tenant {
        jobs := jobs[id := jobs[id].(status := Failed, completedAt := Some(now),
                                     lastError := Some(Truncated(error)), claimedAt := None)];
      }
      RemovePayload(id, tenant);
    }

    method RemovePayload(id: JobId, tenant: string)
      modifies this`payloads
      ensures State() == DropPayload(old(State()), id, tenant)
    {
      if id in payloads && payloads[id].tenant == tenant {
        payloads := payloads - {id};
      }
    }
  }

  function PayloadOf(db: Db, id: JobId, tenant: string): Option<Payload> {
    if id in db.payloads && db.payloads[id].tenant == tenant then Some(db.payloads[id]) else None
  }

  // ---- When a row can be claimed ----

  /** A row that was only created is never claimed; submitted, it is waiting from that moment on, its payload stored. */
  lemma SubmittedIsClaimable(db: Db, id: JobId, p: Payload, created: int, submitted: int, t: int, stale: int)
    requires id !in db.jobs
    ensures var row := Created(db, id, p.tenant, created).jobs[id]; !Claimable(row, t, stale)
    ensures var after := Enqueued(Created(db, id, p.tenant, created), id, p, submitted);
            && after.jobs.Keys == db.jobs.Keys + {id} && (forall k :: k in db.jobs ==> after.jobs[k] == db.jobs[k])
            && (Claimable(after.jobs[id], t, stale) <==> t >= submitted)
            && after.jobs[id].tenant == p.tenant && after.jobs[id].attempts == 0
            && after.payloads.Keys == db.payloads.Keys + {id}
            && after.payloads[id] == if id in db.payloads then db.payloads[id] else p
  {
  }

  /** A claimed row can be claimed again only when the stale limit has passed. */
  lemma ClaimHoldsUntilStale(db: Db, id: JobId, worker: string, now: int, t: int, stale: int)
    requires id in db.jobs
    ensures var row := Claimed(db, id, worker, now).jobs[id];
            && (Claimable(row, t, stale) <==> t > now + stale)
            && row.claimedBy == Some(worker) && row.attempts == db.jobs[id].attempts + 1
            && row.tenant == db.jobs[id].tenant && row.availableAt == db.jobs[id].availableAt
    ensures forall k :: k in db.jobs && k != id ==> Claimed(db, id, worker, now).jobs[k] == db.jobs[k]
  {
  }

  /** Of two rows waiting and not locked, the one that became available later is never the one claimed. */
  lemma EarliestFirst(db: Db, first: JobId, later: JobId, locked: set<JobId>, now: int, stale: int)
    requires first in db.jobs && later in db.jobs && first !in locked
    requires db.jobs[first].status.Queued? && db.jobs[first].availableAt <= now
    requires db.jobs[first].availableAt < db.jobs[later].availableAt
    ensures !Picks(db, later, locked, now, stale)
  {
  }

  /** An error as it is stored: its first thousand characters. */
  predicate StoredError(stored: Option<string>, error: string) {
    stored.Some? && stored.value <= error && |stored.value| == Min(|error|, 1000)
  }

  /** What a settling step may never touch: other rows, and the row's tenant, attempts and last worker. */
  predicate OnlyRow(db: Db, after: Db, id: JobId) {
    && id in db.jobs && after.jobs.Keys == db.jobs.Keys
    && (forall k :: k in db.jobs && k != id ==> after.jobs[k] == db.jobs[k])
    && after.jobs[id].tenant == db.jobs[id].tenant && after.jobs[id].attempts == db.jobs[id].attempts
    && after.jobs[id].claimedBy == db.jobs[id].claimedBy && after.jobs[id].claimedAt == None
  }
}

/** One worker's decision about a claimed job. */
module Worker {
  import opened Common
  import opened JobQueue

  datatype PipelineResult =
    | Throws(error: string)                                    // transient: retried, then given up
    | Finishes(failed: bool, error: string, abstained: bool)   // a verdict: never retried

  function Pow2(n: nat): nat {
    if n == 0 then 1 else 2 * Pow2(n - 1)
  }

  function Backoff(attempts: nat): nat {
    if Pow2(attempts) < 60 then Pow2(attempts) else 60
  }

  /** The queue after a worker holding attempt number `attempts` of a job has dealt with the pipeline's result. */
  function Settled(
    db: Db, id: JobId, tenant: string, attempts: nat, maxAttempts: int, r: PipelineResult, now: int): Db
  {
    match r
    case Throws(error) =>
      if attempts < maxAttempts then Requeued(db, id, tenant, error, Backoff(attempts), now)
      else FailedFor(db, id, tenant, error, now)
    case Finishes(failed, error, abstained) =>
      if failed then FailedFor(db, id, tenant, error, now)
      else Completed(db, id, tenant, abstained, now)
  }

  // ---- What a result does to the row ----

  lemma {:induction false} Pow2Grows(n: nat)
    requires n >= 6
    ensures Pow2(n) >= 64
  {
    if n == 6 {
      assert Pow2(6) == 64;
    } else {
      Pow2Grows(n - 1);
    }
  }

  /** The seconds before the next try: doubling from one to thirty-two, then sixty. */
  lemma BackoffTable(attempts: nat)
    ensures Backoff(attempts) == if attempts < 6 then [1, 2, 4, 8, 16, 32][attempts] else 60
  {
    if attempts >= 6 {
      Pow2Grows(attempts);
    } else {
      assert Pow2(0) == 1 && Pow2(1) == 2 && Pow2(2) == 4 && Pow2(3) == 8 && Pow2(4) == 16 && Pow2(5) == 32;
    }
  }

  /** A verdict closes the job: failed when the pipeline says so, and otherwise complete; its payload is gone. */
  lemma VerdictOnRow(db: Db, id: JobId, tenant: string, attempts: nat, maxAttempts: int,
                     failed: bool, error: string, abstained: bool, now: int)
    requires Owned(db, id, tenant)
    ensures var after := Settled(db, id, tenant, attempts, maxAttempts, Finishes(failed, error, abstained), now);
      && OnlyRow(db, after, id) && PayloadOf(after, id, tenant).None?
      && after.jobs[id].completedAt == Some(now)
      && (after.jobs[id].status == Failed <==> failed)
      && (after.jobs[id].status == Status.Complete <==> !failed)
      && (failed ==> StoredError(after.jobs[id].lastError, error))
      && (!failed ==> after.jobs[id].needsReview == abstained)
  {
  }

  /** A raise sends the job back, to be claimed again after the delay; on the last attempt it fails. */
  lemma RaiseOnRow(db: Db, id: JobId, tenant: string, attempts: nat, maxAttempts: int, error: string, now: int,
                   t: int, stale: int)
    requires Owned(db, id, tenant)
    ensures var after := Settled(db, id, tenant, attempts, maxAttempts, Throws(error), now);
      && OnlyRow(db, after, id) && StoredError(after.jobs[id].lastError, error)
      && (if attempts < maxAttempts
          then && after.payloads == db.payloads && after.jobs[id].status == Queued
               && after.jobs[id].availableAt == now + (if attempts < 6 then [1, 2, 4, 8, 16, 32][attempts] else 60)
               && (Claimable(after.jobs[id], t, stale) <==> t >= after.jobs[id].availableAt)
          else after.jobs[id].status == Failed && PayloadOf(after, id, tenant).None?)
  {
    BackoffTable(attempts);
  }

  /** For a job that is not the tenant's nothing happens, except that a payload of the tenant's goes with it. */
  lemma ForeignJobUntouched(db: Db, id: JobId, tenant: string, attempts: nat, maxAttempts: int, r: PipelineResult,
                            now: int)
    requires !Owned(db, id, tenant)
    ensures Settled(db, id, tenant, attempts, maxAttempts, r, now).jobs == db.jobs
    ensures PayloadOf(db, id, tenant).None? ==> Settled(db, id, tenant, attempts, maxAttempts, r, now) == db
  {
  }

  class JobWorkerPool {
    const maxAttempts: int

    constructor (maxAttempts: int)
      ensures this.maxAttempts == maxAttempts
    {
      this.maxAttempts := maxAttempts;
    }

    method Process(queue: JobQueue, claimed: ClaimedJob, r: PipelineResult, now: int)
      modifies queue
      ensures queue.State()
           == Settled(old(queue.State()), claimed.jobId, claimed.tenant, claimed.attempts, maxAttempts, r, now)
    {
      match r {
        case Throws(error) =>
          if claimed.attempts < maxAttempts {
            queue.RetryLater(claimed.jobId, claimed.tenant, error, Backoff(claimed.attempts), now);
          } else {
            queue.Fail(claimed.jobId, claimed.tenant, error, now);
          }
        case Finishes(failed, error, abstained) =>
          if failed {
            queue.Fail(claimed.jobId, claimed.tenant, error, now);
          } else {
            queue.Complete(claimed.jobId, claimed.tenant, abstained, now);
          }
      }
    }
  }
}
