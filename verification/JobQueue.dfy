/**
 The leased job table and its updates (apps/core/neuromem_core/worker.py:49-139, 547-573;
 apps/core/neuromem_core/app.py:502-545; apps/core/neuromem_core/models.py:587-641).

 Every database transaction is one step. Clock readings, the rows a query returned and the delay
 before a retry are inputs.
 */
module JobQueue {
  import opened Seqs
  import opened Wrappers

  type Id = string
  type Owner = string

  datatype Status = Pending | Running | Retry | Failed | Done

  datatype Job = Job(status: Status, attempts: int, maxAttempts: int, runAfter: int, owner: Option<Owner>, leaseExpires: Option<int>)

  /** What a worker keeps of a job it claimed; it is never read again from the table. */
  datatype Claimed = Claimed(id: Id, attempts: int, maxAttempts: int, owner: Owner)

  type Rows = map<Id, Job>

  /** The `where` clause of claim_jobs. */
  predicate Eligible(job: Job, now: int) {
    || ((job.status == Pending || job.status == Retry) && job.runAfter <= now)
    || (job.status == Running && job.leaseExpires.Some? && job.leaseExpires.value < now)
  }

  /** The `where` clause of complete_job and retry_job. */
  predicate Matches(rows: Rows, job: Claimed) {
    job.id in rows && rows[job.id].status == Running && rows[job.id].owner == Some(job.owner)
  }

  function Leased(job: Job, owner: Owner, leaseUntil: int): Job {
    job.(status := Running, attempts := job.attempts + 1, owner := Some(owner), leaseExpires := Some(leaseUntil))
  }

  function ClaimedRows(rows: Rows, ids: seq<Id>, owner: Owner, leaseUntil: int): Rows {
    map id | id in rows :: if id in ids then Leased(rows[id], owner, leaseUntil) else rows[id]
  }

  function Snapshots(rows: Rows, ids: seq<Id>, owner: Owner): seq<Claimed>
    requires forall id | id in ids :: id in rows
  {
    seq(|ids|, k requires 0 <= k < |ids| => Claimed(ids[k], rows[ids[k]].attempts, rows[ids[k]].maxAttempts, owner))
  }

  function Completed(rows: Rows, job: Claimed): Rows {
    if Matches(rows, job) then rows[job.id := rows[job.id].(status := Done, owner := None, leaseExpires := None)] else rows
  }

  function Returned(job: Job, attempts: int, failed: bool, runAfter: int): Job {
    job.(status := if failed then Failed else Retry, attempts := attempts, runAfter := runAfter, owner := None, leaseExpires := None)
  }

  /** A transient failure gives the attempt back; another failure burns it. */
  function Retried(rows: Rows, job: Claimed, burn: bool, runAfter: int): Rows {
    var attempts := if burn then job.attempts else if job.attempts - 1 > 0 then job.attempts - 1 else 0;
    if Matches(rows, job)
    then rows[job.id := Returned(rows[job.id], attempts, burn && attempts >= job.maxAttempts, runAfter)]
    else rows
  }

  function Reset(rows: Rows, ids: set<Id>, now: int): Rows {
    map id | id in rows ::
      if id in ids && rows[id].status == Failed
      then rows[id].(status := Retry, attempts := 0, runAfter := now, owner := None, leaseExpires := None)
      else rows[id]
  }

  // Accounts

  /** History of a job: `claims` counts leases ever, `burned` and `takeovers` since insertion or the last reset. */
  datatype Tally = Tally(claims: nat, burned: nat, takeovers: nat)

  type Tallies = map<Id, Tally>

  function ClaimTally(t: Tally, job: Job): Tally {
    t.(claims := t.claims + 1, takeovers := t.takeovers + if job.status == Running then 1 else 0)
  }

  function ClaimTallies(rows: Rows, tallies: Tallies, ids: seq<Id>): Tallies {
    map id | id in tallies :: if id in ids && id in rows then ClaimTally(tallies[id], rows[id]) else tallies[id]
  }

  function RetryTallies(rows: Rows, tallies: Tallies, job: Claimed, burn: bool): Tallies {
    if Matches(rows, job) && job.id in tallies && burn
    then tallies[job.id := tallies[job.id].(burned := tallies[job.id].burned + 1)]
    else tallies
  }

  function ResetTallies(rows: Rows, tallies: Tallies, ids: set<Id>): Tallies {
    map id | id in tallies ::
      if id in ids && id in rows && rows[id].status == Failed then tallies[id].(burned := 0, takeovers := 0) else tallies[id]
  }

  /** The accounts of one job. */
  predicate Accounted(job: Job, t: Tally) {
    && job.maxAttempts >= 1
    && job.attempts == t.burned + t.takeovers + (if job.status == Running || job.status == Done then 1 else 0)
    && (if job.status == Failed then 1 <= t.burned <= job.maxAttempts <= job.attempts else t.burned < job.maxAttempts)
    && (job.status == Running <==> job.owner.Some?)
    && (job.status == Running ==> t.claims > 0)
  }

  ghost predicate AllAccounted(rows: Rows, tallies: Tallies) {
    && rows.Keys == tallies.Keys
    && forall id | id in rows :: Accounted(rows[id], tallies[id])
  }

  /** The snapshot a worker holds is the row's, if the row is still under its lease. */
  predicate Fenced(rows: Rows, job: Claimed) {
    Matches(rows, job) ==> job.attempts == rows[job.id].attempts && job.maxAttempts == rows[job.id].maxAttempts
  }

  lemma ClaimAccounted(rows: Rows, tallies: Tallies, ids: seq<Id>, owner: Owner, now: int, leaseUntil: int)
    requires AllAccounted(rows, tallies) && forall id | id in ids :: id in rows && Eligible(rows[id], now)
    ensures AllAccounted(ClaimedRows(rows, ids, owner, leaseUntil), ClaimTallies(rows, tallies, ids))
  {
    var after := ClaimedRows(rows, ids, owner, leaseUntil);
    assert after.Keys == rows.Keys && ClaimTallies(rows, tallies, ids).Keys == tallies.Keys;
    forall id | id in after ensures Accounted(after[id], ClaimTallies(rows, tallies, ids)[id]) {
      assert Accounted(rows[id], tallies[id]);
    }
  }

  lemma CompleteAccounted(rows: Rows, tallies: Tallies, job: Claimed)
    requires AllAccounted(rows, tallies)
    ensures AllAccounted(Completed(rows, job), tallies)
  {
    if Matches(rows, job) {
      assert Accounted(rows[job.id], tallies[job.id]);
    }
  }

  lemma RetryAccounted(rows: Rows, tallies: Tallies, job: Claimed, burn: bool, runAfter: int)
    requires AllAccounted(rows, tallies) && Fenced(rows, job)
    ensures AllAccounted(Retried(rows, job, burn, runAfter), RetryTallies(rows, tallies, job, burn))
  {
    if Matches(rows, job) {
      assert Accounted(rows[job.id], tallies[job.id]);
    }
  }

  lemma ResetAccounted(rows: Rows, tallies: Tallies, ids: set<Id>, now: int)
    requires AllAccounted(rows, tallies)
    ensures AllAccounted(Reset(rows, ids, now), ResetTallies(rows, tallies, ids))
  {
    var after := Reset(rows, ids, now);
    assert after.Keys == rows.Keys && ResetTallies(rows, tallies, ids).Keys == tallies.Keys;
    forall id | id in after ensures Accounted(after[id], ResetTallies(rows, tallies, ids)[id]) {
      assert Accounted(rows[id], tallies[id]);
    }
  }

  class JobTable {
    var rows: Rows
    ghost var tallies: Tallies

    ghost predicate Valid()
      reads this
    {
      AllAccounted(rows, tallies)
    }

    constructor ()
      ensures Valid() && rows == map[] && tallies == map[]
    {
      rows, tallies := map[], map[];
    }

    /** Leases the rows the query selected, in order. */
    method ClaimJobs(ids: seq<Id>, owner: Owner, now: int, leaseUntil: int) returns (claimed: seq<Claimed>)
      requires Valid() && Distinct(ids) && forall id | id in ids :: id in rows && Eligible(rows[id], now)
      modifies this
      ensures Valid() && tallies == ClaimTallies(old(rows), old(tallies), ids)
      ensures rows == ClaimedRows(old(rows), ids, owner, leaseUntil)
      ensures claimed == Snapshots(rows, ids, owner)
    {
      claimed := [];
      var k := 0;
      while k < |ids|
        invariant 0 <= k <= |ids|
        invariant rows.Keys == old(rows).Keys && tallies == old(tallies)
        invariant forall id | id in rows :: rows[id] == if id in ids[..k] then Leased(old(rows)[id], owner, leaseUntil) else old(rows)[id]
        invariant |claimed| == k
        invariant forall i | 0 <= i < k :: ids[i] in rows && claimed[i] == Claimed(ids[i], rows[ids[i]].attempts, rows[ids[i]].maxAttempts, owner)
      {
        var id := ids[k];
        assert id !in ids[..k];
        rows := rows[id := Leased(rows[id], owner, leaseUntil)];
        claimed := claimed + [Claimed(id, rows[id].attempts, rows[id].maxAttempts, owner)];
        PrefixGrows(ids, k);
        k := k + 1;
      }
      WholePrefix(ids);
      assert rows == ClaimedRows(old(rows), ids, owner, leaseUntil);
      tallies := ClaimTallies(old(rows), tallies, ids);
      ClaimAccounted(old(rows), old(tallies), ids, owner, now, leaseUntil);
    }

    /** The row is done, if it is still under the lease of this job. */
    method CompleteJob(job: Claimed)
      requires Valid()
      modifies this
      ensures Valid() && tallies == old(tallies)
      ensures rows == Completed(old(rows), job)
    {
      CompleteAccounted(rows, tallies, job);
      if job.id in rows && rows[job.id].status == Running && rows[job.id].owner == Some(job.owner) {
        rows := rows[job.id := rows[job.id].(status := Done, owner := None, leaseExpires := None)];
      }
    }

    /** The row waits for a retry or has failed, if it is still under the lease of this job. */
    method RetryJob(job: Claimed, burn: bool, runAfter: int)
      requires Valid() && Fenced(rows, job)
      modifies this
      ensures Valid() && tallies == RetryTallies(old(rows), old(tallies), job, burn)
      ensures rows == Retried(old(rows), job, burn, runAfter)
    {
      RetryAccounted(rows, tallies, job, burn, runAfter);
      tallies := RetryTallies(rows, tallies, job, burn);
      var attempts := job.attempts;
      if !burn {
        attempts := if attempts - 1 > 0 then attempts - 1 else 0;
      }
      var failed := burn && attempts >= job.maxAttempts;
      if job.id in rows && rows[job.id].status == Running && rows[job.id].owner == Some(job.owner) {
        rows := rows[job.id := Returned(rows[job.id], attempts, failed, runAfter)];
      }
    }

    /** Puts the listed failed jobs back and counts them. */
    method RetryFailedJobs(ids: set<Id>, now: int) returns (retried: nat)
      requires Valid()
      modifies this
      ensures Valid() && tallies == ResetTallies(old(rows), old(tallies), ids)
      ensures rows == Reset(old(rows), ids, now)
      ensures retried == |set id | id in ids && id in old(rows) && old(rows)[id].status == Failed|
    {
      ResetAccounted(rows, tallies, ids, now);
      tallies := ResetTallies(rows, tallies, ids);
      var affected := set id | id in ids && id in rows && rows[id].status == Failed;
      rows := Reset(rows, ids, now);
      retried := |affected|;
    }
  }
}
