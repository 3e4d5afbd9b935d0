/**
 Runs of many workers on one job table: leases fence out stale updates, attempts are accounted for,
 and `done` is terminal.

 A worker claims a batch only when the one before is finished, and owner names are never reused.
 The counters beside the table record history; no step reads them.
 */
module JobQueueProofs {
  import opened JobQueue
  import opened Seqs
  import opened Wrappers

  /** A claimed job and the number of the lease it was claimed under. */
  datatype Held = Held(job: Claimed, lease: nat)

  datatype Worker = Worker(alive: bool, batch: seq<Held>)

  datatype System = System(rows: Rows, tallies: Tallies, workers: map<Owner, Worker>)

  datatype Outcome = Success | Failure(burn: bool, runAfter: int)

  datatype Event =
    | Insert(id: Id, maxAttempts: int, runAfter: int)
    | Spawn(owner: Owner)
    | Claim(owner: Owner, ids: seq<Id>, now: int, leaseUntil: int)
    | Finish(owner: Owner, outcome: Outcome)
    | Die(owner: Owner)
    | RetryFailed(failed: set<Id>, now: int)

  ghost predicate ValidEvent(s: System, e: Event) {
    match e
    case Insert(id, maxAttempts, _) => id !in s.rows && maxAttempts >= 1
    case Spawn(w) => w !in s.workers
    case Claim(w, ids, now, _) =>
      && w in s.workers && s.workers[w].alive && s.workers[w].batch == []
      && Distinct(ids) && forall id | id in ids :: id in s.rows && Eligible(s.rows[id], now)
    case Finish(w, _) => w in s.workers && s.workers[w].alive && s.workers[w].batch != []
    case Die(w) => w in s.workers
    case RetryFailed(_, _) => true
  }

  function Batch(jobs: seq<Claimed>, tallies: Tallies): seq<Held> {
    seq(|jobs|, k requires 0 <= k < |jobs| => Held(jobs[k], if jobs[k].id in tallies then tallies[jobs[k].id].claims else 0))
  }

  function FinishRows(rows: Rows, job: Claimed, outcome: Outcome): Rows {
    match outcome
    case Success => Completed(rows, job)
    case Failure(burn, runAfter) => Retried(rows, job, burn, runAfter)
  }

  function FinishTallies(s: System, job: Claimed, outcome: Outcome): Tallies {
    match outcome
    case Success => s.tallies
    case Failure(burn, _) => RetryTallies(s.rows, s.tallies, job, burn)
  }

  ghost function Next(s: System, e: Event): System
    requires ValidEvent(s, e)
  {
    match e
    case Insert(id, maxAttempts, runAfter) =>
      s.(rows := s.rows[id := Job(Pending, 0, maxAttempts, runAfter, None, None)], tallies := s.tallies[id := Tally(0, 0, 0)])
    case Spawn(w) => s.(workers := s.workers[w := Worker(true, [])])
    case Claim(w, ids, _, leaseUntil) =>
      var rows := ClaimedRows(s.rows, ids, w, leaseUntil);
      var tallies := ClaimTallies(s.rows, s.tallies, ids);
      System(rows, tallies, s.workers[w := Worker(true, Batch(Snapshots(rows, ids, w), tallies))])
    case Finish(w, outcome) =>
      var batch := s.workers[w].batch;
      System(FinishRows(s.rows, batch[0].job, outcome), FinishTallies(s, batch[0].job, outcome),
             s.workers[w := Worker(true, batch[1..])])
    case Die(w) => s.(workers := s.workers[w := Worker(false, [])])
    case RetryFailed(ids, now) => s.(rows := Reset(s.rows, ids, now), tallies := ResetTallies(s.rows, s.tallies, ids))
  }

  // Invariants

  /** What a held job knows: its lease number is current exactly while nobody claimed after it. */
  predicate HeldBy(s: System, w: Owner, h: Held)
    requires s.rows.Keys == s.tallies.Keys
  {
    && h.job.owner == w && h.job.id in s.rows && h.job.maxAttempts == s.rows[h.job.id].maxAttempts
    && 0 < h.lease <= s.tallies[h.job.id].claims
    && (s.rows[h.job.id].status == Running ==>
          (s.rows[h.job.id].owner == Some(w) <==> h.lease == s.tallies[h.job.id].claims))
    && (Matches(s.rows, h.job) ==> h.job.attempts == s.rows[h.job.id].attempts)
  }

  ghost predicate Holds(s: System, w: Owner, batch: seq<Held>)
    requires s.rows.Keys == s.tallies.Keys
  {
    && (forall k | 0 <= k < |batch| :: HeldBy(s, w, batch[k]))
    && forall i, j | 0 <= i < j < |batch| :: batch[i].job.id != batch[j].job.id
  }

  /** A running row is owned by a worker that has been seen. */
  ghost predicate Owned(s: System) {
    forall id | id in s.rows && s.rows[id].status == Running :: s.rows[id].owner.Some? && s.rows[id].owner.value in s.workers
  }

  ghost predicate Inv(s: System) {
    && AllAccounted(s.rows, s.tallies) && Owned(s)
    && forall w | w in s.workers :: Holds(s, w, s.workers[w].batch)
  }

  // One step

  lemma Keys(s: System, e: Event)
    requires s.rows.Keys == s.tallies.Keys && ValidEvent(s, e)
    ensures Next(s, e).rows.Keys == Next(s, e).tallies.Keys && s.rows.Keys <= Next(s, e).rows.Keys
  {
    match e
    case Claim(w, ids, _, leaseUntil) =>
      assert ClaimedRows(s.rows, ids, w, leaseUntil).Keys == s.rows.Keys;
      assert ClaimTallies(s.rows, s.tallies, ids).Keys == s.tallies.Keys;
    case RetryFailed(ids, now) =>
      assert Reset(s.rows, ids, now).Keys == s.rows.Keys;
      assert ResetTallies(s.rows, s.tallies, ids).Keys == s.tallies.Keys;
    case _ =>
  }

  /**
   Fencing: the update a live worker sends for the job at the head of its batch takes effect exactly
   when that job is running under the very lease it was claimed with, and then the attempts it
   writes back from are the row's own; under any other lease it changes nothing.
   */
  lemma Fencing(s: System, w: Owner, outcome: Outcome)
    requires Inv(s) && ValidEvent(s, Finish(w, outcome))
    ensures var h := s.workers[w].batch[0];
            && h.job.id in s.rows
            && (Matches(s.rows, h.job) <==> s.rows[h.job.id].status == Running && h.lease == s.tallies[h.job.id].claims)
            && (Matches(s.rows, h.job) ==> h.job.attempts == s.rows[h.job.id].attempts && h.job.maxAttempts == s.rows[h.job.id].maxAttempts)
            && (h.lease != s.tallies[h.job.id].claims ==> Next(s, Finish(w, outcome)).rows == s.rows)
            && (Matches(s.rows, h.job) ==> Next(s, Finish(w, outcome)).rows[h.job.id].status != Running)
  {
    assert HeldBy(s, w, s.workers[w].batch[0]);
  }

  lemma NextAccounted(s: System, e: Event)
    requires Inv(s) && ValidEvent(s, e)
    ensures AllAccounted(Next(s, e).rows, Next(s, e).tallies)
  {
    match e
    case Finish(w, outcome) =>
      var job := s.workers[w].batch[0].job;
      Fencing(s, w, outcome);
      CompleteAccounted(s.rows, s.tallies, job);
      if outcome.Failure? {
        RetryAccounted(s.rows, s.tallies, job, outcome.burn, outcome.runAfter);
      }
    case Claim(w, ids, now, leaseUntil) => ClaimAccounted(s.rows, s.tallies, ids, w, now, leaseUntil);
    case RetryFailed(ids, now) => ResetAccounted(s.rows, s.tallies, ids, now);
    case _ =>
  }

  lemma NextOwned(s: System, e: Event)
    requires Inv(s) && ValidEvent(s, e)
    ensures Owned(Next(s, e))
  {
    var t := Next(s, e);
    forall id | id in t.rows && t.rows[id].status == Running ensures t.rows[id].owner.Some? && t.rows[id].owner.value in t.workers {
      if id in s.rows && s.rows[id].status == Running {
        assert s.rows[id].owner.value in s.workers;
      }
    }
  }

  /** A step that leaves the worker's batch alone keeps what it holds. */
  lemma HeldStays(s: System, e: Event, w: Owner, h: Held)
    requires Inv(s) && ValidEvent(s, e) && HeldBy(s, w, h)
    requires e.Claim? ==> e.owner != w
    ensures Next(s, e).rows.Keys == Next(s, e).tallies.Keys && HeldBy(Next(s, e), w, h)
  {
    Keys(s, e);
    match e
    case Finish(v, outcome) => Fencing(s, v, outcome);
    case _ =>
  }

  lemma ClaimHeld(s: System, e: Event)
    requires Inv(s) && ValidEvent(s, e) && e.Claim?
    ensures Next(s, e).rows.Keys == Next(s, e).tallies.Keys && Holds(Next(s, e), e.owner, Next(s, e).workers[e.owner].batch)
  {
    Keys(s, e);
    var t := Next(s, e);
    var batch := t.workers[e.owner].batch;
    assert |batch| == |e.ids|;
    forall k | 0 <= k < |batch| ensures batch[k].job.id == e.ids[k] && HeldBy(t, e.owner, batch[k]) {
      assert e.ids[k] in e.ids;
    }
  }

  lemma NextHolds(s: System, e: Event, w: Owner)
    requires Inv(s) && ValidEvent(s, e) && w in Next(s, e).workers
    ensures Next(s, e).rows.Keys == Next(s, e).tallies.Keys && Holds(Next(s, e), w, Next(s, e).workers[w].batch)
  {
    Keys(s, e);
    var t := Next(s, e);
    var batch := t.workers[w].batch;
    if e.Claim? && e.owner == w {
      ClaimHeld(s, e);
    } else if batch != [] {
      assert w in s.workers && Holds(s, w, s.workers[w].batch);
      var past := s.workers[w].batch;
      assert batch == past || (e.Finish? && e.owner == w && batch == past[1..]);
      forall k | 0 <= k < |batch| ensures HeldBy(t, w, batch[k]) {
        assert batch[k] == past[if batch == past then k else k + 1];
        HeldStays(s, e, w, batch[k]);
      }
    }
  }

  lemma NextKeepsInvariant(s: System, e: Event)
    requires Inv(s) && ValidEvent(s, e)
    ensures Inv(Next(s, e))
  {
    NextAccounted(s, e);
    NextOwned(s, e);
    forall w | w in Next(s, e).workers ensures Holds(Next(s, e), w, Next(s, e).workers[w].batch) {
      NextHolds(s, e, w);
    }
  }

  // Whole runs

  const START := System(map[], map[], map[])

  ghost predicate ValidRun(s: System, es: seq<Event>)
    decreases |es|
  {
    es == [] || (ValidEvent(s, es[0]) && ValidRun(Next(s, es[0]), es[1..]))
  }

  ghost function Run(s: System, es: seq<Event>): System
    requires ValidRun(s, es)
    decreases |es|
  {
    if es == [] then s else Run(Next(s, es[0]), es[1..])
  }

  lemma {:induction false} RunKeepsInvariant(s: System, es: seq<Event>)
    requires Inv(s) && ValidRun(s, es)
    ensures Inv(Run(s, es))
    decreases |es|
  {
    if es != [] {
      NextKeepsInvariant(s, es[0]);
      RunKeepsInvariant(Next(s, es[0]), es[1..]);
    }
  }

  lemma StartHolds()
    ensures Inv(START)
  {
  }

  /** One for the lease running, or done. */
  function Current(job: Job): nat {
    if job.status == Running || job.status == Done then 1 else 0
  }

  /**
   Attempt accounting, in every state of every run: `attempts` is burned failures plus takeovers
   plus one for the lease running or done; a failed job has used its budget; and a job is past its
   budget exactly if it was taken over more often than the failures and the lease leave room for.
   */
  lemma AttemptsAreAccountedFor(es: seq<Event>, id: Id)
    requires ValidRun(START, es) && id in Run(START, es).rows
    ensures var s := Run(START, es);
            id in s.tallies
            && var job := s.rows[id];
               var t := s.tallies[id];
               && job.attempts == t.burned + t.takeovers + Current(job)
               && (job.status == Failed ==> job.attempts >= job.maxAttempts && t.burned >= 1)
               && t.burned + Current(job) <= job.maxAttempts
               && (job.attempts > job.maxAttempts <==> t.takeovers > job.maxAttempts - (t.burned + Current(job)))
  {
    StartHolds();
    RunKeepsInvariant(START, es);
    assert Accounted(Run(START, es).rows[id], Run(START, es).tallies[id]);
  }

  lemma DoneStays(s: System, e: Event, id: Id)
    requires Inv(s) && ValidEvent(s, e) && id in s.rows && s.rows[id].status == Done
    ensures id in Next(s, e).rows && Next(s, e).rows[id] == s.rows[id]
  {
  }

  /** `done` is terminal. */
  lemma {:induction false} DoneIsForever(s: System, es: seq<Event>, id: Id)
    requires Inv(s) && ValidRun(s, es) && id in s.rows && s.rows[id].status == Done
    ensures id in Run(s, es).rows && Run(s, es).rows[id] == s.rows[id]
    decreases |es|
  {
    if es != [] {
      DoneStays(s, es[0], id);
      NextKeepsInvariant(s, es[0]);
      DoneIsForever(Next(s, es[0]), es[1..], id);
    }
  }

  lemma FailedStays(s: System, e: Event, id: Id)
    requires Inv(s) && ValidEvent(s, e) && id in s.rows && s.rows[id].status == Failed
    requires e.RetryFailed? ==> id !in e.failed
    ensures id in Next(s, e).rows && Next(s, e).rows[id] == s.rows[id] && Next(s, e).tallies[id] == s.tallies[id]
  {
  }

  /** A failed job stays as it is until it is listed for a retry, whatever stale workers still send. */
  lemma {:induction false} FailedUntilRetried(s: System, es: seq<Event>, id: Id)
    requires Inv(s) && ValidRun(s, es) && id in s.rows && s.rows[id].status == Failed
    requires forall e | e in es && e.RetryFailed? :: id !in e.failed
    ensures id in Run(s, es).rows && Run(s, es).rows[id] == s.rows[id]
    decreases |es|
  {
    if es != [] {
      FailedStays(s, es[0], id);
      NextKeepsInvariant(s, es[0]);
      FailedUntilRetried(Next(s, es[0]), es[1..], id);
    }
  }

  /** A retry of failed jobs gives each its whole budget back and touches no other job. */
  lemma RetryStartsOver(s: System, ids: set<Id>, now: int, id: Id)
    requires Inv(s) && id in s.rows
    ensures var t := Next(s, RetryFailed(ids, now));
            id in t.rows && id in t.tallies
            && if id in ids && s.rows[id].status == Failed
               then Eligible(t.rows[id], now) && t.rows[id].attempts == 0 && t.tallies[id].burned == 0
               else t.rows[id] == s.rows[id] && t.tallies[id] == s.tallies[id]
  {
    Keys(s, RetryFailed(ids, now));
  }

  // Takeovers are not bounded

  lemma Step(s: System, e: Event, es: seq<Event>)
    requires ValidEvent(s, e) && ValidRun(Next(s, e), es)
    ensures ValidRun(s, [e] + es) && Run(s, [e] + es) == Run(Next(s, e), es)
  {
    assert ([e] + es)[1..] == es;
  }

  /** One worker leases the job, and dies. */
  lemma DiesHolding(s: System, id: Id, w: Owner, now: int) returns (t: System)
    requires Inv(s) && id in s.rows && Eligible(s.rows[id], now) && w !in s.workers
    ensures ValidEvent(s, Spawn(w))
    ensures ValidEvent(Next(s, Spawn(w)), Claim(w, [id], now, now))
    ensures t == Next(Next(Next(s, Spawn(w)), Claim(w, [id], now, now)), Die(w)) && Inv(t)
    ensures t.workers.Keys == s.workers.Keys + {w} && id in t.rows
    ensures t.rows[id].status == Running && t.rows[id].attempts == s.rows[id].attempts + 1 && Eligible(t.rows[id], now + 1)
  {
    var a := Next(s, Spawn(w));
    NextKeepsInvariant(s, Spawn(w));
    var b := Next(a, Claim(w, [id], now, now));
    NextKeepsInvariant(a, Claim(w, [id], now, now));
    NextKeepsInvariant(b, Die(w));
    t := Next(b, Die(w));
    assert id in [id];
  }

  /**
   A job whose workers keep dying is taken over again and again: its attempts pass any bound, its
   budget included, and it never fails.
   */
  lemma {:induction false} DyingWorkersNeverFailAJob(s: System, id: Id, owners: seq<Owner>, now: int) returns (es: seq<Event>)
    requires Inv(s) && id in s.rows && Eligible(s.rows[id], now)
    requires owners != [] && Distinct(owners) && forall w | w in owners :: w !in s.workers
    ensures ValidRun(s, es) && id in Run(s, es).rows
    ensures Run(s, es).rows[id].attempts == s.rows[id].attempts + |owners| && Run(s, es).rows[id].status == Running
    decreases |owners|
  {
    var w := owners[0];
    var t := DiesHolding(s, id, w, now);
    var rest: seq<Event> := [];
    if |owners| > 1 {
      forall v | v in owners[1..] ensures v !in t.workers {
        assert v in owners;
      }
      rest := DyingWorkersNeverFailAJob(t, id, owners[1..], now + 1);
    }
    var a := Next(s, Spawn(w));
    var b := Next(a, Claim(w, [id], now, now));
    NextKeepsInvariant(s, Spawn(w));
    NextKeepsInvariant(a, Claim(w, [id], now, now));
    Step(b, Die(w), rest);
    Step(a, Claim(w, [id], now, now), [Die(w)] + rest);
    Step(s, Spawn(w), [Claim(w, [id], now, now)] + ([Die(w)] + rest));
    es := [Spawn(w)] + ([Claim(w, [id], now, now)] + ([Die(w)] + rest));
  }
}
