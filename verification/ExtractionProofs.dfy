/**
 Claim extraction is safe to run again: what every run of extractions keeps, and what a repeated
 transaction does.
 */
module ExtractionProofs {
  import opened Extraction
  import opened Wrappers

  // The invariant

  ghost predicate UniqueClaims(claims: seq<Claim>) {
    forall i, j | 0 <= i < j < |claims| ::
      && claims[i].id != claims[j].id
      && !SameNormalized(claims[i], claims[j].project, claims[j].normalized)
      && !SameOrdinal(claims[i], claims[j].job, claims[j].ordinal)
  }

  ghost predicate HasClaim(claims: seq<Claim>, id: Id) {
    exists i | 0 <= i < |claims| :: claims[i].id == id
  }

  ghost predicate HasSource(db: Db, claim: Id) {
    exists record, segment :: SourceKey(claim, record, segment) in db.sources
  }

  /** A job belongs to one project, as the foreign key of `extraction_job_id` demands. */
  ghost predicate AtHome(claims: seq<Claim>, home: Id -> Id) {
    forall i | 0 <= i < |claims| :: claims[i].project == home(claims[i].job)
  }

  ghost predicate References(db: Db) {
    && (forall k | k in db.sources :: HasClaim(db.claims, k.claim))
    && (forall k | k in db.edges :: HasClaim(db.claims, k.claim) && k.relation in RELATIONS)
    && (forall e | e in db.embeds :: HasClaim(db.claims, e.claim))
    && (forall e, f | e in db.embeds && f in db.embeds && e.claim == f.claim :: e == f)
  }

  ghost predicate Inv(db: Db, home: Id -> Id) {
    && UniqueClaims(db.claims) && AtHome(db.claims, home) && References(db)
    && forall i | 0 <= i < |db.claims| :: HasSource(db, db.claims[i].id)
  }

  /** Nothing is removed or changed. */
  ghost predicate Extends(db: Db, after: Db) {
    && |db.claims| <= |after.claims| && (forall i | 0 <= i < |db.claims| :: after.claims[i] == db.claims[i])
    && (forall k | k in db.sources :: k in after.sources && after.sources[k] == db.sources[k])
    && (forall k | k in db.edges :: k in after.edges && after.edges[k] == db.edges[k])
    && db.embeds <= after.embeds
  }

  // One candidate

  lemma InsertKeepsUnique(claims: seq<Claim>, ctx: Context, ordinal: nat, c: Candidate, id: Id, home: Id -> Id)
    requires UniqueClaims(claims) && AtHome(claims, home)
    requires ctx.project == home(ctx.job) && !Conflicts(claims, ctx, ordinal, c.normalized, id)
    ensures UniqueClaims(claims + [NewClaim(ctx, ordinal, c, id)]) && AtHome(claims + [NewClaim(ctx, ordinal, c, id)], home)
  {
  }

  lemma HasClaimGrows(claims: seq<Claim>, claim: Claim)
    ensures HasClaim(claims + [claim], claim.id)
    ensures forall k: Id | HasClaim(claims, k) :: HasClaim(claims + [claim], k)
  {
    var after := claims + [claim];
    assert after[|claims|].id == claim.id;
    forall k: Id | HasClaim(claims, k) ensures HasClaim(after, k) {
      var i :| 0 <= i < |claims| && claims[i].id == k;
      assert after[i].id == k;
    }
  }

  lemma InsertKeepsReferences(db: Db, ctx: Context, ordinal: nat, c: Candidate, id: Id)
    requires References(db) && !HasClaim(db.claims, id)
    ensures References(Inserted(db, ctx, ordinal, c, id))
  {
    HasClaimGrows(db.claims, NewClaim(ctx, ordinal, c, id));
  }

  lemma SourcedStays(db: Db, after: Db, claim: Id)
    requires HasSource(db, claim) && Extends(db, after)
    ensures HasSource(after, claim)
  {
    var record, segment :| SourceKey(claim, record, segment) in db.sources;
    assert SourceKey(claim, record, segment) in after.sources;
  }

  lemma SourceExtends(db: Db, ctx: Context, claim: Id, c: Candidate)
    ensures Extends(db, WithSource(db, ctx, claim, c)) && WithSource(db, ctx, claim, c).claims == db.claims
  {
  }

  lemma EmbedAndEdgeExtend(db: Db, ctx: Context, claim: Id, c: Candidate)
    ensures Extends(db, WithEdge(WithEmbed(db, ctx, claim), ctx, claim, c))
  {
  }

  lemma InsertExtends(db: Db, ctx: Context, ordinal: nat, c: Candidate, id: Id)
    ensures Extends(db, Inserted(db, ctx, ordinal, c, id))
  {
    var row := db.(claims := db.claims + [NewClaim(ctx, ordinal, c, id)]);
    var sourced := WithSource(row, ctx, id, c);
    SourceExtends(row, ctx, id, c);
    EmbedAndEdgeExtend(sourced, ctx, id, c);
    ExtendsTransitive(db, row, sourced);
    ExtendsTransitive(db, sourced, Inserted(db, ctx, ordinal, c, id));
  }

  lemma UpsertExtends(db: Db, ctx: Context, ordinal: nat, c: Candidate, id: Id)
    requires Upserted(db, ctx, ordinal, c, id).Some?
    ensures Extends(db, Upserted(db, ctx, ordinal, c, id).value)
  {
    if c.normalized != "" {
      if !Conflicts(db.claims, ctx, ordinal, c.normalized, id) {
        InsertExtends(db, ctx, ordinal, c, id);
      } else {
        SourceExtends(db, ctx, Resolved(db.claims, ctx, ordinal, c.normalized).value, c);
      }
    }
  }

  lemma InsertKeepsInvariant(db: Db, ctx: Context, ordinal: nat, c: Candidate, id: Id, home: Id -> Id)
    requires Inv(db, home) && ctx.project == home(ctx.job)
    requires c.normalized != "" && !Conflicts(db.claims, ctx, ordinal, c.normalized, id)
    ensures Inv(Inserted(db, ctx, ordinal, c, id), home)
  {
    var after := Inserted(db, ctx, ordinal, c, id);
    InsertKeepsUnique(db.claims, ctx, ordinal, c, id, home);
    InsertKeepsReferences(db, ctx, ordinal, c, id);
    UpsertExtends(db, ctx, ordinal, c, id);
    assert SourceKey(id, ctx.record, SourceSegment(ctx.segments, c.quote)) in after.sources;
    forall i | 0 <= i < |after.claims| ensures HasSource(after, after.claims[i].id) {
      if i < |db.claims| {
        SourcedStays(db, after, db.claims[i].id);
      }
    }
  }

  /** With a fresh identifier a conflict always leaves a row to settle on: the upsert never raises. */
  lemma UpsertSucceeds(db: Db, ctx: Context, ordinal: nat, c: Candidate, id: Id, home: Id -> Id)
    requires Inv(db, home) && ctx.project == home(ctx.job) && !HasClaim(db.claims, id)
    ensures Upserted(db, ctx, ordinal, c, id).Some?
  {
    if c.normalized != "" && Conflicts(db.claims, ctx, ordinal, c.normalized, id) {
      var i :| 0 <= i < |db.claims| && (db.claims[i].id == id || SameNormalized(db.claims[i], ctx.project, c.normalized)
                                        || SameOrdinal(db.claims[i], ctx.job, ordinal));
      assert db.claims[i].project == home(db.claims[i].job);
    }
  }

  lemma ResolvedExists(claims: seq<Claim>, ctx: Context, ordinal: nat, normalized: string)
    requires Resolved(claims, ctx, ordinal, normalized).Some?
    ensures HasClaim(claims, Resolved(claims, ctx, ordinal, normalized).value)
  {
  }

  lemma UpsertKeepsInvariant(db: Db, ctx: Context, ordinal: nat, c: Candidate, id: Id, home: Id -> Id)
    requires Inv(db, home) && ctx.project == home(ctx.job) && !HasClaim(db.claims, id)
    ensures Upserted(db, ctx, ordinal, c, id).Some? && Inv(Upserted(db, ctx, ordinal, c, id).value, home)
    ensures Extends(db, Upserted(db, ctx, ordinal, c, id).value)
  {
    UpsertSucceeds(db, ctx, ordinal, c, id, home);
    UpsertExtends(db, ctx, ordinal, c, id);
    if c.normalized != "" {
      if !Conflicts(db.claims, ctx, ordinal, c.normalized, id) {
        InsertKeepsInvariant(db, ctx, ordinal, c, id, home);
      } else {
        ResolvedExists(db.claims, ctx, ordinal, c.normalized);
        var after := Upserted(db, ctx, ordinal, c, id).value;
        forall i | 0 <= i < |after.claims| ensures HasSource(after, after.claims[i].id) {
          SourcedStays(db, after, db.claims[i].id);
        }
      }
    }
  }

  // One transaction

  /** The identifiers from `ordinal` on are new, and no two of them are equal. */
  ghost predicate Fresh(claims: seq<Claim>, ids: seq<Id>, ordinal: nat) {
    && (forall k | ordinal <= k < |ids| :: !HasClaim(claims, ids[k]))
    && forall i, j | 0 <= i < j < |ids| :: ids[i] != ids[j]
  }

  lemma ExtendsTransitive(a: Db, b: Db, c: Db)
    requires Extends(a, b) && Extends(b, c)
    ensures Extends(a, c)
  {
  }

  lemma FreshStays(db: Db, ctx: Context, candidates: seq<Candidate>, ids: seq<Id>, ordinal: nat)
    requires |ids| == |candidates| && ordinal < |candidates| && Fresh(db.claims, ids, ordinal)
    requires Upserted(db, ctx, ordinal, candidates[ordinal], ids[ordinal]).Some?
    ensures Fresh(Upserted(db, ctx, ordinal, candidates[ordinal], ids[ordinal]).value.claims, ids, ordinal + 1)
  {
    var after := Upserted(db, ctx, ordinal, candidates[ordinal], ids[ordinal]).value;
    forall k | ordinal + 1 <= k < |ids| ensures !HasClaim(after.claims, ids[k]) {
      forall i | 0 <= i < |after.claims| ensures after.claims[i].id != ids[k] {
        if i < |db.claims| {
          assert after.claims[i] == db.claims[i];
        }
      }
    }
  }

  /** The whole transaction commits, keeps the invariant and removes nothing. */
  lemma {:induction false} ExtractKeepsInvariant(db: Db, ctx: Context, candidates: seq<Candidate>, ids: seq<Id>, ordinal: nat, home: Id -> Id)
    requires Inv(db, home) && ctx.project == home(ctx.job)
    requires |ids| == |candidates| && ordinal <= |candidates| && Fresh(db.claims, ids, ordinal)
    ensures Extracted(db, ctx, candidates, ids, ordinal).Some?
    ensures Inv(Extracted(db, ctx, candidates, ids, ordinal).value, home) && Extends(db, Extracted(db, ctx, candidates, ids, ordinal).value)
    decreases |candidates| - ordinal
  {
    if ordinal < |candidates| {
      UpsertKeepsInvariant(db, ctx, ordinal, candidates[ordinal], ids[ordinal], home);
      FreshStays(db, ctx, candidates, ids, ordinal);
      var next := Upserted(db, ctx, ordinal, candidates[ordinal], ids[ordinal]).value;
      ExtractKeepsInvariant(next, ctx, candidates, ids, ordinal + 1, home);
      ExtendsTransitive(db, next, Extracted(next, ctx, candidates, ids, ordinal + 1).value);
    }
  }

  // Running again

  /** The candidate needs nothing more: a row answers for it, and the record is a source of that row. */
  ghost predicate Settled(db: Db, ctx: Context, ordinal: nat, c: Candidate) {
    c.normalized == ""
    || match Resolved(db.claims, ctx, ordinal, c.normalized)
       case None => false
       case Some(claim) => SourceKey(claim, ctx.record, SourceSegment(ctx.segments, c.quote)) in db.sources
  }

  /** No row added between the two states has the job and ordinal. */
  ghost predicate NotAdded(db: Db, after: Db, job: Id, ordinal: nat) {
    |db.claims| <= |after.claims| && forall i | |db.claims| <= i < |after.claims| :: !SameOrdinal(after.claims[i], job, ordinal)
  }

  lemma ResolvedStays(db: Db, after: Db, ctx: Context, ordinal: nat, normalized: string)
    requires UniqueClaims(after.claims) && Extends(db, after) && NotAdded(db, after, ctx.job, ordinal)
    requires Resolved(db.claims, ctx, ordinal, normalized).Some?
    ensures Resolved(after.claims, ctx, ordinal, normalized) == Resolved(db.claims, ctx, ordinal, normalized)
  {
    var same := ByOrdinal(db.claims, ctx.project, ctx.job, ordinal);
    if same.Some? {
      var i :| 0 <= i < |db.claims| && SameOrdinal(db.claims[i], ctx.job, ordinal) && db.claims[i].project == ctx.project && db.claims[i].id == same.value;
      assert SameOrdinal(after.claims[i], ctx.job, ordinal) && after.claims[i].project == ctx.project;
    } else {
      assert ByOrdinal(after.claims, ctx.project, ctx.job, ordinal).None?;
      var i :| 0 <= i < |db.claims| && SameNormalized(db.claims[i], ctx.project, normalized) && db.claims[i].id == ByNormalized(db.claims, ctx.project, normalized).value;
      assert SameNormalized(after.claims[i], ctx.project, normalized);
    }
  }

  lemma SettledStays(db: Db, after: Db, ctx: Context, ordinal: nat, c: Candidate)
    requires UniqueClaims(after.claims) && Extends(db, after) && NotAdded(db, after, ctx.job, ordinal)
    requires Settled(db, ctx, ordinal, c)
    ensures Settled(after, ctx, ordinal, c)
  {
    if c.normalized != "" {
      ResolvedStays(db, after, ctx, ordinal, c.normalized);
    }
  }

  lemma OrdinalIsUnique(claims: seq<Claim>, i: nat, project: Id, job: Id, ordinal: nat)
    requires UniqueClaims(claims) && i < |claims| && SameOrdinal(claims[i], job, ordinal) && claims[i].project == project
    ensures ByOrdinal(claims, project, job, ordinal) == Some(claims[i].id)
  {
  }

  lemma InsertSettles(db: Db, ctx: Context, ordinal: nat, c: Candidate, id: Id)
    requires UniqueClaims(Inserted(db, ctx, ordinal, c, id).claims)
    ensures Settled(Inserted(db, ctx, ordinal, c, id), ctx, ordinal, c)
  {
    var after := Inserted(db, ctx, ordinal, c, id);
    assert after.claims == db.claims + [NewClaim(ctx, ordinal, c, id)];
    OrdinalIsUnique(after.claims, |db.claims|, ctx.project, ctx.job, ordinal);
    assert Resolved(after.claims, ctx, ordinal, c.normalized) == Some(id);
    assert SourceKey(id, ctx.record, SourceSegment(ctx.segments, c.quote)) in after.sources;
  }

  lemma UpsertSettles(db: Db, ctx: Context, ordinal: nat, c: Candidate, id: Id, after: Db)
    requires Upserted(db, ctx, ordinal, c, id) == Some(after) && UniqueClaims(after.claims)
    ensures Settled(after, ctx, ordinal, c)
  {
    if c.normalized != "" {
      if !Conflicts(db.claims, ctx, ordinal, c.normalized, id) {
        InsertSettles(db, ctx, ordinal, c, id);
      } else {
        assert after.claims == db.claims;
      }
    }
  }

  /** An upsert adds at most one row, of its own job and ordinal. */
  lemma UpsertAddsOwn(db: Db, ctx: Context, ordinal: nat, c: Candidate, id: Id, after: Db, job: Id, k: nat)
    requires Upserted(db, ctx, ordinal, c, id) == Some(after) && (job != ctx.job || k != ordinal)
    ensures NotAdded(db, after, job, k)
  {
    assert after.claims == db.claims || after.claims == db.claims + [NewClaim(ctx, ordinal, c, id)];
  }

  lemma NotAddedTransitive(a: Db, b: Db, c: Db, job: Id, k: nat)
    requires NotAdded(a, b, job, k) && NotAdded(b, c, job, k) && Extends(b, c)
    ensures NotAdded(a, c, job, k)
  {
  }

  /** A settled candidate changes nothing, whatever identifier the upsert brings. */
  lemma SettledIsNoop(db: Db, ctx: Context, ordinal: nat, c: Candidate, id: Id)
    requires Settled(db, ctx, ordinal, c)
    ensures Upserted(db, ctx, ordinal, c, id) == Some(db)
  {
    if c.normalized != "" {
      assert Conflicts(db.claims, ctx, ordinal, c.normalized, id);
    }
  }

  ghost predicate SettledUpTo(db: Db, ctx: Context, candidates: seq<Candidate>, n: nat) {
    n <= |candidates| && forall k | 0 <= k < n :: Settled(db, ctx, k, candidates[k])
  }

  lemma EarlierStaySettled(db: Db, ctx: Context, candidates: seq<Candidate>, ordinal: nat, id: Id, next: Db)
    requires ordinal < |candidates| && Upserted(db, ctx, ordinal, candidates[ordinal], id) == Some(next)
    requires UniqueClaims(next.claims) && Extends(db, next) && SettledUpTo(db, ctx, candidates, ordinal)
    requires Settled(next, ctx, ordinal, candidates[ordinal])
    ensures SettledUpTo(next, ctx, candidates, ordinal + 1)
  {
    forall k | 0 <= k < ordinal ensures Settled(next, ctx, k, candidates[k]) {
      UpsertAddsOwn(db, ctx, ordinal, candidates[ordinal], id, next, ctx.job, k);
      SettledStays(db, next, ctx, k, candidates[k]);
    }
  }

  lemma {:induction false} ExtractSettles(db: Db, ctx: Context, candidates: seq<Candidate>, ids: seq<Id>, ordinal: nat, home: Id -> Id)
    requires Inv(db, home) && ctx.project == home(ctx.job)
    requires |ids| == |candidates| && ordinal <= |candidates| && Fresh(db.claims, ids, ordinal)
    requires SettledUpTo(db, ctx, candidates, ordinal)
    ensures Extracted(db, ctx, candidates, ids, ordinal).Some?
    ensures SettledUpTo(Extracted(db, ctx, candidates, ids, ordinal).value, ctx, candidates, |candidates|)
    decreases |candidates| - ordinal
  {
    if ordinal < |candidates| {
      UpsertKeepsInvariant(db, ctx, ordinal, candidates[ordinal], ids[ordinal], home);
      var next := Upserted(db, ctx, ordinal, candidates[ordinal], ids[ordinal]).value;
      UpsertSettles(db, ctx, ordinal, candidates[ordinal], ids[ordinal], next);
      FreshStays(db, ctx, candidates, ids, ordinal);
      EarlierStaySettled(db, ctx, candidates, ordinal, ids[ordinal], next);
      ExtractSettles(next, ctx, candidates, ids, ordinal + 1, home);
    }
  }

  lemma {:induction false} SettledExtractIsNoop(db: Db, ctx: Context, candidates: seq<Candidate>, ids: seq<Id>, ordinal: nat)
    requires |ids| == |candidates| && ordinal <= |candidates| && SettledUpTo(db, ctx, candidates, |candidates|)
    ensures Extracted(db, ctx, candidates, ids, ordinal) == Some(db)
    decreases |candidates| - ordinal
  {
    if ordinal < |candidates| {
      SettledIsNoop(db, ctx, ordinal, candidates[ordinal], ids[ordinal]);
      SettledExtractIsNoop(db, ctx, candidates, ids, ordinal + 1);
    }
  }

  // Whole runs

  datatype Attempt = Attempt(ctx: Context, candidates: seq<Candidate>, ids: seq<Id>)

  ghost predicate Valid(db: Db, x: Attempt, home: Id -> Id) {
    x.ctx.project == home(x.ctx.job) && |x.ids| == |x.candidates| && Fresh(db.claims, x.ids, 0)
  }

  function After(db: Db, x: Attempt): Db {
    if |x.ids| == |x.candidates| && Extracted(db, x.ctx, x.candidates, x.ids, 0).Some?
    then Extracted(db, x.ctx, x.candidates, x.ids, 0).value else db
  }

  ghost predicate ValidRun(db: Db, xs: seq<Attempt>, home: Id -> Id)
    decreases |xs|
  {
    xs == [] || (Valid(db, xs[0], home) && ValidRun(After(db, xs[0]), xs[1..], home))
  }

  function Run(db: Db, xs: seq<Attempt>): Db
    decreases |xs|
  {
    if xs == [] then db else Run(After(db, xs[0]), xs[1..])
  }

  /** The same job run again on the same candidates; identifiers, peers and profile may differ. */
  predicate Repeats(x: Attempt, y: Attempt) {
    && x.ctx.project == y.ctx.project && x.ctx.job == y.ctx.job && x.ctx.record == y.ctx.record
    && x.ctx.segments == y.ctx.segments && x.candidates == y.candidates
  }

  lemma {:induction false} RunKeepsInvariant(db: Db, xs: seq<Attempt>, home: Id -> Id)
    requires Inv(db, home) && ValidRun(db, xs, home)
    ensures Inv(Run(db, xs), home) && Extends(db, Run(db, xs))
    decreases |xs|
  {
    if xs != [] {
      ExtractKeepsInvariant(db, xs[0].ctx, xs[0].candidates, xs[0].ids, 0, home);
      RunKeepsInvariant(After(db, xs[0]), xs[1..], home);
      ExtendsTransitive(db, After(db, xs[0]), Run(After(db, xs[0]), xs[1..]));
    }
  }

  /**
   Every run of extractions from an empty store: one claim per normalized content of a project, one
   per job and ordinal, every claim with a source, at most one embedding job each; and nothing a
   transaction wrote is ever changed by what follows it.
   */
  lemma EveryRunKeepsInvariant(xs: seq<Attempt>, ys: seq<Attempt>, home: Id -> Id)
    requires ValidRun(EMPTY, xs, home) && ValidRun(Run(EMPTY, xs), ys, home)
    ensures Inv(Run(EMPTY, xs), home) && Extends(Run(EMPTY, xs), Run(Run(EMPTY, xs), ys))
  {
    EmptyStoreHolds(home);
    RunKeepsInvariant(EMPTY, xs, home);
    RunKeepsInvariant(Run(EMPTY, xs), ys, home);
  }

  lemma EmptyStoreHolds(home: Id -> Id)
    ensures Inv(EMPTY, home)
  {
  }

  lemma {:induction false} OthersAddNone(db: Db, ctx: Context, candidates: seq<Candidate>, ids: seq<Id>, ordinal: nat, job: Id, k: nat, home: Id -> Id)
    requires Inv(db, home) && ctx.project == home(ctx.job) && ctx.job != job
    requires |ids| == |candidates| && ordinal <= |candidates| && Fresh(db.claims, ids, ordinal)
    ensures Extracted(db, ctx, candidates, ids, ordinal).Some?
    ensures NotAdded(db, Extracted(db, ctx, candidates, ids, ordinal).value, job, k)
    decreases |candidates| - ordinal
  {
    if ordinal < |candidates| {
      UpsertKeepsInvariant(db, ctx, ordinal, candidates[ordinal], ids[ordinal], home);
      FreshStays(db, ctx, candidates, ids, ordinal);
      var next := Upserted(db, ctx, ordinal, candidates[ordinal], ids[ordinal]).value;
      UpsertAddsOwn(db, ctx, ordinal, candidates[ordinal], ids[ordinal], next, job, k);
      OthersAddNone(next, ctx, candidates, ids, ordinal + 1, job, k, home);
      ExtractKeepsInvariant(next, ctx, candidates, ids, ordinal + 1, home);
      NotAddedTransitive(db, next, Extracted(next, ctx, candidates, ids, ordinal + 1).value, job, k);
    }
  }

  lemma SettledThrough(db: Db, x: Attempt, y: Attempt, home: Id -> Id)
    requires Inv(db, home) && Valid(db, y, home) && SettledUpTo(db, x.ctx, x.candidates, |x.candidates|)
    requires y.ctx.job != x.ctx.job || Repeats(x, y)
    ensures SettledUpTo(After(db, y), x.ctx, x.candidates, |x.candidates|)
  {
    ExtractKeepsInvariant(db, y.ctx, y.candidates, y.ids, 0, home);
    if Repeats(x, y) {
      assert SettledUpTo(db, y.ctx, y.candidates, |y.candidates|) by {
        forall k | 0 <= k < |y.candidates| ensures Settled(db, y.ctx, k, y.candidates[k]) {
          assert Settled(db, x.ctx, k, x.candidates[k]);
        }
      }
      SettledExtractIsNoop(db, y.ctx, y.candidates, y.ids, 0);
    } else {
      forall k | 0 <= k < |x.candidates| ensures Settled(After(db, y), x.ctx, k, x.candidates[k]) {
        OthersAddNone(db, y.ctx, y.candidates, y.ids, 0, x.ctx.job, k, home);
        SettledStays(db, After(db, y), x.ctx, k, x.candidates[k]);
      }
    }
  }

  lemma {:induction false} SettledThroughRun(db: Db, x: Attempt, ys: seq<Attempt>, home: Id -> Id)
    requires Inv(db, home) && ValidRun(db, ys, home) && SettledUpTo(db, x.ctx, x.candidates, |x.candidates|)
    requires forall y | y in ys :: y.ctx.job != x.ctx.job || Repeats(x, y)
    ensures SettledUpTo(Run(db, ys), x.ctx, x.candidates, |x.candidates|)
    decreases |ys|
  {
    if ys != [] {
      SettledThrough(db, x, ys[0], home);
      ExtractKeepsInvariant(db, ys[0].ctx, ys[0].candidates, ys[0].ids, 0, home);
      SettledThroughRun(After(db, ys[0]), x, ys[1..], home);
    }
  }

  /**
   Running a job again on the same candidates changes nothing at all, however many other jobs, or
   runs of the same one, came between.
   */
  lemma RerunChangesNothing(db: Db, x: Attempt, between: seq<Attempt>, again: Attempt, home: Id -> Id)
    requires Inv(db, home) && Valid(db, x, home) && ValidRun(After(db, x), between, home)
    requires forall y | y in between :: y.ctx.job != x.ctx.job || Repeats(x, y)
    requires Repeats(x, again) && |again.ids| == |again.candidates|
    ensures After(Run(After(db, x), between), again) == Run(After(db, x), between)
  {
    ExtractKeepsInvariant(db, x.ctx, x.candidates, x.ids, 0, home);
    ExtractSettles(db, x.ctx, x.candidates, x.ids, 0, home);
    SettledThroughRun(After(db, x), x, between, home);
    var end := Run(After(db, x), between);
    forall k | 0 <= k < |again.candidates| ensures Settled(end, again.ctx, k, again.candidates[k]) {
      assert Settled(end, x.ctx, k, x.candidates[k]);
    }
    SettledExtractIsNoop(end, again.ctx, again.candidates, again.ids, 0);
  }

  // Running again on other candidates

  lemma InsertRecords(db: Db, ctx: Context, ordinal: nat, c: Candidate, id: Id)
    requires !Conflicts(db.claims, ctx, ordinal, c.normalized, id)
    ensures ByNormalized(Inserted(db, ctx, ordinal, c, id).claims, ctx.project, c.normalized).Some?
    ensures ByOrdinal(db.claims, ctx.project, ctx.job, ordinal).None?
  {
    var claims := Inserted(db, ctx, ordinal, c, id).claims;
    assert claims == db.claims + [NewClaim(ctx, ordinal, c, id)];
    assert SameNormalized(claims[|db.claims|], ctx.project, c.normalized);
  }

  /**
   Exactly when a candidate's content is on record afterwards: it was before, or the job has no
   claim at this ordinal yet. A second run in which the model answers differently drops what it
   says at ordinals already used.
   */
  lemma RecordedCondition(db: Db, ctx: Context, ordinal: nat, c: Candidate, id: Id, home: Id -> Id, after: Db)
    requires Inv(db, home) && ctx.project == home(ctx.job) && !HasClaim(db.claims, id) && c.normalized != ""
    requires Upserted(db, ctx, ordinal, c, id) == Some(after)
    ensures ByNormalized(after.claims, ctx.project, c.normalized).Some?
            <==> ByNormalized(db.claims, ctx.project, c.normalized).Some? || ByOrdinal(db.claims, ctx.project, ctx.job, ordinal).None?
  {
    if !Conflicts(db.claims, ctx, ordinal, c.normalized, id) {
      InsertRecords(db, ctx, ordinal, c, id);
    } else {
      SourceExtends(db, ctx, Resolved(db.claims, ctx, ordinal, c.normalized).value, c);
      if ByNormalized(db.claims, ctx.project, c.normalized).None? {
        var i :| 0 <= i < |db.claims| && SameOrdinal(db.claims[i], ctx.job, ordinal);
        assert db.claims[i].project == ctx.project;
      }
    }
  }

  /** The claim has content other than this. */
  ghost predicate Differs(claims: seq<Claim>, id: Id, normalized: string) {
    exists i | 0 <= i < |claims| :: claims[i].id == id && claims[i].normalized != normalized
  }

  /** The source row of this candidate on that claim. */
  function KeyFor(ctx: Context, claim: Id, c: Candidate): SourceKey {
    SourceKey(claim, ctx.record, SourceSegment(ctx.segments, c.quote))
  }

  /** A claim of the job at this ordinal has other content, and no source row yet for the candidate's segment. */
  ghost predicate Usurps(db: Db, ctx: Context, ordinal: nat, c: Candidate, i: nat) {
    && i < |db.claims| && SameOrdinal(db.claims[i], ctx.job, ordinal) && db.claims[i].normalized != c.normalized
    && KeyFor(ctx, db.claims[i].id, c) !in db.sources
  }

  /** A source row is new, and the claim it is on has other content than the candidate. */
  ghost predicate Misattributed(db: Db, after: Db, c: Candidate, k: SourceKey) {
    k in after.sources && k !in db.sources && Differs(after.claims, k.claim, c.normalized)
  }

  lemma OnlySource(db: Db, ctx: Context, claim: Id, c: Candidate, k: SourceKey)
    ensures k in WithSource(db, ctx, claim, c).sources && k !in db.sources <==> k == KeyFor(ctx, claim, c) && k !in db.sources
  {
  }

  lemma DiffersHere(claims: seq<Claim>, i: nat, normalized: string)
    requires UniqueClaims(claims) && i < |claims|
    ensures Differs(claims, claims[i].id, normalized) <==> claims[i].normalized != normalized
  {
  }

  lemma InsertAttributes(db: Db, ctx: Context, ordinal: nat, c: Candidate, id: Id, home: Id -> Id, k: SourceKey)
    requires Inv(db, home) && ctx.project == home(ctx.job) && !Conflicts(db.claims, ctx, ordinal, c.normalized, id)
    ensures !Misattributed(db, Inserted(db, ctx, ordinal, c, id), c, k)
  {
    var after := Inserted(db, ctx, ordinal, c, id);
    assert after.claims == db.claims + [NewClaim(ctx, ordinal, c, id)];
    InsertKeepsUnique(db.claims, ctx, ordinal, c, id, home);
    DiffersHere(after.claims, |db.claims|, c.normalized);
    OnlySource(db.(claims := after.claims), ctx, id, c, k);
  }

  lemma ResolvedRow(claims: seq<Claim>, ctx: Context, ordinal: nat, normalized: string) returns (i: nat)
    requires Resolved(claims, ctx, ordinal, normalized).Some?
    ensures i < |claims| && claims[i].id == Resolved(claims, ctx, ordinal, normalized).value
    ensures (SameOrdinal(claims[i], ctx.job, ordinal) && claims[i].project == ctx.project)
            || (ByOrdinal(claims, ctx.project, ctx.job, ordinal).None? && claims[i].normalized == normalized)
  {
    var same := ByOrdinal(claims, ctx.project, ctx.job, ordinal);
    if same.Some? {
      i :| 0 <= i < |claims| && SameOrdinal(claims[i], ctx.job, ordinal) && claims[i].project == ctx.project && claims[i].id == same.value;
    } else {
      i :| 0 <= i < |claims| && SameNormalized(claims[i], ctx.project, normalized) && claims[i].id == ByNormalized(claims, ctx.project, normalized).value;
    }
  }

  /** An upsert that inserts nothing makes the record a source of row `i`, if it makes it one of any. */
  lemma ConflictRow(db: Db, ctx: Context, ordinal: nat, c: Candidate, claim: Id) returns (i: nat)
    requires UniqueClaims(db.claims) && Resolved(db.claims, ctx, ordinal, c.normalized) == Some(claim)
    ensures i < |db.claims| && db.claims[i].id == claim
    ensures forall k :: Misattributed(db, WithSource(db, ctx, claim, c), c, k)
                        ==> k == KeyFor(ctx, claim, c) && Usurps(db, ctx, ordinal, c, i)
  {
    var after := WithSource(db, ctx, claim, c);
    i := ResolvedRow(db.claims, ctx, ordinal, c.normalized);
    DiffersHere(db.claims, i, c.normalized);
    forall k | Misattributed(db, after, c, k) ensures k == KeyFor(ctx, claim, c) && Usurps(db, ctx, ordinal, c, i) {
      OnlySource(db, ctx, claim, c, k);
    }
  }

  lemma UsurpedRow(db: Db, ctx: Context, ordinal: nat, c: Candidate, home: Id -> Id, claim: Id, i: nat)
    requires UniqueClaims(db.claims) && AtHome(db.claims, home) && ctx.project == home(ctx.job)
    requires Resolved(db.claims, ctx, ordinal, c.normalized) == Some(claim) && Usurps(db, ctx, ordinal, c, i)
    ensures Misattributed(db, WithSource(db, ctx, claim, c), c, KeyFor(ctx, claim, c))
  {
    OrdinalIsUnique(db.claims, i, ctx.project, ctx.job, ordinal);
    DiffersHere(db.claims, i, c.normalized);
  }

  /** Where an upsert that inserts nothing puts the source. */
  lemma ConflictAttributes(db: Db, ctx: Context, ordinal: nat, c: Candidate, home: Id -> Id, claim: Id)
    requires UniqueClaims(db.claims) && AtHome(db.claims, home) && ctx.project == home(ctx.job)
    requires Resolved(db.claims, ctx, ordinal, c.normalized) == Some(claim)
    ensures (exists k :: Misattributed(db, WithSource(db, ctx, claim, c), c, k)) <==> (exists i: nat :: Usurps(db, ctx, ordinal, c, i))
  {
    var row := ConflictRow(db, ctx, ordinal, c, claim);
    if i: nat :| Usurps(db, ctx, ordinal, c, i) {
      UsurpedRow(db, ctx, ordinal, c, home, claim, i);
    }
  }

  /**
   Exactly when the transaction makes the record a source of a claim with other content: the job
   has a claim with other content at this ordinal, and the record is not yet a source of it for the
   candidate's segment.
   */
  lemma MisattributionCondition(db: Db, ctx: Context, ordinal: nat, c: Candidate, id: Id, home: Id -> Id, after: Db)
    requires Inv(db, home) && ctx.project == home(ctx.job) && !HasClaim(db.claims, id) && c.normalized != ""
    requires Upserted(db, ctx, ordinal, c, id) == Some(after)
    ensures (exists k :: Misattributed(db, after, c, k)) <==> (exists i: nat :: Usurps(db, ctx, ordinal, c, i))
  {
    if !Conflicts(db.claims, ctx, ordinal, c.normalized, id) {
      forall k ensures !Misattributed(db, after, c, k) {
        InsertAttributes(db, ctx, ordinal, c, id, home, k);
      }
    } else {
      ConflictAttributes(db, ctx, ordinal, c, home, Resolved(db.claims, ctx, ordinal, c.normalized).value);
    }
  }

  // Two answers of the model for one record

  const EMPTY := Db([], map[], map[], {})
  const CTX := Context("project", {}, "job", "record", [Segment("s1", "x"), Segment("s2", "y")], map[], None)

  function Answer(content: string, quote: string): Candidate {
    Candidate(content, content, quote, Label("", ""), Label("", ""), Label("", ""), "")
  }

  const FIRST := Attempt(CTX, [Answer("a", "x")], ["c1"])
  const SECOND := Attempt(CTX, [Answer("b", "y")], ["c2"])

  const AFTER_FIRST := Db([Claim("c1", "project", "a", "a", None, "job", 0)], map[SourceKey("c1", "record", Some("s1")) := "x"], map[], {})

  lemma FirstAnswer()
    ensures After(EMPTY, FIRST) == AFTER_FIRST
  {
    var c := Answer("a", "x");
    assert Quoting(CTX.segments, "x") == Some("s1");
    assert EMPTY.claims + [NewClaim(CTX, 0, c, "c1")] == AFTER_FIRST.claims;
    assert Upserted(EMPTY, CTX, 0, c, "c1") == Some(AFTER_FIRST);
    assert Extracted(AFTER_FIRST, CTX, [c], ["c1"], 1) == Some(AFTER_FIRST);
  }

  lemma OtherLetter(text: string, quote: string)
    requires |text| == |quote| == 1 && text[0] != quote[0]
    ensures !Contains(text, quote)
  {
    assert text[..1][0] != quote[0];
    assert |text[1..]| == 0;
  }

  lemma SecondQuote()
    ensures Quoting(CTX.segments, "y") == Some("s2")
  {
    OtherLetter("x", "y");
    assert CTX.segments[1..] == [Segment("s2", "y")];
    assert Contains("y", "y");
  }

  lemma SecondAnswer()
    ensures After(AFTER_FIRST, SECOND) == AFTER_FIRST.(sources := AFTER_FIRST.sources[SourceKey("c1", "record", Some("s2")) := "y"])
  {
    var c := Answer("b", "y");
    SecondQuote();
    assert SameOrdinal(AFTER_FIRST.claims[0], "job", 0);
    assert Resolved(AFTER_FIRST.claims, CTX, 0, "b") == Some("c1");
    var after := WithSource(AFTER_FIRST, CTX, "c1", c);
    assert Upserted(AFTER_FIRST, CTX, 0, c, "c2") == Some(after);
    assert Extracted(after, CTX, [c], ["c2"], 1) == Some(after);
  }

  /**
   From an empty store: a job runs twice on one record and the model answers "a", then "b". The
   second answer is not on record, and its quote is stored as evidence for the first.
   */
  lemma SecondAnswerBacksTheFirst(home: Id -> Id)
    requires home("job") == "project"
    ensures ValidRun(EMPTY, [FIRST, SECOND], home)
    ensures var before := Run(EMPTY, [FIRST]);
            var after := Run(EMPTY, [FIRST, SECOND]);
            && ByNormalized(after.claims, "project", "b").None?
            && after.claims == before.claims == [Claim("c1", "project", "a", "a", None, "job", 0)]
            && Misattributed(before, after, Answer("b", "y"), SourceKey("c1", "record", Some("s2")))
            && after.sources[SourceKey("c1", "record", Some("s2"))] == "y"
  {
    FirstAnswer();
    SecondAnswer();
    var after := After(AFTER_FIRST, SECOND);
    assert [FIRST][1..] == [] && [FIRST, SECOND][1..] == [SECOND] && [SECOND][1..] == [];
    assert Run(EMPTY, [FIRST]) == Run(AFTER_FIRST, []);
    assert Run(EMPTY, [FIRST, SECOND]) == Run(AFTER_FIRST, [SECOND]) == Run(after, []);
    assert ValidRun(after, [], home) && ValidRun(AFTER_FIRST, [SECOND], home);
    assert after.claims[0].id == "c1";
  }

  // Quotes

  ghost predicate OccursAt(text: string, quote: string, i: nat) {
    i + |quote| <= |text| && text[i..i + |quote|] == quote
  }

  lemma OccursInTail(text: string, quote: string, i: nat)
    requires text != []
    ensures OccursAt(text[1..], quote, i) <==> OccursAt(text, quote, i + 1)
  {
    if i + 1 + |quote| <= |text| {
      assert text[1..][i..i + |quote|] == text[i + 1..i + 1 + |quote|];
    }
  }

  lemma {:induction false} ContainsSpec(text: string, quote: string)
    ensures Contains(text, quote) <==> exists i: nat :: OccursAt(text, quote, i)
    decreases |text|
  {
    if |quote| <= |text| {
      assert text[..|quote|] == text[0..0 + |quote|];
      assert OccursAt(text, quote, 0) <==> text[..|quote|] == quote;
      if text != [] {
        ContainsSpec(text[1..], quote);
        forall i: nat ensures OccursAt(text[1..], quote, i) <==> OccursAt(text, quote, i + 1) {
          OccursInTail(text, quote, i);
        }
        if i: nat :| OccursAt(text, quote, i) && i > 0 {
          assert OccursAt(text[1..], quote, i - 1);
        }
      }
    }
  }

  /** A quote that is kept occurs, word for word, in the segment the source names. */
  lemma {:induction false} KeptQuoteIsVerbatim(segments: seq<Segment>, quote: string) returns (k: nat, i: nat)
    requires quote != "" && StoredQuote(segments, quote) != ""
    ensures StoredQuote(segments, quote) == quote
    ensures k < |segments| && SourceSegment(segments, quote) == Some(segments[k].id) && OccursAt(segments[k].content, quote, i)
    decreases |segments|
  {
    if Contains(segments[0].content, quote) {
      ContainsSpec(segments[0].content, quote);
      k := 0;
      i :| OccursAt(segments[0].content, quote, i);
    } else {
      k, i := KeptQuoteIsVerbatim(segments[1..], quote);
      k := k + 1;
    }
  }
}
