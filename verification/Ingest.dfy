/**
 Core's idempotent receiver: `ingest_records` (apps/core/neuromem_core/services.py:296-452).

 One call is one database transaction under the session row lock. The outcome of the author
 lookup and the number of chunks of each item are inputs; segments themselves are not modelled.
 */
module Ingest {
  import opened Scopes
  import opened Seqs
  import opened Wrappers

  /** SHA-256 as an injective function of the normalised content. */
  datatype Digest = Digest(preimage: string)

  /** CRLF and CR become LF; Unicode normalisation is not modelled. */
  function NormalizeNewlines(s: string): string {
    if s == "" then ""
    else if s[0] == '\r' && |s| > 1 && s[1] == '\n' then "\n" + NormalizeNewlines(s[2..])
    else if s[0] == '\r' then "\n" + NormalizeNewlines(s[1..])
    else [s[0]] + NormalizeNewlines(s[1..])
  }

  function ContentHash(content: string): Digest {
    Digest(NormalizeNewlines(content))
  }

  datatype Item = Item(id: string, content: string, chunks: nat, authorFound: bool)

  datatype Session = Session(scope: Scope, next: nat)

  datatype Record = Record(scope: Scope, session: string, sequence: nat, content: string, hash: Digest, segments: nat)

  datatype JobKind = EmbedRecord | ExtractClaims

  datatype Job = Job(kind: JobKind, recordId: string)

  datatype Core = Core(sessions: map<string, Session>, records: map<string, Record>, jobs: seq<Job>)

  datatype Receipt = Receipt(id: string, sequence: nat, hash: Digest, created: bool, segments: nat)

  datatype Error = ScopeNotFound | Conflict(ids: set<string>)

  datatype BatchReceipt = BatchReceipt(receipts: seq<Receipt>, jobsCreated: nat)

  /** The uncommitted transaction. */
  datatype Staged = Staged(records: map<string, Record>, jobs: seq<Job>, next: nat, batch: BatchReceipt)

  function Ids(items: seq<Item>): (r: seq<string>)
    ensures |r| == |items|
    ensures forall i | 0 <= i < |items| :: r[i] == items[i].id
  {
    seq(|items|, i requires 0 <= i < |items| => items[i].id)
  }

  predicate Conflicts(records: map<string, Record>, scope: Scope, session: string, item: Item) {
    && item.id in records
    && var prior := records[item.id];
       prior.hash != ContentHash(item.content) || prior.scope != scope || prior.session != session
  }

  function ConflictIds(records: map<string, Record>, scope: Scope, session: string, items: seq<Item>): set<string> {
    set i | 0 <= i < |items| && Conflicts(records, scope, session, items[i]) :: items[i].id
  }

  function ReplayReceipt(id: string, prior: Record): Receipt {
    Receipt(id, prior.sequence, prior.hash, false, prior.segments)
  }

  function NewRecord(scope: Scope, session: string, sequence: nat, item: Item): Record {
    Record(scope, session, sequence, item.content, ContentHash(item.content), item.chunks)
  }

  function JobsFor(id: string): seq<Job> {
    [Job(EmbedRecord, id), Job(ExtractClaims, id)]
  }

  /** One turn of the loop; `existing` is what the query before the loop found. */
  function StageItem(existing: map<string, Record>, scope: Scope, session: string, s: Staged, item: Item): Result<Staged, Error> {
    if item.id in existing then
      Ok(s.(batch := s.batch.(receipts := s.batch.receipts + [ReplayReceipt(item.id, existing[item.id])])))
    else if !item.authorFound then Err(ScopeNotFound)
    else
      var receipt := Receipt(item.id, s.next, ContentHash(item.content), true, item.chunks);
      Ok(Staged(s.records[item.id := NewRecord(scope, session, s.next, item)],
                s.jobs + JobsFor(item.id),
                s.next + 1,
                BatchReceipt(s.batch.receipts + [receipt], s.batch.jobsCreated + 2)))
  }

  function StageAll(core: Core, scope: Scope, session: string, items: seq<Item>): Result<Staged, Error>
    requires session in core.sessions
  {
    if items == [] then Ok(Staged(core.records, core.jobs, core.sessions[session].next, BatchReceipt([], 0)))
    else
      match StageAll(core, scope, session, items[..|items| - 1])
      case Err(e) => Err(e)
      case Ok(s) => StageItem(core.records, scope, session, s, items[|items| - 1])
  }

  /** The commit: staged rows, and the session row with the staged counter. */
  function Committed(core: Core, session: string, s: Staged): Core
    requires session in core.sessions
  {
    Core(core.sessions[session := core.sessions[session].(next := s.next)], s.records, s.jobs)
  }

  /** The whole transaction: the new state with the receipts, or an error and no new state. */
  function IngestRecords(core: Core, scope: Scope, session: string, items: seq<Item>): Result<(Core, BatchReceipt), Error> {
    if session !in core.sessions || core.sessions[session].scope != scope then Err(ScopeNotFound)
    else if ConflictIds(core.records, scope, session, items) != {} then
      Err(Conflict(ConflictIds(core.records, scope, session, items)))
    else
      match StageAll(core, scope, session, items)
      case Err(e) => Err(e)
      case Ok(s) =>
        Ok((Committed(core, session, s), s.batch))
  }

  class CoreStore {
    var sessions: map<string, Session>
    var records: map<string, Record>
    var jobs: seq<Job>

    constructor ()
      ensures State() == Core(map[], map[], [])
    {
      sessions, records, jobs := map[], map[], [];
    }

    ghost function State(): Core
      reads this
    {
      Core(sessions, records, jobs)
    }

    /** RecordBatchCreate guarantees distinct ids (apps/core/neuromem_core/schemas.py:156-161). */
    method Ingest(scope: Scope, session: string, items: seq<Item>) returns (r: Result<BatchReceipt, Error>)
      requires Distinct(Ids(items))
      modifies this
      ensures match IngestRecords(old(State()), scope, session, items)
              case Ok((core, batch)) => State() == core && r == Ok(batch)
              case Err(e) => State() == old(State()) && r == Err(e)
    {
      if session !in sessions || sessions[session].scope != scope {
        return Err(ScopeNotFound);
      }
      var conflicts := ConflictIds(records, scope, session, items);
      if conflicts != {} {
        return Err(Conflict(conflicts));
      }
      var staged := Staged(records, jobs, sessions[session].next, BatchReceipt([], 0));
      var i := 0;
      while i < |items|
        invariant 0 <= i <= |items|
        invariant StageAll(State(), scope, session, items[..i]) == Ok(staged)
      {
        assert items[..i + 1][..i] == items[..i];
        var item := items[i];
        if item.id in records {
          var receipt := ReplayReceipt(item.id, records[item.id]);
          staged := staged.(batch := staged.batch.(receipts := staged.batch.receipts + [receipt]));
        } else if !item.authorFound {
          StageStops(State(), scope, session, items, i + 1);
          return Err(ScopeNotFound);
        } else {
          var receipt := Receipt(item.id, staged.next, ContentHash(item.content), true, item.chunks);
          staged := Staged(staged.records[item.id := NewRecord(scope, session, staged.next, item)],
                           staged.jobs + JobsFor(item.id),
                           staged.next + 1,
                           BatchReceipt(staged.batch.receipts + [receipt], staged.batch.jobsCreated + 2));
        }
        i := i + 1;
      }
      assert items[..|items|] == items;
      sessions := sessions[session := sessions[session].(next := staged.next)];
      records, jobs := staged.records, staged.jobs;
      return Ok(staged.batch);
    }
  }

  /** An author that is not found aborts the whole batch. */
  lemma {:induction false} StageStops(core: Core, scope: Scope, session: string, items: seq<Item>, n: nat)
    requires session in core.sessions && n <= |items|
    requires StageAll(core, scope, session, items[..n]) == Err(ScopeNotFound)
    ensures StageAll(core, scope, session, items) == Err(ScopeNotFound)
    decreases |items| - n
  {
    if n == |items| {
      assert items[..n] == items;
    } else {
      assert items[..n + 1][..n] == items[..n];
      StageStops(core, scope, session, items, n + 1);
    }
  }

  // What a batch does

  /** How many of the items are new. */
  function NewCount(records: map<string, Record>, items: seq<Item>): nat {
    if items == [] then 0
    else NewCount(records, items[..|items| - 1]) + (if items[|items| - 1].id in records then 0 else 1)
  }

  /**
   Receipt i answers item i: a replay carries the stored record, a new item gets the next free
   sequence number, counting the new items before it.
   */
  ghost predicate Answers(core: Core, scope: Scope, session: string, items: seq<Item>, records: map<string, Record>, r: Receipt, i: nat)
    requires session in core.sessions && i < |items|
  {
    var item := items[i];
    if item.id in core.records then r == ReplayReceipt(item.id, core.records[item.id])
    else
      && r == Receipt(item.id, core.sessions[session].next + NewCount(core.records, items[..i]), ContentHash(item.content), true, item.chunks)
      && item.id in records && records[item.id] == NewRecord(scope, session, r.sequence, item)
  }

  lemma FrontDistinct(items: seq<Item>)
    requires items != [] && Distinct(Ids(items))
    ensures var front := items[..|items| - 1]; Distinct(Ids(front)) && items[|items| - 1].id !in Ids(front)
  {
    var front := items[..|items| - 1];
    assert forall i | 0 <= i < |front| :: Ids(front)[i] == Ids(items)[i] && Ids(items)[i] != Ids(items)[|front|];
  }

  /** What the loop adds: exactly the new ids; what was there keeps its value. */
  lemma {:induction false} StagedRecords(core: Core, scope: Scope, session: string, items: seq<Item>)
    requires session in core.sessions && Distinct(Ids(items)) && StageAll(core, scope, session, items).Ok?
    ensures var s := StageAll(core, scope, session, items).value;
            && (forall id :: id in s.records <==> id in core.records || id in Ids(items))
            && (forall id | id in core.records :: s.records[id] == core.records[id])
            && s.next == core.sessions[session].next + NewCount(core.records, items)
            && s.batch.jobsCreated == 2 * NewCount(core.records, items)
            && |s.batch.receipts| == |items|
  {
    if items != [] {
      var front := items[..|items| - 1];
      FrontDistinct(items);
      StagedRecords(core, scope, session, front);
      assert Ids(items) == Ids(front) + [items[|items| - 1].id];
    }
  }

  lemma {:induction false} StagedReceipts(core: Core, scope: Scope, session: string, items: seq<Item>, i: nat)
    requires session in core.sessions && Distinct(Ids(items)) && StageAll(core, scope, session, items).Ok? && i < |items|
    ensures |StageAll(core, scope, session, items).value.batch.receipts| == |items|
    ensures var s := StageAll(core, scope, session, items).value;
            Answers(core, scope, session, items, s.records, s.batch.receipts[i], i)
  {
    var front := items[..|items| - 1];
    FrontDistinct(items);
    StagedRecords(core, scope, session, items);
    StagedRecords(core, scope, session, front);
    assert items[..i] == front[..i];
    if i < |front| {
      StagedReceipts(core, scope, session, front, i);
      assert Ids(front)[i] in Ids(front);
    }
  }

  /** `after` and `batch` are what an accepted batch must produce. */
  ghost predicate BatchEffect(core: Core, scope: Scope, session: string, items: seq<Item>, after: Core, batch: BatchReceipt)
    requires session in core.sessions
  {
    && (forall id :: id in after.records <==> id in core.records || id in Ids(items))
    && (forall id | id in core.records :: after.records[id] == core.records[id])
    && after.sessions == core.sessions[session := core.sessions[session].(next := core.sessions[session].next + NewCount(core.records, items))]
    && batch.jobsCreated == 2 * NewCount(core.records, items)
    && |batch.receipts| == |items|
    && forall i | 0 <= i < |items| :: Answers(core, scope, session, items, after.records, batch.receipts[i], i)
  }

  lemma StagedEffect(core: Core, scope: Scope, session: string, items: seq<Item>)
    requires session in core.sessions && Distinct(Ids(items)) && StageAll(core, scope, session, items).Ok?
    ensures var s := StageAll(core, scope, session, items).value;
            BatchEffect(core, scope, session, items, Committed(core, session, s), s.batch)
  {
    StagedRecords(core, scope, session, items);
    var s := StageAll(core, scope, session, items).value;
    forall i | 0 <= i < |items| ensures Answers(core, scope, session, items, s.records, s.batch.receipts[i], i) {
      StagedReceipts(core, scope, session, items, i);
    }
  }

  /** A batch creates only the new items, in input order, two jobs each; replays return what is stored. */
  lemma BatchSpec(core: Core, scope: Scope, session: string, items: seq<Item>)
    requires Distinct(Ids(items)) && IngestRecords(core, scope, session, items).Ok?
    ensures session in core.sessions
    ensures var (after, batch) := IngestRecords(core, scope, session, items).value;
            BatchEffect(core, scope, session, items, after, batch)
  {
    StagedEffect(core, scope, session, items);
  }

  /** An error of any kind, early or in the middle of the batch, leaves the transaction without effect. */
  lemma RefusalCondition(core: Core, scope: Scope, session: string, items: seq<Item>)
    ensures IngestRecords(core, scope, session, items).Err?
            <==> || session !in core.sessions || core.sessions[session].scope != scope
                 || (exists i :: 0 <= i < |items| && Conflicts(core.records, scope, session, items[i]))
                 || (exists i :: 0 <= i < |items| && items[i].id !in core.records && !items[i].authorFound)
  {
    if session in core.sessions && core.sessions[session].scope == scope {
      var ids := ConflictIds(core.records, scope, session, items);
      if i :| 0 <= i < |items| && Conflicts(core.records, scope, session, items[i]) {
        assert items[i].id in ids;
      }
      StageAllOk(core, scope, session, items);
    }
  }

  lemma {:induction false} StageAllOk(core: Core, scope: Scope, session: string, items: seq<Item>)
    requires session in core.sessions
    ensures StageAll(core, scope, session, items).Ok?
            <==> forall i | 0 <= i < |items| :: items[i].id in core.records || items[i].authorFound
  {
    if items != [] {
      var front := items[..|items| - 1];
      StageAllOk(core, scope, session, front);
      assert forall i | 0 <= i < |front| :: front[i] == items[i];
    }
  }

  // Invariants of every reachable Core

  ghost predicate SequenceTaken(core: Core, session: string, sequence: nat) {
    exists id :: HoldsSequence(core, session, id, sequence)
  }

  ghost predicate HoldsSequence(core: Core, session: string, id: string, sequence: nat) {
    id in core.records && core.records[id].session == session && core.records[id].sequence == sequence
  }

  /** The sequences of a session are exactly 1 .. next-1, each held by one record. */
  ghost predicate SequencesExact(core: Core) {
    && (forall s, q | s in core.sessions && 1 <= q < core.sessions[s].next :: SequenceTaken(core, s, q))
    && (forall id | id in core.records ::
          && core.records[id].session in core.sessions
          && core.records[id].scope == core.sessions[core.records[id].session].scope
          && 1 <= core.records[id].sequence < core.sessions[core.records[id].session].next)
    && (forall id, id' | id in core.records && id' in core.records && core.records[id].session == core.records[id'].session
                         && core.records[id].sequence == core.records[id'].sequence :: id == id')
  }

  /** Every record has its two jobs, once each, and no job is without a record. */
  ghost predicate JobsExact(core: Core) {
    && (forall j | j in core.jobs :: j.recordId in core.records)
    && forall id, kind | id in core.records :: multiset(core.jobs)[Job(kind, id)] == 1
  }

  ghost predicate Valid(core: Core) {
    && SequencesExact(core) && JobsExact(core)
    && (forall s | s in core.sessions :: core.sessions[s].next >= 1)
    && forall id | id in core.records :: core.records[id].hash == ContentHash(core.records[id].content)
  }

  lemma StageItemJobs(s: Staged, id: string)
    requires id !in s.records
    requires (forall j | j in s.jobs :: j.recordId in s.records)
    requires forall x, kind | x in s.records :: multiset(s.jobs)[Job(kind, x)] == 1
    ensures forall j | j in s.jobs + JobsFor(id) :: j.recordId in s.records || j.recordId == id
    ensures forall x, kind | x in s.records || x == id :: multiset(s.jobs + JobsFor(id))[Job(kind, x)] == 1
  {
    var more := multiset{Job(EmbedRecord, id), Job(ExtractClaims, id)};
    assert multiset(s.jobs + JobsFor(id)) == multiset(s.jobs) + more;
    forall x, kind | x in s.records || x == id ensures multiset(s.jobs + JobsFor(id))[Job(kind, x)] == 1 {
      assert x == id ==> Job(kind, x) !in s.jobs;
      assert more[Job(kind, x)] == if x == id then 1 else 0 by {
        match kind
        case EmbedRecord =>
        case ExtractClaims =>
      }
    }
  }

  lemma AddedRecordKeepsSequences(core: Core, session: string, id: string, r: Record)
    requires SequencesExact(core) && session in core.sessions && id !in core.records
    requires r.session == session && r.scope == core.sessions[session].scope
    requires r.sequence == core.sessions[session].next >= 1
    ensures SequencesExact(Core(core.sessions[session := core.sessions[session].(next := r.sequence + 1)], core.records[id := r], core.jobs))
  {
    var after := Core(core.sessions[session := core.sessions[session].(next := r.sequence + 1)], core.records[id := r], core.jobs);
    forall t, q | t in after.sessions && 1 <= q < after.sessions[t].next ensures SequenceTaken(after, t, q) {
      if t == session && q == r.sequence {
        assert HoldsSequence(after, t, id, q);
      } else {
        assert SequenceTaken(core, t, q);
        var x :| HoldsSequence(core, t, x, q);
        assert HoldsSequence(after, t, x, q);
      }
    }
  }

  /** A new record with the next sequence and its two jobs. */
  function WithRecord(core: Core, session: string, id: string, r: Record): Core
    requires session in core.sessions
  {
    Core(core.sessions[session := core.sessions[session].(next := r.sequence + 1)], core.records[id := r], core.jobs + JobsFor(id))
  }

  lemma AddedRecordKeepsJobs(core: Core, session: string, id: string, r: Record)
    requires JobsExact(core) && session in core.sessions && id !in core.records
    ensures JobsExact(WithRecord(core, session, id, r))
  {
    StageItemJobs(Staged(core.records, core.jobs, 0, BatchReceipt([], 0)), id);
  }

  lemma AddedRecordKeepsValid(core: Core, session: string, id: string, r: Record)
    requires Valid(core) && session in core.sessions && id !in core.records
    requires r.session == session && r.scope == core.sessions[session].scope
    requires r.sequence == core.sessions[session].next && r.hash == ContentHash(r.content)
    ensures Valid(WithRecord(core, session, id, r))
  {
    AddedRecordKeepsSequences(core, session, id, r);
    AddedRecordKeepsJobs(core, session, id, r);
    SequencesIgnoreJobs(WithRecord(core, session, id, r).(jobs := core.jobs), WithRecord(core, session, id, r));
  }

  lemma StageItemKeepsValid(core: Core, scope: Scope, session: string, s: Staged, item: Item)
    requires session in core.sessions && core.sessions[session].scope == scope && item.id !in s.records
    requires Valid(Committed(core, session, s)) && item.id !in core.records
    requires StageItem(core.records, scope, session, s, item).Ok?
    ensures Valid(Committed(core, session, StageItem(core.records, scope, session, s, item).value))
  {
    var before := Committed(core, session, s);
    var r := NewRecord(scope, session, s.next, item);
    AddedRecordKeepsValid(before, session, item.id, r);
    assert Committed(core, session, StageItem(core.records, scope, session, s, item).value)
           == WithRecord(before, session, item.id, r);
  }

  lemma SequencesIgnoreJobs(a: Core, b: Core)
    requires SequencesExact(a) && a.sessions == b.sessions && a.records == b.records
    ensures SequencesExact(b)
  {
    forall s, q | s in b.sessions && 1 <= q < b.sessions[s].next ensures SequenceTaken(b, s, q) {
      assert SequenceTaken(a, s, q);
      var x :| HoldsSequence(a, s, x, q);
      assert HoldsSequence(b, s, x, q);
    }
  }

  lemma {:induction false} StageAllKeepsValid(core: Core, scope: Scope, session: string, items: seq<Item>)
    requires Valid(core) && session in core.sessions && core.sessions[session].scope == scope
    requires Distinct(Ids(items)) && StageAll(core, scope, session, items).Ok?
    ensures Valid(Committed(core, session, StageAll(core, scope, session, items).value))
  {
    if items == [] {
      assert Committed(core, session, StageAll(core, scope, session, items).value) == core;
    } else {
      var front := items[..|items| - 1];
      var last := items[|items| - 1];
      FrontDistinct(items);
      StageAllKeepsValid(core, scope, session, front);
      StagedRecords(core, scope, session, front);
      if last.id !in core.records {
        StageItemKeepsValid(core, scope, session, StageAll(core, scope, session, front).value, last);
      }
    }
  }

  /** Sequences stay exactly 1..next-1 and jobs stay two per record, whatever the batch. */
  lemma IngestKeepsValid(core: Core, scope: Scope, session: string, items: seq<Item>)
    requires Valid(core) && Distinct(Ids(items)) && IngestRecords(core, scope, session, items).Ok?
    ensures Valid(IngestRecords(core, scope, session, items).value.0)
  {
    StageAllKeepsValid(core, scope, session, items);
  }

  // Replays and runs

  /**
   Sending an accepted batch again, even after any number of other batches, changes nothing and
   returns the original sequence for every item.
   */
  lemma ReplayIsIdempotent(core: Core, scope: Scope, session: string, items: seq<Item>)
    requires session in core.sessions && core.sessions[session].scope == scope
    requires forall i | 0 <= i < |items| :: items[i].id in core.records && !Conflicts(core.records, scope, session, items[i])
    ensures IngestRecords(core, scope, session, items).Ok?
    ensures IngestRecords(core, scope, session, items).value.0 == core
    ensures IngestRecords(core, scope, session, items).value.1.jobsCreated == 0
  {
    StageAllReplay(core, scope, session, items);
    assert core.sessions[session := core.sessions[session]] == core.sessions;
  }

  lemma {:induction false} StageAllReplay(core: Core, scope: Scope, session: string, items: seq<Item>)
    requires session in core.sessions
    requires forall i | 0 <= i < |items| :: items[i].id in core.records
    ensures StageAll(core, scope, session, items).Ok?
    ensures var s := StageAll(core, scope, session, items).value;
            s.records == core.records && s.jobs == core.jobs && s.next == core.sessions[session].next && s.batch.jobsCreated == 0
  {
    if items != [] {
      StageAllReplay(core, scope, session, items[..|items| - 1]);
    }
  }

  datatype Step =
    | CreateSession(id: string, scope: Scope)
    | Batch(scope: Scope, session: string, items: seq<Item>)

  /** create_session inserts a row with next_record_sequence 1, or finds the existing one. */
  function Next(core: Core, step: Step): Core {
    match step
    case CreateSession(id, scope) =>
      if id in core.sessions then core else core.(sessions := core.sessions[id := Session(scope, 1)])
    case Batch(scope, session, items) =>
      match IngestRecords(core, scope, session, items)
      case Ok((after, _)) => after
      case Err(_) => core
  }

  function Run(core: Core, steps: seq<Step>): Core
    decreases |steps|
  {
    if steps == [] then core else Run(Next(core, steps[0]), steps[1..])
  }

  ghost predicate ValidSteps(steps: seq<Step>) {
    forall i | 0 <= i < |steps| && steps[i].Batch? :: Distinct(Ids(steps[i].items))
  }

  /** Records are never changed or removed, and sessions keep their scope. */
  ghost predicate Extends(core: Core, core': Core) {
    && (forall id | id in core.records :: id in core'.records && core'.records[id] == core.records[id])
    && forall s | s in core.sessions :: s in core'.sessions && core'.sessions[s].scope == core.sessions[s].scope
  }

  lemma CreateKeepsValid(core: Core, id: string, scope: Scope)
    requires Valid(core) && id !in core.sessions
    ensures Valid(core.(sessions := core.sessions[id := Session(scope, 1)]))
  {
    var after := core.(sessions := core.sessions[id := Session(scope, 1)]);
    forall s, q | s in after.sessions && 1 <= q < after.sessions[s].next ensures SequenceTaken(after, s, q) {
      assert SequenceTaken(core, s, q);
      var x :| HoldsSequence(core, s, x, q);
      assert HoldsSequence(after, s, x, q);
    }
  }

  lemma BatchExtends(core: Core, scope: Scope, session: string, items: seq<Item>)
    requires Distinct(Ids(items)) && IngestRecords(core, scope, session, items).Ok?
    ensures Extends(core, IngestRecords(core, scope, session, items).value.0)
  {
    BatchSpec(core, scope, session, items);
  }

  lemma NextKeepsValid(core: Core, step: Step)
    requires Valid(core) && (step.Batch? ==> Distinct(Ids(step.items)))
    ensures Valid(Next(core, step))
  {
    if step.CreateSession? {
      if step.id !in core.sessions {
        CreateKeepsValid(core, step.id, step.scope);
      }
    } else if IngestRecords(core, step.scope, step.session, step.items).Ok? {
      IngestKeepsValid(core, step.scope, step.session, step.items);
    }
  }

  lemma NextExtends(core: Core, step: Step)
    requires step.Batch? ==> Distinct(Ids(step.items))
    ensures Extends(core, Next(core, step))
  {
    if step.Batch? && IngestRecords(core, step.scope, step.session, step.items).Ok? {
      BatchExtends(core, step.scope, step.session, step.items);
    }
  }

  lemma ExtendsTransitive(a: Core, b: Core, c: Core)
    requires Extends(a, b) && Extends(b, c)
    ensures Extends(a, c)
  {
  }

  /** Over every run of batches the sequences stay exact and every record keeps its two jobs. */
  lemma {:induction false} EveryRunValid(core: Core, steps: seq<Step>)
    requires Valid(core) && ValidSteps(steps)
    ensures Valid(Run(core, steps))
    decreases |steps|
  {
    if steps != [] {
      NextKeepsValid(core, steps[0]);
      EveryRunValid(Next(core, steps[0]), steps[1..]);
    }
  }

  /** Over every run a stored record keeps its first content, sequence and scope. */
  lemma {:induction false} EveryRunExtends(core: Core, steps: seq<Step>)
    requires ValidSteps(steps)
    ensures Extends(core, Run(core, steps))
    decreases |steps|
  {
    if steps != [] {
      var next := Next(core, steps[0]);
      NextExtends(core, steps[0]);
      EveryRunExtends(next, steps[1..]);
      ExtendsTransitive(core, next, Run(next, steps[1..]));
    }
  }

  /** An accepted batch replayed after any further run: same sequences, no effect, no new job. */
  lemma ReplayAfterAnyRun(core: Core, scope: Scope, session: string, items: seq<Item>, steps: seq<Step>)
    requires Distinct(Ids(items)) && ValidSteps(steps) && IngestRecords(core, scope, session, items).Ok?
    ensures var (accepted, first) := IngestRecords(core, scope, session, items).value;
            var later := Run(accepted, steps);
            && IngestRecords(later, scope, session, items).Ok?
            && var (after, second) := IngestRecords(later, scope, session, items).value;
               && after == later && second.jobsCreated == 0 && |second.receipts| == |first.receipts| == |items|
               && forall i | 0 <= i < |items| :: second.receipts[i] == first.receipts[i].(created := false)
  {
    var (accepted, first) := IngestRecords(core, scope, session, items).value;
    BatchSpec(core, scope, session, items);
    EveryRunExtends(accepted, steps);
    var later := Run(accepted, steps);
    forall i | 0 <= i < |items|
      ensures items[i].id in later.records && !Conflicts(later.records, scope, session, items[i])
    {
      assert Answers(core, scope, session, items, accepted.records, first.receipts[i], i);
      assert items[i].id in accepted.records;
      assert core.records.Keys !! {items[i].id} || !Conflicts(core.records, scope, session, items[i]) by {
        RefusalCondition(core, scope, session, items);
      }
    }
    ReplayIsIdempotent(later, scope, session, items);
    BatchSpec(later, scope, session, items);
    var second := IngestRecords(later, scope, session, items).value.1;
    forall i | 0 <= i < |items| ensures second.receipts[i] == first.receipts[i].(created := false) {
      assert Answers(core, scope, session, items, accepted.records, first.receipts[i], i);
      assert Answers(later, scope, session, items, later.records, second.receipts[i], i);
    }
  }
}
