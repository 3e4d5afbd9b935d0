/**
 End-to-end delivery: `memoryRecord`, `#retryEntry`, `#deliver` and `#finishDeliveryError`
 (apps/mcp/src/router.ts:308-367, 580-697) over the durable retry queue and over any number of
 Cores, each an `Ingest.Core`.

 Every delivery has a number. Any number of them run at once, also for the same pair, and they
 are interleaved at every await. The network may lose, delay and repeat requests: a message once
 sent stays in `sent` and a Core may handle it at any later time, any number of times. A crash may
 come between any two durable writes and ends all deliveries.
 */
module Delivery {
  import opened Ingest
  import opened Json
  import opened RetryQueue
  import opened RetryQueueProofs
  import opened Scopes
  import opened Seqs
  import opened Wrappers

  /** Where a delivery stands. */
  datatype Task =
    | Listed(p: Pair)                           // a retry pass has listed the entry
    | Delivering(write: Write, target: string)  // it posts this write
    | Missing(p: Pair)                          // the spool file of the listed entry was gone

  function TaskPair(t: Task): Pair {
    match t
    case Listed(p) => p
    case Delivering(write, target) => (write.recordId, target)
    case Missing(p) => p
  }

  /** One POST by the delivery `task`, into one scope. */
  datatype Message = Message(task: nat, write: Write, target: string, scope: Scope)

  function PairOf(m: Message): Pair {
    (m.write.recordId, m.target)
  }

  /** What a message would write: the pair, the body and the scope. */
  function Effect(m: Message): (Pair, Value, Scope) {
    (PairOf(m), m.write.body, m.scope)
  }

  /** What the record body holds, as Core reads it. */
  datatype Reader = Reader(session: Value -> string, content: Value -> string)

  datatype System = System(
    mcp: Process,
    tasks: map<nat, Task>,               // deliveries in progress
    next: nat,                           // the number of the next delivery
    sent: set<Message>,
    stored: set<Message>,                // messages a Core answered with success
    refused: set<Message>,               // messages answered with an error that is not retried
    cores: map<string, Core>,
    reported: set<Message>,              // messages whose delivery was reported `stored`
    accepted: set<Pair>,                 // pairs that have ever been pending in the spool
    spooled: set<(Pair, Value, Scope)>,  // body and origin scope ever spooled for a pair
    astray: set<nat>)                    // retries that read an envelope without a scope for their target

  datatype Event =
    | Submit(w: Write, targets: seq<string>, now: int, done: nat)    // memoryRecord; `done` writes reach the disk
    | List(p: Pair)                                                  // a retry pass picks the entry
    | ReadSpool(id: nat)
    | Send(id: nat, scope: Scope)
    | Receive(m: Message, chunks: nat, authorFound: bool)            // a Core handles the request
    | Refuse(m: Message)                                             // any other answer that is not retried
    | CoreStep(target: string, step: Ingest.Step)                    // a Core serves somebody else
    | FinishStored(m: Message, done: nat)
    | FinishRefused(m: Message, done: nat)
    | Postpone(id: nat, error: string, now: int)                     // the attempt failed and counts
    | Drop(id: nat)                                                  // the target is not configured
    | FinishMissing(id: nat, done: nat)
    | Crash
    | Restart(files: seq<string>, now: int)

  function ItemOf(reader: Reader, m: Message, chunks: nat, authorFound: bool): Item {
    Item(m.write.recordId, reader.content(m.write.body), chunks, authorFound)
  }

  predicate Posting(s: System, id: nat) {
    s.mcp.up && id in s.tasks && s.tasks[id].Delivering?
  }

  /** The delivery this message belongs to is still in progress. */
  predicate Awaits(s: System, m: Message) {
    s.mcp.up && m.task in s.tasks && s.tasks[m.task] == Delivering(m.write, m.target)
  }

  ghost predicate Enabled(s: System, e: Event) {
    match e
    case Submit(w, targets, now, done) =>
      s.mcp.up && w.order == targets && Distinct(targets) && forall t :: t in w.scopes <==> t in targets
    case List(p) => s.mcp.up && p in Keys(s.mcp.disk.queue)
    case ReadSpool(id) => s.mcp.up && id in s.tasks && s.tasks[id].Listed?
    case Send(id, scope) =>
      // the spooled origin scope, or a scope computed anew when none was spooled for the target
      && Posting(s, id)
      && var w := s.tasks[id].write;
         s.tasks[id].target in w.scopes ==> scope == w.scopes[s.tasks[id].target]
    case Receive(m, _, _) => m in s.sent && m.target in s.cores
    case Refuse(m) => m in s.sent
    case CoreStep(t, step) => t in s.cores && (step.Batch? ==> Distinct(Ids(step.items)))
    case FinishStored(m, done) => Awaits(s, m) && m in s.stored
    case FinishRefused(m, done) => Awaits(s, m) && m in s.refused
    case Postpone(id, _, _) => Posting(s, id)
    case Drop(id) => Posting(s, id)
    case FinishMissing(id, done) => s.mcp.up && id in s.tasks && s.tasks[id].Missing?
    case Crash => true
    case Restart(files, now) => IsListing(files, s.mcp.disk.spool)
  }

  function SpooledIn(d: Disk): set<(Pair, Value, Scope)> {
    set r, t | r in d.spool && t in d.spool[r].write.scopes :: ((r, t), d.spool[r].write.body, d.spool[r].write.scopes[t])
  }

  /** The retry queue took a step; all deliveries end if the process died in it. */
  function Moved(s: System, mcp: Process): System {
    var t := s.(mcp := mcp, accepted := s.accepted + PendingPairs(mcp.disk.spool), spooled := s.spooled + SpooledIn(mcp.disk));
    if mcp.up then t else t.(tasks := map[])
  }

  /** The write enqueueRecord returns: the spooled one. */
  function Persisted(d: Disk, w: Write): Write {
    if w.recordId in d.spool then d.spool[w.recordId].write else w
  }

  /** memoryRecord delivers to all its targets at once. */
  function Started(n: nat, w: Write, targets: seq<string>): (r: map<nat, Task>)
    ensures forall id :: id in r <==> n <= id < n + |targets|
    ensures forall id | id in r :: r[id] == Delivering(w, targets[id - n])
  {
    if targets == [] then map[]
    else
      var last := |targets| - 1;
      Started(n, w, targets[..last])[n + last := Delivering(w, targets[last])]
  }

  function Begun(s: System, t: Task): System {
    s.(tasks := s.tasks[s.next := t], next := s.next + 1)
  }

  function Ended(s: System, id: nat): System {
    s.(tasks := s.tasks - {id})
  }

  /** memoryRecord: the pairs join the spool, then a delivery begins for each target. */
  function Submitted(s: System, w: Write, targets: seq<string>, now: int, done: nat): System {
    match EnqueueWrites(s.mcp.disk, w, targets, now)
    case Err(_) => s
    case Ok(ws) =>
      var t := Moved(s, Perform(s.mcp, ws, done));
      if t.mcp.up
      then t.(tasks := t.tasks + Started(t.next, Persisted(t.mcp.disk, w), targets), next := t.next + |targets|)
      else t
  }

  /** Core handles a request it was sent. */
  function Received(reader: Reader, s: System, m: Message, item: Item): System
    requires m.target in s.cores
  {
    match IngestRecords(s.cores[m.target], m.scope, reader.session(m.write.body), [item])
    case Ok((core, _)) => s.(cores := s.cores[m.target := core], stored := s.stored + {m})
    case Err(_) => s.(refused := s.refused + {m})
  }

  /** The delivery ends with a resolve of its pair. */
  function Resolved(s: System, id: nat, p: Pair, done: nat): System {
    Moved(Ended(s, id), Perform(s.mcp, ResolveWrites(s.mcp.disk, p), done))
  }

  function Next(reader: Reader, s: System, e: Event): System
    requires Enabled(s, e)
  {
    match e
    case Submit(w, targets, now, done) => Submitted(s, w, targets, now, done)
    case List(p) => Begun(s, Listed(p))
    case ReadSpool(id) =>
      var p := s.tasks[id].p;
      if p.0 !in s.mcp.disk.spool then s.(tasks := s.tasks[id := Missing(p)])
      else
        var w := s.mcp.disk.spool[p.0].write;
        s.(tasks := s.tasks[id := Delivering(w, p.1)], astray := if p.1 in w.scopes then s.astray else s.astray + {id})
    case Send(id, scope) => s.(sent := s.sent + {Message(id, s.tasks[id].write, s.tasks[id].target, scope)})
    case Receive(m, chunks, authorFound) => Received(reader, s, m, ItemOf(reader, m, chunks, authorFound))
    case Refuse(m) => s.(refused := s.refused + {m})
    case CoreStep(t, step) => s.(cores := s.cores[t := Ingest.Next(s.cores[t], step)])
    case FinishStored(m, done) =>
      var t := Resolved(s, m.task, PairOf(m), done);
      if t.mcp.up then t.(reported := t.reported + {m}) else t
    case FinishRefused(m, done) => Resolved(s, m.task, PairOf(m), done)
    case Postpone(id, error, now) =>
      (match MarkPendingWrites(s.mcp.disk, TaskPair(s.tasks[id]), error, now)
       case Err(_) => Ended(s, id)
       case Ok(ws) => Moved(Ended(s, id), Perform(s.mcp, ws, 1)))
    case Drop(id) => Ended(s, id)
    case FinishMissing(id, done) => Resolved(s, id, s.tasks[id].p, done)
    case Crash => Moved(s, s.mcp.(up := false))
    case Restart(files, now) =>
      (match ReconcileWrites(s.mcp.disk, files, now)
       case Err(_) => s
       case Ok(ws) => Moved(s, Process(After(s.mcp.disk, ws), true)))
  }

  ghost predicate ValidRun(reader: Reader, s: System, es: seq<Event>)
    decreases |es|
  {
    es == [] || (Enabled(s, es[0]) && ValidRun(reader, Next(reader, s, es[0]), es[1..]))
  }

  ghost function Run(reader: Reader, s: System, es: seq<Event>): System
    requires ValidRun(reader, s, es)
    decreases |es|
  {
    if es == [] then s else Run(reader, Next(reader, s, es[0]), es[1..])
  }

  // What a step does to the retry queue, to the deliveries and to what is remembered

  /** The step of the retry queue an event takes, if any. */
  function QueueEvent(s: System, e: Event): Option<RetryQueueProofs.Event>
    requires Enabled(s, e)
  {
    match e
    case Submit(w, targets, now, done) => Some(Enqueue(w, targets, now, done))
    case FinishStored(m, done) => Some(Resolve(PairOf(m), done))
    case FinishRefused(m, done) => Some(Resolve(PairOf(m), done))
    case FinishMissing(id, done) => Some(Resolve(s.tasks[id].p, done))
    case Postpone(id, error, now) => Some(Mark(TaskPair(s.tasks[id]), error, now))
    case Restart(files, now) => Some(Start(files, now))
    case _ => None
  }

  /** The retry queue only ever takes steps of its own, or dies. */
  lemma QueueStep(reader: Reader, s: System, e: Event)
    requires Enabled(s, e)
    ensures match QueueEvent(s, e)
            case Some(q) => ValidEvent(s.mcp, q) && Next(reader, s, e).mcp == RetryQueueProofs.Next(s.mcp, q)
            case None => Next(reader, s, e).mcp == if e.Crash? then s.mcp.(up := false) else s.mcp
  {
  }

  lemma AnswersGrow(reader: Reader, s: System, e: Event, t: System)
    requires Enabled(s, e) && t == Next(reader, s, e)
    ensures s.stored <= t.stored && s.refused <= t.refused
  {
    match e
    case Receive(m, chunks, authorFound) => assert t == Received(reader, s, m, ItemOf(reader, m, chunks, authorFound));
    case _ =>
  }

  lemma NumbersGrow(reader: Reader, s: System, e: Event, t: System)
    requires Enabled(s, e) && t == Next(reader, s, e)
    ensures s.sent <= t.sent && s.next <= t.next && s.astray <= t.astray
  {
  }

  /** What was sent and answered is never forgotten. */
  lemma NextGrows(reader: Reader, s: System, e: Event, t: System)
    requires Enabled(s, e) && t == Next(reader, s, e)
    ensures s.sent <= t.sent && s.stored <= t.stored && s.refused <= t.refused
    ensures s.next <= t.next && s.astray <= t.astray
  {
    AnswersGrow(reader, s, e, t);
    NumbersGrow(reader, s, e, t);
  }

  /** Every pair and every body that reaches the spool is remembered. */
  lemma NextRemembers(reader: Reader, s: System, e: Event, t: System)
    requires Enabled(s, e) && t == Next(reader, s, e)
    ensures || (t.mcp.disk == s.mcp.disk && t.accepted == s.accepted && t.spooled == s.spooled)
            || (t.accepted == s.accepted + PendingPairs(t.mcp.disk.spool) && t.spooled == s.spooled + SpooledIn(t.mcp.disk))
  {
  }

  /** Where the deliveries of the next state come from. */
  ghost predicate TaskOrigin(s: System, e: Event, t: System, id: nat)
    requires Enabled(s, e) && id in t.tasks
  {
    var task := t.tasks[id];
    || (id in s.tasks && task == s.tasks[id] && !(e.ReadSpool? && e.id == id))
    || (e.Submit? && t.mcp.up && s.next <= id < t.next && task.Delivering? && task.target in e.targets
        && task.write == Persisted(t.mcp.disk, e.w) && EnqueueWrites(s.mcp.disk, e.w, e.targets, e.now).Ok?)
    || (e.List? && id == s.next && task == Listed(e.p))
    || (e.ReadSpool? && e.id == id
        && var p := s.tasks[id].p;
           task == if p.0 in s.mcp.disk.spool then Delivering(s.mcp.disk.spool[p.0].write, p.1) else Missing(p))
  }

  lemma TaskOrigins(reader: Reader, s: System, e: Event, t: System)
    requires Enabled(s, e) && t == Next(reader, s, e)
    ensures forall id | id in t.tasks :: TaskOrigin(s, e, t, id)
  {
  }

  // The invariant

  /** The Core of the message holds the record under its id, with this content up to newline form, this scope and session. */
  ghost predicate HeldByCore(reader: Reader, cores: map<string, Core>, m: Message) {
    && m.target in cores
    && m.write.recordId in cores[m.target].records
    && var record := cores[m.target].records[m.write.recordId];
       && record.hash == ContentHash(reader.content(m.write.body))
       && record.scope == m.scope
       && record.session == reader.session(m.write.body)
  }

  predicate StoredPair(s: System, p: Pair) {
    exists m :: m in s.stored && PairOf(m) == p
  }

  predicate RefusedPair(s: System, p: Pair) {
    exists m :: m in s.refused && PairOf(m) == p
  }

  predicate Answered(s: System, p: Pair) {
    StoredPair(s, p) || RefusedPair(s, p)
  }

  /**
   Every pair that was ever accepted is pending, or a Core has stored or refused it. A pair whose
   file was found missing has been answered before.
   */
  ghost predicate Accounted(s: System) {
    && (forall p | p in s.accepted :: IsPending(s.mcp.disk.spool, p) || Answered(s, p))
    && PendingPairs(s.mcp.disk.spool) <= s.accepted
    && forall id | id in s.tasks ::
         && (s.tasks[id].Listed? ==> s.tasks[id].p in s.accepted)
         && (s.tasks[id].Missing? ==> Answered(s, s.tasks[id].p))
  }

  /** What a delivery posts was spooled for exactly its pair, with that origin scope. */
  ghost predicate SourcedTask(s: System, t: Task) {
    t.Delivering? ==> t.target in t.write.scopes && (TaskPair(t), t.write.body, t.write.scopes[t.target]) in s.spooled
  }

  /** The deliveries that have not gone astray post only what was spooled for their pair. */
  ghost predicate Sourced(s: System) {
    && SpooledIn(s.mcp.disk) <= s.spooled
    && (forall id | id in s.tasks && id !in s.astray :: SourcedTask(s, s.tasks[id]))
    && (forall m | m in s.sent && m.task !in s.astray :: Effect(m) in s.spooled)
  }

  /** A message of a delivery still in progress carries what that delivery posts. */
  predicate Owned(s: System, m: Message) {
    m.task < s.next && (m.task in s.tasks ==> s.tasks[m.task] == Delivering(m.write, m.target))
  }

  /** Numbers are not used twice, and only messages that were sent are answered. */
  ghost predicate Numbered(s: System) {
    && (forall id | id in s.tasks :: id < s.next)
    && (forall m | m in s.sent :: Owned(s, m))
    && s.stored <= s.sent && s.refused <= s.sent && s.reported <= s.stored
  }

  ghost predicate CoresHold(reader: Reader, s: System) {
    && (forall m | m in s.stored :: HeldByCore(reader, s.cores, m))
    && (forall t | t in s.cores :: Valid(s.cores[t]))
  }

  ghost predicate Invariant(reader: Reader, s: System) {
    Sound(s.mcp) && Numbered(s) && Sourced(s) && Accounted(s) && CoresHold(reader, s)
  }

  function Initial(targets: set<string>): System {
    System(Process(Disk(map[], []), true), map[], 0, {}, {}, {},
           map t | t in targets :: Core(map[], map[], []), {}, {}, {}, {})
  }

  lemma InitialInvariant(reader: Reader, targets: set<string>)
    ensures Invariant(reader, Initial(targets))
  {
    EmptyDirectorySound();
    EmptyCoreValid();
    var s := Initial(targets);
    assert PendingPairs(s.mcp.disk.spool) == {} && SpooledIn(s.mcp.disk) == {};
  }

  lemma EmptyCoreValid()
    ensures Valid(Core(map[], map[], []))
  {
  }

  // Every step keeps it

  lemma SoundAfter(reader: Reader, s: System, e: Event)
    requires Enabled(s, e) && Sound(s.mcp)
    ensures Sound(Next(reader, s, e).mcp)
  {
    QueueStep(reader, s, e);
    if QueueEvent(s, e).Some? {
      RetryQueueProofs.NextSound(s.mcp, QueueEvent(s, e).value);
    }
  }

  lemma TaskNumbered(reader: Reader, s: System, e: Event, t: System, id: nat)
    requires Enabled(s, e) && t == Next(reader, s, e) && id in t.tasks
    requires forall i | i in s.tasks :: i < s.next
    ensures id < t.next
  {
    NumbersGrow(reader, s, e, t);
    TaskOrigins(reader, s, e, t);
    assert TaskOrigin(s, e, t, id);
    if e.List? {
      assert t.next == s.next + 1;
    }
  }

  lemma MessageOwned(reader: Reader, s: System, e: Event, t: System, m: Message)
    requires Enabled(s, e) && t == Next(reader, s, e) && m in s.sent && Owned(s, m)
    ensures Owned(t, m)
  {
    NumbersGrow(reader, s, e, t);
    TaskOrigins(reader, s, e, t);
    if m.task in t.tasks {
      assert TaskOrigin(s, e, t, m.task);
    }
  }

  /** A new message is sent by a delivery in progress. */
  lemma NewMessageOwned(reader: Reader, s: System, e: Event, t: System, m: Message)
    requires Enabled(s, e) && t == Next(reader, s, e) && m in t.sent && m !in s.sent
    requires forall i | i in s.tasks :: i < s.next
    ensures Owned(t, m)
  {
    assert e.Send?;
  }

  lemma StoredWasSent(reader: Reader, s: System, e: Event, t: System)
    requires Enabled(s, e) && t == Next(reader, s, e) && s.stored <= s.sent
    ensures t.stored <= t.sent
  {
    match e
    case Receive(m, chunks, authorFound) => assert t == Received(reader, s, m, ItemOf(reader, m, chunks, authorFound));
    case _ =>
  }

  lemma RefusedWasSent(reader: Reader, s: System, e: Event, t: System)
    requires Enabled(s, e) && t == Next(reader, s, e) && s.refused <= s.sent
    ensures t.refused <= t.sent
  {
    match e
    case Receive(m, chunks, authorFound) => assert t == Received(reader, s, m, ItemOf(reader, m, chunks, authorFound));
    case _ =>
  }

  lemma ReportedWasStored(reader: Reader, s: System, e: Event, t: System)
    requires Enabled(s, e) && t == Next(reader, s, e) && s.reported <= s.stored
    ensures t.reported <= t.stored
  {
    AnswersGrow(reader, s, e, t);
  }

  lemma NumberedAfter(reader: Reader, s: System, e: Event)
    requires Enabled(s, e) && Numbered(s)
    ensures Numbered(Next(reader, s, e))
  {
    var t := Next(reader, s, e);
    StoredWasSent(reader, s, e, t);
    RefusedWasSent(reader, s, e, t);
    ReportedWasStored(reader, s, e, t);
    forall id | id in t.tasks ensures id < t.next {
      TaskNumbered(reader, s, e, t, id);
    }
    forall m | m in t.sent ensures Owned(t, m) {
      if m in s.sent {
        MessageOwned(reader, s, e, t, m);
      } else {
        NewMessageOwned(reader, s, e, t, m);
      }
    }
  }

  lemma PendingIsPending(spool: map<string, Envelope>)
    ensures forall p :: p in PendingPairs(spool) <==> IsPending(spool, p)
  {
  }

  /** A pending pair stays pending, with its body, unless the event resolves it. */
  lemma PendingStays(reader: Reader, s: System, e: Event, p: Pair)
    requires Sound(s.mcp) && Enabled(s, e) && IsPending(s.mcp.disk.spool, p)
    requires QueueEvent(s, e).Some? ==> !Releases(QueueEvent(s, e).value, p)
    ensures KeepsPair(s.mcp.disk.spool, Next(reader, s, e).mcp.disk.spool, p)
  {
    QueueStep(reader, s, e);
    if QueueEvent(s, e).Some? {
      RetryQueueProofs.NextKeeps(s.mcp, QueueEvent(s, e).value, p);
    }
  }

  /** Only an answered pair is resolved. */
  lemma ReleasedIsAnswered(s: System, e: Event, p: Pair)
    requires Accounted(s) && Enabled(s, e)
    requires QueueEvent(s, e).Some? && Releases(QueueEvent(s, e).value, p)
    ensures Answered(s, p)
  {
    if e.FinishStored? {
      assert StoredPair(s, p);
    } else if e.FinishRefused? {
      assert RefusedPair(s, p);
    }
  }

  lemma AnsweredStays(s: System, t: System, p: Pair)
    requires s.stored <= t.stored && s.refused <= t.refused && Answered(s, p)
    ensures Answered(t, p)
  {
    if StoredPair(s, p) {
      var m :| m in s.stored && PairOf(m) == p;
      assert m in t.stored;
    } else {
      var m :| m in s.refused && PairOf(m) == p;
      assert m in t.refused;
    }
  }

  lemma PairAccounted(reader: Reader, s: System, e: Event, t: System, p: Pair)
    requires Sound(s.mcp) && Accounted(s) && Enabled(s, e) && t == Next(reader, s, e) && p in s.accepted
    ensures IsPending(t.mcp.disk.spool, p) || Answered(t, p)
  {
    NextGrows(reader, s, e, t);
    if QueueEvent(s, e).Some? && Releases(QueueEvent(s, e).value, p) {
      ReleasedIsAnswered(s, e, p);
      AnsweredStays(s, t, p);
    } else if IsPending(s.mcp.disk.spool, p) {
      PendingStays(reader, s, e, p);
    } else {
      AnsweredStays(s, t, p);
    }
  }

  lemma TaskAccounted(reader: Reader, s: System, e: Event, t: System, id: nat)
    requires Sound(s.mcp) && Accounted(s) && Enabled(s, e) && t == Next(reader, s, e) && id in t.tasks
    ensures t.tasks[id].Listed? ==> t.tasks[id].p in t.accepted
    ensures t.tasks[id].Missing? ==> Answered(t, t.tasks[id].p)
  {
    NextRemembers(reader, s, e, t);
    NextGrows(reader, s, e, t);
    TaskOrigins(reader, s, e, t);
    assert TaskOrigin(s, e, t, id);
    if t.tasks[id].Missing? {
      assert Answered(s, t.tasks[id].p);
      AnsweredStays(s, t, t.tasks[id].p);
    }
  }

  lemma AccountedAfter(reader: Reader, s: System, e: Event)
    requires Sound(s.mcp) && Accounted(s) && Enabled(s, e)
    ensures Accounted(Next(reader, s, e))
  {
    var t := Next(reader, s, e);
    NextRemembers(reader, s, e, t);
    PendingIsPending(t.mcp.disk.spool);
    forall p | p in t.accepted ensures IsPending(t.mcp.disk.spool, p) || Answered(t, p) {
      if p in s.accepted {
        PairAccounted(reader, s, e, t, p);
      }
    }
    forall id | id in t.tasks
      ensures (t.tasks[id].Listed? ==> t.tasks[id].p in t.accepted) && (t.tasks[id].Missing? ==> Answered(t, t.tasks[id].p))
    {
      TaskAccounted(reader, s, e, t, id);
    }
  }

  /** What memoryRecord delivers has a scope for each of its targets. */
  lemma StartedSourced(s: System, e: Event, t: System, target: string)
    requires Sound(s.mcp) && Enabled(s, e) && e.Submit? && target in e.targets
    requires EnqueueWrites(s.mcp.disk, e.w, e.targets, e.now).Ok?
    requires t.mcp == Perform(s.mcp, EnqueueWrites(s.mcp.disk, e.w, e.targets, e.now).value, e.done) && t.mcp.up
    requires SpooledIn(t.mcp.disk) <= t.spooled
    ensures SourcedTask(t, Delivering(Persisted(t.mcp.disk, e.w), target))
  {
    var spool := EnqueueSpool(s.mcp.disk, e.w, e.targets).value;
    assert t.mcp.disk.spool == spool;
    assert e.w.recordId in spool && target in spool[e.w.recordId].write.scopes;
    assert spool[e.w.recordId].write.recordId == e.w.recordId;
    var w := spool[e.w.recordId].write;
    assert ((w.recordId, target), w.body, w.scopes[target]) in SpooledIn(t.mcp.disk);
  }

  lemma TaskSourced(reader: Reader, s: System, e: Event, t: System, id: nat)
    requires Sound(s.mcp) && Sourced(s) && Enabled(s, e) && t == Next(reader, s, e)
    requires id in t.tasks && id !in t.astray
    ensures SourcedTask(t, t.tasks[id])
  {
    NextRemembers(reader, s, e, t);
    NextGrows(reader, s, e, t);
    TaskOrigins(reader, s, e, t);
    assert TaskOrigin(s, e, t, id);
    if id in s.tasks && t.tasks[id] == s.tasks[id] {
      assert SourcedTask(s, s.tasks[id]);
    } else if e.Submit? {
      StartedSourced(s, e, t, t.tasks[id].target);
    } else if e.ReadSpool? && s.tasks[id].p.0 in s.mcp.disk.spool {
      var p := s.tasks[id].p;
      var w := s.mcp.disk.spool[p.0].write;
      assert w.recordId == p.0;
      assert ((p.0, p.1), w.body, w.scopes[p.1]) in SpooledIn(s.mcp.disk);
    }
  }

  lemma MessageSourced(reader: Reader, s: System, e: Event, t: System, m: Message)
    requires Sourced(s) && Enabled(s, e) && t == Next(reader, s, e) && m in t.sent && m.task !in t.astray
    ensures Effect(m) in t.spooled
  {
    NextRemembers(reader, s, e, t);
    NextGrows(reader, s, e, t);
    if m !in s.sent {
      assert e.Send? && m.task == e.id;
      assert SourcedTask(s, s.tasks[e.id]);
    }
  }

  lemma SourcedAfter(reader: Reader, s: System, e: Event)
    requires Sound(s.mcp) && Sourced(s) && Enabled(s, e)
    ensures Sourced(Next(reader, s, e))
  {
    var t := Next(reader, s, e);
    NextRemembers(reader, s, e, t);
    forall id | id in t.tasks && id !in t.astray ensures SourcedTask(t, t.tasks[id]) {
      TaskSourced(reader, s, e, t, id);
    }
    forall m | m in t.sent && m.task !in t.astray ensures Effect(m) in t.spooled {
      MessageSourced(reader, s, e, t, m);
    }
  }

  /** A message that Core has ingested stays held, whatever Core does afterwards. */
  lemma HeldStays(reader: Reader, cores: map<string, Core>, target: string, core: Core, m: Message)
    requires HeldByCore(reader, cores, m) && target in cores && Extends(cores[target], core)
    ensures HeldByCore(reader, cores[target := core], m)
  {
  }

  lemma SingleItem(reader: Reader, core: Core, m: Message, item: Item, after: Core, batch: BatchReceipt)
    requires item.id == m.write.recordId && item.content == reader.content(m.write.body)
    requires IngestRecords(core, m.scope, reader.session(m.write.body), [item]) == Ok((after, batch))
    ensures Distinct(Ids([item])) && HeldByCore(reader, map[m.target := after], m)
  {
    var session := reader.session(m.write.body);
    BatchSpec(core, m.scope, session, [item]);
    assert Answers(core, m.scope, session, [item], after.records, batch.receipts[0], 0);
    assert Ids([item])[0] == m.write.recordId;
    RefusalCondition(core, m.scope, session, [item]);
    assert !Conflicts(core.records, m.scope, session, [item][0]);
  }

  /** One Core moves on to an extension of itself, in which `m` is held. */
  lemma CoreMoves(reader: Reader, s: System, target: string, core: Core, t: System)
    requires CoresHold(reader, s) && target in s.cores && Valid(core) && Extends(s.cores[target], core)
    requires t.cores == s.cores[target := core]
    requires forall m | m in t.stored :: m in s.stored || HeldByCore(reader, t.cores, m)
    ensures CoresHold(reader, t)
  {
    forall m | m in t.stored ensures HeldByCore(reader, t.cores, m) {
      if m in s.stored {
        HeldStays(reader, s.cores, target, core, m);
      }
    }
  }

  /** A Core that ingests a message moves on to an extension of itself that holds it. */
  lemma ReceiveMoves(reader: Reader, core: Core, m: Message, item: Item, after: Core, batch: BatchReceipt)
    requires Valid(core) && item.id == m.write.recordId && item.content == reader.content(m.write.body)
    requires IngestRecords(core, m.scope, reader.session(m.write.body), [item]) == Ok((after, batch))
    ensures Valid(after) && Extends(core, after) && HeldByCore(reader, map[m.target := after], m)
  {
    SingleItem(reader, core, m, item, after, batch);
    IngestKeepsValid(core, m.scope, reader.session(m.write.body), [item]);
    BatchExtends(core, m.scope, reader.session(m.write.body), [item]);
  }

  lemma ReceiveKeeps(reader: Reader, s: System, m: Message, item: Item)
    requires CoresHold(reader, s) && m.target in s.cores
    requires item.id == m.write.recordId && item.content == reader.content(m.write.body)
    ensures CoresHold(reader, Received(reader, s, m, item))
  {
    match IngestRecords(s.cores[m.target], m.scope, reader.session(m.write.body), [item])
    case Ok((after, batch)) =>
      ReceiveMoves(reader, s.cores[m.target], m, item, after, batch);
      CoreMoves(reader, s, m.target, after, Received(reader, s, m, item));
    case Err(_) =>
  }

  lemma CoreStepKeeps(reader: Reader, s: System, target: string, step: Ingest.Step)
    requires CoresHold(reader, s) && target in s.cores && (step.Batch? ==> Distinct(Ids(step.items)))
    ensures CoresHold(reader, s.(cores := s.cores[target := Ingest.Next(s.cores[target], step)]))
  {
    Ingest.NextKeepsValid(s.cores[target], step);
    NextExtends(s.cores[target], step);
    var after := Ingest.Next(s.cores[target], step);
    CoreMoves(reader, s, target, after, s.(cores := s.cores[target := after]));
  }

  lemma CoresUntouched(reader: Reader, s: System, e: Event, t: System)
    requires Enabled(s, e) && !e.Receive? && !e.CoreStep? && t == Next(reader, s, e)
    ensures t.cores == s.cores && t.stored == s.stored
  {
  }

  lemma CoresHoldAfter(reader: Reader, s: System, e: Event)
    requires CoresHold(reader, s) && Enabled(s, e)
    ensures CoresHold(reader, Next(reader, s, e))
  {
    match e
    case Receive(m, chunks, authorFound) => ReceiveKeeps(reader, s, m, ItemOf(reader, m, chunks, authorFound));
    case CoreStep(target, step) => CoreStepKeeps(reader, s, target, step);
    case _ => CoresUntouched(reader, s, e, Next(reader, s, e));
  }

  lemma NextKeepsInvariant(reader: Reader, s: System, e: Event)
    requires Invariant(reader, s) && Enabled(s, e)
    ensures Invariant(reader, Next(reader, s, e))
  {
    SoundAfter(reader, s, e);
    NumberedAfter(reader, s, e);
    SourcedAfter(reader, s, e);
    AccountedAfter(reader, s, e);
    CoresHoldAfter(reader, s, e);
  }

  lemma {:induction false} RunKeepsInvariant(reader: Reader, s: System, es: seq<Event>)
    requires Invariant(reader, s) && ValidRun(reader, s, es)
    ensures Invariant(reader, Run(reader, s, es))
    decreases |es|
  {
    if es != [] {
      NextKeepsInvariant(reader, s, es[0]);
      RunKeepsInvariant(reader, Next(reader, s, es[0]), es[1..]);
    }
  }

  // Main results

  /**
   At least once plus idempotent ingest gives exactly once, with crashes, lost and repeated
   messages: whatever was reported `stored` is in that Core under its id, once, with the content it
   was sent with, up to newline form; and body and scope are those spooled for that pair, unless a
   retry read an envelope that no longer had a scope for its target. Every accepted pair is pending
   or was answered.
   */
  lemma EndToEnd(reader: Reader, targets: set<string>, es: seq<Event>)
    requires ValidRun(reader, Initial(targets), es)
    ensures var s := Run(reader, Initial(targets), es);
            && (forall m | m in s.reported :: HeldByCore(reader, s.cores, m))
            && (forall m | m in s.reported :: m.target in s.cores && m.write.recordId in s.cores[m.target].records
                  && NormalizeNewlines(s.cores[m.target].records[m.write.recordId].content)
                     == NormalizeNewlines(reader.content(m.write.body)))
            && (forall m | m in s.reported && m.task !in s.astray :: Effect(m) in s.spooled)
            && (forall p | p in s.accepted :: IsPending(s.mcp.disk.spool, p) || Answered(s, p))
            && (forall p | StoredPair(s, p) :: p.1 in s.cores && p.0 in s.cores[p.1].records)
            && (forall t | t in s.cores :: Valid(s.cores[t]))
  {
    InitialInvariant(reader, targets);
    RunKeepsInvariant(reader, Initial(targets), es);
    var s := Run(reader, Initial(targets), es);
    forall m | m in s.reported ensures HeldByCore(reader, s.cores, m) && Valid(s.cores[m.target]) {
      assert m in s.stored;
    }
    forall p | StoredPair(s, p) ensures p.1 in s.cores && p.0 in s.cores[p.1].records {
      var m :| m in s.stored && PairOf(m) == p;
      assert HeldByCore(reader, s.cores, m);
    }
  }

  /** What a Core holds for a record never changes again: the first content it ingested stays. */
  lemma {:induction false} FirstContentStays(reader: Reader, s: System, es: seq<Event>)
    requires ValidRun(reader, s, es)
    ensures s.cores.Keys == Run(reader, s, es).cores.Keys
    ensures forall t | t in s.cores :: Extends(s.cores[t], Run(reader, s, es).cores[t])
    decreases |es|
  {
    if es != [] {
      var next := Next(reader, s, es[0]);
      CoresExtend(reader, s, es[0]);
      FirstContentStays(reader, next, es[1..]);
      forall t | t in s.cores ensures Extends(s.cores[t], Run(reader, s, es).cores[t]) {
        ExtendsTransitive(s.cores[t], next.cores[t], Run(reader, s, es).cores[t]);
      }
    }
  }

  lemma CoresExtend(reader: Reader, s: System, e: Event)
    requires Enabled(s, e)
    ensures s.cores.Keys == Next(reader, s, e).cores.Keys
    ensures forall t | t in s.cores :: Extends(s.cores[t], Next(reader, s, e).cores[t])
  {
    match e
    case Receive(m, chunks, authorFound) => ReceivedExtends(reader, s, m, ItemOf(reader, m, chunks, authorFound));
    case CoreStep(target, step) => NextExtends(s.cores[target], step);
    case _ => CoresUntouched(reader, s, e, Next(reader, s, e));
  }

  lemma ReceivedExtends(reader: Reader, s: System, m: Message, item: Item)
    requires m.target in s.cores
    ensures s.cores.Keys == Received(reader, s, m, item).cores.Keys
    ensures forall t | t in s.cores :: Extends(s.cores[t], Received(reader, s, m, item).cores[t])
  {
    if IngestRecords(s.cores[m.target], m.scope, reader.session(m.write.body), [item]).Ok? {
      BatchExtends(s.cores[m.target], m.scope, reader.session(m.write.body), [item]);
    }
  }

  /**
   A delivery that is never refused is retried until it is stored: an accepted pair that was not
   answered is in the queue whenever the process is up, where a retry pass finds it once it is due
   and within the pass's limit.
   */
  lemma UnansweredIsQueued(reader: Reader, s: System, p: Pair)
    requires Invariant(reader, s) && s.mcp.up && p in s.accepted && !Answered(s, p)
    ensures p in Keys(s.mcp.disk.queue) && p.0 in s.mcp.disk.spool
  {
    assert IsPending(s.mcp.disk.spool, p);
    PendingIsPending(s.mcp.disk.spool);
  }
}
