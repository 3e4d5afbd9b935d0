/**
 Two things the delivery of Delivery.dfy does not promise, each with its exact condition and with
 runs from an empty system that show it.

 A resolve names a pair and not an acceptance, so that a missing mark, or a delivery of another body
 or with an answer already, left over from an earlier acceptance takes a later acceptance of the same
 pair out of the spool (apps/mcp/src/router.ts:593-632). And a retry reads the record by its id alone, so that it posts
 whatever is spooled under that id to the target it was listed for (router.ts:593-607, 634-648).
 */
module DeliveryRuns {
  import opened Delivery
  import opened Ingest
  import opened Json
  import opened RetryQueue
  import opened RetryQueueProofs
  import opened Scopes
  import opened Seqs
  import opened Wrappers

  // Runs put together

  lemma OneStep(reader: Reader, s: System, e: Delivery.Event)
    requires Enabled(s, e)
    ensures Delivery.ValidRun(reader, s, [e]) && Delivery.Run(reader, s, [e]) == Delivery.Next(reader, s, e)
  {
    var t := Delivery.Next(reader, s, e);
    assert [e][1..] == [];
    assert Delivery.ValidRun(reader, t, []);
    assert Delivery.Run(reader, t, []) == t;
  }

  lemma {:induction false} RunConcat(reader: Reader, s: System, es: seq<Delivery.Event>, fs: seq<Delivery.Event>)
    requires Delivery.ValidRun(reader, s, es) && Delivery.ValidRun(reader, Delivery.Run(reader, s, es), fs)
    ensures Delivery.ValidRun(reader, s, es + fs)
    ensures Delivery.Run(reader, s, es + fs) == Delivery.Run(reader, Delivery.Run(reader, s, es), fs)
    decreases |es|
  {
    if es == [] {
      assert es + fs == fs;
    } else {
      assert (es + fs)[0] == es[0] && (es + fs)[1..] == es[1..] + fs;
      RunConcat(reader, Delivery.Next(reader, s, es[0]), es[1..], fs);
    }
  }

  /** One more step at the end of a run that ends in `t`. */
  lemma Extend(reader: Reader, s: System, es: seq<Delivery.Event>, t: System, e: Delivery.Event)
    returns (fs: seq<Delivery.Event>)
    requires Delivery.ValidRun(reader, s, es) && Delivery.Run(reader, s, es) == t && Enabled(t, e)
    ensures Delivery.ValidRun(reader, s, fs) && Delivery.Run(reader, s, fs) == Delivery.Next(reader, t, e)
    ensures fs == es + [e]
  {
    OneStep(reader, t, e);
    RunConcat(reader, s, es, [e]);
    fs := es + [e];
  }

  // An acceptance is kept

  /** The queue's own notion of one record: bodies with the same canonical text. */
  predicate SameBody(a: Value, b: Value) {
    CanonicalJson(a) == CanonicalJson(b)
  }

  /** The pair is in the spool with this body. */
  predicate Waiting(s: System, p: Pair, body: Value) {
    IsPending(s.mcp.disk.spool, p) && SameBody(s.mcp.disk.spool[p.0].write.body, body)
  }

  predicate Answers(s: System, m: Message) {
    m in s.stored || m in s.refused
  }

  /** A message of this body for the pair was answered between `s` and `u`, whichever delivery sent it. */
  predicate IsNewAnswer(s: System, u: System, m: Message, p: Pair, body: Value) {
    Answers(u, m) && !Answers(s, m) && PairOf(m) == p && SameBody(m.write.body, body)
  }

  ghost predicate NewAnswer(s: System, u: System, p: Pair, body: Value) {
    exists m :: IsNewAnswer(s, u, m, p, body)
  }

  /** In `u` the acceptance of this body, made in `s`, is pending or was answered since. */
  ghost predicate Kept(s: System, u: System, p: Pair, body: Value) {
    Waiting(u, p, body) || NewAnswer(s, u, p, body)
  }

  /** The acceptance made in `s` is kept in whatever happens from `t` on. */
  ghost predicate KeptForever(reader: Reader, s: System, t: System, p: Pair, body: Value) {
    forall es | Delivery.ValidRun(reader, t, es) :: Kept(s, Delivery.Run(reader, t, es), p, body)
  }

  /** A message of the delivery has been answered already. */
  ghost predicate AnsweredTask(s: System, id: nat) {
    exists m :: Answers(s, m) && m.task == id
  }

  /**
   The delivery may resolve the pair without an answer to this body: it found the file gone, it
   posts another body, or its answer has come already.
   */
  ghost predicate Risky(s: System, id: nat, p: Pair, body: Value) {
    && id in s.tasks && TaskPair(s.tasks[id]) == p
    && (s.tasks[id].Missing? || AnsweredTask(s, id) || (s.tasks[id].Delivering? && !SameBody(s.tasks[id].write.body, body)))
  }

  /** A delivery of a later state that can resolve the pair only after a new answer to its body. */
  ghost predicate Harmless(s: System, t: Task, id: nat, p: Pair, body: Value) {
    TaskPair(t) == p ==> !t.Missing? && !AnsweredTask(s, id) && (t.Delivering? ==> SameBody(t.write.body, body))
  }

  ghost predicate Safe(s: System, u: System, p: Pair, body: Value) {
    && s.next <= u.next
    && (NewAnswer(s, u, p, body)
        || (Waiting(u, p, body) && forall id | id in u.tasks :: Harmless(s, u.tasks[id], id, p, body)))
  }

  lemma NewAnswerStays(s: System, u: System, t: System, p: Pair, body: Value)
    requires NewAnswer(s, u, p, body) && u.stored <= t.stored && u.refused <= t.refused
    ensures NewAnswer(s, t, p, body)
  {
    var m :| IsNewAnswer(s, u, m, p, body);
    assert IsNewAnswer(s, t, m, p, body);
  }

  /** The resolve of a harmless delivery follows a new answer. */
  lemma ReleaseIsAnswer(s: System, u: System, e: Delivery.Event, p: Pair, body: Value)
    requires Enabled(u, e) && forall id | id in u.tasks :: Harmless(s, u.tasks[id], id, p, body)
    requires QueueEvent(u, e).Some? && Releases(QueueEvent(u, e).value, p)
    ensures NewAnswer(s, u, p, body)
  {
    var id := if e.FinishMissing? then e.id else e.m.task;
    assert Harmless(s, u.tasks[id], id, p, body);
    if e.FinishMissing? {
      assert false;
    } else {
      assert IsNewAnswer(s, u, e.m, p, body);
    }
  }

  /** Nothing was answered for a delivery that had not begun. */
  lemma NewTaskUnanswered(s: System, id: nat)
    requires Numbered(s) && id >= s.next
    ensures !AnsweredTask(s, id)
  {
    forall m | Answers(s, m) ensures m.task != id {
      assert Owned(s, m);
    }
  }

  lemma TaskHarmless(reader: Reader, s: System, u: System, e: Delivery.Event, t: System, p: Pair, body: Value, id: nat)
    requires Numbered(s) && s.next <= u.next
    requires Sound(u.mcp) && Enabled(u, e) && t == Delivery.Next(reader, u, e)
    requires Waiting(u, p, body) && Waiting(t, p, body)
    requires forall i | i in u.tasks :: Harmless(s, u.tasks[i], i, p, body)
    requires id in t.tasks
    ensures Harmless(s, t.tasks[id], id, p, body)
  {
    TaskOrigins(reader, u, e, t);
    assert TaskOrigin(u, e, t, id);
    if id in u.tasks && t.tasks[id] == u.tasks[id] {
      assert Harmless(s, u.tasks[id], id, p, body);
    } else if e.Submit? {
      SubmittedSpool(reader, u, e, t);
      NewTaskUnanswered(s, id);
    } else if e.ReadSpool? {
      assert Harmless(s, u.tasks[id], id, p, body);
      assert t.mcp == u.mcp;
    } else {
      NewTaskUnanswered(s, id);
    }
  }

  /** What memoryRecord delivers is what is spooled under its id. */
  lemma SubmittedSpool(reader: Reader, s: System, e: Delivery.Event, t: System)
    requires Sound(s.mcp) && Enabled(s, e) && e.Submit? && t == Delivery.Next(reader, s, e) && t.mcp.up
    requires EnqueueWrites(s.mcp.disk, e.w, e.targets, e.now).Ok?
    ensures e.w.recordId in t.mcp.disk.spool
    ensures Persisted(t.mcp.disk, e.w) == t.mcp.disk.spool[e.w.recordId].write
    ensures Persisted(t.mcp.disk, e.w).recordId == e.w.recordId
  {
    assert t.mcp.disk.spool == EnqueueSpool(s.mcp.disk, e.w, e.targets).value;
  }

  lemma SafeAfter(reader: Reader, s: System, u: System, e: Delivery.Event, p: Pair, body: Value)
    requires Numbered(s) && Sound(u.mcp) && Enabled(u, e) && Safe(s, u, p, body)
    ensures Safe(s, Delivery.Next(reader, u, e), p, body)
  {
    var t := Delivery.Next(reader, u, e);
    NextGrows(reader, u, e, t);
    if NewAnswer(s, u, p, body) {
      NewAnswerStays(s, u, t, p, body);
    } else if QueueEvent(u, e).Some? && Releases(QueueEvent(u, e).value, p) {
      ReleaseIsAnswer(s, u, e, p, body);
      assert false;
    } else {
      PendingStays(reader, u, e, p);
      forall id | id in t.tasks ensures Harmless(s, t.tasks[id], id, p, body) {
        TaskHarmless(reader, s, u, e, t, p, body, id);
      }
    }
  }

  lemma {:induction false} SafeIsKept(reader: Reader, s: System, u: System, es: seq<Delivery.Event>, p: Pair, body: Value)
    requires Numbered(s) && Invariant(reader, u) && Safe(s, u, p, body) && Delivery.ValidRun(reader, u, es)
    ensures Kept(s, Delivery.Run(reader, u, es), p, body)
    decreases |es|
  {
    if es != [] {
      NextKeepsInvariant(reader, u, es[0]);
      SafeAfter(reader, s, u, es[0], p, body);
      SafeIsKept(reader, s, Delivery.Next(reader, u, es[0]), es[1..], p, body);
    }
  }

  /** An ordinary retry that has not read its record yet is never risky: it has sent nothing. */
  lemma ListedIsNotRisky(s: System, id: nat, p: Pair, body: Value)
    requires Numbered(s) && id in s.tasks && s.tasks[id].Listed?
    ensures !Risky(s, id, p, body)
  {
    forall m | Answers(s, m) ensures m.task != id {
      assert Owned(s, m);
    }
  }

  // An acceptance that is lost

  /** The pair has left the spool, and since `s` no Core stored anything or refused this body. */
  ghost predicate Dropped(s: System, u: System, p: Pair, body: Value) {
    && !IsPending(u.mcp.disk.spool, p) && u.stored == s.stored
    && forall m | m in u.refused && m !in s.refused :: !SameBody(m.write.body, body)
  }

  /** A resolve whose writes all happen takes the pair out of the spool. */
  lemma ResolvedIsGone(s: System, id: nat, p: Pair)
    requires Sound(s.mcp) && s.mcp.up
    ensures !IsPending(Resolved(s, id, p, 2).mcp.disk.spool, p)
  {
    var ws := ResolveWrites(s.mcp.disk, p);
    ResolveKeepsAgreement(s.mcp.disk, p);
    PendingIsPending(ws[|ws| - 1].spool);
    assert ws[|ws| - 1] in ws;
    assert Resolved(s, id, p, 2).mcp.disk == ws[|ws| - 1];
  }

  /** A missing mark is resolved. */
  lemma MissingDrops(reader: Reader, s: System, id: nat, body: Value) returns (es: seq<Delivery.Event>)
    requires Invariant(reader, s) && s.mcp.up && id in s.tasks && s.tasks[id].Missing?
    ensures Delivery.ValidRun(reader, s, es) && Dropped(s, Delivery.Run(reader, s, es), s.tasks[id].p, body)
  {
    OneStep(reader, s, Delivery.FinishMissing(id, 2));
    ResolvedIsGone(s, id, s.tasks[id].p);
    es := [Delivery.FinishMissing(id, 2)];
  }

  /** A delivery acts on the answer it has. */
  lemma AnsweredDrops(reader: Reader, s: System, m: Message, body: Value) returns (es: seq<Delivery.Event>)
    requires Invariant(reader, s) && Awaits(s, m) && Answers(s, m)
    ensures Delivery.ValidRun(reader, s, es) && Dropped(s, Delivery.Run(reader, s, es), PairOf(m), body)
  {
    var e := if m in s.stored then FinishStored(m, 2) else FinishRefused(m, 2);
    OneStep(reader, s, e);
    ResolvedIsGone(s, m.task, PairOf(m));
    es := [e];
  }

  /** A Core refuses what the delivery sends. */
  function Rejected(s: System, m: Message): System {
    s.(sent := s.sent + {m}, refused := s.refused + {m})
  }

  lemma Rejecting(reader: Reader, s: System, m: Message) returns (es: seq<Delivery.Event>)
    requires Awaits(s, m) && (m.target in m.write.scopes ==> m.scope == m.write.scopes[m.target])
    ensures Delivery.ValidRun(reader, s, es)
    ensures Delivery.Run(reader, s, es) == Rejected(s, m)
  {
    OneStep(reader, s, Send(m.task, m.scope));
    es := Extend(reader, s, [Send(m.task, m.scope)], s.(sent := s.sent + {m}), Refuse(m));
  }

  /** A delivery of another body is refused by Core. */
  lemma OtherBodyDrops(reader: Reader, s: System, id: nat, body: Value) returns (es: seq<Delivery.Event>)
    requires Invariant(reader, s) && s.mcp.up && id in s.tasks && s.tasks[id].Delivering? && !SameBody(s.tasks[id].write.body, body)
    ensures Delivery.ValidRun(reader, s, es) && Dropped(s, Delivery.Run(reader, s, es), TaskPair(s.tasks[id]), body)
  {
    var w, target := s.tasks[id].write, s.tasks[id].target;
    var m := Message(id, w, target, if target in w.scopes then w.scopes[target] else Scope("", ""));
    es := Rejecting(reader, s, m);
    RefusalDrops(reader, s, m, body);
    es := Extend(reader, s, es, Rejected(s, m), FinishRefused(m, 2));
  }

  lemma RefusalDrops(reader: Reader, s: System, m: Message, body: Value)
    requires Sound(s.mcp) && Awaits(s, m) && !SameBody(m.write.body, body)
    ensures Enabled(Rejected(s, m), FinishRefused(m, 2))
    ensures Dropped(s, Delivery.Next(reader, Rejected(s, m), FinishRefused(m, 2)), PairOf(m), body)
  {
    ResolvedIsGone(Rejected(s, m), m.task, PairOf(m));
    var t := Resolved(Rejected(s, m), m.task, PairOf(m), 2);
    assert t.stored == s.stored && t.refused == s.refused + {m};
  }

  /** A risky delivery can take the pair out of the spool without a new answer to this body. */
  lemma RiskyDrops(reader: Reader, s: System, id: nat, p: Pair, body: Value) returns (es: seq<Delivery.Event>)
    requires Invariant(reader, s) && s.mcp.up && Risky(s, id, p, body)
    ensures Delivery.ValidRun(reader, s, es) && Dropped(s, Delivery.Run(reader, s, es), p, body)
  {
    if s.tasks[id].Missing? {
      es := MissingDrops(reader, s, id, body);
    } else if AnsweredTask(s, id) {
      var m :| Answers(s, m) && m.task == id;
      assert Owned(s, m);
      es := AnsweredDrops(reader, s, m, body);
    } else {
      es := OtherBodyDrops(reader, s, id, body);
    }
  }

  // Exactly when

  /** What a submission leaves of the deliveries before it. */
  lemma SubmitTasks(s: System, w: Write, targets: seq<string>, now: int, done: nat, t: System)
    requires Numbered(s) && t == Submitted(s, w, targets, now, done)
    requires EnqueueWrites(s.mcp.disk, w, targets, now).Ok?
    ensures t.stored == s.stored && t.refused == s.refused && s.next <= t.next
    ensures t.mcp.up ==> forall id | id in s.tasks :: id in t.tasks && t.tasks[id] == s.tasks[id]
    ensures !t.mcp.up ==> t.tasks == map[]
  {
  }

  /** The call `e` accepts the pair in `s`, with this body. */
  ghost predicate Accepts(reader: Reader, s: System, e: Delivery.Event, t: System, p: Pair, body: Value) {
    && Invariant(reader, s) && e.Submit? && Enabled(s, e) && t == Delivery.Next(reader, s, e)
    && EnqueueWrites(s.mcp.disk, e.w, e.targets, e.now).Ok?
    && p.0 == e.w.recordId && IsPending(t.mcp.disk.spool, p) && body == t.mcp.disk.spool[p.0].write.body
  }

  lemma SafeAtStart(reader: Reader, s: System, e: Delivery.Event, t: System, p: Pair, body: Value)
    requires Accepts(reader, s, e, t, p, body)
    requires t.mcp.up ==> forall id :: !Risky(s, id, p, body)
    ensures Safe(s, t, p, body)
  {
    SubmitTasks(s, e.w, e.targets, e.now, e.done, t);
    TaskOrigins(reader, s, e, t);
    if t.mcp.up {
      SubmittedSpool(reader, s, e, t);
      forall id | id in t.tasks ensures Harmless(s, t.tasks[id], id, p, body) {
        assert TaskOrigin(s, e, t, id);
        if id in s.tasks {
          assert !Risky(s, id, p, body);
        } else {
          NewTaskUnanswered(s, id);
        }
      }
    }
  }

  lemma RiskyAtStart(reader: Reader, s: System, e: Delivery.Event, t: System, p: Pair, body: Value, id: nat)
    returns (es: seq<Delivery.Event>)
    requires Accepts(reader, s, e, t, p, body) && t.mcp.up && Risky(s, id, p, body)
    ensures Delivery.ValidRun(reader, t, es) && Dropped(s, Delivery.Run(reader, t, es), p, body)
  {
    NextKeepsInvariant(reader, s, e);
    SubmitTasks(s, e.w, e.targets, e.now, e.done, t);
    if AnsweredTask(s, id) {
      var m :| Answers(s, m) && m.task == id;
      assert Answers(t, m);
    }
    assert Risky(t, id, p, body);
    es := RiskyDrops(reader, t, id, p, body);
  }

  /**
   An accepted pair stays pending until a message of its body is answered that was not answered
   before, in every run that follows, exactly if the process died in the call or no delivery of the
   pair in progress at the call was risky. A listed entry is not: it reads what is spooled.
   */
  lemma AcceptanceKeptCondition(reader: Reader, s: System, e: Delivery.Event, t: System, p: Pair, body: Value)
    requires Accepts(reader, s, e, t, p, body)
    ensures KeptForever(reader, s, t, p, body) <==> !t.mcp.up || forall id :: !Risky(s, id, p, body)
  {
    NextKeepsInvariant(reader, s, e);
    if !t.mcp.up || forall id :: !Risky(s, id, p, body) {
      SafeAtStart(reader, s, e, t, p, body);
      forall es | Delivery.ValidRun(reader, t, es) ensures Kept(s, Delivery.Run(reader, t, es), p, body) {
        SafeIsKept(reader, s, t, es, p, body);
      }
    } else {
      var id :| Risky(s, id, p, body);
      var es := RiskyAtStart(reader, s, e, t, p, body, id);
      assert !Kept(s, Delivery.Run(reader, t, es), p, body);
    }
  }

  // The same for what the caller wants

  /** A Core has stored this body for the pair. */
  ghost predicate StoredBody(s: System, p: Pair, body: Value) {
    exists m :: m in s.stored && PairOf(m) == p && SameBody(m.write.body, body)
  }

  /** A Core has refused this body for the pair between `s` and `u`. */
  ghost predicate RefusedSince(s: System, u: System, p: Pair, body: Value) {
    exists m :: m in u.refused && m !in s.refused && PairOf(m) == p && SameBody(m.write.body, body)
  }

  /** In `u` the body accepted in `s` is pending, was stored at some time, or was refused since. */
  ghost predicate Served(s: System, u: System, p: Pair, body: Value) {
    Waiting(u, p, body) || StoredBody(u, p, body) || RefusedSince(s, u, p, body)
  }

  ghost predicate ServedForever(reader: Reader, s: System, t: System, p: Pair, body: Value) {
    forall es | Delivery.ValidRun(reader, t, es) :: Served(s, Delivery.Run(reader, t, es), p, body)
  }

  lemma KeptIsServed(s: System, u: System, p: Pair, body: Value)
    requires Kept(s, u, p, body)
    ensures Served(s, u, p, body)
  {
    if NewAnswer(s, u, p, body) {
      var m :| IsNewAnswer(s, u, m, p, body);
      assert m in u.stored || (m in u.refused && m !in s.refused);
    }
  }

  lemma {:induction false} StoredStays(reader: Reader, s: System, es: seq<Delivery.Event>, m: Message)
    requires Delivery.ValidRun(reader, s, es) && m in s.stored
    ensures m in Delivery.Run(reader, s, es).stored
    decreases |es|
  {
    if es != [] {
      NextGrows(reader, s, es[0], Delivery.Next(reader, s, es[0]));
      StoredStays(reader, Delivery.Next(reader, s, es[0]), es[1..], m);
    }
  }

  lemma StoredIsServed(reader: Reader, s: System, t: System, p: Pair, body: Value)
    requires StoredBody(s, p, body) && s.stored <= t.stored
    ensures ServedForever(reader, s, t, p, body)
  {
    var m :| m in s.stored && PairOf(m) == p && SameBody(m.write.body, body);
    forall es | Delivery.ValidRun(reader, t, es) ensures Served(s, Delivery.Run(reader, t, es), p, body) {
      StoredStays(reader, t, es, m);
      assert StoredBody(Delivery.Run(reader, t, es), p, body);
    }
  }

  /**
   An accepted body is pending, stored, or refused after the call, in every run that follows,
   exactly if the process died in the call, a Core had stored it for the pair already, or no delivery
   of the pair in progress at the call was risky.
   */
  lemma AcceptanceServedCondition(reader: Reader, s: System, e: Delivery.Event, t: System, p: Pair, body: Value)
    requires Accepts(reader, s, e, t, p, body)
    ensures ServedForever(reader, s, t, p, body)
            <==> !t.mcp.up || StoredBody(s, p, body) || forall id :: !Risky(s, id, p, body)
  {
    SubmitTasks(s, e.w, e.targets, e.now, e.done, t);
    if StoredBody(s, p, body) {
      StoredIsServed(reader, s, t, p, body);
    } else if !t.mcp.up || forall id :: !Risky(s, id, p, body) {
      AcceptanceKeptCondition(reader, s, e, t, p, body);
      forall es | Delivery.ValidRun(reader, t, es) ensures Served(s, Delivery.Run(reader, t, es), p, body) {
        KeptIsServed(s, Delivery.Run(reader, t, es), p, body);
      }
    } else {
      var id :| Risky(s, id, p, body);
      var es := RiskyAtStart(reader, s, e, t, p, body, id);
      assert !Served(s, Delivery.Run(reader, t, es), p, body);
    }
  }

  // Runs from an empty system in which an acceptance is lost

  const EMPTY := Disk(map[], [])

  /** A write for one target. */
  predicate Deliverable(w: Write, target: string) {
    IsRecordId(w.recordId) && w.order == [target] && w.scopes.Keys == {target}
  }

  function OneSpooled(w: Write, target: string): Disk {
    Disk(map[w.recordId := Envelope(w, [target])], [FreshEntry(w.recordId, target, 0, None)])
  }

  function SubmitOne(w: Write, target: string): Delivery.Event {
    Submit(w, [target], 0, 2)
  }

  function Accepting(s: System, w: Write, target: string): System
    requires Deliverable(w, target)
  {
    s.(mcp := Process(OneSpooled(w, target), true),
       accepted := s.accepted + {(w.recordId, target)},
       spooled := s.spooled + {((w.recordId, target), w.body, w.scopes[target])},
       tasks := s.tasks[s.next := Delivering(w, target)],
       next := s.next + 1)
  }

  lemma EnqueueOnEmpty(w: Write, target: string)
    requires Deliverable(w, target)
    ensures EnqueueWrites(EMPTY, w, [target], 0) == Ok([Disk(OneSpooled(w, target).spool, []), OneSpooled(w, target)])
  {
    var entry := FreshEntry(w.recordId, target, 0, None);
    var spool: map<string, Envelope> := map[][w.recordId := Envelope(w, [target])];
    assert EnqueueSpool(EMPTY, w, [target]) == Ok(spool);
    assert w.recordId in spool && spool != EMPTY.spool;
    assert [target][..0] == [];
    assert NewEntries(Keys([]), w.recordId, [target][..0], 0) == [];
    assert (w.recordId, target) !in Keys([]);
    assert NewEntries(Keys([]), w.recordId, [target], 0) == [entry];
    assert EMPTY.queue + [entry] == [entry];
    assert spool == OneSpooled(w, target).spool;
    assert [Disk(spool, [])] + [Disk(spool, [entry])] == [Disk(spool, []), Disk(spool, [entry])];
  }

  lemma SubmitOnEmpty(reader: Reader, s: System, w: Write, target: string)
    requires Deliverable(w, target) && s.mcp == Process(EMPTY, true) && forall id | id in s.tasks :: id < s.next
    ensures Enabled(s, SubmitOne(w, target))
    ensures Delivery.Next(reader, s, SubmitOne(w, target)) == Accepting(s, w, target)
  {
    EnqueueOnEmpty(w, target);
    var d := OneSpooled(w, target);
    var p := (w.recordId, target);
    assert PendingPairs(d.spool) == {p};
    assert SpooledIn(d) == {(p, w.body, w.scopes[target])};
    var t := Moved(s, Process(d, true));
    assert Started(s.next, w, [target]) == map[s.next := Delivering(w, target)];
    assert t.tasks + Started(s.next, w, [target]) == s.tasks[s.next := Delivering(w, target)];
  }

  lemma ResolveOnlyEntry(w: Write, target: string)
    ensures ResolveWrites(OneSpooled(w, target), (w.recordId, target)) == [Disk(map[], OneSpooled(w, target).queue), EMPTY]
  {
    var d := OneSpooled(w, target);
    assert [target][..0] == [] && Without([], target) == [];
    assert Without([target], target) == [];
    assert d.queue[..0] == [] && WithoutKey([], (w.recordId, target)) == [];
    assert WithoutKey(d.queue, (w.recordId, target)) == [];
    assert d.spool - {w.recordId} == map[];
  }

  /** Resolving the only pair empties the queue. */
  lemma ResolveLast(s: System, id: nat, w: Write, target: string)
    requires s.mcp == Process(OneSpooled(w, target), true)
    ensures Resolved(s, id, (w.recordId, target), 2) == s.(mcp := Process(EMPTY, true), tasks := s.tasks - {id})
  {
    ResolveOnlyEntry(w, target);
    assert PendingPairs(map[]) == {} && SpooledIn(EMPTY) == {};
  }

  /** A crash and a restart over an empty directory end the deliveries in progress. */
  lemma RestartOnEmpty(reader: Reader, s: System) returns (es: seq<Delivery.Event>)
    requires s.mcp == Process(EMPTY, true)
    ensures Delivery.ValidRun(reader, s, es) && Delivery.Run(reader, s, es) == s.(tasks := map[])
  {
    var s1 := s.(mcp := Process(EMPTY, false), tasks := map[]);
    assert PendingPairs(map[]) == {} && SpooledIn(EMPTY) == {};
    EmptyDirectorySound();
    ReconcileIdle(EMPTY, [], 0);
    OneStep(reader, s, Crash);
    es := Extend(reader, s, [Crash], s1, Restart([], 0));
  }

  function MessageOf(id: nat, w: Write, target: string): Message
    requires target in w.scopes
  {
    Message(id, w, target, w.scopes[target])
  }

  /** The first write is accepted, a retry pass lists it, and its delivery is refused and resolved. */
  function AfterRefusal(targets: set<string>, w: Write, target: string): System
    requires Deliverable(w, target)
  {
    var m := MessageOf(0, w, target);
    Initial(targets).(tasks := map[1 := Listed((w.recordId, target))], next := 2, sent := {m}, refused := {m},
                      accepted := {PairOf(m)}, spooled := {Effect(m)})
  }

  /** The first write is accepted and a retry pass lists it. */
  function ListedOnce(targets: set<string>, w: Write, target: string): System
    requires Deliverable(w, target)
  {
    Begun(Accepting(Initial(targets), w, target), Listed((w.recordId, target)))
  }

  lemma AcceptedAndListed(reader: Reader, targets: set<string>, w: Write, target: string) returns (es: seq<Delivery.Event>)
    requires Deliverable(w, target)
    ensures Delivery.ValidRun(reader, Initial(targets), es)
    ensures Delivery.Run(reader, Initial(targets), es) == ListedOnce(targets, w, target)
  {
    var s := Accepting(Initial(targets), w, target);
    SubmitOnEmpty(reader, Initial(targets), w, target);
    OneStep(reader, Initial(targets), SubmitOne(w, target));
    assert FreshEntry(w.recordId, target, 0, None) in s.mcp.disk.queue;
    es := Extend(reader, Initial(targets), [SubmitOne(w, target)], s, List((w.recordId, target)));
  }

  /** A delivery of the only pending write is refused and resolves it. */
  lemma RefusedAndResolved(reader: Reader, s: System, id: nat, w: Write, target: string) returns (es: seq<Delivery.Event>)
    requires Deliverable(w, target) && s.mcp == Process(OneSpooled(w, target), true)
    requires id in s.tasks && s.tasks[id] == Delivering(w, target)
    ensures Delivery.ValidRun(reader, s, es)
    ensures Delivery.Run(reader, s, es) == Rejected(s, MessageOf(id, w, target)).(mcp := Process(EMPTY, true), tasks := s.tasks - {id})
  {
    var m := MessageOf(id, w, target);
    es := Rejecting(reader, s, m);
    ResolveLast(Rejected(s, m), id, w, target);
    es := Extend(reader, s, es, Rejected(s, m), FinishRefused(m, 2));
  }

  lemma RefusedWhileListed(reader: Reader, targets: set<string>, w: Write, target: string) returns (es: seq<Delivery.Event>)
    requires Deliverable(w, target)
    ensures Delivery.ValidRun(reader, Initial(targets), es)
    ensures Delivery.Run(reader, Initial(targets), es) == AfterRefusal(targets, w, target)
  {
    var s := ListedOnce(targets, w, target);
    es := AcceptedAndListed(reader, targets, w, target);
    var fs := RefusedAndResolved(reader, s, 0, w, target);
    RunConcat(reader, Initial(targets), es, fs);
    es := es + fs;
    assert s.tasks - {0} == map[1 := Listed((w.recordId, target))];
  }

  /**
   After `before` the call `e` accepts the pair; at the end of `after` nothing is pending or in
   progress, nothing was answered since, and no delivery begun since has sent a message for the pair:
   the acceptance is lost for good.
   */
  ghost predicate LosesAcceptance(reader: Reader, targets: set<string>, before: seq<Delivery.Event>,
                                  e: Delivery.Event, after: seq<Delivery.Event>, p: Pair) {
    && Delivery.ValidRun(reader, Initial(targets), before)
    && var s := Delivery.Run(reader, Initial(targets), before);
       && Enabled(s, e)
       && var t := Delivery.Next(reader, s, e);
          && t.mcp.up && IsPending(t.mcp.disk.spool, p) && Delivery.ValidRun(reader, t, after)
          && var u := Delivery.Run(reader, t, after);
             && u.mcp.up && u.tasks == map[] && !IsPending(u.mcp.disk.spool, p)
             && u.stored == s.stored && u.refused == s.refused
             && forall m | m in u.sent && PairOf(m) == p :: m.task < s.next
  }

  /** A resolve by a delivery begun before, and then a crash. */
  lemma LosesFrom(reader: Reader, targets: set<string>, before: seq<Delivery.Event>, s: System, again: Write, target: string,
                  e: Delivery.Event) returns (after: seq<Delivery.Event>)
    requires Deliverable(again, target) && Delivery.ValidRun(reader, Initial(targets), before)
    requires Delivery.Run(reader, Initial(targets), before) == s && s.mcp == Process(EMPTY, true) && Numbered(s)
    requires Enabled(Accepting(s, again, target), e)
    requires Delivery.Next(reader, Accepting(s, again, target), e)
             == Resolved(Accepting(s, again, target), 1, (again.recordId, target), 2)
    ensures LosesAcceptance(reader, targets, before, SubmitOne(again, target), after, (again.recordId, target))
  {
    SubmitOnEmpty(reader, s, again, target);
    var t := Accepting(s, again, target);
    ResolveLast(t, 1, again, target);
    var u := Resolved(t, 1, (again.recordId, target), 2);
    OneStep(reader, t, e);
    var fs := RestartOnEmpty(reader, u);
    RunConcat(reader, t, [e], fs);
    after := [e] + fs;
  }

  /**
   A retry pass has listed the pair when its delivery is refused; it finds the file gone; the
   record is accepted again; then the retry resolves the pair.
   */
  lemma MissingMarkLosesAcceptance(reader: Reader, w: Write, again: Write, target: string)
    returns (before: seq<Delivery.Event>, after: seq<Delivery.Event>)
    requires Deliverable(w, target) && Deliverable(again, target) && again.recordId == w.recordId
    ensures LosesAcceptance(reader, {target}, before, SubmitOne(again, target), after, (w.recordId, target))
  {
    var s := AfterRefusal({target}, w, target);
    var es := RefusedWhileListed(reader, {target}, w, target);
    before := Extend(reader, Initial({target}), es, s, ReadSpool(1));
    var t := s.(tasks := map[1 := Missing((w.recordId, target))]);
    assert s.tasks[1 := Missing((w.recordId, target))] == t.tasks;
    after := LosesFrom(reader, {target}, before, t, again, target, FinishMissing(1, 2));
  }

  /** Two deliveries of the first write, the second one begun by a retry pass. */
  function TwoDeliveries(targets: set<string>, w: Write, target: string): System
    requires Deliverable(w, target)
  {
    var s := Accepting(Initial(targets), w, target);
    s.(tasks := map[0 := Delivering(w, target), 1 := Delivering(w, target)], next := 2)
  }

  lemma DeliveredTwice(reader: Reader, targets: set<string>, w: Write, target: string) returns (es: seq<Delivery.Event>)
    requires Deliverable(w, target)
    ensures Delivery.ValidRun(reader, Initial(targets), es)
    ensures Delivery.Run(reader, Initial(targets), es) == TwoDeliveries(targets, w, target)
  {
    var s := ListedOnce(targets, w, target);
    es := AcceptedAndListed(reader, targets, w, target);
    es := Extend(reader, Initial(targets), es, s, ReadSpool(1));
    assert s.tasks[1 := Delivering(w, target)] == map[0 := Delivering(w, target), 1 := Delivering(w, target)];
  }

  /** Both deliveries are refused and the first one is resolved. */
  function AfterFirst(targets: set<string>, w: Write, target: string): System
    requires Deliverable(w, target)
  {
    var s := Rejected(Rejected(TwoDeliveries(targets, w, target), MessageOf(1, w, target)), MessageOf(0, w, target));
    s.(mcp := Process(EMPTY, true), tasks := map[1 := Delivering(w, target)])
  }

  lemma SecondRefused(reader: Reader, targets: set<string>, w: Write, target: string) returns (es: seq<Delivery.Event>)
    requires Deliverable(w, target)
    ensures Delivery.ValidRun(reader, Initial(targets), es)
    ensures Delivery.Run(reader, Initial(targets), es) == Rejected(TwoDeliveries(targets, w, target), MessageOf(1, w, target))
  {
    es := DeliveredTwice(reader, targets, w, target);
    var fs := Rejecting(reader, TwoDeliveries(targets, w, target), MessageOf(1, w, target));
    RunConcat(reader, Initial(targets), es, fs);
    es := es + fs;
  }

  lemma FirstResolved(reader: Reader, targets: set<string>, w: Write, target: string) returns (es: seq<Delivery.Event>)
    requires Deliverable(w, target)
    ensures Delivery.ValidRun(reader, Initial(targets), es)
    ensures Delivery.Run(reader, Initial(targets), es) == AfterFirst(targets, w, target)
  {
    var s := Rejected(TwoDeliveries(targets, w, target), MessageOf(1, w, target));
    es := SecondRefused(reader, targets, w, target);
    var fs := RefusedAndResolved(reader, s, 0, w, target);
    RunConcat(reader, Initial(targets), es, fs);
    es := es + fs;
    assert s.tasks - {0} == map[1 := Delivering(w, target)];
  }

  /** The stale delivery, refused as well, resolves the pair once the record is accepted again. */
  lemma StaleDeliveryLosesAcceptance(reader: Reader, w: Write, again: Write, target: string)
    returns (before: seq<Delivery.Event>, after: seq<Delivery.Event>)
    requires Deliverable(w, target) && Deliverable(again, target) && again.recordId == w.recordId
    ensures LosesAcceptance(reader, {target}, before, SubmitOne(again, target), after, (w.recordId, target))
  {
    before := FirstResolved(reader, {target}, w, target);
    var s := AfterFirst({target}, w, target);
    after := LosesFrom(reader, {target}, before, s, again, target, FinishRefused(MessageOf(1, w, target), 2));
  }

  // A retry that goes astray

  /** A delivery in progress or ended that has not gone astray never will. */
  ghost predicate OnCourse(s: System, id: nat) {
    id < s.next && id !in s.astray && (id in s.tasks ==> !s.tasks[id].Listed?)
  }

  lemma OnCourseAfter(reader: Reader, s: System, e: Delivery.Event, id: nat)
    requires Enabled(s, e) && OnCourse(s, id)
    ensures OnCourse(Delivery.Next(reader, s, e), id)
  {
    var t := Delivery.Next(reader, s, e);
    NextGrows(reader, s, e, t);
    TaskOrigins(reader, s, e, t);
    assert id in t.tasks ==> TaskOrigin(s, e, t, id);
  }

  /** Every message of the delivery was spooled for its pair, with that body and scope. */
  ghost predicate PostsSourced(s: System, id: nat) {
    forall m | m in s.sent && m.task == id :: Effect(m) in s.spooled
  }

  lemma {:induction false} OnCourseIsSourced(reader: Reader, s: System, es: seq<Delivery.Event>, id: nat)
    requires Invariant(reader, s) && OnCourse(s, id) && Delivery.ValidRun(reader, s, es)
    ensures PostsSourced(Delivery.Run(reader, s, es), id)
    decreases |es|
  {
    if es != [] {
      NextKeepsInvariant(reader, s, es[0]);
      OnCourseAfter(reader, s, es[0], id);
      OnCourseIsSourced(reader, Delivery.Next(reader, s, es[0]), es[1..], id);
    }
  }

  /** The scopes used so far are finitely many. */
  lemma {:induction false} LongestWorkspace(used: set<(Pair, Value, Scope)>) returns (n: nat)
    ensures forall u | u in used :: |u.2.workspace| < n
    decreases |used|
  {
    n := 0;
    if used != {} {
      var u :| u in used;
      n := LongestWorkspace(used - {u});
      if n <= |u.2.workspace| {
        n := |u.2.workspace| + 1;
      }
    }
  }

  /**
   A retry reads the envelope of its listed pair. Whatever it posts from then on was spooled for
   that pair, in every run, exactly if the envelope still has a scope for its target.
   */
  lemma StrayCondition(reader: Reader, s: System, id: nat)
    requires Invariant(reader, s) && Enabled(s, ReadSpool(id)) && s.tasks[id].p.0 in s.mcp.disk.spool && id !in s.astray
    ensures (forall es | Delivery.ValidRun(reader, Delivery.Next(reader, s, ReadSpool(id)), es) ::
               PostsSourced(Delivery.Run(reader, Delivery.Next(reader, s, ReadSpool(id)), es), id))
            <==> s.tasks[id].p.1 in s.mcp.disk.spool[s.tasks[id].p.0].write.scopes
  {
    var p := s.tasks[id].p;
    var w := s.mcp.disk.spool[p.0].write;
    var t := Delivery.Next(reader, s, ReadSpool(id));
    NextKeepsInvariant(reader, s, ReadSpool(id));
    if p.1 in w.scopes {
      forall es | Delivery.ValidRun(reader, t, es) ensures PostsSourced(Delivery.Run(reader, t, es), id) {
        OnCourseIsSourced(reader, t, es, id);
      }
    } else {
      var n := LongestWorkspace(t.spooled);
      var scope := Scope(seq(n, _ => 'w'), "");
      var m := Message(id, w, p.1, scope);
      OneStep(reader, t, Send(id, scope));
      assert m in Delivery.Run(reader, t, [Send(id, scope)]).sent;
      assert Effect(m) !in t.spooled;
    }
  }

  /** The listed target of the first write, and the second write spooled under the same record. */
  function AfterRespool(w: Write, other: Write, target: string, target': string): System
    requires Deliverable(w, target) && Deliverable(other, target')
  {
    Accepting(AfterRefusal({target, target'}, w, target), other, target')
  }

  /** The Core of the target has the session and not the record. */
  function WithSession(reader: Reader, other: Write, scope: Scope): Core {
    Core(map[reader.session(other.body) := Session(scope, 1)], map[], [])
  }

  /** The retry read the second write and posted it to the target of the first. */
  function Straying(reader: Reader, w: Write, other: Write, target: string, target': string, scope: Scope): System
    requires Deliverable(w, target) && Deliverable(other, target')
  {
    var s := Misled(w, other, target, target');
    s.(cores := s.cores[target := WithSession(reader, other, scope)],
       sent := s.sent + {Message(1, other, target, scope)})
  }

  /** The retry has read the second write. */
  function Misled(w: Write, other: Write, target: string, target': string): System
    requires Deliverable(w, target) && Deliverable(other, target')
  {
    AfterRespool(w, other, target, target').(tasks := map[1 := Delivering(other, target), 2 := Delivering(other, target')], astray := {1})
  }

  lemma Respooled(reader: Reader, w: Write, other: Write, target: string, target': string) returns (es: seq<Delivery.Event>)
    requires Deliverable(w, target) && Deliverable(other, target')
    ensures Delivery.ValidRun(reader, Initial({target, target'}), es)
    ensures Delivery.Run(reader, Initial({target, target'}), es) == AfterRespool(w, other, target, target')
  {
    var s := AfterRefusal({target, target'}, w, target);
    es := RefusedWhileListed(reader, {target, target'}, w, target);
    SubmitOnEmpty(reader, s, other, target');
    es := Extend(reader, Initial({target, target'}), es, s, SubmitOne(other, target'));
  }

  lemma Misleads(reader: Reader, w: Write, other: Write, target: string, target': string) returns (es: seq<Delivery.Event>)
    requires Deliverable(w, target) && Deliverable(other, target') && other.recordId == w.recordId && target != target'
    ensures Delivery.ValidRun(reader, Initial({target, target'}), es)
    ensures Delivery.Run(reader, Initial({target, target'}), es) == Misled(w, other, target, target')
  {
    var s := AfterRespool(w, other, target, target');
    es := Respooled(reader, w, other, target, target');
    es := Extend(reader, Initial({target, target'}), es, s, ReadSpool(1));
    assert s.tasks[1 := Delivering(other, target)] == map[1 := Delivering(other, target), 2 := Delivering(other, target')];
  }

  lemma Strays(reader: Reader, w: Write, other: Write, target: string, target': string, scope: Scope)
    returns (es: seq<Delivery.Event>)
    requires Deliverable(w, target) && Deliverable(other, target') && other.recordId == w.recordId && target != target'
    ensures Delivery.ValidRun(reader, Initial({target, target'}), es)
    ensures Delivery.Run(reader, Initial({target, target'}), es) == Straying(reader, w, other, target, target', scope)
  {
    var s := Misled(w, other, target, target');
    var create := CreateSession(reader.session(other.body), scope);
    es := Misleads(reader, w, other, target, target');
    assert Ingest.Next(Core(map[], map[], []), create) == WithSession(reader, other, scope);
    es := Extend(reader, Initial({target, target'}), es, s, CoreStep(target, create));
    es := Extend(reader, Initial({target, target'}), es, s.(cores := s.cores[target := WithSession(reader, other, scope)]), Send(1, scope));
  }

  /**
   A run from an empty system in which a delivery is reported `stored` although its body was never
   spooled for its pair: the record was listed for `target`, refused there, and spooled again with
   another body for `target'` alone before the retry read it.
   */
  lemma StrayDeliveryIsStored(reader: Reader, w: Write, other: Write, target: string, target': string, scope: Scope)
    returns (es: seq<Delivery.Event>, m: Message)
    requires Deliverable(w, target) && Deliverable(other, target') && other.recordId == w.recordId && target != target'
    requires w.body != other.body
    ensures Delivery.ValidRun(reader, Initial({target, target'}), es)
    ensures var s := Delivery.Run(reader, Initial({target, target'}), es);
            m in s.reported && PairOf(m) == (w.recordId, target) && m.write.body == other.body
            && forall x | x in s.spooled && x.0 == PairOf(m) :: x.1 == w.body
  {
    var s: System;
    es, m, s := StrayIsStored(reader, w, other, target, target', scope);
    StrayIsReported(reader, s, m, target');
    es := Extend(reader, Initial({target, target'}), es, s, FinishStored(m, 2));
  }

  lemma StrayIsStored(reader: Reader, w: Write, other: Write, target: string, target': string, scope: Scope)
    returns (es: seq<Delivery.Event>, m: Message, s: System)
    requires Deliverable(w, target) && Deliverable(other, target') && other.recordId == w.recordId && target != target'
    ensures Delivery.ValidRun(reader, Initial({target, target'}), es) && s == Delivery.Run(reader, Initial({target, target'}), es)
    ensures s.mcp == Process(OneSpooled(other, target'), true)
    ensures m.write == other && m.target == target && Awaits(s, m) && m in s.stored
    ensures s.spooled == {((w.recordId, target), w.body, w.scopes[target]), ((w.recordId, target'), other.body, other.scopes[target'])}
  {
    m := Message(1, other, target, scope);
    var before := Straying(reader, w, other, target, target', scope);
    es := Strays(reader, w, other, target, target', scope);
    var after := StrayIsIngested(reader, before, m);
    s := before.(cores := before.cores[target := after], stored := before.stored + {m});
    es := Extend(reader, Initial({target, target'}), es, before, Receive(m, 0, true));
  }

  /** A Core with the session and no records stores what it is sent. */
  lemma StrayIsIngested(reader: Reader, s: System, m: Message) returns (after: Core)
    requires m in s.sent && m.target in s.cores && s.cores[m.target] == WithSession(reader, m.write, m.scope)
    ensures Delivery.Next(reader, s, Receive(m, 0, true)) == s.(cores := s.cores[m.target := after], stored := s.stored + {m})
  {
    var core := s.cores[m.target];
    var item := ItemOf(reader, m, 0, true);
    RefusalCondition(core, m.scope, reader.session(m.write.body), [item]);
    after := IngestRecords(core, m.scope, reader.session(m.write.body), [item]).value.0;
  }

  lemma StrayIsReported(reader: Reader, s: System, m: Message, target': string)
    requires s.mcp == Process(OneSpooled(m.write, target'), true) && m.target != target' && Deliverable(m.write, target')
    requires ((m.write.recordId, target'), m.write.body, m.write.scopes[target']) in s.spooled
    requires Awaits(s, m) && m in s.stored
    ensures Enabled(s, FinishStored(m, 2))
    ensures m in Delivery.Next(reader, s, FinishStored(m, 2)).reported
    ensures Delivery.Next(reader, s, FinishStored(m, 2)).spooled == s.spooled
  {
    ResolveOther(s, m.task, m.write, m.target, target');
  }

  /** Resolving a pair of the record that is not pending leaves the other one. */
  lemma ResolveOther(s: System, id: nat, w: Write, target: string, target': string)
    requires s.mcp == Process(OneSpooled(w, target'), true) && target != target' && Deliverable(w, target')
    requires ((w.recordId, target'), w.body, w.scopes[target']) in s.spooled
    ensures Resolved(s, id, (w.recordId, target), 2).mcp.up
    ensures Resolved(s, id, (w.recordId, target), 2).spooled == s.spooled
  {
    var d := OneSpooled(w, target');
    assert [target'][..0] == [] && Without([], target) == [];
    assert Without([target'], target) == [target'];
    assert ResolveSpool(d.spool, (w.recordId, target)) == d.spool;
    assert SpooledIn(d) == {((w.recordId, target'), w.body, w.scopes[target'])};
  }
}
