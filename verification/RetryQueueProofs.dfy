/**
 What the durable retry queue promises, for every operation and for every run with crashes.

 The spool is the ground truth. While the process is up the index agrees with it; after a crash
 one `initialize` makes it agree again, and a second one writes nothing.
 */
module RetryQueueProofs {
  import opened Json
  import opened RetryQueue
  import opened Seqs
  import opened Wrappers

  /** The index lists exactly the spool's pending pairs, each once. */
  ghost predicate Agrees(d: Disk) {
    KeysDistinct(d.queue) && Keys(d.queue) == PendingPairs(d.spool)
  }

  /** Holds in every durable state, also between the two writes of an operation. */
  ghost predicate Intact(d: Disk) {
    && SpoolIntact(d.spool)
    && (forall r | r in d.spool :: Distinct(d.spool[r].pending))
    && KeysDistinct(d.queue)
  }

  // Enqueue

  lemma {:induction false} NewEntriesSpec(known: set<Pair>, r: string, targets: seq<string>, now: int)
    ensures forall e :: e in NewEntries(known, r, targets, now) <==>
                        exists t :: t in targets && (r, t) !in known && e == FreshEntry(r, t, now, None)
    ensures Distinct(targets) ==> KeysDistinct(NewEntries(known, r, targets, now))
  {
    if targets != [] {
      var front := targets[..|targets| - 1];
      var t := targets[|targets| - 1];
      assert targets == front + [t];
      NewEntriesSpec(known, r, front, now);
      assert Distinct(targets) ==> t !in front;
      var rest := NewEntries(known, r, front, now);
      assert forall i | 0 <= i < |rest| :: rest[i] in rest;
    }
  }

  lemma KeysOfNewEntries(known: set<Pair>, r: string, targets: seq<string>, now: int)
    ensures Keys(NewEntries(known, r, targets, now)) == (set t | t in targets && (r, t) !in known :: (r, t))
  {
    NewEntriesSpec(known, r, targets, now);
    forall t | t in targets && (r, t) !in known ensures (r, t) in Keys(NewEntries(known, r, targets, now)) {
      assert FreshEntry(r, t, now, None) in NewEntries(known, r, targets, now);
    }
  }

  function PairsFor(r: string, targets: seq<string>): set<Pair> {
    set t | t in targets :: (r, t)
  }

  lemma EnqueueSpoolPairs(d: Disk, w: Write, targets: seq<string>)
    requires Intact(d) && Distinct(targets) && EnqueueSpool(d, w, targets).Ok?
    ensures PendingPairs(EnqueueSpool(d, w, targets).value) == PendingPairs(d.spool) + PairsFor(w.recordId, targets)
    ensures SpoolIntact(EnqueueSpool(d, w, targets).value)
    ensures forall r | r in EnqueueSpool(d, w, targets).value :: Distinct(EnqueueSpool(d, w, targets).value[r].pending)
  {
    var spool := EnqueueSpool(d, w, targets).value;
    var r := w.recordId;
    if r in d.spool {
      var existing := d.spool[r];
      if !RewritesSpool(existing, w, targets) {
        UnchangedCountCoversTargets(existing.pending, targets);
      }
      assert forall t :: t in spool[r].pending <==> t in existing.pending || t in targets;
    }
    assert forall r' | r' in d.spool && r' != r :: r' in spool && spool[r'] == d.spool[r'];
    assert forall r' | r' in spool && r' != r :: r' in d.spool;
    forall p ensures p in PendingPairs(spool) <==> p in PendingPairs(d.spool) + PairsFor(r, targets) {
      assert p in PendingPairs(spool) <==> IsPending(spool, p);
      assert p in PendingPairs(d.spool) <==> IsPending(d.spool, p);
    }
  }

  /** With distinct pending targets, an unchanged count means there was nothing to add. */
  lemma {:induction false} UnchangedCountCoversTargets(pending: seq<string>, targets: seq<string>)
    requires Distinct(pending) && |Dedup(pending + targets)| == |pending|
    ensures forall t | t in targets :: t in pending
  {
    DedupExtends(pending, targets);
    forall t | t in targets ensures t in pending {
      assert t in pending + targets;
      assert t in Dedup(pending + targets);
    }
  }

  lemma {:induction false} DedupExtends(pending: seq<string>, targets: seq<string>)
    requires Distinct(pending)
    ensures pending <= Dedup(pending + targets)
    decreases |targets|
  {
    if targets == [] {
      DedupDistinct(pending);
      assert pending + targets == pending;
    } else {
      var front := targets[..|targets| - 1];
      assert (pending + targets)[..|pending + targets| - 1] == pending + front;
      DedupExtends(pending, front);
    }
  }

  lemma {:induction false} DedupDistinct(s: seq<string>)
    requires Distinct(s)
    ensures Dedup(s) == s
    decreases |s|
  {
    if s != [] {
      var front := s[..|s| - 1];
      assert s == front + [s[|s| - 1]];
      DedupDistinct(front);
    }
  }

  /**
   enqueueRecord: from its first write on, exactly the requested pairs have joined the spool, and
   when it returns the index agrees again.
   */
  lemma EnqueueKeepsAgreement(d: Disk, w: Write, targets: seq<string>, now: int)
    requires Intact(d) && Distinct(targets) && EnqueueWrites(d, w, targets, now).Ok?
    ensures forall s | s in EnqueueWrites(d, w, targets, now).value ::
              Intact(s) && PendingPairs(s.spool) == PendingPairs(d.spool) + PairsFor(w.recordId, targets)
    ensures Agrees(d) ==> Agrees(After(d, EnqueueWrites(d, w, targets, now).value))
  {
    EnqueueSpoolPairs(d, w, targets);
    var added := NewEntries(Keys(d.queue), w.recordId, targets, now);
    NewEntriesSpec(Keys(d.queue), w.recordId, targets, now);
    KeysOfNewEntries(Keys(d.queue), w.recordId, targets, now);
    forall i, j | 0 <= i < |d.queue| && 0 <= j < |added| ensures KeyOf(d.queue[i]) != KeyOf(added[j]) {
      assert added[j] in added && d.queue[i] in d.queue;
      assert KeyOf(d.queue[i]) in Keys(d.queue);
    }
    assert KeysDistinct(d.queue + added);
    KeysConcat(d.queue, added);
  }

  lemma KeysConcat(a: seq<Entry>, b: seq<Entry>)
    ensures Keys(a + b) == Keys(a) + Keys(b)
  {
    forall k | k in Keys(a) + Keys(b) ensures k in Keys(a + b) {
      var e :| (e in a || e in b) && KeyOf(e) == k;
      assert e in a + b;
    }
  }

  lemma KeysSingle(e: Entry)
    ensures Keys([e]) == {KeyOf(e)}
  {
    assert e in [e];
  }

  lemma KeyListed(queue: seq<Entry>, i: nat)
    requires i < |queue|
    ensures KeyOf(queue[i]) in Keys(queue)
  {
    assert queue[i] in queue;
  }

  function Members(s: seq<string>): set<string> {
    set x | x in s
  }

  lemma {:induction false} DedupCount(s: seq<string>)
    ensures |Dedup(s)| == |Members(s)|
    decreases |s|
  {
    if s == [] {
      assert Members(s) == {};
    } else {
      var front := s[..|s| - 1];
      var last := s[|s| - 1];
      assert s == front + [last];
      DedupCount(front);
      assert Members(s) == Members(front) + {last};
      assert last in Dedup(front) <==> last in Members(front);
    }
  }

  /** The new targets among those requested. */
  function Added(pending: seq<string>, targets: seq<string>): set<string> {
    Members(targets) - Members(pending)
  }

  /** The count of targets stays the same exactly when as many are new as were repeated. */
  lemma CountStays(pending: seq<string>, targets: seq<string>)
    ensures |Dedup(pending + targets)| == |pending| <==> |Added(pending, targets)| == |pending| - |Members(pending)|
  {
    DedupCount(pending + targets);
    assert Members(pending + targets) == Members(pending) + Added(pending, targets);
  }

  /**
   The deliver-at-least-once promise without the caller's distinctness. A requested target is
   missing from the spool afterwards exactly when the record was spooled, its scopes print the same,
   and there are as many new targets as repetitions among the pending ones.
   */
  lemma AcceptanceCondition(d: Disk, w: Write, targets: seq<string>, spool: map<string, Envelope>)
    requires EnqueueSpool(d, w, targets) == Ok(spool)
    ensures (exists t :: t in targets && !IsPending(spool, (w.recordId, t)))
            <==> w.recordId in d.spool
                 && var e := d.spool[w.recordId];
                    && MergedWrite(e.write, w) == e.write
                    && Added(e.pending, targets) != {}
                    && |Added(e.pending, targets)| == |e.pending| - |Members(e.pending)|
  {
    if w.recordId in d.spool {
      var e := d.spool[w.recordId];
      CountStays(e.pending, targets);
      if RewritesSpool(e, w, targets) {
        assert spool[w.recordId].pending == Dedup(e.pending + targets);
        assert forall t | t in targets :: t in e.pending + targets;
      } else {
        assert spool[w.recordId] == e;
        assert forall t :: t in Added(e.pending, targets) <==> t in targets && t !in e.pending;
      }
    } else {
      assert spool[w.recordId].pending == targets;
    }
  }

  /** Repeated targets in a first call can hide a new target of a second call from the spool. */
  lemma RepeatedTargetsLoseOne(id: string, now: int)
    requires IsRecordId(id)
    ensures var w := Write(id, Null, map[], []);
            var d := Disk(map[id := Envelope(w, ["a", "a"])], []);
            && EnqueueWrites(Disk(map[], []), w, ["a", "a"], now).Ok?
            && EnqueueWrites(Disk(map[], []), w, ["a", "a"], now).value[0] == d
            && EnqueueSpool(d, w, ["b"]) == Ok(d.spool)
            && !IsPending(d.spool, (id, "b"))
  {
    var w := Write(id, Null, map[], []);
    var e := Envelope(w, ["a", "a"]);
    var s := ["a", "a"] + ["b"];
    assert s[..2] == ["a", "a"] && s[..2][..1] == ["a"] && s[..2][..1][..0] == [];
    assert Dedup([]) == [];
    assert Dedup(s[..2][..1]) == ["a"];
    assert Dedup(s[..2]) == ["a"];
    assert Dedup(s) == ["a", "b"];
    assert Merged(e, w, ["b"]).write == w;
    var empty: Disk := Disk(map[], []);
    assert id in EnqueueSpool(empty, w, ["a", "a"]).value;
    assert EnqueueSpool(empty, w, ["a", "a"]).value != empty.spool;
    assert EnqueueSpool(empty, w, ["a", "a"]).value == map[id := e];
  }

  /** A re-enqueue is refused exactly when its body is not the spooled one up to JSON equality. */
  lemma CollisionExactly(d: Disk, w: Write, targets: seq<string>)
    requires IsRecordId(w.recordId) && w.recordId in d.spool
    requires WellFormed(w.body) && WellFormed(d.spool[w.recordId].write.body)
    ensures EnqueueSpool(d, w, targets) == Err(SpoolCollision) <==> !Equivalent(d.spool[w.recordId].write.body, w.body)
  {
    CanonicalJsonInjective(d.spool[w.recordId].write.body, w.body);
  }

  // Resolve

  lemma ResolveSpoolPairs(d: Disk, p: Pair)
    requires Intact(d)
    ensures PendingPairs(ResolveSpool(d.spool, p)) == PendingPairs(d.spool) - {p}
    ensures SpoolIntact(ResolveSpool(d.spool, p))
    ensures forall r | r in ResolveSpool(d.spool, p) :: Distinct(ResolveSpool(d.spool, p)[r].pending)
  {
    var spool := ResolveSpool(d.spool, p);
    forall q ensures q in PendingPairs(spool) <==> q in PendingPairs(d.spool) - {p} {
      assert q in PendingPairs(spool) <==> IsPending(spool, q);
      assert q in PendingPairs(d.spool) <==> IsPending(d.spool, q);
      if p.0 in d.spool && q.0 == p.0 && q.1 in d.spool[p.0].pending && q != p {
        assert q.1 in Without(d.spool[p.0].pending, p.1);
      }
    }
  }

  /** resolve: from its first write on, exactly this pair has left the spool. */
  lemma ResolveKeepsAgreement(d: Disk, p: Pair)
    requires Intact(d)
    ensures forall s | s in ResolveWrites(d, p) :: Intact(s) && PendingPairs(s.spool) == PendingPairs(d.spool) - {p}
    ensures Agrees(d) ==> Agrees(After(d, ResolveWrites(d, p)))
  {
    ResolveSpoolPairs(d, p);
    var queue := WithoutKey(d.queue, p);
    forall k ensures k in Keys(queue) <==> k in Keys(d.queue) && k != p {
      if k in Keys(d.queue) && k != p {
        var e :| e in d.queue && KeyOf(e) == k;
        assert e in queue;
      }
    }
  }

  // MarkPending

  lemma MarkPendingKeepsAgreement(d: Disk, p: Pair, error: string, now: int)
    requires Intact(d) && MarkPendingWrites(d, p, error, now).Ok?
    ensures forall s | s in MarkPendingWrites(d, p, error, now).value ::
              Intact(s) && s.spool == d.spool && Keys(s.queue) == Keys(d.queue)
    ensures Agrees(d) ==> Agrees(After(d, MarkPendingWrites(d, p, error, now).value))
  {
    var i := FindEntry(d.queue, p).value;
    var queue := d.queue[i := Marked(d.queue[i], error, now)];
    assert forall j | 0 <= j < |queue| :: KeyOf(queue[j]) == KeyOf(d.queue[j]);
    SameKeys(d.queue, queue);
  }

  lemma SameKeys(a: seq<Entry>, b: seq<Entry>)
    requires |a| == |b| && forall j | 0 <= j < |a| :: KeyOf(a[j]) == KeyOf(b[j])
    ensures Keys(a) == Keys(b)
  {
    forall k ensures k in Keys(a) <==> k in Keys(b) {
      if k in Keys(a) {
        var j :| 0 <= j < |a| && KeyOf(a[j]) == k;
        assert b[j] in b;
      }
      if k in Keys(b) {
        var j :| 0 <= j < |b| && KeyOf(b[j]) == k;
        assert a[j] in a;
      }
    }
  }

  // Reconciliation

  lemma {:induction false} ByKeySpec(entries: seq<Entry>)
    ensures KeysDistinct(ByKey(entries)) && Keys(ByKey(entries)) == Keys(entries)
    ensures forall e | e in ByKey(entries) :: e in entries
    ensures KeysDistinct(entries) ==> ByKey(entries) == entries
  {
    if entries != [] {
      var front := entries[..|entries| - 1];
      var last := entries[|entries| - 1];
      assert entries == front + [last];
      ByKeySpec(front);
      SetEntrySpec(ByKey(front), last);
      KeysConcat(front, [last]);
      KeysSingle(last);
      if KeysDistinct(entries) {
        assert KeyOf(last) !in Keys(front);
      }
    }
  }

  lemma SetEntrySpec(byKey: seq<Entry>, e: Entry)
    requires KeysDistinct(byKey)
    ensures KeysDistinct(SetEntry(byKey, e)) && Keys(SetEntry(byKey, e)) == Keys(byKey) + {KeyOf(e)}
    ensures forall x | x in SetEntry(byKey, e) :: x in byKey || x == e
    ensures KeyOf(e) !in Keys(byKey) ==> SetEntry(byKey, e) == byKey + [e]
  {
    match FindEntry(byKey, KeyOf(e))
    case None =>
      KeysConcat(byKey, [e]);
      KeysSingle(e);
      forall i | 0 <= i < |byKey| ensures KeyOf(byKey[i]) != KeyOf(e) {
        assert byKey[i] in byKey;
      }
    case Some(i) =>
      SameKeys(byKey, byKey[i := e]);
  }

  /** `after` extends `before` with fresh entries for exactly the pairs of `added` that had none. */
  ghost predicate Completed(before: seq<Entry>, after: seq<Entry>, added: set<Pair>) {
    && before <= after
    && (KeysDistinct(before) ==> KeysDistinct(after))
    && Keys(after) == Keys(before) + added
    && forall i | |before| <= i < |after| :: after[i].attempts == 0 && KeyOf(after[i]) !in Keys(before)
  }

  lemma CompletedTransitive(a: seq<Entry>, b: seq<Entry>, c: seq<Entry>, p: set<Pair>, q: set<Pair>)
    requires Completed(a, b, p) && Completed(b, c, q)
    ensures Completed(a, c, p + q)
  {
    forall i | |a| <= i < |c| ensures c[i].attempts == 0 && KeyOf(c[i]) !in Keys(a) {
      if i < |b| {
        assert c[i] == b[i];
      }
    }
  }

  lemma {:induction false} AddMissingSpec(byKey: seq<Entry>, r: string, pending: seq<string>, now: int)
    ensures Completed(byKey, AddMissing(byKey, r, pending, now), PairsFor(r, pending))
  {
    if pending != [] {
      var front := pending[..|pending| - 1];
      var t := pending[|pending| - 1];
      assert pending == front + [t];
      AddMissingSpec(byKey, r, front, now);
      var before := AddMissing(byKey, r, front, now);
      var after := AddMissing(byKey, r, pending, now);
      assert PairsFor(r, pending) == PairsFor(r, front) + {(r, t)};
      if (r, t) in Keys(before) {
        assert Completed(before, after, {(r, t)});
      } else {
        var e := FreshEntry(r, t, now, Some("recovered_after_restart"));
        KeysConcat(before, [e]);
        KeysSingle(e);
        assert forall i | 0 <= i < |before| :: before[i] in before;
        assert Completed(before, after, {(r, t)});
      }
      CompletedTransitive(byKey, before, after, PairsFor(r, front), {(r, t)});
    }
  }

  function PairsIn(spool: map<string, Envelope>, files: seq<string>): set<Pair> {
    set r, t | r in files && r in spool && t in spool[r].pending :: (r, t)
  }

  lemma {:induction false} AddAllMissingSpec(byKey: seq<Entry>, spool: map<string, Envelope>, files: seq<string>, now: int)
    requires forall f | f in files :: f in spool
    ensures Completed(byKey, AddAllMissing(byKey, spool, files, now), PairsIn(spool, files))
  {
    if files == [] {
      assert PairsIn(spool, files) == {};
    } else {
      var front := files[..|files| - 1];
      var last := files[|files| - 1];
      assert files == front + [last];
      AddAllMissingSpec(byKey, spool, front, now);
      var before := AddAllMissing(byKey, spool, front, now);
      AddMissingSpec(before, last, spool[last].pending, now);
      CompletedTransitive(byKey, before, AddAllMissing(byKey, spool, files, now), PairsIn(spool, front), PairsFor(last, spool[last].pending));
      assert PairsIn(spool, files) == PairsIn(spool, front) + PairsFor(last, spool[last].pending);
    }
  }

  lemma {:induction false} KeepPendingConcat(a: seq<Entry>, b: seq<Entry>, spool: map<string, Envelope>)
    ensures KeepPending(a + b, spool) == KeepPending(a, spool) + KeepPending(b, spool)
    decreases |b|
  {
    if b == [] {
      assert a + b == a;
    } else {
      var front := b[..|b| - 1];
      assert (a + b)[..|a + b| - 1] == a + front;
      KeepPendingConcat(a, front, spool);
    }
  }

  /**
   initialize: whatever a crash left, the index afterwards lists exactly the spool's pending
   pairs; the entries that were already there and still pending come first, unchanged and in
   order, and every other entry is new, with no attempt counted.
   */
  lemma ReconcileRestoresAgreement(d: Disk, files: seq<string>, now: int)
    requires IsListing(files, d.spool) && SpoolIntact(d.spool)
    ensures Agrees(d.(queue := Reconciled(d, files, now)))
    ensures KeysDistinct(d.queue) ==> KeepPending(d.queue, d.spool) <= Reconciled(d, files, now)
    ensures forall e | e in Reconciled(d, files, now) :: e in d.queue || (e.attempts == 0 && KeyOf(e) !in Keys(d.queue))
  {
    var byKey := ByKey(d.queue);
    var all := AddAllMissing(byKey, d.spool, files, now);
    ByKeySpec(d.queue);
    AddAllMissingSpec(byKey, d.spool, files, now);
    KeepPendingKeys(all, d.spool, PairsIn(d.spool, files));
    KeepPendingOrigins(d.queue, byKey, all, d.spool, PairsIn(d.spool, files));
  }

  lemma KeepPendingKeys(all: seq<Entry>, spool: map<string, Envelope>, pairs: set<Pair>)
    requires KeysDistinct(all) && pairs <= Keys(all)
    requires forall p :: IsPending(spool, p) ==> p in pairs
    ensures KeysDistinct(KeepPending(all, spool)) && Keys(KeepPending(all, spool)) == PendingPairs(spool)
  {
    var kept := KeepPending(all, spool);
    forall k ensures k in Keys(kept) <==> k in PendingPairs(spool) {
      assert k in PendingPairs(spool) <==> IsPending(spool, k);
      if IsPending(spool, k) {
        var e :| e in all && KeyOf(e) == k;
        assert e in kept;
      }
    }
  }

  lemma KeepPendingOrigins(queue: seq<Entry>, byKey: seq<Entry>, all: seq<Entry>, spool: map<string, Envelope>, pairs: set<Pair>)
    requires Completed(byKey, all, pairs) && Keys(byKey) == Keys(queue)
    requires forall e | e in byKey :: e in queue
    ensures KeepPending(byKey, spool) <= KeepPending(all, spool)
    ensures forall e | e in KeepPending(all, spool) :: e in queue || (e.attempts == 0 && KeyOf(e) !in Keys(queue))
  {
    var added := all[|byKey|..];
    assert all == byKey + added;
    KeepPendingConcat(byKey, added, spool);
    forall e | e in KeepPending(all, spool) ensures e in queue || (e.attempts == 0 && KeyOf(e) !in Keys(queue)) {
      assert e in all;
      if e !in byKey {
        assert e in added;
      }
    }
  }

  /** Reconciling an index that agrees writes nothing, for any listing order and any clock. */
  lemma ReconcileIdle(d: Disk, files: seq<string>, now: int)
    requires IsListing(files, d.spool) && SpoolIntact(d.spool) && Agrees(d)
    ensures ReconcileWrites(d, files, now) == Ok([])
  {
    ByKeySpec(d.queue);
    AddAllMissingSpec(d.queue, d.spool, files, now);
    var all := AddAllMissing(d.queue, d.spool, files, now);
    assert PairsIn(d.spool, files) == PendingPairs(d.spool);
    if |all| > |d.queue| {
      KeyListed(all, |d.queue|);
      assert false;
    }
    assert all == d.queue;
    forall e | e in all ensures IsPending(d.spool, KeyOf(e)) {
      assert KeyOf(e) in Keys(all);
    }
  }

  /** Reconciling twice is reconciling once. */
  lemma ReconcileIdempotent(d: Disk, files: seq<string>, now: int, files': seq<string>, now': int)
    requires IsListing(files, d.spool) && IsListing(files', d.spool) && SpoolIntact(d.spool)
    ensures ReconcileWrites(After(d, ReconcileWrites(d, files, now).value), files', now') == Ok([])
  {
    ReconcileRestoresAgreement(d, files, now);
    ReconcileIdle(d.(queue := Reconciled(d, files, now)), files', now');
  }

  // Runs with crashes

  /** One operation of a run; `done` is the number of its writes that reached the disk. */
  datatype Event =
    | Enqueue(w: Write, targets: seq<string>, now: int, done: nat)
    | Resolve(p: Pair, done: nat)
    | Mark(p: Pair, error: string, now: int)
    | Start(files: seq<string>, now: int)

  datatype Process = Process(disk: Disk, up: bool)

  /** The first `done` writes happened; the process survives only if that is all of them. */
  function Perform(s: Process, ws: seq<Disk>, done: nat): Process {
    if done < |ws| then Process(After(s.disk, ws[..done]), false) else Process(After(s.disk, ws), s.up)
  }

  function Next(s: Process, e: Event): Process
    requires ValidEvent(s, e)
  {
    match e
    case Enqueue(w, targets, now, done) =>
      var ws := EnqueueWrites(s.disk, w, targets, now);
      if ws.Ok? then Perform(s, ws.value, done) else s
    case Resolve(p, done) => Perform(s, ResolveWrites(s.disk, p), done)
    case Mark(p, error, now) =>
      var ws := MarkPendingWrites(s.disk, p, error, now);
      if ws.Ok? then Perform(s, ws.value, 1) else s
    case Start(files, now) =>
      var ws := ReconcileWrites(s.disk, files, now);
      if ws.Ok? then Process(After(s.disk, ws.value), true) else s
  }

  /** Callers pass distinct targets (apps/mcp/src/router.ts:927-934); only a live process acts. */
  ghost predicate ValidEvent(s: Process, e: Event) {
    match e
    case Enqueue(w, targets, now, done) => s.up && Distinct(targets)
    case Resolve(p, done) => s.up
    case Mark(p, error, now) => s.up
    case Start(files, now) => IsListing(files, s.disk.spool)
  }

  ghost predicate ValidRun(s: Process, es: seq<Event>)
    decreases |es|
  {
    es == [] || (ValidEvent(s, es[0]) && ValidRun(Next(s, es[0]), es[1..]))
  }

  ghost function Run(s: Process, es: seq<Event>): Process
    requires ValidRun(s, es)
    decreases |es|
  {
    if es == [] then s else Run(Next(s, es[0]), es[1..])
  }

  ghost predicate Sound(s: Process) {
    Intact(s.disk) && (s.up ==> Agrees(s.disk))
  }

  lemma PerformSound(s: Process, ws: seq<Disk>, done: nat)
    requires Sound(s) && s.up
    requires forall d | d in ws :: Intact(d)
    requires Agrees(After(s.disk, ws))
    ensures Sound(Perform(s, ws, done))
  {
    if 0 < done < |ws| {
      assert ws[..done][done - 1] in ws;
    } else if |ws| > 0 {
      assert ws[|ws| - 1] in ws;
    }
  }

  lemma NextSound(s: Process, e: Event)
    requires Sound(s) && ValidEvent(s, e)
    ensures Sound(Next(s, e))
    ensures e.Start? ==> Next(s, e).up
  {
    match e
    case Enqueue(w, targets, now, done) =>
      if EnqueueWrites(s.disk, w, targets, now).Ok? {
        EnqueueKeepsAgreement(s.disk, w, targets, now);
        PerformSound(s, EnqueueWrites(s.disk, w, targets, now).value, done);
      }
    case Resolve(p, done) =>
      ResolveKeepsAgreement(s.disk, p);
      PerformSound(s, ResolveWrites(s.disk, p), done);
    case Mark(p, error, now) =>
      if MarkPendingWrites(s.disk, p, error, now).Ok? {
        MarkPendingKeepsAgreement(s.disk, p, error, now);
        PerformSound(s, MarkPendingWrites(s.disk, p, error, now).value, 1);
      }
    case Start(files, now) =>
      ReconcileRestoresAgreement(s.disk, files, now);
  }

  /** In every run from an empty directory the index agrees with the spool whenever the process is up. */
  lemma {:induction false} AgreementInEveryRun(s: Process, es: seq<Event>)
    requires Sound(s) && ValidRun(s, es)
    ensures Sound(Run(s, es))
    decreases |es|
  {
    if es != [] {
      NextSound(s, es[0]);
      AgreementInEveryRun(Next(s, es[0]), es[1..]);
    }
  }

  lemma EmptyDirectorySound()
    ensures Sound(Process(Disk(map[], []), true))
  {
    assert Keys([]) == {};
  }

  /** The attempts counted for a pair, or -1 when the queue has no entry for it. */
  function AttemptsOf(queue: seq<Entry>, p: Pair): int {
    match FindEntry(queue, p)
    case None => -1
    case Some(i) => queue[i].attempts
  }

  /** The first write of a resolve for `p` reached the disk. */
  predicate Releases(e: Event, p: Pair) {
    e.Resolve? && e.p == p && e.done >= 1
  }

  function MarksOf(es: seq<Event>, p: Pair): nat {
    if es == [] then 0 else (if es[0].Mark? && es[0].p == p then 1 else 0) + MarksOf(es[1..], p)
  }

  lemma AttemptsByMember(queue: seq<Entry>, e: Entry)
    requires KeysDistinct(queue) && e in queue
    ensures AttemptsOf(queue, KeyOf(e)) == e.attempts
  {
    var i :| 0 <= i < |queue| && queue[i] == e;
    KeyListed(queue, i);
    var j := FindEntry(queue, KeyOf(e)).value;
    assert i == j;
  }

  lemma AttemptsKept(queue: seq<Entry>, queue': seq<Entry>, p: Pair)
    requires KeysDistinct(queue) && KeysDistinct(queue') && p in Keys(queue)
    requires forall e | e in queue && KeyOf(e) == p :: e in queue'
    ensures AttemptsOf(queue', p) == AttemptsOf(queue, p) && p in Keys(queue')
  {
    var e :| e in queue && KeyOf(e) == p;
    AttemptsByMember(queue, e);
    AttemptsByMember(queue', e);
  }

  /** `p` is still pending, under the same body and with every origin scope it had. */
  ghost predicate KeepsPair(spool: map<string, Envelope>, spool': map<string, Envelope>, p: Pair)
    requires p.0 in spool
  {
    && IsPending(spool', p)
    && spool'[p.0].write.body == spool[p.0].write.body
    && forall t | t in spool[p.0].write.scopes ::
         t in spool'[p.0].write.scopes && spool'[p.0].write.scopes[t] == spool[p.0].write.scopes[t]
  }

  /** The entry of `p`, if it had one, is still there with `marks` more attempts. */
  ghost predicate KeepsEntry(queue: seq<Entry>, queue': seq<Entry>, p: Pair, marks: nat) {
    p in Keys(queue) ==> p in Keys(queue') && AttemptsOf(queue', p) == AttemptsOf(queue, p) + marks
  }

  lemma EnqueueKeepsPair(d: Disk, w: Write, targets: seq<string>, p: Pair)
    requires Intact(d) && Distinct(targets) && IsPending(d.spool, p)
    requires EnqueueSpool(d, w, targets).Ok?
    ensures KeepsPair(d.spool, EnqueueSpool(d, w, targets).value, p)
  {
  }

  lemma EnqueueKeepsEntry(d: Disk, w: Write, targets: seq<string>, now: int, p: Pair)
    requires Intact(d) && Distinct(targets) && EnqueueWrites(d, w, targets, now).Ok?
    ensures forall s | s in EnqueueWrites(d, w, targets, now).value :: KeepsEntry(d.queue, s.queue, p, 0)
  {
    EnqueueKeepsAgreement(d, w, targets, now);
    forall s | s in EnqueueWrites(d, w, targets, now).value ensures KeepsEntry(d.queue, s.queue, p, 0) {
      if p in Keys(d.queue) {
        AttemptsKept(d.queue, s.queue, p);
      }
    }
  }

  lemma ResolveKeepsPair(d: Disk, q: Pair, p: Pair)
    requires Intact(d) && IsPending(d.spool, p) && q != p
    ensures KeepsPair(d.spool, ResolveSpool(d.spool, q), p)
    ensures forall s | s in ResolveWrites(d, q) :: KeepsEntry(d.queue, s.queue, p, 0)
  {
    ResolveKeepsAgreement(d, q);
    forall s | s in ResolveWrites(d, q) ensures KeepsEntry(d.queue, s.queue, p, 0) {
      if p in Keys(d.queue) {
        AttemptsKept(d.queue, s.queue, p);
      }
    }
  }

  lemma MarkKeepsEntry(d: Disk, q: Pair, error: string, now: int, p: Pair)
    requires Intact(d) && MarkPendingWrites(d, q, error, now).Ok?
    ensures KeepsEntry(d.queue, After(d, MarkPendingWrites(d, q, error, now).value).queue, p, if p == q then 1 else 0)
  {
    MarkPendingKeepsAgreement(d, q, error, now);
    var s := After(d, MarkPendingWrites(d, q, error, now).value);
    var i := FindEntry(d.queue, q).value;
    if p == q {
      assert s.queue[i] in s.queue;
      AttemptsByMember(s.queue, s.queue[i]);
    } else if p in Keys(d.queue) {
      forall e | e in d.queue && KeyOf(e) == p ensures e in s.queue {
        var j :| 0 <= j < |d.queue| && d.queue[j] == e;
        assert s.queue[j] == e;
      }
      AttemptsKept(d.queue, s.queue, p);
    }
  }

  lemma StartKeepsEntry(d: Disk, files: seq<string>, now: int, p: Pair)
    requires Intact(d) && IsListing(files, d.spool) && IsPending(d.spool, p)
    ensures KeepsEntry(d.queue, Reconciled(d, files, now), p, 0)
  {
    ReconcileRestoresAgreement(d, files, now);
    if p in Keys(d.queue) {
      AttemptsKept(d.queue, Reconciled(d, files, now), p);
    }
  }

  lemma PerformKeeps(s: Process, ws: seq<Disk>, done: nat, p: Pair, marks: nat)
    requires IsPending(s.disk.spool, p)
    requires forall d | d in ws :: KeepsPair(s.disk.spool, d.spool, p) && KeepsEntry(s.disk.queue, d.queue, p, marks)
    requires marks == 0 || (|ws| == 1 && done >= 1)
    ensures var d := Perform(s, ws, done).disk;
            KeepsPair(s.disk.spool, d.spool, p) && KeepsEntry(s.disk.queue, d.queue, p, marks)
  {
    if 0 < done < |ws| {
      assert ws[..done][done - 1] in ws;
    } else if |ws| > 0 {
      assert ws[|ws| - 1] in ws;
    }
  }

  lemma EnqueueStepKeeps(s: Process, w: Write, targets: seq<string>, now: int, done: nat, p: Pair)
    requires Sound(s) && Distinct(targets) && IsPending(s.disk.spool, p) && EnqueueWrites(s.disk, w, targets, now).Ok?
    ensures var d := Perform(s, EnqueueWrites(s.disk, w, targets, now).value, done).disk;
            KeepsPair(s.disk.spool, d.spool, p) && KeepsEntry(s.disk.queue, d.queue, p, 0)
  {
    EnqueueKeepsPair(s.disk, w, targets, p);
    EnqueueKeepsEntry(s.disk, w, targets, now, p);
    PerformKeeps(s, EnqueueWrites(s.disk, w, targets, now).value, done, p, 0);
  }

  lemma ResolveStepKeeps(s: Process, q: Pair, done: nat, p: Pair)
    requires Sound(s) && IsPending(s.disk.spool, p) && (q != p || done == 0)
    ensures var d := Perform(s, ResolveWrites(s.disk, q), done).disk;
            KeepsPair(s.disk.spool, d.spool, p) && KeepsEntry(s.disk.queue, d.queue, p, 0)
  {
    if q != p {
      ResolveKeepsPair(s.disk, q, p);
      PerformKeeps(s, ResolveWrites(s.disk, q), done, p, 0);
    }
  }

  lemma MarkStepKeeps(s: Process, q: Pair, error: string, now: int, p: Pair)
    requires Sound(s) && IsPending(s.disk.spool, p) && MarkPendingWrites(s.disk, q, error, now).Ok?
    ensures var d := Perform(s, MarkPendingWrites(s.disk, q, error, now).value, 1).disk;
            KeepsPair(s.disk.spool, d.spool, p) && KeepsEntry(s.disk.queue, d.queue, p, if p == q then 1 else 0)
  {
    MarkKeepsEntry(s.disk, q, error, now, p);
    PerformKeeps(s, MarkPendingWrites(s.disk, q, error, now).value, 1, p, if p == q then 1 else 0);
  }

  lemma NextKeeps(s: Process, e: Event, p: Pair)
    requires Sound(s) && ValidEvent(s, e)
    requires IsPending(s.disk.spool, p) && !Releases(e, p)
    ensures KeepsPair(s.disk.spool, Next(s, e).disk.spool, p)
    ensures KeepsEntry(s.disk.queue, Next(s, e).disk.queue, p, if e.Mark? && e.p == p then 1 else 0)
  {
    match e
    case Enqueue(w, targets, now, done) =>
      if EnqueueWrites(s.disk, w, targets, now).Ok? {
        EnqueueStepKeeps(s, w, targets, now, done, p);
      }
    case Resolve(q, done) => ResolveStepKeeps(s, q, done, p);
    case Mark(q, error, now) =>
      if MarkPendingWrites(s.disk, q, error, now).Ok? {
        MarkStepKeeps(s, q, error, now, p);
      }
    case Start(files, now) => StartKeepsEntry(s.disk, files, now, p);
  }

  /**
   For every run of operations, crashes and restarts: an accepted pair stays in the spool until
   the first write of a resolve for it, the record body and the origin scopes first spooled stay
   what they were, and its attempt count grows by exactly the marks made on it.
   */
  lemma {:induction false} AcceptedUntilResolved(s: Process, es: seq<Event>, p: Pair)
    requires Sound(s) && ValidRun(s, es)
    requires IsPending(s.disk.spool, p)
    requires forall e | e in es :: !Releases(e, p)
    ensures KeepsPair(s.disk.spool, Run(s, es).disk.spool, p)
    ensures KeepsEntry(s.disk.queue, Run(s, es).disk.queue, p, MarksOf(es, p))
    decreases |es|
  {
    if es != [] {
      NextSound(s, es[0]);
      NextKeeps(s, es[0], p);
      AcceptedUntilResolved(Next(s, es[0]), es[1..], p);
    }
  }
}
