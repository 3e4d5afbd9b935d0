/**
 The durable retry queue of the MCP service (apps/mcp/src/retry-queue.ts).

 Two durable structures: the spool holds one envelope per record with the targets still to be
 served; the queue is a flat list that indexes the spool and counts attempts. Every operation is
 a list of atomic file writes, and a process may die between any two of them.

 For each operation a function gives its write list, the sequence of durable states it passes
 through. The class performs the writes one by one and records them in `writes`; its contracts
 tie that history to the function. A crash is a prefix of a write list.
 */
module RetryQueue {
  import opened Json
  import opened Scopes
  import opened Seqs
  import opened Wrappers

  /**
   A record to deliver: `body` is everything but `origin_scopes`, and `order` is the order in which
   that object lists its keys.
   */
  datatype Write = Write(recordId: string, body: Value, scopes: map<string, Scope>, order: seq<string>)

  datatype Envelope = Envelope(write: Write, pending: seq<string>)

  datatype Entry = Entry(recordId: string, target: string, attempts: nat,
                         nextAttempt: int, created: int, updated: int, lastError: Option<string>)

  datatype Disk = Disk(spool: map<string, Envelope>, queue: seq<Entry>)

  datatype Error = InvalidRecordId | SpoolCollision | EntryDisappeared | SpoolCorrupt

  type Pair = (string, string)

  // Names and keys

  predicate IsHexDigit(c: char) {
    '0' <= c <= '9' || 'a' <= c <= 'f' || 'A' <= c <= 'F'
  }

  predicate IsRecordId(id: string) {
    && |id| == 36
    && forall i | 0 <= i < 36 :: if i in {8, 13, 18, 23} then id[i] == '-' else IsHexDigit(id[i])
  }

  function RetryKey(recordId: string, target: string): string {
    recordId + [0 as char] + target
  }

  /** The string key stands for the pair: no record id contains NUL, so keys never collide. */
  lemma RetryKeyInjective(r: string, t: string, r': string, t': string)
    requires IsRecordId(r) && IsRecordId(r')
    ensures RetryKey(r, t) == RetryKey(r', t') <==> r == r' && t == t'
  {
    if RetryKey(r, t) == RetryKey(r', t') {
      assert RetryKey(r, t)[..36] == r && RetryKey(r', t')[..36] == r';
      assert RetryKey(r, t)[37..] == t && RetryKey(r', t')[37..] == t';
    }
  }

  function KeyOf(e: Entry): Pair {
    (e.recordId, e.target)
  }

  function Keys(queue: seq<Entry>): set<Pair> {
    set e | e in queue :: KeyOf(e)
  }

  ghost predicate KeysDistinct(queue: seq<Entry>) {
    forall i, j | 0 <= i < j < |queue| :: KeyOf(queue[i]) != KeyOf(queue[j])
  }

  /** The pairs still to be delivered, according to the spool. */
  function PendingPairs(spool: map<string, Envelope>): set<Pair> {
    set r, t | r in spool && t in spool[r].pending :: (r, t)
  }

  predicate IsPending(spool: map<string, Envelope>, p: Pair) {
    p.0 in spool && p.1 in spool[p.0].pending
  }

  /** [...new Set(s)]: first occurrences, in order. */
  function Dedup(s: seq<string>): (r: seq<string>)
    ensures Distinct(r)
    ensures forall x :: x in r <==> x in s
    ensures |r| <= |s|
    ensures |r| == |s| ==> r == s
    decreases |s|
  {
    if s == [] then []
    else
      var front := s[..|s| - 1];
      var last := s[|s| - 1];
      assert s == front + [last];
      if last in Dedup(front) then Dedup(front) else Dedup(front) + [last]
  }

  // What each operation writes

  /** The durable states an operation passes through, or why it stopped before writing. */
  type Writes = Result<seq<Disk>, Error>

  function After(d: Disk, ws: seq<Disk>): Disk {
    if ws == [] then d else ws[|ws| - 1]
  }

  function FreshEntry(recordId: string, target: string, now: int, error: Option<string>): Entry {
    Entry(recordId, target, 0, now, now, now, error)
  }

  /** The entries pushed for the targets whose key is not in `known`. */
  function NewEntries(known: set<Pair>, recordId: string, targets: seq<string>, now: int): seq<Entry> {
    if targets == [] then []
    else
      var rest := NewEntries(known, recordId, targets[..|targets| - 1], now);
      var t := targets[|targets| - 1];
      if (recordId, t) in known then rest else rest + [FreshEntry(recordId, t, now, None)]
  }

  /** The keys of { ...first, ...second }: those of `first` keep their places, new ones follow. */
  function SpreadKeys(first: seq<string>, second: seq<string>): seq<string> {
    if second == [] then first
    else
      var before := SpreadKeys(first, second[..|second| - 1]);
      var key := second[|second| - 1];
      if key in before then before else before + [key]
  }

  /** The spooled write with the scopes it lacks: the requested scopes come first, the spooled ones win. */
  function MergedWrite(existing: Write, w: Write): Write {
    existing.(scopes := w.scopes + existing.scopes, order := SpreadKeys(w.order, existing.order))
  }

  /** What the spool holds for the record once its first write is done, when it was spooled and agrees. */
  function Merged(existing: Envelope, w: Write, targets: seq<string>): Envelope {
    Envelope(MergedWrite(existing.write, w), Dedup(existing.pending + targets))
  }

  /** The guard of the rewrite: more targets by count, or a record that prints differently. */
  predicate RewritesSpool(existing: Envelope, w: Write, targets: seq<string>) {
    var m := Merged(existing, w, targets);
    |m.pending| != |existing.pending| || m.write != existing.write
  }

  function EnqueueSpool(d: Disk, w: Write, targets: seq<string>): Result<map<string, Envelope>, Error> {
    if !IsRecordId(w.recordId) then Err(InvalidRecordId)
    else if w.recordId !in d.spool then Ok(d.spool[w.recordId := Envelope(w, targets)])
    else
      var existing := d.spool[w.recordId];
      if CanonicalJson(existing.write.body) != CanonicalJson(w.body) then Err(SpoolCollision)
      else if RewritesSpool(existing, w, targets) then Ok(d.spool[w.recordId := Merged(existing, w, targets)])
      else Ok(d.spool)
  }

  function EnqueueWrites(d: Disk, w: Write, targets: seq<string>, now: int): Writes {
    match EnqueueSpool(d, w, targets)
    case Err(e) => Err(e)
    case Ok(spool) =>
      var first := if spool == d.spool then [] else [d.(spool := spool)];
      Ok(first + [Disk(spool, d.queue + NewEntries(Keys(d.queue), w.recordId, targets, now))])
  }

  function Without(pending: seq<string>, target: string): (r: seq<string>)
    ensures forall t :: t in r <==> t in pending && t != target
    ensures Distinct(pending) ==> Distinct(r)
    decreases |pending|
  {
    if pending == [] then []
    else
      var front := pending[..|pending| - 1];
      var last := pending[|pending| - 1];
      assert pending == front + [last];
      assert Distinct(pending) ==> last !in front;
      if last == target then Without(front, target) else Without(front, target) + [last]
  }

  function WithoutKey(queue: seq<Entry>, p: Pair): (r: seq<Entry>)
    ensures forall e :: e in r <==> e in queue && KeyOf(e) != p
    ensures KeysDistinct(queue) ==> KeysDistinct(r)
    decreases |queue|
  {
    if queue == [] then []
    else
      var front := queue[..|queue| - 1];
      var last := queue[|queue| - 1];
      assert queue == front + [last];
      if KeyOf(last) == p then WithoutKey(front, p) else WithoutKey(front, p) + [last]
  }

  function ResolveSpool(spool: map<string, Envelope>, p: Pair): map<string, Envelope> {
    if p.0 !in spool then spool
    else
      var pending := Without(spool[p.0].pending, p.1);
      if pending == [] then spool - {p.0} else spool[p.0 := Envelope(spool[p.0].write, pending)]
  }

  function ResolveWrites(d: Disk, p: Pair): seq<Disk> {
    var spool := ResolveSpool(d.spool, p);
    (if p.0 in d.spool then [d.(spool := spool)] else []) + [Disk(spool, WithoutKey(d.queue, p))]
  }

  function FindEntry(queue: seq<Entry>, p: Pair): (r: Option<nat>)
    ensures r.None? <==> p !in Keys(queue)
    ensures r.Some? ==> r.value < |queue| && KeyOf(queue[r.value]) == p
  {
    if queue == [] then None
    else if KeyOf(queue[0]) == p then Some(0)
    else
      assert queue == [queue[0]] + queue[1..];
      match FindEntry(queue[1..], p)
      case None => None
      case Some(i) => Some(i + 1)
  }

  function Power2(n: nat): nat {
    if n == 0 then 1 else 2 * Power2(n - 1)
  }

  function Delay(attempts: nat): int {
    var exponent := if attempts - 1 < 8 then attempts - 1 else 8;
    var delay := 2000 * Power2(if exponent < 0 then 0 else exponent);
    if delay < 300_000 then delay else 300_000
  }

  function Marked(e: Entry, error: string, now: int): Entry {
    e.(attempts := e.attempts + 1, lastError := Some(error), updated := now, nextAttempt := now + Delay(e.attempts + 1))
  }

  function MarkPendingWrites(d: Disk, p: Pair, error: string, now: int): Writes {
    match FindEntry(d.queue, p)
    case None => Err(EntryDisappeared)
    case Some(i) => Ok([d.(queue := d.queue[i := Marked(d.queue[i], error, now)])])
  }

  // Reconciliation at startup

  /** Map.set on an insertion-ordered map whose entries carry their own key. */
  function SetEntry(byKey: seq<Entry>, e: Entry): seq<Entry> {
    match FindEntry(byKey, KeyOf(e))
    case None => byKey + [e]
    case Some(i) => byKey[i := e]
  }

  /** new Map(entries.map(...)): a repeated key keeps its place and takes the later entry. */
  function ByKey(entries: seq<Entry>): seq<Entry> {
    if entries == [] then [] else SetEntry(ByKey(entries[..|entries| - 1]), entries[|entries| - 1])
  }

  function AddMissing(byKey: seq<Entry>, recordId: string, pending: seq<string>, now: int): seq<Entry> {
    if pending == [] then byKey
    else
      var before := AddMissing(byKey, recordId, pending[..|pending| - 1], now);
      var t := pending[|pending| - 1];
      if (recordId, t) in Keys(before) then before
      else before + [FreshEntry(recordId, t, now, Some("recovered_after_restart"))]
  }

  function AddAllMissing(byKey: seq<Entry>, spool: map<string, Envelope>, files: seq<string>, now: int): seq<Entry>
    requires forall f | f in files :: f in spool
  {
    if files == [] then byKey
    else
      var last := files[|files| - 1];
      assert last in files;
      assert forall f | f in files[..|files| - 1] :: f in files;
      AddMissing(AddAllMissing(byKey, spool, files[..|files| - 1], now), last, spool[last].pending, now)
  }

  /** One turn of the loop over the spool files. */
  lemma AddAllMissingStep(byKey: seq<Entry>, spool: map<string, Envelope>, files: seq<string>, i: nat, now: int)
    requires i < |files| && forall f | f in files :: f in spool
    ensures AddAllMissing(byKey, spool, files[..i + 1], now)
            == AddMissing(AddAllMissing(byKey, spool, files[..i], now), files[i], spool[files[i]].pending, now)
  {
    PrefixFront(files, i);
  }

  function KeepPending(byKey: seq<Entry>, spool: map<string, Envelope>): (r: seq<Entry>)
    ensures forall e :: e in r <==> e in byKey && IsPending(spool, KeyOf(e))
    ensures KeysDistinct(byKey) ==> KeysDistinct(r)
    ensures (forall e | e in byKey :: IsPending(spool, KeyOf(e))) ==> r == byKey
    decreases |byKey|
  {
    if byKey == [] then []
    else
      var front := byKey[..|byKey| - 1];
      var last := byKey[|byKey| - 1];
      assert byKey == front + [last];
      if IsPending(spool, KeyOf(last)) then KeepPending(front, spool) + [last] else KeepPending(front, spool)
  }

  /** A directory listing of the spool, in whatever order the file system gives. */
  ghost predicate IsListing(files: seq<string>, spool: map<string, Envelope>) {
    Distinct(files) && forall f :: f in files <==> f in spool
  }

  function Reconciled(d: Disk, files: seq<string>, now: int): seq<Entry>
    requires forall f | f in files :: f in d.spool
  {
    KeepPending(AddAllMissing(ByKey(d.queue), d.spool, files, now), d.spool)
  }

  predicate SpoolIntact(spool: map<string, Envelope>) {
    forall r | r in spool :: IsRecordId(r) && spool[r].write.recordId == r
  }

  function ReconcileWrites(d: Disk, files: seq<string>, now: int): Writes
    requires forall f | f in files :: f in d.spool
  {
    if !SpoolIntact(d.spool) then Err(SpoolCorrupt)
    else
      var queue := Reconciled(d, files, now);
      Ok(if queue == d.queue then [] else [d.(queue := queue)])
  }

  // The class

  class DurableRetryQueue {
    var spool: map<string, Envelope>
    var queue: seq<Entry>
    ghost var writes: seq<Disk>  // every durable state so far, one per atomic write

    /** The first start on an empty state directory. */
    constructor ()
      ensures Snapshot() == Disk(map[], []) && writes == []
    {
      spool, queue, writes := map[], [], [];
    }

    ghost function Snapshot(): Disk
      reads this
    {
      Disk(spool, queue)
    }

    /** enqueueRecord: spool first, index second. */
    method EnqueueRecord(w: Write, targets: seq<string>, now: int) returns (r: Result<Write, Error>)
      modifies this
      ensures match EnqueueWrites(old(Snapshot()), w, targets, now)
              case Ok(ws) =>
                && writes == old(writes) + ws && Snapshot() == After(old(Snapshot()), ws)
                && r.Ok? && r.value == (if w.recordId in old(spool) then Merged(old(spool)[w.recordId], w, targets).write else w)
              case Err(e) => r == Err(e) && writes == old(writes) && Snapshot() == old(Snapshot())
    {
      if !IsRecordId(w.recordId) {
        return Err(InvalidRecordId);
      }
      var persisted := w;
      if w.recordId !in spool {
        spool := spool[w.recordId := Envelope(w, targets)];
        writes := writes + [Snapshot()];
      } else {
        var existing := spool[w.recordId];
        if CanonicalJson(existing.write.body) != CanonicalJson(w.body) {
          return Err(SpoolCollision);
        }
        persisted := existing.write.(scopes := w.scopes + existing.write.scopes, order := SpreadKeys(w.order, existing.write.order));
        var pending := Dedup(existing.pending + targets);
        if |pending| != |existing.pending| || persisted != existing.write {
          spool := spool[w.recordId := Envelope(persisted, pending)];
          writes := writes + [Snapshot()];
        }
      }
      assert EnqueueSpool(old(Snapshot()), w, targets) == Ok(spool);
      assert spool == old(spool) ==> writes == old(writes) by {
        EnqueueChangesSpool(old(Snapshot()), w, targets);
      }
      queue := Indexed(queue, w.recordId, targets, now);
      writes := writes + [Snapshot()];
      r := Ok(persisted);
    }

    /** The index with an entry for every target that has none. */
    static method Indexed(queue: seq<Entry>, recordId: string, targets: seq<string>, now: int) returns (entries: seq<Entry>)
      ensures entries == queue + NewEntries(Keys(queue), recordId, targets, now)
    {
      var known := set e | e in queue :: KeyOf(e);
      entries := queue;
      var i := 0;
      while i < |targets|
        invariant 0 <= i <= |targets|
        invariant entries == queue + NewEntries(Keys(queue), recordId, targets[..i], now)
      {
        PrefixFront(targets, i);
        if (recordId, targets[i]) !in known {
          entries := entries + [FreshEntry(recordId, targets[i], now, None)];
        }
        i := i + 1;
      }
      WholePrefix(targets);
    }

    /** resolve: the spool drops the target first, then the index drops the entry. */
    method Resolve(recordId: string, target: string)
      modifies this
      ensures writes == old(writes) + ResolveWrites(old(Snapshot()), (recordId, target))
      ensures Snapshot() == After(old(Snapshot()), ResolveWrites(old(Snapshot()), (recordId, target)))
    {
      if recordId in spool {
        var pending := Without(spool[recordId].pending, target);
        if pending == [] {
          spool := spool - {recordId};
        } else {
          spool := spool[recordId := Envelope(spool[recordId].write, pending)];
        }
        writes := writes + [Snapshot()];
      }
      queue := WithoutKey(queue, (recordId, target));
      writes := writes + [Snapshot()];
    }

    /** markPending: count one more attempt on the entry. */
    method MarkPending(recordId: string, target: string, error: string, now: int) returns (r: Result<(), Error>)
      modifies this
      ensures match MarkPendingWrites(old(Snapshot()), (recordId, target), error, now)
              case Ok(ws) => r == Ok(()) && writes == old(writes) + ws && Snapshot() == After(old(Snapshot()), ws)
              case Err(e) => r == Err(e) && writes == old(writes) && Snapshot() == old(Snapshot())
    {
      match FindEntry(queue, (recordId, target)) {
        case None => return Err(EntryDisappeared);
        case Some(i) =>
          queue := queue[i := Marked(queue[i], error, now)];
          writes := writes + [Snapshot()];
          return Ok(());
      }
    }

    /** initialize: rebuild the index from the spool; one write, and only when something differs. */
    method Initialize(files: seq<string>, now: int) returns (r: Result<(), Error>)
      requires IsListing(files, spool)
      modifies this
      ensures match ReconcileWrites(old(Snapshot()), files, now)
              case Ok(ws) => r == Ok(()) && writes == old(writes) + ws && Snapshot() == After(old(Snapshot()), ws)
              case Err(e) => r == Err(e) && writes == old(writes) && Snapshot() == old(Snapshot())
    {
      if !SpoolIntact(spool) {
        return Err(SpoolCorrupt);
      }
      assert forall f :: f in files <==> f in spool;
      var byKey := IndexEntries(queue);
      var valid: set<Pair> := {};
      var i := 0;
      while i < |files|
        invariant 0 <= i <= |files|
        invariant Snapshot() == old(Snapshot()) && writes == old(writes)
        invariant forall f | f in files[..i] :: f in spool
        invariant byKey == AddAllMissing(ByKey(queue), spool, files[..i], now)
        invariant forall p :: p in valid <==> p.0 in files[..i] && IsPending(spool, p)
      {
        assert files[i] in files;
        byKey, valid := AddRecord(byKey, valid, files[i], spool[files[i]].pending, now);
        AddAllMissingStep(ByKey(queue), spool, files, i, now);
        PrefixGrows(files, i);
        i := i + 1;
      }
      WholePrefix(files);
      var reconciled := KeepValid(byKey, valid, spool);
      if reconciled != queue {
        queue := reconciled;
        writes := writes + [Snapshot()];
      }
      return Ok(());
    }

    /** The map from key to entry built from the stored queue. */
    static method IndexEntries(entries: seq<Entry>) returns (byKey: seq<Entry>)
      ensures byKey == ByKey(entries)
    {
      byKey := [];
      var i := 0;
      while i < |entries|
        invariant 0 <= i <= |entries|
        invariant byKey == ByKey(entries[..i])
      {
        PrefixFront(entries, i);
        byKey := SetEntry(byKey, entries[i]);
        i := i + 1;
      }
      WholePrefix(entries);
    }

    /** One spool file: its pairs are valid, and those without an entry get a recovered one. */
    static method AddRecord(before: seq<Entry>, validBefore: set<Pair>, recordId: string, pending: seq<string>, now: int)
      returns (byKey: seq<Entry>, valid: set<Pair>)
      ensures byKey == AddMissing(before, recordId, pending, now)
      ensures forall p :: p in valid <==> p in validBefore || (p.0 == recordId && p.1 in pending)
    {
      byKey, valid := before, validBefore;
      var j := 0;
      while j < |pending|
        invariant 0 <= j <= |pending|
        invariant byKey == AddMissing(before, recordId, pending[..j], now)
        invariant forall p :: p in valid <==> p in validBefore || (p.0 == recordId && p.1 in pending[..j])
      {
        PrefixFront(pending, j);
        PrefixGrows(pending, j);
        valid := valid + {(recordId, pending[j])};
        if (recordId, pending[j]) !in Keys(byKey) {
          byKey := byKey + [FreshEntry(recordId, pending[j], now, Some("recovered_after_restart"))];
        }
        j := j + 1;
      }
      WholePrefix(pending);
    }

    /** The entries whose key some spool file still lists. */
    static method KeepValid(byKey: seq<Entry>, valid: set<Pair>, ghost spool: map<string, Envelope>) returns (kept: seq<Entry>)
      requires forall p :: p in valid <==> IsPending(spool, p)
      ensures kept == KeepPending(byKey, spool)
    {
      kept := [];
      var i := 0;
      while i < |byKey|
        invariant 0 <= i <= |byKey|
        invariant kept == KeepPending(byKey[..i], spool)
      {
        PrefixFront(byKey, i);
        if KeyOf(byKey[i]) in valid {
          kept := kept + [byKey[i]];
        }
        i := i + 1;
      }
      WholePrefix(byKey);
    }
  }

  /** When the first write of an enqueue happens it does change the spool. */
  lemma EnqueueChangesSpool(d: Disk, w: Write, targets: seq<string>)
    requires EnqueueSpool(d, w, targets).Ok?
    ensures EnqueueSpool(d, w, targets).value == d.spool
            <==> w.recordId in d.spool && !RewritesSpool(d.spool[w.recordId], w, targets)
  {
    if w.recordId !in d.spool {
      assert w.recordId in EnqueueSpool(d, w, targets).value;
    } else if RewritesSpool(d.spool[w.recordId], w, targets) {
      assert EnqueueSpool(d, w, targets).value[w.recordId] != d.spool[w.recordId];
    }
  }
}
