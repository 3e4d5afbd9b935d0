/**
 The idempotency key registry beside the retry queue (apps/mcp/src/retry-queue.ts:54-55, 89-135, 292-335).

 One file per key, named by a hash of namespace, NUL and key; the hash is taken as injective, so
 here a file is named by that text itself. A file is active while its record is in the spool.
 Directory listings, the clock and new identifiers are inputs.
 */
module Idempotency {
  import RetryQueue
  import opened Seqs
  import opened Sorting
  import opened Text
  import opened Wrappers

  const TTL: int := 2_592_000_000
  const MAX_PER_NAMESPACE: nat := 10_000
  const PRUNE_EVERY: nat := 256

  datatype Entry = Entry(recordId: string, payload: Text, namespace: Text, created: int)

  type Files = map<Text, Entry>

  function PathOf(namespace: Text, key: Text): Text {
    namespace + [0] + key
  }

  ghost predicate NoNul(t: Text) {
    forall i | 0 <= i < |t| :: t[i] != 0
  }

  /** Namespaces hold no NUL, so different keys have different files. */
  lemma {:induction false} PathInjective(a: Text, key: Text, b: Text, other: Text)
    requires NoNul(a) && NoNul(b)
    ensures PathOf(a, key) == PathOf(b, other) <==> a == b && key == other
    decreases |a|
  {
    var (p, q) := (PathOf(a, key), PathOf(b, other));
    if p == q {
      assert (a == [] <==> p[0] == 0) && (b == [] <==> q[0] == 0);
      if a == [] {
        assert p[1..] == key && q[1..] == other;
      } else {
        assert p[1..] == PathOf(a[1..], key) && q[1..] == PathOf(b[1..], other);
        PathInjective(a[1..], key, b[1..], other);
        assert a == [p[0]] + a[1..] && b == [q[0]] + b[1..];
      }
    }
  }

  predicate Active(e: Entry, spooled: set<string>) {
    e.recordId in spooled
  }

  /** Still binding: its record is spooled, or it is young enough. */
  predicate Binding(e: Entry, spooled: set<string>, now: int) {
    Active(e, spooled) || now - e.created <= TTL
  }

  // Pruning

  /** A file as a directory listing finds it. */
  datatype File = File(path: Text, entry: Entry)

  function Unexpired(listing: seq<File>, spooled: set<string>, now: int): seq<File> {
    if listing == [] then []
    else
      var front := Unexpired(listing[..|listing| - 1], spooled, now);
      var last := listing[|listing| - 1];
      if Binding(last.entry, spooled, now) then front + [last] else front
  }

  function InNamespace(live: seq<File>, namespace: Text): seq<File> {
    if live == [] then []
    else
      var front := InNamespace(live[..|live| - 1], namespace);
      var last := live[|live| - 1];
      if last.entry.namespace == namespace then front + [last] else front
  }

  function Removable(group: seq<File>, spooled: set<string>): seq<File> {
    if group == [] then []
    else
      var front := Removable(group[..|group| - 1], spooled);
      var last := group[|group| - 1];
      if Active(last.entry, spooled) then front else front + [last]
  }

  predicate Older(f: File, g: File) {
    f.entry.created < g.entry.created
  }

  /** removable.sort((left, right) => left.createdAt - right.createdAt) */
  function ByAge(s: seq<File>): seq<File> {
    Sort(Older, s)
  }

  /** What a namespace has too much: of those that may go, the oldest. */
  function Victims(group: seq<File>, spooled: set<string>): seq<File> {
    var sorted := ByAge(Removable(group, spooled));
    var excess := |group| - MAX_PER_NAMESPACE;
    if excess <= 0 then [] else if excess < |sorted| then sorted[..excess] else sorted
  }

  /** The files `#pruneIdempotencyRegistry` removes. */
  function Removed(listing: seq<File>, spooled: set<string>, now: int): set<Text> {
    set f | f in listing && (!Binding(f.entry, spooled, now)
                             || f in Victims(InNamespace(Unexpired(listing, spooled, now), f.entry.namespace), spooled)) :: f.path
  }

  // Resolving

  datatype Registry = Registry(files: Files, writes: nat)

  /** The answer of the file that is there, if it binds. */
  function Existing(files: Files, path: Text, payload: Text, requested: Option<string>, spooled: set<string>, now: int): Option<Result<string, string>> {
    if path !in files || !Binding(files[path], spooled, now) then None
    else if files[path].payload != payload then Some(Err("idempotency_key was already used with a different payload"))
    else if requested.Some? && files[path].recordId != requested.value then Some(Err("record_id conflicts with idempotency_key"))
    else Some(Ok(files[path].recordId))
  }

  function Pruned(files: Files, listing: seq<File>, spooled: set<string>, now: int): Files {
    files - Removed(listing, spooled, now)
  }

  /** A well-formed request; `unused` is the identifier drawn if none was requested. */
  datatype Request = Request(namespace: Text, key: Text, payload: Text, requested: Option<string>, unused: string)

  function Claimed(files: Files, q: Request, now: int): Files {
    files[PathOf(q.namespace, q.key) := Entry(if q.requested.Some? then q.requested.value else q.unused, q.payload, q.namespace, now)]
  }

  ghost predicate Lists(listing: seq<File>, files: Files) {
    && (forall f | f in listing :: f.path in files && files[f.path] == f.entry)
    && (forall p | p in files :: File(p, files[p]) in listing)
    && Distinct(listing)
  }

  predicate ValidKey(key: Text) {
    key != [] && Utf8Length(key) <= 512
  }

  class IdempotencyRegistry {
    var files: Files
    var writes: nat

    constructor (files: Files)
      ensures this.files == files && writes == 0
    {
      this.files, writes := files, 0;
    }

    /** Removes what expired, then what a namespace has too much. */
    method Prune(listing: seq<File>, spooled: set<string>, now: int)
      modifies `files
      ensures files == Pruned(old(files), listing, spooled, now)
    {
      var live := SplitExpired(listing, spooled, now);
      var expired := set f | f in listing && !Binding(f.entry, spooled, now) :: f.path;
      ghost var all := files;
      files := RemoveExcess(files - expired, live, spooled);
      RemovedSplits(listing, spooled, now, live);
      MinusMinus(all, expired, Excess(live, Namespaces(live), spooled));
    }

    /** resolveIdempotencyKey; `listing` is what a prune after the write would find. */
    method Resolve(q: Request, listing: seq<File>, spooled: set<string>, now: int) returns (r: Result<string, string>)
      modifies this
      ensures !ValidKey(q.key) ==> r.Err? && files == old(files) && writes == old(writes)
      ensures ValidKey(q.key) ==>
                match Existing(old(files), PathOf(q.namespace, q.key), q.payload, q.requested, spooled, now)
                case Some(answer) => r == answer && files == old(files) && writes == old(writes)
                case None =>
                  && r == Ok(if q.requested.Some? then q.requested.value else q.unused)
                  && files == (if old(writes) + 1 >= PRUNE_EVERY then Pruned(Claimed(old(files), q, now), listing, spooled, now) else Claimed(old(files), q, now))
                  && writes == if old(writes) + 1 >= PRUNE_EVERY then 0 else old(writes) + 1
    {
      if q.key == [] || Utf8Length(q.key) > 512 {
        return Err("idempotency_key must be 1 to 512 bytes");
      }
      var path := PathOf(q.namespace, q.key);
      if path in files {
        var existing := files[path];
        if Active(existing, spooled) || now - existing.created <= TTL {
          if existing.payload != q.payload {
            return Err("idempotency_key was already used with a different payload");
          }
          if q.requested.Some? && existing.recordId != q.requested.value {
            return Err("record_id conflicts with idempotency_key");
          }
          return Ok(existing.recordId);
        }
      }
      var recordId := if q.requested.Some? then q.requested.value else q.unused;
      files := files[path := Entry(recordId, q.payload, q.namespace, now)];
      writes := writes + 1;
      if writes >= PRUNE_EVERY {
        Prune(listing, spooled, now);
        writes := 0;
      }
      return Ok(recordId);
    }
  }

  method SplitExpired(listing: seq<File>, spooled: set<string>, now: int) returns (live: seq<File>)
    ensures live == Unexpired(listing, spooled, now)
  {
    live := [];
    var i := 0;
    while i < |listing|
      invariant 0 <= i <= |listing|
      invariant live == Unexpired(listing[..i], spooled, now)
    {
      assert listing[..i + 1][..i] == listing[..i];
      if Binding(listing[i].entry, spooled, now) {
        live := live + [listing[i]];
      }
      i := i + 1;
    }
    assert listing[..i] == listing;
  }

  function Namespaces(live: seq<File>): set<Text> {
    set f | f in live :: f.entry.namespace
  }

  lemma MinusMinus(files: Files, a: set<Text>, b: set<Text>)
    ensures files - a - b == files - (a + b)
  {
  }

  /** Namespace by namespace, the oldest of those too many. */
  method RemoveExcess(files: Files, live: seq<File>, spooled: set<string>) returns (after: Files)
    ensures after == files - Excess(live, Namespaces(live), spooled)
  {
    after := files;
    var left := Namespaces(live);
    ghost var done: set<Text> := {};
    NoExcess(live, spooled);
    while left != {}
      invariant done + left == Namespaces(live)
      invariant after == files - Excess(live, done, spooled)
      decreases |left|
    {
      var namespace :| namespace in left;
      var victims := Victims(InNamespace(live, namespace), spooled);
      var paths := set f | f in victims :: f.path;
      ExcessGrows(live, done, namespace, spooled);
      MinusMinus(files, Excess(live, done, spooled), paths);
      after := after - paths;
      done := done + {namespace};
      left := left - {namespace};
    }
    assert done == Namespaces(live);
  }

  // What pruning means

  /** The excess of these namespaces. */
  function Excess(live: seq<File>, names: set<Text>, spooled: set<string>): set<Text> {
    set f | f in live && f.entry.namespace in names && f in Victims(InNamespace(live, f.entry.namespace), spooled) :: f.path
  }

  lemma {:induction false} UnexpiredSpec(listing: seq<File>, spooled: set<string>, now: int)
    ensures forall f :: f in Unexpired(listing, spooled, now) <==> f in listing && Binding(f.entry, spooled, now)
    ensures Distinct(listing) ==> Distinct(Unexpired(listing, spooled, now))
    decreases |listing|
  {
    if listing != [] {
      var front := listing[..|listing| - 1];
      UnexpiredSpec(front, spooled, now);
      assert forall f :: f in listing <==> f in front || f == listing[|listing| - 1];
    }
  }

  lemma {:induction false} InNamespaceSpec(live: seq<File>, namespace: Text)
    ensures forall f :: f in InNamespace(live, namespace) <==> f in live && f.entry.namespace == namespace
    ensures Distinct(live) ==> Distinct(InNamespace(live, namespace))
    decreases |live|
  {
    if live != [] {
      var front := live[..|live| - 1];
      InNamespaceSpec(front, namespace);
      assert forall f :: f in live <==> f in front || f == live[|live| - 1];
    }
  }

  lemma {:induction false} RemovableSpec(group: seq<File>, spooled: set<string>)
    ensures forall f :: f in Removable(group, spooled) <==> f in group && !Active(f.entry, spooled)
    ensures Distinct(group) ==> Distinct(Removable(group, spooled))
    decreases |group|
  {
    if group != [] {
      var front := group[..|group| - 1];
      RemovableSpec(front, spooled);
      assert forall f :: f in group <==> f in front || f == group[|group| - 1];
    }
  }

  ghost predicate Aged(s: seq<File>) {
    forall i, j | 0 <= i < j < |s| :: s[i].entry.created <= s[j].entry.created
  }

  lemma ByAgeSpec(s: seq<File>)
    ensures Aged(ByAge(s)) && multiset(ByAge(s)) == multiset(s) && |ByAge(s)| == |s|
  {
    SortOrdered(Older, s);
    SortPermutes(Older, s);
  }

  /** Victims are inactive members of the group, and older than any inactive one that stays. */
  lemma OldestGoFirst(group: seq<File>, spooled: set<string>)
    ensures forall v | v in Victims(group, spooled) :: v in group && !Active(v.entry, spooled)
    ensures forall v, q | v in Victims(group, spooled) && q in group && !Active(q.entry, spooled) && q !in Victims(group, spooled) ::
              v.entry.created <= q.entry.created
  {
    var removable := Removable(group, spooled);
    RemovableSpec(group, spooled);
    ByAgeSpec(removable);
    SameMembers(removable, ByAge(removable));
    FrontIsOlder(ByAge(removable), |Victims(group, spooled)|);
    assert Victims(group, spooled) == ByAge(removable)[..|Victims(group, spooled)|];
  }

  lemma FrontIsOlder(sorted: seq<File>, n: nat)
    requires Aged(sorted) && n <= |sorted|
    ensures forall v | v in sorted[..n] :: v in sorted
    ensures forall v, q | v in sorted[..n] && q in sorted && q !in sorted[..n] :: v.entry.created <= q.entry.created
  {
    forall k | 0 <= k < n ensures sorted[k] in sorted[..n] {
      assert sorted[..n][k] == sorted[k];
    }
    forall v, q | v in sorted[..n] && q in sorted && q !in sorted[..n] ensures v.entry.created <= q.entry.created {
      var i :| 0 <= i < n && sorted[i] == v;
      var j :| 0 <= j < |sorted| && sorted[j] == q;
      assert j >= n;
    }
  }

  /** How many go: enough for the limit, or all that may. */
  lemma EnoughGo(group: seq<File>, spooled: set<string>)
    ensures |group| - |Victims(group, spooled)| <= MAX_PER_NAMESPACE || |Victims(group, spooled)| == |Removable(group, spooled)|
    ensures |group| <= MAX_PER_NAMESPACE ==> Victims(group, spooled) == []
  {
    ByAgeSpec(Removable(group, spooled));
  }

  lemma NoExcess(live: seq<File>, spooled: set<string>)
    ensures Excess(live, {}, spooled) == {}
  {
  }

  lemma ExcessGrows(live: seq<File>, names: set<Text>, namespace: Text, spooled: set<string>)
    ensures Excess(live, names + {namespace}, spooled)
            == Excess(live, names, spooled) + (set f | f in Victims(InNamespace(live, namespace), spooled) :: f.path)
  {
    OldestGoFirst(InNamespace(live, namespace), spooled);
    InNamespaceSpec(live, namespace);
  }

  lemma RemovedSplits(listing: seq<File>, spooled: set<string>, now: int, live: seq<File>)
    requires live == Unexpired(listing, spooled, now)
    ensures Removed(listing, spooled, now)
            == (set f | f in listing && !Binding(f.entry, spooled, now) :: f.path) + Excess(live, Namespaces(live), spooled)
  {
    UnexpiredSpec(listing, spooled, now);
    forall f | f in listing && f in Victims(InNamespace(live, f.entry.namespace), spooled) ensures f in live {
      OldestGoFirst(InNamespace(live, f.entry.namespace), spooled);
      InNamespaceSpec(live, f.entry.namespace);
    }
  }

  /** A file whose record is spooled is never removed, whatever its age and however many there are. */
  lemma ActiveStays(files: Files, listing: seq<File>, spooled: set<string>, now: int, path: Text)
    requires Lists(listing, files) && path in files && Active(files[path], spooled)
    ensures path in Pruned(files, listing, spooled, now) && Pruned(files, listing, spooled, now)[path] == files[path]
  {
    forall f | f in listing && f.path == path
      ensures Binding(f.entry, spooled, now) && f !in Victims(InNamespace(Unexpired(listing, spooled, now), f.entry.namespace), spooled)
    {
      OldestGoFirst(InNamespace(Unexpired(listing, spooled, now), f.entry.namespace), spooled);
    }
  }

  /** What stays of a namespace after pruning. */
  function Survivors(group: seq<File>, spooled: set<string>): set<File> {
    set f | f in group && f !in Victims(group, spooled)
  }

  lemma {:induction false} DistinctCount(s: seq<File>)
    requires Distinct(s)
    ensures |(set f | f in s)| == |s|
    decreases |s|
  {
    if s != [] {
      var front := s[..|s| - 1];
      DistinctCount(front);
      assert (set f | f in s) == (set f | f in front) + {s[|s| - 1]};
    }
  }

  /** Within the limit nothing goes. */
  lemma FewStay(group: seq<File>, spooled: set<string>)
    requires Distinct(group) && |group| <= MAX_PER_NAMESPACE
    ensures |Survivors(group, spooled)| <= MAX_PER_NAMESPACE
  {
    EnoughGo(group, spooled);
    DistinctCount(group);
    assert Survivors(group, spooled) == set f | f in group;
  }

  /** If all that may go do, only active files stay. */
  lemma OnlyActiveStay(group: seq<File>, spooled: set<string>)
    requires Victims(group, spooled) == ByAge(Removable(group, spooled))
    ensures forall f | f in Survivors(group, spooled) :: Active(f.entry, spooled)
  {
    RemovableSpec(group, spooled);
    ByAgeSpec(Removable(group, spooled));
    SameMembers(Removable(group, spooled), ByAge(Removable(group, spooled)));
  }

  /** Otherwise exactly the excess goes. */
  lemma ExcessGoes(group: seq<File>, spooled: set<string>)
    requires Distinct(group) && 0 < |group| - MAX_PER_NAMESPACE < |Removable(group, spooled)|
    ensures |Survivors(group, spooled)| == MAX_PER_NAMESPACE
  {
    var (removable, victims) := (Removable(group, spooled), Victims(group, spooled));
    RemovableSpec(group, spooled);
    ByAgeSpec(removable);
    PermutedDistinct(removable, ByAge(removable));
    VictimsDistinct(ByAge(removable), victims);
    DistinctCount(group);
    DistinctCount(victims);
    OldestGoFirst(group, spooled);
    Partition(Survivors(group, spooled), set f | f in victims, set f | f in group);
  }

  lemma Partition(a: set<File>, b: set<File>, all: set<File>)
    requires a + b == all && a !! b
    ensures |a| == |all| - |b|
  {
    assert all - b == a;
  }

  /** At most the limit stays in a namespace, or nothing but files whose records are spooled. */
  lemma NamespaceBounded(group: seq<File>, spooled: set<string>)
    requires Distinct(group)
    ensures |Survivors(group, spooled)| <= MAX_PER_NAMESPACE || forall f | f in Survivors(group, spooled) :: Active(f.entry, spooled)
  {
    ByAgeSpec(Removable(group, spooled));
    if |group| <= MAX_PER_NAMESPACE {
      FewStay(group, spooled);
    } else if |group| - MAX_PER_NAMESPACE < |Removable(group, spooled)| {
      ExcessGoes(group, spooled);
    } else {
      OnlyActiveStay(group, spooled);
    }
  }

  lemma VictimsDistinct(sorted: seq<File>, victims: seq<File>)
    requires Distinct(sorted) && (victims == [] || (|victims| <= |sorted| && victims == sorted[..|victims|]))
    ensures Distinct(victims)
  {
  }

  /** How many of these go before `f`: the older ones, and those as old and listed earlier. */
  function Turn(s: seq<File>, f: File): nat {
    if s == [] then 0
    else if s[0] == f then OlderCount(s[1..], f)
    else (if Older(f, s[0]) then 0 else 1) + Turn(s[1..], f)
  }

  function OlderCount(s: seq<File>, f: File): nat {
    if s == [] then 0 else (if Older(s[0], f) then 1 else 0) + OlderCount(s[1..], f)
  }

  lemma {:induction false} OlderInsert(x: File, s: seq<File>, f: File)
    ensures OlderCount(Insert(Older, x, s), f) == OlderCount([x] + s, f)
    decreases |s|
  {
    assert ([x] + s)[1..] == s;
    if s != [] && Older(s[0], x) {
      OlderInsert(x, s[1..], f);
      assert ([s[0]] + Insert(Older, x, s[1..]))[1..] == Insert(Older, x, s[1..]);
      assert ([x] + s[1..])[1..] == s[1..];
    }
  }

  lemma {:induction false} OlderSort(s: seq<File>, f: File)
    ensures OlderCount(Sort(Older, s), f) == OlderCount(s, f)
    decreases |s|
  {
    if s != [] {
      OlderSort(s[1..], f);
      OlderInsert(s[0], Sort(Older, s[1..]), f);
      assert ([s[0]] + Sort(Older, s[1..]))[1..] == Sort(Older, s[1..]);
    }
  }

  /** A new file is inserted behind the older ones. */
  lemma {:induction false} InsertedAt(x: File, s: seq<File>)
    requires Aged(s)
    ensures OlderCount(s, x) < |Insert(Older, x, s)| && Insert(Older, x, s)[OlderCount(s, x)] == x
    decreases |s|
  {
    if s == [] {
    } else if Older(s[0], x) {
      InsertedAt(x, s[1..]);
    } else {
      NoneOlder(s, x);
    }
  }

  lemma {:induction false} NoneOlder(s: seq<File>, x: File)
    requires Aged(s) && s != [] && !Older(s[0], x)
    ensures OlderCount(s, x) == 0
    decreases |s|
  {
    if |s| > 1 {
      NoneOlder(s[1..], x);
    }
  }

  /** What is there moves back by one if the new file is not newer. */
  lemma {:induction false} InsertMoves(x: File, s: seq<File>, k: nat)
    requires Aged(s) && k < |s|
    ensures var at := k + if Older(s[k], x) then 0 else 1;
            at < |Insert(Older, x, s)| && Insert(Older, x, s)[at] == s[k]
    decreases |s|
  {
    InsertPermutes(Older, x, s);
    if Older(s[0], x) && k > 0 {
      InsertMoves(x, s[1..], k - 1);
    }
  }

  /** Sorting puts each file at its turn. */
  lemma {:induction false} SortedAt(s: seq<File>, f: File)
    requires f in s
    ensures Turn(s, f) < |Sort(Older, s)| && Sort(Older, s)[Turn(s, f)] == f
    decreases |s|
  {
    var rest := Sort(Older, s[1..]);
    ByAgeSpec(s[1..]);
    if s[0] == f {
      OlderSort(s[1..], f);
      InsertedAt(f, rest);
    } else {
      SortedAt(s[1..], f);
      InsertMoves(s[0], rest, Turn(s[1..], f));
    }
  }

  lemma FrontHolds(sorted: seq<File>, k: nat, n: nat, f: File)
    requires Distinct(sorted) && k < |sorted| && sorted[k] == f && n <= |sorted|
    ensures f in sorted[..n] <==> k < n
  {
    if k < n {
      assert sorted[..n][k] == f;
    }
  }

  /** Exactly which files of a namespace go: those whose turn comes before the excess is gone. */
  lemma VictimCondition(group: seq<File>, spooled: set<string>, f: File)
    requires Distinct(group) && f in group && !Active(f.entry, spooled)
    ensures f in Victims(group, spooled) <==> Turn(Removable(group, spooled), f) < |group| - MAX_PER_NAMESPACE
  {
    var (removable, sorted) := (Removable(group, spooled), ByAge(Removable(group, spooled)));
    RemovableSpec(group, spooled);
    ByAgeSpec(removable);
    PermutedDistinct(removable, sorted);
    SortedAt(removable, f);
    var excess := |group| - MAX_PER_NAMESPACE;
    if 0 < excess < |sorted| {
      FrontHolds(sorted, Turn(removable, f), excess, f);
    }
  }

  // Runs

  /**
   A request, or a start. A process may die inside a prune, which removes files one by one: `gone`
   is what it did remove of what it chose.
   */
  datatype Event =
    | Ask(q: Request, listing: seq<File>, spooled: set<string>, now: int, gone: set<Text>)
    | Start(listing: seq<File>, spooled: set<string>, now: int, gone: set<Text>)

  predicate Answered(r: Registry, q: Request, spooled: set<string>, now: int) {
    !ValidKey(q.key) || Existing(r.files, PathOf(q.namespace, q.key), q.payload, q.requested, spooled, now).Some?
  }

  function Next(r: Registry, e: Event): Registry {
    match e
    case Ask(q, _, spooled, now, gone) =>
      if Answered(r, q, spooled, now) then r
      else if r.writes + 1 >= PRUNE_EVERY then Registry(Claimed(r.files, q, now) - gone, 0)
      else Registry(Claimed(r.files, q, now), r.writes + 1)
    case Start(_, _, _, gone) => Registry(r.files - gone, 0)
  }

  ghost predicate ValidEvent(r: Registry, e: Event) {
    && e.gone <= Removed(e.listing, e.spooled, e.now)
    && match e
       case Ask(q, listing, spooled, now, _) => NoNul(q.namespace) && Lists(listing, Claimed(r.files, q, now))
       case Start(listing, _, _, _) => Lists(listing, r.files)
  }

  ghost predicate ValidRun(r: Registry, es: seq<Event>)
    decreases |es|
  {
    es == [] || (ValidEvent(r, es[0]) && ValidRun(Next(r, es[0]), es[1..]))
  }

  function Run(r: Registry, es: seq<Event>): Registry
    decreases |es|
  {
    if es == [] then r else Run(Next(r, es[0]), es[1..])
  }

  /** Its record is spooled, or it is within its time and its namespace within the limit. */
  predicate Spared(entry: Entry, e: Event) {
    || Active(entry, e.spooled)
    || (e.now - entry.created <= TTL
        && |InNamespace(Unexpired(e.listing, e.spooled, e.now), entry.namespace)| <= MAX_PER_NAMESPACE)
  }

  lemma SparedStays(files: Files, e: Event, path: Text)
    requires Lists(e.listing, files) && path in files && Spared(files[path], e)
    ensures path !in Removed(e.listing, e.spooled, e.now)
  {
    var group := InNamespace(Unexpired(e.listing, e.spooled, e.now), files[path].namespace);
    OldestGoFirst(group, e.spooled);
    EnoughGo(group, e.spooled);
    forall f | f in e.listing && f.path == path
      ensures Binding(f.entry, e.spooled, e.now) && f !in Victims(group, e.spooled)
    {
      assert f.entry == files[path];
    }
  }

  lemma NextKeepsKey(r: Registry, e: Event, path: Text)
    requires ValidEvent(r, e) && path in r.files && Spared(r.files[path], e)
    ensures path in Next(r, e).files && Next(r, e).files[path] == r.files[path]
  {
    match e
    case Start(_, _, _, _) => SparedStays(r.files, e, path);
    case Ask(q, _, _, now, _) =>
      if Next(r, e) != r {
        assert PathOf(q.namespace, q.key) != path;
        SparedStays(Claimed(r.files, q, now), e, path);
      }
  }

  /**
   A key keeps its record identifier through any requests, restarts, prunes and crashes in them, as
   long as at each its record is spooled, or its time is not over and its namespace is within the limit.
   */
  lemma {:induction false} KeyIsStable(r: Registry, es: seq<Event>, path: Text)
    requires ValidRun(r, es) && path in r.files
    requires forall i | 0 <= i < |es| :: Spared(r.files[path], es[i])
    ensures path in Run(r, es).files && Run(r, es).files[path] == r.files[path]
    decreases |es|
  {
    if es != [] {
      NextKeepsKey(r, es[0], path);
      KeyIsStable(Next(r, es[0]), es[1..], path);
    }
  }

  /** The same for the answers: what a key that still binds says to a later request. */
  lemma StableAnswer(r: Registry, es: seq<Event>, q: Request, spooled: set<string>, now: int)
    requires ValidRun(r, es) && PathOf(q.namespace, q.key) in r.files
    requires forall i | 0 <= i < |es| :: Spared(r.files[PathOf(q.namespace, q.key)], es[i])
    requires Binding(r.files[PathOf(q.namespace, q.key)], spooled, now)
    ensures var e := r.files[PathOf(q.namespace, q.key)];
            var answer := Existing(Run(r, es).files, PathOf(q.namespace, q.key), q.payload, q.requested, spooled, now);
            && (answer == Some(Ok(e.recordId)) <==> q.payload == e.payload && (q.requested == None || q.requested == Some(e.recordId)))
            && (answer != Some(Ok(e.recordId)) <==> answer.Some? && answer.value.Err?)
  {
    KeyIsStable(r, es, PathOf(q.namespace, q.key));
  }

  // A key that is forgotten at once

  /** The file a request writes. */
  function ClaimFile(q: Request, now: int): File {
    File(PathOf(q.namespace, q.key), Claimed(map[], q, now)[PathOf(q.namespace, q.key)])
  }

  /** What the request leaves when its prune, if any, is not cut short. */
  function AfterAsk(r: Registry, q: Request, listing: seq<File>, spooled: set<string>, now: int): Registry {
    Next(r, Ask(q, listing, spooled, now, Removed(listing, spooled, now)))
  }

  /** The files of the namespace a prune after the request counts. */
  function GroupOf(q: Request, listing: seq<File>, spooled: set<string>, now: int): seq<File> {
    InNamespace(Unexpired(listing, spooled, now), q.namespace)
  }

  /**
   Exactly when a new key is pruned by the very request that claims it, so that its caller gets an
   identifier the registry no longer knows: the request is one that prunes, and its namespace is
   over the limit by more files than go before the new one.
   */
  lemma NewestForgotten(r: Registry, q: Request, listing: seq<File>, spooled: set<string>, now: int)
    requires Lists(listing, Claimed(r.files, q, now)) && !Answered(r, q, spooled, now)
    requires !Active(ClaimFile(q, now).entry, spooled)
    ensures var group := GroupOf(q, listing, spooled, now);
            PathOf(q.namespace, q.key) !in AfterAsk(r, q, listing, spooled, now).files
            <==> r.writes + 1 >= PRUNE_EVERY && Turn(Removable(group, spooled), ClaimFile(q, now)) < |group| - MAX_PER_NAMESPACE
  {
    var f := ClaimFile(q, now);
    var (live, group) := (Unexpired(listing, spooled, now), GroupOf(q, listing, spooled, now));
    UnexpiredSpec(listing, spooled, now);
    InNamespaceSpec(live, q.namespace);
    assert Claimed(r.files, q, now)[f.path] == f.entry;
    assert f in group;
    VictimCondition(group, spooled, f);
    OnlyOnePath(listing, Claimed(r.files, q, now), spooled, now, f);
  }

  /** A listed file is removed exactly if it expired or is too much. */
  lemma OnlyOnePath(listing: seq<File>, files: Files, spooled: set<string>, now: int, f: File)
    requires Lists(listing, files) && f in listing
    ensures f.path in Removed(listing, spooled, now)
            <==> !Binding(f.entry, spooled, now) || f in Victims(InNamespace(Unexpired(listing, spooled, now), f.entry.namespace), spooled)
  {
    forall g | g in listing && g.path == f.path ensures g == f {
      assert g.entry == files[g.path] == f.entry;
    }
  }

  // A run that ends so

  /** Workspace, project and session: a:b:c. */
  const NAMESPACE: Text := [97, 58, 98, 58, 99]

  /** Few enough for twelve digits, and for the last to come before the first expires. */
  const MANY: nat := 100_000_000

  /** The request after so many is one that prunes, and the prune before it found no excess. */
  predicate Due(n: nat) {
    MAX_PER_NAMESPACE <= n < MAX_PER_NAMESPACE + PRUNE_EVERY && (n + 1) % PRUNE_EVERY == 0
  }

  /** The number with twelve digits. */
  function Decimal(n: nat, k: nat): (t: Text)
    ensures |t| == k && forall u | u in t :: IsDigit(u)
  {
    if k == 0 then [] else Decimal(n / 10, k - 1) + [ZERO + n % 10]
  }

  function Power10(k: nat): nat {
    if k == 0 then 1 else 10 * Power10(k - 1)
  }

  lemma {:induction false} DecimalInjective(m: nat, n: nat, k: nat)
    requires m < Power10(k) && n < Power10(k) && Decimal(m, k) == Decimal(n, k)
    ensures m == n
    decreases k
  {
    if k > 0 {
      assert Decimal(m, k)[k - 1] == ZERO + m % 10 && Decimal(n, k)[k - 1] == ZERO + n % 10;
      assert Decimal(m, k)[..k - 1] == Decimal(m / 10, k - 1) && Decimal(n, k)[..k - 1] == Decimal(n / 10, k - 1);
      DecimalInjective(m / 10, n / 10, k - 1);
    }
  }

  function Chars(t: Text): (s: string)
    requires forall u | u in t :: IsDigit(u)
    ensures |s| == |t| && forall i | 0 <= i < |t| :: s[i] as int == t[i]
  {
    if t == [] then ""
    else
      assert t[0] in t && IsDigit(t[0]);
      [t[0] as char] + Chars(t[1..])
  }

  const PREFIX := "00000000-0000-7000-8000-"

  function RecordIdOf(i: nat): string {
    PREFIX + Chars(Decimal(i, 12))
  }

  lemma RecordIdIsValid(i: nat)
    ensures RetryQueue.IsRecordId(RecordIdOf(i))
  {
    var id := RecordIdOf(i);
    var digits := Decimal(i, 12);
    forall k | 24 <= k < 36 ensures RetryQueue.IsHexDigit(id[k]) {
      assert digits[k - 24] in digits;
      assert id[k] == Chars(digits)[k - 24];
    }
  }

  /** The requests are told apart by their keys, and so are their records. */
  lemma NamesDiffer(i: nat, j: nat)
    requires i < j < MANY
    ensures Asked(i).key != Asked(j).key && RecordIdOf(i) != RecordIdOf(j)
    ensures Busy(i).path != Busy(j).path
  {
    assert Power10(4) == 10_000 && Power10(12) == 100_000_000 * Power10(4);
    var (a, b) := (Decimal(i, 12), Decimal(j, 12));
    if a == b {
      DecimalInjective(i, j, 12);
    }
    var k :| 0 <= k < 12 && a[k] != b[k];
    assert RecordIdOf(i)[24 + k] == Chars(a)[k] && RecordIdOf(j)[24 + k] == Chars(b)[k];
    var n := |NAMESPACE| + 1;
    assert Busy(i).path[n..] == a && Busy(j).path[n..] == b;
  }

  function Asked(i: nat): Request {
    Request(NAMESPACE, Decimal(i, 12), [], Some(RecordIdOf(i)), "")
  }

  /** The file of request `i`, made at time `i`. */
  function Busy(i: nat): File {
    ClaimFile(Asked(i), i)
  }

  function BusyFiles(n: nat): (s: seq<File>)
    ensures |s| == n && forall i | 0 <= i < n :: s[i] == Busy(i)
  {
    if n == 0 then [] else BusyFiles(n - 1) + [Busy(n - 1)]
  }

  function FilesOf(listing: seq<File>): Files {
    if listing == [] then map[]
    else FilesOf(listing[..|listing| - 1])[listing[|listing| - 1].path := listing[|listing| - 1].entry]
  }

  /** The records of the requests so far are all waiting to be delivered. */
  function WaitingIds(n: nat): set<string> {
    set i | 0 <= i < n :: RecordIdOf(i)
  }

  function EventOf(i: nat): Event {
    Ask(Asked(i), BusyFiles(i + 1), WaitingIds(i), i, Removed(BusyFiles(i + 1), WaitingIds(i), i))
  }

  lemma {:induction false} FilesOfLists(listing: seq<File>)
    requires forall i, j | 0 <= i < j < |listing| :: listing[i].path != listing[j].path
    ensures Lists(listing, FilesOf(listing))
    decreases |listing|
  {
    if listing != [] {
      var front := listing[..|listing| - 1];
      var last := listing[|listing| - 1];
      FilesOfLists(front);
      assert forall f | f in front :: f.path != last.path;
      assert forall f :: f in listing <==> f in front || f == last;
    }
  }

  lemma BusyLists(n: nat)
    requires n <= MANY
    ensures Lists(BusyFiles(n), FilesOf(BusyFiles(n)))
  {
    forall i, j | 0 <= i < j < n ensures BusyFiles(n)[i].path != BusyFiles(n)[j].path {
      NamesDiffer(i, j);
    }
    FilesOfLists(BusyFiles(n));
  }

  lemma BusyClaimed(i: nat)
    ensures Claimed(FilesOf(BusyFiles(i)), Asked(i), i) == FilesOf(BusyFiles(i + 1))
  {
    assert BusyFiles(i + 1)[..i] == BusyFiles(i);
  }

  lemma KeyIsValid(i: nat)
    ensures ValidKey(Asked(i).key)
  {
    Utf8LengthAscii(Decimal(i, 12));
  }

  lemma Unlisted(listing: seq<File>, files: Files, path: Text)
    requires Lists(listing, files) && forall j | 0 <= j < |listing| :: listing[j].path != path
    ensures path !in files
  {
    forall p | p in files ensures p != path {
      assert File(p, files[p]) in listing;
    }
  }

  lemma NotThere(i: nat, files: Files)
    requires i < MANY && Lists(BusyFiles(i), files)
    ensures Busy(i).path !in files
  {
    var listing := BusyFiles(i);
    forall j | 0 <= j < |listing| ensures listing[j].path != Busy(i).path {
      NamesDiffer(j, i);
    }
    Unlisted(listing, files, Busy(i).path);
  }

  /** A request with a new key is a new claim. */
  lemma NewKeyIsNew(q: Request, r: Registry, spooled: set<string>, now: int)
    requires ValidKey(q.key) && PathOf(q.namespace, q.key) !in r.files
    ensures !Answered(r, q, spooled, now)
  {
  }

  lemma BusyIsNew(i: nat, r: Registry, spooled: set<string>, now: int)
    requires i < MANY && Lists(BusyFiles(i), r.files)
    ensures !Answered(r, Asked(i), spooled, now)
  {
    KeyIsValid(i);
    NotThere(i, r.files);
    NewKeyIsNew(Asked(i), r, spooled, now);
  }

  lemma {:induction false} ListsShrink(listing: seq<File>, spooled: set<string>, now: int, namespace: Text)
    ensures |Unexpired(listing, spooled, now)| <= |listing| && |InNamespace(listing, namespace)| <= |listing|
    decreases |listing|
  {
    if listing != [] {
      ListsShrink(listing[..|listing| - 1], spooled, now, namespace);
    }
  }

  /** A prune finds nothing to do among few files that are young. */
  lemma FewYoungStay(listing: seq<File>, spooled: set<string>, now: int)
    requires |listing| <= MAX_PER_NAMESPACE && forall f | f in listing :: now - f.entry.created <= TTL
    ensures Removed(listing, spooled, now) == {}
  {
    var live := Unexpired(listing, spooled, now);
    forall f | f in listing ensures f !in Victims(InNamespace(live, f.entry.namespace), spooled) {
      ListsShrink(listing, spooled, now, f.entry.namespace);
      ListsShrink(live, spooled, now, f.entry.namespace);
    }
  }

  lemma BusyYoung(n: nat, now: int)
    requires now <= MANY
    ensures forall f | f in BusyFiles(n) :: now - f.entry.created <= TTL && f.entry.namespace == NAMESPACE
  {
  }

  /** What a claim does when its prune, if any, removes nothing. */
  lemma ClaimNext(files: Files, n: nat, q: Request, listing: seq<File>, spooled: set<string>, now: int, gone: set<Text>)
    requires !Answered(Registry(files, n % PRUNE_EVERY), q, spooled, now)
    requires (n + 1) % PRUNE_EVERY == 0 ==> gone == {}
    ensures Next(Registry(files, n % PRUNE_EVERY), Ask(q, listing, spooled, now, gone))
            == Registry(Claimed(files, q, now), (n + 1) % PRUNE_EVERY)
  {
    assert Claimed(files, q, now) - {} == Claimed(files, q, now);
  }

  /** The prune of this request, if any, finds no excess. */
  predicate Calm(i: nat) {
    (i + 1) % PRUNE_EVERY == 0 ==> i + 1 <= MAX_PER_NAMESPACE
  }

  lemma CalmBefore(n: nat)
    requires Due(n)
    ensures forall i | 0 <= i < n :: Calm(i)
  {
  }

  function StateOf(i: nat): Registry {
    Registry(FilesOf(BusyFiles(i)), i % PRUNE_EVERY)
  }

  lemma BusyAsks(i: nat, r: Registry, e: Event)
    requires i < MANY && r == StateOf(i) && e == EventOf(i)
    ensures ValidEvent(r, e) && !Answered(r, e.q, e.spooled, e.now)
    ensures Claimed(r.files, e.q, e.now) == FilesOf(BusyFiles(i + 1))
  {
    BusyLists(i);
    BusyLists(i + 1);
    BusyClaimed(i);
    NamespacePlain();
    BusyIsNew(i, r, e.spooled, e.now);
  }

  lemma BusyStep(i: nat, r: Registry, e: Event)
    requires i < MANY && Calm(i) && r == StateOf(i) && e == EventOf(i)
    ensures ValidEvent(r, e) && Next(r, e) == StateOf(i + 1)
  {
    BusyAsks(i, r, e);
    if (i + 1) % PRUNE_EVERY == 0 {
      BusyYoung(i + 1, i);
      FewYoungStay(e.listing, e.spooled, e.now);
    }
    ClaimNext(r.files, i, e.q, e.listing, e.spooled, e.now, e.gone);
  }

  lemma NamespacePlain()
    ensures NoNul(NAMESPACE)
  {
  }

  /** The event at this place leads from one state to the next. */
  ghost predicate Leads(es: seq<Event>, states: seq<Registry>, i: nat)
    requires i < |es| && |states| == |es| + 1
  {
    ValidEvent(states[i], es[i]) && Next(states[i], es[i]) == states[i + 1]
  }

  /** A run, given by the states it passes through. */
  lemma {:induction false} RunThrough(es: seq<Event>, states: seq<Registry>)
    requires |states| == |es| + 1 && forall i | 0 <= i < |es| :: Leads(es, states, i)
    ensures ValidRun(states[0], es) && Run(states[0], es) == states[|es|]
    decreases |es|
  {
    if es != [] {
      assert Leads(es, states, 0);
      forall i | 0 <= i < |es| - 1 ensures Leads(es[1..], states[1..], i) {
        assert Leads(es, states, i + 1);
      }
      RunThrough(es[1..], states[1..]);
    }
  }

  lemma {:induction false} AllLive(listing: seq<File>, spooled: set<string>, now: int)
    requires forall f | f in listing :: now - f.entry.created <= TTL && f.entry.namespace == NAMESPACE
    ensures Unexpired(listing, spooled, now) == listing && InNamespace(listing, NAMESPACE) == listing
    decreases |listing|
  {
    if listing != [] {
      var front := listing[..|listing| - 1];
      assert listing == front + [listing[|listing| - 1]];
      AllLive(front, spooled, now);
    }
  }

  lemma {:induction false} NoneRemovable(group: seq<File>, spooled: set<string>)
    requires forall f | f in group :: Active(f.entry, spooled)
    ensures Removable(group, spooled) == []
    decreases |group|
  {
    if group != [] {
      NoneRemovable(group[..|group| - 1], spooled);
    }
  }

  /** Of all the files, only the new one may go. */
  lemma OnlyNewRemovable(n: nat)
    requires n < MANY
    ensures RecordIdOf(n) !in WaitingIds(n)
    ensures Removable(BusyFiles(n + 1), WaitingIds(n)) == [Busy(n)]
  {
    forall i | 0 <= i < n ensures RecordIdOf(i) != RecordIdOf(n) {
      NamesDiffer(i, n);
    }
    NoneRemovable(BusyFiles(n), WaitingIds(n));
    assert BusyFiles(n + 1)[..n] == BusyFiles(n);
  }

  lemma LastForgets(n: nat, r: Registry) returns (e: Event)
    requires Due(n) && r == StateOf(n)
    ensures ForgottenAtOnce(r, e)
  {
    e := EventOf(n);
    BusyAsks(n, r, e);
    LastTurn(n, e.spooled);
    KeyIsValid(n);
    Forgets(n, r, e);
  }

  lemma Forgets(n: nat, r: Registry, e: Event)
    requires Due(n) && e.Ask? && e.now == n && r.writes == n % PRUNE_EVERY && |e.listing| == n + 1 && ValidKey(e.q.key)
    requires ValidEvent(r, e) && !Answered(r, e.q, e.spooled, n) && !Active(ClaimFile(e.q, n).entry, e.spooled)
    requires e.gone == Removed(e.listing, e.spooled, n)
    requires GroupOf(e.q, e.listing, e.spooled, n) == e.listing && Turn(Removable(e.listing, e.spooled), ClaimFile(e.q, n)) == 0
    ensures PathOf(e.q.namespace, e.q.key) !in Next(r, e).files && !Answered(Next(r, e), e.q, e.spooled, n + 1)
  {
    NewestForgotten(r, e.q, e.listing, e.spooled, n);
    assert e == Ask(e.q, e.listing, e.spooled, n, e.gone);
    NewKeyIsNew(e.q, Next(r, e), e.spooled, n + 1);
  }

  lemma LastTurn(n: nat, spooled: set<string>)
    requires n < MANY && spooled == WaitingIds(n)
    ensures GroupOf(Asked(n), BusyFiles(n + 1), spooled, n) == BusyFiles(n + 1)
    ensures !Active(Busy(n).entry, spooled) && Turn(Removable(BusyFiles(n + 1), spooled), Busy(n)) == 0
  {
    BusyYoung(n + 1, n);
    AllLive(BusyFiles(n + 1), spooled, n);
    OnlyNewRemovable(n);
    assert OlderCount([], Busy(n)) == 0 && [Busy(n)][1..] == [];
  }

  lemma DueNumber() returns (n: nat)
    ensures Due(n)
  {
    n := 10_239;
  }

  /** The requests before the last, and the states they lead through. */
  lemma BusyRun(n: nat) returns (es: seq<Event>)
    requires n < MANY && forall i | 0 <= i < n :: Calm(i)
    ensures |es| == n && forall i | 0 <= i < n :: es[i] == EventOf(i)
    ensures ValidRun(StateOf(0), es) && Run(StateOf(0), es) == StateOf(n)
  {
    es := seq(n, i requires 0 <= i < n => EventOf(i));
    var states := seq(n + 1, i requires 0 <= i <= n => StateOf(i));
    forall i | 0 <= i < n ensures Leads(es, states, i) {
      assert Calm(i);
      BusyStep(i, states[i], es[i]);
    }
    RunThrough(es, states);
  }

  /** The identifiers requested are ones the service takes. */
  lemma BusyIdsValid(es: seq<Event>)
    requires forall i | 0 <= i < |es| :: es[i] == EventOf(i)
    ensures forall i | 0 <= i < |es| :: es[i].Ask? && es[i].q.requested.Some? && RetryQueue.IsRecordId(es[i].q.requested.value)
  {
    forall i | 0 <= i < |es|
      ensures es[i].Ask? && es[i].q.requested.Some? && RetryQueue.IsRecordId(es[i].q.requested.value)
    {
      RecordIdIsValid(i);
    }
  }

  lemma BusyBegins()
    ensures StateOf(0) == Registry(map[], 0)
  {
  }

  /** A request claims a key, and its own prune forgets it: asked again it is new. */
  ghost predicate ForgottenAtOnce(r: Registry, e: Event) {
    && e.Ask? && ValidEvent(r, e) && !Answered(r, e.q, e.spooled, e.now)
    && PathOf(e.q.namespace, e.q.key) !in Next(r, e).files && !Answered(Next(r, e), e.q, e.spooled, e.now + 1)
  }

  /**
   From an empty registry: some ten thousand requests claim a key each in one namespace, and their
   records all wait to be delivered. The next request returns its identifier and forgets its key.
   */
  lemma BusyNamespaceForgets() returns (es: seq<Event>, e: Event)
    ensures ValidRun(Registry(map[], 0), es) && ForgottenAtOnce(Run(Registry(map[], 0), es), e)
    ensures forall i | 0 <= i < |es| :: es[i].Ask? && es[i].q.requested.Some? && RetryQueue.IsRecordId(es[i].q.requested.value)
  {
    var n := DueNumber();
    CalmBefore(n);
    es := BusyRun(n);
    BusyBegins();
    BusyIdsValid(es);
    e := LastForgets(n, StateOf(n));
  }
}
