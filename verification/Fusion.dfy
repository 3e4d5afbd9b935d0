/**
 Reciprocal rank fusion of the results of several Nodes (apps/mcp/src/router.ts:168-175, 764-772,
 840-925), with real numbers for scores.

 Snippet and context collections are left out; a content hash is an input.
 */
module Fusion {
  import opened Seqs
  import opened Sorting
  import opened Text
  import opened Wrappers

  type Rank = r: nat | r > 0 witness 1

  /** An absent identifier or hash is empty; `kind` is `memory_kind` if it is a string. */
  datatype Item = Item(recordId: Text, claimId: Text, resultId: Text, hash: Text, kind: Option<Text>)

  datatype Ranked = Ranked(item: Item, node: Text, nodeOrder: nat, rank: Rank)

  /** `nodes` is in the order of first arrival. */
  datatype Entry = Entry(item: Item, score: real, bestRank: Rank, node: Text, nodeOrder: nat, nodes: seq<Text>, ranks: map<Text, Rank>)

  function DedupeKey(item: Item, node: Text, fallback: Text): Text {
    var sep := [COLON];
    if item.recordId != [] then Ascii("record:") + item.recordId
    else if item.claimId != [] then Ascii("claim:") + item.claimId
    else if item.resultId != [] then Ascii("result:") + node + sep + item.resultId
    else if item.hash != [] then (if item.kind.Some? then item.kind.value else Ascii("content")) + sep + node + sep + item.hash
    else fallback
  }

  function KeyOf(r: Ranked): Text {
    DedupeKey(r.item, r.node, Ascii("unique:") + r.node + [COLON] + Digits(r.rank))
  }

  /** A ranked item with its key. */
  datatype Keyed = Keyed(key: Text, item: Item, node: Text, nodeOrder: nat, rank: Rank)

  function WithKey(r: Ranked): Keyed {
    Keyed(KeyOf(r), r.item, r.node, r.nodeOrder, r.rank)
  }

  function WithKeys(items: seq<Ranked>): seq<Keyed> {
    seq(|items|, i requires 0 <= i < |items| => WithKey(items[i]))
  }

  function Share(k: nat, rank: Rank): real
  {
    1.0 / (k + rank) as real
  }

  // The group-by specification

  /** The sum of the shares of these nodes, each at its best rank. */
  ghost function Total(nodes: set<Text>, ranks: map<Text, Rank>, k: nat): real
    requires nodes <= ranks.Keys
  {
    if nodes == {} then 0.0
    else var n :| n in nodes; Share(k, ranks[n]) + Total(nodes - {n}, ranks, k)
  }

  /** `r` belongs to the group of `key`. */
  predicate InGroup(r: Keyed, key: Text) {
    r.key == key
  }

  /** The least rank each node gave the key. */
  ghost predicate BestRanks(items: seq<Keyed>, key: Text, ranks: map<Text, Rank>) {
    && (forall i | 0 <= i < |items| && InGroup(items[i], key) :: items[i].node in ranks && ranks[items[i].node] <= items[i].rank)
    && forall n | n in ranks :: exists i | 0 <= i < |items| :: InGroup(items[i], key) && items[i].node == n && items[i].rank == ranks[n]
  }

  predicate Better(a: Keyed, b: Keyed) {
    a.rank < b.rank || (a.rank == b.rank && a.nodeOrder < b.nodeOrder)
  }

  /** The first to arrive of the least by rank, then node order. */
  ghost predicate Primary(items: seq<Keyed>, key: Text, p: nat) {
    && p < |items| && InGroup(items[p], key)
    && (forall i | 0 <= i < |items| && InGroup(items[i], key) :: !Better(items[i], items[p]))
    && forall i | 0 <= i < p && InGroup(items[i], key) :: Better(items[p], items[i])
  }

  /** Score and ranks are those of the group. */
  ghost predicate Scored(e: Entry, items: seq<Keyed>, key: Text, k: nat) {
    && BestRanks(items, key, e.ranks)
    && e.score == Total(e.ranks.Keys, e.ranks, k)
    && Distinct(e.nodes) && forall n :: n in e.nodes <==> n in e.ranks
  }

  ghost predicate LedBy(e: Entry, items: seq<Keyed>, key: Text, p: nat) {
    Primary(items, key, p) && e.item == items[p].item && e.node == items[p].node && e.nodeOrder == items[p].nodeOrder && e.bestRank == items[p].rank
  }

  ghost predicate Describes(e: Entry, items: seq<Keyed>, key: Text, k: nat) {
    Scored(e, items, key, k) && exists p: nat :: LedBy(e, items, key, p)
  }

  // Sums

  lemma {:induction false} TotalSame(nodes: set<Text>, a: map<Text, Rank>, b: map<Text, Rank>, k: nat)
    requires nodes <= a.Keys && nodes <= b.Keys
    requires forall n | n in nodes :: a[n] == b[n]
    ensures Total(nodes, a, k) == Total(nodes, b, k)
  {
    if nodes != {} {
      var n :| n in nodes && Total(nodes, a, k) == Share(k, a[n]) + Total(nodes - {n}, a, k)
               && Total(nodes, b, k) == Share(k, b[n]) + Total(nodes - {n}, b, k);
      TotalSame(nodes - {n}, a, b, k);
    }
  }

  lemma {:induction false} TotalWithout(nodes: set<Text>, ranks: map<Text, Rank>, k: nat, x: Text)
    requires nodes <= ranks.Keys && x in nodes
    ensures Total(nodes, ranks, k) == Share(k, ranks[x]) + Total(nodes - {x}, ranks, k)
    decreases nodes
  {
    var n :| n in nodes && Total(nodes, ranks, k) == Share(k, ranks[n]) + Total(nodes - {n}, ranks, k);
    if n != x {
      TotalWithout(nodes - {n}, ranks, k, x);
      TotalWithout(nodes - {x}, ranks, k, n);
      assert nodes - {n} - {x} == nodes - {x} - {n};
    }
  }

  /** A node seen for the first time adds its share. */
  lemma TotalInsert(ranks: map<Text, Rank>, k: nat, n: Text, rank: Rank)
    requires n !in ranks
    ensures Total(ranks[n := rank].Keys, ranks[n := rank], k) == Total(ranks.Keys, ranks, k) + Share(k, rank)
  {
    var after := ranks[n := rank];
    TotalWithout(after.Keys, after, k, n);
    assert after.Keys - {n} == ranks.Keys;
    TotalSame(ranks.Keys, ranks, after, k);
  }

  /** A better rank replaces the share of the old one. */
  lemma TotalReplace(ranks: map<Text, Rank>, k: nat, n: Text, rank: Rank)
    requires n in ranks
    ensures Total(ranks[n := rank].Keys, ranks[n := rank], k) == Total(ranks.Keys, ranks, k) + Share(k, rank) - Share(k, ranks[n])
  {
    var after := ranks[n := rank];
    assert after.Keys == ranks.Keys;
    TotalWithout(after.Keys, after, k, n);
    TotalWithout(ranks.Keys, ranks, k, n);
    TotalSame(ranks.Keys - {n}, ranks, after, k);
  }

  // One ranked item

  lemma PrimaryGrows(items: seq<Keyed>, key: Text, p: nat, r: Keyed)
    requires Primary(items, key, p)
    ensures Primary(items + [r], key, if InGroup(r, key) && Better(r, items[p]) then |items| else p)
  {
    var after := items + [r];
    assert forall i | 0 <= i < |items| :: after[i] == items[i];
  }

  lemma RanksGrow(items: seq<Keyed>, key: Text, ranks: map<Text, Rank>, r: Keyed)
    requires BestRanks(items, key, ranks)
    ensures !InGroup(r, key) ==> BestRanks(items + [r], key, ranks)
    ensures InGroup(r, key) && r.node in ranks && ranks[r.node] <= r.rank ==> BestRanks(items + [r], key, ranks)
    ensures InGroup(r, key) && (r.node in ranks ==> r.rank < ranks[r.node]) ==> BestRanks(items + [r], key, ranks[r.node := r.rank])
  {
    var after := items + [r];
    assert forall i | 0 <= i < |items| :: after[i] == items[i];
    assert after[|items|] == r;
    forall n | n in ranks
      ensures exists i | 0 <= i < |after| :: InGroup(after[i], key) && after[i].node == n && after[i].rank == ranks[n]
    {
      var i :| 0 <= i < |items| && InGroup(items[i], key) && items[i].node == n && items[i].rank == ranks[n];
      assert InGroup(after[i], key) && after[i].node == n && after[i].rank == ranks[n];
    }
  }

  /** An item of another key changes nothing. */
  lemma GroupGrows(e: Entry, items: seq<Keyed>, key: Text, k: nat, r: Keyed)
    requires Describes(e, items, key, k) && !InGroup(r, key)
    ensures Describes(e, items + [r], key, k)
  {
    var p: nat :| LedBy(e, items, key, p);
    PrimaryGrows(items, key, p, r);
    RanksGrow(items, key, e.ranks, r);
    assert LedBy(e, items + [r], key, p);
  }

  function Start(r: Keyed, k: nat): Entry {
    Entry(r.item, Share(k, r.rank), r.rank, r.node, r.nodeOrder, [r.node], map[r.node := r.rank])
  }

  /** The entry of a key seen for the first time. */
  lemma Started(items: seq<Keyed>, r: Keyed, k: nat)
    requires forall i | 0 <= i < |items| :: !InGroup(items[i], r.key)
    ensures Describes(Start(r, k), items + [r], r.key, k)
  {
    var after := items + [r];
    assert after[|items|] == r && InGroup(r, r.key);
    assert forall i | 0 <= i < |items| :: after[i] == items[i];
    assert LedBy(Start(r, k), after, r.key, |items|);
    var none: map<Text, Rank> := map[];
    TotalInsert(none, k, r.node, r.rank);
    assert none[r.node := r.rank] == map[r.node := r.rank];
  }

  /** Takes the rank in: a node's first rank adds to the score, a better one replaces the old. */
  method Rescore(existing: Entry, r: Keyed, k: nat, ghost items: seq<Keyed>) returns (e: Entry)
    requires Scored(existing, items, r.key, k)
    ensures Scored(e, items + [r], r.key, k)
    ensures e == existing.(score := e.score, nodes := e.nodes, ranks := e.ranks)
  {
    e := existing;
    RanksGrow(items, r.key, existing.ranks, r);
    if r.node !in e.ranks {
      TotalInsert(existing.ranks, k, r.node, r.rank);
      e := e.(score := e.score + Share(k, r.rank), nodes := e.nodes + [r.node], ranks := e.ranks[r.node := r.rank]);
    } else if r.rank < e.ranks[r.node] {
      TotalReplace(existing.ranks, k, r.node, r.rank);
      e := e.(score := e.score + (Share(k, r.rank) - Share(k, e.ranks[r.node])), ranks := e.ranks[r.node := r.rank]);
    }
  }

  /** Makes the item the primary one if it is better. */
  method Relead(existing: Entry, r: Keyed, ghost items: seq<Keyed>, ghost p: nat) returns (e: Entry)
    requires LedBy(existing, items, r.key, p)
    ensures LedBy(e, items + [r], r.key, if Better(r, items[p]) then |items| else p)
    ensures e == existing.(item := e.item, bestRank := e.bestRank, node := e.node, nodeOrder := e.nodeOrder)
  {
    e := existing;
    PrimaryGrows(items, r.key, p, r);
    if r.rank < e.bestRank || (r.rank == e.bestRank && r.nodeOrder < e.nodeOrder) {
      e := e.(item := r.item, bestRank := r.rank, node := r.node, nodeOrder := r.nodeOrder);
    }
  }

  /** An entry that already exists takes one more item of its key in. */
  method Absorb(existing: Entry, r: Keyed, k: nat, ghost items: seq<Keyed>) returns (e: Entry)
    requires Describes(existing, items, r.key, k)
    ensures Describes(e, items + [r], r.key, k)
  {
    ghost var p: nat :| LedBy(existing, items, r.key, p);
    e := Rescore(existing, r, k, items);
    assert LedBy(e, items, r.key, p);
    e := Relead(e, r, items, p);
  }

  // Sorting

  /** The comparator: score descending, then best rank, then node order. */
  predicate Before(a: Entry, b: Entry) {
    a.score > b.score || (a.score == b.score && (a.bestRank < b.bestRank || (a.bestRank == b.bestRank && a.nodeOrder < b.nodeOrder)))
  }

  predicate Tied(a: Entry, b: Entry) {
    a.score == b.score && a.bestRank == b.bestRank && a.nodeOrder == b.nodeOrder
  }

  lemma BeforeIsWeak()
    ensures WeakOrder(Before)
  {
  }

  /** The sorted entries are in order, a permutation, and ties keep their order. */
  lemma SortSpec(s: seq<Entry>, c: Entry)
    ensures Ordered(Before, Sort(Before, s)) && multiset(Sort(Before, s)) == multiset(s)
    ensures TiedWith(Before, Sort(Before, s), c) == TiedWith(Before, s, c)
  {
    BeforeIsWeak();
    SortOrdered(Before, s);
    SortPermutes(Before, s);
    SortStable(Before, s, c);
  }

  function Top(s: seq<Entry>, limit: nat): seq<Entry> {
    if limit < |s| then s[..limit] else s
  }

  // The whole method

  /** The keys in the order a Map keeps them. */
  function FirstSeen(items: seq<Keyed>): seq<Text> {
    if items == [] then []
    else
      var before := FirstSeen(items[..|items| - 1]);
      var key := items[|items| - 1].key;
      if key in before then before else before + [key]
  }

  /** One entry for each key, each describing its group. */
  ghost predicate Groups(entries: seq<Entry>, items: seq<Keyed>, k: nat) {
    |entries| == |FirstSeen(items)| && forall j | 0 <= j < |entries| :: Describes(entries[j], items, FirstSeen(items)[j], k)
  }

  lemma {:induction false} FirstSeenSpec(items: seq<Keyed>)
    ensures Distinct(FirstSeen(items))
    ensures forall key :: key in FirstSeen(items) <==> exists i | 0 <= i < |items| :: InGroup(items[i], key)
    decreases |items|
  {
    if items != [] {
      var front := items[..|items| - 1];
      FirstSeenSpec(front);
      forall key ensures key in FirstSeen(items) <==> exists i | 0 <= i < |items| :: InGroup(items[i], key) {
        if i :| 0 <= i < |items| && InGroup(items[i], key) {
          assert i < |front| ==> front[i] == items[i];
        }
        if i :| 0 <= i < |front| && InGroup(front[i], key) {
          assert items[i] == front[i];
        }
        assert InGroup(items[|items| - 1], items[|items| - 1].key);
      }
    }
  }

  /** The map so far: an entry for each key seen, describing its group. */
  ghost predicate Tabled(table: map<Text, Entry>, items: seq<Keyed>, k: nat) {
    && (forall i | 0 <= i < |items| :: items[i].key in table)
    && forall key | key in table :: Describes(table[key], items, key, k)
  }

  lemma TableGrows(table: map<Text, Entry>, items: seq<Keyed>, r: Keyed, k: nat, e: Entry)
    requires Tabled(table, items, k) && Describes(e, items + [r], r.key, k)
    ensures Tabled(table[r.key := e], items + [r], k)
  {
    OthersStay(table, items, r, k, r.key);
    AllUpdated(table, r.key, e, table[r.key := e], (other, x) => Describes(x, items + [r], other, k));
  }

  /** A key is in the map exactly when it has been seen. */
  lemma TabledIsSeen(table: map<Text, Entry>, items: seq<Keyed>, k: nat, key: Text)
    requires Tabled(table, items, k)
    ensures key in table <==> key in FirstSeen(items)
    ensures key in table <==> exists i | 0 <= i < |items| :: InGroup(items[i], key)
  {
    FirstSeenSpec(items);
    if key in table {
      var p: nat :| LedBy(table[key], items, key, p);
      assert InGroup(items[p], key);
    }
  }

  lemma AllUpdated(table: map<Text, Entry>, key: Text, e: Entry, after: map<Text, Entry>, p: (Text, Entry) -> bool)
    requires after == table[key := e]
    requires p(key, e) && forall other | other in table && other != key :: p(other, table[other])
    ensures forall other | other in after :: p(other, after[other])
  {
  }

  lemma OthersStay(table: map<Text, Entry>, items: seq<Keyed>, r: Keyed, k: nat, key: Text)
    requires Tabled(table, items, k) && key == r.key
    ensures forall other | other in table && other != key :: Describes(table[other], items + [r], other, k)
  {
    forall other | other in table && other != key ensures Describes(table[other], items + [r], other, k) {
      GroupGrows(table[other], items, other, k, r);
    }
  }

  /** One turn of the loop. */
  method Collect(table: map<Text, Entry>, r: Keyed, k: nat, ghost items: seq<Keyed>) returns (after: map<Text, Entry>)
    requires Tabled(table, items, k)
    ensures Tabled(after, items + [r], k)
  {
    TabledIsSeen(table, items, k, r.key);
    if r.key !in table {
      Started(items, r, k);
      TableGrows(table, items, r, k, Start(r, k));
      after := table[r.key := Start(r, k)];
    } else {
      var merged := Absorb(table[r.key], r, k, items);
      TableGrows(table, items, r, k, merged);
      after := table[r.key := merged];
    }
  }

  /** The loop over the ranked items. */
  method FuseAll(items: seq<Keyed>, k: nat) returns (table: map<Text, Entry>)
    ensures Tabled(table, items, k)
  {
    table := map[];
    var i := 0;
    while i < |items|
      invariant 0 <= i <= |items|
      invariant Tabled(table, items[..i], k)
    {
      PrefixGrows(items, i);
      table := Collect(table, items[i], k, items[..i]);
      i := i + 1;
    }
    WholePrefix(items);
  }

  /** The values of the map in the order of its keys. */
  function Listed(table: map<Text, Entry>, keys: seq<Text>): seq<Entry>
    requires forall key | key in keys :: key in table
  {
    seq(|keys|, j requires 0 <= j < |keys| => assert keys[j] in keys; table[keys[j]])
  }

  lemma KeysTabled(table: map<Text, Entry>, items: seq<Keyed>, k: nat)
    requires Tabled(table, items, k)
    ensures forall key | key in FirstSeen(items) :: key in table
  {
    forall key | key in FirstSeen(items) ensures key in table {
      TabledIsSeen(table, items, k, key);
    }
  }

  lemma ListedGroups(table: map<Text, Entry>, keys: seq<Text>, items: seq<Keyed>, k: nat)
    requires Tabled(table, items, k) && keys == FirstSeen(items) && forall key | key in keys :: key in table
    ensures Groups(Listed(table, keys), items, k)
  {
  }

  /** The entries of every group, best first and at most `limit` of them. */
  ghost predicate Fused(fused: seq<Entry>, items: seq<Keyed>, limit: nat, k: nat) {
    exists all :: Groups(all, items, k) && fused == Top(Sort(Before, all), limit)
  }

  method Rrf(items: seq<Ranked>, limit: nat, k: nat) returns (fused: seq<Entry>)
    ensures Fused(fused, WithKeys(items), limit, k)
  {
    var table := FuseAll(WithKeys(items), k);
    var keys := FirstSeen(WithKeys(items));  // a Map iterates in the order its keys were first set
    KeysTabled(table, WithKeys(items), k);
    ListedGroups(table, keys, WithKeys(items), k);
    fused := Top(Sort(Before, Listed(table, keys)), limit);
  }

  // What the specification settles

  ghost predicate SameItems(a: seq<Keyed>, b: seq<Keyed>) {
    forall r :: r in a <==> r in b
  }

  lemma BestRanksUnique(a: seq<Keyed>, b: seq<Keyed>, key: Text, x: map<Text, Rank>, y: map<Text, Rank>)
    requires SameItems(a, b) && BestRanks(a, key, x) && BestRanks(b, key, y)
    ensures x == y
  {
    forall n | n in x ensures n in y && y[n] <= x[n] {
      var i :| 0 <= i < |a| && InGroup(a[i], key) && a[i].node == n && a[i].rank == x[n];
      assert a[i] in b;
    }
    forall n | n in y ensures n in x && x[n] <= y[n] {
      var i :| 0 <= i < |b| && InGroup(b[i], key) && b[i].node == n && b[i].rank == y[n];
      assert b[i] in a;
    }
  }

  /**
   The order in which ranked items arrive, and how often each does, does not matter: scores, ranks
   and the place in the order are the same, and so is the primary node if node orders tell nodes apart.
   */
  lemma OrderOfArrivalIrrelevant(a: seq<Keyed>, b: seq<Keyed>, key: Text, k: nat, e: Entry, f: Entry)
    requires SameItems(a, b) && Describes(e, a, key, k) && Describes(f, b, key, k)
    ensures e.score == f.score && e.ranks == f.ranks && Tied(e, f)
    ensures (forall r, s | r in a && s in a && r.nodeOrder == s.nodeOrder :: r.node == s.node) ==> e.node == f.node
  {
    BestRanksUnique(a, b, key, e.ranks, f.ranks);
    var p: nat :| LedBy(e, a, key, p);
    var q: nat :| LedBy(f, b, key, q);
    assert a[p] in b && b[q] in a;
    var i :| 0 <= i < |b| && b[i] == a[p];
    var j :| 0 <= j < |a| && a[j] == b[q];
    assert !Better(b[i], b[q]) && !Better(a[j], a[p]);
  }

  lemma SharePositive(k: nat, r: Rank, s: Rank)
    requires r <= s
    ensures 0.0 < Share(k, s) <= Share(k, r)
  {
    var (x, y) := ((k + r) as real, (k + s) as real);
    assert 0.0 < x <= y;
    assert 1.0 / x - 1.0 / y == (y - x) / (x * y);
  }

  /** Found by more Nodes, or ranked better by the same ones, a result never scores less. */
  lemma {:induction false} MoreNodesScoreMore(nodes: set<Text>, x: map<Text, Rank>, more: set<Text>, y: map<Text, Rank>, k: nat)
    requires nodes <= x.Keys && more <= y.Keys && nodes <= more
    requires forall n | n in nodes :: y[n] <= x[n]
    ensures Total(nodes, x, k) <= Total(more, y, k)
    ensures nodes != more ==> Total(nodes, x, k) < Total(more, y, k)
    decreases more
  {
    if more != {} {
      if nodes != {} {
        var n :| n in nodes;
        TotalWithout(nodes, x, k, n);
        TotalWithout(more, y, k, n);
        SharePositive(k, y[n], x[n]);
        MoreNodesScoreMore(nodes - {n}, x, more - {n}, y, k);
        assert nodes - {n} == more - {n} ==> nodes == more by {
          assert nodes == nodes - {n} + {n} && more == more - {n} + {n};
        }
      } else {
        var n :| n in more;
        TotalWithout(more, y, k, n);
        SharePositive(k, y[n], y[n]);
        MoreNodesScoreMore({}, x, more - {n}, y, k);
      }
    }
  }

  /** Nothing left out by the limit belongs before anything kept. */
  lemma NothingBetterIsCut(all: seq<Entry>, limit: nat, kept: Entry, e: Entry)
    requires kept in Top(Sort(Before, all), limit) && e in all && e !in Top(Sort(Before, all), limit)
    ensures !Before(e, kept) && |Top(Sort(Before, all), limit)| == limit
  {
    SortSpec(all, e);
    assert e in multiset(all) && e in Sort(Before, all);
    var i :| 0 <= i < |Sort(Before, all)| && Sort(Before, all)[i] == e;
    var j :| 0 <= j < |Top(Sort(Before, all), limit)| && Top(Sort(Before, all), limit)[j] == kept;
    assert i >= limit;
  }

  /** Two records are one result exactly when they have the same identifier, whichever Nodes report them. */
  lemma RecordsMeet(r: Ranked, s: Ranked)
    requires r.item.recordId != [] && s.item.recordId != []
    ensures KeyOf(r) == KeyOf(s) <==> r.item.recordId == s.item.recordId
  {
    var prefix := Ascii("record:");
    assert (prefix + r.item.recordId)[|prefix|..] == r.item.recordId;
    assert (prefix + s.item.recordId)[|prefix|..] == s.item.recordId;
  }
}
