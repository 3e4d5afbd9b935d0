/**
 Core's rank fusion of whole lists (apps/core/neuromem_core/ranking.py).
 */
module Ranking {
  import Fusion
  import opened Seqs
  import opened Sorting
  import opened Wrappers

  /** The place of the first occurrence, counted from one. */
  function FirstRank<K(==)>(values: seq<K>, key: K): Option<Fusion.Rank> {
    if values == [] then None
    else
      var front := FirstRank(values[..|values| - 1], key);
      if front.Some? then front else if values[|values| - 1] == key then Some(|values|) else None
  }

  function Share<K(==)>(values: seq<K>, key: K, k: nat): real {
    match FirstRank(values, key)
    case None => 0.0
    case Some(rank) => Fusion.Share(k, rank)
  }

  /** One share for every list that holds the key. */
  function Score<K(==)>(lists: seq<seq<K>>, key: K, k: nat): real {
    if lists == [] then 0.0 else Score(lists[..|lists| - 1], key, k) + Share(lists[|lists| - 1], key, k)
  }

  /** The keys in the order of their first appearance. */
  function Seen<K(==)>(order: seq<K>, values: seq<K>): seq<K> {
    if values == [] then order
    else
      var before := Seen(order, values[..|values| - 1]);
      var last := values[|values| - 1];
      if last in before then before else before + [last]
  }

  function AllSeen<K(==)>(lists: seq<seq<K>>): seq<K> {
    if lists == [] then [] else Seen(AllSeen(lists[..|lists| - 1]), lists[|lists| - 1])
  }

  datatype Scored<K> = Scored(key: K, score: real)

  /**
   Score descending. The second sort key of the code, the place of first appearance, grows along the
   dictionary that is sorted, so that it says what stability says already.
   */
  predicate Before<K>(a: Scored<K>, b: Scored<K>) {
    a.score > b.score
  }

  function Scores<K(==)>(lists: seq<seq<K>>, k: nat): seq<Scored<K>> {
    var keys := AllSeen(lists);
    seq(|keys|, i requires 0 <= i < |keys| => Scored(keys[i], Score(lists, keys[i], k)))
  }

  function Top<K>(s: seq<Scored<K>>, limit: nat): seq<Scored<K>> {
    if limit < |s| then s[..limit] else s
  }

  lemma {:induction false} FirstRankSpec<K>(values: seq<K>, key: K)
    ensures FirstRank(values, key).Some? <==> key in values
    ensures FirstRank(values, key).Some? ==>
              var r := FirstRank(values, key).value; r <= |values| && values[r - 1] == key && key !in values[..r - 1]
    decreases |values|
  {
    if values != [] {
      var front := values[..|values| - 1];
      FirstRankSpec(front, key);
      assert values == front + [values[|values| - 1]];
      if FirstRank(front, key).Some? {
        assert values[..FirstRank(front, key).value - 1] == front[..FirstRank(front, key).value - 1];
      }
    }
  }

  lemma {:induction false} SeenSpec<K>(order: seq<K>, values: seq<K>)
    requires Distinct(order)
    ensures Distinct(Seen(order, values)) && forall x :: x in Seen(order, values) <==> x in order || x in values
    decreases |values|
  {
    if values != [] {
      SeenSpec(order, values[..|values| - 1]);
      assert values == values[..|values| - 1] + [values[|values| - 1]];
    }
  }

  lemma {:induction false} AllSeenSpec<K>(lists: seq<seq<K>>)
    ensures Distinct(AllSeen(lists))
    decreases |lists|
  {
    if lists != [] {
      AllSeenSpec(lists[..|lists| - 1]);
      SeenSpec(AllSeen(lists[..|lists| - 1]), lists[|lists| - 1]);
    }
  }

  /** A key not seen yet has no score. */
  lemma {:induction false} UnseenScore<K>(lists: seq<seq<K>>, key: K, k: nat)
    requires key !in AllSeen(lists)
    ensures Score(lists, key, k) == 0.0
    decreases |lists|
  {
    if lists != [] {
      var front := lists[..|lists| - 1];
      AllSeenSpec(front);
      SeenSpec(AllSeen(front), lists[|lists| - 1]);
      UnseenScore(front, key, k);
      FirstRankSpec(lists[|lists| - 1], key);
    }
  }

  /** What the dictionary holds after these values of one more list. */
  ghost predicate Adds<K(!new)>(before: map<K, real>, values: seq<K>, k: nat, after: map<K, real>) {
    && (forall x :: x in after <==> x in before || x in values)
    && forall x | x in after :: after[x] == (if x in before then before[x] else 0.0) + Share(values, x, k)
  }

  lemma AddsOne<K(!new)>(before: map<K, real>, values: seq<K>, k: nat, scores: map<K, real>, x: K, after: map<K, real>)
    requires Adds(before, values, k, scores)
    requires after == if x in values then scores
                      else scores[x := (if x in scores then scores[x] else 0.0) + Fusion.Share(k, |values| + 1)]
    ensures Adds(before, values + [x], k, after)
  {
    var longer := values + [x];
    assert longer[..|values|] == values;
    forall y ensures Share(longer, y, k) == if y == x && x !in values then Fusion.Share(k, |values| + 1) else Share(values, y, k) {
      FirstRankSpec(values, y);
    }
    FirstRankSpec(values, x);
  }

  /** The inner loop: one list. */
  method AddList<K(==, !new)>(order: seq<K>, scores: map<K, real>, values: seq<K>, k: nat) returns (newOrder: seq<K>, newScores: map<K, real>)
    requires Distinct(order) && forall x :: x in order <==> x in scores
    ensures newOrder == Seen(order, values) && Adds(scores, values, k, newScores)
    ensures forall x :: x in newOrder <==> x in newScores
  {
    newOrder, newScores := order, scores;
    var seenInList: set<K> := {};
    var i := 0;
    while i < |values|
      invariant 0 <= i <= |values|
      invariant forall x :: x in seenInList <==> x in values[..i]
      invariant newOrder == Seen(order, values[..i])
      invariant Adds(scores, values[..i], k, newScores)
      invariant forall x :: x in newOrder <==> x in newScores
    {
      var key := values[i];
      PrefixGrows(values, i);
      assert values[..i + 1][..i] == values[..i];
      SeenSpec(order, values[..i]);
      ghost var was := newScores;
      if key !in seenInList {
        seenInList := seenInList + {key};
        if key !in newScores {
          newOrder := newOrder + [key];
        }
        newScores := newScores[key := (if key in newScores then newScores[key] else 0.0) + Fusion.Share(k, i + 1)];
      }
      AddsOne(scores, values[..i], k, was, key, newScores);
      i := i + 1;
    }
    WholePrefix(values);
  }

  method ReciprocalRankFusion<K(==, !new)>(lists: seq<seq<K>>, limit: int, k: nat) returns (out: seq<Scored<K>>)
    ensures out == if limit < 1 then [] else Top(Sort(Before, Scores(lists, k)), limit)
  {
    if limit < 1 {
      return [];
    }
    var order: seq<K>, scores: map<K, real> := [], map[];
    var i := 0;
    while i < |lists|
      invariant 0 <= i <= |lists|
      invariant order == AllSeen(lists[..i]) && forall x :: x in order <==> x in scores
      invariant forall x | x in scores :: scores[x] == Score(lists[..i], x, k)
    {
      AllSeenSpec(lists[..i]);
      ghost var was := scores;
      order, scores := AddList(order, scores, lists[i], k);
      PrefixGrows(lists, i);
      assert lists[..i + 1][..i] == lists[..i];
      forall x | x in scores ensures scores[x] == Score(lists[..i + 1], x, k) {
        if x !in was {
          UnseenScore(lists[..i], x, k);
        }
      }
      i := i + 1;
    }
    WholePrefix(lists);
    var items := seq(|order|, j requires 0 <= j < |order| && order[j] in scores => Scored(order[j], scores[order[j]]));
    assert items == Scores(lists, k);
    out := Top(Sort(Before, items), limit);
  }

  /** The result is in order of score, ties by first appearance, and nothing the limit cuts scores more. */
  lemma RankingSpec<K(!new)>(lists: seq<seq<K>>, limit: nat, k: nat, cut: Scored<K>)
    ensures var sorted := Sort(Before, Scores(lists, k));
            && multiset(sorted) == multiset(Scores(lists, k))
            && (forall i, j | 0 <= i < j < |Top(sorted, limit)| :: Top(sorted, limit)[i].score >= Top(sorted, limit)[j].score)
            && TiedWith(Before, sorted, cut) == TiedWith(Before, Scores(lists, k), cut)
            && (cut in sorted && cut !in Top(sorted, limit) ==> forall kept | kept in Top(sorted, limit) :: kept.score >= cut.score)
  {
    var scores := Scores(lists, k);
    var sorted := Sort(Before, scores);
    SortOrdered(Before, scores);
    SortPermutes(Before, scores);
    SortStable(Before, scores, cut);
    if cut in sorted && cut !in Top(sorted, limit) {
      var i :| 0 <= i < |sorted| && sorted[i] == cut;
      forall kept | kept in Top(sorted, limit) ensures kept.score >= cut.score {
        var j :| 0 <= j < |Top(sorted, limit)| && Top(sorted, limit)[j] == kept;
        assert sorted[j] == kept && j < limit && i >= limit;
      }
    }
  }
}
