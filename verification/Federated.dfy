/**
 The bounded reply of a federated read: `#boundFederatedResult` (apps/mcp/src/router.ts:55-56,
 802-838). Items are taken in order as long as the reply with them fits, and those that do not fit
 are skipped. What `compactItem` makes of an oversized item is an input.
 */
module Federated {
  import opened Batch
  import opened Json
  import opened Seqs
  import opened Text

  const RESULT_LIMIT: int := 960_000
  const MARK_RESERVE: int := 256
  const ITEM_LIMIT: int := 524_288

  const RESULTS := Ascii("results")
  const SNIPPETS := Ascii("record_snippets")
  const TRUNCATED := Ascii("truncated")
  const OMITTED_RESULTS := Ascii("omitted_results")
  const OMITTED_SNIPPETS := Ascii("omitted_snippets")

  /** The members of the reply before and after `results`. */
  datatype Frame = Frame(before: seq<Member>, after: seq<Member>)

  function Reply(f: Frame, results: seq<Value>, more: seq<Member>): Value {
    Obj(f.before + [Member(RESULTS, Arr(results))] + f.after + more)
  }

  function SnippetMembers(snippets: seq<Value>): seq<Member> {
    if snippets == [] then [] else [Member(SNIPPETS, Arr(snippets))]
  }

  predicate Fits(reply: Value) {
    Bytes(reply) <= RESULT_LIMIT - MARK_RESERVE
  }

  function Candidate(compact: Value -> Value, raw: Value): Value {
    if Bytes(raw) <= ITEM_LIMIT then raw else compact(raw)
  }

  function Candidates(compact: Value -> Value, raws: seq<Value>): seq<Value> {
    seq(|raws|, i requires 0 <= i < |raws| => Candidate(compact, raws[i]))
  }

  /** Each result that fits beside those kept before it. */
  function KeptResults(f: Frame, items: seq<Value>): seq<Value> {
    if items == [] then []
    else
      var before := KeptResults(f, items[..|items| - 1]);
      var next := before + [items[|items| - 1]];
      if Fits(Reply(f, next, [])) then next else before
  }

  /** Each snippet that fits beside the results and the snippets kept before it. */
  function KeptSnippets(f: Frame, results: seq<Value>, items: seq<Value>): seq<Value> {
    if items == [] then []
    else
      var before := KeptSnippets(f, results, items[..|items| - 1]);
      var next := before + [items[|items| - 1]];
      if Fits(Reply(f, results, SnippetMembers(next))) then next else before
  }

  predicate IsTruncated(item: Value) {
    item.Obj? && Get(item.members, TRUNCATED) == Bool(true)
  }

  predicate SomeTruncated(results: seq<Value>) {
    results != [] && (IsTruncated(results[0]) || SomeTruncated(results[1..]))
  }

  function Marks(omittedResults: nat, omittedSnippets: nat): seq<Member> {
    [Member(TRUNCATED, Bool(true)), Member(OMITTED_RESULTS, Num(omittedResults)), Member(OMITTED_SNIPPETS, Num(omittedSnippets))]
  }

  /** Some item is larger than an item may be. */
  predicate Oversized(raws: seq<Value>) {
    raws != [] && (Oversized(raws[..|raws| - 1]) || Bytes(raws[|raws| - 1]) > ITEM_LIMIT)
  }

  /** The reply with these items, and marks if anything was omitted or cut. */
  function Marked(f: Frame, results: seq<Value>, snippets: seq<Value>, omittedResults: nat, omittedSnippets: nat, compacted: bool): Value {
    var marks := omittedResults > 0 || omittedSnippets > 0 || compacted || SomeTruncated(results);
    Reply(f, results, SnippetMembers(snippets) + if marks then Marks(omittedResults, omittedSnippets) else [])
  }

  function Omitted(all: seq<Value>, kept: seq<Value>): nat {
    if |kept| <= |all| then |all| - |kept| else 0
  }

  function Bounded(f: Frame, results: seq<Value>, snippets: seq<Value>, compact: Value -> Value): Value {
    var kept := KeptResults(f, Candidates(compact, results));
    var shown := KeptSnippets(f, kept, Candidates(compact, snippets));
    Marked(f, kept, shown, Omitted(results, kept), Omitted(snippets, shown), Oversized(snippets))
  }

  method KeepResults(f: Frame, raws: seq<Value>, compact: Value -> Value) returns (kept: seq<Value>, omitted: nat)
    ensures kept == KeptResults(f, Candidates(compact, raws)) && omitted == |raws| - |kept|
  {
    kept, omitted := [], 0;
    var i := 0;
    ghost var all := Candidates(compact, raws);
    while i < |raws|
      invariant 0 <= i <= |raws|
      invariant kept == KeptResults(f, all[..i]) && omitted == i - |kept|
    {
      var candidate := if Bytes(raws[i]) <= ITEM_LIMIT then raws[i] else compact(raws[i]);
      PrefixFront(all, i);
      if Bytes(Reply(f, kept + [candidate], [])) > RESULT_LIMIT - MARK_RESERVE {
        omitted := omitted + 1;
      } else {
        kept := kept + [candidate];
      }
      i := i + 1;
    }
    WholePrefix(all);
  }

  /** One turn of the loop over the snippets. */
  lemma NextSnippet(f: Frame, results: seq<Value>, all: seq<Value>, i: nat)
    requires i < |all|
    ensures var kept := KeptSnippets(f, results, all[..i]);
            KeptSnippets(f, results, all[..i + 1])
            == if Fits(Reply(f, results, [Member(SNIPPETS, Arr(kept + [all[i]]))])) then kept + [all[i]] else kept
  {
    PrefixFront(all, i);
  }

  lemma NextOversized(raws: seq<Value>, i: nat)
    requires i < |raws|
    ensures Oversized(raws[..i + 1]) <==> Oversized(raws[..i]) || Bytes(raws[i]) > ITEM_LIMIT
  {
    PrefixFront(raws, i);
  }

  method KeepSnippets(f: Frame, results: seq<Value>, raws: seq<Value>, compact: Value -> Value)
    returns (kept: seq<Value>, omitted: nat, compacted: bool)
    ensures kept == KeptSnippets(f, results, Candidates(compact, raws)) && omitted == |raws| - |kept|
    ensures compacted == Oversized(raws)
  {
    kept, omitted, compacted := [], 0, false;
    var i := 0;
    ghost var all := Candidates(compact, raws);
    while i < |raws|
      invariant 0 <= i <= |raws|
      invariant kept == KeptSnippets(f, results, all[..i]) && omitted == i - |kept|
      invariant compacted == Oversized(raws[..i])
    {
      var candidate := raws[i];
      if Bytes(raws[i]) > ITEM_LIMIT {
        candidate := compact(raws[i]);
        compacted := true;
      }
      NextOversized(raws, i);
      NextSnippet(f, results, all, i);
      if Bytes(Reply(f, results, [Member(SNIPPETS, Arr(kept + [candidate]))])) > RESULT_LIMIT - MARK_RESERVE {
        omitted := omitted + 1;
      } else {
        kept := kept + [candidate];
      }
      i := i + 1;
    }
    WholePrefix(raws);
    WholePrefix(all);
  }

  method BoundFederatedResult(f: Frame, results: seq<Value>, snippets: seq<Value>, compact: Value -> Value) returns (bounded: Value)
    ensures bounded == Bounded(f, results, snippets, compact)
    ensures LimitMet(f, results, snippets, bounded)
  {
    var kept, omittedResults := KeepResults(f, results, compact);
    var shown, omittedSnippets, compacted := KeepSnippets(f, kept, snippets, compact);
    bounded := Marked(f, kept, shown, omittedResults, omittedSnippets, compacted);
    LimitCondition(f, results, snippets, compact);
  }

  // Sizes

  function MembersBytes(members: seq<Member>): nat {
    Utf8Length(StringifyMembers(members))
  }

  lemma ObjectBytes(members: seq<Member>)
    ensures Bytes(Obj(members)) == MembersBytes(members) + 2
  {
    Utf8LengthUnits(OPEN_BRACE, StringifyMembers(members), CLOSE_BRACE);
  }

  function MemberBytes(m: Member): nat {
    Utf8Length(StringifyMember(m))
  }

  /** One member in front. */
  lemma FirstBytes(m: Member, rest: seq<Member>)
    ensures MembersBytes([m] + rest)
            == if m.value == Undefined then MembersBytes(rest)
               else MemberBytes(m) + if MembersBytes(rest) == 0 then 0 else 1 + MembersBytes(rest)
  {
    assert ([m] + rest)[0] == m && ([m] + rest)[1..] == rest;
    var tail := StringifyMembers(rest);
    EmptyBytes(tail);
    if m.value == Undefined {
    } else if tail != [] {
      Utf8LengthConcat(StringifyMember(m), [COMMA] + tail);
      Utf8LengthConcat([COMMA], tail);
      Utf8LengthAscii([COMMA]);
    } else {
      assert StringifyMembers([m] + rest) == StringifyMember(m) + [];
      assert StringifyMember(m) + [] == StringifyMember(m);
    }
  }

  lemma EmptyBytes(t: Text)
    ensures Utf8Length(t) == 0 <==> t == []
  {
  }

  lemma {:induction false} TailBytes(members: seq<Member>, tail: seq<Member>)
    ensures MembersBytes(members + tail)
            == MembersBytes(members) + MembersBytes(tail) + if MembersBytes(members) == 0 || MembersBytes(tail) == 0 then 0 else 1
    decreases |members|
  {
    if members == [] {
      assert members + tail == tail;
    } else {
      var (m, rest) := (members[0], members[1..]);
      SplitFirst(members);
      assert members + tail == [m] + (rest + tail);
      TailBytes(rest, tail);
      FirstBytes(m, rest);
      FirstBytes(m, rest + tail);
      EmptyBytes(StringifyMember(m));
    }
  }

  /** A longer value makes a longer object. */
  lemma {:induction false} LongerValue(before: seq<Member>, m: Member, n: Member, after: seq<Member>)
    requires m.value != Undefined && n.value != Undefined && MemberBytes(m) <= MemberBytes(n)
    ensures MembersBytes(before + ([m] + after)) <= MembersBytes(before + ([n] + after))
    decreases |before|
  {
    if before == [] {
      assert before + ([m] + after) == [m] + after && before + ([n] + after) == [n] + after;
      FirstBytes(m, after);
      FirstBytes(n, after);
    } else {
      var (b, rest) := (before[0], before[1..]);
      SplitFirst(before);
      assert before + ([m] + after) == [b] + (rest + ([m] + after));
      assert before + ([n] + after) == [b] + (rest + ([n] + after));
      LongerValue(rest, m, n, after);
      FirstBytes(b, rest + ([m] + after));
      FirstBytes(b, rest + ([n] + after));
    }
  }

  lemma ArrayMember(key: Text, items: seq<Value>, v: Value)
    ensures MemberBytes(Member(key, Arr(items))) <= MemberBytes(Member(key, Arr(items + [v])))
  {
    ArraySize(items, v);
    Utf8LengthInfix(Quoted(key), COLON, Stringify(Arr(items)));
    Utf8LengthInfix(Quoted(key), COLON, Stringify(Arr(items + [v])));
  }

  /** One more result never makes the reply shorter. */
  lemma MoreResults(f: Frame, results: seq<Value>, v: Value, more: seq<Member>)
    ensures Bytes(Reply(f, results, more)) <= Bytes(Reply(f, results + [v], more))
  {
    var (m, n) := (Member(RESULTS, Arr(results)), Member(RESULTS, Arr(results + [v])));
    ArrayMember(RESULTS, results, v);
    LongerValue(f.before, m, n, f.after + more);
    assert f.before + [m] + f.after + more == f.before + ([m] + (f.after + more));
    assert f.before + [n] + f.after + more == f.before + ([n] + (f.after + more));
    ObjectBytes(f.before + [m] + f.after + more);
    ObjectBytes(f.before + [n] + f.after + more);
  }

  /** More members at the end cost themselves and a comma. */
  lemma MoreMembers(f: Frame, results: seq<Value>, more: seq<Member>, tail: seq<Member>)
    ensures Bytes(Reply(f, results, more)) <= Bytes(Reply(f, results, more + tail)) <= Bytes(Reply(f, results, more)) + 1 + MembersBytes(tail)
  {
    var members := f.before + [Member(RESULTS, Arr(results))] + f.after;
    TailBytes(members + more, tail);
    assert (members + more) + tail == members + (more + tail);
    ObjectBytes(members + more);
    ObjectBytes(members + (more + tail));
  }

  lemma MoreSnippets(f: Frame, results: seq<Value>, snippets: seq<Value>, v: Value)
    ensures Bytes(Reply(f, results, SnippetMembers(snippets))) <= Bytes(Reply(f, results, SnippetMembers(snippets + [v])))
  {
    if snippets == [] {
      MoreMembers(f, results, [], SnippetMembers([v]));
      assert [] + SnippetMembers([v]) == SnippetMembers([v]) && snippets + [v] == [v];
    } else {
      var members := f.before + [Member(RESULTS, Arr(results))] + f.after;
      var (m, n) := (Member(SNIPPETS, Arr(snippets)), Member(SNIPPETS, Arr(snippets + [v])));
      ArrayMember(SNIPPETS, snippets, v);
      LongerValue(members, m, n, []);
      assert [m] + [] == [m] && [n] + [] == [n];
      ObjectBytes(members + [m]);
      ObjectBytes(members + [n]);
    }
  }

  // The marks

  function Power10(n: nat): nat {
    if n == 0 then 1 else 10 * Power10(n - 1)
  }

  lemma {:induction false} DigitsLength(n: nat, k: nat)
    requires k >= 1 && n < Power10(k)
    ensures |Digits(n)| <= k
    decreases k
  {
    if n >= 10 {
      DigitsLength(n / 10, k - 1);
    }
  }

  lemma CountBytes(key: Text, n: nat)
    requires Plain(key) && n < 0x1_0000_0000
    ensures MemberBytes(Member(key, Num(n))) <= |key| + 13
  {
    assert Power10(3) == 1000 && Power10(6) == 1000 * Power10(3) && Power10(10) == 10000 * Power10(6);
    DigitsLength(n, 10);
    Utf8LengthAscii(Digits(n));
    MemberSize(Member(key, Num(n)));
  }

  lemma MarksBytes(results: nat, snippets: nat)
    requires results < 0x1_0000_0000 && snippets < 0x1_0000_0000
    ensures MembersBytes(Marks(results, snippets)) + 1 <= MARK_RESERVE
  {
    var (a, b, c) := (Marks(results, snippets)[0], Marks(results, snippets)[1], Marks(results, snippets)[2]);
    PlainAscii("truncated");
    PlainAscii("omitted_results");
    PlainAscii("omitted_snippets");
    CountBytes(OMITTED_RESULTS, results);
    CountBytes(OMITTED_SNIPPETS, snippets);
    MemberSize(a);
    Utf8LengthAscii(TRUE);
    FirstBytes(c, []);
    FirstBytes(b, [c]);
    FirstBytes(a, [b, c]);
    assert [c] + [] == [c] && [b] + [c] == [b, c] && [a] + [b, c] == Marks(results, snippets);
  }

  // What is kept

  lemma {:induction false} KeptResultsFit(f: Frame, items: seq<Value>)
    ensures KeptResults(f, items) == [] || Fits(Reply(f, KeptResults(f, items), []))
    decreases |items|
  {
    if items != [] {
      KeptResultsFit(f, items[..|items| - 1]);
    }
  }

  lemma {:induction false} KeptSnippetsFit(f: Frame, results: seq<Value>, items: seq<Value>)
    ensures KeptSnippets(f, results, items) == [] || Fits(Reply(f, results, SnippetMembers(KeptSnippets(f, results, items))))
    decreases |items|
  {
    if items != [] {
      KeptSnippetsFit(f, results, items[..|items| - 1]);
    }
  }

  /** What is kept, results and snippets together, fits. */
  lemma KeptFit(f: Frame, results: seq<Value>, snippets: seq<Value>)
    requires Fits(Reply(f, [], []))
    ensures var kept := KeptResults(f, results);
            Fits(Reply(f, kept, SnippetMembers(KeptSnippets(f, kept, snippets))))
  {
    KeptResultsFit(f, results);
    KeptSnippetsFit(f, KeptResults(f, results), snippets);
  }

  /** The marks fit in what is reserved for them. */
  lemma MarkedFits(f: Frame, results: seq<Value>, snippets: seq<Value>, omittedResults: nat, omittedSnippets: nat, compacted: bool)
    requires omittedResults < 0x1_0000_0000 && omittedSnippets < 0x1_0000_0000
    requires Fits(Reply(f, results, SnippetMembers(snippets)))
    ensures Bytes(Marked(f, results, snippets, omittedResults, omittedSnippets, compacted)) <= RESULT_LIMIT
  {
    MarksBytes(omittedResults, omittedSnippets);
    MoreMembers(f, results, SnippetMembers(snippets), Marks(omittedResults, omittedSnippets));
    assert SnippetMembers(snippets) + [] == SnippetMembers(snippets);
  }

  lemma WithinLimit(f: Frame, results: seq<Value>, snippets: seq<Value>, compact: Value -> Value)
    requires |results| < 0x1_0000_0000 && |snippets| < 0x1_0000_0000 && Fits(Reply(f, [], []))
    ensures Bytes(Bounded(f, results, snippets, compact)) <= RESULT_LIMIT
  {
    var kept := KeptResults(f, Candidates(compact, results));
    var shown := KeptSnippets(f, kept, Candidates(compact, snippets));
    KeptFit(f, Candidates(compact, results), Candidates(compact, snippets));
    MarkedFits(f, kept, shown, Omitted(results, kept), Omitted(snippets, shown), Oversized(snippets));
  }

  /** The reply with no item, and with the marks if there was any to drop. */
  function Stripped(f: Frame, results: seq<Value>, snippets: seq<Value>): Value {
    Reply(f, [], if results == [] && snippets == [] then [] else Marks(|results|, |snippets|))
  }

  /**
   For lists as long as a JavaScript array can be: the reply is within the limit exactly if the
   reply without any item leaves room for the marks, or is within the limit once it carries them.
   */
  ghost predicate LimitMet(f: Frame, results: seq<Value>, snippets: seq<Value>, bounded: Value) {
    |results| < 0x1_0000_0000 && |snippets| < 0x1_0000_0000 ==>
      (Bytes(bounded) <= RESULT_LIMIT <==> Fits(Reply(f, [], [])) || Bytes(Stripped(f, results, snippets)) <= RESULT_LIMIT)
  }

  lemma LimitCondition(f: Frame, results: seq<Value>, snippets: seq<Value>, compact: Value -> Value)
    ensures LimitMet(f, results, snippets, Bounded(f, results, snippets, compact))
  {
    if |results| >= 0x1_0000_0000 || |snippets| >= 0x1_0000_0000 {
    } else if Fits(Reply(f, [], [])) {
      WithinLimit(f, results, snippets, compact);
    } else {
      NothingIsKept(f, results, snippets, compact);
    }
  }

  lemma {:induction false} NoResultFits(f: Frame, items: seq<Value>)
    requires !Fits(Reply(f, [], []))
    ensures KeptResults(f, items) == []
    decreases |items|
  {
    if items != [] {
      var last := items[|items| - 1];
      NoResultFits(f, items[..|items| - 1]);
      MoreResults(f, [], last, []);
      assert [] + [last] == [last];
    }
  }

  lemma {:induction false} NoSnippetFits(f: Frame, items: seq<Value>)
    requires !Fits(Reply(f, [], []))
    ensures KeptSnippets(f, [], items) == []
    decreases |items|
  {
    if items != [] {
      var last := items[|items| - 1];
      NoSnippetFits(f, items[..|items| - 1]);
      MoreSnippets(f, [], [], last);
      assert [] + [last] == [last];
    }
  }

  /**
   The rest of the reply is not bounded: if it leaves no room for the marks, every item is dropped
   and it is sent as it is, marked if there was any item.
   */
  lemma NothingIsKept(f: Frame, results: seq<Value>, snippets: seq<Value>, compact: Value -> Value)
    requires !Fits(Reply(f, [], []))
    ensures Bounded(f, results, snippets, compact) == Stripped(f, results, snippets)
  {
    NoResultFits(f, Candidates(compact, results));
    NoSnippetFits(f, Candidates(compact, snippets));
    MarkedEmpty(f, |results|, |snippets|, Oversized(snippets));
  }

  lemma MarkedEmpty(f: Frame, results: nat, snippets: nat, compacted: bool)
    requires compacted ==> snippets > 0
    ensures Marked(f, [], [], results, snippets, compacted)
            == Reply(f, [], if results == 0 && snippets == 0 then [] else Marks(results, snippets))
  {
    assert SnippetMembers([]) + Marks(results, snippets) == Marks(results, snippets);
    assert SnippetMembers([]) + [] == [];
  }

  /** Dropping the last results or snippets never makes the reply longer. */
  lemma {:induction false} FewerResultsFit(f: Frame, items: seq<Value>, n: nat)
    requires n <= |items| && Fits(Reply(f, items, []))
    ensures Fits(Reply(f, items[..n], []))
    decreases |items| - n
  {
    if n < |items| {
      FewerResultsFit(f, items, n + 1);
      PrefixGrows(items, n);
      MoreResults(f, items[..n], items[n], []);
    } else {
      WholePrefix(items);
    }
  }

  lemma {:induction false} FewerSnippetsFit(f: Frame, results: seq<Value>, items: seq<Value>, n: nat)
    requires n <= |items| && Fits(Reply(f, results, SnippetMembers(items)))
    ensures Fits(Reply(f, results, SnippetMembers(items[..n])))
    decreases |items| - n
  {
    if n < |items| {
      FewerSnippetsFit(f, results, items, n + 1);
      PrefixGrows(items, n);
      MoreSnippets(f, results, items[..n], items[n]);
    } else {
      WholePrefix(items);
    }
  }

  lemma {:induction false} AllResultsKept(f: Frame, items: seq<Value>)
    requires Fits(Reply(f, items, []))
    ensures KeptResults(f, items) == items
    decreases |items|
  {
    if items != [] {
      var n := |items| - 1;
      FewerResultsFit(f, items, n);
      AllResultsKept(f, items[..n]);
      PrefixGrows(items, n);
      WholePrefix(items);
    }
  }

  lemma {:induction false} AllSnippetsKept(f: Frame, results: seq<Value>, items: seq<Value>)
    requires Fits(Reply(f, results, SnippetMembers(items)))
    ensures KeptSnippets(f, results, items) == items
    decreases |items|
  {
    if items != [] {
      var n := |items| - 1;
      FewerSnippetsFit(f, results, items, n);
      AllSnippetsKept(f, results, items[..n]);
      PrefixGrows(items, n);
      WholePrefix(items);
    }
  }

  /** A reply that fits with all its items loses none. */
  lemma NothingIsLost(f: Frame, results: seq<Value>, snippets: seq<Value>, compact: Value -> Value)
    requires var items := Candidates(compact, results);
             Fits(Reply(f, items, SnippetMembers(Candidates(compact, snippets))))
    ensures KeptResults(f, Candidates(compact, results)) == Candidates(compact, results)
    ensures KeptSnippets(f, Candidates(compact, results), Candidates(compact, snippets)) == Candidates(compact, snippets)
  {
    var items := Candidates(compact, results);
    MoreMembers(f, items, [], SnippetMembers(Candidates(compact, snippets)));
    assert [] + SnippetMembers(Candidates(compact, snippets)) == SnippetMembers(Candidates(compact, snippets));
    AllResultsKept(f, items);
    AllSnippetsKept(f, items, Candidates(compact, snippets));
  }

  // A reply that is not within the limit

  const TARGETS := Ascii("targets")
  const ERRORS := Ascii("errors")

  /** The name of a configured node. */
  function NodeName(i: nat): Value {
    Str(Digits(i))
  }

  function NodeNames(n: nat): seq<Value> {
    if n == 0 then [] else NodeNames(n - 1) + [NodeName(n - 1)]
  }

  /** A reply lists the errors, none here, and all the nodes it asked. */
  function ManyNodes(n: nat): Frame {
    Frame([], [Member(ERRORS, Arr([])), Member(TARGETS, Arr(NodeNames(n)))])
  }

  lemma {:induction false} NamesBytes(n: nat)
    ensures Bytes(Arr(NodeNames(n))) >= 3 * n
    decreases n
  {
    if n > 0 {
      NamesBytes(n - 1);
      ArraySize(NodeNames(n - 1), NodeName(n - 1));
      NameBytes(n - 1);
    }
  }

  lemma NameBytes(i: nat)
    ensures Bytes(NodeName(i)) >= 3
  {
    forall j | 0 <= j < |Digits(i)| ensures IsDigit(Digits(i)[j]) {
      assert Digits(i)[j] in Digits(i);
    }
    QuotedSize(Digits(i));
  }

  /** Any member is part of the reply. */
  lemma LastMemberBytes(f: Frame, results: seq<Value>, front: seq<Member>, m: Member)
    requires f.after == front + [m] && m.value != Undefined
    ensures Bytes(Reply(f, results, [])) >= MemberBytes(m)
  {
    var members := f.before + [Member(RESULTS, Arr(results))] + front;
    TailBytes(members, [m]);
    FirstBytes(m, []);
    assert [m] + [] == [m];
    assert f.before + [Member(RESULTS, Arr(results))] + f.after + [] == members + [m];
    ObjectBytes(members + [m]);
  }

  /** With 320,000 configured nodes the reply to a read that finds nothing is over the limit. */
  lemma ManyNodesExceed(compact: Value -> Value)
    ensures !Fits(Reply(ManyNodes(320_000), [], []))
    ensures Bytes(Bounded(ManyNodes(320_000), [], [], compact)) > RESULT_LIMIT
  {
    var names := NodeNames(320_000);
    var m := Member(TARGETS, Arr(names));
    NamesBytes(320_000);
    Utf8LengthInfix(Quoted(TARGETS), COLON, Stringify(Arr(names)));
    assert [Member(ERRORS, Arr([]))] + [m] == ManyNodes(320_000).after;
    LastMemberBytes(ManyNodes(320_000), [], [Member(ERRORS, Arr([]))], m);
    LimitCondition(ManyNodes(320_000), [], [], compact);
  }
}
