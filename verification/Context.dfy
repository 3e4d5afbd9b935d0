/**
 The token-budgeted context builder (apps/control/neuromem_control/memory_gateway.py:840-859, 891-931).

 A Python string is a sequence of code points without surrogates. Identifiers of sources and
 provenance, which are stored as they come, are left out.
 */
module Context {
  type Point = c: int | 0 <= c < 0x110000 && !(0xD800 <= c < 0xE000)

  type String = seq<Point>

  function PointBytes(c: Point): (n: nat)
    ensures 1 <= n <= 4
  {
    if c < 0x80 then 1 else if c < 0x800 then 2 else if c < 0x10000 then 3 else 4
  }

  /** len(value.encode("utf-8")) */
  function Utf8(s: String): nat {
    if s == [] then 0 else Utf8(s[..|s| - 1]) + PointBytes(s[|s| - 1])
  }

  /** Two bytes a token, rounded up. */
  function Estimate(s: String): nat {
    (Utf8(s) + 1) / 2
  }

  /** str.isspace */
  predicate IsSpace(c: Point) {
    9 <= c <= 13 || 28 <= c <= 32 || c in {0x85, 0xA0, 0x1680, 0x2028, 0x2029, 0x202F, 0x205F, 0x3000} || 0x2000 <= c <= 0x200A
  }

  function RStrip(s: String): String {
    if s != [] && IsSpace(s[|s| - 1]) then RStrip(s[..|s| - 1]) else s
  }

  function LStrip(s: String): String {
    if s != [] && IsSpace(s[0]) then LStrip(s[1..]) else s
  }

  function Strip(s: String): String {
    RStrip(LStrip(s))
  }

  // Sizes

  lemma {:induction false} Utf8Concat(a: String, b: String)
    ensures Utf8(a + b) == Utf8(a) + Utf8(b)
    decreases |b|
  {
    if b == [] {
      assert a + b == a;
    } else {
      assert (a + b)[..|a + b| - 1] == a + b[..|b| - 1];
      Utf8Concat(a, b[..|b| - 1]);
    }
  }

  lemma PrefixSmaller(s: String, i: nat, j: nat)
    requires i <= j <= |s|
    ensures Estimate(s[..i]) <= Estimate(s[..j])
  {
    assert s[..j] == s[..i] + s[i..j];
    Utf8Concat(s[..i], s[i..j]);
  }

  /** The estimate of a text never exceeds the estimates of its parts. */
  lemma EstimateSubadditive(a: String, b: String)
    ensures Estimate(a + b) <= Estimate(a) + Estimate(b)
  {
    Utf8Concat(a, b);
  }

  lemma {:induction false} RStripSpec(s: String)
    ensures |RStrip(s)| <= |s| && RStrip(s) == s[..|RStrip(s)|]
    ensures Estimate(RStrip(s)) <= Estimate(s)
    ensures RStrip(s) == [] <==> forall i | 0 <= i < |s| :: IsSpace(s[i])
    decreases |s|
  {
    if s != [] && IsSpace(s[|s| - 1]) {
      RStripSpec(s[..|s| - 1]);
    } else {
      assert s[..|s|] == s;
    }
  }

  // Fitting

  /** The length of the longest prefix within the budget. */
  function Longest(s: String, budget: nat): nat {
    if s == [] || Estimate(s) <= budget then |s| else Longest(s[..|s| - 1], budget)
  }

  lemma {:induction false} LongestSpec(s: String, budget: nat)
    ensures Longest(s, budget) <= |s| && Estimate(s[..Longest(s, budget)]) <= budget
    ensures forall l | Longest(s, budget) < l <= |s| :: Estimate(s[..l]) > budget
    decreases |s|
  {
    if s == [] || Estimate(s) <= budget {
      assert s[..|s|] == s;
    } else {
      var front := s[..|s| - 1];
      LongestSpec(front, budget);
      forall l | Longest(s, budget) < l <= |s| ensures Estimate(s[..l]) > budget {
        if l < |s| {
          assert s[..l] == front[..l];
        } else {
          assert s[..l] == s;
        }
      }
      assert s[..Longest(s, budget)] == front[..Longest(s, budget)];
    }
  }

  /** The text if it fits, else its longest fitting prefix without trailing space; and whether it was cut. */
  function Fitted(s: String, budget: nat): (String, bool) {
    LongestSpec(s, budget);
    if Estimate(s) <= budget then (s, false) else (RStrip(s[..Longest(s, budget)]), true)
  }

  lemma FittedFits(s: String, budget: nat)
    ensures Estimate(Fitted(s, budget).0) <= budget
  {
    LongestSpec(s, budget);
    RStripSpec(s[..Longest(s, budget)]);
  }

  method Fit(value: String, tokenBudget: nat) returns (fitted: String, truncated: bool)
    ensures (fitted, truncated) == Fitted(value, tokenBudget)
  {
    if Estimate(value) <= tokenBudget {
      return value, false;
    }
    var low, high := 0, |value|;
    while low < high
      invariant 0 <= low <= high <= |value|
      invariant Estimate(value[..low]) <= tokenBudget
      invariant forall l | high < l <= |value| :: Estimate(value[..l]) > tokenBudget
    {
      var middle := (low + high + 1) / 2;
      if Estimate(value[..middle]) <= tokenBudget {
        low := middle;
      } else {
        forall l | middle <= l <= |value| ensures Estimate(value[..l]) > tokenBudget {
          PrefixSmaller(value, middle, l);
        }
        high := middle - 1;
      }
    }
    LongestSpec(value, tokenBudget);
    assert low == Longest(value, tokenBudget);
    return RStrip(value[..low]), true;
  }

  // The builder

  datatype Section = Section(layer: string, content: String, estimatedTokens: nat, truncated: bool)

  const BLANK_LINE: String := [10, 10]
  const HASHES: String := [35, 35, 32]
  const NEWLINE: String := [10]

  /** `titles` are those of the sections; the builder itself keeps them only in the rendered text. */
  datatype State = State(budget: int, rendered: String, sections: seq<Section>, titles: seq<String>)

  function Heading(rendered: String, title: String): String {
    rendered + (if rendered != [] then BLANK_LINE else []) + HASHES + title + NEWLINE
  }

  /** What `add` leaves and returns. */
  function Added(s: State, layer: string, title: String, content: String): (State, bool) {
    if Strip(content) == [] then (s, true)
    else
      var fixed := Heading(s.rendered, title);
      var remaining := s.budget - Estimate(fixed);
      if remaining <= 0 then (s, false)
      else
        var (fitted, cut) := Fitted(Strip(content), remaining);
        if fitted == [] || Estimate(fixed + fitted) > s.budget then (s, false)
        else (State(s.budget, fixed + fitted, s.sections + [Section(layer, fitted, Estimate(fitted), cut)], s.titles + [title]), !cut)
  }

  class ContextBuilder {
    const tokenBudget: int
    var rendered: String
    var sections: seq<Section>
    ghost var titles: seq<String>

    constructor (tokenBudget: int)
      ensures this.tokenBudget == tokenBudget && Snapshot() == State(tokenBudget, [], [], [])
    {
      this.tokenBudget, rendered, sections, titles := tokenBudget, [], [], [];
    }

    ghost function Snapshot(): State
      reads this
    {
      State(tokenBudget, rendered, sections, titles)
    }

    /** Returns whether the whole content went in. */
    method Add(layer: string, title: String, content: String) returns (whole: bool)
      modifies this
      ensures (Snapshot(), whole) == Added(old(Snapshot()), layer, title, content)
    {
      if Strip(content) == [] {
        return true;
      }
      var prefix := if rendered != [] then BLANK_LINE else [];
      var fixed := rendered + prefix + HASHES + title + NEWLINE;
      var remaining := tokenBudget - Estimate(fixed);
      if remaining <= 0 {
        return false;
      }
      var fitted, truncated := Fit(Strip(content), remaining);
      whole := false;
      if fitted != [] && Estimate(fixed + fitted) <= tokenBudget {
        rendered := fixed + fitted;
        sections := sections + [Section(layer, fitted, Estimate(fitted), truncated)];
        titles := titles + [title];
        whole := !truncated;
      }
    }
  }

  // What every run keeps

  /** The sections under their titles, joined by blank lines. */
  function Render(titles: seq<String>, sections: seq<Section>): String
    requires |titles| == |sections|
  {
    if sections == [] then []
    else
      var n := |sections| - 1;
      Heading(Render(titles[..n], sections[..n]), titles[n]) + sections[n].content
  }

  function TokenSum(sections: seq<Section>): nat {
    if sections == [] then 0 else TokenSum(sections[..|sections| - 1]) + sections[|sections| - 1].estimatedTokens
  }

  ghost predicate Valid(s: State) {
    && |s.titles| == |s.sections| && s.rendered == Render(s.titles, s.sections)
    && (s.rendered != [] ==> Estimate(s.rendered) <= s.budget)
    && (forall i | 0 <= i < |s.sections| :: s.sections[i].content != [] && s.sections[i].estimatedTokens == Estimate(s.sections[i].content))
    && 2 * TokenSum(s.sections) <= Utf8(s.rendered)
  }

  /** The check after fitting can never refuse: what was fitted leaves room for the rest. */
  lemma SecondCheckNeverFires(s: State, title: String, content: String)
    requires s.budget - Estimate(Heading(s.rendered, title)) > 0
    ensures var fixed := Heading(s.rendered, title);
            Estimate(fixed + Fitted(content, s.budget - Estimate(fixed)).0) <= s.budget
  {
    var fixed := Heading(s.rendered, title);
    var fitted := Fitted(content, s.budget - Estimate(fixed)).0;
    FittedFits(content, s.budget - Estimate(fixed));
    EstimateSubadditive(fixed, fitted);
  }

  lemma HeadingSize(rendered: String, title: String)
    ensures Utf8(Heading(rendered, title)) >= Utf8(rendered) + 4
  {
    var gap := if rendered != [] then BLANK_LINE else [];
    Utf8Concat(rendered + gap + HASHES + title, NEWLINE);
    Utf8Concat(rendered + gap + HASHES, title);
    Utf8Concat(rendered + gap, HASHES);
    Utf8Concat(rendered, gap);
    assert Utf8(HASHES) == 3 by {
      assert HASHES[..2] == [35, 35] && [35, 35][..1] == [35];
    }
    assert Utf8(NEWLINE) == 1;
  }

  lemma SectionKeepsValid(s: State, title: String, added: Section)
    requires Valid(s) && added.content != [] && added.estimatedTokens == Estimate(added.content)
    requires Estimate(Heading(s.rendered, title) + added.content) <= s.budget
    ensures Valid(State(s.budget, Heading(s.rendered, title) + added.content, s.sections + [added], s.titles + [title]))
  {
    var n := |s.sections|;
    var (sections, titles) := (s.sections + [added], s.titles + [title]);
    assert sections[..n] == s.sections && titles[..n] == s.titles;
    HeadingSize(s.rendered, title);
    Utf8Concat(Heading(s.rendered, title), added.content);
  }

  lemma AddKeepsValid(s: State, layer: string, title: String, content: String, t: State)
    requires Valid(s) && t == Added(s, layer, title, content).0
    ensures Valid(t)
  {
    var fixed := Heading(s.rendered, title);
    var remaining := s.budget - Estimate(fixed);
    if Strip(content) != [] && remaining > 0 {
      var (fitted, cut) := Fitted(Strip(content), remaining);
      if fitted != [] && Estimate(fixed + fitted) <= s.budget {
        SectionKeepsValid(s, title, Section(layer, fitted, Estimate(fitted), cut));
      }
    }
  }

  datatype Call = Call(layer: string, title: String, content: String)

  function Run(s: State, calls: seq<Call>): State
    decreases |calls|
  {
    if calls == [] then s else Run(Added(s, calls[0].layer, calls[0].title, calls[0].content).0, calls[1..])
  }

  lemma {:induction false} RunKeepsValid(s: State, calls: seq<Call>)
    requires Valid(s)
    ensures Valid(Run(s, calls)) && Run(s, calls).budget == s.budget
    decreases |calls|
  {
    if calls != [] {
      AddKeepsValid(s, calls[0].layer, calls[0].title, calls[0].content, Added(s, calls[0].layer, calls[0].title, calls[0].content).0);
      RunKeepsValid(Added(s, calls[0].layer, calls[0].title, calls[0].content).0, calls[1..]);
    }
  }

  /**
   After any calls on a new builder: the rendered text is exactly the sections joined under their
   titles, it is within the budget, and so are the sections' own estimates together.
   */
  lemma ContextWithinBudget(budget: nat, calls: seq<Call>)
    ensures var s := Run(State(budget, [], [], []), calls);
            && |s.titles| == |s.sections| && s.rendered == Render(s.titles, s.sections)
            && TokenSum(s.sections) <= Estimate(s.rendered) <= budget
  {
    RunKeepsValid(State(budget, [], [], []), calls);
  }

  /** Exactly when `add` returns true: there was nothing to add, or all of it is the last section. */
  lemma AddedWholly(s: State, layer: string, title: String, content: String)
    requires Valid(s)
    ensures var (t, whole) := Added(s, layer, title, content);
            whole <==> Strip(content) == []
                       || (|t.sections| == |s.sections| + 1 && t.sections[|s.sections|].content == Strip(content)
                           && t.rendered == Heading(s.rendered, title) + Strip(content))
  {
    var remaining := s.budget - Estimate(Heading(s.rendered, title));
    if Strip(content) != [] && remaining > 0 {
      SecondCheckNeverFires(s, title, Strip(content));
      LongestSpec(Strip(content), remaining);
      RStripSpec(Strip(content)[..Longest(Strip(content), remaining)]);
    }
  }
}
