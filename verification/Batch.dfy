/**
 Bounded replies to a JSON-RPC batch (apps/mcp/src/http.ts:157-160, 183-202).
 */
module Batch {
  import opened Json
  import opened Seqs
  import opened Text

  const LIMIT: int := 1_048_576
  const RESERVE: int := 2_048
  const ID_LIMIT: int := 1_024

  const ID := Ascii("id")

  function Bytes(v: Value): nat {
    Utf8Length(Stringify(v))
  }

  function Get(members: seq<Member>, key: Text): Value {
    if members == [] then Undefined
    else if members[0].key == key then members[0].value
    else Get(members[1..], key)
  }

  /** reply.id ?? null */
  function IdOf(reply: Value): (id: Value)
    ensures id != Undefined
  {
    var id := if reply.Obj? then Get(reply.members, ID) else Undefined;
    if id == Undefined then Null else id
  }

  function SafeId(reply: Value): (id: Value)
    ensures id != Undefined && Bytes(id) <= ID_LIMIT
  {
    assert Stringify(Null) == NULL;
    Utf8LengthAscii(NULL);
    if Bytes(IdOf(reply)) <= ID_LIMIT then IdOf(reply) else Null
  }

  const ERROR := Obj([Member(Ascii("code"), Num(-32001)), Member(Ascii("message"), Str(Ascii("Response omitted by batch size limit")))])

  function Replacement(reply: Value): Value {
    Obj([Member(Ascii("jsonrpc"), Str(Ascii("2.0"))), Member(ID, SafeId(reply)), Member(Ascii("error"), ERROR)])
  }

  // Sizes

  lemma Utf8LengthUnits(a: Unit, t: Text, b: Unit)
    requires a < 0x80 && b < 0x80
    ensures Utf8Length([a] + t + [b]) == Utf8Length(t) + 2
  {
    Utf8LengthConcat([a] + t, [b]);
    Utf8LengthConcat([a], t);
    Utf8LengthAscii([a]);
    Utf8LengthAscii([b]);
  }

  lemma Utf8LengthInfix(a: Text, u: Unit, b: Text)
    requires u < 0x80
    ensures Utf8Length(a + [u] + b) == Utf8Length(a) + 1 + Utf8Length(b)
  {
    Utf8LengthConcat(a + [u], b);
    Utf8LengthConcat(a, [u]);
    Utf8LengthAscii([u]);
  }

  /** One more item adds its own bytes and a comma. */
  lemma {:induction false} ItemsSize(items: seq<Value>, v: Value)
    ensures Utf8Length(StringifyItems(items + [v]))
            == Utf8Length(StringifyItems(items)) + (if items == [] then 0 else 1) + Bytes(v)
    decreases |items|
  {
    if items == [] {
      assert items + [v] == [v];
    } else {
      assert (items + [v])[1..] == items[1..] + [v] && (items + [v])[0] == items[0];
      ItemsSize(items[1..], v);
      Utf8LengthInfix(Stringify(items[0]), COMMA, StringifyItems(items[1..] + [v]));
      if |items| > 1 {
        Utf8LengthInfix(Stringify(items[0]), COMMA, StringifyItems(items[1..]));
      }
    }
  }

  lemma ArraySize(items: seq<Value>, v: Value)
    ensures Bytes(Arr(items + [v])) == Bytes(Arr(items)) + (if items == [] then 0 else 1) + Bytes(v)
  {
    ItemsSize(items, v);
    Utf8LengthUnits(OPEN_BRACKET, StringifyItems(items), CLOSE_BRACKET);
    Utf8LengthUnits(OPEN_BRACKET, StringifyItems(items + [v]), CLOSE_BRACKET);
  }

  /** Characters printed as they are. */
  predicate Plain(s: Text) {
    forall i | 0 <= i < |s| :: 32 <= s[i] < 128 && s[i] != QUOTE && s[i] != BACKSLASH
  }

  lemma {:induction false} EscapedPlain(s: Text)
    requires Plain(s)
    ensures Escaped(s) == s
    decreases |s|
  {
    if s != [] {
      assert 32 <= s[0] < 128;
      EscapedPlain(s[1..]);
    }
  }

  lemma QuotedSize(s: Text)
    requires Plain(s)
    ensures Utf8Length(Quoted(s)) == |s| + 2
  {
    EscapedPlain(s);
    Utf8LengthUnits(QUOTE, s, QUOTE);
    Utf8LengthAscii(s);
  }

  lemma MemberSize(m: Member)
    requires Plain(m.key)
    ensures Utf8Length(StringifyMember(m)) == |m.key| + 3 + Bytes(m.value)
  {
    QuotedSize(m.key);
    Utf8LengthInfix(Quoted(m.key), COLON, Stringify(m.value));
  }

  lemma MembersSize(m: Member, rest: seq<Member>)
    requires m.value != Undefined && Plain(m.key)
    ensures Utf8Length(StringifyMembers([m] + rest))
            <= |m.key| + 4 + Bytes(m.value) + Utf8Length(StringifyMembers(rest))
  {
    MemberSize(m);
    assert ([m] + rest)[1..] == rest;
    var tail := StringifyMembers(rest);
    if tail != [] {
      Utf8LengthConcat(StringifyMember(m), [COMMA] + tail);
      Utf8LengthConcat([COMMA], tail);
      Utf8LengthAscii([COMMA]);
    } else {
      assert StringifyMember(m) + [] == StringifyMember(m);
    }
  }

  lemma Object2Size(a: Member, b: Member)
    requires a.value != Undefined && b.value != Undefined && Plain(a.key) && Plain(b.key)
    ensures Bytes(Obj([a, b])) <= |a.key| + |b.key| + 10 + Bytes(a.value) + Bytes(b.value)
  {
    MembersSize(b, []);
    MembersSize(a, [b]);
    assert [b] + [] == [b] && [a] + [b] == [a, b];
    Utf8LengthUnits(OPEN_BRACE, StringifyMembers([a, b]), CLOSE_BRACE);
  }

  lemma Object3Size(a: Member, b: Member, c: Member)
    requires a.value != Undefined && b.value != Undefined && c.value != Undefined && Plain(a.key) && Plain(b.key) && Plain(c.key)
    ensures Bytes(Obj([a, b, c])) <= |a.key| + |b.key| + |c.key| + 14 + Bytes(a.value) + Bytes(b.value) + Bytes(c.value)
  {
    MembersSize(c, []);
    MembersSize(b, [c]);
    MembersSize(a, [b, c]);
    assert [c] + [] == [c] && [b] + [c] == [b, c] && [a] + [b, c] == [a, b, c];
    Utf8LengthUnits(OPEN_BRACE, StringifyMembers([a, b, c]), CLOSE_BRACE);
  }

  lemma PlainAscii(s: string)
    requires forall i | 0 <= i < |s| :: 32 as char <= s[i] < 128 as char && s[i] != '"' && s[i] != '\\'
    ensures (forall c | c in s :: c < 128 as char) && Plain(Ascii(s)) && |Ascii(s)| == |s|
  {
  }

  lemma ErrorSize()
    ensures Bytes(ERROR) <= 100
  {
    PlainAscii("code");
    PlainAscii("message");
    PlainAscii("Response omitted by batch size limit");
    QuotedSize(Ascii("Response omitted by batch size limit"));
    CodeSize();
    Object2Size(Member(Ascii("code"), Num(-32001)), Member(Ascii("message"), Str(Ascii("Response omitted by batch size limit"))));
  }

  lemma CodeSize()
    ensures Bytes(Num(-32001)) == 6
  {
    assert |Digits(32001)| == 5;
    Utf8LengthConcat([MINUS], Digits(32001));
    Utf8LengthAscii([MINUS]);
    Utf8LengthAscii(Digits(32001));
  }

  /** A replacement and its comma always fit in the reserve. */
  lemma ReplacementSize(reply: Value)
    ensures Bytes(Replacement(reply)) + 1 <= RESERVE
  {
    PlainAscii("jsonrpc");
    PlainAscii("2.0");
    PlainAscii("id");
    PlainAscii("error");
    QuotedSize(Ascii("2.0"));
    ErrorSize();
    Object3Size(Member(Ascii("jsonrpc"), Str(Ascii("2.0"))), Member(ID, SafeId(reply)), Member(Ascii("error"), ERROR));
  }

  // The loop

  /** Each reply is the original or its replacement. */
  ghost predicate Answers(bounded: seq<Value>, replies: seq<Value>) {
    |bounded| == |replies| && forall i | 0 <= i < |replies| :: bounded[i] == replies[i] || bounded[i] == Replacement(replies[i])
  }

  /**
   Bounds the replies. A batch has at most 32 requests; the reserve would last for 511. A batch that
   fits with the reserve to spare is returned as it is.
   */
  method BoundBatchReplies(replies: seq<Value>) returns (bounded: seq<Value>)
    ensures Answers(bounded, replies)
    ensures |replies| <= 511 ==> Bytes(Arr(bounded)) <= LIMIT
    ensures replies != [] && Bytes(Arr(replies)) <= LIMIT - (|replies| - 1) * RESERVE ==> bounded == replies
  {
    bounded := [];
    var index := 0;
    EmptySize();
    while index < |replies|
      invariant 0 <= index <= |replies|
      invariant Answers(bounded, replies[..index])
      invariant |replies| <= 511 ==> Bytes(Arr(bounded)) <= LIMIT - (|replies| - index) * RESERVE
      invariant Bytes(Arr(replies)) <= LIMIT - (|replies| - 1) * RESERVE ==> bounded == replies[..index]
    {
      var reply := replies[index];
      var reserveBytes := (|replies| - index - 1) * RESERVE;
      var candidate := bounded + [reply];
      PrefixGrows(replies, index);
      PrefixSize(replies, index + 1);
      assert forall i | 0 <= i <= index :: replies[..index + 1][i] == replies[i];
      if Bytes(Arr(candidate)) <= LIMIT - reserveBytes {
        bounded := bounded + [reply];
      } else {
        ReplacedSize(bounded, reply);
        bounded := bounded + [Replacement(reply)];
      }
      index := index + 1;
    }
    WholePrefix(replies);
  }

  lemma ReplacedSize(bounded: seq<Value>, reply: Value)
    ensures Bytes(Arr(bounded + [Replacement(reply)])) <= Bytes(Arr(bounded)) + RESERVE
  {
    ReplacementSize(reply);
    ArraySize(bounded, Replacement(reply));
  }

  lemma EmptySize()
    ensures Bytes(Arr([])) == 2
  {
    Utf8LengthUnits(OPEN_BRACKET, [], CLOSE_BRACKET);
  }

  lemma {:induction false} PrefixSize(s: seq<Value>, i: nat)
    requires i <= |s|
    ensures Bytes(Arr(s[..i])) <= Bytes(Arr(s))
    decreases |s| - i
  {
    if i < |s| {
      PrefixGrows(s, i);
      ArraySize(s[..i], s[i]);
      PrefixSize(s, i + 1);
    } else {
      assert s[..i] == s;
    }
  }
}
