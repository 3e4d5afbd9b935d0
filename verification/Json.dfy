/**
 JSON values as the MCP service handles them, JSON.stringify, a reader for what it
 prints, and the canonical form used to compare and hash records.

 apps/mcp/src/retry-queue.ts:35-40 and apps/mcp/src/router.ts:185-190 hold the same
 `canonicalJson`: sort the keys of every object, leave out undefined members, print.
 Here that is `Stringify` of the canonical tree `Canonical`.
 */
module Json {
  import opened Seqs
  import opened Text
  import opened Wrappers

  datatype Value =
    | Undefined
    | Null
    | Bool(b: bool)
    | Num(n: int)
    | Str(s: Text)
    | Arr(items: seq<Value>)
    | Obj(members: seq<Member>)

  datatype Member = Member(key: Text, value: Value)

  const TRUE: Text := [116, 114, 117, 101]
  const FALSE: Text := [102, 97, 108, 115, 101]
  const NULL: Text := [110, 117, 108, 108]

  // Printing strings

  /** The letter JSON uses for a control character with a short escape, or 0. */
  function ShortEscape(u: Unit): Unit {
    if u == 8 then 98
    else if u == 9 then 116
    else if u == 10 then 110
    else if u == 12 then 102
    else if u == 13 then 114
    else if u == QUOTE || u == BACKSLASH then u
    else 0
  }

  function HexDigit(d: nat): (u: Unit)
    requires d < 16
  {
    if d < 10 then ZERO + d else 87 + d
  }

  function HexEscape(a: nat, b: nat, c: nat, d: nat): Text
    requires a < 16 && b < 16 && c < 16 && d < 16
  {
    [BACKSLASH, 117, HexDigit(a), HexDigit(b), HexDigit(c), HexDigit(d)]
  }

  function EscapedUnit(u: Unit): (t: Text)
    ensures t != []
  {
    if ShortEscape(u) != 0 then [BACKSLASH, ShortEscape(u)]
    else if u < 32 || IsHighSurrogate(u) || IsLowSurrogate(u)
    then HexEscape(u / 4096, u / 256 % 16, u / 16 % 16, u % 16)
    else [u]
  }

  predicate StartsWithPair(s: Text) {
    |s| >= 2 && IsHighSurrogate(s[0]) && IsLowSurrogate(s[1])
  }

  /** The body of a printed string: controls, quotes, backslashes and lone surrogates are escaped. */
  function Escaped(s: Text): Text {
    if s == [] then []
    else if StartsWithPair(s) then [s[0]] + ([s[1]] + Escaped(s[2..]))
    else EscapedUnit(s[0]) + Escaped(s[1..])
  }

  function Quoted(s: Text): Text {
    [QUOTE] + Escaped(s) + [QUOTE]
  }

  // Printing values

  function Number(n: int): Text {
    if n < 0 then [MINUS] + Digits(-n) else Digits(n)
  }

  /** JSON.stringify, with the `?? "null"` both callers put after it. */
  function Stringify(v: Value): (t: Text)
    ensures t != []
    decreases v, 1
  {
    match v
    case Undefined => NULL
    case Null => NULL
    case Bool(b) => if b then TRUE else FALSE
    case Num(n) => Number(n)
    case Str(s) => Quoted(s)
    case Arr(items) => [OPEN_BRACKET] + StringifyItems(items) + [CLOSE_BRACKET]
    case Obj(members) => [OPEN_BRACE] + StringifyMembers(members) + [CLOSE_BRACE]
  }

  function StringifyItems(items: seq<Value>): Text
    decreases items, 0
  {
    if items == [] then []
    else if |items| == 1 then Stringify(items[0])
    else Stringify(items[0]) + [COMMA] + StringifyItems(items[1..])
  }

  function StringifyMember(m: Member): Text
    decreases m, 2
  {
    Quoted(m.key) + [COLON] + Stringify(m.value)
  }

  function StringifyMembers(members: seq<Member>): Text
    decreases members, 0
  {
    if members == [] then []
    else if members[0].value == Undefined then StringifyMembers(members[1..])
    else
      var rest := StringifyMembers(members[1..]);
      StringifyMember(members[0]) + (if rest == [] then [] else [COMMA] + rest)
  }

  // Reading back what Stringify prints

  /** Reads a string body up to its closing quote; None when the input is not one. */
  function ReadString(t: Text): (r: Option<(Text, Text)>)
    ensures r.Some? ==> |r.value.1| < |t|
    decreases |t|
  {
    if t == [] then None
    else if t[0] == QUOTE then Some(([], t[1..]))
    else
      match ReadUnit(t)
      case None => None
      case Some((u, rest)) =>
        match ReadString(rest)
        case None => None
        case Some((s, tail)) => Some(([u] + s, tail))
  }

  function ReadUnit(t: Text): (r: Option<(Unit, Text)>)
    requires t != []
    ensures r.Some? ==> |r.value.1| < |t|
  {
    if t[0] != BACKSLASH then Some((t[0], t[1..]))
    else if |t| >= 6 && t[1] == 117 then
      var (a, b, c, d) := (HexValue(t[2]), HexValue(t[3]), HexValue(t[4]), HexValue(t[5]));
      if a < 16 && b < 16 && c < 16 && d < 16 then Some((4096 * a + 256 * b + 16 * c + d, t[6..])) else None
    else if |t| >= 2 then
      match UnescapeLetter(t[1])
      case None => None
      case Some(u) => Some((u, t[2..]))
    else None
  }

  function HexValue(u: Unit): nat {
    if IsDigit(u) then u - ZERO else if 97 <= u < 103 then u - 87 else 16
  }

  function UnescapeLetter(u: Unit): Option<Unit> {
    if u == 98 then Some(8)
    else if u == 116 then Some(9)
    else if u == 110 then Some(10)
    else if u == 102 then Some(12)
    else if u == 114 then Some(13)
    else if u == QUOTE || u == BACKSLASH then Some(u)
    else None
  }

  /** Reads one value from the front of `t`; the rest of `t` is returned with it. */
  function ReadValue(t: Text): (r: Option<(Value, Text)>)
    ensures r.Some? ==> |r.value.1| < |t|
    decreases |t|, 1
  {
    if t == [] then None
    else if t[0] == OPEN_BRACKET then
      if |t| > 1 && t[1] == CLOSE_BRACKET then Some((Arr([]), t[2..]))
      else
        match ReadItems(t[1..])
        case None => None
        case Some((items, rest)) => Some((Arr(items), rest))
    else if t[0] == OPEN_BRACE then
      if |t| > 1 && t[1] == CLOSE_BRACE then Some((Obj([]), t[2..]))
      else
        match ReadMembers(t[1..])
        case None => None
        case Some((members, rest)) => Some((Obj(members), rest))
    else ReadScalar(t)
  }

  function ReadScalar(t: Text): (r: Option<(Value, Text)>)
    requires t != []
    ensures r.Some? ==> |r.value.1| < |t|
  {
    if t[0] == QUOTE then
      match ReadString(t[1..])
      case None => None
      case Some((s, rest)) => Some((Str(s), rest))
    else if t[0] == MINUS || IsDigit(t[0]) then ReadNumber(t)
    else ReadWord(t)
  }

  function ReadWord(t: Text): (r: Option<(Value, Text)>)
    ensures r.Some? ==> |r.value.1| < |t|
  {
    if |t| >= 4 && t[0] == 110 && t[1] == 117 && t[2] == 108 && t[3] == 108 then Some((Null, t[4..]))
    else if |t| >= 4 && t[0] == 116 && t[1] == 114 && t[2] == 117 && t[3] == 101 then Some((Bool(true), t[4..]))
    else if |t| >= 5 && t[0] == 102 && t[1] == 97 && t[2] == 108 && t[3] == 115 && t[4] == 101 then Some((Bool(false), t[5..]))
    else None
  }

  function ReadNumber(t: Text): (r: Option<(Value, Text)>)
    requires t != []
    ensures r.Some? ==> |r.value.1| < |t|
  {
    if IsDigit(t[0]) then
      var (n, rest) := ReadDigits(t[1..], t[0] - ZERO);
      Some((Num(n), rest))
    else if t[0] == MINUS && |t| > 1 && IsDigit(t[1]) then
      var (n, rest) := ReadDigits(t[2..], t[1] - ZERO);
      Some((Num(-(n as int)), rest))
    else None
  }

  /** Reads `value , value ... ]`. */
  function ReadItems(t: Text): (r: Option<(seq<Value>, Text)>)
    ensures r.Some? ==> |r.value.1| < |t|
    decreases |t|, 2
  {
    match ReadValue(t)
    case None => None
    case Some((v, rest)) =>
      if rest != [] && rest[0] == CLOSE_BRACKET then Some(([v], rest[1..]))
      else if rest != [] && rest[0] == COMMA then
        match ReadItems(rest[1..])
        case None => None
        case Some((vs, tail)) => Some(([v] + vs, tail))
      else None
  }

  function ReadMember(t: Text): (r: Option<(Member, Text)>)
    ensures r.Some? ==> |r.value.1| < |t|
    decreases |t|, 2
  {
    if t == [] || t[0] != QUOTE then None
    else
      match ReadString(t[1..])
      case None => None
      case Some((key, rest)) =>
        if rest == [] || rest[0] != COLON then None
        else
          match ReadValue(rest[1..])
          case None => None
          case Some((v, tail)) => Some((Member(key, v), tail))
  }

  /** Reads `"key":value , ... }`. */
  function ReadMembers(t: Text): (r: Option<(seq<Member>, Text)>)
    ensures r.Some? ==> |r.value.1| < |t|
    decreases |t|, 3
  {
    match ReadMember(t)
    case None => None
    case Some((m, rest)) =>
      if rest != [] && rest[0] == CLOSE_BRACE then Some(([m], rest[1..]))
      else if rest != [] && rest[0] == COMMA then
        match ReadMembers(rest[1..])
        case None => None
        case Some((ms, tail)) => Some(([m] + ms, tail))
      else None
  }

  // Sequence facts, stated apart from the functions so that they stay cheap

  lemma Reassociate(a: Text, b: Text, c: Text, d: Text, e: Text)
    ensures a + b + c + d + e == a + (b + (c + d + e))
    ensures a + (b + c) + d + e == a + (b + (c + d + e))
  {
  }

  lemma ReassociateLast(a: Text, d: Text, e: Text)
    ensures a + d + e == a + (d + e)
    ensures a + [] + d + e == a + (d + e)
  {
  }

  lemma Front(u: Unit, a: Text, b: Text, c: Text)
    ensures var t := [u] + a + b + c;
            t[0] == u && t[1..] == a + b + c && (a != [] ==> |t| > 1 && t[1] == a[0])
  {
  }

  lemma FrontDigits(a: Text, rest: Text)
    requires a != []
    ensures (a + rest)[0] == a[0] && a[0] in a
  {
  }

  // Reading inverts printing

  /** No undefined anywhere: what JSON.parse can return. */
  predicate Defined(v: Value)
    decreases v, 1
  {
    match v
    case Undefined => false
    case Arr(items) => forall i | 0 <= i < |items| :: Defined(items[i])
    case Obj(members) => forall i | 0 <= i < |members| :: Defined(members[i].value)
    case _ => true
  }

  /** What may follow a value inside a document: nothing, a comma or a closing bracket. */
  predicate Stops(rest: Text) {
    rest == [] || rest[0] == COMMA || rest[0] == CLOSE_BRACKET || rest[0] == CLOSE_BRACE
  }

  lemma HexRoundTrip(a: nat, b: nat, c: nat, d: nat, rest: Text)
    requires a < 16 && b < 16 && c < 16 && d < 16
    ensures ReadUnit(HexEscape(a, b, c, d) + rest) == Some((4096 * a + 256 * b + 16 * c + d, rest))
  {
    var t := HexEscape(a, b, c, d) + rest;
    assert t[0] == BACKSLASH && t[1] == 117 && t[6..] == rest;
    assert t[2] == HexDigit(a) && t[3] == HexDigit(b) && t[4] == HexDigit(c) && t[5] == HexDigit(d);
  }

  lemma HexSum(u: Unit)
    ensures u == 4096 * (u / 4096) + 256 * (u / 256 % 16) + 16 * (u / 16 % 16) + u % 16
  {
    var (a, b) := (u / 16, u / 256);
    assert a / 16 == b && b / 16 == u / 4096;
    assert u == 16 * a + u % 16 && a == 16 * b + a % 16 && b == 16 * (b / 16) + b % 16;
  }

  lemma UnitRoundTrip(u: Unit, rest: Text)
    ensures (EscapedUnit(u) + rest)[0] != QUOTE
    ensures ReadUnit(EscapedUnit(u) + rest) == Some((u, rest))
  {
    var t := EscapedUnit(u) + rest;
    if ShortEscape(u) != 0 {
      assert t[..2] == [BACKSLASH, ShortEscape(u)] && t[2..] == rest;
      assert ShortEscape(u) != 117;
    } else if u < 32 || IsHighSurrogate(u) || IsLowSurrogate(u) {
      HexRoundTrip(u / 4096, u / 256 % 16, u / 16 % 16, u % 16, rest);
      HexSum(u);
    } else {
      assert t[1..] == rest;
    }
  }

  lemma EscapedUnitRead(u: Unit, tail: Text, s: Text, rest: Text)
    requires ReadString(tail) == Some((s, rest))
    ensures ReadString(EscapedUnit(u) + tail) == Some(([u] + s, rest))
  {
    UnitRoundTrip(u, tail);
  }

  lemma PlainUnitRead(u: Unit, tail: Text, s: Text, rest: Text)
    requires u != QUOTE && u != BACKSLASH && ReadString(tail) == Some((s, rest))
    ensures ReadString([u] + tail) == Some(([u] + s, rest))
  {
    assert ([u] + tail)[1..] == tail;
  }

  lemma PairRead(s: Text, end: Text, rest: Text)
    requires StartsWithPair(s) && ReadString(Escaped(s[2..]) + end) == Some((s[2..], rest))
    ensures ReadString(Escaped(s) + end) == Some((s, rest))
  {
    var tail := Escaped(s[2..]) + end;
    PlainUnitRead(s[1], tail, s[2..], rest);
    PlainUnitRead(s[0], [s[1]] + tail, [s[1]] + s[2..], rest);
    assert Escaped(s) + end == [s[0]] + ([s[1]] + tail);
    assert s == [s[0]] + ([s[1]] + s[2..]);
  }

  lemma SingleRead(s: Text, end: Text, rest: Text)
    requires s != [] && !StartsWithPair(s) && ReadString(Escaped(s[1..]) + end) == Some((s[1..], rest))
    ensures ReadString(Escaped(s) + end) == Some((s, rest))
  {
    EscapedUnitRead(s[0], Escaped(s[1..]) + end, s[1..], rest);
    assert Escaped(s) + end == EscapedUnit(s[0]) + (Escaped(s[1..]) + end);
    assert s == [s[0]] + s[1..];
  }

  lemma {:induction false} StringRoundTrip(s: Text, rest: Text)
    ensures ReadString(Escaped(s) + ([QUOTE] + rest)) == Some((s, rest))
  {
    var end := [QUOTE] + rest;
    if s == [] {
      assert Escaped(s) + end == end;
      assert end[1..] == rest;
    } else if StartsWithPair(s) {
      StringRoundTrip(s[2..], rest);
      PairRead(s, end, rest);
    } else {
      StringRoundTrip(s[1..], rest);
      SingleRead(s, end, rest);
    }
  }

  lemma QuotedRoundTrip(s: Text, rest: Text)
    ensures (Quoted(s) + rest)[0] == QUOTE
    ensures ReadString((Quoted(s) + rest)[1..]) == Some((s, rest))
  {
    assert (Quoted(s) + rest)[1..] == Escaped(s) + ([QUOTE] + rest);
    StringRoundTrip(s, rest);
  }

  lemma ScalarRead(t: Text)
    requires t != [] && t[0] != OPEN_BRACKET && t[0] != OPEN_BRACE
    ensures ReadValue(t) == ReadScalar(t)
  {
  }

  lemma DigitsRoundTrip(n: nat, rest: Text)
    requires Stops(rest)
    ensures IsDigit(Digits(n)[0])
    ensures var d := Digits(n) + rest; ReadDigits(d[1..], d[0] - ZERO) == (n, rest)
  {
    ReadDigitsInvertsDigits(n, rest);
    FrontDigits(Digits(n), rest);
  }

  lemma NumberRoundTrip(n: int, rest: Text)
    requires Stops(rest)
    ensures ReadNumber(Number(n) + rest) == Some((Num(n), rest))
    ensures Number(n)[0] == MINUS || IsDigit(Number(n)[0])
  {
    var m := if n < 0 then -n else n;
    DigitsRoundTrip(m, rest);
    var d := Digits(m) + rest;
    if n < 0 {
      var t := Number(n) + rest;
      assert t == [MINUS] + d;
      assert t[1] == d[0] && t[2..] == d[1..];
    }
  }

  /** Everything but arrays and objects. */
  lemma ScalarRoundTrip(v: Value, rest: Text)
    requires Defined(v) && !v.Arr? && !v.Obj? && Stops(rest)
    ensures ReadScalar(Stringify(v) + rest) == Some((v, rest))
    ensures Stringify(v)[0] != OPEN_BRACKET && Stringify(v)[0] != OPEN_BRACE
  {
    var t := Stringify(v) + rest;
    match v
    case Null => assert t[4..] == rest;
    case Bool(b) => assert t[4 + (if b then 0 else 1)..] == rest;
    case Num(n) => NumberRoundTrip(n, rest);
    case Str(s) => QuotedRoundTrip(s, rest);
  }

  /** No printed value begins with a closing bracket or a comma. */
  lemma StringifyStart(v: Value)
    ensures !Stops(Stringify(v))
    ensures Stringify(v)[0] != CLOSE_BRACKET
  {
    match v
    case Num(n) =>
      var m := if n < 0 then -n else n;
      assert Digits(m)[0] in Digits(m);
    case _ =>
  }

  /** JSON.parse(JSON.stringify(v)) is v, whatever follows it in the document. */
  lemma {:induction false} ValueRoundTrip(v: Value, rest: Text)
    requires Defined(v) && Stops(rest)
    ensures ReadValue(Stringify(v) + rest) == Some((v, rest))
    decreases v, 1
  {
    match v
    case Arr(items) => ArrayRoundTrip(items, rest);
    case Obj(members) => ObjectRoundTrip(members, rest);
    case _ =>
      ScalarRoundTrip(v, rest);
      ScalarRead(Stringify(v) + rest);
  }

  // One step of each list reader

  lemma ArrayRead(t: Text, items: seq<Value>, rest: Text)
    requires |t| > 1 && t[0] == OPEN_BRACKET && t[1] != CLOSE_BRACKET && ReadItems(t[1..]) == Some((items, rest))
    ensures ReadValue(t) == Some((Arr(items), rest))
  {
  }

  lemma ObjectRead(t: Text, members: seq<Member>, rest: Text)
    requires |t| > 1 && t[0] == OPEN_BRACE && t[1] != CLOSE_BRACE && ReadMembers(t[1..]) == Some((members, rest))
    ensures ReadValue(t) == Some((Obj(members), rest))
  {
  }

  lemma LastItemRead(t: Text, v: Value, rest: Text)
    requires ReadValue(t) == Some((v, [CLOSE_BRACKET] + rest))
    ensures ReadItems(t) == Some(([v], rest))
  {
    assert ([CLOSE_BRACKET] + rest)[1..] == rest;
  }

  lemma MoreItemsRead(t: Text, v: Value, tail: Text, items: seq<Value>, rest: Text)
    requires ReadValue(t) == Some((v, [COMMA] + tail)) && ReadItems(tail) == Some((items, rest))
    ensures ReadItems(t) == Some(([v] + items, rest))
  {
    assert ([COMMA] + tail)[1..] == tail;
  }

  lemma MemberRead(t: Text, key: Text, tail: Text, v: Value, rest: Text)
    requires t != [] && t[0] == QUOTE && ReadString(t[1..]) == Some((key, [COLON] + tail))
    requires ReadValue(tail) == Some((v, rest))
    ensures ReadMember(t) == Some((Member(key, v), rest))
  {
    assert ([COLON] + tail)[1..] == tail;
  }

  lemma LastMemberRead(t: Text, m: Member, rest: Text)
    requires ReadMember(t) == Some((m, [CLOSE_BRACE] + rest))
    ensures ReadMembers(t) == Some(([m], rest))
  {
    assert ([CLOSE_BRACE] + rest)[1..] == rest;
  }

  lemma MoreMembersRead(t: Text, m: Member, tail: Text, members: seq<Member>, rest: Text)
    requires ReadMember(t) == Some((m, [COMMA] + tail)) && ReadMembers(tail) == Some((members, rest))
    ensures ReadMembers(t) == Some(([m] + members, rest))
  {
    assert ([COMMA] + tail)[1..] == tail;
  }

  lemma {:induction false} ArrayRoundTrip(items: seq<Value>, rest: Text)
    requires forall i | 0 <= i < |items| :: Defined(items[i])
    ensures ReadValue([OPEN_BRACKET] + StringifyItems(items) + [CLOSE_BRACKET] + rest) == Some((Arr(items), rest))
    decreases items, 1
  {
    var t := [OPEN_BRACKET] + StringifyItems(items) + [CLOSE_BRACKET] + rest;
    if items == [] {
      assert t[0] == OPEN_BRACKET && t[1] == CLOSE_BRACKET && t[2..] == rest;
    } else {
      ItemsRoundTrip(items, rest);
      ItemsStart(items);
      Front(OPEN_BRACKET, StringifyItems(items), [CLOSE_BRACKET], rest);
      ArrayRead(t, items, rest);
    }
  }

  lemma {:induction false} ObjectRoundTrip(members: seq<Member>, rest: Text)
    requires forall i | 0 <= i < |members| :: Defined(members[i].value)
    ensures ReadValue([OPEN_BRACE] + StringifyMembers(members) + [CLOSE_BRACE] + rest) == Some((Obj(members), rest))
    decreases members, 1
  {
    var t := [OPEN_BRACE] + StringifyMembers(members) + [CLOSE_BRACE] + rest;
    if members == [] {
      assert t[0] == OPEN_BRACE && t[1] == CLOSE_BRACE && t[2..] == rest;
    } else {
      MembersRoundTrip(members, rest);
      Front(OPEN_BRACE, StringifyMembers(members), [CLOSE_BRACE], rest);
      ObjectRead(t, members, rest);
    }
  }

  lemma ItemsText(items: seq<Value>, rest: Text)
    requires items != []
    ensures StringifyItems(items) + [CLOSE_BRACKET] + rest
            == Stringify(items[0]) + (if |items| == 1 then [CLOSE_BRACKET] + rest
                                      else [COMMA] + (StringifyItems(items[1..]) + [CLOSE_BRACKET] + rest))
  {
    if |items| == 1 {
      ReassociateLast(Stringify(items[0]), [CLOSE_BRACKET], rest);
    } else {
      Reassociate(Stringify(items[0]), [COMMA], StringifyItems(items[1..]), [CLOSE_BRACKET], rest);
    }
  }

  lemma MembersText(members: seq<Member>, rest: Text)
    requires members != [] && members[0].value != Undefined
    requires |members| > 1 ==> StringifyMembers(members[1..]) != []
    ensures StringifyMembers(members) + [CLOSE_BRACE] + rest
            == StringifyMember(members[0]) + (if |members| == 1 then [CLOSE_BRACE] + rest
                                              else [COMMA] + (StringifyMembers(members[1..]) + [CLOSE_BRACE] + rest))
  {
    if |members| == 1 {
      assert members[1..] == [];
      ReassociateLast(StringifyMember(members[0]), [CLOSE_BRACE], rest);
    } else {
      Reassociate(StringifyMember(members[0]), [COMMA], StringifyMembers(members[1..]), [CLOSE_BRACE], rest);
    }
  }

  lemma ItemsStart(items: seq<Value>)
    requires items != []
    ensures StringifyItems(items) != [] && StringifyItems(items)[0] != CLOSE_BRACKET
  {
    StringifyStart(items[0]);
  }

  lemma MembersStart(members: seq<Member>)
    requires members != [] && members[0].value != Undefined
    ensures StringifyMembers(members) != [] && StringifyMembers(members)[0] == QUOTE
  {
    assert StringifyMember(members[0])[0] == QUOTE;
  }

  lemma {:induction false} LastItemRoundTrip(v: Value, rest: Text)
    requires Defined(v)
    ensures ReadItems(Stringify(v) + ([CLOSE_BRACKET] + rest)) == Some(([v], rest))
    decreases v, 2
  {
    ValueRoundTrip(v, [CLOSE_BRACKET] + rest);
    LastItemRead(Stringify(v) + ([CLOSE_BRACKET] + rest), v, rest);
  }

  lemma {:induction false} MoreItemsRoundTrip(v: Value, tail: Text, items: seq<Value>, rest: Text)
    requires Defined(v) && ReadItems(tail) == Some((items, rest))
    ensures ReadItems(Stringify(v) + ([COMMA] + tail)) == Some(([v] + items, rest))
    decreases v, 2
  {
    ValueRoundTrip(v, [COMMA] + tail);
    MoreItemsRead(Stringify(v) + ([COMMA] + tail), v, tail, items, rest);
  }

  lemma {:induction false} ItemsRoundTrip(items: seq<Value>, rest: Text)
    requires items != []
    requires forall i | 0 <= i < |items| :: Defined(items[i])
    ensures ReadItems(StringifyItems(items) + [CLOSE_BRACKET] + rest) == Some((items, rest))
    decreases items, 0
  {
    ItemsText(items, rest);
    SplitFirst(items);
    if |items| == 1 {
      LastItemRoundTrip(items[0], rest);
    } else {
      ItemsRoundTrip(items[1..], rest);
      MoreItemsRoundTrip(items[0], StringifyItems(items[1..]) + [CLOSE_BRACKET] + rest, items[1..], rest);
    }
  }

  lemma {:induction false} MemberRoundTrip(m: Member, rest: Text)
    requires Defined(m.value) && Stops(rest)
    ensures ReadMember(StringifyMember(m) + rest) == Some((m, rest))
    decreases m, 2
  {
    var t := StringifyMember(m) + rest;
    var tail := Stringify(m.value) + rest;
    assert t == Quoted(m.key) + ([COLON] + tail);
    QuotedRoundTrip(m.key, [COLON] + tail);
    ValueRoundTrip(m.value, rest);
    MemberRead(t, m.key, tail, m.value, rest);
  }

  lemma {:induction false} LastMemberRoundTrip(m: Member, rest: Text)
    requires Defined(m.value)
    ensures ReadMembers(StringifyMember(m) + ([CLOSE_BRACE] + rest)) == Some(([m], rest))
    decreases m, 3
  {
    MemberRoundTrip(m, [CLOSE_BRACE] + rest);
    LastMemberRead(StringifyMember(m) + ([CLOSE_BRACE] + rest), m, rest);
  }

  lemma {:induction false} MoreMembersRoundTrip(m: Member, tail: Text, members: seq<Member>, rest: Text)
    requires Defined(m.value) && ReadMembers(tail) == Some((members, rest))
    ensures ReadMembers(StringifyMember(m) + ([COMMA] + tail)) == Some(([m] + members, rest))
    decreases m, 3
  {
    MemberRoundTrip(m, [COMMA] + tail);
    MoreMembersRead(StringifyMember(m) + ([COMMA] + tail), m, tail, members, rest);
  }

  lemma {:induction false} MembersRoundTrip(members: seq<Member>, rest: Text)
    requires members != []
    requires forall i | 0 <= i < |members| :: Defined(members[i].value)
    ensures StringifyMembers(members) != [] && StringifyMembers(members)[0] == QUOTE
    ensures ReadMembers(StringifyMembers(members) + [CLOSE_BRACE] + rest) == Some((members, rest))
    decreases members, 0
  {
    SplitFirst(members);
    if |members| == 1 {
      MembersStart(members);
      MembersText(members, rest);
      LastMemberRoundTrip(members[0], rest);
    } else {
      MembersRoundTrip(members[1..], rest);
      MembersStart(members);
      MembersText(members, rest);
      MoreMembersRoundTrip(members[0], StringifyMembers(members[1..]) + [CLOSE_BRACE] + rest, members[1..], rest);
    }
  }

  // The canonical form

  predicate DistinctKeys(members: seq<Member>) {
    forall i, j | 0 <= i < j < |members| :: members[i].key != members[j].key
  }

  /** JavaScript objects have distinct keys. */
  predicate WellFormed(v: Value) {
    match v
    case Arr(items) => forall i | 0 <= i < |items| :: WellFormed(items[i])
    case Obj(members) =>
      && DistinctKeys(members)
      && (forall i | 0 <= i < |members| :: WellFormed(members[i].value))
    case _ => true
  }

  /** Keys sorted in every object, undefined members left out, undefined elsewhere read as null. */
  function Canonical(v: Value): Value
    decreases v, 1
  {
    match v
    case Undefined => Null
    case Arr(items) => Arr(CanonicalItems(items))
    case Obj(members) => Obj(CanonicalMembers(members))
    case _ => v
  }

  function CanonicalItems(items: seq<Value>): (r: seq<Value>)
    ensures |r| == |items|
    ensures forall i | 0 <= i < |items| :: r[i] == Canonical(items[i])
    decreases items, 0
  {
    if items == [] then [] else [Canonical(items[0])] + CanonicalItems(items[1..])
  }

  function CanonicalMembers(members: seq<Member>): seq<Member>
    decreases members, 0
  {
    if members == [] then []
    else if members[0].value == Undefined then CanonicalMembers(members[1..])
    else InsertMember(Member(members[0].key, Canonical(members[0].value)), CanonicalMembers(members[1..]))
  }

  function InsertMember(m: Member, sorted: seq<Member>): seq<Member> {
    if sorted == [] || Less(m.key, sorted[0].key) then [m] + sorted
    else [sorted[0]] + InsertMember(m, sorted[1..])
  }

  /** The function both services call. */
  function CanonicalJson(v: Value): Text {
    Stringify(Canonical(v))
  }

  /** Equal up to the order of object members and undefined members; undefined counts as null. */
  ghost predicate Equivalent(v: Value, w: Value)
    decreases v
  {
    match (v, w)
    case (Arr(a), Arr(b)) => |a| == |b| && forall i | 0 <= i < |a| :: Equivalent(a[i], b[i])
    case (Obj(a), Obj(b)) =>
      && (forall i | 0 <= i < |a| && a[i].value != Undefined :: exists j :: 0 <= j < |b| && EquivalentMember(a[i], b[j]))
      && (forall j | 0 <= j < |b| && b[j].value != Undefined :: exists i :: 0 <= i < |a| && EquivalentMember(a[i], b[j]))
    case (Undefined, _) => w == Undefined || w == Null
    case (Null, _) => w == Undefined || w == Null
    case (_, _) => v == w
  }

  /** Both members are defined, under the same key, with equivalent values. */
  ghost predicate EquivalentMember(m: Member, n: Member)
    decreases m
  {
    m.key == n.key && m.value != Undefined && n.value != Undefined && Equivalent(m.value, n.value)
  }

  ghost predicate SortedMembers(members: seq<Member>) {
    forall i, j | 0 <= i < j < |members| :: Less(members[i].key, members[j].key)
  }

  lemma {:induction false} InsertMemberSorted(m: Member, sorted: seq<Member>)
    requires SortedMembers(sorted)
    requires forall x | x in sorted :: x.key != m.key
    ensures SortedMembers(InsertMember(m, sorted))
    ensures forall x :: x in InsertMember(m, sorted) <==> x == m || x in sorted
  {
    if sorted == [] {
    } else if Less(m.key, sorted[0].key) {
      forall i | 0 <= i < |sorted| ensures Less(m.key, sorted[i].key) {
        if i > 0 {
          LessTransitive(m.key, sorted[0].key, sorted[i].key);
        }
      }
    } else {
      assert sorted[0] in sorted;
      LessTrichotomy(m.key, sorted[0].key);
      InsertMemberSorted(m, sorted[1..]);
      var r := InsertMember(m, sorted[1..]);
      forall i | 0 <= i < |r| ensures Less(sorted[0].key, r[i].key) {
        assert r[i] in r;
      }
      assert forall x :: x in sorted <==> x == sorted[0] || x in sorted[1..];
    }
  }

  /** `x` is what member `m` becomes in the canonical object. */
  ghost predicate Image(x: Member, m: Member) {
    m.value != Undefined && x == Member(m.key, Canonical(m.value))
  }

  /** The canonical members are sorted and are exactly the defined members, each made canonical. */
  lemma {:induction false} CanonicalMembersSpec(members: seq<Member>)
    requires DistinctKeys(members)
    ensures SortedMembers(CanonicalMembers(members))
    ensures forall x :: x in CanonicalMembers(members) <==> exists i :: 0 <= i < |members| && Image(x, members[i])
  {
    if members != [] {
      var m := members[0];
      var tail := members[1..];
      CanonicalMembersSpec(tail);
      var rest := CanonicalMembers(tail);
      if m.value != Undefined {
        forall x | x in rest ensures x.key != m.key {
          var i :| 0 <= i < |tail| && Image(x, tail[i]);
          assert members[i + 1].key == tail[i].key;
        }
        InsertMemberSorted(Member(m.key, Canonical(m.value)), rest);
      }
      forall x ensures (exists i :: 0 <= i < |members| && Image(x, members[i])) <==> Image(x, m) || x in rest {
        if x in rest {
          var i :| 0 <= i < |tail| && Image(x, tail[i]);
          assert members[i + 1] == tail[i];
        }
        if i :| 0 <= i < |members| && Image(x, members[i]) && i > 0 {
          assert tail[i - 1] == members[i];
        }
      }
    }
  }

  /** Two strictly sorted member lists with the same elements are the same list. */
  lemma {:induction false} SortedMembersUnique(a: seq<Member>, b: seq<Member>)
    requires SortedMembers(a) && SortedMembers(b)
    requires forall x :: x in a <==> x in b
    ensures a == b
  {
    assert |a| == 0 <==> |b| == 0 by {
      if |a| > 0 {
        assert a[0] in b;
      }
      if |b| > 0 {
        assert b[0] in a;
      }
    }
    if a != [] {
      assert a[0] in b && b[0] in a;
      var i :| 0 <= i < |b| && b[i] == a[0];
      var j :| 0 <= j < |a| && a[j] == b[0];
      LessTrichotomy(a[0].key, b[0].key);
      assert a[0] == b[0];
      forall x ensures x in a[1..] <==> x in b[1..] {
        NotRepeated(a);
        NotRepeated(b);
      }
      SortedMembersUnique(a[1..], b[1..]);
      assert a == [a[0]] + a[1..] && b == [b[0]] + b[1..];
    }
  }

  lemma NotRepeated(a: seq<Member>)
    requires SortedMembers(a) && a != []
    ensures a[0] !in a[1..]
    ensures forall x :: x in a[1..] <==> x in a && x != a[0]
  {
    LessIrreflexive(a[0].key);
    assert forall i | 1 <= i < |a| :: Less(a[0].key, a[i].key);
    assert forall x | x in a && x != a[0] :: x in a[1..] by {
      forall x | x in a && x != a[0] ensures x in a[1..] {
        var i :| 0 <= i < |a| && a[i] == x;
        assert a[1..][i - 1] == x;
      }
    }
  }

  /** Canonical trees are equal exactly when the values are equivalent. */
  lemma {:induction false} CanonicalEqualIffEquivalent(v: Value, w: Value)
    requires WellFormed(v) && WellFormed(w)
    ensures Canonical(v) == Canonical(w) <==> Equivalent(v, w)
    decreases v
  {
    match (v, w) {
      case (Arr(a), Arr(b)) =>
        forall i | 0 <= i < |a| && i < |b| ensures Canonical(a[i]) == Canonical(b[i]) <==> Equivalent(a[i], b[i]) {
          CanonicalEqualIffEquivalent(a[i], b[i]);
        }
        if CanonicalItems(a) == CanonicalItems(b) {
          assert forall i | 0 <= i < |a| :: CanonicalItems(a)[i] == CanonicalItems(b)[i];
        }
      case (Obj(a), Obj(b)) => CanonicalObjects(a, b);
      case _ =>
    }
  }

  lemma {:induction false} CanonicalObjects(a: seq<Member>, b: seq<Member>)
    requires WellFormed(Obj(a)) && WellFormed(Obj(b))
    ensures CanonicalMembers(a) == CanonicalMembers(b) <==> Equivalent(Obj(a), Obj(b))
    decreases a, 0
  {
    forall i, j | 0 <= i < |a| && 0 <= j < |b|
      ensures Canonical(a[i].value) == Canonical(b[j].value) <==> Equivalent(a[i].value, b[j].value)
    {
      CanonicalEqualIffEquivalent(a[i].value, b[j].value);
    }
    if Equivalent(Obj(a), Obj(b)) {
      EquivalentObjects(a, b);
    }
    if CanonicalMembers(a) == CanonicalMembers(b) {
      EqualObjects(a, b);
    }
  }

  lemma EquivalentObjects(a: seq<Member>, b: seq<Member>)
    requires DistinctKeys(a) && DistinctKeys(b)
    requires forall i | 0 <= i < |a| && a[i].value != Undefined :: exists j :: 0 <= j < |b| && EquivalentMember(a[i], b[j])
    requires forall j | 0 <= j < |b| && b[j].value != Undefined :: exists i :: 0 <= i < |a| && EquivalentMember(a[i], b[j])
    requires forall i, j | 0 <= i < |a| && 0 <= j < |b| && EquivalentMember(a[i], b[j]) :: Canonical(a[i].value) == Canonical(b[j].value)
    ensures CanonicalMembers(a) == CanonicalMembers(b)
  {
    CanonicalMembersSpec(a);
    CanonicalMembersSpec(b);
    forall x ensures x in CanonicalMembers(a) <==> x in CanonicalMembers(b) {
      if x in CanonicalMembers(a) {
        var i :| 0 <= i < |a| && Image(x, a[i]);
        var j :| 0 <= j < |b| && EquivalentMember(a[i], b[j]);
        assert Image(x, b[j]);
      }
      if x in CanonicalMembers(b) {
        var j :| 0 <= j < |b| && Image(x, b[j]);
        var i :| 0 <= i < |a| && EquivalentMember(a[i], b[j]);
        assert Image(x, a[i]);
      }
    }
    SortedMembersUnique(CanonicalMembers(a), CanonicalMembers(b));
  }

  lemma EqualObjects(a: seq<Member>, b: seq<Member>)
    requires DistinctKeys(a) && DistinctKeys(b) && CanonicalMembers(a) == CanonicalMembers(b)
    requires forall i, j | 0 <= i < |a| && 0 <= j < |b| && Canonical(a[i].value) == Canonical(b[j].value) :: Equivalent(a[i].value, b[j].value)
    ensures forall i | 0 <= i < |a| && a[i].value != Undefined :: exists j :: 0 <= j < |b| && EquivalentMember(a[i], b[j])
    ensures forall j | 0 <= j < |b| && b[j].value != Undefined :: exists i :: 0 <= i < |a| && EquivalentMember(a[i], b[j])
  {
    forall i | 0 <= i < |a| && a[i].value != Undefined
      ensures exists j :: 0 <= j < |b| && EquivalentMember(a[i], b[j])
    {
      var j := MatchingMember(a, b, i);
      assert EquivalentMember(a[i], b[j]);
    }
    forall j | 0 <= j < |b| && b[j].value != Undefined
      ensures exists i :: 0 <= i < |a| && EquivalentMember(a[i], b[j])
    {
      var i := MatchingMember(b, a, j);
      assert EquivalentMember(a[i], b[j]);
    }
  }

  lemma MatchingMember(a: seq<Member>, b: seq<Member>, i: nat) returns (j: nat)
    requires DistinctKeys(a) && DistinctKeys(b) && CanonicalMembers(a) == CanonicalMembers(b)
    requires i < |a| && a[i].value != Undefined
    ensures j < |b| && b[j].key == a[i].key && b[j].value != Undefined && Canonical(b[j].value) == Canonical(a[i].value)
  {
    CanonicalMembersSpec(a);
    CanonicalMembersSpec(b);
    var x := Member(a[i].key, Canonical(a[i].value));
    assert Image(x, a[i]);
    assert x in CanonicalMembers(a) && x in CanonicalMembers(b);
    j :| 0 <= j < |b| && Image(x, b[j]);
  }

  lemma {:induction false} CanonicalDefined(v: Value)
    ensures Defined(Canonical(v))
    decreases v, 1
  {
    match v
    case Arr(items) =>
      forall i | 0 <= i < |items| ensures Defined(Canonical(items[i])) {
        CanonicalDefined(items[i]);
      }
    case Obj(members) => CanonicalMembersDefined(members);
    case _ =>
  }

  lemma {:induction false} CanonicalMembersDefined(members: seq<Member>)
    ensures forall i | 0 <= i < |CanonicalMembers(members)| :: Defined(CanonicalMembers(members)[i].value)
    decreases members, 0
  {
    if members != [] {
      CanonicalMembersDefined(members[1..]);
      if members[0].value != Undefined {
        CanonicalDefined(members[0].value);
        InsertMemberKeepsDefined(Member(members[0].key, Canonical(members[0].value)), CanonicalMembers(members[1..]));
      }
    }
  }

  lemma {:induction false} InsertMemberKeepsDefined(m: Member, sorted: seq<Member>)
    requires Defined(m.value)
    requires forall i | 0 <= i < |sorted| :: Defined(sorted[i].value)
    ensures forall i | 0 <= i < |InsertMember(m, sorted)| :: Defined(InsertMember(m, sorted)[i].value)
  {
    if sorted != [] && !Less(m.key, sorted[0].key) {
      InsertMemberKeepsDefined(m, sorted[1..]);
    }
  }

  /**
   canonicalJson is canonical and injective: two values print to the same string exactly when
   they are equal up to member order and undefined members.
   */
  lemma CanonicalJsonInjective(v: Value, w: Value)
    requires WellFormed(v) && WellFormed(w)
    ensures CanonicalJson(v) == CanonicalJson(w) <==> Equivalent(v, w)
  {
    CanonicalEqualIffEquivalent(v, w);
    CanonicalDefined(v);
    CanonicalDefined(w);
    ValueRoundTrip(Canonical(v), []);
    ValueRoundTrip(Canonical(w), []);
    assert CanonicalJson(v) + [] == CanonicalJson(v) && CanonicalJson(w) + [] == CanonicalJson(w);
  }
}
