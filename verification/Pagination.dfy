/**
 Keyset pagination of claims and its cursors (apps/core/neuromem_core/queries.py:548-621).

 A claim is its creation time in microseconds and its identifier as a 128-bit number, the order
 the database sorts by. How a time is printed and read (`isoformat`, `fromisoformat`) is an input.
 */
module Pagination {
  import Base64
  import opened Json
  import opened Seqs
  import opened Sorting
  import opened Text
  import Uuid7
  import opened Wrappers

  datatype Key = Key(createdAt: int, id: nat)

  predicate Less(a: Key, b: Key) {
    a.createdAt < b.createdAt || (a.createdAt == b.createdAt && a.id < b.id)
  }

  datatype Clock = Clock(show: int -> Text, read: Text -> Option<int>)

  predicate IsAscii(t: Text) {
    forall i | 0 <= i < |t| :: t[i] < 128
  }

  ghost predicate Inverts(clock: Clock) {
    forall t :: clock.read(clock.show(t)) == Some(t) && IsAscii(clock.show(t))
  }

  // Cursors

  const CREATED_AT := Ascii("created_at")
  const ID := Ascii("id")

  function Payload(k: Key, clock: Clock): Value
    requires k.id < Uuid7.P128
  {
    Obj([Member(CREATED_AT, Str(clock.show(k.createdAt))), Member(ID, Str(Uuid7.UuidText(k.id)))])
  }

  /** payload.encode(); code units past 255 do not occur in it. */
  function Bytes(t: Text): seq<Base64.Byte> {
    seq<Base64.Byte>(|t|, i requires 0 <= i < |t| => t[i] % 256)
  }

  function Units(bytes: seq<Base64.Byte>): Text {
    seq<Unit>(|bytes|, i requires 0 <= i < |bytes| => bytes[i])
  }

  function EncodeCursor(k: Key, clock: Clock): Text
    requires k.id < Uuid7.P128
  {
    Base64.Strip(Base64.Encode(Bytes(Stringify(Payload(k, clock)))))
  }

  function Field(members: seq<Member>, key: Text): Option<Value> {
    if members == [] then None
    else if members[|members| - 1].key == key then Some(members[|members| - 1].value)
    else Field(members[..|members| - 1], key)
  }

  /** uuid.UUID(text): 32 hexadecimal digits, dashes ignored. */
  function ReadUuid(t: Text): Option<nat> {
    var digits := Uuid7.WithoutDashes(t);
    if |digits| == 32 && (forall i | 0 <= i < 32 :: IsDigit(digits[i]) || 97 <= digits[i] <= 102)
    then Some(Uuid7.ReadHex(digits, 0)) else None
  }

  function DecodeCursor(cursor: Text, clock: Clock): Result<Key, string> {
    match Base64.Decode(Base64.AddPad(cursor))
    case None => Err("invalid cursor")
    case Some(bytes) =>
      var v := ReadValue(Units(bytes));
      if v.None? || v.value.1 != [] || !v.value.0.Obj? then Err("invalid cursor") else KeyOf(v.value.0.members, clock)
  }

  function KeyOf(members: seq<Member>, clock: Clock): Result<Key, string> {
    match (Field(members, CREATED_AT), Field(members, ID))
    case (Some(Str(t)), Some(Str(u))) =>
      (match (clock.read(t), ReadUuid(u))
       case (Some(createdAt), Some(id)) => Ok(Key(createdAt, id))
       case _ => Err("invalid cursor"))
    case _ => Err("invalid cursor")
  }

  lemma UnitsOfBytes(t: Text)
    requires IsAscii(t)
    ensures Units(Bytes(t)) == t
  {
  }

  lemma AsciiConcat(a: Text, b: Text)
    requires IsAscii(a) && IsAscii(b)
    ensures IsAscii(a + b)
  {
  }

  lemma {:induction false} EscapedAscii(s: Text)
    requires IsAscii(s)
    ensures IsAscii(Escaped(s))
    decreases |s|
  {
    if s != [] {
      assert s[0] < 128 && !StartsWithPair(s);
      EscapedAscii(s[1..]);
      AsciiConcat(EscapedUnit(s[0]), Escaped(s[1..]));
    }
  }

  lemma QuotedAscii(s: Text)
    requires IsAscii(s)
    ensures IsAscii(Quoted(s))
  {
    EscapedAscii(s);
    AsciiConcat([QUOTE], Escaped(s));
    AsciiConcat([QUOTE] + Escaped(s), [QUOTE]);
  }

  lemma MemberAscii(key: Text, s: Text)
    requires IsAscii(key) && IsAscii(s)
    ensures IsAscii(StringifyMember(Member(key, Str(s))))
  {
    QuotedAscii(key);
    QuotedAscii(s);
    AsciiConcat(Quoted(key), [COLON]);
    AsciiConcat(Quoted(key) + [COLON], Quoted(s));
  }

  lemma ObjectAscii(m: Member, n: Member)
    requires m.value.Str? && n.value.Str? && IsAscii(m.key) && IsAscii(n.key) && IsAscii(m.value.s) && IsAscii(n.value.s)
    ensures IsAscii(Stringify(Obj([m, n])))
  {
    MemberAscii(m.key, m.value.s);
    MemberAscii(n.key, n.value.s);
    var (a, b) := (StringifyMember(m), StringifyMember(n));
    assert [m, n][1..] == [n] && [n][1..] == [];
    assert StringifyMembers([n]) == b;
    assert StringifyMembers([m, n]) == a + ([COMMA] + b);
    AsciiConcat([COMMA], b);
    AsciiConcat(a, [COMMA] + b);
    AsciiConcat([OPEN_BRACE], a + ([COMMA] + b));
    AsciiConcat([OPEN_BRACE] + (a + ([COMMA] + b)), [CLOSE_BRACE]);
  }

  predicate IsHex(u: Unit) {
    IsDigit(u) || 97 <= u <= 102
  }

  lemma {:induction false} FixedIsHex(n: nat, width: nat)
    ensures forall i | 0 <= i < width :: IsHex(Uuid7.Fixed(n, width)[i])
    decreases width
  {
    if width > 0 {
      FixedIsHex(n / 16, width - 1);
    }
  }

  lemma UuidTextSpec(n: nat)
    requires n < Uuid7.P128
    ensures IsAscii(Uuid7.UuidText(n)) && ReadUuid(Uuid7.UuidText(n)) == Some(n)
  {
    var digits := Uuid7.Fixed(n, 32);
    Uuid7.Powers();
    Uuid7.PaddedIsFixed(n, 32);
    FixedIsHex(n, 32);
    GroupedAscii(digits);
    Uuid7.Ungrouped(digits);
    Uuid7.ReadHexFixed(n, 32);
  }

  lemma GroupedAscii(t: Text)
    requires |t| == 32 && IsAscii(t)
    ensures IsAscii(Uuid7.Grouped(t))
  {
  }

  /** Decoding inverts encoding. */
  lemma CursorRoundTrip(k: Key, clock: Clock)
    requires k.id < Uuid7.P128 && Inverts(clock)
    ensures DecodeCursor(EncodeCursor(k, clock), clock) == Ok(k)
  {
    var payload := Payload(k, clock);
    var text := Stringify(payload);
    UuidTextSpec(k.id);
    var (m, n) := (payload.members[0], payload.members[1]);
    assert IsAscii(clock.show(k.createdAt));
    ObjectAscii(m, n);
    UnitsOfBytes(text);
    Base64.PaddingRestored(Bytes(text));
    Base64.DecodeInvertsEncode(Bytes(text));
    ValueRoundTrip(payload, []);
    assert text + [] == text;
    FieldsFound(m, n);
  }

  lemma FieldsFound(m: Member, n: Member)
    requires m.key == CREATED_AT && n.key == ID
    ensures Field([m, n], CREATED_AT) == Some(m.value) && Field([m, n], ID) == Some(n.value)
  {
    assert CREATED_AT[0] != ID[0];
    assert [m, n][..1] == [m];
  }

  lemma EncodedNonEmpty(k: Key, clock: Clock)
    requires k.id < Uuid7.P128 && Inverts(clock)
    ensures EncodeCursor(k, clock) != []
  {
    CursorRoundTrip(k, clock);
    assert Base64.AddPad([]) == [];
    assert Units([]) == [];
  }

  // Pages

  datatype Page = Page(items: seq<Key>, next: Option<Text>)

  predicate Newer(a: Key, b: Key) {
    Less(b, a)
  }

  /** order_by(created_at.desc(), id.desc()) */
  function Sorted(rows: seq<Key>): seq<Key> {
    Sort(Newer, rows)
  }

  function Below(rows: seq<Key>, k: Key): seq<Key> {
    if rows == [] then []
    else if Less(rows[0], k) then [rows[0]] + Below(rows[1..], k)
    else Below(rows[1..], k)
  }

  function Take(s: seq<Key>, n: nat): seq<Key> {
    if n < |s| then s[..n] else s
  }

  /** The rows the cursor leaves; an empty cursor is no cursor. */
  function Rows(table: seq<Key>, cursor: Option<Text>, clock: Clock): Result<seq<Key>, string> {
    if cursor == None || cursor == Some([]) then Ok(table)
    else match DecodeCursor(cursor.value, clock)
      case Err(e) => Err(e)
      case Ok(k) => Ok(Below(table, k))
  }

  predicate IdsFit(rows: seq<Key>) {
    forall i | 0 <= i < |rows| :: rows[i].id < Uuid7.P128
  }

  function PageOf(sorted: seq<Key>, limit: nat, clock: Clock): Page
    requires limit >= 1 && IdsFit(sorted)
  {
    var claims := Take(sorted, limit + 1);
    var page := Take(claims, limit);
    Page(page, if |claims| > limit then Some(EncodeCursor(page[|page| - 1], clock)) else None)
  }

  function ListClaims(table: seq<Key>, limit: nat, cursor: Option<Text>, clock: Clock): Result<Page, string>
    requires limit >= 1 && IdsFit(table)
  {
    match Rows(table, cursor, clock)
    case Err(e) => Err(e)
    case Ok(rows) =>
      RowsFit(table, cursor, clock);
      Ok(PageOf(Sorted(rows), limit, clock))
  }

  // Sorting

  ghost predicate Descending(s: seq<Key>) {
    forall i, j | 0 <= i < j < |s| :: Less(s[j], s[i])
  }

  ghost predicate DistinctIds(rows: seq<Key>) {
    forall i, j | 0 <= i < j < |rows| :: rows[i].id != rows[j].id
  }

  lemma SortedPermutes(rows: seq<Key>)
    ensures multiset(Sorted(rows)) == multiset(rows)
    ensures |Sorted(rows)| == |rows|
  {
    SortPermutes(Newer, rows);
  }

  lemma SortedDescending(rows: seq<Key>)
    requires DistinctIds(rows)
    ensures Descending(Sorted(rows))
  {
    SortOrdered(Newer, rows);
    SortPermutes(Newer, rows);
    PermutedDistinct(rows, Sorted(rows));
  }

  lemma {:induction false} BelowSpec(rows: seq<Key>, k: Key)
    ensures forall x :: x in Below(rows, k) <==> x in rows && Less(x, k)
    ensures IdsFit(rows) ==> IdsFit(Below(rows, k))
    decreases |rows|
  {
    if rows != [] {
      BelowSpec(rows[1..], k);
      assert forall x :: x in rows <==> x == rows[0] || x in rows[1..];
      if IdsFit(rows) {
        assert rows[0].id < Uuid7.P128 && IdsFit(rows[1..]);
      }
    }
  }

  lemma {:induction false} BelowInsert(k: Key, s: seq<Key>, c: Key)
    ensures Below(Insert(Newer, k, s), c) == if Less(k, c) then Insert(Newer, k, Below(s, c)) else Below(s, c)
    decreases |s|
  {
    if s == [] {
    } else if Less(s[0], k) {
      assert ([k] + s)[1..] == s;
      if Less(k, c) {
        assert Below(s, c) == [s[0]] + Below(s[1..], c);
      }
    } else {
      BelowInsert(k, s[1..], c);
      assert ([s[0]] + Insert(Newer, k, s[1..]))[1..] == Insert(Newer, k, s[1..]);
      if Less(s[0], c) {
        assert ([s[0]] + Below(s[1..], c))[1..] == Below(s[1..], c);
      }
    }
  }

  /** The database may filter before it sorts or after. */
  lemma {:induction false} SortedBelow(rows: seq<Key>, c: Key)
    ensures Sorted(Below(rows, c)) == Below(Sorted(rows), c)
    decreases |rows|
  {
    if rows != [] {
      SortedBelow(rows[1..], c);
      BelowInsert(rows[0], Sorted(rows[1..]), c);
      if Less(rows[0], c) {
        assert ([rows[0]] + Below(rows[1..], c))[1..] == Below(rows[1..], c);
      }
    }
  }

  lemma {:induction false} BelowAll(s: seq<Key>, c: Key)
    requires forall i | 0 <= i < |s| :: Less(s[i], c)
    ensures Below(s, c) == s
    decreases |s|
  {
    if s != [] {
      BelowAll(s[1..], c);
    }
  }

  /** In a descending list, what is below an element is what follows it. */
  lemma {:induction false} BelowIsSuffix(s: seq<Key>, i: nat)
    requires Descending(s) && i < |s|
    ensures Below(s, s[i]) == s[i + 1..]
    decreases |s|
  {
    if i == 0 {
      BelowAll(s[1..], s[0]);
    } else {
      BelowIsSuffix(s[1..], i - 1);
      assert s[1..][i..] == s[i + 1..];
    }
  }

  /** A lower bound makes a higher one redundant. */
  lemma {:induction false} BelowBelow(rows: seq<Key>, c: Key, d: Key)
    requires Less(d, c)
    ensures Below(Below(rows, c), d) == Below(rows, d)
    decreases |rows|
  {
    if rows != [] {
      BelowBelow(rows[1..], c, d);
      if Less(rows[0], c) {
        assert ([rows[0]] + Below(rows[1..], c))[1..] == Below(rows[1..], c);
      }
    }
  }

  lemma SameFit(a: seq<Key>, b: seq<Key>)
    requires multiset(a) == multiset(b) && IdsFit(a)
    ensures IdsFit(b)
  {
    forall i | 0 <= i < |b| ensures b[i].id < Uuid7.P128 {
      assert b[i] in multiset(a);
    }
  }

  lemma RowsFit(table: seq<Key>, cursor: Option<Text>, clock: Clock)
    requires IdsFit(table)
    ensures Rows(table, cursor, clock).Ok? ==> IdsFit(Rows(table, cursor, clock).value) && IdsFit(Sorted(Rows(table, cursor, clock).value))
  {
    var rows := Rows(table, cursor, clock);
    if rows.Ok? {
      if rows.value != table {
        BelowSpec(table, DecodeCursor(cursor.value, clock).value);
      }
      SortedPermutes(rows.value);
      SameFit(rows.value, Sorted(rows.value));
    }
  }

  // Following next_cursor

  /** What is still to come after a cursor, in order. */
  function Rest(table: seq<Key>, cursor: Option<Text>, clock: Clock): seq<Key>
    requires Rows(table, cursor, clock).Ok?
  {
    Sorted(Rows(table, cursor, clock).value)
  }

  lemma RestDescending(table: seq<Key>, cursor: Option<Text>, clock: Clock)
    requires DistinctIds(table) && Rows(table, cursor, clock).Ok?
    ensures Descending(Rest(table, cursor, clock))
  {
    SortedDescending(table);
    var rows := Rows(table, cursor, clock).value;
    if rows != table {
      var k := DecodeCursor(cursor.value, clock).value;
      SortedBelow(table, k);
      BelowDescending(Sorted(table), k);
    }
  }

  lemma {:induction false} BelowDescending(s: seq<Key>, k: Key)
    requires Descending(s)
    ensures Descending(Below(s, k))
    decreases |s|
  {
    if s != [] {
      BelowDescending(s[1..], k);
      BelowSpec(s[1..], k);
      var rest := Below(s[1..], k);
      forall j | 0 <= j < |rest| ensures Less(rest[j], s[0]) {
        assert rest[j] in s[1..];
      }
    }
  }

  /** The next page starts exactly where this one stopped. */
  lemma NextRest(table: seq<Key>, limit: nat, cursor: Option<Text>, clock: Clock, page: Page)
    requires limit >= 1 && IdsFit(table) && DistinctIds(table) && Inverts(clock)
    requires ListClaims(table, limit, cursor, clock) == Ok(page) && page.next.Some?
    ensures Rows(table, page.next, clock).Ok?
    ensures |Rest(table, cursor, clock)| > limit && page.items == Rest(table, cursor, clock)[..limit]
    ensures Rest(table, page.next, clock) == Rest(table, cursor, clock)[limit..]
  {
    RowsFit(table, cursor, clock);
    var rows := Rows(table, cursor, clock).value;
    var rest := Rest(table, cursor, clock);
    assert Take(rest, limit + 1)[..limit] == rest[..limit];
    var last := rest[limit - 1];
    assert page.next == Some(EncodeCursor(last, clock));
    CursorRoundTrip(last, clock);
    EncodedNonEmpty(last, clock);
    assert Rows(table, page.next, clock) == Ok(Below(table, last));
    RestDescending(table, cursor, clock);
    if rows != table {
      var k := DecodeCursor(cursor.value, clock).value;
      assert last in multiset(rest);
      SortedPermutes(rows);
      BelowSpec(table, k);
      BelowBelow(table, k, last);
    }
    SortedBelow(rows, last);
    BelowIsSuffix(rest, limit - 1);
  }

  /** All the pages from a cursor on. */
  ghost function Walk(table: seq<Key>, limit: nat, cursor: Option<Text>, clock: Clock): seq<seq<Key>>
    requires limit >= 1 && IdsFit(table) && DistinctIds(table) && Inverts(clock)
    requires Rows(table, cursor, clock).Ok?
    decreases |Rest(table, cursor, clock)|
  {
    var page := ListClaims(table, limit, cursor, clock).value;
    if page.next.None? then [page.items]
    else
      NextRest(table, limit, cursor, clock, page);
      [page.items] + Walk(table, limit, page.next, clock)
  }

  function Flatten(pages: seq<seq<Key>>): seq<Key> {
    if pages == [] then [] else pages[0] + Flatten(pages[1..])
  }

  /** Every page is full but the last. */
  ghost predicate Full(pages: seq<seq<Key>>, limit: nat) {
    pages != [] && |pages[|pages| - 1]| <= limit && forall i | 0 <= i < |pages| - 1 :: |pages[i]| == limit
  }

  lemma FlattenCons(page: seq<Key>, pages: seq<seq<Key>>, limit: nat)
    ensures Flatten([page] + pages) == page + Flatten(pages)
    ensures Full(pages, limit) && |page| == limit ==> Full([page] + pages, limit)
  {
    assert ([page] + pages)[1..] == pages;
  }

  lemma {:induction false} WalkIsRest(table: seq<Key>, limit: nat, cursor: Option<Text>, clock: Clock)
    requires limit >= 1 && IdsFit(table) && DistinctIds(table) && Inverts(clock)
    requires Rows(table, cursor, clock).Ok?
    ensures Flatten(Walk(table, limit, cursor, clock)) == Rest(table, cursor, clock)
    ensures Full(Walk(table, limit, cursor, clock), limit)
    decreases |Rest(table, cursor, clock)|
  {
    var page := ListClaims(table, limit, cursor, clock).value;
    var rest := Rest(table, cursor, clock);
    if page.next.None? {
      RowsFit(table, cursor, clock);
      LastPage(rest, limit, clock, page);
      FlattenCons(page.items, [], limit);
      assert [page.items] + [] == [page.items] && page.items + [] == page.items;
    } else {
      NextRest(table, limit, cursor, clock, page);
      WalkIsRest(table, limit, page.next, clock);
      FlattenCons(page.items, Walk(table, limit, page.next, clock), limit);
      Halves(rest, limit);
    }
  }

  lemma Halves(s: seq<Key>, n: nat)
    requires n <= |s|
    ensures s[..n] + s[n..] == s
  {
  }

  lemma LastPage(sorted: seq<Key>, limit: nat, clock: Clock, page: Page)
    requires limit >= 1 && IdsFit(sorted) && page == PageOf(sorted, limit, clock) && page.next.None?
    ensures page.items == sorted && |sorted| <= limit
  {
  }

  /**
   Following the cursors from the start of a fixed table terminates, gives full pages up to the last,
   and lists every claim exactly once, newest first.
   */
  lemma PagesVisitEveryClaimOnce(table: seq<Key>, limit: nat, clock: Clock)
    requires limit >= 1 && IdsFit(table) && DistinctIds(table) && Inverts(clock)
    ensures Rows(table, None, clock) == Ok(table)
    ensures var pages := Walk(table, limit, None, clock);
            && multiset(Flatten(pages)) == multiset(table) && Descending(Flatten(pages))
            && Full(pages, limit)
  {
    WalkIsRest(table, limit, None, clock);
    SortedPermutes(table);
    SortedDescending(table);
  }
}
