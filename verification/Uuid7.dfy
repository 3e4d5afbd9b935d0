/**
 UUID version 7: the monotonic generator, its packing, and its text form
 (apps/core/neuromem_core/ids.py:14-45; apps/mcp/src/ids.ts:3-39; apps/mcp/src/router.ts:217-220;
 RFC 9562, sections 5.7 and 6.2).

 The two generators are the same function of the clock and the random bits. The packed fields do
 not overlap, so their bitwise or is their sum; a shift right is a division that rounds down.
 */
module Uuid7 {
  import opened Text
  import opened Wrappers

  const P48: int := 0x1_0000_0000_0000
  const P62: int := 0x4000_0000_0000_0000
  const P64: int := 0x1_0000_0000_0000_0000
  const P74: int := 0x400_0000_0000_0000_0000
  const P76: int := 0x1000_0000_0000_0000_0000
  const P80: int := 0x1_0000_0000_0000_0000_0000
  const P128: int := 0x1_0000_0000_0000_0000_0000_0000_0000_0000

  /** `_last_ms` and `_last_random`. */
  datatype State = State(ms: int, random: int)

  const START := State(-1, 0)

  ghost predicate Valid(s: State) {
    -1 <= s.ms && 0 <= s.random < P74
  }

  function Tick(s: State, now: int, bits: int): State {
    if now > s.ms then State(now, bits)
    else
      var random := (s.random + 1) % P74;
      State(if random == 0 then s.ms + 1 else s.ms, random)
  }

  function Pack(s: State): int {
    s.ms % P48 * P80 + 7 * P76 + s.random / P62 % 4096 * P64 + 2 * P62 + s.random % P62
  }

  class Generator {
    var lastMs: int
    var lastRandom: int

    constructor ()
      ensures State(lastMs, lastRandom) == START
    {
      lastMs, lastRandom := -1, 0;
    }

    /** `now` is the clock, `bits` the 74 random bits drawn if the clock has moved on. */
    method Next(now: int, bits: int) returns (value: int)
      requires Valid(State(lastMs, lastRandom)) && 0 <= bits < P74
      modifies this
      ensures State(lastMs, lastRandom) == Tick(old(State(lastMs, lastRandom)), now, bits)
      ensures Valid(State(lastMs, lastRandom)) && value == Pack(State(lastMs, lastRandom))
    {
      var nowMs := now;
      if nowMs > lastMs {
        lastMs := nowMs;
        lastRandom := bits;
      } else {
        nowMs := lastMs;
        lastRandom := (lastRandom + 1) % P74;
        if lastRandom == 0 {
          lastMs := lastMs + 1;
          nowMs := lastMs;
        }
      }
      var randA := lastRandom / P62 % 4096;
      var randB := lastRandom % P62;
      value := nowMs % P48 * P80 + 7 * P76 + randA * P64 + 2 * P62 + randB;
    }
  }

  // Packing

  function Version(value: int): int {
    value / P76 % 16
  }

  function Variant(value: int): int {
    value / P62 % 4
  }

  /** uuid7_timestamp_ms: the version counts only under the RFC variant. */
  function TimestampMs(value: int): Result<int, string> {
    if Variant(value) != 2 || Version(value) != 7 then Err("UUID is not version 7") else Ok(value / P80)
  }

  lemma Parts(random: int)
    requires 0 <= random < P74
    ensures 0 <= random / P62 < 4096 && random / P62 % 4096 == random / P62
    ensures random == random / P62 * P62 + random % P62
  {
  }

  lemma FieldsOf(ms: int, a: int, b: int, value: int)
    requires 0 <= ms < P48 && 0 <= a < 4096 && 0 <= b < P62
    requires value == ms * P80 + 7 * P76 + a * P64 + 2 * P62 + b
    ensures 0 <= value < P128 && value / P80 == ms && value / P76 == ms * 16 + 7
    ensures value / P64 == ms * 0x1_0000 + 7 * 4096 + a && value % P62 == b
    ensures value / P62 == ms * 0x4_0000 + 7 * 16384 + a * 4 + 2
  {
    DivideBy(value, P80, ms, 7 * P76 + a * P64 + 2 * P62 + b);
    DivideBy(value, P76, ms * 16 + 7, a * P64 + 2 * P62 + b);
    DivideBy(value, P64, ms * 0x1_0000 + 7 * 4096 + a, 2 * P62 + b);
    DivideBy(value, P62, ms * 0x4_0000 + 7 * 16384 + a * 4 + 2, b);
  }

  lemma DivideBy(value: int, d: int, q: int, r: int)
    requires d > 0 && value == q * d + r && 0 <= r < d
    ensures value / d == q && value % d == r
  {
    var e := value / d - q;
    assert value == (q + e) * d + value % d;
    assert e * d == r - value % d;
    Multiples(e, d);
  }

  /** A multiple of d other than zero is at least d away from it. */
  lemma Multiples(e: int, d: int)
    requires d > 0
    ensures e >= 1 ==> e * d >= d
    ensures e <= -1 ==> e * d <= -d
  {
    if e >= 1 {
      assert (e - 1) * d >= 0;
    } else if e <= -1 {
      assert (-e - 1) * d >= 0;
    }
  }

  /** Version and variant are right, and every field can be read back. */
  lemma PackFields(s: State)
    requires Valid(s)
    ensures 0 <= Pack(s) < P128 && Version(Pack(s)) == 7 && Variant(Pack(s)) == 2
    ensures TimestampMs(Pack(s)) == Ok(s.ms % P48)
    ensures Pack(s) / P64 % 4096 * P62 + Pack(s) % P62 == s.random
  {
    Parts(s.random);
    FieldsOf(s.ms % P48, s.random / P62, s.random % P62, Pack(s));
  }

  /** The packed value is ordered by timestamp, then by counter. */
  lemma PackOrder(s: State, t: State)
    requires Valid(s) && Valid(t)
    ensures Pack(s) < Pack(t) <==> s.ms % P48 < t.ms % P48 || (s.ms % P48 == t.ms % P48 && s.random < t.random)
    ensures Pack(s) == Pack(t) <==> s.ms % P48 == t.ms % P48 && s.random == t.random
  {
    Parts(s.random);
    Parts(t.random);
  }

  // Runs

  datatype Call = Call(now: int, bits: int)

  ghost predicate ValidCalls(calls: seq<Call>) {
    forall i | 0 <= i < |calls| :: 0 <= calls[i].now && 0 <= calls[i].bits < P74
  }

  function Values(s: State, calls: seq<Call>): seq<int>
    decreases |calls|
  {
    if calls == [] then []
    else var t := Tick(s, calls[0].now, calls[0].bits); [Pack(t)] + Values(t, calls[1..])
  }

  function Final(s: State, calls: seq<Call>): State
    decreases |calls|
  {
    if calls == [] then s else Final(Tick(s, calls[0].now, calls[0].bits), calls[1..])
  }

  /** The generator never falls behind the clock or its own past. */
  lemma {:induction false} FinalIsLatest(s: State, calls: seq<Call>)
    requires Valid(s) && ValidCalls(calls)
    ensures Valid(Final(s, calls)) && s.ms <= Final(s, calls).ms
    ensures forall i | 0 <= i < |calls| :: calls[i].now <= Final(s, calls).ms
    decreases |calls|
  {
    if calls != [] {
      var t := Tick(s, calls[0].now, calls[0].bits);
      FinalIsLatest(t, calls[1..]);
      forall i | 0 <= i < |calls| ensures calls[i].now <= Final(s, calls).ms {
        assert i > 0 ==> calls[i] == calls[1..][i - 1];
      }
    }
  }

  lemma TickIncreases(s: State, now: int, bits: int)
    requires Valid(s) && 0 <= now && 0 <= bits < P74
    ensures Valid(Tick(s, now, bits)) && Tick(s, now, bits).ms >= 0
    ensures 0 <= s.ms && Tick(s, now, bits).ms < P48 ==> Pack(s) < Pack(Tick(s, now, bits))
  {
    var t := Tick(s, now, bits);
    PackOrder(s, t);
  }

  /** Every later value exceeds `s`, and they increase, while the timestamp fits 48 bits. */
  lemma {:induction false} ValuesIncreaseFrom(s: State, calls: seq<Call>)
    requires Valid(s) && ValidCalls(calls) && Final(s, calls).ms < P48
    ensures |Values(s, calls)| == |calls|
    ensures s.ms >= 0 ==> forall i | 0 <= i < |calls| :: Pack(s) < Values(s, calls)[i]
    ensures forall i, j | 0 <= i < j < |calls| :: Values(s, calls)[i] < Values(s, calls)[j]
    decreases |calls|
  {
    if calls != [] {
      var t := Tick(s, calls[0].now, calls[0].bits);
      TickIncreases(s, calls[0].now, calls[0].bits);
      FinalIsLatest(t, calls[1..]);
      ValuesIncreaseFrom(t, calls[1..]);
      var (values, rest) := (Values(s, calls), Values(t, calls[1..]));
      assert values == [Pack(t)] + rest;
      FirstBelow(Pack(t), rest);
    }
  }

  lemma FirstBelow(first: int, rest: seq<int>)
    requires forall i | 0 <= i < |rest| :: first < rest[i]
    requires forall i, j | 0 <= i < j < |rest| :: rest[i] < rest[j]
    ensures forall i | 0 <= i < |rest| + 1 :: first <= ([first] + rest)[i]
    ensures forall i, j | 0 <= i < j < |rest| + 1 :: ([first] + rest)[i] < ([first] + rest)[j]
  {
  }

  /** From the first call of a process on, whatever the clock does. */
  lemma ValuesIncrease(calls: seq<Call>)
    requires ValidCalls(calls) && Final(START, calls).ms < P48
    ensures |Values(START, calls)| == |calls|
    ensures forall i, j | 0 <= i < j < |calls| :: Values(START, calls)[i] < Values(START, calls)[j]
  {
    ValuesIncreaseFrom(START, calls);
  }

  // Text form

  function HexDigit(n: int): (u: Unit)
    requires 0 <= n < 16
    ensures u != DASH
  {
    if n < 10 then ZERO + n else 87 + n
  }

  const DASH: Unit := 45

  /** value.toString(16) */
  function HexText(value: nat): Text {
    if value < 16 then [HexDigit(value)] else HexText(value / 16) + [HexDigit(value % 16)]
  }

  function PadStart(t: Text, width: nat): Text
    decreases width - |t|
  {
    if |t| >= width then t else PadStart([ZERO] + t, width)
  }

  /** The string uuid7 returns. */
  function UuidText(value: nat): Text
    requires value < P128
  {
    var encoded := PadStart(HexText(value), 32);
    Powers();
    PaddedIsFixed(value, 32);
    Grouped(encoded)
  }

  function Grouped(t: Text): Text
    requires |t| == 32
  {
    t[..8] + [DASH] + t[8..12] + [DASH] + t[12..16] + [DASH] + t[16..20] + [DASH] + t[20..]
  }

  function Pow16(n: nat): (p: nat)
    ensures p > 0
  {
    if n == 0 then 1 else 16 * Pow16(n - 1)
  }

  lemma Powers()
    ensures Pow16(12) == P48 && Pow16(20) == P80 && Pow16(32) == P128
  {
    assert Pow16(12) == P48;
    assert Pow16(20) == P80;
    assert Pow16(32) == P128;
  }

  /** The `width` lowest hexadecimal digits. */
  function Fixed(value: nat, width: nat): (t: Text)
    ensures |t| == width
    ensures forall u | u in t :: u != DASH
  {
    if width == 0 then [] else Fixed(value / 16, width - 1) + [HexDigit(value % 16)]
  }

  lemma {:induction false} ZerosInFront(value: nat, width: nat)
    requires 0 < width && value < Pow16(width)
    ensures Fixed(value, width + 1) == [ZERO] + Fixed(value, width)
    decreases width
  {
    if width == 1 {
      assert Pow16(1) == 16;
      assert Fixed(value / 16, 1) == [ZERO];
      assert Fixed(value, 2) == Fixed(value / 16, 1) + [HexDigit(value % 16)];
    } else {
      ZerosInFront(value / 16, width - 1);
    }
  }

  lemma {:induction false} HexTextIsFixed(value: nat)
    ensures |HexText(value)| > 0 && value < Pow16(|HexText(value)|)
    ensures HexText(value) == Fixed(value, |HexText(value)|)
    decreases value
  {
    if value < 16 {
      assert Pow16(1) == 16;
      assert Fixed(value, 1) == Fixed(value / 16, 0) + [HexDigit(value % 16)];
    } else {
      HexTextIsFixed(value / 16);
    }
  }

  lemma {:induction false} HexTextFits(value: nat, width: nat)
    requires 0 < width && value < Pow16(width)
    ensures |HexText(value)| <= width
    decreases width
  {
    if value >= 16 {
      assert Pow16(1) == 16;
      HexTextFits(value / 16, width - 1);
    }
  }

  lemma {:induction false} PadFixed(value: nat, n: nat, width: nat)
    requires 0 < n <= width && value < Pow16(n)
    ensures PadStart(Fixed(value, n), width) == Fixed(value, width)
    decreases width - n
  {
    if n < width {
      ZerosInFront(value, n);
      PadFixed(value, n + 1, width);
    }
  }

  /** Padding the shortest notation gives exactly the lowest digits. */
  lemma PaddedIsFixed(value: nat, width: nat)
    requires 0 < width && value < Pow16(width)
    ensures PadStart(HexText(value), width) == Fixed(value, width)
  {
    HexTextIsFixed(value);
    HexTextFits(value, width);
    PadFixed(value, |HexText(value)|, width);
  }

  // Order

  lemma {:induction false} LessAppend(a: Text, b: Text, u: Unit, v: Unit)
    requires |a| == |b|
    ensures Less(a + [u], b + [v]) <==> Less(a, b) || (a == b && u < v)
    decreases |a|
  {
    if a == [] {
      assert Less([u], [v]) <==> u < v;
    } else {
      assert (a + [u])[1..] == a[1..] + [u] && (b + [v])[1..] == b[1..] + [v];
      assert a == b <==> a[0] == b[0] && a[1..] == b[1..];
      LessAppend(a[1..], b[1..], u, v);
    }
  }

  lemma {:induction false} FixedOrder(m: nat, n: nat, width: nat)
    requires m < Pow16(width) && n < Pow16(width)
    ensures Less(Fixed(m, width), Fixed(n, width)) <==> m < n
    ensures Fixed(m, width) == Fixed(n, width) <==> m == n
    decreases width
  {
    if width > 0 {
      FixedOrder(m / 16, n / 16, width - 1);
      LessAppend(Fixed(m / 16, width - 1), Fixed(n / 16, width - 1), HexDigit(m % 16), HexDigit(n % 16));
      assert Fixed(m, width)[..width - 1] == Fixed(m / 16, width - 1) && Fixed(n, width)[..width - 1] == Fixed(n / 16, width - 1);
    }
  }

  /** The same separator at the same place in both texts does not change their order. */
  lemma {:induction false} LessSeparated(a: Text, b: Text, c: Text, d: Text, u: Unit)
    requires |a| == |b|
    ensures Less(a + [u] + c, b + [u] + d) <==> Less(a + c, b + d)
    decreases |a|
  {
    if a == [] {
      assert a + [u] + c == [u] + c && b + [u] + d == [u] + d;
      assert ([u] + c)[1..] == c && ([u] + d)[1..] == d;
      assert a + c == c && b + d == d;
    } else {
      assert (a + [u] + c)[1..] == a[1..] + [u] + c && (b + [u] + d)[1..] == b[1..] + [u] + d;
      assert (a + c)[1..] == a[1..] + c && (b + d)[1..] == b[1..] + d;
      LessSeparated(a[1..], b[1..], c, d, u);
    }
  }

  lemma GroupedOrder(s: Text, t: Text)
    requires |s| == |t| == 32
    ensures Less(Grouped(s), Grouped(t)) <==> Less(s, t)
  {
    var (a, b) := (s[..8], t[..8]);
    var (c, d) := (a + [DASH] + s[8..12], b + [DASH] + t[8..12]);
    var (e, f) := (c + [DASH] + s[12..16], d + [DASH] + t[12..16]);
    LessSeparated(e + [DASH] + s[16..20], f + [DASH] + t[16..20], s[20..], t[20..], DASH);
    Regroup(e, s, 16, 20);
    Regroup(f, t, 16, 20);
    LessSeparated(e, f, s[16..], t[16..], DASH);
    Regroup(c, s, 12, 16);
    Regroup(d, t, 12, 16);
    LessSeparated(c, d, s[12..], t[12..], DASH);
    Regroup(a, s, 8, 12);
    Regroup(b, t, 8, 12);
    LessSeparated(a, b, s[8..], t[8..], DASH);
    assert s == s[..8] + s[8..] && t == t[..8] + t[8..];
  }

  lemma Regroup(front: Text, t: Text, i: nat, j: nat)
    requires i <= j <= |t|
    ensures front + [DASH] + t[i..j] + t[j..] == front + [DASH] + t[i..]
  {
    assert t[i..] == t[i..j] + t[j..];
  }

  /** Strings sort as the numbers they print. */
  lemma TextOrder(m: nat, n: nat)
    requires m < P128 && n < P128
    ensures Less(UuidText(m), UuidText(n)) <==> m < n
  {
    Powers();
    PaddedIsFixed(m, 32);
    PaddedIsFixed(n, 32);
    FixedOrder(m, n, 32);
    GroupedOrder(Fixed(m, 32), Fixed(n, 32));
  }

  // Reading the timestamp back

  function ReadHex(t: Text, value: nat): nat {
    if t == [] then value
    else
      var d := if IsDigit(t[0]) then t[0] - ZERO else if 97 <= t[0] <= 102 then t[0] - 87 else 0;
      ReadHex(t[1..], 16 * value + d)
  }

  function WithoutDashes(t: Text): Text {
    if t == [] then []
    else if t[0] == DASH then WithoutDashes(t[1..])
    else [t[0]] + WithoutDashes(t[1..])
  }

  /** The milliseconds uuid7OccurredAt turns into a date. */
  function OccurredAt(recordId: Text): nat {
    var digits := WithoutDashes(recordId);
    ReadHex(if |digits| < 12 then digits else digits[..12], 0)
  }

  lemma {:induction false} WithoutDashesConcat(a: Text, b: Text)
    ensures WithoutDashes(a + b) == WithoutDashes(a) + WithoutDashes(b)
    decreases |a|
  {
    if a == [] {
      assert a + b == b;
    } else {
      assert (a + b)[1..] == a[1..] + b;
      WithoutDashesConcat(a[1..], b);
    }
  }

  lemma {:induction false} NoDashes(t: Text)
    requires forall u | u in t :: u != DASH
    ensures WithoutDashes(t) == t
    decreases |t|
  {
    if t != [] {
      assert t[0] in t && forall u | u in t[1..] :: u in t;
      NoDashes(t[1..]);
    }
  }

  lemma DropDash(front: Text, piece: Text)
    requires forall u | u in piece :: u != DASH
    ensures WithoutDashes(front + [DASH] + piece) == WithoutDashes(front) + piece
  {
    WithoutDashesConcat(front + [DASH], piece);
    WithoutDashesConcat(front, [DASH]);
    NoDashes(piece);
  }

  lemma Ungrouped(t: Text)
    requires |t| == 32 && forall u | u in t :: u != DASH
    ensures WithoutDashes(Grouped(t)) == t
  {
    var (a, b, c, d, e) := (t[..8], t[8..12], t[12..16], t[16..20], t[20..]);
    Pieces(t);
    DropDash(a + [DASH] + b + [DASH] + c + [DASH] + d, e);
    DropDash(a + [DASH] + b + [DASH] + c, d);
    DropDash(a + [DASH] + b, c);
    DropDash(a, b);
    NoDashes(a);
  }

  lemma Pieces(t: Text)
    requires |t| == 32
    ensures t == t[..8] + t[8..12] + t[12..16] + t[16..20] + t[20..]
    ensures (forall u | u in t[..8] :: u in t) && (forall u | u in t[8..12] :: u in t) && (forall u | u in t[12..16] :: u in t)
    ensures (forall u | u in t[16..20] :: u in t) && (forall u | u in t[20..] :: u in t)
  {
  }

  lemma {:induction false} FixedSplit(high: nat, low: nat, a: nat, b: nat)
    requires low < Pow16(b)
    ensures high * Pow16(b) + low >= 0
    ensures Fixed(high * Pow16(b) + low, a + b) == Fixed(high, a) + Fixed(low, b)
    decreases b
  {
    if b == 0 {
      assert high * Pow16(0) == high;
    } else {
      var value := high * Pow16(b) + low;
      var part := high * Pow16(b - 1);
      assert high * Pow16(b) == 16 * part;
      assert value / 16 == part + low / 16 && value % 16 == low % 16;
      FixedSplit(high, low / 16, a, b - 1);
      assert a + b - 1 == a + (b - 1);
    }
  }

  lemma {:induction false} ReadHexAppend(t: Text, u: Unit, value: nat)
    ensures ReadHex(t + [u], value) == ReadHex([u], ReadHex(t, value))
    decreases |t|
  {
    if t == [] {
      assert t + [u] == [u];
    } else {
      assert (t + [u])[1..] == t[1..] + [u];
      ReadHexAppend(t[1..], u, 16 * value + (if IsDigit(t[0]) then t[0] - ZERO else if 97 <= t[0] <= 102 then t[0] - 87 else 0));
    }
  }

  lemma {:induction false} ReadHexFixed(value: nat, width: nat)
    requires value < Pow16(width)
    ensures ReadHex(Fixed(value, width), 0) == value
    decreases width
  {
    if width > 0 {
      ReadHexFixed(value / 16, width - 1);
      ReadHexAppend(Fixed(value / 16, width - 1), HexDigit(value % 16), 0);
    }
  }

  /** The timestamp read from the text is the one packed into it, and a date can hold it. */
  lemma OccurredAtInverts(s: State)
    requires Valid(s) && 0 <= s.ms < P48
    ensures 0 <= Pack(s) < P128 && OccurredAt(UuidText(Pack(s))) == s.ms < 8_640_000_000_000_000
  {
    PackFields(s);
    Powers();
    var value := Pack(s);
    var digits := Fixed(value, 32);
    PaddedIsFixed(value, 32);
    Ungrouped(digits);
    var low := value % P80;
    assert value == s.ms * Pow16(20) + low;
    FixedSplit(s.ms, low, 12, 20);
    assert digits[..12] == Fixed(s.ms, 12);
    ReadHexFixed(s.ms, 12);
  }
}
