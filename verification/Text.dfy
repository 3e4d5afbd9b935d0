/**
 JavaScript strings as sequences of UTF-16 code units, their UTF-8 size, decimal
 notation, and the order in which JavaScript sorts object keys.
 */
module Text {
  type Unit = u: int | 0 <= u < 0x1_0000

  type Text = seq<Unit>

  const QUOTE: Unit := 34
  const COMMA: Unit := 44
  const MINUS: Unit := 45
  const ZERO: Unit := 48
  const COLON: Unit := 58
  const OPEN_BRACKET: Unit := 91
  const BACKSLASH: Unit := 92
  const CLOSE_BRACKET: Unit := 93
  const OPEN_BRACE: Unit := 123
  const CLOSE_BRACE: Unit := 125

  /** An ASCII literal as code units. */
  function Ascii(s: string): (t: Text)
    requires forall c | c in s :: c < 128 as char
    ensures |t| == |s|
    ensures forall i | 0 <= i < |s| :: t[i] == s[i] as int
  {
    seq<Unit>(|s|, i requires 0 <= i < |s| => assert s[i] in s; s[i] as int as Unit)
  }

  predicate IsHighSurrogate(u: Unit) {
    0xD800 <= u < 0xDC00
  }

  predicate IsLowSurrogate(u: Unit) {
    0xDC00 <= u < 0xE000
  }

  /** UTF-8 bytes for one unit; the two halves of a surrogate pair count two bytes each. */
  function UnitBytes(u: Unit): (n: nat)
    ensures 1 <= n <= 3
  {
    if u < 0x80 then 1
    else if u < 0x800 then 2
    else if IsHighSurrogate(u) || IsLowSurrogate(u) then 2
    else 3
  }

  /** Buffer.byteLength(t, "utf8") for a string without lone surrogates. */
  function Utf8Length(t: Text): nat {
    if t == [] then 0 else UnitBytes(t[0]) + Utf8Length(t[1..])
  }

  lemma {:induction false} Utf8LengthConcat(a: Text, b: Text)
    ensures Utf8Length(a + b) == Utf8Length(a) + Utf8Length(b)
  {
    if a == [] {
      assert a + b == b;
    } else {
      assert (a + b)[1..] == a[1..] + b;
      Utf8LengthConcat(a[1..], b);
    }
  }

  lemma {:induction false} Utf8LengthAscii(t: Text)
    requires forall u | u in t :: u < 0x80
    ensures Utf8Length(t) == |t|
  {
    if t != [] {
      assert t[0] in t && forall u | u in t[1..] :: u in t;
      Utf8LengthAscii(t[1..]);
    }
  }

  // Decimal notation

  predicate IsDigit(u: Unit) {
    ZERO <= u < ZERO + 10
  }

  function Digits(n: nat): (t: Text)
    ensures t != []
    ensures forall u | u in t :: IsDigit(u)
  {
    if n < 10 then [ZERO + n] else Digits(n / 10) + [ZERO + n % 10]
  }

  /** Reads the longest run of digits at the front of `t`, continuing from `value`. */
  function ReadDigits(t: Text, value: nat): (r: (nat, Text))
    ensures |r.1| <= |t|
  {
    if t != [] && IsDigit(t[0]) then ReadDigits(t[1..], 10 * value + (t[0] - ZERO)) else (value, t)
  }

  lemma {:induction false} ReadDigitsInvertsDigits(n: nat, rest: Text)
    ensures ReadDigits(Digits(n) + rest, 0) == ReadDigits(rest, n)
  {
    if n < 10 {
      assert (Digits(n) + rest)[1..] == rest;
    } else {
      var last := [ZERO + n % 10];
      assert Digits(n) + rest == Digits(n / 10) + (last + rest);
      ReadDigitsInvertsDigits(n / 10, last + rest);
      assert (last + rest)[1..] == rest;
    }
  }

  lemma DigitsInjective(m: nat, n: nat)
    requires Digits(m) == Digits(n)
    ensures m == n
  {
    ReadDigitsInvertsDigits(m, []);
    ReadDigitsInvertsDigits(n, []);
  }

  // The order in which Object.keys(...).sort() compares strings

  predicate Less(a: Text, b: Text) {
    b != [] && (a == [] || a[0] < b[0] || (a[0] == b[0] && Less(a[1..], b[1..])))
  }

  lemma {:induction false} LessTrichotomy(a: Text, b: Text)
    ensures Less(a, b) || a == b || Less(b, a)
    ensures !(Less(a, b) && Less(b, a))
    ensures !Less(a, a)
  {
    if a != [] && b != [] && a[0] == b[0] {
      LessTrichotomy(a[1..], b[1..]);
      assert a == [a[0]] + a[1..] && b == [b[0]] + b[1..];
    }
    if a != [] {
      LessIrreflexive(a);
    }
  }

  lemma {:induction false} LessIrreflexive(a: Text)
    ensures !Less(a, a)
  {
    if a != [] {
      LessIrreflexive(a[1..]);
    }
  }

  lemma {:induction false} LessTransitive(a: Text, b: Text, c: Text)
    requires Less(a, b) && Less(b, c)
    ensures Less(a, c)
  {
    if a != [] && a[0] == b[0] && b[0] == c[0] {
      LessTransitive(a[1..], b[1..], c[1..]);
    }
  }
}
