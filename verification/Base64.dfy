/**
 The URL-safe alphabet of section 5 of RFC 4648, with the padding taken off and put back as cursors
 do (apps/core/neuromem_core/queries.py:548-562).
 */
module Base64 {
  import opened Text
  import opened Wrappers

  type Byte = b: int | 0 <= b < 256

  const PAD: Unit := 61

  function Symbol(n: nat): (u: Unit)
    requires n < 64
    ensures u != PAD
  {
    if n < 26 then 65 + n else if n < 52 then 71 + n else if n < 62 then n - 4 else if n == 62 then 45 else 95
  }

  function SymbolValue(u: Unit): (r: Option<nat>)
    ensures r.Some? ==> r.value < 64
  {
    if 65 <= u <= 90 then Some(u - 65)
    else if 97 <= u <= 122 then Some(u - 71)
    else if 48 <= u <= 57 then Some(u + 4)
    else if u == 45 then Some(62)
    else if u == 95 then Some(63)
    else None
  }

  /** urlsafe_b64encode */
  function Encode(bytes: seq<Byte>): Text {
    if |bytes| == 0 then []
    else if |bytes| == 1 then [Symbol(bytes[0] / 4), Symbol(bytes[0] % 4 * 16), PAD, PAD]
    else if |bytes| == 2 then [Symbol(bytes[0] / 4), Symbol(bytes[0] % 4 * 16 + bytes[1] / 16), Symbol(bytes[1] % 16 * 4), PAD]
    else Quad(bytes[0], bytes[1], bytes[2]) + Encode(bytes[3..])
  }

  function Quad(a: Byte, b: Byte, c: Byte): Text {
    [Symbol(a / 4), Symbol(a % 4 * 16 + b / 16), Symbol(b % 16 * 4 + c / 64), Symbol(c % 64)]
  }

  function Joined(a: nat, b: nat, c: nat, d: nat): seq<Byte>
    requires a < 64 && b < 64 && c < 64 && d < 64
  {
    [a * 4 + b / 16, b % 16 * 16 + c / 4, c % 4 * 64 + d]
  }

  /** urlsafe_b64decode on padded text over the alphabet. */
  function Decode(t: Text): Option<seq<Byte>> {
    if t == [] then Some([])
    else if |t| < 4 || SymbolValue(t[0]).None? || SymbolValue(t[1]).None? then None
    else
      var (a, b) := (SymbolValue(t[0]).value, SymbolValue(t[1]).value);
      if |t| == 4 && t[2] == PAD && t[3] == PAD then Some(Joined(a, b, 0, 0)[..1])
      else if SymbolValue(t[2]).None? then None
      else
        var c := SymbolValue(t[2]).value;
        if |t| == 4 && t[3] == PAD then Some(Joined(a, b, c, 0)[..2])
        else if SymbolValue(t[3]).None? then None
        else
          match Decode(t[4..])
          case None => None
          case Some(rest) => Some(Joined(a, b, c, SymbolValue(t[3]).value) + rest)
  }

  /** rstrip("=") */
  function Strip(t: Text): Text {
    if t != [] && t[|t| - 1] == PAD then Strip(t[..|t| - 1]) else t
  }

  /** cursor + "=" * (-len(cursor) % 4) */
  function AddPad(t: Text): Text {
    t + seq<Unit>(-|t| % 4, _ => PAD)
  }

  lemma SymbolRoundTrip(n: nat)
    requires n < 64
    ensures SymbolValue(Symbol(n)) == Some(n)
  {
  }

  lemma JoinedQuad(a: Byte, b: Byte, c: Byte)
    ensures Joined(a / 4, a % 4 * 16 + b / 16, b % 16 * 4 + c / 64, c % 64) == [a, b, c]
  {
    assert (a % 4 * 16 + b / 16) / 16 == a % 4 && (a % 4 * 16 + b / 16) % 16 == b / 16;
    assert (b % 16 * 4 + c / 64) / 4 == b % 16 && (b % 16 * 4 + c / 64) % 4 == c / 64;
  }

  lemma DecodeOne(a: Byte)
    ensures Decode([Symbol(a / 4), Symbol(a % 4 * 16), PAD, PAD]) == Some([a])
  {
    SymbolRoundTrip(a / 4);
    SymbolRoundTrip(a % 4 * 16);
    JoinedQuad(a, 0, 0);
    assert Joined(a / 4, a % 4 * 16, 0, 0)[..1] == [a];
  }

  lemma DecodeTwo(a: Byte, b: Byte)
    ensures Decode([Symbol(a / 4), Symbol(a % 4 * 16 + b / 16), Symbol(b % 16 * 4), PAD]) == Some([a, b])
  {
    SymbolRoundTrip(a / 4);
    SymbolRoundTrip(a % 4 * 16 + b / 16);
    SymbolRoundTrip(b % 16 * 4);
    JoinedQuad(a, b, 0);
    assert Joined(a / 4, a % 4 * 16 + b / 16, b % 16 * 4, 0)[..2] == [a, b];
  }

  lemma DecodeQuad(a: Byte, b: Byte, c: Byte, t: Text, rest: seq<Byte>)
    requires Decode(t) == Some(rest)
    ensures Decode(Quad(a, b, c) + t) == Some([a, b, c] + rest)
  {
    var all := Quad(a, b, c) + t;
    SymbolRoundTrip(a / 4);
    SymbolRoundTrip(a % 4 * 16 + b / 16);
    SymbolRoundTrip(b % 16 * 4 + c / 64);
    SymbolRoundTrip(c % 64);
    JoinedQuad(a, b, c);
    assert all[4..] == t;
  }

  lemma {:induction false} DecodeInvertsEncode(bytes: seq<Byte>)
    ensures Decode(Encode(bytes)) == Some(bytes)
    decreases |bytes|
  {
    if |bytes| == 1 {
      DecodeOne(bytes[0]);
      assert bytes == [bytes[0]];
    } else if |bytes| == 2 {
      DecodeTwo(bytes[0], bytes[1]);
      assert bytes == [bytes[0], bytes[1]];
    } else if |bytes| >= 3 {
      DecodeInvertsEncode(bytes[3..]);
      DecodeQuad(bytes[0], bytes[1], bytes[2], Encode(bytes[3..]), bytes[3..]);
      assert [bytes[0], bytes[1], bytes[2]] + bytes[3..] == bytes;
    }
  }

  lemma {:induction false} StripAfter(a: Text, t: Text)
    requires a != [] && a[|a| - 1] != PAD
    ensures Strip(a + t) == a + Strip(t)
    decreases |t|
  {
    if t == [] {
      assert a + t == a;
    } else if t[|t| - 1] == PAD {
      assert (a + t)[..|a + t| - 1] == a + t[..|t| - 1];
      StripAfter(a, t[..|t| - 1]);
    }
  }

  lemma AddPadAfter(a: Text, t: Text)
    requires |a| == 4
    ensures AddPad(a + t) == a + AddPad(t)
  {
  }

  /** Padding that was taken off can be put back: nothing in between ends in it. */
  lemma {:induction false} PaddingRestored(bytes: seq<Byte>)
    ensures AddPad(Strip(Encode(bytes))) == Encode(bytes)
    decreases |bytes|
  {
    if |bytes| == 1 {
      var t := [Symbol(bytes[0] / 4), Symbol(bytes[0] % 4 * 16)];
      StripAfter(t, [PAD, PAD]);
      assert Strip([PAD]) == [] by { assert [PAD][..0] == []; }
      assert Strip([PAD, PAD]) == [] by { assert [PAD, PAD][..1] == [PAD]; }
      assert t + [PAD, PAD] == Encode(bytes);
    } else if |bytes| == 2 {
      var t := [Symbol(bytes[0] / 4), Symbol(bytes[0] % 4 * 16 + bytes[1] / 16), Symbol(bytes[1] % 16 * 4)];
      StripAfter(t, [PAD]);
      assert Strip([PAD]) == [] by { assert [PAD][..0] == []; }
      assert t + [PAD] == Encode(bytes);
    } else if |bytes| >= 3 {
      var quad := Quad(bytes[0], bytes[1], bytes[2]);
      StripAfter(quad, Encode(bytes[3..]));
      AddPadAfter(quad, Strip(Encode(bytes[3..])));
      PaddingRestored(bytes[3..]);
    }
  }

  predicate UrlSafe(u: Unit) {
    65 <= u <= 90 || 97 <= u <= 122 || 48 <= u <= 57 || u == 45 || u == 95
  }

  lemma {:induction false} StripOnlyDrops(t: Text)
    ensures |Strip(t)| <= |t| && Strip(t) == t[..|Strip(t)|]
    ensures forall i | |Strip(t)| <= i < |t| :: t[i] == PAD
    ensures Strip(t) != [] ==> Strip(t)[|Strip(t)| - 1] != PAD
    decreases |t|
  {
    if t != [] && t[|t| - 1] == PAD {
      StripOnlyDrops(t[..|t| - 1]);
    }
  }

  lemma {:induction false} EncodeAlphabet(bytes: seq<Byte>)
    ensures forall u | u in Encode(bytes) :: UrlSafe(u) || u == PAD
    decreases |bytes|
  {
    if |bytes| >= 3 {
      EncodeAlphabet(bytes[3..]);
    }
  }

  lemma {:induction false} StrippedNoPad(bytes: seq<Byte>)
    ensures forall u | u in Strip(Encode(bytes)) :: u != PAD
    decreases |bytes|
  {
    if |bytes| >= 3 {
      StripAfter(Quad(bytes[0], bytes[1], bytes[2]), Encode(bytes[3..]));
      StrippedNoPad(bytes[3..]);
    } else {
      StripOnlyDrops(Encode(bytes));
    }
  }

  /** Stripped text needs no escaping in a URL. */
  lemma StrippedIsUrlSafe(bytes: seq<Byte>)
    ensures forall u | u in Strip(Encode(bytes)) :: UrlSafe(u)
  {
    StrippedNoPad(bytes);
    StripOnlyDrops(Encode(bytes));
    EncodeAlphabet(bytes);
    forall u | u in Strip(Encode(bytes)) ensures u in Encode(bytes) {
    }
  }
}
