/**
 The runtime environment file of a Node and the volume names written into it
 (apps/manager/src/node-manager.ts:1729-1731, 1811-1817, 1838-1842; apps/manager/src/compose.ts:219-226).

 The file is a sequence of lines without their terminators.
 */
module RuntimeEnv {
  import opened Text
  import opened Wrappers

  type Env = seq<Text>

  const VOLUME_KEY: Text := Ascii("DB_VOLUME_NAME")
  const EQUALS: Unit := 61
  const HASH: Unit := 35
  const DASH: Unit := 45

  /** SHA-256 as an injective function of the file. */
  datatype Digest = Digest(preimage: Env)

  /** The characters a value may have to be written without quotes. */
  predicate IsPlain(u: Unit) {
    IsDigit(u) || 65 <= u <= 90 || 97 <= u <= 122 || u in {95, 46, 47, 58, 64, 45}
  }

  function Backslashed(value: Text): Text {
    if value == [] then []
    else (if value[0] == BACKSLASH || value[0] == QUOTE then [BACKSLASH, value[0]] else [value[0]]) + Backslashed(value[1..])
  }

  predicate AllPlain(value: Text) {
    forall i | 0 <= i < |value| :: IsPlain(value[i])
  }

  function EscapeEnv(value: Text): Text {
    if value != [] && AllPlain(value) then value else [QUOTE] + Backslashed(value) + [QUOTE]
  }

  function Line(key: Text, value: Text): Text {
    key + [EQUALS] + EscapeEnv(value)
  }

  predicate IsLineOf(line: Text, key: Text) {
    |line| > |key| && line[..|key|] == key && line[|key|] == EQUALS
  }

  /** The first line of the key, as `^key=.*$` finds it. */
  function FindLine(env: Env, key: Text): (r: Option<nat>)
    ensures r.Some? ==> r.value < |env| && IsLineOf(env[r.value], key) && forall i | 0 <= i < r.value :: !IsLineOf(env[i], key)
    ensures r.None? ==> forall i | 0 <= i < |env| :: !IsLineOf(env[i], key)
  {
    if env == [] then None
    else if IsLineOf(env[0], key) then Some(0)
    else match FindLine(env[1..], key)
      case None => None
      case Some(i) => Some(i + 1)
  }

  function ReplaceEnv(env: Env, key: Text, value: Text): Option<Env> {
    match FindLine(env, key)
    case None => None
    case Some(i) => Some(env[i := Line(key, value)])
  }

  /** One leading and one trailing quote are taken off. */
  function Unquoted(value: Text): Text {
    var v := if value != [] && value[0] == QUOTE then value[1..] else value;
    if v != [] && v[|v| - 1] == QUOTE then v[..|v| - 1] else v
  }

  /** readNodeEnv: comments are skipped and the last line of a key wins. */
  function ReadEnv(env: Env, key: Text): Option<Text> {
    if env == [] then None
    else
      var last := env[|env| - 1];
      if IsLineOf(last, key) && last[0] != HASH then Some(Unquoted(last[|key| + 1..]))
      else ReadEnv(env[..|env| - 1], key)
  }

  // Volume names

  function RuntimeKey(nodeId: Text): Text {
    if nodeId == [] then []
    else if nodeId[0] == DASH then RuntimeKey(nodeId[1..])
    else [if 65 <= nodeId[0] <= 90 then nodeId[0] + 32 else nodeId[0]] + RuntimeKey(nodeId[1..])
  }

  function VolumeName(nodeId: Text, generation: nat): Text {
    Ascii("neuromem-") + RuntimeKey(nodeId) + Ascii("-pg-g") + Digits(generation)
  }

  /** A node id is a UUID: hexadecimal digits and dashes. */
  predicate IsNodeId(nodeId: Text) {
    forall i | 0 <= i < |nodeId| :: nodeId[i] == DASH || IsDigit(nodeId[i]) || 65 <= nodeId[i] <= 70 || 97 <= nodeId[i] <= 102
  }

  /** Generations never share a volume. */
  lemma VolumeNameInjective(nodeId: Text, g: nat, h: nat)
    ensures VolumeName(nodeId, g) == VolumeName(nodeId, h) <==> g == h
  {
    if VolumeName(nodeId, g) == VolumeName(nodeId, h) {
      var prefix := Ascii("neuromem-") + RuntimeKey(nodeId) + Ascii("-pg-g");
      CancelPrefix(prefix, Digits(g), Digits(h));
      DigitsInjective(g, h);
    }
  }

  lemma CancelPrefix(p: Text, a: Text, b: Text)
    requires p + a == p + b
    ensures a == b
  {
    assert (p + a)[|p|..] == a && (p + b)[|p|..] == b;
  }

  lemma {:induction false} RuntimeKeyPlain(nodeId: Text)
    requires IsNodeId(nodeId)
    ensures AllPlain(RuntimeKey(nodeId))
  {
    if nodeId != [] {
      RuntimeKeyPlain(nodeId[1..]);
    }
  }

  lemma AllPlainConcat(a: Text, b: Text)
    requires AllPlain(a) && AllPlain(b)
    ensures AllPlain(a + b)
  {
  }

  lemma VolumeNamePlain(nodeId: Text, generation: nat)
    requires IsNodeId(nodeId)
    ensures VolumeName(nodeId, generation) != [] && AllPlain(VolumeName(nodeId, generation))
  {
    RuntimeKeyPlain(nodeId);
    var (a, b, c, d) := (Ascii("neuromem-"), RuntimeKey(nodeId), Ascii("-pg-g"), Digits(generation));
    assert AllPlain(a) && AllPlain(c);
    assert AllPlain(d) by {
      forall i | 0 <= i < |d| ensures IsPlain(d[i]) {
        assert d[i] in d;
      }
    }
    AllPlainConcat(a, b);
    AllPlainConcat(a + b, c);
    AllPlainConcat(a + b + c, d);
  }

  // The volume line

  /** The file has one volume line, and it names exactly this volume. */
  ghost predicate NamesVolume(env: Env, volume: Text) {
    && ReplaceEnv(env, VOLUME_KEY, volume) == Some(env)
    && forall i, j | 0 <= i < j < |env| && IsLineOf(env[i], VOLUME_KEY) :: !IsLineOf(env[j], VOLUME_KEY)
  }

  lemma LineIsLine(key: Text, value: Text)
    ensures IsLineOf(Line(key, value), key)
    ensures Line(key, value)[|key| + 1..] == EscapeEnv(value)
  {
  }

  lemma ReplaceFinds(env: Env, key: Text, value: Text)
    requires ReplaceEnv(env, key, value).Some?
    ensures FindLine(ReplaceEnv(env, key, value).value, key) == FindLine(env, key)
  {
    LineIsLine(key, value);
    var i := FindLine(env, key).value;
    var after := env[i := Line(key, value)];
    var k := FindLine(after, key);
    assert IsLineOf(after[i], key);
    assert k.Some?;
    assert forall j | 0 <= j < i :: after[j] == env[j];
  }

  /** Switching the volume and switching back restores the file byte for byte. */
  lemma SwitchBack(env: Env, from: Text, to: Text)
    requires NamesVolume(env, from)
    ensures ReplaceEnv(env, VOLUME_KEY, to).Some?
    ensures var switched := ReplaceEnv(env, VOLUME_KEY, to).value;
            NamesVolume(switched, to) && ReplaceEnv(switched, VOLUME_KEY, from) == Some(env)
  {
    var switched := ReplaceEnv(env, VOLUME_KEY, to).value;
    var i := FindLine(env, VOLUME_KEY).value;
    ReplaceFinds(env, VOLUME_KEY, to);
    LineIsLine(VOLUME_KEY, to);
    assert env[i] == Line(VOLUME_KEY, from) by {
      assert env[i := Line(VOLUME_KEY, from)][i] == env[i];
    }
    assert switched[i := Line(VOLUME_KEY, from)] == env;
    assert switched[i := Line(VOLUME_KEY, to)] == switched;
  }

  /** The exact condition for the journalled hash to match after a switch: the line was canonical. */
  lemma SwitchBackCondition(env: Env, from: Text, to: Text)
    requires FindLine(env, VOLUME_KEY).Some?
    ensures ReplaceEnv(ReplaceEnv(env, VOLUME_KEY, to).value, VOLUME_KEY, from) == Some(env)
            <==> env[FindLine(env, VOLUME_KEY).value] == Line(VOLUME_KEY, from)
  {
    var i := FindLine(env, VOLUME_KEY).value;
    ReplaceFinds(env, VOLUME_KEY, to);
    var back := ReplaceEnv(env, VOLUME_KEY, to).value[i := Line(VOLUME_KEY, from)];
    assert back[i] == Line(VOLUME_KEY, from);
    if env[i] == Line(VOLUME_KEY, from) {
      assert back == env;
    }
  }

  /** The same line with its value in quotes, as an operator may write it. */
  function QuotedLine(volume: Text): Text {
    VOLUME_KEY + [EQUALS] + [QUOTE] + volume + [QUOTE]
  }

  /**
   A file whose volume is written in quotes is read like any other, but switching it forth and back
   does not restore it, so the journalled hash no longer matches.
   */
  lemma QuotedLineIsNotRestored(nodeId: Text, generation: nat, to: Text)
    requires IsNodeId(nodeId)
    ensures var volume := VolumeName(nodeId, generation);
            var env := [QuotedLine(volume)];
            && ReadEnv(env, VOLUME_KEY) == Some(volume)
            && ReplaceEnv(env, VOLUME_KEY, to).Some?
            && ReplaceEnv(ReplaceEnv(env, VOLUME_KEY, to).value, VOLUME_KEY, volume).Some?
            && Digest(ReplaceEnv(ReplaceEnv(env, VOLUME_KEY, to).value, VOLUME_KEY, volume).value) != Digest(env)
  {
    var volume := VolumeName(nodeId, generation);
    var line := QuotedLine(volume);
    var env := [line];
    VolumeNamePlain(nodeId, generation);
    assert line[|VOLUME_KEY| + 1..] == [QUOTE] + volume + [QUOTE];
    assert line[..|VOLUME_KEY|] == VOLUME_KEY;
    assert ([QUOTE] + volume + [QUOTE])[1..] == volume + [QUOTE];
    assert (volume + [QUOTE])[..|volume|] == volume;
    assert VOLUME_KEY[0] == 68;
    OnlyLineIsRead(env, VOLUME_KEY, 0);
    assert |line| == |Line(VOLUME_KEY, volume)| + 2;
    ReplaceFinds(env, VOLUME_KEY, to);
    SwitchBackCondition(env, volume, to);
  }

  /** readNodeEnv returns the volume the file names. */
  lemma NamedVolumeIsRead(env: Env, volume: Text)
    requires NamesVolume(env, volume) && volume != [] && AllPlain(volume)
    ensures ReadEnv(env, VOLUME_KEY) == Some(volume)
  {
    var i := FindLine(env, VOLUME_KEY).value;
    LineIsLine(VOLUME_KEY, volume);
    assert env[i] == Line(VOLUME_KEY, volume) by {
      assert env[i := Line(VOLUME_KEY, volume)][i] == env[i];
    }
    assert Unquoted(volume) == volume by {
      assert IsPlain(volume[0]) && IsPlain(volume[|volume| - 1]);
    }
    assert VOLUME_KEY[0] == 68;
    OnlyLineIsRead(env, VOLUME_KEY, i);
  }

  lemma {:induction false} OnlyLineIsRead(env: Env, key: Text, i: nat)
    requires i < |env| && IsLineOf(env[i], key) && env[i][0] != HASH
    requires forall j | 0 <= j < |env| && j != i :: !IsLineOf(env[j], key)
    ensures ReadEnv(env, key) == Some(Unquoted(env[i][|key| + 1..]))
    decreases |env|
  {
    if i < |env| - 1 {
      OnlyLineIsRead(env[..|env| - 1], key, i);
    }
  }
}
