/**
 A cutover is all or nothing, across any number of crashes, in the cutover or in its recovery:
 what one application and one restart keep. Whole runs are in `CutoverRuns`.
 */
module CutoverProofs {
  import opened Cutover
  import opened RuntimeEnv
  import opened Seqs
  import opened Text
  import opened Wrappers

  /** Environment, registry and volumes agree on the generation the registry names. */
  ghost predicate Steady(nodeId: Text, d: Disk) {
    && NamesVolume(d.env, VolumeName(nodeId, d.node.generation))
    && VolumeName(nodeId, d.node.generation) in d.volumes
    && d.node.schema != ""
  }

  /** What the Node runs on: the environment file, byte for byte, and the registry row. */
  datatype Live = Live(env: Env, node: Node)

  function LiveOf(d: Disk): Live {
    Live(d.env, d.node)
  }

  predicate Open(op: Operation) {
    op.state == Running || Interrupted(op)
  }

  ghost predicate Quiet(ops: seq<Operation>) {
    forall i | 0 <= i < |ops| :: !Open(ops[i])
  }

  function From(j: Journal): Node {
    Node(j.fromGeneration, j.fromSchema)
  }

  function To(j: Journal): Node {
    Node(j.toGeneration, j.toSchema)
  }

  /**
   Between the journal entry and the end: the environment is the journalled one or the switched
   one, the registry row is the old one or the new one, and both volumes exist.
   */
  ghost predicate Between(nodeId: Text, d: Disk, j: Journal) {
    && j.fromVolume == VolumeName(nodeId, j.fromGeneration) && j.fromVolume in d.volumes && j.fromSchema != ""
    && j.toVolume == VolumeName(nodeId, j.toGeneration) && j.toVolume in d.volumes && j.toSchema != ""
    && NamesVolume(j.envHash.preimage, j.fromVolume)
    && (d.env == j.envHash.preimage || Some(d.env) == ReplaceEnv(j.envHash.preimage, VOLUME_KEY, j.toVolume))
    && (d.node == From(j) || d.node == To(j))
  }

  /** Operation `i` is the only open one. */
  ghost predicate InFlight(nodeId: Text, d: Disk, i: nat, committed: Live) {
    && i < |d.ops| && Open(d.ops[i]) && !d.ops[i].recovery
    && (forall k | 0 <= k < |d.ops| && k != i :: !Open(d.ops[k]))
    && match d.ops[i].journal
       case None => Steady(nodeId, d) && LiveOf(d) == committed
       case Some(j) => Between(nodeId, d, j) && Live(j.envHash.preimage, From(j)) == committed
  }

  ghost predicate AtRest(nodeId: Text, d: Disk, committed: Live) {
    Quiet(d.ops) && Steady(nodeId, d) && LiveOf(d) == committed
  }

  /** Every durable state of a run: at rest on the committed generation, or with one cutover under way from it. */
  ghost predicate Consistent(nodeId: Text, d: Disk, committed: Live) {
    AtRest(nodeId, d, committed) || exists i :: InFlight(nodeId, d, i, committed)
  }

  /** The generation switched to: its volume in the environment, its number and schema in the registry. */
  function Target(nodeId: Text, d: Disk, generation: nat, schema: string): Live {
    match ReplaceEnv(d.env, VOLUME_KEY, VolumeName(nodeId, generation))
    case None => LiveOf(d)
    case Some(env) => Live(env, Node(generation, schema))
  }

  ghost predicate AllConsistent(nodeId: Text, ws: seq<Disk>, committed: Live) {
    forall k | 0 <= k < |ws| :: Consistent(nodeId, ws[k], committed)
  }

  ghost predicate NextUnused(nodeId: Text, d: Disk, generation: nat) {
    && generation > d.node.generation && VolumeName(nodeId, generation) !in d.volumes
    && forall g | d.node.generation < g < generation :: VolumeName(nodeId, g) in d.volumes
  }

  // Applying

  lemma BeginInFlight(nodeId: Text, d: Disk, committed: Live, volume: Text)
    requires AtRest(nodeId, d, committed)
    ensures InFlight(nodeId, Begin(d), |d.ops|, committed)
    ensures InFlight(nodeId, Begin(d).(volumes := d.volumes + {volume}), |d.ops|, committed)
  {
    assert forall k | 0 <= k < |d.ops| :: Begin(d).ops[k] == d.ops[k];
  }

  function Staged(nodeId: Text, d: Disk, generation: nat): Disk {
    Begin(d).(volumes := d.volumes + {VolumeName(nodeId, generation)})
  }

  lemma JournalInFlight(nodeId: Text, d: Disk, committed: Live, generation: nat, schema: string)
    requires IsNodeId(nodeId) && AtRest(nodeId, d, committed) && schema != ""
    ensures var s := Journalled(Staged(nodeId, d, generation), |d.ops|, generation, VolumeName(nodeId, generation), schema);
            && InFlight(nodeId, s, |d.ops|, committed)
            && s.ops[|d.ops|].journal.Some?
            && var j := s.ops[|d.ops|].journal.value;
               To(j) == Node(generation, schema) && j.envHash.preimage == d.env == s.env && s.node == From(j)
  {
    BeginInFlight(nodeId, d, committed, VolumeName(nodeId, generation));
    VolumeNamePlain(nodeId, d.node.generation);
    NamedVolumeIsRead(d.env, VolumeName(nodeId, d.node.generation));
  }

  /** Moving the environment or the registry row to either side stays within the same cutover. */
  lemma MovesInFlight(nodeId: Text, d: Disk, i: nat, committed: Live, d': Disk)
    requires InFlight(nodeId, d, i, committed) && d.ops[i].journal.Some?
    requires d'.ops == d.ops && d'.volumes == d.volumes
    requires var j := d.ops[i].journal.value;
             && (d'.env == d.env || d'.env == j.envHash.preimage || Some(d'.env) == ReplaceEnv(j.envHash.preimage, VOLUME_KEY, j.toVolume))
             && (d'.node == From(j) || d'.node == To(j))
    ensures InFlight(nodeId, d', i, committed)
  {
  }

  /** Closing the only open operation leaves the Node at rest on whichever side it stands. */
  lemma CloseAtRest(nodeId: Text, d: Disk, i: nat, committed: Live, op: Operation)
    requires InFlight(nodeId, d, i, committed) && !Open(op)
    requires match d.ops[i].journal
             case None => true
             case Some(j) => || (d.env == j.envHash.preimage && d.node == From(j))
                             || (Some(d.env) == ReplaceEnv(j.envHash.preimage, VOLUME_KEY, j.toVolume) && d.node == To(j))
    ensures AtRest(nodeId, UpdateOp(d, i, op), LiveOf(d))
  {
    var after := UpdateOp(d, i, op);
    assert Quiet(after.ops);
    if d.ops[i].journal.Some? {
      var j := d.ops[i].journal.value;
      SwitchBack(j.envHash.preimage, j.fromVolume, j.toVolume);
    }
  }

  lemma StagingFailure(nodeId: Text, d: Disk, committed: Live, generation: nat, schema: string)
    requires AtRest(nodeId, d, committed)
    ensures var ws := ApplyWrites(nodeId, d, generation, schema, StagingFails);
            && |ws| == 3 && Consistent(nodeId, ws[0], committed) && Consistent(nodeId, ws[1], committed)
            && AtRest(nodeId, ws[2], committed) && ws[2].env == d.env
  {
    BeginInFlight(nodeId, d, committed, VolumeName(nodeId, generation));
    var staged := Staged(nodeId, d, generation);
    CloseAtRest(nodeId, staged, |d.ops|, committed, Closed(staged.ops[|d.ops|], false));
  }

  /** The states before the switch, and what the journal then holds. */
  lemma Prepared(nodeId: Text, d: Disk, committed: Live, generation: nat, schema: string) returns (s: Disk, j: Journal, switched: Env)
    requires IsNodeId(nodeId) && AtRest(nodeId, d, committed) && schema != ""
    ensures s == Journalled(Staged(nodeId, d, generation), |d.ops|, generation, VolumeName(nodeId, generation), schema)
    ensures InFlight(nodeId, s, |d.ops|, committed) && s.ops[|d.ops|].journal == Some(j)
    ensures s.env == d.env && s.node == d.node == From(j) == committed.node && To(j) == Node(generation, schema)
    ensures j.envHash.preimage == d.env && Some(switched) == ReplaceEnv(d.env, VOLUME_KEY, j.toVolume)
    ensures j.toVolume == VolumeName(nodeId, generation)
  {
    s := Journalled(Staged(nodeId, d, generation), |d.ops|, generation, VolumeName(nodeId, generation), schema);
    JournalInFlight(nodeId, d, committed, generation, schema);
    j := s.ops[|d.ops|].journal.value;
    SwitchBack(d.env, j.fromVolume, j.toVolume);
    switched := ReplaceEnv(d.env, VOLUME_KEY, j.toVolume).value;
  }

  lemma HealthySwitch(s: Disk, i: nat, volume: Text, generation: nat, schema: string, switched: Env)
    requires i < |s.ops| && ReplaceEnv(s.env, VOLUME_KEY, volume) == Some(switched)
    ensures var moved := s.(env := switched, node := Node(generation, schema));
            SwitchWrites(s, i, volume, generation, schema, Healthy)
            == [s.(env := switched), moved, UpdateOp(moved, i, Closed(s.ops[i], true))]
  {
  }

  lemma UnhealthySwitch(s: Disk, i: nat, volume: Text, generation: nat, schema: string, switched: Env)
    requires i < |s.ops| && ReplaceEnv(s.env, VOLUME_KEY, volume) == Some(switched)
    ensures var moved := s.(env := switched, node := Node(generation, schema));
            SwitchWrites(s, i, volume, generation, schema, Unhealthy)
            == [s.(env := switched), moved, moved.(env := s.env), s, UpdateOp(s, i, Closed(s.ops[i], false))]
  {
  }

  lemma StopSwitch(s: Disk, i: nat, volume: Text, generation: nat, schema: string)
    requires i < |s.ops|
    ensures SwitchWrites(s, i, volume, generation, schema, StopFails) == [UpdateOp(s, i, Closed(s.ops[i], false))]
  {
  }

  lemma Journals(nodeId: Text, d: Disk, generation: nat, schema: string, outcome: Outcome, s: Disk)
    requires outcome != StagingFails
    requires s == Journalled(Staged(nodeId, d, generation), |d.ops|, generation, VolumeName(nodeId, generation), schema)
    ensures ApplyWrites(nodeId, d, generation, schema, outcome)
            == [Begin(d), Staged(nodeId, d, generation), s] + SwitchWrites(s, |d.ops|, VolumeName(nodeId, generation), generation, schema, outcome)
  {
  }

  lemma HealthyWrites(nodeId: Text, d: Disk, generation: nat, schema: string, s: Disk, switched: Env, moved: Disk)
    requires s == Journalled(Staged(nodeId, d, generation), |d.ops|, generation, VolumeName(nodeId, generation), schema)
    requires ReplaceEnv(s.env, VOLUME_KEY, VolumeName(nodeId, generation)) == Some(switched)
    requires moved == s.(env := switched, node := Node(generation, schema))
    ensures ApplyWrites(nodeId, d, generation, schema, Healthy)
            == [Begin(d), Staged(nodeId, d, generation), s, s.(env := switched), moved, UpdateOp(moved, |d.ops|, Closed(s.ops[|d.ops|], true))]
  {
    Journals(nodeId, d, generation, schema, Healthy, s);
    HealthySwitch(s, |d.ops|, VolumeName(nodeId, generation), generation, schema, switched);
    Join3(Begin(d), Staged(nodeId, d, generation), s, [s.(env := switched), moved, UpdateOp(moved, |d.ops|, Closed(s.ops[|d.ops|], true))]);
  }

  lemma UnhealthyWrites(nodeId: Text, d: Disk, generation: nat, schema: string, s: Disk, switched: Env, moved: Disk)
    requires s == Journalled(Staged(nodeId, d, generation), |d.ops|, generation, VolumeName(nodeId, generation), schema)
    requires ReplaceEnv(s.env, VOLUME_KEY, VolumeName(nodeId, generation)) == Some(switched)
    requires moved == s.(env := switched, node := Node(generation, schema))
    ensures ApplyWrites(nodeId, d, generation, schema, Unhealthy)
            == [Begin(d), Staged(nodeId, d, generation), s, s.(env := switched), moved, moved.(env := s.env), s,
                UpdateOp(s, |d.ops|, Closed(s.ops[|d.ops|], false))]
  {
    Journals(nodeId, d, generation, schema, Unhealthy, s);
    UnhealthySwitch(s, |d.ops|, VolumeName(nodeId, generation), generation, schema, switched);
    Join3(Begin(d), Staged(nodeId, d, generation), s,
          [s.(env := switched), moved, moved.(env := s.env), s, UpdateOp(s, |d.ops|, Closed(s.ops[|d.ops|], false))]);
  }

  lemma Join3(a: Disk, b: Disk, c: Disk, rest: seq<Disk>)
    ensures |rest| == 3 ==> [a, b, c] + rest == [a, b, c, rest[0], rest[1], rest[2]]
    ensures |rest| == 5 ==> [a, b, c] + rest == [a, b, c, rest[0], rest[1], rest[2], rest[3], rest[4]]
  {
  }

  lemma CutoverStates(nodeId: Text, d: Disk, committed: Live, generation: nat, schema: string, s: Disk, j: Journal, switched: Env)
    requires InFlight(nodeId, s, |d.ops|, committed) && s.ops[|d.ops|].journal == Some(j)
    requires s.env == d.env && s.node == From(j) && To(j) == Node(generation, schema)
    requires j.envHash.preimage == d.env && Some(switched) == ReplaceEnv(d.env, VOLUME_KEY, j.toVolume)
    ensures var moved := s.(env := switched, node := Node(generation, schema));
            && Consistent(nodeId, s, committed) && Consistent(nodeId, s.(env := switched), committed)
            && Consistent(nodeId, moved, committed) && Consistent(nodeId, moved.(env := s.env), committed)
            && AtRest(nodeId, UpdateOp(s, |d.ops|, Closed(s.ops[|d.ops|], false)), committed)
            && AtRest(nodeId, UpdateOp(moved, |d.ops|, Closed(s.ops[|d.ops|], true)), Live(switched, Node(generation, schema)))
  {
    var moved := s.(env := switched, node := Node(generation, schema));
    MovesInFlight(nodeId, s, |d.ops|, committed, s.(env := switched));
    MovesInFlight(nodeId, s, |d.ops|, committed, moved);
    MovesInFlight(nodeId, s, |d.ops|, committed, moved.(env := s.env));
    CloseAtRest(nodeId, s, |d.ops|, committed, Closed(s.ops[|d.ops|], false));
    CloseAtRest(nodeId, moved, |d.ops|, committed, Closed(s.ops[|d.ops|], true));
  }

  /** What one application guarantees of its durable states. */
  ghost predicate AllOrNothing(nodeId: Text, ws: seq<Disk>, committed: Live, result: Live) {
    && ws != []
    && (forall k | 0 <= k < |ws| - 1 :: Consistent(nodeId, ws[k], committed))
    && AtRest(nodeId, ws[|ws| - 1], result)
  }

  lemma InOrder(nodeId: Text, front: seq<Disk>, last: Disk, committed: Live, result: Live)
    requires AtRest(nodeId, last, result)
    requires forall d | d in front :: Consistent(nodeId, d, committed)
    ensures AllOrNothing(nodeId, front + [last], committed, result)
  {
    var all := front + [last];
    forall k | 0 <= k < |all| - 1 ensures Consistent(nodeId, all[k], committed) {
      assert all[k] in front;
    }
  }

  lemma HealthyAllOrNothing(nodeId: Text, d: Disk, committed: Live, generation: nat, schema: string)
    requires IsNodeId(nodeId) && AtRest(nodeId, d, committed) && schema != ""
    ensures AllOrNothing(nodeId, ApplyWrites(nodeId, d, generation, schema, Healthy), committed, Target(nodeId, d, generation, schema))
  {
    var s, j, switched := Prepared(nodeId, d, committed, generation, schema);
    var moved := s.(env := switched, node := Node(generation, schema));
    var ws := ApplyWrites(nodeId, d, generation, schema, Healthy);
    HealthyWrites(nodeId, d, generation, schema, s, switched, moved);
    HealthyStates(nodeId, d, committed, generation, schema, s, j, switched, ws, ws[5]);
  }

  lemma HealthyStates(nodeId: Text, d: Disk, committed: Live, generation: nat, schema: string, s: Disk, j: Journal, switched: Env, ws: seq<Disk>, last: Disk)
    requires AtRest(nodeId, d, committed)
    requires InFlight(nodeId, s, |d.ops|, committed) && s.ops[|d.ops|].journal == Some(j)
    requires s.env == d.env && s.node == From(j) && To(j) == Node(generation, schema)
    requires j.envHash.preimage == d.env && Some(switched) == ReplaceEnv(d.env, VOLUME_KEY, j.toVolume)
    requires var moved := s.(env := switched, node := Node(generation, schema));
             && last == UpdateOp(moved, |d.ops|, Closed(s.ops[|d.ops|], true))
             && ws == [Begin(d), Staged(nodeId, d, generation), s, s.(env := switched), moved, last]
    ensures AllOrNothing(nodeId, ws, committed, Live(switched, Node(generation, schema)))
  {
    BeginInFlight(nodeId, d, committed, VolumeName(nodeId, generation));
    CutoverStates(nodeId, d, committed, generation, schema, s, j, switched);
    var front := [ws[0], ws[1], ws[2], ws[3], ws[4]];
    assert ws == front + [last];
    InOrder(nodeId, front, last, committed, Live(switched, Node(generation, schema)));
  }

  lemma UnhealthyAllOrNothing(nodeId: Text, d: Disk, committed: Live, generation: nat, schema: string)
    requires IsNodeId(nodeId) && AtRest(nodeId, d, committed) && schema != ""
    ensures AllOrNothing(nodeId, ApplyWrites(nodeId, d, generation, schema, Unhealthy), committed, committed)
  {
    var s, j, switched := Prepared(nodeId, d, committed, generation, schema);
    var moved := s.(env := switched, node := Node(generation, schema));
    var ws := ApplyWrites(nodeId, d, generation, schema, Unhealthy);
    UnhealthyWrites(nodeId, d, generation, schema, s, switched, moved);
    UnhealthyStates(nodeId, d, committed, generation, schema, s, j, switched, ws, ws[7]);
  }

  lemma UnhealthyStates(nodeId: Text, d: Disk, committed: Live, generation: nat, schema: string, s: Disk, j: Journal, switched: Env, ws: seq<Disk>, last: Disk)
    requires AtRest(nodeId, d, committed)
    requires InFlight(nodeId, s, |d.ops|, committed) && s.ops[|d.ops|].journal == Some(j)
    requires s.env == d.env && s.node == From(j) && To(j) == Node(generation, schema)
    requires j.envHash.preimage == d.env && Some(switched) == ReplaceEnv(d.env, VOLUME_KEY, j.toVolume)
    requires var moved := s.(env := switched, node := Node(generation, schema));
             && last == UpdateOp(s, |d.ops|, Closed(s.ops[|d.ops|], false))
             && ws == [Begin(d), Staged(nodeId, d, generation), s, s.(env := switched), moved, moved.(env := s.env), s, last]
    ensures AllOrNothing(nodeId, ws, committed, committed)
  {
    BeginInFlight(nodeId, d, committed, VolumeName(nodeId, generation));
    CutoverStates(nodeId, d, committed, generation, schema, s, j, switched);
    var front := [ws[0], ws[1], ws[2], ws[3], ws[4], ws[5], s];
    assert ws == front + [last];
    InOrder(nodeId, front, last, committed, committed);
  }

  lemma StopAllOrNothing(nodeId: Text, d: Disk, committed: Live, generation: nat, schema: string)
    requires IsNodeId(nodeId) && AtRest(nodeId, d, committed) && schema != ""
    ensures AllOrNothing(nodeId, ApplyWrites(nodeId, d, generation, schema, StopFails), committed, committed)
  {
    var s, j, switched := Prepared(nodeId, d, committed, generation, schema);
    var ws := ApplyWrites(nodeId, d, generation, schema, StopFails);
    Journals(nodeId, d, generation, schema, StopFails, s);
    StopSwitch(s, |d.ops|, VolumeName(nodeId, generation), generation, schema);
    BeginInFlight(nodeId, d, committed, VolumeName(nodeId, generation));
    CutoverStates(nodeId, d, committed, generation, schema, s, j, switched);
    var front := [ws[0], ws[1], ws[2]];
    assert ws == front + [ws[3]];
    InOrder(nodeId, front, ws[3], committed, committed);
  }

  lemma StagingAllOrNothing(nodeId: Text, d: Disk, committed: Live, generation: nat, schema: string)
    requires AtRest(nodeId, d, committed)
    ensures AllOrNothing(nodeId, ApplyWrites(nodeId, d, generation, schema, StagingFails), committed, committed)
  {
    StagingFailure(nodeId, d, committed, generation, schema);
  }

  /**
   One application: every durable state before the last is consistent with the old generation; the
   last is at rest on the new one if the candidate was healthy, else on the old with the old file.
   */
  lemma ApplyAllOrNothing(nodeId: Text, d: Disk, committed: Live, generation: nat, schema: string, outcome: Outcome)
    requires IsNodeId(nodeId) && AtRest(nodeId, d, committed) && schema != ""
    ensures AllOrNothing(nodeId, ApplyWrites(nodeId, d, generation, schema, outcome), committed,
                         if outcome == Healthy then Target(nodeId, d, generation, schema) else committed)
  {
    match outcome
    case Healthy => HealthyAllOrNothing(nodeId, d, committed, generation, schema);
    case Unhealthy => UnhealthyAllOrNothing(nodeId, d, committed, generation, schema);
    case StopFails => StopAllOrNothing(nodeId, d, committed, generation, schema);
    case StagingFails => StagingAllOrNothing(nodeId, d, committed, generation, schema);
  }

  // Recovering

  /** Marking the running record keeps the cutover open, or closes it if nothing was journalled. */
  lemma MarkConsistent(nodeId: Text, d: Disk, committed: Live, i: nat)
    requires InFlight(nodeId, d, i, committed) && d.ops[i].state == Running
    ensures Consistent(nodeId, UpdateOp(d, i, d.ops[i].(state := NeedsAttention, restarted := true)), committed)
  {
    var op := d.ops[i].(state := NeedsAttention, restarted := true);
    var after := UpdateOp(d, i, op);
    if d.ops[i].journal.None? {
      CloseAtRest(nodeId, d, i, committed, op);
    } else {
      assert InFlight(nodeId, after, i, committed);
    }
  }

  lemma {:induction false} MarksConsistent(nodeId: Text, d: Disk, committed: Live, order: seq<nat>)
    requires Consistent(nodeId, d, committed) && Below(order, |d.ops|)
    ensures AllConsistent(nodeId, MarkWrites(d, order), committed)
    ensures Consistent(nodeId, After(d, MarkWrites(d, order)), committed)
    decreases |order|
  {
    if order != [] {
      var i := order[0];
      if d.ops[i].state == Running {
        OpenIsInFlight(nodeId, d, committed, i);
        MarkConsistent(nodeId, d, committed, i);
        var next := UpdateOp(d, i, d.ops[i].(state := NeedsAttention, restarted := true));
        MarksConsistent(nodeId, next, committed, order[1..]);
        JoinWrites(nodeId, d, [next], MarkWrites(next, order[1..]), committed);
      } else {
        MarksConsistent(nodeId, d, committed, order[1..]);
      }
    }
  }

  /** Marking every record leaves none running and touches nothing else. */
  lemma {:induction false} MarksSpec(d: Disk, order: seq<nat>)
    requires Below(order, |d.ops|)
    ensures var s := After(d, MarkWrites(d, order));
            && s.env == d.env && s.node == d.node && s.volumes == d.volumes && |s.ops| == |d.ops|
            && (forall i | 0 <= i < |d.ops| && i in order :: s.ops[i].state != Running)
            && (forall i | 0 <= i < |d.ops| && s.ops[i].state == Running :: s.ops[i] == d.ops[i])
    ensures forall k | 0 <= k < |MarkWrites(d, order)| :: MarkWrites(d, order)[k].volumes == d.volumes
    decreases |order|
  {
    if order != [] {
      var i := order[0];
      var next := if d.ops[i].state == Running then UpdateOp(d, i, d.ops[i].(state := NeedsAttention, restarted := true)) else d;
      MarksSpec(next, order[1..]);
      assert forall k | 0 <= k < |d.ops| && k in order :: k == i || k in order[1..];
    }
  }

  /** The journalled hash never refuses a rollback in a run of crashes, and the rollback restores the file. */
  lemma HashNeverRefuses(nodeId: Text, d: Disk, i: nat, committed: Live)
    requires IsNodeId(nodeId) && InFlight(nodeId, d, i, committed) && Interrupted(d.ops[i])
    ensures Selected(d.ops) == Some(i)
    ensures var j := d.ops[i].journal.value;
            && j.fromVolume != [] && j.fromSchema != ""
            && ReplaceEnv(d.env, VOLUME_KEY, j.fromVolume) == Some(j.envHash.preimage)
  {
    var j := d.ops[i].journal.value;
    VolumeNamePlain(nodeId, j.fromGeneration);
    SwitchBack(j.envHash.preimage, j.fromVolume, j.toVolume);
    var r := Selected(d.ops);
    assert Open(d.ops[i]);
    if r.Some? {
      assert Open(d.ops[r.value]);
    }
  }

  lemma RollbackKeepsVolumes(d: Disk, healthy: bool)
    ensures forall k | 0 <= k < |RollbackWrites(d, healthy)| :: RollbackWrites(d, healthy)[k].volumes == d.volumes
  {
  }

  lemma RollbackConsistent(nodeId: Text, d: Disk, committed: Live, healthy: bool)
    requires IsNodeId(nodeId) && Consistent(nodeId, d, committed)
    ensures AllConsistent(nodeId, RollbackWrites(d, healthy), committed)
    ensures Consistent(nodeId, After(d, RollbackWrites(d, healthy)), committed)
    ensures healthy && (forall i | 0 <= i < |d.ops| :: d.ops[i].state != Running) ==> AtRest(nodeId, After(d, RollbackWrites(d, healthy)), committed)
  {
    if Selected(d.ops).None? {
      NothingSelected(nodeId, d, committed);
    } else {
      var i := Selected(d.ops).value;
      OpenIsInFlight(nodeId, d, committed, i);
      HashNeverRefuses(nodeId, d, i, committed);
      RollbackStates(nodeId, d, i, committed, healthy);
      var j := d.ops[i].journal.value;
      var restored := d.(env := j.envHash.preimage);
      var rolledBack := restored.(node := From(j));
      RollbackList(nodeId, d, RollbackWrites(d, healthy), restored, rolledBack,
                   UpdateOp(rolledBack, i, d.ops[i].(state := Recovered, restarted := false, recovery := true)), healthy, committed);
    }
  }

  lemma RollbackList(nodeId: Text, d: Disk, ws: seq<Disk>, restored: Disk, rolledBack: Disk, done: Disk, healthy: bool, committed: Live)
    requires ws == [restored, rolledBack] + (if healthy then [done] else [])
    requires Consistent(nodeId, restored, committed) && Consistent(nodeId, rolledBack, committed) && AtRest(nodeId, done, committed)
    ensures AllConsistent(nodeId, ws, committed) && Consistent(nodeId, After(d, ws), committed)
    ensures healthy ==> AtRest(nodeId, After(d, ws), committed)
  {
    if healthy {
      assert ws == [restored, rolledBack, done];
    } else {
      assert ws == [restored, rolledBack];
    }
  }

  lemma NothingSelected(nodeId: Text, d: Disk, committed: Live)
    requires Consistent(nodeId, d, committed) && Selected(d.ops).None?
    ensures (forall i | 0 <= i < |d.ops| :: d.ops[i].state != Running) ==> AtRest(nodeId, d, committed)
  {
    if !AtRest(nodeId, d, committed) {
      var i :| InFlight(nodeId, d, i, committed);
      UnselectedIsRunning(d.ops, i);
    }
  }

  lemma UnselectedIsRunning(ops: seq<Operation>, i: nat)
    requires i < |ops| && Open(ops[i]) && Selected(ops).None?
    ensures ops[i].state == Running
  {
  }

  lemma OpenIsInFlight(nodeId: Text, d: Disk, committed: Live, i: nat)
    requires Consistent(nodeId, d, committed) && i < |d.ops| && Open(d.ops[i])
    ensures InFlight(nodeId, d, i, committed)
  {
    var k :| InFlight(nodeId, d, k, committed);
    assert k == i;
  }

  lemma RollbackStates(nodeId: Text, d: Disk, i: nat, committed: Live, healthy: bool)
    requires InFlight(nodeId, d, i, committed) && Interrupted(d.ops[i]) && Selected(d.ops) == Some(i)
    requires var j := d.ops[i].journal.value;
             j.fromVolume != [] && j.fromSchema != "" && ReplaceEnv(d.env, VOLUME_KEY, j.fromVolume) == Some(j.envHash.preimage)
    ensures var j := d.ops[i].journal.value;
            var restored := d.(env := j.envHash.preimage);
            var rolledBack := restored.(node := From(j));
            var done := UpdateOp(rolledBack, i, d.ops[i].(state := Recovered, restarted := false, recovery := true));
            && RollbackWrites(d, healthy) == [restored, rolledBack] + (if healthy then [done] else [])
            && Consistent(nodeId, restored, committed) && Consistent(nodeId, rolledBack, committed)
            && AtRest(nodeId, done, committed)
  {
    var j := d.ops[i].journal.value;
    assert Digest(j.envHash.preimage) == j.envHash;
    var restored := d.(env := j.envHash.preimage);
    var rolledBack := restored.(node := From(j));
    MovesInFlight(nodeId, d, i, committed, restored);
    MovesInFlight(nodeId, d, i, committed, rolledBack);
    CloseAtRest(nodeId, rolledBack, i, committed, d.ops[i].(state := Recovered, restarted := false, recovery := true));
  }

  ghost predicate Complete(order: seq<nat>, n: nat) {
    Below(order, n) && forall i | 0 <= i < n :: i in order
  }

  /**
   A restart, complete or cut anywhere, keeps the committed generation; a complete one that comes
   up healthy is at rest on it, whatever number of crashes came before.
   */
  lemma RestartRecovers(nodeId: Text, d: Disk, committed: Live, order: seq<nat>, healthy: bool)
    requires IsNodeId(nodeId) && Consistent(nodeId, d, committed) && Complete(order, |d.ops|)
    ensures AllConsistent(nodeId, RestartWrites(d, order, healthy), committed)
    ensures Consistent(nodeId, After(d, RestartWrites(d, order, healthy)), committed)
    ensures healthy ==> AtRest(nodeId, After(d, RestartWrites(d, order, healthy)), committed)
  {
    MarksConsistent(nodeId, d, committed, order);
    MarksSpec(d, order);
    var marked := After(d, MarkWrites(d, order));
    RollbackConsistent(nodeId, marked, committed, healthy);
    JoinWrites(nodeId, d, MarkWrites(d, order), RollbackWrites(marked, healthy), committed);
  }

  lemma JoinWrites(nodeId: Text, d: Disk, ws: seq<Disk>, more: seq<Disk>, committed: Live)
    requires AllConsistent(nodeId, ws, committed) && AllConsistent(nodeId, more, committed)
    ensures AllConsistent(nodeId, ws + more, committed)
    ensures After(d, ws + more) == After(After(d, ws), more)
  {
    var all := ws + more;
    forall k | 0 <= k < |all| ensures Consistent(nodeId, all[k], committed) {
      assert all[k] == if k < |ws| then ws[k] else more[k - |ws|];
    }
  }
}
