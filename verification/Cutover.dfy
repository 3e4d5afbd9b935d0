/**
 Generation cutover with its journal and restart recovery (apps/manager/src/node-manager.ts:522-630,
 1506-1588, 1647-1684; apps/manager/src/state.ts:88-139), for one Node.

 Durable state is the runtime environment file, the registry row, the operation records in order
 of their start, and the database volumes. Every operation is the list of durable states it
 passes through; a crash is a prefix. Health checks and failing Docker commands are inputs.
 */
module Cutover {
  import opened RuntimeEnv
  import opened Seqs
  import opened Text
  import opened Wrappers

  datatype Node = Node(generation: nat, schema: string)

  datatype OpState = Running | Succeeded | Failed | NeedsAttention | Recovered

  datatype Journal = Journal(fromGeneration: nat, fromVolume: Text, fromSchema: string,
                             toGeneration: nat, toVolume: Text, toSchema: string, envHash: Digest)

  /** `restarted` is the phase `manager_restarted`; `recovery` a recovery entry in the result. */
  datatype Operation = Operation(state: OpState, restarted: bool, journal: Option<Journal>, recovery: bool)

  datatype Disk = Disk(env: Env, node: Node, ops: seq<Operation>, volumes: set<Text>)

  datatype Outcome = Healthy | Unhealthy | StopFails | StagingFails

  function After(d: Disk, ws: seq<Disk>): Disk {
    if ws == [] then d else ws[|ws| - 1]
  }

  // What each operation writes

  function Begin(d: Disk): Disk {
    d.(ops := d.ops + [Operation(Running, false, None, false)])
  }

  function UpdateOp(d: Disk, i: nat, op: Operation): Disk
    requires i < |d.ops|
  {
    d.(ops := d.ops[i := op])
  }

  function JournalFor(d: Disk, toGeneration: nat, toVolume: Text, toSchema: string): Journal {
    var fromVolume := match ReadEnv(d.env, VOLUME_KEY) case Some(v) => v case None => [];
    Journal(d.node.generation, fromVolume, d.node.schema, toGeneration, toVolume, toSchema, Digest(d.env))
  }

  /** journalCutover: the record now tells where the Node was and where it is going. */
  function Journalled(d: Disk, i: nat, toGeneration: nat, toVolume: Text, toSchema: string): Disk
    requires i < |d.ops|
  {
    UpdateOp(d, i, d.ops[i].(journal := Some(JournalFor(d, toGeneration, toVolume, toSchema))))
  }

  /** cutover: environment, then registry; on an unhealthy candidate both are put back. */
  function CutoverWrites(d: Disk, volume: Text, generation: nat, schema: string, outcome: Outcome): seq<Disk> {
    match ReplaceEnv(d.env, VOLUME_KEY, volume)
    case None => []
    case Some(env) =>
      var switched := d.(env := env);
      var moved := switched.(node := Node(generation, schema));
      match outcome
      case Healthy => [switched, moved]
      case Unhealthy => [switched, moved, moved.(env := d.env), moved.(env := d.env, node := d.node)]
      case _ => []
  }

  lemma CutoverKeepsRecords(d: Disk, volume: Text, generation: nat, schema: string, outcome: Outcome)
    ensures forall s | s in CutoverWrites(d, volume, generation, schema, outcome) :: s.ops == d.ops && s.volumes == d.volumes
    ensures After(d, CutoverWrites(d, volume, generation, schema, outcome)).ops == d.ops
    ensures After(d, CutoverWrites(d, volume, generation, schema, outcome)).volumes == d.volumes
  {
  }

  /** The result of a successful operation replaces the journal; a failure keeps it. */
  function Closed(op: Operation, success: bool): Operation {
    if success then op.(state := Succeeded, journal := None) else op.(state := Failed)
  }

  /** The cutover of a journalled operation, and the record that closes it. */
  function SwitchWrites(d: Disk, i: nat, volume: Text, generation: nat, schema: string, outcome: Outcome): seq<Disk>
    requires i < |d.ops|
  {
    var cut := CutoverWrites(d, volume, generation, schema, outcome);
    CutoverKeepsRecords(d, volume, generation, schema, outcome);
    cut + [UpdateOp(After(d, cut), i, Closed(d.ops[i], outcome == Healthy && cut != []))]
  }

  /** restoreApply and the new-generation branch of migrationApply. */
  function ApplyWrites(nodeId: Text, d: Disk, generation: nat, schema: string, outcome: Outcome): seq<Disk> {
    var volume := VolumeName(nodeId, generation);
    var i := |d.ops|;
    var begun := Begin(d);
    var staged := begun.(volumes := begun.volumes + {volume});
    if outcome == StagingFails then [begun, staged, UpdateOp(staged, i, Closed(staged.ops[i], false))]
    else
      var journalled := Journalled(staged, i, generation, volume, schema);
      [begun, staged, journalled] + SwitchWrites(journalled, i, volume, generation, schema, outcome)
  }

  predicate Interrupted(op: Operation) {
    op.state == NeedsAttention && op.restarted && op.journal.Some? && !op.recovery
  }

  predicate Below(order: seq<nat>, n: nat) {
    forall k | 0 <= k < |order| :: order[k] < n
  }

  /** recoverInterruptedOperations: every running record is marked, in directory order. */
  function MarkWrites(d: Disk, order: seq<nat>): seq<Disk>
    requires Below(order, |d.ops|)
    decreases |order|
  {
    if order == [] then []
    else
      var i := order[0];
      if d.ops[i].state == Running then
        var next := UpdateOp(d, i, d.ops[i].(state := NeedsAttention, restarted := true));
        [next] + MarkWrites(next, order[1..])
      else MarkWrites(d, order[1..])
  }

  /** The latest interrupted cutover, as `.reverse().find(...)` selects it. */
  function Selected(ops: seq<Operation>): (r: Option<nat>)
    ensures r.Some? ==> r.value < |ops| && Interrupted(ops[r.value]) && forall j | r.value < j < |ops| :: !Interrupted(ops[j])
    ensures r.None? ==> forall j | 0 <= j < |ops| :: !Interrupted(ops[j])
  {
    if ops == [] then None
    else if Interrupted(ops[|ops| - 1]) then Some(|ops| - 1)
    else Selected(ops[..|ops| - 1])
  }

  /** reconcileInterruptedCutovers: roll the selected cutover back, unless the environment changed. */
  function RollbackWrites(d: Disk, healthy: bool): seq<Disk> {
    match Selected(d.ops)
    case None => []
    case Some(i) =>
      var j := d.ops[i].journal.value;
      if j.fromVolume == [] || j.fromSchema == "" then []
      else
        match ReplaceEnv(d.env, VOLUME_KEY, j.fromVolume)
        case None => []
        case Some(env) =>
          if Digest(env) != j.envHash then []
          else
            var restored := d.(env := env);
            var rolledBack := restored.(node := Node(j.fromGeneration, j.fromSchema));
            [restored, rolledBack]
            + (if healthy then [UpdateOp(rolledBack, i, d.ops[i].(state := Recovered, restarted := false, recovery := true))] else [])
  }

  /** initialize(true) after a restart of the manager. */
  function RestartWrites(d: Disk, order: seq<nat>, healthy: bool): seq<Disk>
    requires Below(order, |d.ops|)
  {
    var marks := MarkWrites(d, order);
    marks + RollbackWrites(After(d, marks), healthy)
  }

  lemma JoinThree(past: seq<Disk>, a: Disk, b: Disk, c: Disk, rest: seq<Disk>)
    ensures ((past + [a, b]) + [c]) + rest == past + ([a, b, c] + rest)
    ensures rest != [] ==> ([a, b, c] + rest)[|[a, b, c] + rest| - 1] == rest[|rest| - 1]
  {
  }

  // The class

  class NodeManager {
    const nodeId: Text
    var env: Env
    var node: Node
    var ops: seq<Operation>
    var volumes: set<Text>
    ghost var writes: seq<Disk>  // every durable state so far, one per write

    constructor (nodeId: Text, env: Env, node: Node, volumes: set<Text>)
      ensures this.nodeId == nodeId && Snapshot() == Disk(env, node, [], volumes) && writes == []
    {
      this.nodeId, this.env, this.node, this.ops, this.volumes, this.writes := nodeId, env, node, [], volumes, [];
    }

    function Snapshot(): Disk
      reads this
    {
      Disk(env, node, ops, volumes)
    }

    /** The least generation above the current one whose volume does not exist. */
    method NextUnusedGeneration() returns (generation: nat)
      ensures generation > node.generation && VolumeName(nodeId, generation) !in volumes
      ensures forall g | node.generation < g < generation :: VolumeName(nodeId, g) in volumes
    {
      generation := node.generation + 1;
      ghost var left := volumes;
      while VolumeName(nodeId, generation) in volumes
        invariant generation > node.generation
        invariant forall g | node.generation < g < generation :: VolumeName(nodeId, g) in volumes
        invariant forall g | g >= generation && VolumeName(nodeId, g) in volumes :: VolumeName(nodeId, g) in left
        decreases |left|
      {
        forall g | g >= generation + 1 ensures VolumeName(nodeId, g) != VolumeName(nodeId, generation) {
          VolumeNameInjective(nodeId, g, generation);
        }
        left := left - {VolumeName(nodeId, generation)};
        generation := generation + 1;
      }
    }

    /** Returns whether the candidate went live. */
    method CutOver(volume: Text, generation: nat, schema: string, outcome: Outcome) returns (live: bool)
      modifies this
      ensures var ws := CutoverWrites(old(Snapshot()), volume, generation, schema, outcome);
              && writes == old(writes) + ws && Snapshot() == After(old(Snapshot()), ws)
              && live == (outcome == Healthy && ws != [])
    {
      var candidate := ReplaceEnv(env, VOLUME_KEY, volume);
      if candidate.None? || outcome.StopFails? || outcome.StagingFails? {
        return false;
      }
      var original := env;
      var before := node;
      env := candidate.value;
      writes := writes + [Snapshot()];
      node := Node(generation, schema);
      writes := writes + [Snapshot()];
      if outcome == Healthy {
        return true;
      }
      env := original;
      writes := writes + [Snapshot()];
      node := before;
      writes := writes + [Snapshot()];
      return false;
    }

    /** beginOperation, then the volume of the candidate is created. */
    method Stage(volume: Text)
      modifies this
      ensures var begun := Begin(old(Snapshot()));
              var staged := begun.(volumes := begun.volumes + {volume});
              writes == old(writes) + [begun, staged] && Snapshot() == staged
    {
      ops := ops + [Operation(Running, false, None, false)];
      writes := writes + [Snapshot()];
      volumes := volumes + {volume};
      writes := writes + [Snapshot()];
    }

    /** journalCutover. */
    method JournalCutover(i: nat, generation: nat, volume: Text, schema: string)
      requires i < |ops|
      modifies this
      ensures var s := Journalled(old(Snapshot()), i, generation, volume, schema);
              writes == old(writes) + [s] && Snapshot() == s
    {
      ops := ops[i := ops[i].(journal := Some(JournalFor(Snapshot(), generation, volume, schema)))];
      writes := writes + [Snapshot()];
    }

    /** succeedOperation or failOperation. */
    method Close(i: nat, success: bool)
      requires i < |ops|
      modifies this
      ensures var s := UpdateOp(old(Snapshot()), i, Closed(old(ops[i]), success));
              writes == old(writes) + [s] && Snapshot() == s
    {
      ops := ops[i := Closed(ops[i], success)];
      writes := writes + [Snapshot()];
    }

    /** Cuts the journalled operation over and closes its record. */
    method Switch(i: nat, volume: Text, generation: nat, schema: string, outcome: Outcome)
      requires i < |ops|
      modifies this
      ensures var ws := SwitchWrites(old(Snapshot()), i, volume, generation, schema, outcome);
              writes == old(writes) + ws && Snapshot() == After(old(Snapshot()), ws)
    {
      ghost var d := Snapshot();
      CutoverKeepsRecords(d, volume, generation, schema, outcome);
      var live := CutOver(volume, generation, schema, outcome);
      Close(i, live);
    }

    /** Journals the operation, cuts it over and closes its record. */
    method JournalAndSwitch(i: nat, volume: Text, generation: nat, schema: string, outcome: Outcome)
      requires i < |ops|
      modifies this
      ensures var s := Journalled(old(Snapshot()), i, generation, volume, schema);
              var ws := SwitchWrites(s, i, volume, generation, schema, outcome);
              writes == (old(writes) + [s]) + ws && Snapshot() == After(s, ws)
    {
      JournalCutover(i, generation, volume, schema);
      Switch(i, volume, generation, schema, outcome);
    }

    /** A restore, or a migration into a new generation. */
    method Apply(generation: nat, schema: string, outcome: Outcome)
      modifies this
      ensures var ws := ApplyWrites(nodeId, old(Snapshot()), generation, schema, outcome);
              writes == old(writes) + ws && Snapshot() == After(old(Snapshot()), ws)
    {
      ghost var past, d := writes, Snapshot();
      var volume := VolumeName(nodeId, generation);
      var i := |ops|;
      Stage(volume);
      if outcome == StagingFails {
        Close(i, false);
        return;
      }
      ghost var staged := Snapshot();
      JournalAndSwitch(i, volume, generation, schema, outcome);
      ghost var journalled := Journalled(staged, i, generation, volume, schema);
      JoinThree(past, Begin(d), staged, journalled, SwitchWrites(journalled, i, volume, generation, schema, outcome));
    }

    /** Marks every operation the previous manager left running. */
    method RecoverInterruptedOperations(order: seq<nat>)
      requires Below(order, |ops|)
      modifies this
      ensures var ws := MarkWrites(old(Snapshot()), order);
              writes == old(writes) + ws && Snapshot() == After(old(Snapshot()), ws)
    {
      ghost var start := Snapshot();
      var k := 0;
      assert order[0..] == order;
      while k < |order|
        invariant 0 <= k <= |order|
        invariant |ops| == |start.ops|
        invariant old(writes) + MarkWrites(start, order) == writes + MarkWrites(Snapshot(), order[k..])
        invariant After(start, MarkWrites(start, order)) == After(Snapshot(), MarkWrites(Snapshot(), order[k..]))
      {
        assert order[k..][0] == order[k] && order[k..][1..] == order[k + 1..];
        if ops[order[k]].state == Running {
          ghost var before := Snapshot();
          ops := ops[order[k] := ops[order[k]].(state := NeedsAttention, restarted := true)];
          writes := writes + [Snapshot()];
          assert MarkWrites(before, order[k..]) == [Snapshot()] + MarkWrites(Snapshot(), order[k + 1..]);
        }
        k := k + 1;
      }
    }

    /** Rolls the latest interrupted cutover back. */
    method ReconcileInterruptedCutovers(healthy: bool)
      modifies this
      ensures var ws := RollbackWrites(old(Snapshot()), healthy);
              writes == old(writes) + ws && Snapshot() == After(old(Snapshot()), ws)
    {
      match Selected(ops) {
        case None => return;
        case Some(i) =>
          var interrupted := ops[i];
          var j := interrupted.journal.value;
          if j.fromVolume == [] || j.fromSchema == "" {
            return;
          }
          var rolledBack := ReplaceEnv(env, VOLUME_KEY, j.fromVolume);
          if rolledBack.None? || Digest(rolledBack.value) != j.envHash {
            return;
          }
          env := rolledBack.value;
          writes := writes + [Snapshot()];
          node := Node(j.fromGeneration, j.fromSchema);
          writes := writes + [Snapshot()];
          if healthy {
            ops := ops[i := interrupted.(state := Recovered, restarted := false, recovery := true)];
            writes := writes + [Snapshot()];
          }
      }
    }

    /** initialize(true). */
    method Restart(order: seq<nat>, healthy: bool)
      requires Below(order, |ops|)
      modifies this
      ensures var ws := RestartWrites(old(Snapshot()), order, healthy);
              writes == old(writes) + ws && Snapshot() == After(old(Snapshot()), ws)
    {
      RecoverInterruptedOperations(order);
      ReconcileInterruptedCutovers(healthy);
    }
  }
}
