/**
 Runs of one Node: cutovers, other edits of the environment or the schema, crashes and restarts,
 each cut after any of its writes.

 The claims are for runs in which an interrupted cutover is recovered before anything else starts
 (`Quiet` in `ValidEvent`). The code has no such guard: `SuccessSurvivesRestart` says exactly when
 a success outlives the next restart, and `StaleRecoveryUndoesSuccess` that it may not.
 */
module CutoverRuns {
  import opened Cutover
  import opened CutoverProofs
  import opened RuntimeEnv
  import opened Text
  import opened Wrappers

  datatype Process = Process(disk: Disk, up: bool)

  /** `done` is the number of writes performed before the manager dies; the whole list if it is larger. */
  datatype Event =
    | Apply(generation: nat, schema: string, outcome: Outcome, done: nat)
    | Restart(order: seq<nat>, healthy: bool, done: nat)
    | Edit(env: Env, schema: string)
    | Crash

  function Cut(d: Disk, ws: seq<Disk>, done: nat): Process {
    if done < |ws| then Process(After(d, ws[..done]), false) else Process(After(d, ws), true)
  }

  ghost predicate ValidEvent(nodeId: Text, p: Process, e: Event) {
    match e
    case Apply(generation, schema, _, _) => p.up && Quiet(p.disk.ops) && NextUnused(nodeId, p.disk, generation) && schema != ""
    case Restart(order, _, _) => !p.up && Complete(order, |p.disk.ops|)
    case Edit(env, schema) => p.up && Quiet(p.disk.ops) && schema != "" && NamesVolume(env, VolumeName(nodeId, p.disk.node.generation))
    case Crash => true
  }

  ghost function Next(nodeId: Text, p: Process, e: Event): Process
    requires ValidEvent(nodeId, p, e)
  {
    match e
    case Apply(generation, schema, outcome, done) => Cut(p.disk, ApplyWrites(nodeId, p.disk, generation, schema, outcome), done)
    case Restart(order, healthy, done) => Cut(p.disk, RestartWrites(p.disk, order, healthy), done)
    case Edit(env, schema) => p.(disk := p.disk.(env := env, node := Node(p.disk.node.generation, schema)))
    case Crash => p.(up := false)
  }

  /** The last state an operation was reported successful in. */
  ghost function Commit(nodeId: Text, p: Process, e: Event, committed: Live): Live {
    match e
    case Apply(generation, schema, outcome, done) =>
      if outcome == Healthy && done >= |ApplyWrites(nodeId, p.disk, generation, schema, outcome)|
      then Target(nodeId, p.disk, generation, schema) else committed
    case Edit(env, schema) => Live(env, Node(p.disk.node.generation, schema))
    case _ => committed
  }

  ghost predicate ValidRun(nodeId: Text, p: Process, es: seq<Event>)
    decreases |es|
  {
    es == [] || (ValidEvent(nodeId, p, es[0]) && ValidRun(nodeId, Next(nodeId, p, es[0]), es[1..]))
  }

  ghost function Run(nodeId: Text, p: Process, es: seq<Event>): Process
    requires ValidRun(nodeId, p, es)
    decreases |es|
  {
    if es == [] then p else Run(nodeId, Next(nodeId, p, es[0]), es[1..])
  }

  ghost function Committed(nodeId: Text, p: Process, es: seq<Event>, committed: Live): Live
    requires ValidRun(nodeId, p, es)
    decreases |es|
  {
    if es == [] then committed else Committed(nodeId, Next(nodeId, p, es[0]), es[1..], Commit(nodeId, p, es[0], committed))
  }

  // Every run

  lemma QuietIsAtRest(nodeId: Text, d: Disk, committed: Live)
    requires Consistent(nodeId, d, committed) && Quiet(d.ops)
    ensures AtRest(nodeId, d, committed)
  {
  }

  lemma CutConsistent(nodeId: Text, d: Disk, ws: seq<Disk>, done: nat, committed: Live)
    requires Consistent(nodeId, d, committed)
    requires forall k | 0 <= k < |ws| - 1 :: Consistent(nodeId, ws[k], committed)
    ensures done < |ws| ==> Consistent(nodeId, Cut(d, ws, done).disk, committed)
  {
    if 0 < done < |ws| {
      assert ws[..done][done - 1] == ws[done - 1];
    }
  }

  lemma ApplyConsistent(nodeId: Text, p: Process, e: Event, committed: Live)
    requires IsNodeId(nodeId) && Consistent(nodeId, p.disk, committed) && e.Apply? && ValidEvent(nodeId, p, e)
    ensures Consistent(nodeId, Next(nodeId, p, e).disk, Commit(nodeId, p, e, committed))
    ensures e.done >= |ApplyWrites(nodeId, p.disk, e.generation, e.schema, e.outcome)|
            ==> AtRest(nodeId, Next(nodeId, p, e).disk, Commit(nodeId, p, e, committed))
  {
    QuietIsAtRest(nodeId, p.disk, committed);
    ApplyAllOrNothing(nodeId, p.disk, committed, e.generation, e.schema, e.outcome);
    CutConsistent(nodeId, p.disk, ApplyWrites(nodeId, p.disk, e.generation, e.schema, e.outcome), e.done, committed);
  }

  lemma RestartConsistent(nodeId: Text, p: Process, e: Event, committed: Live)
    requires IsNodeId(nodeId) && Consistent(nodeId, p.disk, committed) && e.Restart? && ValidEvent(nodeId, p, e)
    ensures Consistent(nodeId, Next(nodeId, p, e).disk, committed)
    ensures e.healthy && Next(nodeId, p, e).up ==> AtRest(nodeId, Next(nodeId, p, e).disk, committed)
  {
    RestartRecovers(nodeId, p.disk, committed, e.order, e.healthy);
    CutConsistent(nodeId, p.disk, RestartWrites(p.disk, e.order, e.healthy), e.done, committed);
  }

  lemma NextConsistent(nodeId: Text, p: Process, e: Event, committed: Live)
    requires IsNodeId(nodeId) && Consistent(nodeId, p.disk, committed) && ValidEvent(nodeId, p, e)
    ensures Consistent(nodeId, Next(nodeId, p, e).disk, Commit(nodeId, p, e, committed))
  {
    match e
    case Apply(_, _, _, _) => ApplyConsistent(nodeId, p, e, committed);
    case Restart(_, _, _) => RestartConsistent(nodeId, p, e, committed);
    case Edit(_, _) => QuietIsAtRest(nodeId, p.disk, committed);
    case Crash =>
  }

  lemma CutKeepsVolumes(d: Disk, ws: seq<Disk>, done: nat)
    requires forall k | 0 <= k < |ws| :: d.volumes <= ws[k].volumes
    ensures d.volumes <= Cut(d, ws, done).disk.volumes
  {
  }

  lemma ApplyKeepsVolumes(nodeId: Text, d: Disk, generation: nat, schema: string, outcome: Outcome)
    ensures var ws := ApplyWrites(nodeId, d, generation, schema, outcome); forall k | 0 <= k < |ws| :: d.volumes <= ws[k].volumes
  {
    if outcome != StagingFails {
      var journalled := Journalled(Staged(nodeId, d, generation), |d.ops|, generation, VolumeName(nodeId, generation), schema);
      CutoverKeepsRecords(journalled, VolumeName(nodeId, generation), generation, schema, outcome);
    }
  }

  lemma NextKeepsVolumes(nodeId: Text, p: Process, e: Event)
    requires ValidEvent(nodeId, p, e)
    ensures p.disk.volumes <= Next(nodeId, p, e).disk.volumes
  {
    match e
    case Apply(generation, schema, outcome, done) =>
      ApplyKeepsVolumes(nodeId, p.disk, generation, schema, outcome);
      CutKeepsVolumes(p.disk, ApplyWrites(nodeId, p.disk, generation, schema, outcome), done);
    case Restart(order, healthy, done) =>
      MarksSpec(p.disk, order);
      var marks := MarkWrites(p.disk, order);
      RollbackKeepsVolumes(After(p.disk, marks), healthy);
      var ws := RestartWrites(p.disk, order, healthy);
      forall k | 0 <= k < |ws| ensures p.disk.volumes <= ws[k].volumes {
        assert ws[k] == if k < |marks| then marks[k] else RollbackWrites(After(p.disk, marks), healthy)[k - |marks|];
      }
      CutKeepsVolumes(p.disk, ws, done);
    case _ =>
  }

  /**
   In every run, from any Node at rest: each durable state is the committed one or within a single
   cutover away from it; with nothing under way the file and the registry row are exactly the
   committed ones, the file names the volume of the registry's generation, that volume exists, and
   no volume of an earlier generation has gone.
   */
  lemma {:induction false} CutoversAreAllOrNothing(nodeId: Text, p: Process, es: seq<Event>, committed: Live)
    requires IsNodeId(nodeId) && Consistent(nodeId, p.disk, committed) && ValidRun(nodeId, p, es)
    ensures var q := Run(nodeId, p, es);
            && Consistent(nodeId, q.disk, Committed(nodeId, p, es, committed))
            && (Quiet(q.disk.ops) ==> AtRest(nodeId, q.disk, Committed(nodeId, p, es, committed)))
            && p.disk.volumes <= q.disk.volumes
    decreases |es|
  {
    if es == [] {
      if Quiet(p.disk.ops) {
        QuietIsAtRest(nodeId, p.disk, committed);
      }
    } else {
      NextConsistent(nodeId, p, es[0], committed);
      NextKeepsVolumes(nodeId, p, es[0]);
      CutoversAreAllOrNothing(nodeId, Next(nodeId, p, es[0]), es[1..], Commit(nodeId, p, es[0], committed));
    }
  }

  /** The identity check on the volume never refuses a Node at rest (validateRuntimeIdentity). */
  lemma IdentityHolds(nodeId: Text, d: Disk, committed: Live)
    requires IsNodeId(nodeId) && AtRest(nodeId, d, committed)
    ensures ReadEnv(d.env, VOLUME_KEY) == Some(VolumeName(nodeId, d.node.generation))
  {
    VolumeNamePlain(nodeId, d.node.generation);
    NamedVolumeIsRead(d.env, VolumeName(nodeId, d.node.generation));
  }

  ghost predicate OnlyRecovery(es: seq<Event>) {
    forall k | 0 <= k < |es| :: es[k].Restart? || es[k].Crash?
  }

  lemma {:induction false} RecoveryCommitsNothing(nodeId: Text, p: Process, es: seq<Event>, committed: Live)
    requires ValidRun(nodeId, p, es) && OnlyRecovery(es)
    ensures Committed(nodeId, p, es, committed) == committed
    decreases |es|
  {
    if es != [] {
      RecoveryCommitsNothing(nodeId, Next(nodeId, p, es[0]), es[1..], committed);
    }
  }

  /**
   A cutover that dies after any of its writes, then any number of restarts that die too, then one
   that comes up: the Node is back on the file and the registry row it started from.
   */
  lemma DeadCutoverIsUndone(nodeId: Text, d: Disk, e: Event, es: seq<Event>, last: Event)
    requires IsNodeId(nodeId) && AtRest(nodeId, d, LiveOf(d))
    requires e.Apply? && ValidEvent(nodeId, Process(d, true), e) && !Next(nodeId, Process(d, true), e).up
    requires OnlyRecovery(es) && ValidRun(nodeId, Next(nodeId, Process(d, true), e), es)
    requires var p := Run(nodeId, Next(nodeId, Process(d, true), e), es);
             last.Restart? && last.healthy && ValidEvent(nodeId, p, last) && Next(nodeId, p, last).up
    ensures var q := Next(nodeId, Run(nodeId, Next(nodeId, Process(d, true), e), es), last);
            LiveOf(q.disk) == LiveOf(d) && Quiet(q.disk.ops)
  {
    var dead := Next(nodeId, Process(d, true), e);
    ApplyConsistent(nodeId, Process(d, true), e, LiveOf(d));
    CutoversAreAllOrNothing(nodeId, dead, es, LiveOf(d));
    RecoveryCommitsNothing(nodeId, dead, es, LiveOf(d));
    RestartConsistent(nodeId, Run(nodeId, dead, es), last, LiveOf(d));
  }

  // Without the guard

  /** Every interrupted record tells of a generation this Node once ran. */
  ghost predicate HonestJournals(nodeId: Text, d: Disk) {
    forall i | 0 <= i < |d.ops| && Interrupted(d.ops[i]) ::
      var j := d.ops[i].journal.value;
      j.fromVolume == VolumeName(nodeId, j.fromGeneration) && j.fromVolume in d.volumes && j.fromSchema != ""
  }

  lemma ReplaceTwice(env: Env, key: Text, a: Text, b: Text)
    requires ReplaceEnv(env, key, a).Some?
    ensures ReplaceEnv(ReplaceEnv(env, key, a).value, key, b) == ReplaceEnv(env, key, b)
  {
    ReplaceFinds(env, key, a);
    var i := FindLine(env, key).value;
    assert env[i := Line(key, a)][i := Line(key, b)] == env[i := Line(key, b)];
  }

  lemma SelectedAfter(ops: seq<Operation>, op: Operation)
    requires !Interrupted(op)
    ensures Selected(ops + [op]) == Selected(ops)
  {
    assert (ops + [op])[..|ops|] == ops;
  }

  lemma {:induction false} MarksNothing(d: Disk, order: seq<nat>)
    requires Below(order, |d.ops|) && forall i | 0 <= i < |d.ops| :: d.ops[i].state != Running
    ensures MarkWrites(d, order) == []
    decreases |order|
  {
    if order != [] {
      MarksNothing(d, order[1..]);
    }
  }

  lemma SteadySwitches(nodeId: Text, d: Disk, volume: Text)
    requires Steady(nodeId, d)
    ensures ReplaceEnv(d.env, VOLUME_KEY, volume).Some?
  {
  }

  lemma ClosedLast(ops: seq<Operation>, op: Operation, j: Option<Journal>)
    requires op == Operation(Running, false, None, false)
    ensures var s := (ops + [op])[|ops| := op.(journal := j)];
            s[|ops| := Closed(s[|ops|], true)] == ops + [Operation(Succeeded, false, None, false)]
  {
  }

  /** What a healthy application leaves behind, whatever records there were. */
  lemma HealthyEnd(nodeId: Text, d: Disk, generation: nat, schema: string, after: Disk)
    requires ReplaceEnv(d.env, VOLUME_KEY, VolumeName(nodeId, generation)).Some?
    requires after == After(d, ApplyWrites(nodeId, d, generation, schema, Healthy))
    ensures after.ops == d.ops + [Operation(Succeeded, false, None, false)] && after.node == Node(generation, schema)
    ensures ReplaceEnv(d.env, VOLUME_KEY, VolumeName(nodeId, generation)) == Some(after.env)
  {
    var s := Journalled(Staged(nodeId, d, generation), |d.ops|, generation, VolumeName(nodeId, generation), schema);
    var switched := ReplaceEnv(d.env, VOLUME_KEY, VolumeName(nodeId, generation)).value;
    HealthyLast(nodeId, d, generation, schema, s, switched, s.(env := switched, node := Node(generation, schema)));
    ClosedLast(d.ops, Operation(Running, false, None, false), s.ops[|d.ops|].journal);
  }

  lemma HealthyLast(nodeId: Text, d: Disk, generation: nat, schema: string, s: Disk, switched: Env, moved: Disk)
    requires s == Journalled(Staged(nodeId, d, generation), |d.ops|, generation, VolumeName(nodeId, generation), schema)
    requires ReplaceEnv(s.env, VOLUME_KEY, VolumeName(nodeId, generation)) == Some(switched)
    requires moved == s.(env := switched, node := Node(generation, schema))
    ensures After(d, ApplyWrites(nodeId, d, generation, schema, Healthy)) == UpdateOp(moved, |d.ops|, Closed(s.ops[|d.ops|], true))
  {
    HealthyWrites(nodeId, d, generation, schema, s, switched, moved);
  }

  /** The rollback of a record would be accepted on this environment. */
  predicate Accepted(env: Env, op: Operation)
    requires op.journal.Some?
  {
    ReplaceEnv(env, VOLUME_KEY, op.journal.value.fromVolume) == Some(op.journal.value.envHash.preimage)
  }

  /**
   Exactly when a successful cutover outlives the next healthy restart: there is no interrupted
   record left behind, or the environment has changed since the latest one was journalled. If it
   does not, the Node is back where that record started.
   */
  lemma SuccessSurvivesRestart(nodeId: Text, d: Disk, generation: nat, schema: string, order: seq<nat>, after: Disk)
    requires IsNodeId(nodeId) && Steady(nodeId, d) && HonestJournals(nodeId, d) && NextUnused(nodeId, d, generation)
    requires forall i | 0 <= i < |d.ops| :: d.ops[i].state != Running
    requires after == After(d, ApplyWrites(nodeId, d, generation, schema, Healthy)) && Below(order, |after.ops|)
    ensures LiveOf(After(after, RestartWrites(after, order, true))) == LiveOf(after)
            <==> Selected(d.ops).None? || !Accepted(d.env, d.ops[Selected(d.ops).value])
    ensures Selected(d.ops).Some? && Accepted(d.env, d.ops[Selected(d.ops).value]) ==>
              var j := d.ops[Selected(d.ops).value].journal.value;
              LiveOf(After(after, RestartWrites(after, order, true))) == Live(j.envHash.preimage, From(j))
  {
    SteadySwitches(nodeId, d, VolumeName(nodeId, generation));
    HealthyEnd(nodeId, d, generation, schema, after);
    RestartOf(nodeId, d, generation, schema, order, after);
  }

  lemma RestartOf(nodeId: Text, d: Disk, generation: nat, schema: string, order: seq<nat>, after: Disk)
    requires IsNodeId(nodeId) && HonestJournals(nodeId, d) && VolumeName(nodeId, generation) !in d.volumes
    requires forall i | 0 <= i < |d.ops| :: d.ops[i].state != Running
    requires after.ops == d.ops + [Operation(Succeeded, false, None, false)] && after.node == Node(generation, schema)
    requires ReplaceEnv(d.env, VOLUME_KEY, VolumeName(nodeId, generation)) == Some(after.env) && Below(order, |after.ops|)
    ensures LiveOf(After(after, RestartWrites(after, order, true))) == LiveOf(after)
            <==> Selected(d.ops).None? || !Accepted(d.env, d.ops[Selected(d.ops).value])
    ensures Selected(d.ops).Some? && Accepted(d.env, d.ops[Selected(d.ops).value]) ==>
              var j := d.ops[Selected(d.ops).value].journal.value;
              LiveOf(After(after, RestartWrites(after, order, true))) == Live(j.envHash.preimage, From(j))
  {
    SelectedAfter(d.ops, Operation(Succeeded, false, None, false));
    MarksNothing(after, order);
    var ws := RollbackWrites(after, true);
    assert RestartWrites(after, order, true) == ws;
    if Selected(d.ops).Some? {
      var i := Selected(d.ops).value;
      RollbackOf(nodeId, d, generation, after, i);
      assert d.ops[i].journal.value.fromGeneration != generation;
    }
  }

  /** The rollback of a record left behind, seen from the later generation. */
  lemma RollbackOf(nodeId: Text, d: Disk, generation: nat, after: Disk, i: nat)
    requires IsNodeId(nodeId) && HonestJournals(nodeId, d)
    requires Selected(d.ops) == Some(i) == Selected(after.ops) && i < |d.ops| <= |after.ops| && after.ops[i] == d.ops[i]
    requires ReplaceEnv(d.env, VOLUME_KEY, VolumeName(nodeId, generation)) == Some(after.env)
    ensures d.ops[i].journal.Some?
    ensures var j := d.ops[i].journal.value;
            LiveOf(After(after, RollbackWrites(after, true)))
            == if Accepted(d.env, d.ops[i]) then Live(j.envHash.preimage, From(j)) else LiveOf(after)
  {
    var j := d.ops[i].journal.value;
    VolumeNamePlain(nodeId, j.fromGeneration);
    ReplaceTwice(d.env, VOLUME_KEY, VolumeName(nodeId, generation), j.fromVolume);
  }

  /** A cutover to generation `g` dies once it is journalled, and the restart comes up unhealthy. */
  function Stale(nodeId: Text, d: Disk, g: nat, schema: string): Disk {
    var dead := Journalled(Staged(nodeId, d, g), |d.ops|, g, VolumeName(nodeId, g), schema);
    After(dead, RestartWrites(dead, [|d.ops|], false))
  }

  lemma StaleRecordStays(nodeId: Text, d: Disk, g: nat, schema: string)
    requires IsNodeId(nodeId) && AtRest(nodeId, d, LiveOf(d)) && schema != ""
    ensures var stale := Stale(nodeId, d, g, schema);
            && InFlight(nodeId, stale, |d.ops|, LiveOf(d)) && LiveOf(stale) == LiveOf(d)
            && |stale.ops| == |d.ops| + 1 && Interrupted(stale.ops[|d.ops|])
            && stale.ops[|d.ops|].journal.value.envHash.preimage == d.env
            && stale.ops[|d.ops|].journal.value.fromVolume == VolumeName(nodeId, d.node.generation)
            && Selected(stale.ops) == Some(|d.ops|)
  {
    var i := |d.ops|;
    var s, j, switched := Prepared(nodeId, d, LiveOf(d), g, schema);
    var marked := UpdateOp(s, i, s.ops[i].(state := NeedsAttention, restarted := true));
    assert MarkWrites(s, [i]) == [marked] by {
      assert [i][1..] == [];
    }
    assert InFlight(nodeId, marked, i, LiveOf(d));
    HashNeverRefuses(nodeId, marked, i, LiveOf(d));
    RollbackStates(nodeId, marked, i, LiveOf(d), false);
    assert RestartWrites(s, [i], false) == [marked] + RollbackWrites(marked, false);
  }

  /** A healthy restart over these records ends in this state. */
  ghost predicate RestartsTo(d: Disk, order: seq<nat>, last: Disk) {
    Below(order, |d.ops|) && last == After(d, RestartWrites(d, order, true))
  }

  lemma StaleUndone(nodeId: Text, d: Disk, g: nat, h: nat, schema: string, stale: Disk, after: Disk) returns (last: Disk)
    requires IsNodeId(nodeId) && AtRest(nodeId, d, LiveOf(d)) && schema != ""
    requires stale == Stale(nodeId, d, g, schema) && NextUnused(nodeId, stale, h)
    requires after == After(stale, ApplyWrites(nodeId, stale, h, schema, Healthy))
    ensures after.node == Node(h, schema) && RestartsTo(after, [|d.ops|, |d.ops| + 1], last)
    ensures LiveOf(last) == LiveOf(d) != LiveOf(after)
  {
    StaleRecordStays(nodeId, d, g, schema);
    SteadySwitches(nodeId, stale, VolumeName(nodeId, h));
    HealthyEnd(nodeId, stale, h, schema, after);
    StaleIsHonest(nodeId, stale, |d.ops|, LiveOf(d));
    SwitchBack(d.env, VolumeName(nodeId, d.node.generation), VolumeName(nodeId, d.node.generation));
    SuccessSurvivesRestart(nodeId, stale, h, schema, [|d.ops|, |d.ops| + 1], after);
    last := After(after, RestartWrites(after, [|d.ops|, |d.ops| + 1], true));
  }

  /** There always is a next unused generation, as the volumes are finite. */
  lemma {:induction false} NextUnusedFrom(nodeId: Text, d: Disk, from: nat, left: set<Text>) returns (h: nat)
    requires d.node.generation < from && forall g | d.node.generation < g < from :: VolumeName(nodeId, g) in d.volumes
    requires forall g | g >= from && VolumeName(nodeId, g) in d.volumes :: VolumeName(nodeId, g) in left
    ensures NextUnused(nodeId, d, h)
    decreases left
  {
    if VolumeName(nodeId, from) !in d.volumes {
      h := from;
    } else {
      forall g | g >= from + 1 ensures VolumeName(nodeId, g) != VolumeName(nodeId, from) {
        VolumeNameInjective(nodeId, g, from);
      }
      h := NextUnusedFrom(nodeId, d, from + 1, left - {VolumeName(nodeId, from)});
    }
  }

  /**
   From any Node at rest: a cutover dies after its journal entry, the restart comes up unhealthy and
   leaves the record interrupted, the next cutover succeeds, and the restart after that puts the
   Node back before both.
   */
  lemma StaleRecoveryUndoesSuccess(nodeId: Text, d: Disk, schema: string) returns (h: nat, stale: Disk, after: Disk, last: Disk)
    requires IsNodeId(nodeId) && AtRest(nodeId, d, LiveOf(d)) && schema != ""
    ensures stale == Stale(nodeId, d, d.node.generation + 1, schema) && NextUnused(nodeId, stale, h)
    ensures after == After(stale, ApplyWrites(nodeId, stale, h, schema, Healthy)) && after.node == Node(h, schema)
    ensures RestartsTo(after, [|d.ops|, |d.ops| + 1], last) && LiveOf(last) == LiveOf(d) != LiveOf(after)
  {
    stale := Stale(nodeId, d, d.node.generation + 1, schema);
    h := NextUnusedFrom(nodeId, stale, stale.node.generation + 1, stale.volumes);
    after := After(stale, ApplyWrites(nodeId, stale, h, schema, Healthy));
    last := StaleUndone(nodeId, d, d.node.generation + 1, h, schema, stale, after);
  }

  /** A new Node is at rest. */
  lemma NewNodeAtRest(nodeId: Text, generation: nat, schema: string)
    requires schema != ""
    ensures var volume := VolumeName(nodeId, generation);
            var d := Disk([Line(VOLUME_KEY, volume)], Node(generation, schema), [], {volume});
            AtRest(nodeId, d, LiveOf(d))
  {
    var volume := VolumeName(nodeId, generation);
    var env := [Line(VOLUME_KEY, volume)];
    LineIsLine(VOLUME_KEY, volume);
    assert FindLine(env, VOLUME_KEY) == Some(0);
    assert env[0 := Line(VOLUME_KEY, volume)] == env;
  }

  /** A Node whose volume line an operator wrote in quotes. */
  function QuotedNode(nodeId: Text, generation: nat, schema: string): Disk {
    Disk([QuotedLine(VolumeName(nodeId, generation))], Node(generation, schema), [], {VolumeName(nodeId, generation)})
  }

  /** The journalled cutover of that Node dies right after it switched the file. */
  lemma QuotedSwitch(nodeId: Text, generation: nat, schema: string, g: nat, s: Disk)
    requires IsNodeId(nodeId) && s == Journalled(Staged(nodeId, QuotedNode(nodeId, generation, schema), g), 0, g, VolumeName(nodeId, g), schema)
    ensures ReplaceEnv(s.env, VOLUME_KEY, VolumeName(nodeId, g)) == Some([Line(VOLUME_KEY, VolumeName(nodeId, g))])
    ensures s.ops == [Operation(Running, false, Some(JournalFor(Staged(nodeId, QuotedNode(nodeId, generation, schema), g), g, VolumeName(nodeId, g), schema)), false)]
    ensures s.ops[0].journal.value.fromVolume == VolumeName(nodeId, generation)
    ensures ApplyWrites(nodeId, QuotedNode(nodeId, generation, schema), g, schema, Healthy)[3]
            == s.(env := [Line(VOLUME_KEY, VolumeName(nodeId, g))])
  {
    var env := s.env;
    QuotedLineIsNotRestored(nodeId, generation, VolumeName(nodeId, g));
    assert IsLineOf(env[0], VOLUME_KEY);
    assert FindLine(env, VOLUME_KEY) == Some(0);
    assert env[0 := Line(VOLUME_KEY, VolumeName(nodeId, g))] == [Line(VOLUME_KEY, VolumeName(nodeId, g))];
    Journals(nodeId, QuotedNode(nodeId, generation, schema), g, schema, Healthy, s);
    HealthySwitch(s, 0, VolumeName(nodeId, g), g, schema, [Line(VOLUME_KEY, VolumeName(nodeId, g))]);
  }

  /**
   That Node is not recovered: the restart refuses the rollback, as the hash does not match, and
   leaves the file on the new volume and the registry on the old generation.
   */
  lemma QuotedLineIsNotRolledBack(nodeId: Text, generation: nat, schema: string, g: nat, healthy: bool)
    requires IsNodeId(nodeId) && schema != "" && g != generation
    ensures var dead := ApplyWrites(nodeId, QuotedNode(nodeId, generation, schema), g, schema, Healthy)[3];
            Below([0], |dead.ops|)
            && var last := After(dead, RestartWrites(dead, [0], healthy));
               && ReadEnv(last.env, VOLUME_KEY) == Some(VolumeName(nodeId, g)) && last.node == Node(generation, schema)
               && VolumeName(nodeId, g) != VolumeName(nodeId, generation)
  {
    var s := Journalled(Staged(nodeId, QuotedNode(nodeId, generation, schema), g), 0, g, VolumeName(nodeId, g), schema);
    var dead := s.(env := [Line(VOLUME_KEY, VolumeName(nodeId, g))]);
    QuotedSwitch(nodeId, generation, schema, g, s);
    var marked := UpdateOp(dead, 0, dead.ops[0].(state := NeedsAttention, restarted := true));
    assert [0][1..] == [];
    assert MarkWrites(dead, [0]) == [marked];
    assert Selected(marked.ops) == Some(0);
    QuotedLineIsNotRestored(nodeId, generation, VolumeName(nodeId, g));
    assert RollbackWrites(marked, healthy) == [];
    NewNodeAtRest(nodeId, g, schema);
    VolumeNamePlain(nodeId, g);
    NamedVolumeIsRead(dead.env, VolumeName(nodeId, g));
    VolumeNameInjective(nodeId, g, generation);
  }

  lemma StaleIsHonest(nodeId: Text, d: Disk, i: nat, committed: Live)
    requires InFlight(nodeId, d, i, committed) && Interrupted(d.ops[i])
    ensures HonestJournals(nodeId, d) && forall k | 0 <= k < |d.ops| :: d.ops[k].state != Running
  {
    assert forall k | 0 <= k < |d.ops| && k != i :: !Open(d.ops[k]);
  }
}
