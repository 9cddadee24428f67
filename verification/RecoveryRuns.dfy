/** Runs with crashes that merge only while no snapshot is held: nothing need be asked of what their compactions pick
    (db/db_impl.cc, db/version_set.cc). */
module RecoveryRuns {
  import opened Keys
  import opened Contents
  import opened Versions
  import opened VersionBuilder
  import opened Store
  import opened StoreCompaction
  import opened StoreRuns
  import opened Manifests
  import opened Recovery

  /** No user key lies in the ranges of two files of a level from 1 on, in the store or in what the manifest names. */
  ghost predicate Spread(m: Machine) {
    match m.phase
    case Down => NamesSpread(m.disk.manifest)
    case Opening(_, _, next, _) => NamesSpread(m.disk.manifest) && UserDisjoint(next.levels)
    case Running(db, _, _, _) => UserDisjoint(db.levels)
  }

  ghost predicate NamesSpread(manifest: seq<Record>) {
    forall levels :: ManifestHolds(manifest, levels) ==> UserDisjoint(levels)
  }

  ghost predicate NoSnapshotMerge(m: Machine, act: Act) {
    act.Internal? && act.action.Compact? && m.phase.Running? ==> m.phase.db.snapshots == []
  }

  lemma ManifestNames(manifest: seq<Record>, levels: Levels)
    requires ManifestOk(manifest, levels) && UserDisjoint(levels)
    ensures NamesSpread(manifest)
  {
    hide UserDisjoint;
    forall other | ManifestHolds(manifest, other) ensures UserDisjoint(other) {
      LevelsUnique(manifest, levels, other);
    }
  }

  lemma OpenedSpread(disk: Disk, base: Levels, files: seq<File>, next: Db, newLog: nat)
    requires NamesSpread(disk.manifest) && Recovers(disk, base, files, next, newLog)
    ensures UserDisjoint(next.levels)
  {
    hide UserDisjoint, ManifestHolds, Covers, NewTables, LevelsEdited;
    assert UserDisjoint(base);
    NewTablesReplace(base, files, next.levels);
    ReplacedUserDisjoint(base, NothingRemoved(), 0, Files(files), next.levels);
  }

  /** Every step keeps the files spread, and what it picks is closed under user key. */
  lemma StepKeepsSpread(m: Machine, history: seq<Op>, act: Act, m': Machine)
    requires Safe(m, history) && Spread(m) && DurableStep(m, act, m') && NoSnapshotMerge(m, act)
    ensures ClosedAct(m, act) && Spread(m')
  {
    hide UserDisjoint, Recovers, NamesSpread, Store.Inv, ManifestOk, LogsHold, Durable;
    match act
    case Internal(a) => InternalSpread(m, history, a, m');
    case Crash =>
      if m.phase.Running? {
        ManifestNames(m.disk.manifest, m.phase.db.levels);
      }
    case Open(base, files, next, newLog) => OpenedSpread(m.disk, base, files, next, newLog);
    case _ =>
  }

  lemma InternalSpread(m: Machine, history: seq<Op>, a: Action, m': Machine)
    requires Safe(m, history) && Spread(m) && InternalStep(m, a, m') && NoSnapshotMerge(m, Internal(a))
    ensures ClosedAct(m, Internal(a)) && Spread(m')
  {
    hide UserDisjoint, Consistent, Durable, Records;
    StepUserDisjoint(m.phase.db, history[..m.phase.db.lastSequence], a, m'.phase.db);
  }

  ghost predicate SnapshotFreeRun(states: seq<Machine>, acts: seq<Act>) {
    && |states| == |acts| + 1 && states[0] == Created()
    && forall i :: 0 <= i < |acts| ==> DurableStep(states[i], acts[i], states[i + 1]) && NoSnapshotMerge(states[i], acts[i])
  }

  /** Whatever such a run did and wherever it crashed, the committed operations are all there. */
  lemma {:induction false} SnapshotFreeRunSafe(states: seq<Machine>, acts: seq<Act>)
    requires SnapshotFreeRun(states, acts)
    ensures Safe(states[|acts|], Committed(acts)) && Spread(states[|acts|])
  {
    hide DurableStep, NoSnapshotMerge, Safe, Spread, Extend;
    if acts == [] {
      CreatedSafe();
    } else {
      var n := |acts| - 1;
      SnapshotFreeRunSafe(states[..n + 1], acts[..n]);
      StepKeepsSpread(states[n], Committed(acts[..n]), acts[n], states[n + 1]);
      StepKeepsSafe(states[n], Committed(acts[..n]), acts[n], states[n + 1]);
    }
  }

  lemma CreatedSafe()
    ensures Safe(Created(), []) && Spread(Created())
  {
    hide ManifestOk, Durable, ManifestHolds;
    CreatedDurable();
    CreatedManifest();
    var levels: Levels := seq(NUM_LEVELS, _ => []);
    ManifestNames(Created().disk.manifest, levels);
  }

  /** After such a run a store that is running and has no write in progress answers every read as a plain map of all
      operations ever committed does. */
  lemma SnapshotFreeReads(states: seq<Machine>, acts: seq<Act>, user: Bytes)
    requires SnapshotFreeRun(states, acts) && states[|acts|].phase.Running? && states[|acts|].phase.pending.None?
    ensures var db := states[|acts|].phase.db;
            db.lastSequence == |Committed(acts)|
            && ReadAt(All(db), user, db.lastSequence) == Lookup(Replay(Committed(acts)), user)
  {
    hide DurableStep, NoSnapshotMerge, Safe, Spread;
    SnapshotFreeRunSafe(states, acts);
    QuietReads(states[|acts|], Committed(acts), user);
  }
}
