/** Snapshots over whole runs: one that was taken is held until it is itself released, and what it reads never changes
    (db/db_impl.cc, db/snapshot.h). */
module SnapshotRuns {
  import opened Keys
  import opened Contents
  import opened Versions
  import opened Compactions
  import opened VersionBuilder
  import opened Store
  import opened StoreCompaction
  import opened StoreRuns

  /** Where the snapshot taken at step j stands in the list before step n, unless it has been released. */
  ghost function Place(states: seq<Db>, actions: seq<Action>, j: nat, n: nat): Option<nat>
    requires j < n <= |actions| < |states|
    decreases n
  {
    if n == j + 1 then Some(|states[j].snapshots|) else
    match Place(states, actions, j, n - 1)
    case None => None
    case Some(p) =>
      match actions[n - 1]
      case DropSnapshot(i) => if i == p then None else if i < p then Some(p - 1) else Some(p)
      case _ => Some(p)
  }

  lemma {:induction false} HistoryGrows(actions: seq<Action>, j: nat)
    requires j <= |actions|
    ensures |History(actions[..j])| <= |History(actions)| && History(actions)[..|History(actions[..j])|] == History(actions[..j])
  {
    if j == |actions| {
      assert actions[..j] == actions;
    } else {
      var n := |actions| - 1;
      HistoryGrows(actions[..n], j);
      assert actions[..n][..j] == actions[..j];
    }
  }

  /** A snapshot that was taken and not itself released is held still, with the sequence number it was taken at. */
  lemma {:induction false} StillHeld(states: seq<Db>, actions: seq<Action>, j: nat, n: nat)
    requires Run(states, actions) && j < n <= |actions| && actions[j].TakeSnapshot? && Place(states, actions, j, n).Some?
    ensures var p := Place(states, actions, j, n).value;
            p < |states[n].snapshots| && states[n].snapshots[p] == states[j].lastSequence
    decreases n
  {
    hide WriteStep, SwitchStep, FlushStep, MoveStep, CompactStep;
    assert Step(states[n - 1], actions[n - 1], states[n]);
    if n > j + 1 {
      StillHeld(states, actions, j, n - 1);
      if !actions[n - 1].TakeSnapshot? && !actions[n - 1].DropSnapshot? {
        SameSnapshots(states[n - 1], actions[n - 1], states[n]);
      }
    }
  }

  lemma SameSnapshots(db: Db, a: Action, db': Db)
    requires Step(db, a, db') && !a.TakeSnapshot? && !a.DropSnapshot?
    ensures db'.snapshots == db.snapshots
  {
  }

  /** And only such are held. */
  lemma {:induction false} HeldWasTaken(states: seq<Db>, actions: seq<Action>, n: nat, p: nat) returns (j: nat)
    requires Run(states, actions) && n <= |actions| && p < |states[n].snapshots|
    ensures j < n && actions[j].TakeSnapshot? && Place(states, actions, j, n) == Some(p)
    decreases n
  {
    hide WriteStep, SwitchStep, FlushStep, MoveStep, CompactStep;
    assert Step(states[n - 1], actions[n - 1], states[n]);
    match actions[n - 1] {
      case TakeSnapshot =>
        if p == |states[n - 1].snapshots| {
          j := n - 1;
        } else {
          j := HeldWasTaken(states, actions, n - 1, p);
        }
      case DropSnapshot(i) => j := HeldWasTaken(states, actions, n - 1, if p < i then p else p + 1);
      case _ =>
        SameSnapshots(states[n - 1], actions[n - 1], states[n]);
        j := HeldWasTaken(states, actions, n - 1, p);
    }
  }

  /** Repeatable reads: whatever else happens, flushes and merges among it, as long as the snapshot taken at step j is not
      itself released a read at it finds what the map of the operations before step j holds. */
  lemma SnapshotReads(states: seq<Db>, actions: seq<Action>, j: nat, user: Bytes)
    requires Run(states, actions) && j < |actions| && actions[j].TakeSnapshot? && Place(states, actions, j, |actions|).Some?
    requires forall i :: 0 <= i < |actions| ==> |states[i].levels| == NUM_LEVELS && Closed(states[i], actions[i])
    ensures var now, s := states[|actions|], states[j].lastSequence;
            && s in now.snapshots && s == |History(actions[..j])|
            && ReadAt(All(now), user, s) == Lookup(Replay(History(actions[..j])), user)
  {
    hide Step, Closed, Inv, ReadAt, Replay, All, Lookup;
    var now, s, before := states[|actions|], states[j].lastSequence, History(actions[..j]);
    StillHeld(states, actions, j, |actions|);
    assert s in now.snapshots;
    RunKeepsInv(states, actions);
    RunKeepsInv(states[..j + 1], actions[..j]);
    HistoryLength(states[j], before);
    HistoryGrows(actions, j);
    ReadersAgree(now, History(actions), user, s);
  }

  lemma HistoryLength(db: Db, history: seq<Op>)
    requires Inv(db, history)
    ensures |history| == db.lastSequence
  {
  }

  /** The readers a merge must not disturb: those at a snapshot, or, with none held, those at the last sequence number. */
  ghost predicate BelowAll(db: Db, n: nat) {
    if db.snapshots == [] then n <= db.lastSequence else forall s :: s in db.snapshots ==> n <= s
  }

  /** What a merge writes: of the entries of its inputs all but those that a newer one for the same user key hides from every
      reader, and the deletion markers every reader is past that no deeper level has a use for. */
  lemma MergeWritesExactly(db: Db, level: nat, in0: seq<File>, in1: seq<File>, merged: seq<Entry>, outputs: seq<File>, db': Db, e: Entry)
    requires Shape(db) && CompactStep(db, level, in0, in1, merged, outputs, db') && e in merged
    ensures e !in Flatten(outputs) <==>
              || (exists a :: a in merged && a.key.user == e.key.user && KeyLess(a.key, e.key) && BelowAll(db, a.key.seqno))
              || (e.key.kind == Deletion && BelowAll(db, e.key.seqno) && BaseLevel(db.levels, level, e.key.user))
  {
    OldestBelowAll(db);
    hide Shape, Kept, ValidPick, MergedInputs, Outputs, LevelsEdited, BelowAll, Oldest;
    SortedInputs(in0, in1, merged);
    KeptExactly(merged, Oldest(db), Base(db.levels, level), e);
  }

  lemma OldestBelowAll(db: Db)
    requires Shape(db)
    ensures forall n: nat :: BelowAll(db, n) <==> n <= Oldest(db)
  {
    hide ValidLevels, UniqueNumbers, SortedBySmallest, Sorted;
    if db.snapshots != [] {
      assert db.snapshots[0] in db.snapshots;
      forall s | s in db.snapshots ensures db.snapshots[0] <= s {
        var i :| 0 <= i < |db.snapshots| && db.snapshots[i] == s;
      }
    }
  }

  lemma SortedInputs(in0: seq<File>, in1: seq<File>, merged: seq<Entry>)
    requires MergedInputs(in0, in1, merged)
    ensures Sorted(merged)
  {
  }
}
