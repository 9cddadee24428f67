/** Writer threads and the store together: each group committed is one write step of the store, so the store's history is
    that of the commits (db/db_impl.cc). */
module CommitHistory {
  import opened Keys
  import opened Contents
  import opened Versions
  import opened Store
  import opened StoreCompaction
  import opened StoreRuns
  import opened GroupCommit

  datatype Joint = Joint(threads: GroupCommit.State, db: Db)

  /** A thread's step, or one of the store's own. */
  datatype Move = Thread(act: GroupCommit.Act) | Inside(action: Action)

  /** The record a leader writes goes to the memtable; no other step of a thread touches the store. Log writes succeed. */
  ghost predicate JointStep(j: Joint, m: Move, j': Joint) {
    match m
    case Thread(a) =>
      && GroupCommit.Step(j.threads, a, j'.threads)
      && if a.Logged?
         then a.status == Fine && j'.threads.commits != []
              && WriteStep(j.db, j'.threads.commits[|j'.threads.commits| - 1].ops, j'.db)
         else j'.db == j.db
    case Inside(a) =>
      && j'.threads == j.threads && !a.Write? && |j.db.levels| == NUM_LEVELS && Store.Step(j.db, a, j'.db) && Closed(j.db, a)
  }

  ghost predicate JointInv(j: Joint) {
    GroupCommit.Inv(j.threads) && Store.Inv(j.db, Total(j.threads.commits))
  }

  lemma SameCommits(s: GroupCommit.State, a: GroupCommit.Act, s': GroupCommit.State)
    requires GroupCommit.Step(s, a, s')
    ensures if a.Logged? then s'.commits != [] && s'.commits[..|s'.commits| - 1] == s.commits else s'.commits == s.commits
  {
    hide IsGroup, Queued, Joined;
  }

  /** The operations of the commits, in order, are the history of the store. */
  lemma JointStepKeepsInv(j: Joint, m: Move, j': Joint)
    requires JointInv(j) && JointStep(j, m, j')
    ensures JointInv(j')
  {
    hide GroupCommit.Inv, Store.Inv, GroupCommit.Step, Store.Step, WriteStep, Closed;
    match m
    case Thread(a) =>
      GroupCommit.StepKeepsInv(j.threads, a, j'.threads);
      SameCommits(j.threads, a, j'.threads);
      if a.Logged? {
        WriteKeepsInv(j.db, Total(j.threads.commits), j'.threads.commits[|j'.threads.commits| - 1].ops, j'.db);
      }
    case Inside(a) =>
      StoreCompaction.StepKeepsInv(j.db, Total(j.threads.commits), a, j'.db);
  }

  ghost predicate JointRun(states: seq<Joint>, moves: seq<Move>) {
    && |states| == |moves| + 1 && states[0].threads == Start() && Initial(states[0].db)
    && forall i :: 0 <= i < |moves| ==> JointStep(states[i], moves[i], states[i + 1])
  }

  lemma {:induction false} JointRunInv(states: seq<Joint>, moves: seq<Move>)
    requires JointRun(states, moves)
    ensures JointInv(states[|moves|])
  {
    hide JointStep, GroupCommit.Inv, Store.Inv;
    if moves == [] {
      StartInv();
      InitialInv(states[0].db);
      assert Total([]) == [];
    } else {
      var n := |moves| - 1;
      JointRunInv(states[..n + 1], moves[..n]);
      JointStepKeepsInv(states[n], moves[n], states[n + 1]);
    }
  }

  /** Commit c is the one and only commit of a writer's batch, which stands in the history on its own sequence numbers. */
  ghost predicate CommittedAt(s: GroupCommit.State, k: nat, c: nat) {
    && k < |s.requests| && s.requests[k].batch.Some? && c < |s.commits| && Within(s.commits[c], k) && s.commits[c].status == Fine
    && (forall i :: 0 <= i < |s.commits| && i != c ==> !Within(s.commits[i], k))
    && var first, batch := FirstOf(s, s.commits[c], k), s.requests[k].batch.value;
       && 1 <= first && first - 1 + |batch| <= |Total(s.commits)|
       && Total(s.commits)[first - 1..first - 1 + |batch|] == batch
  }

  /** A writer with a batch that has left the queue and has been told that the batch is in. */
  ghost predicate Acknowledged(s: GroupCommit.State, k: nat) {
    && k < Gone(s) && k < |s.requests| && s.requests[k].batch.Some? && HasOutcome(s, k) && Outcome(s, k) == Fine
  }

  lemma AcknowledgedCommitted(s: GroupCommit.State, k: nat) returns (c: nat)
    requires GroupCommit.Inv(s) && Acknowledged(s, k)
    ensures CommittedAt(s, k, c)
  {
    hide GroupCommit.Inv, Total, FirstOf;
    c := CommittedOnce(s, k);
  }

  /** Over every interleaving of threads and of the store's own steps: reads give what the map of all commits in order
      holds, and the batch of a writer told that it is in stands in that history once. */
  lemma AcknowledgedWritesRead(states: seq<Joint>, moves: seq<Move>, k: nat, user: Bytes) returns (c: nat)
    requires JointRun(states, moves) && Acknowledged(states[|moves|].threads, k)
    ensures CommittedAt(states[|moves|].threads, k, c)
    ensures var (s, db) := (states[|moves|].threads, states[|moves|].db);
            db.lastSequence == |Total(s.commits)| && ReadAt(All(db), user, db.lastSequence) == Lookup(Replay(Total(s.commits)), user)
  {
    JointRunInv(states, moves);
    hide JointStep, JointInv, Total, Replay, ReadAt, CommittedAt, Acknowledged;
    InvParts(states[|moves|]);
    c := AcknowledgedCommitted(states[|moves|].threads, k);
    HistoryReads(states[|moves|], user);
  }

  lemma InvParts(j: Joint)
    requires JointInv(j)
    ensures GroupCommit.Inv(j.threads)
  {
  }

  lemma HistoryReads(j: Joint, user: Bytes)
    requires JointInv(j)
    ensures j.db.lastSequence == |Total(j.threads.commits)|
    ensures ReadAt(All(j.db), user, j.db.lastSequence) == Lookup(Replay(Total(j.threads.commits)), user)
  {
    hide GroupCommit.Inv, ReadAt, Replay, Total, All, Recorded, Agrees, Shape, NewestAbove;
    var history := Total(j.threads.commits);
    ReadersAgree(j.db, history, user, j.db.lastSequence);
    assert history[..|history|] == history;
  }
}
