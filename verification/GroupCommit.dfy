/** Group commit: writer threads queue up, the one at the front commits a group for all, and every
    interleaving of threads commits each batch once, in queue order (db/db_impl.cc). */
module GroupCommit {
  import opened Keys
  import opened Store
  import opened WriteBatches

  // What a group holds.

  /** One call of Write: its operations, none for a forced memtable switch, and whether it asks for a sync. */
  datatype Request = Request(batch: Option<seq<Op>>, sync: bool)

  function OpsOf(r: Request): seq<Op> {
    if r.batch.Some? then r.batch.value else []
  }

  function Joined(rs: seq<Request>): seq<Op> {
    if rs == [] then [] else Joined(rs[..|rs| - 1]) + OpsOf(rs[|rs| - 1])
  }

  function ByteSize(r: Request): nat {
    if r.batch.Some? then HEADER + |EncodeOps(r.batch.value)| else 0
  }

  function TotalSize(rs: seq<Request>): nat {
    if rs == [] then 0 else TotalSize(rs[..|rs| - 1]) + ByteSize(rs[|rs| - 1])
  }

  // The most a group led by a batch of this size may grow to.
  function SizeLimit(size: nat): nat {
    if size <= 128 * 1024 then size + 128 * 1024 else 1024 * 1024
  }

  /** Whether the request after the first n of the queue joins their group. */
  predicate Joins(queue: seq<Request>, n: nat)
    requires 0 < n < |queue|
  {
    && (queue[n].sync ==> queue[0].sync)
    && (queue[n].batch.Some? ==> TotalSize(queue[..n + 1]) <= SizeLimit(ByteSize(queue[0])))
  }

  /** The group is the longest run of requests that each join. */
  ghost predicate IsGroup(queue: seq<Request>, n: nat) {
    && 0 < n <= |queue| && queue[0].batch.Some?
    && (forall k :: 0 < k < n ==> Joins(queue, k))
    && (n < |queue| ==> !Joins(queue, n))
  }

  /** A non-sync leader never carries a sync write. */
  lemma NoSyncUnderNonSync(queue: seq<Request>, n: nat, k: nat)
    requires IsGroup(queue, n) && k < n && queue[k].sync
    ensures queue[0].sync
  {
    if k > 0 {
      assert Joins(queue, k);
    }
  }

  datatype Writer = Writer(batch: Option<WriteBatch>, sync: bool)

  // What that comes to, in bytes.

  lemma {:induction false} TotalSizeAdds(a: seq<Request>, b: seq<Request>)
    ensures TotalSize([]) == 0 && (forall r: Request :: TotalSize([r]) == ByteSize(r))
    ensures TotalSize(a + b) == TotalSize(a) + TotalSize(b)
  {
    assert forall r: Request :: [r][..0] == [];
    if b == [] {
      assert a + b == a;
    } else {
      TotalSizeAdds(a, b[..|b| - 1]);
      assert (a + b)[..|a + b| - 1] == a + b[..|b| - 1];
    }
  }

  /** A group is as large as one batch, or it takes up at most 128 KB more than a small leader's batch, or 1 MB. */
  lemma {:induction false} GroupBounded(queue: seq<Request>, n: nat)
    requires IsGroup(queue, n)
    ensures TotalSize(queue[..n]) <= TotalSize(queue[..1]) ||
            TotalSize(queue[..n]) <= if ByteSize(queue[0]) <= 131072 then ByteSize(queue[0]) + 131072 else 1048576
  {
    PrefixBounded(queue, n, n);
  }

  lemma {:induction false} PrefixBounded(queue: seq<Request>, n: nat, k: nat)
    requires IsGroup(queue, n) && 0 < k <= n
    ensures TotalSize(queue[..k]) <= TotalSize(queue[..1]) || TotalSize(queue[..k]) <= SizeLimit(ByteSize(queue[0]))
  {
    if k > 1 {
      PrefixBounded(queue, n, k - 1);
      assert Joins(queue, k - 1);
      assert queue[..k][..k - 1] == queue[..k - 1];
    }
  }

  /** Nobody is kept waiting without need: if all batches together are within the limit, and none asks to be synced unless the
      leader does, the group is the whole queue. */
  lemma WholeQueueJoins(queue: seq<Request>, n: nat)
    requires IsGroup(queue, n)
    requires TotalSize(queue) <= if ByteSize(queue[0]) <= 131072 then ByteSize(queue[0]) + 131072 else 1048576
    requires queue[0].sync || forall k :: 0 <= k < |queue| ==> !queue[k].sync
    ensures n == |queue|
  {
    hide TotalSize, ByteSize;
    if n < |queue| {
      PrefixSmaller(queue, n + 1);
    }
  }

  lemma PrefixSmaller(queue: seq<Request>, k: nat)
    requires k <= |queue|
    ensures TotalSize(queue[..k]) <= TotalSize(queue)
  {
    TotalSizeAdds(queue[..k], queue[k..]);
    hide TotalSize;
    assert queue[..k] + queue[k..] == queue;
  }

  ghost predicate Asks(w: Writer, r: Request)
    reads if w.batch.Some? then {w.batch.value} else {}
  {
    && w.sync == r.sync && w.batch.Some? == r.batch.Some?
    && (w.batch.Some? ==> w.batch.value.Valid() && w.batch.value.ops == r.batch.value)
  }

  /** The requests the queued writers stand for. */
  ghost predicate Stands(writers: seq<Writer>, queue: seq<Request>)
    reads set w | w in writers && w.batch.Some? :: w.batch.value
  {
    |writers| == |queue| && forall i :: 0 <= i < |writers| ==> writers[i] in writers && Asks(writers[i], queue[i])
  }

  lemma SizeIs(b: WriteBatch)
    requires b.Valid()
    ensures |b.rep| == HEADER + |EncodeOps(b.ops)|
  {
  }

  lemma OneMore(queue: seq<Request>, n: nat)
    requires n < |queue|
    ensures Joined(queue[..n + 1]) == Joined(queue[..n]) + OpsOf(queue[n])
    ensures TotalSize(queue[..n + 1]) == TotalSize(queue[..n]) + ByteSize(queue[n])
  {
    assert queue[..n + 1][..n] == queue[..n];
  }

  lemma {:induction false} JoinedGrows(queue: seq<Request>, n: nat)
    requires n <= |queue|
    ensures |Joined(queue[..n])| <= |Joined(queue)|
    decreases |queue| - n
  {
    if n < |queue| {
      OneMore(queue, n);
      JoinedGrows(queue, n + 1);
    } else {
      assert queue[..n] == queue;
    }
  }

  lemma OneMoreOps(queue: seq<Request>, n: nat)
    requires n < |queue|
    ensures OpsOf(queue[n]) == if queue[n].batch.Some? then queue[n].batch.value else []
    ensures ByteSize(queue[n]) == if queue[n].batch.Some? then HEADER + |EncodeOps(queue[n].batch.value)| else 0
  {
  }

  lemma FirstAlone(queue: seq<Request>)
    requires queue != [] && queue[0].batch.Some?
    ensures Joined(queue[..1]) == queue[0].batch.value
    ensures TotalSize(queue[..1]) == ByteSize(queue[0]) == HEADER + |EncodeOps(queue[0].batch.value)|
    ensures forall size: nat :: SizeLimit(size) == if size <= 128 * 1024 then size + 128 * 1024 else 1024 * 1024
  {
    OneMore(queue, 0);
  }

  lemma JoinsWhen(queue: seq<Request>, n: nat)
    requires 0 < n < |queue|
    ensures Joins(queue, n) <==>
              && (queue[n].sync ==> queue[0].sync)
              && (queue[n].batch.Some? ==> TotalSize(queue[..n + 1]) <= SizeLimit(ByteSize(queue[0])))
  {
  }

  /** BuildBatchGroup: the batch to commit and how many writers it is for. The first batch is used as it is
      when no other operations join it, and is copied to a batch of the database's own otherwise. */
  method BuildBatchGroup(writers: seq<Writer>, tmp: WriteBatch, ghost queue: seq<Request>) returns (result: WriteBatch, n: nat)
    requires writers != [] && writers[0].batch.Some? && Stands(writers, queue)
    requires forall w :: w in writers && w.batch.Some? ==> w.batch.value != tmp
    requires tmp.Valid() && tmp.ops == [] && |Joined(queue)| < Coding.TWO32
    modifies tmp
    ensures Stands(writers, queue) && IsGroup(queue, n)
    ensures result.Valid() && result.ops == Joined(queue[..n])
    ensures result == tmp || result == writers[0].batch.value
  {
    hide EncodeOps, Joins, Joined, TotalSize, ByteSize, SizeLimit, WriteBatch.Valid;
    var first := writers[0];
    assert Asks(first, queue[0]);
    result := first.batch.value;
    SizeIs(result);
    var size := |result.rep|;
    var maxSize := 1024 * 1024;
    if size <= 128 * 1024 {
      maxSize := size + 128 * 1024;
    }
    n := 1;
    FirstAlone(queue);
    while n < |writers|
      invariant 1 <= n <= |writers| && Stands(writers, queue)
      invariant size == TotalSize(queue[..n]) && maxSize == SizeLimit(ByteSize(queue[0]))
      invariant forall k :: 0 < k < n ==> Joins(queue, k)
      invariant result.Valid() && result.ops == Joined(queue[..n])
      invariant result == tmp || (result == first.batch.value && tmp.Valid() && tmp.ops == [])
    {
      var w := writers[n];
      assert Asks(w, queue[n]);
      JoinsWhen(queue, n);
      if w.sync && !first.sync {
        break;
      }
      OneMore(queue, n);
      OneMoreOps(queue, n);
      JoinedGrows(queue, n + 1);
      if w.batch.Some? {
        SizeIs(w.batch.value);
        size := size + |w.batch.value.rep|;
        if size > maxSize {
          break;
        }
        if result == first.batch.value {
          result := tmp;
          result.Append(first.batch.value);
        }
        result.Append(w.batch.value);
      }
      n := n + 1;
    }
  }

  // The threads.

  datatype Status = Fine | Failed

  /** What a thread inside Write is doing. */
  datatype Pc =
    | Waiting
    | MakingRoom
    // The group's record is to be written, with the lock released.
    | Logging(count: nat)
    // The writers of the group are to be taken off the queue.
    | Finishing(count: nat, status: Status)
    | Returned(status: Status)

  /** One record written: the writers it was for, the first sequence number and the operations. */
  datatype Commit = Commit(from: nat, count: nat, first: nat, ops: seq<Op>, status: Status)

  /** Threads are numbered in the order in which they queued up. `finished` holds the status of each writer
      marked as done. */
  datatype State = State(requests: seq<Request>, pcs: seq<Pc>, queue: seq<nat>, finished: map<nat, Status>,
                         commits: seq<Commit>, lastSequence: nat)

  datatype Act =
    | Arrive(request: Request)
    | Lead(i: nat)
    | GotRoom(i: nat, status: Status, count: nat)
    | Logged(i: nat, status: Status)
    | Finish(i: nat)
    | Wake(i: nat)

  // The requests of the threads that are queued.
  function Queued(s: State): seq<Request>
    requires forall k :: 0 <= k < |s.queue| ==> s.queue[k] < |s.requests|
  {
    seq(|s.queue|, k requires 0 <= k < |s.queue| => s.requests[s.queue[k]])
  }

  ghost predicate Step(s: State, a: Act, s': State) {
    match a
    case Arrive(r) =>
      s' == s.(requests := s.requests + [r], pcs := s.pcs + [Waiting], queue := s.queue + [|s.requests|])
    // A waiting thread that is at the front and not done leads.
    case Lead(i) =>
      && i < |s.pcs| && s.pcs[i] == Waiting && i !in s.finished && s.queue != [] && s.queue[0] == i
      && s' == s.(pcs := s.pcs[i := MakingRoom])
    // Room was made, or could not be; a batch is then grouped with those that join it.
    case GotRoom(i, status, count) =>
      && i < |s.pcs| && s.pcs[i] == MakingRoom && i < |s.requests|
      && (forall k :: 0 <= k < |s.queue| ==> s.queue[k] < |s.requests|)
      && if status == Fine && s.requests[i].batch.Some?
         then IsGroup(Queued(s), count) && s' == s.(pcs := s.pcs[i := Logging(count)])
         else s' == s.(pcs := s.pcs[i := Finishing(1, status)])
    // The record is written on the next sequence numbers, which are used up even if that fails.
    case Logged(i, status) =>
      && i < |s.pcs| && s.pcs[i].Logging? && s.pcs[i].count <= |s.queue|
      && (forall k :: 0 <= k < |s.queue| ==> s.queue[k] < |s.requests|)
      && var count := s.pcs[i].count;
         var ops := Joined(Queued(s)[..count]);
         s' == s.(pcs := s.pcs[i := Finishing(count, status)],
                  commits := s.commits + [Commit(i, count, s.lastSequence + 1, ops, status)],
                  lastSequence := s.lastSequence + |ops|)
    case Finish(i) =>
      && i < |s.pcs| && s.pcs[i].Finishing? && 1 <= s.pcs[i].count <= |s.queue|
      && var (count, status) := (s.pcs[i].count, s.pcs[i].status);
         s' == s.(pcs := s.pcs[i := Returned(status)], queue := s.queue[count..],
                  finished := s.finished + map k | k in s.queue[1..count] :: status)
    case Wake(i) =>
      && i < |s.pcs| && s.pcs[i] == Waiting && i in s.finished
      && s' == s.(pcs := s.pcs[i := Returned(s.finished[i])])
  }

  // What holds between any two steps.

  // How many writers have left the queue.
  function Gone(s: State): int {
    |s.requests| - |s.queue|
  }

  /** The queue is the latest writers, in the order in which they came. */
  ghost predicate QueueInOrder(s: State) {
    && |s.pcs| == |s.requests| && |s.queue| <= |s.requests|
    && forall k :: 0 <= k < |s.queue| ==> s.queue[k] == Gone(s) + k
  }

  predicate Leading(pc: Pc) {
    pc.MakingRoom? || pc.Logging? || pc.Finishing?
  }

  /** Only the writer at the front is ever at work; those behind it wait, those gone have a status. */
  ghost predicate OneLeader(s: State)
    requires QueueInOrder(s)
  {
    && (forall i :: Gone(s) < i < |s.pcs| ==> s.pcs[i] == Waiting)
    && (forall i :: 0 <= i < Gone(s) ==> s.pcs[i].Returned? || (s.pcs[i] == Waiting && i in s.finished))
    && (s.queue != [] ==> s.pcs[Gone(s)] == Waiting || Leading(s.pcs[Gone(s)]))
    && (forall i :: i in s.finished ==> 0 <= i < Gone(s))
  }

  /** The status Write returns, or will return, to a writer that has left the queue. */
  function Outcome(s: State, i: nat): Status
    requires i < |s.pcs| && (s.pcs[i].Returned? || i in s.finished)
  {
    if s.pcs[i].Returned? then s.pcs[i].status else s.finished[i]
  }

  function Total(commits: seq<Commit>): seq<Op> {
    if commits == [] then [] else Total(commits[..|commits| - 1]) + commits[|commits| - 1].ops
  }

  predicate Within(c: Commit, k: nat) {
    c.from <= k < c.from + c.count
  }

  /** A commit is for the requests it was grouped from: their operations, in order, under a leader that syncs
      if any of them asked for it. */
  ghost predicate GoodCommit(requests: seq<Request>, c: Commit) {
    && c.count > 0 && c.from + c.count <= |requests| && requests[c.from].batch.Some?
    && c.ops == Joined(requests[c.from..c.from + c.count])
    && forall k: nat :: Within(c, k) && requests[k].sync ==> requests[c.from].sync
  }

  /** Commits follow one another in queue order, without overlap, each on the sequence numbers after those
      of all earlier ones. */
  ghost predicate CommitsInOrder(requests: seq<Request>, commits: seq<Commit>, bound: int) {
    && (forall j :: 0 <= j < |commits| ==> GoodCommit(requests, commits[j]))
    && (forall j :: 0 <= j < |commits| ==> commits[j].first == |Total(commits[..j])| + 1)
    && (forall i, j :: 0 <= i < j < |commits| ==> commits[i].from + commits[i].count <= commits[j].from)
    && (forall j :: 0 <= j < |commits| ==> commits[j].count > 0 && commits[j].from + commits[j].count <= bound)
  }

  ghost predicate Covered(commits: seq<Commit>, k: nat) {
    exists j :: 0 <= j < |commits| && Within(commits[j], k)
  }

  // The group being formed at the front has been written, or has nothing to write.
  ghost predicate FrontFits(s: State)
    requires QueueInOrder(s) && s.queue != []
  {
    var p := Gone(s);
    match s.pcs[p]
    case Logging(count) =>
      && 0 < count <= |s.queue| && s.requests[p].batch.Some?
      && forall k: nat :: p <= k < p + count && s.requests[k].sync ==> s.requests[p].sync
    case Finishing(count, status) =>
      && 0 < count <= |s.queue|
      && if s.commits != [] && s.commits[|s.commits| - 1].from == p
         then s.commits[|s.commits| - 1].count == count && s.commits[|s.commits| - 1].status == status
         else count == 1 && (status == Failed || s.requests[p].batch.None?)
              && forall j :: 0 <= j < |s.commits| ==> s.commits[j].from + s.commits[j].count <= p
    case _ => true
  }

  // How far the commits reach.
  function Bound(s: State): int {
    if QueueReady(s) && s.pcs[Gone(s)].Finishing? then Gone(s) + s.pcs[Gone(s)].count else Gone(s)
  }

  predicate QueueReady(s: State) {
    s.queue != [] && 0 <= Gone(s) < |s.pcs|
  }

  ghost predicate Commits(s: State) {
    CommitsInOrder(s.requests, s.commits, Bound(s)) && s.lastSequence == |Total(s.commits)|
  }

  ghost predicate Queue(s: State) {
    QueueInOrder(s) && OneLeader(s) && (s.queue != [] ==> FrontFits(s))
  }

  ghost predicate HasOutcome(s: State, k: nat) {
    k < |s.pcs| && (s.pcs[k].Returned? || k in s.finished)
  }

  /** Every writer a commit was for gets its status; a writer with a batch that no commit was for is told
      that it failed. */
  ghost predicate Outcomes(s: State) {
    && |s.pcs| == |s.requests|
    && (forall k: nat :: k < Gone(s) ==> HasOutcome(s, k))
    && (forall k: nat, j :: k < Gone(s) && 0 <= j < |s.commits| && Within(s.commits[j], k) ==>
          HasOutcome(s, k) && Outcome(s, k) == s.commits[j].status)
    && (forall k: nat :: k < Gone(s) && s.requests[k].batch.Some? && !Covered(s.commits, k) ==>
          HasOutcome(s, k) && Outcome(s, k) == Failed)
  }

  ghost predicate Inv(s: State) {
    Queue(s) && Commits(s) && Outcomes(s)
  }

  function Start(): State {
    State([], [], [], map[], [], 0)
  }

  lemma StartInv()
    ensures Inv(Start())
  {
  }

  // Writers that have left keep what they were told while none leaves.
  lemma OutcomesKept(s: State, s': State)
    requires Outcomes(s) && |s'.pcs| == |s'.requests| && Gone(s') == Gone(s) && s'.commits == s.commits
    requires forall k: nat :: k < Gone(s) && HasOutcome(s, k) ==>
               && HasOutcome(s', k) && Outcome(s', k) == Outcome(s, k) && s'.requests[k] == s.requests[k]
    ensures Outcomes(s')
  {
  }

  lemma ArriveKeepsInv(s: State, r: Request, s': State)
    requires Inv(s) && Step(s, Arrive(r), s')
    ensures Inv(s')
  {
    hide Joined, Total, GoodCommit, Covered;
    assert Gone(s') == Gone(s) && Bound(s') == Bound(s);
    forall j | 0 <= j < |s.commits| ensures GoodCommit(s'.requests, s'.commits[j]) {
      SameCommit(s.requests, r, s.commits[j]);
    }
    OutcomesKept(s, s');
  }

  lemma SameCommit(requests: seq<Request>, r: Request, c: Commit)
    requires GoodCommit(requests, c)
    ensures GoodCommit(requests + [r], c)
  {
    hide Joined;
    assert (requests + [r])[c.from..c.from + c.count] == requests[c.from..c.from + c.count];
  }

  lemma LeadKeepsInv(s: State, i: nat, s': State)
    requires Inv(s) && Step(s, Lead(i), s')
    ensures Inv(s')
  {
    hide GoodCommit, Total, Covered;
    assert Gone(s') == Gone(s) == i && Bound(s') == Bound(s);
    OutcomesKept(s, s');
  }

  // A thread at work is the one at the front.
  lemma LeaderIsFront(s: State, i: nat)
    requires Queue(s) && i < |s.pcs| && Leading(s.pcs[i])
    ensures s.queue != [] && i == Gone(s) == s.queue[0]
  {
  }

  lemma QueuedAre(s: State)
    requires QueueInOrder(s)
    ensures forall k :: 0 <= k < |s.queue| ==> s.queue[k] < |s.requests|
    ensures Queued(s) == s.requests[Gone(s)..]
  {
  }

  lemma GotRoomKeepsInv(s: State, i: nat, status: Status, count: nat, s': State)
    requires Inv(s) && Step(s, GotRoom(i, status, count), s')
    ensures Inv(s')
  {
    hide GoodCommit, Total, Joins, Covered, IsGroup, CommitsInOrder;
    LeaderIsFront(s, i);
    assert Gone(s') == Gone(s) == i;
    FurtherBound(s.requests, s.commits, Bound(s), Bound(s'));
    QueuedAre(s);
    if s'.pcs[i].Logging? {
      GroupSize(Queued(s), count);
      forall k: nat | i <= k < i + count && s.requests[k].sync ensures s.requests[i].sync {
        NoSyncUnderNonSync(Queued(s), count, k - i);
      }
    }
    OutcomesKept(s, s');
  }

  lemma FurtherBound(requests: seq<Request>, commits: seq<Commit>, bound: int, bound': int)
    requires CommitsInOrder(requests, commits, bound) && bound <= bound'
    ensures CommitsInOrder(requests, commits, bound')
    ensures forall j :: 0 <= j < |commits| ==> commits[j].count > 0 && commits[j].from + commits[j].count <= bound
  {
    hide GoodCommit, Total;
  }

  lemma GroupSize(queue: seq<Request>, n: nat)
    requires IsGroup(queue, n)
    ensures 0 < n <= |queue|
  {
  }

  lemma TotalExtends(commits: seq<Commit>, c: Commit)
    ensures Total(commits + [c]) == Total(commits) + c.ops
    ensures forall j :: 0 <= j <= |commits| ==> (commits + [c])[..j] == commits[..j]
  {
    assert (commits + [c])[..|commits|] == commits;
  }

  lemma OneMoreCommit(requests: seq<Request>, commits: seq<Commit>, bound: int, c: Commit)
    requires CommitsInOrder(requests, commits, bound) && GoodCommit(requests, c) && bound <= c.from
    requires c.first == |Total(commits)| + 1
    ensures CommitsInOrder(requests, commits + [c], c.from + c.count)
    ensures Total(commits + [c]) == Total(commits) + c.ops
  {
    assert c.count > 0;
    hide GoodCommit, Total;
    TotalExtends(commits, c);
    FirstsExtend(requests, commits, bound, c);
    GoodExtend(requests, commits, bound, c);
    OrderExtends(requests, commits, bound, c);
  }

  lemma GoodExtend(requests: seq<Request>, commits: seq<Commit>, bound: int, c: Commit)
    requires CommitsInOrder(requests, commits, bound) && GoodCommit(requests, c) && c.count > 0 && bound <= c.from
    ensures forall j :: 0 <= j < |commits + [c]| ==> GoodCommit(requests, (commits + [c])[j])
    ensures forall j :: 0 <= j < |commits + [c]| ==>
              (commits + [c])[j].count > 0 && (commits + [c])[j].from + (commits + [c])[j].count <= c.from + c.count
  {
    hide GoodCommit, Total;
  }

  lemma OrderExtends(requests: seq<Request>, commits: seq<Commit>, bound: int, c: Commit)
    requires CommitsInOrder(requests, commits, bound) && bound <= c.from
    ensures forall i, j :: 0 <= i < j < |commits + [c]| ==>
              (commits + [c])[i].from + (commits + [c])[i].count <= (commits + [c])[j].from
  {
    hide GoodCommit, Total;
  }

  lemma FirstsExtend(requests: seq<Request>, commits: seq<Commit>, bound: int, c: Commit)
    requires CommitsInOrder(requests, commits, bound) && c.first == |Total(commits)| + 1
    ensures forall j :: 0 <= j < |commits + [c]| ==> (commits + [c])[j].first == |Total((commits + [c])[..j])| + 1
  {
    hide GoodCommit, Total;
    var commits' := commits + [c];
    forall j | 0 <= j < |commits'| ensures commits'[j].first == |Total(commits'[..j])| + 1 {
      assert commits'[..j] == commits[..j];
      assert j == |commits| ==> commits[..j] == commits;
    }
  }

  lemma LoggedKeepsInv(s: State, i: nat, status: Status, s': State)
    requires Inv(s) && Step(s, Logged(i, status), s')
    ensures Inv(s')
  {
    hide Joined, Total, Covered, CommitsInOrder;
    LeaderIsFront(s, i);
    QueuedAre(s);
    var count := s.pcs[i].count;
    var c := Commit(i, count, s.lastSequence + 1, Joined(Queued(s)[..count]), status);
    assert Queued(s)[..count] == s.requests[i..i + count];
    assert Gone(s') == i && Bound(s') == i + count && Bound(s) == i;
    OneMoreCommit(s.requests, s.commits, i, c);
    NewCommitOutcomes(s, c, s');
  }

  lemma NewCommitOutcomes(s: State, c: Commit, s': State)
    requires Outcomes(s) && c.from == Gone(s) < |s.pcs| == |s'.pcs| && Leading(s.pcs[c.from]) && Leading(s'.pcs[c.from])
    requires s' == s.(pcs := s.pcs[c.from := s'.pcs[c.from]], commits := s.commits + [c], lastSequence := s'.lastSequence)
    ensures Outcomes(s')
  {
    forall k: nat | k < Gone(s) && Covered(s.commits, k) ensures Covered(s'.commits, k) {
      var j :| 0 <= j < |s.commits| && Within(s.commits[j], k);
      assert Within(s'.commits[j], k);
    }
    forall k: nat | k < Gone(s) ensures HasOutcome(s', k) && Outcome(s', k) == Outcome(s, k) {
      assert HasOutcome(s, k);
    }
  }

  lemma FinishKeepsInv(s: State, i: nat, s': State)
    requires Inv(s) && Step(s, Finish(i), s')
    ensures Inv(s')
  {
    hide Joined, Total, GoodCommit, Covered;
    LeaderIsFront(s, i);
    var count := s.pcs[i].count;
    assert Gone(s') == i + count && Bound(s') == Bound(s);
    forall k: nat ensures k in s.queue[1..count] <==> i < k < i + count {
      if i < k < i + count {
        assert s.queue[1..count][k - i - 1] == k;
      }
    }
    FinishOutcomes(s, i, s');
  }

  // The leader returns its status, and the others of its group are told the same.
  lemma FinishOutcomes(s: State, i: nat, s': State)
    requires Inv(s) && Step(s, Finish(i), s') && i == Gone(s) && s.queue != []
    requires forall k: nat :: k in s.queue[1..s.pcs[i].count] <==> i < k < i + s.pcs[i].count
    requires Gone(s') == i + s.pcs[i].count
    ensures Outcomes(s')
  {
    hide Joined, Total, GoodCommit;
    var (count, status) := (s.pcs[i].count, s.pcs[i].status);
    forall k: nat | k < Gone(s')
      ensures HasOutcome(s', k) && Outcome(s', k) == if k < i then Outcome(s, k) else status
    {
      if k < i {
        assert HasOutcome(s, k);
      }
    }
    var n := |s.commits| - 1;
    assert forall j :: 0 <= j < n ==> s.commits[j].from + s.commits[j].count <= s.commits[n].from;
    if n >= 0 && s.commits[n].from == i {
      forall k: nat | i <= k < Gone(s') ensures Covered(s.commits, k) {
        assert Within(s.commits[n], k);
      }
    }
  }

  lemma WakeKeepsInv(s: State, i: nat, s': State)
    requires Inv(s) && Step(s, Wake(i), s')
    ensures Inv(s')
  {
    hide GoodCommit, Total, Covered;
    assert i < Gone(s) == Gone(s') && Bound(s') == Bound(s);
    OutcomesKept(s, s');
  }

  lemma StepKeepsInv(s: State, a: Act, s': State)
    requires Inv(s) && Step(s, a, s')
    ensures Inv(s')
  {
    hide Inv;
    match a
    case Arrive(r) => ArriveKeepsInv(s, r, s');
    case Lead(i) => LeadKeepsInv(s, i, s');
    case GotRoom(i, status, count) => GotRoomKeepsInv(s, i, status, count, s');
    case Logged(i, status) => LoggedKeepsInv(s, i, status, s');
    case Finish(i) => FinishKeepsInv(s, i, s');
    case Wake(i) => WakeKeepsInv(s, i, s');
  }

  // What every writer can rely on.

  ghost predicate Run(states: seq<State>, acts: seq<Act>) {
    && |states| == |acts| + 1 && states[0] == Start()
    && forall i :: 0 <= i < |acts| ==> Step(states[i], acts[i], states[i + 1])
  }

  /** Whatever the threads do, in whatever order: one leader at a time, at the front; commits in queue order on
      consecutive sequence numbers; every writer told how its commit went. */
  lemma {:induction false} RunInv(states: seq<State>, acts: seq<Act>)
    requires Run(states, acts)
    ensures Inv(states[|acts|])
  {
    hide Step, Inv;
    if acts == [] {
      StartInv();
    } else {
      var n := |acts| - 1;
      RunInv(states[..n + 1], acts[..n]);
      StepKeepsInv(states[n], acts[n], states[n + 1]);
    }
  }

  lemma {:induction false} TotalSlice(commits: seq<Commit>, j: nat)
    requires j < |commits|
    ensures |Total(commits[..j])| + |commits[j].ops| <= |Total(commits)|
    ensures Total(commits)[|Total(commits[..j])|..|Total(commits[..j])| + |commits[j].ops|] == commits[j].ops
  {
    var n := |commits| - 1;
    if j < n {
      TotalSlice(commits[..n], j);
      assert commits[..n][..j] == commits[..j];
    }
  }

  lemma {:induction false} JoinedSlice(rs: seq<Request>, k: nat)
    requires k < |rs|
    ensures |Joined(rs[..k])| + |OpsOf(rs[k])| <= |Joined(rs)|
    ensures Joined(rs)[|Joined(rs[..k])|..|Joined(rs[..k])| + |OpsOf(rs[k])|] == OpsOf(rs[k])
  {
    var n := |rs| - 1;
    if k < n {
      JoinedSlice(rs[..n], k);
      assert rs[..n][..k] == rs[..k];
    }
  }

  /** The sequence number the first operation of writer k got from commit c. */
  function FirstOf(s: State, c: Commit, k: nat): nat
    requires Within(c, k) && k < |s.requests|
  {
    c.first + |Joined(s.requests[c.from..k])|
  }

  lemma InGroup(requests: seq<Request>, from: nat, k: nat, to: nat)
    requires from <= k < to <= |requests|
    ensures var group, a, ops := Joined(requests[from..to]), |Joined(requests[from..k])|, OpsOf(requests[k]);
            a + |ops| <= |group| && group[a..a + |ops|] == ops
  {
    hide Joined;
    var group := requests[from..to];
    JoinedSlice(group, k - from);
    assert group[..k - from] == requests[from..k];
  }

  lemma OneCommit(s: State, j: nat, k: nat)
    requires Inv(s) && j < |s.commits| && Within(s.commits[j], k)
    ensures forall i :: 0 <= i < |s.commits| && i != j ==> !Within(s.commits[i], k)
    ensures GoodCommit(s.requests, s.commits[j]) && k < |s.requests|
    ensures s.commits[j].first == |Total(s.commits[..j])| + 1 && s.lastSequence == |Total(s.commits)|
    ensures k < Gone(s) ==> HasOutcome(s, k) && Outcome(s, k) == s.commits[j].status
  {
    hide Joined, Total;
    var c := s.commits[j];
    assert GoodCommit(s.requests, c);
    forall i | 0 <= i < |s.commits| && i != j ensures !Within(s.commits[i], k) {
      assert i < j ==> s.commits[i].from + s.commits[i].count <= c.from;
      assert j < i ==> c.from + c.count <= s.commits[i].from;
    }
  }

  /** A writer that is told its batch is in had it committed exactly once, on consecutive sequence numbers. */
  lemma CommittedOnce(s: State, k: nat) returns (j: nat)
    requires Inv(s) && k < Gone(s) && s.requests[k].batch.Some?
    requires HasOutcome(s, k) && Outcome(s, k) == Fine
    ensures j < |s.commits| && Within(s.commits[j], k) && s.commits[j].status == Fine
    ensures forall i :: 0 <= i < |s.commits| && i != j ==> !Within(s.commits[i], k)
    ensures var first, batch := FirstOf(s, s.commits[j], k), s.requests[k].batch.value;
            && 1 <= first && first - 1 + |batch| <= s.lastSequence == |Total(s.commits)|
            && Total(s.commits)[first - 1..first - 1 + |batch|] == batch
  {
    hide Joined, Total, Queue, Commits, GoodCommit;
    assert Covered(s.commits, k);
    j :| 0 <= j < |s.commits| && Within(s.commits[j], k);
    OneCommit(s, j, k);
    var c := s.commits[j];
    CommitOps(s.requests, c, k);
    TotalSlice(s.commits, j);
    SliceOfSlice(Total(s.commits), c.first - 1, c.ops, |Joined(s.requests[c.from..k])|, s.requests[k].batch.value);
  }

  lemma CommitOps(requests: seq<Request>, c: Commit, k: nat)
    requires GoodCommit(requests, c) && Within(c, k) && k < |requests|
    ensures var a, ops := |Joined(requests[c.from..k])|, OpsOf(requests[k]);
            a + |ops| <= |c.ops| && c.ops[a..a + |ops|] == ops
  {
    hide Joined;
    InGroup(requests, c.from, k, c.from + c.count);
  }

  lemma SliceOfSlice(whole: seq<Op>, a: nat, part: seq<Op>, b: nat, inner: seq<Op>)
    requires a + |part| <= |whole| && whole[a..a + |part|] == part
    requires b + |inner| <= |part| && part[b..b + |inner|] == inner
    ensures whole[a + b..a + b + |inner|] == inner
  {
    forall i | 0 <= i < |inner| ensures whole[a + b + i] == inner[i] {
      assert part[b..b + |inner|][i] == part[b + i];
      assert whole[a..a + |part|][b + i] == whole[a + b + i];
    }
  }

  /** Of two batches that are in, the one queued first has all its sequence numbers before the other's. */
  lemma BatchesInOrder(s: State, k: nat, l: nat, i: nat, j: nat)
    requires Inv(s) && k < l < |s.requests| && i < |s.commits| && j < |s.commits|
    requires Within(s.commits[i], k) && Within(s.commits[j], l)
    ensures FirstOf(s, s.commits[i], k) + |OpsOf(s.requests[k])| <= FirstOf(s, s.commits[j], l)
  {
    hide Joined, Total, Inv, GoodCommit;
    OneCommit(s, i, k);
    var c, d := s.commits[i], s.commits[j];
    if i == j {
      InGroup(s.requests, c.from, k, l);
    } else {
      InQueueOrder(s, k, l, i, j);
      CommitOps(s.requests, c, k);
      EarlierCommit(s, i, j);
    }
  }

  lemma InQueueOrder(s: State, k: nat, l: nat, i: nat, j: nat)
    requires Inv(s) && k < l && i < |s.commits| && j < |s.commits| && i != j
    requires Within(s.commits[i], k) && Within(s.commits[j], l)
    ensures i < j
  {
    hide Joined, Total, GoodCommit;
    assert forall a, b :: 0 <= a < b < |s.commits| ==> s.commits[a].from + s.commits[a].count <= s.commits[b].from;
  }

  lemma EarlierCommit(s: State, i: nat, j: nat)
    requires Inv(s) && i < j < |s.commits|
    ensures s.commits[i].first + |s.commits[i].ops| <= s.commits[j].first
  {
    hide Joined, Total;
    TotalSlice(s.commits[..j], i);
    assert s.commits[..j][..i] == s.commits[..i];
  }

  /** A sync write is never carried by a leader that does not sync. */
  lemma SyncUnderSync(s: State, j: nat, k: nat)
    requires Inv(s) && j < |s.commits| && Within(s.commits[j], k) && k < |s.requests| && s.requests[k].sync
    ensures s.requests[s.commits[j].from].sync
  {
    assert GoodCommit(s.requests, s.commits[j]);
  }
}
