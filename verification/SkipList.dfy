/** The skip list of a memtable, with every load of a search and every store of the one writer a step
    of its own (db/skiplist.h). */
module SkipLists {
  import opened Keys

  const MAX_HEIGHT := 12

  // Nodes are numbered. Nothing links to the head, so its number stands for a null link.
  const HEAD: nat := 0
  const NULL: nat := 0

  datatype Memory = Memory(keys: seq<InternalKey>, next: seq<seq<nat>>, maxHeight: nat) {
    predicate Has(x: nat, level: nat) {
      x < |next| && level < |next[x]|
    }

    function Next(x: nat, level: nat): nat
      requires Has(x, level)
    {
      next[x][level]
    }

    function SetNext(x: nat, level: nat, to: nat): Memory
      requires Has(x, level)
    {
      var links: seq<nat> := next[x];
      this.(next := next[x := links[level := to]])
    }

    function NewNode(key: InternalKey, height: nat): Memory {
      this.(keys := keys + [key], next := next + [seq(height, _ => NULL)])
    }
  }

  function Empty(): Memory {
    Memory([InternalKey([], 0, Deletion)], [seq(MAX_HEIGHT, _ => NULL)], 1)
  }

  type Chain = seq<nat>

  // The node after position j, null at the end.
  function Succ(c: Chain, j: nat): nat {
    if j + 1 < |c| then c[j + 1] else NULL
  }

  /** The links of one level, from the head, visit exactly the nodes of c. */
  ghost predicate Linked(m: Memory, level: nat, c: Chain) {
    && |c| > 0 && c[0] == HEAD
    && (forall j {:trigger m.Has(c[j], level)} :: 0 <= j < |c| ==> m.Has(c[j], level))
    && (forall j {:trigger m.Next(c[j], level)} :: 0 <= j < |c| ==>
          m.Has(c[j], level) && m.Next(c[j], level) == Succ(c, j))
  }

  ghost predicate Increasing(m: Memory, c: Chain) {
    && (forall j :: 0 < j < |c| ==> HEAD < c[j] < |m.keys|)
    && (forall j, k :: 0 < j < k < |c| ==> KeyLess(m.keys[c[j]], m.keys[c[k]]))
  }

  // A level in order.
  ghost predicate Level(m: Memory, level: nat, c: Chain) {
    Linked(m, level, c) && Increasing(m, c)
  }

  // A list and one above it.
  ghost predicate Sublist(upper: Chain, lower: Chain) {
    forall n :: n in upper ==> n in lower
  }

  /** Every level is sorted, and is a sublist of the one below. */
  ghost predicate Inv(m: Memory, cs: seq<Chain>) {
    && |cs| == MAX_HEIGHT && 0 < |m.keys| == |m.next| && 1 <= m.maxHeight <= MAX_HEIGHT
    && (forall i :: 0 <= i < MAX_HEIGHT ==> Level(m, i, cs[i]))
    && (forall i, j :: 0 <= i < j < MAX_HEIGHT ==> Sublist(cs[j], cs[i]))
    && (forall i :: m.maxHeight <= i < MAX_HEIGHT ==> cs[i] == [HEAD])
  }

  /** The links of a level determine the list. */
  lemma LevelUnique(m: Memory, level: nat, c: Chain, d: Chain)
    requires Level(m, level, c) && Level(m, level, d)
    ensures c == d
  {
    var n := if |c| < |d| then |c| else |d|;
    forall j | 0 <= j < n ensures c[j] == d[j] {
      SamePrefix(m, level, c, d, j);
    }
    SamePrefix(m, level, c, d, n - 1);
    assert m.Next(c[n-1], level) == Succ(c, n - 1) && m.Next(d[n-1], level) == Succ(d, n - 1);
  }

  lemma {:induction false} SamePrefix(m: Memory, level: nat, c: Chain, d: Chain, j: nat)
    requires Level(m, level, c) && Level(m, level, d) && j < |c| && j < |d|
    ensures c[j] == d[j]
  {
    if j > 0 {
      SamePrefix(m, level, c, d, j - 1);
      assert m.Next(c[j-1], level) == Succ(c, j - 1) && m.Next(d[j-1], level) == Succ(d, j - 1);
    }
  }

  // Searches.

  datatype Goal = AtOrAfter(key: InternalKey) | Below(key: InternalKey) | Last

  datatype Search = Search(goal: Goal, x: nat, level: nat, done: bool, result: nat)

  /** Whether a search goes on past this node. */
  predicate Wanted(m: Memory, goal: Goal, n: nat)
    requires n < |m.keys|
  {
    goal.Last? || KeyLess(m.keys[n], goal.key)
  }

  predicate GoesOn(m: Memory, goal: Goal, next: nat)
    requires next < |m.keys|
  {
    next != NULL && Wanted(m, goal, next)
  }

  function Start(m: Memory, goal: Goal): Search
    requires m.maxHeight > 0
  {
    Search(goal, HEAD, m.maxHeight - 1, false, NULL)
  }

  predicate CanLoad(m: Memory, r: Search) {
    !r.done && m.Has(r.x, r.level) && m.Next(r.x, r.level) < |m.keys|
  }

  /** One load of a link, and what the search makes of it. */
  function Load(m: Memory, r: Search): Search
    requires CanLoad(m, r)
  {
    var next := m.Next(r.x, r.level);
    if GoesOn(m, r.goal, next) then r.(x := next)
    else if r.level == 0 then r.(done := true, result := if r.goal.AtOrAfter? then next else r.x)
    else r.(level := r.level - 1)
  }

  /** Position j parts the list: the nodes up to it are wanted, those after it are not. */
  ghost predicate Parts(m: Memory, c: Chain, goal: Goal, j: nat)
    requires Increasing(m, c)
  {
    && j < |c|
    && (forall i :: 0 < i <= j ==> Wanted(m, goal, c[i]))
    && (forall i :: j < i < |c| ==> !Wanted(m, goal, c[i]))
  }

  /** The result a search should have: the first node at or after the key, or the last node before it. */
  ghost predicate Answer(m: Memory, c: Chain, goal: Goal, result: nat)
    requires Increasing(m, c)
  {
    exists j: nat :: Parts(m, c, goal, j) && result == if goal.AtOrAfter? then Succ(c, j) else c[j]
  }

  /** Where a search may be: at a node of its level, before its goal. */
  ghost predicate OnTheWay(m: Memory, cs: seq<Chain>, r: Search)
    requires Inv(m, cs)
  {
    && r.level < MAX_HEIGHT && r.x in cs[r.level]
    && r.x < |m.keys| && (r.x == HEAD || Wanted(m, r.goal, r.x))
  }

  lemma StartOnTheWay(m: Memory, cs: seq<Chain>, goal: Goal)
    requires Inv(m, cs)
    ensures OnTheWay(m, cs, Start(m, goal))
  {
    assert Level(m, m.maxHeight - 1, cs[m.maxHeight - 1]);
  }

  // The node of a level, its link and what follows.
  lemma LinkFrom(m: Memory, cs: seq<Chain>, x: nat, level: nat) returns (j: nat)
    requires Inv(m, cs) && level < MAX_HEIGHT && x in cs[level]
    ensures j < |cs[level]| && cs[level][j] == x
    ensures m.Has(x, level) && m.Next(x, level) == Succ(cs[level], j) < |m.keys|
  {
    var c := cs[level];
    assert Level(m, level, c);
    j :| 0 <= j < |c| && c[j] == x;
    assert m.Next(c[j], level) == Succ(c, j);
  }

  lemma PartsHere(m: Memory, c: Chain, goal: Goal, j: nat)
    requires Increasing(m, c) && j < |c|
    requires j == 0 || Wanted(m, goal, c[j])
    requires Succ(c, j) < |m.keys| && !GoesOn(m, goal, Succ(c, j))
    ensures Parts(m, c, goal, j)
  {
    KeyOrder();
  }

  /** A load keeps a search on its way, never meets a missing link, and ends only with the right answer for
      the list as it is at that moment. */
  lemma LoadAnswers(m: Memory, cs: seq<Chain>, r: Search)
    requires Inv(m, cs) && OnTheWay(m, cs, r) && !r.done
    ensures CanLoad(m, r)
    ensures OnTheWay(m, cs, Load(m, r))
    ensures Load(m, r).done ==> Level(m, 0, cs[0]) && Answer(m, cs[0], r.goal, Load(m, r).result)
  {
    hide KeyLess;
    var j := LinkFrom(m, cs, r.x, r.level);
    var c := cs[r.level];
    assert Level(m, r.level, c);
    var next := m.Next(r.x, r.level);
    if GoesOn(m, r.goal, next) {
      assert next == c[j + 1];
    } else if r.level == 0 {
      PartsHere(m, c, r.goal, j);
    } else {
      assert Sublist(cs[r.level], cs[r.level - 1]);
    }
  }

  // The writer.

  datatype Writer =
    | Idle
    // The search for the nodes the new one goes after, level by level.
    | Searching(height: nat, search: Search, prev: seq<nat>)
    // A node that is linked in below `level`; `own` when its own link at that level is set.
    | Linking(x: nat, height: nat, prev: seq<nat>, level: nat, own: bool)

  /** The last node of a level before the key. */
  ghost predicate Precedes(m: Memory, c: Chain, p: nat, key: InternalKey) {
    Increasing(m, c) && exists j: nat :: Parts(m, c, AtOrAfter(key), j) && p == c[j]
  }

  /** A search on its way down, with the last node before the key of every level it has left. */
  ghost predicate WayDown(m: Memory, cs: seq<Chain>, search: Search, prev: seq<nat>)
    requires Inv(m, cs)
  {
    && |prev| == MAX_HEIGHT && search.goal.AtOrAfter? && OnTheWay(m, cs, search)
    && search.level < m.maxHeight
    && (search.done ==> search.level == 0)
    && (forall i :: 0 <= i < m.maxHeight && (i > search.level || search.done) ==>
          Precedes(m, cs[i], prev[i], search.goal.key))
  }

  ghost predicate Absent(m: Memory, key: InternalKey) {
    forall n :: 0 < n < |m.keys| ==> m.keys[n] != key
  }

  // All nodes but the first `count` ... are linked at level 0.
  ghost predicate AllLinked(cs: seq<Chain>, count: nat) {
    |cs| > 0 && forall n: nat :: n < count ==> n in cs[0]
  }

  ghost predicate WriterInv(m: Memory, cs: seq<Chain>, w: Writer)
    requires Inv(m, cs)
  {
    match w
    case Idle => AllLinked(cs, |m.keys|)
    case Searching(height, search, prev) =>
      && AllLinked(cs, |m.keys|)
      && 1 <= height <= MAX_HEIGHT && WayDown(m, cs, search, prev) && Absent(m, search.goal.key)
    case Linking(x, height, prev, level, own) =>
      && HEAD < x == |m.keys| - 1 && AllLinked(cs, x)
      && |m.next[x]| == height && level < height <= m.maxHeight && |prev| == MAX_HEIGHT
      && (forall n :: 0 < n < x ==> m.keys[n] != m.keys[x])
      && (forall i :: 0 <= i < level ==> x in cs[i])
      && (forall i :: level <= i < MAX_HEIGHT ==> x !in cs[i])
      && (forall i :: level <= i < height ==> Precedes(m, cs[i], prev[i], m.keys[x]))
      && (own ==> m.Has(prev[level], level) && m.Has(x, level) && m.Next(x, level) == m.Next(prev[level], level))
  }

  function SearchStep(m: Memory, w: Writer): Writer
    requires w.Searching? && CanLoad(m, w.search) && w.search.level < |w.prev|
  {
    var next := m.Next(w.search.x, w.search.level);
    if GoesOn(m, w.search.goal, next) then w.(search := Load(m, w.search))
    else w.(search := Load(m, w.search), prev := w.prev[w.search.level := w.search.x])
  }

  /** The store of a greater height, and a node nobody can reach yet. */
  function Raise(m: Memory, w: Writer): (Memory, Writer)
    requires w.Searching? && w.search.goal.AtOrAfter? && |w.prev| == MAX_HEIGHT && w.height <= MAX_HEIGHT
  {
    var prev := seq(MAX_HEIGHT, i requires 0 <= i < MAX_HEIGHT =>
                      if m.maxHeight <= i < w.height then HEAD else w.prev[i]);
    var m' := if w.height > m.maxHeight then m.(maxHeight := w.height) else m;
    (m'.NewNode(w.search.goal.key, w.height), Linking(|m.keys|, w.height, prev, 0, false))
  }

  /** The new node's own link at its level. */
  function StoreOwn(m: Memory, w: Writer): (Memory, Writer)
    requires w.Linking? && w.level < |w.prev| && m.Has(w.prev[w.level], w.level) && m.Has(w.x, w.level)
  {
    (m.SetNext(w.x, w.level, m.Next(w.prev[w.level], w.level)), w.(own := true))
  }

  /** The store that makes the new node part of its level. */
  function Publish(m: Memory, w: Writer): (Memory, Writer)
    requires w.Linking? && w.level < |w.prev| && m.Has(w.prev[w.level], w.level)
  {
    (m.SetNext(w.prev[w.level], w.level, w.x),
     if w.level + 1 == w.height then Idle else w.(level := w.level + 1, own := false))
  }

  // What a store leaves as it was.

  ghost predicate Unchanged(m: Memory, m': Memory, level: nat, c: Chain) {
    && m.keys <= m'.keys
    && (forall n :: n in c && m.Has(n, level) ==> m'.Has(n, level) && m'.Next(n, level) == m.Next(n, level))
  }

  lemma LevelUnchanged(m: Memory, m': Memory, level: nat, c: Chain)
    requires Level(m, level, c) && Unchanged(m, m', level, c)
    ensures Level(m', level, c)
  {
    hide KeyLess;
    forall j | 0 <= j < |c| ensures m'.Has(c[j], level) && m'.Next(c[j], level) == Succ(c, j) {
      assert m.Next(c[j], level) == Succ(c, j);
    }
  }

  lemma PrecedesUnchanged(m: Memory, m': Memory, c: Chain, p: nat, key: InternalKey)
    requires Precedes(m, c, p, key) && m.keys <= m'.keys
    ensures Precedes(m', c, p, key)
  {
    hide KeyLess;
    var j: nat :| Parts(m, c, AtOrAfter(key), j) && p == c[j];
    assert Parts(m', c, AtOrAfter(key), j);
  }

  /** A search in progress stays on its way while nodes are added. */
  lemma StaysOnTheWay(m: Memory, cs: seq<Chain>, m': Memory, cs': seq<Chain>, r: Search)
    requires Inv(m, cs) && Inv(m', cs') && OnTheWay(m, cs, r) && m.keys <= m'.keys
    requires forall i :: 0 <= i < MAX_HEIGHT ==> Sublist(cs[i], cs'[i])
    ensures OnTheWay(m', cs', r)
  {
    assert Sublist(cs[r.level], cs'[r.level]);
  }

  // The writer's steps.

  lemma SearchStepKeeps(m: Memory, cs: seq<Chain>, w: Writer)
    requires Inv(m, cs) && w.Searching? && !w.search.done && WayDown(m, cs, w.search, w.prev)
    ensures CanLoad(m, w.search) && w.search.level < |w.prev|
    ensures var w' := SearchStep(m, w);
            w'.Searching? && w'.height == w.height && w'.search == Load(m, w.search) && WayDown(m, cs, w'.search, w'.prev)
    ensures WriterInv(m, cs, w) ==> WriterInv(m, cs, SearchStep(m, w))
  {
    hide KeyLess;
    var r := w.search;
    LoadAnswers(m, cs, r);
    var j := LinkFrom(m, cs, r.x, r.level);
    var c := cs[r.level];
    assert Level(m, r.level, c);
    if !GoesOn(m, r.goal, m.Next(r.x, r.level)) {
      PartsHere(m, c, r.goal, j);
      assert Precedes(m, c, r.x, r.goal.key);
    }
  }

  lemma OnItsWayDown(m: Memory, cs: seq<Chain>, w: Writer)
    requires Inv(m, cs) && WriterInv(m, cs, w) && w.Searching?
    ensures WayDown(m, cs, w.search, w.prev)
  {
  }

  lemma RaiseKeeps(m: Memory, cs: seq<Chain>, w: Writer)
    requires Inv(m, cs) && WriterInv(m, cs, w) && w.Searching? && w.search.done
    ensures var (m', w') := Raise(m, w);
            m.keys <= m'.keys && Inv(m', cs) && WriterInv(m', cs, w')
  {
    hide KeyLess;
    var (m', w') := Raise(m, w);
    forall i | 0 <= i < MAX_HEIGHT ensures Level(m', i, cs[i]) {
      LevelUnchanged(m, m', i, cs[i]);
    }
    forall i | 0 <= i < MAX_HEIGHT ensures w'.x !in cs[i] {
      assert Level(m, i, cs[i]);
    }
    forall i | 0 <= i < w.height ensures Precedes(m', cs[i], w'.prev[i], w.search.goal.key) {
      if i < m.maxHeight {
        PrecedesUnchanged(m, m', cs[i], w.prev[i], w.search.goal.key);
      } else {
        assert Level(m', i, cs[i]);
        assert Parts(m', cs[i], AtOrAfter(w.search.goal.key), 0);
      }
    }
  }

  lemma PrevLinked(m: Memory, cs: seq<Chain>, w: Writer) returns (j: nat)
    requires Inv(m, cs) && WriterInv(m, cs, w) && w.Linking?
    ensures m.Has(w.prev[w.level], w.level) && m.Has(w.x, w.level)
    ensures j < |cs[w.level]| && cs[w.level][j] == w.prev[w.level]
    ensures Increasing(m, cs[w.level])
    ensures Parts(m, cs[w.level], AtOrAfter(m.keys[w.x]), j)
    ensures m.Next(w.prev[w.level], w.level) == Succ(cs[w.level], j)
  {
    hide KeyLess;
    var c := cs[w.level];
    assert Precedes(m, c, w.prev[w.level], m.keys[w.x]);
    j :| Parts(m, c, AtOrAfter(m.keys[w.x]), j) && w.prev[w.level] == c[j];
    assert Level(m, w.level, c);
    assert m.Next(c[j], w.level) == Succ(c, j);
  }

  lemma StoreOwnKeeps(m: Memory, cs: seq<Chain>, w: Writer)
    requires Inv(m, cs) && WriterInv(m, cs, w) && w.Linking? && !w.own
    ensures m.Has(w.prev[w.level], w.level) && m.Has(w.x, w.level)
    ensures var (m', w') := StoreOwn(m, w);
            m.keys <= m'.keys && Inv(m', cs) && WriterInv(m', cs, w')
  {
    hide KeyLess;
    var j := PrevLinked(m, cs, w);
    var (m', w') := StoreOwn(m, w);
    forall i | 0 <= i < MAX_HEIGHT ensures Level(m', i, cs[i]) {
      assert i == w.level ==> w.x !in cs[i];
      LevelUnchanged(m, m', i, cs[i]);
    }
    forall i | w.level <= i < w.height ensures Precedes(m', cs[i], w'.prev[i], m'.keys[w.x]) {
      PrecedesUnchanged(m, m', cs[i], w.prev[i], m.keys[w.x]);
    }
    assert w.prev[w.level] in cs[w.level];
  }

  function Spliced(c: Chain, j: nat, x: nat): Chain
    requires j < |c|
  {
    c[..j+1] + [x] + c[j+1..]
  }

  lemma SplicedHolds(c: Chain, j: nat, x: nat)
    requires j < |c|
    ensures Sublist(c, Spliced(c, j, x)) && x in Spliced(c, j, x)
    ensures forall n :: n in Spliced(c, j, x) ==> n == x || n in c
  {
    var d := Spliced(c, j, x);
    forall n | n in c ensures n in d {
      var i :| 0 <= i < |c| && c[i] == n;
      assert d[if i <= j then i else i + 1] == n;
    }
    assert d[j + 1] == x;
  }

  lemma SplicedIncreasing(m: Memory, c: Chain, j: nat, x: nat)
    requires Increasing(m, c) && HEAD < x < |m.keys| && Parts(m, c, AtOrAfter(m.keys[x]), j)
    requires forall i :: 0 < i < |c| ==> m.keys[c[i]] != m.keys[x]
    ensures Increasing(m, Spliced(c, j, x))
  {
    hide KeyLess;
    var d := Spliced(c, j, x);
    forall i | 0 < i < |c| ensures if i <= j then KeyLess(m.keys[c[i]], m.keys[x]) else KeyLess(m.keys[x], m.keys[c[i]]) {
      BesideNew(m, c, j, x, i);
    }
    forall i, k | 0 < i < k < |d| ensures KeyLess(m.keys[d[i]], m.keys[d[k]]) {
      var a, b := if i <= j then i else i - 1, if k <= j then k else k - 1;
      assert i != j + 1 ==> d[i] == c[a];
      assert k != j + 1 ==> d[k] == c[b];
    }
  }

  lemma BesideNew(m: Memory, c: Chain, j: nat, x: nat, i: nat)
    requires Increasing(m, c) && HEAD < x < |m.keys| && Parts(m, c, AtOrAfter(m.keys[x]), j)
    requires 0 < i < |c| && m.keys[c[i]] != m.keys[x]
    ensures if i <= j then KeyLess(m.keys[c[i]], m.keys[x]) else KeyLess(m.keys[x], m.keys[c[i]])
  {
    hide KeyLess;
    KeyOrder();
    assert Wanted(m, AtOrAfter(m.keys[x]), c[i]) == (i <= j);
  }

  /** Storing one link puts the new node in its place in the level. */
  lemma PublishLinks(m: Memory, level: nat, c: Chain, j: nat, x: nat)
    requires Level(m, level, c) && j < |c| && x !in c
    requires m.Has(x, level) && m.Next(x, level) == Succ(c, j) && m.Has(c[j], level)
    ensures Linked(m.SetNext(c[j], level, x), level, Spliced(c, j, x))
  {
    hide KeyLess;
    var m' := m.SetNext(c[j], level, x);
    var d := Spliced(c, j, x);
    forall i | 0 <= i < |d| ensures m'.Has(d[i], level) && m'.Next(d[i], level) == Succ(d, i) {
      if i <= j {
        assert m.Next(c[i], level) == Succ(c, i);
        if i < j {
          Distinct(m, c, i, j);
        }
      } else if i > j + 1 {
        assert m.Next(c[i - 1], level) == Succ(c, i - 1);
        Distinct(m, c, j, i - 1);
      }
    }
  }

  lemma Distinct(m: Memory, c: Chain, i: nat, j: nat)
    requires Increasing(m, c) && |c| > 0 && c[0] == HEAD && i < j < |c|
    ensures c[i] != c[j]
  {
    KeyOrder();
    if i > 0 {
      assert KeyLess(m.keys[c[i]], m.keys[c[j]]);
    }
  }

  lemma PublishLevel(m: Memory, level: nat, c: Chain, j: nat, x: nat)
    requires Level(m, level, c) && j < |c| && x !in c
    requires m.Has(x, level) && m.Next(x, level) == Succ(c, j) && m.Has(c[j], level)
    requires HEAD < x < |m.keys| && Parts(m, c, AtOrAfter(m.keys[x]), j)
    requires forall n :: 0 < n < |m.keys| && n != x ==> m.keys[n] != m.keys[x]
    ensures Level(m.SetNext(c[j], level, x), level, Spliced(c, j, x))
  {
    hide KeyLess, Linked, Spliced;
    PublishLinks(m, level, c, j, x);
    SplicedIncreasing(m, c, j, x);
  }

  lemma PublishInv(m: Memory, cs: seq<Chain>, w: Writer, j: nat) returns (cs': seq<Chain>)
    requires Inv(m, cs) && WriterInv(m, cs, w) && w.Linking? && w.own
    requires j < |cs[w.level]| && cs[w.level][j] == w.prev[w.level]
    requires Increasing(m, cs[w.level]) && Parts(m, cs[w.level], AtOrAfter(m.keys[w.x]), j)
    requires m.Has(w.prev[w.level], w.level)
    requires m.Next(w.prev[w.level], w.level) == Succ(cs[w.level], j)
    ensures Inv(Publish(m, w).0, cs')
    ensures cs' == cs[w.level := Spliced(cs[w.level], j, w.x)]
  {
    hide KeyLess, Level, Spliced, Parts, Precedes;
    var m' := Publish(m, w).0;
    var c := cs[w.level];
    var d := Spliced(c, j, w.x);
    cs' := cs[w.level := d];
    SplicedHolds(c, j, w.x);
    PublishLevel(m, w.level, c, j, w.x);
    forall i | 0 <= i < MAX_HEIGHT ensures Level(m', i, cs'[i]) {
      if i != w.level {
        LevelUnchanged(m, m', i, cs[i]);
      }
    }
    forall a, b | 0 <= a < b < MAX_HEIGHT ensures Sublist(cs'[b], cs'[a]) {
      assert Sublist(cs[b], cs[a]);
    }
  }

  lemma SplicedMembers(c: Chain, j: nat, x: nat)
    requires j < |c|
    ensures multiset(Spliced(c, j, x)) == multiset(c) + multiset{x}
  {
    assert c == c[..j+1] + c[j+1..];
  }

  lemma PublishWriter(m: Memory, cs: seq<Chain>, w: Writer, j: nat, cs': seq<Chain>)
    requires Inv(m, cs) && WriterInv(m, cs, w) && w.Linking? && w.own && m.Has(w.prev[w.level], w.level)
    requires j < |cs[w.level]| && cs' == cs[w.level := Spliced(cs[w.level], j, w.x)]
    requires Inv(Publish(m, w).0, cs')
    ensures WriterInv(Publish(m, w).0, cs', Publish(m, w).1)
  {
    hide KeyLess, Level, Spliced, Parts, Precedes;
    var m' := Publish(m, w).0;
    SplicedHolds(cs[w.level], j, w.x);
    forall i | w.level + 1 <= i < w.height ensures Precedes(m', cs'[i], w.prev[i], m'.keys[w.x]) {
      PrecedesUnchanged(m, m', cs[i], w.prev[i], m.keys[w.x]);
    }
    forall n: nat | n < w.x ensures n in cs'[0] {
      assert n in cs[0];
    }
  }

  lemma PublishKeeps(m: Memory, cs: seq<Chain>, w: Writer) returns (cs': seq<Chain>)
    requires Inv(m, cs) && WriterInv(m, cs, w) && w.Linking? && w.own
    ensures m.Has(w.prev[w.level], w.level)
    ensures var (m', w') := Publish(m, w);
            m.keys <= m'.keys && Inv(m', cs') && WriterInv(m', cs', w')
    ensures forall i :: 0 <= i < MAX_HEIGHT ==> Sublist(cs[i], cs'[i])
    ensures forall i :: 0 <= i < MAX_HEIGHT ==> multiset(cs'[i]) == multiset(cs[i]) + if i == w.level then multiset{w.x} else multiset{}
  {
    hide KeyLess, Level, Spliced, Parts, Precedes;
    var j := PrevLinked(m, cs, w);
    cs' := PublishInv(m, cs, w, j);
    PublishWriter(m, cs, w, j, cs');
    SplicedHolds(cs[w.level], j, w.x);
    SplicedMembers(cs[w.level], j, w.x);
  }

  // One writer and any number of readers, interleaved step by step.

  datatype State = State(m: Memory, writer: Writer, readers: seq<Search>)

  datatype Action =
    | StartInsert(key: InternalKey, height: nat)
    | WriterStep
    | StartSearch(goal: Goal)
    | ReaderStep(r: nat)

  ghost predicate WriterMoves(m: Memory, w: Writer, m': Memory, w': Writer) {
    match w
    case Idle => false
    case Searching(height, search, prev) =>
      if search.done then search.goal.AtOrAfter? && |prev| == MAX_HEIGHT && height <= MAX_HEIGHT && (m', w') == Raise(m, w)
      else CanLoad(m, search) && search.level < |prev| && m' == m && w' == SearchStep(m, w)
    case Linking(x, height, prev, level, own) =>
      && level < |prev| && m.Has(prev[level], level) && m.Has(x, level)
      && (m', w') == if own then Publish(m, w) else StoreOwn(m, w)
  }

  /** A caller never inserts a key that is there already. */
  ghost predicate Step(s: State, a: Action, s': State) {
    match a
    case StartInsert(key, height) =>
      && s.writer.Idle? && 1 <= height <= MAX_HEIGHT && Absent(s.m, key) && s.m.maxHeight > 0
      && s' == s.(writer := Searching(height, Start(s.m, AtOrAfter(key)), seq(MAX_HEIGHT, _ => HEAD)))
    case WriterStep =>
      WriterMoves(s.m, s.writer, s'.m, s'.writer) && s'.readers == s.readers
    case StartSearch(goal) =>
      s.m.maxHeight > 0 && s' == s.(readers := s.readers + [Start(s.m, goal)])
    case ReaderStep(r) =>
      && r < |s.readers| && CanLoad(s.m, s.readers[r])
      && s' == s.(readers := s.readers[r := Load(s.m, s.readers[r])])
  }

  ghost predicate Good(s: State, cs: seq<Chain>) {
    && Inv(s.m, cs) && WriterInv(s.m, cs, s.writer)
    && forall r :: 0 <= r < |s.readers| ==> OnTheWay(s.m, cs, s.readers[r])
  }

  ghost predicate Sound(s: State) {
    exists cs :: Good(s, cs)
  }

  lemma InitiallySound()
    ensures Sound(State(Empty(), Idle, []))
  {
    hide KeyLess;
    var m := Empty();
    var cs := seq(MAX_HEIGHT, _ => [HEAD]);
    forall i | 0 <= i < MAX_HEIGHT ensures Level(m, i, cs[i]) {
    }
    assert Good(State(m, Idle, []), cs);
  }

  lemma WriterStepGood(s: State, cs: seq<Chain>, s': State) returns (cs': seq<Chain>)
    requires Good(s, cs) && Step(s, WriterStep, s')
    ensures s.m.keys <= s'.m.keys
    ensures Inv(s'.m, cs') && WriterInv(s'.m, cs', s'.writer)
    ensures forall i :: 0 <= i < MAX_HEIGHT ==> Sublist(cs[i], cs'[i])
  {
    hide KeyLess, Inv, WriterInv, Raise, StoreOwn, Publish, SearchStep;
    var m, w := s.m, s.writer;
    cs' := cs;
    match w
    case Idle =>
    case Searching(height, search, prev) =>
      if search.done {
        RaiseKeeps(m, cs, w);
      } else {
        OnItsWayDown(m, cs, w);
        SearchStepKeeps(m, cs, w);
      }
    case Linking(x, height, prev, level, own) =>
      if own {
        cs' := PublishKeeps(m, cs, w);
      } else {
        StoreOwnKeeps(m, cs, w);
      }
  }

  /** Between any two stores every level is sorted and a sublist of the one below; no node is ever lost. */
  lemma StepGood(s: State, cs: seq<Chain>, a: Action, s': State) returns (cs': seq<Chain>)
    requires Good(s, cs) && Step(s, a, s')
    ensures Good(s', cs') && s.m.keys <= s'.m.keys
    ensures forall i :: 0 <= i < MAX_HEIGHT ==> Sublist(cs[i], cs'[i])
  {
    hide KeyLess, Load, WriterMoves;
    cs' := cs;
    match a
    case StartInsert(key, height) =>
      StartOnTheWay(s.m, cs, AtOrAfter(key));
    case WriterStep =>
      cs' := WriterStepGood(s, cs, s');
      forall r | 0 <= r < |s.readers| ensures OnTheWay(s'.m, cs', s.readers[r]) {
        StaysOnTheWay(s.m, cs, s'.m, cs', s.readers[r]);
      }
    case StartSearch(goal) =>
      StartOnTheWay(s.m, cs, goal);
    case ReaderStep(r) =>
      LoadAnswers(s.m, cs, s.readers[r]);
  }

  /** The sorted list a skip list stands for. */
  ghost predicate List(m: Memory, c: Chain) {
    Level(m, 0, c)
  }

  /** Whatever the writer has been doing, a search ends with the right answer for the list as it is at its last load. */
  lemma SearchAnswers(s: State, r: nat, s': State, c: Chain)
    requires Sound(s) && Step(s, ReaderStep(r), s') && s'.readers[r].done
    requires List(s'.m, c)
    ensures Answer(s'.m, c, s'.readers[r].goal, s'.readers[r].result)
  {
    hide KeyLess;
    var cs :| Good(s, cs);
    LoadAnswers(s.m, cs, s.readers[r]);
    LevelUnique(s.m, 0, c, cs[0]);
  }

  /** No search and no insertion ever waits for another. */
  lemma NeverStuck(s: State)
    requires Sound(s)
    ensures exists c :: List(s.m, c)
    ensures !s.writer.Idle? ==> exists s' :: Step(s, WriterStep, s')
    ensures forall r :: 0 <= r < |s.readers| && !s.readers[r].done ==> CanLoad(s.m, s.readers[r])
  {
    hide KeyLess;
    var cs :| Good(s, cs);
    assert List(s.m, cs[0]);
    forall r | 0 <= r < |s.readers| && !s.readers[r].done ensures CanLoad(s.m, s.readers[r]) {
      LoadAnswers(s.m, cs, s.readers[r]);
    }
    if !s.writer.Idle? {
      var m', w' := WriterCanMove(s.m, cs, s.writer);
      assert Step(s, WriterStep, State(m', w', s.readers));
    }
  }

  lemma WriterCanMove(m: Memory, cs: seq<Chain>, w: Writer) returns (m': Memory, w': Writer)
    requires Inv(m, cs) && WriterInv(m, cs, w) && !w.Idle?
    ensures WriterMoves(m, w, m', w')
  {
    hide KeyLess;
    m', w' := m, w;
    match w
    case Searching(height, search, prev) =>
      if search.done {
        m', w' := Raise(m, w).0, Raise(m, w).1;
      } else {
        SearchStepKeeps(m, cs, w);
        w' := SearchStep(m, w);
      }
    case Linking(x, height, prev, level, own) =>
      var j := PrevLinked(m, cs, w);
      m', w' := (if own then Publish(m, w) else StoreOwn(m, w)).0, (if own then Publish(m, w) else StoreOwn(m, w)).1;
  }

  ghost predicate Run(states: seq<State>, actions: seq<Action>) {
    && |states| == |actions| + 1 && states[0] == State(Empty(), Idle, [])
    && forall i :: 0 <= i < |actions| ==> Step(states[i], actions[i], states[i + 1])
  }

  lemma {:induction false} RunSound(states: seq<State>, actions: seq<Action>, k: nat)
    requires Run(states, actions) && k < |states|
    ensures Sound(states[k])
  {
    if k == 0 {
      InitiallySound();
    } else {
      RunSound(states, actions, k - 1);
      var cs :| Good(states[k - 1], cs);
      var cs' := StepGood(states[k - 1], cs, actions[k - 1], states[k]);
    }
  }

  /** Nodes stay in the list once they are in it, with the keys they had. */
  lemma {:induction false} NodesStay(states: seq<State>, actions: seq<Action>, i: nat, k: nat, c: Chain, d: Chain)
    requires Run(states, actions) && i <= k < |states|
    requires List(states[i].m, c) && List(states[k].m, d)
    ensures Sublist(c, d) && states[i].m.keys <= states[k].m.keys
    decreases k
  {
    hide KeyLess, Level, Step;
    RunSound(states, actions, k);
    if i == k {
      LevelUnique(states[k].m, 0, c, d);
    } else {
      var s, s' := states[k - 1], states[k];
      RunSound(states, actions, k - 1);
      var cs :| Good(s, cs);
      NodesStay(states, actions, i, k - 1, c, cs[0]);
      assert Step(states[k - 1], actions[k - 1], states[k - 1 + 1]);
      var cs' := StepGood(s, cs, actions[k - 1], s');
      LevelUnique(s'.m, 0, d, cs'[0]);
      assert Sublist(cs[0], cs'[0]);
    }
  }

  /** A search finds at least what was there when it began: its result comes no later than any node
      at or after the key that was in the list then. */
  lemma SeesWhatWasThere(states: seq<State>, actions: seq<Action>, i: nat, k: nat, r: nat, c: Chain, d: Chain, n: nat)
    requires Run(states, actions) && i < k < |states| && List(states[i].m, c) && List(states[k].m, d)
    requires actions[k - 1] == ReaderStep(r) && r < |states[k].readers| && states[k].readers[r].done
    requires states[k].readers[r].goal.AtOrAfter?
    requires n in c && n != HEAD && n < |states[i].m.keys|
    requires !KeyLess(states[i].m.keys[n], states[k].readers[r].goal.key)
    ensures var (found, m) := (states[k].readers[r].result, states[k].m);
            && HEAD < found < |m.keys| && n < |m.keys| && m.keys[n] == states[i].m.keys[n]
            && !KeyLess(m.keys[n], m.keys[found])
  {
    hide KeyLess, Step;
    NodesStay(states, actions, i, k, c, d);
    RunSound(states, actions, k - 1);
    assert Step(states[k - 1], actions[k - 1], states[k - 1 + 1]);
    SearchAnswers(states[k - 1], r, states[k], d);
    var m, s := states[k].m, states[k].readers[r];
    var j: nat :| Parts(m, d, s.goal, j) && s.result == Succ(d, j);
    var at :| 0 <= at < |d| && d[at] == n;
    assert at > j;
    KeyOrder();
  }

  // The list itself, while nobody else is at work on it.

  ghost predicate Steps(s: State, s': State) {
    exists a :: Step(s, a, s')
  }

  /** Moves of the writer, one after another. */
  ghost predicate Trace(trace: seq<State>) {
    && |trace| > 0
    && forall i :: 0 < i < |trace| ==> Steps(trace[i - 1], trace[i])
  }

  lemma TraceExtends(trace: seq<State>, s: State)
    requires Trace(trace) && Steps(trace[|trace| - 1], s)
    ensures Trace(trace + [s])
  {
    hide Step;
    var longer := trace + [s];
    forall i | 0 < i < |longer| ensures Steps(longer[i - 1], longer[i]) {
      if i < |trace| {
        assert Steps(trace[i - 1], trace[i]);
      }
    }
  }

  lemma NextOnLevel(m: Memory, cs: seq<Chain>, level: nat, j: nat)
    requires Inv(m, cs) && level < MAX_HEIGHT && j < |cs[level]|
    ensures m.Has(cs[level][j], level)
    ensures m.Next(cs[level][j], level) == Succ(cs[level], j) < |m.keys|
  {
    hide KeyLess;
    var c := cs[level];
    assert Level(m, level, c);
    assert m.Next(c[j], level) == Succ(c, j);
  }

  lemma SearchBegins(m: Memory, cs: seq<Chain>, key: InternalKey, height: nat)
    requires Inv(m, cs) && AllLinked(cs, |m.keys|) && 1 <= height <= MAX_HEIGHT
    ensures 1 <= m.maxHeight <= MAX_HEIGHT == |cs| && HEAD in cs[m.maxHeight - 1]
    ensures var w := Searching(height, Start(m, AtOrAfter(key)), seq(MAX_HEIGHT, _ => HEAD));
            && WayDown(m, cs, w.search, w.prev)
            && (Absent(m, key) ==> WriterInv(m, cs, w) && Trace([State(m, Idle, []), State(m, w, [])]))
  {
    hide KeyLess;
    StartOnTheWay(m, cs, AtOrAfter(key));
    var w := Searching(height, Start(m, AtOrAfter(key)), seq(MAX_HEIGHT, _ => HEAD));
    if Absent(m, key) {
      assert Step(State(m, Idle, []), StartInsert(key, height), State(m, w, []));
    }
  }

  lemma WayDone(m: Memory, cs: seq<Chain>, search: Search, prev: seq<nat>)
    requires Inv(m, cs) && WayDown(m, cs, search, prev) && search.done
    ensures |prev| == MAX_HEIGHT && forall i :: 0 <= i < m.maxHeight ==> Precedes(m, cs[i], prev[i], search.goal.key)
  {
  }

  lemma SearchMoves(m: Memory, cs: seq<Chain>, w: Writer)
    requires Inv(m, cs) && w.Searching? && !w.search.done && WayDown(m, cs, w.search, w.prev)
    ensures CanLoad(m, w.search) && w.search.level < |w.prev|
    ensures WriterInv(m, cs, w) ==> WriterInv(m, cs, SearchStep(m, w))
    ensures Steps(State(m, w, []), State(m, SearchStep(m, w), []))
    ensures SearchStep(m, w).Searching? && WayDown(m, cs, SearchStep(m, w).search, SearchStep(m, w).prev)
    ensures SearchStep(m, w).search == Load(m, w.search) && Load(m, w.search).x in cs[Load(m, w.search).level]
    ensures Load(m, w.search).done ==>
              Level(m, 0, cs[0]) && Answer(m, cs[0], w.search.goal, Load(m, w.search).result)
  {
    hide KeyLess, Answer;
    SearchStepKeeps(m, cs, w);
    LoadAnswers(m, cs, w.search);
    assert Step(State(m, w, []), WriterStep, State(m, SearchStep(m, w), []));
  }

  lemma RaiseMoves(m: Memory, cs: seq<Chain>, w: Writer)
    requires Inv(m, cs) && WriterInv(m, cs, w) && w.Searching? && w.search.done
    ensures |w.prev| == MAX_HEIGHT == |cs| && w.height <= MAX_HEIGHT && w.search.goal.AtOrAfter?
    ensures var (m', w') := Raise(m, w);
            Inv(m', cs) && WriterInv(m', cs, w') && Steps(State(m, w, []), State(m', w', []))
  {
    hide KeyLess, Raise;
    RaiseKeeps(m, cs, w);
    assert Step(State(m, w, []), WriterStep, State(Raise(m, w).0, Raise(m, w).1, []));
  }

  lemma RaiseIs(m: Memory, w: Writer, prev: seq<nat>)
    requires w.Searching? && w.search.goal.AtOrAfter? && |w.prev| == MAX_HEIGHT && w.height <= MAX_HEIGHT
    requires |prev| == MAX_HEIGHT
    requires forall k :: 0 <= k < MAX_HEIGHT ==> prev[k] == if m.maxHeight <= k < w.height then HEAD else w.prev[k]
    ensures Raise(m, w) == ((if w.height > m.maxHeight then m.(maxHeight := w.height) else m).NewNode(w.search.goal.key, w.height),
                            Linking(|m.keys|, w.height, prev, 0, false))
  {
    assert Raise(m, w).1.prev == prev;
  }

  lemma StoresAre(m: Memory, w: Writer)
    requires w.Linking? && w.level < |w.prev| && m.Has(w.prev[w.level], w.level) && m.Has(w.x, w.level)
    ensures StoreOwn(m, w) == (m.SetNext(w.x, w.level, m.Next(w.prev[w.level], w.level)), w.(own := true))
    ensures Publish(m, w).0 == m.SetNext(w.prev[w.level], w.level, w.x)
    ensures Publish(m, w).1 == if w.level + 1 == w.height then Idle else w.(level := w.level + 1, own := false)
  {
  }

  lemma InsertEnds(m: Memory, cs: seq<Chain>, w: Writer)
    requires Inv(m, cs) && WriterInv(m, cs, w) && w.Idle?
    ensures AllLinked(cs, |m.keys|)
  {
  }

  lemma StoreOwnMoves(m: Memory, cs: seq<Chain>, w: Writer)
    requires Inv(m, cs) && WriterInv(m, cs, w) && w.Linking? && !w.own
    ensures w.level < |w.prev| && m.Has(w.prev[w.level], w.level) && m.Has(w.x, w.level)
    ensures var (m', w') := StoreOwn(m, w);
            Inv(m', cs) && WriterInv(m', cs, w') && Steps(State(m, w, []), State(m', w', []))
  {
    hide KeyLess, StoreOwn;
    StoreOwnKeeps(m, cs, w);
    assert Step(State(m, w, []), WriterStep, State(StoreOwn(m, w).0, StoreOwn(m, w).1, []));
  }

  lemma PublishMoves(m: Memory, cs: seq<Chain>, w: Writer) returns (cs': seq<Chain>)
    requires Inv(m, cs) && WriterInv(m, cs, w) && w.Linking? && w.own
    ensures w.level < |w.prev| && m.Has(w.prev[w.level], w.level)
    ensures var (m', w') := Publish(m, w);
            Inv(m', cs') && WriterInv(m', cs', w') && Steps(State(m, w, []), State(m', w', []))
    ensures |cs| == MAX_HEIGHT == |cs'|
    ensures forall i :: 0 <= i < MAX_HEIGHT ==> multiset(cs'[i]) == multiset(cs[i]) + if i == w.level then multiset{w.x} else multiset{}
  {
    hide KeyLess, Publish;
    cs' := PublishKeeps(m, cs, w);
    var j := PrevLinked(m, cs, w);
    assert Step(State(m, w, []), WriterStep, State(Publish(m, w).0, Publish(m, w).1, []));
  }

  /** The node x has come to the lowest n levels, and nothing else has changed. */
  ghost predicate Joins(before: seq<Chain>, after: seq<Chain>, x: nat, n: nat) {
    && |before| == |after| == MAX_HEIGHT
    && forall i :: 0 <= i < MAX_HEIGHT ==> multiset(after[i]) == multiset(before[i]) + if i < n then multiset{x} else multiset{}
  }

  lemma JoinsNone(cs: seq<Chain>, x: nat)
    ensures |cs| == MAX_HEIGHT ==> Joins(cs, cs, x, 0)
  {
  }

  lemma JoinsNext(before: seq<Chain>, cs: seq<Chain>, cs': seq<Chain>, x: nat, n: nat)
    requires Joins(before, cs, x, n) && |cs'| == MAX_HEIGHT
    requires forall i :: 0 <= i < MAX_HEIGHT ==> multiset(cs'[i]) == multiset(cs[i]) + if i == n then multiset{x} else multiset{}
    ensures Joins(before, cs', x, n + 1)
  {
  }

  class SkipList {
    var m: Memory
    ghost var cs: seq<Chain>

    ghost predicate Valid()
      reads this
    {
      Inv(m, cs) && AllLinked(cs, |m.keys|)
    }

    constructor ()
      ensures Valid() && m == Empty() && cs == seq(MAX_HEIGHT, _ => [HEAD])
    {
      hide KeyLess;
      m := Empty();
      cs := seq(MAX_HEIGHT, _ => [HEAD]);
      new;
      forall i | 0 <= i < MAX_HEIGHT ensures Level(m, i, cs[i]) {
      }
    }

    /** The first node at or after the key, and before it the last node of every level. For a key that is not in the
        list this is how an insertion begins. */
    method FindGreaterOrEqual(key: InternalKey, ghost height: nat)
      returns (node: nat, prev: seq<nat>, ghost w: Writer, ghost trace: seq<State>)
      requires Valid() && 1 <= height <= MAX_HEIGHT
      ensures Level(m, 0, cs[0]) && Answer(m, cs[0], AtOrAfter(key), node)
      ensures |prev| == MAX_HEIGHT && forall i :: 0 <= i < m.maxHeight ==> Precedes(m, cs[i], prev[i], key)
      ensures w.Searching? && w.height == height && w.prev == prev && w.search.done && w.search.goal == AtOrAfter(key)
      ensures |trace| > 0 && trace[0] == State(m, Idle, []) && trace[|trace| - 1] == State(m, w, [])
      ensures Absent(m, key) ==> WriterInv(m, cs, w) && Trace(trace)
    {
      hide KeyLess, Inv, WriterInv, WayDown, Precedes, Trace, Parts, Increasing, Linked, Absent, AllLinked, Answer, OnTheWay;
      SearchBegins(m, cs, key, height);
      var x: nat, level: nat := HEAD, m.maxHeight - 1;
      prev := seq(MAX_HEIGHT, _ => HEAD);
      w := Searching(height, Start(m, AtOrAfter(key)), prev);
      trace := [State(m, Idle, []), State(m, w, [])];
      ghost var j: nat := LinkFrom(m, cs, x, level);
      while true
        invariant w == Searching(height, Search(AtOrAfter(key), x, level, false, NULL), prev)
        invariant WayDown(m, cs, w.search, prev)
        invariant level < MAX_HEIGHT && j < |cs[level]| && cs[level][j] == x
        invariant |trace| > 0 && trace[0] == State(m, Idle, []) && trace[|trace| - 1] == State(m, w, [])
        invariant Absent(m, key) ==> WriterInv(m, cs, w) && Trace(trace)
        decreases level, |cs[level]| - j
      {
        NextOnLevel(m, cs, level, j);
        SearchMoves(m, cs, w);
        w := SearchStep(m, w);
        if Absent(m, key) {
          TraceExtends(trace, State(m, w, []));
        }
        trace := trace + [State(m, w, [])];
        var next := m.Next(x, level);
        if next != NULL && KeyLess(m.keys[next], key) {
          x, j := next, j + 1;
        } else {
          prev := prev[level := x];
          if level == 0 {
            WayDone(m, cs, w.search, prev);
            return next, prev, w, trace;
          }
          level := level - 1;
          j := LinkFrom(m, cs, x, level);
        }
      }
    }

    /** The last node before the key, or the head. */
    method FindLessThan(key: InternalKey) returns (node: nat)
      requires Valid()
      ensures Level(m, 0, cs[0]) && Answer(m, cs[0], Below(key), node)
    {
      node := RunSearch(Below(key));
    }

    method FindLast() returns (node: nat)
      requires Valid()
      ensures Level(m, 0, cs[0]) && node == cs[0][|cs[0]| - 1]
    {
      hide KeyLess;
      node := RunSearch(Last);
    }

    // The two searches have one loop, but for what they go on past.
    method RunSearch(goal: Goal) returns (node: nat)
      requires Valid() && !goal.AtOrAfter?
      ensures Level(m, 0, cs[0]) && Answer(m, cs[0], goal, node)
    {
      hide KeyLess, Parts, Increasing, Linked, AllLinked, Answer;
      StartOnTheWay(m, cs, goal);
      var x: nat, level: nat := HEAD, m.maxHeight - 1;
      ghost var j: nat := LinkFrom(m, cs, x, level);
      while true
        invariant OnTheWay(m, cs, Search(goal, x, level, false, NULL))
        invariant level < MAX_HEIGHT && j < |cs[level]| && cs[level][j] == x
        decreases level, |cs[level]| - j
      {
        NextOnLevel(m, cs, level, j);
        LoadAnswers(m, cs, Search(goal, x, level, false, NULL));
        var next := m.Next(x, level);
        if next == NULL || !Wanted(m, goal, next) {
          if level == 0 {
            return x;
          }
          level := level - 1;
          j := LinkFrom(m, cs, x, level);
        } else {
          x, j := next, j + 1;
        }
      }
    }

    /** Adds one key; the height is drawn at random. The stores are the steps of the writer, in order. */
    method Insert(key: InternalKey, height: nat) returns (ghost trace: seq<State>)
      requires Valid() && Absent(m, key) && 1 <= height <= MAX_HEIGHT
      modifies this
      ensures Valid() && m.keys == old(m.keys) + [key]
      ensures Joins(old(cs), cs, |old(m.keys)|, height)
      ensures Trace(trace) && trace[0] == State(old(m), Idle, []) && trace[|trace| - 1] == State(m, Idle, [])
    {
      hide KeyLess, Parts, Increasing, Linked, Answer, WriterInv, Inv, AllLinked, StoreOwn, Publish, Raise, Trace, Absent, Joins;
      JoinsNone(cs, |m.keys|);
      var node, prev;
      ghost var w;
      node, prev, w, trace := FindGreaterOrEqual(key, height);
      RaiseMoves(m, cs, w);
      ghost var start := Raise(m, w);
      if height > m.maxHeight {
        for i := m.maxHeight to height
          invariant |prev| == MAX_HEIGHT
          invariant forall k :: 0 <= k < MAX_HEIGHT ==> prev[k] == if m.maxHeight <= k < i then HEAD else w.prev[k]
        {
          prev := prev[i := HEAD];
        }
        m := m.(maxHeight := height);
      }
      var x := |m.keys|;
      m := m.NewNode(key, height);
      RaiseIs(old(m), w, prev);
      assert m == start.0;
      w := start.1;
      TraceExtends(trace, State(m, w, []));
      trace := trace + [State(m, w, [])];
      for i := 0 to height
        invariant Inv(m, cs) && WriterInv(m, cs, w) && m.keys == old(m.keys) + [key] && |cs| == |old(cs)| == MAX_HEIGHT
        invariant w == if i < height then Linking(x, height, prev, i, false) else Idle
        invariant Joins(old(cs), cs, x, i)
        invariant Trace(trace) && |trace| > 0
        invariant trace[0] == State(old(m), Idle, []) && trace[|trace| - 1] == State(m, w, [])
      {
        ghost var before := cs;
        w, trace := LinkLevel(x, prev, i, w, trace);
        JoinsNext(old(cs), before, cs, x, i);
      }
      InsertEnds(m, cs, w);
    }

    // The two stores that bring the new node to one level.
    method LinkLevel(x: nat, prev: seq<nat>, i: nat, ghost w: Writer, ghost trace: seq<State>) returns (ghost w': Writer, ghost trace': seq<State>)
      requires Inv(m, cs) && WriterInv(m, cs, w) && w.Linking? && !w.own && w.x == x && w.prev == prev && w.level == i
      requires Trace(trace) && |trace| > 0 && trace[|trace| - 1] == State(m, w, [])
      modifies this
      ensures Inv(m, cs) && WriterInv(m, cs, w') && m.keys == old(m.keys) && |cs| == |old(cs)| == MAX_HEIGHT
      ensures w' == if i + 1 == w.height then Idle else w.(level := i + 1)
      ensures forall k :: 0 <= k < MAX_HEIGHT ==> multiset(cs[k]) == multiset(old(cs)[k]) + if k == i then multiset{x} else multiset{}
      ensures Trace(trace') && |trace'| > 0 && trace'[0] == trace[0] && trace'[|trace'| - 1] == State(m, w', [])
    {
      hide KeyLess, Parts, Increasing, Linked, Answer, WriterInv, Inv, AllLinked, StoreOwn, Publish, Trace;
      StoreOwnMoves(m, cs, w);
      StoresAre(m, w);
      ghost var own := StoreOwn(m, w);
      m := m.SetNext(x, i, m.Next(prev[i], i));
      assert m == own.0;
      w' := own.1;
      TraceExtends(trace, State(m, w', []));
      trace' := trace + [State(m, w', [])];

      StoresAre(m, w');
      ghost var linked := Publish(m, w');
      ghost var cs' := PublishMoves(m, cs, w');
      m := m.SetNext(prev[i], i, x);
      assert m == linked.0;
      w', cs := linked.1, cs';
      TraceExtends(trace', State(m, w', []));
      trace' := trace' + [State(m, w', [])];
    }
  }
}
