/** The bound of 26 is the best one: a run from the tables of tfs_init in which 27 threads create
    at once and one of them keeps the inode table for ever. */
module CreationWitness {
  import opened Config
  import opened FirstFit
  import opened Directory
  import opened LockOrder
  import opened Creation

  const MOST := 27

  // Fifty path names, "/A" and so on.
  function Letter(k: nat): char
    requires k < INODE_TABLE_SIZE
  {
    (65 + k) as char
  }

  function Name(k: nat): string
    requires k < INODE_TABLE_SIZE
  {
    ['/', Letter(k)]
  }

  // Thread t once the threads before j have done their part: the first 23 have their entries,
  // the others wait to add theirs.
  function Part(t: nat, j: nat): Thread
    requires t < INODE_TABLE_SIZE
  {
    Open(Name(t), true, if t >= j then OpenStart else if t < MAX_DIR_ENTRIES then OpenScan(0) else OpenAdd(t + 1))
  }

  ghost predicate Quiet(s: State) { s.owner == map[] && s.depth == 0 && s.readers == map[] }

  ghost predicate Listed(es: Entries, n: nat)
    requires n <= MAX_DIR_ENTRIES
  {
    forall e :: 0 <= e < MAX_DIR_ENTRIES ==>
      es[e].inum == (if e < n then e + 1 else -1) && (e < n ==> es[e].name == [Letter(e)])
  }

  ghost predicate Stage(s: State, j: nat) {
    && Quiet(s) && |s.threads| == INODE_TABLE_SIZE && j < INODE_TABLE_SIZE
    && (forall t :: 0 <= t < INODE_TABLE_SIZE ==> s.threads[t] == Part(t, j))
    && (forall i :: 0 <= i < INODE_TABLE_SIZE ==> (s.tables.inodeTs[i] == TAKEN <==> i <= j))
    && Listed(s.tables.entries, Min(j, MAX_DIR_ENTRIES))
  }

  // s with thread j at op, holding the inode table `held` times.
  function With(s: State, j: nat, op: OpenPoint, held: nat): State
    requires j < |s.threads| && s.threads[j].Open?
  {
    s.(owner := if held == 0 then map[] else map[InodeTable := j], depth := held,
       threads := s.threads[j := s.threads[j].(op := op)])
  }

  // ---------- how many create ----------

  function Range(a: int, b: int): (r: set<int>)
    requires a <= b
    ensures |r| == b - a && forall t :: t in r <==> a <= t < b
    decreases b - a
  {
    if a == b then {} else Range(a, b - 1) + {b - 1}
  }

  // The other threads stand as at stage j.
  ghost predicate Around(s: State, j: nat) {
    && |s.threads| == INODE_TABLE_SIZE && j < INODE_TABLE_SIZE
    && forall t :: 0 <= t < INODE_TABLE_SIZE && t != j ==> s.threads[t] == Part(t, j)
  }

  lemma AtMost27(s: State, j: nat)
    requires Around(s, j)
    ensures |Creating(s)| <= MOST
  {
    hide Range;
    if j < MAX_DIR_ENTRIES {
      I.SubsetBound(Creating(s), {j});
    } else {
      I.SubsetBound(Creating(s), Range(MAX_DIR_ENTRIES, INODE_TABLE_SIZE));
    }
  }

  // ---------- single steps of thread j ----------

  lemma Acquires(s: State, j: nat, op: OpenPoint, op': OpenPoint, held: nat)
    requires Quiet(s) && Around(s, j) && s.threads[j].Open?
    requires var th := s.threads[j].(op := op); Wants(th) == Some(InodeTable) && Acquired(th) == th.(op := op')
    ensures Step(With(s, j, op, held), j, s.threads[j].(op := op'), With(s, j, op', held + 1))
  {
    var a, b := With(s, j, op, held), With(s, j, op', held + 1);
    assert Take(a, j, InodeTable).(threads := b.threads) == b;
    assert a.threads[j := s.threads[j].(op := op')] == b.threads;
  }

  lemma GoesOn(s: State, j: nat, op: OpenPoint, op': OpenPoint, held: nat, held': nat, tb: Tables)
    requires Quiet(s) && Around(s, j) && s.threads[j].Open? && held > 0
    requires var th, th' := s.threads[j].(op := op), s.threads[j].(op := op');
             && Continues(th, th') && Effect(s.tables, th, th', tb)
             && (if held' == held then Gives(th, th') == None else held' == held - 1 && Gives(th, th') == Some(InodeTable))
    ensures Step(With(s, j, op, held), j, s.threads[j].(op := op'), With(s.(tables := tb), j, op', held'))
  {
    var a, b := With(s, j, op, held), With(s.(tables := tb), j, op', held');
    assert a.threads[j := s.threads[j].(op := op')] == b.threads;
    if held' < held {
      assert Drop(a, j, InodeTable).(threads := b.threads, tables := tb) == b;
    }
  }

  lemma First(n: nat, s: State, t: nat, th': Thread, s1: State, ts: seq<nat>, s': State)
    requires |Creating(s)| <= n && Step(s, t, th', s1) && CalmRun(n, s1, ts, s')
    ensures CalmRun(n, s, [t] + ts, s')
  {
    hide Step, Creating;
    var all := [t] + ts;
    assert all[1..] == ts;
    assert Step(s, all[0], th', s1) && CalmRun(n, s1, all[1..], s');
  }

  lemma {:induction false} Then(n: nat, s: State, a: seq<nat>, s1: State, b: seq<nat>, s2: State)
    requires CalmRun(n, s, a, s1) && CalmRun(n, s1, b, s2)
    ensures CalmRun(n, s, a + b, s2)
    decreases |a|
  {
    hide Step, Creating;
    if |a| == 0 {
      assert a + b == b;
    } else {
      var th', r :| Step(s, a[0], th', r) && CalmRun(n, r, a[1..], s1);
      Then(n, r, a[1..], s1, b, s2);
      var all := a + b;
      assert all[1..] == a[1..] + b;
      assert Step(s, all[0], th', r) && CalmRun(n, r, all[1..], s2);
    }
  }

  // ---------- what one thread does ----------

  ghost predicate Reaches(s: State, s': State) { exists ts: seq<nat> :: CalmRun(MOST, s, ts, s') }

  lemma ReachesSelf(s: State)
    requires |Creating(s)| <= MOST
    ensures Reaches(s, s)
  {
    hide Creating;
    assert CalmRun(MOST, s, [], s);
  }

  lemma ReachesNext(s: State, t: nat, th': Thread, s1: State, s': State)
    requires |Creating(s)| <= MOST && Step(s, t, th', s1) && Reaches(s1, s')
    ensures Reaches(s, s')
  {
    hide Creating, Step, CalmRun;
    var ts: seq<nat> :| CalmRun(MOST, s1, ts, s');
    First(MOST, s, t, th', s1, ts, s');
  }

  lemma ReachesOn(s: State, s1: State, s2: State)
    requires Reaches(s, s1) && Reaches(s1, s2)
    ensures Reaches(s, s2)
  {
    hide CalmRun;
    var a: seq<nat> :| CalmRun(MOST, s, a, s1);
    var b: seq<nat> :| CalmRun(MOST, s1, b, s2);
    Then(MOST, s, a, s1, b, s2);
  }

  // Steps of thread j, seen from a quiet state around it.
  lemma StepAcquire(s: State, j: nat, op: OpenPoint, op': OpenPoint, held: nat, s': State)
    requires Quiet(s) && Around(s, j) && s.threads[j].Open?
    requires var th := s.threads[j].(op := op); Wants(th) == Some(InodeTable) && Acquired(th) == th.(op := op')
    requires Reaches(With(s, j, op', held + 1), s')
    ensures Reaches(With(s, j, op, held), s')
  {
    hide Wants, Acquired, Reaches, Step, Creating;
    Acquires(s, j, op, op', held);
    AtMost27(With(s, j, op, held), j);
    ReachesNext(With(s, j, op, held), j, s.threads[j].(op := op'), With(s, j, op', held + 1), s');
  }

  lemma StepOn(s: State, j: nat, op: OpenPoint, op': OpenPoint, held: nat, held': nat, tb: Tables, s': State)
    requires Quiet(s) && Around(s, j) && s.threads[j].Open? && held > 0
    requires var th, th' := s.threads[j].(op := op), s.threads[j].(op := op');
             && Continues(th, th') && Effect(s.tables, th, th', tb)
             && (if held' == held then Gives(th, th') == None else held' == held - 1 && Gives(th, th') == Some(InodeTable))
    requires Reaches(With(s.(tables := tb), j, op', held'), s')
    ensures Reaches(With(s, j, op, held), s')
  {
    hide Continues, Effect, Gives, Reaches, Step, Creating;
    GoesOn(s, j, op, op', held, held', tb);
    AtMost27(With(s, j, op, held), j);
    ReachesNext(With(s, j, op, held), j, s.threads[j].(op := op'), With(s.(tables := tb), j, op', held'), s');
  }

  // The look-up misses, and inode_create is entered.
  lemma Enters(s: State, j: nat, s': State)
    requires Quiet(s) && Around(s, j) && s.threads[j].Open? && s.threads[j].creat
    requires FindInDir(s.tables.entries, Sub(s.threads[j].name)) == -1
    requires Reaches(With(s, j, OpenCreated, 1), s')
    ensures Reaches(With(s, j, OpenStart, 0), s')
  {
    hide Reaches, With, FindInDir;
    assert s.(tables := s.tables) == s;
    StepAcquire(s, j, OpenCreate, OpenCreated, 0, s');
    StepOn(s, j, OpenMiss, OpenCreate, 1, 0, s.tables, s');
    StepOn(s, j, OpenDecide(-1), OpenMiss, 1, 1, s.tables, s');
    StepOn(s, j, OpenFound, OpenDecide(-1), 2, 1, s.tables, s');
    StepAcquire(s, j, OpenLookup, OpenFound, 1, s');
    StepAcquire(s, j, OpenStart, OpenLookup, 0, s');
  }

  // It takes inode i.
  lemma TakesInode(s: State, j: nat, i: nat, tb: Tables, s': State)
    requires Quiet(s) && Around(s, j) && s.threads[j].Open? && s.threads[j].creat
    requires FindInDir(s.tables.entries, Sub(s.threads[j].name)) == -1 && FirstFree(s.tables.inodeTs) == i
    requires tb == s.tables.(inodeTs := s.tables.inodeTs[i := TAKEN])
    requires Reaches(With(s.(tables := tb), j, OpenAdd(i), 0), s')
    ensures Reaches(With(s, j, OpenStart, 0), s')
  {
    hide Reaches, With, FindInDir;
    StepOn(s, j, OpenCreated, OpenAdd(i), 1, 0, tb, s');
    Enters(s, j, s');
  }

  // And adds its entry.
  lemma AddsEntry(s: State, j: nat, i: nat, tb: Tables, s': State)
    requires Quiet(s) && Around(s, j) && s.threads[j].Open?
    requires AddSlot(s.tables.entries, Sub(s.threads[j].name)) != -1
    requires tb == s.tables.(entries := AddEntry(s.tables.entries, i, Sub(s.threads[j].name)))
    requires Reaches(With(s.(tables := tb), j, OpenScan(0), 0), s')
    ensures Reaches(With(s, j, OpenAdd(i), 0), s')
  {
    hide Reaches, With, AddSlot, AddEntry;
    StepOn(s, j, OpenAdded(i), OpenScan(0), 1, 0, tb, s');
    StepAcquire(s, j, OpenAdd(i), OpenAdded(i), 0, s');
  }

  // ---------- one thread after the other ----------

  lemma NewName(es: Entries, n: nat, j: nat)
    requires n <= MAX_DIR_ENTRIES && Listed(es, n) && n <= j < INODE_TABLE_SIZE
    ensures FindInDir(es, [Letter(j)]) == -1
    ensures n < MAX_DIR_ENTRIES ==> AddSlot(es, [Letter(j)]) != -1
    ensures n < MAX_DIR_ENTRIES && j == n ==> Listed(AddEntry(es, j + 1, [Letter(j)]), n + 1)
  {
    forall e | 0 <= e < MAX_DIR_ENTRIES && es[e].inum != -1 ensures !SameName(es[e].name, [Letter(j)]) {
      SameNameIsEquality(es[e].name, [Letter(j)]);
    }
    if n < MAX_DIR_ENTRIES { assert es[n].inum == -1; }
  }

  lemma StartOf(s: State, j: nat)
    requires Stage(s, j)
    ensures With(s, j, OpenStart, 0) == s && Around(s, j) && s.threads[j] == Part(j, j) && Sub(s.threads[j].name) == [Letter(j)]
    ensures FindInDir(s.tables.entries, [Letter(j)]) == -1
    ensures FirstFree(s.tables.inodeTs) == if j + 1 < INODE_TABLE_SIZE then j + 1 else -1
  {
    hide Listed;
    NewName(s.tables.entries, Min(j, MAX_DIR_ENTRIES), j);
    assert s.threads[j := s.threads[j]] == s.threads;
    assert j + 1 < INODE_TABLE_SIZE ==> s.tables.inodeTs[j + 1] == FREE;
  }

  lemma NextStage(s: State, j: nat) returns (s1: State)
    requires Stage(s, j) && j + 1 < INODE_TABLE_SIZE
    ensures Stage(s1, j + 1) && Reaches(s, s1)
  {
    hide Reaches, Listed, FindInDir, AddSlot, AddEntry, Creating, Around;
    StartOf(s, j);
    NewName(s.tables.entries, Min(j, MAX_DIR_ENTRIES), j);
    var tb: Tables := s.tables.(inodeTs := s.tables.inodeTs[j + 1 := TAKEN]);
    var a := With(s.(tables := tb), j, OpenAdd(j + 1), 0);
    if j < MAX_DIR_ENTRIES {
      var tb': Tables := tb.(entries := AddEntry(tb.entries, j + 1, [Letter(j)]));
      s1 := With(s.(tables := tb'), j, OpenScan(0), 0);
      StillAround(s, s1, j);
      AtMost27(s1, j);
      ReachesSelf(s1);
      StillAround(s, s.(tables := tb), j);
      AddsEntry(s.(tables := tb), j, j + 1, tb', s1);
    } else {
      s1 := a;
      StillAround(s, s1, j);
      AtMost27(s1, j);
      ReachesSelf(s1);
    }
    TakesInode(s, j, j + 1, tb, s1);
  }

  lemma StillAround(s: State, s': State, j: nat)
    requires Around(s, j) && |s'.threads| == |s.threads| && s'.threads == s.threads[j := s'.threads[j]]
    ensures Around(s', j)
  {}

  lemma {:induction false} LastStage(s: State, j: nat) returns (s1: State)
    requires Stage(s, j)
    ensures Stage(s1, INODE_TABLE_SIZE - 1) && Reaches(s, s1)
    decreases INODE_TABLE_SIZE - j
  {
    hide Reaches, Stage;
    StageIndex(s, j);
    if j == INODE_TABLE_SIZE - 1 {
      AtMost27(s, j);
      ReachesSelf(s);
      s1 := s;
    } else {
      var r := NextStage(s, j);
      s1 := LastStage(r, j + 1);
      ReachesOn(s, r, s1);
    }
  }

  lemma StageIndex(s: State, j: nat)
    requires Stage(s, j)
    ensures j < INODE_TABLE_SIZE && Around(s, j)
  {
    hide Listed;
  }

  // The fiftieth thread finds all inodes in use and keeps the inode table.
  lemma LeaksThen(s: State) returns (s': State)
    requires Stage(s, INODE_TABLE_SIZE - 1)
    ensures Reaches(s, s') && |s'.threads| == INODE_TABLE_SIZE && s'.threads[INODE_TABLE_SIZE - 1] == Leaked
  {
    hide Reaches, Listed, FindInDir, Creating;
    var j := INODE_TABLE_SIZE - 1;
    StartOf(s, j);
    var a := With(s, j, OpenCreated, 1);
    s' := a.(threads := a.threads[j := Leaked]);
    assert Step(a, j, Leaked, s');
    AtMost27(s', j);
    ReachesSelf(s');
    AtMost27(a, j);
    ReachesNext(a, j, Leaked, s', s');
    Enters(s, j, s');
  }

  // Fifty threads that create fifty files, on the tables tfs_init leaves.
  ghost function AfterInit(memory: M.Fs): State
  {
    Opening.InitInv(memory);
    State(seq(INODE_TABLE_SIZE, t requires 0 <= t < INODE_TABLE_SIZE => Part(t, 0)), map[], 0, map[], TablesOf(M.Init(memory).0))
  }

  // From there, with 27 threads creating at most, a thread can come to keep the inode table.
  lemma TwentySevenLeak(memory: M.Fs) returns (ts: seq<nat>, s: State)
    ensures Initial(AfterInit(memory)) && Accounted(AfterInit(memory))
    ensures CalmRun(MOST, AfterInit(memory), ts, s) && !NoLeak(s)
  {
    hide Creating, CalmRun, M.Init;
    var s0 := AfterInit(memory);
    InitStage(memory);
    StartAccounted(s0);
    var r := LastStage(s0, 0);
    s := LeaksThen(r);
    ReachesOn(s0, r, s);
    ts :| CalmRun(MOST, s0, ts, s);
    assert s.threads[INODE_TABLE_SIZE - 1] == Leaked;
  }

  lemma InitStage(memory: M.Fs)
    ensures Stage(AfterInit(memory), 0)
  {
    hide M.Init, F.Inv;
    Opening.InitInv(memory);
    var fs := M.Init(memory).0;
    assert forall i: nat :: O.Live(fs, i) <==> i == ROOT_DIR_INUM;
    forall i: nat | i < INODE_TABLE_SIZE ensures fs.inodeTs[i] == TAKEN <==> i <= 0 {
      assert O.Live(fs, i) <==> i == ROOT_DIR_INUM;
    }
  }

  lemma StartAccounted(s: State)
    requires Stage(s, 0)
    ensures Initial(s) && Accounted(s)
  {
    hide Listed;
  }
}
