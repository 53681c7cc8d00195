/** How many threads may create files at once before inode_create runs out of inodes and keeps
    its mutex: the bound that makes deadlock freedom unconditional, and a run past it. */
module Creation {
  import opened Config
  import opened FirstFit
  import opened Directory
  import opened LockOrder
  import I = SingleBlockInv
  import M = MultiBlock
  import O = Ownership
  import F = FlatFile
  import Opening
  import Runs = MultiBlockRuns

  // A thread that has an inode which no entry names yet, or no longer will.
  predicate InFlight(th: Thread) {
    th.Open? && (th.op.OpenAdd? || th.op.OpenAdded? || th.op.OpenDelete? || th.op.OpenDeleted?)
  }

  predicate Creates(th: Thread) { InFlight(th) || (th.Open? && th.op.OpenCreated?) }

  function Creating(s: State): set<int> { set t | 0 <= t < |s.threads| && Creates(s.threads[t]) }

  function Flying(s: State): set<int> { set t | 0 <= t < |s.threads| && InFlight(s.threads[t]) }

  // Every inode in use is the root, or has an entry, or is in the hands of a creating thread.
  ghost predicate Accounted(s: State) {
    forall i :: i in I.TakenIn(s.tables.inodeTs) ==> Known(s, i)
  }

  ghost predicate Known(s: State, i: int) {
    || i == ROOT_DIR_INUM
    || (exists k :: 0 <= k < MAX_DIR_ENTRIES && s.tables.entries[k].inum == i)
    || (exists t :: 0 <= t < |s.threads| && InFlight(s.threads[t]) && s.threads[t].op.i == i)
  }

  // ---------- counting ----------

  // The inodes in the hands of the first n threads, and those threads.
  function FlyingInodes(s: State, n: nat): set<int>
    requires n <= |s.threads|
  {
    set t | 0 <= t < n && InFlight(s.threads[t]) :: s.threads[t].op.i
  }

  function FlyingBelow(s: State, n: nat): set<int>
    requires n <= |s.threads|
  {
    set t | 0 <= t < n && InFlight(s.threads[t])
  }

  lemma OneMore(s: State, n: nat)
    requires n < |s.threads|
    ensures FlyingBelow(s, n + 1) == FlyingBelow(s, n) + (if InFlight(s.threads[n]) then {n} else {})
    ensures FlyingInodes(s, n + 1) == FlyingInodes(s, n) + (if InFlight(s.threads[n]) then {s.threads[n].op.i} else {})
    ensures n !in FlyingBelow(s, n)
  {}

  lemma {:induction false} OneInodeEach(s: State, n: nat)
    requires n <= |s.threads|
    ensures |FlyingInodes(s, n)| <= |FlyingBelow(s, n)|
    decreases n
  {
    hide FlyingInodes, FlyingBelow, InFlight;
    if n == 0 {
      NoneBelow(s);
    } else {
      OneInodeEach(s, n - 1);
      OneMore(s, n - 1);
    }
  }

  lemma NoneBelow(s: State)
    ensures FlyingInodes(s, 0) == {}
  {}

  lemma TakenBound(s: State)
    requires Accounted(s)
    ensures |I.TakenIn(s.tables.inodeTs)| <= 1 + MAX_DIR_ENTRIES + |Flying(s)|
  {
    var named := I.EntryInums(s.tables.entries);
    var all := {ROOT_DIR_INUM} + I.Elements(named) + FlyingInodes(s, |s.threads|);
    forall i | i in I.TakenIn(s.tables.inodeTs) ensures i in all {
      if k :| 0 <= k < MAX_DIR_ENTRIES && s.tables.entries[k].inum == i {
        assert named[k] == i;
      } else if t :| 0 <= t < |s.threads| && InFlight(s.threads[t]) && s.threads[t].op.i == i {
        assert i in FlyingInodes(s, |s.threads|);
      }
    }
    I.SubsetBound(I.TakenIn(s.tables.inodeTs), all);
    I.ElementsBound(named);
    OneInodeEach(s, |s.threads|);
    assert FlyingBelow(s, |s.threads|) == Flying(s);
  }

  // With 26 threads creating, the one in inode_create finds a free inode.
  lemma InodesSuffice(s: State, t: nat)
    requires Accounted(s) && |Creating(s)| <= 26 && t < |s.threads| && s.threads[t].Open? && s.threads[t].op.OpenCreated?
    ensures FirstFree(s.tables.inodeTs) != -1
  {
    TakenBound(s);
    assert t in Creating(s) && t !in Flying(s);
    I.SubsetBound(Flying(s), Creating(s) - {t});
    if FirstFree(s.tables.inodeTs) == -1 { I.FullTable(s.tables.inodeTs); }
  }

  // ---------- every step keeps the account ----------

  lemma SameTablesKnown(s: State, t: nat, s': State, i: int)
    requires Known(s, i) && t < |s.threads| == |s'.threads| && s'.threads == s.threads[t := s'.threads[t]]
    requires s'.tables == s.tables
    requires InFlight(s.threads[t]) ==> InFlight(s'.threads[t]) && s'.threads[t].op.i == s.threads[t].op.i
    ensures Known(s', i)
  {
    if k :| 0 <= k < MAX_DIR_ENTRIES && s.tables.entries[k].inum == i {
      assert s'.tables.entries[k].inum == i;
    } else if u :| 0 <= u < |s.threads| && InFlight(s.threads[u]) && s.threads[u].op.i == i {
      assert InFlight(s'.threads[u]) && s'.threads[u].op.i == i;
    }
  }

  lemma CreatedKnown(s: State, t: nat, s': State)
    requires Accounted(s) && t < |s.threads| == |s'.threads| && s'.threads == s.threads[t := s'.threads[t]]
    requires s.threads[t].Open? && s.threads[t].op.OpenCreated? && FirstFree(s.tables.inodeTs) != -1
    requires var i := FirstFree(s.tables.inodeTs);
             && s'.threads[t] == s.threads[t].(op := OpenAdd(i))
             && s'.tables == s.tables.(inodeTs := s.tables.inodeTs[i := TAKEN])
    ensures Accounted(s')
  {
    forall i | i in I.TakenIn(s'.tables.inodeTs) ensures Known(s', i) {
      if i == FirstFree(s.tables.inodeTs) {
        assert InFlight(s'.threads[t]) && s'.threads[t].op.i == i;
      } else {
        assert i in I.TakenIn(s.tables.inodeTs);
        SameTablesKnown(s, t, s'.(tables := s.tables), i);
        SameEntries(s'.(tables := s.tables), s', i);
      }
    }
  }

  lemma SameEntries(s: State, s': State, i: int)
    requires Known(s, i) && s'.threads == s.threads && s'.tables.entries == s.tables.entries
    ensures Known(s', i)
  {}

  lemma AddedKnown(s: State, t: nat, s': State, i: nat)
    requires Accounted(s) && t < |s.threads| == |s'.threads| && s'.threads == s.threads[t := s'.threads[t]]
    requires s.threads[t].Open? && s.threads[t].op == OpenAdded(i) && AddSlot(s.tables.entries, Sub(s.threads[t].name)) != -1
    requires s'.tables == s.tables.(entries := AddEntry(s.tables.entries, i, Sub(s.threads[t].name)))
    ensures Accounted(s')
  {
    var es, es', slot := s.tables.entries, s'.tables.entries, AddSlot(s.tables.entries, Sub(s.threads[t].name));
    assert es'[slot].inum == i && es[slot].inum == -1;
    forall x | x in I.TakenIn(s'.tables.inodeTs) ensures Known(s', x) {
      assert x in I.TakenIn(s.tables.inodeTs) && Known(s, x);
      if k :| 0 <= k < MAX_DIR_ENTRIES && es[k].inum == x {
        assert es'[k].inum == x;
      } else if u :| 0 <= u < |s.threads| && InFlight(s.threads[u]) && s.threads[u].op.i == x {
        if u != t { assert InFlight(s'.threads[u]) && s'.threads[u].op.i == x; }
      }
    }
  }

  lemma DeletedKnown(s: State, t: nat, s': State, i: nat)
    requires Accounted(s) && t < |s.threads| == |s'.threads| && s'.threads == s.threads[t := s'.threads[t]]
    requires s.threads[t].Open? && s.threads[t].op == OpenDeleted(i)
    requires s'.tables == if i < INODE_TABLE_SIZE then s.tables.(inodeTs := s.tables.inodeTs[i := FREE]) else s.tables
    ensures Accounted(s')
  {
    forall x | x in I.TakenIn(s'.tables.inodeTs) ensures Known(s', x) {
      assert x != i && x in I.TakenIn(s.tables.inodeTs) && Known(s, x);
      if k :| 0 <= k < MAX_DIR_ENTRIES && s.tables.entries[k].inum == x {
        assert s'.tables.entries[k].inum == x;
      } else if u :| 0 <= u < |s.threads| && InFlight(s.threads[u]) && s.threads[u].op.i == x {
        assert u != t && InFlight(s'.threads[u]) && s'.threads[u].op.i == x;
      }
    }
  }

  // A step that leaves the tables alone leaves the inode with the thread, too.
  lemma QuietKnown(s: State, t: nat, s': State)
    requires Accounted(s) && t < |s.threads| == |s'.threads| && s'.threads == s.threads[t := s'.threads[t]]
    requires s'.tables == s.tables
    requires InFlight(s.threads[t]) ==> InFlight(s'.threads[t]) && s'.threads[t].op.i == s.threads[t].op.i
    ensures Accounted(s')
  {
    hide Known;
    forall i | i in I.TakenIn(s'.tables.inodeTs) ensures Known(s', i) {
      SameTablesKnown(s, t, s', i);
    }
  }

  lemma StepShape(s: State, t: nat, th': Thread, s': State)
    requires Step(s, t, th', s')
    ensures |s'.threads| == |s.threads| && s'.threads == s.threads[t := th']
  {
    hide Continues, Effect, Gives, GivesUp, Wants, Granted, Acquired;
  }

  lemma StepKeepsAccount(s: State, t: nat, th': Thread, s': State)
    requires Accounted(s) && Step(s, t, th', s') && th' != Leaked
    ensures Accounted(s')
  {
    hide Accounted, Drop, Take, Gives, Granted, FirstFreeFrom, AddSlot, AddEntry;
    StepShape(s, t, th', s');
    var th := s.threads[t];
    if th.Open? && th.op.OpenCreated? {
      CreatedKnown(s, t, s');
    } else if th.Open? && th.op.OpenAdded? && AddSlot(s.tables.entries, Sub(th.name)) != -1 {
      AddedKnown(s, t, s', th.op.i);
    } else if th.Open? && th.op.OpenDeleted? {
      DeletedKnown(s, t, s', th.op.i);
    } else {
      TablesStay(s, t, th', s');
      QuietKnown(s, t, s');
    }
  }

  lemma TablesStay(s: State, t: nat, th': Thread, s': State)
    requires Step(s, t, th', s') && th' != Leaked
    requires var th := s.threads[t];
             th.Open? ==> && !th.op.OpenCreated? && !th.op.OpenDeleted?
                          && (th.op.OpenAdded? ==> AddSlot(s.tables.entries, Sub(th.name)) == -1)
    ensures s'.tables == s.tables && (InFlight(s.threads[t]) ==> InFlight(th') && th'.op.i == s.threads[t].op.i)
  {
    hide Gives, Granted, AddSlot, AddEntry;
  }

  // ---------- runs in which at most n threads create at once ----------

  ghost predicate CalmRun(n: nat, s: State, ts: seq<nat>, s': State)
    decreases |ts|
  {
    && |Creating(s)| <= n
    && if |ts| == 0 then s' == s
       else exists th', s1 :: Step(s, ts[0], th', s1) && CalmRun(n, s1, ts[1..], s')
  }

  lemma {:induction false} CalmIsRun(n: nat, s: State, ts: seq<nat>, s': State)
    requires CalmRun(n, s, ts, s')
    ensures RunTo(s, ts, s')
    decreases |ts|
  {
    hide Step;
    if |ts| > 0 {
      var th', s1 :| Step(s, ts[0], th', s1) && CalmRun(n, s1, ts[1..], s');
      CalmIsRun(n, s1, ts[1..], s');
    }
  }

  ghost predicate NoLeak(s: State) { forall t :: 0 <= t < |s.threads| ==> s.threads[t] != Leaked }

  lemma StepNoLeak(s: State, t: nat, th': Thread, s': State)
    requires Accounted(s) && NoLeak(s) && |Creating(s)| <= 26 && Step(s, t, th', s')
    ensures th' != Leaked && NoLeak(s')
  {
    hide Accounted, Drop, Take, Gives, Granted, FirstFreeFrom, AddSlot, AddEntry, Creating;
    StepShape(s, t, th', s');
    var th := s.threads[t];
    if th.Open? && th.op.OpenCreated? { InodesSuffice(s, t); }
  }

  // With at most 26 threads creating at once inode_create never keeps its mutex.
  lemma {:induction false} NeverLeaks(s0: State, ts: seq<nat>, s: State)
    requires Accounted(s0) && NoLeak(s0) && CalmRun(26, s0, ts, s)
    ensures NoLeak(s)
    decreases |ts|
  {
    hide Accounted, NoLeak, Step, Creating;
    if |ts| > 0 {
      var th', s1 :| Step(s0, ts[0], th', s1) && CalmRun(26, s1, ts[1..], s);
      assert |Creating(s0)| <= 26;
      StepNoLeak(s0, ts[0], th', s1);
      StepKeepsAccount(s0, ts[0], th', s1);
      NeverLeaks(s1, ts[1..], s);
    }
  }

  // And then there is no deadlock, whatever the threads do.
  lemma CalmDeadlockFree(s0: State, ts: seq<nat>, s: State, t: nat)
    requires Initial(s0) && Accounted(s0) && CalmRun(26, s0, ts, s)
    requires t < |s.threads| && s.threads[t] != Finished
    ensures exists u: nat :: u < |s.threads| && CanStep(s, u)
  {
    hide CanStep, Accounted, CalmRun, RunTo;
    CalmIsRun(26, s0, ts, s);
    NeverLeaks(s0, ts, s);
    DeadlockFree(s0, ts, s, t);
  }

  // ---------- the tables are the real ones ----------

  function TablesOf(fs: M.Fs): Tables
    requires ValidBlock(fs.inodes[ROOT_DIR_INUM].slots[0])
  {
    Tables(fs.inodeTs, F.RootEntries(fs))
  }

  lemma HasRoot(fs: M.Fs)
    requires F.Inv(fs)
    ensures ValidBlock(fs.inodes[ROOT_DIR_INUM].slots[0]) && fs.inodes[ROOT_DIR_INUM].kind == T_DIRECTORY
    ensures fs.inodeTs[ROOT_DIR_INUM] == TAKEN
  {}

  // The step from point op to th' and tables tb'.
  ghost predicate Does(tb: Tables, name: string, creat: bool, op: OpenPoint, th': Thread, tb': Tables) {
    Continues(Open(name, creat, op), th') && Effect(tb, Open(name, creat, op), th', tb')
  }

  // find_in_dir, inode_create, add_dir_entry and inode_delete of an empty file do on the whole
  // state what the steps do on the tables, and the steps do nothing else.
  lemma RealLookup(fs: M.Fs, name: string, creat: bool)
    requires F.Inv(fs) && ValidPathname(name)
    ensures ValidBlock(fs.inodes[ROOT_DIR_INUM].slots[0])
    ensures forall th', tb' :: Does(TablesOf(fs), name, creat, OpenFound, th', tb') <==>
              th' == Open(name, creat, OpenDecide(M.LookupPath(fs, name))) && tb' == TablesOf(fs)
  {
    hide F.Inv;
    HasRoot(fs);
  }

  // Found: the inode's lock is next. Not found: the inode table is given back, to create if asked to.
  lemma RealDecision(fs: M.Fs, name: string, creat: bool)
    requires F.Inv(fs) && ValidPathname(name)
    ensures ValidBlock(fs.inodes[ROOT_DIR_INUM].slots[0])
    ensures var i := M.LookupPath(fs, name);
            forall th', tb' :: Does(TablesOf(fs), name, creat, OpenDecide(i), th', tb') <==>
              && tb' == TablesOf(fs)
              && th' == Open(name, creat, if i != -1 then OpenWantInode(i) else if creat then OpenMiss else OpenGiveUp)
  {
    hide F.Inv, M.LookupPath;
    HasRoot(fs);
    Opening.LookupLive(fs, name);
  }

  lemma RealCreate(fs: M.Fs, name: string, creat: bool)
    requires F.Inv(fs)
    ensures ValidBlock(fs.inodes[ROOT_DIR_INUM].slots[0])
    ensures var (fs', i) := M.InodeCreate(fs, T_FILE);
            && F.Inv(fs') && ValidBlock(fs'.inodes[ROOT_DIR_INUM].slots[0])
            && forall th', tb' :: Does(TablesOf(fs), name, creat, OpenCreated, th', tb') <==>
                 th' == (if i == -1 then Leaked else Open(name, creat, OpenAdd(i))) && tb' == TablesOf(fs')
  {
    hide F.Inv;
    HasRoot(fs);
    if FirstFree(fs.inodeTs) != -1 { Opening.FreshInv(fs); }
  }

  lemma RealAdd(fs: M.Fs, i: nat, name: string, creat: bool)
    requires F.Inv(fs) && O.LiveFile(fs, i) && ValidPathname(name)
    ensures ValidBlock(fs.inodes[ROOT_DIR_INUM].slots[0])
    ensures var (fs', ok) := M.AddDirEntry(fs, i, name[1..]);
            && F.Inv(fs') && ValidBlock(fs'.inodes[ROOT_DIR_INUM].slots[0])
            && forall th', tb' :: Does(TablesOf(fs), name, creat, OpenAdded(i), th', tb') <==>
                 th' == Open(name, creat, if ok then OpenScan(0) else OpenDelete(i)) && tb' == TablesOf(fs')
  {
    hide F.Inv, AddSlot, AddEntry, M.AddDirEntry;
    HasRoot(fs);
    Opening.EntryInv(fs, i, name[1..]);
    HasRoot(M.AddDirEntry(fs, i, name[1..]).0);
    EntryTables(fs, i, name[1..]);
  }

  lemma EntryTables(fs: M.Fs, i: nat, sub: string)
    requires i < INODE_TABLE_SIZE
    ensures M.AddDirEntry(fs, i, sub).0.inodeTs == fs.inodeTs
  {}

  lemma RealDelete(fs: M.Fs, i: nat, name: string, creat: bool)
    requires F.Inv(fs) && O.LiveFile(fs, i) && fs.inodes[i].size == 0
    ensures ValidBlock(fs.inodes[ROOT_DIR_INUM].slots[0])
    ensures var fs' := M.InodeDelete(fs, i).0;
            && ValidBlock(fs'.inodes[ROOT_DIR_INUM].slots[0])
            && forall th', tb' :: Does(TablesOf(fs), name, creat, OpenDeleted(i), th', tb') <==>
                 th' == Finished && tb' == TablesOf(fs')
  {
    hide F.Inv, M.InodeDelete;
    HasRoot(fs);
    Runs.DeleteEmpty(fs, i);
  }
}
