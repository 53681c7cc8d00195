/** Runs of the second version that go wrong: a file truncated under another caller's handle, and
    a file opened after the shutdown. */
module SingleBlockWitnesses {
  import opened Config
  import opened FirstFit
  import opened Directory
  import opened SingleBlock
  import opened SingleBlockInv
  import opened SingleBlockCalls
  import Runs = SingleBlockRuns
  import D = Shutdown

  const CREATE := Flags(true, false, false)
  const TRUNCATE := Flags(false, true, false)

  // Create "/a", write the bytes through handle 0, open it again with TFS_O_TRUNC.
  function Opened(memory: Fs): Fs { Open(Init(memory).0, "/a", CREATE).0 }

  function Truncated(memory: Fs, data: seq<byte>): Fs
  {
    Open(Write(Opened(memory), 0, data).0, "/a", TRUNCATE).0
  }

  lemma OpenedState(memory: Fs)
    ensures var s := Opened(memory);
            && Inv(s) && OpenHandle(s, 0) && s.files[0] == OpenFile(1, 0) && LookupPath(s, "/a") == 1
            && s.inodes[1].size == 0 && FirstFree(s.blockTs) == 1
  {
    hide Owned;
    InitInv(memory);
    var s := Init(memory).0;
    assert Live(s, 0) && !Live(s, 1) && FirstFree(s.inodeTs) == 1;
    assert !OpenHandle(s, 0) && FirstFree(s.fileTs) == 0;
    assert "/a"[1..] == "a";
    EmptyDirectory(s);
    OneBlockTaken(s);
    FirstOpen(s);
  }

  lemma OneBlockTaken(s: Fs)
    requires Inv(s) && forall i :: Live(s, i) <==> i == ROOT_DIR_INUM
    ensures FirstFree(s.blockTs) == 1
  {
    var owner: map<int, int> :| Owned(s, owner);
    assert Holder(s, ROOT_DIR_INUM);
    assert s.blockTs[0] == TAKEN && s.blockTs[1] == FREE;
  }

  lemma EmptyDirectory(s: Fs)
    requires Inv(s) && forall i :: Live(s, i) <==> i == ROOT_DIR_INUM
    ensures FindInDir(RootEntries(s), "a") == -1 && AddSlot(RootEntries(s), "a") == 0
  {
    hide Owned;
    assert forall k :: !Entry(RootEntries(s), k);
  }

  lemma FirstOpen(s: Fs)
    requires Inv(s) && FirstFree(s.inodeTs) == 1 && FirstFree(s.fileTs) == 0
    requires FindInDir(RootEntries(s), "a") == -1 && AddSlot(RootEntries(s), "a") == 0
    ensures var s' := Open(s, "/a", CREATE).0;
            && Inv(s') && OpenHandle(s', 0) && s'.files[0] == OpenFile(1, 0) && LookupPath(s', "/a") == 1
            && s'.inodes[1].size == 0 && s'.blockTs == s.blockTs
  {
    hide Owned, DirectoryOk, FindInDir, AddSlot, AddEntry;
    assert "/a"[1..] == "a";
    LiveHasDirectory(s);
    OpenNewSteps(s, "/a", CREATE);
    NewFileInv(s, "a");
    EntryAdded(s, 1, "a");
    Runs.CreatedIsFound(s, "/a", CREATE);
  }

  // The handle that wrote n bytes stands at n in a file that is empty now.
  lemma TruncatedState(memory: Fs, data: seq<byte>)
    requires 0 < |data| <= BLOCK_SIZE
    ensures var s := Truncated(memory, data);
            && Inv(s) && OpenHandle(s, 0) && s.files[0] == OpenFile(1, |data|) && LiveFile(s, 1) && s.inodes[1].size == 0
            && s.inodes[1].block == 1
  {
    hide Opened, Inv, Write, FindInDir, Truncate, FilesOk, Init;
    OpenedState(memory);
    var s := Opened(memory);
    WriteNeverFails(s, 0, data);
    WriteFiles(s, 0, data);
    var s1 := Write(s, 0, data).0;
    SameLookup(s, s1);
    LookupLive(s1, "/a");
    TruncateInv(s1, 1);
    OpenExistingInv(s1, 1, TRUNCATE);
    OtherHandle(s1);
  }

  lemma SameLookup(s: Fs, s': Fs)
    requires Inv(s) && Inv(s') && RootEntries(s') == RootEntries(s)
    ensures LookupPath(s', "/a") == LookupPath(s, "/a")
  {
    hide FindInDir, Owned;
  }

  lemma OtherHandle(s: Fs)
    requires OpenHandle(s, 0)
    ensures AddToOpenFileTable(s, 1, 0).0.files[0] == s.files[0] && AddToOpenFileTable(s, 1, 0).0.fileTs[0] == TAKEN
  {}

  // An empty file yields bytes: those left in the block it no longer owns.
  lemma StaleRead(memory: Fs)
    ensures var s := Truncated(memory, seq(10, _ => 0));
            var (_, r) := Read(s, 0, 5);
            s.inodes[1].size == 0 && r.Got? && |r.data| == 5
  {
    hide Truncated, Inv;
    TruncatedState(memory, seq(10, _ => 0));
    ReadMeaning(Truncated(memory, seq(10, _ => 0)), 0, 5);
  }

  // From the end of its block the read goes on in the block of somebody else, and leaves the
  // handle past the block: the next write wraps around and writes past all memory.
  lemma CrossingRead(memory: Fs)
    ensures var s := Truncated(memory, seq(BLOCK_SIZE, _ => 0));
            var (s', r) := Read(s, 0, 1);
            && s.inodes[1].size == 0 && r == Got([s.blocks[2].bytes[0]])
            && Write(s', 0, [0]).1 == Undefined
  {
    hide Truncated, Inv, Read, Write;
    var s := Truncated(memory, seq(BLOCK_SIZE, _ => 0));
    TruncatedState(memory, seq(BLOCK_SIZE, _ => 0));
    ReadMeaning(s, 0, 1);
    assert Read(s, 0, 1).1.data == [s.blocks[2].bytes[0]];
    WriteNeverFails(Read(s, 0, 1).0, 0, [0]);
  }

  // ---------- a late opener ----------

  // One caller of tfs_open on the tables tfs_init leaves.
  function Late(fs: Fs, lock: D.Holder, canOpen: bool, th: D.Thread, d: D.Destroyer): D.State
  {
    D.State(fs, lock, canOpen, 0, [th], d)
  }

  function Destroys(): seq<D.Actor> { [D.Move(0), D.MoveDestroyer, D.MoveDestroyer, D.MoveDestroyer, D.MoveDestroyer] }

  lemma Leads(s: D.State, a: D.Actor, s': D.State, rest: seq<D.Actor>, moves: seq<D.Actor>)
    requires D.Enabled(s, a) && D.Next(s, a) == s' && D.Schedule(s', rest) && moves == [a] + rest
    ensures D.Schedule(s, moves) && D.After(s, moves) == D.After(s', rest)
  {
    hide D.Enabled, D.Next;
    assert moves[1..] == rest;
  }

  // The opener passes the test, the destroyer starts and finishes, and then the file is opened.
  lemma LateOpen(memory: Fs)
    ensures var s0 := Late(Init(memory).0, D.Nobody, true, D.OpenStart("/a", CREATE), D.Waiting);
            var s1 := D.After(s0, Destroys());
            && D.Initial(s0) && Inv(s0.fs) && s0.openFiles == D.TakenCount(s0.fs.fileTs)
            && D.Schedule(s0, Destroys()) && s1.destroyer == D.Finished
            && D.Schedule(s1, [D.Move(0), D.Move(0)]) && TAKEN in D.After(s1, [D.Move(0), D.Move(0)]).fs.fileTs
  {
    hide Init, Open, Inv, D.Schedule, D.After;
    InitInv(memory);
    var fs := Init(memory).0;
    NoneTaken(fs);
    FinishesFirst(fs);
    OpensThen(memory);
  }

  lemma NoneTaken(fs: Fs)
    requires forall h :: !OpenHandle(fs, h)
    ensures D.TakenCount(fs.fileTs) == 0
  {
    forall h | 0 <= h < MAX_OPEN_FILES ensures fs.fileTs[h] != TAKEN { assert !OpenHandle(fs, h); }
    assert TAKEN !in multiset(fs.fileTs);
  }

  lemma FinishesFirst(fs: Fs)
    ensures var s0 := Late(fs, D.Nobody, true, D.OpenStart("/a", CREATE), D.Waiting);
            && D.Schedule(s0, Destroys())
            && D.After(s0, Destroys()) == Late(fs, D.Nobody, false, D.OpenPassed("/a", CREATE), D.Finished)
  {
    hide D.Schedule, D.After;
    var passed := D.OpenPassed("/a", CREATE);
    var m := D.MoveDestroyer;
    var s1 := Late(fs, D.Nobody, true, passed, D.Waiting);
    var s2 := Late(fs, D.TheDestroyer, true, passed, D.Entered);
    var s3 := Late(fs, D.TheDestroyer, false, passed, D.Testing);
    var s4 := Late(fs, D.TheDestroyer, false, passed, D.Left);
    var s5 := Late(fs, D.Nobody, false, passed, D.Finished);
    Nowhere(s5);
    Leads(s4, m, s5, [], [m]);
    Leads(s3, m, s4, [m], [m, m]);
    Leads(s2, m, s3, [m, m], [m, m, m]);
    Leads(s1, m, s2, [m, m, m], [m, m, m, m]);
    Leads(Late(fs, D.Nobody, true, D.OpenStart("/a", CREATE), D.Waiting), D.Move(0), s1, [m, m, m, m], Destroys());
  }

  lemma Nowhere(s: D.State)
    ensures D.Schedule(s, []) && D.After(s, []) == s
  {}

  lemma OpensThen(memory: Fs)
    ensures var s := Late(Init(memory).0, D.Nobody, false, D.OpenPassed("/a", CREATE), D.Finished);
            D.Schedule(s, [D.Move(0), D.Move(0)]) && TAKEN in D.After(s, [D.Move(0), D.Move(0)]).fs.fileTs
  {
    hide Init, Open, Inv, D.Schedule, D.After, LookupPath;
    var fs := Init(memory).0;
    OpenedState(memory);
    var passed := Late(fs, D.Nobody, false, D.OpenPassed("/a", CREATE), D.Finished);
    var locked := Late(fs, D.Caller(0), false, D.OpenLocked("/a", CREATE), D.Finished);
    var ran := D.Next(locked, D.Move(0));
    Nowhere(ran);
    Leads(locked, D.Move(0), ran, [], [D.Move(0)]);
    Leads(passed, D.Move(0), locked, [D.Move(0)], [D.Move(0), D.Move(0)]);
    assert ran.fs.fileTs[0] == TAKEN;
  }
}
