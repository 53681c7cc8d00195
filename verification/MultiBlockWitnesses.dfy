/** Runs of the first version from initialisation that show each of its failures happening. */
module MultiBlockWitnesses {
  import opened Config
  import opened FirstFit
  import opened Directory
  import opened MultiBlock
  import opened Ownership
  import opened WriteTheorems
  import opened FlatFile
  import opened Lifecycle
  import opened Opening
  import opened MultiBlockRuns
  import Conservation

  const CREATE := Flags(true, false, false)

  // The k-th of a row of path names: "/a", "/b", and so on.
  function Letter(k: nat): char
    requires k < 26
  {
    ('a' as int + k) as char
  }

  function Path(k: nat): string
    requires k < 26
  {
    ['/', Letter(k)]
  }

  function Zeros(n: nat): (b: seq<byte>)
    ensures |b| == n
  {
    seq(n, _ => 0)
  }

  // The first k paths are files 1 to k, each open on one handle, and `free` blocks are free.
  ghost predicate Stage(s: Fs, k: nat, free: nat) {
    && k < MAX_OPEN_FILES && Inv(s) && Tidy(s) && FreeCount(s.blockTs) == free
    && (forall i: nat :: Live(s, i) <==> i <= k)
    && (forall h: nat :: OpenHandle(s, h) <==> h < k)
    && Listed(RootEntries(s), k)
  }

  ghost predicate Listed(es: Entries, k: nat)
    requires k < MAX_OPEN_FILES
  {
    forall e :: 0 <= e < MAX_DIR_ENTRIES ==>
      es[e].inum == (if e < k then e + 1 else -1) && (e < k ==> es[e].name == [Letter(e)])
  }

  lemma Started(memory: Fs)
    ensures Stage(Init(memory).0, 0, DATA_BLOCKS - 1)
  {
    hide Init, Inv, Tidy;
    InitInv(memory);
  }

  lemma NextName(es: Entries, k: nat)
    requires k < MAX_OPEN_FILES && Listed(es, k)
    ensures FindInDir(es, [Letter(k)]) == -1 && AddSlot(es, [Letter(k)]) == k
    ensures k + 1 < MAX_OPEN_FILES ==> Listed(AddEntry(es, k + 1, [Letter(k)]), k + 1)
  {
    forall e | 0 <= e < MAX_DIR_ENTRIES && es[e].inum != -1 ensures !SameName(es[e].name, [Letter(k)]) {
      SameNameIsEquality(es[e].name, [Letter(k)]);
    }
  }

  lemma FoundName(es: Entries, k: nat, e: nat)
    requires k < MAX_OPEN_FILES && Listed(es, k) && e < k
    ensures FindInDir(es, [Letter(e)]) == e + 1
  {
    forall j | 0 <= j < MAX_DIR_ENTRIES && es[j].inum != -1 ensures SameName(es[j].name, [Letter(e)]) <==> j == e {
      SameNameIsEquality(es[j].name, [Letter(e)]);
    }
  }

  lemma NextFree(s: Fs, k: nat, free: nat)
    requires Stage(s, k, free)
    ensures ValidBlock(s.inodes[ROOT_DIR_INUM].slots[0]) && s.inodes[ROOT_DIR_INUM].kind == T_DIRECTORY
    ensures FirstFree(s.inodeTs) == k + 1 && FirstFree(s.fileTs) == k
  {
    hide Listed, Owned;
    assert Live(s, k) && !Live(s, k + 1) && !OpenHandle(s, k);
    forall i: nat | i <= k ensures s.inodeTs[i] == TAKEN { assert Live(s, i); }
    forall h: nat | h < k ensures s.fileTs[h] == TAKEN { assert OpenHandle(s, h); }
  }

  lemma SameRoot(s: Fs, s': Fs)
    requires Inv(s) && Inv(s') && SameTables(s, s')
    ensures RootEntries(s') == RootEntries(s)
  {
    hide Owned;
  }

  // Opening the next path with TFS_O_CREAT.
  lemma Created(s: Fs, k: nat, free: nat)
    requires Stage(s, k, free) && k + 1 < MAX_OPEN_FILES
    ensures var (s', r) := Open(s, Path(k), CREATE);
            && r == Ret(k) && Stage(s', k + 1, free)
            && s'.files[k] == OpenFile(k + 1, 0) && s'.inodes[k + 1].size == 0
            && s'.blockTs == s.blockTs
  {
    hide FindInDir, AddSlot, AddEntry, Owned, Shaped, BlockAt, Store;
    assert Path(k)[1..] == [Letter(k)];
    NextFree(s, k, free);
    NextName(RootEntries(s), k);
    OpenNewInv(s, Path(k));
    NewTidy(s, Path(k));
    NewTables(s, Path(k));
    var s' := Open(s, Path(k), CREATE).0;
    assert forall i: nat :: Live(s', i) <==> Live(s, i) || i == k + 1;
    assert forall h: nat :: OpenHandle(s', h) <==> OpenHandle(s, h) || h == k;
  }

  lemma NewTables(s: Fs, name: string)
    requires Inv(s) && ValidPathname(name) && FindName(s, name[1..]) == -1
    requires AddSlot(RootEntries(s), name[1..]) != -1 && FirstFree(s.inodeTs) != -1 && FirstFree(s.fileTs) != -1
    ensures var (s', r) := Open(s, name, CREATE);
            && (s', r) == OpenNew(s, name) && r == Ret(FirstFree(s.fileTs))
            && s'.inodeTs == s.inodeTs[FirstFree(s.inodeTs) := TAKEN] && s'.fileTs == s.fileTs[FirstFree(s.fileTs) := TAKEN]
  {
    hide FindInDir, AddSlot, AddEntry, Owned, Shaped, BlockAt;
    assert Live(s, 0);
  }

  // Writing n bytes through the newest handle.
  lemma Written(s: Fs, k: nat, free: nat, n: nat)
    requires Stage(s, k + 1, free) && s.files[k] == OpenFile(k + 1, 0) && s.inodes[k + 1].size == 0
    requires n <= MAX_FILE_BYTES && Need(n) <= free
    ensures var (s', r) := Write(s, k, Zeros(n));
            && r == Ret(n) && Stage(s', k + 1, free - Need(n))
            && s'.files[k] == OpenFile(k + 1, n) && s'.inodes[k + 1].size == n
  {
    hide Write, Owned, Shaped, BlockAt, Store, Listed, Held, Affordable, Overruns;
    ExactSpace(s, k, Zeros(n));
    WriteRefinesSplice(s, k, Zeros(n));
    NextFree(s, k + 1, free);
    SameRoot(s, Write(s, k, Zeros(n)).0);
    assert forall i: nat :: Live(Write(s, k, Zeros(n)).0, i) <==> Live(s, i);
    assert forall h: nat :: OpenHandle(Write(s, k, Zeros(n)).0, h) <==> OpenHandle(s, h);
  }

  // One more file of n bytes.
  ghost function Filled(s: Fs, k: nat, n: nat): Fs
    requires k < MAX_OPEN_FILES
  {
    Write(Open(s, Path(k), CREATE).0, k, Zeros(n)).0
  }

  lemma FilledStage(s: Fs, k: nat, free: nat, n: nat)
    requires Stage(s, k, free) && k + 1 < MAX_OPEN_FILES && n <= MAX_FILE_BYTES && Need(n) <= free
    ensures Stage(Filled(s, k, n), k + 1, free - Need(n))
    ensures Filled(s, k, n).files[k] == OpenFile(k + 1, n) && Filled(s, k, n).inodes[k + 1].size == n
  {
    hide Stage, Open, Write;
    Created(s, k, free);
    Written(Open(s, Path(k), CREATE).0, k, free, n);
  }

  // ---------- tfs_write that overruns ----------

  // A byte more than 266 blocks: the reference behind the last one is used.
  lemma WritePastTheEnd(memory: Fs)
    ensures Write(Open(Init(memory).0, Path(0), CREATE).0, 0, Zeros(MAX_FILE_BYTES + 1)).1 == Undefined
  {
    hide Init, Open, Write, Stage;
    Started(memory);
    Created(Init(memory).0, 0, DATA_BLOCKS - 1);
    OverrunAtEnd(Open(Init(memory).0, Path(0), CREATE).0);
  }

  lemma OverrunAtEnd(s: Fs)
    requires Stage(s, 1, DATA_BLOCKS - 1) && s.files[0] == OpenFile(1, 0) && s.inodes[1].size == 0
    ensures Write(s, 0, Zeros(MAX_FILE_BYTES + 1)).1 == Undefined
  {
    hide Write, Store;
    WriteRefinesSplice(s, 0, Zeros(MAX_FILE_BYTES + 1));
  }

  // Three full files leave 222 blocks.
  ghost function ThreeFull(memory: Fs): Fs
  {
    Filled(Filled(Filled(Init(memory).0, 0, MAX_FILE_BYTES), 1, MAX_FILE_BYTES), 2, MAX_FILE_BYTES)
  }

  lemma ThreeFullStage(memory: Fs)
    ensures Stage(ThreeFull(memory), 3, 222)
  {
    hide Init, Filled, Stage;
    Started(memory);
    var s0 := Init(memory).0;
    FilledStage(s0, 0, 1023, MAX_FILE_BYTES);
    FilledStage(Filled(s0, 0, MAX_FILE_BYTES), 1, 756, MAX_FILE_BYTES);
    FilledStage(Filled(Filled(s0, 0, MAX_FILE_BYTES), 1, MAX_FILE_BYTES), 2, 489, MAX_FILE_BYTES);
  }

  // A write of one byte more than ten blocks: bonus_block_init gets no block.
  lemma WriteWithoutIndex(memory: Fs)
    ensures var s := Filled(ThreeFull(memory), 3, 211 * BLOCK_SIZE);
            Write(Open(s, Path(4), CREATE).0, 4, Zeros(10 * BLOCK_SIZE + 1)).1 == Undefined
  {
    hide ThreeFull, Filled, Stage, Open, Write;
    ThreeFullStage(memory);
    FilledStage(ThreeFull(memory), 3, 222, 211 * BLOCK_SIZE);
    var s := Filled(ThreeFull(memory), 3, 211 * BLOCK_SIZE);
    Created(s, 4, 10);
    OverrunAtIndex(Open(s, Path(4), CREATE).0);
  }

  lemma OverrunAtIndex(s: Fs)
    requires Stage(s, 5, 10) && s.files[4] == OpenFile(5, 0) && s.inodes[5].size == 0
    ensures Write(s, 4, Zeros(10 * BLOCK_SIZE + 1)).1 == Undefined
  {
    hide Write, Owned;
    assert LiveFile(s, 5) && Shaped(s, 5, SizesOf(s)[5]);
    WriteRefinesSplice(s, 4, Zeros(10 * BLOCK_SIZE + 1));
  }

  // ---------- a failed write that leaves i_size wrong ----------

  lemma Reopened(s: Fs, k: nat, free: nat, e: nat)
    requires Stage(s, k, free) && e < k
    ensures var (s', r) := Open(s, Path(e), Flags(false, false, false));
            && r == Ret(k) && Inv(s') && OpenHandle(s', k) && s'.files[k] == OpenFile(e + 1, 0)
            && s'.inodes == s.inodes && s'.blockTs == s.blockTs && s'.inodeTs == s.inodeTs
  {
    hide Open, Inv, Tidy, FindInDir, Listed;
    assert Path(e)[1..] == [Letter(e)];
    NextFree(s, k, free);
    FoundName(RootEntries(s), k, e);
    Conservation.OpenForCopy(s, Path(e));
  }

  // A file of ten blocks is written again from its start, with more bytes than there are blocks
  // for: -1, and an i_size that is not the size of the file.
  lemma FailedWriteCounterexample(memory: Fs)
    ensures var s := Filled(ThreeFull(memory), 3, 10 * BLOCK_SIZE);
            var s1 := Open(s, Path(3), Flags(false, false, false)).0;
            var (s2, r) := Write(s1, 4, Zeros(MAX_FILE_BYTES));
            && r == Fail && Inv(s1) && !Inv(s2)
            && s2.inodes[4].size != s2.files[4].offset == EndOfWrite(s1, 4, s2.files[4].offset)
  {
    hide ThreeFull, Filled, Open, Write, Inv, Tidy, Listed;
    ThreeFullStage(memory);
    FilledStage(ThreeFull(memory), 3, 222, 10 * BLOCK_SIZE);
    var s := Filled(ThreeFull(memory), 3, 10 * BLOCK_SIZE);
    Reopened(s, 4, 212, 3);
    NoRoom(Open(s, Path(3), Flags(false, false, false)).0);
  }

  lemma NoRoom(s: Fs)
    requires Inv(s) && OpenHandle(s, 4) && s.files[4] == OpenFile(4, 0)
    requires s.inodes[4].size == 10 * BLOCK_SIZE && FreeCount(s.blockTs) == 212
    ensures var (s2, r) := Write(s, 4, Zeros(MAX_FILE_BYTES));
            && r == Fail && !Inv(s2)
            && s2.inodes[4].size != s2.files[4].offset == EndOfWrite(s, 4, s2.files[4].offset)
  {
    hide Write, Owned;
    assert LiveFile(s, 4) && Shaped(s, 4, SizesOf(s)[4]);
    WriteRefinesSplice(s, 4, Zeros(MAX_FILE_BYTES));
    WriteAnswers(s, 4, Zeros(MAX_FILE_BYTES));
    FailedWrite(s, 4, Zeros(MAX_FILE_BYTES));
  }

  lemma WriteAnswers(s: Fs, h: int, buf: seq<byte>)
    ensures Write(s, h, buf).1 == Ret(|buf|) || Write(s, h, buf).1 == Fail || Write(s, h, buf).1 == Undefined
  {
    hide WriteLoop;
  }

  // ---------- truncation ----------

  // A file of ten blocks and a byte is opened with TFS_O_TRUNC: slot 10 names a block that is
  // FREE, so ownership fails.
  lemma TruncationCounterexample(memory: Fs)
    ensures var s := Filled(Init(memory).0, 0, 10 * BLOCK_SIZE + 1);
            var s' := Open(s, Path(0), Flags(false, true, false)).0;
            && Inv(s) && !Inv(s')
            && s'.inodes[1].size == 0
            && ValidBlock(BlockAt(s', 1, INDEX)) && s'.blockTs[BlockAt(s', 1, INDEX)] == FREE
  {
    hide Init, Filled, Open, Inv, Tidy, BlockAt, FindInDir, TruncSafe;
    Started(memory);
    FilledStage(Init(memory).0, 0, DATA_BLOCKS - 1, 10 * BLOCK_SIZE + 1);
    var s := Filled(Init(memory).0, 0, 10 * BLOCK_SIZE + 1);
    NextFree(s, 1, DATA_BLOCKS - 1 - Need(10 * BLOCK_SIZE + 1));
    FoundName(RootEntries(s), 1, 0);
    assert Path(0)[1..] == [Letter(0)];
    TruncatedRun(s, Path(0));
  }

  lemma TruncatedRun(s: Fs, name: string)
    requires Inv(s) && LookupPath(s, name) == 1 && s.inodes[1].size == 10 * BLOCK_SIZE + 1
    ensures var s' := Open(s, name, Flags(false, true, false)).0;
            && !Inv(s') && s'.inodes[1].size == 0
            && ValidBlock(BlockAt(s', 1, INDEX)) && s'.blockTs[BlockAt(s', 1, INDEX)] == FREE
  {
    hide Owned, FreeBlocks, FindInDir;
    LookupLive(s, name);
    assert Shaped(s, 1, SizesOf(s)[1]);
    TruncateFrees(s, 1);
    TruncateStore(s, 1);
    OpenInv(s, name, Flags(false, true, false));
  }

  // ---------- inode_delete on a full file ----------

  // First fit without a release keeps the TAKEN blocks in front.
  predicate Packed(ts: seq<Alloc>) { forall a, b :: 0 <= a < b < |ts| && ts[b] == TAKEN ==> ts[a] == TAKEN }

  lemma LookupPacks(s: Fs, i: nat, off: nat)
    requires i < INODE_TABLE_SIZE && Packed(s.blockTs)
    ensures Packed(CurrentBlock(s, i, off).0.blockTs)
  {}

  lemma {:induction false} LoopPacks(s: Fs, h: nat, buf: seq<byte>)
    requires Usable(s, h) && Packed(s.blockTs)
    ensures Packed(WriteLoop(s, h, buf).0.blockTs)
    decreases |buf|
  {
    hide CurrentBlock, Packed;
    if |buf| > 0 {
      LookupPacks(s, s.files[h].inum, s.files[h].offset);
      if WriteStep(s, h, buf).1 == Done {
        LoopPacks(WriteStep(s, h, buf).0, h, buf[Chunk(s.files[h].offset, |buf|)..]);
      }
    }
  }

  // The file of 266 blocks that the first run can make is deleted all right.
  lemma FullFileDeletes(memory: Fs)
    ensures var s := Filled(Init(memory).0, 0, MAX_FILE_BYTES);
            && Inv(s) && s.inodes[1].size == MAX_FILE_BYTES && InodeDelete(s, 1).1 == Ret(0)
  {
    hide Filled, Stage, Open, Write, InodeDelete, Packed;
    Started(memory);
    var s0 := Init(memory).0;
    Created(s0, 0, DATA_BLOCKS - 1);
    FilledStage(s0, 0, DATA_BLOCKS - 1, MAX_FILE_BYTES);
    InitPacks(memory);
    FilledPacks(s0, DATA_BLOCKS - 1);
    InsideTheEdge(Filled(s0, 0, MAX_FILE_BYTES));
  }

  lemma InitPacks(memory: Fs)
    ensures Packed(Init(memory).0.blockTs)
  {}

  lemma FilledPacks(s: Fs, free: nat)
    requires Stage(s, 0, free) && Packed(s.blockTs)
    ensures Packed(Filled(s, 0, MAX_FILE_BYTES).blockTs)
  {
    hide Open, Stage, WriteLoop, Packed;
    Created(s, 0, free);
    LoopPacks(Open(s, Path(0), CREATE).0, 0, Zeros(MAX_FILE_BYTES));
  }

  lemma LastIsFree(ts: seq<Alloc>)
    requires Packed(ts) && FREE in ts
    ensures ts[|ts| - 1] == FREE
  {}

  lemma InsideTheEdge(s: Fs)
    requires Stage(s, 1, DATA_BLOCKS - 1 - Need(MAX_FILE_BYTES)) && Packed(s.blockTs)
    ensures Inv(s) && InodeDelete(s, 1).1 == Ret(0)
  {
    hide Owned, InodeDelete;
    assert Live(s, 1);
    ValidParts(s, SizesOf(s), 1, INDEX);
    FreeCountZero(s.blockTs);
    LastIsFree(s.blockTs);
    DeleteReleases(s, 1);
  }

  // A file of 266 blocks whose index block is block 1023: blocks 1 to 266 hold its data.
  function EdgeInode(i: nat): Inode
  {
    if i == 0 then Inode(T_DIRECTORY, BLOCK_SIZE, seq(BLOCKS, k => if k == 0 then 0 else -1))
    else if i == 1 then
      Inode(T_FILE, MAX_FILE_BYTES, seq(BLOCKS, k => if k < INDIRECT_ACCESS_BLOCK then k + 1 else DATA_BLOCKS - 1))
    else Inode(T_FILE, 0, seq(BLOCKS, _ => -1))
  }

  function EdgeBlock(): Block
  {
    var es: Entries := seq(MAX_DIR_ENTRIES, _ => DirEntry("", -1));
    Block(Zeros(BLOCK_SIZE), seq(INDIRECT_REFERENCES, j => j + 11), es)
  }

  function EdgeState(): Fs
  {
    Fs(seq(INODE_TABLE_SIZE, i requires 0 <= i => EdgeInode(i)), seq(INODE_TABLE_SIZE, i => if i <= 1 then TAKEN else FREE),
       seq(DATA_BLOCKS, _ => EdgeBlock()), seq(DATA_BLOCKS, b => if b <= INDEX || b == DATA_BLOCKS - 1 then TAKEN else FREE),
       seq(MAX_OPEN_FILES, _ => OpenFile(0, 0)), seq(MAX_OPEN_FILES, _ => FREE))
  }

  // There the code reads behind the memory of the file system.
  lemma EdgeCounterexample()
    ensures var s := EdgeState();
            Inv(s) && LiveFile(s, 1) && AtTheEdge(s, 1, s.inodes[1].size) && InodeDelete(s, 1).1 == Undefined
  {
    hide InodeDelete, Owned, Shaped, BlockAt;
    EdgeOwned();
    EdgeShaped();
    DeleteReleases(EdgeState(), 1);
  }

  lemma EdgeParts(r: nat)
    requires r <= INDEX
    ensures BlockAt(EdgeState(), 1, r) == if r < INDEX then r + 1 else DATA_BLOCKS - 1
    ensures BlockAt(EdgeState(), 0, r) == if r == 0 then 0 else -1
  {}

  lemma EdgeShaped()
    ensures Shaped(EdgeState(), 1, MAX_FILE_BYTES)
  {
    hide EdgeState, BlockAt;
    forall r: nat | r <= INDEX ensures BlockAt(EdgeState(), 1, r) != -1 { EdgeParts(r); }
  }

  lemma EdgeTables()
    ensures var s := EdgeState();
            && (forall i: nat :: Live(s, i) <==> i <= 1)
            && (forall b :: 0 <= b < DATA_BLOCKS ==> (s.blockTs[b] == TAKEN <==> b <= INDEX || b == DATA_BLOCKS - 1))
  {
    hide EdgeInode, EdgeBlock;
  }

  lemma EdgeOwned()
    ensures exists owner :: Owned(EdgeState(), owner)
  {
    hide BlockAt, EdgeState, Live;
    EdgeTables();
    var s := EdgeState();
    forall r: nat | r <= INDEX
      ensures BlockAt(s, 1, r) == (if r < INDEX then r + 1 else DATA_BLOCKS - 1) && BlockAt(s, 0, r) == if r == 0 then 0 else -1
    {
      EdgeParts(r);
    }
    assert Owned(s, EdgeOwner());
  }

  ghost function EdgeOwner(): map<int, Role>
  {
    var s := EdgeState();
    map b: int | 0 <= b < DATA_BLOCKS && s.blockTs[b] == TAKEN ::
      if b == 0 then Role(0, 0) else if b <= INDEX then Role(1, b - 1) else Role(1, INDEX)
  }
}
