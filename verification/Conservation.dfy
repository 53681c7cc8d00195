/** Storage comes back, bytes come back: create-grow-delete, the write/read round trip across
    a reopening, and the loop that copies a file out. */
module Conservation {
  import opened Config
  import opened FirstFit
  import opened Directory
  import opened MultiBlock
  import opened Ownership
  import opened FlatFile
  import opened Reading
  import opened Lifecycle
  import opened Opening

  // Writes through any handles, stopping at the first that fails.
  function GrowAll(s: Fs, ops: seq<(nat, seq<byte>)>): (Fs, bool)
    decreases |ops|
  {
    if |ops| == 0 then (s, true)
    else
      var (s1, r) := Write(s, ops[0].0, ops[0].1);
      if r.Ret? then GrowAll(s1, ops[1..]) else (s1, false)
  }

  ghost predicate AllOn(s: Fs, i: nat, ops: seq<(nat, seq<byte>)>) {
    forall k :: 0 <= k < |ops| ==> OpenHandle(s, ops[k].0) && s.files[ops[k].0].inum == i
  }

  lemma {:induction false} GrowKeeps(s: Fs, i: nat, ops: seq<(nat, seq<byte>)>)
    requires Inv(s) && AllOn(s, i, ops) && GrowAll(s, ops).1
    ensures var s' := GrowAll(s, ops).0;
            && Inv(s') && OtherParts(s, s', i) && s'.inodeTs == s.inodeTs && OtherFilesSame(s, s', i)
    decreases |ops|
  {
    hide Inv, Write, Contents, BlockAt, ContentReady;
    if |ops| > 0 {
      var s1 := Write(s, ops[0].0, ops[0].1).0;
      WriteRefinesSplice(s, ops[0].0, ops[0].1);
      assert AllOn(s1, i, ops[1..]);
      GrowKeeps(s1, i, ops[1..]);
    }
  }

  // Create a file, write to it through any handles, delete it: the tables of free blocks and
  // free inodes are what they were, and no other file's blocks or bytes are touched. Only a
  // file of all 266 blocks whose index block is block 1023 cannot be deleted.
  lemma CreateGrowDelete(s: Fs, s2: Fs, ops: seq<(nat, seq<byte>)>)
    requires Inv(s) && FirstFree(s.inodeTs) != -1
    requires var (s1, i) := InodeCreate(s, T_FILE);
             && Inv(s2) && s2 == s1.(files := s2.files, fileTs := s2.fileTs)
             && AllOn(s2, i, ops) && GrowAll(s2, ops).1
    ensures var i, s3 := FirstFree(s.inodeTs), GrowAll(s2, ops).0;
            var (s4, r) := InodeDelete(s3, i);
            && (r == Ret(0) <==> !AtTheEdge(s3, i, s3.inodes[i].size))
            && (r == Ret(0) ==>
                  && s4.inodeTs == s.inodeTs && s4.blockTs == s.blockTs
                  && OtherParts(s, s4, i)
                  && forall j: nat :: LiveFile(s, j) && ContentReady(s, j) ==>
                       LiveFile(s4, j) && ContentReady(s4, j) && Contents(s4, j) == Contents(s, j))
  {
    hide Owned, BlockAt, ByteAt, Shaped, GrowAll, InodeDelete, HandlesOk, EntriesOk;
    FreshFile(s);
    FreshInv(s);
    var (s1, i) := InodeCreate(s, T_FILE);
    var s3 := GrowAll(s2, ops).0;
    GrowKeeps(s2, i, ops);
    FileBound(s3, i);
    DeleteReleases(s3, i);
    var (s4, r) := InodeDelete(s3, i);
    HandlesOnly(s1, s2);
    if r == Ret(0) {
      assert OtherParts(s, s4, i);
      assert s4.inodeTs == s.inodeTs;
      PartsDetermineTable(s, s4, SizesOf(s), SizesOf(s3)[i := 0]);
    }
  }

  lemma FileBound(s: Fs, i: nat)
    requires Inv(s) && Live(s, i) && i > 0
    ensures LiveFile(s, i) && CeilBlocks(s.inodes[i].size) <= INDEX
  {
    assert Shaped(s, i, SizesOf(s)[i]);
  }

  lemma HandlesOnly(s: Fs, s': Fs)
    requires s' == s.(files := s'.files, fileTs := s'.fileTs)
    ensures forall j: nat, q: nat :: j < INODE_TABLE_SIZE && q <= INDEX ==> BlockAt(s', j, q) == BlockAt(s, j, q)
    ensures forall j: nat :: ContentReady(s, j) ==> ContentReady(s', j) && Contents(s', j) == Contents(s, j)
  {}

  // ---------- round trip ----------

  // Create, write in any chunks, close, open again, read in any chunks: the bytes come back.
  lemma RoundTrip(s: Fs, name: string, chunks: seq<seq<byte>>, lens: seq<nat>)
    requires Inv(s) && ValidPathname(name) && |name| <= MAX_FILE_NAME && LookupPath(s, name) == -1
    requires Open(s, name, Flags(true, false, false)).1.Ret?
    requires var (s1, r1) := Open(s, name, Flags(true, false, false)); WriteAll(s1, r1.n, chunks).1
    ensures var (s1, r1) := Open(s, name, Flags(true, false, false));
            var s3 := Close(WriteAll(s1, r1.n, chunks).0, r1.n).0;
            var (s4, r4) := Open(s3, name, Flags(false, false, false));
            && r4.Ret?
            && ReadAll(s4, r4.n, lens).1 == Concat(chunks)[..Min(Total(lens), |Concat(chunks)|)]
  {
    hide Inv, Contents, WriteAll, ReadAll, FindInDir, AddSlot, AddEntry;
    OpenNewInv(s, name);
    EntriesStored(s);
    var (s1, r1) := Open(s, name, Flags(true, false, false));
    var i, h := FirstFree(s.inodeTs), r1.n;
    NewNameFound(s, s1, name, i);
    ChunkedWrites(s1, h, chunks);
    EmptyContents(s1, i);
    var s2 := WriteAll(s1, h, chunks).0;
    assert [] + Concat(chunks) == Concat(chunks);
    LookupFrame(s1, s2, name);
    CloseInv(s2, h);
    var s3 := Close(s2, h).0;
    LookupFrame(s2, s3, name);
    assert s3.fileTs[h] == FREE;
    LookupLive(s3, name);
    AddHandleInv(s3, i, 0);
    var (s4, r4) := Open(s3, name, Flags(false, false, false));
    ChunkedReads(s4, r4.n, lens);
  }

  lemma EntriesStored(s: Fs)
    requires Inv(s)
    ensures StoredNames(RootEntries(s)) && s.inodes[ROOT_DIR_INUM].kind == T_DIRECTORY
  {}

  lemma NewNameFound(s: Fs, s1: Fs, name: string, i: nat)
    requires Inv(s) && Inv(s1) && ValidPathname(name) && |name| <= MAX_FILE_NAME && LookupPath(s, name) == -1
    requires AddSlot(RootEntries(s), name[1..]) != -1 && RootEntries(s1) == AddEntry(RootEntries(s), i, name[1..])
    ensures LookupPath(s1, name) == i
  {
    hide Owned, Shaped, BlockAt, AddSlot, AddEntry, FindInDir;
    AddThenFind(RootEntries(s), i, name[1..]);
  }

  lemma EmptyContents(s: Fs, i: nat)
    requires i < INODE_TABLE_SIZE && s.inodes[i].size == 0
    ensures Contents(s, i) == []
  {}

  lemma LookupFrame(s: Fs, s': Fs, name: string)
    requires s'.inodes[ROOT_DIR_INUM] == s.inodes[ROOT_DIR_INUM]
    requires forall b :: 0 <= b < DATA_BLOCKS ==> s'.blocks[b].entries == s.blocks[b].entries
    ensures LookupPath(s', name) == LookupPath(s, name)
  {
    hide FindInDir;
  }

  // ---------- appending ----------

  // Opened with TFS_O_APPEND, a write that succeeds puts its bytes behind what the file holds
  // after the open: its contents, or nothing with TFS_O_TRUNC.
  lemma AppendAtEnd(s: Fs, name: string, flags: Flags, buf: seq<byte>)
    requires Inv(s) && LookupPath(s, name) != -1 && flags.append
    requires Inv(Open(s, name, flags).0) && Open(s, name, flags).1.Ret?
    requires Write(Open(s, name, flags).0, Open(s, name, flags).1.n, buf).1.Ret?
    ensures var (s1, r), i := Open(s, name, flags), LookupPath(s, name);
            var s2 := Write(s1, r.n, buf).0;
            && Inv(s2) && i > 0 && ContentReady(s, i) && ContentReady(s2, i)
            && Contents(s2, i) == (if flags.trunc then buf else Contents(s, i) + buf)
            && OtherFilesSame(s, s2, i)
  {
    hide Inv, Contents, Open, Write, LookupPath, HandlesOk;
    OpenFoundFile(s, name, flags);
    var (s1, r) := Open(s, name, flags);
    WriteRefinesSplice(s1, r.n, buf);
    AppendedContents(s1, r.n, buf, Write(s1, r.n, buf).0);
  }

  // ---------- copying a file out ----------

  // The loop of tfs_copy_to_external_fs: 128 bytes at a time until a read is shorter.
  ghost function CopyLoop(s: Fs, h: nat): (Fs, seq<byte>)
    requires Inv(s) && OpenHandle(s, h) && Usable(s, h)
    decreases s.inodes[s.files[h].inum].size - s.files[h].offset
  {
    ReadRefinesSlice(s, h, BUFFER_SIZE);
    var (s1, r) := Read(s, h, BUFFER_SIZE);
    if |r.data| == BUFFER_SIZE then
      var (s2, rest) := CopyLoop(s1, h);
      (s2, r.data + rest)
    else (s1, r.data)
  }

  // Run alone, it puts out the whole rest of the file, for every size, and moves one offset.
  lemma {:induction false} CopyLoopComplete(s: Fs, h: nat)
    requires Inv(s) && OpenHandle(s, h) && Usable(s, h)
    ensures var i, off := s.files[h].inum, s.files[h].offset;
            && ContentReady(s, i) && off <= |Contents(s, i)|
            && CopyLoop(s, h) == (SetOffset(s, h, |Contents(s, i)|), Contents(s, i)[off..])
    decreases s.inodes[s.files[h].inum].size - s.files[h].offset
  {
    hide Inv, Read, Contents, HandlesOk;
    ReadRefinesSlice(s, h, BUFFER_SIZE);
    LiveSizes(s, h);
    var i, off := s.files[h].inum, s.files[h].offset;
    var c := Contents(s, i);
    var n := Min(BUFFER_SIZE, |c| - off);
    if n == BUFFER_SIZE {
      var s1 := SetOffset(s, h, off + n);
      OffsetInv(s, h, off + n);
      CopyLoopComplete(s1, h);
      assert SetOffset(s1, h, |c|).files == SetOffset(s, h, |c|).files;
      assert c[off..off + n] + c[off + n..] == c[off..];
    } else {
      assert c[off..off + n] == c[off..];
    }
  }

  // tfs_copy_to_external_fs.
  ghost function CopyOut(s: Fs, path: string): (Fs, Result, seq<byte>)
    requires Inv(s)
  {
    match Open(s, path, Flags(false, false, false))
    case (s1, Ret(h)) =>
      OpenForCopy(s, path);
      var (s2, out) := CopyLoop(s1, h);
      (Close(s2, h).0, Ret(0), out)
    case (s1, r) => (s1, r, [])
  }

  lemma OpenForCopy(s: Fs, path: string)
    requires Inv(s)
    ensures var (s1, r) := Open(s, path, Flags(false, false, false));
            var i := LookupPath(s, path);
            && (r.Ret? <==> i != -1 && FirstFree(s.fileTs) != -1) && r != Undefined
            && (r.Ret? ==>
                  && i > 0 && LiveFile(s, i) && ContentReady(s, i) && ContentReady(s1, i)
                  && Inv(s1) && OpenHandle(s1, r.n) && Usable(s1, r.n) && r.n == FirstFree(s.fileTs)
                  && s1.files[r.n] == OpenFile(i, 0) && Contents(s1, i) == Contents(s, i)
                  && s1 == s.(fileTs := s.fileTs[r.n := TAKEN], files := s.files[r.n := OpenFile(i, 0)]))
            && (!r.Ret? ==> s1 == s)
  {
    hide Owned, Shaped, BlockAt, FindInDir;
    LookupLive(s, path);
    var i := LookupPath(s, path);
    if i != -1 {
      AddHandleInv(s, i, 0);
      LiveContent(s, i);
    }
  }

  // The copy is exactly the file, for every size; the handle table's flags come back, and all
  // that has changed is a free handle entry. It is refused exactly when the path is not found
  // or no handle is free, and then nothing is put out and nothing changes.
  lemma CopyIsComplete(s: Fs, path: string)
    requires Inv(s)
    ensures var (s', r, out) := CopyOut(s, path);
            var i := LookupPath(s, path);
            && r == (if i != -1 && FirstFree(s.fileTs) != -1 then Ret(0) else Fail)
            && (r == Ret(0) ==> i > 0 && ContentReady(s, i) && out == Contents(s, i))
            && (r == Fail ==> out == [] && s' == s)
            && s' == s.(files := s'.files)
  {
    hide Inv, Contents, Open, HandlesOk;
    OpenForCopy(s, path);
    var (s1, r) := Open(s, path, Flags(false, false, false));
    if r.Ret? {
      CopyLoopComplete(s1, r.n);
      assert Close(CopyLoop(s1, r.n).0, r.n).0.fileTs == s.fileTs;
    }
  }
}
