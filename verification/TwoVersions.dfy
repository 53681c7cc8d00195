/** On files of at most 1024 bytes the two versions cannot be told apart: the same calls return the
    same handles, counts and bytes. */
module TwoVersions {
  import opened Config
  import opened FirstFit
  import opened Directory
  import M = MultiBlock
  import O = Ownership
  import F = FlatFile
  import W = WriteTheorems
  import R = Reading
  import Opening
  import Lifecycle
  import Runs = MultiBlockRuns
  import S = SingleBlock
  import I = SingleBlockInv
  import C = SingleBlockCalls
  import SRuns = SingleBlockRuns

  // Directories that differ at most in the names of empty entries.
  ghost predicate SameEntries(a: Entries, b: Entries) {
    forall k :: 0 <= k < MAX_DIR_ENTRIES ==> a[k].inum == b[k].inum && (a[k].inum != -1 ==> a[k].name == b[k].name)
  }

  ghost predicate SameFile(m: M.Fs, s: S.Fs, i: nat) {
    && F.ContentReady(m, i) && C.ContentOk(s, i) && m.inodes[i].size == s.inodes[i].size <= BLOCK_SIZE
    && F.Contents(m, i) == C.Contents(s, i)
  }

  // What a caller could observe is the same in both.
  ghost predicate Alike(m: M.Fs, s: S.Fs) {
    && F.Inv(m) && I.Inv(s)
    && m.inodeTs == s.inodeTs && m.fileTs == s.fileTs
    && (forall h: nat :: F.OpenHandle(m, h) ==> m.files[h] == s.files[h])
    && (forall i: nat :: 0 < i && O.Live(m, i) ==> SameFile(m, s, i))
    && SameEntries(F.RootEntries(m), S.RootEntries(s))
  }

  lemma LiveIsFile(m: M.Fs, s: S.Fs, i: nat)
    requires F.Inv(m) && I.Inv(s) && m.inodeTs == s.inodeTs && 0 < i && O.Live(m, i)
    ensures O.LiveFile(m, i) && I.LiveFile(s, i)
  {}

  lemma HaveRoots(m: M.Fs, s: S.Fs)
    requires F.Inv(m) && I.Inv(s)
    ensures ValidBlock(m.inodes[ROOT_DIR_INUM].slots[0]) && S.HasDirectory(s)
  {}

  // ---------- read, write, close ----------

  function FirstBlocks(m: M.Fs): seq<int>
  {
    seq(INODE_TABLE_SIZE, i requires 0 <= i < INODE_TABLE_SIZE => O.BlockAt(m, i, 0))
  }

  // Files of at most one block each cannot fill the block table of the first version either.
  lemma BlocksLeft(m: M.Fs, s: S.Fs)
    requires Alike(m, s)
    ensures FirstFree(m.blockTs) != -1
  {
    var owner: map<int, O.Role> :| O.Owned(m, owner);
    forall b | b in I.TakenIn(m.blockTs) ensures b in I.Elements(FirstBlocks(m)) {
      var i := owner[b].inum;
      if i > 0 {
        assert SameFile(m, s, i) && O.Shaped(m, i, F.SizesOf(m)[i]);
      }
      assert FirstBlocks(m)[i] == b;
    }
    I.ElementsBound(FirstBlocks(m));
    I.SubsetBound(I.TakenIn(m.blockTs), I.Elements(FirstBlocks(m)));
    if FirstFree(m.blockTs) == -1 { I.FullTable(m.blockTs); }
  }

  lemma SmallWriteFits(m: M.Fs, s: S.Fs, h: nat, n: nat)
    requires Alike(m, s) && F.OpenHandle(m, h) && M.Usable(m, h) && m.files[h].offset + n <= BLOCK_SIZE
    ensures W.Affordable(m, m.files[h].inum, m.inodes[m.files[h].inum].size, F.EndOfWrite(m, h, n))
  {
    hide O.Store, F.EntriesOk, I.Inv, F.Contents, C.Contents;
    BlocksLeft(m, s);
    FreeCountZero(m.blockTs);
    LiveHandle(m, s, h);
    assert SameFile(m, s, m.files[h].inum);
  }

  lemma WriteAlike(m: M.Fs, s: S.Fs, h: nat, buf: seq<byte>)
    requires Alike(m, s) && F.OpenHandle(m, h) && m.files[h].offset + |buf| <= BLOCK_SIZE
    ensures Alike(M.Write(m, h, buf).0, S.Write(s, h, buf).0) && M.Write(m, h, buf).1 == S.Write(s, h, buf).1 == Ret(|buf|)
  {
    hide M.Write, S.Write, O.Store, I.FilesOk, I.DirectoryOk, F.Contents, C.Contents, F.EntriesOk, O.LiveFile, I.LiveFile;
    var m', s' := M.Write(m, h, buf).0, S.Write(s, h, buf).0;
    var i := m.files[h].inum;
    F.OpenReady(m, h);
    LiveHandle(m, s, h);
    F.WriteRefinesSplice(m, h, buf);
    assert SameFile(m, s, i);
    SmallWriteFits(m, s, h, |buf|);
    C.WriteNeverFails(s, h, buf);
    WriteInside(s, h, buf);
    RootKept(m, m');
    forall g: nat | F.OpenHandle(m', g) ensures m'.files[g] == s'.files[g] {
      assert F.OpenHandle(m, g);
    }
    forall j: nat | 0 < j && O.Live(m', j) ensures SameFile(m', s', j) {
      LiveIsFile(m, s, j);
      assert SameFile(m, s, j);
    }
  }

  // In the second version, the same within the file and its block.
  lemma WriteInside(s: S.Fs, h: nat, buf: seq<byte>)
    requires I.Inv(s) && I.OpenHandle(s, h) && ValidInumber(s.files[h].inum)
    requires s.files[h].offset <= s.inodes[s.files[h].inum].size && s.files[h].offset + |buf| <= BLOCK_SIZE
    ensures var s', i := S.Write(s, h, buf).0, s.files[h].inum;
            && C.ContentOk(s, i) && C.ContentOk(s', i)
            && C.Contents(s', i) == Splice(C.Contents(s, i), s.files[h].offset, buf)
            && (forall j :: I.LiveFile(s, j) && j != i ==>
                  C.ContentOk(s, j) && C.ContentOk(s', j) && C.Contents(s', j) == C.Contents(s, j))
  {
    hide S.Write, I.Inv, I.LiveFile, C.Contents;
    C.WriteRefinesSplice(s, h, buf);
    assert buf[..|buf|] == buf;
    if buf == [] {
      var c := C.Contents(s, s.files[h].inum);
      assert Splice(c, s.files[h].offset, []) == c;
    }
  }

  lemma RootKept(m: M.Fs, m': M.Fs)
    requires F.Inv(m) && F.Inv(m') && F.SameTables(m, m')
    ensures F.RootEntries(m') == F.RootEntries(m)
  {}

  lemma LiveHandle(m: M.Fs, s: S.Fs, h: nat)
    requires Alike(m, s) && F.OpenHandle(m, h)
    ensures M.Usable(m, h) && I.OpenHandle(s, h) && m.files[h] == s.files[h]
    ensures 0 < m.files[h].inum && O.Live(m, m.files[h].inum) && O.LiveFile(m, m.files[h].inum) && I.LiveFile(s, m.files[h].inum)
    ensures m.files[h].offset <= m.inodes[m.files[h].inum].size
  {}

  lemma ReadAlike(m: M.Fs, s: S.Fs, h: nat, len: nat)
    requires Alike(m, s) && F.OpenHandle(m, h)
    ensures var (m', a), (s', b) := M.Read(m, h, len), S.Read(s, h, len);
            Alike(m', s') && a.Got? && b.Got? && a.data == b.data
  {
    hide M.Read, O.Store, I.FilesOk, I.DirectoryOk, F.Contents, F.EntriesOk, O.LiveFile, I.LiveFile, I.Inv;
    var i, off := m.files[h].inum, m.files[h].offset;
    LiveHandle(m, s, h);
    R.ReadRefinesSlice(m, h, len);
    assert SameFile(m, s, i);
    var n := Min(len, m.inodes[i].size - off);
    ReadWithin(s, h, len);
    R.OffsetInv(m, h, off + n);
    var m', s' := M.Read(m, h, len).0, S.Read(s, h, len).0;
    HaveRoots(m, s);
    forall j: nat | 0 < j && O.Live(m', j) ensures SameFile(m', s', j) {
      assert SameFile(m, s, j);
    }
  }

  lemma ReadWithin(s: S.Fs, h: nat, len: nat)
    requires I.Inv(s) && I.OpenHandle(s, h) && s.files[h].offset <= s.inodes[s.files[h].inum].size
    ensures var i, off := s.files[h].inum, s.files[h].offset;
            var n := Min(len, s.inodes[i].size - off);
            && C.ContentOk(s, i)
            && S.Read(s, h, len) == (s.(files := s.files[h := OpenFile(i, off + n)]), S.Got(C.Contents(s, i)[off..off + n]))
            && I.Inv(S.Read(s, h, len).0)
  {
    hide S.Read, C.Contents;
    C.ContentsDefined(s);
    C.ReadInside(s, h, len);
    C.OffsetInv(s, S.Read(s, h, len).0, h);
  }

  lemma CloseAlike(m: M.Fs, s: S.Fs, h: int)
    requires Alike(m, s)
    ensures Alike(M.Close(m, h).0, S.Close(s, h).0) && M.Close(m, h).1 == S.Close(s, h).1
  {
    hide O.Store, I.FilesOk, I.DirectoryOk, F.EntriesOk, F.Contents, C.Contents, I.Inv, F.Inv;
    Opening.CloseInv(m, h);
    C.CloseInv(s, h);
    HaveRoots(m, s);
    var m', s' := M.Close(m, h).0, S.Close(s, h).0;
    forall j: nat | 0 < j && O.Live(m', j) ensures SameFile(m', s', j) {
      assert SameFile(m, s, j);
      SameContents(s, s', j);
    }
    assert forall g: nat :: F.OpenHandle(m', g) ==> F.OpenHandle(m, g);
  }

  // ---------- the directory ----------

  lemma {:induction false} FindAlike(a: Entries, b: Entries, name: string, k: nat)
    requires SameEntries(a, b) && k <= MAX_DIR_ENTRIES
    ensures FindFrom(a, name, k) == FindFrom(b, name, k) && EmptyFrom(a, k) == EmptyFrom(b, k)
    decreases MAX_DIR_ENTRIES - k
  {
    if k < MAX_DIR_ENTRIES { FindAlike(a, b, name, k + 1); }
  }

  lemma LookupAlike(m: M.Fs, s: S.Fs, name: string)
    requires Alike(m, s)
    ensures M.LookupPath(m, name) == S.LookupPath(s, name)
    ensures AddSlot(F.RootEntries(m), name) == AddSlot(S.RootEntries(s), name)
  {
    hide FindFrom, EmptyFrom;
    if ValidPathname(name) { FindAlike(F.RootEntries(m), S.RootEntries(s), name[1..], 0); }
    FindAlike(F.RootEntries(m), S.RootEntries(s), name, 0);
  }

  // ---------- open ----------

  lemma AddHandleAlike(m: M.Fs, s: S.Fs, i: nat, off: nat)
    requires Alike(m, s) && 0 < i && O.Live(m, i) && off <= m.inodes[i].size
    ensures var (m', a), (s', b) := M.AddToOpenFileTable(m, i, off), S.AddToOpenFileTable(s, i, off);
            Alike(m', s') && a == b
  {
    hide O.Store, I.FilesOk, I.DirectoryOk, F.EntriesOk, F.Contents, C.Contents, I.Inv, F.Inv, O.SameRecords;
    LiveIsFile(m, s, i);
    assert SameFile(m, s, i);
    Opening.AddHandleInv(m, i, off);
    C.AddHandleInv(s, i, off);
    HaveRoots(m, s);
    var m', s' := M.AddToOpenFileTable(m, i, off).0, S.AddToOpenFileTable(s, i, off).0;
    forall j: nat | 0 < j && O.Live(m', j) ensures SameFile(m', s', j) {
      assert SameFile(m, s, j);
      SameContents(s, s', j);
    }
    forall h: nat | F.OpenHandle(m', h) ensures m'.files[h] == s'.files[h] {
      assert F.OpenHandle(m, h) || h == FirstFree(m.fileTs);
    }
  }

  // Nobody is inside the file that is truncated.
  ghost predicate NobodyInside(m: M.Fs, i: nat) {
    forall h: nat :: F.OpenHandle(m, h) && m.files[h].inum == i ==> m.files[h].offset == 0
  }

  lemma TruncateAlike(m: M.Fs, s: S.Fs, i: nat)
    requires Alike(m, s) && 0 < i && O.Live(m, i) && NobodyInside(m, i)
    ensures var (m', a), (s', b) := M.Truncate(m, i), S.Truncate(s, i);
            Alike(m', s') && a == b == Ret(0) && O.Live(m', i)
  {
    hide O.Store, I.FilesOk, I.DirectoryOk, F.EntriesOk, F.Contents, C.Contents, I.Inv, F.Inv, M.FreeBlocks,
      M.Truncate, S.Truncate;
    LiveIsFile(m, s, i);
    assert SameFile(m, s, i);
    C.TruncateInv(s, i);
    if m.inodes[i].size > 0 {
      SmallIsDirect(m, i);
      Opening.TruncateInv(m, i);
      var m', s' := M.Truncate(m, i).0, S.Truncate(s, i).0;
      forall j: nat | 0 < j && O.Live(m', j) ensures SameFile(m', s', j) {
        assert SameFile(m, s, j);
        LiveIsFile(m, s, j);
        if j != i { SameContents(s, s', j); }
      }
    } else {
      EmptyTruncate(m, s, i);
    }
  }

  lemma SmallIsDirect(m: M.Fs, i: nat)
    requires F.Inv(m) && O.LiveFile(m, i) && m.inodes[i].size <= BLOCK_SIZE
    ensures O.BlockAt(m, i, O.INDEX) == -1
  {
    assert O.Shaped(m, i, F.SizesOf(m)[i]);
  }

  lemma SameContents(s: S.Fs, s': S.Fs, j: nat)
    requires C.ContentOk(s, j) && s'.inodes[j] == s.inodes[j] && s'.blocks == s.blocks
    ensures C.ContentOk(s', j) && C.Contents(s', j) == C.Contents(s, j)
  {}

  lemma EmptyTruncate(m: M.Fs, s: S.Fs, i: nat)
    requires i < INODE_TABLE_SIZE && m.inodes[i].size == 0 == s.inodes[i].size
    ensures M.Truncate(m, i) == (m, Ret(0)) && S.Truncate(s, i) == (s, Ret(0))
  {}

  lemma OpenExistingAlike(m: M.Fs, s: S.Fs, i: nat, flags: Flags)
    requires Alike(m, s) && 0 < i && O.Live(m, i) && (flags.trunc ==> NobodyInside(m, i))
    ensures var (m', a), (s', b) := M.OpenExisting(m, i, flags), S.OpenExisting(s, i, flags);
            Alike(m', s') && a == b
  {
    hide Alike, M.Truncate, S.Truncate, M.AddToOpenFileTable, S.AddToOpenFileTable;
    if flags.trunc { TruncateAlike(m, s, i); }
    var m1 := if flags.trunc then M.Truncate(m, i).0 else m;
    var s1 := if flags.trunc then S.Truncate(s, i).0 else s;
    SizeAlike(m1, s1, i);
    AddHandleAlike(m1, s1, i, if flags.append then m1.inodes[i].size else 0);
  }

  lemma SizeAlike(m: M.Fs, s: S.Fs, i: nat)
    requires Alike(m, s) && 0 < i && O.Live(m, i)
    ensures m.inodes[i].size == s.inodes[i].size
  {
    assert SameFile(m, s, i);
  }

  lemma NewFileAlike(m: M.Fs, s: S.Fs, name: string)
    requires Alike(m, s) && AddSlot(S.RootEntries(s), name) != -1
    ensures FirstFree(m.inodeTs) > 0
    ensures var i := FirstFree(m.inodeTs);
            var (m', a) := M.AddDirEntry(M.InodeCreate(m, T_FILE).0, i, name);
            var (s', b) := S.AddDirEntry(S.InodeCreate(s, T_FILE).0, i, name);
            Alike(m', s') && a && b && O.Live(m', i)
  {
    hide O.Store, I.FilesOk, I.DirectoryOk, F.EntriesOk, F.Contents, C.Contents, I.Inv, M.AddDirEntry, S.AddDirEntry,
      AddSlot, AddEntry, O.SameRecords, O.OtherParts;
    I.AtMost23Files(s);
    DirectoriesAlike(m, s, name);
    var i := FirstFree(m.inodeTs);
    Opening.FreshInv(m);
    Lifecycle.FreshFile(m);
    var m1 := M.InodeCreate(m, T_FILE).0;
    Opening.EntryInv(m1, i, name);
    C.NewFileInv(s, name);
    C.LiveHasDirectory(s);
    C.EntryAdded(s, i, name);
    var m', s' := M.AddDirEntry(m1, i, name).0, S.AddDirEntry(S.InodeCreate(s, T_FILE).0, i, name).0;
    forall j: nat | 0 < j && O.Live(m', j) ensures SameFile(m', s', j) {
      if j != i {
        assert SameFile(m, s, j);
        LiveIsFile(m, s, j);
        BytesContents(s, s', j);
      }
    }
  }

  lemma BytesContents(s: S.Fs, s': S.Fs, j: nat)
    requires C.ContentOk(s, j) && s'.inodes[j] == s.inodes[j]
    requires forall b :: 0 <= b < DATA_BLOCKS ==> s'.blocks[b].bytes == s.blocks[b].bytes
    ensures C.ContentOk(s', j) && C.Contents(s', j) == C.Contents(s, j)
  {}

  lemma DirectoriesAlike(m: M.Fs, s: S.Fs, name: string)
    requires Alike(m, s)
    ensures AddSlot(F.RootEntries(m), name) == AddSlot(S.RootEntries(s), name)
    ensures forall i: int :: SameEntries(AddEntry(F.RootEntries(m), i, name), AddEntry(S.RootEntries(s), i, name))
  {
    FindAlike(F.RootEntries(m), S.RootEntries(s), name, 0);
  }

  // A full directory gives the inode back in both.
  lemma RollBackAlike(m: M.Fs, s: S.Fs, name: string)
    requires Alike(m, s) && AddSlot(S.RootEntries(s), name) == -1
    ensures FirstFree(m.inodeTs) > 0
    ensures var i := FirstFree(m.inodeTs);
            var (m', a) := M.AddDirEntry(M.InodeCreate(m, T_FILE).0, i, name);
            var (s', b) := S.AddDirEntry(S.InodeCreate(s, T_FILE).0, i, name);
            !a && !b && Alike(M.InodeDelete(m', i).0, S.InodeDelete(s', i).0)
  {
    hide O.Store, I.FilesOk, I.DirectoryOk, F.EntriesOk, F.Contents, C.Contents, I.Inv, M.AddDirEntry, S.AddDirEntry,
      AddSlot, AddEntry, O.SameRecords, O.OtherParts, M.InodeDelete, S.InodeDelete;
    I.AtMost23Files(s);
    DirectoriesAlike(m, s, name);
    var i := FirstFree(m.inodeTs);
    Opening.FreshInv(m);
    FreshIsFree(m);
    var m1 := M.InodeCreate(m, T_FILE).0;
    Opening.EntryInv(m1, i, name);
    Opening.RollBack(m, m1, i);
    Runs.DeleteEmpty(m1, i);
    C.RollBack(s, name);
    HaveRoots(m, s);
    var m', s' := M.InodeDelete(m1, i).0, S.InodeDelete(S.AddDirEntry(S.InodeCreate(s, T_FILE).0, i, name).0, i).0;
    forall j: nat | 0 < j && O.Live(m', j) ensures SameFile(m', s', j) {
      assert j != i && SameFile(m, s, j);
      LiveIsFile(m, s, j);
      SameContents(s, s', j);
    }
  }

  lemma FreshIsFree(m: M.Fs)
    requires F.Inv(m) && FirstFree(m.inodeTs) != -1
    ensures var (m', i) := M.InodeCreate(m, T_FILE);
            && i == FirstFree(m.inodeTs) > 0 && !O.Live(m, i) && O.LiveFile(m', i) && m'.inodes[i].size == 0
            && m' == m.(inodeTs := m.inodeTs[i := TAKEN], inodes := m'.inodes)
  {
    hide O.Owned, O.Shaped;
    Lifecycle.FreshFile(m);
  }

  lemma OpenNewAlike(m: M.Fs, s: S.Fs, name: string)
    requires Alike(m, s) && ValidPathname(name)
    ensures var (m', a), (s', b) := M.OpenNew(m, name), S.OpenNew(s, name);
            Alike(m', s') && a == b
  {
    hide Alike, M.AddDirEntry, S.AddDirEntry, M.AddToOpenFileTable, S.AddToOpenFileTable, M.InodeDelete, S.InodeDelete, AddSlot;
    SameInode(m, s);
    if AddSlot(S.RootEntries(s), name[1..]) != -1 {
      NewFileAlike(m, s, name[1..]);
      var i := FirstFree(m.inodeTs);
      AddHandleAlike(M.AddDirEntry(M.InodeCreate(m, T_FILE).0, i, name[1..]).0,
                     S.AddDirEntry(S.InodeCreate(s, T_FILE).0, i, name[1..]).0, i, 0);
    } else {
      RollBackAlike(m, s, name[1..]);
    }
  }

  lemma SameInode(m: M.Fs, s: S.Fs)
    requires Alike(m, s)
    ensures FirstFree(m.inodeTs) == FirstFree(s.inodeTs) > 0 && S.HasDirectory(s)
  {
    I.AtMost23Files(s);
    HaveRoots(m, s);
    assert O.Live(m, 0);
  }

  // A path name as tfs_open expects it, and nobody inside a file that is truncated.
  ghost predicate OpenSuits(m: M.Fs, name: string, flags: Flags) {
    ValidPathname(name) && (flags.trunc && M.LookupPath(m, name) > 0 ==> NobodyInside(m, M.LookupPath(m, name)))
  }

  lemma OpenAlike(m: M.Fs, s: S.Fs, name: string, flags: Flags)
    requires Alike(m, s) && OpenSuits(m, name, flags)
    ensures var (m', a), (s', b) := M.Open(m, name, flags), S.Open(s, name, flags);
            Alike(m', s') && a == b
  {
    hide Alike, M.OpenNew, S.OpenNew, M.OpenExisting, S.OpenExisting, M.LookupPath, S.LookupPath, NobodyInside;
    LookupAlike(m, s, name);
    var i := M.LookupPath(m, name);
    LookupLive(m, s, name);
    if i > 0 {
      OpenExistingAlike(m, s, i, flags);
    } else if flags.creat {
      OpenNewAlike(m, s, name);
    }
  }

  lemma LookupLive(m: M.Fs, s: S.Fs, name: string)
    requires Alike(m, s)
    ensures M.LookupPath(m, name) == -1 || (0 < M.LookupPath(m, name) < INODE_TABLE_SIZE && O.Live(m, M.LookupPath(m, name)))
  {
    Opening.LookupLive(m, name);
  }

  // ---------- whole runs ----------

  datatype Answer = Number(r: Result) | Bytes(data: seq<byte>) | Nothing

  function InMulti(m: M.Fs, c: SRuns.Call): (M.Fs, Answer)
  {
    match c
    case OpenCall(name, flags) => (M.Open(m, name, flags).0, Number(M.Open(m, name, flags).1))
    case CloseCall(h) => (M.Close(m, h).0, Number(M.Close(m, h).1))
    case WriteCall(h, buf) => (M.Write(m, h, buf).0, Number(M.Write(m, h, buf).1))
    case ReadCall(h, len) =>
      match M.Read(m, h, len)
      case (m', Got(data)) => (m', Bytes(data))
      case (m', _) => (m', Nothing)
  }

  function InSingle(s: S.Fs, c: SRuns.Call): (S.Fs, Answer)
  {
    match c
    case OpenCall(name, flags) => (S.Open(s, name, flags).0, Number(S.Open(s, name, flags).1))
    case CloseCall(h) => (S.Close(s, h).0, Number(S.Close(s, h).1))
    case WriteCall(h, buf) => (S.Write(s, h, buf).0, Number(S.Write(s, h, buf).1))
    case ReadCall(h, len) =>
      match S.Read(s, h, len)
      case (s', Got(data)) => (s', Bytes(data))
      case (s', _) => (s', Nothing)
  }

  // Valid names, open handles, writes within the first 1024 bytes, no truncation of a file that
  // somebody is inside.
  ghost predicate Suits(m: M.Fs, c: SRuns.Call) {
    match c
    case OpenCall(name, flags) => OpenSuits(m, name, flags)
    case CloseCall(h) => true
    case WriteCall(h, buf) => F.OpenHandle(m, h) && m.files[h].offset + |buf| <= BLOCK_SIZE
    case ReadCall(h, len) => F.OpenHandle(m, h)
  }

  ghost predicate SuitsRun(m: M.Fs, cs: seq<SRuns.Call>)
    decreases |cs|
  {
    |cs| == 0 || (Suits(m, cs[0]) && SuitsRun(InMulti(m, cs[0]).0, cs[1..]))
  }

  function MultiAnswers(m: M.Fs, cs: seq<SRuns.Call>): seq<Answer>
    decreases |cs|
  {
    if |cs| == 0 then [] else [InMulti(m, cs[0]).1] + MultiAnswers(InMulti(m, cs[0]).0, cs[1..])
  }

  function SingleAnswers(s: S.Fs, cs: seq<SRuns.Call>): seq<Answer>
    decreases |cs|
  {
    if |cs| == 0 then [] else [InSingle(s, cs[0]).1] + SingleAnswers(InSingle(s, cs[0]).0, cs[1..])
  }

  lemma OpenMeans(m: M.Fs, s: S.Fs, name: string, flags: Flags)
    requires Alike(m, s) && OpenSuits(m, name, flags)
    ensures S.Open(s, name, flags).1 != Undefined
  {
    hide S.Open, I.Inv, F.Inv;
    C.OpenInv(s, name, flags);
  }

  lemma CallAlike(m: M.Fs, s: S.Fs, c: SRuns.Call)
    requires Alike(m, s) && Suits(m, c)
    ensures Alike(InMulti(m, c).0, InSingle(s, c).0) && InMulti(m, c).1 == InSingle(s, c).1
    ensures InMulti(m, c).1 != Nothing && InMulti(m, c).1 != Number(Undefined)
  {
    hide OpenSuits, M.Open, S.Open, M.Close, S.Close, M.Write, S.Write, M.Read, S.Read, I.Inv, F.Inv, SameFile, SameEntries;
    match c {
      case OpenCall(name, flags) =>
        OpenAlike(m, s, name, flags);
        OpenMeans(m, s, name, flags);
      case CloseCall(h) =>
        CloseAlike(m, s, h);
        C.CloseInv(s, h);
      case WriteCall(h, buf) => WriteAlike(m, s, h, buf);
      case ReadCall(h, len) => ReadAlike(m, s, h, len);
    }
  }

  lemma {:induction false} RunAlike(m: M.Fs, s: S.Fs, cs: seq<SRuns.Call>)
    requires Alike(m, s) && SuitsRun(m, cs)
    ensures MultiAnswers(m, cs) == SingleAnswers(s, cs)
    ensures Nothing !in MultiAnswers(m, cs) && Number(Undefined) !in MultiAnswers(m, cs)
    decreases |cs|
  {
    hide Alike, Suits, InMulti, InSingle;
    if |cs| > 0 {
      CallAlike(m, s, cs[0]);
      RunAlike(InMulti(m, cs[0]).0, InSingle(s, cs[0]).0, cs[1..]);
    }
  }

  lemma InitAlike(multiMemory: M.Fs, singleMemory: S.Fs)
    ensures Alike(M.Init(multiMemory).0, S.Init(singleMemory).0)
  {
    hide F.Inv, I.Inv;
    Opening.InitInv(multiMemory);
    C.InitInv(singleMemory);
    HaveRoots(M.Init(multiMemory).0, S.Init(singleMemory).0);
  }

  // From initialisation on, over whatever the two memories held, the two versions give the same
  // answers to the same calls, and no read fails and no call loses its meaning.
  lemma SameAnswers(multiMemory: M.Fs, singleMemory: S.Fs, cs: seq<SRuns.Call>)
    requires SuitsRun(M.Init(multiMemory).0, cs)
    ensures MultiAnswers(M.Init(multiMemory).0, cs) == SingleAnswers(S.Init(singleMemory).0, cs)
    ensures var answers := MultiAnswers(M.Init(multiMemory).0, cs); Nothing !in answers && Number(Undefined) !in answers
  {
    hide M.Init, S.Init, Alike, SuitsRun, MultiAnswers, SingleAnswers;
    InitAlike(multiMemory, singleMemory);
    RunAlike(M.Init(multiMemory).0, S.Init(singleMemory).0, cs);
  }
}
