/** tfs_init, tfs_open and tfs_close against the invariant. */
module Opening {
  import opened Config
  import opened FirstFit
  import opened Directory
  import opened MultiBlock
  import opened Ownership
  import opened FlatFile
  import opened Lifecycle

  lemma {:induction false} AllFree(n: nat)
    ensures FreeCount(seq(n, _ => FREE)) == n
    decreases n
  {
    if n > 0 {
      var ts := seq(n - 1, _ => FREE);
      AllFree(n - 1);
      assert seq(n, _ => FREE) == ts + [FREE];
    }
  }

  // Whatever the memory held before, initialisation succeeds and leaves the root alone in the
  // tables, with an empty directory in block 0.
  lemma InitInv(s: Fs)
    ensures var (s', r) := Init(s);
            && r == Ret(0) && Inv(s') && Tidy(s')
            && FreeCount(s'.blockTs) == DATA_BLOCKS - 1
            && (forall i: nat :: Live(s', i) <==> i == ROOT_DIR_INUM)
            && (forall k :: 0 <= k < MAX_DIR_ENTRIES ==> RootEntries(s')[k].inum == -1)
            && (forall h :: !OpenHandle(s', h))
  {
    var s' := Init(s).0;
    assert Owned(s', map[0 := Role(ROOT_DIR_INUM, 0)]);
    AllFree(DATA_BLOCKS);
    FreeCountUpdate(seq(DATA_BLOCKS, _ => FREE), 0, TAKEN);
  }

  // ---------- open ----------

  lemma AddHandleInv(s: Fs, i: nat, off: nat)
    requires Inv(s) && LiveFile(s, i) && off <= s.inodes[i].size
    ensures Inv(AddToOpenFileTable(s, i, off).0)
    ensures SameRecords(s, AddToOpenFileTable(s, i, off).0)
    ensures forall j: nat :: ContentReady(s, j) ==> Contents(AddToOpenFileTable(s, i, off).0, j) == Contents(s, j)
  {
    var s' := AddToOpenFileTable(s, i, off).0;
    SameRecordsStore(s, s', SizesOf(s), i, s.inodes[i].size);
    assert SizesOf(s)[i := s.inodes[i].size] == SizesOf(s) == SizesOf(s');
  }

  // The condition under which a caller may truncate an open, non-empty file.
  ghost predicate TruncSafe(s: Fs, i: nat)
    requires i < INODE_TABLE_SIZE
  {
    && BlockAt(s, i, INDEX) == -1
    && (forall h: nat :: OpenHandle(s, h) && s.files[h].inum == i ==> s.files[h].offset == 0)
  }

  // Truncation keeps the invariant exactly when the file has no index block and every open
  // handle on it is at offset 0. The file is empty afterwards; the others are as before.
  lemma TruncateInv(s: Fs, i: nat)
    requires Inv(s) && LiveFile(s, i) && s.inodes[i].size > 0
    ensures var (s', r) := Truncate(s, i);
            && r == Ret(0)
            && (Inv(s') <==> TruncSafe(s, i))
            && (TruncSafe(s, i) ==> LiveFile(s', i) && s'.inodes[i].size == 0 && OtherFilesSame(s, s', i)
                                    && s'.fileTs == s.fileTs && s'.files == s.files && OtherParts(s, s', i)
                                    && s'.inodeTs == s.inodeTs
                                    && RootEntries(s') == RootEntries(s))
  {
    hide Owned, Shaped, BlockAt, FreeBlocks, ByteAt;
    TruncateFrees(s, i);
    TruncateStore(s, i);
    var s' := Truncate(s, i).0;
    var s1 :| Released(s, s1, i) && s' == SetSize(s1, i, 0);
    ReleasedFrame(s, SizesOf(s), s1, i);
    SetSizeKeeps(s1, i, 0);
    assert forall h: nat :: OpenHandle(s', h) <==> OpenHandle(s, h);
    if Inv(s') {
      forall h: nat | OpenHandle(s, h) && s.files[h].inum == i ensures s.files[h].offset == 0 {
        assert OpenHandle(s', h);
      }
    }
  }

  lemma OpenExistingInv(s: Fs, i: nat, flags: Flags)
    requires Inv(s) && LiveFile(s, i)
    ensures Inv(OpenExisting(s, i, flags).0) <==> (flags.trunc && s.inodes[i].size > 0 ==> TruncSafe(s, i))
  {
    if flags.trunc && s.inodes[i].size > 0 {
      TruncateInv(s, i);
      var s1 := Truncate(s, i).0;
      var s' := OpenExisting(s, i, flags).0;
      if TruncSafe(s, i) {
        AddHandleInv(s1, i, if flags.append then s1.inodes[i].size else 0);
      } else {
        BadTruncateStays(s, i, flags);
      }
    } else {
      AddHandleInv(s, i, if flags.append then s.inodes[i].size else 0);
    }
  }

  // A new handle does not repair what an unsafe truncation broke.
  lemma BadTruncateStays(s: Fs, i: nat, flags: Flags)
    requires Inv(s) && LiveFile(s, i) && s.inodes[i].size > 0 && flags.trunc && !TruncSafe(s, i)
    ensures !Inv(OpenExisting(s, i, flags).0)
  {
    TruncateFrees(s, i);
    var s1, s' := Truncate(s, i).0, OpenExisting(s, i, flags).0;
    if BlockAt(s, i, INDEX) != -1 {
      StaleIndex(s, s', i);
    } else {
      var h: nat :| OpenHandle(s, h) && s.files[h].inum == i && s.files[h].offset > 0;
      assert OpenHandle(s', h) && s'.files[h] == s.files[h];
      assert s'.inodes[i].size == 0;
    }
  }

  // A name leads to a live file or nowhere.
  lemma LookupLive(s: Fs, name: string)
    requires Inv(s)
    ensures LookupPath(s, name) == -1 || (LookupPath(s, name) > 0 && LiveFile(s, LookupPath(s, name)))
  {}

  lemma OpenNewInv(s: Fs, name: string)
    requires Inv(s) && ValidPathname(name)
    ensures var (s', r) := OpenNew(s, name);
            && Inv(s') && s'.blockTs == s.blockTs && OtherFilesSame(s, s', ROOT_DIR_INUM)
            && (r.Ret? ==>
                  var i := FirstFree(s.inodeTs);
                  && OpenHandle(s', r.n) && r.n == FirstFree(s.fileTs)
                  && i > 0 && s'.files[r.n] == OpenFile(i, 0) && LiveFile(s', i)
                  && AddSlot(RootEntries(s), name[1..]) != -1
                  && s'.inodes[i].size == 0 && RootEntries(s') == AddEntry(RootEntries(s), i, name[1..]))
  {
    hide Owned, Shaped, BlockAt, ByteAt, AddSlot;
    if FirstFree(s.inodeTs) != -1 {
      FreshFile(s);
      FreshInv(s);
      var (s1, i) := InodeCreate(s, T_FILE);
      EntryInv(s1, i, name[1..]);
      var (s2, ok) := AddDirEntry(s1, i, name[1..]);
      if ok {
        AddHandleInv(s2, i, 0);
      } else {
        RollBack(s, s1, i);
      }
    }
  }

  lemma FreshInv(s: Fs)
    requires Inv(s) && FirstFree(s.inodeTs) != -1
    ensures var s' := InodeCreate(s, T_FILE).0;
            && Inv(s') && OtherFilesSame(s, s', ROOT_DIR_INUM) && RootEntries(s') == RootEntries(s)
            && (forall h: nat :: OpenHandle(s, h) ==> s.files[h].inum != FirstFree(s.inodeTs))
            && (forall k :: 0 <= k < MAX_DIR_ENTRIES ==> RootEntries(s)[k].inum != FirstFree(s.inodeTs))
  {
    FreshFile(s);
    var s', i := InodeCreate(s, T_FILE).0, FirstFree(s.inodeTs);
    forall j: nat | LiveFile(s, j) && ContentReady(s, j)
      ensures LiveFile(s', j) && ContentReady(s', j) && Contents(s', j) == Contents(s, j)
    {
      FreshBytes(s, s', i, j);
    }
  }

  lemma FreshBytes(s: Fs, s': Fs, i: nat, j: nat)
    requires OtherParts(s, s', i) && LiveFile(s, j) && j != i && s'.blocks == s.blocks
    ensures forall p: nat :: p < MAX_FILE_BYTES ==> ByteAt(s', j, p) == ByteAt(s, j, p)
  {
    hide BlockAt;
  }

  lemma EntryInv(s: Fs, i: nat, name: string)
    requires Inv(s) && LiveFile(s, i)
    ensures var (s', ok), es := AddDirEntry(s, i, name), RootEntries(s);
            && ok == (AddSlot(es, name) != -1)
            && (!ok ==> s' == s)
            && Inv(s') && OtherFilesSame(s, s', ROOT_DIR_INUM) && SameRecords(s, s')
            && RootEntries(s') == (if ok then AddEntry(es, i, name) else es)
            && s'.files == s.files && s'.fileTs == s.fileTs && s'.inodes == s.inodes && s'.blockTs == s.blockTs
  {
    var s' := AddDirEntry(s, i, name).0;
    assert SameRecords(s, s');
    SameRecordsStore(s, s', SizesOf(s), i, s.inodes[i].size);
    assert SizesOf(s)[i := s.inodes[i].size] == SizesOf(s) == SizesOf(s');
  }

  // When the directory is full the new inode is given back.
  lemma RollBack(s: Fs, s1: Fs, i: nat)
    requires Inv(s) && FirstFree(s.inodeTs) == i && (s1, i) == InodeCreate(s, T_FILE)
    requires Inv(s1) && RootEntries(s1) == RootEntries(s)
    requires OtherFilesSame(s, s1, ROOT_DIR_INUM)
    requires forall h: nat :: OpenHandle(s, h) ==> s.files[h].inum != i
    requires forall k :: 0 <= k < MAX_DIR_ENTRIES ==> RootEntries(s)[k].inum != i
    ensures var s' := InodeDelete(s1, i).0;
            && Inv(s') && s'.inodeTs == s.inodeTs && s'.blockTs == s.blockTs && OtherFilesSame(s, s', ROOT_DIR_INUM)
  {
    FreshFile(s);
    var s' := InodeDelete(s1, i).0;
    assert s' == s1.(inodeTs := s1.inodeTs[i := FREE]);
    DeleteReleases(s1, i);
    assert s'.inodeTs == s.inodeTs;
    assert SizesOf(s1)[i := 0] == SizesOf(s');
  }

  // tfs_open keeps the invariant, except that an unsafe truncation breaks it.
  lemma OpenInv(s: Fs, name: string, flags: Flags)
    requires Inv(s)
    ensures var i := LookupPath(s, name);
            Inv(Open(s, name, flags).0) <==>
            (i != -1 && flags.trunc && s.inodes[i].size > 0 ==> TruncSafe(s, i))
  {
    LookupLive(s, name);
    var i := LookupPath(s, name);
    if i > 0 {
      OpenExistingInv(s, i, flags);
    } else if flags.creat && ValidPathname(name) {
      OpenNewInv(s, name);
    }
  }

  // ---------- what tfs_open answers ----------

  // A path that is not '/' and at least one character more is refused, whatever the flags; so
  // is a path that is not found, unless the file is to be created.
  lemma OpenRefused(s: Fs, name: string, flags: Flags)
    requires |name| <= 1 || name[0] != '/' || (LookupPath(s, name) == -1 && !flags.creat)
    ensures Open(s, name, flags) == (s, Fail)
    ensures |name| <= 1 || name[0] != '/' ==> LookupPath(s, name) == -1
  {}

  // A file that is found is opened if and only if a handle is free, the lowest free one: at 0,
  // or with TFS_O_APPEND at the end. TFS_O_TRUNC empties the file, handle or no handle. Other
  // files, inodes, handles and the directory are as before.
  lemma OpenFoundFile(s: Fs, name: string, flags: Flags)
    requires Inv(s) && LookupPath(s, name) != -1
    ensures var (s', r), i, h := Open(s, name, flags), LookupPath(s, name), FirstFree(s.fileTs);
            && i > 0 && LiveFile(s, i) && LiveFile(s', i) && ContentReady(s, i) && ContentReady(s', i)
            && r == (if h == -1 then Fail else Ret(h))
            && Contents(s', i) == (if flags.trunc then [] else Contents(s, i))
            && s'.fileTs == (if h == -1 then s.fileTs else s.fileTs[h := TAKEN])
            && s'.files == (if h == -1 then s.files
                            else s.files[h := OpenFile(i, if flags.append then |Contents(s', i)| else 0)])
            && OtherFilesSame(s, s', i) && SameTables(s, s'.(fileTs := s.fileTs))
  {
    hide Owned, Shaped, BlockAt, FindInDir, Truncate, Contents, Store, Released;
    LookupLive(s, name);
    var i := LookupPath(s, name);
    LiveContent(s, i);
    var s1 := if flags.trunc then Truncate(s, i).0 else s;
    TruncateEffect(s, i);
    EmptyOrSame(s, i);
    HandleAdded(s1, i, if flags.append then s1.inodes[i].size else 0);
  }

  lemma EmptyOrSame(s: Fs, i: nat)
    requires ContentReady(s, i)
    ensures s.inodes[i].size == 0 ==> Contents(s, i) == []
    ensures OtherFilesSame(s, s, i)
  {}

  lemma HandleAdded(s: Fs, i: nat, off: nat)
    ensures var s' := AddToOpenFileTable(s, i, off).0;
            && (forall j: nat :: LiveFile(s', j) <==> LiveFile(s, j))
            && (forall j: nat :: ContentReady(s', j) <==> ContentReady(s, j))
            && (forall j: nat :: ContentReady(s, j) ==> Contents(s', j) == Contents(s, j))
            && SameTables(s, s'.(fileTs := s.fileTs))
  {}

  // Truncation empties the file and touches no other, safe or not.
  lemma TruncateEffect(s: Fs, i: nat)
    requires Inv(s) && LiveFile(s, i)
    ensures var (s', r) := Truncate(s, i);
            && r == Ret(0) && LiveFile(s', i) && ContentReady(s', i) && Contents(s', i) == []
            && OtherFilesSame(s, s', i) && SameTables(s, s') && s'.files == s.files
  {
    hide Owned, Shaped, BlockAt, FreeBlocks, ByteAt;
    if s.inodes[i].size > 0 {
      TruncateFrees(s, i);
      var s' := Truncate(s, i).0;
      var s1 :| Released(s, s1, i) && s' == SetSize(s1, i, 0);
      ReleasedFrame(s, SizesOf(s), s1, i);
      SetSizeKeeps(s1, i, 0);
    }
  }

  // A path that is not found is created if and only if there are an inode, an entry and a handle
  // for it, and the answer is the lowest free handle, at 0 in the empty file. Without a handle
  // the file is there all the same; without an inode or an entry nothing is.
  lemma OpenNewAnswers(s: Fs, name: string, flags: Flags)
    requires Inv(s) && ValidPathname(name) && LookupPath(s, name) == -1 && flags.creat
    ensures var (s', r), i, h := Open(s, name, flags), FirstFree(s.inodeTs), FirstFree(s.fileTs);
            var made := i != -1 && AddSlot(RootEntries(s), name[1..]) != -1;
            && r == (if made && h != -1 then Ret(h) else Fail)
            && s'.fileTs == (if made && h != -1 then s.fileTs[h := TAKEN] else s.fileTs)
            && s'.files == (if made && h != -1 then s.files[h := OpenFile(i, 0)] else s.files)
            && s'.inodeTs == (if made then s.inodeTs[i := TAKEN] else s.inodeTs) && s'.blockTs == s.blockTs
            && ValidBlock(s'.inodes[ROOT_DIR_INUM].slots[0])
            && RootEntries(s') == (if made then AddEntry(RootEntries(s), i, name[1..]) else RootEntries(s))
            && (made ==> i > 0 && LiveFile(s', i) && s'.inodes[i].size == 0)
            && OtherFilesSame(s, s', ROOT_DIR_INUM)
  {
    hide Owned, Shaped, BlockAt, ByteAt, AddSlot, AddEntry, InodeDelete, Contents, FindInDir;
    OpenNewInv(s, name);
    if FirstFree(s.inodeTs) != -1 {
      FreshFile(s);
      FreshInv(s);
      var (s1, i) := InodeCreate(s, T_FILE);
      EntryInv(s1, i, name[1..]);
      var (s2, ok) := AddDirEntry(s1, i, name[1..]);
      RootStays(s1, s2);
      if ok { HandleAdded(s2, i, 0); } else { GivenBack(s1, i); }
    }
  }

  lemma RootStays(s: Fs, s': Fs)
    requires s'.inodes == s.inodes
    ensures s'.inodes[ROOT_DIR_INUM] == s.inodes[ROOT_DIR_INUM]
  {}

  lemma GivenBack(s1: Fs, i: nat)
    requires LiveFile(s1, i) && s1.inodes[i].size == 0
    ensures InodeDelete(s1, i).0 == s1.(inodeTs := s1.inodeTs[i := FREE])
  {}

  lemma CloseInv(s: Fs, h: int)
    requires Inv(s)
    ensures var (s', r) := Close(s, h);
            && Inv(s') && (r == Ret(0) <==> OpenHandle(s, h)) && (r == Fail <==> !OpenHandle(s, h)) && !OpenHandle(s', h)
            && (r == Fail ==> s' == s) && s' == s.(fileTs := s'.fileTs)
            && (forall g :: g != h ==> (OpenHandle(s', g) <==> OpenHandle(s, g)))
            && (forall j: nat :: ContentReady(s, j) ==> Contents(s', j) == Contents(s, j))
  {
    var s' := Close(s, h).0;
    assert SameRecords(s, s');
    SameRecordsOwned(s, s');
    assert SizesOf(s') == SizesOf(s);
    CloseStore(s, s');
  }

  lemma CloseStore(s: Fs, s': Fs)
    requires Store(s, SizesOf(s)) && SameRecords(s, s') && s'.inodes == s.inodes && s'.blocks == s.blocks
    requires exists owner :: Owned(s', owner)
    ensures Store(s', SizesOf(s))
  {
    hide Owned;
    forall j: nat | 0 < j && Live(s', j) ensures LiveFile(s', j) && Shaped(s', j, SizesOf(s)[j]) {
      assert LiveFile(s, j) && Shaped(s, j, SizesOf(s)[j]);
    }
  }
}
