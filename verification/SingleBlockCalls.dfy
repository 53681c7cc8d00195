/** The calls of the second version against its invariant. */
module SingleBlockCalls {
  import opened Config
  import opened FirstFit
  import opened Directory
  import opened SingleBlock
  import opened SingleBlockInv

  function Contents(s: Fs, i: nat): (c: seq<byte>)
    requires i < INODE_TABLE_SIZE && s.inodes[i].size <= BLOCK_SIZE
    requires s.inodes[i].size > 0 ==> ValidBlock(s.inodes[i].block)
    ensures |c| == s.inodes[i].size
  {
    if s.inodes[i].size == 0 then [] else s.blocks[s.inodes[i].block].bytes[..s.inodes[i].size]
  }

  lemma InitInv(s: Fs)
    ensures var (s', r) := Init(s);
            && r == Ret(0) && Inv(s')
            && (forall i :: Live(s', i) <==> i == ROOT_DIR_INUM) && (forall h :: !OpenHandle(s', h))
  {
    var s' := Init(s).0;
    assert Owned(s', map[0 := ROOT_DIR_INUM]);
  }

  lemma CloseInv(s: Fs, h: int)
    requires Inv(s)
    ensures var (s', r) := Close(s, h);
            && Inv(s') && (r == Ret(0) <==> OpenHandle(s, h)) && (r == Ret(0) || r == Fail)
            && RootEntries(s') == RootEntries(s)
            && (r == Fail ==> s' == s) && s' == s.(fileTs := s'.fileTs) && !OpenHandle(s', h)
            && (forall g :: g != h ==> (OpenHandle(s', g) <==> OpenHandle(s, g)))
  {
    var s' := Close(s, h).0;
    var owner: map<int, int> :| Owned(s, owner);
    assert Owned(s', owner);
  }

  // ---------- write ----------

  lemma TakeBlock(s: Fs, i: int)
    requires FilesOk(s) && LiveFile(s, i) && s.inodes[i].size == 0 && FirstFree(s.blockTs) != -1
    ensures var b := FirstFree(s.blockTs);
            FilesOk(s.(inodes := s.inodes[i := Inode(T_FILE, 1, b)], blockTs := s.blockTs[b := TAKEN]))
  {
    var b := FirstFree(s.blockTs);
    var s' := s.(inodes := s.inodes[i := Inode(T_FILE, 1, b)], blockTs := s.blockTs[b := TAKEN]);
    var owner: map<int, int> :| Owned(s, owner);
    assert b !in owner;
    assert Owned(s', owner[b := i]);
  }

  // Sizes may move among positive values, bytes and offsets freely.
  lemma ResizeFile(s: Fs, s': Fs, i: int, size: nat)
    requires FilesOk(s) && LiveFile(s, i) && 0 < s.inodes[i].size && 0 < size <= BLOCK_SIZE
    requires s'.inodeTs == s.inodeTs && s'.blockTs == s.blockTs
    requires s'.inodes == s.inodes[i := s.inodes[i].(size := size)]
    ensures FilesOk(s')
  {
    var owner: map<int, int> :| Owned(s, owner);
    assert Owned(s', owner);
  }

  lemma WriteFiles(s: Fs, h: int, buf: seq<byte>)
    requires Inv(s) && OpenHandle(s, h) && s.files[h].offset <= BLOCK_SIZE && ToWrite(s.files[h].offset, |buf|) > 0
    ensures var (s', r), i, off := Write(s, h, buf), s.files[h].inum, s.files[h].offset;
            var n := Min(|buf|, BLOCK_SIZE - off);
            && r == Ret(n) && FilesOk(s')
            && s'.inodeTs == s.inodeTs && s'.fileTs == s.fileTs
            && s'.files == s.files[h := OpenFile(i, off + n)]
            && s'.inodes == s.inodes[i := s'.inodes[i]]
            && s'.inodes[i].kind == T_FILE && s'.inodes[i].size == Max(s.inodes[i].size, off + n)
            && (s.inodes[i].size > 0 ==> s'.inodes[i].block == s.inodes[i].block)
            && (s.inodes[i].size == 0 ==> s'.inodes[i].block == FirstFree(s.blockTs))
            && ValidBlock(s'.inodes[i].block)
            && var b := s'.inodes[i].block;
               s'.blocks == s.blocks[b := s.blocks[b].(bytes := Splice(s.blocks[b].bytes, off, buf[..n]))]
  {
    hide Owned, DirectoryOk, Splice;
    AtMost24Blocks(s);
    ContentsDefined(s);
    KeepsOwners(s, Write(s, h, buf).0, s.files[h].inum);
  }

  // A file that was empty has taken the first free block; the size may have changed, but not to 0.
  lemma KeepsOwners(s: Fs, s': Fs, i: int)
    requires FilesOk(s) && LiveFile(s, i) && FirstFree(s.blockTs) != -1 && s'.inodeTs == s.inodeTs
    requires s'.inodes == s.inodes[i := s'.inodes[i]] && s'.inodes[i].kind == T_FILE && 0 < s'.inodes[i].size <= BLOCK_SIZE
    requires var b := FirstFree(s.blockTs);
             if s.inodes[i].size == 0 then s'.inodes[i].block == b && s'.blockTs == s.blockTs[b := TAKEN]
             else s'.inodes[i].block == s.inodes[i].block && s'.blockTs == s.blockTs
    ensures FilesOk(s')
  {
    var b := FirstFree(s.blockTs);
    if s.inodes[i].size == 0 {
      TakeBlock(s, i);
      var s1 := s.(inodes := s.inodes[i := Inode(T_FILE, 1, b)], blockTs := s.blockTs[b := TAKEN]);
      assert s'.inodes == s1.inodes[i := s1.inodes[i].(size := s'.inodes[i].size)];
      ResizeFile(s1, s', i, s'.inodes[i].size);
    } else {
      ResizeFile(s, s', i, s'.inodes[i].size);
    }
  }

  // tfs_write on a live handle never fails: it returns min(len, 1024 - offset). Only when a read
  // has taken the offset past the block does the subtraction wrap around, and then the memcpy
  // leaves all memory.
  lemma WriteNeverFails(s: Fs, h: int, buf: seq<byte>)
    requires Inv(s) && OpenHandle(s, h)
    ensures Write(s, h, buf).1 == Undefined <==> s.files[h].offset > BLOCK_SIZE
    ensures s.files[h].offset <= BLOCK_SIZE ==>
            var (s', r), i, off := Write(s, h, buf), s.files[h].inum, s.files[h].offset;
            var n := Min(|buf|, BLOCK_SIZE - off);
            && r == Ret(n) && Inv(s') && RootEntries(s') == RootEntries(s) && s'.inodeTs == s.inodeTs
            && s'.fileTs == s.fileTs && s'.files == s.files[h := OpenFile(i, off + n)]
            && (n == 0 ==> s' == s)
  {
    hide Owned;
    var (s', r) := Write(s, h, buf);
    var off, i := s.files[h].offset, s.files[h].inum;
    if off > BLOCK_SIZE {
      WritePastBlock(s, h, buf);
    } else if ToWrite(off, |buf|) == 0 {
      assert s.files[h := s.files[h]] == s.files;
    } else {
      WriteFiles(s, h, buf);
      RootKept(s, s', i);
    }
  }

  lemma WritePastBlock(s: Fs, h: int, buf: seq<byte>)
    requires Inv(s) && OpenHandle(s, h) && s.files[h].offset > BLOCK_SIZE
    ensures Write(s, h, buf).1 == Undefined
  {
    hide Owned, DirectoryOk;
    AtMost24Blocks(s);
    ContentsDefined(s);
  }

  // A file's block is not the directory's.
  lemma RootKept(s: Fs, s': Fs, i: int)
    requires FilesOk(s') && HasDirectory(s) && LiveFile(s', i) && s'.inodes[i].size > 0 && ValidBlock(s'.inodes[i].block)
    requires s'.inodes[ROOT_DIR_INUM] == s.inodes[ROOT_DIR_INUM]
    requires forall c :: 0 <= c < DATA_BLOCKS && c != s'.inodes[i].block ==> s'.blocks[c] == s.blocks[c]
    ensures RootEntries(s') == RootEntries(s)
  {
    var owner: map<int, int> :| Owned(s', owner);
    assert Holder(s', i) && Holder(s', ROOT_DIR_INUM);
  }

  // What a write at off adds to: the file, or, when somebody truncated it under the handle, the
  // stale bytes of the block the write will use, up to off.
  function Base(s: Fs, i: nat, off: nat): (c: seq<byte>)
    requires i < INODE_TABLE_SIZE && ContentOk(s, i) && off <= BLOCK_SIZE && FirstFree(s.blockTs) != -1
    ensures off <= |c|
  {
    if off <= s.inodes[i].size then Contents(s, i)
    else s.blocks[if s.inodes[i].size > 0 then s.inodes[i].block else FirstFree(s.blockTs)].bytes[..off]
  }

  // A write is a splice of the flat contents, and no other file changes.
  lemma WriteRefinesSplice(s: Fs, h: int, buf: seq<byte>)
    requires Inv(s) && OpenHandle(s, h) && s.files[h].offset <= BLOCK_SIZE
    ensures FirstFree(s.blockTs) != -1
    ensures var s', i, off := Write(s, h, buf).0, s.files[h].inum, s.files[h].offset;
            var n := Min(|buf|, BLOCK_SIZE - off);
            && LiveFile(s, i) && LiveFile(s', i) && FilesOk(s') && ContentOk(s, i) && ContentOk(s', i)
            && Contents(s', i) == (if n == 0 then Contents(s, i) else Splice(Base(s, i, off), off, buf[..n]))
            && (forall j :: LiveFile(s, j) && j != i ==>
                  LiveFile(s', j) && ContentOk(s, j) && ContentOk(s', j) && Contents(s', j) == Contents(s, j))
  {
    hide Owned, Base, Contents, DirectoryOk, Write;
    AtMost24Blocks(s);
    WriteNeverFails(s, h, buf);
    var s', i, off := Write(s, h, buf).0, s.files[h].inum, s.files[h].offset;
    ContentsDefined(s);
    ContentsDefined(s');
    if ToWrite(off, |buf|) != 0 {
      WriteFiles(s, h, buf);
      WrittenContents(s, s', i, off, buf[..Min(|buf|, BLOCK_SIZE - off)]);
      forall j | LiveFile(s, j) && j != i ensures Contents(s', j) == Contents(s, j) {
        OtherContents(s, s', i, j);
      }
    }
  }

  lemma WrittenContents(s: Fs, s': Fs, i: nat, off: nat, data: seq<byte>)
    requires i < INODE_TABLE_SIZE && ContentOk(s, i) && ContentOk(s', i) && FirstFree(s.blockTs) != -1
    requires off + |data| <= BLOCK_SIZE && |data| > 0 && s'.inodes[i].size == Max(s.inodes[i].size, off + |data|)
    requires var b := s'.inodes[i].block;
             && b == (if s.inodes[i].size > 0 then s.inodes[i].block else FirstFree(s.blockTs)) && ValidBlock(b)
             && s'.blocks == s.blocks[b := s.blocks[b].(bytes := Splice(s.blocks[b].bytes, off, data))]
    ensures Contents(s', i) == Splice(Base(s, i, off), off, data)
  {}

  lemma OtherContents(s: Fs, s': Fs, i: int, j: int)
    requires FilesOk(s') && LiveFile(s', i) && LiveFile(s', j) && j != i && s'.inodes[j] == s.inodes[j]
    requires s'.inodes[i].size > 0 && ContentOk(s, j) && ContentOk(s', j)
    requires forall c :: 0 <= c < DATA_BLOCKS && c != s'.inodes[i].block ==> s'.blocks[c] == s.blocks[c]
    ensures Contents(s', j) == Contents(s, j)
  {
    hide Owned;
    if s.inodes[j].size > 0 { NotShared(s', i, j); }
  }

  ghost predicate ContentOk(s: Fs, i: int) {
    ValidInumber(i) && s.inodes[i].size <= BLOCK_SIZE && (s.inodes[i].size > 0 ==> ValidBlock(s.inodes[i].block))
  }

  lemma ContentsDefined(s: Fs)
    requires FilesOk(s)
    ensures forall i :: LiveFile(s, i) ==> ContentOk(s, i)
  {
    var owner: map<int, int> :| Owned(s, owner);
    forall i | LiveFile(s, i) ensures ContentOk(s, i) {
      if s.inodes[i].size > 0 { assert Holder(s, i); }
    }
  }

  // No two non-empty files share a block.
  lemma NotShared(s: Fs, i: int, j: int)
    requires FilesOk(s) && Holder(s, i) && Holder(s, j) && i != j
    ensures s.inodes[i].block != s.inodes[j].block
  {
    var owner: map<int, int> :| Owned(s, owner);
  }

  // ---------- read ----------

  // Within a block the memory is the block.
  lemma MemoryOfBlock(s: Fs, b: nat, off: nat, n: nat)
    requires b < DATA_BLOCKS && off + n <= BLOCK_SIZE
    ensures b * BLOCK_SIZE + off + n <= DATA_BLOCKS * BLOCK_SIZE
    ensures Memory(s, b * BLOCK_SIZE + off, n) == s.blocks[b].bytes[off..off + n]
  {
    var m, c := Memory(s, b * BLOCK_SIZE + off, n), s.blocks[b].bytes[off..off + n];
    forall p | 0 <= p < n ensures m[p] == c[p] { InBlock(b, off + p); }
  }

  lemma InBlock(b: nat, q: nat)
    requires q < BLOCK_SIZE
    ensures (b * BLOCK_SIZE + q) / BLOCK_SIZE == b && (b * BLOCK_SIZE + q) % BLOCK_SIZE == q
  {}

  // Byte q from the start of block b, in it or in a block behind it.
  function ByteBehind(s: Fs, b: nat, q: nat): byte
    requires b * BLOCK_SIZE + q < DATA_BLOCKS * BLOCK_SIZE
  {
    s.blocks[b + q / BLOCK_SIZE].bytes[q % BLOCK_SIZE]
  }

  lemma MemoryBytes(s: Fs, b: nat, off: nat, m: seq<byte>)
    requires b * BLOCK_SIZE + off + |m| <= DATA_BLOCKS * BLOCK_SIZE && m == Memory(s, b * BLOCK_SIZE + off, |m|)
    ensures forall p :: 0 <= p < |m| ==> m[p] == ByteBehind(s, b, off + p)
  {
    forall p | 0 <= p < |m| ensures m[p] == ByteBehind(s, b, off + p) {
      assert b * BLOCK_SIZE + off + p == (b + (off + p) / BLOCK_SIZE) * BLOCK_SIZE + (off + p) % BLOCK_SIZE;
      InBlock(b + (off + p) / BLOCK_SIZE, (off + p) % BLOCK_SIZE);
    }
  }

  // Nothing is asked for, or the read begins in the file, or, after somebody truncated it, it ends
  // before the last block does.
  predicate InMemory(s: Fs, h: int, len: nat)
    requires ValidHandle(h) && ValidInumber(s.files[h].inum)
  {
    var n, off := s.inodes[s.files[h].inum], s.files[h].offset;
    len == 0 || off <= n.size || n.block * BLOCK_SIZE + off + len <= DATA_BLOCKS * BLOCK_SIZE
  }

  // tfs_read returns the next bytes of the file when the offset is within it. After somebody
  // truncated the file the unsigned subtraction asks for len bytes, and the memcpy takes them
  // from the block the file had and from the blocks behind it, as far as there are any. No read
  // changes a file.
  lemma ReadMeaning(s: Fs, h: int, len: nat)
    requires Inv(s) && OpenHandle(s, h)
    ensures var (s', r), i, off := Read(s, h, len), s.files[h].inum, s.files[h].offset;
            && LiveFile(s, i) && ContentOk(s, i) && r != ReadFail
            && (off <= s.inodes[i].size ==>
                  var n := Min(len, s.inodes[i].size - off);
                  r == Got(Contents(s, i)[off..off + n]) && s'.files == s.files[h := OpenFile(i, off + n)])
            && (off > s.inodes[i].size ==>
                  && 0 < s.inodes[i].block < DATA_BLOCKS
                  && (InMemory(s, h, len) ==>
                        && |r.data| == len && s'.files == s.files[h := OpenFile(i, off + len)]
                        && (forall p :: 0 <= p < len ==> r.data[p] == ByteBehind(s, s.inodes[i].block, off + p))))
            && (r == ReadUndefined <==> !InMemory(s, h, len))
            && s' == s.(files := s'.files) && Inv(s')
  {
    hide Owned, DirectoryOk, FilesOk, Memory, Contents;
    ContentsDefined(s);
    var i, off := s.files[h].inum, s.files[h].offset;
    assert s.files[h := s.files[h]] == s.files;
    if off <= s.inodes[i].size {
      ReadInside(s, h, len);
      OffsetInv(s, Read(s, h, len).0, h);
    } else {
      LiveBlock(s, i);
      if InMemory(s, h, len) {
        OffsetInv(s, Read(s, h, len).0, h);
        if len > 0 { MemoryBytes(s, s.inodes[i].block, off, Read(s, h, len).1.data); }
      }
    }
  }

  lemma LiveBlock(s: Fs, i: int)
    requires FilesOk(s) && LiveFile(s, i) && ValidBlock(s.inodes[i].block)
    ensures 0 < s.inodes[i].block
  {
    hide Owned;
  }

  lemma ReadInside(s: Fs, h: int, len: nat)
    requires ValidHandle(h) && ValidInumber(s.files[h].inum) && ContentOk(s, s.files[h].inum)
    requires s.files[h].offset <= s.inodes[s.files[h].inum].size
    ensures var i, off := s.files[h].inum, s.files[h].offset;
            var n := Min(len, s.inodes[i].size - off);
            Read(s, h, len) == (s.(files := s.files[h := OpenFile(i, off + n)]), Got(Contents(s, i)[off..off + n]))
  {
    hide Memory;
    var i, off := s.files[h].inum, s.files[h].offset;
    var n := Min(len, s.inodes[i].size - off);
    if n > 0 { MemoryOfBlock(s, s.inodes[i].block, off, n); }
    assert s.files[h := s.files[h]] == s.files;
    assert Contents(s, i)[off..off + n] == if n == 0 then [] else s.blocks[s.inodes[i].block].bytes[off..off + n];
  }

  lemma OffsetInv(s: Fs, s': Fs, h: int)
    requires Inv(s) && ValidHandle(h) && s' == s.(files := s'.files)
    requires s'.files == s.files[h := s'.files[h]] && s'.files[h].inum == s.files[h].inum
    requires s'.files[h].offset <= DATA_BLOCKS * BLOCK_SIZE
    requires ValidInumber(s.files[h].inum)
    requires s'.files[h].offset > 0 ==> s'.files[h].offset == s.files[h].offset || ValidBlock(s.inodes[s.files[h].inum].block)
    ensures Inv(s')
  {
    var owner: map<int, int> :| Owned(s, owner);
    assert Owned(s', owner);
  }

  // ---------- open ----------

  lemma AddHandleInv(s: Fs, i: int, off: nat)
    requires Inv(s) && LiveFile(s, i) && off <= s.inodes[i].size
    ensures Inv(AddToOpenFileTable(s, i, off).0)
    ensures RootEntries(AddToOpenFileTable(s, i, off).0) == RootEntries(s)
  {
    var s' := AddToOpenFileTable(s, i, off).0;
    ContentsDefined(s);
    var owner: map<int, int> :| Owned(s, owner);
    assert Owned(s', owner);
  }

  // Truncation frees the block and keeps its number, whoever else has the file open.
  lemma TruncateInv(s: Fs, i: int)
    requires Inv(s) && LiveFile(s, i)
    ensures var (s', r) := Truncate(s, i);
            && r == Ret(0) && Inv(s') && LiveFile(s', i) && s'.inodes[i] == s.inodes[i].(size := 0)
            && s'.inodeTs == s.inodeTs && s'.fileTs == s.fileTs && s'.files == s.files && s'.blocks == s.blocks
            && (forall j :: 0 <= j < INODE_TABLE_SIZE && j != i ==> s'.inodes[j] == s.inodes[j])
            && RootEntries(s') == RootEntries(s)
  {
    hide Owned;
    var s' := Truncate(s, i).0;
    if s.inodes[i].size > 0 {
      TruncateOwned(s, i);
      assert forall j :: LiveFile(s', j) <==> LiveFile(s, j);
    }
  }

  lemma TruncateOwned(s: Fs, i: int)
    requires FilesOk(s) && LiveFile(s, i) && s.inodes[i].size > 0
    ensures ValidBlock(s.inodes[i].block) && FilesOk(Truncate(s, i).0) && s.inodes[i].block != s.inodes[ROOT_DIR_INUM].block
  {
    var s', b := Truncate(s, i).0, s.inodes[i].block;
    var owner: map<int, int> :| Owned(s, owner);
    assert Holder(s, i) && Holder(s, ROOT_DIR_INUM);
    assert Owned(s', owner - {b});
  }

  lemma OpenExistingInv(s: Fs, i: int, flags: Flags)
    requires Inv(s) && LiveFile(s, i)
    ensures var (s', r) := OpenExisting(s, i, flags);
            && Inv(s') && RootEntries(s') == RootEntries(s) && s'.inodeTs == s.inodeTs
            && (r == if FirstFree(s.fileTs) == -1 then Fail else Ret(FirstFree(s.fileTs)))
            && (r.Ret? ==> s'.fileTs == s.fileTs[r.n := TAKEN] && s'.files == s.files[r.n := s'.files[r.n]]
                           && s'.files[r.n].inum == i)
            && (!r.Ret? ==> s'.fileTs == s.fileTs)
  {
    hide Owned, DirectoryOk, Truncate;
    TruncateInv(s, i);
    var s1 := if flags.trunc then Truncate(s, i).0 else s;
    AddHandleInv(s1, i, if flags.append then s1.inodes[i].size else 0);
  }

  lemma LookupLive(s: Fs, name: string)
    requires Inv(s)
    ensures LookupPath(s, name) == -1 || LiveFile(s, LookupPath(s, name))
  {}

  // The first-fit inode and a free entry go together.
  lemma NewFileInv(s: Fs, sub: string)
    requires Inv(s) && AddSlot(RootEntries(s), sub) != -1
    ensures FirstFree(s.inodeTs) > 0
    ensures var i := FirstFree(s.inodeTs);
            var s' := AddDirEntry(InodeCreate(s, T_FILE).0, i, sub).0;
            && Inv(s') && LiveFile(s', i) && s'.inodes[i] == Inode(T_FILE, 0, -1)
            && RootEntries(s') == AddEntry(RootEntries(s), i, sub)
            && s'.blockTs == s.blockTs && s'.fileTs == s.fileTs && s'.files == s.files
            && s'.inodeTs == s.inodeTs[i := TAKEN]
            && (forall j :: 0 <= j < INODE_TABLE_SIZE && j != i ==> s'.inodes[j] == s.inodes[j])
            && (forall b :: 0 <= b < DATA_BLOCKS ==> s'.blocks[b].bytes == s.blocks[b].bytes)
  {
    hide Owned, DirectoryOk, AddEntry, AddSlot;
    AtMost23Files(s);
    var i := FirstFree(s.inodeTs);
    var s' := AddDirEntry(InodeCreate(s, T_FILE).0, i, sub).0;
    assert Live(s, 0) && !Live(s, i);
    UnusedInode(s, s', i);
    AddedEntry(s, s', i, sub);
  }

  // An inode that was not in use may be filled in, and be in use as an empty file from then on.
  lemma UnusedInode(s: Fs, s': Fs, i: int)
    requires FilesOk(s) && 0 < i < INODE_TABLE_SIZE && !Live(s, i) && s'.blockTs == s.blockTs
    requires s'.inodes == s.inodes[i := Inode(T_FILE, 0, -1)] && s'.inodeTs == s.inodeTs[i := s'.inodeTs[i]]
    ensures FilesOk(s')
  {
    var owner: map<int, int> :| Owned(s, owner);
    assert forall j :: 0 <= j < INODE_TABLE_SIZE && j != i ==> s'.inodes[j] == s.inodes[j] && s'.inodeTs[j] == s.inodeTs[j];
    assert Owned(s', owner);
  }

  lemma AddedEntry(s: Fs, s': Fs, i: int, sub: string)
    requires Live(s, 0) && HasDirectory(s) && DirectoryOk(s, RootEntries(s)) && AddSlot(RootEntries(s), sub) != -1
    requires 0 < i && ValidInumber(i) && !Live(s, i)
    requires s'.inodeTs == s.inodeTs[i := TAKEN] && s'.inodes[i].kind == T_FILE
    requires forall j :: 0 <= j < INODE_TABLE_SIZE && j != i ==> s'.inodes[j] == s.inodes[j]
    ensures DirectoryOk(s', AddEntry(RootEntries(s), i, sub))
  {
    hide FindInDir, Stored;
    var es, k := RootEntries(s), AddSlot(RootEntries(s), sub);
    var es' := AddEntry(es, i, sub);
    AddKeepsStored(es, i, sub);
    EntriesAdded(es, i, sub);
    forall j ensures LiveFile(s', j) <==> j == i || LiveFile(s, j) {}
    forall j | LiveFile(s', j) ensures exists q :: Entry(es', q) && es'[q].inum == j {
      NamedAfter(s, s', i, sub, j);
    }
  }

  // The entries of a directory with one more: those it had, and the first empty one.
  lemma EntriesAdded(es: Entries, i: int, sub: string)
    requires AddSlot(es, sub) != -1 && i != -1
    ensures var k, es' := AddSlot(es, sub), AddEntry(es, i, sub);
            && (forall j :: Entry(es', j) <==> j == k || Entry(es, j))
            && !Entry(es, k) && es'[k].inum == i && es'[k].name == Stored(sub) && |es'[k].name| > 0
            && (forall j :: 0 <= j < k ==> Entry(es, j))
            && (forall j :: Entry(es, j) ==> es'[j] == es[j])
  {}

  lemma NamedAfter(s: Fs, s': Fs, i: int, sub: string, j: int)
    requires HasDirectory(s) && AddSlot(RootEntries(s), sub) != -1 && i != -1
    requires forall j :: LiveFile(s, j) ==> exists q :: Entry(RootEntries(s), q) && RootEntries(s)[q].inum == j
    requires j == i || LiveFile(s, j)
    ensures var es' := AddEntry(RootEntries(s), i, sub); exists q :: Entry(es', q) && es'[q].inum == j
  {
    hide AddEntry, AddSlot, LiveFile;
    EntriesAdded(RootEntries(s), i, sub);
    var es, es' := RootEntries(s), AddEntry(RootEntries(s), i, sub);
    if j == i {
      assert Entry(es', AddSlot(es, sub));
    } else {
      var q :| Entry(es, q) && es[q].inum == j;
      assert Entry(es', q);
    }
  }

  // A full directory, or an empty name, gives the inode back: every table is as before.
  lemma RollBack(s: Fs, sub: string)
    requires Inv(s) && AddSlot(RootEntries(s), sub) == -1
    ensures FirstFree(s.inodeTs) > 0
    ensures var i, s1 := FirstFree(s.inodeTs), InodeCreate(s, T_FILE).0;
            var s' := InodeDelete(AddDirEntry(s1, i, sub).0, i).0;
            && !AddDirEntry(s1, i, sub).1 && Inv(s')
            && s' == s.(inodes := s.inodes[i := Inode(T_FILE, 0, -1)]) && !Live(s, i)
  {
    hide Owned, AddEntry, AddSlot;
    AtMost23Files(s);
    var i := FirstFree(s.inodeTs);
    var s' := InodeDelete(AddDirEntry(InodeCreate(s, T_FILE).0, i, sub).0, i).0;
    assert Live(s, 0) && !Live(s, i);
    assert s'.inodeTs == s.inodeTs;
    UnusedInode(s, s', i);
    SameDirectory(s, s', i);
  }

  lemma SameDirectory(s: Fs, s': Fs, i: int)
    requires Inv(s) && 0 < i < INODE_TABLE_SIZE && !Live(s, i)
    requires s' == s.(inodes := s.inodes[i := Inode(T_FILE, 0, -1)])
    ensures RootEntries(s') == RootEntries(s) && DirectoryOk(s', RootEntries(s)) && HandlesOk(s')
  {
    hide Owned;
    assert forall j :: LiveFile(s', j) <==> LiveFile(s, j);
  }

  // The creation path, step by step.
  lemma OpenNewSteps(s: Fs, name: string, flags: Flags)
    requires Inv(s) && |name| > 0 && flags.creat && LookupPath(s, name) == -1
    ensures var (s', r), i := Open(s, name, flags), FirstFree(s.inodeTs);
            && i > 0 && Inv(s')
            && (r.Ret? <==> AddSlot(RootEntries(s), name[1..]) != -1 && FirstFree(s.fileTs) != -1)
            && (AddSlot(RootEntries(s), name[1..]) != -1 ==>
                  RootEntries(s') == AddEntry(RootEntries(s), i, name[1..]) && LiveFile(s', i))
            && (AddSlot(RootEntries(s), name[1..]) == -1 ==>
                  s' == s.(inodes := s.inodes[i := Inode(T_FILE, 0, -1)]) && !Live(s, i))
  {
    hide Owned, DirectoryOk, FilesOk, HandlesOk, AddSlot, AddEntry, AddDirEntry, InodeDelete;
    AtMost23Files(s);
    LiveHasDirectory(s);
    var i, s1 := FirstFree(s.inodeTs), InodeCreate(s, T_FILE).0;
    if AddSlot(RootEntries(s), name[1..]) != -1 {
      NewFileInv(s, name[1..]);
      EntryAdded(s, i, name[1..]);
      AddHandleInv(AddDirEntry(s1, i, name[1..]).0, i, 0);
    } else {
      RollBack(s, name[1..]);
    }
  }

  lemma EntryAdded(s: Fs, i: nat, sub: string)
    requires HasDirectory(s) && i == FirstFree(s.inodeTs) > 0
    ensures AddDirEntry(InodeCreate(s, T_FILE).0, i, sub).1 == (AddSlot(RootEntries(s), sub) != -1)
  {
    hide AddSlot, AddEntry;
  }

  // tfs_open keeps the invariant for every name and all flags, truncation under other open
  // handles included. inode_create never runs out.
  lemma OpenInv(s: Fs, name: string, flags: Flags)
    requires Inv(s)
    ensures var (s', r) := Open(s, name, flags);
            && (r == Undefined <==> |name| == 0 && flags.creat)
            && (r != Undefined ==> Inv(s'))
            && (r.Ret? ==> s'.fileTs == s.fileTs[r.n := TAKEN] && r.n == FirstFree(s.fileTs))
            && (!r.Ret? ==> s'.fileTs == s.fileTs)
            && (LookupPath(s, name) != -1 ==> RootEntries(s') == RootEntries(s))
            && (LookupPath(s, name) == -1 && !flags.creat ==> s' == s && r == Fail)
            && (r.Fail? && LookupPath(s, name) == -1 && FirstFree(s.fileTs) != -1 ==>
                  s'.inodeTs == s.inodeTs && s'.blockTs == s.blockTs && s'.files == s.files && RootEntries(s') == RootEntries(s))
            && (LookupPath(s, name) == -1 && r != Undefined ==>
                  RootEntries(s') == RootEntries(s)
                  || (|name| > 0 && AddSlot(RootEntries(s), name[1..]) != -1 && FirstFree(s.inodeTs) > 0
                      && RootEntries(s') == AddEntry(RootEntries(s), FirstFree(s.inodeTs), name[1..])))
  {
    hide Owned, DirectoryOk, FilesOk, AddSlot, AddEntry, OpenExisting;
    LookupLive(s, name);
    LiveHasDirectory(s);
    var i := LookupPath(s, name);
    if i != -1 {
      LiveIsValid(s, i);
      OpenExistingInv(s, i, flags);
    } else if flags.creat {
      AtMost23Files(s);
      if |name| > 0 {
        OpenNewSteps(s, name, flags);
      }
    }
  }

  lemma LiveIsValid(s: Fs, i: int)
    requires LiveFile(s, i)
    ensures ValidInumber(i) && i > 0
  {}

  lemma LiveHasDirectory(s: Fs)
    requires Inv(s)
    ensures HasDirectory(s)
  {}

  // ---------- what tfs_open answers ----------

  // No look-up succeeds on a path that is not '/' and at least one character more, and a path
  // that is not found is refused unless the file is to be created.
  lemma OpenRefused(s: Fs, name: string, flags: Flags)
    ensures |name| <= 1 || name[0] != '/' ==> LookupPath(s, name) == -1
    ensures LookupPath(s, name) == -1 && !flags.creat ==> Open(s, name, flags) == (s, Fail)
  {}

  // A file that is found is opened if and only if a handle is free, the lowest free one: at 0,
  // or with TFS_O_APPEND at the end. TFS_O_TRUNC empties the file, handle or no handle. Other
  // files, inodes, handles and the directory are as before.
  lemma OpenFoundFile(s: Fs, name: string, flags: Flags)
    requires Inv(s) && LookupPath(s, name) != -1
    ensures var (s', r), i, h := Open(s, name, flags), LookupPath(s, name), FirstFree(s.fileTs);
            && LiveFile(s, i) && LiveFile(s', i) && ContentOk(s, i) && ContentOk(s', i)
            && r == (if h == -1 then Fail else Ret(h))
            && Contents(s', i) == (if flags.trunc then [] else Contents(s, i))
            && s'.fileTs == (if h == -1 then s.fileTs else s.fileTs[h := TAKEN])
            && s'.files == (if h == -1 then s.files
                            else s.files[h := OpenFile(i, if flags.append then |Contents(s', i)| else 0)])
            && s'.inodeTs == s.inodeTs && s'.blocks == s.blocks
            && (forall j :: 0 <= j < INODE_TABLE_SIZE && j != i ==> s'.inodes[j] == s.inodes[j])
  {
    hide Owned, DirectoryOk, HandlesOk, FindInDir, Truncate;
    LookupLive(s, name);
    TruncateInv(s, LookupPath(s, name));
    ContentsDefined(s);
  }

  // A path that is not found is created if and only if there are an entry and a handle for it
  // (an inode there always is), and the answer is the lowest free handle, at 0 in the empty file.
  // Without a handle the file is there all the same; without an entry nothing is.
  lemma OpenNewAnswers(s: Fs, name: string, flags: Flags)
    requires Inv(s) && |name| > 0 && LookupPath(s, name) == -1 && flags.creat
    ensures HasDirectory(s)
    ensures var (s', r), i, h := Open(s, name, flags), FirstFree(s.inodeTs), FirstFree(s.fileTs);
            var made := AddSlot(RootEntries(s), name[1..]) != -1;
            && i > 0 && HasDirectory(s')
            && r == (if made && h != -1 then Ret(h) else Fail)
            && s'.fileTs == (if made && h != -1 then s.fileTs[h := TAKEN] else s.fileTs)
            && s'.files == (if made && h != -1 then s.files[h := OpenFile(i, 0)] else s.files)
            && s'.inodeTs == (if made then s.inodeTs[i := TAKEN] else s.inodeTs) && s'.blockTs == s.blockTs
            && RootEntries(s') == (if made then AddEntry(RootEntries(s), i, name[1..]) else RootEntries(s))
            && s'.inodes == s.inodes[i := Inode(T_FILE, 0, -1)]
            && (forall b :: 0 <= b < DATA_BLOCKS ==> s'.blocks[b].bytes == s.blocks[b].bytes)
  {
    hide Owned, DirectoryOk, HandlesOk, FindInDir, AddSlot, AddEntry, RootEntries;
    LiveHasDirectory(s);
    AtMost23Files(s);
    OpenNewSteps(s, name, flags);
    LiveHasDirectory(Open(s, name, flags).0);
    EntryAdded(s, FirstFree(s.inodeTs), name[1..]);
    if AddSlot(RootEntries(s), name[1..]) == -1 {
      RollBack(s, name[1..]);
      SameDirectory(s, Open(s, name, flags).0, FirstFree(s.inodeTs));
    } else {
      NewFileInv(s, name[1..]);
    }
  }

  // Opened with TFS_O_APPEND, a write puts behind what the file holds after the open as many of
  // its bytes as its block has room for.
  lemma AppendAtEnd(s: Fs, name: string, flags: Flags, buf: seq<byte>)
    requires Inv(s) && LookupPath(s, name) != -1 && flags.append && Open(s, name, flags).1.Ret?
    ensures var (s1, r1), i := Open(s, name, flags), LookupPath(s, name);
            var (s2, r2) := Write(s1, r1.n, buf);
            && ContentOk(s, i) && ContentOk(s2, i)
            && var c := if flags.trunc then [] else Contents(s, i);
               r2.Ret? && r2.n == Min(|buf|, BLOCK_SIZE - |c|) && Contents(s2, i) == c + buf[..r2.n]
  {
    hide Inv, FilesOk, Contents, Open, Write, LookupPath, Base;
    OpenFoundFile(s, name, flags);
    OpenInv(s, name, flags);
    var (s1, r1) := Open(s, name, flags);
    var i := LookupPath(s, name);
    ContentSize(s1, i);
    WriteNeverFails(s1, r1.n, buf);
    WriteRefinesSplice(s1, r1.n, buf);
    BaseAtEnd(s1, i);
  }

  lemma ContentSize(s: Fs, i: int)
    requires ContentOk(s, i)
    ensures |Contents(s, i)| == s.inodes[i].size <= BLOCK_SIZE
  {}

  lemma BaseAtEnd(s: Fs, i: nat)
    requires i < INODE_TABLE_SIZE && ContentOk(s, i) && FirstFree(s.blockTs) != -1
    ensures Base(s, i, s.inodes[i].size) == Contents(s, i)
  {}

  // ---------- inode_delete ----------

  // An inode that is not in use is refused. A file's inode becomes free, and its block if the file
  // is not empty (an empty one may still name the block it had); other files stay as they are.
  lemma DeleteReleases(s: Fs, i: int)
    requires FilesOk(s)
    ensures !Live(s, i) ==> InodeDelete(s, i) == (s, Fail)
    ensures LiveFile(s, i) ==> var (s', r) := InodeDelete(s, i);
              && r == Ret(0) && FilesOk(s') && s'.inodeTs == s.inodeTs[i := FREE]
              && (forall b :: 0 <= b < DATA_BLOCKS ==>
                    s'.blockTs[b] == if s.inodes[i].size > 0 && b == s.inodes[i].block then FREE else s.blockTs[b])
              && s' == s.(inodeTs := s'.inodeTs, blockTs := s'.blockTs)
  {
    if LiveFile(s, i) {
      if s.inodes[i].size > 0 { BlockIsValid(s, i); }
      DropOwner(s, InodeDelete(s, i).0, i);
    }
  }

  lemma BlockIsValid(s: Fs, i: int)
    requires FilesOk(s) && Holder(s, i)
    ensures ValidBlock(s.inodes[i].block)
  {
    var owner: map<int, int> :| Owned(s, owner);
  }

  lemma DropOwner(s: Fs, s': Fs, i: int)
    requires FilesOk(s) && LiveFile(s, i) && s' == s.(inodeTs := s.inodeTs[i := FREE], blockTs := s'.blockTs)
    requires s'.blockTs == if s.inodes[i].size > 0 && ValidBlock(s.inodes[i].block) then s.blockTs[s.inodes[i].block := FREE]
                           else s.blockTs
    ensures FilesOk(s')
  {
    var owner: map<int, int> :| Owned(s, owner);
    assert s.inodes[i].size > 0 ==> Holder(s, i);
    assert forall j :: Live(s', j) <==> Live(s, j) && j != i;
    assert Owned(s', map b | b in owner && owner[b] != i :: owner[b]);
  }

  // ---------- handles that are not open ----------

  // A handle outside the table is refused.
  lemma BadHandle(s: Fs, h: int, buf: seq<byte>, len: nat)
    requires !ValidHandle(h)
    ensures Write(s, h, buf) == (s, Fail) && Read(s, h, len) == (s, ReadFail)
  {}

  // Neither call looks at the flags of the open-file table: through a handle that was closed
  // they go on as through an open one.
  lemma FlagsIgnored(s: Fs, ts: seq<Alloc>, h: int, buf: seq<byte>, len: nat)
    requires |ts| == MAX_OPEN_FILES
    ensures var s0 := s.(fileTs := ts);
            && Write(s0, h, buf) == (Write(s, h, buf).0.(fileTs := ts), Write(s, h, buf).1)
            && Read(s0, h, len) == (Read(s, h, len).0.(fileTs := ts), Read(s, h, len).1)
  {}
}
