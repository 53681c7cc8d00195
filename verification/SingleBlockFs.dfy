/** The second version in its own form: static tables as arrays, two globals, and the calls under
    the global lock. Each method is tied to the function of the same C routine in SingleBlock. */
module SingleBlockFs {
  import opened Config
  import opened FirstFit
  import opened Directory
  import opened SingleBlock
  import Inv = SingleBlockInv
  import Calls = SingleBlockCalls

  class TecnicoFs {
    const inodes: array<Inode>
    const inodeTs: array<Alloc>
    const blocks: array<Block>
    const blockTs: array<Alloc>
    const files: array<OpenFile>
    const fileTs: array<Alloc>
    var canOpenFiles: bool
    var openFiles: int

    ghost predicate Valid() {
      && inodes.Length == inodeTs.Length == INODE_TABLE_SIZE
      && blocks.Length == blockTs.Length == DATA_BLOCKS
      && files.Length == fileTs.Length == MAX_OPEN_FILES
      && inodeTs != blockTs && inodeTs != fileTs && blockTs != fileTs
    }

    ghost function Value(): Fs
      requires Valid()
      reads inodes, inodeTs, blocks, blockTs, files, fileTs
    {
      Fs(inodes[..], inodeTs[..], blocks[..], blockTs[..], files[..], fileTs[..])
    }

    // Tables in static memory, before tfs_init.
    constructor ()
      ensures Valid() && fresh(inodes) && fresh(inodeTs) && fresh(blocks) && fresh(blockTs) && fresh(files) && fresh(fileTs)
      ensures canOpenFiles && openFiles == 0
    {
      var es: Entries := seq(MAX_DIR_ENTRIES, _ => DirEntry("", 0));
      var block: Block := Block(seq(BLOCK_SIZE, _ => 0), es);
      inodes := new Inode[INODE_TABLE_SIZE](_ => Inode(T_FILE, 0, 0));
      inodeTs := new Alloc[INODE_TABLE_SIZE](_ => FREE);
      blocks := new Block[DATA_BLOCKS](_ => block);
      blockTs := new Alloc[DATA_BLOCKS](_ => FREE);
      files := new OpenFile[MAX_OPEN_FILES](_ => OpenFile(0, 0));
      fileTs := new Alloc[MAX_OPEN_FILES](_ => FREE);
      canOpenFiles := true;
      openFiles := 0;
    }

    // ---------- state.c ----------

    method CreateFile() returns (i: int)
      requires Valid()
      modifies inodes, inodeTs
      ensures (Value(), i) == InodeCreate(old(Value()), T_FILE)
    {
      i := TakeFirst(inodeTs);
      if i != -1 { inodes[i] := Inode(T_FILE, 0, -1); }
    }

    method CreateRoot() returns (i: int)
      requires Valid()
      modifies inodes, inodeTs, blocks, blockTs
      ensures (Value(), i) == InodeCreate(old(Value()), T_DIRECTORY)
    {
      ghost var s := Value();
      i := TakeFirst(inodeTs);
      if i == -1 { return; }
      inodes[i] := inodes[i].(kind := T_DIRECTORY);
      var b := TakeFirst(blockTs);
      if b == -1 {
        inodeTs[i] := FREE;
        assert inodeTs[..] == s.inodeTs;
        return -1;
      }
      inodes[i] := inodes[i].(size := BLOCK_SIZE, block := b);
      ClearEntries(b);
      assert inodes[..] == s.inodes[i := Inode(T_DIRECTORY, BLOCK_SIZE, b)];
    }

    method ClearEntries(b: nat)
      requires Valid() && b < DATA_BLOCKS
      modifies blocks
      ensures var block := old(blocks[b]);
              blocks[..] == old(blocks[..])[b := block.(entries := EmptyEntries(block.entries))]
    {
      for k := 0 to MAX_DIR_ENTRIES
        invariant forall c :: 0 <= c < DATA_BLOCKS && c != b ==> blocks[c] == old(blocks[c])
        invariant blocks[b] == old(blocks[b]).(entries := blocks[b].entries)
        invariant forall q :: 0 <= q < MAX_DIR_ENTRIES ==>
                    blocks[b].entries[q] == if q < k then old(blocks[b]).entries[q].(inum := -1) else old(blocks[b]).entries[q]
      {
        blocks[b] := blocks[b].(entries := blocks[b].entries[k := blocks[b].entries[k].(inum := -1)]);
      }
      assert blocks[b].entries == EmptyEntries(old(blocks[b]).entries);
    }

    method DeleteInode(i: int) returns (r: Result)
      requires Valid()
      modifies inodeTs, blockTs
      ensures (Value(), r) == InodeDelete(old(Value()), i)
    {
      if !ValidInumber(i) || inodeTs[i] == FREE { return Fail; }
      inodeTs[i] := FREE;
      if inodes[i].size > 0 {
        if !ValidBlock(inodes[i].block) { return Fail; }
        blockTs[inodes[i].block] := FREE;
      }
      return Ret(0);
    }

    method AddToRoot(inum: nat, name: string) returns (ok: bool)
      requires Valid() && inum < INODE_TABLE_SIZE
      modifies blocks
      ensures (Value(), ok) == AddDirEntry(old(Value()), inum, name)
    {
      if inodes[ROOT_DIR_INUM].kind != T_DIRECTORY || |name| == 0 || !ValidBlock(inodes[ROOT_DIR_INUM].block) { return false; }
      var b := inodes[ROOT_DIR_INUM].block;
      var k := ScanForEmpty(blocks[b].entries);
      if k == -1 { return false; }
      blocks[b] := blocks[b].(entries := blocks[b].entries[k := DirEntry(Stored(name), inum)]);
      return true;
    }

    method FindInRoot(name: string) returns (inum: int)
      requires Valid()
      ensures inum == FindName(Value(), name)
    {
      if inodes[ROOT_DIR_INUM].kind != T_DIRECTORY || !ValidBlock(inodes[ROOT_DIR_INUM].block) { return -1; }
      inum := ScanForName(blocks[inodes[ROOT_DIR_INUM].block].entries, name);
    }

    method AllocateHandle(inum: int, offset: nat) returns (r: Result)
      requires Valid()
      modifies files, fileTs
      ensures (Value(), r) == AddToOpenFileTable(old(Value()), inum, offset)
    {
      var h := TakeFirst(fileTs);
      if h == -1 { return Fail; }
      files[h] := OpenFile(inum, offset);
      return Ret(h);
    }

    // ---------- operations.c ----------

    method TfsInit() returns (r: Result)
      requires Valid()
      modifies this, inodes, inodeTs, blocks, blockTs, files, fileTs
      ensures (Value(), r) == Init(old(Value())) && canOpenFiles && openFiles == 0
      ensures r == Ret(0) && Inv.Inv(Value())
    {
      hide InodeCreate, Inv.Inv;
      ghost var memory := Value();
      for i := 0 to INODE_TABLE_SIZE
        modifies inodeTs
        invariant forall k :: 0 <= k < i ==> inodeTs[k] == FREE
      {
        inodeTs[i] := FREE;
      }
      for i := 0 to DATA_BLOCKS
        modifies blockTs
        invariant forall k :: 0 <= k < i ==> blockTs[k] == FREE
      {
        blockTs[i] := FREE;
      }
      for i := 0 to MAX_OPEN_FILES
        modifies fileTs
        invariant forall k :: 0 <= k < i ==> fileTs[k] == FREE
      {
        fileTs[i] := FREE;
      }
      canOpenFiles, openFiles := true, 0;
      assert inodeTs[..] == seq(INODE_TABLE_SIZE, _ => FREE);
      assert blockTs[..] == seq(DATA_BLOCKS, _ => FREE);
      assert fileTs[..] == seq(MAX_OPEN_FILES, _ => FREE);
      ghost var s1 := memory.(inodeTs := seq(INODE_TABLE_SIZE, _ => FREE), blockTs := seq(DATA_BLOCKS, _ => FREE),
                              fileTs := seq(MAX_OPEN_FILES, _ => FREE));
      assert Value() == s1;
      var root := CreateRoot();
      Calls.InitInv(memory);
      r := if root == ROOT_DIR_INUM then Ret(0) else Fail;
    }

    method OpenUnsynchronized(name: string, flags: Flags) returns (r: Result)
      requires Valid()
      modifies inodes, inodeTs, blocks, blockTs, files, fileTs
      ensures (Value(), r) == Open(old(Value()), name, flags)
    {
      hide InodeCreate, AddDirEntry, InodeDelete, AddToOpenFileTable, FindName;
      var inum := -1;
      if ValidPathname(name) { inum := FindInRoot(name[1..]); }
      if inum >= 0 {
        if !ValidInumber(inum) { return Fail; }
        if flags.trunc && inodes[inum].size > 0 {
          if !ValidBlock(inodes[inum].block) { return Fail; }
          blockTs[inodes[inum].block] := FREE;
          inodes[inum] := inodes[inum].(size := 0);
        }
        r := AllocateHandle(inum, if flags.append then inodes[inum].size else 0);
      } else if flags.creat {
        inum := CreateFile();
        if !ValidInumber(inum) { return Fail; }
        if |name| == 0 { return Undefined; }
        var ok := AddToRoot(inum, name[1..]);
        if !ok {
          var _ := DeleteInode(inum);
          return Fail;
        }
        r := AllocateHandle(inum, 0);
      } else {
        r := Fail;
      }
    }

    // tfs_open: refused once the shutdown has begun, and counted when it succeeds.
    method TfsOpen(name: string, flags: Flags) returns (r: Result)
      requires Valid()
      modifies `openFiles, inodes, inodeTs, blocks, blockTs, files, fileTs
      ensures (Value(), r) == if canOpenFiles then Open(old(Value()), name, flags) else (old(Value()), Fail)
      ensures openFiles == old(openFiles) + if r == Fail then 0 else 1
    {
      if !canOpenFiles { return Fail; }
      r := OpenUnsynchronized(name, flags);
      if r != Fail { openFiles := openFiles + 1; }
    }

    // tfs_close; it reports whether it signals the condition variable.
    method TfsClose(fhandle: int) returns (r: Result, signal: bool)
      requires Valid()
      modifies `openFiles, fileTs
      ensures (Value(), r) == Close(old(Value()), fhandle)
      ensures openFiles == old(openFiles) - (if r == Fail then 0 else 1) && signal == (openFiles == 0)
    {
      r := Fail;
      if ValidHandle(fhandle) && fileTs[fhandle] == TAKEN {
        fileTs[fhandle] := FREE;
        r := Ret(0);
      }
      if r != Fail { openFiles := openFiles - 1; }
      signal := openFiles == 0;
    }

    method TfsWrite(fhandle: int, buffer: seq<byte>) returns (r: Result)
      requires Valid()
      modifies inodes, blocks, blockTs, files
      ensures (Value(), r) == Write(old(Value()), fhandle, buffer)
    {
      hide WriteBytes;
      if !ValidHandle(fhandle) || !ValidInumber(files[fhandle].inum) { return Fail; }
      var i, off := files[fhandle].inum, files[fhandle].offset;
      var toWrite := ToWrite(off, |buffer|);
      if toWrite == 0 { return Ret(0); }
      if inodes[i].size == 0 {
        var free := TakeFirst(blockTs);
        inodes[i] := inodes[i].(block := free);
      }
      var b := inodes[i].block;
      if !ValidBlock(b) { return Fail; }
      if off + toWrite > BLOCK_SIZE || toWrite > |buffer| { return Undefined; }
      CopyIn(fhandle, i, buffer[..toWrite]);
      r := Ret(toWrite);
    }

    method CopyIn(h: nat, i: nat, data: seq<byte>)
      requires Valid() && h < MAX_OPEN_FILES && i < INODE_TABLE_SIZE && ValidBlock(inodes[i].block)
      requires files[h].offset + |data| <= BLOCK_SIZE
      modifies inodes, blocks, files
      ensures Value() == WriteBytes(old(Value()), h, i, data)
    {
      var off, b := files[h].offset, inodes[i].block;
      blocks[b] := blocks[b].(bytes := Splice(blocks[b].bytes, off, data));
      files[h] := files[h].(offset := off + |data|);
      if files[h].offset > inodes[i].size { inodes[i] := inodes[i].(size := files[h].offset); }
      assert inodes[..] == old(inodes[..])[i := old(inodes[i]).(size := Max(old(inodes[i]).size, off + |data|))];
    }

    // memcpy out of fs_data.
    method CopyOut(start: nat, n: nat) returns (buffer: seq<byte>)
      requires Valid() && start + n <= DATA_BLOCKS * BLOCK_SIZE
      ensures buffer == Memory(Value(), start, n)
    {
      buffer := [];
      for k := 0 to n
        invariant buffer == Memory(Value(), start, k)
      {
        buffer := buffer + [blocks[(start + k) / BLOCK_SIZE].bytes[(start + k) % BLOCK_SIZE]];
      }
    }

    method TfsRead(fhandle: int, len: nat) returns (r: ReadResult)
      requires Valid()
      modifies files
      ensures (Value(), r) == Read(old(Value()), fhandle, len)
    {
      if !ValidHandle(fhandle) || !ValidInumber(files[fhandle].inum) { return ReadFail; }
      var i, off := files[fhandle].inum, files[fhandle].offset;
      var toRead := Min(SizeSub(inodes[i].size, off), len);
      if toRead == 0 { return Got([]); }
      var b := inodes[i].block;
      if !ValidBlock(b) { return ReadFail; }
      if b * BLOCK_SIZE + off + toRead > DATA_BLOCKS * BLOCK_SIZE { return ReadUndefined; }
      var buffer := CopyOut(b * BLOCK_SIZE + off, toRead);
      files[fhandle] := files[fhandle].(offset := off + toRead);
      r := Got(buffer);
    }
  }
}
