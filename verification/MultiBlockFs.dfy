/** The first version in its own form: static tables as arrays, changed in place by loops. Each
    method is tied to the function of the same C routine in MultiBlock. */
module MultiBlockFs {
  import opened Config
  import opened FirstFit
  import opened Directory
  import opened MultiBlock
  import opened FlatFile
  import opened Reading
  import opened Opening
  import opened Conservation

  lemma FreeRefsUnfolds(s: Fs, x: BlockNum, j: nat)
    requires j < INDIRECT_REFERENCES && s.blocks[x].refs[j] != -1
    ensures FreeRefs(s, x, j) ==
            if ValidBlock(s.blocks[x].refs[j]) then FreeRefs(SetRef(BlockFree(s, s.blocks[x].refs[j]), x, j, -1), x, j + 1)
            else (s, false, j)
  {}

  lemma FreeRefsEnds(s: Fs, x: BlockNum, j: nat)
    requires j <= INDIRECT_REFERENCES && (j < INDIRECT_REFERENCES ==> s.blocks[x].refs[j] == -1)
    ensures FreeRefs(s, x, j) == (s, true, j)
  {}

  class TecnicoFs {
    const inodes: array<Inode>
    const inodeTs: array<Alloc>
    const blocks: array<Block>
    const blockTs: array<Alloc>
    const files: array<OpenFile>
    const fileTs: array<Alloc>

    ghost predicate Valid() {
      && inodes.Length == inodeTs.Length == INODE_TABLE_SIZE
      && blocks.Length == blockTs.Length == DATA_BLOCKS
      && files.Length == fileTs.Length == MAX_OPEN_FILES
      && inodeTs != blockTs && inodeTs != fileTs && blockTs != fileTs
    }

    // The tables as one value.
    ghost function Value(): Fs
      requires Valid()
      reads inodes, inodeTs, blocks, blockTs, files, fileTs
    {
      Fs(inodes[..], inodeTs[..], blocks[..], blockTs[..], files[..], fileTs[..])
    }

    // Tables in static memory, before tfs_init.
    constructor ()
      ensures Valid() && fresh(inodes) && fresh(inodeTs) && fresh(blocks) && fresh(blockTs) && fresh(files) && fresh(fileTs)
    {
      var inode: Inode := Inode(T_FILE, 0, seq(BLOCKS, _ => 0));
      var es: Entries := seq(MAX_DIR_ENTRIES, _ => DirEntry("", 0));
      var block: Block := Block(seq(BLOCK_SIZE, _ => 0), seq(INDIRECT_REFERENCES, _ => 0), es);
      inodes := new Inode[INODE_TABLE_SIZE](_ => inode);
      inodeTs := new Alloc[INODE_TABLE_SIZE](_ => FREE);
      blocks := new Block[DATA_BLOCKS](_ => block);
      blockTs := new Alloc[DATA_BLOCKS](_ => FREE);
      files := new OpenFile[MAX_OPEN_FILES](_ => OpenFile(0, 0));
      fileTs := new Alloc[MAX_OPEN_FILES](_ => FREE);
    }

    // ---------- state.c ----------

    method DataBlockAlloc() returns (b: int)
      requires Valid()
      modifies blockTs
      ensures (Value(), b) == BlockAlloc(old(Value()))
    {
      b := TakeFirst(blockTs);
    }

    method DataBlockFree(b: int) returns (ok: bool)
      requires Valid()
      modifies blockTs
      ensures ok == ValidBlock(b)
      ensures Value() == if ok then BlockFree(old(Value()), b) else old(Value())
    {
      ok := ValidBlock(b);
      if ok { blockTs[b] := FREE; }
    }

    method StoreSlot(i: nat, k: nat, v: int)
      requires Valid() && i < INODE_TABLE_SIZE && k < BLOCKS
      modifies inodes
      ensures Value() == SetSlot(old(Value()), i, k, v)
    {
      inodes[i] := inodes[i].(slots := inodes[i].slots[k := v]);
    }

    method StoreRef(x: nat, j: nat, v: int)
      requires Valid() && x < DATA_BLOCKS && j < INDIRECT_REFERENCES
      modifies blocks
      ensures Value() == SetRef(old(Value()), x, j, v)
    {
      blocks[x] := blocks[x].(refs := blocks[x].refs[j := v]);
    }

    method ClearRefs(b: BlockNum)
      requires Valid()
      modifies blocks
      ensures Value() == old(Value()).(blocks := old(blocks[..])[b := old(blocks[b]).(refs := seq(INDIRECT_REFERENCES, _ => -1))])
    {
      for j := 0 to INDIRECT_REFERENCES
        invariant forall c :: 0 <= c < DATA_BLOCKS && c != b ==> blocks[c] == old(blocks[c])
        invariant blocks[b] == old(blocks[b]).(refs := blocks[b].refs)
        invariant forall q :: 0 <= q < j ==> blocks[b].refs[q] == -1
      {
        blocks[b] := blocks[b].(refs := blocks[b].refs[j := -1]);
      }
      assert blocks[b].refs == seq(INDIRECT_REFERENCES, _ => -1);
    }

    // bonus_block_init; Undefined where the C code writes through a null pointer.
    method InitBonusBlock(i: nat) returns (r: Lookup)
      requires Valid() && i < INODE_TABLE_SIZE
      modifies inodes, blocks, blockTs
      ensures (Value(), r) == BonusBlockInit(old(Value()), i)
    {
      var b := DataBlockAlloc();
      StoreSlot(i, INDIRECT_ACCESS_BLOCK, b);
      if b == -1 { return NoMeaning; }
      ClearRefs(b);
      return Found(b);
    }

    // get_current_data_block.
    method GetCurrentDataBlock(i: nat, offset: nat) returns (r: Lookup)
      requires Valid() && i < INODE_TABLE_SIZE
      modifies inodes, blocks, blockTs
      ensures (Value(), r) == CurrentBlock(old(Value()), i, offset)
    {
      var k := offset / BLOCK_SIZE;
      if k < INDIRECT_ACCESS_BLOCK {
        if inodes[i].slots[k] == -1 {
          var b := DataBlockAlloc();
          StoreSlot(i, k, b);
          if b == -1 { return Null; }
        }
        return BlockGet(inodes[i].slots[k]);
      }
      if inodes[i].slots[INDIRECT_ACCESS_BLOCK] == -1 {
        var x := InitBonusBlock(i);
        if x != NoMeaning { r := IndirectEntry(x.block, k - INDIRECT_ACCESS_BLOCK); } else { r := NoMeaning; }
      } else if ValidBlock(inodes[i].slots[INDIRECT_ACCESS_BLOCK]) {
        r := IndirectEntry(inodes[i].slots[INDIRECT_ACCESS_BLOCK], k - INDIRECT_ACCESS_BLOCK);
      } else {
        r := NoMeaning;
      }
    }

    method IndirectEntry(x: BlockNum, k: nat) returns (r: Lookup)
      requires Valid()
      modifies blocks, blockTs
      ensures (Value(), r) == IndirectBlock(old(Value()), x, k)
    {
      if k >= INDIRECT_REFERENCES { return NoMeaning; }
      if blocks[x].refs[k] == -1 {
        var b := DataBlockAlloc();
        StoreRef(x, k, b);
        if b == -1 { return Null; }
      }
      return BlockGet(blocks[x].refs[k]);
    }

    // ---------- tfs_write and tfs_read ----------

    // One round of the loop of tfs_write.
    method WriteRound(h: nat, rest: seq<byte>) returns (o: Outcome)
      requires Valid() && Usable(Value(), h) && |rest| > 0
      modifies inodes, blocks, blockTs, files
      ensures (Value(), o) == WriteStep(old(Value()), h, rest)
    {
      var off, i := files[h].offset, files[h].inum;
      var block := GetCurrentDataBlock(i, off);
      if block == Null { return NoBlock; }
      if block == NoMeaning { return Crash; }
      CopyIn(h, block.block, rest[..Chunk(off, |rest|)]);
      return Done;
    }

    // tfs_write: what is left to do from here is what was to do at the start.
    method TfsWrite(fhandle: int, buffer: seq<byte>) returns (r: Result)
      requires Valid()
      modifies inodes, blocks, blockTs, files
      ensures (Value(), r) == Write(old(Value()), fhandle, buffer)
    {
      hide WriteStep;
      if !ValidHandle(fhandle) || !ValidInumber(files[fhandle].inum) { return Fail; }
      var i, initialOffset := files[fhandle].inum, files[fhandle].offset;
      var initialSize, toWrite := inodes[i].size, buffer;
      while |toWrite| > 0
        invariant Usable(Value(), fhandle) && Usable(old(Value()), fhandle)
        invariant WriteLoop(Value(), fhandle, toWrite) == WriteLoop(old(Value()), fhandle, buffer)
      {
        var n := Chunk(files[fhandle].offset, |toWrite|);
        var o := WriteRound(fhandle, toWrite);
        if o == NoBlock { return Fail; }
        if o == Crash { return Undefined; }
        toWrite := toWrite[n..];
      }
      inodes[i] := inodes[i].(size := RepairedSize(inodes[i].size, initialSize, initialOffset, |buffer|));
      r := Ret(|buffer|);
    }

    method CopyIn(h: nat, b: BlockNum, chunk: seq<byte>)
      requires Valid() && Usable(Value(), h) && CurrentOffset(files[h].offset) + |chunk| <= BLOCK_SIZE
      modifies inodes, blocks, files
      ensures Value() == WriteChunk(old(Value()), h, b, chunk)
    {
      var off, i := files[h].offset, files[h].inum;
      blocks[b] := blocks[b].(bytes := Splice(blocks[b].bytes, CurrentOffset(off), chunk));
      files[h] := files[h].(offset := off + |chunk|);
      inodes[i] := inodes[i].(size := inodes[i].size + |chunk|);
    }

    // One round of the loop of tfs_read.
    method ReadRound(h: nat, want: nat) returns (got: seq<byte>, o: Outcome)
      requires Valid() && Usable(Value(), h) && want > 0
      modifies inodes, blocks, blockTs, files
      ensures (Value(), got, o) == ReadStep(old(Value()), h, want)
    {
      var off, i := files[h].offset, files[h].inum;
      var block := GetCurrentDataBlock(i, off);
      if block == Null { return [], NoBlock; }
      if block == NoMeaning { return [], Crash; }
      var c, n := CurrentOffset(off), Chunk(off, want);
      got := blocks[block.block].bytes[c..c + n];
      files[h] := files[h].(offset := off + n);
      o := Done;
    }

    method TfsRead(fhandle: int, len: nat) returns (r: ReadResult)
      requires Valid()
      modifies inodes, blocks, blockTs, files
      ensures (Value(), r) == Read(old(Value()), fhandle, len)
    {
      hide ReadStep;
      if !ValidHandle(fhandle) { return ReadUndefined; }
      if !ValidInumber(files[fhandle].inum) { return ReadFail; }
      var toRead: nat := ToRead(inodes[files[fhandle].inum].size, files[fhandle].offset, len);
      ghost var all := ReadLoop(Value(), fhandle, toRead);
      var buffer := [];
      while toRead > 0
        invariant Usable(Value(), fhandle)
        invariant all.0 == ReadLoop(Value(), fhandle, toRead).0
        invariant all.1 == buffer + ReadLoop(Value(), fhandle, toRead).1
        invariant all.2 == ReadLoop(Value(), fhandle, toRead).2
      {
        var got, o := ReadRound(fhandle, toRead);
        if o == NoBlock { return ReadFail; }
        if o == Crash { return ReadUndefined; }
        toRead, buffer := toRead - |got|, buffer + got;
      }
      assert buffer + [] == buffer;
      r := Got(buffer);
    }

    // ---------- tfs_open and tfs_close ----------

    method AllocateHandle(inum: int, offset: nat) returns (r: Result)
      requires Valid()
      modifies files, fileTs
      ensures (Value(), r) == AddToOpenFileTable(old(Value()), inum, offset)
    {
      var h := TakeFirst(fileTs);
      if h == -1 { return Fail; }
      files[h] := OpenFile(inum, offset);
      return Ret(h);
    }

    method TfsClose(fhandle: int) returns (r: Result)
      requires Valid()
      modifies fileTs
      ensures (Value(), r) == Close(old(Value()), fhandle)
    {
      if !ValidHandle(fhandle) || fileTs[fhandle] != TAKEN { return Fail; }
      fileTs[fhandle] := FREE;
      return Ret(0);
    }

    method CreateFile() returns (i: int)
      requires Valid()
      modifies inodes, inodeTs
      ensures (Value(), i) == InodeCreate(old(Value()), T_FILE)
    {
      i := TakeFirst(inodeTs);
      if i != -1 {
        inodes[i] := Inode(T_FILE, 0, seq(BLOCKS, _ => -1));
        assert Value().inodes == InodeCreate(old(Value()), T_FILE).0.inodes;
      }
    }

    method FreeDirectBlocks(i: nat) returns (ok: bool)
      requires Valid() && i < INODE_TABLE_SIZE
      modifies inodes, blockTs
      ensures (Value(), ok) == FreeDirect(old(Value()), i, 0)
    {
      var k := 0;
      while k < INDIRECT_ACCESS_BLOCK && inodes[i].slots[k] != -1
        invariant k <= INDIRECT_ACCESS_BLOCK
        invariant FreeDirect(Value(), i, k) == FreeDirect(old(Value()), i, 0)
      {
        ok := DataBlockFree(inodes[i].slots[k]);
        if !ok { return false; }
        StoreSlot(i, k, -1);
        k := k + 1;
      }
      ok := true;
    }

    method FreeRef(x: BlockNum, j: nat) returns (ok: bool)
      requires Valid() && j < INDIRECT_REFERENCES
      modifies blocks, blockTs
      ensures var s := old(Value());
              && ok == ValidBlock(s.blocks[x].refs[j])
              && Value() == if ok then SetRef(BlockFree(s, s.blocks[x].refs[j]), x, j, -1) else s
    {
      ok := DataBlockFree(blocks[x].refs[j]);
      if ok { StoreRef(x, j, -1); }
    }

    method FreeIndirectBlocks(x: BlockNum) returns (ok: bool, j: nat)
      requires Valid()
      modifies blocks, blockTs
      ensures (Value(), ok, j) == FreeRefs(old(Value()), x, 0)
    {
      hide SetRef, BlockFree, FreeRefs;
      j := 0;
      while j < INDIRECT_REFERENCES && blocks[x].refs[j] != -1
        invariant j <= INDIRECT_REFERENCES
        invariant FreeRefs(Value(), x, j) == FreeRefs(old(Value()), x, 0)
      {
        FreeRefsUnfolds(Value(), x, j);
        ok := FreeRef(x, j);
        if !ok { return false, j; }
        j := j + 1;
      }
      FreeRefsEnds(Value(), x, j);
      ok := true;
    }

    method FreeFileBlocks(i: nat, boundFirst: bool) returns (r: Result)
      requires Valid() && i < INODE_TABLE_SIZE
      modifies inodes, blocks, blockTs
      ensures (Value(), r) == FreeBlocks(old(Value()), i, boundFirst)
    {
      hide FreeDirect, FreeRefs;
      var ok := FreeDirectBlocks(i);
      if !ok { return Fail; }
      var x := inodes[i].slots[INDIRECT_ACCESS_BLOCK];
      if x == -1 { return Ret(0); }
      if !ValidBlock(x) { return Fail; }
      var ok2, stop := FreeIndirectBlocks(x);
      if !ok2 { return Fail; }
      if stop == INDIRECT_REFERENCES && !boundFirst && x + 1 == DATA_BLOCKS { return Undefined; }
      var _ := DataBlockFree(x);
      return Ret(0);
    }

    method DeleteInode(i: int) returns (r: Result)
      requires Valid()
      modifies inodes, inodeTs, blocks, blockTs
      ensures (Value(), r) == InodeDelete(old(Value()), i)
    {
      hide FreeBlocks;
      if !ValidInumber(i) || inodeTs[i] == FREE { return Fail; }
      inodeTs[i] := FREE;
      if inodes[i].kind == T_DIRECTORY {
        return if inodes[i].slots[0] == -1 then Fail else Ret(0);
      }
      if inodes[i].size > 0 {
        r := FreeFileBlocks(i, false);
      } else {
        r := Ret(0);
      }
    }

    method FindInRoot(name: string) returns (inum: int)
      requires Valid()
      ensures inum == FindName(Value(), name)
    {
      if inodes[ROOT_DIR_INUM].kind != T_DIRECTORY || !ValidBlock(inodes[ROOT_DIR_INUM].slots[0]) { return -1; }
      inum := ScanForName(blocks[inodes[ROOT_DIR_INUM].slots[0]].entries, name);
    }

    method AddToRoot(inum: nat, name: string) returns (ok: bool)
      requires Valid() && inum < INODE_TABLE_SIZE
      modifies blocks
      ensures (Value(), ok) == AddDirEntry(old(Value()), inum, name)
    {
      if inodes[ROOT_DIR_INUM].kind != T_DIRECTORY || !ValidBlock(inodes[ROOT_DIR_INUM].slots[0]) { return false; }
      if |name| == 0 { return false; }
      var b := inodes[ROOT_DIR_INUM].slots[0];
      var k := ScanForEmpty(blocks[b].entries);
      if k == -1 { return false; }
      blocks[b] := blocks[b].(entries := blocks[b].entries[k := DirEntry(Stored(name), inum)]);
      return true;
    }

    method TruncateFile(i: nat) returns (r: Result)
      requires Valid() && i < INODE_TABLE_SIZE
      modifies inodes, blocks, blockTs
      ensures (Value(), r) == Truncate(old(Value()), i)
    {
      hide FreeBlocks;
      if inodes[i].size == 0 { return Ret(0); }
      if inodes[i].kind == T_DIRECTORY {
        if inodes[i].slots[0] == -1 { return Fail; }
      } else {
        r := FreeFileBlocks(i, true);
        if !r.Ret? { return; }
      }
      inodes[i] := inodes[i].(size := 0);
      r := Ret(0);
    }

    method TfsOpen(name: string, flags: Flags) returns (r: Result)
      requires Valid()
      modifies inodes, inodeTs, blocks, blockTs, files, fileTs
      ensures (Value(), r) == Open(old(Value()), name, flags)
    {
      hide Truncate, InodeCreate, AddDirEntry, InodeDelete, AddToOpenFileTable, FindName;
      if !ValidPathname(name) { return Fail; }
      var inum := FindInRoot(name[1..]);
      if inum >= 0 {
        if !ValidInumber(inum) { return Fail; }
        if flags.trunc {
          r := TruncateFile(inum);
          if !r.Ret? { return; }
        }
        r := AllocateHandle(inum, if flags.append then inodes[inum].size else 0);
      } else if flags.creat {
        inum := CreateFile();
        if !ValidInumber(inum) { return Fail; }
        var ok := AddToRoot(inum, name[1..]);
        if !ok {
          var _ := DeleteInode(inum);
          return Fail;
        }
        r := AllocateHandle(inum, 0);
      } else {
        r := Fail;
      }
    }

    // ---------- tfs_init and tfs_copy_to_external_fs ----------

    method ClearEntries(b: BlockNum)
      requires Valid()
      modifies blocks
      ensures var block := old(blocks[b]);
              Value() == old(Value()).(blocks := old(blocks[..])[b := block.(entries := EmptyEntries(block.entries))])
    {
      for k := 0 to MAX_DIR_ENTRIES
        invariant forall c :: 0 <= c < DATA_BLOCKS && c != b ==> blocks[c] == old(blocks[c])
        invariant blocks[b] == old(blocks[b]).(entries := blocks[b].entries)
        invariant forall q :: 0 <= q < MAX_DIR_ENTRIES ==>
                    blocks[b].entries[q] == if q < k then old(blocks[b]).entries[q].(inum := -1) else old(blocks[b]).entries[q]
      {
        blocks[b] := blocks[b].(entries := blocks[b].entries[k := blocks[b].entries[k].(inum := -1)]);
      }
      assert blocks[b].entries == EmptyEntries(old(blocks[b]).entries);
    }

    method CreateRoot() returns (i: int)
      requires Valid()
      modifies inodes, inodeTs, blocks, blockTs
      ensures (Value(), i) == InodeCreate(old(Value()), T_DIRECTORY)
    {
      ghost var s := Value();
      i := TakeFirst(inodeTs);
      if i == -1 { return; }
      inodes[i] := inodes[i].(kind := T_DIRECTORY);
      ghost var s1 := s.(inodes := s.inodes[i := s.inodes[i].(kind := T_DIRECTORY)]);
      assert Value() == s1.(inodeTs := s1.inodeTs[i := TAKEN]);
      var b := DataBlockAlloc();
      if b == -1 {
        inodeTs[i] := FREE;
        assert inodeTs[..] == s.inodeTs;
        return -1;
      }
      StoreSlot(i, 0, b);
      inodes[i] := inodes[i].(size := BLOCK_SIZE);
      ghost var s3 := SetSize(SetSlot(BlockAlloc(s1).0, i, 0, b), i, BLOCK_SIZE);
      assert Value() == s3.(inodeTs := s3.inodeTs[i := TAKEN]);
      ClearEntries(b);
    }

    method TfsInit() returns (r: Result)
      requires Valid()
      modifies inodes, inodeTs, blocks, blockTs, files, fileTs
      ensures (Value(), r) == Init(old(Value()))
      ensures r == Ret(0) && Inv(Value())
    {
      hide InodeCreate, Inv;
      ghost var memory := Value();
      for i := 0 to INODE_TABLE_SIZE
        modifies inodeTs
        invariant forall k :: 0 <= k < i ==> inodeTs[k] == FREE
      {
        inodeTs[i] := FREE;
      }
      for i := 0 to DATA_BLOCKS
        modifies blockTs
        invariant forall k :: 0 <= k < i ==> blockTs[k] == FREE
      {
        blockTs[i] := FREE;
      }
      for i := 0 to MAX_OPEN_FILES
        modifies fileTs
        invariant forall k :: 0 <= k < i ==> fileTs[k] == FREE
      {
        fileTs[i] := FREE;
      }
      assert inodeTs[..] == seq(INODE_TABLE_SIZE, _ => FREE);
      assert blockTs[..] == seq(DATA_BLOCKS, _ => FREE);
      assert fileTs[..] == seq(MAX_OPEN_FILES, _ => FREE);
      ghost var s1 := memory.(inodeTs := seq(INODE_TABLE_SIZE, _ => FREE), blockTs := seq(DATA_BLOCKS, _ => FREE),
                              fileTs := seq(MAX_OPEN_FILES, _ => FREE));
      assert Value() == s1;
      var root := CreateRoot();
      InitInv(memory);
      r := if root == ROOT_DIR_INUM then Ret(0) else Fail;
    }

    // The copy loop with the external file as a sequence; run alone.
    method CopyToExternalFs(sourcePath: string) returns (r: Result, dest: seq<byte>)
      requires Valid() && Inv(Value())
      modifies inodes, inodeTs, blocks, blockTs, files, fileTs
      ensures Valid() && (Value(), r, dest) == CopyOut(old(Value()), sourcePath)
    {
      hide Inv, Open, Read, Close, Contents;
      dest := [];
      OpenForCopy(Value(), sourcePath);
      r := TfsOpen(sourcePath, Flags(false, false, false));
      if !r.Ret? { return; }
      var fhandle, bytesRead := r.n, BUFFER_SIZE;
      ghost var all := CopyLoop(Value(), fhandle);
      ghost var i := files[fhandle].inum;
      while bytesRead == BUFFER_SIZE
        invariant bytesRead == BUFFER_SIZE ==>
                    && Inv(Value()) && OpenHandle(Value(), fhandle) && Usable(Value(), fhandle)
                    && all.0 == CopyLoop(Value(), fhandle).0
                    && all.1 == dest + CopyLoop(Value(), fhandle).1
        invariant bytesRead != BUFFER_SIZE ==> all == (Value(), dest)
        decreases if bytesRead == BUFFER_SIZE then 1 + inodes[files[fhandle].inum].size - files[fhandle].offset else 0
      {
        ReadRefinesSlice(Value(), fhandle, BUFFER_SIZE);
        ghost var before := Value();
        var got := TfsRead(fhandle, BUFFER_SIZE);
        dest, bytesRead := dest + got.data, |got.data|;
      }
      var _ := TfsClose(fhandle);
      r := Ret(0);
    }
  }
}
