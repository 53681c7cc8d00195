/** The second version: files of one block, every call under one global lock. */
module SingleBlock {
  import opened Config
  import opened FirstFit
  import opened Directory

  datatype Inode = Inode(kind: InodeType, size: nat, block: int)

  datatype BlockRec = Block(bytes: seq<byte>, entries: Entries)

  type Block = b: BlockRec | |b.bytes| == BLOCK_SIZE
    witness Block(seq(BLOCK_SIZE, _ => 0), seq(MAX_DIR_ENTRIES, _ => DirEntry("", -1)))

  datatype FsRec = Fs(inodes: seq<Inode>, inodeTs: seq<Alloc>,
                      blocks: seq<Block>, blockTs: seq<Alloc>,
                      files: seq<OpenFile>, fileTs: seq<Alloc>)

  predicate TableSizes(s: FsRec) {
    && |s.inodes| == |s.inodeTs| == INODE_TABLE_SIZE
    && |s.blocks| == |s.blockTs| == DATA_BLOCKS
    && |s.files| == |s.fileTs| == MAX_OPEN_FILES
  }

  type Fs = s: FsRec | TableSizes(s)
    witness
      var es: Entries := seq(MAX_DIR_ENTRIES, _ => DirEntry("", -1));
      var b: Block := Block(seq(BLOCK_SIZE, _ => 0), es);
      Fs(seq(INODE_TABLE_SIZE, _ => Inode(T_FILE, 0, -1)), seq(INODE_TABLE_SIZE, _ => FREE),
         seq(DATA_BLOCKS, _ => b), seq(DATA_BLOCKS, _ => FREE),
         seq(MAX_OPEN_FILES, _ => OpenFile(0, 0)), seq(MAX_OPEN_FILES, _ => FREE))

  // ---------- state.c ----------

  // inode_create.
  function InodeCreate(s: Fs, kind: InodeType): (Fs, int)
  {
    var i := FirstFree(s.inodeTs);
    if i == -1 then (s, -1)
    else
      match kind
      case T_FILE => (s.(inodeTs := s.inodeTs[i := TAKEN], inodes := s.inodes[i := Inode(T_FILE, 0, -1)]), i)
      case T_DIRECTORY =>
        var b := FirstFree(s.blockTs);
        if b == -1 then (s.(inodes := s.inodes[i := s.inodes[i].(kind := T_DIRECTORY)]), -1)
        else
          var es := EmptyEntries(s.blocks[b].entries);
          (s.(inodeTs := s.inodeTs[i := TAKEN], inodes := s.inodes[i := Inode(T_DIRECTORY, BLOCK_SIZE, b)],
              blockTs := s.blockTs[b := TAKEN], blocks := s.blocks[b := s.blocks[b].(entries := es)]), i)
  }

  // inode_delete.
  function InodeDelete(s: Fs, i: int): (Fs, Result)
  {
    if !ValidInumber(i) || s.inodeTs[i] == FREE then (s, Fail)
    else
      var s1, b := s.(inodeTs := s.inodeTs[i := FREE]), s.inodes[i].block;
      if s.inodes[i].size == 0 then (s1, Ret(0))
      else if !ValidBlock(b) then (s1, Fail)
      else (s1.(blockTs := s1.blockTs[b := FREE]), Ret(0))
  }

  predicate HasDirectory(s: Fs) {
    s.inodes[ROOT_DIR_INUM].kind == T_DIRECTORY && ValidBlock(s.inodes[ROOT_DIR_INUM].block)
  }

  function RootEntries(s: Fs): Entries
    requires HasDirectory(s)
  {
    s.blocks[s.inodes[ROOT_DIR_INUM].block].entries
  }

  function FindName(s: Fs, name: string): int
  {
    if HasDirectory(s) then FindInDir(RootEntries(s), name) else -1
  }

  function AddDirEntry(s: Fs, inum: nat, name: string): (Fs, bool)
  {
    if !HasDirectory(s) || AddSlot(RootEntries(s), name) == -1 then (s, false)
    else
      var b := s.inodes[ROOT_DIR_INUM].block;
      (s.(blocks := s.blocks[b := s.blocks[b].(entries := AddEntry(s.blocks[b].entries, inum, name))]), true)
  }

  function AddToOpenFileTable(s: Fs, inum: int, offset: nat): (Fs, Result)
  {
    var h := FirstFree(s.fileTs);
    if h == -1 then (s, Fail)
    else (s.(fileTs := s.fileTs[h := TAKEN], files := s.files[h := OpenFile(inum, offset)]), Ret(h))
  }

  // ---------- operations.c, between lock and unlock ----------

  function Init(s: Fs): (Fs, Result)
  {
    var s1 := s.(inodeTs := seq(INODE_TABLE_SIZE, _ => FREE), blockTs := seq(DATA_BLOCKS, _ => FREE),
                 fileTs := seq(MAX_OPEN_FILES, _ => FREE));
    var (s2, root) := InodeCreate(s1, T_DIRECTORY);
    (s2, if root == ROOT_DIR_INUM then Ret(0) else Fail)
  }

  // _tfs_lookup_unsynchronized.
  function LookupPath(s: Fs, name: string): int
  {
    if !ValidPathname(name) then -1 else FindName(s, name[1..])
  }

  function Truncate(s: Fs, i: nat): (Fs, Result)
    requires i < INODE_TABLE_SIZE
  {
    if s.inodes[i].size == 0 then (s, Ret(0))
    else if !ValidBlock(s.inodes[i].block) then (s, Fail)
    else
      (s.(blockTs := s.blockTs[s.inodes[i].block := FREE], inodes := s.inodes[i := s.inodes[i].(size := 0)]), Ret(0))
  }

  function OpenExisting(s: Fs, i: nat, flags: Flags): (Fs, Result)
    requires i < INODE_TABLE_SIZE
  {
    match if flags.trunc then Truncate(s, i) else (s, Ret(0))
    case (s1, Ret(_)) => AddToOpenFileTable(s1, i, if flags.append then s1.inodes[i].size else 0)
    case (s1, r) => (s1, r)
  }

  // The creation path does not check the path name again: the first character is dropped
  // whatever it is, and an empty path is read past its end.
  function OpenNew(s: Fs, name: string): (Fs, Result)
  {
    var (s1, i) := InodeCreate(s, T_FILE);
    if !ValidInumber(i) then (s1, Fail)
    else if |name| == 0 then (s1, Undefined)
    else
      var (s2, ok) := AddDirEntry(s1, i, name[1..]);
      if !ok then (InodeDelete(s2, i).0, Fail) else AddToOpenFileTable(s2, i, 0)
  }

  // _tfs_open_unsynchronized.
  function Open(s: Fs, name: string, flags: Flags): (Fs, Result)
  {
    var i := LookupPath(s, name);
    if i >= 0 then
      if !ValidInumber(i) then (s, Fail) else OpenExisting(s, i, flags)
    else if flags.creat then OpenNew(s, name)
    else (s, Fail)
  }

  function Close(s: Fs, h: int): (Fs, Result)
  {
    if !ValidHandle(h) || s.fileTs[h] != TAKEN then (s, Fail)
    else (s.(fileTs := s.fileTs[h := FREE]), Ret(0))
  }

  function ToWrite(offset: nat, want: nat): nat
  {
    if want + offset > BLOCK_SIZE then SizeSub(BLOCK_SIZE, offset) else want
  }

  function WriteBytes(s: Fs, h: nat, i: nat, data: seq<byte>): Fs
    requires h < MAX_OPEN_FILES && i < INODE_TABLE_SIZE && ValidBlock(s.inodes[i].block)
    requires s.files[h].offset + |data| <= BLOCK_SIZE
  {
    var off, b := s.files[h].offset, s.inodes[i].block;
    s.(blocks := s.blocks[b := s.blocks[b].(bytes := Splice(s.blocks[b].bytes, off, data))],
       files := s.files[h := s.files[h].(offset := off + |data|)],
       inodes := s.inodes[i := s.inodes[i].(size := Max(s.inodes[i].size, off + |data|))])
  }

  // _tfs_write_unsynchronized.
  function Write(s: Fs, h: int, buf: seq<byte>): (Fs, Result)
  {
    if !ValidHandle(h) || !ValidInumber(s.files[h].inum) then (s, Fail)
    else
      var off, i := s.files[h].offset, s.files[h].inum;
      var n := ToWrite(off, |buf|);
      if n == 0 then (s, Ret(0))
      else
        var b := FirstFree(s.blockTs);
        var s1 := if s.inodes[i].size != 0 then s
                  else s.(inodes := s.inodes[i := s.inodes[i].(block := b)],
                          blockTs := if b == -1 then s.blockTs else s.blockTs[b := TAKEN]);
        if !ValidBlock(s1.inodes[i].block) then (s1, Fail)
        else if off + n > BLOCK_SIZE || n > |buf| then (s1, Undefined)
        else (WriteBytes(s1, h, i, buf[..n]), Ret(n))
  }

  datatype ReadResult = Got(data: seq<byte>) | ReadFail | ReadUndefined

  // n bytes of fs_data, in which the blocks lie side by side.
  function Memory(s: Fs, start: nat, n: nat): (c: seq<byte>)
    requires start + n <= DATA_BLOCKS * BLOCK_SIZE
    ensures |c| == n
  {
    seq(n, p requires 0 <= p < n => s.blocks[(start + p) / BLOCK_SIZE].bytes[(start + p) % BLOCK_SIZE])
  }

  // _tfs_read_unsynchronized; the memcpy is not bound to the block.
  function Read(s: Fs, h: int, len: nat): (Fs, ReadResult)
  {
    if !ValidHandle(h) || !ValidInumber(s.files[h].inum) then (s, ReadFail)
    else
      var off, i := s.files[h].offset, s.files[h].inum;
      var n := Min(SizeSub(s.inodes[i].size, off), len);
      if n == 0 then (s, Got([]))
      else if !ValidBlock(s.inodes[i].block) then (s, ReadFail)
      else
        var start := s.inodes[i].block * BLOCK_SIZE + off;
        if start + n > DATA_BLOCKS * BLOCK_SIZE then (s, ReadUndefined)
        else (s.(files := s.files[h := s.files[h].(offset := off + n)]), Got(Memory(s, start, n)))
  }
}
