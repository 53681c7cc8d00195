/** The first version: files of ten direct blocks and one indirect block of 256 block
    numbers. Every function follows one C function, on the whole state as a value;
    MultiBlockFs runs the same steps in place on arrays. */
module MultiBlock {
  import opened Config
  import opened FirstFit
  import opened Directory

  const INDIRECT_ACCESS_BLOCK := 10
  const BLOCKS := 11
  const INDIRECT_REFERENCES := 256

  datatype InodeRec = Inode(kind: InodeType, size: nat, slots: seq<int>)

  type Inode = n: InodeRec | |n.slots| == BLOCKS
    witness Inode(T_FILE, 0, seq(BLOCKS, _ => -1))

  // The three typed views through which the code uses the 1024 bytes of a block.
  datatype BlockRec = Block(bytes: seq<byte>, refs: seq<int>, entries: Entries)

  type Block = b: BlockRec | |b.bytes| == BLOCK_SIZE && |b.refs| == INDIRECT_REFERENCES
    witness Block(seq(BLOCK_SIZE, _ => 0), seq(INDIRECT_REFERENCES, _ => 0),
                  seq(MAX_DIR_ENTRIES, _ => DirEntry("", -1)))

  datatype FsRec = Fs(inodes: seq<Inode>, inodeTs: seq<Alloc>,
                      blocks: seq<Block>, blockTs: seq<Alloc>,
                      files: seq<OpenFile>, fileTs: seq<Alloc>)

  predicate TableSizes(s: FsRec) {
    && |s.inodes| == |s.inodeTs| == INODE_TABLE_SIZE
    && |s.blocks| == |s.blockTs| == DATA_BLOCKS
    && |s.files| == |s.fileTs| == MAX_OPEN_FILES
  }

  type Fs = s: FsRec | TableSizes(s)
    witness
      var es: Entries := seq(MAX_DIR_ENTRIES, _ => DirEntry("", -1));
      var b: Block := Block(seq(BLOCK_SIZE, _ => 0), seq(INDIRECT_REFERENCES, _ => 0), es);
      var n: Inode := Inode(T_FILE, 0, seq(BLOCKS, _ => -1));
      Fs(seq(INODE_TABLE_SIZE, _ => n), seq(INODE_TABLE_SIZE, _ => FREE),
         seq(DATA_BLOCKS, _ => b), seq(DATA_BLOCKS, _ => FREE),
         seq(MAX_OPEN_FILES, _ => OpenFile(0, 0)), seq(MAX_OPEN_FILES, _ => FREE))

  type BlockNum = b: nat | b < DATA_BLOCKS

  // ---------- small stores ----------

  function SetSlot(s: Fs, i: nat, k: nat, v: int): Fs
    requires i < INODE_TABLE_SIZE && k < BLOCKS
  {
    s.(inodes := s.inodes[i := s.inodes[i].(slots := s.inodes[i].slots[k := v])])
  }

  function SetSize(s: Fs, i: nat, size: nat): Fs
    requires i < INODE_TABLE_SIZE
  {
    s.(inodes := s.inodes[i := s.inodes[i].(size := size)])
  }

  function SetRef(s: Fs, b: nat, j: nat, v: int): Fs
    requires b < DATA_BLOCKS && j < INDIRECT_REFERENCES
  {
    s.(blocks := s.blocks[b := s.blocks[b].(refs := s.blocks[b].refs[j := v])])
  }

  function SetOffset(s: Fs, h: nat, offset: nat): Fs
    requires h < MAX_OPEN_FILES
  {
    s.(files := s.files[h := s.files[h].(offset := offset)])
  }

  // memcpy into a block.
  function PutBytes(s: Fs, b: nat, o: nat, buf: seq<byte>): Fs
    requires b < DATA_BLOCKS && o + |buf| <= BLOCK_SIZE
  {
    s.(blocks := s.blocks[b := s.blocks[b].(bytes := Splice(s.blocks[b].bytes, o, buf))])
  }

  // ---------- state.c: data blocks ----------

  // data_block_alloc.
  function BlockAlloc(s: Fs): (r: (Fs, int))
    ensures r.1 == -1 || ValidBlock(r.1)
  {
    var b := FirstFree(s.blockTs);
    (if b == -1 then s else s.(blockTs := s.blockTs[b := TAKEN]), b)
  }

  // data_block_free on a valid number.
  function BlockFree(s: Fs, b: nat): Fs
    requires b < DATA_BLOCKS
  {
    s.(blockTs := s.blockTs[b := FREE])
  }

  // get_current_offset, both branches.
  function CurrentOffset(offset: nat): nat
  {
    if offset / BLOCK_SIZE < INDIRECT_ACCESS_BLOCK then offset % BLOCK_SIZE
    else (offset - 10 * BLOCK_SIZE) % BLOCK_SIZE
  }

  // Both branches of get_current_offset give the position inside the block.
  lemma CurrentOffsetMod(offset: nat)
    ensures CurrentOffset(offset) == offset % BLOCK_SIZE
  {
    assert (offset - 10 * BLOCK_SIZE) % BLOCK_SIZE == offset % BLOCK_SIZE;
  }

  // What get_current_data_block hands back: a block, NULL, or nothing defined.
  datatype Lookup = Found(block: BlockNum) | Null | NoMeaning

  function BlockGet(b: int): Lookup
  {
    if ValidBlock(b) then Found(b) else Null
  }

  // bonus_block_init: with no free block it fills a block through a null pointer.
  function BonusBlockInit(s: Fs, i: nat): (r: (Fs, Lookup))
    requires i < INODE_TABLE_SIZE
    ensures r.0.files == s.files
  {
    var (s1, b) := BlockAlloc(s);
    var s2 := SetSlot(s1, i, INDIRECT_ACCESS_BLOCK, b);
    if b == -1 then (s2, NoMeaning)
    else
      (s2.(blocks := s2.blocks[b := s2.blocks[b].(refs := seq(INDIRECT_REFERENCES, _ => -1))]), Found(b))
  }

  function DirectBlock(s: Fs, i: nat, k: nat): (r: (Fs, Lookup))
    requires i < INODE_TABLE_SIZE && k < INDIRECT_ACCESS_BLOCK
    ensures r.0.files == s.files
  {
    if s.inodes[i].slots[k] == -1 then
      var (s1, b) := BlockAlloc(s);
      (SetSlot(s1, i, k, b), BlockGet(b))
    else (s, BlockGet(s.inodes[i].slots[k]))
  }

  function IndirectBlock(s: Fs, x: BlockNum, k: nat): (r: (Fs, Lookup))
    ensures r.0.files == s.files
  {
    if k >= INDIRECT_REFERENCES then (s, NoMeaning)
    else if s.blocks[x].refs[k] == -1 then
      var (s1, b) := BlockAlloc(s);
      (SetRef(s1, x, k, b), BlockGet(b))
    else (s, BlockGet(s.blocks[x].refs[k]))
  }

  function EnsureIndex(s: Fs, i: nat): (r: (Fs, Lookup))
    requires i < INODE_TABLE_SIZE
    ensures r.0.files == s.files
  {
    var x := s.inodes[i].slots[INDIRECT_ACCESS_BLOCK];
    if x == -1 then BonusBlockInit(s, i)
    else if ValidBlock(x) then (s, Found(x)) else (s, NoMeaning)
  }

  // get_current_data_block.
  function CurrentBlock(s: Fs, i: nat, offset: nat): (r: (Fs, Lookup))
    requires i < INODE_TABLE_SIZE
    ensures r.0.files == s.files
  {
    var k := offset / BLOCK_SIZE;
    if k < INDIRECT_ACCESS_BLOCK then DirectBlock(s, i, k)
    else
      match EnsureIndex(s, i)
      case (s1, Found(x)) => IndirectBlock(s1, x, k - INDIRECT_ACCESS_BLOCK)
      case (s1, _) => (s1, NoMeaning)
  }

  // ---------- state.c: inodes ----------

  function DirEntries(s: Fs): Lookup
  {
    if s.inodes[ROOT_DIR_INUM].kind != T_DIRECTORY then Null
    else BlockGet(s.inodes[ROOT_DIR_INUM].slots[0])
  }

  // inode_create.
  function InodeCreate(s: Fs, kind: InodeType): (Fs, int)
  {
    var i := FirstFree(s.inodeTs);
    if i == -1 then (s, -1)
    else
      var s1 := s.(inodes := s.inodes[i := s.inodes[i].(kind := kind)]);
      match kind
      case T_DIRECTORY =>
        var (s2, b) := BlockAlloc(s1);
        if b == -1 then (s2, -1)
        else
          var s3 := SetSize(SetSlot(s2, i, 0, b), i, BLOCK_SIZE);
          var es := EmptyEntries(s3.blocks[b].entries);
          (s3.(inodeTs := s3.inodeTs[i := TAKEN], blocks := s3.blocks[b := s3.blocks[b].(entries := es)]), i)
      case T_FILE =>
        (s1.(inodeTs := s1.inodeTs[i := TAKEN],
             inodes := s1.inodes[i := Inode(T_FILE, 0, seq(BLOCKS, _ => -1))]), i)
  }

  // The loop that frees the direct blocks up to the first empty slot.
  function FreeDirect(s: Fs, i: nat, k: nat): (Fs, bool)
    requires i < INODE_TABLE_SIZE && k <= INDIRECT_ACCESS_BLOCK
    decreases INDIRECT_ACCESS_BLOCK - k
  {
    if k == INDIRECT_ACCESS_BLOCK || s.inodes[i].slots[k] == -1 then (s, true)
    else if !ValidBlock(s.inodes[i].slots[k]) then (s, false)
    else FreeDirect(SetSlot(BlockFree(s, s.inodes[i].slots[k]), i, k, -1), i, k + 1)
  }

  // The loop that frees the indirect blocks; the last component is the index at which it stopped.
  function FreeRefs(s: Fs, x: nat, j: nat): (r: (Fs, bool, nat))
    requires x < DATA_BLOCKS && j <= INDIRECT_REFERENCES
    ensures j <= r.2 <= INDIRECT_REFERENCES
    decreases INDIRECT_REFERENCES - j
  {
    if j == INDIRECT_REFERENCES || s.blocks[x].refs[j] == -1 then (s, true, j)
    else if !ValidBlock(s.blocks[x].refs[j]) then (s, false, j)
    else FreeRefs(SetRef(BlockFree(s, s.blocks[x].refs[j]), x, j, -1), x, j + 1)
  }

  // Both callers free the same blocks; slot 10 itself is never cleared. inode_delete reads the
  // 257th reference before it tests the bound. Whatever is read the loop stops there, but
  // behind the last block there is nothing to read.
  function FreeBlocks(s: Fs, i: nat, boundFirst: bool): (Fs, Result)
    requires i < INODE_TABLE_SIZE
  {
    var (s1, ok) := FreeDirect(s, i, 0);
    if !ok then (s1, Fail)
    else
      var x := s1.inodes[i].slots[INDIRECT_ACCESS_BLOCK];
      if x == -1 then (s1, Ret(0))
      else if !ValidBlock(x) then (s1, Fail)
      else
        var (s2, ok2, stop) := FreeRefs(s1, x, 0);
        if !ok2 then (s2, Fail)
        else if stop == INDIRECT_REFERENCES && !boundFirst && x + 1 == DATA_BLOCKS then (s2, Undefined)
        else (BlockFree(s2, x), Ret(0))
  }

  // inode_delete.
  function InodeDelete(s: Fs, i: int): (Fs, Result)
  {
    if !ValidInumber(i) || s.inodeTs[i] == FREE then (s, Fail)
    else
      var s1 := s.(inodeTs := s.inodeTs[i := FREE]);
      if s.inodes[i].kind == T_DIRECTORY then
        (s1, if s.inodes[i].slots[0] == -1 then Fail else Ret(0))
      else if s.inodes[i].size > 0 then FreeBlocks(s1, i, false)
      else (s1, Ret(0))
  }

  // ---------- state.c: directory and open-file table ----------

  function FindName(s: Fs, name: string): int
  {
    match DirEntries(s)
    case Found(b) => FindInDir(s.blocks[b].entries, name)
    case _ => -1
  }

  function AddDirEntry(s: Fs, inum: nat, name: string): (Fs, bool)
    requires inum < INODE_TABLE_SIZE
  {
    match DirEntries(s)
    case Found(b) =>
      if AddSlot(s.blocks[b].entries, name) == -1 then (s, false)
      else (s.(blocks := s.blocks[b := s.blocks[b].(entries := AddEntry(s.blocks[b].entries, inum, name))]), true)
    case _ => (s, false)
  }

  function AddToOpenFileTable(s: Fs, inum: int, offset: nat): (Fs, Result)
  {
    var h := FirstFree(s.fileTs);
    if h == -1 then (s, Fail)
    else (s.(fileTs := s.fileTs[h := TAKEN], files := s.files[h := OpenFile(inum, offset)]), Ret(h))
  }

  // ---------- operations.c ----------

  // state_init and the creation of the root, over whatever the memory held.
  function Init(s: Fs): (Fs, Result)
  {
    var s1 := s.(inodeTs := seq(INODE_TABLE_SIZE, _ => FREE), blockTs := seq(DATA_BLOCKS, _ => FREE),
                 fileTs := seq(MAX_OPEN_FILES, _ => FREE));
    var (s2, root) := InodeCreate(s1, T_DIRECTORY);
    (s2, if root == ROOT_DIR_INUM then Ret(0) else Fail)
  }

  function LookupPath(s: Fs, name: string): int
  {
    if !ValidPathname(name) then -1 else FindName(s, name[1..])
  }

  // The TFS_O_TRUNC branch of tfs_open.
  function Truncate(s: Fs, i: nat): (Fs, Result)
    requires i < INODE_TABLE_SIZE
  {
    if s.inodes[i].size == 0 then (s, Ret(0))
    else if s.inodes[i].kind == T_DIRECTORY then
      if s.inodes[i].slots[0] == -1 then (s, Fail) else (SetSize(s, i, 0), Ret(0))
    else
      match FreeBlocks(s, i, true)
      case (s1, Ret(_)) => (SetSize(s1, i, 0), Ret(0))
      case (s1, r) => (s1, r)
  }

  function OpenExisting(s: Fs, i: nat, flags: Flags): (Fs, Result)
    requires i < INODE_TABLE_SIZE
  {
    match if flags.trunc then Truncate(s, i) else (s, Ret(0))
    case (s1, Ret(_)) => AddToOpenFileTable(s1, i, if flags.append then s1.inodes[i].size else 0)
    case (s1, r) => (s1, r)
  }

  function OpenNew(s: Fs, name: string): (Fs, Result)
    requires ValidPathname(name)
  {
    var (s1, i) := InodeCreate(s, T_FILE);
    if !ValidInumber(i) then (s1, Fail)
    else
      var (s2, ok) := AddDirEntry(s1, i, name[1..]);
      if !ok then (InodeDelete(s2, i).0, Fail) else AddToOpenFileTable(s2, i, 0)
  }

  // tfs_open.
  function Open(s: Fs, name: string, flags: Flags): (Fs, Result)
  {
    if !ValidPathname(name) then (s, Fail)
    else
      var i := LookupPath(s, name);
      if i >= 0 then
        if !ValidInumber(i) then (s, Fail) else OpenExisting(s, i, flags)
      else if flags.creat then OpenNew(s, name)
      else (s, Fail)
  }

  // tfs_close.
  function Close(s: Fs, h: int): (Fs, Result)
  {
    if !ValidHandle(h) || s.fileTs[h] != TAKEN then (s, Fail)
    else (s.(fileTs := s.fileTs[h := FREE]), Ret(0))
  }

  function Chunk(offset: nat, want: nat): (n: nat)
    ensures n <= want && CurrentOffset(offset) + n <= BLOCK_SIZE
    ensures want > 0 ==> n > 0
  {
    if want + CurrentOffset(offset) <= BLOCK_SIZE then want else BLOCK_SIZE - CurrentOffset(offset)
  }

  // One round of the loop of tfs_write, once the block is known.
  function WriteChunk(s: Fs, h: nat, b: nat, chunk: seq<byte>): Fs
    requires h < MAX_OPEN_FILES && ValidInumber(s.files[h].inum) && b < DATA_BLOCKS
    requires CurrentOffset(s.files[h].offset) + |chunk| <= BLOCK_SIZE
  {
    var off, i := s.files[h].offset, s.files[h].inum;
    var s1 := SetOffset(PutBytes(s, b, CurrentOffset(off), chunk), h, off + |chunk|);
    SetSize(s1, i, s1.inodes[i].size + |chunk|)
  }

  // How the loops of tfs_write and tfs_read end.
  datatype Outcome = Done | NoBlock | Crash

  predicate Usable(s: Fs, h: nat) { h < MAX_OPEN_FILES && ValidInumber(s.files[h].inum) }

  function WriteStep(s: Fs, h: nat, buf: seq<byte>): (r: (Fs, Outcome))
    requires Usable(s, h) && |buf| > 0
    ensures Usable(r.0, h)
  {
    var off, i := s.files[h].offset, s.files[h].inum;
    match CurrentBlock(s, i, off)
    case (s1, Found(b)) => (WriteChunk(s1, h, b, buf[..Chunk(off, |buf|)]), Done)
    case (s1, Null) => (s1, NoBlock)
    case (s1, NoMeaning) => (s1, Crash)
  }

  function WriteLoop(s: Fs, h: nat, buf: seq<byte>): (r: (Fs, Outcome))
    requires Usable(s, h)
    ensures Usable(r.0, h)
    decreases |buf|
  {
    if |buf| == 0 then (s, Done)
    else
      var (s1, o) := WriteStep(s, h, buf);
      if o != Done then (s1, o) else WriteLoop(s1, h, buf[Chunk(s.files[h].offset, |buf|)..])
  }

  // The repair of i_size after the loop, which added every byte written to it.
  function RepairedSize(size: nat, initialSize: nat, initialOffset: nat, written: nat): nat
  {
    if initialOffset != initialSize then Max(initialSize, written + initialOffset) else size
  }

  // tfs_write.
  function Write(s: Fs, h: int, buf: seq<byte>): (Fs, Result)
  {
    if !ValidHandle(h) || !ValidInumber(s.files[h].inum) then (s, Fail)
    else
      var off, i := s.files[h].offset, s.files[h].inum;
      match WriteLoop(s, h, buf)
      case (s1, Done) => (SetSize(s1, i, RepairedSize(s1.inodes[i].size, s.inodes[i].size, off, |buf|)), Ret(|buf|))
      case (s1, NoBlock) => (s1, Fail)
      case (s1, Crash) => (s1, Undefined)
  }

  function ReadStep(s: Fs, h: nat, want: nat): (r: (Fs, seq<byte>, Outcome))
    requires Usable(s, h) && want > 0
    ensures Usable(r.0, h)
    ensures r.2 == Done ==> |r.1| == Chunk(s.files[h].offset, want)
  {
    var off, i := s.files[h].offset, s.files[h].inum;
    var n := Chunk(off, want);
    match CurrentBlock(s, i, off)
    case (s1, Found(b)) =>
      (SetOffset(s1, h, off + n), s1.blocks[b].bytes[CurrentOffset(off)..CurrentOffset(off) + n], Done)
    case (s1, Null) => (s1, [], NoBlock)
    case (s1, NoMeaning) => (s1, [], Crash)
  }

  function ReadLoop(s: Fs, h: nat, want: nat): (r: (Fs, seq<byte>, Outcome))
    requires Usable(s, h)
    ensures Usable(r.0, h)
    decreases want
  {
    if want == 0 then (s, [], Done)
    else
      var (s1, got, o) := ReadStep(s, h, want);
      if o != Done then (s1, got, o)
      else
        var (s2, rest, o2) := ReadLoop(s1, h, want - |got|);
        (s2, got + rest, o2)
  }

  // The number of bytes tfs_read asks for; the subtraction is unsigned.
  function ToRead(size: nat, offset: nat, len: nat): nat { Min(SizeSub(size, offset), len) }

  datatype ReadResult = Got(data: seq<byte>) | ReadFail | ReadUndefined

  // tfs_read. A bad handle is dereferenced before it is tested.
  function Read(s: Fs, h: int, len: nat): (Fs, ReadResult)
  {
    if !ValidHandle(h) then (s, ReadUndefined)
    else if !ValidInumber(s.files[h].inum) then (s, ReadFail)
    else
      match ReadLoop(s, h, ToRead(s.inodes[s.files[h].inum].size, s.files[h].offset, len))
      case (s1, data, Done) => (s1, Got(data))
      case (s1, _, NoBlock) => (s1, ReadFail)
      case (s1, _, Crash) => (s1, ReadUndefined)
  }
}
