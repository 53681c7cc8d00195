/** tfs_write against a flat byte sequence. */
module Writing {
  import opened Config
  import opened FirstFit
  import opened MultiBlock
  import opened Ownership

  // No block is left for byte `offset`, which is the end of the file.
  ghost predicate OutOfBlocks(s: Fs, i: nat, size: nat, offset: nat) {
    && offset == size && offset % BLOCK_SIZE == 0 && FirstFree(s.blockTs) == -1
    && i < INODE_TABLE_SIZE && (offset >= 10 * BLOCK_SIZE ==> BlockAt(s, i, INDEX) != -1)
  }

  // Part k of file i is there after the step; it may be new, and it is one byte long then.
  ghost function ReachedSize(size: nat, offset: nat): nat {
    Max(size, offset / BLOCK_SIZE * BLOCK_SIZE + 1)
  }

  ghost predicate Grown(s: Fs, s': Fs, sizes: seq<nat>, i: nat, z: nat)
    requires |sizes| == INODE_TABLE_SIZE && i < INODE_TABLE_SIZE
  {
    && Store(s', sizes[i := z])
    && sizes[i] <= z
    && SameBytes(s, s') && OtherParts(s, s', i)
    && (forall j: nat, q: nat :: Live(s, j) && q < INDEX && BlockAt(s, j, q) != -1 ==> BlockAt(s', j, q) == BlockAt(s, j, q))
    && s'.files == s.files && s'.fileTs == s.fileTs && s'.inodeTs == s.inodeTs
    && (forall j :: 0 <= j < INODE_TABLE_SIZE && j != i ==> s'.inodes[j] == s.inodes[j])
    && s'.inodes[i].kind == s.inodes[i].kind && s'.inodes[i].size == s.inodes[i].size
    && (forall b :: 0 <= b < DATA_BLOCKS ==> s'.blocks[b].entries == s.blocks[b].entries)
    && FreeCount(s'.blockTs) + Held(s', i, z) == FreeCount(s.blockTs) + Held(s, i, sizes[i])
  }

  // What a block look-up at an offset within the file, or at its end, leaves behind.
  ghost predicate LookedUp(s: Fs, sizes: seq<nat>, i: nat, offset: nat, s': Fs, r: Lookup)
    requires |sizes| == INODE_TABLE_SIZE && i < INODE_TABLE_SIZE
  {
    match r
    case Found(b) =>
      && offset < MAX_FILE_BYTES
      && Grown(s, s', sizes, i, ReachedSize(sizes[i], offset))
      && BlockAt(s', i, offset / BLOCK_SIZE) == b
      && (offset < 10 * BLOCK_SIZE ==> BlockAt(s', i, INDEX) == BlockAt(s, i, INDEX))
    case Null =>
      && OutOfBlocks(s', i, sizes[i], offset) && offset < MAX_FILE_BYTES
      && Grown(s, s', sizes, i, sizes[i])
    case NoMeaning =>
      && offset == sizes[i]
      && (offset == MAX_FILE_BYTES
          || (offset == 10 * BLOCK_SIZE && BlockAt(s, i, INDEX) == -1 && FirstFree(s.blockTs) == -1))
  }

  lemma GrownSelf(s: Fs, sizes: seq<nat>, i: nat)
    requires Store(s, sizes) && i < INODE_TABLE_SIZE
    ensures Grown(s, s, sizes, i, sizes[i])
  {
    assert sizes[i := sizes[i]] == sizes;
  }

  lemma OldBlock(s: Fs, sizes: seq<nat>, i: nat, offset: nat)
    requires Store(s, sizes) && LiveFile(s, i) && offset < sizes[i]
    ensures offset < MAX_FILE_BYTES && ValidBlock(BlockAt(s, i, offset / BLOCK_SIZE))
    ensures LookedUp(s, sizes, i, offset, s, Found(BlockAt(s, i, offset / BLOCK_SIZE)))
  {
    var k := offset / BLOCK_SIZE;
    assert k * BLOCK_SIZE <= offset < (k + 1) * BLOCK_SIZE && k < INDEX;
    ValidParts(s, sizes, i, k);
    GrownSelf(s, sizes, i);
  }

  lemma DirectTaken(s: Fs, sizes: seq<nat>, i: nat, k: nat)
    requires Store(s, sizes) && LiveFile(s, i) && sizes[i] == k * BLOCK_SIZE && k < INDIRECT_ACCESS_BLOCK
    requires FirstFree(s.blockTs) != -1
    ensures var s' := SetSlot(BlockAlloc(s).0, i, k, FirstFree(s.blockTs));
            && Grown(s, s', sizes, i, sizes[i] + 1) && BlockAt(s', i, k) == FirstFree(s.blockTs)
            && BlockAt(s', i, INDEX) == BlockAt(s, i, INDEX)
  {
    hide Owned;
    assert Shaped(s, i, sizes[i]);
    GrowDirect(s, sizes, i);
    FreeCountUpdate(s.blockTs, FirstFree(s.blockTs), TAKEN);
  }

  lemma DirectNull(s: Fs, i: nat, k: nat)
    requires i < INODE_TABLE_SIZE && k < INDIRECT_ACCESS_BLOCK
    requires s.inodes[i].slots[k] == -1 && FirstFree(s.blockTs) == -1
    ensures DirectBlock(s, i, k) == (s, Null)
  {
    assert s.inodes[i].slots[k := -1] == s.inodes[i].slots;
    assert s.inodes[i := s.inodes[i]] == s.inodes;
  }

  lemma DirectAlloc(s: Fs, sizes: seq<nat>, i: nat, k: nat)
    requires Store(s, sizes) && LiveFile(s, i) && sizes[i] == k * BLOCK_SIZE && k < INDIRECT_ACCESS_BLOCK
    requires s.inodes[i].slots[k] == -1
    ensures LookedUp(s, sizes, i, sizes[i], DirectBlock(s, i, k).0, DirectBlock(s, i, k).1)
  {
    hide Owned, Shaped;
    if FirstFree(s.blockTs) != -1 {
      DirectTaken(s, sizes, i, k);
    } else {
      DirectNull(s, i, k);
      GrownSelf(s, sizes, i);
    }
  }

  lemma IndirectTaken(s: Fs, sizes: seq<nat>, i: nat, k: nat)
    requires Store(s, sizes) && LiveFile(s, i) && sizes[i] == k * BLOCK_SIZE && INDIRECT_ACCESS_BLOCK <= k < INDEX
    requires ValidBlock(BlockAt(s, i, INDEX)) && FirstFree(s.blockTs) != -1
    ensures var s' := SetRef(BlockAlloc(s).0, BlockAt(s, i, INDEX), k - INDIRECT_ACCESS_BLOCK, FirstFree(s.blockTs));
            Grown(s, s', sizes, i, sizes[i] + 1) && BlockAt(s', i, k) == FirstFree(s.blockTs)
  {
    hide Owned;
    assert Shaped(s, i, sizes[i]);
    GrowIndirect(s, sizes, i);
    FreeCountUpdate(s.blockTs, FirstFree(s.blockTs), TAKEN);
  }

  lemma IndirectNull(s: Fs, x: BlockNum, k: nat)
    requires k < INDIRECT_REFERENCES && s.blocks[x].refs[k] == -1 && FirstFree(s.blockTs) == -1
    ensures IndirectBlock(s, x, k) == (s, Null)
  {
    assert s.blocks[x].refs[k := -1] == s.blocks[x].refs;
    assert s.blocks[x := s.blocks[x]] == s.blocks;
  }

  lemma IndirectAlloc(s: Fs, sizes: seq<nat>, i: nat, k: nat)
    requires Store(s, sizes) && LiveFile(s, i) && sizes[i] == k * BLOCK_SIZE && INDIRECT_ACCESS_BLOCK <= k < INDEX
    requires ValidBlock(BlockAt(s, i, INDEX)) && BlockAt(s, i, k) == -1
    ensures var (s', r) := IndirectBlock(s, BlockAt(s, i, INDEX), k - INDIRECT_ACCESS_BLOCK);
            LookedUp(s, sizes, i, sizes[i], s', r) && !r.NoMeaning?
  {
    hide Owned, Shaped;
    var x, b := BlockAt(s, i, INDEX), FirstFree(s.blockTs);
    if b != -1 {
      IndirectTaken(s, sizes, i, k);
      var s' := SetRef(BlockAlloc(s).0, x, k - INDIRECT_ACCESS_BLOCK, b);
      assert IndirectBlock(s, x, k - INDIRECT_ACCESS_BLOCK) == (s', Found(b));
      assert ReachedSize(sizes[i], sizes[i]) == sizes[i] + 1;
      assert LookedUp(s, sizes, i, sizes[i], s', Found(b));
    } else {
      IndirectNull(s, x, k - INDIRECT_ACCESS_BLOCK);
      GrownSelf(s, sizes, i);
    }
  }

  lemma EnsureIndexGrows(s: Fs, sizes: seq<nat>, i: nat)
    requires Store(s, sizes) && LiveFile(s, i) && sizes[i] >= 10 * BLOCK_SIZE
    ensures var (s', r) := EnsureIndex(s, i);
            match r
            case Found(x) => Grown(s, s', sizes, i, sizes[i]) && BlockAt(s', i, INDEX) == x
            case _ => r == NoMeaning && sizes[i] == 10 * BLOCK_SIZE && BlockAt(s, i, INDEX) == -1 && FirstFree(s.blockTs) == -1
  {
    hide Owned;
    ValidParts(s, sizes, i, INDEX);
    GrownSelf(s, sizes, i);
    if BlockAt(s, i, INDEX) == -1 && FirstFree(s.blockTs) != -1 {
      GrowIndex(s, sizes, i);
      FreeCountUpdate(s.blockTs, FirstFree(s.blockTs), TAKEN);
    }
  }

  lemma GrownTransitive(s: Fs, s1: Fs, s2: Fs, sizes: seq<nat>, i: nat, z: nat)
    requires Store(s, sizes) && i < INODE_TABLE_SIZE
    requires Grown(s, s1, sizes, i, sizes[i]) && Grown(s1, s2, sizes, i, z)
    ensures Grown(s, s2, sizes, i, z)
  {
    assert sizes[i := sizes[i]] == sizes;
  }

  // get_current_data_block, both arms.
  lemma CurrentBlockGrows(s: Fs, sizes: seq<nat>, i: nat, offset: nat)
    requires Store(s, sizes) && LiveFile(s, i) && offset <= sizes[i]
    ensures LookedUp(s, sizes, i, offset, CurrentBlock(s, i, offset).0, CurrentBlock(s, i, offset).1)
  {
    hide Owned, Shaped, DirectBlock, IndirectBlock, EnsureIndex, LookedUp, Grown;
    if offset / BLOCK_SIZE < INDIRECT_ACCESS_BLOCK {
      DirectGrows(s, sizes, i, offset);
    } else {
      EnsureIndexGrows(s, sizes, i);
      var (s1, r1) := EnsureIndex(s, i);
      if r1.Found? {
        IndexedGrows(s, s1, sizes, i, offset, r1.block);
      } else {
        NoIndex(s, s1, sizes, i, offset);
      }
    }
  }

  lemma DirectGrows(s: Fs, sizes: seq<nat>, i: nat, offset: nat)
    requires Store(s, sizes) && LiveFile(s, i) && offset <= sizes[i] && offset / BLOCK_SIZE < INDIRECT_ACCESS_BLOCK
    ensures var (s', r) := DirectBlock(s, i, offset / BLOCK_SIZE); LookedUp(s, sizes, i, offset, s', r)
  {
    var k := offset / BLOCK_SIZE;
    assert k * BLOCK_SIZE <= offset < (k + 1) * BLOCK_SIZE;
    if offset < sizes[i] { OldBlock(s, sizes, i, offset); }
    if s.inodes[i].slots[k] == -1 {
      assert BlockAt(s, i, k) == -1;
      DirectAlloc(s, sizes, i, k);
    } else {
      assert BlockAt(s, i, k) != -1;
      OldBlock(s, sizes, i, k * BLOCK_SIZE);
      ValidParts(s, sizes, i, k);
      assert ReachedSize(sizes[i], offset) == sizes[i];
    }
  }

  lemma IndexedGrows(s: Fs, s1: Fs, sizes: seq<nat>, i: nat, offset: nat, x: BlockNum)
    requires Store(s, sizes) && LiveFile(s, i) && 10 * BLOCK_SIZE <= offset <= sizes[i]
    requires Grown(s, s1, sizes, i, sizes[i]) && BlockAt(s1, i, INDEX) == x
    ensures var (s', r) := IndirectBlock(s1, x, offset / BLOCK_SIZE - INDIRECT_ACCESS_BLOCK); LookedUp(s, sizes, i, offset, s', r)
  {
    hide Owned, Shaped, BlockAt, IndirectBlock;
    assert sizes[i := sizes[i]] == sizes;
    IndirectGrows(s1, sizes, i, offset);
    var (s2, r2) := IndirectBlock(s1, x, offset / BLOCK_SIZE - INDIRECT_ACCESS_BLOCK);
    if r2.Found? {
      GrownTransitive(s, s1, s2, sizes, i, ReachedSize(sizes[i], offset));
    } else if r2.Null? {
      GrownTransitive(s, s1, s2, sizes, i, sizes[i]);
    }
  }

  lemma NoIndex(s: Fs, s1: Fs, sizes: seq<nat>, i: nat, offset: nat)
    requires |sizes| == INODE_TABLE_SIZE && i < INODE_TABLE_SIZE && 10 * BLOCK_SIZE <= offset <= sizes[i] == 10 * BLOCK_SIZE
    requires BlockAt(s, i, INDEX) == -1 && FirstFree(s.blockTs) == -1
    ensures LookedUp(s, sizes, i, offset, s1, NoMeaning)
  {}

  lemma IndirectGrows(s: Fs, sizes: seq<nat>, i: nat, offset: nat)
    requires Store(s, sizes) && LiveFile(s, i) && 10 * BLOCK_SIZE <= offset <= sizes[i]
    requires ValidBlock(BlockAt(s, i, INDEX))
    ensures var (s', r) := IndirectBlock(s, BlockAt(s, i, INDEX), offset / BLOCK_SIZE - INDIRECT_ACCESS_BLOCK);
            LookedUp(s, sizes, i, offset, s', r) && (r.NoMeaning? ==> offset == MAX_FILE_BYTES)
  {
    var k := offset / BLOCK_SIZE;
    assert k * BLOCK_SIZE <= offset < (k + 1) * BLOCK_SIZE;
    assert Shaped(s, i, sizes[i]);
    if k < INDEX {
      var b := BlockAt(s, i, k);
      ValidParts(s, sizes, i, k);
      assert b == s.blocks[BlockAt(s, i, INDEX)].refs[k - INDIRECT_ACCESS_BLOCK];
      hide Owned, Shaped, BlockAt;
      if b == -1 {
        IndirectAlloc(s, sizes, i, k);
      } else {
        GrownSelf(s, sizes, i);
        assert ReachedSize(sizes[i], offset) == sizes[i];
      }
    }
  }

  // ---------- one round of the loop ----------

  // Bytes, i_size and offsets have no say in who owns what.
  lemma ChunkKeepsRecords(s: Fs, h: nat, b: nat, chunk: seq<byte>)
    requires Usable(s, h) && b < DATA_BLOCKS && CurrentOffset(s.files[h].offset) + |chunk| <= BLOCK_SIZE
    ensures SameRecords(s, WriteChunk(s, h, b, chunk))
  {}

  // The flat effect of a memcpy of a chunk into the block that holds its first byte.
  lemma ChunkBytes(s: Fs, sizes: seq<nat>, h: nat, b: nat, chunk: seq<byte>, j: nat, p: nat)
    requires Usable(s, h) && b < DATA_BLOCKS && 0 < |chunk| && CurrentOffset(s.files[h].offset) + |chunk| <= BLOCK_SIZE
    requires Store(s, sizes) && LiveFile(s, s.files[h].inum) && s.files[h].offset < MAX_FILE_BYTES
    requires BlockAt(s, s.files[h].inum, s.files[h].offset / BLOCK_SIZE) == b
    requires LiveFile(s, j) && p < MAX_FILE_BYTES
    ensures var s', off := WriteChunk(s, h, b, chunk), s.files[h].offset;
            ByteAt(s', j, p) ==
            if j == s.files[h].inum && off <= p < off + |chunk| then chunk[p - off] else ByteAt(s, j, p)
  {
    hide Shaped;
    var s', off, i := WriteChunk(s, h, b, chunk), s.files[h].offset, s.files[h].inum;
    CurrentOffsetMod(off);
    var k, q := off / BLOCK_SIZE, p / BLOCK_SIZE;
    assert BlockAt(s', j, q) == BlockAt(s, j, q);
    NoAliasing(s, sizes, i, k, j, q);
  }

  // A live file, and an offset within it or at its end.
  ghost predicate Ready(s: Fs, sizes: seq<nat>, h: nat) {
    && |sizes| == INODE_TABLE_SIZE && Store(s, sizes) && Usable(s, h)
    && LiveFile(s, s.files[h].inum) && s.files[h].offset <= sizes[s.files[h].inum]
  }

  ghost function WrittenSize(s: Fs, sizes: seq<nat>, h: nat, n: nat): nat
    requires Usable(s, h) && |sizes| == INODE_TABLE_SIZE
  {
    Max(sizes[s.files[h].inum], s.files[h].offset + n)
  }

  // The bytes of every live file after `data` went into file i at `off`.
  ghost predicate Patched(s: Fs, sizes: seq<nat>, i: nat, off: nat, data: seq<byte>, s': Fs)
    requires |sizes| == INODE_TABLE_SIZE
  {
    forall j: nat, p: nat ::
      LiveFile(s, j) && p < MAX_FILE_BYTES && (p < sizes[j] || (j == i && p < off + |data|)) ==>
      ByteAt(s', j, p) == if j == i && off <= p < off + |data| then data[p - off] else ByteAt(s, j, p)
  }

  // The loop has put `data` at the offset of h: the bytes are patched, the offset moves on,
  // i_size counts every byte, blocks are conserved and nothing else changes.
  ghost predicate Wrote(s: Fs, sizes: seq<nat>, h: nat, data: seq<byte>, s': Fs)
    requires Usable(s, h) && |sizes| == INODE_TABLE_SIZE
  {
    var i, off, z := s.files[h].inum, s.files[h].offset, WrittenSize(s, sizes, h, |data|);
    && off <= sizes[i] && z <= MAX_FILE_BYTES
    && Store(s', sizes[i := z])
    && Untouched(s, s', i, h) && OtherParts(s, s', i)
    && s'.files[h].offset == off + |data|
    && s'.inodes[i].size == s.inodes[i].size + |data|
    && Patched(s, sizes, i, off, data, s')
    && FreeCount(s'.blockTs) + Held(s', i, z) == FreeCount(s.blockTs) + Held(s, i, sizes[i])
  }

  lemma GrownBytes(s: Fs, s': Fs, sizes: seq<nat>, i: nat, z: nat)
    requires Store(s, sizes) && LiveFile(s, i) && Grown(s, s', sizes, i, z)
    ensures Patched(s, sizes, i, sizes[i], [], s')
  {
    hide Owned;
    forall j: nat, p: nat | LiveFile(s, j) && p < MAX_FILE_BYTES && p < sizes[j]
      ensures ByteAt(s', j, p) == ByteAt(s, j, p)
    {
      assert Shaped(s, j, sizes[j]);
      assert BlockAt(s, j, p / BLOCK_SIZE) != -1;
    }
  }

  lemma GrownWrote(s: Fs, s': Fs, sizes: seq<nat>, h: nat)
    requires Ready(s, sizes, h) && Grown(s, s', sizes, s.files[h].inum, sizes[s.files[h].inum])
    ensures Wrote(s, sizes, h, [], s')
  {
    var i := s.files[h].inum;
    assert s'.files == s.files[h := s'.files[h]];
    GrownBytes(s, s', sizes, i, sizes[i]);
    assert Shaped(s, i, sizes[i]);
  }

  lemma ChunkSize(size: nat, off: nat, n: nat)
    requires off <= size && 0 < n && CurrentOffset(off) + n <= BLOCK_SIZE && off < MAX_FILE_BYTES
    ensures ReachedSize(size, off) <= Max(size, off + n)
    ensures CeilBlocks(Max(size, off + n)) == CeilBlocks(ReachedSize(size, off))
  {
    CurrentOffsetMod(off);
  }

  lemma ChunkFrame(s: Fs, h: nat, b: nat, chunk: seq<byte>)
    requires Usable(s, h) && b < DATA_BLOCKS && CurrentOffset(s.files[h].offset) + |chunk| <= BLOCK_SIZE
    ensures var s', i := WriteChunk(s, h, b, chunk), s.files[h].inum;
            && Untouched(s, s', i, h) && s'.files[h].offset == s.files[h].offset + |chunk|
            && s'.inodes[i].size == s.inodes[i].size + |chunk| && s'.blockTs == s.blockTs
            && s'.inodes[i].slots == s.inodes[i].slots
  {}

  lemma ChunkPatches(s: Fs, s1: Fs, sizes: seq<nat>, h: nat, b: nat, chunk: seq<byte>)
    requires Ready(s, sizes, h) && 0 < |chunk| && s.files[h].offset < MAX_FILE_BYTES
    requires CurrentOffset(s.files[h].offset) + |chunk| <= BLOCK_SIZE && b < DATA_BLOCKS
    requires Grown(s, s1, sizes, s.files[h].inum, ReachedSize(sizes[s.files[h].inum], s.files[h].offset))
    requires BlockAt(s1, s.files[h].inum, s.files[h].offset / BLOCK_SIZE) == b
    ensures Patched(s, sizes, s.files[h].inum, s.files[h].offset, chunk, WriteChunk(s1, h, b, chunk))
  {
    hide Owned, Shaped, BlockAt, ByteAt, WriteChunk;
    var i, off := s.files[h].inum, s.files[h].offset;
    var z1 := ReachedSize(sizes[i], off);
    GrownBytes(s, s1, sizes, i, z1);
    forall j: nat, p: nat | LiveFile(s, j) && p < MAX_FILE_BYTES && (p < sizes[j] || (j == i && p < off + |chunk|))
      ensures ByteAt(WriteChunk(s1, h, b, chunk), j, p) ==
              if j == i && off <= p < off + |chunk| then chunk[p - off] else ByteAt(s, j, p)
    {
      ChunkBytes(s1, sizes[i := z1], h, b, chunk, j, p);
    }
  }

  lemma ChunkWrote(s: Fs, s1: Fs, sizes: seq<nat>, h: nat, b: nat, chunk: seq<byte>)
    requires Ready(s, sizes, h) && 0 < |chunk| && s.files[h].offset < MAX_FILE_BYTES
    requires CurrentOffset(s.files[h].offset) + |chunk| <= BLOCK_SIZE && b < DATA_BLOCKS
    requires Grown(s, s1, sizes, s.files[h].inum, ReachedSize(sizes[s.files[h].inum], s.files[h].offset))
    requires BlockAt(s1, s.files[h].inum, s.files[h].offset / BLOCK_SIZE) == b
    ensures Wrote(s, sizes, h, chunk, WriteChunk(s1, h, b, chunk))
  {
    hide Owned, Shaped, BlockAt, WriteChunk, ByteAt, Patched;
    var i, z := s.files[h].inum, WrittenSize(s, sizes, h, |chunk|);
    var s' := WriteChunk(s1, h, b, chunk);
    ChunkPatches(s, s1, sizes, h, b, chunk);
    ChunkStore(s, s1, sizes, h, b, chunk);
    ChunkFrame(s1, h, b, chunk);
    ChunkOtherParts(s, s1, s', i);
    ChunkSize(sizes[i], s.files[h].offset, |chunk|);
    assert s'.files == s.files[h := s'.files[h]];
  }

  lemma ChunkStore(s: Fs, s1: Fs, sizes: seq<nat>, h: nat, b: nat, chunk: seq<byte>)
    requires Ready(s, sizes, h) && 0 < |chunk| && s.files[h].offset < MAX_FILE_BYTES
    requires CurrentOffset(s.files[h].offset) + |chunk| <= BLOCK_SIZE && b < DATA_BLOCKS
    requires Grown(s, s1, sizes, s.files[h].inum, ReachedSize(sizes[s.files[h].inum], s.files[h].offset))
    ensures var s', z := WriteChunk(s1, h, b, chunk), WrittenSize(s, sizes, h, |chunk|);
            Store(s', sizes[s.files[h].inum := z]) && z <= MAX_FILE_BYTES && SameRecords(s1, s')
  {
    hide Owned, BlockAt, WriteChunk;
    var i := s.files[h].inum;
    var z1, z := ReachedSize(sizes[i], s.files[h].offset), WrittenSize(s, sizes, h, |chunk|);
    var s' := WriteChunk(s1, h, b, chunk);
    ChunkSize(sizes[i], s.files[h].offset, |chunk|);
    ChunkKeepsRecords(s1, h, b, chunk);
    SameRecordsStore(s1, s', sizes[i := z1], i, z);
    assert sizes[i := z1][i := z] == sizes[i := z];
    assert LiveFile(s', i) && Shaped(s', i, z);
  }

  lemma ChunkOtherParts(s: Fs, s1: Fs, s': Fs, i: nat)
    requires OtherParts(s, s1, i) && SameRecords(s1, s')
    ensures OtherParts(s, s', i)
  {
    hide BlockAt;
  }
}
