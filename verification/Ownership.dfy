/** Who owns which block, and which bytes a file holds. */
module Ownership {
  import opened Config
  import opened FirstFit
  import opened MultiBlock

  // Parts 0..265 of a file are its data blocks; part 266 is its index block.
  const INDEX := 266
  const MAX_FILE_BYTES := 266 * BLOCK_SIZE

  datatype Role = Role(inum: nat, part: nat)

  ghost predicate Live(s: Fs, i: nat) { i < INODE_TABLE_SIZE && s.inodeTs[i] == TAKEN }

  // The block number recorded for a part of an inode, or -1. A directory has one block.
  function BlockAt(s: Fs, i: nat, r: nat): int
    requires i < INODE_TABLE_SIZE && r <= INDEX
  {
    var n := s.inodes[i];
    if n.kind == T_DIRECTORY then (if r == 0 then n.slots[0] else -1)
    else if r < INDIRECT_ACCESS_BLOCK then n.slots[r]
    else if r == INDEX then n.slots[INDIRECT_ACCESS_BLOCK]
    else if ValidBlock(n.slots[INDIRECT_ACCESS_BLOCK]) then
      s.blocks[n.slots[INDIRECT_ACCESS_BLOCK]].refs[r - INDIRECT_ACCESS_BLOCK]
    else -1
  }

  // owner is the one-to-one correspondence between TAKEN blocks and parts of live inodes.
  ghost predicate Owned(s: Fs, owner: map<int, Role>) {
    && (forall b :: 0 <= b < DATA_BLOCKS ==> (s.blockTs[b] == TAKEN <==> b in owner))
    && (forall b :: b in owner ==>
          && ValidBlock(b) && Live(s, owner[b].inum) && owner[b].part <= INDEX
          && BlockAt(s, owner[b].inum, owner[b].part) == b)
    && (forall i: nat, r: nat :: Live(s, i) && r <= INDEX && BlockAt(s, i, r) != -1 ==>
          BlockAt(s, i, r) in owner && owner[BlockAt(s, i, r)] == Role(i, r))
  }

  // The parts of a file of z bytes: a gap-free prefix of data blocks, and an index block
  // once there are more than ten (one may be left at exactly ten by a failed append).
  ghost predicate Shaped(s: Fs, i: nat, z: nat) {
    && i < INODE_TABLE_SIZE && z <= MAX_FILE_BYTES
    && (forall r :: 0 <= r < INDEX ==> (BlockAt(s, i, r) != -1 <==> r * BLOCK_SIZE < z))
    && (BlockAt(s, i, INDEX) != -1 ==> z >= 10 * BLOCK_SIZE)
    && (z > 10 * BLOCK_SIZE ==> BlockAt(s, i, INDEX) != -1)
  }

  ghost predicate LiveFile(s: Fs, i: nat) { 0 < i && Live(s, i) && s.inodes[i].kind == T_FILE }

  // Block ownership when the logical size of inode i is sizes[i], which a running write
  // keeps apart from i_size.
  ghost predicate Store(s: Fs, sizes: seq<nat>) {
    && |sizes| == INODE_TABLE_SIZE
    && Live(s, ROOT_DIR_INUM) && s.inodes[ROOT_DIR_INUM].kind == T_DIRECTORY
    && ValidBlock(s.inodes[ROOT_DIR_INUM].slots[0])
    && (forall i :: 0 < i && Live(s, i) ==> LiveFile(s, i) && Shaped(s, i, sizes[i]))
    && exists owner :: Owned(s, owner)
  }

  function ByteAt(s: Fs, i: nat, p: nat): byte
    requires i < INODE_TABLE_SIZE && p < MAX_FILE_BYTES
  {
    var b := BlockAt(s, i, p / BLOCK_SIZE);
    if ValidBlock(b) then s.blocks[b].bytes[p % BLOCK_SIZE] else 0
  }

  // The first z bytes of a file as one flat sequence.
  function Flat(s: Fs, i: nat, z: nat): (c: seq<byte>)
    requires i < INODE_TABLE_SIZE && z <= MAX_FILE_BYTES
    ensures |c| == z
  {
    seq(z, p requires 0 <= p < z => ByteAt(s, i, p))
  }

  function CeilBlocks(z: nat): nat { (z + BLOCK_SIZE - 1) / BLOCK_SIZE }

  // The number of blocks inode i holds at logical size z.
  function Held(s: Fs, i: nat, z: nat): nat
    requires i < INODE_TABLE_SIZE
  {
    CeilBlocks(z) + if s.inodes[i].slots[INDIRECT_ACCESS_BLOCK] != -1 then 1 else 0
  }

  // What a step on file i through handle h leaves alone, apart from file contents.
  ghost predicate Untouched(s: Fs, s': Fs, i: nat, h: nat) {
    && s'.inodeTs == s.inodeTs && s'.fileTs == s.fileTs
    && i < INODE_TABLE_SIZE && h < MAX_OPEN_FILES
    && s'.files == s.files[h := s'.files[h]] && s'.files[h].inum == s.files[h].inum
    && (forall j :: 0 <= j < INODE_TABLE_SIZE && j != i ==> s'.inodes[j] == s.inodes[j])
    && s'.inodes[i].kind == s.inodes[i].kind
    && (forall b :: 0 <= b < DATA_BLOCKS ==> s'.blocks[b].entries == s.blocks[b].entries)
  }

  ghost predicate SameBytes(s: Fs, s': Fs) {
    forall b :: 0 <= b < DATA_BLOCKS ==> s'.blocks[b].bytes == s.blocks[b].bytes
  }

  ghost predicate SameParts(s: Fs, s': Fs, i: nat, r: nat, b: int) {
    forall j: nat, q: nat :: Live(s, j) && q <= INDEX ==>
      BlockAt(s', j, q) == if j == i && q == r then b else BlockAt(s, j, q)
  }

  // The blocks of the other live inodes are those they had.
  ghost predicate OtherParts(s: Fs, s': Fs, i: nat) {
    forall j: nat, q: nat :: Live(s, j) && j != i && q <= INDEX ==> BlockAt(s', j, q) == BlockAt(s, j, q)
  }

  lemma ValidParts(s: Fs, sizes: seq<nat>, i: nat, r: nat)
    requires Store(s, sizes) && Live(s, i) && r <= INDEX
    ensures BlockAt(s, i, r) == -1 || (ValidBlock(BlockAt(s, i, r)) && s.blockTs[BlockAt(s, i, r)] == TAKEN)
  {
    var owner :| Owned(s, owner);
  }

  // No block plays two roles.
  lemma NoAliasing(s: Fs, sizes: seq<nat>, i: nat, r: nat, j: nat, q: nat)
    requires Store(s, sizes) && Live(s, i) && Live(s, j) && r <= INDEX && q <= INDEX
    ensures BlockAt(s, i, r) == BlockAt(s, j, q) ==> BlockAt(s, i, r) == -1 || (i == j && r == q)
  {
    var owner :| Owned(s, owner);
  }

  ghost predicate SameRecords(s: Fs, s': Fs) {
    && s'.inodeTs == s.inodeTs && s'.blockTs == s.blockTs
    && (forall j :: 0 <= j < INODE_TABLE_SIZE ==> s'.inodes[j].kind == s.inodes[j].kind)
    && (forall j: nat, q: nat :: j < INODE_TABLE_SIZE && q <= INDEX ==> BlockAt(s', j, q) == BlockAt(s, j, q))
  }

  lemma SameRecordsOwned(s: Fs, s': Fs)
    requires SameRecords(s, s') && exists owner :: Owned(s, owner)
    ensures exists owner :: Owned(s', owner)
  {
    var owner :| Owned(s, owner);
    assert Owned(s', owner);
  }

  // A change that leaves the recorded block numbers alone may move file i to another size
  // with the same number of blocks.
  lemma SameRecordsStore(s: Fs, s': Fs, sizes: seq<nat>, i: nat, z: nat)
    requires SameRecords(s, s') && Store(s, sizes) && LiveFile(s, i)
    requires sizes[i] <= z && CeilBlocks(z) == CeilBlocks(sizes[i])
    ensures Store(s', sizes[i := z])
  {
    hide Owned;
    SameRecordsOwned(s, s');
    forall j: nat | 0 < j && Live(s', j) ensures LiveFile(s', j) && Shaped(s', j, sizes[i := z][j]) {
      assert LiveFile(s, j) && Shaped(s, j, sizes[j]);
    }
    assert BlockAt(s', 0, 0) == BlockAt(s, 0, 0);
  }

  // Taking a free block for an empty part keeps the correspondence.
  lemma ClaimBlock(s: Fs, s': Fs, i: nat, r: nat, b: nat)
    requires exists owner :: Owned(s, owner)
    requires b < DATA_BLOCKS && s.blockTs[b] == FREE && s'.blockTs == s.blockTs[b := TAKEN]
    requires s'.inodeTs == s.inodeTs && Live(s, i) && r <= INDEX && BlockAt(s, i, r) == -1
    requires SameParts(s, s', i, r, b)
    ensures exists owner :: Owned(s', owner)
  {
    var owner :| Owned(s, owner);
    var owner' := owner[b := Role(i, r)];
    assert b !in owner;
    assert Owned(s', owner');
  }

  // The same for a whole store: file i moves on to logical size z.
  lemma GrowStore(s: Fs, s': Fs, sizes: seq<nat>, i: nat, r: nat, b: nat, z: nat)
    requires Store(s, sizes) && LiveFile(s, i)
    requires b < DATA_BLOCKS && s.blockTs[b] == FREE && s'.blockTs == s.blockTs[b := TAKEN]
    requires s'.inodeTs == s.inodeTs && r <= INDEX && BlockAt(s, i, r) == -1
    requires forall j :: 0 <= j < INODE_TABLE_SIZE && j != i ==> s'.inodes[j] == s.inodes[j]
    requires s'.inodes[i].kind == T_FILE
    requires SameParts(s, s', i, r, b)
    requires z <= MAX_FILE_BYTES && z >= sizes[i]
    requires if r == INDEX then z == sizes[i] == 10 * BLOCK_SIZE else sizes[i] <= r * BLOCK_SIZE < z <= (r + 1) * BLOCK_SIZE
    requires r != INDEX ==> sizes[i] == r * BLOCK_SIZE && (r >= 10 ==> BlockAt(s, i, INDEX) != -1)
    ensures Store(s', sizes[i := z])
  {
    ClaimBlock(s, s', i, r, b);
    forall j: nat | 0 < j && Live(s', j) ensures LiveFile(s', j) && Shaped(s', j, sizes[i := z][j]) {
      assert LiveFile(s, j) && Shaped(s, j, sizes[j]);
      if j != i {
        assert forall q: nat :: q <= INDEX ==> BlockAt(s', j, q) == BlockAt(s, j, q);
      } else {
        assert forall q: nat :: q <= INDEX ==> BlockAt(s', i, q) == if q == r then b else BlockAt(s, i, q);
      }
    }
    assert BlockAt(s', 0, 0) == BlockAt(s, 0, 0);
  }

  lemma GrowDirect(s: Fs, sizes: seq<nat>, i: nat)
    requires Store(s, sizes) && LiveFile(s, i) && FirstFree(s.blockTs) != -1
    requires sizes[i] % BLOCK_SIZE == 0 && sizes[i] < 10 * BLOCK_SIZE
    ensures var k, b := sizes[i] / BLOCK_SIZE, FirstFree(s.blockTs);
            var s' := SetSlot(BlockAlloc(s).0, i, k, b);
            SameParts(s, s', i, k, b) && Store(s', sizes[i := sizes[i] + 1])
  {
    var k, b := sizes[i] / BLOCK_SIZE, FirstFree(s.blockTs);
    var s' := SetSlot(BlockAlloc(s).0, i, k, b);
    assert BlockAt(s, i, k) == -1;
    assert SameParts(s, s', i, k, b);
    GrowStore(s, s', sizes, i, k, b, sizes[i] + 1);
  }

  lemma GrowIndex(s: Fs, sizes: seq<nat>, i: nat)
    requires Store(s, sizes) && LiveFile(s, i) && FirstFree(s.blockTs) != -1
    requires sizes[i] == 10 * BLOCK_SIZE && BlockAt(s, i, INDEX) == -1
    ensures var b := FirstFree(s.blockTs);
            var s' := BonusBlockInit(s, i).0;
            SameParts(s, s', i, INDEX, b) && Store(s', sizes)
  {
    var b := FirstFree(s.blockTs);
    var s' := BonusBlockInit(s, i).0;
    forall j: nat, q: nat | Live(s, j) && q <= INDEX
      ensures BlockAt(s', j, q) == if j == i && q == INDEX then b else BlockAt(s, j, q)
    {
      ValidParts(s, sizes, j, INDEX);
    }
    GrowStore(s, s', sizes, i, INDEX, b, sizes[i]);
    assert sizes[i := sizes[i]] == sizes;
  }

  lemma GrowIndirect(s: Fs, sizes: seq<nat>, i: nat)
    requires Store(s, sizes) && LiveFile(s, i) && FirstFree(s.blockTs) != -1
    requires sizes[i] % BLOCK_SIZE == 0 && 10 * BLOCK_SIZE <= sizes[i] < MAX_FILE_BYTES
    requires BlockAt(s, i, INDEX) != -1
    ensures var k, x, b := sizes[i] / BLOCK_SIZE, s.inodes[i].slots[INDIRECT_ACCESS_BLOCK], FirstFree(s.blockTs);
            ValidBlock(x) &&
            var s' := SetRef(BlockAlloc(s).0, x, k - INDIRECT_ACCESS_BLOCK, b);
            SameParts(s, s', i, k, b) && Store(s', sizes[i := sizes[i] + 1])
  {
    hide Owned;
    var k, x, b := sizes[i] / BLOCK_SIZE, s.inodes[i].slots[INDIRECT_ACCESS_BLOCK], FirstFree(s.blockTs);
    assert BlockAt(s, i, INDEX) == x && BlockAt(s, i, k) == -1;
    ValidParts(s, sizes, i, INDEX);
    var s' := SetRef(BlockAlloc(s).0, x, k - INDIRECT_ACCESS_BLOCK, b);
    forall j: nat, q: nat | Live(s, j) && q <= INDEX
      ensures BlockAt(s', j, q) == if j == i && q == k then b else BlockAt(s, j, q)
    {
      NoAliasing(s, sizes, i, INDEX, j, INDEX);
    }
    GrowStore(s, s', sizes, i, k, b, sizes[i] + 1);
  }
}
