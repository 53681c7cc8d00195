/** The invariant of the first version between calls, and its calls on files seen as
    operations on flat byte sequences. */
module FlatFile {
  import opened Config
  import opened FirstFit
  import opened Directory
  import opened MultiBlock
  import opened Ownership
  import opened Writing
  import opened WriteTheorems

  function SizesOf(s: Fs): (z: seq<nat>)
    ensures |z| == INODE_TABLE_SIZE
  {
    seq(INODE_TABLE_SIZE, i requires 0 <= i < INODE_TABLE_SIZE => s.inodes[i].size)
  }

  ghost predicate OpenHandle(s: Fs, h: int) { ValidHandle(h) && s.fileTs[h] == TAKEN }

  // Every taken handle is on a live file, at an offset within it.
  ghost predicate HandlesOk(s: Fs) {
    forall h: nat :: OpenHandle(s, h) ==>
      && Usable(s, h) && LiveFile(s, s.files[h].inum)
      && s.files[h].offset <= s.inodes[s.files[h].inum].size
  }

  function RootEntries(s: Fs): Entries
    requires ValidBlock(s.inodes[ROOT_DIR_INUM].slots[0])
  {
    s.blocks[s.inodes[ROOT_DIR_INUM].slots[0]].entries
  }

  ghost predicate EntriesOk(s: Fs, es: Entries) {
    && (forall k :: 0 <= k < MAX_DIR_ENTRIES ==> es[k].inum == -1 || (es[k].inum >= 0 && LiveFile(s, es[k].inum)))
    && StoredNames(es)
  }

  ghost predicate Inv(s: Fs) {
    && Store(s, SizesOf(s))
    && HandlesOk(s)
    && EntriesOk(s, RootEntries(s))
  }

  // No failed append has left an index block on a file of ten blocks.
  ghost predicate Tidy(s: Fs) {
    forall i: nat :: LiveFile(s, i) ==> (BlockAt(s, i, INDEX) != -1 <==> s.inodes[i].size > 10 * BLOCK_SIZE)
  }

  ghost predicate ContentReady(s: Fs, i: nat) { i < INODE_TABLE_SIZE && s.inodes[i].size <= MAX_FILE_BYTES }

  function Contents(s: Fs, i: nat): (c: seq<byte>)
    requires ContentReady(s, i)
    ensures |c| == s.inodes[i].size
  {
    Flat(s, i, s.inodes[i].size)
  }

  lemma LiveContent(s: Fs, i: nat)
    requires Inv(s) && LiveFile(s, i)
    ensures ContentReady(s, i)
  {
    assert Shaped(s, i, SizesOf(s)[i]);
  }

  // ---------- what a call on one file leaves alone ----------

  ghost predicate OtherFilesSame(s: Fs, s': Fs, i: nat) {
    forall j: nat :: LiveFile(s, j) && j != i && ContentReady(s, j) ==>
      LiveFile(s', j) && ContentReady(s', j) && Contents(s', j) == Contents(s, j)
  }

  ghost predicate SameTables(s: Fs, s': Fs) {
    && s'.inodeTs == s.inodeTs && s'.fileTs == s.fileTs
    && s'.inodes[ROOT_DIR_INUM] == s.inodes[ROOT_DIR_INUM]
    && (forall b :: 0 <= b < DATA_BLOCKS ==> s'.blocks[b].entries == s.blocks[b].entries)
  }

  // ---------- tfs_write ----------

  lemma PatchedFlat(s: Fs, sizes: seq<nat>, h: nat, data: seq<byte>, s': Fs)
    requires Ready(s, sizes, h) && Wrote(s, sizes, h, data, s')
    ensures var i, z := s.files[h].inum, WrittenSize(s, sizes, h, |data|);
            sizes[i] <= MAX_FILE_BYTES && Flat(s', i, z) == Splice(Flat(s, i, sizes[i]), s.files[h].offset, data)
    ensures forall j: nat :: LiveFile(s, j) && j != s.files[h].inum && sizes[j] <= MAX_FILE_BYTES ==>
              Flat(s', j, sizes[j]) == Flat(s, j, sizes[j])
  {
    hide Store, ByteAt;
  }

  // The state after the loop with the size repaired differs from it in one i_size.
  lemma SetSizeKeeps(s: Fs, i: nat, z: nat)
    requires i < INODE_TABLE_SIZE
    ensures SameRecords(s, SetSize(s, i, z))
    ensures forall j: nat, p: nat :: j < INODE_TABLE_SIZE && p < MAX_FILE_BYTES ==>
              ByteAt(SetSize(s, i, z), j, p) == ByteAt(s, j, p)
  {}

  // Once i_size is right, the state after the loop satisfies the invariant again.
  lemma WroteInv(s: Fs, h: nat, data: seq<byte>, s1: Fs)
    requires Inv(s) && OpenHandle(s, h) && Ready(s, SizesOf(s), h) && Wrote(s, SizesOf(s), h, data, s1)
    ensures var i, z := s.files[h].inum, WrittenSize(s, SizesOf(s), h, |data|);
            var s' := SetSize(s1, i, z);
            && Store(s', SizesOf(s')) && HandlesOk(s') && SameTables(s, s')
            && s'.files == s.files[h := s.files[h].(offset := s.files[h].offset + |data|)]
            && ValidBlock(s'.inodes[ROOT_DIR_INUM].slots[0])
            && RootEntries(s') == RootEntries(s) && EntriesOk(s', RootEntries(s'))
  {
    hide Owned, Shaped, BlockAt, Patched;
    var i, z := s.files[h].inum, WrittenSize(s, SizesOf(s), h, |data|);
    var s' := SetSize(s1, i, z);
    SetSizeKeeps(s1, i, z);
    var sizes' := SizesOf(s)[i := z];
    SameRecordsStore(s1, s', sizes', i, z);
    assert sizes'[i := z] == sizes' == SizesOf(s');
  }

  lemma WroteContents(s: Fs, h: nat, data: seq<byte>, s1: Fs)
    requires Inv(s) && OpenHandle(s, h) && Ready(s, SizesOf(s), h) && Wrote(s, SizesOf(s), h, data, s1)
    ensures var i, z := s.files[h].inum, WrittenSize(s, SizesOf(s), h, |data|);
            var s' := SetSize(s1, i, z);
            && ContentReady(s, i) && ContentReady(s', i)
            && Contents(s', i) == Splice(Contents(s, i), s.files[h].offset, data)
            && OtherFilesSame(s, s', i) && OtherParts(s, s', i)
  {
    hide Owned, Shaped, BlockAt, ByteAt, Store;
    var i, z := s.files[h].inum, WrittenSize(s, SizesOf(s), h, |data|);
    var s' := SetSize(s1, i, z);
    PatchedFlat(s, SizesOf(s), h, data, s1);
    SetSizeKeeps(s1, i, z);
    assert Flat(s', i, z) == Flat(s1, i, z);
    forall j: nat | LiveFile(s, j) && j != i && ContentReady(s, j)
      ensures LiveFile(s', j) && ContentReady(s', j) && Contents(s', j) == Contents(s, j)
    {
      assert SizesOf(s)[j] == s.inodes[j].size;
      assert Flat(s', j, s.inodes[j].size) == Flat(s1, j, s.inodes[j].size);
    }
  }

  // What tfs_write has done once `data` is in the file: the flat contents are spliced, only
  // this handle moves, and all else is as before.
  ghost predicate WriteEffect(s: Fs, h: nat, data: seq<byte>, s': Fs)
    requires h < MAX_OPEN_FILES
  {
    var i, off := s.files[h].inum, s.files[h].offset;
    && i >= 0 && ContentReady(s, i) && ContentReady(s', i) && off <= s.inodes[i].size
    && Contents(s', i) == Splice(Contents(s, i), off, data)
    && s'.files == s.files[h := s.files[h].(offset := off + |data|)]
    && OtherFilesSame(s, s', i) && OtherParts(s, s', i) && SameTables(s, s')
  }

  lemma OpenReady(s: Fs, h: nat)
    requires Inv(s) && OpenHandle(s, h)
    ensures Ready(s, SizesOf(s), h) && ContentReady(s, s.files[h].inum)
  {
    LiveContent(s, s.files[h].inum);
  }

  function EndOfWrite(s: Fs, h: nat, n: nat): nat
    requires h < MAX_OPEN_FILES && Usable(s, h)
  {
    Max(s.inodes[s.files[h].inum].size, s.files[h].offset + n)
  }

  // tfs_write succeeds exactly when the file stays within 266 blocks and the blocks it still
  // needs are free; it then refines a splice, and a tidy store stays tidy.
  lemma WriteRefinesSplice(s: Fs, h: nat, buf: seq<byte>)
    requires Inv(s) && OpenHandle(s, h)
    ensures Usable(s, h)
    ensures var (s', r), i := Write(s, h, buf), s.files[h].inum;
            var size, z := s.inodes[i].size, EndOfWrite(s, h, |buf|);
            && (r == Ret(|buf|) <==> Affordable(s, i, size, z))
            && (r == Undefined <==> Overruns(s, i, size, z))
            && (r.Ret? ==> r.n == |buf| && Inv(s') && WriteEffect(s, h, buf, s')
                           && FreeCount(s'.blockTs) + Held(s', i, z) == FreeCount(s.blockTs) + Held(s, i, size)
                           && NoSpareIndex(s, s', i, z))
  {
    hide Owned, Shaped, BlockAt, ByteAt, Patched, Affordable, Overruns, WriteLoop, Untouched,
      HandlesOk, EntriesOk, OtherFilesSame, SameTables, SetSize;
    OpenReady(s, h);
    LoopWrites(s, SizesOf(s), h, buf);
    var i, z, s1 := s.files[h].inum, EndOfWrite(s, h, |buf|), WriteLoop(s, h, buf).0;
    if WriteLoop(s, h, buf).1 == Done {
      WroteInv(s, h, buf, s1);
      WroteContents(s, h, buf, s1);
      WriteCounts(s1, i, z);
      assert Write(s, h, buf) == (SetSize(s1, i, z), Ret(|buf|));
    }
  }

  lemma WriteCounts(s: Fs, i: nat, z: nat)
    requires i < INODE_TABLE_SIZE
    ensures SetSize(s, i, z).blockTs == s.blockTs && Held(SetSize(s, i, z), i, z) == Held(s, i, z)
    ensures BlockAt(SetSize(s, i, z), i, INDEX) == BlockAt(s, i, INDEX)
  {}

  // A write that runs out of blocks midway leaves every free block used, and a prefix of the
  // buffer in the file, up to a block boundary. The size repair is skipped: i_size is the
  // true end of the data, and the invariant holds, exactly when the write began at the end of
  // the file, and then the prefix is appended. Other files, handles and the directory are as
  // they were in any case.
  lemma FailedWrite(s: Fs, h: nat, buf: seq<byte>)
    requires Inv(s) && OpenHandle(s, h) && Write(s, h, buf).1 == Fail
    ensures Usable(s, h)
    ensures var s', i, off := Write(s, h, buf).0, s.files[h].inum, s.files[h].offset;
            var size, w := s.inodes[i].size, s'.files[h].offset - off;
            && 0 <= w < |buf| && FreeCount(s'.blockTs) == 0
            && (off + w) % BLOCK_SIZE == 0 && off + w == EndOfWrite(s, h, w) <= MAX_FILE_BYTES
            && Flat(s', i, off + w) == Splice(Contents(s, i), off, buf[..w])
            && (s'.inodes[i].size == off + w <==> off == size)
            && (Inv(s') <==> off == size)
            && (off == size ==> WriteEffect(s, h, buf[..w], s'))
            && OtherFilesSame(s, s', i) && OtherParts(s, s', i) && SameTables(s, s')
            && s'.files == s.files[h := s.files[h].(offset := off + w)]
  {
    hide Owned, Shaped, BlockAt, ByteAt, Patched, Overruns, WriteLoop, Affordable, OtherFilesSame, SameTables;
    OpenReady(s, h);
    var sizes := SizesOf(s);
    LoopWrites(s, sizes, h, buf);
    var (s1, o) := WriteLoop(s, h, buf);
    var i, off := s.files[h].inum, s.files[h].offset;
    assert o == NoBlock && Write(s, h, buf).0 == s1;
    var w := s1.files[h].offset - off;
    FreeCountZero(s1.blockTs);
    PatchedFlat(s, sizes, h, buf[..w], s1);
    WroteFrame(s, h, buf[..w], s1);
    if w == |buf| {
      assert buf[..w] == buf;
      FullIsAffordable(s, sizes, h, buf, s1);
    }
    if off == s.inodes[i].size {
      WroteInv(s, h, buf[..w], s1);
      WroteContents(s, h, buf[..w], s1);
      assert s1.inodes[i := s1.inodes[i]] == s1.inodes;
      assert SetSize(s1, i, off + w) == s1;
    } else {
      WrongSize(s1, SizesOf(s)[i := off + w], i);
    }
  }

  lemma WroteFrame(s: Fs, h: nat, data: seq<byte>, s': Fs)
    requires Inv(s) && OpenHandle(s, h) && Ready(s, SizesOf(s), h) && Wrote(s, SizesOf(s), h, data, s')
    ensures OtherFilesSame(s, s', s.files[h].inum) && OtherParts(s, s', s.files[h].inum) && SameTables(s, s')
    ensures s'.files == s.files[h := s.files[h].(offset := s.files[h].offset + |data|)]
  {
    hide Owned, Shaped, BlockAt, ByteAt, Flat, Store;
    PatchedFlat(s, SizesOf(s), h, data, s');
  }

  // No file is larger than the blocks it has.
  lemma WrongSize(s: Fs, sizes: seq<nat>, i: nat)
    requires Store(s, sizes) && LiveFile(s, i) && sizes[i] % BLOCK_SIZE == 0 && s.inodes[i].size > sizes[i]
    ensures !Inv(s)
  {
    hide Owned;
    assert Shaped(s, i, sizes[i]);
    if sizes[i] < MAX_FILE_BYTES {
      var r := sizes[i] / BLOCK_SIZE;
      assert BlockAt(s, i, r) == -1;
      assert !Shaped(s, i, SizesOf(s)[i]);
    }
  }

  // A loop that has put everything in the file had blocks enough.
  lemma FullIsAffordable(s: Fs, sizes: seq<nat>, h: nat, buf: seq<byte>, s1: Fs)
    requires Ready(s, sizes, h) && Wrote(s, sizes, h, buf, s1) && FreeCount(s1.blockTs) == 0
    ensures Affordable(s, s.files[h].inum, sizes[s.files[h].inum], WrittenSize(s, sizes, h, |buf|))
  {
    hide Owned, ByteAt, Patched;
    StepBudget(s, sizes, h, buf, s1, WrittenSize(s, sizes, h, |buf|));
    WroteReady(s, sizes, h, buf, s1);
    assert LiveFile(s1, s.files[h].inum);
  }

  // The blocks a file of z bytes holds in a tidy store.
  function Need(z: nat): nat { CeilBlocks(z) + if CeilBlocks(z) > INDIRECT_ACCESS_BLOCK then 1 else 0 }

  // A write to size z succeeds exactly when the file stays within 266 blocks and what it needs
  // beyond what it holds is free, and it takes exactly that. In a tidy store a file of z bytes
  // holds need(z).
  lemma ExactSpace(s: Fs, h: nat, buf: seq<byte>)
    requires Inv(s) && OpenHandle(s, h)
    ensures Usable(s, h)
    ensures var (s', r), i := Write(s, h, buf), s.files[h].inum;
            var size, z := s.inodes[i].size, EndOfWrite(s, h, |buf|);
            var held, held' := Held(s, i, size), Max(Held(s, i, size), Need(z));
            && (r == Ret(|buf|) <==> z <= MAX_FILE_BYTES && held' - held <= FreeCount(s.blockTs))
            && (r.Ret? ==> Held(s', i, z) == held' && FreeCount(s.blockTs) - FreeCount(s'.blockTs) == held' - held)
            && (Tidy(s) ==> held == Need(size))
            && (Tidy(s) && r.Ret? ==> Tidy(s') && held' == Need(z))
  {
    OpenReady(s, h);
    WriteRefinesSplice(s, h, buf);
    var (s', r) := Write(s, h, buf);
    var i := s.files[h].inum;
    assert Shaped(s, i, SizesOf(s)[i]);
    if r.Ret? {
      if Tidy(s) { WriteStaysTidy(s, h, buf); }
      LiveContent(s', i);
      assert LiveFile(s', i) && Shaped(s', i, SizesOf(s')[i]);
    }
  }

  lemma WriteStaysTidy(s: Fs, h: nat, buf: seq<byte>)
    requires Inv(s) && Tidy(s) && OpenHandle(s, h) && Write(s, h, buf).1.Ret?
    ensures Tidy(Write(s, h, buf).0)
  {
    OpenReady(s, h);
    WriteRefinesSplice(s, h, buf);
    LoopWrites(s, SizesOf(s), h, buf);
    var s', i := Write(s, h, buf).0, s.files[h].inum;
    assert Shaped(s', i, SizesOf(s')[i]);
    assert forall j: nat :: j < INODE_TABLE_SIZE && j != i ==> s'.inodes[j] == s.inodes[j];
    forall j: nat | LiveFile(s', j)
      ensures BlockAt(s', j, INDEX) != -1 <==> s'.inodes[j].size > 10 * BLOCK_SIZE
    {
      assert LiveFile(s, j);
    }
  }
}
