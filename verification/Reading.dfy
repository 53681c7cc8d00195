/** tfs_read against the flat contents, and the round trip of chunked writes and reads. */
module Reading {
  import opened Config
  import opened FirstFit
  import opened MultiBlock
  import opened Ownership
  import opened Writing
  import opened FlatFile

  function Slice(s: Fs, i: nat, off: nat, n: nat): (c: seq<byte>)
    requires i < INODE_TABLE_SIZE && off + n <= MAX_FILE_BYTES
    ensures |c| == n
  {
    Flat(s, i, off + n)[off..]
  }

  // Within the file get_current_data_block finds the block and allocates nothing.
  lemma NoAllocation(s: Fs, sizes: seq<nat>, i: nat, off: nat)
    requires Store(s, sizes) && LiveFile(s, i) && off < sizes[i]
    ensures off < MAX_FILE_BYTES && ValidBlock(BlockAt(s, i, off / BLOCK_SIZE))
    ensures CurrentBlock(s, i, off) == (s, Found(BlockAt(s, i, off / BLOCK_SIZE)))
  {
    OldBlock(s, sizes, i, off);
    ValidParts(s, sizes, i, INDEX);
  }

  lemma ReadStepSlice(s: Fs, sizes: seq<nat>, h: nat, want: nat)
    requires Ready(s, sizes, h) && want > 0 && s.files[h].offset + want <= sizes[s.files[h].inum]
    ensures sizes[s.files[h].inum] <= MAX_FILE_BYTES
    ensures var i, off := s.files[h].inum, s.files[h].offset;
            var n := Chunk(off, want);
            ReadStep(s, h, want) == (SetOffset(s, h, off + n), Slice(s, i, off, n), Done)
  {
    var i, off := s.files[h].inum, s.files[h].offset;
    assert Shaped(s, i, sizes[i]);
    NoAllocation(s, sizes, i, off);
    CurrentOffsetMod(off);
    BlockSlice(s, i, off, Chunk(off, want));
  }

  // The bytes a chunk takes from a block are those at its flat offsets.
  lemma BlockSlice(s: Fs, i: nat, off: nat, n: nat)
    requires i < INODE_TABLE_SIZE && off + n <= MAX_FILE_BYTES && off < MAX_FILE_BYTES
    requires CurrentOffset(off) + n <= BLOCK_SIZE && ValidBlock(BlockAt(s, i, off / BLOCK_SIZE))
    ensures s.blocks[BlockAt(s, i, off / BLOCK_SIZE)].bytes[CurrentOffset(off)..CurrentOffset(off) + n] == Slice(s, i, off, n)
  {
    hide BlockAt, CurrentOffset;
    CurrentOffsetMod(off);
    var c := Slice(s, i, off, n);
    forall p | 0 <= p < n
      ensures c[p] == s.blocks[BlockAt(s, i, off / BLOCK_SIZE)].bytes[CurrentOffset(off)..CurrentOffset(off) + n][p]
    {
      assert (off + p) / BLOCK_SIZE == off / BLOCK_SIZE && (off + p) % BLOCK_SIZE == off % BLOCK_SIZE + p;
      assert c[p] == ByteAt(s, i, off + p);
    }
  }

  lemma OffsetKeepsReady(s: Fs, sizes: seq<nat>, h: nat, off: nat)
    requires Ready(s, sizes, h) && off <= sizes[s.files[h].inum]
    ensures Ready(SetOffset(s, h, off), sizes, h)
    ensures forall j: nat, p: nat :: j < INODE_TABLE_SIZE && p < MAX_FILE_BYTES ==>
              ByteAt(SetOffset(s, h, off), j, p) == ByteAt(s, j, p)
  {
    var s' := SetOffset(s, h, off);
    assert SameRecords(s, s');
    SameRecordsStore(s, s', sizes, s.files[h].inum, sizes[s.files[h].inum]);
    assert sizes[s.files[h].inum := sizes[s.files[h].inum]] == sizes;
  }

  // The read loop moves one offset, and nothing else in the whole state.
  lemma {:induction false} LoopReads(s: Fs, sizes: seq<nat>, h: nat, want: nat)
    requires Ready(s, sizes, h) && s.files[h].offset + want <= sizes[s.files[h].inum]
    ensures sizes[s.files[h].inum] <= MAX_FILE_BYTES
    ensures var i, off := s.files[h].inum, s.files[h].offset;
            ReadLoop(s, h, want) == (SetOffset(s, h, off + want), Slice(s, i, off, want), Done)
    decreases want
  {
    hide Store, ReadStep, ByteAt, Chunk;
    var i, off := s.files[h].inum, s.files[h].offset;
    ReadyBound(s, sizes, h);
    if want == 0 {
      assert s.files[h := s.files[h]] == s.files;
    } else {
      var n := Chunk(off, want);
      ReadStepSlice(s, sizes, h, want);
      var s1 := SetOffset(s, h, off + n);
      ChunkBounds(off, want);
      OffsetKeepsReady(s, sizes, h, off + n);
      LoopReads(s1, sizes, h, want - n);
      assert SetOffset(s1, h, off + want).files == SetOffset(s, h, off + want).files;
      assert Slice(s, i, off, n) + Slice(s1, i, off + n, want - n) == Slice(s, i, off, want);
    }
  }

  lemma ReadyBound(s: Fs, sizes: seq<nat>, h: nat)
    requires Ready(s, sizes, h)
    ensures sizes[s.files[h].inum] <= MAX_FILE_BYTES
  {
    assert Shaped(s, s.files[h].inum, sizes[s.files[h].inum]);
  }

  lemma ChunkBounds(off: nat, want: nat)
    requires want > 0
    ensures 0 < Chunk(off, want) <= want
  {}

  // tfs_read on a live handle returns exactly the next bytes of the file, never allocates,
  // and changes one offset.
  lemma ReadRefinesSlice(s: Fs, h: nat, len: nat)
    requires Inv(s) && OpenHandle(s, h)
    ensures Usable(s, h) && ContentReady(s, s.files[h].inum)
    ensures var c, off := Contents(s, s.files[h].inum), s.files[h].offset;
            && off <= |c|
            && Read(s, h, len) == (SetOffset(s, h, off + Min(len, |c| - off)), Got(c[off..off + Min(len, |c| - off)]))
    ensures Inv(Read(s, h, len).0)
  {
    hide Store, ReadLoop, BlockAt, ByteAt;
    OpenReady(s, h);
    var i, off := s.files[h].inum, s.files[h].offset;
    var n := Min(len, s.inodes[i].size - off);
    LoopReads(s, SizesOf(s), h, n);
    assert Slice(s, i, off, n) == Contents(s, i)[off..off + n];
    OffsetInv(s, h, off + n);
  }

  lemma OffsetInv(s: Fs, h: nat, off: nat)
    requires Inv(s) && OpenHandle(s, h) && Usable(s, h) && off <= s.inodes[s.files[h].inum].size
    ensures Inv(SetOffset(s, h, off))
    ensures forall j: nat :: ContentReady(s, j) ==> Contents(SetOffset(s, h, off), j) == Contents(s, j)
  {
    OpenReady(s, h);
    OffsetKeepsReady(s, SizesOf(s), h, off);
    assert SizesOf(SetOffset(s, h, off)) == SizesOf(s);
  }

  // ---------- chunked writes, then chunked reads ----------

  function Concat(chunks: seq<seq<byte>>): seq<byte>
  {
    if |chunks| == 0 then [] else chunks[0] + Concat(chunks[1..])
  }

  // Writes chunk after chunk, stopping at the first that does not return its length.
  function WriteAll(s: Fs, h: int, chunks: seq<seq<byte>>): (Fs, bool)
    decreases |chunks|
  {
    if |chunks| == 0 then (s, true)
    else
      var (s1, r) := Write(s, h, chunks[0]);
      if r.Ret? then WriteAll(s1, h, chunks[1..]) else (s1, false)
  }

  // Reads request after request and collects what came back.
  function ReadAll(s: Fs, h: int, lens: seq<nat>): (Fs, seq<byte>, bool)
    decreases |lens|
  {
    if |lens| == 0 then (s, [], true)
    else
      var (s1, r) := Read(s, h, lens[0]);
      if r.Got? then
        var (s2, data, ok) := ReadAll(s1, h, lens[1..]);
        (s2, r.data + data, ok)
      else (s1, [], false)
  }

  function Total(lens: seq<nat>): nat { if |lens| == 0 then 0 else lens[0] + Total(lens[1..]) }

  // Any chunking of a write at the end of a file appends the concatenation.
  lemma {:induction false} ChunkedWrites(s: Fs, h: nat, chunks: seq<seq<byte>>)
    requires Inv(s) && OpenHandle(s, h) && WriteAll(s, h, chunks).1
    requires Usable(s, h) && s.files[h].offset == s.inodes[s.files[h].inum].size
    ensures var s', i := WriteAll(s, h, chunks).0, s.files[h].inum;
            && Inv(s') && OpenHandle(s', h) && ContentReady(s, i) && ContentReady(s', i) && s'.files[h].inum == i
            && Contents(s', i) == Contents(s, i) + Concat(chunks)
            && s'.files[h].offset == |Contents(s', i)|
            && SameTables(s, s')
    decreases |chunks|
  {
    hide Inv, Write, Contents;
    OpenReady(s, h);
    if |chunks| > 0 {
      var s1, i := Write(s, h, chunks[0]).0, s.files[h].inum;
      WriteRefinesSplice(s, h, chunks[0]);
      AppendedContents(s, h, chunks[0], s1);
      ChunkedWrites(s1, h, chunks[1..]);
      assert Contents(s, i) + chunks[0] + Concat(chunks[1..]) == Contents(s, i) + Concat(chunks);
    } else {
      LiveSizes(s, h);
      assert Contents(s, s.files[h].inum) + [] == Contents(s, s.files[h].inum);
    }
  }

  lemma LiveSizes(s: Fs, h: nat)
    requires Inv(s) && OpenHandle(s, h) && Usable(s, h)
    ensures ContentReady(s, s.files[h].inum) && |Contents(s, s.files[h].inum)| == s.inodes[s.files[h].inum].size
  {
    OpenReady(s, h);
  }

  lemma AppendedContents(s: Fs, h: nat, data: seq<byte>, s': Fs)
    requires h < MAX_OPEN_FILES && Usable(s, h) && WriteEffect(s, h, data, s')
    requires s.files[h].offset == s.inodes[s.files[h].inum].size
    ensures var i := s.files[h].inum;
            && Contents(s', i) == Contents(s, i) + data
            && s'.files[h].offset == s'.inodes[i].size && s'.files[h].inum == i
            && s'.fileTs == s.fileTs && s'.inodeTs == s.inodeTs
  {}

  // Any chunking of reads delivers each byte from the offset on exactly once, in order.
  lemma {:induction false} ChunkedReads(s: Fs, h: nat, lens: seq<nat>)
    requires Inv(s) && OpenHandle(s, h)
    ensures Usable(s, h) && ContentReady(s, s.files[h].inum)
    ensures var c, off := Contents(s, s.files[h].inum), s.files[h].offset;
            && off <= |c|
            && ReadAll(s, h, lens) == (SetOffset(s, h, off + Min(Total(lens), |c| - off)),
                                       c[off..off + Min(Total(lens), |c| - off)], true)
    decreases |lens|
  {
    hide Inv, Read, Contents;
    var i, off := s.files[h].inum, s.files[h].offset;
    if |lens| > 0 {
      ReadRefinesSlice(s, h, lens[0]);
      var c := Contents(s, i);
      var n := Min(lens[0], |c| - off);
      var s1 := SetOffset(s, h, off + n);
      LiveSizes(s, h);
      OffsetInv(s, h, off + n);
      ChunkedReads(s1, h, lens[1..]);
      var m := Min(Total(lens), |c| - off);
      assert SetOffset(s1, h, off + m).files == SetOffset(s, h, off + m).files;
      assert c[off..off + n] + c[off + n..off + m] == c[off..off + m];
    } else {
      ReadRefinesSlice(s, h, 0);
      assert s.files[h := s.files[h]] == s.files;
      assert Contents(s, i)[off..off] == [];
    }
  }

  // ---------- handles that are not open ----------

  // A handle outside the table: tfs_write refuses it, tfs_read goes through a null pointer.
  lemma BadHandle(s: Fs, h: int, buf: seq<byte>, len: nat)
    requires !ValidHandle(h)
    ensures Write(s, h, buf) == (s, Fail) && Read(s, h, len) == (s, ReadUndefined)
  {}

  // Neither looks at the flags of the open-file table: through a handle that was closed they
  // go on as through an open one.
  lemma FlagsIgnored(s: Fs, ts: seq<Alloc>, h: int, buf: seq<byte>, len: nat)
    requires |ts| == MAX_OPEN_FILES
    ensures var s0 := s.(fileTs := ts);
            && Write(s0, h, buf) == (Write(s, h, buf).0.(fileTs := ts), Write(s, h, buf).1)
            && Read(s0, h, len) == (Read(s, h, len).0.(fileTs := ts), Read(s, h, len).1)
  {
    hide WriteLoop, ReadLoop;
    if ValidHandle(h) && ValidInumber(s.files[h].inum) {
      WriteLoopFlags(s, ts, h, buf);
      ReadLoopFlags(s, ts, h, ToRead(s.inodes[s.files[h].inum].size, s.files[h].offset, len));
    }
  }

  lemma LookupFlags(s: Fs, ts: seq<Alloc>, i: nat, off: nat)
    requires |ts| == MAX_OPEN_FILES && i < INODE_TABLE_SIZE
    ensures CurrentBlock(s.(fileTs := ts), i, off) == (CurrentBlock(s, i, off).0.(fileTs := ts), CurrentBlock(s, i, off).1)
  {}

  lemma {:induction false} WriteLoopFlags(s: Fs, ts: seq<Alloc>, h: nat, buf: seq<byte>)
    requires |ts| == MAX_OPEN_FILES && Usable(s, h)
    ensures WriteLoop(s.(fileTs := ts), h, buf) == (WriteLoop(s, h, buf).0.(fileTs := ts), WriteLoop(s, h, buf).1)
    decreases |buf|
  {
    hide CurrentBlock, Chunk;
    if |buf| > 0 {
      LookupFlags(s, ts, s.files[h].inum, s.files[h].offset);
      var (s1, o) := WriteStep(s, h, buf);
      assert WriteStep(s.(fileTs := ts), h, buf) == (s1.(fileTs := ts), o);
      if o == Done { WriteLoopFlags(s1, ts, h, buf[Chunk(s.files[h].offset, |buf|)..]); }
    }
  }

  lemma {:induction false} ReadLoopFlags(s: Fs, ts: seq<Alloc>, h: nat, want: nat)
    requires |ts| == MAX_OPEN_FILES && Usable(s, h)
    ensures var (s', got, o) := ReadLoop(s, h, want); ReadLoop(s.(fileTs := ts), h, want) == (s'.(fileTs := ts), got, o)
    decreases want
  {
    hide CurrentBlock, Chunk;
    if want > 0 {
      LookupFlags(s, ts, s.files[h].inum, s.files[h].offset);
      var (s1, got, o) := ReadStep(s, h, want);
      assert ReadStep(s.(fileTs := ts), h, want) == (s1.(fileTs := ts), got, o);
      if o == Done { ReadLoopFlags(s1, ts, h, want - |got|); }
    }
  }

  // ---------- behind the end of a file ----------

  // A loop that gets to its end has all it asked for.
  lemma {:induction false} LoopLength(s: Fs, h: nat, want: nat)
    requires Usable(s, h)
    ensures var (_, data, o) := ReadLoop(s, h, want); o == Done ==> |data| == want
    decreases want
  {
    hide CurrentBlock;
    if want > 0 {
      var (s1, got, o) := ReadStep(s, h, want);
      if o == Done { LoopLength(s1, h, want - |got|); }
    }
  }

  // A handle that a truncation has left behind the end of its file: the unsigned subtraction
  // wraps around, and a read that succeeds returns all that was asked for, from an empty file.
  lemma ReadBehindEnd(s: Fs, h: nat, len: nat)
    requires Usable(s, h)
    requires var size := s.inodes[s.files[h].inum].size;
             size < s.files[h].offset && s.files[h].offset - size + len <= SIZE_T_MOD
    ensures Read(s, h, len).1.Got? ==> |Read(s, h, len).1.data| == len
  {
    hide ReadLoop;
    LoopLength(s, h, len);
  }

  // What it returns of a block that the file no longer has: the read takes the first free block
  // for the file and returns the bytes that block still holds.
  lemma ReadTakesBlock(s: Fs, h: nat, len: nat)
    requires Usable(s, h) && len > 0 && FirstFree(s.blockTs) != -1
    requires var (n, off) := (s.inodes[s.files[h].inum], s.files[h].offset);
             && n.size < off < 10 * BLOCK_SIZE && n.slots[off / BLOCK_SIZE] == -1
             && off - n.size + len <= SIZE_T_MOD && off % BLOCK_SIZE + len <= BLOCK_SIZE
    ensures var (s', r) := Read(s, h, len);
            var (i, off, b) := (s.files[h].inum, s.files[h].offset, FirstFree(s.blockTs));
            && r == Got(s.blocks[b].bytes[off % BLOCK_SIZE..off % BLOCK_SIZE + len])
            && s'.blockTs == s.blockTs[b := TAKEN] && s'.inodes[i].slots[off / BLOCK_SIZE] == b
            && s'.inodes[i].size == s.inodes[i].size && s'.files == s.files[h := OpenFile(i, off + len)]
  {
    var (i, off, b) := (s.files[h].inum, s.files[h].offset, FirstFree(s.blockTs));
    CurrentOffsetMod(off);
    var (s1, got, o) := ReadStep(s, h, len);
    assert o == Done && got == s.blocks[b].bytes[off % BLOCK_SIZE..off % BLOCK_SIZE + len];
    assert ReadLoop(s1, h, 0) == (s1, [], Done);
    assert got + [] == got;
    assert ToRead(s.inodes[i].size, off, len) == len;
    assert ReadLoop(s, h, len) == (s1, got, Done);
  }
}
