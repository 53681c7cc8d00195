/** Splitting a write in two is invisible in the concrete state: first-fit allocation on
    demand hands out the same blocks in the same order. No invariant is needed. */
module Splitting {
  import opened Config
  import opened FirstFit
  import opened MultiBlock

  // A block that was found, or just taken, is found again at any offset in the same block.
  lemma FoundAgain(s: Fs, i: nat, off: nat, off': nat)
    requires i < INODE_TABLE_SIZE && off / BLOCK_SIZE == off' / BLOCK_SIZE
    requires CurrentBlock(s, i, off).1.Found?
    ensures CurrentBlock(CurrentBlock(s, i, off).0, i, off') == CurrentBlock(s, i, off)
  {}

  lemma ChunkKeepsLookup(s: Fs, h: nat, b: BlockNum, chunk: seq<byte>, off: nat, r: Lookup)
    requires Usable(s, h) && CurrentOffset(s.files[h].offset) + |chunk| <= BLOCK_SIZE
    requires CurrentBlock(s, s.files[h].inum, off) == (s, r) && r.Found?
    ensures CurrentBlock(WriteChunk(s, h, b, chunk), s.files[h].inum, off) == (WriteChunk(s, h, b, chunk), r)
  {}

  lemma ChunksMerge(s: Fs, h: nat, b: BlockNum, x: seq<byte>, y: seq<byte>)
    requires Usable(s, h) && CurrentOffset(s.files[h].offset) + |x| + |y| <= BLOCK_SIZE
    requires CurrentOffset(s.files[h].offset + |x|) == CurrentOffset(s.files[h].offset) + |x|
    ensures WriteChunk(WriteChunk(s, h, b, x), h, b, y) == WriteChunk(s, h, b, x + y)
  {
    hide CurrentOffset;
    var o := CurrentOffset(s.files[h].offset);
    SpliceSplice(s.blocks[b].bytes, o, x, y);
    assert WriteChunk(WriteChunk(s, h, b, x), h, b, y).blocks == WriteChunk(s, h, b, x + y).blocks;
  }

  lemma SameBlockOffset(off: nat, n: nat)
    requires CurrentOffset(off) + n < BLOCK_SIZE
    ensures CurrentOffset(off + n) == CurrentOffset(off) + n && (off + n) / BLOCK_SIZE == off / BLOCK_SIZE
  {
    hide CurrentOffset;
    CurrentOffsetMod(off);
    CurrentOffsetMod(off + n);
    assert off == BLOCK_SIZE * (off / BLOCK_SIZE) + off % BLOCK_SIZE;
  }

  // x ends inside a block: the round for x + y does what a round for x and then one for y do.
  lemma RoundsMerge(s: Fs, h: nat, x: seq<byte>, y: seq<byte>)
    requires Usable(s, h) && |x| > 0 && |y| > 0 && CurrentOffset(s.files[h].offset) + |x| < BLOCK_SIZE
    requires WriteStep(s, h, x).1 == Done
    ensures WriteStep(s, h, x + y) == WriteStep(WriteStep(s, h, x).0, h, y)
    ensures Chunk(s.files[h].offset, |x + y|) == |x| + Chunk(WriteStep(s, h, x).0.files[h].offset, |y|)
  {
    hide CurrentBlock, CurrentOffset;
    var off, i := s.files[h].offset, s.files[h].inum;
    SameBlockOffset(off, |x|);
    var (s1, r) := CurrentBlock(s, i, off);
    FoundAgain(s, i, off, off + |x|);
    ChunkKeepsLookup(s1, h, r.block, x, off + |x|, r);
    var n := Chunk(off + |x|, |y|);
    assert x[..|x|] == x && (x + y)[..|x| + n] == x + y[..n];
    ChunksMerge(s1, h, r.block, x, y[..n]);
  }

  lemma {:induction false} LoopSplits(s: Fs, h: nat, a: seq<byte>, b: seq<byte>)
    requires Usable(s, h) && WriteLoop(s, h, a).1 == Done
    ensures WriteLoop(s, h, a + b) == WriteLoop(WriteLoop(s, h, a).0, h, b)
    decreases |a|
  {
    hide WriteStep;
    if |a| == 0 {
      assert a + b == b;
    } else if |b| == 0 {
      assert a + b == a;
    } else {
      var s1, n := WriteStep(s, h, a).0, Chunk(s.files[h].offset, |a|);
      if n < |a| || CurrentOffset(s.files[h].offset) + n == BLOCK_SIZE {
        StepsAlike(s, h, a, b);
        LoopSplits(s1, h, a[n..], b);
        assert (a + b)[n..] == a[n..] + b;
      } else {
        RoundsMerge(s, h, a, b);
        var n' := Chunk(s1.files[h].offset, |b|);
        assert (a + b)[n + n'..] == b[n'..];
        assert a[n..] == [];
      }
    }
  }

  // A round that fills its block does not look past it.
  lemma StepsAlike(s: Fs, h: nat, a: seq<byte>, b: seq<byte>)
    requires Usable(s, h) && |a| > 0
    requires var n := Chunk(s.files[h].offset, |a|);
             n < |a| || CurrentOffset(s.files[h].offset) + n == BLOCK_SIZE
    ensures Chunk(s.files[h].offset, |a + b|) == Chunk(s.files[h].offset, |a|)
    ensures WriteStep(s, h, a + b) == WriteStep(s, h, a)
  {
    var n := Chunk(s.files[h].offset, |a|);
    assert (a + b)[..n] == a[..n];
  }

  // ---------- i_size takes no part in the loop ----------

  lemma SlotAndSize(s: Fs, i: nat, k: nat, v: int, z: nat)
    requires i < INODE_TABLE_SIZE && k < BLOCKS
    ensures SetSlot(SetSize(s, i, z), i, k, v) == SetSize(SetSlot(s, i, k, v), i, z)
  {
    assert SetSlot(SetSize(s, i, z), i, k, v).inodes == SetSize(SetSlot(s, i, k, v), i, z).inodes;
  }

  lemma LookupIgnoresSize(s: Fs, i: nat, off: nat, z: nat)
    requires i < INODE_TABLE_SIZE
    ensures var (s', r) := CurrentBlock(s, i, off);
            && CurrentBlock(SetSize(s, i, z), i, off) == (SetSize(s', i, z), r)
            && s'.inodes[i].size == s.inodes[i].size
  {
    var k, s1 := off / BLOCK_SIZE, BlockAlloc(s).0;
    if k < INDIRECT_ACCESS_BLOCK {
      SlotAndSize(s1, i, k, FirstFree(s.blockTs), z);
    } else {
      SlotAndSize(s1, i, INDIRECT_ACCESS_BLOCK, FirstFree(s.blockTs), z);
    }
  }

  lemma {:induction false} LoopIgnoresSize(s: Fs, h: nat, buf: seq<byte>, z: nat)
    requires Usable(s, h) && WriteLoop(s, h, buf).1 == Done
    ensures WriteLoop(SetSize(s, s.files[h].inum, z), h, buf)
         == (SetSize(WriteLoop(s, h, buf).0, s.files[h].inum, z + |buf|), Done)
    ensures WriteLoop(s, h, buf).0.inodes[s.files[h].inum].size == s.inodes[s.files[h].inum].size + |buf|
    ensures WriteLoop(s, h, buf).0.files[h] == s.files[h].(offset := s.files[h].offset + |buf|)
    decreases |buf|
  {
    hide WriteStep, CurrentOffset;
    var i, off := s.files[h].inum, s.files[h].offset;
    if |buf| == 0 {
      assert s.inodes[i := s.inodes[i]] == s.inodes;
    } else {
      var s1, n := WriteStep(s, h, buf).0, Chunk(off, |buf|);
      StepIgnoresSize(s, h, buf, z);
      LoopIgnoresSize(s1, h, buf[n..], z + n);
    }
  }

  lemma StepIgnoresSize(s: Fs, h: nat, buf: seq<byte>, z: nat)
    requires Usable(s, h) && |buf| > 0 && WriteStep(s, h, buf).1 == Done
    ensures var i, n, s1 := s.files[h].inum, Chunk(s.files[h].offset, |buf|), WriteStep(s, h, buf).0;
            && WriteStep(SetSize(s, i, z), h, buf) == (SetSize(s1, i, z + n), Done)
            && s1.inodes[i].size == s.inodes[i].size + n
            && s1.files[h] == s.files[h].(offset := s.files[h].offset + n)
  {
    hide CurrentBlock, CurrentOffset;
    var i, off, n := s.files[h].inum, s.files[h].offset, Chunk(s.files[h].offset, |buf|);
    LookupIgnoresSize(s, i, off, z);
    var (s1, r) := CurrentBlock(s, i, off);
    ChunkIgnoresSize(s1, h, r.block, buf[..n], z);
  }

  lemma ChunkIgnoresSize(s: Fs, h: nat, b: BlockNum, chunk: seq<byte>, z: nat)
    requires Usable(s, h) && CurrentOffset(s.files[h].offset) + |chunk| <= BLOCK_SIZE
    ensures var i := s.files[h].inum;
            && WriteChunk(SetSize(s, i, z), h, b, chunk) == SetSize(WriteChunk(s, h, b, chunk), i, z + |chunk|)
            && WriteChunk(s, h, b, chunk).inodes[i].size == s.inodes[i].size + |chunk|
  {
    var i := s.files[h].inum;
    assert WriteChunk(SetSize(s, i, z), h, b, chunk).inodes == SetSize(WriteChunk(s, h, b, chunk), i, z + |chunk|).inodes;
  }

  lemma StepPrefix(s: Fs, h: nat, a: seq<byte>, b: seq<byte>)
    requires Usable(s, h) && |a| > 0
    ensures WriteStep(s, h, a).1 == WriteStep(s, h, a + b).1
  {
    hide CurrentBlock, Chunk, WriteChunk;
  }

  // Where the loop over a + b ends well, so does the loop over a.
  lemma {:induction false} LoopPrefix(s: Fs, h: nat, a: seq<byte>, b: seq<byte>)
    requires Usable(s, h) && WriteLoop(s, h, a + b).1 == Done
    ensures WriteLoop(s, h, a).1 == Done
    decreases |a|
  {
    hide WriteStep;
    if |a| > 0 {
      var s1, n := WriteStep(s, h, a).0, Chunk(s.files[h].offset, |a|);
      StepPrefix(s, h, a, b);
      if n < |a| {
        StepsAlike(s, h, a, b);
        assert (a + b)[n..] == a[n..] + b;
        LoopPrefix(s1, h, a[n..], b);
      } else {
        assert a[n..] == [];
      }
    }
  }

  // Writing a + b succeeds exactly when writing a and then b does, and reaches the very state
  // that they reach.
  lemma SplitWrite(s: Fs, h: int, a: seq<byte>, b: seq<byte>)
    ensures Write(s, h, a + b).1.Ret? <==> Write(s, h, a).1.Ret? && Write(Write(s, h, a).0, h, b).1.Ret?
    ensures Write(s, h, a + b).1.Ret? ==> Write(s, h, a + b) == (Write(Write(s, h, a).0, h, b).0, Ret(|a| + |b|))
  {
    hide WriteLoop;
    if Write(s, h, a + b).1.Ret? { LoopPrefix(s, h, a, b); }
    if Write(s, h, a).1.Ret? {
      SplitAfter(s, h, a, b);
    }
  }

  lemma SplitAfter(s: Fs, h: int, a: seq<byte>, b: seq<byte>)
    requires Write(s, h, a).1.Ret?
    ensures Write(s, h, a + b).1.Ret? <==> Write(Write(s, h, a).0, h, b).1.Ret?
    ensures Write(s, h, a + b).1.Ret? ==> Write(s, h, a + b) == (Write(Write(s, h, a).0, h, b).0, Ret(|a| + |b|))
  {
    hide WriteLoop;
    var i, sa, s1 := s.files[h].inum, WriteLoop(s, h, a).0, Write(s, h, a).0;
    var za, z1 := s1.inodes[i].size, sa.inodes[i].size;
    LoopIgnoresSize(s, h, a, 0);
    assert s1 == SetSize(sa, i, za);
    SizeBack(sa, i, za, z1);
    LoopSplits(s, h, a, b);
    if WriteLoop(s1, h, b).1 == Done { LoopIgnoresSize(s1, h, b, z1); }
    if WriteLoop(sa, h, b).1 == Done {
      LoopIgnoresSize(sa, h, b, za);
      assert Write(s, h, a + b).0.inodes == Write(s1, h, b).0.inodes;
    }
  }

  lemma SizeBack(s: Fs, i: nat, z: nat, z0: nat)
    requires i < INODE_TABLE_SIZE && s.inodes[i].size == z0
    ensures SetSize(SetSize(s, i, z), i, z0) == s
  {
    assert SetSize(SetSize(s, i, z), i, z0).inodes == s.inodes;
  }
}
