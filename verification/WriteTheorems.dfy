/** tfs_write as a whole: what it does to the flat contents, when it succeeds and what it costs. */
module WriteTheorems {
  import opened Config
  import opened FirstFit
  import opened MultiBlock
  import opened Ownership
  import opened Writing

  // A write that succeeds adds an index block only if the file outgrows ten blocks, and gives
  // none up.
  ghost predicate NoSpareIndex(s: Fs, s': Fs, i: nat, z: nat)
    requires i < INODE_TABLE_SIZE
  {
    && (BlockAt(s', i, INDEX) != -1 && BlockAt(s, i, INDEX) == -1 ==> z > 10 * BLOCK_SIZE)
    && (BlockAt(s, i, INDEX) != -1 ==> BlockAt(s', i, INDEX) != -1)
  }

  // Below ten blocks a round leaves the index block alone; past them there is one.
  lemma ChunkIndex(s: Fs, s1: Fs, sizes: seq<nat>, h: nat, b: BlockNum, chunk: seq<byte>)
    requires Ready(s, sizes, h) && 0 < |chunk|
    requires CurrentOffset(s.files[h].offset) + |chunk| <= BLOCK_SIZE
    requires LookedUp(s, sizes, s.files[h].inum, s.files[h].offset, s1, Found(b))
    ensures NoSpareIndex(s, WriteChunk(s1, h, b, chunk), s.files[h].inum, WrittenSize(s, sizes, h, |chunk|))
  {
    hide Owned, WriteChunk;
    var i, off := s.files[h].inum, s.files[h].offset;
    ChunkFrame(s1, h, b, chunk);
    if off >= 10 * BLOCK_SIZE {
      assert LiveFile(s1, i) && Shaped(s1, i, ReachedSize(sizes[i], off));
    }
  }

  // One round of the loop.
  lemma StepWrites(s: Fs, sizes: seq<nat>, h: nat, buf: seq<byte>)
    requires Ready(s, sizes, h) && |buf| > 0
    ensures var (s', o), i, off := WriteStep(s, h, buf), s.files[h].inum, s.files[h].offset;
            match o
            case Done =>
              var data := buf[..Chunk(off, |buf|)];
              Wrote(s, sizes, h, data, s') && NoSpareIndex(s, s', i, WrittenSize(s, sizes, h, |data|))
            case NoBlock => Wrote(s, sizes, h, [], s') && OutOfBlocks(s', i, sizes[i], off) && off < MAX_FILE_BYTES
            case Crash =>
              && off == sizes[i]
              && (off == MAX_FILE_BYTES
                  || (off == 10 * BLOCK_SIZE && BlockAt(s, i, INDEX) == -1 && FirstFree(s.blockTs) == -1))
  {
    hide CurrentBlock, WriteChunk, Wrote, NoSpareIndex, Store, BlockAt;
    var i, off := s.files[h].inum, s.files[h].offset;
    CurrentBlockGrows(s, sizes, i, off);
    var (s1, r) := CurrentBlock(s, i, off);
    match r {
      case Found(b) =>
        ChunkWrote(s, s1, sizes, h, b, buf[..Chunk(off, |buf|)]);
        ChunkIndex(s, s1, sizes, h, b, buf[..Chunk(off, |buf|)]);
      case Null => GrownWrote(s, s1, sizes, h);
      case NoMeaning =>
    }
  }

  lemma WroteNothing(s: Fs, sizes: seq<nat>, h: nat)
    requires Ready(s, sizes, h)
    ensures Wrote(s, sizes, h, [], s)
  {
    GrownSelf(s, sizes, s.files[h].inum);
    GrownWrote(s, s, sizes, h);
  }

  lemma WroteReady(s: Fs, sizes: seq<nat>, h: nat, data: seq<byte>, s': Fs)
    requires Ready(s, sizes, h) && Wrote(s, sizes, h, data, s')
    ensures Ready(s', sizes[s.files[h].inum := WrittenSize(s, sizes, h, |data|)], h)
  {}

  lemma WroteCompose(s: Fs, s1: Fs, s2: Fs, sizes: seq<nat>, h: nat, a: seq<byte>, b: seq<byte>)
    requires Ready(s, sizes, h) && Wrote(s, sizes, h, a, s1)
    requires Wrote(s1, sizes[s.files[h].inum := WrittenSize(s, sizes, h, |a|)], h, b, s2)
    ensures Wrote(s, sizes, h, a + b, s2)
  {
    hide Owned, Shaped, BlockAt, ByteAt;
    var i, z1, z := s.files[h].inum, WrittenSize(s, sizes, h, |a|), WrittenSize(s, sizes, h, |a + b|);
    assert sizes[i := z1][i := z] == sizes[i := z];
    assert s2.files == s.files[h := s2.files[h]];
  }

  // ---------- when the loop succeeds ----------

  // The blocks that file i still needs to reach size z.
  function Cost(s: Fs, i: nat, size: nat, z: nat): nat
    requires i < INODE_TABLE_SIZE && size <= z
  {
    CeilBlocks(z) - CeilBlocks(size)
    + if CeilBlocks(z) > INDIRECT_ACCESS_BLOCK && BlockAt(s, i, INDEX) == -1 then 1 else 0
  }

  // The condition a caller can check beforehand: the file stays within 266 blocks and the
  // missing ones are free.
  predicate Affordable(s: Fs, i: nat, size: nat, z: nat)
    requires i < INODE_TABLE_SIZE && size <= z
  {
    z <= MAX_FILE_BYTES && Cost(s, i, size, z) <= FreeCount(s.blockTs)
  }

  // Blocks run out exactly where the index block is needed, or the reference after the last one is.
  predicate Overruns(s: Fs, i: nat, size: nat, z: nat)
    requires i < INODE_TABLE_SIZE && size <= z
  {
    || (z > 10 * BLOCK_SIZE && BlockAt(s, i, INDEX) == -1 && CeilBlocks(size) <= INDIRECT_ACCESS_BLOCK
        && FreeCount(s.blockTs) == INDIRECT_ACCESS_BLOCK - CeilBlocks(size))
    || (z > MAX_FILE_BYTES && Cost(s, i, size, Max(size, MAX_FILE_BYTES)) <= FreeCount(s.blockTs))
  }

  lemma StepBudget(s: Fs, sizes: seq<nat>, h: nat, data: seq<byte>, s': Fs, z: nat)
    requires Ready(s, sizes, h) && Wrote(s, sizes, h, data, s')
    requires z >= WrittenSize(s, sizes, h, |data|)
    ensures var i, z1 := s.files[h].inum, WrittenSize(s, sizes, h, |data|);
            && (Affordable(s, i, sizes[i], z) <==> Affordable(s', i, z1, z))
            && (Overruns(s, i, sizes[i], z) <==> Overruns(s', i, z1, z))
  {
    hide Owned, ByteAt, Patched;
    var i, z1 := s.files[h].inum, WrittenSize(s, sizes, h, |data|);
    WroteReady(s, sizes, h, data, s');
    assert LiveFile(s, i) && LiveFile(s', i);
    assert Shaped(s, i, sizes[i]) && Shaped(s', i, z1);
  }

  // What the loop leaves, and which of its three endings it takes.
  ghost predicate LoopEnds(s: Fs, sizes: seq<nat>, h: nat, buf: seq<byte>, s': Fs, o: Outcome)
    requires Ready(s, sizes, h) && Usable(s', h)
  {
    var i, off, z := s.files[h].inum, s.files[h].offset, WrittenSize(s, sizes, h, |buf|);
    && (o == Done <==> Affordable(s, i, sizes[i], z))
    && (o == Crash <==> Overruns(s, i, sizes[i], z))
    && (o == Done ==> Wrote(s, sizes, h, buf, s') && NoSpareIndex(s, s', i, z))
    && (o == NoBlock ==>
          var w := s'.files[h].offset - off;
          && 0 <= w <= |buf| && Wrote(s, sizes, h, buf[..w], s')
          && OutOfBlocks(s', i, WrittenSize(s, sizes, h, w), off + w))
  }

  lemma StepStops(s: Fs, sizes: seq<nat>, h: nat, buf: seq<byte>)
    requires Ready(s, sizes, h) && |buf| > 0
    ensures var (s', o), i, z := WriteStep(s, h, buf), s.files[h].inum, WrittenSize(s, sizes, h, |buf|);
            && (o == NoBlock ==> !Affordable(s, i, sizes[i], z) && !Overruns(s, i, sizes[i], z))
            && (o == Crash ==> !Affordable(s, i, sizes[i], z) && Overruns(s, i, sizes[i], z))
  {
    hide Owned, WriteStep, ByteAt, Patched, Untouched;
    var i, z := s.files[h].inum, WrittenSize(s, sizes, h, |buf|);
    var (s', o) := WriteStep(s, h, buf);
    StepWrites(s, sizes, h, buf);
    FreeCountZero(s.blockTs);
    FreeCountZero(s'.blockTs);
    assert Shaped(s, i, sizes[i]);
    if o == NoBlock {
      StepBudget(s, sizes, h, [], s', z);
    }
  }

  lemma LoopStarts(s: Fs, sizes: seq<nat>, h: nat, buf: seq<byte>)
    requires Ready(s, sizes, h) && (|buf| > 0 ==> WriteStep(s, h, buf).1 != Done)
    ensures LoopEnds(s, sizes, h, buf, WriteLoop(s, h, buf).0, WriteLoop(s, h, buf).1)
  {
    hide WriteStep, Owned;
    var i, off, z := s.files[h].inum, s.files[h].offset, WrittenSize(s, sizes, h, |buf|);
    assert Shaped(s, i, sizes[i]);
    assert buf[..0] == [];
    if |buf| == 0 {
      WroteNothing(s, sizes, h);
      assert buf == [];
    } else {
      StepWrites(s, sizes, h, buf);
      StepStops(s, sizes, h, buf);
    }
  }

  lemma LoopContinues(s: Fs, s1: Fs, s2: Fs, sizes: seq<nat>, h: nat, a: seq<byte>, b: seq<byte>, o: Outcome)
    requires Ready(s, sizes, h) && Wrote(s, sizes, h, a, s1) && Usable(s2, h)
    requires var sizes1 := sizes[s.files[h].inum := WrittenSize(s, sizes, h, |a|)];
             Ready(s1, sizes1, h) && LoopEnds(s1, sizes1, h, b, s2, o)
    requires NoSpareIndex(s, s1, s.files[h].inum, WrittenSize(s, sizes, h, |a|))
    ensures LoopEnds(s, sizes, h, a + b, s2, o)
  {
    hide Owned, Shaped, Store, BlockAt, ByteAt, Patched, Overruns, Affordable;
    var i, z := s.files[h].inum, WrittenSize(s, sizes, h, |a + b|);
    StepBudget(s, sizes, h, a, s1, z);
    if o == Done {
      WroteCompose(s, s1, s2, sizes, h, a, b);
    } else if o == NoBlock {
      var w := s2.files[h].offset - s1.files[h].offset;
      WroteCompose(s, s1, s2, sizes, h, a, b[..w]);
      assert a + b[..w] == (a + b)[..|a| + w];
    }
  }

  lemma {:induction false} LoopWrites(s: Fs, sizes: seq<nat>, h: nat, buf: seq<byte>)
    requires Ready(s, sizes, h)
    ensures LoopEnds(s, sizes, h, buf, WriteLoop(s, h, buf).0, WriteLoop(s, h, buf).1)
    decreases |buf|
  {
    hide Owned, Shaped, Store, BlockAt, ByteAt, LoopEnds, WriteStep, Wrote;
    if |buf| > 0 && WriteStep(s, h, buf).1 == Done {
      var n, s1 := Chunk(s.files[h].offset, |buf|), WriteStep(s, h, buf).0;
      StepWrites(s, sizes, h, buf);
      WroteReady(s, sizes, h, buf[..n], s1);
      var sizes1 := sizes[s.files[h].inum := WrittenSize(s, sizes, h, n)];
      LoopWrites(s1, sizes1, h, buf[n..]);
      var (s2, o) := WriteLoop(s1, h, buf[n..]);
      LoopContinues(s, s1, s2, sizes, h, buf[..n], buf[n..], o);
      assert buf[..n] + buf[n..] == buf;
    } else {
      LoopStarts(s, sizes, h, buf);
    }
  }
}
