/** Creating, deleting and truncating files, opening and closing handles. */
module Lifecycle {
  import opened Config
  import opened FirstFit
  import opened MultiBlock
  import opened Ownership
  import opened FlatFile

  // ---------- what the freeing loops do ----------

  ghost predicate GapFree(xs: seq<int>) {
    && (forall q :: 0 <= q < |xs| ==> xs[q] == -1 || ValidBlock(xs[q]))
    && (forall q, q' :: 0 <= q < q' < |xs| && xs[q] == -1 ==> xs[q'] == -1)
  }

  // The allocation table with the listed blocks free.
  ghost predicate FreedList(ts: seq<Alloc>, ts': seq<Alloc>, xs: seq<int>) {
    && |ts| == |ts'| == DATA_BLOCKS
    && forall b :: 0 <= b < DATA_BLOCKS ==> ts'[b] == if b in xs then FREE else ts[b]
  }

  ghost predicate SlotsFreed(s: Fs, i: nat, k: nat, s': Fs)
    requires i < INODE_TABLE_SIZE && k <= INDIRECT_ACCESS_BLOCK
  {
    var xs := s.inodes[i].slots;
    && FreedList(s.blockTs, s'.blockTs, xs[k..INDIRECT_ACCESS_BLOCK])
    && s' == s.(blockTs := s'.blockTs, inodes := s.inodes[i := s'.inodes[i]])
    && s'.inodes[i] == s.inodes[i].(slots := s'.inodes[i].slots)
    && (forall q :: 0 <= q < BLOCKS ==> s'.inodes[i].slots[q] == if k <= q < INDIRECT_ACCESS_BLOCK then -1 else xs[q])
  }

  lemma NoSlotsLeft(s: Fs, i: nat, k: nat)
    requires i < INODE_TABLE_SIZE && k <= INDIRECT_ACCESS_BLOCK && GapFree(s.inodes[i].slots[k..INDIRECT_ACCESS_BLOCK])
    requires k == INDIRECT_ACCESS_BLOCK || s.inodes[i].slots[k] == -1
    ensures SlotsFreed(s, i, k, s)
  {
    var ys := s.inodes[i].slots[k..INDIRECT_ACCESS_BLOCK];
    assert |ys| > 0 ==> ys[0] == -1;
    assert forall q :: 0 <= q < |ys| ==> ys[q] == -1;
    assert forall q :: k <= q < INDIRECT_ACCESS_BLOCK ==> s.inodes[i].slots[q] == ys[q - k];
    assert s.inodes == s.inodes[i := s.inodes[i]];
  }

  lemma OneSlotFreed(s: Fs, i: nat, k: nat, s': Fs)
    requires i < INODE_TABLE_SIZE && k < INDIRECT_ACCESS_BLOCK && ValidBlock(s.inodes[i].slots[k])
    requires SlotsFreed(SetSlot(BlockFree(s, s.inodes[i].slots[k]), i, k, -1), i, k + 1, s')
    ensures SlotsFreed(s, i, k, s')
  {
    var xs, s1 := s.inodes[i].slots, SetSlot(BlockFree(s, s.inodes[i].slots[k]), i, k, -1);
    assert s1.inodes[i].slots[k + 1..INDIRECT_ACCESS_BLOCK] == xs[k + 1..INDIRECT_ACCESS_BLOCK];
    assert xs[k..INDIRECT_ACCESS_BLOCK] == [xs[k]] + xs[k + 1..INDIRECT_ACCESS_BLOCK];
    assert s.inodes[i := s'.inodes[i]] == s1.inodes[i := s'.inodes[i]];
  }

  lemma {:induction false} FreeDirectEffect(s: Fs, i: nat, k: nat)
    requires i < INODE_TABLE_SIZE && k <= INDIRECT_ACCESS_BLOCK
    requires GapFree(s.inodes[i].slots[k..INDIRECT_ACCESS_BLOCK])
    ensures FreeDirect(s, i, k).1 && SlotsFreed(s, i, k, FreeDirect(s, i, k).0)
    decreases INDIRECT_ACCESS_BLOCK - k
  {
    hide SlotsFreed;
    var xs := s.inodes[i].slots;
    if k == INDIRECT_ACCESS_BLOCK || xs[k] == -1 {
      NoSlotsLeft(s, i, k);
    } else {
      assert xs[k..INDIRECT_ACCESS_BLOCK][0] == xs[k];
      var s1 := SetSlot(BlockFree(s, xs[k]), i, k, -1);
      assert s1.inodes[i].slots[k + 1..INDIRECT_ACCESS_BLOCK] == xs[k..INDIRECT_ACCESS_BLOCK][1..];
      FreeDirectEffect(s1, i, k + 1);
      OneSlotFreed(s, i, k, FreeDirect(s1, i, k + 1).0);
    }
  }

  ghost predicate RefsFreed(s: Fs, x: nat, j: nat, s': Fs, stop: nat)
    requires x < DATA_BLOCKS && j <= INDIRECT_REFERENCES
  {
    var xs := s.blocks[x].refs;
    && FreedList(s.blockTs, s'.blockTs, xs[j..])
    && (stop == INDIRECT_REFERENCES <==> -1 !in xs[j..])
    && s' == s.(blockTs := s'.blockTs, blocks := s.blocks[x := s'.blocks[x]])
    && s'.blocks[x] == s.blocks[x].(refs := s'.blocks[x].refs)
    && (forall q :: 0 <= q < INDIRECT_REFERENCES ==> s'.blocks[x].refs[q] == if j <= q then -1 else xs[q])
  }

  lemma NoRefsLeft(s: Fs, x: nat, j: nat)
    requires x < DATA_BLOCKS && j <= INDIRECT_REFERENCES && GapFree(s.blocks[x].refs[j..])
    requires j == INDIRECT_REFERENCES || s.blocks[x].refs[j] == -1
    ensures RefsFreed(s, x, j, s, j)
  {
    var ys := s.blocks[x].refs[j..];
    assert |ys| > 0 ==> ys[0] == -1;
    assert forall q :: 0 <= q < |ys| ==> ys[q] == -1;
    assert forall q :: j <= q < INDIRECT_REFERENCES ==> s.blocks[x].refs[q] == ys[q - j];
    assert s.blocks == s.blocks[x := s.blocks[x]];
  }

  lemma OneRefFreed(s: Fs, x: nat, j: nat, s': Fs, stop: nat)
    requires x < DATA_BLOCKS && j < INDIRECT_REFERENCES && ValidBlock(s.blocks[x].refs[j])
    requires RefsFreed(SetRef(BlockFree(s, s.blocks[x].refs[j]), x, j, -1), x, j + 1, s', stop)
    ensures RefsFreed(s, x, j, s', stop)
  {
    var xs, s1 := s.blocks[x].refs, SetRef(BlockFree(s, s.blocks[x].refs[j]), x, j, -1);
    assert xs[j..] == [xs[j]] + s1.blocks[x].refs[j + 1..];
    assert s.blocks[x := s'.blocks[x]] == s1.blocks[x := s'.blocks[x]];
  }

  lemma {:induction false} FreeRefsEffect(s: Fs, x: nat, j: nat)
    requires x < DATA_BLOCKS && j <= INDIRECT_REFERENCES && GapFree(s.blocks[x].refs[j..])
    ensures var (s', ok, stop) := FreeRefs(s, x, j); ok && RefsFreed(s, x, j, s', stop)
    decreases INDIRECT_REFERENCES - j
  {
    hide RefsFreed;
    var xs := s.blocks[x].refs;
    if j == INDIRECT_REFERENCES || xs[j] == -1 {
      NoRefsLeft(s, x, j);
    } else {
      assert xs[j..][0] == xs[j];
      var s1 := SetRef(BlockFree(s, xs[j]), x, j, -1);
      assert s1.blocks[x].refs[j + 1..] == xs[j..][1..];
      FreeRefsEffect(s1, x, j + 1);
      var (s', _, stop) := FreeRefs(s1, x, j + 1);
      OneRefFreed(s, x, j, s', stop);
    }
  }

  function PartsOf(s: Fs, i: nat): set<int>
    requires i < INODE_TABLE_SIZE
  {
    set r: nat | r <= INDEX :: BlockAt(s, i, r)
  }

  // All blocks of file i are free, its direct slots and its references are cleared, slot 10 is not.
  ghost predicate Released(s: Fs, s': Fs, i: nat)
    requires i < INODE_TABLE_SIZE
  {
    var x := s.inodes[i].slots[INDIRECT_ACCESS_BLOCK];
    && (forall b :: 0 <= b < DATA_BLOCKS ==> s'.blockTs[b] == if b in PartsOf(s, i) then FREE else s.blockTs[b])
    && s'.inodeTs == s.inodeTs && s'.fileTs == s.fileTs && s'.files == s.files
    && (forall j :: 0 <= j < INODE_TABLE_SIZE && j != i ==> s'.inodes[j] == s.inodes[j])
    && s'.inodes[i].kind == s.inodes[i].kind && s'.inodes[i].size == s.inodes[i].size
    && (forall q :: 0 <= q < INDIRECT_ACCESS_BLOCK ==> s'.inodes[i].slots[q] == -1)
    && s'.inodes[i].slots[INDIRECT_ACCESS_BLOCK] == x
    && (forall b :: 0 <= b < DATA_BLOCKS ==>
          && s'.blocks[b].entries == s.blocks[b].entries && s'.blocks[b].bytes == s.blocks[b].bytes
          && (b != x ==> s'.blocks[b].refs == s.blocks[b].refs))
    && (ValidBlock(x) ==> forall q :: 0 <= q < INDIRECT_REFERENCES ==> s'.blocks[x].refs[q] == -1)
  }

  ghost predicate PartsValid(s: Fs, i: nat)
    requires i < INODE_TABLE_SIZE
  {
    forall r: nat :: r <= INDEX ==> BlockAt(s, i, r) == -1 || ValidBlock(BlockAt(s, i, r))
  }

  lemma ShapedGapFree(s: Fs, i: nat, z: nat)
    requires Shaped(s, i, z) && s.inodes[i].kind == T_FILE && PartsValid(s, i)
    ensures GapFree(s.inodes[i].slots[0..INDIRECT_ACCESS_BLOCK])
    ensures ValidBlock(BlockAt(s, i, INDEX)) ==> GapFree(s.blocks[BlockAt(s, i, INDEX)].refs[0..])
    ensures ValidBlock(BlockAt(s, i, INDEX)) ==>
              (-1 !in s.blocks[BlockAt(s, i, INDEX)].refs[0..] <==> CeilBlocks(z) == INDEX)
  {
    var slots := s.inodes[i].slots;
    forall q | 0 <= q < INDIRECT_ACCESS_BLOCK
      ensures slots[0..INDIRECT_ACCESS_BLOCK][q] == BlockAt(s, i, q)
    {}
    if ValidBlock(BlockAt(s, i, INDEX)) {
      var refs := s.blocks[BlockAt(s, i, INDEX)].refs;
      forall q: nat | q < INDIRECT_REFERENCES
        ensures refs[0..][q] == BlockAt(s, i, q + INDIRECT_ACCESS_BLOCK)
      {}
      assert refs[0..][INDIRECT_REFERENCES - 1] == BlockAt(s, i, INDEX - 1);
    }
  }

  // A file of all 266 blocks whose index block is the last block there is.
  predicate AtTheEdge(s: Fs, i: nat, z: nat)
    requires i < INODE_TABLE_SIZE
  {
    CeilBlocks(z) == INDEX && s.inodes[i].slots[INDIRECT_ACCESS_BLOCK] == DATA_BLOCKS - 1
  }

  lemma ReleasedBlocks(s: Fs, i: nat, z: nat, boundFirst: bool)
    requires Shaped(s, i, z) && s.inodes[i].kind == T_FILE && PartsValid(s, i)
    ensures var (s', r) := FreeBlocks(s, i, boundFirst);
            && (r == Undefined <==> !boundFirst && AtTheEdge(s, i, z))
            && (r == Ret(0) <==> boundFirst || !AtTheEdge(s, i, z))
            && (r == Ret(0) ==> Released(s, s', i))
  {
    ShapedGapFree(s, i, z);
    FreeDirectEffect(s, i, 0);
    var s1, x := FreeDirect(s, i, 0).0, s.inodes[i].slots[INDIRECT_ACCESS_BLOCK];
    assert BlockAt(s, i, INDEX) == x;
    if x == -1 {
      DirectParts(s, i);
      assert CeilBlocks(z) != INDEX;
    } else {
      FreeRefsEffect(s1, x, 0);
      AllParts(s, i);
    }
  }

  lemma DirectParts(s: Fs, i: nat)
    requires i < INODE_TABLE_SIZE && s.inodes[i].kind == T_FILE && s.inodes[i].slots[INDIRECT_ACCESS_BLOCK] == -1
    ensures forall b :: 0 <= b < DATA_BLOCKS ==> (b in PartsOf(s, i) <==> b in s.inodes[i].slots[0..INDIRECT_ACCESS_BLOCK])
  {
    forall b | 0 <= b < DATA_BLOCKS && b in s.inodes[i].slots[0..INDIRECT_ACCESS_BLOCK] ensures b in PartsOf(s, i) {
      var q :| 0 <= q < INDIRECT_ACCESS_BLOCK && s.inodes[i].slots[q] == b;
      assert BlockAt(s, i, q) == b;
    }
  }

  lemma AllParts(s: Fs, i: nat)
    requires i < INODE_TABLE_SIZE && s.inodes[i].kind == T_FILE && ValidBlock(s.inodes[i].slots[INDIRECT_ACCESS_BLOCK])
    ensures var x := s.inodes[i].slots[INDIRECT_ACCESS_BLOCK];
            forall b :: 0 <= b < DATA_BLOCKS ==>
              (b in PartsOf(s, i) <==> b in s.inodes[i].slots[0..INDIRECT_ACCESS_BLOCK] || b == x || b in s.blocks[x].refs[0..])
  {
    var x := s.inodes[i].slots[INDIRECT_ACCESS_BLOCK];
    forall b | 0 <= b < DATA_BLOCKS
      ensures b in PartsOf(s, i) <==> b in s.inodes[i].slots[0..INDIRECT_ACCESS_BLOCK] || b == x || b in s.blocks[x].refs[0..]
    {
      if b in s.inodes[i].slots[0..INDIRECT_ACCESS_BLOCK] {
        var q :| 0 <= q < INDIRECT_ACCESS_BLOCK && s.inodes[i].slots[q] == b;
        assert BlockAt(s, i, q) == b;
      }
      if b in s.blocks[x].refs[0..] {
        var q :| 0 <= q < INDIRECT_REFERENCES && s.blocks[x].refs[q] == b;
        assert BlockAt(s, i, q + INDIRECT_ACCESS_BLOCK) == b;
      }
      assert BlockAt(s, i, INDEX) == x;
    }
  }

  // ---------- ownership after a release ----------

  lemma ReleasedFrame(s: Fs, sizes: seq<nat>, s': Fs, i: nat)
    requires Store(s, sizes) && LiveFile(s, i) && Released(s, s', i)
    ensures OtherParts(s, s', i)
    ensures forall j: nat, p: nat :: LiveFile(s, j) && j != i && p < MAX_FILE_BYTES ==> ByteAt(s', j, p) == ByteAt(s, j, p)
  {
    forall j: nat, q: nat | Live(s, j) && j != i && q <= INDEX ensures BlockAt(s', j, q) == BlockAt(s, j, q) {
      ValidParts(s, sizes, j, INDEX);
      NoAliasing(s, sizes, i, INDEX, j, INDEX);
    }
  }

  // s' keeps the other inodes' blocks and frees those of i; inode i has none left, or is free.
  lemma DropOwner(s: Fs, s': Fs, i: nat)
    requires exists owner :: Owned(s, owner)
    requires Live(s, i) && OtherParts(s, s', i)
    requires forall j: nat :: j < INODE_TABLE_SIZE && j != i ==> s'.inodeTs[j] == s.inodeTs[j]
    requires forall b :: 0 <= b < DATA_BLOCKS ==> s'.blockTs[b] == if b in PartsOf(s, i) then FREE else s.blockTs[b]
    requires Live(s', i) ==> forall r: nat :: r <= INDEX ==> BlockAt(s', i, r) == -1
    ensures exists owner :: Owned(s', owner)
  {
    var owner: map<int, Role> :| Owned(s, owner);
    var owner' := map b | b in owner && owner[b].inum != i :: owner[b];
    forall b | 0 <= b < DATA_BLOCKS ensures s'.blockTs[b] == TAKEN <==> b in owner' {
      if b in owner && owner[b].inum == i {
        assert BlockAt(s, i, owner[b].part) == b;
      }
    }
    assert Owned(s', owner');
  }

  // Everything but inode i as in s, and i either free or an empty file.
  lemma DropStore(s: Fs, s': Fs, sizes: seq<nat>, i: nat)
    requires Store(s, sizes) && LiveFile(s, i) && OtherParts(s, s', i)
    requires forall j: nat :: j < INODE_TABLE_SIZE && j != i ==> s'.inodeTs[j] == s.inodeTs[j] && s'.inodes[j] == s.inodes[j]
    requires forall b :: 0 <= b < DATA_BLOCKS ==> s'.blockTs[b] == if b in PartsOf(s, i) then FREE else s.blockTs[b]
    requires Live(s', i) ==> s'.inodes[i].kind == T_FILE && forall r: nat :: r <= INDEX ==> BlockAt(s', i, r) == -1
    ensures Store(s', sizes[i := 0])
  {
    DropOwner(s, s', i);
    StoreBut(s, s', sizes, i);
  }

  lemma StoreBut(s: Fs, s': Fs, sizes: seq<nat>, i: nat)
    requires Store(s, sizes) && 0 < i < INODE_TABLE_SIZE && exists owner :: Owned(s', owner)
    requires OtherParts(s, s', i)
    requires forall j: nat :: j < INODE_TABLE_SIZE && j != i ==> s'.inodeTs[j] == s.inodeTs[j] && s'.inodes[j] == s.inodes[j]
    requires Live(s', i) ==> s'.inodes[i].kind == T_FILE && forall r: nat :: r <= INDEX ==> BlockAt(s', i, r) == -1
    ensures Store(s', sizes[i := 0])
  {
    hide Owned, BlockAt;
    forall j: nat | 0 < j && Live(s', j) ensures LiveFile(s', j) && Shaped(s', j, sizes[i := 0][j]) {
      if j != i {
        assert LiveFile(s, j) && Shaped(s, j, sizes[j]);
      }
    }
  }

  lemma PartsAreValid(s: Fs, sizes: seq<nat>, i: nat)
    requires Store(s, sizes) && Live(s, i)
    ensures PartsValid(s, i)
  {
    forall r: nat | r <= INDEX ensures BlockAt(s, i, r) == -1 || ValidBlock(BlockAt(s, i, r)) {
      ValidParts(s, sizes, i, r);
    }
  }

  // ---------- truncation ----------

  lemma TruncateFrees(s: Fs, i: nat)
    requires Store(s, SizesOf(s)) && LiveFile(s, i) && s.inodes[i].size > 0
    ensures var (s', r) := Truncate(s, i);
            && r == Ret(0)
            && exists s1 :: Released(s, s1, i) && s' == SetSize(s1, i, 0)
  {
    PartsAreValid(s, SizesOf(s), i);
    assert Shaped(s, i, SizesOf(s)[i]);
    ReleasedBlocks(s, i, s.inodes[i].size, true);
    var s1 := FreeBlocks(s, i, true).0;
    assert Released(s, s1, i) && Truncate(s, i).0 == SetSize(s1, i, 0);
  }

  // Truncation keeps exact ownership exactly for files without an index block: slot 10
  // otherwise goes on naming a block that is free.
  lemma TruncateStore(s: Fs, i: nat)
    requires Store(s, SizesOf(s)) && LiveFile(s, i) && s.inodes[i].size > 0
    ensures Truncate(s, i).1 == Ret(0)
    ensures Store(Truncate(s, i).0, SizesOf(Truncate(s, i).0)) <==> BlockAt(s, i, INDEX) == -1
    ensures BlockAt(s, i, INDEX) != -1 ==>
              var b := BlockAt(Truncate(s, i).0, i, INDEX);
              ValidBlock(b) && Truncate(s, i).0.blockTs[b] == FREE
  {
    hide FreeBlocks, Owned;
    TruncateFrees(s, i);
    var s' := Truncate(s, i).0;
    var s1 :| Released(s, s1, i) && s' == SetSize(s1, i, 0);
    if BlockAt(s, i, INDEX) == -1 {
      ReleasedFrame(s, SizesOf(s), s1, i);
      TruncatedParts(s1, i);
      DropStore(s, s', SizesOf(s), i);
      assert SizesOf(s') == SizesOf(s)[i := 0];
    } else {
      ValidParts(s, SizesOf(s), i, INDEX);
      StaleIndex(s, s', i);
    }
  }

  lemma TruncatedParts(s1: Fs, i: nat)
    requires i < INODE_TABLE_SIZE && s1.inodes[i].kind == T_FILE && s1.inodes[i].slots[INDIRECT_ACCESS_BLOCK] == -1
    requires forall q :: 0 <= q < INDIRECT_ACCESS_BLOCK ==> s1.inodes[i].slots[q] == -1
    ensures forall r: nat :: r <= INDEX ==> BlockAt(SetSize(s1, i, 0), i, r) == -1
    ensures forall j: nat, r: nat :: j < INODE_TABLE_SIZE && r <= INDEX ==> BlockAt(SetSize(s1, i, 0), j, r) == BlockAt(s1, j, r)
  {}

  lemma StaleIndex(s: Fs, s': Fs, i: nat)
    requires LiveFile(s', i) && s'.inodes[i].size == 0 && LiveFile(s, i)
    requires BlockAt(s, i, INDEX) != -1 && s'.inodes[i].slots[INDIRECT_ACCESS_BLOCK] == s.inodes[i].slots[INDIRECT_ACCESS_BLOCK]
    ensures !Store(s', SizesOf(s'))
  {
    assert BlockAt(s', i, INDEX) != -1;
    assert !Shaped(s', i, 0);
  }

  // ---------- creating and deleting ----------

  lemma FreshFile(s: Fs)
    requires Store(s, SizesOf(s)) && FirstFree(s.inodeTs) != -1
    ensures var (s', i) := InodeCreate(s, T_FILE);
            && i == FirstFree(s.inodeTs) > 0 && !Live(s, i)
            && Store(s', SizesOf(s')) && LiveFile(s', i) && OtherParts(s, s', i)
            && s' == s.(inodeTs := s.inodeTs[i := TAKEN], inodes := s.inodes[i := Inode(T_FILE, 0, seq(BLOCKS, _ => -1))])
            && (forall r: nat :: r <= INDEX ==> BlockAt(s', i, r) == -1)
  {
    var i, s' := FirstFree(s.inodeTs), InodeCreate(s, T_FILE).0;
    FreshOwner(s, s', i);
    StoreBut(s, s', SizesOf(s), i);
    assert SizesOf(s') == SizesOf(s)[i := 0];
  }

  lemma FreshOwner(s: Fs, s': Fs, i: nat)
    requires exists owner :: Owned(s, owner)
    requires i < INODE_TABLE_SIZE && !Live(s, i) && s'.blockTs == s.blockTs && OtherParts(s, s', i)
    requires forall j: nat :: j < INODE_TABLE_SIZE && j != i ==> s'.inodeTs[j] == s.inodeTs[j]
    requires forall r: nat :: r <= INDEX ==> BlockAt(s', i, r) == -1
    ensures exists owner :: Owned(s', owner)
  {
    var owner: map<int, Role> :| Owned(s, owner);
    assert Owned(s', owner);
  }

  // inode_delete on a file that nothing refers to: exactly the file's blocks become free.
  // It has no meaning exactly for a file of all 266 blocks whose index block is the last block.
  lemma DeleteReleases(s: Fs, i: nat)
    requires Store(s, SizesOf(s)) && LiveFile(s, i)
    ensures var (s', r) := InodeDelete(s, i);
            && (r == Undefined <==> AtTheEdge(s, i, s.inodes[i].size))
            && (r == Ret(0) <==> !AtTheEdge(s, i, s.inodes[i].size))
            && (r == Ret(0) ==>
                  && Store(s', SizesOf(s)[i := 0]) && !Live(s', i) && OtherParts(s, s', i)
                  && s'.inodeTs == s.inodeTs[i := FREE] && s'.files == s.files && s'.fileTs == s.fileTs
                  && (forall b :: 0 <= b < DATA_BLOCKS ==> s'.blockTs[b] == if b in PartsOf(s, i) then FREE else s.blockTs[b])
                  && (forall j :: 0 <= j < INODE_TABLE_SIZE && j != i ==> s'.inodes[j] == s.inodes[j])
                  && (forall b :: 0 <= b < DATA_BLOCKS ==> s'.blocks[b].entries == s.blocks[b].entries)
                  && (forall j: nat, p: nat :: LiveFile(s, j) && j != i && p < MAX_FILE_BYTES ==>
                        ByteAt(s', j, p) == ByteAt(s, j, p)))
  {
    hide FreeBlocks, Owned;
    var s0 := s.(inodeTs := s.inodeTs[i := FREE]);
    PartsAreValid(s, SizesOf(s), i);
    assert Shaped(s, i, SizesOf(s)[i]);
    assert forall r: nat :: r <= INDEX ==> BlockAt(s0, i, r) == BlockAt(s, i, r);
    if s.inodes[i].size > 0 {
      DeleteUnlinks(s, s0, i);
    } else {
      assert forall r: nat :: r < INDEX ==> BlockAt(s, i, r) == -1;
      assert BlockAt(s, i, INDEX) == -1;
      DropStore(s, s0, SizesOf(s), i);
    }
  }

  lemma DeleteUnlinks(s: Fs, s0: Fs, i: nat)
    requires Store(s, SizesOf(s)) && LiveFile(s, i) && PartsValid(s, i) && Shaped(s, i, s.inodes[i].size)
    requires s0 == s.(inodeTs := s.inodeTs[i := FREE])
    ensures var (s', r) := FreeBlocks(s0, i, false);
            && (r == Undefined <==> AtTheEdge(s, i, s.inodes[i].size))
            && (r == Ret(0) <==> !AtTheEdge(s, i, s.inodes[i].size))
            && (r == Ret(0) ==>
                  && Released(s0, s', i) && OtherParts(s, s', i) && PartsOf(s0, i) == PartsOf(s, i)
                  && Store(s', SizesOf(s)[i := 0])
                  && (forall j: nat, p: nat :: LiveFile(s, j) && j != i && p < MAX_FILE_BYTES ==>
                        ByteAt(s', j, p) == ByteAt(s, j, p)))
  {
    hide FreeBlocks, Owned;
    assert forall r: nat :: r <= INDEX ==> BlockAt(s0, i, r) == BlockAt(s, i, r);
    ReleasedBlocks(s0, i, s.inodes[i].size, false);
    var (s', r) := FreeBlocks(s0, i, false);
    if r == Ret(0) {
      var s1 := s'.(inodeTs := s.inodeTs);
      assert PartsOf(s0, i) == PartsOf(s, i);
      assert Released(s, s1, i);
      ReleasedFrame(s, SizesOf(s), s1, i);
      assert forall j: nat, q: nat :: j < INODE_TABLE_SIZE && q <= INDEX ==> BlockAt(s', j, q) == BlockAt(s1, j, q);
      DropStore(s, s', SizesOf(s), i);
    }
  }

  // An inode that is not in use is refused. Deleting the directory leaves its block TAKEN.
  lemma DeleteOthers(s: Fs, i: int)
    requires Store(s, SizesOf(s))
    ensures !ValidInumber(i) || s.inodeTs[i] == FREE ==> InodeDelete(s, i) == (s, Fail)
    ensures i == ROOT_DIR_INUM ==> var (s', r) := InodeDelete(s, i);
              && r == Ret(0) && s' == s.(inodeTs := s.inodeTs[i := FREE])
              && s'.blockTs[s'.inodes[i].slots[0]] == TAKEN
  {
    hide Owned;
    if i == ROOT_DIR_INUM { ValidParts(s, SizesOf(s), i, 0); }
  }

  // The allocation table is determined by the blocks of the live inodes.
  lemma PartsDetermineTable(s: Fs, s': Fs, sizes: seq<nat>, sizes': seq<nat>)
    requires Store(s, sizes) && Store(s', sizes') && s'.inodeTs == s.inodeTs
    requires forall j: nat, q: nat :: Live(s, j) && q <= INDEX ==> BlockAt(s', j, q) == BlockAt(s, j, q)
    ensures s'.blockTs == s.blockTs
  {
    var owner: map<int, Role> :| Owned(s, owner);
    var owner': map<int, Role> :| Owned(s', owner');
    forall b | 0 <= b < DATA_BLOCKS ensures s'.blockTs[b] == s.blockTs[b] {
      if b in owner { assert BlockAt(s', owner[b].inum, owner[b].part) == b; }
      if b in owner' { assert BlockAt(s, owner'[b].inum, owner'[b].part) == b; }
    }
  }
}
