/** The invariant of the second version and the bounds it implies. */
module SingleBlockInv {
  import opened Config
  import opened FirstFit
  import opened Directory
  import opened SingleBlock

  ghost predicate Live(s: Fs, i: int) { ValidInumber(i) && s.inodeTs[i] == TAKEN }

  ghost predicate LiveFile(s: Fs, i: int) { i > 0 && Live(s, i) && s.inodes[i].kind == T_FILE }

  // The inodes that own a block: the root, and the files that are not empty. An empty file
  // may still name the block it had before a truncation.
  ghost predicate Holder(s: Fs, i: int) { Live(s, i) && (i == ROOT_DIR_INUM || s.inodes[i].size > 0) }

  // owner is the one-to-one correspondence between TAKEN blocks and holders.
  ghost predicate Owned(s: Fs, owner: map<int, int>) {
    && (forall b :: 0 <= b < DATA_BLOCKS ==> (s.blockTs[b] == TAKEN <==> b in owner))
    && (forall b :: b in owner ==> ValidBlock(b) && Holder(s, owner[b]) && s.inodes[owner[b]].block == b)
    && (forall i :: Holder(s, i) ==> s.inodes[i].block in owner && owner[s.inodes[i].block] == i)
  }

  ghost predicate FilesOk(s: Fs) {
    && Live(s, ROOT_DIR_INUM) && HasDirectory(s) && s.inodes[ROOT_DIR_INUM].block == 0
    && (forall i :: i > 0 && Live(s, i) ==>
          && LiveFile(s, i) && s.inodes[i].size <= BLOCK_SIZE
          && (s.inodes[i].block == -1 || 0 < s.inodes[i].block < DATA_BLOCKS))
    && exists owner :: Owned(s, owner)
  }

  ghost predicate OpenHandle(s: Fs, h: int) { ValidHandle(h) && s.fileTs[h] == TAKEN }

  // A read behind the end of a truncated file may take an offset past the block.
  ghost predicate HandlesOk(s: Fs) {
    forall h :: OpenHandle(s, h) ==>
      && LiveFile(s, s.files[h].inum) && s.files[h].offset <= DATA_BLOCKS * BLOCK_SIZE
      && (s.files[h].offset > 0 ==> ValidBlock(s.inodes[s.files[h].inum].block))
  }

  ghost predicate Entry(es: Entries, k: int) { 0 <= k < MAX_DIR_ENTRIES && es[k].inum != -1 }

  // Entries and live files are in one-to-one correspondence; the entries fill up from the front.
  ghost predicate DirectoryOk(s: Fs, es: Entries) {
    && StoredNames(es)
    && (forall k :: Entry(es, k) ==> LiveFile(s, es[k].inum) && |es[k].name| > 0)
    && (forall j, k :: Entry(es, j) && Entry(es, k) && es[j].inum == es[k].inum ==> j == k)
    && (forall i :: LiveFile(s, i) ==> exists k :: Entry(es, k) && es[k].inum == i)
    && (forall j, k :: 0 <= j < k && Entry(es, k) ==> Entry(es, j))
  }

  ghost predicate Inv(s: Fs) {
    FilesOk(s) && HandlesOk(s) && DirectoryOk(s, RootEntries(s))
  }

  // ---------- bounds ----------

  function Elements(xs: seq<int>): set<int> { set x | x in xs }

  lemma {:induction false} ElementsBound(xs: seq<int>)
    ensures |Elements(xs)| <= |xs|
    decreases |xs|
  {
    if |xs| > 0 {
      ElementsBound(xs[1..]);
      assert xs == [xs[0]] + xs[1..];
      assert Elements(xs) == Elements(xs[1..]) + {xs[0]};
    }
  }

  lemma SubsetBound(a: set<int>, b: set<int>)
    requires a <= b
    ensures |a| <= |b|
  {
    assert a + (b - a) == b;
  }

  function TakenIn(ts: seq<Alloc>): set<int> { set i | 0 <= i < |ts| && ts[i] == TAKEN }

  lemma {:induction false} FullTable(ts: seq<Alloc>)
    requires FREE !in ts
    ensures |TakenIn(ts)| == |ts|
    decreases |ts|
  {
    if |ts| > 0 {
      var n := |ts| - 1;
      FullTable(ts[..n]);
      assert ts[n] == TAKEN;
      assert TakenIn(ts) == TakenIn(ts[..n]) + {n};
    } else {
      assert TakenIn(ts) == {};
    }
  }

  function LiveFiles(s: Fs): set<int> { TakenIn(s.inodeTs) - {ROOT_DIR_INUM} }

  function TakenBlocks(s: Fs): set<int> { TakenIn(s.blockTs) }

  function EntryInums(es: Entries): seq<int>
  {
    seq(MAX_DIR_ENTRIES, k requires 0 <= k < MAX_DIR_ENTRIES => es[k].inum)
  }

  // The directory bounds the inode table: at most 23 files exist.
  lemma AtMost23Files(s: Fs)
    requires Inv(s)
    ensures |LiveFiles(s)| <= MAX_DIR_ENTRIES
    ensures FirstFree(s.inodeTs) != -1
  {
    var xs := EntryInums(RootEntries(s));
    ElementsBound(xs);
    forall i | i in LiveFiles(s) ensures i in Elements(xs) {
      assert LiveFile(s, i);
      var k :| Entry(RootEntries(s), k) && RootEntries(s)[k].inum == i;
      assert xs[k] == i;
    }
    SubsetBound(LiveFiles(s), Elements(xs));
    if FirstFree(s.inodeTs) == -1 {
      FullTable(s.inodeTs);
    }
  }

  function FileBlocks(s: Fs, es: Entries): seq<int>
    requires HasDirectory(s)
  {
    [s.inodes[ROOT_DIR_INUM].block]
    + seq(MAX_DIR_ENTRIES, k requires 0 <= k < MAX_DIR_ENTRIES =>
          if ValidInumber(es[k].inum) then s.inodes[es[k].inum].block else -1)
  }

  // And it bounds the block table: at most 24 of the 1024 blocks are TAKEN.
  lemma AtMost24Blocks(s: Fs)
    requires Inv(s)
    ensures |TakenBlocks(s)| <= MAX_DIR_ENTRIES + 1
    ensures FirstFree(s.blockTs) != -1
  {
    var es := RootEntries(s);
    var xs := FileBlocks(s, es);
    ElementsBound(xs);
    var owner: map<int, int> :| Owned(s, owner);
    forall b | b in TakenBlocks(s) ensures b in Elements(xs) {
      var i := owner[b];
      if i == ROOT_DIR_INUM {
        assert xs[0] == b;
      } else {
        assert LiveFile(s, i);
        var k :| Entry(es, k) && es[k].inum == i;
        assert xs[k + 1] == b;
      }
    }
    SubsetBound(TakenBlocks(s), Elements(xs));
    if FirstFree(s.blockTs) == -1 {
      FullTable(s.blockTs);
    }
  }
}
