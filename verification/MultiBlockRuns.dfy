/** Whole runs of the first version: exact ownership in every reachable state, conservation,
    the full round trip, and the copy loop. */
module MultiBlockRuns {
  import opened Config
  import opened FirstFit
  import opened Directory
  import opened MultiBlock
  import opened Ownership
  import opened FlatFile
  import opened Reading
  import opened Lifecycle
  import opened Opening

  datatype Call =
    | OpenCall(name: string, flags: Flags)
    | CloseCall(h: int)
    | WriteCall(h: int, buf: seq<byte>)
    | ReadCall(h: int, len: nat)
    | CreateCall        // inode_create of a file, as from within tfs_open
    | DeleteCall(i: nat)

  function Apply(s: Fs, c: Call): Fs
  {
    match c
    case OpenCall(name, flags) => Open(s, name, flags).0
    case CloseCall(h) => Close(s, h).0
    case WriteCall(h, buf) => Write(s, h, buf).0
    case ReadCall(h, len) => Read(s, h, len).0
    case CreateCall => InodeCreate(s, T_FILE).0
    case DeleteCall(i) => InodeDelete(s, i).0
  }

  // No handle is open on file i and no entry names it.
  ghost predicate Unreferenced(s: Fs, i: nat) {
    && (forall h: nat :: OpenHandle(s, h) ==> s.files[h].inum != i)
    && (ValidBlock(s.inodes[ROOT_DIR_INUM].slots[0]) ==>
          forall k :: 0 <= k < MAX_DIR_ENTRIES ==> RootEntries(s)[k].inum != i)
  }

  // What a caller must respect: reads and writes go through open handles, a write that runs out
  // of blocks began at the end of the file, a file is truncated only if it has at most ten
  // blocks and nobody is inside it, and deleted only if nothing refers to it and the test of
  // its last reference stays inside the memory.
  ghost predicate Allowed(s: Fs, c: Call) {
    match c
    case OpenCall(name, flags) =>
      var i := LookupPath(s, name);
      0 < i < INODE_TABLE_SIZE && flags.trunc && s.inodes[i].size > 0 ==> TruncSafe(s, i)
    case CloseCall(h) => true
    case WriteCall(h, buf) =>
      && OpenHandle(s, h) && Usable(s, h)
      && (Write(s, h, buf).1.Ret? || (Write(s, h, buf).1.Fail? && s.files[h].offset == s.inodes[s.files[h].inum].size))
    case ReadCall(h, len) => OpenHandle(s, h)
    case CreateCall => true
    case DeleteCall(i) => LiveFile(s, i) && Unreferenced(s, i) && !AtTheEdge(s, i, s.inodes[i].size)
  }

  function Run(s: Fs, cs: seq<Call>): Fs
    decreases |cs|
  {
    if |cs| == 0 then s else Run(Apply(s, cs[0]), cs[1..])
  }

  ghost predicate AllowedRun(s: Fs, cs: seq<Call>)
    decreases |cs|
  {
    |cs| == 0 || (Allowed(s, cs[0]) && AllowedRun(Apply(s, cs[0]), cs[1..]))
  }

  predicate Succeeds(s: Fs, c: Call) { c.WriteCall? ==> Write(s, c.h, c.buf).1.Ret? }

  // A run in which no write runs out of blocks.
  predicate SucceedingRun(s: Fs, cs: seq<Call>)
    decreases |cs|
  {
    |cs| == 0 || (Succeeds(s, cs[0]) && SucceedingRun(Apply(s, cs[0]), cs[1..]))
  }

  lemma ApplyInv(s: Fs, c: Call)
    requires Inv(s) && Allowed(s, c)
    ensures Inv(Apply(s, c))
  {
    hide Inv, Open, Close, Write, Read;
    match c {
      case OpenCall(name, flags) =>
        OpenInv(s, name, flags);
        LookupLive(s, name);
      case CloseCall(h) => CloseInv(s, h);
      case WriteCall(h, buf) =>
        WriteRefinesSplice(s, h, buf);
        if Write(s, h, buf).1 == Fail { FailedWrite(s, h, buf); }
      case ReadCall(h, len) => ReadRefinesSlice(s, h, len);
      case CreateCall => if FirstFree(s.inodeTs) != -1 { FreshInv(s); }
      case DeleteCall(i) => DeleteInv(s, i);
    }
  }

  lemma DeleteInv(s: Fs, i: nat)
    requires Inv(s) && LiveFile(s, i) && Unreferenced(s, i) && !AtTheEdge(s, i, s.inodes[i].size)
    ensures var s' := InodeDelete(s, i).0;
            && Inv(s') && OtherParts(s, s', i) && s'.inodeTs == s.inodeTs[i := FREE]
            && (forall j :: 0 <= j < INODE_TABLE_SIZE && j != i ==> s'.inodes[j] == s.inodes[j])
  {
    hide Owned, Shaped, InodeDelete, BlockAt;
    DeleteReleases(s, i);
    var s' := InodeDelete(s, i).0;
    DeadSizes(s', SizesOf(s)[i := 0], SizesOf(s'));
    assert forall h: nat :: OpenHandle(s', h) <==> OpenHandle(s, h);
  }

  // The size of an inode that is not in use does not matter.
  lemma DeadSizes(s: Fs, sizes: seq<nat>, sizes': seq<nat>)
    requires Store(s, sizes) && |sizes'| == INODE_TABLE_SIZE
    requires forall j: nat :: Live(s, j) && j > 0 ==> sizes'[j] == sizes[j]
    ensures Store(s, sizes')
  {
    hide Owned, Shaped;
  }

  // ---------- tidiness ----------

  lemma TidyByParts(s: Fs, s': Fs)
    requires Tidy(s)
    requires forall j: nat :: LiveFile(s', j) ==>
               || (LiveFile(s, j) && s'.inodes[j].size == s.inodes[j].size && BlockAt(s', j, INDEX) == BlockAt(s, j, INDEX))
               || (s'.inodes[j].size == 0 && BlockAt(s', j, INDEX) == -1)
    ensures Tidy(s')
  {}

  lemma OpenTidy(s: Fs, name: string, flags: Flags)
    requires Inv(s) && Tidy(s) && Allowed(s, OpenCall(name, flags))
    ensures Tidy(Open(s, name, flags).0)
  {
    hide Owned, Shaped, Store, FreeBlocks;
    LookupLive(s, name);
    var i, s' := LookupPath(s, name), Open(s, name, flags).0;
    if i > 0 {
      if flags.trunc && s.inodes[i].size > 0 {
        TruncateFrees(s, i);
        TruncateInv(s, i);
      }
      TidyByParts(s, s');
    } else if flags.creat && ValidPathname(name) && FirstFree(s.inodeTs) != -1 {
      FreshFile(s);
      NewTidy(s, name);
    }
  }

  lemma NewTidy(s: Fs, name: string)
    requires Inv(s) && Tidy(s) && ValidPathname(name) && FirstFree(s.inodeTs) != -1
    ensures Tidy(OpenNew(s, name).0)
  {
    hide Owned, Shaped, Store, FindInDir, AddSlot, BlockAt;
    FreshFile(s);
    FreshInv(s);
    var (s1, i) := InodeCreate(s, T_FILE);
    var (s2, ok) := AddDirEntry(s1, i, name[1..]);
    EntryInv(s1, i, name[1..]);
    TidyByParts(s, s1);
    if ok {
      TidyByParts(s1, s2);
      AddHandleInv(s2, i, 0);
      TidyByParts(s2, AddToOpenFileTable(s2, i, 0).0);
    } else {
      DeleteEmpty(s1, i);
      TidyByParts(s1, InodeDelete(s1, i).0);
    }
  }

  lemma DeleteEmpty(s: Fs, i: nat)
    requires LiveFile(s, i) && s.inodes[i].size == 0
    ensures InodeDelete(s, i).0 == s.(inodeTs := s.inodeTs[i := FREE])
    ensures forall j: nat, q: nat :: j < INODE_TABLE_SIZE && q <= INDEX ==> BlockAt(InodeDelete(s, i).0, j, q) == BlockAt(s, j, q)
  {}

  lemma CreateStore(s: Fs)
    requires Inv(s) && FirstFree(s.inodeTs) != -1
    ensures var (s', i) := InodeCreate(s, T_FILE);
            && 0 < i < INODE_TABLE_SIZE && OtherParts(s, s', i) && BlockAt(s', i, INDEX) == -1 && s'.inodes[i].size == 0
            && s'.inodeTs == s.inodeTs[i := TAKEN]
            && (forall j :: 0 <= j < INODE_TABLE_SIZE && j != i ==> s'.inodes[j] == s.inodes[j])
  {
    hide Owned, Shaped;
    FreshFile(s);
  }

  lemma ApplyTidy(s: Fs, c: Call)
    requires Inv(s) && Tidy(s) && Allowed(s, c) && Succeeds(s, c)
    ensures Tidy(Apply(s, c))
  {
    hide Inv, Open, Write, Read, Tidy;
    match c {
      case OpenCall(name, flags) => OpenTidy(s, name, flags);
      case CloseCall(h) => TidyByParts(s, Close(s, h).0);
      case WriteCall(h, buf) => ExactSpace(s, h, buf);
      case ReadCall(h, len) =>
        ReadRefinesSlice(s, h, len);
        TidyByParts(s, Read(s, h, len).0);
      case CreateCall =>
        if FirstFree(s.inodeTs) != -1 {
          CreateStore(s);
          TidyByParts(s, Apply(s, c));
        }
      case DeleteCall(i) =>
        DeleteInv(s, i);
        TidyByParts(s, InodeDelete(s, i).0);
    }
  }

  // Every state reached from initialisation satisfies the invariant.
  lemma {:induction false} RunInv(s: Fs, cs: seq<Call>)
    requires Inv(s) && AllowedRun(s, cs)
    ensures Inv(Run(s, cs))
    ensures Tidy(s) && SucceedingRun(s, cs) ==> Tidy(Run(s, cs))
    decreases |cs|
  {
    hide Inv, Tidy, Apply, Allowed, Succeeds;
    if |cs| > 0 {
      ApplyInv(s, cs[0]);
      if Tidy(s) && Succeeds(s, cs[0]) { ApplyTidy(s, cs[0]); }
      RunInv(Apply(s, cs[0]), cs[1..]);
    }
  }

  function TakenBlocks(s: Fs): set<int> { set b | 0 <= b < DATA_BLOCKS && s.blockTs[b] == TAKEN }

  function OwnedBlocks(s: Fs): set<int>
  {
    set i: nat, r: nat | i < INODE_TABLE_SIZE && s.inodeTs[i] == TAKEN && r <= INDEX && BlockAt(s, i, r) != -1 :: BlockAt(s, i, r)
  }

  ghost predicate NoSharing(s: Fs) {
    forall i: nat, r: nat, j: nat, q: nat :: Live(s, i) && Live(s, j) && r <= INDEX && q <= INDEX ==>
      BlockAt(s, i, r) == BlockAt(s, j, q) ==> BlockAt(s, i, r) == -1 || (i == j && r == q)
  }

  // The parts of a file of n blocks: exactly its first n data blocks, and an index block if
  // there are more than ten. A failed append may leave one at exactly ten.
  ghost predicate ExactShape(s: Fs, i: nat, tidy: bool)
    requires i < INODE_TABLE_SIZE
  {
    var n := CeilBlocks(s.inodes[i].size);
    && (forall r: nat :: r < INDEX ==> (BlockAt(s, i, r) != -1 <==> r < n))
    && (n > 10 ==> BlockAt(s, i, INDEX) != -1)
    && (BlockAt(s, i, INDEX) != -1 ==> n > 10 || (n == 10 && !tidy))
  }

  // In every state a run reaches, the TAKEN blocks are exactly the root's block, the
  // ceil(size/1024) data blocks of each file and one index block for each file of more than
  // ten; no block is counted twice. A file of ten blocks can only have one after a write that
  // ran out of blocks.
  lemma ExactOwnership(memory: Fs, cs: seq<Call>)
    requires AllowedRun(Init(memory).0, cs)
    ensures var s := Run(Init(memory).0, cs);
            && TakenBlocks(s) == OwnedBlocks(s)
            && NoSharing(s)
            && (forall i: nat :: 0 < i && Live(s, i) ==>
                  LiveFile(s, i) && ExactShape(s, i, SucceedingRun(Init(memory).0, cs)))
            && (forall r: nat :: r <= INDEX ==> (BlockAt(s, ROOT_DIR_INUM, r) != -1 <==> r == 0))
  {
    hide Run, AllowedRun, SucceedingRun, Init;
    InitInv(memory);
    RunInv(Init(memory).0, cs);
    var s := Run(Init(memory).0, cs);
    OwnershipIsExact(s);
    ShapesAreExact(s, SucceedingRun(Init(memory).0, cs));
  }

  lemma OwnershipIsExact(s: Fs)
    requires Inv(s)
    ensures TakenBlocks(s) == OwnedBlocks(s)
    ensures NoSharing(s)
  {
    var owner: map<int, Role> :| Owned(s, owner);
    forall b | b in TakenBlocks(s) ensures b in OwnedBlocks(s) {
      assert BlockAt(s, owner[b].inum, owner[b].part) == b;
    }
    forall b | b in OwnedBlocks(s) ensures b in TakenBlocks(s) {
      var i: nat, r: nat :| i < INODE_TABLE_SIZE && s.inodeTs[i] == TAKEN && r <= INDEX && BlockAt(s, i, r) == b != -1;
      ValidParts(s, SizesOf(s), i, r);
    }
  }

  lemma ShapesAreExact(s: Fs, tidy: bool)
    requires Inv(s) && (tidy ==> Tidy(s))
    ensures forall i: nat :: 0 < i && Live(s, i) ==> LiveFile(s, i) && ExactShape(s, i, tidy)
    ensures forall r: nat :: r <= INDEX ==> (BlockAt(s, ROOT_DIR_INUM, r) != -1 <==> r == 0)
  {
    hide Owned;
    forall i: nat | 0 < i && Live(s, i) ensures LiveFile(s, i) && ExactShape(s, i, tidy) {
      assert LiveFile(s, i) && Shaped(s, i, SizesOf(s)[i]);
    }
  }
}
