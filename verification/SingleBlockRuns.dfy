/** Whole runs of the second version. */
module SingleBlockRuns {
  import opened Config
  import opened FirstFit
  import opened Directory
  import opened SingleBlock
  import opened SingleBlockInv
  import opened SingleBlockCalls

  datatype Call =
    | OpenCall(name: string, flags: Flags)
    | CloseCall(h: int)
    | WriteCall(h: int, buf: seq<byte>)
    | ReadCall(h: int, len: nat)

  function Apply(s: Fs, c: Call): Fs
  {
    match c
    case OpenCall(name, flags) => Open(s, name, flags).0
    case CloseCall(h) => Close(s, h).0
    case WriteCall(h, buf) => Write(s, h, buf).0
    case ReadCall(h, len) => Read(s, h, len).0
  }

  // Reads and writes go through open handles, and no call is undefined: nothing is created
  // under the empty path, a read behind the end of its file, which only a truncation under an
  // open handle can bring about, stays in memory, and no write follows a read that has taken
  // the offset past its block.
  ghost predicate Allowed(s: Fs, c: Call) {
    match c
    case OpenCall(name, flags) => |name| > 0 || !flags.creat
    case CloseCall(h) => true
    case WriteCall(h, buf) => OpenHandle(s, h) && s.files[h].offset <= BLOCK_SIZE
    case ReadCall(h, len) => OpenHandle(s, h) && ValidInumber(s.files[h].inum) && InMemory(s, h, len)
  }

  function Run(s: Fs, cs: seq<Call>): Fs
    decreases |cs|
  {
    if |cs| == 0 then s else Run(Apply(s, cs[0]), cs[1..])
  }

  ghost predicate AllowedRun(s: Fs, cs: seq<Call>)
    decreases |cs|
  {
    |cs| == 0 || (Allowed(s, cs[0]) && AllowedRun(Apply(s, cs[0]), cs[1..]))
  }

  lemma ApplyInv(s: Fs, c: Call)
    requires Inv(s) && Allowed(s, c)
    ensures Inv(Apply(s, c))
  {
    hide Inv, Open, Close, Write, Read;
    match c {
      case OpenCall(name, flags) => OpenInv(s, name, flags);
      case CloseCall(h) => CloseInv(s, h);
      case WriteCall(h, buf) => WriteNeverFails(s, h, buf);
      case ReadCall(h, len) => ReadMeaning(s, h, len);
    }
  }

  lemma {:induction false} RunInv(s: Fs, cs: seq<Call>)
    requires Inv(s) && AllowedRun(s, cs)
    ensures Inv(Run(s, cs))
    decreases |cs|
  {
    hide Inv, Apply, Allowed;
    if |cs| > 0 {
      ApplyInv(s, cs[0]);
      RunInv(Apply(s, cs[0]), cs[1..]);
    }
  }

  // In every reachable state: at most 23 files, neither table is full, and a write on an open
  // handle returns min(len, 1024 - offset) if the offset is in the block.
  lemma NothingRunsOut(memory: Fs, cs: seq<Call>)
    requires AllowedRun(Init(memory).0, cs)
    ensures var s := Run(Init(memory).0, cs);
            && |LiveFiles(s)| <= 23 && |TakenBlocks(s)| <= 24
            && InodeCreate(s, T_FILE).1 != -1 && FirstFree(s.blockTs) != -1
            && (forall h, buf :: OpenHandle(s, h) && s.files[h].offset <= BLOCK_SIZE ==>
                  Write(s, h, buf).1 == Ret(Min(|buf|, BLOCK_SIZE - s.files[h].offset)))
  {
    hide Inv, Write, Run;
    InitInv(memory);
    RunInv(Init(memory).0, cs);
    var s := Run(Init(memory).0, cs);
    AtMost23Files(s);
    AtMost24Blocks(s);
    forall h, buf | OpenHandle(s, h) && s.files[h].offset <= BLOCK_SIZE
      ensures Write(s, h, buf).1 == Ret(Min(|buf|, BLOCK_SIZE - s.files[h].offset))
    {
      WriteNeverFails(s, h, buf);
    }
  }

  // Exact ownership in every reachable state, truncation under other handles included: the
  // TAKEN blocks are the directory's and one for each non-empty file, no two of them the same.
  lemma ExactOwnership(memory: Fs, cs: seq<Call>)
    requires AllowedRun(Init(memory).0, cs)
    ensures var s := Run(Init(memory).0, cs);
            && (forall b :: b in TakenBlocks(s) <==> exists i :: Holder(s, i) && s.inodes[i].block == b)
            && (forall i, j :: Holder(s, i) && Holder(s, j) && s.inodes[i].block == s.inodes[j].block ==> i == j)
  {
    hide Run;
    InitInv(memory);
    RunInv(Init(memory).0, cs);
    HoldersAreExact(Run(Init(memory).0, cs));
  }

  lemma HoldersAreExact(s: Fs)
    requires FilesOk(s)
    ensures forall b :: b in TakenBlocks(s) <==> exists i :: Holder(s, i) && s.inodes[i].block == b
    ensures forall i, j :: Holder(s, i) && Holder(s, j) && s.inodes[i].block == s.inodes[j].block ==> i == j
  {
    var owner: map<int, int> :| Owned(s, owner);
    forall b | b in TakenBlocks(s) ensures exists i :: Holder(s, i) && s.inodes[i].block == b {
      assert Holder(s, owner[b]);
    }
  }

  // Every open handle points to a file that has a name.
  lemma HandlesAreNamed(memory: Fs, cs: seq<Call>, h: int)
    requires AllowedRun(Init(memory).0, cs) && OpenHandle(Run(Init(memory).0, cs), h)
    ensures var s := Run(Init(memory).0, cs);
            HasDirectory(s) && exists k :: Entry(RootEntries(s), k) && RootEntries(s)[k].inum == s.files[h].inum
  {
    hide Run;
    InitInv(memory);
    RunInv(Init(memory).0, cs);
  }

  // ---------- the directory over time ----------

  lemma {:induction false} FindStable(es: Entries, es': Entries, name: string, i: nat)
    requires i <= MAX_DIR_ENTRIES && FindFrom(es, name, i) != -1
    requires forall k :: Entry(es, k) ==> es'[k] == es[k]
    requires forall j, k :: 0 <= j < k && Entry(es, k) ==> Entry(es, j)
    ensures FindFrom(es', name, i) == FindFrom(es, name, i)
    decreases MAX_DIR_ENTRIES - i
  {
    if !(es[i].inum != -1 && SameName(es[i].name, name)) {
      FindStable(es, es', name, i + 1);
      var k :| i + 1 <= k < MAX_DIR_ENTRIES && es[k].inum == FindFrom(es, name, i + 1) && SameName(es[k].name, name);
      assert Entry(es, k) && Entry(es, i);
    }
  }

  lemma LookupKept(s: Fs, c: Call, name: string)
    requires Inv(s) && Allowed(s, c) && LookupPath(s, name) != -1
    ensures LookupPath(Apply(s, c), name) == LookupPath(s, name)
  {
    hide FilesOk, HandlesOk, Owned, Open, Write, Read, FindInDir, AddSlot, AddEntry;
    ApplyInv(s, c);
    LiveHasDirectory(s);
    LiveHasDirectory(Apply(s, c));
    var s', es := Apply(s, c), RootEntries(s);
    match c {
      case OpenCall(n, flags) =>
        OpenInv(s, n, flags);
        if RootEntries(s') != es { AddedStable(es, FirstFree(s.inodeTs), n[1..], name[1..]); }
      case CloseCall(h) => CloseInv(s, h);
      case WriteCall(h, buf) => WriteNeverFails(s, h, buf);
      case ReadCall(h, len) => ReadMeaning(s, h, len);
    }
  }

  lemma AddedStable(es: Entries, inum: int, sub: string, name: string)
    requires forall j, k :: 0 <= j < k && Entry(es, k) ==> Entry(es, j)
    requires AddSlot(es, sub) != -1 && FindInDir(es, name) != -1
    ensures FindInDir(AddEntry(es, inum, sub), name) == FindInDir(es, name)
  {
    FindStable(es, AddEntry(es, inum, sub), name, 0);
  }

  // Once a look-up finds a name, every later look-up finds it under the same inode.
  lemma {:induction false} LookupForever(s: Fs, cs: seq<Call>, name: string)
    requires Inv(s) && AllowedRun(s, cs) && LookupPath(s, name) != -1
    ensures LookupPath(Run(s, cs), name) == LookupPath(s, name)
    decreases |cs|
  {
    hide Inv, Apply, Allowed, LookupPath;
    if |cs| > 0 {
      ApplyInv(s, cs[0]);
      LookupKept(s, cs[0], name);
      LookupForever(Apply(s, cs[0]), cs[1..], name);
    }
  }

  // A file created under a new path is found under that path ever after exactly when the path
  // starts with '/' and has 1 to 39 characters more; otherwise no look-up finds it at once.
  lemma CreatedIsFound(s: Fs, name: string, flags: Flags)
    requires Inv(s) && |name| > 0 && LookupPath(s, name) == -1 && flags.creat && Open(s, name, flags).1.Ret?
    ensures var s' := Open(s, name, flags).0;
            LookupPath(s', name) == FirstFree(s.inodeTs) <==> ValidPathname(name) && |name| <= MAX_FILE_NAME
    ensures var s' := Open(s, name, flags).0;
            !(ValidPathname(name) && |name| <= MAX_FILE_NAME) ==> LookupPath(s', name) == -1
  {
    hide FilesOk, HandlesOk, Owned, FindInDir, AddEntry, AddSlot, Open;
    OpenNewSteps(s, name, flags);
    LiveHasDirectory(s);
    LiveHasDirectory(Open(s, name, flags).0);
    if ValidPathname(name) {
      StoredOk(s);
      AddThenFind(RootEntries(s), FirstFree(s.inodeTs), name[1..]);
    }
  }

  lemma StoredOk(s: Fs)
    requires Inv(s)
    ensures StoredNames(RootEntries(s))
  {}

  // Opening with TFS_O_CREAT keeps the names distinct exactly when the stored form of the new
  // name (its first 39 characters) is not already there.
  lemma CreateKeepsDistinct(s: Fs, name: string, flags: Flags)
    requires Inv(s) && DistinctNames(RootEntries(s)) && |name| > 0 && LookupPath(s, name) == -1
    requires flags.creat && AddSlot(RootEntries(s), name[1..]) != -1
    ensures var s' := Open(s, name, flags).0;
            HasDirectory(s') &&
            (DistinctNames(RootEntries(s')) <==>
             forall k :: Entry(RootEntries(s), k) ==> RootEntries(s)[k].name != Stored(name[1..]))
  {
    hide FilesOk, HandlesOk, Owned, AddEntry, AddSlot, Open, DistinctNames;
    OpenNewSteps(s, name, flags);
    LiveHasDirectory(s);
    LiveHasDirectory(Open(s, name, flags).0);
    AddKeepsDistinct(RootEntries(s), FirstFree(s.inodeTs), name[1..]);
  }

  predicate GoodNames(cs: seq<Call>)
  {
    forall k :: 0 <= k < |cs| && cs[k].OpenCall? ==> ValidPathname(cs[k].name) && |cs[k].name| <= MAX_FILE_NAME
  }

  lemma NamesKept(s: Fs, c: Call)
    requires Inv(s) && Allowed(s, c) && DistinctNames(RootEntries(s)) && GoodNames([c])
    ensures Inv(Apply(s, c)) && DistinctNames(RootEntries(Apply(s, c)))
  {
    hide FilesOk, HandlesOk, Owned, Open, Write, Read, FindInDir, AddSlot, AddEntry, DistinctNames;
    ApplyInv(s, c);
    LiveHasDirectory(s);
    LiveHasDirectory(Apply(s, c));
    match c {
      case OpenCall(n, flags) =>
        assert [c][0] == c;
        OpenInv(s, n, flags);
        var es := RootEntries(s);
        if RootEntries(Apply(s, c)) != es {
          AddKeepsDistinct(es, FirstFree(s.inodeTs), n[1..]);
          MissedIsNew(es, n[1..]);
        }
      case CloseCall(h) => CloseInv(s, h);
      case WriteCall(h, buf) => WriteNeverFails(s, h, buf);
      case ReadCall(h, len) => ReadMeaning(s, h, len);
    }
  }

  lemma MissedIsNew(es: Entries, sub: string)
    requires FindInDir(es, sub) == -1 && StoredNames(es) && |sub| <= MAX_FILE_NAME - 1
    ensures forall k :: 0 <= k < MAX_DIR_ENTRIES && es[k].inum != -1 ==> es[k].name != Stored(sub)
  {
    forall k | 0 <= k < MAX_DIR_ENTRIES && es[k].inum != -1 ensures es[k].name != Stored(sub) {
      SameNameIsEquality(es[k].name, sub);
    }
  }

  // With good path names the directory is a map: names stay distinct in every reachable state.
  lemma {:induction false} NamesAreDistinct(s: Fs, cs: seq<Call>)
    requires Inv(s) && AllowedRun(s, cs) && DistinctNames(RootEntries(s)) && GoodNames(cs)
    ensures Inv(Run(s, cs)) && DistinctNames(RootEntries(Run(s, cs)))
    decreases |cs|
  {
    hide Inv, Apply, Allowed, DistinctNames;
    if |cs| > 0 {
      assert GoodNames([cs[0]]);
      NamesKept(s, cs[0]);
      LiveHasDirectory(s);
      NamesAreDistinct(Apply(s, cs[0]), cs[1..]);
    } else {
      LiveHasDirectory(s);
    }
  }
}
