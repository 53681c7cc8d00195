/** Directory entries: add_dir_entry and find_in_dir scan the 23 entries of the root's
    block in the same way in both versions. Names are C strings without their NUL. */
module Directory {
  import opened Config

  datatype DirEntry = DirEntry(name: string, inum: int)

  type Entries = es: seq<DirEntry> | |es| == MAX_DIR_ENTRIES
    witness seq(MAX_DIR_ENTRIES, _ => DirEntry("", -1))

  // strncpy of at most 39 characters followed by a NUL.
  function Stored(name: string): (r: string)
  {
    if |name| <= MAX_FILE_NAME - 1 then name else name[..MAX_FILE_NAME - 1]
  }

  // What is kept of a name are its first 39 characters.
  lemma StoredStart(name: string)
    ensures Stored(name) <= name && |Stored(name)| == Min(|name|, MAX_FILE_NAME - 1)
  {}

  // strncmp(a, b, 40) == 0 on NUL-free strings: the first 40 characters agree.
  predicate SameName(a: string, b: string)
  {
    var n := MAX_FILE_NAME;
    a[..Min(n, |a|)] == b[..Min(n, |b|)]
  }

  function FindFrom(es: Entries, name: string, i: nat): (r: int)
    requires i <= MAX_DIR_ENTRIES
    ensures r != -1 ==> exists k :: i <= k < MAX_DIR_ENTRIES && es[k].inum == r && SameName(es[k].name, name)
                                    && forall j :: i <= j < k && es[j].inum != -1 ==> !SameName(es[j].name, name)
    ensures r == -1 ==> forall k :: i <= k < MAX_DIR_ENTRIES && es[k].inum != -1 ==> !SameName(es[k].name, name)
    decreases MAX_DIR_ENTRIES - i
  {
    if i == MAX_DIR_ENTRIES then -1
    else if es[i].inum != -1 && SameName(es[i].name, name) then es[i].inum
    else FindFrom(es, name, i + 1)
  }

  function FindInDir(es: Entries, name: string): int { FindFrom(es, name, 0) }

  function EmptyFrom(es: Entries, i: nat): (r: int)
    requires i <= MAX_DIR_ENTRIES
    ensures r == -1 ==> forall k :: i <= k < MAX_DIR_ENTRIES ==> es[k].inum != -1
    ensures r != -1 ==> i <= r < MAX_DIR_ENTRIES && es[r].inum == -1
    ensures r != -1 ==> forall k :: i <= k < r ==> es[k].inum != -1
    decreases MAX_DIR_ENTRIES - i
  {
    if i == MAX_DIR_ENTRIES then -1 else if es[i].inum == -1 then i else EmptyFrom(es, i + 1)
  }

  // add_dir_entry: -1 for an empty name or a full directory.
  function AddSlot(es: Entries, name: string): int
  {
    if |name| == 0 then -1 else EmptyFrom(es, 0)
  }

  function AddEntry(es: Entries, inum: int, name: string): Entries
  {
    var k := AddSlot(es, name);
    if k == -1 then es else es[k := DirEntry(Stored(name), inum)]
  }

  // What inode_create makes of the block of a new directory.
  function EmptyEntries(es: Entries): Entries
  {
    seq(MAX_DIR_ENTRIES, i requires 0 <= i < MAX_DIR_ENTRIES => es[i].(inum := -1))
  }

  // The two loops over the entries.
  method ScanForName(es: Entries, name: string) returns (inum: int)
    ensures inum == FindInDir(es, name)
  {
    for i := 0 to MAX_DIR_ENTRIES
      invariant FindFrom(es, name, i) == FindInDir(es, name)
    {
      if es[i].inum != -1 && SameName(es[i].name, name) { return es[i].inum; }
    }
    return -1;
  }

  method ScanForEmpty(es: Entries) returns (k: int)
    ensures k == EmptyFrom(es, 0)
  {
    for i := 0 to MAX_DIR_ENTRIES
      invariant EmptyFrom(es, i) == EmptyFrom(es, 0)
    {
      if es[i].inum == -1 { return i; }
    }
    return -1;
  }

  // ---------- the directory as a map ----------

  ghost predicate StoredNames(es: Entries) {
    forall k :: 0 <= k < MAX_DIR_ENTRIES && es[k].inum != -1 ==> |es[k].name| <= MAX_FILE_NAME - 1
  }

  ghost predicate DistinctNames(es: Entries) {
    forall j, k :: 0 <= j < k < MAX_DIR_ENTRIES && es[j].inum != -1 && es[k].inum != -1 ==> es[j].name != es[k].name
  }

  // The comparison of 40 characters is equality, because a stored name ends before them.
  lemma SameNameIsEquality(stored: string, name: string)
    requires |stored| <= MAX_FILE_NAME - 1
    ensures SameName(stored, name) <==> stored == name
  {
    if SameName(stored, name) {
      assert |name[..Min(MAX_FILE_NAME, |name|)]| == |stored|;
      assert name[..|name|] == name && stored[..|stored|] == stored;
    }
  }

  lemma AddKeepsStored(es: Entries, inum: int, name: string)
    requires StoredNames(es)
    ensures StoredNames(AddEntry(es, inum, name))
  {}

  // A name that was just added is found again, under its inode, exactly when it has at most
  // 39 characters; a longer one is stored cut and no look-up ever matches it.
  lemma AddThenFind(es: Entries, inum: nat, name: string)
    requires StoredNames(es) && FindInDir(es, name) == -1 && AddSlot(es, name) != -1
    ensures FindInDir(AddEntry(es, inum, name), name) == inum <==> |name| <= MAX_FILE_NAME - 1
    ensures |name| > MAX_FILE_NAME - 1 ==> FindInDir(AddEntry(es, inum, name), name) == -1
  {
    var es' := AddEntry(es, inum, name);
    var k := AddSlot(es, name);
    AddKeepsStored(es, inum, name);
    forall j | 0 <= j < MAX_DIR_ENTRIES && es'[j].inum != -1
      ensures SameName(es'[j].name, name) <==> j == k && |name| <= MAX_FILE_NAME - 1
    {
      SameNameIsEquality(es'[j].name, name);
      if j != k { assert es[j] == es'[j]; }
    }
    if |name| <= MAX_FILE_NAME - 1 {
      assert es'[k].inum != -1 && SameName(es'[k].name, name);
    }
  }

  // Adding keeps names distinct exactly when the stored form is not there yet.
  lemma AddKeepsDistinct(es: Entries, inum: nat, name: string)
    requires DistinctNames(es) && AddSlot(es, name) != -1
    ensures DistinctNames(AddEntry(es, inum, name)) <==>
            forall j :: 0 <= j < MAX_DIR_ENTRIES && es[j].inum != -1 ==> es[j].name != Stored(name)
  {
    var k, es' := AddSlot(es, name), AddEntry(es, inum, name);
    if DistinctNames(es') {
      forall j | 0 <= j < MAX_DIR_ENTRIES && es[j].inum != -1 ensures es[j].name != Stored(name) {
        assert es'[j] == es[j] && es'[k].name == Stored(name);
      }
    }
  }

  // With distinct names a look-up is the map from names to inodes.
  lemma FindIsLookup(es: Entries, j: nat, name: string)
    requires StoredNames(es) && DistinctNames(es) && j < MAX_DIR_ENTRIES && es[j].inum != -1
    ensures es[j].name == name ==> FindInDir(es, name) == es[j].inum
  {
    if es[j].name == name {
      SameNameIsEquality(es[j].name, name);
      var r := FindInDir(es, name);
      var m :| 0 <= m < MAX_DIR_ENTRIES && es[m].inum == r && SameName(es[m].name, name);
      SameNameIsEquality(es[m].name, name);
    }
  }

  // Adding a fresh name of at most 39 characters changes the look-up of that name only.
  lemma AddKeepsOthers(es: Entries, inum: nat, name: string, other: string)
    requires StoredNames(es) && DistinctNames(es) && FindInDir(es, name) == -1 && AddSlot(es, name) != -1
    requires |name| <= MAX_FILE_NAME - 1 && other != name
    ensures FindInDir(AddEntry(es, inum, name), other) == FindInDir(es, other)
  {
    var es', k := AddEntry(es, inum, name), AddSlot(es, name);
    AddKeepsStored(es, inum, name);
    forall j | 0 <= j < MAX_DIR_ENTRIES && es[j].inum != -1 ensures es[j].name != name {
      SameNameIsEquality(es[j].name, name);
    }
    AddKeepsDistinct(es, inum, name);
    forall j | 0 <= j < MAX_DIR_ENTRIES && es'[j].inum != -1 && SameName(es'[j].name, other)
      ensures j != k && es'[j].name == other
    {
      SameNameIsEquality(es'[j].name, other);
    }
    forall j | 0 <= j < MAX_DIR_ENTRIES && es[j].inum != -1 && SameName(es[j].name, other)
      ensures FindInDir(es, other) == es[j].inum == FindInDir(es', other)
    {
      SameNameIsEquality(es[j].name, other);
      FindIsLookup(es, j, other);
      assert es'[j] == es[j];
      FindIsLookup(es', j, other);
    }
  }
}
