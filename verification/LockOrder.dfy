/** The lock protocol of the first version: any number of threads in tfs_open (without
    TFS_O_TRUNC), tfs_read, tfs_write and tfs_close, one lock operation or one loop round per
    step. tfs_open works on the real inode and directory tables; what other data decides is
    left open, and every branch may be taken. */
module LockOrder {
  import opened Config
  import opened FirstFit
  import opened Directory

  datatype Lock = OpenFileTable | FileLock(h: nat) | InodeTable | InodeLock(i: nat) | BlockTable

  function Rank(l: Lock): nat {
    match l
    case OpenFileTable => 0
    case FileLock(_) => 1
    case InodeTable => 2
    case InodeLock(_) => 3
    case BlockTable => 4
  }

  // Program points of tfs_read and tfs_write, which take the same locks.
  datatype IoPoint =
    | Start            // wants the open-file table
    | HaveTable        // wants the handle's mutex, or gives up on a bad handle
    | BadHandle        // gives the table back
    | HaveFile         // gives the table back
    | WantInodes       // wants the inode table
    | HaveInodes       // looks the inode up
    | NoInode          // gives the inode table and the handle back, in either order
    | NoInodeFile      // has given the inode table back
    | NoInodeTable     // has given the handle back
    | WantInode        // wants the inode's lock
    | HaveInode        // gives the inode table back
    | Loop             // next round, or out
    | WantBlocks       // wants the block table, in data_block_alloc
    | HaveBlocks       // gives it back
    | OutFile          // gives the handle back
    | OutInode         // gives the inode's lock back
    | FailInode        // no block: gives the inode's lock back first
    | FailFile

  // Program points of tfs_open.
  datatype OpenPoint =
    | OpenStart        // wants the inode table
    | OpenLookup       // wants it again, in find_in_dir
    | OpenFound        // has looked the name up; gives it back once
    | OpenDecide(r: int)  // found, to be created, or neither
    | OpenWantInode(i: nat) | OpenHaveInode(i: nat) | OpenDropInode(i: nat)
    | OpenMiss         // gives the inode table back, to create
    | OpenGiveUp       // gives it back and fails
    | OpenCreate | OpenCreated                    // inode_create
    | OpenAdd(i: nat) | OpenAdded(i: nat)         // add_dir_entry
    | OpenDelete(i: nat) | OpenDeleted(i: nat)    // inode_delete after a failed add
    | OpenScan(k: nat) | OpenTry(k: nat)  // add_to_open_file_table, entry by entry

  datatype Thread =
    | Io(write: bool, h: nat, i: nat, at: IoPoint)
    | CloseStart | CloseHave
    | Open(name: string, creat: bool, op: OpenPoint)
    | Finished
    | Leaked           // inode_create found no free inode and returned without unlocking

  // The locks a thread holds at a point.
  function Held(th: Thread): set<Lock> {
    match th
    case Io(_, h, i, at) =>
      (match at
       case Start => {}
       case HaveTable => {OpenFileTable}
       case BadHandle => {OpenFileTable}
       case HaveFile => {OpenFileTable, FileLock(h)}
       case WantInodes => {FileLock(h)}
       case HaveInodes => {FileLock(h), InodeTable}
       case NoInode => {FileLock(h), InodeTable}
       case NoInodeFile => {FileLock(h)}
       case NoInodeTable => {InodeTable}
       case WantInode => {FileLock(h), InodeTable}
       case HaveInode => {FileLock(h), InodeTable, InodeLock(i)}
       case Loop => {FileLock(h), InodeLock(i)}
       case WantBlocks => {FileLock(h), InodeLock(i)}
       case HaveBlocks => {FileLock(h), InodeLock(i), BlockTable}
       case OutFile => {FileLock(h), InodeLock(i)}
       case OutInode => {InodeLock(i)}
       case FailInode => {FileLock(h), InodeLock(i)}
       case FailFile => {FileLock(h)})
    case CloseHave => {OpenFileTable}
    case Open(_, _, op) =>
      (match op
       case OpenHaveInode(i) => {InodeTable, InodeLock(i)}
       case OpenDropInode(i) => {InodeLock(i)}
       case OpenTry(k) => {FileLock(k)}
       case OpenStart => {}
       case OpenCreate => {}
       case OpenAdd(_) => {}
       case OpenDelete(_) => {}
       case OpenScan(_) => {}
       case _ => {InodeTable})
    case Leaked => {InodeTable}
    case _ => {}
  }

  // How often it holds the recursive inode-table mutex.
  function Depth(th: Thread): nat {
    if InodeTable !in Held(th) then 0 else if th.Open? && th.op.OpenFound? then 2 else 1
  }

  // A reader holds its inode's lock for reading only.
  predicate Shares(th: Thread) { th.Io? && !th.write }

  // The lock the thread waits for at this point.
  function Wants(th: Thread): Option<Lock> {
    match th
    case Io(_, h, i, at) =>
      (match at
       case Start => Some(OpenFileTable)
       case HaveTable => Some(FileLock(h))
       case WantInodes => Some(InodeTable)
       case WantInode => Some(InodeLock(i))
       case WantBlocks => Some(BlockTable)
       case _ => None)
    case CloseStart => Some(OpenFileTable)
    case Open(_, _, op) =>
      (match op
       case OpenStart => Some(InodeTable)
       case OpenLookup => Some(InodeTable)
       case OpenWantInode(i) => Some(InodeLock(i))
       case OpenCreate => Some(InodeTable)
       case OpenAdd(_) => Some(InodeTable)
       case OpenDelete(_) => Some(InodeTable)
       case OpenScan(k) => Some(FileLock(k))
       case _ => None)
    case _ => None
  }

  function Acquired(th: Thread): Thread
    requires Wants(th).Some?
  {
    match th
    case Io(_, _, _, at) =>
      th.(at := match at
                case Start => HaveTable
                case HaveTable => HaveFile
                case WantInodes => HaveInodes
                case WantInode => HaveInode
                case _ => HaveBlocks)
    case CloseStart => CloseHave
    case Open(_, _, op) =>
      th.(op := match op
                case OpenStart => OpenLookup
                case OpenLookup => OpenFound
                case OpenWantInode(i) => OpenHaveInode(i)
                case OpenCreate => OpenCreated
                case OpenAdd(i) => OpenAdded(i)
                case OpenDelete(i) => OpenDeleted(i)
                case OpenScan(k) => OpenTry(k))
  }

  // The lock given back by the next step, if any.
  function Gives(th: Thread, th': Thread): Option<Lock> {
    match th
    case Io(_, h, i, at) =>
      (match at
       case BadHandle => Some(OpenFileTable)
       case HaveFile => Some(OpenFileTable)
       case NoInode => Some(if th'.Io? && th'.at == NoInodeTable then FileLock(h) else InodeTable)
       case NoInodeFile => Some(FileLock(h))
       case NoInodeTable => Some(InodeTable)
       case HaveInode => Some(InodeTable)
       case HaveBlocks => Some(BlockTable)
       case OutFile => Some(FileLock(h))
       case OutInode => Some(InodeLock(i))
       case FailInode => Some(InodeLock(i))
       case FailFile => Some(FileLock(h))
       case _ => None)
    case CloseHave => Some(OpenFileTable)
    case Open(_, _, op) =>
      (match op
       case OpenFound => Some(InodeTable)
       case OpenHaveInode(_) => Some(InodeTable)
       case OpenDropInode(i) => Some(InodeLock(i))
       case OpenMiss => Some(InodeTable)
       case OpenGiveUp => Some(InodeTable)
       case OpenCreated => if th' == Leaked then None else Some(InodeTable)
       case OpenAdded(_) => Some(InodeTable)
       case OpenDeleted(_) => Some(InodeTable)
       case OpenTry(k) => Some(FileLock(k))
       case _ => None)
    case _ => None
  }

  // Where a thread that waits for nothing may go next.
  ghost predicate Continues(th: Thread, th': Thread) {
    match th
    case Io(w, h, i, at) =>
      (match at
       case BadHandle => th' == Finished
       case HaveFile => th' == th.(at := WantInodes)
       case HaveInodes => th' == th.(at := NoInode) || (th'.Io? && th' == th.(i := th'.i, at := WantInode))
       case NoInode => th' == th.(at := if w then NoInodeFile else NoInodeTable)
       case NoInodeFile => th' == Finished
       case NoInodeTable => th' == Finished
       case HaveInode => th' == th.(at := Loop)
       case Loop => th' == th || th' == th.(at := WantBlocks) || th' == th.(at := OutFile) || th' == th.(at := FailInode)
       case HaveBlocks => th' == th.(at := Loop)
       case OutFile => th' == th.(at := OutInode)
       case OutInode => th' == Finished
       case FailInode => th' == th.(at := FailFile)
       case FailFile => th' == Finished
       case _ => false)
    case CloseHave => th' == Finished
    case Open(_, creat, op) =>
      (match op
       case OpenFound => th'.Open? && th'.op.OpenDecide? && th' == th.(op := th'.op)
       case OpenDecide(r) =>
         th' == th.(op := if ValidInumber(r) then OpenWantInode(r) else if r < 0 && creat then OpenMiss else OpenGiveUp)
       case OpenHaveInode(i) => th' == th.(op := OpenDropInode(i))
       case OpenDropInode(_) => th' == th.(op := OpenScan(0))
       case OpenMiss => th' == th.(op := OpenCreate)
       case OpenGiveUp => th' == Finished
       case OpenCreated => th' == Leaked || (th'.Open? && th'.op.OpenAdd? && th' == th.(op := th'.op))
       case OpenAdded(i) => th' == th.(op := OpenScan(0)) || th' == th.(op := OpenDelete(i))
       case OpenDeleted(_) => th' == Finished
       case OpenTry(k) => th' == Finished || (k + 1 < MAX_OPEN_FILES && th' == th.(op := OpenScan(k + 1)))
       case _ => false)
    case _ => false
  }

  // The tables tfs_open works on: inode_table's allocation states and the root's entries.
  datatype TablesRec = Tables(inodeTs: seq<Alloc>, entries: Entries)

  type Tables = tb: TablesRec | |tb.inodeTs| == INODE_TABLE_SIZE
    witness var es: Entries := seq(MAX_DIR_ENTRIES, _ => DirEntry("", -1));
            Tables(seq(INODE_TABLE_SIZE, _ => FREE), es)

  // A path name without its first character.
  function Sub(name: string): string { if |name| > 0 then name[1..] else [] }

  // What the step does to the tables, and what the tables decide: the look-up, the first free
  // inode, whether the directory is full.
  ghost predicate Effect(tb: Tables, th: Thread, th': Thread, tb': Tables) {
    match th
    case Open(name, _, op) =>
      (match op
       case OpenFound => tb' == tb && th'.Open? && th'.op == OpenDecide(FindInDir(tb.entries, Sub(name)))
       case OpenCreated =>
         var i := FirstFree(tb.inodeTs);
         if i == -1 then th' == Leaked && tb' == tb
         else th' == th.(op := OpenAdd(i)) && tb' == tb.(inodeTs := tb.inodeTs[i := TAKEN])
       case OpenAdded(i) =>
         if AddSlot(tb.entries, Sub(name)) == -1 then th' == th.(op := OpenDelete(i)) && tb' == tb
         else th' == th.(op := OpenScan(0)) && tb' == tb.(entries := AddEntry(tb.entries, i, Sub(name)))
       case OpenDeleted(i) => tb' == if i < INODE_TABLE_SIZE then tb.(inodeTs := tb.inodeTs[i := FREE]) else tb
       case _ => tb' == tb)
    case _ => tb' == tb
  }

  // A write on a bad handle gives up instead of waiting for its mutex.
  ghost predicate GivesUp(th: Thread, th': Thread) {
    th.Io? && th.write && th.at == HaveTable && th' == th.(at := BadHandle)
  }

  // ---------- the system ----------

  // owner: the exclusive holder of each lock; depth: of the inode table; readers: of each inode lock.
  datatype State = State(threads: seq<Thread>, owner: map<Lock, nat>, depth: nat, readers: map<nat, set<nat>>, tables: Tables)

  function ReadersOf(s: State, l: Lock): set<nat> {
    if l.InodeLock? && l.i in s.readers then s.readers[l.i] else {}
  }

  // A mutex is granted when it is free (or, for the inode table, already one's own); an inode
  // lock is granted to a writer when nobody holds it and to a reader when no writer does.
  predicate Granted(s: State, t: nat, l: Lock)
    requires t < |s.threads|
  {
    if l == InodeTable then l !in s.owner || s.owner[l] == t
    else if l.InodeLock? && Shares(s.threads[t]) then l !in s.owner
    else l !in s.owner && ReadersOf(s, l) == {}
  }

  function Take(s: State, t: nat, l: Lock): State
    requires t < |s.threads|
  {
    if l.InodeLock? && Shares(s.threads[t]) then s.(readers := s.readers[l.i := ReadersOf(s, l) + {t}])
    else s.(owner := s.owner[l := t], depth := if l == InodeTable then s.depth + 1 else s.depth)
  }

  function Drop(s: State, t: nat, l: Lock): State
    requires t < |s.threads|
  {
    if l.InodeLock? && Shares(s.threads[t]) then s.(readers := s.readers[l.i := ReadersOf(s, l) - {t}])
    else if l == InodeTable && s.depth > 1 then s.(depth := s.depth - 1)
    else s.(owner := s.owner - {l}, depth := if l == InodeTable then 0 else s.depth)
  }

  ghost predicate Step(s: State, t: nat, th': Thread, s': State) {
    && t < |s.threads|
    && var th := s.threads[t];
       || (Wants(th).Some? && Granted(s, t, Wants(th).value) && th' == Acquired(th)
           && s' == Take(s, t, Wants(th).value).(threads := s.threads[t := th']))
       || (GivesUp(th, th') && s' == s.(threads := s.threads[t := th']))
       || (Continues(th, th') && Effect(s.tables, th, th', s'.tables)
           && s' == (match Gives(th, th')
                     case Some(l) => Drop(s, t, l)
                     case None => s).(threads := s.threads[t := th'], tables := s'.tables))
  }

  predicate Exclusive(th: Thread, l: Lock) { l in Held(th) && !(l.InodeLock? && Shares(th)) }

  predicate Shared(th: Thread, l: Lock) { l in Held(th) && l.InodeLock? && Shares(th) }

  ghost predicate OwnersOk(s: State) {
    && (forall t :: 0 <= t < |s.threads| ==> forall l :: Exclusive(s.threads[t], l) ==> l in s.owner && s.owner[l] == t)
    && (forall l :: l in s.owner ==> s.owner[l] < |s.threads| && Exclusive(s.threads[s.owner[l]], l))
  }

  ghost predicate ReadersOk(s: State) {
    && (forall t :: 0 <= t < |s.threads| ==> forall l :: Shared(s.threads[t], l) ==> t in ReadersOf(s, l))
    && (forall l :: forall t :: t in ReadersOf(s, l) ==> t < |s.threads| && Shared(s.threads[t], l))
  }

  // The lock words agree with the program points.
  ghost predicate Inv(s: State) {
    && OwnersOk(s) && ReadersOk(s)
    && (forall l :: l in s.owner ==> ReadersOf(s, l) == {})
    && s.depth == if InodeTable in s.owner then Depth(s.threads[s.owner[InodeTable]]) else 0
  }

  ghost predicate AtStart(th: Thread) {
    (th.Open? && ValidPathname(th.name) && th.op == OpenStart) || th == CloseStart || (th.Io? && th.at == Start)
  }

  ghost predicate Initial(s: State) {
    s.owner == map[] && s.depth == 0 && s.readers == map[] && forall t :: 0 <= t < |s.threads| ==> AtStart(s.threads[t])
  }

  lemma InitialInv(s: State)
    requires Initial(s)
    ensures Inv(s)
  {}

  // All acquisitions go up: open-file table, one handle, inode table, one inode, block table.
  // The inode table alone may be taken again by its holder.
  lemma WantsGoUp(th: Thread, l: Lock)
    requires Wants(th).Some? && l in Held(th)
    ensures Rank(l) < Rank(Wants(th).value) || l == Wants(th).value == InodeTable
  {}

  // What each kind of step does to the set of locks held.
  lemma HeldAfterAcquire(th: Thread)
    requires Wants(th).Some?
    ensures var th', l := Acquired(th), Wants(th).value;
            && Held(th') == Held(th) + {l} && (l in Held(th) ==> l == InodeTable)
            && Depth(th') == Depth(th) + (if l == InodeTable then 1 else 0) && Shares(th') == Shares(th)
  {}

  lemma HeldAfterIoRelease(th: Thread, th': Thread)
    requires Continues(th, th') && Gives(th, th').Some? && th.Io?
    ensures var l := Gives(th, th').value;
            && l in Held(th) && Depth(th') == Depth(th) - (if l == InodeTable then 1 else 0)
            && Held(th') == (if l == InodeTable && Depth(th) > 1 then Held(th) else Held(th) - {l})
    ensures Shares(th') == Shares(th) || (forall l :: l in Held(th') ==> !l.InodeLock?)
  {}

  lemma HeldAfterRelease(th: Thread, th': Thread)
    requires Continues(th, th') && Gives(th, th').Some?
    ensures var l := Gives(th, th').value;
            && l in Held(th) && Depth(th') == Depth(th) - (if l == InodeTable then 1 else 0)
            && Held(th') == (if l == InodeTable && Depth(th) > 1 then Held(th) else Held(th) - {l})
    ensures Shares(th') == Shares(th) || (forall l :: l in Held(th') ==> !l.InodeLock?)
  {
    if th.Io? { HeldAfterIoRelease(th, th'); }
  }

  lemma HeldAfterIoLocal(th: Thread, th': Thread)
    requires GivesUp(th, th') || (Continues(th, th') && Gives(th, th').None?)
    requires th.Io?
    ensures Held(th') == Held(th) && Depth(th') == Depth(th)
    ensures Shares(th') == Shares(th) || (forall l :: l in Held(th) ==> !l.InodeLock?)
  {}

  lemma HeldAfterLocal(th: Thread, th': Thread)
    requires GivesUp(th, th') || (Continues(th, th') && Gives(th, th').None?)
    ensures Held(th') == Held(th) && Depth(th') == Depth(th)
    ensures Shares(th') == Shares(th) || (forall l :: l in Held(th) ==> !l.InodeLock?)
  {
    if th.Io? { HeldAfterIoLocal(th, th'); }
  }

  // The owner map follows thread t, and nothing else changes.
  lemma MoveOwner(s: State, s': State, t: nat, l: Lock)
    requires OwnersOk(s) && t < |s.threads| && |s'.threads| == |s.threads| && s'.threads == s.threads[t := s'.threads[t]]
    requires s'.owner == s.owner[l := t] || s'.owner == s.owner - {l}
    requires l in s.owner ==> s.owner[l] == t
    requires forall k :: Exclusive(s'.threads[t], k) <==> if k == l then k in s'.owner else Exclusive(s.threads[t], k)
    ensures OwnersOk(s')
  {
    hide Exclusive;
  }

  lemma KeepReaders(s: State, s': State, t: nat)
    requires ReadersOk(s) && t < |s.threads| && |s'.threads| == |s.threads| && s'.threads == s.threads[t := s'.threads[t]]
    requires s'.readers == s.readers && forall k :: Shared(s'.threads[t], k) <==> Shared(s.threads[t], k)
    ensures ReadersOk(s') && forall k :: ReadersOf(s', k) == ReadersOf(s, k)
  {
    hide Shared;
    assert forall k :: ReadersOf(s', k) == ReadersOf(s, k);
  }

  lemma TakeExclusive(s: State, t: nat, th': Thread, l: Lock)
    requires Inv(s) && t < |s.threads| && Granted(s, t, l) && !(l.InodeLock? && Shares(s.threads[t]))
    requires forall k :: Exclusive(th', k) <==> Exclusive(s.threads[t], k) || k == l
    requires forall k :: Shared(th', k) <==> Shared(s.threads[t], k)
    requires InodeTable in s.owner && s.owner[InodeTable] == t ==> Depth(s.threads[t]) > 0
    requires Depth(th') == Depth(s.threads[t]) + (if l == InodeTable then 1 else 0)
    requires Exclusive(s.threads[t], InodeTable) <==> Depth(s.threads[t]) > 0
    ensures Inv(Take(s, t, l).(threads := s.threads[t := th']))
  {
    hide Depth, Shares, Exclusive, Shared, OwnersOk, ReadersOk;
    var s' := Take(s, t, l).(threads := s.threads[t := th']);
    MoveOwner(s, s', t, l);
    KeepReaders(s, s', t);
    TakeDepth(s, t, th', l);
  }

  lemma TakeDepth(s: State, t: nat, th': Thread, l: Lock)
    requires OwnersOk(s) && t < |s.threads| && (l == InodeTable && l in s.owner ==> s.owner[l] == t)
    requires s.depth == if InodeTable in s.owner then Depth(s.threads[s.owner[InodeTable]]) else 0
    requires Depth(th') == Depth(s.threads[t]) + (if l == InodeTable then 1 else 0)
    requires Exclusive(s.threads[t], InodeTable) <==> Depth(s.threads[t]) > 0
    requires !(l.InodeLock? && Shares(s.threads[t]))
    ensures var s' := Take(s, t, l).(threads := s.threads[t := th']);
            if InodeTable in s'.owner then
              s'.owner[InodeTable] < |s'.threads| && s'.depth == Depth(s'.threads[s'.owner[InodeTable]])
            else s'.depth == 0
  {
    hide Depth, Shares, Exclusive;
  }

  lemma TakeShared(s: State, t: nat, th': Thread, l: Lock)
    requires Inv(s) && t < |s.threads| && Granted(s, t, l) && l.InodeLock? && Shares(s.threads[t])
    requires forall k :: Exclusive(th', k) <==> Exclusive(s.threads[t], k)
    requires forall k :: Shared(th', k) <==> Shared(s.threads[t], k) || k == l
    requires Depth(th') == Depth(s.threads[t])
    ensures Inv(Take(s, t, l).(threads := s.threads[t := th']))
  {
    hide Held, Wants, Depth, Shares, Exclusive, Shared;
    var s' := Take(s, t, l).(threads := s.threads[t := th']);
    assert forall k :: ReadersOf(s', k) == ReadersOf(s, k) + (if k == l then {t} else {});
  }

  lemma AcquireKeepsInv(s: State, t: nat)
    requires Inv(s) && t < |s.threads| && Wants(s.threads[t]).Some? && Granted(s, t, Wants(s.threads[t]).value)
    ensures Inv(Take(s, t, Wants(s.threads[t]).value).(threads := s.threads[t := Acquired(s.threads[t])]))
  {
    hide Held, Wants, Depth, Acquired, Shares, Inv, Granted;
    HeldAfterAcquire(s.threads[t]);
    DepthHeld(s.threads[t]);
    var th, th', l := s.threads[t], Acquired(s.threads[t]), Wants(s.threads[t]).value;
    OwnDepth(s, t);
    if l.InodeLock? && Shares(th) { TakeShared(s, t, th', l); } else { TakeExclusive(s, t, th', l); }
  }

  lemma OwnDepth(s: State, t: nat)
    requires Inv(s) && t < |s.threads|
    ensures InodeTable in s.owner && s.owner[InodeTable] == t ==> Depth(s.threads[t]) > 0
    ensures Exclusive(s.threads[t], InodeTable) <==> Depth(s.threads[t]) > 0
  {
    hide Held, Shares;
  }

  lemma DepthHeld(th: Thread)
    ensures InodeTable in Held(th) <==> Depth(th) > 0
  {}

  lemma DropExclusive(s: State, t: nat, th': Thread, l: Lock, kept: bool)
    requires Inv(s) && t < |s.threads| && Exclusive(s.threads[t], l) && !(l.InodeLock? && Shares(s.threads[t]))
    requires kept == (l == InodeTable && Depth(s.threads[t]) > 1)
    requires forall k :: Exclusive(th', k) <==> Exclusive(s.threads[t], k) && (k != l || kept)
    requires forall k :: Shared(th', k) <==> Shared(s.threads[t], k)
    requires Depth(th') == Depth(s.threads[t]) - (if l == InodeTable then 1 else 0)
    ensures Inv(Drop(s, t, l).(threads := s.threads[t := th']))
  {
    hide Depth, Shares, Exclusive, Shared, OwnersOk, ReadersOk;
    var s' := Drop(s, t, l).(threads := s.threads[t := th']);
    OwnerHolds(s, t, l);
    assert kept ==> s'.owner == s.owner[l := t];
    MoveOwner(s, s', t, l);
    KeepReaders(s, s', t);
    OwnersAreThreads(s);
  }

  lemma OwnerHolds(s: State, t: nat, l: Lock)
    requires OwnersOk(s) && t < |s.threads| && Exclusive(s.threads[t], l)
    ensures l in s.owner && s.owner[l] == t
  {
    hide Exclusive;
  }

  lemma OwnersAreThreads(s: State)
    requires OwnersOk(s)
    ensures forall l :: l in s.owner ==> s.owner[l] < |s.threads|
  {
    hide Exclusive;
  }

  lemma DropShared(s: State, t: nat, th': Thread, l: Lock)
    requires Inv(s) && t < |s.threads| && l.InodeLock? && Shares(s.threads[t]) && Shared(s.threads[t], l)
    requires forall k :: Exclusive(th', k) <==> Exclusive(s.threads[t], k)
    requires forall k :: Shared(th', k) <==> Shared(s.threads[t], k) && k != l
    requires Depth(th') == Depth(s.threads[t])
    ensures Inv(Drop(s, t, l).(threads := s.threads[t := th']))
  {
    hide Held, Wants, Depth, Shares, Exclusive, Shared;
    var s' := Drop(s, t, l).(threads := s.threads[t := th']);
    assert forall k :: ReadersOf(s', k) == ReadersOf(s, k) - (if k == l then {t} else {});
  }

  lemma ReleaseKeepsInv(s: State, t: nat, th': Thread)
    requires Inv(s) && t < |s.threads| && Continues(s.threads[t], th') && Gives(s.threads[t], th').Some?
    ensures Inv(Drop(s, t, Gives(s.threads[t], th').value).(threads := s.threads[t := th']))
  {
    hide Held, Wants, Depth, Continues, Gives, Shares, Inv;
    HeldAfterRelease(s.threads[t], th');
    var th, l := s.threads[t], Gives(s.threads[t], th').value;
    var kept := l == InodeTable && Depth(th) > 1;
    assert forall k :: Exclusive(th', k) <==> Exclusive(th, k) && (k != l || kept);
    assert forall k :: Shared(th', k) <==> Shared(th, k) && k != l;
    if l.InodeLock? && Shares(th) { DropShared(s, t, th', l); } else { DropExclusive(s, t, th', l, kept); }
  }

  lemma LocalKeepsInv(s: State, t: nat, th': Thread)
    requires Inv(s) && t < |s.threads|
    requires GivesUp(s.threads[t], th') || (Continues(s.threads[t], th') && Gives(s.threads[t], th').None?)
    ensures Inv(s.(threads := s.threads[t := th']))
  {
    hide Held, Wants, Depth, Continues, Gives, GivesUp, Shares;
    HeldAfterLocal(s.threads[t], th');
    DepthHeld(s.threads[t]);
    var th, s' := s.threads[t], s.(threads := s.threads[t := th']);
    assert forall k :: Exclusive(th', k) <==> Exclusive(th, k);
    assert forall k :: Shared(th', k) <==> Shared(th, k);
    assert forall k :: ReadersOf(s', k) == ReadersOf(s, k);
  }

  // The locks have nothing to do with the tables.
  lemma OtherTables(s: State, tb: Tables)
    requires Inv(s)
    ensures Inv(s.(tables := tb))
  {
    hide Exclusive, Shared;
    assert forall l :: ReadersOf(s.(tables := tb), l) == ReadersOf(s, l);
  }

  lemma StepKeepsInv(s: State, t: nat, th': Thread, s': State)
    requires Inv(s) && Step(s, t, th', s')
    ensures Inv(s')
  {
    hide Inv, Held, Wants, Continues, Effect, Gives, GivesUp, Take, Drop, Acquired;
    var th := s.threads[t];
    if Wants(th).Some? && Granted(s, t, Wants(th).value) && th' == Acquired(th)
       && s' == Take(s, t, Wants(th).value).(threads := s.threads[t := th']) {
      AcquireKeepsInv(s, t);
    } else if GivesUp(th, th') && s' == s.(threads := s.threads[t := th']) {
      LocalKeepsInv(s, t, th');
    } else if Gives(th, th').Some? {
      ReleaseKeepsInv(s, t, th');
      OtherTables(Drop(s, t, Gives(th, th').value).(threads := s.threads[t := th']), s'.tables);
    } else {
      LocalKeepsInv(s, t, th');
      OtherTables(s.(threads := s.threads[t := th']), s'.tables);
    }
  }

  // ---------- deadlock freedom ----------

  predicate Over(th: Thread) { th == Finished || th == Leaked }

  ghost predicate CanStep(s: State, t: nat) { exists th', s' :: Step(s, t, th', s') }

  // A thread that waits for nothing has somewhere to go.
  lemma NotWaitingGoes(s: State, t: nat)
    requires t < |s.threads| && !Over(s.threads[t]) && Wants(s.threads[t]).None?
    ensures CanStep(s, t)
  {
    var th := s.threads[t];
    var (th', tb) := Onward(th, s.tables);
    assert Continues(th, th') && Effect(s.tables, th, th', tb);
    var s' := (match Gives(th, th') case Some(l) => Drop(s, t, l) case None => s).(threads := s.threads[t := th'], tables := tb);
    assert Step(s, t, th', s');
  }

  function Onward(th: Thread, tb: Tables): (Thread, Tables) {
    match th
    case Io(w, _, _, at) =>
      (match at
       case HaveFile => th.(at := WantInodes)
       case HaveInodes => th.(at := NoInode)
       case NoInode => th.(at := if w then NoInodeFile else NoInodeTable)
       case HaveInode => th.(at := Loop)
       case Loop => th
       case HaveBlocks => th.(at := Loop)
       case OutFile => th.(at := OutInode)
       case FailInode => th.(at := FailFile)
       case _ => Finished, tb)
    case Open(name, creat, op) =>
      (match op
       case OpenFound => (th.(op := OpenDecide(FindInDir(tb.entries, Sub(name)))), tb)
       case OpenDecide(r) =>
         (th.(op := if ValidInumber(r) then OpenWantInode(r) else if r < 0 && creat then OpenMiss else OpenGiveUp), tb)
       case OpenHaveInode(i) => (th.(op := OpenDropInode(i)), tb)
       case OpenDropInode(_) => (th.(op := OpenScan(0)), tb)
       case OpenMiss => (th.(op := OpenCreate), tb)
       case OpenCreated =>
         var i := FirstFree(tb.inodeTs);
         if i == -1 then (Leaked, tb) else (th.(op := OpenAdd(i)), tb.(inodeTs := tb.inodeTs[i := TAKEN]))
       case OpenAdded(i) =>
         if AddSlot(tb.entries, Sub(name)) == -1 then (th.(op := OpenDelete(i)), tb)
         else (th.(op := OpenScan(0)), tb.(entries := AddEntry(tb.entries, i, Sub(name))))
       case OpenDeleted(i) => (Finished, if i < INODE_TABLE_SIZE then tb.(inodeTs := tb.inodeTs[i := FREE]) else tb)
       case _ => (Finished, tb))
    case _ => (Finished, tb)
  }

  // u holds the lock that t wants, and they are not both readers of one inode.
  predicate StandsInWay(s: State, t: nat, u: nat)
    requires t < |s.threads| && u < |s.threads|
  {
    var th, uh := s.threads[t], s.threads[u];
    && t != u && Wants(th).Some? && Wants(th).value in Held(uh)
    && !(Wants(th).value.InodeLock? && th.Io? && !th.write && uh.Io? && !uh.write)
  }

  // Whoever stands in the way of a refused lock holds it.
  lemma BlockedBy(s: State, t: nat) returns (u: nat)
    requires Inv(s) && t < |s.threads| && Wants(s.threads[t]).Some? && !Granted(s, t, Wants(s.threads[t]).value)
    ensures u < |s.threads| && StandsInWay(s, t, u)
  {
    hide Held, Wants, Depth;
    var l := Wants(s.threads[t]).value;
    if l != InodeTable { WantsFresh(s.threads[t]); }
    if l in s.owner {
      assert Exclusive(s.threads[s.owner[l]], l);
      u := s.owner[l];
    } else {
      u :| u in ReadersOf(s, l);
      assert Shared(s.threads[u], l);
    }
  }

  lemma WantsFresh(th: Thread)
    requires Wants(th).Some? && Wants(th).value != InodeTable
    ensures Wants(th).value !in Held(th)
  {}

  lemma FinishedHoldsNothing(th: Thread)
    ensures Over(th) && Held(th) != {} ==> th == Leaked
  {}

  // Follow the chain of blockers: the ranks rise, so it ends in a thread that can go on.
  lemma {:induction false} FindRunner(s: State, t: nat) returns (u: nat)
    requires Inv(s) && t < |s.threads| && !Over(s.threads[t])
    requires forall v :: 0 <= v < |s.threads| ==> s.threads[v] != Leaked
    ensures u < |s.threads| && CanStep(s, u)
    decreases if Wants(s.threads[t]).Some? then 5 - Rank(Wants(s.threads[t]).value) else 0
  {
    hide Inv, Held, Wants, Acquired, Continues, Gives, Take, Drop;
    var th := s.threads[t];
    if Wants(th).None? {
      NotWaitingGoes(s, t);
      return t;
    }
    var l := Wants(th).value;
    if Granted(s, t, l) {
      assert Step(s, t, Acquired(th), Take(s, t, l).(threads := s.threads[t := Acquired(th)]));
      return t;
    }
    var v := BlockedBy(s, t);
    FinishedHoldsNothing(s.threads[v]);
    if Wants(s.threads[v]).Some? {
      WantsGoUp(s.threads[v], l);
      if Rank(l) == Rank(Wants(s.threads[v]).value) {
        HolderAgain(s, v);
        assert Step(s, v, Acquired(s.threads[v]), Take(s, v, InodeTable).(threads := s.threads[v := Acquired(s.threads[v])]));
        return v;
      }
    } else {
      NotWaitingGoes(s, v);
      return v;
    }
    u := FindRunner(s, v);
  }

  lemma HolderAgain(s: State, t: nat)
    requires Inv(s) && t < |s.threads| && InodeTable in Held(s.threads[t])
    ensures Granted(s, t, InodeTable)
  {
    hide Held;
    assert Exclusive(s.threads[t], InodeTable);
  }

  // A run, with the thread that moves at each step.
  ghost predicate RunTo(s: State, ts: seq<nat>, s': State)
    decreases |ts|
  {
    if |ts| == 0 then s' == s
    else exists th', s1 :: Step(s, ts[0], th', s1) && RunTo(s1, ts[1..], s')
  }

  lemma {:induction false} RunKeepsInv(s: State, ts: seq<nat>, s': State)
    requires Inv(s) && RunTo(s, ts, s')
    ensures Inv(s')
    decreases |ts|
  {
    hide Inv, Step;
    if |ts| > 0 {
      var th', s1 :| Step(s, ts[0], th', s1) && RunTo(s1, ts[1..], s');
      StepKeepsInv(s, ts[0], th', s1);
      RunKeepsInv(s1, ts[1..], s');
    }
  }

  // No reachable state in which inode_create has found a free inode so far is a deadlock: while
  // a thread is unfinished, some thread can take a step.
  lemma DeadlockFree(s0: State, ts: seq<nat>, s: State, t: nat)
    requires Initial(s0) && RunTo(s0, ts, s)
    requires t < |s.threads| && !Over(s.threads[t])
    requires forall v :: 0 <= v < |s.threads| ==> s.threads[v] != Leaked
    ensures exists u: nat :: u < |s.threads| && CanStep(s, u)
  {
    hide Inv, CanStep;
    InitialInv(s0);
    RunKeepsInv(s0, ts, s);
    var u := FindRunner(s, t);
  }

  // The condition is needed: after inode_create has returned without unlocking, no other thread
  // ever gets the inode table.
  lemma LeakBlocks(s: State, v: nat, t: nat)
    requires Inv(s) && v < |s.threads| && s.threads[v] == Leaked
    requires t < |s.threads| && t != v && Wants(s.threads[t]) == Some(InodeTable)
    ensures !CanStep(s, t)
  {
    assert InodeTable in Held(s.threads[v]);
  }
}
