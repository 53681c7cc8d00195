/** Any number of threads in tfs_write and tfs_read over the real tables of the first version,
    one loop round or one lock operation per step. The open-file-table and inode-table mutexes,
    which only bracket the look-ups, are dropped: that adds interleavings. */
module Serial {
  import opened Config
  import opened FirstFit
  import opened MultiBlock
  import opened Ownership
  import opened Writing
  import opened WriteTheorems
  import F = FlatFile
  import R = Reading

  datatype Call = WriteCall(h: nat, buf: seq<byte>) | ReadCall(h: nat, len: nat)

  datatype Answer = Count(n: nat) | Bytes(data: seq<byte>)

  // ---------- the serial order: calls on flat files, one after the other ----------

  datatype Flats = Flats(contents: seq<seq<byte>>, offsets: seq<nat>, inums: seq<nat>)

  predicate FlatsOk(a: Flats) {
    && |a.contents| == INODE_TABLE_SIZE && |a.offsets| == |a.inums| == MAX_OPEN_FILES
    && forall h :: 0 <= h < MAX_OPEN_FILES ==> a.inums[h] < INODE_TABLE_SIZE && a.offsets[h] <= |a.contents[a.inums[h]]|
  }

  function Atomic(a: Flats, c: Call): (r: (Flats, Answer))
    requires FlatsOk(a) && c.h < MAX_OPEN_FILES
    ensures FlatsOk(r.0)
  {
    var i, off := a.inums[c.h], a.offsets[c.h];
    match c
    case WriteCall(h, buf) =>
      (a.(contents := a.contents[i := Splice(a.contents[i], off, buf)], offsets := a.offsets[h := off + |buf|]), Count(|buf|))
    case ReadCall(h, len) =>
      var n := Min(len, |a.contents[i]| - off);
      (a.(offsets := a.offsets[h := off + n]), Bytes(a.contents[i][off..off + n]))
  }

  // A log entry: which thread made the call.
  datatype Entry = Entry(t: nat, call: Call)

  predicate LogOk(log: seq<Entry>) { forall k :: 0 <= k < |log| ==> log[k].call.h < MAX_OPEN_FILES }

  function Replay(a: Flats, log: seq<Entry>): (r: Flats)
    requires FlatsOk(a) && LogOk(log)
    ensures FlatsOk(r)
    decreases |log|
  {
    if |log| == 0 then a else Atomic(Replay(a, log[..|log| - 1]), log[|log| - 1].call).0
  }

  // What thread t is answered when the log is replayed.
  function Answers(a: Flats, log: seq<Entry>, t: nat): seq<Answer>
    requires FlatsOk(a) && LogOk(log)
    decreases |log|
  {
    if |log| == 0 then []
    else
      var before := log[..|log| - 1];
      var e := log[|log| - 1];
      Answers(a, before, t) + if e.t == t then [Atomic(Replay(a, before), e.call).1] else []
  }

  function CallsOf(log: seq<Entry>, t: nat): seq<Call>
    decreases |log|
  {
    if |log| == 0 then []
    else CallsOf(log[..|log| - 1], t) + if log[|log| - 1].t == t then [log[|log| - 1].call] else []
  }

  // ---------- the threads ----------

  datatype Point =
    | Idle
    | GotFile(c: Call)                                          // holds the handle's mutex
    | InWrite(c: Call, i: nat, rest: seq<byte>, size0: nat, off0: nat)  // and the inode's lock, writing
    | InRead(c: Call, i: nat, want: nat, acc: seq<byte>)        // and the inode's lock, reading
    | Leaving(c: Call, i: nat, answer: Answer)                  // about to give the handle back
    | Unlocking(c: Call, i: nat, answer: Answer)                // about to give the inode's lock back

  datatype Thread = Thread(todo: seq<Call>, at: Point, answers: seq<Answer>)

  // sizes and log are history: the logical size of each file, and the calls in the order in
  // which they took the inode's lock.
  datatype State = State(fs: Fs, fileLock: seq<Option<nat>>, writer: seq<Option<nat>>, readers: seq<set<nat>>,
                         threads: seq<Thread>, sizes: seq<nat>, log: seq<Entry>)

  predicate HoldsFile(p: Point, h: nat) { !p.Idle? && !p.Unlocking? && p.c.h == h }

  predicate HasInode(p: Point) { p.InWrite? || p.InRead? || p.Leaving? || p.Unlocking? }

  predicate HoldsWrite(p: Point, i: nat) { HasInode(p) && p.i == i && p.c.WriteCall? }

  predicate HoldsRead(p: Point, i: nat) { HasInode(p) && p.i == i && p.c.ReadCall? }

  ghost predicate Shape(s: State) {
    && |s.fileLock| == MAX_OPEN_FILES && |s.writer| == |s.readers| == |s.sizes| == INODE_TABLE_SIZE
    && LogOk(s.log)
  }

  // Thread t moves on to p.
  function At(s: State, t: nat, p: Point): State
    requires t < |s.threads|
  {
    s.(threads := s.threads[t := s.threads[t].(at := p)])
  }

  // ---------- the steps of thread t ----------

  // The handle's mutex.
  ghost predicate TakeHandle(s: State, t: nat, s': State)
    requires Shape(s) && t < |s.threads|
  {
    var th := s.threads[t];
    && th.at.Idle? && |th.todo| > 0
    && var h := th.todo[0].h;
       && h < MAX_OPEN_FILES && s.fileLock[h] == None
       && s' == s.(fileLock := s.fileLock[h := Some(t)],
                   threads := s.threads[t := th.(todo := th.todo[1..], at := GotFile(th.todo[0]))])
  }

  // The inode's lock for writing, and the two values kept for the size repair.
  ghost predicate BeginWrite(s: State, t: nat, s': State)
    requires Shape(s) && t < |s.threads|
  {
    var p := s.threads[t].at;
    && p.GotFile? && p.c.WriteCall? && Usable(s.fs, p.c.h)
    && var f := s.fs.files[p.c.h];
       && s.writer[f.inum] == None && s.readers[f.inum] == {}
       && s' == At(s, t, InWrite(p.c, f.inum, p.c.buf, s.fs.inodes[f.inum].size, f.offset)).(
                  writer := s.writer[f.inum := Some(t)], log := s.log + [Entry(t, p.c)])
  }

  // The inode's lock for reading, and the number of bytes to read.
  ghost predicate BeginRead(s: State, t: nat, s': State)
    requires Shape(s) && t < |s.threads|
  {
    var p := s.threads[t].at;
    && p.GotFile? && p.c.ReadCall? && Usable(s.fs, p.c.h)
    && var f := s.fs.files[p.c.h];
       && s.writer[f.inum] == None
       && s' == At(s, t, InRead(p.c, f.inum, ToRead(s.fs.inodes[f.inum].size, f.offset, p.c.len), [])).(
                  readers := s.readers[f.inum := s.readers[f.inum] + {t}], log := s.log + [Entry(t, p.c)])
  }

  // One round of the loop of tfs_write that finds its block.
  ghost predicate WriteRound(s: State, t: nat, s': State)
    requires Shape(s) && t < |s.threads|
  {
    var p := s.threads[t].at;
    && p.InWrite? && |p.rest| > 0 && Usable(s.fs, p.c.h) && p.i < INODE_TABLE_SIZE
    && var (fs', o) := WriteStep(s.fs, p.c.h, p.rest);
       var off := s.fs.files[p.c.h].offset;
       var n := Chunk(off, |p.rest|);
       && o == Done
       && s' == At(s, t, p.(rest := p.rest[n..])).(fs := fs', sizes := s.sizes[p.i := Max(s.sizes[p.i], off + n)])
  }

  // The size repair.
  ghost predicate EndWrite(s: State, t: nat, s': State)
    requires Shape(s) && t < |s.threads|
  {
    var p := s.threads[t].at;
    && p.InWrite? && |p.rest| == 0 && p.c.WriteCall? && p.i < INODE_TABLE_SIZE
    && s' == At(s, t, Leaving(p.c, p.i, Count(|p.c.buf|))).(
               fs := SetSize(s.fs, p.i, RepairedSize(s.fs.inodes[p.i].size, p.size0, p.off0, |p.c.buf|)))
  }

  // One round of the loop of tfs_read.
  ghost predicate ReadRound(s: State, t: nat, s': State)
    requires Shape(s) && t < |s.threads|
  {
    var p := s.threads[t].at;
    && p.InRead? && p.want > 0 && Usable(s.fs, p.c.h)
    && var (fs', got, o) := ReadStep(s.fs, p.c.h, p.want);
       o == Done && s' == At(s, t, p.(want := p.want - |got|, acc := p.acc + got)).(fs := fs')
  }

  ghost predicate EndRead(s: State, t: nat, s': State)
    requires Shape(s) && t < |s.threads|
  {
    var p := s.threads[t].at;
    p.InRead? && p.want == 0 && s' == At(s, t, Leaving(p.c, p.i, Bytes(p.acc)))
  }

  ghost predicate DropHandle(s: State, t: nat, s': State)
    requires Shape(s) && t < |s.threads|
  {
    var p := s.threads[t].at;
    p.Leaving? && p.c.h < MAX_OPEN_FILES
    && s' == At(s, t, Unlocking(p.c, p.i, p.answer)).(fileLock := s.fileLock[p.c.h := None])
  }

  ghost predicate DropInode(s: State, t: nat, s': State)
    requires Shape(s) && t < |s.threads|
  {
    var th := s.threads[t];
    var p := th.at;
    && p.Unlocking? && p.i < INODE_TABLE_SIZE
    && s' == s.(threads := s.threads[t := th.(at := Idle, answers := th.answers + [p.answer])],
                writer := if p.c.WriteCall? then s.writer[p.i := None] else s.writer,
                readers := if p.c.ReadCall? then s.readers[p.i := s.readers[p.i] - {t}] else s.readers)
  }

  ghost predicate Step(s: State, t: nat, s': State)
    requires Shape(s)
  {
    && t < |s.threads|
    && (|| TakeHandle(s, t, s') || BeginWrite(s, t, s') || BeginRead(s, t, s') || WriteRound(s, t, s') || EndWrite(s, t, s')
        || ReadRound(s, t, s') || EndRead(s, t, s') || DropHandle(s, t, s') || DropInode(s, t, s'))
  }

  // ---------- who holds what ----------

  ghost predicate LocksOk(s: State)
    requires Shape(s)
  {
    && (forall t :: 0 <= t < |s.threads| ==>
          && (forall h :: 0 <= h < MAX_OPEN_FILES ==> (HoldsFile(s.threads[t].at, h) <==> s.fileLock[h] == Some(t)))
          && (forall i :: 0 <= i < INODE_TABLE_SIZE ==> (HoldsWrite(s.threads[t].at, i) <==> s.writer[i] == Some(t)))
          && (forall i :: 0 <= i < INODE_TABLE_SIZE ==> (HoldsRead(s.threads[t].at, i) <==> t in s.readers[i])))
    && (forall i :: 0 <= i < INODE_TABLE_SIZE && s.writer[i] != None ==> s.readers[i] == {})
  }

  lemma StepLocks(s: State, t: nat, s': State)
    requires Shape(s) && LocksOk(s) && Step(s, t, s')
    ensures Shape(s') && LocksOk(s')
    ensures |s'.threads| == |s.threads| && (forall u :: 0 <= u < |s.threads| && u != t ==> s'.threads[u] == s.threads[u])
  {
    hide LocksOk, TakeHandle, BeginWrite, BeginRead, WriteRound, EndWrite, ReadRound, EndRead, DropHandle, DropInode;
    if TakeHandle(s, t, s') || DropHandle(s, t, s') {
      HandleLocks(s, t, s');
    } else if BeginWrite(s, t, s') || BeginRead(s, t, s') {
      BeginLocks(s, t, s');
    } else if DropInode(s, t, s') {
      DropInodeLocks(s, t, s');
    } else {
      RoundLocks(s, t, s');
    }
  }

  lemma RoundLocks(s: State, t: nat, s': State)
    requires Shape(s) && LocksOk(s) && t < |s.threads|
    requires WriteRound(s, t, s') || EndWrite(s, t, s') || ReadRound(s, t, s') || EndRead(s, t, s')
    ensures Shape(s') && LocksOk(s') && |s'.threads| == |s.threads| && s'.threads == s.threads[t := s'.threads[t]]
  {
    hide WriteStep, ReadStep, RepairedSize, Chunk, SetSize;
  }

  lemma HandleLocks(s: State, t: nat, s': State)
    requires Shape(s) && LocksOk(s) && t < |s.threads| && (TakeHandle(s, t, s') || DropHandle(s, t, s'))
    ensures Shape(s') && LocksOk(s') && |s'.threads| == |s.threads| && s'.threads == s.threads[t := s'.threads[t]]
  {}

  lemma BeginLocks(s: State, t: nat, s': State)
    requires Shape(s) && LocksOk(s) && t < |s.threads| && (BeginWrite(s, t, s') || BeginRead(s, t, s'))
    ensures Shape(s') && LocksOk(s') && |s'.threads| == |s.threads| && s'.threads == s.threads[t := s'.threads[t]]
  {
    hide ToRead;
  }

  lemma DropInodeLocks(s: State, t: nat, s': State)
    requires Shape(s) && LocksOk(s) && t < |s.threads| && DropInode(s, t, s')
    ensures Shape(s') && LocksOk(s') && |s'.threads| == |s.threads| && s'.threads == s.threads[t := s'.threads[t]]
  {}

  // Two threads at work use different handles, and different inodes unless both read.
  lemma Apart(s: State, t: nat, u: nat)
    requires Shape(s) && LocksOk(s) && t < |s.threads| && u < |s.threads| && t != u
    ensures var p, q := s.threads[t].at, s.threads[u].at;
            && (!p.Idle? && !p.Unlocking? && !q.Idle? && !q.Unlocking? && p.c.h < MAX_OPEN_FILES ==> p.c.h != q.c.h)
            && (HasInode(p) && HasInode(q) && p.i < INODE_TABLE_SIZE && (p.c.WriteCall? || q.c.WriteCall?) ==> p.i != q.i)
  {
    var p, q := s.threads[t].at, s.threads[u].at;
    if !p.Idle? && !p.Unlocking? && p.c.h < MAX_OPEN_FILES {
      assert HoldsFile(p, p.c.h) <==> s.fileLock[p.c.h] == Some(t);
      assert HoldsFile(q, p.c.h) <==> s.fileLock[p.c.h] == Some(u);
    }
    if HasInode(p) && p.i < INODE_TABLE_SIZE {
      assert HoldsWrite(p, p.i) <==> s.writer[p.i] == Some(t);
      assert HoldsRead(p, p.i) <==> t in s.readers[p.i];
      assert HoldsWrite(q, p.i) <==> s.writer[p.i] == Some(u);
      assert HoldsRead(q, p.i) <==> u in s.readers[p.i];
    }
  }

  // ---------- what the tables hold ----------

  // The handles in use are on live files, at offsets within their logical size.
  ghost predicate TablesOk(fs: Fs, sizes: seq<nat>) {
    && Store(fs, sizes)
    && (forall h: nat :: F.OpenHandle(fs, h) ==> Ready(fs, sizes, h))
  }

  function Cur(fs: Fs, sizes: seq<nat>, i: nat): seq<byte>
    requires |sizes| == INODE_TABLE_SIZE && i < INODE_TABLE_SIZE
  {
    if sizes[i] <= MAX_FILE_BYTES then Flat(fs, i, sizes[i]) else []
  }

  // The rest of a write, put at the offset, gives the contents in the serial state a.
  ghost predicate WriterOk(fs: Fs, sizes: seq<nat>, a: Flats, p: Point)
    requires p.InWrite? && |sizes| == INODE_TABLE_SIZE && FlatsOk(a) && p.c.h < MAX_OPEN_FILES
  {
    && p.c.WriteCall? && p.i < INODE_TABLE_SIZE
    && var off, c := fs.files[p.c.h].offset, Cur(fs, sizes, p.i);
       && p.off0 <= off <= |c| && |p.c.buf| == off - p.off0 + |p.rest|
       && off + |p.rest| == a.offsets[p.c.h] && p.off0 <= p.size0
       && Splice(c, off, p.rest) == a.contents[p.i]
       && fs.inodes[p.i].size == p.size0 + (off - p.off0) && sizes[p.i] == Max(p.size0, off)
  }

  ghost predicate ReaderOk(fs: Fs, sizes: seq<nat>, a: Flats, p: Point)
    requires p.InRead? && |sizes| == INODE_TABLE_SIZE && FlatsOk(a) && p.c.h < MAX_OPEN_FILES
  {
    && p.c.ReadCall? && p.i < INODE_TABLE_SIZE
    && fs.files[p.c.h].offset + p.want <= |Cur(fs, sizes, p.i)|
    && fs.files[p.c.h].offset + p.want == a.offsets[p.c.h]
  }

  ghost predicate ThreadOk(fs: Fs, sizes: seq<nat>, a: Flats, th: Thread)
    requires |sizes| == INODE_TABLE_SIZE && FlatsOk(a)
  {
    && (forall k :: 0 <= k < |th.todo| ==> F.OpenHandle(fs, th.todo[k].h))
    && (!th.at.Idle? ==> F.OpenHandle(fs, th.at.c.h))
    && (HasInode(th.at) ==> th.at.i == fs.files[th.at.c.h].inum)
    && (th.at.InWrite? ==> WriterOk(fs, sizes, a, th.at))
    && (th.at.InRead? ==> ReaderOk(fs, sizes, a, th.at))
  }

  // The answers a thread has, and the one it is about to have.
  ghost function Expected(fs: Fs, sizes: seq<nat>, th: Thread): seq<Answer>
    requires |sizes| == INODE_TABLE_SIZE
  {
    match th.at
    case InWrite(c, _, _, _, _) => if c.WriteCall? then th.answers + [Count(|c.buf|)] else th.answers
    case InRead(c, i, want, acc) =>
      if c.h < MAX_OPEN_FILES && i < INODE_TABLE_SIZE && fs.files[c.h].offset + want <= |Cur(fs, sizes, i)|
      then th.answers + [Bytes(acc + Cur(fs, sizes, i)[fs.files[c.h].offset..fs.files[c.h].offset + want])]
      else th.answers
    case Leaving(_, _, answer) => th.answers + [answer]
    case Unlocking(_, _, answer) => th.answers + [answer]
    case _ => th.answers
  }

  // The calls a thread has still to log.
  function Pending(th: Thread): seq<Call> {
    if th.at.GotFile? then [th.at.c] + th.todo else th.todo
  }

  ghost predicate BusyWriter(s: State, i: nat)
    requires Shape(s) && i < INODE_TABLE_SIZE
  {
    s.writer[i].Some? && s.writer[i].value < |s.threads| && s.threads[s.writer[i].value].at.InWrite?
  }

  ghost predicate BusyHandle(s: State, h: nat)
    requires Shape(s) && h < MAX_OPEN_FILES
  {
    && s.fileLock[h].Some? && s.fileLock[h].value < |s.threads|
    && (s.threads[s.fileLock[h].value].at.InWrite? || s.threads[s.fileLock[h].value].at.InRead?)
  }

  // A file that no one is writing to holds what it holds in the serial state.
  ghost predicate FilesFlat(s: State, a: Flats)
    requires Shape(s) && FlatsOk(a)
  {
    forall i: nat :: LiveFile(s.fs, i) && !BusyWriter(s, i) ==>
      s.fs.inodes[i].size == s.sizes[i] && Cur(s.fs, s.sizes, i) == a.contents[i]
  }

  ghost predicate HandlesFlat(s: State, a: Flats)
    requires Shape(s) && FlatsOk(a)
  {
    forall h: nat :: F.OpenHandle(s.fs, h) ==>
      a.inums[h] == s.fs.files[h].inum && (!BusyHandle(s, h) ==> s.fs.files[h].offset == a.offsets[h])
  }

  ghost predicate ThreadsOk(fs: Fs, sizes: seq<nat>, a: Flats, threads: seq<Thread>)
    requires |sizes| == INODE_TABLE_SIZE && FlatsOk(a)
  {
    forall t :: 0 <= t < |threads| ==> ThreadOk(fs, sizes, a, threads[t])
  }

  // The concrete state s and the serial state a agree, but for the calls under way.
  ghost predicate Agrees(s: State, a: Flats)
    requires Shape(s) && FlatsOk(a)
  {
    TablesOk(s.fs, s.sizes) && FilesFlat(s, a) && HandlesFlat(s, a) && ThreadsOk(s.fs, s.sizes, a, s.threads)
  }

  // What a step of t leaves for the others.
  ghost predicate SameExpected(s: State, t: nat, s': State)
    requires Shape(s) && Shape(s') && |s'.threads| == |s.threads|
  {
    forall u :: 0 <= u < |s.threads| && u != t ==>
      Expected(s'.fs, s'.sizes, s'.threads[u]) == Expected(s.fs, s.sizes, s.threads[u])
  }

  // ---------- steps that leave the tables alone ----------

  lemma TakeHandleKeeps(s: State, t: nat, s': State, a: Flats)
    requires Shape(s) && LocksOk(s) && FlatsOk(a) && Agrees(s, a) && t < |s.threads| && TakeHandle(s, t, s')
    ensures Shape(s') && Agrees(s', a) && SameExpected(s, t, s')
    ensures Expected(s'.fs, s'.sizes, s'.threads[t]) == Expected(s.fs, s.sizes, s.threads[t])
    ensures Pending(s'.threads[t]) == Pending(s.threads[t]) && s'.log == s.log
  {
    hide Store, Cur, Ready, WriterOk, ReaderOk;
  }

  lemma EndReadKeeps(s: State, t: nat, s': State, a: Flats)
    requires Shape(s) && LocksOk(s) && FlatsOk(a) && Agrees(s, a) && t < |s.threads| && EndRead(s, t, s')
    ensures Shape(s') && Agrees(s', a) && SameExpected(s, t, s')
    ensures Expected(s'.fs, s'.sizes, s'.threads[t]) == Expected(s.fs, s.sizes, s.threads[t])
    ensures Pending(s'.threads[t]) == Pending(s.threads[t]) && s'.log == s.log
  {
    hide Store, Cur, Ready, WriterOk;
    var p := s.threads[t].at;
    assert HoldsFile(p, p.c.h);
    assert p.acc + Cur(s.fs, s.sizes, p.i)[s.fs.files[p.c.h].offset..s.fs.files[p.c.h].offset] == p.acc;
  }

  lemma DropHandleKeeps(s: State, t: nat, s': State, a: Flats)
    requires Shape(s) && LocksOk(s) && FlatsOk(a) && Agrees(s, a) && t < |s.threads| && DropHandle(s, t, s')
    ensures Shape(s') && Agrees(s', a) && SameExpected(s, t, s')
    ensures Expected(s'.fs, s'.sizes, s'.threads[t]) == Expected(s.fs, s.sizes, s.threads[t])
    ensures Pending(s'.threads[t]) == Pending(s.threads[t]) && s'.log == s.log
  {
    hide Store, Cur, Ready, WriterOk, ReaderOk;
    assert HoldsFile(s.threads[t].at, s.threads[t].at.c.h);
  }

  lemma DropInodeKeeps(s: State, t: nat, s': State, a: Flats)
    requires Shape(s) && LocksOk(s) && FlatsOk(a) && Agrees(s, a) && t < |s.threads| && DropInode(s, t, s')
    ensures Shape(s') && Agrees(s', a) && SameExpected(s, t, s')
    ensures Expected(s'.fs, s'.sizes, s'.threads[t]) == Expected(s.fs, s.sizes, s.threads[t])
    ensures Pending(s'.threads[t]) == Pending(s.threads[t]) && s'.log == s.log
  {
    hide Store, Cur, Ready, WriterOk, ReaderOk;
    var p := s.threads[t].at;
    if p.c.WriteCall? { assert HoldsWrite(p, p.i); }
  }

  // ---------- taking the inode's lock: here the call takes its place in the serial order ----------

  lemma BeginWriteKeeps(s: State, t: nat, s': State, a: Flats)
    requires Shape(s) && LocksOk(s) && FlatsOk(a) && Agrees(s, a) && t < |s.threads| && BeginWrite(s, t, s')
    requires Shape(s') && LocksOk(s')
    ensures var c := s.threads[t].at.c;
            && Agrees(s', Atomic(a, c).0) && SameExpected(s, t, s')
            && Expected(s'.fs, s'.sizes, s'.threads[t]) == Expected(s.fs, s.sizes, s.threads[t]) + [Atomic(a, c).1]
            && Pending(s.threads[t]) == [c] + Pending(s'.threads[t]) && s'.log == s.log + [Entry(t, c)]
  {
    hide Store, Flat;
    var p := s.threads[t].at;
    var h, i := p.c.h, s.fs.files[p.c.h].inum;
    assert HoldsFile(p, h);
    assert Ready(s.fs, s.sizes, h);
    assert !BusyHandle(s, h) && !BusyWriter(s, i);
    forall u | 0 <= u < |s.threads| && u != t ensures ThreadOk(s'.fs, s'.sizes, Atomic(a, p.c).0, s'.threads[u]) {
      Apart(s', t, u);
      assert ThreadOk(s.fs, s.sizes, a, s.threads[u]);
    }
  }

  lemma BeginReadKeeps(s: State, t: nat, s': State, a: Flats)
    requires Shape(s) && LocksOk(s) && FlatsOk(a) && Agrees(s, a) && t < |s.threads| && BeginRead(s, t, s')
    requires Shape(s') && LocksOk(s')
    ensures var c := s.threads[t].at.c;
            && Agrees(s', Atomic(a, c).0) && SameExpected(s, t, s')
            && Expected(s'.fs, s'.sizes, s'.threads[t]) == Expected(s.fs, s.sizes, s.threads[t]) + [Atomic(a, c).1]
            && Pending(s.threads[t]) == [c] + Pending(s'.threads[t]) && s'.log == s.log + [Entry(t, c)]
  {
    hide Store, Cur, Expected, ReaderOk, ToRead;
    var p := s.threads[t].at;
    var h, i := p.c.h, s.fs.files[p.c.h].inum;
    assert HoldsFile(p, h);
    assert Ready(s.fs, s.sizes, h);
    assert !BusyHandle(s, h) && !BusyWriter(s, i);
    ReaderBegins(s.fs, s.sizes, a, s.threads[t], s'.threads[t]);
    forall u | 0 <= u < |s.threads| && u != t
      ensures ThreadOk(s'.fs, s'.sizes, Atomic(a, p.c).0, s'.threads[u])
      ensures Expected(s'.fs, s'.sizes, s'.threads[u]) == Expected(s.fs, s.sizes, s.threads[u])
    {
      Apart(s', t, u);
      assert ThreadOk(s.fs, s.sizes, a, s.threads[u]);
      OffsetElsewhere(s.fs, s.sizes, a, p.c, s.threads[u]);
    }
  }

  lemma ReaderBegins(fs: Fs, sizes: seq<nat>, a: Flats, th: Thread, th': Thread)
    requires th.at.GotFile? && th.at.c.ReadCall? && Ready(fs, sizes, th.at.c.h) && FlatsOk(a)
    requires var h, i := th.at.c.h, fs.files[th.at.c.h].inum;
             && a.inums[h] == i && a.offsets[h] == fs.files[h].offset && a.contents[i] == Cur(fs, sizes, i)
             && fs.inodes[i].size == sizes[i]
             && th' == th.(at := InRead(th.at.c, i, ToRead(sizes[i], fs.files[h].offset, th.at.c.len), []))
    ensures ReaderOk(fs, sizes, Atomic(a, th.at.c).0, th'.at)
    ensures Expected(fs, sizes, th') == Expected(fs, sizes, th) + [Atomic(a, th.at.c).1]
  {
    hide Store, Flat;
    var h, i := th.at.c.h, fs.files[th.at.c.h].inum;
    R.ReadyBound(fs, sizes, h);
    var off, c := fs.files[h].offset, Cur(fs, sizes, i);
    var n := Min(th.at.c.len, |c| - off);
    assert [] + c[off..off + n] == c[off..off + n];
  }

  // A read moves one offset in the serial state.
  lemma OffsetElsewhere(fs: Fs, sizes: seq<nat>, a: Flats, c: Call, th: Thread)
    requires |sizes| == INODE_TABLE_SIZE && FlatsOk(a) && c.h < MAX_OPEN_FILES && c.ReadCall?
    requires ThreadOk(fs, sizes, a, th) && (th.at.InWrite? || th.at.InRead? ==> th.at.c.h != c.h)
    ensures ThreadOk(fs, sizes, Atomic(a, c).0, th)
  {
    hide Cur;
  }

  // ---------- rounds of the loops ----------

  // A round through handle h touches no other handle, and no file but i.
  ghost predicate Moved(fs: Fs, sizes: seq<nat>, fs': Fs, sizes': seq<nat>, h: nat, i: nat)
    requires |sizes| == |sizes'| == INODE_TABLE_SIZE
  {
    && fs'.fileTs == fs.fileTs
    && (forall j: nat :: LiveFile(fs', j) <==> LiveFile(fs, j))
    && (forall g :: 0 <= g < MAX_OPEN_FILES ==> fs'.files[g].inum == fs.files[g].inum && (g != h ==> fs'.files[g] == fs.files[g]))
    && (forall j: nat :: LiveFile(fs, j) && j != i ==>
          fs'.inodes[j].size == fs.inodes[j].size && sizes'[j] == sizes[j] && Cur(fs', sizes', j) == Cur(fs, sizes, j))
  }

  lemma OtherThread(fs: Fs, sizes: seq<nat>, fs': Fs, sizes': seq<nat>, a: Flats, h: nat, i: nat, th: Thread)
    requires |sizes| == |sizes'| == INODE_TABLE_SIZE && Moved(fs, sizes, fs', sizes', h, i) && FlatsOk(a)
    requires TablesOk(fs, sizes) && ThreadOk(fs, sizes, a, th)
    requires th.at.InWrite? || th.at.InRead? ==> th.at.c.h != h && th.at.i != i
    ensures ThreadOk(fs', sizes', a, th) && Expected(fs', sizes', th) == Expected(fs, sizes, th)
  {
    hide Store, Cur;
    if th.at.InWrite? || th.at.InRead? {
      assert Ready(fs, sizes, th.at.c.h);
      assert LiveFile(fs, th.at.i);
    }
  }

  // i is the file t writes to, or no file at all.
  lemma RoundKeeps(s: State, t: nat, s': State, a: Flats, i: nat)
    requires Shape(s) && Shape(s') && LocksOk(s) && FlatsOk(a) && Agrees(s, a) && t < |s.threads|
    requires |s'.threads| == |s.threads| && s'.threads == s.threads[t := s'.threads[t]]
    requires s'.fileLock == s.fileLock && s'.writer == s.writer && s'.readers == s.readers
    requires var p := s.threads[t].at;
             && (if p.InWrite? then i == p.i else p.InRead? && i == INODE_TABLE_SIZE)
             && Moved(s.fs, s.sizes, s'.fs, s'.sizes, p.c.h, i)
             && (s'.threads[t].at.InWrite? || (LiveFile(s'.fs, i) ==>
                   s'.fs.inodes[i].size == s'.sizes[i] && Cur(s'.fs, s'.sizes, i) == a.contents[i]))
             && (s'.threads[t].at.InWrite? || s'.threads[t].at.InRead?
                 || (p.c.h < MAX_OPEN_FILES && s'.fs.files[p.c.h].offset == a.offsets[p.c.h]))
    requires TablesOk(s'.fs, s'.sizes) && ThreadOk(s'.fs, s'.sizes, a, s'.threads[t])
    ensures Agrees(s', a) && SameExpected(s, t, s')
  {
    hide Store, Cur, Expected, WriterOk, ReaderOk, Ready;
    var p := s.threads[t].at;
    assert HoldsFile(p, p.c.h);
    assert p.InWrite? ==> HoldsWrite(p, i) by { WriterIsWriting(s, t, a); }
    forall u | 0 <= u < |s.threads| && u != t
      ensures ThreadOk(s'.fs, s'.sizes, a, s'.threads[u])
      ensures Expected(s'.fs, s'.sizes, s'.threads[u]) == Expected(s.fs, s.sizes, s.threads[u])
    {
      WriterIsWriting(s, t, a);
      WriterIsWriting(s, u, a);
      Apart(s, t, u);
      OtherThread(s.fs, s.sizes, s'.fs, s'.sizes, a, p.c.h, i, s.threads[u]);
    }
  }

  lemma WriterIsWriting(s: State, t: nat, a: Flats)
    requires Shape(s) && FlatsOk(a) && Agrees(s, a) && t < |s.threads|
    ensures var p := s.threads[t].at;
            && (p.InWrite? ==> p.c.WriteCall? && p.i < INODE_TABLE_SIZE && p.c.h < MAX_OPEN_FILES)
            && (p.InRead? ==> p.c.ReadCall? && p.i < INODE_TABLE_SIZE && p.c.h < MAX_OPEN_FILES)
  {
    hide Store, Cur, Ready;
  }

  // A write through h, as seen by the logical sizes.
  lemma WroteTables(fs: Fs, sizes: seq<nat>, h: nat, data: seq<byte>, fs': Fs, sizes': seq<nat>)
    requires TablesOk(fs, sizes) && F.OpenHandle(fs, h) && Usable(fs, h) && |sizes| == INODE_TABLE_SIZE
    requires Wrote(fs, sizes, h, data, fs') && sizes' == sizes[fs.files[h].inum := WrittenSize(fs, sizes, h, |data|)]
    ensures TablesOk(fs', sizes') && Moved(fs, sizes, fs', sizes', h, fs.files[h].inum)
    ensures var i, off := fs.files[h].inum, fs.files[h].offset;
            off <= |Cur(fs, sizes, i)| && Cur(fs', sizes', i) == Splice(Cur(fs, sizes, i), off, data)
  {
    hide Store, Flat, Patched;
    var i := fs.files[h].inum;
    assert Ready(fs, sizes, h);
    F.PatchedFlat(fs, sizes, h, data, fs');
    R.ReadyBound(fs, sizes, h);
    WroteReady(fs, sizes, h, data, fs');
    R.ReadyBound(fs', sizes', h);
    forall g: nat | F.OpenHandle(fs', g) ensures Ready(fs', sizes', g) {
      assert F.OpenHandle(fs, g) && Ready(fs, sizes, g);
    }
    forall j: nat | LiveFile(fs, j) && j != i ensures Cur(fs', sizes', j) == Cur(fs, sizes, j) {}
  }

  lemma WriterMovesOn(fs: Fs, sizes: seq<nat>, a: Flats, p: Point, data: seq<byte>, rest: seq<byte>, fs': Fs, sizes': seq<nat>)
    requires p.InWrite? && |sizes| == |sizes'| == INODE_TABLE_SIZE && FlatsOk(a) && Usable(fs, p.c.h)
    requires WriterOk(fs, sizes, a, p) && p.rest == data + rest && p.i == fs.files[p.c.h].inum
    requires Wrote(fs, sizes, p.c.h, data, fs') && sizes' == sizes[p.i := WrittenSize(fs, sizes, p.c.h, |data|)]
    requires Cur(fs', sizes', p.i) == Splice(Cur(fs, sizes, p.i), fs.files[p.c.h].offset, data)
    ensures WriterOk(fs', sizes', a, p.(rest := rest))
  {
    hide Store, Cur, Patched, Held, FreeCount, OtherParts, Splice;
    SpliceSplice(Cur(fs, sizes, p.i), fs.files[p.c.h].offset, data, rest);
  }

  lemma WriteRoundKeeps(s: State, t: nat, s': State, a: Flats)
    requires Shape(s) && Shape(s') && LocksOk(s) && FlatsOk(a) && Agrees(s, a) && t < |s.threads| && WriteRound(s, t, s')
    ensures Agrees(s', a) && SameExpected(s, t, s')
    ensures Expected(s'.fs, s'.sizes, s'.threads[t]) == Expected(s.fs, s.sizes, s.threads[t])
    ensures Pending(s'.threads[t]) == Pending(s.threads[t]) && s'.log == s.log
  {
    hide Store, Cur, WriteStep, Chunk, LocksOk, BlockAt, Wrote, WriterOk, Ready, FilesFlat, NoSpareIndex;
    var p := s.threads[t].at;
    var off := s.fs.files[p.c.h].offset;
    var data, rest := p.rest[..Chunk(off, |p.rest|)], p.rest[Chunk(off, |p.rest|)..];
    assert p.rest == data + rest;
    assert Ready(s.fs, s.sizes, p.c.h);
    StepWrites(s.fs, s.sizes, p.c.h, p.rest);
    WroteTables(s.fs, s.sizes, p.c.h, data, s'.fs, s'.sizes);
    WriterMovesOn(s.fs, s.sizes, a, p, data, rest, s'.fs, s'.sizes);
    RoundKeeps(s, t, s', a, p.i);
  }

  // Sizes and offsets have no say in what a file holds.
  lemma SameBytesMoved(fs: Fs, sizes: seq<nat>, fs': Fs, h: nat, i: nat)
    requires TablesOk(fs, sizes) && F.OpenHandle(fs, h) && |sizes| == INODE_TABLE_SIZE
    requires SameRecords(fs, fs') && fs'.fileTs == fs.fileTs && fs'.files == fs.files[h := fs'.files[h]]
    requires fs'.files[h].inum == fs.files[h].inum && fs'.files[h].offset <= sizes[fs.files[h].inum]
    requires forall j: nat, p: nat :: j < INODE_TABLE_SIZE && p < MAX_FILE_BYTES ==> ByteAt(fs', j, p) == ByteAt(fs, j, p)
    requires forall j: nat :: j < INODE_TABLE_SIZE && j != i ==> fs'.inodes[j].size == fs.inodes[j].size
    ensures TablesOk(fs', sizes) && Moved(fs, sizes, fs', sizes, h, i)
    ensures forall j: nat :: j < INODE_TABLE_SIZE ==> Cur(fs', sizes, j) == Cur(fs, sizes, j)
  {
    var f := fs.files[h].inum;
    assert Ready(fs, sizes, h);
    SameRecordsStore(fs, fs', sizes, f, sizes[f]);
    assert sizes[f := sizes[f]] == sizes;
    forall g: nat | F.OpenHandle(fs', g) ensures Ready(fs', sizes, g) {
      assert F.OpenHandle(fs, g) && Ready(fs, sizes, g);
    }
  }

  // The repair gives i_size its place again, whatever the loop had added to it.
  lemma EndWriteKeeps(s: State, t: nat, s': State, a: Flats)
    requires Shape(s) && Shape(s') && LocksOk(s) && FlatsOk(a) && Agrees(s, a) && t < |s.threads| && EndWrite(s, t, s')
    ensures Agrees(s', a) && SameExpected(s, t, s')
    ensures Expected(s'.fs, s'.sizes, s'.threads[t]) == Expected(s.fs, s.sizes, s.threads[t])
    ensures Pending(s'.threads[t]) == Pending(s.threads[t]) && s'.log == s.log
  {
    hide Store, Cur, LocksOk, BlockAt, Moved, FilesFlat, ByteAt, SameRecords;
    var p := s.threads[t].at;
    assert Ready(s.fs, s.sizes, p.c.h);
    F.SetSizeKeeps(s.fs, p.i, s'.fs.inodes[p.i].size);
    assert s.fs.files == s.fs.files[p.c.h := s.fs.files[p.c.h]];
    SameBytesMoved(s.fs, s.sizes, s'.fs, p.c.h, p.i);
    RoundKeeps(s, t, s', a, p.i);
  }

  lemma SliceSlice(acc: seq<byte>, c: seq<byte>, off: nat, n: nat, want: nat)
    requires n <= want && off + want <= |c|
    ensures acc + c[off..off + n] + c[off + n..off + want] == acc + c[off..off + want]
  {}

  // The round hands over the next bytes: what is expected of the thread stays the same.
  lemma ReaderMovesOn(fs: Fs, sizes: seq<nat>, a: Flats, th: Thread, n: nat, fs': Fs, th': Thread)
    requires th.at.InRead? && |sizes| == INODE_TABLE_SIZE && FlatsOk(a) && th.at.c.h < MAX_OPEN_FILES
    requires ReaderOk(fs, sizes, a, th.at) && n <= th.at.want && fs' == SetOffset(fs, th.at.c.h, fs.files[th.at.c.h].offset + n)
    requires Cur(fs', sizes, th.at.i) == Cur(fs, sizes, th.at.i)
    requires var off := fs.files[th.at.c.h].offset;
             th' == th.(at := th.at.(want := th.at.want - n, acc := th.at.acc + Cur(fs, sizes, th.at.i)[off..off + n]))
    ensures ReaderOk(fs', sizes, a, th'.at) && Expected(fs', sizes, th') == Expected(fs, sizes, th)
  {
    hide Cur;
    SliceSlice(th.at.acc, Cur(fs, sizes, th.at.i), fs.files[th.at.c.h].offset, n, th.at.want);
  }

  lemma ReadRoundKeeps(s: State, t: nat, s': State, a: Flats)
    requires Shape(s) && Shape(s') && LocksOk(s) && FlatsOk(a) && Agrees(s, a) && t < |s.threads| && ReadRound(s, t, s')
    ensures Agrees(s', a) && SameExpected(s, t, s')
    ensures Expected(s'.fs, s'.sizes, s'.threads[t]) == Expected(s.fs, s.sizes, s.threads[t])
    ensures Pending(s'.threads[t]) == Pending(s.threads[t]) && s'.log == s.log
  {
    hide Store, LocksOk, BlockAt, Moved, FilesFlat, ByteAt, SameRecords, ReadStep, Chunk, Cur, Expected, ReaderOk;
    var p := s.threads[t].at;
    var off := s.fs.files[p.c.h].offset;
    var n := Chunk(off, p.want);
    assert Ready(s.fs, s.sizes, p.c.h);
    ReaderInside(s.fs, s.sizes, a, p);
    R.ReadStepSlice(s.fs, s.sizes, p.c.h, p.want);
    R.OffsetKeepsReady(s.fs, s.sizes, p.c.h, off + n);
    OffsetRecords(s.fs, p.c.h, off + n);
    SameBytesMoved(s.fs, s.sizes, s'.fs, p.c.h, INODE_TABLE_SIZE);
    ReaderMovesOn(s.fs, s.sizes, a, s.threads[t], n, s'.fs, s'.threads[t]);
    RoundKeeps(s, t, s', a, INODE_TABLE_SIZE);
  }

  lemma ReaderInside(fs: Fs, sizes: seq<nat>, a: Flats, p: Point)
    requires p.InRead? && |sizes| == INODE_TABLE_SIZE && FlatsOk(a) && F.OpenHandle(fs, p.c.h) && Ready(fs, sizes, p.c.h)
    requires ReaderOk(fs, sizes, a, p) && p.i == fs.files[p.c.h].inum
    ensures fs.files[p.c.h].offset + p.want <= sizes[p.i] && p.i < INODE_TABLE_SIZE
    ensures forall off: nat, n: nat :: off + n <= sizes[p.i] <= MAX_FILE_BYTES ==>
              var c := Cur(fs, sizes, p.i);
              off + n <= |c| && R.Slice(fs, p.i, off, n) == c[off..off + n]
  {
    hide Store, ByteAt;
    R.ReadyBound(fs, sizes, p.c.h);
  }

  lemma OffsetRecords(fs: Fs, h: nat, off: nat)
    requires h < MAX_OPEN_FILES
    ensures SameRecords(fs, SetOffset(fs, h, off))
  {}

  // ---------- every run ----------

  // a0: the serial state at the start; programs: what each thread was given to do.
  ghost predicate Inv(s: State, a0: Flats, programs: seq<seq<Call>>) {
    && Shape(s) && LocksOk(s) && FlatsOk(a0) && |programs| == |s.threads|
    && Agrees(s, Replay(a0, s.log))
    && (forall t :: 0 <= t < |s.threads| ==>
          && Expected(s.fs, s.sizes, s.threads[t]) == Answers(a0, s.log, t)
          && CallsOf(s.log, t) + Pending(s.threads[t]) == programs[t])
    && (forall k :: 0 <= k < |s.log| ==> s.log[k].t < |s.threads|)
  }

  lemma LogGrows(a0: Flats, log: seq<Entry>, e: Entry)
    requires FlatsOk(a0) && LogOk(log) && e.call.h < MAX_OPEN_FILES
    ensures LogOk(log + [e])
    ensures var a := Replay(a0, log);
            && Replay(a0, log + [e]) == Atomic(a, e.call).0
            && Answers(a0, log + [e], e.t) == Answers(a0, log, e.t) + [Atomic(a, e.call).1]
            && CallsOf(log + [e], e.t) == CallsOf(log, e.t) + [e.call]
    ensures forall u: nat :: u != e.t ==>
              Answers(a0, log + [e], u) == Answers(a0, log, u) && CallsOf(log + [e], u) == CallsOf(log, u)
  {
    hide Atomic;
    assert (log + [e])[..|log + [e]| - 1] == log;
  }

  lemma QuietStep(s: State, t: nat, s': State, a: Flats)
    requires Shape(s) && Shape(s') && LocksOk(s) && FlatsOk(a) && Agrees(s, a) && Step(s, t, s')
    requires !BeginWrite(s, t, s') && !BeginRead(s, t, s') && |s'.threads| == |s.threads|
    ensures Agrees(s', a) && SameExpected(s, t, s')
    ensures Expected(s'.fs, s'.sizes, s'.threads[t]) == Expected(s.fs, s.sizes, s.threads[t])
    ensures Pending(s'.threads[t]) == Pending(s.threads[t]) && s'.log == s.log
  {
    hide Agrees, LocksOk, Expected, TakeHandle, WriteRound, EndWrite, ReadRound, EndRead, DropHandle, DropInode,
      BeginRead, BeginWrite;
    if TakeHandle(s, t, s') { TakeHandleKeeps(s, t, s', a); }
    else if WriteRound(s, t, s') { WriteRoundKeeps(s, t, s', a); }
    else if EndWrite(s, t, s') { EndWriteKeeps(s, t, s', a); }
    else if ReadRound(s, t, s') { ReadRoundKeeps(s, t, s', a); }
    else if EndRead(s, t, s') { EndReadKeeps(s, t, s', a); }
    else if DropHandle(s, t, s') { DropHandleKeeps(s, t, s', a); }
    else { DropInodeKeeps(s, t, s', a); }
  }

  lemma BeginStep(s: State, t: nat, s': State, a: Flats)
    requires Shape(s) && Shape(s') && LocksOk(s) && LocksOk(s') && FlatsOk(a) && Agrees(s, a) && t < |s.threads|
    requires BeginWrite(s, t, s') || BeginRead(s, t, s')
    ensures |s'.threads| == |s.threads| && s.threads[t].at.GotFile? && s.threads[t].at.c.h < MAX_OPEN_FILES
    ensures var c := s.threads[t].at.c;
            && Agrees(s', Atomic(a, c).0) && SameExpected(s, t, s')
            && Expected(s'.fs, s'.sizes, s'.threads[t]) == Expected(s.fs, s.sizes, s.threads[t]) + [Atomic(a, c).1]
            && Pending(s.threads[t]) == [c] + Pending(s'.threads[t]) && s'.log == s.log + [Entry(t, c)]
  {
    hide Agrees, LocksOk, Expected, Atomic, Pending, ToRead;
    if BeginWrite(s, t, s') { BeginWriteKeeps(s, t, s', a); } else { BeginReadKeeps(s, t, s', a); }
  }

  lemma StepKeepsInv(s: State, t: nat, s': State, a0: Flats, programs: seq<seq<Call>>)
    requires Inv(s, a0, programs) && Step(s, t, s')
    ensures Inv(s', a0, programs)
  {
    hide Agrees, LocksOk, Expected, Atomic, Pending, TakeHandle, WriteRound, EndWrite, ReadRound, EndRead, DropHandle, DropInode,
      BeginRead, BeginWrite, Replay, Answers, CallsOf;
    StepLocks(s, t, s');
    var a := Replay(a0, s.log);
    if BeginWrite(s, t, s') || BeginRead(s, t, s') {
      BeginStep(s, t, s', a);
      LogGrows(a0, s.log, Entry(t, s.threads[t].at.c));
      var c := s.threads[t].at.c;
      assert CallsOf(s.log, t) + [c] + Pending(s'.threads[t]) == CallsOf(s.log, t) + ([c] + Pending(s'.threads[t]));
    } else {
      QuietStep(s, t, s', a);
    }
  }

  // No call opens, closes, creates or deletes.
  ghost predicate SameLife(fs: Fs, fs': Fs) {
    && fs'.fileTs == fs.fileTs && fs'.inodeTs == fs.inodeTs
    && (forall j :: 0 <= j < INODE_TABLE_SIZE ==> fs'.inodes[j].kind == fs.inodes[j].kind)
  }

  lemma LookupLife(fs: Fs, i: nat, offset: nat)
    requires i < INODE_TABLE_SIZE
    ensures SameLife(fs, CurrentBlock(fs, i, offset).0)
  {}

  lemma StepLife(s: State, t: nat, s': State)
    requires Shape(s) && Step(s, t, s')
    ensures SameLife(s.fs, s'.fs)
  {
    hide CurrentBlock, RepairedSize, ToRead, Chunk;
    var p := s.threads[t].at;
    if (p.InWrite? || p.InRead?) && Usable(s.fs, p.c.h) {
      LookupLife(s.fs, s.fs.files[p.c.h].inum, s.fs.files[p.c.h].offset);
    }
  }

  // A run: the state after each step of the schedule.
  ghost predicate Run(states: seq<State>, schedule: seq<nat>) {
    && |states| == |schedule| + 1
    && forall k :: 0 <= k < |schedule| ==> Shape(states[k]) && Step(states[k], schedule[k], states[k + 1])
  }

  lemma {:induction false} RunKeepsInv(states: seq<State>, schedule: seq<nat>, a0: Flats, programs: seq<seq<Call>>, k: nat)
    requires Run(states, schedule) && k < |states| && Inv(states[0], a0, programs)
    ensures Inv(states[k], a0, programs) && SameLife(states[0].fs, states[k].fs)
    decreases k
  {
    hide Inv, Step, Shape;
    if k > 0 {
      RunKeepsInv(states, schedule, a0, programs, k - 1);
      StepLife(states[k - 1], schedule[k - 1], states[k]);
      StepKeepsInv(states[k - 1], schedule[k - 1], states[k], a0, programs);
    }
  }

  // ---------- the start and the end ----------

  lemma AllReady(fs: Fs)
    requires F.Inv(fs)
    ensures TablesOk(fs, F.SizesOf(fs))
    ensures forall h: nat :: F.OpenHandle(fs, h) ==> F.ContentReady(fs, fs.files[h].inum)
  {
    forall h: nat | F.OpenHandle(fs, h) ensures Ready(fs, F.SizesOf(fs), h) && F.ContentReady(fs, fs.files[h].inum) {
      F.OpenReady(fs, h);
    }
  }

  // The flat view of a state between calls; a handle that is not open counts as handle on
  // the root at 0.
  ghost function FlatView(fs: Fs): (a: Flats)
    requires F.Inv(fs)
    ensures FlatsOk(a)
  {
    AllReady(fs);
    Flats(seq(INODE_TABLE_SIZE, i requires 0 <= i < INODE_TABLE_SIZE => Cur(fs, F.SizesOf(fs), i)),
          seq(MAX_OPEN_FILES, h requires 0 <= h < MAX_OPEN_FILES => if F.OpenHandle(fs, h) then fs.files[h].offset else 0),
          seq(MAX_OPEN_FILES, h requires 0 <= h < MAX_OPEN_FILES => if F.OpenHandle(fs, h) then fs.files[h].inum else 0))
  }

  function Start(fs: Fs, programs: seq<seq<Call>>): State {
    State(fs, seq(MAX_OPEN_FILES, _ => None), seq(INODE_TABLE_SIZE, _ => None), seq(INODE_TABLE_SIZE, _ => {}),
          seq(|programs|, t requires 0 <= t < |programs| => Thread(programs[t], Idle, [])), F.SizesOf(fs), [])
  }

  ghost predicate OnOpenHandles(fs: Fs, programs: seq<seq<Call>>) {
    forall t, k :: 0 <= t < |programs| && 0 <= k < |programs[t]| ==> F.OpenHandle(fs, programs[t][k].h)
  }

  lemma StartInv(fs: Fs, programs: seq<seq<Call>>)
    requires F.Inv(fs) && OnOpenHandles(fs, programs)
    ensures Inv(Start(fs, programs), FlatView(fs), programs)
  {
    hide Store, Cur;
    var s := Start(fs, programs);
  }

  lemma FinalState(s: State, a0: Flats, programs: seq<seq<Call>>)
    requires Inv(s, a0, programs) && (forall t :: 0 <= t < |s.threads| ==> s.threads[t].at.Idle? && s.threads[t].todo == [])
    ensures forall k :: 0 <= k < |s.log| ==> s.log[k].t < |programs|
    ensures forall t :: 0 <= t < |programs| ==> CallsOf(s.log, t) == programs[t] && s.threads[t].answers == Answers(a0, s.log, t)
    ensures var a := Replay(a0, s.log);
            && (forall i: nat :: LiveFile(s.fs, i) ==> F.ContentReady(s.fs, i) && F.Contents(s.fs, i) == a.contents[i])
            && (forall h: nat :: F.OpenHandle(s.fs, h) ==> s.fs.files[h] == OpenFile(a.inums[h], a.offsets[h]))
  {
    hide LocksOk, Replay, Answers, CallsOf, BlockAt, Owned, Ready;
    forall i: nat | LiveFile(s.fs, i)
      ensures F.ContentReady(s.fs, i) && F.Contents(s.fs, i) == Replay(a0, s.log).contents[i]
    {
      assert Shaped(s.fs, i, s.sizes[i]);
      assert !BusyWriter(s, i);
    }
    forall t | 0 <= t < |programs|
      ensures CallsOf(s.log, t) == programs[t] && s.threads[t].answers == Answers(a0, s.log, t)
    {
      assert CallsOf(s.log, t) + [] == CallsOf(s.log, t);
    }
  }

  // Serialisability: when every thread has finished, the files, the handles and the answers are
  // those of the calls made one at a time, in the order in which they took the inode's lock;
  // and that order holds the calls of the programs and no others, each thread's in the order of
  // its program.
  lemma Serialisable(fs: Fs, programs: seq<seq<Call>>, states: seq<State>, schedule: seq<nat>)
    requires F.Inv(fs) && OnOpenHandles(fs, programs)
    requires Run(states, schedule) && states[0] == Start(fs, programs)
    requires var s := states[|states| - 1];
             forall t :: 0 <= t < |s.threads| ==> s.threads[t].at.Idle? && s.threads[t].todo == []
    ensures var s, a0 := states[|states| - 1], FlatView(fs);
            && LogOk(s.log) && |s.threads| == |programs|
            && (forall k :: 0 <= k < |s.log| ==> s.log[k].t < |programs|)
            && (forall t :: 0 <= t < |programs| ==>
                  CallsOf(s.log, t) == programs[t] && s.threads[t].answers == Answers(a0, s.log, t))
            && SameLife(fs, s.fs)
            && var a := Replay(a0, s.log);
               && (forall i: nat :: LiveFile(s.fs, i) ==> F.ContentReady(s.fs, i) && F.Contents(s.fs, i) == a.contents[i])
               && (forall h: nat :: F.OpenHandle(s.fs, h) ==> s.fs.files[h] == OpenFile(a.inums[h], a.offsets[h]))
  {
    StartInv(fs, programs);
    RunKeepsInv(states, schedule, FlatView(fs), programs, |states| - 1);
    FinalState(states[|states| - 1], FlatView(fs), programs);
  }

  // A reader is never stuck: in every reachable state a round of tfs_read finds its block, and
  // takes no more than is wanted.
  lemma ReadersMoveOn(s: State, t: nat, a0: Flats, programs: seq<seq<Call>>)
    requires Inv(s, a0, programs) && t < |s.threads| && s.threads[t].at.InRead? && s.threads[t].at.want > 0
    ensures var p := s.threads[t].at;
            Usable(s.fs, p.c.h) && ReadStep(s.fs, p.c.h, p.want).2 == Done && |ReadStep(s.fs, p.c.h, p.want).1| <= p.want
  {
    hide LocksOk, FilesFlat, HandlesFlat, Store, Cur, Expected, Replay, BlockAt, ReadStep;
    var p := s.threads[t].at;
    assert ThreadOk(s.fs, s.sizes, Replay(a0, s.log), s.threads[t]) && Ready(s.fs, s.sizes, p.c.h);
    R.ReadyBound(s.fs, s.sizes, p.c.h);
    CurLength(s.fs, s.sizes, p.i);
    R.ReadStepSlice(s.fs, s.sizes, p.c.h, p.want);
  }

  lemma CurLength(fs: Fs, sizes: seq<nat>, i: nat)
    requires |sizes| == INODE_TABLE_SIZE && i < INODE_TABLE_SIZE && sizes[i] <= MAX_FILE_BYTES
    ensures |Cur(fs, sizes, i)| == sizes[i]
  {}

  // ---------- the serial calls are the real ones ----------

  // a and b agree on the live files and on the handles.
  ghost predicate SameFlats(fs: Fs, a: Flats, b: Flats)
    requires FlatsOk(a) && FlatsOk(b)
  {
    a.offsets == b.offsets && a.inums == b.inums && forall i: nat :: LiveFile(fs, i) ==> a.contents[i] == b.contents[i]
  }

  lemma AtomicIsWrite(fs: Fs, h: nat, buf: seq<byte>)
    requires F.Inv(fs) && F.OpenHandle(fs, h) && Write(fs, h, buf).1.Ret?
    ensures var (fs', r) := Write(fs, h, buf);
            && F.Inv(fs') && Count(r.n) == Atomic(FlatView(fs), WriteCall(h, buf)).1
            && SameFlats(fs, FlatView(fs'), Atomic(FlatView(fs), WriteCall(h, buf)).0)
  {
    hide Write, Flat, Splice, BlockAt, Owned, Shaped;
    F.OpenReady(fs, h);
    F.WriteRefinesSplice(fs, h, buf);
    var fs' := Write(fs, h, buf).0;
    AllReady(fs');
    forall i: nat | LiveFile(fs, i) ensures FlatView(fs').contents[i] == Atomic(FlatView(fs), WriteCall(h, buf)).0.contents[i] {
      F.LiveContent(fs, i);
    }
  }

  lemma AtomicIsRead(fs: Fs, h: nat, len: nat)
    requires F.Inv(fs) && F.OpenHandle(fs, h)
    ensures var (fs', r) := Read(fs, h, len);
            && F.Inv(fs') && r.Got? && Bytes(r.data) == Atomic(FlatView(fs), ReadCall(h, len)).1
            && SameFlats(fs, FlatView(fs'), Atomic(FlatView(fs), ReadCall(h, len)).0)
  {
    hide Read, Flat, BlockAt, Owned, Shaped;
    F.OpenReady(fs, h);
    R.ReadRefinesSlice(fs, h, len);
    R.OffsetInv(fs, h, Read(fs, h, len).0.files[h].offset);
    var fs' := Read(fs, h, len).0;
    AllReady(fs');
    forall i: nat | LiveFile(fs, i) ensures FlatView(fs').contents[i] == FlatView(fs).contents[i] {
      F.LiveContent(fs, i);
    }
  }

  // ---------- many readers on one handle ----------

  predicate OnlyReads(log: seq<Entry>, h: nat) { forall k :: 0 <= k < |log| ==> log[k].call.ReadCall? && log[k].call.h == h }

  function Wanted(log: seq<Entry>): nat
    requires forall k :: 0 <= k < |log| ==> log[k].call.ReadCall?
    decreases |log|
  {
    if |log| == 0 then 0 else Wanted(log[..|log| - 1]) + log[|log| - 1].call.len
  }

  // What the readers are given, in the order of the log.
  function Delivered(a: Flats, log: seq<Entry>): seq<byte>
    requires FlatsOk(a) && LogOk(log)
    decreases |log|
  {
    if |log| == 0 then []
    else
      var before := log[..|log| - 1];
      Delivered(a, before) +
      match Atomic(Replay(a, before), log[|log| - 1].call).1
      case Bytes(data) => data
      case Count(_) => []
  }

  // One after the other, they are given each byte of the file exactly once, in order.
  lemma {:induction false} ReadsDeliverOnce(a: Flats, log: seq<Entry>, h: nat)
    requires FlatsOk(a) && LogOk(log) && h < MAX_OPEN_FILES && OnlyReads(log, h)
    ensures var r, c, off := Replay(a, log), a.contents[a.inums[h]], a.offsets[h];
            && r.contents == a.contents && r.inums == a.inums
            && r.offsets[h] == off + Min(Wanted(log), |c| - off)
            && Delivered(a, log) == c[off..r.offsets[h]]
    decreases |log|
  {
    if |log| > 0 {
      var before := log[..|log| - 1];
      ReadsDeliverOnce(a, before, h);
      var c, off, m, r := a.contents[a.inums[h]], a.offsets[h], Replay(a, before).offsets[h], Replay(a, log).offsets[h];
      assert c[off..m] + c[m..r] == c[off..r];
    }
  }

  lemma {:induction false} LoggedIsCalled(log: seq<Entry>, k: nat)
    requires k < |log|
    ensures log[k].call in CallsOf(log, log[k].t)
    decreases |log|
  {
    if k < |log| - 1 { LoggedIsCalled(log[..|log| - 1], k); }
  }

  ghost predicate OnlyReaders(programs: seq<seq<Call>>, h: nat) {
    forall t :: 0 <= t < |programs| ==> forall c :: c in programs[t] ==> c.ReadCall? && c.h == h
  }

  // So it is in every run of threads that only read, through one handle.
  lemma ConcurrentReads(fs: Fs, programs: seq<seq<Call>>, states: seq<State>, schedule: seq<nat>, h: nat)
    requires F.Inv(fs) && OnOpenHandles(fs, programs) && F.OpenHandle(fs, h) && OnlyReaders(programs, h)
    requires Run(states, schedule) && states[0] == Start(fs, programs)
    requires var s := states[|states| - 1];
             forall t :: 0 <= t < |s.threads| ==> s.threads[t].at.Idle? && s.threads[t].todo == []
    ensures F.ContentReady(fs, fs.files[h].inum)
    ensures var s, c, off := states[|states| - 1], F.Contents(fs, fs.files[h].inum), fs.files[h].offset;
            && off <= |c| && LogOk(s.log) && OnlyReads(s.log, h)
            && s.fs.files[h].offset == off + Min(Wanted(s.log), |c| - off)
            && Delivered(FlatView(fs), s.log) == c[off..s.fs.files[h].offset]
  {
    hide Inv, Step, Replay, Delivered, Answers, CallsOf, Wanted, BlockAt, Store;
    Serialisable(fs, programs, states, schedule);
    AllReady(fs);
    var log := states[|states| - 1].log;
    forall k | 0 <= k < |log| ensures log[k].call.ReadCall? && log[k].call.h == h { LoggedIsCalled(log, k); }
    ReadsDeliverOnce(FlatView(fs), states[|states| - 1].log, h);
  }
}
