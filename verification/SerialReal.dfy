/** The serial order of a concurrent run carried out for real: the same calls of tfs_write and
    tfs_read, made one at a time on the tables, find all the blocks they need and give the same
    answers, files and handles. */
module SerialReal {
  import opened Config
  import opened FirstFit
  import opened MultiBlock
  import opened Ownership
  import opened Writing
  import opened WriteTheorems
  import opened Serial
  import F = FlatFile
  import R = Reading

  // ---------- capacity: what is free and what the files hold ----------

  ghost function HeldBy(fs: Fs, sizes: seq<nat>, j: nat): nat
    requires |sizes| == INODE_TABLE_SIZE
  {
    if LiveFile(fs, j) then Held(fs, j, sizes[j]) else 0
  }

  ghost function SumHeld(fs: Fs, sizes: seq<nat>, n: nat): nat
    requires |sizes| == INODE_TABLE_SIZE
  {
    if n == 0 then 0 else SumHeld(fs, sizes, n - 1) + HeldBy(fs, sizes, n - 1)
  }

  ghost function Capacity(fs: Fs, sizes: seq<nat>): nat
    requires |sizes| == INODE_TABLE_SIZE
  {
    FreeCount(fs.blockTs) + SumHeld(fs, sizes, INODE_TABLE_SIZE)
  }

  // Only file i changes what it holds.
  lemma {:induction false} SumChanges(fs: Fs, sizes: seq<nat>, fs': Fs, sizes': seq<nat>, i: nat, n: nat)
    requires |sizes| == |sizes'| == INODE_TABLE_SIZE
    requires forall j: nat :: j != i ==> HeldBy(fs', sizes', j) == HeldBy(fs, sizes, j)
    ensures SumHeld(fs', sizes', n) + (if i < n then HeldBy(fs, sizes, i) else 0)
         == SumHeld(fs, sizes, n) + (if i < n then HeldBy(fs', sizes', i) else 0)
    decreases n
  {
    hide HeldBy;
    if n > 0 { SumChanges(fs, sizes, fs', sizes', i, n - 1); }
  }

  // No file holds more than in (fs', sizes'), and file i would not with `more` blocks added.
  lemma {:induction false} SumBelow(fs: Fs, sizes: seq<nat>, fs': Fs, sizes': seq<nat>, i: nat, more: nat, n: nat)
    requires |sizes| == |sizes'| == INODE_TABLE_SIZE
    requires forall j: nat :: j < n ==> HeldBy(fs, sizes, j) + (if j == i then more else 0) <= HeldBy(fs', sizes', j)
    ensures SumHeld(fs, sizes, n) + (if i < n then more else 0) <= SumHeld(fs', sizes', n)
    decreases n
  {
    hide HeldBy;
    if n > 0 { SumBelow(fs, sizes, fs', sizes', i, more, n - 1); }
  }

  lemma SameCapacity(fs: Fs, sizes: seq<nat>, fs': Fs, sizes': seq<nat>, i: nat)
    requires |sizes| == |sizes'| == INODE_TABLE_SIZE && i < INODE_TABLE_SIZE
    requires forall j: nat :: j != i ==> HeldBy(fs', sizes', j) == HeldBy(fs, sizes, j)
    requires FreeCount(fs'.blockTs) + HeldBy(fs', sizes', i) == FreeCount(fs.blockTs) + HeldBy(fs, sizes, i)
    ensures Capacity(fs', sizes') == Capacity(fs, sizes)
  {
    hide HeldBy, SumHeld, FreeCount;
    SumChanges(fs, sizes, fs', sizes', i, INODE_TABLE_SIZE);
  }

  // ---------- the concurrent run keeps the capacity ----------

  // From (fs, sizes) to (fs', sizes') files have only grown, within the same capacity.
  ghost predicate Grew(fs: Fs, sizes: seq<nat>, fs': Fs, sizes': seq<nat>)
    requires |sizes| == |sizes'| == INODE_TABLE_SIZE
  {
    && Capacity(fs', sizes') == Capacity(fs, sizes)
    && (forall j: nat :: LiveFile(fs', j) <==> LiveFile(fs, j))
    && (forall j: nat :: LiveFile(fs, j) ==>
          && sizes[j] <= sizes'[j] && (BlockAt(fs, j, INDEX) != -1 ==> BlockAt(fs', j, INDEX) != -1)
          && (BlockAt(fs', j, INDEX) != -1 && BlockAt(fs, j, INDEX) == -1 ==> sizes'[j] > 10 * BLOCK_SIZE))
  }

  lemma SameInodesGrew(fs: Fs, fs': Fs, sizes: seq<nat>)
    requires |sizes| == INODE_TABLE_SIZE && fs'.inodeTs == fs.inodeTs && fs'.blockTs == fs.blockTs
    requires forall j :: 0 <= j < INODE_TABLE_SIZE ==>
               fs'.inodes[j].kind == fs.inodes[j].kind && fs'.inodes[j].slots == fs.inodes[j].slots
    ensures Grew(fs, sizes, fs', sizes)
  {
    forall j: nat ensures HeldBy(fs', sizes, j) == HeldBy(fs, sizes, j) {}
    SameCapacity(fs, sizes, fs', sizes, 0);
  }

  lemma WroteGrew(fs: Fs, sizes: seq<nat>, h: nat, data: seq<byte>, fs': Fs)
    requires Ready(fs, sizes, h) && Wrote(fs, sizes, h, data, fs')
    requires NoSpareIndex(fs, fs', fs.files[h].inum, WrittenSize(fs, sizes, h, |data|))
    ensures Grew(fs, sizes, fs', sizes[fs.files[h].inum := WrittenSize(fs, sizes, h, |data|)])
  {
    hide Store, Patched, FreeCount, OtherParts;
    var i, z := fs.files[h].inum, WrittenSize(fs, sizes, h, |data|);
    var sizes' := sizes[i := z];
    forall j: nat | j != i ensures HeldBy(fs', sizes', j) == HeldBy(fs, sizes, j) {}
    SameCapacity(fs, sizes, fs', sizes', i);
  }

  lemma StepGrew(s: State, t: nat, s': State, a0: Flats, programs: seq<seq<Call>>)
    requires Inv(s, a0, programs) && Step(s, t, s') && |s'.sizes| == INODE_TABLE_SIZE
    ensures Grew(s.fs, s.sizes, s'.fs, s'.sizes)
  {
    hide Store, Grew, WriteStep, ReadStep, LocksOk, FilesFlat, HandlesFlat, Expected, Replay, Wrote, Cur, ReaderOk, BlockAt;
    if WriteRound(s, t, s') {
      var p := s.threads[t].at;
      assert ThreadOk(s.fs, s.sizes, Replay(a0, s.log), s.threads[t]);
      assert Ready(s.fs, s.sizes, p.c.h);
      StepWrites(s.fs, s.sizes, p.c.h, p.rest);
      WroteGrew(s.fs, s.sizes, p.c.h, p.rest[..Chunk(s.fs.files[p.c.h].offset, |p.rest|)], s'.fs);
    } else if ReadRound(s, t, s') {
      var p := s.threads[t].at;
      assert ThreadOk(s.fs, s.sizes, Replay(a0, s.log), s.threads[t]);
      assert Ready(s.fs, s.sizes, p.c.h);
      ReaderInside(s.fs, s.sizes, Replay(a0, s.log), p);
      R.ReadStepSlice(s.fs, s.sizes, p.c.h, p.want);
      SameInodesGrew(s.fs, s'.fs, s.sizes);
    } else {
      SameInodesGrew(s.fs, s'.fs, s.sizes);
    }
  }

  lemma {:induction false} RunGrew(states: seq<State>, schedule: seq<nat>, a0: Flats, programs: seq<seq<Call>>, k: nat)
    requires Run(states, schedule) && k < |states| && Inv(states[0], a0, programs)
    ensures |states[0].sizes| == |states[k].sizes| == INODE_TABLE_SIZE
    ensures Grew(states[0].fs, states[0].sizes, states[k].fs, states[k].sizes)
    decreases k
  {
    hide Inv, Step, Capacity;
    InvShape(states[0], a0, programs);
    if k > 0 {
      RunGrew(states, schedule, a0, programs, k - 1);
      RunKeepsInv(states, schedule, a0, programs, k - 1);
      RunKeepsInv(states, schedule, a0, programs, k);
      InvShape(states[k], a0, programs);
      StepGrew(states[k - 1], schedule[k - 1], states[k], a0, programs);
    }
  }

  lemma InvShape(s: State, a0: Flats, programs: seq<seq<Call>>)
    requires Inv(s, a0, programs)
    ensures |s.sizes| == INODE_TABLE_SIZE
  {}

  // ---------- the calls of a log on the tables ----------

  // tfs_write or tfs_read; None if it does not return its answer.
  function RealCall(fs: Fs, c: Call): Option<(Fs, Answer)> {
    match c
    case WriteCall(h, buf) =>
      var (fs', r) := Write(fs, h, buf);
      if r.Ret? then Some((fs', Count(r.n))) else None
    case ReadCall(h, len) =>
      var (fs', r) := Read(fs, h, len);
      if r.Got? then Some((fs', Bytes(r.data))) else None
  }

  function RealReplay(fs: Fs, log: seq<Entry>): Option<Fs>
    decreases |log|
  {
    if |log| == 0 then Some(fs)
    else
      match RealReplay(fs, log[..|log| - 1])
      case None => None
      case Some(r) =>
        match RealCall(r, log[|log| - 1].call)
        case None => None
        case Some((r', _)) => Some(r')
  }

  function RealAnswers(fs: Fs, log: seq<Entry>, t: nat): seq<Answer>
    requires RealReplay(fs, log).Some?
    decreases |log|
  {
    if |log| == 0 then []
    else
      var before := log[..|log| - 1];
      var e := log[|log| - 1];
      RealAnswers(fs, before, t) +
      if e.t == t then [RealCall(RealReplay(fs, before).value, e.call).value.1] else []
  }

  lemma AtomicRespects(fs: Fs, a: Flats, b: Flats, c: Call)
    requires FlatsOk(a) && FlatsOk(b) && SameFlats(fs, a, b) && c.h < MAX_OPEN_FILES && LiveFile(fs, a.inums[c.h])
    ensures Atomic(a, c).1 == Atomic(b, c).1 && SameFlats(fs, Atomic(a, c).0, Atomic(b, c).0)
  {
    hide Splice;
  }

  lemma {:induction false} ReplayGrows(a: Flats, log: seq<Entry>, k: nat, j: nat)
    requires FlatsOk(a) && LogOk(log) && k <= |log| && j < INODE_TABLE_SIZE
    ensures |Replay(a, log[..k]).contents[j]| <= |Replay(a, log).contents[j]|
    decreases |log|
  {
    if k == |log| {
      assert log[..k] == log;
    } else {
      var before := log[..|log| - 1];
      ReplayGrows(a, before, k, j);
      assert before[..k] == log[..k];
    }
  }

  // The serial state r, in which the live files and the handles are as in a, and no file holds
  // more than it does in the final tables, within the same capacity.
  ghost predicate Within(r: Fs, final: Fs, sizes: seq<nat>, a: Flats)
    requires |sizes| == INODE_TABLE_SIZE && FlatsOk(a)
  {
    && F.Inv(r) && SameLife(final, r) && SameFlats(final, FlatView(r), a)
    && Capacity(r, F.SizesOf(r)) == Capacity(final, sizes)
    && (forall j: nat :: HeldBy(r, F.SizesOf(r), j) <= HeldBy(final, sizes, j))
  }

  // The final tables hold the blocks that the final contents need.
  ghost predicate Room(final: Fs, sizes: seq<nat>, a: Flats)
    requires |sizes| == INODE_TABLE_SIZE && FlatsOk(a)
  {
    forall j: nat :: LiveFile(final, j) ==>
      |a.contents[j]| <= MAX_FILE_BYTES && F.Need(|a.contents[j]|) <= HeldBy(final, sizes, j)
  }

  lemma NeedGrows(y: nat, z: nat)
    requires y <= z
    ensures F.Need(y) <= F.Need(z)
  {}

  lemma ReadWithin(r: Fs, h: nat, len: nat, final: Fs, sizes: seq<nat>, a: Flats)
    requires |sizes| == INODE_TABLE_SIZE && FlatsOk(a) && Within(r, final, sizes, a) && F.OpenHandle(final, h)
    ensures var c := ReadCall(h, len);
            RealCall(r, c).Some? && var (r', got) := RealCall(r, c).value;
            got == Atomic(a, c).1 && Within(r', final, sizes, Atomic(a, c).0)
  {
    hide Read, FlatView, Atomic, Store, BlockAt, FreeCount, SumHeld;
    var c := ReadCall(h, len);
    F.OpenReady(r, h);
    AtomicIsRead(r, h, len);
    R.ReadRefinesSlice(r, h, len);
    var r' := Read(r, h, len).0;
    HandleFlat(r, h);
    AtomicRespects(final, FlatView(r), a, c);
    SameInodesGrew(r, r', F.SizesOf(r));
    assert F.SizesOf(r') == F.SizesOf(r);
  }

  lemma HandleFlat(r: Fs, h: nat)
    requires F.Inv(r) && F.OpenHandle(r, h)
    ensures Usable(r, h) && LiveFile(r, r.files[h].inum) && FlatView(r).inums[h] == r.files[h].inum
    ensures FlatView(r).offsets[h] == r.files[h].offset && F.ContentReady(r, r.files[h].inum)
    ensures FlatView(r).contents[r.files[h].inum] == F.Contents(r, r.files[h].inum)
  {
    hide Store, Flat;
    F.OpenReady(r, h);
  }

  lemma WriteWithin(r: Fs, h: nat, buf: seq<byte>, final: Fs, sizes: seq<nat>, a: Flats, last: Flats)
    requires |sizes| == INODE_TABLE_SIZE && FlatsOk(a) && Within(r, final, sizes, a) && F.OpenHandle(final, h)
    requires FlatsOk(last) && Room(final, sizes, last)
    requires forall j: nat :: j < INODE_TABLE_SIZE ==>
               |Atomic(a, WriteCall(h, buf)).0.contents[j]| <= |last.contents[j]|
    ensures var c := WriteCall(h, buf);
            RealCall(r, c).Some? && var (r', got) := RealCall(r, c).value;
            got == Atomic(a, c).1 && Within(r', final, sizes, Atomic(a, c).0)
  {
    hide Write, FlatView, Atomic, Store, BlockAt, FreeCount, SumHeld, HeldBy, Within, Room;
    WriteSucceeds(r, h, buf, final, sizes, a, last);
    WriteStaysWithin(r, h, buf, final, sizes, a, last);
  }

  lemma WriteSucceeds(r: Fs, h: nat, buf: seq<byte>, final: Fs, sizes: seq<nat>, a: Flats, last: Flats)
    requires |sizes| == INODE_TABLE_SIZE && FlatsOk(a) && Within(r, final, sizes, a) && F.OpenHandle(final, h)
    requires FlatsOk(last) && Room(final, sizes, last)
    requires forall j: nat :: j < INODE_TABLE_SIZE ==>
               |Atomic(a, WriteCall(h, buf)).0.contents[j]| <= |last.contents[j]|
    ensures Write(r, h, buf).1 == Ret(|buf|) && Usable(r, h)
    ensures F.Need(F.EndOfWrite(r, h, |buf|)) <= HeldBy(final, sizes, r.files[h].inum)
  {
    hide Write, FlatView, Store, BlockAt, FreeCount, SumHeld, Splice;
    HandleFlat(r, h);
    F.ExactSpace(r, h, buf);
    var i, z := r.files[h].inum, F.EndOfWrite(r, h, |buf|);
    assert z == |Atomic(a, WriteCall(h, buf)).0.contents[i]|;
    NeedGrows(z, |last.contents[i]|);
    var held := Held(r, i, r.inodes[i].size);
    var more := Max(held, F.Need(z)) - held;
    SumBelow(r, F.SizesOf(r), final, sizes, i, more, INODE_TABLE_SIZE);
  }

  // A write leaves what the other files hold, and what lives.
  lemma WriteHolds(r: Fs, h: nat, buf: seq<byte>)
    requires F.Inv(r) && F.OpenHandle(r, h) && Write(r, h, buf).1.Ret?
    ensures var r' := Write(r, h, buf).0;
            SameLife(r, r') && forall j: nat :: j != r.files[h].inum ==>
              HeldBy(r', F.SizesOf(r'), j) == HeldBy(r, F.SizesOf(r), j)
  {
    hide WriteLoop, Affordable, Overruns, BlockAt, Store, Patched, FreeCount, NoSpareIndex, OtherParts, RepairedSize;
    F.OpenReady(r, h);
    LoopWrites(r, F.SizesOf(r), h, buf);
  }

  lemma WriteStaysWithin(r: Fs, h: nat, buf: seq<byte>, final: Fs, sizes: seq<nat>, a: Flats, last: Flats)
    requires |sizes| == INODE_TABLE_SIZE && FlatsOk(a) && Within(r, final, sizes, a) && F.OpenHandle(final, h)
    requires Write(r, h, buf).1 == Ret(|buf|) && Usable(r, h)
    requires F.Need(F.EndOfWrite(r, h, |buf|)) <= HeldBy(final, sizes, r.files[h].inum)
    ensures Count(|buf|) == Atomic(a, WriteCall(h, buf)).1
    ensures Within(Write(r, h, buf).0, final, sizes, Atomic(a, WriteCall(h, buf)).0)
  {
    hide Write, FlatView, Atomic, Store, BlockAt, FreeCount, SumHeld;
    var c := WriteCall(h, buf);
    HandleFlat(r, h);
    AtomicIsWrite(r, h, buf);
    AtomicRespects(final, FlatView(r), a, c);
    F.ExactSpace(r, h, buf);
    F.WriteRefinesSplice(r, h, buf);
    var r', i := Write(r, h, buf).0, r.files[h].inum;
    WriteHolds(r, h, buf);
    SameCapacity(r, F.SizesOf(r), r', F.SizesOf(r'), i);
  }

  // Call by call along the log.
  lemma {:induction false} RealPrefix(fs: Fs, log: seq<Entry>, k: nat, final: Fs, sizes: seq<nat>)
    requires |sizes| == INODE_TABLE_SIZE && LogOk(log) && k <= |log| && F.Inv(fs)
    requires Within(fs, final, sizes, FlatView(fs)) && Room(final, sizes, Replay(FlatView(fs), log))
    requires forall m :: 0 <= m < |log| ==> F.OpenHandle(final, log[m].call.h)
    ensures RealReplay(fs, log[..k]).Some?
    ensures Within(RealReplay(fs, log[..k]).value, final, sizes, Replay(FlatView(fs), log[..k]))
    ensures forall t: nat :: RealAnswers(fs, log[..k], t) == Answers(FlatView(fs), log[..k], t)
    decreases k
  {
    hide Within, Room, RealCall, Atomic, FlatView, HeldBy;
    if k > 0 {
      var a0, c := FlatView(fs), log[k - 1].call;
      RealPrefix(fs, log, k - 1, final, sizes);
      assert log[..k][..k - 1] == log[..k - 1];
      var r, a := RealReplay(fs, log[..k - 1]).value, Replay(a0, log[..k - 1]);
      forall j: nat | j < INODE_TABLE_SIZE ensures |Atomic(a, c).0.contents[j]| <= |Replay(a0, log).contents[j]| {
        ReplayGrows(a0, log, k, j);
      }
      match c
      case WriteCall(h, buf) => WriteWithin(r, h, buf, final, sizes, a, Replay(a0, log));
      case ReadCall(h, len) => ReadWithin(r, h, len, final, sizes, a);
    }
  }

  ghost predicate Finished(s: State) {
    forall t :: 0 <= t < |s.threads| ==> s.threads[t].at.Idle? && s.threads[t].todo == []
  }

  lemma FinalRoom(s: State, a0: Flats, programs: seq<seq<Call>>)
    requires Inv(s, a0, programs) && Finished(s)
    ensures Room(s.fs, s.sizes, Replay(a0, s.log))
  {
    hide LocksOk, Replay, Answers, CallsOf, Owned, Ready;
    forall j: nat | LiveFile(s.fs, j)
      ensures var z := |Replay(a0, s.log).contents[j]|;
              z <= MAX_FILE_BYTES && F.Need(z) <= HeldBy(s.fs, s.sizes, j)
    {
      assert Shaped(s.fs, j, s.sizes[j]);
      assert !BusyWriter(s, j);
    }
  }

  lemma StartWithin(fs: Fs, final: Fs, sizes: seq<nat>)
    requires F.Inv(fs) && |sizes| == INODE_TABLE_SIZE && Grew(fs, F.SizesOf(fs), final, sizes) && SameLife(fs, final)
    ensures Within(fs, final, sizes, FlatView(fs))
  {
    hide FlatView, FreeCount, SumHeld, Store;
  }

  // The order of Serialisable can be carried out by the real calls, one at a time: starting on
  // the same tables, none of them runs out of blocks, each gives the answer its thread was
  // given, and the files and the handles end up as the concurrent run left them.
  lemma SerialSucceeds(fs: Fs, programs: seq<seq<Call>>, states: seq<State>, schedule: seq<nat>)
    requires F.Inv(fs) && OnOpenHandles(fs, programs)
    requires Run(states, schedule) && states[0] == Start(fs, programs) && Finished(states[|states| - 1])
    ensures var s := states[|states| - 1];
            && RealReplay(fs, s.log).Some? && |s.threads| == |programs|
            && (forall t :: 0 <= t < |programs| ==>
                  CallsOf(s.log, t) == programs[t] && RealAnswers(fs, s.log, t) == s.threads[t].answers)
            && var r := RealReplay(fs, s.log).value;
               && F.Inv(r) && SameLife(s.fs, r)
               && (forall i: nat :: LiveFile(s.fs, i) ==>
                     F.ContentReady(r, i) && F.ContentReady(s.fs, i) && F.Contents(r, i) == F.Contents(s.fs, i))
               && (forall h: nat :: F.OpenHandle(s.fs, h) ==> r.files[h] == s.fs.files[h])
  {
    hide Inv, Step, Within, Room, Replay, RealReplay, RealAnswers, Answers, CallsOf, BlockAt, Store, Grew;
    var n, a0 := |states| - 1, FlatView(fs);
    var s := states[n];
    StartInv(fs, programs);
    Serialisable(fs, programs, states, schedule);
    RunKeepsInv(states, schedule, a0, programs, n);
    RunGrew(states, schedule, a0, programs, n);
    StartWithin(fs, s.fs, s.sizes);
    FinalRoom(s, a0, programs);
    forall m | 0 <= m < |s.log| ensures F.OpenHandle(s.fs, s.log[m].call.h) { LoggedIsCalled(s.log, m); }
    RealPrefix(fs, s.log, |s.log|, s.fs, s.sizes);
    assert s.log[..|s.log|] == s.log;
    SameView(RealReplay(fs, s.log).value, s.fs, s.sizes, Replay(a0, s.log));
  }

  // What Within says of files and handles.
  lemma SameView(r: Fs, final: Fs, sizes: seq<nat>, a: Flats)
    requires |sizes| == INODE_TABLE_SIZE && FlatsOk(a) && Within(r, final, sizes, a)
    ensures F.Inv(r) && SameLife(final, r)
    ensures forall i: nat :: LiveFile(final, i) ==> F.ContentReady(r, i) && F.Contents(r, i) == a.contents[i]
    ensures forall h: nat :: F.OpenHandle(final, h) ==> r.files[h] == OpenFile(a.inums[h], a.offsets[h])
  {
    hide HeldBy, Store, Flat, Capacity;
    forall i: nat | LiveFile(final, i) ensures F.ContentReady(r, i) && F.Contents(r, i) == a.contents[i] {
      F.LiveContent(r, i);
    }
    forall h: nat | F.OpenHandle(final, h) ensures r.files[h] == OpenFile(a.inums[h], a.offsets[h]) {
      HandleFlat(r, h);
    }
  }

  // ---------- and the other way round: the concurrent run has room when the serial one has ----------

  lemma CallGrew(r: Fs, c: Call)
    requires F.Inv(r) && F.OpenHandle(r, c.h) && RealCall(r, c).Some?
    ensures var r' := RealCall(r, c).value.0;
            F.Inv(r') && SameLife(r, r') && Grew(r, F.SizesOf(r), r', F.SizesOf(r'))
            && SameFlats(r, FlatView(r'), Atomic(FlatView(r), c).0)
  {
    hide Write, Read, WriteLoop, FlatView, Atomic, Store, BlockAt, Grew, Affordable, Overruns, Wrote;
    var h, r' := c.h, RealCall(r, c).value.0;
    match c
    case WriteCall(_, buf) =>
      AtomicIsWrite(r, h, buf);
      WriteHolds(r, h, buf);
      WriteGrew(r, h, buf);
    case ReadCall(_, len) =>
      AtomicIsRead(r, h, len);
      R.ReadRefinesSlice(r, h, len);
      SameInodesGrew(r, r', F.SizesOf(r));
      assert F.SizesOf(r') == F.SizesOf(r);
  }

  lemma WriteGrew(r: Fs, h: nat, buf: seq<byte>)
    requires F.Inv(r) && F.OpenHandle(r, h) && Write(r, h, buf).1.Ret?
    ensures var r' := Write(r, h, buf).0; Grew(r, F.SizesOf(r), r', F.SizesOf(r'))
  {
    hide WriteLoop, Affordable, Overruns, BlockAt, Store, Patched, FreeCount, NoSpareIndex, OtherParts, SumHeld, Grew;
    F.OpenReady(r, h);
    F.WriteRefinesSplice(r, h, buf);
    LoopWrites(r, F.SizesOf(r), h, buf);
    var r', s1, i := Write(r, h, buf).0, WriteLoop(r, h, buf).0, r.files[h].inum;
    WroteGrew(r, F.SizesOf(r), h, buf, s1);
    SameInodesGrew(s1, r', F.SizesOf(r'));
    assert F.SizesOf(r') == F.SizesOf(r)[i := F.EndOfWrite(r, h, |buf|)];
    GrewCompose(r, F.SizesOf(r), s1, F.SizesOf(r'), r', F.SizesOf(r'));
  }

  lemma GrewCompose(a: Fs, za: seq<nat>, b: Fs, zb: seq<nat>, c: Fs, zc: seq<nat>)
    requires |za| == |zb| == |zc| == INODE_TABLE_SIZE && Grew(a, za, b, zb) && Grew(b, zb, c, zc)
    ensures Grew(a, za, c, zc)
  {
    hide Capacity;
  }

  lemma {:induction false} RealReplayView(fs: Fs, log: seq<Entry>)
    requires F.Inv(fs) && LogOk(log) && RealReplay(fs, log).Some?
    requires forall m :: 0 <= m < |log| ==> F.OpenHandle(fs, log[m].call.h)
    ensures var r := RealReplay(fs, log).value;
            F.Inv(r) && SameLife(fs, r) && Grew(fs, F.SizesOf(fs), r, F.SizesOf(r))
            && SameFlats(fs, FlatView(r), Replay(FlatView(fs), log))
    decreases |log|
  {
    hide RealCall, Atomic, FlatView, Grew, Store;
    if |log| == 0 {
      SameInodesGrew(fs, fs, F.SizesOf(fs));
    } else {
      var before, c := log[..|log| - 1], log[|log| - 1].call;
      RealReplayView(fs, before);
      var r := RealReplay(fs, before).value;
      var r' := RealCall(r, c).value.0;
      CallGrew(r, c);
      HandleFlat(r, c.h);
      AtomicRespects(fs, FlatView(r), Replay(FlatView(fs), before), c);
      GrewCompose(fs, F.SizesOf(fs), r, F.SizesOf(r), r', F.SizesOf(r'));
    }
  }

  // A writer never outgrows what its call leaves in the serial order.
  lemma SizesBelow(s: State, a: Flats, j: nat)
    requires Shape(s) && FlatsOk(a) && Agrees(s, a) && LiveFile(s.fs, j)
    requires LocksOk(s)
    ensures s.sizes[j] <= |a.contents[j]|
  {
    hide Owned, BlockAt;
    assert Shaped(s.fs, j, s.sizes[j]);
    if BusyWriter(s, j) {
      var t := s.writer[j].value;
      assert HoldsWrite(s.threads[t].at, j);
      assert ThreadOk(s.fs, s.sizes, a, s.threads[t]);
    }
  }

  // In tables whose files hold no more than those of r within the same capacity, a round of
  // tfs_write that stays within the size the file has in r finds its block.
  lemma RoundFindsBlock(fs: Fs, sizes: seq<nat>, h: nat, rest: seq<byte>, r: Fs)
    requires Ready(fs, sizes, h) && |rest| > 0 && F.Inv(r)
    requires Capacity(r, F.SizesOf(r)) == Capacity(fs, sizes)
    requires forall j: nat :: HeldBy(fs, sizes, j) <= HeldBy(r, F.SizesOf(r), j)
    requires LiveFile(r, fs.files[h].inum) && fs.files[h].offset + |rest| <= r.inodes[fs.files[h].inum].size
    ensures WriteStep(fs, h, rest).1 == Done
  {
    hide WriteStep, Owned, Patched, FreeCount, SumHeld, ByteAt;
    var i, off := fs.files[h].inum, fs.files[h].offset;
    StepWrites(fs, sizes, h, rest);
    var (fs', o) := WriteStep(fs, h, rest);
    FreeCountZero(fs.blockTs);
    FreeCountZero(fs'.blockTs);
    assert Shaped(r, i, F.SizesOf(r)[i]) && Shaped(fs, i, sizes[i]);
    if o != Done {
      if o == NoBlock {
        assert LiveFile(fs', i) && Shaped(fs', i, sizes[i]);
      }
      assert HeldBy(fs, sizes, i) + FreeCount(fs.blockTs) + 1 <= HeldBy(r, F.SizesOf(r), i);
      SumBelow(fs, sizes, r, F.SizesOf(r), i, FreeCount(fs.blockTs) + 1, INODE_TABLE_SIZE);
      assert false;
    }
  }

  lemma HeldBelow(fs: Fs, mid: Fs, sizes: seq<nat>, r: Fs, j: nat)
    requires |sizes| == INODE_TABLE_SIZE && F.Inv(r)
    requires Grew(fs, F.SizesOf(fs), mid, sizes) && Grew(fs, F.SizesOf(fs), r, F.SizesOf(r))
    requires LiveFile(mid, j) ==> sizes[j] <= r.inodes[j].size
    ensures HeldBy(mid, sizes, j) <= HeldBy(r, F.SizesOf(r), j)
  {
    hide Owned, Capacity;
    if LiveFile(mid, j) {
      assert LiveFile(fs, j) && LiveFile(r, j) && Shaped(r, j, F.SizesOf(r)[j]);
    }
  }

  // In any reachable state a writer is stuck for want of a block only if the calls of the order
  // so far, made one at a time on the same tables, do not all succeed.
  lemma WritersMoveOn(fs: Fs, programs: seq<seq<Call>>, states: seq<State>, schedule: seq<nat>, t: nat)
    requires F.Inv(fs) && OnOpenHandles(fs, programs)
    requires Run(states, schedule) && states[0] == Start(fs, programs)
    requires var s := states[|states| - 1];
             && t < |s.threads| && s.threads[t].at.InWrite? && |s.threads[t].at.rest| > 0
             && RealReplay(fs, s.log).Some?
    ensures var s := states[|states| - 1];
            var p := s.threads[t].at;
            Usable(s.fs, p.c.h) && WriteStep(s.fs, p.c.h, p.rest).1 == Done
  {
    hide Inv, Step, WriteStep, Replay, RealReplay, Grew, FlatView, HeldBy;
    var n, a0 := |states| - 1, FlatView(fs);
    var s := states[n];
    StartInv(fs, programs);
    RunKeepsInv(states, schedule, a0, programs, n);
    RunGrew(states, schedule, a0, programs, n);
    LoggedOpen(fs, s, a0, programs);
    RealReplayView(fs, s.log);
    StuckOnlyWithSerial(fs, s, t, a0, programs, RealReplay(fs, s.log).value);
  }

  // A logged call is one of the programs.
  lemma LoggedOpen(fs: Fs, s: State, a0: Flats, programs: seq<seq<Call>>)
    requires Inv(s, a0, programs) && OnOpenHandles(fs, programs)
    ensures LogOk(s.log) && FlatsOk(a0)
    ensures forall m :: 0 <= m < |s.log| ==> F.OpenHandle(fs, s.log[m].call.h)
  {
    hide Agrees, LocksOk, Expected, Answers, Replay, Pending, CallsOf;
    forall m | 0 <= m < |s.log| ensures F.OpenHandle(fs, s.log[m].call.h) {
      LoggedIsCalled(s.log, m);
      var t := s.log[m].t;
      assert CallsOf(s.log, t) + Pending(s.threads[t]) == programs[t];
      assert s.log[m].call in programs[t];
    }
  }

  lemma StuckOnlyWithSerial(fs: Fs, s: State, t: nat, a0: Flats, programs: seq<seq<Call>>, r: Fs)
    requires Inv(s, a0, programs) && F.Inv(fs) && F.Inv(r) && |s.sizes| == INODE_TABLE_SIZE && SameLife(fs, s.fs)
    requires t < |s.threads| && s.threads[t].at.InWrite? && |s.threads[t].at.rest| > 0
    requires Grew(fs, F.SizesOf(fs), s.fs, s.sizes) && Grew(fs, F.SizesOf(fs), r, F.SizesOf(r))
    requires SameFlats(fs, FlatView(r), Replay(a0, s.log))
    ensures Usable(s.fs, s.threads[t].at.c.h)
    ensures WriteStep(s.fs, s.threads[t].at.c.h, s.threads[t].at.rest).1 == Done
  {
    hide WriteStep, Replay, Answers, BlockAt, Store, FlatView, LocksOk, HeldBy, Splice,
      FilesFlat, HandlesFlat, Expected, Cur, SumHeld, FreeCount;
    var p, a := s.threads[t].at, Replay(a0, s.log);
    forall j: nat ensures HeldBy(s.fs, s.sizes, j) <= HeldBy(r, F.SizesOf(r), j) {
      if LiveFile(s.fs, j) {
        SizesBelow(s, a, j);
        FileFlat(r, j);
      }
      HeldBelow(fs, s.fs, s.sizes, r, j);
    }
    assert ThreadOk(s.fs, s.sizes, a, s.threads[t]);
    assert Ready(s.fs, s.sizes, p.c.h);
    FileFlat(r, p.i);
    RoundFindsBlock(s.fs, s.sizes, p.c.h, p.rest, r);
  }

  lemma FileFlat(r: Fs, j: nat)
    requires F.Inv(r) && LiveFile(r, j)
    ensures r.inodes[j].size == |FlatView(r).contents[j]|
  {
    hide Flat, Owned, BlockAt;
    F.LiveContent(r, j);
  }
}
