/** When there is room for whatever order the threads of Serial come in: a condition on the tables
    and the programs before they start, under which every run ends with every call answered. */
module SerialSpace {
  import opened Config
  import opened FirstFit
  import opened MultiBlock
  import opened Ownership
  import opened Serial
  import opened SerialReal
  import opened SerialProgress
  import F = FlatFile

  // ---------- the bytes written to a file ----------

  function CallBytes(fs: Fs, c: Call, j: nat): nat
  {
    if c.WriteCall? && ValidHandle(c.h) && fs.files[c.h].inum == j then |c.buf| else 0
  }

  function CallsBytes(fs: Fs, cs: seq<Call>, j: nat): nat
    decreases |cs|
  {
    if |cs| == 0 then 0 else CallsBytes(fs, cs[..|cs| - 1], j) + CallBytes(fs, cs[|cs| - 1], j)
  }

  // All that the programs write to file j.
  function ProgramBytes(fs: Fs, programs: seq<seq<Call>>, j: nat): nat
    decreases |programs|
  {
    if |programs| == 0 then 0
    else ProgramBytes(fs, programs[..|programs| - 1], j) + CallsBytes(fs, programs[|programs| - 1], j)
  }

  function LogBytes(fs: Fs, log: seq<Entry>, j: nat): nat
    decreases |log|
  {
    if |log| == 0 then 0 else LogBytes(fs, log[..|log| - 1], j) + CallBytes(fs, log[|log| - 1].call, j)
  }

  lemma {:induction false} PrefixBytes(fs: Fs, cs: seq<Call>, all: seq<Call>, j: nat)
    requires cs <= all
    ensures CallsBytes(fs, cs, j) <= CallsBytes(fs, all, j)
    decreases |all|
  {
    hide CallBytes;
    if |cs| < |all| {
      assert cs <= all[..|all| - 1];
      PrefixBytes(fs, cs, all[..|all| - 1], j);
    } else {
      assert cs == all;
    }
  }

  lemma OneMoreCall(fs: Fs, cs: seq<Call>, c: Call, j: nat)
    ensures CallsBytes(fs, cs + [c], j) == CallsBytes(fs, cs, j) + CallBytes(fs, c, j)
  {
    assert (cs + [c])[..|cs|] == cs;
  }

  // What the first n threads have logged.
  function ThreadsBytes(fs: Fs, log: seq<Entry>, n: nat, j: nat): nat
  {
    if n == 0 then 0 else ThreadsBytes(fs, log, n - 1, j) + CallsBytes(fs, CallsOf(log, n - 1), j)
  }

  lemma {:induction false} OneMoreEntry(fs: Fs, log: seq<Entry>, n: nat, j: nat)
    requires |log| > 0
    ensures var e := log[|log| - 1];
            ThreadsBytes(fs, log, n, j) ==
            ThreadsBytes(fs, log[..|log| - 1], n, j) + if e.t < n then CallBytes(fs, e.call, j) else 0
    decreases n
  {
    hide CallBytes, CallsBytes;
    if n > 0 {
      OneMoreEntry(fs, log, n - 1, j);
      var before, e := CallsOf(log[..|log| - 1], n - 1), log[|log| - 1];
      OneMoreCall(fs, before, e.call, j);
      assert CallsOf(log, n - 1) == if e.t == n - 1 then before + [e.call] else before;
    }
  }

  lemma {:induction false} EmptyLogBytes(fs: Fs, n: nat, j: nat)
    ensures ThreadsBytes(fs, [], n, j) == 0
    decreases n
  {
    if n > 0 { EmptyLogBytes(fs, n - 1, j); }
  }

  lemma {:induction false} LogIsThreads(fs: Fs, log: seq<Entry>, n: nat, j: nat)
    requires forall k :: 0 <= k < |log| ==> log[k].t < n
    ensures LogBytes(fs, log, j) == ThreadsBytes(fs, log, n, j)
    decreases |log|
  {
    hide CallBytes, ThreadsBytes;
    if |log| == 0 {
      EmptyLogBytes(fs, n, j);
    } else {
      OneMoreEntry(fs, log, n, j);
      LogIsThreads(fs, log[..|log| - 1], n, j);
    }
  }

  lemma {:induction false} ThreadsBelow(fs: Fs, log: seq<Entry>, programs: seq<seq<Call>>, j: nat)
    requires forall t :: 0 <= t < |programs| ==> CallsOf(log, t) <= programs[t]
    ensures ThreadsBytes(fs, log, |programs|, j) <= ProgramBytes(fs, programs, j)
    decreases |programs|
  {
    hide CallsBytes, CallsOf;
    var n := |programs|;
    if n > 0 {
      ThreadsBelow(fs, log, programs[..n - 1], j);
      PrefixBytes(fs, CallsOf(log, n - 1), programs[n - 1], j);
    }
  }

  // An order in which calls of the programs can come: each thread's calls in their own order.
  ghost predicate OrderOf(log: seq<Entry>, programs: seq<seq<Call>>) {
    && (forall k :: 0 <= k < |log| ==> log[k].t < |programs|)
    && (forall t :: 0 <= t < |programs| ==> CallsOf(log, t) <= programs[t])
  }

  lemma OrderBytes(fs: Fs, log: seq<Entry>, programs: seq<seq<Call>>, j: nat)
    requires OrderOf(log, programs)
    ensures LogBytes(fs, log, j) <= ProgramBytes(fs, programs, j)
  {
    hide CallsOf;
    LogIsThreads(fs, log, |programs|, j);
    ThreadsBelow(fs, log, programs, j);
  }

  lemma ShorterOrder(log: seq<Entry>, programs: seq<seq<Call>>)
    requires OrderOf(log, programs) && |log| > 0
    ensures OrderOf(log[..|log| - 1], programs)
  {
    forall t | 0 <= t < |programs| ensures CallsOf(log[..|log| - 1], t) <= programs[t] {
      assert CallsOf(log[..|log| - 1], t) <= CallsOf(log, t);
    }
  }

  // ---------- the condition ----------

  // The blocks file j lacks for its contents and all that the programs write to it.
  ghost function Lacks(fs: Fs, programs: seq<seq<Call>>, j: nat): nat
  {
    if LiveFile(fs, j) then
      var held := Held(fs, j, fs.inodes[j].size);
      Max(held, F.Need(fs.inodes[j].size + ProgramBytes(fs, programs, j))) - held
    else 0
  }

  ghost function AllLack(fs: Fs, programs: seq<seq<Call>>, n: nat): nat
  {
    if n == 0 then 0 else AllLack(fs, programs, n - 1) + Lacks(fs, programs, n - 1)
  }

  // Every file stays within 266 blocks and what the files lack together is free, even if every
  // write should make its file longer.
  ghost predicate Enough(fs: Fs, programs: seq<seq<Call>>) {
    && (forall j: nat :: LiveFile(fs, j) ==> fs.inodes[j].size + ProgramBytes(fs, programs, j) <= MAX_FILE_BYTES)
    && AllLack(fs, programs, INODE_TABLE_SIZE) <= FreeCount(fs.blockTs)
  }

  // r is no further than fs and the programs allow, and file i would not be with `more` blocks added.
  lemma {:induction false} SumWithin(fs: Fs, programs: seq<seq<Call>>, r: Fs, i: nat, more: nat, n: nat)
    requires forall j: nat :: j < n ==>
               HeldBy(r, F.SizesOf(r), j) + (if j == i then more else 0)
               <= HeldBy(fs, F.SizesOf(fs), j) + Lacks(fs, programs, j)
    ensures SumHeld(r, F.SizesOf(r), n) + (if i < n then more else 0)
         <= SumHeld(fs, F.SizesOf(fs), n) + AllLack(fs, programs, n)
    decreases n
  {
    hide HeldBy, Lacks;
    if n > 0 { SumWithin(fs, programs, r, i, more, n - 1); }
  }

  // ---------- then every order succeeds ----------

  lemma {:induction false} SizesInOrder(a: Flats, fs: Fs, log: seq<Entry>, j: nat)
    requires FlatsOk(a) && LogOk(log) && j < INODE_TABLE_SIZE
    requires forall k :: 0 <= k < |log| ==> a.inums[log[k].call.h] == fs.files[log[k].call.h].inum
    ensures Replay(a, log).inums == a.inums
    ensures |Replay(a, log).contents[j]| <= |a.contents[j]| + LogBytes(fs, log, j)
    decreases |log|
  {
    if |log| > 0 { SizesInOrder(a, fs, log[..|log| - 1], j); }
  }

  // What file j holds in r, which real calls have made of fs.
  lemma HeldWithin(fs: Fs, programs: seq<seq<Call>>, r: Fs, j: nat)
    requires F.Inv(fs) && F.Inv(r) && Grew(fs, F.SizesOf(fs), r, F.SizesOf(r))
    requires LiveFile(fs, j) ==> r.inodes[j].size <= fs.inodes[j].size + ProgramBytes(fs, programs, j)
    ensures HeldBy(r, F.SizesOf(r), j) <= HeldBy(fs, F.SizesOf(fs), j) + Lacks(fs, programs, j)
  {
    hide Owned, Capacity, ProgramBytes;
    if LiveFile(fs, j) {
      assert Shaped(r, j, F.SizesOf(r)[j]) && Shaped(fs, j, F.SizesOf(fs)[j]);
    }
  }

  lemma RoomForWrite(fs: Fs, programs: seq<seq<Call>>, r: Fs, h: nat, buf: seq<byte>)
    requires F.Inv(fs) && Enough(fs, programs) && F.Inv(r) && F.OpenHandle(r, h) && Usable(r, h)
    requires Grew(fs, F.SizesOf(fs), r, F.SizesOf(r))
    requires forall j: nat :: LiveFile(fs, j) ==> r.inodes[j].size <= fs.inodes[j].size + ProgramBytes(fs, programs, j)
    requires var i := r.files[h].inum;
             F.EndOfWrite(r, h, |buf|) <= fs.inodes[i].size + ProgramBytes(fs, programs, i)
    ensures Write(r, h, buf).1 == Ret(|buf|)
  {
    hide Write, Owned, ProgramBytes, BlockAt, FreeCount, SumHeld, AllLack, Lacks, Store, HeldBy;
    HandleFlat(r, h);
    F.ExactSpace(r, h, buf);
    var i, z := r.files[h].inum, F.EndOfWrite(r, h, |buf|);
    var held := Held(r, i, r.inodes[i].size);
    var more := Max(held, F.Need(z)) - held;
    forall j: nat
      ensures HeldBy(r, F.SizesOf(r), j) + (if j == i then more else 0)
           <= HeldBy(fs, F.SizesOf(fs), j) + Lacks(fs, programs, j)
    {
      HeldWithin(fs, programs, r, j);
      if j == i { NeedWithin(fs, programs, r, i, z); }
    }
    SumWithin(fs, programs, r, i, more, INODE_TABLE_SIZE);
  }

  lemma NeedWithin(fs: Fs, programs: seq<seq<Call>>, r: Fs, i: nat, z: nat)
    requires LiveFile(r, i) && LiveFile(fs, i) && z <= fs.inodes[i].size + ProgramBytes(fs, programs, i)
    ensures HeldBy(r, F.SizesOf(r), i) == Held(r, i, r.inodes[i].size)
    ensures F.Need(z) <= HeldBy(fs, F.SizesOf(fs), i) + Lacks(fs, programs, i)
  {
    NeedGrows(z, fs.inodes[i].size + ProgramBytes(fs, programs, i));
  }

  lemma {:induction false} EveryOrderSucceeds(fs: Fs, programs: seq<seq<Call>>, log: seq<Entry>)
    requires F.Inv(fs) && OnOpenHandles(fs, programs) && Enough(fs, programs) && OrderOf(log, programs)
    ensures RealReplay(fs, log).Some?
    decreases |log|
  {
    hide Enough, RealCall, Grew, FlatView, Replay, F.Inv, OrderOf;
    if |log| > 0 {
      var before, c := log[..|log| - 1], log[|log| - 1].call;
      ShorterOrder(log, programs);
      EveryOrderSucceeds(fs, programs, before);
      OrderHandles(fs, programs, log);
      RealReplayView(fs, before);
      assert before + [log[|log| - 1]] == log;
      NextCallSucceeds(fs, programs, before, log[|log| - 1], RealReplay(fs, before).value);
    }
  }

  lemma OrderHandles(fs: Fs, programs: seq<seq<Call>>, log: seq<Entry>)
    requires OnOpenHandles(fs, programs) && OrderOf(log, programs)
    ensures LogOk(log) && forall m :: 0 <= m < |log| ==> F.OpenHandle(fs, log[m].call.h)
  {
    hide CallsOf;
    forall m | 0 <= m < |log| ensures F.OpenHandle(fs, log[m].call.h) {
      LoggedIsCalled(log, m);
      assert log[m].call in programs[log[m].t];
    }
  }

  lemma NextCallSucceeds(fs: Fs, programs: seq<seq<Call>>, before: seq<Entry>, e: Entry, r: Fs)
    requires F.Inv(fs) && OnOpenHandles(fs, programs) && Enough(fs, programs) && OrderOf(before + [e], programs)
    requires LogOk(before) && F.OpenHandle(fs, e.call.h)
    requires forall m :: 0 <= m < |before| ==> F.OpenHandle(fs, before[m].call.h)
    requires F.Inv(r) && SameLife(fs, r) && Grew(fs, F.SizesOf(fs), r, F.SizesOf(r))
    requires SameFlats(fs, FlatView(r), Replay(FlatView(fs), before))
    ensures RealCall(r, e.call).Some?
  {
    hide F.Inv, Enough, Grew, FlatView, Replay, ProgramBytes, Store, CallsOf, Write, Read, OrderOf;
    var c := e.call;
    if c.ReadCall? {
      AtomicIsRead(r, c.h, c.len);
    } else {
      LoggedInodes(fs, before);
      HandleFlat(r, c.h);
      HandleFlat(fs, c.h);
      SizesInOrder(FlatView(fs), fs, before, 0);
      assert (before + [e])[..|before|] == before;
      forall j: nat | LiveFile(fs, j)
        ensures r.inodes[j].size + CallBytes(fs, c, j) <= fs.inodes[j].size + ProgramBytes(fs, programs, j)
      {
        SizesInOrder(FlatView(fs), fs, before, j);
        OrderBytes(fs, before + [e], programs, j);
        FileFlat(r, j);
        FileFlat(fs, j);
      }
      RoomForWrite(fs, programs, r, c.h, c.buf);
    }
  }

  lemma LoggedInodes(fs: Fs, log: seq<Entry>)
    requires F.Inv(fs) && forall m :: 0 <= m < |log| ==> F.OpenHandle(fs, log[m].call.h)
    ensures forall m :: 0 <= m < |log| ==> FlatView(fs).inums[log[m].call.h] == fs.files[log[m].call.h].inum
  {
    hide F.Inv, FlatView;
    forall m | 0 <= m < |log| ensures FlatView(fs).inums[log[m].call.h] == fs.files[log[m].call.h].inum {
      HandleFlat(fs, log[m].call.h);
    }
  }

  // ---------- every run ends well ----------

  // With enough room, every run of the programs is no longer than the work there is, and where it
  // cannot go on, every thread has finished with an answer to each of its calls.
  lemma EveryRunFinishes(fs: Fs, programs: seq<seq<Call>>, states: seq<State>, schedule: seq<nat>)
    requires RunFrom(fs, programs, states, schedule) && Enough(fs, programs)
    ensures |schedule| <= Work(Start(fs, programs).threads)
    ensures var s := states[|states| - 1];
            (forall t: nat :: !CanStep(s, t)) ==>
              && Finished(s) && |s.threads| == |programs|
              && forall t :: 0 <= t < |programs| ==>
                   && |s.threads[t].answers| == |programs[t]|
                   && forall k :: 0 <= k < |programs[t]| ==> AnswerFits(programs[t][k], s.threads[t].answers[k])
  {
    hide Step, Inv, CanStep, Work, RealReplay, Enough, AnswerFits, F.Inv, OnOpenHandles, CallsOf;
    var s := states[|states| - 1];
    RunsAreShort(states, schedule, |schedule|);
    Reached(fs, programs, states, schedule);
    EveryOrderSucceeds(fs, programs, s.log);
    if forall t: nat :: !CanStep(s, t) { AllAnswered(fs, programs, states, schedule); }
  }

  // Programs that only read need no room at all.
  lemma ReadersHaveRoom(fs: Fs, programs: seq<seq<Call>>)
    requires F.Inv(fs) && forall t :: 0 <= t < |programs| ==> forall c :: c in programs[t] ==> c.ReadCall?
    ensures Enough(fs, programs)
  {
    hide F.Need, Store;
    forall j: nat | LiveFile(fs, j)
      ensures fs.inodes[j].size + ProgramBytes(fs, programs, j) <= MAX_FILE_BYTES
    {
      F.LiveContent(fs, j);
      NothingWritten(fs, programs, j);
    }
    NothingLacks(fs, programs, INODE_TABLE_SIZE);
  }

  lemma {:induction false} NothingWritten(fs: Fs, programs: seq<seq<Call>>, j: nat)
    requires forall t :: 0 <= t < |programs| ==> forall c :: c in programs[t] ==> c.ReadCall?
    ensures ProgramBytes(fs, programs, j) == 0
    decreases |programs|
  {
    if |programs| > 0 {
      NothingWritten(fs, programs[..|programs| - 1], j);
      OnlyReadsWriteNothing(fs, programs[|programs| - 1], j);
    }
  }

  lemma {:induction false} OnlyReadsWriteNothing(fs: Fs, cs: seq<Call>, j: nat)
    requires forall c :: c in cs ==> c.ReadCall?
    ensures CallsBytes(fs, cs, j) == 0
    decreases |cs|
  {
    if |cs| > 0 {
      assert cs[|cs| - 1] in cs;
      OnlyReadsWriteNothing(fs, cs[..|cs| - 1], j);
    }
  }

  lemma {:induction false} NothingLacks(fs: Fs, programs: seq<seq<Call>>, n: nat)
    requires F.Inv(fs) && forall t :: 0 <= t < |programs| ==> forall c :: c in programs[t] ==> c.ReadCall?
    ensures AllLack(fs, programs, n) == 0
    decreases n
  {
    hide Store, ProgramBytes;
    if n > 0 {
      NothingLacks(fs, programs, n - 1);
      NothingWritten(fs, programs, n - 1);
      if LiveFile(fs, n - 1) { HoldsItsNeed(fs, n - 1); }
    }
  }

  lemma HoldsItsNeed(fs: Fs, j: nat)
    requires F.Inv(fs) && LiveFile(fs, j)
    ensures F.Need(fs.inodes[j].size) <= Held(fs, j, fs.inodes[j].size)
  {
    assert Shaped(fs, j, F.SizesOf(fs)[j]);
  }
}
