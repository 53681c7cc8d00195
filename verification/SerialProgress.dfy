/** Every run of the threads of Serial comes to an end, and if the blocks suffice it ends with every
    call answered. */
module SerialProgress {
  import opened Config
  import opened MultiBlock
  import opened Ownership
  import opened Writing
  import opened Serial
  import opened SerialReal
  import F = FlatFile

  // ---------- every lock has its holder ----------

  ghost predicate HoldersExist(s: State)
    requires Shape(s)
  {
    && (forall h :: 0 <= h < MAX_OPEN_FILES && s.fileLock[h].Some? ==> s.fileLock[h].value < |s.threads|)
    && (forall i :: 0 <= i < INODE_TABLE_SIZE && s.writer[i].Some? ==> s.writer[i].value < |s.threads|)
    && (forall i :: 0 <= i < INODE_TABLE_SIZE ==> forall u :: u in s.readers[i] ==> u < |s.threads|)
  }

  lemma StepHolders(s: State, t: nat, s': State)
    requires Shape(s) && HoldersExist(s) && Step(s, t, s') && Shape(s')
    ensures HoldersExist(s')
  {
    hide WriteStep, ReadStep, ToRead, RepairedSize, Chunk, SetSize;
  }

  lemma {:induction false} RunHolders(states: seq<State>, schedule: seq<nat>, a0: Flats, programs: seq<seq<Call>>, k: nat)
    requires Run(states, schedule) && k < |states| && Inv(states[0], a0, programs) && HoldersExist(states[0])
    ensures Shape(states[k]) && HoldersExist(states[k])
    decreases k
  {
    hide Inv, Step, HoldersExist;
    RunKeepsInv(states, schedule, a0, programs, k);
    InvLocks(states[k], a0, programs);
    if k > 0 {
      RunHolders(states, schedule, a0, programs, k - 1);
      StepHolders(states[k - 1], schedule[k - 1], states[k]);
    } else {
      InvLocks(states[0], a0, programs);
    }
  }

  lemma InvLocks(s: State, a0: Flats, programs: seq<seq<Call>>)
    requires Inv(s, a0, programs)
    ensures Shape(s) && LocksOk(s) && FlatsOk(a0) && |programs| == |s.threads| && Agrees(s, Replay(a0, s.log))
  {}

  // ---------- what a thread waits for ----------

  ghost predicate CanStep(s: State, t: nat) { Shape(s) && exists s' :: Step(s, t, s') }

  predicate Over(th: Thread) { th.at.Idle? && th.todo == [] }

  // u has the handle's mutex that t wants, or the lock of the inode, not both being readers.
  predicate StandsInWay(s: State, t: nat, u: nat)
    requires t < |s.threads| && u < |s.threads|
  {
    var p, q := s.threads[t].at, s.threads[u].at;
    && t != u
    && match p
       case Idle => |s.threads[t].todo| > 0 && !q.Idle? && !q.Unlocking? && q.c.h == s.threads[t].todo[0].h
       case GotFile(c) =>
         && ValidHandle(c.h) && HasInode(q) && q.i == s.fs.files[c.h].inum
         && (c.WriteCall? || q.c.WriteCall?)
       case _ => false
  }

  lemma HandleTaken(s: State, t: nat)
    requires Shape(s) && LocksOk(s) && HoldersExist(s) && t < |s.threads|
    requires s.threads[t].at.Idle? && |s.threads[t].todo| > 0 && s.threads[t].todo[0].h < MAX_OPEN_FILES
    ensures CanStep(s, t) <==> forall u :: 0 <= u < |s.threads| ==> !StandsInWay(s, t, u)
  {
    var h := s.threads[t].todo[0].h;
    if s.fileLock[h] == None {
      var th := s.threads[t];
      var s' := s.(fileLock := s.fileLock[h := Some(t)],
                   threads := s.threads[t := th.(todo := th.todo[1..], at := GotFile(th.todo[0]))]);
      assert TakeHandle(s, t, s');
      assert Step(s, t, s');
      forall u | 0 <= u < |s.threads| ensures !StandsInWay(s, t, u) {
        assert HoldsFile(s.threads[u].at, h) <==> s.fileLock[h] == Some(u);
      }
    } else {
      var u := s.fileLock[h].value;
      assert HoldsFile(s.threads[u].at, h);
      assert StandsInWay(s, t, u);
    }
  }

  lemma InodeTaken(s: State, t: nat)
    requires Shape(s) && LocksOk(s) && HoldersExist(s) && t < |s.threads|
    requires s.threads[t].at.GotFile? && Usable(s.fs, s.threads[t].at.c.h)
    ensures CanStep(s, t) <==> forall u :: 0 <= u < |s.threads| ==> !StandsInWay(s, t, u)
  {
    var p := s.threads[t].at;
    var f := s.fs.files[p.c.h];
    var i := f.inum;
    if s.writer[i] == None && (p.c.WriteCall? ==> s.readers[i] == {}) {
      InodeFree(s, t);
      forall u | 0 <= u < |s.threads| ensures !StandsInWay(s, t, u) {
        assert HoldsWrite(s.threads[u].at, i) <==> s.writer[i] == Some(u);
        assert HoldsRead(s.threads[u].at, i) <==> u in s.readers[i];
      }
    } else {
      var u: nat;
      if s.writer[i] != None {
        u := s.writer[i].value;
        assert HoldsWrite(s.threads[u].at, i);
      } else {
        u :| u in s.readers[i];
        assert HoldsRead(s.threads[u].at, i);
      }
      assert StandsInWay(s, t, u);
    }
  }

  lemma InodeFree(s: State, t: nat)
    requires Shape(s) && t < |s.threads| && s.threads[t].at.GotFile? && Usable(s.fs, s.threads[t].at.c.h)
    requires var p := s.threads[t].at;
             var i := s.fs.files[p.c.h].inum;
             s.writer[i] == None && (p.c.WriteCall? ==> s.readers[i] == {})
    ensures CanStep(s, t)
  {
    hide ToRead;
    var p := s.threads[t].at;
    var f := s.fs.files[p.c.h];
    if p.c.WriteCall? {
      var s' := At(s, t, InWrite(p.c, f.inum, p.c.buf, s.fs.inodes[f.inum].size, f.offset)).(
                  writer := s.writer[f.inum := Some(t)], log := s.log + [Entry(t, p.c)]);
      assert BeginWrite(s, t, s');
      assert Step(s, t, s');
    } else {
      var s' := At(s, t, InRead(p.c, f.inum, ToRead(s.fs.inodes[f.inum].size, f.offset, p.c.len), [])).(
                  readers := s.readers[f.inum := s.readers[f.inum] + {t}], log := s.log + [Entry(t, p.c)]);
      assert BeginRead(s, t, s');
      assert Step(s, t, s');
    }
  }

  // A round that finds its block, the end of a loop, and giving back a lock.
  lemma WorkGoesOn(s: State, t: nat)
    requires Shape(s) && t < |s.threads| && HasInode(s.threads[t].at)
    requires var p := s.threads[t].at;
             && p.i < INODE_TABLE_SIZE && Usable(s.fs, p.c.h)
             && (p.InWrite? ==> p.c.WriteCall? && (|p.rest| > 0 ==> WriteStep(s.fs, p.c.h, p.rest).1 == Done))
             && (p.InRead? && p.want > 0 ==>
                   ReadStep(s.fs, p.c.h, p.want).2 == Done && |ReadStep(s.fs, p.c.h, p.want).1| <= p.want)
    ensures CanStep(s, t)
  {
    hide WriteStep, ReadStep, Chunk, RepairedSize, SetSize;
    var p := s.threads[t].at;
    match p
    case InWrite(c, i, rest, size0, off0) =>
      if |rest| > 0 { WriteGoesOn(s, t); } else {
        var s' := At(s, t, Leaving(c, i, Count(|c.buf|))).(
                    fs := SetSize(s.fs, i, RepairedSize(s.fs.inodes[i].size, size0, off0, |c.buf|)));
        assert EndWrite(s, t, s');
        assert Step(s, t, s');
      }
    case InRead(c, i, want, acc) =>
      if want > 0 { ReadGoesOn(s, t); } else {
        var s' := At(s, t, Leaving(c, i, Bytes(acc)));
        assert EndRead(s, t, s');
        assert Step(s, t, s');
      }
    case Leaving(c, i, answer) =>
      var s' := At(s, t, Unlocking(c, i, answer)).(fileLock := s.fileLock[c.h := None]);
      assert DropHandle(s, t, s');
      assert Step(s, t, s');
    case Unlocking(c, i, answer) =>
      var th := s.threads[t];
      var s' := s.(threads := s.threads[t := th.(at := Idle, answers := th.answers + [answer])],
                   writer := if c.WriteCall? then s.writer[i := None] else s.writer,
                   readers := if c.ReadCall? then s.readers[i := s.readers[i] - {t}] else s.readers);
      assert DropInode(s, t, s');
      assert Step(s, t, s');
  }

  lemma WriteGoesOn(s: State, t: nat)
    requires Shape(s) && t < |s.threads| && s.threads[t].at.InWrite? && |s.threads[t].at.rest| > 0
    requires var p := s.threads[t].at;
             p.i < INODE_TABLE_SIZE && Usable(s.fs, p.c.h) && WriteStep(s.fs, p.c.h, p.rest).1 == Done
    ensures CanStep(s, t)
  {
    hide WriteStep;
    var p := s.threads[t].at;
    var n := Chunk(s.fs.files[p.c.h].offset, |p.rest|);
    var s' := At(s, t, p.(rest := p.rest[n..])).(
                fs := WriteStep(s.fs, p.c.h, p.rest).0,
                sizes := s.sizes[p.i := Max(s.sizes[p.i], s.fs.files[p.c.h].offset + n)]);
    assert WriteRound(s, t, s');
    assert Step(s, t, s');
  }

  lemma ReadGoesOn(s: State, t: nat)
    requires Shape(s) && t < |s.threads| && s.threads[t].at.InRead? && s.threads[t].at.want > 0
    requires var p := s.threads[t].at;
             && Usable(s.fs, p.c.h) && ReadStep(s.fs, p.c.h, p.want).2 == Done
             && |ReadStep(s.fs, p.c.h, p.want).1| <= p.want
    ensures CanStep(s, t)
  {
    hide ReadStep;
    var p := s.threads[t].at;
    var (fs', got, o) := ReadStep(s.fs, p.c.h, p.want);
    var s' := At(s, t, p.(want := p.want - |got|, acc := p.acc + got)).(fs := fs');
    assert ReadRound(s, t, s');
    assert Step(s, t, s');
  }

  // ---------- the work there is to do ----------

  function Size(c: Call): nat { if c.WriteCall? then |c.buf| else c.len }

  function PointWork(p: Point): nat
  {
    match p
    case Idle => 0
    case GotFile(c) => Size(c) + 4
    case InWrite(_, _, rest, _, _) => |rest| + 3
    case InRead(_, _, want, _) => want + 3
    case Leaving(_, _, _) => 2
    case Unlocking(_, _, _) => 1
  }

  function CallsWork(cs: seq<Call>): nat { if |cs| == 0 then 0 else Size(cs[0]) + 5 + CallsWork(cs[1..]) }

  function ThreadWork(th: Thread): nat { CallsWork(th.todo) + PointWork(th.at) }

  function Work(ths: seq<Thread>): nat
    decreases |ths|
  {
    if |ths| == 0 then 0 else Work(ths[..|ths| - 1]) + ThreadWork(ths[|ths| - 1])
  }

  lemma {:induction false} WorkUpdate(ths: seq<Thread>, t: nat, th: Thread)
    requires t < |ths|
    ensures Work(ths[t := th]) == Work(ths) - ThreadWork(ths[t]) + ThreadWork(th)
    decreases |ths|
  {
    hide ThreadWork;
    var n := |ths| - 1;
    if t == n {
      assert ths[t := th][..n] == ths[..n];
    } else {
      assert ths[t := th][..n] == ths[..n][t := th];
      WorkUpdate(ths[..n], t, th);
    }
  }

  lemma StepWorks(s: State, t: nat, s': State)
    requires Shape(s) && Step(s, t, s')
    ensures Work(s'.threads) < Work(s.threads)
  {
    hide Step, Work, ThreadWork;
    OneThreadWorks(s, t, s');
    WorkUpdate(s.threads, t, s'.threads[t]);
  }

  lemma OneThreadWorks(s: State, t: nat, s': State)
    requires Shape(s) && Step(s, t, s')
    ensures t < |s.threads| == |s'.threads| && s'.threads == s.threads[t := s'.threads[t]]
    ensures ThreadWork(s'.threads[t]) < ThreadWork(s.threads[t])
  {
    hide WriteStep, ReadStep, RepairedSize, SetSize, ToRead;
    ReadsNoMore(s, t);
  }

  lemma ReadsNoMore(s: State, t: nat)
    requires t < |s.threads|
    ensures var p := s.threads[t].at;
            p.GotFile? && Usable(s.fs, p.c.h) && p.c.ReadCall? ==>
              ToRead(s.fs.inodes[s.fs.files[p.c.h].inum].size, s.fs.files[p.c.h].offset, p.c.len) <= p.c.len
  {}

  // No run takes more steps than there was work.
  lemma {:induction false} RunsAreShort(states: seq<State>, schedule: seq<nat>, k: nat)
    requires Run(states, schedule) && k < |states|
    ensures k + Work(states[k].threads) <= Work(states[0].threads)
    decreases k
  {
    hide Step, Work;
    if k > 0 {
      RunsAreShort(states, schedule, k - 1);
      StepWorks(states[k - 1], schedule[k - 1], states[k]);
    }
  }

  // ---------- nobody is stuck ----------

  // fs and programs, and a run of them from the start so far.
  ghost predicate RunFrom(fs: Fs, programs: seq<seq<Call>>, states: seq<State>, schedule: seq<nat>) {
    && F.Inv(fs) && OnOpenHandles(fs, programs)
    && Run(states, schedule) && states[0] == Start(fs, programs)
  }

  lemma Reached(fs: Fs, programs: seq<seq<Call>>, states: seq<State>, schedule: seq<nat>)
    requires RunFrom(fs, programs, states, schedule)
    ensures var s := states[|states| - 1];
            && Inv(s, FlatView(fs), programs) && Shape(s) && LocksOk(s) && HoldersExist(s)
            && (forall t :: 0 <= t < |programs| ==> CallsOf(s.log, t) <= programs[t])
            && |programs| == |s.threads| && (forall k :: 0 <= k < |s.log| ==> s.log[k].t < |programs|)
  {
    hide Step, FlatView, CallsOf, Agrees, LocksOk, Expected, Answers, Replay;
    var n := |states| - 1;
    StartInv(fs, programs);
    InvLocks(states[0], FlatView(fs), programs);
    RunKeepsInv(states, schedule, FlatView(fs), programs, n);
    InvLocks(states[n], FlatView(fs), programs);
    RunHolders(states, schedule, FlatView(fs), programs, n);
    var s := states[n];
    forall t | 0 <= t < |programs| ensures CallsOf(s.log, t) <= programs[t] {
      assert CallsOf(s.log, t) + Pending(s.threads[t]) == programs[t];
    }
  }

  lemma ThreadsHandles(s: State, t: nat, a0: Flats, programs: seq<seq<Call>>)
    requires Inv(s, a0, programs) && t < |s.threads|
    ensures var th := s.threads[t];
            && Shape(s)
            && (forall k :: 0 <= k < |th.todo| ==> th.todo[k].h < MAX_OPEN_FILES)
            && (!th.at.Idle? ==> Usable(s.fs, th.at.c.h))
            && (HasInode(th.at) ==> th.at.i < INODE_TABLE_SIZE)
            && (th.at.InWrite? ==> th.at.c.WriteCall?)
  {
    hide LocksOk, FilesFlat, HandlesFlat, Store, Cur, Expected, Replay, Answers, CallsOf;
    var th := s.threads[t];
    assert ThreadOk(s.fs, s.sizes, Replay(a0, s.log), th);
    if !th.at.Idle? { assert Ready(s.fs, s.sizes, th.at.c.h); }
  }

  // In every reachable state, as long as the calls of the order so far succeed when made one at a
  // time, an unfinished thread can step unless another has what it wants.
  lemma OnlyLocksBlock(fs: Fs, programs: seq<seq<Call>>, states: seq<State>, schedule: seq<nat>, t: nat)
    requires RunFrom(fs, programs, states, schedule)
    requires var s := states[|states| - 1]; t < |s.threads| && !Over(s.threads[t]) && RealReplay(fs, s.log).Some?
    ensures var s := states[|states| - 1];
            CanStep(s, t) <==> forall u :: 0 <= u < |s.threads| ==> !StandsInWay(s, t, u)
  {
    hide Step, Inv, LocksOk, HoldersExist, StandsInWay, CanStep, RealReplay, WriteStep, ReadStep, FlatView, CallsOf;
    var s := states[|states| - 1];
    Reached(fs, programs, states, schedule);
    ThreadsHandles(s, t, FlatView(fs), programs);
    var p := s.threads[t].at;
    if p.Idle? {
      HandleTaken(s, t);
    } else if p.GotFile? {
      InodeTaken(s, t);
    } else {
      if p.InWrite? && |p.rest| > 0 { WritersMoveOn(fs, programs, states, schedule, t); }
      if p.InRead? && p.want > 0 { ReadersMoveOn(s, t, FlatView(fs), programs); }
      WorkGoesOn(s, t);
      NobodyInWay(s, t);
    }
  }

  lemma NobodyInWay(s: State, t: nat)
    requires t < |s.threads| && HasInode(s.threads[t].at)
    ensures forall u :: 0 <= u < |s.threads| ==> !StandsInWay(s, t, u)
  {}

  // So somebody can step while a thread is unfinished: who stands in the way has an inode's lock
  // and goes on, or waits for one who has.
  lemma {:induction false} SomeoneSteps(fs: Fs, programs: seq<seq<Call>>, states: seq<State>, schedule: seq<nat>, t: nat)
    returns (u: nat)
    requires RunFrom(fs, programs, states, schedule)
    requires var s := states[|states| - 1]; t < |s.threads| && !Over(s.threads[t]) && RealReplay(fs, s.log).Some?
    ensures var s := states[|states| - 1]; u < |s.threads| && CanStep(s, u)
    decreases var p := states[|states| - 1].threads[t].at; if p.Idle? then 2 else if p.GotFile? then 1 else 0
  {
    hide Step, Inv, OnOpenHandles, F.Inv, CanStep, RealReplay;
    var s := states[|states| - 1];
    OnlyLocksBlock(fs, programs, states, schedule, t);
    if CanStep(s, t) {
      u := t;
    } else {
      var v :| 0 <= v < |s.threads| && StandsInWay(s, t, v);
      u := SomeoneSteps(fs, programs, states, schedule, v);
    }
  }

  // ---------- every run that cannot go on has answered every call ----------

  predicate AnswerFits(c: Call, a: Answer)
  {
    match c
    case WriteCall(_, buf) => a == Count(|buf|)
    case ReadCall(_, len) => a.Bytes? && |a.data| <= len
  }

  lemma {:induction false} AnswersFit(a: Flats, log: seq<Entry>, t: nat)
    requires FlatsOk(a) && LogOk(log)
    ensures |Answers(a, log, t)| == |CallsOf(log, t)|
    ensures forall k :: 0 <= k < |CallsOf(log, t)| ==> AnswerFits(CallsOf(log, t)[k], Answers(a, log, t)[k])
    decreases |log|
  {
    hide Replay, Splice;
    if |log| > 0 { AnswersFit(a, log[..|log| - 1], t); }
  }

  // A run of no more steps can be made; each call has its answer, a read of no bytes included.
  lemma AllAnswered(fs: Fs, programs: seq<seq<Call>>, states: seq<State>, schedule: seq<nat>)
    requires RunFrom(fs, programs, states, schedule)
    requires var s := states[|states| - 1]; RealReplay(fs, s.log).Some? && forall t: nat :: !CanStep(s, t)
    ensures var s := states[|states| - 1];
            && Finished(s) && |s.threads| == |programs|
            && forall t :: 0 <= t < |programs| ==>
                 && |s.threads[t].answers| == |programs[t]|
                 && forall k :: 0 <= k < |programs[t]| ==> AnswerFits(programs[t][k], s.threads[t].answers[k])
  {
    hide Step, Inv, LocksOk, HoldersExist, CanStep, RealReplay, FlatView, CallsOf, Answers, Replay, AnswerFits;
    var s := states[|states| - 1];
    Reached(fs, programs, states, schedule);
    forall t | 0 <= t < |s.threads| ensures Over(s.threads[t]) {
      if !Over(s.threads[t]) {
        var u := SomeoneSteps(fs, programs, states, schedule, t);
        assert false;
      }
    }
    FinalState(s, FlatView(fs), programs);
    forall t | 0 <= t < |programs|
      ensures |s.threads[t].answers| == |programs[t]|
      ensures forall k :: 0 <= k < |programs[t]| ==> AnswerFits(programs[t][k], s.threads[t].answers[k])
    {
      AnswersFit(FlatView(fs), s.log, t);
    }
  }
}
