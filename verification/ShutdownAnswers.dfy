/** What the callers of the shutdown protocol are told, what their calls do to the tables, and that
    every run of them comes to an end. */
module ShutdownAnswers {
  import opened Config
  import opened Shutdown
  import FS = SingleBlock
  import I = SingleBlockInv
  import C = SingleBlockCalls
  import Runs = SingleBlockRuns

  // ---------- the account of answers ----------

  // The callers that were given a handle, and those that gave one back.
  function Openers(ths: seq<Thread>): set<int>
  {
    set t | 0 <= t < |ths| && ths[t].OpenDone? && ths[t].r.Ret?
  }

  function Closers(ths: seq<Thread>): set<int>
  {
    set t | 0 <= t < |ths| && ths[t].CloseDone? && ths[t].r.Ret?
  }

  // What a caller has added to open_files so far.
  function Share(th: Thread): int
  {
    match th
    case OpenCounted(r) => if r.Ret? then 1 else 0
    case OpenDone(r) => if r.Ret? then 1 else 0
    case CloseCounted(r) => if r.Ret? then -1 else 0
    case CloseSignalled(r) => if r.Ret? then -1 else 0
    case CloseDone(r) => if r.Ret? then -1 else 0
    case _ => 0
  }

  function Shares(ths: seq<Thread>): int
    decreases |ths|
  {
    if |ths| == 0 then 0 else Shares(ths[..|ths| - 1]) + Share(ths[|ths| - 1])
  }

  lemma {:induction false} SharesUpdate(ths: seq<Thread>, t: nat, th: Thread)
    requires t < |ths|
    ensures Shares(ths[t := th]) == Shares(ths) - Share(ths[t]) + Share(th)
    decreases |ths|
  {
    hide Share;
    var n := |ths| - 1;
    if t == n {
      assert ths[t := th][..n] == ths[..n];
    } else {
      assert ths[t := th][..n] == ths[..n][t := th];
      SharesUpdate(ths[..n], t, th);
    }
  }

  lemma StepShares(s: State, a: Actor)
    requires Enabled(s, a)
    ensures Next(s, a).openFiles - Shares(Next(s, a).threads) == s.openFiles - Shares(s.threads)
  {
    hide MoveThread, Shares, Share;
    if a.Move? {
      MoveShares(s, a.t);
      SharesUpdate(s.threads, a.t, Next(s, a).threads[a.t]);
    }
  }

  lemma MoveShares(s: State, t: nat)
    requires Enabled(s, Move(t))
    ensures var s' := MoveThread(s, t);
            && |s'.threads| == |s.threads| && s'.threads == s.threads[t := s'.threads[t]]
            && s'.openFiles - Share(s'.threads[t]) == s.openFiles - Share(s.threads[t])
  {
    hide FS.Open, FS.Close;
  }

  lemma {:induction false} ScheduleShares(s: State, moves: seq<Actor>)
    requires Schedule(s, moves)
    ensures After(s, moves).openFiles - Shares(After(s, moves).threads) == s.openFiles - Shares(s.threads)
    decreases |moves|
  {
    hide Enabled, Next;
    if |moves| > 0 {
      StepShares(s, moves[0]);
      ScheduleShares(Next(s, moves[0]), moves[1..]);
    }
  }

  lemma {:induction false} SharesCount(ths: seq<Thread>)
    requires forall t :: 0 <= t < |ths| ==> !Holds(ths[t])
    ensures Shares(ths) == |Openers(ths)| - |Closers(ths)|
    decreases |ths|
  {
    hide Openers, Closers, Share;
    if |ths| == 0 {
      NobodyYet(ths);
    } else {
      var n := |ths| - 1;
      SharesCount(ths[..n]);
      OneMore(ths, n);
    }
  }

  lemma NobodyYet(ths: seq<Thread>)
    requires |ths| == 0
    ensures Openers(ths) == {} && Closers(ths) == {}
  {}

  lemma OneMore(ths: seq<Thread>, n: nat)
    requires |ths| == n + 1 && !Holds(ths[n])
    ensures |Openers(ths)| == |Openers(ths[..n])| + if Share(ths[n]) == 1 then 1 else 0
    ensures |Closers(ths)| == |Closers(ths[..n])| + if Share(ths[n]) == -1 then 1 else 0
    ensures -1 <= Share(ths[n]) <= 1
  {
    assert Openers(ths) == Openers(ths[..n]) + if Share(ths[n]) == 1 then {n} else {};
    assert Closers(ths) == Closers(ths[..n]) + if Share(ths[n]) == -1 then {n} else {};
  }

  // Whenever the lock is free, open_files is what it was at the start, plus the callers that were
  // answered a handle, minus those whose close succeeded.
  lemma CountIsAnswers(s0: State, moves: seq<Actor>)
    requires Initial(s0) && I.Inv(s0.fs) && s0.openFiles == TakenCount(s0.fs.fileTs) && Schedule(s0, moves)
    ensures var s := After(s0, moves);
            s.lock == Nobody ==> s.openFiles == s0.openFiles + |Openers(s.threads)| - |Closers(s.threads)|
  {
    hide I.Inv, After, Schedule, Shares;
    InitialInv(s0);
    ScheduleKeepsInv(s0, moves);
    ScheduleShares(s0, moves);
    SharesCount(s0.threads);
    assert Openers(s0.threads) == {} && Closers(s0.threads) == {};
    if After(s0, moves).lock == Nobody { SharesCount(After(s0, moves).threads); }
  }

  // ---------- the answers are those of the calls on the tables ----------

  lemma FirstMove(s: State, moves: seq<Actor>, k: nat)
    requires Schedule(s, moves) && 0 < k <= |moves|
    ensures After(s, moves[..k]) == After(Next(s, moves[0]), moves[1..][..k - 1])
  {
    assert moves[..k][1..] == moves[1..][..k - 1];
  }

  predicate Opening(th: Thread) { th.OpenStart? || th.OpenPassed? || th.OpenLocked? }

  predicate Done(th: Thread) { th.OpenDone? || th.CloseDone? }

  // An open with answer r has run.
  predicate HasOpened(th: Thread, r: Result) { th == OpenRan(r) || th == OpenCounted(r) || th == OpenDone(r) }

  predicate HasClosed(th: Thread, r: Result) {
    th == CloseRan(r) || th == CloseCounted(r) || th == CloseSignalled(r) || th == CloseDone(r)
  }

  // A thread stands still while others move, and its moves take an open or a close forward.
  lemma StepOfThread(s: State, a: Actor, t: nat)
    requires Enabled(s, a) && t < |s.threads|
    ensures |Next(s, a).threads| == |s.threads|
    ensures a != Move(t) ==> Next(s, a).threads[t] == s.threads[t]
    ensures a == Move(t) ==> !Done(s.threads[t])
    ensures a == Move(t) ==> forall r :: HasOpened(s.threads[t], r) ==> HasOpened(Next(s, a).threads[t], r)
    ensures a == Move(t) ==> forall r :: HasClosed(s.threads[t], r) ==> HasClosed(Next(s, a).threads[t], r)
  {
    hide FS.Open, FS.Close;
  }

  lemma OpeningStep(s: State, t: nat)
    requires Enabled(s, Move(t)) && Opening(s.threads[t])
    ensures var (th, s') := (s.threads[t], Next(s, Move(t)));
            && |s'.threads| == |s.threads|
            && match th
               case OpenStart(name, flags) =>
                 s'.fs == s.fs && s'.threads[t] == if s.canOpen then OpenPassed(name, flags) else OpenDone(Fail)
               case OpenPassed(name, flags) => s'.fs == s.fs && s'.threads[t] == OpenLocked(name, flags)
               case _ =>
                 s'.fs == FS.Open(s.fs, th.name, th.flags).0 && s'.threads[t] == OpenRan(FS.Open(s.fs, th.name, th.flags).1)
  {
    hide FS.Open, FS.Close;
  }

  lemma ClosingStep(s: State, t: nat)
    requires Enabled(s, Move(t)) && (s.threads[t].CloseStart? || s.threads[t].CloseLocked?)
    ensures var (h, s') := (s.threads[t].h, Next(s, Move(t)));
            && |s'.threads| == |s.threads|
            && if s.threads[t].CloseStart? then s'.fs == s.fs && s'.threads[t] == CloseLocked(h)
               else s'.fs == FS.Close(s.fs, h).0 && s'.threads[t] == CloseRan(FS.Close(s.fs, h).1)
  {
    hide FS.Open, FS.Close;
  }

  lemma {:induction false} AnswerStays(s: State, moves: seq<Actor>, t: nat, r: Result)
    requires Schedule(s, moves) && t < |s.threads| && (HasOpened(s.threads[t], r) || HasClosed(s.threads[t], r))
    ensures t < |After(s, moves).threads|
    ensures HasOpened(s.threads[t], r) ==> HasOpened(After(s, moves).threads[t], r)
    ensures HasClosed(s.threads[t], r) ==> HasClosed(After(s, moves).threads[t], r)
    ensures Done(s.threads[t]) ==> After(s, moves).threads[t] == s.threads[t]
    decreases |moves|
  {
    hide Enabled, Next, HasOpened, HasClosed;
    if |moves| > 0 {
      StepOfThread(s, moves[0], t);
      AnswerStays(Next(s, moves[0]), moves[1..], t, r);
    }
  }

  // The answer of a finished tfs_open: it was refused, without a look at the tables, because its
  // first move came when can_open_files was 0; or its open ran at move k, in one piece, and it
  // is told what that open answered.
  lemma {:induction false} OpenAnswer(s: State, moves: seq<Actor>, t: nat) returns (k: nat)
    requires Schedule(s, moves) && t < |s.threads| && Opening(s.threads[t])
    requires t < |After(s, moves).threads| && !Opening(After(s, moves).threads[t])
    ensures k < |moves| && moves[k] == Move(t)
    ensures var (th, sk, s') := (s.threads[t], After(s, moves[..k]), After(s, moves[..k + 1]));
            var end := After(s, moves).threads[t];
            && t < |sk.threads|
            && (sk.threads[t] == OpenStart(th.name, th.flags) && !sk.canOpen ==> s'.fs == sk.fs && end == OpenDone(Fail))
            && (sk.threads[t] == OpenLocked(th.name, th.flags) ==>
                  s'.fs == FS.Open(sk.fs, th.name, th.flags).0 && HasOpened(end, FS.Open(sk.fs, th.name, th.flags).1))
            && ((sk.threads[t] == OpenStart(th.name, th.flags) && !sk.canOpen)
                || sk.threads[t] == OpenLocked(th.name, th.flags))
    decreases |moves|
  {
    hide Enabled, Next, FS.Open;
    var a, s1 := moves[0], Next(s, moves[0]);
    StepOfThread(s, a, t);
    if a == Move(t) { OpeningStep(s, t); }
    if Opening(s1.threads[t]) {
      k := OpenAnswer(s1, moves[1..], t);
      FirstMove(s, moves, k + 1);
      FirstMove(s, moves, k + 2);
      k := k + 1;
    } else {
      k := 0;
      FirstMove(s, moves, 1);
      AnswerStays(s1, moves[1..], t, s1.threads[t].r);
    }
  }

  lemma {:induction false} CloseAnswer(s: State, moves: seq<Actor>, t: nat) returns (k: nat)
    requires Schedule(s, moves) && t < |s.threads| && (s.threads[t].CloseStart? || s.threads[t].CloseLocked?)
    requires t < |After(s, moves).threads| && After(s, moves).threads[t].CloseDone?
    ensures k < |moves| && moves[k] == Move(t)
    ensures var (h, sk, s') := (s.threads[t].h, After(s, moves[..k]), After(s, moves[..k + 1]));
            && t < |sk.threads| && sk.threads[t] == CloseLocked(h)
            && s'.fs == FS.Close(sk.fs, h).0 && After(s, moves).threads[t] == CloseDone(FS.Close(sk.fs, h).1)
    decreases |moves|
  {
    hide Enabled, Next, FS.Close;
    var a, s1 := moves[0], Next(s, moves[0]);
    StepOfThread(s, a, t);
    if a == Move(t) { ClosingStep(s, t); }
    if s1.threads[t].CloseStart? || s1.threads[t].CloseLocked? {
      k := CloseAnswer(s1, moves[1..], t);
      FirstMove(s, moves, k + 1);
      FirstMove(s, moves, k + 2);
      k := k + 1;
    } else {
      k := 0;
      FirstMove(s, moves, 1);
      AnswerStays(s1, moves[1..], t, s1.threads[t].r);
    }
  }

  lemma {:induction false} PrefixSchedule(s: State, moves: seq<Actor>, k: nat)
    requires Schedule(s, moves) && k <= |moves|
    ensures Schedule(s, moves[..k])
    decreases k
  {
    hide Enabled, Next;
    if k > 0 {
      PrefixSchedule(Next(s, moves[0]), moves[1..], k - 1);
      assert moves[..k][1..] == moves[1..][..k - 1];
    }
  }

  // A handle that was answered was FREE before the open and TAKEN after it; an open is never
  // answered anything but a handle or -1.
  lemma AnsweredHandle(s0: State, moves: seq<Actor>, t: nat) returns (k: nat)
    requires Initial(s0) && I.Inv(s0.fs) && s0.openFiles == TakenCount(s0.fs.fileTs) && Schedule(s0, moves)
    requires t < |s0.threads| && s0.threads[t].OpenStart?
    requires t < |After(s0, moves).threads| && After(s0, moves).threads[t].OpenDone?
    ensures k < |moves| && moves[k] == Move(t)
    ensures var (r, sk, s') := (After(s0, moves).threads[t].r, After(s0, moves[..k]), After(s0, moves[..k + 1]));
            && (r.Ret? || r == Fail)
            && (r.Ret? ==> ValidHandle(r.n) && sk.fs.fileTs[r.n] == FREE && s'.fs.fileTs == sk.fs.fileTs[r.n := TAKEN])
            && (r == Fail ==> s'.fs.fileTs == sk.fs.fileTs)
  {
    hide I.Inv, FS.Open, After, Schedule, FS.LookupPath;
    InitialInv(s0);
    k := OpenAnswer(s0, moves, t);
    PrefixSchedule(s0, moves, k);
    ScheduleKeepsInv(s0, moves[..k]);
    var sk, th := After(s0, moves[..k]), s0.threads[t];
    assert NameOk(sk.threads[t]);
    C.OpenInv(sk.fs, th.name, th.flags);
  }

  // After the shutdown has begun, a caller that has not moved yet is told -1, whatever it asks for.
  lemma {:induction false} RefusedOnceClosing(s: State, moves: seq<Actor>, t: nat)
    requires Schedule(s, moves) && !s.canOpen && t < |s.threads| && s.threads[t].OpenStart?
    ensures t < |After(s, moves).threads|
    ensures After(s, moves).threads[t] == if Move(t) in moves then OpenDone(Fail) else s.threads[t]
    decreases |moves|
  {
    hide FS.Open, FS.Close;
    if |moves| > 0 {
      var s1 := Next(s, moves[0]);
      if moves[0] == Move(t) {
        AnswerStays(s1, moves[1..], t, Fail);
      } else {
        RefusedOnceClosing(s1, moves[1..], t);
      }
    }
  }

  // ---------- the tables are those of the calls one at a time ----------

  // The calls in the order in which they ran under the lock.
  function Ran(s: State, moves: seq<Actor>): seq<Runs.Call>
    decreases |moves|
  {
    if |moves| == 0 || !Enabled(s, moves[0]) then []
    else RanBy(s, moves[0]) + Ran(Next(s, moves[0]), moves[1..])
  }

  function RanBy(s: State, a: Actor): seq<Runs.Call>
    requires Enabled(s, a)
  {
    if !a.Move? then []
    else
      match s.threads[a.t]
      case OpenLocked(name, flags) => [Runs.OpenCall(name, flags)]
      case CloseLocked(h) => [Runs.CloseCall(h)]
      case _ => []
  }

  lemma StepTables(s: State, a: Actor)
    requires Enabled(s, a)
    ensures |RanBy(s, a)| <= 1
    ensures Next(s, a).fs == if |RanBy(s, a)| == 1 then Runs.Apply(s.fs, RanBy(s, a)[0]) else s.fs
  {
    hide FS.Open, FS.Close;
  }

  lemma {:induction false} TablesAreSerial(s: State, moves: seq<Actor>)
    requires Schedule(s, moves)
    ensures After(s, moves).fs == Runs.Run(s.fs, Ran(s, moves))
    decreases |moves|
  {
    hide Enabled, Next, RanBy, Runs.Apply;
    if |moves| > 0 {
      var rest := Ran(Next(s, moves[0]), moves[1..]);
      TablesAreSerial(Next(s, moves[0]), moves[1..]);
      StepTables(s, moves[0]);
      if |RanBy(s, moves[0])| == 1 {
        assert Ran(s, moves)[1..] == rest;
      } else {
        assert Ran(s, moves) == rest;
      }
    }
  }

  // ---------- the end of a run ----------

  // A sleeping destroyer is signalled by a close that finds no file open, and by no other.
  lemma WokenWhenEmpty(s: State, t: nat)
    requires Inv(s) && Enabled(s, Move(t)) && s.destroyer == Asleep
    ensures Next(s, Move(t)).destroyer == (if s.threads[t].CloseCounted? && TAKEN !in s.fs.fileTs then Woken else Asleep)
  {
    hide I.Inv, FS.Open, FS.Close;
    assert TAKEN in s.fs.fileTs <==> TAKEN in multiset(s.fs.fileTs);
  }

  // A spurious wake-up does no harm: the destroyer takes the lock, finds a file open and goes back
  // to sleep.
  lemma SpuriousIsHarmless(s: State)
    requires Inv(s) && s.destroyer == Asleep && s.lock == Nobody
    ensures var moves := [Spurious, MoveDestroyer, MoveDestroyer]; Schedule(s, moves) && After(s, moves) == s
  {
    hide I.Inv;
    var s1 := Next(s, Spurious);
    var s2 := Next(s1, MoveDestroyer);
    var s3 := Next(s2, MoveDestroyer);
    assert s3 == s;
    assert Schedule(s3, []) && After(s3, []) == s3;
    assert [MoveDestroyer][1..] == [];
    assert Schedule(s2, [MoveDestroyer]) && After(s2, [MoveDestroyer]) == s3;
    assert [MoveDestroyer, MoveDestroyer][1..] == [MoveDestroyer];
    assert Schedule(s1, [MoveDestroyer, MoveDestroyer]) && After(s1, [MoveDestroyer, MoveDestroyer]) == s3;
    assert [Spurious, MoveDestroyer, MoveDestroyer][1..] == [MoveDestroyer, MoveDestroyer];
  }

  // When nobody can move, every caller has its answer, and the destroyer is through, or asleep
  // because a file is open.
  lemma OnlyOpenFilesBlock(s: State)
    requires Inv(s) && (forall t: nat :: !Enabled(s, Move(t))) && !Enabled(s, MoveDestroyer)
    ensures forall t :: 0 <= t < |s.threads| ==> Done(s.threads[t])
    ensures s.destroyer == Finished || (s.destroyer == Asleep && TAKEN in s.fs.fileTs)
  {
    hide I.Inv;
    var holder: nat := if s.lock.Caller? then s.lock.t else 0;
    assert !Enabled(s, Move(holder));
    forall t: nat | t < |s.threads| ensures Done(s.threads[t]) { assert !Enabled(s, Move(t)); }
    assert TAKEN in s.fs.fileTs <==> TAKEN in multiset(s.fs.fileTs);
  }

  function ThreadWork(th: Thread): nat
  {
    match th
    case OpenStart(_, _) => 5
    case OpenPassed(_, _) => 4
    case OpenLocked(_, _) => 3
    case OpenRan(_) => 2
    case OpenCounted(_) => 1
    case OpenDone(_) => 0
    case CloseStart(_) => 5
    case CloseLocked(_) => 4
    case CloseRan(_) => 3
    case CloseCounted(_) => 2
    case CloseSignalled(_) => 1
    case CloseDone(_) => 0
  }

  function DestroyerWork(d: Destroyer): nat
  {
    match d
    case Waiting => 7
    case Entered => 6
    case Woken => 5
    case Testing => 4
    case Asleep => 3
    case Left => 1
    case Finished => 0
  }

  function ThreadsWork(ths: seq<Thread>): nat
    decreases |ths|
  {
    if |ths| == 0 then 0 else ThreadsWork(ths[..|ths| - 1]) + ThreadWork(ths[|ths| - 1])
  }

  lemma {:induction false} WorkUpdate(ths: seq<Thread>, t: nat, th: Thread)
    requires t < |ths|
    ensures ThreadsWork(ths[t := th]) == ThreadsWork(ths) - ThreadWork(ths[t]) + ThreadWork(th)
    decreases |ths|
  {
    hide ThreadWork;
    var n := |ths| - 1;
    if t == n {
      assert ths[t := th][..n] == ths[..n];
    } else {
      assert ths[t := th][..n] == ths[..n][t := th];
      WorkUpdate(ths[..n], t, th);
    }
  }

  function Work(s: State): nat { 3 * ThreadsWork(s.threads) + DestroyerWork(s.destroyer) }

  lemma StepWorks(s: State, a: Actor)
    requires Enabled(s, a)
    ensures Work(Next(s, a)) <= if a == Spurious then Work(s) + 2 else Work(s) - 1
  {
    hide MoveThread, ThreadsWork, ThreadWork;
    if a.Move? {
      MoveWorks(s, a.t);
      WorkUpdate(s.threads, a.t, Next(s, a).threads[a.t]);
    }
  }

  // A signal costs the destroyer two moves, and the caller's own move is worth three.
  lemma MoveWorks(s: State, t: nat)
    requires Enabled(s, Move(t))
    ensures var s' := MoveThread(s, t);
            && |s'.threads| == |s.threads| && s'.threads == s.threads[t := s'.threads[t]]
            && ThreadWork(s'.threads[t]) < ThreadWork(s.threads[t])
            && DestroyerWork(s'.destroyer) <= DestroyerWork(s.destroyer) + 2
  {
    hide FS.Open, FS.Close;
  }

  // Every run is short: its moves, spurious wake-ups apart, are bounded by the work there was and
  // twice the wake-ups. So without them for ever, every run ends where nobody can move.
  lemma {:induction false} RunsEnd(s: State, moves: seq<Actor>)
    requires Schedule(s, moves)
    ensures |moves| + Work(After(s, moves)) <= Work(s) + 3 * multiset(moves)[Spurious]
    decreases |moves|
  {
    hide Enabled, Next, Work;
    if |moves| > 0 {
      StepWorks(s, moves[0]);
      RunsEnd(Next(s, moves[0]), moves[1..]);
      assert moves == [moves[0]] + moves[1..];
      assert multiset(moves)[Spurious] == multiset(moves[1..])[Spurious] + if moves[0] == Spurious then 1 else 0;
    }
  }

  // A run from the start that cannot go on has answered every caller; and tfs_destroy_after_all_closed
  // has come back, unless a file is open that nobody closes.
  lemma ShutdownCompletes(s0: State, moves: seq<Actor>)
    requires Initial(s0) && I.Inv(s0.fs) && s0.openFiles == TakenCount(s0.fs.fileTs) && Schedule(s0, moves)
    requires var s := After(s0, moves); (forall t: nat :: !Enabled(s, Move(t))) && !Enabled(s, MoveDestroyer)
    ensures var s := After(s0, moves);
            && (forall t :: 0 <= t < |s.threads| ==> Done(s.threads[t]))
            && (TAKEN !in s.fs.fileTs ==> s.destroyer == Finished)
  {
    hide I.Inv, After, Schedule, Enabled;
    InitialInv(s0);
    ScheduleKeepsInv(s0, moves);
    OnlyOpenFilesBlock(After(s0, moves));
  }
}
