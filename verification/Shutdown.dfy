/** The shutdown protocol of the second version: any number of threads in tfs_open and
    tfs_close, and one in tfs_destroy_after_all_closed, step by step under the global lock and
    the condition variable. */
module Shutdown {
  import opened Config
  import FS = SingleBlock
  import I = SingleBlockInv
  import C = SingleBlockCalls

  // Where a caller of tfs_open or tfs_close stands.
  datatype Thread =
    | OpenStart(name: string, flags: Flags)   // before the unlocked test of can_open_files
    | OpenPassed(name: string, flags: Flags)  // past the test, before the lock
    | OpenLocked(name: string, flags: Flags)  // holds the lock
    | OpenRan(r: Result)                      // the open has run, open_files is not updated
    | OpenCounted(r: Result)                  // before the unlock
    | OpenDone(r: Result)
    | CloseStart(h: int)
    | CloseLocked(h: int)
    | CloseRan(r: Result)                     // the handle is gone, open_files is not updated
    | CloseCounted(r: Result)                 // before the test that signals
    | CloseSignalled(r: Result)               // before the unlock
    | CloseDone(r: Result)

  // Where tfs_destroy_after_all_closed stands. Asleep is inside pthread_cond_wait and not
  // signalled; Woken has to take the lock again.
  datatype Destroyer = Waiting | Entered | Testing | Asleep | Woken | Left | Finished

  datatype Holder = Nobody | Caller(t: nat) | TheDestroyer

  datatype State = State(fs: FS.Fs, lock: Holder, canOpen: bool, openFiles: int,
                         threads: seq<Thread>, destroyer: Destroyer)

  // Which thread moves; a sleeping destroyer may also wake up spuriously.
  datatype Actor = Move(t: nat) | MoveDestroyer | Spurious

  predicate Holds(th: Thread) {
    th.OpenLocked? || th.OpenRan? || th.OpenCounted?
    || th.CloseLocked? || th.CloseRan? || th.CloseCounted? || th.CloseSignalled?
  }

  predicate DestroyerHolds(d: Destroyer) { d == Entered || d == Testing || d == Left }

  predicate Enabled(s: State, a: Actor) {
    match a
    case Move(t) =>
      && t < |s.threads|
      && (match s.threads[t]
          case OpenDone(_) => false
          case CloseDone(_) => false
          case OpenPassed(_, _) => s.lock == Nobody
          case CloseStart(_) => s.lock == Nobody
          case _ => true)
    case MoveDestroyer =>
      && s.destroyer != Asleep && s.destroyer != Finished
      && (s.destroyer == Waiting || s.destroyer == Woken ==> s.lock == Nobody)
    case Spurious => s.destroyer == Asleep
  }

  function MoveThread(s: State, t: nat): State
    requires t < |s.threads|
  {
    match s.threads[t]
    case OpenStart(name, flags) =>
      s.(threads := s.threads[t := if s.canOpen then OpenPassed(name, flags) else OpenDone(Fail)])
    case OpenPassed(name, flags) =>
      s.(lock := Caller(t), threads := s.threads[t := OpenLocked(name, flags)])
    case OpenLocked(name, flags) =>
      var (fs', r) := FS.Open(s.fs, name, flags);
      s.(fs := fs', threads := s.threads[t := OpenRan(r)])
    case OpenRan(r) =>
      s.(openFiles := if r.Ret? then s.openFiles + 1 else s.openFiles, threads := s.threads[t := OpenCounted(r)])
    case OpenCounted(r) =>
      s.(lock := Nobody, threads := s.threads[t := OpenDone(r)])
    case CloseStart(h) =>
      s.(lock := Caller(t), threads := s.threads[t := CloseLocked(h)])
    case CloseLocked(h) =>
      var (fs', r) := FS.Close(s.fs, h);
      s.(fs := fs', threads := s.threads[t := CloseRan(r)])
    case CloseRan(r) =>
      s.(openFiles := if r.Ret? then s.openFiles - 1 else s.openFiles, threads := s.threads[t := CloseCounted(r)])
    case CloseCounted(r) =>
      s.(destroyer := if s.openFiles == 0 && s.destroyer == Asleep then Woken else s.destroyer,
         threads := s.threads[t := CloseSignalled(r)])
    case CloseSignalled(r) =>
      s.(lock := Nobody, threads := s.threads[t := CloseDone(r)])
    case OpenDone(_) => s
    case CloseDone(_) => s
  }

  function MoveTheDestroyer(s: State): State
  {
    match s.destroyer
    case Waiting => s.(lock := TheDestroyer, destroyer := Entered)
    case Entered => s.(canOpen := false, destroyer := Testing)
    case Testing => if s.openFiles != 0 then s.(lock := Nobody, destroyer := Asleep) else s.(destroyer := Left)
    case Woken => s.(lock := TheDestroyer, destroyer := Testing)
    case Left => s.(lock := Nobody, destroyer := Finished)
    case Asleep => s
    case Finished => s
  }

  function Next(s: State, a: Actor): State
    requires Enabled(s, a)
  {
    match a
    case Move(t) => MoveThread(s, t)
    case MoveDestroyer => MoveTheDestroyer(s)
    case Spurious => s.(destroyer := Woken)
  }

  function TakenCount(ts: seq<Alloc>): nat { multiset(ts)[TAKEN] }

  lemma TakenCountUpdate(ts: seq<Alloc>, b: nat, v: Alloc)
    requires b < |ts|
    ensures TakenCount(ts[b := v]) ==
            TakenCount(ts) - (if ts[b] == TAKEN then 1 else 0) + (if v == TAKEN then 1 else 0)
  {}

  // How far open_files lags behind the table while the lock is held.
  function Lag(th: Thread): int {
    match th
    case OpenRan(r) => if r.Ret? then 1 else 0
    case CloseRan(r) => if r.Ret? then -1 else 0
    case _ => 0
  }

  function LagOf(s: State): int {
    match s.lock
    case Caller(t) => if t < |s.threads| then Lag(s.threads[t]) else 0
    case _ => 0
  }

  // Nobody creates under the empty path, which has no meaning.
  ghost predicate NameOk(th: Thread) {
    (th.OpenStart? || th.OpenPassed? || th.OpenLocked?) && th.flags.creat ==> |th.name| > 0
  }

  ghost predicate LockOk(s: State) {
    && (forall t :: 0 <= t < |s.threads| ==> (Holds(s.threads[t]) <==> s.lock == Caller(t)))
    && (s.lock.Caller? ==> s.lock.t < |s.threads|)
    && (DestroyerHolds(s.destroyer) <==> s.lock == TheDestroyer)
  }

  ghost predicate Inv(s: State) {
    && I.Inv(s.fs) && LockOk(s)
    && (forall t :: 0 <= t < |s.threads| ==> NameOk(s.threads[t]))
    && s.openFiles == TakenCount(s.fs.fileTs) - LagOf(s)
    && s.openFiles >= 0
    && (s.lock.Caller? && s.threads[s.lock.t].OpenRan? && s.threads[s.lock.t].r.Ret? ==> TakenCount(s.fs.fileTs) > 0)
    && (s.destroyer != Waiting && s.destroyer != Entered <==> !s.canOpen)
    && (s.destroyer == Left ==> s.openFiles == 0)
    && (s.destroyer == Asleep && s.openFiles == 0 ==> s.lock.Caller? && s.threads[s.lock.t].CloseCounted?)
  }

  ghost predicate Initial(s: State) {
    && s.lock == Nobody && s.canOpen && s.destroyer == Waiting
    && (forall t :: 0 <= t < |s.threads| ==>
          s.threads[t].CloseStart? || (s.threads[t].OpenStart? && NameOk(s.threads[t])))
  }

  lemma RunsOpen(s: State, t: nat)
    requires Inv(s) && t < |s.threads| && s.threads[t].OpenLocked?
    ensures var (fs', r) := FS.Open(s.fs, s.threads[t].name, s.threads[t].flags);
            I.Inv(fs') && TakenCount(fs'.fileTs) == TakenCount(s.fs.fileTs) + (if r.Ret? then 1 else 0)
  {
    hide I.Inv, FS.Open;
    assert NameOk(s.threads[t]);
    C.OpenInv(s.fs, s.threads[t].name, s.threads[t].flags);
    var r := FS.Open(s.fs, s.threads[t].name, s.threads[t].flags).1;
    if r.Ret? { TakenCountUpdate(s.fs.fileTs, r.n, TAKEN); }
  }

  lemma RunsClose(s: State, t: nat)
    requires Inv(s) && t < |s.threads| && s.threads[t].CloseLocked?
    ensures var (fs', r) := FS.Close(s.fs, s.threads[t].h);
            I.Inv(fs') && TakenCount(fs'.fileTs) == TakenCount(s.fs.fileTs) - (if r.Ret? then 1 else 0)
  {
    hide I.Inv;
    var h := s.threads[t].h;
    C.CloseInv(s.fs, h);
    if ValidHandle(h) { TakenCountUpdate(s.fs.fileTs, h, FREE); }
  }

  predicate InOpen(th: Thread) {
    th.OpenStart? || th.OpenPassed? || th.OpenLocked? || th.OpenRan? || th.OpenCounted? || th.OpenDone?
  }

  lemma OpenStepInv(s: State, t: nat)
    requires Inv(s) && Enabled(s, Move(t)) && InOpen(s.threads[t])
    ensures Inv(MoveThread(s, t))
  {
    hide I.Inv, FS.Open, FS.Close, TakenCount;
    if s.threads[t].OpenLocked? { RunsOpen(s, t); }
  }

  lemma CloseStepInv(s: State, t: nat)
    requires Inv(s) && Enabled(s, Move(t)) && !InOpen(s.threads[t])
    ensures Inv(MoveThread(s, t))
  {
    hide I.Inv, FS.Open, FS.Close, TakenCount;
    if s.threads[t].CloseLocked? { RunsClose(s, t); }
  }

  lemma StepKeepsInv(s: State, a: Actor)
    requires Inv(s) && Enabled(s, a)
    ensures Inv(Next(s, a))
  {
    hide I.Inv, MoveThread, TakenCount;
    if a.Move? {
      if InOpen(s.threads[a.t]) { OpenStepInv(s, a.t); } else { CloseStepInv(s, a.t); }
    }
  }

  // A schedule of enabled moves.
  ghost predicate Schedule(s: State, moves: seq<Actor>)
    decreases |moves|
  {
    |moves| == 0 || (Enabled(s, moves[0]) && Schedule(Next(s, moves[0]), moves[1..]))
  }

  function After(s: State, moves: seq<Actor>): State
    decreases |moves|
  {
    if |moves| == 0 then s else if Enabled(s, moves[0]) then After(Next(s, moves[0]), moves[1..]) else s
  }

  lemma {:induction false} ScheduleKeepsInv(s: State, moves: seq<Actor>)
    requires Inv(s) && Schedule(s, moves)
    ensures Inv(After(s, moves))
    decreases |moves|
  {
    hide Inv, Enabled, Next;
    if |moves| > 0 {
      StepKeepsInv(s, moves[0]);
      ScheduleKeepsInv(Next(s, moves[0]), moves[1..]);
    }
  }

  lemma InitialInv(s: State)
    requires Initial(s) && I.Inv(s.fs) && s.openFiles == TakenCount(s.fs.fileTs)
    ensures Inv(s)
  {
    hide I.Inv;
  }

  // In every reachable state: open_files is the number of TAKEN handles whenever the lock is
  // free; the destroyer has left its loop only if none was TAKEN; and it is not asleep,
  // unsignalled, while the lock is free and no file is open.
  lemma ShutdownSafety(s0: State, moves: seq<Actor>)
    requires Initial(s0) && I.Inv(s0.fs) && s0.openFiles == TakenCount(s0.fs.fileTs) && Schedule(s0, moves)
    ensures var s := After(s0, moves);
            && (s.lock == Nobody ==> s.openFiles == TakenCount(s.fs.fileTs))
            && (s.destroyer == Left ==> TAKEN !in s.fs.fileTs)
            && (s.lock == Nobody && TAKEN !in s.fs.fileTs ==> s.destroyer != Asleep)
  {
    hide I.Inv, After;
    InitialInv(s0);
    ScheduleKeepsInv(s0, moves);
    var s := After(s0, moves);
    assert TAKEN in s.fs.fileTs <==> TAKEN in multiset(s.fs.fileTs);
  }

  // ---------- draining ----------

  predicate Flying(th: Thread) { th.OpenPassed? || th.OpenLocked? || th.OpenRan? }

  // Openers past the unlocked test whose open is not counted yet.
  function InFlight(s: State): set<int>
  {
    set t | 0 <= t < |s.threads| && Flying(s.threads[t])
  }

  lemma InFlightUpdate(s: State, s': State, t: nat)
    requires t < |s.threads| == |s'.threads| && s'.threads == s.threads[t := s'.threads[t]]
    ensures InFlight(s') == if Flying(s'.threads[t]) then InFlight(s) + {t} else InFlight(s) - {t}
    ensures t in InFlight(s) <==> Flying(s.threads[t])
  {}

  function Measure(s: State): int { 2 * |InFlight(s)| + s.openFiles }

  // A completed open, failed or not, or a successful close.
  predicate Completes(s: State, a: Actor) {
    a.Move? && a.t < |s.threads| &&
    (s.threads[a.t].OpenRan? || (s.threads[a.t].CloseRan? && s.threads[a.t].r.Ret?))
  }

  lemma DrainStep(s: State, a: Actor)
    requires Inv(s) && Enabled(s, a) && !s.canOpen
    ensures var s' := Next(s, a);
            && !s'.canOpen && InFlight(s') <= InFlight(s)
            && Measure(s') <= Measure(s) - (if Completes(s, a) then 1 else 0)
  {
    hide I.Inv, TakenCount, LockOk, NameOk, InFlight, MoveThread;
    var s' := Next(s, a);
    if a.Move? {
      ThreadDrains(s, a.t);
      InFlightUpdate(s, s', a.t);
      if s.threads[a.t].OpenRan? {
        assert |InFlight(s) - {a.t}| == |InFlight(s)| - 1;
      } else if Flying(s.threads[a.t]) {
        assert InFlight(s) + {a.t} == InFlight(s);
      } else {
        assert InFlight(s) - {a.t} == InFlight(s);
      }
    } else {
      SameFlight(s, s');
    }
  }

  // One thread's share of the measure.
  lemma ThreadDrains(s: State, t: nat)
    requires t < |s.threads| && !s.canOpen
    ensures var s' := MoveThread(s, t);
            && |s'.threads| == |s.threads| && s'.threads == s.threads[t := s'.threads[t]] && !s'.canOpen
            && (Flying(s'.threads[t]) <==> Flying(s.threads[t]) && !s.threads[t].OpenRan?)
            && s'.openFiles <= s.openFiles + (if s.threads[t].OpenRan? then 1 else 0)
            && (s.threads[t].CloseRan? && s.threads[t].r.Ret? ==> s'.openFiles == s.openFiles - 1)
  {
    hide FS.Open, FS.Close;
    assert s.threads == s.threads[t := s.threads[t]];
  }

  lemma SameFlight(s: State, s': State)
    requires s'.threads == s.threads
    ensures InFlight(s') == InFlight(s)
  {}

  function Completions(s: State, moves: seq<Actor>): nat
    decreases |moves|
  {
    if |moves| == 0 then 0
    else if Enabled(s, moves[0]) then (if Completes(s, moves[0]) then 1 else 0) + Completions(Next(s, moves[0]), moves[1..])
    else 0
  }

  // Once can_open_files is 0 nobody joins the openers in flight, and what can still complete
  // is bounded by twice their number plus the files open at that moment.
  lemma {:induction false} ShutdownDrains(s: State, moves: seq<Actor>)
    requires Inv(s) && Schedule(s, moves) && !s.canOpen
    ensures var s' := After(s, moves);
            && Inv(s') && !s'.canOpen && InFlight(s') <= InFlight(s)
            && 0 <= Measure(s') <= Measure(s) - Completions(s, moves)
    decreases |moves|
  {
    hide Enabled, Next, Completes, I.Inv, LockOk, InFlight;
    if |moves| > 0 {
      StepKeepsInv(s, moves[0]);
      DrainStep(s, moves[0]);
      ShutdownDrains(Next(s, moves[0]), moves[1..]);
    }
  }

  // ---------- openers that are late ----------

  // When nobody is past the unlocked test as the destroyer leaves its loop, no handle is ever
  // TAKEN again.
  lemma NothingOpensAfter(s: State, moves: seq<Actor>)
    requires Inv(s) && Schedule(s, moves) && s.destroyer == Left && InFlight(s) == {}
    ensures TAKEN !in After(s, moves).fs.fileTs
  {
    hide I.Inv, After, Schedule, InFlight;
    assert TAKEN in s.fs.fileTs <==> TAKEN in multiset(s.fs.fileTs);
    StaysEmpty(s, moves);
  }

  lemma {:induction false} StaysEmpty(s: State, moves: seq<Actor>)
    requires Inv(s) && Schedule(s, moves) && !s.canOpen && InFlight(s) == {} && TAKEN !in s.fs.fileTs
    ensures TAKEN !in After(s, moves).fs.fileTs
    decreases |moves|
  {
    hide Inv, Enabled, Next, InFlight;
    if |moves| > 0 {
      StepKeepsInv(s, moves[0]);
      DrainStep(s, moves[0]);
      StepTakesNothing(s, moves[0]);
      StaysEmpty(Next(s, moves[0]), moves[1..]);
    }
  }

  lemma StepTakesNothing(s: State, a: Actor)
    requires Enabled(s, a) && InFlight(s) == {} && TAKEN !in s.fs.fileTs
    ensures TAKEN !in Next(s, a).fs.fileTs
  {
    hide FS.Open;
    if a.Move? { assert a.t !in InFlight(s); }
  }
}
