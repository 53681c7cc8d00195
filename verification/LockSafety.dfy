/** What the locks of the first version protect: mutual exclusion, who waits for whom, and how calls
    end, in every reachable state. */
module LockSafety {
  import opened Config
  import opened LockOrder

  // Mutual exclusion in every reachable state: two threads hold the same lock only if it is an
  // inode's and both are in tfs_read on that inode.
  lemma MutualExclusion(s0: State, ts: seq<nat>, s: State, t: nat, u: nat, l: Lock)
    requires Initial(s0) && RunTo(s0, ts, s) && t < |s.threads| && u < |s.threads| && t != u
    requires l in Held(s.threads[t]) && l in Held(s.threads[u])
    ensures l.InodeLock?
    ensures var th, uh := s.threads[t], s.threads[u];
            th.Io? && !th.write && th.i == l.i && uh.Io? && !uh.write && uh.i == l.i
  {
    hide Inv, Held, RunTo;
    InitialInv(s0);
    RunKeepsInv(s0, ts, s);
    OnlyReadersMeet(s, t, u, l);
    ReaderOfOne(s.threads[t], l);
    ReaderOfOne(s.threads[u], l);
  }

  lemma OnlyReadersMeet(s: State, t: nat, u: nat, l: Lock)
    requires Inv(s) && t < |s.threads| && u < |s.threads| && t != u
    requires l in Held(s.threads[t]) && l in Held(s.threads[u])
    ensures l.InodeLock? && Shares(s.threads[t]) && Shares(s.threads[u])
  {
    hide Held, Shares;
    var th, uh := s.threads[t], s.threads[u];
    assert !(Exclusive(th, l) && Exclusive(uh, l));
    assert Shared(th, l) ==> t in ReadersOf(s, l);
    assert Shared(uh, l) ==> u in ReadersOf(s, l);
    assert Exclusive(th, l) || Exclusive(uh, l) ==> ReadersOf(s, l) == {};
  }

  lemma ReaderOfOne(th: Thread, l: Lock)
    requires l.InodeLock? && l in Held(th) && Shares(th)
    ensures th.Io? && !th.write && th.i == l.i
  {}

  // A thread that writes to an inode, or opens it, has its lock alone.
  lemma WriterAlone(s0: State, ts: seq<nat>, s: State, t: nat, u: nat, i: nat)
    requires Initial(s0) && RunTo(s0, ts, s) && t < |s.threads| && u < |s.threads| && t != u
    requires InodeLock(i) in Held(s.threads[t])
    requires (s.threads[t].Io? && s.threads[t].write) || s.threads[t].Open?
    ensures InodeLock(i) !in Held(s.threads[u])
  {
    hide Held, RunTo;
    if InodeLock(i) in Held(s.threads[u]) { MutualExclusion(s0, ts, s, t, u, InodeLock(i)); }
  }

  // A reader joins readers: with nobody but readers at the inode, the lock is granted and all
  // of them hold it.
  lemma ReaderJoins(s: State, t: nat, i: nat)
    requires Inv(s) && t < |s.threads|
    requires s.threads[t].Io? && !s.threads[t].write && s.threads[t].at == WantInode && s.threads[t].i == i
    requires forall u :: 0 <= u < |s.threads| && InodeLock(i) in Held(s.threads[u]) ==>
               s.threads[u].Io? && !s.threads[u].write
    ensures var s' := Take(s, t, InodeLock(i)).(threads := s.threads[t := Acquired(s.threads[t])]);
            && Step(s, t, Acquired(s.threads[t]), s') && InodeLock(i) in Held(s'.threads[t])
            && (forall u :: 0 <= u < |s.threads| && u != t && InodeLock(i) in Held(s.threads[u]) ==>
                  InodeLock(i) in Held(s'.threads[u]))
  {
    if InodeLock(i) in s.owner { assert false; }
  }

  // ---------- critical sections, by program point ----------

  // In the loop of tfs_read or tfs_write.
  predicate InLoop(th: Thread) { th.Io? && (th.at == Loop || th.at == WantBlocks || th.at == HaveBlocks) }

  // Where the inode table or the root directory is read or changed.
  predicate OnInodes(th: Thread) {
    || (th.Io? && th.at == HaveInodes)
    || (th.Open? && (th.op == OpenFound || th.op == OpenCreated || th.op.OpenAdded? || th.op.OpenDeleted?))
  }

  // Where a handle is looked up or given back.
  predicate OnFiles(th: Thread) { th == CloseHave || (th.Io? && th.at == HaveTable) }

  // Where a handle's entry is in use, and which one.
  predicate OnHandle(th: Thread, h: nat) {
    (InLoop(th) && th.h == h) || (th.Open? && th.op == OpenTry(h))
  }

  // Where an inode is in use: an opener reads its size, a loop its blocks.
  predicate OnInode(th: Thread, i: nat) {
    (InLoop(th) && th.i == i) || (th.Open? && (th.op == OpenHaveInode(i) || th.op == OpenDropInode(i)))
  }

  // In every reachable state two threads are never together at the inode table, in the open-file
  // table's look-up, at one handle's entry or in data_block_alloc, and at one inode only if
  // both read it.
  lemma CriticalSections(s0: State, ts: seq<nat>, s: State, t: nat, u: nat)
    requires Initial(s0) && RunTo(s0, ts, s) && t < |s.threads| && u < |s.threads| && t != u
    ensures var th, uh := s.threads[t], s.threads[u];
            && !(OnInodes(th) && OnInodes(uh)) && !(OnFiles(th) && OnFiles(uh))
            && (forall h: nat :: !(OnHandle(th, h) && OnHandle(uh, h)))
            && !(th.Io? && uh.Io? && th.at == HaveBlocks && uh.at == HaveBlocks)
            && (forall i: nat :: OnInode(th, i) && OnInode(uh, i) ==> th.Io? && uh.Io? && !th.write && !uh.write)
  {
    hide Held, RunTo, Initial;
    HeldAtWork(s.threads[t]);
    HeldAtWork(s.threads[u]);
    forall l | l in Held(s.threads[t]) && l in Held(s.threads[u])
      ensures l.InodeLock? && s.threads[t].Io? && !s.threads[t].write && s.threads[u].Io? && !s.threads[u].write
    {
      MutualExclusion(s0, ts, s, t, u, l);
    }
  }

  lemma HeldAtWork(th: Thread)
    ensures OnInodes(th) ==> InodeTable in Held(th)
    ensures OnFiles(th) ==> OpenFileTable in Held(th)
    ensures forall h: nat :: OnHandle(th, h) ==> FileLock(h) in Held(th)
    ensures forall i: nat :: OnInode(th, i) ==> InodeLock(i) in Held(th)
    ensures th.Io? && th.at == HaveBlocks ==> BlockTable in Held(th)
  {}

  // In every reachable state a lock is granted exactly when nobody stands in the way; and a
  // thread in whose way nobody stands can step.
  lemma OnlyHoldersBlock(s0: State, ts: seq<nat>, s: State, t: nat)
    requires Initial(s0) && RunTo(s0, ts, s) && t < |s.threads| && !Over(s.threads[t])
    ensures Wants(s.threads[t]).Some? ==>
              (Granted(s, t, Wants(s.threads[t]).value) <==> forall u :: 0 <= u < |s.threads| ==> !StandsInWay(s, t, u))
    ensures (forall u :: 0 <= u < |s.threads| ==> !StandsInWay(s, t, u)) ==> CanStep(s, t)
  {
    hide Inv, Held, Wants, RunTo, Acquired, Granted, Take, StandsInWay, Continues, GivesUp;
    InitialInv(s0);
    RunKeepsInv(s0, ts, s);
    var th := s.threads[t];
    if Wants(th).None? {
      NotWaitingGoes(s, t);
    } else {
      GrantedExactly(s, t);
      if Granted(s, t, Wants(th).value) {
        assert Step(s, t, Acquired(th), Take(s, t, Wants(th).value).(threads := s.threads[t := Acquired(th)]));
      }
    }
  }

  lemma GrantedExactly(s: State, t: nat)
    requires Inv(s) && t < |s.threads| && Wants(s.threads[t]).Some?
    ensures Granted(s, t, Wants(s.threads[t]).value) <==> forall u :: 0 <= u < |s.threads| ==> !StandsInWay(s, t, u)
  {
    hide Held, Wants, Depth;
    var th, l := s.threads[t], Wants(s.threads[t]).value;
    if Granted(s, t, l) {
      forall u | 0 <= u < |s.threads| ensures !StandsInWay(s, t, u) {
        assert Exclusive(s.threads[u], l) ==> l in s.owner && s.owner[l] == u;
        assert Shared(s.threads[u], l) ==> u in ReadersOf(s, l);
      }
    } else {
      var u := BlockedBy(s, t);
      assert StandsInWay(s, t, u);
    }
  }

  // ---------- how a call ends ----------

  // The points from which a call returns: its locks given back after a finished or failed loop or a
  // bad handle; an open after the entries of the open-file table, a roll-back or a refusal.
  predicate Returns(th: Thread) {
    match th
    case Io(_, _, _, at) => at == BadHandle || at == NoInodeFile || at == NoInodeTable || at == OutInode || at == FailFile
    case Open(_, _, op) => op == OpenGiveUp || op.OpenDeleted? || op.OpenTry?
    case _ => th == CloseHave
  }

  ghost predicate ReturnsIn(s0: State, ts: seq<nat>, t: nat, k: nat) {
    && k < |ts| && ts[k] == t
    && exists sk :: RunTo(s0, ts[..k], sk) && t < |sk.threads| && Returns(sk.threads[t])
  }

  // In every run a call that has ended has come through one of them: no open ends without having
  // gone through the open-file table, rolled back or been refused.
  lemma {:induction false} EndsProperly(s0: State, ts: seq<nat>, s: State, t: nat) returns (k: nat)
    requires RunTo(s0, ts, s) && t < |s0.threads| && s0.threads[t] != Finished
    requires t < |s.threads| && s.threads[t] == Finished
    ensures ReturnsIn(s0, ts, t, k)
    decreases |ts|
  {
    hide Step, Returns;
    var th', s1 :| Step(s0, ts[0], th', s1) && RunTo(s1, ts[1..], s);
    ThreadMoves(s0, ts[0], th', s1);
    if s1.threads[t] == Finished {
      k := 0;
      assert RunTo(s0, ts[..0], s0);
    } else {
      k := EndsProperly(s1, ts[1..], s, t);
      var sk :| RunTo(s1, ts[1..][..k], sk) && t < |sk.threads| && Returns(sk.threads[t]);
      k := k + 1;
      assert ts[..k][1..] == ts[1..][..k - 1];
      assert RunTo(s0, ts[..k], sk);
    }
  }

  lemma ThreadMoves(s: State, t: nat, th': Thread, s': State)
    requires Step(s, t, th', s')
    ensures t < |s.threads| == |s'.threads|
    ensures s'.threads == s.threads[t := th'] && (th' == Finished ==> Returns(s.threads[t]) || s.threads[t] == Finished)
  {
    hide Effect, Gives, Granted;
  }

  // ---------- every outcome is there ----------

  ghost predicate Follows(th: Thread, th': Thread) {
    (Wants(th).Some? && th' == Acquired(th)) || GivesUp(th, th') || Continues(th, th')
  }

  // A loop may go round with or without a new block, come to its end, or run out of blocks, and
  // then give back the inode first.
  lemma LoopOutcomes(w: bool, h: nat, i: nat, th': Thread)
    ensures Follows(Io(w, h, i, Loop), th') <==>
            th' in {Io(w, h, i, Loop), Io(w, h, i, WantBlocks), Io(w, h, i, OutFile), Io(w, h, i, FailInode)}
    ensures Follows(Io(w, h, i, FailInode), th') <==> th' == Io(w, h, i, FailFile)
  {}

  // Only a write survives a bad handle; without an inode a write gives back the inode table
  // first, a read the handle.
  lemma EarlyOutcomes(w: bool, h: nat, i: nat)
    ensures Follows(Io(w, h, i, HaveTable), Io(w, h, i, HaveFile))
    ensures Follows(Io(w, h, i, HaveTable), Io(w, h, i, BadHandle)) <==> w
    ensures Follows(Io(w, h, i, HaveInodes), Io(w, h, i, WantInode)) && Follows(Io(w, h, i, HaveInodes), Io(w, h, i, NoInode))
    ensures Follows(Io(w, h, i, NoInode), Io(w, h, i, NoInodeFile)) <==> w
    ensures Follows(Io(w, h, i, NoInode), Io(w, h, i, NoInodeTable)) <==> !w
  {}

  // An open goes through the entries of the open-file table one after the other, and may end at each.
  lemma ScanOutcomes(name: string, creat: bool, k: nat, th': Thread)
    ensures Follows(Open(name, creat, OpenScan(k)), th') <==> th' == Open(name, creat, OpenTry(k))
    ensures Follows(Open(name, creat, OpenTry(k)), th') <==>
            th' == Finished || (k + 1 < MAX_OPEN_FILES && th' == Open(name, creat, OpenScan(k + 1)))
  {}
}
