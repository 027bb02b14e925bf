/**
 * One thread per request (ehs.cpp): every request that was queued has a thread of its own that has still to
 * look for it, over every feasible run.
 */
module DispatchThreads {
  import opened EhsConnectionState
  import opened Lists
  import opened Dispatch
  import opened DispatchAccounting
  import opened DispatchPending
  import opened DispatchLocks

  // ----- one thread for each

  /** A thread is between queueing a request and creating the next one. */
  ghost predicate SomeoneRenews(s: Server) { exists t :: t in s.threads && s.threads[t].Renewing? }

  lemma RenewerMoves(s: Server, t: Tid, step: Step)
    requires LockInv(s) && Enabled(s, t, step)
    ensures SomeoneRenews(s) ==> step.Renew? || SomeoneRenews(Apply(s, t, step))
    ensures step.Announce? ==> SomeoneRenews(Apply(s, t, step)) && !SomeoneRenews(s)
  {
    assert TokenInv(s);
    hide Apply, Enabled, NextPc, LockInv;
    StepMovesOne(s, t, step);
    StepParts(s, t, step);
    if step.Exit? {
      ExitIsIdle(s, t);
    } else {
      PositionHandsOver(s, t, step);
    }
    if u :| u in s.threads && s.threads[u].Renewing? {
      if u != t {
        assert u in Apply(s, t, step).threads;
      }
    }
  }

  /**
   * In one-thread-per-request mode as many threads have been created as requests were queued, or one less, and
   * then the thread that has queued the last one has not gone on.
   */
  lemma {:induction false} OneThreadEach(acceptor: Tid, run: seq<Move>)
    requires Feasible(ThreadPerRequest(acceptor), run)
    ensures 0 <= Owed(acceptor, run) <= 1
    ensures Owed(acceptor, run) == 1 ==> SomeoneRenews(After(START, run))
    decreases |run|
  {
    if run != [] {
      var n := |run| - 1;
      OneThreadEach(acceptor, run[..n]);
      EveryRun(run[..n]);
      InvLocks(After(START, run[..n]));
      RenewerMoves(After(START, run[..n]), run[n].t, run[n].step);
    }
    hide Apply, Enabled, Inv, LockInv, SomeoneRenews, Blocked;
  }

  /** Threads created for a request that have not yet looked for one. */
  function FreshThreads(acceptor: Tid, run: seq<Move>): set<Tid>
    requires Possible(START, run)
  {
    var s := After(START, run);
    set t | t in s.threads && t != acceptor && Fresh(run, t)
  }

  /** A thread is looking for a request. */
  predicate Scanning(s: Server) {
    s.mutex.Some? && s.mutex.value in s.threads && s.threads[s.mutex.value].Scan?
  }

  /** The positions the circular walk has still to come by. */
  predicate Unvisited(p: Pc, j: nat)
    requires p.Scan?
  {
    p.first || (p.i > p.start && (j >= p.i || j < p.start)) || (p.i < p.start && p.i <= j < p.start)
  }

  /** A walk starts where it is to end. */
  predicate FirstIsStart(s: Server) {
    Scanning(s) ==> var p := s.threads[s.mutex.value]; p.first ==> p.i == p.start
  }

  /** All that the scanning thread has still to look at is empty. */
  predicate NothingAhead(s: Server)
    requires Scanning(s) && ListMatchesData(s)
  {
    forall j | 0 <= j < |s.conns| :: Unvisited(s.threads[s.mutex.value], j) ==> s.data[s.conns[j]].queue == []
  }

  /** Requests for which there is a thread, or soon will be. */
  function Provided(acceptor: Tid, run: seq<Move>): int
    requires Possible(START, run)
  {
    |FreshThreads(acceptor, run)| + Owed(acceptor, run) + Count(After(START, run).threads, Announces)
  }

  /**
   * There are at least as many threads as requests, counting the one that is looking for a request; and
   * without it, if it is not going to find one.
   */
  ghost predicate Served(acceptor: Tid, run: seq<Move>)
    requires Possible(START, run)
  {
    var s := After(START, run);
    && ListMatchesData(s) && FirstIsStart(s)
    && Total(s) <= Provided(acceptor, run) + One(Scanning(s))
    && (Scanning(s) && NothingAhead(s) ==> Total(s) <= Provided(acceptor, run))
  }

  // ----- the parts of one step

  lemma {:induction false} FreshAreIdle(run: seq<Move>, t: Tid)
    requires Possible(START, run) && t in After(START, run).threads && Fresh(run, t)
    ensures After(START, run).threads[t].Idle?
    decreases |run|
  {
    var n := |run| - 1;
    var s, m := After(START, run[..n]), run[n];
    StepParts(s, m.t, m.step);
    StepMovesOne(s, m.t, m.step);
    if m.t != t {
      FreshAreIdle(run[..n], t);
    }
    hide Apply, Enabled;
  }

  /** The last step of a run is taken by a thread that looks for a request created for it. */
  predicate LooksOnce(acceptor: Tid, m: Move) { m.t != acceptor && (m.step.Lock? || m.step.LockSkip?) }

  lemma IdleSteps(s: Server, t: Tid, step: Step)
    requires Enabled(s, t, step)
    ensures step.Lock? || step.LockSkip? || step.Exit? ==> t in s.threads
    ensures t in s.threads && s.threads[t].Idle? ==> step.Lock? || step.LockSkip? || step.Exit?
    ensures step.Spawn? ==> t !in s.threads
  {
    hide Exists, Under;
  }

  lemma FreshStep(acceptor: Tid, run: seq<Move>)
    requires Feasible(ThreadPerRequest(acceptor), run) && run != []
    ensures var n := |run| - 1;
            |FreshThreads(acceptor, run)| == |FreshThreads(acceptor, run[..n])|
              + One(run[n].step.Spawn? && run[n].t != acceptor) - One(LooksOnce(acceptor, run[n]))
  {
    var n := |run| - 1;
    var s, m := After(START, run[..n]), run[n];
    var before, after := FreshThreads(acceptor, run[..n]), FreshThreads(acceptor, run);
    StepParts(s, m.t, m.step);
    StepMovesOne(s, m.t, m.step);
    IdleSteps(s, m.t, m.step);
    if m.t in s.threads && Fresh(run[..n], m.t) {
      FreshAreIdle(run[..n], m.t);
    }
    hide Apply, Enabled, Blocked, Owed;
    assert after - {m.t} == before - {m.t};
    SwapOne(before, after, m.t);
  }

  lemma ProvidedStep(acceptor: Tid, run: seq<Move>)
    requires Feasible(ThreadPerRequest(acceptor), run) && run != []
    ensures var n := |run| - 1;
            Provided(acceptor, run)
            == Provided(acceptor, run[..n]) + One(run[n].step.Complete?) - One(LooksOnce(acceptor, run[n]))
  {
    var n := |run| - 1;
    var s, m := After(START, run[..n]), run[n];
    FreshStep(acceptor, run);
    CountStep(s, m.t, m.step, Announces);
    PendingEffect(s, m.t, m.step);
    hide Apply, Enabled, Blocked, FreshThreads, IsAt, Allowed;
  }

  lemma TotalStep(s: Server, t: Tid, step: Step)
    requires LockInv(s) && Enabled(s, t, step)
    ensures ListMatchesData(s) && ListMatchesData(Apply(s, t, step))
    ensures Total(Apply(s, t, step)) - Total(s) <= One(step.Complete?) - One(TakesOne(s, t, step))
  {
    ListMatches(s);
    ListStep(s, t, step);
    if step.RemoveOne? {
      RemovalShrinks(s, t);
    } else {
      QueuedEffect(s, t, step);
    }
    hide Apply, Enabled, Total, LockInv, ListMatchesData, TakesOne;
  }

  lemma RemovalShrinks(s: Server, t: Tid)
    requires LockInv(s) && Enabled(s, t, RemoveOne)
    ensures ListMatchesData(Apply(s, t, RemoveOne)) && Total(Apply(s, t, RemoveOne)) <= Total(s)
  {
    RemoveKeepsList(s, t);
    RemoveEffect(s, t);
    var i := At(s, t).i;
    hide Apply, Enabled, Without;
    TotalWithout(s.conns, s.data, i);
  }

  lemma {:induction false} EmptyTotal(conns: seq<ConnId>, data: map<ConnId, Conn>)
    requires forall c | c in conns :: c in data && data[c].queue == []
    ensures TotalQueued(conns, data) == 0
  {
    if conns != [] {
      EmptyTotal(conns[1..], data);
    }
  }

  lemma ScanningSteps(s: Server, t: Tid, step: Step)
    requires LockInv(s) && Enabled(s, t, step)
    ensures s.mutex == Some(t) && t in s.threads && s.threads[t].Scan? ==> step.ScanOne? || step.ScanEnd?
    ensures step.ScanOne? || step.ScanEnd? ==> s.mutex == Some(t) && t in s.threads && s.threads[t].Scan?
    ensures step.Lock? ==> s.mutex.None?
  {
    hide Exists, Under;
  }

  lemma PositionScans(s: Server, t: Tid, step: Step)
    requires Enabled(s, t, step) && !step.Exit?
    ensures NextPc(s, t, step).Scan? <==> step.Lock? || (step.ScanOne? && !TakesOne(s, t, step))
    ensures TakesOne(s, t, step) ==> step.ScanOne?
    ensures step.Lock? ==> Locks(step)
    ensures step.ScanOne? || step.ScanEnd? ==> !Locks(step) && !Unlocks(step)
  {
    hide Under, CheckDone;
  }

  lemma ScanningStep(s: Server, t: Tid, step: Step)
    requires LockInv(s) && Enabled(s, t, step)
    ensures var r := Apply(s, t, step);
            && (Scanning(r) <==> step.Lock? || (Scanning(s) && !TakesOne(s, t, step) && !step.ScanEnd?))
            && (Scanning(r) && !step.Lock? ==> r.mutex == s.mutex)
            && (Scanning(r) && s.mutex != Some(t) && !step.Lock? ==>
                  r.threads[r.mutex.value] == s.threads[r.mutex.value])
            && (TakesOne(s, t, step) ==> Scanning(s)) && (step.Lock? ==> !Scanning(s))
  {
    assert LocksOk(s, t);
    hide Apply, Enabled, NextPc, LockInv, Under, TakesOne, Locks, Unlocks, HoldsMutex, InSection, LocksOk;
    StepMovesOne(s, t, step);
    StepParts(s, t, step);
    StepLocks(s, t, step);
    ScanningSteps(s, t, step);
    if step.Exit? {
      ExitIsIdle(s, t);
      NobodyTakes(s, t);
    } else {
      PositionScans(s, t, step);
    }
  }

  lemma NobodyTakes(s: Server, t: Tid)
    ensures !TakesOne(s, t, Exit)
  {}

  // ----- the walk

  /** A connection without a request is passed by. */
  lemma ScanPasses(s: Server, t: Tid)
    requires LockInv(s) && Enabled(s, t, ScanOne) && !TakesOne(s, t, ScanOne)
    ensures var r, p := Apply(s, t, ScanOne), s.threads[t];
            && r.conns == s.conns && r.data == s.data && r.mutex == s.mutex && s.mutex == Some(t)
            && p.i < |s.conns| && s.data[s.conns[p.i]].queue == []
            && r.threads[t] == Scan(p.start, if p.i + 1 >= |s.conns| then 0 else p.i + 1, false)
            && p.start < |s.conns|
  {
    CounterEffect(s, t, ScanOne);
    assert s.data[Under(s, t) := s.data[Under(s, t)]] == s.data;
  }

  /** Only the position passed by is no longer ahead. */
  lemma PassedOne(p: Pc, n: nat, j: nat)
    requires p.Scan? && p.i < n && p.start < n && j < n && (p.first ==> p.i == p.start)
    ensures Unvisited(p, j) ==> j == p.i || Unvisited(Scan(p.start, if p.i + 1 >= n then 0 else p.i + 1, false), j)
  {}

  /** No other step empties a queue. */
  lemma QueuesGrow(s: Server, t: Tid, step: Step, c: ConnId)
    requires LockInv(s) && Enabled(s, t, step) && !TakesOne(s, t, step)
    requires c in s.data && c in Apply(s, t, step).data
    ensures Apply(s, t, step).data[c].queue == [] ==> s.data[c].queue == []
  {
    hide Apply, Enabled, Under, TakesOne, Operated, LockInv;
    if ChangesCounters(step) {
      OperatesOnExisting(s, t, step);
      CounterEffect(s, t, step);
      TakesAsScanned(s, t, step);
      OperatedQueue(step, s.data[Under(s, t)]);
    } else {
      ListStepsKeep(s, t, step, c);
    }
  }

  lemma OwnPass(s: Server, t: Tid)
    requires LockInv(s) && Enabled(s, t, ScanOne) && !TakesOne(s, t, ScanOne) && Scanning(s) && FirstIsStart(s)
    requires ListMatchesData(s) && ListMatchesData(Apply(s, t, ScanOne)) && Scanning(Apply(s, t, ScanOne))
    ensures NothingAhead(Apply(s, t, ScanOne)) ==> NothingAhead(s)
    ensures FirstIsStart(Apply(s, t, ScanOne))
  {
    ScanPasses(s, t);
    hide Apply, Enabled, TakesOne, LockInv, ListMatchesData, Unvisited;
    var p, r := s.threads[t], Apply(s, t, ScanOne);
    if NothingAhead(r) {
      forall j | 0 <= j < |s.conns| && Unvisited(p, j) ensures s.data[s.conns[j]].queue == [] {
        PassedOne(p, |s.conns|, j);
      }
    }
  }

  lemma OtherPass(s: Server, t: Tid, step: Step)
    requires LockInv(s) && Enabled(s, t, step) && Scanning(s) && s.mutex != Some(t) && FirstIsStart(s)
    requires !TakesOne(s, t, step) && !step.Lock?
    requires ListMatchesData(s) && ListMatchesData(Apply(s, t, step)) && Scanning(Apply(s, t, step))
    ensures NothingAhead(Apply(s, t, step)) ==> NothingAhead(s)
    ensures FirstIsStart(Apply(s, t, step))
  {
    ScanningStep(s, t, step);
    WalksAreStable(s, t, step, s.mutex.value);
    hide Apply, Enabled, TakesOne, LockInv, Unvisited;
    var p, r := s.threads[s.mutex.value], Apply(s, t, step);
    if NothingAhead(r) {
      forall j | 0 <= j < |s.conns| && Unvisited(p, j) ensures s.data[s.conns[j]].queue == [] {
        assert r.data[r.conns[j]].queue == [];
        QueuesGrow(s, t, step, s.conns[j]);
      }
    }
  }

  // ----- over a step

  lemma StartOfScan(s: Server, t: Tid, from: nat)
    requires LockInv(s) && Enabled(s, t, Lock(from)) && ListMatchesData(Apply(s, t, Lock(from)))
    ensures var r := Apply(s, t, Lock(from));
            && Scanning(r) && FirstIsStart(r) && (NothingAhead(r) ==> Total(r) == 0)
  {
    var r := Apply(s, t, Lock(from));
    if NothingAhead(r) {
      forall c | c in r.conns ensures r.data[c].queue == [] {
        var j :| 0 <= j < |r.conns| && r.conns[j] == c;
        assert Unvisited(r.threads[t], j);
      }
      EmptyTotal(r.conns, r.data);
    }
  }

  lemma EndOfScan(s: Server, t: Tid)
    requires LockInv(s) && Enabled(s, t, ScanEnd)
    ensures Scanning(s) && NothingAhead(s)
  {}

  lemma SkipMeansEmpty(s: Server)
    requires ListMatchesData(s) && s.conns == []
    ensures Total(s) == 0
  {}

  lemma ServedStep(acceptor: Tid, run: seq<Move>)
    requires Feasible(ThreadPerRequest(acceptor), run) && run != [] && Served(acceptor, run[..|run| - 1])
    requires Inv(After(START, run[..|run| - 1]))
    ensures Served(acceptor, run)
  {
    var n := |run| - 1;
    var s, m, r := After(START, run[..n]), run[n], After(START, run);
    ProvidedStep(acceptor, run);
    OneThreadEach(acceptor, run);
    InvLocks(s);
    TotalStep(s, m.t, m.step);
    ScanningStep(s, m.t, m.step);
    ScanningSteps(s, m.t, m.step);
    LooksAreLocks(m, acceptor);
    assert Provided(acceptor, run) >= 0;
    assert m.step.LockSkip? && m.t != acceptor ==> s.conns == [];
    assert m.step.Lock? ==> m.t != acceptor;
    hide Apply, Enabled, Blocked, Allowed, Feasible, Total, Scanning, NothingAhead, FirstIsStart, LockInv, Inv,
      ListMatchesData, TakesOne, Provided;
    if m.step.Lock? {
      StartOfScan(s, m.t, m.step.from);
    } else if m.step.ScanEnd? {
      EndOfScan(s, m.t);
      NotScanning(r);
    } else if m.step.LockSkip? && m.t != acceptor {
      SkipMeansEmpty(s);
      SkipFindsNobody(s, m.t);
      NotScanning(r);
    } else if !Scanning(r) {
      NotScanning(r);
    } else if s.mutex == Some(m.t) {
      OwnPass(s, m.t);
    } else {
      OtherPass(s, m.t, m.step);
    }
  }

  lemma LooksAreLocks(m: Move, acceptor: Tid)
    ensures LooksOnce(acceptor, m) <==> m.t != acceptor && (m.step.Lock? || m.step.LockSkip?)
  {}

  lemma NotScanning(s: Server)
    requires !Scanning(s)
    ensures FirstIsStart(s)
  {}

  lemma SkipFindsNobody(s: Server, t: Tid)
    requires Enabled(s, t, LockSkip)
    ensures !Scanning(s) && !TakesOne(s, t, LockSkip)
  {}

  /**
   * One thread per request, over every run: at every moment there are at least as many threads that have
   * still to look for a request, or are looking, or are about to be created, as there are requests in queues.
   */
  lemma {:induction false} EveryRequestIsServed(acceptor: Tid, run: seq<Move>)
    requires Feasible(ThreadPerRequest(acceptor), run)
    ensures Served(acceptor, run)
    decreases |run|
  {
    if run == [] {
      assert Where(START.threads, Announces) == {} && FreshThreads(acceptor, run) == {};
    } else {
      var n := |run| - 1;
      EveryRequestIsServed(acceptor, run[..n]);
      EveryRun(run[..n]);
      ServedStep(acceptor, run);
    }
    hide Apply, Enabled, Blocked, Allowed, Inv;
  }

  /**
   * Hence no request is left behind: when nobody is looking for a request or in the middle of queueing one, each
   * queued request has a thread of its own that was created for one and has not yet looked.
   */
  lemma NoneLeftBehind(acceptor: Tid, run: seq<Move>)
    requires Feasible(ThreadPerRequest(acceptor), run)
    requires var s := After(START, run);
             !Scanning(s) && !SomeoneRenews(s) && forall t | t in s.threads :: !Is(s.threads[t], Announces)
    ensures ListMatchesData(After(START, run))
    ensures Total(After(START, run)) <= |FreshThreads(acceptor, run)|
  {
    EveryRequestIsServed(acceptor, run);
    OneThreadEach(acceptor, run);
    assert Where(After(START, run).threads, Announces) == {};
    hide Feasible, Total, SomeoneRenews;
  }
}
