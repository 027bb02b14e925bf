/**
 * The mutex of each connection next to the mutex of the server (ehs.cpp): who holds it, who waits for whom,
 * and which runs of `Dispatch` a running server can take in each of its two threaded modes.
 *
 * `Dispatch` lets any thread take any enabled step, whoever is inside `AddBuffer`, so its invariants hold for
 * more interleavings than there are. A feasible run has no others.
 */
module DispatchLocks {
  import opened EhsConnectionState
  import opened Lists
  import opened Dispatch
  import opened DispatchAccounting

  /** A pool of threads that all do the same, or one thread that accepts and one more for every request. */
  datatype Mode = ThreadPool | ThreadPerRequest(acceptor: Tid)

  // ----- the mutex of a connection

  /** `AddBuffer` holds it throughout, but for the creation of a thread in one of the two modes. */
  predicate HoldsConnection(mode: Mode, p: Pc) {
    p.Parsing? || p.Announcing? || p.Storing? || (p.Renewing? && mode.ThreadPool?)
  }

  /** Thread `t` holds the mutex of connection `c`. */
  predicate Owns(mode: Mode, s: Server, t: Tid, c: ConnId) {
    && t in s.threads && HoldsConnection(mode, s.threads[t])
    && s.threads[t].i < |s.conns| && s.conns[s.threads[t].i] == c
  }

  /** Steps that lock the mutex of the connection under the thread, to hold it or for their own duration. */
  predicate LocksConnection(step: Step) {
    step.ScanOne? || step.Respond? || step.Finish? || step.ReadData? || step.Renew? || step.Reply?
  }

  /** The step has to wait: another thread holds the mutex it locks. */
  predicate Blocked(mode: Mode, s: Server, t: Tid, step: Step) {
    && t in s.threads && LocksConnection(step)
    && exists u | u in s.threads :: u != t && Owns(mode, s, u, Under(s, t))
  }

  lemma OwnersAreInSection(mode: Mode, s: Server, t: Tid, c: ConnId)
    requires LockInv(s) && Owns(mode, s, t, c)
    ensures InSection(s.threads[t]) && !HoldsMutex(s.threads[t]) && c in s.data && Under(s, t) == c
  {}

  /** What a step does to a connection under the iterator of a thread in the section, or does not. */
  lemma SectionSteps(s: Server, t: Tid, step: Step)
    requires Enabled(s, t, step)
    ensures step.ReadEnd? || step.FirstRequest? || step.Complete? || step.Renew? || step.Reply? || step.ClearOne?
            ==> t in s.threads && InSection(s.threads[t])
  {}

  /**
   * The mutex does its work: while a thread is inside `AddBuffer`, no step that another thread can take
   * changes the connection (but for the count of requests given up, which the source does not keep) or takes
   * the mutex away.
   */
  lemma OwnedStays(mode: Mode, s: Server, t: Tid, step: Step, u: Tid, c: ConnId)
    requires LockInv(s) && Enabled(s, t, step) && !Blocked(mode, s, t, step)
    requires Owns(mode, s, u, c) && u != t
    ensures var r := Apply(s, t, step);
            && Owns(mode, r, u, c) && c in s.data && c in r.data
            && r.data[c] == s.data[c].(abandoned := r.data[c].abandoned)
  {
    OwnersAreInSection(mode, s, u, c);
    StepMovesOne(s, t, step);
    WalksAreStable(s, t, step, u);
    SectionSteps(s, t, step);
    var r := Apply(s, t, step);
    assert LockInv(s) ==> TokenInv(s);
    hide Apply, Enabled, LockInv, Under;
    if ChangesCounters(step) {
      CounterEffect(s, t, step);
      if Under(s, t) == c {
        assert step.RouteFails?;
      }
    } else {
      ListStepsKeep(s, t, step, c);
    }
  }

  lemma ListStepsKeep(s: Server, t: Tid, step: Step, c: ConnId)
    requires LockInv(s) && Enabled(s, t, step) && !ChangesCounters(step)
    requires c in s.data && c in Apply(s, t, step).data
    ensures Apply(s, t, step).data[c] == s.data[c]
  {
    if step.Insert? {
      InsertEffect(s, t);
    } else if step.RemoveOne? {
      RemoveEffect(s, t);
    } else {
      OtherEffect(s, t, step);
    }
    hide Apply, Enabled, Under;
  }

  // ----- runs of a running server

  /** How many threads are still to be created for requests that were queued, in one-thread-per-request mode. */
  function Owed(acceptor: Tid, run: seq<Move>): int
    decreases |run|
  {
    if run == [] then 0 else Owed(acceptor, run[..|run| - 1]) + OwedBy(acceptor, run[|run| - 1])
  }

  function OwedBy(acceptor: Tid, m: Move): int {
    if m.step.Announce? then 1 else if m.step.Spawn? && m.t != acceptor then -1 else 0
  }

  /** The thread has been created and has not moved since. */
  predicate Fresh(run: seq<Move>, t: Tid)
    decreases |run|
  {
    run != [] &&
    var n := |run| - 1;
    if run[n].t == t then run[n].step.Spawn? else Fresh(run[..n], t)
  }

  /**
   * What the mode allows, apart from the locks. In a pool all threads look for requests, for good. Otherwise
   * one thread accepts and never looks for requests, and any other is created for one request, by the thread
   * that has queued it and before that thread goes on, and looks for a request once.
   */
  predicate Allowed(mode: Mode, run: seq<Move>, m: Move)
    requires Possible(START, run)
  {
    var s := After(START, run);
    match mode
    case ThreadPool => (m.step.LockSkip? ==> s.conns == []) && !m.step.Exit?
    case ThreadPerRequest(acceptor) =>
      && (m.step.Lock? ==> m.t != acceptor && Fresh(run, m.t))
      && (m.step.LockSkip? ==> m.t == acceptor || (s.conns == [] && Fresh(run, m.t)))
      && (m.step.Spawn? ==> m.t == acceptor || Owed(acceptor, run) > 0)
      && (m.step.Renew? ==> Owed(acceptor, run) == 0)
      && (m.step.Exit? ==> m.t != acceptor && !Fresh(run, m.t))
  }

  /** A run in which every thread gets the mutexes it locks and does what the mode lets it do. */
  predicate Feasible(mode: Mode, run: seq<Move>)
    decreases |run|
  {
    && Possible(START, run)
    && (run != [] ==>
          var n := |run| - 1;
          && Feasible(mode, run[..n])
          && !Blocked(mode, After(START, run[..n]), run[n].t, run[n].step)
          && Allowed(mode, run[..n], run[n]))
  }

  lemma FeasibleSnoc(mode: Mode, run: seq<Move>, m: Move)
    requires Feasible(mode, run) && Enabled(After(START, run), m.t, m.step)
    requires !Blocked(mode, After(START, run), m.t, m.step) && Allowed(mode, run, m)
    ensures Possible(START, run + [m]) && Feasible(mode, run + [m])
    ensures After(START, run + [m]) == Apply(After(START, run), m.t, m.step)
  {
    hide Enabled, Apply, Blocked, Allowed;
    assert (run + [m])[..|run|] == run;
  }

  // ----- who waits for whom

  /** Where a thread goes on only with the mutex of the server. */
  predicate WantsServer(p: Pc) { p.Idle? || p.Waiting? || p.Accepting? || p.Clear? }

  /** Where it goes on only with the mutex of the connection it is at. */
  predicate WantsConnection(p: Pc) {
    p.Scan? || p.Sending? || p.Finishing? || p.Reading? || p.Renewing? || p.Replying?
  }

  predicate WaitsFor(mode: Mode, s: Server, t: Tid, u: Tid) {
    && t in s.threads && t != u
    && ((WantsServer(s.threads[t]) && s.mutex == Some(u))
        || (WantsConnection(s.threads[t]) && Owns(mode, s, u, Under(s, t))))
  }

  /** There is no other wait: a step that only a mutex prevents is taken by a thread that waits for its holder. */
  lemma EveryWaitIsSeen(mode: Mode, s: Server, t: Tid, step: Step)
    requires LockInv(s) && t in s.threads && Enabled(s.(mutex := None), t, step)
    requires !Enabled(s, t, step) || Blocked(mode, s, t, step)
    ensures exists u :: WaitsFor(mode, s, t, u)
  {
    hide Exists, Owns, ListMatchesData, IteratorsInv, FreshInv, TokenInv, Under;
    LockSteps(s, t, step);
    if Enabled(s, t, step) {
      var u :| u in s.threads && u != t && Owns(mode, s, u, Under(s, t));
      assert WaitsFor(mode, s, t, u);
    } else {
      assert WaitsFor(mode, s, t, s.mutex.value);
    }
  }

  lemma LockSteps(s: Server, t: Tid, step: Step)
    requires t in s.threads && Enabled(s.(mutex := None), t, step)
    ensures !Enabled(s, t, step) ==> s.mutex.Some? && WantsServer(s.threads[t]) && !HoldsMutex(s.threads[t])
    ensures LocksConnection(step) ==> WantsConnection(s.threads[t])
  {
    hide Under, Exists;
    SameExists(s, t);
  }

  lemma SameExists(s: Server, t: Tid)
    requires t in s.threads
    ensures Exists(s, t) == Exists(s.(mutex := None), t) && Under(s, t) == Under(s.(mutex := None), t)
  {}

  /** Whoever holds the mutex of a connection waits for nobody: it never locks the server or a second connection. */
  lemma OwnersWaitForNobody(mode: Mode, s: Server, u: Tid, c: ConnId, w: Tid)
    requires LockInv(s) && Owns(mode, s, u, c)
    ensures !WaitsFor(mode, s, u, w)
  {}

  /**
   * The lock order is server before connection, and no longer: a chain of waits has at most two links, and
   * the middle of two is a scan for requests with the mutex of the server.
   */
  lemma WaitsEnd(mode: Mode, s: Server, t: Tid, u: Tid, v: Tid, w: Tid)
    requires LockInv(s) && WaitsFor(mode, s, t, u) && WaitsFor(mode, s, u, v)
    ensures s.mutex == Some(u) && s.threads[u].Scan? && Owns(mode, s, v, Under(s, u))
    ensures !WaitsFor(mode, s, v, w)
  {
    if Owns(mode, s, u, Under(s, t)) {
      OwnersWaitForNobody(mode, s, u, Under(s, t), v);
    }
    OwnersWaitForNobody(mode, s, v, Under(s, u), w);
  }

  /** The next step of a thread that holds a mutex, if it has the other locks it needs. */
  function StepOfHolder(s: Server, u: Tid): Step
    requires u in s.threads
  {
    match s.threads[u]
    case Parsing(_) => if Exists(s, u) && s.data[Under(s, u)].requests == 0 then FirstRequest else ParseEnd
    case Announcing(_) => Load
    case Storing(_, _) => Announce
    case Renewing(_) => Renew
    case Scan(start, i, first) => if first || i != start then ScanOne else ScanEnd
    case Took(_) => LoadTaken
    case Taking(_, _) => CountTaken
    case NoRequest => if s.accepting then Sleep else TakeToken
    case Inserting(_) => Insert
    case Clearing(i) => if i < |s.conns| then ClearOne(false) else ClearAll
    case _ => if s.threads[u].Removing? && s.threads[u].i < |s.conns| then RemoveOne else RemoveAll
  }

  lemma ServerHolderGoesOn(mode: Mode, s: Server, u: Tid)
    requires LockInv(s) && u in s.threads && HoldsMutex(s.threads[u])
    requires forall v | v in s.threads :: !WaitsFor(mode, s, u, v)
    ensures Enabled(s, u, StepOfHolder(s, u)) && !Blocked(mode, s, u, StepOfHolder(s, u))
  {
    assert IteratorOk(s.threads[u], |s.conns|) && ListMatchesData(s);
    hide LockInv, Owns, MutexInv, TokenInv, IteratorsInv, FreshInv, CheckDone;
  }

  lemma ConnectionHolderGoesOn(mode: Mode, s: Server, u: Tid)
    requires LockInv(s) && u in s.threads && HoldsConnection(mode, s.threads[u])
    requires forall v | v in s.threads :: !WaitsFor(mode, s, u, v)
    ensures Enabled(s, u, StepOfHolder(s, u)) && !Blocked(mode, s, u, StepOfHolder(s, u))
  {
    assert IteratorOk(s.threads[u], |s.conns|) && ListMatchesData(s);
    hide LockInv, Owns, MutexInv, TokenInv, IteratorsInv, FreshInv, CheckDone, HoldsMutex;
  }

  lemma StepOfHolderIs(mode: Mode, s: Server, u: Tid)
    requires u in s.threads && (HoldsMutex(s.threads[u]) || HoldsConnection(mode, s.threads[u]))
    ensures var step := StepOfHolder(s, u);
            && !step.Spawn? && !step.Exit? && !step.Lock? && !step.LockSkip?
            && (step.Renew? ==> mode.ThreadPool?)
  {
    hide Exists, Under;
  }

  lemma HoldersAreAllowed(mode: Mode, run: seq<Move>, u: Tid)
    requires Possible(START, run) && u in After(START, run).threads
    requires HoldsMutex(After(START, run).threads[u]) || HoldsConnection(mode, After(START, run).threads[u])
    ensures Allowed(mode, run, Move(u, StepOfHolder(After(START, run), u)))
  {
    hide StepOfHolder, HoldsMutex, HoldsConnection, After, Possible, Owed, Fresh;
    StepOfHolderIs(mode, After(START, run), u);
  }

  /**
   * No deadlock between the mutexes: after every feasible run, whenever a thread waits for another, that one,
   * or the one it waits for in turn, has a next step and the run goes on with it.
   */
  lemma NoDeadlock(mode: Mode, run: seq<Move>, t: Tid, u: Tid) returns (w: Tid, step: Step)
    requires Feasible(mode, run) && WaitsFor(mode, After(START, run), t, u)
    ensures w == u || WaitsFor(mode, After(START, run), u, w)
    ensures Feasible(mode, run + [Move(w, step)])
  {
    EveryRun(run);
    var s := After(START, run);
    assert LockInv(s);
    if v :| v in s.threads && WaitsFor(mode, s, u, v) {
      w := v;
      forall x | x in s.threads ensures !WaitsFor(mode, s, w, x) {
        WaitsEnd(mode, s, t, u, v, x);
      }
      WaitsEnd(mode, s, t, u, v, v);
    } else {
      w := u;
    }
    WaitedForHolds(mode, s, t, u);
    hide Enabled, Blocked, Allowed, LockInv, WaitsFor, Feasible;
    step := StepOfHolder(s, w);
    if HoldsMutex(s.threads[w]) {
      ServerHolderGoesOn(mode, s, w);
    } else {
      ConnectionHolderGoesOn(mode, s, w);
    }
    HoldersAreAllowed(mode, run, w);
    FeasibleSnoc(mode, run, Move(w, step));
  }

  lemma WaitedForHolds(mode: Mode, s: Server, t: Tid, u: Tid)
    requires LockInv(s) && WaitsFor(mode, s, t, u)
    ensures u in s.threads && (HoldsMutex(s.threads[u]) || HoldsConnection(mode, s.threads[u]))
  {}
}
