/**
 * Runs of the dispatch protocol, step by step, in which something goes wrong. Each of them is feasible: every
 * thread gets the mutexes it locks, and does what the mode of the server lets it do.
 */
module DispatchRuns {
  import opened EhsConnectionState
  import opened Lists
  import opened Dispatch
  import opened DispatchAccounting
  import opened DispatchLifetime
  import opened DispatchPending
  import opened DispatchLocks

  // Thread 0 accepts and reads, thread 1 serves, and 7 is the only connection.

  function Alone(p: Pc, mutex: Option<Tid>, accepting: bool): Server {
    Server([], map[], map[], map[0 := p], mutex, accepting, 0)
  }

  function OneThread(p: Pc, d: Conn, mutex: Option<Tid>, pending: int): Server {
    Server([7], map[7 := d], map[], map[0 := p], mutex, true, pending)
  }

  function TwoThreads(p: Pc, q: Pc, d: Conn, mutex: Option<Tid>, pending: int): Server {
    Server([7], map[7 := d], map[], map[0 := p, 1 := q], mutex, true, pending)
  }

  /** With one thread per request, thread 0 is the one that accepts. */
  predicate Accepts(mode: Mode) { mode.ThreadPerRequest? ==> mode.acceptor == 0 }

  /** The state `s` is reached by the feasible `run`, and `owed` threads are then to be created. */
  predicate Reaches(mode: Mode, run: seq<Move>, s: Server, owed: int) {
    Feasible(mode, run) && After(START, run) == s && Owed(0, run) == owed
  }

  /** The mode lets the thread take the step. */
  predicate Permitted(mode: Mode, run: seq<Move>, s: Server, owed: int, t: Tid, step: Step) {
    && (step.LockSkip? ==> s.conns == []) && !step.Exit?
    && match mode
       case ThreadPool => true
       case ThreadPerRequest(acceptor) =>
         && acceptor == 0
         && (step.Lock? ==> t != 0 && Fresh(run, t))
         && (step.LockSkip? ==> t == 0)
         && (step.Spawn? ==> t == 0 || owed > 0)
         && (step.Renew? ==> owed == 0)
  }

  lemma Extend(mode: Mode, run: seq<Move>, s: Server, owed: int, t: Tid, step: Step, r: Server)
    returns (longer: seq<Move>)
    requires Reaches(mode, run, s, owed) && Enabled(s, t, step) && Apply(s, t, step) == r
    requires !Blocked(mode, s, t, step) && Permitted(mode, run, s, owed, t, step)
    ensures longer == run + [Move(t, step)]
    ensures Reaches(mode, longer, r, owed + OwedBy(0, Move(t, step)))
  {
    hide Enabled, Apply, Blocked, OwedBy;
    longer := run + [Move(t, step)];
    FeasibleSnoc(mode, run, Move(t, step));
    assert longer[..|run|] == run;
  }

  const FIRST: Conn := NEW.(requests := 1)
  const QUEUED: Conn := NEW.(requests := 1, queue := [1], handedOver := true)
  const RENEWED: Conn := NEW.(requests := 2, queue := [1])

  function MutexAfter(m: Option<Tid>, t: Tid, step: Step): Option<Tid> {
    if Locks(step) then Some(t) else if Unlocks(step) then None else m
  }

  function NumberAfter(p: Pc, n: int, step: Step): int {
    if step.Announce? && p.Storing? then p.loaded + 1
    else if step.CountTaken? && p.Taking? then p.loaded - 1 else n
  }

  /** Steps within the list, the section and the pool of threads. */
  predicate Inner(step: Step) {
    && !step.Spawn? && !step.Exit? && !step.Insert? && !step.RemoveOne? && !step.TakeToken? && !step.RemoveAll?
  }

  function ConnAfter(d: Conn, step: Step): Conn { if ChangesCounters(step) then Operated(step, d) else d }

  /** The state after an inner step, field by field. */
  lemma InnerParts(s: Server, t: Tid, step: Step)
    requires Enabled(s, t, step) && Inner(step) && s.data.Keys == {7}
    ensures t in s.threads
    ensures Apply(s, t, step) ==
              Server(s.conns, s.data[7 := ConnAfter(s.data[7], step)], s.removed, s.threads[t := NextPc(s, t, step)],
                     MutexAfter(s.mutex, t, step), s.accepting, NumberAfter(s.threads[t], s.pending, step))
  {
    StorePosition(s, t, step);
    UnderSeven(s, t, step);
    hide Enabled, NextPc, Under, Operated;
    assert s.data[7 := s.data[7]] == s.data;
  }

  /** Of two threads one is kept out only by what the other holds. */
  lemma NotBlocked(mode: Mode, p: Pc, q: Pc, d: Conn, m: Option<Tid>, n: int, t: Tid, step: Step)
    requires !LocksConnection(step) || (t == 0 && !HoldsConnection(mode, q)) || (t == 1 && !HoldsConnection(mode, p))
    ensures !Blocked(mode, TwoThreads(p, q, d, m, n), t, step)
    ensures !Blocked(mode, OneThread(p, d, m, n), 0, step)
  {
    hide Under;
  }

  lemma GoOne(mode: Mode, run: seq<Move>, p: Pc, d: Conn, m: Option<Tid>, n: int, owed: int,
              step: Step, q: Pc, e: Conn)
    returns (longer: seq<Move>)
    requires Reaches(mode, run, OneThread(p, d, m, n), owed)
    requires Inner(step) && Enabled(OneThread(p, d, m, n), 0, step)
    requires Permitted(mode, run, OneThread(p, d, m, n), owed, 0, step)
    requires NextPc(OneThread(p, d, m, n), 0, step) == q && ConnAfter(d, step) == e
    ensures longer == run + [Move(0, step)]
    ensures Reaches(mode, longer, OneThread(q, e, MutexAfter(m, 0, step), NumberAfter(p, n, step)),
                    owed + OwedBy(0, Move(0, step)))
  {
    hide Enabled, NextPc, Apply, Reaches, ConnAfter, MutexAfter, NumberAfter, OwedBy, Permitted, Blocked;
    var s := OneThread(p, d, m, n);
    InnerParts(s, 0, step);
    NotBlocked(mode, p, Idle, d, m, n, 0, step);
    assert s.threads[0 := q] == map[0 := q] && s.data[7 := e] == map[7 := e];
    longer :=
      Extend(mode, run, s, owed, 0, step, OneThread(q, e, MutexAfter(m, 0, step), NumberAfter(p, n, step)));
  }

  lemma GoFirst(mode: Mode, run: seq<Move>, p: Pc, q: Pc, d: Conn, m: Option<Tid>, n: int, owed: int,
                step: Step, r: Pc, e: Conn)
    returns (longer: seq<Move>)
    requires Reaches(mode, run, TwoThreads(p, q, d, m, n), owed)
    requires Inner(step) && Enabled(TwoThreads(p, q, d, m, n), 0, step)
    requires Permitted(mode, run, TwoThreads(p, q, d, m, n), owed, 0, step)
    requires !LocksConnection(step) || !HoldsConnection(mode, q)
    requires NextPc(TwoThreads(p, q, d, m, n), 0, step) == r && ConnAfter(d, step) == e
    ensures longer == run + [Move(0, step)]
    ensures Reaches(mode, longer, TwoThreads(r, q, e, MutexAfter(m, 0, step), NumberAfter(p, n, step)),
                    owed + OwedBy(0, Move(0, step)))
  {
    hide Enabled, NextPc, Apply, Reaches, ConnAfter, MutexAfter, NumberAfter, OwedBy, Permitted, Blocked;
    var s := TwoThreads(p, q, d, m, n);
    InnerParts(s, 0, step);
    NotBlocked(mode, p, q, d, m, n, 0, step);
    assert s.threads[0 := r] == map[0 := r, 1 := q] && s.data[7 := e] == map[7 := e];
    longer :=
      Extend(mode, run, s, owed, 0, step, TwoThreads(r, q, e, MutexAfter(m, 0, step), NumberAfter(p, n, step)));
  }

  lemma GoSecond(mode: Mode, run: seq<Move>, p: Pc, q: Pc, d: Conn, m: Option<Tid>, n: int, owed: int,
                 step: Step, r: Pc, e: Conn)
    returns (longer: seq<Move>)
    requires Reaches(mode, run, TwoThreads(p, q, d, m, n), owed)
    requires Inner(step) && Enabled(TwoThreads(p, q, d, m, n), 1, step)
    requires Permitted(mode, run, TwoThreads(p, q, d, m, n), owed, 1, step)
    requires !LocksConnection(step) || !HoldsConnection(mode, p)
    requires NextPc(TwoThreads(p, q, d, m, n), 1, step) == r && ConnAfter(d, step) == e
    ensures longer == run + [Move(1, step)]
    ensures Reaches(mode, longer, TwoThreads(p, r, e, MutexAfter(m, 1, step), NumberAfter(q, n, step)),
                    owed + OwedBy(0, Move(1, step)))
  {
    hide Enabled, NextPc, Apply, Reaches, ConnAfter, MutexAfter, NumberAfter, OwedBy, Permitted, Blocked;
    var s := TwoThreads(p, q, d, m, n);
    InnerParts(s, 1, step);
    NotBlocked(mode, p, q, d, m, n, 1, step);
    assert s.threads[1 := r] == map[0 := p, 1 := r] && s.data[7 := e] == map[7 := e];
    longer :=
      Extend(mode, run, s, owed, 1, step, TwoThreads(p, r, e, MutexAfter(m, 1, step), NumberAfter(q, n, step)));
  }

  lemma UnderSeven(s: Server, t: Tid, step: Step)
    requires Enabled(s, t, step) && s.data.Keys == {7}
    ensures ChangesCounters(step) ==> t in s.threads && Under(s, t) == 7
  {
    if ChangesCounters(step) {
      OperatesOnExisting(s, t, step);
    }
    hide Enabled, Under;
  }

  lemma NothingRun(mode: Mode)
    ensures Reaches(mode, [], START, 0)
  {}

  const SELECTING: seq<Move> :=
    [Move(0, Spawn), Move(0, LockSkip), Move(0, TakeToken)]

  lemma Selects0(mode: Mode, start: seq<Move>) returns (run: seq<Move>)
    requires Accepts(mode)
    requires Reaches(mode, start, START, 0)
    ensures run == start + [Move(0, Spawn), Move(0, LockSkip)]
    ensures Reaches(mode, run, Alone(NoRequest, Some(0), false), 0)
  {
    hide Reaches;
    run := Extend(mode, start, START, 0, 0, Spawn, Alone(Idle, None, false));
    run := Extend(mode, run, Alone(Idle, None, false), 0, 0, LockSkip, Alone(NoRequest, Some(0), false));
  }

  lemma Selects1(mode: Mode, start: seq<Move>) returns (run: seq<Move>)
    requires Accepts(mode)
    requires Reaches(mode, start, Alone(NoRequest, Some(0), false), 0)
    ensures run == start + [Move(0, TakeToken)]
    ensures Reaches(mode, run, Alone(Selecting(0), None, true), 0)
  {
    hide Reaches;
    run := Extend(mode, start, Alone(NoRequest, Some(0), false), 0, 0, TakeToken,
                  Alone(Selecting(0), None, true));
  }

  /** A thread with the accept token. */
  lemma Selects(mode: Mode)
    requires Accepts(mode)
    ensures Reaches(mode, SELECTING, Alone(Selecting(0), None, true), 0)
  {
    hide Reaches;
    NothingRun(mode);
    var run := [];
    run := Selects0(mode, run);
    run := Selects1(mode, run);
    assert run == SELECTING;
  }

  const THROWN: seq<Move> := SELECTING +
    [Move(0, Throw)]

  lemma ThrowRun0(start: seq<Move>) returns (run: seq<Move>)
    requires Reaches(ThreadPool, start, Alone(Selecting(0), None, true), 0)
    ensures run == start + [Move(0, Throw)]
    ensures Reaches(ThreadPool, run, Alone(Idle, None, true), 0)
  {
    hide Reaches;
    run := Extend(ThreadPool, start, Alone(Selecting(0), None, true), 0, 0, Throw, Alone(Idle, None, true));
  }

  /** An exception while it is held, in a pool: the flag stays set with nobody in the section. */
  lemma ThrowRun()
    ensures Feasible(ThreadPool, THROWN) && Orphaned(After(START, THROWN))
  {
    hide Reaches;
    Selects(ThreadPool);
    var run := SELECTING;
    run := ThrowRun0(run);
    assert run == THROWN;
    ReachedState(ThreadPool, THROWN, Alone(Idle, None, true), 0);
  }

  const ANNOUNCING: seq<Move> := SELECTING +
    [Move(0, SelectReady), Move(0, AcceptOne(7)), Move(0, Insert), Move(0, ReadData),
     Move(0, FirstRequest), Move(0, Complete), Move(0, Load), Move(0, Announce)]

  lemma AnnounceRun0(mode: Mode, start: seq<Move>) returns (run: seq<Move>)
    requires Accepts(mode)
    requires Reaches(mode, start, Alone(Selecting(0), None, true), 0)
    ensures run == start + [Move(0, SelectReady)]
    ensures Reaches(mode, run, Alone(Accepting, None, true), 0)
  {
    hide Reaches;
    run := Extend(mode, start, Alone(Selecting(0), None, true), 0, 0, SelectReady,
                  Alone(Accepting, None, true));
  }

  lemma AnnounceRun1(mode: Mode, start: seq<Move>) returns (run: seq<Move>)
    requires Accepts(mode)
    requires Reaches(mode, start, Alone(Accepting, None, true), 0)
    ensures run == start + [Move(0, AcceptOne(7))]
    ensures Reaches(mode, run, Alone(Inserting(7), Some(0), true), 0)
  {
    hide Reaches;
    run := Extend(mode, start, Alone(Accepting, None, true), 0, 0, AcceptOne(7),
                  Alone(Inserting(7), Some(0), true));
  }

  lemma AnnounceRun2(mode: Mode, start: seq<Move>) returns (run: seq<Move>)
    requires Accepts(mode)
    requires Reaches(mode, start, Alone(Inserting(7), Some(0), true), 0)
    ensures run == start + [Move(0, Insert)]
    ensures Reaches(mode, run, OneThread(Reading(0), NEW, None, 0), 0)
  {
    hide Reaches;
    Literals();
    run := Extend(mode, start, Alone(Inserting(7), Some(0), true), 0, 0, Insert,
                  OneThread(Reading(0), NEW, None, 0));
  }

  lemma AnnounceRun3(mode: Mode, start: seq<Move>) returns (run: seq<Move>)
    requires Accepts(mode)
    requires Reaches(mode, start, OneThread(Reading(0), NEW, None, 0), 0)
    ensures run == start + [Move(0, ReadData)]
    ensures Reaches(mode, run, OneThread(Parsing(0), NEW, None, 0), 0)
  {
    hide Reaches;
    run := GoOne(mode, start, Reading(0), NEW, None, 0, 0, ReadData, Parsing(0), NEW);
  }

  lemma AnnounceRun4(mode: Mode, start: seq<Move>) returns (run: seq<Move>)
    requires Accepts(mode)
    requires Reaches(mode, start, OneThread(Parsing(0), NEW, None, 0), 0)
    ensures run == start + [Move(0, FirstRequest)]
    ensures Reaches(mode, run, OneThread(Parsing(0), FIRST, None, 0), 0)
  {
    hide Reaches;
    Literals();
    run := GoOne(mode, start, Parsing(0), NEW, None, 0, 0, FirstRequest, Parsing(0), FIRST);
  }

  lemma AnnounceRun5(mode: Mode, start: seq<Move>) returns (run: seq<Move>)
    requires Accepts(mode)
    requires Reaches(mode, start, OneThread(Parsing(0), FIRST, None, 0), 0)
    ensures run == start + [Move(0, Complete)]
    ensures Reaches(mode, run, OneThread(Announcing(0), QUEUED, None, 0), 0)
  {
    hide Reaches;
    Literals();
    run := GoOne(mode, start, Parsing(0), FIRST, None, 0, 0, Complete, Announcing(0), QUEUED);
  }

  lemma AnnounceRun6(mode: Mode, start: seq<Move>) returns (run: seq<Move>)
    requires Accepts(mode)
    requires Reaches(mode, start, OneThread(Announcing(0), QUEUED, None, 0), 0)
    ensures run == start + [Move(0, Load)]
    ensures Reaches(mode, run, OneThread(Storing(0, 0), QUEUED, None, 0), 0)
  {
    hide Reaches;
    run := GoOne(mode, start, Announcing(0), QUEUED, None, 0, 0, Load, Storing(0, 0), QUEUED);
  }

  lemma AnnounceRun7(mode: Mode, start: seq<Move>) returns (run: seq<Move>)
    requires Accepts(mode)
    requires Reaches(mode, start, OneThread(Storing(0, 0), QUEUED, None, 0), 0)
    ensures run == start + [Move(0, Announce)]
    ensures Reaches(mode, run, OneThread(Renewing(0), QUEUED, None, 1), 1)
  {
    hide Reaches;
    run := GoOne(mode, start, Storing(0, 0), QUEUED, None, 0, 0, Announce, Renewing(0), QUEUED);
  }

  /** One request is queued, and the next one is still to be created. */
  lemma AnnounceRun(mode: Mode)
    requires Accepts(mode)
    ensures Reaches(mode, ANNOUNCING, OneThread(Renewing(0), QUEUED, None, 1), 1)
  {
    hide Reaches;
    Selects(mode);
    var run := SELECTING;
    run := AnnounceRun0(mode, run);
    run := AnnounceRun1(mode, run);
    run := AnnounceRun2(mode, run);
    run := AnnounceRun3(mode, run);
    run := AnnounceRun4(mode, run);
    run := AnnounceRun5(mode, run);
    run := AnnounceRun6(mode, run);
    run := AnnounceRun7(mode, run);
    assert run == ANNOUNCING;
  }

  const QUEUEING: seq<Move> := ANNOUNCING +
    [Move(0, Renew)]

  lemma QueueRun0(start: seq<Move>) returns (run: seq<Move>)
    requires Reaches(ThreadPool, start, OneThread(Renewing(0), QUEUED, None, 1), 1)
    ensures run == start + [Move(0, Renew)]
    ensures Reaches(ThreadPool, run, OneThread(Parsing(0), RENEWED, None, 1), 1)
  {
    hide Reaches;
    Literals();
    run := GoOne(ThreadPool, start, Renewing(0), QUEUED, None, 1, 1, Renew, Parsing(0), RENEWED);
  }

  /** In a pool the same thread goes on to read the next request. */
  lemma QueueRun()
    ensures Reaches(ThreadPool, QUEUEING, OneThread(Parsing(0), RENEWED, None, 1), 1)
  {
    hide Reaches;
    AnnounceRun(ThreadPool);
    var run := ANNOUNCING;
    run := QueueRun0(run);
    assert run == QUEUEING;
  }

  const HIDDEN: Conn := RENEWED.(active := -1, responses := 1, doneReading := true, immediate := 1)
  const HIDDEN_STATE: Server := Server([], map[], map[7 := HIDDEN], map[0 := Removing(0)], Some(0), true, 1)

  const HIDING: seq<Move> := QUEUEING +
    [Move(0, ParseError), Move(0, Reply), Move(0, ReadAll), Move(0, LockClear), Move(0, ClearOne(false)),
     Move(0, ClearAll), Move(0, RemoveOne)]

  lemma ReplyHidesRequest0(start: seq<Move>) returns (run: seq<Move>)
    requires Reaches(ThreadPool, start, OneThread(Parsing(0), RENEWED, None, 1), 1)
    ensures run == start + [Move(0, ParseError), Move(0, Reply)]
    ensures Reaches(ThreadPool, run, OneThread(Reading(1), HIDDEN, None, 1), 1)
  {
    hide Reaches;
    Literals();
    run := GoOne(ThreadPool, start, Parsing(0), RENEWED, None, 1, 1, ParseError, Replying(0), RENEWED);
    run := GoOne(ThreadPool, run, Replying(0), RENEWED, None, 1, 1, Reply, Reading(1), HIDDEN);
  }

  lemma ReplyHidesRequest1(start: seq<Move>) returns (run: seq<Move>)
    requires Reaches(ThreadPool, start, OneThread(Reading(1), HIDDEN, None, 1), 1)
    ensures run == start + [Move(0, ReadAll), Move(0, LockClear)]
    ensures Reaches(ThreadPool, run, OneThread(Clearing(0), HIDDEN, Some(0), 1), 1)
  {
    hide Reaches;
    run := GoOne(ThreadPool, start, Reading(1), HIDDEN, None, 1, 1, ReadAll, Clear, HIDDEN);
    run := GoOne(ThreadPool, run, Clear, HIDDEN, None, 1, 1, LockClear, Clearing(0), HIDDEN);
  }

  lemma ReplyHidesRequest2(start: seq<Move>) returns (run: seq<Move>)
    requires Reaches(ThreadPool, start, OneThread(Clearing(0), HIDDEN, Some(0), 1), 1)
    ensures run == start + [Move(0, ClearOne(false)), Move(0, ClearAll)]
    ensures Reaches(ThreadPool, run, OneThread(Removing(0), HIDDEN, Some(0), 1), 1)
  {
    hide Reaches;
    run := GoOne(ThreadPool, start, Clearing(0), HIDDEN, Some(0), 1, 1, ClearOne(false), Clearing(1), HIDDEN);
    run := GoOne(ThreadPool, run, Clearing(1), HIDDEN, Some(0), 1, 1, ClearAll, Removing(0), HIDDEN);
  }

  lemma ReplyHidesRequest3(start: seq<Move>) returns (run: seq<Move>)
    requires Reaches(ThreadPool, start, OneThread(Removing(0), HIDDEN, Some(0), 1), 1)
    ensures run == start + [Move(0, RemoveOne)]
    ensures Reaches(ThreadPool, run, HIDDEN_STATE, 1)
  {
    hide Reaches;
    Literals();
    run := Extend(ThreadPool, start, OneThread(Removing(0), HIDDEN, Some(0), 1), 1, 0, RemoveOne, HIDDEN_STATE);
  }

  /**
   * A bad request behind a good one in the same read, in a pool: the connection is deleted with the good one in
   * its queue.
   */
  lemma ReplyHidesRequest()
    ensures Feasible(ThreadPool, HIDING)
    ensures var s := After(START, HIDING); 7 in s.removed && s.removed[7].queue == [1]
  {
    hide Reaches;
    QueueRun();
    var run := QUEUEING;
    run := ReplyHidesRequest0(run);
    run := ReplyHidesRequest1(run);
    run := ReplyHidesRequest2(run);
    run := ReplyHidesRequest3(run);
    assert run == HIDING;
    ReachedState(ThreadPool, HIDING, HIDDEN_STATE, 1);
  }

  const TAKEN: Conn := RENEWED.(queue := [], active := 1)
  const ANSWERED: Conn := TAKEN.(active := 0, responses := 1, doneReading := true)

  const SERVING: seq<Move> := QUEUEING +
    [Move(0, ParseEnd), Move(0, ReadAll), Move(1, Spawn), Move(1, Lock(0)), Move(1, ScanOne),
     Move(1, LoadTaken), Move(1, CountTaken), Move(1, Route)]

  lemma ServeRun0(start: seq<Move>) returns (run: seq<Move>)
    requires Reaches(ThreadPool, start, OneThread(Parsing(0), RENEWED, None, 1), 1)
    ensures run == start + [Move(0, ParseEnd), Move(0, ReadAll)]
    ensures Reaches(ThreadPool, run, OneThread(Clear, RENEWED, None, 1), 1)
  {
    hide Reaches;
    run := GoOne(ThreadPool, start, Parsing(0), RENEWED, None, 1, 1, ParseEnd, Reading(1), RENEWED);
    run := GoOne(ThreadPool, run, Reading(1), RENEWED, None, 1, 1, ReadAll, Clear, RENEWED);
  }

  lemma ServeRun1(start: seq<Move>) returns (run: seq<Move>)
    requires Reaches(ThreadPool, start, OneThread(Clear, RENEWED, None, 1), 1)
    ensures run == start + [Move(1, Spawn)]
    ensures Reaches(ThreadPool, run, TwoThreads(Clear, Idle, RENEWED, None, 1), 0)
  {
    hide Reaches;
    run := Extend(ThreadPool, start, OneThread(Clear, RENEWED, None, 1), 1, 1, Spawn,
                  TwoThreads(Clear, Idle, RENEWED, None, 1));
  }

  lemma ServeRun2(start: seq<Move>) returns (run: seq<Move>)
    requires Reaches(ThreadPool, start, TwoThreads(Clear, Idle, RENEWED, None, 1), 0)
    ensures run == start + [Move(1, Lock(0))]
    ensures Reaches(ThreadPool, run, TwoThreads(Clear, Scan(0, 0, true), RENEWED, Some(1), 1), 0)
  {
    hide Reaches;
    run := GoSecond(ThreadPool, start, Clear, Idle, RENEWED, None, 1, 0, Lock(0), Scan(0, 0, true), RENEWED);
  }

  lemma ServeRun3(start: seq<Move>) returns (run: seq<Move>)
    requires Reaches(ThreadPool, start, TwoThreads(Clear, Scan(0, 0, true), RENEWED, Some(1), 1), 0)
    ensures run == start + [Move(1, ScanOne), Move(1, LoadTaken)]
    ensures Reaches(ThreadPool, run, TwoThreads(Clear, Taking(7, 1), TAKEN, Some(1), 1), 0)
  {
    hide Reaches;
    Literals();
    run := GoSecond(ThreadPool, start, Clear, Scan(0, 0, true), RENEWED, Some(1), 1, 0, ScanOne, Took(7),
                    TAKEN);
    run := GoSecond(ThreadPool, run, Clear, Took(7), TAKEN, Some(1), 1, 0, LoadTaken, Taking(7, 1), TAKEN);
  }

  lemma ServeRun4(start: seq<Move>) returns (run: seq<Move>)
    requires Reaches(ThreadPool, start, TwoThreads(Clear, Taking(7, 1), TAKEN, Some(1), 1), 0)
    ensures run == start + [Move(1, CountTaken), Move(1, Route)]
    ensures Reaches(ThreadPool, run, TwoThreads(Clear, Sending(7), TAKEN, None, 0), 0)
  {
    hide Reaches;
    run := GoSecond(ThreadPool, start, Clear, Taking(7, 1), TAKEN, Some(1), 1, 0, CountTaken, Routing(7),
                    TAKEN);
    run := GoSecond(ThreadPool, run, Clear, Routing(7), TAKEN, None, 0, 0, Route, Sending(7), TAKEN);
  }

  /** The request is with thread 1. */
  lemma ServeRun()
    ensures Reaches(ThreadPool, SERVING, TwoThreads(Clear, Sending(7), TAKEN, None, 0), 0)
  {
    hide Reaches;
    QueueRun();
    var run := QUEUEING;
    run := ServeRun0(run);
    run := ServeRun1(run);
    run := ServeRun2(run);
    run := ServeRun3(run);
    run := ServeRun4(run);
    assert run == SERVING;
  }

  const FREED_STATE: Server :=
    Server([], map[], map[7 := ANSWERED], map[0 := Removing(0), 1 := Finishing(7)], Some(0), true, 0)

  const FREED: seq<Move> := SERVING +
    [Move(0, LockClear), Move(0, ClearOne(false)), Move(0, ClearAll), Move(1, Respond(true)),
     Move(0, RemoveOne)]

  lemma FreedRun0(start: seq<Move>) returns (run: seq<Move>)
    requires Reaches(ThreadPool, start, TwoThreads(Clear, Sending(7), TAKEN, None, 0), 0)
    ensures run == start + [Move(0, LockClear)]
    ensures Reaches(ThreadPool, run, TwoThreads(Clearing(0), Sending(7), TAKEN, Some(0), 0), 0)
  {
    hide Reaches;
    run := GoFirst(ThreadPool, start, Clear, Sending(7), TAKEN, None, 0, 0, LockClear, Clearing(0), TAKEN);
  }

  lemma FreedRun1(start: seq<Move>) returns (run: seq<Move>)
    requires Reaches(ThreadPool, start, TwoThreads(Clearing(0), Sending(7), TAKEN, Some(0), 0), 0)
    ensures run == start + [Move(0, ClearOne(false))]
    ensures Reaches(ThreadPool, run, TwoThreads(Clearing(1), Sending(7), TAKEN, Some(0), 0), 0)
  {
    hide Reaches;
    run := GoFirst(ThreadPool, start, Clearing(0), Sending(7), TAKEN, Some(0), 0, 0, ClearOne(false),
                   Clearing(1), TAKEN);
  }

  lemma FreedRun2(start: seq<Move>) returns (run: seq<Move>)
    requires Reaches(ThreadPool, start, TwoThreads(Clearing(1), Sending(7), TAKEN, Some(0), 0), 0)
    ensures run == start + [Move(0, ClearAll)]
    ensures Reaches(ThreadPool, run, TwoThreads(Removing(0), Sending(7), TAKEN, Some(0), 0), 0)
  {
    hide Reaches;
    run := GoFirst(ThreadPool, start, Clearing(1), Sending(7), TAKEN, Some(0), 0, 0, ClearAll, Removing(0),
                   TAKEN);
  }

  lemma FreedRun3(start: seq<Move>) returns (run: seq<Move>)
    requires Reaches(ThreadPool, start, TwoThreads(Removing(0), Sending(7), TAKEN, Some(0), 0), 0)
    ensures run == start + [Move(1, Respond(true))]
    ensures Reaches(ThreadPool, run, TwoThreads(Removing(0), Finishing(7), ANSWERED, Some(0), 0), 0)
  {
    hide Reaches;
    Literals();
    run := GoSecond(ThreadPool, start, Removing(0), Sending(7), TAKEN, Some(0), 0, 0, Respond(true),
                    Finishing(7), ANSWERED);
  }

  lemma FreedRun4(start: seq<Move>) returns (run: seq<Move>)
    requires Reaches(ThreadPool, start, TwoThreads(Removing(0), Finishing(7), ANSWERED, Some(0), 0), 0)
    ensures run == start + [Move(0, RemoveOne)]
    ensures Reaches(ThreadPool, run, FREED_STATE, 0)
  {
    hide Reaches;
    Literals();
    run := Extend(ThreadPool, start, TwoThreads(Removing(0), Finishing(7), ANSWERED, Some(0), 0), 0, 0,
                  RemoveOne, FREED_STATE);
  }

  /**
   * An ordinary reply that closes the connection, in a pool: the sweep deletes it after the reply was counted,
   * while the thread that sent it is still to lock its mutex once more. No immediate reply is involved.
   */
  lemma FreedRun()
    ensures Feasible(ThreadPool, FREED)
    ensures var s := After(START, FREED); NoReplies(s) && Dangling(s, 1, 7)
  {
    hide Reaches;
    ServeRun();
    var run := SERVING;
    run := FreedRun0(run);
    run := FreedRun1(run);
    run := FreedRun2(run);
    run := FreedRun3(run);
    run := FreedRun4(run);
    assert run == FREED;
    ReachedState(ThreadPool, FREED, FREED_STATE, 0);
  }

  const TAKEN_EARLY: Conn := QUEUED.(queue := [], active := 1)
  const TWICE: Conn := TAKEN.(queue := [2], handedOver := true)

  const LOSING: seq<Move> := ANNOUNCING +
    [Move(1, Spawn), Move(1, Lock(0)), Move(1, ScanOne), Move(0, Renew), Move(0, Complete), Move(0, Load),
     Move(1, LoadTaken), Move(0, Announce), Move(1, CountTaken)]

  lemma LostUpdateRun0(start: seq<Move>) returns (run: seq<Move>)
    requires Reaches(ThreadPerRequest(0), start, OneThread(Renewing(0), QUEUED, None, 1), 1)
    ensures run == start + [Move(1, Spawn), Move(1, Lock(0))]
    ensures Reaches(ThreadPerRequest(0), run, TwoThreads(Renewing(0), Scan(0, 0, true), QUEUED, Some(1), 1), 0)
  {
    hide Reaches;
    run := Extend(ThreadPerRequest(0), start, OneThread(Renewing(0), QUEUED, None, 1), 1, 1, Spawn,
                  TwoThreads(Renewing(0), Idle, QUEUED, None, 1));
    run := GoSecond(ThreadPerRequest(0), run, Renewing(0), Idle, QUEUED, None, 1, 0, Lock(0), Scan(0, 0, true),
                    QUEUED);
  }

  lemma LostUpdateRun1(start: seq<Move>) returns (run: seq<Move>)
    requires Reaches(ThreadPerRequest(0), start, TwoThreads(Renewing(0), Scan(0, 0, true), QUEUED, Some(1), 1), 0)
    ensures run == start + [Move(1, ScanOne)]
    ensures Reaches(ThreadPerRequest(0), run, TwoThreads(Renewing(0), Took(7), TAKEN_EARLY, Some(1), 1), 0)
  {
    hide Reaches;
    Literals();
    run := GoSecond(ThreadPerRequest(0), start, Renewing(0), Scan(0, 0, true), QUEUED, Some(1), 1, 0, ScanOne,
                    Took(7), TAKEN_EARLY);
  }

  lemma LostUpdateRun2(start: seq<Move>) returns (run: seq<Move>)
    requires Reaches(ThreadPerRequest(0), start, TwoThreads(Renewing(0), Took(7), TAKEN_EARLY, Some(1), 1), 0)
    ensures run == start + [Move(0, Renew)]
    ensures Reaches(ThreadPerRequest(0), run, TwoThreads(Parsing(0), Took(7), TAKEN, Some(1), 1), 0)
  {
    hide Reaches;
    Literals();
    run := GoFirst(ThreadPerRequest(0), start, Renewing(0), Took(7), TAKEN_EARLY, Some(1), 1, 0, Renew,
                   Parsing(0), TAKEN);
  }

  lemma LostUpdateRun3(start: seq<Move>) returns (run: seq<Move>)
    requires Reaches(ThreadPerRequest(0), start, TwoThreads(Parsing(0), Took(7), TAKEN, Some(1), 1), 0)
    ensures run == start + [Move(0, Complete)]
    ensures Reaches(ThreadPerRequest(0), run, TwoThreads(Announcing(0), Took(7), TWICE, Some(1), 1), 0)
  {
    hide Reaches;
    Literals();
    run := GoFirst(ThreadPerRequest(0), start, Parsing(0), Took(7), TAKEN, Some(1), 1, 0, Complete,
                   Announcing(0), TWICE);
  }

  lemma LostUpdateRun4(start: seq<Move>) returns (run: seq<Move>)
    requires Reaches(ThreadPerRequest(0), start, TwoThreads(Announcing(0), Took(7), TWICE, Some(1), 1), 0)
    ensures run == start + [Move(0, Load)]
    ensures Reaches(ThreadPerRequest(0), run, TwoThreads(Storing(0, 1), Took(7), TWICE, Some(1), 1), 0)
  {
    hide Reaches;
    run := GoFirst(ThreadPerRequest(0), start, Announcing(0), Took(7), TWICE, Some(1), 1, 0, Load,
                   Storing(0, 1), TWICE);
  }

  lemma LostUpdateRun5(start: seq<Move>) returns (run: seq<Move>)
    requires Reaches(ThreadPerRequest(0), start, TwoThreads(Storing(0, 1), Took(7), TWICE, Some(1), 1), 0)
    ensures run == start + [Move(1, LoadTaken)]
    ensures Reaches(ThreadPerRequest(0), run, TwoThreads(Storing(0, 1), Taking(7, 1), TWICE, Some(1), 1), 0)
  {
    hide Reaches;
    run := GoSecond(ThreadPerRequest(0), start, Storing(0, 1), Took(7), TWICE, Some(1), 1, 0, LoadTaken,
                    Taking(7, 1), TWICE);
  }

  lemma LostUpdateRun6(start: seq<Move>) returns (run: seq<Move>)
    requires Reaches(ThreadPerRequest(0), start, TwoThreads(Storing(0, 1), Taking(7, 1), TWICE, Some(1), 1), 0)
    ensures run == start + [Move(0, Announce)]
    ensures Reaches(ThreadPerRequest(0), run, TwoThreads(Renewing(0), Taking(7, 1), TWICE, Some(1), 2), 1)
  {
    hide Reaches;
    run := GoFirst(ThreadPerRequest(0), start, Storing(0, 1), Taking(7, 1), TWICE, Some(1), 1, 0, Announce,
                   Renewing(0), TWICE);
  }

  lemma LostUpdateRun7(start: seq<Move>) returns (run: seq<Move>)
    requires Reaches(ThreadPerRequest(0), start, TwoThreads(Renewing(0), Taking(7, 1), TWICE, Some(1), 2), 1)
    ensures run == start + [Move(1, CountTaken)]
    ensures Reaches(ThreadPerRequest(0), run, TwoThreads(Renewing(0), Routing(7), TWICE, None, 0), 1)
  {
    hide Reaches;
    run := GoSecond(ThreadPerRequest(0), start, Renewing(0), Taking(7, 1), TWICE, Some(1), 2, 1, CountTaken,
                    Routing(7), TWICE);
  }

  /**
   * Two overlapping updates, with one thread per request: the thread created for the first request takes it
   * while the reading thread queues the second one. That one is queued, and the number of pending requests
   * says none is.
   */
  lemma LostUpdateRun()
    ensures Feasible(ThreadPerRequest(0), LOSING)
    ensures var s := After(START, LOSING);
            NoReplies(s) && s.data.Keys == {7} && s.data[7].queue == [2] && s.pending == 0
  {
    hide Reaches;
    AnnounceRun(ThreadPerRequest(0));
    var run := ANNOUNCING;
    run := LostUpdateRun0(run);
    run := LostUpdateRun1(run);
    run := LostUpdateRun2(run);
    run := LostUpdateRun3(run);
    run := LostUpdateRun4(run);
    run := LostUpdateRun5(run);
    run := LostUpdateRun6(run);
    run := LostUpdateRun7(run);
    assert run == LOSING;
    ReachedState(ThreadPerRequest(0), LOSING, TwoThreads(Renewing(0), Routing(7), TWICE, None, 0), 1);
  }

  lemma Literals()
    ensures Renewed(NEW) == FIRST && Pushed(FIRST) == QUEUED && Renewed(QUEUED) == RENEWED
    ensures Replied(RENEWED) == HIDDEN && Popped(RENEWED) == TAKEN && Responded(TAKEN, true) == ANSWERED
    ensures Popped(QUEUED) == TAKEN_EARLY && Renewed(TAKEN_EARLY) == TAKEN && Pushed(TAKEN) == TWICE
    ensures Without([7], 0) == [] && [] + [7] == [7]
  {}

  lemma ReachedState(mode: Mode, run: seq<Move>, s: Server, owed: int)
    requires Reaches(mode, run, s, owed)
    ensures Feasible(mode, run) && After(START, run) == s
  {}
}
