/**
 * The dispatch protocol of ehs.cpp: worker threads that share the connection list, the queues, the
 * counters and one accept token. A run is any interleaving of the steps between lock operations.
 */
module Dispatch {
  import opened EhsConnectionState
  import opened Lists

  type Tid = nat
  type ConnId = nat

  /** Where a thread is. Positions `i` are list iterators. */
  datatype Pc =
    | Idle
    // holding the server mutex
    | Scan(start: nat, i: nat, first: bool)   // the circular walk of GetNextRequest
    | Took(c: ConnId)                         // a request was popped, m_nRequestsPending is still to be loaded
    | Taking(c: ConnId, loaded: int)          // it was loaded and is still to be stored, less one
    | NoRequest
    // working for a request
    | Routing(c: ConnId)
    | Sending(c: ConnId)
    | Finishing(c: ConnId)                    // the reply was counted; AddResponse still locks the connection
    // on the condition variable
    | Waiting
    // holding the accept token, without the server mutex
    | Selecting(i: nat)                       // CreateFdSet and select
    | Accepting
    | Reading(i: nat)                         // CheckClientSockets
    | Parsing(i: nat)                         // AddBuffer on the connection at i
    | Announcing(i: nat)                      // a request was queued, m_nRequestsPending is still to be loaded
    | Storing(i: nat, loaded: int)            // it was loaded and is still to be stored, plus one
    | Renewing(i: nat)                        // the next request is still to be created
    | Replying(i: nat)                        // an immediate error reply is due
    | Clear
    // holding both
    | Inserting(c: ConnId)
    | Clearing(i: nat)                        // ClearIdleConnections
    | Removing(i: nat)                        // RemoveFinishedConnections

  predicate HoldsMutex(p: Pc) {
    p.Scan? || p.Took? || p.Taking? || p.NoRequest? || p.Inserting? || p.Clearing? || p.Removing?
  }

  /** The section between `m_bAccepting = true` and `m_bAccepting = false`. */
  predicate InSection(p: Pc) {
    || p.Selecting? || p.Accepting? || p.Reading? || p.Parsing? || p.Announcing? || p.Storing? || p.Renewing?
    || p.Replying? || p.Clear? || p.Inserting? || p.Clearing? || p.Removing?
  }

  /** Threads whose code walks over the connection list. */
  predicate Walks(p: Pc) {
    || p.Scan? || p.Selecting? || p.Reading? || p.Parsing? || p.Announcing? || p.Storing? || p.Renewing? || p.Replying?
    || p.Clearing? || p.Removing?
  }

  predicate WorksFor(p: Pc, c: ConnId) { (p.Took? || p.Taking? || p.Routing? || p.Sending?) && p.c == c }

  /**
   * `conns` is the list, `data` the connections on it, `removed` what deleted connections last looked
   * like; `threads` are the threads that exist.
   */
  datatype Server = Server(conns: seq<ConnId>, data: map<ConnId, Conn>, removed: map<ConnId, Conn>,
                           threads: map<Tid, Pc>, mutex: Option<Tid>, accepting: bool, pending: int)

  const START: Server := Server([], map[], map[], map[], None, false, 0)

  // ----- steps

  datatype Step =
    | Spawn | Exit
    | Lock(from: nat) | LockSkip
    | ScanOne | ScanEnd | LoadTaken | CountTaken | Route | RouteFails | Respond(close: bool) | Finish
    | Sleep | Wake | TakeToken
    | SelectOne | SelectReady | SelectIdle | Throw
    | AcceptOne(c: ConnId) | AcceptNone | Insert
    | ReadNone | ReadEnd(disconnected: bool) | ReadData | ReadAll
    | FirstRequest | Complete | Load | Announce | Renew | ParseEnd | ParseError | Reply
    | LockClear | ClearOne(idle: bool) | ClearAll | RemoveOne | RemoveAll

  function At(s: Server, t: Tid): Pc
    requires t in s.threads
  {
    s.threads[t]
  }

  /** The connection under the iterator of a thread. */
  function Under(s: Server, t: Tid): ConnId
    requires t in s.threads
  {
    match At(s, t)
    case Scan(_, i, _) => if i < |s.conns| then s.conns[i] else 0
    case Reading(i) => if i < |s.conns| then s.conns[i] else 0
    case Parsing(i) => if i < |s.conns| then s.conns[i] else 0
    case Announcing(i) => if i < |s.conns| then s.conns[i] else 0
    case Storing(i, _) => if i < |s.conns| then s.conns[i] else 0
    case Renewing(i) => if i < |s.conns| then s.conns[i] else 0
    case Replying(i) => if i < |s.conns| then s.conns[i] else 0
    case Clearing(i) => if i < |s.conns| then s.conns[i] else 0
    case Removing(i) => if i < |s.conns| then s.conns[i] else 0
    case Took(c) => c
    case Taking(c, _) => c
    case Routing(c) => c
    case Sending(c) => c
    case Finishing(c) => c
    case Inserting(c) => c
    case _ => 0
  }

  predicate Exists(s: Server, t: Tid) requires t in s.threads { Under(s, t) in s.data }

  /**
   * When a thread can take a step. A step that follows an iterator or a pointer needs what it points to, but
   * for `Finish`, which touches the connection whether or not it still exists.
   */
  predicate Enabled(s: Server, t: Tid, step: Step) {
    if step.Spawn? then t !in s.threads
    else
      && t in s.threads
      && var p := At(s, t);
      match step
      case Exit => p.Idle?
      case Lock(from) => p.Idle? && s.mutex.None? && from < |s.conns|
      case LockSkip => p.Idle? && s.mutex.None?
      case ScanOne => p.Scan? && (p.first || p.i != p.start) && Exists(s, t)
      case ScanEnd => p.Scan? && !p.first && p.i == p.start
      case LoadTaken => p.Took?
      case CountTaken => p.Taking?
      case Route => p.Routing?
      case RouteFails => p.Routing? && Exists(s, t)
      case Respond(_) => p.Sending? && Exists(s, t)
      case Finish => p.Finishing?
      case Sleep => p.NoRequest? && s.accepting
      case Wake => p.Waiting? && s.mutex.None?
      case TakeToken => p.NoRequest? && !s.accepting
      case SelectOne => p.Selecting? && p.i < |s.conns|
      case SelectReady => p.Selecting? && p.i >= |s.conns|
      case SelectIdle => p.Selecting? && p.i >= |s.conns|
      case Throw => p.Selecting? || p.Accepting? || p.Reading? || p.Parsing?
      case AcceptOne(c) => p.Accepting? && s.mutex.None? && c !in s.data && c !in s.removed
      case AcceptNone => p.Accepting?
      case Insert => p.Inserting?
      case ReadNone => p.Reading? && p.i < |s.conns|
      case ReadEnd(_) => p.Reading? && p.i < |s.conns| && Exists(s, t)
      case ReadData => p.Reading? && p.i < |s.conns|
      case ReadAll => p.Reading? && p.i >= |s.conns|
      case FirstRequest => p.Parsing? && Exists(s, t) && s.data[Under(s, t)].requests == 0
      case Complete => p.Parsing? && Exists(s, t) && s.data[Under(s, t)].requests > 0
      case Load => p.Announcing?
      case Announce => p.Storing?
      case Renew => p.Renewing? && Exists(s, t)
      case ParseEnd => p.Parsing? && Exists(s, t) && s.data[Under(s, t)].requests > 0
      case ParseError => p.Parsing?
      case Reply => p.Replying? && Exists(s, t)
      case LockClear => p.Clear? && s.mutex.None?
      case ClearOne(_) => p.Clearing? && p.i < |s.conns| && Exists(s, t)
      case ClearAll => p.Clearing? && p.i >= |s.conns|
      case RemoveOne => p.Removing? && p.i < |s.conns| && Exists(s, t)
      case RemoveAll => p.Removing? && p.i >= |s.conns|
      case _ => false
  }

  /** Where a step leaves the thread that takes it. */
  function NextPc(s: Server, t: Tid, step: Step): Pc
    requires Enabled(s, t, step) && !step.Exit?
  {
    match step
    case Spawn => Idle
    case Lock(from) => Scan(from, from, true)
    case LockSkip => NoRequest
    case ScanOne =>
      if s.data[Under(s, t)].queue != [] then Took(Under(s, t))
      else Scan(At(s, t).start, if At(s, t).i + 1 >= |s.conns| then 0 else At(s, t).i + 1, false)
    case ScanEnd => NoRequest
    case LoadTaken => Taking(At(s, t).c, s.pending)
    case CountTaken => Routing(At(s, t).c)
    case Route => Sending(At(s, t).c)
    case RouteFails => Idle
    case Respond(_) => Finishing(At(s, t).c)
    case Finish => Idle
    case Sleep => Waiting
    case Wake => Idle
    case TakeToken => Selecting(0)
    case SelectOne => Selecting(At(s, t).i + 1)
    case SelectReady => Accepting
    case SelectIdle => Clear
    case Throw => Idle
    case AcceptOne(c) => Inserting(c)
    case AcceptNone => Reading(0)
    case Insert => Reading(0)
    case ReadNone => Reading(At(s, t).i + 1)
    case ReadEnd(_) => Reading(At(s, t).i + 1)
    case ReadData => Parsing(At(s, t).i)
    case ReadAll => Clear
    case FirstRequest => At(s, t)
    case Complete => Announcing(At(s, t).i)
    case Load => Storing(At(s, t).i, s.pending)
    case Announce => Renewing(At(s, t).i)
    case Renew => Parsing(At(s, t).i)
    case ParseEnd => Reading(At(s, t).i + 1)
    case ParseError => Replying(At(s, t).i)
    case Reply => Reading(At(s, t).i + 1)
    case LockClear => Clearing(0)
    case ClearOne(_) => Clearing(At(s, t).i + 1)
    case ClearAll => Removing(0)
    case RemoveOne => Removing(if Removes(s, t, step) then 0 else At(s, t).i + 1)
    case RemoveAll => Idle
  }

  predicate Removes(s: Server, t: Tid, step: Step)
    requires Enabled(s, t, step)
  {
    step.RemoveOne? && CheckDone(s.data[Under(s, t)])
  }

  predicate Locks(step: Step) { step.Lock? || step.LockSkip? || step.AcceptOne? || step.LockClear? }

  predicate Unlocks(step: Step) {
    step.CountTaken? || step.Sleep? || step.TakeToken? || step.Insert? || step.RemoveAll?
  }

  /** Steps that operate on the connection under the thread. */
  predicate ChangesCounters(step: Step) {
    || step.ScanOne? || step.RouteFails? || step.Respond? || step.ReadEnd? || step.FirstRequest? || step.Complete?
    || step.Renew? || step.Reply? || step.ClearOne?
  }

  function Operated(step: Step, d: Conn): Conn
    requires ChangesCounters(step)
  {
    match step
    case ScanOne => if d.queue != [] then Popped(d) else d
    case RouteFails => d.(abandoned := d.abandoned + 1)
    case Respond(close) => Responded(d, close)
    case ReadEnd(disconnected) => DoneReading(d, disconnected)
    case Complete => Pushed(d)
    case Reply => Replied(d)
    case ClearOne(idle) => Aged(d, idle)
    case _ => Renewed(d)
  }

  function NextData(s: Server, t: Tid, step: Step): map<ConnId, Conn>
    requires Enabled(s, t, step)
  {
    if ChangesCounters(step) then s.data[Under(s, t) := Operated(step, s.data[Under(s, t)])]
    else if step.Insert? then s.data[At(s, t).c := NEW]
    else if Removes(s, t, step) then s.data - {Under(s, t)}
    else s.data
  }

  function NextConns(s: Server, t: Tid, step: Step): seq<ConnId>
    requires Enabled(s, t, step)
  {
    if step.Insert? then s.conns + [At(s, t).c]
    else if Removes(s, t, step) then Without(s.conns, At(s, t).i)
    else s.conns
  }

  function Apply(s: Server, t: Tid, step: Step): Server
    requires Enabled(s, t, step)
  {
    Server(
      conns := NextConns(s, t, step),
      data := NextData(s, t, step),
      removed := if Removes(s, t, step) then s.removed[Under(s, t) := s.data[Under(s, t)]] else s.removed,
      threads := if step.Exit? then s.threads - {t} else s.threads[t := NextPc(s, t, step)],
      mutex := if Locks(step) then Some(t) else if Unlocks(step) then None else s.mutex,
      accepting := if step.TakeToken? then true else if step.RemoveAll? then false else s.accepting,
      pending :=
        if step.Announce? then At(s, t).loaded + 1 else if step.CountTaken? then At(s, t).loaded - 1 else s.pending
    )
  }

  // ----- mutual exclusion

  predicate ListMatchesData(s: Server) {
    && Distinct(s.conns)
    && (forall c | c in s.data :: c in s.conns) && (forall c | c in s.conns :: c in s.data)
    && s.data.Keys !! s.removed.Keys
  }

  /** The server mutex has the holder the state names, and no other. */
  predicate MutexInv(s: Server) {
    forall t | t in s.threads :: HoldsMutex(s.threads[t]) <==> s.mutex == Some(t)
  }

  /** At most one thread is in the accept section, and only while the flag is set. */
  predicate TokenInv(s: Server) {
    && (forall t | t in s.threads :: InSection(s.threads[t]) ==> s.accepting)
    && (forall t, u | t in s.threads && u in s.threads :: InSection(s.threads[t]) && InSection(s.threads[u]) ==> t == u)
  }

  /** Iterators point into the list, or at its end where the loops test for it. */
  predicate IteratorOk(p: Pc, n: nat) {
    match p
    case Scan(start, i, _) => start < n && i < n
    case Selecting(i) => i <= n
    case Reading(i) => i <= n
    case Parsing(i) => i < n
    case Announcing(i) => i < n
    case Storing(i, _) => i < n
    case Renewing(i) => i < n
    case Replying(i) => i < n
    case Clearing(i) => i <= n
    case Removing(i) => i <= n
    case _ => true
  }

  predicate IteratorsInv(s: Server) {
    forall t | t in s.threads :: IteratorOk(s.threads[t], |s.conns|)
  }

  /** A connection about to be inserted is new. */
  predicate FreshInv(s: Server) {
    forall t | t in s.threads && s.threads[t].Inserting? :: s.threads[t].c !in s.data && s.threads[t].c !in s.removed
  }

  predicate LockInv(s: Server) {
    && ListMatchesData(s) && MutexInv(s) && TokenInv(s) && IteratorsInv(s) && FreshInv(s)
    && (s.mutex.Some? ==> s.mutex.value in s.threads)
  }

  /** A step moves only the thread that takes it. */
  predicate OthersStay(s: Server, t: Tid, r: Server) {
    && (forall u | u in s.threads :: u != t ==> u in r.threads && r.threads[u] == s.threads[u])
    && (forall u | u in r.threads :: u != t ==> u in s.threads)
  }

  lemma StepMovesOne(s: Server, t: Tid, step: Step)
    requires Enabled(s, t, step)
    ensures OthersStay(s, t, Apply(s, t, step))
  {
    hide Enabled, NextPc, NextData, NextConns, Removes;
  }

  /** What a step does to the thread that takes it and to the two locks. */
  lemma StepParts(s: Server, t: Tid, step: Step)
    requires Enabled(s, t, step)
    ensures var r := Apply(s, t, step);
            && (if step.Exit? then t !in r.threads else t in r.threads && r.threads[t] == NextPc(s, t, step))
            && r.mutex == (if Locks(step) then Some(t) else if Unlocks(step) then None else s.mutex)
            && r.accepting == (step.TakeToken? || (s.accepting && !step.RemoveAll?))
  {
    hide Enabled, NextPc, NextData, NextConns, Removes;
  }

  /** Steps that operate on a connection find it. */
  lemma OperatesOnExisting(s: Server, t: Tid, step: Step)
    requires Enabled(s, t, step) && ChangesCounters(step)
    ensures t in s.threads && Under(s, t) in s.data
  {
    hide Under;
  }

  /** Only two steps change the list or the set of connections. */
  lemma StepKeepsList(s: Server, t: Tid, step: Step)
    requires Enabled(s, t, step) && !step.Insert? && !step.RemoveOne?
    ensures var r := Apply(s, t, step);
            r.conns == s.conns && r.data.Keys == s.data.Keys && r.removed == s.removed
  {
    if ChangesCounters(step) {
      OperatesOnExisting(s, t, step);
    }
    hide Enabled, NextPc, Under, Operated;
  }

  /** What one thread's position says about the locks. */
  predicate LocksOk(s: Server, t: Tid) {
    && (t in s.threads ==> (HoldsMutex(s.threads[t]) <==> s.mutex == Some(t)))
    && (s.mutex == Some(t) ==> t in s.threads)
    && (t in s.threads && InSection(s.threads[t]) ==> s.accepting)
  }

  predicate InSectionAt(s: Server, t: Tid) { t in s.threads && InSection(s.threads[t]) }

  function Before(s: Server, t: Tid): Pc { if t in s.threads then s.threads[t] else Idle }

  /** Which steps take and give up the two locks. */
  lemma PositionLocks(s: Server, t: Tid, step: Step)
    requires Enabled(s, t, step) && !step.Exit?
    ensures var p, q := Before(s, t), NextPc(s, t, step);
            && (HoldsMutex(q) <==> Locks(step) || (HoldsMutex(p) && !Unlocks(step)))
            && (InSection(q) <==> step.TakeToken? || (InSection(p) && !step.RemoveAll? && !step.Throw?))
            && (Locks(step) ==> s.mutex.None?) && (Unlocks(step) ==> HoldsMutex(p))
            && (step.TakeToken? ==> !s.accepting) && (step.RemoveAll? ==> InSection(p))
  {
    hide Removes, Exists, CheckDone, Under;
  }

  lemma ExitIsIdle(s: Server, t: Tid)
    requires Enabled(s, t, Exit)
    ensures Before(s, t) == Idle
  {}

  lemma StepLocks(s: Server, t: Tid, step: Step)
    requires Enabled(s, t, step) && LocksOk(s, t)
    ensures var r := Apply(s, t, step);
            && LocksOk(r, t)
            && (r.mutex == s.mutex || (s.mutex.None? && r.mutex == Some(t)) || (s.mutex == Some(t) && r.mutex.None?))
            && (InSectionAt(r, t) ==> InSectionAt(s, t) || (step.TakeToken? && !s.accepting))
            && (r.accepting != s.accepting ==> step.TakeToken? || (InSectionAt(s, t) && !InSectionAt(r, t)))
            && (s.accepting && !r.accepting ==> InSectionAt(s, t) && !InSectionAt(r, t))
  {
    if step.Exit? {
      ExitIsIdle(s, t);
    } else {
      PositionLocks(s, t, step);
    }
    hide Apply, Enabled, NextPc, Locks, Unlocks;
    StepParts(s, t, step);
  }

  lemma PositionIterator(s: Server, t: Tid, step: Step)
    requires Enabled(s, t, step) && !step.Exit? && (t in s.threads ==> IteratorOk(s.threads[t], |s.conns|))
    ensures step.Insert? ==> NextPc(s, t, step) == Reading(0)
    ensures step.RemoveOne? ==>
              && At(s, t).i < |s.conns|
              && NextPc(s, t, step) == Removing(if Removes(s, t, step) then 0 else At(s, t).i + 1)
    ensures !step.RemoveOne? ==> IteratorOk(NextPc(s, t, step), |s.conns|)
  {
    hide Removes, Exists, Under;
  }

  lemma StepIterator(s: Server, t: Tid, step: Step)
    requires Enabled(s, t, step) && (t in s.threads ==> IteratorOk(s.threads[t], |s.conns|))
    ensures var r := Apply(s, t, step);
            t in r.threads ==> IteratorOk(r.threads[t], |r.conns|)
  {
    hide Enabled, NextPc, NextData, Exists, CheckDone, Under;
    if !step.Exit? {
      PositionIterator(s, t, step);
    }
  }

  lemma PositionInserts(s: Server, t: Tid, step: Step)
    requires Enabled(s, t, step) && !step.Exit?
    ensures NextPc(s, t, step).Inserting? ==>
              step.AcceptOne? && NextPc(s, t, step).c == step.c && step.c !in s.data && step.c !in s.removed
  {
    hide Removes, Exists, CheckDone, Under;
  }

  lemma StepFresh(s: Server, t: Tid, step: Step)
    requires Enabled(s, t, step)
    ensures var r := Apply(s, t, step);
            t in r.threads && r.threads[t].Inserting? ==> r.threads[t].c !in r.data && r.threads[t].c !in r.removed
  {
    hide Apply, Enabled, NextPc;
    StepParts(s, t, step);
    if !step.Exit? {
      PositionInserts(s, t, step);
    }
    if step.AcceptOne? {
      StepKeepsList(s, t, step);
    }
  }

  /** The two steps that change the list are taken with both locks, so nobody else walks over it. */
  lemma ChangersAreAlone(s: Server, t: Tid, step: Step, u: Tid)
    requires LockInv(s) && Enabled(s, t, step) && (step.Insert? || step.RemoveOne?)
    requires u in s.threads && u != t
    ensures InSection(At(s, t)) && HoldsMutex(At(s, t)) && s.accepting && s.mutex == Some(t)
    ensures !HoldsMutex(s.threads[u]) && !InSection(s.threads[u]) && !Walks(s.threads[u])
    ensures forall n, k :: IteratorOk(s.threads[u], n) == IteratorOk(s.threads[u], k)
  {}

  lemma ListStep(s: Server, t: Tid, step: Step)
    requires LockInv(s) && Enabled(s, t, step)
    ensures ListMatchesData(Apply(s, t, step))
  {
    if step.RemoveOne? {
      RemoveKeepsList(s, t);
    } else if step.Insert? {
      InsertKeepsList(s, t);
    } else {
      hide Apply;
      StepKeepsList(s, t, step);
    }
  }

  lemma RemoveEffect(s: Server, t: Tid)
    requires Enabled(s, t, RemoveOne)
    ensures At(s, t).i < |s.conns| && Under(s, t) == s.conns[At(s, t).i] && Under(s, t) in s.data
    ensures var r, c := Apply(s, t, RemoveOne), Under(s, t);
            if CheckDone(s.data[c]) then
              && r.conns == Without(s.conns, At(s, t).i) && r.data == s.data - {c}
              && r.removed == s.removed[c := s.data[c]]
            else r.conns == s.conns && r.data == s.data && r.removed == s.removed
  {}

  lemma RemoveKeepsList(s: Server, t: Tid)
    requires ListMatchesData(s) && Enabled(s, t, RemoveOne)
    ensures ListMatchesData(Apply(s, t, RemoveOne))
  {
    RemoveEffect(s, t);
    var i := At(s, t).i;
    hide Apply, Enabled, Without;
    WithoutKeeps(s.conns, i);
  }

  lemma InsertKeepsList(s: Server, t: Tid)
    requires LockInv(s) && Enabled(s, t, Insert)
    ensures ListMatchesData(Apply(s, t, Insert))
  {}

  lemma LocksStep(s: Server, t: Tid, step: Step)
    requires LockInv(s) && Enabled(s, t, step)
    ensures MutexInv(Apply(s, t, step)) && TokenInv(Apply(s, t, step))
    ensures var r := Apply(s, t, step); r.mutex.Some? ==> r.mutex.value in r.threads
  {
    hide Apply, ListMatchesData, IteratorsInv, FreshInv;
    StepMovesOne(s, t, step);
    StepLocks(s, t, step);
  }

  lemma IteratorStep(s: Server, t: Tid, step: Step)
    requires LockInv(s) && Enabled(s, t, step)
    ensures IteratorsInv(Apply(s, t, step)) && FreshInv(Apply(s, t, step))
  {
    hide Apply;
    var r := Apply(s, t, step);
    StepMovesOne(s, t, step);
    StepIterator(s, t, step);
    StepFresh(s, t, step);
    forall u | u in r.threads && u != t
      ensures IteratorOk(r.threads[u], |r.conns|)
      ensures r.threads[u].Inserting? ==> r.threads[u].c !in r.data && r.threads[u].c !in r.removed
    {
      if step.Insert? || step.RemoveOne? {
        ChangersAreAlone(s, t, step, u);
        assert IteratorOk(s.threads[u], |s.conns|) == IteratorOk(s.threads[u], |r.conns|);
      } else {
        StepKeepsList(s, t, step);
      }
    }
  }

  /** Mutual exclusion and the list invariants, kept by every step of every thread. */
  lemma LockStep(s: Server, t: Tid, step: Step)
    requires LockInv(s) && Enabled(s, t, step)
    ensures LockInv(Apply(s, t, step))
  {
    hide Apply;
    ListStep(s, t, step);
    LocksStep(s, t, step);
    IteratorStep(s, t, step);
  }

  /**
   * While a thread walks over the list, no step of another thread changes the list, so neither the
   * unlocked walks nor the locked scan see it change under them.
   */
  lemma WalksAreStable(s: Server, t: Tid, step: Step, u: Tid)
    requires LockInv(s) && Enabled(s, t, step)
    requires u in s.threads && u != t && (Walks(s.threads[u]) || InSection(s.threads[u]))
    ensures Apply(s, t, step).conns == s.conns && Apply(s, t, step).data.Keys == s.data.Keys
  {
    hide Apply;
    if step.Insert? || step.RemoveOne? {
      ChangersAreAlone(s, t, step, u);
    } else {
      StepKeepsList(s, t, step);
    }
  }
}
