/**
 * The counters of the dispatch protocol over every interleaving: conservation per connection, the lifetime
 * of connections that threads work for, and the server-wide number of pending requests.
 */
module DispatchAccounting {
  import opened EhsConnectionState
  import opened Lists
  import opened Dispatch

  // ----- counting threads

  /** Positions that matter for the counters. */
  datatype Kind = Works(c: ConnId) | Takes | Announces

  predicate Is(p: Pc, k: Kind) {
    match k
    case Works(c) => WorksFor(p, c)
    case Takes => p.Took? || p.Taking?
    case Announces => p.Announcing? || p.Storing?
  }

  function Where(threads: map<Tid, Pc>, k: Kind): set<Tid> { set t | t in threads && Is(threads[t], k) }

  function Count(threads: map<Tid, Pc>, k: Kind): nat { |Where(threads, k)| }

  function One(b: bool): nat { if b then 1 else 0 }

  predicate IsAt(s: Server, t: Tid, k: Kind) { t in s.threads && Is(s.threads[t], k) }

  /** A step changes a count by what the thread that takes it was and is. */
  lemma CountStep(s: Server, t: Tid, step: Step, k: Kind)
    requires Enabled(s, t, step)
    ensures var r := Apply(s, t, step);
            Count(r.threads, k) == Count(s.threads, k) + One(IsAt(r, t, k)) - One(IsAt(s, t, k))
  {
    hide Apply, Enabled, Is;
    var r := Apply(s, t, step);
    StepMovesOne(s, t, step);
    var before, after := Where(s.threads, k), Where(r.threads, k);
    assert after - {t} == before - {t};
    SwapOne(before, after, t);
  }

  lemma SwapOne(before: set<Tid>, after: set<Tid>, t: Tid)
    requires after - {t} == before - {t}
    ensures |after| == |before| + One(t in after) - One(t in before)
  {
    assert |before| == |before - {t}| + One(t in before);
    assert |after| == |after - {t}| + One(t in after);
  }

  function InFlight(s: Server, c: ConnId): nat { Count(s.threads, Works(c)) }

  lemma NobodyWorks(s: Server, c: ConnId)
    requires forall t | t in s.threads :: !WorksFor(s.threads[t], c)
    ensures InFlight(s, c) == 0
  {
    assert Where(s.threads, Works(c)) == {};
  }

  lemma SomebodyWorks(s: Server, c: ConnId, t: Tid)
    requires IsAt(s, t, Works(c))
    ensures InFlight(s, c) > 0
  {
    assert t in Where(s.threads, Works(c));
  }

  // ----- the counters of every connection

  /** A thread that has handed over the current request of `c` and not created the next one. */
  predicate HandsOver(s: Server, t: Tid, c: ConnId) {
    && t in s.threads
    && var p := s.threads[t];
    match p
    case Announcing(i) => i < |s.conns| && s.conns[i] == c
    case Storing(i, _) => i < |s.conns| && s.conns[i] == c
    case Renewing(i) => i < |s.conns| && s.conns[i] == c
    case _ => false
  }

  /** A connection that was deleted had been found done, with nothing in the middle of being handed over. */
  predicate Deleted(c: Conn) { CheckDone(c) && !c.handedOver }

  ghost predicate CountsInv(s: Server) {
    && (forall c | c in s.data :: Counts(s.data[c], InFlight(s, c)))
    && (forall c | c in s.removed :: Counts(s.removed[c], InFlight(s, c)) && Deleted(s.removed[c]))
  }

  predicate Working(p: Pc) { p.Took? || p.Taking? || p.Routing? || p.Sending? }

  /** A position whose code still uses the connection. */
  predicate Refers(p: Pc) { Working(p) || p.Finishing? }

  /** Threads refer to connections that exist or existed. */
  predicate KnownInv(s: Server) {
    forall t | t in s.threads :: Known(s, s.threads[t])
  }

  predicate Known(s: Server, p: Pc) {
    Refers(p) ==> p.c in s.data || p.c in s.removed
  }

  /** A current request is handed over exactly while a thread is between the two steps that do it. */
  ghost predicate HandOverInv(s: Server) {
    && (forall t, c | HandsOver(s, t, c) :: c in s.data && s.data[c].handedOver)
    && (forall c | c in s.data && s.data[c].handedOver :: exists t :: HandsOver(s, t, c))
  }

  ghost predicate Inv(s: Server) { LockInv(s) && CountsInv(s) && KnownInv(s) && HandOverInv(s) }

  // ----- what one step does to the connections

  /** What an operation on a connection does to the number of threads working for the connection. */
  function Delta(step: Step, d: Conn): int {
    if step.ScanOne? && d.queue != [] then 1 else if step.Respond? || step.RouteFails? then -1 else 0
  }

  lemma CounterEffect(s: Server, t: Tid, step: Step)
    requires Enabled(s, t, step) && ChangesCounters(step)
    ensures var r := Apply(s, t, step); var c := Under(s, t);
            && c in s.data
            && r.data == s.data[c := Operated(step, s.data[c])] && r.conns == s.conns && r.removed == s.removed
  {
    OperatesOnExisting(s, t, step);
    hide Enabled, NextPc, Under, Operated;
  }

  /** A scan that finds a request. */
  predicate TakesOne(s: Server, t: Tid, step: Step) {
    step.ScanOne? && t in s.threads && Under(s, t) in s.data && s.data[Under(s, t)].queue != []
  }

  lemma WorksBefore(s: Server, t: Tid, step: Step)
    requires Enabled(s, t, step)
    ensures var p := Before(s, t);
            && (Working(p) <==>
                  step.LoadTaken? || step.CountTaken? || step.Route? || step.RouteFails? || step.Respond?)
            && (Working(p) || p.Finishing? ==> p.c == Under(s, t))
            && (p.Finishing? <==> step.Finish?) && (step.Respond? ==> p.c in s.data)
            && (step.Spawn? <==> t !in s.threads)
  {
    hide Removes, CheckDone;
  }

  lemma WorksAfter(s: Server, t: Tid, step: Step)
    requires Enabled(s, t, step) && !step.Exit?
    ensures var p, q := Before(s, t), NextPc(s, t, step);
            && (Working(q) <==> TakesOne(s, t, step) || step.LoadTaken? || step.CountTaken? || step.Route?)
            && (TakesOne(s, t, step) ==> q.c == Under(s, t))
            && (Working(p) && Working(q) ==> q.c == p.c)
            && (q.Finishing? <==> step.Respond?) && (q.Finishing? && Working(p) ==> q.c == p.c)
  {
    if step.ScanOne? {
      OperatesOnExisting(s, t, step);
    }
    hide Removes, CheckDone, Under, Exists;
  }

  /** When a thread starts to work for a connection, goes on and stops. */
  lemma PositionWorks(s: Server, t: Tid, step: Step)
    requires Enabled(s, t, step) && !step.Exit?
    ensures var p, q := Before(s, t), NextPc(s, t, step);
            && (Working(q) <==> TakesOne(s, t, step) || step.LoadTaken? || step.CountTaken? || step.Route?)
            && (Working(p) <==>
                  step.LoadTaken? || step.CountTaken? || step.Route? || step.RouteFails? || step.Respond?)
            && (TakesOne(s, t, step) ==> q.c == Under(s, t))
            && (Working(p) && Working(q) ==> q.c == p.c)
            && (Working(p) || p.Finishing? ==> p.c == Under(s, t))
            && (q.Finishing? <==> step.Respond?) && (p.Finishing? <==> step.Finish?)
            && (q.Finishing? ==> q.c == p.c && p.c in s.data)
            && (step.Spawn? <==> t !in s.threads)
  {
    hide Enabled, NextPc, Under;
    WorksBefore(s, t, step);
    WorksAfter(s, t, step);
  }

  lemma CounterWork(s: Server, t: Tid, step: Step, c: ConnId)
    requires Enabled(s, t, step) && ChangesCounters(step) && Under(s, t) in s.data
    ensures var r := Apply(s, t, step);
            One(IsAt(r, t, Works(c))) - One(IsAt(s, t, Works(c)))
            == if c == Under(s, t) then Delta(step, s.data[c]) else 0
  {
    hide Apply, Enabled, NextPc, Under, Locks, Unlocks;
    PositionWorks(s, t, step);
    StepParts(s, t, step);
  }

  /** All other steps leave the work for every connection alone. */
  lemma OtherWork(s: Server, t: Tid, step: Step, c: ConnId)
    requires Enabled(s, t, step) && !ChangesCounters(step)
    ensures One(IsAt(Apply(s, t, step), t, Works(c))) == One(IsAt(s, t, Works(c)))
  {
    hide Apply, Enabled, NextPc, Under, Locks, Unlocks;
    if step.Exit? {
      ExitIsIdle(s, t);
    } else {
      PositionWorks(s, t, step);
    }
    StepParts(s, t, step);
  }

  /** Apart from the list changes, they leave the connections alone too. */
  lemma OtherEffect(s: Server, t: Tid, step: Step)
    requires Enabled(s, t, step) && !ChangesCounters(step) && !step.Insert? && !step.RemoveOne?
    ensures Apply(s, t, step).data == s.data
  {
    hide Enabled, NextPc, Under, Operated;
  }

  lemma InsertEffect(s: Server, t: Tid)
    requires Enabled(s, t, Insert)
    ensures var r := Apply(s, t, Insert); var c := At(s, t).c;
            r.data == s.data[c := NEW] && r.conns == s.conns + [c] && r.removed == s.removed
  {
    hide Enabled, NextPc, Under, Operated;
  }

  // ----- counts over a step

  lemma CounterMoves(d: Conn, n: nat, close: bool)
    requires Counts(d, n)
    ensures d.queue != [] ==> Counts(Popped(d), n + 1)
    ensures n > 0 ==> Counts(Responded(d, close), n - 1) && Counts(d.(abandoned := d.abandoned + 1), n - 1)
    ensures Counts(DoneReading(d, close), n) && Counts(Replied(d), n)
  {}

  lemma CounterRenewals(d: Conn, n: nat)
    requires Counts(d, n)
    ensures d.requests > 0 && !d.handedOver ==> Counts(Pushed(d), n)
    ensures d.requests == 0 || d.handedOver ==> Counts(Renewed(d), n)
  {}

  lemma OperationCounts(step: Step, d: Conn, n: nat, after: nat)
    requires Counts(d, n) && ChangesCounters(step) && after == n + Delta(step, d)
    requires step.Complete? ==> d.requests > 0 && !d.handedOver
    requires step.FirstRequest? ==> d.requests == 0
    requires step.Renew? ==> d.handedOver
    ensures Counts(Operated(step, d), after)
  {
    hide Counts, Popped, Responded, DoneReading, Replied, Pushed, Renewed;
    CounterMoves(d, n, if step.Respond? then step.close else false);
    CounterMoves(d, n, if step.ReadEnd? then step.disconnected else false);
    CounterRenewals(d, n);
  }

  lemma CounterWorkAll(s: Server, t: Tid, step: Step)
    requires Enabled(s, t, step) && ChangesCounters(step) && Under(s, t) in s.data
    ensures var c0 := Under(s, t);
            forall c ::
              InFlight(Apply(s, t, step), c) == InFlight(s, c) + if c == c0 then Delta(step, s.data[c0]) else 0
  {
    assert t in s.threads;
    hide Apply, Enabled, Delta, Under;
    forall c
      ensures InFlight(Apply(s, t, step), c)
              == InFlight(s, c) + if c == Under(s, t) then Delta(step, s.data[Under(s, t)]) else 0
    {
      CountStep(s, t, step, Works(c));
      CounterWork(s, t, step, c);
    }
  }

  lemma CounterStep(s: Server, t: Tid, step: Step)
    requires Inv(s) && Enabled(s, t, step) && ChangesCounters(step)
    ensures CountsInv(Apply(s, t, step))
  {
    hide Apply, Enabled, Operated, Delta, Counts, Under, LockInv, KnownInv, HandOverInv, Deleted, InFlight;
    IsThread(s, t, step);
    var c0, r := Under(s, t), Apply(s, t, step);
    CounterEffect(s, t, step);
    StepHandsOver(s, t, step);
    CounterWorkAll(s, t, step);
    OperationCounts(step, s.data[c0], InFlight(s, c0), InFlight(r, c0));
    forall c | c in r.data ensures Counts(r.data[c], InFlight(r, c)) {}
    forall c | c in r.removed ensures Counts(r.removed[c], InFlight(r, c)) && Deleted(r.removed[c]) {
      RemovedIsGone(s, c);
    }
  }

  lemma IsThread(s: Server, t: Tid, step: Step)
    requires Enabled(s, t, step) && ChangesCounters(step)
    ensures t in s.threads
  {}

  lemma RemovedIsGone(s: Server, c: ConnId)
    requires LockInv(s) && c in s.removed
    ensures c !in s.data
  {}

  /** What is known about the current request of the connection where a step handles it. */
  lemma StepHandsOver(s: Server, t: Tid, step: Step)
    requires Inv(s) && Enabled(s, t, step) && ChangesCounters(step)
    ensures Under(s, t) in s.data
    ensures step.Complete? ==> s.data[Under(s, t)].requests > 0 && !s.data[Under(s, t)].handedOver
    ensures step.FirstRequest? ==> s.data[Under(s, t)].requests == 0
    ensures step.Renew? ==> s.data[Under(s, t)].handedOver
  {
    if step.Renew? {
      assert HandsOver(s, t, Under(s, t));
    } else if step.Complete? {
      NotHandedOver(s, t, Under(s, t));
    }
  }

  /** While a thread is in the section without handing a request over, nothing is being handed over. */
  lemma NotHandedOver(s: Server, t: Tid, c: ConnId)
    requires LockInv(s) && HandOverInv(s) && t in s.threads && InSection(s.threads[t]) && c in s.data
    requires !s.threads[t].Announcing? && !s.threads[t].Storing? && !s.threads[t].Renewing?
    ensures !s.data[c].handedOver
  {}

  lemma OtherStep(s: Server, t: Tid, step: Step)
    requires Inv(s) && Enabled(s, t, step) && !ChangesCounters(step) && !step.Insert? && !step.RemoveOne?
    ensures CountsInv(Apply(s, t, step))
  {
    hide Apply, Enabled, Counts;
    var r := Apply(s, t, step);
    OtherEffect(s, t, step);
    StepKeepsList(s, t, step);
    SameWork(s, t, step);
  }

  lemma SameWork(s: Server, t: Tid, step: Step)
    requires Enabled(s, t, step) && !ChangesCounters(step)
    ensures forall c :: InFlight(Apply(s, t, step), c) == InFlight(s, c)
  {
    hide Apply, Enabled;
    forall c ensures InFlight(Apply(s, t, step), c) == InFlight(s, c) {
      CountStep(s, t, step, Works(c));
      OtherWork(s, t, step, c);
    }
  }

  lemma InsertStep(s: Server, t: Tid)
    requires Inv(s) && Enabled(s, t, Insert)
    ensures CountsInv(Apply(s, t, Insert))
  {
    InsertEffect(s, t);
    SameWork(s, t, Insert);
    NobodyWorks(s, At(s, t).c);
  }

  lemma RemoveStep(s: Server, t: Tid)
    requires Inv(s) && Enabled(s, t, RemoveOne)
    ensures CountsInv(Apply(s, t, RemoveOne))
  {
    RemoveEffect(s, t);
    SameWork(s, t, RemoveOne);
    NotHandedOver(s, t, s.conns[At(s, t).i]);
  }

  lemma CountsStep(s: Server, t: Tid, step: Step)
    requires Inv(s) && Enabled(s, t, step)
    ensures CountsInv(Apply(s, t, step))
  {
    hide Apply, Enabled, Inv, CountsInv;
    if ChangesCounters(step) {
      CounterStep(s, t, step);
    } else if step.Insert? {
      InsertStep(s, t);
    } else if step.RemoveOne? {
      RemoveStep(s, t);
    } else {
      OtherStep(s, t, step);
    }
  }

  // ----- the other invariants over a step

  lemma StepForgetsNone(s: Server, t: Tid, step: Step)
    requires Enabled(s, t, step)
    ensures var r := Apply(s, t, step);
            forall c :: c in s.data || c in s.removed ==> c in r.data || c in r.removed
  {}

  lemma KnownStep(s: Server, t: Tid, step: Step)
    requires KnownInv(s) && Enabled(s, t, step)
    ensures KnownInv(Apply(s, t, step))
  {
    StepMovesOne(s, t, step);
    StepForgetsNone(s, t, step);
    var r := Apply(s, t, step);
    assert t in r.threads ==> !step.Exit? && r.threads[t] == NextPc(s, t, step);
    if t in r.threads {
      PositionWorks(s, t, step);
    }
    hide Apply, Enabled, NextPc;
  }

  lemma PositionHandsOver(s: Server, t: Tid, step: Step)
    requires Enabled(s, t, step) && !step.Exit?
    ensures var p, q := Before(s, t), NextPc(s, t, step);
            && (step.Complete? || step.Load? || step.Announce? ==> t in s.threads)
            && (q.Announcing? <==> step.Complete?) && (q.Storing? <==> step.Load?) && (q.Renewing? <==> step.Announce?)
            && (p.Announcing? <==> step.Load?) && (p.Storing? <==> step.Announce?) && (p.Renewing? <==> step.Renew?)
            && (step.Complete? ==> p.Parsing?)
            && (step.Complete? || step.Load? || step.Announce? ==> q.i == p.i)
            && (step.Spawn? ==> p == Idle)
  {
    hide Removes, CheckDone, Exists, Under;
  }

  /** Whether the stepping thread hands over the current request of `c` after the step. */
  lemma OwnHandOver(s: Server, t: Tid, step: Step, c: ConnId)
    requires Enabled(s, t, step)
    ensures HandsOver(Apply(s, t, step), t, c) <==>
              || (step.Complete? && c == Under(s, t) && At(s, t).i < |s.conns|)
              || ((step.Load? || step.Announce?) && HandsOver(s, t, c))
    ensures HandsOver(s, t, c) ==> step.Load? || step.Announce? || (step.Renew? && c == Under(s, t))
  {
    if step.Exit? {
      ExitIsIdle(s, t);
    } else {
      PositionHandsOver(s, t, step);
    }
    if step.Complete? || step.Load? || step.Announce? {
      StepKeepsList(s, t, step);
    }
    hide Enabled, NextPc, NextData, NextConns, Removes;
  }

  lemma OthersHandOver(s: Server, t: Tid, step: Step, u: Tid, c: ConnId)
    requires LockInv(s) && Enabled(s, t, step) && u != t
    ensures HandsOver(Apply(s, t, step), u, c) <==> HandsOver(s, u, c)
  {
    hide Apply, Enabled;
    StepMovesOne(s, t, step);
    if u in s.threads && InSection(s.threads[u]) {
      WalksAreStable(s, t, step, u);
    }
  }

  lemma OperatedFlag(step: Step, d: Conn)
    requires ChangesCounters(step)
    ensures Operated(step, d).handedOver
            == if step.Complete? then true else if step.Renew? || step.FirstRequest? then false else d.handedOver
  {}

  lemma HandOverFlag(s: Server, t: Tid, step: Step, c: ConnId)
    requires Enabled(s, t, step) && c in Apply(s, t, step).data
    ensures Apply(s, t, step).data[c].handedOver ==
      if step.Complete? && c == Under(s, t) then true
      else if (step.Renew? || step.FirstRequest?) && c == Under(s, t) then false
      else if step.Insert? && c == Under(s, t) then false
      else c in s.data && s.data[c].handedOver
  {
    if ChangesCounters(step) {
      CounterEffect(s, t, step);
      OperatedFlag(step, s.data[Under(s, t)]);
    } else if step.Insert? {
      InsertEffect(s, t);
      assert At(s, t).c == Under(s, t);
    } else if step.RemoveOne? {
      RemoveEffect(s, t);
    } else {
      OtherEffect(s, t, step);
    }
    hide Apply, Enabled, Under, Operated;
  }

  /** Where the section's steps that need a connection find it on the list. */
  lemma UnderIterator(s: Server, t: Tid, step: Step)
    requires LockInv(s) && Enabled(s, t, step) && (step.Complete? || step.Renew? || step.FirstRequest?)
    ensures At(s, t).i < |s.conns| && Under(s, t) == s.conns[At(s, t).i] && InSection(At(s, t))
    ensures step.Renew? ==> HandsOver(s, t, Under(s, t))
  {}

  lemma HandOverForward(s: Server, t: Tid, step: Step)
    requires Inv(s) && Enabled(s, t, step)
    ensures var r := Apply(s, t, step); forall u, c | HandsOver(r, u, c) :: c in r.data && r.data[c].handedOver
  {
    var r := Apply(s, t, step);
    forall u, c | HandsOver(r, u, c) ensures c in r.data && r.data[c].handedOver {
      HandOverForwardOne(s, t, step, u, c);
    }
  }

  lemma HandOverForwardOne(s: Server, t: Tid, step: Step, u: Tid, c: ConnId)
    requires Inv(s) && Enabled(s, t, step) && HandsOver(Apply(s, t, step), u, c)
    ensures var r := Apply(s, t, step); c in r.data && r.data[c].handedOver
  {
    hide Apply, Enabled, CountsInv, KnownInv;
    var r := Apply(s, t, step);
    if u == t {
      OwnHandOver(s, t, step, c);
      StepKeepsList(s, t, step);
      if step.Complete? {
        EnabledUnder(s, t, step);
      }
    } else {
      OthersHandOver(s, t, step, u, c);
      StepMovesOne(s, t, step);
      assert c in s.data && InSection(s.threads[u]);
      WalksAreStable(s, t, step, u);
      SectionIsAlone(s, t, step, u);
    }
    HandOverFlag(s, t, step, c);
  }

  lemma EnabledUnder(s: Server, t: Tid, step: Step)
    requires Enabled(s, t, step) && step.Complete?
    ensures Under(s, t) in s.data
  {}

  /** Steps that change the flag are taken inside the section, so by no second thread. */
  lemma SectionIsAlone(s: Server, t: Tid, step: Step, u: Tid)
    requires LockInv(s) && Enabled(s, t, step) && u in s.threads && u != t && InSection(s.threads[u])
    ensures !step.Complete? && !step.Renew? && !step.FirstRequest? && !step.Insert? && !step.RemoveOne?
  {}

  lemma HandOverBackwardOne(s: Server, t: Tid, step: Step, c: ConnId) returns (u: Tid)
    requires Inv(s) && Enabled(s, t, step)
    requires c in Apply(s, t, step).data && Apply(s, t, step).data[c].handedOver
    ensures HandsOver(Apply(s, t, step), u, c)
  {
    assert step.Complete? ==> t in s.threads;
    hide Apply, Enabled, CountsInv, KnownInv;
    HandOverFlag(s, t, step, c);
    if step.Complete? && c == Under(s, t) {
      UnderIterator(s, t, step);
      u := t;
      OwnHandOver(s, t, step, c);
    } else {
      u :| HandsOver(s, u, c);
      if u == t {
        OwnHandOver(s, t, step, c);
      } else {
        OthersHandOver(s, t, step, u, c);
      }
    }
  }

  lemma HandOverStep(s: Server, t: Tid, step: Step)
    requires Inv(s) && Enabled(s, t, step)
    ensures HandOverInv(Apply(s, t, step))
  {
    hide Apply, Enabled, Inv;
    HandOverForward(s, t, step);
    var r := Apply(s, t, step);
    forall c | c in r.data && r.data[c].handedOver ensures exists u :: HandsOver(r, u, c) {
      var u := HandOverBackwardOne(s, t, step, c);
    }
  }

  /** The whole invariant, kept by every step of every thread. */
  lemma InvStep(s: Server, t: Tid, step: Step)
    requires Inv(s) && Enabled(s, t, step)
    ensures Inv(Apply(s, t, step))
  {
    LockStep(s, t, step);
    CountsStep(s, t, step);
    KnownStep(s, t, step);
    HandOverStep(s, t, step);
    hide Apply;
  }

  // ----- runs

  /** A run: which thread takes which step. */
  datatype Move = Move(t: Tid, step: Step)

  predicate Possible(s: Server, run: seq<Move>)
    decreases |run|, 0
  {
    run != [] ==>
      var n := |run| - 1;
      Possible(s, run[..n]) && Enabled(After(s, run[..n]), run[n].t, run[n].step)
  }

  function After(s: Server, run: seq<Move>): Server
    requires Possible(s, run)
    decreases |run|, 1
  {
    if run == [] then s
    else var n := |run| - 1; Apply(After(s, run[..n]), run[n].t, run[n].step)
  }

  lemma {:induction false} InvRun(s: Server, run: seq<Move>)
    requires Inv(s) && Possible(s, run)
    ensures Inv(After(s, run))
    decreases |run|
  {
    hide Inv, Apply, Enabled;
    if run != [] {
      var n := |run| - 1;
      InvRun(s, run[..n]);
      InvStep(After(s, run[..n]), run[n].t, run[n].step);
    }
  }

  lemma StartInv()
    ensures Inv(START)
  {}

  /**
   * Every interleaving from the start: at most one thread is in the accept section, every iterator stays
   * inside the list, and for each connection the requests handed over are queued, active or answered.
   */
  lemma EveryRun(run: seq<Move>)
    requires Possible(START, run)
    ensures Inv(After(START, run))
  {
    StartInv();
    InvRun(START, run);
  }
}
