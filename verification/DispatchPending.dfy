/**
 * The server-wide number of pending requests over every interleaving. It is incremented under the mutex of a
 * connection and decremented under the mutex of the server, so each of the two is a load and a store, and a
 * store can overwrite a value it has not loaded.
 */
module DispatchPending {
  import opened EhsConnectionState
  import opened Lists
  import opened Dispatch
  import opened DispatchAccounting
  import opened DispatchLifetime

  // ----- queue lengths

  function TotalQueued(conns: seq<ConnId>, data: map<ConnId, Conn>): nat
    requires forall c | c in conns :: c in data
  {
    if conns == [] then 0 else |data[conns[0]].queue| + TotalQueued(conns[1..], data)
  }

  lemma {:induction false} TotalFrame(conns: seq<ConnId>, data: map<ConnId, Conn>, other: map<ConnId, Conn>)
    requires forall c | c in conns :: c in data && c in other && |other[c].queue| == |data[c].queue|
    ensures TotalQueued(conns, other) == TotalQueued(conns, data)
  {
    if conns != [] {
      TotalFrame(conns[1..], data, other);
    }
  }

  lemma {:induction false} TotalUpdate(conns: seq<ConnId>, data: map<ConnId, Conn>, c: ConnId, d: Conn)
    requires Distinct(conns) && c in conns && forall x | x in conns :: x in data
    ensures TotalQueued(conns, data[c := d]) == TotalQueued(conns, data) + |d.queue| - |data[c].queue|
  {
    if conns[0] == c {
      TotalFrame(conns[1..], data, data[c := d]);
    } else {
      TotalUpdate(conns[1..], data, c, d);
    }
  }

  lemma {:induction false} TotalSplit(a: seq<ConnId>, b: seq<ConnId>, data: map<ConnId, Conn>)
    requires forall c | c in a + b :: c in data
    ensures (forall c | c in a :: c in data) && (forall c | c in b :: c in data)
    ensures TotalQueued(a + b, data) == TotalQueued(a, data) + TotalQueued(b, data)
  {
    assert forall c | c in a || c in b :: c in a + b;
    if a == [] {
      assert a + b == b;
    } else {
      assert (a + b)[1..] == a[1..] + b && (a + b)[0] == a[0];
      TotalSplit(a[1..], b, data);
    }
  }

  lemma TotalWithout(conns: seq<ConnId>, data: map<ConnId, Conn>, i: nat)
    requires i < |conns| && Distinct(conns) && forall c | c in conns :: c in data
    ensures (forall c | c in Without(conns, i) :: c in data - {conns[i]})
    ensures TotalQueued(Without(conns, i), data - {conns[i]}) == TotalQueued(conns, data) - |data[conns[i]].queue|
  {
    var a, b := conns[..i], conns[i + 1..];
    assert conns == a + ([conns[i]] + b);
    TotalSplit(a, [conns[i]] + b, data);
    TotalSplit([conns[i]], b, data);
    assert TotalQueued([conns[i]], data) == |data[conns[i]].queue| + TotalQueued([], data) by {
      assert [conns[i]][1..] == [];
    }
    TotalSplit(a, b, data);
    WithoutKeeps(conns, i);
    TotalFrame(Without(conns, i), data, data - {conns[i]});
  }

  function Total(s: Server): nat
    requires ListMatchesData(s)
  {
    TotalQueued(s.conns, s.data)
  }

  // ----- one step

  predicate Stores(step: Step) { step.Announce? || step.CountTaken? }

  /** By how much a store misses the value that is there: not at all, if it was the last one loaded. */
  function Skew(s: Server, t: Tid, step: Step): int
    requires Enabled(s, t, step)
  {
    if Stores(step) then At(s, t).loaded - s.pending else 0
  }

  /** What the number should be: requests queued but not yet counted, and taken but still counted, aside. */
  function Expected(s: Server): int
    requires ListMatchesData(s)
  {
    Total(s) - Count(s.threads, Announces) + Count(s.threads, Takes)
  }

  /** Once sent, an immediate reply stays on record. */
  lemma RepliesStay(s: Server, t: Tid, step: Step)
    requires LockInv(s) && Enabled(s, t, step) && NoReplies(Apply(s, t, step))
    ensures NoReplies(s)
  {
    var r := Apply(s, t, step);
    RemovedAreOthers(s);
    hide Apply, Enabled, Under, Operated, LockInv, CheckDone;
    if ChangesCounters(step) {
      CounterEffect(s, t, step);
      OperatedReplies(step, s.data[Under(s, t)]);
    } else if step.Insert? {
      InsertEffect(s, t);
      InsertIsNew(s, t);
    } else if step.RemoveOne? {
      RemoveEffect(s, t);
    } else {
      OtherEffect(s, t, step);
      StepKeepsList(s, t, step);
    }
    forall c | c in s.data ensures s.data[c].immediate == 0 {
      assert c in r.data || (c in r.removed && r.removed[c] == s.data[c]);
    }
    forall c | c in s.removed ensures s.removed[c].immediate == 0 {
      assert c in r.removed && r.removed[c] == s.removed[c];
    }
  }

  lemma OperatedReplies(step: Step, d: Conn)
    requires ChangesCounters(step)
    ensures Operated(step, d).immediate >= d.immediate
  {}

  lemma InsertIsNew(s: Server, t: Tid)
    requires LockInv(s) && Enabled(s, t, Insert)
    ensures t in s.threads && At(s, t).Inserting? && At(s, t).c !in s.data
  {}

  lemma RemovedAreOthers(s: Server)
    requires LockInv(s)
    ensures forall c | c in s.removed :: c !in s.data
  {}

  lemma PositionTakes(s: Server, t: Tid, step: Step)
    requires Enabled(s, t, step) && !step.Exit?
    ensures var p, q := Before(s, t), NextPc(s, t, step);
            && (q.Took? <==> TakesOne(s, t, step)) && (q.Taking? <==> step.LoadTaken?)
            && (p.Took? <==> step.LoadTaken?) && (p.Taking? <==> step.CountTaken?)
            && (step.LoadTaken? ==> q.loaded == s.pending)
  {
    hide Enabled, NextPc, Under;
    PositionLoads(s, t, step);
    PositionTook(s, t, step);
  }

  lemma PositionTook(s: Server, t: Tid, step: Step)
    requires Enabled(s, t, step) && !step.Exit?
    ensures NextPc(s, t, step).Took? <==> TakesOne(s, t, step)
  {
    if step.ScanOne? {
      OperatesOnExisting(s, t, step);
    }
    hide Removes, CheckDone, Under, Exists;
  }

  lemma PositionLoads(s: Server, t: Tid, step: Step)
    requires Enabled(s, t, step) && !step.Exit?
    ensures var p, q := Before(s, t), NextPc(s, t, step);
            && (q.Taking? <==> step.LoadTaken?) && (p.Took? <==> step.LoadTaken?) && (p.Taking? <==> step.CountTaken?)
            && (step.LoadTaken? ==> q.loaded == s.pending)
  {
    hide Removes, CheckDone, Under, Exists;
  }

  lemma PendingValue(s: Server, t: Tid, step: Step)
    requires Enabled(s, t, step)
    ensures Apply(s, t, step).pending
            == s.pending + One(step.Announce?) - One(step.CountTaken?) + Skew(s, t, step)
  {
    hide Enabled, NextPc, NextData, NextConns, Removes;
  }

  /** What a step does to the number and to the two places where it lags behind. */
  lemma PendingEffect(s: Server, t: Tid, step: Step)
    requires Enabled(s, t, step)
    ensures var r := Apply(s, t, step);
            && One(IsAt(r, t, Announces)) - One(IsAt(s, t, Announces)) == One(step.Complete?) - One(step.Announce?)
            && One(IsAt(r, t, Takes)) - One(IsAt(s, t, Takes)) == One(TakesOne(s, t, step)) - One(step.CountTaken?)
  {
    hide Apply, Enabled, NextPc, Under;
    StepParts(s, t, step);
    if step.Exit? {
      ExitIsIdle(s, t);
    } else {
      PositionTakes(s, t, step);
      PositionHandsOver(s, t, step);
    }
  }

  lemma OperatedQueue(step: Step, d: Conn)
    requires ChangesCounters(step)
    ensures |Operated(step, d).queue| - |d.queue| == One(step.Complete?) - One(step.ScanOne? && d.queue != [])
  {}

  lemma OperationKeepsList(s: Server, t: Tid, step: Step)
    requires ListMatchesData(s) && Enabled(s, t, step) && ChangesCounters(step)
    ensures ListMatchesData(Apply(s, t, step)) && Under(s, t) in s.data && Under(s, t) in s.conns
  {
    hide Apply, Enabled, Under, Operated;
    CounterEffect(s, t, step);
  }

  lemma QueuedByOperation(s: Server, t: Tid, step: Step)
    requires ListMatchesData(s) && Enabled(s, t, step) && ChangesCounters(step)
    ensures ListMatchesData(Apply(s, t, step))
    ensures Total(Apply(s, t, step)) - Total(s) == One(step.Complete?) - One(TakesOne(s, t, step))
  {
    hide Apply, Enabled, Under, Operated, TotalQueued;
    OperatesOnExisting(s, t, step);
    OperationKeepsList(s, t, step);
    CounterEffect(s, t, step);
    var c := Under(s, t);
    OperatedQueue(step, s.data[c]);
    TakesAsScanned(s, t, step);
    TotalUpdate(s.conns, s.data, c, Operated(step, s.data[c]));
  }

  lemma TakesAsScanned(s: Server, t: Tid, step: Step)
    requires Enabled(s, t, step) && ChangesCounters(step) && Under(s, t) in s.data
    ensures TakesOne(s, t, step) <==> step.ScanOne? && s.data[Under(s, t)].queue != []
  {
    OperatesOnExisting(s, t, step);
    hide Enabled, Under;
  }

  lemma QueuedByInsert(s: Server, t: Tid)
    requires LockInv(s) && Enabled(s, t, Insert)
    ensures ListMatchesData(Apply(s, t, Insert)) && Total(Apply(s, t, Insert)) == Total(s)
  {
    InsertKeepsList(s, t);
    InsertEffect(s, t);
    var r, c := Apply(s, t, Insert), At(s, t).c;
    assert c !in s.data;
    hide Apply, Enabled;
    assert forall x | x in s.conns :: x in r.conns;
    TotalSplit(s.conns, [c], r.data);
    assert [c][1..] == [] && TotalQueued([c], r.data) == 0;
    TotalFrame(s.conns, s.data, r.data);
  }

  lemma QueuedByRemoval(s: Server, t: Tid)
    requires LockInv(s) && Enabled(s, t, RemoveOne)
    requires CheckDone(s.data[Under(s, t)]) ==> s.data[Under(s, t)].queue == []
    ensures ListMatchesData(Apply(s, t, RemoveOne)) && Total(Apply(s, t, RemoveOne)) == Total(s)
  {
    RemoveKeepsList(s, t);
    RemoveEffect(s, t);
    var i := At(s, t).i;
    assert s.conns[i] == Under(s, t);
    hide Apply, Enabled, Without;
    TotalWithout(s.conns, s.data, i);
  }

  lemma QueuedEffect(s: Server, t: Tid, step: Step)
    requires LockInv(s) && Enabled(s, t, step)
    requires step.RemoveOne? ==> var d := s.data[Under(s, t)]; CheckDone(d) ==> d.queue == []
    ensures ListMatchesData(Apply(s, t, step))
    ensures Total(Apply(s, t, step)) - Total(s) == One(step.Complete?) - One(TakesOne(s, t, step))
  {
    hide Apply, Enabled;
    ListStep(s, t, step);
    if ChangesCounters(step) {
      QueuedByOperation(s, t, step);
    } else if step.Insert? {
      QueuedByInsert(s, t);
    } else if step.RemoveOne? {
      QueuedByRemoval(s, t);
    } else {
      OtherEffect(s, t, step);
      StepKeepsList(s, t, step);
    }
  }

  /** Without immediate replies a removed connection has nothing queued. */
  lemma RemovedIsEmpty(s: Server, t: Tid)
    requires Inv(s) && NoReplies(s) && Enabled(s, t, RemoveOne)
    ensures var d := s.data[Under(s, t)]; CheckDone(d) ==> d.queue == []
  {
    RemovalExact(s, t);
    assert s.data[Under(s, t)].immediate == 0;
  }

  /** How far the number is from what it should be changes by the skew of the step and nothing else. */
  lemma PendingStep(s: Server, t: Tid, step: Step)
    requires Inv(s) && Enabled(s, t, step) && NoReplies(Apply(s, t, step))
    ensures NoReplies(s) && ListMatchesData(s) && ListMatchesData(Apply(s, t, step))
    ensures Apply(s, t, step).pending - Expected(Apply(s, t, step)) == s.pending - Expected(s) + Skew(s, t, step)
  {
    assert LockInv(s);
    hide Apply, Enabled, Inv, LockInv, NoReplies, TakesOne, Total, IsAt, Count, Under, CheckDone, Skew;
    RepliesStay(s, t, step);
    if step.RemoveOne? {
      RemovedIsEmpty(s, t);
    }
    ListMatches(s);
    QueuedEffect(s, t, step);
    PendingValue(s, t, step);
    PendingEffect(s, t, step);
    CountStep(s, t, step, Announces);
    CountStep(s, t, step, Takes);
  }

  lemma ListMatches(s: Server)
    requires LockInv(s)
    ensures ListMatchesData(s)
  {}

  // ----- runs

  /** The sum of all skews. */
  function Drift(run: seq<Move>): int
    requires Possible(START, run)
    decreases |run|
  {
    if run == [] then 0
    else var n := |run| - 1; Drift(run[..n]) + Skew(After(START, run[..n]), run[n].t, run[n].step)
  }

  /**
   * The number at the end of every run without immediate error replies, exactly: off by what stores have
   * overwritten.
   */
  lemma {:induction false} PendingIsDrifted(run: seq<Move>)
    requires Possible(START, run) && NoReplies(After(START, run))
    ensures var s := After(START, run); ListMatchesData(s) && s.pending == Expected(s) + Drift(run)
    decreases |run|
  {
    if run == [] {
      assert Where(START.threads, Announces) == {} && Where(START.threads, Takes) == {};
    } else {
      var n := |run| - 1;
      EveryRun(run[..n]);
      hide Apply, Enabled, Inv, NoReplies, Expected, Skew, ListMatchesData;
      PendingStep(After(START, run[..n]), run[n].t, run[n].step);
      PendingIsDrifted(run[..n]);
    }
  }

  // ----- which stores overwrite

  /** Since the last step of `t` another thread has stored the number. */
  predicate Overtaken(run: seq<Move>, t: Tid)
    decreases |run|
  {
    run != [] &&
    var n := |run| - 1;
    run[n].t != t && (Stores(run[n].step) || Overtaken(run[..n], t))
  }

  /** A store of the run comes after a store of another thread that it has not seen: two updates overlap. */
  predicate Overlaps(run: seq<Move>)
    decreases |run|
  {
    run != [] &&
    var n := |run| - 1;
    (Stores(run[n].step) && Overtaken(run[..n], run[n].t)) || Overlaps(run[..n])
  }

  /** What a loaded value says about the present one, once the run so far is known. */
  predicate LoadOk(p: Pc, pending: int, overtaken: bool) {
    match p
    case Storing(_, loaded) => pending <= loaded && (pending < loaded <==> overtaken)
    case Taking(_, loaded) => pending >= loaded && (pending > loaded <==> overtaken)
    case _ => true
  }

  predicate LoadsOk(run: seq<Move>)
    requires Possible(START, run)
  {
    var s := After(START, run);
    forall t | t in s.threads :: LoadOk(s.threads[t], s.pending, Overtaken(run, t))
  }

  lemma {:induction false} LoadsRun(run: seq<Move>)
    requires Possible(START, run)
    ensures LoadsOk(run)
    decreases |run|
  {
    if run != [] {
      var n := |run| - 1;
      var s, m, r := After(START, run[..n]), run[n], After(START, run);
      LoadsRun(run[..n]);
      EveryRun(run[..n]);
      forall t | t in r.threads ensures LoadOk(r.threads[t], r.pending, Overtaken(run, t)) {
        LoadStep(s, m.t, m.step, t, run[..n]);
      }
    }
  }

  lemma LoadStep(s: Server, u: Tid, step: Step, t: Tid, before: seq<Move>)
    requires Inv(s) && Enabled(s, u, step) && t in Apply(s, u, step).threads
    requires forall x | x in s.threads :: LoadOk(s.threads[x], s.pending, Overtaken(before, x))
    ensures LoadOk(Apply(s, u, step).threads[t], Apply(s, u, step).pending,
                   u != t && (Stores(step) || Overtaken(before, t)))
  {
    if t == u {
      OwnLoad(s, u, step);
    } else {
      OtherLoad(s, u, step, t, Overtaken(before, t));
    }
    hide *;
  }

  lemma OwnLoad(s: Server, u: Tid, step: Step)
    requires Enabled(s, u, step) && u in Apply(s, u, step).threads
    ensures LoadOk(Apply(s, u, step).threads[u], Apply(s, u, step).pending, false)
  {
    hide Apply, Enabled, NextPc, Skew, Under;
    StepParts(s, u, step);
    PendingValue(s, u, step);
    PositionTakes(s, u, step);
    PositionHandsOver(s, u, step);
    StorePosition(s, u, step);
    if !Stores(step) {
      NoSkew(s, u, step);
    }
  }

  lemma NoSkew(s: Server, u: Tid, step: Step)
    requires Enabled(s, u, step) && !Stores(step)
    ensures Skew(s, u, step) == 0
  {}

  lemma OtherLoad(s: Server, u: Tid, step: Step, t: Tid, overtaken: bool)
    requires Inv(s) && Enabled(s, u, step) && u != t && t in Apply(s, u, step).threads
    requires u in s.threads ==> exists o :: LoadOk(s.threads[u], s.pending, o)
    requires t in s.threads ==> LoadOk(s.threads[t], s.pending, overtaken)
    ensures LoadOk(Apply(s, u, step).threads[t], Apply(s, u, step).pending, Stores(step) || overtaken)
  {
    assert LockInv(s);
    hide Apply, Enabled, Inv, LockInv, NextPc;
    StepMovesOne(s, u, step);
    PendingValue(s, u, step);
    StorePosition(s, u, step);
    if Stores(step) {
      OneOfEach(s, u, t);
    }
  }

  lemma StorePosition(s: Server, u: Tid, step: Step)
    requires Enabled(s, u, step)
    ensures step.Announce? ==> u in s.threads && At(s, u).Storing?
    ensures step.CountTaken? ==> u in s.threads && At(s, u).Taking?
    ensures step.Load? ==> NextPc(s, u, step).Storing? && NextPc(s, u, step).loaded == s.pending
  {}

  /** The token and the mutex leave room for one thread in each of the two updates. */
  lemma OneOfEach(s: Server, u: Tid, t: Tid)
    requires LockInv(s) && u in s.threads && t in s.threads && u != t
    ensures !(s.threads[u].Storing? && s.threads[t].Storing?) && !(s.threads[u].Taking? && s.threads[t].Taking?)
  {}

  /** A store has a skew if and only if it overwrites a store it has not seen. */
  lemma SkewExactly(run: seq<Move>)
    requires Possible(START, run) && run != []
    ensures var n := |run| - 1;
            Skew(After(START, run[..n]), run[n].t, run[n].step) != 0
            <==> Stores(run[n].step) && Overtaken(run[..n], run[n].t)
  {
    var n := |run| - 1;
    var s, m := After(START, run[..n]), run[n];
    LoadsRun(run[..n]);
    StorePosition(s, m.t, m.step);
    hide Enabled, Apply, Overtaken, Possible, After;
  }

  /** Up to any moment of the run the number was what it should be. */
  ghost predicate AlwaysExpected(run: seq<Move>)
    requires Possible(START, run)
    decreases |run|
  {
    && (var s := After(START, run); ListMatchesData(s) && s.pending == Expected(s))
    && (run != [] ==> AlwaysExpected(run[..|run| - 1]))
  }

  /**
   * In every run without immediate error replies `m_nRequestsPending` is at every moment the sum of all
   * queue lengths (but for a request just queued and one just taken), if and only if no two updates overlap.
   */
  lemma {:induction false} PendingIsTotal(run: seq<Move>)
    requires Possible(START, run) && NoReplies(After(START, run))
    ensures AlwaysExpected(run) <==> !Overlaps(run)
    ensures !Overlaps(run) ==> Drift(run) == 0
    decreases |run|
  {
    hide Apply, Enabled, Inv, LockInv, NoReplies, Expected, Skew, ListMatchesData, Overtaken, Stores;
    PendingIsDrifted(run);
    if run != [] {
      var n := |run| - 1;
      EveryRun(run[..n]);
      InvLocks(After(START, run[..n]));
      RepliesStay(After(START, run[..n]), run[n].t, run[n].step);
      SkewExactly(run);
      PendingIsTotal(run[..n]);
      PendingIsDrifted(run[..n]);
    }
  }

  lemma InvLocks(s: Server)
    requires Inv(s)
    ensures LockInv(s)
  {}
}
