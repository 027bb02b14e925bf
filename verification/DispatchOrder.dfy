/** Which requests the threads get: over every run, those of a connection one after the other, each of them once. */
module DispatchOrder {
  import opened EhsConnectionState
  import opened Lists
  import opened Dispatch
  import opened DispatchAccounting

  /** The request that the step hands to a thread, if it is one of connection `c`. */
  function Taken(s: Server, t: Tid, step: Step, c: ConnId): seq<nat> {
    if TakesOne(s, t, step) && Under(s, t) == c then [s.data[c].queue[0]] else []
  }

  /** The numbers of the requests of connection `c` that were handed to threads, in the order in which they were. */
  function TakenIds(run: seq<Move>, c: ConnId): seq<nat>
    requires Possible(START, run)
    decreases |run|
  {
    if run == [] then []
    else
      var n := |run| - 1;
      TakenIds(run[..n], c) + Taken(After(START, run[..n]), run[n].t, run[n].step, c)
  }

  /** 1, 2, ... */
  function UpTo(k: nat): seq<nat> { seq(k, i => i + 1) }

  /** How many requests of the connection have been completed by the reader. */
  function Completed(d: Conn): nat { if d.handedOver then d.requests else Max0(d.requests - 1) }

  predicate InOrder(s: Server, c: ConnId, ids: seq<nat>) {
    && (c in s.data ==> ids + s.data[c].queue == UpTo(Completed(s.data[c])))
    && (c in s.removed ==> ids + s.removed[c].queue == UpTo(Completed(s.removed[c])))
    && (c !in s.data && c !in s.removed ==> ids == [])
  }

  lemma OperationKeepsOrder(step: Step, d: Conn, ids: seq<nat>)
    requires ChangesCounters(step) && ids + d.queue == UpTo(Completed(d))
    requires step.Complete? ==> d.requests > 0 && !d.handedOver
    requires step.FirstRequest? ==> d.requests == 0 && !d.handedOver
    requires step.Renew? ==> d.handedOver
    ensures var e := Operated(step, d);
            ids + (if step.ScanOne? && d.queue != [] then [d.queue[0]] else []) + e.queue == UpTo(Completed(e))
  {
    assert ids + [] == ids;
    if step.Complete? {
      OneMore(d.requests - 1, ids, d.queue);
    } else if step.ScanOne? && d.queue != [] {
      assert ids + [d.queue[0]] + d.queue[1..] == ids + d.queue;
    }
    hide UpTo;
  }

  lemma OneMore(k: nat, ids: seq<nat>, queue: seq<nat>)
    requires ids + queue == UpTo(k)
    ensures ids + (queue + [k + 1]) == UpTo(k + 1)
  {
    assert UpTo(k + 1) == UpTo(k) + [k + 1];
  }

  lemma OrderStep(s: Server, t: Tid, step: Step, c: ConnId, ids: seq<nat>)
    requires Inv(s) && Enabled(s, t, step) && InOrder(s, c, ids)
    ensures InOrder(Apply(s, t, step), c, ids + Taken(s, t, step, c))
  {
    hide Apply, Enabled, Inv, InOrder, Taken;
    if ChangesCounters(step) {
      CountedStep(s, t, step, c, ids);
    } else {
      NoneTaken(s, t, step, c, ids);
      if step.Insert? {
        NewInOrder(s, t, c, ids);
      } else if step.RemoveOne? {
        RemovedInOrder(s, t, c, ids);
      } else {
        OtherInOrder(s, t, step, c, ids);
      }
    }
  }

  lemma NoneTaken(s: Server, t: Tid, step: Step, c: ConnId, ids: seq<nat>)
    requires !step.ScanOne?
    ensures ids + Taken(s, t, step, c) == ids
  {}

  lemma OtherInOrder(s: Server, t: Tid, step: Step, c: ConnId, ids: seq<nat>)
    requires Enabled(s, t, step) && !ChangesCounters(step) && !step.Insert? && !step.RemoveOne? && InOrder(s, c, ids)
    ensures InOrder(Apply(s, t, step), c, ids)
  {
    hide Apply, Enabled, UpTo, Completed;
    OtherEffect(s, t, step);
    StepKeepsList(s, t, step);
  }

  lemma RemovedInOrder(s: Server, t: Tid, c: ConnId, ids: seq<nat>)
    requires Enabled(s, t, RemoveOne) && InOrder(s, c, ids)
    ensures InOrder(Apply(s, t, RemoveOne), c, ids)
  {
    RemoveEffect(s, t);
    hide Apply, Enabled, CheckDone, UpTo, Completed, Under;
  }

  /** What a step takes from the connection it operates on, and from any other one. */
  lemma TakenIs(s: Server, t: Tid, step: Step, c: ConnId, ids: seq<nat>)
    requires Enabled(s, t, step) && ChangesCounters(step) && Under(s, t) in s.data
    ensures c != Under(s, t) ==> ids + Taken(s, t, step, c) == ids
    ensures c == Under(s, t) ==>
              Taken(s, t, step, c) == if step.ScanOne? && s.data[c].queue != [] then [s.data[c].queue[0]] else []
  {
    OperatesOnExisting(s, t, step);
    hide Enabled, Under;
  }

  lemma CountedStep(s: Server, t: Tid, step: Step, c: ConnId, ids: seq<nat>)
    requires Inv(s) && Enabled(s, t, step) && ChangesCounters(step) && InOrder(s, c, ids)
    ensures InOrder(Apply(s, t, step), c, ids + Taken(s, t, step, c))
  {
    assert t in s.threads by { OperatesOnExisting(s, t, step); }
    hide *;
    if c == Under(s, t) {
      OwnInOrder(s, t, step, ids);
    } else {
      NotOwnInOrder(s, t, step, c, ids);
    }
  }

  lemma NotOwnInOrder(s: Server, t: Tid, step: Step, c: ConnId, ids: seq<nat>)
    requires Enabled(s, t, step) && ChangesCounters(step) && t in s.threads && c != Under(s, t) && InOrder(s, c, ids)
    ensures InOrder(Apply(s, t, step), c, ids + Taken(s, t, step, c))
  {
    hide Apply, Enabled, Under, Operated, UpTo, Completed, Taken, ChangesCounters;
    CounterEffect(s, t, step);
    TakenIs(s, t, step, c, ids);
  }

  lemma OwnInOrder(s: Server, t: Tid, step: Step, ids: seq<nat>)
    requires Inv(s) && Enabled(s, t, step) && ChangesCounters(step) && t in s.threads && InOrder(s, Under(s, t), ids)
    ensures InOrder(Apply(s, t, step), Under(s, t), ids + Taken(s, t, step, Under(s, t)))
  {
    hide Apply, Enabled, Inv, Under, Operated, UpTo, Completed, Taken, ChangesCounters;
    var c := Under(s, t);
    CounterEffect(s, t, step);
    StepHandsOver(s, t, step);
    TakenIs(s, t, step, c, ids);
    if step.FirstRequest? {
      FirstIsNotHandedOver(s, t, step);
    }
    OperationKeepsOrder(step, s.data[c], ids);
    RemovedIsElsewhere(s, c);
  }

  lemma RemovedIsElsewhere(s: Server, c: ConnId)
    requires Inv(s) && c in s.data
    ensures c !in s.removed
  {}

  lemma FirstIsNotHandedOver(s: Server, t: Tid, step: Step)
    requires Inv(s) && Enabled(s, t, step) && step.FirstRequest?
    ensures Under(s, t) in s.data && !s.data[Under(s, t)].handedOver
  {
    EnabledFirst(s, t, step);
    NotHandedOver(s, t, Under(s, t));
  }

  lemma EnabledFirst(s: Server, t: Tid, step: Step)
    requires Enabled(s, t, step) && step.FirstRequest?
    ensures Under(s, t) in s.data && s.threads[t].Parsing?
  {}

  lemma NewInOrder(s: Server, t: Tid, c: ConnId, ids: seq<nat>)
    requires Inv(s) && Enabled(s, t, Insert) && InOrder(s, c, ids)
    ensures InOrder(Apply(s, t, Insert), c, ids)
  {
    InsertEffect(s, t);
    assert FreshInv(s) && At(s, t).Inserting?;
    hide Apply;
    assert UpTo(0) == [];
  }

  /**
   * Over every run: the requests of a connection that were handed to threads, followed by those in its queue, are
   * the requests 1, 2, and so on up to the last one completed, each once and in this order; also for a
   * connection that was deleted.
   */
  lemma {:induction false} EveryRequestInOrder(run: seq<Move>, c: ConnId)
    requires Possible(START, run)
    ensures InOrder(After(START, run), c, TakenIds(run, c))
    decreases |run|
  {
    if run != [] {
      var n := |run| - 1;
      EveryRequestInOrder(run[..n], c);
      EveryRun(run[..n]);
      OrderStep(After(START, run[..n]), run[n].t, run[n].step, c, TakenIds(run[..n], c));
    }
    hide Apply, Enabled, Inv, InOrder, Taken;
  }
}
