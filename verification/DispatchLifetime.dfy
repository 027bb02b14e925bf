/**
 * What outlives what in the dispatch protocol: connections and the threads that refer to them, and the
 * accept flag and the thread that set it.
 */
module DispatchLifetime {
  import opened EhsConnectionState
  import opened Lists
  import opened Dispatch
  import opened DispatchAccounting

  // ----- lifetime of connections

  /** No connection, alive or deleted, was sent an immediate error reply. */
  predicate NoReplies(s: Server) {
    && (forall c | c in s.data :: s.data[c].immediate == 0)
    && (forall c | c in s.removed :: s.removed[c].immediate == 0)
  }

  /**
   * Without immediate replies a connection lives as long as a thread has a request of it that is not
   * answered. (`Finishing` is not among these positions: see below.)
   */
  lemma WorkIsAlive(s: Server, t: Tid, c: ConnId)
    requires Inv(s) && NoReplies(s) && IsAt(s, t, Works(c))
    ensures c in s.data
  {
    assert Known(s, s.threads[t]);
    if c in s.removed {
      SomebodyWorks(s, c, t);
      NothingOutstanding(s.removed[c], InFlight(s, c));
    }
  }

  /**
   * The removal test in any reachable state, exactly: reading has ended and at most as many requests are
   * queued, with threads or abandoned as immediate replies were sent.
   */
  lemma RemovalExact(s: Server, t: Tid)
    requires Inv(s) && Enabled(s, t, RemoveOne)
    ensures var d := s.data[Under(s, t)];
            CheckDone(d) <==> d.doneReading && |d.queue| + InFlight(s, Under(s, t)) + d.abandoned <= d.immediate
  {
    NotHandedOver(s, t, Under(s, t));
    CheckDoneExact(s.data[Under(s, t)], InFlight(s, Under(s, t)));
  }

  /** A thread at the end of `AddResponse`, whose connection is gone. */
  predicate Dangling(s: Server, t: Tid, c: ConnId) {
    t in s.threads && s.threads[t] == Finishing(c) && c !in s.data
  }

  /** The step deletes connection `c`. */
  predicate Deletes(s: Server, u: Tid, step: Step, c: ConnId)
    requires Enabled(s, u, step)
  {
    Removes(s, u, step) && Under(s, u) == c
  }

  /**
   * When a connection is deleted under a thread that still has to finish `AddResponse`, exactly: the sweep
   * comes to it, reading has ended, and nothing but that thread is left to do for it.
   */
  lemma DeletedUnderThread(s: Server, u: Tid, step: Step, t: Tid, c: ConnId)
    requires Inv(s) && Enabled(s, u, step)
    requires t in s.threads && s.threads[t] == Finishing(c) && c in s.data
    ensures Deletes(s, u, step, c) <==>
              && step.RemoveOne? && Under(s, u) == c && s.data[c].doneReading
              && |s.data[c].queue| + InFlight(s, c) + s.data[c].abandoned <= s.data[c].immediate
    ensures c !in Apply(s, u, step).data <==> Deletes(s, u, step, c)
    ensures Deletes(s, u, step, c) ==> Dangling(Apply(s, u, step), t, c)
  {
    if step.RemoveOne? {
      RemovalExact(s, u);
      RemoveEffect(s, u);
      SectionDoesNotFinish(s, u, t);
      StepMovesOne(s, u, step);
    } else {
      OnlyRemovalForgets(s, u, step);
    }
    hide Apply, Enabled, Inv, Under, CheckDone;
  }

  lemma SectionDoesNotFinish(s: Server, u: Tid, t: Tid)
    requires Enabled(s, u, RemoveOne) && t in s.threads && s.threads[t].Finishing?
    ensures u != t
  {}

  lemma OnlyRemovalForgets(s: Server, u: Tid, step: Step)
    requires Enabled(s, u, step) && !step.RemoveOne?
    ensures forall c | c in s.data :: c in Apply(s, u, step).data
  {
    hide Enabled, NextPc, Under, Operated;
  }

  /** The next step of a thread that is finishing ends that, and no step makes a thread finish for nothing. */
  lemma FinishingMoves(s: Server, t: Tid, step: Step)
    requires Enabled(s, t, step)
    ensures t in s.threads && s.threads[t].Finishing? ==> step.Finish?
    ensures var r := Apply(s, t, step);
            t in r.threads && r.threads[t].Finishing? ==> r.threads[t].c in s.data && step.Respond?
  {
    hide Apply, Enabled, NextPc;
    StepParts(s, t, step);
    if step.Exit? {
      ExitIsIdle(s, t);
    } else {
      PositionWorks(s, t, step);
    }
  }

  /**
   * A run in which the connection of a finishing thread was deleted, and that thread has taken no step
   * since.
   */
  ghost predicate LostConnection(run: seq<Move>, t: Tid, c: ConnId)
    requires Possible(START, run)
    decreases |run|
  {
    run != [] &&
    var n := |run| - 1;
    var s, m := After(START, run[..n]), run[n];
    || (t in s.threads && s.threads[t] == Finishing(c) && c in s.data && Deletes(s, m.t, m.step, c))
    || (m.t != t && LostConnection(run[..n], t, c))
  }

  /** Over every run: a thread is left with a deleted connection if and only if that happened. */
  lemma {:induction false} DanglingExactly(run: seq<Move>, t: Tid, c: ConnId)
    requires Possible(START, run)
    ensures Dangling(After(START, run), t, c) <==> LostConnection(run, t, c)
    decreases |run|
  {
    if run != [] {
      var n := |run| - 1;
      DanglingExactly(run[..n], t, c);
      EveryRun(run[..n]);
      DanglingStep(After(START, run[..n]), run[n].t, run[n].step, t, c);
      hide Dangling, Deletes, Apply, Enabled;
    }
  }

  lemma DanglingStep(s: Server, u: Tid, step: Step, t: Tid, c: ConnId)
    requires Inv(s) && Enabled(s, u, step)
    ensures Dangling(Apply(s, u, step), t, c) <==>
              || (t in s.threads && s.threads[t] == Finishing(c) && c in s.data && Deletes(s, u, step, c))
              || (u != t && Dangling(s, t, c))
  {
    hide Apply, Enabled, Inv, Under, Removes;
    var r := Apply(s, u, step);
    StepMovesOne(s, u, step);
    if u == t {
      FinishingMoves(s, t, step);
      FinishingDeletesNone(s, t, step, c);
    } else if t in s.threads && s.threads[t] == Finishing(c) {
      if c in s.data {
        DeletedUnderThread(s, u, step, t, c);
      } else {
        GoneForGood(s, u, step, t, c);
      }
    }
  }

  lemma FinishingDeletesNone(s: Server, t: Tid, step: Step, c: ConnId)
    requires Enabled(s, t, step)
    ensures t in s.threads && s.threads[t] == Finishing(c) ==> !Deletes(s, t, step, c)
    ensures step.Respond? ==> forall x | x in s.data :: x in Apply(s, t, step).data
  {
    if step.Respond? {
      OnlyRemovalForgets(s, t, step);
    }
    hide NextPc, NextData, CheckDone;
  }

  /** A deleted connection does not come back. */
  lemma GoneForGood(s: Server, u: Tid, step: Step, t: Tid, c: ConnId)
    requires Inv(s) && Enabled(s, u, step) && t in s.threads && s.threads[t] == Finishing(c) && c !in s.data
    ensures c !in Apply(s, u, step).data
  {
    assert Known(s, s.threads[t]) && c in s.removed;
    InvStep(s, u, step);
    RemovedStays(s, u, step);
    RemovedIsGone(Apply(s, u, step), c);
    hide Apply, Enabled, LockInv, CountsInv, HandOverInv, KnownInv;
  }

  lemma RemovedStays(s: Server, u: Tid, step: Step)
    requires Enabled(s, u, step)
    ensures forall c | c in s.removed :: c in Apply(s, u, step).removed
  {
    hide Enabled, NextPc, NextData, NextConns, CheckDone;
  }

  // ----- the accept token

  /** The flag is set although no thread is in the section: an exception left it behind. */
  ghost predicate Orphaned(s: Server) {
    s.accepting && forall t | t in s.threads :: !InSection(s.threads[t])
  }

  /** A token lost to an exception is lost for good: no thread ever enters the accept section again. */
  lemma OrphanStays(s: Server, t: Tid, step: Step)
    requires LockInv(s) && Orphaned(s) && Enabled(s, t, step)
    ensures Orphaned(Apply(s, t, step))
  {
    hide Apply, Enabled;
    StepMovesOne(s, t, step);
    StepLocks(s, t, step);
  }

  /** And every exception in the section does that. */
  lemma ThrowOrphans(s: Server, t: Tid)
    requires LockInv(s) && Enabled(s, t, Throw)
    ensures Orphaned(Apply(s, t, Throw))
  {}

  /** The flag is set by a thread that is still in the section. */
  ghost predicate Held(s: Server) { s.accepting ==> exists t :: InSectionAt(s, t) }

  /** Nothing else does: any other step leaves a set flag with its thread. */
  lemma HeldStep(s: Server, t: Tid, step: Step)
    requires LockInv(s) && Held(s) && Enabled(s, t, step) && !step.Throw?
    ensures Held(Apply(s, t, step))
  {
    hide Apply, Enabled, NextPc, HoldsMutex, InSection, ListMatchesData, IteratorsInv, FreshInv, MutexInv;
    var r := Apply(s, t, step);
    StepMovesOne(s, t, step);
    StepParts(s, t, step);
    if step.Exit? {
      ExitOutside(s, t);
    } else {
      PositionLocks(s, t, step);
    }
    if r.accepting {
      if s.accepting {
        var u :| InSectionAt(s, u);
        if u != t {
          assert InSectionAt(r, u);
        } else {
          assert InSectionAt(r, t);
        }
      } else {
        assert InSectionAt(r, t);
      }
    }
  }

  lemma ExitOutside(s: Server, t: Tid)
    requires Enabled(s, t, Exit)
    ensures !InSectionAt(s, t)
  {}

  ghost predicate HasThrow(run: seq<Move>) { exists i | 0 <= i < |run| :: run[i].step.Throw? }

  /** Over every run: the flag is set with nobody in the section if and only if an exception was thrown there. */
  lemma {:induction false} OrphanedExactly(run: seq<Move>)
    requires Possible(START, run)
    ensures Orphaned(After(START, run)) <==> HasThrow(run)
    ensures !HasThrow(run) ==> Held(After(START, run))
    decreases |run|
  {
    hide Apply, Enabled, Orphaned, Held, Inv;
    if run == [] {
      StartHeld();
    } else {
      var n := |run| - 1;
      var s, m := After(START, run[..n]), run[n];
      OrphanedExactly(run[..n]);
      EveryRun(run[..n]);
      assert HasThrow(run) <==> HasThrow(run[..n]) || m.step.Throw? by {
        assert run == run[..n] + [m];
      }
      OrphanSteps(s, m.t, m.step);
    }
  }

  lemma StartHeld()
    ensures Held(START) && !Orphaned(START)
  {}

  lemma OrphanSteps(s: Server, t: Tid, step: Step)
    requires Inv(s) && Enabled(s, t, step) && (Orphaned(s) || Held(s))
    ensures Orphaned(Apply(s, t, step)) <==> Orphaned(s) || step.Throw?
    ensures Held(s) && !step.Throw? ==> Held(Apply(s, t, step))
  {
    assert LockInv(s);
    hide Apply, Enabled, Inv, LockInv;
    if step.Throw? {
      ThrowOrphans(s, t);
    } else if Orphaned(s) {
      OrphanStays(s, t, step);
      NotBoth(s);
    } else {
      HeldStep(s, t, step);
      NotBoth(Apply(s, t, step));
    }
  }

  lemma NotBoth(s: Server)
    ensures !(Orphaned(s) && Held(s))
  {}

  /** An iterator that is not at the end points to a connection that exists. */
  lemma IteratorsAreLive(s: Server, t: Tid)
    requires LockInv(s) && t in s.threads && Walks(s.threads[t])
    ensures s.threads[t].Scan? || s.threads[t].i < |s.conns| ==> s.threads[t].Selecting? || Exists(s, t)
  {}
}
