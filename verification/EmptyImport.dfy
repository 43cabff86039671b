/**
 A store with nothing to import: its legacy log is missing, empty or unreadable. There the failures of an
 import cannot be told from its success, and every guarantee of the activity log holds with them
 (app/activity_log.py, `migrate_legacy_log`).

 The argument is a refinement: forget the legacy log and the steps that look for it, and a run with
 failures becomes a run without.
 */
module EmptyImport {
  import opened Options
  import opened ActivityIndex
  import opened ActivityLog
  import opened ImportRuns

  predicate NothingToImport(s: State) {
    s.disk.legacy.GetOr([]) == []
  }

  /** Looking for the legacy log, waiting for its lock and retiring an empty one are all the same. */
  function ErasedPhase(p: Phase): Phase {
    match p
    case Queueing => Checking
    case Rechecking => Checking
    case Importing(_) => Checking
    case Merging(_) => Checking
    case Saving(_, _) => Checking
    case Retiring => Checking
    case _ => p
  }

  function ErasedThreads(threads: map<nat, Thread>): (r: map<nat, Thread>)
    ensures r.Keys == threads.Keys
    ensures forall tid | tid in threads :: r[tid] == Thread(threads[tid].caller, ErasedPhase(threads[tid].phase))
  {
    map tid | tid in threads :: Thread(threads[tid].caller, ErasedPhase(threads[tid].phase))
  }

  function Erased(s: State): State {
    s.(disk := s.disk.(legacy := None), migrateLock := None, threads := ErasedThreads(s.threads))
  }

  /** No thread has anything to merge. */
  predicate NoneMerging(s: State) {
    && NothingToImport(s)
    && forall tid | tid in s.threads ::
         && !s.threads[tid].phase.Merging? && !s.threads[tid].phase.Saving?
         && (s.threads[tid].phase.Importing? ==> s.threads[tid].phase.records == [])
  }

  lemma ErasedAt(s: State, tid: nat, phase: Phase)
    requires tid in s.threads
    ensures Erased(At(s, tid, phase)) == At(Erased(s), tid, ErasedPhase(phase))
  {
    assert ErasedThreads(s.threads[tid := s.threads[tid].(phase := phase)])
        == ErasedThreads(s.threads)[tid := Thread(s.threads[tid].caller, ErasedPhase(phase))];
  }

  lemma ErasedGone(s: State, tid: nat)
    ensures Erased(Gone(s, tid)) == Gone(Erased(s), tid)
  {
    assert ErasedThreads(s.threads - {tid}) == ErasedThreads(s.threads) - {tid};
  }

  lemma ErasedStart(s: State, tid: nat, t: State)
    requires NoneMerging(s) && tid in s.threads && StartStep(s, tid, t)
    ensures NoneMerging(t) && StartStep(Erased(s), tid, Erased(t))
  {
    if s.threads[tid].phase.Entering? {
      ErasedAt(s.(lock := Some(tid)), tid, Writing);
    } else {
      var th := Thread(Writer(t.threads[tid].caller.record), Checking);
      assert t.threads == s.threads[tid := th];
      assert ErasedThreads(t.threads) == ErasedThreads(s.threads)[tid := th];
    }
  }

  /** Looking at an empty import moves the thread, its lock, and at most the legacy file. */
  lemma MigrateMoves(s: State, tid: nat, t: State)
    requires NoneMerging(s) && tid in s.threads && MigrateStep(s, tid, true, t)
    ensures NoneMerging(t) && tid in t.threads
    ensures t == At(s.(disk := t.disk, migrateLock := t.migrateLock), tid, t.threads[tid].phase)
    ensures t.disk == s.disk || t.disk == s.disk.(legacy := None)
    ensures ErasedPhase(s.threads[tid].phase) == Checking
    ensures t.threads[tid].phase == Reading || ErasedPhase(t.threads[tid].phase) == Checking
  {
  }

  /** It either goes on to read the index or changes nothing that is kept. */
  lemma ErasedMigrate(s: State, tid: nat, t: State)
    requires NoneMerging(s) && tid in s.threads && MigrateStep(s, tid, true, t)
    ensures NoneMerging(t) && (Tick(Erased(s), Erased(t)) || MigrateStep(Erased(s), tid, false, Erased(t)))
  {
    MigrateMoves(s, tid, t);
    var next := t.threads[tid].phase;
    ErasedAt(s.(disk := t.disk, migrateLock := t.migrateLock), tid, next);
    assert Erased(t) == At(Erased(s), tid, ErasedPhase(next));
    if next != Reading {
      assert At(Erased(s), tid, Checking) == Erased(s);
    }
  }

  lemma ErasedFinish(s: State, tid: nat, t: State)
    requires NoneMerging(s) && tid in s.threads && FinishStep(s, tid, t)
    ensures NoneMerging(t) && FinishStep(Erased(s), tid, Erased(t))
  {
    var phase := s.threads[tid].phase;
    if phase.Leaving? || (phase.Reading? && s.threads[tid].caller.Reader?) {
      ErasedGone(s, tid);
      ErasedGone(s.(lock := None), tid);
    } else {
      var next := t.threads[tid].phase;
      assert t == At(s.(disk := t.disk, past := t.past), tid, next);
      assert t.disk.legacy == s.disk.legacy && ErasedPhase(next) == next;
      ErasedAt(s.(disk := t.disk, past := t.past), tid, next);
      FinishCarries(s, tid, t, next);
    }
  }

  /** A step of a thread that is past its import, with the legacy log out of sight. */
  ghost predicate SameStep(s: State, tid: nat, t: State, next: Phase)
    requires tid in s.threads
  {
    && FinishStep(s, tid, t) && ErasedPhase(s.threads[tid].phase) == s.threads[tid].phase
    && t == At(s.(disk := t.disk, past := t.past), tid, next) && t.disk.legacy == s.disk.legacy
    && Erased(t) == At(Erased(s).(disk := Erased(t).disk, past := t.past), tid, next)
  }

  lemma DeletingCarries(s: State, tid: nat, t: State, next: Phase)
    requires tid in s.threads && SameStep(s, tid, t, next) && s.threads[tid].phase.Deleting?
    ensures FinishStep(Erased(s), tid, Erased(t))
  {
    var ids, keep := s.threads[tid].phase.ids, s.threads[tid].phase.keep;
    if ids != {} {
      var id :| id in ids && Unlinked(s, t, id) && t == At(s.(disk := t.disk), tid, Deleting(ids - {id}, keep));
      assert Unlinked(Erased(s), Erased(t), id);
    }
  }

  lemma SweepingCarries(s: State, tid: nat, t: State, next: Phase)
    requires tid in s.threads && SameStep(s, tid, t, next) && s.threads[tid].phase.Sweeping?
    ensures FinishStep(Erased(s), tid, Erased(t))
  {
    var ids, cutoff := s.threads[tid].phase.ids, s.threads[tid].phase.cutoff;
    if ids != {} {
      var id :| id in ids
             && (if id in s.disk.files && s.disk.files[id] < cutoff then Unlinked(s, t, id) else t.disk == s.disk)
             && t == At(s.(disk := t.disk), tid, Sweeping(ids - {id}, cutoff));
      assert Unlinked(s, t, id) ==> Unlinked(Erased(s), Erased(t), id);
    }
  }

  lemma CommittingCarries(s: State, tid: nat, t: State, next: Phase)
    requires tid in s.threads && SameStep(s, tid, t, next) && s.threads[tid].phase.Committing?
    ensures FinishStep(Erased(s), tid, Erased(t))
  {
  }

  lemma FinishCarries(s: State, tid: nat, t: State, next: Phase)
    requires tid in s.threads && SameStep(s, tid, t, next)
    ensures FinishStep(Erased(s), tid, Erased(t))
  {
    match s.threads[tid].phase
    case Deleting(_, _) => DeletingCarries(s, tid, t, next);
    case Sweeping(_, _) => SweepingCarries(s, tid, t, next);
    case Committing(_) => CommittingCarries(s, tid, t, next);
    case _ =>
  }

  lemma ErasedSpawn(s: State, tid: nat, caller: Caller, t: State)
    requires NoneMerging(s) && Spawn(s, tid, caller, t)
    ensures NoneMerging(t) && Spawn(Erased(s), tid, caller, Erased(t))
  {
    var th := t.threads[tid];
    assert t.threads == s.threads[tid := th];
    assert ErasedThreads(t.threads) == ErasedThreads(s.threads)[tid := th];
  }

  /** Each step with failures is one without, or leaves no trace. */
  lemma ErasedNext(s: State, t: State)
    requires NoneMerging(s) && Next(s, true, t)
    ensures NoneMerging(t) && Next(Erased(s), false, Erased(t))
  {
    if tid :| ThreadStep(s, tid, true, t) {
      if StartStep(s, tid, t) {
        ErasedStart(s, tid, t);
      } else if MigrateStep(s, tid, true, t) {
        ErasedMigrate(s, tid, t);
      } else {
        ErasedFinish(s, tid, t);
      }
      assert Tick(Erased(s), Erased(t)) || ThreadStep(Erased(s), tid, false, Erased(t));
    } else if tid, caller :| Spawn(s, tid, caller, t) {
      ErasedSpawn(s, tid, caller, t);
    } else {
      assert Crash(s, t) ==> ErasedThreads(t.threads) == map[];
      assert Crash(s, t) ==> Crash(Erased(s), Erased(t));
      assert Tick(s, t) ==> Tick(Erased(s), Erased(t));
    }
  }

  /** A run with failures, on a store with nothing to import, refines to one without. */
  lemma {:induction false} RefinesFaultless(run: seq<State>) returns (erased: seq<State>)
    requires Run(run, true) && NothingToImport(run[0])
    ensures NoneMerging(Last(run)) && Run(erased, false) && Last(erased) == Erased(Last(run))
    decreases |run|
  {
    if |run| == 1 {
      erased := [Erased(run[0])];
      assert ErasedThreads(run[0].threads) == map[];
    } else {
      var n := |run| - 1;
      var before := run[..n];
      var front := RefinesFaultless(before);
      assert Next(run[n - 1], true, run[n]);
      ErasedNext(run[n - 1], run[n]);
      erased := Extend(front, false, Erased(run[n]));
    }
  }
}
