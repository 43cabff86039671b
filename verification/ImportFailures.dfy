/**
 What becomes of the activity log when the import of the legacy log is cut short: by a crash between
 saving the index and renaming the legacy file, or by a failed save or rename that the code logs and
 survives (app/activity_log.py, `migrate_legacy_log`). Each guarantee survives such failures exactly on the
 stores with nothing to import.
 */
module ImportFailures {
  import opened Options
  import opened ActivityIndex
  import opened ActivityLog
  import opened ImportRuns
  import opened EmptyImport

  // ------------------------------------------------------------------
  // The four ways it can go wrong
  // ------------------------------------------------------------------

  lemma StartsIn(d: Disk)
    requires Sound(d)
    ensures Run([Start(d)], true) && Run([Start(d)], false) && Idle(Start(d))
  {
  }

  /** An entry was imported twice. */
  ghost predicate ImportedTwice(s: State) {
    exists a, b :: a != b && a in s.past.imports && b in s.past.imports && s.past.imports[a] == s.past.imports[b]
  }

  lemma FirstEntryTwice(s: State, first: seq<Record>, second: seq<Record>, used: set<nat>)
    requires first != [] && second != [] && Ids(first) <= used && Ids(second) !! used
    requires forall i, j | 0 <= i < j < |first| :: first[i].id != first[j].id
    requires forall i, j | 0 <= i < j < |second| :: second[i].id != second[j].id
    requires s.past.imports == ImportsOf(first) + ImportsOf(second)
    ensures ImportedTwice(s)
  {
    ImportsOfRecords(first);
    ImportsOfRecords(second);
    var a, b := first[0].id, second[0].id;
    assert a in Ids(first) && b in Ids(second);
    assert s.past.imports[a] == s.past.imports[b];
  }

  /**
   On every store with a legacy entry, a crash between the save of the import and the retirement of its
   source makes the next reader import it again. Nothing is missing even then.
   */
  lemma CrashCanRepeatAnImport(d: Disk) returns (run: seq<State>)
    requires Sound(d) && Entries(d) != []
    ensures Run(run, false) && run[0].disk == d && Last(run).past.crashes == 1
    ensures ImportedTwice(Last(run)) && NoneMissing(Last(run))
  {
    var first, second;
    StartsIn(d);
    run, first := ReaderSaves([Start(d)], false);
    var s := Last(run);
    var down := s.(lock := None, migrateLock := None, threads := map[], past := s.past.(crashes := 1));
    run := Extend(run, false, down);
    run, second := ReaderSaves(run, false);
    assert map[] + ImportsOf(first) == ImportsOf(first);
    FirstEntryTwice(Last(run), first, second, s.past.used);
    NothingIsLost(run);
  }

  /** The same without a crash, when the rename fails. */
  lemma FailedRenameRepeatsAnImport(d: Disk) returns (run: seq<State>)
    requires Sound(d) && Entries(d) != []
    ensures Run(run, true) && run[0].disk == d && Last(run).past.crashes == 0 && ImportedTwice(Last(run))
  {
    var first, second;
    StartsIn(d);
    run, first := ReaderSaves([Start(d)], true);
    var s := Last(run);
    var failed := At(s.(migrateLock := None), 11, Reading);
    run := Move(run, true, 11, failed);
    assert Gone(failed, 11) == s.(migrateLock := None, threads := map[]);
    run := Move(run, true, 11, Gone(failed, 11));
    run, second := ReaderSaves(run, true);
    assert map[] + ImportsOf(first) == ImportsOf(first);
    FirstEntryTwice(Last(run), first, second, s.past.used);
  }

  /**
   On every store with a legacy entry: if the save of an import may fail and the caller goes on, a
   recorded run can vanish without being pruned. The writer commits between a reader's read and its
   save of the same import.
   */
  lemma FailedImportCanLoseARun(d: Disk) returns (run: seq<State>)
    requires Sound(d) && Entries(d) != []
    ensures Run(run, true) && run[0].disk == d && !NoneMissing(Last(run))
  {
    var id := Bound(Ids(d.index));
    var w := Record(id, None, 0);
    var records, merged, used;
    StartsIn(d);
    run, records, merged, used := ReaderOvertakes([Start(d)], w);
    run := CommitAlone(run, w, d.index);
    run := SaveAlone(run, true, 11, records, merged);
    IdsOfMerged(records, d.index, merged);
    InsertedIsSpared(w, d.index, 0);
    assert id in Last(run).past.recorded - Last(run).past.pruned;
  }

  /** Once the legacy log is retired, every entry of it is in the index or was pruned from it. */
  ghost predicate EntriesKept(s: State) {
    s.disk.legacy.None? ==> forall k | 0 <= k < |s.past.legacy| :: EntryKept(s, k)
  }

  ghost predicate EntryKept(s: State, k: nat) {
    exists id | id in s.past.imports :: s.past.imports[id] == k && (id in Ids(s.disk.index) || id in s.past.pruned)
  }

  /** The other order: the reader imports and retires its source, then the writer commits what it had read. */
  lemma FailedImportCanLoseTheEntries(d: Disk) returns (run: seq<State>)
    requires Sound(d) && Entries(d) != []
    ensures Run(run, true) && run[0].disk == d && !EntriesKept(Last(run))
  {
    var id := Bound(Ids(d.index));
    var w := Record(id, None, 0);
    var records, merged, used;
    StartsIn(d);
    run, records, merged, used := ReaderOvertakes([Start(d)], w);
    run := SaveAndRetire(run, records, merged);
    run := CommitAlone(run, w, d.index);
    ImportsOfRecords(records);
    StaleCommitDrops(Last(run), w, d.index, records);
  }

  lemma SaveAndRetire(run: seq<State>, records: seq<Record>, merged: seq<Record>) returns (longer: seq<State>)
    requires Run(run, true) && 11 in Last(run).threads && Last(run).threads[11].phase == Saving(records, merged)
    ensures Run(longer, true) && longer[0] == run[0]
    ensures var t := Saved(Last(run), 11, records, merged);
            Last(longer) == At(t.(disk := t.disk.(legacy := None), migrateLock := None), 11, Reading)
  {
    longer := SaveAlone(run, true, 11, records, merged);
    var t := Last(longer);
    longer := Move(longer, true, 11, At(t.(disk := t.disk.(legacy := None), migrateLock := None), 11, Reading));
  }

  lemma StaleCommitDrops(s: State, w: Record, index: seq<Record>, records: seq<Record>)
    requires s.disk.index == Kept([w] + index, w.id, 0) && s.past.pruned == Ids(Dropped([w] + index, w.id, 0))
    requires s.past.imports.Keys == Ids(records) && Ids(records) !! {w.id} + Ids(index)
    requires s.disk.legacy.None? && |s.past.legacy| > 0
    ensures !EntriesKept(s)
  {
    IdsSplit([w] + index, w.id, 0);
    InBoth([w], index, [w] + index);
    AllElsewhere(s, {w.id} + Ids(index));
  }

  lemma AllElsewhere(s: State, ids: set<nat>)
    requires Ids(s.disk.index) + s.past.pruned == ids && s.past.imports.Keys !! ids
    requires s.disk.legacy.None? && |s.past.legacy| > 0
    ensures !EntriesKept(s)
  {
    assert !EntryKept(s, 0);
  }

  lemma IdsSplit(entries: seq<Record>, protect: nat, now: int)
    ensures Ids(Kept(entries, protect, now)) + Ids(Dropped(entries, protect, now)) == Ids(entries)
  {
    SplitsIndex(entries, protect, now);
    InBoth(Kept(entries, protect, now), Dropped(entries, protect, now), entries);
  }

  // ------------------------------------------------------------------
  // A committed record loses its output
  // ------------------------------------------------------------------

  /** A run long past: the next commit prunes it. */
  function Aged(id: nat): Record {
    Record(id, Some(-MAX_AGE - 1), 1)
  }

  /** On every store with a legacy entry, a run long past can be recorded, with its output. */
  lemma AgedIsRecorded(d: Disk, v: Record) returns (run: seq<State>)
    requires Sound(d) && Entries(d) != [] && v.id !in Ids(d.index) && v == Aged(v.id)
    ensures Run(run, true) && run[0].disk == d && Idle(Last(run)) && Last(run).clock == 0 && Last(run).past.crashes == 0
    ensures v in Last(run).disk.index && DistinctIds(Last(run).disk.index) && v.id in Last(run).disk.files
    ensures Entries(Last(run).disk) != [] && Ids(Last(run).disk.index) <= Last(run).past.used
  {
    var used;
    StartsIn(d);
    run, used := WriterPassesFailedImport([Start(d)], v);
    run := CommitAlone(run, v, d.index);
    run := WriterLeaves(run, v, Ids(Dropped([v] + d.index, v.id, 0)), Ids(Kept([v] + d.index, v.id, 0)));
    AgedStays(v, d.index);
  }

  lemma AgedStays(v: Record, index: seq<Record>)
    requires DistinctIds(index) && v.id !in Ids(index)
    ensures var kept := Kept([v] + index, v.id, 0); v in kept && DistinctIds(kept) && Ids(kept) <= Ids(index) + {v.id}
  {
    InsertedIsKept(v, index, 0);
    ConsKeepsDistinct(v, index);
    KeptIdsLeaveDroppedIds([v] + index, v.id, 0);
  }

  lemma AgedIsDropped(v: Record, w: Record, index: seq<Record>)
    requires v in index && v == Aged(v.id) && w.id != v.id
    ensures v.id in Ids(Dropped([w] + index, w.id, 0))
  {
    var all := [w] + index;
    SplitsIndex(all, w.id, 0);
    InBoth(Kept(all, w.id, 0), Dropped(all, w.id, 0), all);
    SurvivingOrExpired(Newest(all), w.id, 0);
    assert v in all;
    assert !Survives(v, w.id, 0);
  }

  /**
   On every store with a legacy entry: a reader's save can bring back a record that a commit has pruned,
   and then the commit removes its output. No crash and no clock change is needed.
   */
  lemma FailedImportCanLoseOutput(d: Disk) returns (run: seq<State>, t: State, v: Record)
    requires Sound(d) && Entries(d) != []
    ensures Run(run, true) && run[0].disk == d && Last(run).past.crashes == 0 && Next(Last(run), true, t)
    ensures v in Last(run).disk.index && v.id in Last(run).disk.files
    ensures v in t.disk.index && v.lineCount > 0 && v.id !in t.disk.files
  {
    var first := Bound(Ids(d.index));
    v := Aged(first);
    run := AgedIsRecorded(d, v);
    var s := Last(run);
    var id := Bound(s.past.used);
    var w := Record(id, None, 0);
    var records, merged, used;
    run, records, merged, used := ReaderOvertakes(run, w);
    run := CommitAlone(run, w, s.disk.index);
    run := SaveAlone(run, true, 11, records, merged);
    AgedIsDropped(v, w, s.disk.index);
    InBoth(records, s.disk.index, merged);
    t := UnlinkAlone(Last(run), w, Ids(Dropped([w] + s.disk.index, w.id, 0)), Ids(Kept([w] + s.disk.index, w.id, 0)), v.id);
  }

  lemma UnlinkAlone(s: State, w: Record, ids: set<nat>, keep: set<nat>, id: nat) returns (t: State)
    requires 10 in s.threads && s.threads[10] == Thread(Writer(w), Deleting(ids, keep)) && id in ids
    ensures Next(s, true, t) && t.disk == s.disk.(files := s.disk.files - {id})
  {
    t := At(s.(disk := s.disk.(files := s.disk.files - {id})), 10, Deleting(ids - {id}, keep));
    assert Unlinked(s, t, id) && FinishStep(s, 10, t);
    assert ThreadStep(s, 10, true, t);
  }

  // ------------------------------------------------------------------
  // Exactly which stores are safe
  // ------------------------------------------------------------------

  ghost predicate RunFrom(run: seq<State>, d: Disk) {
    Run(run, true) && run[0].disk == d
  }

  ghost predicate OutputKept(s: State) {
    Stored(s.disk.index, s.disk.files)
  }

  /** An output file disappears only with its pruned record, or as an orphan older than the cutoff. */
  ghost predicate RemovesOnlyDue(s: State, faults: bool) {
    forall t, id | Next(s, faults, t) && id in s.disk.files && id !in t.disk.files :: Due(s, id)
  }

  ghost predicate Due(s: State, id: nat)
    requires id in s.disk.files
  {
    && id !in Ids(s.disk.index)
    && (id in s.past.pruned
        || exists tid | tid in s.threads :: s.threads[tid].phase.Sweeping? && s.disk.files[id] < s.threads[tid].phase.cutoff)
  }

  /** With nothing to import, all guarantees hold whatever fails. */
  lemma SafeWithoutEntries(run: seq<State>)
    requires Run(run, true) && Entries(run[0].disk) == []
    ensures NoneMissing(Last(run)) && OutputKept(Last(run)) && EntriesKept(Last(run))
    ensures Last(run).past.crashes == 0 ==> !ImportedTwice(Last(run))
    ensures RemovesOnlyDue(Last(run), true)
  {
    var erased := RefinesFaultless(run);
    ActivityLog.RunKeepsInv(erased);
    NothingIsLost(erased);
    NoLegacyHere(run);
    forall t, id | Next(Last(run), true, t) && id in Last(run).disk.files && id !in t.disk.files
      ensures Due(Last(run), id)
    {
      RemovalIsDue(run, erased, t, id);
    }
  }

  lemma RemovalIsDue(run: seq<State>, erased: seq<State>, t: State, id: nat)
    requires Run(run, true) && Run(erased, false) && NoneMerging(Last(run)) && Last(erased) == Erased(Last(run))
    requires Next(Last(run), true, t) && id in Last(run).disk.files && id !in t.disk.files
    ensures Due(Last(run), id)
  {
    ErasedNext(Last(run), t);
    FilesGoOnlyWhenDue(erased, Erased(t), id);
  }

  lemma {:induction false} NoLegacyHere(run: seq<State>)
    requires Run(run, true) && Entries(run[0].disk) == []
    ensures Last(run).past.legacy == []
    decreases |run|
  {
    if |run| > 1 {
      var n := |run| - 1;
      NoLegacyHere(run[..n]);
      assert Next(run[n - 1], true, run[n]);
    }
  }

  /** No run is ever lost exactly when there was nothing to import. */
  lemma NoneMissingExactly(d: Disk)
    requires Sound(d)
    ensures (forall run | RunFrom(run, d) :: NoneMissing(Last(run))) <==> Entries(d) == []
  {
    if Entries(d) == [] {
      forall run | RunFrom(run, d)
        ensures NoneMissing(Last(run))
      {
        SafeWithoutEntries(run);
      }
    } else {
      var run := FailedImportCanLoseARun(d);
      assert RunFrom(run, d);
    }
  }

  /** No retired legacy entry is ever lost exactly then. */
  lemma EntriesKeptExactly(d: Disk)
    requires Sound(d)
    ensures (forall run | RunFrom(run, d) :: EntriesKept(Last(run))) <==> Entries(d) == []
  {
    if Entries(d) == [] {
      forall run | RunFrom(run, d)
        ensures EntriesKept(Last(run))
      {
        SafeWithoutEntries(run);
      }
    } else {
      var run := FailedImportCanLoseTheEntries(d);
      assert RunFrom(run, d);
    }
  }

  /** Without a crash, no entry is imported twice exactly then. */
  lemma ImportedOnceExactly(d: Disk)
    requires Sound(d)
    ensures (forall run | RunFrom(run, d) && Last(run).past.crashes == 0 :: !ImportedTwice(Last(run))) <==> Entries(d) == []
  {
    if Entries(d) == [] {
      forall run | RunFrom(run, d) && Last(run).past.crashes == 0
        ensures !ImportedTwice(Last(run))
      {
        SafeWithoutEntries(run);
      }
    } else {
      var run := FailedRenameRepeatsAnImport(d);
      assert RunFrom(run, d);
    }
  }

  /** Every committed record with lines has its output exactly then. */
  lemma OutputKeptExactly(d: Disk)
    requires Sound(d)
    ensures (forall run | RunFrom(run, d) :: OutputKept(Last(run))) <==> Entries(d) == []
  {
    if Entries(d) == [] {
      forall run | RunFrom(run, d)
        ensures OutputKept(Last(run))
      {
        SafeWithoutEntries(run);
      }
    } else {
      var run, t, v := FailedImportCanLoseOutput(d);
      var longer := Extend(run, true, t);
      assert RunFrom(longer, d) && !OutputKept(Last(longer));
    }
  }

  /** Files go only when they are due exactly then. */
  lemma RemovesOnlyDueExactly(d: Disk)
    requires Sound(d)
    ensures (forall run | RunFrom(run, d) :: RemovesOnlyDue(Last(run), true)) <==> Entries(d) == []
  {
    if Entries(d) == [] {
      forall run | RunFrom(run, d)
        ensures RemovesOnlyDue(Last(run), true)
      {
        SafeWithoutEntries(run);
      }
    } else {
      var run, t, v := FailedImportCanLoseOutput(d);
      assert RunFrom(run, d) && !Due(Last(run), v.id);
    }
  }

  /** Of all steps, the failures of an import are exactly those that break the invariant. */
  lemma NextKeepsInvExactly(s: State, t: State)
    requires Inv(s) && Next(s, true, t)
    ensures Inv(t) <==> Next(s, false, t)
  {
    if Next(s, false, t) {
      NextKeepsInv(s, t);
    } else {
      var tid :| ThreadStep(s, tid, true, t);
      assert ThreadOk(s, tid);
      FailureBreaksInv(s, tid, t);
    }
  }

  lemma FailureBreaksInv(s: State, tid: nat, t: State)
    requires Inv(s) && tid in s.threads && ThreadOk(s, tid) && ThreadStep(s, tid, true, t) && !ThreadStep(s, tid, false, t)
    ensures !Inv(t)
  {
    assert t == At(s.(migrateLock := None), tid, Reading) && t.disk.legacy.Some?;
    assert !ThreadOk(t, tid);
  }
}
