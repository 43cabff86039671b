/**
 Runs of the activity log in which one thread at a time takes a step: the pieces that the claims about
 failing imports put together (app/activity_log.py, `migrate_legacy_log`, `record_run`).
 */
module ImportRuns {
  import opened Options
  import opened ActivityIndex
  import opened ActivityLog

  /** A store as it may be found at start. */
  ghost predicate Sound(d: Disk) {
    DistinctIds(d.index) && Stored(d.index, d.files)
  }

  function Entries(d: Disk): seq<LegacyEntry> {
    d.legacy.GetOr([])
  }

  // ------------------------------------------------------------------
  // Building runs
  // ------------------------------------------------------------------

  lemma Extend(run: seq<State>, faults: bool, t: State) returns (longer: seq<State>)
    requires Run(run, faults) && Next(Last(run), faults, t)
    ensures Run(longer, faults) && longer[0] == run[0] && Last(longer) == t
  {
    longer := run + [t];
    forall k | 0 <= k < |longer| - 1
      ensures Next(longer[k], faults, longer[k + 1])
    {
      if k < |run| - 1 {
        assert Next(run[k], faults, run[k + 1]);
      }
    }
  }

  lemma Move(run: seq<State>, faults: bool, tid: nat, t: State) returns (longer: seq<State>)
    requires Run(run, faults) && ThreadStep(Last(run), tid, faults, t)
    ensures Run(longer, faults) && longer[0] == run[0] && Last(longer) == t
  {
    longer := Extend(run, faults, t);
  }

  /** The newest-first order an import sorts the index into. */
  function Inserted(r: Record, sorted: seq<Record>, now: int): seq<Record> {
    if sorted == [] || Stamp(r, now) >= Stamp(sorted[0], now) then [r] + sorted
    else [sorted[0]] + Inserted(r, sorted[1..], now)
  }

  function Sorted(records: seq<Record>, now: int): seq<Record> {
    if records == [] then [] else Inserted(records[0], Sorted(records[1..], now), now)
  }

  lemma {:induction false} InsertedKeepsAll(r: Record, sorted: seq<Record>, now: int)
    ensures multiset(Inserted(r, sorted, now)) == multiset{r} + multiset(sorted)
  {
    if sorted != [] && Stamp(r, now) < Stamp(sorted[0], now) {
      InsertedKeepsAll(r, sorted[1..], now);
      assert sorted == [sorted[0]] + sorted[1..];
    }
  }

  lemma OldestBehind(first: Record, rest: seq<Record>, now: int)
    requires NewestFirst(rest, now) && (rest != [] ==> Stamp(first, now) >= Stamp(rest[0], now))
    ensures NewestFirst([first] + rest, now)
  {
    forall j | 0 <= j < |rest|
      ensures Stamp(first, now) >= Stamp(rest[j], now)
    {
      assert j > 0 ==> Stamp(rest[0], now) >= Stamp(rest[j], now);
    }
  }

  lemma {:induction false} InsertedIsSorted(r: Record, sorted: seq<Record>, now: int)
    requires NewestFirst(sorted, now)
    ensures NewestFirst(Inserted(r, sorted, now), now)
  {
    if sorted == [] || Stamp(r, now) >= Stamp(sorted[0], now) {
      OldestBehind(r, sorted, now);
    } else {
      InsertedIsSorted(r, sorted[1..], now);
      OldestBehind(sorted[0], Inserted(r, sorted[1..], now), now);
    }
  }

  lemma {:induction false} SortedIsSorted(records: seq<Record>, now: int)
    ensures NewestFirst(Sorted(records, now), now) && multiset(Sorted(records, now)) == multiset(records)
  {
    if records != [] {
      SortedIsSorted(records[1..], now);
      InsertedIsSorted(records[0], Sorted(records[1..], now), now);
      InsertedKeepsAll(records[0], Sorted(records[1..], now), now);
      assert records == [records[0]] + records[1..];
    }
  }

  // ------------------------------------------------------------------
  // One thread imports
  // ------------------------------------------------------------------

  function WithUsed(s: State, used: set<nat>): State {
    s.(past := s.past.(used := used))
  }

  /** The records of an import: one for each entry, their ids new since `before` and marked as used. */
  ghost predicate Imported(records: seq<Record>, before: set<nat>, used: set<nat>) {
    && before + Ids(records) <= used && Ids(records) !! before
    && forall i, j | 0 <= i < j < |records| :: records[i].id != records[j].id
  }

  lemma ImportedOneMore(records: seq<Record>, before: set<nat>, used: set<nat>, r: Record)
    requires Imported(records, before, used) && r.id !in used
    ensures Imported(records + [r], before, used + {r.id})
  {
    IdsGrow(records, r);
    forall i | 0 <= i < |records|
      ensures records[i].id != r.id
    {
      assert records[i].id in Ids(records);
    }
  }

  lemma {:induction false} ImportRest(run: seq<State>, faults: bool, tid: nat, records: seq<Record>, before: set<nat>)
      returns (longer: seq<State>, all: seq<Record>, used: set<nat>)
    requires Run(run, faults) && tid in Last(run).threads && Last(run).threads[tid].phase == Importing(records)
    requires Last(run).disk.legacy.Some? && |records| <= |Last(run).disk.legacy.value|
    requires Imported(records, before, Last(run).past.used)
    ensures Run(longer, faults) && longer[0] == run[0] && Imported(all, before, used)
    ensures |all| == |Last(run).disk.legacy.value| && Last(longer) == WithUsed(At(Last(run), tid, Importing(all)), used)
    decreases |Last(run).disk.legacy.value| - |records|
  {
    var s := Last(run);
    var entries := s.disk.legacy.value;
    if |records| == |entries| {
      longer, all, used := run, records, s.past.used;
      assert At(s, tid, Importing(all)) == s;
    } else {
      var id := Bound(s.past.used);
      var r := Record(id, entries[|records|].ranAt, 0);
      var t := Used(At(s, tid, Importing(records + [r])), id);
      ImportStep(s, faults, tid, records, r, t);
      var one := Move(run, faults, tid, t);
      ImportedOneMore(records, before, s.past.used, r);
      longer, all, used := ImportRest(one, faults, tid, records + [r], before);
      assert WithUsed(At(t, tid, Importing(all)), used) == WithUsed(At(s, tid, Importing(all)), used);
    }
  }

  lemma ImportStep(s: State, faults: bool, tid: nat, records: seq<Record>, r: Record, t: State)
    requires tid in s.threads && s.threads[tid].phase == Importing(records)
    requires s.disk.legacy.Some? && |records| < |s.disk.legacy.value|
    requires r.id !in s.past.used && r.lineCount == 0 && r.startedAt == s.disk.legacy.value[|records|].ranAt
    requires t == Used(At(s, tid, Importing(records + [r])), r.id)
    ensures ThreadStep(s, tid, faults, t)
  {
    assert ImportOne(s, tid, records, s.disk.legacy.value[|records|], r, t);
    assert MigrateStep(s, tid, faults, t);
  }

  lemma MergeAlone(run: seq<State>, faults: bool, tid: nat, records: seq<Record>) returns (longer: seq<State>, merged: seq<Record>)
    requires Run(run, faults) && tid in Last(run).threads && Last(run).threads[tid].phase == Importing(records)
    requires Last(run).disk.legacy.Some? && |records| == |Last(run).disk.legacy.value| > 0
    ensures Run(longer, faults) && longer[0] == run[0] && Last(longer) == At(Last(run), tid, Saving(records, merged))
    ensures multiset(merged) == multiset(records) + multiset(Last(run).disk.index)
  {
    var s := Last(run);
    var merging := At(s, tid, Merging(records));
    longer := Move(run, faults, tid, merging);
    merged := Sorted(records + s.disk.index, s.clock);
    SortedIsSorted(records + s.disk.index, s.clock);
    MergeStep(merging, faults, tid, records, merged);
    longer := Move(longer, faults, tid, At(merging, tid, Saving(records, merged)));
  }

  lemma MergeStep(s: State, faults: bool, tid: nat, records: seq<Record>, merged: seq<Record>)
    requires tid in s.threads && s.threads[tid].phase == Merging(records)
    requires multiset(merged) == multiset(records) + multiset(s.disk.index) && NewestFirst(merged, s.clock)
    ensures ThreadStep(s, tid, faults, At(s, tid, Saving(records, merged)))
  {
    assert MigrateStep(s, tid, faults, At(s, tid, Saving(records, merged)));
  }

  /** The state of a thread that has merged an import and is about to save it. */
  function ReadyToSave(s: State, tid: nat, records: seq<Record>, merged: seq<Record>, used: set<nat>): State
    requires tid in s.threads
  {
    WithUsed(At(s.(migrateLock := Some(tid)), tid, Saving(records, merged)), used)
  }

  /** One thread alone takes a non-empty import up to the point where it has read the index. */
  lemma ImportAlone(run: seq<State>, faults: bool, tid: nat)
      returns (longer: seq<State>, records: seq<Record>, merged: seq<Record>, used: set<nat>)
    requires Run(run, faults) && tid in Last(run).threads && Last(run).threads[tid].phase == Checking
    requires Last(run).migrateLock == None && Entries(Last(run).disk) != []
    ensures Run(longer, faults) && longer[0] == run[0]
    ensures Last(longer) == ReadyToSave(Last(run), tid, records, merged, used)
    ensures Imported(records, Last(run).past.used, used) && |records| == |Entries(Last(run).disk)|
    ensures multiset(merged) == multiset(records) + multiset(Last(run).disk.index)
  {
    var s := Last(run);
    longer := Move(run, faults, tid, At(s, tid, Queueing));
    longer := Move(longer, faults, tid, At(s.(migrateLock := Some(tid)), tid, Rechecking));
    var begun := At(s.(migrateLock := Some(tid)), tid, Importing([]));
    longer := Move(longer, faults, tid, begun);
    longer, records, used := ImportRest(longer, faults, tid, [], s.past.used);
    longer, merged := MergeAlone(longer, faults, tid, records);
  }

  lemma IdsOfMerged(records: seq<Record>, index: seq<Record>, merged: seq<Record>)
    requires multiset(merged) == multiset(records) + multiset(index)
    ensures Ids(merged) == Ids(records) + Ids(index)
  {
    InBoth(records, index, merged);
  }

  // ------------------------------------------------------------------
  // Readers and writers
  // ------------------------------------------------------------------

  function Start(d: Disk): State {
    State(d, None, None, map[], 0, History(Ids(d.index), Ids(d.index), map[], {}, 0, Entries(d)))
  }

  predicate Idle(s: State) {
    s.threads == map[] && s.lock == None && s.migrateLock == None
  }

  /** A reader comes in, imports the legacy log and saves the index; the legacy file is still there. */
  lemma ReaderSaves(run: seq<State>, faults: bool) returns (longer: seq<State>, records: seq<Record>)
    requires Run(run, faults) && Idle(Last(run)) && Entries(Last(run).disk) != []
    ensures Run(longer, faults) && longer[0] == run[0]
    ensures |records| == |Entries(Last(run).disk)| && Ids(records) !! Last(run).past.used
    ensures forall i, j | 0 <= i < j < |records| :: records[i].id != records[j].id
    ensures Last(longer).disk.legacy == Last(run).disk.legacy && Last(longer).past.crashes == Last(run).past.crashes
    ensures Last(run).past.used + Ids(records) <= Last(longer).past.used
    ensures Last(longer).past.imports == Last(run).past.imports + ImportsOf(records)
    ensures Last(longer).threads == map[11 := Thread(Reader, Retiring)] && Last(longer).lock == None
  {
    var s := Last(run);
    var entered := s.(threads := map[11 := Thread(Reader, Checking)]);
    assert Spawn(s, 11, Reader, entered);
    longer := Extend(run, faults, entered);
    var merged, used;
    longer, records, merged, used := ImportAlone(longer, faults, 11);
    longer := SaveAlone(longer, faults, 11, records, merged);
  }

  function Saved(s: State, tid: nat, records: seq<Record>, merged: seq<Record>): State
    requires tid in s.threads
  {
    At(s.(disk := s.disk.(index := merged), past := s.past.(imports := s.past.imports + ImportsOf(records))), tid, Retiring)
  }

  lemma SaveAlone(run: seq<State>, faults: bool, tid: nat, records: seq<Record>, merged: seq<Record>) returns (longer: seq<State>)
    requires Run(run, faults) && tid in Last(run).threads && Last(run).threads[tid].phase == Saving(records, merged)
    ensures Run(longer, faults) && longer[0] == run[0] && Last(longer) == Saved(Last(run), tid, records, merged)
  {
    longer := Move(run, faults, tid, Saved(Last(run), tid, records, merged));
  }

  /** The output files after a writer has stored its output. */
  function Written(s: State, w: Record): map<nat, int> {
    if w.lineCount == 0 then s.disk.files else s.disk.files[w.id := s.clock]
  }

  function WithFiles(s: State, files: map<nat, int>): State {
    s.(disk := s.disk.(files := files))
  }

  /** A writer that has stored its output and read the index, with no import under way. */
  function Waiting(s: State, w: Record, used: set<nat>): State {
    WithUsed(WithFiles(s, Written(s, w)), used).(lock := Some(10), threads := map[10 := Thread(Writer(w), Committing(s.disk.index))])
  }

  /** A writer gets as far as looking for the legacy log. */
  lemma WriterArrives(run: seq<State>, w: Record) returns (longer: seq<State>)
    requires Run(run, true) && Idle(Last(run)) && w.id !in Last(run).past.used
    ensures Run(longer, true) && longer[0] == run[0]
    ensures Last(longer) == Used(WithFiles(Last(run), Written(Last(run), w)), w.id).(lock := Some(10), threads := map[10 := Thread(Writer(w), Checking)])
  {
    var s := Last(run);
    var s1 := Used(s.(threads := map[10 := Thread(Writer(w), Entering)]), w.id);
    assert Spawn(s, 10, Writer(w), s1);
    longer := Extend(run, true, s1);
    var s2 := At(s1.(lock := Some(10)), 10, Writing);
    longer := Move(longer, true, 10, s2);
    var s3 := At(WithFiles(s2, Written(s, w)), 10, Checking);
    assert StartStep(s2, 10, s3);
    longer := Move(longer, true, 10, s3);
  }

  /** A writer whose import could not be saved goes on to read the old index. */
  lemma WriterPassesFailedImport(run: seq<State>, w: Record) returns (longer: seq<State>, used: set<nat>)
    requires Run(run, true) && Idle(Last(run)) && Entries(Last(run).disk) != [] && w.id !in Last(run).past.used
    ensures Run(longer, true) && longer[0] == run[0] && Last(longer) == Waiting(Last(run), w, used)
    ensures Last(run).past.used + {w.id} <= used
  {
    var s := Last(run);
    longer := WriterArrives(run, w);
    var records, merged;
    longer, records, merged, used := ImportAlone(longer, true, 10);
    var failed := At(Last(longer).(migrateLock := None), 10, Reading);
    longer := Move(longer, true, 10, failed);
    longer := Move(longer, true, 10, At(failed, 10, Committing(s.disk.index)));
    assert Last(longer) == Waiting(s, w, used);
  }

  function AfterCommit(s: State, w: Record, entries: seq<Record>): State
    requires 10 in s.threads
  {
    var kept, dropped := Kept([w] + entries, w.id, s.clock), Dropped([w] + entries, w.id, s.clock);
    At(s.(disk := s.disk.(index := kept),
          past := s.past.(recorded := s.past.recorded + {w.id}, pruned := s.past.pruned + Ids(dropped))),
       10, Deleting(Ids(dropped), Ids(kept)))
  }

  lemma CommitAlone(run: seq<State>, w: Record, entries: seq<Record>) returns (longer: seq<State>)
    requires Run(run, true) && 10 in Last(run).threads && Last(run).threads[10] == Thread(Writer(w), Committing(entries))
    ensures Run(longer, true) && longer[0] == run[0] && Last(longer) == AfterCommit(Last(run), w, entries)
  {
    var s, all := Last(run), [w] + entries;
    assert CommitsTo(s, 10, w, Kept(all, w.id, s.clock), Dropped(all, w.id, s.clock), AfterCommit(s, w, entries));
    longer := Move(run, true, 10, AfterCommit(s, w, entries));
  }

  lemma InsertedIsSpared(w: Record, entries: seq<Record>, now: int)
    requires DistinctIds(entries) && w.id !in Ids(entries)
    ensures w.id !in Ids(Dropped([w] + entries, w.id, now))
  {
    ConsKeepsDistinct(w, entries);
    InsertedIsKept(w, entries, now);
    KeptIdsLeaveDroppedIds([w] + entries, w.id, now);
    assert w.id in Ids(Kept([w] + entries, w.id, now));
  }

  /** A writer whose removals all fail leaves the disk as it is. */
  lemma {:induction false} WriterDeletes(run: seq<State>, w: Record, ids: set<nat>, keep: set<nat>) returns (longer: seq<State>)
    requires Run(run, true) && Last(run).threads == map[10 := Thread(Writer(w), Deleting(ids, keep))]
    ensures Run(longer, true) && longer[0] == run[0] && Last(longer) == At(Last(run), 10, Deleting({}, keep))
    decreases ids
  {
    var s := Last(run);
    if ids == {} {
      longer := run;
      assert At(s, 10, Deleting({}, keep)) == s;
    } else {
      var id :| id in ids;
      var t := At(s, 10, Deleting(ids - {id}, keep));
      assert Unlinked(s, t, id) && FinishStep(s, 10, t);
      longer := Move(run, true, 10, t);
      longer := WriterDeletes(longer, w, ids - {id}, keep);
    }
  }

  lemma {:induction false} WriterSweeps(run: seq<State>, w: Record, ids: set<nat>, cutoff: int) returns (longer: seq<State>)
    requires Run(run, true) && Last(run).threads == map[10 := Thread(Writer(w), Sweeping(ids, cutoff))]
    ensures Run(longer, true) && longer[0] == run[0] && Last(longer) == At(Last(run), 10, Leaving)
    decreases ids
  {
    var s := Last(run);
    if ids == {} {
      longer := Move(run, true, 10, At(s, 10, Leaving));
    } else {
      var id :| id in ids;
      var t := At(s, 10, Sweeping(ids - {id}, cutoff));
      assert Unlinked(s, t, id) && FinishStep(s, 10, t);
      longer := Move(run, true, 10, t);
      longer := WriterSweeps(longer, w, ids - {id}, cutoff);
    }
  }

  lemma WriterLeaves(run: seq<State>, w: Record, ids: set<nat>, keep: set<nat>) returns (longer: seq<State>)
    requires Run(run, true) && Last(run).threads == map[10 := Thread(Writer(w), Deleting(ids, keep))]
    ensures Run(longer, true) && longer[0] == run[0] && Last(longer) == Last(run).(lock := None, threads := map[])
  {
    var s := Last(run);
    longer := WriterDeletes(run, w, ids, keep);
    longer := Move(longer, true, 10, At(s, 10, Listing(keep)));
    var left := s.disk.files.Keys - keep;
    longer := Move(longer, true, 10, At(s, 10, Sweeping(left, s.clock - MAX_AGE)));
    longer := WriterSweeps(longer, w, left, s.clock - MAX_AGE);
    assert Gone(At(s, 10, Leaving).(lock := None), 10) == s.(lock := None, threads := map[]);
    longer := Move(longer, true, 10, s.(lock := None, threads := map[]));
  }

  /**
   A writer about to commit what it read, and a reader about to save an import it merged with the same
   index. They hold different locks.
   */
  function Racing(s: State, w: Record, records: seq<Record>, merged: seq<Record>, used: set<nat>): State {
    Waiting(s, w, used).(migrateLock := Some(11),
                         threads := map[10 := Thread(Writer(w), Committing(s.disk.index)), 11 := Thread(Reader, Saving(records, merged))])
  }

  lemma ReaderOvertakes(run: seq<State>, w: Record)
      returns (longer: seq<State>, records: seq<Record>, merged: seq<Record>, used: set<nat>)
    requires Run(run, true) && Idle(Last(run)) && Entries(Last(run).disk) != [] && w.id !in Last(run).past.used
    ensures Run(longer, true) && longer[0] == run[0] && Last(longer) == Racing(Last(run), w, records, merged, used)
    ensures Ids(records) !! Last(run).past.used + {w.id} && |records| == |Entries(Last(run).disk)|
    ensures forall i, j | 0 <= i < j < |records| :: records[i].id != records[j].id
    ensures multiset(merged) == multiset(records) + multiset(Last(run).disk.index)
  {
    var s, first := Last(run), {};
    longer, first := WriterPassesFailedImport(run, w);
    var waiting := Waiting(s, w, first);
    var entered := waiting.(threads := waiting.threads[11 := Thread(Reader, Checking)]);
    assert Spawn(waiting, 11, Reader, entered);
    longer := Extend(longer, true, entered);
    longer, records, merged, used := ImportAlone(longer, true, 11);
    assert ReadyToSave(entered, 11, records, merged, used) == Racing(s, w, records, merged, used);
  }
}
