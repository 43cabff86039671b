/**
 The activity log as a concurrent, crash-prone store: `record_run` calls, readers and the one-shot
 import of the legacy log, interleaved one file-system step at a time
 (app/activity_log.py, `record_run`, `_load_index`, `migrate_legacy_log`).

 `_lock` serialises whole `record_run` calls. `_migrate_lock` serialises imports. Readers import
 without holding `_lock`; what keeps them from overwriting a commit is an argument about the legacy
 file, the re-check under the lock, and the order of save and rename.
 */
module ActivityLog {
  import opened Options
  import opened ActivityIndex

  datatype LegacyEntry = LegacyEntry(ranAt: Option<int>, lines: nat)

  /** What survives a crash. `files` maps a run id to the modification time of its output file. */
  datatype Disk = Disk(index: seq<Record>, files: map<nat, int>, legacy: Option<seq<LegacyEntry>>)

  datatype Caller = Reader | Writer(record: Record)

  datatype Phase =
    | Entering                                              // writer, waiting for _lock
    | Writing                                               // writer, about to write its output file
    | Checking                                              // legacy file there? (no lock)
    | Queueing                                              // waiting for _migrate_lock
    | Rechecking                                            // legacy file there? (under the lock)
    | Importing(records: seq<Record>)                       // writing the output of entry |records|
    | Merging(records: seq<Record>)                         // about to read the index
    | Saving(records: seq<Record>, merged: seq<Record>)     // about to replace the index
    | Retiring                                              // about to rename the legacy file
    | Reading                                               // about to read the index
    | Committing(entries: seq<Record>)                      // writer, about to replace the index
    | Deleting(ids: set<nat>, keep: set<nat>)               // writer, removing dropped output
    | Listing(keep: set<nat>)                               // writer, about to list orphans
    | Sweeping(ids: set<nat>, cutoff: int)                  // writer, removing aged orphans
    | Leaving                                               // writer, about to release _lock

  datatype Thread = Thread(caller: Caller, phase: Phase)

  /** What happened so far; no step reads it. */
  datatype History = History(
    used: set<nat>,            // ids handed out
    recorded: set<nat>,        // runs whose record was committed
    imports: map<nat, nat>,    // imported record id -> position of its legacy entry
    pruned: set<nat>,          // ids dropped by a commit
    crashes: nat,
    legacy: seq<LegacyEntry>)  // the legacy log at the beginning

  datatype State = State(
    disk: Disk,
    lock: Option<nat>,
    migrateLock: Option<nat>,
    threads: map<nat, Thread>,
    clock: int,
    past: History)

  // ------------------------------------------------------------------
  // Steps
  // ------------------------------------------------------------------

  ghost predicate Init(s: State) {
    && DistinctIds(s.disk.index) && Stored(s.disk.index, s.disk.files)
    && s.lock == None && s.migrateLock == None && s.threads == map[]
    && s.past == History(Ids(s.disk.index), Ids(s.disk.index), map[], {}, 0, s.disk.legacy.GetOr([]))
  }

  function At(s: State, tid: nat, phase: Phase): State
    requires tid in s.threads
  {
    s.(threads := s.threads[tid := s.threads[tid].(phase := phase)])
  }

  function Gone(s: State, tid: nat): State {
    s.(threads := s.threads - {tid})
  }

  function Used(s: State, id: nat): State {
    s.(past := s.past.(used := s.past.used + {id}))
  }

  /** A new caller. A writer's run id is fresh. */
  predicate Spawn(s: State, tid: nat, caller: Caller, t: State) {
    && tid !in s.threads
    && match caller
       case Reader => t == s.(threads := s.threads[tid := Thread(Reader, Checking)])
       case Writer(r) =>
         r.id !in s.past.used && t == Used(s.(threads := s.threads[tid := Thread(caller, Entering)]), r.id)
  }

  /** Every thread dies and every lock with it; the disk stays. */
  predicate Crash(s: State, t: State) {
    t == s.(lock := None, migrateLock := None, threads := map[], past := s.past.(crashes := s.past.crashes + 1))
  }

  /** The clock may be set to anything: nothing here relies on it being right. */
  predicate Tick(s: State, t: State) {
    t == s.(clock := t.clock)
  }

  /** An output file was written, or could not be: then the record says zero lines. */
  predicate Wrote(s: State, id: nat, lines: nat, stored: nat, files: map<nat, int>) {
    || (stored == lines && files == s.disk.files[id := s.clock])
    || (stored == 0 && (files == s.disk.files || files == s.disk.files[id := s.clock]))
  }

  /** record_run before it looks at the index. */
  predicate StartStep(s: State, tid: nat, t: State)
    requires tid in s.threads
  {
    var th := s.threads[tid];
    match th.phase
    case Entering => s.lock == None && t == At(s.(lock := Some(tid)), tid, Writing)
    case Writing =>
      && th.caller.Writer? && tid in t.threads && t.threads[tid].caller.Writer?
      && Wrote(s, th.caller.record.id, th.caller.record.lineCount, t.threads[tid].caller.record.lineCount, t.disk.files)
      && t == s.(disk := s.disk.(files := t.disk.files),
                 threads := s.threads[tid := Thread(Writer(th.caller.record.(lineCount := t.threads[tid].caller.record.lineCount)), Checking)])
    case _ => false
  }

  predicate NewestFirst(records: seq<Record>, now: int) {
    forall i, j | 0 <= i < j < |records| :: Stamp(records[i], now) >= Stamp(records[j], now)
  }

  function ImportsOf(records: seq<Record>): map<nat, nat> {
    if records == [] then map[]
    else ImportsOf(records[..|records| - 1])[records[|records| - 1].id := |records| - 1]
  }

  /** One legacy entry became the record `r`, its output written under a fresh id. */
  predicate ImportOne(s: State, tid: nat, records: seq<Record>, entry: LegacyEntry, r: Record, t: State)
    requires tid in s.threads
  {
    && r.id !in s.past.used && r.startedAt == entry.ranAt
    && Wrote(s, r.id, entry.lines, r.lineCount, t.disk.files)
    && t == Used(At(s.(disk := s.disk.(files := t.disk.files)), tid, Importing(records + [r])), r.id)
  }

  /**
   migrate_legacy_log. With `faults`, saving the index or renaming the legacy file may fail: the
   error is logged, the lock is released, and the caller goes on with the legacy file still there.
   */
  ghost predicate MigrateStep(s: State, tid: nat, faults: bool, t: State)
    requires tid in s.threads
  {
    match s.threads[tid].phase
    case Checking =>
      t == At(s, tid, if s.disk.legacy.None? then Reading else Queueing)
    case Queueing =>
      s.migrateLock == None && t == At(s.(migrateLock := Some(tid)), tid, Rechecking)
    case Rechecking =>
      t == if s.disk.legacy.None? then At(s.(migrateLock := None), tid, Reading) else At(s, tid, Importing([]))
    case Importing(records) =>
      && s.disk.legacy.Some?
      && var entries := s.disk.legacy.value;
         if |records| >= |entries| then t == At(s, tid, if records == [] then Retiring else Merging(records))
         else exists r :: ImportOne(s, tid, records, entries[|records|], r, t)
    case Merging(records) =>
      exists merged :: multiset(merged) == multiset(records) + multiset(s.disk.index) && NewestFirst(merged, s.clock)
                       && t == At(s, tid, Saving(records, merged))
    case Saving(records, merged) =>
      || t == At(s.(disk := s.disk.(index := merged),
                    past := s.past.(imports := s.past.imports + ImportsOf(records))), tid, Retiring)
      || (faults && t == At(s.(migrateLock := None), tid, Reading))
    case Retiring =>
      || t == At(s.(disk := s.disk.(legacy := None), migrateLock := None), tid, Reading)
      || (faults && t == At(s.(migrateLock := None), tid, Reading))
    case _ => false
  }

  /** The new index replaces the old one in one step; only then is dropped output removed. */
  predicate CommitsTo(s: State, tid: nat, r: Record, kept: seq<Record>, dropped: seq<Record>, t: State)
    requires tid in s.threads
  {
    t == At(s.(disk := s.disk.(index := kept),
               past := s.past.(recorded := s.past.recorded + {r.id}, pruned := s.past.pruned + Ids(dropped))),
            tid, Deleting(Ids(dropped), Ids(kept)))
  }

  /** Reading the index, and the rest of record_run. */
  predicate FinishStep(s: State, tid: nat, t: State)
    requires tid in s.threads
  {
    var th := s.threads[tid];
    match th.phase
    case Reading =>
      t == if th.caller.Reader? then Gone(s, tid) else At(s, tid, Committing(s.disk.index))
    case Committing(entries) =>
      && th.caller.Writer?
      && var all, id := [th.caller.record] + entries, th.caller.record.id;
         var kept, dropped := Kept(all, id, s.clock), Dropped(all, id, s.clock);
         || CommitsTo(s, tid, th.caller.record, kept, dropped, t)
         || t == At(s, tid, Leaving)   // the save failed; record_run swallows it
    case Deleting(ids, keep) =>
      if ids == {} then t == At(s, tid, Listing(keep))
      else exists id | id in ids :: Unlinked(s, t, id) && t == At(s.(disk := t.disk), tid, Deleting(ids - {id}, keep))
    case Listing(keep) =>
      t == At(s, tid, Sweeping(s.disk.files.Keys - keep, s.clock - MAX_AGE))
    case Sweeping(ids, cutoff) =>
      if ids == {} then t == At(s, tid, Leaving)
      else exists id | id in ids ::
             && (if id in s.disk.files && s.disk.files[id] < cutoff then Unlinked(s, t, id) else t.disk == s.disk)
             && t == At(s.(disk := t.disk), tid, Sweeping(ids - {id}, cutoff))
    case Leaving => t == Gone(s.(lock := None), tid)
    case _ => false
  }

  /** The file is gone, or could not be removed. */
  predicate Unlinked(s: State, t: State, id: nat) {
    t.disk == s.disk || t.disk == s.disk.(files := s.disk.files - {id})
  }

  ghost predicate ThreadStep(s: State, tid: nat, faults: bool, t: State) {
    tid in s.threads && (StartStep(s, tid, t) || MigrateStep(s, tid, faults, t) || FinishStep(s, tid, t))
  }

  ghost predicate Next(s: State, faults: bool, t: State) {
    || Crash(s, t) || Tick(s, t)
    || (exists tid, caller :: Spawn(s, tid, caller, t))
    || (exists tid :: ThreadStep(s, tid, faults, t))
  }

  ghost predicate Run(run: seq<State>, faults: bool) {
    && run != [] && Init(run[0])
    && forall k | 0 <= k < |run| - 1 :: Next(run[k], faults, run[k + 1])
  }

  // ------------------------------------------------------------------
  // The invariant
  // ------------------------------------------------------------------

  /** Every record that promises output has it on disk. */
  ghost predicate Stored(records: seq<Record>, files: map<nat, int>) {
    forall r | r in records && r.lineCount > 0 :: r.id in files
  }

  predicate InImport(p: Phase) {
    p.Importing? || p.Merging? || p.Saving? || p.Retiring?
  }

  predicate PastImport(p: Phase) {
    p.Reading? || p.Committing? || p.Deleting? || p.Listing? || p.Sweeping? || p.Leaving?
  }

  predicate Committed(p: Phase) {
    p.Deleting? || p.Listing? || p.Sweeping? || p.Leaving?
  }

  predicate OutputWritten(th: Thread) {
    th.caller.Writer? && !th.phase.Entering? && !th.phase.Writing? && !Committed(th.phase)
  }

  /** Records a thread has prepared but not committed. */
  function PendingOf(th: Thread): set<nat> {
    (if th.caller.Writer? && !Committed(th.phase) then {th.caller.record.id} else {})
    + (match th.phase
       case Importing(records) => Ids(records)
       case Merging(records) => Ids(records)
       case Saving(records, _) => Ids(records)
       case _ => {})
  }

  ghost predicate RecordsOk(s: State, records: seq<Record>) {
    && |records| <= |s.past.legacy|
    && (forall i, j | 0 <= i < j < |records| :: records[i].id != records[j].id)
    && Stored(records, s.disk.files)
  }

  /** Every legacy entry is already among the imports. */
  ghost predicate AllImported(past: History) {
    forall k | 0 <= k < |past.legacy| :: k in past.imports.Values
  }

  ghost predicate PhaseOk(s: State, th: Thread) {
    match th.phase
    case Importing(records) => RecordsOk(s, records)
    case Merging(records) => RecordsOk(s, records) && |records| == |s.past.legacy|
    case Saving(records, merged) =>
      && RecordsOk(s, records) && |records| == |s.past.legacy|
      && multiset(merged) == multiset(records) + multiset(s.disk.index)
    case Retiring => AllImported(s.past)
    case Committing(entries) => entries == s.disk.index
    case Deleting(ids, keep) => keep == Ids(s.disk.index) && ids !! keep && ids <= s.past.pruned
    case Listing(keep) => keep == Ids(s.disk.index)
    case Sweeping(ids, _) => ids !! Ids(s.disk.index)
    case _ => true
  }

  ghost predicate ThreadOk(s: State, tid: nat)
    requires tid in s.threads
  {
    var th := s.threads[tid];
    && (th.caller.Writer? && !th.phase.Entering? <==> s.lock == Some(tid))
    && (th.phase.Rechecking? || InImport(th.phase) <==> s.migrateLock == Some(tid))
    && (th.caller.Reader? ==> !th.phase.Entering? && !th.phase.Writing? && !th.phase.Committing? && !Committed(th.phase))
    && (InImport(th.phase) ==> s.disk.legacy.Some?)
    && (PastImport(th.phase) ==> s.disk.legacy.None?)
    && (OutputWritten(th) && th.caller.record.lineCount > 0 ==> th.caller.record.id in s.disk.files)
    && PendingOf(th) <= s.past.used
    && PendingOf(th) !! Ids(s.disk.index)
    && PendingOf(th) !! s.past.recorded + s.past.imports.Keys
    && (th.caller.Writer? && InImport(th.phase) && !th.phase.Retiring? ==> th.caller.record.id !in PendingOf(th.(caller := Reader)))
    && PhaseOk(s, th)
  }

  /** Conservation: the index holds exactly what was recorded or imported and not pruned. */
  ghost predicate Accounted(s: State) {
    && Ids(s.disk.index) == (s.past.recorded + s.past.imports.Keys) - s.past.pruned
    && s.past.recorded !! s.past.imports.Keys
    && s.past.pruned <= s.past.recorded + s.past.imports.Keys <= s.past.used
  }

  /** With no crash, an import is followed by the retirement of its source before any other import. */
  ghost predicate ImportedOnce(s: State) {
    s.past.crashes == 0 ==>
      && (forall a, b | a in s.past.imports && b in s.past.imports && a != b :: s.past.imports[a] != s.past.imports[b])
      && (s.past.imports == map[] || s.disk.legacy.None?
          || (s.migrateLock.Some? && s.migrateLock.value in s.threads && s.threads[s.migrateLock.value].phase.Retiring?))
  }

  /** What holds of the disk and the history. */
  ghost predicate StoreOk(s: State) {
    && DistinctIds(s.disk.index) && Stored(s.disk.index, s.disk.files)
    && (s.disk.legacy.Some? ==> s.disk.legacy.value == s.past.legacy)
    && (s.disk.legacy.None? ==> AllImported(s.past))
    && Accounted(s) && ImportedOnce(s)
  }

  /** What holds of the threads and the locks. */
  ghost predicate ThreadsOk(s: State) {
    && (s.lock.Some? ==> s.lock.value in s.threads)
    && (s.migrateLock.Some? ==> s.migrateLock.value in s.threads)
    && (forall tid | tid in s.threads :: ThreadOk(s, tid))
    && (forall a, b | a in s.threads && b in s.threads && a != b :: PendingOf(s.threads[a]) !! PendingOf(s.threads[b]))
  }

  ghost predicate Inv(s: State) {
    StoreOk(s) && ThreadsOk(s)
  }

  // ------------------------------------------------------------------
  // Preservation
  // ------------------------------------------------------------------

  predicate SameHolder(s: State, u: nat, t: State) {
    (s.lock == Some(u) <==> t.lock == Some(u)) && (s.migrateLock == Some(u) <==> t.migrateLock == Some(u))
  }

  /** A thread that only watches files appear and ids being handed out stays in order. */
  lemma BystanderOk(s: State, u: nat, t: State)
    requires u in s.threads && u in t.threads && s.threads[u] == t.threads[u] && ThreadOk(s, u) && SameHolder(s, u, t)
    requires t.disk.index == s.disk.index && t.disk.legacy == s.disk.legacy && s.disk.files.Keys <= t.disk.files.Keys
    requires t.past == s.past.(used := t.past.used) && s.past.used <= t.past.used
    ensures ThreadOk(t, u)
  {
  }

  /** Phases that rely on no file and no index content. */
  predicate Quiet(p: Phase) {
    p.Entering? || p.Writing? || p.Checking? || p.Queueing? || p.Rechecking? || p.Reading?
  }

  lemma QuietOk(s: State, u: nat, t: State)
    requires u in s.threads && u in t.threads && s.threads[u] == t.threads[u] && ThreadOk(s, u) && SameHolder(s, u, t)
    requires Quiet(s.threads[u].phase) && (s.threads[u].phase.Reading? ==> t.disk.legacy.None?)
    requires OutputWritten(s.threads[u]) ==> s.disk.files.Keys <= t.disk.files.Keys
    requires PendingOf(s.threads[u]) !! Ids(t.disk.index)
    requires PendingOf(s.threads[u]) !! t.past.recorded + t.past.imports.Keys
    requires s.past.used <= t.past.used
    ensures ThreadOk(t, u)
  {
  }

  predicate LockMoves(before: Option<nat>, tid: nat, after: Option<nat>) {
    after == before || (before == None && after == Some(tid)) || (before == Some(tid) && after == None)
  }

  /** A step that only concerns its own thread: the store gains files and ids, nothing else changes. */
  ghost predicate LocalStep(s: State, tid: nat, t: State) {
    && tid in s.threads && tid in t.threads && t.threads == s.threads[tid := t.threads[tid]]
    && t.disk == s.disk.(files := t.disk.files) && s.disk.files.Keys <= t.disk.files.Keys
    && t.past == s.past.(used := t.past.used) && s.past.used <= t.past.used
    && LockMoves(s.lock, tid, t.lock) && LockMoves(s.migrateLock, tid, t.migrateLock)
    && !s.threads[tid].phase.Retiring?
    && forall id | id in PendingOf(t.threads[tid]) :: id in PendingOf(s.threads[tid]) || id !in s.past.used
  }

  lemma LocalStepKeepsThreads(s: State, tid: nat, t: State)
    requires ThreadsOk(s) && LocalStep(s, tid, t) && ThreadOk(t, tid)
    ensures ThreadsOk(t)
  {
    forall u | u in t.threads
      ensures ThreadOk(t, u)
    {
      if u != tid {
        assert ThreadOk(s, u);
        BystanderOk(s, u, t);
      }
    }
    forall a, b | a in t.threads && b in t.threads && a != b
      ensures PendingOf(t.threads[a]) !! PendingOf(t.threads[b])
    {
      assert ThreadOk(s, a) && ThreadOk(s, b);
    }
  }

  lemma LocalStepKeepsInv(s: State, tid: nat, t: State)
    requires Inv(s) && LocalStep(s, tid, t) && ThreadOk(t, tid)
    ensures Inv(t)
  {
    LocalStepKeepsThreads(s, tid, t);
    LocalStepKeepsStore(s, tid, t);
  }

  lemma LocalStepKeepsStore(s: State, tid: nat, t: State)
    requires StoreOk(s) && LocalStep(s, tid, t) && ThreadOk(s, tid) && ThreadOk(t, tid)
    ensures StoreOk(t)
  {
  }

  function Known(s: State): set<nat> {
    Ids(s.disk.index) + s.past.recorded + s.past.imports.Keys
  }

  /** A step that changes the store: it only publishes ids of its own, and finds everyone else quiet. */
  ghost predicate StoreStep(s: State, tid: nat, t: State) {
    && tid in s.threads && tid in t.threads && t.threads == s.threads[tid := t.threads[tid]]
    && LockMoves(s.lock, tid, t.lock) && LockMoves(s.migrateLock, tid, t.migrateLock)
    && t.past.used == s.past.used && PendingOf(t.threads[tid]) <= PendingOf(s.threads[tid])
    && Known(t) <= Known(s) + PendingOf(s.threads[tid])
    && forall u | u in s.threads && u != tid ::
         && Quiet(s.threads[u].phase) && (s.threads[u].phase.Reading? ==> t.disk.legacy.None?)
         && (OutputWritten(s.threads[u]) ==> s.disk.files.Keys <= t.disk.files.Keys)
  }

  lemma StoreStepKeepsThreads(s: State, tid: nat, t: State)
    requires ThreadsOk(s) && StoreStep(s, tid, t) && ThreadOk(t, tid)
    ensures ThreadsOk(t)
  {
    forall u | u in t.threads && u != tid
      ensures ThreadOk(t, u)
    {
      assert ThreadOk(s, u);
      assert PendingOf(s.threads[u]) !! Known(s) + PendingOf(s.threads[tid]);
      QuietOk(s, u, t);
    }
  }

  /** While one thread imports, every other one is still in front of the index. */
  lemma OthersQuietDuringImport(s: State, tid: nat)
    requires ThreadsOk(s) && tid in s.threads && InImport(s.threads[tid].phase)
    ensures forall u | u in s.threads && u != tid :: Quiet(s.threads[u].phase) && !s.threads[u].phase.Reading?
  {
    assert ThreadOk(s, tid);
    forall u | u in s.threads && u != tid
      ensures Quiet(s.threads[u].phase) && !s.threads[u].phase.Reading?
    {
      assert ThreadOk(s, u);
    }
  }

  /** While one writer is past the import, no other thread has output at stake. */
  lemma OthersQuietDuringCommit(s: State, tid: nat)
    requires ThreadsOk(s) && tid in s.threads && s.threads[tid].caller.Writer? && PastImport(s.threads[tid].phase)
    ensures forall u | u in s.threads && u != tid :: Quiet(s.threads[u].phase) && !OutputWritten(s.threads[u])
  {
    assert ThreadOk(s, tid);
    forall u | u in s.threads && u != tid
      ensures Quiet(s.threads[u].phase) && !OutputWritten(s.threads[u])
    {
      assert ThreadOk(s, u);
    }
  }

  lemma StartIsLocal(s: State, tid: nat, t: State)
    requires tid in s.threads && ThreadOk(s, tid) && StartStep(s, tid, t)
    ensures LocalStep(s, tid, t) && ThreadOk(t, tid)
  {
  }

  lemma LookingIsLocal(s: State, tid: nat, t: State)
    requires tid in s.threads && ThreadOk(s, tid) && MigrateStep(s, tid, false, t)
    requires s.threads[tid].phase.Checking? || s.threads[tid].phase.Queueing? || s.threads[tid].phase.Rechecking?
    ensures LocalStep(s, tid, t) && ThreadOk(t, tid)
  {
  }

  lemma ImportOneIsLocal(s: State, tid: nat, r: Record, t: State)
    requires tid in s.threads && ThreadOk(s, tid) && s.threads[tid].phase.Importing? && Accounted(s)
    requires |s.threads[tid].phase.records| < |s.past.legacy|
    requires ImportOne(s, tid, s.threads[tid].phase.records, s.past.legacy[|s.threads[tid].phase.records|], r, t)
    ensures LocalStep(s, tid, t) && ThreadOk(t, tid)
  {
    var records := s.threads[tid].phase.records;
    assert Ids(records + [r]) == Ids(records) + {r.id};
    assert Ids(records) <= PendingOf(s.threads[tid]);
  }

  lemma ImportingIsLocal(s: State, tid: nat, t: State)
    requires tid in s.threads && ThreadOk(s, tid) && MigrateStep(s, tid, false, t) && s.threads[tid].phase.Importing?
    requires Accounted(s) && (s.disk.legacy.Some? ==> s.disk.legacy.value == s.past.legacy)
    ensures LocalStep(s, tid, t) && ThreadOk(t, tid)
  {
    var records := s.threads[tid].phase.records;
    if |records| < |s.past.legacy| {
      var r :| ImportOne(s, tid, records, s.past.legacy[|records|], r, t);
      ImportOneIsLocal(s, tid, r, t);
    }
  }

  lemma MergingIsLocal(s: State, tid: nat, t: State)
    requires tid in s.threads && ThreadOk(s, tid) && MigrateStep(s, tid, false, t) && s.threads[tid].phase.Merging?
    ensures LocalStep(s, tid, t) && ThreadOk(t, tid)
  {
  }

  lemma ListingIsLocal(s: State, tid: nat, t: State)
    requires tid in s.threads && ThreadOk(s, tid) && FinishStep(s, tid, t)
    requires s.threads[tid].phase.Listing? || (s.threads[tid].phase.Reading? && s.threads[tid].caller.Writer?)
    ensures LocalStep(s, tid, t) && ThreadOk(t, tid)
  {
  }

  // The import is committed, then its source is retired.

  lemma {:induction false} ImportsOfRecords(records: seq<Record>)
    requires forall i, j | 0 <= i < j < |records| :: records[i].id != records[j].id
    ensures ImportsOf(records).Keys == Ids(records)
    ensures forall i | 0 <= i < |records| :: records[i].id in ImportsOf(records) && ImportsOf(records)[records[i].id] == i
  {
    ImportsHaveIds(records);
    forall i | 0 <= i < |records|
      ensures records[i].id in ImportsOf(records) && ImportsOf(records)[records[i].id] == i
    {
      ImportOfRecord(records, i);
    }
  }

  lemma {:induction false} ImportsHaveIds(records: seq<Record>)
    ensures ImportsOf(records).Keys == Ids(records)
  {
    if records != [] {
      var front, last := records[..|records| - 1], records[|records| - 1];
      ImportsHaveIds(front);
      IdsGrow(front, last);
      assert records == front + [last];
    }
  }

  lemma {:induction false} ImportOfRecord(records: seq<Record>, i: nat)
    requires i < |records| && forall j | i < j < |records| :: records[i].id != records[j].id
    ensures records[i].id in ImportsOf(records) && ImportsOf(records)[records[i].id] == i
  {
    var n := |records| - 1;
    if i < n {
      assert records[..n][i] == records[i];
      ImportOfRecord(records[..n], i);
    }
  }

  lemma IdsGrow(front: seq<Record>, last: Record)
    ensures Ids(front + [last]) == Ids(front) + {last.id}
  {
    assert forall r :: r in front + [last] <==> r in front || r == last;
  }

  lemma MergedIsDistinct(records: seq<Record>, index: seq<Record>, merged: seq<Record>)
    requires forall i, j | 0 <= i < j < |records| :: records[i].id != records[j].id
    requires DistinctIds(index) && Ids(records) !! Ids(index)
    requires multiset(merged) == multiset(records) + multiset(index)
    ensures DistinctIds(merged) && Ids(merged) == Ids(records) + Ids(index)
    ensures forall r | r in merged :: r in records || r in index
  {
    InBoth(records, index, merged);
    forall r | r in merged
      ensures multiset(merged)[r] == 1
    {
      OnceInEither(records, index, r);
    }
  }

  lemma OnceInEither(records: seq<Record>, index: seq<Record>, r: Record)
    requires forall i, j | 0 <= i < j < |records| :: records[i].id != records[j].id
    requires DistinctIds(index) && Ids(records) !! Ids(index) && (r in records || r in index)
    ensures (multiset(records) + multiset(index))[r] == 1
  {
    if r in records {
      OnceIn(records, r);
      assert r.id in Ids(records);
    } else {
      assert r !in multiset(records);
    }
  }

  lemma {:induction false} OnceIn(records: seq<Record>, r: Record)
    requires r in records && forall i, j | 0 <= i < j < |records| :: records[i].id != records[j].id
    ensures multiset(records)[r] == 1
  {
    var front, last := records[..|records| - 1], records[|records| - 1];
    assert records == front + [last];
    if r in front {
      OnceIn(front, r);
    }
  }

  lemma SavedIsImported(s: State, records: seq<Record>, t: State)
    requires RecordsOk(s, records) && |records| == |s.past.legacy| && t.past == s.past.(imports := s.past.imports + ImportsOf(records))
    ensures AllImported(t.past)
  {
    ImportsOfRecords(records);
    forall k | 0 <= k < |t.past.legacy|
      ensures k in t.past.imports.Values
    {
      assert t.past.imports[records[k].id] == k;
    }
  }

  lemma SavingKeepsAccounts(s: State, records: seq<Record>, t: State)
    requires Accounted(s) && DistinctIds(s.disk.index) && RecordsOk(s, records) && Ids(records) <= s.past.used
    requires Ids(records) !! Ids(s.disk.index) && Ids(records) !! s.past.recorded + s.past.imports.Keys
    requires multiset(t.disk.index) == multiset(records) + multiset(s.disk.index)
    requires t.past == s.past.(imports := s.past.imports + ImportsOf(records))
    ensures Accounted(t)
  {
    MergedIsDistinct(records, s.disk.index, t.disk.index);
    ImportsOfRecords(records);
  }

  /** The import that is saved is the first one, unless a crash came before. */
  lemma SavingImportsOnce(s: State, tid: nat, records: seq<Record>, t: State)
    requires ImportedOnce(s) && s.disk.legacy.Some? && s.migrateLock == Some(tid) && tid in s.threads && !s.threads[tid].phase.Retiring?
    requires RecordsOk(s, records) && t.past == s.past.(imports := s.past.imports + ImportsOf(records))
    requires t.migrateLock == Some(tid) && tid in t.threads && t.threads[tid].phase.Retiring?
    ensures ImportedOnce(t)
  {
    ImportsOfRecords(records);
    if s.past.crashes == 0 {
      assert t.past.imports == ImportsOf(records);
      forall a, b | a in t.past.imports && b in t.past.imports && a != b
        ensures t.past.imports[a] != t.past.imports[b]
      {
        var i :| 0 <= i < |records| && records[i].id == a;
        var j :| 0 <= j < |records| && records[j].id == b;
      }
    }
  }

  lemma SavingKeepsStore(s: State, tid: nat, t: State)
    requires StoreOk(s) && tid in s.threads && ThreadOk(s, tid) && MigrateStep(s, tid, false, t) && s.threads[tid].phase.Saving?
    ensures StoreOk(t)
  {
    var Saving(records, merged) := s.threads[tid].phase;
    assert Ids(records) <= PendingOf(s.threads[tid]);
    MergedIsDistinct(records, s.disk.index, merged);
    SavingKeepsAccounts(s, records, t);
    SavedIsImported(s, records, t);
    SavingImportsOnce(s, tid, records, t);
  }

  lemma SavingPublishes(s: State, tid: nat, t: State)
    requires tid in s.threads && ThreadOk(s, tid) && MigrateStep(s, tid, false, t) && s.threads[tid].phase.Saving?
    requires DistinctIds(s.disk.index)
    ensures Ids(t.disk.index) == Ids(s.disk.index) + Ids(s.threads[tid].phase.records)
    ensures t.past.imports.Keys == s.past.imports.Keys + Ids(s.threads[tid].phase.records)
    ensures Ids(s.threads[tid].phase.records) <= PendingOf(s.threads[tid]) && AllImported(t.past)
  {
    var Saving(records, merged) := s.threads[tid].phase;
    MergedIsDistinct(records, s.disk.index, merged);
    ImportsOfRecords(records);
    SavedIsImported(s, records, t);
  }

  lemma SavingKeepsThread(s: State, tid: nat, t: State)
    requires tid in s.threads && ThreadOk(s, tid) && s.threads[tid].phase.Saving?
    requires t == At(s.(disk := s.disk.(index := t.disk.index), past := s.past.(imports := t.past.imports)), tid, Retiring)
    requires Ids(t.disk.index) == Ids(s.disk.index) + Ids(s.threads[tid].phase.records)
    requires t.past.imports.Keys == s.past.imports.Keys + Ids(s.threads[tid].phase.records) && AllImported(t.past)
    ensures ThreadOk(t, tid) && Known(t) <= Known(s) + PendingOf(s.threads[tid])
  {
  }

  lemma SavingKeepsInv(s: State, tid: nat, t: State)
    requires Inv(s) && tid in s.threads && MigrateStep(s, tid, false, t) && s.threads[tid].phase.Saving?
    ensures Inv(t)
  {
    SavingKeepsStore(s, tid, t);
    SavingPublishes(s, tid, t);
    SavingKeepsThread(s, tid, t);
    OthersQuietDuringImport(s, tid);
    StoreStepKeepsThreads(s, tid, t);
  }

  lemma RetiringKeepsStore(s: State, tid: nat, t: State)
    requires StoreOk(s) && tid in s.threads && ThreadOk(s, tid) && MigrateStep(s, tid, false, t) && s.threads[tid].phase.Retiring?
    ensures StoreOk(t) && ThreadOk(t, tid) && Known(t) == Known(s)
  {
  }

  lemma RetiringKeepsInv(s: State, tid: nat, t: State)
    requires Inv(s) && tid in s.threads && MigrateStep(s, tid, false, t) && s.threads[tid].phase.Retiring?
    ensures Inv(t)
  {
    RetiringKeepsStore(s, tid, t);
    OthersQuietDuringImport(s, tid);
    StoreStepKeepsThreads(s, tid, t);
  }

  // The commit of a run, and the clean-up after it.

  /** `kept` and `dropped` split the index with `r` in front. */
  ghost predicate Splits(r: Record, index: seq<Record>, kept: seq<Record>, dropped: seq<Record>) {
    && DistinctIds(kept) && Ids(kept) !! Ids(dropped) && Ids(kept) + Ids(dropped) == {r.id} + Ids(index)
    && forall q | q in kept :: q == r || q in index
  }

  lemma CommitSplits(r: Record, index: seq<Record>, now: int)
    requires DistinctIds(index) && r.id !in Ids(index)
    ensures Splits(r, index, Kept([r] + index, r.id, now), Dropped([r] + index, r.id, now))
  {
    ConsKeepsDistinct(r, index);
    KeptIdsLeaveDroppedIds([r] + index, r.id, now);
  }

  lemma CommitKeepsStore(s: State, tid: nat, r: Record, kept: seq<Record>, dropped: seq<Record>, t: State)
    requires StoreOk(s) && tid in s.threads && ThreadOk(s, tid) && s.threads[tid].phase.Committing?
    requires s.threads[tid].caller == Writer(r) && Splits(r, s.disk.index, kept, dropped) && CommitsTo(s, tid, r, kept, dropped, t)
    ensures StoreOk(t)
  {
    assert PendingOf(s.threads[tid]) == {r.id};
  }

  lemma CommitKeepsThread(s: State, tid: nat, r: Record, kept: seq<Record>, dropped: seq<Record>, t: State)
    requires tid in s.threads && ThreadOk(s, tid) && s.threads[tid].phase.Committing?
    requires s.threads[tid].caller == Writer(r) && Splits(r, s.disk.index, kept, dropped) && CommitsTo(s, tid, r, kept, dropped, t)
    ensures ThreadOk(t, tid) && Known(t) <= Known(s) + PendingOf(s.threads[tid])
  {
    assert PendingOf(s.threads[tid]) == {r.id};
    assert PendingOf(t.threads[tid]) == {};
  }

  lemma CommitKeepsInv(s: State, tid: nat, r: Record, kept: seq<Record>, dropped: seq<Record>, t: State)
    requires Inv(s) && tid in s.threads && s.threads[tid].phase.Committing?
    requires s.threads[tid].caller == Writer(r) && Splits(r, s.disk.index, kept, dropped) && CommitsTo(s, tid, r, kept, dropped, t)
    ensures Inv(t)
  {
    CommitKeepsStore(s, tid, r, kept, dropped, t);
    CommitKeepsThread(s, tid, r, kept, dropped, t);
    OthersQuietDuringCommit(s, tid);
    StoreStepKeepsThreads(s, tid, t);
  }

  lemma CommittingKeepsInv(s: State, tid: nat, t: State)
    requires Inv(s) && tid in s.threads && FinishStep(s, tid, t) && s.threads[tid].phase.Committing?
    ensures Inv(t)
  {
    assert ThreadOk(s, tid);
    var r := s.threads[tid].caller.record;
    if t == At(s, tid, Leaving) {
      LocalStepKeepsInv(s, tid, t);
    } else {
      var all := [r] + s.disk.index;
      CommitSplits(r, s.disk.index, s.clock);
      CommitKeepsInv(s, tid, r, Kept(all, r.id, s.clock), Dropped(all, r.id, s.clock), t);
    }
  }

  /** Removing a file no committed record points to harms no record. */
  lemma UnlinkKeepsStored(s: State, t: State, id: nat)
    requires Stored(s.disk.index, s.disk.files) && id !in Ids(s.disk.index) && Unlinked(s, t, id)
    ensures Stored(t.disk.index, t.disk.files) && t.disk.index == s.disk.index
  {
  }

  lemma CleaningKeepsStore(s: State, tid: nat, t: State)
    requires StoreOk(s) && tid in s.threads && ThreadOk(s, tid) && FinishStep(s, tid, t)
    requires s.threads[tid].phase.Deleting? || s.threads[tid].phase.Sweeping?
    ensures StoreOk(t)
  {
    if t.disk != s.disk {
      var id :| id in s.threads[tid].phase.ids && Unlinked(s, t, id);
      UnlinkKeepsStored(s, t, id);
    }
  }

  lemma CleaningKeepsThread(s: State, tid: nat, t: State)
    requires tid in s.threads && ThreadOk(s, tid) && FinishStep(s, tid, t)
    requires s.threads[tid].phase.Deleting? || s.threads[tid].phase.Sweeping?
    ensures ThreadOk(t, tid) && Known(t) == Known(s)
  {
  }

  lemma CleaningKeepsInv(s: State, tid: nat, t: State)
    requires Inv(s) && tid in s.threads && FinishStep(s, tid, t)
    requires s.threads[tid].phase.Deleting? || s.threads[tid].phase.Sweeping?
    ensures Inv(t)
  {
    CleaningKeepsStore(s, tid, t);
    CleaningKeepsThread(s, tid, t);
    OthersQuietDuringCommit(s, tid);
    StoreStepKeepsThreads(s, tid, t);
  }

  lemma LeavingKeepsInv(s: State, tid: nat, t: State)
    requires Inv(s) && tid in s.threads && FinishStep(s, tid, t)
    requires s.threads[tid].phase.Leaving? || (s.threads[tid].phase.Reading? && s.threads[tid].caller.Reader?)
    ensures Inv(t)
  {
    assert ThreadOk(s, tid);
    forall u | u in t.threads
      ensures ThreadOk(t, u)
    {
      assert ThreadOk(s, u);
      BystanderOk(s, u, t);
    }
  }

  lemma SpawnKeepsThreads(s: State, tid: nat, caller: Caller, t: State)
    requires ThreadsOk(s) && Accounted(s) && Spawn(s, tid, caller, t)
    ensures ThreadsOk(t)
  {
    forall u | u in t.threads && u != tid
      ensures ThreadOk(t, u) && PendingOf(t.threads[u]) <= s.past.used
    {
      assert ThreadOk(s, u);
      BystanderOk(s, u, t);
    }
    assert ThreadOk(t, tid);
  }

  lemma SpawnKeepsInv(s: State, tid: nat, caller: Caller, t: State)
    requires Inv(s) && Spawn(s, tid, caller, t)
    ensures Inv(t)
  {
    SpawnKeepsThreads(s, tid, caller, t);
    assert StoreOk(t);
  }

  lemma TickKeepsInv(s: State, t: State)
    requires Inv(s) && Tick(s, t)
    ensures Inv(t)
  {
    forall u | u in t.threads
      ensures ThreadOk(t, u)
    {
      assert ThreadOk(s, u);
      BystanderOk(s, u, t);
    }
  }

  lemma CrashKeepsInv(s: State, t: State)
    requires Inv(s) && Crash(s, t)
    ensures Inv(t)
  {
  }

  lemma MigrateKeepsInv(s: State, tid: nat, t: State)
    requires Inv(s) && tid in s.threads && MigrateStep(s, tid, false, t)
    ensures Inv(t)
  {
    assert ThreadOk(s, tid);
    match s.threads[tid].phase
    case Saving(_, _) => SavingKeepsInv(s, tid, t);
    case Retiring => RetiringKeepsInv(s, tid, t);
    case Importing(_) => ImportingIsLocal(s, tid, t); LocalStepKeepsInv(s, tid, t);
    case Merging(_) => MergingIsLocal(s, tid, t); LocalStepKeepsInv(s, tid, t);
    case _ => LookingIsLocal(s, tid, t); LocalStepKeepsInv(s, tid, t);
  }

  lemma FinishKeepsInv(s: State, tid: nat, t: State)
    requires Inv(s) && tid in s.threads && FinishStep(s, tid, t)
    ensures Inv(t)
  {
    assert ThreadOk(s, tid);
    var phase := s.threads[tid].phase;
    if phase.Committing? {
      CommittingKeepsInv(s, tid, t);
    } else if phase.Deleting? || phase.Sweeping? {
      CleaningKeepsInv(s, tid, t);
    } else if phase.Leaving? || (phase.Reading? && s.threads[tid].caller.Reader?) {
      LeavingKeepsInv(s, tid, t);
    } else {
      ListingIsLocal(s, tid, t);
      LocalStepKeepsInv(s, tid, t);
    }
  }

  lemma NextKeepsInv(s: State, t: State)
    requires Inv(s) && Next(s, false, t)
    ensures Inv(t)
  {
    if Crash(s, t) {
      CrashKeepsInv(s, t);
    } else if Tick(s, t) {
      TickKeepsInv(s, t);
    } else if tid, caller :| Spawn(s, tid, caller, t) {
      SpawnKeepsInv(s, tid, caller, t);
    } else {
      var tid :| ThreadStep(s, tid, false, t);
      assert ThreadOk(s, tid);
      if StartStep(s, tid, t) {
        StartIsLocal(s, tid, t);
        LocalStepKeepsInv(s, tid, t);
      } else if MigrateStep(s, tid, false, t) {
        MigrateKeepsInv(s, tid, t);
      } else {
        FinishKeepsInv(s, tid, t);
      }
    }
  }

  function Last(run: seq<State>): State
    requires run != []
  {
    run[|run| - 1]
  }

  lemma InitIsInv(s: State)
    requires Init(s)
    ensures Inv(s)
  {
  }

  lemma {:induction false} RunKeepsInv(run: seq<State>)
    requires Run(run, false)
    ensures Inv(Last(run))
    decreases |run|
  {
    if |run| == 1 {
      InitIsInv(run[0]);
    } else {
      var before := run[..|run| - 1];
      RunKeepsInv(before);
      assert Next(run[|run| - 2], false, run[|run| - 1]);
      NextKeepsInv(Last(before), Last(run));
    }
  }

  // ------------------------------------------------------------------
  // What every run guarantees
  // ------------------------------------------------------------------

  /** In every interleaving and after every crash, a record that promises output has its file. */
  lemma CommittedOutputIsOnDisk(run: seq<State>, r: Record)
    requires Run(run, false) && r in Last(run).disk.index && r.lineCount > 0
    ensures r.id in Last(run).disk.files
  {
    RunKeepsInv(run);
  }

  /**
   Nothing is lost: the index holds exactly the runs recorded and the entries imported that no
   commit pruned, once each; and when the legacy log is gone, every entry of it was imported.
   */
  lemma NothingIsLost(run: seq<State>)
    requires Run(run, false)
    ensures var s := Last(run); Ids(s.disk.index) == (s.past.recorded + s.past.imports.Keys) - s.past.pruned
    ensures DistinctIds(Last(run).disk.index)
    ensures Last(run).disk.legacy.None? ==> forall k | 0 <= k < |Last(run).past.legacy| :: k in Last(run).past.imports.Values
    ensures Last(run).disk.legacy.Some? ==> Last(run).disk.legacy.value == Last(run).past.legacy
  {
    RunKeepsInv(run);
  }

  /** Without a crash no legacy entry is imported twice. */
  lemma ImportsHappenOnce(run: seq<State>, a: nat, b: nat)
    requires Run(run, false) && Last(run).past.crashes == 0
    requires a in Last(run).past.imports && b in Last(run).past.imports && Last(run).past.imports[a] == Last(run).past.imports[b]
    ensures a == b
  {
    RunKeepsInv(run);
  }

  /** An output file disappears only with its pruned record, or as an orphan older than the cutoff. */
  lemma FilesGoOnlyWhenDue(run: seq<State>, t: State, id: nat)
    requires Run(run, false) && Next(Last(run), false, t)
    requires id in Last(run).disk.files && id !in t.disk.files
    ensures id !in Ids(Last(run).disk.index)
    ensures || id in Last(run).past.pruned
            || exists tid | tid in Last(run).threads ::
                 Last(run).threads[tid].phase.Sweeping? && Last(run).disk.files[id] < Last(run).threads[tid].phase.cutoff
  {
    RunKeepsInv(run);
    var s := Last(run);
    var tid :| ThreadStep(s, tid, false, t);
    assert ThreadOk(s, tid);
    OnlyCleaningRemoves(s, tid, t, id);
  }

  /** The cutoff of a sweep is 90 days before the moment its thread listed the files. */
  ghost predicate ListedBefore(run: seq<State>, tid: nat, cutoff: int) {
    exists j | 0 <= j < |run| ::
      tid in run[j].threads && run[j].threads[tid].phase.Listing? && cutoff == run[j].clock - 90 * 86400
  }

  lemma {:induction false} CutoffIsListingTime(run: seq<State>, faults: bool, tid: nat)
    requires Run(run, faults) && tid in Last(run).threads && Last(run).threads[tid].phase.Sweeping?
    ensures ListedBefore(run, tid, Last(run).threads[tid].phase.cutoff)
    decreases |run|
  {
    var n := |run| - 1;
    assert n > 0;
    var before := run[..n];
    var s, t := run[n - 1], run[n];
    assert Next(s, faults, t);
    SweepBegan(s, faults, t, tid);
    if s.threads[tid].phase.Listing? {
      assert tid in run[n - 1].threads;
    } else {
      CutoffIsListingTime(before, faults, tid);
      var cutoff := t.threads[tid].phase.cutoff;
      var j :| 0 <= j < |before| && tid in before[j].threads && before[j].threads[tid].phase.Listing? && cutoff == before[j].clock - 90 * 86400;
      assert run[j] == before[j];
    }
  }

  lemma SweepBegan(s: State, faults: bool, t: State, tid: nat)
    requires Next(s, faults, t) && tid in t.threads && t.threads[tid].phase.Sweeping?
    ensures tid in s.threads
    ensures if s.threads[tid].phase.Listing? then t.threads[tid].phase.cutoff == s.clock - 90 * 86400
            else s.threads[tid].phase.Sweeping? && t.threads[tid].phase.cutoff == s.threads[tid].phase.cutoff
  {
    if u :| ThreadStep(s, u, faults, t) {
      if u == tid {
        OwnSweepBegan(s, faults, t, tid);
      } else {
        OthersKeepTheirPhase(s, u, faults, t, tid);
      }
    }
  }

  lemma OwnSweepBegan(s: State, faults: bool, t: State, tid: nat)
    requires ThreadStep(s, tid, faults, t) && tid in t.threads && t.threads[tid].phase.Sweeping?
    ensures s.threads[tid].phase.Listing? || s.threads[tid].phase.Sweeping?
    ensures if s.threads[tid].phase.Listing? then t.threads[tid].phase.cutoff == s.clock - 90 * 86400
            else t.threads[tid].phase.cutoff == s.threads[tid].phase.cutoff
  {
    if StartStep(s, tid, t) || MigrateStep(s, tid, faults, t) {
      NoSweepYet(s, faults, t, tid);
    }
  }

  lemma NoSweepYet(s: State, faults: bool, t: State, tid: nat)
    requires tid in s.threads && (StartStep(s, tid, t) || MigrateStep(s, tid, faults, t)) && tid in t.threads
    ensures !t.threads[tid].phase.Sweeping?
  {
  }

  lemma OthersKeepTheirPhase(s: State, u: nat, faults: bool, t: State, tid: nat)
    requires ThreadStep(s, u, faults, t) && tid in t.threads && tid != u
    ensures tid in s.threads && t.threads[tid] == s.threads[tid]
  {
  }

  /** And such a file does go: the sweep that has it on its list can remove it. */
  lemma OrphanCanGo(s: State, tid: nat, id: nat) returns (t: State)
    requires tid in s.threads && s.threads[tid].phase.Sweeping? && id in s.threads[tid].phase.ids
    requires id in s.disk.files && s.disk.files[id] < s.threads[tid].phase.cutoff
    ensures Next(s, false, t) && t.disk == s.disk.(files := s.disk.files - {id})
  {
    var phase := s.threads[tid].phase;
    t := At(s.(disk := s.disk.(files := s.disk.files - {id})), tid, Sweeping(phase.ids - {id}, phase.cutoff));
    assert Unlinked(s, t, id) && FinishStep(s, tid, t);
    assert ThreadStep(s, tid, false, t);
  }

  /** Every file without a record in the new index is on that list. */
  lemma SweepListsOrphans(s: State, tid: nat, t: State)
    requires tid in s.threads && s.threads[tid].phase.Listing? && FinishStep(s, tid, t)
    ensures t.threads[tid].phase.Sweeping? && t.disk == s.disk
    ensures forall id :: id in t.threads[tid].phase.ids <==> id in s.disk.files && id !in s.threads[tid].phase.keep
  {
  }

  /** So an output file that no commit pruned was more than 90 days old when the files were listed. */
  lemma OrphansAreOld(run: seq<State>, t: State, id: nat)
    requires Run(run, false) && Next(Last(run), false, t)
    requires id in Last(run).disk.files && id !in t.disk.files && id !in Last(run).past.pruned
    ensures exists j, tid | 0 <= j < |run| && tid in run[j].threads && run[j].threads[tid].phase.Listing? ::
              Last(run).disk.files[id] < run[j].clock - 90 * 86400
  {
    FilesGoOnlyWhenDue(run, t, id);
    var tid :| tid in Last(run).threads && Last(run).threads[tid].phase.Sweeping?
               && Last(run).disk.files[id] < Last(run).threads[tid].phase.cutoff;
    CutoffIsListingTime(run, false, tid);
  }

  lemma OnlyCleaningRemoves(s: State, tid: nat, t: State, id: nat)
    requires tid in s.threads && ThreadOk(s, tid) && ThreadStep(s, tid, false, t) && id in s.disk.files && id !in t.disk.files
    ensures id !in Ids(s.disk.index)
    ensures id in s.past.pruned || (s.threads[tid].phase.Sweeping? && s.disk.files[id] < s.threads[tid].phase.cutoff)
  {
    if MigrateStep(s, tid, false, t) {
      MigratingRemovesNothing(s, tid, t);
    } else if FinishStep(s, tid, t) {
      var phase := s.threads[tid].phase;
      assert phase.Deleting? || phase.Sweeping?;
    }
  }

  lemma MigratingRemovesNothing(s: State, tid: nat, t: State)
    requires tid in s.threads && MigrateStep(s, tid, false, t)
    ensures s.disk.files.Keys <= t.disk.files.Keys
  {
    var phase := s.threads[tid].phase;
    if phase.Importing? && |phase.records| < |s.disk.legacy.value| {
      var r :| ImportOne(s, tid, phase.records, s.disk.legacy.value[|phase.records|], r, t);
    }
  }

  /** Every recorded run is in the index unless a commit pruned it. */
  ghost predicate NoneMissing(s: State) {
    s.past.recorded - s.past.pruned <= Ids(s.disk.index)
  }
}
