/**
 Deduplication of update notifications and the tracker of containers whose check keeps failing
 (app/update_notifier.py, `check_and_notify`, `should_notify_host`, `_load`, `_save`).

 The store is persisted between scans, so what a notification means is a statement about the whole
 history of scans.
 */
module UpdateNotifier {
  import opened Options

  const UNKNOWN_STALE_SECONDS: int := 86400

  datatype Status = UpdateAvailable | UpToDate | Mixed | Unknown | OtherStatus

  datatype Stack = Stack(path: string, status: Status)

  datatype Store = Store(
    notified: set<string>,
    unknownSince: map<string, int>,
    unknownNotified: set<string>,
    notifiedHosts: set<string>)

  const EMPTY: Store := Store({}, map[], {}, {})

  /** The file on disk. A bare list is the format written before the staleness tracker existed. */
  datatype File = Missing | Unreadable | BareList(notified: set<string>) | Saved(store: Store)

  function Load(file: File): Store {
    match file
    case Missing => EMPTY
    case Unreadable => EMPTY
    case BareList(notified) => EMPTY.(notified := notified)
    case Saved(store) => store
  }

  // ------------------------------------------------------------------
  // One scan
  // ------------------------------------------------------------------

  predicate Announces(notified: set<string>, s: Stack) {
    s.status == UpdateAvailable && s.path != "" && s.path !in notified
  }

  function Mark(notified: set<string>, s: Stack): set<string> {
    if Announces(notified, s) then notified + {s.path}
    else if s.status == UpToDate || s.status == Mixed then notified - {s.path}
    else notified
  }

  function MarkAll(notified: set<string>, stacks: seq<Stack>): set<string> {
    if stacks == [] then notified
    else Mark(MarkAll(notified, stacks[..|stacks| - 1]), stacks[|stacks| - 1])
  }

  /** The paths announced by one scan, in order. */
  function Announced(notified: set<string>, stacks: seq<Stack>): seq<string> {
    if stacks == [] then []
    else
      var front, last := stacks[..|stacks| - 1], stacks[|stacks| - 1];
      Announced(notified, front) + if Announces(MarkAll(notified, front), last) then [last.path] else []
  }

  function UnknownIn(stacks: seq<Stack>): set<string> {
    set s | s in stacks && s.status == Unknown && s.path != "" :: s.path
  }

  function Since(unknownSince: map<string, int>, unknown: set<string>, now: int): map<string, int> {
    map p | p in unknown :: if p in unknownSince then unknownSince[p] else now
  }

  function Stale(unknownSince: map<string, int>, now: int): set<string> {
    set p | p in unknownSince && now - unknownSince[p] >= UNKNOWN_STALE_SECONDS
  }

  function AfterScan(store: Store, stacks: seq<Stack>, now: int): Store {
    var since := Since(store.unknownSince, UnknownIn(stacks), now);
    Store(MarkAll(store.notified, stacks), since, Stale(since, now), store.notifiedHosts)
  }

  /** The paths a scan's rollup warning names; empty when it sends none. */
  function Rollup(store: Store, stacks: seq<Stack>, now: int): set<string> {
    var stale := AfterScan(store, stacks, now).unknownNotified;
    if stale - store.unknownNotified != {} then stale else {}
  }

  function AfterHostCheck(store: Store, slug: string, pending: bool): Store {
    store.(notifiedHosts := if pending then store.notifiedHosts + {slug} else store.notifiedHosts - {slug})
  }

  class Notifier {
    var file: File

    constructor ()
      ensures file == Missing
    {
      file := Missing;
    }

    /** The file is rewritten only when something changed, yet always reads back as the new store. */
    method CheckAndNotify(stacks: seq<Stack>, now: int) returns (updates: seq<string>, rollup: set<string>)
      modifies this
      ensures Load(file) == AfterScan(old(Load(file)), stacks, now)
      ensures updates == Announced(old(Load(file)).notified, stacks)
      ensures rollup == Rollup(old(Load(file)), stacks, now)
      ensures Load(file).notifiedHosts == old(Load(file)).notifiedHosts
    {
      var state := Load(file);
      var notified, seenUnknown, unknownSince, changed;
      updates, notified, seenUnknown, unknownSince, changed := ReadStacks(state, stacks, now);
      unknownSince, changed := DropRecovered(unknownSince, seenUnknown, changed);
      assert unknownSince == Since(state.unknownSince, UnknownIn(stacks), now);
      var stale := Stale(unknownSince, now);
      rollup := {};
      if stale - state.unknownNotified != {} {
        rollup := stale;
      }
      if changed || stale != state.unknownNotified {
        file := Saved(Store(notified, unknownSince, stale, state.notifiedHosts));
      }
    }

    /** Whether this host's pending updates are worth a notification right now. */
    method ShouldNotifyHost(slug: string, pending: bool) returns (notify: bool)
      modifies this
      ensures Load(file) == AfterHostCheck(old(Load(file)), slug, pending)
      ensures notify <==> pending && slug !in old(Load(file)).notifiedHosts
      ensures Load(file) == old(Load(file)).(notifiedHosts := Load(file).notifiedHosts)
    {
      var state := Load(file);
      if !pending {
        if slug in state.notifiedHosts {
          file := Saved(state.(notifiedHosts := state.notifiedHosts - {slug}));
        }
        return false;
      }
      if slug in state.notifiedHosts {
        return false;
      }
      file := Saved(state.(notifiedHosts := state.notifiedHosts + {slug}));
      return true;
    }
  }

  lemma UnknownGrows(stacks: seq<Stack>, i: nat)
    requires i < |stacks|
    ensures UnknownIn(stacks[..i + 1])
         == UnknownIn(stacks[..i]) + if stacks[i].status == Unknown && stacks[i].path != "" then {stacks[i].path} else {}
  {
    assert stacks[..i + 1] == stacks[..i] + [stacks[i]];
  }

  /** The tracked times, with the paths seen unknown now added. */
  function WithSeen(since: map<string, int>, seen: set<string>, now: int): (r: map<string, int>)
    ensures r.Keys == since.Keys + seen
  {
    map p | p in since.Keys + seen :: if p in since then since[p] else now
  }

  lemma OneMoreSeen(since: map<string, int>, seen: set<string>, now: int, p: string)
    ensures WithSeen(since, seen + {p}, now)
         == if p in WithSeen(since, seen, now) then WithSeen(since, seen, now) else WithSeen(since, seen, now)[p := now]
  {
  }

  /** The pass over the scanned stacks. */
  method ReadStacks(state: Store, stacks: seq<Stack>, now: int)
      returns (updates: seq<string>, notified: set<string>, seenUnknown: set<string>, unknownSince: map<string, int>, changed: bool)
    ensures notified == MarkAll(state.notified, stacks) && updates == Announced(state.notified, stacks)
    ensures seenUnknown == UnknownIn(stacks) && unknownSince == WithSeen(state.unknownSince, seenUnknown, now)
    ensures !changed ==> notified == state.notified && unknownSince == state.unknownSince
  {
    updates, notified, seenUnknown, unknownSince, changed := [], state.notified, {}, state.unknownSince, false;
    var i := 0;
    while i < |stacks|
      invariant 0 <= i <= |stacks|
      invariant notified == MarkAll(state.notified, stacks[..i])
      invariant updates == Announced(state.notified, stacks[..i])
      invariant seenUnknown == UnknownIn(stacks[..i])
      invariant unknownSince == WithSeen(state.unknownSince, seenUnknown, now)
      invariant !changed ==> notified == state.notified && unknownSince == state.unknownSince
    {
      var s := stacks[i];
      assert stacks[..i + 1][..i] == stacks[..i];
      UnknownGrows(stacks, i);
      OneMoreSeen(state.unknownSince, seenUnknown, now, s.path);
      if s.status == UpdateAvailable {
        if s.path != "" && s.path !in notified {
          updates := updates + [s.path];
          notified := notified + {s.path};
          changed := true;
        }
      } else if s.status == UpToDate || s.status == Mixed {
        if s.path in notified {
          notified := notified - {s.path};
          changed := true;
        }
      }
      if s.status == Unknown && s.path != "" {
        seenUnknown := seenUnknown + {s.path};
        if s.path !in unknownSince {
          unknownSince := unknownSince[s.path := now];
          changed := true;
        }
      }
      i := i + 1;
    }
    assert stacks[..i] == stacks;
  }

  /** Drop the tracking of containers that recovered or disappeared. */
  method DropRecovered(since: map<string, int>, unknown: set<string>, changed: bool) returns (kept: map<string, int>, moved: bool)
    requires unknown <= since.Keys
    ensures kept.Keys == unknown && forall p | p in unknown :: kept[p] == since[p]
    ensures moved <==> changed || kept != since
  {
    kept, moved := since, changed;
    var todo := since.Keys;
    while todo != {}
      invariant todo <= since.Keys && kept.Keys <= since.Keys
      invariant kept.Keys == todo + (since.Keys * unknown)
      invariant forall p | p in kept :: kept[p] == since[p]
      invariant moved <==> changed || kept != since
      decreases todo
    {
      var p :| p in todo;
      if p !in unknown {
        kept := kept - {p};
        moved := true;
      }
      todo := todo - {p};
    }
  }

  // ------------------------------------------------------------------
  // Raise and clear: what a deduplicating set remembers
  // ------------------------------------------------------------------

  datatype Signal = Raise | Clear | Neither

  datatype Report = Report(key: string, signal: Signal)

  /** What is open after these reports, from what was open before them. */
  function Open(start: set<string>, reports: seq<Report>): set<string> {
    if reports == [] then start
    else
      var open, last := Open(start, reports[..|reports| - 1]), reports[|reports| - 1];
      match last.signal
      case Raise => open + {last.key}
      case Clear => open - {last.key}
      case Neither => open
  }

  /** This report is heard: it raises a key that is not already open. */
  predicate Heard(start: set<string>, reports: seq<Report>, k: nat)
    requires k < |reports|
  {
    reports[k].signal == Raise && reports[k].key !in Open(start, reports[..k])
  }

  /** The key was raised by report `i`, or before all of them when `i` is -1. */
  predicate RaisedAt(start: set<string>, reports: seq<Report>, key: string, i: int)
    requires -1 <= i < |reports|
  {
    if i == -1 then key in start else reports[i] == Report(key, Raise)
  }

  predicate ClearedBetween(reports: seq<Report>, key: string, i: int, k: int)
    requires -1 <= i < k <= |reports|
  {
    exists m :: i < m < k && reports[m] == Report(key, Clear)
  }

  lemma ClearedInFront(reports: seq<Report>, key: string, i: int, k: int)
    requires -1 <= i < k <= |reports|
    ensures ClearedBetween(reports[..k], key, i, k) <==> ClearedBetween(reports, key, i, k)
  {
    if ClearedBetween(reports, key, i, k) {
      var m :| i < m < k && reports[m] == Report(key, Clear);
      assert reports[..k][m] == Report(key, Clear);
    }
    if ClearedBetween(reports[..k], key, i, k) {
      var m :| i < m < k && reports[..k][m] == Report(key, Clear);
      assert reports[m] == Report(key, Clear);
    }
  }

  lemma ClearedOneMore(reports: seq<Report>, key: string, i: int)
    requires -1 <= i < |reports| - 1
    ensures var n := |reports| - 1;
            ClearedBetween(reports, key, i, n + 1) <==> ClearedBetween(reports, key, i, n) || reports[n] == Report(key, Clear)
  {
    var n := |reports| - 1;
    if ClearedBetween(reports, key, i, n + 1) && reports[n] != Report(key, Clear) {
      var m :| i < m < n + 1 && reports[m] == Report(key, Clear);
      assert m < n;
    }
  }

  /** Open means raised and not cleared since. */
  ghost predicate StandsRaised(start: set<string>, reports: seq<Report>, key: string, k: int)
    requires 0 <= k <= |reports|
  {
    exists i | -1 <= i < k :: RaisedAt(start, reports, key, i) && !ClearedBetween(reports, key, i, k)
  }

  lemma StandsOneMore(start: set<string>, reports: seq<Report>, key: string)
    requires reports != []
    ensures var n := |reports| - 1;
            StandsRaised(start, reports, key, n + 1) <==>
              reports[n] == Report(key, Raise) || (StandsRaised(start, reports, key, n) && reports[n] != Report(key, Clear))
  {
    var n := |reports| - 1;
    forall i | -1 <= i < n
      ensures ClearedBetween(reports, key, i, n + 1) <==> ClearedBetween(reports, key, i, n) || reports[n] == Report(key, Clear)
    {
      ClearedOneMore(reports, key, i);
    }
    if reports[n] == Report(key, Raise) {
      assert RaisedAt(start, reports, key, n) && !ClearedBetween(reports, key, n, n + 1);
    }
    if StandsRaised(start, reports, key, n) && reports[n] != Report(key, Clear) {
      var i :| -1 <= i < n && RaisedAt(start, reports, key, i) && !ClearedBetween(reports, key, i, n);
      assert !ClearedBetween(reports, key, i, n + 1);
    }
  }

  lemma StandsInFront(start: set<string>, reports: seq<Report>, key: string, k: int)
    requires 0 <= k <= |reports|
    ensures StandsRaised(start, reports[..k], key, k) <==> StandsRaised(start, reports, key, k)
  {
    forall i | -1 <= i < k
      ensures RaisedAt(start, reports[..k], key, i) <==> RaisedAt(start, reports, key, i)
      ensures ClearedBetween(reports[..k], key, i, k) <==> ClearedBetween(reports, key, i, k)
    {
      ClearedInFront(reports, key, i, k);
    }
  }

  lemma {:induction false} OpenMeansRaised(start: set<string>, reports: seq<Report>, key: string)
    ensures key in Open(start, reports) <==> StandsRaised(start, reports, key, |reports|)
  {
    if reports == [] {
      assert RaisedAt(start, reports, key, -1) <==> key in start;
      assert !ClearedBetween(reports, key, -1, 0);
    } else {
      var n := |reports| - 1;
      OpenMeansRaised(start, reports[..n], key);
      StandsInFront(start, reports, key, n);
      StandsOneMore(start, reports, key);
    }
  }

  /** A report is heard exactly when every earlier raise of its key was cleared since. */
  lemma HeardExactlyOnEdges(start: set<string>, reports: seq<Report>, k: nat)
    requires k < |reports|
    ensures Heard(start, reports, k) <==>
            && reports[k].signal == Raise
            && forall i | -1 <= i < k && RaisedAt(start, reports, reports[k].key, i) :: ClearedBetween(reports, reports[k].key, i, k)
  {
    OpenMeansRaised(start, reports[..k], reports[k].key);
    StandsInFront(start, reports, reports[k].key, k);
  }

  // ------------------------------------------------------------------
  // Histories
  // ------------------------------------------------------------------

  datatype Event = Scan(stacks: seq<Stack>, now: int) | HostCheck(slug: string, pending: bool)

  function Step(store: Store, e: Event): Store {
    match e
    case Scan(stacks, now) => AfterScan(store, stacks, now)
    case HostCheck(slug, pending) => AfterHostCheck(store, slug, pending)
  }

  /** The store after these events, from whatever was loaded first. */
  function After(start: Store, history: seq<Event>): Store {
    if history == [] then start else Step(After(start, history[..|history| - 1]), history[|history| - 1])
  }

  /** Every stack entry of every scan, as a report on its path. */
  function ImageReport(s: Stack): Report {
    Report(s.path, if s.status == UpdateAvailable && s.path != "" then Raise
                   else if s.status == UpToDate || s.status == Mixed then Clear
                   else Neither)
  }

  function ImageReportsOf(stacks: seq<Stack>): (r: seq<Report>)
    ensures |r| == |stacks| && forall i | 0 <= i < |stacks| :: r[i] == ImageReport(stacks[i])
  {
    seq(|stacks|, i requires 0 <= i < |stacks| => ImageReport(stacks[i]))
  }

  function ImageReports(history: seq<Event>): seq<Report> {
    if history == [] then []
    else
      var last := history[|history| - 1];
      ImageReports(history[..|history| - 1]) + if last.Scan? then ImageReportsOf(last.stacks) else []
  }

  function HostReport(e: Event): Report {
    match e
    case Scan(_, _) => Report("", Neither)
    case HostCheck(slug, pending) => Report(slug, if pending then Raise else Clear)
  }

  function HostReports(history: seq<Event>): (r: seq<Report>)
    ensures |r| == |history| && forall i | 0 <= i < |history| :: r[i] == HostReport(history[i])
  {
    seq(|history|, i requires 0 <= i < |history| => HostReport(history[i]))
  }

  lemma {:induction false} MarkAllOpens(start: set<string>, before: seq<Report>, notified: set<string>, stacks: seq<Stack>)
    requires notified == Open(start, before)
    ensures MarkAll(notified, stacks) == Open(start, before + ImageReportsOf(stacks))
  {
    if stacks == [] {
      assert before + ImageReportsOf(stacks) == before;
    } else {
      var n := |stacks| - 1;
      MarkAllOpens(start, before, notified, stacks[..n]);
      var all := before + ImageReportsOf(stacks);
      assert all[..|all| - 1] == before + ImageReportsOf(stacks[..n]);
    }
  }

  /** The persisted set is the set of paths raised and not cleared since, over the whole history. */
  lemma {:induction false} NotifiedIsOpen(start: Store, history: seq<Event>)
    ensures After(start, history).notified == Open(start.notified, ImageReports(history))
  {
    if history != [] {
      var front, last := history[..|history| - 1], history[|history| - 1];
      NotifiedIsOpen(start, front);
      if last.Scan? {
        MarkAllOpens(start.notified, ImageReports(front), After(start, front).notified, last.stacks);
      } else {
        assert ImageReports(history) == ImageReports(front);
      }
    }
  }

  /** Whether entry `k` of a scan is announced, given what was notified before the scan. */
  predicate AnnouncedAt(notified: set<string>, stacks: seq<Stack>, k: nat)
    requires k < |stacks|
  {
    Announces(MarkAll(notified, stacks[..k]), stacks[k])
  }

  /** These are the paths at the positions `at`, which go up. */
  ghost predicate PathsAt(at: seq<nat>, paths: seq<string>, stacks: seq<Stack>) {
    && |at| == |paths|
    && (forall j | 0 <= j < |at| :: at[j] < |stacks| && paths[j] == stacks[at[j]].path)
    && (forall i, j | 0 <= i < j < |at| :: at[i] < at[j])
  }

  lemma PathsAtMore(at: seq<nat>, paths: seq<string>, front: seq<Stack>, last: Stack)
    requires PathsAt(at, paths, front)
    ensures PathsAt(at, paths, front + [last])
    ensures PathsAt(at + [|front|], paths + [last.path], front + [last])
  {
  }

  /** The list a scan announces is the paths of exactly the entries with AnnouncedAt, in order. */
  lemma {:induction false} AnnouncedInOrder(notified: set<string>, stacks: seq<Stack>) returns (at: seq<nat>)
    ensures PathsAt(at, Announced(notified, stacks), stacks)
    ensures forall k | 0 <= k < |stacks| :: k in at <==> AnnouncedAt(notified, stacks, k)
  {
    at := [];
    if stacks != [] {
      var n := |stacks| - 1;
      var front, last := stacks[..n], stacks[n];
      at := AnnouncedInOrder(notified, front);
      PathsAtMore(at, Announced(notified, front), front, last);
      assert stacks == front + [last];
      forall k | 0 <= k < n
        ensures AnnouncedAt(notified, front, k) <==> AnnouncedAt(notified, stacks, k)
      {
        assert front[..k] == stacks[..k] && front[k] == stacks[k];
      }
      if AnnouncedAt(notified, stacks, n) {
        at := at + [n];
      }
    }
  }

  /**
   Over every history, from every loaded store, an entry is announced exactly when it reports an update
   and every earlier report of an update for its path was followed by one that said up to date or mixed.
   */
  lemma UpdatesAnnouncedOnEdges(start: Store, history: seq<Event>, stacks: seq<Stack>, k: nat)
    requires k < |stacks|
    ensures var reports, n := ImageReports(history) + ImageReportsOf(stacks), |ImageReports(history)| + k;
            AnnouncedAt(After(start, history).notified, stacks, k) <==>
              && stacks[k].status == UpdateAvailable && stacks[k].path != ""
              && forall i | -1 <= i < n && RaisedAt(start.notified, reports, stacks[k].path, i) ::
                   ClearedBetween(reports, stacks[k].path, i, n)
  {
    var reports, n := ImageReports(history) + ImageReportsOf(stacks), |ImageReports(history)| + k;
    NotifiedIsOpen(start, history);
    MarkAllOpens(start.notified, ImageReports(history), After(start, history).notified, stacks[..k]);
    assert reports[..n] == ImageReports(history) + ImageReportsOf(stacks[..k]);
    assert reports[n] == ImageReport(stacks[k]);
    HeardExactlyOnEdges(start.notified, reports, n);
  }

  /** The bare list of the old format is what was notified; anything that cannot be read counts as nothing. */
  lemma LoadExactly(file: File)
    ensures file.BareList? ==> Load(file) == Store(file.notified, map[], {}, {})
    ensures file.Missing? || file.Unreadable? ==> Load(file) == Store({}, map[], {}, {})
    ensures file.Saved? ==> Load(file) == file.store
  {
  }

  /** So a path of an old list is not announced again before a scan has cleared it. */
  lemma OldListStaysNotified(notified: set<string>, stacks: seq<Stack>, k: nat)
    requires k < |stacks| && stacks[k].path in notified
    requires forall i | 0 <= i < k && stacks[i].path == stacks[k].path :: stacks[i].status != UpToDate && stacks[i].status != Mixed
    ensures !AnnouncedAt(Load(BareList(notified)).notified, stacks, k)
  {
    StaysMarked(notified, stacks[..k], stacks[k].path);
  }

  lemma {:induction false} StaysMarked(notified: set<string>, stacks: seq<Stack>, path: string)
    requires path in notified
    requires forall i | 0 <= i < |stacks| && stacks[i].path == path :: stacks[i].status != UpToDate && stacks[i].status != Mixed
    ensures path in MarkAll(notified, stacks)
  {
    if stacks != [] {
      StaysMarked(notified, stacks[..|stacks| - 1], path);
    }
  }

  lemma {:induction false} HostsAreOpen(start: Store, history: seq<Event>)
    ensures After(start, history).notifiedHosts == Open(start.notifiedHosts, HostReports(history))
  {
    if history != [] {
      var n := |history| - 1;
      HostsAreOpen(start, history[..n]);
      assert HostReports(history)[..n] == HostReports(history[..n]);
    }
  }

  /** Host notifications count exactly the edges from clean (or never seen) to pending. */
  lemma HostsNotifiedOnEdges(start: Store, history: seq<Event>, slug: string)
    ensures var reports := HostReports(history);
            slug !in After(start, history).notifiedHosts <==>
            forall i | -1 <= i < |reports| && RaisedAt(start.notifiedHosts, reports, slug, i) :: ClearedBetween(reports, slug, i, |reports|)
  {
    HostsAreOpen(start, history);
    OpenMeansRaised(start.notifiedHosts, HostReports(history), slug);
  }

  // ------------------------------------------------------------------
  // Staleness
  // ------------------------------------------------------------------

  /** A history of scans alone; host checks do not touch the tracker (HostChecksLeaveTracker). */
  datatype Sweep = Sweep(stacks: seq<Stack>, now: int)

  function Scans(history: seq<Event>): seq<Sweep> {
    if history == [] then []
    else
      var last := history[|history| - 1];
      Scans(history[..|history| - 1]) + if last.Scan? then [Sweep(last.stacks, last.now)] else []
  }

  datatype Tracker = Tracker(since: map<string, int>, stale: set<string>)

  function TrackerOf(store: Store): Tracker {
    Tracker(store.unknownSince, store.unknownNotified)
  }

  function Track(start: Tracker, scans: seq<Sweep>): Tracker {
    if scans == [] then start
    else
      var last := scans[|scans| - 1];
      var since := Since(Track(start, scans[..|scans| - 1]).since, UnknownIn(last.stacks), last.now);
      Tracker(since, Stale(since, last.now))
  }

  lemma {:induction false} HostChecksLeaveTracker(start: Store, history: seq<Event>)
    ensures Track(TrackerOf(start), Scans(history)) == TrackerOf(After(start, history))
  {
    if history != [] {
      var front, last := history[..|history| - 1], history[|history| - 1];
      HostChecksLeaveTracker(start, front);
      if last.Scan? {
        assert Scans(history)[..|Scans(history)| - 1] == Scans(front);
      } else {
        assert Scans(history) == Scans(front);
      }
    }
  }

  predicate UnknownAt(scans: seq<Sweep>, k: int, p: string)
    requires 0 <= k < |scans|
  {
    p in UnknownIn(scans[k].stacks)
  }

  /** Scan `i` starts the unbroken run of unknown scans of `p` that reaches scan `k`. */
  predicate RunStarts(scans: seq<Sweep>, p: string, i: int, k: int)
    requires 0 <= i <= k < |scans|
  {
    && (forall m | i <= m <= k :: UnknownAt(scans, m, p))
    && (i > 0 ==> !UnknownAt(scans, i - 1, p))
  }

  /** When that run began: with its first scan, or at the time the loaded store already had for it. */
  function Began(start: Tracker, scans: seq<Sweep>, p: string, i: int): int
    requires 0 <= i < |scans|
  {
    if i == 0 && p in start.since then start.since[p] else scans[i].now
  }

  /** `unknown_since[p]` is the time of the first scan in p's current unbroken run of unknown scans. */
  lemma {:induction false} SinceIsRunStart(start: Tracker, scans: seq<Sweep>, p: string)
    requires scans != []
    ensures p in Track(start, scans).since <==> UnknownAt(scans, |scans| - 1, p)
    ensures p in Track(start, scans).since ==>
              exists i :: 0 <= i < |scans| && RunStarts(scans, p, i, |scans| - 1) && Track(start, scans).since[p] == Began(start, scans, p, i)
  {
    var n := |scans| - 1;
    var front := scans[..n];
    if n > 0 {
      SinceIsRunStart(start, front, p);
      assert UnknownAt(front, n - 1, p) <==> UnknownAt(scans, n - 1, p);
      if UnknownAt(scans, n, p) && UnknownAt(scans, n - 1, p) {
        var i :| 0 <= i < n && RunStarts(front, p, i, n - 1) && Track(start, front).since[p] == Began(start, front, p, i);
        RunExtends(scans, p, i, n);
        assert Track(start, scans).since[p] == Began(start, scans, p, i);
      }
    }
    if UnknownAt(scans, n, p) && (n == 0 || !UnknownAt(scans, n - 1, p)) {
      assert RunStarts(scans, p, n, n);
      assert Track(start, scans).since[p] == Began(start, scans, p, n);
    }
  }

  lemma RunExtends(scans: seq<Sweep>, p: string, i: int, n: int)
    requires 0 <= i < n == |scans| - 1 && RunStarts(scans[..n], p, i, n - 1) && UnknownAt(scans, n, p)
    ensures RunStarts(scans, p, i, n) && scans[..n][i] == scans[i]
  {
    forall m | i <= m <= n
      ensures UnknownAt(scans, m, p)
    {
      assert m < n ==> UnknownAt(scans[..n], m, p);
    }
    assert i > 0 ==> !UnknownAt(scans[..n], i - 1, p);
  }

  lemma RunStartUnique(scans: seq<Sweep>, p: string, i: int, j: int, k: int)
    requires 0 <= i <= k < |scans| && 0 <= j <= k && RunStarts(scans, p, i, k) && RunStarts(scans, p, j, k)
    ensures i == j
  {
  }

  lemma SinceValue(start: Tracker, scans: seq<Sweep>, p: string, i: int, k: int)
    requires 0 <= i <= k < |scans| && RunStarts(scans, p, i, k)
    ensures p in Track(start, scans[..k + 1]).since && Track(start, scans[..k + 1]).since[p] == Began(start, scans, p, i)
  {
    var upto := scans[..k + 1];
    SinceIsRunStart(start, upto, p);
    assert UnknownAt(upto, k, p) <==> UnknownAt(scans, k, p);
    var j :| 0 <= j < |upto| && RunStarts(upto, p, j, k) && Track(start, upto).since[p] == Began(start, upto, p, j);
    assert RunStarts(upto, p, i, k) by {
      forall m | i <= m <= k
        ensures UnknownAt(upto, m, p)
      {
        assert UnknownAt(scans, m, p);
      }
      assert i > 0 ==> !UnknownAt(scans, i - 1, p);
    }
    RunStartUnique(upto, p, i, j, k);
  }

  /** Scan `k` triggers a rollup because of `p`. */
  predicate Triggers(start: Tracker, scans: seq<Sweep>, k: nat, p: string)
    requires k < |scans|
  {
    p in Track(start, scans[..k + 1]).stale && p !in Track(start, scans[..k]).stale
  }

  /** What the scan after `history` sends is the rollup of the tracker. */
  lemma RollupIsTriggered(start: Store, history: seq<Event>, stacks: seq<Stack>, now: int)
    ensures var first, scans := TrackerOf(start), Scans(history) + [Sweep(stacks, now)];
            var n := |scans| - 1;
            Rollup(After(start, history), stacks, now) == if exists p :: Triggers(first, scans, n, p) then Track(first, scans).stale else {}
  {
    var first, scans := TrackerOf(start), Scans(history) + [Sweep(stacks, now)];
    var n := |scans| - 1;
    HostChecksLeaveTracker(start, history);
    assert scans[..n] == Scans(history) && scans[..n + 1] == scans;
    var added := Track(first, scans).stale - Track(first, scans[..n]).stale;
    assert forall p :: Triggers(first, scans, n, p) <==> p in added;
    if added != {} {
      var p :| p in added;
      assert Triggers(first, scans, n, p);
    }
  }

  ghost predicate ClockNeverBack(scans: seq<Sweep>) {
    forall i, j | 0 <= i <= j < |scans| :: scans[i].now <= scans[j].now
  }

  lemma StaleInRun(start: Tracker, scans: seq<Sweep>, p: string, i: int, k: int)
    requires 0 <= i <= k < |scans| && RunStarts(scans, p, i, k)
    ensures p in Track(start, scans[..k + 1]).stale <==> scans[k].now - Began(start, scans, p, i) >= 24 * 3600
  {
    SinceValue(start, scans, p, i, k);
    assert scans[..k + 1][k] == scans[k];
  }

  /** A stale rollup is triggered by a path at most once per unbroken run of unknown scans. */
  lemma OneTriggerPerRun(start: Tracker, scans: seq<Sweep>, p: string, i: int, j: int, k: int)
    requires ClockNeverBack(scans) && 0 <= i <= j < k < |scans| && RunStarts(scans, p, i, k)
    requires Triggers(start, scans, j, p)
    ensures !Triggers(start, scans, k, p)
  {
    RunPrefix(scans, p, i, j, k);
    RunPrefix(scans, p, i, k - 1, k);
    StaleInRun(start, scans, p, i, j);
    StaleInRun(start, scans, p, i, k - 1);
  }

  lemma RunPrefix(scans: seq<Sweep>, p: string, i: int, m: int, k: int)
    requires 0 <= i <= m <= k < |scans| && RunStarts(scans, p, i, k)
    ensures RunStarts(scans, p, i, m)
  {
    assert i > 0 ==> !UnknownAt(scans, i - 1, p);
  }

  /** Before its run a path is not stale, unless the loaded store already said so. */
  lemma FreshBeforeRun(start: Tracker, scans: seq<Sweep>, p: string, i: int)
    requires 0 <= i < |scans| && RunStarts(scans, p, i, i)
    ensures p in Track(start, scans[..i]).stale ==> i == 0 && p in start.stale
  {
    if i > 0 {
      SinceIsRunStart(start, scans[..i], p);
      assert UnknownAt(scans[..i], i - 1, p) <==> UnknownAt(scans, i - 1, p);
    }
  }

  /**
   Every run observed at 24 hours or more triggers a rollup, whatever the clock did in between, unless
   the loaded store shows that it already did.
   */
  lemma {:induction false} LongRunIsReported(start: Tracker, scans: seq<Sweep>, p: string, i: int, k: int) returns (j: int)
    requires 0 <= i <= k < |scans| && RunStarts(scans, p, i, k)
    requires scans[k].now - Began(start, scans, p, i) >= 24 * 3600
    ensures (i == 0 && p in start.stale) || (i <= j <= k && Triggers(start, scans, j, p))
    decreases k
  {
    StaleInRun(start, scans, p, i, k);
    j := k;
    if k == i {
      FreshBeforeRun(start, scans, p, i);
    } else {
      RunPrefix(scans, p, i, k - 1, k);
      if scans[k - 1].now - Began(start, scans, p, i) >= UNKNOWN_STALE_SECONDS {
        j := LongRunIsReported(start, scans, p, i, k - 1);
      } else {
        StaleInRun(start, scans, p, i, k - 1);
      }
    }
  }

  /** The clock hypothesis is needed: set back and forth, it makes one run trigger twice. */
  lemma ClockSetBackTriggersTwice()
    ensures var u, start := [Stack("a", Unknown)], TrackerOf(EMPTY);
            var scans := [Sweep(u, 0), Sweep(u, UNKNOWN_STALE_SECONDS), Sweep(u, 0), Sweep(u, UNKNOWN_STALE_SECONDS)];
            RunStarts(scans, "a", 0, 3) && Triggers(start, scans, 1, "a") && Triggers(start, scans, 3, "a")
  {
    var u, start := [Stack("a", Unknown)], TrackerOf(EMPTY);
    var scans := [Sweep(u, 0), Sweep(u, UNKNOWN_STALE_SECONDS), Sweep(u, 0), Sweep(u, UNKNOWN_STALE_SECONDS)];
    assert u[0] in u;
    assert RunStarts(scans, "a", 0, 3);
    forall k | 0 <= k <= 3
      ensures "a" in Track(start, scans[..k + 1]).stale <==> scans[k].now - scans[0].now >= UNKNOWN_STALE_SECONDS
    {
      RunPrefix(scans, "a", 0, k, 3);
      StaleInRun(start, scans, "a", 0, k);
    }
  }
}
