/**
 Replacement of a standalone container: pull, rename aside, stop, run, settle, verify, then
 drop the backup or roll back (app/backends/ssh_docker_backend.py, `_update_standalone_container`).

 The Docker daemon is a map from names to containers. Every command may succeed, be refused, or
 lose its connection with or without having taken effect. Between commands containers crash and
 restart on their own, and everything else on the host is free to change.
 */
module StandaloneUpdate {
  import opened Options

  /** `autoRemove` is Docker's `--rm`: such a container is deleted as soon as it is stopped. */
  datatype Container = Container(id: nat, running: bool, restarts: nat, autoRemove: bool)

  /** `used` holds every identity ever handed out: Docker never reuses one. */
  datatype Daemon = Daemon(named: map<string, Container>, used: set<nat>)

  /** `self` is the identity of the container Keepup itself runs in, when it is known. */
  datatype Job = Job(name: string, self: Option<nat>)

  datatype Outcome = NotFound | SelfRefused | PullFailed | RenameFailed | RolledBack | Updated | ConnectionLost

  datatype Stage =
    | Inspecting | Pulling | Renaming | Stopping | Recreating | Verifying
    | Clearing | Restoring | Restarting   // rollback: rm -f, rename back, start
    | Dropping                            // success: rm of the backup
    | Ended(outcome: Outcome)

  /** What the update knows and has done so far, beside the daemon it acts on. */
  datatype State = State(
    stage: Stage,
    daemon: Daemon,
    original: Option<Container>,  // the container the first inspect saw
    runOk: bool,                  // `docker run` exited 0
    reading: Option<Container>,   // what the verifying inspect read under the name
    restoreOk: bool,              // the rename back exited 0
    startOk: bool,                // the start after it exited 0
    rmSent: bool)                 // the final `docker rm` of the backup was sent

  datatype Reply = Ok | Refused | Dropped

  function BackupName(name: string): string {
    name + "__keepup_old"
  }

  predicate WellFormed(d: Daemon) {
    && (forall n | n in d.named :: d.named[n].id in d.used)
    && (forall m, n | m in d.named && n in d.named && m != n :: d.named[m].id != d.named[n].id)
  }

  predicate At(d: Daemon, name: string, id: nat) {
    name in d.named && d.named[name].id == id
  }

  predicate Healthy(c: Container) {
    c.running && c.restarts == 0
  }

  // ------------------------------------------------------------------
  // Commands
  // ------------------------------------------------------------------

  function Without(d: Daemon, name: string): Daemon {
    d.(named := d.named - {name})
  }

  predicate Renamed(d: Daemon, from: string, to: string, e: Daemon) {
    && from in d.named && to !in d.named
    && e == d.(named := (d.named - {from})[to := d.named[from]])
  }

  predicate Stopped(d: Daemon, name: string, e: Daemon) {
    && name in d.named
    && e == if d.named[name].autoRemove then Without(d, name)
            else d.(named := d.named[name := d.named[name].(running := false)])
  }

  /** A new container, started or only created. `docker run` without `--rm` is never auto-removed. */
  predicate Created(d: Daemon, name: string, e: Daemon) {
    && name !in d.named && name in e.named
    && e.named[name].id !in d.used && !e.named[name].autoRemove
    && e == Daemon(d.named[name := e.named[name]], d.used + {e.named[name].id})
  }

  predicate Started(d: Daemon, name: string, e: Daemon) {
    && name in d.named
    && e == d.(named := d.named[name := d.named[name].(running := true)])
  }

  /** `docker rm` without `-f` refuses a running container. */
  predicate Removed(d: Daemon, name: string, e: Daemon) {
    name in d.named && !d.named[name].running && e == Without(d, name)
  }

  /** Which effect a reply allows: a lost connection says nothing about the effect. */
  predicate Allows(reply: Reply, effect: bool, same: bool) {
    match reply
    case Ok => effect
    case Refused => same
    case Dropped => effect || same
  }

  /**
   What may happen to the host on its own. The two names of this job keep their identities, though
   an auto-removed container may exit and vanish; every other name is free.
   */
  predicate Drift(job: Job, d: Daemon, e: Daemon) {
    && WellFormed(e) && d.used <= e.used
    && SlotDrifts(d, e, job.name) && SlotDrifts(d, e, BackupName(job.name))
  }

  predicate SlotDrifts(d: Daemon, e: Daemon, slot: string) {
    && (slot in e.named ==> slot in d.named && e.named[slot].id == d.named[slot].id
                            && e.named[slot].autoRemove == d.named[slot].autoRemove)
    && (slot in d.named && slot !in e.named ==> d.named[slot].autoRemove)
  }

  // ------------------------------------------------------------------
  // The protocol
  // ------------------------------------------------------------------

  function Init(d: Daemon): State {
    State(Inspecting, d, None, false, None, false, false, false)
  }

  /** The command of one stage ran: its reply decides the next stage, its effect the next daemon. */
  predicate CommandStep(job: Job, s: State, reply: Reply, t: State) {
    var name, backup, d, e := job.name, BackupName(job.name), s.daemon, t.daemon;
    match s.stage
    case Inspecting =>
      if reply != Ok then t == s.(stage := Continue(reply, Pulling, Ended(NotFound)))
      else name in d.named
           && t == s.(original := Some(d.named[name]),
                      stage := if job.self == Some(d.named[name].id) then Ended(SelfRefused) else Pulling)
    case Pulling =>
      t == s.(stage := Continue(reply, Renaming, Ended(PullFailed)))
    case Renaming =>
      && Allows(reply, Renamed(d, name, backup, e), e == d)
      && t == s.(daemon := e, stage := Continue(reply, Stopping, Ended(RenameFailed)))
    case Stopping =>
      && Allows(reply, Stopped(d, backup, e), e == d)
      && t == s.(daemon := e, stage := Continue(reply, Recreating, Recreating))
    case Recreating =>
      && Allows(reply, Created(d, name, e), e == d || Created(d, name, e))
      && t == s.(daemon := e, runOk := reply == Ok, stage := Continue(reply, Verifying, Clearing))
    case Verifying =>
      if reply != Ok then t == s.(stage := Continue(reply, Dropping, Clearing))
      else name in d.named
           && t == s.(reading := Some(d.named[name]),
                      stage := if Healthy(d.named[name]) then Dropping else Clearing)
    case Clearing =>
      && Allows(reply, e == Without(d, name), e == d)
      && t == s.(daemon := e, stage := Continue(reply, Restoring, Restoring))
    case Restoring =>
      && Allows(reply, Renamed(d, backup, name, e), e == d)
      && t == s.(daemon := e, restoreOk := reply == Ok, stage := Continue(reply, Restarting, Restarting))
    case Restarting =>
      && Allows(reply, Started(d, name, e), e == d)
      && t == s.(daemon := e, startOk := reply == Ok, stage := Continue(reply, Ended(RolledBack), Ended(RolledBack)))
    case Dropping =>
      && Allows(reply, Removed(d, backup, e), e == d)
      && t == s.(daemon := e, rmSent := true, stage := Continue(reply, Ended(Updated), Ended(Updated)))
    case Ended(_) => false
  }

  function Continue(reply: Reply, onOk: Stage, onRefused: Stage): Stage {
    match reply
    case Ok => onOk
    case Refused => onRefused
    case Dropped => Ended(ConnectionLost)
  }

  ghost predicate DriftStep(job: Job, s: State, t: State) {
    !s.stage.Ended? && t == s.(daemon := t.daemon) && Drift(job, s.daemon, t.daemon)
  }

  ghost predicate Next(job: Job, s: State, t: State) {
    || DriftStep(job, s, t)
    || CommandStep(job, s, Ok, t) || CommandStep(job, s, Refused, t) || CommandStep(job, s, Dropped, t)
  }

  lemma ReplyOfStep(job: Job, s: State, t: State) returns (reply: Reply)
    requires Next(job, s, t)
    ensures DriftStep(job, s, t) || CommandStep(job, s, reply, t)
  {
    reply := if CommandStep(job, s, Ok, t) then Ok else if CommandStep(job, s, Refused, t) then Refused else Dropped;
  }

  /** Every prefix of a run is itself a run, so a claim about `Last(run)` is one about every prefix. */
  ghost predicate Run(job: Job, d0: Daemon, run: seq<State>) {
    && run != [] && run[0] == Init(d0)
    && forall k | 0 <= k < |run| - 1 :: Next(job, run[k], run[k + 1])
  }

  function Last(run: seq<State>): State
    requires run != []
  {
    run[|run| - 1]
  }

  // ------------------------------------------------------------------
  // The invariant
  // ------------------------------------------------------------------

  /** The original still exists, under its own name or parked under the backup name. */
  predicate OriginalExists(job: Job, s: State) {
    s.original.Some? && (At(s.daemon, job.name, s.original.value.id) || At(s.daemon, BackupName(job.name), s.original.value.id))
  }

  /** What holds at each stage whatever the original was. */
  ghost predicate InvName(job: Job, s: State)
    requires s.original.Some?
  {
    var d, name, id := s.daemon, job.name, s.original.value.id;
    match s.stage
    case Stopping => name !in d.named
    case Recreating => name !in d.named
    case Verifying => s.runOk && name in d.named && d.named[name].id != id && !d.named[name].autoRemove
    case Clearing => name in d.named ==> d.named[name].id != id
    case Dropping => ReplacementHolds(job, s)
    case Ended(Updated) => ReplacementHolds(job, s)
    case _ => true
  }

  /** The verified replacement owns the name. */
  predicate ReplacementHolds(job: Job, s: State)
    requires s.original.Some?
  {
    && s.runOk && s.reading.Some? && Healthy(s.reading.value)
    && s.reading.value.id != s.original.value.id
    && At(s.daemon, job.name, s.reading.value.id) && !s.daemon.named[job.name].autoRemove
  }

  /** Where an original that survives a stop is, at each stage. */
  ghost predicate InvOriginal(job: Job, s: State)
    requires s.original.Some?
  {
    var d, name, backup, id := s.daemon, job.name, BackupName(job.name), s.original.value.id;
    match s.stage
    case Pulling => At(d, name, id)
    case Renaming => At(d, name, id)
    case Ended(SelfRefused) => At(d, name, id)
    case Ended(PullFailed) => At(d, name, id)
    case Ended(RenameFailed) => At(d, name, id)
    case Ended(ConnectionLost) => OriginalExists(job, s) || s.rmSent
    case Ended(Updated) => At(d, backup, id) || forall n | n in d.named :: d.named[n].id != id
    case Restarting => InvRestored(job, s)
    case Ended(RolledBack) => InvRestored(job, s) && (s.restoreOk && s.startOk ==> d.named[name].running)
    case _ => At(d, backup, id)
  }

  ghost predicate InvRestored(job: Job, s: State)
    requires s.original.Some?
  {
    var d, name, backup, id := s.daemon, job.name, BackupName(job.name), s.original.value.id;
    if s.restoreOk then At(d, name, id) && backup !in d.named else At(d, backup, id)
  }

  ghost predicate Inv(job: Job, s: State) {
    && WellFormed(s.daemon)
    && (s.rmSent ==> s.stage.Ended? && s.runOk && s.reading.Some? && Healthy(s.reading.value))
    && (s.stage == Ended(Updated) ==> s.rmSent)
    && match s.original
       case None => s.stage in {Inspecting, Ended(NotFound), Ended(ConnectionLost)} && !s.rmSent
       case Some(c) =>
         && c.id in s.daemon.used && s.stage !in {Inspecting, Ended(NotFound)}
         && InvName(job, s)
         && (!c.autoRemove ==>
               // the slot of the original inherits its flag, so a drift cannot remove it
               && InvOriginal(job, s)
               && (forall n | n in s.daemon.named && s.daemon.named[n].id == c.id && n in {job.name, BackupName(job.name)}
                     :: !s.daemon.named[n].autoRemove))
  }

  lemma NamesDiffer(name: string)
    ensures BackupName(name) != name
  {
    assert |BackupName(name)| != |name|;
  }

  lemma DriftKeepsInv(job: Job, s: State, t: State)
    requires Inv(job, s) && DriftStep(job, s, t)
    ensures Inv(job, t)
  {
    NamesDiffer(job.name);
  }

  lemma LookingKeepsInv(job: Job, s: State, reply: Reply, t: State)
    requires Inv(job, s) && CommandStep(job, s, reply, t) && s.stage in {Inspecting, Pulling}
    ensures Inv(job, t)
  {
    NamesDiffer(job.name);
  }

  lemma RenamingKeepsInv(job: Job, s: State, reply: Reply, t: State)
    requires Inv(job, s) && CommandStep(job, s, reply, t) && s.stage == Renaming
    ensures Inv(job, t)
  {
    NamesDiffer(job.name);
  }

  lemma StoppingKeepsInv(job: Job, s: State, reply: Reply, t: State)
    requires Inv(job, s) && CommandStep(job, s, reply, t) && s.stage == Stopping
    ensures Inv(job, t)
  {
    NamesDiffer(job.name);
  }

  lemma RecreatingKeepsInv(job: Job, s: State, reply: Reply, t: State)
    requires Inv(job, s) && CommandStep(job, s, reply, t) && s.stage == Recreating
    ensures Inv(job, t)
  {
    NamesDiffer(job.name);
  }

  lemma VerifyingKeepsInv(job: Job, s: State, reply: Reply, t: State)
    requires Inv(job, s) && CommandStep(job, s, reply, t) && s.stage == Verifying
    ensures Inv(job, t)
  {
    NamesDiffer(job.name);
  }

  lemma ClearingKeepsInv(job: Job, s: State, reply: Reply, t: State)
    requires Inv(job, s) && CommandStep(job, s, reply, t) && s.stage == Clearing
    ensures Inv(job, t)
  {
    NamesDiffer(job.name);
  }

  lemma RestoringKeepsInv(job: Job, s: State, reply: Reply, t: State)
    requires Inv(job, s) && CommandStep(job, s, reply, t) && s.stage == Restoring
    ensures Inv(job, t)
  {
    NamesDiffer(job.name);
  }

  lemma RestartingKeepsInv(job: Job, s: State, reply: Reply, t: State)
    requires Inv(job, s) && CommandStep(job, s, reply, t) && s.stage == Restarting
    ensures Inv(job, t)
  {
    NamesDiffer(job.name);
  }

  lemma DroppingKeepsInv(job: Job, s: State, reply: Reply, t: State)
    requires Inv(job, s) && CommandStep(job, s, reply, t) && s.stage == Dropping
    ensures Inv(job, t)
  {
    NamesDiffer(job.name);
  }

  lemma CommandKeepsInv(job: Job, s: State, reply: Reply, t: State)
    requires Inv(job, s) && CommandStep(job, s, reply, t)
    ensures Inv(job, t)
  {
    match s.stage
    case Inspecting => LookingKeepsInv(job, s, reply, t);
    case Pulling => LookingKeepsInv(job, s, reply, t);
    case Renaming => RenamingKeepsInv(job, s, reply, t);
    case Stopping => StoppingKeepsInv(job, s, reply, t);
    case Recreating => RecreatingKeepsInv(job, s, reply, t);
    case Verifying => VerifyingKeepsInv(job, s, reply, t);
    case Clearing => ClearingKeepsInv(job, s, reply, t);
    case Restoring => RestoringKeepsInv(job, s, reply, t);
    case Restarting => RestartingKeepsInv(job, s, reply, t);
    case Dropping => DroppingKeepsInv(job, s, reply, t);
  }

  lemma {:induction false} RunKeepsInv(job: Job, d0: Daemon, run: seq<State>)
    requires WellFormed(d0) && Run(job, d0, run)
    ensures Inv(job, Last(run))
    decreases |run|
  {
    if |run| > 1 {
      var before := run[..|run| - 1];
      RunKeepsInv(job, d0, before);
      var s, t := Last(before), Last(run);
      assert Next(job, run[|run| - 2], run[|run| - 1]);
      var reply := ReplyOfStep(job, s, t);
      if DriftStep(job, s, t) {
        DriftKeepsInv(job, s, t);
      } else {
        CommandKeepsInv(job, s, reply, t);
      }
    }
  }

  // ------------------------------------------------------------------
  // What every run guarantees
  // ------------------------------------------------------------------

  /** Nothing is destroyed before the replacement is proved healthy. */
  ghost predicate Preserved(job: Job, s: State) {
    s.original.Some? ==>
      || OriginalExists(job, s)
      || (s.rmSent && s.runOk && s.reading.Some? && Healthy(s.reading.value))
  }

  /** At every prefix of every run, whatever the replies and wherever the connection is lost. */
  lemma OriginalNeverLost(job: Job, d0: Daemon, run: seq<State>)
    requires WellFormed(d0) && Run(job, d0, run)
    requires Last(run).original.Some? && !Last(run).original.value.autoRemove
    ensures Preserved(job, Last(run))
  {
    RunKeepsInv(job, d0, run);
  }

  /** `rm -f` in the rollback is aimed at the original's own name, yet it never hits the original. */
  lemma ForceRemoveSparesOriginal(job: Job, d0: Daemon, run: seq<State>)
    requires WellFormed(d0) && Run(job, d0, run) && Last(run).stage == Clearing
    ensures Last(run).original.Some? && !At(Last(run).daemon, job.name, Last(run).original.value.id)
  {
    RunKeepsInv(job, d0, run);
  }

  /** A rollback whose rename and start succeed ends where the update began. */
  lemma RollbackRestores(job: Job, d0: Daemon, run: seq<State>)
    requires WellFormed(d0) && Run(job, d0, run)
    requires Last(run).stage == Ended(RolledBack) && Last(run).restoreOk && Last(run).startOk
    requires Last(run).original.Some? && !Last(run).original.value.autoRemove
    ensures At(Last(run).daemon, job.name, Last(run).original.value.id)
    ensures Last(run).daemon.named[job.name].running
    ensures BackupName(job.name) !in Last(run).daemon.named
  {
    RunKeepsInv(job, d0, run);
  }

  /** A normal return: the verified replacement owns the name; the original is removed or parked. */
  lemma UpdatedMeansReplaced(job: Job, d0: Daemon, run: seq<State>)
    requires WellFormed(d0) && Run(job, d0, run) && Last(run).stage == Ended(Updated)
    ensures Last(run).original.Some? && ReplacementHolds(job, Last(run))
    ensures !Last(run).original.value.autoRemove ==>
              || At(Last(run).daemon, BackupName(job.name), Last(run).original.value.id)
              || forall n | n in Last(run).daemon.named :: Last(run).daemon.named[n].id != Last(run).original.value.id
  {
    RunKeepsInv(job, d0, run);
  }

  // ------------------------------------------------------------------
  // A healthy replacement is accepted, any other is rolled back
  // ------------------------------------------------------------------

  /** What the verifying read said decides where the update is, from then on. */
  ghost predicate ReadingDecides(s: State) {
    match s.reading
    case None => s.stage !in {Dropping, Ended(Updated)}
    case Some(c) =>
      if c.running && c.restarts == 0 then s.runOk && s.stage in {Dropping, Ended(Updated), Ended(ConnectionLost)}
      else s.stage in {Clearing, Restoring, Restarting, Ended(RolledBack), Ended(ConnectionLost)}
  }

  /** Between the read and the end there is no way back. */
  predicate BeforeReading(stage: Stage) {
    stage.Inspecting? || stage.Pulling? || stage.Renaming? || stage.Stopping? || stage.Recreating? || stage.Verifying?
  }

  lemma CommandKeepsReading(job: Job, s: State, reply: Reply, t: State)
    requires CommandStep(job, s, reply, t) && ReadingDecides(s) && (s.stage == Verifying ==> s.runOk)
    requires BeforeReading(s.stage) ==> s.reading == None
    ensures ReadingDecides(t) && (t.stage == Verifying ==> t.runOk) && (BeforeReading(t.stage) ==> t.reading == None)
  {
    match reply
    case Dropped => assert t.stage == Ended(ConnectionLost);
    case _ =>
  }

  /** In every run: `running` and no restarts leads to the drop of the backup, anything else to the rollback. */
  lemma {:induction false} VerifyDecides(job: Job, d0: Daemon, run: seq<State>)
    requires Run(job, d0, run)
    ensures ReadingDecides(Last(run)) && (Last(run).stage == Verifying ==> Last(run).runOk)
    ensures BeforeReading(Last(run).stage) ==> Last(run).reading == None
    decreases |run|
  {
    if |run| > 1 {
      var before := run[..|run| - 1];
      VerifyDecides(job, d0, before);
      assert Next(job, run[|run| - 2], run[|run| - 1]);
      var reply := ReplyOfStep(job, Last(before), Last(run));
      if !DriftStep(job, Last(before), Last(run)) {
        CommandKeepsReading(job, Last(before), reply, Last(run));
      }
    }
  }

  /** A read that could be made is the one that is remembered, and it is of the container under the name. */
  lemma ReadingIsTaken(job: Job, s: State, t: State)
    requires s.stage == Verifying && CommandStep(job, s, Ok, t)
    ensures job.name in s.daemon.named && t.reading == Some(s.daemon.named[job.name]) && t.daemon == s.daemon
    ensures s.daemon.named[job.name].running && s.daemon.named[job.name].restarts == 0 <==> t.stage == Dropping
    ensures t.stage in {Dropping, Clearing}
  {
  }

  /** What a refused command means: the first three end the update with the host untouched, no later one does. */
  lemma RefusalEnds(job: Job, s: State, t: State)
    requires CommandStep(job, s, Refused, t)
    ensures s.stage == Inspecting ==> t.stage == Ended(NotFound) && t.daemon == s.daemon
    ensures s.stage == Pulling ==> t.stage == Ended(PullFailed) && t.daemon == s.daemon
    ensures s.stage == Renaming ==> t.stage == Ended(RenameFailed) && t.daemon == s.daemon
    ensures s.stage == Stopping ==> t.stage == Recreating && t.daemon == s.daemon
    ensures s.stage == Recreating || s.stage == Verifying ==> t.stage == Clearing && BackupName(job.name) != job.name
    ensures s.stage == Clearing ==> t.stage == Restoring
    ensures s.stage == Restoring ==> t.stage == Restarting && !t.restoreOk
    ensures s.stage == Restarting ==> t.stage == Ended(RolledBack) && !t.startOk
    ensures s.stage == Dropping ==> t.stage == Ended(Updated)
  {
    NamesDiffer(job.name);
  }

  /** The host after an update that went well: the name has a new, running container, all else is as it was. */
  ghost predicate Replaced(job: Job, d0: Daemon, d: Daemon) {
    && job.name in d.named && d.named[job.name].id !in d0.used
    && d.named[job.name].running && d.named[job.name].restarts == 0
    && d.named == d0.named[job.name := d.named[job.name]]
  }

  /**
   From every host with a container under the name that is not Keepup's own, and the backup name free:
   when every command goes well the update ends with the replacement in place and no backup left.
   */
  lemma UpdateCanSucceed(job: Job, d0: Daemon) returns (run: seq<State>)
    requires WellFormed(d0) && job.name in d0.named && job.self != Some(d0.named[job.name].id) && job.name + "__keepup_old" !in d0.named
    ensures Run(job, d0, run) && Last(run).stage == Ended(Updated) && Replaced(job, d0, Last(run).daemon)
    ensures Last(run).original == Some(d0.named[job.name])
  {
    var name, backup := job.name, BackupName(job.name);
    var c := d0.named[name];
    NamesDiffer(name);
    var id := Bound(d0.used);
    var replacement := Container(id, true, 0, false);
    var s0 := Init(d0);
    var s1 := s0.(stage := Pulling, original := Some(c));
    var s2 := s1.(stage := Renaming);
    var aside := d0.(named := (d0.named - {name})[backup := c]);
    var s3 := s2.(stage := Stopping, daemon := aside);
    var stopped := if c.autoRemove then Without(aside, backup) else aside.(named := aside.named[backup := c.(running := false)]);
    var s4 := s3.(stage := Recreating, daemon := stopped);
    var created := Daemon(stopped.named[name := replacement], stopped.used + {id});
    var s5 := s4.(stage := Verifying, daemon := created, runOk := true);
    var s6 := s5.(stage := Dropping, reading := Some(replacement));
    var s7 := s6.(stage := Ended(Updated), rmSent := true, daemon := Without(created, backup));
    assert CommandStep(job, s0, Ok, s1) && CommandStep(job, s1, Ok, s2) && CommandStep(job, s2, Ok, s3);
    StopsAside(job, s3, s4, c);
    assert Created(stopped, name, created);
    assert CommandStep(job, s4, Ok, s5);
    assert CommandStep(job, s5, Ok, s6);
    DropsBackup(job, s6, s7, c.autoRemove);
    assert s7.daemon.named == d0.named[name := replacement];
    run := [s0, s1, s2, s3, s4, s5, s6, s7];
  }

  lemma StopsAside(job: Job, s: State, t: State, c: Container)
    requires s.stage == Stopping && BackupName(job.name) in s.daemon.named && s.daemon.named[BackupName(job.name)] == c
    requires t == s.(stage := Recreating,
                     daemon := if c.autoRemove then Without(s.daemon, BackupName(job.name))
                               else s.daemon.(named := s.daemon.named[BackupName(job.name) := c.(running := false)]))
    ensures CommandStep(job, s, Ok, t)
  {
  }

  /** The last command removes the stopped backup, or has nothing left to remove. */
  lemma DropsBackup(job: Job, s: State, t: State, gone: bool)
    requires s.stage == Dropping && t == s.(stage := Ended(Updated), rmSent := true, daemon := Without(s.daemon, BackupName(job.name)))
    requires if gone then BackupName(job.name) !in s.daemon.named
             else BackupName(job.name) in s.daemon.named && !s.daemon.named[BackupName(job.name)].running
    ensures CommandStep(job, s, Ok, t) || CommandStep(job, s, Refused, t)
  {
    if gone {
      assert Without(s.daemon, BackupName(job.name)) == s.daemon;
    }
  }

  predicate Early(stage: Stage) {
    match stage
    case Ended(outcome) => outcome.NotFound? || outcome.SelfRefused? || outcome.PullFailed? || outcome.RenameFailed?
    case _ => stage.Inspecting? || stage.Pulling? || stage.Renaming?
  }

  lemma LateStaysLate(job: Job, s: State, reply: Reply, t: State)
    requires CommandStep(job, s, reply, t) && !Early(s.stage)
    ensures !Early(t.stage)
  {
    match reply
    case Dropped => assert t.stage == Ended(ConnectionLost);
    case _ =>
  }

  lemma EarlyCommand(job: Job, s: State, reply: Reply, t: State)
    requires CommandStep(job, s, reply, t) && Early(t.stage)
    ensures Early(s.stage) && s.daemon == t.daemon
  {
    if !Early(s.stage) {
      LateStaysLate(job, s, reply, t);
    }
  }

  /** Until a rename-aside succeeds, and for good when it is refused, no command changes the host. */
  lemma {:induction false} RefusedRenameChangesNothing(job: Job, d0: Daemon, run: seq<State>)
    requires Run(job, d0, run) && Early(Last(run).stage)
    ensures forall k | 0 <= k < |run| - 1 :: run[k].daemon == run[k + 1].daemon || DriftStep(job, run[k], run[k + 1])
    decreases |run|
  {
    if |run| > 1 {
      var before := run[..|run| - 1];
      assert Next(job, run[|run| - 2], run[|run| - 1]);
      var s, t := Last(before), Last(run);
      var reply := ReplyOfStep(job, s, t);
      if !DriftStep(job, s, t) {
        EarlyCommand(job, s, reply, t);
      }
      RefusedRenameChangesNothing(job, d0, before);
      forall k | 0 <= k < |run| - 1
        ensures run[k].daemon == run[k + 1].daemon || DriftStep(job, run[k], run[k + 1])
      {
        if k < |run| - 2 {
          assert before[k] == run[k] && before[k + 1] == run[k + 1];
        }
      }
    }
  }

  // ------------------------------------------------------------------
  // Exactly which originals are safe
  // ------------------------------------------------------------------

  ghost predicate EveryRunPreserves(job: Job, d0: Daemon) {
    forall run | Run(job, d0, run) :: Preserved(job, Last(run))
  }

  /** The stop of an auto-removed original deletes it before a replacement was even tried. */
  lemma StopDeletesAutoRemoved(job: Job, d0: Daemon) returns (run: seq<State>)
    requires WellFormed(d0) && job.name in d0.named && BackupName(job.name) !in d0.named
    requires job.self != Some(d0.named[job.name].id) && d0.named[job.name].autoRemove
    ensures Run(job, d0, run) && Last(run).stage == Recreating && !Preserved(job, Last(run))
  {
    var name, backup := job.name, BackupName(job.name);
    var c := d0.named[name];
    NamesDiffer(name);
    var s0 := Init(d0);
    var s1 := s0.(stage := Pulling, original := Some(c));
    var s2 := s1.(stage := Renaming);
    var s3 := s2.(stage := Stopping, daemon := d0.(named := (d0.named - {name})[backup := c]));
    var s4 := s3.(stage := Recreating, daemon := Without(s3.daemon, backup));
    assert CommandStep(job, s0, Ok, s1) && CommandStep(job, s1, Ok, s2) && CommandStep(job, s2, Ok, s3) && CommandStep(job, s3, Ok, s4);
    run := [s0, s1, s2, s3, s4];
  }

  /** Once it has been inspected, an auto-removed original may also exit on its own. */
  lemma AutoRemovedCanVanish(job: Job, d0: Daemon) returns (run: seq<State>)
    requires WellFormed(d0) && Endangered(job, d0)
    ensures Run(job, d0, run) && !Preserved(job, Last(run))
  {
    var s0 := Init(d0);
    var s1 := s0.(stage := Pulling, original := Some(d0.named[job.name]));
    var s2 := s1.(daemon := Without(d0, job.name));
    NamesDiffer(job.name);
    assert CommandStep(job, s0, Ok, s1) && DriftStep(job, s1, s2);
    run := [s0, s1, s2];
  }

  /** The container to replace was started with `--rm` and is not Keepup's own. */
  predicate Endangered(job: Job, d0: Daemon) {
    job.name in d0.named && d0.named[job.name].autoRemove && job.self != Some(d0.named[job.name].id)
  }

  /**
   From every state of a host, a leftover backup included: every run preserves the original exactly
   when that is not one started with `--rm`. Keepup's own container is safe because it is refused.
   */
  lemma SafeExactlyWithoutAutoRemove(job: Job, d0: Daemon)
    requires WellFormed(d0)
    ensures EveryRunPreserves(job, d0) <==> !Endangered(job, d0)
  {
    if Endangered(job, d0) {
      var run := AutoRemovedCanVanish(job, d0);
    } else {
      forall run | Run(job, d0, run)
        ensures Preserved(job, Last(run))
      {
        if job.name in d0.named && !d0.named[job.name].autoRemove {
          OriginalIsFirst(job, d0, run);
          if Last(run).original.Some? {
            OriginalNeverLost(job, d0, run);
          }
        } else {
          RefusedOrUnseen(job, d0, run);
        }
      }
    }
  }

  /** Nothing under the name but Keepup itself: the run ends at the inspect, if it gets that far. */
  ghost predicate EndsAtInspect(job: Job, d0: Daemon, s: State) {
    match s.original
    case Some(c) => s.stage == Ended(SelfRefused) && At(s.daemon, job.name, c.id)
    case None =>
      && s.stage in {Inspecting, Ended(NotFound), Ended(ConnectionLost)}
      && (job.name in s.daemon.named ==> job.name in d0.named && s.daemon.named[job.name].id == d0.named[job.name].id)
  }

  lemma {:induction false} RefusedOrUnseen(job: Job, d0: Daemon, run: seq<State>)
    requires job.name in d0.named ==> job.self == Some(d0.named[job.name].id)
    requires Run(job, d0, run)
    ensures EndsAtInspect(job, d0, Last(run))
    decreases |run|
  {
    if |run| > 1 {
      var before := run[..|run| - 1];
      RefusedOrUnseen(job, d0, before);
      assert Next(job, run[|run| - 2], run[|run| - 1]);
      var reply := ReplyOfStep(job, Last(before), Last(run));
    }
  }

  // ------------------------------------------------------------------
  // What the protocol itself can lose
  // ------------------------------------------------------------------

  /** The host leaves the container with this identity where it is: only commands can remove it. */
  predicate Spares(job: Job, s: State, t: State, id: nat) {
    && (At(s.daemon, job.name, id) ==> At(t.daemon, job.name, id))
    && (At(s.daemon, BackupName(job.name), id) ==> At(t.daemon, BackupName(job.name), id))
  }

  ghost predicate SteadyNext(job: Job, id: nat, s: State, t: State) {
    Next(job, s, t) && (DriftStep(job, s, t) ==> Spares(job, s, t, id))
  }

  ghost predicate SteadyRun(job: Job, d0: Daemon, id: nat, run: seq<State>) {
    Run(job, d0, run) && forall k | 0 <= k < |run| - 1 :: SteadyNext(job, id, run[k], run[k + 1])
  }

  /** The backup name is free, or its container may vanish, before the rename. */
  predicate BackupCanBeFree(job: Job, d0: Daemon) {
    BackupName(job.name) in d0.named ==> d0.named[BackupName(job.name)].autoRemove
  }

  /** Drop what has the backup name, look, pull, rename, stop: the stop deletes the original. */
  lemma StopLosesOriginal(job: Job, d0: Daemon) returns (run: seq<State>)
    requires WellFormed(d0) && Endangered(job, d0) && BackupCanBeFree(job, d0)
    ensures SteadyRun(job, d0, d0.named[job.name].id, run) && !Preserved(job, Last(run))
  {
    var name, backup := job.name, BackupName(job.name);
    NamesDiffer(name);
    var c := d0.named[name];
    var d1 := Without(d0, backup);
    var s0, s1 := Init(d0), Init(d1);
    var s2 := s1.(stage := Pulling, original := Some(c));
    var s3 := s2.(stage := Renaming);
    var s4 := s3.(stage := Stopping, daemon := d1.(named := (d1.named - {name})[backup := c]));
    var s5 := s4.(stage := Recreating, daemon := Without(s4.daemon, backup));
    assert DriftStep(job, s0, s1) && Spares(job, s0, s1, c.id);
    assert CommandStep(job, s1, Ok, s2) && CommandStep(job, s2, Ok, s3) && CommandStep(job, s3, Ok, s4) && CommandStep(job, s4, Ok, s5);
    run := [s0, s1, s2, s3, s4, s5];
    assert s2.stage != s1.stage && s3.stage != s2.stage && s4.stage != s3.stage && s5.stage != s4.stage;
  }

  /** With the backup name held by a container that stays, no rename succeeds and nothing is stopped. */
  ghost predicate Stuck(job: Job, d0: Daemon, s: State)
    requires job.name in d0.named
  {
    var backup, id := BackupName(job.name), d0.named[job.name].id;
    && backup in s.daemon.named && !s.daemon.named[backup].autoRemove && At(s.daemon, job.name, id)
    && (s.original.Some? ==> s.original.value.id == id)
    && s.stage in {Inspecting, Pulling, Renaming, Ended(NotFound), Ended(SelfRefused), Ended(PullFailed), Ended(RenameFailed), Ended(ConnectionLost)}
  }

  lemma CommandStaysStuck(job: Job, d0: Daemon, s: State, reply: Reply, t: State)
    requires job.name in d0.named && Stuck(job, d0, s) && CommandStep(job, s, reply, t)
    ensures Stuck(job, d0, t)
  {
  }

  lemma {:induction false} StaysStuck(job: Job, d0: Daemon, run: seq<State>)
    requires WellFormed(d0) && job.name in d0.named && !BackupCanBeFree(job, d0)
    requires SteadyRun(job, d0, d0.named[job.name].id, run)
    ensures Stuck(job, d0, Last(run))
    decreases |run|
  {
    if |run| > 1 {
      var before := run[..|run| - 1];
      StaysStuck(job, d0, before);
      assert SteadyNext(job, d0.named[job.name].id, run[|run| - 2], run[|run| - 1]);
      var reply := ReplyOfStep(job, Last(before), Last(run));
      if !DriftStep(job, Last(before), Last(run)) {
        CommandStaysStuck(job, d0, Last(before), reply, Last(run));
      }
    }
  }

  ghost predicate EverySteadyRunPreserves(job: Job, d0: Daemon, id: nat) {
    forall run | SteadyRun(job, d0, id, run) :: Preserved(job, Last(run))
  }

  /**
   Where the host never removes the original by itself, the update loses it exactly when it was started
   with `--rm`, is not Keepup's own, and the backup name can be free at the rename.
   */
  lemma LosesExactly(job: Job, d0: Daemon)
    requires WellFormed(d0) && job.name in d0.named
    ensures EverySteadyRunPreserves(job, d0, d0.named[job.name].id) <==> !(Endangered(job, d0) && BackupCanBeFree(job, d0))
  {
    var id := d0.named[job.name].id;
    if Endangered(job, d0) && BackupCanBeFree(job, d0) {
      var run := StopLosesOriginal(job, d0);
    } else {
      forall run | SteadyRun(job, d0, id, run)
        ensures Preserved(job, Last(run))
      {
        if !Endangered(job, d0) {
          SafeExactlyWithoutAutoRemove(job, d0);
        } else {
          StaysStuck(job, d0, run);
        }
      }
    }
  }

  /** What the first inspect sees is the container that was there at the start. */
  ghost predicate SawFirst(job: Job, d0: Daemon, s: State)
    requires job.name in d0.named
  {
    match s.original
    case Some(c) => s.stage != Inspecting && c.id == d0.named[job.name].id && !c.autoRemove
    case None =>
      && s.stage in {Inspecting, Ended(NotFound), Ended(ConnectionLost)}
      && At(s.daemon, job.name, d0.named[job.name].id) && !s.daemon.named[job.name].autoRemove
  }

  lemma CommandKeepsSawFirst(job: Job, d0: Daemon, s: State, reply: Reply, t: State)
    requires job.name in d0.named && SawFirst(job, d0, s) && CommandStep(job, s, reply, t)
    ensures SawFirst(job, d0, t)
  {
    match s.stage
    case Inspecting =>
    case _ => assert t.original == s.original && t.stage != Inspecting;
  }

  lemma {:induction false} OriginalIsFirst(job: Job, d0: Daemon, run: seq<State>)
    requires job.name in d0.named && !d0.named[job.name].autoRemove && Run(job, d0, run)
    ensures SawFirst(job, d0, Last(run))
    decreases |run|
  {
    if |run| > 1 {
      var before := run[..|run| - 1];
      OriginalIsFirst(job, d0, before);
      assert Next(job, run[|run| - 2], run[|run| - 1]);
      var reply := ReplyOfStep(job, Last(before), Last(run));
      if !DriftStep(job, Last(before), Last(run)) {
        CommandKeepsSawFirst(job, d0, Last(before), reply, Last(run));
      }
    }
  }

  // ------------------------------------------------------------------
  // The update itself
  // ------------------------------------------------------------------

  /** A connection to one Docker host, with the history of the update it serves. */
  class DockerHost {
    const job: Job
    var daemon: Daemon
    ghost var run: seq<State>

    ghost predicate Serves(d0: Daemon)
      reads this
    {
      Run(job, d0, run) && Last(run).daemon == daemon && WellFormed(daemon)
    }

    ghost predicate Stands(d0: Daemon, stage: Stage)
      reads this
    {
      Serves(d0) && Last(run).stage == stage
    }

    constructor (job: Job, daemon: Daemon)
      requires WellFormed(daemon)
      ensures this.job == job && this.daemon == daemon && run == [Init(daemon)] && Stands(daemon, Inspecting)
    {
      this.job, this.daemon, run := job, daemon, [Init(daemon)];
    }

    /** Append one protocol step to the history. */
    ghost method Advance(d0: Daemon, reply: Reply, t: State)
      requires Run(job, d0, run) && WellFormed(d0) && CommandStep(job, Last(run), reply, t) && t.daemon == daemon
      modifies this`run
      ensures run == old(run) + [t] && Serves(d0)
    {
      run := run + [t];
      RunKeepsInv(job, d0, run);
    }

    /** Time passes before the next command. */
    method Wait(ghost d0: Daemon)
      requires Serves(d0) && WellFormed(d0) && !Last(run).stage.Ended?
      modifies this
      ensures Serves(d0) && Last(run) == old(Last(run)).(daemon := daemon)
      ensures Drift(job, old(daemon), daemon)
    {
      var later: Daemon := *;
      if Drift(job, daemon, later) {
        daemon := later;
      }
      run := run + [Last(run).(daemon := daemon)];
    }

    method Inspect(name: string) returns (reply: Reply, seen: Option<Container>)
      ensures reply == Ok ==> name in daemon.named && seen == Some(daemon.named[name])
    {
      reply, seen := *, None;
      if reply == Ok {
        if name in daemon.named {
          seen := Some(daemon.named[name]);
        } else {
          reply := Refused;
        }
      }
    }

    method Rename(from: string, to: string) returns (reply: Reply)
      modifies this`daemon
      ensures Allows(reply, Renamed(old(daemon), from, to, daemon), daemon == old(daemon))
    {
      reply := *;
      var effect: bool := *;
      if from !in daemon.named || to in daemon.named {
        reply := if reply == Ok then Refused else reply;
      } else if reply == Ok || (reply == Dropped && effect) {
        daemon := daemon.(named := (daemon.named - {from})[to := daemon.named[from]]);
      }
    }

    method Stop(name: string) returns (reply: Reply)
      modifies this`daemon
      ensures Allows(reply, Stopped(old(daemon), name, daemon), daemon == old(daemon))
    {
      reply := *;
      var effect: bool := *;
      if name !in daemon.named {
        reply := if reply == Ok then Refused else reply;
      } else if reply == Ok || (reply == Dropped && effect) {
        daemon := if daemon.named[name].autoRemove then Without(daemon, name)
                  else daemon.(named := daemon.named[name := daemon.named[name].(running := false)]);
      }
    }

    /** `docker run --name`: even a refused run may leave a created container behind. */
    method RunNew(name: string) returns (reply: Reply)
      modifies this`daemon
      ensures Allows(reply, Created(old(daemon), name, daemon), daemon == old(daemon) || Created(old(daemon), name, daemon))
    {
      reply := *;
      var effect: bool := *;
      if name in daemon.named {
        reply := if reply == Ok then Refused else reply;
      } else if reply == Ok || effect {
        var id := FreshId(daemon.used);
        var running: bool := *;
        daemon := Daemon(daemon.named[name := Container(id, running, 0, false)], daemon.used + {id});
      }
    }

    method Start(name: string) returns (reply: Reply)
      modifies this`daemon
      ensures Allows(reply, Started(old(daemon), name, daemon), daemon == old(daemon))
    {
      reply := *;
      var effect: bool := *;
      if name !in daemon.named {
        reply := if reply == Ok then Refused else reply;
      } else if reply == Ok || (reply == Dropped && effect) {
        daemon := daemon.(named := daemon.named[name := daemon.named[name].(running := true)]);
      }
    }

    method Remove(name: string) returns (reply: Reply)
      modifies this`daemon
      ensures Allows(reply, Removed(old(daemon), name, daemon), daemon == old(daemon))
    {
      reply := *;
      var effect: bool := *;
      if name !in daemon.named || daemon.named[name].running {
        reply := if reply == Ok then Refused else reply;
      } else if reply == Ok || (reply == Dropped && effect) {
        daemon := Without(daemon, name);
      }
    }

    method ForceRemove(name: string) returns (reply: Reply)
      modifies this`daemon
      ensures Allows(reply, daemon == Without(old(daemon), name), daemon == old(daemon))
    {
      reply := *;
      var effect: bool := *;
      if reply == Ok || (reply == Dropped && effect) {
        daemon := Without(daemon, name);
      }
    }

    /** Inspect, and refuse to touch Keepup itself. None: the next step is the pull. */
    method Look(ghost d0: Daemon) returns (ended: Option<Outcome>)
      requires WellFormed(d0) && Stands(d0, Inspecting)
      modifies this
      ensures Stands(d0, if ended.Some? then Ended(ended.value) else Pulling)
    {
      Wait(d0);
      var reply, seen := Inspect(job.name);
      if reply != Ok {
        ended := Some(if reply == Dropped then ConnectionLost else NotFound);
        Advance(d0, reply, Last(run).(stage := Ended(ended.value)));
        return;
      }
      if job.self == Some(seen.value.id) {
        ended := Some(SelfRefused);
        Advance(d0, reply, Last(run).(original := seen, stage := Ended(SelfRefused)));
        return;
      }
      ended := None;
      Advance(d0, reply, Last(run).(original := seen, stage := Pulling));
    }

    /** Pull the image. None: the next step is the rename. */
    method Pull(ghost d0: Daemon) returns (ended: Option<Outcome>)
      requires WellFormed(d0) && Stands(d0, Pulling)
      modifies this
      ensures Stands(d0, if ended.Some? then Ended(ended.value) else Renaming)
    {
      Wait(d0);
      var pull: Reply := *;
      ended := if pull == Ok then None else Some(if pull == Dropped then ConnectionLost else PullFailed);
      Advance(d0, pull, Last(run).(stage := if ended.Some? then Ended(ended.value) else Renaming));
    }

    /** Rename the live container aside and stop it. None: the next step is `docker run`. */
    method SetAside(ghost d0: Daemon) returns (ended: Option<Outcome>)
      requires WellFormed(d0) && Stands(d0, Renaming)
      modifies this
      ensures Stands(d0, if ended.Some? then Ended(ended.value) else Recreating)
    {
      Wait(d0);
      var rename := Rename(job.name, BackupName(job.name));
      Advance(d0, rename, Last(run).(daemon := daemon, stage := Continue(rename, Stopping, Ended(RenameFailed))));
      if rename != Ok {
        ended := Some(if rename == Dropped then ConnectionLost else RenameFailed);
        return;
      }
      Wait(d0);
      var stop := Stop(BackupName(job.name));
      Advance(d0, stop, Last(run).(daemon := daemon, stage := Continue(stop, Recreating, Recreating)));
      ended := if stop == Dropped then Some(ConnectionLost) else None;
    }

    /** Run the replacement, let it settle, and read its state. */
    method RecreateAndVerify(ghost d0: Daemon) returns (running: bool, lost: bool)
      requires WellFormed(d0) && Stands(d0, Recreating)
      modifies this
      ensures Stands(d0, if lost then Ended(ConnectionLost) else if running then Dropping else Clearing)
    {
      running, lost := false, false;
      Wait(d0);
      var created := RunNew(job.name);
      Advance(d0, created, Last(run).(daemon := daemon, runOk := created == Ok, stage := Continue(created, Verifying, Clearing)));
      if created != Ok {
        lost := created == Dropped;
        return;
      }
      Wait(d0);
      var verify, seen := Inspect(job.name);
      if verify != Ok {
        lost := verify == Dropped;
        Advance(d0, verify, Last(run).(stage := if lost then Ended(ConnectionLost) else Clearing));
        return;
      }
      running := Healthy(seen.value);
      Advance(d0, verify, Last(run).(reading := seen, stage := if running then Dropping else Clearing));
    }

    /** Clear any partial replacement, then give the backup its name back. */
    method ClearAndRestore(ghost d0: Daemon) returns (lost: bool)
      requires WellFormed(d0) && Stands(d0, Clearing)
      modifies this
      ensures Stands(d0, if lost then Ended(ConnectionLost) else Restarting)
    {
      Wait(d0);
      var clear := ForceRemove(job.name);
      Advance(d0, clear, Last(run).(daemon := daemon, stage := Continue(clear, Restoring, Restoring)));
      if clear == Dropped {
        return true;
      }
      Wait(d0);
      var restore := Rename(BackupName(job.name), job.name);
      Advance(d0, restore, Last(run).(daemon := daemon, restoreOk := restore == Ok, stage := Continue(restore, Restarting, Restarting)));
      lost := restore == Dropped;
    }

    method Restart(ghost d0: Daemon) returns (outcome: Outcome)
      requires WellFormed(d0) && Stands(d0, Restarting)
      modifies this
      ensures Stands(d0, Ended(outcome)) && outcome in {RolledBack, ConnectionLost}
    {
      Wait(d0);
      var start := Start(job.name);
      outcome := if start == Dropped then ConnectionLost else RolledBack;
      Advance(d0, start, Last(run).(daemon := daemon, startOk := start == Ok, stage := Ended(outcome)));
    }

    method DropBackup(ghost d0: Daemon) returns (outcome: Outcome)
      requires WellFormed(d0) && Stands(d0, Dropping)
      modifies this
      ensures Stands(d0, Ended(outcome)) && outcome in {Updated, ConnectionLost}
    {
      Wait(d0);
      var remove := Remove(BackupName(job.name));
      outcome := if remove == Dropped then ConnectionLost else Updated;
      Advance(d0, remove, Last(run).(daemon := daemon, rmSent := true, stage := Ended(outcome)));
    }

    /** One whole update: its history is a run of the protocol that ends with the returned outcome. */
    method Update() returns (outcome: Outcome)
      requires WellFormed(daemon) && run == [Init(daemon)]
      modifies this
      ensures Stands(old(daemon), Ended(outcome))
      ensures var s := Last(run);
              s.original.Some? && !s.original.value.autoRemove ==>
                forall k | 0 <= k < |run| && run[k].original == s.original :: Preserved(job, run[k])
      ensures outcome == Updated ==> Last(run).original.Some? && ReplacementHolds(job, Last(run))
      ensures var read := Last(run).reading;
              && (outcome == Updated ==> read.Some?)
              && (read.Some? && read.value.running && read.value.restarts == 0 ==> outcome in {Updated, ConnectionLost})
              && (read.Some? && !(read.value.running && read.value.restarts == 0) ==> outcome in {RolledBack, ConnectionLost})
    {
      ghost var d0 := daemon;
      var ended := Look(d0);
      if ended.None? {
        ended := Pull(d0);
      }
      if ended.None? {
        ended := SetAside(d0);
      }
      if ended.Some? {
        outcome := ended.value;
      } else {
        var running, lost := RecreateAndVerify(d0);
        if lost {
          outcome := ConnectionLost;
        } else if running {
          outcome := DropBackup(d0);
        } else {
          lost := ClearAndRestore(d0);
          outcome := ConnectionLost;
          if !lost {
            outcome := Restart(d0);
          }
        }
      }
      RunKeepsInv(job, d0, run);
      VerifyDecides(job, d0, run);
      PrefixesPreserve(job, d0, run);
    }
  }

  /** An identity no container has had yet. */
  method FreshId(used: set<nat>) returns (id: nat)
    ensures id !in used
  {
    id := 0;
    var below := used;
    while id in used
      invariant below <= used
      invariant forall n | n in used && n >= id :: n in below
      decreases below
    {
      below := below - {id};
      id := id + 1;
    }
  }

  lemma PrefixesPreserve(job: Job, d0: Daemon, run: seq<State>)
    requires WellFormed(d0) && Run(job, d0, run)
    ensures forall k | 0 <= k < |run| && run[k].original.Some? && !run[k].original.value.autoRemove :: Preserved(job, run[k])
  {
    forall k | 0 <= k < |run| && run[k].original.Some? && !run[k].original.value.autoRemove
      ensures Preserved(job, run[k])
    {
      OriginalNeverLost(job, d0, run[..k + 1]);
    }
  }
}
